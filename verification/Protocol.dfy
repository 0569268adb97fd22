/**
 The interleaved protocol of the writer, the flusher, the collector and the clients. One step is one locked section of
 the program, or a part of one: splitting a section further only adds interleavings. A step reads and writes what the
 program reads and writes; `role`, `planned`, `latest`, `lost`, `quickPasses`, `collections` and `fault` only record
 history.
 */
module Protocol {
  import opened Types
  import SlotLayout

  // ---------- shared helpers ----------

  function WithSlab(s: State, x: nat, sl: Slab): State
    requires x < |s.slabs|
  { s.(slabs := s.slabs[x := sl]) }

  /** An `assert` of the program whose condition is the negation of `bad`. */
  function Check(s: State, bad: bool): State { s.(fault := s.fault || bad) }

  /** `list_add` of a node: it must not be on a list already. */
  function Linked(sl: Slab, l: ListId): Slab { sl.(link := l) }

  function AppendRec(img: Image, r: Rec): Image { img.(recs := img.recs + [r]) }

  function WriteRec(img: Image, slot: nat, r: Rec): Image {
    if slot < |img.recs| then img.(recs := img.recs[slot := r]) else img
  }

  /** The tags whose entry `modify_index_to` redirects: those found through a key of `src` and naming that very slot. */
  function Redirected(c: Config, index: map<Tag, Loc>, src: nat, nrAlloc: nat, recs: seq<Rec>): set<Tag>
    requires c.buckets > 0
  {
    set t | t in index && index[t].sid == src && index[t].slot < nrAlloc && index[t].slot < |recs|
            && c.TagOf(recs[index[t].slot].key) == t
  }

  function RedirectIndex(index: map<Tag, Loc>, moved: set<Tag>, dst: nat): map<Tag, Loc> {
    map t | t in index :: if t in moved then Loc(dst, index[t].slot) else index[t]
  }

  /** The tags of the keys stored in the first `nrAlloc` slots. */
  function StoredTags(c: Config, nrAlloc: nat, recs: seq<Rec>): set<Tag>
    requires c.buckets > 0
  {
    set i | 0 <= i < nrAlloc && i < |recs| :: c.TagOf(recs[i].key)
  }

  /** `static_cast<int>` of a quotient: truncation toward zero. */
  function TruncDiv(a: int, b: int): int
    requires b > 0
  { if a >= 0 then a / b else -((-a) / b) }

  /** Header fields copied by `flush_mslab_to_dslab`. */
  function CopyHeader(src: Slab, dst: Slab): Slab {
    dst.(cid := src.cid, slotSize := src.slotSize, nrSlots := src.nrSlots, nrAlloc := src.nrAlloc, nrUsed := src.nrUsed)
  }

  // ---------- Put ----------

  /** The class of a pair: the first whose slots hold it. */
  function ClassFor(c: Config, k: Key, v: Value): nat { SlotLayout.ClassOf(c.classes, c.RecSize(k, v)) }

  /** A pair that no class holds is refused. */
  ghost predicate PutBegin(c: Config, s: State, s': State, k: Key, v: Value) {
    && s.put.PIdle? && ClassFor(c, k, v) < |c.classes|
    && s' == s.(put := PAlloc(k, v, ClassFor(c, k, v)))
  }

  ghost function AfterOpen(c: Config, s: State, x: nat): State
    requires Fits(c, s) && s.put.PAlloc? && s.put.cid < |c.classes| && c.classes[s.put.cid] > 0 && x < c.nrMslab
  {
    WithSlab(s, x, s.slabs[x].(cid := s.put.cid, slotSize := c.classes[s.put.cid],
                               nrSlots := c.SlotsOf(s.put.cid), link := Partial(s.put.cid), role := Open))
    .(size := Bump(s.size, MslabFree, -1), mem := s.mem[x := Image(c.classes[s.put.cid], [])])
  }

  /** `slot_alloc` with no open slab of the class: take a free memory slab. */
  ghost predicate PutOpen(c: Config, s: State, s': State, x: nat) {
    && Fits(c, s)
    && s.put.PAlloc? && s.put.cid < |c.classes| && c.classes[s.put.cid] > 0
    && Members(s.slabs, Partial(s.put.cid)) == {}
    && x < c.nrMslab && s.slabs[x].link == MslabFree
    && s' == AfterOpen(c, s, x)
  }

  ghost function AfterAlloc(c: Config, s: State, x: nat, junk: Rec): State
    requires Fits(c, s) && s.put.PAlloc? && x < c.nrMslab
  {
    var sl := s.slabs[x];
    var grown := sl.(nrAlloc := sl.nrAlloc + 1, nrUsed := sl.nrUsed + 1);
    Check(WithSlab(s, x, if grown.IsFull() then grown.(link := NoList, role := Filled) else grown)
          .(mem := s.mem[x := AppendRec(s.mem[x], junk)],
            put := PSlot(s.put.k, s.put.v, x, sl.nrAlloc)),
          sl.cid < -1 || sl.IsFull())
  }

  /** `slot_alloc` on the open slab; the new slot holds whatever bytes were there. */
  ghost predicate PutAlloc(c: Config, s: State, s': State, x: nat, junk: Rec) {
    && Fits(c, s)
    && s.put.PAlloc?
    && x < c.nrMslab && s.slabs[x].link == Partial(s.put.cid)
    && s' == AfterAlloc(c, s, x, junk)
  }

  /** Shutdown while waiting for a free memory slab. */
  ghost predicate PutAbort(c: Config, s: State, s': State) {
    s.put.PAlloc? && s' == s.(put := PIdle)
  }

  ghost function AfterWrite(c: Config, s: State): State
    requires Fits(c, s) && s.put.PSlot? && s.put.sid < c.nrMslab
  {
    s.(mem := s.mem[s.put.sid := WriteRec(s.mem[s.put.sid], s.put.slot, Rec(s.put.k, s.put.v))],
       put := PWritten(s.put.k, s.put.v, s.put.sid, s.put.slot))
  }

  ghost predicate PutWrite(c: Config, s: State, s': State) {
    && Fits(c, s)
    && s.put.PSlot? && s.put.sid < c.nrMslab
    && s' == AfterWrite(c, s)
  }

  /** The index holds an entry for the key's bucket and digest: point it at the new slot. */
  ghost function AfterHit(c: Config, s: State, t: Tag, from: nat): State
    requires Fits(c, s) && s.put.PWritten? && from < c.Slabs()
  {
    Check(WithSlab(s, from, s.slabs[from].(nrUsed := s.slabs[from].nrUsed - 1))
          .(index := s.index[t := Loc(s.put.sid, s.put.slot)],
            latest := s.latest[s.put.k := s.put.v],
            put := PIndexed(s.put.sid)),
          s.slabs[from].nrUsed <= 0)
  }

  ghost predicate PutHit(c: Config, s: State, s': State) {
    && Fits(c, s)
    && s.put.PWritten?
    && var t := c.TagOf(s.put.k);
       && t in s.index && s.index[t].sid < c.Slabs()
       && s' == AfterHit(c, s, t, s.index[t].sid)
  }

  /** Chain a fresh entry. A second entry for the same bucket and digest would be a fault. */
  function Insert(c: Config, s: State): State
    requires c.buckets > 0 && (s.put.PWritten? || s.put.PWaiting?)
  {
    var t := c.TagOf(s.put.k);
    Check(s.(index := s.index[t := Loc(s.put.sid, s.put.slot)],
             nrFreeEntry := s.nrFreeEntry - 1,
             latest := s.latest[s.put.k := s.put.v],
             put := PIndexed(s.put.sid)),
          t in s.index)
  }

  ghost predicate PutMiss(c: Config, s: State, s': State) {
    && Fits(c, s)
    && s.put.PWritten? && c.TagOf(s.put.k) !in s.index && s.nrFreeEntry > 0
    && s' == Insert(c, s)
  }

  /** No free entry: release the index lock and wait. */
  ghost predicate PutBlock(c: Config, s: State, s': State) {
    && Fits(c, s)
    && s.put.PWritten? && c.TagOf(s.put.k) !in s.index && s.nrFreeEntry <= 0
    && s' == s.(put := PWaiting(s.put.k, s.put.v, s.put.sid, s.put.slot))
  }

  /** Woken with a free entry: insert without searching the index again. */
  ghost predicate PutWake(c: Config, s: State, s': State) {
    && Fits(c, s)
    && s.put.PWaiting? && s.nrFreeEntry > 0
    && s' == Insert(c, s)
  }

  ghost function AfterDone(c: Config, s: State): State
    requires Fits(c, s) && s.put.PIndexed? && s.put.sid < c.nrMslab
  {
    var x := s.put.sid;
    if s.slabs[x].IsFull()
    then Check(WithSlab(s, x, Linked(s.slabs[x], MslabFull).(role := MFull))
               .(size := Bump(s.size, MslabFull, 1), put := PIdle),
               s.slabs[x].link != NoList)
    else s.(put := PIdle)
  }

  /** Publish the slab if it is full. */
  ghost predicate PutDone(c: Config, s: State, s': State) {
    && Fits(c, s)
    && s.put.PIndexed? && s.put.sid < c.nrMslab
    && s' == AfterDone(c, s)
  }

  // ---------- Delete ----------

  /** `counted` tells whether the build evaluates the decrement that sits inside an `assert`. */
  ghost predicate Delete(c: Config, s: State, s': State, k: Key, counted: bool) {
    && Fits(c, s)
    && var t := c.TagOf(k);
       if t !in s.index then s' == s.(latest := s.latest - {k})
       else
         && s.index[t].sid < c.Slabs()
         && var x := s.index[t].sid;
            var gone := s.(index := s.index - {t}, nrFreeEntry := s.nrFreeEntry + 1, latest := s.latest - {k});
            s' == if counted
                  then Check(WithSlab(gone, x, s.slabs[x].(nrUsed := s.slabs[x].nrUsed - 1)), s.slabs[x].nrUsed <= 0)
                  else gone
  }

  // ---------- flush ----------

  ghost function AfterFlushTake(c: Config, s: State, x: nat): State
    requires Fits(c, s) && x < c.nrMslab
  {
    Check(WithSlab(s, x, s.slabs[x].(link := NoList, role := Flushing))
          .(size := Bump(s.size, MslabFull, -1), flush := FGotM(x)),
          s.slabs[x].cid == -1)
  }

  ghost predicate FlushTake(c: Config, s: State, s': State, x: nat) {
    && Fits(c, s)
    && s.flush.FIdle? && x < c.nrMslab && s.slabs[x].link == MslabFull
    && s' == AfterFlushTake(c, s, x)
  }

  ghost function AfterTarget(c: Config, s: State, x: nat, ch: nat): State
    requires Fits(c, s) && s.flush.FGotM? && c.IsDisk(x)
  {
    Check(WithSlab(s, x, s.slabs[x].(link := NoList, role := Target))
          .(size := Bump(s.size, DslabFree(ch), -1), nrFreeDslab := s.nrFreeDslab - 1,
            flush := FGotD(s.flush.m, x, ch)),
          s.slabs[x].cid != -1 || s.nrFreeDslab - 1 < 0 || ch >= c.nrChannels)
  }

  ghost predicate FlushTarget(c: Config, s: State, s': State, x: nat, ch: nat) {
    && Fits(c, s)
    && s.flush.FGotM? && c.IsDisk(x) && s.slabs[x].link == DslabFree(ch)
    && s' == AfterTarget(c, s, x, ch)
  }

  ghost function AfterFlushWrite(c: Config, s: State): State
    requires Fits(c, s) && s.flush.FGotD? && s.flush.m < c.nrMslab && c.IsDisk(s.flush.d)
  {
    var m, d := s.flush.m, s.flush.d;
    WithSlab(s, d, CopyHeader(s.slabs[m], s.slabs[d]).(role := TargetWritten))
    .(disk := s.disk[c.BlockOf(d) := s.mem[m]], flush := FWritten(m, d, s.flush.ch))
  }

  /** `flush_mslab_to_dslab`: write the block, copy the header. */
  ghost predicate FlushWrite(c: Config, s: State, s': State) {
    && Fits(c, s)
    && s.flush.FGotD? && s.flush.m < c.nrMslab && c.IsDisk(s.flush.d)
    && s' == AfterFlushWrite(c, s)
  }

  /** `modify_index_to(src, dst)` for a memory slab `src`. */
  function ModifyIndexTo(c: Config, s: State, src: nat, dst: nat, srcRole: Role, dstRole: Role): State
    requires c.buckets > 0 && src < |s.mem| && src < |s.slabs| && dst < |s.slabs|
  {
    var moved := Redirected(c, s.index, src, s.slabs[src].nrAlloc, s.mem[src].recs);
    s.(index := RedirectIndex(s.index, moved, dst),
       slabs := s.slabs[src := s.slabs[src].(nrUsed := 0, role := srcRole)]
                       [dst := s.slabs[dst].(nrUsed := |moved|, role := dstRole)])
  }

  ghost function AfterFlushRedirect(c: Config, s: State): State
    requires Fits(c, s) && s.flush.FWritten? && s.flush.m < c.nrMslab && c.IsDisk(s.flush.d)
  {
    var m, d := s.flush.m, s.flush.d;
    Check(ModifyIndexTo(c, s, m, d, Flushed, TargetLive).(flush := FMoved(m, d, s.flush.ch)),
          s.slabs[d].cid != s.slabs[m].cid || s.slabs[d].cid == -1)
  }

  ghost predicate FlushRedirect(c: Config, s: State, s': State) {
    && Fits(c, s)
    && s.flush.FWritten? && s.flush.m < c.nrMslab && c.IsDisk(s.flush.d)
    && s' == AfterFlushRedirect(c, s)
  }

  ghost function AfterFree(c: Config, s: State): State
    requires Fits(c, s) && s.flush.FMoved? && s.flush.m < c.nrMslab
  {
    var m := s.flush.m;
    Check(WithSlab(s, m, Linked(s.slabs[m].Reset(), MslabFree).(role := MFree))
          .(size := Bump(s.size, MslabFree, 1), flush := FFreed(s.flush.d, s.flush.ch)),
          s.slabs[m].link != NoList)
  }

  ghost predicate FlushFree(c: Config, s: State, s': State) {
    && Fits(c, s)
    && s.flush.FMoved? && s.flush.m < c.nrMslab
    && s' == AfterFree(c, s)
  }

  ghost function AfterStore(c: Config, s: State): State
    requires Fits(c, s) && s.flush.FFreed? && c.IsDisk(s.flush.d)
  {
    var d := s.flush.d;
    Check(WithSlab(s, d, Linked(s.slabs[d], DslabFull(s.flush.ch)).(role := Stored))
          .(size := Bump(s.size, DslabFull(s.flush.ch), 1), nrFullDslab := s.nrFullDslab + 1, flush := FIdle),
          s.slabs[d].link != NoList)
  }

  ghost predicate FlushStore(c: Config, s: State, s': State) {
    && Fits(c, s)
    && s.flush.FFreed? && c.IsDisk(s.flush.d)
    && s' == AfterStore(c, s)
  }

  // ---------- collector: entry ----------

  ghost predicate GcWake(c: Config, s: State, s': State) {
    s.gc.GIdle? && s.nrFullDslab > 0 && s' == s.(gc := GAwake)
  }

  ghost predicate GcRead(c: Config, s: State, s': State) {
    s.gc.GAwake? && s' == Check(s.(gc := GSeen(s.nrFreeDslab)), s.nrFreeDslab < 0)
  }

  // ---------- quick GC ----------

  predicate OpsInBounds(c: Config, s: State) { 0 < s.opsSize <= c.maxOps }

  /** Sum of the `size_` fields of the first `n` lists of the pool. */
  function PoolSizes(size: map<ListId, int>, n: nat): int {
    if n == 0 then 0 else PoolSizes(size, n - 1) + SizeOf(size, OpsPool(n - 1))
  }

  /** `check_ops_pool`: each list of the pool has its size, and the sizes add up to `ops_pool_size_`. */
  predicate CheckOpsPool(c: Config, s: State) {
    && (forall ch :: 0 <= ch < c.nrChannels ==> |Members(s.slabs, OpsPool(ch))| == SizeOf(s.size, OpsPool(ch)))
    && PoolSizes(s.size, c.nrChannels) == s.opsSize
  }

  function AfterDropOne(c: Config, s: State): State
  {
    Check(s.(gc := GSelect(1, Drop(1, 0, false)), quickPasses := s.quickPasses + 1),
          !OpsInBounds(c, s) || !CheckOpsPool(c, s))
  }

  /** No free index entry: drop one disk slab. */
  ghost predicate GcDropOne(c: Config, s: State, s': State) {
    && s.gc.GSeen? && s.nrFreeEntry == 0
    && s' == AfterDropOne(c, s)
  }

  ghost predicate GcChooseQuick(c: Config, s: State, s': State) {
    s.gc.GSeen? && s.nrFreeEntry != 0 && s.gc.free < s.low && s' == s.(gc := GPlan)
  }

  function QuickHigh(c: Config, high: nat): nat { Min(3 * high / 2, c.highMax) }

  function QuickLow(c: Config, low: nat, high': nat): nat {
    Min(Min(3 * low / 2, 9 * high' / 10), c.maxOps)
  }

  /** Slabs to hand to the pool and to the free lists, for `free` free disk slabs. */
  function BackToOps(c: Config, opsSize: int): int { Min(opsSize, c.maxOps - opsSize) }

  function BackToFree(low': nat, free: int): int { TruncDiv(10 * (low' - free) + 3 * low', 10) }

  function AfterPlan(c: Config, s: State): State
  {
    var high' := QuickHigh(c, s.high);
    var low' := QuickLow(c, s.low, high');
    var drop := Drop(BackToFree(low', s.nrFreeDslab), BackToOps(c, s.opsSize), true);
    Check(s.(high := high', low := low', gc := GSelect(drop.toFree + drop.toOps, drop),
             quickPasses := s.quickPasses + 1),
          !OpsInBounds(c, s) || !CheckOpsPool(c, s) || s.nrFreeDslab < 0)
  }

  /** `quick_gc`: raise the water marks and compute the demand. */
  ghost predicate GcPlan(c: Config, s: State, s': State) {
    && s.gc.GPlan?
    && s' == AfterPlan(c, s)
  }

  ghost function AfterSelect(c: Config, s: State, x: nat, ch: nat): State
    requires Fits(c, s) && s.gc.GSelect? && c.IsDisk(x)
  {
    WithSlab(s, x, s.slabs[x].(link := ToDrop, role := Victim))
    .(size := Bump(s.size, DslabFull(ch), -1), nrFullDslab := s.nrFullDslab - 1,
      gc := GSelect(s.gc.left - 1, s.gc.drop))
  }

  ghost predicate GcSelect(c: Config, s: State, s': State, x: nat, ch: nat) {
    && Fits(c, s)
    && s.gc.GSelect? && s.gc.left > 0 && c.IsDisk(x) && s.slabs[x].link == DslabFull(ch)
    && s' == AfterSelect(c, s, x, ch)
  }

  ghost predicate GcSelected(c: Config, s: State, s': State) {
    s.gc.GSelect? && s.gc.left <= 0 && s' == s.(gc := GEvict(s.gc.drop, {}))
  }

  ghost function AfterEvict(c: Config, s: State, x: nat): State
    requires Fits(c, s) && s.gc.GEvict? && c.IsDisk(x)
  {
    var doomed := StoredTags(c, s.slabs[x].nrAlloc, s.disk[c.BlockOf(x)].recs);
    WithSlab(s, x, s.slabs[x].(nrUsed := 0, role := Evicted))
    .(index := s.index - doomed,
      nrFreeEntry := s.nrFreeEntry + |s.index.Keys * doomed|,
      gc := GEvict(s.gc.drop, s.gc.done + {x}))
  }

  /** `evict_dslab`: delete the entry of every stored key, wherever the entry points. */
  ghost predicate GcEvict(c: Config, s: State, s': State, x: nat) {
    && Fits(c, s)
    && s.gc.GEvict? && c.IsDisk(x) && s.slabs[x].link == ToDrop && x !in s.gc.done
    && s' == AfterEvict(c, s, x)
  }

  ghost predicate GcEvicted(c: Config, s: State, s': State) {
    && s.gc.GEvict? && Members(s.slabs, ToDrop) <= s.gc.done
    && s' == s.(gc := GReturnOps(0, s.gc.drop))
  }

  ghost function AfterReturnOps(c: Config, s: State, x: nat): State
    requires Fits(c, s) && s.gc.GReturnOps? && c.IsDisk(x)
  {
    var l := OpsPool(c.Channel(x));
    WithSlab(s, x, Linked(s.slabs[x].Reset(), l).(role := Spare))
    .(size := Bump(s.size, l, 1), opsSize := s.opsSize + 1, gc := GReturnOps(s.gc.given + 1, s.gc.drop))
  }

  ghost predicate GcReturnOps(c: Config, s: State, s': State, x: nat) {
    && Fits(c, s)
    && s.gc.GReturnOps? && s.gc.given < s.gc.drop.toOps && c.IsDisk(x) && s.slabs[x].link == ToDrop
    && s' == AfterReturnOps(c, s, x)
  }

  ghost function AfterLose(c: Config, s: State, x: nat): State
    requires Fits(c, s) && s.gc.GReturnOps? && c.IsDisk(x)
  {
    WithSlab(s, x, s.slabs[x].Reset().(role := Lost))
    .(lost := s.lost + {x}, gc := GReturnFree(s.gc.drop))
  }

  /** The slab is unlinked and reset before the loop tests whether to stop: it ends on no list. */
  ghost predicate GcLose(c: Config, s: State, s': State, x: nat) {
    && Fits(c, s)
    && s.gc.GReturnOps? && s.gc.given >= s.gc.drop.toOps && c.IsDisk(x) && s.slabs[x].link == ToDrop
    && s' == AfterLose(c, s, x)
  }

  ghost predicate GcReturnedOps(c: Config, s: State, s': State) {
    s.gc.GReturnOps? && Members(s.slabs, ToDrop) == {} && s' == s.(gc := GReturnFree(s.gc.drop))
  }

  ghost function AfterReturnFree(c: Config, s: State, x: nat): State
    requires Fits(c, s) && c.IsDisk(x)
  {
    var l := DslabFree(c.Channel(x));
    Check(WithSlab(s, x, Linked(s.slabs[x].Reset(), l).(role := DFree))
          .(size := Bump(s.size, l, 1), nrFreeDslab := s.nrFreeDslab + 1),
          !(0 <= s.nrFreeDslab + 1 <= |c.block|))
  }

  ghost predicate GcReturnFree(c: Config, s: State, s': State, x: nat) {
    && Fits(c, s)
    && s.gc.GReturnFree? && c.IsDisk(x) && s.slabs[x].link == ToDrop
    && s' == AfterReturnFree(c, s, x)
  }

  ghost predicate GcQuickDone(c: Config, s: State, s': State) {
    s.gc.GReturnFree? && Members(s.slabs, ToDrop) == {} && s' == Check(s.(gc := GIdle), !CheckOpsPool(c, s))
  }

  // ---------- normal GC ----------

  /** Enough free entries and free disk slabs, as read without a lock: choose normal GC. */
  ghost predicate GcChooseNormal(c: Config, s: State, s': State) {
    s.gc.GSeen? && s.nrFreeEntry != 0 && s.gc.free >= s.low && s' == s.(gc := GNormal)
  }

  ghost function AfterScan(c: Config, s: State, cands: set<nat>): State
    requires Fits(c, s) && forall x :: x in cands ==> c.IsDisk(x) && x < |s.slabs|
  {
    Check(s.(gc := GPack(Pass(s.opsSize, 0, cands), [])), exists x :: x in cands && s.slabs[x].cid == -1)
  }

  /**
   The bounded heap hands over at most `3 * ops_pool_size_` full disk slabs. The channels are locked one at a time; only
   the collector takes slabs off a full list, so what the heap holds at the end is still on the full lists.
   */
  ghost predicate GcScan(c: Config, s: State, s': State, cands: set<nat>) {
    && Fits(c, s)
    && s.gc.GNormal?
    && (forall x :: x in cands ==> c.IsDisk(x) && s.slabs[x].link.DslabFull?)
    && |cands| <= 3 * s.opsSize
    && s' == AfterScan(c, s, cands)
  }

  /** `nr_slots_moved`. */
  function SeenSum(picks: seq<Pick>): int {
    if picks == [] then 0 else SeenSum(picks[..|picks| - 1]) + picks[|picks| - 1].seen
  }

  /** The packing loop reads `nr_used` of one candidate of the class, without a lock, and takes it if it fits. */
  ghost predicate GcPick(c: Config, s: State, s': State, x: nat) {
    && Fits(c, s)
    && s.gc.GPack? && s.gc.pass.cid < |c.classes| && x in s.gc.pass.cands && x < |s.slabs|
    && s.slabs[x].cid == s.gc.pass.cid
    && s.slabs[x].nrUsed + SeenSum(s.gc.picks) <= s.slabs[x].nrSlots
    && s' == Check(s.(gc := GPack(s.gc.pass.(cands := s.gc.pass.cands - {x}),
                                  s.gc.picks + [Pick(x, s.slabs[x].nrUsed)])),
                   s.slabs[x].nrUsed < 0)
  }

  /** Fewer than two slabs would fit: leave the class alone. */
  ghost predicate GcSkip(c: Config, s: State, s': State) {
    && s.gc.GPack? && s.gc.pass.cid < |c.classes| && |s.gc.picks| <= 1
    && s' == s.(gc := GPack(s.gc.pass.(cid := s.gc.pass.cid + 1), []))
  }

  ghost function AfterTake(c: Config, s: State, x: nat, ch: nat): State
    requires Fits(c, s) && s.gc.GPack? && c.IsDisk(x)
  {
    WithSlab(s, x, s.slabs[x].(link := NoList, role := OpsTaken))
    .(size := Bump(s.size, OpsPool(ch), -1), opsSize := s.opsSize - 1,
      gc := GTook(s.gc.pass, s.gc.picks, x))
  }

  /** Take a spare slab from the pool. */
  ghost predicate GcTake(c: Config, s: State, s': State, x: nat, ch: nat) {
    && Fits(c, s)
    && s.gc.GPack? && |s.gc.picks| > 1 && s.opsSize > 0 && c.IsDisk(x) && s.slabs[x].link == OpsPool(ch)
    && s' == AfterTake(c, s, x, ch)
  }

  /** The scan of the pool comes back to its first channel without a slab. */
  ghost predicate GcTakeNone(c: Config, s: State, s': State) {
    && s.gc.GPack? && |s.gc.picks| > 1 && s.opsSize > 0 && OfFamily(s.slabs, Pool) == {}
    && s' == Check(s, true)
  }

  ghost function AfterLinkOps(c: Config, s: State): State
    requires Fits(c, s) && s.gc.GTook? && c.IsDisk(s.gc.ops)
  {
    var x := s.gc.ops;
    var l := DslabFull(c.Channel(x));
    Check(WithSlab(s, x, Linked(s.slabs[x].Reset(), l).(role := OpsLinked))
          .(size := Bump(s.size, l, 1), collections := s.collections + 1,
            gc := GLink(s.gc.pass, s.gc.picks, x, 0)),
          s.slabs[x].link != NoList)
  }

  /** Link the spare slab as full. `nr_full_dslab_` is not raised. */
  ghost predicate GcLinkOps(c: Config, s: State, s': State) {
    && Fits(c, s)
    && s.gc.GTook? && c.IsDisk(s.gc.ops)
    && s' == AfterLinkOps(c, s)
  }

  ghost function AfterUnlink(c: Config, s: State): State
    requires Fits(c, s) && s.gc.GLink? && s.gc.j < |s.gc.picks| && c.IsDisk(s.gc.picks[s.gc.j].sid)
  {
    var x := s.gc.picks[s.gc.j].sid;
    WithSlab(s, x, s.slabs[x].(link := FreeList(c.Channel(x)), role := Source))
    .(size := Bump(s.size, DslabFull(c.Channel(x)), -1), nrFullDslab := s.nrFullDslab - 1,
      gc := GLink(s.gc.pass, s.gc.picks, s.gc.ops, s.gc.j + 1))
  }

  /** Move one source slab from the full list to the collection's free list. */
  ghost predicate GcUnlink(c: Config, s: State, s': State) {
    && Fits(c, s)
    && s.gc.GLink? && s.gc.j < |s.gc.picks| && c.IsDisk(s.gc.picks[s.gc.j].sid)
    && s' == AfterUnlink(c, s)
  }

  ghost function AfterInit(c: Config, s: State): State
    requires Fits(c, s) && s.gc.GLink? && |s.gc.picks| > 0 && s.gc.picks[0].sid < c.Slabs()
  {
    var b, x := c.Buffer(), s.gc.picks[0].sid;
    WithSlab(s, b, s.slabs[b].Reset().(slotSize := s.slabs[x].slotSize, nrSlots := s.slabs[x].nrSlots,
                                       cid := s.slabs[x].cid, role := BufferLive))
    .(mem := s.mem[b := Image(s.slabs[x].slotSize, [])],
      gc := GLoad(s.gc.pass, s.gc.picks, s.gc.ops, 0, 0))
  }

  /** Format `gc_buffer_` like the first source. */
  ghost predicate GcInit(c: Config, s: State, s': State) {
    && Fits(c, s)
    && s.gc.GLink? && s.gc.j == |s.gc.picks| > 0 && s.gc.picks[0].sid < c.Slabs()
    && s' == AfterInit(c, s)
  }

  ghost function AfterLoad(c: Config, s: State): State
    requires Fits(c, s) && s.gc.GLoad? && s.gc.j < |s.gc.picks| && s.gc.picks[s.gc.j].sid < c.Slabs()
  {
    var b, x := c.Buffer(), s.gc.picks[s.gc.j].sid;
    var size := s.gc.size + s.slabs[x].nrUsed;
    Check(s.(gc := GMove(s.gc.pass, s.gc.picks, s.gc.ops, s.gc.j, 0, size)),
          size > s.slabs[b].nrSlots || s.slabs[x].cid == -1 || s.slabs[x].cid != s.slabs[b].cid)
  }

  /** Start on the next source: add up its `nr_used` and check that the total fits. */
  ghost predicate GcLoad(c: Config, s: State, s': State) {
    && Fits(c, s)
    && s.gc.GLoad? && s.gc.j < |s.gc.picks| && s.gc.picks[s.gc.j].sid < c.Slabs()
    && s' == AfterLoad(c, s)
  }

  /** Move record `r` of slot `i` of slab `x` into `gc_buffer_` if the index still points at it. */
  ghost function AfterMoveSlot(c: Config, s: State, x: nat, i: nat, r: Rec): State
    requires Fits(c, s) && s.gc.GMove?
  {
    var b, t := c.Buffer(), c.TagOf(r.key);
    var buf := s.slabs[b];
    if t in s.index && s.index[t] == Loc(x, i)
    then Check(WithSlab(s, b, buf.(nrAlloc := buf.nrAlloc + 1, nrUsed := buf.nrUsed + 1))
               .(mem := s.mem[b := AppendRec(s.mem[b], r)],
                 index := s.index[t := Loc(b, buf.nrAlloc)],
                 gc := GMove(s.gc.pass, s.gc.picks, s.gc.ops, s.gc.j, i + 1, s.gc.size)),
               buf.IsFull())
    else s.(gc := GMove(s.gc.pass, s.gc.picks, s.gc.ops, s.gc.j, i + 1, s.gc.size))
  }

  ghost predicate GcMoveSlot(c: Config, s: State, s': State) {
    && Fits(c, s)
    && s.gc.GMove? && s.gc.j < |s.gc.picks| && c.IsDisk(s.gc.picks[s.gc.j].sid)
    && var x, i := s.gc.picks[s.gc.j].sid, s.gc.i;
       && i < s.slabs[x].nrAlloc && i < |s.disk[c.BlockOf(x)].recs|
       && s' == AfterMoveSlot(c, s, x, i, s.disk[c.BlockOf(x)].recs[i])
  }

  ghost function AfterMoveDone(c: Config, s: State, x: nat): State
    requires Fits(c, s) && s.gc.GMove? && c.IsDisk(x)
  {
    WithSlab(s, x, s.slabs[x].(nrUsed := 0, role := Drained))
    .(gc := GLoad(s.gc.pass, s.gc.picks, s.gc.ops, s.gc.j + 1, s.gc.size))
  }

  ghost predicate GcMoveDone(c: Config, s: State, s': State) {
    && Fits(c, s)
    && s.gc.GMove? && s.gc.j < |s.gc.picks| && c.IsDisk(s.gc.picks[s.gc.j].sid)
    && s.gc.i == s.slabs[s.gc.picks[s.gc.j].sid].nrAlloc
    && s' == AfterMoveDone(c, s, s.gc.picks[s.gc.j].sid)
  }

  ghost function AfterGcWrite(c: Config, s: State): State
    requires Fits(c, s) && s.gc.GLoad? && c.IsDisk(s.gc.ops)
  {
    var b, d := c.Buffer(), s.gc.ops;
    Check(WithSlab(s, d, CopyHeader(s.slabs[b], s.slabs[d]).(role := OpsWritten))
          .(disk := s.disk[c.BlockOf(d) := s.mem[b]], gc := GWritten(s.gc.pass, d)),
          s.slabs[b].cid == -1)
  }

  /** `flush_mslab_to_dslab(gc_buffer_, ops_slab)`. */
  ghost predicate GcWrite(c: Config, s: State, s': State) {
    && Fits(c, s)
    && s.gc.GLoad? && s.gc.j == |s.gc.picks| && c.IsDisk(s.gc.ops)
    && s' == AfterGcWrite(c, s)
  }

  ghost function AfterGcRedirect(c: Config, s: State): State
    requires Fits(c, s) && s.gc.GWritten? && c.IsDisk(s.gc.ops)
  {
    ModifyIndexTo(c, s, c.Buffer(), s.gc.ops, BufferIdle, Stored)
    .(gc := GPack(s.gc.pass.(cid := s.gc.pass.cid + 1), []))
  }

  ghost predicate GcRedirect(c: Config, s: State, s': State) {
    && Fits(c, s)
    && s.gc.GWritten? && c.IsDisk(s.gc.ops)
    && s' == AfterGcRedirect(c, s)
  }

  function AfterTune(c: Config, s: State): State
    requires s.gc.GPack?
  {
    var oldOps := s.gc.pass.oldOps;
    var above := s.nrFreeDslab > s.high;
    var low' := if above then Max(s.low - 10, c.lowMin) else s.low;
    var high' := if above then Max(s.high - 10, 11 * low' / 10) else s.high;
    Check(s.(low := low', high := high', gc := GRefill(oldOps, if above then Max(10, oldOps - 1) else oldOps)),
          0 != |OfFamily(s.slabs, Reclaimed)| < oldOps - s.opsSize)
  }

  /** `tune_ops_pool_size`: lower the water marks when many disk slabs are free. */
  ghost predicate GcTune(c: Config, s: State, s': State) {
    && s.gc.GPack?
    && (s.gc.pass.cid >= |c.classes| || (|s.gc.picks| > 1 && s.opsSize <= 0))
    && s' == AfterTune(c, s)
  }

  ghost function AfterRefill(c: Config, s: State, x: nat, ch: nat): State
    requires Fits(c, s) && c.IsDisk(x)
  {
    WithSlab(s, x, Linked(s.slabs[x].Reset(), OpsPool(ch)).(role := Spare))
    .(size := Bump(s.size, OpsPool(ch), 1), opsSize := s.opsSize + 1)
  }

  ghost predicate GcRefill(c: Config, s: State, s': State, x: nat, ch: nat) {
    && Fits(c, s)
    && s.gc.GRefill? && s.opsSize < s.gc.oldOps && c.IsDisk(x) && s.slabs[x].link == FreeList(ch)
    && s' == AfterRefill(c, s, x, ch)
  }

  ghost predicate GcRefilled(c: Config, s: State, s': State) {
    && s.gc.GRefill? && s.opsSize >= s.gc.oldOps
    && s' == Check(s.(gc := GTrim(s.gc.oldOps, s.opsSize - s.gc.target)), s.opsSize > s.gc.oldOps)
  }

  ghost function AfterTrim(c: Config, s: State, x: nat, ch: nat): State
    requires Fits(c, s) && s.gc.GTrim? && c.IsDisk(x)
  {
    WithSlab(s, x, Linked(s.slabs[x].Reset(), FreeList(ch)).(role := Drained))
    .(size := Bump(s.size, OpsPool(ch), -1), opsSize := s.opsSize - 1, gc := GTrim(s.gc.oldOps, s.gc.left - 1))
  }

  ghost predicate GcTrim(c: Config, s: State, s': State, x: nat, ch: nat) {
    && Fits(c, s)
    && s.gc.GTrim? && s.gc.left > 0 && c.IsDisk(x) && s.slabs[x].link == OpsPool(ch)
    && s' == AfterTrim(c, s, x, ch)
  }

  /** Every channel has a spare slab. */
  predicate Stocked(c: Config, slabs: seq<Slab>) {
    forall ch :: 0 <= ch < c.nrChannels ==> Members(slabs, OpsPool(ch)) != {}
  }

  /** The channel under the cursor has no spare slab. */
  ghost predicate GcTrimMiss(c: Config, s: State, s': State) {
    s.gc.GTrim? && s.gc.left > 0 && !Stocked(c, s.slabs) && s' == s.(gc := GTrim(s.gc.oldOps, s.gc.left - 1))
  }

  ghost predicate GcTrimmed(c: Config, s: State, s': State) {
    s.gc.GTrim? && s.gc.left <= 0 && s' == s.(gc := GReturnAll(s.gc.oldOps))
  }

  ghost function AfterReturnAll(c: Config, s: State, x: nat, ch: nat): State
    requires Fits(c, s) && c.IsDisk(x)
  {
    Check(WithSlab(s, x, Linked(s.slabs[x].Reset(), DslabFree(ch)).(role := DFree))
          .(size := Bump(s.size, DslabFree(ch), 1), nrFreeDslab := s.nrFreeDslab + 1),
          !(0 <= s.nrFreeDslab + 1 <= |c.block|))
  }

  ghost predicate GcReturnAll(c: Config, s: State, s': State, x: nat, ch: nat) {
    && Fits(c, s)
    && s.gc.GReturnAll? && c.IsDisk(x) && s.slabs[x].link == FreeList(ch)
    && s' == AfterReturnAll(c, s, x, ch)
  }

  ghost predicate GcNormalDone(c: Config, s: State, s': State) {
    s.gc.GReturnAll? && OfFamily(s.slabs, Reclaimed) == {} && s' == Check(s.(gc := GIdle), !CheckOpsPool(c, s))
  }

  // ---------- start-up ----------

  /** Disk slabs before `x` whose block is on the channel of `x`. */
  ghost function EarlierInChannel(c: Config, x: nat): set<nat>
    requires c.Valid() && c.IsDisk(x)
  {
    set y | 0 <= y < x && c.IsDisk(y) && c.Channel(y) == c.Channel(x)
  }

  ghost function RankInChannel(c: Config, x: nat): nat
    requires c.Valid() && c.IsDisk(x)
  {
    |EarlierInChannel(c, x)|
  }

  ghost function BootSlab(c: Config, x: nat): Slab
    requires c.Valid() && x < c.Slabs()
  {
    var blank := Slab(-1, 0, 0, 0, 0, NoList, BufferIdle);
    if x < c.Buffer() then blank.(link := MslabFree, role := MFree)
    else if x == c.Buffer() then blank
    else if RankInChannel(c, x) < c.opsPerChannel then blank.(link := OpsPool(c.Channel(x)), role := Spare)
    else blank.(link := DslabFree(c.Channel(x)), role := DFree)
  }

  ghost function BootSlabs(c: Config): seq<Slab>
    requires c.Valid()
  {
    seq(c.Slabs(), x requires 0 <= x < c.Slabs() => BootSlab(c, x))
  }

  function CountedLists(n: nat): set<ListId> {
    {MslabFree, MslabFull} + (set ch | 0 <= ch < n :: DslabFree(ch)) + (set ch | 0 <= ch < n :: OpsPool(ch))
  }

  /** The state after `slab_init`, `slab_class_init` and `index_init`. */
  ghost function Boot(c: Config): State
    requires c.Valid()
  {
    var slabs := BootSlabs(c);
    State(map[], c.nrEntries, slabs, seq(c.nrMslab, _ => Image(0, [])), seq(|c.block|, _ => Image(0, [])),
          map l | l in CountedLists(c.nrChannels) :: |Members(slabs, l)|,
          |OfFamily(slabs, FreeLists)|, 0, |OfFamily(slabs, Pool)|,
          c.low, c.high, PIdle, FIdle, GIdle, map[], {}, 0, 0, false)
  }
}
