/** The inductive invariant of the protocol, in parts that different steps touch. */
module Invariant {
  import opened Types
  import opened Protocol

  // ---------- each slab by itself ----------

  predicate MemRole(r: Role) {
    r.MFree? || r.Open? || r.Filled? || r.MFull? || r.Flushing? || r.Flushed? || r.BufferIdle? || r.BufferLive?
  }

  predicate BlankRole(r: Role) {
    r.MFree? || r.DFree? || r.Target? || r.Lost? || r.Spare? || r.OpsTaken? || r.OpsLinked?
  }

  /** Index entries may point at the slab. */
  predicate LiveRole(r: Role) {
    || r.Open? || r.Filled? || r.MFull? || r.Flushing? || r.BufferLive?
    || r.TargetLive? || r.Stored? || r.Victim? || r.Source?
  }

  predicate FormattedRole(r: Role) { LiveRole(r) || r.TargetWritten? || r.OpsWritten? }

  predicate FullRole(r: Role) { r.Filled? || r.MFull? || r.Flushing? }

  /** The list that a slab of the role is on: disk slabs only ever on a list of their own channel. */
  ghost function LinkFor(c: Config, x: nat, sl: Slab): ListId
    requires c.Valid() && x < c.Slabs()
    requires !MemRole(sl.role) ==> c.IsDisk(x)
  {
    match sl.role
    case MFree => MslabFree
    case Open => if sl.cid >= 0 then Partial(sl.cid) else NoList
    case MFull => MslabFull
    case DFree => DslabFree(c.Channel(x))
    case Stored => DslabFull(c.Channel(x))
    case OpsLinked => DslabFull(c.Channel(x))
    case OpsWritten => DslabFull(c.Channel(x))
    case Victim => ToDrop
    case Evicted => ToDrop
    case Spare => OpsPool(c.Channel(x))
    case Source => FreeList(c.Channel(x))
    case Drained => FreeList(c.Channel(x))
    case _ => NoList
  }

  /** The header matches its class and the bytes behind it. */
  ghost predicate Formatted(c: Config, sl: Slab, img: Image) {
    && c.Valid()
    && 0 <= sl.cid < |c.classes|
    && sl.slotSize == c.classes[sl.cid] && sl.nrSlots == c.SlotsOf(sl.cid)
    && |img.recs| == sl.nrAlloc && img.slotSize == sl.slotSize
  }

  ghost predicate SlabOk(c: Config, x: nat, sl: Slab, img: Image) {
    && c.Valid() && x < c.Slabs()
    && (MemRole(sl.role) <==> x < c.nrMslab)
    && (sl.role.BufferIdle? || sl.role.BufferLive? <==> x == c.Buffer())
    && sl.link == LinkFor(c, x, sl)
    && (BlankRole(sl.role) ==> sl.Blank())
    && (FormattedRole(sl.role) ==> Formatted(c, sl, img))
    && 0 <= sl.nrUsed <= sl.nrAlloc <= sl.nrSlots
    && (FullRole(sl.role) ==> sl.IsFull())
    && (sl.role.Open? ==> !sl.IsFull())
  }

  ghost predicate SlabsOk(c: Config, slabs: seq<Slab>, mem: seq<Image>, disk: seq<Image>) {
    && Shaped(c, slabs, mem, disk)
    && forall x :: 0 <= x < c.Slabs() ==> SlabOk(c, x, slabs[x], ImageOf(c, mem, disk, x))
  }

  predicate Taking(r: Role) { r.Open? || r.Filled? }

  /** At most one slab of each class is taking new slots. */
  predicate OneOpen(slabs: seq<Slab>) {
    forall x, y :: 0 <= x < |slabs| && 0 <= y < |slabs| && x != y && Taking(slabs[x].role) && Taking(slabs[y].role)
                   ==> slabs[x].cid != slabs[y].cid
  }

  // ---------- who holds a slab ----------

  /** A slot allocated by the current Put and not yet in the index. */
  predicate PutPending(p: PutPc) { p.PSlot? || p.PWritten? || p.PWaiting? }

  predicate PutHolds(p: PutPc, x: nat) { (PutPending(p) || p.PIndexed?) && p.sid == x }

  predicate HasRole(slabs: seq<Slab>, x: nat, r: Role) { x < |slabs| && slabs[x].role == r }

  ghost predicate PutOk(c: Config, slabs: seq<Slab>, mem: seq<Image>, p: PutPc) {
    && c.Valid() && |mem| == c.nrMslab <= |slabs|
    && (forall x :: 0 <= x < |slabs| && slabs[x].role.Filled? ==> PutHolds(p, x))
    && (p.PAlloc? ==> p.cid < |c.classes| && c.RecSize(p.k, p.v) <= c.classes[p.cid])
    && (PutPending(p) || p.PIndexed? ==> p.sid < c.nrMslab && Taking(slabs[p.sid].role))
    && (PutPending(p) ==>
          && p.slot + 1 == slabs[p.sid].nrAlloc
          && c.RecSize(p.k, p.v) <= slabs[p.sid].slotSize)
    && ((p.PWritten? || p.PWaiting?) ==>
          p.slot < |mem[p.sid].recs| && mem[p.sid].recs[p.slot] == Rec(p.k, p.v))
  }

  /** A Put that waits for a free entry found none for its bucket and digest, and none has appeared. */
  ghost predicate WaitOk(c: Config, index: map<Tag, Loc>, p: PutPc) {
    && c.buckets > 0
    && (p.PWaiting? ==> c.TagOf(p.k) !in index)
  }

  /** `dst` carries the header and the bytes of the memory slab `src`. */
  predicate Copied(src: Slab, dst: Slab, from: Image, to: Image) {
    && to == from
    && dst.cid == src.cid && dst.slotSize == src.slotSize && dst.nrAlloc == src.nrAlloc && dst.nrSlots == src.nrSlots
  }

  predicate FlushHolds(f: FlushPc, x: nat, r: Role) {
    match r
    case Flushing => (f.FGotM? || f.FGotD? || f.FWritten?) && f.m == x
    case Flushed => f.FMoved? && f.m == x
    case Target => f.FGotD? && f.d == x
    case TargetWritten => f.FWritten? && f.d == x
    case TargetLive => (f.FMoved? || f.FFreed?) && f.d == x
    case _ => true
  }

  ghost predicate FlushOk(c: Config, slabs: seq<Slab>, mem: seq<Image>, disk: seq<Image>, f: FlushPc) {
    && Shaped(c, slabs, mem, disk)
    && (forall x :: 0 <= x < |slabs| ==> FlushHolds(f, x, slabs[x].role))
    && (f.FGotM? || f.FGotD? || f.FWritten? ==> f.m < c.nrMslab && HasRole(slabs, f.m, Flushing))
    && (f.FMoved? ==> f.m < c.nrMslab && HasRole(slabs, f.m, Flushed))
    && (f.FGotD? || f.FWritten? || f.FMoved? || f.FFreed? ==> c.IsDisk(f.d) && f.ch == c.Channel(f.d))
    && (f.FGotD? ==> HasRole(slabs, f.d, Target))
    && (f.FWritten? ==>
          && HasRole(slabs, f.d, TargetWritten)
          && Copied(slabs[f.m], slabs[f.d], mem[f.m], disk[c.BlockOf(f.d)]))
    && (f.FMoved? || f.FFreed? ==> HasRole(slabs, f.d, TargetLive))
  }

  predicate InPicks(picks: seq<Pick>, lo: nat, hi: nat, x: nat) {
    exists k :: lo <= k < hi && k < |picks| && picks[k].sid == x
  }

  predicate NormalPass(g: GcPc) {
    g.GPack? || g.GTook? || g.GLink? || g.GLoad? || g.GMove? || g.GWritten? || g.GRefill? || g.GTrim? || g.GReturnAll?
  }

  predicate IsSource(g: GcPc, x: nat) {
    || (g.GLink? && InPicks(g.picks, 0, g.j, x))
    || ((g.GLoad? || g.GMove?) && InPicks(g.picks, g.j, |g.picks|, x))
  }

  predicate GcHolds(g: GcPc, x: nat, r: Role) {
    match r
    case Victim => g.GSelect? || (g.GEvict? && x !in g.done)
    case Evicted => (g.GEvict? && x in g.done) || g.GReturnOps? || g.GReturnFree?
    case OpsTaken => g.GTook? && g.ops == x
    case OpsLinked => (g.GLink? || g.GLoad? || g.GMove?) && g.ops == x
    case OpsWritten => g.GWritten? && g.ops == x
    case Source => IsSource(g, x)
    case Drained => NormalPass(g)
    case BufferLive => g.GLoad? || g.GMove? || g.GWritten?
    case _ => true
  }

  predicate GcHeld(slabs: seq<Slab>, g: GcPc) {
    forall x :: 0 <= x < |slabs| ==> GcHolds(g, x, slabs[x].role)
  }

  /** The chosen slabs: distinct, of one class, with `nr_used` at most what the packing loop read. */
  ghost predicate PicksOk(c: Config, slabs: seq<Slab>, cid: nat, picks: seq<Pick>) {
    && c.Valid() && |slabs| == c.Slabs()
    && (forall k :: 0 <= k < |picks| ==> PickOk(c, slabs, cid, picks[k]))
    && (forall k, m :: 0 <= k < m < |picks| ==> picks[k].sid != picks[m].sid)
    && (picks != [] ==> cid < |c.classes| && SeenSum(picks) <= c.SlotsOf(cid))
  }

  ghost predicate PickOk(c: Config, slabs: seq<Slab>, cid: nat, p: Pick) {
    && |slabs| == c.Slabs()
    && c.IsDisk(p.sid) && slabs[p.sid].cid == cid && p.seen >= 0 && slabs[p.sid].nrUsed <= p.seen
  }

  predicate PicksHave(slabs: seq<Slab>, picks: seq<Pick>, lo: nat, hi: nat, r: Role) {
    forall k :: lo <= k < hi && k < |picks| ==> HasRole(slabs, picks[k].sid, r)
  }

  ghost predicate CandsOk(c: Config, slabs: seq<Slab>, pass: Pass, picks: seq<Pick>) {
    && (forall x :: x in pass.cands ==> c.IsDisk(x) && HasRole(slabs, x, Stored))
    && (forall k :: 0 <= k < |picks| ==> picks[k].sid !in pass.cands)
  }

  ghost predicate OpsOk(c: Config, slabs: seq<Slab>, picks: seq<Pick>, ops: nat, r: Role) {
    |picks| > 1 && c.IsDisk(ops) && HasRole(slabs, ops, r)
  }

  /** `gc_buffer_` is formatted for the class and holds at most `room` records. */
  ghost predicate BufferOk(c: Config, slabs: seq<Slab>, pass: Pass, room: int) {
    && c.Valid() && |slabs| == c.Slabs()
    && HasRole(slabs, c.Buffer(), BufferLive)
    && slabs[c.Buffer()].cid == pass.cid
    && slabs[c.Buffer()].nrAlloc <= room
  }

  /** What is known of the slabs of the current collection. */
  ghost predicate CollectOk(c: Config, slabs: seq<Slab>, g: GcPc) {
    && c.Valid() && |slabs| == c.Slabs()
    && match g
       case GPack(pass, picks) =>
         && PicksOk(c, slabs, pass.cid, picks) && PicksHave(slabs, picks, 0, |picks|, Stored)
         && CandsOk(c, slabs, pass, picks)
       case GTook(pass, picks, ops) =>
         && PicksOk(c, slabs, pass.cid, picks) && PicksHave(slabs, picks, 0, |picks|, Stored)
         && CandsOk(c, slabs, pass, picks) && OpsOk(c, slabs, picks, ops, OpsTaken)
       case GLink(pass, picks, ops, j) =>
         && PicksOk(c, slabs, pass.cid, picks) && CandsOk(c, slabs, pass, picks)
         && OpsOk(c, slabs, picks, ops, OpsLinked)
         && j <= |picks| && PicksHave(slabs, picks, 0, j, Source) && PicksHave(slabs, picks, j, |picks|, Stored)
       case GLoad(pass, picks, ops, j, size) =>
         && PicksOk(c, slabs, pass.cid, picks) && CandsOk(c, slabs, pass, picks)
         && OpsOk(c, slabs, picks, ops, OpsLinked)
         && j <= |picks| && PicksHave(slabs, picks, 0, j, Drained) && PicksHave(slabs, picks, j, |picks|, Source)
         && BufferOk(c, slabs, pass, SeenSum(picks[..j])) && size <= SeenSum(picks[..j])
       case GMove(pass, picks, ops, j, i, size) =>
         && PicksOk(c, slabs, pass.cid, picks) && CandsOk(c, slabs, pass, picks)
         && OpsOk(c, slabs, picks, ops, OpsLinked)
         && j < |picks| && PicksHave(slabs, picks, 0, j, Drained) && PicksHave(slabs, picks, j, |picks|, Source)
         && BufferOk(c, slabs, pass, SeenSum(picks[..j + 1])) && size <= SeenSum(picks[..j + 1])
         && i <= slabs[picks[j].sid].nrAlloc
       case GWritten(pass, ops) =>
         && CandsOk(c, slabs, pass, []) && pass.cid < |c.classes|
         && c.IsDisk(ops) && HasRole(slabs, ops, OpsWritten) && HasRole(slabs, c.Buffer(), BufferLive)
       case GEvict(_, done) => forall x :: x in done ==> c.IsDisk(x) && HasRole(slabs, x, Evicted)
       case _ => true
  }

  /** What is known of the index while slots move: the slots before `i` are done, and the rest fits in the buffer. */
  ghost predicate MoveOk(c: Config, slabs: seq<Slab>, index: map<Tag, Loc>, g: GcPc) {
    && c.Valid() && |slabs| == c.Slabs()
    && (g.GMove? && g.j < |g.picks| ==>
          && slabs[c.Buffer()].nrAlloc + |Live(index, g.picks[g.j].sid)| <= SeenSum(g.picks[..g.j + 1])
          && forall t :: t in index && index[t].sid == g.picks[g.j].sid ==> index[t].slot >= g.i)
  }

  ghost predicate WrittenOk(c: Config, slabs: seq<Slab>, mem: seq<Image>, disk: seq<Image>, g: GcPc) {
    && Shaped(c, slabs, mem, disk)
    && (g.GWritten? && c.IsDisk(g.ops) ==>
          Copied(slabs[c.Buffer()], slabs[g.ops], mem[c.Buffer()], disk[c.BlockOf(g.ops)]))
  }

  ghost predicate LostOk(c: Config, slabs: seq<Slab>, lost: set<nat>) {
    && (forall x :: x in lost ==> c.IsDisk(x) && HasRole(slabs, x, Lost))
    && (forall x :: 0 <= x < |slabs| && slabs[x].role.Lost? ==> x in lost)
  }

  // ---------- the index ----------

  ghost predicate RecOk(c: Config, latest: map<Key, Value>, t: Tag, r: Rec, slotSize: nat) {
    && c.buckets > 0
    && c.TagOf(r.key) == t
    && r.key in latest && latest[r.key] == r.value
    && c.RecSize(r.key, r.value) <= slotSize
  }

  /** The entry of tag `t` denotes a written record of a key with that tag, and the newest value of that key. */
  ghost predicate EntryOk(c: Config, slabs: seq<Slab>, mem: seq<Image>, disk: seq<Image>, latest: map<Key, Value>,
                          p: PutPc, t: Tag, l: Loc) {
    && Shaped(c, slabs, mem, disk)
    && l.sid < c.Slabs() && LiveRole(slabs[l.sid].role) && l.slot < slabs[l.sid].nrAlloc
    && !(PutPending(p) && l == Loc(p.sid, p.slot))
    && Decodes(c, slabs, mem, disk, l)
    && RecOk(c, latest, t, RecAt(c, slabs, mem, disk, l), slabs[l.sid].slotSize)
  }

  ghost predicate IndexOk(c: Config, slabs: seq<Slab>, mem: seq<Image>, disk: seq<Image>, index: map<Tag, Loc>,
                          latest: map<Key, Value>, p: PutPc) {
    && Shaped(c, slabs, mem, disk)
    && forall t :: t in index ==> EntryOk(c, slabs, mem, disk, latest, p, t, index[t])
  }

  function Pending(p: PutPc, x: nat): nat { if PutPending(p) && p.sid == x then 1 else 0 }

  /** Live entries, plus the slot of the current Put, never exceed `nr_used`. */
  predicate CountsOk(slabs: seq<Slab>, index: map<Tag, Loc>, p: PutPc) {
    forall x :: 0 <= x < |slabs| ==> |Live(index, x)| + Pending(p, x) <= slabs[x].nrUsed
  }

  predicate EntriesOk(c: Config, index: map<Tag, Loc>, nrFreeEntry: int) {
    nrFreeEntry >= 0 && nrFreeEntry + |Tags(index)| == c.nrEntries
  }

  // ---------- list sizes and pools ----------

  predicate Counted(l: ListId) { !l.NoList? && !l.Partial? && !l.ToDrop? && !l.FreeList? }

  ghost predicate SizesOk(slabs: seq<Slab>, size: map<ListId, int>, free: int, full: int, ops: int) {
    && (forall l :: Counted(l) ==> SizeOf(size, l) == |Members(slabs, l)|)
    && free == |OfFamily(slabs, FreeLists)|
    && full == |OfFamily(slabs, FullLists)|
    && ops == |OfFamily(slabs, Pool)|
  }

  /** Enough blocks for the largest demand of a quick GC. */
  predicate Roomy(c: Config, lost: set<nat>) {
    10 * |c.block| >= 23 * c.maxOps + 10 * (|lost| + 2)
  }

  /** A pass that took `oldOps - ops` spare slabs has freed two for each, less `owed`. */
  predicate PassOk(c: Config, ops: int, oldOps: int, freed: nat, owed: int) {
    && 0 < oldOps <= c.maxOps && 0 <= ops <= oldOps
    && freed >= 2 * (oldOps - ops) - owed
    && (owed > 0 ==> ops < oldOps)
  }

  predicate InBounds(c: Config, ops: int) { 0 < ops <= c.maxOps }

  /** How many slabs of each kind the collector finds on the lists. */
  datatype Supply = Supply(full: nat, freed: nat, dropping: nat)

  function SupplyOf(slabs: seq<Slab>): Supply {
    Supply(|OfFamily(slabs, FullLists)|, |OfFamily(slabs, Reclaimed)|, |OfFamily(slabs, Dropping)|)
  }

  /** The pool keeps its bounds when a quick pass hands it its share. */
  predicate DropOk(c: Config, ops: int, drop: Drop, given: nat) {
    InBounds(c, ops) && 0 <= drop.toOps - given <= c.maxOps - ops
  }

  ghost predicate PoolOk(c: Config, g: GcPc, ops: int, n: Supply, lost: set<nat>, quickPasses: nat) {
    match g
    case GIdle => InBounds(c, ops)
    case GAwake => InBounds(c, ops) && n.full > 0
    case GSeen(_) => InBounds(c, ops) && n.full > 0
    case GPlan => InBounds(c, ops)
    case GNormal => InBounds(c, ops)
    case GSelect(left, drop) =>
      && DropOk(c, ops, drop, 0) && |lost| < quickPasses
      && (!drop.planned || Roomy(c, lost) ==> left <= n.full)
      && n.dropping + Max(left, 0) == drop.Wanted()
    case GEvict(drop, _) => DropOk(c, ops, drop, 0) && |lost| < quickPasses && n.dropping == drop.Wanted()
    case GReturnOps(given, drop) =>
      DropOk(c, ops, drop, given) && |lost| < quickPasses && n.dropping + given == drop.Wanted()
    case GReturnFree(drop) => InBounds(c, ops) && n.dropping <= Max(drop.toFree - 1, 0)
    case GPack(pass, _) => PassOk(c, ops, pass.oldOps, n.freed, 0)
    case GTook(pass, _, _) => PassOk(c, ops, pass.oldOps, n.freed, 2)
    case GLink(pass, _, _, j) => PassOk(c, ops, pass.oldOps, n.freed, 2 - j)
    case GLoad(pass, _, _, _, _) => PassOk(c, ops, pass.oldOps, n.freed, 0)
    case GMove(pass, _, _, _, _, _) => PassOk(c, ops, pass.oldOps, n.freed, 0)
    case GWritten(pass, _) => PassOk(c, ops, pass.oldOps, n.freed, 0)
    case GRefill(oldOps, target) =>
      && 0 <= ops <= oldOps && 0 < oldOps <= c.maxOps && n.freed >= oldOps - ops
      && (target == oldOps || target == Max(10, oldOps - 1))
    case GTrim(oldOps, left) =>
      InBounds(c, ops) && ops > left && left <= 1 && (ops == oldOps || (ops == oldOps - 1 && left <= 0))
    case GReturnAll(oldOps) => InBounds(c, ops) && (ops == oldOps || ops == oldOps - 1)
  }

  // ---------- together ----------

  /** What the collector knows of the slabs it holds. */
  ghost predicate InvGc(c: Config, s: State) {
    && Fits(c, s)
    && GcHeld(s.slabs, s.gc) && CollectOk(c, s.slabs, s.gc) && WrittenOk(c, s.slabs, s.mem, s.disk, s.gc)
    && LostOk(c, s.slabs, s.lost)
  }

  /** What the slabs, and the three threads that hold some of them, satisfy. */
  ghost predicate InvSlabs(c: Config, s: State) {
    && Fits(c, s)
    && SlabsOk(c, s.slabs, s.mem, s.disk) && OneOpen(s.slabs)
    && PutOk(c, s.slabs, s.mem, s.put) && FlushOk(c, s.slabs, s.mem, s.disk, s.flush) && InvGc(c, s)
  }

  /** What the index satisfies. */
  ghost predicate InvIndex(c: Config, s: State) {
    && Fits(c, s)
    && IndexOk(c, s.slabs, s.mem, s.disk, s.index, s.latest, s.put)
    && CountsOk(s.slabs, s.index, s.put) && EntriesOk(c, s.index, s.nrFreeEntry)
    && WaitOk(c, s.index, s.put) && MoveOk(c, s.slabs, s.index, s.gc)
  }

  /** What the list sizes and the pool satisfy. */
  ghost predicate InvPool(c: Config, s: State) {
    && SizesOk(s.slabs, s.size, s.nrFreeDslab, s.nrFullDslab + s.collections, s.opsSize)
    && PoolOk(c, s.gc, s.opsSize, SupplyOf(s.slabs), s.lost, s.quickPasses)
    && |s.lost| <= s.quickPasses
  }

  ghost predicate Inv(c: Config, s: State) {
    InvSlabs(c, s) && InvIndex(c, s) && InvPool(c, s) && !s.fault
  }
}
