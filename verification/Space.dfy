/** What every run guarantees about slabs, counters, index entries, the pool and the water marks. */
module Space {
  import opened Types
  import opened Protocol
  import opened Invariant
  import opened Counting
  import opened Frames
  import opened GcFrames
  import opened Runs
  import opened Arithmetic
  import SlotLayout
  import FlushSteps
  import NormalGcSteps

  // ---------- counters ----------

  /** Live entries, plus the slot that Put is filling, are at most `nr_used`; `nr_used <= nr_alloc <= nr_slots`. */
  ghost predicate Accounted(s: State, x: nat) {
    x < |s.slabs| ==>
      && |Live(s.index, x)| + Pending(s.put, x) <= s.slabs[x].nrUsed <= s.slabs[x].nrAlloc <= s.slabs[x].nrSlots
      && s.slabs[x].nrUsed >= 0
  }

  lemma CountersHold(c: Config, s: State, x: nat)
    requires Reachable(c, s)
    ensures Accounted(s, x)
  {
    hide Leads, OneOpen, PutOk, FlushOk, InvGc, IndexOk, MoveOk, InvPool, SlabsOk;
    LeadsInv(c, Whole, s);
    if x < c.Slabs() { SlabAt(c, s.slabs, s.mem, s.disk, x); }
  }

  /** The source of the redirect, and its destination. */
  function RedirectSource(c: Config, s: State, l: Step): int {
    if l.FlushRedirectS? && s.flush.FWritten? then s.flush.m else c.nrMslab - 1
  }

  function RedirectTarget(s: State, l: Step): nat {
    if l.FlushRedirectS? && s.flush.FWritten? then s.flush.d else if s.gc.GWritten? then s.gc.ops else 0
  }

  lemma FlushExact(c: Config, s: State, s': State)
    requires Inv(c, s) && FlushRedirect(c, s, s')
    ensures s.flush.FWritten? && s.flush.d < |s'.slabs| && Live(s'.index, s.flush.m) == {}
    ensures |Live(s'.index, s.flush.d)| == s'.slabs[s.flush.d].nrUsed
    ensures Live(s'.index, s.flush.d) == Live(s.index, s.flush.m)
  {
    hide SlabsOk, OneOpen, PutOk, FlushOk, InvGc, IndexOk, CountsOk, MoveOk, InvPool, Redirected, RedirectIndex;
    FlushSteps.RedirectFacts(c, s, s');
    LiveAfterRedirect(s.index, Live(s.index, s.flush.m), s.flush.m, s.flush.d);
  }

  lemma GcExact(c: Config, s: State, s': State)
    requires Inv(c, s) && GcRedirect(c, s, s')
    ensures s.gc.GWritten? && s.gc.ops < |s'.slabs| && Live(s'.index, c.Buffer()) == {}
    ensures |Live(s'.index, s.gc.ops)| == s'.slabs[s.gc.ops].nrUsed
    ensures Live(s'.index, s.gc.ops) == Live(s.index, c.Buffer())
  {
    hide SlabsOk, OneOpen, PutOk, FlushOk, InvGc, IndexOk, CountsOk, MoveOk, InvPool, Redirected, RedirectIndex;
    NormalGcSteps.RedirectFacts(c, s, s');
    LiveAfterRedirect(s.index, Live(s.index, c.Buffer()), c.Buffer(), s.gc.ops);
  }

  /** Right after a redirect `nr_used` of the destination is exact, and nothing is left on the source. */
  lemma RedirectExact(c: Config, s: State, l: Step, s': State)
    requires l.FlushRedirectS? || l.GcRedirectS?
    requires Inv(c, s) && Next(c, s, l, s')
    ensures var src, dst := RedirectSource(c, s, l), RedirectTarget(s, l);
            && 0 <= src && dst < |s'.slabs| && Live(s'.index, src) == {}
            && |Live(s'.index, dst)| == s'.slabs[dst].nrUsed && Live(s'.index, dst) == Live(s.index, src)
  {
    hide InvSlabs, InvIndex, InvPool, FlushRedirect, GcRedirect, Live;
    if l.FlushRedirectS? { FlushExact(c, s, s'); } else { GcExact(c, s, s'); }
  }

  /** What the current source still has in use fits behind what `gc_buffer_` already holds. */
  ghost predicate RoomToMove(c: Config, s: State) {
    s.gc.GMove? && 0 < c.nrMslab <= |s.slabs| ==>
      && s.gc.j < |s.gc.picks|
      && s.slabs[c.Buffer()].nrAlloc + |Live(s.index, s.gc.picks[s.gc.j].sid)| <= s.slabs[c.Buffer()].nrSlots
  }

  /** Compaction never overflows, although Puts and Deletes run between the reads of `nr_used` and the moves. */
  lemma CompactionFits(c: Config, s: State)
    requires Reachable(c, s)
    ensures RoomToMove(c, s)
  {
    hide Leads, OneOpen, PutOk, FlushOk, GcHeld, WrittenOk, LostOk, IndexOk, CountsOk, InvPool, SlabsOk, PicksOk,
         CandsOk, PicksHave, SeenSum;
    LeadsInv(c, Whole, s);
    if s.gc.GMove? {
      NormalGcSteps.PrefixFits(c, s.slabs, s.gc.pass.cid, s.gc.picks, s.gc.j);
      SlabAt(c, s.slabs, s.mem, s.disk, c.Buffer());
    }
  }

  // ---------- disk slabs ----------

  predicate FlushHasDisk(f: FlushPc, x: nat) { (f.FGotD? || f.FWritten? || f.FMoved? || f.FFreed?) && f.d == x }

  predicate GcHasDisk(g: GcPc, x: nat) { g.GTook? && g.ops == x }

  /** A disk slab is on a list of its own channel, or being dropped, or in exactly one of three other places. */
  ghost predicate Placed(c: Config, s: State, x: nat) {
    && c.Valid() && c.IsDisk(x) && x < |s.slabs|
    && var ch := c.Channel(x);
       var l := s.slabs[x].link;
       var f, g, o := FlushHasDisk(s.flush, x), GcHasDisk(s.gc, x), x in s.lost;
       if l.NoList? then (f && !g && !o) || (!f && g && !o) || (!f && !g && o)
       else !f && !g && !o && l in {DslabFree(ch), DslabFull(ch), OpsPool(ch), FreeList(ch), ToDrop}
  }

  lemma DiskPlaced(c: Config, s: State, x: nat)
    requires c.IsDisk(x) && Reachable(c, s)
    ensures Placed(c, s, x)
  {
    hide Leads, InvSlabs, InvIndex, InvPool, Placed;
    LeadsInv(c, Whole, s);
    PlacedBy(c, s, x);
  }

  lemma PlacedBy(c: Config, s: State, x: nat)
    requires c.IsDisk(x) && InvSlabs(c, s)
    ensures Placed(c, s, x)
  {
    hide OneOpen, PutOk, WrittenOk, IndexOk, CountsOk, MoveOk, InvPool, SlabsOk, PicksOk, PicksHave, CandsOk, SeenSum;
    SlabAt(c, s.slabs, s.mem, s.disk, x);
    assert GcHolds(s.gc, x, s.slabs[x].role);
    assert FlushHolds(s.flush, x, s.slabs[x].role);
  }

  function Held(s: State): nat {
    One(s.flush.FGotD? || s.flush.FWritten? || s.flush.FMoved? || s.flush.FFreed?) + One(s.gc.GTook?)
  }

  /**
   Conservation: the program's own counters, with the uncounted slabs that compaction linked, account for every block;
   each `size_` equals the length of its list; quick GC loses at most one slab a pass.
   */
  ghost predicate Conserved(c: Config, s: State) {
    && |c.block| == s.nrFreeDslab + (s.nrFullDslab + s.collections) + s.opsSize
                    + |Members(s.slabs, ToDrop)| + |OfFamily(s.slabs, Reclaimed)| + |s.lost| + Held(s)
    && (forall l :: Counted(l) ==> SizeOf(s.size, l) == |Members(s.slabs, l)|)
    && |s.lost| <= s.quickPasses
  }

  lemma DiskConserved(c: Config, s: State)
    requires Reachable(c, s)
    ensures Conserved(c, s)
  {
    hide Leads, InvSlabs, InvIndex, InvPool, Conserved;
    LeadsInv(c, Whole, s);
    ConservedBy(c, s);
  }

  lemma UnlinkedIs(c: Config, s: State, f: set<nat>, g: set<nat>)
    requires InvSlabs(c, s)
    requires f == if s.flush.FGotD? || s.flush.FWritten? || s.flush.FMoved? || s.flush.FFreed? then {s.flush.d} else {}
    requires g == if s.gc.GTook? then {s.gc.ops} else {}
    ensures Unlinked(c, s.slabs) == s.lost + f + g
    ensures s.lost !! f && (s.lost + f) !! g
  {
    hide InvSlabs, Placed;
    assert InvPlaces(c, s) by { PlacesOf(c, s); }
    forall x | 0 <= x < |s.slabs| && c.IsDisk(x)
      ensures x in Unlinked(c, s.slabs) <==> x in s.lost + f + g
      ensures !(x in s.lost && x in f) && !(x in s.lost + f && x in g)
    {
      PlacedBy(c, s, x);
      assert Placed(c, s, x);
      PlacedMeans(c, s, x);
    }
  }

  /** What the threads and `lost` name are disk slabs. */
  ghost predicate InvPlaces(c: Config, s: State) {
    && c.Valid() && |s.slabs| == c.Slabs()
    && (forall x :: x in s.lost ==> c.IsDisk(x))
    && (s.flush.FGotD? || s.flush.FWritten? || s.flush.FMoved? || s.flush.FFreed? ==> c.IsDisk(s.flush.d))
    && (s.gc.GTook? ==> c.IsDisk(s.gc.ops))
  }

  lemma PlacesOf(c: Config, s: State)
    requires InvSlabs(c, s)
    ensures InvPlaces(c, s)
  {
    hide OneOpen, PutOk, WrittenOk, SlabsOk, PicksOk, PicksHave, CandsOk, SeenSum;
  }

  lemma PlacedMeans(c: Config, s: State, x: nat)
    requires Placed(c, s, x)
    ensures FamilyOf(s.slabs[x].link) == Elsewhere <==> FlushHasDisk(s.flush, x) || GcHasDisk(s.gc, x) || x in s.lost
    ensures One(FlushHasDisk(s.flush, x)) + One(GcHasDisk(s.gc, x)) + One(x in s.lost) <= 1
  {
  }

  lemma UnlinkedCount(c: Config, s: State)
    requires InvSlabs(c, s)
    ensures |Unlinked(c, s.slabs)| == |s.lost| + Held(s)
  {
    hide InvSlabs, Unlinked;
    var f := if s.flush.FGotD? || s.flush.FWritten? || s.flush.FMoved? || s.flush.FFreed? then {s.flush.d} else {};
    var g := if s.gc.GTook? then {s.gc.ops} else {};
    UnlinkedIs(c, s, f, g);
    assert |s.lost + f + g| == |s.lost| + |f| + |g|;
  }

  lemma ConservedBy(c: Config, s: State)
    requires Inv(c, s)
    ensures Conserved(c, s)
  {
    hide SlabsOk, OneOpen, PutOk, FlushOk, InvGc, InvIndex, PoolOk, Unlinked;
    UnlinkedCount(c, s);
    OnlyDisks(c, s.slabs, s.mem, s.disk);
    DiskSplit(c, s.slabs);
    assert OfFamily(s.slabs, Dropping) == Members(s.slabs, ToDrop) by {
      assert forall l :: FamilyOf(l) == Dropping <==> l == ToDrop;
    }
  }

  // ---------- memory slabs ----------

  predicate FlushHasMem(f: FlushPc, x: nat) { (f.FGotM? || f.FGotD? || f.FWritten? || f.FMoved?) && f.m == x }

  /**
   A memory slab other than `gc_buffer_` is free, open for its class with a slot left, published with no slot left, in
   the hands of the current Put (full and unpublished), or in the flusher's; no Put is in progress on a slab that is
   published or being flushed.
   */
  ghost predicate MemPlaced(c: Config, s: State, x: nat) {
    && x < |s.slabs|
    && var l := s.slabs[x].link;
       var p, f := PutHolds(s.put, x), FlushHasMem(s.flush, x);
       && (if l.NoList? then p != f
           else !f && (l.MslabFree? || l.MslabFull? || (l.Partial? && l.cid == s.slabs[x].cid)))
       && (p ==> !l.MslabFree? && !l.MslabFull?)
       && (l.MslabFull? || (p && l.NoList?) ==> s.slabs[x].nrAlloc == s.slabs[x].nrSlots)
       && (l.Partial? ==> s.slabs[x].nrAlloc < s.slabs[x].nrSlots)
  }

  lemma MemoryPlaced(c: Config, s: State, x: nat)
    requires x + 1 < c.nrMslab && Reachable(c, s)
    ensures MemPlaced(c, s, x)
  {
    hide Leads, OneOpen, InvGc, IndexOk, CountsOk, MoveOk, InvPool, SlabsOk;
    LeadsInv(c, Whole, s);
    SlabAt(c, s.slabs, s.mem, s.disk, x);
    assert FlushHolds(s.flush, x, s.slabs[x].role);
  }

  // ---------- slots ----------

  /** The slab is open, published or full on disk, and not blank, or some entry names it. */
  ghost predicate Carries(s: State, x: nat) {
    x < |s.slabs| &&
    var l := s.slabs[x].link;
    || l.Partial? || l.MslabFull? || (l.DslabFull? && s.slabs[x].cid != -1)
    || exists t :: t in s.index && s.index[t].sid == x
  }

  /** The slab is cut into slots of its class, and has as many as fit behind the header. */
  ghost predicate WellCut(c: Config, sl: Slab) {
    && 0 <= sl.cid < |c.classes| && sl.slotSize == c.classes[sl.cid]
    && c.slabHeader + sl.slotSize * sl.nrSlots <= c.slabSize < c.slabHeader + sl.slotSize * (sl.nrSlots + 1)
  }

  lemma SlabsWellCut(c: Config, s: State, x: nat)
    requires Carries(s, x) && Reachable(c, s)
    ensures WellCut(c, s.slabs[x])
    ensures s.slabs[x].nrSlots == SlotLayout.Layout(0, c.slabSize, c.slabHeader).Slots(s.slabs[x].slotSize)
  {
    hide Leads, OneOpen, PutOk, FlushOk, InvGc, CountsOk, MoveOk, InvPool, IndexOk, SlabsOk;
    LeadsInv(c, Whole, s);
    SlabAt(c, s.slabs, s.mem, s.disk, x);
    if t :| t in s.index && s.index[t].sid == x { EntryAt(c, s, t); }
    DivIs(c.slabSize - c.slabHeader, c.classes[s.slabs[x].cid]);
  }

  /** What an entry names is a record, of a key and a value that fit in the slot with its header. */
  lemma RecordsFit(c: Config, s: State, t: Tag)
    requires t in s.index && Reachable(c, s)
    ensures Fits(c, s) && Decodes(c, s.slabs, s.mem, s.disk, s.index[t])
    ensures var r := RecAt(c, s.slabs, s.mem, s.disk, s.index[t]);
            c.slotHeader + |r.key| + |r.value| <= s.slabs[s.index[t].sid].slotSize
  {
    hide Leads, OneOpen, PutOk, FlushOk, InvGc, CountsOk, MoveOk, InvPool, IndexOk, SlabsOk;
    LeadsInv(c, Whole, s);
    EntryAt(c, s, t);
  }

  // ---------- loops that wait for a slab to be there ----------

  /** Some list of the family holds a disk slab. */
  ghost predicate Available(c: Config, slabs: seq<Slab>, f: Family) {
    exists x: nat :: x < |slabs| && c.IsDisk(x) && FamilyOf(slabs[x].link) == f
  }

  lemma FamilyHas(c: Config, s: State, f: Family)
    requires |OfFamily(s.slabs, f)| > 0 && f != Elsewhere && InvSlabs(c, s)
    ensures Available(c, s.slabs, f)
  {
    hide OneOpen, PutOk, FlushOk, InvGc, InvIndex, InvPool, SlabsOk;
    var x :| x in OfFamily(s.slabs, f);
    OnlyDisks(c, s.slabs, s.mem, s.disk);
    assert x < |s.slabs| && c.IsDisk(x) && FamilyOf(s.slabs[x].link) == f;
  }

  /**
   Quick-GC selection never starves. While it still wants slabs, a full list has one: always after a wake-up for a lack
   of index entries, and for a computed demand whenever the SSD has room for 2.3 times the pool's maximum.
   */
  lemma SelectionFinds(c: Config, s: State)
    requires s.gc.GSelect? && s.gc.left > 0 && (!s.gc.drop.planned || Roomy(c, s.lost)) && Reachable(c, s)
    ensures Available(c, s.slabs, FullLists)
  {
    hide Leads, InvSlabs, InvIndex, InvPool, OfFamily, Available;
    LeadsInv(c, Whole, s);
    PoolHas(c, s);
    FamilyHas(c, s, FullLists);
  }

  lemma PoolHas(c: Config, s: State)
    requires InvPool(c, s)
    ensures s.gc.GSelect? && (!s.gc.drop.planned || Roomy(c, s.lost)) ==> s.gc.left <= |OfFamily(s.slabs, FullLists)|
    ensures s.gc.GRefill? ==> s.gc.oldOps - s.opsSize <= |OfFamily(s.slabs, Reclaimed)|
    ensures s.opsSize == |OfFamily(s.slabs, Pool)| && s.nrFreeDslab == |OfFamily(s.slabs, FreeLists)|
    ensures s.gc.GAwake? || s.gc.GSeen? ==> |OfFamily(s.slabs, FullLists)| > 0
    ensures s.gc.GIdle? || s.gc.GTrim? ==> 0 < s.opsSize <= c.maxOps
    ensures s.gc.GReturnAll? ==> s.opsSize == s.gc.oldOps || s.opsSize == s.gc.oldOps - 1
    ensures s.nrFullDslab + s.collections == |OfFamily(s.slabs, FullLists)|
  {
    hide InvSlabs, InvIndex;
  }

  /** The refill loop of a normal GC never runs out of reclaimed slabs. */
  lemma RefillFinds(c: Config, s: State)
    requires s.gc.GRefill? && s.opsSize < s.gc.oldOps && Reachable(c, s)
    ensures Available(c, s.slabs, Reclaimed)
  {
    hide Leads, InvSlabs, InvIndex, InvPool, OfFamily, Available;
    LeadsInv(c, Whole, s);
    PoolHas(c, s);
    FamilyHas(c, s, Reclaimed);
  }

  /** A collection that starts with `ops_pool_size_ > 0` finds its spare slab. */
  lemma SpareFinds(c: Config, s: State)
    requires s.opsSize > 0 && Reachable(c, s)
    ensures Available(c, s.slabs, Pool)
  {
    hide Leads, InvSlabs, InvIndex, InvPool, OfFamily, Available;
    LeadsInv(c, Whole, s);
    PoolHas(c, s);
    FamilyHas(c, s, Pool);
  }

  /** `nr_full_dslab_` falls short of the full lists by exactly the number of collections so far. */
  lemma FullCountDrift(c: Config, s: State)
    requires Reachable(c, s)
    ensures |OfFamily(s.slabs, FullLists)| - s.nrFullDslab == s.collections
    ensures s.nrFullDslab > 0 ==> |OfFamily(s.slabs, FullLists)| > 0
    ensures s.gc.GAwake? || s.gc.GSeen? ==> |OfFamily(s.slabs, FullLists)| > 0
  {
    hide Leads, InvSlabs, InvIndex, InvPool, OfFamily;
    LeadsInv(c, Whole, s);
    PoolHas(c, s);
  }

  /** Between passes the pool is never empty and never above its maximum. */
  lemma PoolInBounds(c: Config, s: State)
    requires s.gc.GIdle? && Reachable(c, s)
    ensures 0 < s.opsSize <= c.maxOps
  {
    hide Leads, InvSlabs, InvIndex, InvPool, OfFamily;
    LeadsInv(c, Whole, s);
    PoolHas(c, s);
  }

  /** The sleeping collector can wake exactly when the full lists hold more slabs than there were collections. */
  lemma WakesExactlyWhen(c: Config, s: State)
    requires s.gc.GIdle? && Reachable(c, s)
    ensures (exists s' :: GcWake(c, s, s')) <==> |OfFamily(s.slabs, FullLists)| > s.collections
  {
    hide Leads, InvSlabs, InvIndex, InvPool, OfFamily;
    LeadsInv(c, Whole, s);
    PoolHas(c, s);
    if s.nrFullDslab > 0 { assert GcWake(c, s, s.(gc := GAwake)); }
  }
}
