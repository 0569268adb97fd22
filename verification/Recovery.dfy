/**
 When a Put that waits for a free index entry can get one without a Delete, if the slabs to flush and to drop may be
 chosen. Between passes of the collector this is decided by how many disk slabs the flusher can still fill and by what
 they store; without it nothing but a Delete helps.
 */
module Recovery {
  import opened Types
  import opened Protocol
  import opened Invariant
  import opened Counting
  import opened Frames
  import opened GcFrames
  import opened Runs
  import opened Progress
  import opened Stretches
  import Pressure
  import Space

  /** Some steps from `s`, none of them a Delete, end with a free index entry. */
  ghost predicate Recovers(c: Config, s: State) { exists s' :: Leads(c, From(s, []), s') && s'.nrFreeEntry > 0 }

  // ---------- the condition ----------

  predicate Waits(s: State) { s.put.PWaiting? && s.nrFreeEntry == 0 }

  /** With the Put waiting, the flusher has nothing to do and the collector sleeps. */
  predicate Quiet(s: State) { Waits(s) && s.gc.GIdle? && s.flush.FIdle? && Members(s.slabs, MslabFull) == {} }

  predicate HoldsDisk(f: FlushPc) { f.FGotD? || f.FWritten? || f.FMoved? || f.FFreed? }

  /** Full memory slabs that wait for a disk slab. */
  function Queued(s: State): nat { |Members(s.slabs, MslabFull)| + One(s.flush.FGotM?) }

  /** How many slabs the full lists can hold before the collector wakes. */
  function CanFill(s: State): int {
    |OfFamily(s.slabs, FullLists)| + One(HoldsDisk(s.flush)) + Min(Queued(s), s.nrFreeDslab)
  }

  /** The records of slab `x` are, or can come to be, on a full list: the flusher has a disk slab for them. */
  predicate Comes(s: State, x: nat) {
    && x < |s.slabs|
    && (|| s.slabs[x].link.DslabFull? || s.slabs[x].link.ToDrop?
        || ((s.flush.FGotD? || s.flush.FWritten?) && s.flush.m == x)
        || ((s.flush.FMoved? || s.flush.FFreed?) && s.flush.d == x)
        || (s.flush.FGotM? && s.flush.m == x && s.nrFreeDslab > 0)
        || (s.slabs[x].link.MslabFull? && s.nrFreeDslab > One(s.flush.FGotM?)))
  }

  /** Dropping the records of slab `x` frees an entry: some entry has the tag of a stored key, wherever it points. */
  ghost predicate Frees(c: Config, s: State, x: nat) {
    && Fits(c, s)
    && x < c.Slabs() && s.index.Keys * StoredTags(c, s.slabs[x].nrAlloc, ImageOf(c, s.mem, s.disk, x).recs) != {}
  }

  ghost predicate SomeComes(c: Config, s: State) {
    && Fits(c, s)
    && exists x :: Comes(s, x) && Frees(c, s, x)
  }

  ghost predicate Recoverable(c: Config, s: State) { CanFill(s) > s.collections && SomeComes(c, s) }

  // ---------- what a step of the flusher does to it ----------

  lemma SameLinks(slabs: seq<Slab>, slabs': seq<Slab>)
    requires |slabs'| == |slabs| && forall x :: 0 <= x < |slabs| ==> slabs'[x].link == slabs[x].link
    ensures forall l :: Members(slabs', l) == Members(slabs, l)
    ensures forall f :: OfFamily(slabs', f) == OfFamily(slabs, f)
  {
  }

  /** The slab that has the records of `x` after a step of the flusher, and the one that had those of `y` before. */
  function Carrier(s: State, l: Step, x: nat): nat {
    if l.FlushRedirectS? && s.flush.FWritten? && x == s.flush.m then s.flush.d else x
  }

  function Origin(s: State, l: Step, y: nat): nat {
    if l.FlushRedirectS? && s.flush.FWritten? && y == s.flush.d then s.flush.m else y
  }

  /** Slab `y` has the allocated records that slab `x` had. */
  ghost predicate SameRecords(c: Config, s: State, x: nat, s': State, y: nat) {
    && Fits(c, s) && Fits(c, s') && x < c.Slabs() && y < c.Slabs() && s'.index.Keys == s.index.Keys
    && s'.slabs[y].nrAlloc == s.slabs[x].nrAlloc
    && ImageOf(c, s'.mem, s'.disk, y).recs == ImageOf(c, s.mem, s.disk, x).recs
  }

  lemma SameFrees(c: Config, s: State, x: nat, s': State, y: nat)
    requires SameRecords(c, s, x, s', y)
    ensures Frees(c, s', y) <==> Frees(c, s, x)
  {
    hide StoredTags;
  }

  ghost predicate FlushKnows(c: Config, s: State) {
    && Fits(c, s) && SlabsOk(c, s.slabs, s.mem, s.disk) && FlushOk(c, s.slabs, s.mem, s.disk, s.flush)
    && s.nrFreeDslab == |OfFamily(s.slabs, FreeLists)|
  }

  function FlushPhase(f: FlushPc): nat {
    match f
    case FIdle => 0
    case FGotM(_) => 5
    case FGotD(_, _, _) => 4
    case FWritten(_, _, _) => 3
    case FMoved(_, _, _) => 2
    case FFreed(_, _) => 1
  }

  /** The flusher takes a slab from the queue, or the end of its flush is closer; what can be filled is as before. */
  ghost predicate FlushesOn(s: State, s': State) {
    && CanFill(s') == CanFill(s)
    && var n, n' := |Members(s.slabs, MslabFull)|, |Members(s'.slabs, MslabFull)|;
       n' < n || (n' == n && FlushPhase(s'.flush) < FlushPhase(s.flush))
  }

  /**
   Slab `x` before a step of the flusher, and after it: records that come keep their place, if the flusher takes their
   slab before others, and no others come.
   */
  ghost predicate Passes(c: Config, s: State, l: Step, s': State, x: nat) {
    && (Comes(s, x) || Comes(s', Carrier(s, l, x)) ==> SameRecords(c, s, x, s', Carrier(s, l, x)))
    && (Comes(s, x) && (l.FlushTakeS? && s.slabs[x].link.MslabFull? ==> l.x == x) ==> Comes(s', Carrier(s, l, x)))
    && (Comes(s', x) ==> Comes(s, Origin(s, l, x)) && Carrier(s, l, Origin(s, l, x)) == x)
  }

  lemma TakePasses(c: Config, s: State, l: Step, s': State, x: nat)
    requires FlushKnows(c, s) && FlushNext(c, s, l, s') && l.FlushTakeS? && x < c.Slabs()
    ensures FlushesOn(s, s') && Passes(c, s, l, s', x)
  {
    hide SlabsOk, FlushOk, Members, OfFamily, Bump, FlushTarget, FlushWrite, FlushRedirect, FlushFree, FlushStore;
    Relinked(s.slabs, l.x, s'.slabs[l.x]);
  }

  lemma TargetPasses(c: Config, s: State, l: Step, s': State, x: nat)
    requires FlushKnows(c, s) && FlushNext(c, s, l, s') && l.FlushTargetS? && x < c.Slabs()
    ensures FlushesOn(s, s') && Passes(c, s, l, s', x)
  {
    hide SlabsOk, FlushOk, Members, OfFamily, Bump, FlushTake, FlushWrite, FlushRedirect, FlushFree, FlushStore;
    MemberFamily(s.slabs, l.x);
    Relinked(s.slabs, l.x, s'.slabs[l.x]);
  }

  lemma WritePasses(c: Config, s: State, l: Step, s': State, x: nat)
    requires FlushKnows(c, s) && FlushNext(c, s, l, s') && l.FlushWriteS? && x < c.Slabs()
    ensures FlushesOn(s, s') && Passes(c, s, l, s', x)
  {
    hide SlabsOk, Members, OfFamily, FlushTake, FlushTarget, FlushRedirect, FlushFree, FlushStore;
    SlabAt(c, s.slabs, s.mem, s.disk, s.flush.d);
    SlabAt(c, s.slabs, s.mem, s.disk, s.flush.m);
    OtherImages(c, s, s.flush.d, s.mem[s.flush.m]);
    SameLinks(s.slabs, s'.slabs);
  }

  lemma RedirectPasses(c: Config, s: State, l: Step, s': State, x: nat)
    requires FlushKnows(c, s) && FlushNext(c, s, l, s') && l.FlushRedirectS? && x < c.Slabs()
    ensures FlushesOn(s, s') && Passes(c, s, l, s', x)
  {
    hide SlabsOk, Members, OfFamily, Redirected, FlushTake, FlushTarget, FlushWrite, FlushFree, FlushStore;
    SlabAt(c, s.slabs, s.mem, s.disk, s.flush.m);
    assert s'.index.Keys == s.index.Keys;
    SameLinks(s.slabs, s'.slabs);
  }

  lemma FreePasses(c: Config, s: State, l: Step, s': State, x: nat)
    requires FlushKnows(c, s) && FlushNext(c, s, l, s') && l.FlushFreeS? && x < c.Slabs()
    ensures FlushesOn(s, s') && Passes(c, s, l, s', x)
  {
    hide SlabsOk, Members, OfFamily, Bump, FlushTake, FlushTarget, FlushWrite, FlushRedirect, FlushStore;
    SlabAt(c, s.slabs, s.mem, s.disk, s.flush.m);
    Relinked(s.slabs, s.flush.m, s'.slabs[s.flush.m]);
  }

  lemma StorePasses(c: Config, s: State, l: Step, s': State, x: nat)
    requires FlushKnows(c, s) && FlushNext(c, s, l, s') && l.FlushStoreS? && x < c.Slabs()
    ensures FlushesOn(s, s') && Passes(c, s, l, s', x)
  {
    hide SlabsOk, Members, OfFamily, Bump, FlushTake, FlushTarget, FlushWrite, FlushRedirect, FlushFree;
    SlabAt(c, s.slabs, s.mem, s.disk, s.flush.d);
    Relinked(s.slabs, s.flush.d, s'.slabs[s.flush.d]);
  }

  lemma FlushPasses(c: Config, s: State, l: Step, s': State, x: nat)
    requires FlushKnows(c, s) && FlushNext(c, s, l, s') && x < c.Slabs()
    ensures FlushesOn(s, s') && Passes(c, s, l, s', x)
  {
    hide FlushKnows, FlushTake, FlushTarget, FlushWrite, FlushRedirect, FlushFree, FlushStore, FlushesOn, Passes;
    match l
    case FlushTakeS(_) => TakePasses(c, s, l, s', x);
    case FlushTargetS(_, _) => TargetPasses(c, s, l, s', x);
    case FlushWriteS => WritePasses(c, s, l, s', x);
    case FlushRedirectS => RedirectPasses(c, s, l, s', x);
    case FlushFreeS => FreePasses(c, s, l, s', x);
    case FlushStoreS => StorePasses(c, s, l, s', x);
  }

  lemma KnowsOf(c: Config, s: State)
    requires Inv(c, s)
    ensures FlushKnows(c, s) && Fits(c, s)
  {
    hide SlabsOk, OneOpen, PutOk, FlushOk, InvGc, InvIndex, PoolOk;
  }

  /** A step of the flusher brings nothing new. */
  lemma FlushBrings(c: Config, s: State, l: Step, s': State)
    requires FlushKnows(c, s) && FlushNext(c, s, l, s') && Fits(c, s')
    ensures CanFill(s') == CanFill(s) && (SomeComes(c, s') ==> SomeComes(c, s))
  {
    hide SlabsOk, FlushOk, FlushNext, CanFill, Frees, SameRecords, Carrier, Origin, OfFamily, Members;
    FlushPasses(c, s, l, s', 0);
    if SomeComes(c, s') {
      var y :| Comes(s', y) && Frees(c, s', y);
      FlushPasses(c, s, l, s', y);
      var x := Origin(s, l, y);
      FlushPasses(c, s, l, s', x);
      SameFrees(c, s, x, s', y);
      assert Comes(s, x) && Frees(c, s, x);
    }
  }

  // ---------- without the condition nothing helps ----------

  /** Asleep, or within a pass that drops one slab for lack of entries. */
  predicate DropsOne(g: GcPc) {
    g.GIdle? || g.GAwake? || g.GSeen? || (InDrop(g) && g.drop == Drop(1, 0, false))
  }

  lemma DropsOneSteps(c: Config, s: State, l: Step, s': State)
    requires QuickNext(c, s, l, s') && DropsOne(s.gc) && s.nrFreeEntry == 0
    ensures DropsOne(s'.gc) && !l.GcReturnOpsS?
  {
    hide Members, CheckOpsPool, OpsInBounds, StoredTags, Bump, BackToFree, BackToOps, QuickLow, QuickHigh;
  }

  /** Everything that `Comes` and `Frees` look at. */
  ghost predicate SameView(s: State, s': State) {
    && s'.index == s.index && s'.mem == s.mem && s'.disk == s.disk && s'.flush == s.flush
    && s'.nrFreeDslab == s.nrFreeDslab
  }

  lemma OneSlabBrings(c: Config, s: State, s': State, x: nat)
    requires Fits(c, s) && Fits(c, s') && SameView(s, s') && x < |s.slabs| && s'.slabs == s.slabs[x := s'.slabs[x]]
    requires s'.slabs == s.slabs || (Comes(s', x) ==> Comes(s, x) && s'.slabs[x].nrAlloc == s.slabs[x].nrAlloc)
    ensures SomeComes(c, s') ==> SomeComes(c, s)
  {
    hide StoredTags;
    if SomeComes(c, s') {
      var y :| Comes(s', y) && Frees(c, s', y);
      assert Comes(s, y) && Frees(c, s, y);
    }
  }

  lemma SelectBrings(c: Config, s: State, s': State, x: nat, ch: nat)
    requires GcSelect(c, s, s', x, ch)
    ensures Fits(c, s') && s'.nrFreeEntry == s.nrFreeEntry && (SomeComes(c, s') ==> SomeComes(c, s))
  {
    hide SomeComes, Bump;
    OneSlabBrings(c, s, s', x);
  }

  /** Evicting a slab whose keys have no entry changes nothing. */
  lemma EvictBrings(c: Config, s: State, s': State, x: nat)
    requires GcEvict(c, s, s', x) && !SomeComes(c, s)
    ensures Fits(c, s') && s'.nrFreeEntry == s.nrFreeEntry && !SomeComes(c, s')
  {
    hide StoredTags;
    assert Comes(s, x) && !Frees(c, s, x);
    var doomed := StoredTags(c, s.slabs[x].nrAlloc, s.disk[c.BlockOf(x)].recs);
    assert s.index.Keys * doomed == {};
    assert forall t :: t in s.index && t in doomed ==> t in s.index.Keys * doomed;
    assert s.index - doomed == s.index;
    OneSlabBrings(c, s, s', x);
  }

  lemma LoseBrings(c: Config, s: State, s': State, x: nat)
    requires GcLose(c, s, s', x) && FlushKnows(c, s')
    ensures s'.nrFreeEntry == s.nrFreeEntry && (SomeComes(c, s') ==> SomeComes(c, s))
  {
    hide SomeComes, SlabsOk, OfFamily;
    assert !Comes(s', x);
    OneSlabBrings(c, s, s', x);
  }

  /** Nothing is left for the free lists after the one slab was lost. */
  lemma ReturnFreeNever(c: Config, s: State, s': State, x: nat)
    requires DropsOne(s.gc) && InvPool(c, s)
    ensures !GcReturnFree(c, s, s', x)
  {
    hide SizesOk;
    if s.gc.GReturnFree? && c.IsDisk(x) && x < |s.slabs| && s.slabs[x].link == ToDrop {
      MemberFamily(s.slabs, x);
    }
  }

  lemma QuickBrings(c: Config, s: State, l: Step, s': State)
    requires QuickNext(c, s, l, s') && DropsOne(s.gc) && Waits(s) && Fits(c, s) && !SomeComes(c, s)
    requires Inv(c, s) && FlushKnows(c, s')
    ensures DropsOne(s'.gc) && Waits(s') && !SomeComes(c, s') && s'.put == s.put
  {
    hide InvSlabs, InvIndex, InvPool, FlushKnows, GcWake, GcRead, GcDropOne, GcPlan, GcSelect, GcEvict, GcReturnOps,
         GcLose, GcReturnFree, GcQuickDone, GcSelected, GcEvicted, GcReturnedOps, GcChooseQuick, SomeComes, DropsOne,
         Comes;
    var any: nat := 0;
    DropsOneSteps(c, s, l, s');
    QuickLeaves(c, s, l, s');
    match l
    case GcSelectS(x, ch) => SelectBrings(c, s, s', x, ch);
    case GcEvictS(x) => EvictBrings(c, s, s', x);
    case GcLoseS(x) => LoseBrings(c, s, s', x);
    case GcReturnFreeS(x) => ReturnFreeNever(c, s, s', x);
    case _ =>
      TurnLeaves(c, s, l, s');
      OneSlabBrings(c, s, s', any);
  }

  /** The collector sleeps and cannot be woken, or what it can drop frees no entry. */
  ghost predicate Stuck(c: Config, s: State) {
    && Fits(c, s)
    && Waits(s)
    && ((s.gc.GIdle? && CanFill(s) <= s.collections) || (DropsOne(s.gc) && !SomeComes(c, s)))
  }

  lemma StuckStep(c: Config, s: State, l: Step, s': State)
    requires Stuck(c, s) && Next(c, s, l, s') && !l.DeleteS? && Inv(c, s) && Inv(c, s')
    ensures Stuck(c, s') && s'.put == s.put
  {
    hide InvSlabs, InvIndex, InvPool, PutNext, FlushNext, QuickNext, NormalNext, SomeComes, CanFill, FlushKnows,
         Shaped, OffMemory;
    KnowsOf(c, s);
    KnowsOf(c, s');
    if PutNext(c, s, l, s') {
      PutLeaves(c, s, l, s');
    } else if FlushNext(c, s, l, s') {
      FlushLeaves(c, s, l, s');
      FlushBrings(c, s, l, s');
    } else if s.gc.GIdle? && CanFill(s) <= s.collections {
      IdleWakes(c, s, l, s');
      Space.PoolHas(c, s);
      FullIsFill(s);
      assert false;
    } else if QuickNext(c, s, l, s') {
      QuickBrings(c, s, l, s');
    } else {
      NormalLeaves(c, s, l, s');
      assert false;
    }
  }

  lemma FullIsFill(s: State)
    requires s.nrFreeDslab >= 0
    ensures CanFill(s) >= |OfFamily(s.slabs, FullLists)|
  {
    hide OfFamily, Members;
  }

  lemma {:induction false} StuckStays(c: Config, s0: State, n: nat, s: State)
    requires LeadsIn(c, From(s0, []), n, s) && Stuck(c, s0) && Inv(c, s0)
    ensures Inv(c, s) && Stuck(c, s)
  {
    hide Inv, Next, Stuck, InOrder;
    if n > 0 {
      var r: State, l: Step :| LeadsIn(c, From(s0, []), n - 1, r) && Allows(From(s0, []), r, l) && Next(c, r, l, s);
      StuckStays(c, s0, n - 1, r);
      NextKeeps(c, r, l, s);
      StuckStep(c, r, l, s);
    }
  }

  // ---------- with the condition the collector frees an entry ----------

  /** The collector wakes, finds no free entry, drops slab `x` and so frees one. */
  lemma FreeNow(c: Config, t: Trail, s: State, x: nat) returns (s': State)
    requires Fits(c, s) && s.gc.GIdle? && s.nrFullDslab > 0 && s.nrFreeDslab >= 0 && c.IsDisk(x)
    requires s.slabs[x].link.DslabFull? && s.nrFreeEntry == 0 && Frees(c, s, x)
    requires t.From? && t.order != [] ==> InOrder(t.order, s.slabs, x)
    requires Leads(c, t, s)
    ensures Leads(c, t, s') && s'.nrFreeEntry > 0
  {
    hide Leads, StoredTags, InOrder;
    var s1 := Waken(c, t, s);
    var s2 := DropSelect(c, t, s1, x);
    s' := DropEvict(c, t, s2, x, Drop(1, 0, false));
  }

  // ---------- the flusher's next step ----------

  /** The flusher takes memory slab `m`, or a disk slab for the one it has. */
  lemma FlushStarts(c: Config, s: State, m: nat) returns (l: Step, s': State)
    requires Fits(c, s) && SlabsOk(c, s.slabs, s.mem, s.disk) && (s.flush.FIdle? || s.flush.FGotM?)
    requires s.flush.FIdle? ==> m < c.nrMslab && s.slabs[m].link == MslabFull
    requires s.flush.FGotM? ==> OfFamily(s.slabs, FreeLists) != {}
    ensures FlushNext(c, s, l, s') && (l.FlushTakeS? ==> s.flush.FIdle? && l.x == m)
  {
    hide SlabsOk, AfterFlushTake, AfterTarget, FlushWrite, FlushRedirect, FlushFree, FlushStore;
    if s.flush.FIdle? {
      l, s' := FlushTakeS(m), AfterFlushTake(c, s, m);
    } else {
      var x :| x in OfFamily(s.slabs, FreeLists);
      OnlyDisks(c, s.slabs, s.mem, s.disk);
      var ch := s.slabs[x].link.channel;
      l, s' := FlushTargetS(x, ch), AfterTarget(c, s, x, ch);
    }
  }

  lemma FlushGoesOn(c: Config, s: State) returns (l: Step, s': State)
    requires Fits(c, s) && FlushOk(c, s.slabs, s.mem, s.disk, s.flush) && HoldsDisk(s.flush)
    ensures FlushNext(c, s, l, s') && !l.FlushTakeS?
  {
    hide AfterFlushWrite, AfterFlushRedirect, AfterFree, AfterStore, FlushTake, FlushTarget;
    match s.flush
    case FGotD(_, _, _) => l, s' := FlushWriteS, AfterFlushWrite(c, s);
    case FWritten(_, _, _) => l, s' := FlushRedirectS, AfterFlushRedirect(c, s);
    case FMoved(_, _, _) => l, s' := FlushFreeS, AfterFree(c, s);
    case FFreed(_, _) => l, s' := FlushStoreS, AfterStore(c, s);
  }

  lemma FlushAdvance(c: Config, s: State, m: nat) returns (l: Step, s': State)
    requires FlushKnows(c, s)
    requires s.flush.FIdle? ==> m < c.nrMslab && s.slabs[m].link == MslabFull
    requires s.flush.FGotM? ==> s.nrFreeDslab > 0
    ensures FlushNext(c, s, l, s') && (l.FlushTakeS? ==> s.flush.FIdle? && l.x == m)
  {
    hide SlabsOk, FlushOk, FlushNext, OfFamily;
    if HoldsDisk(s.flush) {
      l, s' := FlushGoesOn(c, s);
    } else {
      l, s' := FlushStarts(c, s, m);
    }
  }

  /** Memory slabs only are on the list of full memory slabs. */
  lemma QueueInMemory(c: Config, s: State, x: nat)
    requires FlushKnows(c, s) && x < |s.slabs| && s.slabs[x].link == MslabFull
    ensures x < c.nrMslab
  {
    hide SlabsOk, FlushOk, OfFamily;
    SlabAt(c, s.slabs, s.mem, s.disk, x);
  }

  /** While the collector cannot yet drop slab `x`, the flusher can move; `m` is the slab it may take. */
  lemma FlusherCanMove(c: Config, s: State, x: nat) returns (m: nat)
    requires FlushKnows(c, s) && CanFill(s) > s.collections && Comes(s, x) && !s.slabs[x].link.ToDrop?
    requires s.nrFullDslab + s.collections == |OfFamily(s.slabs, FullLists)|
    requires !(s.slabs[x].link.DslabFull? && s.nrFullDslab > 0)
    ensures s.flush.FIdle? ==> m < c.nrMslab && s.slabs[m].link == MslabFull
    ensures s.flush.FGotM? ==> s.nrFreeDslab > 0
    ensures s.flush.FIdle? && s.slabs[x].link.MslabFull? ==> m == x
  {
    hide SlabsOk, FlushOk, OfFamily;
    m := 0;
    if s.slabs[x].link.MslabFull? {
      m := x;
      QueueInMemory(c, s, x);
    } else if s.flush.FIdle? {
      m :| m in Members(s.slabs, MslabFull);
      QueueInMemory(c, s, m);
    }
  }

  lemma FlushOn(c: Config, t: Trail, s: State) returns (s': State)
    requires t.From? && t.order == [] && Leads(c, t, s)
    requires s.gc.GIdle? && Waits(s) && Recoverable(c, s) && Inv(c, s)
    ensures Leads(c, t, s') && s'.nrFreeEntry > 0
    decreases |Members(s.slabs, MslabFull)|, FlushPhase(s.flush)
  {
    hide InvSlabs, InvIndex, InvPool, Leads, Frees, SameRecords, CanFill, FlushKnows, Members, OfFamily, PutNext,
         FlushNext, QuickNext, NormalNext;
    var x: nat :| Comes(s, x) && Frees(c, s, x);
    KnowsOf(c, s);
    Space.PoolHas(c, s);
    NotDropping(c, s, x);
    if s.slabs[x].link.DslabFull? && s.nrFullDslab > 0 {
      s' := FreeNow(c, t, s, x);
    } else {
      var m := FlusherCanMove(c, s, x);
      var l, s1 := FlushAdvance(c, s, m);
      NextKeeps(c, s, l, s1);
      KnowsOf(c, s1);
      FlushLeaves(c, s, l, s1);
      FlushPasses(c, s, l, s1, x);
      SameFrees(c, s, x, s1, Carrier(s, l, x));
      ExtendBy(c, t, s, l, s1);
      s' := FlushOn(c, t, s1);
    }
  }

  lemma NotDropping(c: Config, s: State, x: nat)
    requires s.gc.GIdle? && x < |s.slabs| && InvSlabs(c, s)
    ensures !s.slabs[x].link.ToDrop? && (s.slabs[x].link.DslabFull? ==> c.IsDisk(x))
  {
    hide InvIndex, InvPool, SlabsOk, OneOpen, PutOk, FlushOk, CollectOk, WrittenOk, LostOk;
    SlabAt(c, s.slabs, s.mem, s.disk, x);
    assert GcHolds(s.gc, x, s.slabs[x].role);
  }

  // ---------- the exact condition ----------

  /**
   Between passes, a Put that waits for an index entry can get one without a Delete, for some choice of the slabs that
   are flushed and dropped, if and only if the flusher can fill more disk slabs than there were collections and one that
   it can fill, or that is full, stores a key with an entry.
   */
  lemma RecoversExactlyWhen(c: Config, s: State)
    requires Waits(s) && s.gc.GIdle? && Reachable(c, s)
    ensures Recovers(c, s) <==> Recoverable(c, s)
  {
    hide Leads, InvSlabs, InvIndex, InvPool, Next, CanFill, SomeComes, Shaped, DropsOne;
    LeadsInv(c, Whole, s);
    if Recoverable(c, s) {
      LeadsStart(c, From(s, []), s);
      var s' := FlushOn(c, From(s, []), s);
    } else if Recovers(c, s) {
      NotRecovering(c, s);
      assert false;
    }
  }

  lemma NotRecovering(c: Config, s: State)
    requires Waits(s) && s.gc.GIdle? && !Recoverable(c, s) && Inv(c, s)
    ensures !Recovers(c, s)
  {
    hide InvSlabs, InvIndex, InvPool, Next, CanFill, SomeComes;
    KnowsOf(c, s);
    forall s' | Leads(c, From(s, []), s') ensures s'.nrFreeEntry <= 0 {
      var n: nat :| LeadsIn(c, From(s, []), n, s');
      StuckStays(c, s, n, s');
    }
  }

  /** Without the condition, in every run, the Put waits where it is until some Delete. */
  lemma {:induction false} OnlyDeleteHelps(c: Config, states: seq<State>, steps: seq<Step>, n: nat, m: nat)
    requires n <= m < |states| == |steps| + 1 && Waits(states[n]) && states[n].gc.GIdle?
    requires !Recoverable(c, states[n]) && forall k :: n <= k < m ==> !steps[k].DeleteS?
    requires IsRun(c, states, steps)
    ensures states[m].nrFreeEntry == 0 && states[m].put == states[n].put && Stuck(c, states[m])
    decreases m
  {
    hide Inv, Next, CanFill, SomeComes, Bootable, Boot, FlushKnows;
    RunInv(c, states, steps, m);
    if n == m {
      KnowsOf(c, states[n]);
    } else {
      OnlyDeleteHelps(c, states, steps, n, m - 1);
      RunInv(c, states, steps, m - 1);
      StuckStep(c, states[m - 1], steps[m - 1], states[m]);
    }
  }

  // ---------- the condition when the flusher is not short of disk slabs ----------

  /** The slab that an entry names holds the entry's key. */
  lemma NamedFrees(c: Config, s: State, t: Tag)
    requires Fits(c, s) && t in s.index && IndexOk(c, s.slabs, s.mem, s.disk, s.index, s.latest, s.put)
    ensures s.index[t].sid < c.Slabs() && LiveRole(s.slabs[s.index[t].sid].role) && Frees(c, s, s.index[t].sid)
  {
    hide IndexOk;
    EntryAt(c, s, t);
    var x := s.index[t].sid;
    var recs := ImageOf(c, s.mem, s.disk, x).recs;
    assert c.TagOf(recs[s.index[t].slot].key) == t;
    assert t in s.index.Keys * StoredTags(c, s.slabs[x].nrAlloc, recs);
  }

  /** A slab with entries, past taking slots, is on its way to a full list or on one. */
  lemma LiveComes(c: Config, s: State, x: nat)
    requires Fits(c, s) && SlabsOk(c, s.slabs, s.mem, s.disk) && FlushOk(c, s.slabs, s.mem, s.disk, s.flush)
    requires GcHeld(s.slabs, s.gc) && s.gc.GIdle? && Queued(s) <= s.nrFreeDslab
    requires x < c.Slabs() && LiveRole(s.slabs[x].role) && !Taking(s.slabs[x].role)
    ensures Comes(s, x)
  {
    hide SlabsOk;
    SlabAt(c, s.slabs, s.mem, s.disk, x);
    assert FlushHolds(s.flush, x, s.slabs[x].role);
    assert GcHolds(s.gc, x, s.slabs[x].role);
    if s.slabs[x].link.MslabFull? { MemberFamily(s.slabs, x); }
  }

  lemma RoomComes(c: Config, s: State)
    requires Waits(s) && s.gc.GIdle? && Queued(s) <= s.nrFreeDslab && Inv(c, s)
    ensures SomeComes(c, s)
  {
    hide SlabsOk, OneOpen, PutOk, FlushOk, GcHeld, CollectOk, WrittenOk, LostOk, IndexOk, CountsOk, MoveOk, InvPool,
         Comes, Frees, Members;
    var t := Pressure.EntryPastOpen(c, s);
    PastOpen(c, s, t);
    NamedFrees(c, s, t);
    LiveComes(c, s, s.index[t].sid);
    assert Comes(s, s.index[t].sid) && Frees(c, s, s.index[t].sid);
  }

  lemma PastOpen(c: Config, s: State, t: Tag)
    requires Pressure.Reclaimable(c, s, t) && Inv(c, s)
    ensures t in s.index && s.index[t].sid < |s.slabs| && !Taking(s.slabs[s.index[t].sid].role)
  {
    hide OneOpen, PutOk, InvGc, InvIndex, InvPool, SlabsOk;
    var x := s.index[t].sid;
    SlabAt(c, s.slabs, s.mem, s.disk, x);
  }

  /** With a free disk slab for each queued memory slab, only the number of collections counts. */
  lemma RecoversWithRoom(c: Config, s: State)
    requires Waits(s) && s.gc.GIdle? && Queued(s) <= s.nrFreeDslab && Reachable(c, s)
    ensures Recovers(c, s) <==>
              |OfFamily(s.slabs, FullLists)| + One(HoldsDisk(s.flush)) + Queued(s) > s.collections
  {
    hide Leads, InvSlabs, InvIndex, InvPool, SomeComes, OfFamily, Members, Shaped;
    RecoversExactlyWhen(c, s);
    LeadsInv(c, Whole, s);
    RoomComes(c, s);
  }

  /**
   With nothing left to flush, and the collector asleep, the waiting Put can get an entry without a Delete, for some
   choice of the slabs that are dropped, if and only if the full lists hold more slabs than there were collections;
   otherwise no thread but a deleting client can take a step.
   */
  lemma QuietExactlyWhen(c: Config, s: State)
    requires Quiet(s) && Reachable(c, s)
    ensures Recovers(c, s) <==> |OfFamily(s.slabs, FullLists)| > s.collections
    ensures !Recovers(c, s) ==> forall l, s' :: Next(c, s, l, s') ==> l.DeleteS?
  {
    hide Leads, InvSlabs, InvIndex, InvPool, Recovers, OfFamily, Next;
    LeadsInv(c, Whole, s);
    Space.PoolHas(c, s);
    RecoversWithRoom(c, s);
    if !Recovers(c, s) {
      forall l, s' | Next(c, s, l, s') ensures l.DeleteS? { QuietStands(c, s, l, s'); }
    }
  }

  lemma QuietStands(c: Config, s: State, l: Step, s': State)
    requires Quiet(s) && s.nrFullDslab <= 0 && Next(c, s, l, s')
    ensures l.DeleteS?
  {
    hide PutNext, FlushTarget, FlushWrite, FlushRedirect, FlushFree, FlushStore, QuickNext, NormalNext, OffDisk;
    if PutNext(c, s, l, s') {
      PutLeaves(c, s, l, s');
    } else if FlushNext(c, s, l, s') {
      FlushLeaves(c, s, l, s');
      QueuedIs(s.slabs, l.x);
      assert false;
    } else {
      IdleWakes(c, s, l, s');
      assert false;
    }
  }

  lemma QueuedIs(slabs: seq<Slab>, x: nat)
    ensures x in Members(slabs, MslabFull) <==> x < |slabs| && slabs[x].link == MslabFull
  {
  }
}
