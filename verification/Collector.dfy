/**
 The collector over whole runs: what a quick pass loses, how many collections there can be, and when the collector
 sleeps for good.
 */
module Collector {
  import opened Types
  import opened Protocol
  import opened Invariant
  import opened Counting
  import opened Frames
  import opened Runs
  import opened Progress
  import QuickGcSteps
  import Space

  // ---------- what a quick pass loses ----------

  /** From `s`, where the pass of `drop` started, to `s'` within the pass: what the pool got so far. */
  predicate PoolSince(s: State, drop: Drop, s': State) {
    s'.opsSize == s.opsSize + if s'.gc.GReturnOps? then s'.gc.given
                              else if s'.gc.GReturnFree? then Min(drop.toOps, drop.Wanted()) else 0
  }

  /** And what is lost so far. */
  ghost predicate LostSince(s: State, drop: Drop, s': State) {
    && InDrop(s'.gc) && s'.gc.drop == drop && drop.toOps >= 0
    && s.lost <= s'.lost && PoolSince(s, drop, s')
    && |s'.lost| == |s.lost| + One(s'.gc.GReturnFree? && drop.toFree > 0)
  }

  /** The pass that starts with step `l` from `s` is to free some slabs, or would if it lost none. */
  predicate FreesSome(s: State, l: Step, s': State) { l.GcDropOneS? || 10 * s.nrFreeDslab + 10 <= 13 * s'.low }

  lemma DropStarts(c: Config, s: State, l: Step, s': State)
    requires Inv(c, s) && Next(c, s, l, s') && (l.GcDropOneS? || l.GcPlanS?)
    ensures s'.gc.GSelect? && LostSince(s, s'.gc.drop, s')
    ensures s'.gc.drop.toFree > 0 <==> FreesSome(s, l, s')
    ensures l.GcPlanS? ==> s'.gc.drop.toOps == Min(s.opsSize, c.maxOps - s.opsSize)
    ensures l.GcPlanS? ==> (s'.gc.drop.toFree >= 0 <==> 10 * s.nrFreeDslab < 13 * s'.low + 10)
  {
    hide InvSlabs, InvIndex, SizesOk, CheckOpsPool, QuickLow, QuickHigh, BackToFree, BackToOps;
    if l.GcPlanS? { QuickGcSteps.PlanAsks(c, s, s'); }
  }

  lemma DropContinues(c: Config, s0: State, drop: Drop, s: State, l: Step, s': State)
    requires LostSince(s0, drop, s) && Inv(c, s) && Next(c, s, l, s') && !l.GcQuickDoneS?
    ensures LostSince(s0, drop, s')
  {
    hide PutNext, FlushNext, QuickNext, NormalNext, InvSlabs, InvIndex, InvPool, OffMemory;
    if PutNext(c, s, l, s') { PutLeaves(c, s, l, s'); }
    else if FlushNext(c, s, l, s') { FlushLeaves(c, s, l, s'); }
    else if QuickNext(c, s, l, s') { DropSteps(c, s0, drop, s, l, s'); }
    else { NormalLeaves(c, s, l, s'); }
  }

  lemma PoolGoesOn(c: Config, s0: State, drop: Drop, s: State, l: Step, s': State)
    requires InDrop(s.gc) && s.gc.drop == drop && PoolSince(s0, drop, s)
    requires Inv(c, s) && QuickNext(c, s, l, s') && !l.GcQuickDoneS?
    ensures PoolSince(s0, drop, s')
  {
    hide InvSlabs, InvIndex, InvPool, CheckOpsPool, StoredTags, GcLose, GcReturnedOps, Members, Bump, Shaped, AfterPlan,
         AfterDropOne, AfterLose, OpsInBounds;
    if l.GcLoseS? {
      LoseFacts(c, s, s', l.x);
    } else if l.GcReturnedOpsS? {
      ReturnedFacts(c, s, s');
    }
  }

  lemma DropSteps(c: Config, s0: State, drop: Drop, s: State, l: Step, s': State)
    requires LostSince(s0, drop, s) && Inv(c, s) && QuickNext(c, s, l, s') && !l.GcQuickDoneS?
    ensures LostSince(s0, drop, s')
  {
    hide InvSlabs, InvIndex, InvPool, CheckOpsPool, StoredTags, GcLose, GcReturnedOps, Members, PoolSince, Bump, Shaped;
    PoolGoesOn(c, s0, drop, s, l, s');
    if l.GcLoseS? {
      LoseFacts(c, s, s', l.x);
    } else if l.GcReturnedOpsS? {
      ReturnedFacts(c, s, s');
    }
  }

  /** The loop that feeds the pool unlinks one slab too many exactly when some were meant for the free lists. */
  lemma LoseFacts(c: Config, s: State, s': State, x: nat)
    requires Inv(c, s) && GcLose(c, s, s', x)
    ensures s.gc.GReturnOps? && s.gc.drop.toFree > 0 && s'.gc == GReturnFree(s.gc.drop)
    ensures x !in s.lost && s'.lost == s.lost + {x}
    ensures s'.opsSize == s.opsSize && s.gc.given == Min(s.gc.drop.toOps, s.gc.drop.Wanted())
  {
    hide InvIndex, SizesOk, SlabsOk, OneOpen, PutOk, FlushOk, InvGc;
    QuickGcSteps.LoseSlabs(c, s, s', x);
    MemberFamily(s.slabs, x);
  }

  lemma ReturnedFacts(c: Config, s: State, s': State)
    requires InvPool(c, s) && GcReturnedOps(c, s, s')
    ensures s.gc.GReturnOps? && s.gc.drop.toFree <= 0 && s'.gc == GReturnFree(s.gc.drop) && s'.lost == s.lost
    ensures s'.opsSize == s.opsSize && s.gc.given == Min(s.gc.drop.toOps, s.gc.drop.Wanted())
  {
    hide SizesOk;
    assert OfFamily(s.slabs, Dropping) == {} by {
      assert forall x :: 0 <= x < |s.slabs| ==> x !in Members(s.slabs, ToDrop);
    }
  }

  lemma {:induction false} DropRuns(c: Config, states: seq<State>, steps: seq<Step>, i: nat, m: nat)
    requires i < m < |states| == |steps| + 1 && (steps[i].GcDropOneS? || steps[i].GcPlanS?)
    requires forall k :: i < k < m ==> !steps[k].GcQuickDoneS?
    requires IsRun(c, states, steps)
    ensures states[i + 1].gc.GSelect? && LostSince(states[i], states[i + 1].gc.drop, states[m])
    decreases m
  {
    hide Next, Bootable, Boot, InvSlabs, InvIndex, InvPool, LostSince;
    if m == i + 1 {
      RunInv(c, states, steps, i);
      DropStarts(c, states[i], steps[i], states[m]);
    } else {
      DropRuns(c, states, steps, i, m - 1);
      RunInv(c, states, steps, m - 1);
      DropContinues(c, states[i], states[i + 1].gc.drop, states[m - 1], steps[m - 1], states[m]);
    }
  }

  lemma DropEnds(c: Config, s: State, l: Step, s': State)
    requires Next(c, s, l, s') && l.GcQuickDoneS?
    ensures s.gc.GReturnFree? && s'.lost == s.lost && s'.opsSize == s.opsSize
  {
    hide Members, CheckOpsPool;
  }

  /**
   A quick pass from step `i` to step `j` loses one slab for good if and only if it was to free some: 1.3 times the low
   mark are at least one more than the free disk slabs, or it is the one-slab drop for lack of index entries, which
   therefore always loses the slab it dropped.
   */
  lemma QuickPassLoses(c: Config, states: seq<State>, steps: seq<Step>, i: nat, j: nat)
    requires i < j < |steps| && |states| == |steps| + 1
    requires (steps[i].GcDropOneS? || steps[i].GcPlanS?) && steps[j].GcQuickDoneS?
    requires forall k :: i < k < j ==> !steps[k].GcQuickDoneS?
    requires IsRun(c, states, steps)
    ensures states[i].lost <= states[j + 1].lost
    ensures |states[j + 1].lost| == |states[i].lost| + One(FreesSome(states[i], steps[i], states[i + 1]))
  {
    hide Next, Bootable, Boot, InvSlabs, InvIndex, InvPool, FreesSome;
    DropRuns(c, states, steps, i, j);
    RunInv(c, states, steps, i);
    DropStarts(c, states[i], steps[i], states[i + 1]);
    DropEnds(c, states[j], steps[j], states[j + 1]);
  }

  /**
   The one-slab drop leaves the pool as it was. A computed pass doubles it, up to its maximum, unless the free disk
   slabs outnumber 1.3 times the low mark; then the pool gets less.
   */
  lemma QuickPassPool(c: Config, states: seq<State>, steps: seq<Step>, i: nat, j: nat)
    requires i < j < |steps| && |states| == |steps| + 1
    requires (steps[i].GcDropOneS? || steps[i].GcPlanS?) && steps[j].GcQuickDoneS?
    requires forall k :: i < k < j ==> !steps[k].GcQuickDoneS?
    requires IsRun(c, states, steps)
    ensures steps[i].GcDropOneS? ==> states[j + 1].opsSize == states[i].opsSize
    ensures steps[i].GcPlanS? ==> states[i].opsSize <= states[j + 1].opsSize <= Min(2 * states[i].opsSize, c.maxOps)
    ensures steps[i].GcPlanS? && 10 * states[i].nrFreeDslab < 13 * states[i + 1].low + 10 ==>
              states[j + 1].opsSize == Min(2 * states[i].opsSize, c.maxOps)
  {
    hide Next, Bootable, Boot, InvSlabs, InvIndex, InvPool, FreesSome;
    DropRuns(c, states, steps, i, j);
    RunInv(c, states, steps, i);
    DropStarts(c, states[i], steps[i], states[i + 1]);
    DropEnds(c, states[j], steps[j], states[j + 1]);
    if steps[i].GcDropOneS? { OneIs(c, states[i], steps[i], states[i + 1]); }
  }

  lemma OneIs(c: Config, s: State, l: Step, s': State)
    requires Next(c, s, l, s') && l.GcDropOneS?
    ensures s'.gc.GSelect? && s'.gc.drop.toFree == 1 && s'.gc.drop.toOps == 0
  {
    hide CheckOpsPool;
  }

  // ---------- how many quick passes can free slabs ----------

  /** Quick passes among the first `n` steps that were to free slabs. */
  ghost function LosingPasses(c: Config, states: seq<State>, steps: seq<Step>, n: nat): nat
    requires n <= |steps| && |states| == |steps| + 1
  {
    if n == 0 then 0
    else LosingPasses(c, states, steps, n - 1)
         + One(StartsDrop(steps[n - 1]) && FreesSome(states[n - 1], steps[n - 1], states[n]))
  }

  /** The current pass has its slab still to lose. */
  predicate StillToLose(g: GcPc) { (g.GSelect? || g.GEvict? || g.GReturnOps?) && g.drop.toFree > 0 }

  /** A step loses a slab that was still to be lost, or starts a pass that will. */
  ghost predicate LosesBy(c: Config, s: State, l: Step, s': State) {
    |s'.lost| + One(StillToLose(s'.gc)) ==
    |s.lost| + One(StillToLose(s.gc)) + One(StartsDrop(l) && FreesSome(s, l, s'))
  }

  lemma TurnLoses(c: Config, s: State, l: Step, s': State)
    requires QuickNext(c, s, l, s')
    requires l.GcWakeS? || (TurnsQuick(l) && !l.GcLoseS? && !l.GcReturnedOpsS? && !StartsDrop(l))
    ensures s'.lost == s.lost && StillToLose(s'.gc) == StillToLose(s.gc)
  {
    hide AfterSelect, AfterEvict, AfterReturnOps, AfterReturnFree, AfterLose, CheckOpsPool, OpsInBounds, Members,
         BackToFree, BackToOps, QuickLow, QuickHigh;
  }

  lemma StartLoses(c: Config, s: State, l: Step, s': State)
    requires QuickNext(c, s, l, s') && StartsDrop(l)
    ensures s'.lost == s.lost && !StillToLose(s.gc) && (StillToLose(s'.gc) <==> FreesSome(s, l, s'))
  {
    hide CheckOpsPool, OpsInBounds, QuickLow, QuickHigh, BackToFree, BackToOps, GcSelect, GcEvict, GcReturnOps, GcLose,
         GcReturnFree, GcReturnedOps, Shaped;
    if l.GcPlanS? { QuickGcSteps.PlanAsks(c, s, s'); }
  }

  lemma QuickLoses(c: Config, s: State, l: Step, s': State)
    requires Inv(c, s) && QuickNext(c, s, l, s')
    ensures LosesBy(c, s, l, s')
  {
    hide InvSlabs, InvIndex, InvPool, FreesSome, GcWake, GcRead, GcDropOne, GcChooseQuick, GcPlan, GcSelect, GcSelected,
         GcEvict, GcEvicted, GcReturnOps, GcLose, GcReturnedOps, GcReturnFree, GcQuickDone, Shaped;
    match l
    case GcLoseS(x) => LoseFacts(c, s, s', x);
    case GcReturnedOpsS => ReturnedFacts(c, s, s');
    case _ =>
      if StartsDrop(l) { StartLoses(c, s, l, s'); }
      else if DropsSlab(l) { DropLeaves(c, s, l, s'); }
      else { TurnLoses(c, s, l, s'); }
  }

  lemma LosesStep(c: Config, s: State, l: Step, s': State)
    requires Inv(c, s) && Next(c, s, l, s')
    ensures LosesBy(c, s, l, s')
  {
    hide InvSlabs, InvIndex, InvPool, PutNext, FlushNext, QuickNext, NormalNext, LosesBy, Shaped, OffMemory,
         Allowance, Entryless;
    if QuickNext(c, s, l, s') {
      QuickLoses(c, s, l, s');
    } else {
      if PutNext(c, s, l, s') { PutLeaves(c, s, l, s'); }
      else if FlushNext(c, s, l, s') { FlushLeaves(c, s, l, s'); }
      else { NormalLeaves(c, s, l, s'); }
      LosesNothing(c, s, l, s');
    }
  }

  lemma LosesNothing(c: Config, s: State, l: Step, s': State)
    requires s'.lost == s.lost && StillToLose(s'.gc) == StillToLose(s.gc) && !StartsDrop(l)
    ensures LosesBy(c, s, l, s')
  {
  }

  lemma {:induction false} LostCounts(c: Config, states: seq<State>, steps: seq<Step>, n: nat)
    requires n < |states| == |steps| + 1 && IsRun(c, states, steps)
    ensures LosingPasses(c, states, steps, n) == |states[n].lost| + One(StillToLose(states[n].gc))
  {
    hide Next, Bootable, InvSlabs, InvIndex, InvPool, FreesSome;
    if n > 0 {
      LostCounts(c, states, steps, n - 1);
      RunInv(c, states, steps, n - 1);
      LosesStep(c, states[n - 1], steps[n - 1], states[n]);
    }
  }

  /**
   Between passes, the quick passes so far that were to free slabs number exactly the lost slabs; so in its whole life
   the cache makes fewer of them than it has blocks.
   */
  lemma LosingPassesBounded(c: Config, states: seq<State>, steps: seq<Step>, n: nat)
    requires n < |states| == |steps| + 1 && states[n].gc.GIdle? && IsRun(c, states, steps)
    ensures LosingPasses(c, states, steps, n) == |states[n].lost| < |c.block|
  {
    hide IsRun, InvSlabs, InvIndex, InvPool, LosingPasses, OfFamily, Members;
    LostCounts(c, states, steps, n);
    RunInv(c, states, steps, n);
    Space.PoolHas(c, states[n]);
    Space.ConservedBy(c, states[n]);
  }

  // ---------- how many collections there can be ----------

  /** The collections so far, with those that the current pass can still make, are fewer than the blocks. */
  ghost predicate FewCollections(c: Config, s: State) { s.collections < |c.block| && Allowance(s) < |c.block| }

  lemma FewWake(c: Config, s: State, l: Step, s': State)
    requires QuickNext(c, s, l, s') && l.GcWakeS? && Inv(c, s)
    ensures FewCollections(c, s')
  {
    hide InvSlabs, InvIndex, InvPool, OfFamily, Members;
    Space.PoolHas(c, s);
    Space.ConservedBy(c, s);
  }

  lemma FewTurn(c: Config, s: State, l: Step, s': State)
    requires FewCollections(c, s) && QuickNext(c, s, l, s') && !l.GcWakeS? && s.opsSize >= 0
    ensures FewCollections(c, s')
  {
    hide QuickNext, Shaped;
    if DropsSlab(l) {
      DropLeaves(c, s, l, s');
    } else {
      TurnLeaves(c, s, l, s');
      StartsNone(c, s, l, s');
    }
  }

  lemma StartsNone(c: Config, s: State, l: Step, s': State)
    requires QuickNext(c, s, l, s') && !l.GcWakeS? && !DropsSlab(l)
    ensures MayCollect(s'.gc) ==> MayCollect(s.gc)
  {
    hide CheckOpsPool, OpsInBounds, Members, BackToFree, BackToOps, QuickLow, QuickHigh, Shaped, GcSelect, GcEvict,
         GcReturnOps, GcLose, GcReturnFree;
  }

  lemma FewStep(c: Config, s: State, l: Step, s': State)
    requires FewCollections(c, s) && Inv(c, s) && Next(c, s, l, s')
    ensures FewCollections(c, s')
  {
    hide InvSlabs, InvIndex, InvPool, PutNext, FlushNext, QuickNext, NormalNext, OffMemory, OffEntries, Shaped;
    Space.PoolHas(c, s);
    if PutNext(c, s, l, s') { PutLeaves(c, s, l, s'); }
    else if FlushNext(c, s, l, s') { FlushLeaves(c, s, l, s'); }
    else if QuickNext(c, s, l, s') {
      if l.GcWakeS? { FewWake(c, s, l, s'); } else { FewTurn(c, s, l, s'); }
    } else {
      NormalLeaves(c, s, l, s');
    }
  }

  lemma BlocksAtBoot(c: Config)
    requires Bootable(c)
    ensures c.Valid() && |c.block| > 0
  {
    hide OfFamily, BootSlabs;
    PoolAtBoot(c);
  }

  /** However long the cache runs, it makes fewer collections than it has blocks. */
  lemma {:induction false} CollectionsBounded(c: Config, states: seq<State>, steps: seq<Step>, n: nat)
    requires n < |states| && IsRun(c, states, steps)
    ensures FewCollections(c, states[n])
  {
    hide Next, Bootable, InvSlabs, InvIndex, InvPool, FewCollections;
    if n == 0 {
      BlocksAtBoot(c);
      BootFew(c);
    } else {
      CollectionsBounded(c, states, steps, n - 1);
      RunInv(c, states, steps, n - 1);
      FewStep(c, states[n - 1], steps[n - 1], states[n]);
    }
  }

  lemma BootFew(c: Config)
    requires c.Valid() && |c.block| > 0
    ensures FewCollections(c, Boot(c))
  {
    hide OfFamily, Members, BootSlabs;
  }

  // ---------- sleeping for good ----------

  /** The collector sleeps, and not even a full SSD could wake it. */
  ghost predicate Asleep(c: Config, s: State) {
    s.gc.GIdle? && s.collections + s.opsSize + |s.lost| >= |c.block|
  }

  lemma AsleepCannotWake(c: Config, s: State)
    requires Asleep(c, s) && Inv(c, s)
    ensures s.nrFullDslab <= 0
  {
    hide InvSlabs, InvIndex, InvPool, OfFamily, Members;
    Space.PoolHas(c, s);
    Space.ConservedBy(c, s);
  }

  /** What stays the same while the collector sleeps for good. */
  ghost predicate StillAsleep(s: State, l: Step, s': State) {
    && s'.gc == s.gc && s'.opsSize == s.opsSize && s'.lost == s.lost && s'.collections == s.collections
    && s'.nrFreeDslab <= s.nrFreeDslab
    && (s.flush.FGotM? && s.nrFreeDslab == 0 ==> s'.flush == s.flush || s'.nrFreeDslab < 0)
    && (s.nrFreeEntry == 0 && !l.DeleteS? ==> s'.nrFreeEntry == 0 && (s.put.PWaiting? ==> s'.put == s.put))
  }

  lemma AsleepStep(c: Config, s: State, l: Step, s': State)
    requires Asleep(c, s) && Inv(c, s) && Next(c, s, l, s')
    ensures Asleep(c, s') && StillAsleep(s, l, s') && !IsGc(l)
  {
    hide InvSlabs, InvIndex, InvPool, PutNext, FlushNext, QuickNext, NormalNext, Shaped;
    AsleepCannotWake(c, s);
    if PutNext(c, s, l, s') {
      PutLeaves(c, s, l, s');
    } else if FlushNext(c, s, l, s') {
      FlushLeaves(c, s, l, s');
    } else {
      IdleWakes(c, s, l, s');
      assert false;
    }
  }

  /**
   The collector stops for good. Once it sleeps and the collections, the pool and the lost slabs add up to the blocks,
   it takes no step in the rest of the run, however many full slabs there are.
   */
  lemma {:induction false} CollectorStops(c: Config, states: seq<State>, steps: seq<Step>, n: nat, m: nat)
    requires n <= m < |states| == |steps| + 1 && Asleep(c, states[n])
    requires IsRun(c, states, steps)
    ensures Asleep(c, states[m]) && states[m].nrFullDslab <= 0 && forall s' :: !GcWake(c, states[m], s')
    ensures forall k :: n <= k < m ==> !IsGc(steps[k])
    decreases m
  {
    hide Next, Bootable, Boot, InvSlabs, InvIndex, InvPool, StillAsleep;
    if n < m {
      CollectorStops(c, states, steps, n, m - 1);
      RunInv(c, states, steps, m - 1);
      AsleepStep(c, states[m - 1], steps[m - 1], states[m]);
    }
    RunInv(c, states, steps, m);
    AsleepCannotWake(c, states[m]);
  }

  /**
   When it matters, that is, with the collector asleep and no free disk slab left, the collector can wake if and only if
   the collections, the pool and the lost slabs leave a block.
   */
  lemma WakesWhenNeeded(c: Config, s: State)
    requires s.gc.GIdle? && s.nrFreeDslab == 0 && (s.flush.FIdle? || s.flush.FGotM?) && Reachable(c, s)
    ensures (exists s' :: GcWake(c, s, s')) <==> !Asleep(c, s)
  {
    hide Leads, InvSlabs, InvIndex, InvPool, OfFamily, Members;
    LeadsInv(c, Whole, s);
    Space.PoolHas(c, s);
    Space.ConservedBy(c, s);
    NothingInTransit(c, s);
    if s.nrFullDslab > 0 { assert GcWake(c, s, s.(gc := GAwake)); }
  }

  /** Between passes no slab is on the drop list or on the free list of a pass. */
  lemma NothingInTransit(c: Config, s: State)
    requires s.gc.GIdle? && InvSlabs(c, s)
    ensures |Members(s.slabs, ToDrop)| == 0 && |OfFamily(s.slabs, Reclaimed)| == 0
  {
    hide InvIndex, InvPool, SlabsOk, OneOpen, PutOk, FlushOk, CollectOk, WrittenOk, LostOk;
    forall x | 0 <= x < |s.slabs| ensures s.slabs[x].link != ToDrop && !s.slabs[x].link.FreeList? {
      SlabAt(c, s.slabs, s.mem, s.disk, x);
      assert GcHolds(s.gc, x, s.slabs[x].role);
    }
    assert Members(s.slabs, ToDrop) == {};
    assert OfFamily(s.slabs, Reclaimed) == {};
  }

  /** After that a flusher that waits for a free disk slab waits for ever. */
  lemma {:induction false} FlusherStarves(c: Config, states: seq<State>, steps: seq<Step>, n: nat, m: nat)
    requires n <= m < |states| == |steps| + 1 && Asleep(c, states[n])
    requires states[n].nrFreeDslab == 0 && states[n].flush.FGotM?
    requires IsRun(c, states, steps)
    ensures states[m].nrFreeDslab == 0 && states[m].flush == states[n].flush
    decreases m
  {
    hide Next, Bootable, Boot, InvSlabs, InvIndex, InvPool, OfFamily;
    if n < m {
      FlusherStarves(c, states, steps, n, m - 1);
      CollectorStops(c, states, steps, n, m - 1);
      RunInv(c, states, steps, m - 1);
      AsleepStep(c, states[m - 1], steps[m - 1], states[m]);
      RunInv(c, states, steps, m);
      Space.PoolHas(c, states[m]);
    }
  }

  /** After that, whatever Put is doing, no index entry becomes free but by a Delete. */
  lemma {:induction false} NoEntryFreed(c: Config, states: seq<State>, steps: seq<Step>, n: nat, m: nat)
    requires n <= m < |states| == |steps| + 1 && Asleep(c, states[n]) && states[n].nrFreeEntry == 0
    requires forall k :: n <= k < m ==> !steps[k].DeleteS?
    requires IsRun(c, states, steps)
    ensures states[m].nrFreeEntry == 0 && (states[n].put.PWaiting? ==> states[m].put == states[n].put)
    ensures forall s' :: !PutWake(c, states[m], s')
    decreases m
  {
    hide Next, Bootable, Boot, InvSlabs, InvIndex, InvPool, Shaped;
    if n < m {
      NoEntryFreed(c, states, steps, n, m - 1);
      CollectorStops(c, states, steps, n, m - 1);
      RunInv(c, states, steps, m - 1);
      AsleepStep(c, states[m - 1], steps[m - 1], states[m]);
    }
  }
}
