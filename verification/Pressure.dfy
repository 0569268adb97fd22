/** Runs under pressure: no free index entry, passes that use up the pool, and the water marks that steer them. */
module Pressure {
  import opened Types
  import opened Protocol
  import opened Invariant
  import opened Counting
  import opened Frames
  import opened Runs
  import opened Arithmetic
  import opened Progress
  import opened StartUp
  import Space

  // ---------- index exhaustion ----------

  /** Slots of one slab of each of the first `n` classes. */
  function SlotSum(c: Config, n: nat): nat
    requires n <= |c.classes| && c.slabHeader <= c.slabSize && forall i :: 0 <= i < |c.classes| ==> c.classes[i] > 0
  {
    if n == 0 then 0 else SlotSum(c, n - 1) + c.SlotsOf(n - 1)
  }

  lemma {:induction false} SlotSumFits(c: Config, n: nat)
    requires c.Valid() && n <= |c.classes|
    ensures SlotSum(c, n) <= c.MinEntries(n)
  {
    if n > 0 {
      SlotSumFits(c, n - 1);
      DivMono(c.slabSize - c.slabHeader, c.slabSize, c.classes[n - 1]);
    }
  }

  /** Entries that point at a slab still taking slots, of one of the first `n` classes. */
  ghost function OnOpen(s: State, n: nat): set<Tag> {
    set t | t in s.index && s.index[t].sid < |s.slabs| && Taking(s.slabs[s.index[t].sid].role)
            && 0 <= s.slabs[s.index[t].sid].cid < n
  }

  function PutClassBelow(s: State, n: nat): nat {
    One(PutPending(s.put) && s.put.sid < |s.slabs| && 0 <= s.slabs[s.put.sid].cid < n)
  }

  /** What the bound on the open slabs rests on. */
  ghost predicate OpenKnows(c: Config, s: State) {
    && Fits(c, s)
    && SlabsOk(c, s.slabs, s.mem, s.disk) && OneOpen(s.slabs) && PutOk(c, s.slabs, s.mem, s.put)
    && FlushOk(c, s.slabs, s.mem, s.disk, s.flush)
    && IndexOk(c, s.slabs, s.mem, s.disk, s.index, s.latest, s.put) && CountsOk(s.slabs, s.index, s.put)
  }

  /** The one open slab of class `n - 1` covers the entries that the class adds. */
  lemma OpenAdds(s: State, n: nat, x: nat)
    requires n > 0 && x < |s.slabs| && OneOpen(s.slabs) && Taking(s.slabs[x].role) && s.slabs[x].cid == n - 1
    ensures OnOpen(s, n) <= OnOpen(s, n - 1) + Live(s.index, x)
    ensures PutPending(s.put) && s.put.sid < |s.slabs| && Taking(s.slabs[s.put.sid].role) ==>
              PutClassBelow(s, n) == PutClassBelow(s, n - 1) + Pending(s.put, x)
  {
  }

  lemma OpenSlots(c: Config, s: State, x: nat)
    requires x < |s.slabs| && Taking(s.slabs[x].role) && OpenKnows(c, s)
    ensures 0 <= s.slabs[x].cid < |c.classes| && |Live(s.index, x)| + Pending(s.put, x) <= c.SlotsOf(s.slabs[x].cid)
    ensures PutPending(s.put) ==> s.put.sid < |s.slabs| && Taking(s.slabs[s.put.sid].role)
  {
    hide FlushOk, IndexOk, SlabsOk, OneOpen;
    SlabAt(c, s.slabs, s.mem, s.disk, x);
  }

  /** Class `n - 1` adds at most the slots of its one open slab, and the slot of the current Put is not indexed. */
  lemma OpenOfClass(c: Config, s: State, n: nat)
    requires 0 < n <= |c.classes| && c.Valid() && OneOpen(s.slabs)
    requires OpenKnows(c, s)
    ensures |OnOpen(s, n)| + PutClassBelow(s, n) <=
            |OnOpen(s, n - 1)| + PutClassBelow(s, n - 1) + c.SlotsOf(n - 1)
  {
    hide OpenKnows, OneOpen, OnOpen, Live;
    if x: nat :| x < |s.slabs| && Taking(s.slabs[x].role) && s.slabs[x].cid == n - 1 {
      OpenAdds(s, n, x);
      OpenSlots(c, s, x);
      SubsetSize(OnOpen(s, n), OnOpen(s, n - 1) + Live(s.index, x));
      UnionBound(OnOpen(s, n - 1), Live(s.index, x));
    } else {
      NoOpenOfClass(c, s, n);
    }
  }

  lemma UnionBound<T>(a: set<T>, b: set<T>)
    ensures |a + b| <= |a| + |b|
  {
  }

  lemma NoOpenOfClass(c: Config, s: State, n: nat)
    requires n > 0 && OpenKnows(c, s)
    requires forall x: nat :: x < |s.slabs| && Taking(s.slabs[x].role) ==> s.slabs[x].cid != n - 1
    ensures OnOpen(s, n) == OnOpen(s, n - 1) && PutClassBelow(s, n) == PutClassBelow(s, n - 1)
  {
    hide SlabsOk, OneOpen, FlushOk, IndexOk, CountsOk;
  }

  lemma {:induction false} OpenBound(c: Config, s: State, n: nat)
    requires n <= |c.classes| && c.Valid()
    requires OpenKnows(c, s)
    ensures |OnOpen(s, n)| + PutClassBelow(s, n) <= SlotSum(c, n)
  {
    hide IndexOk, CountsOk, SlabsOk, OneOpen, PutOk, FlushOk;
    if n == 0 {
      assert OnOpen(s, 0) == {};
    } else {
      OpenBound(c, s, n - 1);
      assert OneOpen(s.slabs);
      OpenOfClass(c, s, n);
    }
  }

  lemma PutHasClass(c: Config, s: State)
    requires c.Valid() && OpenKnows(c, s) && PutPending(s.put)
    ensures PutClassBelow(s, |c.classes|) == 1
  {
    hide FlushOk, IndexOk, CountsOk, OneOpen, SlabsOk;
    SlabAt(c, s.slabs, s.mem, s.disk, s.put.sid);
  }

  lemma OpenHasClass(c: Config, s: State, t: Tag)
    requires c.Valid() && t in s.index && OpenKnows(c, s)
    ensures s.index[t].sid < |s.slabs|
    ensures Taking(s.slabs[s.index[t].sid].role) ==> t in OnOpen(s, |c.classes|)
  {
    hide FlushOk, CountsOk, OneOpen, PutOk, SlabsOk, IndexOk;
    EntryAt(c, s, t);
    SlabAt(c, s.slabs, s.mem, s.disk, s.index[t].sid);
  }

  /** The entry's slab is past taking slots: published full, being flushed, being compacted, or on disk. */
  ghost predicate Reclaimable(c: Config, s: State, t: Tag) {
    && t in s.index && s.index[t].sid < |s.slabs|
    && var x := s.index[t].sid;
       || s.slabs[x].link.MslabFull? || Space.FlushHasMem(s.flush, x) || c.IsDisk(x) || x + 1 == c.nrMslab
  }

  lemma NotOpenIsReclaimable(c: Config, s: State, t: Tag)
    requires c.Valid() && t in s.index && s.index[t].sid < |s.slabs| && OpenKnows(c, s)
    requires !Taking(s.slabs[s.index[t].sid].role)
    ensures Reclaimable(c, s, t)
  {
    hide CountsOk, OneOpen, PutOk, SlabsOk, IndexOk;
    EntryAt(c, s, t);
    var x := s.index[t].sid;
    SlabAt(c, s.slabs, s.mem, s.disk, x);
    assert FlushHolds(s.flush, x, s.slabs[x].role);
  }

  /**
   When Put finds no free entry, some entry names a slab that takes no more slots: the start-up check leaves more
   entries than all open slabs together can use. Whether the entry can be freed is another question (see `Recovery`).
   */
  lemma ExhaustionLeavesEntry(c: Config, s: State)
    requires PutPending(s.put) && s.nrFreeEntry == 0 && Reachable(c, s)
    ensures exists t :: Reclaimable(c, s, t)
  {
    hide Leads, InvSlabs, InvIndex, InvPool, Reclaimable;
    LeadsInv(c, Whole, s);
    var t := EntryPastOpen(c, s);
    assert Reclaimable(c, s, t);
  }

  lemma EntryPastOpen(c: Config, s: State) returns (t: Tag)
    requires PutPending(s.put) && s.nrFreeEntry == 0 && Inv(c, s)
    ensures Reclaimable(c, s, t)
  {
    hide IndexOk, CountsOk, MoveOk, InvPool, SlabsOk, OneOpen, PutOk, FlushOk, InvGc, Reclaimable, OnOpen;
    var all := |c.classes|;
    if forall t :: t in s.index ==> t in OnOpen(s, all) {
      OpenBound(c, s, all);
      PutHasClass(c, s);
      SlotSumFits(c, all);
      SubsetSize(Tags(s.index), OnOpen(s, all));
      assert false;
    } else {
      t :| t in s.index && t !in OnOpen(s, all);
      OpenHasClass(c, s, t);
      NotOpenIsReclaimable(c, s, t);
    }
  }

  // ---------- a normal pass restores the pool ----------

  /** `old_ops_size` of the pass. */
  function OldOps(g: GcPc): int
    requires NormalPass(g)
  {
    if g.GRefill? || g.GTrim? || g.GReturnAll? then g.oldOps else g.pass.oldOps
  }

  lemma PassContinues(c: Config, s: State, l: Step, s': State)
    requires NormalPass(s.gc) && Next(c, s, l, s') && !l.GcNormalDoneS?
    ensures NormalPass(s'.gc) && OldOps(s'.gc) == OldOps(s.gc)
  {
    hide Members, OfFamily, SeenSum, RedirectIndex, Redirected;
    if PutNext(c, s, l, s') { PutLeaves(c, s, l, s'); }
    else if FlushNext(c, s, l, s') { FlushLeaves(c, s, l, s'); }
    else if QuickNext(c, s, l, s') { QuickLeaves(c, s, l, s'); }
    else { PassNormal(c, s, l, s'); }
  }

  lemma PassNormal(c: Config, s: State, l: Step, s': State)
    requires NormalPass(s.gc) && NormalNext(c, s, l, s') && !l.GcNormalDoneS?
    ensures NormalPass(s'.gc) && OldOps(s'.gc) == OldOps(s.gc)
  {
    hide Members, OfFamily, SeenSum, RedirectIndex, Redirected, Shaped;
  }

  lemma ScanStarts(c: Config, s: State, l: Step, s': State)
    requires Next(c, s, l, s') && l.GcScanS?
    ensures s'.gc.GPack? && OldOps(s'.gc) == s.opsSize
  {
  }

  lemma {:induction false} PassKeepsOldOps(c: Config, states: seq<State>, steps: seq<Step>, i: nat, m: nat)
    requires i < m < |states| == |steps| + 1 && steps[i].GcScanS?
    requires forall k :: i < k < m ==> !steps[k].GcNormalDoneS?
    requires IsRun(c, states, steps)
    ensures NormalPass(states[m].gc) && OldOps(states[m].gc) == states[i].opsSize
    decreases m
  {
    hide Bootable, Boot, Next;
    if m == i + 1 {
      ScanStarts(c, states[i], steps[i], states[m]);
    } else {
      PassKeepsOldOps(c, states, steps, i, m - 1);
      PassContinues(c, states[m - 1], steps[m - 1], states[m]);
    }
  }

  /** A normal pass that starts at step `i` and ends at step `j` leaves the pool as large as before, or one smaller. */
  lemma PassRestoresPool(c: Config, states: seq<State>, steps: seq<Step>, i: nat, j: nat)
    requires i < j < |steps| && |states| == |steps| + 1 && steps[i].GcScanS? && steps[j].GcNormalDoneS?
    requires forall k :: i < k < j ==> !steps[k].GcNormalDoneS?
    requires IsRun(c, states, steps)
    ensures states[j + 1].opsSize == states[i].opsSize || states[j + 1].opsSize == states[i].opsSize - 1
    ensures 0 < states[j + 1].opsSize <= c.maxOps
  {
    hide InvSlabs, InvIndex, InvPool, OfFamily, Members, Bootable, Boot;
    PassKeepsOldOps(c, states, steps, i, j);
    DoneFacts(c, states[j], steps[j], states[j + 1]);
    RunInv(c, states, steps, j);
    Space.PoolHas(c, states[j]);
    RunInv(c, states, steps, j + 1);
    Space.PoolHas(c, states[j + 1]);
  }

  lemma DoneFacts(c: Config, s: State, l: Step, s': State)
    requires Next(c, s, l, s') && l.GcNormalDoneS?
    ensures s.gc.GReturnAll? && s'.gc.GIdle? && s'.opsSize == s.opsSize
  {
    hide Members, OfFamily;
  }

  // ---------- what the end of a normal pass aims at ----------

  /** The pool comes down to `goal`, unless some channel has no spare slab. */
  ghost predicate Aims(c: Config, s: State, goal: int) {
    match s.gc
    case GRefill(oldOps, target) => Min(target, oldOps) == goal
    case GTrim(_, left) => s.opsSize - Max(left, 0) == goal || !Stocked(c, s.slabs)
    case GReturnAll(_) => s.opsSize == goal || !Stocked(c, s.slabs)
    case _ => false
  }

  /** A channel that had no spare slab gets none. */
  lemma StaysShort(c: Config, slabs: seq<Slab>, slabs': seq<Slab>)
    requires |slabs'| == |slabs| && !Stocked(c, slabs)
    requires forall x :: 0 <= x < |slabs| && slabs'[x].link.OpsPool? ==> slabs'[x].link == slabs[x].link
    ensures !Stocked(c, slabs')
  {
    var ch :| 0 <= ch < c.nrChannels && Members(slabs, OpsPool(ch)) == {};
    forall x ensures x !in Members(slabs', OpsPool(ch)) { assert x !in Members(slabs, OpsPool(ch)); }
    assert Members(slabs', OpsPool(ch)) == {};
  }

  lemma EndAims(c: Config, s: State, l: Step, s': State, goal: int)
    requires Aims(c, s, goal) && NormalNext(c, s, l, s') && !l.GcNormalDoneS?
    requires s.gc.GRefill? ==> s.opsSize <= s.gc.oldOps
    ensures Aims(c, s', goal)
  {
    hide Stocked, OfFamily, Bump, SeenSum, AfterScan, AfterTake, AfterLinkOps, AfterUnlink, AfterInit, AfterLoad,
         AfterMoveSlot, AfterMoveDone, AfterGcWrite, AfterGcRedirect, AfterTune, CheckOpsPool;
    if s.gc.GTrim? || s.gc.GReturnAll? {
      assert forall x :: 0 <= x < |s.slabs| && s'.slabs[x].link.OpsPool? ==> s'.slabs[x].link == s.slabs[x].link;
      if !Stocked(c, s.slabs) { StaysShort(c, s.slabs, s'.slabs); }
    }
  }

  lemma AimsStep(c: Config, s: State, l: Step, s': State, goal: int)
    requires Aims(c, s, goal) && Inv(c, s) && Next(c, s, l, s') && !l.GcNormalDoneS?
    ensures Aims(c, s', goal)
  {
    hide SlabsOk, OneOpen, PutOk, FlushOk, InvGc, InvIndex, SizesOk, PutNext, FlushNext, QuickNext, NormalNext, Stocked,
         Shaped;
    if NormalNext(c, s, l, s') {
      EndAims(c, s, l, s', goal);
    } else if QuickNext(c, s, l, s') {
      QuickLeaves(c, s, l, s');
      assert false;
    } else {
      if PutNext(c, s, l, s') {
        PutStaysOff(c, s, l, s');
        PutLeaves(c, s, l, s');
      } else {
        FlushStaysOff(c, s, l, s');
        FlushLeaves(c, s, l, s');
      }
      if !Stocked(c, s.slabs) { StaysShort(c, s.slabs, s'.slabs); }
    }
  }

  /**
   When tuning starts, after the last class or with the pool used up and more to collect, and what it asks for. With
   more free disk slabs than the high mark: the low mark goes down by ten, but not below its minimum, the high mark by
   ten, but not below 1.1 times the new low mark, and the pool by one, if that leaves ten. Otherwise nothing changes.
   */
  lemma TuneAsks(c: Config, s: State, s': State)
    requires GcTune(c, s, s')
    ensures s.gc.GPack? && (s.gc.pass.cid >= |c.classes| || (s.opsSize <= 0 && |s.gc.picks| >= 2))
    ensures s'.gc.GRefill? && s'.gc.oldOps == OldOps(s.gc)
    ensures s.nrFreeDslab <= s.high ==> s'.low == s.low && s'.high == s.high && s'.gc.target == OldOps(s.gc)
    ensures s.nrFreeDslab > s.high ==>
              && c.lowMin <= s'.low && s.low <= s'.low + 10 && (s'.low == c.lowMin || s'.low + 10 == s.low)
              && 11 * s'.low < 10 * s'.high + 10 && s.high <= s'.high + 10
              && (10 * s'.high <= 11 * s'.low || s'.high + 10 == s.high)
              && s'.gc.target == if OldOps(s.gc) > 10 then OldOps(s.gc) - 1 else 10
  {
    hide OfFamily;
  }

  lemma {:induction false} AimsAlong(c: Config, states: seq<State>, steps: seq<Step>, t: nat, m: nat, goal: int)
    requires t < m < |states| == |steps| + 1 && Aims(c, states[t + 1], goal)
    requires forall k :: t < k < m ==> !steps[k].GcNormalDoneS?
    requires IsRun(c, states, steps)
    ensures Aims(c, states[m], goal)
    decreases m
  {
    hide Next, Bootable, Inv, Aims;
    if m > t + 1 {
      AimsAlong(c, states, steps, t, m - 1, goal);
      RunInv(c, states, steps, m - 1);
      AimsStep(c, states[m - 1], steps[m - 1], states[m], goal);
    }
  }

  /**
   A normal pass from step `i` to step `j`, tuned at step `t`, that ends with a spare slab on every channel has shrunk
   the pool exactly as asked: by one if more disk slabs were free than the high mark and the pool had more than ten
   slabs, and not at all otherwise.
   */
  lemma PassShrinks(c: Config, states: seq<State>, steps: seq<Step>, i: nat, t: nat, j: nat)
    requires i < t < j < |steps| && |states| == |steps| + 1
    requires steps[i].GcScanS? && steps[t].GcTuneS? && steps[j].GcNormalDoneS?
    requires forall k :: i < k < j ==> !steps[k].GcNormalDoneS?
    requires IsRun(c, states, steps) && Stocked(c, states[j].slabs)
    ensures states[j + 1].opsSize == states[i].opsSize -
                                     One(states[t].nrFreeDslab > states[t].high && states[i].opsSize > 10)
  {
    hide Inv, Bootable, Boot, Stocked, Next;
    PassKeepsOldOps(c, states, steps, i, t);
    TuneFacts(c, states[t], steps[t], states[t + 1]);
    var goal := states[i].opsSize - One(states[t].nrFreeDslab > states[t].high && states[i].opsSize > 10);
    AimsAlong(c, states, steps, t, j, goal);
    DoneFacts(c, states[j], steps[j], states[j + 1]);
  }

  lemma TuneFacts(c: Config, s: State, l: Step, s': State)
    requires Next(c, s, l, s') && l.GcTuneS?
    ensures s.gc.GPack? && GcTune(c, s, s')
  {
    hide OfFamily;
  }

  // ---------- which pass the collector makes ----------

  lemma {:induction false} SeenIsRead(c: Config, states: seq<State>, steps: seq<Step>, i: nat, j: nat)
    requires i < j < |states| == |steps| + 1 && steps[i].GcReadS? && forall k :: i < k < j ==> !IsGc(steps[k])
    requires IsRun(c, states, steps)
    ensures states[j].gc == GSeen(states[i].nrFreeDslab) && states[j].low == states[i].low
    decreases j
  {
    hide Next, Bootable, Boot;
    if j == i + 1 {
      ReadFacts(c, states[i], steps[i], states[j]);
    } else {
      SeenIsRead(c, states, steps, i, j - 1);
      OthersLeaveGc(c, states[j - 1], steps[j - 1], states[j]);
    }
  }

  lemma ReadFacts(c: Config, s: State, l: Step, s': State)
    requires Next(c, s, l, s') && l.GcReadS?
    ensures s'.gc == GSeen(s.nrFreeDslab) && s'.low == s.low
  {
  }

  lemma OthersLeaveGc(c: Config, s: State, l: Step, s': State)
    requires Next(c, s, l, s') && !IsGc(l)
    ensures s'.gc == s.gc && s'.low == s.low
  {
    hide PutNext, FlushNext;
    if PutNext(c, s, l, s') { PutLeaves(c, s, l, s'); }
    else if FlushNext(c, s, l, s') { FlushLeaves(c, s, l, s'); }
  }

  /**
   Awake, the collector reads the number of free disk slabs at step `i`, and chooses at step `j`, with any steps of
   other threads in between: without a free index entry it drops one slab, else it computes a quick pass if it read
   fewer free slabs than the low mark, and else makes a normal pass.
   */
  lemma ModeExactlyWhen(c: Config, states: seq<State>, steps: seq<Step>, i: nat, j: nat)
    requires i < j < |steps| && |states| == |steps| + 1 && steps[i].GcReadS? && IsGc(steps[j])
    requires forall k :: i < k < j ==> !IsGc(steps[k])
    requires IsRun(c, states, steps)
    ensures steps[j].GcDropOneS? <==> states[j].nrFreeEntry == 0
    ensures steps[j].GcChooseQuickS? <==> states[j].nrFreeEntry != 0 && states[i].nrFreeDslab < states[i].low
    ensures steps[j].GcChooseNormalS? <==> states[j].nrFreeEntry != 0 && states[i].nrFreeDslab >= states[i].low
  {
    hide Next, Bootable, Boot;
    SeenIsRead(c, states, steps, i, j);
    Chooses(c, states[j], steps[j], states[j + 1]);
  }

  lemma QuickChooses(c: Config, s: State, l: Step, s': State)
    requires QuickNext(c, s, l, s') && s.gc.GSeen?
    ensures if s.nrFreeEntry == 0 then l.GcDropOneS? else l.GcChooseQuickS? && s.gc.free < s.low
  {
    hide CheckOpsPool, OpsInBounds, Members, Shaped, AfterDropOne, AfterPlan, AfterSelect, AfterEvict, AfterReturnOps,
         AfterLose, AfterReturnFree;
  }

  lemma NormalChooses(c: Config, s: State, l: Step, s': State)
    requires NormalNext(c, s, l, s') && s.gc.GSeen?
    ensures l.GcChooseNormalS? && s.nrFreeEntry != 0 && s.gc.free >= s.low
  {
    hide CheckOpsPool, Members, OfFamily, Shaped, SeenSum, AfterScan, AfterTake, AfterLinkOps, AfterUnlink, AfterInit,
         AfterLoad, AfterMoveSlot, AfterMoveDone, AfterGcWrite, AfterGcRedirect, AfterTune, AfterRefill, AfterTrim,
         AfterReturnAll;
  }

  lemma Chooses(c: Config, s: State, l: Step, s': State)
    requires Next(c, s, l, s') && IsGc(l) && s.gc.GSeen?
    ensures l.GcDropOneS? <==> s.nrFreeEntry == 0
    ensures l.GcChooseQuickS? <==> s.nrFreeEntry != 0 && s.gc.free < s.low
    ensures l.GcChooseNormalS? <==> s.nrFreeEntry != 0 && s.gc.free >= s.low
  {
    hide PutNext, FlushNext, QuickNext, NormalNext;
    if PutNext(c, s, l, s') { PutLeaves(c, s, l, s'); }
    else if FlushNext(c, s, l, s') { FlushLeaves(c, s, l, s'); }
    else if QuickNext(c, s, l, s') { QuickChooses(c, s, l, s'); }
    else { NormalChooses(c, s, l, s'); }
  }

  // ---------- water marks ----------

  predicate MarksOk(c: Config, low: nat, high: nat) { low <= high <= c.highMax && 11 * low / 10 <= c.highMax }

  lemma QuickMarks(c: Config, low: nat, high: nat)
    requires MarksOk(c, low, high)
    ensures MarksOk(c, QuickLow(c, low, QuickHigh(c, high)), QuickHigh(c, high))
  {
  }

  lemma MarksStep(c: Config, s: State, l: Step, s': State)
    requires MarksOk(c, s.low, s.high) && 11 * c.lowMin / 10 <= c.highMax && Next(c, s, l, s')
    ensures MarksOk(c, s'.low, s'.high)
  {
    hide Members, OfFamily, SeenSum, RedirectIndex, Redirected, MarksOk, QuickLow, QuickHigh, StoredTags;
    if l.GcPlanS? && QuickNext(c, s, l, s') {
      QuickMarks(c, s.low, s.high);
    } else if l.GcTuneS? && NormalNext(c, s, l, s') {
      TuneMarks(c, s, s');
    } else {
      MarksKept(c, s, l, s');
    }
  }

  lemma MarksKept(c: Config, s: State, l: Step, s': State)
    requires !l.GcPlanS? && !l.GcTuneS? && Next(c, s, l, s')
    ensures s'.low == s.low && s'.high == s.high
  {
    hide PutNext, FlushNext, QuickNext, NormalNext;
    if PutNext(c, s, l, s') { PutLeaves(c, s, l, s'); }
    else if FlushNext(c, s, l, s') { FlushLeaves(c, s, l, s'); }
    else if QuickNext(c, s, l, s') { QuickLeaves(c, s, l, s'); }
    else { NormalLeaves(c, s, l, s'); }
  }

  lemma TuneMarks(c: Config, s: State, s': State)
    requires MarksOk(c, s.low, s.high) && 11 * c.lowMin / 10 <= c.highMax && GcTune(c, s, s')
    ensures MarksOk(c, s'.low, s'.high)
  {
    hide OfFamily;
  }

  /** Ordered water marks stay ordered through any mix of quick and normal passes. */
  lemma {:induction false} MarksOrdered(c: Config, states: seq<State>, steps: seq<Step>, n: nat)
    requires n < |states| && MarksOk(c, c.low, c.high) && 11 * c.lowMin / 10 <= c.highMax
    requires IsRun(c, states, steps)
    ensures states[n].low <= states[n].high <= c.highMax && MarksOk(c, states[n].low, states[n].high)
  {
    hide Next, Bootable;
    if n > 0 {
      MarksOrdered(c, states, steps, n - 1);
      MarksStep(c, states[n - 1], steps[n - 1], states[n]);
    }
  }

  /** With the default rates the marks start ordered exactly when the SSD has at least two blocks. */
  lemma DefaultMarksOrdered(c: Config, n: nat)
    requires c.highMax == StartHighMax(n) && c.lowMin == StartLowMin(n)
    ensures MarksOk(c, StartLow(n), StartHigh(n)) && 11 * c.lowMin / 10 <= c.highMax <==> n >= 2
  {
  }
}
