/**
 How many users each slab counts. `nr_used` is the number of live entries, with the slot that Put is filling, and beyond
 that only what was deleted behind its back: by a Delete whose decrement is not compiled in, or by the eviction of
 another slab.
 */
module Usage {
  import opened Types
  import opened Protocol
  import opened Invariant
  import opened Counting
  import opened Frames
  import opened Runs
  import FlushSteps
  import NormalGcSteps

  /** What slab `x` counts beyond its live entries and the slot that Put is filling. */
  function Slack(s: State, x: nat): int
    requires x < |s.slabs|
  { s.slabs[x].nrUsed - |Live(s.index, x)| - Pending(s.put, x) }

  /** Copied but not yet in the index, or being emptied: the count is on its way to another slab. */
  predicate Unsettled(s: State, x: nat) {
    || (s.flush.FWritten? && s.flush.d == x)
    || (s.gc.GWritten? && s.gc.ops == x)
    || (s.gc.GMove? && s.gc.j < |s.gc.picks| && s.gc.picks[s.gc.j].sid == x)
  }

  /** The entries of slab `x` that the step deletes without counting. */
  function Uncounted(s: State, l: Step, s': State, x: nat): set<Tag> {
    if l.GcEvictS? || (l.DeleteS? && !l.counted) then Live(s.index, x) - Live(s'.index, x) else {}
  }

  /** Slab `x` after the step: exact, or off by what it was off before and what the step did not count. */
  predicate Accounts(s: State, l: Step, s': State, x: nat) {
    x < |s.slabs| && x < |s'.slabs| && !Unsettled(s', x) ==>
      || Slack(s', x) == 0
      || (!Unsettled(s, x) && Slack(s', x) == Slack(s, x) + |Uncounted(s, l, s', x)|)
  }

  predicate SameUse(s: State, s': State, x: nat) {
    x < |s.slabs| && x < |s'.slabs| ==>
      && s'.slabs[x].nrUsed == s.slabs[x].nrUsed && Live(s'.index, x) == Live(s.index, x)
      && Pending(s'.put, x) == Pending(s.put, x)
  }

  lemma SameAccounts(s: State, l: Step, s': State, x: nat)
    requires SameUse(s, s', x) && (Unsettled(s, x) ==> Unsettled(s', x))
    ensures Accounts(s, l, s', x)
  {
    hide Live;
    if x < |s.slabs| && x < |s'.slabs| { assert Uncounted(s, l, s', x) == {}; }
  }

  lemma AllocAccounts(c: Config, s: State, l: Step, s': State, x: nat)
    requires PutNext(c, s, l, s') && l.PutAllocS?
    ensures Accounts(s, l, s', x)
  {
    hide Members, Bump, AppendRec, Live, PutBegin, PutOpen, PutAbort, PutWrite, PutHit, PutMiss, PutWake, PutBlock,
         PutDone, Delete, Shaped;
  }

  lemma SlabSame(c: Config, s: State, l: Step, s': State, x: nat)
    requires PutNext(c, s, l, s') && (l.PutOpenS? || l.PutDoneS?)
    ensures SameUse(s, s', x)
  {
    hide Members, Bump, Live, PutBegin, PutAlloc, PutAbort, PutWrite, PutHit, PutMiss, PutWake, PutBlock, Delete;
  }

  lemma UnsettledSame(s: State, s': State, x: nat)
    requires s'.flush == s.flush && s'.gc == s.gc
    ensures Unsettled(s, x) == Unsettled(s', x)
  {
  }

  lemma SlotAccounts(c: Config, s: State, l: Step, s': State, x: nat)
    requires PutNext(c, s, l, s') && !IsPublish(l) && !l.DeleteS? && !l.PutAllocS?
    ensures Accounts(s, l, s', x)
  {
    hide Members, Bump, WriteRec, ClassFor, Live, PutOpen, PutDone, PutAlloc, Shaped, PutHit, PutMiss, PutWake, Delete,
         Accounts, Unsettled;
    PutLeaves(c, s, l, s');
    if l.PutOpenS? || l.PutDoneS? { SlabSame(c, s, l, s', x); }
    assert SameUse(s, s', x);
    assert Unsettled(s, x) == Unsettled(s', x) by { UnsettledSame(s, s', x); }
    SameAccounts(s, l, s', x);
  }

  lemma PublishAccounts(c: Config, s: State, l: Step, s': State, x: nat)
    requires PutNext(c, s, l, s') && IsPublish(l) && WaitOk(c, s.index, s.put)
    ensures Accounts(s, l, s', x)
  {
    hide Live, Shaped, PutBegin, PutOpen, PutAlloc, PutAbort, PutWrite, PutBlock, PutDone, Delete;
    LiveAfterSet(s.index, c.TagOf(s.put.k), Loc(s.put.sid, s.put.slot));
  }

  lemma DeleteAccounts(c: Config, s: State, k: Key, counted: bool, s': State, x: nat)
    requires Fits(c, s) && Delete(c, s, s', k, counted)
    ensures Accounts(s, DeleteS(k, counted), s', x)
  {
    var t := c.TagOf(k);
    if t in s.index {
      LiveAfterDropOne(s.index, t);
      assert Live(s'.index, x) <= Live(s.index, x);
      SubsetGone(Live(s.index, x), Live(s'.index, x));
    } else {
      SameAccounts(s, DeleteS(k, counted), s', x);
    }
  }

  lemma SubsetGone(a: set<Tag>, b: set<Tag>)
    requires b <= a
    ensures |a - b| == |a| - |b|
  {
  }

  // ---------- the flusher ----------

  /** A redirect hands the entries of one slab to another and makes both counts exact. */
  lemma RedirectAccounts(c: Config, s: State, l: Step, s': State, m: nat, d: nat, x: nat)
    requires Redirects(c, s, s', m, d) && CountsOk(s'.slabs, s'.index, s'.put)
    requires x != d && Unsettled(s, x) ==> Unsettled(s', x)
    ensures Accounts(s, l, s', x)
  {
    hide RedirectIndex, Live, Unsettled, Copied, CountsOk, Accounts;
    LiveAfterRedirect(s.index, Live(s.index, m), m, d);
    if x == m {
      ResetAccounts(s, l, s', x);
    } else if x == d {
      ExactAccounts(s, l, s', x);
    } else {
      SameAccounts(s, l, s', x);
    }
  }

  lemma ExactAccounts(s: State, l: Step, s': State, x: nat)
    requires x < |s'.slabs| ==> s'.slabs[x].nrUsed == |Live(s'.index, x)| + Pending(s'.put, x)
    ensures Accounts(s, l, s', x)
  {
  }

  lemma FlushSame(c: Config, s: State, l: Step, s': State, x: nat)
    requires FlushNext(c, s, l, s') && !l.FlushRedirectS?
    ensures s'.gc == s.gc && s'.index == s.index && s'.put == s.put
    ensures var frees := l.FlushFreeS? && s.flush.FMoved? && x == s.flush.m;
            var writes := l.FlushWriteS? && s.flush.FGotD? && x == s.flush.d;
            if frees then x < |s'.slabs| ==> s'.slabs[x].nrUsed == 0
            else if writes then Unsettled(s', x)
            else SameUse(s, s', x) && (Unsettled(s, x) ==> Unsettled(s', x))
  {
    hide Bump, Live, FlushRedirect;
  }

  lemma FlushAccounts(c: Config, s: State, l: Step, s': State, x: nat)
    requires FlushNext(c, s, l, s') && InvSlabs(c, s) && CountsOk(s'.slabs, s'.index, s'.put)
    requires IndexOk(c, s.slabs, s.mem, s.disk, s.index, s.latest, s.put)
    ensures Accounts(s, l, s', x)
  {
    hide InvSlabs, IndexOk, CountsOk, Redirected, RedirectIndex, FlushTake, FlushTarget, FlushWrite, FlushFree,
         FlushStore, Redirects, SameUse, Live;
    if l.FlushRedirectS? {
      FlushSteps.RedirectFacts(c, s, s');
      FlushLeaves(c, s, l, s');
      RedirectAccounts(c, s, l, s', s.flush.m, s.flush.d, x);
    } else {
      hide FlushRedirect, Accounts, Unsettled;
      FlushSame(c, s, l, s', x);
      if l.FlushFreeS? && s.flush.FMoved? && x == s.flush.m { ResetAccounts(s, l, s', x); }
      else if l.FlushWriteS? && s.flush.FGotD? && x == s.flush.d { OnItsWay(s, l, s', x); }
      else { SameAccounts(s, l, s', x); }
    }
  }

  lemma OnItsWay(s: State, l: Step, s': State, x: nat)
    requires Unsettled(s', x)
    ensures Accounts(s, l, s', x)
  {
  }

  lemma ResetAccounts(s: State, l: Step, s': State, x: nat)
    requires x < |s'.slabs| ==> s'.slabs[x].nrUsed == 0
    requires CountsOk(s'.slabs, s'.index, s'.put)
    ensures Accounts(s, l, s', x)
  {
  }

  // ---------- the collector ----------

  /** Evicting a slab takes entries away from others, too, which keep counting them. */
  lemma EvictAccounts(c: Config, s: State, s': State, y: nat, x: nat)
    requires GcEvict(c, s, s', y) && CountsOk(s'.slabs, s'.index, s'.put)
    ensures Accounts(s, GcEvictS(y), s', x)
  {
    hide StoredTags, CountsOk, Live;
    if x == y {
      ResetAccounts(s, GcEvictS(y), s', x);
    } else {
      LiveAfterDrop(s.index, StoredTags(c, s.slabs[y].nrAlloc, s.disk[c.BlockOf(y)].recs));
      SubsetGone(Live(s.index, x), Live(s'.index, x));
    }
  }

  lemma QuickAccounts(c: Config, s: State, l: Step, s': State, x: nat)
    requires QuickNext(c, s, l, s') && CountsOk(s'.slabs, s'.index, s'.put)
    ensures Accounts(s, l, s', x)
  {
    hide CountsOk, Live, Bump, StoredTags, Accounts, CheckOpsPool, QuickLow, QuickHigh, BackToFree, BackToOps;
    if l.GcEvictS? {
      EvictAccounts(c, s, s', l.x, x);
    } else if (l.GcReturnOpsS? || l.GcLoseS? || l.GcReturnFreeS?) && x == l.x {
      ResetAccounts(s, l, s', x);
    } else {
      hide GcEvict;
      SameAccounts(s, l, s', x);
    }
  }

  /** A live slot that moves takes its user along; the source is told at its end. */
  lemma MoveAccounts(c: Config, s: State, s': State, x: nat)
    requires GcMoveSlot(c, s, s')
    ensures Accounts(s, GcMoveSlotS, s', x)
  {
    hide Live, AppendRec;
    var y := s.gc.picks[s.gc.j].sid;
    var t := c.TagOf(s.disk[c.BlockOf(y)].recs[s.gc.i].key);
    if t in s.index && s.index[t] == Loc(y, s.gc.i) {
      LiveAfterSet(s.index, t, Loc(c.Buffer(), s.slabs[c.Buffer()].nrAlloc));
    }
  }

  /** The slab whose count the step sets to zero. */
  predicate Resets(c: Config, s: State, l: Step, x: nat) {
    || (l.GcLinkOpsS? && s.gc.GTook? && x == s.gc.ops)
    || (l.GcInitS? && x + 1 == c.nrMslab)
    || (l.GcMoveDoneS? && s.gc.GMove? && s.gc.j < |s.gc.picks| && x == s.gc.picks[s.gc.j].sid)
    || ((l.GcRefillS? || l.GcTrimS? || l.GcReturnAllS?) && x == l.x)
  }

  lemma CollectSame(c: Config, s: State, l: Step, s': State, x: nat)
    requires NormalNext(c, s, l, s') && (IsChoosing(l) || IsCollecting(l)) && !l.GcRedirectS?
    ensures if Resets(c, s, l, x) then x < |s'.slabs| ==> s'.slabs[x].nrUsed == 0
            else if l.GcWriteS? && s.gc.GLoad? && x == s.gc.ops then Unsettled(s', x)
            else SameUse(s, s', x) && (Unsettled(s, x) ==> Unsettled(s', x))
  {
    hide Live, OfFamily, Bump, SeenSum, GcRedirect, GcMoveSlot, GcMoveDone, GcRefill, GcTrim, GcReturnAll, GcNormalDone;
  }

  lemma EndSame(c: Config, s: State, l: Step, s': State, x: nat)
    requires NormalNext(c, s, l, s') && !IsChoosing(l) && !IsCollecting(l) && !l.GcMoveSlotS?
    ensures if Resets(c, s, l, x) then x < |s'.slabs| ==> s'.slabs[x].nrUsed == 0
            else SameUse(s, s', x) && (Unsettled(s, x) ==> Unsettled(s', x))
  {
    hide Live, OfFamily, Bump, CheckOpsPool, GcScan, GcPick, GcTake, GcLinkOps, GcUnlink, GcInit, GcLoad, GcMoveSlot,
         GcWrite, GcRedirect, GcTune;
  }

  lemma NormalAccounts(c: Config, s: State, l: Step, s': State, x: nat)
    requires NormalNext(c, s, l, s') && InvSlabs(c, s) && CountsOk(s'.slabs, s'.index, s'.put)
    requires IndexOk(c, s.slabs, s.mem, s.disk, s.index, s.latest, s.put)
    ensures Accounts(s, l, s', x)
  {
    hide InvSlabs, IndexOk, CountsOk, Accounts, Live, Resets, SameUse, Unsettled, Redirects, RedirectIndex, GcScan,
         GcPick, GcTake, GcLinkOps, GcUnlink, GcInit, GcLoad, GcMoveSlot, GcMoveDone, GcWrite, GcRedirect, GcTune,
         GcRefill, GcTrim, GcReturnAll, GcNormalDone;
    if l.GcMoveSlotS? {
      MoveAccounts(c, s, s', x);
    } else if l.GcRedirectS? {
      GcRedirectAccounts(c, s, s', x);
    } else {
      if IsChoosing(l) || IsCollecting(l) { CollectSame(c, s, l, s', x); } else { EndSame(c, s, l, s', x); }
      if Resets(c, s, l, x) { ResetAccounts(s, l, s', x); }
      else if l.GcWriteS? && s.gc.GLoad? && x == s.gc.ops { OnItsWay(s, l, s', x); }
      else { SameAccounts(s, l, s', x); }
    }
  }

  lemma GcRedirectAccounts(c: Config, s: State, s': State, x: nat)
    requires GcRedirect(c, s, s') && InvSlabs(c, s) && CountsOk(s'.slabs, s'.index, s'.put)
    requires IndexOk(c, s.slabs, s.mem, s.disk, s.index, s.latest, s.put)
    ensures Accounts(s, GcRedirectS, s', x)
  {
    hide InvSlabs, IndexOk, CountsOk, Redirects, Redirected, RedirectIndex, Accounts, Live;
    NormalGcSteps.RedirectFacts(c, s, s');
    RedirectAccounts(c, s, GcRedirectS, s', c.Buffer(), s.gc.ops, x);
  }

  /** A write copies the header with all its counts, and to one block the bytes; the two then differ in place only. */
  lemma WriteCopies(c: Config, s: State, l: Step, s': State)
    requires (l.FlushWriteS? && FlushNext(c, s, l, s')) || (l.GcWriteS? && NormalNext(c, s, l, s'))
    ensures Fits(c, s) && (if l.FlushWriteS? then s.flush.FGotD? else s.gc.GLoad?)
    ensures var m: nat, d: nat := if l.FlushWriteS? then s.flush.m else c.Buffer(),
                                  if l.FlushWriteS? then s.flush.d else s.gc.ops;
            && m < c.nrMslab && c.IsDisk(d)
            && s'.slabs[d] == s.slabs[m].(link := s'.slabs[d].link, role := s'.slabs[d].role)
            && s'.slabs[d].link == s.slabs[d].link && s'.disk == s.disk[c.BlockOf(d) := s.mem[m]]
  {
  }

  // ---------- every step, and runs without uncounted deletions ----------

  /**
   Of each slab that is settled after the step, the count is exact, or it exceeds the users by what it did before plus
   the entries that the step deletes without counting.
   */
  lemma UseCounts(c: Config, s: State, l: Step, s': State, x: nat)
    requires Inv(c, s) && Next(c, s, l, s')
    ensures Accounts(s, l, s', x)
  {
    hide InvSlabs, IndexOk, CountsOk, EntriesOk, MoveOk, InvPool, PutNext, FlushNext, QuickNext, NormalNext, Accounts;
    NextKeeps(c, s, l, s');
    if PutNext(c, s, l, s') { PutAccounts(c, s, l, s', x); }
    else if FlushNext(c, s, l, s') { FlushAccounts(c, s, l, s', x); }
    else if QuickNext(c, s, l, s') { QuickAccounts(c, s, l, s', x); }
    else { NormalAccounts(c, s, l, s', x); }
  }

  lemma PutAccounts(c: Config, s: State, l: Step, s': State, x: nat)
    requires PutNext(c, s, l, s') && WaitOk(c, s.index, s.put)
    ensures Accounts(s, l, s', x)
  {
    hide Accounts, PutBegin, PutOpen, PutAlloc, PutAbort, PutWrite, PutHit, PutMiss, PutBlock, PutWake, PutDone, Delete,
         WaitOk;
    if IsPublish(l) { PublishAccounts(c, s, l, s', x); }
    else if l.DeleteS? { DeleteAccounts(c, s, l.k, l.counted, s', x); }
    else if l.PutAllocS? { AllocAccounts(c, s, l, s', x); }
    else { SlotAccounts(c, s, l, s', x); }
  }

  /** Every settled slab counts exactly its live entries and the slot that Put is filling. */
  ghost predicate Exact(s: State) {
    forall x :: 0 <= x < |s.slabs| && !Unsettled(s, x) ==> s.slabs[x].nrUsed == |Live(s.index, x)| + Pending(s.put, x)
  }

  /** As long as every Delete counts and nothing was evicted, `nr_used` is exact. */
  lemma {:induction false} UsedExactly(c: Config, states: seq<State>, steps: seq<Step>, n: nat)
    requires n < |states| == |steps| + 1 && IsRun(c, states, steps)
    requires forall k :: 0 <= k < n ==> !steps[k].GcEvictS? && (steps[k].DeleteS? ==> steps[k].counted)
    ensures Exact(states[n])
  {
    hide Next, Bootable, Inv, Live, Unsettled;
    if n == 0 {
      BootExact(c);
    } else {
      UsedExactly(c, states, steps, n - 1);
      RunInv(c, states, steps, n - 1);
      var s, l, s' := states[n - 1], steps[n - 1], states[n];
      forall x | 0 <= x < |s'.slabs| && !Unsettled(s', x)
        ensures s'.slabs[x].nrUsed == |Live(s'.index, x)| + Pending(s'.put, x)
      {
        UseCounts(c, s, l, s', x);
        SameNumber(c, s, l, s');
      }
    }
  }

  lemma SameNumber(c: Config, s: State, l: Step, s': State)
    requires Inv(c, s) && Next(c, s, l, s')
    ensures |s'.slabs| == |s.slabs|
  {
    hide InvSlabs, InvIndex, InvPool, Next;
    NextKeeps(c, s, l, s');
    InvFits(c, s);
    InvFits(c, s');
  }

  lemma InvFits(c: Config, s: State)
    requires InvSlabs(c, s)
    ensures Fits(c, s)
  {
  }

  lemma BootExact(c: Config)
    requires Bootable(c)
    ensures Exact(Boot(c))
  {
    var s := Boot(c);
    forall x | 0 <= x < |s.slabs| ensures s.slabs[x].nrUsed == |Live(s.index, x)| + Pending(s.put, x) {
      assert s.slabs[x] == BootSlab(c, x);
      assert Live(s.index, x) == {};
    }
  }
}
