/**
 A waiting Put when nothing is left to flush. Which full slabs the collector drops is then decided by the order of the
 full lists: the exact conditions for an entry to become free, and for everything to stand still, in a given order, in
 some order, and in every order.
 */
module Stalls {
  import opened Types
  import opened Protocol
  import opened Invariant
  import opened Counting
  import opened GcFrames
  import opened Runs
  import opened Progress
  import opened Stretches
  import opened Recovery
  import Collector
  import DiskPools
  import Space

  /** `q` lists the slabs of `full`, each once. */
  ghost predicate Enumerates(q: seq<nat>, full: set<nat>) { multiset(q) == multiset(full) }

  /** Dropping slabs in the order `q` ends with a free entry. */
  ghost predicate OrderRecovers(c: Config, s: State, q: seq<nat>) {
    exists s' :: Leads(c, From(s, q), s') && s'.nrFreeEntry > 0
  }

  /** Dropping slabs in the order `q` ends with the Put still waiting and a collector that cannot wake. */
  ghost predicate OrderStalls(c: Config, s: State, q: seq<nat>) {
    exists s' :: Leads(c, From(s, q), s') && Waits(s') && s'.gc.GIdle? && s'.nrFullDslab <= 0
  }

  /** One of the first `n` slabs of `q` frees an entry. */
  ghost predicate FreesWithin(c: Config, s: State, q: seq<nat>, n: int) {
    exists i :: 0 <= i < n && i < |q| && Frees(c, s, q[i])
  }

  /** One of the slabs that the collector gets to drop, before its counter is down to zero, frees an entry. */
  ghost predicate FreesInTime(c: Config, s: State, q: seq<nat>) { FreesWithin(c, s, q, |q| - s.collections) }

  predicate Unique(q: seq<nat>) { forall i, j :: 0 <= i < j < |q| ==> q[i] != q[j] }

  // ---------- what dropping in order can lead to ----------

  /** The last slab taken is still to be evicted. */
  predicate Holding(g: GcPc, x: nat) { (g.GSelect? && g.left <= 0) || (g.GEvict? && x !in g.done) }

  /** The first `k` slabs of `q` are off the full lists, the others are as before. */
  predicate Taken(before: seq<Slab>, q: seq<nat>, k: nat, slabs: seq<Slab>) {
    && k <= |q| && |slabs| == |before|
    && (forall i :: 0 <= i < |q| ==> q[i] < |slabs| && (slabs[q[i]].link.DslabFull? <==> k <= i))
    && (forall i :: k <= i < |q| ==> slabs[q[i]] == before[q[i]])
    && (forall x :: 0 <= x < |slabs| && slabs[x].link.DslabFull? ==> x in q)
  }

  /** Only the last slab taken is being dropped, up to the loop that loses it. */
  predicate Drops(slabs: seq<Slab>, q: seq<nat>, k: nat, g: GcPc) {
    forall x :: 0 <= x < |slabs| && slabs[x].link.ToDrop? ==>
      0 < k <= |q| && x == q[k - 1] && InDrop(g) && !g.GReturnFree? && (g.GSelect? ==> g.left <= 0)
  }

  /** After `k` of the slabs in `q` were taken, and nothing they stored had an entry. */
  ghost predicate Along(c: Config, s0: State, q: seq<nat>, k: nat, s: State) {
    && Fits(c, s0) && Fits(c, s) && Waits(s) && s.flush.FIdle? && Members(s.slabs, MslabFull) == {}
    && s.index == s0.index && s.mem == s0.mem && s.disk == s0.disk
    && Taken(s0.slabs, q, k, s.slabs) && Drops(s.slabs, q, k, s.gc) && s.nrFullDslab == s0.nrFullDslab - k
    && k <= |q| && (k > 0 ==> k <= s0.nrFullDslab && q[k - 1] < |s.slabs|)
    && DropsOne(s.gc) && (s.gc.GSelect? ==> s.gc.left <= 1)
    && (s.gc.GAwake? || s.gc.GSeen? || (s.gc.GSelect? && s.gc.left > 0) ==> k < s0.nrFullDslab)
    && !FreesWithin(c, s0, q, k - 1)
    && (k > 0 ==>
          if Holding(s.gc, q[k - 1])
          then s.slabs[q[k - 1]].link.ToDrop? && s.slabs[q[k - 1]].nrAlloc == s0.slabs[q[k - 1]].nrAlloc
          else !Frees(c, s0, q[k - 1]))
    && (k == 0 ==> !(s.gc.GSelect? && s.gc.left <= 0) && !s.gc.GEvict?)
  }

  /** At first nothing was taken. */
  ghost predicate Begins(c: Config, s: State, q: seq<nat>) { Along(c, s, q, 0, s) && Unique(q) }

  /** One slab more was taken. */
  ghost predicate AlongNext(c: Config, s0: State, q: seq<nat>, k: nat, s: State) { Along(c, s0, q, k + 1, s) }

  /** The steps still to go when a pass has nine: four up to the selection of a slab, and five after it. */
  function ToGo(n: int, q: seq<nat>, k: nat, g: GcPc): int {
    9 * Max(n - k, 0) +
    match g
    case GAwake => -1
    case GSeen(_) => -2
    case GSelect(left, _) => if left > 0 then -3 else 5
    case GEvict(_, done) => if k > 0 && k <= |q| && q[k - 1] !in done then 4 else 3
    case GReturnOps(_, _) => 2
    case GReturnFree(_) => 1
    case _ => 0
  }

  /** The step from `g` to `g'` brings the end of the run closer. */
  predicate Closer(n: int, q: seq<nat>, k: nat, g: GcPc, k': nat, g': GcPc) {
    0 <= ToGo(n, q, k', g') < ToGo(n, q, k, g)
  }

  lemma AlongTurn(c: Config, s0: State, q: seq<nat>, k: nat, s: State, l: Step, s': State)
    requires Along(c, s0, q, k, s) && QuickNext(c, s, l, s') && !DropsSlab(l)
    ensures Along(c, s0, q, k, s') && Closer(s0.nrFullDslab, q, k, s.gc, k, s'.gc)
  {
    hide Taken, Frees, CheckOpsPool, OpsInBounds, BackToFree, BackToOps, QuickLow, QuickHigh, GcSelect, GcEvict,
         GcReturnOps, GcLose, GcReturnFree;
    assert forall x :: 0 <= x < |s.slabs| && s.slabs[x].link.ToDrop? ==> x in Members(s.slabs, ToDrop);
  }

  lemma TakesNext(before: seq<Slab>, q: seq<nat>, k: nat, slabs: seq<Slab>, x: nat)
    requires Taken(before, q, k, slabs) && InOrder(q, slabs, x) && x < |slabs| && slabs[x].link.DslabFull?
    ensures k < |q| && x == q[k]
  {
    var i :| 0 <= i < |q| && q[i] == x && forall j :: 0 <= j < i && q[j] < |slabs| ==> !slabs[q[j]].link.DslabFull?;
    assert k <= i;
    var y := q[k];
    assert slabs[y].link.DslabFull?;
    assert i <= k;
  }

  lemma AlongSelect(c: Config, s0: State, q: seq<nat>, k: nat, s: State, s': State, x: nat, ch: nat)
    requires Along(c, s0, q, k, s) && GcSelect(c, s, s', x, ch) && (q != [] ==> InOrder(q, s.slabs, x))
    requires Unique(q)
    ensures AlongNext(c, s0, q, k, s') && Closer(s0.nrFullDslab, q, k, s.gc, k + 1, s'.gc)
  {
    hide Frees, InOrder, Bump;
    assert x in q;
    TakesNext(s0.slabs, q, k, s.slabs, x);
    NoneQueuedStays(s.slabs, x, s'.slabs[x]);
  }

  lemma NoneQueuedStays(slabs: seq<Slab>, x: nat, sl: Slab)
    requires x < |slabs| && Members(slabs, MslabFull) == {} && !sl.link.MslabFull?
    ensures Members(slabs[x := sl], MslabFull) == {}
  {
    MembersKept(slabs, x, sl, MslabFull);
    forall y | 0 <= y < |slabs| ensures slabs[y].link != MslabFull { assert y !in Members(slabs, MslabFull); }
  }

  /** The slab in hand is evicted: an entry becomes free exactly when a stored key has one. */
  lemma AlongEvict(c: Config, s0: State, q: seq<nat>, k: nat, s: State, s': State, x: nat)
    requires Along(c, s0, q, k, s) && GcEvict(c, s, s', x)
    ensures Along(c, s0, q, k, s') || (s'.nrFreeEntry > 0 && FreesWithin(c, s0, q, s0.nrFullDslab))
    ensures Closer(s0.nrFullDslab, q, k, s.gc, k, s'.gc)
  {
    hide StoredTags;
    assert x == q[k - 1] && Holding(s.gc, x);
    var doomed := StoredTags(c, s.slabs[x].nrAlloc, s.disk[c.BlockOf(x)].recs);
    assert Frees(c, s0, x) <==> s.index.Keys * doomed != {};
    if s.index.Keys * doomed == {} {
      assert forall t :: t in s.index && t in doomed ==> t in s.index.Keys * doomed;
      assert s.index - doomed == s.index;
      NoneQueuedStays(s.slabs, x, s'.slabs[x]);
    }
  }

  lemma AlongLose(c: Config, s0: State, q: seq<nat>, k: nat, s: State, s': State, x: nat)
    requires Along(c, s0, q, k, s) && (GcLose(c, s, s', x) || GcReturnFree(c, s, s', x))
    ensures Along(c, s0, q, k, s') && Closer(s0.nrFullDslab, q, k, s.gc, k, s'.gc)
  {
    hide Frees, Bump;
    NoneQueuedStays(s.slabs, x, s'.slabs[x]);
  }

  lemma AlongQuick(c: Config, s0: State, q: seq<nat>, k: nat, s: State, l: Step, s': State) returns (k': nat)
    requires Along(c, s0, q, k, s) && QuickNext(c, s, l, s') && Allows(From(s0, q), s, l)
    requires Unique(q)
    ensures Along(c, s0, q, k', s')
            || (k' == k && s'.nrFreeEntry > 0 && FreesWithin(c, s0, q, s0.nrFullDslab))
    ensures Closer(s0.nrFullDslab, q, k, s.gc, k', s'.gc)
  {
    hide Taken, Drops, Frees, InOrder, GcWake, GcRead, GcDropOne, GcChooseQuick, GcPlan, GcSelect, GcSelected, GcEvict,
         GcEvicted, GcReturnOps, GcLose, GcReturnedOps, GcReturnFree, GcQuickDone, Members, Shaped;
    k' := k;
    DropsOneSteps(c, s, l, s');
    match l
    case GcSelectS(x, ch) =>
      AlongSelect(c, s0, q, k, s, s', x, ch);
      k' := k + 1;
    case GcEvictS(x) => AlongEvict(c, s0, q, k, s, s', x);
    case GcLoseS(x) => AlongLose(c, s0, q, k, s, s', x);
    case GcReturnFreeS(x) => AlongLose(c, s0, q, k, s, s', x);
    case _ => AlongTurn(c, s0, q, k, s, l, s');
  }

  lemma AlongStep(c: Config, s0: State, q: seq<nat>, k: nat, s: State, l: Step, s': State) returns (k': nat)
    requires Along(c, s0, q, k, s) && Next(c, s, l, s') && Allows(From(s0, q), s, l)
    requires Unique(q)
    ensures Along(c, s0, q, k', s')
            || (k' == k && s'.nrFreeEntry > 0 && FreesWithin(c, s0, q, s0.nrFullDslab))
    ensures Closer(s0.nrFullDslab, q, k, s.gc, k', s'.gc)
  {
    hide Taken, Drops, Frees, InOrder, PutNext, FlushTarget, FlushWrite, FlushRedirect, FlushFree, FlushStore,
         QuickNext, NormalNext, OffMemory;
    k' := k;
    if QuickNext(c, s, l, s') {
      k' := AlongQuick(c, s0, q, k, s, l, s');
    } else if PutNext(c, s, l, s') {
      PutLeaves(c, s, l, s');
      assert false;
    } else if FlushNext(c, s, l, s') {
      FlushLeaves(c, s, l, s');
      QueuedIs(s.slabs, l.x);
      assert false;
    } else {
      NormalLeaves(c, s, l, s');
      assert false;
    }
  }

  /** Where `n` steps lead, if they drop slabs in the order `q`. */
  ghost predicate Outcome(c: Config, s0: State, q: seq<nat>, n: nat, s: State) {
    exists k ::
      && (Along(c, s0, q, k, s) || (s.nrFreeEntry > 0 && FreesWithin(c, s0, q, s0.nrFullDslab)))
      && n <= n + ToGo(s0.nrFullDslab, q, k, s.gc) <= 9 * Max(s0.nrFullDslab, 0)
  }

  lemma {:induction false} PathAlong(c: Config, s0: State, q: seq<nat>, n: nat, s: State)
    requires LeadsIn(c, From(s0, q), n, s) && Begins(c, s0, q) && s0.gc.GIdle?
    ensures Outcome(c, s0, q, n, s)
  {
    hide Along, Frees, Next, InOrder;
    if n == 0 {
      assert Along(c, s0, q, 0, s);
    } else {
      var r: State, l: Step :| LeadsIn(c, From(s0, q), n - 1, r) && Allows(From(s0, q), r, l) && Next(c, r, l, s);
      PathAlong(c, s0, q, n - 1, r);
      var k: nat :|
        && (Along(c, s0, q, k, r) || (r.nrFreeEntry > 0 && FreesWithin(c, s0, q, s0.nrFullDslab)))
        && n - 1 + ToGo(s0.nrFullDslab, q, k, r.gc) <= 9 * Max(s0.nrFullDslab, 0);
      var k' := AlongStep(c, s0, q, k, r, l, s);
    }
  }

  // ---------- dropping in order ----------

  lemma Distinct(q: seq<nat>, full: set<nat>)
    requires Enumerates(q, full)
    ensures |q| == |full| && (forall x :: x in q <==> x in full)
    ensures Unique(q)
  {
    assert |multiset(q)| == |q|;
    forall x ensures x in q <==> x in full { assert x in multiset(q) <==> x in multiset(full); }
    forall i, j | 0 <= i < j < |q| ensures q[i] != q[j] {
      assert q == q[..j] + q[j..];
      assert q[i] in q[..j] && q[j] in q[j..];
      assert multiset(q)[q[i]] <= 1;
    }
  }

  lemma NoneTaken(slabs: seq<Slab>, q: seq<nat>)
    requires Enumerates(q, OfFamily(slabs, FullLists))
    ensures Taken(slabs, q, 0, slabs)
  {
    Distinct(q, OfFamily(slabs, FullLists));
    forall i | 0 <= i < |q| ensures q[i] < |slabs| && slabs[q[i]].link.DslabFull? {
      assert q[i] in OfFamily(slabs, FullLists);
    }
  }

  lemma AtStart(c: Config, s: State, q: seq<nat>)
    requires Quiet(s) && Inv(c, s) && Enumerates(q, OfFamily(s.slabs, FullLists))
    ensures Begins(c, s, q) && s.nrFullDslab == |q| - s.collections
  {
    hide InvSlabs, InvIndex, InvPool, OfFamily, Taken, FlushKnows, Enumerates;
    Distinct(q, OfFamily(s.slabs, FullLists));
    NoneTaken(s.slabs, q);
    Space.PoolHas(c, s);
    Collector.NothingInTransit(c, s);
    KnowsOf(c, s);
    assert Members(s.slabs, ToDrop) == {};
    assert forall x :: 0 <= x < |s.slabs| && s.slabs[x].link.ToDrop? ==> x in Members(s.slabs, ToDrop);
  }

  /** The collector can drop the `k`-th slab of `q` now, and it frees an entry if it did so at first. */
  ghost predicate ComesUp(c: Config, s0: State, q: seq<nat>, k: nat, s: State) {
    && Fits(c, s) && k < |q| && c.IsDisk(q[k]) && s.slabs[q[k]].link.DslabFull? && InOrder(q, s.slabs, q[k])
    && (Frees(c, s, q[k]) <==> Frees(c, s0, q[k]))
    && Members(s.slabs, ToDrop) == {} && s.nrFreeDslab >= 0
  }

  lemma NextInOrder(c: Config, s0: State, q: seq<nat>, k: nat, s: State)
    requires Along(c, s0, q, k, s) && k < |q| && s.gc.GIdle? && Inv(c, s)
    ensures ComesUp(c, s0, q, k, s)
  {
    hide InvSlabs, InvIndex, InvPool, StoredTags;
    Space.PoolHas(c, s);
    Collector.NothingInTransit(c, s);
    NotDropping(c, s, q[k]);
  }

  /** As long as nothing dropped has an entry, the collector goes on through the list. */
  lemma PassesTo(c: Config, s0: State, q: seq<nat>, k: nat) returns (s: State)
    requires Begins(c, s0, q) && s0.gc.GIdle? && Inv(c, s0) && k <= |q| && (k > 0 ==> k <= s0.nrFullDslab)
    requires !FreesWithin(c, s0, q, k)
    ensures Leads(c, From(s0, q), s) && Along(c, s0, q, k, s) && s.gc.GIdle?
  {
    hide InvSlabs, InvIndex, InvPool, Along, Leads, Frees, Unique;
    var t := From(s0, q);
    if k == 0 {
      LeadsStart(c, t, s0);
      s := s0;
    } else {
      var s1 := PassesTo(c, s0, q, k - 1);
      LeadsInv(c, t, s1);
      s := PassOn(c, s0, q, k - 1, s1);
    }
  }

  lemma PassOn(c: Config, s0: State, q: seq<nat>, k: nat, s: State) returns (s': State)
    requires Along(c, s0, q, k, s) && s.gc.GIdle? && k < |q| && k < s0.nrFullDslab && Inv(c, s)
    requires Unique(q) && !FreesWithin(c, s0, q, k + 1) && Leads(c, From(s0, q), s)
    ensures Leads(c, From(s0, q), s') && AlongNext(c, s0, q, k, s') && s'.gc.GIdle?
  {
    hide InvSlabs, InvIndex, InvPool, Leads, StoredTags, InOrder, Taken, Drops, Members, Unique;
    NextInOrder(c, s0, q, k, s);
    s' := DropPass(c, From(s0, q), s, q[k]);
    var doomed := StoredTags(c, s.slabs[q[k]].nrAlloc, s.disk[c.BlockOf(q[k])].recs);
    assert forall t :: t in s.index && t in doomed ==> t in s.index.Keys * doomed;
    assert s.index - doomed == s.index;
    AlongPass(c, s0, q, k, s, s');
  }

  lemma AlongPass(c: Config, s0: State, q: seq<nat>, k: nat, s: State, s': State)
    requires Along(c, s0, q, k, s) && s.gc.GIdle? && k < |q| && k < s0.nrFullDslab
    requires Unique(q) && !FreesWithin(c, s0, q, k + 1)
    requires q[k] < |s.slabs| && s' == s.(slabs := s.slabs[q[k] := BlankSlab(NoList, Lost)], size := s'.size,
                                          nrFullDslab := s.nrFullDslab - 1, quickPasses := s'.quickPasses,
                                          lost := s'.lost, fault := s'.fault)
    ensures AlongNext(c, s0, q, k, s')
  {
    hide Frees;
    NoneQueuedStays(s.slabs, q[k], s'.slabs[q[k]]);
  }

  lemma RecoversInTime(c: Config, s: State, q: seq<nat>, n: nat)
    requires Begins(c, s, q) && s.gc.GIdle? && Inv(c, s) && n <= |q| && n <= s.nrFullDslab
    requires FreesWithin(c, s, q, n)
    ensures OrderRecovers(c, s, q)
  {
    hide InvSlabs, InvIndex, InvPool, Leads, Frees, Along, InOrder, Unique;
    if FreesWithin(c, s, q, n - 1) {
      RecoversInTime(c, s, q, n - 1);
    } else {
      var s1 := PassesTo(c, s, q, n - 1);
      LeadsInv(c, From(s, q), s1);
      NextInOrder(c, s, q, n - 1, s1);
      AlongEnds(c, s, q, n - 1, s1);
      var s2 := FreeNow(c, From(s, q), s1, q[n - 1]);
    }
  }

  // ---------- the exact conditions ----------

  /** Without flushes, dropping in order either frees an entry or stalls, and what is dropped in time decides. */
  lemma OrderExactlyWhen(c: Config, s: State, q: seq<nat>)
    requires Quiet(s) && Enumerates(q, OfFamily(s.slabs, FullLists)) && Reachable(c, s)
    ensures OrderRecovers(c, s, q) <==> FreesInTime(c, s, q)
    ensures OrderStalls(c, s, q) <==> !FreesInTime(c, s, q)
  {
    hide LeadsIn, InvSlabs, InvIndex, InvPool, Along, Frees, OfFamily, Enumerates;
    LeadsInv(c, Whole, s);
    AtStart(c, s, q);
    if FreesInTime(c, s, q) {
      RecoversInTime(c, s, q, s.nrFullDslab);
    } else {
      var s' := PassesTo(c, s, q, if s.nrFullDslab > 0 then s.nrFullDslab else 0);
      AlongEnds(c, s, q, if s.nrFullDslab > 0 then s.nrFullDslab else 0, s');
    }
    forall s' | Leads(c, From(s, q), s')
      ensures s'.nrFreeEntry > 0 ==> FreesInTime(c, s, q)
      ensures Waits(s') && s'.gc.GIdle? && s'.nrFullDslab <= 0 ==> !FreesInTime(c, s, q)
    {
      var n: nat :| LeadsIn(c, From(s, q), n, s');
      LeadsTo(c, s, q, n, s');
    }
  }

  lemma AlongEnds(c: Config, s0: State, q: seq<nat>, k: nat, s: State)
    requires Along(c, s0, q, k, s)
    ensures Waits(s) && s.nrFullDslab == s0.nrFullDslab - k && (k > 0 ==> k <= s0.nrFullDslab) && k <= |q|
    ensures s.gc.GIdle? ==> !FreesWithin(c, s0, q, k)
  {
    hide Frees;
  }

  lemma LeadsTo(c: Config, s: State, q: seq<nat>, n: nat, s': State)
    requires Begins(c, s, q) && s.gc.GIdle? && s.nrFullDslab == |q| - s.collections && LeadsIn(c, From(s, q), n, s')
    ensures s'.nrFreeEntry > 0 ==> FreesInTime(c, s, q)
    ensures Waits(s') && s'.gc.GIdle? && s'.nrFullDslab <= 0 ==> !FreesInTime(c, s, q)
    ensures n <= 9 * Max(s.nrFullDslab, 0)
  {
    hide Along, Frees, LeadsIn, ToGo;
    PathAlong(c, s, q, n, s');
    if k :| Along(c, s, q, k, s') { AlongEnds(c, s, q, k, s'); }
  }

  /** A pass has nine steps, and there are no more passes than slabs the collector gets to drop, so every path ends. */
  lemma EndsInTime(c: Config, s: State, q: seq<nat>, n: nat, s': State)
    requires Quiet(s) && Enumerates(q, OfFamily(s.slabs, FullLists)) && Reachable(c, s)
    requires LeadsIn(c, From(s, q), n, s')
    ensures n <= 9 * Max(|OfFamily(s.slabs, FullLists)| - s.collections, 0)
  {
    hide Leads, LeadsIn, InvSlabs, InvIndex, InvPool, Along, Frees, OfFamily, Enumerates;
    LeadsInv(c, Whole, s);
    AtStart(c, s, q);
    Distinct(q, OfFamily(s.slabs, FullLists));
    LeadsTo(c, s, q, n, s');
  }

  /** Until an entry is free or everything stands still, no path that drops slabs in the order `q` is at its end. */
  lemma GoesOn(c: Config, s: State, q: seq<nat>, s': State)
    requires Quiet(s) && Enumerates(q, OfFamily(s.slabs, FullLists)) && Reachable(c, s)
    requires Leads(c, From(s, q), s') && s'.nrFreeEntry <= 0 && !(s'.gc.GIdle? && s'.nrFullDslab <= 0)
    ensures exists l, s'' :: Allows(From(s, q), s', l) && Next(c, s', l, s'')
  {
    hide Leads, InvSlabs, InvIndex, InvPool, Along, Frees, Enumerates, Next, Allows, OfFamily;
    LeadsInv(c, Whole, s);
    AtStart(c, s, q);
    LeadsInv(c, From(s, q), s');
    var k := LeadsAlong(c, s, q, s');
    var l, s'' := StepOn(c, s, q, k, s');
  }

  lemma LeadsAlong(c: Config, s: State, q: seq<nat>, s': State) returns (k: nat)
    requires Begins(c, s, q) && s.gc.GIdle? && Leads(c, From(s, q), s') && s'.nrFreeEntry <= 0
    ensures Along(c, s, q, k, s')
  {
    hide Along, Frees, LeadsIn, ToGo;
    var n: nat :| LeadsIn(c, From(s, q), n, s');
    PathAlong(c, s, q, n, s');
    k :| Along(c, s, q, k, s');
  }

  lemma StepOn(c: Config, s0: State, q: seq<nat>, k: nat, s: State) returns (l: Step, s': State)
    requires Along(c, s0, q, k, s) && !(s.gc.GIdle? && s.nrFullDslab <= 0) && Inv(c, s)
    requires s0.nrFullDslab <= |q|
    ensures Allows(From(s0, q), s, l) && Next(c, s, l, s')
  {
    hide InvSlabs, InvIndex, InvPool, Frees, PutNext, FlushNext, NormalNext, StoredTags, CheckOpsPool, OffBytes,
         OffEntries, OffMemory, OfFamily, Members, SlabsOk, FlushOk, AfterDropOne, AfterPlan, AfterEvict,
         AfterReturnOps, AfterLose, AfterReturnFree, AfterSelect;
    if s.gc.GIdle? {
      l, s' := GcWakeS, s.(gc := GAwake);
    } else if s.gc.GSelect? && s.gc.left > 0 {
      var x := q[k];
      KnowsOf(c, s);
      OnlyDisks(c, s.slabs, s.mem, s.disk);
      var ch := s.slabs[x].link.channel;
      l, s' := GcSelectS(x, ch), AfterSelect(c, s, x, ch);
    } else {
      l, s' := Advance(c, s);
      if NormalNext(c, s, l, s') { NormalLeaves(c, s, l, s'); } else { QuickLeaves(c, s, l, s'); }
    }
  }

  // ---------- whatever the order ----------

  /** The full slabs that free nothing. */
  ghost function Dry(c: Config, s: State): set<nat> {
    set x | x in OfFamily(s.slabs, FullLists) && !Frees(c, s, x)
  }

  lemma ListOf(a: set<nat>) returns (q: seq<nat>)
    ensures Enumerates(q, a)
  {
    if a == {} {
      q := [];
    } else {
      var x :| x in a;
      var rest := ListOf(a - {x});
      q := [x] + rest;
      assert multiset(q) == multiset{x} + multiset(rest);
      assert a == {x} + (a - {x});
    }
  }

  /** The slabs of `a` first, then those of `b`. */
  lemma Concatenate(a: set<nat>, b: set<nat>) returns (q: seq<nat>)
    requires a !! b
    ensures Enumerates(q, a + b) && (forall i :: 0 <= i < |a| ==> i < |q| && q[i] in a)
  {
    var p := ListOf(a);
    var r := ListOf(b);
    Distinct(p, a);
    q := p + r;
    assert multiset(a + b) == multiset(a) + multiset(b);
  }

  lemma FewerThan(q: seq<nat>, n: nat, a: set<nat>)
    requires n <= |q| && Unique(q) && forall i :: 0 <= i < n ==> q[i] in a
    ensures n <= |a|
    decreases n
  {
    if n > 0 { FewerThan(q, n - 1, a - {q[n - 1]}); }
  }

  ghost predicate SomeOrderStalls(c: Config, s: State) {
    exists q :: Enumerates(q, OfFamily(s.slabs, FullLists)) && OrderStalls(c, s, q)
  }

  ghost predicate SomeOrderRecovers(c: Config, s: State) {
    exists q :: Enumerates(q, OfFamily(s.slabs, FullLists)) && OrderRecovers(c, s, q)
  }

  /**
   The Put can be left waiting, for some order of the full lists, if and only if at least as many full slabs free
   nothing as the collector gets to drop; otherwise it gets an entry in every order.
   */
  lemma StallsExactlyWhen(c: Config, s: State)
    requires Quiet(s) && Reachable(c, s)
    ensures SomeOrderStalls(c, s) <==> |Dry(c, s)| >= |OfFamily(s.slabs, FullLists)| - s.collections
    ensures !SomeOrderStalls(c, s) <==>
            forall q :: Enumerates(q, OfFamily(s.slabs, FullLists)) ==> OrderRecovers(c, s, q)
  {
    hide Leads, OrderStalls, OrderRecovers, Frees, OfFamily, Quiet, Enumerates;
    var full := OfFamily(s.slabs, FullLists);
    forall q | Enumerates(q, full)
      ensures OrderStalls(c, s, q) <==> !OrderRecovers(c, s, q)
      ensures OrderStalls(c, s, q) ==> |Dry(c, s)| >= |full| - s.collections
    {
      OrderExactlyWhen(c, s, q);
      Distinct(q, full);
      if !FreesInTime(c, s, q) && |full| > s.collections { FewerThan(q, |full| - s.collections, Dry(c, s)); }
    }
    if |Dry(c, s)| >= |full| - s.collections {
      var q := Concatenate(Dry(c, s), full - Dry(c, s));
      assert Dry(c, s) + (full - Dry(c, s)) == full;
      Distinct(q, full);
      OrderExactlyWhen(c, s, q);
    }
  }

  /** It can get one, for some order, if and only if the collector gets to drop any slab at all. */
  lemma SomeOrderExactlyWhen(c: Config, s: State)
    requires Quiet(s) && Reachable(c, s)
    ensures SomeOrderRecovers(c, s) <==> |OfFamily(s.slabs, FullLists)| > s.collections
    ensures SomeOrderRecovers(c, s) <==> Recovers(c, s)
  {
    hide Leads, OrderRecovers, Frees, OfFamily, Enumerates, InvSlabs, InvIndex, InvPool, Recovers;
    var full := OfFamily(s.slabs, FullLists);
    QuietExactlyWhen(c, s);
    if |full| > s.collections {
      LeadsInv(c, Whole, s);
      var x := SomeFrees(c, s);
      var q := Concatenate({x}, full - {x});
      assert {x} + (full - {x}) == full;
      OrderExactlyWhen(c, s, q);
      Distinct(q, full);
      assert Frees(c, s, q[0]);
    } else {
      forall q | Enumerates(q, full) ensures !OrderRecovers(c, s, q) {
        OrderExactlyWhen(c, s, q);
        Distinct(q, full);
      }
    }
  }

  lemma SomeFrees(c: Config, s: State) returns (x: nat)
    requires Quiet(s) && Inv(c, s)
    ensures x in OfFamily(s.slabs, FullLists) && Frees(c, s, x)
  {
    hide InvSlabs, InvIndex, InvPool, Frees, Members;
    Space.PoolHas(c, s);
    RoomComes(c, s);
    x :| Comes(s, x) && Frees(c, s, x);
    NotDropping(c, s, x);
    if s.slabs[x].link.MslabFull? { MemberFamily(s.slabs, x); }
  }

  // ---------- the order of the program ----------

  function Home(c: Config): nat -> nat {
    (x: nat) => if c.IsDisk(x) && c.blocksPerChannel > 0 then c.Channel(x) else 0
  }

  /** `lists` are the program's full lists. */
  ghost predicate Holds(c: Config, s: State, lists: seq<DiskPools.List>) {
    && DiskPools.ListsOk(lists, c.nrChannels, Home(c))
    && DiskPools.Items(lists) == multiset(OfFamily(s.slabs, FullLists))
  }

  /** The order in which the selection loop drains the program's lists, and what it leads to. */
  lemma ProgramExactlyWhen(c: Config, s: State, lists: seq<DiskPools.List>, cursor: nat, q: seq<nat>)
    requires Quiet(s) && Holds(c, s, lists) && Reachable(c, s)
    requires DiskPools.InTurn(lists, cursor, q, Home(c)) && |q| == |OfFamily(s.slabs, FullLists)|
    ensures Enumerates(q, OfFamily(s.slabs, FullLists))
    ensures OrderRecovers(c, s, q) <==> FreesInTime(c, s, q)
    ensures OrderStalls(c, s, q) <==> !FreesInTime(c, s, q)
  {
    hide Leads, OfFamily, DiskPools.Items, DiskPools.ListsAfter, DiskPools.InTurn, DiskPools.ListsOk, FreesInTime,
         OrderRecovers, OrderStalls, Quiet;
    DiskPools.InTurnDrains(lists, cursor, q, c.nrChannels, Home(c));
    var rest := DiskPools.Items(DiskPools.ListsAfter(lists, q, Home(c)));
    assert |rest + multiset(q)| == |rest| + |multiset(q)|;
    assert |multiset(OfFamily(s.slabs, FullLists))| == |OfFamily(s.slabs, FullLists)|;
    assert rest == multiset{};
    OrderExactlyWhen(c, s, q);
  }
}
