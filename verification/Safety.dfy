/** What every run of the cache guarantees to its clients. */
module Safety {
  import opened Types
  import opened Protocol
  import opened Invariant
  import opened Counting
  import opened Frames
  import opened GcFrames
  import opened Runs
  import opened View

  /** The step from `s` makes `v` the value of `k`. */
  ghost predicate Publishes(s: State, l: Step, k: Key, v: Value) {
    IsPublish(l) && (s.put.PWritten? || s.put.PWaiting?) && s.put.k == k && s.put.v == v
  }

  /** The step from `s` gives `k` another value or deletes it. */
  ghost predicate Overrides(s: State, l: Step, k: Key) {
    (exists v :: Publishes(s, l, k, v)) || (l.DeleteS? && l.k == k)
  }

  lemma LatestIs(c: Config, s: State, l: Step, s': State)
    requires Next(c, s, l, s')
    ensures IsPublish(l) ==> (s.put.PWritten? || s.put.PWaiting?) && s'.latest == s.latest[s.put.k := s.put.v]
    ensures l.DeleteS? ==> s'.latest == s.latest - {l.k}
    ensures !IsPublish(l) && !l.DeleteS? ==> s'.latest == s.latest
  {
    hide PutNext, FlushNext, QuickNext, NormalNext;
    if PutNext(c, s, l, s') {
      PutLeaves(c, s, l, s');
      if IsPublish(l) || l.DeleteS? { EntryFacts(c, s, l, s'); }
    }
    else if FlushNext(c, s, l, s') { FlushLeaves(c, s, l, s'); }
    else if QuickNext(c, s, l, s') { QuickLeaves(c, s, l, s'); }
    else { NormalLeaves(c, s, l, s'); }
  }

  /** `latest` moves only with publications and deletions. */
  lemma LatestStep(c: Config, s: State, l: Step, s': State)
    requires Next(c, s, l, s')
    ensures forall k, v :: Publishes(s, l, k, v) ==> k in s'.latest && s'.latest[k] == v
    ensures l.DeleteS? ==> l.k !in s'.latest
    ensures forall k :: !Overrides(s, l, k) ==>
              (k in s'.latest <==> k in s.latest) && (k in s.latest ==> s'.latest[k] == s.latest[k])
  {
    hide Next;
    LatestIs(c, s, l, s');
    forall k | !Overrides(s, l, k)
      ensures (k in s'.latest <==> k in s.latest) && (k in s.latest ==> s'.latest[k] == s.latest[k])
    {
      if IsPublish(l) { assert Publishes(s, l, s.put.k, s.put.v); }
    }
  }

  /** Step `j` of the run published `v` for `k`, and no step from then to state `n` overrode it. */
  ghost predicate LastPublished(states: seq<State>, steps: seq<Step>, n: nat, k: Key, v: Value, j: nat)
    requires n < |states| == |steps| + 1
  {
    && j < n && Publishes(states[j], steps[j], k, v)
    && forall m :: j < m < n ==> !Overrides(states[m], steps[m], k)
  }

  lemma {:induction false} LatestIsLast(c: Config, states: seq<State>, steps: seq<Step>, n: nat, k: Key)
    requires IsRun(c, states, steps) && n < |states| && k in states[n].latest
    ensures exists j :: LastPublished(states, steps, n, k, states[n].latest[k], j)
  {
    hide Next, Bootable;
    if n > 0 {
      var s, l, s' := states[n - 1], steps[n - 1], states[n];
      LatestStep(c, s, l, s');
      if Publishes(s, l, k, s'.latest[k]) {
        assert LastPublished(states, steps, n, k, s'.latest[k], n - 1);
      } else {
        LatestIsLast(c, states, steps, n - 1, k);
        var j :| LastPublished(states, steps, n - 1, k, s.latest[k], j);
        assert LastPublished(states, steps, n, k, s'.latest[k], j);
      }
    }
  }

  /**
   No stale reads. In every run, for arbitrary hash and digest functions, a value found for `k` was published by some
   Put(k), and since then no Put(k) was published and no Delete(k) happened; no lookup ever reads garbage.
   */
  lemma NoStaleReads(c: Config, states: seq<State>, steps: seq<Step>, n: nat, k: Key)
    requires IsRun(c, states, steps) && n < |states|
    ensures Lookup(c, states[n], k) != Garbage
    ensures Lookup(c, states[n], k).Found? ==>
              exists j :: LastPublished(states, steps, n, k, Lookup(c, states[n], k).v, j)
  {
    hide IsRun;
    var s := states[n];
    RunInv(c, states, steps, n);
    assert Inv(c, s);
    assert Fits(c, s) && IndexOk(c, s.slabs, s.mem, s.disk, s.index, s.latest, s.put);
    LookupIsAnswer(c, s, k);
    if Lookup(c, s, k).Found? {
      EntryAt(c, s, c.TagOf(k));
      LatestIsLast(c, states, steps, n, k);
    }
  }

  /** Keys of one hash bucket with one digest: the index has one entry for all of them. */
  predicate Collide(c: Config, k: Key, k': Key) {
    c.buckets > 0 && c.hash(k) % c.buckets == c.hash(k') % c.buckets && c.digest(k) == c.digest(k')
  }

  /** A published pair is found at once; colliding keys are only missed; other keys are not affected. */
  lemma PutIsSeen(c: Config, s: State, l: Step, s': State, k: Key)
    requires Inv(c, s) && Next(c, s, l, s') && IsPublish(l)
    ensures Inv(c, s') && (s.put.PWritten? || s.put.PWaiting?)
    ensures Lookup(c, s', s.put.k) == Found(s.put.v)
    ensures k != s.put.k && Collide(c, k, s.put.k) ==> Lookup(c, s', k) == NotFound
    ensures !Collide(c, k, s.put.k) ==> Lookup(c, s', k) == Lookup(c, s, k)
  {
    hide InvSlabs, InvIndex, InvPool, Next, Lookup, Shown;
    StepEffect(c, s, l, s');
    LatestIs(c, s, l, s');
    LookupIsAnswer(c, s', s.put.k);
    LookupIsAnswer(c, s', k);
    LookupIsAnswer(c, s, k);
  }

  /** After Delete(k) the key is not found; keys of another bucket or digest are not affected. */
  lemma DeleteIsSeen(c: Config, s: State, l: Step, s': State, k: Key)
    requires Inv(c, s) && Next(c, s, l, s') && l.DeleteS?
    ensures Inv(c, s')
    ensures Lookup(c, s', k) == if Collide(c, k, l.k) then NotFound else Lookup(c, s, k)
  {
    hide InvSlabs, InvIndex, InvPool, Next, Lookup, Shown;
    StepEffect(c, s, l, s');
    LookupIsAnswer(c, s', k);
    LookupIsAnswer(c, s, k);
  }

  /** One of the first `n` records is of a key that collides with `k`. */
  predicate StoresFor(c: Config, n: nat, recs: seq<Rec>, k: Key) {
    exists i :: 0 <= i < n && i < |recs| && Collide(c, k, recs[i].key)
  }

  /** Dropping a disk slab forgets exactly the keys that share bucket and digest with a key stored in it. */
  lemma EvictForgets(c: Config, s: State, l: Step, s': State, k: Key)
    requires Inv(c, s) && Next(c, s, l, s') && l.GcEvictS?
    ensures Inv(c, s') && c.IsDisk(l.x)
    ensures var forgets := StoresFor(c, s.slabs[l.x].nrAlloc, s.disk[c.BlockOf(l.x)].recs, k);
            Lookup(c, s', k) == if forgets then NotFound else Lookup(c, s, k)
  {
    hide InvSlabs, InvIndex, InvPool, Next, Lookup, Shown, StoredTags;
    StepEffect(c, s, l, s');
    EvictPc(c, s, l, s');
    LookupIsAnswer(c, s', k);
    LookupIsAnswer(c, s, k);
    StoredFor(c, s.slabs[l.x].nrAlloc, s.disk[c.BlockOf(l.x)].recs, k);
  }

  lemma StoredFor(c: Config, n: nat, recs: seq<Rec>, k: Key)
    requires c.buckets > 0
    ensures c.TagOf(k) in StoredTags(c, n, recs) <==> StoresFor(c, n, recs, k)
  {
    if i :| 0 <= i < n && i < |recs| && Collide(c, k, recs[i].key) { assert c.TagOf(recs[i].key) == c.TagOf(k); }
  }

  lemma EvictPc(c: Config, s: State, l: Step, s': State)
    requires Next(c, s, l, s') && l.GcEvictS?
    ensures c.IsDisk(l.x)
  {
  }

  /** A flush or a normal GC is invisible at each of its steps; so is every other step but the three kinds above. */
  lemma OthersInvisible(c: Config, s: State, l: Step, s': State, k: Key)
    requires Inv(c, s) && Next(c, s, l, s') && !IsPublish(l) && !l.DeleteS? && !l.GcEvictS?
    ensures Inv(c, s') && Lookup(c, s', k) == Lookup(c, s, k)
  {
    hide InvSlabs, InvIndex, InvPool, Next, Lookup, Shown;
    StepEffect(c, s, l, s');
    LookupIsAnswer(c, s', k);
    LookupIsAnswer(c, s, k);
  }

  // ---------- assertions ----------

  /** The program's assertions in a step of Put or Delete, no second entry for a tag, and no node linked twice. */
  ghost predicate PutAsserts(c: Config, s: State, l: Step) {
    && Fits(c, s)
    && match l
       case PutAllocS(x, _) => x < |s.slabs| && s.slabs[x].cid >= -1 && s.slabs[x].nrAlloc != s.slabs[x].nrSlots
       case PutHitS =>
         && s.put.PWritten? && c.TagOf(s.put.k) in s.index
         && var x := s.index[c.TagOf(s.put.k)].sid; x < |s.slabs| && s.slabs[x].nrUsed > 0
       case PutMissS => s.put.PWritten? && c.TagOf(s.put.k) !in s.index
       case PutWakeS => s.put.PWaiting? && c.TagOf(s.put.k) !in s.index
       case PutDoneS =>
         && s.put.PIndexed? && s.put.sid < |s.slabs|
         && var sl := s.slabs[s.put.sid]; sl.nrAlloc == sl.nrSlots ==> sl.link == NoList
       case DeleteS(k, counted) =>
         counted && c.TagOf(k) in s.index ==>
           var x := s.index[c.TagOf(k)].sid; x < |s.slabs| && s.slabs[x].nrUsed > 0
       case _ => true
  }

  /** The assertions of the flusher. */
  ghost predicate FlushAsserts(c: Config, s: State, l: Step) {
    && Fits(c, s)
    && match l
       case FlushTakeS(x) => x < |s.slabs| && s.slabs[x].cid != -1
       case FlushTargetS(x, ch) => x < |s.slabs| && s.slabs[x].cid == -1 && s.nrFreeDslab > 0 && ch < c.nrChannels
       case FlushRedirectS =>
         && s.flush.FWritten? && s.flush.m < |s.slabs| && s.flush.d < |s.slabs|
         && s.slabs[s.flush.d].cid == s.slabs[s.flush.m].cid != -1
       case FlushFreeS => s.flush.FMoved? && s.flush.m < |s.slabs| && s.slabs[s.flush.m].link == NoList
       case FlushStoreS => s.flush.FFreed? && s.flush.d < |s.slabs| && s.slabs[s.flush.d].link == NoList
       case _ => true
  }

  /** Within its bounds, and every size of its lists right. */
  predicate PoolIsRight(c: Config, s: State) {
    && (forall ch :: 0 <= ch < c.nrChannels ==> SizeOf(s.size, OpsPool(ch)) == |Members(s.slabs, OpsPool(ch))|)
    && s.opsSize == |OfFamily(s.slabs, Pool)|
  }

  /** The assertions of quick GC and of the collector's entry. */
  ghost predicate QuickAsserts(c: Config, s: State, l: Step) {
    match l
    case GcReadS => s.nrFreeDslab >= 0
    case GcDropOneS => 0 < s.opsSize <= c.maxOps && PoolIsRight(c, s)
    case GcPlanS => 0 < s.opsSize <= c.maxOps && PoolIsRight(c, s) && s.nrFreeDslab > -1
    case GcReturnFreeS(x) => 0 <= s.nrFreeDslab + 1 <= |c.block|
    case GcQuickDoneS => PoolIsRight(c, s)
    case _ => true
  }

  /** The assertions of normal GC. */
  ghost predicate NormalAsserts(c: Config, s: State, l: Step) {
    && Fits(c, s)
    && match l
       case GcScanS(cands) => forall x :: x in cands ==> x < |s.slabs| && s.slabs[x].cid != -1
       case GcPickS(x) => x < |s.slabs| && s.slabs[x].nrUsed >= 0
       case GcTakeNoneS => false
       case GcLinkOpsS => s.gc.GTook? && s.gc.ops < |s.slabs| && s.slabs[s.gc.ops].link == NoList
       case GcLoadS =>
         && s.gc.GLoad? && s.gc.j < |s.gc.picks| && s.gc.picks[s.gc.j].sid < |s.slabs|
         && var sl, buffer := s.slabs[s.gc.picks[s.gc.j].sid], s.slabs[c.Buffer()];
            s.gc.size + sl.nrUsed <= buffer.nrSlots && -1 != sl.cid == buffer.cid
       case GcMoveSlotS =>
         && s.gc.GMove? && s.gc.j < |s.gc.picks| && c.IsDisk(s.gc.picks[s.gc.j].sid)
         && var x := s.gc.picks[s.gc.j].sid;
            && s.gc.i < |s.disk[c.BlockOf(x)].recs|
            && var t, buffer := c.TagOf(s.disk[c.BlockOf(x)].recs[s.gc.i].key), s.slabs[c.Buffer()];
               t in s.index && s.index[t] == Loc(x, s.gc.i) ==> buffer.nrAlloc != buffer.nrSlots
       case GcWriteS => s.slabs[c.Buffer()].cid != -1
       case GcTuneS =>
         s.gc.GPack? &&
         var reclaimed := |OfFamily(s.slabs, Reclaimed)|; reclaimed == 0 || reclaimed >= s.gc.pass.oldOps - s.opsSize
       case GcRefilledS => s.gc.GRefill? && s.opsSize <= s.gc.oldOps
       case GcReturnAllS(x, _) => 0 <= s.nrFreeDslab + 1 <= |c.block|
       case GcNormalDoneS => PoolIsRight(c, s)
       case _ => true
  }

  lemma PutAsserted(c: Config, s: State, l: Step, s': State)
    requires PutNext(c, s, l, s') && !s.fault && !s'.fault
    ensures PutAsserts(c, s, l)
  {
    hide Members, Bump, AppendRec, WriteRec, ClassFor;
  }

  lemma FlushAsserted(c: Config, s: State, l: Step, s': State)
    requires FlushNext(c, s, l, s') && !s.fault && !s'.fault
    ensures FlushAsserts(c, s, l)
  {
    hide Bump, Redirected, RedirectIndex, CopyHeader;
  }

  lemma QuickAsserted(c: Config, s: State, l: Step, s': State)
    requires QuickNext(c, s, l, s') && !s.fault && !s'.fault && InvPool(c, s)
    ensures QuickAsserts(c, s, l)
  {
    hide Members, OfFamily, Bump, StoredTags, PoolOk, QuickLow, QuickHigh, BackToFree, BackToOps, CheckOpsPool;
  }

  lemma NormalAsserted(c: Config, s: State, l: Step, s': State)
    requires NormalNext(c, s, l, s') && !s.fault && !s'.fault && InvPool(c, s)
    ensures NormalAsserts(c, s, l)
  {
    hide Members, OfFamily, Bump, SeenSum, Redirected, RedirectIndex, CopyHeader, AppendRec, PoolOk, CheckOpsPool;
  }

  /**
   In no run does an assertion fail that Put, Delete, the flusher or the collector makes about slabs, counters, lists or
   the pool, is a list node linked while on another list, or is a second entry chained for a tag. What a lookup asserts
   of its entry is part of `EntrySafe`.
   */
  lemma NoAssertionFails(c: Config, s: State, l: Step, s': State)
    requires Reachable(c, s) && Next(c, s, l, s')
    ensures !s.fault && !s'.fault
    ensures PutNext(c, s, l, s') ==> PutAsserts(c, s, l)
    ensures FlushNext(c, s, l, s') ==> FlushAsserts(c, s, l)
    ensures QuickNext(c, s, l, s') ==> QuickAsserts(c, s, l)
    ensures NormalNext(c, s, l, s') ==> NormalAsserts(c, s, l)
  {
    hide Leads, InvSlabs, InvIndex, InvPool, PutNext, FlushNext, QuickNext, NormalNext, PutAsserts, FlushAsserts,
         QuickAsserts, NormalAsserts;
    LeadsInv(c, Whole, s);
    NextKeeps(c, s, l, s');
    if PutNext(c, s, l, s') { PutAsserted(c, s, l, s'); }
    if FlushNext(c, s, l, s') { FlushAsserted(c, s, l, s'); }
    if QuickNext(c, s, l, s') { QuickAsserted(c, s, l, s'); }
    if NormalNext(c, s, l, s') { NormalAsserted(c, s, l, s'); }
  }

  /** The assertions of start-up hold: channels exist, free disk slabs are within bounds, the pool's sizes are right. */
  lemma StartUpAsserts(c: Config)
    requires Bootable(c)
    ensures forall x :: c.IsDisk(x) ==> c.Channel(x) < c.nrChannels
    ensures 0 <= Boot(c).nrFreeDslab <= |c.block| && CheckOpsPool(c, Boot(c))
  {
    hide Boot, CheckOpsPool;
    forall x | c.IsDisk(x) ensures c.Channel(x) < c.nrChannels { ChannelBound(c, x); }
    BootInv(c);
    PoolChecksInv(c, Boot(c));
    FreeCount(c, Boot(c));
  }

  lemma FreeCount(c: Config, s: State)
    requires Inv(c, s)
    ensures 0 <= s.nrFreeDslab <= |c.block|
  {
    hide SlabsOk, OneOpen, PutOk, FlushOk, InvGc, InvIndex, PoolOk;
    FreeBound(c, s.slabs, s.mem, s.disk);
  }

  /**
   An entry never names a free memory slab, a free disk slab, a spare slab or a lost slab, and names `gc_buffer_` only
   during a collection; it names an allocated slot, and no other entry names the same slot.
   */
  ghost predicate EntrySafe(c: Config, s: State, t: Tag) {
    && t in s.index && c.nrMslab > 0
    && var l := s.index[t];
       && l.sid < |s.slabs| && l.slot < s.slabs[l.sid].nrAlloc
       && !s.slabs[l.sid].link.MslabFree? && !s.slabs[l.sid].link.DslabFree? && !s.slabs[l.sid].link.OpsPool?
       && l.sid !in s.lost
       && (l.sid == c.Buffer() ==> s.gc.GLoad? || s.gc.GMove? || s.gc.GWritten?)
       && forall u :: u in s.index && s.index[u] == l ==> u == t
  }

  /** No dangling entry in any run. */
  lemma NoDangling(c: Config, s: State, t: Tag)
    requires t in s.index && Reachable(c, s)
    ensures EntrySafe(c, s, t)
  {
    hide Leads, OneOpen, PutOk, FlushOk, CollectOk, WrittenOk, CountsOk, MoveOk, InvPool, IndexOk, SlabsOk;
    LeadsInv(c, Whole, s);
    EntryAt(c, s, t);
    var l := s.index[t];
    SlabAt(c, s.slabs, s.mem, s.disk, l.sid);
    assert GcHolds(s.gc, l.sid, s.slabs[l.sid].role);
    forall u | u in s.index && s.index[u] == l ensures u == t { EntryAt(c, s, u); }
  }
}
