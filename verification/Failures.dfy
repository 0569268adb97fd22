/**
 Runs that end badly, on SSDs with one channel and slabs of one slot: a quick pass loses its slab and the whole cache
 waits; a normal pass leaves a full slab behind a collector that cannot wake; the same stalls a Put although most of the
 SSD is free; the collector drops the slab linked last and leaves the one that would help; a quick pass wants more slabs
 than exist. Lists are used as the program uses them: last in, first out.
 */
module Failures {
  import opened Types
  import opened Protocol
  import opened Invariant
  import opened Frames
  import opened Runs
  import opened Stretches
  import opened Collector
  import opened Progress
  import opened Recovery
  import opened Stalls
  import DiskPools
  import Space
  import View
  import Witness

  // ---------- the configurations ----------

  /** Slabs of 128 bytes with a header of 44 and one slot of 80; the digest of a key is its length. */
  function Tiny(mem: nat, blocks: nat, pool: nat, entries: nat, low: nat, high: nat): Config {
    Config(mem, seq(blocks, (i: nat) => i), 1, blocks, 128, 44, 8, [80], entries, 1,
           (k: Key) => 0, (k: Key) => |k|, pool, pool, low, high, 1, 11)
  }

  /** `c` is a `Tiny` configuration that starts up. */
  ghost predicate IsTiny(c: Config) {
    && c == Tiny(c.nrMslab, |c.block|, c.maxOps, c.nrEntries, c.low, c.high)
    && c.nrMslab >= 2 && 0 < c.maxOps < |c.block| && c.nrEntries >= 1
  }

  /** A pair that fits in the slot. */
  predicate FitsSlot(k: Key, v: Value) { |k| + |v| <= 72 }

  lemma TinyValid(c: Config)
    requires IsTiny(c)
    ensures c.Valid() && OneSlotClass(c, 0)
  {
    assert c.MinEntries(0) == 0 && c.MinEntries(1) == 1;
  }

  lemma TinyBoots(c: Config)
    requires IsTiny(c)
    ensures Bootable(c) && Reachable(c, Boot(c))
    ensures Boot(c).nrFreeDslab == |c.block| - c.maxOps && Boot(c).opsSize == c.maxOps
  {
    hide Boot, Leads, BootSlabs, OfFamily;
    TinyValid(c);
    Witness.OneChannelBoots(c);
    LeadsStart(c, Whole, Boot(c));
    BootCounts(c);
  }

  lemma BootCounts(c: Config)
    requires c.Valid()
    ensures Boot(c).nrFreeDslab == |OfFamily(BootSlabs(c), FreeLists)|
    ensures Boot(c).opsSize == |OfFamily(BootSlabs(c), Pool)|
  {
    hide OfFamily, BootSlabs, Members;
  }

  lemma TinyDisk(c: Config, x: nat)
    requires IsTiny(c) && c.IsDisk(x)
    ensures c.Valid() && c.Channel(x) == 0 && c.BlockOf(x) == x - c.nrMslab
  {
    TinyValid(c);
    Witness.OneChannel(c, x);
  }

  lemma TinyClass(c: Config, k: Key, v: Value)
    requires IsTiny(c) && FitsSlot(k, v)
    ensures ClassFor(c, k, v) == 0
  {
  }

  /** The fronts of the lists at start-up: what was linked last. */
  function TopMem(c: Config): int { c.nrMslab - 2 }

  function TopFree(c: Config): int { c.Slabs() - 1 }

  function TopPool(c: Config): int { c.nrMslab + c.maxOps - 1 }

  lemma TinySlabs(c: Config)
    requires IsTiny(c)
    ensures c.Valid() && |BootSlabs(c)| == c.Slabs()
    ensures forall x :: 0 <= x <= TopMem(c) ==> BootSlabs(c)[x] == BlankSlab(MslabFree, MFree)
    ensures BootSlabs(c)[c.nrMslab - 1] == BlankSlab(NoList, BufferIdle)
    ensures forall x :: c.nrMslab <= x <= TopPool(c) ==> BootSlabs(c)[x] == BlankSlab(OpsPool(0), Spare)
    ensures forall x :: TopPool(c) < x <= TopFree(c) ==> BootSlabs(c)[x] == BlankSlab(DslabFree(0), DFree)
  {
    hide BootSlab;
    TinyValid(c);
    forall x | 0 <= x < c.Slabs()
      ensures BootSlabs(c)[x] ==
              if x < c.Buffer() then BlankSlab(MslabFree, MFree)
              else if x == c.Buffer() then BlankSlab(NoList, BufferIdle)
              else if x <= TopPool(c) then BlankSlab(OpsPool(0), Spare)
              else BlankSlab(DslabFree(0), DFree)
    {
      Witness.OneChannelSlab(c, x);
    }
  }

  /** At start-up, but for one slab, nothing is open and nothing is being dropped. */
  lemma NoneOn(c: Config, d: nat, sl: Slab, l: ListId)
    requires IsTiny(c) && c.Valid() && d < c.Slabs() && sl.link != l && (l.Partial? || l.ToDrop?)
    ensures Members(BootSlabs(c)[d := sl], l) == {}
  {
    hide BootSlabs;
    TinySlabs(c);
  }

  // ---------- one pair put and flushed ----------

  /** The entry that a Put just made is the only one that a flush of its slab moves. */
  lemma MovesOne(c: Config, s: State, k: Key, v: Value, m: nat)
    requires Fits(c, s) && m < c.nrMslab && s.index == map[c.TagOf(k) := Loc(m, 0)] && s.slabs[m].nrAlloc == 1
    requires s.mem[m].recs == [Rec(k, v)]
    ensures MovedBy(c, s, m) == {c.TagOf(k)}
    ensures forall d :: RedirectIndex(s.index, MovedBy(c, s, m), d) == map[c.TagOf(k) := Loc(d, 0)]
  {
  }

  ghost predicate StoredOnce(c: Config, s: State, k: Key, v: Value) {
    && IsTiny(c) && c.Valid() && Fits(c, s)
    && var d := TopFree(c);
       s == Boot(c).(slabs := BootSlabs(c)[d := OneSlot(c, 0, 1, DslabFull(0), Stored)], mem := s.mem, disk := s.disk,
                     index := map[c.TagOf(k) := Loc(d, 0)], nrFreeEntry := c.nrEntries - 1, size := s.size,
                     nrFreeDslab := |c.block| - c.maxOps - 1, nrFullDslab := 1, latest := s.latest)
       && s.disk[|c.block| - 1] == Image(80, [Rec(k, v)])
  }

  lemma StoreOnce(c: Config, k: Key, v: Value) returns (s: State)
    requires IsTiny(c) && FitsSlot(k, v)
    ensures StoredOnce(c, s, k, v) && Reachable(c, s)
  {
    hide Leads, BootSlabs, MovedBy, RedirectIndex, OfFamily, ClassFor;
    var m, d := TopMem(c), TopFree(c);
    TinyValid(c);
    TinyBoots(c);
    TinySlabs(c);
    TinyClass(c, k, v);
    TinyDisk(c, d);
    Witness.NonePartial(c, 0);
    var s1 := PutOne(c, Boot(c), k, v, m, d);
    MovesOne(c, s1, k, v, m);
    s := FlushOne(c, s1, m, d, 0);
    assert s.slabs == BootSlabs(c)[d := s.slabs[d]];
  }

  // ---------- a lost slab, and nobody can move ----------

  lemma OneTag(c: Config, r: Rec)
    requires c.buckets > 0
    ensures StoredTags(c, 1, [r]) == {c.TagOf(r.key)}
  {
    assert [r][0] == r;
    forall i | 0 <= i < 1 && i < |[r]| ensures [r][i] == r { }
  }

  /** Exhausting the entries makes the collector drop the only full slab, which ends on no list. */
  lemma LoseOnce(c: Config, k: Key, v: Value) returns (s: State)
    requires IsTiny(c) && c.nrEntries == 1 && FitsSlot(k, v)
    ensures Reachable(c, s) && c.Valid() && Fits(c, s)
    ensures s == Boot(c).(slabs := BootSlabs(c)[TopFree(c) := BlankSlab(NoList, Lost)], mem := s.mem, disk := s.disk,
                          size := s.size, nrFreeDslab := |c.block| - c.maxOps - 1, quickPasses := 1,
                          lost := {TopFree(c)}, latest := s.latest, fault := s.fault)
  {
    hide Leads, BootSlabs, OfFamily, StoredTags, Members;
    var d, t := TopFree(c), c.TagOf(k);
    var s1 := StoreOnce(c, k, v);
    TinySlabs(c);
    TinyDisk(c, d);
    NoneOn(c, d, s1.slabs[d], ToDrop);
    assert s1.disk[c.BlockOf(d)].recs == [Rec(k, v)] && s1.slabs[d].nrAlloc == 1;
    s := DropPass(c, Whole, s1, d);
    OneTag(c, Rec(k, v));
    assert s1.index - {t} == map[] && s1.index.Keys * {t} == {t};
    assert s.slabs == BootSlabs(c)[d := BlankSlab(NoList, Lost)];
  }

  /**
   Two Puts after that: the first one fills the index and a memory slab, which the flusher takes without finding a disk
   slab; the second one waits for an entry. The collector sleeps for good.
   */
  lemma Deadlock(c: Config, k: Key, v: Value, k': Key, v': Value) returns (s: State)
    requires IsTiny(c) && c.nrMslab >= 3 && c.nrEntries == 1 && |c.block| == c.maxOps + 1
    requires FitsSlot(k, v) && FitsSlot(k', v') && |k| != |k'|
    ensures Reachable(c, s) && Asleep(c, s) && |s.lost| == 1
    ensures s.put.PWaiting? && s.nrFreeEntry == 0 && s.flush.FGotM? && s.nrFreeDslab == 0
  {
    hide Leads, BootSlabs, OfFamily, ClassFor;
    var m := TopMem(c);
    var s1 := LoseOnce(c, k, v);
    TinySlabs(c);
    TinyBoots(c);
    TinyValid(c);
    TinyClass(c, k, v);
    TinyClass(c, k', v');
    NoneOn(c, TopFree(c), s1.slabs[TopFree(c)], Partial(0));
    var s2 := PutOne(c, s1, k, v, m, m - 1);
    assert Members(s2.slabs, Partial(0)) == {};
    var s3 := Fill(c, s2, k', v', m - 1);
    var s4 := PutWaits(c, s3, k', v', m - 1);
    s := FlushTakes(c, s4, m);
  }

  // ---------- a full slab and a collector that cannot wake ----------

  /** The same key put again and flushed to the next disk slab: the first slab has no entry any more. */
  lemma StoreTwice(c: Config, k: Key, v: Value, v': Value) returns (s: State)
    requires IsTiny(c) && |c.block| >= c.maxOps + 2 && FitsSlot(k, v) && FitsSlot(k, v')
    ensures Reachable(c, s) && c.Valid() && Fits(c, s)
    ensures var d := TopFree(c);
            s == Boot(c).(slabs := BootSlabs(c)[d := OneSlot(c, 0, 0, DslabFull(0), Stored)]
                                               [d - 1 := OneSlot(c, 0, 1, DslabFull(0), Stored)],
                          mem := s.mem, disk := s.disk, index := s.index, nrFreeEntry := c.nrEntries - 1,
                          size := s.size, nrFreeDslab := |c.block| - c.maxOps - 2, nrFullDslab := 2, latest := s.latest)
  {
    hide Leads, BootSlabs, OfFamily, ClassFor, MovedBy, RedirectIndex;
    var m, d := TopMem(c), TopFree(c);
    var s1 := StoreOnce(c, k, v);
    TinySlabs(c);
    TinyValid(c);
    TinyClass(c, k, v');
    TinyDisk(c, d - 1);
    NoneOn(c, d, s1.slabs[d], Partial(0));
    var s2 := PutOne(c, s1, k, v', m, d);
    assert s2.index == map[c.TagOf(k) := Loc(m, 0)];
    MovesOne(c, s2, k, v', m);
    s := FlushOne(c, s2, m, d - 1, 0);
    assert s.slabs == BootSlabs(c)[d := s.slabs[d]][d - 1 := s.slabs[d - 1]];
  }

  /** A normal pass that collects the two full slabs, up to the point where it has unlinked them. */
  lemma CollectTwo(c: Config, s: State) returns (s': State)
    requires IsTiny(c) && |c.block| >= c.maxOps + 2 && Fits(c, s) && s.gc.GNormal? && s.opsSize == c.maxOps
    requires s.nrFullDslab == 2 && s.collections == 0
    requires var d := TopFree(c);
             && s.slabs[d] == OneSlot(c, 0, 0, DslabFull(0), Stored)
             && s.slabs[d - 1] == OneSlot(c, 0, 1, DslabFull(0), Stored)
             && s.slabs[TopPool(c)] == BlankSlab(OpsPool(0), Spare)
    requires Reachable(c, s)
    ensures Reachable(c, s') && Tail(c, s') && s'.gc.GLink? && OffEntries(s, s') && OffMemory(c, s, s')
    ensures s'.index == s.index
  {
    hide Leads;
    var d, o := TopFree(c), TopPool(c);
    TinyDisk(c, d);
    TinyDisk(c, d - 1);
    TinyDisk(c, o);
    var s3 := NormalScan(c, s, d, d - 1);
    var s4 := NormalPick(c, s3, d, d - 1);
    var s5 := NormalTake(c, s4, o);
    var s6 := NormalUnlink(c, s5);
    s' := NormalUnlink(c, s6);
  }

  /** The only collection of the pass has unlinked its sources; nothing it does from here on counts a full slab. */
  ghost predicate Tail(c: Config, s: State) {
    && s.nrFullDslab == 0 && s.collections == 1
    && !s.gc.GAwake? && !s.gc.GSeen? && !s.gc.GPlan? && !InDrop(s.gc) && !s.gc.GNormal? && !s.gc.GTook?
    && (s.gc.GLink? ==> s.gc.j == |s.gc.picks|)
    && (s.gc.GLink? || s.gc.GLoad? || s.gc.GMove? || s.gc.GWritten? ==> s.gc.pass.cid + 1 >= |c.classes|)
    && (s.gc.GPack? ==> s.gc.pass.cid >= |c.classes| && s.gc.picks == [])
  }

  lemma TailStep(c: Config, s: State, l: Step, s': State)
    requires Tail(c, s) && NormalNext(c, s, l, s')
    ensures Tail(c, s')
  {
    hide AfterScan, AfterTake, AfterLinkOps, AfterUnlink, OfFamily, CheckOpsPool, Redirected, RedirectIndex, AppendRec,
         CopyHeader, SeenSum, Bump, Shaped;
  }

  /** The end of the pass, step by step. */
  lemma {:induction false} TailPath(c: Config, states: seq<State>, steps: seq<Step>, n: nat)
    requires n <= |steps| && GcPath(c, states, steps) && Tail(c, states[0]) && Reachable(c, states[0])
    requires forall i :: 0 <= i < |steps| ==> !states[i].gc.GIdle?
    ensures Tail(c, states[n]) && Reachable(c, states[n])
    ensures OffEntries(states[0], states[n]) && OffMemory(c, states[0], states[n])
    ensures states[n].index.Keys == states[0].index.Keys
  {
    hide Leads, InvSlabs, InvIndex, InvPool, PutNext, FlushNext, QuickNext, NormalNext, Shaped;
    if n > 0 {
      var s, l, s' := states[n - 1], steps[n - 1], states[n];
      TailPath(c, states, steps, n - 1);
      LeadsInv(c, Whole, s);
      SameKeys(c, s, l, s');
      if QuickNext(c, s, l, s') { QuickLeaves(c, s, l, s'); }
      NormalLeaves(c, s, l, s');
      TailStep(c, s, l, s');
      Extend(c, s, l, s');
    }
  }

  /** Normal GC shows every entry's record as before, so it keeps the entries. */
  lemma SameKeys(c: Config, s: State, l: Step, s': State)
    requires GcNext(c, s, l, s') && QuickAt(s.gc) == false && Inv(c, s)
    ensures s'.index.Keys == s.index.Keys
  {
    hide InvSlabs, InvIndex, InvPool, QuickNext, NormalNext, View.Shown;
    if QuickNext(c, s, l, s') { QuickLeaves(c, s, l, s'); }
    View.StepEffect(c, s, l, s');
    View.LookupIsAnswer(c, s, "");
    View.LookupIsAnswer(c, s', "");
  }

  /** From there the pass ends with one full slab, which the counter does not know of. */
  lemma PassEnds(c: Config, s: State) returns (s': State)
    requires Tail(c, s) && s.gc.GLink? && Reachable(c, s)
    ensures Reachable(c, s') && s'.gc.GIdle? && OffEntries(s, s') && OffMemory(c, s, s')
    ensures s'.index.Keys == s.index.Keys
    ensures s'.nrFullDslab == 0 && s'.collections == |OfFamily(s'.slabs, FullLists)| == 1
  {
    hide Leads, InvSlabs, InvIndex, InvPool, OfFamily, GcNext, Shaped;
    LeadsInv(c, Whole, s);
    var states, steps := FinishPass(c, s);
    TailPath(c, states, steps, |steps|);
    s' := states[|steps|];
    LeadsInv(c, Whole, s');
    Space.PoolHas(c, s');
  }

  /** Only memory slabs before `gc_buffer_` wait to be flushed. */
  lemma NoneQueued(c: Config, s: State)
    requires InvSlabs(c, s) && forall x :: 0 <= x <= TopMem(c) && x < |s.slabs| ==> !s.slabs[x].link.MslabFull?
    ensures Members(s.slabs, MslabFull) == {}
  {
    hide InvIndex, InvPool, SlabsOk, OneOpen, PutOk, FlushOk, InvGc;
    forall x | 0 <= x < |s.slabs| ensures !s.slabs[x].link.MslabFull? { SlabAt(c, s.slabs, s.mem, s.disk, x); }
  }

  /**
   The drift: a normal pass ends with a full slab on the lists, and the collector cannot wake, because the counter it
   waits for does not know of the slab.
   */
  lemma FullAndAsleep(c: Config, k: Key, v: Value, v': Value) returns (s: State)
    requires IsTiny(c) && |c.block| >= c.maxOps + 2 + c.low && c.nrEntries >= 2 && FitsSlot(k, v) && FitsSlot(k, v')
    ensures Reachable(c, s) && s.gc.GIdle? && |OfFamily(s.slabs, FullLists)| == 1
    ensures forall s' :: !GcWake(c, s, s')
  {
    hide Leads, BootSlabs, OfFamily, Tail;
    var s1 := StoreTwice(c, k, v, v');
    TinySlabs(c);
    TinyBoots(c);
    var s2 := Waken(c, Whole, s1);
    var s3 := NormalChoose(c, s2);
    var s4 := CollectTwo(c, s3);
    s := PassEnds(c, s4);
  }

  // ---------- a Put that waits although the SSD is almost empty ----------

  /**
   One full slab without an entry, one free entry, and a normal pass about to scan. The memory slabs up to `m` are free.
   */
  ghost predicate Chosen(c: Config, s: State, m: int) {
    && IsTiny(c) && |c.block| >= c.maxOps + 2 && c.nrEntries == 1 && Fits(c, s) && 0 <= m <= TopMem(c)
    && s.index == map[] && s.nrFreeEntry == 1 && s.put.PIdle? && s.flush.FIdle? && s.gc.GNormal? && s.lost == {}
    && s.opsSize == c.maxOps && s.nrFullDslab == 1 && s.collections == 0 && s.nrFreeDslab > 0
    && s.slabs[TopFree(c)] == OneSlot(c, 0, 0, DslabFull(0), Stored)
    && s.slabs[TopFree(c) - 1] == BlankSlab(DslabFree(0), DFree)
    && s.slabs[TopPool(c)] == BlankSlab(OpsPool(0), Spare)
    && Members(s.slabs, Partial(0)) == {}
    && forall x :: 0 <= x <= m ==> s.slabs[x] == BlankSlab(MslabFree, MFree)
  }

  /** The entry is deleted; the collector reads that one is free, and chooses a normal pass. */
  lemma ForgetAndChoose(c: Config, k: Key, v: Value) returns (s: State)
    requires IsTiny(c) && |c.block| >= c.maxOps + 2 + c.low && c.nrEntries == 1 && FitsSlot(k, v)
    ensures Reachable(c, s) && Chosen(c, s, TopMem(c))
  {
    hide Leads, BootSlabs, OfFamily;
    var d := TopFree(c);
    var s1 := StoreOnce(c, k, v);
    TinySlabs(c);
    TinyBoots(c);
    var s2 := DeleteOne(c, s1, k, d);
    assert s2.index == map[];
    var s3 := Waken(c, Whole, s2);
    s := NormalChoose(c, s3);
    assert s.slabs == BootSlabs(c)[d := s.slabs[d]];
    NoneOn(c, d, s.slabs[d], Partial(0));
  }

  /** Meanwhile the key is put again, by way of slab `m`, and flushed; a Put of another key waits for an entry. */
  lemma PutAndWait(c: Config, s: State, m: nat, k: Key, v: Value, k': Key, v': Value) returns (s': State)
    requires Chosen(c, s, m) && Reachable(c, s) && FitsSlot(k, v) && FitsSlot(k', v') && |k| != |k'|
    ensures Reachable(c, s') && Fits(c, s') && Waits(s') && s'.gc.GNormal? && s'.flush.FIdle? && s'.lost == {}
    ensures s'.opsSize == c.maxOps && s'.nrFullDslab == 2 && s'.collections == 0 && s'.index.Keys == {c.TagOf(k)}
    ensures forall x :: 0 <= x <= m ==> !s'.slabs[x].link.MslabFull?
    ensures forall x :: m < x <= TopMem(c) ==> s'.slabs[x] == s.slabs[x] && s'.mem[x] == s.mem[x]
    ensures var d := TopFree(c);
            && s'.slabs[d] == OneSlot(c, 0, 0, DslabFull(0), Stored)
            && s'.slabs[d - 1] == OneSlot(c, 0, 1, DslabFull(0), Stored)
            && s'.slabs[TopPool(c)] == BlankSlab(OpsPool(0), Spare)
  {
    hide Leads, OfFamily, ClassFor, MovedBy, RedirectIndex;
    var d := TopFree(c);
    TinyValid(c);
    TinyClass(c, k, v);
    TinyClass(c, k', v');
    TinyDisk(c, d - 1);
    var s1 := PutOne(c, s, k, v, m, d);
    MovesOne(c, s1, k, v, m);
    var s2 := FlushOne(c, s1, m, d - 1, 0);
    assert Members(s2.slabs, Partial(0)) == {} by { NonePartial(s, s2); }
    var s3 := Fill(c, s2, k', v', m);
    s' := PutWaits(c, s3, k', v', m);
  }

  lemma NonePartial(s: State, s': State)
    requires Members(s.slabs, Partial(0)) == {} && |s'.slabs| == |s.slabs|
    requires forall x :: 0 <= x < |s.slabs| ==> s'.slabs[x] == s.slabs[x] || !s'.slabs[x].link.Partial?
    ensures Members(s'.slabs, Partial(0)) == {}
  {
    forall x | 0 <= x < |s.slabs| ensures x !in Members(s'.slabs, Partial(0)) {
      assert x !in Members(s.slabs, Partial(0));
    }
  }

  /**
   The pass compacts both slabs into one that the counter does not know of. The Put waits, the flusher has nothing to
   do, the collector cannot wake although it is not `Asleep` and disk slabs are free: only a Delete can happen.
   */
  lemma Stall(c: Config, k: Key, v: Value, v': Value, k'': Key, v'': Value) returns (s: State)
    requires IsTiny(c) && |c.block| >= c.maxOps + 2 + c.low && c.nrEntries == 1
    requires FitsSlot(k, v) && FitsSlot(k, v') && FitsSlot(k'', v'') && |k| != |k''|
    ensures Reachable(c, s) && Quiet(s)
    ensures |OfFamily(s.slabs, FullLists)| == 1 && s.nrFreeDslab > 0 && s.lost == {} && !Asleep(c, s)
    ensures !Recovers(c, s) && forall l, s' :: Next(c, s, l, s') ==> l.DeleteS?
  {
    hide Leads, OfFamily, Tail, Boot, InvSlabs, InvIndex, InvPool, Recovers, Next, CanFill, OneSlot, Members;
    var s1 := ForgetAndChoose(c, k, v);
    var s2 := PutAndWait(c, s1, TopMem(c), k, v', k'', v'');
    var s3 := CollectTwo(c, s2);
    s := PassEnds(c, s3);
    LeadsInv(c, Whole, s);
    NoneQueued(c, s);
    QuietExactlyWhen(c, s);
    StallRoom(c, s);
  }

  lemma StallRoom(c: Config, s: State)
    requires s.gc.GIdle? && s.flush.FIdle? && s.lost == {} && |c.block| >= c.maxOps + 2
    requires s.nrFullDslab == 0 && s.collections == 1 && Inv(c, s)
    ensures s.nrFreeDslab > 0 && !Asleep(c, s)
  {
    hide InvSlabs, InvIndex, InvPool, OfFamily, Members;
    Space.PoolHas(c, s);
    Space.ConservedBy(c, s);
    NothingInTransit(c, s);
  }

  // ---------- the slab linked last decides ----------

  /** A slab is published, and its only key deleted before the flush. */
  lemma QueueDead(c: Config, s: State, gone: Key, v: Value) returns (s': State)
    requires Chosen(c, s, TopMem(c)) && c.nrMslab >= 3 && Reachable(c, s) && FitsSlot(gone, v)
    ensures Chosen(c, s', TopMem(c) - 1) && Reachable(c, s')
    ensures s'.slabs[TopMem(c)] == OneSlot(c, 0, 0, MslabFull, MFull) && s'.mem[TopMem(c)].recs == [Rec(gone, v)]
  {
    hide Leads, OfFamily, ClassFor;
    var m := TopMem(c);
    TinyValid(c);
    TinyClass(c, gone, v);
    var s1 := PutOne(c, s, gone, v, m, TopFree(c));
    s' := DeleteOne(c, s1, gone, m);
    assert s'.index == map[];
    NonePartial(s, s');
  }

  /** A slab on a free list is blank. */
  lemma FreeSlab(c: Config, s: State) returns (d: nat)
    requires s.nrFreeDslab > 0 && Inv(c, s)
    ensures c.IsDisk(d) && s.slabs[d] == BlankSlab(DslabFree(c.Channel(d)), DFree)
  {
    hide InvIndex, PoolOk, SlabsOk, OneOpen, PutOk, FlushOk, InvGc;
    d :| d in OfFamily(s.slabs, FreeLists);
    SlabAt(c, s.slabs, s.mem, s.disk, d);
  }

  /** The queued slab, which has no entry left, is flushed last. */
  lemma FlushLast(c: Config, s: State, k: Key, gone: Key, v: Value) returns (s': State, a: nat, b: nat)
    requires IsTiny(c) && |c.block| >= c.maxOps + 2 && |k| != |gone|
    requires Waits(s) && s.gc.GIdle? && s.flush.FIdle? && s.lost == {} && Inv(c, s) && Reachable(c, s)
    requires s.nrFullDslab == 0 && s.collections == |OfFamily(s.slabs, FullLists)| == 1 && s.index.Keys == {c.TagOf(k)}
    requires var m := TopMem(c);
             && s.slabs[m] == OneSlot(c, 0, 0, MslabFull, MFull) && s.mem[m].recs == [Rec(gone, v)]
             && forall x :: 0 <= x < m ==> !s.slabs[x].link.MslabFull?
    ensures Reachable(c, s') && Quiet(s') && s'.nrFullDslab == 1 && s'.collections == 1 && a != b
    ensures OfFamily(s.slabs, FullLists) == {a} && OfFamily(s'.slabs, FullLists) == {a, b} && !Frees(c, s', b)
    ensures c.IsDisk(a) && c.IsDisk(b)
  {
    hide Leads, InvSlabs, InvIndex, InvPool, MovedBy, FlushKnows;
    var m := TopMem(c);
    TinyValid(c);
    KnowsOf(c, s);
    StallRoom(c, s);
    b := FreeSlab(c, s);
    TinyDisk(c, b);
    a :| a in OfFamily(s.slabs, FullLists);
    SingleIs(OfFamily(s.slabs, FullLists), a);
    NotDropping(c, s, a);
    s' := FlushOne(c, s, m, b, 0);
    MovesNone(c, s, m, k, gone, v);
    LeadsInv(c, Whole, s');
    NoneQueued(c, s');
    OneTag(c, Rec(gone, v));
    assert OfFamily(s'.slabs, FullLists) == {a, b};
  }

  lemma SingleIs(full: set<nat>, a: nat)
    requires |full| == 1 && a in full
    ensures full == {a}
  {
    assert |full - {a}| == 0;
  }

  lemma MovesNone(c: Config, s: State, m: nat, k: Key, gone: Key, v: Value)
    requires Fits(c, s) && m < c.nrMslab && s.mem[m].recs == [Rec(gone, v)] && s.index.Keys == {c.TagOf(k)}
    requires c.TagOf(k) != c.TagOf(gone)
    ensures MovedBy(c, s, m) == {} && forall d :: RedirectIndex(s.index, {}, d) == s.index
  {
  }

  /**
   Two full slabs, of which the collector gets to drop one. Some order frees an entry, but the program's does not: its
   only channel has slab `b` in front of slab `a`, because `b` was linked when `a` was the only full slab.
   */
  lemma LastLinkedStalls(c: Config, k: Key, v: Value, gone: Key, k': Key, v': Value)
    returns (s: State, s': State, a: nat, b: nat)
    requires IsTiny(c) && c.nrMslab >= 3 && |c.block| >= c.maxOps + 2 + c.low && c.nrEntries == 1
    requires FitsSlot(k, v) && FitsSlot(gone, v) && FitsSlot(k', v') && |k| != |k'| && |k| != |gone|
    ensures Reachable(c, s) && OfFamily(s.slabs, FullLists) == {a}
    ensures Reachable(c, s') && Quiet(s') && OfFamily(s'.slabs, FullLists) == {a, b} && s'.collections == 1 && a != b
    ensures Recovers(c, s') && OrderStalls(c, s', [b, a]) && !OrderRecovers(c, s', [b, a])
    ensures DiskPools.InTurn([DiskPools.List([b, a], 2)], 0, [b, a], Home(c))
  {
    hide Leads, OfFamily, Tail, Boot, InvSlabs, InvIndex, InvPool, Recovers, OrderStalls, OrderRecovers, OneSlot,
         Frees, Quiet, Members, DiskPools.InTurn;
    var s1 := ForgetAndChoose(c, k, v);
    var s2 := QueueDead(c, s1, gone, v);
    var s3 := PutAndWait(c, s2, TopMem(c) - 1, k, v, k', v');
    var s4 := CollectTwo(c, s3);
    s := PassEnds(c, s4);
    LeadsInv(c, Whole, s);
    s', a, b := FlushLast(c, s, k, gone, v);
    QuietExactlyWhen(c, s');
    assert multiset([b, a]) == multiset({a, b});
    OrderExactlyWhen(c, s', [b, a]);
    assert |{a, b}| == 2;
    TwoInTurn(c, a, b);
  }

  lemma TwoInTurn(c: Config, a: nat, b: nat)
    requires IsTiny(c) && c.IsDisk(a) && c.IsDisk(b)
    ensures DiskPools.InTurn([DiskPools.List([b, a], 2)], 0, [b, a], Home(c))
  {
    TinyDisk(c, a);
    TinyDisk(c, b);
    var lists := [DiskPools.List([b, a], 2)];
    assert [b, a][..0] == [] && [b, a][..1] == [b] && [b][..0] == [];
    assert DiskPools.ListsAfter(lists, [b], Home(c)) == [DiskPools.List([a], 1)];
  }

  // ---------- the smallest SSDs on which this happens ----------

  /** Two blocks, one of them in the pool, and one index entry. */
  function Locked(): Config { Tiny(3, 2, 1, 1, 1, 2) }

  lemma LockedWaits() returns (s: State)
    ensures Reachable(Locked(), s) && Asleep(Locked(), s) && |s.lost| == 1
    ensures s.put.PWaiting? && s.nrFreeEntry == 0 && s.flush.FGotM? && s.nrFreeDslab == 0
  {
    hide Leads, Asleep;
    s := Deadlock(Locked(), "a", "x", "bb", "y");
  }

  /** Four blocks, one of them in the pool. */
  function Drifting(): Config { Tiny(2, 4, 1, 2, 1, 3) }

  lemma DriftingSleeps() returns (s: State)
    ensures Reachable(Drifting(), s) && s.gc.GIdle? && |OfFamily(s.slabs, FullLists)| == 1
    ensures forall s' :: !GcWake(Drifting(), s, s')
  {
    hide Leads, GcWake, OfFamily;
    s := FullAndAsleep(Drifting(), "a", "x", "y");
  }

  /** A hundred blocks, ten of them in the pool, and one index entry. */
  function Roomy100(): Config { Tiny(2, 100, 10, 1, 5, 50) }

  lemma RoomyStalls() returns (s: State)
    ensures Reachable(Roomy100(), s) && Waits(s) && s.nrFreeDslab > 0 && !Asleep(Roomy100(), s)
    ensures !Recovers(Roomy100(), s)
  {
    hide Leads, Asleep, Recovers;
    s := Stall(Roomy100(), "a", "x", "y", "bb", "z");
  }

  /** The same with a third memory slab. */
  function Ordered(): Config { Tiny(3, 100, 10, 1, 5, 50) }

  lemma OrderedStalls() returns (s: State, s': State, a: nat, b: nat)
    ensures Reachable(Ordered(), s) && OfFamily(s.slabs, FullLists) == {a}
    ensures Reachable(Ordered(), s') && Quiet(s') && OfFamily(s'.slabs, FullLists) == {a, b} && s'.collections == 1
    ensures Recovers(Ordered(), s') && OrderStalls(Ordered(), s', [b, a]) && !OrderRecovers(Ordered(), s', [b, a])
  {
    hide Leads, OfFamily, Recovers, OrderStalls, OrderRecovers, Quiet, DiskPools.InTurn;
    s, s', a, b := LastLinkedStalls(Ordered(), "a", "x", "bb", "ccc", "y");
  }

  // ---------- a demand that cannot be met ----------

  /** Five blocks, three of them in the pool. */
  function Cramped(): Config { Tiny(2, 5, 3, 5, 3, 4) }

  /** Quick GC wants two slabs while one is full: its selection loop never ends, and soon finds every list empty. */
  lemma SelectionStarves(k: Key, v: Value) returns (s: State, s': State)
    requires FitsSlot(k, v)
    ensures Reachable(Cramped(), s) && s.gc.GSelect? && !SelectionEnds(Cramped(), s)
    ensures Reachable(Cramped(), s') && Starved(s')
  {
    hide Leads, BootSlabs, InvSlabs, InvIndex, InvPool, SelectionEnds;
    var c := Cramped();
    var s1 := StoreOnce(c, k, v);
    TinySlabs(c);
    TinyBoots(c);
    TinyDisk(c, 6);
    var s2 := Waken(c, Whole, s1);
    s := PlanTwo(c, s2);
    assert OfFamily(s.slabs, FullLists) == {6};
    LeadsInv(c, Whole, s);
    SelectionEndsExactlyWhen(c, s);
    s' := SelectLast(c, s);
  }

  lemma PlanTwo(c: Config, s: State) returns (s': State)
    requires c == Cramped() && Fits(c, s) && s.gc == GSeen(1) && s.nrFreeDslab == 1 && s.nrFreeEntry == 4
    requires s.low == 3 && s.high == 4 && s.opsSize == 3
    requires Reachable(c, s)
    ensures s' == s.(low := s'.low, high := s'.high, quickPasses := s.quickPasses + 1, fault := s'.fault,
                     gc := GSelect(2, Drop(2, 0, true)))
    ensures Reachable(c, s')
  {
    hide Leads, PutNext, FlushNext, NormalNext, CheckOpsPool, GcDropOne, GcSelect, GcEvict, GcReturnOps, GcLose,
         GcReturnFree, GcQuickDone;
    var s1 := s.(gc := GPlan);
    assert GcChooseQuick(c, s, s1);
    Extend(c, s, GcChooseQuickS, s1);
    s' := AfterPlan(c, s1);
    Extend(c, s1, GcPlanS, s');
  }

  lemma SelectLast(c: Config, s: State) returns (s': State)
    requires c == Cramped() && Fits(c, s) && s.gc == GSelect(2, Drop(2, 0, true)) && s.slabs[6].link == DslabFull(0)
    requires forall x :: 0 <= x < |s.slabs| && x != 6 ==> !s.slabs[x].link.DslabFull?
    requires Reachable(c, s)
    ensures Starved(s') && Reachable(c, s')
  {
    hide Leads, PutNext, FlushNext, NormalNext, GcDropOne, GcPlan, GcEvict, GcReturnOps, GcLose, GcReturnFree,
         GcQuickDone;
    s' := AfterSelect(c, s, 6, 0);
    Extend(c, s, GcSelectS(6, 0), s');
  }
}
