/** The results are about something: a bootable configuration exists, and a fresh cache serves its first Put. */
module Witness {
  import opened Types
  import opened Protocol
  import opened Invariant
  import opened Counting
  import opened Runs
  import opened Stretches
  import Safety

  // ---------- configurations with one channel ----------

  lemma OneChannel(c: Config, x: nat)
    requires c.Valid() && c.nrChannels == 1 && c.IsDisk(x)
    ensures c.Channel(x) == 0 && RankInChannel(c, x) == x - c.nrMslab
  {
    ChannelBound(c, x);
    forall y | 0 <= y < x && c.IsDisk(y) ensures c.Channel(y) == 0 { ChannelBound(c, y); }
    BelowIs(x);
    BelowIs(c.nrMslab);
    assert EarlierInChannel(c, x) == Below(x) - Below(c.nrMslab);
    assert Below(c.nrMslab) <= Below(x);
  }

  /** On one channel the first disk slabs go to the pool and the others are free. */
  lemma OneChannelSlab(c: Config, x: nat)
    requires c.Valid() && c.nrChannels == 1 && x < c.Slabs()
    ensures BootSlabs(c)[x] ==
            if x < c.Buffer() then BlankSlab(MslabFree, MFree)
            else if x == c.Buffer() then BlankSlab(NoList, BufferIdle)
            else if x < c.nrMslab + c.opsPerChannel then BlankSlab(OpsPool(0), Spare)
            else BlankSlab(DslabFree(0), DFree)
  {
    hide RankInChannel;
    if c.IsDisk(x) { OneChannel(c, x); }
    assert BootSlabs(c)[x] == BootSlab(c, x);
  }

  lemma OneChannelBoots(c: Config)
    requires c.Valid() && c.nrChannels == 1 && 0 < c.opsPerChannel == c.maxOps <= |c.block|
    ensures Bootable(c)
    ensures |OfFamily(BootSlabs(c), FreeLists)| == |c.block| - c.maxOps
  {
    hide BootSlab;
    var slabs, mid := BootSlabs(c), c.nrMslab + c.opsPerChannel;
    forall x | 0 <= x < c.Slabs()
      ensures FamilyOf(slabs[x].link) == Pool <==> c.nrMslab <= x < mid
      ensures FamilyOf(slabs[x].link) == FreeLists <==> mid <= x
    {
      OneChannelSlab(c, x);
    }
    BelowIs(c.nrMslab);
    BelowIs(mid);
    BelowIs(c.Slabs());
    assert OfFamily(slabs, Pool) == Below(mid) - Below(c.nrMslab) && Below(c.nrMslab) <= Below(mid);
    assert OfFamily(slabs, FreeLists) == Below(c.Slabs()) - Below(mid) && Below(mid) <= Below(c.Slabs());
  }

  // ---------- a first Put ----------

  /** Two memory slabs, two blocks on one channel, one class of two slots; all keys collide. */
  function Small(): Config {
    Config(2, [0, 1], 1, 2, 100, 20, 8, [40], 10, 1, (k: Key) => 0, (k: Key) => 0, 1, 1, 1, 1, 1, 11)
  }

  lemma SmallBoots()
    ensures Bootable(Small())
  {
    var c := Small();
    assert c.MinEntries(0) == 0 && c.MinEntries(1) == 2;
    OneChannelBoots(c);
  }

  /** Put is about to take slot 0 of memory slab 0; nothing is indexed. */
  ghost predicate Ready(c: Config, s: State, k: Key, v: Value) {
    && Fits(c, s) && c.nrMslab >= 2 && s.put.PAlloc? && s.put.k == k && s.put.v == v
    && s.slabs[0].link == Partial(s.put.cid) && s.slabs[0].nrAlloc == 0 && s.mem[0].recs == []
    && s.index == map[] && s.nrFreeEntry == c.nrEntries
  }

  lemma BeginAndOpen(c: Config, k: Key, v: Value) returns (s1: State, s2: State)
    requires c.nrMslab >= 2 && c.Valid() && ClassFor(c, k, v) < |c.classes|
    ensures Fits(c, Boot(c)) && PutBegin(c, Boot(c), s1, k, v)
    ensures Fits(c, s1) && PutOpen(c, s1, s2, 0) && Ready(c, s2, k, v)
  {
    hide OfFamily, RankInChannel, ClassFor;
    var s0, cid := Boot(c), ClassFor(c, k, v);
    s1 := s0.(put := PAlloc(k, v, cid));
    s2 := WithSlab(s1, 0, s1.slabs[0].(cid := cid, slotSize := c.classes[cid], nrSlots := c.SlotsOf(cid),
                                       link := Partial(cid), role := Open))
          .(size := Bump(s1.size, MslabFree, -1), mem := s1.mem[0 := Image(c.classes[cid], [])]);
    assert s0.slabs[0] == BootSlab(c, 0);
    NonePartial(c, cid);
  }

  lemma AllocAndWrite(c: Config, s2: State, k: Key, v: Value) returns (s3: State, s4: State, s5: State)
    requires Ready(c, s2, k, v) && c.nrEntries > 0
    ensures PutAlloc(c, s2, s3, 0, Rec(k, v)) && Fits(c, s3) && PutWrite(c, s3, s4) && Fits(c, s4) && PutMiss(c, s4, s5)
    ensures s4.put == PWritten(k, v, 0, 0)
  {
    s3 := AfterAlloc(c, s2, 0, Rec(k, v));
    s4 := s3.(mem := s3.mem[0 := WriteRec(s3.mem[0], 0, Rec(k, v))], put := PWritten(k, v, 0, 0));
    s5 := Insert(c, s4);
  }

  /** A first Put, of any pair that fits, in a fresh cache: published after five steps, and found. */
  lemma FirstPut(c: Config, k: Key, v: Value) returns (states: seq<State>, steps: seq<Step>)
    requires c.nrMslab >= 2 && Bootable(c) && ClassFor(c, k, v) < |c.classes|
    ensures IsRun(c, states, steps) && |steps| == 5
    ensures Inv(c, states[5]) && Lookup(c, states[5], k) == Found(v)
  {
    hide Inv, Boot, Lookup, Ready, ClassFor, PutBegin, PutOpen, PutAlloc, PutWrite, PutMiss;
    EntriesAtBoot(c, ClassFor(c, k, v));
    var s0 := Boot(c);
    var s1, s2 := BeginAndOpen(c, k, v);
    ReadyFits(c, s2, k, v);
    var s3, s4, s5 := AllocAndWrite(c, s2, k, v);
    states := [s0, s1, s2, s3, s4, s5];
    steps := [PutBeginS(k, v), PutOpenS(0), PutAllocS(0, Rec(k, v)), PutWriteS, PutMissS];
    assert Next(c, s0, steps[0], s1) && Next(c, s1, steps[1], s2) && Next(c, s2, steps[2], s3);
    assert Next(c, s3, steps[3], s4) && Next(c, s4, steps[4], s5);
    RunInv(c, states, steps, 4);
    Safety.PutIsSeen(c, s4, PutMissS, s5, k);
  }

  lemma ReadyFits(c: Config, s: State, k: Key, v: Value)
    requires Ready(c, s, k, v)
    ensures Fits(c, s)
  {
  }

  /** The start-up check leaves at least one entry. */
  lemma EntriesAtBoot(c: Config, cid: nat)
    requires c.Valid() && cid < |c.classes|
    ensures c.nrEntries > 0
  {
    var n := |c.classes|;
    assert c.MinEntries(n) == c.MinEntries(n - 1) + c.slabSize / c.classes[n - 1];
    assert c.slabSize / c.classes[n - 1] >= 1;
  }

  lemma NonePartial(c: Config, cid: nat)
    requires c.Valid()
    ensures Members(BootSlabs(c), Partial(cid)) == {}
  {
    hide RankInChannel;
    var slabs := BootSlabs(c);
    forall x | 0 <= x < |slabs| ensures slabs[x].link != Partial(cid) { assert slabs[x] == BootSlab(c, x); }
  }
}
