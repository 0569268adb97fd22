/** What the other threads keep while the collector steps, and facts about slabs that every collector step uses. */
module GcFrames {
  import opened Types
  import opened Protocol
  import opened Invariant
  import opened Counting
  import opened Frames

  /** Outside a collection every slab on a full list is stored data. */
  lemma FullIsStored(c: Config, s: State, x: nat)
    requires Fits(c, s) && x < c.Slabs() && SlabsOk(c, s.slabs, s.mem, s.disk) && GcHeld(s.slabs, s.gc)
    requires s.slabs[x].link.DslabFull?
    requires !s.gc.GLink? && !s.gc.GLoad? && !s.gc.GMove? && !s.gc.GWritten?
    ensures s.slabs[x].role.Stored?
  {
    SlabAt(c, s.slabs, s.mem, s.disk, x);
    assert GcHolds(s.gc, x, s.slabs[x].role);
  }

  lemma OnlyDisks(c: Config, slabs: seq<Slab>, mem: seq<Image>, disk: seq<Image>)
    requires Shaped(c, slabs, mem, disk) && SlabsOk(c, slabs, mem, disk)
    ensures forall x :: 0 <= x < |slabs| && FamilyOf(slabs[x].link) != Elsewhere ==> c.IsDisk(x)
  {
    forall x | 0 <= x < |slabs| && FamilyOf(slabs[x].link) != Elsewhere ensures c.IsDisk(x) {
      assert SlabOk(c, x, slabs[x], ImageOf(c, mem, disk, x));
    }
  }

  lemma FreeBound(c: Config, slabs: seq<Slab>, mem: seq<Image>, disk: seq<Image>)
    requires Shaped(c, slabs, mem, disk) && SlabsOk(c, slabs, mem, disk)
    ensures |OfFamily(slabs, FreeLists)| <= |c.block|
  {
    OnlyDisks(c, slabs, mem, disk);
    DiskSplit(c, slabs);
  }

  // ---------- the pool by channels ----------

  function PoolBelow(slabs: seq<Slab>, n: nat): set<nat> {
    set x | 0 <= x < |slabs| && slabs[x].link.OpsPool? && slabs[x].link.channel < n
  }

  lemma {:induction false} PoolAddsUp(slabs: seq<Slab>, size: map<ListId, int>, n: nat)
    requires forall l :: Counted(l) ==> SizeOf(size, l) == |Members(slabs, l)|
    ensures PoolSizes(size, n) == |PoolBelow(slabs, n)|
  {
    if n == 0 {
      assert PoolBelow(slabs, 0) == {};
    } else {
      PoolAddsUp(slabs, size, n - 1);
      assert PoolBelow(slabs, n) == PoolBelow(slabs, n - 1) + Members(slabs, OpsPool(n - 1));
      assert PoolBelow(slabs, n - 1) !! Members(slabs, OpsPool(n - 1));
      assert Counted(OpsPool(n - 1));
    }
  }

  /** The pool's slabs are on the lists of the existing channels, so its own check passes. */
  lemma PoolChecks(c: Config, s: State)
    requires Fits(c, s) && SlabsOk(c, s.slabs, s.mem, s.disk)
    requires SizesOk(s.slabs, s.size, s.nrFreeDslab, s.nrFullDslab + s.collections, s.opsSize)
    ensures CheckOpsPool(c, s)
  {
    hide SlabsOk;
    PoolAddsUp(s.slabs, s.size, c.nrChannels);
    forall x | 0 <= x < |s.slabs| && s.slabs[x].link.OpsPool? ensures s.slabs[x].link.channel < c.nrChannels {
      SlabAt(c, s.slabs, s.mem, s.disk, x);
      ChannelBound(c, x);
    }
    assert PoolBelow(s.slabs, c.nrChannels) == OfFamily(s.slabs, Pool);
    assert forall ch :: Counted(OpsPool(ch));
  }

  lemma PoolChecksInv(c: Config, s: State)
    requires Inv(c, s)
    ensures CheckOpsPool(c, s)
  {
    hide SlabsOk, OneOpen, PutOk, FlushOk, InvGc, InvIndex, SizesOk, PoolOk, CheckOpsPool;
    PoolChecks(c, s);
  }

  /** What the collector does not own. */
  ghost predicate Rest(c: Config, s: State) {
    && Fits(c, s)
    && SlabsOk(c, s.slabs, s.mem, s.disk) && OneOpen(s.slabs) && PutOk(c, s.slabs, s.mem, s.put)
    && FlushOk(c, s.slabs, s.mem, s.disk, s.flush)
  }

  /** Put and the flusher stand by while the collector works on slab `x`. */
  lemma Bystanders(c: Config, s: State, s': State, x: nat)
    requires Touches(c, s, s', x) && s'.put == s.put && s'.flush == s.flush
    requires !Taking(s.slabs[x].role) && !Taking(s'.slabs[x].role)
    requires !FlushRole(s.slabs[x].role) && !FlushRole(s'.slabs[x].role)
    requires SlabOk(c, x, s'.slabs[x], ImageOf(c, s'.mem, s'.disk, x))
    requires Rest(c, s)
    ensures Rest(c, s')
  {
    hide SlabOk, SlabsOk, OneOpen, PutOk, FlushOk;
    SlabsKept(c, s, s', x);
    OpenKept(s.slabs, x, s'.slabs[x]);
    PutKept(c, s, s', x);
    FlushKept(c, s, s', x);
  }

  // ---------- steps that only move the collector's position ----------

  ghost predicate PcMoves(s: State, s': State) {
    s' == s.(gc := s'.gc, low := s'.low, high := s'.high, quickPasses := s'.quickPasses)
  }

  /** Whatever slab may be in the collector's hands at `g` may be there at `g'`. */
  ghost predicate HoldsOn(g: GcPc, g': GcPc) { forall x: nat, r: Role :: GcHolds(g, x, r) ==> GcHolds(g', x, r) }

  lemma KeepsPc(c: Config, s: State, s': State)
    requires Inv(c, s) && PcMoves(s, s') && !s'.gc.GMove? && !s'.gc.GWritten?
    requires (HoldsOn(s.gc, s'.gc) || GcHeld(s.slabs, s'.gc)) && CollectOk(c, s.slabs, s'.gc)
    requires PoolOk(c, s'.gc, s.opsSize, SupplyOf(s.slabs), s.lost, s'.quickPasses)
    requires s'.quickPasses >= s.quickPasses
    ensures Inv(c, s')
  {
    hide SlabsOk, OneOpen, PutOk, FlushOk, GcHolds, CollectOk, LostOk, IndexOk, CountsOk, SizesOk, PoolOk;
  }
}
