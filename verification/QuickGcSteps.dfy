/** Every step of quick GC, and of the collector's entry, keeps the invariant. */
module QuickGcSteps {
  import opened Types
  import opened Protocol
  import opened Invariant
  import opened Counting
  import opened Frames
  import opened GcFrames

  /** The steps that only move on: waking, reading the free slabs, choosing a quick pass, ending the selection. */
  lemma KeepsGcTurn(c: Config, s: State, s': State)
    requires Inv(c, s) && (GcWake(c, s, s') || GcRead(c, s, s') || GcChooseQuick(c, s, s') || GcSelected(c, s, s'))
    ensures Inv(c, s')
  {
    hide SlabsOk, OneOpen, PutOk, FlushOk, LostOk, InvIndex, GcHeld;
    KeepsPc(c, s, s');
  }

  // ---------- the demand of a quick GC ----------

  /** Between passes a disk slab on no list is lost or in the flusher's hands, and no slab is being dropped. */
  lemma OffLists(c: Config, s: State, x: nat)
    requires Fits(c, s) && SlabsOk(c, s.slabs, s.mem, s.disk) && FlushOk(c, s.slabs, s.mem, s.disk, s.flush)
    requires GcHeld(s.slabs, s.gc) && LostOk(c, s.slabs, s.lost) && (s.gc.GPlan? || s.gc.GSeen?) && x < c.Slabs()
    ensures c.IsDisk(x) && FamilyOf(s.slabs[x].link) == Elsewhere ==>
              x in s.lost || (!s.flush.FIdle? && !s.flush.FGotM? && x == s.flush.d)
    ensures FamilyOf(s.slabs[x].link) != Dropping && FamilyOf(s.slabs[x].link) != Reclaimed
  {
    assert SlabOk(c, x, s.slabs[x], ImageOf(c, s.mem, s.disk, x));
    assert GcHolds(s.gc, x, s.slabs[x].role);
    assert FlushHolds(s.flush, x, s.slabs[x].role);
  }

  lemma UnlinkedDisks(c: Config, s: State)
    requires Fits(c, s) && SlabsOk(c, s.slabs, s.mem, s.disk) && FlushOk(c, s.slabs, s.mem, s.disk, s.flush)
    requires GcHeld(s.slabs, s.gc) && LostOk(c, s.slabs, s.lost) && (s.gc.GPlan? || s.gc.GSeen?)
    ensures |Unlinked(c, s.slabs)| <= |s.lost| + 1
    ensures OfFamily(s.slabs, Dropping) == {} && OfFamily(s.slabs, Reclaimed) == {}
  {
    hide SlabsOk, FlushOk, GcHeld, LostOk;
    var held := if !s.flush.FIdle? && !s.flush.FGotM? then {s.flush.d} else {};
    forall x | 0 <= x < c.Slabs()
      ensures c.IsDisk(x) && FamilyOf(s.slabs[x].link) == Elsewhere ==> x in s.lost + held
      ensures FamilyOf(s.slabs[x].link) != Dropping && FamilyOf(s.slabs[x].link) != Reclaimed
    {
      OffLists(c, s, x);
    }
    SubsetSize(Unlinked(c, s.slabs), s.lost + held);
  }

  /** With no free index entry the collector woke up, so a full disk slab is there to drop. */
  lemma KeepsGcDropOne(c: Config, s: State, s': State)
    requires Inv(c, s) && GcDropOne(c, s, s')
    ensures Inv(c, s')
  {
    hide SlabsOk, OneOpen, PutOk, FlushOk, LostOk, InvIndex, SizesOk, CheckOpsPool;
    PoolChecksInv(c, s);
    assert |OfFamily(s.slabs, Dropping)| == 0 by { UnlinkedDisks(c, s); }
    KeepsPc(c, s, s');
  }

  /** The computed demand: at most 2.3 times the pool's maximum, less what is free and what is pooled. */
  lemma DemandBound(c: Config, low: nat, high: nat, ops: int, free: nat)
    requires 0 < ops <= c.maxOps
    ensures 10 * (BackToFree(QuickLow(c, low, high), free) + BackToOps(c, ops)) <=
            23 * c.maxOps - 10 * ops - 10 * free + 9
  {
  }

  /** What the demand aims at: twice the pool, up to its maximum, and 1.3 times the low water mark of free slabs. */
  lemma DemandGoal(c: Config, low': nat, ops: int, free: nat)
    requires 0 < ops <= c.maxOps
    ensures ops + BackToOps(c, ops) == Min(2 * ops, c.maxOps)
    ensures 10 * free <= 13 * low' ==> free + BackToFree(low', free) == 13 * low' / 10
    ensures 10 * free > 13 * low' ==> BackToFree(low', free) <= 0
  {
  }

  /**
   What a computed quick pass asks for, from the marks before it: the greatest high mark that is at most 1.5 times the
   old one and the maximum; the greatest low mark that is at most 1.5 times the old one, nine tenths of the new high one
   and the pool's maximum; twice the pool, up to its maximum; and 1.3 times the new low mark of free disk slabs, rounded
   toward the number that is free.
   */
  lemma PlanAsks(c: Config, s: State, s': State)
    requires GcPlan(c, s, s')
    ensures 2 * s'.high <= 3 * s.high && s'.high <= c.highMax && (2 * s'.high + 2 > 3 * s.high || s'.high == c.highMax)
    ensures 2 * s'.low <= 3 * s.low && 10 * s'.low <= 9 * s'.high && s'.low <= c.maxOps
    ensures 2 * s'.low + 2 > 3 * s.low || 10 * s'.low + 10 > 9 * s'.high || s'.low == c.maxOps
    ensures s'.gc.GSelect? && s'.gc.left == s'.gc.drop.toFree + s'.gc.drop.toOps
    ensures s'.gc.drop.toOps == Min(s.opsSize, c.maxOps - s.opsSize)
    ensures var free := s.nrFreeDslab + s'.gc.drop.toFree;
            if 10 * s.nrFreeDslab <= 13 * s'.low then 10 * free <= 13 * s'.low < 10 * free + 10
            else 10 * free - 10 < 13 * s'.low <= 10 * free
  {
    hide CheckOpsPool;
  }

  lemma PlanPool(c: Config, s: State, s': State)
    requires Inv(c, s) && GcPlan(c, s, s')
    ensures PoolOk(c, s'.gc, s.opsSize, SupplyOf(s.slabs), s.lost, s'.quickPasses)
    ensures !s'.fault
  {
    hide SlabsOk, OneOpen, PutOk, FlushOk, GcHeld, CollectOk, WrittenOk, LostOk, IndexOk, CountsOk, MoveOk, BackToFree,
         BackToOps, QuickLow, QuickHigh, CheckOpsPool;
    PoolChecksInv(c, s);
    assert 0 <= BackToOps(c, s.opsSize) <= c.maxOps - s.opsSize by { OpsShare(c, s.opsSize); }
    UnlinkedDisks(c, s);
    OnlyDisks(c, s.slabs, s.mem, s.disk);
    DiskSplit(c, s.slabs);
    DemandBound(c, s.low, s'.high, s.opsSize, s.nrFreeDslab);
  }

  lemma OpsShare(c: Config, ops: int)
    requires 0 < ops <= c.maxOps
    ensures 0 <= BackToOps(c, ops) <= c.maxOps - ops
  {
  }

  lemma KeepsGcPlan(c: Config, s: State, s': State)
    requires Inv(c, s) && GcPlan(c, s, s')
    ensures Inv(c, s')
  {
    hide SlabsOk, OneOpen, PutOk, FlushOk, LostOk, InvIndex, SizesOk, PoolOk;
    PlanPool(c, s, s');
    KeepsPc(c, s, s');
  }

  // ---------- select, evict, return ----------

  lemma DroppingRole(c: Config, s: State, x: nat)
    requires Fits(c, s) && x < c.Slabs() && SlabsOk(c, s.slabs, s.mem, s.disk) && GcHeld(s.slabs, s.gc)
    requires s.slabs[x].link.ToDrop?
    ensures s.slabs[x].role.Victim? || s.slabs[x].role.Evicted?
    ensures s.gc.GEvict? && x !in s.gc.done ==> s.slabs[x].role.Victim?
    ensures s.gc.GReturnOps? || s.gc.GReturnFree? ==> s.slabs[x].role.Evicted?
  {
    SlabAt(c, s.slabs, s.mem, s.disk, x);
    assert GcHolds(s.gc, x, s.slabs[x].role);
  }

  lemma SelectSlabs(c: Config, s: State, s': State, x: nat, ch: nat)
    requires Fits(c, s) && GcSelect(c, s, s', x, ch)
    requires InvSlabs(c, s)
    ensures Touches(c, s, s', x) && Readable(c, s, s', x) && InvSlabs(c, s')
  {
    hide SlabsOk, OneOpen, PutOk, FlushOk;
    FullIsStored(c, s, x);
    SlabAt(c, s.slabs, s.mem, s.disk, x);
    Bystanders(c, s, s', x);
  }

  lemma KeepsGcSelect(c: Config, s: State, s': State, x: nat, ch: nat)
    requires Inv(c, s) && GcSelect(c, s, s', x, ch)
    ensures Inv(c, s')
  {
    hide SlabsOk, OneOpen, PutOk, FlushOk, InvGc, IndexOk, CountsOk;
    SelectSlabs(c, s, s', x, ch);
    assert InvIndex(c, s') by { IndexStands(c, s, s', x); }
    SizesKept(s.slabs, x, s'.slabs[x], s.size, s'.size, s.nrFreeDslab, s.nrFullDslab + s.collections, s.opsSize);
  }

  lemma EvictHeld(slabs: seq<Slab>, x: nat, sl: Slab, g: GcPc)
    requires x < |slabs| && GcHeld(slabs, g) && g.GEvict? && sl.role.Evicted?
    ensures GcHeld(slabs[x := sl], GEvict(g.drop, g.done + {x}))
  {
    var slabs' := slabs[x := sl];
    forall y | 0 <= y < |slabs'| ensures GcHolds(GEvict(g.drop, g.done + {x}), y, slabs'[y].role) {
      assert GcHolds(g, y, slabs[y].role);
    }
  }

  lemma EvictSlabs(c: Config, s: State, s': State, x: nat)
    requires Fits(c, s) && GcEvict(c, s, s', x)
    requires InvSlabs(c, s)
    ensures Touches(c, s, s', x) && InvSlabs(c, s') && s.slabs[x].role.Victim?
  {
    hide SlabsOk, OneOpen, PutOk, FlushOk, GcHeld, LostOk, StoredTags;
    DroppingRole(c, s, x);
    SlabAt(c, s.slabs, s.mem, s.disk, x);
    Bystanders(c, s, s', x);
    EvictHeld(s.slabs, x, s'.slabs[x], s.gc);
    LostKept(c, s.slabs, x, s'.slabs[x], s.lost);
  }

  /** Deleting by stored key reaches every entry that points into the slab. */
  lemma EvictsAll(c: Config, s: State, x: nat)
    requires Fits(c, s) && c.IsDisk(x)
    requires IndexOk(c, s.slabs, s.mem, s.disk, s.index, s.latest, s.put)
    ensures Live(s.index, x) <= StoredTags(c, s.slabs[x].nrAlloc, s.disk[c.BlockOf(x)].recs)
  {
    var doomed := StoredTags(c, s.slabs[x].nrAlloc, s.disk[c.BlockOf(x)].recs);
    forall t | t in s.index && s.index[t].sid == x ensures t in doomed {
      assert EntryOk(c, s.slabs, s.mem, s.disk, s.latest, s.put, t, s.index[t]);
      assert c.TagOf(s.disk[c.BlockOf(x)].recs[s.index[t].slot].key) == t;
    }
  }

  lemma DropCounts(slabs: seq<Slab>, x: nat, sl: Slab, index: map<Tag, Loc>, gone: set<Tag>, p: PutPc)
    requires x < |slabs| && CountsOk(slabs, index, p) && Live(index, x) <= gone && Pending(p, x) == 0 && sl.nrUsed == 0
    ensures CountsOk(slabs[x := sl], index - gone, p)
  {
    LiveAfterDrop(index, gone);
    assert Live(index - gone, x) == {};
  }

  lemma EvictIndex(c: Config, s: State, s': State, x: nat)
    requires Fits(c, s) && Fits(c, s') && GcEvict(c, s, s', x) && Pending(s.put, x) == 0
    requires InvIndex(c, s)
    ensures InvIndex(c, s')
  {
    hide IndexOk, StoredTags, CountsOk;
    var doomed := StoredTags(c, s.slabs[x].nrAlloc, s.disk[c.BlockOf(x)].recs);
    EvictsAll(c, s, x);
    assert IndexOk(c, s'.slabs, s'.mem, s'.disk, s'.index, s'.latest, s'.put) by {
      assert forall t :: t in s'.index ==> t !in Live(s.index, x);
      IndexShrinks(c, s, s');
    }
    DropCounts(s.slabs, x, s'.slabs[x], s.index, doomed, s.put);
    assert |Tags(s'.index)| == |Tags(s.index)| - |s.index.Keys * doomed| by { LiveAfterDrop(s.index, doomed); }
  }

  lemma EvictPool(c: Config, s: State, s': State, x: nat)
    requires GcEvict(c, s, s', x) && InvPool(c, s)
    ensures InvPool(c, s')
  {
    SizesKept(s.slabs, x, s'.slabs[x], s.size, s'.size, s.nrFreeDslab, s.nrFullDslab + s.collections, s.opsSize);
  }

  lemma KeepsGcEvict(c: Config, s: State, s': State, x: nat)
    requires Inv(c, s) && GcEvict(c, s, s', x)
    ensures Inv(c, s')
  {
    hide SlabsOk, OneOpen, FlushOk, InvGc, IndexOk, CountsOk, EntriesOk, MoveOk, StoredTags, SizesOk, PoolOk;
    EvictSlabs(c, s, s', x);
    EvictIndex(c, s, s', x);
    EvictPool(c, s, s', x);
  }

  lemma KeepsGcEvicted(c: Config, s: State, s': State)
    requires Inv(c, s) && GcEvicted(c, s, s')
    ensures Inv(c, s')
  {
    hide SlabsOk, OneOpen, PutOk, FlushOk, LostOk, InvIndex, SizesOk;
    forall x | 0 <= x < |s.slabs| ensures !s.slabs[x].role.Victim? {
      assert GcHolds(s.gc, x, s.slabs[x].role);
      SlabAt(c, s.slabs, s.mem, s.disk, x);
      assert s.slabs[x].link == ToDrop <==> x in Members(s.slabs, ToDrop);
    }
    KeepsPc(c, s, s');
  }

  lemma ReturnHeld(slabs: seq<Slab>, x: nat, sl: Slab, g: GcPc, g': GcPc)
    requires x < |slabs| && GcHeld(slabs, g) && (sl.role.Spare? || sl.role.DFree?)
    requires (g.GReturnOps? && g'.GReturnOps?) || (g.GReturnFree? && g'.GReturnFree?)
    ensures GcHeld(slabs[x := sl], g')
  {
    var slabs' := slabs[x := sl];
    forall y | 0 <= y < |slabs'| ensures GcHolds(g', y, slabs'[y].role) {
      assert GcHolds(g, y, slabs[y].role);
    }
  }

  /** A dropped slab that is handed to the pool or to the free lists has no entries left. */
  lemma ReturnSlabs(c: Config, s: State, s': State, x: nat)
    requires GcReturnOps(c, s, s', x) || GcReturnFree(c, s, s', x)
    requires InvSlabs(c, s)
    ensures Touches(c, s, s', x) && Readable(c, s, s', x) && InvSlabs(c, s') && !LiveRole(s.slabs[x].role)
  {
    hide SlabsOk, OneOpen, PutOk, FlushOk, GcHeld, LostOk, Bump;
    DroppingRole(c, s, x);
    SlabAt(c, s.slabs, s.mem, s.disk, x);
    Bystanders(c, s, s', x);
    ReturnHeld(s.slabs, x, s'.slabs[x], s.gc, s'.gc);
    LostKept(c, s.slabs, x, s'.slabs[x], s.lost);
  }

  lemma KeepsGcReturnOps(c: Config, s: State, s': State, x: nat)
    requires Inv(c, s) && GcReturnOps(c, s, s', x)
    ensures Inv(c, s')
  {
    hide SlabsOk, OneOpen, PutOk, FlushOk, InvGc, IndexOk, CountsOk, SizesOk, Shaped;
    ReturnSlabs(c, s, s', x);
    assert InvIndex(c, s') by {
      NoneLive(c, s, x);
      IndexStands(c, s, s', x);
    }
    SizesKept(s.slabs, x, s'.slabs[x], s.size, s'.size, s.nrFreeDslab, s.nrFullDslab + s.collections, s.opsSize);
  }

  lemma KeepsGcReturnFree(c: Config, s: State, s': State, x: nat)
    requires Inv(c, s) && GcReturnFree(c, s, s', x)
    ensures Inv(c, s')
  {
    hide SlabsOk, OneOpen, PutOk, FlushOk, InvGc, IndexOk, CountsOk;
    ReturnSlabs(c, s, s', x);
    assert InvIndex(c, s') by {
      NoneLive(c, s, x);
      IndexStands(c, s, s', x);
    }
    SizesKept(s.slabs, x, s'.slabs[x], s.size, s'.size, s.nrFreeDslab, s.nrFullDslab + s.collections, s.opsSize);
    FreeBound(c, s'.slabs, s'.mem, s'.disk);
  }

  lemma LoseSlabs(c: Config, s: State, s': State, x: nat)
    requires Fits(c, s) && GcLose(c, s, s', x)
    requires InvSlabs(c, s)
    ensures Touches(c, s, s', x) && Readable(c, s, s', x) && InvSlabs(c, s') && s.slabs[x].role.Evicted?
    ensures x !in s.lost
  {
    hide SlabsOk, OneOpen, PutOk, FlushOk;
    DroppingRole(c, s, x);
    SlabAt(c, s.slabs, s.mem, s.disk, x);
    Bystanders(c, s, s', x);
  }

  lemma KeepsGcLose(c: Config, s: State, s': State, x: nat)
    requires Inv(c, s) && GcLose(c, s, s', x)
    ensures Inv(c, s')
  {
    hide SlabsOk, OneOpen, PutOk, FlushOk, InvGc, IndexOk, CountsOk, SizesOk;
    LoseSlabs(c, s, s', x);
    assert InvIndex(c, s') by {
      NoneLive(c, s, x);
      IndexStands(c, s, s', x);
    }
    SizesKept(s.slabs, x, s'.slabs[x], s.size, s'.size, s.nrFreeDslab, s.nrFullDslab + s.collections, s.opsSize);
  }

  lemma NoneDropping(slabs: seq<Slab>)
    ensures OfFamily(slabs, Dropping) == Members(slabs, ToDrop)
  {
    assert forall l :: FamilyOf(l) == Dropping <==> l == ToDrop;
  }

  lemma KeepsGcReturnedOps(c: Config, s: State, s': State)
    requires Inv(c, s) && GcReturnedOps(c, s, s')
    ensures Inv(c, s')
  {
    hide SlabsOk, OneOpen, PutOk, FlushOk, LostOk, InvIndex, SizesOk;
    NoneDropping(s.slabs);
    KeepsPc(c, s, s');
  }

  lemma KeepsGcQuickDone(c: Config, s: State, s': State)
    requires Inv(c, s) && GcQuickDone(c, s, s')
    ensures Inv(c, s')
  {
    hide SlabsOk, OneOpen, PutOk, FlushOk, LostOk, InvIndex, SizesOk, CheckOpsPool, Shaped;
    PoolChecksInv(c, s);
    forall x | 0 <= x < |s.slabs| ensures !s.slabs[x].role.Evicted? {
      SlabAt(c, s.slabs, s.mem, s.disk, x);
      assert x !in Members(s.slabs, ToDrop);
    }
    KeepsPc(c, s, s');
  }
}
