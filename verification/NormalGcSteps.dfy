/** Every step of normal GC keeps the invariant. */
module NormalGcSteps {
  import opened Types
  import opened Protocol
  import opened Invariant
  import opened Counting
  import opened Frames
  import opened GcFrames

  // ---------- choosing the slabs of a collection ----------

  /** The steps that only move on: choosing a normal pass, ending the refill, and the trim. */
  lemma KeepsGcTurn(c: Config, s: State, s': State)
    requires Inv(c, s)
    requires GcChooseNormal(c, s, s') || GcRefilled(c, s, s') || GcTrimMiss(c, s, s') || GcTrimmed(c, s, s')
    ensures Inv(c, s')
  {
    hide SlabsOk, OneOpen, PutOk, FlushOk, LostOk, InvIndex, SizesOk, GcHeld;
    KeepsPc(c, s, s');
  }

  lemma KeepsGcScan(c: Config, s: State, s': State, cands: set<nat>)
    requires Inv(c, s) && GcScan(c, s, s', cands)
    ensures Inv(c, s')
    ensures |cands| <= 3 * s.opsSize && forall x :: x in cands ==> x in OfFamily(s.slabs, FullLists)
  {
    hide SlabsOk, OneOpen, PutOk, FlushOk, LostOk, InvIndex, SizesOk, Shaped;
    forall x | x in cands ensures s.slabs[x].role.Stored? && s.slabs[x].cid != -1 {
      FullIsStored(c, s, x);
      SlabAt(c, s.slabs, s.mem, s.disk, x);
    }
    KeepsPc(c, s, s');
  }

  lemma SeenSumSnoc(picks: seq<Pick>, p: Pick)
    ensures SeenSum(picks + [p]) == SeenSum(picks) + p.seen
  {
    assert (picks + [p])[..|picks|] == picks;
  }

  lemma PickCollect(c: Config, s: State, x: nat)
    requires Fits(c, s) && SlabsOk(c, s.slabs, s.mem, s.disk) && s.gc.GPack? && x in s.gc.pass.cands && x < c.Slabs()
    requires s.gc.pass.cid < |c.classes| && s.slabs[x].cid == s.gc.pass.cid
    requires s.slabs[x].nrUsed + SeenSum(s.gc.picks) <= s.slabs[x].nrSlots
    requires CollectOk(c, s.slabs, s.gc)
    ensures CollectOk(c, s.slabs, GPack(s.gc.pass.(cands := s.gc.pass.cands - {x}),
                                        s.gc.picks + [Pick(x, s.slabs[x].nrUsed)]))
    ensures s.slabs[x].nrUsed >= 0
  {
    SlabAt(c, s.slabs, s.mem, s.disk, x);
    SeenSumSnoc(s.gc.picks, Pick(x, s.slabs[x].nrUsed));
  }

  lemma KeepsGcPick(c: Config, s: State, s': State, x: nat)
    requires Inv(c, s) && GcPick(c, s, s', x)
    ensures Inv(c, s')
    ensures s'.gc.GPack? && x !in s'.gc.pass.cands && SeenSum(s'.gc.picks) <= s.slabs[x].nrSlots
  {
    hide SlabsOk, OneOpen, PutOk, FlushOk, LostOk, InvIndex, SizesOk, CollectOk, SeenSum;
    SeenSumSnoc(s.gc.picks, Pick(x, s.slabs[x].nrUsed));
    PickCollect(c, s, x);
    KeepsPc(c, s, s');
  }

  lemma KeepsGcSkip(c: Config, s: State, s': State)
    requires Inv(c, s) && GcSkip(c, s, s')
    ensures Inv(c, s')
    ensures |s.gc.picks| < 2 && s'.gc.GPack? && s'.gc.picks == [] && s'.gc.pass.cid == s.gc.pass.cid + 1
  {
    hide SlabsOk, OneOpen, PutOk, FlushOk, LostOk, InvIndex, SizesOk, GcHeld;
    KeepsPc(c, s, s');
  }

  // ---------- taking and linking the spare slab ----------

  /** The collection's slabs other than `x` are as before. */
  lemma PicksAside(c: Config, slabs: seq<Slab>, x: nat, sl: Slab, pass: Pass, picks: seq<Pick>, lo: nat, r1: Role,
                   r2: Role)
    requires c.Valid() && |slabs| == c.Slabs() && x < |slabs| && lo <= |picks|
    requires slabs[x].role != r1 && slabs[x].role != r2 && slabs[x].role != Stored
    requires PicksHave(slabs, picks, 0, lo, r1) && PicksHave(slabs, picks, lo, |picks|, r2)
    requires PicksOk(c, slabs, pass.cid, picks) && CandsOk(c, slabs, pass, picks)
    ensures PicksHave(slabs[x := sl], picks, 0, lo, r1) && PicksHave(slabs[x := sl], picks, lo, |picks|, r2)
    ensures PicksOk(c, slabs[x := sl], pass.cid, picks) && CandsOk(c, slabs[x := sl], pass, picks)
  {
    hide SeenSum;
    forall k | 0 <= k < |picks| ensures picks[k].sid != x {
      assert HasRole(slabs, picks[k].sid, if k < lo then r1 else r2);
    }
  }

  lemma TakeSlabs(c: Config, s: State, s': State, x: nat, ch: nat)
    requires Fits(c, s) && GcTake(c, s, s', x, ch)
    requires InvSlabs(c, s)
    ensures Touches(c, s, s', x) && Readable(c, s, s', x) && InvSlabs(c, s')
  {
    hide SlabsOk, OneOpen, PutOk, FlushOk, PicksOk, CandsOk, LostOk;
    SlabAt(c, s.slabs, s.mem, s.disk, x);
    Bystanders(c, s, s', x);
    PicksAside(c, s.slabs, x, s'.slabs[x], s.gc.pass, s.gc.picks, |s.gc.picks|, Stored, Stored);
    LostKept(c, s.slabs, x, s'.slabs[x], s.lost);
  }

  lemma KeepsGcTake(c: Config, s: State, s': State, x: nat, ch: nat)
    requires Inv(c, s) && GcTake(c, s, s', x, ch)
    ensures Inv(c, s')
  {
    hide SlabsOk, OneOpen, PutOk, FlushOk, GcHeld, CollectOk, WrittenOk, LostOk, IndexOk, CountsOk, SizesOk;
    TakeSlabs(c, s, s', x, ch);
    assert InvIndex(c, s') by { IndexStands(c, s, s', x); }
    SizesKept(s.slabs, x, s'.slabs[x], s.size, s'.size, s.nrFreeDslab, s.nrFullDslab + s.collections, s.opsSize);
  }

  /** The scan of the pool never comes back empty-handed. */
  lemma SpareThere(c: Config, s: State)
    requires InvPool(c, s) && s.opsSize > 0
    ensures OfFamily(s.slabs, Pool) != {}
  {
    hide PoolOk;
  }

  lemma LinkOpsSlabs(c: Config, s: State, s': State)
    requires Fits(c, s) && GcLinkOps(c, s, s')
    requires InvSlabs(c, s)
    ensures Touches(c, s, s', s.gc.ops) && Readable(c, s, s', s.gc.ops) && InvSlabs(c, s')
    ensures s.slabs[s.gc.ops].link == NoList && s.slabs[s.gc.ops].Blank()
  {
    hide SlabsOk, OneOpen, PutOk, FlushOk, PicksOk, CandsOk, LostOk;
    var x := s.gc.ops;
    SlabAt(c, s.slabs, s.mem, s.disk, x);
    Bystanders(c, s, s', x);
    PicksAside(c, s.slabs, x, s'.slabs[x], s.gc.pass, s.gc.picks, |s.gc.picks|, Stored, Stored);
    LostKept(c, s.slabs, x, s'.slabs[x], s.lost);
  }

  lemma KeepsGcLinkOps(c: Config, s: State, s': State)
    requires Inv(c, s) && GcLinkOps(c, s, s')
    ensures Inv(c, s')
  {
    hide SlabsOk, OneOpen, PutOk, FlushOk, GcHeld, CollectOk, WrittenOk, LostOk, IndexOk, CountsOk, SizesOk, Shaped;
    LinkOpsSlabs(c, s, s');
    var x := s.gc.ops;
    assert InvIndex(c, s') by { IndexStands(c, s, s', x); }
    SizesKept(s.slabs, x, s'.slabs[x], s.size, s'.size, s.nrFreeDslab, s.nrFullDslab + s.collections, s.opsSize);
  }

  // ---------- unlinking the sources ----------

  /** The `j`-th chosen slab changes role; the others keep theirs. */
  lemma PickAdvances(c: Config, slabs: seq<Slab>, sl: Slab, pass: Pass, picks: seq<Pick>, j: nat, r1: Role, r2: Role)
    requires c.Valid() && |slabs| == c.Slabs() && j < |picks| && picks[j].sid < |slabs|
    requires sl.cid == slabs[picks[j].sid].cid && sl.nrUsed <= slabs[picks[j].sid].nrUsed && sl.role == r1
    requires PicksHave(slabs, picks, 0, j, r1) && PicksHave(slabs, picks, j, |picks|, r2)
    requires PicksOk(c, slabs, pass.cid, picks) && CandsOk(c, slabs, pass, picks)
    ensures var slabs' := slabs[picks[j].sid := sl];
            && PicksHave(slabs', picks, 0, j + 1, r1) && PicksHave(slabs', picks, j + 1, |picks|, r2)
            && PicksOk(c, slabs', pass.cid, picks) && CandsOk(c, slabs', pass, picks)
  {
    hide SeenSum;
  }

  lemma UnlinkHeld(slabs: seq<Slab>, sl: Slab, g: GcPc)
    requires g.GLink? && g.j < |g.picks| && g.picks[g.j].sid < |slabs| && sl.role.Source?
    requires GcHeld(slabs, g)
    ensures GcHeld(slabs[g.picks[g.j].sid := sl], GLink(g.pass, g.picks, g.ops, g.j + 1))
  {
    var x, g' := g.picks[g.j].sid, GLink(g.pass, g.picks, g.ops, g.j + 1);
    assert InPicks(g'.picks, 0, g'.j, x);
    var slabs' := slabs[x := sl];
    forall y | 0 <= y < |slabs'| ensures GcHolds(g', y, slabs'[y].role) {
      assert GcHolds(g, y, slabs[y].role);
    }
  }

  lemma UnlinkSlabs(c: Config, s: State, s': State)
    requires Fits(c, s) && GcUnlink(c, s, s')
    requires InvSlabs(c, s)
    ensures var x := s.gc.picks[s.gc.j].sid;
            && Touches(c, s, s', x) && Readable(c, s, s', x)
            && s.slabs[x].link == DslabFull(c.Channel(x))
    ensures InvSlabs(c, s')
  {
    hide SlabsOk, OneOpen, PutOk, FlushOk, PicksOk, CandsOk, GcHeld, LostOk;
    var x := s.gc.picks[s.gc.j].sid;
    assert HasRole(s.slabs, x, Stored);
    SlabAt(c, s.slabs, s.mem, s.disk, x);
    Bystanders(c, s, s', x);
    UnlinkHeld(s.slabs, s'.slabs[x], s.gc);
    LostKept(c, s.slabs, x, s'.slabs[x], s.lost);
    PickAdvances(c, s.slabs, s'.slabs[x], s.gc.pass, s.gc.picks, s.gc.j, Source, Stored);
  }

  lemma KeepsGcUnlink(c: Config, s: State, s': State)
    requires Inv(c, s) && GcUnlink(c, s, s')
    ensures Inv(c, s')
  {
    hide SlabsOk, OneOpen, PutOk, FlushOk, GcHeld, CollectOk, WrittenOk, LostOk, IndexOk, CountsOk, SizesOk;
    UnlinkSlabs(c, s, s');
    var x := s.gc.picks[s.gc.j].sid;
    assert InvIndex(c, s') by { IndexStands(c, s, s', x); }
    SizesKept(s.slabs, x, s'.slabs[x], s.size, s'.size, s.nrFreeDslab, s.nrFullDslab + s.collections, s.opsSize);
  }

  // ---------- moving live slots into the buffer ----------

  lemma InitHeld(slabs: seq<Slab>, b: nat, sl: Slab, g: GcPc, g': GcPc)
    requires g.GLink? && g.j == |g.picks| && b < |slabs| && sl.role.BufferLive? && GcHeld(slabs, g)
    requires g' == GLoad(g.pass, g.picks, g.ops, 0, 0)
    ensures GcHeld(slabs[b := sl], g')
  {
    var slabs' := slabs[b := sl];
    forall y | 0 <= y < |slabs'| ensures GcHolds(g', y, slabs'[y].role) {
      assert GcHolds(g, y, slabs[y].role);
    }
  }

  lemma InitCollect(c: Config, slabs: seq<Slab>, sl: Slab, g: GcPc)
    requires c.Valid() && |slabs| == c.Slabs() && g.GLink? && g.j == |g.picks|
    requires slabs[c.Buffer()].role.BufferIdle? && sl.role.BufferLive? && sl.cid == g.pass.cid && sl.nrAlloc == 0
    requires CollectOk(c, slabs, g)
    ensures CollectOk(c, slabs[c.Buffer() := sl], GLoad(g.pass, g.picks, g.ops, 0, 0))
  {
    hide PicksOk, CandsOk;
    PicksAside(c, slabs, c.Buffer(), sl, g.pass, g.picks, 0, Drained, Source);
    assert g.picks[..0] == [];
  }

  lemma FirstSource(c: Config, slabs: seq<Slab>, g: GcPc)
    requires c.Valid() && |slabs| == c.Slabs() && g.GLink? && g.j == |g.picks| && CollectOk(c, slabs, g)
    ensures |g.picks| > 1 && c.IsDisk(g.picks[0].sid) && HasRole(slabs, g.picks[0].sid, Source)
    ensures slabs[g.picks[0].sid].cid == g.pass.cid
  {
    PicksAt(c, slabs, g.pass.cid, g.picks, 0);
  }

  lemma InitSlabs(c: Config, s: State, s': State)
    requires Fits(c, s) && GcInit(c, s, s')
    requires InvSlabs(c, s)
    ensures Touches(c, s, s', c.Buffer()) && s.slabs[c.Buffer()].role.BufferIdle? && |s.gc.picks| > 1
    ensures s'.slabs[c.Buffer()].link == s.slabs[c.Buffer()].link && s'.slabs[c.Buffer()].nrUsed == 0
    ensures InvSlabs(c, s')
  {
    hide SlabsOk, OneOpen, PutOk, FlushOk, CollectOk, LostOk;
    var b, x := c.Buffer(), s.gc.picks[0].sid;
    FirstSource(c, s.slabs, s.gc);
    SlabAt(c, s.slabs, s.mem, s.disk, b);
    SlabAt(c, s.slabs, s.mem, s.disk, x);
    assert GcHolds(s.gc, b, s.slabs[b].role);
    Bystanders(c, s, s', b);
    InitHeld(s.slabs, b, s'.slabs[b], s.gc, s'.gc);
    LostKept(c, s.slabs, b, s'.slabs[b], s.lost);
    InitCollect(c, s.slabs, s'.slabs[b], s.gc);
  }

  lemma PicksAt(c: Config, slabs: seq<Slab>, cid: nat, picks: seq<Pick>, k: nat)
    requires c.Valid() && |slabs| == c.Slabs() && PicksOk(c, slabs, cid, picks) && k < |picks|
    ensures PickOk(c, slabs, cid, picks[k]) && cid < |c.classes| && SeenSum(picks) <= c.SlotsOf(cid)
  {
  }

  lemma KeepsGcInit(c: Config, s: State, s': State)
    requires Inv(c, s) && GcInit(c, s, s')
    ensures Inv(c, s')
  {
    hide SlabsOk, OneOpen, PutOk, FlushOk, GcHeld, CollectOk, WrittenOk, LostOk, IndexOk, CountsOk, SizesOk;
    InitSlabs(c, s, s');
    var b := c.Buffer();
    assert InvIndex(c, s') by {
      NoneLive(c, s, b);
      IndexStands(c, s, s', b);
    }
    SizesKept(s.slabs, b, s'.slabs[b], s.size, s'.size, s.nrFreeDslab, s.nrFullDslab + s.collections, s.opsSize);
  }

  lemma {:induction false} SeenSumMono(picks: seq<Pick>, j: nat)
    requires j <= |picks| && forall k :: 0 <= k < |picks| ==> picks[k].seen >= 0
    ensures SeenSum(picks[..j]) <= SeenSum(picks)
  {
    if j < |picks| {
      var rest := picks[..|picks| - 1];
      SeenSumMono(rest, j);
      assert rest[..j] == picks[..j];
    } else {
      assert picks[..j] == picks;
    }
  }

  lemma SeenSumStep(picks: seq<Pick>, j: nat)
    requires j < |picks|
    ensures SeenSum(picks[..j + 1]) == SeenSum(picks[..j]) + picks[j].seen
  {
    assert picks[..j + 1] == picks[..j] + [picks[j]];
    SeenSumSnoc(picks[..j], picks[j]);
  }

  /** The records of the sources up to the `j`-th fit in one slab, as far as the packing loop counted them. */
  lemma PrefixFits(c: Config, slabs: seq<Slab>, cid: nat, picks: seq<Pick>, j: nat)
    requires c.Valid() && |slabs| == c.Slabs() && PicksOk(c, slabs, cid, picks) && j < |picks|
    ensures cid < |c.classes| && SeenSum(picks[..j + 1]) <= c.SlotsOf(cid)
    ensures SeenSum(picks[..j + 1]) == SeenSum(picks[..j]) + picks[j].seen
    ensures PickOk(c, slabs, cid, picks[j])
  {
    hide SeenSum;
    forall k | 0 <= k < |picks| ensures picks[k].seen >= 0 { assert PickOk(c, slabs, cid, picks[k]); }
    SeenSumMono(picks, j + 1);
    SeenSumStep(picks, j);
  }

  /** The total of `nr_used` read source by source never exceeds the slab, whatever Put and Delete do meanwhile. */
  lemma LoadFacts(c: Config, s: State, s': State)
    requires Fits(c, s) && GcLoad(c, s, s')
    requires InvSlabs(c, s) && CountsOk(s.slabs, s.index, s.put)
    ensures s'.fault == s.fault && CollectOk(c, s'.slabs, s'.gc) && GcHeld(s'.slabs, s'.gc)
    ensures MoveOk(c, s'.slabs, s.index, s'.gc)
  {
    hide SlabsOk, OneOpen, PutOk, FlushOk, PicksOk, CandsOk, LostOk, SeenSum;
    var b, x := c.Buffer(), s.gc.picks[s.gc.j].sid;
    PrefixFits(c, s.slabs, s.gc.pass.cid, s.gc.picks, s.gc.j);
    SlabAt(c, s.slabs, s.mem, s.disk, b);
    assert s'.slabs == s.slabs;
    forall y | 0 <= y < |s.slabs| ensures GcHolds(s'.gc, y, s.slabs[y].role) {
      assert GcHolds(s.gc, y, s.slabs[y].role);
    }
  }

  lemma KeepsGcLoad(c: Config, s: State, s': State)
    requires Inv(c, s) && GcLoad(c, s, s')
    ensures Inv(c, s')
  {
    hide SlabsOk, OneOpen, PutOk, FlushOk, GcHeld, CollectOk, LostOk, IndexOk, CountsOk, SizesOk, MoveOk, SeenSum;
    LoadFacts(c, s, s');
  }

  /** The buffer takes one more record of the current source. */
  ghost predicate Moves(c: Config, s: State, s': State, x: nat, t: Tag, r: Rec) {
    && Fits(c, s)
    && var b := c.Buffer();
       && s'.slabs == s.slabs[b := s.slabs[b].(nrAlloc := s.slabs[b].nrAlloc + 1, nrUsed := s.slabs[b].nrUsed + 1)]
       && s'.mem == s.mem[b := AppendRec(s.mem[b], r)] && s'.disk == s.disk
       && s'.index == s.index[t := Loc(b, s.slabs[b].nrAlloc)]
       && s'.latest == s.latest && s'.put == s.put && s'.flush == s.flush && s'.lost == s.lost
       && s'.nrFreeEntry == s.nrFreeEntry
       && s.gc.GMove? && s.gc.j < |s.gc.picks| && x == s.gc.picks[s.gc.j].sid
       && s'.gc == GMove(s.gc.pass, s.gc.picks, s.gc.ops, s.gc.j, s.gc.i + 1, s.gc.size)
       && t in s.index && s.index[t] == Loc(x, s.gc.i)
       && c.IsDisk(x) && s.gc.i < s.slabs[x].nrAlloc && s.gc.i < |s.disk[c.BlockOf(x)].recs|
       && r == s.disk[c.BlockOf(x)].recs[s.gc.i]
  }

  /** There is room: the source still has a live entry, and what it has left fits. */
  lemma MoveHasRoom(c: Config, s: State, s': State, x: nat, t: Tag, r: Rec)
    requires Fits(c, s) && Moves(c, s, s', x, t, r)
    requires SlabsOk(c, s.slabs, s.mem, s.disk) && CollectOk(c, s.slabs, s.gc) && MoveOk(c, s.slabs, s.index, s.gc)
    ensures s.slabs[c.Buffer()].nrAlloc < s.slabs[c.Buffer()].nrSlots
    ensures s.slabs[c.Buffer()].nrAlloc + 1 <= SeenSum(s.gc.picks[..s.gc.j + 1])
    ensures Formatted(c, s.slabs[c.Buffer()], s.mem[c.Buffer()]) && HasRole(s.slabs, c.Buffer(), BufferLive)
    ensures s.slabs[c.Buffer()].slotSize == s.slabs[x].slotSize && HasRole(s.slabs, x, Source)
  {
    hide SlabsOk, PicksOk, CandsOk, SeenSum;
    var b := c.Buffer();
    PrefixFits(c, s.slabs, s.gc.pass.cid, s.gc.picks, s.gc.j);
    SlabAt(c, s.slabs, s.mem, s.disk, b);
    SlabAt(c, s.slabs, s.mem, s.disk, x);
    assert t in Live(s.index, x);
  }

  lemma MovedCollect(c: Config, s: State, s': State, x: nat, t: Tag, r: Rec)
    requires Fits(c, s) && Moves(c, s, s', x, t, r)
    requires CollectOk(c, s.slabs, s.gc)
    requires s.slabs[c.Buffer()].nrAlloc + 1 <= SeenSum(s.gc.picks[..s.gc.j + 1])
    ensures CollectOk(c, s'.slabs, s'.gc)
  {
    hide PicksOk, CandsOk, SeenSum;
    PicksAside(c, s.slabs, c.Buffer(), s'.slabs[c.Buffer()], s.gc.pass, s.gc.picks, s.gc.j, Drained, Source);
  }

  lemma MovedSlabs(c: Config, s: State, s': State, x: nat, t: Tag, r: Rec)
    requires Fits(c, s) && Moves(c, s, s', x, t, r)
    requires InvSlabs(c, s) && MoveOk(c, s.slabs, s.index, s.gc)
    ensures Touches(c, s, s', c.Buffer()) && InvSlabs(c, s') && !s.slabs[c.Buffer()].IsFull()
  {
    hide SlabsOk, OneOpen, PutOk, FlushOk, LostOk, CollectOk, MoveOk, SeenSum;
    var b := c.Buffer();
    MoveHasRoom(c, s, s', x, t, r);
    SlabAt(c, s.slabs, s.mem, s.disk, b);
    MovedCollect(c, s, s', x, t, r);
    Bystanders(c, s, s', b);
    LostKept(c, s.slabs, b, s'.slabs[b], s.lost);
    assert GcHeld(s'.slabs, s'.gc) by {
      forall y | 0 <= y < |s'.slabs| ensures GcHolds(s'.gc, y, s'.slabs[y].role) {
        assert GcHolds(s.gc, y, s.slabs[y].role);
      }
    }
  }

  lemma MovedEntries(c: Config, s: State, s': State, x: nat, t: Tag, r: Rec)
    requires Fits(c, s) && Moves(c, s, s', x, t, r) && Fits(c, s')
    requires Formatted(c, s.slabs[c.Buffer()], s.mem[c.Buffer()]) && HasRole(s.slabs, c.Buffer(), BufferLive)
    requires s.slabs[c.Buffer()].slotSize == s.slabs[x].slotSize && Pending(s.put, c.Buffer()) == 0
    requires IndexOk(c, s.slabs, s.mem, s.disk, s.index, s.latest, s.put)
    ensures IndexOk(c, s'.slabs, s'.mem, s'.disk, s'.index, s'.latest, s'.put)
  {
    forall u | u in s'.index ensures EntryOk(c, s'.slabs, s'.mem, s'.disk, s'.latest, s'.put, u, s'.index[u]) {
      assert EntryOk(c, s.slabs, s.mem, s.disk, s.latest, s.put, u, s.index[u]);
    }
  }

  /** Only one entry can point at a slot: its tag is the tag of the stored key. */
  lemma SlotIsDone(c: Config, s: State, x: nat, i: nat)
    requires Fits(c, s) && c.IsDisk(x) && i < |s.disk[c.BlockOf(x)].recs|
    requires IndexOk(c, s.slabs, s.mem, s.disk, s.index, s.latest, s.put)
    ensures forall u :: u in s.index && s.index[u] == Loc(x, i) ==> u == c.TagOf(s.disk[c.BlockOf(x)].recs[i].key)
  {
    forall u | u in s.index && s.index[u] == Loc(x, i) ensures u == c.TagOf(s.disk[c.BlockOf(x)].recs[i].key) {
      assert EntryOk(c, s.slabs, s.mem, s.disk, s.latest, s.put, u, s.index[u]);
    }
  }

  lemma MovedIndex(c: Config, s: State, s': State, x: nat, t: Tag, r: Rec)
    requires Fits(c, s) && Moves(c, s, s', x, t, r) && Fits(c, s') && t == c.TagOf(r.key)
    requires Formatted(c, s.slabs[c.Buffer()], s.mem[c.Buffer()]) && HasRole(s.slabs, c.Buffer(), BufferLive)
    requires s.slabs[c.Buffer()].slotSize == s.slabs[x].slotSize && Pending(s.put, c.Buffer()) == 0
    requires InvIndex(c, s)
    ensures InvIndex(c, s')
  {
    hide IndexOk, SeenSum, Shaped;
    var b := c.Buffer();
    MovedEntries(c, s, s', x, t, r);
    LiveAfterSet(s.index, t, Loc(b, s.slabs[b].nrAlloc));
    SizeAfterSet(s.index, t, Loc(b, s.slabs[b].nrAlloc));
    SlotIsDone(c, s, x, s.gc.i);
  }

  lemma BufferNotPending(c: Config, s: State)
    requires Fits(c, s) && SlabsOk(c, s.slabs, s.mem, s.disk) && PutOk(c, s.slabs, s.mem, s.put)
    ensures Pending(s.put, c.Buffer()) == 0
  {
    SlabAt(c, s.slabs, s.mem, s.disk, c.Buffer());
  }

  lemma MoveTakes(c: Config, s: State, s': State, x: nat, t: Tag, r: Rec)
    requires Inv(c, s) && Moves(c, s, s', x, t, r) && t == c.TagOf(r.key)
    requires s'.size == s.size && s'.nrFreeDslab == s.nrFreeDslab && s'.nrFullDslab == s.nrFullDslab
    requires s'.opsSize == s.opsSize && s'.collections == s.collections && s'.quickPasses == s.quickPasses
    ensures InvSlabs(c, s') && InvIndex(c, s') && InvPool(c, s') && !s.slabs[c.Buffer()].IsFull()
  {
    hide SlabsOk, OneOpen, PutOk, FlushOk, GcHeld, CollectOk, WrittenOk, LostOk, IndexOk, CountsOk, MoveOk, SizesOk,
         SeenSum;
    var b := c.Buffer();
    MovedSlabs(c, s, s', x, t, r);
    MoveHasRoom(c, s, s', x, t, r);
    BufferNotPending(c, s);
    MovedIndex(c, s, s', x, t, r);
    assert InvPool(c, s') by {
      SizesKept(s.slabs, b, s'.slabs[b], s.size, s'.size, s.nrFreeDslab, s.nrFullDslab + s.collections, s.opsSize);
    }
  }

  /** A slot that nothing points at is skipped. */
  lemma MoveSkips(c: Config, s: State, s': State)
    requires Inv(c, s) && GcMoveSlot(c, s, s') && s' == s.(gc := s'.gc)
    requires s'.gc == GMove(s.gc.pass, s.gc.picks, s.gc.ops, s.gc.j, s.gc.i + 1, s.gc.size)
    requires var x := s.gc.picks[s.gc.j].sid;
             var t := c.TagOf(s.disk[c.BlockOf(x)].recs[s.gc.i].key);
             !(t in s.index && s.index[t] == Loc(x, s.gc.i))
    ensures Inv(c, s')
  {
    hide SlabsOk, OneOpen, PutOk, FlushOk, LostOk, IndexOk, CountsOk, SizesOk, SeenSum, PicksOk, CandsOk, PicksHave,
         Shaped;
    SlotIsDone(c, s, s.gc.picks[s.gc.j].sid, s.gc.i);
    assert GcHeld(s'.slabs, s'.gc) by {
      forall y | 0 <= y < |s'.slabs| ensures GcHolds(s'.gc, y, s'.slabs[y].role) {
        assert GcHolds(s.gc, y, s.slabs[y].role);
      }
    }
  }

  lemma KeepsGcMoveSlot(c: Config, s: State, s': State)
    requires Inv(c, s) && GcMoveSlot(c, s, s')
    ensures Inv(c, s')
  {
    hide SlabsOk, OneOpen, PutOk, FlushOk, InvGc, IndexOk, CountsOk, MoveOk, SizesOk, PoolOk;
    var x := s.gc.picks[s.gc.j].sid;
    var r := s.disk[c.BlockOf(x)].recs[s.gc.i];
    var t := c.TagOf(r.key);
    if t in s.index && s.index[t] == Loc(x, s.gc.i) {
      MoveTakes(c, s, s', x, t, r);
    } else {
      MoveSkips(c, s, s');
    }
  }

  // ---------- finishing a source ----------

  lemma DoneHeld(slabs: seq<Slab>, sl: Slab, g: GcPc, g': GcPc)
    requires g.GMove? && g.j < |g.picks| && g.picks[g.j].sid < |slabs| && sl.role.Drained? && GcHeld(slabs, g)
    requires g' == GLoad(g.pass, g.picks, g.ops, g.j + 1, g.size)
    ensures GcHeld(slabs[g.picks[g.j].sid := sl], g')
  {
    var slabs' := slabs[g.picks[g.j].sid := sl];
    forall y | 0 <= y < |slabs'| ensures GcHolds(g', y, slabs'[y].role) {
      assert GcHolds(g, y, slabs[y].role);
    }
  }

  lemma DoneCollect(c: Config, slabs: seq<Slab>, sl: Slab, g: GcPc)
    requires c.Valid() && |slabs| == c.Slabs() && g.GMove? && g.j < |g.picks| && CollectOk(c, slabs, g)
    requires c.IsDisk(g.picks[g.j].sid) && sl == slabs[g.picks[g.j].sid].(nrUsed := 0, role := Drained)
    requires slabs[g.picks[g.j].sid].nrUsed >= 0
    ensures CollectOk(c, slabs[g.picks[g.j].sid := sl], GLoad(g.pass, g.picks, g.ops, g.j + 1, g.size))
  {
    hide PicksOk, CandsOk, SeenSum;
    assert HasRole(slabs, g.picks[g.j].sid, Source);
    PickAdvances(c, slabs, sl, g.pass, g.picks, g.j, Drained, Source);
  }

  lemma DoneSlabs(c: Config, s: State, s': State)
    requires Fits(c, s) && GcMoveDone(c, s, s')
    requires InvSlabs(c, s)
    ensures var x := s.gc.picks[s.gc.j].sid; Touches(c, s, s', x) && s.slabs[x].role.Source?
    ensures InvSlabs(c, s')
  {
    hide SlabsOk, OneOpen, PutOk, FlushOk, LostOk, GcHeld, SeenSum, PicksOk, CandsOk;
    var x := s.gc.picks[s.gc.j].sid;
    assert HasRole(s.slabs, x, Source);
    SlabAt(c, s.slabs, s.mem, s.disk, x);
    Bystanders(c, s, s', x);
    DoneHeld(s.slabs, s'.slabs[x], s.gc, s'.gc);
    DoneCollect(c, s.slabs, s'.slabs[x], s.gc);
    LostKept(c, s.slabs, x, s'.slabs[x], s.lost);
  }

  /** After its last slot no entry points at the source. */
  lemma SourceEmpty(c: Config, s: State, x: nat)
    requires Fits(c, s) && x < c.Slabs()
    requires IndexOk(c, s.slabs, s.mem, s.disk, s.index, s.latest, s.put)
    requires forall t :: t in s.index && s.index[t].sid == x ==> s.index[t].slot >= s.slabs[x].nrAlloc
    ensures Live(s.index, x) == {}
  {
    forall t | t in s.index ensures s.index[t].sid != x {
      assert EntryOk(c, s.slabs, s.mem, s.disk, s.latest, s.put, t, s.index[t]);
    }
  }

  lemma DoneIndex(c: Config, s: State, s': State)
    requires Fits(c, s) && Fits(c, s') && GcMoveDone(c, s, s') && Pending(s.put, s.gc.picks[s.gc.j].sid) == 0
    requires InvIndex(c, s)
    ensures InvIndex(c, s')
  {
    hide IndexOk, SeenSum;
    var x := s.gc.picks[s.gc.j].sid;
    SourceEmpty(c, s, x);
    assert forall t :: t in s.index ==> t !in Live(s.index, x);
    IndexShrinks(c, s, s');
  }

  lemma KeepsGcMoveDone(c: Config, s: State, s': State)
    requires Inv(c, s) && GcMoveDone(c, s, s')
    ensures Inv(c, s')
  {
    hide SlabsOk, OneOpen, FlushOk, InvGc, IndexOk, CountsOk, MoveOk, SizesOk;
    var x := s.gc.picks[s.gc.j].sid;
    DoneSlabs(c, s, s');
    DoneIndex(c, s, s');
    SizesKept(s.slabs, x, s'.slabs[x], s.size, s'.size, s.nrFreeDslab, s.nrFullDslab + s.collections, s.opsSize);
  }

  // ---------- writing the buffer and redirecting ----------

  lemma WriteSlabs(c: Config, s: State, s': State)
    requires Fits(c, s) && GcWrite(c, s, s')
    requires InvSlabs(c, s)
    ensures Touches(c, s, s', s.gc.ops) && s.slabs[s.gc.ops].role.OpsLinked? && InvSlabs(c, s')
    ensures s'.slabs[s.gc.ops].nrUsed >= 0 == s.slabs[s.gc.ops].nrUsed && s.slabs[c.Buffer()].cid != -1
  {
    hide SlabsOk, OneOpen, PutOk, FlushOk, LostOk, GcHeld, SeenSum, PicksOk;
    var b, d := c.Buffer(), s.gc.ops;
    SlabAt(c, s.slabs, s.mem, s.disk, b);
    SlabAt(c, s.slabs, s.mem, s.disk, d);
    OtherImages(c, s, d, s.mem[b]);
    Bystanders(c, s, s', d);
    LostKept(c, s.slabs, d, s'.slabs[d], s.lost);
    WriteHeld(s.slabs, s'.slabs[d], s.gc, s'.gc);
  }

  lemma WriteHeld(slabs: seq<Slab>, sl: Slab, g: GcPc, g': GcPc)
    requires g.GLoad? && g.j == |g.picks| && g.ops < |slabs| && sl.role.OpsWritten? && GcHeld(slabs, g)
    requires g' == GWritten(g.pass, g.ops)
    ensures GcHeld(slabs[g.ops := sl], g')
  {
    var slabs' := slabs[g.ops := sl];
    forall y | 0 <= y < |slabs'| ensures GcHolds(g', y, slabs'[y].role) {
      assert GcHolds(g, y, slabs[y].role);
    }
  }

  lemma KeepsGcWrite(c: Config, s: State, s': State)
    requires Inv(c, s) && GcWrite(c, s, s')
    ensures Inv(c, s')
  {
    hide SlabsOk, OneOpen, PutOk, FlushOk, GcHeld, CollectOk, WrittenOk, LostOk, IndexOk, CountsOk, SizesOk;
    var d := s.gc.ops;
    WriteSlabs(c, s, s');
    assert InvIndex(c, s') by { IndexStands(c, s, s', d); }
    SizesKept(s.slabs, d, s'.slabs[d], s.size, s'.size, s.nrFreeDslab, s.nrFullDslab + s.collections, s.opsSize);
  }

  lemma RedirectFacts(c: Config, s: State, s': State)
    requires Fits(c, s) && GcRedirect(c, s, s')
    requires InvSlabs(c, s) && IndexOk(c, s.slabs, s.mem, s.disk, s.index, s.latest, s.put)
    ensures var b, d := c.Buffer(), s.gc.ops;
            && Redirects(c, s, s', b, d)
            && s'.slabs == s.slabs[b := s'.slabs[b]][d := s'.slabs[d]]
            && s'.slabs[b] == s.slabs[b].(nrUsed := 0, role := BufferIdle)
            && s'.slabs[d] == s.slabs[d].(nrUsed := |Live(s.index, b)|, role := Stored)
            && s.slabs[b].role == BufferLive && s.slabs[d].role == OpsWritten
  {
    hide SlabsOk, OneOpen, FlushOk, GcHeld, LostOk, CandsOk, IndexOk;
    var b, d := c.Buffer(), s.gc.ops;
    SlabAt(c, s.slabs, s.mem, s.disk, b);
    SlabAt(c, s.slabs, s.mem, s.disk, d);
    RedirectFindsAll(c, s, b);
    NoneLive(c, s, d);
  }

  lemma RedirectHeld(c: Config, slabs: seq<Slab>, slabs': seq<Slab>, b: nat, g: GcPc, g': GcPc)
    requires g.GWritten? && g.ops < |slabs| == |slabs'| && b < |slabs| && b != g.ops && GcHeld(slabs, g)
    requires g' == GPack(g.pass.(cid := g.pass.cid + 1), [])
    requires slabs' == slabs[b := slabs'[b]][g.ops := slabs'[g.ops]]
    requires slabs'[b].role.BufferIdle? && slabs'[g.ops].role.Stored?
    requires forall y :: 0 <= y < |slabs| && slabs[y].role.BufferLive? ==> y == b
    ensures GcHeld(slabs', g')
  {
    forall y | 0 <= y < |slabs'| ensures GcHolds(g', y, slabs'[y].role) {
      assert GcHolds(g, y, slabs[y].role);
    }
  }

  lemma OneBuffer(c: Config, slabs: seq<Slab>, mem: seq<Image>, disk: seq<Image>)
    requires Shaped(c, slabs, mem, disk) && SlabsOk(c, slabs, mem, disk)
    ensures forall y :: 0 <= y < |slabs| && slabs[y].role.BufferLive? ==> y == c.Buffer()
  {
    forall y | 0 <= y < |slabs| && slabs[y].role.BufferLive? ensures y == c.Buffer() {
      SlabAt(c, slabs, mem, disk, y);
    }
  }

  lemma RedirectSlabs(c: Config, s: State, s': State)
    requires Fits(c, s) && GcRedirect(c, s, s')
    requires InvSlabs(c, s) && InvIndex(c, s)
    ensures InvSlabs(c, s')
  {
    hide SlabsOk, OneOpen, PutOk, FlushOk, GcHeld, LostOk, IndexOk, MoveOk;
    var b, d := c.Buffer(), s.gc.ops;
    RedirectFacts(c, s, s');
    SlabAt(c, s.slabs, s.mem, s.disk, b);
    SlabAt(c, s.slabs, s.mem, s.disk, d);
    var mid := s.(slabs := s.slabs[b := s'.slabs[b]]);
    Bystanders(c, s, mid, b);
    Bystanders(c, mid, s', d);
    LostKept(c, s.slabs, b, mid.slabs[b], s.lost);
    LostKept(c, mid.slabs, d, s'.slabs[d], s.lost);
    OneBuffer(c, s.slabs, s.mem, s.disk);
    RedirectHeld(c, s.slabs, s'.slabs, b, s.gc, s'.gc);
  }

  lemma RedirectPool(c: Config, s: State, s': State)
    requires Fits(c, s) && GcRedirect(c, s, s') && s.gc.ops != c.Buffer()
    requires s'.slabs[c.Buffer()].link == s.slabs[c.Buffer()].link && s'.slabs[s.gc.ops].link == s.slabs[s.gc.ops].link
    requires InvPool(c, s)
    ensures InvPool(c, s')
  {
    hide SizesOk, Redirected, RedirectIndex;
    var b, d := c.Buffer(), s.gc.ops;
    var mid := s.(slabs := s.slabs[b := s'.slabs[b]]);
    PoolKept(c, s, mid, b);
    PoolKept(c, mid, s'.(gc := s.gc), d);
  }

  lemma KeepsGcRedirect(c: Config, s: State, s': State)
    requires Inv(c, s) && GcRedirect(c, s, s')
    ensures Inv(c, s')
  {
    hide SlabsOk, OneOpen, PutOk, FlushOk, GcHeld, WrittenOk, LostOk, CollectOk, IndexOk, CountsOk, SizesOk, PoolOk;
    RedirectFacts(c, s, s');
    RedirectSlabs(c, s, s');
    assert InvIndex(c, s') by { RedirectIndexOk(c, s, s', c.Buffer(), s.gc.ops); }
    RedirectPool(c, s, s');
  }

  // ---------- refilling the pool ----------

  /** Each collection freed at least two slabs, so the refill finds enough. */
  lemma KeepsGcTune(c: Config, s: State, s': State)
    requires Inv(c, s) && GcTune(c, s, s')
    ensures Inv(c, s')
  {
    hide SlabsOk, OneOpen, PutOk, FlushOk, GcHeld, LostOk, InvIndex, SizesOk;
    KeepsPc(c, s, s');
  }

  /** A slab on the collection's free list has been emptied. */
  lemma ReclaimedRole(c: Config, s: State, x: nat)
    requires Fits(c, s) && x < c.Slabs() && SlabsOk(c, s.slabs, s.mem, s.disk) && GcHeld(s.slabs, s.gc)
    requires s.slabs[x].link.FreeList? && (s.gc.GRefill? || s.gc.GTrim? || s.gc.GReturnAll?)
    ensures s.slabs[x].role.Drained? && s.slabs[x].link == FreeList(c.Channel(x))
  {
    SlabAt(c, s.slabs, s.mem, s.disk, x);
    assert GcHolds(s.gc, x, s.slabs[x].role);
  }

  lemma RefillSlabs(c: Config, s: State, s': State, x: nat, ch: nat)
    requires Fits(c, s) && (GcRefill(c, s, s', x, ch) || GcReturnAll(c, s, s', x, ch))
    requires InvSlabs(c, s)
    ensures Touches(c, s, s', x) && s.slabs[x].role.Drained? && InvSlabs(c, s')
  {
    hide SlabsOk, OneOpen, PutOk, FlushOk, LostOk;
    ReclaimedRole(c, s, x);
    SlabAt(c, s.slabs, s.mem, s.disk, x);
    Bystanders(c, s, s', x);
    LostKept(c, s.slabs, x, s'.slabs[x], s.lost);
  }

  lemma KeepsGcRefill(c: Config, s: State, s': State, x: nat, ch: nat)
    requires Inv(c, s) && GcRefill(c, s, s', x, ch)
    ensures Inv(c, s')
  {
    hide SlabsOk, OneOpen, PutOk, FlushOk, InvGc, IndexOk, CountsOk, SizesOk;
    RefillSlabs(c, s, s', x, ch);
    assert InvIndex(c, s') by {
      NoneLive(c, s, x);
      IndexStands(c, s, s', x);
    }
    SizesKept(s.slabs, x, s'.slabs[x], s.size, s'.size, s.nrFreeDslab, s.nrFullDslab + s.collections, s.opsSize);
  }

  lemma KeepsGcReturnAll(c: Config, s: State, s': State, x: nat, ch: nat)
    requires Inv(c, s) && GcReturnAll(c, s, s', x, ch)
    ensures Inv(c, s')
  {
    hide SlabsOk, OneOpen, PutOk, FlushOk, InvGc, IndexOk, CountsOk;
    RefillSlabs(c, s, s', x, ch);
    assert InvIndex(c, s') by {
      NoneLive(c, s, x);
      IndexStands(c, s, s', x);
    }
    SizesKept(s.slabs, x, s'.slabs[x], s.size, s'.size, s.nrFreeDslab, s.nrFullDslab + s.collections, s.opsSize);
    FreeBound(c, s'.slabs, s'.mem, s'.disk);
  }

  lemma TrimSlabs(c: Config, s: State, s': State, x: nat, ch: nat)
    requires Fits(c, s) && GcTrim(c, s, s', x, ch)
    requires InvSlabs(c, s)
    ensures Touches(c, s, s', x) && s.slabs[x].role.Spare? && InvSlabs(c, s')
  {
    hide SlabsOk, OneOpen, PutOk, FlushOk, LostOk;
    SlabAt(c, s.slabs, s.mem, s.disk, x);
    Bystanders(c, s, s', x);
    LostKept(c, s.slabs, x, s'.slabs[x], s.lost);
  }

  lemma KeepsGcTrim(c: Config, s: State, s': State, x: nat, ch: nat)
    requires Inv(c, s) && GcTrim(c, s, s', x, ch)
    ensures Inv(c, s')
  {
    hide SlabsOk, OneOpen, PutOk, FlushOk, InvGc, IndexOk, CountsOk, SizesOk, Shaped;
    TrimSlabs(c, s, s', x, ch);
    assert InvIndex(c, s') by {
      NoneLive(c, s, x);
      IndexStands(c, s, s', x);
    }
    SizesKept(s.slabs, x, s'.slabs[x], s.size, s'.size, s.nrFreeDslab, s.nrFullDslab + s.collections, s.opsSize);
  }

  lemma KeepsGcNormalDone(c: Config, s: State, s': State)
    requires Inv(c, s) && GcNormalDone(c, s, s')
    ensures Inv(c, s')
  {
    hide SlabsOk, OneOpen, PutOk, FlushOk, LostOk, InvIndex, SizesOk, CheckOpsPool;
    PoolChecksInv(c, s);
    forall x | 0 <= x < |s.slabs| ensures !s.slabs[x].role.Drained? && !s.slabs[x].role.Source? {
      SlabAt(c, s.slabs, s.mem, s.disk, x);
      assert x !in OfFamily(s.slabs, Reclaimed);
    }
    KeepsPc(c, s, s');
  }
}
