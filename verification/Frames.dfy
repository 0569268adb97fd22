/** A step that rewrites one slab leaves what the other threads know about their own slabs intact. */
module Frames {
  import opened Types
  import opened Protocol
  import opened Invariant
  import opened Counting

  /** Only slab `x` and its bytes differ. */
  ghost predicate Touches(c: Config, s: State, s': State, x: nat) {
    && Fits(c, s) && Fits(c, s') && x < c.Slabs()
    && s'.slabs == s.slabs[x := s'.slabs[x]]
    && (forall y :: 0 <= y < c.Slabs() && y != x ==> ImageOf(c, s'.mem, s'.disk, y) == ImageOf(c, s.mem, s.disk, y))
  }

  /** The header is the same but for a smaller `nr_used`. */
  predicate Stays(a: Slab, b: Slab) { b == a.(nrUsed := b.nrUsed) && b.nrUsed <= a.nrUsed }

  predicate FlushRole(r: Role) { r.Flushing? || r.Flushed? || r.Target? || r.TargetWritten? || r.TargetLive? }

  predicate GcOnly(r: Role) {
    || r.Victim? || r.Evicted? || r.Lost? || r.OpsTaken? || r.OpsLinked? || r.OpsWritten? || r.Source? || r.Drained?
    || r.BufferIdle? || r.BufferLive?
  }

  /** A block holds the bytes of one disk slab only. */
  lemma OtherImages(c: Config, s: State, x: nat, img: Image)
    requires Fits(c, s) && c.IsDisk(x)
    ensures forall y :: 0 <= y < c.Slabs() && y != x ==>
                        ImageOf(c, s.mem, s.disk[c.BlockOf(x) := img], y) == ImageOf(c, s.mem, s.disk, y)
  {
  }

  lemma SlabAt(c: Config, slabs: seq<Slab>, mem: seq<Image>, disk: seq<Image>, x: nat)
    requires Shaped(c, slabs, mem, disk) && SlabsOk(c, slabs, mem, disk) && x < c.Slabs()
    ensures SlabOk(c, x, slabs[x], ImageOf(c, mem, disk, x))
  {
  }

  lemma SlabsKept(c: Config, s: State, s': State, x: nat)
    requires Touches(c, s, s', x)
    requires SlabsOk(c, s.slabs, s.mem, s.disk)
    requires SlabOk(c, x, s'.slabs[x], ImageOf(c, s'.mem, s'.disk, x))
    ensures SlabsOk(c, s'.slabs, s'.mem, s'.disk)
  {
  }

  lemma OpenKept(slabs: seq<Slab>, x: nat, sl: Slab)
    requires x < |slabs| && OneOpen(slabs)
    requires Taking(sl.role) ==> Taking(slabs[x].role) && sl.cid == slabs[x].cid
    ensures OneOpen(slabs[x := sl])
  {
  }

  lemma LostKept(c: Config, slabs: seq<Slab>, x: nat, sl: Slab, lost: set<nat>)
    requires x < |slabs| && LostOk(c, slabs, lost)
    requires slabs[x].role.Lost? <==> sl.role.Lost?
    ensures LostOk(c, slabs[x := sl], lost)
  {
  }

  lemma PutKept(c: Config, s: State, s': State, x: nat)
    requires Touches(c, s, s', x) && s'.put == s.put
    requires PutOk(c, s.slabs, s.mem, s.put)
    requires Taking(s.slabs[x].role) || Taking(s'.slabs[x].role) ==>
               Stays(s.slabs[x], s'.slabs[x]) && ImageOf(c, s'.mem, s'.disk, x) == ImageOf(c, s.mem, s.disk, x)
    ensures PutOk(c, s'.slabs, s'.mem, s'.put)
  {
    assert forall y :: 0 <= y < c.nrMslab ==> ImageOf(c, s'.mem, s'.disk, y) == s'.mem[y];
  }

  lemma FlushKept(c: Config, s: State, s': State, x: nat)
    requires Touches(c, s, s', x) && s'.flush == s.flush
    requires FlushOk(c, s.slabs, s.mem, s.disk, s.flush)
    requires FlushRole(s.slabs[x].role) || FlushRole(s'.slabs[x].role) ==>
               Stays(s.slabs[x], s'.slabs[x]) && ImageOf(c, s'.mem, s'.disk, x) == ImageOf(c, s.mem, s.disk, x)
    ensures FlushOk(c, s'.slabs, s'.mem, s'.disk, s'.flush)
  {
    var f := s.flush;
    if f.FWritten? {
      assert ImageOf(c, s'.mem, s'.disk, f.m) == ImageOf(c, s.mem, s.disk, f.m);
      assert ImageOf(c, s'.mem, s'.disk, f.d) == ImageOf(c, s.mem, s.disk, f.d);
    }
  }

  lemma PicksKept(c: Config, slabs: seq<Slab>, x: nat, sl: Slab, cid: nat, picks: seq<Pick>, lo: nat, hi: nat, r: Role)
    requires c.Valid() && |slabs| == c.Slabs() && x < |slabs|
    requires Stays(slabs[x], sl) || !InPicks(picks, 0, |picks|, x)
    ensures PicksOk(c, slabs, cid, picks) ==> PicksOk(c, slabs[x := sl], cid, picks)
    ensures PicksHave(slabs, picks, lo, hi, r) ==> PicksHave(slabs[x := sl], picks, lo, hi, r)
  {
  }

  /** The collector's slabs are left alone, or only lose users. */
  predicate GcLeaves(a: Slab, b: Slab) {
    GcOnly(a.role) || a.role.Stored? || GcOnly(b.role) ==> Stays(a, b)
  }

  lemma HeldKept(slabs: seq<Slab>, x: nat, sl: Slab, g: GcPc)
    requires x < |slabs| && GcLeaves(slabs[x], sl) && GcHeld(slabs, g)
    ensures GcHeld(slabs[x := sl], g)
  {
  }

  lemma PassKept(c: Config, slabs: seq<Slab>, x: nat, sl: Slab, pass: Pass, picks: seq<Pick>, lo: nat, r1: Role,
                 r2: Role)
    requires c.Valid() && |slabs| == c.Slabs() && x < |slabs| && lo <= |picks|
    requires GcLeaves(slabs[x], sl)
    requires (GcOnly(r1) || r1.Stored?) && (GcOnly(r2) || r2.Stored?)
    requires PicksHave(slabs, picks, 0, lo, r1) && PicksHave(slabs, picks, lo, |picks|, r2)
    requires PicksOk(c, slabs, pass.cid, picks) && CandsOk(c, slabs, pass, picks)
    ensures PicksHave(slabs[x := sl], picks, 0, lo, r1) && PicksHave(slabs[x := sl], picks, lo, |picks|, r2)
    ensures PicksOk(c, slabs[x := sl], pass.cid, picks) && CandsOk(c, slabs[x := sl], pass, picks)
  {
    hide PicksOk, CandsOk, SeenSum;
    CandsKept(c, slabs, x, sl, pass, picks);
    if InPicks(picks, 0, |picks|, x) {
      var k :| 0 <= k < |picks| && picks[k].sid == x;
      assert HasRole(slabs, picks[k].sid, if k < lo then r1 else r2);
    }
    PicksKept(c, slabs, x, sl, pass.cid, picks, 0, lo, r1);
    PicksKept(c, slabs, x, sl, pass.cid, picks, lo, |picks|, r2);
  }

  lemma CandsKept(c: Config, slabs: seq<Slab>, x: nat, sl: Slab, pass: Pass, picks: seq<Pick>)
    requires x < |slabs| && GcLeaves(slabs[x], sl) && CandsOk(c, slabs, pass, picks)
    ensures CandsOk(c, slabs[x := sl], pass, picks)
  {
  }

  lemma CollectKept(c: Config, slabs: seq<Slab>, x: nat, sl: Slab, g: GcPc)
    requires c.Valid() && |slabs| == c.Slabs() && x < |slabs|
    requires GcLeaves(slabs[x], sl) && CollectOk(c, slabs, g)
    ensures CollectOk(c, slabs[x := sl], g)
  {
    hide PicksOk, CandsOk, SeenSum;
    match g
    case GPack(pass, picks) => PassKept(c, slabs, x, sl, pass, picks, |picks|, Stored, Stored);
    case GTook(pass, picks, ops) => PassKept(c, slabs, x, sl, pass, picks, |picks|, Stored, Stored);
    case GLink(pass, picks, ops, j) => PassKept(c, slabs, x, sl, pass, picks, j, Source, Stored);
    case GLoad(pass, picks, ops, j, size) => PassKept(c, slabs, x, sl, pass, picks, j, Drained, Source);
    case GMove(pass, picks, ops, j, i, size) => PassKept(c, slabs, x, sl, pass, picks, j, Drained, Source);
    case GWritten(pass, ops) => CandsKept(c, slabs, x, sl, pass, []);
    case _ =>
  }

  /** The collector stands by while slab `x` changes. */
  lemma GcKept(c: Config, s: State, s': State, x: nat)
    requires Touches(c, s, s', x) && s'.gc == s.gc && s'.lost == s.lost
    requires InvGc(c, s)
    requires GcLeaves(s.slabs[x], s'.slabs[x])
    requires GcOnly(s.slabs[x].role) ==> ImageOf(c, s'.mem, s'.disk, x) == ImageOf(c, s.mem, s.disk, x)
    ensures InvGc(c, s')
  {
    HeldKept(s.slabs, x, s'.slabs[x], s.gc);
    CollectKept(c, s.slabs, x, s'.slabs[x], s.gc);
    LostKept(c, s.slabs, x, s'.slabs[x], s.lost);
    if s.gc.GWritten? {
      assert ImageOf(c, s'.mem, s'.disk, c.Buffer()) == ImageOf(c, s.mem, s.disk, c.Buffer());
      assert ImageOf(c, s'.mem, s'.disk, s.gc.ops) == ImageOf(c, s.mem, s.disk, s.gc.ops);
    }
  }

  // ---------- the index ----------

  /** Every record that an entry can denote stays where it is. */
  ghost predicate Readable(c: Config, s: State, s': State, x: nat) {
    && Fits(c, s) && Fits(c, s') && x < c.Slabs()
    && (LiveRole(s.slabs[x].role) ==>
          var a, b := ImageOf(c, s.mem, s.disk, x), ImageOf(c, s'.mem, s'.disk, x);
          && LiveRole(s'.slabs[x].role) && s'.slabs[x].nrAlloc >= s.slabs[x].nrAlloc
          && s'.slabs[x].slotSize == s.slabs[x].slotSize
          && b.slotSize == a.slotSize && |b.recs| >= |a.recs|
          && forall i :: 0 <= i < |a.recs| && !(PutPending(s.put) && s.put.sid == x && s.put.slot == i) ==>
                         b.recs[i] == a.recs[i])
  }

  /** The slot of the current Put is still pending, or it is new. */
  predicate PendingMoves(s: State, s': State) {
    PutPending(s'.put) ==>
      || (PutPending(s.put) && s'.put.sid == s.put.sid && s'.put.slot == s.put.slot)
      || (s'.put.sid < |s.slabs| && s'.put.slot >= s.slabs[s'.put.sid].nrAlloc)
  }

  lemma EntryAt(c: Config, s: State, t: Tag)
    requires Fits(c, s) && IndexOk(c, s.slabs, s.mem, s.disk, s.index, s.latest, s.put) && t in s.index
    ensures EntryOk(c, s.slabs, s.mem, s.disk, s.latest, s.put, t, s.index[t])
  {
  }

  lemma IndexKept(c: Config, s: State, s': State, x: nat)
    requires Touches(c, s, s', x) && s'.latest == s.latest && s'.index == s.index
    requires IndexOk(c, s.slabs, s.mem, s.disk, s.index, s.latest, s.put)
    requires Readable(c, s, s', x) && PendingMoves(s, s')
    ensures IndexOk(c, s'.slabs, s'.mem, s'.disk, s'.index, s'.latest, s'.put)
  {
    forall t | t in s.index
      ensures EntryOk(c, s'.slabs, s'.mem, s'.disk, s'.latest, s'.put, t, s'.index[t])
    {
      assert EntryOk(c, s.slabs, s.mem, s.disk, s.latest, s.put, t, s.index[t]);
    }
  }

  /** Entries that survive a deletion still denote the newest value of their key. */
  lemma IndexShrinks(c: Config, s: State, s': State)
    requires Fits(c, s) && Fits(c, s') && s'.mem == s.mem && s'.disk == s.disk && s'.put == s.put
    requires IndexOk(c, s.slabs, s.mem, s.disk, s.index, s.latest, s.put)
    requires forall t :: t in s'.index ==> t in s.index && s'.index[t] == s.index[t]
    requires forall t :: t in s'.index && s.index[t].sid < c.Slabs() ==>
               var x := s.index[t].sid; s'.slabs[x] == s.slabs[x].(nrUsed := s'.slabs[x].nrUsed)
    requires forall k :: k in s.latest && c.TagOf(k) in s'.index ==> k in s'.latest && s'.latest[k] == s.latest[k]
    ensures IndexOk(c, s'.slabs, s'.mem, s'.disk, s'.index, s'.latest, s'.put)
  {
    forall t | t in s'.index ensures EntryOk(c, s'.slabs, s'.mem, s'.disk, s'.latest, s'.put, t, s'.index[t]) {
      assert EntryOk(c, s.slabs, s.mem, s.disk, s.latest, s.put, t, s.index[t]);
    }
  }

  lemma MoveKept(c: Config, s: State, s': State)
    requires Fits(c, s) && Fits(c, s') && s'.gc == s.gc
    requires CollectOk(c, s.slabs, s.gc) && MoveOk(c, s.slabs, s.index, s.gc)
    requires s'.slabs[c.Buffer()].nrAlloc == s.slabs[c.Buffer()].nrAlloc
    requires forall t :: t in s'.index && c.IsDisk(s'.index[t].sid) && s.slabs[s'.index[t].sid].role.Source? ==>
               t in s.index && s'.index[t] == s.index[t]
    ensures MoveOk(c, s'.slabs, s'.index, s'.gc)
  {
    if s.gc.GMove? {
      var x := s.gc.picks[s.gc.j].sid;
      assert PickOk(c, s.slabs, s.gc.pass.cid, s.gc.picks[s.gc.j]) && HasRole(s.slabs, x, Source);
      assert Live(s'.index, x) <= Live(s.index, x);
      SubsetSize(Live(s'.index, x), Live(s.index, x));
    }
  }

  /** A slab in a role without entries has none. */
  lemma NoneLive(c: Config, s: State, x: nat)
    requires Fits(c, s) && x < c.Slabs() && !LiveRole(s.slabs[x].role)
    requires IndexOk(c, s.slabs, s.mem, s.disk, s.index, s.latest, s.put)
    requires PutOk(c, s.slabs, s.mem, s.put)
    ensures Live(s.index, x) == {} && Pending(s.put, x) == 0
  {
    forall t | t in s.index ensures s.index[t].sid != x {
      assert EntryOk(c, s.slabs, s.mem, s.disk, s.latest, s.put, t, s.index[t]);
    }
  }

  /** The search by key finds every entry that points into `src`. */
  lemma RedirectFindsAll(c: Config, s: State, src: nat)
    requires Fits(c, s) && src < c.nrMslab
    requires IndexOk(c, s.slabs, s.mem, s.disk, s.index, s.latest, s.put)
    ensures Redirected(c, s.index, src, s.slabs[src].nrAlloc, s.mem[src].recs) == Live(s.index, src)
  {
    forall t | t in s.index && s.index[t].sid == src
      ensures t in Redirected(c, s.index, src, s.slabs[src].nrAlloc, s.mem[src].recs)
    {
      assert EntryOk(c, s.slabs, s.mem, s.disk, s.latest, s.put, t, s.index[t]);
    }
  }

  /** The slabs other than `src` and `dst` keep their headers; `dst` carries the bytes of `src`. */
  ghost predicate Redirects(c: Config, s: State, s': State, src: nat, dst: nat) {
    && Fits(c, s) && Fits(c, s') && src < c.nrMslab && c.IsDisk(dst)
    && s'.mem == s.mem && s'.disk == s.disk && s'.put == s.put && s'.latest == s.latest
    && s'.nrFreeEntry == s.nrFreeEntry
    && s'.index == RedirectIndex(s.index, Live(s.index, src), dst)
    && Live(s.index, dst) == {}
    && Copied(s.slabs[src], s.slabs[dst], s.mem[src], s.disk[c.BlockOf(dst)])
    && s'.slabs[dst].(nrUsed := 0, role := Stored) == s.slabs[dst].(nrUsed := 0, role := Stored)
    && LiveRole(s'.slabs[dst].role)
    && s'.slabs[src].nrUsed == 0 && s'.slabs[dst].nrUsed == |Live(s.index, src)|
    && (forall y :: 0 <= y < c.Slabs() && y != src && y != dst ==> s'.slabs[y] == s.slabs[y])
    && Pending(s.put, src) == 0 && Pending(s.put, dst) == 0
  }

  lemma RedirectEntries(c: Config, s: State, s': State, src: nat, dst: nat)
    requires Redirects(c, s, s', src, dst)
    requires IndexOk(c, s.slabs, s.mem, s.disk, s.index, s.latest, s.put)
    ensures IndexOk(c, s'.slabs, s'.mem, s'.disk, s'.index, s'.latest, s'.put)
  {
    forall t | t in s'.index ensures EntryOk(c, s'.slabs, s'.mem, s'.disk, s'.latest, s'.put, t, s'.index[t]) {
      assert EntryOk(c, s.slabs, s.mem, s.disk, s.latest, s.put, t, s.index[t]);
      assert s.index[t].sid == dst ==> t in Live(s.index, dst);
      assert t in Live(s.index, src) <==> s.index[t].sid == src;
    }
  }

  lemma RedirectIndexOk(c: Config, s: State, s': State, src: nat, dst: nat)
    requires Redirects(c, s, s', src, dst)
    requires InvIndex(c, s) && MoveOk(c, s'.slabs, s'.index, s'.gc)
    ensures InvIndex(c, s')
  {
    hide IndexOk, MoveOk;
    RedirectEntries(c, s, s', src, dst);
    LiveAfterRedirect(s.index, Live(s.index, src), src, dst);
  }

  // ---------- sizes ----------

  /** A node that moves from one list to another moves one unit between their `size_` fields. */
  lemma SizesKept(slabs: seq<Slab>, x: nat, sl: Slab, size: map<ListId, int>, size': map<ListId, int>, free: int,
                  full: int, ops: int)
    requires x < |slabs| && SizesOk(slabs, size, free, full, ops)
    requires forall l :: Counted(l) ==>
               SizeOf(size', l) == SizeOf(size, l) - One(slabs[x].link == l) + One(sl.link == l)
    ensures SizesOk(slabs[x := sl], size',
                    free - One(slabs[x].link.DslabFree?) + One(sl.link.DslabFree?),
                    full - One(slabs[x].link.DslabFull?) + One(sl.link.DslabFull?),
                    ops - One(slabs[x].link.OpsPool?) + One(sl.link.OpsPool?))
    ensures |OfFamily(slabs[x := sl], Reclaimed)| ==
            |OfFamily(slabs, Reclaimed)| - One(slabs[x].link.FreeList?) + One(sl.link.FreeList?)
    ensures |OfFamily(slabs[x := sl], Dropping)| ==
            |OfFamily(slabs, Dropping)| - One(slabs[x].link.ToDrop?) + One(sl.link.ToDrop?)
  {
    Relinked(slabs, x, sl);
  }

  /** Slab counters cover the live entries of every slab after the step too. */
  predicate CountsFollow(s: State, s': State) {
    && |s'.slabs| == |s.slabs|
    && forall y :: 0 <= y < |s.slabs| ==>
         || Pending(s'.put, y) + s.slabs[y].nrUsed <= Pending(s.put, y) + s'.slabs[y].nrUsed
         || |Live(s.index, y)| + Pending(s'.put, y) <= s'.slabs[y].nrUsed
  }

  /** A step that leaves the index alone and keeps its records readable. */
  lemma IndexStands(c: Config, s: State, s': State, x: nat)
    requires Touches(c, s, s', x) && CollectOk(c, s.slabs, s.gc) && InvIndex(c, s)
    requires s'.index == s.index && s'.latest == s.latest && s'.nrFreeEntry == s.nrFreeEntry
    requires Readable(c, s, s', x) && PendingMoves(s, s') && CountsFollow(s, s')
    requires WaitOk(c, s'.index, s'.put)
    requires MoveOk(c, s'.slabs, s'.index, s'.gc) ||
             (s'.gc == s.gc && s'.slabs[c.Buffer()].nrAlloc == s.slabs[c.Buffer()].nrAlloc)
    ensures InvIndex(c, s')
  {
    IndexKept(c, s, s', x);
    if s'.gc == s.gc && s'.slabs[c.Buffer()].nrAlloc == s.slabs[c.Buffer()].nrAlloc { MoveKept(c, s, s'); }
  }

  /** The collector's numbers survive a step of another thread, which may only add full disk slabs. */
  lemma PoolKept(c: Config, s: State, s': State, x: nat)
    requires InvPool(c, s) && x < |s.slabs| == |s'.slabs| && s'.slabs == s.slabs[x := s'.slabs[x]]
    requires forall l :: Counted(l) ==>
               SizeOf(s'.size, l) == SizeOf(s.size, l) - One(s.slabs[x].link == l) + One(s'.slabs[x].link == l)
    requires s'.nrFreeDslab == s.nrFreeDslab - One(s.slabs[x].link.DslabFree?) + One(s'.slabs[x].link.DslabFree?)
    requires s'.nrFullDslab == s.nrFullDslab + One(s'.slabs[x].link.DslabFull? && !s.slabs[x].link.DslabFull?)
    requires s.slabs[x].link.DslabFull? ==> s'.slabs[x].link.DslabFull?
    requires s'.opsSize == s.opsSize && s.slabs[x].link.OpsPool? == s'.slabs[x].link.OpsPool?
    requires s.slabs[x].link.FreeList? == s'.slabs[x].link.FreeList?
    requires s.slabs[x].link.ToDrop? == s'.slabs[x].link.ToDrop?
    requires s'.collections == s.collections && s'.gc == s.gc && s'.lost == s.lost && s'.quickPasses == s.quickPasses
    ensures InvPool(c, s')
  {
    SizesKept(s.slabs, x, s'.slabs[x], s.size, s'.size, s.nrFreeDslab, s.nrFullDslab + s.collections, s.opsSize);
    assert |OfFamily(s'.slabs, FullLists)| >= |OfFamily(s.slabs, FullLists)|;
  }

  /** The flusher and the collector stand by while Put works on a slab of its own. */
  lemma Others(c: Config, s: State, s': State, x: nat)
    requires InvSlabs(c, s) && Touches(c, s, s', x) && x < c.Buffer()
    requires s'.flush == s.flush && s'.gc == s.gc && s'.lost == s.lost
    requires !FlushRole(s.slabs[x].role) && !FlushRole(s'.slabs[x].role)
    requires !GcOnly(s'.slabs[x].role) && MemRole(s'.slabs[x].role)
    ensures FlushOk(c, s'.slabs, s'.mem, s'.disk, s'.flush)
    ensures InvGc(c, s')
  {
    assert SlabOk(c, x, s.slabs[x], ImageOf(c, s.mem, s.disk, x));
    FlushKept(c, s, s', x);
    GcKept(c, s, s', x);
  }
}
