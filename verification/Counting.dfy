/** How list sizes and live-entry counts move when one slab or one entry changes. */
module Counting {
  import opened Types
  import opened Protocol
  import opened Arithmetic

  function One(b: bool): nat { if b then 1 else 0 }

  lemma SetStep<T>(a: set<T>, b: set<T>, x: T, was: bool, now: bool)
    requires forall y :: y != x ==> (y in a <==> y in b)
    requires (x in a <==> was) && (x in b <==> now)
    ensures |b| == |a| - One(was) + One(now)
  {
    assert a - {x} == b - {x};
    assert |a - {x}| == |a| - One(was);
    assert |b - {x}| == |b| - One(now);
  }

  /** Rewriting one header moves its node between exactly two lists. */
  lemma Relinked(slabs: seq<Slab>, x: nat, sl: Slab)
    requires x < |slabs|
    ensures forall l :: |Members(slabs[x := sl], l)| ==
                        |Members(slabs, l)| - One(slabs[x].link == l) + One(sl.link == l)
    ensures forall f :: |OfFamily(slabs[x := sl], f)| ==
                        |OfFamily(slabs, f)| - One(FamilyOf(slabs[x].link) == f) + One(FamilyOf(sl.link) == f)
  {
    forall l ensures |Members(slabs[x := sl], l)| ==
                     |Members(slabs, l)| - One(slabs[x].link == l) + One(sl.link == l) {
      SetStep(Members(slabs, l), Members(slabs[x := sl], l), x, slabs[x].link == l, sl.link == l);
    }
    forall f ensures |OfFamily(slabs[x := sl], f)| ==
                     |OfFamily(slabs, f)| - One(FamilyOf(slabs[x].link) == f) + One(FamilyOf(sl.link) == f) {
      SetStep(OfFamily(slabs, f), OfFamily(slabs[x := sl], f), x, FamilyOf(slabs[x].link) == f, FamilyOf(sl.link) == f);
    }
  }

  /** Pointing one tag somewhere takes it from the slab it named before and gives it to the new one. */
  lemma LiveAfterSet(index: map<Tag, Loc>, t: Tag, to: Loc)
    ensures forall x :: |Live(index[t := to], x)| ==
                        |Live(index, x)| - One(t in index && index[t].sid == x) + One(to.sid == x)
  {
    forall x ensures |Live(index[t := to], x)| ==
                     |Live(index, x)| - One(t in index && index[t].sid == x) + One(to.sid == x) {
      SetStep(Live(index, x), Live(index[t := to], x), t, t in index && index[t].sid == x, to.sid == x);
    }
  }

  lemma LiveAfterDrop(index: map<Tag, Loc>, gone: set<Tag>)
    ensures forall x :: Live(index - gone, x) <= Live(index, x) && |Live(index - gone, x)| <= |Live(index, x)|
    ensures |Tags(index - gone)| == |Tags(index)| - |index.Keys * gone|
  {
    forall x ensures Live(index - gone, x) <= Live(index, x) && |Live(index - gone, x)| <= |Live(index, x)| {
      SubsetSize(Live(index - gone, x), Live(index, x));
    }
    assert Tags(index - gone) == Tags(index) - index.Keys * gone && index.Keys * gone <= Tags(index);
  }

  lemma LiveAfterDropOne(index: map<Tag, Loc>, t: Tag)
    requires t in index
    ensures forall x :: |Live(index - {t}, x)| == |Live(index, x)| - One(index[t].sid == x)
    ensures |Tags(index - {t})| == |Tags(index)| - 1
  {
    forall x ensures |Live(index - {t}, x)| == |Live(index, x)| - One(index[t].sid == x) {
      SetStep(Live(index, x), Live(index - {t}, x), t, index[t].sid == x, false);
    }
    assert Tags(index - {t}) == Tags(index) - {t};
  }

  lemma SubsetSize<T>(a: set<T>, b: set<T>)
    requires a <= b
    ensures |a| <= |b|
  {
    assert b == a + (b - a);
  }

  /** A redirect that finds every live entry of `src` hands them all to `dst` and leaves other slabs alone. */
  lemma LiveAfterRedirect(index: map<Tag, Loc>, moved: set<Tag>, src: nat, dst: nat)
    requires src != dst && moved == Live(index, src) && Live(index, dst) == {}
    ensures Live(RedirectIndex(index, moved, dst), src) == {}
    ensures Live(RedirectIndex(index, moved, dst), dst) == moved
    ensures forall x :: x != src && x != dst ==> Live(RedirectIndex(index, moved, dst), x) == Live(index, x)
    ensures Tags(RedirectIndex(index, moved, dst)) == Tags(index)
  {
    var after := RedirectIndex(index, moved, dst);
    assert Tags(after) == Tags(index);
    assert forall t :: t in index ==> (t in Live(index, dst) <==> index[t].sid == dst);
    assert Live(after, src) == {};
    assert Live(after, dst) == moved;
    forall x | x != src && x != dst ensures Live(after, x) == Live(index, x) {
      assert forall t :: t in Live(after, x) <==> t in Live(index, x);
    }
  }

  /** A source entry that moves to the buffer. */
  lemma SizeAfterSet(index: map<Tag, Loc>, t: Tag, to: Loc)
    ensures |Tags(index[t := to])| == |Tags(index)| + One(t !in index)
  {
    SetStep(Tags(index), Tags(index[t := to]), t, t in index, true);
  }

  lemma MemberFamily(slabs: seq<Slab>, x: nat)
    requires x < |slabs|
    ensures |Members(slabs, slabs[x].link)| > 0
    ensures |OfFamily(slabs, FamilyOf(slabs[x].link))| > 0
  {
    assert x in Members(slabs, slabs[x].link);
    assert x in OfFamily(slabs, FamilyOf(slabs[x].link));
  }

  // ---------- the disk slabs, counted ----------

  lemma ChannelBound(c: Config, x: nat)
    requires c.Valid() && c.IsDisk(x)
    ensures c.Channel(x) < c.nrChannels
  {
    var b, n := c.BlockOf(x), c.blocksPerChannel;
    assert (b / n) * n <= b < c.nrChannels * n;
    Cancel(b / n, c.nrChannels, n);
  }

  ghost function Disks(c: Config): set<nat> { set x | 0 <= x < c.Slabs() && c.IsDisk(x) }

  /** Disk slabs whose node is on no list of disk slabs. */
  ghost function Unlinked(c: Config, slabs: seq<Slab>): set<nat> {
    set x | 0 <= x < |slabs| && c.IsDisk(x) && FamilyOf(slabs[x].link) == Elsewhere
  }

  function Below(n: nat): set<nat> { if n == 0 then {} else Below(n - 1) + {n - 1} }

  lemma {:induction false} BelowIs(n: nat)
    ensures |Below(n)| == n && forall x: nat :: x in Below(n) <==> x < n
  {
    if n > 0 { BelowIs(n - 1); }
  }

  lemma DiskCount(c: Config)
    ensures |Disks(c)| == |c.block|
  {
    BelowIs(c.Slabs());
    BelowIs(c.nrMslab);
    assert Disks(c) == Below(c.Slabs()) - Below(c.nrMslab);
    assert Below(c.nrMslab) <= Below(c.Slabs());
  }

  /** The slabs on the lists of family `f` are the difference between two sets of slabs. */
  lemma Peel(slabs: seq<Slab>, big: set<nat>, small: set<nat>, f: Family)
    requires forall x :: x in big ==> x < |slabs|
    requires forall x :: x in small <==> x in big && FamilyOf(slabs[x].link) != f
    requires forall x :: 0 <= x < |slabs| && FamilyOf(slabs[x].link) == f ==> x in big
    ensures |big| == |small| + |OfFamily(slabs, f)|
  {
    assert big == small + OfFamily(slabs, f);
    assert small !! OfFamily(slabs, f);
  }

  /** Disk slabs on none of the listed families. */
  ghost function OutsideOf(c: Config, slabs: seq<Slab>, fs: seq<Family>): set<nat> {
    set x | 0 <= x < |slabs| && c.IsDisk(x) && FamilyOf(slabs[x].link) !in fs
  }

  /** Every disk slab is on one family of lists or on none. */
  lemma DiskSplit(c: Config, slabs: seq<Slab>)
    requires |slabs| == c.Slabs()
    requires forall x :: 0 <= x < |slabs| && FamilyOf(slabs[x].link) != Elsewhere ==> c.IsDisk(x)
    ensures |c.block| == |OfFamily(slabs, FreeLists)| + |OfFamily(slabs, FullLists)| + |OfFamily(slabs, Pool)|
                         + |OfFamily(slabs, Dropping)| + |OfFamily(slabs, Reclaimed)| + |Unlinked(c, slabs)|
  {
    DiskCount(c);
    var w0 := OutsideOf(c, slabs, []);
    var w1 := OutsideOf(c, slabs, [FreeLists]);
    var w2 := OutsideOf(c, slabs, [FreeLists, FullLists]);
    var w3 := OutsideOf(c, slabs, [FreeLists, FullLists, Pool]);
    var w4 := OutsideOf(c, slabs, [FreeLists, FullLists, Pool, Dropping]);
    var w5 := OutsideOf(c, slabs, [FreeLists, FullLists, Pool, Dropping, Reclaimed]);
    assert w0 == Disks(c);
    Peel(slabs, w0, w1, FreeLists);
    Peel(slabs, w1, w2, FullLists);
    Peel(slabs, w2, w3, Pool);
    Peel(slabs, w3, w4, Dropping);
    Peel(slabs, w4, w5, Reclaimed);
    assert w5 == Unlinked(c, slabs);
  }
}
