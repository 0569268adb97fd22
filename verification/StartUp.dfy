/** What start-up gives to each channel, and where it sets the water marks. */
module StartUp {
  import opened Types
  import opened Protocol
  import opened Counting
  import opened Arithmetic

  // ---------- every block has its slab ----------

  function Elements(s: seq<nat>): set<nat> { set b | b in s }

  lemma {:induction false} DistinctCount(s: seq<nat>)
    requires forall i, j :: 0 <= i < j < |s| ==> s[i] != s[j]
    ensures |Elements(s)| == |s|
  {
    if s != [] {
      var init, last := s[..|s| - 1], s[|s| - 1];
      DistinctCount(init);
      assert Elements(s) == Elements(init) + {last};
      assert last !in init;
    }
  }

  /** Distinct numbers below their number are all of them. */
  lemma AllOf(s: seq<nat>)
    requires forall i, j :: 0 <= i < j < |s| ==> s[i] != s[j]
    requires forall i :: 0 <= i < |s| ==> s[i] < |s|
    ensures forall b :: 0 <= b < |s| ==> b in s
  {
    hide Below;
    DistinctCount(s);
    BelowIs(|s|);
    SameSize(Elements(s), Below(|s|));
    forall b | 0 <= b < |s| ensures b in s { assert b in Below(|s|) && b in Elements(s); }
  }

  lemma SameSize(a: set<nat>, b: set<nat>)
    requires a <= b && |a| == |b|
    ensures a == b
  {
    assert b == a + (b - a);
  }

  // ---------- every channel has its share ----------

  /** The disk slabs whose block is on channel `ch`. */
  ghost function OnChannel(c: Config, ch: nat): set<nat>
    requires c.Valid()
  {
    set x | 0 <= x < c.Slabs() && c.IsDisk(x) && c.Channel(x) == ch
  }

  ghost function BlocksOf(c: Config, xs: set<nat>): set<nat> { set x | x in xs && c.IsDisk(x) :: c.BlockOf(x) }

  lemma {:induction false} BlocksCount(c: Config, xs: set<nat>)
    requires c.Valid() && forall x :: x in xs ==> c.IsDisk(x)
    ensures |BlocksOf(c, xs)| == |xs|
  {
    if xs != {} {
      var x :| x in xs;
      BlocksCount(c, xs - {x});
      forall y | y in xs - {x} ensures c.BlockOf(y) != c.BlockOf(x) { }
      assert c.BlockOf(x) !in BlocksOf(c, xs - {x});
      assert BlocksOf(c, xs) == BlocksOf(c, xs - {x}) + {c.BlockOf(x)};
    }
  }

  lemma ChannelIs(b: nat, n: nat, ch: nat)
    requires n > 0
    ensures b / n == ch <==> ch * n <= b < (ch + 1) * n
  {
    DivIs(b, n);
    if ch * n <= b < (ch + 1) * n {
      Cancel(ch, b / n + 1, n);
      Cancel(b / n, ch + 1, n);
    }
  }

  /** Every channel has the same number of disk slabs, and the block of each lies in the channel's range. */
  lemma ChannelsEven(c: Config, ch: nat)
    requires c.Valid() && ch < c.nrChannels
    ensures |OnChannel(c, ch)| == c.blocksPerChannel
    ensures forall x :: x in OnChannel(c, ch) <==>
                        c.IsDisk(x) && ch * c.blocksPerChannel <= c.BlockOf(x) < (ch + 1) * c.blocksPerChannel
  {
    var n, lo, hi := c.blocksPerChannel, ch * c.blocksPerChannel, (ch + 1) * c.blocksPerChannel;
    forall x | c.IsDisk(x) ensures c.Channel(x) == ch <==> lo <= c.BlockOf(x) < hi { ChannelIs(c.BlockOf(x), n, ch); }
    assert hi == lo + n;
    Within(ch, c.nrChannels, n);
    AllOf(c.block);
    RangeCount(c, OnChannel(c, ch), lo, hi);
  }

  lemma RangeCount(c: Config, xs: set<nat>, lo: nat, hi: nat)
    requires c.Valid() && lo <= hi <= |c.block| && forall b :: 0 <= b < |c.block| ==> b in c.block
    requires forall x :: x in xs <==> c.IsDisk(x) && lo <= c.BlockOf(x) < hi
    ensures |xs| == hi - lo
  {
    hide Below;
    BelowIs(lo);
    BelowIs(hi);
    SubsetSize(Below(lo), Below(hi));
    forall b | b in Below(hi) - Below(lo) ensures b in BlocksOf(c, xs) {
      assert b in c.block;
      var i :| 0 <= i < |c.block| && c.block[i] == b;
      assert c.BlockOf(c.nrMslab + i) == b;
    }
    assert BlocksOf(c, xs) == Below(hi) - Below(lo);
    BlocksCount(c, xs);
  }

  lemma Within(ch: nat, channels: nat, n: nat)
    requires ch < channels
    ensures (ch + 1) * n <= channels * n
  {
    assert channels * n == (ch + 1) * n + (channels - ch - 1) * n;
  }

  // ---------- the pool's share of each channel ----------

  /** The members of `xs` with fewer than `k` smaller ones. */
  function Smallest(xs: set<nat>, k: nat): set<nat> { set x | x in xs && |Smaller(xs, x)| < k }

  function Smaller(xs: set<nat>, x: nat): set<nat> { set y | y in xs && y < x }

  lemma {:induction false} Greatest(xs: set<nat>) returns (m: nat)
    requires xs != {}
    ensures m in xs && forall x :: x in xs ==> x <= m
  {
    m :| m in xs;
    var rest := xs - {m};
    assert xs == rest + {m};
    if rest != {} {
      var n := Greatest(rest);
      if n > m { m := n; }
    }
  }

  lemma {:induction false} SmallestCount(xs: set<nat>, k: nat)
    ensures |Smallest(xs, k)| == Min(k, |xs|)
  {
    if xs == {} {
      assert Smallest(xs, k) == {};
    } else {
      var m := Greatest(xs);
      var rest := xs - {m};
      SmallestCount(rest, k);
      forall x | x in rest ensures Smaller(xs, x) == Smaller(rest, x) { }
      assert Smaller(xs, m) == rest;
      assert Smallest(xs, k) == Smallest(rest, k) + if |rest| < k then {m} else {};
    }
  }

  /**
   At start-up the first slabs of each channel go to the pool, as many as its share, and all others of the channel to
   its free list.
   */
  lemma BootShares(c: Config, ch: nat)
    requires c.Valid() && ch < c.nrChannels
    ensures |Members(BootSlabs(c), OpsPool(ch))| == Min(c.opsPerChannel, c.blocksPerChannel)
    ensures |Members(BootSlabs(c), DslabFree(ch))| == c.blocksPerChannel - Min(c.opsPerChannel, c.blocksPerChannel)
    ensures forall x, y :: x in Members(BootSlabs(c), OpsPool(ch)) && y in Members(BootSlabs(c), DslabFree(ch)) ==>
                           x < y
  {
    var slabs, all := BootSlabs(c), OnChannel(c, ch);
    var pool, free := Members(slabs, OpsPool(ch)), Members(slabs, DslabFree(ch));
    forall x | 0 <= x < |slabs|
      ensures x in pool <==> x in Smallest(all, c.opsPerChannel)
      ensures x in free <==> x in all && x !in Smallest(all, c.opsPerChannel)
    {
      BootPlace(c, ch, x);
    }
    assert pool == Smallest(all, c.opsPerChannel) && free == all - pool;
    ChannelsEven(c, ch);
    SmallestCount(all, c.opsPerChannel);
    forall x, y | x in pool && y in free ensures x < y { RanksApart(all, x, y); }
  }

  lemma BootPlace(c: Config, ch: nat, x: nat)
    requires c.Valid() && x < c.Slabs()
    ensures BootSlabs(c)[x].link == OpsPool(ch) <==> x in Smallest(OnChannel(c, ch), c.opsPerChannel)
    ensures BootSlabs(c)[x].link == DslabFree(ch) <==>
              x in OnChannel(c, ch) && x !in Smallest(OnChannel(c, ch), c.opsPerChannel)
  {
    assert BootSlabs(c)[x] == BootSlab(c, x);
    if x in OnChannel(c, ch) { assert EarlierInChannel(c, x) == Smaller(OnChannel(c, ch), x); }
  }

  lemma RanksApart(xs: set<nat>, x: nat, y: nat)
    requires x in xs && y in xs && |Smaller(xs, x)| < |Smaller(xs, y)|
    ensures x < y
  {
    if y <= x { SubsetSize(Smaller(xs, y), Smaller(xs, x)); }
  }

  /** The slabs of the pool on the first `n` channels. */
  function PooledBelow(slabs: seq<Slab>, n: nat): set<nat> {
    set x | 0 <= x < |slabs| && slabs[x].link.OpsPool? && slabs[x].link.channel < n
  }

  lemma PooledNext(slabs: seq<Slab>, n: nat)
    ensures |PooledBelow(slabs, n + 1)| == |PooledBelow(slabs, n)| + |Members(slabs, OpsPool(n))|
  {
    var next := Members(slabs, OpsPool(n));
    assert PooledBelow(slabs, n + 1) == PooledBelow(slabs, n) + next;
    assert PooledBelow(slabs, n) !! next;
  }

  lemma {:induction false} PooledCount(slabs: seq<Slab>, n: nat, share: nat)
    requires forall ch :: 0 <= ch < n ==> |Members(slabs, OpsPool(ch))| == share
    ensures |PooledBelow(slabs, n)| == n * share
  {
    hide Members, PooledBelow;
    if n == 0 {
      NonePooled(slabs);
    } else {
      PooledCount(slabs, n - 1, share);
      PooledNext(slabs, n - 1);
      assert n * share == (n - 1) * share + share;
    }
  }

  lemma NonePooled(slabs: seq<Slab>)
    ensures PooledBelow(slabs, 0) == {}
  {
  }

  /** `max_ops_pool_size_`: the share of one channel times the channels. */
  lemma PoolTotal(c: Config)
    requires c.Valid()
    ensures |OfFamily(BootSlabs(c), Pool)| == c.nrChannels * Min(c.opsPerChannel, c.blocksPerChannel)
  {
    hide RankInChannel, Members;
    var slabs := BootSlabs(c);
    forall ch | 0 <= ch < c.nrChannels
      ensures |Members(slabs, OpsPool(ch))| == Min(c.opsPerChannel, c.blocksPerChannel)
    {
      BootShares(c, ch);
    }
    PooledCount(slabs, c.nrChannels, Min(c.opsPerChannel, c.blocksPerChannel));
    forall x | 0 <= x < |slabs| && slabs[x].link.OpsPool? ensures slabs[x].link.channel < c.nrChannels {
      assert slabs[x] == BootSlab(c, x);
      ChannelBound(c, x);
    }
    assert OfFamily(slabs, Pool) == PooledBelow(slabs, c.nrChannels);
  }

  lemma BootFamilies(c: Config, x: nat)
    requires c.Valid() && x < c.Slabs()
    ensures var f := FamilyOf(BootSlabs(c)[x].link);
            if c.IsDisk(x) then f == Pool || f == FreeLists else f == Elsewhere
  {
    hide RankInChannel;
    assert BootSlabs(c)[x] == BootSlab(c, x);
  }

  /** The counters, the index and the marks after start-up. */
  lemma BootCounts(c: Config)
    requires c.Valid()
    ensures var s := Boot(c);
            && s.index == map[] && s.nrFreeEntry == c.nrEntries && s.nrFullDslab == 0
            && s.opsSize == c.nrChannels * Min(c.opsPerChannel, c.blocksPerChannel)
            && s.nrFreeDslab == |c.block| - s.opsSize && s.low == c.low && s.high == c.high
  {
    hide BootSlabs, OfFamily;
    PoolTotal(c);
    BootSplit(c);
  }

  lemma BootSplit(c: Config)
    requires c.Valid()
    ensures |OfFamily(BootSlabs(c), FreeLists)| + |OfFamily(BootSlabs(c), Pool)| == |c.block|
  {
    hide BootSlab;
    var slabs := BootSlabs(c);
    forall x | 0 <= x < |slabs|
      ensures var f := FamilyOf(slabs[x].link);
              if c.IsDisk(x) then f == Pool || f == FreeLists else f == Elsewhere
    {
      BootFamilies(c, x);
    }
    DiskSplit(c, slabs);
    assert OfFamily(slabs, FullLists) == OfFamily(slabs, Dropping) == OfFamily(slabs, Reclaimed) == {};
    assert Unlinked(c, slabs) == {};
  }

  // ---------- index entries ----------

  /** Slot `j` of `size` bytes ends within `total` bytes. */
  predicate EndsWithin(j: nat, size: nat, total: nat) { (j + 1) * size <= total }

  /** Slots, class by class, that end within a slab's size if there were no header. */
  function WholeSlots(c: Config, n: nat): set<(nat, nat)>
    requires n <= |c.classes|
  {
    set i: nat, j: nat | 0 <= i < n && 0 <= j < c.slabSize && EndsWithin(j, c.classes[i], c.slabSize) :: (i, j)
  }

  function Pairs(i: nat, n: nat): set<(nat, nat)> { set j: nat | 0 <= j < n :: (i, j) }

  lemma {:induction false} PairsCount(i: nat, n: nat)
    ensures |Pairs(i, n)| == n
  {
    if n == 0 {
      assert Pairs(i, 0) == {};
    } else {
      PairsCount(i, n - 1);
      assert Pairs(i, n) == Pairs(i, n - 1) + {(i, n - 1)};
    }
  }

  lemma EndsWhen(j: nat, size: nat, total: nat)
    requires size > 0
    ensures EndsWithin(j, size, total) <==> j < total / size
  {
    DivIs(total, size);
    if EndsWithin(j, size, total) { Cancel(j + 1, total / size + 1, size); }
    else { Cancel(total / size, j + 1, size); }
  }

  /** Of one class, as many as the quotient says. */
  lemma ClassSlots(c: Config, n: nat)
    requires n < |c.classes| && c.classes[n] > 0
    ensures (set j: nat | 0 <= j < c.slabSize && EndsWithin(j, c.classes[n], c.slabSize) :: (n, j)) ==
            Pairs(n, c.slabSize / c.classes[n])
  {
    hide EndsWithin;
    var m := c.slabSize / c.classes[n];
    forall j: nat | 0 <= j < c.slabSize ensures EndsWithin(j, c.classes[n], c.slabSize) <==> j < m {
      EndsWhen(j, c.classes[n], c.slabSize);
    }
    QuotientBelow(c.slabSize, c.classes[n], m);
  }

  lemma OneClassMore(c: Config, n: nat)
    requires n < |c.classes|
    ensures var last := set j: nat | 0 <= j < c.slabSize && EndsWithin(j, c.classes[n], c.slabSize) :: (n, j);
            |WholeSlots(c, n + 1)| == |WholeSlots(c, n)| + |last|
  {
    hide EndsWithin;
    var last := set j: nat | 0 <= j < c.slabSize && EndsWithin(j, c.classes[n], c.slabSize) :: (n, j);
    assert WholeSlots(c, n + 1) == WholeSlots(c, n) + last;
    assert WholeSlots(c, n) !! last;
  }

  lemma SlotsNext(c: Config, n: nat)
    requires n < |c.classes| && c.classes[n] > 0
    ensures |WholeSlots(c, n + 1)| == |WholeSlots(c, n)| + c.slabSize / c.classes[n]
  {
    hide EndsWithin, Pairs;
    ClassSlots(c, n);
    PairsCount(n, c.slabSize / c.classes[n]);
    OneClassMore(c, n);
  }

  /** The start-up check asks for an index entry for each slot that a slab of each class could have. */
  lemma {:induction false} EntriesAsked(c: Config, n: nat)
    requires n <= |c.classes| && forall i :: 0 <= i < |c.classes| ==> c.classes[i] > 0
    ensures c.MinEntries(n) == |WholeSlots(c, n)|
  {
    if n == 0 {
      assert WholeSlots(c, 0) == {};
    } else {
      EntriesAsked(c, n - 1);
      SlotsNext(c, n - 1);
    }
  }

  // ---------- the water marks ----------

  /** The constructor's water marks for the default rates on an SSD of `n` blocks. */
  function StartLowMin(n: nat): nat { Max(1, 2 * n / 100) }
  function StartHighMax(n: nat): nat { Max(StartLowMin(n) + 10, 90 * n / 100) }
  function StartLow(n: nat): nat { Max(StartLowMin(n), 7 * n / 100) }
  function StartHigh(n: nat): nat { Min(StartHighMax(n), 80 * n / 100) }

  /** `m` is the whole part of `percent` hundredths of `n`. */
  predicate IsShare(m: nat, percent: nat, n: nat) { 100 * m <= percent * n < 100 * (m + 1) }

  /**
   Two, seven, eighty and ninety hundredths of the blocks; but at least one for the low minimum, the minimum for the low
   mark, ten more than the minimum for the high maximum, and at most that maximum for the high mark.
   */
  lemma StartMarksAre(n: nat, lowMin: nat, low: nat, high: nat, highMax: nat)
    requires IsShare(lowMin, 2, n) && IsShare(low, 7, n) && IsShare(high, 80, n) && IsShare(highMax, 90, n)
    ensures StartLowMin(n) == if lowMin == 0 then 1 else lowMin
    ensures StartLow(n) == if low < StartLowMin(n) then StartLowMin(n) else low
    ensures StartHighMax(n) == if highMax < StartLowMin(n) + 10 then StartLowMin(n) + 10 else highMax
    ensures StartHigh(n) == if high > StartHighMax(n) then StartHighMax(n) else high
  {
  }
}
