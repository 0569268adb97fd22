/** How a normal GC chooses its slabs: a bounded priority queue over all full slabs, then packing class by class. */
module Victims {
  import opened Arithmetic

  /** A full disk slab with its counters as read. */
  datatype Victim = Victim(sid: nat, cid: nat, used: nat, slotSize: nat)

  /** The key of `SlabGCPriorityComparator`: bytes in use. */
  function Weight(v: Victim): nat { v.used * v.slotSize }

  /** The priority queue: lightest first, so that the last element is `top()`. */
  ghost predicate Sorted(s: seq<Victim>) {
    forall i, j :: 0 <= i < j < |s| ==> Weight(s[i]) <= Weight(s[j])
  }

  function Push(pq: seq<Victim>, v: Victim): seq<Victim> {
    if pq == [] then [v]
    else if Weight(pq[|pq| - 1]) <= Weight(v) then pq + [v]
    else Push(pq[..|pq| - 1], v) + [pq[|pq| - 1]]
  }

  lemma {:induction false} PushContents(pq: seq<Victim>, v: Victim)
    ensures |Push(pq, v)| == |pq| + 1 && multiset(Push(pq, v)) == multiset(pq) + multiset{v}
  {
    hide Weight;
    if pq != [] && Weight(pq[|pq| - 1]) > Weight(v) {
      PushContents(pq[..|pq| - 1], v);
      assert pq == pq[..|pq| - 1] + [pq[|pq| - 1]];
    }
  }

  lemma {:induction false} PushSorted(pq: seq<Victim>, v: Victim)
    requires Sorted(pq)
    ensures Sorted(Push(pq, v))
  {
    hide Weight;
    if pq != [] && Weight(pq[|pq| - 1]) > Weight(v) {
      var init, last := pq[..|pq| - 1], pq[|pq| - 1];
      var mid := Push(init, v);
      PushSorted(init, v);
      PushContents(init, v);
      forall i | 0 <= i < |mid| ensures Weight(mid[i]) <= Weight(last) {
        assert mid[i] in multiset(mid);
      }
    }
  }

  function Flat(channels: seq<seq<Victim>>): seq<Victim> {
    if channels == [] then [] else Flat(channels[..|channels| - 1]) + channels[|channels| - 1]
  }

  lemma FlatPrefix(channels: seq<seq<Victim>>, n: nat)
    requires n < |channels|
    ensures Flat(channels[..n + 1]) == Flat(channels[..n]) + channels[n]
  {
    assert channels[..n + 1][..n] == channels[..n];
  }

  /** `pq` holds the `limit` lightest of `all`: what is left out is at least as heavy as anything kept. */
  ghost predicate Lightest(pq: seq<Victim>, all: seq<Victim>, limit: nat) {
    && Sorted(pq) && multiset(pq) <= multiset(all)
    && |pq| == (if |all| <= limit then |all| else limit)
    && forall x, y :: x in pq && y in multiset(all) - multiset(pq) ==> Weight(x) <= Weight(y)
  }

  /** In bytes: a slab that is kept has no more bytes in use than one that is left out. */
  ghost predicate FewestBytes(pq: seq<Victim>, all: seq<Victim>) {
    forall x, y :: x in pq && y in multiset(all) - multiset(pq) ==> x.used * x.slotSize <= y.used * y.slotSize
  }

  lemma LightestBytes(pq: seq<Victim>, all: seq<Victim>, limit: nat)
    requires Lightest(pq, all, limit)
    ensures FewestBytes(pq, all)
  {
  }

  /** One slab offered to the queue. */
  function Offer(pq: seq<Victim>, v: Victim, limit: nat): seq<Victim>
    requires limit > 0
  {
    if |pq| < limit then Push(pq, v)
    else if Weight(v) < Weight(pq[|pq| - 1]) then Push(pq[..|pq| - 1], v)
    else pq
  }

  /** The queue and what it left out, in the terms that `Offer` changes. */
  ghost predicate Split(pq: seq<Victim>, rest: multiset<Victim>) {
    Sorted(pq) && forall x, y :: x in pq && y in rest ==> Weight(x) <= Weight(y)
  }

  /** The new slab replaces the heaviest one kept. */
  lemma ReplaceKeeps(pq: seq<Victim>, rest: multiset<Victim>, v: Victim)
    requires |pq| > 0 && Split(pq, rest) && Weight(v) < Weight(pq[|pq| - 1])
    ensures Split(Push(pq[..|pq| - 1], v), rest + multiset{pq[|pq| - 1]})
    ensures multiset(Push(pq[..|pq| - 1], v)) + multiset{pq[|pq| - 1]} == multiset(pq) + multiset{v}
  {
    hide Weight, Push;
    var init, top := pq[..|pq| - 1], pq[|pq| - 1];
    assert pq == init + [top];
    PushSorted(init, v);
    PushContents(init, v);
    var kept := Push(init, v);
    forall x, y | x in kept && y in rest + multiset{top} ensures Weight(x) <= Weight(y) {
      assert x in multiset(kept);
      assert x in init || x == v;
      assert top in pq;
    }
  }

  /** A slab no lighter than the heaviest one kept is left out. */
  lemma LeaveOutKeeps(pq: seq<Victim>, rest: multiset<Victim>, v: Victim)
    requires |pq| > 0 && Split(pq, rest) && Weight(v) >= Weight(pq[|pq| - 1])
    ensures Split(pq, rest + multiset{v})
  {
    hide Weight;
  }

  /** What the queue leaves out after one more slab was offered. */
  ghost function RestAfter(pq: seq<Victim>, rest: multiset<Victim>, v: Victim, limit: nat): multiset<Victim>
    requires limit > 0
  {
    if |pq| < limit then rest
    else if Weight(v) < Weight(pq[|pq| - 1]) then rest + multiset{pq[|pq| - 1]}
    else rest + multiset{v}
  }

  lemma OfferSplit(pq: seq<Victim>, rest: multiset<Victim>, v: Victim, limit: nat)
    requires limit > 0 && Split(pq, rest) && |pq| <= limit && (|pq| < limit ==> rest == multiset{})
    ensures Split(Offer(pq, v, limit), RestAfter(pq, rest, v, limit))
    ensures multiset(Offer(pq, v, limit)) + RestAfter(pq, rest, v, limit) == multiset(pq) + rest + multiset{v}
    ensures |Offer(pq, v, limit)| == if |pq| < limit then |pq| + 1 else |pq|
  {
    hide Weight, Push;
    if |pq| < limit {
      PushSorted(pq, v);
      PushContents(pq, v);
    } else if Weight(v) < Weight(pq[|pq| - 1]) {
      ReplaceKeeps(pq, rest, v);
      PushContents(pq[..|pq| - 1], v);
      var kept, top := multiset(Push(pq[..|pq| - 1], v)), multiset{pq[|pq| - 1]};
      assert kept + (rest + top) == (kept + top) + rest == multiset(pq) + multiset{v} + rest;
    } else {
      LeaveOutKeeps(pq, rest, v);
    }
  }

  lemma SplitRest(pq: seq<Victim>, all: seq<Victim>, rest: multiset<Victim>)
    requires multiset(pq) + rest == multiset(all)
    ensures multiset(pq) <= multiset(all) && multiset(all) - multiset(pq) == rest && |rest| == |all| - |pq|
  {
    assert |multiset(pq) + rest| == |multiset(all)|;
  }

  lemma OfferKeeps(pq: seq<Victim>, all: seq<Victim>, v: Victim, limit: nat)
    requires limit > 0 && Lightest(pq, all, limit)
    ensures Lightest(Offer(pq, v, limit), all + [v], limit) && FewestBytes(Offer(pq, v, limit), all + [v])
  {
    hide Weight, Offer, RestAfter, Sorted;
    var rest := multiset(all) - multiset(pq);
    var pq', rest' := Offer(pq, v, limit), RestAfter(pq, rest, v, limit);
    assert multiset(pq) + rest == multiset(all);
    assert |pq| < limit ==> rest == multiset{} by { SplitRest(pq, all, rest); }
    OfferSplit(pq, rest, v, limit);
    assert multiset(pq') + rest' == multiset(all + [v]);
    SplitRest(pq', all + [v], rest');
    LightestBytes(pq', all + [v], limit);
  }

  lemma LightestNone(limit: nat)
    ensures Lightest([], [], limit)
  {
  }

  /** The scan of `normal_gc`: on fixed counters it keeps exactly the `limit` lightest full slabs. */
  method KeepLightest(channels: seq<seq<Victim>>, limit: nat) returns (pq: seq<Victim>)
    requires limit > 0
    ensures Lightest(pq, Flat(channels), limit) && FewestBytes(pq, Flat(channels))
  {
    hide Weight, Push, Lightest;
    pq := [];
    LightestNone(limit);
    var ch := 0;
    while ch < |channels|
      invariant 0 <= ch <= |channels| && Lightest(pq, Flat(channels[..ch]), limit)
    {
      ghost var before := Flat(channels[..ch]);
      assert before + channels[ch][..0] == before;
      var i := 0;
      while i < |channels[ch]|
        invariant 0 <= i <= |channels[ch]| && Lightest(pq, before + channels[ch][..i], limit)
      {
        var v := channels[ch][i];
        OfferKeeps(pq, before + channels[ch][..i], v, limit);
        assert before + channels[ch][..i] + [v] == before + channels[ch][..i + 1];
        if |pq| < limit {
          pq := Push(pq, v);
        } else if Weight(v) < Weight(pq[|pq| - 1]) {
          pq := Push(pq[..|pq| - 1], v);
        }
        i := i + 1;
      }
      assert channels[ch][..i] == channels[ch];
      FlatPrefix(channels, ch);
      ch := ch + 1;
    }
    assert channels[..ch] == channels;
    LightestBytes(pq, Flat(channels), limit);
  }

  // ---------- one list for each class, heaviest first ----------

  /** The members of class `cid`, heaviest first, of a queue sorted lightest first. */
  function Drained(pq: seq<Victim>, cid: nat): seq<Victim> {
    if pq == [] then []
    else (if pq[|pq| - 1].cid == cid then [pq[|pq| - 1]] else []) + Drained(pq[..|pq| - 1], cid)
  }

  ghost predicate Descending(s: seq<Victim>) { forall i, j :: 0 <= i < j < |s| ==> s[i].used >= s[j].used }

  lemma {:induction false} DrainedSorted(pq: seq<Victim>, cid: nat, slotSize: nat)
    requires Sorted(pq) && slotSize > 0 && forall v :: v in pq && v.cid == cid ==> v.slotSize == slotSize
    ensures Descending(Drained(pq, cid))
    ensures forall v :: v in Drained(pq, cid) ==> v in pq && v.cid == cid
  {
    if pq != [] {
      var init, last := pq[..|pq| - 1], pq[|pq| - 1];
      DrainedSorted(init, cid, slotSize);
      if last.cid == cid {
        forall v | v in Drained(init, cid) ensures v.used <= last.used {
          assert v in init && Weight(v) <= Weight(last) && last in pq && v in pq;
          Lighter(v.used, last.used, slotSize);
        }
      }
    }
  }

  lemma Lighter(a: nat, b: nat, size: nat)
    requires size > 0 && a * size <= b * size
    ensures a <= b
  {
    assert a * size < b * size + size == (b + 1) * size;
    Cancel(a, b + 1, size);
  }

  /** The draining loop: each class gets its slabs, heaviest first. */
  method GroupByClass(queue: seq<Victim>, nrClasses: nat) returns (groups: seq<seq<Victim>>)
    requires forall v :: v in queue ==> v.cid < nrClasses
    ensures |groups| == nrClasses && forall c :: 0 <= c < nrClasses ==> groups[c] == Drained(queue, c)
  {
    groups := seq(nrClasses, _ => []);
    var pq := queue;
    while |pq| > 0
      invariant |groups| == nrClasses && pq <= queue
      invariant forall c :: 0 <= c < nrClasses ==> groups[c] + Drained(pq, c) == Drained(queue, c)
    {
      var top := pq[|pq| - 1];
      assert top in queue;
      groups := groups[top.cid := groups[top.cid] + [top]];
      pq := pq[..|pq| - 1];
    }
  }

  // ---------- packing one class ----------

  /** Used slots of the last `m` slabs. */
  function TailSum(g: seq<Victim>, m: nat): nat
    requires m <= |g|
  {
    if m == 0 then 0 else TailSum(g, m - 1) + g[|g| - m].used
  }

  lemma {:induction false} TailSumShift(g: seq<Victim>, m: nat)
    requires Descending(g) && m < |g|
    ensures TailSum(g[..|g| - 1], m) >= TailSum(g, m)
    ensures TailSum(g, m + 1) == TailSum(g[..|g| - 1], m) + g[|g| - 1].used
  {
    var h := g[..|g| - 1];
    if m > 0 {
      TailSumShift(g, m - 1);
      assert h[|h| - m] == g[|g| - 1 - m];
    }
  }

  lemma {:induction false} TailSumMono(g: seq<Victim>, m: nat, k: nat)
    requires m <= k <= |g|
    ensures TailSum(g, m) <= TailSum(g, k)
  {
    if m < k { TailSumMono(g, m, k - 1); }
  }

  /** Used slots of all slabs of `s`. */
  function UsedSum(s: seq<Victim>): nat { if s == [] then 0 else UsedSum(s[..|s| - 1]) + s[|s| - 1].used }

  /** It adds up, whatever the order: one slab counts its used slots, and parts count together. */
  lemma {:induction false} UsedSumAdds(s: seq<Victim>, s': seq<Victim>, v: Victim)
    ensures UsedSum([v]) == v.used && UsedSum(s + s') == UsedSum(s) + UsedSum(s')
  {
    assert [v][..0] == [];
    if s' == [] {
      assert s + s' == s;
    } else {
      var n := |s'| - 1;
      UsedSumAdds(s, s'[..n], v);
      assert (s + s')[..|s| + n] == s + s'[..n];
    }
  }

  lemma {:induction false} UsedSumRemove(s: seq<Victim>, i: nat)
    requires i < |s|
    ensures UsedSum(s) == UsedSum(s[..i] + s[i + 1..]) + s[i].used
  {
    var n := |s| - 1;
    if i < n {
      UsedSumRemove(s[..n], i);
      assert (s[..i] + s[i + 1..])[..n - 1] == s[..n][..i] + s[..n][i + 1..];
    } else {
      assert s[..i] + s[i + 1..] == s[..n];
    }
  }

  lemma TakeOut(other: seq<Victim>, i: nat, h: seq<Victim>, last: Victim)
    requires i < |other| && other[i] == last && multiset(other) <= multiset(h + [last])
    ensures var rest := other[..i] + other[i + 1..];
            multiset(rest) <= multiset(h) && UsedSum(other) == UsedSum(rest) + last.used
  {
    var rest := other[..i] + other[i + 1..];
    assert other == other[..i] + [last] + other[i + 1..];
    assert multiset(rest) == multiset(other) - multiset{last};
    UsedSumRemove(other, i);
  }

  lemma WithoutLast(other: seq<Victim>, h: seq<Victim>, last: Victim)
    requires last !in other && multiset(other) <= multiset(h + [last])
    ensures multiset(other) <= multiset(h)
  {
    forall x ensures multiset(other)[x] <= multiset(h)[x] {
      if x == last { assert x !in multiset(other); }
    }
  }

  lemma NoneUsed(other: seq<Victim>)
    requires multiset(other) <= multiset{}
    ensures other == [] && UsedSum(other) == 0
  {
    assert |multiset(other)| == 0;
  }

  /** Any slabs of a descending group use at least as many slots as that many of the emptiest ones. */
  lemma {:induction false} CheapestSlabs(g: seq<Victim>, other: seq<Victim>)
    requires Descending(g) && multiset(other) <= multiset(g)
    ensures |other| <= |g| && TailSum(g, |other|) <= UsedSum(other)
    decreases |g|
  {
    hide UsedSum;
    if g == [] {
      NoneUsed(other);
    } else {
      var h, last := g[..|g| - 1], g[|g| - 1];
      assert g == h + [last];
      if i :| 0 <= i < |other| && other[i] == last {
        TakeOut(other, i, h, last);
        var rest := other[..i] + other[i + 1..];
        assert |rest| == |other| - 1;
        CheapestSlabs(h, rest);
        TailSumShift(g, |other| - 1);
      } else {
        WithoutLast(other, h, last);
        CheapestSlabs(h, other);
        TailSumShift(g, |other|);
      }
    }
  }

  lemma {:induction false} TailUsed(g: seq<Victim>, s: seq<Victim>)
    requires |s| <= |g| && forall k :: 0 <= k < |s| ==> s[k] == g[|g| - 1 - k]
    ensures UsedSum(s) == TailSum(g, |s|) && multiset(s) <= multiset(g)
  {
    if s != [] {
      var n := |s| - 1;
      TailUsed(g, s[..n]);
      TailHolds(g, s);
    }
  }

  /** Slabs taken from the end of a group, in reverse, are slabs of the group. */
  lemma {:induction false} TailHolds(g: seq<Victim>, s: seq<Victim>)
    requires |s| <= |g| && forall k :: 0 <= k < |s| ==> s[k] == g[|g| - 1 - k]
    ensures multiset(s) <= multiset(g)
    decreases |g|
  {
    if s != [] {
      var h := g[..|g| - 1];
      assert g == h + [g[|g| - 1]] && s == [s[0]] + s[1..];
      TailHolds(h, s[1..]);
    }
  }

  /** `s` are slabs of `g` that fit, and no slabs of `g` that fit are more. */
  ghost predicate MostOf(g: seq<Victim>, slots: nat, s: seq<Victim>) {
    && multiset(s) <= multiset(g) && UsedSum(s) <= slots
    && forall other :: multiset(other) <= multiset(g) && UsedSum(other) <= slots ==> |other| <= |s|
  }

  lemma TailIsMost(g: seq<Victim>, slots: nat, s: seq<Victim>)
    requires Descending(g) && |s| <= |g| && multiset(s) <= multiset(g) && UsedSum(s) <= slots
    requires |s| < |g| ==> TailSum(g, |s| + 1) > slots
    ensures MostOf(g, slots, s)
  {
    forall other | multiset(other) <= multiset(g) && UsedSum(other) <= slots ensures |other| <= |s| {
      CheapestSlabs(g, other);
      if |other| > |s| { TailSumMono(g, |s| + 1, |other|); }
    }
  }

  /**
   The packing loop for one class takes its emptiest slabs while they fit in one slab of `slots` slots. No other slabs
   of the class that fit are more.
   */
  method Pack(group: seq<Victim>, slots: nat) returns (toDrop: seq<Victim>, moved: nat)
    requires Descending(group)
    ensures |toDrop| <= |group| && moved == UsedSum(toDrop) && MostOf(group, slots, toDrop)
    ensures forall k :: 0 <= k < |toDrop| ==> toDrop[k] == group[|group| - 1 - k]
  {
    hide MostOf, UsedSum;
    toDrop, moved := [], 0;
    var left := group;
    while |left| > 0
      invariant |toDrop| <= |group| && left == group[..|group| - |toDrop|]
      invariant moved == TailSum(group, |toDrop|) <= slots
      invariant forall k :: 0 <= k < |toDrop| ==> toDrop[k] == group[|group| - 1 - k]
      decreases |left|
    {
      var last := left[|left| - 1];
      if last.used + moved > slots {
        break;
      }
      left := left[..|left| - 1];
      toDrop := toDrop + [last];
      moved := moved + last.used;
    }
    TailUsed(group, toDrop);
    TailIsMost(group, slots, toDrop);
  }

  // ---------- from the full lists to the slabs of each collection ----------

  /** Slabs of class `cid` of `kept` whose live slots fit in one slab. */
  ghost predicate Packs(kept: seq<Victim>, cid: nat, slots: nat, s: seq<Victim>) {
    multiset(s) <= multiset(kept) && UsedSum(s) <= slots && forall v :: v in s ==> v.cid == cid
  }

  /** No other such slabs are more. */
  ghost predicate PacksMost(kept: seq<Victim>, cid: nat, slots: nat, s: seq<Victim>) {
    Packs(kept, cid, slots, s) && forall other :: Packs(kept, cid, slots, other) ==> |other| <= |s|
  }

  lemma {:induction false} DrainedHolds(pq: seq<Victim>, cid: nat)
    ensures multiset(Drained(pq, cid)) <= multiset(pq)
    ensures forall v: Victim :: v.cid == cid ==> multiset(Drained(pq, cid))[v] == multiset(pq)[v]
    ensures forall v :: v in Drained(pq, cid) ==> v.cid == cid
  {
    if pq != [] {
      var init, last := pq[..|pq| - 1], pq[|pq| - 1];
      assert pq == init + [last];
      DrainedHolds(init, cid);
    }
  }

  /** What is the most of the drained class is the most among all kept slabs of the class. */
  lemma PackIsMost(kept: seq<Victim>, cid: nat, slots: nat, s: seq<Victim>)
    requires MostOf(Drained(kept, cid), slots, s)
    ensures PacksMost(kept, cid, slots, s)
  {
    hide UsedSum, Drained;
    var g := Drained(kept, cid);
    DrainedHolds(kept, cid);
    forall v | v in s ensures v.cid == cid { assert v in multiset(s) && v in multiset(g); }
    forall other | Packs(kept, cid, slots, other) ensures |other| <= |s| {
      forall v ensures multiset(other)[v] <= multiset(g)[v] {
        if v in multiset(other) { assert v in other; }
      }
    }
  }

  /** The classes with a collection. */
  function Collected(collected: seq<seq<Victim>>): set<nat> {
    set c | 0 <= c < |collected| && collected[c] != []
  }

  lemma CollectedAppend(collected: seq<seq<Victim>>, s: seq<Victim>)
    ensures |Collected(collected + [s])| == |Collected(collected)| + (if s == [] then 0 else 1)
  {
    assert Collected(collected + [s]) == Collected(collected) + (if s == [] then {} else {|collected|});
  }

  /** What a normal pass collects of class `cid`: the most slabs that fit, unless fewer than two do. */
  ghost predicate Outcome(kept: seq<Victim>, cid: nat, slots: nat, s: seq<Victim>) {
    if s == [] then forall other :: Packs(kept, cid, slots, other) ==> |other| <= 1
    else |s| > 1 && PacksMost(kept, cid, slots, s)
  }

  lemma OutcomeIs(kept: seq<Victim>, cid: nat, slots: nat, s: seq<Victim>)
    requires PacksMost(kept, cid, slots, s)
    ensures Outcome(kept, cid, slots, if |s| > 1 then s else [])
  {
  }

  /** The candidates satisfy what is known of all full slabs. */
  lemma KeptFrom(kept: seq<Victim>, all: seq<Victim>, limit: nat)
    requires Lightest(kept, all, limit)
    ensures Sorted(kept) && forall v :: v in kept ==> v in all
  {
    forall v | v in kept ensures v in all { assert v in multiset(kept) && v in multiset(all); }
  }

  /**
   From the full lists to the slabs collected for each class, on fixed counters and with `ops` spare slabs: the
   candidates are the `3 * ops` lightest full slabs; each class collects the most candidates that fit in one slab,
   unless fewer than two do. The pass stops early only when the spare slabs are used up and the next class has something
   to collect.
   */
  method ChooseSlabs(channels: seq<seq<Victim>>, ops: nat, slots: seq<nat>, sizes: seq<nat>)
    returns (kept: seq<Victim>, collected: seq<seq<Victim>>)
    requires ops > 0 && |sizes| == |slots|
    requires forall v :: v in Flat(channels) ==> v.cid < |sizes| && v.slotSize == sizes[v.cid] > 0
    ensures Lightest(kept, Flat(channels), 3 * ops) && FewestBytes(kept, Flat(channels))
    ensures |collected| <= |slots| && |Collected(collected)| <= ops
    ensures forall c :: 0 <= c < |collected| ==> Outcome(kept, c, slots[c], collected[c])
    ensures |collected| < |slots| ==>
              |Collected(collected)| == ops && !Outcome(kept, |collected|, slots[|collected|], [])
  {
    hide Lightest, Sorted, Descending, Drained, Outcome, MostOf, PacksMost, Flat, Weight, UsedSum;
    kept := KeepLightest(channels, 3 * ops);
    KeptFrom(kept, Flat(channels), 3 * ops);
    var groups := GroupByClass(kept, |slots|);
    collected := [];
    var left := ops;
    while |collected| < |slots|
      invariant |collected| <= |slots| && left == ops - |Collected(collected)| >= 0
      invariant forall c :: 0 <= c < |collected| ==> Outcome(kept, c, slots[c], collected[c])
    {
      var cid := |collected|;
      DrainedFrom(kept, cid, sizes[cid]);
      var toDrop, moved := Pack(groups[cid], slots[cid]);
      PackIsMost(kept, cid, slots[cid], toDrop);
      if |toDrop| > 1 && left <= 0 {
        MoreThanOne(kept, cid, slots[cid], toDrop);
        break;
      }
      OutcomeIs(kept, cid, slots[cid], toDrop);
      var done := if |toDrop| > 1 then toDrop else [];
      CollectedAppend(collected, done);
      if |toDrop| > 1 { left := left - 1; }
      collected := collected + [done];
    }
  }

  lemma MoreThanOne(kept: seq<Victim>, cid: nat, slots: nat, s: seq<Victim>)
    requires PacksMost(kept, cid, slots, s) && |s| > 1
    ensures !Outcome(kept, cid, slots, [])
  {
  }

  lemma DrainedFrom(kept: seq<Victim>, cid: nat, slotSize: nat)
    requires Sorted(kept) && forall v :: v in kept && v.cid == cid ==> v.slotSize == slotSize > 0
    ensures Descending(Drained(kept, cid))
  {
    if Drained(kept, cid) != [] {
      DrainedHolds(kept, cid);
      var v := Drained(kept, cid)[0];
      assert v in multiset(Drained(kept, cid)) && v in multiset(kept);
      DrainedSorted(kept, cid, slotSize);
    }
  }
}
