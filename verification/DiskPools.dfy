/** The per-channel lists of disk slabs and the loops that scan, drain and refill them. */
module DiskPools {

  /** `List`: the members, front first, and `size_`. */
  datatype List = List(items: seq<nat>, size: int) {
    predicate Exact() { size == |items| }

    function Push(x: nat): List { List([x] + items, size + 1) }

    function Pop(): List requires items != [] { List(items[1..], size - 1) }
  }

  /** All members of a vector of lists. */
  ghost function Items(lists: seq<List>): multiset<nat> {
    if lists == [] then multiset{} else Items(lists[..|lists| - 1]) + multiset(lists[|lists| - 1].items)
  }

  lemma Swap(a: multiset<nat>, r: multiset<nat>, m: multiset<nat>)
    ensures (a + m) + r == (a + r) + m
  {
  }

  lemma AddBoth(a: multiset<nat>, b: multiset<nat>, r: multiset<nat>, s: multiset<nat>, m: multiset<nat>)
    requires a + r == b + s
    ensures (a + m) + r == (b + m) + s
  {
    Swap(a, r, m);
    Swap(b, s, m);
  }

  lemma Unadd(a: multiset<nat>, b: multiset<nat>, r: multiset<nat>)
    requires a + r == b + r
    ensures a == b
  {
    forall x ensures a[x] == b[x] { assert (a + r)[x] == (b + r)[x]; }
  }

  /** Replacing one list replaces its members. */
  lemma {:induction false} ItemsSet(lists: seq<List>, ch: nat, l: List)
    requires ch < |lists|
    ensures Items(lists[ch := l]) + multiset(lists[ch].items) == Items(lists) + multiset(l.items)
  {
    var n := |lists| - 1;
    var lists' := lists[ch := l];
    if ch < n {
      ItemsSet(lists[..n], ch, l);
      assert lists'[..n] == lists[..n][ch := l];
      AddBoth(Items(lists'[..n]), Items(lists[..n]), multiset(lists[ch].items), multiset(l.items),
              multiset(lists[n].items));
    } else {
      assert lists'[..n] == lists[..n];
      Swap(Items(lists[..n]), multiset(lists[n].items), multiset(l.items));
    }
  }

  lemma ItemsPop(lists: seq<List>, ch: nat, l: List)
    requires ch < |lists| && lists[ch].items != [] && l.items == lists[ch].items[1..]
    ensures Items(lists[ch := l]) + multiset{lists[ch].items[0]} == Items(lists)
    ensures |Items(lists[ch := l])| == |Items(lists)| - 1
  {
    hide Items;
    ItemsSet(lists, ch, l);
    var a, x, r := Items(lists[ch := l]), multiset{lists[ch].items[0]}, multiset(l.items);
    assert lists[ch].items == [lists[ch].items[0]] + l.items;
    assert multiset(lists[ch].items) == x + r;
    assert (a + x) + r == a + (x + r);
    Unadd(a + x, Items(lists), r);
  }

  lemma ItemsPush(lists: seq<List>, ch: nat, l: List, x: nat)
    requires ch < |lists| && l.items == [x] + lists[ch].items
    ensures Items(lists[ch := l]) == Items(lists) + multiset{x}
    ensures |Items(lists[ch := l])| == |Items(lists)| + 1
  {
    hide Items;
    ItemsSet(lists, ch, l);
    var b, r := Items(lists), multiset(lists[ch].items);
    assert multiset(l.items) == multiset{x} + r;
    assert b + (multiset{x} + r) == (b + multiset{x}) + r;
    Unadd(Items(lists[ch := l]), b + multiset{x}, r);
  }

  /** Exact sizes, and every slab on the list of its own channel. */
  ghost predicate ListsOk(lists: seq<List>, n: nat, channelOf: nat -> nat) {
    && |lists| == n
    && (forall ch :: 0 <= ch < |lists| ==> lists[ch].Exact())
    && Homed(lists, channelOf)
  }

  ghost predicate Homed(lists: seq<List>, channelOf: nat -> nat) {
    forall ch, x :: 0 <= ch < |lists| && x in lists[ch].items ==> channelOf(x) == ch
  }

  lemma PopKeeps(lists: seq<List>, ch: nat, n: nat, channelOf: nat -> nat)
    requires ListsOk(lists, n, channelOf) && ch < n && lists[ch].items != []
    ensures ListsOk(lists[ch := lists[ch].Pop()], n, channelOf) && channelOf(lists[ch].items[0]) == ch
    ensures Items(lists[ch := lists[ch].Pop()]) + multiset{lists[ch].items[0]} == Items(lists)
    ensures |Items(lists[ch := lists[ch].Pop()])| == |Items(lists)| - 1
  {
    hide Items;
    ItemsPop(lists, ch, lists[ch].Pop());
  }

  lemma PushKeeps(lists: seq<List>, x: nat, n: nat, channelOf: nat -> nat)
    requires ListsOk(lists, n, channelOf) && channelOf(x) < n
    ensures ListsOk(lists[channelOf(x) := lists[channelOf(x)].Push(x)], n, channelOf)
    ensures Items(lists[channelOf(x) := lists[channelOf(x)].Push(x)]) == Items(lists) + multiset{x}
    ensures |Items(lists[channelOf(x) := lists[channelOf(x)].Push(x)])| == |Items(lists)| + 1
  {
    hide Items;
    ItemsPush(lists, channelOf(x), lists[channelOf(x)].Push(x), x);
  }

  lemma {:induction false} SomeNonempty(lists: seq<List>) returns (ch: nat)
    requires |Items(lists)| > 0
    ensures ch < |lists| && lists[ch].items != []
  {
    var n := |lists| - 1;
    if lists[n].items != [] {
      ch := n;
    } else {
      ch := SomeNonempty(lists[..n]);
    }
  }

  lemma {:induction false} AllEmpty(lists: seq<List>)
    requires forall ch :: 0 <= ch < |lists| ==> lists[ch].items == []
    ensures Items(lists) == multiset{}
  {
    if lists != [] { AllEmpty(lists[..|lists| - 1]); }
  }

  /** Steps from channel `a` forward to channel `g` on a ring of `n`. */
  function Ahead(a: nat, g: nat, n: nat): nat
    requires a < n && g < n
  { if a <= g then g - a else g + n - a }

  /** `next_channel`. */
  function NextChannel(ch: nat, n: nat): (next: nat)
    requires ch < n
    ensures next == if ch + 1 == n then 0 else ch + 1
  { (ch + 1) % n }

  lemma AheadNext(a: nat, g: nat, n: nat)
    requires a < n && g < n && a != g
    ensures Ahead(NextChannel(a, n), g, n) == Ahead(a, g, n) - 1
  {
  }

  /**
   The channel scan of `do_slab_flush` and `gc_dslabs`: the first channel from `start` on whose list is not empty, and
   the cursor after it; after one fruitless round the cursor is back at `start`.
   */
  method Scan(lists: seq<List>, start: nat) returns (found: bool, ch: nat, next: nat)
    requires start < |lists|
    ensures found <==> |Items(lists)| > 0
    ensures found ==> ch < |lists| && lists[ch].items != [] && next == NextChannel(ch, |lists|)
    ensures found ==> forall g :: 0 <= g < |lists| && Ahead(start, g, |lists|) < Ahead(start, ch, |lists|) ==>
                                  lists[g].items == []
    ensures !found ==> next == start
  {
    var n := |lists|;
    next := start;
    ghost var seen := 0;
    var turning := true;
    while turning
      invariant next < n && 0 <= seen <= n
      invariant turning ==> seen < n && Ahead(start, next, n) == seen
      invariant !turning ==> seen == n && next == start
      invariant forall g :: 0 <= g < n && Ahead(start, g, n) < seen ==> lists[g].items == []
      decreases turning, n - seen
    {
      ch := next;
      next := NextChannel(ch, n);
      if lists[ch].items != [] {
        found := true;
        if |Items(lists)| == 0 { ItemsSet(lists, ch, List([], 0)); }
        return;
      }
      seen := seen + 1;
      turning := next != start;
    }
    AllEmpty(lists);
    return false, 0, next;
  }

  lemma Regroup(rest: multiset<nat>, d: nat, s: seq<nat>)
    ensures rest + multiset([d] + s) == (rest + multiset{d}) + multiset(s)
  {
  }

  /** Slab `d` is at the front of the first non-empty channel from `start` on, which is `ch`. */
  ghost predicate IsFirst(lists: seq<List>, start: nat, ch: nat, d: nat) {
    && start < |lists| && ch < |lists| && lists[ch].items != [] && lists[ch].items[0] == d
    && forall g :: 0 <= g < |lists| && Ahead(start, g, |lists|) < Ahead(start, ch, |lists|) ==> lists[g].items == []
  }

  // ---------- the order in which the full lists are drained ----------

  function Reversed(s: seq<nat>): seq<nat> { if s == [] then [] else Reversed(s[1..]) + [s[0]] }

  /** The lists after the slabs of `q` were taken off their fronts. */
  ghost function ListsAfter(lists: seq<List>, q: seq<nat>, channelOf: nat -> nat): seq<List> {
    if q == [] then lists
    else
      var before, ch := ListsAfter(lists, q[..|q| - 1], channelOf), channelOf(q[|q| - 1]);
      if ch < |before| && before[ch].items != [] then before[ch := before[ch].Pop()] else before
  }

  /** `next_channel` stays at the channel last taken from. */
  function CursorAfter(cursor: nat, q: seq<nat>, channelOf: nat -> nat): nat {
    if q == [] then cursor else channelOf(q[|q| - 1])
  }

  /** The scan that follows `cursor` finds slab `d` first. */
  ghost predicate ComesNext(lists: seq<List>, cursor: nat, d: nat, channelOf: nat -> nat) {
    cursor < |lists| && IsFirst(lists, NextChannel(cursor, |lists|), channelOf(d), d)
  }

  /** Each slab of `q` in turn is at the front of the next non-empty channel after the one before it. */
  ghost predicate InTurn(lists: seq<List>, cursor: nat, q: seq<nat>, channelOf: nat -> nat) {
    forall i :: 0 <= i < |q| ==>
      ComesNext(ListsAfter(lists, q[..i], channelOf), CursorAfter(cursor, q[..i], channelOf), q[i], channelOf)
  }

  lemma InTurnOneMore(lists: seq<List>, cursor: nat, q: seq<nat>, d: nat, channelOf: nat -> nat)
    requires InTurn(lists, cursor, q, channelOf)
    requires ComesNext(ListsAfter(lists, q, channelOf), CursorAfter(cursor, q, channelOf), d, channelOf)
    ensures InTurn(lists, cursor, q + [d], channelOf)
    ensures var before := ListsAfter(lists, q, channelOf);
            && channelOf(d) < |before| && before[channelOf(d)].items != []
            && ListsAfter(lists, q + [d], channelOf) == before[channelOf(d) := before[channelOf(d)].Pop()]
  {
    hide ComesNext;
    var more := q + [d];
    assert more[..|q|] == q;
    forall i | 0 <= i < |more|
      ensures ComesNext(ListsAfter(lists, more[..i], channelOf), CursorAfter(cursor, more[..i], channelOf), more[i],
                        channelOf)
    {
      if i < |q| { assert more[..i] == q[..i]; }
    }
    FrontIs(ListsAfter(lists, q, channelOf), CursorAfter(cursor, q, channelOf), d, channelOf);
  }

  lemma FrontIs(lists: seq<List>, cursor: nat, d: nat, channelOf: nat -> nat)
    requires ComesNext(lists, cursor, d, channelOf)
    ensures channelOf(d) < |lists| && lists[channelOf(d)].items != [] && lists[channelOf(d)].items[0] == d
  {
  }

  lemma InTurnPrefix(lists: seq<List>, cursor: nat, q: seq<nat>, channelOf: nat -> nat)
    requires InTurn(lists, cursor, q, channelOf) && q != []
    ensures var p := q[..|q| - 1];
            && InTurn(lists, cursor, p, channelOf)
            && ComesNext(ListsAfter(lists, p, channelOf), CursorAfter(cursor, p, channelOf), q[|q| - 1], channelOf)
  {
    hide ComesNext, ListsAfter, CursorAfter;
    var p := q[..|q| - 1];
    forall i | 0 <= i < |p|
      ensures ComesNext(ListsAfter(lists, p[..i], channelOf), CursorAfter(cursor, p[..i], channelOf), p[i], channelOf)
    {
      assert p[..i] == q[..i];
    }
  }

  /** Slabs taken in turn are slabs of the lists, each once. */
  lemma {:induction false} InTurnDrains(lists: seq<List>, cursor: nat, q: seq<nat>, n: nat, channelOf: nat -> nat)
    requires ListsOk(lists, n, channelOf) && InTurn(lists, cursor, q, channelOf)
    ensures ListsOk(ListsAfter(lists, q, channelOf), n, channelOf)
    ensures Items(ListsAfter(lists, q, channelOf)) + multiset(q) == Items(lists)
  {
    hide Items, Homed, ComesNext, InTurn, CursorAfter;
    if q != [] {
      var p, d := q[..|q| - 1], q[|q| - 1];
      InTurnPrefix(lists, cursor, q, channelOf);
      InTurnDrains(lists, cursor, p, n, channelOf);
      var before := ListsAfter(lists, p, channelOf);
      FrontIs(before, CursorAfter(cursor, p, channelOf), d, channelOf);
      PopKeeps(before, channelOf(d), n, channelOf);
      assert multiset(q) == multiset(p) + multiset{d} by { assert q == p + [d]; }
      Swap(Items(ListsAfter(lists, q, channelOf)), multiset(p), multiset{d});
    }
  }

  /** From the channel after `cursor` to the one after `at`, `skipped` channels are empty. */
  ghost predicate SkippedTo(lists: seq<List>, cursor: nat, at: nat, skipped: nat) {
    && cursor < |lists| && at < |lists|
    && var first := NextChannel(cursor, |lists|);
       && Ahead(first, NextChannel(at, |lists|), |lists|) == skipped
       && forall g :: 0 <= g < |lists| && Ahead(first, g, |lists|) < skipped ==> lists[g].items == []
  }

  /** The selection loop between two rounds: what it took, last first, and the channels it passed since. */
  ghost predicate Selecting(lists0: seq<List>, cursor0: nat, toDrop: seq<nat>, lists: seq<List>, at: nat, skipped: nat,
                            channelOf: nat -> nat) {
    && InTurn(lists0, cursor0, Reversed(toDrop), channelOf) && lists == ListsAfter(lists0, Reversed(toDrop), channelOf)
    && SkippedTo(lists, CursorAfter(cursor0, Reversed(toDrop), channelOf), at, skipped)
  }

  lemma SelectsNone(lists: seq<List>, cursor: nat, channelOf: nat -> nat)
    requires cursor < |lists|
    ensures Selecting(lists, cursor, [], lists, cursor, 0, channelOf)
    ensures CursorAfter(cursor, Reversed([]), channelOf) == cursor
  {
  }

  lemma SelectsInTurn(lists0: seq<List>, cursor0: nat, toDrop: seq<nat>, lists: seq<List>, at: nat, skipped: nat,
                      channelOf: nat -> nat)
    requires Selecting(lists0, cursor0, toDrop, lists, at, skipped, channelOf)
    ensures InTurn(lists0, cursor0, Reversed(toDrop), channelOf)
    ensures lists == ListsAfter(lists0, Reversed(toDrop), channelOf)
  {
  }

  lemma SelectsOne(lists0: seq<List>, cursor0: nat, toDrop: seq<nat>, lists: seq<List>, at: nat, skipped: nat, d: nat,
                   channelOf: nat -> nat)
    requires Selecting(lists0, cursor0, toDrop, lists, at, skipped, channelOf) && at < |lists|
    requires var ch := NextChannel(at, |lists|); lists[ch].items != [] && lists[ch].items[0] == d && channelOf(d) == ch
    ensures var ch := channelOf(d);
            && Selecting(lists0, cursor0, [d] + toDrop, lists[ch := lists[ch].Pop()], ch, 0, channelOf)
            && CursorAfter(cursor0, Reversed([d] + toDrop), channelOf) == ch
  {
    hide InTurn, ListsAfter, Reversed, Ahead;
    ReversedOne(d, toDrop);
    InTurnOneMore(lists0, cursor0, Reversed(toDrop), d, channelOf);
    SkippedNone(lists[channelOf(d) := lists[channelOf(d)].Pop()], channelOf(d));
  }

  lemma ReversedOne(d: nat, s: seq<nat>)
    ensures Reversed([d] + s) == Reversed(s) + [d]
  {
    assert ([d] + s)[1..] == s;
  }

  lemma SkippedNone(lists: seq<List>, at: nat)
    requires at < |lists|
    ensures SkippedTo(lists, at, at, 0)
  {
  }

  lemma SelectsNothing(lists0: seq<List>, cursor0: nat, toDrop: seq<nat>, lists: seq<List>, at: nat, skipped: nat,
                       goal: nat, channelOf: nat -> nat)
    requires Selecting(lists0, cursor0, toDrop, lists, at, skipped, channelOf) && at < |lists|
    requires lists[NextChannel(at, |lists|)].items == [] && goal < |lists| && lists[goal].items != []
    ensures Selecting(lists0, cursor0, toDrop, lists, NextChannel(at, |lists|), skipped + 1, channelOf)
  {
    hide InTurn, ListsAfter;
    var n, ch := |lists|, NextChannel(at, |lists|);
    var first := NextChannel(CursorAfter(cursor0, Reversed(toDrop), channelOf), n);
    assert Ahead(first, goal, n) >= skipped && goal != ch;
    assert forall g :: 0 <= g < n && Ahead(first, g, n) == skipped ==> g == ch;
    assert Ahead(first, NextChannel(ch, n), n) == skipped + 1;
  }

  // ---------- what one round of the refill loop reaches ----------

  /** The channels before `ch` whose lists are not empty. */
  ghost function NonemptyBefore(lists: seq<List>, ch: nat): set<nat> {
    set g | 0 <= g < ch && g < |lists| && lists[g].items != []
  }

  /** Taking `n` slabs, one from each channel in turn, reaches channel `ch` if it has one and `n` is large enough. */
  ghost predicate Reaches(reclaimed: seq<List>, n: int, ch: nat) {
    ch < |reclaimed| && reclaimed[ch].items != [] && |NonemptyBefore(reclaimed, ch)| < n
  }

  lemma NonemptyNext(lists: seq<List>, ch: nat)
    requires ch < |lists|
    ensures |NonemptyBefore(lists, ch + 1)| == |NonemptyBefore(lists, ch)| + (if lists[ch].items != [] then 1 else 0)
  {
    assert NonemptyBefore(lists, ch + 1) ==
           NonemptyBefore(lists, ch) + (if lists[ch].items != [] then {ch} else {});
  }

  lemma {:induction false} NonemptyMono(lists: seq<List>, ch: nat, end: nat)
    requires ch <= end <= |lists|
    ensures |NonemptyBefore(lists, ch)| <= |NonemptyBefore(lists, end)|
    ensures ch < end && lists[ch].items != [] ==> |NonemptyBefore(lists, ch)| < |NonemptyBefore(lists, end)|
    decreases end
  {
    if ch < end {
      NonemptyMono(lists, ch, end - 1);
      NonemptyNext(lists, end - 1);
    }
  }

  /** The refill loop after `i` slabs, about to look at channel `ch`, in its first round or in a later one. */
  ghost predicate Refilling(reclaimed: seq<List>, ops0: seq<List>, rest: seq<List>, ops: seq<List>, i: int, ch: nat,
                            first: bool) {
    && |reclaimed| == |ops0| == |rest| == |ops| && ch < |reclaimed|
    && (if first
        then i == |NonemptyBefore(reclaimed, ch)| && (forall g :: ch <= g < |rest| ==> rest[g] == reclaimed[g])
        else i >= |NonemptyBefore(reclaimed, |reclaimed|)|)
    && forall g :: 0 <= g < |ops| ==>
         (ops[g].items != [] <==> ops0[g].items != [] || (reclaimed[g].items != [] && (first ==> g < ch)))
  }

  lemma RefillTurns(reclaimed: seq<List>, ops0: seq<List>, rest: seq<List>, ops: seq<List>, rest': seq<List>,
                    ops': seq<List>, i: int, ch: nat, first: bool)
    requires Refilling(reclaimed, ops0, rest, ops, i, ch, first) && |rest'| == |ops'| == |rest|
    requires forall g :: 0 <= g < |rest| && g != ch ==> rest'[g] == rest[g] && ops'[g] == ops[g]
    requires if rest[ch].items == [] then ops' == ops else ops'[ch].items != []
    requires !first && rest[ch].items != [] ==> ops[ch].items != [] || reclaimed[ch].items != []
    ensures Refilling(reclaimed, ops0, rest', ops', if rest[ch].items == [] then i else i + 1,
                      NextChannel(ch, |rest|), first && ch + 1 < |rest|)
  {
    NonemptyNext(reclaimed, ch);
    if ch + 1 == |rest| { assert NonemptyBefore(reclaimed, ch + 1) == NonemptyBefore(reclaimed, |reclaimed|); }
  }

  lemma RefillStarts(reclaimed: seq<List>, ops: seq<List>, consumed: int)
    requires |reclaimed| == |ops| > 0
    ensures Refilling(reclaimed, ops, reclaimed, ops, 0, 0, true)
  {
  }

  lemma NoneReached(reclaimed: seq<List>, n: int, g: nat)
    requires n <= 0
    ensures !Reaches(reclaimed, n, g) && !Reaches(reclaimed, 0, g)
  {
  }

  /** After the last slab: the channels that were stocked before or were reached. */
  lemma RefillEnds(reclaimed: seq<List>, ops0: seq<List>, rest: seq<List>, ops: seq<List>, i: int, ch: nat, first: bool,
                   g: nat)
    requires Refilling(reclaimed, ops0, rest, ops, i, ch, first) && g < |ops|
    ensures ops[g].items != [] <==> ops0[g].items != [] || Reaches(reclaimed, i, g)
  {
    if first {
      if g < ch { NonemptyMono(reclaimed, g, ch); } else { NonemptyMono(reclaimed, ch, g); }
    } else {
      NonemptyMono(reclaimed, g, |reclaimed|);
    }
  }

  // ---------- slabs that come back ----------

  /** The lists after the slabs of `s` were linked, one after the other, each to its own channel. */
  ghost function Pushed(lists: seq<List>, s: seq<nat>, channelOf: nat -> nat): seq<List> {
    if s == [] then lists
    else
      var before, d := Pushed(lists, s[..|s| - 1], channelOf), s[|s| - 1];
      if channelOf(d) < |before| then before[channelOf(d) := before[channelOf(d)].Push(d)] else before
  }

  lemma PushedNone(lists: seq<List>, channelOf: nat -> nat)
    ensures Pushed(lists, [], channelOf) == lists
  {
  }

  lemma PushedNext(lists: seq<List>, s: seq<nat>, i: nat, channelOf: nat -> nat)
    requires i < |s|
    ensures var before := Pushed(lists, s[..i], channelOf);
            channelOf(s[i]) < |before| ==>
              Pushed(lists, s[..i + 1], channelOf) == before[channelOf(s[i]) := before[channelOf(s[i])].Push(s[i])]
  {
    assert s[..i + 1][..i] == s[..i];
  }

  /** Slabs taken off the front of one list and linked to the front of another, list by list. */
  ghost predicate Turned(lists0: seq<List>, rest0: seq<List>, lists: seq<List>, rest: seq<List>) {
    && |lists0| == |rest0| == |lists| == |rest|
    && forall g :: 0 <= g < |rest| ==>
         Reversed(rest[g].items) + lists[g].items == Reversed(rest0[g].items) + lists0[g].items
  }

  lemma TurnsNone(lists: seq<List>, rest: seq<List>)
    requires |rest| == |lists|
    ensures Turned(lists, rest, lists, rest)
  {
  }

  lemma TurnsAll(lists0: seq<List>, rest0: seq<List>, lists: seq<List>, rest: seq<List>)
    requires Turned(lists0, rest0, lists, rest) && forall g :: 0 <= g < |rest| ==> rest[g].items == []
    ensures forall g :: 0 <= g < |lists| ==> lists[g].items == Reversed(rest0[g].items) + lists0[g].items
  {
    assert forall g :: 0 <= g < |rest| ==> Reversed(rest[g].items) + lists[g].items == lists[g].items;
  }

  lemma TurnsOne(lists0: seq<List>, rest0: seq<List>, lists: seq<List>, rest: seq<List>, ch: nat)
    requires Turned(lists0, rest0, lists, rest) && ch < |rest| && rest[ch].items != []
    ensures |rest| == |lists|
    ensures var d, left := rest[ch].items[0], rest[ch].items[1..];
            forall n :: Turned(lists0, rest0, lists[ch := lists[ch].Push(d)], rest[ch := List(left, n)])
  {
    var d, r, l := rest[ch].items[0], Reversed(rest[ch].items[1..]), lists[ch].items;
    assert r + ([d] + l) == (r + [d]) + l;
  }

  // ---------- start-up ----------

  /** The positions before `i` of slabs on channel `ch`. */
  ghost function Before(slabs: seq<nat>, i: nat, ch: nat, channelOf: nat -> nat): set<nat> {
    set j | 0 <= j < i && j < |slabs| && channelOf(slabs[j]) == ch
  }

  lemma BeforeNext(slabs: seq<nat>, i: nat, ch: nat, channelOf: nat -> nat)
    requires i < |slabs|
    ensures |Before(slabs, i + 1, ch, channelOf)| ==
            |Before(slabs, i, ch, channelOf)| + (if channelOf(slabs[i]) == ch then 1 else 0)
  {
    assert Before(slabs, i + 1, ch, channelOf) ==
           Before(slabs, i, ch, channelOf) + (if channelOf(slabs[i]) == ch then {i} else {});
  }

  /** The first `share` slabs of each channel, among the first `i`, are in the pool, and the others are free. */
  ghost predicate Shared(slabs: seq<nat>, i: nat, share: nat, free: seq<List>, ops: seq<List>, channelOf: nat -> nat) {
    && |free| == |ops|
    && (forall ch :: 0 <= ch < |ops| ==>
          var n := |Before(slabs, i, ch, channelOf)|;
          |ops[ch].items| == if n < share then n else share)
    && (forall j :: 0 <= j < i && j < |slabs| && channelOf(slabs[j]) < |ops| ==>
          var ch := channelOf(slabs[j]);
          slabs[j] in if |Before(slabs, j, ch, channelOf)| < share then ops[ch].items else free[ch].items)
  }

  lemma SharesOne(slabs: seq<nat>, i: nat, share: nat, free: seq<List>, ops: seq<List>, free': seq<List>,
                  ops': seq<List>, channelOf: nat -> nat)
    requires Shared(slabs, i, share, free, ops, channelOf) && i < |slabs| && channelOf(slabs[i]) < |ops|
    requires var d, ch := slabs[i], channelOf(slabs[i]);
             if |ops[ch].items| < share then ops' == ops[ch := ops[ch].Push(d)] && free' == free
             else free' == free[ch := free[ch].Push(d)] && ops' == ops
    ensures Shared(slabs, i + 1, share, free', ops', channelOf)
  {
    hide Before;
    forall ch | 0 <= ch < |ops|
      ensures |Before(slabs, i + 1, ch, channelOf)| ==
              |Before(slabs, i, ch, channelOf)| + (if channelOf(slabs[i]) == ch then 1 else 0)
    {
      BeforeNext(slabs, i, ch, channelOf);
    }
  }

  lemma SharesNone(slabs: seq<nat>, share: nat, lists: seq<List>, channelOf: nat -> nat)
    requires forall ch :: 0 <= ch < |lists| ==> lists[ch].items == []
    ensures Shared(slabs, 0, share, lists, lists, channelOf)
  {
    assert forall ch :: Before(slabs, 0, ch, channelOf) == {};
  }

  class Pools {
    const nrChannels: nat
    const channelOf: nat -> nat
    var free: seq<List>
    var full: seq<List>
    var ops: seq<List>
    var nrFree: int
    var nrFull: int
    var opsSize: int
    var nextFlush: nat
    var nextOps: nat

    ghost predicate Valid()
      reads this
    {
      && nrChannels > 0 && nextFlush < nrChannels && nextOps < nrChannels
      && ListsOk(free, nrChannels, channelOf) && ListsOk(full, nrChannels, channelOf)
      && ListsOk(ops, nrChannels, channelOf)
      && nrFree == |Items(free)| && opsSize == |Items(ops)|
    }

    constructor (nrChannels: nat, channelOf: nat -> nat)
      requires nrChannels > 0
      ensures Valid() && this.nrChannels == nrChannels && this.channelOf == channelOf
      ensures Items(free) == Items(full) == Items(ops) == multiset{} && nrFull == 0
    {
      this.nrChannels, this.channelOf := nrChannels, channelOf;
      var none := seq(nrChannels, _ => List([], 0));
      AllEmpty(none);
      free, full, ops := none, none, none;
      nrFree, nrFull, opsSize, nextFlush, nextOps := 0, 0, 0, 0, 0;
    }

    /** Link a slab to the pool of its channel. */
    method AddSpare(d: nat)
      requires Valid() && channelOf(d) < nrChannels
      modifies this`ops, this`opsSize
      ensures Valid() && opsSize == old(opsSize) + 1 && Items(ops) == old(Items(ops)) + multiset{d}
      ensures ops == old(ops)[channelOf(d) := old(ops)[channelOf(d)].Push(d)]
    {
      hide Items, Homed;
      PushKeeps(ops, d, nrChannels, channelOf);
      ops := ops[channelOf(d) := ops[channelOf(d)].Push(d)];
      opsSize := opsSize + 1;
    }

    /** The loop of `slab_init` over all blocks: the pool takes its share of each channel first. */
    method Stock(slabs: seq<nat>, share: nat)
      requires Valid() && forall x :: x in slabs ==> channelOf(x) < nrChannels
      requires free == ops && forall ch :: 0 <= ch < nrChannels ==> ops[ch].items == []
      modifies this`free, this`ops, this`nrFree, this`opsSize
      ensures Valid() && Items(ops) + Items(free) == multiset(slabs)
      ensures Shared(slabs, |slabs|, share, free, ops, channelOf)
    {
      hide Items, Shared, Homed;
      SharesNone(slabs, share, ops, channelOf);
      AllEmpty(ops);
      assert slabs[..0] == [];
      var i := 0;
      while i < |slabs|
        invariant 0 <= i <= |slabs| && Valid() && Items(ops) + Items(free) == multiset(slabs[..i])
        invariant Shared(slabs, i, share, free, ops, channelOf)
      {
        ghost var free0, ops0 := free, ops;
        var d, ch := slabs[i], channelOf(slabs[i]);
        assert slabs[..i + 1] == slabs[..i] + [d];
        if ops[ch].size < share {
          AddSpare(d);
          Swap(Items(ops0), Items(free), multiset{d});
        } else {
          PushKeeps(free, d, nrChannels, channelOf);
          free := free[ch := free[ch].Push(d)];
          nrFree := nrFree + 1;
          assert Items(ops) + (Items(free0) + multiset{d}) == (Items(ops) + Items(free0)) + multiset{d};
        }
        SharesOne(slabs, i, share, free0, ops0, free, ops, channelOf);
        i := i + 1;
      }
      assert slabs[..i] == slabs;
    }

    /** `do_slab_flush` takes a free disk slab. */
    method TakeFree() returns (found: bool, d: nat)
      requires Valid()
      modifies this`free, this`nrFree, this`nextFlush
      ensures Valid() && found == (old(nrFree) > 0)
      ensures Items(free) + (if found then multiset{d} else multiset{}) == old(Items(free))
      ensures found ==> channelOf(d) < nrChannels && IsFirst(old(free), old(nextFlush), channelOf(d), d)
      ensures nextFlush == if found then NextChannel(channelOf(d), nrChannels) else old(nextFlush)
    {
      hide Items, Homed;
      var ch;
      found, ch, nextFlush := Scan(free, nextFlush);
      d := 0;
      if found {
        d := free[ch].items[0];
        PopKeeps(free, ch, nrChannels, channelOf);
        free := free[ch := free[ch].Pop()];
        nrFree := nrFree - 1;
      }
    }

    /** `gc_dslabs` takes a spare slab: it finds one whenever `ops_pool_size_ > 0`. */
    method TakeSpare() returns (found: bool, d: nat)
      requires Valid()
      modifies this`ops, this`opsSize, this`nextOps
      ensures Valid() && found == (old(opsSize) > 0)
      ensures Items(ops) + (if found then multiset{d} else multiset{}) == old(Items(ops))
      ensures found ==> channelOf(d) < nrChannels && IsFirst(old(ops), old(nextOps), channelOf(d), d)
      ensures nextOps == if found then NextChannel(channelOf(d), nrChannels) else old(nextOps)
    {
      hide Items, Homed;
      var ch;
      found, ch, nextOps := Scan(ops, nextOps);
      d := 0;
      if found {
        d := ops[ch].items[0];
        PopKeeps(ops, ch, nrChannels, channelOf);
        ops := ops[ch := ops[ch].Pop()];
        opsSize := opsSize - 1;
      }
    }

    /** Take the first slab off the full list of channel `ch`. */
    method TakeFull(ch: nat) returns (d: nat)
      requires Valid() && ch < nrChannels && full[ch].items != []
      modifies this`full, this`nrFull
      ensures Valid() && d == old(full)[ch].items[0] && channelOf(d) == ch && nrFull == old(nrFull) - 1
      ensures full == old(full)[ch := old(full)[ch].Pop()]
      ensures Items(full) + multiset{d} == old(Items(full)) && |Items(full)| == |old(Items(full))| - 1
    {
      hide Items, Homed;
      d := full[ch].items[0];
      PopKeeps(full, ch, nrChannels, channelOf);
      full := full[ch := full[ch].Pop()];
      nrFull := nrFull - 1;
    }

    /**
     The selection loop of `do_quick_gc`: round the channels, from the fronts of their lists. It ends if the full lists
     hold as many slabs as it wants, because the slabs still wanted, and then the distance to a channel that has one, go
     down.
     */
    method SelectToDrop(want: int) returns (toDrop: seq<nat>)
      requires Valid() && want <= |Items(full)|
      modifies this`full, this`nrFull, this`nextOps
      ensures Valid() && |toDrop| == (if want > 0 then want else 0)
      ensures Items(full) + multiset(toDrop) == old(Items(full))
      ensures nrFull == old(nrFull) - |toDrop|
      ensures forall x :: x in toDrop ==> channelOf(x) < nrChannels
      ensures InTurn(old(full), old(nextOps), Reversed(toDrop), channelOf)
      ensures full == ListsAfter(old(full), Reversed(toDrop), channelOf)
      ensures nextOps == CursorAfter(old(nextOps), Reversed(toDrop), channelOf)
    {
      hide Items, Homed, Ahead, Selecting, CursorAfter, ListsAfter, InTurn, Reversed;
      toDrop := [];
      var left: nat := if want > 0 then want else 0;
      ghost var goal: nat, skipped := 0, 0;
      SelectsNone(full, nextOps, channelOf);
      if left > 0 { goal := SomeNonempty(full); }
      while left > 0
        invariant Valid() && left <= |Items(full)|
        invariant Items(full) + multiset(toDrop) == old(Items(full))
        invariant |toDrop| + left == (if want > 0 then want else 0) && nrFull == old(nrFull) - |toDrop|
        invariant forall x :: x in toDrop ==> channelOf(x) < nrChannels
        invariant left > 0 ==> goal < nrChannels && full[goal].items != []
        invariant Selecting(old(full), old(nextOps), toDrop, full, nextOps, skipped, channelOf)
        invariant left == 0 ==> nextOps == CursorAfter(old(nextOps), Reversed(toDrop), channelOf)
        decreases left, if left > 0 then Ahead(NextChannel(nextOps, nrChannels), goal, nrChannels) else 0
      {
        ghost var at := nextOps;
        var ch := NextChannel(nextOps, nrChannels);
        nextOps := NextChannel(nextOps, nrChannels);
        if full[ch].items != [] {
          ghost var full0 := full;
          var d := TakeFull(ch);
          SelectsOne(old(full), old(nextOps), toDrop, full0, at, skipped, d, channelOf);
          skipped := 0;
          Regroup(Items(full), d, toDrop);
          toDrop := [d] + toDrop;
          left := left - 1;
          if left > 0 { goal := SomeNonempty(full); }
        } else {
          AheadNext(ch, goal, nrChannels);
          SelectsNothing(old(full), old(nextOps), toDrop, full, at, skipped, goal, channelOf);
          skipped := skipped + 1;
        }
      }
      SelectsInTurn(old(full), old(nextOps), toDrop, full, nextOps, skipped, channelOf);
    }

    /** The second return loop of `do_quick_gc`: everything left goes to the free lists. */
    method GiveToFree(rest: seq<nat>)
      requires Valid() && forall x :: x in rest ==> channelOf(x) < nrChannels
      modifies this`free, this`nrFree
      ensures Valid() && Items(free) == old(Items(free)) + multiset(rest) && nrFree == old(nrFree) + |rest|
      ensures free == Pushed(old(free), rest, channelOf)
    {
      hide Items, Homed;
      var i := 0;
      ghost var free0 := Items(free);
      assert rest[..0] == [];
      while i < |rest|
        invariant 0 <= i <= |rest| && Valid()
        invariant Items(free) == free0 + multiset(rest[..i]) && nrFree == old(nrFree) + i
        invariant free == Pushed(old(free), rest[..i], channelOf)
      {
        var d := rest[i];
        PushedNext(old(free), rest, i, channelOf);
        PushKeeps(free, d, nrChannels, channelOf);
        Append(free0, rest, i);
        free := free[channelOf(d) := free[channelOf(d)].Push(d)];
        nrFree := nrFree + 1;
        i := i + 1;
      }
      assert rest[..i] == rest;
    }

    /** The first return loop: it unlinks a slab before it tests whether to stop. */
    method GiveToOps(toDrop: seq<nat>, backOps: nat) returns (lost: seq<nat>, rest: seq<nat>)
      requires Valid() && forall x :: x in toDrop ==> channelOf(x) < nrChannels
      modifies this`ops, this`opsSize
      ensures Valid()
      ensures if |toDrop| > backOps then lost == [toDrop[backOps]] && rest == toDrop[backOps + 1..]
              else lost == [] && rest == []
      ensures var given := if |toDrop| > backOps then backOps else |toDrop|;
              && Items(ops) == old(Items(ops)) + multiset(toDrop[..given]) && opsSize == old(opsSize) + given
              && ops == Pushed(old(ops), toDrop[..given], channelOf)
    {
      hide Items, Homed;
      var i := 0;
      ghost var ops0 := Items(ops);
      assert toDrop[..0] == [];
      while i < |toDrop|
        invariant 0 <= i <= |toDrop| && i <= backOps && Valid()
        invariant Items(ops) == ops0 + multiset(toDrop[..i]) && opsSize == old(opsSize) + i
        invariant ops == Pushed(old(ops), toDrop[..i], channelOf)
      {
        var d := toDrop[i];
        if i >= backOps {
          return [d], toDrop[i + 1..];
        }
        PushedNext(old(ops), toDrop, i, channelOf);
        Append(ops0, toDrop, i);
        AddSpare(d);
        i := i + 1;
      }
      return [], [];
    }

    /**
     The return of `do_quick_gc`: with more than `backOps` dropped slabs exactly one ends on no list; the others go to
     the pool and to the free lists.
     */
    method ReturnDropped(toDrop: seq<nat>, backOps: nat) returns (lost: seq<nat>)
      requires Valid() && forall x :: x in toDrop ==> channelOf(x) < nrChannels
      modifies this`free, this`ops, this`nrFree, this`opsSize
      ensures Valid() && |lost| == (if |toDrop| > backOps then 1 else 0)
      ensures Items(ops) + Items(free) + multiset(lost) == old(Items(ops) + Items(free)) + multiset(toDrop)
      ensures opsSize == old(opsSize) + (if |toDrop| > backOps then backOps else |toDrop|)
      ensures nrFree == old(nrFree) + (if |toDrop| > backOps then |toDrop| - backOps - 1 else 0)
      ensures if |toDrop| > backOps
              then && lost == [toDrop[backOps]] && ops == Pushed(old(ops), toDrop[..backOps], channelOf)
                   && free == Pushed(old(free), toDrop[backOps + 1..], channelOf)
              else ops == Pushed(old(ops), toDrop, channelOf) && free == old(free)
    {
      hide Items, ListsOk, Pushed;
      var rest;
      lost, rest := GiveToOps(toDrop, backOps);
      GiveToFree(rest);
      var given := if |toDrop| > backOps then backOps else |toDrop|;
      assert toDrop == toDrop[..given] + lost + rest;
      if |toDrop| <= backOps { PushedNone(old(free), channelOf); }
    }

    // ---------- the end of a normal pass ----------

    /**
     The refill loop of `normal_gc`, round and round over the channels of the pass's free list. It ends if the pass
     freed at least as many slabs as it used. The loop leaves the `size_` of that list alone.
     */
    method Refill(reclaimed: seq<List>, consumed: int) returns (rest: seq<List>)
      requires Valid() && |reclaimed| == nrChannels && Homed(reclaimed, channelOf) && consumed <= |Items(reclaimed)|
      modifies this`ops, this`opsSize
      ensures Valid() && |rest| == nrChannels && Homed(rest, channelOf)
      ensures Items(ops) + Items(rest) == old(Items(ops)) + Items(reclaimed)
      ensures opsSize == old(opsSize) + (if consumed > 0 then consumed else 0)
      ensures forall g :: 0 <= g < nrChannels ==>
                (ops[g].items != [] <==> old(ops)[g].items != [] || Reaches(reclaimed, consumed, g))
      ensures Turned(old(ops), reclaimed, ops, rest)
    {
      hide Items, Ahead, Refilling, NonemptyBefore, Reaches, Turned;
      TurnsNone(ops, reclaimed);
      rest := reclaimed;
      var ch: nat := 0;
      var i := 0;
      ghost var goal: nat, first := 0, true;
      RefillStarts(reclaimed, ops, consumed);
      if consumed > 0 { goal := SomeNonempty(rest); }
      while i < consumed
        invariant ch < nrChannels && 0 <= i && (consumed > 0 ==> i <= consumed) && (consumed <= 0 ==> i == 0)
        invariant Valid() && |rest| == nrChannels && Homed(rest, channelOf)
        invariant Items(ops) + Items(rest) == old(Items(ops)) + Items(reclaimed)
        invariant opsSize == old(opsSize) + i && consumed - i <= |Items(rest)|
        invariant i < consumed ==> goal < nrChannels && rest[goal].items != []
        invariant Refilling(reclaimed, old(ops), rest, ops, i, ch, first) && Turned(old(ops), reclaimed, ops, rest)
        invariant forall g :: 0 <= g < nrChannels && rest[g].items != [] ==> reclaimed[g].items != []
        decreases consumed - i, if i < consumed then Ahead(ch, goal, nrChannels) else 0
      {
        ghost var rest0, ops0 := rest, ops;
        if rest[ch].items != [] {
          var d := rest[ch].items[0];
          assert d in rest[ch].items;
          RefillStep(Items(ops), rest, ch);
          TurnsOne(old(ops), reclaimed, ops, rest, ch);
          rest := rest[ch := List(rest[ch].items[1..], rest[ch].size)];
          AddSpare(d);
          i := i + 1;
          if i < consumed { goal := SomeNonempty(rest); }
        } else {
          AheadNext(ch, goal, nrChannels);
        }
        RefillTurns(reclaimed, old(ops), rest0, ops0, rest, ops, if rest0[ch].items == [] then i else i - 1, ch, first);
        first := first && ch + 1 < nrChannels;
        ch := NextChannel(ch, nrChannels);
      }
      forall g | 0 <= g < nrChannels
        ensures ops[g].items != [] <==> old(ops)[g].items != [] || Reaches(reclaimed, consumed, g)
      {
        RefillEnds(reclaimed, old(ops), rest, ops, i, ch, first, g);
        if consumed <= 0 { NoneReached(reclaimed, consumed, g); }
      }
    }

    /** The trimming loop: one look at the next channel for each slab that the pool should shrink by. */
    method Trim(reclaimed: seq<List>, shrink: int) returns (rest: seq<List>)
      requires Valid() && |reclaimed| == nrChannels && Homed(reclaimed, channelOf)
      modifies this`ops, this`opsSize, this`nextOps
      ensures Valid() && |rest| == nrChannels && Homed(rest, channelOf)
      ensures Items(ops) + Items(rest) == old(Items(ops)) + Items(reclaimed)
      ensures old(opsSize) - (if shrink > 0 then shrink else 0) <= opsSize <= old(opsSize)
      ensures shrink == 1 ==>
                && nextOps == NextChannel(old(nextOps), nrChannels)
                && opsSize == old(opsSize) - if old(ops)[nextOps].items != [] then 1 else 0
      ensures shrink <= 0 ==> nextOps == old(nextOps)
      ensures Turned(reclaimed, old(ops), rest, ops)
    {
      hide Items, Turned;
      TurnsNone(reclaimed, ops);
      rest := reclaimed;
      var left := shrink;
      while left > 0
        invariant Valid() && |rest| == nrChannels && Homed(rest, channelOf) && (shrink > 0 ==> 0 <= left)
        invariant left <= shrink && (shrink <= 0 ==> left == shrink) && Turned(reclaimed, old(ops), rest, ops)
        invariant Items(ops) + Items(rest) == old(Items(ops)) + Items(reclaimed)
        invariant old(opsSize) - (if shrink > 0 then shrink - left else 0) <= opsSize <= old(opsSize)
        invariant left == shrink ==> ops == old(ops) && nextOps == old(nextOps) && opsSize == old(opsSize)
        invariant shrink == 1 && left == 0 ==>
                    && nextOps == NextChannel(old(nextOps), nrChannels)
                    && opsSize == old(opsSize) - if old(ops)[nextOps].items != [] then 1 else 0
      {
        var ch := NextChannel(nextOps, nrChannels);
        nextOps := NextChannel(nextOps, nrChannels);
        if ops[ch].items != [] {
          var d := ops[ch].items[0];
          PopKeeps(ops, ch, nrChannels, channelOf);
          TurnsOne(reclaimed, old(ops), rest, ops, ch);
          TrimStep(ops, rest, ch, d, Items(ops[ch := ops[ch].Pop()]));
          ops := ops[ch := ops[ch].Pop()];
          opsSize := opsSize - 1;
          rest := rest[ch := rest[ch].Push(d)];
        }
        left := left - 1;
      }
    }

    /** The last loop of `normal_gc`: all reclaimed slabs go to the free lists, channel by channel. */
    method ReturnAll(reclaimed: seq<List>)
      requires Valid() && |reclaimed| == nrChannels && Homed(reclaimed, channelOf)
      modifies this`free, this`nrFree
      ensures Valid() && Items(free) == old(Items(free)) + Items(reclaimed)
      ensures forall g :: 0 <= g < nrChannels ==>
                free[g].items == Reversed(reclaimed[g].items) + old(free)[g].items
    {
      hide Items, Turned;
      var rest := reclaimed;
      var ch := 0;
      TurnsNone(free, rest);
      while ch < nrChannels
        invariant 0 <= ch <= nrChannels && Valid() && |rest| == nrChannels && Homed(rest, channelOf)
        invariant Items(free) + Items(rest) == old(Items(free)) + Items(reclaimed)
        invariant forall k :: 0 <= k < ch ==> rest[k].items == []
        invariant Turned(old(free), reclaimed, free, rest)
      {
        while rest[ch].items != []
          invariant Valid() && |rest| == nrChannels && Homed(rest, channelOf)
          invariant Items(free) + Items(rest) == old(Items(free)) + Items(reclaimed)
          invariant forall k :: 0 <= k < ch ==> rest[k].items == []
          invariant Turned(old(free), reclaimed, free, rest)
          decreases |rest[ch].items|
        {
          var d := rest[ch].items[0];
          TurnsOne(old(free), reclaimed, free, rest, ch);
          assert d in rest[ch].items;
          RefillStep(Items(free), rest, ch);
          PushKeeps(free, d, nrChannels, channelOf);
          rest := rest[ch := List(rest[ch].items[1..], rest[ch].size)];
          free := free[ch := free[ch].Push(d)];
          nrFree := nrFree + 1;
        }
        ch := ch + 1;
      }
      AllEmpty(rest);
      TurnsAll(old(free), reclaimed, free, rest);
    }

    /**
     How a normal pass ends. If it freed as many slabs as it took from the pool, the pool is back at its old size. If it
     is to shrink by one, the cursor goes on by one channel, and the pool shrinks exactly when that channel had a spare
     slab or the refill gave it one. Every slab is in the pool or free.
     */
    method EndPass(reclaimed: seq<List>, oldOps: int, newOps: int)
      requires Valid() && |reclaimed| == nrChannels && Homed(reclaimed, channelOf)
      requires opsSize <= oldOps && oldOps - opsSize <= |Items(reclaimed)|
      requires newOps == oldOps || newOps == if oldOps - 1 > 10 then oldOps - 1 else 10
      modifies this`free, this`nrFree, this`ops, this`opsSize, this`nextOps
      ensures Valid() && (opsSize == oldOps || (opsSize == oldOps - 1 == newOps && oldOps > 10))
      ensures newOps >= oldOps ==> opsSize == oldOps && nextOps == old(nextOps)
      ensures newOps < oldOps ==>
                && nextOps == NextChannel(old(nextOps), nrChannels)
                && (opsSize == newOps <==>
                      old(ops)[nextOps].items != [] || Reaches(reclaimed, oldOps - old(opsSize), nextOps))
      ensures Items(ops) + Items(free) == old(Items(ops) + Items(free)) + Items(reclaimed)
    {
      hide Items, Homed, Reaches;
      ghost var ops0, free0 := Items(ops), Items(free);
      var rest := Refill(reclaimed, oldOps - opsSize);
      rest := Trim(rest, opsSize - newOps);
      Swap(Items(ops), free0, Items(rest));
      Swap(ops0, free0, Items(reclaimed));
      assert Items(ops) + (free0 + Items(rest)) == (Items(ops) + free0) + Items(rest);
      ReturnAll(rest);
    }

    /** `check_ops_pool` tells exactly whether all sizes of the pool are right. */
    method CheckOpsPool() returns (ok: bool)
      requires |ops| == nrChannels
      ensures ok <==> (forall ch :: 0 <= ch < |ops| ==> ops[ch].Exact()) && opsSize == |Items(ops)|
    {
      var size, ch := 0, 0;
      assert ops[..0] == [];
      while ch < |ops|
        invariant 0 <= ch <= |ops| && forall k :: 0 <= k < ch ==> ops[k].Exact()
        invariant size == |Items(ops[..ch])|
      {
        assert ops[..ch + 1][..ch] == ops[..ch];
        if |ops[ch].items| != ops[ch].size {
          return false;
        }
        size := size + ops[ch].size;
        ch := ch + 1;
      }
      assert ops[..ch] == ops;
      return size == opsSize;
    }
  }

  lemma TrimStep(ops: seq<List>, rest: seq<List>, ch: nat, d: nat, ops': multiset<nat>)
    requires ch < |rest| && ops' + multiset{d} == Items(ops)
    ensures ops' + Items(rest[ch := rest[ch].Push(d)]) == Items(ops) + Items(rest)
  {
    hide Items;
    ItemsPush(rest, ch, rest[ch].Push(d), d);
    Swap(ops', Items(rest), multiset{d});
    assert ops' + (Items(rest) + multiset{d}) == (ops' + Items(rest)) + multiset{d};
  }

  lemma RefillStep(ops: multiset<nat>, rest: seq<List>, ch: nat)
    requires ch < |rest| && rest[ch].items != []
    ensures var rest' := rest[ch := List(rest[ch].items[1..], rest[ch].size)];
            && (ops + multiset{rest[ch].items[0]}) + Items(rest') == ops + Items(rest)
            && |Items(rest')| == |Items(rest)| - 1
  {
    hide Items;
    ItemsPop(rest, ch, List(rest[ch].items[1..], rest[ch].size));
  }

  lemma Append(m: multiset<nat>, s: seq<nat>, i: nat)
    requires i < |s|
    ensures m + multiset(s[..i]) + multiset{s[i]} == m + multiset(s[..i + 1])
  {
    AppendFrom(m, s, 0, i);
    assert s[0..i] == s[..i] && s[0..i + 1] == s[..i + 1];
  }

  lemma AppendFrom(m: multiset<nat>, s: seq<nat>, from: nat, i: nat)
    requires from <= i < |s|
    ensures m + multiset(s[from..i]) + multiset{s[i]} == m + multiset(s[from..i + 1])
  {
    assert s[from..i + 1] == s[from..i] + [s[i]];
  }
}
