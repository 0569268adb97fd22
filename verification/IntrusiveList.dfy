/**
 Circular doubly linked intrusive lists on the heap. A ring is the sequence of its nodes, head first; a node on no list
 is a ring by itself. `list_add` and `list_del` rewrite at most three nodes, and every other ring stays as it is.
 */
module IntrusiveList {

  class Node {
    var next: Node
    var prev: Node

    /** `INIT_LIST_HEAD`. */
    constructor ()
      ensures next == this && prev == this
    {
      next := this;
      prev := this;
    }
  }

  ghost predicate Distinct(r: seq<Node>) { forall i, j :: 0 <= i < j < |r| ==> r[i] != r[j] }

  /** `next` goes through `r` in order and back to the head; `prev` goes the other way. */
  ghost predicate IsRing(r: seq<Node>)
    reads r
  {
    && |r| > 0 && Distinct(r)
    && (forall i :: 0 <= i < |r| - 1 ==> r[i].next == r[i + 1])
    && r[|r| - 1].next == r[0]
    && (forall i :: 0 < i < |r| ==> r[i].prev == r[i - 1])
    && r[0].prev == r[|r| - 1]
  }

  /** The ring `r` without its `k`-th node. */
  ghost function Without(r: seq<Node>, k: nat): seq<Node>
    requires k < |r|
  { r[..k] + r[k + 1..] }

  /** The ring `r` with `x` right after the head. */
  ghost function AfterHead(r: seq<Node>, x: Node): seq<Node>
    requires |r| > 0
  { [r[0], x] + r[1..] }

  /** `list_empty`: the ring has only its head. */
  method IsEmpty(head: Node, ghost r: seq<Node>) returns (empty: bool)
    requires IsRing(r) && r[0] == head
    ensures empty <==> r == [head]
  {
    empty := head.next == head;
    ghost var first := if |r| > 1 then r[1] else r[0];
    assert head.next == first && first in r && head in r;
  }

  /** `list_first_entry`: the node after the head. */
  method First(head: Node, ghost r: seq<Node>) returns (x: Node)
    requires IsRing(r) && r[0] == head && |r| > 1
    ensures x == r[1]
  {
    x := head.next;
  }

  /** The traversal macros visit the members in order and stop at the head. */
  method Count(head: Node, ghost r: seq<Node>) returns (n: nat)
    requires IsRing(r) && r[0] == head
    ensures n == |r| - 1
  {
    n := 0;
    var pos := head.next;
    while pos != head
      invariant 0 <= n < |r|
      invariant pos == if n + 1 < |r| then r[n + 1] else r[0]
      decreases |r| - n
    {
      pos := pos.next;
      n := n + 1;
    }
  }

  /** Rings without a common node. */
  ghost predicate Apart(r: seq<Node>, q: seq<Node>) { forall x :: x in r ==> x !in q }

  /** `list_add(newh, head)`: a node on no list becomes the first member; every other ring is as before. */
  method ListAdd(newh: Node, head: Node, ghost r: seq<Node>, ghost others: set<seq<Node>>)
    requires IsRing(r) && r[0] == head && newh !in r
    requires forall a :: a in others ==> IsRing(a) && Apart(a, r) && newh !in a
    modifies newh, head, head.next
    ensures IsRing(AfterHead(r, newh))
    ensures forall a :: a in others ==> IsRing(a) && Apart(a, AfterHead(r, newh))
  {
    ghost var first := if |r| > 1 then r[1] else r[0];
    assert head.next == first && first in r && head in r;
    newh.next := head.next;
    newh.prev := head;
    head.next.prev := newh;
    head.next := newh;
    ghost var q := AfterHead(r, newh);
    assert Distinct(q);
    assert q[0] == head && q[1] == newh && forall i :: 2 <= i < |q| ==> q[i] == r[i - 1];
    assert forall i :: 0 <= i < |q| - 1 ==> q[i].next == q[i + 1];
    assert q[|q| - 1].next == q[0];
    assert forall i :: 0 < i < |q| ==> q[i].prev == q[i - 1];
    assert q[0].prev == q[|q| - 1];
  }

  /** `list_del(entry)`: the member leaves its ring, whose head is not an argument, and links to itself. */
  method ListDel(entry: Node, ghost r: seq<Node>, ghost k: nat, ghost others: set<seq<Node>>)
    requires IsRing(r) && 0 < k < |r| && r[k] == entry
    requires forall a :: a in others ==> IsRing(a) && Apart(a, r)
    modifies entry, entry.prev, entry.next
    ensures IsRing(Without(r, k)) && IsRing([entry]) && entry !in Without(r, k)
    ensures forall a :: a in others ==> IsRing(a) && Apart(a, Without(r, k)) && entry !in a
  {
    ghost var p, n := r[k - 1], if k + 1 < |r| then r[k + 1] else r[0];
    assert entry.prev == p && entry.next == n && p in r && n in r && entry in r;
    entry.prev.next := entry.next;
    entry.next.prev := entry.prev;
    entry.next := entry;
    entry.prev := entry;
    ghost var q := Without(r, k);
    assert (forall i :: 0 <= i < k ==> q[i] == r[i]) && forall i :: k <= i < |q| ==> q[i] == r[i + 1];
    assert forall i :: 0 <= i < |q| - 1 ==> q[i].next == q[i + 1];
    assert q[|q| - 1].next == q[0];
    assert forall i :: 0 < i < |q| ==> q[i].prev == q[i - 1];
    assert q[0].prev == q[|q| - 1];
  }
}
