/**
 The sequences of ids that `DiskPools` and `IndexTable` work on are what the intrusive rings hold: pushing, popping and
 removing on the heap do to the ring what the sequence operations say, and leave every other ring alone.
 */
module RingLists {
  import opened IntrusiveList
  import DiskPools

  /** The members of ring `r`, front first, are the nodes of `items`; `id` names the owner of a node. */
  ghost predicate Holds(r: seq<Node>, id: map<Node, nat>, items: seq<nat>) {
    && |r| == |items| + 1
    && forall i :: 0 < i < |r| ==> r[i] in id && id[r[i]] == items[i - 1]
  }

  /** The lists of a vector, on rings that share no node. */
  ghost predicate AllHold(rings: seq<seq<Node>>, id: map<Node, nat>, lists: seq<DiskPools.List>)
  {
    && |rings| == |lists|
    && (forall i :: 0 <= i < |rings| ==> Holds(rings[i], id, lists[i].items))
    && (forall i, j :: 0 <= i < j < |rings| ==> Apart(rings[i], rings[j]))
  }

  /** The rings of the other channels. */
  ghost function OtherRings(rings: seq<seq<Node>>, ch: nat): set<seq<Node>> {
    set i | 0 <= i < |rings| && i != ch :: rings[i]
  }

  lemma HoldsLength(r: seq<Node>, id: map<Node, nat>, items: seq<nat>)
    requires Holds(r, id, items)
    ensures |r| == |items| + 1
  {
  }

  lemma HoldsWithout(r: seq<Node>, id: map<Node, nat>, items: seq<nat>, k: nat)
    requires Holds(r, id, items) && k < |items|
    ensures r[k + 1] in id && id[r[k + 1]] == items[k]
    ensures Holds(Without(r, k + 1), id, items[..k] + items[k + 1..])
  {
    var q, rest := Without(r, k + 1), items[..k] + items[k + 1..];
    forall i | 0 < i < |q| ensures q[i] in id && id[q[i]] == rest[i - 1] {
      assert q[i] == if i <= k then r[i] else r[i + 1];
    }
  }

  lemma ApartBothWays(r: seq<Node>, q: seq<Node>)
    ensures Apart(r, q) <==> Apart(q, r)
  {
  }

  /** `list_add` of slab `x` to the list of channel `ch`: `Push` on that list, nothing on the others. */
  method PushNode(x: Node, head: Node, ghost rings: seq<seq<Node>>, ghost ch: nat, ghost id: map<Node, nat>,
                  ghost lists: seq<DiskPools.List>)
    returns (ghost after: seq<seq<Node>>)
    requires (forall i :: 0 <= i < |rings| ==> IsRing(rings[i])) && AllHold(rings, id, lists)
    requires ch < |rings| && rings[ch][0] == head && x in id
    requires forall i :: 0 <= i < |rings| ==> x !in rings[i]
    modifies x, head, head.next
    ensures after == rings[ch := AfterHead(rings[ch], x)]
    ensures forall i :: 0 <= i < |after| ==> IsRing(after[i])
    ensures AllHold(after, id, lists[ch := lists[ch].Push(id[x])])
  {
    ghost var others := OtherRings(rings, ch);
    forall a | a in others ensures IsRing(a) && Apart(a, rings[ch]) && x !in a {
      ghost var i :| 0 <= i < |rings| && i != ch && a == rings[i];
      ApartBothWays(rings[i], rings[ch]);
    }
    ListAdd(x, head, rings[ch], others);
    after := rings[ch := AfterHead(rings[ch], x)];
    Reassemble(rings, ch, AfterHead(rings[ch], x), after);
  }

  /** `list_first_entry` and `list_del`: `Pop` on the list of channel `ch`, nothing on the others. */
  method PopNode(head: Node, ghost rings: seq<seq<Node>>, ghost ch: nat, ghost id: map<Node, nat>,
                 ghost lists: seq<DiskPools.List>)
    returns (x: Node, ghost after: seq<seq<Node>>)
    requires (forall i :: 0 <= i < |rings| ==> IsRing(rings[i])) && AllHold(rings, id, lists)
    requires ch < |rings| && rings[ch][0] == head && lists[ch].items != []
    modifies head, head.next, head.next.next
    ensures x in id && id[x] == lists[ch].items[0] && IsRing([x])
    ensures after == rings[ch := Without(rings[ch], 1)] && forall i :: 0 <= i < |after| ==> x !in after[i]
    ensures (forall i :: 0 <= i < |after| ==> IsRing(after[i])) && AllHold(after, id, lists[ch := lists[ch].Pop()])
  {
    hide Holds;
    HoldsLength(rings[ch], id, lists[ch].items);
    ghost var others := OtherRings(rings, ch);
    forall a | a in others ensures IsRing(a) && Apart(a, rings[ch]) {
      ghost var i :| 0 <= i < |rings| && i != ch && a == rings[i];
      ApartBothWays(rings[i], rings[ch]);
    }
    x := First(head, rings[ch]);
    assert x.prev == head && head.next == x && x.next == head.next.next;
    HoldsWithout(rings[ch], id, lists[ch].items, 0);
    assert lists[ch].items[..0] + lists[ch].items[1..] == lists[ch].Pop().items;
    ListDel(x, rings[ch], 1, others);
    after := rings[ch := Without(rings[ch], 1)];
    Reassemble(rings, ch, Without(rings[ch], 1), after);
  }

  /** Replacing one ring by one that is apart from the others. */
  lemma Reassemble(rings: seq<seq<Node>>, ch: nat, r: seq<Node>, after: seq<seq<Node>>)
    requires ch < |rings| && forall i, j :: 0 <= i < j < |rings| ==> Apart(rings[i], rings[j])
    requires after == rings[ch := r] && forall a :: a in OtherRings(rings, ch) ==> Apart(a, r)
    ensures forall i, j :: 0 <= i < j < |after| ==> Apart(after[i], after[j])
    ensures forall i :: 0 <= i < |after| && i != ch ==> after[i] in OtherRings(rings, ch)
  {
    forall i | 0 <= i < |rings| && i != ch ensures rings[i] in OtherRings(rings, ch) && Apart(r, rings[i]) {
      ApartBothWays(rings[i], r);
    }
  }

  /** `list_del` of the `k`-th entry of a hash chain: the chain without that entry, which is on no list. */
  method RemoveNode(x: Node, ghost r: seq<Node>, ghost k: nat, ghost id: map<Node, nat>, ghost chain: seq<nat>,
                    ghost others: set<seq<Node>>)
    requires IsRing(r) && Holds(r, id, chain) && k < |chain| && x == r[k + 1]
    requires forall a :: a in others ==> IsRing(a) && Apart(a, r)
    modifies x, x.prev, x.next
    ensures x in id && id[x] == chain[k] && IsRing([x])
    ensures IsRing(Without(r, k + 1)) && Holds(Without(r, k + 1), id, chain[..k] + chain[k + 1..])
    ensures forall a :: a in others ==> IsRing(a) && Apart(a, Without(r, k + 1))
  {
    HoldsWithout(r, id, chain, k);
    ListDel(x, r, k + 1, others);
  }
}
