/**
 The index as the program keeps it: a fixed area of entries, one chain of entries for each hash bucket, and a list of
 free entries. Its methods compute the map operations that the protocol uses.
 */
module IndexTable {
  import opened Types
  import opened Protocol
  import opened Counting

  datatype Entry = Entry(digest: nat, slabId: nat, slotId: nat)

  predicate NoDup(s: seq<nat>) { forall i, j :: 0 <= i < j < |s| ==> s[i] != s[j] }

  /** An entry on the chain of bucket `b` is the one entry of its bucket and digest. */
  predicate ChainedOk(area: seq<Entry>, owner: map<Tag, nat>, b: nat, e: nat) {
    e < |area| && Tag(b, area[e].digest) in owner && owner[Tag(b, area[e].digest)] == e
  }

  /** The entry of tag `t` is on the chain of its bucket. */
  predicate OwnerOk(area: seq<Entry>, table: seq<seq<nat>>, t: Tag, e: nat) {
    t.bucket < |table| && e < |area| && e in table[t.bucket] && area[e].digest == t.digest
  }

  ghost predicate ChainsOk(area: seq<Entry>, table: seq<seq<nat>>, owner: map<Tag, nat>) {
    && (forall b, i :: 0 <= b < |table| && 0 <= i < |table[b]| ==> ChainedOk(area, owner, b, table[b][i]))
    && (forall b :: 0 <= b < |table| ==> NoDup(table[b]))
    && (forall t :: t in owner ==> OwnerOk(area, table, t, owner[t]))
    && (forall t, u :: t in owner && u in owner && t != u ==> owner[t] != owner[u])
  }

  /** Free entries are unchained, and with the chained ones they are all entries. */
  ghost predicate FreeOk(area: seq<Entry>, free: seq<nat>, owner: map<Tag, nat>) {
    && (forall i :: 0 <= i < |free| ==> free[i] < |area|)
    && NoDup(free)
    && (forall t :: t in owner ==> owner[t] !in free)
    && |free| + |owner| == |area|
  }

  /** The index as a map. */
  function MapOf(area: seq<Entry>, owner: map<Tag, nat>): map<Tag, Loc>
    requires forall t :: t in owner ==> owner[t] < |area|
  {
    map t | t in owner :: Loc(area[owner[t]].slabId, area[owner[t]].slotId)
  }

  lemma PointKeeps(area: seq<Entry>, table: seq<seq<nat>>, free: seq<nat>, owner: map<Tag, nat>, t: Tag, to: Loc)
    requires ChainsOk(area, table, owner) && FreeOk(area, free, owner) && t in owner
    ensures owner[t] < |area|
    ensures var area' := area[owner[t] := area[owner[t]].(slabId := to.sid, slotId := to.slot)];
            && ChainsOk(area', table, owner) && FreeOk(area', free, owner)
            && MapOf(area', owner) == MapOf(area, owner)[t := to]
  {
    assert OwnerOk(area, table, t, owner[t]);
  }

  lemma InsertChains(area: seq<Entry>, table: seq<seq<nat>>, owner: map<Tag, nat>, t: Tag, e: nat, entry: Entry)
    requires ChainsOk(area, table, owner) && t !in owner && t.bucket < |table| && e < |area| && entry.digest == t.digest
    requires forall u :: u in owner ==> owner[u] != e
    ensures ChainsOk(area[e := entry], table[t.bucket := [e] + table[t.bucket]], owner[t := e])
  {
    var area', table', owner' := area[e := entry], table[t.bucket := [e] + table[t.bucket]], owner[t := e];
    forall b, i | 0 <= b < |table| && 0 <= i < |table[b]|
      ensures ChainedOk(area, owner, b, table[b][i]) && table[b][i] != e
    {
    }
    forall b, i | 0 <= b < |table'| && 0 <= i < |table'[b]| ensures ChainedOk(area', owner', b, table'[b][i]) {
      if b == t.bucket && i > 0 { assert table'[b][i] == table[b][i - 1]; }
    }
    forall u | u in owner' ensures OwnerOk(area', table', u, owner'[u]) {
      if u == t {
        assert table'[t.bucket][0] == e;
      } else {
        assert OwnerOk(area, table, u, owner[u]);
      }
    }
  }

  lemma RemoveChains(area: seq<Entry>, table: seq<seq<nat>>, owner: map<Tag, nat>, t: Tag, k: nat)
    requires ChainsOk(area, table, owner) && t in owner && t.bucket < |table| && k < |table[t.bucket]|
    requires table[t.bucket][k] == owner[t]
    ensures var chain := table[t.bucket];
            ChainsOk(area, table[t.bucket := chain[..k] + chain[k + 1..]], owner - {t})
  {
    var b0, chain := t.bucket, table[t.bucket];
    var rest := chain[..k] + chain[k + 1..];
    var table', owner' := table[b0 := rest], owner - {t};
    assert OwnerOk(area, table, t, owner[t]);
    forall b, i | 0 <= b < |table'| && 0 <= i < |table'[b]| ensures ChainedOk(area, owner', b, table'[b][i]) {
      var j := if b == b0 && i >= k then i + 1 else i;
      assert table'[b][i] == table[b][j] && ChainedOk(area, owner, b, table[b][j]);
    }
    forall u | u in owner' ensures OwnerOk(area, table', u, owner'[u]) {
      assert OwnerOk(area, table, u, owner[u]) && owner[u] != owner[t];
      var i :| 0 <= i < |table[u.bucket]| && table[u.bucket][i] == owner[u];
      if u.bucket == b0 { assert rest[if i < k then i else i - 1] == owner[u]; }
    }
  }

  lemma OwnersInArea(area: seq<Entry>, table: seq<seq<nat>>, owner: map<Tag, nat>)
    requires ChainsOk(area, table, owner)
    ensures forall t :: t in owner ==> owner[t] < |area| && t.bucket < |table|
  {
    forall t | t in owner ensures owner[t] < |area| && t.bucket < |table| {
      assert OwnerOk(area, table, t, owner[t]);
    }
  }

  lemma InsertFree(area: seq<Entry>, free: seq<nat>, owner: map<Tag, nat>, t: Tag, entry: Entry)
    requires FreeOk(area, free, owner) && t !in owner && |free| > 0
    ensures free[0] < |area| && FreeOk(area[free[0] := entry], free[1..], owner[t := free[0]])
  {
    assert owner[t := free[0]].Keys == owner.Keys + {t};
  }

  lemma RemoveFree(area: seq<Entry>, free: seq<nat>, owner: map<Tag, nat>, t: Tag)
    requires FreeOk(area, free, owner) && t in owner && owner[t] < |area|
    requires forall u :: u in owner && u != t ==> owner[u] != owner[t]
    ensures FreeOk(area, [owner[t]] + free, owner - {t})
  {
    assert (owner - {t}).Keys == owner.Keys - {t};
  }

  lemma OwnersDistinct(area: seq<Entry>, table: seq<seq<nat>>, owner: map<Tag, nat>, t: Tag)
    requires ChainsOk(area, table, owner) && t in owner
    ensures forall u :: u in owner && u != t ==> owner[u] != owner[t]
  {
  }

  /** The first free entry joins the index as the entry of tag `t`. */
  lemma InsertKeeps(area: seq<Entry>, table: seq<seq<nat>>, free: seq<nat>, owner: map<Tag, nat>, t: Tag, to: Loc)
    requires ChainsOk(area, table, owner) && FreeOk(area, free, owner)
    requires t !in owner && t.bucket < |table| && |free| > 0
    ensures free[0] < |area| && forall u :: u in owner ==> owner[u] < |area|
    ensures var e := free[0];
            var area', owner' := area[e := Entry(t.digest, to.sid, to.slot)], owner[t := e];
            && ChainsOk(area', table[t.bucket := [e] + table[t.bucket]], owner') && FreeOk(area', free[1..], owner')
            && MapOf(area', owner') == MapOf(area, owner)[t := to]
  {
    var e := free[0];
    assert forall u :: u in owner ==> owner[u] != e;
    hide ChainsOk, FreeOk;
    OwnersInArea(area, table, owner);
    InsertFree(area, free, owner, t, Entry(t.digest, to.sid, to.slot));
    InsertChains(area, table, owner, t, e, Entry(t.digest, to.sid, to.slot));
  }

  /** The entry of tag `t` joins the free entries. */
  lemma RemoveKeeps(area: seq<Entry>, table: seq<seq<nat>>, free: seq<nat>, owner: map<Tag, nat>, t: Tag, k: nat)
    requires ChainsOk(area, table, owner) && FreeOk(area, free, owner) && t in owner && t.bucket < |table|
    requires k < |table[t.bucket]| && table[t.bucket][k] == owner[t]
    ensures forall u :: u in owner ==> owner[u] < |area|
    ensures var chain := table[t.bucket];
            && ChainsOk(area, table[t.bucket := chain[..k] + chain[k + 1..]], owner - {t})
            && FreeOk(area, [owner[t]] + free, owner - {t})
            && MapOf(area, owner - {t}) == MapOf(area, owner) - {t}
  {
    hide ChainsOk, FreeOk;
    RemoveChains(area, table, owner, t, k);
    OwnersInArea(area, table, owner);
    OwnersDistinct(area, table, owner, t);
    RemoveFree(area, free, owner, t);
  }

  // ---------- one round of the loops over the slots of a slab ----------

  /** Slot `i` redirects the entry of its key if that entry names this very slot. */
  lemma RedirectRound(c: Config, v0: map<Tag, Loc>, src: nat, dst: nat, recs: seq<Rec>, i: nat)
    requires c.buckets > 0 && src != dst && i < |recs|
    ensures var r, r' := Redirected(c, v0, src, i, recs), Redirected(c, v0, src, i + 1, recs);
            var v, t := RedirectIndex(v0, r, dst), c.TagOf(recs[i].key);
            if t in v && v[t] == Loc(src, i)
            then RedirectIndex(v0, r', dst) == v[t := Loc(dst, i)] && r' == r + {t} && t !in r
            else r' == r
  {
    var r, r' := Redirected(c, v0, src, i, recs), Redirected(c, v0, src, i + 1, recs);
    var v, t := RedirectIndex(v0, r, dst), c.TagOf(recs[i].key);
    if t in v && v[t] == Loc(src, i) {
      assert r' == r + {t};
      assert RedirectIndex(v0, r', dst) == v[t := Loc(dst, i)];
    } else {
      assert r' == r;
    }
  }

  lemma EvictRound(c: Config, v0: map<Tag, Loc>, recs: seq<Rec>, i: nat)
    requires c.buckets > 0 && i < |recs|
    ensures var d, d', t := StoredTags(c, i, recs), StoredTags(c, i + 1, recs), c.TagOf(recs[i].key);
            && d' == d + {t} && v0 - d' == (v0 - d) - {t}
            && |v0.Keys * d'| == |v0.Keys * d| + One(t in v0 - d)
  {
    var d, d', t := StoredTags(c, i, recs), StoredTags(c, i + 1, recs), c.TagOf(recs[i].key);
    assert d' == d + {t};
    assert v0 - d' == (v0 - d) - {t};
    if t in v0 - d {
      assert v0.Keys * d' == v0.Keys * d + {t};
    } else {
      assert v0.Keys * d' == v0.Keys * d;
    }
  }

  /** Entries that point into `src` belong to the keys stored there. */
  ghost predicate TagsMatch(c: Config, v: map<Tag, Loc>, src: nat, recs: seq<Rec>)
    requires c.buckets > 0
  {
    forall t :: t in v && v[t].sid == src ==> v[t].slot < |recs| && c.TagOf(recs[v[t].slot].key) == t
  }

  /** Entry `t` after the first `i` slots of `src` were moved behind the `n` records that buffer `b` held before. */
  ghost predicate MovedTo(v0: map<Tag, Loc>, v: map<Tag, Loc>, t: Tag, src: nat, recs: seq<Rec>, i: nat, b: nat,
                          n: nat, buf: seq<Rec>)
    requires t in v0 && t in v
  {
    if v0[t].sid == src && v0[t].slot < i
    then v[t].sid == b && n <= v[t].slot < |buf| && v0[t].slot < |recs| && buf[v[t].slot] == recs[v0[t].slot]
    else v[t] == v0[t]
  }

  ghost predicate MovedAll(v0: map<Tag, Loc>, v: map<Tag, Loc>, src: nat, recs: seq<Rec>, i: nat, b: nat, n: nat,
                           buf: seq<Rec>) {
    v.Keys == v0.Keys && forall t :: t in v0 ==> MovedTo(v0, v, t, src, recs, i, b, n, buf)
  }

  lemma MoveRound(c: Config, v0: map<Tag, Loc>, v: map<Tag, Loc>, src: nat, recs: seq<Rec>, i: nat, b: nat, n: nat,
                  buf: seq<Rec>)
    requires c.buckets > 0 && src != b && i < |recs| && n <= |buf|
    requires TagsMatch(c, v0, src, recs) && MovedAll(v0, v, src, recs, i, b, n, buf)
    ensures var t := c.TagOf(recs[i].key);
            if t in v && v[t] == Loc(src, i)
            then MovedAll(v0, v[t := Loc(b, |buf|)], src, recs, i + 1, b, n, buf + [recs[i]])
            else MovedAll(v0, v, src, recs, i + 1, b, n, buf)
  {
    var t := c.TagOf(recs[i].key);
    var moves := t in v && v[t] == Loc(src, i);
    var v', buf' := if moves then v[t := Loc(b, |buf|)] else v, if moves then buf + [recs[i]] else buf;
    forall u | u in v0 ensures MovedTo(v0, v', u, src, recs, i + 1, b, n, buf') {
      assert MovedTo(v0, v, u, src, recs, i, b, n, buf);
    }
  }

  class Index {
    const c: Config
    const area: array<Entry>
    var table: seq<seq<nat>>         // entry ids of each bucket
    var free: seq<nat>               // `free_index_entry_`
    var nrFree: int                  // `nr_free_index_entry_`
    ghost var owner: map<Tag, nat>   // the entry of each tag in the index

    ghost predicate Valid()
      reads this, area
    {
      && c.buckets > 0 && |table| == c.buckets
      && ChainsOk(area[..], table, owner) && FreeOk(area[..], free, owner) && nrFree == |free|
    }

    ghost function View(): map<Tag, Loc>
      requires Valid()
      reads this, area
    {
      OwnersInArea(area[..], table, owner);
      MapOf(area[..], owner)
    }

    /** `index_init`: every entry is free and every chain is empty. */
    constructor (c: Config)
      requires c.buckets > 0
      ensures Valid() && View() == map[] && nrFree == c.nrEntries == area.Length && this.c == c
      ensures fresh(area) && forall b :: 0 <= b < |table| ==> table[b] == []
      ensures |free| == c.nrEntries && forall i :: 0 <= i < |free| ==> free[i] == c.nrEntries - 1 - i
    {
      this.c := c;
      area := new Entry[c.nrEntries](_ => Entry(0, 0, 0));
      table := seq(c.buckets, _ => []);
      free := seq(c.nrEntries, i => c.nrEntries - 1 - i);
      nrFree := c.nrEntries;
      owner := map[];
    }

    /** `get_index_entry`: search the chain of the key's bucket for its digest. */
    method Find(k: Key) returns (found: bool, pos: nat, e: nat)
      requires Valid()
      ensures found <==> c.TagOf(k) in View()
      ensures found ==> e < area.Length && c.TagOf(k) in owner && owner[c.TagOf(k)] == e
      ensures found ==> pos < |table[c.TagOf(k).bucket]| && table[c.TagOf(k).bucket][pos] == e
      ensures found ==> View()[c.TagOf(k)] == Loc(area[e].slabId, area[e].slotId)
      ensures found ==> e in table[c.hash(k) % c.buckets] && area[e].digest == c.digest(k)
      ensures !found ==> forall d :: d in table[c.hash(k) % c.buckets] ==>
                           d < area.Length && area[d].digest != c.digest(k)
    {
      var b, d := c.hash(k) % c.buckets, c.digest(k);
      var i := 0;
      while i < |table[b]|
        invariant 0 <= i <= |table[b]|
        invariant forall j :: 0 <= j < i ==> table[b][j] < area.Length && area[table[b][j]].digest != d
      {
        assert ChainedOk(area[..], owner, b, table[b][i]);
        if area[table[b][i]].digest == d {
          return true, i, table[b][i];
        }
        i := i + 1;
      }
      assert Tag(b, d) in owner ==> OwnerOk(area[..], table, Tag(b, d), owner[Tag(b, d)]);
      return false, 0, 0;
    }

    /** Point an entry of the index somewhere else. */
    method Point(e: nat, to: Loc, ghost t: Tag)
      requires Valid() && t in owner && owner[t] == e
      modifies area
      ensures Valid() && View() == old(View())[t := to]
    {
      PointKeeps(area[..], table, free, owner, t, to);
      ghost var before := area[..];
      area[e] := area[e].(slabId := to.sid, slotId := to.slot);
      assert area[..] == before[e := before[e].(slabId := to.sid, slotId := to.slot)];
    }

    /** `index_entry_alloc` and `put_index_entry`: chain a free entry, if there is one. */
    method Insert(k: Key, to: Loc) returns (ok: bool)
      requires Valid() && c.TagOf(k) !in View()
      modifies this`table, this`free, this`nrFree, this`owner, area
      ensures Valid() && ok == (old(nrFree) > 0)
      ensures View() == if ok then old(View())[c.TagOf(k) := to] else old(View())
      ensures nrFree == if ok then old(nrFree) - 1 else old(nrFree)
      ensures ok ==>
                var b, e := c.hash(k) % c.buckets, old(free)[0];
                && e < area.Length && area[..] == old(area[..])[e := Entry(c.digest(k), to.sid, to.slot)]
                && table == old(table)[b := [e] + old(table)[b]] && free == old(free)[1..]
    {
      if |free| == 0 {
        return false;
      }
      var b, d := c.hash(k) % c.buckets, c.digest(k);
      var e := free[0];
      hide ChainsOk, FreeOk;
      ghost var t, before := Tag(b, d), area[..];
      InsertKeeps(before, table, free, owner, t, to);
      free := free[1..];
      nrFree := nrFree - 1;
      area[e] := Entry(d, to.sid, to.slot);
      table := table[b := [e] + table[b]];
      assert area[..] == before[e := Entry(d, to.sid, to.slot)];
      owner := owner[t := e];
      ok := true;
    }

    /** `del_index_entry` and `index_entry_free`: unchain the key's entry, if there is one. */
    method Remove(k: Key) returns (removed: bool)
      requires Valid()
      modifies this`table, this`free, this`nrFree, this`owner
      ensures Valid() && removed == (c.TagOf(k) in old(View()))
      ensures View() == old(View()) - {c.TagOf(k)}
      ensures nrFree == if removed then old(nrFree) + 1 else old(nrFree)
      ensures removed ==>
                var b := c.hash(k) % c.buckets;
                exists pos, e :: 0 <= pos < |old(table)[b]| && old(table)[b][pos] == e < area.Length
                                 && area[e].digest == c.digest(k) && free == [e] + old(free)
                                 && table == old(table)[b := old(table)[b][..pos] + old(table)[b][pos + 1..]]
    {
      hide ChainsOk, FreeOk;
      var found, pos, e := Find(k);
      if !found {
        assert View() == View() - {c.TagOf(k)};
        return false;
      }
      var b := c.hash(k) % c.buckets;
      ghost var t := c.TagOf(k);
      OwnersInArea(area[..], table, owner);
      RemoveKeeps(area[..], table, free, owner, t, pos);
      table := table[b := table[b][..pos] + table[b][pos + 1..]];
      free := [e] + free;
      nrFree := nrFree + 1;
      owner := owner - {t};
      removed := true;
    }

    /** `modify_index_to`: redirect every entry that names a slot of `src` and count them. */
    method ModifyIndexTo(recs: seq<Rec>, src: nat, dst: nat) returns (nrUsed: nat)
      requires Valid() && src != dst
      modifies area
      ensures Valid()
      ensures View() == RedirectIndex(old(View()), Redirected(c, old(View()), src, |recs|, recs), dst)
      ensures nrUsed == |Redirected(c, old(View()), src, |recs|, recs)|
    {
      hide ChainsOk, FreeOk, Redirected, RedirectIndex;
      ghost var v0 := View();
      RedirectNone(c, v0, src, dst, recs);
      nrUsed := 0;
      var i := 0;
      while i < |recs|
        invariant 0 <= i <= |recs|
        invariant Valid() && View() == RedirectIndex(v0, Redirected(c, v0, src, i, recs), dst)
        invariant nrUsed == |Redirected(c, v0, src, i, recs)|
      {
        RedirectRound(c, v0, src, dst, recs, i);
        var found, pos, e := Find(recs[i].key);
        if found && area[e].slabId == src && area[e].slotId == i {
          Point(e, Loc(dst, i), c.TagOf(recs[i].key));
          nrUsed := nrUsed + 1;
        }
        i := i + 1;
      }
    }

    /** The loop of `evict_dslab`: delete the entry of every stored key. */
    method Evict(recs: seq<Rec>)
      requires Valid()
      modifies this`table, this`free, this`nrFree, this`owner
      ensures Valid()
      ensures View() == old(View()) - StoredTags(c, |recs|, recs)
      ensures nrFree == old(nrFree) + |old(View()).Keys * StoredTags(c, |recs|, recs)|
    {
      hide ChainsOk, FreeOk;
      ghost var v0 := View();
      assert StoredTags(c, 0, recs) == {} && v0 - {} == v0;
      var i := 0;
      while i < |recs|
        invariant 0 <= i <= |recs|
        invariant Valid() && View() == v0 - StoredTags(c, i, recs)
        invariant nrFree == old(nrFree) + |v0.Keys * StoredTags(c, i, recs)|
      {
        EvictRound(c, v0, recs, i);
        var removed := Remove(recs[i].key);
        i := i + 1;
      }
    }

    /**
     The loop of `gc_dslabs` over one source slab: records that the index still names go behind the buffer's records,
     and their entries follow. If the live entries of the source fit, no slot is ever taken from a full buffer.
     */
    method MoveSlots(recs: seq<Rec>, src: nat, b: nat, buf: seq<Rec>, nrSlots: nat) returns (out: seq<Rec>)
      requires Valid() && src != b && TagsMatch(c, View(), src, recs)
      requires |buf| + |Live(View(), src)| <= nrSlots
      modifies area
      ensures Valid() && buf <= out && |out| <= nrSlots
      ensures MovedAll(old(View()), View(), src, recs, |recs|, b, |buf|, out)
      ensures |out| == |buf| + |Live(old(View()), src)| && Live(View(), src) == {}
    {
      hide ChainsOk, FreeOk;
      ghost var v0 := View();
      out := buf;
      var i := 0;
      while i < |recs|
        invariant 0 <= i <= |recs| && buf <= out
        invariant Valid() && MovedAll(v0, View(), src, recs, i, b, |buf|, out)
        invariant |out| + |Live(View(), src)| == |buf| + |Live(v0, src)|
      {
        MoveRound(c, v0, View(), src, recs, i, b, |buf|, out);
        var found, pos, e := Find(recs[i].key);
        if found && area[e].slabId == src && area[e].slotId == i {
          ghost var t := c.TagOf(recs[i].key);
          LiveAfterSet(View(), t, Loc(b, |out|));
          assert t in Live(View(), src);
          assert |out| < nrSlots;
          Point(e, Loc(b, |out|), t);
          out := out + [recs[i]];
        }
        i := i + 1;
      }
      MovedAway(c, v0, View(), src, recs, b, |buf|, out);
    }
  }

  lemma RedirectNone(c: Config, v0: map<Tag, Loc>, src: nat, dst: nat, recs: seq<Rec>)
    requires c.buckets > 0
    ensures Redirected(c, v0, src, 0, recs) == {} && RedirectIndex(v0, {}, dst) == v0
  {
  }

  lemma MovedAway(c: Config, v0: map<Tag, Loc>, v: map<Tag, Loc>, src: nat, recs: seq<Rec>, b: nat, n: nat,
                  buf: seq<Rec>)
    requires c.buckets > 0 && src != b && TagsMatch(c, v0, src, recs) && MovedAll(v0, v, src, recs, |recs|, b, n, buf)
    ensures Live(v, src) == {}
  {
    forall t | t in v ensures v[t].sid != src { assert MovedTo(v0, v, t, src, recs, |recs|, b, n, buf); }
  }
}
