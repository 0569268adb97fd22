/** Every step of Put and Delete keeps the invariant. */
module PutSteps {
  import opened Types
  import opened Protocol
  import opened Invariant
  import opened Counting
  import opened Frames

  /** A Put that holds no slot outside the index only has to satisfy `PutOk`. */
  lemma KeepsPutPc(c: Config, s: State, p: PutPc)
    requires Inv(c, s) && !PutPending(p) && PutOk(c, s.slabs, s.mem, p)
    ensures Inv(c, s.(put := p))
  {
    hide SlabsOk, OneOpen, LostOk, FlushOk, GcHeld, CollectOk, WrittenOk, SizesOk, PoolOk, MoveOk, PutOk;
  }

  lemma KeepsPutBegin(c: Config, s: State, s': State, k: Key, v: Value)
    requires Inv(c, s) && (PutBegin(c, s, s', k, v) || PutAbort(c, s, s'))
    ensures Inv(c, s')
  {
    hide SlabsOk, OneOpen, LostOk, FlushOk, GcHeld, CollectOk, WrittenOk, IndexOk, CountsOk, SizesOk, PoolOk, MoveOk;
    KeepsPutPc(c, s, s'.put);
  }

  /** Put takes the first class whose slots hold header, key and value; a pair that no class holds is refused. */
  lemma LeastClass(c: Config, s: State, k: Key, v: Value)
    requires s.put.PIdle?
    ensures forall s' :: PutBegin(c, s, s', k, v) ==>
              && s'.put.PAlloc? && s'.put.k == k && s'.put.v == v && s'.put.cid < |c.classes|
              && c.slotHeader + |k| + |v| <= c.classes[s'.put.cid]
              && forall i :: 0 <= i < s'.put.cid ==> c.classes[i] < c.slotHeader + |k| + |v|
    ensures (exists s' :: PutBegin(c, s, s', k, v)) <==>
            exists i :: 0 <= i < |c.classes| && c.slotHeader + |k| + |v| <= c.classes[i]
  {
    var cid := ClassFor(c, k, v);
    if cid < |c.classes| { assert PutBegin(c, s, s.(put := PAlloc(k, v, cid)), k, v); }
  }

  lemma OpenSlabs(c: Config, s: State, s': State, x: nat)
    requires InvSlabs(c, s) && PutOpen(c, s, s', x)
    ensures InvSlabs(c, s') && Touches(c, s, s', x)
    ensures !LiveRole(s.slabs[x].role) && s.slabs[x].Blank() && x < c.Buffer()
  {
    hide SlabsOk, FlushOk, InvGc;
    SlabAt(c, s.slabs, s.mem, s.disk, x);
    SlabsKept(c, s, s', x);
    Others(c, s, s', x);
    assert PutOk(c, s'.slabs, s'.mem, s'.put);
    forall y | 0 <= y < |s.slabs| && y != x && Taking(s.slabs[y].role)
      ensures s.slabs[y].cid != s.put.cid
    {
      SlabAt(c, s.slabs, s.mem, s.disk, y);
      assert y !in Members(s.slabs, Partial(s.put.cid));
    }
  }

  lemma KeepsPutOpen(c: Config, s: State, s': State, x: nat)
    requires Inv(c, s) && PutOpen(c, s, s', x)
    ensures Inv(c, s')
  {
    hide SlabsOk, OneOpen, LostOk, FlushOk, GcHeld, CollectOk, WrittenOk, IndexOk, CountsOk, SizesOk, PoolOk, MoveOk;
    OpenSlabs(c, s, s', x);
    assert InvIndex(c, s') by { IndexStands(c, s, s', x); }
    PoolKept(c, s, s', x);
  }

  lemma AllocSlabs(c: Config, s: State, s': State, x: nat, junk: Rec)
    requires InvSlabs(c, s) && PutAlloc(c, s, s', x, junk)
    ensures InvSlabs(c, s') && Touches(c, s, s', x) && Readable(c, s, s', x) && !s.slabs[x].IsFull() && x < c.Buffer()
    ensures s.slabs[x].cid >= 0
  {
    hide SlabsOk, FlushOk, InvGc, OneOpen;
    SlabAt(c, s.slabs, s.mem, s.disk, x);
    SlabsKept(c, s, s', x);
    Others(c, s, s', x);
    OpenKept(s.slabs, x, s'.slabs[x]);
  }

  lemma KeepsPutAlloc(c: Config, s: State, s': State, x: nat, junk: Rec)
    requires Inv(c, s) && PutAlloc(c, s, s', x, junk)
    ensures Inv(c, s')
  {
    hide SlabsOk, OneOpen, LostOk, FlushOk, GcHeld, CollectOk, WrittenOk, IndexOk, CountsOk, SizesOk, PoolOk, MoveOk;
    AllocSlabs(c, s, s', x, junk);
    assert InvIndex(c, s') by { IndexStands(c, s, s', x); }
    PoolKept(c, s, s', x);
  }

  lemma WriteSlabs(c: Config, s: State, s': State)
    requires InvSlabs(c, s) && PutWrite(c, s, s')
    ensures InvSlabs(c, s') && Touches(c, s, s', s.put.sid)
  {
    var x := s.put.sid;
    assert SlabOk(c, x, s.slabs[x], ImageOf(c, s.mem, s.disk, x));
    SlabsKept(c, s, s', x);
    Others(c, s, s', x);
  }

  lemma KeepsPutWrite(c: Config, s: State, s': State)
    requires Inv(c, s) && PutWrite(c, s, s')
    ensures Inv(c, s')
  {
    hide SlabsOk, OneOpen, LostOk, FlushOk, GcHeld, CollectOk, WrittenOk, IndexOk, CountsOk, SizesOk, PoolOk, MoveOk;
    WriteSlabs(c, s, s');
    IndexStands(c, s, s', s.put.sid);
  }

  lemma KeepsPutBlock(c: Config, s: State, s': State)
    requires Inv(c, s) && PutBlock(c, s, s')
    ensures Inv(c, s')
    ensures s.nrFreeEntry == 0 && s'.put.PWaiting? && c.TagOf(s'.put.k) !in s'.index
    ensures PutPending(s.put) && s'.put.sid == s.put.sid && s'.put.slot == s.put.slot
  {
    hide SlabsOk, OneOpen, LostOk, FlushOk, GcHeld, CollectOk, WrittenOk, IndexOk, SizesOk, PoolOk, MoveOk;
    BlockEntries(c, s, s');
  }

  /** The slot of a waiting Put is pending as before. */
  lemma BlockEntries(c: Config, s: State, s': State)
    requires Fits(c, s) && PutBlock(c, s, s') && IndexOk(c, s.slabs, s.mem, s.disk, s.index, s.latest, s.put)
    ensures IndexOk(c, s'.slabs, s'.mem, s'.disk, s'.index, s'.latest, s'.put)
  {
    forall t | t in s.index ensures EntryOk(c, s'.slabs, s'.mem, s'.disk, s'.latest, s'.put, t, s'.index[t]) {
      assert EntryOk(c, s.slabs, s.mem, s.disk, s.latest, s.put, t, s.index[t]);
    }
  }

  /** Only a full slab is published, and then no Put works on it. */
  lemma DoneSlabs(c: Config, s: State, s': State)
    requires InvSlabs(c, s) && PutDone(c, s, s') && s.slabs[s.put.sid].IsFull()
    ensures InvSlabs(c, s') && Touches(c, s, s', s.put.sid) && s.slabs[s.put.sid].link == NoList
    ensures Readable(c, s, s', s.put.sid)
  {
    var x := s.put.sid;
    assert SlabOk(c, x, s.slabs[x], ImageOf(c, s.mem, s.disk, x));
    SlabsKept(c, s, s', x);
    Others(c, s, s', x);
    OpenKept(s.slabs, x, s'.slabs[x]);
  }

  lemma DonePartial(c: Config, slabs: seq<Slab>, mem: seq<Image>, disk: seq<Image>, p: PutPc)
    requires Shaped(c, slabs, mem, disk) && SlabsOk(c, slabs, mem, disk)
    requires PutOk(c, slabs, mem, p) && p.PIndexed? && !slabs[p.sid].IsFull()
    ensures PutOk(c, slabs, mem, PIdle)
  {
    assert SlabOk(c, p.sid, slabs[p.sid], ImageOf(c, mem, disk, p.sid));
  }

  lemma KeepsPutDone(c: Config, s: State, s': State)
    requires Inv(c, s) && PutDone(c, s, s')
    ensures Inv(c, s')
  {
    hide SlabsOk, OneOpen, LostOk, FlushOk, GcHeld, CollectOk, WrittenOk, IndexOk, CountsOk, SizesOk, PoolOk, MoveOk;
    if s.slabs[s.put.sid].IsFull() {
      DoneSlabs(c, s, s');
      assert InvIndex(c, s') by { IndexStands(c, s, s', s.put.sid); }
      PoolKept(c, s, s', s.put.sid);
    } else {
      DonePartial(c, s.slabs, s.mem, s.disk, s.put);
      KeepsPutPc(c, s, PIdle);
    }
  }

  // ---------- publication ----------

  /** The slab that an entry names counts it: Put's and Delete's decrements start above zero. */
  lemma UsedByEntry(c: Config, s: State, t: Tag)
    requires InvSlabs(c, s) && InvIndex(c, s) && t in s.index
    ensures s.index[t].sid < c.Slabs() && s.slabs[s.index[t].sid].nrUsed > 0
  {
    assert EntryOk(c, s.slabs, s.mem, s.disk, s.latest, s.put, t, s.index[t]);
    assert t in Live(s.index, s.index[t].sid);
  }

  /** One slab loses a user: every slab predicate survives. */
  lemma LoseUser(c: Config, s: State, s': State, x: nat)
    requires InvSlabs(c, s) && x < c.Slabs() && s.slabs[x].nrUsed > 0
    requires s'.slabs == s.slabs[x := s.slabs[x].(nrUsed := s.slabs[x].nrUsed - 1)]
    requires s'.mem == s.mem && s'.disk == s.disk && s'.flush == s.flush && s'.gc == s.gc && s'.lost == s.lost
    ensures Touches(c, s, s', x)
    ensures SlabsOk(c, s'.slabs, s'.mem, s'.disk) && OneOpen(s'.slabs)
    ensures PutOk(c, s'.slabs, s'.mem, s.put) && FlushOk(c, s'.slabs, s'.mem, s'.disk, s'.flush)
    ensures InvGc(c, s')
  {
    hide SlabsOk, FlushOk, InvGc, OneOpen, PutOk;
    SlabAt(c, s.slabs, s.mem, s.disk, x);
    SlabsKept(c, s, s', x);
    OpenKept(s.slabs, x, s'.slabs[x]);
    FlushKept(c, s, s', x);
    GcKept(c, s, s', x);
    PutKept(c, s, s'.(put := s.put), x);
  }

  /** Put's pending slot is in the index now. */
  lemma PutOkIndexed(c: Config, slabs: seq<Slab>, mem: seq<Image>, p: PutPc)
    requires c.Valid() && |mem| == c.nrMslab <= |slabs| && PutOk(c, slabs, mem, p) && PutPending(p)
    ensures PutOk(c, slabs, mem, PIndexed(p.sid))
  {
  }

  /** The entry of the key's tag points at the new slot, whose record is the newest value of the key. */
  lemma PublishIndex(c: Config, s: State, s': State)
    requires Fits(c, s) && Fits(c, s') && (s.put.PWritten? || s.put.PWaiting?)
    requires SlabsOk(c, s.slabs, s.mem, s.disk) && PutOk(c, s.slabs, s.mem, s.put)
    requires IndexOk(c, s.slabs, s.mem, s.disk, s.index, s.latest, s.put)
    requires s'.index == s.index[c.TagOf(s.put.k) := Loc(s.put.sid, s.put.slot)]
    requires s'.latest == s.latest[s.put.k := s.put.v] && s'.put == PIndexed(s.put.sid)
    requires s'.mem == s.mem && s'.disk == s.disk
    requires forall y :: 0 <= y < c.Slabs() ==> s'.slabs[y] == s.slabs[y].(nrUsed := s'.slabs[y].nrUsed)
    ensures IndexOk(c, s'.slabs, s'.mem, s'.disk, s'.index, s'.latest, s'.put)
  {
    var x := s.put.sid;
    assert SlabOk(c, x, s.slabs[x], ImageOf(c, s.mem, s.disk, x));
    forall t | t in s'.index ensures EntryOk(c, s'.slabs, s'.mem, s'.disk, s'.latest, s'.put, t, s'.index[t]) {
      if t != c.TagOf(s.put.k) {
        assert EntryOk(c, s.slabs, s.mem, s.disk, s.latest, s.put, t, s.index[t]);
      }
    }
  }

  /** The slab that lost the entry counts one less, and the pending slot of the new one is live now. */
  lemma HitCounts(c: Config, s: State, s': State)
    requires Fits(c, s) && PutHit(c, s, s') && CountsOk(s.slabs, s.index, s.put) && EntriesOk(c, s.index, s.nrFreeEntry)
    ensures CountsOk(s'.slabs, s'.index, s'.put) && EntriesOk(c, s'.index, s'.nrFreeEntry)
  {
    var t := c.TagOf(s.put.k);
    LiveAfterSet(s.index, t, Loc(s.put.sid, s.put.slot));
    SizeAfterSet(s.index, t, Loc(s.put.sid, s.put.slot));
  }

  lemma HitIndex(c: Config, s: State, s': State)
    requires InvSlabs(c, s) && InvIndex(c, s) && PutHit(c, s, s')
    requires Fits(c, s')
    ensures InvIndex(c, s')
  {
    hide SlabsOk, OneOpen, LostOk, FlushOk, GcHeld, WrittenOk, IndexOk, CollectOk, MoveOk, CountsOk, EntriesOk;
    PublishIndex(c, s, s');
    HitCounts(c, s, s');
    MoveKept(c, s, s');
  }

  lemma KeepsPutHit(c: Config, s: State, s': State)
    requires Inv(c, s) && PutHit(c, s, s')
    ensures Inv(c, s')
  {
    UsedByEntry(c, s, c.TagOf(s.put.k));
    var x := s.index[c.TagOf(s.put.k)].sid;
    LoseUser(c, s, s', x);
    PutOkIndexed(c, s'.slabs, s'.mem, s.put);
    HitIndex(c, s, s');
    PoolKept(c, s, s', x);
  }

  lemma InsertIndex(c: Config, s: State, s': State)
    requires InvSlabs(c, s) && InvIndex(c, s) && (PutMiss(c, s, s') || PutWake(c, s, s'))
    ensures InvIndex(c, s')
  {
    hide SlabsOk, OneOpen, LostOk, FlushOk, GcHeld, WrittenOk, IndexOk, CollectOk, MoveOk;
    var t := c.TagOf(s.put.k);
    PublishIndex(c, s, s');
    LiveAfterSet(s.index, t, Loc(s.put.sid, s.put.slot));
    SizeAfterSet(s.index, t, Loc(s.put.sid, s.put.slot));
    MoveKept(c, s, s');
  }

  /** Also when Put slept with the index unlocked: no second entry for the bucket and digest can have appeared. */
  lemma KeepsInsert(c: Config, s: State, s': State)
    requires Inv(c, s) && (PutMiss(c, s, s') || PutWake(c, s, s'))
    ensures Inv(c, s')
  {
    PutOkIndexed(c, s.slabs, s.mem, s.put);
    InsertIndex(c, s, s');
  }

  // ---------- Delete ----------

  lemma DropCounts(slabs: seq<Slab>, slabs': seq<Slab>, index: map<Tag, Loc>, p: PutPc, t: Tag)
    requires CountsOk(slabs, index, p) && t in index && |slabs'| == |slabs|
    requires forall y :: 0 <= y < |slabs| ==> slabs'[y].nrUsed >= slabs[y].nrUsed - One(index[t].sid == y)
    ensures CountsOk(slabs', index - {t}, p)
  {
    LiveAfterDropOne(index, t);
  }

  lemma DeleteMiss(c: Config, s: State, s': State, k: Key)
    requires Inv(c, s) && c.TagOf(k) !in s.index && s' == s.(latest := s.latest - {k})
    ensures Inv(c, s')
  {
    hide SlabsOk, OneOpen, FlushOk, PutOk, GcHeld, CollectOk, WrittenOk, LostOk, IndexOk, CountsOk, EntriesOk, SizesOk,
         PoolOk, MoveOk;
    IndexShrinks(c, s, s');
  }

  /** The entry of `k` is gone, and its slab may have lost a user. */
  ghost predicate Deletes(c: Config, s: State, s': State, k: Key) {
    && c.buckets > 0
    && var t := c.TagOf(k);
       && Fits(c, s) && Fits(c, s') && t in s.index
       && s'.index == s.index - {t} && s'.latest == s.latest - {k} && s'.nrFreeEntry == s.nrFreeEntry + 1
       && s'.mem == s.mem && s'.disk == s.disk && s'.put == s.put && s'.gc == s.gc
       && forall y :: 0 <= y < c.Slabs() ==>
            && s'.slabs[y] == s.slabs[y].(nrUsed := s'.slabs[y].nrUsed)
            && s'.slabs[y].nrUsed >= s.slabs[y].nrUsed - One(s.index[t].sid == y)
  }

  lemma DeleteIndex(c: Config, s: State, s': State, k: Key)
    requires c.buckets > 0 && Deletes(c, s, s', k)
    requires CollectOk(c, s.slabs, s.gc) && InvIndex(c, s)
    ensures InvIndex(c, s')
  {
    hide CollectOk, MoveOk, IndexOk, CountsOk;
    IndexShrinks(c, s, s');
    MoveKept(c, s, s');
    LiveAfterDropOne(s.index, c.TagOf(k));
    DropCounts(s.slabs, s'.slabs, s.index, s.put, c.TagOf(k));
  }

  lemma KeepsDelete(c: Config, s: State, s': State, k: Key, counted: bool)
    requires Inv(c, s) && Delete(c, s, s', k, counted)
    ensures Inv(c, s')
  {
    hide SlabsOk, OneOpen, LostOk, FlushOk, PutOk, GcHeld, CollectOk, WrittenOk, IndexOk, CountsOk, EntriesOk, SizesOk,
         PoolOk, MoveOk;
    var t := c.TagOf(k);
    if t !in s.index {
      DeleteMiss(c, s, s', k);
    } else {
      var x := s.index[t].sid;
      UsedByEntry(c, s, t);
      if counted {
        LoseUser(c, s, s', x);
        PoolKept(c, s, s', x);
      }
      DeleteIndex(c, s, s', k);
    }
  }
}
