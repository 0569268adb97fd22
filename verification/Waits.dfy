/** Where Put and the flusher wait for the others, and that they wait nowhere else. */
module Waits {
  import opened Types
  import opened Protocol
  import opened Invariant
  import opened Frames
  import opened Runs
  import opened Recovery

  /** Put wants a slot, its class has no open slab and no memory slab is free; or it wants an entry and none is free. */
  predicate PutStands(s: State) {
    || (s.put.PAlloc? && Members(s.slabs, Partial(s.put.cid)) == {} && Members(s.slabs, MslabFree) == {})
    || (s.put.PWaiting? && s.nrFreeEntry <= 0)
  }

  /** A step of the current Put, but for giving up at shutdown. */
  ghost predicate PutMoves(c: Config, s: State, l: Step, s': State) {
    PutNext(c, s, l, s') && !l.DeleteS? && !l.PutAbortS?
  }

  lemma SlotNext(c: Config, s: State) returns (l: Step, s': State)
    requires Fits(c, s) && SlabsOk(c, s.slabs, s.mem, s.disk) && PutOk(c, s.slabs, s.mem, s.put)
    requires s.put.PAlloc? && !PutStands(s)
    ensures PutMoves(c, s, l, s')
  {
    hide SlabsOk, Bump, AppendRec;
    if x :| x in Members(s.slabs, Partial(s.put.cid)) {
      SlabAt(c, s.slabs, s.mem, s.disk, x);
      l, s' := PutAllocS(x, Rec("", "")), AfterAlloc(c, s, x, Rec("", ""));
    } else {
      var x :| x in Members(s.slabs, MslabFree);
      SlabAt(c, s.slabs, s.mem, s.disk, x);
      assert Members(s.slabs, Partial(s.put.cid)) == {};
      l, s' := PutOpenS(x), AfterOpen(c, s, x);
    }
  }

  lemma IndexNext(c: Config, s: State) returns (l: Step, s': State)
    requires Fits(c, s) && PutOk(c, s.slabs, s.mem, s.put) && !s.put.PIdle? && !s.put.PAlloc? && !PutStands(s)
    requires IndexOk(c, s.slabs, s.mem, s.disk, s.index, s.latest, s.put)
    ensures PutMoves(c, s, l, s')
  {
    hide IndexOk, Bump, WriteRec;
    if s.put.PSlot? {
      l, s' := PutWriteS, AfterWrite(c, s);
    } else if s.put.PIndexed? {
      l, s' := PutDoneS, AfterDone(c, s);
    } else if s.put.PWaiting? {
      l, s' := PutWakeS, Insert(c, s);
    } else if c.TagOf(s.put.k) in s.index {
      EntryAt(c, s, c.TagOf(s.put.k));
      l, s' := PutHitS, AfterHit(c, s, c.TagOf(s.put.k), s.index[c.TagOf(s.put.k)].sid);
    } else if s.nrFreeEntry > 0 {
      l, s' := PutMissS, Insert(c, s);
    } else {
      l, s' := PutBlockS, s.(put := PWaiting(s.put.k, s.put.v, s.put.sid, s.put.slot));
    }
  }

  lemma NoMember(slabs: seq<Slab>, l: ListId)
    requires Members(slabs, l) == {}
    ensures forall x :: 0 <= x < |slabs| ==> slabs[x].link != l
  {
    forall x | 0 <= x < |slabs| ensures slabs[x].link != l { assert x !in Members(slabs, l); }
  }

  lemma PutStandsStill(c: Config, s: State, l: Step, s': State)
    requires PutStands(s)
    ensures !PutMoves(c, s, l, s')
  {
    hide Members;
    if s.put.PAlloc? {
      NoMember(s.slabs, MslabFree);
      NoMember(s.slabs, Partial(s.put.cid));
    }
  }

  /** A Put in progress can take a step unless it waits for a memory slab or for an index entry. */
  lemma PutWaitsExactlyWhen(c: Config, s: State)
    requires !s.put.PIdle? && Reachable(c, s)
    ensures (exists l, s' :: PutMoves(c, s, l, s')) <==> !PutStands(s)
  {
    hide Leads, SlabsOk, OneOpen, PutOk, FlushOk, InvGc, IndexOk, CountsOk, MoveOk, InvPool, PutMoves, PutStands;
    LeadsInv(c, Whole, s);
    if PutStands(s) {
      forall l, s' ensures !PutMoves(c, s, l, s') { PutStandsStill(c, s, l, s'); }
    } else if s.put.PAlloc? {
      var l, s' := SlotNext(c, s);
    } else {
      var l, s' := IndexNext(c, s);
    }
  }

  /** No memory slab is published, or the flusher holds one and no disk slab is free. */
  predicate FlusherStands(s: State) {
    (s.flush.FIdle? && Members(s.slabs, MslabFull) == {}) || (s.flush.FGotM? && s.nrFreeDslab <= 0)
  }

  lemma FlusherStandsStill(c: Config, s: State, l: Step, s': State)
    requires FlusherStands(s) && s.nrFreeDslab == |OfFamily(s.slabs, FreeLists)|
    ensures !FlushNext(c, s, l, s')
  {
    if s.flush.FIdle? {
      NoMember(s.slabs, MslabFull);
    } else {
      forall x, ch | 0 <= x < |s.slabs| ensures s.slabs[x].link != DslabFree(ch) {
        assert x !in OfFamily(s.slabs, FreeLists);
      }
    }
  }

  /** The flusher can take a step unless it waits for a published memory slab or for a free disk slab. */
  lemma FlusherWaitsExactlyWhen(c: Config, s: State)
    requires Reachable(c, s)
    ensures (exists l, s' :: FlushNext(c, s, l, s')) <==> !FlusherStands(s)
  {
    hide Leads, InvSlabs, InvIndex, PoolOk, FlushNext, FlusherStands, OfFamily;
    LeadsInv(c, Whole, s);
    if FlusherStands(s) {
      forall l, s' ensures !FlushNext(c, s, l, s') { FlusherStandsStill(c, s, l, s'); }
    } else {
      KnowsOf(c, s);
      var m := Published(c, s);
      var l, s' := FlushAdvance(c, s, m);
    }
  }

  lemma Published(c: Config, s: State) returns (m: nat)
    requires FlushKnows(c, s) && !FlusherStands(s)
    ensures s.flush.FIdle? ==> m < c.nrMslab && s.slabs[m].link == MslabFull
    ensures s.flush.FGotM? ==> s.nrFreeDslab > 0
  {
    hide SlabsOk, FlushOk;
    m := 0;
    if s.flush.FIdle? {
      m :| m in Members(s.slabs, MslabFull);
      QueueInMemory(c, s, m);
    }
  }
}
