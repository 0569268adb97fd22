/** Every step of the flusher keeps the invariant. */
module FlushSteps {
  import opened Types
  import opened Protocol
  import opened Invariant
  import opened Counting
  import opened Frames

  /** All that the flusher does not own. */
  ghost predicate OffFlush(c: Config, s: State) {
    && Fits(c, s)
    && SlabsOk(c, s.slabs, s.mem, s.disk) && OneOpen(s.slabs) && PutOk(c, s.slabs, s.mem, s.put) && InvGc(c, s)
  }

  /** Put and the collector stand by while the flusher works on slab `x`. */
  lemma FlushAside(c: Config, s: State, s': State, x: nat)
    requires Touches(c, s, s', x) && s'.put == s.put && s'.gc == s.gc && s'.lost == s.lost
    requires !Taking(s.slabs[x].role) && !Taking(s'.slabs[x].role)
    requires !GcOnly(s.slabs[x].role) && !s.slabs[x].role.Stored? && !GcOnly(s'.slabs[x].role)
    requires SlabOk(c, x, s'.slabs[x], ImageOf(c, s'.mem, s'.disk, x))
    requires OffFlush(c, s)
    ensures OffFlush(c, s')
  {
    hide SlabOk, SlabsOk, OneOpen, PutOk, InvGc;
    SlabsKept(c, s, s', x);
    OpenKept(s.slabs, x, s'.slabs[x]);
    PutKept(c, s, s', x);
    GcKept(c, s, s', x);
  }

  // ---------- take a full memory slab ----------

  lemma TakeSlabs(c: Config, s: State, s': State, x: nat)
    requires Fits(c, s) && FlushTake(c, s, s', x)
    requires InvSlabs(c, s)
    ensures Touches(c, s, s', x) && Readable(c, s, s', x) && x < c.Buffer()
    ensures InvSlabs(c, s') && s.slabs[x].cid != -1
  {
    hide SlabsOk, OneOpen, PutOk, InvGc;
    SlabAt(c, s.slabs, s.mem, s.disk, x);
    FlushAside(c, s, s', x);
  }

  lemma KeepsFlushTake(c: Config, s: State, s': State, x: nat)
    requires Inv(c, s) && FlushTake(c, s, s', x)
    ensures Inv(c, s')
  {
    hide SlabsOk, OneOpen, PutOk, FlushOk, GcHeld, CollectOk, WrittenOk, LostOk, IndexOk, CountsOk, SizesOk, PoolOk,
         MoveOk;
    TakeSlabs(c, s, s', x);
    assert InvIndex(c, s') by { IndexStands(c, s, s', x); }
    PoolKept(c, s, s', x);
  }

  // ---------- take a free disk slab ----------

  lemma TargetSlabs(c: Config, s: State, s': State, x: nat, ch: nat)
    requires Fits(c, s) && FlushTarget(c, s, s', x, ch)
    requires InvSlabs(c, s)
    ensures Touches(c, s, s', x) && Readable(c, s, s', x)
    ensures InvSlabs(c, s') && s.slabs[x].cid == -1 && ch < c.nrChannels
  {
    hide SlabsOk, OneOpen, PutOk, InvGc;
    ChannelBound(c, x);
    SlabAt(c, s.slabs, s.mem, s.disk, x);
    FlushAside(c, s, s', x);
  }

  lemma KeepsFlushTarget(c: Config, s: State, s': State, x: nat, ch: nat)
    requires Inv(c, s) && FlushTarget(c, s, s', x, ch)
    ensures Inv(c, s')
  {
    hide SlabsOk, OneOpen, PutOk, FlushOk, GcHeld, CollectOk, WrittenOk, LostOk, IndexOk, CountsOk, PoolOk, MoveOk;
    TargetSlabs(c, s, s', x, ch);
    assert InvIndex(c, s') by { IndexStands(c, s, s', x); }
    MemberFamily(s.slabs, x);
    PoolKept(c, s, s', x);
  }

  // ---------- write the block ----------

  lemma WriteSlabs(c: Config, s: State, s': State)
    requires Fits(c, s) && FlushWrite(c, s, s')
    requires InvSlabs(c, s)
    ensures Touches(c, s, s', s.flush.d) && Readable(c, s, s', s.flush.d)
    ensures InvSlabs(c, s') && s'.slabs[s.flush.d].link == s.slabs[s.flush.d].link
    ensures !LiveRole(s'.slabs[s.flush.d].role) && s'.slabs[s.flush.d].nrUsed >= s.slabs[s.flush.d].nrUsed
  {
    hide SlabsOk, OneOpen, PutOk, InvGc;
    var m, d := s.flush.m, s.flush.d;
    SlabAt(c, s.slabs, s.mem, s.disk, m);
    SlabAt(c, s.slabs, s.mem, s.disk, d);
    OtherImages(c, s, d, s.mem[m]);
    FlushAside(c, s, s', d);
  }

  lemma KeepsFlushWrite(c: Config, s: State, s': State)
    requires Inv(c, s) && FlushWrite(c, s, s')
    ensures Inv(c, s')
  {
    hide SlabsOk, OneOpen, PutOk, FlushOk, GcHeld, CollectOk, WrittenOk, LostOk, IndexOk, CountsOk, SizesOk, PoolOk,
         MoveOk;
    WriteSlabs(c, s, s');
    assert InvIndex(c, s') by { IndexStands(c, s, s', s.flush.d); }
    PoolKept(c, s, s', s.flush.d);
  }

  // ---------- free the memory slab ----------

  lemma FreeSlabs(c: Config, s: State, s': State)
    requires Fits(c, s) && FlushFree(c, s, s')
    requires InvSlabs(c, s)
    ensures Touches(c, s, s', s.flush.m) && Readable(c, s, s', s.flush.m) && s.flush.m < c.Buffer()
    ensures InvSlabs(c, s') && s.slabs[s.flush.m].link == NoList && s.slabs[s.flush.m].role.Flushed?
  {
    hide SlabsOk, OneOpen, PutOk, InvGc;
    SlabAt(c, s.slabs, s.mem, s.disk, s.flush.m);
    FlushAside(c, s, s', s.flush.m);
  }

  lemma KeepsFlushFree(c: Config, s: State, s': State)
    requires Inv(c, s) && FlushFree(c, s, s')
    ensures Inv(c, s')
  {
    hide SlabsOk, OneOpen, PutOk, FlushOk, GcHeld, CollectOk, WrittenOk, LostOk, IndexOk, CountsOk, SizesOk, PoolOk,
         MoveOk;
    FreeSlabs(c, s, s');
    NoneLive(c, s, s.flush.m);
    assert InvIndex(c, s') by { IndexStands(c, s, s', s.flush.m); }
    PoolKept(c, s, s', s.flush.m);
  }

  // ---------- publish the disk slab ----------

  lemma StoreSlabs(c: Config, s: State, s': State)
    requires Fits(c, s) && FlushStore(c, s, s')
    requires InvSlabs(c, s)
    ensures Touches(c, s, s', s.flush.d) && Readable(c, s, s', s.flush.d)
    ensures InvSlabs(c, s') && s.slabs[s.flush.d].link == NoList
  {
    hide SlabsOk, OneOpen, PutOk, InvGc;
    SlabAt(c, s.slabs, s.mem, s.disk, s.flush.d);
    FlushAside(c, s, s', s.flush.d);
  }

  lemma KeepsFlushStore(c: Config, s: State, s': State)
    requires Inv(c, s) && FlushStore(c, s, s')
    ensures Inv(c, s')
  {
    hide SlabsOk, OneOpen, PutOk, FlushOk, GcHeld, CollectOk, WrittenOk, LostOk, IndexOk, CountsOk, SizesOk, PoolOk,
         MoveOk;
    StoreSlabs(c, s, s');
    assert InvIndex(c, s') by { IndexStands(c, s, s', s.flush.d); }
    PoolKept(c, s, s', s.flush.d);
  }

  // ---------- redirect ----------

  /** Every live entry of the memory slab moves: the flush loses no update of the index. */
  lemma RedirectFacts(c: Config, s: State, s': State)
    requires Fits(c, s) && FlushRedirect(c, s, s')
    requires InvSlabs(c, s) && IndexOk(c, s.slabs, s.mem, s.disk, s.index, s.latest, s.put)
    ensures Redirects(c, s, s', s.flush.m, s.flush.d) && s'.fault == s.fault
    ensures s'.slabs == s.slabs[s.flush.m := s'.slabs[s.flush.m]][s.flush.d := s'.slabs[s.flush.d]]
    ensures s'.slabs[s.flush.m] == s.slabs[s.flush.m].(nrUsed := 0, role := Flushed)
    ensures s'.slabs[s.flush.d] == s.slabs[s.flush.d].(nrUsed := |Live(s.index, s.flush.m)|, role := TargetLive)
    ensures s.slabs[s.flush.m].role == Flushing && s.slabs[s.flush.d].role == TargetWritten
  {
    hide SlabsOk, OneOpen, InvGc, IndexOk;
    var m, d := s.flush.m, s.flush.d;
    SlabAt(c, s.slabs, s.mem, s.disk, m);
    SlabAt(c, s.slabs, s.mem, s.disk, d);
    RedirectFindsAll(c, s, m);
    NoneLive(c, s, d);
  }

  lemma RedirectSlabs(c: Config, s: State, s': State)
    requires Fits(c, s) && FlushRedirect(c, s, s')
    requires InvSlabs(c, s) && InvIndex(c, s)
    ensures InvSlabs(c, s')
  {
    hide SlabsOk, OneOpen, PutOk, InvGc, IndexOk, MoveOk;
    var m, d := s.flush.m, s.flush.d;
    RedirectFacts(c, s, s');
    SlabAt(c, s.slabs, s.mem, s.disk, m);
    SlabAt(c, s.slabs, s.mem, s.disk, d);
    var mid := s.(slabs := s.slabs[m := s'.slabs[m]]);
    FlushAside(c, s, mid, m);
    FlushAside(c, mid, s', d);
  }

  lemma KeepsFlushRedirect(c: Config, s: State, s': State)
    requires Inv(c, s) && FlushRedirect(c, s, s')
    ensures Inv(c, s')
  {
    hide SlabsOk, OneOpen, PutOk, FlushOk, GcHeld, WrittenOk, LostOk, CollectOk, IndexOk, CountsOk, SizesOk, PoolOk,
         MoveOk;
    var m, d := s.flush.m, s.flush.d;
    RedirectFacts(c, s, s');
    RedirectSlabs(c, s, s');
    MoveKept(c, s, s');
    assert InvIndex(c, s') by { RedirectIndexOk(c, s, s', m, d); }
    var mid := s.(slabs := s.slabs[m := s'.slabs[m]]);
    PoolKept(c, s, mid, m);
    PoolKept(c, mid, s', d);
  }
}
