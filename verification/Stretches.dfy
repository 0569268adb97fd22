/**
 Stretches of runs, for classes of one slot: a Put that fills a slab, a flush, a quick pass, the start of a normal pass.
 */
module Stretches {
  import opened Types
  import opened Protocol
  import opened Runs

  /** A slab of class `cid` whose only slot is allocated and in use. */
  function OneSlot(c: Config, cid: nat, used: int, l: ListId, r: Role): Slab
    requires cid < |c.classes|
  {
    Slab(cid, c.classes[cid], 1, 1, used, l, r)
  }

  function BlankSlab(l: ListId, r: Role): Slab { Slab(-1, 0, 0, 0, 0, l, r) }

  ghost predicate OneSlotClass(c: Config, cid: nat) {
    c.Valid() && cid < |c.classes| && c.SlotsOf(cid) == 1
  }

  /** Put takes memory slab `x`, fills its slot and writes the pair. */
  lemma Fill(c: Config, s: State, k: Key, v: Value, x: nat) returns (s': State)
    requires Fits(c, s) && OneSlotClass(c, ClassFor(c, k, v)) && s.put.PIdle? && x < c.nrMslab
    requires s.slabs[x] == BlankSlab(MslabFree, MFree) && Members(s.slabs, Partial(ClassFor(c, k, v))) == {}
    requires Reachable(c, s)
    ensures var cid := ClassFor(c, k, v);
            s' == s.(slabs := s.slabs[x := OneSlot(c, cid, 1, NoList, Filled)],
                     mem := s.mem[x := Image(c.classes[cid], [Rec(k, v)])],
                     size := s'.size, put := PWritten(k, v, x, 0))
    ensures Reachable(c, s')
  {
    hide Reachable, Members, ClassFor, PutHit, PutMiss, PutWake, PutDone, Delete, FlushNext, QuickNext, NormalNext;
    var cid := ClassFor(c, k, v);
    var sz, r := c.classes[cid], Rec(k, v);
    var s1 := s.(put := PAlloc(k, v, cid));
    assert PutBegin(c, s, s1, k, v);
    Extend(c, s, PutBeginS(k, v), s1);
    var s2 := s1.(slabs := s.slabs[x := Slab(cid, sz, 0, 1, 0, Partial(cid), Open)],
                  size := Bump(s.size, MslabFree, -1), mem := s.mem[x := Image(sz, [])]);
    assert PutOpen(c, s1, s2, x);
    Extend(c, s1, PutOpenS(x), s2);
    var s3 := s2.(slabs := s.slabs[x := OneSlot(c, cid, 1, NoList, Filled)], mem := s.mem[x := Image(sz, [r])],
                  put := PSlot(k, v, x, 0));
    assert AppendRec(s2.mem[x], r) == Image(sz, [r]);
    assert PutAlloc(c, s2, s3, x, r);
    Extend(c, s2, PutAllocS(x, r), s3);
    s' := s3.(put := PWritten(k, v, x, 0));
    assert WriteRec(s3.mem[x], 0, r) == s3.mem[x];
    assert PutWrite(c, s3, s');
    Extend(c, s3, PutWriteS, s');
  }

  /** The slabs after one entry of slab `from` was overwritten. */
  function LessUsed(slabs: seq<Slab>, from: nat): seq<Slab>
    requires from < |slabs|
  {
    slabs[from := slabs[from].(nrUsed := slabs[from].nrUsed - 1)]
  }

  /** Put points the key's entry at the slot: a fresh one, or the one that names slab `from`. */
  lemma PutEntry(c: Config, s: State, k: Key, v: Value, x: nat, from: nat) returns (s': State)
    requires Fits(c, s) && s.put == PWritten(k, v, x, 0) && x < c.nrMslab
    requires var t := c.TagOf(k);
             if t in s.index then s.index[t].sid == from < c.Slabs() && s.slabs[from].nrUsed > 0 else s.nrFreeEntry > 0
    requires Reachable(c, s)
    ensures var t := c.TagOf(k);
            s' == s.(slabs := if t in s.index then LessUsed(s.slabs, from) else s.slabs,
                     index := s.index[t := Loc(x, 0)],
                     nrFreeEntry := if t in s.index then s.nrFreeEntry else s.nrFreeEntry - 1,
                     latest := s'.latest, put := PIndexed(x))
    ensures Reachable(c, s')
  {
    hide Reachable, PutBegin, PutOpen, PutAlloc, PutDone, Delete, FlushNext, QuickNext, NormalNext;
    var t := c.TagOf(k);
    if t in s.index {
      s' := s.(slabs := LessUsed(s.slabs, from), index := s.index[t := Loc(x, 0)], latest := s.latest[k := v],
               put := PIndexed(x));
      assert PutHit(c, s, s');
      Extend(c, s, PutHitS, s');
    } else {
      s' := Insert(c, s);
      assert PutMiss(c, s, s');
      Extend(c, s, PutMissS, s');
    }
  }

  /** Put publishes its full slab. */
  lemma PutEnd(c: Config, s: State, x: nat) returns (s': State)
    requires Fits(c, s) && s.put == PIndexed(x) && x < c.nrMslab && s.slabs[x].IsFull() && s.slabs[x].link == NoList
    requires Reachable(c, s)
    ensures s' == s.(slabs := s.slabs[x := s.slabs[x].(link := MslabFull, role := MFull)], size := s'.size,
                     put := PIdle)
    ensures Reachable(c, s')
  {
    hide Reachable, PutBegin, PutOpen, PutAlloc, PutHit, PutMiss, PutWake, Delete, FlushNext, QuickNext, NormalNext;
    s' := s.(slabs := s.slabs[x := s.slabs[x].(link := MslabFull, role := MFull)], size := Bump(s.size, MslabFull, 1),
             put := PIdle);
    assert PutDone(c, s, s');
    Extend(c, s, PutDoneS, s');
  }

  /** A whole Put into memory slab `x`. */
  lemma PutOne(c: Config, s: State, k: Key, v: Value, x: nat, from: nat) returns (s': State)
    requires Fits(c, s) && OneSlotClass(c, ClassFor(c, k, v)) && s.put.PIdle? && x < c.nrMslab && x != from
    requires s.slabs[x] == BlankSlab(MslabFree, MFree) && Members(s.slabs, Partial(ClassFor(c, k, v))) == {}
    requires var t := c.TagOf(k);
             if t in s.index then s.index[t].sid == from < c.Slabs() && s.slabs[from].nrUsed > 0 else s.nrFreeEntry > 0
    requires Reachable(c, s)
    ensures var t, cid := c.TagOf(k), ClassFor(c, k, v);
            s' == s.(slabs := (if t in s.index then LessUsed(s.slabs, from) else s.slabs)
                              [x := OneSlot(c, cid, 1, MslabFull, MFull)],
                     mem := s.mem[x := Image(c.classes[cid], [Rec(k, v)])],
                     index := s.index[t := Loc(x, 0)],
                     nrFreeEntry := if t in s.index then s.nrFreeEntry else s.nrFreeEntry - 1,
                     size := s'.size, latest := s'.latest)
    ensures Reachable(c, s')
  {
    hide Reachable, Members, ClassFor;
    var s1 := Fill(c, s, k, v, x);
    var s2 := PutEntry(c, s1, k, v, x, from);
    s' := PutEnd(c, s2, x);
    assert s'.slabs == (if c.TagOf(k) in s.index then LessUsed(s.slabs, from) else s.slabs)[x := s'.slabs[x]];
  }

  /** A Put whose key has no entry finds none free, and waits. */
  lemma PutWaits(c: Config, s: State, k: Key, v: Value, x: nat) returns (s': State)
    requires Fits(c, s) && s.put == PWritten(k, v, x, 0) && c.TagOf(k) !in s.index && s.nrFreeEntry <= 0
    requires Reachable(c, s)
    ensures s' == s.(put := PWaiting(k, v, x, 0)) && Reachable(c, s')
  {
    hide Reachable, FlushNext, QuickNext, NormalNext, PutBegin, PutOpen, PutAlloc, PutHit, PutMiss, PutWake, PutDone,
         Delete;
    s' := s.(put := PWaiting(k, v, x, 0));
    assert PutBlock(c, s, s');
    Extend(c, s, PutBlockS, s');
  }

  /** A Delete whose entry names slab `x`. */
  lemma DeleteOne(c: Config, s: State, k: Key, x: nat) returns (s': State)
    requires Fits(c, s) && c.TagOf(k) in s.index && s.index[c.TagOf(k)].sid == x < c.Slabs() && s.slabs[x].nrUsed > 0
    requires Reachable(c, s)
    ensures s' == s.(slabs := LessUsed(s.slabs, x), index := s.index - {c.TagOf(k)}, nrFreeEntry := s.nrFreeEntry + 1,
                     latest := s'.latest)
    ensures Reachable(c, s')
  {
    hide Reachable, FlushNext, QuickNext, NormalNext, PutBegin, PutOpen, PutAlloc, PutHit, PutMiss, PutWake, PutDone;
    s' := s.(slabs := LessUsed(s.slabs, x), index := s.index - {c.TagOf(k)}, nrFreeEntry := s.nrFreeEntry + 1,
             latest := s.latest - {k});
    assert Delete(c, s, s', k, true);
    Extend(c, s, DeleteS(k, true), s');
  }

  // ---------- the flusher ----------

  /** The flusher takes memory slab `m`. */
  lemma FlushTakes(c: Config, s: State, m: nat) returns (s': State)
    requires Fits(c, s) && s.flush.FIdle? && m < c.nrMslab && s.slabs[m].link == MslabFull && s.slabs[m].cid != -1
    requires Reachable(c, s)
    ensures s' == s.(slabs := s.slabs[m := s.slabs[m].(link := NoList, role := Flushing)], size := s'.size,
                     flush := FGotM(m))
    ensures Reachable(c, s')
  {
    hide Reachable, PutNext, FlushTarget, FlushWrite, FlushRedirect, FlushFree, FlushStore, QuickNext, NormalNext;
    s' := AfterFlushTake(c, s, m);
    Extend(c, s, FlushTakeS(m), s');
  }

  /** The flusher takes memory slab `m` and disk slab `d`. */
  lemma FlushBegin(c: Config, s: State, m: nat, d: nat) returns (s': State)
    requires Fits(c, s) && s.flush.FIdle? && m < c.nrMslab && s.slabs[m].link == MslabFull && s.slabs[m].cid != -1
    requires c.IsDisk(d) && s.slabs[d] == BlankSlab(DslabFree(c.Channel(d)), DFree) && s.nrFreeDslab > 0
    requires c.Channel(d) < c.nrChannels && Reachable(c, s)
    ensures s' == s.(slabs := s.slabs[m := s.slabs[m].(link := NoList, role := Flushing)]
                                     [d := BlankSlab(NoList, Target)],
                     size := s'.size, nrFreeDslab := s.nrFreeDslab - 1, flush := FGotD(m, d, c.Channel(d)))
    ensures Reachable(c, s')
  {
    hide Reachable, PutNext, FlushWrite, FlushRedirect, FlushFree, FlushStore, QuickNext, NormalNext;
    var s1 := FlushTakes(c, s, m);
    s' := s1.(slabs := s1.slabs[d := BlankSlab(NoList, Target)], size := Bump(s1.size, DslabFree(c.Channel(d)), -1),
              nrFreeDslab := s.nrFreeDslab - 1, flush := FGotD(m, d, c.Channel(d)));
    assert FlushTarget(c, s1, s', d, c.Channel(d));
    Extend(c, s1, FlushTargetS(d, c.Channel(d)), s');
  }

  ghost function MovedBy(c: Config, s: State, m: nat): set<Tag>
    requires Fits(c, s) && m < c.nrMslab
  {
    Redirected(c, s.index, m, s.slabs[m].nrAlloc, s.mem[m].recs)
  }

  /** The flusher writes the block and redirects the index. */
  lemma FlushMove(c: Config, s: State, m: nat, d: nat) returns (s': State)
    requires Fits(c, s) && m < c.nrMslab && c.IsDisk(d) && s.flush == FGotD(m, d, c.Channel(d)) && s.slabs[m].cid != -1
    requires Reachable(c, s)
    ensures s' == s.(slabs := s.slabs[m := s.slabs[m].(nrUsed := 0, role := Flushed)]
                                     [d := CopyHeader(s.slabs[m], s.slabs[d]).(nrUsed := |MovedBy(c, s, m)|,
                                                                              role := TargetLive)],
                     disk := s.disk[c.BlockOf(d) := s.mem[m]],
                     index := RedirectIndex(s.index, MovedBy(c, s, m), d), flush := FMoved(m, d, c.Channel(d)))
    ensures Reachable(c, s')
  {
    hide Reachable, PutNext, FlushTake, FlushTarget, FlushFree, FlushStore, QuickNext, NormalNext, Redirected,
         RedirectIndex;
    var s1 := s.(slabs := s.slabs[d := CopyHeader(s.slabs[m], s.slabs[d]).(role := TargetWritten)],
                 disk := s.disk[c.BlockOf(d) := s.mem[m]], flush := FWritten(m, d, c.Channel(d)));
    assert FlushWrite(c, s, s1);
    Extend(c, s, FlushWriteS, s1);
    s' := ModifyIndexTo(c, s1, m, d, Flushed, TargetLive).(flush := FMoved(m, d, c.Channel(d)));
    assert FlushRedirect(c, s1, s');
    Extend(c, s1, FlushRedirectS, s');
    assert s'.slabs == s.slabs[m := s'.slabs[m]][d := s'.slabs[d]];
  }

  /** The flusher frees the memory slab and links the disk slab as full. */
  lemma FlushEnd(c: Config, s: State, m: nat, d: nat) returns (s': State)
    requires Fits(c, s) && m < c.nrMslab && c.IsDisk(d) && s.flush == FMoved(m, d, c.Channel(d))
    requires s.slabs[m].link == NoList && s.slabs[d].link == NoList && Reachable(c, s)
    ensures s' == s.(slabs := s.slabs[m := BlankSlab(MslabFree, MFree)]
                                     [d := s.slabs[d].(link := DslabFull(c.Channel(d)), role := Stored)],
                     size := s'.size, nrFullDslab := s.nrFullDslab + 1, flush := FIdle)
    ensures Reachable(c, s')
  {
    hide Reachable, PutNext, FlushTake, FlushTarget, FlushWrite, FlushRedirect, QuickNext, NormalNext;
    var ch := c.Channel(d);
    var s1 := s.(slabs := s.slabs[m := BlankSlab(MslabFree, MFree)], size := Bump(s.size, MslabFree, 1),
                 flush := FFreed(d, ch));
    assert FlushFree(c, s, s1);
    Extend(c, s, FlushFreeS, s1);
    s' := s1.(slabs := s1.slabs[d := s.slabs[d].(link := DslabFull(ch), role := Stored)],
              size := Bump(s1.size, DslabFull(ch), 1), nrFullDslab := s.nrFullDslab + 1, flush := FIdle);
    assert FlushStore(c, s1, s');
    Extend(c, s1, FlushStoreS, s');
  }

  /** A whole flush of memory slab `m` to disk slab `d`. */
  lemma FlushOne(c: Config, s: State, m: nat, d: nat, cid: nat) returns (s': State)
    requires Fits(c, s) && s.flush.FIdle? && m < c.nrMslab && cid < |c.classes|
    requires s.slabs[m] == OneSlot(c, cid, s.slabs[m].nrUsed, MslabFull, MFull)
    requires c.IsDisk(d) && s.slabs[d] == BlankSlab(DslabFree(c.Channel(d)), DFree) && s.nrFreeDslab > 0
    requires c.Channel(d) < c.nrChannels && Reachable(c, s)
    ensures s' == s.(slabs := s.slabs[m := BlankSlab(MslabFree, MFree)]
                                     [d := OneSlot(c, cid, |MovedBy(c, s, m)|, DslabFull(c.Channel(d)), Stored)],
                     disk := s.disk[c.BlockOf(d) := s.mem[m]],
                     index := RedirectIndex(s.index, MovedBy(c, s, m), d), size := s'.size,
                     nrFreeDslab := s.nrFreeDslab - 1, nrFullDslab := s.nrFullDslab + 1)
    ensures Reachable(c, s')
  {
    hide Reachable, Redirected, RedirectIndex;
    var s1 := FlushBegin(c, s, m, d);
    var s2 := FlushMove(c, s1, m, d);
    s' := FlushEnd(c, s2, m, d);
    assert s'.slabs == s.slabs[m := s'.slabs[m]][d := s'.slabs[d]];
  }

  // ---------- the collector ----------

  /** The collector wakes and reads the number of free disk slabs. */
  lemma Waken(c: Config, t: Trail, s: State) returns (s': State)
    requires Fits(c, s) && s.gc.GIdle? && s.nrFullDslab > 0 && s.nrFreeDslab >= 0 && (t.From? ==> s.nrFreeEntry == 0)
    requires Leads(c, t, s)
    ensures s' == s.(gc := GSeen(s.nrFreeDslab)) && Leads(c, t, s')
  {
    hide Leads, PutNext, FlushNext, NormalNext, GcDropOne, GcPlan, GcSelect, GcEvict, GcReturnOps, GcLose, GcReturnFree,
         GcQuickDone;
    var s1 := s.(gc := GAwake);
    assert GcWake(c, s, s1);
    ExtendBy(c, t, s, GcWakeS, s1);
    s' := s.(gc := GSeen(s.nrFreeDslab));
    assert GcRead(c, s1, s');
    ExtendBy(c, t, s1, GcReadS, s');
  }

  /** For lack of index entries the collector selects slab `x` to drop. */
  lemma DropSelect(c: Config, t: Trail, s: State, x: nat) returns (s': State)
    requires Fits(c, s) && s.gc.GSeen? && s.nrFreeEntry == 0 && c.IsDisk(x) && s.slabs[x].link.DslabFull?
    requires t.From? && t.order != [] ==> InOrder(t.order, s.slabs, x)
    requires Leads(c, t, s)
    ensures s' == s.(slabs := s.slabs[x := s.slabs[x].(link := ToDrop, role := Victim)], size := s'.size,
                     nrFullDslab := s.nrFullDslab - 1, quickPasses := s.quickPasses + 1, fault := s'.fault,
                     gc := GEvict(Drop(1, 0, false), {}))
    ensures Leads(c, t, s')
  {
    hide Leads, InOrder, PutNext, FlushNext, NormalNext, CheckOpsPool, GcPlan, GcEvict, GcReturnOps, GcLose,
         GcReturnFree, GcQuickDone;
    var s1 := AfterDropOne(c, s);
    ExtendBy(c, t, s, GcDropOneS, s1);
    var ch := s.slabs[x].link.channel;
    var s2 := AfterSelect(c, s1, x, ch);
    ExtendBy(c, t, s1, GcSelectS(x, ch), s2);
    s' := s2.(gc := GEvict(Drop(1, 0, false), {}));
    assert GcSelected(c, s2, s');
    ExtendBy(c, t, s2, GcSelectedS, s');
  }

  lemma MembersKept(slabs: seq<Slab>, x: nat, sl: Slab, l: ListId)
    requires x < |slabs|
    ensures sl.link == slabs[x].link ==> Members(slabs[x := sl], l) == Members(slabs, l)
    ensures sl.link != l && Members(slabs, l) == {x} ==> Members(slabs[x := sl], l) == {}
    ensures Members(slabs, l) == {x} ==> slabs[x].link == l
    ensures sl.link == l && Members(slabs, l) == {} ==> Members(slabs[x := sl], l) == {x}
  {
    assert x in Members(slabs, l) <==> slabs[x].link == l;
    assert forall y :: 0 <= y < |slabs| && y != x && slabs[y].link == l ==> y in Members(slabs, l);
  }

  /** Slab `x` is evicted. */
  lemma DropEvict(c: Config, t: Trail, s: State, x: nat, drop: Drop) returns (s': State)
    requires Fits(c, s) && s.gc == GEvict(drop, {}) && c.IsDisk(x) && s.slabs[x].link == ToDrop
    requires (t.From? ==> s.nrFreeEntry == 0) && Leads(c, t, s)
    ensures var doomed := StoredTags(c, s.slabs[x].nrAlloc, s.disk[c.BlockOf(x)].recs);
            s' == s.(slabs := s.slabs[x := s.slabs[x].(nrUsed := 0, role := Evicted)],
                     index := s.index - doomed, nrFreeEntry := s.nrFreeEntry + |s.index.Keys * doomed|,
                     gc := GEvict(drop, {x}))
    ensures Leads(c, t, s')
  {
    hide Leads, PutNext, FlushNext, NormalNext, StoredTags, GcDropOne, GcPlan, GcSelect, GcReturnOps, GcLose,
         GcReturnFree, GcQuickDone, Members, Shaped;
    s' := AfterEvict(c, s, x);
    ExtendBy(c, t, s, GcEvictS(x), s');
    assert {} + {x} == {x};
  }

  /** With nothing meant for the pool, the only dropped slab is lost. */
  lemma DropLose(c: Config, t: Trail, s: State, x: nat, drop: Drop) returns (s': State)
    requires Fits(c, s) && s.gc == GEvict(drop, {x}) && drop.toOps == 0
    requires c.IsDisk(x) && Members(s.slabs, ToDrop) == {x} && (t.From? ==> s.nrFreeEntry == 0) && Leads(c, t, s)
    ensures s' == s.(slabs := s.slabs[x := BlankSlab(NoList, Lost)], lost := s.lost + {x}, gc := GReturnFree(drop))
    ensures Leads(c, t, s')
  {
    hide Leads, PutNext, FlushNext, NormalNext, GcDropOne, GcPlan, GcSelect, GcEvict, GcReturnOps, GcReturnFree,
         GcQuickDone, Members;
    var s1 := s.(gc := GReturnOps(0, drop));
    assert GcEvicted(c, s, s1);
    ExtendBy(c, t, s, GcEvictedS, s1);
    MembersKept(s.slabs, x, s.slabs[x], ToDrop);
    s' := AfterLose(c, s1, x);
    ExtendBy(c, t, s1, GcLoseS(x), s');
  }

  lemma DropDone(c: Config, t: Trail, s: State) returns (s': State)
    requires Fits(c, s) && s.gc.GReturnFree? && Members(s.slabs, ToDrop) == {} && (t.From? ==> s.nrFreeEntry == 0)
    requires Leads(c, t, s)
    ensures s' == s.(fault := s'.fault, gc := GIdle) && Leads(c, t, s')
  {
    hide Leads, PutNext, FlushNext, NormalNext, CheckOpsPool, GcDropOne, GcPlan, GcSelect, GcEvict, GcReturnOps, GcLose,
         GcReturnFree, Members;
    s' := Check(s.(gc := GIdle), !CheckOpsPool(c, s));
    assert GcQuickDone(c, s, s');
    ExtendBy(c, t, s, GcQuickDoneS, s');
  }

  /** A whole quick pass for lack of index entries, which drops slab `x`: the slab is lost. */
  lemma DropPass(c: Config, t: Trail, s: State, x: nat) returns (s': State)
    requires Fits(c, s) && s.gc.GIdle? && s.nrFullDslab > 0 && s.nrFreeDslab >= 0 && s.nrFreeEntry == 0
    requires c.IsDisk(x) && s.slabs[x].link.DslabFull? && Members(s.slabs, ToDrop) == {}
    requires t.From? ==>
               && (t.order != [] ==> InOrder(t.order, s.slabs, x))
               && s.index.Keys * StoredTags(c, s.slabs[x].nrAlloc, s.disk[c.BlockOf(x)].recs) == {}
    requires Leads(c, t, s)
    ensures var doomed := StoredTags(c, s.slabs[x].nrAlloc, s.disk[c.BlockOf(x)].recs);
            s' == s.(slabs := s.slabs[x := BlankSlab(NoList, Lost)], size := s'.size, nrFullDslab := s.nrFullDslab - 1,
                     quickPasses := s.quickPasses + 1, lost := s.lost + {x}, fault := s'.fault,
                     index := s.index - doomed, nrFreeEntry := |s.index.Keys * doomed|)
    ensures Leads(c, t, s')
  {
    hide Leads, InOrder, StoredTags, Members;
    var s1 := Waken(c, t, s);
    var s2 := DropSelect(c, t, s1, x);
    MembersKept(s.slabs, x, s2.slabs[x], ToDrop);
    var s3 := DropEvict(c, t, s2, x, Drop(1, 0, false));
    MembersKept(s2.slabs, x, s3.slabs[x], ToDrop);
    var s4 := DropLose(c, t, s3, x, Drop(1, 0, false));
    MembersKept(s3.slabs, x, s4.slabs[x], ToDrop);
    s' := DropDone(c, t, s4);
    assert s'.slabs == s.slabs[x := BlankSlab(NoList, Lost)];
  }

  /** The two slabs that a normal pass collects. */
  ghost predicate Pair(c: Config, s: State, x: nat, y: nat) {
    && Fits(c, s)
    && c.IsDisk(x) && c.IsDisk(y) && x != y && 0 < |c.classes|
    && s.slabs[x] == OneSlot(c, 0, s.slabs[x].nrUsed, DslabFull(c.Channel(x)), Stored)
    && s.slabs[y] == OneSlot(c, 0, s.slabs[y].nrUsed, DslabFull(c.Channel(y)), Stored)
    && s.slabs[x].nrUsed >= 0 && s.slabs[y].nrUsed >= 0 && s.slabs[x].nrUsed + s.slabs[y].nrUsed <= 1
  }

  function PairPicks(s: State, x: nat, y: nat): seq<Pick>
    requires x < |s.slabs| && y < |s.slabs|
  {
    [Pick(x, s.slabs[x].nrUsed), Pick(y, s.slabs[y].nrUsed)]
  }

  /** The collector reads a free entry and enough free disk slabs, and chooses a normal pass. */
  lemma NormalChoose(c: Config, s: State) returns (s': State)
    requires Fits(c, s) && s.gc.GSeen? && s.nrFreeEntry != 0 && s.gc.free >= s.low && Reachable(c, s)
    ensures s' == s.(gc := GNormal) && Reachable(c, s')
  {
    hide Reachable, PutNext, FlushNext, QuickNext, GcScan, GcPick, GcTake, GcLinkOps, GcUnlink, GcInit, GcLoad,
         GcMoveSlot, GcMoveDone, GcWrite, GcRedirect, GcTune, GcRefill, GcTrim, GcReturnAll, GcNormalDone;
    s' := s.(gc := GNormal);
    assert GcChooseNormal(c, s, s');
    Extend(c, s, GcChooseNormalS, s');
  }

  lemma NormalScan(c: Config, s: State, x: nat, y: nat) returns (s': State)
    requires Fits(c, s) && s.gc.GNormal? && s.opsSize > 0 && Pair(c, s, x, y) && Reachable(c, s)
    ensures s' == s.(gc := GPack(Pass(s.opsSize, 0, {x, y}), [])) && Reachable(c, s')
  {
    hide Reachable, PutNext, FlushNext, QuickNext, GcPick, GcTake, GcLinkOps, GcUnlink, GcInit, GcLoad, GcMoveSlot,
         GcMoveDone, GcWrite, GcRedirect, GcTune, GcRefill, GcTrim, GcReturnAll, GcNormalDone;
    s' := AfterScan(c, s, {x, y});
    Extend(c, s, GcScanS({x, y}), s');
  }

  lemma PickOne(c: Config, s: State, x: nat) returns (s': State)
    requires Fits(c, s) && s.gc.GPack? && s.gc.pass.cid < |c.classes| && x in s.gc.pass.cands && x < |s.slabs|
    requires s.slabs[x].cid == s.gc.pass.cid && 0 <= s.slabs[x].nrUsed <= s.slabs[x].nrSlots - SeenSum(s.gc.picks)
    requires Reachable(c, s)
    ensures s' == s.(gc := GPack(s.gc.pass.(cands := s.gc.pass.cands - {x}), s.gc.picks + [Pick(x, s.slabs[x].nrUsed)]))
    ensures Reachable(c, s')
  {
    hide Reachable, PutNext, FlushNext, QuickNext, GcScan, GcTake, GcLinkOps, GcUnlink, GcInit, GcLoad, GcMoveSlot,
         GcMoveDone, GcWrite, GcRedirect, GcTune, GcRefill, GcTrim, GcReturnAll, GcNormalDone, SeenSum;
    s' := s.(gc := GPack(s.gc.pass.(cands := s.gc.pass.cands - {x}), s.gc.picks + [Pick(x, s.slabs[x].nrUsed)]));
    assert GcPick(c, s, s', x);
    Extend(c, s, GcPickS(x), s');
  }

  lemma SeenSumOne(p: Pick)
    ensures SeenSum([]) == 0 && SeenSum([p]) == p.seen
  {
    assert [p][..0] == [];
  }

  lemma NormalPick(c: Config, s: State, x: nat, y: nat) returns (s': State)
    requires Fits(c, s) && Pair(c, s, x, y) && s.gc == GPack(Pass(s.opsSize, 0, {x, y}), [])
    requires Reachable(c, s)
    ensures s' == s.(gc := GPack(Pass(s.opsSize, 0, {}), PairPicks(s, x, y))) && Reachable(c, s')
  {
    hide Reachable, SeenSum;
    SeenSumOne(Pick(x, s.slabs[x].nrUsed));
    var s1 := PickOne(c, s, x);
    assert s1.gc.picks == [Pick(x, s.slabs[x].nrUsed)];
    s' := PickOne(c, s1, y);
    assert {x, y} - {x} - {y} == {};
    assert s'.gc.picks == PairPicks(s, x, y);
  }

  /** The spare slab `o` is linked as full, without counting it. */
  lemma NormalTake(c: Config, s: State, o: nat) returns (s': State)
    requires Fits(c, s) && s.gc.GPack? && |s.gc.picks| > 1 && s.opsSize > 0
    requires c.IsDisk(o) && s.slabs[o] == BlankSlab(OpsPool(c.Channel(o)), Spare)
    requires Reachable(c, s)
    ensures s' == s.(slabs := s.slabs[o := BlankSlab(DslabFull(c.Channel(o)), OpsLinked)], size := s'.size,
                     opsSize := s.opsSize - 1, collections := s.collections + 1,
                     gc := GLink(s.gc.pass, s.gc.picks, o, 0))
    ensures Reachable(c, s')
  {
    hide Reachable, PutNext, FlushNext, QuickNext, GcScan, GcPick, GcUnlink, GcInit, GcLoad, GcMoveSlot, GcMoveDone,
         GcWrite, GcRedirect, GcTune, GcRefill, GcTrim, GcReturnAll, GcNormalDone;
    var s1 := AfterTake(c, s, o, c.Channel(o));
    Extend(c, s, GcTakeS(o, c.Channel(o)), s1);
    s' := AfterLinkOps(c, s1);
    Extend(c, s1, GcLinkOpsS, s');
    assert s'.slabs == s.slabs[o := s'.slabs[o]];
  }

  lemma NormalUnlink(c: Config, s: State) returns (s': State)
    requires Fits(c, s) && s.gc.GLink? && s.gc.j < |s.gc.picks| && c.IsDisk(s.gc.picks[s.gc.j].sid) && Reachable(c, s)
    ensures var x := s.gc.picks[s.gc.j].sid;
            s' == s.(slabs := s.slabs[x := s.slabs[x].(link := FreeList(c.Channel(x)), role := Source)],
                     size := s'.size, nrFullDslab := s.nrFullDslab - 1,
                     gc := GLink(s.gc.pass, s.gc.picks, s.gc.ops, s.gc.j + 1))
    ensures Reachable(c, s')
  {
    hide Reachable, PutNext, FlushNext, QuickNext, GcScan, GcPick, GcTake, GcLinkOps, GcInit, GcLoad, GcMoveSlot,
         GcMoveDone, GcWrite, GcRedirect, GcTune, GcRefill, GcTrim, GcReturnAll, GcNormalDone;
    s' := AfterUnlink(c, s);
    Extend(c, s, GcUnlinkS, s');
  }
}
