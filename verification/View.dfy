/**
 The cache as its clients see it: a map from tag to record. Publishing a Put sets one tag, Delete clears one tag,
 evicting a disk slab clears the tags of the keys stored in it, and every other step of every thread changes nothing.
 */
module View {
  import opened Types
  import opened Protocol
  import opened Invariant
  import opened Frames
  import opened Runs
  import FlushSteps
  import NormalGcSteps

  /** The record behind each index entry. */
  ghost function Shown(c: Config, s: State): map<Tag, Rec> {
    map t | t in s.index && Decodes(c, s.slabs, s.mem, s.disk, s.index[t])
          :: RecAt(c, s.slabs, s.mem, s.disk, s.index[t])
  }

  /** What a lookup answers, given only the view. */
  ghost function Answer(c: Config, shown: map<Tag, Rec>, k: Key): Reply {
    if c.buckets == 0 then NotFound
    else
      var t := c.TagOf(k);
      if t in shown && shown[t].key == k then Found(shown[t].value) else NotFound
  }

  /** The effect of a step on the view. */
  ghost function Effect(c: Config, s: State, l: Step, shown: map<Tag, Rec>): map<Tag, Rec> {
    if !Fits(c, s) then shown
    else if IsPublish(l) && (s.put.PWritten? || s.put.PWaiting?) then
      shown[c.TagOf(s.put.k) := Rec(s.put.k, s.put.v)]
    else if l.DeleteS? then shown - {c.TagOf(l.k)}
    else if l.GcEvictS? && c.IsDisk(l.x) then
      shown - StoredTags(c, s.slabs[l.x].nrAlloc, s.disk[c.BlockOf(l.x)].recs)
    else shown
  }

  /** In a reachable state every entry decodes, so lookups are answered from the view and never read garbage. */
  lemma LookupIsAnswer(c: Config, s: State, k: Key)
    requires Inv(c, s)
    ensures Fits(c, s) && Lookup(c, s, k) == Answer(c, Shown(c, s), k) != Garbage
    ensures Shown(c, s).Keys == s.index.Keys
  {
    hide SlabsOk, OneOpen, PutOk, FlushOk, InvGc, CountsOk, MoveOk, InvPool;
    forall t | t in s.index ensures Decodes(c, s.slabs, s.mem, s.disk, s.index[t]) {
      EntryAt(c, s, t);
    }
  }

  // ---------- steps that leave the view alone ----------

  /** Record `i` of slab `y`, if an entry can denote it, is still there. */
  ghost predicate RecordStays(c: Config, s: State, s': State, y: nat, i: nat) {
    && Fits(c, s) && Fits(c, s') && y < c.Slabs()
    && var a, b := ImageOf(c, s.mem, s.disk, y), ImageOf(c, s'.mem, s'.disk, y);
       LiveRole(s.slabs[y].role) && i < |a.recs| && !(PutPending(s.put) && s.put.sid == y && s.put.slot == i) ==>
         i < |b.recs| && b.recs[i] == a.recs[i]
  }

  ghost predicate RecordsStay(c: Config, s: State, s': State) {
    && Fits(c, s) && Fits(c, s')
    && forall y: nat, i: nat :: y < c.Slabs() ==> RecordStays(c, s, s', y, i)
  }

  /** The entry of tag `t` denotes record `r`. */
  ghost predicate Shows(c: Config, s: State, t: Tag, r: Rec) {
    && Fits(c, s)
    && t in s.index && Decodes(c, s.slabs, s.mem, s.disk, s.index[t])
    && RecAt(c, s.slabs, s.mem, s.disk, s.index[t]) == r
  }

  lemma ShownIs(c: Config, s: State, view: map<Tag, Rec>)
    requires Fits(c, s) && view.Keys == s.index.Keys
    requires forall t :: t in view ==> Shows(c, s, t, view[t])
    ensures Shown(c, s) == view
  {
    forall t | t in s.index ensures t in Shown(c, s) && Shown(c, s)[t] == view[t] {
      assert Shows(c, s, t, view[t]);
    }
  }

  lemma ShowsShown(c: Config, s: State)
    requires Fits(c, s) && IndexOk(c, s.slabs, s.mem, s.disk, s.index, s.latest, s.put)
    ensures Shown(c, s).Keys == s.index.Keys
    ensures forall t :: t in s.index ==> Shows(c, s, t, Shown(c, s)[t])
  {
    forall t | t in s.index ensures Decodes(c, s.slabs, s.mem, s.disk, s.index[t]) {
      EntryAt(c, s, t);
    }
  }

  lemma StayShown(c: Config, s: State, s': State)
    requires Fits(c, s) && Fits(c, s') && s'.index == s.index && RecordsStay(c, s, s')
    requires IndexOk(c, s.slabs, s.mem, s.disk, s.index, s.latest, s.put)
    requires IndexOk(c, s'.slabs, s'.mem, s'.disk, s'.index, s'.latest, s'.put)
    ensures Shown(c, s') == Shown(c, s)
  {
    ShowsShown(c, s);
    forall t | t in s.index ensures Shows(c, s', t, Shown(c, s)[t]) {
      EntryAt(c, s, t);
      EntryAt(c, s', t);
      assert Shows(c, s, t, Shown(c, s)[t]) && RecordStays(c, s, s', s.index[t].sid, s.index[t].slot);
    }
    ShownIs(c, s', Shown(c, s));
  }

  /** One memory slab is written: nothing points at it, or only at records that stay. */
  lemma MemStays(c: Config, s: State, s': State, x: nat, img: Image)
    requires Fits(c, s) && Fits(c, s') && x < c.nrMslab && s'.mem == s.mem[x := img] && s'.disk == s.disk
    requires LiveRole(s.slabs[x].role) ==>
               |img.recs| >= |s.mem[x].recs| &&
               forall i :: 0 <= i < |s.mem[x].recs| && !(PutPending(s.put) && s.put.sid == x && s.put.slot == i) ==>
                           img.recs[i] == s.mem[x].recs[i]
    ensures RecordsStay(c, s, s')
  {
  }

  lemma SlotStays(c: Config, s: State, l: Step, s': State)
    requires SlabsOk(c, s.slabs, s.mem, s.disk) && PutNext(c, s, l, s') && (l.PutOpenS? || l.PutAllocS? || l.PutWriteS?)
    ensures Fits(c, s') && s'.index == s.index && RecordsStay(c, s, s')
  {
    hide SlabsOk, RecordsStay, Members, Bump, PutBegin, PutHit, PutMiss, PutWake, PutBlock, PutDone, Delete;
    var x := if l.PutWriteS? then s.put.sid else l.x;
    SlabAt(c, s.slabs, s.mem, s.disk, x);
    MemStays(c, s, s', x, s'.mem[x]);
  }

  lemma PutStays(c: Config, s: State, l: Step, s': State)
    requires SlabsOk(c, s.slabs, s.mem, s.disk) && PutNext(c, s, l, s') && !IsPublish(l) && !l.DeleteS?
    ensures Fits(c, s') && s'.index == s.index && RecordsStay(c, s, s')
  {
    hide SlabsOk, RecordsStay, Bump, ClassFor, PutOpen, PutAlloc, PutWrite, PutHit, PutMiss, PutWake, Delete;
    if l.PutOpenS? || l.PutAllocS? || l.PutWriteS? { SlotStays(c, s, l, s'); } else { BytesStay(c, s, s'); }
  }

  lemma BytesStay(c: Config, s: State, s': State)
    requires Fits(c, s) && Fits(c, s') && s'.mem == s.mem && s'.disk == s.disk
    ensures RecordsStay(c, s, s')
  {
  }

  /** One block is written, of a slab that nothing points at. */
  lemma BlockStays(c: Config, s: State, s': State, d: nat, img: Image)
    requires Fits(c, s) && Fits(c, s') && c.IsDisk(d) && !LiveRole(s.slabs[d].role)
    requires s'.mem == s.mem && s'.disk == s.disk[c.BlockOf(d) := img]
    ensures RecordsStay(c, s, s')
  {
    OtherImages(c, s, d, img);
  }

  lemma FlushStays(c: Config, s: State, l: Step, s': State)
    requires FlushOk(c, s.slabs, s.mem, s.disk, s.flush)
    requires FlushNext(c, s, l, s') && !l.FlushRedirectS?
    ensures Fits(c, s') && s'.index == s.index && RecordsStay(c, s, s')
  {
    hide Members, OfFamily, RecordsStay;
    if l.FlushWriteS? {
      BlockStays(c, s, s', s.flush.d, s.mem[s.flush.m]);
    } else {
      BytesStay(c, s, s');
    }
  }

  lemma QuickStays(c: Config, s: State, l: Step, s': State)
    requires QuickNext(c, s, l, s') && !l.GcEvictS?
    ensures Fits(c, s') && s'.index == s.index && RecordsStay(c, s, s')
  {
    hide Members, OfFamily, RecordsStay;
    BytesStay(c, s, s');
  }

  lemma NormalStays(c: Config, s: State, l: Step, s': State)
    requires Fits(c, s) && SlabsOk(c, s.slabs, s.mem, s.disk) && InvGc(c, s)
    requires NormalNext(c, s, l, s') && !l.GcMoveSlotS? && !l.GcRedirectS?
    ensures Fits(c, s') && s'.index == s.index && RecordsStay(c, s, s')
  {
    hide Members, OfFamily, SlabsOk, InvGc, RecordsStay, SeenSum, CheckOpsPool, Bump, GcMoveSlot, GcRedirect, GcInit,
         GcWrite;
    if l.GcInitS? {
      InitStays(c, s, s');
    } else if l.GcWriteS? {
      GcWriteStays(c, s, s');
    } else {
      BytesStay(c, s, s');
    }
  }

  lemma InitStays(c: Config, s: State, s': State)
    requires Fits(c, s) && SlabsOk(c, s.slabs, s.mem, s.disk) && InvGc(c, s) && GcInit(c, s, s')
    ensures Fits(c, s') && s'.index == s.index && RecordsStay(c, s, s')
  {
    hide SlabsOk, CollectOk, WrittenOk, LostOk, RecordsStay;
    SlabAt(c, s.slabs, s.mem, s.disk, c.Buffer());
    assert GcHolds(s.gc, c.Buffer(), s.slabs[c.Buffer()].role);
    MemStays(c, s, s', c.Buffer(), s'.mem[c.Buffer()]);
  }

  lemma GcWriteStays(c: Config, s: State, s': State)
    requires Fits(c, s) && InvGc(c, s) && GcWrite(c, s, s')
    ensures Fits(c, s') && s'.index == s.index && RecordsStay(c, s, s')
  {
    hide GcHeld, WrittenOk, LostOk, RecordsStay, PicksOk, CandsOk, PicksHave, SeenSum;
    BlockStays(c, s, s', s.gc.ops, s.mem[c.Buffer()]);
  }

  // ---------- redirects and moves ----------

  /** Redirected entries denote the copy of the record they denoted before. */
  lemma RedirectShows(c: Config, s: State, s': State, src: nat, dst: nat)
    requires Redirects(c, s, s', src, dst)
    requires IndexOk(c, s.slabs, s.mem, s.disk, s.index, s.latest, s.put)
    requires IndexOk(c, s'.slabs, s'.mem, s'.disk, s'.index, s'.latest, s'.put)
    ensures Shown(c, s') == Shown(c, s)
  {
    hide IndexOk, Shown, Shaped;
    ShowsShown(c, s);
    var view := Shown(c, s);
    forall t | t in s'.index ensures t in view && Shows(c, s', t, view[t]) {
      EntryAt(c, s', t);
      if t in s.index { assert Shows(c, s, t, Shown(c, s)[t]); }
      assert t in Live(s.index, src) <==> s.index[t].sid == src;
    }
    ShownIs(c, s', view);
  }

  /** A slot that is moved: its entry denotes the copy behind the buffer's records, the others what they denoted. */
  lemma MovedShows(c: Config, s: State, s': State, t: Tag, x: nat, r: Rec, u: Tag)
    requires Fits(c, s) && NormalGcSteps.Moves(c, s, s', x, t, r) && Fits(c, s') && u in s.index
    requires |s.mem[c.Buffer()].recs| == s.slabs[c.Buffer()].nrAlloc
    requires EntryOk(c, s.slabs, s.mem, s.disk, s.latest, s.put, u, s.index[u])
    requires EntryOk(c, s'.slabs, s'.mem, s'.disk, s'.latest, s'.put, u, s'.index[u])
    ensures Shows(c, s', u, RecAt(c, s.slabs, s.mem, s.disk, s.index[u]))
  {
    if u != t { assert s'.index[u] == s.index[u]; }
  }

  lemma MoveShows(c: Config, s: State, s': State, t: Tag, x: nat, r: Rec)
    requires Fits(c, s) && NormalGcSteps.Moves(c, s, s', x, t, r) && Fits(c, s')
    requires |s.mem[c.Buffer()].recs| == s.slabs[c.Buffer()].nrAlloc
    requires IndexOk(c, s.slabs, s.mem, s.disk, s.index, s.latest, s.put)
    requires IndexOk(c, s'.slabs, s'.mem, s'.disk, s'.index, s'.latest, s'.put)
    ensures Shown(c, s') == Shown(c, s)
  {
    hide IndexOk, Shown, EntryOk, AppendRec, Shaped;
    ShowsShown(c, s);
    var view := Shown(c, s);
    forall u | u in s'.index ensures u in view && Shows(c, s', u, view[u]) {
      EntryAt(c, s, u);
      EntryAt(c, s', u);
      assert Shows(c, s, u, view[u]);
      MovedShows(c, s, s', t, x, r, u);
    }
    ShownIs(c, s', view);
  }

  lemma MoveSlotShows(c: Config, s: State, s': State)
    requires Fits(c, s) && GcMoveSlot(c, s, s') && Fits(c, s')
    requires |s.mem[c.Buffer()].recs| == s.slabs[c.Buffer()].nrAlloc
    requires IndexOk(c, s.slabs, s.mem, s.disk, s.index, s.latest, s.put)
    requires IndexOk(c, s'.slabs, s'.mem, s'.disk, s'.index, s'.latest, s'.put)
    ensures Shown(c, s') == Shown(c, s)
  {
    hide IndexOk, Shown, RecordsStay, AppendRec;
    var x := s.gc.picks[s.gc.j].sid;
    var r := s.disk[c.BlockOf(x)].recs[s.gc.i];
    var t := c.TagOf(r.key);
    if t in s.index && s.index[t] == Loc(x, s.gc.i) {
      MoveShows(c, s, s', t, x, r);
    } else {
      BytesStay(c, s, s');
      StayShown(c, s, s');
    }
  }

  lemma MoveBuffer(c: Config, s: State)
    requires Fits(c, s) && SlabsOk(c, s.slabs, s.mem, s.disk) && CollectOk(c, s.slabs, s.gc) && s.gc.GMove?
    ensures |s.mem[c.Buffer()].recs| == s.slabs[c.Buffer()].nrAlloc
  {
    hide PicksOk, CandsOk, PicksHave, SeenSum;
    SlabAt(c, s.slabs, s.mem, s.disk, c.Buffer());
  }

  // ---------- publications, deletions, evictions ----------

  lemma PublishShows(c: Config, s: State, s': State)
    requires Fits(c, s) && Fits(c, s') && s'.mem == s.mem && s'.disk == s.disk && (s.put.PWritten? || s.put.PWaiting?)
    requires s'.index == s.index[c.TagOf(s.put.k) := Loc(s.put.sid, s.put.slot)]
    requires PutOk(c, s.slabs, s.mem, s.put)
    requires IndexOk(c, s.slabs, s.mem, s.disk, s.index, s.latest, s.put)
    requires IndexOk(c, s'.slabs, s'.mem, s'.disk, s'.index, s'.latest, s'.put)
    ensures Shown(c, s') == Shown(c, s)[c.TagOf(s.put.k) := Rec(s.put.k, s.put.v)]
  {
    hide IndexOk, Shown;
    ShowsShown(c, s);
    var view := Shown(c, s)[c.TagOf(s.put.k) := Rec(s.put.k, s.put.v)];
    forall t | t in s'.index ensures t in view && Shows(c, s', t, view[t]) {
      EntryAt(c, s', t);
      if t in s.index { assert Shows(c, s, t, Shown(c, s)[t]); }
    }
    ShownIs(c, s', view);
  }

  lemma ForgetShows(c: Config, s: State, s': State, gone: set<Tag>)
    requires Fits(c, s) && Fits(c, s') && s'.mem == s.mem && s'.disk == s.disk && s'.index == s.index - gone
    requires IndexOk(c, s.slabs, s.mem, s.disk, s.index, s.latest, s.put)
    requires IndexOk(c, s'.slabs, s'.mem, s'.disk, s'.index, s'.latest, s'.put)
    ensures Shown(c, s') == Shown(c, s) - gone
  {
    hide IndexOk, Shown;
    ShowsShown(c, s);
    var view := Shown(c, s) - gone;
    forall t | t in s'.index ensures t in view && Shows(c, s', t, view[t]) {
      EntryAt(c, s', t);
      if t in s.index { assert Shows(c, s, t, Shown(c, s)[t]); }
    }
    ShownIs(c, s', view);
  }

  // ---------- the refinement ----------

  /** What a step's effect on the view rests on. */
  ghost predicate ViewKnows(c: Config, s: State) {
    InvSlabs(c, s) && IndexOk(c, s.slabs, s.mem, s.disk, s.index, s.latest, s.put)
  }

  lemma EntryFacts(c: Config, s: State, l: Step, s': State)
    requires PutNext(c, s, l, s') && (IsPublish(l) || l.DeleteS?)
    ensures s'.mem == s.mem && s'.disk == s.disk
    ensures IsPublish(l) ==> (s.put.PWritten? || s.put.PWaiting?) && c.buckets > 0
                             && s'.index == s.index[c.TagOf(s.put.k) := Loc(s.put.sid, s.put.slot)]
                             && s'.latest == s.latest[s.put.k := s.put.v]
    ensures l.DeleteS? ==> c.buckets > 0 && s'.index == s.index - {c.TagOf(l.k)} && s'.latest == s.latest - {l.k}
  {
    hide PutOpen, PutAlloc, PutDone;
  }

  lemma PutEffect(c: Config, s: State, l: Step, s': State)
    requires ViewKnows(c, s) && PutNext(c, s, l, s') && ViewKnows(c, s')
    ensures Shown(c, s') == Effect(c, s, l, Shown(c, s))
  {
    hide SlabsOk, OneOpen, PutOk, FlushOk, InvGc, IndexOk, Shown;
    if IsPublish(l) || l.DeleteS? { EntryFacts(c, s, l, s'); }
    if IsPublish(l) {
      PublishShows(c, s, s');
    } else if l.DeleteS? {
      ForgetShows(c, s, s', {c.TagOf(l.k)});
    } else {
      PutStays(c, s, l, s');
      StayShown(c, s, s');
    }
  }

  lemma FlushEffect(c: Config, s: State, l: Step, s': State)
    requires ViewKnows(c, s) && FlushNext(c, s, l, s') && ViewKnows(c, s')
    ensures Shown(c, s') == Shown(c, s) == Effect(c, s, l, Shown(c, s))
  {
    hide SlabsOk, OneOpen, PutOk, FlushOk, InvGc, IndexOk, Shown, Shaped;
    if l.FlushRedirectS? {
      FlushSteps.RedirectFacts(c, s, s');
      RedirectShows(c, s, s', s.flush.m, s.flush.d);
    } else {
      FlushStays(c, s, l, s');
      StayShown(c, s, s');
    }
  }

  lemma QuickEffect(c: Config, s: State, l: Step, s': State)
    requires ViewKnows(c, s) && QuickNext(c, s, l, s') && ViewKnows(c, s')
    ensures Shown(c, s') == Effect(c, s, l, Shown(c, s))
  {
    hide SlabsOk, OneOpen, PutOk, FlushOk, InvGc, IndexOk, Shown, StoredTags;
    if l.GcEvictS? {
      ForgetShows(c, s, s', StoredTags(c, s.slabs[l.x].nrAlloc, s.disk[c.BlockOf(l.x)].recs));
    } else {
      QuickStays(c, s, l, s');
      StayShown(c, s, s');
    }
  }

  lemma NormalEffect(c: Config, s: State, l: Step, s': State)
    requires ViewKnows(c, s) && NormalNext(c, s, l, s') && ViewKnows(c, s')
    ensures Shown(c, s') == Shown(c, s) == Effect(c, s, l, Shown(c, s))
  {
    hide SlabsOk, OneOpen, PutOk, FlushOk, GcHeld, CollectOk, WrittenOk, LostOk, IndexOk, Shown, Shaped;
    if l.GcMoveSlotS? {
      MoveBuffer(c, s);
      MoveSlotShows(c, s, s');
    } else if l.GcRedirectS? {
      NormalGcSteps.RedirectFacts(c, s, s');
      RedirectShows(c, s, s', c.Buffer(), s.gc.ops);
    } else {
      NormalStays(c, s, l, s');
      StayShown(c, s, s');
    }
  }

  /**
   Refinement: in every reachable state, each step changes the view exactly as `Effect` says. Flush steps and normal-GC
   steps change nothing, in particular while entries point into `gc_buffer_`.
   */
  lemma StepEffect(c: Config, s: State, l: Step, s': State)
    requires Inv(c, s) && Next(c, s, l, s')
    ensures Inv(c, s') && Shown(c, s') == Effect(c, s, l, Shown(c, s))
    ensures FlushNext(c, s, l, s') || NormalNext(c, s, l, s') ==> Shown(c, s') == Shown(c, s)
  {
    hide InvSlabs, IndexOk, CountsOk, EntriesOk, WaitOk, MoveOk, InvPool, PutNext, FlushNext, QuickNext, NormalNext,
         Shown, Effect;
    NextKeeps(c, s, l, s');
    if PutNext(c, s, l, s') { PutEffect(c, s, l, s'); }
    if FlushNext(c, s, l, s') { FlushEffect(c, s, l, s'); }
    if QuickNext(c, s, l, s') { QuickEffect(c, s, l, s'); }
    if NormalNext(c, s, l, s') { NormalEffect(c, s, l, s'); }
  }
}
