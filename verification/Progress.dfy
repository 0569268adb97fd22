/** The collector's passes end: no position is stuck, and every step brings the end closer. */
module Progress {
  import opened Types
  import opened Protocol
  import opened Invariant
  import opened Counting
  import opened Frames
  import opened GcFrames
  import opened Runs
  import NormalGcSteps
  import Space

  ghost predicate GcNext(c: Config, s: State, l: Step, s': State) {
    QuickNext(c, s, l, s') || NormalNext(c, s, l, s')
  }

  // ---------- no position is stuck ----------

  /** The selection of a quick pass wants a slab and every full list is empty. */
  ghost predicate Starved(s: State) { s.gc.GSelect? && s.gc.left > 0 && OfFamily(s.slabs, FullLists) == {} }

  lemma EntryNext(c: Config, s: State) returns (l: Step, s': State)
    requires Fits(c, s) && s.opsSize >= 0 && (s.gc.GAwake? || s.gc.GSeen? || s.gc.GPlan? || s.gc.GNormal?)
    ensures GcNext(c, s, l, s')
  {
    hide AfterDropOne, AfterPlan, AfterScan, CheckOpsPool, Shaped;
    if s.gc.GAwake? {
      l, s' := GcReadS, Check(s.(gc := GSeen(s.nrFreeDslab)), s.nrFreeDslab < 0);
    } else if s.gc.GPlan? {
      l, s' := GcPlanS, AfterPlan(c, s);
    } else if s.gc.GNormal? {
      l, s' := GcScanS({}), AfterScan(c, s, {});
    } else if s.nrFreeEntry == 0 {
      l, s' := GcDropOneS, AfterDropOne(c, s);
    } else if s.gc.free < s.low {
      l, s' := GcChooseQuickS, s.(gc := GPlan);
    } else {
      l, s' := GcChooseNormalS, s.(gc := GNormal);
    }
  }

  lemma SelectNext(c: Config, s: State) returns (l: Step, s': State)
    requires Fits(c, s) && SlabsOk(c, s.slabs, s.mem, s.disk) && s.gc.GSelect? && !Starved(s)
    ensures QuickNext(c, s, l, s')
  {
    hide AfterSelect, SlabsOk, GcDropOne, GcPlan, GcEvict, GcReturnOps, GcLose, GcReturnFree, GcQuickDone;
    if s.gc.left > 0 {
      OnlyDisks(c, s.slabs, s.mem, s.disk);
      var x :| x in OfFamily(s.slabs, FullLists);
      var ch := s.slabs[x].link.channel;
      l, s' := GcSelectS(x, ch), AfterSelect(c, s, x, ch);
    } else {
      l, s' := GcSelectedS, s.(gc := GEvict(s.gc.drop, {}));
    }
  }

  lemma EvictNext(c: Config, s: State) returns (l: Step, s': State)
    requires Fits(c, s) && SlabsOk(c, s.slabs, s.mem, s.disk) && s.gc.GEvict?
    ensures QuickNext(c, s, l, s')
  {
    hide AfterEvict, SlabsOk, GcDropOne, GcPlan, GcSelect, GcReturnOps, GcLose, GcReturnFree, GcQuickDone;
    if x: nat :| x < |s.slabs| && s.slabs[x].link == ToDrop && x !in s.gc.done {
      OnlyDisks(c, s.slabs, s.mem, s.disk);
      l, s' := GcEvictS(x), AfterEvict(c, s, x);
    } else {
      l, s' := GcEvictedS, s.(gc := GReturnOps(0, s.gc.drop));
    }
  }

  lemma ReturnNext(c: Config, s: State) returns (l: Step, s': State)
    requires Fits(c, s) && SlabsOk(c, s.slabs, s.mem, s.disk) && (s.gc.GReturnOps? || s.gc.GReturnFree?)
    ensures QuickNext(c, s, l, s')
  {
    hide AfterReturnOps, AfterLose, AfterReturnFree, CheckOpsPool, SlabsOk, GcDropOne, GcPlan, GcSelect, GcEvict,
         Shaped;
    if x: nat :| x < |s.slabs| && s.slabs[x].link == ToDrop {
      OnlyDisks(c, s.slabs, s.mem, s.disk);
      if s.gc.GReturnFree? { l, s' := GcReturnFreeS(x), AfterReturnFree(c, s, x); }
      else if s.gc.given < s.gc.drop.toOps { l, s' := GcReturnOpsS(x), AfterReturnOps(c, s, x); }
      else { l, s' := GcLoseS(x), AfterLose(c, s, x); }
    } else if s.gc.GReturnOps? {
      l, s' := GcReturnedOpsS, s.(gc := GReturnFree(s.gc.drop));
    } else {
      l, s' := GcQuickDoneS, Check(s.(gc := GIdle), !CheckOpsPool(c, s));
    }
  }

  lemma PackNext(c: Config, s: State) returns (l: Step, s': State)
    requires Fits(c, s) && SlabsOk(c, s.slabs, s.mem, s.disk) && s.gc.GPack? && s.opsSize == |OfFamily(s.slabs, Pool)|
    ensures NormalNext(c, s, l, s')
  {
    hide AfterTune, AfterTake, SlabsOk, SeenSum;
    if s.gc.pass.cid >= |c.classes| || (|s.gc.picks| > 1 && s.opsSize <= 0) {
      l, s' := GcTuneS, AfterTune(c, s);
    } else if |s.gc.picks| <= 1 {
      l, s' := GcSkipS, s.(gc := GPack(s.gc.pass.(cid := s.gc.pass.cid + 1), []));
    } else {
      var x :| x in OfFamily(s.slabs, Pool);
      OnlyDisks(c, s.slabs, s.mem, s.disk);
      var ch := s.slabs[x].link.channel;
      l, s' := GcTakeS(x, ch), AfterTake(c, s, x, ch);
    }
  }

  /** A slab of the current collection, formatted while it still has entries. */
  lemma SourceAt(c: Config, s: State, k: nat)
    requires Fits(c, s) && SlabsOk(c, s.slabs, s.mem, s.disk) && CollectOk(c, s.slabs, s.gc)
    requires (s.gc.GLink? || s.gc.GLoad? || s.gc.GMove?) && k < |s.gc.picks|
    ensures var x := s.gc.picks[k].sid;
            c.IsDisk(x) && (s.slabs[x].role.Source? ==> |s.disk[c.BlockOf(x)].recs| == s.slabs[x].nrAlloc)
  {
    hide PicksOk, CandsOk, PicksHave, SeenSum, SlabsOk;
    NormalGcSteps.PicksAt(c, s.slabs, s.gc.pass.cid, s.gc.picks, k);
    SlabAt(c, s.slabs, s.mem, s.disk, s.gc.picks[k].sid);
  }

  lemma LinkNext(c: Config, s: State) returns (l: Step, s': State)
    requires Fits(c, s) && SlabsOk(c, s.slabs, s.mem, s.disk) && CollectOk(c, s.slabs, s.gc) && s.gc.GLink?
    ensures NormalNext(c, s, l, s')
  {
    hide AfterUnlink, AfterInit, SlabsOk, PicksOk, CandsOk, PicksHave, SeenSum, GcScan, GcPick, GcTake, GcLinkOps,
         GcLoad, GcMoveSlot, GcMoveDone, GcWrite, GcRedirect, GcTune, GcRefill, GcTrim, GcReturnAll, Shaped;
    SourceAt(c, s, if s.gc.j < |s.gc.picks| then s.gc.j else 0);
    if s.gc.j < |s.gc.picks| {
      l, s' := GcUnlinkS, AfterUnlink(c, s);
    } else {
      l, s' := GcInitS, AfterInit(c, s);
    }
  }

  lemma TookNext(c: Config, s: State) returns (l: Step, s': State)
    requires Fits(c, s) && CollectOk(c, s.slabs, s.gc) && (s.gc.GTook? || s.gc.GWritten?)
    ensures NormalNext(c, s, l, s')
  {
    hide AfterLinkOps, AfterGcRedirect, PicksOk, CandsOk, PicksHave, SeenSum, GcScan, GcPick, GcTake, GcUnlink, GcInit,
         GcLoad, GcMoveSlot, GcMoveDone, GcWrite, GcTune, GcRefill, GcTrim, GcReturnAll;
    if s.gc.GTook? {
      l, s' := GcLinkOpsS, AfterLinkOps(c, s);
    } else {
      l, s' := GcRedirectS, AfterGcRedirect(c, s);
    }
  }

  lemma LoadNext(c: Config, s: State) returns (l: Step, s': State)
    requires Fits(c, s) && SlabsOk(c, s.slabs, s.mem, s.disk) && CollectOk(c, s.slabs, s.gc) && s.gc.GLoad?
    ensures NormalNext(c, s, l, s')
  {
    hide AfterLoad, AfterGcWrite, SlabsOk, PicksOk, CandsOk, PicksHave, SeenSum, BufferOk, GcScan, GcPick, GcTake,
         GcLinkOps, GcUnlink, GcInit, GcMoveSlot, GcMoveDone, GcRedirect, GcTune, GcRefill, GcTrim, GcReturnAll;
    if s.gc.j == |s.gc.picks| {
      l, s' := GcWriteS, AfterGcWrite(c, s);
    } else {
      SourceAt(c, s, s.gc.j);
      l, s' := GcLoadS, AfterLoad(c, s);
    }
  }

  lemma MoveNext(c: Config, s: State) returns (l: Step, s': State)
    requires Fits(c, s) && SlabsOk(c, s.slabs, s.mem, s.disk) && CollectOk(c, s.slabs, s.gc) && s.gc.GMove?
    ensures NormalNext(c, s, l, s')
  {
    hide AfterMoveSlot, AfterMoveDone, SlabsOk, PicksOk, CandsOk, SeenSum, BufferOk, OpsOk, GcScan, GcPick, GcTake,
         GcLinkOps, GcUnlink, GcInit, GcLoad, GcWrite, GcRedirect, GcTune, GcRefill, GcTrim, GcReturnAll;
    SourceAt(c, s, s.gc.j);
    var x := s.gc.picks[s.gc.j].sid;
    if s.gc.i == s.slabs[x].nrAlloc {
      l, s' := GcMoveDoneS, AfterMoveDone(c, s, x);
    } else {
      assert HasRole(s.slabs, x, Source);
      l, s' := GcMoveSlotS, AfterMoveSlot(c, s, x, s.gc.i, s.disk[c.BlockOf(x)].recs[s.gc.i]);
    }
  }

  lemma RefillNext(c: Config, s: State) returns (l: Step, s': State)
    requires Fits(c, s) && SlabsOk(c, s.slabs, s.mem, s.disk) && (s.gc.GRefill? || s.gc.GReturnAll?)
    requires s.gc.GRefill? ==> s.opsSize < s.gc.oldOps
    requires OfFamily(s.slabs, Reclaimed) != {}
    ensures NormalNext(c, s, l, s')
  {
    hide AfterRefill, AfterReturnAll, SlabsOk, GcScan, GcPick, GcTake, GcLinkOps, GcUnlink, GcInit, GcLoad, GcMoveSlot,
         GcMoveDone, GcWrite, GcRedirect, GcTune, GcTrim, GcNormalDone;
    var x :| x in OfFamily(s.slabs, Reclaimed);
    OnlyDisks(c, s.slabs, s.mem, s.disk);
    var ch := s.slabs[x].link.channel;
    if s.gc.GRefill? { l, s' := GcRefillS(x, ch), AfterRefill(c, s, x, ch); }
    else { l, s' := GcReturnAllS(x, ch), AfterReturnAll(c, s, x, ch); }
  }

  lemma TrimNext(c: Config, s: State) returns (l: Step, s': State)
    requires Fits(c, s) && SlabsOk(c, s.slabs, s.mem, s.disk) && s.gc.GTrim? && s.gc.left > 0
    requires 0 < s.opsSize == |OfFamily(s.slabs, Pool)|
    ensures NormalNext(c, s, l, s')
  {
    hide SlabsOk, Bump, Linked, GcScan, GcPick, GcTake, GcLinkOps, GcUnlink, GcInit, GcLoad, GcMoveSlot, GcMoveDone,
         GcWrite, GcRedirect, GcTune, GcRefill, GcReturnAll, GcNormalDone;
    var x :| x in OfFamily(s.slabs, Pool);
    OnlyDisks(c, s.slabs, s.mem, s.disk);
    var ch := s.slabs[x].link.channel;
    l, s' := GcTrimS(x, ch), AfterTrim(c, s, x, ch);
  }

  lemma EndNext(c: Config, s: State) returns (l: Step, s': State)
    requires Fits(c, s)
    requires || (s.gc.GTrim? && s.gc.left <= 0) || (s.gc.GRefill? && s.opsSize >= s.gc.oldOps)
             || (s.gc.GReturnAll? && OfFamily(s.slabs, Reclaimed) == {})
    ensures NormalNext(c, s, l, s')
  {
    hide CheckOpsPool, OfFamily, GcScan, GcPick, GcTake, GcLinkOps, GcUnlink, GcInit, GcLoad, GcMoveSlot, GcMoveDone,
         GcWrite, GcRedirect, GcTune, GcRefill, GcTrim, GcReturnAll, Shaped;
    if s.gc.GRefill? {
      l, s' := GcRefilledS, Check(s.(gc := GTrim(s.gc.oldOps, s.opsSize - s.gc.target)), s.opsSize > s.gc.oldOps);
    } else if s.gc.GReturnAll? {
      l, s' := GcNormalDoneS, Check(s.(gc := GIdle), !CheckOpsPool(c, s));
    } else {
      l, s' := GcTrimmedS, s.(gc := GReturnAll(s.gc.oldOps));
    }
  }

  lemma Advance(c: Config, s: State) returns (l: Step, s': State)
    requires Inv(c, s) && !s.gc.GIdle? && !Starved(s)
    ensures GcNext(c, s, l, s') && !l.GcWakeS?
  {
    hide QuickNext, NormalNext, SlabsOk, OneOpen, PutOk, FlushOk, GcHeld, CollectOk, WrittenOk, LostOk, InvIndex,
         SizesOk, PoolOk, Starved, Shaped;
    Space.PoolHas(c, s);
    if s.gc.GSelect? { l, s' := SelectNext(c, s); }
    else if s.gc.GEvict? { l, s' := EvictNext(c, s); }
    else if InDrop(s.gc) { l, s' := ReturnNext(c, s); }
    else if s.gc.GPack? { l, s' := PackNext(c, s); }
    else if s.gc.GLink? { l, s' := LinkNext(c, s); }
    else if s.gc.GMove? { l, s' := MoveNext(c, s); }
    else if s.gc.GLoad? { l, s' := LoadNext(c, s); }
    else if s.gc.GTook? || s.gc.GWritten? { l, s' := TookNext(c, s); }
    else if s.gc.GTrim? && s.gc.left > 0 { l, s' := TrimNext(c, s); }
    else if s.gc.GTrim? || (s.gc.GRefill? && s.opsSize >= s.gc.oldOps) { l, s' := EndNext(c, s); }
    else if s.gc.GReturnAll? && OfFamily(s.slabs, Reclaimed) == {} { l, s' := EndNext(c, s); }
    else if s.gc.GRefill? || s.gc.GReturnAll? { l, s' := RefillNext(c, s); }
    else { l, s' := EntryNext(c, s); }
    NotWaking(c, s, l, s');
  }

  /** A step within a pass is not the wake-up. */
  lemma NotWaking(c: Config, s: State, l: Step, s': State)
    requires !s.gc.GIdle? && GcNext(c, s, l, s')
    ensures !l.GcWakeS?
  {
    if l.GcWakeS? { hide NormalNext; }
  }

  lemma StarvedSticks(c: Config, s: State, l: Step, s': State)
    requires Starved(s)
    ensures !GcNext(c, s, l, s')
  {
    hide NormalNext, QuickNext, OffEntries, OffMemory;
    if NormalNext(c, s, l, s') {
      NormalLeaves(c, s, l, s');
    } else if QuickNext(c, s, l, s') {
      SelectTurns(c, s, l, s');
    }
  }

  /**
   Within a pass the collector can always take a step, except when the selection of a quick pass wants a slab that no
   full list has. That does not happen after the one-slab drop, nor with room for 2.3 times the pool's maximum.
   */
  lemma StuckExactlyWhen(c: Config, s: State)
    requires !s.gc.GIdle? && Reachable(c, s)
    ensures (exists l, s' :: GcNext(c, s, l, s')) <==> !Starved(s)
    ensures Starved(s) ==> s.gc.drop.planned && !Roomy(c, s.lost)
  {
    hide Leads, InvSlabs, InvIndex, InvPool, GcNext, OfFamily, Shaped;
    LeadsInv(c, Whole, s);
    if Starved(s) {
      forall l, s' ensures !GcNext(c, s, l, s') { StarvedSticks(c, s, l, s'); }
      Space.PoolHas(c, s);
    } else {
      var l, s' := Advance(c, s);
      assert GcNext(c, s, l, s');
    }
  }

  // ---------- every step brings the end of the pass closer ----------

  /** How far the collector is from the end of its pass, from the most significant part down. */
  datatype Rank = Rank(phase: nat, round: nat, stage: nat, left: nat, load: nat, slot: nat)

  predicate Lower(a: Rank, b: Rank) {
    || a.phase < b.phase
    || (a.phase == b.phase && (
         || a.round < b.round
         || (a.round == b.round && (
              || a.stage < b.stage
              || (a.stage == b.stage && (
                   || a.left < b.left
                   || (a.left == b.left && (a.load < b.load || (a.load == b.load && a.slot < b.slot)))))))))
  }

  function ClassesLeft(c: Config, cid: nat): nat { Max(|c.classes| - cid, 0) }

  function Phase(g: GcPc): nat {
    match g
    case GIdle => 0
    case GAwake => 7
    case GSeen(_) => 6
    case GPlan => 5
    case GSelect(_, _) => 4
    case GEvict(_, _) => 3
    case GReturnOps(_, _) => 2
    case GReturnFree(_) => 1
    case GNormal => 5
    case GRefill(_, _) => 3
    case GTrim(_, _) => 2
    case GReturnAll(_) => 1
    case _ => 4
  }

  /** Slabs still to select, evict, return or refill; in a normal pass, classes still to do. */
  function Round(c: Config, s: State): nat {
    match s.gc
    case GSelect(left, _) => Max(left, 0)
    case GEvict(_, done) => |Members(s.slabs, ToDrop) - done|
    case GReturnOps(_, _) => |OfFamily(s.slabs, Dropping)|
    case GReturnFree(_) => |OfFamily(s.slabs, Dropping)|
    case GRefill(oldOps, _) => Max(oldOps - s.opsSize, 0)
    case GTrim(_, left) => Max(left, 0)
    case GReturnAll(_) => |OfFamily(s.slabs, Reclaimed)|
    case GPack(pass, _) => ClassesLeft(c, pass.cid)
    case GTook(pass, _, _) => ClassesLeft(c, pass.cid)
    case GLink(pass, _, _, _) => ClassesLeft(c, pass.cid)
    case GLoad(pass, _, _, _, _) => ClassesLeft(c, pass.cid)
    case GMove(pass, _, _, _, _, _) => ClassesLeft(c, pass.cid)
    case GWritten(pass, _) => ClassesLeft(c, pass.cid)
    case _ => 0
  }

  /** The stages of one collection. */
  function Stage(g: GcPc): nat {
    if g.GPack? then 4 else if g.GTook? then 3 else if g.GLink? then 2 else if g.GLoad? || g.GMove? then 1 else 0
  }

  /** Candidates still to pack, or slabs still to unlink or to empty. */
  function Remaining(g: GcPc): nat {
    if g.GPack? then |g.pass.cands|
    else if g.GLink? || g.GLoad? || g.GMove? then Max(|g.picks| - g.j, 0)
    else 0
  }

  /** Slots still to look at in the current source. */
  function SlotsLeft(s: State): nat {
    if s.gc.GMove? && s.gc.j < |s.gc.picks| && s.gc.picks[s.gc.j].sid < |s.slabs|
    then Max(s.slabs[s.gc.picks[s.gc.j].sid].nrAlloc - s.gc.i, 0)
    else 0
  }

  function RankOf(c: Config, s: State): Rank {
    Rank(Phase(s.gc), Round(c, s), Stage(s.gc), Remaining(s.gc), if s.gc.GLoad? then 1 else 0, SlotsLeft(s))
  }

  lemma EvictDescends(slabs: seq<Slab>, slabs': seq<Slab>, x: nat, done: set<nat>)
    requires x < |slabs| == |slabs'| && slabs' == slabs[x := slabs'[x]]
    requires slabs[x].link == slabs'[x].link == ToDrop && x !in done
    ensures |Members(slabs', ToDrop) - (done + {x})| < |Members(slabs, ToDrop) - done|
  {
    assert Members(slabs', ToDrop) == Members(slabs, ToDrop);
    assert Members(slabs, ToDrop) - done == Members(slabs', ToDrop) - (done + {x}) + {x};
  }

  lemma EvictStepDescends(c: Config, s: State, s': State, x: nat)
    requires GcEvict(c, s, s', x)
    ensures Lower(RankOf(c, s'), RankOf(c, s))
  {
    hide StoredTags, Members;
    EvictDescends(s.slabs, s'.slabs, x, s.gc.done);
  }

  lemma GiveDescends(c: Config, s: State, s': State, x: nat)
    requires GcReturnOps(c, s, s', x) || GcReturnFree(c, s, s', x)
    ensures Lower(RankOf(c, s'), RankOf(c, s))
  {
    hide OfFamily, Bump;
    Relinked(s.slabs, x, s'.slabs[x]);
  }

  /** The steps from one phase of a quick pass to the next. */
  predicate TurnsQuick(l: Step) {
    || l.GcReadS? || l.GcDropOneS? || l.GcChooseQuickS? || l.GcPlanS? || l.GcSelectedS? || l.GcEvictedS? || l.GcLoseS?
    || l.GcReturnedOpsS? || l.GcQuickDoneS?
  }

  lemma TurnDescends(c: Config, s: State, l: Step, s': State)
    requires QuickNext(c, s, l, s') && TurnsQuick(l)
    ensures Phase(s'.gc) < Phase(s.gc)
  {
    hide CheckOpsPool, OpsInBounds, QuickLow, QuickHigh, BackToFree, BackToOps, Members, GcSelect, GcEvict, GcReturnOps,
         GcReturnFree;
  }

  lemma SelectDescends(c: Config, s: State, s': State, x: nat, ch: nat)
    requires GcSelect(c, s, s', x, ch)
    ensures Lower(RankOf(c, s'), RankOf(c, s))
  {
    hide Bump;
  }

  lemma QuickDescends(c: Config, s: State, l: Step, s': State)
    requires QuickNext(c, s, l, s') && !l.GcWakeS?
    ensures Lower(RankOf(c, s'), RankOf(c, s))
  {
    hide Phase, Round, Stage, Remaining, SlotsLeft, GcDropOne, GcPlan, GcEvict, GcReturnOps, GcReturnFree, GcSelect,
         GcLose;
    if TurnsQuick(l) {
      hide QuickNext;
      TurnDescends(c, s, l, s');
    } else {
      hide Lower, RankOf;
      match l
      case GcSelectS(x, ch) => SelectDescends(c, s, s', x, ch);
      case GcEvictS(x) => EvictStepDescends(c, s, s', x);
      case GcReturnOpsS(x) => GiveDescends(c, s, s', x);
      case GcReturnFreeS(x) => GiveDescends(c, s, s', x);
    }
  }

  lemma ChooseDescends(c: Config, s: State, l: Step, s': State)
    requires NormalNext(c, s, l, s') && IsChoosing(l)
    ensures Lower(RankOf(c, s'), RankOf(c, s))
  {
    hide OfFamily, SeenSum, Bump, GcLinkOps, GcUnlink, GcInit, GcLoad, GcMoveSlot, GcMoveDone, GcWrite, GcRedirect,
         GcRefill, GcTrim, GcReturnAll;
  }

  /** Moving a slot, or finishing a source, brings the end of the source, or the next one, closer. */
  lemma MoveDescends(c: Config, s: State, s': State)
    requires GcMoveSlot(c, s, s') || GcMoveDone(c, s, s')
    ensures Lower(RankOf(c, s'), RankOf(c, s))
  {
    hide AppendRec;
  }

  /** Every stage of a collection brings the next one, and the last one the next class, closer. */
  lemma CollectDescends(c: Config, s: State, l: Step, s': State)
    requires NormalNext(c, s, l, s') && IsCollecting(l)
    requires s.gc.GWritten? ==> s.gc.pass.cid < |c.classes|
    ensures Lower(RankOf(c, s'), RankOf(c, s))
  {
    hide AppendRec, Redirected, RedirectIndex, CopyHeader, Bump, GcScan, GcPick, GcTake, GcTune, GcRefill, GcTrim,
         GcReturnAll, GcMoveSlot, GcMoveDone, Members, OfFamily;
  }

  lemma ReturnDescends(c: Config, s: State, s': State, x: nat, ch: nat)
    requires GcReturnAll(c, s, s', x, ch)
    ensures Lower(RankOf(c, s'), RankOf(c, s))
  {
    hide OfFamily, Bump;
    Relinked(s.slabs, x, s'.slabs[x]);
  }

  lemma EndDescends(c: Config, s: State, l: Step, s': State)
    requires NormalNext(c, s, l, s') && !IsChoosing(l) && !IsCollecting(l)
    requires !l.GcTakeNoneS? && !l.GcMoveSlotS? && !l.GcMoveDoneS? && !l.GcReturnAllS?
    ensures Lower(RankOf(c, s'), RankOf(c, s))
  {
    hide OfFamily, Members, Bump, CheckOpsPool, GcScan, GcPick, GcTake, GcLinkOps, GcUnlink, GcInit, GcLoad, GcMoveSlot,
         GcMoveDone, GcWrite, GcRedirect, GcTune, GcReturnAll;
  }

  lemma NormalDescends(c: Config, s: State, l: Step, s': State)
    requires NormalNext(c, s, l, s') && !l.GcTakeNoneS?
    requires s.gc.GWritten? ==> s.gc.pass.cid < |c.classes|
    ensures Lower(RankOf(c, s'), RankOf(c, s))
  {
    hide RankOf, Lower, GcMoveSlot, GcMoveDone, GcReturnAll;
    if l.GcMoveSlotS? || l.GcMoveDoneS? {
      MoveDescends(c, s, s');
    } else if l.GcReturnAllS? {
      ReturnDescends(c, s, s', l.x, l.ch);
    } else {
      hide NormalNext;
      if IsChoosing(l) { ChooseDescends(c, s, l, s'); }
      else if IsCollecting(l) { CollectDescends(c, s, l, s'); }
      else { EndDescends(c, s, l, s'); }
    }
  }

  /** Every step of the collector within a pass brings the end of the pass closer. */
  lemma GcDescends(c: Config, s: State, l: Step, s': State)
    requires !l.GcWakeS? && Inv(c, s) && GcNext(c, s, l, s')
    ensures Lower(RankOf(c, s'), RankOf(c, s))
  {
    hide InvIndex, InvPool, SlabsOk, OneOpen, PutOk, FlushOk, GcHeld, WrittenOk, LostOk, Lower, RankOf, QuickNext,
         NormalNext, PicksOk, CandsOk, PicksHave, SeenSum;
    if QuickNext(c, s, l, s') {
      QuickDescends(c, s, l, s');
    } else {
      SpareTaken(c, s, l, s');
      NormalDescends(c, s, l, s');
    }
  }

  lemma SpareTaken(c: Config, s: State, l: Step, s': State)
    requires InvPool(c, s) && NormalNext(c, s, l, s')
    ensures !l.GcTakeNoneS?
  {
    hide InvPool, GcChooseNormal, GcScan, GcPick, GcSkip, GcTake, GcLinkOps, GcUnlink, GcInit,
         GcLoad, GcMoveSlot, GcMoveDone, GcWrite, GcRedirect, GcTune, GcRefill, GcRefilled, GcTrim, GcTrimMiss,
         GcTrimmed, GcReturnAll, GcNormalDone;
    if l.GcTakeNoneS? { NormalGcSteps.SpareThere(c, s); }
  }

  // ---------- the other threads do not push the collector back ----------

  /** On a list that only the collector touches. */
  predicate GcOwns(l: ListId) { l.ToDrop? || l.FreeList? || l.OpsPool? }

  /** Those lists, and the slabs on them as far as the rank counts them. */
  predicate GcSlabsStay(slabs: seq<Slab>, slabs': seq<Slab>) {
    && |slabs'| == |slabs|
    && forall x :: 0 <= x < |slabs| ==>
         && (GcOwns(slabs[x].link) || GcOwns(slabs'[x].link) ==> slabs'[x].link == slabs[x].link)
         && (slabs[x].link.FreeList? ==> slabs'[x].nrAlloc == slabs[x].nrAlloc)
  }

  /** A slab that is on none of those lists may change. */
  predicate Aside(a: Slab, b: Slab) {
    (b.link == a.link && b.nrAlloc == a.nrAlloc) || (!GcOwns(a.link) && !GcOwns(b.link))
  }

  lemma OneStays(slabs: seq<Slab>, x: nat, sl: Slab)
    requires x < |slabs| && Aside(slabs[x], sl)
    ensures GcSlabsStay(slabs, slabs[x := sl]) && GcSlabsStay(slabs, slabs)
  {
  }

  lemma SlotStays(c: Config, s: State, s': State, x: nat)
    requires PutOpen(c, s, s', x) || exists junk :: PutAlloc(c, s, s', x, junk)
    ensures GcSlabsStay(s.slabs, s'.slabs)
  {
    hide Members, Bump, AppendRec, GcSlabsStay;
    OneStays(s.slabs, x, s'.slabs[x]);
  }

  lemma DoneStays(c: Config, s: State, s': State)
    requires PutDone(c, s, s')
    requires SlabsOk(c, s.slabs, s.mem, s.disk) && PutOk(c, s.slabs, s.mem, s.put)
    ensures GcSlabsStay(s.slabs, s'.slabs)
  {
    hide SlabsOk, Bump, GcSlabsStay;
    SlabAt(c, s.slabs, s.mem, s.disk, s.put.sid);
    OneStays(s.slabs, s.put.sid, s'.slabs[s.put.sid]);
  }

  lemma HitStays(c: Config, s: State, s': State)
    requires PutHit(c, s, s')
    ensures GcSlabsStay(s.slabs, s'.slabs)
  {
    hide GcSlabsStay;
    var x := s.index[c.TagOf(s.put.k)].sid;
    OneStays(s.slabs, x, s'.slabs[x]);
  }

  lemma DeleteStays(c: Config, s: State, s': State, k: Key, counted: bool)
    requires Delete(c, s, s', k, counted)
    ensures GcSlabsStay(s.slabs, s'.slabs)
  {
    hide GcSlabsStay;
    OneStays(s.slabs, 0, s.slabs[0]);
    if c.TagOf(k) in s.index {
      var x := s.index[c.TagOf(k)].sid;
      OneStays(s.slabs, x, s'.slabs[x]);
    }
  }

  lemma PutStaysOff(c: Config, s: State, l: Step, s': State)
    requires PutNext(c, s, l, s')
    requires SlabsOk(c, s.slabs, s.mem, s.disk) && PutOk(c, s.slabs, s.mem, s.put)
    ensures GcSlabsStay(s.slabs, s'.slabs)
  {
    hide SlabsOk, Members, Bump, AppendRec, WriteRec, ClassFor, GcSlabsStay, PutDone, PutHit, Delete, PutOpen, PutAlloc,
         PutOk;
    OneStays(s.slabs, 0, s.slabs[0]);
    match l
    case PutDoneS => DoneStays(c, s, s');
    case PutHitS => HitStays(c, s, s');
    case DeleteS(k, counted) => DeleteStays(c, s, s', k, counted);
    case PutOpenS(x) => SlotStays(c, s, s', x);
    case PutAllocS(x, _) => SlotStays(c, s, s', x);
    case _ =>
  }

  lemma FlushStaysOff(c: Config, s: State, l: Step, s': State)
    requires FlushNext(c, s, l, s')
    requires SlabsOk(c, s.slabs, s.mem, s.disk) && FlushOk(c, s.slabs, s.mem, s.disk, s.flush)
    ensures GcSlabsStay(s.slabs, s'.slabs)
  {
    hide SlabsOk, Members, Bump, Redirected, RedirectIndex, GcSlabsStay;
    if l.FlushWriteS? || l.FlushStoreS? {
      hide FlushTake, FlushTarget, FlushRedirect, FlushFree;
      SlabAt(c, s.slabs, s.mem, s.disk, s.flush.d);
      OneStays(s.slabs, s.flush.d, s'.slabs[s.flush.d]);
    } else if l.FlushFreeS? {
      hide FlushTake, FlushTarget, FlushRedirect, FlushWrite, FlushStore;
      SlabAt(c, s.slabs, s.mem, s.disk, s.flush.m);
      OneStays(s.slabs, s.flush.m, s'.slabs[s.flush.m]);
    } else if l.FlushRedirectS? {
      hide FlushTake, FlushTarget, FlushWrite, FlushStore, FlushFree, FlushOk;
      RedirectStays(c, s, s');
    } else if l.FlushTakeS? {
      hide FlushTarget, FlushWrite, FlushStore, FlushFree, FlushRedirect, FlushOk;
      OneStays(s.slabs, l.x, s'.slabs[l.x]);
    } else {
      hide FlushTake, FlushWrite, FlushStore, FlushFree, FlushRedirect, FlushOk;
      OneStays(s.slabs, l.x, s'.slabs[l.x]);
    }
  }

  lemma RedirectStays(c: Config, s: State, s': State)
    requires FlushRedirect(c, s, s')
    ensures GcSlabsStay(s.slabs, s'.slabs)
  {
    hide Redirected, RedirectIndex;
  }

  lemma SameRank(c: Config, s: State, s': State)
    requires s'.gc == s.gc && s'.opsSize == s.opsSize && GcSlabsStay(s.slabs, s'.slabs)
    requires s.gc.GMove? && s.gc.j < |s.gc.picks| && s.gc.picks[s.gc.j].sid < |s.slabs| ==>
               s.slabs[s.gc.picks[s.gc.j].sid].link.FreeList?
    ensures RankOf(c, s') == RankOf(c, s)
  {
    assert Members(s'.slabs, ToDrop) == Members(s.slabs, ToDrop);
    assert OfFamily(s'.slabs, Dropping) == OfFamily(s.slabs, Dropping);
    assert OfFamily(s'.slabs, Reclaimed) == OfFamily(s.slabs, Reclaimed);
  }

  lemma SourceLinked(c: Config, s: State)
    requires Fits(c, s) && SlabsOk(c, s.slabs, s.mem, s.disk) && CollectOk(c, s.slabs, s.gc) && s.gc.GMove?
    ensures s.gc.j < |s.gc.picks| && s.gc.picks[s.gc.j].sid < |s.slabs|
    ensures s.slabs[s.gc.picks[s.gc.j].sid].link.FreeList?
  {
    hide SlabsOk, PicksOk, CandsOk, SeenSum;
    assert HasRole(s.slabs, s.gc.picks[s.gc.j].sid, Source);
    SlabAt(c, s.slabs, s.mem, s.disk, s.gc.picks[s.gc.j].sid);
  }

  /** No step of another thread moves the collector away from the end of its pass. */
  lemma OthersKeepRank(c: Config, s: State, l: Step, s': State)
    requires Inv(c, s) && (PutNext(c, s, l, s') || FlushNext(c, s, l, s'))
    ensures RankOf(c, s') == RankOf(c, s) && !IsGc(l)
  {
    hide InvIndex, InvPool, SlabsOk, OneOpen, PutOk, FlushOk, GcHeld, CollectOk, WrittenOk, LostOk, PutNext, FlushNext,
         GcSlabsStay, RankOf;
    if PutNext(c, s, l, s') {
      PutStaysOff(c, s, l, s');
      PutLeaves(c, s, l, s');
    } else {
      FlushStaysOff(c, s, l, s');
      FlushLeaves(c, s, l, s');
    }
    if s.gc.GMove? { SourceLinked(c, s); }
    SameRank(c, s, s');
  }

  lemma LowerTrans(a: Rank, b: Rank, d: Rank)
    requires Lower(a, b) && (Lower(b, d) || b == d)
    ensures Lower(a, d)
  {
  }

  /**
   Passes end: while the collector is within a pass, its rank never rises, and each of its own steps lowers it, whatever
   the other threads do in between.
   */
  lemma {:induction false} PassProgress(c: Config, states: seq<State>, steps: seq<Step>, n: nat, m: nat)
    requires n <= m < |states| == |steps| + 1
    requires forall k :: n <= k < m ==> !steps[k].GcWakeS?
    requires IsRun(c, states, steps)
    ensures RankOf(c, states[m]) == RankOf(c, states[n]) || Lower(RankOf(c, states[m]), RankOf(c, states[n]))
    ensures (exists k :: n <= k < m && IsGc(steps[k])) ==>
              Lower(RankOf(c, states[m]), RankOf(c, states[n]))
    decreases m
  {
    hide InvSlabs, InvIndex, InvPool, RankOf, Lower, PutNext, FlushNext, QuickNext, NormalNext, Bootable, Boot, Shaped;
    if n < m {
      var s, l, s' := states[m - 1], steps[m - 1], states[m];
      PassProgress(c, states, steps, n, m - 1);
      RunInv(c, states, steps, m - 1);
      assert Next(c, s, l, s');
      if PutNext(c, s, l, s') || FlushNext(c, s, l, s') {
        OthersKeepRank(c, s, l, s');
      } else {
        GcDescends(c, s, l, s');
        LowerTrans(RankOf(c, s'), RankOf(c, s), RankOf(c, states[n]));
      }
    }
  }

  // ---------- every pass is finished ----------

  /** Steps of the collector alone, within one pass. */
  ghost predicate GcPath(c: Config, states: seq<State>, steps: seq<Step>) {
    && |states| == |steps| + 1
    && forall i :: 0 <= i < |steps| ==> !steps[i].GcWakeS? && GcNext(c, states[i], steps[i], states[i + 1])
  }

  predicate NeedsRoom(g: GcPc) { g.GAwake? || g.GSeen? || g.GPlan? || (g.GSelect? && g.drop.planned) }

  /** A quick pass that is still to select its slabs will find them. */
  predicate Supplied(c: Config, s: State) { NeedsRoom(s.gc) ==> Roomy(c, s.lost) }

  lemma QuickSupplied(c: Config, s: State, l: Step, s': State)
    requires QuickNext(c, s, l, s') && !l.GcWakeS?
    ensures NeedsRoom(s'.gc) ==> NeedsRoom(s.gc) && s'.lost == s.lost
  {
    hide StoredTags, Members, CheckOpsPool, OpsInBounds, QuickLow, QuickHigh, BackToFree, BackToOps, Bump;
  }

  lemma StaysSupplied(c: Config, s: State, l: Step, s': State)
    requires GcNext(c, s, l, s') && Supplied(c, s) && !l.GcWakeS?
    ensures Supplied(c, s')
  {
    hide Roomy, QuickNext, NormalNext, OffMemory, OffEntries;
    if QuickNext(c, s, l, s') { QuickSupplied(c, s, l, s'); } else { NormalLeaves(c, s, l, s'); }
  }

  lemma GcKeeps(c: Config, s: State, l: Step, s': State)
    requires Inv(c, s) && GcNext(c, s, l, s')
    ensures Inv(c, s')
  {
    hide InvSlabs, InvIndex, InvPool, PutNext, FlushNext, QuickNext, NormalNext;
    NextKeeps(c, s, l, s');
  }

  lemma NotStarved(c: Config, s: State)
    requires Supplied(c, s) && Inv(c, s)
    ensures !Starved(s)
  {
    hide InvSlabs, InvIndex, InvPool, OfFamily;
    Space.PoolHas(c, s);
  }

  /** Along the collector's own steps within a pass, the rank falls and the supply lasts. */
  lemma {:induction false} PathDescends(c: Config, states: seq<State>, steps: seq<Step>, n: nat)
    requires n <= |steps| && GcPath(c, states, steps) && Supplied(c, states[0]) && Inv(c, states[0])
    ensures Supplied(c, states[n]) && Inv(c, states[n])
    ensures n > 0 ==> Lower(RankOf(c, states[n]), RankOf(c, states[0]))
  {
    hide InvSlabs, InvIndex, InvPool, GcNext, RankOf, Lower, Supplied;
    if n > 0 {
      var s, l, s' := states[n - 1], steps[n - 1], states[n];
      PathDescends(c, states, steps, n - 1);
      GcKeeps(c, s, l, s');
      StaysSupplied(c, s, l, s');
      GcDescends(c, s, l, s');
      LowerTrans(RankOf(c, s'), RankOf(c, s), RankOf(c, states[0]));
    }
  }

  /**
   Every pass completes: whatever steps the collector takes on its own, each lowers the rank, so that they come to an
   end; and where no further step is possible, the pass is over.
   */
  lemma PassCompletes(c: Config, states: seq<State>, steps: seq<Step>)
    requires GcPath(c, states, steps) && Supplied(c, states[0]) && Inv(c, states[0])
    ensures forall i, j :: 0 <= i < j <= |steps| ==> Lower(RankOf(c, states[j]), RankOf(c, states[i]))
    ensures (forall l, s' :: GcNext(c, states[|steps|], l, s') ==> l.GcWakeS?) <==> states[|steps|].gc.GIdle?
  {
    hide InvSlabs, InvIndex, InvPool, GcNext, RankOf, Lower, Supplied, OfFamily;
    var s := states[|steps|];
    forall i, j | 0 <= i < j <= |steps| ensures Lower(RankOf(c, states[j]), RankOf(c, states[i])) {
      PathDescends(c, states, steps, i);
      var rest, labels := states[i..], steps[i..];
      assert GcPath(c, rest, labels) by {
        forall k | 0 <= k < |labels| ensures !labels[k].GcWakeS? && GcNext(c, rest[k], labels[k], rest[k + 1]) {
          assert GcNext(c, states[i + k], steps[i + k], states[i + k + 1]);
        }
      }
      PathDescends(c, rest, labels, j - i);
    }
    PathDescends(c, states, steps, |steps|);
    if s.gc.GIdle? {
      forall l, s' | GcNext(c, s, l, s') ensures l.GcWakeS? { IdleWakes(c, s, l, s'); }
    } else {
      NotStarved(c, s);
      var l, s' := Advance(c, s);
    }
  }

  /** A sleeping collector can only wake. */
  lemma IdleWakes(c: Config, s: State, l: Step, s': State)
    requires s.gc.GIdle? && GcNext(c, s, l, s')
    ensures l.GcWakeS? && s.nrFullDslab > 0
  {
    hide NormalNext, AfterDropOne, AfterPlan, AfterSelect, AfterEvict, AfterReturnOps, AfterLose, AfterReturnFree,
         Members, CheckOpsPool, OffEntries, OffMemory;
    if NormalNext(c, s, l, s') { NormalLeaves(c, s, l, s'); }
  }

  /** Such steps exist up to the end of the pass. */
  lemma FinishPass(c: Config, s: State) returns (states: seq<State>, steps: seq<Step>)
    requires Supplied(c, s) && Inv(c, s)
    ensures GcPath(c, states, steps) && states[0] == s && states[|steps|].gc.GIdle?
    ensures forall i :: 0 <= i < |steps| ==> !states[i].gc.GIdle?
    decreases RankOf(c, s).phase, RankOf(c, s).round, RankOf(c, s).stage, RankOf(c, s).left, RankOf(c, s).load,
              RankOf(c, s).slot
  {
    hide InvSlabs, InvIndex, InvPool, GcNext, RankOf, Supplied, OfFamily, Shaped;
    if s.gc.GIdle? {
      states, steps := [s], [];
    } else {
      NotStarved(c, s);
      var l, s' := Advance(c, s);
      GcKeeps(c, s, l, s');
      StaysSupplied(c, s, l, s');
      GcDescends(c, s, l, s');
      var rest, labels := FinishPass(c, s');
      states, steps := [s] + rest, [l] + labels;
      forall i | 0 <= i < |steps| ensures !steps[i].GcWakeS? && GcNext(c, states[i], steps[i], states[i + 1]) {
        if i > 0 { assert GcNext(c, rest[i - 1], labels[i - 1], rest[i]); }
      }
    }
  }

  // ---------- the selection loop ----------

  /**
   The selection loop ends. It holds the lock of the full lists from its first round to its last, so only the
   collector's own steps count.
   */
  ghost predicate SelectionEnds(c: Config, s: State) {
    exists states: seq<State>, steps: seq<Step> ::
      GcPath(c, states, steps) && states[0] == s && states[|steps|].gc.GEvict?
  }

  lemma EndsAfter(c: Config, s: State, l: Step, s': State)
    requires GcNext(c, s, l, s') && !l.GcWakeS? && (s'.gc.GEvict? || SelectionEnds(c, s'))
    ensures SelectionEnds(c, s)
  {
    hide GcNext;
    var rest: seq<State>, labels: seq<Step> := [s'], [];
    if !s'.gc.GEvict? {
      rest, labels :| GcPath(c, rest, labels) && rest[0] == s' && rest[|labels|].gc.GEvict?;
    }
    var states, steps := [s] + rest, [l] + labels;
    forall i | 0 <= i < |steps| ensures !steps[i].GcWakeS? && GcNext(c, states[i], steps[i], states[i + 1]) {
      if i > 0 { assert GcNext(c, rest[i - 1], labels[i - 1], rest[i]); }
    }
    assert GcPath(c, states, steps) && states[0] == s && states[|steps|].gc.GEvict?;
  }

  /** A round takes one slab off the demand and one off the full lists. */
  lemma RoundTakes(c: Config, s: State, s': State, x: nat, ch: nat)
    requires GcSelect(c, s, s', x, ch)
    ensures s.gc.left > 0 && s'.gc.GSelect? && s'.gc.left == s.gc.left - 1
    ensures |OfFamily(s'.slabs, FullLists)| == |OfFamily(s.slabs, FullLists)| - 1
  {
    hide OfFamily, Bump;
    Relinked(s.slabs, x, s'.slabs[x]);
  }

  /** In the selection a step takes one more slab, or ends the loop when nothing more is wanted. */
  lemma SelectTurns(c: Config, s: State, l: Step, s': State)
    requires s.gc.GSelect? && GcNext(c, s, l, s')
    ensures s.gc.left > 0 ==> s'.gc.GSelect? && s'.gc.left == s.gc.left - 1
                              && |OfFamily(s'.slabs, FullLists)| == |OfFamily(s.slabs, FullLists)| - 1
    ensures s.gc.left <= 0 ==> s'.gc.GEvict?
  {
    hide NormalNext, StoredTags, Members, OfFamily, GcSelect, AfterPlan, AfterDropOne, AfterEvict, AfterReturnOps,
         AfterLose, AfterReturnFree, CheckOpsPool, OffEntries, OffMemory, Shaped;
    if NormalNext(c, s, l, s') { NormalLeaves(c, s, l, s'); }
    else if l.GcSelectS? { RoundTakes(c, s, s', l.x, l.ch); }
  }

  ghost predicate TooMany(s: State) { s.gc.GSelect? && s.gc.left > |OfFamily(s.slabs, FullLists)| }

  lemma {:induction false} TooManyPath(c: Config, states: seq<State>, steps: seq<Step>, n: nat)
    requires n <= |steps| && GcPath(c, states, steps) && TooMany(states[0])
    ensures TooMany(states[n])
  {
    hide GcNext, OfFamily;
    if n > 0 {
      TooManyPath(c, states, steps, n - 1);
      SelectTurns(c, states[n - 1], steps[n - 1], states[n]);
    }
  }

  lemma EnoughEnds(c: Config, s: State)
    requires s.gc.GSelect? && s.gc.left <= |OfFamily(s.slabs, FullLists)| && Inv(c, s)
    ensures SelectionEnds(c, s)
    decreases Max(s.gc.left, 0)
  {
    hide InvSlabs, InvIndex, InvPool, SelectionEnds, GcNext, OfFamily, Shaped;
    var l, s' := Advance(c, s);
    GcKeeps(c, s, l, s');
    SelectTurns(c, s, l, s');
    if s.gc.left > 0 { EnoughEnds(c, s'); }
    EndsAfter(c, s, l, s');
  }

  /** The selection ends if and only if, when it starts, the full lists hold as many slabs as it wants. */
  lemma SelectionEndsExactlyWhen(c: Config, s: State)
    requires s.gc.GSelect? && Inv(c, s)
    ensures SelectionEnds(c, s) <==> s.gc.left <= |OfFamily(s.slabs, FullLists)|
  {
    hide InvSlabs, InvIndex, InvPool, GcNext, OfFamily, Shaped;
    if s.gc.left <= |OfFamily(s.slabs, FullLists)| {
      EnoughEnds(c, s);
    } else if SelectionEnds(c, s) {
      var states: seq<State>, steps: seq<Step> :|
        GcPath(c, states, steps) && states[0] == s && states[|steps|].gc.GEvict?;
      TooManyPath(c, states, steps, |steps|);
      assert false;
    }
  }

  /** The demand of `quick_gc`, from the marks, the free slabs and the pool before it. */
  function Demand(c: Config, s: State): int {
    BackToFree(QuickLow(c, s.low, QuickHigh(c, s.high)), s.nrFreeDslab) + BackToOps(c, s.opsSize)
  }

  /**
   If nothing is stored between the plan and the lock, a computed quick pass gets past its selection if and only if its
   demand is at most the slabs on the full lists.
   */
  lemma PlanEndsExactlyWhen(c: Config, s: State)
    requires s.gc.GPlan? && Inv(c, s)
    ensures SelectionEnds(c, s) <==> Demand(c, s) <= |OfFamily(s.slabs, FullLists)|
  {
    hide InvSlabs, InvIndex, InvPool, GcNext, OfFamily, Shaped, Demand;
    var l, s' := Advance(c, s);
    PlanOnly(c, s, l, s');
    GcKeeps(c, s, l, s');
    SelectionEndsExactlyWhen(c, s');
    if SelectionEnds(c, s') {
      EndsAfter(c, s, l, s');
    } else if SelectionEnds(c, s) {
      var states: seq<State>, steps: seq<Step> :|
        GcPath(c, states, steps) && states[0] == s && states[|steps|].gc.GEvict?;
      PlanOnly(c, s, steps[0], states[1]);
      EndsLater(c, states, steps);
      assert false;
    }
  }

  lemma EndsLater(c: Config, states: seq<State>, steps: seq<Step>)
    requires GcPath(c, states, steps) && |steps| > 0 && states[|steps|].gc.GEvict?
    ensures SelectionEnds(c, states[1])
  {
    hide GcNext;
    var rest, labels := states[1..], steps[1..];
    forall i | 0 <= i < |labels| ensures !labels[i].GcWakeS? && GcNext(c, rest[i], labels[i], rest[i + 1]) {
      assert !steps[i + 1].GcWakeS? && GcNext(c, states[i + 1], steps[i + 1], states[i + 2]);
    }
    assert GcPath(c, rest, labels) && rest[0] == states[1] && rest[|labels|].gc.GEvict?;
  }

  /** The only step from there computes the demand. */
  lemma PlanOnly(c: Config, s: State, l: Step, s': State)
    requires s.gc.GPlan? && GcNext(c, s, l, s')
    ensures s' == AfterPlan(c, s) && s'.gc.GSelect? && s'.gc.left == Demand(c, s) && s'.slabs == s.slabs
  {
    hide NormalNext, AfterDropOne, AfterSelect, AfterEvict, AfterReturnOps, AfterLose, AfterReturnFree, CheckOpsPool,
         Members, BackToFree, BackToOps, QuickLow, QuickHigh, OffEntries, OffMemory;
    if NormalNext(c, s, l, s') { NormalLeaves(c, s, l, s'); }
  }
}
