/** Runs of the protocol: start-up followed by any interleaving of steps. Every state of every run satisfies `Inv`. */
module Runs {
  import opened Types
  import opened Protocol
  import opened Invariant
  import opened Counting
  import PutSteps
  import FlushSteps
  import QuickGcSteps
  import NormalGcSteps

  datatype Step =
    | PutBeginS(k: Key, v: Value) | PutOpenS(x: nat) | PutAllocS(x: nat, junk: Rec) | PutAbortS | PutWriteS
    | PutHitS | PutMissS | PutBlockS | PutWakeS | PutDoneS
    | DeleteS(k: Key, counted: bool)
    | FlushTakeS(x: nat) | FlushTargetS(x: nat, ch: nat) | FlushWriteS | FlushRedirectS | FlushFreeS | FlushStoreS
    | GcWakeS | GcReadS | GcDropOneS | GcChooseQuickS | GcPlanS | GcSelectS(x: nat, ch: nat) | GcSelectedS
    | GcEvictS(x: nat) | GcEvictedS | GcReturnOpsS(x: nat) | GcLoseS(x: nat) | GcReturnedOpsS | GcReturnFreeS(x: nat)
    | GcQuickDoneS
    | GcChooseNormalS | GcScanS(cands: set<nat>) | GcPickS(x: nat) | GcSkipS | GcTakeS(x: nat, ch: nat) | GcTakeNoneS
    | GcLinkOpsS | GcUnlinkS | GcInitS
    | GcLoadS | GcMoveSlotS | GcMoveDoneS | GcWriteS | GcRedirectS | GcTuneS | GcRefillS(x: nat, ch: nat) | GcRefilledS
    | GcTrimS(x: nat, ch: nat) | GcTrimMissS | GcTrimmedS | GcReturnAllS(x: nat, ch: nat) | GcNormalDoneS

  /** The steps that make a Put visible. */
  predicate IsPublish(l: Step) { l.PutHitS? || l.PutMissS? || l.PutWakeS? }

  /** The collector's steps. */
  predicate IsGc(l: Step) {
    && !l.PutBeginS? && !l.PutOpenS? && !l.PutAllocS? && !l.PutAbortS? && !l.PutWriteS? && !l.PutHitS? && !l.PutMissS?
    && !l.PutBlockS? && !l.PutWakeS? && !l.PutDoneS? && !l.DeleteS?
    && !l.FlushTakeS? && !l.FlushTargetS? && !l.FlushWriteS? && !l.FlushRedirectS? && !l.FlushFreeS? && !l.FlushStoreS?
  }

  ghost predicate PutNext(c: Config, s: State, l: Step, s': State) {
    && Fits(c, s)
    && match l
       case PutBeginS(k, v) => PutBegin(c, s, s', k, v)
       case PutOpenS(x) => PutOpen(c, s, s', x)
       case PutAllocS(x, junk) => PutAlloc(c, s, s', x, junk)
       case PutAbortS => PutAbort(c, s, s')
       case PutWriteS => PutWrite(c, s, s')
       case PutHitS => PutHit(c, s, s')
       case PutMissS => PutMiss(c, s, s')
       case PutBlockS => PutBlock(c, s, s')
       case PutWakeS => PutWake(c, s, s')
       case PutDoneS => PutDone(c, s, s')
       case DeleteS(k, counted) => Delete(c, s, s', k, counted)
       case _ => false
  }

  ghost predicate FlushNext(c: Config, s: State, l: Step, s': State) {
    && Fits(c, s)
    && match l
       case FlushTakeS(x) => FlushTake(c, s, s', x)
       case FlushTargetS(x, ch) => FlushTarget(c, s, s', x, ch)
       case FlushWriteS => FlushWrite(c, s, s')
       case FlushRedirectS => FlushRedirect(c, s, s')
       case FlushFreeS => FlushFree(c, s, s')
       case FlushStoreS => FlushStore(c, s, s')
       case _ => false
  }

  ghost predicate QuickNext(c: Config, s: State, l: Step, s': State) {
    && Fits(c, s)
    && match l
       case GcWakeS => GcWake(c, s, s')
       case GcReadS => GcRead(c, s, s')
       case GcDropOneS => GcDropOne(c, s, s')
       case GcChooseQuickS => GcChooseQuick(c, s, s')
       case GcPlanS => GcPlan(c, s, s')
       case GcSelectS(x, ch) => GcSelect(c, s, s', x, ch)
       case GcSelectedS => GcSelected(c, s, s')
       case GcEvictS(x) => GcEvict(c, s, s', x)
       case GcEvictedS => GcEvicted(c, s, s')
       case GcReturnOpsS(x) => GcReturnOps(c, s, s', x)
       case GcLoseS(x) => GcLose(c, s, s', x)
       case GcReturnedOpsS => GcReturnedOps(c, s, s')
       case GcReturnFreeS(x) => GcReturnFree(c, s, s', x)
       case GcQuickDoneS => GcQuickDone(c, s, s')
       case _ => false
  }

  ghost predicate NormalNext(c: Config, s: State, l: Step, s': State) {
    && Fits(c, s)
    && match l
       case GcChooseNormalS => GcChooseNormal(c, s, s')
       case GcScanS(cands) => GcScan(c, s, s', cands)
       case GcPickS(x) => GcPick(c, s, s', x)
       case GcSkipS => GcSkip(c, s, s')
       case GcTakeS(x, ch) => GcTake(c, s, s', x, ch)
       case GcTakeNoneS => GcTakeNone(c, s, s')
       case GcLinkOpsS => GcLinkOps(c, s, s')
       case GcUnlinkS => GcUnlink(c, s, s')
       case GcInitS => GcInit(c, s, s')
       case GcLoadS => GcLoad(c, s, s')
       case GcMoveSlotS => GcMoveSlot(c, s, s')
       case GcMoveDoneS => GcMoveDone(c, s, s')
       case GcWriteS => GcWrite(c, s, s')
       case GcRedirectS => GcRedirect(c, s, s')
       case GcTuneS => GcTune(c, s, s')
       case GcRefillS(x, ch) => GcRefill(c, s, s', x, ch)
       case GcRefilledS => GcRefilled(c, s, s')
       case GcTrimS(x, ch) => GcTrim(c, s, s', x, ch)
       case GcTrimMissS => GcTrimMiss(c, s, s')
       case GcTrimmedS => GcTrimmed(c, s, s')
       case GcReturnAllS(x, ch) => GcReturnAll(c, s, s', x, ch)
       case GcNormalDoneS => GcNormalDone(c, s, s')
       case _ => false
  }

  ghost predicate Next(c: Config, s: State, l: Step, s': State) {
    PutNext(c, s, l, s') || FlushNext(c, s, l, s') || QuickNext(c, s, l, s') || NormalNext(c, s, l, s')
  }

  // ---------- what a thread leaves alone ----------

  /** The disk, the counters of disk slabs, and the other threads are as before. */
  predicate OffDisk(s: State, s': State) {
    && s'.disk == s.disk && s'.nrFreeDslab == s.nrFreeDslab && s'.nrFullDslab == s.nrFullDslab
    && s'.opsSize == s.opsSize && s'.low == s.low && s'.high == s.high && s'.flush == s.flush && s'.gc == s.gc
    && s'.lost == s.lost && s'.quickPasses == s.quickPasses && s'.collections == s.collections
  }

  /** Without a free entry, a Put gets none, and one that waits takes no step. */
  predicate Entryless(s: State, l: Step, s': State) {
    s.nrFreeEntry == 0 && !l.DeleteS? ==> s'.nrFreeEntry == 0 && !s.put.PWaiting?
  }

  /** The steps of Put that take a slot or hand over a slab. */
  lemma SlotLeaves(c: Config, s: State, l: Step, s': State)
    requires PutNext(c, s, l, s') && (l.PutOpenS? || l.PutAllocS? || l.PutDoneS?)
    ensures OffDisk(s, s') && Entryless(s, l, s') && s'.latest == s.latest
  {
    hide Members, Bump, AppendRec, ClassFor, WriteRec, PutHit, PutMiss, PutWake, Delete, Insert, Shaped;
  }

  lemma EntryLeaves(c: Config, s: State, l: Step, s': State)
    requires PutNext(c, s, l, s') && !l.PutOpenS? && !l.PutAllocS? && !l.PutDoneS?
    ensures OffDisk(s, s') && Entryless(s, l, s') && !IsGc(l)
    ensures !IsPublish(l) && !l.DeleteS? ==> s'.latest == s.latest
  {
    hide Members, ClassFor, WriteRec, PutOpen, PutAlloc, PutDone;
  }

  /** The writer and the deleting clients. */
  lemma PutLeaves(c: Config, s: State, l: Step, s': State)
    requires PutNext(c, s, l, s')
    ensures OffDisk(s, s') && Entryless(s, l, s') && !IsGc(l)
    ensures !IsPublish(l) && !l.DeleteS? ==> s'.latest == s.latest
  {
    hide PutNext, OffDisk, Entryless;
    if l.PutOpenS? || l.PutAllocS? || l.PutDoneS? { SlotLeaves(c, s, l, s'); } else { EntryLeaves(c, s, l, s'); }
  }

  /** The flusher: memory, free entries, the pool, the water marks, and the other threads. */
  lemma FlushLeaves(c: Config, s: State, l: Step, s': State)
    requires FlushNext(c, s, l, s')
    ensures s'.mem == s.mem && s'.nrFreeEntry == s.nrFreeEntry && s'.put == s.put && s'.latest == s.latest
    ensures s'.opsSize == s.opsSize && s'.low == s.low && s'.high == s.high && s'.gc == s.gc
    ensures !IsPublish(l) && !l.DeleteS?
    ensures s'.lost == s.lost && s'.quickPasses == s.quickPasses && s'.collections == s.collections && !IsGc(l)
    ensures s'.nrFreeDslab <= s.nrFreeDslab && (s.flush.FGotM? ==> s'.nrFreeDslab == s.nrFreeDslab - 1)
    ensures s.flush.FIdle? ==> l.FlushTakeS?
  {
    hide Members, OfFamily, Redirected, RedirectIndex, CopyHeader, Bump, Shaped;
  }

  /** All bytes, the published values, the number of collections, and the other threads are as before. */
  predicate OffBytes(s: State, s': State) {
    && s'.mem == s.mem && s'.disk == s.disk && s'.put == s.put && s'.flush == s.flush && s'.latest == s.latest
    && s'.collections == s.collections
  }

  /** Within `do_quick_gc`. */
  predicate InDrop(g: GcPc) { g.GSelect? || g.GEvict? || g.GReturnOps? || g.GReturnFree? }

  /** Where quick GC, and where normal GC, takes a step. */
  predicate QuickAt(g: GcPc) { !g.GNormal? && !NormalPass(g) }

  predicate NormalAt(g: GcPc) { !g.GIdle? && !g.GAwake? && !g.GPlan? && !InDrop(g) }

  /** The steps that enter `do_quick_gc`. */
  predicate StartsDrop(l: Step) { l.GcDropOneS? || l.GcPlanS? }

  /** The steps of quick GC that touch a slab. */
  predicate DropsSlab(l: Step) { l.GcSelectS? || l.GcEvictS? || l.GcReturnOpsS? || l.GcLoseS? || l.GcReturnFreeS? }

  lemma DropLeaves(c: Config, s: State, l: Step, s': State)
    requires QuickNext(c, s, l, s') && DropsSlab(l)
    ensures OffBytes(s, s') && InDrop(s.gc) && InDrop(s'.gc) && s'.gc.drop == s.gc.drop
    ensures s'.gc.GReturnFree? <==> s.gc.GReturnFree? || l.GcLoseS?
    ensures s'.low == s.low && s'.high == s.high && (!l.GcLoseS? ==> s'.lost == s.lost)
  {
    hide StoredTags, Bump, Shaped, GcDropOne, GcPlan, GcQuickDone, GcEvicted, GcReturnedOps;
  }

  lemma TurnLeaves(c: Config, s: State, l: Step, s': State)
    requires QuickNext(c, s, l, s') && !DropsSlab(l)
    ensures OffBytes(s, s') && s'.slabs == s.slabs && s'.index == s.index && s'.nrFreeEntry == s.nrFreeEntry
    ensures s'.nrFreeDslab == s.nrFreeDslab && s'.nrFullDslab == s.nrFullDslab && s'.opsSize == s.opsSize
    ensures s'.lost == s.lost && (!l.GcPlanS? ==> s'.low == s.low && s'.high == s.high)
    ensures QuickAt(s.gc) && QuickAt(s'.gc) && !IsPublish(l) && !l.DeleteS?
  {
    hide Members, CheckOpsPool, OpsInBounds, QuickLow, QuickHigh, BackToFree, BackToOps, Shaped, GcSelect, GcEvict,
         GcReturnOps, GcLose, GcReturnFree;
  }

  lemma QuickLeaves(c: Config, s: State, l: Step, s': State)
    requires QuickNext(c, s, l, s')
    ensures OffBytes(s, s') && (!l.GcLoseS? ==> s'.lost == s.lost) && !IsPublish(l) && !l.DeleteS?
    ensures !l.GcPlanS? ==> s'.low == s.low && s'.high == s.high
    ensures QuickAt(s.gc) && QuickAt(s'.gc)
  {
    hide QuickNext, OffBytes;
    if DropsSlab(l) { DropLeaves(c, s, l, s'); } else { TurnLeaves(c, s, l, s'); }
  }

  /** Free entries, the published values, the lost slabs, and the other threads are as before. */
  predicate OffEntries(s: State, s': State) {
    && s'.nrFreeEntry == s.nrFreeEntry && s'.put == s.put && s'.flush == s.flush && s'.latest == s.latest
    && s'.lost == s.lost && s'.quickPasses == s.quickPasses
  }

  /** The memory slabs before `gc_buffer_` are as before. */
  predicate OffMemory(c: Config, s: State, s': State) {
    && |s'.slabs| == |s.slabs| && |s'.mem| == |s.mem|
    && forall x :: 0 <= x < c.nrMslab - 1 && x < |s.slabs| && x < |s.mem| ==>
                   s'.slabs[x] == s.slabs[x] && s'.mem[x] == s.mem[x]
  }

  /** The positions from which the current pass can still collect. */
  predicate MayCollect(g: GcPc) {
    g.GAwake? || g.GSeen? || g.GNormal? || g.GPack? || g.GLink? || g.GLoad? || g.GMove? || g.GWritten?
  }

  /** The collections so far, with those that the pool still lets the current pass make. */
  function Allowance(s: State): int {
    s.collections + if MayCollect(s.gc) then s.opsSize else if s.gc.GTook? then s.opsSize + 1 else 0
  }

  ghost predicate NormalFrame(c: Config, s: State, l: Step, s': State) {
    && OffEntries(s, s') && OffMemory(c, s, s') && !IsPublish(l) && !l.DeleteS? && !StartsDrop(l)
    && (!l.GcTuneS? ==> s'.low == s.low && s'.high == s.high)
    && (!l.GcUnlinkS? ==> s'.nrFullDslab == s.nrFullDslab)
    && s'.collections == s.collections + (if l.GcLinkOpsS? then 1 else 0)
    && (s.opsSize >= 0 ==> Allowance(s') <= Allowance(s) && s'.collections <= Allowance(s))
    && NormalAt(s.gc) && (s.gc.GSeen? ==> s.nrFreeEntry != 0)
    && !s'.gc.GAwake? && !s'.gc.GSeen? && !s'.gc.GPlan? && !InDrop(s'.gc)
  }

  /** The steps that choose what to collect. */
  predicate IsChoosing(l: Step) {
    l.GcChooseNormalS? || l.GcScanS? || l.GcPickS? || l.GcSkipS? || l.GcTakeS? || l.GcTuneS?
  }

  /** The steps of a collection, but for its moves. */
  predicate IsCollecting(l: Step) {
    l.GcLinkOpsS? || l.GcUnlinkS? || l.GcInitS? || l.GcLoadS? || l.GcWriteS? || l.GcRedirectS?
  }

  lemma ChooseLeaves(c: Config, s: State, l: Step, s': State)
    requires NormalNext(c, s, l, s') && IsChoosing(l)
    ensures NormalFrame(c, s, l, s')
  {
    hide OfFamily, SeenSum, Bump, GcLinkOps, GcUnlink, GcInit, GcLoad, GcMoveSlot, GcMoveDone, GcWrite,
         GcRedirect, GcRefill, GcTrim, GcReturnAll, GcNormalDone;
  }

  lemma CollectLeaves(c: Config, s: State, l: Step, s': State)
    requires NormalNext(c, s, l, s') && IsCollecting(l)
    ensures NormalFrame(c, s, l, s')
  {
    hide OfFamily, SeenSum, Bump, CopyHeader, Redirected, RedirectIndex, GcScan, GcPick, GcTake, GcMoveSlot, GcMoveDone,
         GcTune,
         GcRefill, GcTrim, GcReturnAll, GcNormalDone;
  }

  lemma MoveLeaves(c: Config, s: State, l: Step, s': State)
    requires NormalNext(c, s, l, s') && (l.GcMoveSlotS? || l.GcMoveDoneS?)
    ensures NormalFrame(c, s, l, s')
  {
    hide AppendRec, GcScan, GcPick, GcTake, GcLinkOps, GcUnlink, GcInit, GcLoad, GcWrite, GcRedirect, GcTune, GcRefill,
         GcTrim, GcReturnAll, GcNormalDone;
  }

  lemma EndLeaves(c: Config, s: State, l: Step, s': State)
    requires NormalNext(c, s, l, s') && !IsChoosing(l) && !IsCollecting(l) && !l.GcMoveSlotS? && !l.GcMoveDoneS?
    ensures NormalFrame(c, s, l, s')
  {
    hide OfFamily, CheckOpsPool, Bump, GcScan, GcPick, GcTake, GcLinkOps, GcUnlink, GcInit, GcLoad, GcMoveSlot,
         GcMoveDone, GcWrite, GcRedirect, GcTune;
  }

  lemma NormalLeaves(c: Config, s: State, l: Step, s': State)
    requires NormalNext(c, s, l, s')
    ensures NormalFrame(c, s, l, s')
  {
    hide NormalNext, NormalFrame;
    if IsChoosing(l) { ChooseLeaves(c, s, l, s'); }
    else if IsCollecting(l) { CollectLeaves(c, s, l, s'); }
    else if l.GcMoveSlotS? || l.GcMoveDoneS? { MoveLeaves(c, s, l, s'); }
    else { EndLeaves(c, s, l, s'); }
  }

  // ---------- every step keeps the invariant ----------

  lemma SlotKeeps(c: Config, s: State, l: Step, s': State)
    requires Inv(c, s) && PutNext(c, s, l, s') && !IsPublish(l) && !l.DeleteS?
    ensures Inv(c, s')
  {
    hide Inv, PutBegin, PutOpen, PutAlloc, PutAbort, PutWrite, PutHit, PutMiss, PutBlock, PutWake, PutDone, Delete;
    match l
    case PutBeginS(k, v) => PutSteps.KeepsPutBegin(c, s, s', k, v);
    case PutOpenS(x) => PutSteps.KeepsPutOpen(c, s, s', x);
    case PutAllocS(x, junk) => PutSteps.KeepsPutAlloc(c, s, s', x, junk);
    case PutAbortS => PutSteps.KeepsPutBegin(c, s, s', "", "");
    case PutWriteS => PutSteps.KeepsPutWrite(c, s, s');
    case PutBlockS => PutSteps.KeepsPutBlock(c, s, s');
    case PutDoneS => PutSteps.KeepsPutDone(c, s, s');
  }

  lemma EntryKeeps(c: Config, s: State, l: Step, s': State)
    requires Inv(c, s) && PutNext(c, s, l, s') && (IsPublish(l) || l.DeleteS?)
    ensures Inv(c, s')
  {
    hide Inv, PutBegin, PutOpen, PutAlloc, PutAbort, PutWrite, PutHit, PutMiss, PutBlock, PutWake, PutDone, Delete;
    match l
    case PutHitS => PutSteps.KeepsPutHit(c, s, s');
    case PutMissS => PutSteps.KeepsInsert(c, s, s');
    case PutWakeS => PutSteps.KeepsInsert(c, s, s');
    case DeleteS(k, counted) => PutSteps.KeepsDelete(c, s, s', k, counted);
  }

  lemma PutKeeps(c: Config, s: State, l: Step, s': State)
    requires Inv(c, s) && PutNext(c, s, l, s')
    ensures Inv(c, s')
  {
    hide Inv, PutNext;
    if IsPublish(l) || l.DeleteS? { EntryKeeps(c, s, l, s'); } else { SlotKeeps(c, s, l, s'); }
  }

  lemma FlushKeeps(c: Config, s: State, l: Step, s': State)
    requires Inv(c, s) && FlushNext(c, s, l, s')
    ensures Inv(c, s')
  {
    hide Inv, FlushTake, FlushTarget, FlushWrite, FlushRedirect, FlushFree, FlushStore;
    match l
    case FlushTakeS(x) => FlushSteps.KeepsFlushTake(c, s, s', x);
    case FlushTargetS(x, ch) => FlushSteps.KeepsFlushTarget(c, s, s', x, ch);
    case FlushWriteS => FlushSteps.KeepsFlushWrite(c, s, s');
    case FlushRedirectS => FlushSteps.KeepsFlushRedirect(c, s, s');
    case FlushFreeS => FlushSteps.KeepsFlushFree(c, s, s');
    case FlushStoreS => FlushSteps.KeepsFlushStore(c, s, s');
  }

  lemma QuickKeeps(c: Config, s: State, l: Step, s': State)
    requires Inv(c, s) && QuickNext(c, s, l, s')
    ensures Inv(c, s')
  {
    hide Inv, GcWake, GcRead, GcDropOne, GcChooseQuick, GcPlan, GcSelect, GcSelected, GcEvict, GcEvicted, GcReturnOps,
         GcLose, GcReturnedOps, GcReturnFree, GcQuickDone;
    match l
    case GcWakeS => QuickGcSteps.KeepsGcTurn(c, s, s');
    case GcReadS => QuickGcSteps.KeepsGcTurn(c, s, s');
    case GcDropOneS => QuickGcSteps.KeepsGcDropOne(c, s, s');
    case GcChooseQuickS => QuickGcSteps.KeepsGcTurn(c, s, s');
    case GcPlanS => QuickGcSteps.KeepsGcPlan(c, s, s');
    case GcSelectS(x, ch) => QuickGcSteps.KeepsGcSelect(c, s, s', x, ch);
    case GcSelectedS => QuickGcSteps.KeepsGcTurn(c, s, s');
    case GcEvictS(x) => QuickGcSteps.KeepsGcEvict(c, s, s', x);
    case GcEvictedS => QuickGcSteps.KeepsGcEvicted(c, s, s');
    case GcReturnOpsS(x) => QuickGcSteps.KeepsGcReturnOps(c, s, s', x);
    case GcLoseS(x) => QuickGcSteps.KeepsGcLose(c, s, s', x);
    case GcReturnedOpsS => QuickGcSteps.KeepsGcReturnedOps(c, s, s');
    case GcReturnFreeS(x) => QuickGcSteps.KeepsGcReturnFree(c, s, s', x);
    case GcQuickDoneS => QuickGcSteps.KeepsGcQuickDone(c, s, s');
  }

  lemma NormalKeeps(c: Config, s: State, l: Step, s': State)
    requires Inv(c, s) && NormalNext(c, s, l, s')
    ensures Inv(c, s')
  {
    hide InvSlabs, InvIndex, InvPool, GcChooseNormal, GcScan, GcPick, GcSkip, GcTake, GcLinkOps, GcUnlink, GcInit,
         GcLoad, GcMoveSlot,
         GcMoveDone, GcWrite, GcRedirect, GcTune, GcRefill, GcRefilled, GcTrim, GcTrimMiss, GcTrimmed, GcReturnAll,
         GcNormalDone;
    match l
    case GcChooseNormalS => NormalGcSteps.KeepsGcTurn(c, s, s');
    case GcScanS(cands) => NormalGcSteps.KeepsGcScan(c, s, s', cands);
    case GcPickS(x) => NormalGcSteps.KeepsGcPick(c, s, s', x);
    case GcSkipS => NormalGcSteps.KeepsGcSkip(c, s, s');
    case GcTakeS(x, ch) => NormalGcSteps.KeepsGcTake(c, s, s', x, ch);
    case GcTakeNoneS => NormalGcSteps.SpareThere(c, s); assert false;
    case GcLinkOpsS => NormalGcSteps.KeepsGcLinkOps(c, s, s');
    case GcUnlinkS => NormalGcSteps.KeepsGcUnlink(c, s, s');
    case GcInitS => NormalGcSteps.KeepsGcInit(c, s, s');
    case GcLoadS => NormalGcSteps.KeepsGcLoad(c, s, s');
    case GcMoveSlotS => NormalGcSteps.KeepsGcMoveSlot(c, s, s');
    case GcMoveDoneS => NormalGcSteps.KeepsGcMoveDone(c, s, s');
    case GcWriteS => NormalGcSteps.KeepsGcWrite(c, s, s');
    case GcRedirectS => NormalGcSteps.KeepsGcRedirect(c, s, s');
    case GcTuneS => NormalGcSteps.KeepsGcTune(c, s, s');
    case GcRefillS(x, ch) => NormalGcSteps.KeepsGcRefill(c, s, s', x, ch);
    case GcRefilledS => NormalGcSteps.KeepsGcTurn(c, s, s');
    case GcTrimS(x, ch) => NormalGcSteps.KeepsGcTrim(c, s, s', x, ch);
    case GcTrimMissS => NormalGcSteps.KeepsGcTurn(c, s, s');
    case GcTrimmedS => NormalGcSteps.KeepsGcTurn(c, s, s');
    case GcReturnAllS(x, ch) => NormalGcSteps.KeepsGcReturnAll(c, s, s', x, ch);
    case GcNormalDoneS => NormalGcSteps.KeepsGcNormalDone(c, s, s');
  }

  /** Whatever thread moves, the invariant holds afterwards. */
  lemma NextKeeps(c: Config, s: State, l: Step, s': State)
    requires Inv(c, s) && Next(c, s, l, s')
    ensures Inv(c, s')
  {
    hide Inv, PutNext, FlushNext, QuickNext, NormalNext;
    if PutNext(c, s, l, s') { PutKeeps(c, s, l, s'); }
    else if FlushNext(c, s, l, s') { FlushKeeps(c, s, l, s'); }
    else if QuickNext(c, s, l, s') { QuickKeeps(c, s, l, s'); }
    else { NormalKeeps(c, s, l, s'); }
  }

  // ---------- start-up ----------

  /** `max_ops_pool_size_` is what start-up put in the pool, and the collector needs a pool. */
  ghost predicate Bootable(c: Config) {
    c.Valid() && c.maxOps == |OfFamily(BootSlabs(c), Pool)| > 0
  }

  /**
   Start-up leaves the pool non-empty exactly when the SSD has a block and the pool's share of a channel is not zero.
   */
  lemma PoolAtBoot(c: Config)
    requires c.Valid()
    ensures |OfFamily(BootSlabs(c), Pool)| > 0 <==> c.opsPerChannel > 0 && |c.block| > 0
  {
    hide RankInChannel;
    var slabs := BootSlabs(c);
    forall x | 0 <= x < c.Slabs() ensures slabs[x] == BootSlab(c, x) { }
    if c.opsPerChannel > 0 && |c.block| > 0 {
      FirstInChannel(c);
      assert c.nrMslab in OfFamily(slabs, Pool);
    } else {
      assert OfFamily(slabs, Pool) == {};
    }
  }

  lemma FirstInChannel(c: Config)
    requires c.Valid() && |c.block| > 0
    ensures RankInChannel(c, c.nrMslab) == 0
  {
    assert EarlierInChannel(c, c.nrMslab) == {};
  }

  lemma BootSlabOk(c: Config, x: nat, img: Image)
    requires c.Valid() && x < c.Slabs()
    ensures SlabOk(c, x, BootSlab(c, x), img)
    ensures var r := BootSlab(c, x).role; r.MFree? || r.BufferIdle? || r.Spare? || r.DFree?
  {
    hide RankInChannel;
  }

  lemma BootSlabsOk(c: Config)
    requires Bootable(c)
    ensures InvSlabs(c, Boot(c))
  {
    hide BootSlab, OfFamily, Members;
    var s := Boot(c);
    forall x | 0 <= x < c.Slabs()
      ensures SlabOk(c, x, s.slabs[x], ImageOf(c, s.mem, s.disk, x))
      ensures var r := s.slabs[x].role; r.MFree? || r.BufferIdle? || r.Spare? || r.DFree?
    {
      BootSlabOk(c, x, ImageOf(c, s.mem, s.disk, x));
    }
  }

  lemma BootSizes(c: Config)
    requires Bootable(c)
    ensures InvPool(c, Boot(c))
  {
    hide RankInChannel;
    var s := Boot(c);
    forall l | Counted(l) ensures SizeOf(s.size, l) == |Members(s.slabs, l)| {
      if l !in s.size {
        forall x | 0 <= x < |s.slabs| ensures s.slabs[x].link != l {
          assert s.slabs[x] == BootSlab(c, x);
          if c.IsDisk(x) { ChannelBound(c, x); }
        }
        assert Members(s.slabs, l) == {};
      }
    }
    forall x | 0 <= x < |s.slabs| ensures FamilyOf(s.slabs[x].link) != FullLists {
      assert s.slabs[x] == BootSlab(c, x);
    }
    assert OfFamily(s.slabs, FullLists) == {};
  }

  lemma BootInv(c: Config)
    requires Bootable(c)
    ensures Inv(c, Boot(c))
  {
    hide InvPool, InvSlabs, BootSlabs, OfFamily, Members;
    BootSlabsOk(c);
    BootSizes(c);
    BootIndex(c, Boot(c));
  }

  lemma BootIndex(c: Config, s: State)
    requires InvSlabs(c, s) && s.index == map[] && s.nrFreeEntry == c.nrEntries && s.put.PIdle? && s.gc.GIdle?
    ensures InvIndex(c, s)
  {
    hide OneOpen, PutOk, FlushOk, InvGc;
    forall x | 0 <= x < |s.slabs| ensures |Live(s.index, x)| + Pending(s.put, x) <= s.slabs[x].nrUsed {
      assert Live(s.index, x) == {};
      assert SlabOk(c, x, s.slabs[x], ImageOf(c, s.mem, s.disk, x));
    }
  }

  // ---------- runs ----------

  ghost predicate IsRun(c: Config, states: seq<State>, steps: seq<Step>) {
    && Bootable(c)
    && |states| == |steps| + 1
    && states[0] == Boot(c)
    && forall i :: 0 <= i < |steps| ==> Next(c, states[i], steps[i], states[i + 1])
  }

  // ---------- where runs lead ----------

  /**
   Where steps start, and which are taken. `Whole`: from start-up, any. `From`: from `start`, none of them a Delete, and
   until an index entry is free; selections take slabs in `order`, if it is given.
   */
  datatype Trail = Whole | From(start: State, order: seq<nat>)

  /** Of the slabs in `order` that are still full, `x` comes first. */
  predicate InOrder(order: seq<nat>, slabs: seq<Slab>, x: nat) {
    exists i :: 0 <= i < |order| && order[i] == x
                && forall j :: 0 <= j < i && order[j] < |slabs| ==> !slabs[order[j]].link.DslabFull?
  }

  predicate Allows(t: Trail, s: State, l: Step) {
    t.From? ==>
      && !l.DeleteS? && s.nrFreeEntry == 0
      && (l.GcSelectS? && t.order != [] ==> InOrder(t.order, s.slabs, l.x))
  }

  ghost predicate Starts(c: Config, t: Trail, s: State) {
    if t.Whole? then Bootable(c) && s == Boot(c) else s == t.start
  }

  /** After `n` steps. */
  ghost predicate LeadsIn(c: Config, t: Trail, n: nat, s: State) {
    if n == 0 then Starts(c, t, s)
    else exists r: State, l: Step :: LeadsIn(c, t, n - 1, r) && Allows(t, r, l) && Next(c, r, l, s)
  }

  ghost predicate Leads(c: Config, t: Trail, s: State) { exists n: nat :: LeadsIn(c, t, n, s) }

  /** Some run ends in `s`. */
  ghost predicate Reachable(c: Config, s: State) { Leads(c, Whole, s) }

  ghost predicate Sound(c: Config, t: Trail) { t.From? ==> Inv(c, t.start) }

  lemma {:induction false} LeadsInInv(c: Config, t: Trail, n: nat, s: State)
    requires Sound(c, t) && LeadsIn(c, t, n, s)
    ensures Inv(c, s)
  {
    hide Inv, Next, Boot, Bootable, Allows;
    if n > 0 {
      var r: State, l: Step :| LeadsIn(c, t, n - 1, r) && Allows(t, r, l) && Next(c, r, l, s);
      LeadsInInv(c, t, n - 1, r);
      NextKeeps(c, r, l, s);
    } else if t.Whole? {
      BootInv(c);
    }
  }

  lemma LeadsInv(c: Config, t: Trail, s: State)
    requires Sound(c, t) && Leads(c, t, s)
    ensures Inv(c, s)
  {
    hide LeadsIn, Inv;
    var n: nat :| LeadsIn(c, t, n, s);
    LeadsInInv(c, t, n, s);
  }

  lemma LeadsStart(c: Config, t: Trail, s: State)
    requires Starts(c, t, s)
    ensures Leads(c, t, s)
  {
    hide Starts, Next;
    assert LeadsIn(c, t, 0, s);
  }

  lemma ExtendBy(c: Config, t: Trail, s: State, l: Step, s': State)
    requires Leads(c, t, s) && Next(c, s, l, s') && Allows(t, s, l)
    ensures Leads(c, t, s')
  {
    hide Next, Starts, Allows;
    var n: nat :| LeadsIn(c, t, n, s);
    assert LeadsIn(c, t, n + 1, s');
  }

  lemma Extend(c: Config, s: State, l: Step, s': State)
    requires Reachable(c, s) && Next(c, s, l, s')
    ensures Reachable(c, s')
  {
    hide Leads, Next;
    ExtendBy(c, Whole, s, l, s');
  }

  /** Every state of a run is reachable. */
  lemma {:induction false} RunReaches(c: Config, states: seq<State>, steps: seq<Step>, n: nat)
    requires IsRun(c, states, steps) && n < |states|
    ensures Reachable(c, states[n])
  {
    hide Leads, Next, Boot, Bootable;
    if n == 0 {
      LeadsStart(c, Whole, states[0]);
    } else {
      RunReaches(c, states, steps, n - 1);
      Extend(c, states[n - 1], steps[n - 1], states[n]);
    }
  }

  /** And a reachable state is the last state of some run. */
  lemma {:induction false} RunTo(c: Config, n: nat, s: State) returns (states: seq<State>, steps: seq<Step>)
    requires LeadsIn(c, Whole, n, s)
    ensures IsRun(c, states, steps) && states[|steps|] == s
  {
    hide Next, Boot, Bootable;
    if n == 0 {
      states, steps := [s], [];
    } else {
      var r: State, l: Step :| LeadsIn(c, Whole, n - 1, r) && Next(c, r, l, s);
      states, steps := RunTo(c, n - 1, r);
      states, steps := states + [s], steps + [l];
    }
  }

  lemma RunInv(c: Config, states: seq<State>, steps: seq<Step>, n: nat)
    requires IsRun(c, states, steps) && n < |states|
    ensures Inv(c, states[n])
  {
    hide IsRun, Leads, Inv;
    RunReaches(c, states, steps, n);
    LeadsInv(c, Whole, states[n]);
  }
}
