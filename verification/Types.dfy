/** The data of the cache engine: configuration, slabs, index locations, thread positions and the shared state. */
module Types {

  type Key = string
  type Value = string

  /** A bucket of the hash table together with the digest stored in an index entry. */
  datatype Tag = Tag(bucket: nat, digest: nat)

  /** Where an index entry points: `slab_id` and `slot_id`. */
  datatype Loc = Loc(sid: nat, slot: nat)

  datatype Rec = Rec(key: Key, value: Value)

  /** The bytes behind a slab header: records laid out `slotSize` bytes apart. */
  datatype Image = Image(slotSize: nat, recs: seq<Rec>)

  /** What start-up fixes. `hash` and `digest` are arbitrary functions: nothing assumes them injective. */
  datatype Config = Config(
    nrMslab: nat,
    block: seq<nat>,          // block id of each disk slab, in sid order
    nrChannels: nat,
    blocksPerChannel: nat,
    slabSize: nat,
    slabHeader: nat,
    slotHeader: nat,
    classes: seq<nat>,        // slot size of each slab class
    nrEntries: nat,
    buckets: nat,
    hash: Key -> nat,
    digest: Key -> nat,
    opsPerChannel: nat,
    maxOps: nat,
    low: nat,
    high: nat,
    lowMin: nat,
    highMax: nat)
  {
    /** Number of slabs, memory and disk together. */
    function Slabs(): nat { nrMslab + |block| }

    /** `gc_buffer_` is the last memory slab. */
    function Buffer(): nat requires nrMslab > 0 { nrMslab - 1 }

    predicate IsDisk(x: nat) { nrMslab <= x < Slabs() }

    function BlockOf(x: nat): nat requires IsDisk(x) { block[x - nrMslab] }

    function Channel(x: nat): nat requires IsDisk(x) && blocksPerChannel > 0 { BlockOf(x) / blocksPerChannel }

    function TagOf(k: Key): Tag requires buckets > 0 { Tag(hash(k) % buckets, digest(k)) }

    /** `nr_slots` of a slab of class `cid`. */
    function SlotsOf(cid: nat): nat
      requires cid < |classes| && classes[cid] > 0 && slabHeader <= slabSize
    { (slabSize - slabHeader) / classes[cid] }

    function RecSize(k: Key, v: Value): nat { slotHeader + |k| + |v| }

    /** Sum of `slots_per_slab` over the first `n` classes, as the start-up check adds it. */
    function MinEntries(n: nat): nat
      requires n <= |classes| && forall i :: 0 <= i < |classes| ==> classes[i] > 0
    { if n == 0 then 0 else MinEntries(n - 1) + slabSize / classes[n - 1] }

    ghost predicate Valid() {
      && nrMslab > 0 && buckets > 0 && blocksPerChannel > 0
      && (forall i :: 0 <= i < |block| ==> block[i] < |block|)
      && (forall i, j :: 0 <= i < j < |block| ==> block[i] != block[j])
      && |block| == nrChannels * blocksPerChannel
      && slabHeader <= slabSize
      && (forall i :: 0 <= i < |classes| ==> 0 < classes[i] <= slabSize - slabHeader)
      && nrEntries >= MinEntries(|classes|)
    }
  }

  /** The intrusive lists a slab's `list` node can be on; `NoList` is a self-linked node. */
  datatype ListId =
    | NoList
    | MslabFree | Partial(cid: nat) | MslabFull
    | DslabFree(channel: nat) | DslabFull(channel: nat) | OpsPool(channel: nat)
    | ToDrop | FreeList(channel: nat)

  /** Auxiliary life-cycle label of a slab. No step reads it to decide anything. */
  datatype Role =
    // memory slabs
    | MFree | Open | Filled | MFull | Flushing | Flushed | BufferIdle | BufferLive
    // disk slabs
    | DFree | Target | TargetWritten | TargetLive | Stored
    | Victim | Evicted | Lost
    | Spare | OpsTaken | OpsLinked | OpsWritten | Source | Drained

  /** `struct Slab` without its data, plus the list its node is on and the auxiliary role. */
  datatype Slab = Slab(cid: int, slotSize: nat, nrAlloc: nat, nrSlots: nat, nrUsed: int, link: ListId, role: Role)
  {
    predicate IsFull() { nrAlloc == nrSlots }

    /** `Slab::reset`. */
    function Reset(): Slab {
      Slab(-1, 0, 0, 0, 0, NoList, role)
    }

    predicate Blank() { cid == -1 && slotSize == 0 && nrAlloc == 0 && nrSlots == 0 && nrUsed == 0 }
  }

  /** A disk slab chosen for compaction, with the `nr_used` that the packing loop read. */
  datatype Pick = Pick(sid: nat, seen: int)

  /** The arguments of `do_quick_gc`, and whether `quick_gc` computed them. */
  datatype Drop = Drop(toFree: int, toOps: int, planned: bool)
  {
    /** How many slabs the pass selects. */
    function Wanted(): nat { Max(toFree + toOps, 0) }
  }

  /** What one normal-GC pass carries between its collections. */
  datatype Pass = Pass(oldOps: int, cid: nat, cands: set<nat>)

  datatype PutPc =
    | PIdle
    | PAlloc(k: Key, v: Value, cid: nat)
    | PSlot(k: Key, v: Value, sid: nat, slot: nat)
    | PWritten(k: Key, v: Value, sid: nat, slot: nat)
    | PWaiting(k: Key, v: Value, sid: nat, slot: nat)
    | PIndexed(sid: nat)

  datatype FlushPc =
    | FIdle
    | FGotM(m: nat)
    | FGotD(m: nat, d: nat, ch: nat)
    | FWritten(m: nat, d: nat, ch: nat)
    | FMoved(m: nat, d: nat, ch: nat)
    | FFreed(d: nat, ch: nat)

  datatype GcPc =
    | GIdle
    | GAwake
    | GSeen(free: int)
    | GPlan
    | GSelect(left: int, drop: Drop)
    | GEvict(drop: Drop, done: set<nat>)
    | GReturnOps(given: nat, drop: Drop)
    | GReturnFree(drop: Drop)
    | GNormal
    | GPack(pass: Pass, picks: seq<Pick>)
    | GTook(pass: Pass, picks: seq<Pick>, ops: nat)
    | GLink(pass: Pass, picks: seq<Pick>, ops: nat, j: nat)
    | GLoad(pass: Pass, picks: seq<Pick>, ops: nat, j: nat, size: int)
    | GMove(pass: Pass, picks: seq<Pick>, ops: nat, j: nat, i: nat, size: int)
    | GWritten(pass: Pass, ops: nat)
    | GRefill(oldOps: int, target: int)
    | GTrim(oldOps: int, left: int)
    | GReturnAll(oldOps: int)

  datatype State = State(
    index: map<Tag, Loc>,
    nrFreeEntry: int,
    slabs: seq<Slab>,
    mem: seq<Image>,          // data of the memory slabs
    disk: seq<Image>,         // the SSD, by block id
    size: map<ListId, int>,   // the `size_` fields
    nrFreeDslab: int,
    nrFullDslab: int,
    opsSize: int,
    low: nat,
    high: nat,
    put: PutPc,
    flush: FlushPc,
    gc: GcPc,
    // history
    latest: map<Key, Value>,  // last published Put of each key not deleted since
    lost: set<nat>,           // disk slabs unlinked by quick GC and put on no list
    quickPasses: nat,
    collections: nat,
    fault: bool)              // an assertion of the program failed, or a list node was linked twice

  function SizeOf(size: map<ListId, int>, l: ListId): int { if l in size then size[l] else 0 }

  function Bump(size: map<ListId, int>, l: ListId, d: int): map<ListId, int> { size[l := SizeOf(size, l) + d] }

  /** The slabs whose node is on list `l`. */
  function Members(slabs: seq<Slab>, l: ListId): set<nat> {
    set x | 0 <= x < |slabs| && slabs[x].link == l
  }

  /** Which family of disk lists a node is on, whatever the channel. */
  datatype Family = Elsewhere | FreeLists | FullLists | Pool | Dropping | Reclaimed

  function FamilyOf(l: ListId): Family {
    match l
    case DslabFree(_) => FreeLists
    case DslabFull(_) => FullLists
    case OpsPool(_) => Pool
    case ToDrop => Dropping
    case FreeList(_) => Reclaimed
    case _ => Elsewhere
  }

  /** The slabs on the lists of family `f`, over all channels. */
  function OfFamily(slabs: seq<Slab>, f: Family): set<nat> {
    set x | 0 <= x < |slabs| && FamilyOf(slabs[x].link) == f
  }

  /** The tags that have an index entry. */
  function Tags(index: map<Tag, Loc>): set<Tag> { set t | t in index }

  /** The tags of the index entries that point into slab `x`. */
  function Live(index: map<Tag, Loc>, x: nat): set<Tag> {
    set t | t in index && index[t].sid == x
  }

  function Min(a: int, b: int): int { if a <= b then a else b }

  function Max(a: int, b: int): int { if a >= b then a else b }

  /** The array sizes never change. */
  ghost predicate Shaped(c: Config, slabs: seq<Slab>, mem: seq<Image>, disk: seq<Image>) {
    && c.Valid()
    && |slabs| == c.Slabs() && |mem| == c.nrMslab && |disk| == |c.block|
  }

  ghost predicate Fits(c: Config, s: State) { Shaped(c, s.slabs, s.mem, s.disk) }

  /** The bytes of slab `x`: its own memory, or its block on the SSD. */
  ghost function ImageOf(c: Config, mem: seq<Image>, disk: seq<Image>, x: nat): Image
    requires c.Valid() && x < c.Slabs() && |mem| == c.nrMslab && |disk| == |c.block|
  {
    if x < c.nrMslab then mem[x] else disk[c.BlockOf(x)]
  }

  /** An index location names a record that the header of its slab lets one decode. */
  ghost predicate Decodes(c: Config, slabs: seq<Slab>, mem: seq<Image>, disk: seq<Image>, l: Loc) {
    && Shaped(c, slabs, mem, disk)
    && l.sid < c.Slabs()
    && l.slot < |ImageOf(c, mem, disk, l.sid).recs|
    && ImageOf(c, mem, disk, l.sid).slotSize == slabs[l.sid].slotSize
  }

  ghost function RecAt(c: Config, slabs: seq<Slab>, mem: seq<Image>, disk: seq<Image>, l: Loc): Rec
    requires Shaped(c, slabs, mem, disk) && Decodes(c, slabs, mem, disk, l)
  {
    ImageOf(c, mem, disk, l.sid).recs[l.slot]
  }

  /** What `get_slice` yields; `Garbage` is a read outside the allocated records or with a foreign slot size. */
  datatype Reply = NotFound | Found(v: Value) | Garbage

  /** `get_slice`, up to the point where it resolves the value. */
  ghost function Lookup(c: Config, s: State, k: Key): Reply {
    if !Fits(c, s) then Garbage
    else
      var t := c.TagOf(k);
      if t !in s.index then NotFound
      else if !Decodes(c, s.slabs, s.mem, s.disk, s.index[t]) then Garbage
      else
        var r := RecAt(c, s.slabs, s.mem, s.disk, s.index[t]);
        if r.key != k then NotFound else Found(r.value)
  }
}
