# Model of a slab-based flash cache

The cache keeps key/value pairs in fixed-size slots of slabs. A writer fills open memory slabs, a flusher copies full
memory slabs to disk slabs and redirects the index, a collector either drops whole disk slabs (quick GC) or compacts the
live slots of several into one spare slab (normal GC), and readers and deleters use the same index. This project states
and proves what these threads keep together.

## How it is built

- `Types`, `Protocol`: the shared state and its steps, one locked section of the program or a part of one for each step.
  Splitting a section only adds interleavings; the one step that joins several, the scan of the full lists channel by
  channel, yields any set of slabs that are still full at its end, since only the collector takes slabs off those lists.
  Hash and digest are arbitrary functions, the SSD is an array of blocks.
  The flag `fault` records a failed assertion of the program, a node linked twice, or a second entry for a tag.
- `Invariant`, `Counting`, `Frames`, `GcFrames`: the inductive invariant and how it survives a change of one slab.
- `PutSteps`, `FlushSteps`, `QuickGcSteps`, `NormalGcSteps`: one lemma for each step.
- `Runs`: start-up, runs, the invariant over every run, and what a stretch of a run can lead to. `StartUp`: what each
  channel gets. `View`: the refinement to a plain map. `Safety`, `Space`, `Usage`, `Pressure`: the results. `Witness`: a
  configuration and a run that exist.
- `Progress`: which steps the collector can take, and why its passes end. `Waits`: where the others wait.
  `Collector`: what its two slips cost over whole runs. `Recovery`: when a waiting Put can get an entry at all. `Stalls`:
  when it does, by the order of the full lists. `Stretches`, `Failures`: runs in which things go wrong.
- `IndexTable`, `DiskPools`, `Victims`, `IntrusiveList`, `RingLists`, `SlotLayout`: the imperative parts,
  with the program's loops.
  `IndexTable` proves that the chained hash table computes the very map functions that the steps of `Protocol` use;
  `DiskPools` needs the supply that `Space` proves to be there; `Bridge` takes the choice of `Victims` to a step.

`role`, `planned`, `latest`, `lost`, `quickPasses`, `collections` and `fault` are history: no step reads them to decide
anything.
`latest` is tied to the run itself by `Safety.LatestIsLast`.

## What the proofs show about the program

- `gc_dslabs` links the spare slab as full without raising `nr_full_dslab_` (src/kvcache.cpp:1096-1103). The counter
  therefore falls behind the full lists by one with each collection (`Space.FullCountDrift`), and in its whole life the
  program makes fewer collections than it has blocks (`Collector.CollectionsBounded`). Once the collector sleeps and
  collections, pool and lost slabs add up to the blocks, it never wakes again (`Collector.CollectorStops`); with no free
  disk slab left it can wake if and only if the sum is smaller (`Collector.WakesWhenNeeded`). `Failures.FullAndAsleep` is
  a run that leaves a full slab behind a collector that cannot wake.
- `do_quick_gc` unlinks a slab before it tests whether to stop (src/kvcache.cpp:771-779): a pass loses one slab for good
  if and only if it was to free some (`Collector.QuickPassLoses`), so `do_quick_gc(1, 0)` (src/kvcache.cpp:688) always
  loses the slab it drops, and there are fewer such passes than blocks in any run (`Collector.LosingPassesBounded`).
  `Failures.LoseOnce` is such a run, and `Failures.Deadlock` continues it until the collector, the flusher and a Put wait.
- A Put that finds no free index entry asks for a flush and a collection and waits (src/kvcache.cpp:291-302). Between
  passes, some choice of the slabs that are flushed and dropped gets it an entry without a Delete if and only if the
  flusher can still fill more disk slabs than there were collections and one of them stores a key with an entry
  (`Recovery.RecoversExactlyWhen`); with nothing to flush this is `full > collections` (`Recovery.QuietExactlyWhen`).
  `Failures.Stall` is a run that fails it with almost all disk slabs free: the slab that holds the entry is one that
  compaction linked and nobody counted.
- The program does not choose: `do_quick_gc(1, 0)` drops the slab at the front of the next channel, the one linked last
  (src/kvcache.cpp:740-748). With nothing to flush, the collector gets to drop `full - collections` slabs, and the Put
  gets an entry if and only if one of these stores a key with an entry (`Stalls.OrderExactlyWhen` for any order,
  `Stalls.ProgramExactlyWhen` for the program's). One of the two outcomes comes within `9 * (full - collections)` steps
  (`Stalls.EndsInTime`, `Stalls.GoesOn`). So it is safe whatever the order if and only if fewer full slabs than
  that store no key with an entry (`Stalls.StallsExactlyWhen`), and lost whatever the order if and only if
  `full <= collections` (`Stalls.SomeOrderExactlyWhen`). In between the order decides: `Failures.LastLinkedStalls` is a run
  where some order frees an entry and the program's own leaves the Put waiting.
- The selection loop of `do_quick_gc` (src/kvcache.cpp:738-751) ends if and only if the full lists hold the demand when it
  starts (`Progress.SelectionEndsExactlyWhen`, `Progress.PlanEndsExactlyWhen`). It is the only place where a pass can get
  stuck (`Progress.StuckExactlyWhen`); `Failures.SelectionStarves` reaches it.
- The refill loop leaves the `size_` of the pass's own free list too large (src/kvcache.cpp:999-1006); nothing reads it
  afterwards.
- `evict_dslab` deletes by key wherever the entry points, and the decrement in `Delete` sits in an `assert`, so a slab's
  `nr_used` may exceed its live entries: by exactly those deletions, until a redirect or a reset (`Usage.UseCounts`).
- The trim loop looks at one channel for each slab (src/kvcache.cpp:1010-1024): a pool that is to shrink keeps its size
  when that channel has no spare slab (`DiskPools.Pools.EndPass`, `Pressure.PassShrinks`).
- The constructor lacks a closing brace (src/kvcache.cpp:190-192) and is read as closed.

A configuration is valid (`Config.Valid`) if there is a memory slab for `gc_buffer_`, blocks are paired with distinct disk
slabs, every slot size fits in a slab, and the start-up check on index entries passes; a bootable one also has a pool,
which the collector asserts (src/kvcache.cpp:729).

## Model

| member | source | states |
|---|---|---|
| Safety.NoStaleReads | src/kvcache.cpp:194-227 | In every run, for arbitrary hash and digest functions, a value that lookup resolves for k was published by a Put(k) after which no Put(k) was published and no Delete(k) happened; no lookup decodes bytes outside written records |
| View.StepEffect | src/kvcache.cpp:535-624 | Refinement to a map from (bucket, digest) to record: a publication sets one tag, Delete clears one, an eviction clears the tags of the stored keys, and every other step of every thread, in particular each flush and normal-GC step, changes nothing |
| View.LookupIsAnswer | src/kvcache.cpp:338-352 | In every reachable state every index entry decodes, and lookup is a function of that map alone |
| Safety.OthersInvisible | src/kvcache.cpp:1110-1168 | Flush, compaction and all other steps but publication, Delete and eviction leave the answer for every key unchanged, also while entries point into `gc_buffer_` |
| Safety.PutIsSeen | src/kvcache.cpp:273-311 | Right after publication the key is found with the new value; another key with the same hash modulo the table size and the same digest is not found; a key that differs in one of the two answers as before |
| Safety.DeleteIsSeen | src/kvcache.cpp:1170-1186 | After Delete a key is not found if its hash modulo the table size and its digest are those of the deleted key, and answers as before otherwise, with or without the decrement that release builds drop |
| Safety.EvictForgets | src/kvcache.cpp:841-860 | Evicting a disk slab forgets a key if one of the allocated slots stores a key with the same hash modulo the table size and the same digest, wherever the entry pointed; every other key answers as before |
| Safety.NoAssertionFails | src/kvcache.cpp:273-1181 | In every run, at each step of Put, Delete, the flusher and the collector, the conditions that the program asserts there about slabs, counters, lists and the pool hold; no list node is linked while on another list, and no second entry is chained for one bucket and digest |
| Safety.StartUpAsserts | src/kvcache.cpp:76-95 | The assertions of start-up hold: every block's channel exists, free disk slabs are within the blocks, check_ops_pool passes |
| Safety.NoDangling | src/kvcache.cpp:557-613 | In every run an entry names an allocated slot that no other entry names, in a slab that is neither free nor spare nor lost, and names `gc_buffer_` only during a collection |
| Runs.NextKeeps | include/kvcache.h:213-284 | Every step of every thread keeps the inductive invariant over slabs, index, counters, lists and pool |
| Runs.RunInv | include/kvcache.h:213-284 | Every state of every run from start-up satisfies the invariant |
| Runs.BootInv | src/kvcache.cpp:32-149 | Start-up establishes the invariant: slabs, lists, sizes, pool and free entries agree |
| Runs.PoolAtBoot | src/kvcache.cpp:76-95 | The pool is non-empty after start-up exactly when there is a block and the pool's share of a channel is not zero |
| StartUp.ChannelsEven | src/ssd.cpp:220-223 | Each channel has exactly blocks_per_channel disk slabs, those whose block id divided by blocks_per_channel is the channel |
| StartUp.BootShares | src/kvcache.cpp:76-92 | After start-up the pool of each channel has the smaller of its share and the channel's blocks, the first ones in slab order, and the free list of the channel has all others |
| StartUp.PoolTotal | src/kvcache.cpp:80-94 | max_ops_pool_size_ is that share times the number of channels |
| StartUp.BootCounts | src/kvcache.cpp:76-149 | After start-up every index entry is free, no key is indexed, no disk slab is full, the free ones are all but the pool, and the marks are those of the constructor |
| StartUp.EntriesAsked | src/kvcache.cpp:113-126 | The start-up check asks for as many index entries as one slab of each class could have slots, by the sizes of slab and slot alone |
| StartUp.StartMarksAre | src/kvcache.cpp:182-185 | The constructor's marks for the default rates, from the whole parts of 2, 7, 80 and 90 hundredths of the blocks |
| Witness.FirstPut | src/kvcache.cpp:260-329 | Every bootable configuration with a second memory slab has a run in which a first Put of any pair that fits is published and found |
| Witness.SmallBoots | src/kvcache.cpp:32-149 | A bootable configuration exists, with a hash and a digest under which all keys collide |
| Space.CountersHold | include/kvcache.h:72-106 | In every run, for every slab: live entries plus the slot Put is filling <= nr_used <= nr_alloc <= nr_slots |
| Usage.UseCounts | include/kvcache.h:72-106 | At every step of a run, for each slab that is not between a write and its redirect or being emptied: nr_used is exactly the live entries plus the slot Put is filling, or exceeds them by what it did before plus the entries that the step deletes without counting (an uncounted Delete, the eviction of another slab) |
| Usage.UsedExactly | src/kvcache.cpp:278-287 | In every run in which all Deletes are counted and nothing is evicted, nr_used of each such slab is exactly its live entries plus the slot Put is filling |
| Usage.WriteCopies | src/kvcache.cpp:704-723 | Writing a memory slab copies its whole header with all counts, and its bytes to the one block of the disk slab |
| Space.RedirectExact | src/kvcache.cpp:1150-1168 | Right after a redirect nr_used of the destination equals its live entries, which are exactly those the source had, and the source has none |
| Space.CompactionFits | src/kvcache.cpp:1110-1140 | In every run the live slots of the current source fit behind what `gc_buffer_` holds, although Puts and Deletes run between the counter reads and the moves |
| Space.DiskPlaced | src/kvcache.cpp:557-619 | In every run each disk slab is on a list of its own channel, or being dropped, or on no list and then in exactly one of: the flusher's hands, the collector's hands, lost |
| Space.DiskConserved | src/kvcache.cpp:733-799 | In every run the program's counters plus the uncounted compacted slabs, the slabs in transit and the lost ones add up to the number of blocks; every `size_` is the length of its list; quick GC loses at most one slab a pass |
| Space.MemoryPlaced | src/kvcache.cpp:313-326 | In every run each memory slab is free, open for its class with a slot left, published with no slot left, held full by the current Put, or held by the flusher; no Put is in progress on a published or flushed slab |
| Space.SlabsWellCut | src/kvcache.cpp:455-460 | In every run each open, published or full slab, and each slab that an entry names, has the slot size of its class and as many slots as fit behind the header, which is what the slot layout computes |
| Space.RecordsFit | src/kvcache.cpp:391-394 | In every run an entry names a record whose header, key and value fit in a slot of its slab |
| Space.SelectionFinds | src/kvcache.cpp:733-752 | While quick-GC selection wants slabs a full list has one: always for the one-slab drop, and for a computed demand if 10*blocks >= 23*max_ops + 10*(lost + 2) |
| Space.RefillFinds | src/kvcache.cpp:995-1008 | While the refill loop of a normal pass runs there is a reclaimed slab for it |
| Space.SpareFinds | src/kvcache.cpp:1074-1089 | With ops_pool_size_ > 0 a pool list has a slab, so the scan of gc_dslabs succeeds |
| Space.FullCountDrift | src/kvcache.cpp:1091-1108 | The full lists exceed nr_full_dslab_ by exactly the number of collections so far, so a collector that passed its wait finds a slab to drop |
| Space.WakesExactlyWhen | src/kvcache.cpp:667-677 | The sleeping collector can wake if and only if the full lists hold more slabs than there were collections |
| Collector.QuickPassLoses | src/kvcache.cpp:726-802 | Over a whole quick pass of a run, with any steps of other threads in between, exactly one slab is lost for good if and only if nr_back_to_free_dslab > 0, that is if 1.3 times the new low mark are at least one more than the free slabs, or in do_quick_gc(1, 0), which always loses the slab it drops |
| Collector.QuickPassPool | src/kvcache.cpp:824-838 | Over a whole quick pass the pool is doubled, up to max_ops_pool_size_, unless more disk slabs are free than 1.3 times the new low mark, when it gets at most that; do_quick_gc(1, 0) leaves it as it was |
| Collector.CollectionsBounded | src/kvcache.cpp:1091-1108 | However long a run is, it has fewer collections than there are blocks, also counting those that the current pass can still make |
| Collector.CollectorStops | src/kvcache.cpp:667-677 | Once the collector sleeps and collections, pool and lost slabs add up to the blocks, it takes no step in the rest of the run and its wait condition stays false, however many slabs are full |
| Collector.WakesWhenNeeded | src/kvcache.cpp:655-677 | With the collector asleep and no free disk slab left, the collector can wake if and only if collections, pool and lost slabs leave a block |
| Collector.FlusherStarves | src/kvcache.cpp:580-590 | After CollectorStops' condition a flusher that waits for a free disk slab waits in every later state |
| Collector.NoEntryFreed | src/kvcache.cpp:291-302 | Under the condition of CollectorStops, whatever Put is doing, no index entry becomes free but by a Delete |
| Collector.LosingPassesBounded | src/kvcache.cpp:769-783 | Between passes, the quick passes so far that were to free slabs number exactly the lost slabs, fewer than the blocks, in every run |
| Recovery.RecoversExactlyWhen | src/kvcache.cpp:291-302 | Between passes, a waiting Put can get an entry without a Delete, for some choice of the slabs that are flushed and dropped, if and only if the flusher can fill more disk slabs than there were collections and one that it can fill, or that is full, stores a key with an entry; without this no choice helps |
| Recovery.RecoversWithRoom | src/kvcache.cpp:291-302 | With a free disk slab for each queued memory slab: for some choice, if and only if full, held and queued slabs together outnumber the collections |
| Recovery.QuietExactlyWhen | src/kvcache.cpp:291-302 | With nothing to flush: for some order of the full lists, if and only if they hold more slabs than there were collections; otherwise no step but a Delete is possible |
| Stalls.OrderExactlyWhen | src/kvcache.cpp:738-751 | With nothing to flush and any given order in which the full slabs are dropped: the waiting Put gets an entry if and only if one of the first full - collections slabs of the order stores a key with an entry, and is left waiting with a collector that cannot wake if and only if none does |
| Stalls.ProgramExactlyWhen | src/kvcache.cpp:738-751 | The same for the order of the program: round the channels from the cursor, each time from the front of the list |
| Stalls.EndsInTime | src/kvcache.cpp:726-802 | From such a state a pass has nine steps, and every Delete-free path that drops slabs in the order ends within 9 * (full - collections) steps |
| Stalls.GoesOn | src/kvcache.cpp:655-724 | No such path is at its end before an entry is free or the collector sleeps with its counter at zero, so that every complete path ends in one of the two outcomes of OrderExactlyWhen |
| Stalls.StallsExactlyWhen | src/kvcache.cpp:685-689 | Whatever the order: the Put can be left waiting if and only if at least full - collections of the full slabs store no key with an entry; otherwise it gets an entry in every order |
| Stalls.SomeOrderExactlyWhen | src/kvcache.cpp:685-689 | Some order frees an entry if and only if the full lists hold more slabs than there were collections, which is when any choice of the model does |
| Recovery.OnlyDeleteHelps | src/kvcache.cpp:291-302 | Without that condition, in every run, the waiting Put stays where it is and no entry becomes free until some Delete |
| Failures.LoseOnce | src/kvcache.cpp:685-689 | On every SSD of a family (one channel, slabs of one slot, any numbers of memory slabs, blocks, pool slabs and marks) with one index entry there is a run of one Put, one flush and one quick pass that ends with the slab on no list |
| Failures.Deadlock | src/kvcache.cpp:291-302 | If the pool leaves one block, that run goes on to a state where the collector sleeps for good, the flusher waits for a disk slab and a Put waits for an entry |
| Failures.FullAndAsleep | src/kvcache.cpp:1091-1108 | There are runs in which a normal pass ends with a slab on the full lists and a collector that cannot wake |
| Failures.LockedWaits | src/kvcache.cpp:291-302 | The same with two blocks: a concrete SSD on which collector, flusher and Put come to wait for one another |
| Failures.DriftingSleeps | src/kvcache.cpp:1091-1108 | The same with four blocks: a concrete SSD on which a full slab stays behind a sleeping collector |
| Failures.Stall | src/kvcache.cpp:1091-1108 | On every SSD of the family with one index entry and two blocks more than pool and low mark there is a run to a state where a Put waits, disk slabs are free, nothing is lost, the condition of CollectorStops does not hold, and yet no step but a Delete is possible |
| Failures.RoomyStalls | src/kvcache.cpp:1091-1108 | The same with a hundred blocks, ten of them in the pool |
| Failures.LastLinkedStalls | src/kvcache.cpp:740-748 | On every SSD of the family with one index entry, three memory slabs and two blocks more than pool and low mark there is a run to a state with nothing to flush and two full slabs, of which the collector gets to drop one: some order frees an entry, but in the order of the program, last linked first, the Put is left waiting |
| Failures.OrderedStalls | src/kvcache.cpp:740-748 | The same with a hundred blocks, ten of them in the pool |
| Failures.SelectionStarves | src/kvcache.cpp:738-751 | On five blocks with a pool of three, a run reaches a quick pass whose selection loop never ends |
| Progress.SelectionEndsExactlyWhen | src/kvcache.cpp:733-752 | The selection loop, whose lock keeps all others off the full lists, ends if and only if the full lists hold as many slabs as it wants when it starts |
| Progress.PlanEndsExactlyWhen | src/kvcache.cpp:807-839 | If nothing is stored between the plan and the lock (src/kvcache.cpp:737), a computed quick pass gets past its selection if and only if the demand that follows from marks, free slabs and pool is at most the slabs on the full lists |
| Progress.StuckExactlyWhen | src/kvcache.cpp:726-1044 | In every run, within a pass, the collector can take a step if and only if it is not in a selection that wants a slab while all full lists are empty; that happens neither in the one-slab drop nor with room for 2.3 times the pool maximum |
| Progress.GcDescends | src/kvcache.cpp:726-1044 | Every step of the collector within a pass lowers its rank, a lexicographic measure of what is left of the pass |
| Progress.OthersKeepRank | src/kvcache.cpp:535-624 | No step of Put, Delete or the flusher changes the rank of the collector |
| Progress.PassProgress | src/kvcache.cpp:726-1044 | Over any stretch of a run without a wake-up the rank never rises, and it is lower if the collector took a step: every pass ends after finitely many steps of its own |
| Progress.PassCompletes | src/kvcache.cpp:726-1044 | Every sequence of steps that the collector takes on its own within a pass, from a state that satisfies the invariant and given the room above, lowers the rank from each state to each later one, and can be continued if and only if the pass is not over |
| Space.PoolInBounds | src/kvcache.cpp:833-838 | Between passes the pool has at least one slab and at most max_ops_pool_size_, over all mixes of quick and normal passes |
| Pressure.PassRestoresPool | src/kvcache.cpp:918-1024 | From the start to the end of a normal pass the pool keeps its size or shrinks by one, and stays within bounds |
| Pressure.PassShrinks | src/kvcache.cpp:963-1024 | A normal pass that ends with a spare slab on every channel has shrunk the pool by one if, when it was tuned, more disk slabs were free than the high mark and the pool had more than ten slabs, and not at all otherwise |
| Pressure.ModeExactlyWhen | src/kvcache.cpp:679-698 | Awake, the collector drops one slab if there is no free index entry, else computes a quick pass if it read fewer free disk slabs than the low mark, else makes a normal pass, with any steps of others between read and choice |
| Pressure.TuneAsks | src/kvcache.cpp:963-984 | Tuning starts after the last class or with the pool used up; with more free disk slabs than the high mark the low mark falls by ten but not below its minimum, the high mark by ten but not below 1.1 times the new low mark, and the target by one but not below ten; otherwise nothing changes |
| Waits.PutWaitsExactlyWhen | src/kvcache.cpp:291-302 | In every run a Put in progress can take a step, other than giving up at shutdown, unless its class has no open slab and no memory slab is free, or it waits for an index entry and none is free |
| Waits.FlusherWaitsExactlyWhen | src/kvcache.cpp:535-590 | In every run the flusher can take a step unless no memory slab is published, or it holds one and no disk slab is free |
| Pressure.ExhaustionLeavesEntry | src/kvcache.cpp:115-126 | When Put finds no free index entry, some entry names a slab that takes no more slots: published full, being flushed, being compacted or on disk |
| Pressure.MarksOrdered | src/kvcache.cpp:818-825 | Water marks that start ordered stay ordered, low <= high <= high_max, through any mix of quick and normal passes |
| Pressure.TuneMarks | src/kvcache.cpp:966-984 | Lowering the marks after a normal pass keeps them ordered |
| Pressure.DefaultMarksOrdered | src/kvcache.cpp:182-185 | With the default rates the marks start ordered if and only if the SSD has at least two blocks |
| PutSteps.KeepsPutBegin | src/kvcache.cpp:260-271 | Step: choosing the least class that holds the pair, or giving up at shutdown before a slot is taken (the whole invariant holds again) |
| PutSteps.LeastClass | src/kvcache.cpp:486-497 | Put takes the first class whose slots hold header, key and value, and refuses a pair if and only if no class does |
| PutSteps.KeepsPutOpen | src/kvcache.cpp:447-463 | Step: formatting a free memory slab as the one open slab of its class (the whole invariant holds again) |
| PutSteps.KeepsPutAlloc | src/kvcache.cpp:433-445 | Step: allocating a slot: the open slab is never full, and a slab that becomes full leaves the open list (the whole invariant holds again) |
| PutSteps.KeepsPutWrite | include/kvcache.h:35-41 | Step: writing the pair touches only the slot that no entry names yet (the whole invariant holds again) |
| PutSteps.KeepsPutHit | src/kvcache.cpp:277-290 | Step: repointing the entry: old_nr_used is positive, and the record is the newest of its key (the whole invariant holds again) |
| PutSteps.KeepsInsert | src/kvcache.cpp:291-310 | Step: chaining a fresh entry, also after waiting with the index unlocked: no entry for the bucket and digest can have appeared meanwhile (the whole invariant holds again) |
| PutSteps.KeepsPutBlock | src/kvcache.cpp:294-302 | Step: waiting for a free entry keeps the slot reserved and the key absent (the whole invariant holds again) |
| PutSteps.KeepsPutDone | src/kvcache.cpp:313-326 | Step: publishing: only a full slab on no list, with no Put in progress on it (the whole invariant holds again) |
| PutSteps.KeepsDelete | src/kvcache.cpp:1170-1186 | Step: deleting, whether or not the decrement is compiled in: nr_used never falls below the live entries (the whole invariant holds again) |
| FlushSteps.KeepsFlushTake | src/kvcache.cpp:542-554 | Step: taking a published slab, which is formatted and full (the whole invariant holds again) |
| FlushSteps.KeepsFlushTarget | src/kvcache.cpp:557-578 | Step: taking a free disk slab, which is blank and unnamed, with nr_free_dslab_ exact (the whole invariant holds again) |
| FlushSteps.KeepsFlushWrite | src/kvcache.cpp:704-723 | Step: writing the block of a slab that nothing points at, and copying the header (the whole invariant holds again) |
| FlushSteps.KeepsFlushRedirect | src/kvcache.cpp:600-605 | Step: the redirect finds every live entry of the memory slab and loses none (the whole invariant holds again) |
| FlushSteps.KeepsFlushFree | src/kvcache.cpp:606-613 | Step: freeing the memory slab, which no entry names any more (the whole invariant holds again) |
| FlushSteps.KeepsFlushStore | src/kvcache.cpp:614-619 | Step: publishing the disk slab on the full list of its channel (the whole invariant holds again) |
| QuickGcSteps.KeepsGcTurn | src/kvcache.cpp:667-693 | Step: waking, with nr_full_dslab_ > 0 and so a non-empty full list, reading the number of free disk slabs, choosing quick GC below the low water mark, and ending the selection when nothing more is wanted (the whole invariant holds again) |
| QuickGcSteps.KeepsGcDropOne | src/kvcache.cpp:685-689 | Step: the one-slab drop for lack of index entries has a slab to drop (the whole invariant holds again) |
| QuickGcSteps.KeepsGcPlan | src/kvcache.cpp:807-839 | Step: the demand of quick GC is at most the slabs on the full lists, given room for 2.3 times the pool maximum (the whole invariant holds again) |
| QuickGcSteps.KeepsGcSelect | src/kvcache.cpp:738-751 | Step: moving one full slab to the drop list (the whole invariant holds again) |
| QuickGcSteps.KeepsGcEvict | src/kvcache.cpp:759-767 | Step: evicting by stored key leaves no entry that points into the slab (the whole invariant holds again) |
| QuickGcSteps.KeepsGcEvicted | src/kvcache.cpp:759-768 | Step: when all dropped slabs are evicted none of them is named by an entry (the whole invariant holds again) |
| QuickGcSteps.KeepsGcReturnOps | src/kvcache.cpp:769-783 | Step: handing a dropped slab to the pool keeps the pool within its maximum (the whole invariant holds again) |
| QuickGcSteps.KeepsGcLose | src/kvcache.cpp:771-779 | Step: the slab unlinked before the loop stops ends on no list; a pass loses no second one (the whole invariant holds again) |
| QuickGcSteps.KeepsGcReturnedOps | src/kvcache.cpp:769-783 | Step: ending the first return loop with nothing left to drop (the whole invariant holds again) |
| QuickGcSteps.KeepsGcReturnFree | src/kvcache.cpp:784-799 | Step: handing a dropped slab to the free lists, with nr_free_dslab_ within the number of blocks (the whole invariant holds again) |
| QuickGcSteps.KeepsGcQuickDone | src/kvcache.cpp:784-802 | Step: ending a quick pass with no slab left on the drop list (the whole invariant holds again) |
| NormalGcSteps.KeepsGcTurn | src/kvcache.cpp:685-1024 | Step: choosing normal GC after the unlocked read of the free entries, ending the refill with exactly the old pool size, a trim round that finds the next channel empty, and ending the trim (the whole invariant holds again) |
| NormalGcSteps.KeepsGcScan | src/kvcache.cpp:884-914 | Step: choosing candidates: full slabs with a class, at most three times the pool size (the whole invariant holds again) |
| NormalGcSteps.KeepsGcPick | src/kvcache.cpp:924-952 | Step: packing one more slab keeps the sum of the counters read within one slab (the whole invariant holds again) |
| NormalGcSteps.KeepsGcSkip | src/kvcache.cpp:944-961 | Step: leaving a class with fewer than two packed slabs alone (the whole invariant holds again) |
| NormalGcSteps.KeepsGcTake | src/kvcache.cpp:1073-1089 | Step: taking a spare slab, blank and unnamed (the whole invariant holds again) |
| NormalGcSteps.KeepsGcLinkOps | src/kvcache.cpp:1091-1097 | Step: linking the spare slab as full without counting it (the whole invariant holds again) |
| NormalGcSteps.KeepsGcUnlink | src/kvcache.cpp:1099-1107 | Step: moving a source to the free list of the pass while entries still point at it (the whole invariant holds again) |
| NormalGcSteps.KeepsGcInit | src/kvcache.cpp:1110-1116 | Step: formatting `gc_buffer_`, which no entry names, for the class of the sources (the whole invariant holds again) |
| NormalGcSteps.KeepsGcLoad | src/kvcache.cpp:1117-1122 | Step: the running total of nr_used stays within the buffer and the classes agree (the whole invariant holds again) |
| NormalGcSteps.KeepsGcMoveSlot | src/kvcache.cpp:1125-1138 | Step: moving one live slot: the buffer has room, and the entry follows the record (the whole invariant holds again) |
| NormalGcSteps.KeepsGcMoveDone | src/kvcache.cpp:1138-1140 | Step: after its last slot no entry points at the source (the whole invariant holds again) |
| NormalGcSteps.KeepsGcWrite | src/kvcache.cpp:1141-1143 | Step: writing the buffer to the block of a slab that nothing points at (the whole invariant holds again) |
| NormalGcSteps.KeepsGcRedirect | src/kvcache.cpp:1144-1148 | Step: the second redirect empties `gc_buffer_` (the whole invariant holds again) |
| NormalGcSteps.KeepsGcTune | src/kvcache.cpp:963-994 | Step: a pass that used k spare slabs freed at least 2k (the whole invariant holds again) |
| NormalGcSteps.KeepsGcRefill | src/kvcache.cpp:995-1008 | Step: refilling the pool with an emptied slab of the same channel (the whole invariant holds again) |
| NormalGcSteps.KeepsGcTrim | src/kvcache.cpp:1010-1024 | Step: trimming takes at most one slab and never the last one (the whole invariant holds again) |
| NormalGcSteps.KeepsGcReturnAll | src/kvcache.cpp:1025-1041 | Step: freeing an emptied slab on its own channel (the whole invariant holds again) |
| NormalGcSteps.KeepsGcNormalDone | src/kvcache.cpp:1025-1044 | Step: ending a normal pass with no slab left on its free list (the whole invariant holds again) |
| PutSteps.UsedByEntry | src/kvcache.cpp:278-287 | A slab that an entry names has nr_used > 0, so the decrements of Put and Delete start above zero |
| NormalGcSteps.SpareThere | src/kvcache.cpp:1073-1089 | With ops_pool_size_ > 0 the scan of the pool finds a slab, so its assertion holds |
| GcFrames.PoolChecks | src/kvcache.cpp:1046-1070 | Exact list sizes on existing channels make check_ops_pool true: each list has its size and the sizes add up to ops_pool_size_ |
| QuickGcSteps.DemandBound | src/kvcache.cpp:823-836 | The demand is at most 2.3 times the pool maximum less the pooled and the free slabs, with truncation toward zero |
| QuickGcSteps.DemandGoal | src/kvcache.cpp:827-836 | The demand aims at twice the pool, up to its maximum, and at 1.3 times the new low water mark of free slabs |
| QuickGcSteps.PlanAsks | src/kvcache.cpp:818-838 | From the marks before it, a computed quick pass sets the greatest high mark up to 1.5 times the old one and the maximum, and the greatest low mark up to 1.5 times the old one, nine tenths of the new high mark and the pool maximum; it asks for twice the pool up to its maximum and for 1.3 times the new low mark of free slabs |
| QuickGcSteps.EvictsAll | src/kvcache.cpp:844-847 | Deleting by stored key reaches every entry that points into the slab |
| Frames.RedirectFindsAll | src/kvcache.cpp:1153-1165 | Searching by stored key finds every entry that points into the slab |
| IndexTable.Index.constructor | src/kvcache.cpp:115-149 | All entries start free, the last one first, and all chains empty |
| IndexTable.Index.Find | src/kvcache.cpp:338-352 | The search of the chain at the key's hash modulo the table size finds an entry with the key's digest exactly when the index has one for the key |
| IndexTable.Index.Point | src/kvcache.cpp:288-290 | Repointing one entry updates one tag of the map and nothing else |
| IndexTable.Index.Insert | src/kvcache.cpp:396-407 | Takes the first free entry if there is one, stores the key's digest and puts it in front of the chain at the key's hash modulo the table size: one tag added, nr_free_index_entry_ exact, free and chained entries still all entries |
| IndexTable.Index.Remove | src/kvcache.cpp:851-867 | Unchains the key's entry if there is one: one tag removed, nr_free_index_entry_ exact |
| IndexTable.Index.ModifyIndexTo | src/kvcache.cpp:1150-1168 | The slot loop computes exactly the redirect that the protocol uses and counts it |
| IndexTable.Index.Evict | src/kvcache.cpp:841-849 | The slot loop removes exactly the stored tags and frees as many entries |
| IndexTable.Index.MoveSlots | src/kvcache.cpp:1125-1138 | The slot loop moves exactly the live records of one source behind the buffer's records, repoints exactly their entries, and never meets a full buffer if the live entries fit |
| IndexTable.RedirectRound | src/kvcache.cpp:1153-1165 | One slot redirects the entry of its key if and only if the entry names this very slot |
| DiskPools.Scan | src/kvcache.cpp:557-578 | The channel scan stops at the first non-empty channel from the cursor on, or comes back to the cursor when all are empty |
| DiskPools.Pools.Stock | src/kvcache.cpp:76-92 | The start-up loop gives the first slabs of each channel, up to its share, to the pool and the others to the free list of the channel |
| DiskPools.Pools.TakeFree | src/kvcache.cpp:557-578 | Takes a free slab exactly when nr_free_dslab_ > 0: the front of the first non-empty channel from the cursor on; the rest is conserved |
| DiskPools.Pools.TakeSpare | src/kvcache.cpp:1073-1089 | Takes a spare slab exactly when ops_pool_size_ > 0: the front of the first non-empty channel from the cursor on; the rest is conserved |
| DiskPools.Pools.SelectToDrop | src/kvcache.cpp:733-752 | Terminates on demand and ring distance if the full lists hold the demand, and takes exactly that many slabs, each from the front of the next non-empty channel after the one before; cursor and lists are those after these takes |
| DiskPools.Pools.GiveToOps | src/kvcache.cpp:769-783 | Links the first backOps slabs, in order, in front of the pool lists of their channels and drops the next one from all lists |
| DiskPools.Pools.GiveToFree | src/kvcache.cpp:784-799 | Links all remaining slabs, in order, in front of the free lists of their channels |
| DiskPools.Pools.ReturnDropped | src/kvcache.cpp:769-799 | Exactly one slab, the one after the first backOps, is lost if and only if more than backOps were dropped; those before it are linked to the pool and those after it to the free lists |
| DiskPools.Pools.Refill | src/kvcache.cpp:995-1008 | Terminates on demand and ring distance if the pass freed enough, and moves exactly that many slabs, each from the front of its list to the front of the pool list of its channel; a channel of the pool is stocked afterwards if and only if it was before or one round from channel zero reaches it |
| DiskPools.Pools.Trim | src/kvcache.cpp:1010-1024 | Shrinks the pool by at most the requested number, by one exactly when the channel after the cursor has a spare slab, with the cursor on that channel; what it takes goes from the front of the pool list to the front of the pass's list of the channel |
| DiskPools.Pools.ReturnAll | src/kvcache.cpp:1025-1041 | The reclaimed slabs of each channel end in front of its free list, in reverse order |
| DiskPools.Pools.EndPass | src/kvcache.cpp:985-1041 | Not asked to shrink, the pool ends at its old size and the cursor stays; asked to, the cursor goes on by one channel and the pool ends one smaller if and only if that channel had a spare slab or the refill reached it; every slab is in the pool or free |
| DiskPools.Pools.CheckOpsPool | src/kvcache.cpp:1046-1070 | Answers true exactly when every size of the pool is right |
| Victims.KeepLightest | src/kvcache.cpp:886-903 | On fixed counters the bounded heap keeps limit full slabs, or all: nothing left out has fewer bytes in use, nr_used times slot_size, than anything kept |
| Victims.OfferKeeps | src/kvcache.cpp:893-901 | One more slab offered keeps the queue the selection of what was seen with the fewest bytes in use |
| Victims.GroupByClass | src/kvcache.cpp:905-914 | Draining the heap gives each class its slabs, heaviest first |
| Victims.DrainedSorted | include/kvcache.h:204-211 | Within one class the drained order is descending in used slots |
| Victims.Pack | src/kvcache.cpp:919-952 | Smallest-first packing fits in one slab, and no other slabs of the class that fit are more |
| Victims.CheapestSlabs | src/kvcache.cpp:924-952 | Any slabs of a class use at least as many slots as that many of its emptiest ones |
| Victims.ChooseSlabs | src/kvcache.cpp:884-961 | From the full lists to the collections, on fixed counters: the candidates are the 3 * ops_pool_size_ full slabs with the fewest bytes in use, each class collects the most candidates that fit in one slab unless fewer than two do, and the pass stops early only with the pool used up and more to collect |
| Victims.UsedSumAdds | src/kvcache.cpp:919-952 | The slots counted for a collection add up over its slabs |
| Bridge.HeapScans | src/kvcache.cpp:884-903 | What the heap keeps is a set of candidates that the protocol allows |
| IntrusiveList.Node.constructor | include/list.h:16-19 | A new node is linked to itself |
| IntrusiveList.IsEmpty | include/list.h:24-26 | True exactly for a ring that has only its head |
| IntrusiveList.First | include/list.h:21-22 | The first member of the ring |
| IntrusiveList.Count | include/list.h:47-55 | The traversal visits every member once and ends |
| IntrusiveList.ListAdd | include/list.h:28-34 | The node becomes the first member of the ring; every other ring stays well formed and separate |
| IntrusiveList.ListDel | include/list.h:37-41 | The member leaves its ring, whose head is not known, and links to itself; every other ring stays well formed and separate |
| RingLists.PushNode | include/list.h:28-34 | On rings that share no node, adding a slab's node to a channel is Push on that channel's list of ids and nothing on the others |
| RingLists.PopNode | src/kvcache.cpp:566-571 | Taking the first node off a channel's ring is Pop on its list of ids and nothing on the others; the node is on no ring |
| RingLists.RemoveNode | include/list.h:37-41 | Deleting an entry's node from a hash chain removes exactly that entry from the chain of ids |
| SlotLayout.AlignUpIsLeast | src/kvcache.cpp:10-21 | The least multiple of any alignment that is not below the address |
| SlotLayout.SlotRoundTrip | src/kvcache.cpp:409-423 | For any slab size, slot_to_slab and slot_id invert slab_by_sid and slot(i) |
| SlotLayout.SlotInside | include/kvcache.h:129-132 | Every slot lies behind the header and inside its slab |
| SlotLayout.SlotsAreMost | src/kvcache.cpp:459-459 | nr_slots is the greatest number of slots that fit behind the header |
| SlotLayout.SlotsDisjoint | include/kvcache.h:99-132 | Different slots, of one slab or of two with any slot sizes, share no byte |
| SlotLayout.CopyIn | include/kvcache.h:39-40 | Exactly the copied range changes |
| SlotLayout.Write | include/kvcache.h:35-41 | The bytes after a write are the two lengths, the key, the value, and the old bytes elsewhere |
| SlotLayout.WriteRoundTrip | include/kvcache.h:35-49 | The bytes are the two lengths, the key and behind it the value; key and value are read back, and no byte outside the pair changes |
| SlotLayout.WriteKeepsOthers | src/kvcache.cpp:391-394 | A pair that its class admits, written into one slot, leaves the bytes of every other slot of every slab |
| SlotLayout.DefaultClassSizes | src/kvcache.cpp:1205-1222 | The default sizes start at the smallest slot, each next one is twice the one before or the largest slot if that is less, they strictly increase, and unless the table is full they end with the largest slot |
| SlotLayout.ClassOf | src/kvcache.cpp:486-497 | The first class whose slots are large enough |
| SlotLayout.RefusedExactlyWhen | src/kvcache.cpp:486-497 | A pair is refused as too large if and only if it exceeds the slots of the last class |

## Left out

- RocksDB, raw device access, mmap and OpenSSL: an abstract block array and arbitrary hash and digest functions instead.
- Creating and opening the SSD, and the C API: only the channel of a block and the pairing of blocks with slabs are used.
- Condition variables, sleeps, thread start and shutdown of the flusher and collector, and the C++ memory model: each
  locked section is atomic; the results are about safety and about passes that end, not about who is notified and when.
- The synchronous mode without background threads: Put would take the index lock twice.
- The copy of the value after `get_slice` returns: it runs outside the lock.
- A Put that is refused as too large changes no state and is no step; `SlotLayout.RefusedExactlyWhen` says when it is.
- Overflow of 32-bit offsets and lengths, and rounding of the floating-point factors: integers and exact rationals.
- Entry order in the protocol: the lists of disk and memory slabs are sets there, so a step may take any member where the
  program takes the first; the order is kept in `IndexTable`, `DiskPools` and `IntrusiveList`. Statements about all runs
  hold for the program's. Those of the form "some run exists" in `Recovery` (the "if" halves) use the freedom, as does
  `Progress.FinishPass`; `Stalls` fixes the order of the drops, and the runs of `Failures` follow the program's order.
- The slab header of `DiskPools` and `Victims` is reduced to ids and counters. `DiskPools` and `IndexTable` work on
  sequences of ids; `RingLists` carries the single list operations to the rings of `IntrusiveList`, not the whole loops.
- A closed condition for recovery from within a pass of the collector: it depends on the candidates that the pass still
  chooses. `Progress.PassCompletes` leads to a state between passes, where `Recovery` and `Stalls` decide.
- The order of the full lists while slabs still wait to be flushed: it depends on how flusher and collector interleave, so
  that `Stalls` starts when nothing is left to flush.
- The `size_` of the pass's own free list and of the drop list are not tracked.
- Status codes, printing, environment variables, benchmarks and the patch under tests: no hard property.
