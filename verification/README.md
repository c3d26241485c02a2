# Kernel model: cache manager, registry cache, boot order

A Dafny model of the parts of this kernel in which state, lists and reference counts are hardest to keep straight, with proofs about every
input, every run or every reachable state:

- **Cached files** (`VacbLists`, `CacheState`, `CacheContent`, `CacheTransfer`, `CacheCopy`, `CacheRanges`, `CacheSteps`, `CacheWriteBack`,
  `CacheManager`, `CacheService`, `CacheFailures`, `FlushRace`, `CacheMaps`).
  Files are cached in 256 KB views (VACBs) on three lists. The central result is coherence: over every run of reads, writes, zeroes,
  write-backs, flushes, trims and prunings, whatever fails, readers see a flat array of bytes, until a disk transfer that ended at the end
  of the file leaves other bytes than it should; when it does so is given exactly. It rests on a reference-count invariant (one for the list,
  one if dirty, one if mapped, one for each holder), on dirty accounting and on a strictly sorted, disjoint list of views. The race of
  copies with write-backs of one view, and the life of shared and private cache maps, are state machines of their own.
- **Lazy-writer workers** (`WorkerPool`): a state machine over any number of worker threads with two queues, a throttle and barriers.
- **Boot driver order** (`TagOrder`, `GroupOrder`, `BootDrivers`): the in-place sort by tag with its unusual re-insertion, the bucket passes
  by group, and both end to end.
- **Key control blocks** (`Lists`, `HashChains`, `KcbState`, `KcbSteps`, `KcbEffects`, `KcbCache`, `DelayedClose`): the reference-counted tree
  with its hash table, the delayed-close list and the queue of deferred dereferences; reference conservation over every run; and the delayed-close
  protocol between threads that convert their locks.
- **Name blocks** (`NameHash`, `NameBlocks`, `NameTable`): interning of key names up to case.
- **Block allocators** (`BlockPool`): pages cut into blocks, released with their last block.
- **Registry callbacks** (`Callbacks`): a state machine over any number of concurrent walks and unregistrations.
- **IRP cancellation** (`CancelRing`, `IrpCancel`): the three-party protocol over list links.
- **Hive flushing** (`HiveFlush`): fair epochs with a budget for each call.
- **Key paths** (`KeyPath`): the back-to-front printer, the tokenizer and their round trip.

Objects whose routines update fields in place are classes; each routine is proved against a function or predicate on values, about which
the lemmas are stated. Protocols between threads are step functions with an invariant that every step keeps. What the rest of the system
answers (allocations, mappings, disk transfers, case mapping, which locks are free, which hive fails to sync) is a parameter. A disk transfer
succeeds, ends at the end of the file, or fails, and in the last two cases leaves anything behind; where a property does not survive one of
these answers, a row says when it does, and another one gives an input on which it does not.

Where the code and its comments disagree, the model follows the code:

- `CcPurgeCacheSection` is described as purging the views in the range; the code leaves a view that ends exactly at the range's end
  (`CacheRanges.PurgeMissesTheLast`, and `CacheRanges.PurgeOfOneStripe` for an input).
- `CcFlushCache` steps in whole stripes from an offset that need not be aligned, so it can miss the last stripe of its range
  (`CacheRanges.FlushReachesRange` gives the exact condition, `CacheRanges.FlushMissesAStripe` an input).
- A write of a whole stripe whose source faults half way marks the stripe valid with foreign bytes (`CacheCopy.TornWrite`,
  `CacheFailures.TornWriteFails`).
- `CcReadVirtualAddress` and `CcWriteVirtualAddress` take an answer of end of file for success (`CacheCopy.EndOfFileRead`,
  `CacheTransfer.EndOfFileWrite`).
- The test in `CcCopyData` for data that can be had without waiting passes stripes that are not cached at all (`CacheRanges.InMemoryExactly`,
  `CacheFailures.NothingCachedPasses`).
- `CcRosUnmapVacb` marks a stripe dirty without asking whether it is valid (`CacheTransfer.FlushOfUnread`).
- `CmpDoFlushNextHive` tests the boolean result of `HvSyncHive` as a status code, so its error branch is never taken and a hive that could not
  be synced counts as flushed in this epoch (`HiveFlush.FailedSyncPassesForDone`).
- `CmpGetNameControlBlock` cuts case-mapped characters to a byte (`NameBlocks.FoundAgain`, `NameBlocks.TruncationLosesAName`,
  `NameTable.SameNameTwice`).
- `CcRosInitializeFileCache` takes a shared map for its own that another thread has made meanwhile (`CacheMaps.StepKeeps`,
  `CacheMaps.RaceLost`), and uses one that it saw without the lock (`CacheMaps.LookFindsGone`).
- `CcRosReleaseFileCache` and `CcRosDereferenceCache` drop the lock between the last close and the deletion (`CacheMaps.DeletionFindsGone`,
  `CacheMaps.DeletedTwice`).
- `CcRosFlushVacb` asserts that a stripe whose write failed has not been marked meanwhile (`FlushRace.MarkFails`, `FlushRace.MarkedTwice`).
- `CmpDelayDerefKeyControlBlock` drops a reference when no delay item can be allocated (`KcbSteps.LostForEver`,
  `KcbSteps.LosingRunLoses`).
- `CmpCreateKeyControlBlock` dereferences the parent when there is no memory for the name, also for a root key that has none; the model
  answers `Stopped` there.
- `CmpDoSort` looks at the character in front of its buffer; whatever stands there, the scan ends at the buffer's start.

## Model

| member | source | states |
|---|---|---|
| `CacheService.Serve` | ntoskrnl/cc/copy.c:256-409 | For every sequence of cached reads, writes (also such whose buffer faults), zeroes, write-backs, range flushes, trims and prunings in which nothing has gone astray, every reply is the one a flat byte-array file would give, the cache ends holding exactly that file, and with enough memory and reads that do not fail every request inside the section is served whole; nothing goes astray unless a disk transfer ends at the end of the file, whatever else fails |
| `CacheService.ServeOne` | ntoskrnl/cc/copy.c:256-409 | The same for one request: the reply is the flat file's, and the files change by the patch the reply reports, the foreign bytes of a torn write included, and by nothing else |
| `CacheManager.Cc.CopyData` | ntoskrnl/cc/copy.c:256-409 | A copy that reports n bytes has read, or patched into the flat file, exactly its first n bytes, also when it raises half way; only a write whose buffer faults can leave foreign bytes, which it reports, behind them; all stripe references are given back; one that must not wait is refused, with nothing changed, exactly when a cached stripe of the range is not valid; it succeeds otherwise when memory, mappings, disk reads and the caller's buffer last and the range lies in the section; whatever it raises has its cause at the place where it stopped: the section's end, a mapping, a stripe that had to be read, or the end of the caller's buffer; nothing goes astray unless a read ends at the end of the file |
| `CacheManager.Cc.CopyTurn` | ntoskrnl/cc/copy.c:311-384 | One stripe of a copy extends what was transferred so far by its part, with the foreign bytes of a torn write behind it, or fails and leaves what was transferred; it goes astray only on a read that ended at the end of the file |
| `CacheManager.Cc.DataReady` | ntoskrnl/cc/copy.c:284-309 | The test leaves the sorted list early and still finds a range not ready exactly when some listed stripe that meets it is not valid |
| `CacheRanges.InMemoryExactly` | ntoskrnl/cc/copy.c:284-309 | A range can be read without the disk if and only if it passes that test and every byte of it is cached |
| `CacheFailures.NothingCachedPasses` | ntoskrnl/cc/copy.c:286-288 | A file of which nothing is cached passes the test |
| `CacheCopy.ChunkContent` | ntoskrnl/cc/copy.c:225-254 | Filling a stripe, applying the operation and releasing it as valid lays exactly the given bytes over the file, with the VACB's memory behind them if the write tears, and keeps the cache coherent, provided that a stripe which had to be read arrived |
| `CacheCopy.TornWrite` | ntoskrnl/cc/copy.c:225-254 | A whole-stripe write to a stripe that is not valid and whose source faults half way does what it should if and only if the fresh memory of the VACB happens to equal the rest of the stripe on disk |
| `CacheFailures.TornWriteFails` | ntoskrnl/cc/copy.c:225-254 | A coherent one-stripe cache in which a write of the whole stripe that faults at its first byte changes the file |
| `CacheCopy.EndOfFileRead` | ntoskrnl/cc/copy.c:133-148 | A read that ends at the end of the file passes for success; the copy that follows then does what it should if and only if the memory it left, outside the bytes written, equals the stripe on disk |
| `CacheFailures.EndOfFileReadFails` | ntoskrnl/cc/copy.c:133-148 | A coherent one-stripe cache in which such a read makes readers see other bytes than the file's |
| `CacheCopy.FailedRead` | ntoskrnl/cc/copy.c:81-149 | A stripe whose read from disk failed is released as not valid, and no reader sees a difference |
| `CacheCopy.FromDisk` | ntoskrnl/cc/copy.c:81-149 | A stripe whose read succeeded holds the disk's bytes for every position inside the section |
| `CacheCopy.StoredByte` | ntoskrnl/cc/view.c:421-453 | After a stripe is stored and released as valid, its bytes read as stored and every other byte of every file reads as before |
| `CacheCopy.ReleaseKeeps` | ntoskrnl/cc/view.c:421-453 | Releasing keeps the VACB invariant for every combination of valid, dirty and mapped, and the released reference is never the last one |
| `CacheManager.Cc.ReleaseVacb` | ntoskrnl/cc/view.c:421-453 | The routine gives one reference back and keeps the invariant; the VACB is then as valid as told, dirty if it was or is marked so, and mapped once more if told, the first mapping with a reference of its own; a VACB newly marked goes to the end of the dirty list and of the LRU list, and no other VACB changes |
| `CacheTransfer.FlushContent` | ntoskrnl/cc/view.c:165-179 | Writing a dirty stripe back never changes what readers see at that moment, and it leaves clean valid stripes equal to the disk if and only if a write that ended at the end of the file has put the stripe on disk; success, failure and protected media always do |
| `CacheTransfer.EndOfFileWrite` | ntoskrnl/cc/copy.c:213-221 | After a write-back that ended at the end of the file, readers see the same once the stripe is evicted if and only if the write has put the stripe on disk |
| `CacheFailures.EndOfFileWriteFails` | ntoskrnl/cc/copy.c:213-221 | A coherent one-stripe cache that loses a write in this way |
| `CacheTransfer.FlushOfUnread` | ntoskrnl/cc/view.c:165-179 | Writing back a stripe that was marked dirty without being valid changes nothing for readers if and only if its memory equals the stripe on disk |
| `CacheFailures.FlushOfUnreadFails` | ntoskrnl/cc/view.c:600-627 | A one-stripe cache whose file is replaced by memory nobody had filled |
| `CacheTransfer.FlushKeeps` | ntoskrnl/cc/view.c:165-179 | A write-back keeps reference counts, dirty list and dirty counters consistent, whatever its outcome; one that failed is marked dirty again |
| `CacheTransfer.DiskWriteAt` | ntoskrnl/cc/copy.c:153-222 | A write-back changes the disk under its stripe only |
| `CacheManager.Cc.FlushVacb` | ntoskrnl/cc/view.c:165-179 | The routine performs that write-back, which is allowed for every dirty listed VACB, and goes astray exactly when a write that ended at the end of the file has not put the stripe on disk |
| `FlushRace.StepKeeps` | ntoskrnl/cc/view.c:165-179 | With copies and write-backs of one VACB interleaved between the holds of the lock: every step keeps the newest bytes on disk, marked dirty, or on the way to one of both, if and only if it does not end a write of older bytes after the newest ones were written |
| `FlushRace.NeverLost` | ntoskrnl/cc/view.c:165-179 | In every run without such a write no change is lost: at rest a clean stripe is on disk as it is in memory |
| `FlushRace.OvertakenInside` | ntoskrnl/cc/view.c:165-179 | Such a write takes another write of the stripe that has both begun and ended while it was under way |
| `FlushRace.NewerBytesLost` | ntoskrnl/cc/view.c:165-179 | A run of two overlapping writes that ends with a clean stripe and older bytes on disk |
| `FlushRace.MarkFails` | ntoskrnl/cc/view.c:430-433 | The assertion that a stripe to be marked is not dirty fails if and only if another thread has set the mark since this one looked at it and went on, or cleared it itself, and none has cleared it after that |
| `FlushRace.UnmarkFails` | ntoskrnl/cc/view.c:1129-1135 | The assertion that a stripe to be unmarked is dirty fails if and only if another thread has cleared the mark since this one saw it, and none has set it after that |
| `FlushRace.MarkedTwice` | ntoskrnl/cc/view.c:165-179 | A copy during a write that fails: marking the stripe again meets the mark of the copy |
| `CacheManager.Cc.FlushDirtyPages` | ntoskrnl/cc/view.c:183-287 | A file that has to be skipped (temporary or without write-behind when called lazily, or not to be locked) is left alone: its bytes on disk, its counters and its stripes; any other stripe is dirty afterwards only if the target is met; the count and the dirty pages are what the outcomes of the writes make of them, and without failures the stripes are written back in the order they became dirty; with finitely many failed writes the loop terminates and reports fewer than target pages plus one stripe; readers see no change unless something has gone astray, which takes a write that ended at the end of the file |
| `CacheManager.Cc.TrimCache` | ntoskrnl/cc/view.c:290-417 | Trimming frees every VACB nobody uses; it reports the pages of those that were unused, as far as the target goes, and of those that a write-back set free, as far as the pages written back and the target go; it keeps every reference held by callers and loses no data unless something has gone astray, which takes a write that ended at the end of the file |
| `CacheManager.Cc.DetachUnused` | ntoskrnl/cc/view.c:319-377 | The pass over the LRU list unlinks exactly the VACBs with a single reference, whatever the target, and its page count stops at the target |
| `CacheManager.Cc.FreeDetached` | ntoskrnl/cc/view.c:401-412 | Everything on the local free list is freed with its last reference, and nothing else is touched |
| `CacheManager.Cc.FreeUnusedVacb` | ntoskrnl/cc/view.c:698-776 | Exactly the VACBs with one reference are freed, the others stay as they are, and the count is the number of those freed |
| `CacheState.FreeKeeps` | ntoskrnl/cc/view.c:1044-1081 | A VACB whose last reference goes is clean, unmapped and on none of the three lists |
| `CacheState.DropKeeps` | ntoskrnl/cc/view.c:79-97 | A caller's reference is never the last one, so giving it back never frees a listed VACB |
| `CacheState.DirtyAccounting` | ntoskrnl/cc/view.c:502-568 | In every state that satisfies the invariant, the total of dirty pages is the pages per stripe times the dirty list's length and the sum over the files, and the dirty list is exactly the VACBs with the dirty flag |
| `CacheState.MarkDirtyKeeps` | ntoskrnl/cc/view.c:502-534 | Marking dirty keeps the VACB invariant |
| `CacheState.UnmarkDirtyKeeps` | ntoskrnl/cc/view.c:538-568 | Unmarking keeps the VACB invariant |
| `CacheState.UnmarkDirtyAllowed` | ntoskrnl/cc/view.c:538-568 | For a dirty VACB the counters are large enough and a reference beyond the list's is there, so neither count underflows |
| `CacheState.UnlinkKeeps` | ntoskrnl/cc/view.c:359-368 | Taking an unused clean VACB off the file and LRU lists keeps the invariant |
| `CacheState.LinkKeeps` | ntoskrnl/cc/view.c:855-905 | A new VACB with an offset not yet cached keeps the invariant, in particular the strictly sorted list |
| `CacheManager.Cc.MarkDirtyVacb` | ntoskrnl/cc/view.c:502-534 | The routine marks one VACB, which goes to the end of the dirty list and of the LRU list, and keeps the invariant |
| `CacheManager.Cc.UnmarkDirtyVacb` | ntoskrnl/cc/view.c:538-568 | The routine undoes the mark, which the invariant always allows |
| `CacheSteps.LookupMiss` | ntoskrnl/cc/view.c:470-492 | When the lookup loop leaves early, no VACB behind covers the offset |
| `CacheManager.Cc.LookupVacb` | ntoskrnl/cc/view.c:458-498 | The early-exit lookup returns what an exhaustive search of the list returns, and takes a reference exactly when it finds something |
| `CacheContent.NoOverlap` | ntoskrnl/cc/view.c:855-905 | No byte of a file is cached by two listed VACBs |
| `CacheContent.ByteThrough` | ntoskrnl/cc/view.c:458-498 | What readers see of a byte is the listed VACB that covers it if that is valid, and the disk otherwise |
| `CacheContent.UnlinkContent` | ntoskrnl/cc/view.c:356-375 | Evicting a clean VACB changes nothing for readers |
| `VacbLists.InsertSorted` | ntoskrnl/cc/view.c:855-905 | Linking a VACB at its place keeps the list strictly sorted |
| `VacbLists.RemoveSorted` | ntoskrnl/cc/view.c:1189-1213 | Unlinking a VACB keeps the list strictly sorted |
| `CacheManager.Cc.FindPlace` | ntoskrnl/cc/view.c:855-893 | The search for the place finds the VACB that covers the offset or the gap in which a new one keeps the order |
| `CacheManager.Cc.MapView` | ntoskrnl/cc/view.c:824-845 | A mapping succeeds at first try, or after a retry that happens exactly when pruning freed something; readers see no change |
| `CacheManager.Cc.CreateVacb` | ntoskrnl/cc/view.c:780-933 | A stripe inside the section is found or created exactly when its mapping succeeds, is held by the caller and covers the offset; nothing changes for readers, and an offset at or behind the section's end is refused |
| `CacheManager.Cc.GetVacb` | ntoskrnl/cc/view.c:937-992 | The stripe is returned held, last on the LRU list, exactly when it is cached already or can be created, and the failure says whether the section or the memory ended; nothing changes for readers |
| `CacheManager.Cc.UnmapVacb` | ntoskrnl/cc/view.c:600-627 | Unmapping gives one mapping back, marks the stripe dirty if asked, changes nothing for readers, and goes astray exactly when it marks a stripe dirty that is not valid |
| `CacheManager.Cc.InitializeFileCache` | ntoskrnl/cc/view.c:1399-1509 | A file that was not cached gets an empty map with the flags given, reads as the disk holds it, and no other file changes; a cached file, and any file when memory is short, stays as it is |
| `CacheMaps.StepKeeps` | ntoskrnl/cc/view.c:1159-1509 | Every look, initialisation, release, reference, dereference, removal and step of a deletion keeps a shared map's count equal to its openings, a map with count zero with a closer of that very map, and the embedded private map with at most one handle, if and only if it is not an initialisation that saw no map, found another thread's under the lock, and has no memory for its private map |
| `CacheMaps.CachedWhileOpen` | ntoskrnl/cc/view.c:1268-1393 | In every run, up to the first step that uses a map which is gone, whoever has a file open finds its map with a count of all openings; a map nobody has open is there only while the thread that closed it last is on its way to delete it, and just such maps are found by the removal of closed ones |
| `CacheMaps.EveryRunRecords` | ntoskrnl/cc/view.c:1268-1509 | In every run without a fault so far: a handle has a private map exactly from an initialisation that succeeds to its release, the first one the map inside the shared map; each last close, and nothing else, sends one thread to delete that very map; references and deletions under way change by their own events only; and a file without a map gets one exactly by an initialisation that succeeds |
| `CacheMaps.DeletionFindsGone` | ntoskrnl/cc/view.c:1370-1388 | A thread that closes a file as the last one drops the lock before it deletes the map; it finds the map gone if and only if another deletion of that map has both begun and ended in between |
| `CacheMaps.DeletedTwice` | ntoskrnl/cc/view.c:1286-1324 | Open, close, removal of the closed map, end of that deletion: the closer's own deletion finds its map gone |
| `CacheMaps.ClosedTwice` | ntoskrnl/cc/view.c:1370-1388 | A second handle opens and closes the file in between: the later of the two deletions finds the map gone |
| `CacheMaps.LookFindsGone` | ntoskrnl/cc/view.c:1415-1440 | An initialisation reads the file's map without the lock; it uses a map that is gone if and only if a deletion of that map has ended since |
| `CacheMaps.LookedTooEarly` | ntoskrnl/cc/view.c:1415-1440 | A run in which it does |
| `CacheMaps.KilledWasOpen` | ntoskrnl/cc/view.c:1471-1486 | In every such run the failure path of an initialisation never removes a shared map of its own: whenever it removes one, another handle has it open |
| `CacheMaps.RaceLost` | ntoskrnl/cc/view.c:1436-1486 | Two handles and a failed allocation leave the first handle with a private map of a shared map that is gone |
| `CacheManager.Cc.FlushCache` | ntoskrnl/cc/view.c:1088-1155 | A range flush leaves a stripe it visits clean exactly when it was clean or its own write passed for success, whatever the other writes did, and no other stripe's mark changes; it reports success exactly when every dirty stripe it visits was written; readers see no change unless something has gone astray, which takes a write that ended at the end of the file |
| `CacheRanges.FlushReachesRange` | ntoskrnl/cc/view.c:1127-1146 | A range flush visits every stripe of its range if and only if the length counted from a stripe boundary spans as many stripes as the range; for an aligned offset it always does |
| `CacheRanges.FlushMissesAStripe` | ntoskrnl/cc/view.c:1127-1146 | Two bytes across a stripe boundary: the second stripe is not flushed |
| `CacheRanges.CleanIsOnDisk` | ntoskrnl/cc/view.c:1088-1155 | Once no stripe of a file is dirty, the disk holds the file its readers see |
| `CacheManager.Cc.PurgeCacheSection` | ntoskrnl/cc/fs.c:160-264 | A purge that succeeds drops exactly the views of the range, those that start in it and end before it does, without writing them, so they read from disk afterwards and everything else as before; one that fails has stopped at a view that is in use, with exactly the views of the range in front of it gone |
| `CacheSteps.PurgeReached` | ntoskrnl/cc/fs.c:207-248 | Because the list is sorted, nothing behind the entry at which the loop stops was purgeable |
| `CacheRanges.PurgeOfOneStripe` | ntoskrnl/cc/fs.c:214-225 | A purge of exactly the first of two stripes leaves it cached |
| `CacheRanges.DropKeepsInv` | ntoskrnl/cc/fs.c:238-248 | Dropping a view nobody holds keeps the invariant, dirty or mapped or not |
| `CacheRanges.DroppedContent` | ntoskrnl/cc/fs.c:238-248 | The dropped stripe reads from disk, every other byte as before |
| `CacheManager.Cc.DeleteFileCache` | ntoskrnl/cc/view.c:1159-1266 | Unless the file was opened again during the write-back, exactly its VACBs go; those somebody holds are left behind with exactly the holders' references, all others are freed; if the writes succeed, nothing has gone astray and no stripe beyond the file size was dirty, the disk is left with exactly the file its readers saw |
| `WorkerPool.StepKeeps` | ntoskrnl/cc/lazywrite.c:53-91 | Every post, take and finish keeps: active plus idle workers is the pool size, each posted item is in exactly one place, queues are in posting order, a set throttle has a worker that will drop it, and waiting work has an active worker |
| `WorkerPool.RunKeeps` | ntoskrnl/cc/lazywrite.c:226-360 | The same over every run of any number of workers |
| `WorkerPool.OnePlace` | ntoskrnl/cc/lazywrite.c:254-338 | Each posted item is queued, in one worker's hands, or done, and only one of these |
| `WorkerPool.Barrier` | ntoskrnl/cc/lazywrite.c:254-338 | When a worker takes a SetDone item, every item posted before it is completely handled if and only if it did not overtake older regular work from the express queue |
| `WorkerPool.BarrierInEveryRun` | ntoskrnl/cc/lazywrite.c:367-404 | In every run in which SetDone goes to the regular queue, as the code posts it, the barrier holds |
| `WorkerPool.WorkerStepShrinks` | ntoskrnl/cc/lazywrite.c:226-360 | Every worker step makes progress towards rest |
| `WorkerPool.RunsShrink` | ntoskrnl/cc/lazywrite.c:226-360 | Without new posts the workers stop after a bounded number of steps |
| `WorkerPool.QuietMeansDone` | ntoskrnl/cc/lazywrite.c:320-338 | When no worker can move, every item ever posted has been handled exactly once and the throttle is off |
| `WorkerPool.InitialInv` | ntoskrnl/cc/cacheman.c:85-99 | The pool as it is set up satisfies the invariant |
| `WorkerPool.WorkQueues.PostWorkQueue` | ntoskrnl/cc/lazywrite.c:53-91 | Posting appends the item to the queue it is given and leaves the other one alone, wakes the first idle worker exactly when there is one and the throttle is off, keeps the pool's invariant, puts the new item in exactly one place, and leaves a worker active |
| `WorkerPool.WorkQueues.LookForWork` | ntoskrnl/cc/lazywrite.c:255-300 | An item handed out is the head of the express queue whenever that is not empty, otherwise of the regular one, and the other queue is untouched; there is none exactly when both are empty or a SetDone comes next while others are active, which alone sets the throttle; a SetDone item is taken with everything posted before it done if and only if it did not overtake older regular work; a worker that finds nothing while work waits or the throttle is on leaves another one active |
| `WorkerPool.WorkQueues.FinishWork` | ntoskrnl/cc/lazywrite.c:303-338 | Finishing keeps the invariant and touches no queue; the item was not done before and is done exactly once now, and only after a SetDone will the worker drop the throttle |
| `WorkerPool.ExpressFirst` | ntoskrnl/cc/lazywrite.c:262-285 | In every run each item waits in the queue it was posted to, and one posted to the regular queue is taken only when the express queue is empty |
| `BootDrivers.DriverList.OrderGroup` | ntoskrnl/config/cmboot.c:611-669 | On every segment the loop ends, leaves the segment a permutation of itself sorted by tag, and touches nothing outside it |
| `BootDrivers.DriverList.Round` | ntoskrnl/config/cmboot.c:622-665 | Each turn keeps the sorted prefix and shrinks the measure, although it re-inserts in front of the stopping node |
| `TagOrder.RoundShrinks` | ntoskrnl/config/cmboot.c:646-664 | A turn that does not remove an inversion moves the only new one a place forward |
| `TagOrder.MovePastLarger` | ntoskrnl/config/cmboot.c:646-664 | Moving an element in front of larger ones removes exactly one inversion for each |
| `BootDrivers.DriverList.WalkBack` | ntoskrnl/config/cmboot.c:649-657 | The walk back passes exactly the nodes with larger tags |
| `BootDrivers.DriverList.BucketPass` | ntoskrnl/config/cmboot.c:529-549 | One pass puts the later of any two drivers in front of the earlier exactly when the later one is of the group, in whatever case its name is written: the group comes to the front in reverse order and the rest keeps its order |
| `GroupOrder.BucketOrder` | ntoskrnl/config/cmboot.c:529-549 | The same for the list a pass makes, pair by pair |
| `BootDrivers.DriverList.ScanName` | ntoskrnl/config/cmboot.c:517-527 | The backward scan of the order list finds exactly the name before the current one |
| `BootDrivers.DriverList.DoSort` | ntoskrnl/config/cmboot.c:505-557 | The passes over all names, last to first, give the list of buckets, a permutation of the drivers |
| `GroupOrder.BucketsRanked` | ntoskrnl/config/cmboot.c:505-557 | The buckets are ordered by the first position of each driver's group in the order list, unlisted drivers last |
| `GroupOrder.BucketsKeepUnlisted` | ntoskrnl/config/cmboot.c:505-557 | Drivers of no listed group keep their relative order |
| `BootDrivers.DriverList.FindRun` | ntoskrnl/config/cmboot.c:681-711 | The inner loop finds the maximal run of one group |
| `BootDrivers.DriverList.ResolveDriverDependencies` | ntoskrnl/config/cmboot.c:674-719 | Every maximal run of one group is sorted by tag, and no driver changes its group's position |
| `BootDrivers.DriverList.SortRun` | ntoskrnl/config/cmboot.c:681-716 | One turn sorts the run it finds and leaves every driver's group where it was |
| `GroupOrder.RunsGiveBootOrder` | ntoskrnl/config/cmboot.c:674-719 | Sorting the runs of a list ordered by group orders it by group and tag |
| `BootDrivers.DriverList.OrderBootDrivers` | ntoskrnl/config/cmboot.c:562-606 | Bucket pass and tag pass together yield a permutation ordered by the group's first position in the list and then by tag, with unlisted drivers after all listed ones, their groups in the order they had, and every run of one group sorted by tag |
| `KcbSteps.ReferencesConserved` | ntoskrnl/config/cmkcbncb.c:357-427 | In every reachable state a block's count is its holders plus live children plus queued deferred dereferences plus lost ones, its parent is live, its count is zero exactly when it is on the delayed-close list, the element counter is that list's length, and nothing refers to a freed block |
| `KcbSteps.NothingLeaks` | ntoskrnl/config/cmkcbncb.c:476-513 | When nobody holds a key, nothing is queued, delayed or lost, no block is left |
| `KcbSteps.LostForEver` | ntoskrnl/config/cmdelay.c:308-310 | A reference dropped because no delay item could be allocated keeps its block alive in every continuation of the run |
| `KcbSteps.LosingRunLoses` | ntoskrnl/config/cmdelay.c:308-310 | A root and a key below it are opened, the root is closed, and the key is closed while lazy flushing is held back and no delay item can be had: the key is gone, nobody holds the root, and a reference to it is lost |
| `KcbSteps.PlentyLosesNothing` | ntoskrnl/config/cmdelay.c:308-310 | As long as delay items can be allocated, no reference is lost |
| `KcbSteps.After` | ntoskrnl/config/cmkcbncb.c:606-637 | The invariant holds after every sequence of references, dereferences, creations, deletions, evictions and worker turns |
| `KcbSteps.Release` | ntoskrnl/config/cmkcbncb.c:606-637 | Giving a reference back, with the recursion up the parents that ends with the tree's levels, keeps the invariant with one reference less outstanding; with the registry locked exclusively nothing is put off or lost; a worker is armed exactly when it has work |
| `KcbSteps.ReleaseTouches` | ntoskrnl/config/cmkcbncb.c:476-513 | Giving a reference back changes the block and its ancestors only |
| `KcbSteps.Take` | ntoskrnl/config/cmkcbncb.c:357-427 | A reference taken adds exactly one holder, below 64K references, and keeps the invariant |
| `KcbSteps.GiveBack` | ntoskrnl/config/cmkcbncb.c:571-602 | A reference given back removes exactly one holder and keeps the invariant |
| `KcbSteps.CloseOldest` | ntoskrnl/config/cmdelay.c:71-159 | One turn of the close worker keeps the invariant; only a shortage of delay items loses a reference |
| `KcbSteps.Delete` | ntoskrnl/config/cmapi.c:1838-1912 | Deleting an open key keeps the invariant, every block and every holder |
| `KcbSteps.Postpone` | ntoskrnl/config/cmdelay.c:286-331 | A deferred dereference keeps the invariant and every block; a reference that is the last, or whose exchange fails, is queued exactly when there is a delay item and lost exactly when there is none; any other is given back at once |
| `KcbSteps.Drain` | ntoskrnl/config/cmdelay.c:226-263 | The dereference worker ends with an empty queue and the work item disarmed, keeping the invariant |
| `KcbSteps.Create` | ntoskrnl/config/cmkcbncb.c:655-893 | Opening a key yields the block it has, or the new one exactly when it has none and there is memory and room below the parent; the caller gains exactly one reference, and every failure path, that for a hive being unloaded included, keeps the invariant and all holders |
| `KcbEffects.CreateMakes` | ntoskrnl/config/cmkcbncb.c:718-870 | Whatever is asked for, a new block has the key, parent and flags that were asked for, one level more than its parent, one reference and the front of its hash chain; the parent has exactly one reference more, and every other block and chain is as it was |
| `KcbEffects.CreateReuses` | ntoskrnl/config/cmkcbncb.c:746-796 | A key that has a block gets it with one reference more; a fake key becomes real with its flags reset, a frozen hive is remembered, and everything else is as it was |
| `KcbEffects.CreateFails` | ntoskrnl/config/cmkcbncb.c:797-863 | A key that is not opened leaves everything as it was, but for an unused parent of a key without memory for its name, which is first among the unused again or freed like any block whose last reference goes |
| `KcbEffects.DeleteMarks` | ntoskrnl/config/cmapi.c:1904-1912 | A deleted key with a parent is marked, loses its cell, and its old key is not found any more; every other block and chain stays; a root or a key that was deleted before stays as it is |
| `KcbEffects.EveryRunDoes` | ntoskrnl/config/cmkcbncb.c:357-893 | In every run each event does to the blocks, the holders and the lists exactly what its routine should: references, dereferences, creations, deletions, evictions, worker turns |
| `KcbEffects.WorkersArmedInTime` | ntoskrnl/config/cmdelay.c:286-421 | In every run the close worker and the dereference worker are set going only by an event that leaves them work, and stop only when there is none |
| `KcbSteps.Evict` | ntoskrnl/config/cmapi.c:2416-2428 | Throwing an unused block out keeps the invariant and every holder, frees that block, and adds none; with the registry locked nothing is queued or lost, otherwise only reference counts change |
| `KcbState.EraseKeeps` | ntoskrnl/config/cmkcbncb.c:476-513 | Freeing a block whose last reference went leaves exactly its parent's reference to be given back |
| `KcbState.EraseDelayedKeeps` | ntoskrnl/config/cmdelay.c:125-151 | Freeing a delayed block also takes it off the list and the counter |
| `KcbState.DelayKeeps` | ntoskrnl/config/cmdelay.c:350-421 | Delaying the close of a block keeps the invariant, and arms the worker when the list is too long |
| `KcbState.IncrementKeeps` | ntoskrnl/config/cmkcbncb.c:357-427 | Referencing a block, delayed or not, keeps the invariant |
| `KcbState.MarkDeletedKeeps` | ntoskrnl/config/cmapi.c:1907-1912 | Marking a key deleted takes it out of the hash table and keeps the invariant |
| `KcbState.EnterKeeps` | ntoskrnl/config/cmkcbncb.c:109-144 | A new block with a new key keeps the invariant, in particular one block per key |
| `KcbCache.KcbCache.RemoveKeyHash` | ntoskrnl/config/cmkcbncb.c:78-105 | The walk along the chain finds the block and unlinks just it |
| `KcbCache.KcbCache.FindKeyHash` | ntoskrnl/config/cmkcbncb.c:109-144 | Searching one chain finds the block of a key exactly when there is one |
| `KcbCache.KcbCache.ReferenceKeyControlBlock` | ntoskrnl/config/cmkcbncb.c:357-427 | Referencing fails exactly at 64K references and otherwise takes the block off the delayed-close list if it is there |
| `KcbCache.KcbCache.DereferenceWithLock` | ntoskrnl/config/cmkcbncb.c:606-637 | The in-place recursion performs exactly the release of the specification |
| `KcbCache.KcbCache.CleanUpKcbCache` | ntoskrnl/config/cmkcbncb.c:476-513 | Cleaning a block up frees it and gives its parent's reference back, at once or deferred |
| `KcbCache.KcbCache.AddToDelayedClose` | ntoskrnl/config/cmdelay.c:350-421 | A block is delayed, or cleaned up at once when no delay item can be allocated |
| `KcbCache.KcbCache.DelayDerefKeyControlBlock` | ntoskrnl/config/cmdelay.c:286-331 | The routine performs exactly the postponed release of the specification |
| `KcbCache.KcbCache.DereferenceKeyControlBlock` | ntoskrnl/config/cmkcbncb.c:571-602 | A holder's dereference performs the release, with the lock only for the last reference: the block then stays, first on the delayed-close list, exactly when nothing calls for direct deletion and there is a delay item; any other reference changes the block's count and nothing else |
| `KcbCache.KcbCache.CreateKeyControlBlock` | ntoskrnl/config/cmkcbncb.c:655-893 | The routine performs exactly the creation of the specification, with the blocks and the answer that the creation lemmas give for every request |
| `KcbCache.KcbCache.OpenKey` | ntoskrnl/config/cmkcbncb.c:655-893 | The key is known by its hive, its cell, one more for a fake key, and the parent's hash continued over the stripped name; a new block has that key, the parent and the flags asked for, a level below the parent, which has one reference more; a key that has a block gets that one; the answer is the one that memory, room below the parent and the unloading hive demand |
| `KcbCache.KcbCache.DeleteKey` | ntoskrnl/config/cmapi.c:1838-1912 | Deleting an open key that has a parent and is not deleted yet marks it, takes its cell and its place in the hash table, so that a lookup of its old key finds nothing, and changes nothing else; any other key stays as it is |
| `KcbCache.KcbCache.EvictEmpty` | ntoskrnl/config/cmapi.c:2416-2428 | The routine performs exactly the eviction of the specification: the block is gone, nothing is queued or lost, and all holders stay |
| `KcbCache.KcbCache.DelayDerefWorker` | ntoskrnl/config/cmdelay.c:226-263 | The loop ends although it queues new entries, takes them in the order they came, and performs exactly the drain of the specification |
| `KcbCache.KcbCache.DelayCloseWorker` | ntoskrnl/config/cmdelay.c:56-186 | One run closes the longest unused blocks, exactly as many as exceed the table size but at most a quarter of it, leaves all other blocks with their content, and stays armed exactly when there is more to do |
| `DelayedClose.RunsKeep` | ntoskrnl/config/cmkcbncb.c:357-427 | Over every interleaving of creations, references, among them such that drop their lock to convert it, dereferences, evictions and worker turns over the tree of blocks: a block is listed exactly while unused or claimed, who claimed it is still waiting, and its count is that of all references to it |
| `DelayedClose.CountedInEveryRun` | ntoskrnl/config/cmkcbncb.c:357-427 | Reference conservation whoever converts a lock: in every run a block's count is its users, converting threads, live children, and references owed or lost, its parent is there, and nothing refers to a freed block; once nobody converts for it, it is unused exactly if it is on the delayed-close list |
| `DelayedClose.EveryRunRecords` | ntoskrnl/config/cmkcbncb.c:357-637 | In every run each event changes exactly its own references, frees exactly the blocks it should (a last reference that calls for it, an eviction, the oldest entry that nobody converts for), keeps every parent, and changes the list only at its front and where a block leaves it |
| `DelayedClose.AssertionsHold` | ntoskrnl/config/cmkcbncb.c:383-395 | The code's assertions after a conversion, and on a block whose last reference goes, hold in every run |
| `DelayedClose.PutBackExactly` | ntoskrnl/config/cmdelay.c:127-158 | In every run the close worker puts the oldest entry back exactly when a thread is converting its lock for that block, and otherwise frees a block nobody uses |
| `DelayedClose.PutBackHappens` | ntoskrnl/config/cmdelay.c:134-142 | A run in which the worker puts an entry back |
| `NameHash.KeyHash` | ntoskrnl/config/cmkcbncb.c:680-709 | A key's hash is the hash of its whole path, and separators do not count |
| `NameHash.HashOfDigits` | ntoskrnl/config/cmkcbncb.c:696-709 | The hash of a name without separators is the number whose digits to the base 37 are its case-mapped characters, on top of the seed, in 32 bits |
| `NameHash.StrippedHash` | ntoskrnl/config/cmkcbncb.c:685-691 | Leading separators change neither the name nor the hash |
| `NameHash.ComputeConvKey` | ntoskrnl/config/cmkcbncb.c:696-709 | The loop computes the hash |
| `NameTable.SharedExactly` | ntoskrnl/config/cmkcbncb.c:148-302 | In a table whose names have only characters that are mapped no further when mapped twice, stay 8-bit or wide, and do not turn into or from the separator, whatever the case mapping does to other characters, two keys share a name block exactly when their names are equal after case mapping |
| `NameTable.CountsItsUsers` | ntoskrnl/config/cmkcbncb.c:148-302 | For every case mapping a block's count is the number of keys that use it, and no block is kept without one; for names of such characters these are the keys with its name |
| `NameTable.SameNameTwice` | ntoskrnl/config/cmkcbncb.c:188-288 | A name whose capital does not fit a byte gets a second block when it is entered again |
| `NameTable.NameCache.GetNameControlBlock` | ntoskrnl/config/cmkcbncb.c:148-302 | For every case mapping and name, the name gets a block that accepts it, with one reference more, or a new one exactly when none does, which stores its case-mapped characters, one byte each exactly if none is wide; it fails, with nothing changed, only when that needs memory that is not there |
| `NameTable.NameCache.DereferenceNameControlBlock` | ntoskrnl/config/cmkcbncb.c:317-353 | The block goes exactly with its last user, otherwise only its count changes, and every other block keeps its content and count |
| `NameTable.NameCache.Search` | ntoskrnl/config/cmkcbncb.c:188-247 | For every case mapping, the search of one chain finds a block that accepts the name exactly when there is one in the table |
| `NameBlocks.AcceptsExactly` | ntoskrnl/config/cmkcbncb.c:196-233 | For names of characters that are mapped no further when mapped twice, stay 8-bit or wide, and do not turn into or from the separator, a block made for one accepts exactly those equal to it after case mapping |
| `NameBlocks.FoundAgain` | ntoskrnl/config/cmkcbncb.c:250-288 | For every case mapping, a name is found again in the block made for it exactly when each of its characters survives being stored |
| `NameBlocks.TruncationLosesAName` | ntoskrnl/config/cmkcbncb.c:265-275 | The letter y with diaeresis, whose capital is wide, is stored cut to a byte and not found again |
| `NameBlocks.CompareCompressed` | sdk/lib/cmlib/cmname.c:109-145 | The comparison gives the difference of the first characters that differ up to case, or else that of the lengths; it is zero exactly when the names have the same length and agree up to case |
| `NameBlocks.CompareWide` | ntoskrnl/config/cmkcbncb.c:214-233 | The comparison never reads past the end of the searched name, even if that name is of the other kind |
| `NameBlocks.Measure` | ntoskrnl/config/cmkcbncb.c:174-186 | The loop tells 8-bit names from wide ones and measures them accordingly |
| `BlockPool.Allocator.Allocate` | ntoskrnl/config/cmalloc.c:196-262 | The first free block is handed out, or the first of a new page when none is free; nobody had it; the request fails, with nothing changed, exactly when no block is free and no page can be had; the jump back to the search is taken at most once |
| `BlockPool.Allocator.Free` | ntoskrnl/config/cmalloc.c:266-302 | A page goes back to the system exactly when none of its blocks is handed out any more, and takes just its own blocks off the free list; otherwise the block is last on that list |
| `BlockPool.Allocator.AllocateKcb` | ntoskrnl/config/cmalloc.c:111-192 | Without a page the allocation falls back to a single block, and fails only without that too |
| `BlockPool.Allocator.FreeKcb` | ntoskrnl/config/cmalloc.c:53-107 | A block goes back where it came from |
| `BlockPool.CountsAddUp` | ntoskrnl/config/cmalloc.c:196-302 | In every state FreeCount and the blocks handed out of a page add up to all of its blocks |
| `BlockPool.PageInUse` | ntoskrnl/config/cmalloc.c:266-302 | At rest every page that is kept has a block handed out |
| `BlockPool.GiveBackKeeps` | ntoskrnl/config/cmalloc.c:266-302 | Giving a block back keeps the free count exact, and at most fills its page |
| `BlockPool.DropPageKeeps` | ntoskrnl/config/cmalloc.c:284-297 | When a page is released all its blocks are on the free list and none is handed out; afterwards none is on the list |
| `BlockPool.TakeKeeps` | ntoskrnl/config/cmalloc.c:209-232 | Handing the first free block out keeps every block in exactly one place |
| `Callbacks.RunsKeep` | ntoskrnl/config/cmhook.c:59-198 | Over every interleaving of any number of walks, registrations and unregistrations: the rundown count is the number of activities inside the callback, the list is in the order of registration, and at most one unregister call works on an entry |
| `Callbacks.StepKeeps` | ntoskrnl/config/cmhook.c:59-198 | Every single step keeps that |
| `Callbacks.NeverRunsAgain` | ntoskrnl/config/cmhook.c:151-198 | Once an unregister call has succeeded, its callback does not run in any continuation |
| `Callbacks.UnregisteredOnce` | ntoskrnl/config/cmhook.c:151-198 | No registration is unregistered twice with success |
| `Callbacks.WalksOnLiveEntries` | ntoskrnl/config/cmhook.c:59-101 | A walk only ever stands on, runs, or moves on to an entry that is in memory and in the list |
| `Callbacks.UnregistersLiveEntries` | ntoskrnl/config/cmhook.c:151-198 | An unregister call works on allocated memory until it frees it, and unlinks only when nobody is inside the callback |
| `Callbacks.WalkIsComplete` | ntoskrnl/config/cmhook.c:59-101 | A walk that is over and was not stopped by a callback that failed has called every callback registered then and not being unregistered, and none twice |
| `Callbacks.ReturnKeeps` | ntoskrnl/config/cmhook.c:83-94 | Because the mutex is taken before the rundown protection is released, the walk goes on, with the mutex, from an entry that is still linked; after a failure it is over and the mutex is free |
| `Callbacks.WalkGoesOn` | ntoskrnl/config/cmhook.c:83-94 | In every run: after a callback that succeeded the walk is at the next registration in time, or at the end when there is none, holds the mutex and has called nothing more; after one that failed it is over and the mutex is free |
| `Callbacks.WalkEnds` | ntoskrnl/config/cmhook.c:69-98 | In every run a walk is over only by reaching the end of the list or by a callback that failed |
| `Callbacks.WalkBegins` | ntoskrnl/config/cmhook.c:67-70 | A walk starts at the oldest registration, with the mutex and nothing called |
| `Callbacks.WalkLooks` | ntoskrnl/config/cmhook.c:73-81 | At an entry that is not being unregistered the walk calls its callback without the mutex and inside its rundown protection; any other it passes by for the next registration, keeping the mutex |
| `Callbacks.CalledByLooks` | ntoskrnl/config/cmhook.c:73-81 | A walk calls callbacks only by its own looks |
| `Callbacks.UnregisterFinds` | ntoskrnl/config/cmhook.c:157-197 | An unregister call takes on its entry exactly when it is registered and nobody else is unregistering it, and otherwise changes nothing |
| `Callbacks.UnregisterGoesOn` | ntoskrnl/config/cmhook.c:171-184 | It goes on only when nobody is inside the callback, and then unlinks the entry, frees it and succeeds |
| `Callbacks.RegisteredLast` | ntoskrnl/config/cmhook.c:108-144 | A new registration comes last and leaves the others as they are |
| `Callbacks.SomebodyMoves` | ntoskrnl/config/cmhook.c:59-198 | In every run, as long as anything is going on, some activity can take its next step: no deadlock |
| `Callbacks.BoundedWalks` | ntoskrnl/config/cmhook.c:59-198 | In every run each step of an activity brings it closer to its end, and only a new registration takes it further away, by at most two steps |
| `IrpCancel.CompletedOnce` | media/doc/irp cancel boilerplate.c:10-103 | In every interleaving of queueing, dequeueing and cancelling, each IRP is completed at most once, and once exactly when one side is through with it |
| `IrpCancel.QuietMeansCompleted` | media/doc/irp cancel boilerplate.c:10-103 | In every run, once no IRP has a step left, each IRP is completed exactly once, or waits in the queue with its cancel routine set and no cancellation of it has been through the exchange of the routine |
| `IrpCancel.CancelledNeverWaits` | media/doc/irp cancel boilerplate.c:39-53 | In every run, an IRP whose cancellation has been through the exchange, even before it was queued, never waits in the queue with its routine set afterwards |
| `IrpCancel.CompletedAs` | media/doc/irp cancel boilerplate.c:10-103 | An IRP is completed as cancelled only if somebody cancelled it, always so by its cancel routine, and otherwise with success |
| `IrpCancel.WhoGetsTheRoutine` | media/doc/irp cancel boilerplate.c:39-103 | Whoever takes the cancel routine out has the IRP, and its status says who; a driver that finds it gone leaves the IRP to the canceller, queued or linked to itself |
| `IrpCancel.QueueOrder` | media/doc/irp cancel boilerplate.c:55-75 | In every run the queue is first in, first out, and a cancellation takes out just its own IRP |
| `IrpCancel.FlagStays` | media/doc/irp cancel boilerplate.c:39-40 | The cancel flag, once set, stays set |
| `IrpCancel.BoundedSteps` | media/doc/irp cancel boilerplate.c:10-103 | In every run each IRP takes at most twelve steps, so the protocol comes to rest |
| `IrpCancel.StepsRunOut` | media/doc/irp cancel boilerplate.c:10-103 | Whatever step an IRP has left counts towards these twelve, so an IRP that has taken them is at rest |
| `IrpCancel.ListWellFormed` | media/doc/irp cancel boilerplate.c:10-103 | In every run the links form one ring through exactly the queued IRPs |
| `IrpCancel.StepKeeps` | media/doc/irp cancel boilerplate.c:10-103 | Every step keeps the ownership rule and the ring |
| `IrpCancel.LostRaceKeeps` | media/doc/irp cancel boilerplate.c:73-88 | A dequeue that lost the race leaves the entry linked to itself |
| `CancelRing.RemoveSelfLinked` | media/doc/irp cancel boilerplate.c:20-22 | The cancel routine's removal of a self-linked entry does not change the ring |
| `CancelRing.RemoveKeepsRing` | media/doc/irp cancel boilerplate.c:71-75 | Removing an entry anywhere closes the ring around it |
| `CancelRing.InsertKeepsRing` | media/doc/irp cancel boilerplate.c:58-64 | Inserting at the tail extends the ring |
| `CancelRing.StaleLinksBreakTheRing` | media/doc/irp cancel boilerplate.c:75-87 | Without the self-link a second removal would put an entry back that is no longer queued |
| `HiveFlush.EpochEnds` | ntoskrnl/config/cmlazy.c:34-125 | An epoch ends within n/7 + 1 calls, whatever is written to the hives in between and whichever syncs fail |
| `HiveFlush.EpochComplete` | ntoskrnl/config/cmlazy.c:34-125 | When an epoch ends, every hive that was due at its start has been dealt with by exactly one of the calls and is due again in the next one; HvSyncHive was called for it with success, once, exactly when that call found it dirty or was told to force and the sync did not fail |
| `HiveFlush.EndsExactly` | ntoskrnl/config/cmlazy.c:110-120 | A call ends the epoch exactly when fewer hives than its share are due, or just as many with the last hive of the list among them, whatever fails to sync |
| `HiveFlush.FailedSyncPassesForDone` | sdk/lib/cmlib/hivewrt.c:242-275 | A dirty hive whose sync fails is marked as flushed, still dirty, and the epoch ends, because the boolean result of the sync is tested as a status |
| `HiveFlush.WalkCovers` | ntoskrnl/config/cmlazy.c:56-103 | A call deals with the due hives from the front of the list, all up to where it stops and none beyond, and stops at the end or after its share; a due hive gets the epoch, and is synced and clean exactly if it was dirty or the flush is forced, is not volatile, and the sync does not fail |
| `HiveFlush.FullShare` | ntoskrnl/config/cmlazy.c:56-120 | A call that does not end the epoch takes exactly seven hives off what is due |
| `HiveFlush.RunsKeep` | ntoskrnl/config/cmlazy.c:176-230 | Over every run of calls and writes, HvSyncHive is not called with success more than once for a hive in an epoch |
| `HiveFlush.LazyFlusher.DoFlushNextHive` | ntoskrnl/config/cmlazy.c:34-125 | The loop performs that walk, and asks to be called again exactly when it did not reach the end of the list; with writing disabled it changes nothing and asks to be called again |
| `HiveFlush.LazyFlusher.LazyFlushWorker` | ntoskrnl/config/cmlazy.c:176-230 | The worker advances the epoch, in 32 bits, exactly when the call ended it, and has then dealt with every hive of the list |
| `KeyPath.RoundTrip` | ntoskrnl/config/cmparse.c:21-71 | Printing a chain's path and taking it apart gives the chain's names back exactly when no name contains a separator and none but the last is empty |
| `KeyPath.EndMarker` | ntoskrnl/config/cmparse.c:29-39 | After the last name the tokenizer reports the end |
| `KeyPath.TokensClean` | ntoskrnl/config/cmparse.c:21-71 | Whatever path is taken apart, the names have no separators and only the last can be empty |
| `KeyPath.GetNextName` | ntoskrnl/config/cmparse.c:21-71 | A path that is empty or starts with a zero character gives no name; any other gives the name behind its leading separators up to the next one, with the rest, the last flag and the validity flag |
| `KeyPath.NextNameSplits` | ntoskrnl/config/cmparse.c:21-71 | The same for every path, with the flags: last exactly when nothing is left, valid exactly up to 256 characters |
| `KeyPath.SplitsOnce` | ntoskrnl/config/cmparse.c:42-61 | There is only one way to split a path so |
| `KeyPath.RelativeRoundTrip` | ntoskrnl/config/cmparse.c:42-61 | The names of a path that does not start with a separator come back exactly when moreover the first one is there and does not start with a zero character |
| `KeyPath.QueryNameInformation` | ntoskrnl/config/cmapi.c:1517-1610 | The second pass fills exactly the length the first computed with the path from the root, for compressed and wide names, and touches nothing behind it; short buffers are refused with the needed length and without a write |
| `KeyPath.Measure` | ntoskrnl/config/cmapi.c:1526-1545 | The first pass computes the size of the path |
| `KeyPath.Fill` | ntoskrnl/config/cmapi.c:1561-1606 | The back-to-front pass ends exactly at the start of the buffer |

## Left out

- Threads inside a cache routine: each routine of `CacheManager` is one atomic change, so locks dropped in the middle (page-out in `CcRosTrimCache`, the window in `CcRosCreateVacb`) are not modelled there; the windows inside a write-back and around the dirty mark are in `FlushRace`.
- Pinning (ntoskrnl/cc/pin.c), read-ahead, deferred writes, `CcCanIWrite` and file-size changes.
- CacheManager.Cc.FlushDirtyPages: runs in which writes fail for ever are not modelled; the sequence of failed writes is finite.
- CacheManager.Cc.DeleteFileCache: what holders do with a VACB that was left behind is not modelled; the count of open handles is a parameter.
- CacheManager.Cc.InitializeFileCache: the open count, the private cache map and the lost race are in `CacheMaps`, which does not have the cached data; the read-ahead fields of a private map are left out.
- CacheMaps: what a step does that uses a map which is gone; runs are followed up to it.
- FlushRace: a write carries the bytes of one moment; copies that change some bytes of it while it is under way count as later.
- CacheManager.Cc.UnmapVacb: like the assertion in the code, it demands that the stripe is mapped.
- CacheService.Serve: purge, unmap and deletion are covered by their own contracts, since they discard or need not keep data.
- Paging out mapped pages, and the alternative cache manager in ntoskrnl/cache.
- The lazy writer's scan and timer, and the deferred-write retry in the worker loop; a job's own work is one step.
- Boot drivers are given as a list; reading them from the registry is not modelled, and the list's links are a sequence of nodes.
- Key control blocks: value cache, subkey hints, key bodies and security are left out; the symbolic-link flag of the value cache is never set by this code. Every routine of `KcbCache` runs under the locks it takes; references that convert their lock are in `DelayedClose`, which does not have the keys and the hash table.
- KcbCache.KcbCache.DelayCloseWorker: with atomic references the entry at the end of the list is always unused; the turn that puts an entry back is in `DelayedClose`.
- DelayedClose: the count of a block does not reach 64K through claims alone.
- KcbCache.KcbCache.CreateKeyControlBlock: the new block is entered where it is known to stay, while the code enters it first and takes it out again on failure under the same locks.
- KcbCache.KcbCache.EvictEmpty: one eviction of `CmpEnumerateOpenSubKeys`; the loop over the hash table and its count are left out.
- NameTable.NameCache.GetNameControlBlock: like the assertion in the code, it demands fewer than 64K users of a name; what happens when the 16-bit count wraps is not modelled.
- Callbacks: the newer callback vector, and the arguments and results of callbacks beyond success or failure.
- IrpCancel: the dequeue routine is only called on a list that is not empty, as the boilerplate presupposes.
- HiveFlush.LazyFlusher.DoFlushNextHive: the count of dirty data it adds up for a debug message, and the error flag it never sets.
- HiveFlush: the hive list is fixed during an epoch; the timer and the hold flag are left out.
- KeyPath.GetNextName: paths are shorter than 64 KB, as their length field requires.
- Exceptions while writing to user buffers, probing, and access checks.
- Value and key contents of hives (the cell layer), notification, hive loading and boot configuration: they rest on code outside this model or would add easy members only.
