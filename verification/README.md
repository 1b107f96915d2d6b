# Cache and sync engine: a verified model

The system mounts a cloud drive as a local file system. Its hard part is the engine below the mount:
caches that must stay bounded and correctly accounted while everything changes, and background loops
that must neither lose nor repeat work. This project models that engine and proves what it keeps.

| file | models |
|---|---|
| `Bits.dfy`, `QuickXorHash.dfy` | the streaming content hash, against the published bit-level algorithm |
| `Wrappers.dfy` | optional values |
| `HeapOrder.dfy` | the heap algorithms of Go's `container/heap`, over any total preorder |
| `ContentEviction.dfy` | the in-place, index-carrying heap of content files |
| `ContentSpec.dfy`, `ContentCache.dfy` | disk, descriptors, byte accounting, and eviction against a sorted walk |
| `ContentRuns.dfy`, `ContentEffects.dfy` | whole runs of the content cache under any file-system outcomes, and what each operation leaves behind |
| `InodeModel.dfy`, `InodeRuns.dfy`, `InodeEffects.dfy` | cached listings: mutators and their effects, ring coverage, generation heap, counter |
| `InodeSweep.dfy`, `InodeTheorems.dfy`, `InodeCache.dfy` | the 60-bucket TTL sweep, its parity with the full scan, size eviction, whole runs |
| `Persistence.dfy` | dirty tracking and batched persistence under interleaved mutations and failing batches |
| `UploadManager.dfy`, `UploadEffects.dfy` | queue, session table, retries, in-flight slots and snapshot files as one state machine |
| `PreWarm.dfy` | the breadth-first warm-up at mount |
| `DeltaSync.dfy`, `DeltaCycles.dfy` | the delta page loop with carried folder deletions, and whole cycles of it |

Main results:

- **Hash.** For every message, and for every way of cutting a stream below 2^64 bytes into writes, the
  1760-lane buffer yields the published digest. Any change inside 14 consecutive bytes changes the
  digest, and 14 is the best possible.
- **Content eviction.** The heap-driven pass removes exactly what a walk in (modification time, path)
  order removes: older files before younger ones, nothing open, and no more than it needs to. Over every sequence of operations and every file-system fault the heap stays ordered
  and indexed one to one, and the total is the sum of the indexed sizes less exactly what the deletes of
  the run leaked. Index and directory agree in every state of a run if and only if each operation finds
  a condition met that can be checked before it, for any way of laying ids out on paths.
- **TTL sweep.** A late sweep equals the full scan it replaced, exactly when the folders missing from
  the ring would be left alone. In every run, whatever it does and whenever it sweeps, no listed folder
  goes uncounted; until a listed folder is re-keyed to an id without a slot, each listed folder has one
  live heap slot; while, moreover, sweeps come less than two seconds apart, it also has a ring entry. A
  size-limit pass evicts the lowest scores first and only folders idle for five seconds. An
  idle folder past its TTL loses its children at exactly the first sweep that reaches one of its
  entries, which with sweeps one second apart is within 60.
- **Persistence.** Across any interleaving of mutations and any failing batches no id on disk is lost
  sight of, and no owed write either, exactly if no failed tombstone batch meets one; a committed pass
  without interference leaves disk and memory equal for every dirty tree inode.
- **Uploads.** For every interleaving of events the in-flight counter is the number of upload goroutines
  and within its cap, snapshot files are exactly those of queued or tabled sessions, a session whose
  failures are transient is never abandoned, and its retries are spaced by the backoff; an upload that
  finds a slot and succeeds goes from the queue through the table and out of it.
- **Warm-up and delta.** The walk terminates on any graph and lists exactly the folders within reach,
  once each, nearest first. Pages are applied without a gap, one for each successful fetch, and the stored
  link never runs ahead of them. A cycle of
  deletions, with all its retries and carried lists, is one pass over a list known beforehand, and on
  any cache an item is left behind at its end if and only if no try of that list removes it.

Where a promise does not hold of the code, the model keeps the code's behaviour, gives the input that
shows it, and states the exact condition:

- Deleting a file that is on disk but not indexed (left by a write that failed part-way) subtracts a size
  that was never added: `ContentCache.FailedInsertThenDelete`; `ContentCache.Cache.Delete` says when.
- If two ids share a path, deleting one while the other is open leaves an index entry without a file:
  `ContentSpec.AliasedDeleteLeavesPhantom`; `ContentSpec.DeleteConsistent` says when.
- Shutdown does not refresh sizes changed through descriptors: `ContentCache.ShutdownForgetsWrite`;
  `ContentSpec.CloseAllConsistent` says when it matters.
- A sweep two or more seconds after the previous one can drop a fresh folder from the ring, and no later
  sweep of any run finds it unless it is accessed: `InodeCache.TwoSecondGapLosesFolder`,
  `InodeCache.LateSweepLosesFolder`, `InodeTheorems.LostFolderNeverSwept`; `InodeTheorems.KeepsEntryIff`
  and `InodeTheorems.LateSweepLosesIff` say when.
- A sweep less than a second after the previous one sweeps nothing and still moves the time of the last
  sweep forward: `InodeTheorems.EarlySweepIdle`.
- A failed tombstone batch drops the dirty mark of an id re-inserted meanwhile, and the next pass erases
  the live inode from disk: `Persistence.FailedTombstoneLosesWrite`; `Persistence.TombsTrackIff` says when.
- Re-keying a listed folder leaves its slots and ring entries under the old id:
  `InodeRuns.StepInv` says exactly when the invariant survives it.
- The retries of carried deletions are meant to leave no ghost folders behind (internal/fs/delta.go:288-290).
  They leave a folder tried only before one of its children, a folder that was never listed but has a
  remote child count, and an item whose parent left the cache first, which can drop a carried deletion
  in the middle of a cycle: `DeltaSync.TopDownRetryLeavesParent`, `DeltaSync.UnlistedFolderStays`,
  `DeltaSync.UnlistedParentStrandsChild`, `DeltaCycles.DroppedMidCycle`; `DeltaCycles.GhostFolderIff` and
  `DeltaCycles.NoGhostFoldersIff` say exactly when, for cycles whose later pages hold deletions.
- A fetch that fails in the middle of a cycle forgets the deletions carried so far, although the stored
  link is past their pages: `DeltaSync.Sync.PollAndApply`, `DeltaCycles.ForgottenFolderStays`.

## Model

| member | source | states |
|---|---|---|
| `QuickXorHash.Hash.constructor` | internal/graph/quickxorhash/quickxorhash.go:50-52 | a new hash holds the empty message |
| `QuickXorHash.Hash.XorBytes` | internal/graph/quickxorhash/quickxorhash.go:55-57 | XORs as much of the source as fits from a lane on, and nothing else |
| `QuickXorHash.Hash.Write` | internal/graph/quickxorhash/quickxorhash.go:69-85 | appending: a hash holding a message holds the message plus the written bytes, if the length, which wraps at 2^64, still points at the true lane |
| `QuickXorHash.Hash.FillRemainder` | internal/graph/quickxorhash/quickxorhash.go:70-76 | the pass left unfinished by the previous write is completed, to a lane boundary or to the end of the input |
| `QuickXorHash.Hash.FillLanes` | internal/graph/quickxorhash/quickxorhash.go:69-82 | remainder, whole passes and tail together XOR byte i into lane (size + i) mod 1760 |
| `QuickXorHash.Hash.CheckSum` | internal/graph/quickxorhash/quickxorhash.go:88-107 | every digest bit is the parity of the lane bits that land on it, with the length XORed into the last 64 bits |
| `QuickXorHash.Hash.Sum` | internal/graph/quickxorhash/quickxorhash.go:111-114 | appends the published digest of whatever message the hash holds; the hash is untouched |
| `QuickXorHash.Hash.Reset` | internal/graph/quickxorhash/quickxorhash.go:117-119 | afterwards the hash holds the empty message |
| `QuickXorHash.SumMessage` | internal/graph/quickxorhash/quickxorhash.go:135-141 | for every message of any length the one-shot hash is the published digest |
| `QuickXorHash.SumAfterEachWrite` | internal/graph/quickxorhash/quickxorhash.go:69-114 | for every cutting into writes, empty ones included, a digest read after each write is that of the bytes so far, as long as writes start in their true lanes, which below 2^64 bytes they do |
| `QuickXorHash.XorIntoConcat` | internal/graph/quickxorhash/quickxorhash.go:69-85 | two writes leave the same lanes as one write of the concatenation |
| `QuickXorHash.LanesMatchReference` | internal/graph/quickxorhash/quickxorhash.go:69-98 | folding the lanes of a message gives, bit by bit, the ring parity of the published algorithm |
| `QuickXorHash.RawBitFolds` | internal/graph/quickxorhash/quickxorhash.go:89-98 | XORing byte 20 into byte 0 closes the 160-bit ring |
| `QuickXorHash.AddShifted` | internal/graph/quickxorhash/quickxorhash.go:90-95 | shifting a lane and XORing it into two neighbouring bytes flips exactly the bits it lands on |
| `QuickXorHash.AddLengthByte` | internal/graph/quickxorhash/quickxorhash.go:100-105 | byte i of the length flips exactly its bits of digest byte 12 + i |
| `QuickXorHash.LengthBit` | internal/graph/quickxorhash/quickxorhash.go:101-104 | the length bits used do not notice that the counter wraps |
| `QuickXorHash.WindowChangeDetected` | internal/graph/quickxorhash/quickxorhash.go:88-107 | a change confined to 14 consecutive bytes flips some digest bit |
| `QuickXorHash.WindowDigestsDiffer` | internal/graph/quickxorhash/quickxorhash.go:88-107 | so two such messages never share a digest |
| `QuickXorHash.WindowOfFifteenCollides` | internal/graph/quickxorhash/quickxorhash.go:88-107 | a window of 15 is too wide: two messages differing in bytes 14 apart share their digest, anywhere in a stream |
| `QuickXorHash.DigestUnique` | internal/graph/quickxorhash/quickxorhash.go:111-114 | a message has only one digest |
| `HeapOrder.Push` | internal/fs/cache.go:654-658 | pushing adds exactly one key and keeps the heap order |
| `HeapOrder.Rest` | internal/fs/cache.go:661-667 | popping removes exactly one occurrence of the root and keeps the heap order |
| `HeapOrder.PopLeast` | internal/fs/cache.go:763-768 | the popped key is least of all keys |
| `HeapOrder.UpStep` | internal/fs/content_eviction.go:24-60 | one swap of a sift-up moves the only violation to the parent |
| `HeapOrder.DownStep` | internal/fs/content_eviction.go:24-60 | one swap of a sift-down moves the only violation to the lesser child |
| `ContentEviction.KeyOrder` | internal/fs/content_eviction.go:30-35 | (modification time, path) is a total order in which no two paths tie |
| `ContentEviction.KeyLeMeans` | internal/fs/content_eviction.go:30-35 | the order outright: the older file first, and of equally old ones the path that is a prefix or has the smaller character where they first differ |
| `ContentEviction.EvictionIndex.Less` | internal/fs/content_eviction.go:30-35 | compares slots by that order |
| `ContentEviction.EvictionIndex.Swap` | internal/fs/content_eviction.go:37-41 | exchanges two slots and keeps every entry's recorded position right |
| `ContentEviction.EvictionIndex.Push` | internal/fs/content_eviction.go:43-50 | puts an entry back in: heap-ordered, indexed, only that entry's membership changes |
| `ContentEviction.EvictionIndex.DropLast` | internal/fs/content_eviction.go:52-60 | the last slot's entry leaves the heap and is marked as out |
| `ContentEviction.EvictionIndex.Pop` | internal/fs/content_eviction.go:213-214 | returns an entry least among those in the heap, and only it leaves |
| `ContentEviction.EvictionIndex.Fix` | internal/fs/content_eviction.go:131-133 | one misplaced key is moved to its place |
| `ContentEviction.EvictionIndex.Remove` | internal/fs/content_eviction.go:173-175 | takes out any slot and restores the order |
| `ContentEviction.EvictionIndex.Track` | internal/fs/content_eviction.go:107-136 | a new entry, or the old one updated and moved; heap and map stay one to one |
| `ContentEviction.EvictionIndex.Forget` | internal/fs/content_eviction.go:168-177 | drops exactly that path from heap and map, if it is there |
| `ContentSpec.SumRemove` | internal/fs/content_cache.go:546-563 | a sum of file sizes does not depend on the order of the walk |
| `ContentSpec.TotalIsUsage` | internal/fs/content_cache.go:539-563 | with nothing open, the sum of indexed sizes is the usage of the directory |
| `ContentSpec.HydratedConsistent` | internal/fs/content_eviction.go:65-102 | a readable directory with nothing open is indexed consistently |
| `ContentSpec.OpenConsistent` | internal/fs/content_cache.go:141-171 | opening keeps index and directory consistent if and only if the metadata of a file new to the index can be read |
| `ContentSpec.InsertConsistent` | internal/fs/content_cache.go:175-194 | exactly when a one-shot write, complete or cut short, keeps index and directory consistent |
| `ContentSpec.FdWriteConsistent` | internal/fs/content_cache.go:267-270 | direct writes and truncations through a descriptor keep them consistent |
| `ContentSpec.WrittenAtConsistent` | internal/fs/content_cache.go:336-363 | a positioned write keeps them consistent |
| `ContentSpec.TrackConsistent` | internal/fs/content_eviction.go:140-148 | refreshing from the disk keeps them consistent in size and time |
| `ContentSpec.CloseConsistent` | internal/fs/content_cache.go:256-290 | closing restores size and time of a file changed behind the index; without readable metadata, exactly when it is harmless |
| `ContentSpec.CloseAllConsistent` | internal/fs/content_cache.go:595-612 | shutdown keeps them consistent if and only if every indexed size and time is already that on disk |
| `ContentSpec.RemoveConsistent` | internal/fs/content_cache.go:293-322 | deleting keeps them consistent if and only if the file stays or no other id has it open |
| `ContentSpec.DeleteConsistent` | internal/fs/content_cache.go:293-322 | a whole delete: if the file goes, if and only if no other id has it open; if it stays, if and only if closing was harmless |
| `ContentSpec.AliasedDeleteLeavesPhantom` | internal/fs/content_cache.go:256-322 | two open ids on one path: deleting one and closing the other indexes a file that is gone |
| `ContentSpec.EvictConsistent` | internal/fs/content_eviction.go:205-258 | evicting closed files keeps them consistent |
| `ContentSpec.WalkSpares` | internal/fs/content_eviction.go:222-240 | the reference walk removes only paths that need not be kept |
| `ContentSpec.OpenSpared` | internal/fs/content_eviction.go:182-202 | no pass removes a file that some descriptor has open |
| `ContentSpec.NextInOrder` | internal/fs/content_eviction.go:213-214 | a least path among those not yet walked is the next of the sorted walk |
| `ContentSpec.WalkOldestFirst` | internal/fs/content_eviction.go:202-240 | what the walk removes comes before everything it could have removed and did not |
| `ContentSpec.WalkNeeded` | internal/fs/content_eviction.go:212-212 | without the last removed file the total would not fit |
| `ContentSpec.VictimsAreOldest` | internal/fs/content_eviction.go:202-258 | for every index: older files go first, nothing that must stay goes, no more than needed goes |
| `ContentSpec.WalkOrderExists` | internal/fs/content_eviction.go:202-205 | every index has a walk order |
| `ContentCache.NewContentCache` | internal/fs/content_cache.go:80-92 | an error if the directory cannot be made or listed; else exactly its readable files indexed and summed, in agreement with it if all are readable |
| `ContentCache.Cache.constructor` | internal/fs/content_cache.go:84-87 | an empty index over the directory |
| `ContentCache.Cache.InitializeIndex` | internal/fs/content_eviction.go:65-102 | hydrates heap, map and total from the directory, or fails and leaves them empty |
| `ContentCache.Cache.TrackFileInfo` | internal/fs/content_eviction.go:107-136 | indexes the new metadata; the total moves by the difference |
| `ContentCache.Cache.TrackFile` | internal/fs/content_eviction.go:140-148 | the same from the disk, or an error and no change |
| `ContentCache.Cache.Open` | internal/fs/content_cache.go:141-171 | reuses, opens or creates; an unreadable new file is left on disk unindexed and unopened; accounting kept |
| `ContentCache.Cache.Insert` | internal/fs/content_cache.go:175-194 | new disk and index after a complete, failed or partial write; accounting kept |
| `ContentCache.Cache.InsertStream` | internal/fs/content_cache.go:208-238 | new disk and index whether the open, its metadata, the truncation, the copy or the final refresh fails; accounting kept |
| `ContentCache.Cache.WriteAt` | internal/fs/content_cache.go:336-363 | new disk and index for a full, short or failed positioned write and either failing metadata read; accounting kept |
| `ContentCache.Cache.WriteThrough` | internal/fs/content_cache.go:267-270 | a direct write changes the file and not the index |
| `ContentCache.Cache.Close` | internal/fs/content_cache.go:256-290 | unbinds the descriptor, refreshes the index from it, and asks for eviction exactly when over the limit |
| `ContentCache.Cache.CloseAll` | internal/fs/content_cache.go:595-612 | refuses later mutations and unbinds every descriptor without refreshing the index |
| `ContentCache.Cache.Delete` | internal/fs/content_cache.go:293-322 | new disk and index in every outcome, and exactly how many bytes leak out of the total |
| `ContentCache.Cache.Unlink` | internal/fs/content_cache.go:305-321 | removed, missing and stuck files: entry and total move together, unless the file was never indexed |
| `ContentCache.Cache.PopNext` | internal/fs/content_eviction.go:213-221 | heap.Pop yields the next path of the sorted walk |
| `ContentCache.Cache.EvictStep` | internal/fs/content_eviction.go:213-247 | one turn of the loop does one step of the sorted walk: kept and deferred, or removed and subtracted |
| `ContentCache.Cache.EvictionPass` | internal/fs/content_eviction.go:212-248 | the loop removes exactly the victims of the sorted walk |
| `ContentCache.Cache.Reinsert` | internal/fs/content_eviction.go:250-252 | every deferred entry is back in the heap |
| `ContentCache.Cache.EvictBySize` | internal/fs/content_eviction.go:205-258 | disk and index are those after the sorted walk; oldest files first by time and path, only closed and deletable ones, no more than needed; it ends within the limit or with only open or undeletable files |
| `ContentCache.Cache.TotalDiskUsage` | internal/fs/content_cache.go:546-563 | the sum of the readable sizes on disk, or the tracked total if the directory cannot be listed |
| `ContentCache.Cache.Evict` | internal/fs/content_eviction.go:205-258 | from any state a pass follows the sorted walk, which always exists |
| `ContentRuns.StreamConsistent` | internal/fs/content_cache.go:208-238 | exactly when a streamed insert keeps index and directory consistent |
| `ContentRuns.WriteAtConsistent` | internal/fs/content_cache.go:336-363 | exactly when a positioned write, with the open before it, does |
| `ContentRuns.EvictAgrees` | internal/fs/content_eviction.go:205-258 | eviction keeps index and directory in agreement |
| `ContentRuns.AgreesIff` | internal/fs/content_cache.go:141-363 | any operation keeps the agreement if and only if its condition on the state before it holds |
| `ContentRuns.AgreeingNeverLeaks` | internal/fs/content_cache.go:305-321 | while index and directory agree no delete leaks |
| `ContentRuns.LeaksAddUp` | internal/fs/content_cache.go:293-322 | the leak of a run is the sum of the leaks of its deletes |
| `ContentRuns.TotalOfRun` | internal/fs/content_cache.go:141-363 | in every run with any faults the total is the indexed sum less the leaks; it is that sum if and only if no delete leaked |
| `ContentRuns.RunAgreesIff` | internal/fs/content_cache.go:141-363 | index and directory agree in every state of a run if and only if every operation finds its condition met |
| `ContentRuns.AgreeingRun` | internal/fs/content_cache.go:141-363 | then nothing leaks, and whenever nothing is open the total is the usage on disk |
| `ContentRuns.OpensOnly` | internal/fs/content_cache.go:141-171 | only the id an operation names can become open |
| `ContentRuns.CleanRunKeeps` | internal/fs/content_cache.go:111-135 | readable metadata and no shared path among the ids actually used meet every condition of a run |
| `ContentEffects.OpenEffect` | internal/fs/content_cache.go:141-171 | a descriptor on the file the path names, or on a new empty one; what the index then says; every other file untouched |
| `ContentEffects.InsertEffect` | internal/fs/content_cache.go:175-194 | the bytes written are on disk, the index knows of them exactly if all went well, every other file untouched |
| `ContentEffects.FdWriteEffect` | internal/fs/content_cache.go:267-270 | a write through a descriptor changes its file and nothing else |
| `ContentEffects.StreamEffect` | internal/fs/content_cache.go:208-238 | a streamed insert leaves exactly the copied bytes, on disk and in the index |
| `ContentEffects.WriteAtEffect` | internal/fs/content_cache.go:336-363 | the file is as long as it was or as far as the write reached, on disk and in the index |
| `ContentEffects.CloseEffect` | internal/fs/content_cache.go:256-290 | one descriptor given up, and what its file has become recorded |
| `ContentEffects.DeleteEffect` | internal/fs/content_cache.go:293-322 | the path is out of directory and index unless it cannot be removed, and nothing else is |
| `ContentCache.Cache.Apply` | internal/fs/content_cache.go:141-363 | any operation with any outcome keeps the accounting, with the new disk, index and leak of that outcome |
| `ContentCache.Cache.Run` | internal/fs/content_cache.go:141-363 | over every sequence: heap, map and total in order less exactly the leaks of the run; agreement and usage if every operation finds its condition met |
| `ContentCache.FailedInsertThenDelete` | internal/fs/content_cache.go:293-322 | a write failing after n bytes and then a delete leave an empty cache with a total of -n |
| `ContentCache.ShutdownForgetsWrite` | internal/fs/content_cache.go:595-612 | a write through a descriptor and then shutdown: nothing open, total 0, usage n |
| `InodeModel.EffectiveTTLBounds` | internal/fs/cache.go:68-74 | the TTL lies between one and twenty times the base, and grows with the accesses |
| `InodeModel.EffectiveTTLExact` | internal/fs/cache.go:68-74 | base times 1 + access / 2, up to twenty times the base |
| `InodeModel.ExpiredStays` | internal/fs/cache.go:68-74 | once passed, a TTL stays passed, whatever decay does |
| `InodeModel.BucketIndexIsResidue` | internal/fs/cache.go:1613-1620 | the bucket is the second modulo 60, also before the epoch |
| `InodeModel.EntryOrder` | internal/fs/cache.go:671-676 | (score, age) is a total preorder |
| `InodeModel.SizeScoreLaw` | internal/fs/cache.go:680-684 | the score is the accesses over the idle minutes plus one |
| `InodeModel.SizeScoreOrder` | internal/fs/cache.go:680-684 | more accesses score higher, longer idling lower |
| `InodeModel.ListingChanges` | internal/fs/cache.go:192-222 | attaching and detaching change a listing by that one child and never whether it is one |
| `InodeRuns.EmptyInv` | internal/fs/cache.go:168-177 | the empty cache satisfies the run invariant |
| `InodeRuns.RegisterEffect` | internal/fs/cache.go:1635-1652 | a registration adds the folder to the bucket of its deadline and nothing else |
| `InodeRuns.RescoreEffect` | internal/fs/cache.go:689-708 | a new generation supersedes the folder's slots and disturbs no other folder |
| `InodeRuns.AttachOrSeedInv` | internal/fs/cache.go:192-204 | seeding an unlisted folder files, scores and counts it |
| `InodeRuns.PopulateInv` | internal/fs/cache.go:332-432 | populating keeps the run invariant, even when a listing names its own folder |
| `InodeRuns.RekeyInv` | internal/fs/cache.go:958-992 | re-keying a listed folder keeps the invariant if and only if the new id already has its own slot and ring entry |
| `InodeRuns.StepInv` | internal/fs/cache.go:247-432 | every mutator keeps each listed folder filed, scored once and counted, with that one exception |
| `InodeRuns.OneLiveSlot` | internal/fs/cache.go:638-708 | a listed folder has exactly one slot of its current generation and all its others are older |
| `InodeRuns.PopSlots` | internal/fs/cache.go:763-768 | popping removes one slot, of the lowest score and among those the oldest |
| `InodeRuns.EvictOne` | internal/fs/cache.go:816-828 | evicting a candidate keeps the invariant and unlists one folder |
| `InodeRuns.LowestNext` | internal/fs/cache.go:763-789 | evicting least live slots one by one goes from the lowest score up |
| `InodeEffects.ScheduleEffect` | internal/fs/cache.go:689-708 | one entry under the folder's deadline and one slot of a new generation with its score and age, and nothing else |
| `InodeEffects.PopulateEffect` | internal/fs/cache.go:366-416 | the folder's listing is the fetched ids in order, every item is cached with the parent filled in, counted, filed and scored; the self-naming listing apart |
| `InodeEffects.HitEffect` | internal/fs/cache.go:338-346 | a hit counts an access exactly if the listing is younger than its TTL, and changes no listing |
| `InodeEffects.InsertEffect` | internal/fs/cache.go:247-271 | the inode is cached and in its parent's listing, which is started if there is none |
| `InodeEffects.DeleteEffect` | internal/fs/cache.go:274-296 | the inode is gone, and out of its parent's listing |
| `InodeEffects.InsertChildEffect` | internal/fs/cache.go:898-926 | the child is cached under the parent and added to a listing that exists, never starting one |
| `InodeEffects.RemoveChildEffect` | internal/fs/cache.go:929-949 | the child is gone, and out of the listing of the parent given |
| `InodeEffects.MoveChildEffect` | internal/fs/cache.go:995-1020 | the child is out of the old listing and in the new one |
| `InodeEffects.MoveIDEffect` | internal/fs/cache.go:958-992 | the inode is under its new key, which replaces the first old one in its parent's listing |
| `InodeEffects.InvalidateEffect` | internal/fs/cache.go:843-852 | the listing is forgotten and the folder uncounted |
| `InodeEffects.RestoreEffect` | internal/fs/cache.go:1381-1393 | what is cached is not replaced; a restored listing is filed, scored and counted |
| `InodeSweep.DueBucketsDistinct` | internal/fs/cache.go:1713-1733 | no bucket is due twice in one sweep |
| `InodeSweep.MidBucketNext` | internal/fs/cache.go:1675-1706 | processing one more folder decays it once and evicts or re-files it |
| `InodeSweep.FiledOneMore` | internal/fs/cache.go:1662-1706 | where each folder is filed after one more bucket of a sweep |
| `InodeSweep.BucketDone` | internal/fs/cache.go:1662-1671 | a finished bucket extends the swept prefix by one |
| `InodeTheorems.SweepWithinFullScan` | internal/fs/cache.go:1662-1733 | for any ring, a visited folder ends as the full scan would leave it and any other is unchanged |
| `InodeTheorems.FullScanEffect` | internal/fs/cache.go:593-623 | every listed folder has half its accesses, and no listing if the TTL of so many has passed; evictions counted |
| `InodeTheorems.SweepEffect` | internal/fs/cache.go:1662-1733 | the same for the folders with an entry in the buckets swept, and nothing for the others |
| `InodeTheorems.DueExactly` | internal/fs/cache.go:1713-1730 | for any elapsed time, the due buckets are those of the full seconds since the last sweep, or all after a minute |
| `InodeTheorems.SweepEvictsIff` | internal/fs/cache.go:1675-1706 | a sweep evicts a folder if and only if it visits it after its once-decayed TTL |
| `InodeTheorems.RecentFolderSurvives` | internal/fs/cache.go:1675-1706 | a folder accessed within the base TTL survives every sweep |
| `InodeTheorems.LateSweepIsFullScanIff` | internal/fs/cache.go:1654-1733 | a sweep over a minute late equals the full scan if and only if the scan would leave the folders missing from the ring as they are |
| `InodeTheorems.LateSweepIsFullScan` | internal/fs/cache.go:593-623 | under the run invariant it gives the same inodes, access counts, evictions and counter as the full scan |
| `InodeTheorems.KeepsEntryIff` | internal/fs/cache.go:1675-1706 | from the state before: exactly when a folder that stays listed keeps a ring entry through a sweep |
| `InodeTheorems.LateSweepLosesIff` | internal/fs/cache.go:1713-1733 | from the state before: a late sweep leaves a folder listed without a ring entry if and only if its decayed TTL has not passed and a bucket before that of its new deadline held it |
| `InodeTheorems.OneSecondLater` | internal/fs/cache.go:1713-1730 | an on-time sweep has exactly one bucket due |
| `InodeTheorems.TimelyBuckets` | internal/fs/cache.go:1713-1730 | under two seconds at most one bucket is due, under one second none |
| `InodeTheorems.EarlySweepIdle` | internal/fs/cache.go:1713-1733 | a sweep within a second of the last one changes no inode and counts as a sweep |
| `InodeTheorems.SweepKeepsScores` | internal/fs/cache.go:1662-1733 | no sweep of any kind, at any time, disturbs heap slots or the counter |
| `InodeTheorems.SweepInv` | internal/fs/cache.go:1662-1706 | a sweep of at most one bucket keeps every listed folder in the ring |
| `InodeTheorems.SweepPasses` | internal/fs/cache.go:1662-1706 | a sweep whose buckets hold no entry of a folder leaves it and its entries alone |
| `InodeTheorems.SweepTakes` | internal/fs/cache.go:1675-1706 | a sweep that finds a folder past its TTL takes its children |
| `InodeTheorems.EntriesStay` | internal/fs/cache.go:1662-1733 | until a sweep reaches it, an untouched folder keeps its entries and its deadline in any run |
| `InodeTheorems.FirstReachUnlists` | internal/fs/cache.go:1662-1733 | for any sweep times, an untouched folder past its TTL loses its children to sweeps at exactly the first that reaches one of its entries, and stays unlisted |
| `InodeTheorems.SweepsCount` | internal/fs/cache.go:1713-1733 | with sweeps one second apart the time of the last one counts them |
| `InodeTheorems.IdleFolderLosesChildren` | internal/fs/cache.go:1613-1733 | with sweeps one second apart, a folder past its TTL and not accessed again is unlisted within 60 of them, in every run |
| `InodeTheorems.SweepMisses` | internal/fs/cache.go:1662-1706 | no sweep finds a folder without a ring entry |
| `InodeTheorems.LostFolderNeverSwept` | internal/fs/cache.go:1662-1733 | in every run, whenever it sweeps, a folder lost to the ring and not accessed stays lost and unswept |
| `InodeTheorems.StepQuiet` | internal/fs/cache.go:247-432 | every mutator that does not list or access a folder leaves its deadline and ring entries alone |
| `InodeTheorems.AccessShields` | internal/fs/cache.go:748-753 | a hit or a population shields the folder from size eviction for the whole grace, unless a listing that names the known folder itself has unlisted it |
| `InodeCache.Cache.constructor` | internal/fs/cache.go:168-177 | an empty cache with 60 empty buckets, in the invariant |
| `InodeCache.Cache.FullScan` | internal/fs/cache.go:593-623 | every listed folder decays once, the expired ones are evicted and counted, all else unchanged |
| `InodeCache.Cache.ProcessEntry` | internal/fs/cache.go:1675-1706 | unlisted or already processed folders are skipped, others are processed once |
| `InodeCache.Cache.SweepBucket` | internal/fs/cache.go:1662-1671 | one bucket emptied and its entries processed: inodes, counters and the filing of every folder |
| `InodeCache.Cache.SweepRing` | internal/fs/cache.go:1721-1725 | all 60 buckets in order |
| `InodeCache.Cache.SweepSince` | internal/fs/cache.go:1726-1730 | one bucket for each full second since the last sweep |
| `InodeCache.Cache.SweepExpiredBuckets` | internal/fs/cache.go:1713-1733 | the whole sweep, for any elapsed time and any ring contents |
| `InodeCache.Cache.PopEvictable` | internal/fs/cache.go:763-789 | hands out a live slot of the lowest score, the oldest among equals, if its folder is idle; otherwise nothing may be evicted; no live slot is lost |
| `InodeCache.Cache.EvictCandidate` | internal/fs/cache.go:815-829 | evicts one idle folder or finds that none may be |
| `InodeCache.Cache.EvictBySizeLimit` | internal/fs/cache.go:804-834 | only folders idle for five seconds, the lowest scores first, at most the excess, ending within the limit or with no victim |
| `InodeCache.Cache.SweepDue` | internal/fs/cache.go:1713-1733 | a sweep at any time keeps slots and counter, and a timely one the ring entries |
| `InodeCache.Cache.Sweep` | internal/fs/cache.go:575-581 | one turn, TTL and then size, keeps the run invariant and enforces the limit |
| `InodeCache.Cache.Apply` | internal/fs/cache.go:247-432 | any mutator does its step, and keeps each part of the run invariant exactly if its condition holds |
| `InodeCache.Run` | internal/fs/cache.go:247-1020 | in every state of every run the slots are in order and no listed folder goes uncounted; one live slot each until a bad re-key; a ring entry each while sweeps also come under two seconds apart |
| `InodeCache.LateSweepLosesFolder` | internal/fs/cache.go:1675-1733 | one late sweep leaves a fresh listed folder without any ring entry |
| `InodeCache.TwoSecondGapLosesFolder` | internal/fs/cache.go:1675-1733 | a gap of exactly two seconds already does, so that bound is tight |
| `Persistence.MutateKeeps` | internal/fs/cache.go:1027-1051 | every mutator, even between batches, keeps ghosts tracked and clean inodes faithful |
| `Persistence.MutateEffect` | internal/fs/cache.go:1027-1051 | what each kind of mutator leaves in memory and in the two sets, for every id |
| `Persistence.BatchEffect` | internal/fs/cache.go:1294-1318 | a committed batch writes its listed or parented inodes, deletes its dead ids, leaves the rest of the disk |
| `Persistence.SwapKeeps` | internal/fs/cache.go:1262-1267 | swapping the sets out hands them to the pass without loss |
| `Persistence.DirtyBatchKeeps` | internal/fs/cache.go:1283-1326 | a dirty batch, committed or failed and re-marked, loses no id |
| `Persistence.DeletedBatchKeeps` | internal/fs/cache.go:1329-1354 | a tombstone batch keeps ghosts tracked; a failed one loses dirty marks if and only if it meets an id that owes a write |
| `Persistence.TombsTrackIff` | internal/fs/cache.go:1329-1354 | over all tombstone batches of a pass, with any mutators between them, no owed write loses its mark if and only if no failed batch meets one |
| `Persistence.FailedTombstoneLosesWrite` | internal/fs/cache.go:1329-1354 | the input that shows it: a live inode absent from disk after the next committed pass |
| `Persistence.PassOutcome` | internal/fs/cache.go:1254-1360 | an undisturbed committed pass leaves no ghosts but records never read, and every dirty tree inode on disk as in memory |
| `Persistence.CommitTwice` | internal/fs/cache.go:1283-1326 | two committed batches are one: the batching does not matter |
| `Persistence.InodeStore.constructor` | internal/fs/cache.go:1363-1405 | a cache loaded from disk owes nothing; records that cannot be parsed stay on disk unread |
| `Persistence.InodeStore.Mark` | internal/fs/cache.go:1027-1051 | an id is dirty or deleted, never both |
| `Persistence.InodeStore.Apply` | internal/fs/cache.go:247-296 | what each kind of mutator does to memory and to the sets |
| `Persistence.InodeStore.Transact` | internal/fs/cache.go:1289-1318 | a batch writes tree inodes, deletes dead ids and skips the rest |
| `Persistence.InodeStore.DirtyBatch` | internal/fs/cache.go:1283-1326 | all of a batch commits or all of it is marked again |
| `Persistence.InodeStore.DeletedBatch` | internal/fs/cache.go:1329-1354 | the same for tombstones |
| `Persistence.InodeStore.PersistDirty` | internal/fs/cache.go:1283-1326 | all dirty batches of 500, with any mutators before each and any failing, with the state around each; an error exactly if one failed |
| `Persistence.InodeStore.PersistDeleted` | internal/fs/cache.go:1329-1354 | all tombstone batches, likewise, with the state around each |
| `Persistence.InodeStore.SerializeDirty` | internal/fs/cache.go:1254-1360 | the batches that run and the state around each; an error exactly if one failed; no id on disk lost sight of; owed writes keep their marks if and only if no failed tombstone batch meets one; undisturbed and committed, disk equals memory for every dirty tree inode |
| `UploadManager.BackoffFor` | internal/fs/upload_manager.go:372-381 | the doubling loop computes min(2^k, 60) seconds |
| `UploadManager.StepSlots` | internal/fs/upload_manager.go:340-350 | every event keeps the counter equal to the number of upload goroutines and within the cap |
| `UploadManager.FinishSessionFiles` | internal/fs/upload_manager.go:640-657 | finishing removes the session's snapshot and no other |
| `UploadManager.EnqueueFiles` | internal/fs/upload_manager.go:245-260 | superseding a session of the same id discards exactly its snapshot |
| `UploadManager.StepFiles` | internal/fs/upload_manager.go:245-260 | every event keeps the snapshot files exactly those of queued or tabled sessions |
| `UploadManager.RetriedHistory` | internal/fs/upload_manager.go:292-304 | a retry transition keeps the recorded history spaced by the backoff |
| `UploadManager.StepHistories` | internal/fs/upload_manager.go:278-335 | every event keeps the retry history of every queued or tabled session |
| `UploadManager.RunInv` | internal/fs/upload_manager.go:213-260 | slots, files and histories are right after every interleaving of events |
| `UploadManager.LeavesTable` | internal/fs/upload_manager.go:278-335 | the only ways out: completion, cancellation, superseding, or a permanent error over the retry cap |
| `UploadManager.NeverAbandoned` | internal/fs/upload_manager.go:292-312 | over any further run, a session whose failures are all transient stays tabled |
| `UploadManager.RetriesSpaced` | internal/fs/upload_manager.go:292-304 | retries k and k + 1 are at least min(2^k, 60) seconds apart |
| `UploadEffects.QueueEffect` | internal/fs/upload_manager.go:134-162 | a queued upload is pending, with its snapshot, at the end of the queue |
| `UploadEffects.EnqueueEffect` | internal/fs/upload_manager.go:245-260 | the head of the queue takes its place in the table |
| `UploadEffects.SupersedeEffect` | internal/fs/upload_manager.go:249-255 | a session that had the place is complete and without its snapshot |
| `UploadEffects.ProcessPending` | internal/fs/upload_manager.go:289-290 | a pending session gets exactly one goroutine if a slot is free |
| `UploadEffects.ProcessUploading` | internal/fs/upload_manager.go:287-334 | an uploading one is left alone |
| `UploadEffects.ProcessComplete` | internal/fs/upload_manager.go:331-332 | a complete one is taken out with its snapshot |
| `UploadEffects.ProcessWaits` | internal/fs/upload_manager.go:292-296 | an errored one waits for its time |
| `UploadEffects.ProcessRetries` | internal/fs/upload_manager.go:298-329 | then it is counted, pending again with its next time, and launched, if the error was transient or the retries allow it |
| `UploadEffects.ProcessGivesUp` | internal/fs/upload_manager.go:313-320 | otherwise it is taken out with its snapshot |
| `UploadEffects.CancelEffect` | internal/fs/upload_manager.go:640-657 | a cancelled one is taken out with its snapshot |
| `UploadEffects.StartEffect` | internal/fs/upload_manager.go:389-400 | a goroutine that starts marks its session as uploading |
| `UploadEffects.FinishEffect` | internal/fs/upload_manager.go:405-482 | success completes the session, an error makes it errored and transient or not |
| `UploadEffects.ReleaseEffect` | internal/fs/upload_manager.go:631-637 | a done goroutine gives its slot back, and no other does |
| `UploadEffects.UploadCompletes` | internal/fs/upload_manager.go:213-350 | an upload that finds a slot and succeeds goes from the queue through the table and out, with its snapshot and its slot |
| `PreWarm.Warm` | internal/fs/mount.go:186-247 | on any graph, lists exactly the folders less than depth steps away, each once, nearest first; no more than the deadline allows; out of range lists nothing |
| `PreWarm.Walk` | internal/fs/mount.go:201-244 | the loop ends, and without a timeout its list is exact |
| `PreWarm.SkipItem` | internal/fs/mount.go:214-217 | skipping a visited folder loses nothing |
| `PreWarm.VisitItem` | internal/fs/mount.go:218-243 | visiting a folder keeps the queue in order of distance |
| `PreWarm.WalkComplete` | internal/fs/mount.go:203-244 | when the queue runs dry every folder in range was visited, at its distance |
| `PreWarm.WeightDrops` | internal/fs/mount.go:203-212 | every turn makes the queue lighter, so the walk ends on cyclic and shared graphs |
| `PreWarm.Drive.WithinIsDistance` | internal/fs/mount.go:186-247 | being within n steps is having a path of listings of that length |
| `DeltaSync.RefusedIff` | internal/fs/delta.go:304-319 | a delta is refused in a pass if and only if it is a folder deletion blocked at its turn |
| `DeltaSync.RetrySucceedsIff` | internal/fs/delta.go:288-297 | on any cache and any list of deletions, an item is gone if and only if one of its deletions finds it and its parent cached and the folder emptied |
| `DeltaSync.NoneLeftIff` | internal/fs/delta.go:280-297 | a list that names no id twice leaves none of its items behind if and only if it is bottom-up |
| `DeltaCycles.CarriesDeletions` | internal/fs/delta.go:304-319 | only folder deletions are carried |
| `DeltaCycles.ChangesApply` | internal/fs/delta.go:271-278 | a pass over changes makes them all, in order, and refuses none |
| `DeltaCycles.ChangePage` | internal/fs/delta.go:271-298 | so does a page of changes, which hands on only what was carried into it and is refused again |
| `DeltaCycles.RefusedThins` | internal/fs/delta.go:271-286 | a deletion that a pass does not hand on is settled: trying it again would change nothing |
| `DeltaCycles.PageIsTries` | internal/fs/delta.go:271-298 | a page of deletions does what trying all its items twice and then everything seen before would do |
| `DeltaCycles.CycleIsTries` | internal/fs/delta.go:217-261 | from any point of a cycle on, if the later pages hold deletions, the rest is one pass over a list fixed by what is carried and what the pages hold |
| `DeltaCycles.GhostFolderIff` | internal/fs/delta.go:217-298 | the folder of a deletion carried out of any page is left behind at the end if and only if it is cached then and no later try removes it, whether carried to the end or dropped on the way |
| `DeltaCycles.NoGhostFoldersIff` | internal/fs/delta.go:217-298 | a cycle of deletions leaves no item it names behind if and only if its tries remove every cached one |
| `DeltaCycles.LastRetryIff` | internal/fs/delta.go:243-255 | the last retry, if it names no id twice, leaves none of its items if and only if it is bottom-up |
| `DeltaCycles.DroppedMidCycle` | internal/fs/delta.go:288-297 | a carried deletion dropped in the middle of a cycle: nothing is carried at the end and the folder stays |
| `DeltaSync.ParentFirstStrandsChild` | internal/fs/delta.go:417-421 | a child whose parent goes first is skipped and stays |
| `DeltaSync.UnlistedParentStrandsChild` | internal/fs/delta.go:417-430 | the smallest such case, with nothing refused |
| `DeltaSync.TopDownRetryLeavesParent` | internal/fs/delta.go:244-255 | a folder tried before one of its listed children stays |
| `DeltaSync.UnlistedFolderStays` | internal/fs/delta.go:425-437 | no pass of deletions removes an unlisted folder with a remote child count |
| `DeltaSync.PassExact` | internal/fs/delta.go:271-286 | the whole cache after any prefix of deletions: who is left, and what each listing still holds |
| `DeltaSync.Sync.Pass` | internal/fs/delta.go:271-286 | every delta tried once, in order; the refused ones collected |
| `DeltaSync.Sync.ApplyPage` | internal/fs/delta.go:271-298 | items, then the refused ones again, then those carried from earlier pages |
| `DeltaSync.Sync.PollAndApply` | internal/fs/delta.go:217-261 | under any fetch outcomes: one page applied per successful fetch up to the first failure or the last page, success exactly at the last page, the stored link after the last page that stored one; a complete cycle ends with the last retry, a failed one forgets exactly what it carried |
| `DeltaSync.Sync.Turn` | internal/fs/delta.go:145-206 | a complete cycle goes on at its new link and stores it; a failed one resumes at the stored link |
| `DeltaSync.Sync.DeltaLoop` | internal/fs/delta.go:145-206 | over all cycles, failures and failed link writes, pages are applied without a gap, one per successful fetch; with no failure, all pages from the stored link on, cycle by cycle |
| `DeltaSync.LogPage` | internal/fs/delta.go:217-243 | applying the page at the link keeps the log without gaps |
| `DeltaSync.CarriedIff` | internal/fs/delta.go:271-298 | what a page hands on is exactly what was refused at its last try |
| `DeltaSync.LeavesCachedIff` | internal/fs/delta.go:417-437 | a deletion leaves the list with its item still cached if and only if its parent is not cached at its turn |
| `DeltaSync.CarriedUntilSettled` | internal/fs/delta.go:217-298 | a carried deletion is carried through every later page until one applies it or skips it |
| `DeltaCycles.ForgottenFolderStays` | internal/fs/delta.go:224-232 | a folder whose deletion was carried at a failed fetch is cached after the next cycle if and only if it was then, unless a page deletes it again or a change adds or removes it |

## Left out

- Streams of 2^64 bytes and more written in pieces: once the length has wrapped, a write may start in a lane other than the true one, and nothing is claimed of the digest from then on.
- Pointers: inodes, eviction entries and upload sessions are values reached by id, path or handle. Aliasing of two objects with one id is represented only where it matters (a listing that names its own folder); the test for a superseded entry pointer at internal/fs/content_eviction.go:219-222 can then never fire.
- The inode cache's small mutators are value functions applied by one method (`InodeCache.Cache.Apply`); its loops are loops.
- Locks: each mutator, each batch and each eviction pass is one atomic step. Interleavings inside a mutator are not represented.
- Floating point: the TTL multiplier is counted in halves and the score is a real number. Counters do not overflow.
- Clocks: one clock, whose readings are arguments. The bound of 60 sweeps for an idle folder is stated for sweeps exactly one second apart, since jitter can step over a bucket.
- The path of an id's content is an arbitrary function. That a file name in the cache directory maps back to its own path is assumed of it.
- Content bytes in the content cache (reading, snapshots, hashing a cached file): only sizes and times are modelled.
- The background goroutine that starts an eviction: eviction is an operation that may come at any time.
- Subdirectory counts, and the directory-wide invalidation, which makes the folder counter inexact.
- popEvictionCandidate and EvictionController, which production code does not use.
- The database and its encoding: disk is a map and a batch commits or fails. Keys are batched in any order. SerializeAll is not modelled.
- Uploads: the HTTP exchange, conflict renames, changing a session's target, sessions restored at start, the capacity of the queue, a snapshot file that cannot be removed, and the content of a superseded session's upload.
- Delta items other than deletions are an arbitrary change of the tree, and the statements about what a whole cycle leaves behind take the pages from the point in question on to hold deletions only. Links are page numbers. A restart of the process is not modelled, so nothing is claimed across one.
- HTTP, authentication, the FUSE nodes, the command line and the chunked transfers.
