# Verification of MitoSync's transfer core

MitoSync compares and synchronises files and S3 objects chunk by chunk. This project models the
parts where threads, an unreliable store and a file system meet, and proves what they promise.

Threads are interleaved atomic steps: either a transition relation with theorems over every run
(`Runs`, `WriteQueue`, `WriteQueueJobs`, `DiffDownload`), or a state machine driven by an arbitrary
schedule (`ChecksumFanout`, `RmRun`, `SlidingWindow`, `SyncAccounting`), or a loop that takes the
pending work in any order. The store and the disk are classes whose methods may fail, and whose
failures may still have been applied; in a "calm" environment nothing fails, and then the
operations must succeed. Sequential code keeps its loops and its classes and is proved
against specifications whose own properties are proved beside it.

| module | subject |
|---|---|
| `DiffPlan`, `DiffDownload`, `DiffDownloadProgress`, `NextRun` | differential download: correctness, progress, and why a failed one is repaired by a later run |
| `ObjectStore`, `DiffUpload`, `ServerCopy` | multipart store, differential upload, server-side copy |
| `S3Listing`, `LocalWalk` | discovery: the walk of a bucket by `/`, the walk of a tree with symbolic links |
| `Chunks`, `Crc32`, `Checksums`, `ChecksumFanout`, `StandardCrc` | chunk arithmetic, CRC-32 (section 8 of RFC 1952), the checksum contract and its implementations |
| `RmTask`, `RmRun`, `RmPrefix`, `Cancel` | deletion: one task, whole runs of many, and a prefix from listing to verdict |
| `WriteQueue`, `WriteQueueDeadlock`, `WriteQueueJobs`, `SlidingWindow`, `SyncAccounting`, `Runs` | queues, windows and counters of a run |
| `Listings`, `Planner` | the four classifiers and what executing a plan leads to |
| `AtomicReplace` | crash-safe replacement of a file |
| `RangedRead`, `BoundedBuffer` | ranged reads, bounded request bodies |
| `Decimal`, `TempNames`, `Durations` | printers and parsers |
| `Options`, `Sequences`, `Limits` | shared helpers |
| `Comparison`, `DirectoryTotals` | comparison of files, blocks and directories |

`dafny verify dfyconfig.toml` checks everything.

Where the code keeps less than one might expect, the exact condition or a witness is given:

- A directory comparison with mixed file sizes, a majority of large files and fewer threads than one
  file is given waits forever, and cancelling does not wake it (`SlidingWindow.ComparisonDeadlockFreeIff`).
- The write queue cannot deadlock with up to 961 download threads, the default of 256 included; with
  more, and enough jobs, it can (`WriteQueueDeadlock.DeadlockFreeIff`, `WriteQueueDeadlock.LargestSafePool`).
- A cancelled deletion says of what it did not count that it is still there. At most that much is
  (`RmRun.AtMostTheRemaining`), and exactly that much if and only if everything gone was counted
  (`RmRun.RemainingIffCounted`): a delete reported as failed may have been applied.
- The block report of two files that differ only by a tail within the last block shows no differing
  block (`Comparison.NothingShownIff`, `Comparison.TailNotShown`).
- Allowing unverified ranges is harmless exactly where the object begins with the bytes asked for, so
  for every object only from offset 0 (`RangedRead.UnverifiedIsExactIff`, `RangedRead.FlagIsHarmlessIff`).

## Model

| member | source | states |
|---|---|---|
| `DiffDownload.EveryRunIsCorrect` | src/sync_task.cpp:1674-1888 | In every run of the patch workers (chunks claimed by `fetch_add`, retries, partial `pwrite`s, failures, cancellation anywhere): a return of true means the file is the object and transferred + saved = its size; false means the file is untouched, its stamp cleared, or clearing reported as failed |
| `DiffDownload.StaffingIsExact` | src/sync_task.cpp:1674-1888 | Having at least one worker is exactly what the guarantee needs; without one the function would return true over an unpatched file |
| `DiffDownload.UnstaffedRun` | src/sync_task.cpp:1674-1888 | The run that shows it: no worker, an immediate join, and true for a file that still differs |
| `DiffDownload.PlanDownload` | src/sync_task.cpp:1674-1757 | Nothing to do exactly when every chunk agrees and the sizes are equal; a patch exactly when some chunk agrees and that is not so; a full download otherwise. A patch moves exactly the chunks that do not agree, once each and in order, and saves the bytes of the rest |
| `DiffDownload.PlanIsSound` | src/sync_task.cpp:1700-1757 | Without a collision, chunks the plan keeps are already in place and the others are listed once each |
| `DiffDownload.DownloadIsCorrect` | src/sync_task.cpp:1597-1907 | The whole function, whatever the checksum services answer: true means the local file equals the object, and the transferred and the reported saved bytes add up to its size unless nothing was to be done; false means it is as before or cannot pass for current |
| `DiffDownload.PatchKeeps` | src/sync_task.cpp:1779-1840 | A partial positional write of one worker leaves every chunk in place that was in place |
| `DiffDownload.FileIsComplete` | src/sync_task.cpp:1841-1888 | A file of the right length with every chunk in place is the object |
| `DiffDownload.OnlyWrittenIsMarked` | src/sync_task.cpp:1841-1864 | A failed run clears the stamp, or fails to, exactly of a file it has written to |
| `DiffDownload.StoppingWindsDown` | src/sync_task.cpp:1758-1830 | After a failure or a cancellation no fetch begins; only what was fetched before is still written |
| `NextRun.DamageIsPlanned` | src/sync_task.cpp:314-328 | After a failed download that changed the file, the next plan transfers the path whatever the object's size and time are by then |
| `NextRun.MarkedUntilRepaired` | src/sync_task.cpp:105-115 | Through any number of failed runs a file with a cleared stamp stays marked, so each of them transfers it |
| `NextRun.DamageIsRepaired` | src/sync_task.cpp:1597-1907 | After a first failed run that changed the file and any number of further failures, the next run plans a transfer of what they left, and if it returns true the file is its object; if not, the file is still marked |
| `NextRun.RepairIsPossible` | src/sync_task.cpp:1597-1907 | From whatever state the earlier runs left, the differential download has an end that returns true over the object's bytes |
| `DiffDownloadProgress.RunsAreBounded` | src/sync_task.cpp:1758-1840 | Every run of the patch workers ends, within two steps a byte and fetch and a constant per chunk and worker |
| `DiffDownloadProgress.NeverStuck` | src/sync_task.cpp:1758-1888 | Whatever failed, some worker or the return can move |
| `DiffDownloadProgress.UndisturbedRunsSucceed` | src/sync_task.cpp:1758-1888 | A run in which nothing fails and nobody cancels never returns false, and where it can go no further it has returned true over the object's bytes |
| `DiffDownloadProgress.SuccessIsPossible` | src/sync_task.cpp:1758-1888 | From every plan there is a run that succeeds |
| `DiffPlan.MarkUnchanged` | src/sync_task.cpp:1700-1716 | The comparison loop flags exactly the chunks whose checksum the other side has at the same place, and its count tells whether all or none agree |
| `DiffPlan.CollectWork` | src/sync_task.cpp:1740-1757 | The second loop lists exactly the unflagged chunks and credits the bytes of the flagged ones |
| `DiffPlan.FlagsAreSound` | src/sync_task.cpp:2069-2082 | Without a collision, a flagged chunk is equal on both sides |
| `DiffPlan.AllFlaggedMeansEqual` | src/sync_task.cpp:2088-2094 | All chunks flagged and equal sizes mean equal contents |
| `DiffUpload.DiffUploadFile` | src/sync_task.cpp:2042-2228 | Success: the object equals the local file and nothing else changed. Which way it goes is fixed by the sizes and the agreeing checksums; on the multipart path exactly the agreeing chunks are copied, exactly the others sent, transferred + saved = size and saved is the bytes of the copied ones, in at most 10,000 parts. Failure: nothing changed unless the final call was applied, and an abort was issued for any created upload. A completion is never refused for what it lists. Where nothing fails, every attempt succeeds |
| `DiffUpload.ChoosePath` | src/sync_task.cpp:2053-2133 | The choice itself: nothing to do when everything agrees, one request when nothing agrees and the file is at most 5 GiB, parts otherwise, refused above 10,000 of them |
| `DiffUpload.UploadAsParts` | src/sync_task.cpp:2135-2219 | The multipart path: create, transfer, complete, abort on any failure in between |
| `DiffUpload.TransferParts` | src/sync_task.cpp:2153-2205 | The part loop collects parts 1..n that hold the chunks of the local file, each listed with the checksum of its stored bytes; flagged chunks are copied and credited as saved, the others sent |
| `DiffUpload.SendChunk` | src/sync_task.cpp:2159-2199 | A part is the local chunk whether it was copied from the old object or sent |
| `DiffUpload.UploadPartWithRetry` | src/sync_task.cpp:1955-1981 | Retries change only the named part; a result means it holds the data; no result, uncancelled, means four failures |
| `DiffUpload.UploadPartCopyWithRetry` | src/sync_task.cpp:1984-2015 | The same for a copied range, which must lie inside the source |
| `DiffUpload.PutWithRetry` | src/sync_task.cpp:2103-2113 | The whole-file fallback replaces the object or leaves it, and gives up uncancelled only after four failures |
| `DiffUpload.AssemblesAll` | src/sync_task.cpp:2153-2160 | Parts are contiguous and disjoint and cover the file: put end to end they are the file |
| `DiffUpload.CollectedIsAcceptable` | src/sync_task.cpp:2208-2212 | A full collection gives the store no ground to refuse, and assembles to the file |
| `ObjectStore.Store.CompleteMultipartUpload` | include/s3_mock.h:900-947 | Completion needs parts 1..n in order, stored, with matching checksums; it replaces the object by their concatenation |
| `ObjectStore.Store.UploadPart` | include/s3_mock.h:837-860 | A part call stores the data under its number or fails, with or without effect |
| `ObjectStore.Store.UploadPartCopy` | include/s3_mock.h:862-898 | The same for a range of an existing object; a range outside it fails |
| `ServerCopy.CopyObjectMultipart` | src/s3_client_impl.cpp:1085-1182 | Success means the destination is the first `size` bytes of the source, `size` being the listed one; failure leaves it alone unless the completion was applied; the upload is closed, aborted or still registered |
| `ServerCopy.CopyParts` | src/s3_client_impl.cpp:1117-1160 | The part loop collects exactly the consecutive ranges of the first `size` bytes |
| `ServerCopy.CopyNext` | src/s3_client_impl.cpp:1117-1160 | One round adds the next range, with the checksum of its bytes |
| `ServerCopy.CopyPart` | src/s3_client_impl.cpp:1131-1152 | Retries with a cancellation check before each; a result means the part holds the range, none means that every try failed |
| `S3Listing.EnumerateLevels` | src/directory_comparison.cpp:718-921 | The level-by-level walk terminates for every service and every failure. Uncancelled, with the prefix meant as a folder: it reports wanted keys only, each once and by what follows the folder, and every wanted key under no prefix whose listing failed; complete, exactly the wanted keys; incomplete only if some listing below failed |
| `S3Listing.EnumerateFlat` | src/directory_comparison.cpp:294-372 | The flat listing, uncancelled: exactly the non-marker keys on the pages before the first failure, each once; complete exactly when no page failed and the end is the end, and then every one under the folder |
| `S3Listing.WalksAgree` | src/directory_comparison.cpp:718-921 | Two exact listings agree as multisets: the walk by `/` equals the flat listing |
| `S3Listing.MarkersMeansEverything` | src/directory_comparison.cpp:811-826 | With folder markers included, every key under the prefix is reported |
| `S3Listing.WalkLevel` | src/directory_comparison.cpp:767-905 | Any order of the workers of a level keeps every key found once, under exactly one queued prefix, or under one whose listing failed |
| `S3Listing.ProcessPrefix` | src/directory_comparison.cpp:776-870 | One worker brings back what its prefix lists and queues strictly longer prefixes |
| `S3Listing.ListAll` | src/directory_comparison.cpp:791-847 | The page loop: uncancelled, it has all pages before the first failure, and is complete exactly when none failed and the last has a proper end |
| `S3Listing.KeepWanted` | src/directory_comparison.cpp:810-833 | The filter loop keeps exactly the wanted keys, by relative path |
| `S3Listing.SplitStep` | src/directory_comparison.cpp:835-838 | Listing one queued prefix keeps the split of keys into found and queued exact |
| `S3Listing.UnderPrefix` | include/s3_mock.h:314-415 | Under a prefix, a key is listed directly or lies under exactly one common prefix |
| `LocalWalk.Walk` | src/directory_comparison.cpp:434-647 | The walk ends on every graph of directories and links, and reports files only, each path once. Uncancelled it finds every file an unrestricted link-following walk reaches by some path, and every path of every file unless it reports an omitted alias; it is complete exactly when everything it reaches can be read; an alias is omitted only if some directory has two names |
| `LocalWalk.Step` | src/directory_comparison.cpp:443-615 | Any step of any worker of the level keeps the invariant and lowers the measure |
| `LocalWalk.HandleDescends` | src/directory_comparison.cpp:486-588 | Handling an entry lowers the measure: work queued plus room for every link target not yet followed |
| `LocalWalk.HandleHonest` | src/directory_comparison.cpp:545-582 | A link is skipped as an alias only when its target really has a second path, which the walk went |
| `LocalWalk.HandleSeen` | src/directory_comparison.cpp:486-588 | Handling an entry loses nothing: a file is found, something unreadable is noticed, or it is still ahead or below a link not followed |
| `LocalWalk.HandleReported` | src/directory_comparison.cpp:528-541 | What is reported are files, found once and not ahead any more |
| `LocalWalk.WentThere` | src/directory_comparison.cpp:560-583 | Where a path goes below a link not followed, another path that the walk went reaches the same directory |
| `LocalWalk.End` | src/directory_comparison.cpp:617-647 | What follows when nothing is ahead: no file lost to aliases, no path lost without one, complete exactly when all could be read |
| `Checksums.ComputeChunks` | src/crc32_chunks.cpp:45-181 | The local implementation answers exactly, in request order with duplicates, or not at all, for every order of its tasks, every short read and failure; a readable file and valid ids are always answered |
| `Checksums.ComputeChunk` | src/crc32_chunks.cpp:72-148 | Chained updates over 256 KiB blocks give the checksum of the whole chunk |
| `Checksums.ReadBlock` | src/crc32_chunks.cpp:118-141 | However the reads are cut, a filled block holds the bytes of the file at its offset |
| `Checksums.MockChunkCrcs` | include/s3_mock.h:739-806 | The mock honours the same contract, and answers exactly when the size is right and the ids valid |
| `Checksums.SmallObjectCrcs` | src/s3_client_impl.cpp:1279-1350 | An object of one chunk is answered in the shape asked for, or refused on a short body or a bad id |
| `Checksums.AnswersAgree` | include/s3_interface.h:206-224 | Two implementations that both answer a request agree position by position |
| `Checksums.PositionsCompare` | include/s3_interface.h:206-224 | Without a collision, the full answers about two files are equal exactly when the files are |
| `Checksums.ExactIsSums` | include/s3_interface.h:206-224 | An answer keeps the contract exactly if it is the checksums of the requested chunks, which is what transfers and comparisons are proved over |
| `StandardCrc.LocalCrc32s` | src/crc32_chunks.cpp:45-181 | The local implementation with the standard's CRC-32 |
| `StandardCrc.DownloadOverContract` | src/sync_task.cpp:1674-1888 | The differential download is correct over any answers that keep the contract, whichever implementations gave them |
| `Checksums.AddBlock` | src/crc32_chunks.cpp:116-146 | One block more: the running checksum stays that of everything read |
| `Checksums.CountsAgree` | src/s3_utils.cpp:332-338 | The rounding-up count and the overflow-free count of chunks are the same number |
| `Crc32.Chaining` | src/crc32_chunks.cpp:142-145 | Continuing a checksum with a second block equals the checksum of the concatenation |
| `Crc32.CanonicalTestVector` | tests/test_crc32.cpp:70-78 | The checksum of '123456789' is 0xCBF43926 |
| `Crc32.FoldConcat` | src/crc32_chunks.cpp:142-145 | The register fold over a concatenation is the fold of the folds |
| `ChecksumFanout.GetHashes` | src/s3_utils.cpp:816-845 | For every schedule of its threads the reply is exact or empty, no object changes, and every upload whose id the store told is gone or still registered |
| `ChecksumFanout.Reply` | src/s3_utils.cpp:475-509 | After the join: exact answer, and non-empty exactly when no error was counted, every distinct chunk succeeded and there is a chunk |
| `ChecksumFanout.RepliesIff` | src/s3_utils.cpp:475-503 | There is a reply exactly when every distinct chunk was stored and counted and none was waited for in vain |
| `ChecksumFanout.StoppingStops` | src/s3_utils.cpp:636-660 | Once stopping, the pooled variant submits nothing more, and a waiting task leaves without an error |
| `ChecksumFanout.RunInv` | src/s3_utils.cpp:414-473 | In every schedule the counters tell the truth about the tasks, stored slots hold their chunk's checksum, and whatever was skipped left its mark |
| `ChecksumFanout.UndisturbedReplies` | src/s3_utils.cpp:475-503 | No error, no shutdown and a retry budget mean an answer |
| `ChecksumFanout.NeverStuck` | src/s3_utils.cpp:446-473 | Before the join some task or the submitter can always move |
| `ChecksumFanout.ProcessSingleChunk` | src/s3_utils.cpp:713-814 | A value is the chunk's checksum; a failure is counted once; being stopped is no error; undisturbed, a chunk the store has gets a value |
| `ChecksumFanout.Deduplicate` | src/s3_utils.cpp:399-412 | One task per distinct id, in order of first mention |
| `ChecksumFanout.DistinctIdsMember` | src/s3_utils.cpp:391-412 | The work list has no id twice and misses none, so no two tasks share a slot |
| `ChecksumFanout.DistinctIdsOrder` | src/s3_utils.cpp:399-412 | The list grows with the mentions: its order is that of first mention |
| `ChecksumFanout.Select` | src/s3_utils.cpp:505-509 | The filter restores order and duplicates |
| `ChecksumFanout.UploadRegistry.AbortAll` | src/s3_utils.cpp:68-104 | The exit handler empties the list and leaves open only uploads whose abort failed, which it reports |
| `RmRun.SuccessMeansGone` | src/rm_task.cpp:605-633 | For every interleaving, false failure and cancellation: success means every listed key is absent and the deleted count is the listing size |
| `RmPrefix.DeletedPrefixIsEmpty` | src/rm_task.cpp:197-248 | From end to end: a successful run leaves no key under the prefix that was there when it was listed, and counted each once |
| `RmPrefix.ListForDelete` | src/rm_task.cpp:197-258 | Deletion starts only from a complete listing and then covers exactly the keys under the prefix, markers included; the outcomes of the other gates mean what they say |
| `RmPrefix.AbsoluteListsUnder` | src/rm_task.cpp:438-443 | Appending the found paths to the prefix gives each key back, once |
| `RmPrefix.SizesAdd` | src/rm_task.cpp:252-256 | The size a dry run reports adds up over the listing |
| `RmRun.NothingUncounted` | src/rm_task.cpp:605-633 | Deleted plus failed never exceeds the listing and, uncancelled, equals it |
| `RmRun.CountedIsAbsent` | src/rm_task.cpp:321-336 | A key counted as deleted is really absent, at every moment |
| `RmRun.BytesAreThoseCounted` | src/rm_task.cpp:329-335 | Bytes freed are the sizes of exactly the keys counted |
| `RmRun.LeftoversAreReported` | src/rm_task.cpp:421-426 | Uncancelled, a listed key still present at the end is among the failed ones |
| `RmRun.AtMostTheRemaining` | src/rm_task.cpp:617-632 | What the message of a cancelled run guarantees, at any moment of any run: of the listed keys at most as many remain as were not counted |
| `RmRun.RemainingIffCounted` | src/rm_task.cpp:617-632 | The message is exact if and only if every listed key that is gone was counted by a finished task |
| `RmRun.CandidRemainingIsTrue` | src/rm_task.cpp:617-632 | It is exact if nobody else deletes and no delete is applied without being reported |
| `RmRun.RemainingMayBeGone` | src/rm_task.cpp:617-632 | Otherwise it need not be: what is reported as still there may be gone |
| `RmRun.MakeBatches` | src/rm_task.cpp:433-451 | Batches of at most 500 hold the listing in order, or a prefix of it after a cancellation |
| `RmRun.NothingPostedAfterCancel` | src/rm_task.cpp:455-470 | A cancelled run hands out no more tasks |
| `RmRun.Judge` | src/rm_task.cpp:605-633 | The verdict on the counters, cancelled or not |
| `RmTask.ProcessBatch` | src/rm_task.cpp:280-427 | Whatever the store answers, applies or hides: every key of the batch is counted and absent, or booked as failed. Uncancelled, a failed key was asked for in every try there is, and after a wholesale failure it was looked for and not reported gone, unless the bucket did not know three times since its last NotFound |
| `RmTask.DeleteRounds` | src/rm_task.cpp:310-337 | Each retry round keeps confirmed + remaining = batch size and bytes = the sizes of confirmed keys |
| `RmTask.VerifyRemaining` | src/rm_task.cpp:363-419 | Only a definite NotFound counts, and always does; a third unknown answer since the last NotFound is the last question |
| `RmTask.VerifyOne` | src/rm_task.cpp:382-406 | One presence check moves a key from open to counted only on NotFound |
| `RmTask.CreditRound` | src/rm_task.cpp:329-335 | The nested searches credit exactly the keys deleted in this round |
| `RmTask.DeleteOne` | src/rm_task.cpp:485-593 | The same for one key: a failure means every try failed and the check after them did not find it gone |
| `RmTask.ResolveTarget` | src/rm_task.cpp:34-136 | A named object is never retargeted to the prefix of the same name; a prefix is chosen only when the key is definitely absent and something lies below |
| `SlidingWindow.Conservation` | src/sync_task.cpp:3032-3125 | In every state of every run: posted = in flight + finished, in flight never exceeds the pool, and the limit survives every halve and raise race within its bounds |
| `SlidingWindow.LimitMoves` | src/sync_task.cpp:3047-3077 | The limit falls only by a halving, not below the floor, and rises only by half or to the double, not above the pool |
| `SlidingWindow.WithinTheLimit` | src/sync_task.cpp:3105-3119 | In a run whose limit never exceeds l, no more than l tasks are in flight |
| `SlidingWindow.LetThroughIff` | src/sync_task.cpp:3105-3113 | The submitter passes exactly when a file is left, nobody cancelled and fewer tasks than the limit are in flight |
| `SlidingWindow.ExitMeansDone` | src/sync_task.cpp:3121-3125 | The exit means no posted task is in flight, and uncancelled that all were posted |
| `SlidingWindow.NeverStuck` | src/sync_task.cpp:3105-3119 | With a slot to begin with, no reachable state is stuck: a sleeping submitter always has somebody to wake it |
| `SlidingWindow.RunsEnd` | src/sync_task.cpp:3048-3125 | A run takes at most ten steps a task, one swap of the limit a task, as many re-reads as the swaps can make necessary, and one step per spurious wakeup |
| `SlidingWindow.StuckWithoutSlot` | src/directory_comparison.cpp:1577-1593 | Without a slot the submitter sleeps at once and not even a cancellation wakes it |
| `SlidingWindow.DeadlockFreeIff` | src/directory_comparison.cpp:1577-1603 | Freedom from deadlock is exactly having a slot or nothing to do |
| `SlidingWindow.ComparisonDeadlockFreeIff` | src/directory_comparison.cpp:1365-1399 | For the directory comparison: exactly outside the mixed workloads with a majority of large files and a budget below one file's 3 or 4 threads |
| `SlidingWindow.SlotExistsIff` | src/directory_comparison.cpp:1398-1399 | A slot exists exactly when threads per file fit the budget |
| `SlidingWindow.WhenNoSlotExists` | src/directory_comparison.cpp:1368-1399 | The thread plan leaves no slot exactly in those workloads |
| `SlidingWindow.MixedShare` | src/directory_comparison.cpp:1383-1390 | The mixed branch gives a file 3 threads, or 4 from three quarters of large files on |
| `SlidingWindow.OtherLoopsNeverStick` | src/rm_task.cpp:267-274 | The delete, part-copy and sync windows never deadlock for a positive thread count |
| `WriteQueue.SidesNeverSleepTogether` | src/sync_task.cpp:2935-2949 | With producers + writers <= capacity + 1, waiting producers and waiting writers never coexist |
| `WriteQueue.NeverStuck` | src/sync_task.cpp:2710-2743 | No reachable state with work left is stuck, without relying on spurious wakeups |
| `WriteQueue.EveryRunFinishes` | src/sync_task.cpp:2710-2743 | Runs are bounded by 8 steps a job plus a constant plus two per spurious wakeup, and end with the work done |
| `WriteQueue.BoundIsExact` | src/sync_task.cpp:2617-2629 | The bound is exactly what keeps the two sides from sleeping together, once there are more jobs than places |
| `WriteQueue.SyncConstants` | src/sync_task.cpp:2617-2629 | With 64 writers and 1024 places this holds for up to 961 producers |
| `WriteQueueDeadlock.BeyondTheBound` | src/sync_task.cpp:2935-2949 | Beyond the bound, with any number of writers and enough jobs, a run stops for good with a job undelivered: signals for one side reached the other |
| `WriteQueueDeadlock.DeadlockFreeIff` | src/sync_task.cpp:2710-2743 | The exact condition: with enough jobs, every reachable state without a step of its own is complete if and only if producers + writers <= capacity + 1 |
| `WriteQueueDeadlock.LargestSafePool` | src/sync_task.cpp:2617-2629 | With 64 writers and 1024 places the largest pool that cannot deadlock has 961 threads |
| `WriteQueueDeadlock.ReachAllAsleep` | src/sync_task.cpp:2710-2743 | How pop signals that reach sleeping writers empty the queue and leave every writer asleep beside a sleeping producer |
| `WriteQueue.StepKeepsInv` | src/sync_task.cpp:2710-2743 | Every step of producers, writers and shutdown keeps the counting invariant |
| `WriteQueueJobs.EveryPushedJobIsWrittenOnce` | src/sync_task.cpp:2710-2743 | By the time the writers have exited, every job ever queued was written, exactly once |
| `WriteQueueJobs.StepConsistent` | src/sync_task.cpp:2710-2743 | The places of the single jobs always add up to the counts of the queue machine |
| `WriteQueueJobs.PushedMovesOn` | src/sync_task.cpp:2710-2743 | A pushed job only moves towards the disk |
| `SyncAccounting.NothingUncounted` | src/sync_task.cpp:3151-3163 | For any interleaving of prefetchers, tasks and writers, counters plus failures never exceed the actionable files and, uncancelled, equal them |
| `SyncAccounting.EveryKindCounted` | src/sync_task.cpp:2839-3030 | With no failure and no cancellation each counter counts all files of its own action |
| `SyncAccounting.SettledAsDecided` | src/sync_task.cpp:2839-3030 | A file is booked as succeeded, failed or given up exactly when a step of the schedule brought that outcome: a write or task that succeeded; a write that failed, or a task that failed uncancelled; a task that failed after a cancellation |
| `SyncAccounting.DecidedOnce` | src/sync_task.cpp:2839-3030 | The outcome of a file is final: no later step decides it again |
| `SyncAccounting.CountersAreOutcomes` | src/sync_task.cpp:3151-3163 | The failure counter is the number of files whose outcome was a failure, each action's counter the number of its files whose outcome was a success |
| `SyncAccounting.SuccessIff` | src/sync_task.cpp:3169-3176 | A joined run reports success exactly when nobody cancelled and every actionable file's outcome was a success |
| `SyncAccounting.WriteIsBooked` | src/sync_task.cpp:2728-2737 | A failed disk write is one more failure, cancelled or not, and no more of any action |
| `SyncAccounting.SettleIsBooked` | src/sync_task.cpp:2839-2903 | A task that settles its file counts its success for the action, its failure unless cancelled |
| `SyncAccounting.MissingDataIsBooked` | src/sync_task.cpp:2919-2932 | A download whose bytes could not be fetched is a failure unless cancelled |
| `SyncAccounting.DataIsQueued` | src/sync_task.cpp:2935-2956 | A task that has the bytes of its file hands them to the disk unless cancelled |
| `SyncAccounting.PrefetchedIsTaken` | src/sync_task.cpp:3090-3103 | The submitter takes what the cache has for a file, and the cache then has it no more |
| `SyncAccounting.CachedIfItFits` | src/sync_task.cpp:2815-2822 | A prefetched file is cached exactly when it fits into what is left of 1 GiB |
| `SyncAccounting.NothingAfterCancel` | src/sync_task.cpp:3083-3115 | After a cancellation nothing more is handed to a task, to the disk or to a prefetch |
| `SyncAccounting.CacheIsMetered` | src/sync_task.cpp:2755-2828 | The prefetch byte counter is always the sum of the cached buffers and at most 1 GiB |
| `SyncAccounting.OnlyOwnBytes` | src/sync_task.cpp:3084-3119 | A file runs with no data or with all of its own bytes; so does every queued write |
| `SyncAccounting.NeverAgain` | src/sync_task.cpp:3084-3119 | Each file runs once: no file ever moves back, and a settled one stays settled |
| `SyncAccounting.RunInv` | src/sync_task.cpp:2755-3030 | The invariants behind these, in every state of every schedule |
| `Planner.ClassifyUpload` | src/sync_task.cpp:186-241 | The upload classifier computes the generic plan |
| `Planner.ClassifyDownload` | src/sync_task.cpp:302-347 | The download classifier computes the generic plan; a missing local file is a full download |
| `Planner.ClassifyBetweenBuckets` | src/sync_task.cpp:410-453 | The bucket-to-bucket classifier computes the generic plan |
| `Planner.ClassifyBetweenDirectories` | src/sync_task.cpp:531-574 | The local classifier computes the generic plan |
| `Planner.AppendDeletes` | src/sync_task.cpp:226-238 | The orphan loop appends exactly destination minus source |
| `Planner.PlanRun` | src/sync_task.cpp:2377-2402 | A cancelled run or an incomplete source (an omitted symlink alias included) leads to no action at all; an incomplete destination does not |
| `Planner.PlanIsExact` | src/sync_task.cpp:186-238 | One entry per source path, exactly the orphans as deletes, nothing else |
| `Planner.EntryIsPlanned` | src/sync_task.cpp:186-347 | Each listed file: skipped exactly for an equal size and a strictly later known time; otherwise Upload or, from 8 MiB, UploadDiff; Download or, from 8 MiB with a local file, DownloadDiff; Copy between buckets; Upload between directories. The entry shows the listed sizes, or -1 |
| `Planner.DeleteIsSized` | src/sync_task.cpp:226-238 | Every other entry deletes a destination file and shows its listed size |
| `Planner.OnlyTheDestination` | src/sync_task.cpp:2843-3030 | Carrying out the plan, each action reading and writing the sides it names, changes the destination of the run and nothing else |
| `Planner.LostPathsWouldBeDeleted` | src/sync_task.cpp:2382-2402 | Why the gate is there: a plan from a partial listing deletes what the listing lost |
| `Planner.PathSetsAfter` | src/sync_task.cpp:226-238 | In whatever order it is carried out, a full plan with deletion makes the path sets equal |
| `Planner.SourceAfter` | src/sync_task.cpp:2843-3030 | Every source path that was not skipped holds the source's bytes afterwards, on the side its action writes |
| `Planner.OrphanAfter` | src/sync_task.cpp:226-238 | An orphan goes exactly if deletion was asked for |
| `Planner.FaithfulIff` | src/sync_task.cpp:97-115 | The destination equals the source afterwards exactly when what was skipped already did |
| `Planner.FaithfulWhateverItHoldsIff` | src/sync_task.cpp:97-115 | In terms of a listing: it does whatever the destination holds exactly when no path shows equal sizes, not zero, and a strictly later known time there |
| `Planner.RerunSkipsIff` | src/sync_task.cpp:105-115 | The next run skips a path exactly if it was skipped now or stamped strictly later than a known source time |
| `Planner.Settles` | src/sync_task.cpp:105-115 | With later stamps everywhere, the next run has nothing to do |
| `Planner.UnknownTimeIsTransferred` | src/sync_task.cpp:105-106 | A destination without a known time is always transferred |
| `AtomicReplace.CopyFile` | src/sync_task.cpp:1484-1551 | At every crash point, write error and cancellation the destination holds the old contents or the complete new ones; true means the new ones, and durably if the directory was flushed; nothing else on the disk changes, and no temporary is left where removing it works |
| `AtomicReplace.CopyAll` | src/sync_task.cpp:1495-1541 | The copy loop has written the whole source, or something failed or was cancelled; interruptions alone never stop it |
| `AtomicReplace.DownloadFromData` | src/sync_task.cpp:1084-1111 | The same for bytes already in memory |
| `AtomicReplace.DownloadFile` | src/sync_task.cpp:1333-1388 | The same for a download of at least one byte, where up to three of its four reads may fail |
| `AtomicReplace.AtomicFileWriter.Commit` | src/sync_task.cpp:952-1018 | Flush, close, rename, flush: the only change of the destination, and safe on its own |
| `AtomicReplace.AtomicFileWriter.constructor` | src/sync_task.cpp:861-933 | Up to eight names for the temporary, any free one will do; a destination that cannot be vouched for is refused; the destination stays as it is |
| `AtomicReplace.AtomicFileWriter.Destroy` | src/sync_task.cpp:935-942 | Without a commit the temporary goes, the destination stays, and every other name shows what it showed |
| `AtomicReplace.WriteAll` | src/sync_task.cpp:1089-1105 | The write loop goes on after short writes and interruptions and has written all of the data or none counts |
| `AtomicReplace.WriteBuffer` | src/sync_task.cpp:1518-1535 | The copy's inner loop, which a cancellation may cut short |
| `AtomicReplace.RenamePublishes` | src/sync_task.cpp:997-1016 | Renaming a flushed file is safe at every crash point and, once the directory is flushed, final |
| `AtomicReplace.UnflushedRenameIsUnsafe` | src/sync_task.cpp:969-988 | Without the flush before it the rename would not be safe |
| `RangedRead.GetObjectRange` | src/s3_client_impl.cpp:501-586 | With the flag off, or from 0, a non-empty result is exactly object[start..end] for every endpoint that honours, clamps, cuts or ignores the range; an honest one is always read |
| `RangedRead.GetObjectRangeInto` | src/s3_client_impl.cpp:588-709 | The same into the caller's buffer, which a failure leaves empty |
| `RangedRead.ValidateRange` | src/s3_client_impl.cpp:78-99 | Accepts exactly the ranges whose length fits 64 bits, without overflowing on the way |
| `RangedRead.RangeResponseHonoursRequest` | src/s3_client_impl.cpp:131-207 | The header check with its loops: the named range must be the requested one; silence is accepted only from 0 or by flag |
| `RangedRead.RenderedIsRead` | src/s3_client_impl.cpp:161-195 | Every standard Content-Range is read back, whatever the case of the unit (section 14.1 and 14.4 of RFC 9110) |
| `RangedRead.OtherUnitsAreUnreadable` | src/s3_client_impl.cpp:161-186 | Only the whole word counts as the unit |
| `RangedRead.SilentIff` | src/s3_client_impl.cpp:138-146 | Only a missing header counts as silence |
| `RangedRead.AcceptedIsExact` | src/s3_client_impl.cpp:516-557 | What passes all checks is the range, with the flag off or from 0, where the two length checks make up for the missing header |
| `RangedRead.UnverifiedIsExactIff` | src/s3_client_impl.cpp:138-146 | With unverified ranges allowed, every accepted answer is the range if and only if the object begins with the bytes of the range; otherwise a cut-off object is taken for it |
| `RangedRead.FlagIsHarmlessIff` | src/s3_client_impl.cpp:138-146 | Over all objects that have the range, the flag is harmless exactly from 0 |
| `RangedRead.UnverifiedMisleads` | src/s3_client_impl.cpp:138-146 | For a range that ends behind the object, an object as long as the range is taken for it |
| `BoundedBuffer.Drive` | src/s3_client_impl.cpp:217-274 | For every sequence of peeks, reads and seeks the stream answers as a plain cursor over the first `limit` bytes |
| `BoundedBuffer.SendTwice` | src/s3_client_impl.cpp:238-267 | A rewind replays the same bytes |
| `BoundedBuffer.DeliveredIs` | src/s3_client_impl.cpp:217-236 | What reading delivers: the file's bytes from the position on, as far as asked for, announced and there |
| `BoundedBuffer.BoundedFileBuf.Underflow` | src/s3_client_impl.cpp:225-236 | A refill delivers the next byte of the cursor without moving it |
| `BoundedBuffer.BoundedFileBuf.SeekOff` | src/s3_client_impl.cpp:244-267 | A seek inside [0, limit] moves the cursor, any other reports -1 and leaves it |
| `BoundedBuffer.BoundedFileBuf.ReadBytes` | src/s3_client_impl.cpp:225-236 | Reading buffer by buffer delivers the bytes of the view |
| `TempNames.TempNameRoundTrip` | src/sync_task.cpp:1025-1033 | Every temporary's name is at most 255 bytes, is recognised, and gives its pid back |
| `TempNames.NamesApart` | src/sync_task.cpp:1025-1033 | Two names are equal only if pid and counter are |
| `TempNames.TempNameParts` | src/sync_task.cpp:1025-1033 | A name holds as much of the stem as fits into 255 bytes, all of it if it does, and both numbers |
| `TempNames.SpelledIsParsed` | src/sync_task.cpp:687-721 | Every spelling of stem, pid and counter is read back, dashes and digits in the stem included |
| `TempNames.ParsedIsSpelled` | src/sync_task.cpp:687-721 | And nothing else is accepted |
| `Durations.ParseDuration` | src/duration_parse.cpp:6-55 | Accepts exactly the texts that denote a duration of at most 64 bits, with that value and without overflow |
| `Durations.FormatThenParse` | src/report_writer.cpp:44-55 | Every non-negative 64-bit duration survives printing and parsing |
| `Durations.FormatDenotes` | src/report_writer.cpp:44-55 | A printed duration denotes the duration it was printed from |
| `Durations.LargestUnitIsPrinted` | src/report_writer.cpp:44-55 | The unit printed is the largest that divides the duration |
| `Durations.Overflows` | src/duration_parse.cpp:49-52 | The division recognises an overflowing product without computing it |
| `Decimal.ShowThenValue` | src/report_writer.cpp:44-55 | Printing a number and reading it back are inverse |
| `Comparison.RunComparison` | src/comparison_task.cpp:164-207 | For all chunks or selected ones, a verdict is given exactly when both checksum lists arrived; without a collision the reported positions are exactly those whose chunks differ, and for all chunks all-match holds exactly for equal contents |
| `Comparison.CompareSums` | src/comparison_task.cpp:180-205 | The three loops list the differing, the extra-in-A and the extra-in-B positions, each once and in order |
| `Comparison.AnalyzeBuffers` | src/comparison_task.cpp:250-304 | Block analysis equals the flat byte comparison: the number of differing bytes and of differing blocks, first and last offsets, a flag per block |
| `Comparison.CompareBlock` | src/comparison_task.cpp:280-291 | The inner loop carries the totals of the flat comparison |
| `Comparison.AnalyzeSmallFile` | src/directory_comparison.cpp:99-133 | The block lists of two whole files: differing blocks as far as both files go, then the extra ones |
| `Comparison.NothingShownIff` | src/directory_comparison.cpp:99-133 | The block report is empty exactly when the shorter file is a prefix of the longer and ends in the same block |
| `Comparison.TailNotShown` | src/directory_comparison.cpp:109-123 | So a longer file whose tail stays within the last block shows no differing block |
| `DirectoryTotals.CompareDirectories` | src/directory_comparison.cpp:1215-1656 | A finished run reports every path of the union once, a common one with the verdict of comparing its two files; an incomplete listing is refused |
| `DirectoryTotals.CompareFile` | src/directory_comparison.cpp:1455-1491 | One task's status is the outcome of the comparison of the two files |
| `DirectoryTotals.VerdictMeans` | src/directory_comparison.cpp:1479-1491 | Without a collision, a file that could be summed on both sides matches exactly when its contents are equal, and is an error exactly otherwise |
| `DirectoryTotals.CompareCommon` | src/directory_comparison.cpp:1439-1506 | The tasks, in any order; a cancelled one reports nothing |
| `DirectoryTotals.SplitPaths` | src/directory_comparison.cpp:1262-1275 | The loops over the maps split the union into common, only in A and only in B |
| `DirectoryTotals.FiguresAddUp` | src/report_writer.cpp:37-42 | Matches, content differences, only-in-A, only-in-B and errors add up to the size of the union |
| `DirectoryTotals.AllMatchIff` | src/report_writer.cpp:28-42 | Nothing mismatched and no error means the same paths, all judged to match, and only that does |
| `DirectoryTotals.AllMatchMeansEqual` | src/report_writer.cpp:28-42 | Without a collision it means that the two trees are equal and every common file could be summed, and only that does |

## Left out

- Store and file system hypotheses: one writer at a time per object and file outside the run, equal checksums mean equal chunks (stated as `NoCollision` wherever it is used), a service's success reports are true, its failures may hide an applied change.
- S3Listing.EnumerateLevels: assumes that one listing reports each key and each common prefix once; the mock's continuation token can repeat a common prefix at a page boundary (include/s3_mock.h:314-415), and the walk would then report its keys twice.
- LocalWalk.Walk: the tree does not change during the walk; entries removed meanwhile, the 40-link limit of the kernel and the non-recursive variant are not modelled.
- WriteQueueJobs.EveryPushedJobIsWrittenOnce: takes any queued job, not the first; the order of writes is not promised by the source.
- SlidingWindow.RunsEnd: a weak compare-and-swap that fails although nobody changed the limit changes nothing and is no step.
- ChecksumFanout.GetHashes: the window of the pooled variant is the subject of SlidingWindow; here the scheduler may submit at any time. An upload whose creation was applied but reported as failed has no id and cannot be cleaned up.
- AtomicReplace.DownloadFile: the branch for an object of zero bytes truncates in place; its only callers pass at least 8 MiB. Permissions and ownership of the replacement are left out.
- RangedRead.GetObjectRange: an endpoint that sends the right number of bytes from a wrong offset without a header cannot be told apart from one that honours the range, and is excluded.
- NextRun.DamageIsRepaired: speaks of runs whose clearing of the stamp worked; where it failed the source warns that a retry may skip the file.
- RmRun.SuccessMeansGone: assumes that nobody creates listed keys during the run.
- RmTask.ResolveTarget: the warning about a prefix beside the named object is left out.
- RmTask.VerifyRemaining: "consecutive" unknown answers are counted as the code counts them: an answer that the object exists does not reset the count.
- ServerCopy.CopyObjectMultipart: a source that grew after it was listed is cut at the listed size; the single-request copy is one store call and left out.
- For a request of selected chunks the comparison reports positions in the request, not chunk numbers; the model follows the code.
- SlidingWindow.MixedShare: the ratio is computed in floating point; the model takes the exact quotient.
- Durations.FormatDenotes: negative durations, which the parser never yields, are printed but not read back.
- Streaming enumeration has no completeness flag and promises nothing comparable.
- Backoff, jitter, throughput measurement and clocks: every choice they make is left open.
- Path containment and symlink race checks, the sweep of orphaned temporaries, credentials, region detection, the HTTP client, metrics and pricing, progress display, report files and the command line.
- Windows branches, buffer-pool reuse, the checksum instructions of the processor: outside the algorithms.
