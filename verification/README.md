# A verified model of the hard parts of drpkg

Six components of the repository are modelled here in Dafny with their input and output cut
away, and what they promise is proved for all inputs and all runs.

- **Backup task engine** (`Backup*.dfy`). `BackupTasks` and `BackupCascade` hold the failure
  cascade, `BackupEngine` the class with the critical sections, `BackupProtocol` the step
  system in which clients, the scheduler and workers interleave (a worker's test and the action
  it then takes are different steps), `BackupDependencies` and `BackupLifecycle` the invariants
  and the theorems about runs, `BackupStaleWorker`, `BackupWakeUps` and `BackupUntouched` the
  exact conditions under which they hold, on runs built in `BackupScenes`. `BackupOutcomes` says
  field by field what the sections come to, `BackupWorkers` what a worker does with its task,
  `BackupAttempts` how often the work is tried.
- **vimg layered image** (`Vimg*.dfy`). `VimgCodec` is the cluster frame, `VimgLayer` one image
  (DATA, IDX and the index they spell), `VimgChain` the logical disk of a backing chain,
  `VimgTransform` Map, Commit and Rebase as relations between chains, `VimgImage` the class.
- **qcow2 pointer table** (`Qcow*.dfy`). `QcowList` is the linked list, `QcowLru` and
  `QcowBlockCache` the cache on values and as it is built, `QcowTables` the words on disk and in
  memory, `QcowWriteBack` the operations with what each keeps, `QcowRuns` the theorems about
  runs, `QcowCrash` what lost, torn and failed writes may leave behind, `QcowPointerCache` the
  class.
- **Path filter** (`PathFilter.dfy`, `PathFilterMeaning.dfy`, `PathStrings.dfy`): expansion of
  `**`, negation, pruning, what a match means, and pruning for path strings.
- **Used-block bitmap** (`FsBitmaps.dfy`, `FsMirror.dfy`): the segmented set, its run search, the
  mirror copy and coarsening.
- **btrfs walker** (`Btrfs*.dfy`): the chunk map, the translation of logical ranges into the
  bitmap, and the search over possibly cyclic trees.

Classes carry the state the source updates in place; their methods are tied by `ensures` to
functions on values, and the theorems are about those functions. Timers, contexts, watchers,
the random source, the cipher, the checksum, the glob matcher, roaring bitmaps and the cluster
allocator are parameters, free choices or contracts.

Where the source and its own words disagree, the model follows the code:

- `backup/handle.go:129-133` says that the previous worker has left the work function when a task
  is retried, and that a stale worker can no longer touch the new run. A watcher can fail a task,
  and a client cancel one between two attempts, while its worker is inside the work function or
  about to enter it, and that worker's `transition` is not guarded by the generation. Shutdown is
  final, and a task has one worker at work, exactly if retries meet only workers that are on their
  way out (`Leaving`): `BackupStaleWorker.ExactlyLeaving`, `BackupStaleWorker.ExactlySingle`. For
  every other point there is a run that ends with a drained Shutdown and a Running task. (A
  Shutdown that times out is final in every run: `BackupLifecycle.TimedOutIsFinal`.) No wake-up is
  lost exactly under that condition or if retries meet no worker about to mark its task Waiting:
  `BackupWakeUps.ExactlyAttended`. A worker on its way out can still touch the new run if it has
  passed its last test of the generation, and even complete it unrun
  (`BackupUntouched.CompletedUnrun`); it cannot exactly if retries meet only workers that test the
  generation, or leave, before they act: `BackupUntouched.ExactlyUntouched`. No method of a handle
  tells where a worker is, so only the work function itself can.
- A raw vimg cluster that begins with the frame magic (and is at least a header long) does not
  read back as written. Reads, writes, Commit and Rebase are proved up to that, with the exact
  condition `VimgCodec.Keeps`.
- `disk/image/vimg/fs.go:895` tolerates a torn last index entry, but the next append lands
  behind the torn bytes and a reload reads across the seam; `VimgLayer.AppendExact` says exactly
  when the append still takes effect, `VimgLayer.TornTailLosesAppend` shows a loss.
- An index entry that names bytes past the end of DATA, which a crash can leave, reads as an error
  until an append puts another cluster's bytes under it (`VimgLayer.OverhangRevives`). A write is
  seen by reads of another cluster exactly then: `VimgLayer.AppendReadsExact`.
- The pointer cache forgets a table before it is written back (`disk/image/qcow2/lru_cache.go:112`).
  If that write fails the updates in it are lost to memory, `QcowWriteBack.LostExact`; what is on
  disk stays consistent all the same.
- A failed write of the L1 table leaves its list of evicted tables as it is
  (`disk/image/qcow2/pointer_table_caches.go:254-261`), so a table that the words already written
  name may be changed in place. A crash stays harmless, whatever is done next, exactly if no table
  in the L1 table may be: `QcowCrash.FailL1Exact`.
- Pruning a tree walk is sound for component lists, but `splitPath` turns "/" into "/" and an empty
  component, and paths below "." do not begin with it; `PathStrings.PruningExact` proves it sound
  for every path string but those two.
- A filter pattern with two or more `**` can miss a path it covers; `PathFilterMeaning.MatchExact`
  characterises what is found, `PathFilterMeaning.TwoWildcardsMiss` shows a miss. Of the glob it
  asks only that `*` takes every component of the path but the leading "/".

## Model

| member | source | states |
|---|---|---|
| BackupTasks.FinalizeLocked | backup/engine.go:718-742 | Finishing a task only ever finishes further tasks or lowers counts; no finished task changes; the mutual recursion terminates because the number of unfinished tasks drops |
| BackupCascade.CascadeExact | backup/engine.go:718-769 | Finalizing a task as anything but Completed finishes exactly it and the tasks reachable over dependents edges through unfinished, not-in-flight tasks, each as Failed with a reached predecessor to blame; nothing else changes |
| BackupCascade.CompletionExact | backup/engine.go:744-769 | Completing a task finishes only it and lowers each open dependent's count by the number of times it is listed |
| BackupEngine.Engine.Start | backup/engine.go:155-174 | The new state is StartCore of the old one; refused exactly when closed |
| BackupEngine.Engine.WakeLocked | backup/engine.go:772-780 | Fills the one-slot wake token, at most once |
| BackupEngine.Engine.FinalizeLocked | backup/engine.go:718-742 | The in-place cascade equals the function on values and leaves a token if it finished anything |
| BackupEngine.Engine.OnTerminalLocked | backup/engine.go:744-769 | The loop over dependents equals the function on values |
| BackupEngine.Engine.NotifyDependent | backup/engine.go:744-769 | One dependent: failed, counted down or left alone, as on values |
| BackupEngine.Engine.Finalize | backup/engine.go:685-692 | The locked section equals FinalizeCore |
| BackupEngine.Engine.Transition | backup/engine.go:670-683 | Changes the state of an unfinished task and nothing else |
| BackupEngine.Engine.CancelLocked | backup/engine.go:694-711 | Accepted exactly for unfinished tasks; a Pending or Waiting one is finalized with its cascade, a Running or Paused one only interrupted |
| BackupEngine.Engine.Retry | backup/handle.go:103-145 | Verdict and re-armed record as on values: only a finished, not Completed task of an open engine |
| BackupEngine.Engine.Submit | backup/engine.go:177-253 | Verdict and new state as on values, over both loops |
| BackupEngine.Engine.RegisterLocked | backup/engine.go:198-236 | Links the task to its dependencies, counts the unfinished ones, keeps the first failed one |
| BackupEngine.Engine.PickReadyLocked | backup/engine.go:400-420 | Exactly the ready tasks, each once, in any order |
| BackupEngine.Engine.LaunchLocked | backup/engine.go:422-451 | Every ready task and no other is marked Running with a new generation, and one worker spawned for each |
| BackupEngine.Engine.SchedulerPass | backup/engine.go:356-371 | A pass launches exactly the ready tasks |
| BackupEngine.Engine.OnSchedulerExit | backup/engine.go:376-395 | In any range order, the exit loop on values |
| BackupEngine.Engine.ExitTurn | backup/engine.go:376-395 | One task of the exit loop: finalized when Pending or Waiting, otherwise left alone |
| BackupEngine.Engine.ForceFinalize | backup/engine.go:288-331 | The timed-out Shutdown's loop, in any range order, as on values |
| BackupDependencies.StepKeeps | backup/engine.go:177-780 | Every step of clients, scheduler and workers keeps the task and worker invariants |
| BackupDependencies.DependencySafety | backup/engine.go:192-236 | In every run, a task never manually retried is launched only when all its dependencies are Completed |
| BackupDependencies.PendingCountExact | backup/engine.go:744-769 | In every run, an unlaunched unfinished task's count is the number of occurrences in DependsOn not yet Completed, and none of its dependencies has failed |
| BackupDependencies.CompletedAbsorbing | backup/handle.go:103-145 | No step makes a Completed task anything else |
| BackupDependencies.SubmitKeeps | backup/engine.go:177-253 | Submit keeps counts, edges and states in step, also when a dependency is already finished |
| BackupDependencies.FinalizeKeeps | backup/engine.go:718-769 | So does a cascade |
| BackupOutcomes.PassTakesExactly | backup/engine.go:400-451 | In every run, a pass takes a task no worker has had (Running, in flight, one generation on, its worker there) exactly when it is unfinished and all its dependencies are Completed, and otherwise leaves it alone |
| BackupOutcomes.RetriedIsTaken | backup/handle.go:103-145 | In every run, a task that has just been retried is taken by the next pass, whatever its dependencies, and a sleeping scheduler is woken to make that pass |
| BackupOutcomes.PassTakes | backup/engine.go:400-451 | Of any other task: left alone if finished or in flight, taken if idle and Pending or Waiting for nothing |
| BackupOutcomes.RetryExact | backup/handle.go:103-145 | Retry is accepted exactly for a finished, not Completed task of an open engine; the task then starts over and no other changes |
| BackupOutcomes.SubmitExact | backup/task.go:51-76 | When Submit accepts a task and with which error it refuses one, over the fields, the dependency list and the engine |
| BackupOutcomes.SubmittedExact | backup/engine.go:198-253 | An accepted task is Failed on the first of its dependencies that ended otherwise than Completed, or else unfinished, Pending if all are Completed and Waiting if not |
| BackupOutcomes.CancelExact | backup/engine.go:694-711 | Cancelling an idle unfinished task ends it as Cancelled with ErrCancelled; a task at work and a finished one are not touched |
| BackupOutcomes.TimedOutOutcome | backup/engine.go:288-331 | A timed-out Shutdown ends every open task: as Cancelled, or as Failed on a dependency it has ended, with the error that names it; finished ones are as they were |
| BackupOutcomes.SchedulerExitOutcome | backup/engine.go:376-395 | The exiting scheduler does so to the tasks no worker has; those running or paused are left to their workers |
| BackupAttempts.AttemptBound | backup/engine.go:457-545 | In every run whose retries meet only workers on their way out, the work function is called at most retryLimit + 1 times between two manual retries |
| BackupAttempts.GivesUpExactly | backup/engine.go:520-552 | After a failed attempt the worker ends the task exactly if it was number retryLimit + 1, and otherwise goes on to the next |
| BackupWorkers.NeverPausedUnasked | backup/engine.go:582-595 | A task is never Paused in a run in which nobody asks for it |
| BackupWorkers.ResumeMarksOpen | backup/engine.go:582-595 | A resumed worker is about to mark its task Running only if it has found it not finished |
| BackupWorkers.KeepsSlot | backup/engine.go:488-519 | A worker inside the work function, paused there or not, keeps its slot until the function returns, and then gives it back |
| BackupWorkers.AbortsTo | backup/engine.go:457-568 | Cancelled while it waits outside the work function, for a resume, a slot or the next attempt, a worker goes to the test of the generation |
| BackupWorkers.CancelTests | backup/engine.go:552-564 | From there it leaves a task that is no longer its own and goes on to finalize its own |
| BackupWorkers.CancelEnds | backup/engine.go:552-564 | Which ends as Cancelled with ErrCancelled |
| BackupWorkers.FinishedLeaves | backup/engine.go:457-568 | Once its task is finished, a worker out of the work function takes at most five more sections in any continuation that does not retry the task, and is gone after the last |
| BackupWorkers.WatchersExact | backup/engine.go:626-667 | A watcher's verdict on an earlier run changes nothing; on the present one it fails the task with its error or cancels it as a client would |
| BackupWorkers.ShutdownExact | backup/engine.go:288-331 | Shutdown closes the engine once; a started one is stopped and drained, one never started is done at once |
| BackupLifecycle.LiveStep | backup/engine.go:356-568 | Every step keeps ownership of tasks by workers, the wake-up invariant and finality, as long as a retry meets only workers on their way out |
| BackupLifecycle.LeavingStep | backup/engine.go:457-568 | A step of a worker that a retry has left behind on its way out keeps ownership of tasks by workers, the wake-up invariant and finality, whatever the step does to the new run |
| BackupLifecycle.NoLostWakeUp | backup/engine.go:356-371 | In every reachable state before stop, a ready task implies that the scheduler is about to pass or a token waits, old workers on their way out included |
| BackupLifecycle.SingleOwner | backup/engine.go:422-451 | Of the workers of a task that have not left the work function for good there is one, and it carries the current generation |
| BackupLifecycle.ConcurrencyBound | backup/engine.go:457-568 | In every run, quiet or not, at most the configured number of workers hold a slot |
| BackupLifecycle.FinishedForever | backup/engine.go:288-331 | Once closed with every task finished, no run accepts a task or makes one non-terminal |
| BackupLifecycle.ShutdownIsFinal | backup/engine.go:288-331 | When the Shutdown that closed the engine has returned, drained or timed out, every task ever accepted is terminal and stays so in every continuation, if retries before it met only workers on their way out |
| BackupLifecycle.TimedOutIsFinal | backup/engine.go:288-331 | When a Shutdown has timed out, every task ever accepted is terminal and stays so in every continuation, in every run, whatever retries have met |
| BackupStaleWorker.RetryOverLiveWorkerBreaksShutdown | backup/handle.go:129-145 | For every point a worker can stand at without being on its way out, and any concurrency, a run whose only retry meets it there ends with a drained Shutdown and the task Running |
| BackupStaleWorker.ExactlyLeaving | backup/handle.go:129-133 | Of all conditions on where a retry may meet a worker, those that make Shutdown final are exactly those that allow only points on the way out |
| BackupStaleWorker.ExactlySingle | backup/engine.go:422-451 | The same conditions are the ones under which no two workers of a task are both at work |
| BackupWakeUps.AlertStep | backup/engine.go:457-568 | Without a retry that meets a worker about to mark its task Waiting, every step keeps such workers in possession of the task and the scheduler awake for ready ones |
| BackupWakeUps.LosesWakeUp | backup/engine.go:549-551 | With a worker about to mark Waiting and one not on its way out, both met by retries, a run leaves a ready task to a sleeping scheduler |
| BackupWakeUps.ExactlyAttended | backup/engine.go:356-371 | No ready task is slept through exactly if retries meet only workers on their way out, or none about to mark its task Waiting |
| BackupUntouched.SpentStep | backup/engine.go:457-568 | If retries meet only workers that test the generation or leave before they act, every step keeps all workers of an older generation at such points |
| BackupUntouched.CompletedUnrun | backup/engine.go:526-568 | For any concurrency, a run whose only retry meets a worker on its way out leaves the new run Completed with no attempt made |
| BackupUntouched.ExactlyUntouched | backup/handle.go:131-133 | Of all conditions on where a retry may meet a worker, those under which no worker of an older generation ever changes the engine's state are exactly those that allow only points before a test of the generation, or on the way out with nothing left to do |
| BackupScenes.MeetsReal | backup/engine.go:457-568 | Workers only stand at points with attempts numbered from one, and finalize only as the outcomes of the work function say, so no other point can be met |
| BackupScenes.VisitAny | backup/engine.go:457-568 | Every point a worker can stand at without being on its way out is reached by some run |
| VimgCodec.EncryptedRoundTrip | disk/image/vimg/fs.go:415-459 | Decoding undoes encoding for every encrypted cluster, any nonce |
| VimgCodec.RawRoundTrip | disk/image/vimg/fs.go:557-611 | For raw clusters exactly when the payload does not look like a frame |
| VimgCodec.ReadBack | disk/image/vimg/fs.go:557-611 | What is read back does not depend on the nonce, and is what was written exactly for the clusters the codec keeps |
| VimgCodec.FrameLayout | disk/image/vimg/fs.go:415-459 | A frame byte by byte |
| VimgCodec.DecodeExact | disk/image/vimg/fs.go:557-611 | What is read back: bytes without the magic as they are, and of the rest exactly the frames whose version, flags, sizes and checksum are right |
| VimgLayer.EntryRoundTrip | disk/image/vimg/fs.go:391-399 | An index entry survives its 20 bytes |
| VimgLayer.ReplayAppend | disk/image/vimg/fs.go:873-897 | Behind whole entries an appended entry is the last one replayed |
| VimgLayer.AppendExact | disk/image/vimg/fs.go:873-897 | Behind any tail, an append takes effect exactly when the seam reads back as that entry |
| VimgLayer.TornTailLosesAppend | disk/image/vimg/fs.go:895-896 | A torn byte makes a reload miss the next cluster written |
| VimgLayer.AppendReads | disk/image/vimg/fs.go:371-413 | On whole files a cluster write is seen by reads of that cluster and by no other |
| VimgLayer.AppendReadsExact | disk/image/vimg/fs.go:371-413 | Behind whole entries, a write is seen by reads of another cluster exactly when that one's entry ends past DATA, within what is appended, and decodes there |
| VimgLayer.OverhangRevives | disk/image/vimg/fs.go:526-555 | An instance: an entry that names just the bytes of the next append is unreadable before it and reads as the other cluster's bytes after it |
| VimgLayer.BackExact | disk/image/vimg/fs.go:526-555 | A cluster reads back as written if and only if the codec keeps it |
| VimgLayer.FrameNeverItself | disk/image/vimg/fs.go:557-611 | A raw cluster that looks like a frame never reads back as itself, padding included |
| VimgLayer.Recovery | disk/image/vimg/fs.go:371-413 | Cutting IDX at any byte n, and DATA no shorter than the surviving entries need, reloads exactly what the image itself held after the first n / 20 writes |
| VimgChain.RecoveryDisk | disk/image/vimg/fs.go:871-897 | So the logical disk over any backing chain is, torn entry and all, exactly as it stood after the first n / 20 writes |
| VimgChain.OwnerReads | disk/image/vimg/fs.go:498-518 | A read takes a cluster from the first layer that has it, if every layer above reaches that far, and zeros otherwise |
| VimgChain.OverwriteReads | disk/image/vimg/fs.go:498-555 | Overwriting one cluster of the top image changes the disk there and nowhere else |
| VimgChain.WriteIsFlat | disk/image/vimg/fs.go:332-369 | A write replaces exactly the bytes in its range, over any chain and cluster split, if the codec keeps the clusters stored |
| VimgChain.WriteLosesFrames | disk/image/vimg/fs.go:332-369 | And a touched cluster reads back right only if the codec keeps it |
| VimgTransform.MapAgrees | disk/image/vimg/fs.go:676-698 | A byte of a Zero segment reads as zero; any other is read from the layer its segment names |
| VimgTransform.CommitKeepsChild | disk/image/vimg/fs.go:708-741 | A commit, finished or broken off, changes no cluster of the child's disk |
| VimgTransform.CommitPushes | disk/image/vimg/fs.go:708-741 | After a finished commit the backing image reads what the child reads on every cluster in range of both, exactly where the backing codec keeps it |
| VimgTransform.RebaseExact | disk/image/vimg/fs.go:745-833 | After a rebase a cluster reads as before if and only if it was not copied up or the codec keeps it, for any old and new chain |
| VimgTransform.RebaseBrokenOff | disk/image/vimg/fs.go:745-833 | A rebase broken off before the switch has changed no cluster the codec keeps |
| VimgImage.Image.constructor | disk/image/vimg/fs.go:171-246 | Opening heads a chain whose first layer is the files given, torn tail or entries past DATA included, with the index replayed |
| VimgImage.Image.LoadIndex | disk/image/vimg/fs.go:873-897 | The index is the replay of IDX, last entry of a cluster winning, torn tail ignored |
| VimgImage.Image.ReadLocalCluster | disk/image/vimg/fs.go:526-555 | What the layer itself holds of a cluster: nothing, something unreadable, or its bytes; from the entry in memory, or on a miss from a reload of IDX |
| VimgImage.Image.ReadCluster | disk/image/vimg/fs.go:498-518 | The cluster of the chain's logical disk, if the indices are in step; no file changes in any case |
| VimgImage.Image.WriteCluster | disk/image/vimg/fs.go:371-413 | Appends the stored cluster and its entry, or changes nothing: exactly for a wrong length or a full DATA; on whole files that overwrites one cluster and the index stays the replay of IDX |
| VimgImage.Image.WriteAt | disk/image/vimg/fs.go:332-369 | Refused exactly if some byte lies past the end of the disk; the files only grow. On whole files in step with the index: on success every touched cluster is patched and stored, on failure a prefix of them, up to one that could not be read or had no room |
| VimgImage.Image.ReadAt | disk/image/vimg/fs.go:463-496 | Refused exactly if some byte lies past the end of the disk; fills the buffer with the bytes of the logical disk and fails only if one of them is unreadable, if the indices are in step; no file changes |
| VimgImage.Image.ResolveCluster | disk/image/vimg/fs.go:676-698 | Finds the owning layer by walking the chain |
| VimgImage.Image.Map | disk/image/vimg/fs.go:615-674 | Refused exactly if some byte lies past the end of the disk. Segments tile the range without gaps, none empty, neighbours differ in source or owner, every byte labelled with its cluster's owner |
| VimgImage.Image.Commit | disk/image/vimg/fs.go:708-741 | Refused exactly without a backing image; only the backing layer's files change, and they grow. Where those are whole: by the image's own clusters in any order, all of them on success, some when broken off at one that could not be read or had no room |
| VimgImage.Image.HasGuidInChain | disk/image/vimg/fs.go:835-851 | True exactly when the guid is in the chain or some guid comes twice |
| VimgImage.Image.Rebase | disk/image/vimg/fs.go:745-833 | Refused exactly for a cycle, a repeated guid or another cluster size; the image's files only grow and the new backing is read only. On whole files every cluster on which the backings differ is copied up before the switch, or the rebase breaks off at one that cannot be read or has no room |
| QcowList.List.AddRear | disk/image/qcow2/linked_list.go:31-44 | Appends one cell; both chains of pointers keep spelling the sequence |
| QcowList.List.RemoveFront | disk/image/qcow2/linked_list.go:46-63 | Takes the first cell, or reports an empty list |
| QcowList.List.RemoveByPointer | disk/image/qcow2/linked_list.go:65-91 | Takes the given cell from anywhere, the others in order |
| QcowList.List.Content | disk/image/qcow2/linked_list.go:93-105 | The values front to rear |
| QcowLru.InsertedOk | disk/image/qcow2/lru_cache.go:93-122 | Inserting keeps one entry per key and never exceeds the capacity, whether or not a write fails |
| QcowLru.OrderOfLastUse | disk/image/qcow2/lru_cache.go:73-156 | In every run the keys are listed in strictly ascending order of last use and within capacity |
| QcowLru.EvictsLeastRecent | disk/image/qcow2/lru_cache.go:93-122 | The key a full cache gives up was used before every other |
| QcowBlockCache.InStepOk | disk/image/qcow2/lru_cache.go:55-71 | When every entry points at its own cell and the list has no other, the list names every stored key once |
| QcowBlockCache.BlockCache.Get | disk/image/qcow2/lru_cache.go:79-91 | Returns the block of a present key and moves the key to the rear; list and map stay in step |
| QcowBlockCache.BlockCache.Insert | disk/image/qcow2/lru_cache.go:93-122 | A full cache evicts the front key, after handing a dirty block to the callback; nothing is stored if that fails |
| QcowBlockCache.BlockCache.EvictFront | disk/image/qcow2/lru_cache.go:99-119 | The front key and its entry leave, the callback gets the block exactly when it is dirty |
| QcowBlockCache.BlockCache.Set | disk/image/qcow2/lru_cache.go:124-144 | The key is at the rear with the new block, present before or not |
| QcowBlockCache.BlockCache.Remove | disk/image/qcow2/lru_cache.go:146-156 | The key leaves map and list; an absent key changes nothing |
| QcowTables.RereadExact | disk/image/qcow2/qcow_raw_file.go:172-198 | A word written with the used flag and read with the offset mask comes back exactly when it has only offset bits |
| QcowTables.WordsExact | disk/image/qcow2/qcow_raw_file.go:172-198 | Which bits of a table's words are set on writing, refused and kept on reading |
| QcowTables.ReadWritten | disk/image/qcow2/pointer_table_caches.go:30-42 | A written table of offsets reads back as it was, and no other table changes |
| QcowTables.OpenedInv | disk/image/qcow2/pointer_table_caches.go:81-109 | Any disk opens into a state that satisfies the invariant and translates as the disk does |
| QcowWriteBack.FindOk | disk/image/qcow2/pointer_table_caches.go:111-144 | A read returns the in-memory translation and changes no translation, in memory or on disk, evictions included |
| QcowWriteBack.AddedOk | disk/image/qcow2/pointer_table_caches.go:146-163 | Adding a table changes no other table and nothing the disk's L1 leads to |
| QcowWriteBack.UpdatedCopies | disk/image/qcow2/pointer_table_caches.go:185-228 | An update of the disk's own table goes to a copy; the original is left as it was on disk |
| QcowWriteBack.UpdatedInPlace | disk/image/qcow2/pointer_table_caches.go:185-228 | A table that is updated in place has one owner in memory and none on disk |
| QcowWriteBack.SpilledOk | disk/image/qcow2/pointer_table_caches.go:122-136 | An eviction changes no table as read through memory and none the disk's L1 leads to |
| QcowWriteBack.LostExact | disk/image/qcow2/lru_cache.go:99-119 | A failed eviction changes no table but the evicted one, and that one exactly when the disk does not hold it all the same; nothing the disk's L1 leads to changes |
| QcowWriteBack.LoadedInserts | disk/image/qcow2/pointer_table_caches.go:122-136 | Inserting with the write-back callback is spilling and entering, or losing the evicted table when its write fails |
| QcowWriteBack.SyncedOneOk | disk/image/qcow2/pointer_table_caches.go:230-250 | Nor does writing one dirty table |
| QcowWriteBack.SyncedWithOk | disk/image/qcow2/pointer_table_caches.go:230-250 | Nor does writing one dirty table, carried out or failed |
| QcowWriteBack.SyncedL1Ok | disk/image/qcow2/pointer_table_caches.go:252-268 | With all tables clean, writing L1 makes the disk translate as memory does |
| QcowWriteBack.SyncL1Exact | disk/image/qcow2/pointer_table_caches.go:252-268 | Writing L1 keeps the invariant exactly when no dirty table is in it |
| QcowWriteBack.FailedL1Exact | disk/image/qcow2/pointer_table_caches.go:252-268 | A write of L1 that fails after some words keeps the invariant exactly when none of them names a table that may be written in place |
| QcowRuns.SlotExact | disk/image/qcow2/pointer_table_caches.go:20-28 | Two addresses share a slot exactly when they lie in the same guest cluster |
| QcowRuns.StepKeeps | disk/image/qcow2/pointer_table_caches.go:111-268 | Every operation keeps the invariant, failing writes included |
| QcowRuns.StepPlain | disk/image/qcow2/pointer_table_caches.go:111-228 | Every operation that loses no table does to each entry what it would do to a plain table |
| QcowRuns.StepLoses | disk/image/qcow2/lru_cache.go:99-119 | A read or an adding of a table whose eviction fails: the entries of the evicted table become what the disk holds under its address, those of the table being added what the disk holds there, and no others change |
| QcowRuns.CacheInvisible | disk/image/qcow2/pointer_table_caches.go:111-228 | After every run in which no eviction write fails, a read returns what a plain map of past updates over the initial table would, for any capacity of at least 1 |
| QcowRuns.CrashConsistent | disk/image/qcow2/pointer_table_caches.go:165-268 | At every point of every run, failing writes included, the disk translates each address as memory did when L1 was last written |
| QcowRuns.CrashExpected | disk/image/qcow2/pointer_table_caches.go:165-268 | And that is what a plain table held then, if no table had been lost |
| QcowCrash.HappenSafe | disk/image/qcow2/qcow2.go:670-702 | Every operation, every sync of the file and, if no table in L1 may be rewritten in place, every failed writing of L1 keeps this: what an L1 table on the medium may lead to is there as when that L1 table was written, and will not be written again |
| QcowCrash.StepConfined | disk/image/qcow2/pointer_table_caches.go:111-250 | An operation writes, and makes rewritable, only clusters that memory alone led to or that the allocator has just handed out |
| QcowCrash.SafeHonest | disk/image/qcow2/qcow2.go:670-702 | Whatever a crash does to the clusters written since the last sync, and however it mixes the words of the L1 tables outstanding, each address translates as when its L1 word was written |
| QcowCrash.CrashSafe | disk/image/qcow2/qcow2.go:670-702 | With any of the writes since the last sync lost or torn, and the image used on after failed syncs and after failed writings of L1 that found no table in it to be rewritten in place, the medium translates each address as memory did at a writing of L1 still outstanding, or at the last one before |
| QcowCrash.FlushDurable | disk/image/qcow2/qcow2.go:670-716 | After a writing of L1 that was synced, nothing older can come back, whatever follows and fails |
| QcowCrash.FailL1Exact | disk/image/qcow2/pointer_table_caches.go:252-268 | After a failed writing of L1, crashes stay harmless in every continuation if and only if no table in L1 may be rewritten in place |
| QcowCrash.UnclearReached | disk/image/qcow2/pointer_table_caches.go:146-163 | That can be so: with room for one table in the cache, adding a second one leaves the first to be rewritten |
| QcowCrash.TornIsLeft | disk/image/qcow2/pointer_table_caches.go:252-268 | What a failed writing leaves in the file, any number of its words, is among what a crash may leave |
| QcowRuns.TornL1 | disk/image/qcow2/pointer_table_caches.go:252-268 | A write of L1 that fails after any number of words leaves every address translated as before or as in memory |
| QcowRuns.L1BeforeL2Loses | disk/image/qcow2/qcow2.go:670-702 | The order of the two syncs matters: on any opened image, a table added and updated would be lost if L1 were written first |
| QcowRuns.OffsetWrittenOk | disk/image/qcow2/qcow2.go:498-559 | The same on values, over lookup, new table, data cluster and copy on write; when a table is lost, every other mapping stays but that of the table being added |
| QcowRuns.OffsetWrittenWhen | disk/image/qcow2/qcow2.go:498-559 | A write is carried out exactly if no table is lost and the entry is mapped already or the clusters it needs are there: one for the data, one for a missing table, one for the copy of a table that is the disk's own |
| QcowRuns.HostExact | disk/image/qcow2/qcow2.go:472-494 | A guest byte that is byte k of its cluster is byte k of the host cluster that its slot is mapped to, and of no other |
| QcowRuns.HostBytes | disk/image/qcow2/qcow2.go:472-494 | Bytes of one guest cluster keep their distance on the host; two guest bytes share a host byte only if mapped clusters overlap |
| QcowPointerCache.ReadPointerTable | disk/image/qcow2/qcow_raw_file.go:67-91 | Every word masked |
| QcowPointerCache.WritePointerTable | disk/image/qcow2/qcow_raw_file.go:172-198 | Every non-zero word flagged |
| QcowPointerCache.ReadL2Cluster | disk/image/qcow2/pointer_table_caches.go:30-42 | The masked table, or an error if it cannot be read or holds a compressed cluster |
| QcowPointerCache.PointerCache.constructor | disk/image/qcow2/pointer_table_caches.go:81-109 | The opened state of the disk |
| QcowPointerCache.PointerCache.ReadClusterAddress | disk/image/qcow2/pointer_table_caches.go:111-144 | Result and new state are those of FindWith, over map, list and file, the error of a failed write-back included |
| QcowPointerCache.PointerCache.AddNewPointerCluster | disk/image/qcow2/pointer_table_caches.go:146-163 | Result and new state are those of AddedWith, a failed write-back included |
| QcowPointerCache.PointerCache.UpdateClusterAddress | disk/image/qcow2/pointer_table_caches.go:185-228 | The new state is that of Updated; the old cluster is freed exactly when the table was copied; without a cluster for the copy only the order of use changes |
| QcowPointerCache.PointerCache.Sync | disk/image/qcow2/pointer_table_caches.go:230-250 | In any order, until a write fails, exactly if that of some dirty table does: no translation changes in memory or on disk; without a failure all tables are clean |
| QcowPointerCache.PointerCache.SyncL1 | disk/image/qcow2/pointer_table_caches.go:252-268 | Writes L1 exactly when it is dirty and forgets the evicted tables; a failed write leaves the words that arrived and forgets nothing. The tables stay in order exactly when no dirty one was in L1, after a failure exactly when no word that arrived names one that may be written in place |
| QcowPointerCache.PointerCache.SyncCache | disk/image/qcow2/qcow2.go:670-702 | If all writes are carried out the disk translates every address as memory did; if that of a table fails both translate as before; if that of L1 fails, as memory where its words arrived and as before elsewhere, and the tables stay in order exactly when no such word names an evicted table |
| QcowPointerCache.PointerCache.FileOffsetRead | disk/image/qcow2/qcow2.go:472-494 | The host offset of an address, its place in the cluster included, none if not allocated, changing no translation; a failed write-back makes it fail and loses just the table evicted |
| QcowPointerCache.PointerCache.FileOffsetWrite | disk/image/qcow2/qcow2.go:498-559 | Carried out exactly when `QcowRuns.OffsetWrittenWhen` says. On success the address is mapped, keeping the cluster it had, and no other mapping changes; on failure none does, or with a failed write-back those of the table lost and the one being added; the disk translates as before in any case |
| PathFilter.HasDoubleWildcard | extend/filter/filter.go:140-148 | The first recursive wildcard, if any |
| PathFilter.Match | extend/filter/filter.go:150-221 | The in-place expansion decides the recursive predicate |
| PathFilter.WriteExpansion | extend/filter/filter.go:157-166 | The shared slice holds the i-th expansion after turn i |
| PathFilter.ChildMatch | extend/filter/filter.go:118-138 | Decides whether something below the path may match |
| PathFilter.MatchExtends | extend/filter/filter.go:150-221 | A match is preserved under extension of the path |
| PathFilter.RootedPrefix | extend/filter/filter.go:118-138 | A rooted match agrees with the path up to the first recursive wildcard |
| PathFilter.PrefixNotRejected | extend/filter/filter.go:118-138 | No prefix of a match is rejected |
| PathFilter.PruningSound | extend/filter/filter.go:283-329 | For any pattern list, negation included: if an extension of the components s is matched, s is reported as one that may have matching children |
| PathFilter.SettledFold | extend/filter/filter.go:317-322 | The early break does not change the result |
| PathFilter.ListWithChild | extend/filter/filter.go:283-329 | Both results are those of the full ordered fold, early break included |
| PathStrings.BelowExtends | extend/filter/filter.go:58-66 | Going down from a path string extends its components, unless it is "/" or "." |
| PathStrings.PruningExact | extend/filter/filter.go:58-66 | For path strings, pruning is sound exactly at the paths that are neither "/" nor ".", for any glob |
| PathStrings.RootHides | extend/filter/filter.go:58-66 | At "/" the pattern /foo hides /foo |
| PathStrings.DotHides | extend/filter/filter.go:58-66 | At "." an exception for "." hides foo |
| PathFilterMeaning.MatchExact | extend/filter/filter.go:150-221 | For any number of recursive wildcards, a match is found exactly when the pattern covers a run of the path with room for the expansion bound, for a glob whose star takes every component but the leading slash |
| PathFilterMeaning.MatchMeans | extend/filter/filter.go:150-221 | For any glob, a match means that the pattern covers a run of the path; with at most one recursive wildcard, and a star that takes every component but the leading slash, the converse holds |
| PathFilterMeaning.TwoWildcardsMiss | extend/filter/filter.go:156-156 | With two, a covered path can be missed |
| PathFilterMeaning.ChildExact | extend/filter/filter.go:118-138 | childMatch compares the path with the fixed beginning of a rooted pattern, as far as both go, and admits every path for another |
| PathFilterMeaning.ChildMeans | extend/filter/filter.go:118-138 | It says that something below a path may match exactly if something below does, where the star takes the path's components and every part of the pattern matches something |
| FsBitmaps.FsBitmap.Set | disk/filesystem/bitmap/bitmap.go:127-133 | Adds the bit if it is in range, and no other |
| FsBitmaps.FsBitmap.AddRange | disk/filesystem/bitmap/bitmap.go:358-371 | Adds exactly the range, across segments |
| FsBitmaps.FsBitmap.RemoveRange | disk/filesystem/bitmap/bitmap.go:373-392 | Removes exactly the range, across segments |
| FsBitmaps.FsBitmap.NextSetBit | disk/filesystem/bitmap/bitmap.go:394-417 | The first set bit at or after the position, or the size |
| FsBitmaps.FsBitmap.NextClearBit | disk/filesystem/bitmap/bitmap.go:419-476 | The first clear bit at or after the position, even if the library's answer may be any wrong value below its argument |
| FsBitmaps.FsBitmap.ChangeBlockSize | disk/filesystem/bitmap/bitmap.go:225-280 | Accepted exactly for a multiple; a coarse block is set exactly when one of its blocks was, and there are as few coarse blocks as hold the fine ones |
| FsMirror.MirrorFs | disk/filesystem/bitmap/bitmap.go:282-340 | The target equals the origin on every in-range byte of a set block and is untouched elsewhere, and the count is the number of those bytes; after a device error the same holds below the point reached, with the count up to the chunk that failed. It succeeds only if the devices are fine at every chunk, and fails only where one is not: at a chunk of a run of used blocks, or where the origin ends inside one |
| FsMirror.CopyRun | disk/filesystem/bitmap/bitmap.go:300-336 | One run of used blocks, chunk by chunk, short reads at the end of the origin and device errors included; it fails exactly where a device does |
| FsMirror.WantedGrows | disk/filesystem/bitmap/bitmap.go:318-332 | Each chunk adds its length to the number of bytes copied |
| FsMirror.CoarserKeepsData | disk/filesystem/bitmap/bitmap.go:225-280 | A coarser bitmap wants every byte the finer one did, and otherwise only bytes that share a block with one |
| BtrfsImage.Find | disk/filesystem/btrfs/bitmap.go:178-186 | Finds the chunk of an address exactly when there is one, in a sorted disjoint map |
| BtrfsImage.ActionsSmall | disk/filesystem/btrfs/bitmap.go:326-433 | Every address a block names is a 64-bit one |
| BtrfsImage.BlockAsks | disk/filesystem/btrfs/bitmap.go:343-433 | What a block means, field by field: an item of a leaf marks or descends by its key type, a pointer of an inner node descends, within the announced count and the bytes of the block |
| BtrfsImage.NodeAsks | disk/filesystem/btrfs/bitmap.go:312-433 | So what walking an address leads to is what the block asks for that the first stripe of its chunk holds |
| BtrfsWalker.MarkPhysical | disk/filesystem/btrfs/bitmap.go:246-261 | Sets exactly the blocks holding an in-region byte of the range, in 64-bit arithmetic |
| BtrfsWalker.MarkLogicalRange | disk/filesystem/btrfs/bitmap.go:263-295 | Sets exactly the blocks holding a copy of a byte of the range before its first unmapped byte |
| BtrfsWalker.BytesGrow | disk/filesystem/btrfs/bitmap.go:263-295 | One chunk's share adds exactly its copies |
| BtrfsWalker.BytesStop | disk/filesystem/btrfs/bitmap.go:263-295 | Giving up at an unmapped byte loses nothing mapped contiguously before it |
| BtrfsTree.Walker.ReadActions | disk/filesystem/btrfs/bitmap.go:312-324 | The actions of a block, as `BtrfsImage.NodeAsks` reads them; none if it cannot be read |
| BtrfsTree.Walker.WalkTree | disk/filesystem/btrfs/bitmap.go:326-405 | Terminates on any image; what is newly visited is reached from the root and closed under edges, and exactly its bytes are marked |
| BtrfsTree.Walker.Visit | disk/filesystem/btrfs/bitmap.go:326-405 | A block not seen before is marked, read and followed |
| BtrfsTree.Walker.FollowActions | disk/filesystem/btrfs/bitmap.go:350-405 | All actions of a block, in order |
| BtrfsTree.Walker.WalkRoots | disk/filesystem/btrfs/bitmap.go:486-554 | The walks of a dump visit exactly the nonzero addresses reachable from the two roots and mark exactly their bytes |
| BtrfsTree.VisitedExactly | disk/filesystem/btrfs/bitmap.go:326-433 | Visited is the same as reachable, cycles included |

## Left out

- BackupLifecycle.SingleOwner: speaks of workers that are not on their way out; when those left behind by a retry may still finish the new run, BackupUntouched.ExactlyUntouched says.
- BackupDependencies.DependencySafety: says nothing of tasks that were manually retried, which the source launches without looking at dependencies again.
- Engine: events, progress reports, SubmitSync, run modes and lock files, the wait group of watchers; contexts and timers are free choices of the steps.
- VimgImage.Image.WriteAt: on files that are not whole it promises only that they grow, since a torn index or entries past DATA make later reads of a write unreliable (VimgLayer.AppendExact, VimgLayer.AppendReadsExact).
- VimgImage.Image.ReadAt: once an image with a torn index has been written to, its index in memory is out of step with IDX until it is opened again; what reads give then is not stated.
- VimgImage.Image.Commit: equal cluster sizes along a chain are part of the object's soundness, so the size check before a commit is not a case; on a backing image whose files are not whole it promises what WriteAt does.
- VimgImage.Image.Rebase: the new backing is a freshly opened image with files of its own; metadata writes after the switch and their failures are not modelled; on files that are not whole it promises what WriteAt does.
- vimg: creation, deletion, JSON metadata, path resolution, locks, several handles on one image, write errors of the operating system.
- QcowList.List.RemoveByPointer: the report of a broken list is not a case, since a valid list is never broken.
- QcowBlockCache.BlockCache.Replace: blocks are values in the map; the source changes them through a shared pointer, so aliasing of a block is not captured.
- QcowPointerCache.PointerCache.SyncCache: the two syncs of the file are events of QcowCrash; the reference count flushes are absent, as are reference counts in FileOffsetWrite.
- QcowPointerCache.PointerCache.Sync: the error for a table at address 0 is not a case, since no such table is ever cached.
- QcowTables.RereadExact: masks and flags are written as arithmetic on 64-bit values, not as bit operations.
- qcow2: read errors of the operating system other than a missing cluster, read-only files, reference counts and the allocator, which is a contract (a cluster that neither L1 table reaches and that is not cached), guest data, backing files.
- Path filter: errors of the glob matcher, cleaning of path strings, pattern validation.
- PathFilter.ListWithChild: patterns have at least one part, as parsing gives them.
- Bitmap: roaring internals, construction from bytes, counting and formatting.
- btrfs: superblock, chunk tree collection, sorting of the chunk map (taken as sorted and disjoint).
- The other file system parsers, partition tables, LVM, restore, process control and command-line code.
