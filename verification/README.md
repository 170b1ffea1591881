# Rutabaga in Dafny

A model of the parts of Rutabaga that take the most care to get right, with proofs of what they keep: the
scatter-gather 2D copy and the resources it works on, the cross-domain context with its worker thread, the watcher
thread of an atomic-memory sentinel, the command stream, the ring, and the canonical image layout.

`dafny verify dfyconfig.toml` checks everything.

## What is modelled

**2D transfers** (`Transfer2D`, `ScatterGather`, `TransferLaws`, `OverlapLaws`, `Rutabaga2D`, `RutabagaCore`).
`Transfer2D.CopyRect` is the loop of `transfer_2d` over a mutable array, with its checked additions, its two unchecked
address sums and its early ends.  `Walk` is what the loop computes, for every input.  The specification is
`CopyLines`: put the chunks end to end and copy the rectangle line by line, so that later lines win.  When destination
lines do not overlap, the two agree exactly when no chunk splits a line (`Safe`): no empty chunk with data behind it
lies strictly inside a line, and no chunk ends where the walk leaves it while the next line starts before that place.
When they overlap, which a reader of a resource can ask for by its stride, less is enough: the two agree exactly when
each destination byte is brought what the last line that wants it wants (`LastWins`).  Which bytes the walk brings to
which line is a condition on addresses (`Delivered`), which `DeliveredIff` proves of the walk.  Non-empty chunks and
packed source lines never split a line.  A short source is no error: the copy is partial. The source address is the
transfer's offset plus the origin of the rectangle, as in the code.  `Rutabaga2D` and `RutabagaCore` carry this up to
resources, the library handle, snapshot and restore.

**The cross-domain worker** (`WorkerProtocol`, `WorkerSafety`, `WorkerOrdering`, `WorkerShutdown`).  The guest thread
and the worker are a machine over atomic steps on the job queue, the wait set, the item table, the sentinel map, the
resample and kill events, and the trace of ring writes and fence signals.  A run is any list of enabled steps of the
two threads and of the kernel, so the theorems hold in every interleaving.  `wait` reports any ready connection.

**The two threads as programs** (`CrossDomainCommon`, `CrossDomainWorker`, `CrossDomainContext`).  The methods of the
worker and of the context work step by step on an object with the shared state.  Between their steps the other thread
and the kernel do what an arbitrary script says.  The object's invariant is that all that has happened is a run of the
machine, so each theorem about runs holds of the programs; the methods also say outright what they leave on the ring
and in the queue.

**The job queue** (`JobQueue`) is modelled at the level of its mutex and condition variable, for any number of threads
that add jobs. Read at its pushes and pops, each of its runs is a run of a queue that adds and takes a job in one
step, as the worker machine does.

**The sentinel watcher** (`SentinelWatcher`, `SentinelThread`): the thread, the guest's stores and wakes, the
shutdown, and wakes for no reason, in every interleaving; `wait` compares and parks in one step.

**The rest.**  `CommandStream`: the loop of `submit_cmd` and the encoding of every command.  `RingWrite`: what
`write_to_ring` leaves in the ring.  `CanonicalLayout`: formats and `canonical_image_requirements`.  `LockOrder`: the
locks that the stretches of code take and what they wait for while they hold them, for any number of threads and
contexts.

## Where code and documentation part

- The comment at src/cross_domain/atomic_memory_sentinel_manager.rs:71-74 says that a shutdown changes the futex
  value.  `wake_all` only wakes (third_party/mesa3d/src/virtio/magma-gpu-rs/lib/util/atomic_memory_sentinel.rs:72-77).
  `ParksAfterShutdownIff` says exactly when the watcher can then park for good, so that the join does not return;
  `DestroyAfterCreateParks` is a way to get there; `ShutdownExits` is what the comment promises, given that the value
  has changed.
- A wake on a new value is not always answered by a signal before the watcher parks: it can be swallowed, by a store
  of the old value (`WakeIsSignalled`, `StoreBackSwallowsWake`).  While signals of its event go through, that is so
  exactly when the wake finds the watcher about to compare (`WakeSwallowedReliablyIff`); when they may fail, as the
  thread's first one may without ending it, exactly when the wake finds it before its comparison, the start included
  (`WakeSwallowedIff`).
- Item ids start at 2 (src/cross_domain/common.rs:231, 249), and 2 and 3 are also the connection ids of the resample
  and kill events. `ItemIdCollides` shows a worker that blocks for that reason; `ActsUnraisedIff` says that the worker
  can be sent to handle an event of its own that nobody raised exactly when an item has been registered under its id.
  The theorems that need ids apart say so with `GoodActions`.
- The comment at src/cross_domain/common.rs:228 has odd ids for descriptors and even ones for requirement blobs.  Both
  take the next number of one counter (`NextIdIs`); read pipes have their own, and once it has gone round they all get
  one id (`ReadPipeIdsDistinctIff`).
- With two channel fences outstanding the worker can poll past a registration (`TwoFencesPollPast`); with at most `n`
  it never does if and only if `n` is at most one (`NeverPollsPastIff`).
- A restored resource answers writes as before exactly when it had a host copy of the length that the restore
  allocates (`RestoredAnswersIff`).  A guest blob of the 2D component has none and comes back with an empty one; a
  host copy whose length does not fit 32 bits comes back shorter (`RestoreKeepsLengthIff`).
- `submit_cmd` does not end on every stream: it goes on for ever exactly when the stated sizes, with handlers that
  agree on the way, lead to a command that states a size of zero and is never refused, because it is a poll or because
  its handler accepts every later call (`EndsIffNotEndless`).
- An image of no lines is refused when its stride does not fit 32 bits, although its size is zero (`NoLinesRefused`).

## Model

| member | source | states |
|---|---|---|
| Transfer2D.CopyRect | src/rutabaga_2d.rs:68-157 | the loop ends on every input and leaves the destination and the outcome that the walk over chunks and lines defines |
| Transfer2D.Transfer2D | src/rutabaga_2d.rs:34-157 | the whole call: nothing is written for an empty rectangle, or for one that ends outside the resource, and the range error is returned exactly for that; else it is the walk, with both address sums wrapping |
| Transfer2D.CopyPiece | src/rutabaga_2d.rs:125-137 | a piece lands at its strided place, or nothing changes and the error is that of the first sum or bound that fails |
| Transfer2D.RectAddresses | src/rutabaga_2d.rs:63-93 | in both memories a line starts at the offset, plus a stride for each line above it, plus four bytes for each pixel to its left, when the sum fits |
| Transfer2D.LineAddresses | src/rutabaga_2d.rs:86-93 | every line starts at origin plus line times stride, in the source and in the destination |
| ScatterGather.PlanSound | src/rutabaga_2d.rs:75-154 | on every input, each byte copied belongs to the rectangle and goes to its own line |
| ScatterGather.PlanComplete | src/rutabaga_2d.rs:75-154 | with no splitting chunk ahead, every byte that the source holds for the rectangle is copied |
| ScatterGather.PlanLoses | src/rutabaga_2d.rs:138-144 | a splitting chunk makes the walk lose a byte, which is named |
| ScatterGather.DeliversAllIffSafe | src/rutabaga_2d.rs:75-154 | everything the source holds for the rectangle is delivered if and only if no chunk splits a line |
| ScatterGather.PackedIsSafe | src/rutabaga_2d.rs:105-144 | non-empty chunks and a source stride of at least a line never split a line |
| ScatterGather.WalkFrame | src/rutabaga_2d.rs:125-137 | on every input, error returns included, only bytes of the rectangle's destination lines change |
| ScatterGather.WalkIsCopyLines | src/rutabaga_2d.rs:75-154 | from any point of the walk, an Ok end is the line-by-line copy of what is left of the concatenated chunks |
| TransferLaws.CopyLinesAt | src/rutabaga_2d.rs:86-137 | in the specification each byte of a line lands at its strided place when destination lines do not overlap |
| TransferLaws.OkIffHolds | src/rutabaga_2d.rs:132-135 | a safe copy succeeds if and only if every byte that there is to copy has a place in the destination |
| TransferLaws.OkIsCopyLines | src/rutabaga_2d.rs:57-156 | a safe Ok copy equals the line-by-line copy from the concatenated chunks, overlapping destination lines included |
| TransferLaws.PlanOrdered | src/rutabaga_2d.rs:146-153 | the copies come line by line, and from left to right in each line |
| TransferLaws.ErrorOfFirstLine | src/rutabaga_2d.rs:125-135 | a safe copy that fails does so with the error of the first line that does not fit, however the source is cut |
| TransferLaws.ChunkingIndependence | src/rutabaga_2d.rs:74-154 | two ways of cutting the same bytes give the same outcome, the kind of error included, and on Ok the same destination |
| TransferLaws.LostByteUnwritten | src/rutabaga_2d.rs:138-144 | when destination lines do not overlap, the place of a byte that the walk loses keeps its old content |
| TransferLaws.RefinesIffSafe | src/rutabaga_2d.rs:57-156 | with destination lines that do not overlap and room for everything: the walk is the line-by-line copy for every destination content if and only if no chunk splits a line |
| OverlapLaws.RefinesIffLastWins | src/rutabaga_2d.rs:57-156 | for all strides: the walk is the line-by-line copy for all contents of equally cut chunks and of the destination if and only if what is copied has room and each destination byte is brought what the last line that wants it wants |
| ScatterGather.CoveredIff | src/rutabaga_2d.rs:75-154 | from any point on, the walk copies an address to a line if and only if no empty chunk cuts the line short before it, and the line before is cut short or ends before the chunk does |
| ScatterGather.DeliveredIff | src/rutabaga_2d.rs:75-154 | the same for the whole walk, as a condition on addresses that a caller can check |
| OverlapLaws.SameCovered | src/rutabaga_2d.rs:75-154 | what is copied where depends on the sizes of the chunks, not on their content |
| OverlapLaws.DisjointLastWinsIff | src/rutabaga_2d.rs:75-154 | when destination lines do not overlap, that condition is that no chunk splits a line |
| OverlapLaws.SplitMadeUpFor | src/rutabaga_2d.rs:138-144 | when they overlap it is less: a chunk that splits a line, and a copy that is right all the same |
| TransferLaws.EmptyChunkEndsLine | src/rutabaga_2d.rs:141-144 | an empty chunk inside a line: the copy succeeds without the bytes behind it |
| TransferLaws.ShortStrideSkips | src/rutabaga_2d.rs:105-113 | source lines that overlap: the second line misses the bytes that it shares with the first |
| TransferLaws.LinesInBounds | src/rutabaga_2d.rs:132-135 | when the lines lie inside the destination, the slice is never refused, whatever the chunks are |
| Rutabaga2D.Create3D | src/rutabaga_2d.rs:175-206 | a new resource has a zeroed host copy of stride times height bytes, and is valid |
| Rutabaga2D.TransferWrite | src/rutabaga_2d.rs:245-307 | every refusal in its order, and otherwise the host copy and the outcome of the transfer; success means that the rectangle lies inside the resource, and only bytes of the rectangle change |
| Rutabaga2D.WriteGoesAheadIff | src/rutabaga_2d.rs:245-275 | a valid resource takes a write if and only if the transfer is not empty, comes without a buffer, and both memories are there; each refusal has its one cause |
| Rutabaga2D.WriteStaysInRectangle | src/rutabaga_2d.rs:52-157 | for all sizes, backings and outcomes: a byte of the host copy that changes belongs to the rectangle, and the rectangle lies inside the resource |
| Rutabaga2D.RectanglePlaces | src/rutabaga_2d.rs:52-93 | the bytes of the rectangle are those of its columns in its lines |
| Rutabaga2D.TransferRead | src/rutabaga_2d.rs:309-377 | every refusal in its order, and otherwise the buffer and the outcome, from the host copy or from a blob's backing; success means that the rectangle lies inside the resource, or starts at the blob's first pixel |
| Rutabaga2D.ReadGoesAheadIff | src/rutabaga_2d.rs:309-345 | a read is taken if and only if there is a buffer and a host copy, or memory with a scanout stride; each refusal has its one cause |
| Rutabaga2D.BlobReadStores | src/rutabaga_2d.rs:327-377 | the read of a guest blob: line p of the buffer, at the caller's stride, is line p of the backing, at the scanout stride, as far as the backing reaches, and the rest of the buffer is unchanged |
| Rutabaga2D.BlobReadRefused | src/rutabaga_2d.rs:52-53 | any rectangle of a guest blob that starts elsewhere is out of range |
| Rutabaga2D.RectPixels | src/rutabaga_2d.rs:57-156 | a packed rectangle is copied pixel by pixel to its place, as far as the source reaches, and nothing else changes |
| Rutabaga2D.RectInside | src/rutabaga_2d.rs:52-53 | the range checks put the rectangle inside the host copy |
| Rutabaga2D.WriteInBounds | src/rutabaga_2d.rs:132-135 | after the range checks a write never leaves the host copy, for every backing memory |
| Rutabaga2D.WriteStores | src/rutabaga_2d.rs:270-304 | a write succeeds and stores the backing's pixels at the rectangle's positions, and nothing else |
| Rutabaga2D.WriteThenRead | src/rutabaga_2d.rs:245-377 | writing a rectangle and reading it back gives the backing's pixels at the caller's own stride and leaves the rest of the buffer alone |
| RutabagaCore.RestoreResource | src/rutabaga_core.rs:162-189 | a restored resource is valid, with a new zeroed host copy and no handle, backing, mapping or scanout stride |
| RutabagaCore.RestoredKeeps | src/rutabaga_core.rs:128-189 | a snapshot and a restore keep every field of a resource but those four and the content of the host copy |
| RutabagaCore.RestoreKeepsLengthIff | src/rutabaga_core.rs:172-180 | the host copy comes back with the length it was created with if and only if that length fits u32, and never with a longer one |
| RutabagaCore.RestoredAnswersIff | src/rutabaga_core.rs:162-189 | with its backing attached again a restored resource answers every write as before if and only if it had a host copy as long as the one that the restore allocates |
| RutabagaCore.RestoreResources | src/rutabaga_core.rs:636-640 | every snapshot is restored under its id, all resources are valid, and no two share a host copy |
| RutabagaCore.Rutabaga.ResourceCreate3D | src/rutabaga_core.rs:767-786 | a used id is refused; a new resource joins the others with its own zeroed host copy |
| RutabagaCore.Rutabaga.ResourceCreateBlob | src/rutabaga_core.rs:952-1007 | for the 2D component: a used id and anything but guest memory are refused; the blob is its backing, without a size in pixels or a host copy; validity is kept |
| RutabagaCore.Rutabaga.AttachBacking | src/rutabaga_core.rs:814-833 | the backing is replaced; host copies and the snapshot image do not change |
| RutabagaCore.Rutabaga.DetachBacking | src/rutabaga_core.rs:835-850 | the backing is gone; host copies and the snapshot image do not change |
| RutabagaCore.Rutabaga.SetScanout | src/rutabaga_core.rs:926-947 | the scanout stride is replaced; host copies and the snapshot image do not change |
| RutabagaCore.Rutabaga.UnrefResource | src/rutabaga_core.rs:852-866 | exactly the named resource is gone, and an unknown id is an error |
| RutabagaCore.Rutabaga.TransferWrite | src/rutabaga_core.rs:868-890 | a write changes the host copy of the named resource as the component says, and no other |
| RutabagaCore.Rutabaga.TransferRead | src/rutabaga_core.rs:892-910 | a read changes only the caller's buffer |
| RutabagaCore.Rutabaga.Snapshot | src/rutabaga_core.rs:561-586 | the image of all resources, refused while a context exists |
| RutabagaCore.Rutabaga.DestroyObjects | src/rutabaga_core.rs:588-597 | no resource and no context is left, and the loop ends |
| RutabagaCore.Rutabaga.Restore | src/rutabaga_core.rs:620-648 | everything is replaced; the snapshot of the new state is the one restored, no resource has a backing or a scanout stride, and all host copies are new |
| WorkerSafety.FenceConservation | src/cross_domain/worker.rs:71-281 | in every run, each submission of a fence is queued, held, signalled, or lost by a worker that gave up, and in one place only |
| WorkerSafety.CountTurns | src/cross_domain/worker.rs:113-115 | when writes and signals alternate, their numbers differ by at most one |
| WorkerSafety.OneWritePerFence | src/cross_domain/worker.rs:113-281 | in every run, ring writes and fence signals alternate, kill signals aside, and a write without its signal exists only between the two |
| WorkerOrdering.OwnIdsRun | src/cross_domain/worker.rs:115-118 | with ids in their ranges, the worker's own connections stay in the wait set and nothing else goes by their ids |
| WorkerOrdering.RequeueOrdering | src/cross_domain/worker.rs:99-112 | when a fence goes back to the queue, each announced pipe or event is registered, removed, or ahead of it |
| WorkerOrdering.NeverPollsPastAnnouncement | src/cross_domain/worker.rs:99-112 | with one channel fence outstanding at a time, the worker does not poll while a registration is queued unless the resample event is pending |
| WorkerOrdering.TwoFencesPollPast | src/cross_domain/worker.rs:99-112 | with two fences it can: a run that does, in which never more than two are outstanding |
| WorkerOrdering.NeverPollsPastIff | src/cross_domain/worker.rs:99-112 | with at most n fences outstanding, no run polls past a registration if and only if n is at most one |
| WorkerOrdering.ItemIdCollides | src/cross_domain/common.rs:225-257 | a run in which item 2 makes the worker wait for a resample event that nobody raised |
| WorkerOrdering.ActsUnraisedIff | src/cross_domain/common.rs:34-35 | the worker can be sent to handle a resample or kill event that nobody raised if and only if an item has been registered under that id |
| WorkerShutdown.RecreationWaits | src/cross_domain/atomic_memory_sentinel_manager.rs:139-142 | a sentinel id can be created again only when its descriptor is out of the wait set and nothing of it is queued or being removed |
| WorkerShutdown.RetiredStaysSilent | src/cross_domain/atomic_memory_sentinel_manager.rs:227-247 | after a destroy, no signal for the sentinel reaches the ring until it is created again |
| WorkerShutdown.WorkerProgress | src/cross_domain/worker.rs:298-343 | with Finish queued, every step of the worker, whichever branch it takes, lowers a bound on the steps left |
| WorkerShutdown.ShutdownTerminates | src/cross_domain/context.rs:777-797 | after the drop the worker takes at most that many steps in any continuation, and until it is done it has one, which is to give up only where an item is missing or of the wrong type |
| WorkerShutdown.ReturnLeavesWhatIsBehind | src/cross_domain/worker.rs:341 | when the worker returns, every fence not signalled was behind Finish in the queue |
| CrossDomainCommon.CrossDomainState.AddItem | src/cross_domain/common.rs:240-257 | an item is filed under the next id of its counter, which alone moves |
| CrossDomainCommon.NextIdIs | src/cross_domain/common.rs:243-252 | after n items of a kind the next one gets the id that comes after n |
| CrossDomainCommon.DescriptorIdsDistinctIff | src/cross_domain/common.rs:248-251 | the ids of n descriptors are distinct if and only if n is at most 2^32 |
| CrossDomainCommon.ReadPipeIdsDistinctIff | src/cross_domain/common.rs:244-247 | the ids of n read pipes are distinct if and only if n is at most 2^31; after that they are all the start of the range |
| CrossDomainCommon.DescriptorIdApartIff | src/cross_domain/common.rs:33-35 | exactly which descriptors get an id that no connection of another kind has |
| CrossDomainWorker.WaitForJob | src/cross_domain/common.rs:126-134 | the job is the first of the queue, taken as soon as there is one, and decides where the worker stands; without one the worker stays blocked |
| CrossDomainWorker.Register | src/cross_domain/worker.rs:309-340 | success puts the descriptor of an item of the right type into the wait set; each failure occurs if and only if its cause is found, and ends the worker |
| CrossDomainWorker.Wait | src/cross_domain/worker.rs:71-95 | the first connection that is found ready is reported and decides the branch, unless a call fails before; nothing is written |
| CrossDomainWorker.ProcessReceive | src/cross_domain/worker.rs:202-281 | success if and only if no call fails and all files that came are of accepted kinds; then each has become an item, in order, under the next id, and one write and the signal of the fence are on the ring; failure leaves the ring alone |
| CrossDomainWorker.TakeFiles | src/cross_domain/worker.rs:215-273 | the files become items one after the other; the first of another kind ends the worker |
| CrossDomainWorker.ReceiveMessage | src/cross_domain/worker.rs:207-224 | the files looked at are those that came, as many as there are places for identifiers |
| CrossDomainWorker.CountsOn | src/cross_domain/common.rs:248-251 | the ids of the files of a message are consecutive when nobody else is issued one meanwhile |
| CrossDomainWorker.TakeFile | src/cross_domain/worker.rs:229-272 | a file of an accepted kind is in the item table under the id issued last; any other kind ends the worker, and nothing else does but a call that fails |
| CrossDomainWorker.Resample | src/cross_domain/worker.rs:99-112 | the fence ends up last in the queue, which has lost nothing, and the ring is untouched; without a resample event the worker blocks |
| CrossDomainWorker.WatchSentinel | src/cross_domain/worker.rs:115-147 | either the sentinel's signal is written and the fence signalled, or the fence is queued again behind every job that was there and the watcher is gone |
| CrossDomainWorker.ReadItem | src/cross_domain/worker.rs:148-194 | success if and only if the item is there, of a kind that is read, and no call fails: one read, the removal of an item whose other end is gone, and then the signal of the fence; a failure after the write leaves the write alone |
| CrossDomainWorker.CloseTheItem | src/cross_domain/worker.rs:165-192 | an item whose other end is gone leaves the table, and a pipe the wait set first |
| CrossDomainWorker.HandleTheFence | src/cross_domain/worker.rs:71-200 | for each kind of connection exactly what the ring gains from one fence and the steps that the worker takes; the queue loses no job, and a fence that goes back is behind all jobs that were there |
| CrossDomainWorker.RunWorker | src/cross_domain/worker.rs:283-347 | the thread returns at Finish or gives up with an error; at any end no fence is lost or signalled twice, and writes and signals take turns |
| CrossDomainContext.ContextCreateFence | src/cross_domain/context.rs:755-770 | a query fence is signalled at once, a channel fence becomes the last job, any other ring is refused |
| CrossDomainContext.ReadEventNew | src/cross_domain/context.rs:402-419 | success announces the event and leaves the resample event raised; each failure occurs if and only if its cause is found, and changes nothing |
| CrossDomainContext.Send | src/cross_domain/context.rs:260-364 | success means at most one pipe, under the guessed id, announced with the resample event raised; when nothing interferes, exactly the messages that can be sent are; a failure announces nothing |
| CrossDomainContext.TakeIdentifier | src/cross_domain/context.rs:283-350 | for each kind of identifier exactly when it is accepted, and what becomes of the item table |
| CrossDomainContext.SendableIff | src/cross_domain/context.rs:260-350 | what can be sent: not too many identifiers, of accepted kinds, at most one read pipe under the id that it gets, and files that are there, each once |
| CrossDomainContext.Write | src/cross_domain/context.rs:467-514 | each error if and only if its cause is found: no item, one that is not written, a length other than eight for an event, or a call that fails; the item stays exactly when the write succeeds without a hang-up, and nothing else changes |
| CrossDomainContext.AtomicMemorySentinelNew | src/cross_domain/context.rs:382-400 | success queues the sentinel's registration last; each failure occurs if and only if it has its reason in what the manager knows once its lock is free, in a missing virtiofs lookup, or in a call that fails |
| CrossDomainContext.AtomicMemorySentinelDestroy | src/cross_domain/context.rs:374-380 | after success the sentinel is shut down; an unknown id is an error |
| CrossDomainContext.CreateTheWatcher | src/cross_domain/atomic_memory_sentinel_manager.rs:139-191 | an id that the manager knows is refused first, a manager without a virtiofs lookup second, and nothing changes; a watcher of a new id joins the map, running, its registration still owed |
| CrossDomainContext.ShutWatcher | src/cross_domain/atomic_memory_sentinel_manager.rs:227-233 | the watcher is shut down but stays in the map |
| CrossDomainWorker.DecideOn | src/cross_domain/atomic_memory_sentinel_manager.rs:194-252 | a running watcher's event leads to a signal; one that is shut down or gone leads to its removal, its descriptor leaving the wait set first |
| CrossDomainWorker.DropWatcher | src/cross_domain/atomic_memory_sentinel_manager.rs:244-246 | the watcher is out of the map, and no job is lost meanwhile |
| CrossDomainContext.Drop | src/cross_domain/context.rs:777-797 | Finish is queued, the kill event is raised, and in every continuation the worker has a bounded number of steps left |
| JobQueue.JobsInOrder | src/cross_domain/common.rs:118-134 | in every interleaving jobs come out once each and in the order in which they went in |
| JobQueue.RunsAtomically | src/cross_domain/common.rs:118-134 | read at its pushes and pops, each run is a run of a queue with single steps and ends with the same jobs |
| JobQueue.TakenAsObserved | src/cross_domain/common.rs:126-134 | what the worker has been given is what that run takes, in order |
| JobQueue.NoLostWakeup | src/cross_domain/common.rs:118-134 | a worker asleep with no notification on its way has an empty queue |
| JobQueue.NeverStuck | src/cross_domain/common.rs:118-134 | while the worker waits and there is a job, the owner of the mutex or the worker can go on |
| JobQueue.JobComesNearer | src/cross_domain/common.rs:118-134 | each such step brings the worker nearer to its next job |
| SentinelWatcher.NothingLost | src/cross_domain/atomic_memory_sentinel_manager.rs:54-91 | while the watcher is parked and all stores have had their wake, the word is what went with the latest signal |
| SentinelWatcher.WakeIsSignalled | src/cross_domain/atomic_memory_sentinel_manager.rs:65-87 | after a wake on a value not yet signalled the watcher parks only after a signal, or if it had yet to compare and the old value was stored again before any signal |
| SentinelWatcher.WakeSwallowedIff | src/cross_domain/atomic_memory_sentinel_manager.rs:65-87 | where a signal of the event may fail: a wake can be followed by parking without a signal if and only if it finds the watcher before its comparison, the start included |
| SentinelWatcher.WakeSwallowedReliablyIff | src/cross_domain/atomic_memory_sentinel_manager.rs:65-87 | where signals go through: if and only if it finds the watcher about to compare |
| SentinelWatcher.StoreBackSwallowsWake | src/cross_domain/atomic_memory_sentinel_manager.rs:65-69 | such a run with signals that go through, from the start of the watcher, for any two values |
| SentinelWatcher.ShutdownExits | src/cross_domain/atomic_memory_sentinel_manager.rs:65-107 | after the wake of a shutdown the watcher leaves within five own steps, if the word has changed and is not set back |
| SentinelWatcher.ParksOnOldValue | src/cross_domain/atomic_memory_sentinel_manager.rs:65-107 | in any run after the wake, a watcher that parks had yet to compare and found the value that it had loaded, unchanged or stored again |
| SentinelWatcher.ParksAfterShutdownIff | src/cross_domain/atomic_memory_sentinel_manager.rs:101-107 | the code as it is: after the wake the watcher left alone can park if and only if it is past its check and the word is unchanged |
| SentinelWatcher.StaysParked | src/cross_domain/atomic_memory_sentinel_manager.rs:101-107 | such a watcher stays parked whatever is stored, until somebody else wakes it |
| SentinelWatcher.DestroyAfterCreateParks | src/cross_domain/atomic_memory_sentinel_manager.rs:54-107 | a destroy right after the creation gets there |
| SentinelThread.AtomicMemorySentinelThread.Wait | src/cross_domain/atomic_memory_sentinel_manager.rs:66-67 | returns only with the word changed or after a wake, else the thread is parked |
| SentinelThread.AtomicMemorySentinelThread.CheckShutdown | src/cross_domain/atomic_memory_sentinel_manager.rs:75-80 | a flag that was set before the check is always seen |
| SentinelThread.AtomicMemorySentinelThread.Run | src/cross_domain/atomic_memory_sentinel_manager.rs:54-91 | the thread is a run of the machine; while it is there, it waits on the value that its latest signal went with; it leaves only for a shutdown or a signal that fails |
| CommandStream.SubmitCmd | src/cross_domain/context.rs:623-726 | the commands handed over and the end, for every stream and whichever handler call is the first to be refused |
| CommandStream.ReadsOwnWindow | src/cross_domain/context.rs:516-530 | a command whose bytes cover its structure and data is read from those bytes alone |
| CommandStream.ReadOutcomes | src/cross_domain/context.rs:630-718 | which bytes are read as a command, and the error for all others, from the codes and sizes of the protocol in numbers |
| CommandStream.CodesOfCommands | src/cross_domain/cross_domain_protocol.rs:15-27 | which code stands for which command |
| CommandStream.StreamHandedOver | src/cross_domain/context.rs:629-725 | commands laid end to end are handed over one by one, in order, each read on its own |
| CommandStream.StreamUntilRefused | src/cross_domain/context.rs:629-725 | of commands laid end to end, with a handler that refuses: those up to that one have been handed over, and its error is the end |
| CommandStream.EndsIffNotEndless | src/cross_domain/context.rs:720-723 | for every stream and all handlers the loop ends if and only if it does not come to a command that states a size of zero and is never refused |
| CommandStream.EndsAsSubmitted | src/cross_domain/context.rs:623-726 | whenever the loop ends, it ends with the commands and the outcome that `SubmitCmd` gives |
| CommandStream.WriteThenRead | src/cross_domain/cross_domain_protocol.rs:91-197 | every command survives being written and read, whatever filler follows it |
| CommandStream.LegacyInitUpgraded | src/cross_domain/cross_domain_protocol.rs:202-220 | a 16-byte INIT is read as the current one with the query ring as its channel ring and no socket |
| CommandStream.InitV1Upgraded | src/cross_domain/cross_domain_protocol.rs:222-241 | a 20-byte INIT is read as the current one without a socket |
| CommandStream.CommandsRoundTrip | src/cross_domain/context.rs:623-726 | any list of commands, written end to end and submitted, reaches the handlers as it is |
| RingWrite.WriteCommand | src/cross_domain/common.rs:161-173 | structure, data and the untouched rest of the ring; what is left when there is no room |
| RingWrite.WriteFromPipe | src/cross_domain/common.rs:174-194 | as much as there is room for behind a structure that tells its size; nothing read means hung up |
| RingWrite.WriteFromEvent | src/cross_domain/common.rs:195-213 | the counter behind a structure that tells its size |
| RingWrite.GuestReads | src/cross_domain/common.rs:174-213 | a guest finds item, hang-up flag, size and exactly the data that was read |
| CanonicalLayout.FourccRoundTrip | src/rutabaga_gralloc/formats.rs:110-121 | format identifiers and four-byte codes correspond one to one |
| CanonicalLayout.AddPlane | src/rutabaga_gralloc/formats.rs:242-254 | one plane: its exact stride and end, or an error exactly when something cannot fit |
| CanonicalLayout.CanonicalImageRequirements | src/rutabaga_gralloc/formats.rs:236-259 | a result exactly when the exact numbers fit; for each format by its code the strides, offsets and size in numbers, and an error for every other code |
| CanonicalLayout.LayoutByCode | src/rutabaga_gralloc/formats.rs:123-142 | the layout that each four-byte code has |
| CanonicalLayout.ResultByFormat | src/rutabaga_gralloc/formats.rs:228-259 | what the computation over layouts comes to for NV12, YVU420, each packed format and every other code |
| CanonicalLayout.PlanesTile | src/rutabaga_gralloc/formats.rs:242-257 | every byte of the image belongs to exactly one plane, and no plane reaches past the end |
| CanonicalLayout.SmallerImagesFit | src/rutabaga_gralloc/formats.rs:236-259 | a smaller image can be laid out whenever a larger one can, and needs no more memory |
| CanonicalLayout.BiplanarLikeTriplanar | src/rutabaga_gralloc/formats.rs:95-107 | NV12 and YVU420 images have two and three planes, need the same memory, odd dimensions included, and have layouts for the same dimensions |
| CanonicalLayout.ComputableIff | src/rutabaga_gralloc/formats.rs:228-259 | with lines a layout exists if and only if the size fits; without lines the stride must fit too |
| CanonicalLayout.NoLinesRefused | src/rutabaga_gralloc/formats.rs:228-259 | an image of size zero that is refused |
| LockOrder.CallsOrdered | src/cross_domain/context.rs:390-459 | every stretch of code takes its locks in rising rank and releases them all |
| LockOrder.NoCircularWait | src/cross_domain/worker.rs:121-194 | however many threads and contexts there are, no circle of threads wait for one another's locks |
| LockOrder.SomeThreadGoesOn | src/cross_domain/common.rs:118-144 | while some thread is inside a call, some thread inside a call can go on, or stands at a join, a read or a write that the outside has yet to let through |
| LockOrder.StuckDestroyKeepsManager | src/cross_domain/context.rs:374-380 | a destroy whose watcher does not leave keeps the manager's lock, whatever the others do |

## Left out

- 64-bit targets and release builds are modelled: `usize` is 64 bits wide, unchecked sums wrap around.
- The bytes of guest memory do not change during one call; a piece of it is a value, so a guest that writes to its memory while a copy runs is not modelled.
- RingWrite.WriteFromEvent: needs eight bytes of room behind the structure, because the source indexes them unchecked and panics without them.
- The rings of the worker machine are a trace of writes; `RingWrite` has the bytes.  A write that fails after its structure has been written counts as no write.
- One INIT per context, with a channel.  Fences submitted before it are dropped by the source and not part of a run.
- RutabagaCore.Rutabaga.ResourceCreateBlob: does not model blobs that a cross-domain context creates; their items are in `CrossDomainCommon`.
- `wait` is a choice of one ready connection and returns at least one event; with none, src/cross_domain/worker.rs:94 would drop the fence.
- Calls into the operating system fail or succeed by choice.  In the worker machine the signals of the resample and kill events do not fail; in the watcher machine a signal may.  A descriptor that the wait set holds as a duplicate may refuse its removal, which is such a failure.
- The item table's lock is not held from the look-up to the removal of an item in the worker machine; it allows more interleavings than the code.
- WorkerShutdown.RecreationWaits: assumes that items and sentinels are registered under ids of their own ranges, as do the other theorems with `GoodActions`; the code does not check the ids that a guest chooses.
- WorkerOrdering.NeverPollsPastAnnouncement: covers pipes and events; the registration of a sentinel raises no resample event.
- WorkerShutdown.RetiredStaysSilent: takes the destroy of a sentinel as one step, which includes the join; `SentinelWatcher` says when that join returns.
- Freshness of item ids against ids that a guest chooses for imported files; in the machine the ids of items are chosen freely, and their counters are in the programs alone.
- The drop of a sentinel manager, which shuts down the watchers that are left.
- Liveness that needs a fair scheduler; bounded steps are proved instead.
- The resources that a message names, their handles and the descriptors that travel with it: a lookup succeeds or fails by choice.
- The header fields that no handler looks at: ring index and padding.
- Locks inside the fence handler: it takes none of the modelled ones.
- OS objects, foreign renderers, the C interface, snapshot files and their JSON, the capability sets, the builder and the Kumquat server.
- `get_image_requirements` beyond its item and its lock, the choice of a gralloc backend, and page rounding.
