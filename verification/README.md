# Verification of the directory walk

The library walks a directory tree. Its serial form is a stack of directories still to read. Its
parallel form is a protocol: workers take scheduled directories from a heap that they fill from a
bounded channel, read them, schedule the children they find (while enumerating, or from the finished
rows) and send an ordered result through a second bounded channel; one consumer puts the results back
into depth-first order with a heap and a matcher; an iterator flattens them into entries. This project
models that pipeline, and the byte-level readers under it, and proves that the parallel form does what
the serial one does, for every tree, number of workers, channel capacity, buffer limit and interleaving.

`dafny verify dfyconfig.toml` checks everything.

## The layers

- **The reference.** `Trees`: finite trees of directories, their preorder with index paths, aligned
  trees. A directory has the rows it reads as and the children its enumeration streams.
- **The consumer's matcher.** `OrderedMatching`: the class as the source has it, proved equal to a
  function, and that function proved to name the directories of any tree in preorder. `Tracking` holds
  the general argument, `IndexPaths` the paths, `Heaps` what the two heaps pop first.
- **The protocol.** `Protocol`: every access to shared state is a step of its own (stop flag, counter
  increment, send, drain, pop, zero test, decrement, timed receive). `Accounting`, `Pending` and
  `Ordering` are the invariant: where every directory is, what the counter counts, and what was handed
  out. `Safety` states what follows for every reachable state. `Bounds`, `Progress`, `Fairness` and
  `Tightness` are about getting stuck and getting done. `Stops` and `Leaving` are about what a stop does to
  the output and to the workers, and `StopRace` is a run that a stop disorders.
- **The sequential parts**, as classes and loops: `SerialWalk` (the stack walker), `EntryIter` (the entry
  iterator), `DepthCut` (depth limits), `Streaming` (scheduling during and after a read, with retries),
  `Unfolding` (the tree a file system unfolds into, and when it is aligned),
  `Dirents` (getdents64 records), `IoUring` (batched statx), `NtEnum` (NT record chains).
- **End to end.** `Pipeline`. (`Folds` holds the facts about sums and selections that several modules use.)

## Where a property needs a condition

- *A stop leaves a prefix.* It does for every stop the library raises: the flag goes up when the entry iterator
  is dropped or start-up times out, so never while a call of `next` is under way, and for all runs with such
  stops `Stops.PoliteStopLeavesPrefix` proves it. A flag raised by somebody else inside a call can make the
  call end in the fallback after the disconnect (src/core/ordered_queue.rs:173-175). `Stops.RaisingCanStray`
  says from exactly which states, and `StopRace.StopCanDisorder` is such a run.
- *Every worker leaves after a stop.* With room for N * F directories in the spec channel, always
  (`Leaving.StoppedRunsEnd`); with less, and F at least two, a worker can wait for ever
  (`Leaving.RoomToLeaveIsExact`).
- *Streamed and bulk scheduling agree.* Exactly for listings where the entry type says "directory" for just the
  rows that get a children path (`Streaming.StreamingIsBulk`). The exceptions are entries of unknown type that
  turn out to be directories and links followed to directories (`Streaming.MisalignedExactly`), and
  enumerations that break off after streaming. `Unfolding.AlignedExactly` says it for a whole file system, and
  `Unfolding.WalksDiffer` shows one on which the parallel walk never reads a directory that the serial one
  reads. The order theorems about directories (`Safety.OutputIsPreorder` and all of liveness) need no alignment.
- *A chain of NT records gives back every name.* On chains as the system makes them, with entries at multiples
  of eight, always (`NtEnum.AlignedRoundTrip`). On others exactly if the last name is "." or ".." or at least
  112 bytes are left from the start of the last record (`NtEnum.RoundTrip`), because the check in
  src/core/nt_dir_enum.rs:315 asks for the padded structure; `NtEnum.UnalignedCanLose` is a chain that loses a
  name. The test for ".." looks into the padding of a copy of the structure (src/core/nt_dir_enum.rs:336-341):
  it is right exactly if the copy keeps the second character there (`NtEnum.EmittedExactly`).
- *Encoding directory records and parsing them back.* The length field has 16 bits, so a record of 65536 bytes
  or more never comes back: `Dirents.RecordRoundTrip` has the exact condition for one record of any length. A
  list of records within that length comes back if and only if no name contains a NUL (`Dirents.RoundTrip`).
- *Heavier directories first.* `Weighted::cmp` compares the other weight to its own, so the heap gives up the
  lightest (`Heaps.SpecTopIsLightest`), against src/core/weighted.rs:6-7. No theorem here depends on it.
- *The header of a directory record.* src/core/unix_dir_enum.rs:128 says the structure has no padding, but its
  size is 24, not 19. The model uses 24.

## Assumptions

One root directory, at index path `[0]`, and a finite tree. At least one worker and a capacity of at least
one (`Protocol.Sensible`). Reading a directory is a function of its spec. Atomics are sequentially
consistent, channels are first-in first-out, and the work iterator is used by one worker at a time and kept
alive until the last one has left, so sending a spec never fails. A timed wait receives what is there and
otherwise gives up; the one-attempt deadline may expire before the receive. `pushed` and `stray` in the
protocol's state are history: no step reads them. Fairness (`Fairness.Fair`) means that no worker able to
move for ever is passed over for ever, and that the consumer's deadline does not expire before its receive
in every attempt for ever.

## Model

| member | source | states |
|---|---|---|
| Safety.OutputIsPreorder | src/core/read_dir_iter.rs:141-232 | in every reachable unstopped state the results handed out are a prefix of the preorder, and all of it once the iterator has returned None |
| Safety.OutputIsSerial | src/core/read_dir_iter.rs:141-171 | with aligned streaming that is a prefix, and in the end all, of the serial walker's output, whatever the workers, capacity, buffer limit and interleaving |
| Trees.SameWalkIffAligned | src/lib.rs:1350-1411 | the parallel and the serial walk visit the same directories at the same paths in the same order if and only if streaming was aligned everywhere |
| Trees.PreOrdered | src/core/index_path.rs:40-58 | the preorder of any tree is strictly increasing in the lexicographic order of index paths |
| Trees.PathsDistinct | src/core/read_dir.rs:36-63 | no two directories of a walk share an index path |
| Safety.ExactlyOnce | src/core/read_dir_iter.rs:173-232 | in an unstopped walk each directory of the tree is at exactly one place (scheduled, owed by a worker, in flight, buffered, handed out), and no other directory is anywhere |
| Safety.NeverTwice | src/core/read_dir_iter.rs:173-232 | stopped or not, no directory's result is sent twice, and none is made up |
| Accounting.AccountedStep | src/core/read_dir_iter.rs:177-231 | every step conserves, per directory, what is queued, owed, in flight and arrived; a stop can only lose, never duplicate |
| Safety.PendingCountExact | src/core/priority_queue.rs:63-85 | pending_count is the number of directories in the channel, in the heap, held by workers, or counted and not yet sent; every decrement finds at least one; and a worker leaves an unstopped walk only when there is no work anywhere |
| Pending.PendingStep | src/core/priority_queue.rs:63-154 | every step, stop or not, keeps the count exact |
| Pending.NoUnderflow | src/core/priority_queue.rs:79-84 | taking a directory off the count never underflows |
| Pending.ZeroIsQuiet | src/core/priority_queue.rs:130-134 | an observed zero means that channel and heap are empty and no worker holds or is sending a directory |
| Pending.QuietStays | src/core/priority_queue.rs:64-69 | once the count is zero it stays zero, so nobody leaves too early |
| Pending.QuietDelivered | src/core/read_dir_iter.rs:215-231 | with nothing pending no worker still owes a result: each is sent before its directory is completed |
| Ordering.BufferedIsLater | src/core/ordered_queue.rs:118-184 | every buffered result, stopped or not, is a directory of the preorder that has not been handed out |
| Ordering.AwaitedIsLeast | src/core/ordered_queue.rs:203-232 | the awaited path is at or before that of every directory not handed out yet |
| Safety.AwaitedComesFirst | src/core/ordered_queue.rs:118-184 | in every reachable unstopped state everything not handed out, be it scheduled, owed by a worker, in the channel or buffered, has a path at or after the awaited one |
| Ordering.AwaitedIsTop | src/core/ordered_queue.rs:127-141 | if the awaited result is buffered at all it is the top of the heap, so peeking is enough |
| Ordering.MatchIsNext | src/core/ordered_queue.rs:181-183 | what is popped on a match is the next directory of the preorder |
| Ordering.DisconnectedMatches | src/core/ordered_queue.rs:162-176 | in an unstopped walk with all workers gone, the awaited result is on top unless everything has been handed out, and the buffer is empty only then |
| Ordering.OrderlyStep | src/core/ordered_queue.rs:118-184 | every step keeps what was handed out a prefix of the preorder, with the matcher in step, up to the one stray result after a stop |
| Ordering.FallbackStrays | src/core/ordered_queue.rs:172-175 | what the fallback hands out is never the awaited directory |
| Safety.FallbackNeedsStop | src/core/ordered_queue.rs:172-175 | the out-of-order fallback is never reached in an unstopped walk |
| Safety.NoneMeansFinished | src/core/ordered_queue.rs:143-145 | an unstopped walk returns None only with an empty matcher, and then nothing is scheduled, in flight, buffered or owed |
| Safety.NoneAtOnce | src/core/ordered_queue.rs:143-145 | and once the whole tree is handed out it does return None at its next look at the heap, whether or not the workers have left |
| Safety.StoppedOutput | src/core/ordered_queue.rs:118-184 | for a stop at any moment, the flag raised by anybody: the output is a prefix of the preorder if and only if the fallback was not taken, and otherwise all but the last result are |
| Stops.PoliteStopLeavesPrefix | src/core/dir_entry_iter.rs:22-28 | in every run in which the flag only goes up between two calls of `next`, as on a drop or at start-up, the output is a prefix of the preorder and, with aligned streaming, of the serial walker's output; the fallback is never taken |
| Stops.StrayExactly | src/core/ordered_queue.rs:118-184 | where no send of a spec can block, from any stopped state the output can still get out of order if and only if a call of `next` is under way that finds nothing awaited among all that is there or can still come in, although there is something, and that takes all of it in before it waits |
| Stops.RaisingCanStray | src/core/ordered_queue.rs:155-176 | the same for the state in which the flag goes up; between two calls it never does harm |
| StopRace.StopCanDisorder | src/core/ordered_queue.rs:162-175 | a concrete run in which a flag raised inside a call of `next` makes the output no prefix of the preorder |
| Heaps.SpecTopIsLightest | src/core/weighted.rs:38-49 | the top of the scheduler heap is exactly a lightest element and, among those, the lexicographically least |
| Heaps.ResultTopIsLeast | src/core/ordered.rs:35-39 | the top of the reorder heap is exactly a result with the least index path |
| Heaps.SpecTopExists | src/core/priority_queue.rs:130 | a heap that is not empty has an element to pop |
| Heaps.ResultTopExists | src/core/ordered_queue.rs:173 | so has the reorder heap |
| Protocol.PulledIsLightest | src/core/priority_queue.rs:125-131 | the directory a worker takes is a lightest one of the heap and, among those, the first by index path, and it alone leaves the heap |
| Protocol.ChildWeights | src/core/read_dir.rs:41-43 | the weights of the root, of a streamed child and of a child scheduled from the rows, in numbers, capped at the largest 64-bit number |
| Bounds.NotAllBlocked | src/core/priority_queue.rs:124-128 | with N workers and at most F children per directory, a channel with more than N * (F - 1) places never has every worker blocked on it |
| Bounds.BoundedStep | src/core/priority_queue.rs:125-128 | every step keeps the channel within what each worker can have sent since the channel was last seen empty |
| Tightness.CapacityIsExact | src/core/read_dir_iter.rs:173-232 | for every N, F, capacity and buffer limit there is a tree with at most F children per directory on which the walk can get stuck if and only if the capacity is at most N * (F - 1) |
| Tightness.StuckForever | src/core/read_dir_iter.rs:118-123 | a stuck walk stays stuck and hands out nothing more, whatever a worker or the consumer does |
| Tightness.NeverStuck | src/core/read_dir_iter.rs:173-232 | above the bound no reachable state is stuck |
| Tightness.NoSendBlocks | src/core/priority_queue.rs:70 | with capacity N * F, or any at all if F is at most one, no send of a spec blocks in any reachable state, stopped or not |
| Leaving.StoppedRunsEnd | src/core/read_dir_iter.rs:177-231 | with such room, every fair run in which the iterator is dropped, at any moment, reaches a state where all workers have left |
| Leaving.HungForever | src/core/priority_queue.rs:114-128 | after a stop, a worker that waits for room in a full channel that nobody is draining waits for ever |
| Leaving.RoomToLeaveIsExact | src/core/read_dir_iter.rs:177-231 | for every N, F, capacity and buffer limit there is a tree with at most F children per directory on which a stop can leave a worker waiting for ever if and only if F is at least two and the capacity is below N * F |
| Progress.StepProgress | src/core/read_dir_iter.rs:173-232 | no step of an unstopped walk increases the measure of work left, and one that keeps it only moves a waiting thread on |
| Fairness.CanMoveExactly | src/core/priority_queue.rs:114-154 | a worker is able to move exactly when its program point is enabled |
| Fairness.SomebodyCan | src/core/read_dir_iter.rs:118-123 | under the capacity bound, in an unfinished state of the invariant some worker or the consumer can do work |
| Fairness.FairRunsFinish | src/core/read_dir_iter.rs:118-123 | every fair unstopped run under the bound reaches a state where all have finished, the whole preorder was handed out, both channels and both heaps are empty and the count is zero; for every buffer limit, zero included |
| OrderedMatching.OrderedMatcher.constructor | src/core/ordered_queue.rs:234-241 | the matcher starts at `[0]` with one directory to come |
| OrderedMatching.OrderedMatcher.IsNone | src/core/ordered_queue.rs:204-206 | it is empty exactly when no path is awaited |
| OrderedMatching.OrderedMatcher.AdvancePast | src/core/ordered_queue.rs:208-231 | the loop on the two stacks computes the specified step |
| OrderedMatching.MatcherFollowsPreorder | src/core/ordered_queue.rs:203-232 | over any tree it awaits exactly the k-th directory of the preorder after k steps, keeps at each level the number of siblings to come, and is empty after the last |
| OrderedMatching.AfterStep | src/core/ordered_queue.rs:214-231 | being told of one more directory of the preorder keeps the matcher in step |
| IndexPaths.IndexPath.IncrementLast | src/core/index_path.rs:24-29 | adds one to the last index, and does nothing to an empty path |
| IndexPaths.IndexPath.Adding | src/core/index_path.rs:14-18 | a new path with one more index; the old one stays |
| IndexPaths.SliceCmpFlips | src/core/index_path.rs:54-58 | comparing two paths the other way round gives the opposite answer, and equal only for equal paths |
| IndexPaths.BeforeTransitive | src/core/index_path.rs:54-58 | the order of paths is transitive |
| IndexPaths.PrefixBefore | src/core/index_path.rs:54-58 | a directory precedes everything below it |
| IndexPaths.SiblingsBefore | src/core/index_path.rs:54-58 | the subtrees of two siblings are ordered like the siblings |
| SerialWalk.StackWalker.Next | src/core/read_dir_iter.rs:145-162 | pop, read, push the children reversed: the result is the first of the recursive listing the stack stands for, and the rest remains |
| SerialWalk.ListTreeIsPre | src/core/read_dir_iter.rs:145-162 | the recursive listing is the preorder of the tree |
| SerialWalk.WalkAll | src/core/read_dir_iter.rs:141-162 | a whole serial walk is the preorder |
| EntryIter.DirEntryIter.PushNext | src/core/dir_entry_iter.rs:68-86 | one read directory is taken from the source: its rows go on the stack, its error comes back, and an exhausted source is a busy error |
| EntryIter.DirEntryIter.Next | src/core/dir_entry_iter.rs:91-126 | yields the first of the entries ahead and leaves the others; at the end the stack is empty |
| EntryIter.OwnItem | src/core/dir_entry_iter.rs:99-119 | field by field: an entry's item has the row's name and depth, is a parent exactly if the row has a directory behind it, and carries the error of that directory's read exactly if it has one |
| EntryIter.BusyItem | src/core/dir_entry_iter.rs:73-76 | without a source a row with a directory behind it is a busy error, and with an exhausted one an entry that carries that error |
| EntryIter.YieldsFlattened | src/core/dir_entry_iter.rs:91-126 | one row list is flattened recursively and pulls exactly the directories below it |
| EntryIter.IterationFlattens | src/core/dir_entry_iter.rs:31-126 | the whole iteration is the recursive preorder flattening, with error rows kept, shallow entries dropped, an empty stack and an exhausted source at the end |
| DepthCut.LimitsKeep | src/lib.rs:600-606 | with both depth limits the entries yielded are exactly those of the full listing between the limits, with error rows; directories at the lower limit show no read error |
| DepthCut.CutStreamedAt | src/lib.rs:600-606 | each streamed directory is cut at the limit like the one behind a row |
| DepthCut.AlignedCut | src/lib.rs:600-606 | a depth limit cuts what was streamed and what the rows ask for alike, so an aligned tree stays aligned |
| Pipeline.ParallelEntries | src/core/dir_entry_iter.rs:91-126 | any finished unstopped parallel walk of an aligned tree under any limits, fed to the entry iterator, yields exactly the filtered listing and leaves nothing |
| Pipeline.SerialEntries | src/core/dir_entry_iter.rs:31-126 | the serial walk fed to the entry iterator yields the same |
| Streaming.WeightedChildrenSpecs | src/core/read_dir.rs:36-63 | the children of the rows, less those skipped, in order: each has the path of the directory plus the name, the depth, state and ancestors of the request, an index path numbered without gaps, and the inherited weight capped at the largest 64-bit number |
| Streaming.StreamDispatch | src/lib.rs:1360-1391 | children scheduled while enumerating are numbered from zero without gaps whatever is turned down on the way, and if nothing is they are all the visible directory entries in order, each with its own path, depth, state, ancestors and weight |
| Streaming.StreamingIsBulk | src/lib.rs:1350-1391 | streaming schedules the children of the finished rows, in their order, if and only if the listing is aligned, and otherwise fewer |
| Streaming.MisalignedExactly | src/lib.rs:1508-1639 | an entry is misaligned exactly if its type is unknown and its status says directory, or it is a link that is followed to a directory |
| Streaming.MakeRow | src/lib.rs:1517-1639 | the row of an entry, case by case: its type from the entry, or from its status if the entry does not say, and followed links as what they lead to or as an error row |
| Streaming.MakeRows | src/lib.rs:1453-1475 | the rows of a listing are those of its visible entries, in order |
| Streaming.ReadOnce | src/lib.rs:1347-1495 | one attempt: rows and error rows of the visible entries; a failure after children were scheduled is returned as a directory with one error row and their number, never as an error |
| Streaming.ReadWithRetries | src/lib.rs:743-767 | only the first attempt can schedule, only transient failures that scheduled nothing are retried, and which attempt settles the read |
| Streaming.SettlesExactly | src/lib.rs:745-761 | an attempt settles the read exactly if all before it failed for the moment and scheduled nothing, and it is the last, does not fail for the moment only, or scheduled something |
| Streaming.ReadAndSchedule | src/core/read_dir_iter.rs:188-213 | under any sequence of failures the children scheduled have exactly the paths of the reported count; they are those of the rows if nothing was streamed, and if something was, and nothing turned down, exactly when the read did not break off and the listing is aligned |
| Unfolding.KidsOfUnfolded | src/core/read_dir_iter.rs:192-207 | of a tree unfolded from a file system the serial walk follows the children of the rows, and the parallel walk the streamed ones where a directory streams |
| Unfolding.AlignedExactly | src/lib.rs:1350-1411 | the unfolded tree is aligned if and only if every directory that streams meets an aligned listing and does not break off |
| Unfolding.UnfoldedIsLevelled | src/core/dir_entry.rs:59-90 | the rows of an unfolded directory lie one level below it, as the depth limits need |
| Unfolding.UnfoldsWhatIsRead | src/lib.rs:1398-1475 | an unfolded directory reads as the rows of the attempt that settles it, as its error, or as a single error row if it broke off after streaming |
| Unfolding.SettledExactly | src/core/read_dir_iter.rs:150-151 | which attempt the read ends with, for the workers, who stream, and for the serial walker, who does not |
| Unfolding.SameReads | src/lib.rs:1398-1413 | on such a file system the serial walker, reading without a context, reads the same as the workers do |
| Unfolding.ParallelIsSerialOnDisk | src/core/read_dir_iter.rs:141-232 | on such a file system every finished unstopped parallel walk hands out what the serial walker, reading on its own, hands out |
| Unfolding.WalksDiffer | src/lib.rs:1365-1367 | a listing with a directory of unknown type on which the parallel walk hands out two results and the serial walk three |
| Dirents.StrLen | src/core/unix_dir_enum.rs:139-141 | the bytes up to the first NUL |
| Dirents.ParseDirents | src/core/unix_dir_enum.rs:124-147 | the loop calls back with the records of the chain in order and stops at a zero or overlong length |
| Dirents.RecordLayout | src/core/unix_dir_enum.rs:125-134 | in numbers: a record is there if 24 bytes are left and the length in bytes 16 and 17 is not zero and ends inside |
| Dirents.FirstRecordLayout | src/core/unix_dir_enum.rs:136-145 | in numbers: its type is in byte 18, its name goes from byte 19 to the first NUL, and the next record starts so many bytes further |
| Dirents.EncodedLayout | src/core/unix_dir_enum.rs:322-339 | in numbers: where the encoder puts length, type, name and NUL, and that it pads to a multiple of eight |
| Dirents.ParsesWhatIsInside | src/core/unix_dir_enum.rs:124-147 | parsing any length that ends within a list of records gives exactly the records wholly inside |
| Dirents.InsideExactly | src/core/unix_dir_enum.rs:132-134 | the first k records are inside exactly if their bytes fit |
| Dirents.RoundTrip | src/core/unix_dir_enum.rs:320-339 | encoding and parsing a list of records within the 16-bit length gives it back if and only if no name has a NUL |
| Dirents.RecordRoundTrip | src/core/unix_dir_enum.rs:320-339 | a single record of any length comes back if and only if its length fits the 16-bit field and its name has no NUL |
| Dirents.EnumerateDir | src/core/unix_dir_enum.rs:152-182 | the entries of all batches up to the end, in order, without the two dots, or the first error |
| Dirents.EnumerateDirStreaming | src/core/unix_dir_enum.rs:191-226 | the same listing, with a call for exactly its directories in order, also when it breaks off |
| Dirents.ListedExactly | src/core/unix_dir_enum.rs:207-219 | in numbers: what is delivered is listed unless its name is "." or "..", and a directory is an entry of type 4 |
| Dirents.BatchingDoesNotMatter | src/core/unix_dir_enum.rs:160-181 | however the records are cut into batches, the listing is that of all of them |
| IoUring.RankGrows | src/core/linux_io_uring.rs:148-150 | two entries with valid names never get the same request |
| IoUring.Submit | src/core/linux_io_uring.rs:152-187 | request k is for the k-th entry with a valid name, until the queue is full |
| IoUring.SubmittedNone | src/core/linux_io_uring.rs:189-191 | no request is made exactly if the queue takes none or every name of the chunk has a NUL |
| IoUring.OneCompletion | src/core/linux_io_uring.rs:197-207 | a completion answers for exactly the entry its request was made for |
| IoUring.AnyOrder | src/core/linux_io_uring.rs:196-209 | the same completions in another order leave the same entries |
| IoUring.BatchStatxChunk | src/core/linux_io_uring.rs:127-213 | each entry of the chunk gets the answer for its own name if its request was taken and completed well, and is otherwise untouched; on an error nothing is |
| IoUring.BatchStatx | src/core/linux_io_uring.rs:105-124 | the chunks of 256 take every entry once; up to the first failing chunk all are processed, and behind it nothing is touched |
| NtEnum.ParseEntry | src/core/nt_dir_enum.rs:312-358 | one turn of the loop makes the call for the entry at the offset, if any, and leaves the calls for the rest of the chain to be made |
| NtEnum.ParseBuffer | src/core/nt_dir_enum.rs:306-360 | on arbitrary bytes, and whatever the copies of the structures have in their padding, the walk ends and stays inside the buffer; it calls back with the entries of the chain without the two dots if and only if the copies are faithful |
| NtEnum.EmittedExactly | src/core/nt_dir_enum.rs:334-352 | the calls are the chain without the two dots if and only if the copy has a dot in its padding exactly where the buffer has one, for every two-character name that starts with a dot |
| NtEnum.DotsAreSpotted | src/core/nt_dir_enum.rs:334-341 | the test on raw characters, one of them read from padding, finds exactly the two dots if and only if the copy is faithful |
| NtEnum.EntryLayout | src/core/nt_dir_enum.rs:50-66 | in numbers: the structure has 112 bytes, the next entry's offset is in bytes 0 to 3, the name's length in bytes 60 to 63, and the name starts at byte 104 |
| NtEnum.NextLayout | src/core/nt_dir_enum.rs:354-358 | in numbers: the chain goes on at the offset in bytes 0 to 3, and ends if that is zero |
| NtEnum.AbcIsRead | src/core/nt_dir_enum.rs:322-352 | a buffer with six in byte 60 and "abc" at byte 104 is called back with just that name |
| NtEnum.ChainReadsBack | src/core/nt_dir_enum.rs:312-359 | a well-formed chain parses into its entries, but for a last one without room for the structure |
| NtEnum.RoundTrip | src/core/nt_dir_enum.rs:315-332 | on any chain at all every name but the two dots comes out once, in order, if and only if the last one is a dot entry or has room |
| NtEnum.AlignedRoundTrip | src/core/nt_dir_enum.rs:306-360 | on any chain with entries at multiples of eight and no empty name, with copies that keep their padding, every name but the two dots is called back with once, in order |
| NtEnum.UnalignedCanLose | src/core/nt_dir_enum.rs:315-317 | a name of two characters 108 bytes before the end of the buffer is not called back with |

## Left out

- PriorityQueueIter, OrderedQueueIter: their loops are modelled as steps that interleave with the other threads, not as classes, because what they compute depends on the interleaving; the heaps' internal order is not modelled, only what they pop.
- Pending.PendingStep: the roll-back of a failed push (src/core/priority_queue.rs:72-75) is no step of the model; the receiver lives in the work iterator as long as any worker runs, so a worker's send cannot fail.
- Trees.SameWalkIffAligned: gives both walkers one read result per directory; they differ after a streamed read that broke off, where the parallel walk has one error row and the serial walk an error or a retry. `Unfolding` has both reads, and shows that on a well-streamed file system they agree.
- Fairness.FairRunsFinish: holds for capacities above N * (F - 1); below, `Tightness.CapacityIsExact` shows that it cannot hold.
- Streaming.ReadAndSchedule: the child's spec is a name, a depth and opaque state; sorting and the user's callback are one arbitrary function on the rows. In `Unfolding`, where streaming is the question, rows are in listing order.
- Streaming.ReadOnce: the Linux form. On Windows the directory attribute stands for the entry type.
- No root or several roots: with none the consumer waits for a path that never comes until the disconnect; with more than one all share the path `[0]`. The builder makes one at most.
- Integers: child counts, depths and the pending count are unbounded; weights saturate at the 64-bit limit.
- Symbolic links: what following one comes to is given; loop detection and identities are not modelled.
- System calls, handles, thread-local buffers and library loading: a system call is an arbitrary answer.
- Byte order: the records are read little-endian.
- Dirents.ParseDirents: asks that every name it reaches ends within the buffer, as the kernel guarantees; the original relies on it.
- NtEnum.ParseBuffer: the enumeration loop around it, which is like the one in `Dirents`, is left out.
- The ring's memory: the stability of pointers handed to the kernel is not modelled, only which buffer and which tag a request carries.
- Start-up and busy timeouts: a walk that does not start is an entry iterator without a source.
- Builder options, metadata, file times, hidden-file tests, error texts and file-system detection: local code without state.
