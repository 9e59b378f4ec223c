# Verification of memxy's event library and text protocol front end

memxy is a proxy in front of libmemcached.  What is intricate in it is the library it carries:
an output engine that absorbs partial writes, worker threads that share one poller, memory
managers under reference counts and on linked lists, and an incremental protocol parser fed from
a relocating buffer.  This project models those parts in Dafny and proves what they promise.

Run `dafny verify dfyconfig.toml`.  There are no assumptions beyond the ones listed below.

| files | component |
|---|---|
| `XferRecords`, `XferEngine`, `XferBuffer` | packed output records, their execution in place, the growing buffer |
| `OutQueue`, `OutFd`, `OutCore`, `OutSystem` | the queue of one descriptor as a FIFO with finalizers, its locked methods, the entry points, and all descriptors with the event queue |
| `Workers` | the leader/follower worker loop with its backlog, queues, condition variable and registrations |
| `SourcePool`, `SharedBuffer`, `StreamBuffer` | the chunk pool, the reference-counted bump allocator, the byte FIFO |
| `MemtextParser`, `MemtextStream`, `MemtextRoundTrip`, `MemtextUnserved`, `MemtextGrammar`, `MemtextGate` | the parser over a buffer, the same grammar over a stream, printing and reading back, the commands without a callback, the language accepted, and the handler |
| `ControlGate` | length-prefixed frames |
| `MultiGet`, `GetReply` | the response to get and gets, and how it is handed to the output engine |
| `OutBytes` | what records stand for, given the contents of memory and files |
| `Common`, `Decimal` | block sizes, decimal numerals |

## How the model is built

- **Output engine.**  A packed buffer is an array of 4-byte slots, the common alignment of all
  record sizes; an 8-byte field occupies two slots and keeps its value in the first.  `Decode`
  gives the records, `Items` the bytes and finalizer calls they denote.  A `Kernel` answers every
  write arbitrarily and logs what it took.  `FdCtx` is one entry of the descriptor table; each of
  its methods is one critical section and is proved to be a step of the transition system in
  `OutQueue`, about which the theorems over whole runs are proved.  `OutSystem` interleaves those
  steps of all descriptors with the port's batch, the event queue and the workers.
- **Worker loop.**  The methods of several threads interleave, so it is a transition system on
  values: a step is what one thread does between two points at which others may interfere, with a
  program counter for each worker.  One-shot delivery is the assumption on the port: an event is
  returned only for an armed registration and disarms it.  `m_cond.signal()` wakes some waiter
  if there is one, and spurious wakeups are allowed.
- **Pool.**  Chunks are heap objects on two rings; the ghost sequences of a ring are its nodes in
  order, and `live` maps the header offsets of a chunk's live blocks to their lengths.
- **Parser.**  `Delta` is the control table of the grammar and is shared by two machines: the
  parser over a buffer, which stores positions, counters and numbers in its context as the
  program does, and a reader that keeps the text itself.  The agreement of the two under every
  action is what makes buffer moves, partial reads and stale fields harmless.
- **Handlers.**  `read(2)` is a parameter: what a read of unlimited size would have returned.
  `Feed` and `Serve` drive a handler through any split of the input into reads.

## Where the code is narrower than it looks

Each of these is proved, not only noted.

- A call that has nothing to write takes nothing, and that counts as a hard error: when the
  kernel takes all it is asked for, an execution is done if and only if no record in it is empty
  data (`XferEngine.Execute`, `NoEmptyData`).
- `commit_raw` gives up the records left after an immediate hard error, and `write` its rest;
  their finalizers do not run from the queue (`OutQueue.LosingRun`).  A drained or destroyed
  queue has run every finalizer ever committed if and only if no immediate hard error left one
  behind, and the number lost is the number left (`OutQueue.FinalizersRunUnlessLost`).
- `reserve` of the shared buffer reallocates a block that others hold when nothing but regions of
  length 0 was handed out of it and it has no room; it keeps the counts exact if and only if the
  count is 1, there is room, or something was handed out (`SharedBuffer.ReserveKeepsCounts`).
  `realloc` is taken to move the block, as it may; one that leaves it in place does no harm.
- The check in front of the 257th key of a retrieval line lets it pass, and its mark is written
  outside the array (`MemtextParser.CheckLetsOneTooManyPass`, `MemtextGrammar.LongLine`).  The
  marks stay inside if and only if no retrieval line behind accepted ones reaches a 257th key
  (`MemtextGrammar.MarksStayInside`); from there on nothing is promised.
- A pool whose default chunk size is 0 may keep chunks on its free list that are too small for a
  small request (`SourcePool.SmallChunkStays`); the first chunk serves it if and only if it is
  large enough at all (`SourcePool.Source.FirstHasRoom`).
- An empty control frame at the very end of the input waits for one more byte: decoding gives
  back what was encoded if and only if the last body is not empty (`ControlGate.RoundTrip`).
- Numbers of the text protocol come back as sent if and only if flags fit 16 bits and exptime
  fits 32, and no payload is empty; an exptime that is not zero but becomes zero in 32 bits is
  rejected, as are numerals of more than 20 digits and payloads of length 0; what has 20 digits
  but not 64 bits becomes the largest 64-bit number (`MemtextRoundTrip.RoundTrip`, `LinesRead`).
- `memtext_execute` runs to the end of the data, so a finished command in the middle of it is
  dropped only when another one ends at its end (`MemtextGate.FinishedCommandStays`).  After an
  event the buffer holds no finished command if and only if a command ends what was received, or
  it held none before and none ends in what came (`MemtextGate.Handler.ReadEvent`).
- The single-key path of get frees its header but not the value it fetched: nothing is leaked if
  and only if there was none (`MultiGet.Get`, with the input in `MultiGet.LeakingGet`).  The
  multi-key path frees every value fetched once, also when a later fetch fails
  (`MultiGet.Get`), and those that are sent with their finalizer, which runs once for the reply
  unless an immediate hard error left it behind (`GetReply.ValuesFreedOnce`).

## Model

| member | source | states |
|---|---|---|
| XferRecords.AdvanceDropsBytes | src/mpsrc/wavy_out.cc:368-387 | walking the iovec list past `k` written bytes leaves a list that denotes exactly the bytes behind them, and an empty one only when all were written |
| XferRecords.DecodeAppend | src/mpsrc/wavy_out.cc:181-187 | packed buffers concatenate: records written behind packed records are packed records |
| XferRecords.HeadExtends | src/mpsrc/wavy_out.cc:308-356 | the record at the head of a buffer is read the same whatever follows it |
| XferRecords.DecodeVec | src/mpsrc/wavy_out.cc:144-154 | slots that hold a tag and the fields of an iovec list read as that list |
| XferEngine.Kernel.Write | src/mpsrc/wavy_out.cc:358-366 | the kernel takes any prefix of what it is asked, or fails with a transient or a hard error |
| XferEngine.Kernel.Finalize | src/mpsrc/wavy_out.cc:345-349 | a finalizer that is not null is called once, with its argument, and logged behind everything before; a null one is skipped |
| XferEngine.FillMem | src/mpsrc/wavy_out.cc:132-142 | writes one record that reads back as the buffer, and nothing outside its slots |
| XferEngine.FillIovec | src/mpsrc/wavy_out.cc:144-154 | writes one record that reads back as the list, and nothing outside its slots |
| XferEngine.FillSendfile | src/mpsrc/wavy_out.cc:156-167 | writes one record that reads back as the file range, and nothing outside its slots |
| XferEngine.FillFinalize | src/mpsrc/wavy_out.cc:169-179 | writes one record that reads back as the finalizer, and nothing outside its slots |
| XferEngine.Consumed | src/mpsrc/wavy_out.cc:297-302 | moves the unsent slots to the head of the buffer over an overlapping range |
| XferEngine.FirstUnsent | src/mpsrc/wavy_out.cc:368-371 | the loop finds the entry at which the written bytes end: from there the rest of the list is what `Advance` leaves |
| XferEngine.Refill | src/mpsrc/wavy_out.cc:378-382 | a new head record with the last iovecs of the old one, and everything behind it, although the ranges overlap |
| XferEngine.MoveVec | src/mpsrc/wavy_out.cc:375-383 | both branches move the entries from the first unsent one, and all that follows |
| XferEngine.CutVec | src/mpsrc/wavy_out.cc:372-383 | the rewritten buffer decodes to the unsent rest of the first list followed by all later records |
| XferEngine.RemainderDecodes | src/mpsrc/wavy_out.cc:372-383 | the slots from the shortened entry on, behind a new tag, are the unsent rest and the later records |
| XferEngine.ExecuteVec | src/mpsrc/wavy_out.cc:354-391 | for every answer of writev: the bytes sent and what the buffer now denotes are what it denoted, and the record is gone exactly when all of it, not nothing, was taken |
| XferEngine.AdvanceSend | src/mpsrc/wavy_out.cc:335-340 | the sendfile record is advanced past what was sent and moved to the head |
| XferEngine.SendCut | src/mpsrc/wavy_out.cc:335-338 | advancing a sendfile record in place changes that record only |
| XferEngine.ExecuteSend | src/mpsrc/wavy_out.cc:310-343 | the same as for writev, for every answer of sendfile |
| XferEngine.ExecuteOne | src/mpsrc/wavy_out.cc:308-393 | one turn of the loop hands over a prefix of what the buffer denotes and keeps the rest, whatever the record and the answer |
| XferEngine.Execute | src/mpsrc/wavy_out.cc:304-397 | for every packed buffer and all kernel answers, the items that left the buffer are those added to the log, in order; to be continued implies not empty, stopped and empty means all done, stopped and not empty means a hard error, and every answer but the last let it go on; a kernel that takes all it is asked for finishes exactly the buffers without empty data |
| XferBuffer.Xfer.Reserve | src/mpsrc/wavy_out.cc:192-206 | enough room after doubling, at least double the block, and the same records |
| XferBuffer.Xfer.PushWrite | src/mpsrc/wavy_out.cc:209-215 | exactly one record more, at the end |
| XferBuffer.Xfer.PushWritev | src/mpsrc/wavy_out.cc:217-223 | exactly one record more, at the end |
| XferBuffer.Xfer.PushSendfile | src/mpsrc/wavy_out.cc:225-231 | exactly one record more, at the end |
| XferBuffer.Xfer.PushFinalize | src/mpsrc/wavy_out.cc:233-239 | exactly one record more, at the end |
| XferBuffer.Xfer.PushRaw | src/mpsrc/wavy_out.cc:181-187 | the packed records of another buffer are appended |
| XferBuffer.Xfer.Migrate | src/mpsrc/wavy_out.cc:241-262 | all records move to the other buffer in order and none stays, whether the block is handed over or copied |
| XferBuffer.Xfer.Reset | src/mpsrc/wavy_out.cc:264-292 | runs the finalizers of all records in order, sends nothing, and leaves the buffer empty |
| XferBuffer.RunFinalizers | src/mpsrc/wavy_out.cc:266-285 | the walk over the records calls exactly the finalizers they denote, in order |
| XferBuffer.CallsOfRecord | src/mpsrc/wavy_out.cc:266-285 | only a finalizer record denotes a finalizer call |
| XferBuffer.Xfer.Destroy | src/mp/wavy/core.pre.h:318-324 | the destructor runs what reset runs, if there is a block |
| XferBuffer.Xfer.TryWrite | src/mpsrc/wavy_out.cc:400-411 | executes the whole buffer in place, with all that Execute promises, and true implies not empty |
| OutQueue.CommitKeepsInv | src/mpsrc/wavy_out.cc:444-501 | a commit, queued or direct, keeps the order of everything committed, the exactness of finalizers, and pending exactly while registered |
| OutQueue.EventKeepsInv | src/mpsrc/wavy_out.cc:416-436 | continuing the queue on a write event keeps them too, including the reset on a hard error |
| OutQueue.DestroyKeepsInv | src/mp/wavy/core.pre.h:318-324 | and so does the destruction of the queue, which runs the finalizers of what is pending |
| OutQueue.StepKeepsInv | src/mpsrc/wavy_out.cc:416-501 | every critical section on a descriptor keeps the invariant |
| OutQueue.RunKeepsInv | src/mpsrc/wavy_out.cc:416-501 | and so does every interleaving of them |
| OutQueue.FifoWithFinalizers | src/mpsrc/wavy_out.cc:304-501 | for every interleaving of write, commit, commit_raw and write_event, any answers and a destruction at the end: without a hard error from the kernel, and before pending output is destroyed, the bytes sent and finalizers run, followed by what is queued, are everything committed in commit order; always, what is settled or queued is a part of what was committed in commit order, each item at most once, and the finalizers run are exactly those of the settled items |
| OutQueue.FinalizersRunUnlessLost | src/mpsrc/wavy_out.cc:444-501 | over every run, the finalizers committed but not accepted are as many as the immediate hard errors left behind; a drained or destroyed queue has run every finalizer committed, in commit order, if and only if these are none |
| OutQueue.FinalizerRunsOnce | src/mpsrc/wavy_out.cc:345-352 | data and a finalizer committed anywhere in a run: in a drained or destroyed queue that finalizer ran exactly once for this commit, between those accepted before and after it, unless the commit itself lost it |
| OutQueue.LosingRun | src/mpsrc/wavy_out.cc:454-457 | a run that loses one: a commit_raw whose first write fails hard |
| OutQueue.MemoryIsOwned | src/mpsrc/wavy_out.cc:345-352 | in every run: while an item is pending, everything committed behind it, its finalizer too, is pending at its place, while the calls made so far are those of settled items; so the memory is owned |
| OutFd.FdCtx.WriteEvent | src/mpsrc/wavy_out.cc:416-436 | is the step Event of the descriptor, with the verdict of the kernel's answers: the heap after it is the abstract state after that step |
| OutFd.FdCtx.CommitRaw | src/mpsrc/wavy_out.cc:444-458 | is the step Commit of the records in the caller's buffer; the kernel is asked exactly when nothing was pending, and one that takes all it is asked for finishes exactly the buffers without empty data |
| OutFd.FdCtx.Commit | src/mpsrc/wavy_out.cc:460-474 | is the step Commit of the caller's records, of which it keeps the rest exactly after an immediate hard error |
| OutFd.FdCtx.Write | src/mpsrc/wavy_out.cc:476-501 | is the step Commit of one buffer, also on the direct path |
| OutFd.FdCtx.WriteNow | src/mpsrc/wavy_out.cc:481-496 | the direct write queues exactly the bytes the kernel did not take, and registers for the rest |
| OutFd.OneBuffer | src/mpsrc/wavy_out.cc:482-493 | for every result of write(2), the rest that is queued and what was sent make up the buffer |
| OutFd.FdCtx.Fires | src/mpsrc/wavy_port_epoll.h:89-96 | the one-shot registration is disarmed when its event is delivered |
| OutFd.FdCtx.Destroy | src/mpsrc/wavy_out.cc:84-87 | is the step Destroy: the finalizers of pending records run, nothing is sent, the block is freed |
| OutCore.Write | src/mpsrc/wavy_out.cc:512-521 | commits the buffer and its finalizer behind it, in a stack buffer of exactly their size |
| OutCore.Writev | src/mpsrc/wavy_out.cc:523-532 | commits the list and its finalizer behind it, in a stack buffer of exactly their size |
| OutCore.Sendfile | src/mpsrc/wavy_out.cc:534-543 | commits the file range and its finalizer behind it, in a stack buffer of exactly their size |
| OutCore.HvSendfile | src/mpsrc/wavy_out.cc:545-571 | commits the header, the file range and the finalizer, in this order, in a stack buffer of exactly their size |
| OutBytes.VecBytes | src/mpsrc/wavy_out.cc:358-366 | a list record stands for the texts its buffers point to, one behind the other |
| OutBytes.SendfileBytes | src/mpsrc/wavy_out.cc:310-316 | a sendfile record stands for the bytes from its offset on, as many as its length, of its own file |
| OutBytes.FinalizerBytes | src/mpsrc/wavy_out.cc:345-352 | a finalizer stands for no byte and for one call, a null one for nothing |
| OutSystem.SysStepKeepsInv | src/mpsrc/wavy_core.h:156-182 | every step of any thread or of the port keeps, for every descriptor, its own invariant and exactly one event in flight while its registration has fired |
| OutSystem.SysRunKeepsInv | src/mpsrc/wavy_core.h:156-182 | and so does every run |
| OutSystem.WritingKeepsFlight | src/mpsrc/wavy_out.cc:449-501 | a commit never arms or disarms a descriptor whose event is in flight |
| OutSystem.NoStrandedOutput | src/mpsrc/wavy_out.cc:416-501 | in every reachable state a descriptor with pending output is armed or its one write event is in the batch, in the queue or with one worker, and one without is unregistered with no event anywhere |
| OutSystem.OutputCanMove | src/mpsrc/wavy_core.h:156-182 | and from every such state, steps that only pass events on bring a worker to its write event, which can then be handled |
| OutSystem.HeldEventsAreLive | src/mpsrc/wavy_base.cc:234-241 | the event a worker holds belongs to a descriptor that still has pending output and a fired registration |
| OutSystem.EventsKeepOrder | src/mpsrc/wavy_core.h:156-182 | events returned by the port join the end of one line and workers pop its head, whatever the step |
| Workers.StepKeepsControl | src/mpsrc/wavy_base.cc:243-298 | every step keeps: one lock holder, one poller exactly while m_pollable is false, the cursor within the batch, nobody reading the backlog while it is filled |
| Workers.ChooseKeepsControl | src/mpsrc/wavy_base.cc:252-271 | in particular each branch behind the end test |
| Workers.WorkIsChosen | src/mpsrc/wavy_base.cc:252-271 | which branch a worker takes: while somebody polls, the out queue and then the tasks, or it waits; else more than 16 tasks go first, then the events left, then the next poll |
| Workers.StepFlows | src/mpsrc/wavy_base.cc:273-297 | every step: what goes into the backlog, the out queue and the task queue comes out at the other end in the same order, as the handler that runs, the descriptor that is continued and the task that is started |
| Workers.RunFlows | src/mpsrc/wavy_base.cc:243-326 | and so over every run |
| Workers.StepKeepsWake | src/mpsrc/wavy_base.cc:199-295 | every step keeps enough workers out of m_cond.wait |
| Workers.ChooseKeepsWake | src/mpsrc/wavy_base.cc:252-271 | in particular a worker that starts to wait or to poll leaves another one up if there is work |
| Workers.DoTaskKeepsWake | src/mpsrc/wavy_base.cc:221-232 | in particular do_task, which passes the signal on |
| Workers.SubmitKeepsWake | src/mpsrc/wavy_base.cc:199-204 | in particular submit, whose signal gets somebody up besides the poller |
| Workers.LockKeepsWake | src/mpsrc/wavy_base.cc:288-294 | in particular the end of a poll, whose signal gets a second worker up |
| Workers.WhoIsWoken | src/mpsrc/wavy_base.cc:199-295 | who is woken: one waiter, if there is any, by a submission, by the end of a poll and by the start of a task while there are more; all of them by the broadcast; nobody by any other step |
| Workers.NothingIsExcluded | src/mpsrc/wavy_base.cc:199-326 | what other parties do at their own time is possible at any time: every submission, every answer of the port up to 256 events, both results of a handler, the end |
| Workers.StepKeepsReg | src/mpsrc/wavy_base.cc:207-218 | every step keeps: a disarmed ident has one event on its way or with one worker, an armed one none, and both have a handler |
| Workers.StepKeepsInv | src/mpsrc/wavy_base.cc:243-326 | every step of every thread keeps the whole invariant |
| Workers.NobodyLeaves | src/mpsrc/wavy_base.cc:250-281 | in every run no worker returns before the end flag is set |
| Workers.EndIsSet | src/mpsrc/wavy_base.cc:71-81 | in every run the flag is set exactly if end was called |
| Workers.StartInv | src/mpsrc/wavy_base.cc:166-178 | any number of workers start in it |
| Workers.RunKeepsInv | src/mpsrc/wavy_base.cc:243-326 | every run keeps it |
| Workers.HandlersAreExclusive | src/mpsrc/wavy_base.cc:306-323 | in every interleaving at most one worker is responsible for an ident, its handler is set, and no second event of it waits in the backlog |
| Workers.FiredEventIsHeld | src/mpsrc/wavy_port_epoll.h:215-227 | a disarmed ident is never forgotten: its event is in the batch or with a worker |
| Workers.HandlerDecides | src/mpsrc/wavy_base.cc:306-322 | in every run, whatever other threads do in between: after a handler that returned true, the next step of its worker arms the descriptor again, with its handler set; after one that returned false or threw, that step removes it from the port and the one after resets the handler |
| Workers.HandlerIsSetFirst | src/mpsrc/wavy_base.cc:207-218 | adding a handler, whatever other threads do between its two steps: the handler is set before the descriptor is registered, and then it is armed |
| Workers.EventsAreDispatchedOnce | src/mpsrc/wavy_base.cc:268-298 | at most one worker polls and then none reads the backlog, 0 <= m_off <= m_num <= 256; every event the port returned reached its own handler exactly once, in order, before the backlog is overwritten, or is still in the batch; likewise every descriptor the out port reported and every task |
| Workers.NoLostWakeup | src/mpsrc/wavy_base.cc:199-295 | with two workers or more and before the end, at least two neither wait nor have returned while nobody polls, and one besides the poller while the out queue or the task queue holds work |
| Workers.HolderCanStep | src/mpsrc/wavy_base.cc:247-304 | whoever holds the lock can go on |
| Workers.EndedWorkerStep | src/mpsrc/wavy_base.cc:71-81 | after the broadcast every step of a worker brings it closer to returning |
| Workers.EndDrains | src/mpsrc/wavy_base.cc:71-81 | after the broadcast nobody is blocked or ever blocks again, and the steps the workers take are bounded, whatever other threads do |
| Workers.EndedWorkersCanStep | src/mpsrc/wavy_base.cc:249-281 | until all have returned, some worker can take a step |
| Workers.EndedMeansReturned | src/mpsrc/wavy_base.cc:276-281 | the bound is eight steps a worker, and used up exactly when all have returned |
| Workers.EndTakesEffect | src/mpsrc/wavy_base.cc:71-81 | from the end flag on a worker that reads it returns, and after the broadcast nobody waits, whatever other threads do in between |
| SourcePool.Chunk.Cut | src/mp/source_impl.h:65-70 | the new block lies in the free end, apart from all live ones, behind a header that points to its chunk |
| SourcePool.Chunk.Drop | src/mp/source_impl.h:82-84 | the count is the number of live blocks |
| SourcePool.Unlink | src/mp/source_impl.h:119-120 | two assignments take a node out of a ring and leave a ring |
| SourcePool.LinkBehind | src/mp/source_impl.h:121-124 | four assignments put a node behind the head of a ring and leave a ring |
| SourcePool.Splice | src/mp/source_impl.h:119-135 | the six assignments move a node between two rings, or within one |
| SourcePool.Source.constructor | src/mp/source_impl.h:29-39 | two empty rings |
| SourcePool.Source.FindFit | src/mp/source_impl.h:63-64 | finds the first free-list chunk with room, or that there is none |
| SourcePool.Source.FirstHasRoom | src/mp/source_impl.h:63-76 | a block up to the threshold fits the first free-list chunk if and only if that chunk is large enough at all, which it always is with a default size above 0 |
| SourcePool.SmallChunkStays | src/mp/source_impl.h:90-114 | with a default size of 0, a block allocated and freed leaves a chunk on the free list that is too small for a small request |
| SourcePool.Source.Malloc | src/mp/source_impl.h:59-77 | keeps both rings, their thresholds and all chunk counts; takes the first fit, a new chunk exactly when none fits, never for a small request while the first free-list chunk is large enough, as it always is with a default size above 0; the chunk then lies at its place on the free list, or at the front of the list it belongs to, by whether the estimated size and a chunk header still fit in it; every other block and chunk is untouched |
| SourcePool.Source.ExpandFree | src/mp/source_impl.h:90-114 | a new chunk of the default size, or of the block's if larger, with the block at its start, on the list its free space belongs to |
| SourcePool.Source.SpliceToUsed | src/mp/source_impl.h:116-125 | the chunk moves to the front of the used ring |
| SourcePool.Source.SpliceToFree | src/mp/source_impl.h:127-137 | the chunk moves to the front of the free ring from either list, all free |
| SourcePool.Source.Free | src/mp/source_impl.h:79-88 | exactly the block is gone; a chunk with other blocks stays where it is; one without is all free at the front of the free list, taken from its place in either list; everything else is untouched and in order |
| SourcePool.Source.Retire | src/mp/source_impl.h:84-87 | a chunk without live blocks goes, all free, to the front of the free list from either list |
| SourcePool.Source.Destroy | src/mp/source_impl.h:41-57 | the two loops free the chunks and both list heads, and in the order of all accesses no node is read or freed after it was freed |
| SourcePool.Source.DestroyFreesEachOnce | src/mp/source_impl.h:41-57 | that is every node of both rings exactly once |
| SharedBuffer.ClearKeepsCounts | src/mp/shared_buffer_impl.h:64-70 | clearing a reference keeps every count equal to the number of holders, and frees a block exactly with the last |
| SharedBuffer.ClearKeepsRegions | src/mp/shared_buffer_impl.h:30-36 | and keeps the regions of all other references in blocks that are not freed |
| SharedBuffer.ReallocKeepsCounts | src/mp/shared_buffer_impl.h:145-153 | a reallocation that moves the block keeps the counts exact if and only if the count is 1 |
| SharedBuffer.ReplaceKeepsCounts | src/mp/shared_buffer_impl.h:155-170 | replacing the block keeps them exact, whoever holds the old one |
| SharedBuffer.ReferenceKeepsCounts | src/mp/shared_buffer_impl.h:77-82 | taking a reference keeps them exact |
| SharedBuffer.BumpIsApart | src/mp/shared_buffer_impl.h:134-136 | bytes above m_used are in no held region |
| SharedBuffer.NothingHeldAtStart | src/mp/shared_buffer_impl.h:145 | a block whose m_used is at its start has no other holder, unless of a region of length 0 |
| SharedBuffer.ReserveKeepsCounts | src/mp/shared_buffer_impl.h:118-171 | a reserve keeps every count exact, wherever a realloc moves the block, if and only if the count is 1, there is room, or something was handed out of the block: a test before the call |
| SharedBuffer.PositiveRegionsAreReservable | src/mp/shared_buffer_impl.h:130-141 | while no region of length 0 is held, that test always holds |
| SharedBuffer.ZeroLengthReferenceDangles | src/mp/shared_buffer_impl.h:130-153 | a reference on an allocation of length 0 can be left to a block that is reallocated |
| SharedBuffer.DestroyKeepsReferences | src/mp/shared_buffer_impl.h:103-106 | references outlive the buffer, with exact counts |
| SharedBuffer.SharedBuffer.Clear | src/mp/shared_buffer_impl.h:64-70 | one reference less, all others to the same region of the same block |
| SharedBuffer.SharedBuffer.Rewind | src/mp/shared_buffer_impl.h:120-124 | starts again at the front exactly when the count is 1, and then nobody holds a region there |
| SharedBuffer.SharedBuffer.Expand | src/mp/shared_buffer_impl.h:143-171 | enough room in a new block of the size the doubling gives, from its start on, with every held region in place in a block of the same size, when something was handed out of the block or nobody else holds it |
| SharedBuffer.SharedBuffer.Reset | src/mp/shared_buffer_impl.h:77-82 | the reference holds the new region, every other one what it held |
| SharedBuffer.SharedBuffer.ReserveAmongOthers | src/mp/shared_buffer_impl.h:118-128 | all of it, under the exact test, while other threads clear references between the test of the count, the expansion and what follows: m_used is at the start of a block that nobody else holds or that is new, and where it was otherwise; the block is kept exactly when it has room, and else of the size the doubling gives |
| SharedBuffer.SharedBuffer.Allocate | src/mp/shared_buffer_impl.h:130-141 | for every length, under the exact test: where the bytes handed out begin, at the start of a block that nobody else holds or that is new and behind the others otherwise; they are in no region that is still held, and every other held region stays where it is, not freed and not reallocated |
| Common.Doubled | src/mp/stream_buffer_impl.h:182-183 | the loop ends with the smallest doubling of the start that fits |
| StreamBuffer.StreamBuffer.ReserveBuffer | src/mp/stream_buffer_impl.h:166-177 | room for `len` more bytes and the same data, across rewind, realloc and copy; the block is kept exactly when it has room, counting what a rewind gives back, and where its data begins, its size and its count are told for every branch |
| StreamBuffer.StreamBuffer.ExpandBuffer | src/mp/stream_buffer_impl.h:179-213 | both branches move the data to the start of a new block with room, of the size the doubling gives; the copied one has a count of its own |
| StreamBuffer.StreamBuffer.Receive | src/mp/stream_buffer_impl.h:129-133 | the data grows by exactly the bytes received; used bytes followed by data are all bytes received |
| StreamBuffer.StreamBuffer.DataUsed | src/mp/stream_buffer_impl.h:145-148 | the bytes used are taken from the front of the data, and no others |
| StreamBuffer.StreamBuffer.constructor | src/mp/stream_buffer_impl.h:97-112 | an empty buffer in a block of the initial size, held by the buffer alone |
| MemtextStream.ReadConcat | src/memproto/memtext.rl:304-344 | reading can stop anywhere and go on |
| MemtextParser.CheckLetsOneTooManyPass | src/memproto/memtext.rl:65-76 | the check on the key index does not stop the 257th mark, whose index is outside the array |
| MemtextStream.ErrorStays | src/memproto/memtext.rl:333-343 | nothing is delivered behind an error, or behind a mark outside its array |
| MemtextStream.DeltaHasShape | src/memproto/memtext.rl:217-287 | between which states of the grammar each action stands |
| MemtextStream.EndKeyAgrees | src/memproto/memtext.rl:65-70 | the marked positions of a key give the text of the key |
| MemtextStream.EndNumAgrees | src/memproto/memtext.rl:30-51 | the position in a number's own field gives the text that is converted |
| MemtextStream.DataByteAgrees | src/memproto/memtext.rl:110-123 | the counted payload ends at the same byte, with the same text |
| MemtextStream.DoAgrees | src/memproto/memtext.rl:139-202 | the callbacks see the keys, payload and numbers of the text |
| MemtextStream.OneStepAgrees | src/memproto/memtext.rl:304-344 | for every character the parser over a buffer delivers what the reader of the stream does, whatever earlier commands left in its fields, and stays in agreement; both say when a mark is written outside its array |
| MemtextStream.AgreementMoves | src/gate_memtext.cc:102-112 | more data behind what was read changes nothing; at the end of a command the data may be dropped and the offset set to 0 |
| Decimal.PrintIsNumeral | src/memproto/memtext.rl:30-42 | a printed number is a numeral without leading zero, and its value is the number |
| MemtextRoundTrip.ConvertPrinted | src/memproto/memtext.rl:30-48 | converting the numeral of any number gives what its field keeps: at most 64 bits, 32 for exptime; it fails exactly for more than 20 digits, or when a number that is not zero becomes zero |
| MemtextRoundTrip.LargeNumbers | src/memproto/memtext.rl:30-48 | in figures: 64-bit numbers are kept whole or modulo 2^32, those of more bits and at most 20 digits become the largest one, and the others are rejected |
| MemtextRoundTrip.WordRun | src/memproto/memtext.rl:226-243 | a command word at the start of a line resets keys, noreply and exptime, and sets the command |
| MemtextRoundTrip.KeyRun | src/memproto/memtext.rl:217 | a key is read as it is |
| MemtextRoundTrip.NumberThen | src/memproto/memtext.rl:219-223 | a printed number ends at the character behind it, with its value in its field |
| MemtextRoundTrip.DataRun | src/memproto/memtext.rl:110-123 | the payload is counted, not looked at |
| MemtextRoundTrip.KeysRun | src/memproto/memtext.rl:245-247 | up to 256 keys of a line are read in order |
| MemtextRoundTrip.GetReads | src/memproto/memtext.rl:245-247 | every printed get or gets line, with or without the trailing space, is read as its request |
| MemtextRoundTrip.SetReads | src/memproto/memtext.rl:249-256 | every printed set line and payload is read as its request, or rejected |
| MemtextRoundTrip.DeleteReads | src/memproto/memtext.rl:267-270 | every printed delete line, with or without a time and noreply, is read as its request, or rejected |
| MemtextUnserved.NumericFails | src/memproto/memtext.rl:272-276 | every incr or decr line is read up to its line feed, delivers nothing, and is refused there for want of a callback |
| MemtextUnserved.UnservedFails | src/memproto/memtext.rl:249-276 | the same for every line of a command without a callback, add, replace, append, prepend and cas with their payloads |
| MemtextRoundTrip.LinesRead | src/memproto/memtext.rl:278-287 | any list of printed lines is read as exactly the requests they stand for, in order, up to the first rejected one, whatever the payloads contain |
| MemtextRoundTrip.MeaningIsIntended | src/memproto/memtext.h:62-70 | a line is accepted with its numbers in full if and only if they fit their fields and the payload is not empty |
| MemtextRoundTrip.RoundTrip | src/memproto/memtext.rl:217-287 | printed lines come back as the requests the client meant if and only if all of them are in range |
| Decimal.PrintValue | src/memproto/memtext.rl:219-223 | a numeral of the grammar is what is printed for its value, so there is one way to write a number |
| MemtextGrammar.NumeralEnds | src/memproto/memtext.rl:30-42 | what the end of any numeral of the grammar stores |
| MemtextGrammar.SetLineGrows | src/memproto/memtext.rl:249-256 | while a set line is read without error, what was read is the beginning of a printed set line with the keys and numbers the reader holds |
| MemtextGrammar.DeleteLineGrows | src/memproto/memtext.rl:267-270 | the same for a delete line |
| MemtextGrammar.StepGrows | src/memproto/memtext.rl:217-287 | the same for every state and every character |
| MemtextGrammar.LineEndsHere | src/memproto/memtext.rl:139-202 | a line feed that ends a command ends a printed line that is not rejected, and delivers exactly what that line stands for |
| MemtextGrammar.Recognised | src/memproto/memtext.rl:304-344 | whatever was read without an error, with all marks inside their arrays, is a list of printed lines and the beginning of another |
| MemtextGrammar.MarksStayInside | src/memproto/memtext.rl:65-76 | for every stream, the marks stay inside their arrays if and only if no retrieval line behind accepted lines reaches a 257th key |
| MemtextGrammar.OverrunLeaves | src/memproto/memtext.rl:65-76 | every such line leads outside, whatever stands before and behind it |
| MemtextGrammar.LongLine | src/memproto/memtext.rl:71-76 | a line that does: 257 keys of one character |
| MemtextGrammar.LanguageIsPrinted | src/memproto/memtext.rl:217-287 | the language of the parser: marks leave their arrays exactly on the streams with a 257th key; any other stream is read to the end of a command if and only if it is a list of printed get, set and delete lines of which none is rejected, and then it delivers what they stand for |
| MemtextGate.Execute | src/memproto/memtext.rl:304-344 | delivers what the reader delivers on the data from the offset; -1 exactly on an error, 1 exactly at the end of a command, undefined exactly when a mark leaves its array, and else it is resumable at the end of the data |
| MemtextGate.Handler.constructor | src/gate_memtext.cc:64-84 | a new handler is at the start of the stream |
| MemtextGate.Handler.RunParser | src/gate_memtext.cc:102-112 | the loop leaves the parser at the end of the data, in agreement with one reader of the whole stream, with its requests delivered; a command that ends what was received leaves the buffer empty and the offset 0, and the beginning of one leaves the data as it is |
| MemtextGate.Handler.ReadEvent | src/gate_memtext.cc:89-112 | after every event the requests delivered are those of all bytes received, and the bytes dropped are whole commands; the buffer is empty exactly behind the end of a command; the connection ends exactly on a closed or broken read or on a parse error, and becomes unknown exactly when a mark leaves its array |
| MemtextGate.EndsInParts | src/gate_memtext.cc:102-112 | a command ends in what was received and is now longer exactly if one ended in what was there or ends in what came, which is when finished commands stay in the buffer |
| MemtextGate.FirstRead | src/gate_memtext.cc:89-112 | the first read of a connection stays in the buffer whole, unless a command ends at its end |
| MemtextGate.FinishedCommandStays | src/gate_memtext.cc:102-112 | a read that brings a command and the beginning of another keeps both in the buffer |
| MemtextGate.Serve | src/gate_memtext.cc:89-112 | unless a retrieval line reaches a 257th key, which is told exactly, the requests delivered over a connection depend on the byte stream only, for every split into chunks and reads and every buffer move; it is given up only when 4 GiB have come since the last chunk that ended a command |
| MemtextGate.ServeLines | src/gate_memtext.cc:89-112 | a client's lines never lead outside, and reach the callbacks as it meant them, however the network splits them, if and only if they are in range |
| ControlGate.PackLength | src/gate_control.cc:83 | the length read from a frame is the one packed by the client |
| ControlGate.PackOrder | src/memxyctl:23 | lengths are in network order: the first byte in which two of them differ decides which is smaller |
| ControlGate.ShortFrame | src/memxyctl:23-24 | on the wire a body of less than 256 bytes follows three zero bytes and its size |
| ControlGate.ParseResumes | src/gate_control.cc:82-93 | frames can be parsed up to anywhere and then from what was left |
| ControlGate.RoundTrip | src/memxyctl:23-24 | the bodies that come out are the encoded ones, in order, if and only if the last is not empty; otherwise that one alone is held back |
| ControlGate.Handler.ProcessFrames | src/gate_control.cc:82-93 | the loop processes every whole frame in the buffer and keeps the rest |
| ControlGate.Handler.ReadEvent | src/gate_control.cc:68-93 | after every event the bodies processed are those of all bytes received, and a read takes up to 4096 bytes at least |
| ControlGate.Serve | src/gate_control.cc:68-93 | the bodies processed over a connection depend on the byte stream only |
| ControlGate.ServeBodies | src/memxyctl:23-24 | what the client encodes is what is processed, for every split, if and only if the last body is not empty; otherwise all but that one |
| Decimal.PrintLength | src/gate_memtext_retrieval.cc:32-35 | a number below a power of ten has at most that many digits |
| Decimal.PrintOnTheWire | src/gate_memtext_retrieval.cc:216-218 | numbers are printed in base ten, the most significant digit first |
| MultiGet.HeaderRestLength | src/gate_memtext_retrieval.cc:34-35 | a header behind its beginning takes at most 36 bytes besides the key, for all 32-bit flags and 64-bit lengths |
| MultiGet.HeaderSet | src/gate_memtext_retrieval.cc:216-224 | appends key, flags, length and line end, and the terminators of sprintf stay in bounds |
| MultiGet.ValueSet | src/gate_memtext_retrieval.cc:216-231 | and two iovecs: the header just written and the value |
| MultiGet.OneValue | src/gate_memtext_retrieval.cc:209-232 | one turn of the loop adds exactly one VALUE block to what is gathered, within the space for the keys found so far |
| MultiGet.RoomForOne | src/gate_memtext_retrieval.cc:189-191 | the space computed from the number of keys found and their length always has room for one more header and its terminator |
| MultiGet.FetchAll | src/gate_memtext_retrieval.cc:166-181 | the loop fills the slots: each holds the answer to its key exactly if every answer before it was a success or a miss; tells the first failure; and counts the found slots and the length of their keys |
| MultiGet.FetchedSlotAt | src/gate_memtext_retrieval.cc:166-181 | a slot holds its answer exactly if every answer before it was a success or a missing key |
| MultiGet.FailureIsFirst | src/gate_memtext_retrieval.cc:171-175 | the failure reported is that of the first answer that is neither a success nor a miss |
| MultiGet.Render | src/gate_memtext_retrieval.cc:189-236 | fills exactly 2 * found + 1 iovecs and no more than the header space, and what they gather is the VALUE blocks of the found slots in order followed by END |
| MultiGet.Carry | src/gate_memtext_retrieval.cc:109-138 | every value moves to the carry, so that it is freed once |
| MultiGet.GetSingle | src/gate_memtext_retrieval.cc:38-93 | the reply to a library error; else three iovecs that gather to the protocol's response to one key, in a header buffer of HEADER_SIZE, or END; the finalizer frees no value |
| MultiGet.GetMulti | src/gate_memtext_retrieval.cc:140-241 | the reply to more than 1024 keys or to the library error reported; else the protocol's response to all keys as they were answered, a missing one skipped; values that are sent are freed by the finalizer alone, and whatever was fetched for another reply stays with the slots, which free it |
| MultiGet.Get | src/gate_memtext_retrieval.cc:244-265 | both paths send the protocol's response, or the reply to the library error; for many keys every value fetched is freed once, for a single one none is, so nothing leaks there if and only if no value was found |
| MultiGet.LeakingGet | src/gate_memtext_retrieval.cc:54-91 | one key with a value: it is sent and freed by nobody |
| MultiGet.FreesEach | src/gate_memtext_retrieval.cc:109-138 | every value in the carry is freed as often as it is there |
| MultiGet.BlocksInOrder | src/gate_memtext_retrieval.cc:205-236 | the blocks of found keys follow in the order of the keys, and nothing stands for a missing one |
| MultiGet.BlockOfGet | src/gate_memtext_retrieval.cc:205-232 | what a VALUE block is on the wire for get |
| MultiGet.BlockOfGets | src/gate_memtext_retrieval.cc:218-221 | and for gets, with its cas of 0 |
| MultiGet.ErrorLine | src/gate_memtext_impl.cc:24-50 | the seven replies to errors differ and end their lines |
| GetReply.Respond | src/gate_memtext_retrieval.cc:238 | the reply is committed as its list with the finalizer that takes it over behind it, or as a constant text with none, and no other call is owed for it |
| GetReply.HandleGet | src/gate_memtext_retrieval.cc:244-265 | a whole request: the records committed stand for the protocol's response, a constant text is one record without a finalizer, and the finalizer behind a list frees exactly the values fetched for many keys |
| GetReply.BytesAreTheReply | src/gate_memtext_retrieval.cc:205-238 | with the pieces in memory, the bytes of the committed list are the response |
| GetReply.ValuesFreedOnce | src/mp/wavy/core.pre.h:362-368 | over every run, once the queue is drained or destroyed, the finalizer that owns the values ran exactly once for this reply, unless its commit met a hard error at once and left it behind |
| MultiGet.OneFound | src/gate_memtext_retrieval.cc:189-238 | when one key is found among many the response is the one to that key alone |

## Left out

- libmemcached, `proxy_client` and the set and delete callbacks: wrappers over a library that is not part of this model.  What `memcached_get`, `memcached_mget` and each `memcached_fetch` answer is given, with no value beside an error; keys are as they are after the fetch.  Callbacks are taken to succeed and not to alter the input buffer.
- Real system calls: epoll, writev, sendfile, read and sockets give arbitrary results within their interface; of the two sendfile branches the Linux one is modelled.  `shutdown` after a hard error is not.
- `step_next`: its timeout path sets m_pollable without the lock or a signal.
- The worker loop is modelled on values, since its threads interleave inside its methods.  A failing `wait` other than EINTR or EAGAIN, which throws, is not modelled, and neither is an ident that is reused while its handler is being reset.
- What write_event does is opaque to the worker loop and the subject of `OutSystem`; the loop's out queue receives arbitrary events.
- Fd reuse after close for output queues, failures of allocation, and overflow of size_t in the doubling loops.
- `stream_buffer::release` and the count of a block after the copying branch: the buffer keeps its own count on the old block, which is not modelled any further.
- The copy constructor and swap of `shared_buffer::reference`.
- MemtextGrammar.LanguageIsPrinted: streams of 2^64 - 1 bytes or more are left out, since a payload could then be as long as the largest number a length can become.
- What the program does once a mark was written outside its array: the models stop there with an outcome of its own.
- SharedBuffer.SharedBuffer.Allocate: promises nothing where the exact test fails, since there a block is reallocated under its holders.
- Destroying a queue while its event is in flight is a step of `OutQueue` but not of `OutSystem`, whose runs end before it.
- Buffers of 4 GiB or more: the mark of exptime lives in a 32-bit field.  `MemtextGate.Serve` stops where the data held would pass that.
- The state compared with `memtext_first_final` is taken to be the final state of the main machine, as it is numbered before that of the payload machine; the generated file is not part of this model.
- Arguments a callback receives besides the request, the order of fields in the cas request, and `memproto.c`.
- kqueue, connect, listen, timers, signals, logging, `main.cc` and the thread start-up of `add_thread` with an initializer.
- Finalizers and handlers that call back into the same descriptor's queue.
