# Verified model of libdyplo's queues, schedulers, processes and image reader

libdyplo runs Kahn process networks: stages that read blocks of elements from one bounded queue and
write blocks to the next. The queues hand out raw contiguous regions of a ring, the schedulers decide
who waits, and the processes join queues into chains. Around that core it has queues over file
descriptors, a reader for FPGA images, and (beside its tests) a solver that assigns functions to
partitions.

How the model is laid out:

- **Ring and protocol.** `RingIndices` is the index arithmetic of the ring, `QueueProtocol` the steps
  that one producer thread and one consumer thread make on a queue under `PthreadScheduler` (every
  section under the mutex is one step, cells are filled one by one outside it, condition variables
  may wake up spuriously). `FixedMemoryQueues` and `SingleElementQueues` are the classes with the
  source's fields and branches; each of their methods is proved to be exactly one step of the
  protocol. `QueueBehaviour` says what those steps come to: which region a begin call grants, when it
  sleeps and when it throws. `Contiguity` says when whole blocks are contiguous.
- **Threaded chains.** `ThreadedChain` is a source, any number of `StaticProcessor` threads and a sink,
  under every schedule; `ThreadedTheorems` has deadlock freedom, Kahn determinism and exactly-once,
  `ThreadedProgress` that every schedule delivers, `ThreadedTermination` the end of `terminate()`,
  and `ThreadedRestart` a stage that is terminated and attached again.
  `StaticProcessors` is the loop of one stage on queue objects.
- **Cooperative chains.** `CooperativeLinks` and `CooperativeChain`: commits recurse into the stage
  behind the queue; `NoopScheduler` throws at the end of the chain.
- **File queues.** `BytePipes` (a descriptor driven by a script of what the operating system does),
  `FileOutputQueues`, `FileInputQueues`, and `FileStreams`, which joins them end to end: two threads
  that take turns between any two system calls.
- **FPGA images.** `ImageFiles` (`read_all`), `ImageFormats` (what processing any file has to result
  in, and the file formats), `ImageCallbacks` (file writer and DMA programmer), `FpgaImageReaders`.
  `NameNumbers` is the number in a device name.
- **Partition solver.** `BitMasks`, `PartitionAssignments` (assignments, exhaustive search, the bound)
  and `WeightedPartitioners` (branch and bound with 32-bit wrap-around).
- `Multiples`, `Sequences`, `Blocks` and `Bytes` hold what these share.

`dafny verify dfyconfig.toml` checks everything.

Where the code does not do what a reader might expect, the exact condition is proved:

- A whole block is always contiguous if and only if the block size divides the capacity (or exceeds
  it): `WriteContiguityExact`, `ReadContiguityExact`.
- `clear()` signals nobody; it loses a wakeup exactly if a producer sleeps for room the queue can have:
  `ClearWakeups`, with an input in `ClearLosesWakeup`. `ClearedInv` has the whole condition.
- When the last queue of a cooperative chain is full, the exception leaves blocks that would be
  processed a second time, unless the chain has one stage: `ExceptionRepeats`, with an input in
  `LastQueueTooSmall`; `CommitsTwice` is what happens to them. A cooperative `begin_write` that finds no
  room loops forever: `CooperativeProcesses.BeginWrite`, with an input in `WaitsForItself`.
- `FileOutputQueue::end_write(0)` after a `begin_write(0)` that granted nothing drops the pending bytes:
  `FileOutputQueue.EndWrite`, with an input in `PollLosesBytes`. Whatever the descriptor does, no
  `FileInputQueue::begin_read` that returns drops a byte by ending inside an element, if and only if the
  elements are single bytes or every call asks for the whole buffer: `NeverRaggedExact`, with an input for
  every other width and capacity in `RaggedRead`. It also drops what an `end_read(0)` has left
  unreleased: `ReadsOver` is an input. `FileInputQueue.BeginRead` says exactly what one call reads, returns
  and loses.
- A `.bit` payload that is neither all in the first 4096 bytes of the file nor at least 4096 bytes long
  is reported as truncated (`ShortPayloadTruncated` is an input), unless so much follows it that 4096
  bytes can be sent in its place. Otherwise it is sent if and only if it has at most 20480 bytes or the
  blocks of the callback at most 16384, the size of the buffer it is read into: `BitRoundTrip` and
  `SendEncoded`, with an input in `LargeBlocksOverrun` (the blocks of `HardwareProgrammer` for a DMA node
  have 65536 bytes).
- A `.partial` file is taken for a `.bit` file exactly if its node is 9 and bytes 11 to 13 are 0, 1 and
  'a', and is then never sent as a whole: `PartialExact`, with an input in `PartialMisread`.
- The partition solver finds the optimum of every problem whose eligible scores add up to a given sum if
  and only if the sum is less than 2^32. With larger sums there are problems whose optimum no 32-bit
  result can hold (`AnswerableExact`, `WrappedBoundMisses`) and problems whose optimum would fit and is
  missed all the same (`FindsAllExact`, `SmallScoreSuffices`). What it returns for any single problem is
  the function `Search`.

## Model

| member | source | states |
|---|---|---|
| RingIndices.WriteRunIsMaximal | queue.hpp:61-74 | `begin_write` grants cells without live data, up to the end of the buffer or the next live cell, also when first and last coincide |
| RingIndices.ReadRunIsMaximal | queue.hpp:89-102 | `begin_read` grants the maximal contiguous run of live cells, and they hold the oldest unread elements in order |
| RingIndices.WrittenAppends | queue.hpp:79-85 | `end_write` appends exactly the committed cells to the unread elements |
| RingIndices.ConsumedDrops | queue.hpp:106-113 | `end_read` drops exactly the oldest elements |
| RingIndices.RunsAfterWrite | queue.hpp:79-85 | a commit never shrinks what the consumer may read, and keeps what is left of the producer's region |
| RingIndices.RunsAfterRead | queue.hpp:106-113 | a release never shrinks what the producer may write, and keeps what is left of the consumer's region |
| RingIndices.FillKeepsLive | queue.hpp:61-74 | storing through the granted pointer leaves the unread elements alone |
| Contiguity.WriteContiguityExact | queue.hpp:61-85 | a producer of whole blocks gets a whole contiguous block whenever there is room, for every step size of the consumer, if and only if the block size divides the capacity or exceeds it |
| Contiguity.ReadContiguityExact | queue.hpp:89-113 | the same for a consumer of whole blocks, for every step size of the producer |
| Contiguity.NeverBothStarved | queue.hpp:176-186 | with block sizes that divide the capacity, no reachable fill level lacks both a block to read and room for a block |
| QueueProtocol.StepKeepsInv | queue.hpp:61-113 | every step of either thread, interrupt, resume and spurious wakeup keeps indices, held regions, wakeups and histories in order |
| QueueProtocol.LegalSteps | queue.hpp:61-113 | from every reachable state, whatever a thread may do by the rules of the begin and end calls stays inside the buffer |
| QueueProtocol.EveryInterleaving | queue.hpp:61-113 | in every interleaving: held cells are never shared or live, the read region holds the oldest unread elements, consumed is a prefix of committed, the fill level is their difference and bounded, and no wakeup is lost |
| QueueProtocol.OtherStepKeepsInv | pthreadscheduler.cpp:44-97 | waiting, signalling, interrupting and resuming never leave a thread asleep that has what it asked for or is interrupted |
| QueueProtocol.ClearWakeups | queue.hpp:51-57 | after `clear()` no wakeup is lost if and only if no producer sleeps for room that the empty queue has |
| QueueProtocol.ClearedInv | queue.hpp:51-57 | exactly when `clear()` keeps the whole invariant, held regions included |
| QueueProtocol.ClearLosesWakeup | queue.hpp:51-57 | a run after which `clear()` leaves a producer asleep although the queue is empty |
| QueueProtocol.ConsumerUndisturbed | queue.hpp:79-85 | nothing but its own steps changes what a consumer holds or has consumed; others at most wake it |
| QueueProtocol.ProducerUndisturbed | queue.hpp:106-113 | nothing but its own steps changes what a producer holds or has committed |
| QueueBehaviour.BeginOutcomes | queue.hpp:61-113 | after every run of both threads, what any begin call or later pass of its wait loop comes to: the whole free region from `first`, or the whole live region from `last`, exactly if that is enough; an exception exactly if it is not and that side is interrupted; sleep otherwise |
| QueueBehaviour.BeginChangesNothingElse | queue.hpp:61-102 | a begin call changes nothing but what its own side holds or waits for |
| QueueBehaviour.RegionsAreUnique | queue.hpp:61-102 | no other length is that of a whole free or live region |
| QueueBehaviour.WokenMayRetry | pthreadscheduler.cpp:44-97 | a thread in its wait loop may go on exactly after a commit (or release) of the other side, an interrupt, a resume or a spurious wakeup |
| QueueBehaviour.InterruptedThrows | pthreadscheduler.cpp:75-89 | after an interrupt and any run without a resume, every begin call and every retry for more than there is throws; the side is never asleep |
| QueueBehaviour.ResumedSleeps | pthreadscheduler.cpp:63-97 | after a resume and any run without an interrupt, it sleeps and never throws |
| QueueBehaviour.UninterruptedSleeps | pthreadscheduler.cpp:44-62 | the same for a queue that was never interrupted |
| QueueBehaviour.CommitsInParts | queue.hpp:79-85 | committing a region in two parts is the same as committing it at once |
| QueueBehaviour.ReleasesInParts | queue.hpp:106-113 | so is releasing one |
| FixedMemoryQueues.FixedMemoryQueue.constructor | queue.hpp:42-49 | a new queue is the protocol's initial state |
| FixedMemoryQueues.FixedMemoryQueue.WriteRegion | queue.hpp:66-73 | the three branches compute the maximal free run |
| FixedMemoryQueues.FixedMemoryQueue.ReadRegion | queue.hpp:94-101 | the three branches compute the maximal live run |
| FixedMemoryQueues.FixedMemoryQueue.BeginWrite | queue.hpp:61-74 | grants exactly the free cells from `first` up to the end of the buffer or the next live cell, if those are enough; otherwise throws exactly if the writer is interrupted, and sleeps if not; as a step of the protocol |
| FixedMemoryQueues.FixedMemoryQueue.ContinueBeginWrite | queue.hpp:176-180 | the wait loop goes round once more with the same count and the same outcomes |
| FixedMemoryQueues.FixedMemoryQueue.BeginRead | queue.hpp:89-102 | grants exactly the live cells from `last` up to the end of the buffer or the next free cell, if those are enough; otherwise throws exactly if the reader is interrupted, and sleeps if not |
| FixedMemoryQueues.FixedMemoryQueue.ContinueBeginRead | queue.hpp:182-186 | the reader's wait loop goes round once more with the same count and the same outcomes |
| FixedMemoryQueues.FixedMemoryQueue.Store | queue.hpp:132-138 | a store through the granted pointer is the protocol's fill step |
| FixedMemoryQueues.FixedMemoryQueue.EndWrite | queue.hpp:79-85 | is the protocol's commit step |
| FixedMemoryQueues.FixedMemoryQueue.EndRead | queue.hpp:106-113 | is the protocol's release step |
| FixedMemoryQueues.FixedMemoryQueue.InterruptWrite | queue.hpp:155-159 | raises the writer's flag and wakes it; the protocol's interrupt step |
| FixedMemoryQueues.FixedMemoryQueue.InterruptRead | queue.hpp:149-153 | raises the reader's flag and wakes it; the protocol's interrupt step |
| FixedMemoryQueues.FixedMemoryQueue.ResumeWrite | queue.hpp:167-171 | clears the writer's flag and wakes it; the protocol's resume step |
| FixedMemoryQueues.FixedMemoryQueue.ResumeRead | queue.hpp:161-165 | clears the reader's flag and wakes it; the protocol's resume step |
| FixedMemoryQueues.FixedMemoryQueue.Clear | queue.hpp:51-57 | empties the queue, and leaves it in order exactly if the consumer holds no cells, the producer none but those at the start, and nobody sleeps for room there is now |
| FixedMemoryQueues.FixedMemoryQueue.PushOne | queue.hpp:132-138 | appends one element exactly if there is room, and otherwise throws exactly if interrupted, or waits, and changes no element |
| FixedMemoryQueues.FixedMemoryQueue.ContinuePushOne | queue.hpp:132-138 | one more pass after a wakeup: it appends the element exactly if there is room, and otherwise throws exactly if interrupted, or waits again |
| FixedMemoryQueues.FixedMemoryQueue.PopOne | queue.hpp:140-147 | removes and returns the oldest element exactly if there is one, and otherwise throws exactly if interrupted, or waits |
| FixedMemoryQueues.FixedMemoryQueue.ContinuePopOne | queue.hpp:140-147 | one more pass after a wakeup: it removes the oldest element exactly if there is one, and otherwise throws exactly if interrupted, or waits again |
| SingleElementQueues.SameTraces | queue.hpp:242-291 | in every interleaving of operations with counts at most 1, zero included, the queue is in the same state as a ring of capacity 1, but for the signals of end calls with a count of zero |
| SingleElementQueues.EndWriteAsRing | queue.hpp:256-265 | its commit is the ring's commit |
| SingleElementQueues.EndReadAsRing | queue.hpp:282-291 | its release is the ring's release |
| SingleElementQueues.ZeroCountsOnlySignal | queue.hpp:256-291 | the end calls with a count of zero, which it ignores, would only signal in a ring |
| SingleElementQueues.SingleElementQueue.BeginWrite | queue.hpp:242-251 | grants the cell exactly if it is free or nothing is asked for; otherwise throws exactly if interrupted, and sleeps if not |
| SingleElementQueues.SingleElementQueue.ContinueBeginWrite | queue.hpp:242-251 | the wait loop goes round once more after a wakeup, with the same outcomes |
| SingleElementQueues.SingleElementQueue.BeginRead | queue.hpp:269-278 | grants the element exactly if there is one or nothing is asked for; otherwise throws exactly if interrupted, and sleeps if not |
| SingleElementQueues.SingleElementQueue.ContinueBeginRead | queue.hpp:269-278 | the same for a reader, once more after a wakeup |
| SingleElementQueues.SingleElementQueue.EndWrite | queue.hpp:256-265 | sets the flag and signals unless the count is zero |
| SingleElementQueues.SingleElementQueue.EndRead | queue.hpp:282-291 | clears the flag and signals unless the count is zero |
| ThreadedChain.ThreadSteps | threadedprocess.hpp:133-153 | a thread that is not asleep can always take its next step, and the step keeps the chain in order |
| ThreadedChain.OutsideKeepsInv | pthreadscheduler.cpp:75-97 | interrupts, resumes and spurious wakeups keep the chain in order |
| ThreadedChain.RestartKeepsInv | threadedprocess.hpp:85-109 | so does attaching the queues again after the thread has ended |
| ThreadedTheorems.NoDeadlock | threadedprocess.hpp:133-153 | in every reachable state of a chain of any length, some thread can step or has ended |
| ThreadedTheorems.AlwaysRunnable | threadedprocess.hpp:133-153 | if nobody interrupts a queue no thread ever ends, and in every state some thread can step |
| ThreadedTheorems.RunnableFrom | threadedprocess.hpp:133-153 | the same from any reachable state in which no flag is set and no thread has ended |
| ThreadedProgress.EventuallyDelivers | threadedprocess.hpp:133-153 | every schedule without interrupts, fair or not, delivers any number of elements to the sink after a bounded number of steps (plus one for each spurious wakeup), and they are the right ones |
| ThreadedProgress.DeliversFrom | threadedprocess.hpp:133-153 | the same from any reachable state in which no flag is set and no thread has ended |
| ThreadedProgress.RunGains | pthreadscheduler.cpp:44-64 | steps that only put a thread back to sleep are outweighed: each is paid for by a signal, a wakeup from outside, or a thread now asleep |
| ThreadedProgress.HistoryBounded | queue.hpp:61-113 | no thread is further ahead of the sink than the capacities between them |
| ThreadedTheorems.HistoriesAreDetermined | threadedprocess.hpp:133-153 | under every schedule each queue's history is a prefix of the stage functions mapped over the source |
| ThreadedTheorems.SchedulesAgree | threadedprocess.hpp:133-153 | of two histories of a queue under two schedules, one extends the other |
| ThreadedTheorems.QueuesConserve | queue.hpp:79-113 | committed = consumed + unread for every queue in every reachable state, within its capacity |
| ThreadedTheorems.StoppedExactlyOnce | threadedprocess.hpp:71-109 | when a stage has ended by InterruptedException, what it committed is its function of exactly what it consumed |
| ThreadedTheorems.CommitsBeforeReleasing | threadedprocess.hpp:137-152 | at every moment a stage has committed the results of exactly the blocks it has released, or of one more |
| ThreadedTermination.NeverBlocks | pthreadscheduler.cpp:44-55 | an interrupted stage never sleeps |
| ThreadedTermination.JoinReturns | threadedprocess.hpp:71-83 | after the interrupts, in every continuation in which nobody pushes, the stage takes a bounded number of steps and can step until it has ended |
| ThreadedTermination.IterationBound | threadedprocess.hpp:137-152 | that bound is size / blocksize whole iterations and one last begin call |
| ThreadedRestart.TerminateReturns | threadedprocess.hpp:71-83 | from every reachable state, after the interrupts of the two queues, in every continuation in which nobody pushes or resumes, the thread can step until it has ended, and has ended after a number of its own steps known beforehand |
| ThreadedRestart.AttachCalms | threadedprocess.hpp:85-109 | once the thread has ended, resuming and attaching its queues and starting it is possible and leaves a chain without interrupts |
| ThreadedRestart.RestartDelivers | threadedprocess.hpp:71-109 | a stage is terminated, the others run until it has ended, it is attached again, and all run on: with enough steps the sink receives any number of elements, the right ones, under every schedule |
| StaticProcessors.StaticProcessor.Iterate | threadedprocess.hpp:137-152 | an iteration does a whole block, or changes nothing when a begin call does not return for want of a block or of room |
| StaticProcessors.StaticProcessor.Process | threadedprocess.hpp:133-153 | keeps committed = block function of consumed until no block or no room is left, and ends by InterruptedException if both queues are interrupted |
| CooperativeLinks.ReadReady | cooperativeprocess.hpp:95-97 | `begin_read(0)` returns a whole block exactly if one is unread |
| CooperativeLinks.RoomWhenStarved | cooperativescheduler.hpp:61-64 | a queue whose reader lacks a block has room for the writer's block |
| CooperativeChain.IdleDelivers | cooperativeprocess.hpp:89-103 | once no stage has a whole block left, the last queue has received the composed function of everything committed |
| CooperativeChain.OnlyLastWaits | cooperativescheduler.hpp:61-64 | `begin_write` never has to wait on a queue between two stages |
| CooperativeChain.ExceptionRepeats | cooperativeprocess.hpp:98-101 | after an exception no block would be repeated if and only if the chain has one stage |
| CooperativeChain.CommitsTwice | cooperativeprocess.hpp:98-101 | once there is room, a stage that repeats a block commits the same results twice in a row |
| CooperativeChain.LastQueueTooSmall | cooperativeprocess.hpp:89-103 | two copying stages and a full last queue: the second commit throws, and the first stage is left to repeat its block |
| CooperativeChain.CooperativeProcesses.ProcessOne | cooperativeprocess.hpp:89-103 | terminates; returns if and only if the last queue has room for the composed function of all that was committed, and then every stage is drained and everything is delivered in order; otherwise exactly the stages ahead of the last would repeat a block |
| CooperativeChain.CooperativeProcesses.HandOver | cooperativeprocess.hpp:100-101 | `end_write` runs the next stage before `end_read` releases the block |
| CooperativeChain.CooperativeProcesses.BeginWrite | cooperativescheduler.hpp:61-64 | on an idle chain it grants a region exactly if there is room; otherwise its wait loop changes nothing and never ends |
| CooperativeChain.WaitsForItself | cooperativescheduler.hpp:61-64 | a stage with blocks of two and a queue for two: after one element a `begin_write` for two never returns |
| CooperativeChain.CooperativeProcesses.EndWrite | cooperativescheduler.hpp:72-75 | a commit to the first queue has delivered everything in order when it returns, and returns exactly if the last queue has room; no queue changes its size |
| CooperativeChain.CooperativeProcesses.TakeResults | queue.hpp:106-113 | reading results makes room and disturbs no stage |
| FileOutputQueues.FileOutputQueue.WriteBuffer | filequeue.hpp:97-121 | writes exactly what the descriptor takes at once, and tells by the event alone how it ends: done if everything was taken or nothing was there, blocked after a short write or EAGAIN, an exception after any other error; written plus pending bytes stay the same |
| FileOutputQueues.FileOutputQueue.Drain | filequeue.hpp:133-134 | ends done exactly if nothing is pending; it is done whenever the calls move all pending bytes before one of them fails or is interrupted; it ends otherwise only when the script has run out, its last call failed or its last wait was interrupted; written plus pending bytes stay the same |
| FileOutputQueues.FileOutputQueue.BeginWrite | filequeue.hpp:125-137 | grants the whole buffer exactly if nothing is pending; a call that waits ends like the wait loop, a call that polls after one write, by its event |
| FileOutputQueues.FileOutputQueue.EndWrite | filequeue.hpp:142-155 | committed bytes are appended; written plus pending stay equal to committed if and only if nothing was pending before; a synchronous queue writes all of them whenever the calls move them, an asynchronous one makes one write |
| FileOutputQueues.PollLosesBytes | filequeue.hpp:125-155 | `begin_write(0)` and `end_write(0)` while a byte is pending: it is never written |
| FileInputQueues.FileInputQueue.ReadInto | filequeue.hpp:220-221 | one read appends what arrived at the position and touches nothing before it |
| FileInputQueues.FileInputQueue.BeginRead | filequeue.hpp:201-248 | returns whenever what is missing is in the pipe and the calls move it before one of them fails or is interrupted; it never returns only when the script has run out, throws an error only after a failed call, an interruption only when interrupted, an end of input only at one or with a full buffer; with a minimum of zero and nothing carried over it makes one call and returns what that delivers; the result lies between the minimum and the capacity; nothing is lost if and only if whole elements were read and nothing unreleased was left behind, and certainly with elements of one byte or if the whole buffer is asked for; an exception loses what its call read; zero bytes are asked for only if more is wanted than fits |
| FileInputQueues.NeverRaggedExact | filequeue.hpp:215-247 | for every script, every carry and every minimum of at least `least`, no returning call ends inside an element, if and only if elements are single bytes or `least` is the capacity or more |
| FileInputQueues.RaggedRead | filequeue.hpp:215-247 | for every other width, capacity and minimum, a call that returns and loses a byte |
| FileInputQueues.ReadsOver | filequeue.hpp:201-267 | two calls with an `end_read(0)` between them: the second reads over the element of the first |
| FileInputQueues.FileInputQueue.MemCpy | filequeue.hpp:260 | the regions that `memcpy` is given never overlap |
| FileInputQueues.FileInputQueue.EndRead | filequeue.hpp:250-267 | the first elements are consumed and the others carried over, so consumed plus buffered bytes stay what was read |
| FileInputQueues.FileInputQueue.PopOne | filequeue.hpp:275-282 | consumes exactly the next element of the stream or, on an exception, none; it returns whenever an element is carried over or will arrive, and throws only for the reason its last call gives |
| FileStreams.FileStream.TakeWriterTurn | filequeue.hpp:97-155 | one system call of the writing thread: what the pipe takes is written, elements are committed exactly once, after begin_write has granted the buffer, and where the thread goes is told by the event alone |
| FileStreams.FileStream.ContinueReading | filequeue.hpp:217-247 | one system call in the middle of a begin_read: the bytes that arrived are held in order, and it is exact when a begin_read loses any |
| FileStreams.ReadLeads | filequeue.hpp:217-248 | where one read takes a begin_read, by the events alone: it returns as soon as enough has arrived, throws at an error, an end, a full buffer or an interrupt, and goes on otherwise |
| FileStreams.FileStream.TakeReaderTurn | filequeue.hpp:201-267 | any step of the reading thread, where it leads exactly: begin_read returns at once exactly if enough is carried over, a read ends the call as the script says, end_read releases exactly what it is told to; what each step loses is stated exactly, and no begin_read throws after reading something unless there is an error, an end or an interrupt, or more is wanted than fits |
| FileStreams.FileStream.Run | filequeue.hpp:97-267 | for every interleaving of the system calls of the two threads, also with a begin_read that waits for bytes written meanwhile: without mishaps, committed = consumed + held by the reader + in the pipe + pending, in order. Without errors, end and interrupts, and with a reader that asks for no more than fits and releases something every time, the only mishap is a begin_read that ends inside an element, and with one-byte elements, or if every call moves whole elements, there is none |
| Bytes.BigEndian | hardware.cpp:183-186 | 16-bit and 32-bit numbers are stored with the most significant byte first |
| Bytes.SwapBufferAligned | hardware.cpp:188-199 | reverses the bytes of every word |
| Bytes.FlipReverses | hardware.cpp:194 | the shifts and masks reverse the four bytes of a word in memory |
| Bytes.SwapWordsInverts | hardware.cpp:188-199 | reversing twice gives the original back |
| ImageFiles.ImageFile.ReadAll | fileio.cpp:103-121 | for every split of reads it returns all bytes up to the count or the end of the file; only an error can make it return less or throw |
| ImageFormats.WalkFinds | hardware.cpp:834-854 | walking over well-formed tags finds the data tag exactly if it lies in the first read, and reports a truncated file otherwise |
| ImageFormats.BitRoundTrip | hardware.cpp:822-905 | a file in the .bit format, whatever follows it, is planned to be sent exactly, with its stated size, if and only if header and payload are readable and the reads of the payload fit, in the sense above; otherwise exactly which of the two is reported or happens |
| ImageFormats.RefusedPlan | hardware.cpp:834-854 | a description that the callback refuses, behind tags that it accepts, is reported if it lies in the first read |
| ImageCallbacks.Callback.EndProcessData | hardware.cpp:1109-1126 | the enqueued block is the data padded to a multiple of 8, with a NOP in the last four bytes if they hold no data |
| FpgaImageReaders.FpgaImageReader.FindData | hardware.cpp:834-854 | computes the walk, with the zeros behind what was read |
| FpgaImageReaders.FpgaImageReader.AlignPayload | hardware.cpp:863-885 | moves the payload to the start of the buffer and fills it up to 4096 bytes unless it is all there |
| FpgaImageReaders.FpgaImageReader.SendPayload | hardware.cpp:863-906 | whatever the chunk size, with or without DMA padding, sends the swapped payload, and succeeds exactly if the file is long enough and the reads fit |
| FpgaImageReaders.FpgaImageReader.ProcessBin | hardware.cpp:908-948 | recognises .bin and .partial files and sends them as they are, padded only at the end and only for DMA |
| FpgaImageReaders.FpgaImageReader.ProcessFile | hardware.cpp:814-951 | result and output are those of the specification for every file, every split of reads, every chunk size and either callback; a read error only leads to an exception or a shorter first read; every DMA block is a multiple of 8 bytes |
| FpgaImageReaders.BitDelivers | hardware.cpp:814-906 | a readable .bit file whose reads fit delivers its payload with each word reversed and returns its length |
| FpgaImageReaders.SendEncoded | hardware.cpp:814-906 | an encoded .bit file, with anything behind it, processed for every split of its reads: in terms of the lengths alone, whether it is reported as truncated, overruns the buffer, or is processed; then the result is the length of the payload, and the callback has been given its words reversed, plus one NOP for a DMA node exactly if the length is not a multiple of 8; a short payload that is not all in the first read comes with what follows it, up to 4096 bytes |
| FpgaImageReaders.SendRefused | hardware.cpp:834-854 | a .bit file with a refused description in the first read: an exception, and nothing is sent |
| FpgaImageReaders.SendBin | hardware.cpp:910-948 | four bytes 255 and a rest, for every split of the reads: the result is the length of the file, and the output is the file, plus one NOP for a DMA node exactly if the length is not a multiple of 8 |
| FpgaImageReaders.SendPartial | hardware.cpp:916-948 | 0, a node, an ID and four bytes 255, and a rest: with an accepted ID the same, header included; with a refused one an exception, and nothing is sent; for every such file that does not look like a .bit file |
| FpgaImageReaders.PartialExact | hardware.cpp:822-948 | a .partial file with an accepted ID is processed as a whole if and only if it does not look like a .bit file |
| FpgaImageReaders.PartialMisread | hardware.cpp:822-854 | a .partial file for node 9 with an accepted ID that is taken for a .bit file and reported as truncated |
| FpgaImageReaders.Unrecognized | hardware.cpp:824-930 | which files of at least 64 bytes are in none of the three formats, byte by byte |
| FpgaImageReaders.ShortPayloadTruncated | hardware.cpp:872-884 | a payload of 4080 bytes behind a header of 21 is reported as truncated |
| FpgaImageReaders.LargeBlocksOverrun | hardware.cpp:893-905 | with blocks of 65536 bytes a payload of 20481 bytes does not fit |
| FpgaImageReaders.BinDelivers | hardware.cpp:1109-1126 | whole words reach the DMA node verbatim, plus one NOP exactly if their length is not a multiple of 8 |
| NameNumbers.ParseNumberFromName | hardware.cpp:206-231 | the two loops compute the number in the name |
| NameNumbers.NumberRoundTrip | hardware.cpp:206-231 | a number printed behind a non-digit and before digit-free text is found again |
| NameNumbers.LastRunCounts | hardware.cpp:206-231 | the result is the value of the last run of digits |
| NameNumbers.NoDigitNoNumber | hardware.cpp:206-231 | -1 if and only if the name has no digit |
| NameNumbers.FitsInInt | hardware.cpp:212-220 | up to nine digits neither the result nor the weight exceeds 1000000000 |
| BitMasks.OverlapIsCommonBit | testdyplosolver.cpp:91 | two masks overlap exactly if they share a partition |
| PartitionAssignments.NeverUnderestimates | testdyplosolver.cpp:86-96 | the bound is at least the total of every assignment |
| PartitionAssignments.BestIsMaximum | testdyplosolver.cpp:110-152 | exhaustive search finds the maximum over all assignments of distinct available partitions to functions that allow them |
| PartitionAssignments.BestWithinBound | testdyplosolver.cpp:114-118 | no search beats the bound, so reaching it may end the search |
| PartitionAssignments.ZeroIsMaximum | testdyplosolver.cpp:86-96 | 0 is the optimum exactly if the bound is 0 |
| WeightedPartitioners.ScanMayStop | testdyplosolver.cpp:117-135 | the scan may stop at the highest bit of the mask or at the bound |
| WeightedPartitioners.WeightedPartitioner.CalcMaxAttainableScore | testdyplosolver.cpp:86-96 | is the bound modulo 2^32 |
| WeightedPartitioners.SearchIsBest | testdyplosolver.cpp:110-152 | the pruned search equals exhaustive search whenever score plus bound fit in 32 bits |
| WeightedPartitioners.WeightedPartitioner.Recurse | testdyplosolver.cpp:110-152 | returns what the pruned search finds, for every problem, wrapping or not |
| WeightedPartitioners.FindsAllExact | testdyplosolver.cpp:110-152 | of the problems with a given sum whose optimum fits in 32 bits the search solves all, if and only if the sum is less than 2^32 |
| WeightedPartitioners.SmallScoreSuffices | testdyplosolver.cpp:110-152 | three functions for one partition worth 1, 2^31 and 2^31: the search returns 1 |
| WeightedPartitioners.AnswerableExact | testdyplosolver.cpp:79-84 | a 32-bit result can be the optimum of all problems with a given sum of eligible scores if and only if the sum is less than 2^32 |
| WeightedPartitioners.FitsExact | testdyplosolver.cpp:79-84 | a 32-bit result can be the optimum of a problem exactly if exhaustive search stays below 2^32 |
| WeightedPartitioners.WrappedBoundMisses | testdyplosolver.cpp:86-96 | two functions worth 2^31 each: the bound wraps to 0 and 0 is not the optimum |
| WeightedPartitioners.WeightedPartitioner.Solve | testdyplosolver.cpp:79-84 | returns what the pruned search finds: the optimum whenever the scores of all eligible functions add up to less than 2^32; if they add up to a multiple of 2^32, 0, which is the optimum only if there is nothing to score |

## Left out

- CooperativeChain.CooperativeProcesses.ProcessOne: all queues of a chain carry one element type and their buffers are sequences, so that conversions between element types and aliasing of buffers are not modelled.
- StaticProcessors.StaticProcessor.Process: runs one thread between two moments at which others act; interference is in ThreadedChain. Block functions are pure and take and give whole blocks.
- FixedMemoryQueues.FixedMemoryQueue.Clear: `wait_empty` from a third thread, which would share the producer's condition, is not modelled.
- FixedMemoryQueues.FixedMemoryQueue.constructor: counts are bounded by the capacity, so 32-bit wrap-around of indices cannot occur and is not written out.
- WeightedPartitioners.WeightedPartitioner.Solve: says nothing of the `solution` vector, in which entries of levels that are not visited again can be stale; for a single problem with a sum above 2^32 the number it returns is given by `Search` only.
- FpgaImageReaders.FpgaImageReader.ProcessFile: the callback accepts all it is given, in blocks of at least 4096 bytes. What happens after a read overruns its buffer is not modelled; it ends the model's run. After a read error a .bin file for a DMA node may be padded in the middle, so nothing is claimed of that output but whole DMA words. The verdict on a description tag and on a static ID is a parameter.
- FileOutputQueues.FileOutputQueue.EndWrite: the product of count and element size is not truncated to an `int`.
- NameNumbers.ParseNumberFromName: integers are unbounded; with more than nine digits the source may overflow.
- Bytes.SwapBufferAligned: words are loaded and stored as on a little-endian processor, and the masks are written as division and remainder.
- ThreadedChain: a second `set_input` while the thread runs, thread attributes, and starting a thread that fails are not modelled.
- The greedy `Partitioner` (testdyplosolver.cpp:5-64): it does not backtrack and promises no completeness.
- Hardware contexts, routes, licences, thresholds, memory mapping, DMA ring ownership, directory scanning and the CPU fifo: thin layers over a kernel driver that is not part of this model.
- `poll`, the internal pipe of FilePollScheduler, and exception texts: waiting returns or is interrupted as the script says.
