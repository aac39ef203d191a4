# Verified core of the Sniper multi-core simulator

This project models the state machines at the heart of the simulator and proves what they keep over whole runs. Each
component has specification functions over values, proofs about them, and, where the simulator changes state in place,
classes and methods with loops that are proved equal to the specification.

* **SIFT traces** (`Bytes`, `SiftFormat`, `SiftTrace`, `SiftWire`, `SiftRoundTrip`, `SiftReading`, `SiftWriter`,
  `SiftReader`, `SiftProtocol`, `SiftAssertions`, `SiftSession`, `SessionProofs`, `SessionRuns`): the byte format, the
  writer that omits what the reader can infer, the reader that rebuilds it, the request/response protocol with memory
  accesses nested in requests, and whole traces with their requests, as systems of two processes and two byte
  channels.
* **Scheduling and barriers** (`Scheduler`, `SchedulerProofs`, `SchedulerEvents`, `SchedulerFairness`,
  `SchedulerTicks`, `PinnedScheduler`, `Barrier`, `BarrierProofs`, `BarrierOutcomes`, `BarrierRuns`, `BarrierClient`,
  `BarrierFilter`, `BarrierDetailed`, `FilterRuns`, `BarrierServer`): thread and core tables, quanta and the
  longest-waiting choice; the barrier with its held cores, wake-up queue, advance loop, groups and modes, and clients
  that skip calls against clients that always ask.
* **Queue models** (`HistoryQueue`, `Contention`, `QueueModels`): the free-interval list, the k-slot model and the
  busy-until clock, and their agreement on requests that arrive in order.
* **Block allocator** (`BlockAllocator`, `AllocatorProofs`, `AllocatorRuns`, `ElemAllocator`): a free list threaded
  through raw arrays, and the heap of separate cells it stands for.
* **Routing** (`MeshRouting`), **set lock** (`SetLock`, `SetLockSharing`) and **memory tracker** (`MemoryTracker`,
  `MemoryAgreement`).

`Prelude` holds what several modules share. Times are natural numbers of femtoseconds and addresses natural numbers;
64-bit wrap-around is written out where the code can meet it (`Wrap`, `Minus`, `Upper`). Where the trace reader and
writer, the queue models or the allocator assert, the model has a result for it instead of a precondition.

Where a property that one would expect is false of the code, the code is modelled as it is and the exact condition is
proved: `HistoryQueue.SlotsApartExactlyWhen`, `Contention.StartTimePredictsExactlyWhen`,
`BarrierProofs.RunKeepsInvariantExactlyWhen`, `BarrierFilter.FilterRefinesExactlyWhen`,
`BarrierClient.FilterSafeExactlyWhen`, `SiftRoundTrip.ToldExactlyWhen`, `SiftProtocol.AccessServedExactlyWhen`,
`SetLock.ExclusionExactlyWhen`, `MemoryAgreement.RunFindsLastOwnersExactlyWhen`, `MeshRouting.HopsAreDistance`,
`SchedulerEvents.ResumeRunsExactlyWhen`. Inputs that show the failure are in `BarrierRuns`, `FilterRuns`,
`SchedulerEvents.ResumedBesideIdleCore`, `HistoryQueue.LongWorkOverlaps` and `Contention.OutOfOrderOvercommits`.

`sift/sift_format.h` says that a simple record has zero or one data address; the writer puts up to two into it, and the
model follows the writer. The helper there that tells records apart by a non-zero byte is not what the reader uses; the
model follows the reader, which looks at the low four bits.

## Model

| member | source | states |
|---|---|---|
| Bytes.LittleEndianRoundTrip | sift/sift_format.h:6 | a number written as k little-endian bytes is read back exactly when it fits k bytes |
| Bytes.IntsRoundTrip | sift/sift_format.h:38-80 | a run of fixed-width fields is read back field by field, and nothing of what follows is consumed |
| SiftFormat.FirstByteRule | sift/sift_format.h:40-68 | for all field values, the first byte of a simple or extended record sends the reader to the branch for that kind exactly when the size is not zero, and the packed fields come back |
| SiftFormat.FlagsRule | sift/sift_format.h:58-68 | the packed flag byte of an extended record gives back every one of its fields |
| SiftFormat.AnnounceLength | sift/sift_writer.cc:707-726 | the size field computed for a routine announcement is the number of bytes then written |
| SiftFormat.OtherBytesRoundTrip | sift/sift_format.h:73-78 | header, fixed fields and payload of any other record are recovered from the stream, with the rest of the stream intact |
| SiftFormat.RecordRoundTrip | sift/sift_format.h:38-80 | every well-formed record of every kind, followed by any bytes, is parsed back to itself and those bytes |
| SiftWire.LowBytesFirst | sift/sift_format.h:6 | numbers are little-endian: the first bytes of a number are the number in that many bytes |
| SiftWire.FieldsInOrder | sift/sift_format.h:38-80 | each field of a record begins where the one before it ends and holds its value |
| SiftWire.TraceRecordsLaidOut | sift/sift_writer.cc:164-204 | code, code page, mapping, output, cache-only, routine change and end records, byte for byte: a zero, the type, the size of the rest in four bytes, fields of these widths, then the data |
| SiftWire.RequestsLaidOut | sift/sift_writer.cc:284-611 | the system call, emulation, join, instruction count and magic requests byte for byte, in the same way |
| SiftWire.AccessesLaidOut | sift/sift_reader.cc:537-596 | memory requests and memory responses byte for byte |
| SiftWire.RepliesLaidOut | sift/sift_format.h:82-109 | the requests without fields and all replies byte for byte |
| SiftWire.AnnounceLaidOut | sift/sift_writer.cc:707-726 | a routine announcement byte for byte, with its three counted strings and its size |
| SiftWire.CallRecordsInOrder | sift/sift_writer.cc:153-277 | a call writes the code that was not sent before, then the mappings that were not, then its own record |
| SiftWire.NothingSentTwice | sift/sift_writer.cc:158-206 | throughout a trace, from any state of the writer, no code and no mapping is sent twice, or again |
| SiftRoundTrip.GatherCovered | sift/sift_reader.cc:598-624 | code bytes gathered page by page are the bytes of the code image, also across page boundaries, once every byte was sent |
| SiftRoundTrip.StoreCovers | sift/sift_reader.cc:197-224 | a per-instruction code record makes all its bytes available, over every page it touches, whatever a new page held, and takes no byte away that was right before |
| SiftRoundTrip.CodeReceived | sift/sift_writer.cc:158-207 | in page mode and in per-instruction mode, what the writer sends ahead of an instruction leaves the reader with every byte it needs to decode it |
| SiftRoundTrip.StaticReceived | sift/sift_reader.cc:626-654 | successor shortcut, cache hit and fresh decode all give the static instruction that the cache holds for the address, with the bytes of the image |
| SiftReading.TakesExactlyWhen | sift/sift_reader.cc:598-654 | for any stream: the reader takes an instruction record if and only if the instruction is in its cache, with the same size unless it is the known successor of the previous one, or every page it lies in was received, with addresses that wrap at 64 bits; otherwise an assertion fires |
| SiftReading.TakenLeaves | sift/sift_reader.cc:462-519 | one more event is delivered for the instruction as cached, the next one is expected where it ends in 64 bits, nothing cached changes, and it becomes the successor of the previous one if that has none yet |
| SiftReading.ReadExactlyWhen | sift/sift_reader.cc:186-461 | a record other than an instruction that is written in full is read back if and only if the bytes after its fields are as many as the reader asserts for its type |
| SiftReading.AddressesAsserted | sift/sift_reader.cc:462-497 | an instruction record is read from any bytes if and only if it announces at most two data addresses and they are all there |
| SiftRoundTrip.MapsReceived | sift/sift_writer.cc:835-861 | page mappings are announced once, and the reader ends up with exactly the announced ones |
| SiftRoundTrip.ToldExactlyWhen | sift/sift_reader.cc:462-497 | over every run of calls, what is delivered is what the writer was told if and only if no instruction that is neither predicated nor executed comes where the next one is expected; such a one is delivered as executed |
| SiftRoundTrip.CallReceived | sift/sift_writer.cc:153-277 | one writer call, read by a reader that is in step, raises no assertion, yields exactly its own event and leaves the two in step |
| SiftRoundTrip.TraceRoundTrip | sift/sift_reader.cc:161-519 | whole-trace round trip: for every run of valid writer calls closed by End, from any point where both sides are in step, the reader delivers the instructions and callbacks in their order, with addresses, flags and code bytes, and knows for every address that an instruction, a cache-only call or a futex or write system call names the physical page of the page map or, in the vsyscall range, the page itself, and none where the page map has none; instructions and callbacks are exactly those the writer was told if and only if no instruction loses its executed flag |
| SiftRoundTrip.StartInStep | sift/sift_reader.cc:21-67 | a new writer and a new reader are in step, so the round trip holds for whole traces |
| SiftTrace.RepeatedReads | sift/sift_reader.cc:161-519 | calling Read until it reports the end gives what reading the whole trace in one go gives |
| SiftWriter.Writer.SendPages | sift/sift_writer.cc:186-206 | the loop over pages emits a page record for each page of the instruction not sent before, in order, and records them as sent |
| SiftWriter.Writer.SendVa2pa | sift/sift_writer.cc:835-861 | the page of 4096 bytes is written with the frame the page map has for it, or with itself in the vsyscall range, exactly if it was not written before and has one |
| SiftWriter.Writer.WriteInstruction | sift/sift_writer.cc:217-276 | the record is the simple one exactly for an unpredicated instruction at the expected address; small and extended records add up to the instructions written |
| SiftWriter.Writer.Instruction | sift/sift_writer.cc:153-277 | output and state are those of the specified writer step: missing code, missing mappings, then the record |
| SiftWriter.Writer.CacheOnly | sift/sift_writer.cc:312-341 | the call emits both mappings and then its record |
| SiftWriter.Writer.Output | sift/sift_writer.cc:343-363 | the call emits exactly its record and changes nothing else |
| SiftWriter.Writer.RoutineChange | sift/sift_writer.cc:693-705 | the call emits exactly its record and changes nothing else |
| SiftWriter.Writer.RoutineAnnounce | sift/sift_writer.cc:707-726 | the call emits exactly its record, with counted, zero-terminated strings and the right size field |
| SiftWriter.Writer.SendRequest | sift/sift_writer.cc:417-456 | a request emits the mappings of the arguments it carries, if it is one that does, and its record |
| SiftWriter.Writer.End | sift/sift_writer.cc:95-109 | End appends the end record |
| SiftReader.Reader.Decode | sift/sift_reader.cc:598-624 | the copy loop returns the specified code bytes, or fails exactly when a page was never received |
| SiftReader.Reader.Store | sift/sift_reader.cc:197-224 | the copy loop spreads a code record over the pages it touches as specified |
| SiftReader.Reader.GetStaticInstruction | sift/sift_reader.cc:626-654 | whichever way finds it, the object returned is the very object the cache holds for the address |
| SiftReader.Reader.Handle | sift/sift_reader.cc:186-461 | each kind of record has the specified effect on caches and callbacks, and unknown ones have none |
| SiftReader.Reader.Read | sift/sift_reader.cc:161-519 | one call of Read consumes records up to the next instruction, the end or an assertion, as specified; after the end it changes nothing |
| SiftProtocol.ReplyFollowsRequest | sift/sift_writer.cc:284-690 | the type of a reply is the one after that of its request, or that of a sync reply for an instruction count; sizes are eight bytes for system calls and magic instructions, up to 25 for emulation and four otherwise, and only system call, sync, magic and emulation requests serve memory accesses meanwhile |
| SiftProtocol.WriterServes | sift/sift_writer.cc:728-803 | a memory request is answered with the contents of the writer memory, or carried out on it, and both channels are as expected afterwards |
| SiftProtocol.WriterKeepsStep | sift/sift_writer.cc:461-481 | each writer step keeps the two processes in step |
| SiftProtocol.ReaderKeepsStep | sift/sift_reader.cc:521-596 | each reader step keeps the two processes in step |
| SiftProtocol.ExactlyOneMoves | sift/sift_writer.cc:417-485 | inside an exchange, once the reader has read everything before the request, exactly one process can move until the reply is taken: neither deadlock nor race |
| SiftProtocol.RunInStep | sift/sift_writer.cc:417-485 | an exchange by itself, for every finite handler: no protocol assertion fires on either side, and it is at most three steps per memory access and four more long |
| SiftProtocol.ExchangeRefinesDirect | sift/sift_reader.cc:280-314 | an exchange by itself that cannot go on has returned to the writer the value the handler computes when run directly on the writer memory, and has left that memory as the handler leaves it |
| SiftProtocol.AccessServedExactlyWhen | sift/sift_writer.cc:728-803 | the writer serves a memory access if and only if it is not empty and the request is one whose reply loop expects accesses; otherwise its assertion fires |
| SiftAssertions.WriterGoesOnExactlyWhen | sift/sift_writer.cc:461-481 | for any message that arrives: the waiting writer goes on if and only if it begins with a zero byte and is the reply with a size that fits, or a proper memory request while the request serves them; otherwise an assertion fires |
| SiftAssertions.AccessAnswered | sift/sift_writer.cc:728-803 | a proper memory request is answered under its own address and type, with the bytes read or none, and a write changes the memory |
| SiftAssertions.ReaderGoesOnExactlyWhen | sift/sift_reader.cc:557-595 | for any message that arrives: the reader takes it as the answer if and only if it is a memory response for the address asked for with the right number of bytes; otherwise an assertion fires |
| SiftAssertions.AccessAsked | sift/sift_reader.cc:537-553 | a memory request carries address, size, lock and type in this order, and the data of a write |
| SiftProtocol.PokePeek | sift/sift_writer.cc:728-803 | a write changes exactly the bytes it names |
| SessionProofs.CallEndsWith | sift/sift_writer.cc:417-456 | a request is the last record of its call, and no other record of any call is one, so the writer waits exactly where the reader serves |
| SessionProofs.WriterKeeps | sift/sift_writer.cc:153-485 | each step of the writer of a whole trace, ahead of the reader by any number of unread records, keeps the two in step |
| SessionProofs.ReaderKeeps | sift/sift_reader.cc:161-596 | each step of the reader, through the records still in the channel and through the requests it comes to, keeps the two in step |
| SessionRuns.SomeoneMoves | sift/sift_writer.cc:417-485 | no deadlock: in every reachable state of a session that is not over the writer or the reader can go on |
| SessionRuns.SessionIsSafe | sift/sift_reader.cc:161-596 | for every run of calls with requests over one pair of channels, under every interleaving, whatever records are unread when a request is sent: in every state no assertion has fired on either side, the events delivered are a first part of those of the calls, and replies and memory are those of the handlers run directly |
| SessionRuns.SessionEnds | sift/sift_writer.cc:417-485 | every interleaving of a session ends within a number of steps known from its calls and handlers |
| SessionRuns.SessionRefinesDirect | sift/sift_reader.cc:161-596 | a session that cannot go on has delivered exactly the events of its calls in their order, has given every request the reply its handler computes when run directly on the program memory, has left that memory as program and handlers leave it one after the other, and has emptied both channels |
| SchedulerProofs.PickAmongIsBest | common/scheduler/scheduler_pinned_base.cc:235-258 | the loop chooses a candidate with the highest score, the lowest id among equals, and none exactly when there is no candidate |
| SchedulerProofs.ChosenRunsNowhere | common/scheduler/scheduler_pinned_base.cc:279-281 | a chosen thread other than the current one is on no core, so the branch for a thread running elsewhere is dead |
| SchedulerProofs.RescheduleMoves | common/scheduler/scheduler_pinned_base.cc:221-290 | a reschedule takes the core from its thread, gives it to the chosen one, resets its quantum, logs both moves and touches nothing else |
| SchedulerProofs.RescheduleKeeps | common/scheduler/scheduler_pinned_base.cc:221-290 | a reschedule keeps the whole invariant, and repairs it when its core is the only one out of order |
| SchedulerProofs.FreeCoreIsFree | common/scheduler/scheduler_pinned_base.cc:23-33 | the free core found is the lowest idle core the thread may use, and none is found only if there is none |
| SchedulerProofs.CreateKeeps | common/scheduler/scheduler_pinned_base.cc:35-63 | placing a new thread keeps the invariant |
| SchedulerProofs.YieldKeeps | common/scheduler/scheduler_pinned_base.cc:65-87 | a yield keeps the invariant |
| SchedulerProofs.SetAffinityKeeps | common/scheduler/scheduler_pinned_base.cc:89-147 | changing an affinity keeps the invariant: a thread left where it may not run has no quantum left there |
| SchedulerProofs.StopKeeps | common/scheduler/scheduler_dynamic.cc:40-59 | a stall or an exit keeps the invariant: no stopped thread stays on a core |
| SchedulerProofs.RunKeepsInvariant | common/scheduler/scheduler_pinned_base.cc:35-290 | in every state of every run from an empty machine: core c records thread t exactly when t records c, the logged placements and moves replay to that map, a thread on a forbidden core has no quantum left there, and a started thread on a core is runnable |
| SchedulerProofs.TickSettlesEveryCore | common/scheduler/scheduler_pinned_base.cc:202-219 | after a periodic call at a later time every core that runs a started thread runs a runnable one that is allowed there |
| SchedulerEvents.IdleCoreTaken | common/scheduler/scheduler_pinned_base.cc:221-290 | an idle core that is rescheduled goes to the thread that has waited longest for it, in whole picoseconds and then by id, and stays idle exactly if none waits; all other threads and cores stay as they are |
| SchedulerEvents.StallStops | common/scheduler/scheduler_dynamic.cc:40-47 | a thread that stalls can no longer run, is on no core, and its core goes to the thread that has waited longest for it, or to none exactly if none waits, while other cores stay as they are; one still starting up keeps its core, and a stall that only says that the thread was unscheduled changes nothing |
| SchedulerEvents.ExitStops | common/scheduler/scheduler_dynamic.cc:55-59 | so does a thread that exits |
| SchedulerEvents.ResumeRunsExactlyWhen | common/scheduler/scheduler_pinned_base.cc:187-193 | a thread that resumes is on a core afterwards if and only if it was before, or nobody has waited longer for the lowest idle core it may use; that core is taken in any case |
| SchedulerEvents.StartRunsExactlyWhen | common/scheduler/scheduler_pinned_base.cc:172-178 | so for a thread that starts |
| SchedulerEvents.ResumedBesideIdleCore | common/scheduler/scheduler_pinned_base.cc:187-193 | a resumed thread can be left waiting while a core that it may use is idle, because the lowest one went to another thread |
| SchedulerEvents.CreatePlaces | common/scheduler/scheduler_pinned_base.cc:35-63 | a new thread starts up on the lowest idle core of its affinity, with a full quantum, and waits exactly if there is none; an affinity set before it was created stays |
| SchedulerEvents.YieldGivesWay | common/scheduler/scheduler_pinned_base.cc:65-87 | a started thread that yields leaves its core to a thread that has waited at least as long as any that left a core before now |
| SchedulerEvents.AffinityTakesHold | common/scheduler/scheduler_pinned_base.cc:89-147 | the affinity is the mask, or every core is added if none is given; a thread that asks for itself leaves a core it may no longer use and the lowest idle one it may use is taken, a thread that another asks for has no quantum left there, and one without a core has the lowest idle one it may use taken |
| SchedulerFairness.PickIsHead | common/scheduler/scheduler_pinned_base.cc:235-258 | with all scheduling times in the past, the choice among the threads pinned to a core is the one that has waited longest |
| SchedulerFairness.RescheduleRotates | common/scheduler/scheduler_pinned_base.cc:260-289 | each reschedule turns the ring of pinned threads by one place, and their waiting order stays the order of the ring |
| SchedulerFairness.OtherCoreLeavesRing | common/scheduler/scheduler_pinned_base.cc:221-290 | rescheduling another core leaves the ring as it is |
| SchedulerFairness.RunTurnsRing | common/scheduler/scheduler_pinned_base.cc:221-290 | however the reschedules of all cores interleave, after n turns of the core its ring has turned n places |
| SchedulerFairness.EveryThreadRuns | common/scheduler/scheduler_pinned_base.cc:221-290 | no starvation: within as many turns of the core as it has threads, every one of them gets it |
| SchedulerFairness.IdleCoreStarts | common/scheduler/scheduler_pinned_base.cc:221-290 | a core found idle starts its ring with the longest waiting thread |
| SchedulerTicks.TicksTurnRing | common/scheduler/scheduler_pinned_base.cc:202-219 | over every run of periodic calls, whatever other cores do, the ring of a core has turned as often as its quantum ran out, provided a quantum covers the penalty of the core |
| SchedulerTicks.TurnsBound | common/scheduler/scheduler_pinned_base.cc:202-219 | the time that passes is bounded by the turns: each of them takes at most a quantum and the gap between two periodic calls |
| SchedulerTicks.RingOf | common/scheduler/scheduler_pinned_base.cc:235-258 | from any set of threads that share a core the ring is constructed: the running one, and the others in the order in which they have waited |
| SchedulerTicks.NobodyStarves | common/scheduler/scheduler_pinned_base.cc:202-290 | no starvation by the clock: within the time of as many quanta as there are threads, each with the gap between two periodic calls, every thread that shares the core gets it |
| PinnedScheduler.SchedulerPinned.ChooseThread | common/scheduler/scheduler_pinned_base.cc:235-258 | the loop over threads computes the specified choice |
| PinnedScheduler.SchedulerPinned.Reschedule | common/scheduler/scheduler_pinned_base.cc:221-290 | both tables, the quantum, the scheduled-in and scheduled-out times and the move log become those of the specified reschedule |
| PinnedScheduler.SchedulerPinned.ThreadCreate | common/scheduler/scheduler_pinned_base.cc:35-63 | the object makes the create event of the proved runs, and the core returned is the one recorded for the thread |
| PinnedScheduler.SchedulerPinned.ThreadYield | common/scheduler/scheduler_pinned_base.cc:65-87 | the object makes the yield event of the proved runs, with both of its reschedules |
| PinnedScheduler.SchedulerPinned.ThreadSetAffinity | common/scheduler/scheduler_pinned_base.cc:89-147 | the loops over the mask give exactly the set of cores asked for, and the object makes the affinity event of the proved runs |
| PinnedScheduler.SchedulerPinned.ThreadStart | common/scheduler/scheduler_pinned_base.cc:172-178 | the object makes the start event of the proved runs: an idle core the thread may use is rescheduled |
| PinnedScheduler.SchedulerPinned.ThreadStall | common/scheduler/scheduler_pinned_base.cc:180-185 | nothing changes if the thread was only unscheduled; otherwise exactly this thread is no longer runnable and, in the states of the proved runs, a started one is on no core and its core has gone to the thread that has waited longest for it |
| PinnedScheduler.SchedulerPinned.ThreadResume | common/scheduler/scheduler_pinned_base.cc:187-193 | the object makes the resume event of the proved runs |
| PinnedScheduler.SchedulerPinned.ThreadExit | common/scheduler/scheduler_pinned_base.cc:195-200 | exactly this thread is no longer runnable and, in the states of the proved runs, a started one is on no core and its core has gone to the thread that has waited longest for it |
| PinnedScheduler.SchedulerPinned.Periodic | common/scheduler/scheduler_pinned_base.cc:202-219 | the loop over cores makes the tick event of the proved runs: every quantum charged, cores without quantum or thread rescheduled |
| BarrierProofs.PopKeeps | common/system/barrier_sync_server.cc:324-335 | the core signalled was blocked, is so no more, and leaves the queue |
| BarrierProofs.BarrierReleaseKeeps | common/system/barrier_sync_server.cc:239-322 | a release keeps every waiting core accounted for, moves both times on, and tells its caller to wait exactly if it is still held |
| BarrierProofs.ApplyKeepsExactlyWhen | common/system/barrier_sync_server.cc:56-157 | an event that runs into no assertion keeps the invariant if and only if it makes no thread wait on a core that is still queued for the wake-up of its previous one |
| BarrierProofs.RunKeepsInvariantExactlyWhen | common/system/barrier_sync_server.cc:56-335 | over every run up to its first assertion, whatever hooks, shuffles, running cores, groups and modes: in all states the blocked cores are those held and those queued, disjointly, nothing is queued twice, every wait was ended by one signal or goes on, and clocks are in order, if and only if no call doubles a wait |
| BarrierProofs.RunKeepsClocks | common/system/barrier_sync_server.cc:56-335 | in every state of every run, doubled waits or not: a core not held has a clock below the next barrier time, held cores belong to different threads, and a core that left without its clock cleared arrived before that time |
| BarrierProofs.RunGoesForward | common/system/barrier_sync_server.cc:239-322 | in every run the barrier time and the global time only grow, and the global time stays at or below the barrier time |
| BarrierProofs.ReachedMeansAllHeld | common/system/barrier_sync_server.cc:192-237 | a reached barrier has a held core and, in detailed mode, every running group master is held in it; it needs the order of clocks only, and so holds in the middle of a call as well |
| BarrierProofs.CallReachedMeansAllHeld | common/system/barrier_sync_server.cc:91-97 | so it is where a call asks whether the barrier is reached, its core being held and not waiting yet |
| BarrierProofs.StopReachedMeansAllHeld | common/system/barrier_sync_server.cc:149-157 | and where a stopped thread asks; the release then always has a core to let go |
| BarrierProofs.RunReachedMeansAllHeld | common/system/barrier_sync_server.cc:192-237 | and in every state of every run, doubled waits or not |
| BarrierOutcomes.ReachedExactlyWhen | common/system/barrier_sync_server.cc:192-237 | in fast-forward mode the barrier is reached if and only if some core is held and every running one is; in detailed mode if and only if some running group master has come up to the barrier time and every one has, a master running with its own thread or with that of a sibling |
| BarrierOutcomes.DoReleaseWakes | common/system/barrier_sync_server.cc:324-335 | the last n of the queue are signalled, the last one first, or all of them for a negative n; they wait no longer and leave the queue |
| BarrierOutcomes.ReleaseLetsGo | common/system/barrier_sync_server.cc:239-322 | whatever the hooks do, a release lets go exactly the held cores whose clock is below the new barrier time, at least one; each of them but the one of the caller is signalled or queued once more than before and nobody else is, and the caller must wait exactly if no core of its thread was let go |
| BarrierOutcomes.StillRelease | common/system/barrier_sync_server.cc:265-322 | with hooks that do nothing the barrier time goes up by whole intervals and no further than it takes to pass the clock of a held core, and as many cores as there are host cores are signalled in detailed mode, all in fast-forward mode |
| BarrierOutcomes.FastReleaseFreesAll | common/system/barrier_sync_server.cc:251-322 | in fast-forward mode such a release lets every core go and empties the queue, moves the global time to the latest recorded clock or the barrier time, and sets the barrier one interval after it |
| BarrierOutcomes.CallOutcome | common/system/barrier_sync_server.cc:56-105 | a call before the barrier time in detailed mode leaves the tables alone; any other call puts the time, hold and thread of its core, in detailed mode of its group master, on record, wakes one queued core, and waits exactly if the barrier is not reached or its release lets no core of this thread go |
| BarrierOutcomes.StopOutcome | common/system/barrier_sync_server.cc:107-123 | a thread that stops has exactly the clocks of its held cores cleared and one queued core woken, and releases the barrier if it is reached then |
| BarrierOutcomes.MigrationOutcome | common/system/barrier_sync_server.cc:125-132 | a migrated thread has exactly the clocks of its held cores cleared and one queued core woken, and nothing else happens |
| BarrierOutcomes.HookOutcome | common/system/barrier_sync_server.cc:265-270 | whatever a hook does as the barrier advances: the mode is that of its last switch, the barrier time the latest of those given and its own, and exactly the held cores of migrated threads have their clock cleared |
| BarrierOutcomes.GroupOutcome | common/system/barrier_sync_server.cc:363-370 | a core put into a group is entered for its master from then on in detailed mode, and every other core as before |
| BarrierOutcomes.SwitchOutcome | common/system/barrier_sync_server.cc:372-382 | a switch between calls sets the mode and raises the barrier time to the one given if that is later |
| BarrierProofs.QueuedAtReachedHaveStopped | common/system/barrier_sync_server.cc:249 | when the assertion that everybody was woken can fire, between calls or in the middle of one: every core still queued at a reached barrier has stopped running or belongs to another master |
| BarrierProofs.CallFindsQueueRunning | common/system/barrier_sync_server.cc:76-97 | a call of a core that is neither in the barrier nor queued runs into no assertion if the cores queued all run and are in no group |
| BarrierProofs.StopFindsQueueRunning | common/system/barrier_sync_server.cc:107-157 | nor does a thread that stops |
| BarrierRuns.QueuedCoreDoubles | common/system/barrier_sync_server.cc:86-102 | the failing case is reached from the start: with four cores and one host core, a waiting thread is migrated as the barrier advances, its core is queued, and the thread that replaces it there calls and is let in beside it |
| BarrierRuns.ReachedWhileQueued | common/system/barrier_sync_server.cc:249 | that assertion is reached from the start: three threads are migrated as the barrier advances, and the only core still running arrives while another is queued |
| Barrier.AdvanceCloser | common/system/barrier_sync_server.cc:265-313 | while no held core is due, one more pass of the release loop brings the next barrier time closer to the least clock held, even if the hook clears clocks or raises the barrier time; the loop ends |
| Barrier.MaxClock | common/system/barrier_sync_server.cc:251-259 | in fast-forward mode the barrier skips to the latest recorded clock, or stays where it is if no clock is later |
| BarrierClient.FilterIsExact | common/system/barrier_sync_client.cc:35-45 | for every barrier time, the next time of the client is within it exactly if the last call was before the last multiple of the interval up to it |
| BarrierClient.ApplySame | common/system/barrier_sync_server.cc:56-157 | what the server does depends on its own tables alone, not on the record of arrivals |
| BarrierFilter.FilterRefinesExactlyWhen | common/system/barrier_sync_client.cc:28-46 | two runs side by side, clients that filter against clients that always ask, for every run of calls, returns and other events with any hooks, groups and modes: the server goes through the same tables if and only if every skipped call would have been let through at once |
| BarrierFilter.CallMadeExactlyWhen | common/system/barrier_sync_client.cc:28-46 | a client makes the call if and only if it is told to in spite of the clock or its time has come up to the next multiple of the interval after the call it returned from last |
| BarrierFilter.RunStaysInOrder | common/system/barrier_sync_client.cc:35-45 | in every run from the start, with any hooks, groups and modes, the client of every core returned last from a call made before the barrier time, or from one whose clock was cleared while it waited |
| BarrierFilter.SkippedCallsAreHarmless | common/system/barrier_sync_client.cc:28-46 | so they do in every run in which clients skip only in detailed mode and only if they asked last before the last multiple of the interval up to the barrier time |
| BarrierDetailed.DetailedRunsCoincide | common/system/barrier_sync_client.cc:28-46 | and in every detailed-mode run from the start, with any groups and with the barrier time raised to multiples of the interval at most, if no client skips a call after one whose clock was cleared while it waited |
| BarrierClient.FilterSafeExactlyWhen | common/system/barrier_sync_client.cc:35-45 | in detailed mode all calls a client skips would have been let through if and only if its last call was before the last multiple of the interval up to the barrier time |
| BarrierDetailed.ClearedCoreOverruns | common/system/barrier_sync_server.cc:134-147 | the failing family: a thread that stops while its core waits at or beyond the next barrier time leaves a client that, back from that call, skips a call the server would have held back |
| FilterRuns.ClearedCoreIsMissed | common/system/barrier_sync_client.cc:35-45 | it is reached from the start with two cores |
| FilterRuns.RaisedBarrierIsMissed | common/system/barrier_sync_server.cc:372-382 | a barrier time set off the grid of intervals makes the client skip such a call as well, from the start with one core |
| BarrierServer.BarrierSyncServer.Synchronize | common/system/barrier_sync_server.cc:56-105 | the call changes the tables as specified: let through, hold, or release; before the barrier time in detailed mode it neither waits nor changes anything but the record of arrivals |
| BarrierServer.BarrierSyncServer.BarrierRelease | common/system/barrier_sync_server.cc:239-322 | skip, advance loop, release pass, shuffle and wake-ups change the tables as specified, as BarrierOutcomes.ReleaseLetsGo describes, and the flag returned says whether the caller must wait |
| BarrierServer.BarrierSyncServer.IsBarrierReached | common/system/barrier_sync_server.cc:192-237 | the loop decides it: in fast-forward mode some core is held and every running one is, in detailed mode some running group master has come up to the barrier time and every one has |
| BarrierServer.BarrierSyncServer.ReleaseThread | common/system/barrier_sync_server.cc:134-147 | exactly the clocks of held cores of the thread are cleared, and the core at the back of the queue is signalled |
| BarrierServer.BarrierSyncServer.DoRelease | common/system/barrier_sync_server.cc:324-335 | the last n of the queue are signalled, the last one first, wait no longer and leave the queue |
| BarrierServer.BarrierSyncServer.Signal | common/system/barrier_sync_server.cc:149-157 | a reached barrier is released without a caller |
| BarrierServer.BarrierSyncServer.StopThread | common/system/barrier_sync_server.cc:107-123 | a stopped thread is the stop event of the proved runs: clocks cleared, one core signalled, a reached barrier released |
| BarrierServer.BarrierSyncServer.SetFastForward | common/system/barrier_sync_server.cc:372-382 | the mode is the one given and the barrier time the later of its old value and the one given, inside a hook or between calls |
| BarrierServer.BarrierSyncServer.SetGroup | common/system/barrier_sync_server.cc:363-370 | the group table changes as in the proved runs |
| BarrierServer.BarrierSyncClient.Synchronize | common/system/barrier_sync_client.cc:28-39 | the client takes the step of the clients of the proved runs: it skips the call, or makes it on the server |
| BarrierServer.BarrierSyncClient.Returned | common/system/barrier_sync_client.cc:41-44 | once the call has come back, and not before, the client notes when it asks again, as the clients of the proved runs do |
| HistoryQueue.ScanCarves | common/performance_model/queue_model_history_list.cc:148-192 | a granted slot that fits its entry comes out of recorded free time; what stays free was free before, none of it in the slot, and the list stays sorted, disjoint and long enough |
| HistoryQueue.ScanTakesExactly | common/performance_model/queue_model_history_list.cc:148-192 | of the free time exactly the slot goes, and with it the remnants beside it that are shorter than the minimum |
| HistoryQueue.OldestForgotten | common/performance_model/queue_model_history_list.cc:189-192 | a list over its limit loses exactly its oldest entry and the free time in it, and a list within its limit loses nothing |
| HistoryQueue.DelayIsLeast | common/performance_model/queue_model_history_list.cc:148-192 | no smaller delay fits the recorded free time |
| HistoryQueue.GrantsFitExactlyWhen | common/performance_model/queue_model_history_list.cc:148-192 | on every sorted list of free intervals, reached by a run or not, every grant stays inside free time if and only if the work is no longer than the minimum; longer work can put an interval into the list that ends before it starts |
| HistoryQueue.SlotsApartExactlyWhen | common/performance_model/queue_model_history_list.cc:140-197 | for every limit of the list: over all runs of requests with work up to a bound, from the start and within the horizon, all are served in slots that do not overlap if and only if the list has room for one entry only or the bound is no longer than the minimum |
| HistoryQueue.LongWorkOverlaps | common/performance_model/queue_model_history_list.cc:148-192 | the failing run for every limit above one: work of any length above the minimum is granted a gap it does not fit, on top of a slot granted before |
| HistoryQueue.LimitKept | common/performance_model/queue_model_history_list.cc:143-144 | the list never outgrows its limit, so the assertion on its size cannot fire |
| HistoryQueue.RequestServed | common/performance_model/queue_model_history_list.cc:140-197 | one request within the minimum is served inside free time with the least delay, and the queue stays consistent after the list is trimmed |
| HistoryQueue.QueueIsSafe | common/performance_model/queue_model_history_list.cc:140-197 | every run of requests, in any order of arrival, is served in full, never before arrival, and no two service slots overlap |
| Contention.UnitIsEarliest | common/performance_model/contention_model.cc:196-211 | the slot taken is a free one if there is any, and otherwise the one that finishes first; ties go to the lower index |
| Contention.BeginIsEarliest | common/performance_model/contention_model.cc:191-231 | a request starts at the later of its arrival and the earliest finish of any slot |
| Contention.CompleteTakesSlot | common/performance_model/contention_model.cc:191-231 | a request in order takes one slot, the first free one or else the first of the earliest to finish, from the later of its arrival and that finish on, under its tag; other slots stay, and a request with the same tag never finds the model full |
| Contention.BarrierWaitsForAll | common/performance_model/contention_model.cc:122-145 | a barrier begins at the latest of its own time and all finish times and no later; then every slot is busy with it until it ends, under its tag, and the time of the last request stays |
| Contention.StartTimePredictsExactlyWhen | common/performance_model/contention_model.cc:246-284 | the peek predicts the start then used, except exactly for time zero with all slots busy before any request |
| Contention.QueriesAgree | common/performance_model/contention_model.cc:48-99 | no free slot, all slots used and having to wait are the same thing |
| Contention.OpKeepsOrder | common/performance_model/contention_model.cc:122-145 | requests and barriers keep the services of each slot one after another |
| Contention.NeverOvercommits | common/performance_model/contention_model.cc:158-236 | at any instant of any in-order run of requests and barriers at most as many requests are in service as there are slots |
| Contention.OutOfOrderOvercommits | common/performance_model/contention_model.cc:169-190 | out of order that fails, with any number of slots and from any state: after a run that fills all slots, an early request is one too many |
| QueueModels.SameDelay | common/performance_model/queue_model_history_list.cc:148-192 | one in-order request has the same delay in all three models, which still describe one queue afterwards |
| QueueModels.ModelsCoincide | common/performance_model/queue_model_contention.cc:10-17 | on every non-decreasing run of positive arrival times within the horizon the history list, the one-slot contention model and the basic model return the same delay at every step |
| QueueModels.NewModelsAgree | common/performance_model/queue_model_history_list.cc:10-48 | newly made models describe the same empty queue |
| QueueModels.QueueModelHistoryList.ComputeUsingHistoryList | common/performance_model/queue_model_history_list.cc:140-197 | the scan that erases and inserts during the walk computes the specified grant and list |
| QueueModels.QueueModelHistoryList.ComputeQueueDelay | common/performance_model/queue_model_history_list.cc:55-86 | analytical path or list as the condition on the oldest entry says, with the specified delay |
| QueueModels.ContentionModel.GetCompletionTime | common/performance_model/contention_model.cc:158-236 | the slot loop computes the specified completion time and slots |
| QueueModels.ContentionModel.GetStartTime | common/performance_model/contention_model.cc:246-284 | the peek loop computes the specified start time |
| QueueModels.ContentionModel.GetBarrierCompletionTime | common/performance_model/contention_model.cc:122-145 | the completion time less the delay is the latest of the time given and all finish times, and every slot then has that completion time and the tag |
| QueueModels.QueueModelContention.ComputeQueueDelay | common/performance_model/queue_model_contention.cc:10-17 | the delay is completion less arrival and work |
| AllocatorProofs.UsedIsLiveOrFree | common/misc/FSBAllocator.hh:73-104 | every unit below the end of the used part is live or on the free list, and none is both |
| AllocatorProofs.BlockAllocateKeeps | common/misc/FSBAllocator.hh:73-95 | a block that is not full hands out a unit nobody has, in bounds, and changes no word of any element |
| AllocatorProofs.BlockDeallocateKeeps | common/misc/FSBAllocator.hh:97-104 | a freed unit heads the free list, its trailer stays, no other element is touched, and the last one freed empties the block |
| AllocatorProofs.BlockStoreKeeps | common/misc/FSBAllocator.hh:73-104 | whatever a client stores in its element, free list and trailers stay intact |
| AllocatorRuns.AllocateKeeps | common/misc/FSBAllocator.hh:124-147 | an allocation never strays, returns a pointer nobody holds and leaves all other elements alone; it is refused exactly when every unit is taken and one more block would exceed the limit |
| AllocatorRuns.FreeKeeps | common/misc/FSBAllocator.hh:149-160 | freeing finds the own block of the element by its trailer alone, and takes away this element and nothing else |
| AllocatorRuns.EveryRunIsAHeap | common/misc/FSBAllocator.hh:124-160 | over every run of allocations, frees and stores the raw memory is the heap of separate cells the clients believe in: no access strays, every pointer in use reads back what was last stored through it, there are as many as were allocated and not freed, and the next one is different from all of them |
| ElemAllocator.MemBlock.Allocate | common/misc/FSBAllocator.hh:73-95 | the raw array with its embedded list, the list head, the counter and the end become those of the specified allocation, at the offset returned |
| ElemAllocator.MemBlock.Deallocate | common/misc/FSBAllocator.hh:97-104 | the link is written into the freed unit, and head and counter become those of the specified deallocation |
| ElemAllocator.ElemAllocator.Allocate | common/misc/FSBAllocator.hh:124-147 | blocks and the stack of non-full blocks change as specified, the invariant holds, and the address is new to the clients |
| ElemAllocator.ElemAllocator.Deallocate | common/misc/FSBAllocator.hh:149-160 | null is ignored; otherwise blocks and stack change as specified and exactly this pointer is gone |
| MeshRouting.StepCloser | common/network/network_model_emesh_hop_by_hop.cc:410-429 | every step along a dimension brings the packet one step closer, also across the edge of a torus |
| MeshRouting.QuotientIsDivision | common/network/network_model_emesh_hop_by_hop.cc:299-304 | quotient and remainder by repeated subtraction, with which positions are computed, are division and remainder |
| MeshRouting.CoreIdPosition | common/network/network_model_emesh_hop_by_hop.cc:299-312 | core ids and positions are inverse on node masters |
| MeshRouting.LinkGoesToNeighbour | common/network/network_model_emesh_hop_by_hop.cc:379-436 | a link leads to the neighbour on the side it is named after, and x is settled before y |
| MeshRouting.PeerIsMaster | common/network/network_model_emesh_hop_by_hop.cc:398-403 | a core that is not the master of its node would send to the master of that node first |
| MeshRouting.Forward | common/network/network.cc:164-189 | the forwarding loop over any network whose decisions count down ends at the destination after exactly the links there were to go |
| MeshRouting.NetSend | common/network/network.cc:164-189 | from any core to any core the loop ends at the destination and every hop is the decision of the router reached; from a node master to a core of the mesh all cores in between are masters and the links crossed are the number left at the start, and otherwise the packet goes over in one hop and crosses none |
| MeshRouting.HopsAreDistance | common/network/network_model_emesh_hop_by_hop.cc:284-297 | that number is the distance, plus one exactly for each odd ring crossed by half its length rounded up; so it is the distance on every mesh and every even torus |
| SetLock.StepKeepsInv | common/misc/setlock.cc:13-66 | every step of every thread keeps the ownership of each mutex in line with where the threads are |
| SetLock.HoldersAreExclusive | common/misc/setlock.cc:13-51 | under every interleaving an exclusive holder owns all mutexes and nobody else owns any; a shared holder owns exactly one mutex, and no two own the same; SetLockSharing says which |
| SetLock.ExclusionExactlyWhen | common/misc/setlock.cc:4-23 | exclusive access excludes others under all schedules if and only if there is at least one sharer |
| SetLock.DowngradeNeverLetsGo | common/misc/setlock.cc:60-66 | during a downgrade nobody else becomes exclusive, and it ends with exactly the own mutex held |
| SetLock.MutexesUsedProperly | common/misc/setlock.cc:13-66 | a mutex is released only by its owner, and no thread waits for a mutex it holds |
| SetLock.SomeoneCanFinish | common/misc/setlock.cc:13-23 | as long as some thread is inside, some thread can go on: an owner that waits does so for a mutex of higher index |
| SetLock.EveryScheduleDrains | common/misc/setlock.cc:13-66 | without new calls every interleaving takes exactly the same number of moves to leave the lock with every thread out, and can always go on until then |
| SetLock.UpgradeIsNotAtomic | common/misc/setlock.cc:53-58 | with any number of sharers, whenever no other mutex is locked, any idle thread can become exclusive between the two halves of an upgrade |
| SetLockSharing.SharesExactlyWhen | common/misc/setlock.cc:34-44 | a shared acquire goes through if and only if nobody is exclusive over the mutex of its core, or on the way to or from that past it, and no other thread holds shared access for that core; the thread then owns the mutex core - offset and no other |
| SetLockSharing.AllCanShare | common/misc/setlock.cc:34-44 | for any offset and number of sharers, any threads that name different cores all hold shared access at once, each with the mutex of its core alone |
| SetLockSharing.DowngradeKeepsItsMutex | common/misc/setlock.cc:60-66 | a downgrade that is not interrupted leaves the thread with the mutex of the core named and unlocks all others |
| SetLockSharing.SharedHolderHasItsCore | common/misc/setlock.cc:34-66 | under every interleaving a thread that names one core in its shared acquires and downgrades owns the mutex of that core and no other whenever it holds shared access |
| MemoryTracker.OwnerCovers | common/system/memory_tracker.cc:127-137 | on disjoint ranges the least key above an address finds the one range that has it, and finds none only if there is none |
| MemoryTracker.InsertOwner | common/system/memory_tracker.cc:83-109 | an orderly allocation keeps the ranges disjoint, gets its whole range, and leaves the owner of every other address |
| MemoryTracker.GoodExactlyWhen | common/system/memory_tracker.cc:83-114 | disjoint ranges together with agreement survive an allocation if and only if every range it meets holds its first line or ends where it ends, and an empty one touches none |
| MemoryAgreement.AgreesExactlyWhen | common/system/memory_tracker.cc:83-142 | agreement with the per-line map alone, which is what the code asserts, survives an allocation on ranges that may overlap if and only if the ranges that end inside the new one have its site and leave no gap, and what is left of the range that holds the first line may replace what ended there |
| MemoryTracker.SwallowedRangeForgets | common/system/memory_tracker.cc:88-109 | the failing family: a range that ends strictly inside the new one makes the index forget the owner of the first line |
| MemoryAgreement.RunAgreesExactlyWhen | common/system/memory_tracker.cc:66-145 | over every run of allocations from the empty tracker, overlapping in any way, the index gives every address the owner the per-line map has, after every call, if and only if every call keeps the agreement when it comes |
| MemoryAgreement.RunGoodExactlyWhen | common/system/memory_tracker.cc:66-145 | over every run the ranges stay disjoint as well, if and only if every allocation is orderly when it comes |
| MemoryAgreement.MeetsItsBytes | common/system/memory_tracker.cc:84 | an allocation meets a cache line exactly if one of its bytes lies in it |
| MemoryAgreement.RunFindsLastOwnersExactlyWhen | common/system/memory_tracker.cc:66-145 | over every run of allocations: after every call the index gives every address the site of the last allocation that met its cache line, and none if none did, if and only if every call keeps the agreement when it comes |
| MemoryAgreement.Tracker.LogMalloc | common/system/memory_tracker.cc:83-114 | split, erase, insert and the marking loop give the specified maps; the per-line map gives exactly the cache lines that the allocation meets to its site, and the two still agree exactly when the allocation keeps the agreement |
| MemoryAgreement.Tracker.GetOwner | common/system/memory_tracker.cc:127-145 | the owner found by the index, which is that of the per-line map while the two agree |

## Left out

- Trace file header, compression and file streams: both channels are ideal byte sequences.
- Decoding of instruction bytes into operations: the decoder is outside; the model goes up to the bytes handed to it.
- The code image and the page map are fixed functions during a run; self-modifying code is not modelled.
- Instructions that end in the last page of the 64-bit address space: the writer's page loop would wrap around there.
- Code pages in the reader are values in a map, not buffers on the heap, so aliasing of two page buffers is not captured.
- The pre-read of user memory before a system call request (force_read) and the verbose output paths.
- The reader's position, length and verbose counters, and the writer's size histograms.
- SiftProtocol.ExactlyOneMoves: for one exchange by itself, with nothing before the request in the channels; while the writer is ahead both can move, and SessionRuns.SomeoneMoves says that one of them always can.
- SiftProtocol.RunInStep: for one exchange by itself; SessionRuns.SessionIsSafe and SessionRuns.SessionEnds have unread trace records before every request.
- SiftProtocol.ExchangeRefinesDirect: for one exchange by itself; SessionRuns.SessionRefinesDirect has unread trace records before every request.
- SessionRuns.SessionRefinesDirect: for one thread; a handler is any function of the events so far and of the answers it got, with a bound on its actions, and records and messages are written whole.
- The reply loop of a system call has no default case and would skip the header of a record it does not expect; the model counts that as an assertion, and shows that it is never reached.
- BarrierProofs.RunKeepsInvariantExactlyWhen: for runs up to the first assertion of the server, with calls by threads that are not themselves held in the barrier, since a blocked thread does not call.
- Re-entry of the scheduler from the move hook, growth of the thread tables, initial affinity policies (any set of cores is allowed), and threadGetAffinity.
- SchedulerFairness.EveryThreadRuns: for reschedules of a core more than its own number of picoseconds apart, because the scheduled-out time is offset by that much.
- SchedulerTicks.NobodyStarves: for runs of periodic calls alone, from a state in which the scheduling times of the threads lie before the next time their core can change hands, and for a quantum above that offset.
- SchedulerEvents.YieldGivesWay: when a thread waits that left a core before now; otherwise the choice is the one of SchedulerProofs.PickAmongIsBest.
- BarrierOutcomes.StillRelease: for hooks that do nothing; BarrierOutcomes.ReleaseLetsGo has any hooks.
- BarrierOutcomes.FastReleaseFreesAll: for hooks that do nothing; a hook may switch the mode while the barrier advances.
- Hooks that re-enter the barrier, abortBarrier, setDisable and advance; the hook is any series of thread releases, mode switches and raises of the barrier time.
- setBarrierInterval, which nothing calls: the interval is constant in a run.
- BarrierDetailed.DetailedRunsCoincide: gives a sufficient condition for one mode; the exact one, for all runs, is in BarrierFilter.FilterRefinesExactlyWhen.
- The condition variables of the barrier: waiting and signalling are the sets and logs blocked, signals and waits; a client may return from its call as soon as its thread is no longer held, also before it is signalled.
- The moving averages, the utilisation statistics and the value of the analytical queue formula, which is a parameter of the model; conversion of cycles to times.
- Tag look-ups of the contention model other than the free-slot query, and its counters.
- Broadcast routing, latencies and port queues of the mesh, and the choice of its dimensions: the number of cores is concentration times width times height.
- SetLock: the acquire and release loops are program counters of a state machine, not loops of methods, so that other threads can step between iterations; cores outside the range are rejected as the assertions of acquire_shared do. The alternative SELock is not built.
- Fairness of the mutexes: that a particular waiting thread gets in needs a fair mutex.
- AllocatorRuns.EveryRunIsAHeap: for elements of at least one word, as every C++ object has; a unit of a zero-sized element would have its trailer in the word of the link.
- MemoryAgreement.Tracker.LogMalloc: for allocations that end inside the 64-bit address space; the per-site counters and the access and eviction notifications are not modelled, and a site is identified with its call stack.
- Pin front end, Python scripting, statistics database, caches, DRAM and core timing models, and the other network models.
