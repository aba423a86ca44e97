# DarwinCore: verified models of its concurrent and stateful cores

DarwinCore is a C++ library for macOS: a network layer (framing protocol, reactor, send buffer, worker
pool) and a foundation layer (lock-free queues, locks, containers, calendar, text encodings, process tree,
memory pool). This project models the parts whose correctness only shows over whole runs and proves what
they promise, for every input, every run and every interleaving.

`dafny verify dfyconfig.toml` checks the whole project.

| File | Models |
|---|---|
| MpmcRingQueue.dfy, RingProgress.dfy, RingCapacity.dfy | the bounded multi-producer multi-consumer queue, one step per atomic access; what a call that runs alone achieves; the rounding of the capacity |
| ReadWriteLock.dfy | the writer-preferring lock, one step per critical section, with sleeping and woken threads |
| Bytes.dfy, Crc32.dfy | little-endian fields; the table-driven CRC-32 against its bit-by-bit register |
| Frames.dfy, Decoder.dfy, DecoderObject.dfy, Acceptance.dfy, Reassembly.dfy, Redelivery.dfy, Protocol.dfy | the framing codec: slicing, incremental decoding, what is accepted and what is refused, reassembly, repeated and damaged frames |
| SendBuffer.dfy | the compacting, growing send buffer on a real array |
| ConnectionId.dfy, Reactor.dfy, ReactorFlow.dfy, ReactorBytes.dfy, ReactorObject.dfy | the reactor's connection machine: tables, backpressure, events, what peers are sent and callers get in terms of the sockets' answers, byte counter; the methods that update it in place |
| WorkerPool.dfy | submission, worker loops, bounded queues and stopping, interleaved |
| ProcessTree.dfy | the process forest with cached counts and cascading cleanup |
| MemoryPool.dfy | the segregated free lists, with links in client-writable memory |
| LruCache.dfy, LruCacheObject.dfy | recency order and inclusion; the list-and-map implementation |
| Encoding.dfy | the UTF-8, UTF-16 and UTF-32 converters |
| Calendar.dfy | Julian day arithmetic, days of the week, weekday search |

Concurrent code is a state machine: `Enabled` says which steps may happen, `Next` what each does, and a
`Reachable` state is one that some legal interleaving leads to. Objects that the source updates in place are
classes; each method's postcondition equates the new abstract state with a function of the old one, and the
results about runs are proved of those functions. Sockets, the clock, the system allocator and the kernel's
choice of descriptors are parameters: a socket accepts any prefix, would block, is interrupted, or fails.

Results that say exactly when the code meets a property it does not always meet:

* the ring queue is a bounded FIFO in all its runs exactly from two cells on (`SafeExactlyFromTwoCells`), and
  gets two cells exactly from requests between 2 and 2^63 (`EnoughCellsExactly`);
* a message survives slicing exactly when it has between 1 and 65535 slices' worth of bytes
  (`SlicingExactlyWithinLimit`), because the slice count is cast to 16 bits; a slightly larger one is
  truncated without an error (`OversizedMessageIsTruncated`);
* UTF-32 survives UTF-8 exactly when every code point is below 0x200000 (`Utf32RoundTrip`), and valid UTF-8
  survives decoding exactly when it is in shortest form (`Utf8RoundTrip`);
* `dayOfWeek` is right exactly from 1 March 0000 on and, before, in leap years (`DayOfWeekExactly`), because of
  truncating division;
* Stop loses no accepted event, in any continuation, exactly when no SubmitEvent call is between its test of the
  flag and its return when Stop clears it (`StopLosesNothingExactly`);
* a sequence of frames ends in one delivery per complete message and nothing else exactly when no slice was sent
  of a message already complete (`ExactlySchedules`);
* a byte stream leaves the decoder waiting exactly when it is a number of well-formed frames and a strict part of
  one more (`WaitsExactly`), and is refused with BadMagic, BadVersion or PayloadTooLarge exactly when such frames are
  followed by a header with that fault (`ThrowsExactly`);
* `utf8ToUtf32` yields text, runs forever or reads outside its input exactly by where striding over the announced
  lengths ends (`Utf32EndsExactly`);
* the reactor's byte counter equals the bytes on the wires exactly when no direct send was taken in part
  (`CounterMissesParts`);
* `LRUCache::get` keeps the inclusion of a smaller cache in a larger one exactly unless it hits only in the
  larger one while the smaller one is not empty (`GetKeepsInclusionExactly`);
* registering a connection keeps the reactor's tables inverse exactly when its descriptor is free
  (`InverseExactlyIfFdFree`).

Where the code and its comments disagree, the model follows the code: send_buffer.h describes water marks of
4 and 16 MB where the constants are 8 and 32 MiB; protocol.h speaks of network byte order where the headers
are copied in host order, which is little-endian on the supported machines.

## Model

| member | source | states |
|---|---|---|
| `MpmcRingQueue.DeliversFifo` | include/darwincore/foundation/container/RingQueue.h:162-202 | in every interleaving of any number of threads the values popped are the values pushed at the same positions, each position at most once, and head <= tail <= head + capacity, with as many cells as the capacity |
| `MpmcRingQueue.QuiescentNothingLost` | include/darwincore/foundation/container/RingQueue.h:162-202 | with no call in flight every claimed pop has returned and everything between head and tail lies published in its cell |
| `MpmcRingQueue.RefinesBoundedQueue` | include/darwincore/foundation/container/RingQueue.h:162-202 | the winning push CAS appends to an abstract queue that has room, the winning pop CAS removes its front, and no other step changes it |
| `MpmcRingQueue.PopReturnsItsValue` | include/darwincore/foundation/container/RingQueue.h:183-202 | a successful pop returns the value pushed at its position, which no pop returned before |
| `MpmcRingQueue.PushFailsExactlyWhenFull` | include/darwincore/foundation/container/RingQueue.h:162-178 | push returns false exactly when its position is still the tail and the pop of the previous lap has not released the cell |
| `MpmcRingQueue.PopFailsExactlyWhenEmpty` | include/darwincore/foundation/container/RingQueue.h:183-199 | pop returns nullopt exactly when its position is still the head and is not published |
| `MpmcRingQueue.OnlyOwnerTouchesCell` | include/darwincore/foundation/container/RingQueue.h:162-202 | between a thread's CAS and its sequence store no other thread changes its cell |
| `MpmcRingQueue.ReachableStep` | include/darwincore/foundation/container/RingQueue.h:162-202 | reachable states are closed under every enabled step, so the results above cover all runs |
| `MpmcRingQueue.StepInv` | include/darwincore/foundation/container/RingQueue.h:162-202 | every atomic step of every thread keeps the queue's invariant |
| `MpmcRingQueue.InitInv` | include/darwincore/foundation/container/RingQueue.h:153-158 | the constructed queue meets the invariant |
| `MpmcRingQueue.OneCellOverfills` | include/darwincore/foundation/container/RingQueue.h:153-202 | with one cell some run overfills the queue |
| `MpmcRingQueue.SafeExactlyFromTwoCells` | include/darwincore/foundation/container/RingQueue.h:153-202 | all runs are bounded FIFO runs if and only if there are at least two cells |
| `RingProgress.PushCall` | include/darwincore/foundation/container/RingQueue.h:162-181 | from every reachable state, whatever other threads are in the middle of: a push made alone returns within six steps; it fails and changes nothing exactly if the cell at the tail is not released, otherwise its value is last in the queue and published |
| `RingProgress.PopCall` | include/darwincore/foundation/container/RingQueue.h:183-202 | the same of pop: it fails and changes nothing exactly if the front is not published, otherwise it returns the front and frees its cell for the next lap |
| `RingProgress.SoloPush` | include/darwincore/foundation/container/RingQueue.h:162-181 | obstruction freedom from any point of push before its CAS wins, also from a stale position |
| `RingProgress.SoloPop` | include/darwincore/foundation/container/RingQueue.h:183-202 | and of pop |
| `RingProgress.SoloPublish` | include/darwincore/foundation/container/RingQueue.h:178-181 | a push that has won its CAS publishes its value at its position in two steps of its own |
| `RingProgress.SoloRelease` | include/darwincore/foundation/container/RingQueue.h:199-202 | a pop that has won its CAS returns the value pushed at its position and releases the cell in two steps of its own |
| `RingCapacity.NextPowerOfTwo` | include/darwincore/foundation/container/RingQueue.h:209-220 | for requests from 1 to 2^63 the in-place smearing yields the least power of two not below the request |
| `RingCapacity.RoundedIsLeast` | include/darwincore/foundation/container/RingQueue.h:209-220 | the result is the least power of two not below the request, for requests up to 2^63 |
| `RingCapacity.EnoughCellsExactly` | include/darwincore/foundation/container/RingQueue.h:209-220 | at least two cells exactly for requests in 2..2^63; the capacity wraps to zero exactly above 2^63 |
| `ReadWriteLock.MutualExclusion` | src/darwincore/foundation/thread/Lock.cpp:17-58 | in every run at most one writer and never with readers; the three counters are exact; once all requests are gone the lock is as new |
| `ReadWriteLock.WriterPreference` | src/darwincore/foundation/thread/Lock.cpp:41-47 | a reader enters only when no writer is active, asleep or woken |
| `ReadWriteLock.WriterEntersAlone` | src/darwincore/foundation/thread/Lock.cpp:17-25 | a writer enters only when nobody holds the lock |
| `ReadWriteLock.NeverStuck` | src/darwincore/foundation/thread/Lock.cpp:17-58 | no wakeup is lost: a free lock with requests has one that can proceed |
| `ReadWriteLock.SleepersHaveCause` | src/darwincore/foundation/thread/Lock.cpp:17-58 | a sleeping writer implies a holder or a woken writer, a sleeping reader implies a writer active or waiting |
| `ReadWriteLock.StepInv` | src/darwincore/foundation/thread/Lock.cpp:17-58 | every step keeps the lock's invariant |
| `ReadWriteLock.RequestsAfter` | src/darwincore/foundation/thread/Lock.cpp:17-58 | a lock call adds its request, an unlock call ends it, and no other step gains or loses one |
| `ReadWriteLock.HoldersAfter` | src/darwincore/foundation/thread/Lock.cpp:17-58 | a holder holds until its own unlock and no longer |
| `ReadWriteLock.UnlockWakes` | src/darwincore/foundation/thread/Lock.cpp:27-58 | an unlock that frees the lock wakes one sleeping writer if there is one, and all readers if no writer waits; one that leaves readers inside wakes nobody |
| `ReadWriteLock.AlwaysDrains` | src/darwincore/foundation/thread/Lock.cpp:17-58 | from every reachable state the pending requests alone, without new calls or spurious wakeups, can all get the lock and release it, which leaves it as new |
| `Crc32.TableIsShift` | src/darwincore/network/protocol.cpp:489-532 | every table entry is its index shifted eight times through the reflected 0xEDB88320 register (section 8 of RFC 1952) |
| `Crc32.CalculateCrc32` | src/darwincore/network/protocol.cpp:487-540 | the table-driven loop computes the bit-by-bit CRC on every byte string |
| `Crc32.CheckValue` | src/darwincore/network/protocol.cpp:487-540 | the CRC of the nine digits 1 to 9 is 0xCBF43926, the check value of the CRC-32 of RFC 1952 |
| `Crc32.BurstChangesCrc` | src/darwincore/network/protocol.cpp:487-540 | equal-length strings that differ only within four consecutive bytes have different CRCs |
| `Crc32.MatchesIffResidue` | src/darwincore/network/protocol.cpp:302-322 | a trailer is right exactly when the register over data and trailer ends in one fixed value |
| `Crc32.BurstIsDetected` | src/darwincore/network/protocol.cpp:302-322 | damage within four consecutive bytes anywhere in data or trailer never passes the trailer check |
| `Bytes.LoadStored` | include/darwincore/network/protocol.h:116-173 | a little-endian field of any width reads back as the number stored, for every number that fits it |
| `Bytes.StoreLoaded` | include/darwincore/network/protocol.h:116-173 | and any bytes are the little-endian form of the number that they load |
| `Frames.ParseHeaderBytes` | src/darwincore/network/protocol.cpp:19-74 | the packed frame header parses back from its bytes |
| `Frames.DeserializeSerialized` | src/darwincore/network/protocol.cpp:19-74 | Deserialize undoes Serialize whatever bytes follow |
| `Acceptance.DeserializesExactly` | src/darwincore/network/protocol.cpp:42-74 | Deserialize yields a frame if and only if that frame has the right magic, version and length and the data begins with its serialization |
| `Frames.EncodeSlice` | src/darwincore/network/protocol.cpp:150-167 | each slice frame carries the message id, the total, its index and its part of the data |
| `Frames.EncodeMessage` | src/darwincore/network/protocol.cpp:132-169 | one frame per slice, or an error exactly when the 16-bit slice count comes out as zero |
| `Frames.JoinSlices` | src/darwincore/network/protocol.cpp:132-169 | the slices in order join to the message's bytes |
| `Frames.SlicingExactlyWithinLimit` | src/darwincore/network/protocol.cpp:132-169 | slices join to the message if and only if it has 1 to 65535 slices' worth of bytes |
| `Frames.OversizedMessageIsTruncated` | src/darwincore/network/protocol.cpp:138-145 | one byte over 65536 slices is encoded as a single slice without an error |
| `Decoder.RoundExtends` | src/darwincore/network/protocol.cpp:270-394 | a decoding round that finds a whole frame does the same whatever bytes follow it |
| `Decoder.RunExtends` | src/darwincore/network/protocol.cpp:259-394 | decoding what arrived and then the leftover with the rest is decoding it all at once |
| `Decoder.CuttingIsInvisible` | src/darwincore/network/protocol.cpp:259-394 | any way of cutting a byte stream into Feed calls ends in the same messages, events, assemblies, counters and leftover as one Feed |
| `Decoder.RunRests` | src/darwincore/network/protocol.cpp:270-394 | what a Feed leaves in the buffer holds no complete frame |
| `Acceptance.WaitsExactly` | src/darwincore/network/protocol.cpp:259-394 | for every byte stream: the decoder ends waiting with a leftover if and only if the stream is a number of well-formed frames, each handled in turn, followed by that leftover, and the leftover is a strict part of a frame |
| `Acceptance.ThrowsExactly` | src/darwincore/network/protocol.cpp:270-298 | it throws BadMagic, BadVersion or PayloadTooLarge if and only if the stream is such frames followed by a header whose bytes have that fault; the faulty bytes stay in the buffer |
| `Acceptance.StatisticsCount` | src/darwincore/network/protocol.cpp:270-394 | over every stream read: the statistics have counted exactly the frames, the frames whose trailer is not their checksum, the stream events and the messages, and completed messages and events are only ever added |
| `Acceptance.BadSliceRejected` | src/darwincore/network/protocol.cpp:324-336 | a slice whose index is not below its total is refused after its frame was counted, and nothing else changes |
| `DecoderObject.StreamDecoder.Assemble` | src/darwincore/network/protocol.cpp:346-354 | the reassembly loop concatenates all slices |
| `DecoderObject.StreamDecoder.OnMessage` | src/darwincore/network/protocol.cpp:324-359 | the in-place slice handling is the decoder's slice function: open or find the assembly, store a new slice, complete and drop it |
| `DecoderObject.StreamDecoder.OnStream` | src/darwincore/network/protocol.cpp:360-390 | the in-place stream handling appends the event the header describes |
| `DecoderObject.StreamDecoder.OnFrame` | src/darwincore/network/protocol.cpp:300-390 | the CRC test, the skip with its counter and the dispatch on the frame type are the decoder's frame function |
| `DecoderObject.StreamDecoder.TryDecode` | src/darwincore/network/protocol.cpp:270-394 | the loop terminates and does what the decoder's run function says |
| `DecoderObject.StreamDecoder.Feed` | src/darwincore/network/protocol.cpp:259-268 | appends the bytes and decodes all that is complete |
| `DecoderObject.StreamDecoder.GetMessage` | src/darwincore/network/protocol.cpp:401-413 | hands out completed messages first in, first out |
| `Reassembly.EveryMessageArrivesOnce` | src/darwincore/network/protocol.cpp:132-394 | slices of any messages with distinct ids, in any order and interleaving with stream frames, repeated before completion, cut into Feeds anyhow: each complete message is delivered once with its bytes, assemblies hold exactly the incomplete ones, stream events arrive in order |
| `Reassembly.NothingIsPending` | src/darwincore/network/protocol.cpp:330-358 | once every slice was sent all messages are delivered and no assembly is left |
| `Reassembly.LateSliceBreaksIt` | src/darwincore/network/protocol.cpp:330-336 | a slice repeated after completion opens a new assembly or delivers again: the first step away from exact delivery |
| `Reassembly.CanEncode` | src/darwincore/network/protocol.cpp:132-225 | every sequence of items, repeated at will, can be encoded, so the results about them are not empty |
| `Redelivery.ExactlySchedules` | src/darwincore/network/protocol.cpp:259-394 | for every sequence of slices and stream frames, repeated at will, and every cut: exactly one delivery per complete message and exactly the incomplete ones pending, if and only if no slice was sent of a message already complete; stream events arrive in order either way |
| `Redelivery.SomeOverdone` | src/darwincore/network/protocol.cpp:330-358 | a message of which a slice came too late is delivered twice or pending again, and stays so whatever follows |
| `Protocol.CrcDetectsBursts` | src/darwincore/network/protocol.cpp:487-540 | the CRC trailer detects every burst of up to four bytes |
| `Protocol.MadeFrameCarriesChecksum` | src/darwincore/network/protocol.cpp:87-121 | frames made with the checksum on pass the decoder's test |
| `Protocol.DamagedFrameIsSkipped` | src/darwincore/network/protocol.cpp:302-322 | with any checksum that detects bursts, a checksummed frame damaged within four bytes of its payload is counted as an error and skipped, and decoding goes on behind it |
| `Protocol.CrcSkipsDamage` | src/darwincore/network/protocol.cpp:302-322 | the same for the CRC itself, unconditionally |
| `Protocol.CrcMailArrivesOnce` | src/darwincore/network/protocol.cpp:132-394 | the codec with the CRC delivers each complete message once exactly when no slice comes late |
| `SendBuffer.Buffer.constructor` | src/darwincore/network/send_buffer.cpp:23-26 | starts empty with 4096 bytes |
| `SendBuffer.Buffer.Compact` | src/darwincore/network/send_buffer.cpp:108-124 | moves the bytes to the front without changing the contents |
| `SendBuffer.Buffer.EnsureWritableSpace` | src/darwincore/network/send_buffer.cpp:142-197 | succeeds exactly when the contents and the request fit 32 MiB; compaction and doubling keep the contents and a capacity of 4096 times a power of two |
| `SendBuffer.Buffer.Write` | src/darwincore/network/send_buffer.cpp:28-47 | succeeds exactly when the data is not empty and fits 32 MiB together with the contents; appends it or changes nothing |
| `SendBuffer.Buffer.SendToSocket` | src/darwincore/network/send_buffer.cpp:49-106 | removes exactly the prefix the socket accepted |
| `SendBuffer.FifoOverRuns` | src/darwincore/network/send_buffer.cpp:28-106 | over any run of writes and partial sends, the prefixes that the socket took followed by the bytes held are the bytes accepted, within 32 MiB |
| `SendBuffer.PositionOverRuns` | src/darwincore/network/send_buffer.cpp:28-106 | the bytes accepted are those of the writes that were not empty and fitted, and the numbers in the socket's answers add up to the position in them between what has left and what is held |
| `ConnectionId.ParseGenerated` | src/darwincore/network/connection_id_generator.cpp:7-52 | every field of a generated id parses back, cut to its width |
| `ConnectionId.GenerateParsed` | src/darwincore/network/connection_id_generator.cpp:7-52 | every 64-bit id is generated from its own fields |
| `ConnectionId.OrIsSum` | src/darwincore/network/connection_id_generator.cpp:7-20 | the shifts and ors of the masked fields are the sum of their multiples, in 64 bits |
| `ConnectionId.ShiftIsQuotient` | src/darwincore/network/connection_id_generator.cpp:22-52 | the shifts and masks of the getters are quotients and remainders, in 64 bits |
| `Reactor.WireCarriesSubmissions` | src/darwincore/network/reactor.cpp:416-529 | in every run, bytes on a live connection's wire followed by its send buffer are all payloads submitted to it, and for a dead one the wire holds a prefix |
| `Reactor.SendIsQueuedOrFails` | src/darwincore/network/reactor.cpp:416-460 | every non-empty payload for a live connection joins its submitted bytes, whole |
| `Reactor.BackpressureIsSound` | src/darwincore/network/reactor.cpp:499-734 | write monitoring is on exactly while bytes wait, paused implies the low mark is reached and writing is monitored, not paused implies below the high mark |
| `Reactor.TablesAgree` | src/darwincore/network/reactor.cpp:333-414 | in every run the two tables are mutually inverse, ids are non-zero and parse back to their reactor and descriptor, and the active counter is the table size until the final cleanup empties the table |
| `Reactor.NoCollision` | src/darwincore/network/reactor.cpp:341-359 | with open descriptors distinct and below 65536 a generated id is never in the table, also after the sequence number wraps |
| `Reactor.AddNeverCollides` | src/darwincore/network/reactor.cpp:333-384 | hence every monitored new descriptor gets a connection |
| `Reactor.InverseExactlyIfFdFree` | src/darwincore/network/reactor.cpp:369-371 | registering keeps the tables inverse if and only if the descriptor was free |
| `Reactor.EveryLifeTellsAStory` | src/darwincore/network/reactor.cpp:770-837 | each connection incarnation dispatches a prefix of Connected, Data, at most one Error, at most one Disconnected, nothing after |
| `Reactor.StepInv` | src/darwincore/network/reactor.cpp:333-858 | every operation, event, timeout and Stop keeps the reactor's invariant |
| `ReactorFlow.StepShows` | src/darwincore/network/reactor.cpp:333-858 | for every step and every live connection, in terms of recv's and send's answers only: whether the connection ends, exactly which events its incarnation gets, that exactly the prefix the socket took goes to the wire and leaves the buffer, what joins the buffer, and that reading pauses and resumes only at the marks |
| `ReactorFlow.PayloadRead` | src/darwincore/network/reactor.cpp:628-685 | the Data payloads of one reading, joined, are the bytes recv returned before the end of stream, the failure or the empty socket |
| `ReactorFlow.DataIsReceived` | src/darwincore/network/reactor.cpp:628-685 | in every run, the Data payloads of an incarnation joined are all that recv returned for it, in order |
| `ReactorFlow.WireIsTaken` | src/darwincore/network/reactor.cpp:416-734 | in every run, an incarnation's wire is the prefixes its socket's answers took, direct sends included, its submissions are what was handed to it, and its events are those the answers call for |
| `ReactorFlow.DeadLeftAlone` | src/darwincore/network/reactor.cpp:333-858 | no step other than adding a connection touches the events or bytes of an incarnation that is not live |
| `ReactorFlow.BornAs` | src/darwincore/network/reactor.cpp:333-384 | a monitored new descriptor becomes a connection with empty buffer under the generated id, in both tables, with its Connected event and counters |
| `ReactorFlow.NotBorn` | src/darwincore/network/reactor.cpp:333-384 | an unmonitored descriptor changes no table and no log |
| `ReactorFlow.SequenceRuns` | src/darwincore/network/reactor.cpp:341-359 | sequence numbers run through 1 to 65535 and start over |
| `ReactorFlow.ReusedFdGetsNewId` | src/darwincore/network/reactor.cpp:341-359 | a descriptor used again within 65535 connections gets another id, also on the same day |
| `ReactorFlow.TimeoutOwn` | src/darwincore/network/reactor.cpp:736-776 | exactly the connections in the list of idle ones end, each with one Disconnected and nothing sent |
| `ReactorFlow.StepCounts` | src/darwincore/network/reactor.cpp:333-858 | the byte count grows by what recv returned in the step, connections are counted as they are born, and only Stop clears the flag |
| `ReactorFlow.RunCounts` | src/darwincore/network/reactor.cpp:628-685 | over every run the byte count is the sum of what recv returned |
| `ReactorObject.EventLoop.DoAddConnection` | src/darwincore/network/reactor.cpp:333-384 | the in-place updates are the model's step: sequence skipping zero, collision and monitor failures, both tables, counters, event |
| `ReactorObject.EventLoop.DoRemoveConnection` | src/darwincore/network/reactor.cpp:386-414 | erases both entries and lowers the counter, or reports an unknown id |
| `ReactorObject.EventLoop.DoSendData` | src/darwincore/network/reactor.cpp:416-497 | direct send, fall-back to the buffer and error close are the model's step |
| `ReactorObject.EventLoop.BufferAndMonitorWrite` | src/darwincore/network/reactor.cpp:499-529 | buffers, monitors writing and pauses reading at the high mark, or closes with an error |
| `ReactorObject.EventLoop.HandleReadEvent` | src/darwincore/network/reactor.cpp:628-685 | the receive loop is the model's step, of which `ReactorFlow.StepShows` and `ReactorFlow.DataIsReceived` say what its events carry |
| `ReactorObject.EventLoop.HandleWriteEvent` | src/darwincore/network/reactor.cpp:687-734 | draining, ending write monitoring and resuming reading below the low mark are the model's step, of which `ReactorFlow.StepShows` and `ReactorFlow.WireIsTaken` say what leaves the buffer |
| `ReactorObject.EventLoop.CheckTimeouts` | src/darwincore/network/reactor.cpp:736-768 | closes the idle connections in turn |
| `ReactorObject.EventLoop.HandleConnectionClose` | src/darwincore/network/reactor.cpp:770-776 | one Disconnected, then removal |
| `ReactorObject.EventLoop.HandleConnectionError` | src/darwincore/network/reactor.cpp:778-787 | Error, then Disconnected, then removal |
| `ReactorObject.EventLoop.ClearRunning` | src/darwincore/network/reactor.cpp:111-117 | the first step of Stop clears the flag and tells the call that did; the loop may still finish its iteration |
| `ReactorObject.EventLoop.CleanupAllConnections` | src/darwincore/network/reactor.cpp:841-858 | the last step of Stop clears both tables without events and without resetting the active counter |
| `ReactorBytes.StepUncounted` | src/darwincore/network/reactor.cpp:416-460 | of all steps only a direct send taken in part sets the byte counter and the bytes on the wires apart, by the part taken |
| `ReactorBytes.CounterMissesParts` | src/darwincore/network/reactor.cpp:416-460 | in every run the counter plus the bytes of partial direct sends is the number of bytes on the wires, and it equals that number if and only if there were none |
| `WorkerPool.CallbacksInOrder` | src/darwincore/network/worker_pool.cpp:107-214 | in every interleaving, what a worker has called back for a reactor is a prefix, in order, of the events that reactor submitted and the pool routed to it; that it goes on to all of them while the pool runs is `WorkerPool.RunningWorkerDelivers` |
| `WorkerPool.WorkerTakesFront` | src/darwincore/network/worker_pool.cpp:172-214 | in every reachable state a waiting worker whose open queue is not empty takes its front and calls it back next |
| `WorkerPool.RunningWorkerDelivers` | src/darwincore/network/worker_pool.cpp:172-214 | from every reachable running state the worker's own steps alone lead to a running state in which everything enqueued for it was called back, in order |
| `WorkerPool.RouteIsRemainder` | src/darwincore/network/worker_pool.cpp:107-126 | an event goes to the worker whose number is the connection id modulo the number of workers |
| `WorkerPool.QueuesStayBounded` | src/darwincore/network/concurrent_queue.h:84-210 | no queue ever exceeds its bound |
| `WorkerPool.CallbacksTellTheStory` | src/darwincore/network/worker_pool.cpp:107-214 | end to end with the reactor: the callbacks of an incarnation all come from one worker and are a prefix of its story |
| `WorkerPool.StopDeliversTheRest` | src/darwincore/network/worker_pool.cpp:80-105 | everything enqueued before Stop flips the flag is called back before its worker exits |
| `WorkerPool.StopUnblocks` | src/darwincore/network/concurrent_queue.h:84-210 | once Stop has notified the queues a blocked submission returns without its event being accepted |
| `WorkerPool.OrderlyStopLosesNothing` | src/darwincore/network/server.cpp:391-428 | when no submission is in flight at Stop, as when reactors are joined first, every enqueued event is called back |
| `WorkerPool.SubmissionInFlightCanBeLost` | src/darwincore/network/worker_pool.cpp:80-126 | a submission in flight at Stop can be accepted and never called back |
| `WorkerPool.InFlightCanBeLost` | src/darwincore/network/worker_pool.cpp:80-126 | for every pool size, queue bound, script and state, a submission in flight when the flag is cleared can be accepted after its worker has exited |
| `WorkerPool.StopLosesNothingExactly` | src/darwincore/network/worker_pool.cpp:80-214 | from every reachable running state: no continuation of Stop loses an accepted event if and only if no submission is in flight when the flag is cleared |
| `WorkerPool.StepInv` | src/darwincore/network/concurrent_queue.h:84-210 | every step of reactors, workers and Stop keeps the invariant |
| `ProcessTree.Tree.AddProcess` | src/darwincore/foundation/process/ProcessTree.cpp:25-47 | keeps the tree sound and shows the old processes and the new live one under its stored parent; a known key changes nothing |
| `ProcessTree.Tree.MarkProcessDead` | src/darwincore/foundation/process/ProcessTree.cpp:63-92 | keeps the tree sound and leaves exactly the processes that are alive or have a live descendant |
| `ProcessTree.Tree.TryCleanup` | src/darwincore/foundation/process/ProcessTree.cpp:81-89 | the recursion that erases a node after its ancestors does the cascade from the leaf up |
| `ProcessTree.PrunedValid` | src/darwincore/foundation/process/ProcessTree.cpp:81-91 | the cascade removes exactly the nodes that no live process can climb to |
| `ProcessTree.AncestorsCount` | src/darwincore/foundation/process/ProcessTree.cpp:74-78 | the guard on the decrement never fails |
| `ProcessTree.SoundMeans` | src/darwincore/foundation/process/ProcessTree.cpp:25-92 | in a sound tree nobody is its own ancestor, each cached count is the exact number of live proper descendants, and whatever is stored is alive or has one |
| `ProcessTree.Replay` | src/darwincore/foundation/process/ProcessTree.cpp:25-92 | any run of calls leaves a sound tree that shows what a reference without counts and cascade shows |
| `ProcessTree.Tree.GetProcLineage` | src/darwincore/foundation/process/ProcessTree.cpp:94-126 | terminates, also when responsible links form a cycle, with the infos of the lineage, which `LineageDistinct`, `LineageBegins`, `LineageGoesOn` and `ResponsibleIsListed` describe |
| `ProcessTree.Tree.GetProcessInfo` | src/darwincore/foundation/process/ProcessTree.cpp:55-61 | finds the info of a stored process and of no other |
| `ProcessTree.LineageDistinct` | src/darwincore/foundation/process/ProcessTree.cpp:94-126 | a lineage names stored processes, each once, and the process itself |
| `ProcessTree.LineageBegins` | src/darwincore/foundation/process/ProcessTree.cpp:104-110 | it begins with the climb along parents to a root or to just below process 1, and with no climb for process 1 or 0 |
| `ProcessTree.LineageGoesOn` | src/darwincore/foundation/process/ProcessTree.cpp:112-125 | behind the climb each entry is the responsible process of the one before it, the first that of the process itself; this ends only where the next one is not stored or already listed; then comes the process itself if it is not listed yet, and nothing else |
| `ProcessTree.ResponsibleIsListed` | src/darwincore/foundation/process/ProcessTree.cpp:112-118 | a stored responsible process of the process is always in its lineage |
| `MemoryPool.LiveBlocksApart` | src/darwincore/foundation/memory/MemoryAllocator.cpp:14-44 | live blocks never overlap within the sizes asked for |
| `MemoryPool.ListsHoldTheFree` | src/darwincore/foundation/memory/MemoryAllocator.cpp:14-44 | a block is in a class's list if and only if it belongs to the class and is not live |
| `MemoryPool.ScribbledInv` | src/darwincore/foundation/memory/MemoryAllocator.cpp:14-44 | whatever clients write into live blocks, the free lists stay intact |
| `MemoryPool.TakeThenReturn` | src/darwincore/foundation/memory/MemoryAllocator.cpp:20-33 | giving a block straight back restores the pool down to its links |
| `MemoryPool.BatchInv` | src/darwincore/foundation/memory/MemoryAllocator.cpp:36-44 | each of the ten blocks cut from a chunk overlaps nothing and joins its list |
| `MemoryPool.Allocator.Refill` | src/darwincore/foundation/memory/MemoryAllocator.cpp:36-44 | the loop carves ten blocks and counts one refill |
| `MemoryPool.Allocator.Allocate` | src/darwincore/foundation/memory/MemoryAllocator.cpp:14-23 | returns a block that was not live and is large enough; free and live blocks of each class remain ten times its refills |
| `MemoryPool.Allocator.Deallocate` | src/darwincore/foundation/memory/MemoryAllocator.cpp:25-34 | the block returns to its list, or to the system when over 128 bytes |
| `LruCache.HoldsMostRecent` | include/darwincore/foundation/container/LRUCache.h:144-272 | over any run of put and getOrInsert the keys are the most recently used distinct ones, in order, as many as fit |
| `LruCache.RunHoldsMostRecent` | include/darwincore/foundation/container/LRUCache.h:144-272 | the same of the entries, over any run of put and getOrInsert calls |
| `LruCache.RecentByLastUse` | include/darwincore/foundation/container/LRUCache.h:144-272 | the recency list has exactly the keys used, and their last uses strictly decrease along it |
| `LruCache.PutStores` | include/darwincore/foundation/container/LRUCache.h:144-162 | after a put its key holds its value, every other key that stays holds what it held, and exactly the others are gone |
| `LruCache.GetOrInsertStores` | include/darwincore/foundation/container/LRUCache.h:257-272 | the same of getOrInsert, which keeps the value of a key that is there |
| `LruCache.GetChangesNothing` | include/darwincore/foundation/container/LRUCache.h:100-109 | a get changes no value |
| `LruCache.HoldsLastValue` | include/darwincore/foundation/container/LRUCache.h:144-272 | over any run, every key held has the value of its last put, or of the getOrInsert that inserted it if there was none since |
| `LruCache.KeysAfterPut` | include/darwincore/foundation/container/LRUCache.h:144-272 | put and getOrInsert move the same key the same way, whatever the values |
| `LruCache.SmallerBeginsLarger` | include/darwincore/foundation/container/LRUCache.h:144-272 | over any run of put, getOrInsert and erase a smaller cache's key list begins a larger one's, and neither exceeds its capacity |
| `LruCache.GetKeepsInclusionExactly` | include/darwincore/foundation/container/LRUCache.h:100-109 | a get keeps that relation if and only if it does not hit in the larger cache alone while the smaller one holds something |
| `LruCache.EntriesKeepInclusionExactly` | include/darwincore/foundation/container/LRUCache.h:100-109 | the same of the caches' entries |
| `LruCache.GetBreaksInclusion` | include/darwincore/foundation/container/LRUCache.h:100-109 | a get that separates two caches |
| `LruCacheObject.Cache.Create` | include/darwincore/foundation/container/LRUCache.h:53-57 | a capacity of zero is refused |
| `LruCacheObject.Cache.Get` | include/darwincore/foundation/container/LRUCache.h:100-109 | returns the stored value and moves its entry to the front |
| `LruCacheObject.Cache.Put` | include/darwincore/foundation/container/LRUCache.h:144-162 | list and map agree; the entry is in front with the new value (`LruCache.PutStores`), a full cache loses its last entry, and the callback gets exactly what is lost |
| `LruCacheObject.Cache.GetOrInsert` | include/darwincore/foundation/container/LRUCache.h:257-272 | returns the stored or the new value, which is then in front |
| `LruCacheObject.Cache.Erase` | include/darwincore/foundation/container/LRUCache.h:195-204 | removes one key's entry and no other |
| `LruCacheObject.Cache.Resize` | include/darwincore/foundation/container/LRUCache.h:236-245 | keeps the most recent entries that fit and evicts the others from the back, last first |
| `Encoding.Utf16RoundTrip` | src/darwincore/foundation/string/Encoding.cpp:11-63 | every string of UTF-16 units survives the way to UTF-8 and back, unpaired surrogates included (sections 2.1 and 2.2 of RFC 2781), through valid UTF-8 with one character a code point |
| `Encoding.Utf32RoundTrip` | src/darwincore/foundation/string/Encoding.cpp:65-81 | UTF-32 survives UTF-8 if and only if every code point is below 0x200000, which covers all up to 0x10FFFF (section 3 of RFC 3629) |
| `Encoding.Utf8RoundTrip` | src/darwincore/foundation/string/Encoding.cpp:65-81 | valid UTF-8 survives decoding and encoding if and only if it is in shortest form, and never gets longer |
| `Encoding.EncodedIsValid` | src/darwincore/foundation/string/Encoding.cpp:83-108 | every output passes the validity test and counts as many characters as code points |
| `Encoding.ValidDecodes` | src/darwincore/foundation/string/Encoding.cpp:65-108 | on valid input decoding ends without reading past the end, and the count is the number of bytes that do not continue a character |
| `Encoding.Utf32EndsExactly` | src/darwincore/foundation/string/Encoding.cpp:65-73 | striding over the announced lengths decides: text if and only if it comes to the end or one past it, no end if and only if it comes to a byte that cannot lead, a read outside the string if and only if it goes further |
| `Encoding.Utf32Endings` | src/darwincore/foundation/string/Encoding.cpp:65-73 | one input for each of these endings |
| `Encoding.ValidExactly` | src/darwincore/foundation/string/Encoding.cpp:83-96 | a string is valid if and only if, byte by byte, it starts with no continuation byte and every other byte leads a character whose continuation bytes all follow and are not followed by another |
| `Encoding.CountIsStrides` | src/darwincore/foundation/string/Encoding.cpp:98-108 | the count is the number of strides from the start, on every string |
| `Encoding.Utf16Resumes` | src/darwincore/foundation/string/Encoding.cpp:11-43 | utf8ToUtf16 converts whole characters as utf8ToUtf32 does and goes on behind them with whatever follows |
| `Encoding.Utf16Skips` | src/darwincore/foundation/string/Encoding.cpp:11-43 | a byte behind whole characters that cannot lead, or whose character is cut off, is dropped and the rest converted as if it were not there |
| `Encoding.EncodeUtf8Char` | src/darwincore/foundation/string/Encoding.cpp:171-187 | appends one character's bytes |
| `Encoding.Utf8ToUtf16` | src/darwincore/foundation/string/Encoding.cpp:11-43 | the loop computes the decoding function, skipping bytes that cannot lead and truncated characters |
| `Encoding.Utf16ToUtf8` | src/darwincore/foundation/string/Encoding.cpp:45-63 | the loop encodes the code points of the units, pairs combined |
| `Encoding.Utf8ToUtf32` | src/darwincore/foundation/string/Encoding.cpp:65-73 | the loop computes the decoding function, with the endings that `Utf32EndsExactly` tells apart |
| `Encoding.Utf32ToUtf8` | src/darwincore/foundation/string/Encoding.cpp:75-81 | the loop encodes every code point |
| `Encoding.IsValidUtf8` | src/darwincore/foundation/string/Encoding.cpp:83-96 | true exactly for sequences of lead bytes each with its continuation bytes |
| `Encoding.Utf8CharCount` | src/darwincore/foundation/string/Encoding.cpp:98-108 | the loop counts announced characters up to a byte that cannot lead |
| `Calendar.DateToDayToDate` | src/darwincore/foundation/date/Calendar.cpp:110-127 | every valid date from 1 March -4800 on comes back from its day number |
| `Calendar.DayToDateToDay` | src/darwincore/foundation/date/Calendar.cpp:110-127 | every day number from -32044 on is a valid date with that number |
| `Calendar.TomorrowIsNext` | src/darwincore/foundation/date/Calendar.cpp:11-22 | the next calendar day by month lengths and leap years has the next day number |
| `Calendar.AddDaysIsLater` | src/darwincore/foundation/date/Calendar.cpp:61-64 | adding n days is going to the next calendar day n times |
| `Calendar.AddDaysComposes` | src/darwincore/foundation/date/Calendar.cpp:61-64 | adding days is additive, also with negative numbers |
| `Calendar.AddDaysUndone` | src/darwincore/foundation/date/Calendar.cpp:61-64 | and is undone by the opposite number |
| `Calendar.DayOfYearCounts` | src/darwincore/foundation/date/Calendar.cpp:95-102 | the day of the year is the distance from 1 January plus one |
| `Calendar.DayOfWeekExactly` | src/darwincore/foundation/date/Calendar.cpp:24-33 | dayOfWeek is (day number + 1) mod 7 if and only if the reckoned year is not negative or is a leap year |
| `Calendar.DayOfWeekMistake` | src/darwincore/foundation/date/Calendar.cpp:24-33 | a date on which it is wrong |
| `Calendar.NextWeekday` | src/darwincore/foundation/date/Calendar.cpp:104-108 | stops at the first later day that counts as a weekday, within four days always and within three from the year 0 on, where it is Monday to Friday |
| `Calendar.AddMonths` | src/darwincore/foundation/date/Calendar.cpp:66-79 | moves the month count, stays within 1..12, cuts the day to the month's length and keeps dates valid |

## Left out

- Weak memory orders: atomic accesses of the ring queue are sequentially consistent steps, and positions do not wrap at 2^64.
- SPSCRingQueue: a special case that adds only an easy member beside the multi-producer queue.
- MpmcRingQueue.StepInv: positions map to cells by the remainder by the capacity, of which masking is the case of powers of two.
- Frames.EncodeMessage: the sequence of frames it returns is described frame by frame; SerializeFrames is their concatenation.
- Decoder.CuttingIsInvisible: a frame whose payload is shorter than its own header makes the source read on into whatever bytes follow, which depends on the cut, and a slice beyond a vector sized by an earlier and smaller total makes it write out of bounds; the model ends there as Crashed, so cut-independence is claimed for streams without such frames.
- Decoder::CleanupTimeoutMessages, Decoder::Reset and message timeouts: driven by the wall clock.
- Reactor.TablesAgree: descriptors are assumed distinct while open and below 65536, and kqueue calls other than the first read registration are assumed to succeed.
- Reactor.EveryLifeTellsAStory: removal through RemoveConnection and Stop dispatch no Disconnected event, so a story may end without one.
- ReactorObject: the queue of pending operations between client threads and the event loop; operations appear in the order the loop takes them.
- WorkerPool.CallbacksInOrder: time-outs of the bounded queue and of waiting are arbitrary choices of the schedule.
- ProcessTree.Tree.GetProcLineage: debugProcessTree and printing are not modelled.
- ProcessTree.Tree.AddProcess: links are keys instead of weak and shared pointers, and the read-write mutex around each call is not modelled.
- MemoryPool.Allocator.Allocate: a size of zero, which indexes outside the table of lists, is excluded; the pool is used from one thread, as in the source.
- LruCacheObject.Cache.Put: the moved-from state, with capacity zero, is excluded; `at` returns references and is not modelled.
- Calendar.DateToDayToDate: integers are unbounded; dates before 1 March -4800, where the truncating division breaks the arithmetic, are excluded.
- Calendar::weekOfYear, month and weekday names: the week formula is not the one of ISO 8601; names are tables.
- Encoding: conversions through CoreFoundation are calls into a library not part of this model.
- kqueue, sockets, addresses, Acceptor, Server, Client and ClientReactor: system calls and start-up; the socket is an oracle here.
- File, shell, shared memory, SQLite, regex, logger, Timer, Throttle, DateTime, BloomFilter: wrappers over the operating system, the clock or floating point.
- Sort, Search, BitSet, CircularBuffer, ObjectPool, ConcurrentMap, StringBuilder, StringPool, UUID: easy beside the above.
