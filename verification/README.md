# PhoenixIPC: a verified model of its queues, crash recovery and request matching

PhoenixIPC moves 16-byte message headers between processes through lock-free single-producer
single-consumer rings in shared memory.  A parent dispatches requests to the least-loaded of six
workers; when the child that runs the workers dies, a supervisor skips the request each worker was
processing and starts a new child.  A client matches responses to pending requests by sequence id.  A
smaller producer/consumer pair uses one queue with a run-time capacity and one shared payload area, and
finds it through a small text file.

The project models these parts and proves what they promise over whole runs.

| file | models |
|---|---|
| `Word64.dfy`, `Messages.dfy` | 64-bit wrapping arithmetic, the index mask, message headers |
| `RingSteps.dfy`, `RingRuns.dfy` | the ring as micro-steps of two threads: one step per index load, slot access and index store; loads of the other side's index may be stale |
| `SpscRingBuffer.dfy` | the ring as an object over shared cells |
| `LoadBalance.dfy`, `PhoenixShmLayout.dfy`, `IpcServer.dfy`, `ThreadMonitor.dfy`, `Worker.dfy` | twelve rings and six monitors in one memory, dispatch, scanning and recovery, a worker's turn |
| `CrashLedger.dfy`, `CrashRecovery.dfy`, `CrashSystem.dfy`, `CrashTheorems.dfy`, `CrashSequence.dfy`, `CrashProgress.dfy`, `CrashWitnesses.dfy` | N workers, the child's death between any two micro-steps, the supervisor |
| `ClientSteps.dfy`, `ClientTheorems.dfy`, `ClientDrain.dfy`, `IpcClient.dfy`, `ClientMirror.dfy` | calls, pending map, response poller: as interleaved steps, as an object, and the abstraction from one to the other |
| `Text.dfy`, `CoordinationFile.dfy`, `RoundTrip.dfy`, `ReaderOnAnyText.dfy` | the coordination file's writer and its `find`-based reader, on written and on any other text |
| `SimplifiedRing.dfy`, `SimplifiedShmLayout.dfy`, `PayloadChannel.dfy`, `ChannelEnds.dfy` | the run-time-capacity queue, its layout, whole runs over it, producer and consumer |

Conventions.  A stored index is a number below 2^64; the histories and ghost counters are unbounded, and
the stored index is proved to be their wrapped image, so no theorem about the power-of-two ring or the
crash protocol bounds the number of operations.  Code that updates fields in place is a class whose
methods are proved against functions of the old state; the theorems about whole runs are about those
functions, or about step systems with one step for each atomic access.  Loops that the source nests in
one function body are methods of their own here (`DrainQueue`, `TakeNext`, `Match`, `RecoverGroup`,
`InitializeGroup`, `RecoverBoth`, `FindLeast`, `Wait`, `TakeFront`), so that each is proved by itself.  The
methods of `ClientMirror` call those of the client object and carry the step system's state beside them.

What is false of the code is stated as it is, with the exact condition or a concrete run:

- the size check of the six-worker layout is 2304 cells short of what the VIP stride uses
  (`SizeCheckExact`), and the server's own segment has just the checked size, so that its last three queues
  lie outside (`OwnSizeTooSmall`);
- a PROCESSING monitor's sequence number may be an old one (`ProcessingSeqMayBeStale`), because the status
  is stored first; with distinct nonzero ids it is the right one exactly when it was stored for that request
  (`ProcessingSeqExactly`); recovery does not use it;
- a request can be ended twice (`RequestMayEndTwice`), although the repository's README (line 479) says that none is
  processed twice; it is ended once more for each crash between its end and its pop, and no more
  (`RemovedExactly`);
- the response to a `Call` can be drained before the call registers (`CallMayMissItsAnswer`); a response
  reaches the call exactly when it is the first drained after that and before the timeout
  (`RegisteredIsResolved`);
- the coordination file cannot be read back when the name contains a quote or equals one of the six later
  keys (`RoundTripExact`), the latter because Create writes the name as the version too;
- the run-time-capacity ring loses a message after 2^64 pushes unless its capacity divides 2^64
  (`AlwaysFifoExactly`);
- messages with data share the payload area, and a length of 2^32 bytes or more is truncated in the header
  although the send succeeds: a message is received as sent exactly when its length fits and no later
  message put other bytes in its place (`IntactExactly`, `IntactUnlessOverwritten`, `TwoOutstandingMix`).

## Model

| member | source | states |
|---|---|---|
| Word64.CapacityAssertExact | include/phoenix/core/spsc_ring_buffer.hpp:37-39 | the template's capacity assertion accepts exactly the powers of two |
| Word64.MaskOfWrapped | include/phoenix/core/spsc_ring_buffer.hpp:341-345 | masking a stored 64-bit index gives the unbounded count modulo the capacity, for any count |
| Word64.SubOfWrapped | include/phoenix/core/spsc_ring_buffer.hpp:197 | the wrapped difference of two stored indices is the difference of the unbounded counts |
| RingSteps.StepRefinesFifo | include/phoenix/core/spsc_ring_buffer.hpp:192-263 | each micro-step of either side keeps the ring invariant and is a step of a bounded FIFO; with an up-to-date load refusals and empty answers are exact, with a stale one only those two become spurious |
| RingRuns.RunRefinesFifo | include/phoenix/core/spsc_ring_buffer.hpp:192-263 | every interleaved run refines a FIFO run up to spurious refusals and empty answers, and without them when all loads are up to date |
| RingRuns.RunIsFifo | include/phoenix/core/spsc_ring_buffer.hpp:192-263 | in any interleaving what was removed is a prefix of what was pushed, at most one capacity behind |
| RingRuns.ReadsAreNext | include/phoenix/core/spsc_ring_buffer.hpp:233-243 | every value read by Peek or Pop is the next unremoved one in push order |
| RingRuns.RunHistory | include/phoenix/core/spsc_ring_buffer.hpp:192-263 | the histories the other theorems speak of are the ones the run's events produce |
| RingRuns.RunSlotOwnership | include/phoenix/core/spsc_ring_buffer.hpp:193-206 | after any run the slot being written is neither the slot being read or destroyed nor that of any unread element |
| RingRuns.NotFullThenPushSucceeds | src/ipc/ipc_server.cpp:289-295 | once the producer has seen "not full", no push before its next publish is refused, whatever the consumer does |
| RingRuns.NotEmptyThenPopSucceeds | src/ipc/ipc_client.cpp:229-252 | once the consumer has seen "not empty", no Peek or Pop before its next advance finds the ring empty |
| RingRuns.LoadReadExactly | include/phoenix/core/spsc_ring_buffer.hpp:193-199 | the load of the read index may return every count between the last one seen and the current one; a push is refused exactly when that count leaves no room |
| RingRuns.LoadWriteExactly | include/phoenix/core/spsc_ring_buffer.hpp:247-253 | likewise for the write index: empty exactly when the count loaded shows nothing unread |
| RingRuns.NeitherSideWaits | include/phoenix/core/spsc_ring_buffer.hpp:192-263 | in every state of the invariant each side has a step of its own |
| RingSteps.SkipHeadExact | include/phoenix/core/spsc_ring_buffer.hpp:266-270 | an unchecked advance by one keeps the invariant exactly when the consumer has been told of the head, and then drops just that head |
| SpscRingBuffer.SpscRingBuffer.Initialize | include/phoenix/core/spsc_ring_buffer.hpp:317-333 | succeeds exactly when the size is enough, and leaves an empty queue |
| SpscRingBuffer.SpscRingBuffer.GetElementPtr | include/phoenix/core/spsc_ring_buffer.hpp:348-351 | the address is inside the ring's own cells |
| SpscRingBuffer.SpscRingBuffer.Push | include/phoenix/core/spsc_ring_buffer.hpp:192-209 | succeeds exactly when not full, appends to the queue, and writes no cell outside the ring |
| SpscRingBuffer.SpscRingBuffer.Peek | include/phoenix/core/spsc_ring_buffer.hpp:233-243 | none exactly when empty, otherwise the cell that holds the first element |
| SpscRingBuffer.SpscRingBuffer.Pop | include/phoenix/core/spsc_ring_buffer.hpp:246-263 | succeeds exactly when not empty and drops the first element |
| SpscRingBuffer.SpscRingBuffer.ForceAdvanceReadIndex | include/phoenix/core/spsc_ring_buffer.hpp:266-270 | drops `count` elements and stays a queue exactly when there are that many; past the end the stored difference exceeds the capacity |
| SpscRingBuffer.SpscRingBuffer.Empty | include/phoenix/core/spsc_ring_buffer.hpp:273-276 | true exactly for the empty queue |
| SpscRingBuffer.SpscRingBuffer.Full | include/phoenix/core/spsc_ring_buffer.hpp:279-283 | true exactly when the queue holds one capacity |
| SpscRingBuffer.SpscRingBuffer.Size | include/phoenix/core/spsc_ring_buffer.hpp:286-290 | the number of queued elements |
| SpscRingBuffer.SpscRingBuffer.FreeSpace | include/phoenix/core/spsc_ring_buffer.hpp:310-314 | the capacity less the number of queued elements |
| LoadBalance.BestExact | include/phoenix/layout/phoenix_shm_layout.hpp:157-187 | the selection loop's answer is the lowest index of a least size, and nothing else is |
| LoadBalance.SpreadBound | include/phoenix/layout/phoenix_shm_layout.hpp:157-187 | over any number of accepted messages with no removals the spread of sizes stays within max(1, initial spread) |
| LoadBalance.ClosedForm | include/phoenix/layout/phoenix_shm_layout.hpp:157-187 | from empty, n messages to N workers leave (n + N - 1 - i) / N with worker i |
| LoadBalance.ExactlyCapacityManySucceed | include/phoenix/layout/phoenix_shm_layout.hpp:157-187 | from empty, after any number n of messages, the next finds a queue with room exactly when n is below N times the capacity |
| PhoenixShmLayout.RegionsDisjoint | include/phoenix/layout/phoenix_shm_layout.hpp:88-112 | the twelve queue regions do not overlap |
| PhoenixShmLayout.PlacementIs | include/phoenix/layout/phoenix_shm_layout.hpp:88-112 | queue q starts at cell 1024 q; the first eight hold 1024 messages, the last four 256 |
| PhoenixShmLayout.QueuesFitExactly | include/phoenix/layout/phoenix_shm_layout.hpp:88-112 | they fit in a segment exactly when it has 8·1024 + 3·1024 + 256 cells after the header |
| PhoenixShmLayout.SizeCheckExact | include/phoenix/layout/phoenix_shm_layout.hpp:63-81 | the sizes that pass the check although the regions do not fit are exactly 147456 to 184319 bytes |
| PhoenixShmLayout.OwnSizeTooSmall | src/ipc/ipc_server.cpp:47 | in a segment of just the checked size the queues that do not fit are exactly the last three |
| PhoenixShmLayout.PhoenixShmLayout.Initialize | include/phoenix/layout/phoenix_shm_layout.hpp:76-115 | over a segment of any size: succeeds exactly when the size check passes, with every ring placed at its start and every monitor idle; the queues are then usable exactly when the segment has the cells they need, and empty; otherwise changes nothing |
| PhoenixShmLayout.PhoenixShmLayout.PushOn | include/phoenix/layout/phoenix_shm_layout.hpp:128-144 | a push on one queue of the shared memory appends there and leaves the other eleven queues as they were |
| PhoenixShmLayout.PhoenixShmLayout.PopOn | include/phoenix/layout/phoenix_shm_layout.hpp:128-144 | a pop on one queue drops its head and leaves the other eleven as they were |
| PhoenixShmLayout.PhoenixShmLayout.FindBestNormalWorker | include/phoenix/layout/phoenix_shm_layout.hpp:157-169 | the lowest-index least-loaded normal worker |
| PhoenixShmLayout.PhoenixShmLayout.FindBestVipWorker | include/phoenix/layout/phoenix_shm_layout.hpp:175-187 | the lowest-index least-loaded VIP worker |
| PhoenixShmLayout.PhoenixShmLayout.ScanCrashedWorkers | include/phoenix/layout/phoenix_shm_layout.hpp:193-211 | the number of monitors in the PROCESSING state |
| PhoenixShmLayout.PhoenixShmLayout.RecoverCrashedWorkers | include/phoenix/layout/phoenix_shm_layout.hpp:217-241 | returns what a scan would have counted, leaves all monitors idle, and keeps the layout sound exactly when every processing worker had a queued head; then just those heads are gone |
| PhoenixShmLayout.RecoveredDropsHeads | include/phoenix/layout/phoenix_shm_layout.hpp:217-241 | before recovery each queue is its lost head, if its worker was processing, followed by what is left |
| PhoenixShmLayout.RejectedIffGroupFull | src/ipc/ipc_server.cpp:280-313 | a high message is rejected exactly when both VIP request queues, 8 and 10, hold 256, a low one exactly when all of 0, 2, 4 and 6 hold 1024; then nothing changes |
| PhoenixShmLayout.AcceptedByLeastLoaded | src/ipc/ipc_server.cpp:280-320 | an accepted message is appended to the lowest-index shortest queue of its group and nothing else changes |
| PhoenixShmLayout.HighGoesWhere | include/phoenix/layout/phoenix_shm_layout.hpp:175-187 | an accepted high message is appended to queue 10 when that is shorter than queue 8, otherwise to 8, and nothing else changes |
| PhoenixShmLayout.LowGoesWhere | include/phoenix/layout/phoenix_shm_layout.hpp:157-169 | an accepted low message is appended to the first shortest of the queues 0, 2, 4 and 6, and nothing else changes |
| PhoenixShmLayout.DispatchLoads | src/ipc/ipc_server.cpp:280-320 | dispatch changes the group's sizes as the load-balance theorems assume |
| PhoenixShmLayout.DispatchAllLoads | src/ipc/ipc_server.cpp:280-320 | so does any sequence of dispatches over the queues |
| PhoenixShmLayout.ExactlyTotalCapacityAccepted | src/ipc/ipc_server.cpp:280-320 | from empty request queues exactly the first 512 high or 4096 low messages of any sequence are accepted |
| PhoenixShmLayout.HighFromEmpty | src/ipc/ipc_server.cpp:280-320 | n high messages to empty queues leave (n + 1) / 2 in queue 8 and n / 2 in queue 10 |
| PhoenixShmLayout.LowFromEmpty | src/ipc/ipc_server.cpp:280-320 | n low messages leave (n + 3 - i) / 4 with normal worker i |
| PhoenixShmLayout.SpreadStays | src/ipc/ipc_server.cpp:280-320 | over any sequence of messages the lengths of a group's queues stay within max(1, initial spread) |
| Worker.Worker.Turn | test/stress_test.cpp:1441-1464 | an uninterrupted turn processes exactly when there is a request and the monitor is idle, removes just that request, and leaves the monitor idle with its number |
| ThreadMonitor.ThreadMonitor.EndTransaction | include/phoenix/layout/thread_monitor.hpp:63-65 | leaves it idle and its other fields alone |
| IpcServer.IpcServer.DispatchMessage | src/ipc/ipc_server.cpp:280-313 | answers and changes the twelve queues as the dispatch function says |
| IpcServer.IpcServer.RecoverFromCrash | src/ipc/ipc_server.cpp:326-332 | the counter grows by the number skipped, and the queues lose the heads of the processing workers |
| IpcServer.IpcServer.OnChildDeath | src/ipc/ipc_server.cpp:242-246 | one more crash counted, the skipped requests added, the layout sound again |
| IpcServer.IpcServer.RecoverTwice | include/phoenix/layout/phoenix_shm_layout.hpp:193-241 | recovery skips exactly what the preceding scan counted; a further scan finds none and a second recovery changes nothing |
| CrashSystem.SysStepKeepsInv | src/ipc/ipc_server.cpp:229-267 | every step of producers, workers, the child's death and the supervisor keeps the system invariant, for any number of workers and capacities |
| CrashRecovery.DieKeepsLane | src/ipc/ipc_server.cpp:234-246 | a death between any two micro-steps of a worker keeps that worker's invariant |
| CrashRecovery.TimestampIsLastStored | include/phoenix/layout/thread_monitor.hpp:55 | the start timestamp is the clock reading of the last transaction begun, and survives deaths and recovery |
| CrashTheorems.ProcessingMeansHeadBegun | test/stress_test.cpp:1441-1464 | in every reachable state a PROCESSING monitor means a non-empty queue whose head was begun and not ended; the stored number is that head's once it has been written |
| CrashTheorems.IndicesNeverCross | include/phoenix/layout/phoenix_shm_layout.hpp:217-241 | in every reachable state the stored indices describe between 0 and capacity messages, although recovery advances without a test |
| CrashTheorems.SkipDropsUnfinishedHead | include/phoenix/layout/phoenix_shm_layout.hpp:222-227 | the advance drops exactly the head, and that head is a request left unfinished |
| CrashTheorems.Conservation | src/ipc/ipc_server.cpp:326-332 | sent = removed in order, then queued, for every worker; the skip counter equals the number skipped in all |
| CrashTheorems.RemovedExactly | test/stress_test.cpp:1441-1464 | a removed request was begun once plus once for each crash that lost its pop; a popped one ended that often, a skipped one once less |
| CrashTheorems.QueuedExactly | test/stress_test.cpp:1448-1463 | requests behind the head are untouched; the counts of the head in each phase; it ended more than once only after crashes between end and pop |
| CrashTheorems.HeadsPresentAtRecovery | src/ipc/ipc_server.cpp:242-246 | what recovery requires of the queues holds whenever the supervisor looks |
| CrashProgress.WorkerNeverStuck | test/stress_test.cpp:1441-1464 | in every reachable state each live worker has a step of its own, and the child may die |
| CrashProgress.WorkerLoads | include/phoenix/core/spsc_ring_buffer.hpp:234-253 | its loads may be as stale as the ring allows |
| CrashProgress.SupervisorNeverStuck | src/ipc/ipc_server.cpp:229-267 | while the child is dead the supervisor has a step, unless its fork failed |
| CrashProgress.RecoveryCompletes | src/ipc/ipc_server.cpp:234-262 | from every reachable state with a dead child the supervisor's own steps lead to a restarted child: the heads of the processing workers are gone and nothing else, all monitors are idle, and the counters have grown by one crash and the monitors that were processing |
| CrashSequence.ProcessingSeqOrigin | include/phoenix/layout/thread_monitor.hpp:52-58 | in every reachable state a PROCESSING monitor shows its request's number if one was stored for that request, else zero or the number of a request that has left the queue |
| CrashSequence.ProcessingSeqExactly | include/phoenix/layout/thread_monitor.hpp:52-58 | with distinct nonzero ids the number shown is the right one exactly when it was stored in this transaction or in an earlier one whose pop a crash lost |
| CrashWitnesses.ProcessingSeqMayBeStale | include/phoenix/layout/thread_monitor.hpp:52-54 | a reachable state in which a PROCESSING monitor does not show its request's number |
| CrashWitnesses.RequestMayEndTwice | test/stress_test.cpp:1461-1463 | a run in which one request ends twice and none is skipped |
| ClientSteps.StepKeepsInv | src/ipc/ipc_client.cpp:122-285 | every step of issuing, registering, sending, timing out, polling and of the workers keeps the client invariant |
| ClientSteps.PeekedKeepsInv | src/ipc/ipc_client.cpp:230-243 | the look-up removes an entry only for the first response drained with its id |
| ClientSteps.SetOnlyByHandOver | src/ipc/ipc_client.cpp:245-250 | a promise is set only to a response that was found under its own id, and only when it is open |
| ClientSteps.PromiseIsFinal | src/ipc/ipc_client.cpp:245-250 | no step changes a promise that is set |
| ClientSteps.UnmatchedPasses | src/ipc/ipc_client.cpp:232-252 | a response with no pending entry changes nothing but the queue it leaves |
| ClientSteps.FirstWithIs | src/ipc/ipc_client.cpp:236-243 | the response the specification names is the first one with the id, if there is one |
| ClientTheorems.PromisesMatch | src/ipc/ipc_client.cpp:229-253 | in every run no promise is set twice, and one that is set carries its own call's id |
| ClientTheorems.PromiseStays | src/ipc/ipc_client.cpp:245-250 | a promise once set keeps its value to the end of the run |
| ClientTheorems.AsyncIsResolved | src/ipc/ipc_client.cpp:186-207 | a CallAsync whose send succeeded is pending exactly until a response with its id is drained, and the first such response is its result |
| ClientTheorems.RegisteredIsResolved | src/ipc/ipc_client.cpp:331-357 | the same for a Call from its registration on, until it times out |
| ClientTheorems.PendingIsOwn | src/ipc/ipc_client.cpp:135-207 | every pending id belongs to its own call and is below the next id |
| ClientTheorems.RequestsIncrease | src/ipc/ipc_client.cpp:287-321 | every request queue holds strictly increasing ids |
| ClientTheorems.CallsNeverStuck | src/ipc/ipc_client.cpp:122-208 | in every reachable state each call that is not settled has a step, a waiting one may time out, and when none is being sent another may be issued |
| ClientTheorems.CallMayMissItsAnswer | src/ipc/ipc_client.cpp:142-152 | a run in which a Call's answer is drained before the call registers, so that it stays pending with its answer gone |
| ClientTheorems.AsyncGetsThatAnswer | src/ipc/ipc_client.cpp:186-207 | the same exchange resolves a CallAsync |
| ClientDrain.QuietWakeUp | src/ipc/ipc_client.cpp:222-283 | an uninterrupted wake-up of the poller empties the response queues; every pending call gets the first response with its id or stays pending when there is none; no other promise changes |
| ClientDrain.AllResponses | src/ipc/ipc_client.cpp:227-282 | the responses a wake-up takes are those of the queues 1, 3, 5, 7, 9 and 11, in that order |
| ClientDrain.AllEmptied | src/ipc/ipc_client.cpp:227-282 | it leaves those six empty and the six request queues as they were |
| ClientDrain.DispatchIsSend | src/ipc/ipc_client.cpp:287-321 | choosing the least-loaded worker and pushing is one of the send steps of the step system |
| IpcClient.IpcClient.SendRequest | src/ipc/ipc_client.cpp:287-321 | answers and changes the queues as the dispatch function says |
| IpcClient.IpcClient.CallAsync | src/ipc/ipc_client.cpp:166-208 | on success exactly one open entry under the next id is added and returned; on failure it is taken back and the future already holds the invalid id |
| IpcClient.IpcClient.StartCall | src/ipc/ipc_client.cpp:128-149 | sends under the next id and registers nothing |
| IpcClient.IpcClient.RegisterWait | src/ipc/ipc_client.cpp:328-338 | adds one open entry under the id |
| IpcClient.IpcClient.TimeOutWait | src/ipc/ipc_client.cpp:343-350 | removes the entry and answers with the invalid id |
| IpcClient.IpcClient.Match | src/ipc/ipc_client.cpp:234-250 | one more response keeps every entry at the first response with its id |
| IpcClient.IpcClient.DrainQueue | src/ipc/ipc_client.cpp:229-253 | empties one response queue and settles its responses in order |
| IpcClient.IpcClient.Drain | src/ipc/ipc_client.cpp:225-282 | one wake-up empties all six response queues; every entry holds the first response with its id in queue order, or is still pending when there is none |
| ClientMirror.CallAsync | src/ipc/ipc_client.cpp:166-208 | the object's call is a run of the step system (issue, register, send, and erase when the send fails), and object and step state stay images of each other |
| ClientMirror.StartCall | src/ipc/ipc_client.cpp:128-149 | likewise issue and send, with nothing registered |
| ClientMirror.RegisterWait | src/ipc/ipc_client.cpp:328-338 | likewise the register step of that call |
| ClientMirror.TimeOutWait | src/ipc/ipc_client.cpp:343-350 | likewise its time-out step |
| ClientMirror.Drain | src/ipc/ipc_client.cpp:222-283 | likewise a wake-up is a run of poll steps that ends asleep |
| Text.DigitsOfPrinted | src/coordination/coordination_file.cpp:30-35 | the decimal digits printed for a number have that value |
| Text.PrintedIsCanonical | src/coordination/coordination_file.cpp:30-35 | they have no leading zero |
| Text.NumberIsRead | src/coordination/coordination_file.cpp:107 | what a conversion reads from any spaces, an optional sign, digits and any rest; without digits it throws |
| Text.PrintedIsRead | src/coordination/coordination_file.cpp:107 | the decimal conversion reads back a printed number, signed or not, whatever non-digit follows |
| Text.KeyOccurs | src/coordination/coordination_file.cpp:92 | a quoted key occurs in a text exactly where a piece between two quotes equals it |
| Text.FindKey | src/coordination/coordination_file.cpp:103 | the search stops at the first such piece |
| CoordinationFile.Create | src/coordination/coordination_file.cpp:26-36 | appends the lines in order to the rendered text |
| CoordinationFile.RenderedText | src/coordination/coordination_file.cpp:26-36 | the text, line by line |
| CoordinationFile.Read | src/coordination/coordination_file.cpp:75-147 | reads field by field, failing where the first failing field does; the fields before it are stored in the caller's record, the others keep their values |
| ReaderOnAnyText.FieldTextMissing | src/coordination/coordination_file.cpp:103-104 | a number field is of invalid format exactly when its quoted key occurs nowhere in the text |
| ReaderOnAnyText.FieldTextFound | src/coordination/coordination_file.cpp:103-107 | otherwise its text runs from the first colon after the key's first occurrence to the first stop after that, or to the end |
| ReaderOnAnyText.FieldTextNoColon | src/coordination/coordination_file.cpp:105-107 | without a colon after the key the unsigned positions wrap and the text is the whole content |
| ReaderOnAnyText.NumberFieldExactly | src/coordination/coordination_file.cpp:103-145 | invalid format for a missing key, an exception for a text that does not convert or is out of range, otherwise the number, a negative unsigned one modulo 2^64 |
| ReaderOnAnyText.NameMissing | src/coordination/coordination_file.cpp:92-93 | the name is of invalid format exactly when its key occurs nowhere |
| ReaderOnAnyText.NameFound | src/coordination/coordination_file.cpp:92-100 | otherwise it stands between the first two quotes after the colon; less than two quotes are a parse error |
| ReaderOnAnyText.NameNoColon | src/coordination/coordination_file.cpp:94-99 | without a colon after the key it is a parse error |
| ReaderOnAnyText.NumberFailsAt | src/coordination/coordination_file.cpp:103-145 | the first number line that fails decides the answer; the record has the fields before it and its old values from there on |
| ReaderOnAnyText.AllRead | src/coordination/coordination_file.cpp:92-147 | with every field read the answer is success with all seven |
| ReaderOnAnyText.MissingKey | src/coordination/coordination_file.cpp:103-141 | when the fields before a key are read and it occurs nowhere: invalid format, old values from its field on |
| ReaderOnAnyText.MissingName | src/coordination/coordination_file.cpp:92-93 | without the name's key: invalid format, and the record as it was |
| ReaderOnAnyText.SuccessNeedsAllKeys | src/coordination/coordination_file.cpp:92-147 | success means that all seven quoted keys occur |
| ReaderOnAnyText.EmptyText | src/coordination/coordination_file.cpp:75-77 | the empty text is a parse error |
| ReaderOnAnyText.ToPidExactly | src/coordination/coordination_file.cpp:128-129 | the cast of a 64-bit value to a process id is the value in range that differs by a multiple of 2^32 |
| CoordinationFile.SuccessFillsAll | src/coordination/coordination_file.cpp:100-147 | a successful read leaves nothing of the record's old values |
| RoundTrip.NameRead | src/coordination/coordination_file.cpp:92-100 | a name without quotes is read back, even one equal to a key |
| RoundTrip.NumberTextRead | src/coordination/coordination_file.cpp:103-145 | for every number line whose key is not the name, the text found converts to the number written |
| RoundTrip.NumberFails | src/coordination/coordination_file.cpp:103-145 | a name equal to a number line's key makes that line's conversion throw |
| RoundTrip.RoundTripExact | src/coordination/coordination_file.cpp:26-147 | reading the written text gives the same seven fields exactly when the name has no quote and is none of the six later keys |
| RoundTrip.SlashNamesSurvive | src/coordination/coordination_file.cpp:26-147 | for names that start with a slash, exactly when there is no quote |
| RoundTrip.ReadUpToKey | src/coordination/coordination_file.cpp:91-147 | for a name equal to a later key exactly the name and the numbers before that key's line are read back into the record |
| SimplifiedRing.StepHolds | include/phoenix/layout/simplified_shm_layout.hpp:210-254 | each operation answers as the bounded queue does and keeps holding it, while no stored index has lost its slot |
| SimplifiedRing.FifoUntilWrap | include/phoenix/layout/simplified_shm_layout.hpp:189-254 | every capacity gives a queue for the first 2^64 accepted pushes |
| SimplifiedRing.AlwaysFifoExactly | include/phoenix/layout/simplified_shm_layout.hpp:189-254 | the ring answers as a queue in all runs exactly when its capacity divides 2^64 |
| SimplifiedShmLayout.SizeCheckExact | include/phoenix/layout/simplified_shm_layout.hpp:75-80 | a too small segment passes the check exactly when the sum of the parts wraps past 2^64 and the segment covers the wrapped sum |
| SimplifiedShmLayout.OffsetsExact | include/phoenix/layout/simplified_shm_layout.hpp:75-87 | without that wrap the size needed is the header, 16 bytes a message and the payload, and every offset is where these add up to |
| SimplifiedShmLayout.SlotInside | include/phoenix/layout/simplified_shm_layout.hpp:189-203 | without that wrap every 16-byte slot lies between the queue and the payload offset, and the payload area inside the segment |
| SimplifiedShmLayout.SlotsApart | include/phoenix/layout/simplified_shm_layout.hpp:189-193 | different slots do not overlap, and neighbours are 16 bytes apart |
| SimplifiedShmLayout.SimplifiedShmLayout.Initialize | include/phoenix/layout/simplified_shm_layout.hpp:70-101 | succeeds exactly when the segment covers the calculated size; then every header field, both indices and the monitor are set, otherwise nothing is |
| SimplifiedShmLayout.SimplifiedShmLayout.Push | include/phoenix/layout/simplified_shm_layout.hpp:210-224 | the new slots and indices, and the answer, are those of the ring operation the theorems are about |
| SimplifiedShmLayout.SimplifiedShmLayout.Peek | include/phoenix/layout/simplified_shm_layout.hpp:230-239 | the slot named holds what the ring operation answers |
| SimplifiedShmLayout.SimplifiedShmLayout.Pop | include/phoenix/layout/simplified_shm_layout.hpp:245-256 | the new indices and the answer are those of the ring operation |
| PayloadChannel.EveryRun | src/ipc/phoenix_producer.cpp:134-173 | in every run the receipts are the accepted headers in order, the payload area is the in-order overlay of all accepted payloads, each receipt got the area as it then was, and every unread header's length fits the area |
| PayloadChannel.AnswerExactly | src/ipc/phoenix_producer.cpp:134-173 | a send is refused exactly for a length beyond the area, or with one capacity of messages unread |
| PayloadChannel.ReceivedHeader | src/ipc/phoenix_producer.cpp:162-166 | every header received has sequence id 0, the sender's function id and the low 32 bits of the length sent |
| PayloadChannel.UnreadHeader | src/ipc/phoenix_producer.cpp:162-166 | so has every header still queued |
| PayloadChannel.AreaAfterSend | src/ipc/phoenix_producer.cpp:156-160 | an accepted send leaves its payload at the start of the area and the rest as it was, whatever the length |
| PayloadChannel.ReceivedByte | src/ipc/phoenix_consumer.cpp:155-158 | each received byte is that of the last message sent before the receipt that was long enough to write it |
| PayloadChannel.IntactExactly | src/ipc/phoenix_consumer.cpp:148-165 | a message with data is received as sent exactly when its length is below 2^32 and no later message left another byte in its place before the receipt |
| PayloadChannel.IntactUnlessOverwritten | src/ipc/phoenix_consumer.cpp:148-165 | when later data messages differ in their first byte: exactly when the length is below 2^32 and none is sent before the receipt |
| PayloadChannel.OneAtATimeIsIntact | src/ipc/phoenix_producer.cpp:156-168 | if every message with data is sent on an empty queue, a receipt has the bytes sent exactly when their number is below 2^32 |
| PayloadChannel.TwoOutstandingMix | src/ipc/phoenix_producer.cpp:157-159 | from any consistent state with an empty queue: of two outstanding messages with data the first is received with the bytes of the second, as far as those reach |
| ChannelEnds.BlockingSendIsRun | src/ipc/phoenix_producer.cpp:140-173 | a send that waits is some receives and one send, so what holds in every run holds after it |
| ChannelEnds.BlockingSendFailsExactly | src/ipc/phoenix_producer.cpp:140-154 | a waiting send of a message that fits is refused exactly when the queue was full and nothing was received until the deadline |
| ChannelEnds.AwaitRoomExactly | src/ipc/phoenix_producer.cpp:140-154 | the wait ends with the first sleep in which something is received |
| ChannelEnds.BlockingReceiveExactly | src/ipc/phoenix_consumer.cpp:115-146 | a receive gets a message exactly when one is unread after some number k of sleeps within the deadline, none earlier, and the producer survives k + 2 liveness checks |
| ChannelEnds.BlockingReceiveDelivers | src/ipc/phoenix_consumer.cpp:148-165 | it then delivers the first unread message, with its function id and length, and exactly that one leaves the queue |
| ChannelEnds.AwaitMessageStops | src/ipc/phoenix_consumer.cpp:115-140 | the wait lasts until a message is unread, the deadline or the producer's death, whichever is first |
| ChannelEnds.BlockingReceiveInArea | src/ipc/phoenix_consumer.cpp:155-158 | in every run a receive, waiting or not, copies no byte from beyond the payload area |
| ChannelEnds.Producer.DoSend | src/ipc/phoenix_producer.cpp:129-174 | all four results, and the queue and payload area after each, whatever the consumer receives while the call sleeps |
| ChannelEnds.Consumer.DoReceive | src/ipc/phoenix_consumer.cpp:110-166 | the header and bytes delivered, or none, and the queue after it, whatever the producer sends while the call sleeps and at whichever check it is found dead |

## Left out

- ChannelEnds.Consumer.DoReceive: between its last look and its return one receive is atomic; the code copies the header after the pop, when a concurrent producer may already reuse the slot. What lies beyond the payload area is not modelled: a copy that would read it is reported, and `BlockingReceiveInArea` proves that no run has one.
- ChannelEnds.Producer.DoSend: the consumer acts only while the call sleeps, not between the last look and the push.
- PayloadChannel.EveryRun: the runs are of whole sends and receives, with at most 2^64 events unless the capacity divides 2^64.
- IpcServer.IpcServer.DispatchMessage: the choice of worker and the push are one step; that a concurrent worker can only make room between them is `RingRuns.NotFullThenPushSucceeds`.
- ClientTheorems.AsyncIsResolved: fewer than 2^64 calls, one at a time sending, and no Disconnect, which clears the pending map.
- Process start, exit and `waitpid`: the child's death is a step that stops all workers, and the supervisor's next look finds it. Its race at start-up, before the first `fork` has set the process id, is not modelled.
- The body of the worker process: the repository has none; the worker is the loop of the stress test, with Peek, BeginTransaction, EndTransaction and Pop as micro-steps. The timestamp and the worker's own identification are stored in one step.
- The C++ memory model beyond stale loads of the other side's index: stores become visible in order. The supervisor loads a dead worker's read index exactly.
- Several producers or consumers on one ring, and recovery while workers run: outside the ring's contract.
- Files, rename, `Touch`, `Delete`, `Exists`, event descriptors, clocks: a timeout is a step that may happen at any time, a deadline a number of further looks.
- `PushEmplace`, the `SendAsync` and `Send` results, the handler table, `ResponseCollectorMain` and the statistics getters: placeholders, or the same bodies again.
- `ForceAdvanceReadIndex`, `Available` and `FreeSpace` of the single-queue layout: neither a send nor a receive uses them.
- Alignment, padding and `sizeof` of the layout structures: cells are counted after the header, whose size is a parameter of the single-queue layout.
