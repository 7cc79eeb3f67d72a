# A verified model of the skynet runtime

Skynet is an actor runtime in C: services with message queues, a pool of worker threads, one timer
thread and one socket thread. This project models its self-contained algorithms in Dafny and proves
what the rest of the runtime relies on. Nothing of the original is linked or executed.

`dafny verify dfyconfig.toml` checks everything, within the verifier's default limits.

## How the model is built

Code that changes state in place is a class with the same fields and loops, and its methods are proved
against functions on values. The properties of whole runs are lemmas about those functions, or about
transition systems whose steps are the atomic steps of the source.

| files | what they model |
|---|---|
| `TimerWheel`, `Timer` | the timer wheel: placement, cascade and drain against an unbounded history of timers; the object that does it in place |
| `SocketState`, `SocketLifecycle`, `Socket`, `SocketProtocol`, `SocketFifo` | one TCP socket: write path, commands and events, the object in place, every interleaving of callers with the socket thread, and what it keeps of order and wholeness |
| `MessageQueue`, `Scheduler`, `RwLock` | the ring and the global list in place; workers and services as a transition system; the reader/writer spin lock |
| `HashId`, `ServiceNames`, `ServiceTable` | the pooled hash of connection ids; handles and sorted names as values; the slot and name tables in place |
| `HttpChunks`, `HttpParser`, `Url` | the chunked-body states byte by byte; the same in bulk with marks and callbacks; URL parsing |
| `Framing`, `DataBuffer`, `Gate`, `WebSocket` | cutting a byte stream into messages; the buffer and the two gateways in place |
| `Sha1Block`, `Sha1`, `Base64`, `Bytes`, `Sequences`, `Options` | the compression function and the digest; base64; shared definitions |

Standing assumptions: sequentially consistent atomics with the `__sync` branch of
`skynet-src/skynet_atomic.h`, regions under a spin lock are single steps, HTTP strict mode, harbor ids
1 to 255, at most 256 service slots.

Three points of the socket protocol deserve a note. A message is handed to the kernel directly only after
two checks; `nomore_sending_data` reads the lists before it reads `sending`, and the socket thread queues
a message before it decrements that counter, so the locked check alone would not be enough. The proof
shows what is: the read of `sending` in the first, unlocked check together with the lists read under the
lock. `SocketProtocol` therefore makes every read a step of its own and lets all other reads of the
unlocked check return anything.

`force_close` frees both lists before it takes the lock. A caller whose locked check falls in between
finds nothing waiting and writes directly, past messages that were queued before its own. The freeing
and the closing are two steps of the model, and the order theorem says exactly which runs it costs.

Every message carries the number of its call and every byte the number of its message, so that two
messages with the same bytes are still told apart and a prefix of the calls means what it says.

## Where the code falls short of its promise

Each of these has its exact condition in the model and, where the condition does not show one, an input
at which it happens.

- Order on one socket: messages of one caller and priority go out in call order except exactly when a
  direct write falls between the freeing of the lists and the lock of `force_close` while one of them
  waited, or when one was refused on an accepted socket that was not started yet
  (`SocketFifo.FifoPerCaller`; runs: `SocketFifo.ShutdownLosesOrder`, `SocketFifo.UnstartedLosesOrder`).
  What is sent stays in order in any case, with messages missing (`SocketFifo.OrderSurvives`).
- Whole messages: the bytes accepted are a prefix of whole messages except exactly when such a write
  follows a message that was cut (`SocketFifo.NoMessageTorn`; run: `SocketFifo.ShutdownLosesOrder`).
- Chunk sizes: the `unhex` table has 128 initializers for 256 entries, so every byte from 128 on is a
  hex digit 0, as the first digit and as any later one (`HttpChunks.TableDigits`). A size numeral is
  accepted exactly below 2^64 - 16 (`HttpChunks.NumeralAccepted`).
- Chunked bodies: a call reports all it read except exactly when it stops, after at least one byte, on a
  byte other than a carriage return behind the data of a chunk; then the data read in that call is
  not reported (`HttpParser.HeardExactly`; inputs: `HttpParser.DataIsLost`).
- URLs: offsets and lengths are 16 bits wide. The answer for a URL is the exact one exactly when the
  run of every field and every span of the result fit (`Url.WrapsExactly`; input: `Url.LongPathWraps`).
- SHA-1: the padding is the standard one exactly when the length is not 56 modulo 64 and below 2^29
  (`Sha1.PaddingIsStandard`).
- base64: all inputs of a length are encoded as they should be exactly up to 2^31 + 1 bytes
  (`Base64.WrittenExactly`; inputs: `Base64.SpoiledIsMangled`).
- Service slots: the scan for a free slot visits every slot exactly when it does not cross INDEX_MASK;
  otherwise it misses slot 0, and a table in which only that slot is free counts as full
  (`ServiceTable.ScanCovers`, `ServiceTable.ServiceStorage.ScanFree`). A handle keeps its slot index
  exactly below 256 (`ServiceNames.HandleKeepsIndex`).
- Service names: releasing a service leaves every other service its names exactly when its own name is
  not bound to another service (`ServiceTable.ReleaseExactly`; run: `ServiceTable.ReleaseSecondOfAName`).
- Hashed ids: the probe for a free node computes `i + id` in an int and overflows exactly when all nodes
  it can look at before are used (`HashId.HashId.FindFree`; run: `HashId.OverflowReached`). No table
  with a free node overflows exactly for the ids that leave room for the capacity
  (`HashId.NeverOverruns`).
- WebSocket gateway: an empty binary frame is forwarded but never removed, so the driving loop never
  ends (`WebSocket.WsConnection.Drive`). A text, ping or pong frame stays at the front of the buffer and
  nothing behind it is ever forwarded (`WebSocket.LeftBlocks`).

## Model

| member | source | states |
|---|---|---|
| TimerWheel.PlaceOf | skynet-src/skynet_timer.c:71-90 | for every expiry and clock the chosen list exists: one of 256 near lists or of 4 levels of 64 |
| TimerWheel.CurrentSlotIsNow | skynet-src/skynet_timer.c:71-90 | the near slot of the clock value is chosen exactly for the timers that expire at this very value |
| TimerWheel.ShiftMovesExactly | skynet-src/skynet_timer.c:115-136 | when the clock advances, a pending timer belongs in another list if and only if it sits in the one list that is cascaded; it then moves to a lower level; the other lists hold nothing that should move |
| TimerWheel.RoutedStaysBelow | skynet-src/skynet_timer.c:115-136 | cascaded timers never land behind timers already waiting at their level or above, which is why order survives a cascade |
| TimerWheel.ShiftIsCanonical | skynet-src/skynet_timer.c:105-136 | emptying the cascaded list and re-adding its nodes puts every pending timer in the list `add_node` would choose now, each list in the order of registration |
| TimerWheel.DrainIsExact | skynet-src/skynet_timer.c:159-170 | draining the current slot removes exactly the timers due now and hands out their events in the order they were added |
| TimerWheel.DueIsStable | skynet-src/skynet_timer.c:92-103 | timers added for later ticks do not change what is due at a tick |
| TimerWheel.PutAllRoutes | skynet-src/skynet_timer.c:105-113 | re-adding a list node by node appends to each list exactly its part, in order |
| TimerWheel.CanonicalAfterAdd | skynet-src/skynet_timer.c:92-103 | adding a timer keeps every list equal to the selection of the history that belongs there |
| TimerWheel.CanonicalAfterShift | skynet-src/skynet_timer.c:115-136 | so does a shift of the clock |
| TimerWheel.CanonicalAfterDrain | skynet-src/skynet_timer.c:159-170 | so does draining the current slot, which holds exactly the events due |
| Timer.Timer.constructor | skynet-src/skynet_timer.c:187-208 | a new wheel is empty, canonical and at tick 0 |
| Timer.Timer.AddNode | skynet-src/skynet_timer.c:71-90 | the search through the levels appends the node to the list `PlaceOf` names and changes no other list |
| Timer.Timer.TimerAdd | skynet-src/skynet_timer.c:92-103 | for every delay from 1 to 2^31-1, also across the wrap of the clock, the timer joins the history at its tick and the invariant holds |
| Timer.Timer.MoveList | skynet-src/skynet_timer.c:105-113 | a list is emptied and its nodes re-added in order |
| Timer.LevelStep | skynet-src/skynet_timer.c:125-134 | a turn of the cascade loop stops at the lowest non-zero digit of the clock, and goes on to a next level otherwise |
| Timer.Timer.Redistribute | skynet-src/skynet_timer.c:117-135 | the loop redistributes exactly the one list that must be, or none |
| Timer.Timer.TimerShift | skynet-src/skynet_timer.c:115-136 | the clock advances by one modulo 2^32 and every pending timer is again in its canonical list |
| Timer.Timer.DispatchList | skynet-src/skynet_timer.c:138-157 | every node of the detached list is handed over once, in order |
| Timer.Timer.Others | skynet-src/skynet_timer.c:211-242 | any registrations by other threads while the lock is open keep the invariant and are due later |
| Timer.SlotIsDue | skynet-src/skynet_timer.c:159-170 | the slot of the current tick holds what is due before it is drained and nothing afterwards, whatever was added meanwhile |
| Timer.Timer.TimerExecute | skynet-src/skynet_timer.c:159-170 | the loop ends, hands out exactly what is due now, and adds made while the lock is open cannot land in the slot |
| Timer.Timer.TimerUpdate | skynet-src/skynet_timer.c:172-185 | one update fires exactly the timers due at the new tick, in the order they were added |
| Timer.Timer.Register | skynet-src/skynet_timer.c:211-242 | a delay that is not positive is answered at once, any other is queued at its tick |
| Timer.Timer.RunTicks | skynet-src/skynet_timer.c:283-291 | over any number of ticks with any registrations in between, tick k hands out exactly the events due at tick k of the final history |
| Timer.Timer.UpdateTime | skynet-src/skynet_timer.c:277-293 | a clock that went back fires nothing; otherwise one tick per elapsed unit, counters included |
| Timer.GrownKeepsDue | skynet-src/skynet_timer.c:172-185 | what earlier ticks handed out stays right when the history grows |
| Timer.ExactlyOnce | skynet-src/skynet_timer.c:159-185 | over any stretch of ticks the multiset of events handed out is the multiset of timers due there: none lost, none twice |
| SocketState.NeverTorn | skynet-src/socket_server.c:720-750 | under the invariant the bytes accepted by the kernel are a prefix of a concatenation of whole messages |
| SocketState.SendListShape | skynet-src/socket_server.c:720-750 | for any kernel answers only the head of what is left may be partly sent |
| SocketState.SendListBytes | skynet-src/socket_server.c:720-750 | the unsent bytes of the list shrink by exactly what the kernel took |
| SocketState.SendListOrder | skynet-src/socket_server.c:720-750 | messages start on the wire in list order and none is skipped |
| SocketState.SendListWhole | skynet-src/socket_server.c:720-750 | the bytes sent, completed by the cut head, are whole messages |
| SocketState.SendListLast | skynet-src/socket_server.c:720-750 | a cut head is the message begun last |
| SocketState.GoodForceClose | skynet-src/socket_server.c:485-516 | freeing the queues keeps the invariants |
| SocketState.GoodReportBroken | skynet-src/socket_server.c:697-718 | so does a broken write side, and nothing changes its place |
| SocketState.GoodUnload | skynet-src/socket_server.c:931-948 | a remainder of a direct write goes to the front of the high list: invariants and order stay |
| SocketState.GoodSendHigh | skynet-src/socket_server.c:869-878 | sending the high list keeps invariants and order |
| SocketState.SendLowFacts | skynet-src/socket_server.c:879-890 | sending the low list leaves at most its head cut, with nothing else waiting before it |
| SocketState.RaisedFacts | skynet-src/socket_server.c:836-851 | moving a cut low head to the empty high list restores the invariant that no low head is ever cut |
| SocketState.DrainedIsZero | skynet-src/socket_server.c:899-900 | with both lists empty `wb_size` is 0, as the assert demands |
| SocketState.GoodSendBuffer | skynet-src/socket_server.c:866-953 | `send_buffer` on any kernel answers: no torn message, `wb_size` exact, transmission order unchanged |
| SocketState.GoodSendSocket | skynet-src/socket_server.c:1014-1084 | a request from the pipe is dropped on a dead socket or queued behind its list, and the invariants hold |
| SocketState.DirectOutcome | skynet-src/socket_server.c:1832-1857 | a direct write takes nothing, everything, or leaves a cut remainder in `dw_buffer` |
| SocketState.GoodDirectWrite | skynet-src/socket_server.c:1824-1870 | a direct write with only whole messages queued keeps the invariants |
| SocketLifecycle.GoodStep | skynet-src/socket_server.c:1113-1218 | every command and event keeps the data invariants, whatever the read of the counter returned |
| SocketLifecycle.AliveStep | skynet-src/socket_server.c:1113-1218 | HALFCLOSE_READ leaves only to INVALID, INVALID stays, `closing` implies HALFCLOSE_READ until then; SOCKET_CLOSE or a failed connect was seen exactly when the socket is HALFCLOSE_READ, INVALID or being freed |
| SocketLifecycle.ClosedOnce | skynet-src/socket_server.c:1113-1162 | over every sequence of commands and events of one incarnation SOCKET_CLOSE is raised at most once, and the socket ends exactly after it or after a failed connect |
| SocketLifecycle.AlwaysGood | skynet-src/socket_server.c:485-516 | over every sequence of commands and events, direct writes between the freeing of the lists and the lock included: in use, `wb_size` counts what is left and nothing is torn; once the lists were freed, what was accepted before lacks exactly the rest of a cut head, and what is accepted afterwards is whole messages again |
| Socket.Socket.constructor | skynet-src/socket_server.c:561-592 | a new socket has empty lists, nothing counted and nothing in flight |
| Socket.Socket.DoForceClose | skynet-src/socket_server.c:485-516 | frees the lists and the side buffer in place |
| Socket.Socket.DoCloseWrite | skynet-src/socket_server.c:697-718 | chooses between closing, half-closing and reporting as the specification does |
| Socket.Socket.WriteHead | skynet-src/socket_server.c:725-747 | one write moves exactly the accepted bytes of the head to the wire |
| Socket.Socket.SendListTcp | skynet-src/socket_server.c:720-750 | the loop over one list equals the recursive specification, for any kernel answers |
| Socket.Socket.RaiseUncomplete | skynet-src/socket_server.c:836-851 | moves the cut head; its assert holds |
| Socket.Socket.SendLowList | skynet-src/socket_server.c:879-924 | steps 2 to 4 of `send_buffer_`; the assert of line 900 holds |
| Socket.Socket.DoSendLists | skynet-src/socket_server.c:866-925 | `send_buffer_` equals its specification; the assert of line 868 holds |
| Socket.Socket.UnloadDirect | skynet-src/socket_server.c:931-948 | the remainder of a direct write becomes the head of the high list |
| Socket.Socket.DoSendBuffer | skynet-src/socket_server.c:927-953 | skipped when the lock is taken, otherwise the specified result with the invariants |
| Socket.Socket.DoSendSocket | skynet-src/socket_server.c:1014-1084 | the specified result, and the counter goes down by one |
| Socket.Socket.TryDirect | skynet-src/socket_server.c:1824-1870 | writes directly exactly when the locked check passes, with the specified result |
| Socket.Socket.DoCloseSocket | skynet-src/socket_server.c:1135-1162 | the specified decision, state and event |
| Socket.Socket.DoForward | skynet-src/socket_server.c:1408-1468 | the same for data, end of stream and read errors |
| Socket.Socket.DoResume | skynet-src/socket_server.c:1181-1218 | the same for starting or resuming a socket |
| SocketProtocol.StartInv | skynet-src/socket_server.c:561-592 | the protocol invariant holds for a freshly opened socket |
| SocketProtocol.BeginInv | skynet-src/socket_server.c:1813-1822 | and after a thread enters a send call |
| SocketProtocol.FirstCheckInv | skynet-src/socket_server.c:1806-1824 | the unlocked check: `sending` read as 0 means none of this caller's requests is in the pipe |
| SocketProtocol.TryLockInv | skynet-src/socket_server.c:1824-1826 | taking or missing the lock keeps the invariant |
| SocketProtocol.SecondReadInv | skynet-src/socket_server.c:1806-1826 | each single read of the locked check adds what the caller may rely on for the direct write |
| SocketProtocol.UnlockInv | skynet-src/socket_server.c:1871-1874 | giving up the direct write keeps it |
| SocketProtocol.CountInv | skynet-src/socket_server.c:1314-1334 | raising the counter before pushing keeps it equal to the requests in flight |
| SocketProtocol.PushInv | skynet-src/socket_server.c:1876-1881 | pushing the request keeps order and count |
| SocketProtocol.CommandInv | skynet-src/socket_server.c:1911-1928 | so do close, shutdown and start requests of any thread |
| SocketProtocol.SettledInv | skynet-src/socket_server.c:1336-1345 | lowering the counter after the request was queued keeps it exact |
| SocketProtocol.DirectConserves | skynet-src/socket_server.c:1824-1870 | the direct write overtakes no earlier message of its caller, although other callers may have queued some meanwhile |
| SocketProtocol.DirectInv | skynet-src/socket_server.c:1824-1870 | and keeps the whole invariant |
| SocketProtocol.SendSocketOrder | skynet-src/socket_server.c:1014-1084 | queueing puts a message behind every message of its caller and priority, although it goes between the two lists |
| SocketProtocol.ServeConserves | skynet-src/socket_server.c:1348-1405 | taking a send request from the pipe keeps every caller's order |
| SocketProtocol.ServeSendInv | skynet-src/socket_server.c:1348-1405 | and the whole invariant |
| SocketProtocol.ServeControlInv | skynet-src/socket_server.c:1348-1405 | so does serving close and start requests |
| SocketProtocol.FreeInv | skynet-src/socket_server.c:496-497 | freeing both lists without the lock, while callers go on, keeps the invariant: what waited is set aside, in order |
| SocketProtocol.ForceInv | skynet-src/socket_server.c:499-515 | closing under the lock keeps it: what a direct write left in `dw_buffer` meanwhile is dropped |
| SocketProtocol.PollWriteInv | skynet-src/socket_server.c:1725-1730 | a writable event with any kernel answers keeps the invariant |
| SocketProtocol.RelabelInv | skynet-src/socket_server.c:1645-1757 | so do connects, reads, errors and hang-ups |
| SocketProtocol.StepInv | skynet-src/socket_server.c:1645-1903 | every step of every thread keeps the protocol invariant |
| SocketProtocol.RunInv | skynet-src/socket_server.c:1645-1903 | it therefore holds on every interleaving |
| SocketFifo.NumberedRun | skynet-src/socket_server.c:1811-1882 | on every run the calls are numbered in the order they were made, and every byte carries the number of its message |
| SocketFifo.LateStep | skynet-src/socket_server.c:485-516 | after the lists were freed only direct writes before the lock begin messages or put bytes on the wire, each exactly its own |
| SocketFifo.OrderAt | skynet-src/socket_server.c:1811-1882 | in every reachable state the messages begun of one caller and priority are a prefix of its calls exactly when nothing of it was refused or set aside before another began |
| SocketFifo.OvertakenIff | skynet-src/socket_server.c:485-516 | whether a run had a direct write between freeing and lock that overtakes can be told from its last state |
| SocketFifo.TornIff | skynet-src/socket_server.c:485-516 | so can whether it had one that follows a cut message |
| SocketFifo.FifoPerCaller | skynet-src/socket_server.c:1811-1903 | on every run and for any number of callers: what the peer sees of one caller and priority is a prefix of that caller's calls, in call order, if and only if nothing of it was refused before the start (or nothing of it was begun) and no direct write between freeing and lock overtook one that waited; low priority is never overtaken, sockets opened by connect or bind refuse nothing before their start, and nothing is dropped while the socket can take data |
| SocketFifo.NoMessageTorn | skynet-src/socket_server.c:720-750 | on every run the bytes accepted are a prefix of whole messages if and only if no direct write between freeing and lock followed a cut message |
| SocketFifo.OrderSurvives | skynet-src/socket_server.c:1811-1903 | on every run, these included, the messages of one caller and priority begin in call order and none twice; only some may be missing |
| SocketFifo.BegunOnce | skynet-src/socket_server.c:485-516 | a message begun before the lists were freed is never begun again afterwards |
| SocketFifo.WholeAt | skynet-src/socket_server.c:485-516 | in every reachable state the accepted bytes are a prefix of whole messages exactly when no cut message was freed or nothing was accepted since |
| SocketFifo.OpenedIsStarted | skynet-src/socket_server.c:1181-1218 | a socket opened by connect or bind never refuses a message as not started |
| SocketFifo.ShutdownLosesOrder | skynet-src/socket_server.c:485-516 | a run of one caller in which a shutdown lets the third message overtake the second and tears the first |
| SocketFifo.UnstartedLosesOrder | skynet-src/socket_server.c:1014-1030 | a run in which a message to an accepted socket is thrown away before the start and the next one goes out |
| MessageQueue.RingFront | skynet-src/skynet_mq.c:156-172 | advancing the head, with or without wrap, removes exactly the front of the sequence |
| MessageQueue.MessageQueue.constructor | skynet-src/skynet_mq.c:81-101 | a new queue is empty and marked as in the global list |
| MessageQueue.MessageQueue.Length | skynet-src/skynet_mq.c:125-139 | the length of the sequence |
| MessageQueue.MessageQueue.ExpandQueue | skynet-src/skynet_mq.c:193-207 | a full ring is doubled, contents and order kept |
| MessageQueue.MessageQueue.Put | skynet-src/skynet_mq.c:214-221 | appends; the ring is never left full |
| MessageQueue.MessageQueue.Watch | skynet-src/skynet_mq.c:175-178 | the threshold is 1024 times a power of two and covers the length afterwards |
| MessageQueue.MessageQueue.Pop | skynet-src/skynet_mq.c:156-191 | removes the front; an empty queue resets the threshold and gives up its place in the global list unless concurrent |
| MessageQueue.MessageQueue.Push | skynet-src/skynet_mq.c:209-229 | appends, and publishes the queue exactly when it was in no list |
| MessageQueue.GlobalQueue.constructor | skynet-src/skynet_mq.c:231-237 | the empty list |
| MessageQueue.GlobalQueue.Append | skynet-src/skynet_mq.c:38-50 | appends through the `next` pointers; the list stays acyclic with the right tail |
| MessageQueue.GlobalQueue.Take | skynet-src/skynet_mq.c:52-79 | removes the front; a concurrent queue goes back to the end |
| Scheduler.PlacedStep | skynet-src/skynet_server.c:7-49 | every step keeps the queue of a service in exactly one place |
| Scheduler.OrderStep | skynet-src/skynet_mq.c:156-229 | every step keeps: pushed is handled followed by waiting |
| Scheduler.StepInv | skynet-src/skynet_server.c:7-49 | every step of any worker or sender keeps the scheduler invariant |
| Scheduler.RunInv | skynet-src/skynet_server.c:7-49 | it therefore holds on every run |
| Scheduler.OneWorkerPerService | skynet-src/skynet_server.c:7-31 | two workers never run one non-concurrent service together |
| Scheduler.NothingStranded | skynet-src/skynet_mq.c:156-229 | a published queue with messages is in the global list or held by a worker |
| Scheduler.ListedOnce | skynet-src/skynet_mq.c:38-79 | no queue is in the global list twice |
| Scheduler.PublishedOnlyWhenFree | skynet-src/skynet_mq.c:223-226 | `in_global` 0 means: in no list, held by nobody, empty and already published |
| Scheduler.HandledInOrder | skynet-src/skynet_server.c:33-49 | every service handles its messages in push order, each once |
| Scheduler.ServedInListOrder | skynet-src/skynet_mq.c:38-79 | from any state on and over every run, the queues taken so far and those still listed begin with the queues listed at the start |
| Scheduler.NoOvertaking | skynet-src/skynet_mq.c:38-79 | over every run the queue `i` places behind the front is the one taken after `i` others, and until then it has moved forward by exactly as many places as queues were taken |
| RwLock.StepInv | skynet-src/skynet_rwlock.h:19-47 | every atomic step of any thread keeps the counters equal to the threads they count and readers and writers apart |
| RwLock.RunInv | skynet-src/skynet_rwlock.h:19-47 | on every interleaving |
| RwLock.Exclusion | skynet-src/skynet_rwlock.h:19-47 | never two writers inside, never a reader beside a writer, for any number of threads |
| RwLock.ReadCounts | skynet-src/skynet_rwlock.h:19-47 | `read` is the number of threads between increment and decrement, `write` is 1 exactly while a writer has claimed the lock |
| HashId.InsertedOk | service-src/util/hashid.h:91-113 | linking a free node at the head of its bucket keeps every chain acyclic and complete and adds one binding |
| HashId.RemovedOk | service-src/util/hashid.h:64-89 | unlinking a node keeps the chains and removes one binding |
| HashId.ProbeReaches | service-src/util/hashid.h:95-101 | the probe sequence visits every node |
| HashId.FullMeansAll | service-src/util/hashid.h:115-118 | the count reaches the capacity exactly when no node is free |
| HashId.HashId.constructor | service-src/util/hashid.h:21-39 | the empty map; the bucket count is a power of two of at least 16 and at least the capacity |
| HashId.HashId.Lookup | service-src/util/hashid.h:52-62 | the slot bound to the id, or -1, for every id |
| HashId.HashId.Full | service-src/util/hashid.h:115-118 | true exactly when no node is free |
| HashId.HashId.FindFree | service-src/util/hashid.h:95-102 | for every id the probe meets the first free node of its sequence, or overflows exactly when the nodes up to INT_MAX are all used; the assert holds otherwise |
| HashId.NeverOverruns | service-src/util/hashid.h:95-96 | no table of a capacity that has a free node makes the probe overflow if and only if `id + cap - 1` is at most INT_MAX |
| HashId.OverflowReached | service-src/util/hashid.h:91-101 | a map of two nodes, one of them free, that cannot take the id INT_MAX |
| HashId.HashId.Insert | service-src/util/hashid.h:91-113 | for every id whose probe does not overflow: binds the new id to the first free node of its probe sequence, which no other id has, and changes nothing else |
| HashId.HashId.Unlink | service-src/util/hashid.h:84-88 | frees the node and its binding only |
| HashId.HashId.Remove | service-src/util/hashid.h:64-89 | removes the binding and returns its slot, or -1, for every id |
| ServiceNames.HandleKeepsIndex | skynet-src/skynet_harbor.c:27-37 | index and harbor can be read back from a handle exactly when each is below 256; handles of harbors 1 to 255 are at least 256 |
| ServiceNames.RehashKeepsSlot | skynet-src/skynet_service.c:111-115 | when the table doubles, every service keeps its slot |
| ServiceNames.LessTotal | skynet-src/skynet_service.c:153-161 | the order of `strcmp` is total |
| ServiceNames.LessAsym | skynet-src/skynet_service.c:153-161 | strict |
| ServiceNames.LessTrans | skynet-src/skynet_service.c:153-161 | and transitive |
| ServiceNames.InsertSorted | skynet-src/skynet_service.c:122-145 | inserting at the gap keeps the array strictly sorted and adds exactly one binding |
| ServiceNames.DeleteSorted | skynet-src/skynet_service.c:166-187 | deleting keeps it sorted and removes exactly one binding |
| ServiceTable.ScanCovers | skynet-src/skynet_service.c:86-92 | one round of the scan looks at every slot if and only if it does not cross INDEX_MASK |
| ServiceTable.HandlesDistinct | skynet-src/skynet_service.c:78-109 | two live services never share a handle |
| ServiceTable.NamesFit | skynet-src/skynet_service.c:122-126 | when a name is added to a full name array the doubled capacity is at most the slot count: the assert never fails |
| ServiceTable.ServiceStorage.constructor | skynet-src/skynet_service.c:218-233 | empty tables |
| ServiceTable.ServiceStorage.Grow | skynet-src/skynet_service.c:108-118 | doubling keeps every service in its slot; its asserts hold |
| ServiceTable.ScanReachesOthers | skynet-src/skynet_service.c:86-92 | a scan that crosses INDEX_MASK still looks at every slot but slot 0 |
| ServiceTable.ServiceStorage.ScanFree | skynet-src/skynet_service.c:86-107 | from every start index: a free slot is found unless the table is full, or unless only slot 0 is free and the scan crosses INDEX_MASK |
| ServiceTable.ServiceStorage.Create | skynet-src/skynet_service.c:78-120 | the new service gets a free slot named by its handle, the table doubles exactly when it was full, every other slot is unchanged |
| ServiceTable.ServiceStorage.Find | skynet-src/skynet_service.c:314-331 | finding by handle is exact in both directions |
| ServiceTable.ServiceStorage.Locate | skynet-src/skynet_service.c:147-164 | the binary search finds the name or the gap where it belongs |
| ServiceTable.ServiceStorage.FindName | skynet-src/skynet_service.c:189-210 | the handle bound to the name, 0 when there is none |
| ServiceTable.ServiceStorage.FindByName | skynet-src/skynet_service.c:333-351 | a bound name always leads to its live service |
| ServiceTable.ServiceStorage.EnlargeNames | skynet-src/skynet_service.c:123-136 | the doubled name array holds the old names with a hole at the gap |
| ServiceTable.ServiceStorage.ShiftUp | skynet-src/skynet_service.c:137-142 | so does the array after shifting in place |
| ServiceTable.ServiceStorage.InsertNameBefore | skynet-src/skynet_service.c:122-145 | the name array with the entry inserted, in both branches |
| ServiceTable.ServiceStorage.InsertName | skynet-src/skynet_service.c:147-164 | the first binding of a name wins; no other binding changes |
| ServiceTable.ServiceStorage.ShiftDown | skynet-src/skynet_service.c:174-177 | closes the hole of a deleted name |
| ServiceTable.ServiceStorage.DeleteName | skynet-src/skynet_service.c:166-187 | exactly the binding of the name goes |
| ServiceTable.ServiceStorage.CreateNamed | skynet-src/skynet_service.c:239-251 | the new service gets a free slot and its name, which stays bound to the first service that took it |
| ServiceTable.ServiceStorage.Release | skynet-src/skynet_service.c:279-290 | the slot is freed and the service's name removed, whoever it is bound to; every remaining name still leads to a live service, and every other service keeps its names exactly when the name was not bound to another |
| ServiceTable.ReleaseExactly | skynet-src/skynet_service.c:166-187 | deleting a service's name takes no other service's binding if and only if the name is unbound or bound to this service |
| ServiceTable.ReleaseSecondOfAName | skynet-src/skynet_service.c:239-290 | from an empty table: two services of one name are created, the second is released, and the first, still alive, is no longer found by name |
| HttpChunks.Step | service-src/http/http_parser.c:703-708 | every byte keeps the conditions the chunk states assert, among them that the size stays below 2^64 - 16 |
| HttpChunks.StepsJoin | service-src/http/http_parser.c:1894-2014 | reading on from where a first piece ended is reading both at once |
| HttpChunks.SplitIndependence | service-src/http/http_parser.c:1894-2014 | an accepted input gives the same state, callbacks and count however it is cut into non-empty calls |
| HttpChunks.TableDigits | service-src/http/http_parser.c:1894-1945 | as the first digit of a size numeral and as every later one exactly the hex digits pass and, against section 4.1 of RFC 7230, the bytes from 128 on, which count as 0 |
| HttpChunks.DigitStep | service-src/http/http_parser.c:1910-1945 | the overflow test passes exactly when the longer numeral is below 2^64 - 16 |
| HttpChunks.NumeralAccepted | service-src/http/http_parser.c:1894-1945 | a numeral of bytes that pass, those from 128 on included, is accepted if and only if its value is below 2^64 - 16, and then the size is its exact value |
| HttpChunks.DataReads | service-src/http/http_parser.c:1976-1997 | chunk data is passed on unchanged and counted down to 0 |
| HttpChunks.ChunkReads | service-src/http/http_parser.c:1894-2014 | one encoded chunk, with any extension, gives its header, its data and its completion |
| HttpChunks.BodyReads | service-src/http/http_parser.c:1885-2014 | a whole encoded body is consumed with exactly the callbacks of its chunks and the end of the message |
| HttpChunks.RoundTrip | service-src/http/http_parser.c:1885-2045 | for all chunks of section 4.1 of RFC 7230 and every split into non-empty calls: the body callbacks concatenate to the payload, message_complete fires once, every byte is consumed |
| HttpParser.FlatDelivers | service-src/http/http_parser.c:2033-2045 | merging bytes into fewer callbacks changes neither body nor completions |
| HttpParser.HttpParser.TakeByte | service-src/http/http_parser.c:1885-2014 | one turn of the loop equals one step of the byte machine; the asserts hold |
| HttpParser.HttpParser.Turn | service-src/http/http_parser.c:1976-2014 | a bulk read of chunk data with its mark accounts for the same events as reading byte by byte |
| HttpParser.HttpParser.Loop | service-src/http/http_parser.c:703-2045 | the loop ends where the byte machine ends |
| HttpParser.HeardExactly | service-src/http/http_parser.c:1976-2014 | everything a call read is reported if and only if it does not stop, after at least one byte, on a wrong byte behind the data of a chunk |
| HttpParser.DataIsLost | service-src/http/http_parser.c:1976-2014 | for every chunk and every such byte in one call: the data was read and counted, and none of it is reported |
| HttpParser.HttpParser.Execute | service-src/http/http_parser.c:634-710 | a whole call, with or without an error: same end state and count as byte by byte, and exactly the events `Heard` names |
| HttpParser.HttpParser.ReceiveBody | service-src/http/http_parser.c:634-2045 | the object fed an encoded body in any pieces delivers the payload, fires message_complete once, consumes every byte and ends in the finished state |
| Url.RankGrows | service-src/http/http_parser.c:486-632 | the URL machine never goes back to an earlier part |
| Url.NoReturn | service-src/http/http_parser.c:2331-2387 | a field met again is the one being read, so its span stays contiguous |
| Url.ScanIsExact | service-src/http/http_parser.c:2331-2387 | after every prefix the recorded spans are exactly the runs of their states |
| Url.HostRankGrows | service-src/http/http_parser.c:2145-2225 | the host machine never goes back |
| Url.HostScanIsExact | service-src/http/http_parser.c:2240-2289 | the parts of the host are exactly the runs of their states |
| Url.HostWasSeen | service-src/http/http_parser.c:2291-2306 | an accepted host part has a non-empty host |
| Url.FieldsAreRuns | service-src/http/http_parser.c:2227-2435 | every set field of an accepted URL is a non-empty span inside the buffer and holds exactly the bytes whose state belongs to it |
| Url.FieldsAreDisjoint | service-src/http/http_parser.c:2227-2435 | no two fields share a byte |
| Url.PortIsDigits | service-src/http/http_parser.c:2407-2419 | the port field holds digits only, inside the buffer |
| Url.PortOfDigits | service-src/http/http_parser.c:2420-2431 | on digits the conversion gives the decimal value, and refuses exactly above 65535 although it stops early |
| Url.HttpParserUrl.Extend | service-src/http/http_parser.c:2376-2380 | a field grows by one byte, modulo 2^16 |
| Url.HttpParserUrl.NotePart | service-src/http/http_parser.c:2247-2287 | the switch of the host loop records the byte in its part |
| Url.HttpParserUrl.ScanHost | service-src/http/http_parser.c:2240-2289 | the host loop equals the scan, with every span stored in 16 bits, for every buffer |
| Url.HttpParserUrl.ParseHost | service-src/http/http_parser.c:2227-2307 | 0 exactly for the hosts the machine accepts, with their parts as 16 bits hold them |
| Url.HttpParserUrl.NoteField | service-src/http/http_parser.c:2376-2386 | the URL loop records the byte in its field |
| Url.HttpParserUrl.ScanUrl | service-src/http/http_parser.c:2331-2387 | the URL loop equals the scan, with every span stored in 16 bits, for every buffer |
| Url.HttpParserUrl.ReadPort | service-src/http/http_parser.c:2420-2431 | the loop equals the conversion, for any accepted characters the stored span may point at |
| Url.HttpParserUrl.ParseUrl | service-src/http/http_parser.c:2314-2435 | for every buffer: 0 exactly for the URLs `Answer` accepts, with its fields and port |
| Url.WrapsExactly | service-src/http/http_parser.c:2314-2435 | for a URL, the answer is its exact fields and port if and only if the run of every field and every span of the result has an offset and a length of at most 65535 |
| Url.ShortIsExact | service-src/http/http_parser.c:2314-2435 | for buffers of at most 65535 bytes, URLs or not, the answer is the exact one |
| Url.LongPathWraps | service-src/http/http_parser.c:2376-2386 | 65536 slashes are a URL with a path of that length, and are answered with a path of length 0 |
| Framing.Int32RoundTrip | service-src/service_gate.c:74-79 | the length prefix can be read back |
| Framing.MakeFrameShape | service-src/websocket/websocket.c:231-257 | a frame of 1 to 65535 bytes has the minimal length field of section 5.2 of RFC 6455 |
| Framing.MaskedTwice | service-src/websocket/websocket.c:336-338 | masking twice with one key is the identity |
| Framing.ParseMasked | service-src/websocket/websocket.c:231-344 | parsing a masked frame, whatever follows it, gives opcode, size and payload back |
| Framing.FrontIsStable | service-src/util/databuffer.h:67-78 | a complete frame is taken the same whatever has arrived behind it |
| Framing.DeframeJoin | service-src/service_gatews.c:160-170 | receiving in two pieces is receiving at once |
| Framing.ChunksDoNotMatter | service-src/service_gatews.c:160-170 | however a stream is cut, messages and leftover are those of the whole, for every stream |
| Framing.FrameIsTaken | service-src/service_gate.c:39-59 | a frame at the front of the buffer is taken whole with its payload |
| Framing.PartWaits | service-src/util/databuffer.h:67-78 | a proper prefix of a frame waits |
| Framing.FramesRoundTrip | service-src/service_gatews.c:61-130 | at every moment exactly the payloads of the complete frames have been delivered, in order and once, and the buffer is the unfinished part of the next, which waits; for both gateways |
| Framing.NextPiece | service-src/service_gatews.c:160-170 | one more piece of such a stream adds what it completes, refuses nothing and leaves less than one frame |
| Framing.FrameFits | service-src/service_gate.c:6-8 | no accepted frame is larger than the buffer, so an unfinished one always leaves room |
| DataBuffer.DataBuffer.constructor | service-src/util/databuffer.h:12-18 | an empty buffer |
| DataBuffer.DataBuffer.Push | service-src/util/databuffer.h:25-33 | appends, or refuses without a change when it does not fit |
| DataBuffer.DataBuffer.Pop | service-src/util/databuffer.h:42-54 | the overlapping shift removes exactly the front |
| DataBuffer.DataBuffer.IsFull | service-src/util/databuffer.h:56-58 | true exactly when no byte fits |
| DataBuffer.DataBuffer.ReadPack | service-src/util/databuffer.h:67-78 | the size of the pack at the front, 0 when it is incomplete or empty, negative when its length is |
| DataBuffer.DataBuffer.FreePack | service-src/util/databuffer.h:80-83 | removes exactly that pack |
| Gate.TextFits | service-src/service_gate.c:50-53 | the copy and the zero byte of `sprintf` fit MESSAGE_BUFFER_MAX for every pack the buffer can hold |
| Gate.FindBar | service-src/service_gate.c:66-70 | the index of the first bar, or the length |
| Gate.ForwardCommand | service-src/service_gate.c:61-81 | the packet sent is the length-prefixed argument, and any prefix of the command word is taken for it |
| Gate.CommandOf | service-src/service_gate.c:61-81 | a forwarded payload is found again behind the bar |
| Gate.GateConnection.constructor | service-src/service_gate.c:130-132 | a new connection has an empty buffer |
| Gate.GateConnection.GateMessage | service-src/service_gate.c:39-59 | forwards every complete pack in order, keeps the rest, and closes exactly on a negative length |
| Gate.GateConnection.ReceiveData | service-src/service_gate.c:103-120 | data that fits is delivered as the stream theory says, data that does not fit closes the socket |
| Gate.GateConnection.ReceiveStream | service-src/service_gate.c:103-120 | a stream of packs that arrives in any pieces: exactly the payloads of the packs complete in what was taken are forwarded, in order and once, the buffer holds the unfinished part, and the socket is closed exactly when a piece is empty or does not fit behind it |
| WebSocket.WsMakeFrame | service-src/websocket/websocket.c:231-257 | writes the frame at the front of the buffer and nothing behind it |
| WebSocket.Unmask | service-src/websocket/websocket.c:336-338 | the in-place loop unmasks each payload byte once and touches no other |
| WebSocket.WsParseInputFrame | service-src/websocket/websocket.c:297-344 | the specified result, with the payload unmasked where it lies and no other byte changed |
| WebSocket.WsForwardCommand | service-src/service_gatews.c:132-150 | the frame of the argument, which `size + 10` bytes can hold |
| WebSocket.WsConnection.constructor | service-src/service_gatews.c:28-37 | a new connection has an empty buffer |
| WebSocket.WsConnection.Message | service-src/service_gatews.c:61-130 | every outcome for the front of the buffer in the NORMAL state, with its effects and the whole buffer afterwards |
| WebSocket.WsConnection.Drive | service-src/service_gatews.c:169 | delivers every complete frame; the loop ends unless an empty binary frame reaches the front, and then never |
| WebSocket.WsConnection.ReceiveData | service-src/service_gatews.c:160-176 | the same for arriving data, which closes the socket when it does not fit |
| WebSocket.WsConnection.ReceiveStream | service-src/service_gatews.c:160-176 | a stream of masked binary frames that arrives in any pieces: exactly the payloads of the complete frames are forwarded, in order and once, the buffer holds the unfinished part, and the socket is closed exactly when a piece is empty or does not fit behind it |
| WebSocket.LeftBlocks | service-src/service_gatews.c:61-130 | a text, ping or pong frame at the front stays there whatever arrives behind it, masked and unmasked in turn, and nothing is taken any more |
| Sha1Block.ChooseIsCh | service-src/util/sha1.h:55-61 | the choice form of the source is Ch of FIPS 180-4, section 4.1.1 |
| Sha1Block.MajorityIsMaj | service-src/util/sha1.h:68-71 | the majority form is Maj |
| Sha1Block.MixIsRound | service-src/util/sha1.h:46-76 | each use of the macro is the round of its range |
| Sha1Block.RingStep | service-src/util/sha1.h:58-76 | the word written over the ring is the schedule word of the round, and the ring holds the last 16 |
| Sha1Block.Advance | service-src/util/sha1.h:58-60 | the same in place |
| Sha1Block.MixAll | service-src/util/sha1.h:44-76 | the five loops compute all 80 rounds |
| Sha1Block.Sha1Mix | service-src/util/sha1.h:37-86 | the compression of section 6.1.2, with only 16 schedule words stored |
| Sha1.FipsBlocks | service-src/util/sha1.h:102-115 | the block count of the standard: room for the one bit and the length, and less than a block of zeros |
| Sha1.PaddingIsStandard | service-src/util/sha1.h:102-115 | the blocks hashed are those of section 5.1.1 if and only if the length is not 56 modulo 64 and below 2^29 |
| Sha1.WriteByte | service-src/util/sha1.h:104-107 | one `|=` adds exactly its byte to the stream |
| Sha1.OrByte | service-src/util/sha1.h:104-107 | the same in place |
| Sha1.LoadBlock | service-src/util/sha1.h:93-98 | the `do` loop loads a whole block |
| Sha1.WholeBlocks | service-src/util/sha1.h:92-100 | every whole block of the message is hashed in order |
| Sha1.FillTail | service-src/util/sha1.h:102-107 | the last bytes and the one bit, in a cleared block |
| Sha1.LastBlocks | service-src/util/sha1.h:102-115 | the one or two last blocks are the cleared, filled and length-stamped ones |
| Sha1.FinalBlock | service-src/util/sha1.h:114-115 | hashing the block with the length ends the digest |
| Sha1.ComputeDigest | service-src/util/sha1.h:88-122 | the digest of FIPS 180-4 for every length the padding is right for |
| Base64.Regroup | service-src/util/base64.h:48-57 | three bytes can be read back from their four 6-bit values |
| Base64.GroupRoundTrip | service-src/util/base64.h:48-57 | a strict decoder of section 4 of RFC 4648 reads a group back, padded or not |
| Base64.RoundTrip | service-src/util/base64.h:41-61 | it reads every encoding back |
| Base64.EncodeLength | service-src/util/base64.h:37-39 | `base64len` is the exact length |
| Base64.MaskWorks | service-src/util/base64.h:54-57 | the underflowing masks choose `=` exactly when the byte is missing, as long as fewer than 2^31 bytes are to come |
| Base64.MaskFails | service-src/util/base64.h:54-57 | from 2^31 to 2^32 bytes to come, exactly the even characters are changed, each into the next one |
| Base64.GroupCode | service-src/util/base64.h:48-57 | the shifts of the packed word are the four 6-bit values |
| Base64.GroupStored | service-src/util/base64.h:48-57 | the four characters stored are the group of the standard |
| Base64.WrittenIsEncoded | service-src/util/base64.h:41-61 | up to 2^31 + 1 bytes what the loop stores is the standard encoding |
| Base64.SpoiledIsMangled | service-src/util/base64.h:54-57 | for every greater length an input that is stored wrongly |
| Base64.WrittenExactly | service-src/util/base64.h:41-61 | all inputs of `n` bytes are stored as their encoding if and only if n is at most 2^31 + 1 |
| Base64.Encode64 | service-src/util/base64.h:41-61 | for every length an object can have: what the loop is proved to store when the buffer has room, nothing otherwise, the rest of the buffer untouched; the standard encoding up to 2^31 + 1 bytes |

## Left out

- Linked lists of timer nodes and write buffers are sequences held in the object's fields, and a mutex or spin-locked region is one step: pointer lifetime, allocation and the inside of the spin lock are not modelled. The intrusive `next` pointers of the global queue list and of the hash chains are.
- The kernel is an oracle: `write` accepts any prefix, is interrupted, would block or fails; `read`, connects and poll events return anything. A list of answers that runs out means the kernel would block.
- Epoll, kqueue and select, address resolution, socket options, statistics, SOCKET_WARNING and the enabling of events are not modelled, nor is a failing `enable_write`; the 'W' request, which only enables write events, has no step of its own.
- UDP sockets and user-object buffers, whose pointers `list_uncomplete` compares; sends to a socket that is still reserved, which `inc_sending_ref` does not count; the reuse of a socket slot by a later incarnation.
- The `sending` counter is bounded by 65535, beyond which its 16 bits would run into the socket id.
- SocketFifo.FifoPerCaller: order is promised for one caller and one priority; across priorities the source promises none. One `Poll` or `Serve` decision is one step, except for lowering the counter, for freeing the lists, which takes no lock, and for closing, which waits for the lock. Both lists are freed in one step, since a locked check that sees only one of them empty gives up.
- Scheduler.NothingStranded: services are never closed or released; `skynet_service_close` reads `in_global` outside the queue lock.
- Scheduler.StepInv: the ring of a service is a sequence here; `MessageQueue` proves that the real one behaves so.
- RwLock.RunInv: the branch of `ATOM_CAS` that writes back into its expected value is not modelled.
- HashId.HashId.Insert: an id whose probe overflows is left out, since the source then has no defined behaviour; `HashId.HashId.FindFree` says which. Ids are not negative and not present, as its callers guarantee. An insertion without a free node is an assertion failure in the source and a precondition here.
- ServiceTable.ServiceStorage.Create: harbor ids 1 to 255 and at most 256 slots; left out is the one state in which the source goes on to read a null slot, where only slot 0 is free and the scan crosses INDEX_MASK. Loading the module of the service is not modelled.
- ServiceTable.ServiceStorage.CreateNamed: for a module whose create function succeeds, and for tables with a free slot other than slot 0, so that neither doubling nor that state comes in.
- ServiceTable.ServiceStorage.Locate: stands for the binary search that three functions of the source repeat.
- HttpChunks.RoundTrip: no trailer fields, whose header states are not modelled; chunk sizes below 2^64 - 16 and size lines up to HTTP_MAX_HEADER_SIZE, both limits of the parser; callbacks return 0 and the connection is not upgraded. The model stops where a header field or a next message begins.
- HttpParser.HttpParser.Execute: local copies of state and counter are the fields themselves.
- Url.HttpParserUrl.ParseUrl: the field bits and the array of offsets and lengths are one map.
- Framing.FramesRoundTrip: payloads of 1 to 20476 bytes for the TCP gateway, and of 1 to 65535 and at most `buffer_max - 32` bytes for the WebSocket gateway, whose buffer holds at least 32 bytes. Text, ping and pong frames, 64-bit lengths and the handshake are not consumed or not modelled.
- Gate.ForwardCommand: a command longer than the literal it is compared with would be read beyond the literal's end; it counts as different here.
- Sha1.ComputeDigest: lengths in bits are those of messages shorter than 2^61 bytes.
- Base64.Encode64: fewer than 2^63 bytes, which no object exceeds.
- HTTP headers, the WebSocket handshake, database, Lua, Python, logging, configuration and start-up code are other parts of the runtime; the easier accessors beside the modelled functions would add nothing.
