# A verified model of the IM server's core

The server is built on a small reactor library (`common/net`), a thread pool and two blocking
connection pools, Protocol Buffers messages, a configuration file reader and a string splitter.
This project models the parts where many steps, threads or bytes interact, and proves properties
of every run, every interleaving or every input.

`dafny verify dfyconfig.toml` checks the whole project (Dafny 4.11).

## What is modelled

| file | component |
|---|---|
| `ConnectionProtocol.dfy` | a connection's output side as a state machine over its callbacks and queued functors; the kernel may take any part of a write or refuse it |
| `SentPayloads.dfy` | what becomes of the payloads that callers hand to `send()` |
| `ConnectionEnd.dfy` | read interest, the channel's place in the poller, and what a closed connection still accepts |
| `ShutdownProgress.dfy` | a shutdown under way is carried out as long as the kernel takes bytes |
| `TcpConnection.dfy` | the connection object, over a real compacting buffer, shown to do exactly what the state machine does |
| `Buffer.dfy` | the network buffer in place on an array |
| `EventLoopWakeup.dfy` | one event loop and any number of producer threads, every shared access a step of its own |
| `ConnectionLifecycle.dfy` | connections across the base loop and the io loops: batches, active channels, functors that hop between loops |
| `Poller.dfy` | channels, the epoll poller and the kernel's interest set |
| `ThreadPool.dfy` | submitters, workers, counters and the destructor, both modes |
| `ConnectionPool.dfy` | the MySQL and the Redis pool, whose code is the same, with callers and the manager |
| `Wire.dfy`, `GroupInfo.dfy`, `ContactSession.dfy`, `ContactParser.dfy`, `ContactReprint.dfy` | the wire format, the generated parsers with their jumps, printers, sizers and merge; nested messages with cached sizes |
| `WireInputs.dfy`, `GroupInputs.dfy`, `ContactInputs.dfy` | the layout byte by byte, and input that no printer writes: other varints, truncation, undeclared enum values, deep groups |
| `ConfigFile.dfy`, `ConfigLines.dfy`, `ConfigRoundTrip.dfy`, `ConfigReader.dfy` | what a configuration file means, when a written map comes back, and the reader that edits C strings in place |
| `StrExplode.dfy` | the string splitter |
| `Basics.dfy` | shared types, a character search and facts about slices |

Code that changes an object step by step is a class or an in-place method, proved against a
function of its old state. Concurrent components (event loop, lifecycle, thread pool, the pools'
callers) are step systems over values, because what matters there is the interleaving.

## What the code does not do

Several properties one would expect fail. Each has a lemma with a concrete run or a whole failing
family, and a lemma that says exactly when the property does hold.

- SHUT_WR can be issued with accepted bytes still buffered: a shutdown queued by another thread
  runs after the peer closed (`ShutWrCanBeEarly`); exactly then (`ShutWrEarlyExactlyWhenClosed`).
- A payload that `send()` has taken from another thread can be lost to a later `shutdown()`
  (`TakenPayloadCanBeLost`): exactly when a thread is still inside `send()`, two payloads are queued,
  or one is queued and a shutdown in the loop or a drain of the buffer overtakes it
  (`ShutdownLosesExactlyWhen`).
- A functor queued with a raw pointer can run on a freed connection (`DanglingIsReachable`): a thread
  is overtaken between `send()`'s state test and its queueing. The functor is safe whatever comes
  exactly when the destruction is not yet in the batch being run (`QueueSafeExactlyWhenInTime`).
- A hang-up with priority data, without input, read as end of file, closes a connection twice
  (`DoubleCloseIsReachable`); exactly then the history goes wrong (`LifeKeptExactlyWhen`).
- Functors queued in the loop's own thread before `loop()` send no wakeup (`GuaranteeFromEntry`).
- The thread pool's destructor can be left waiting for threads that are all gone, because an idle
  worker leaves without notifying it: exactly in cached mode, with room to grow beyond the initial
  threads and for at least one task (`HangsExactlyWhen`).
- Releasing a connection one does not hold is harmless exactly when it is free anyway
  (`StrayReleaseExactlyWhenSafe`); some gets later two callers can share it exactly when somebody
  still had it checked out (`StrayReleaseSharesExactlyWhen`).
- The pools keep to their configured maximum exactly from two upwards (`CapHoldsExactlyFromTwo`).
- A call that leaves a channel's mask empty takes a watched channel out of the kernel's set, but puts
  an unwatched one in (`EmptyMaskTogglesWatch`).
- A written configuration line is cut at 127 characters; one that lost its newline swallows the next
  line. A map comes back exactly when its entries are clean, all lines but the last keep their
  newline and the last keeps its text (`RoundTripExactlyWhen`).
- Loading a file looks in front of the line buffer exactly when a chunk starts with a NUL character
  (`LoadFile`), as any file does that has a line starting with one (`NulLineIsUnreadable`).
- The string splitter leaves slots unwritten when some field is empty (`FilledExactlyWhenNoneEmpty`).

## Modelling choices

- Payloads are passed by value. `send` binds a raw pointer to the caller's string
  (common/net/TcpConnection.cc:75-80), whose lifetime is not modelled.
- In another thread, `send()` and `shutdown()` each take two steps, the state test and the queueing,
  and anything may happen in between. The test and the change of the state in `shutdown()` are one
  step; as two racing steps kDisconnected would not be absorbing.
- The kernel takes at most what a write gives it, and answers EPIPE or ECONNRESET to data after
  SHUT_WR. `epoll_ctl` fails when adding a present or changing an absent descriptor.
- The event loop starts when `loop()` has begun and `quit_` was reset.
- The thread pool starts with at least one thread, thread ids equal to map keys, and all initial
  threads counted as idle; nobody submits once the destructor has begun, and a worker may wake up
  spuriously at any time.
- The connection pools' waiters may wake up spuriously. Connection ids are never reused.
- A has-bit together with its value is an `Option`. The parser reads from a flat array; the fast-path
  test for the next tag may answer no at any time, as the runtime allows. An enum field holds a
  declared value, which the setter asserts. Strings and messages are shorter than 2^31 bytes where
  sizes are computed.
- Loading a configuration file stops where the source would leave its buffer, since what it then does
  is undefined. The constructor sets the load flag to false, which the source leaves unset when the
  file cannot be opened.

## Modelling choices

- Payloads are passed by value. `send` binds a raw pointer to the caller's string
  (common/net/TcpConnection.cc:75-80), whose lifetime is not modelled.
- In another thread, `send()` and `shutdown()` each take two steps, the state test and the queueing,
  and anything may happen in between. The test and the change of the state in `shutdown()` are one
  step; as two racing steps kDisconnected would not be absorbing.
- The kernel takes at most what a write gives it, and answers EPIPE or ECONNRESET to data after
  SHUT_WR. `epoll_ctl` fails when adding a present or changing an absent descriptor.
- The event loop starts when `loop()` has begun and `quit_` was reset.
- The thread pool starts with at least one thread, thread ids equal to map keys, and all initial
  threads counted as idle; nobody submits once the destructor has begun, and a worker may wake up
  spuriously at any time.
- The connection pools' waiters may wake up spuriously. Connection ids are never reused.
- A has-bit together with its value is an `Option`. The parser reads from a flat array; the fast-path
  test for the next tag may answer no at any time, as the runtime allows. An enum field holds a
  declared value, which the setter asserts. Strings and messages are shorter than 2^31 bytes where
  sizes are computed.
- No chunk read from a configuration file starts with a NUL character: the source would then look in
  front of its buffer. The constructor sets the load flag to false, which the source leaves unset when
  the file cannot be opened.

## Model

| member | source | states |
|---|---|---|
| `ByteBuffer.Buffer.Retrieve` | common/net/Buffer.h:42-57 | drops exactly the first len readable bytes, or all of them, and resets the indices when nothing is left |
| `ByteBuffer.Buffer.RetrieveAsString` | common/net/Buffer.h:65-70 | returns the oldest len bytes and leaves the others in order |
| `ByteBuffer.Buffer.MakeSpace` | common/net/Buffer.h:113-128 | readable bytes survive growing and sliding, at least len bytes become writable, compaction only from behind the prepend area, growth exactly when the front cannot help |
| `ByteBuffer.Buffer.SlideDown` | common/net/Buffer.h:121-124 | the overlapping copy keeps every readable byte |
| `ByteBuffer.Buffer.EnsureWritableBytes` | common/net/Buffer.h:73-79 | at least len bytes are writable, contents unchanged |
| `ByteBuffer.Buffer.Append` | common/net/Buffer.h:82-87 | the buffer is a FIFO: new bytes come after all old ones |
| `ByteBuffer.Buffer.ReadV` | common/net/Buffer.cc:20-31 | a scatter read fills the writable tail first and the spill buffer with the rest |
| `ByteBuffer.Buffer.ReadFd` | common/net/Buffer.cc:16-47 | exactly the bytes read are appended in order, wherever they split; an error changes nothing |
| `ConnectionProtocol.StepKeeps` | common/net/TcpConnection.cc:65-274 | every callback and functor keeps the shutdown and write-interest bookkeeping and moves exactly the accepted bytes |
| `ConnectionProtocol.EveryRunKeepsOrder` | common/net/TcpConnection.cc:88-274 | in every run, wire followed by buffer is the accepted payloads in order; write interest is on iff bytes are buffered; a requested shutdown is done, awaiting the drain, or queued |
| `ConnectionProtocol.WireIsPrefixOfAccepted` | common/net/TcpConnection.cc:88-156 | from a fresh connection the peer sees a prefix of what was accepted |
| `SentPayloads.TakenPayloadsAreConserved` | common/net/TcpConnection.cc:65-83 | in every run each payload taken by send() in another thread is with its thread, queued or handed over, once and unchanged, and handed over in queueing order |
| `SentPayloads.WireIsMadeOfPayloads` | common/net/TcpConnection.cc:65-156 | wire and buffer are whole payloads, each given to a send() that saw the connection open, none more often than it was given |
| `SentPayloads.StepMovesTested` | common/net/TcpConnection.cc:65-83 | the functor a thread queues holds the payload it tested with |
| `SentPayloads.StepMovesQueued` | common/net/TcpConnection.cc:73-80 | payloads leave the queue at the front and enter at the end, unchanged |
| `ConnectionEnd.NothingMovesFromClose` | common/net/TcpConnection.cc:265-274 | from a close on nothing is accepted, sent or buffered |
| `ConnectionEnd.NothingMovesFromDestruction` | common/net/TcpConnection.cc:195-204 | nor from the destruction of an open connection on |
| `ConnectionEnd.EveryRunReadsWhileOpen` | common/net/TcpConnection.cc:184-274 | read interest is on exactly while the connection is connected or half closed |
| `ConnectionEnd.RegisteredExactlyWhen` | common/net/TcpConnection.cc:151-154 | the poller hears of the channel exactly at its start and close and when write interest changes |
| `ConnectionEnd.RegisteredOnceEstablished` | common/net/TcpConnection.cc:184-204 | the poller knows the channel from its start until it is destroyed |
| `ConnectionEnd.GoneOnceDestroyed` | common/net/TcpConnection.cc:195-204 | and never again after the destruction of an open or closed connection |
| `ConnectionProtocol.SendInLoopKeepsInv` | common/net/TcpConnection.cc:88-156 | sending keeps the bookkeeping for any kernel answer |
| `ConnectionProtocol.SendInLoopMovesBytes` | common/net/TcpConnection.cc:95-155 | a payload is moved whole to wire and buffer, or not at all when refused or dropped |
| `ConnectionProtocol.HandleWriteKeeps` | common/net/TcpConnection.cc:227-262 | draining moves bytes from buffer to wire without reordering and keeps the bookkeeping |
| `ConnectionProtocol.ShutWrEarlyExactlyWhenClosed` | common/net/TcpConnection.cc:164-181 | SHUT_WR comes before all accepted bytes are out iff the connection was already closed with bytes left |
| `ConnectionProtocol.ShutWrCanBeEarly` | common/net/TcpConnection.cc:175-181 | a run in which that happens |
| `ConnectionProtocol.NothingMovesAfterShutWr` | common/net/TcpConnection.cc:175-181 | after SHUT_WR no step buffers, sends or accepts a byte |
| `ConnectionProtocol.NothingAcceptedAfterShutWr` | common/net/TcpConnection.cc:88-181 | the same over whole runs |
| `ConnectionProtocol.TakenPayloadCanBeLost` | common/net/TcpConnection.cc:67-80 | on every fresh connection some run drops a payload that send() had taken before the shutdown |
| `ConnectionProtocol.LosesExactlyWhenAtRisk` | common/net/TcpConnection.cc:164-181 | while shutting down, some continuation offers a payload to a shut socket iff a thread is inside send(), two payloads are queued, or one is queued behind the shutdown, the SHUT_WR or buffered bytes |
| `ConnectionProtocol.ShutdownLosesExactlyWhen` | common/net/TcpConnection.cc:164-173 | calling shutdown() can cost a payload taken before iff a thread is inside send(), two are queued, or one is queued and the call is in the loop or bytes are buffered |
| `ConnectionProtocol.SafeShutdownsLoseNothing` | common/net/TcpConnection.cc:164-181 | a run whose shutdown calls all avoid that never offers a payload to a shut socket |
| `ShutdownProgress.ShutdownIsNotForgotten` | common/net/TcpConnection.cc:164-251 | an unclosed connection being shut down has issued SHUT_WR, with all bytes out, once a run has made as many progress steps as there was work or can make none |
| `ShutdownProgress.ProgressIsPossible` | common/net/TcpConnection.cc:164-251 | until SHUT_WR some progress step is enabled, if the kernel takes a byte |
| `ShutdownProgress.ProgressReducesWork` | common/net/TcpConnection.cc:88-251 | every progress step lowers a measure of buffered bytes, queued functors and threads inside send() or shutdown() |
| `ShutdownProgress.OthersAddNoWork` | common/net/TcpConnection.cc:65-204 | no other step but a close changes the measure |
| `ShutdownProgress.ProgressIsBounded` | common/net/TcpConnection.cc:164-251 | a run has no more progress steps than the work it starts with |
| `ConnectionProtocol.HighWaterExactlyOnCrossing` | common/net/TcpConnection.cc:136-149 | the high-water callback is queued iff a step takes the buffered length across the mark |
| `ConnectionProtocol.HighWaterNeedsDip` | common/net/TcpConnection.cc:136-149 | between two notifications of a run the buffered length falls below the mark |
| `ConnectionProtocol.WriteCompleteMeansAllOnWire` | common/net/TcpConnection.cc:105-115 | a write-complete callback is queued only when every byte accepted so far is on the wire |
| `ConnectionProtocol.WriteCompleteDrains` | common/net/TcpConnection.cc:236-245 | no byte is buffered when it is queued |
| `ConnectionProtocol.WriteCompleteExactlyWhen` | common/net/TcpConnection.cc:105-115 | the callback is queued iff a payload goes out whole at once or a drain takes the last buffered byte |
| `ConnectionProtocol.FiresExactlyWhenPushed` | common/net/TcpConnection.cc:102-155 | the number of queued notifications grows iff the last functor queued is one |
| `TcpConnections.TcpConnection.SendInLoop` | common/net/TcpConnection.cc:88-156 | the object, with its compacting buffer, does what the state machine's send does |
| `TcpConnections.TcpConnection.BufferRest` | common/net/TcpConnection.cc:133-155 | refines the buffering of what the kernel left |
| `TcpConnections.TcpConnection.Send` | common/net/TcpConnection.cc:65-72 | refines the state machine's send in the loop thread |
| `TcpConnections.TcpConnection.SendTest` | common/net/TcpConnection.cc:67-69 | refines the first half of a send in another thread |
| `TcpConnections.TcpConnection.SendPush` | common/net/TcpConnection.cc:75-80 | refines the second half |
| `TcpConnections.TcpConnection.Shutdown` | common/net/TcpConnection.cc:164-168 | refines the state machine's shutdown call |
| `TcpConnections.TcpConnection.ShutdownPush` | common/net/TcpConnection.cc:169-171 | refines its queueing from another thread |
| `TcpConnections.TcpConnection.ShutdownInLoop` | common/net/TcpConnection.cc:175-181 | refines the in-loop shutdown |
| `TcpConnections.TcpConnection.HandleWrite` | common/net/TcpConnection.cc:227-262 | refines the drain |
| `TcpConnections.TcpConnection.HandleClose` | common/net/TcpConnection.cc:265-274 | refines the close |
| `TcpConnections.TcpConnection.ConnectEstablished` | common/net/TcpConnection.cc:184-192 | refines the start of a connection |
| `TcpConnections.TcpConnection.ConnectDestroyed` | common/net/TcpConnection.cc:195-204 | refines the end of a connection, the channel's removal from the poller included |
| `TcpConnections.Drive` | common/net/TcpConnection.cc:65-274 | for every run driven through the object, wire and buffer together are the accepted payloads in order, each of them given to send() |
| `EventLoopWakeup.StepKeepsInv` | common/net/EventLoop.cc:63-192 | every single shared access keeps: pending work before a poll has a wakeup on its way |
| `EventLoopWakeup.NoLostWakeup` | common/net/EventLoop.cc:63-158 | in every interleaving a loop that goes to sleep unwoken has run exactly the functors anybody asked for, in order, and nobody asked it to quit |
| `EventLoopWakeup.FunctorsRunInOrder` | common/net/EventLoop.cc:176-192 | in every run the functors run so far are a prefix of those asked for |
| `EventLoopWakeup.PushedIsAsked` | common/net/EventLoop.cc:124-131 | what is queued in a run is exactly the functors queueInLoop was called with, in order |
| `EventLoopWakeup.QuitStopsPolling` | common/net/EventLoop.cc:70-75 | once quit was called the loop polls at most once more, and only if it was past its test |
| `EventLoopWakeup.StopsOnlyWhenAsked` | common/net/EventLoop.cc:70-109 | the loop stops only if somebody called quit |
| `EventLoopWakeup.ReadingDrains` | common/net/EventLoop.cc:139-158 | a wakeup that was read is not reported again unless somebody wakes the loop anew |
| `EventLoopWakeup.GuaranteeFromEntry` | common/net/EventLoop.cc:124-137 | with functors queued before loop(), the guarantee holds iff there are none or a wakeup was sent or is being sent |
| `ConnectionLifecycle.EveryLifeIsOrdered` | common/net/TcpServer.cc:68-129 | in every run each history is a prefix of established, closed, erased, destroyed, and someone holds the connection until it is destroyed |
| `ConnectionLifecycle.NothingIsLeftOver` | common/net/TcpServer.cc:68-129 | whenever no loop has work left, every connection ever accepted is established on its own loop and in the map, or closed, erased and destroyed |
| `ConnectionLifecycle.KnownIsAccepted` | common/net/TcpServer.cc:68-110 | the connections known, and their loops, are exactly those accepted |
| `ConnectionLifecycle.QueuedIsThere` | common/net/TcpConnection.cc:75-80 | the functor a thread queues is appended to the connection's own loop |
| `ConnectionLifecycle.StepKeepsInv` | common/net/TcpServer.cc:68-129 | every step on any loop keeps the work queued for each connection in line with its age |
| `ConnectionLifecycle.AliveUntilDestroyed` | common/net/TcpServer.cc:112-129 | the map, a queued functor or a running batch holds every connection not yet destroyed |
| `ConnectionLifecycle.DestroyedOnlyBetweenDispatches` | common/net/EventLoop.cc:70-86 | destruction happens only while the own loop runs functors, never with the channel still to be dispatched |
| `ConnectionLifecycle.DispatchedIsAlive` | common/net/EventLoop.cc:74-78 | a channel awaiting dispatch belongs to an open, referenced connection |
| `ConnectionLifecycle.InTimeIsSafe` | common/net/TcpConnection.cc:75-80 | a raw functor queued before the batch with the destruction began always meets a referenced connection |
| `ConnectionLifecycle.RawAliveExactlyWhen` | common/net/TcpConnection.cc:75-80 | a raw functor about to run meets a live connection iff it is not destroyed, a caller holds it, or a running batch does |
| `ConnectionLifecycle.QueueSafeExactlyWhenInTime` | common/net/TcpConnection.cc:67-80 | queueing is safe in every continuation iff the destruction is neither done nor in the batch being run; otherwise some continuation runs that functor after the connection was freed |
| `ConnectionLifecycle.DanglingIsReachable` | common/net/TcpConnection.cc:67-80 | a fresh server can get there |
| `ConnectionLifecycle.LifeKeptExactlyWhen` | common/net/Channel.cc:62-97 | handling an event keeps the history in order iff it is not a hang-up with priority data, no input, and end of file |
| `ConnectionLifecycle.ClosesTwiceExactlyWhen` | common/net/Channel.cc:66-88 | the masks for which one dispatch closes twice |
| `ConnectionLifecycle.ClosesExactlyWhen` | common/net/Channel.cc:66-88 | handling an event closes the connection iff it is a hang-up without input or the read callback finds the end of the stream |
| `ConnectionLifecycle.DoubleCloseIsReachable` | common/net/Channel.cc:66-88 | a fresh server can get there |
| `Pollers.EPollPoller.Update` | common/net/EPollPoller.cc:130-152 | succeeds iff it adds an absent or changes or deletes a present descriptor; a failing add or change is fatal; the kernel set otherwise follows |
| `Pollers.EPollPoller.UpdateChannel` | common/net/EPollPoller.cc:71-100 | from a state in step every add hits an absent and every change or delete a present descriptor; index, channel map and kernel set are in step again |
| `Pollers.EPollPoller.RemoveChannel` | common/net/EPollPoller.cc:103-116 | a delete hits a present descriptor; the channel is new again, out of the map and out of the kernel set; all others stay in step |
| `Pollers.EPollPoller.Apply` | common/net/Channel.h:42-46 | one enable, disable or remove call keeps all channels in step and none of its system calls fails |
| `Pollers.EPollPoller.FillActiveChannels` | common/net/EPollPoller.cc:119-127 | the active list is the reported channels in order, each with its reported bits |
| `Pollers.RunCalls` | common/net/EPollPoller.cc:71-152 | for every call sequence on distinct descriptors no system call fails, and the kernel watches exactly the channels asked for, each with exactly its interest |
| `Pollers.WatchedFollowsInterest` | common/net/EPollPoller.cc:71-116 | watched whenever the last call left an interest; not watched when removed or untouched |
| `Pollers.InterestIsWhatCallsLeftOn` | common/net/Channel.h:42-46 | after every call sequence a mask holds the read events iff reading was last turned on, the write event iff writing was, and no other bit |
| `Pollers.EmptyMaskTogglesWatch` | common/net/EPollPoller.cc:75-100 | every call that leaves the mask empty toggles whether the kernel watches the channel |
| `ThreadPools.TasksAreConserved` | common/base/ThreadPool.cc:104-198 | in both modes every accepted task is exactly one of queued, executing, finished; tasks start in order, once; rejected ones never |
| `ThreadPools.CountersAreExact` | common/base/ThreadPool.h:59-101 | while running, the counters equal queue length, thread count and idle threads, within their bounds |
| `ThreadPools.NoTaskIsStranded` | common/base/ThreadPool.h:76-83 | in every run of both modes no worker sleeps un-notified beside a queued task, and some live worker has a step to take |
| `ThreadPools.StepKeepsAwake` | common/base/ThreadPool.h:76-83 | every step keeps it so that a queued task has no sleeper beside it |
| `ThreadPools.TakeWakesNobody` | common/base/ThreadPool.cc:175-179 | the notification after taking a task finds no sleeper |
| `ThreadPools.EverySubmitCounts` | common/base/ThreadPool.h:59-83 | the tasks accepted and rejected are exactly the calls that were told so, in order |
| `ThreadPools.RefusedExactlyWhenFull` | common/base/ThreadPool.h:61-70 | a submit is refused iff the queue is full |
| `ThreadPools.GrowsExactlyWhen` | common/base/ThreadPool.h:86-101 | a worker is added iff in cached mode the queued tasks outnumber the idle workers below the bound on threads |
| `ThreadPools.ReclaimsExactlyWhen` | common/base/ThreadPool.cc:141-156 | a worker is let go iff it was idle for long and more than the initial ones are left |
| `ThreadPools.ShutdownDrains` | common/base/ThreadPool.cc:37-45 | no threads left, or a returned destructor, means every accepted task has finished |
| `ThreadPools.StepKeepsTasks` | common/base/ThreadPool.cc:104-198 | every step keeps each submitted job accounted for |
| `ThreadPools.StepKeepsThreads` | common/base/ThreadPool.cc:104-198 | the thread map holds exactly the workers that have not left |
| `ThreadPools.StepKeepsCounts` | common/base/ThreadPool.h:80-101 | growth and idle reclamation keep the counters exact |
| `ThreadPools.StepKeepsNotified` | common/base/ThreadPool.cc:37-45 | after the destructor's notification nobody waits or can start to |
| `ThreadPools.EveryRunKeepsInv` | common/base/ThreadPool.cc:37-198 | all of this over every run |
| `ThreadPools.WorkersCanMove` | common/base/ThreadPool.cc:109-198 | while the destructor waits every live worker has a step to take |
| `ThreadPools.MoveReducesMeasure` | common/base/ThreadPool.cc:109-198 | every worker step lowers a measure of queued tasks, executing tasks and live threads; no other step changes it |
| `ThreadPools.WorkerMovesAreBounded` | common/base/ThreadPool.cc:37-45 | a run has no more worker steps than the measure it starts with |
| `ThreadPools.ShutsDown` | common/base/ThreadPool.cc:37-45 | in every pool that cannot grow, when no worker can move the destructor has returned or is about to |
| `ThreadPools.HangsExactlyWhen` | common/base/ThreadPool.cc:135-157 | for every configuration, a destructor waiting for threads that are all gone is reachable iff the mode is cached, more threads than the initial ones are allowed and tasks are accepted |
| `ThreadPools.StuckForGood` | common/base/ThreadPool.cc:150-155 | then only a spurious wakeup is left |
| `ThreadPools.SpuriousWakeupFrees` | common/base/ThreadPool.cc:44-44 | and one such wakeup lets the destructor return |
| `ConnectionPools.ConnPool.Init` | db_proxy_server/DBPool.cc:325-340 | two distinct free connections, or failure at the first that does not open |
| `ConnectionPools.ConnPool.Get` | db_proxy_server/DBPool.cc:342-370 | one round of the allocator: oldest free connection, a new one below the cap, a failed open, or wait |
| `ConnectionPools.ConnPool.Release` | db_proxy_server/DBPool.cc:372-387 | appended unless already free |
| `ConnectionPools.GetKeepsPool` | db_proxy_server/CachePool.cc:597-620 | a get keeps a pool's connections conserved and its waiters justified |
| `ConnectionPools.ReleaseKeepsPool` | db_proxy_server/CachePool.cc:623-637 | so does a release by the holder |
| `ConnectionPools.StepKeepsInv` | db_proxy_server/DBPool.cc:466-486 | releases are routed to the pool that made the connection; every pool stays conserved |
| `ConnectionPools.ConnectionsAreConserved` | db_proxy_server/DBPool.cc:325-387 | in every run free and held are disjoint, add up to the counter within the cap, nobody shares, nobody waits un-notified beside a free connection |
| `ConnectionPools.GetAnswersExactly` | db_proxy_server/DBPool.cc:342-370 | in every run a get waits iff nothing is free and the counter is at the maximum; otherwise it returns a connection nobody holds, the first free one or else a new one, unless opening fails |
| `ConnectionPools.FreeListIsFifo` | db_proxy_server/DBPool.cc:367-384 | connections are handed out in the order in which they were put back or opened |
| `ConnectionPools.WaitersAreKept` | db_proxy_server/DBPool.cc:345-349 | a step leaves a waiter asleep or woken up |
| `ConnectionPools.WokenLooksAgain` | db_proxy_server/DBPool.cc:345-349 | a waiter that wakes up looks at the pool again |
| `ConnectionPools.ReleaseWakesAll` | db_proxy_server/CachePool.cc:623-637 | a release wakes every waiter of the pool |
| `ConnectionPools.CapHoldsExactlyFromTwo` | db_proxy_server/DBPool.cc:325-370 | the counter stays within the configured maximum in every run iff that is at least two |
| `ConnectionPools.StrayReleaseExactlyWhenSafe` | db_proxy_server/DBPool.cc:372-387 | a release of any connection by a non-holder keeps the pool conserved iff the connection is free |
| `ConnectionPools.StrayReleaseSharesExactlyWhen` | db_proxy_server/DBPool.cc:342-387 | after a stray release some sequence of gets gives the connection to two callers iff somebody had it checked out |
| `Wire.Varint32RoundTrip` | thirdparty/protobuf-2.6.1/src/google/protobuf/io/coded_stream.cc:324-383 | a written varint is read back, whatever follows; 32-bit reads drop the high bits |
| `Wire.Uint32RoundTrip` | thirdparty/protobuf-2.6.1/src/google/protobuf/io/coded_stream.cc:692-746 | a 32-bit value survives exactly |
| `Wire.VarintSizeIsLength` | thirdparty/protobuf-2.6.1/src/google/protobuf/io/coded_stream.cc:863-904 | the thresholds of the 32-bit and the 64-bit sizer give the written length |
| `Wire.ReadBytesOf` | thirdparty/protobuf-2.6.1/src/google/protobuf/wire_format_lite.cc:454-467 | length-delimited data is read back, whatever follows |
| `Wire.SkipOfBody` | thirdparty/protobuf-2.6.1/src/google/protobuf/wire_format.cc:82-140 | an unknown field of any kind, nested groups included, is skipped into itself |
| `Wire.SkippedIsStorable` | thirdparty/protobuf-2.6.1/src/google/protobuf/wire_format.cc:82-140 | whatever is skipped can be printed again under the tag it was read with |
| `WireInputs.ReadRawExactlyWhen` | thirdparty/protobuf-2.6.1/src/google/protobuf/io/coded_stream.cc:444-465 | any bytes: a varint is read iff it ends within the bytes allowed and at hand, as the number its bytes spell, canonical or not |
| `WireInputs.TruncatedVarintFails` | thirdparty/protobuf-2.6.1/src/google/protobuf/io/coded_stream.cc:444-465 | no proper beginning of a varint is read |
| `WireInputs.TruncatedDataFails` | thirdparty/protobuf-2.6.1/src/google/protobuf/wire_format_lite.cc:454-467 | no proper beginning of length-delimited data is read |
| `WireInputs.GroupDepthExactly` | thirdparty/protobuf-2.6.1/src/google/protobuf/io/coded_stream.h:1138-1141 | nested groups are followed to depth 100 exactly |
| `WireInputs.WrongEndFails` | thirdparty/protobuf-2.6.1/src/google/protobuf/wire_format.cc:110-125 | a group that ends with another group's end tag fails |
| `GroupInfos.MergePartialFromCodedStream` | include/protocol/IM.BaseDefine.pb.cc:4627-4789 | for every byte string the parser with its expected-tag jumps gives what a plain read-tag-and-switch loop gives |
| `Wire.ExpectTag` | thirdparty/protobuf-2.6.1/src/google/protobuf/io/coded_stream.h:936-957 | a yes means the tag was next and is consumed, in one byte or two; a no consumes nothing |
| `GroupInfos.ExpectLabel` | include/protocol/IM.BaseDefine.pb.cc:4645-4647 | a jump taken or refused leaves the plain reader's result unchanged |
| `GroupInfos.ReadRepeated` | thirdparty/protobuf-2.6.1/src/google/protobuf/wire_format_lite_inl.h:229-245 | the greedy loop over an unpacked list equals reading one field at a time |
| `GroupInfos.ReadPackedPrimitive` | thirdparty/protobuf-2.6.1/src/google/protobuf/wire_format_lite_inl.h:328-341 | a packed list yields all values up to its limit, or fails |
| `GroupInfos.ReadPackedValues` | thirdparty/protobuf-2.6.1/src/google/protobuf/wire_format_lite_inl.h:333-338 | the values of a packed list, in order |
| `GroupInfos.PackedIsRead` | thirdparty/protobuf-2.6.1/src/google/protobuf/wire_format_lite_inl.h:328-341 | a packed list is read back value by value, in order |
| `GroupInfos.PackedIsUnpacked` | include/protocol/IM.BaseDefine.pb.cc:4745-4768 | the packed and the unpacked form of a member list are read alike, whatever follows |
| `GroupInfos.OverlongPackedIsRead` | thirdparty/protobuf-2.6.1/src/google/protobuf/io/coded_stream.cc:116-141 | a packed length past the end of the input takes what is there |
| `GroupInfos.SerializeWithCachedSizes` | include/protocol/IM.BaseDefine.pb.cc:4791-4851 | prints the encoding that the parser is proved to read back |
| `Wire.ComputeUnknownFieldsSize` | thirdparty/protobuf-2.6.1/src/google/protobuf/wire_format.cc:293-339 | the size added up kind by kind, groups recursively, is the printed length of the unknown fields |
| `GroupInfos.ByteSize` | include/protocol/IM.BaseDefine.pb.cc:4918-4990 | the size computed without printing is the printed length |
| `GroupInfos.EncodedIsMerged` | include/protocol/IM.BaseDefine.pb.cc:5004-5031 | parsing an encoding into any message merges it, whatever follows |
| `GroupInfos.ConcatenationIsMerge` | include/protocol/IM.BaseDefine.pb.cc:5004-5031 | parsing two encodings back to back gives exactly their merge |
| `GroupInfos.RoundTrip` | include/protocol/IM.BaseDefine.pb.cc:4627-4851 | parse after print is the identity, unknown fields included |
| `GroupInfos.RequiredFieldsDecide` | include/protocol/IM.BaseDefine.pb.cc:5045-5049 | a printed message is taken iff each of the seven required fields is set |
| `GroupInfos.StopsBeforeTheEnd` | include/protocol/IM.BaseDefine.pb.cc:4770-4780 | a zero tag or an end tag stops the parser, and the whole input is refused |
| `GroupInputs.GroupInfoOnTheWire` | include/protocol/IM.BaseDefine.pb.cc:4791-4851 | the exact bytes of a full message |
| `GroupInputs.EnumFieldExactly` | include/protocol/IM.BaseDefine.pb.cc:4716-4732 | group_type takes exactly 1 and 2; any other value is kept sign-extended as an unknown field |
| `GroupInputs.BrokenTagIsLeftOver` | include/protocol/IM.BaseDefine.pb.cc:4632-4636 | a tag that never ends is left over and the input refused |
| `GroupInputs.TruncatedFieldFails` | include/protocol/IM.BaseDefine.pb.cc:4667-4684 | a string field cut short makes the parse fail, whatever was read before |
| `GroupInfos.ParsedIsHoldable` | include/protocol/IM.BaseDefine.pb.cc:4627-4789 | every parse result is a message the round trip covers; invalid enum values become unknown fields |
| `GroupInfos.ReprintingLosesNothing` | include/protocol/IM.BaseDefine.pb.cc:4627-4851 | for every accepted input, printing and parsing again gives the same message |
| `ContactSessions.ContactSessionInfo.ByteSize` | include/protocol/IM.BaseDefine.pb.cc:2596-2663 | the child's size is its printed length, and is cached |
| `ContactSessions.IMRecentContactSessionRsp.SizeContacts` | include/protocol/IM.Buddy.pb.cc:1226-1233 | every child's cached size is right and the total counts tags, prefixes and bodies |
| `ContactSessions.IMRecentContactSessionRsp.ByteSize` | include/protocol/IM.Buddy.pb.cc:1208-1244 | all nested cached sizes are right and the total is the length of the whole output |
| `ContactSessions.IMRecentContactSessionRsp.SerializeWithCachedSizes` | include/protocol/IM.Buddy.pb.cc:1151-1176 | with right cached sizes every length prefix is right |
| `ContactParsers.MergeContact` | include/protocol/IM.BaseDefine.pb.cc:2322-2484 | for every byte string the contact parser with its jumps gives what the plain loop gives |
| `ContactParsers.MergeNested` | thirdparty/protobuf-2.6.1/src/google/protobuf/wire_format_lite_inl.h:482-497 | a child parsed behind a pushed limit, by its own parser, is what the plain reader makes of it |
| `ContactParsers.MergeResponse` | include/protocol/IM.Buddy.pb.cc:1078-1149 | for every byte string the response parser with its jumps, children included, gives what the plain loop gives |
| `ContactSessions.ContactRoundTrip` | include/protocol/IM.BaseDefine.pb.cc:2322-2539 | a contact reads back from its encoding |
| `ContactSessions.NestedRead` | thirdparty/protobuf-2.6.1/src/google/protobuf/wire_format_lite_inl.h:482-500 | a child behind its length prefix is read back whole, whatever follows |
| `ContactSessions.ResponseRoundTrip` | include/protocol/IM.Buddy.pb.cc:1078-1176 | a response with any number of children reads back |
| `ContactSessions.EncodedResponseIsMerged` | include/protocol/IM.Buddy.pb.cc:1258-1270 | parsing the encoding of a response into another one merges it, whatever follows |
| `ContactSessions.ResponsesAreMerged` | include/protocol/IM.Buddy.pb.cc:1258-1270 | two encodings back to back give the merge: last scalars win, children are appended |
| `ContactInputs.SampleOnTheWire` | include/protocol/IM.BaseDefine.pb.cc:2486-2539 | the exact bytes of a contact |
| `ContactInputs.ResponseOnTheWire` | include/protocol/IM.Buddy.pb.cc:1151-1176 | the exact bytes of a response with two children |
| `ContactInputs.VarintFieldExactly` | include/protocol/IM.BaseDefine.pb.cc:2330-2470 | each field takes exactly its declared values, replacing what was there; other enum values are kept sign-extended as unknown fields |
| `ContactReprints.NestedIsStandalone` | thirdparty/protobuf-2.6.1/src/google/protobuf/wire_format_lite_inl.h:482-497 | any bytes behind a length are read as a child iff they parse as a contact to their very end |
| `ContactReprints.ParsedContactIsWellFormed` | include/protocol/IM.BaseDefine.pb.cc:2322-2484 | every parsed contact has declared enum values; invalid ones become unknown fields |
| `ContactReprints.ParsedResponseIsWellFormed` | include/protocol/IM.Buddy.pb.cc:1078-1149 | the same for responses, children included |
| `ContactReprints.ReprintingContactLosesNothing` | include/protocol/IM.BaseDefine.pb.cc:2322-2539 | for every accepted input printing and parsing again gives the same contact, if its size fits an int |
| `ContactReprints.ReprintingResponseLosesNothing` | include/protocol/IM.Buddy.pb.cc:1078-1176 | the same for responses, if the children's sizes fit |
| `ContactParsers.SizePrintParse` | include/protocol/IM.Buddy.pb.cc:1078-1244 | size, print, parse: the announced length is the printed one and the message comes back |
| `ConfigRoundTrip.RoundTripExactlyWhen` | common/base/CConfigFileReader.cc:53-143 | for every map and order, write then load is the identity iff keys and values are clean, every line but the last keeps its newline and the last keeps its text |
| `ConfigRoundTrip.ChunksAtMostEnds` | common/base/CConfigFileReader.cc:64-71 | reading takes at most one chunk per line, and fewer when a line runs into the next |
| `ConfigRoundTrip.RunOnLosesAnEntry` | common/base/CConfigFileReader.cc:110-118 | a line without newline in front of another costs an entry |
| `ConfigRoundTrip.NewlineLost` | common/base/CConfigFileReader.cc:110-118 | a line that lost only its newline swallows the next as part of its value |
| `ConfigFile.LoadedIsClean` | common/base/CConfigFileReader.cc:53-88 | whatever the file holds, every loaded entry is clean |
| `ConfigLines.PaddedEntryIsParsed` | common/base/CConfigFileReader.cc:130-172 | blanks and tabs around key and value do not matter |
| `ConfigLines.NoEntryIsAdded` | common/base/CConfigFileReader.cc:130-143 | a line without '=', or blank on a side of it, adds nothing |
| `ConfigLines.CommentIsIgnored` | common/base/CConfigFileReader.cc:77-83 | a comment is as if it was not there |
| `ConfigLines.FirstLineWins` | common/base/CConfigFileReader.cc:139-142 | of all lines with one key the first wins |
| `ConfigLines.LongLineIsSplit` | common/base/CConfigFileReader.cc:64-71 | a longer line is read in pieces of 255 characters |
| `ConfigFile.WrittenIsLoaded` | common/base/CConfigFileReader.cc:92-127 | entries whose lines fit are loaded on top of what was there, whatever text follows them |
| `ConfigFile.LineReadsBack` | common/base/CConfigFileReader.cc:110-118 | one written line adds exactly its entry |
| `ConfigFile.LastEntryExactlyWhenFits` | common/base/CConfigFileReader.cc:110-118 | a clean entry at the end of the file survives, on top of any map, iff key, '=' and value have at most 127 characters |
| `ConfigFile.LongEntryIsLost` | common/base/CConfigFileReader.cc:110-118 | a longer one does not come back, whatever was loaded before |
| `ConfigReaders.StrChr` | common/base/CConfigFileReader.cc:77-77 | finds the first occurrence, or none iff there is none |
| `ConfigReaders.CutBlanks` | common/base/CConfigFileReader.cc:158-171 | the backward scan cuts exactly the trailing blanks, stops at the first character at the latest and touches nothing else |
| `ConfigReaders.LeftEnd` | common/base/CConfigFileReader.cc:147-152 | the forward scan finds the string without its leading blanks |
| `ConfigReaders.TrimSpace` | common/base/CConfigFileReader.cc:145-172 | the trimmed string, in place, or nothing iff the string is blank; characters outside it are untouched |
| `ConfigReaders.CConfigFileReader.ParseLine` | common/base/CConfigFileReader.cc:130-143 | the in-place code adds what the line means |
| `ConfigReaders.CConfigFileReader.LoadLine` | common/base/CConfigFileReader.cc:67-84 | stays inside the buffer iff the C string is not empty; then newline and comment are cut and the line is parsed |
| `ConfigReaders.CConfigFileReader.LoadFile` | common/base/CConfigFileReader.cc:53-88 | for every file: stays inside the buffer iff no chunk starts with a NUL; then the map becomes what the file means; nothing changes when it cannot be opened |
| `ConfigReaders.NulLineIsUnreadable` | common/base/CConfigFileReader.cc:72-76 | files with a line that starts with a NUL make it leave the buffer |
| `ConfigReaders.CConfigFileReader.WriteFile` | common/base/CConfigFileReader.cc:92-127 | 0 and the lines of all entries; or -1 with nothing when it cannot be opened, and with the lines before the failing one and part of that when a write fails |
| `ConfigReaders.CConfigFileReader.SetConfigValue` | common/base/CConfigFileReader.cc:34-51 | refused before a load; afterwards exactly one entry changes, even when the rewrite fails |
| `ConfigReaders.Reload` | common/base/CConfigFileReader.cc:53-143 | the objects' write and load give the same map back iff all entries are clean and their lines fit |
| `StrExplode.SlotsAreFields` | common/base/util.cc:27-34 | the slots counted are the fields, empty ones included |
| `StrExplode.CountSlots` | common/base/util.cc:27-34 | one more than the separators |
| `StrExplode.ItemsFillExactlyWhen` | common/base/util.cc:37-60 | the items never outnumber the slots, fill them iff no field is empty, and then are the fields |
| `StrExplode.NoneEmptyExactlyWhen` | common/base/util.cc:37-52 | no field is empty iff the string neither starts nor ends with a separator nor has two in a row, and is nonempty |
| `StrExplode.JoinOfFields` | common/base/util.cc:25-60 | joining the fields gives the string back |
| `StrExplode.JoinOfItems` | common/base/util.cc:37-60 | for any string, joining the items gives it back up to a separator at its very end |
| `StrExplode.ItemsAreCutInside` | common/base/util.cc:37-60 | a separator can only be the first character of an item |
| `StrExplode.FilledExactlyWhenNoneEmpty` | common/base/util.cc:25-60 | all slots are filled iff separators stand apart; then the slots are the fields and join to the input |
| `StrExplode.Fill` | common/base/util.cc:37-60 | the scan stores the items in the first slots, in bounds, and writes no other slot |
| `StrExplode.CStrExplode.constructor` | common/base/util.cc:25-60 | one slot per field; the first hold the items, the others are never written |

## Left out

- System calls, sockets, timers, logging and descriptors: only the kernel facts listed above.
- MySQL and Redis commands and their result types: wrappers around foreign libraries.
- The server destructor and teardown at process exit: depends on object lifetimes outside these files.
- The race between the state test and the state change inside `shutdown()`: see the modelling choices.
- Update in place of the event loop, the server map, the thread pool and the pools' waiters: modelled as step systems on values, which captures interleaving but not memory layout.
- The read side of a connection (`handleRead`) beyond end of file: it only calls user code.
- ThreadPools.Start: does not model workers that begin before `start` has counted all threads as idle.
- EventLoopWakeup.LoopPoll timeouts: a poll may return at any time, so nothing is claimed about how long it blocks.
- GroupInfos.MergePartialFromCodedStream: does not model the half-filled message a failed parse leaves behind, the 64 MB total limit or the logging of bad UTF-8.
- ContactSessions.IMRecentContactSessionRsp.ByteSize: does not model overflow of the int that holds a total of 2^31 bytes or more.
- GroupInfos.MergeFrom, and parsing into a GroupInfo: the message is a value that the parser's loop replaces, so aliasing between messages is not modelled.
- Reflection, descriptors, Swap, Clear and all other messages: repetitive.
- The lookup in the configuration map, the event loop thread pool's round robin and the start handshake of loop threads: small.
