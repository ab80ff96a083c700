# ReactorServer: a verified model

This project models the logic of the ReactorServer repository in Dafny and proves what its
parts promise. `dafny verify dfyconfig.toml` checks all of it.

## What is modelled

**The connection protocol of the multi-reactor server** (`Reactor*.dfy`). The base loop accepts
connections and owns the connection map, the I/O loops own the channels, and they talk only
through queues of functors. `Reactor.dfy` is a step system in which any interleaving of any
number of loop threads, and of foreign threads that queue functors, is a run; with no I/O loop
everything runs inline on the base loop. A failing `assert` is an abort, since the build does
not define NDEBUG; for the same reason the `erase` inside an assert (src/TcpServer.cc:81) and
the assignment inside one (src/EpollPoller.cc:70) take effect. `ReactorInv.dfy` states the
invariant, `ReactorOps.dfy` and `ReactorSteps.dfy` show that every operation and step keeps it,
and the results are in `ReactorSafety.dfy`, `ReactorRest.dfy` and `ReactorDrain.dfy`: which
assert can fail and when, that every connection goes once through its phases, who owns what,
no lost wakeup, order of functors, and when the server comes to rest with nothing leaked.
`ReactorAbort.dfy` gives runs that end in the one assert that can fail, one for each of its two
causes, and one that never leaves the write loop.

**The poller** (`Poller.dfy`, `EpollPoller.dfy`): the agreement between a channel's status, the
poller's map and the kernel's epoll set, as a specification on values that the reactor uses as
well, and as the classes Channel and EpollPoller that refine it. `TcpConnection.dfy` is the
connection as an object over such a channel, with the write loop of `handleWrite`.

**The functor queue** (`EventLoop.dfy`), **the loop pool** (`RoundRobin.dfy`, `LoopPool.dfy`)
and **the start-up handshake** of a new I/O loop through a latch and a condition variable
(`Handshake.dfy`).

**The v0.1 worker pool**: its doubly linked job list as linked objects (`JobQueue.dfy`), and the
protocol of workers, submitters and destroyer over mutex, semaphore and flag (`WorkerPool.dfy`).

**The timer heap** (`TimerHeap.dfy`, `HeapCost.dfy`): the array heap as a class that refines a
multiset priority queue, with its cost bounds.

**HTTP**: the line scanner shared by both parsers (`Lines.dfy`) and the C string functions
(`CStrings.dfy`); the resumable in-place parser HttpConn (`HttpConnSpec.dfy`,
`HttpConnMeaning.dfy`, `HttpConnAccepts.dfy`, `HttpConn.dfy`); the whole-buffer parser
HttpContext with HttpRequest (`HttpContextSpec.dfy`, `HttpContextAccepts.dfy`,
`HttpContext.dfy`); the printer HttpResponse and a reader for what it prints (`HttpResponseSpec.dfy`, `HttpResponse.dfy`), with
decimal numbers in `Decimal.dfy`.

Where code and comments disagree the model follows the code: `disableWrite` keeps only the
write bit (src/Channel.h:47); `handleWrite` takes its output for sent once half of it is
(src/TcpConnection.cc:174); a write that returns 0 closes the connection and the loop around
it writes again (src/TcpConnection.cc:186-188); `parseRequest` also answers GET_REQUEST for
unfinished and bad lines (src/HttpContext.cc:91-92); the loop that should trim trailing white
space never ends when there is some (src/HttpRequest.cc:23-24), which the model shows as the
result `Diverges`.

Assumptions about the outside: `accept` returns a descriptor that is open nowhere else;
`epoll_wait` returns registered descriptors, each at most once, with bits it was asked for or
EPOLLERR or EPOLLHUP, and fewer than its vector holds; a write of no bytes returns 0 or fails
for good, and any other takes at least one byte or fails, for good or with EAGAIN;
`write` and `read` on the wakeup descriptor set and clear a signal; user callbacks call `send`
and `shutdown` only from the loop's thread; functors of the user's own touch no connection; a
`shared_ptr` lives as long as it is held. Reading stops at the end of what has arrived, and
callbacks and functors return: the HTTP server's own message callback does not when a header
value ends in white space (`HttpContextSpec.RequestMeans`), and its loop is then stuck.

## Model

| member | source | states |
|---|---|---|
| `ReactorSafety.OnlyLateCloseAborts` | src/TcpConnection.cc:193-204 | over every run of a server with any number of I/O loops, the one assert that can fail is the one in handleClose, and it fails exactly when a hang-up meets a connection the server has shut down, or a write loop whose output buffer is empty meets one that is not connected any more |
| `ReactorSafety.StepKeepsInv` | src/EventLoop.cc:39-76 | every step of every thread either aborts in exactly that case or keeps the whole invariant and moves no connection back to an earlier phase |
| `ReactorSafety.InvAlways` | src/EventLoop.cc:39-76 | the invariant holds, and phases only move forward, along every interleaving |
| `ReactorSafety.ProtocolOnce` | src/TcpServer.cc:48-84 | each connection is established, erased from the map and destroyed at most once and in that order, its name is unique, it sits on the loop whose turn it was, and the one functor due for it is queued exactly once on the right loop |
| `ReactorSafety.PointersAreHeld` | src/EpollPoller.cc:39-52 | every connection that a poller, the epoll set or the undispatched part of an active list points to is held by the map, a queued functor or the running handler |
| `ReactorSafety.DestructorsPass` | src/Channel.cc:24-30 | a connection is held until it has been destroyed and, after that, exactly by the rounds of functors still running that ran one of its own; once nothing holds it the asserts of its and its channel's destructor hold and no loop refers to it |
| `ReactorSafety.PendingWillBeSeen` | src/EventLoop.cc:86-99 | no wakeup is lost: a loop at poll owes none itself, and with functors pending it can be woken at once or some thread that pushed to this loop is about to signal it |
| `ReactorSafety.FunctorsRunInOrder` | src/EventLoop.cc:64-94 | what a loop has taken out, then its batch, then its pending list are what was pushed, in order |
| `ReactorRest.PromptRunsNeverAbort` | src/TcpConnection.cc:148-204 | no run in which no callback calls shutdown and every answer is taken whole by the socket has a step at which an assert fails |
| `ReactorRest.NothingLeaks` | src/TcpServer.cc:70-84 | when all loops are at poll with empty queues, every connection is either open, in the map and in its loop's epoll set, or destroyed, out of the map and unreferenced |
| `ReactorRest.KeptOutputIsArmed` | src/TcpConnection.cc:42-78 | a send on an open connection that leaves output in the buffer leaves the connection in its loop's epoll set with the write bit |
| `ReactorDrain.ServerComesToRest` | src/EventLoop.cc:45-58 | between outside events the server takes a bounded number of steps besides writes told to try again; it can go on without an answer of write() exactly until every loop rests or is in a write loop, and is at rest when none is |
| `ReactorDrain.InternalStepsAreBounded` | src/TcpConnection.cc:157-189 | the weight of a state and the number of writes told to try again bound the number of the server's own steps from it |
| `ReactorDrain.MovesUnlessStalled` | src/EventLoop.cc:45-58 | no deadlock: unless every loop rests or waits for an answer of write(), some thread can take a step that needs none |
| `ReactorDrain.RetryChangesNothing` | src/TcpConnection.cc:163-166 | a write told to try again leaves everything as it was |
| `ReactorAborts.WriteLoopStarves` | src/TcpConnection.cc:157-169 | a state is reached in which the write loop can try again any number of times while a functor stays pending |
| `ReactorAborts.HangUpAfterShutdownAborts` | src/TcpConnection.cc:193-198 | a run, one request answered with a shutdown and then a hang-up, reaches the failing assert |
| `ReactorAborts.SlowReaderAborts` | src/TcpConnection.cc:157-189 | a run without any shutdown, one answer sent in two parts and then an EPOLLOUT with nothing left to write, reaches the failing assert too |
| `ReactorSteps.PollKeeps` | src/EpollPoller.cc:39-52 | whatever epoll reports passes the lookup asserts |
| `ReactorSteps.NewConnectionKeeps` | src/TcpServer.cc:48-68 | accepting a connection on a fresh descriptor always succeeds, inline or queued |
| `ReactorSteps.RunNextKeeps` | src/EventLoop.cc:64-76 | whichever functor a loop takes out, it is one that is due and none of its asserts fails |
| `ReactorSteps.DispatchKeeps` | src/EventLoop.cc:49-53 | taking the next active channel keeps the invariant |
| `ReactorSteps.WakeKeeps` | src/EventLoop.cc:96-99 | signalling a loop pays one owed wakeup and loses none |
| `ReactorOperations.EstablishKeeps` | src/TcpConnection.cc:94-105 | connectionEstablished finds its connection connecting, and makes it live |
| `ReactorOperations.RemoveKeeps` | src/TcpServer.cc:76-84 | removeConnectionInLoop finds the name in the map, so erase removes exactly one entry, and queues the destroy functor |
| `ReactorOperations.DestroyKeeps` | src/TcpConnection.cc:107-118 | connectionDestroyed finds the connection closed and its channel removable outside any dispatch round |
| `ReactorOperations.CloseKeeps` | src/TcpConnection.cc:193-204 | handleClose aborts exactly when the connection is not connected, and otherwise hands its removal to the base loop |
| `ReactorOperations.EnqueueKeeps` | src/EventLoop.cc:86-94 | queueing the functor that is due keeps the table of queued functors and the wakeup promise |
| `ReactorOperations.ChannelOpResult` | src/EventLoop.cc:106-120 | a channel operation on a loop aborts only as an improper removal and leaves every poller in agreement |
| `ReactorInvariants.NamesAreUnique` | src/TcpServer.cc:53-59 | different connection ids give different names |
| `Decimal.ValueOfRender` | src/HttpResponse.cc:17 | a printed number reads back as itself |
| `Decimal.RenderIsInjective` | src/TcpServer.cc:54 | two numbers that print alike are equal |
| `Pollers.RunKeepsAgreement` | src/EpollPoller.cc:55-110 | any sequence of channel operations runs without a failing assert exactly when it only removes registered channels without interest bits; epoll_ctl never fails in it, and status, map and epoll set agree at its end |
| `Pollers.ApplyKeepsAgreement` | src/EpollPoller.cc:55-98 | one operation on any channel: when it aborts, and that agreement is kept for all channels |
| `Pollers.ApplyOne` | src/Channel.h:42-48 | what one operation does to the channel it is called on, to its entries and to nothing else |
| `Pollers.NewcomerAgrees` | src/Channel.cc:12-22 | a new channel on an unused descriptor joins the agreement |
| `Pollers.EpollReturnsKnownChannels` | src/EpollPoller.cc:39-52 | a channel in the epoll set is the registered one, added, with the interest bits epoll holds |
| `EpollPollers.EpollPoller.UpdateChannel` | src/EpollPoller.cc:55-81 | the method does to map, epoll set and status what the specification says, assert by assert |
| `EpollPollers.EpollPoller.RemoveChannel` | src/EpollPoller.cc:83-98 | likewise for removal |
| `EpollPollers.EpollPoller.Update` | src/EpollPoller.cc:100-110 | epoll_ctl with the edge-triggered bit added; a failure is only reported |
| `EpollPollers.EpollPoller.HasChannel` | src/EpollPoller.cc:112-115 | wherever poller and channels agree: found if and only if the channel's status is not CNew, which is what the destructor of Channel asserts about |
| `EpollPollers.EpollPoller.FillActiveChannel` | src/EpollPoller.cc:39-52 | succeeds exactly when the batch is smaller than the vector and every returned channel is known; the active list has the kernel's order and each channel its events |
| `EpollPollers.ReportsAreKnown` | src/EpollPoller.cc:45-47 | under agreement the lookups of fillActiveChannel succeed |
| `EpollPollers.Channel.EnableRead` | src/Channel.h:42 | registers the read bits as the specification says |
| `EpollPollers.Channel.EnableWrite` | src/Channel.h:44 | registers the write bit as the specification says |
| `EpollPollers.Channel.DisableRead` | src/Channel.h:43 | takes the read bits away |
| `EpollPollers.Channel.DisableWrite` | src/Channel.h:45-47 | keeps only the write bit, as the code does |
| `EpollPollers.Channel.DisableAll` | src/Channel.h:46-48 | leaves no bit |
| `EpollPollers.Channel.Remove` | src/Channel.cc:37-41 | fails if interest bits are left, and otherwise unregisters |
| `EpollPollers.Channel.Update` | src/Channel.cc:32-35 | marks the channel as added and passes it to the poller |
| `TcpConnections.TcpConnection.ConnectionEstablished` | src/TcpConnection.cc:94-105 | succeeds exactly for a connecting connection with a registrable channel, which is then registered for reading |
| `TcpConnections.TcpConnection.ConnectionDestroyed` | src/TcpConnection.cc:107-118 | unregisters the channel, first disabling it and calling back if the connection is still open |
| `TcpConnections.TcpConnection.HandleClose` | src/TcpConnection.cc:193-204 | succeeds exactly before the connection is closed or half closed, and then calls both callbacks once |
| `TcpConnections.TcpConnection.Shutdown` | src/TcpConnection.cc:80-92 | half-closes an open connection only, and shuts the socket only when no output waits |
| `TcpConnections.TcpConnection.HandleWrite` | src/TcpConnection.cc:148-191 | ends at the first write after which half of the output is sent, touching the channel only then, or at an error; a second empty write fails the assert; the socket is never shut here |
| `TcpConnections.WriteBitStays` | src/TcpConnection.cc:174-181 | disableWrite leaves the write bit on, so the shutdown that waits for it to go never comes |
| `EventLoops.EventLoop.DoPendingFunctors` | src/EventLoop.cc:64-76 | runs exactly the functors pending at its start, in order, with what they run inline; leaves exactly what they queued, each with a wakeup |
| `EventLoops.EventLoop.RunInLoop` | src/EventLoop.cc:78-84 | inline in the loop's thread, queued with a wakeup from any other |
| `EventLoops.EventLoop.QueueInLoop` | src/EventLoop.cc:86-94 | appends, and wakes the loop unless its thread will look at the queue by itself |
| `EventLoops.RoundTakesOneLevel` | src/EventLoop.cc:64-76 | each round takes one level of nested queueing off |
| `EventLoops.QueueRunsDry` | src/EventLoop.cc:64-76 | left alone the queue is empty after k rounds if and only if functors are nested at most k deep |
| `RoundRobin.TurnsGoRound` | src/EventLoopThreadPool.cc:21-24 | incrementing and wrapping is the count modulo the number of loops |
| `RoundRobin.TurnsAreEven` | src/EventLoopThreadPool.cc:16-26 | after k turns everyone has had k / n, the first k % n one more |
| `LoopPools.DealtEvenly` | src/EventLoopThreadPool.cc:16-26 | after any k calls each loop was chosen floor or ceiling of k / n times |
| `LoopPools.BaseDoesAll` | src/EventLoopThreadPool.cc:19-25 | without threads every call returns the base loop |
| `LoopPools.EventLoopThreadPool.GetNextLoop` | src/EventLoopThreadPool.cc:16-26 | the k-th call returns loop k modulo n, or the base loop; it fails only before start |
| `LoopPools.EventLoopThreadPool.Start` | src/EventLoopThreadPool.cc:28-44 | collects the loops in the order they were started, once only; the callback runs on the base loop exactly when there are no threads |
| `LoopPools.EventLoopThreadPool.constructor` | src/EventLoopThreadPool.cc:8-14 | an unstarted pool without threads |
| `Handshake.StartLoopIsSafe` | src/Thread.cc:66-80 | over all interleavings: start passes its latch and its assert only after the id is written, startLoop returns a loop unless that loop has quit, and nobody sleeps on a true condition without a notification on its way |
| `Handshake.StuckExactly` | src/EventLoopThread.cc:40-52 | start-up is stuck if and only if startLoop sleeps while the thread was never created or has already cleared its loop |
| `Handshake.StartUpEnds` | src/Mutex.cc:74-87 | only wakeups without a notification can prolong start-up, by three steps each |
| `Handshake.StartUpCompletes` | src/EventLoopThread.cc:25-52 | start-up ends after boundedly many steps with a loop returned, the loop over, or no thread |
| `Handshake.FailedCreationHangs` | src/Thread.cc:70-73 | if pthread_create fails startLoop sleeps for ever |
| `Handshake.EarlyQuitHangs` | src/EventLoopThread.cc:36-37 | if the loop quits before startLoop has looked, startLoop sleeps for ever |
| `WorkerPool.NoWorkerCrashes` | v0.1/thread_pool.cc:117-148 | over every interleaving no worker reads a null tail, the mutex excludes, while the pool is alive jobs = semaphore + workers past the wait + tokens not yet posted, and no job runs twice |
| `WorkerPool.CommittedWorkerFindsJob` | v0.1/thread_pool.cc:125-139 | a worker past both tests finds the queue nonempty |
| `WorkerPool.InvAlways` | v0.1/thread_pool.cc:104-148 | the pool's invariant holds in every reachable state |
| `WorkerPool.NoWorkerLeftWaiting` | v0.1/thread_pool.cc:76-88 | once destroy has posted its tokens no worker can be left in sem_wait |
| `WorkerPool.ShutdownStepDecreases` | v0.1/thread_pool.cc:69-93 | each step after destroy has begun, other than a new submission, makes a measure smaller |
| `WorkerPool.ShutdownNeverStuck` | v0.1/thread_pool.cc:69-93 | until the pool is gone somebody can step |
| `WorkerPool.ShutdownEnds` | v0.1/thread_pool.cc:69-102 | every run of shutdown is bounded and ends with the pool torn down |
| `WorkerPool.ServiceEnds` | v0.1/thread_pool.cc:104-148 | a pool in service catches up: without new submissions every run is bounded, and one that cannot be continued has called and freed every job submitted exactly once and left the queue empty |
| `WorkerPool.ServiceMoves` | v0.1/thread_pool.cc:104-148 | in service somebody can step, without a new submission, unless every worker waits, no token is left and no submission is in flight |
| `WorkerPool.EveryJobFreedOnce` | v0.1/thread_pool.cc:69-148 | at the end all workers have exited and every job was freed exactly once, by its worker or by the emptying of the queue |
| `WorkerPool.PoolSize` | v0.1/thread_pool.cc:18-19 | the pool has between 1 and 50 threads, as many as asked for when that is in range |
| `JobQueues.JobQueue.Add` | v0.1/thread_pool.cc:166-188 | links the job behind all others of a well-formed doubly linked list and posts one token |
| `JobQueues.JobQueue.RemoveLast` | v0.1/thread_pool.cc:190-213 | unlinks the oldest job, or fails on an empty list |
| `JobQueues.JobQueue.Peek` | v0.1/thread_pool.cc:215-217 | the oldest job, or null |
| `JobQueues.JobQueue.Empty` | v0.1/thread_pool.cc:219-234 | frees every node exactly once, oldest first, and leaves an empty list |
| `TimerHeaps.TimerHeap.constructor` | src/Timer.cc:4-12 | an empty heap of any given capacity, its slots null |
| `TimerHeaps.TimerHeap.FromArray` | src/Timer.cc:14-30 | throws exactly when the timers do not fit; otherwise a heap of exactly those timers, built with fewer swaps than timers |
| `TimerHeaps.TimerHeap.AddTimer` | src/Timer.cc:39-60 | adds exactly the timer to the bag, keeps heap order, moves at most log2(cur_size) pointers up the heap, and all resizes so far have copied fewer than twice as many pointers as timers were added |
| `TimerHeaps.TimerHeap.DelTimer` | src/Timer.cc:63-73 | leaves heap order and the bag as they are, with fewer swaps than nodes |
| `TimerHeaps.TimerHeap.Top` | src/Timer.cc:75-78 | null exactly for an empty heap, else a timer that expires first |
| `TimerHeaps.TimerHeap.Pop` | src/Timer.cc:80-90 | removes exactly the root, which expires first |
| `TimerHeaps.TimerHeap.Tick` | src/Timer.cc:92-107 | runs exactly the callbacks of expired timers, in order of expiry, and leaves exactly the unexpired ones |
| `TimerHeaps.TimerHeap.PercolateDown` | src/Timer.cc:109-121 | turns order below a node into order from it, keeps the bag, and swaps at most log2(cur_size / (hole + 1)) times |
| `TimerHeaps.TimerHeap.Heapify` | src/Timer.cc:26-28 | orders an arbitrary array, keeps its bag, with fewer swaps than nodes |
| `TimerHeaps.TimerHeap.Resize` | src/Timer.cc:123-137 | doubles the capacity, copies cur_size pointers and clears the rest |
| `TimerHeaps.TimerHeap.SiftUp` | src/Timer.cc:47-55 | moves the hole up until the new timer fits: order, the bag with the timer, and at most log2(cur_size) pointers copied |
| `TimerHeaps.TimerHeap.ClimbOnce` | src/Timer.cc:49-54 | one round of that loop: either the parent precedes the timer, or it moves into the hole and nothing else changes |
| `TimerHeaps.RootIsEarliest` | src/Timer.cc:75-78 | in a heap the root expires no later than any node |
| `TimerHeaps.SinkStep` | src/Timer.cc:110-120 | one swap with the lesser child moves the only violation one level down |
| `TimerHeaps.ClimbStep` | src/Timer.cc:49-54 | one copy of the parent moves the hole one level up |
| `TimerHeaps.TickStep` | src/Timer.cc:95-106 | one turn of the loop keeps the account of what ran and what is left |
| `HeapCost.LevelsIsLargest` | src/Timer.cc:110 | the number of levels below a node is the largest d with (hole + 1) * 2^d within the size |
| `HeapCost.LevelSumBound` | src/Timer.cc:26-28 | the levels below all nodes add up to less than the number of nodes |
| `Lines.ScanLineMeaning` | src/HttpConn.cc:68-91 | a line is complete exactly when its first CR or LF is CR LF, which alone becomes NULs; bad and open likewise; the branch for LF after CR never succeeds |
| `Lines.ScanLineResumes` | src/HttpContext.cc:20-43 | more input never changes a scan that ended, and an open scan goes on where it stopped |
| `Lines.LineFound` | src/HttpConn.cc:68-91 | the converse for the buffer: where a scan succeeds, a line without line ends and its CR LF stand |
| `Lines.ParseLine` | src/HttpConn.cc:68-91 | the in-place loop computes the scan and leaves the rest of the buffer alone |
| `CStrings.IgnoringCaseMeans` | src/HttpConn.cc:154-166 | strncasecmp as equality up to case in each character |
| `HttpConnSpec.ChunkIndependence` | src/HttpConn.cc:188-226 | a bodiless request fed in any split, with processRead after each chunk until it stops, gives the outcome, url, version, host, linger, content length, state and checkedIdx of one call on the whole |
| `HttpConnSpec.SplitsAgree` | src/HttpConn.cc:188-226 | two splits of the same input cannot be told apart |
| `HttpConnSpec.ProcessResumes` | src/HttpConn.cc:188-226 | processRead stopped for lack of input and called again with more equals one call with all of it |
| `HttpConnAccepts.AnyRequestMeans` | src/HttpConn.cc:114-175 | a complete request, its lines with or without NULs in them, is rejected exactly when the string in its first line does not say GET, a path and HTTP/1.1; otherwise url, version, host, keep-alive and content length are those sent and the bytes behind it are untouched |
| `HttpConnAccepts.EveryBuffer` | src/HttpConn.cc:188-226 | for every buffer: BAD_REQUEST if and only if a complete first line is no GET of a path over HTTP/1.1; doRequest or a body if and only if an accepted line, header lines and an empty one stand there; otherwise more is wanted |
| `HttpConnAccepts.AcceptedExactly` | src/HttpConn.cc:114-143 | for every line: accepted if and only if it consists of a GET, a target with a path and HTTP/1.1, set apart by blanks |
| `HttpConnMeaning.SplitMeans` | src/HttpConn.cc:114-143 | where a line made of three words is cut, and where url and version then point |
| `HttpConnMeaning.InfoMeans` | src/HttpConn.cc:145-175 | which header lines are recognised and what they say |
| `HttpConnMeaning.LingerMeans` | src/HttpConn.cc:154-159 | keep-alive is on exactly when it was or some Connection line asked for it |
| `HttpConnMeaning.LengthMeans` | src/HttpConn.cc:161-164 | the last Content-Length line counts |
| `HttpConnMeaning.HostMeans` | src/HttpConn.cc:166-169 | the last Host line counts |
| `HttpConns.HttpConn.constructor` | src/HttpConn.cc:48-64 | a connection in its initial state |
| `HttpConns.HttpConn.Reset` | src/HttpConn.cc:48-64 | back to the initial state with the read buffer cleared |
| `HttpConns.HttpConn.Read` | src/HttpConn.cc:94-111 | appends what was received; false at the end of input or when the buffer is full |
| `HttpConns.HttpConn.ParseRequestLine` | src/HttpConn.cc:114-143 | cuts the line in the buffer as specified, with url and version pointing into it |
| `HttpConns.HttpConn.ParseHeaders` | src/HttpConn.cc:145-175 | takes one header line as specified |
| `HttpConns.HttpConn.ProcessRead` | src/HttpConn.cc:188-226 | the loop over the buffer in place computes Process |
| `HttpContextSpec.RequestRoundTrip` | src/HttpContext.cc:45-138 | a well-formed request with clean values comes back field by field, the last of duplicate headers winning, the body untouched |
| `HttpContextSpec.RequestMeans` | src/HttpContext.cc:45-138 | for any first line, header lines and first line without a colon: answered BAD_REQUEST exactly when the first line is no request line, returning exactly when no value ends in white space, and then with exactly the fields sent and the rest untouched |
| `HttpContextAccepts.EveryBuffer` | src/HttpContext.cc:45-93 | for every buffer: BAD_REQUEST if and only if a complete first line is no request line; no return if and only if an accepted line is followed by header lines one of which ends in white space; content reached if and only if accepted line, header lines without such a value and a line without a colon stand there |
| `HttpContextSpec.AcceptedExactly` | src/HttpContext.cc:95-125 | for every line: accepted if and only if it is a nonempty method, a target and HTTP/1. with one more character, set apart by single spaces |
| `HttpContextSpec.ColonMakesField` | src/HttpContext.cc:127-131 | every line with a colon is a header line |
| `HttpContextSpec.ColonlessEnds` | src/HttpContext.cc:133-136 | every line without one ends the header section |
| `HttpContextSpec.RequestLineMeans` | src/HttpContext.cc:98-125 | what a line with two spaces sets, part by part |
| `HttpContextSpec.FieldMeans` | src/HttpRequest.cc:17-27 | any line with a colon: its name and left-trimmed value, or an endless loop |
| `HttpContextSpec.FieldsMean` | src/HttpContext.cc:127-138 | a whole header section, up to the first line without a colon |
| `HttpContextSpec.FieldsPass` | src/HttpContext.cc:45-71 | any run of header lines, whatever follows: all their fields are taken, or parsing never gets past them |
| `HttpContextSpec.LastFieldWins` | src/HttpRequest.cc:25 | the header map holds each name's last value |
| `HttpContexts.HttpContext.ParseRequest` | src/HttpContext.cc:45-93 | the loop over the buffer in place computes Parse |
| `HttpContexts.HttpContext.ParseRequestLine` | src/HttpContext.cc:95-125 | sets the request's fields as specified |
| `HttpContexts.HttpContext.ParseHeader` | src/HttpContext.cc:127-138 | takes one header line as specified, or never returns |
| `HttpContexts.HttpContext.Reset` | src/HttpContext.cc:148-156 | back to a fresh context |
| `HttpContexts.HttpRequest.AddHeader` | src/HttpRequest.cc:17-27 | stores the value without its leading white space, relying on the NUL behind the line |
| `HttpContexts.HttpRequest.Reset` | src/HttpRequest.cc:29-36 | back to a blank request |
| `HttpResponseSpec.ResponseMeans` | src/HttpResponse.cc:12-28 | a printed response with anything behind it can be read exactly when no header value ends in white space, and then gives back its status line and leaves precisely its body and what follows |
| `HttpResponseSpec.ResponseRoundTrip` | src/HttpResponse.cc:12-28 | with clean values the header map comes back too, the response's own headers overriding the framing fields |
| `HttpResponseSpec.DecodeOneMeans` | src/HttpResponse.cc:14-19 | cutting a response off a stream by Content-Length gives exactly its parts if and only if the length printed last is that of the body |
| `HttpResponseSpec.StreamRoundTrip` | src/HttpResponse.cc:12-28 | any concatenation of framed responses decodes into exactly them |
| `HttpResponseSpec.StreamsAreUnambiguous` | src/HttpResponse.cc:12-28 | two lists of framed responses with the same bytes are the same to a reader |
| `HttpResponseSpec.StatusLineParts` | src/HttpResponse.cc:13 | the three parts of a status line can be told apart |
| `HttpResponseSpec.SortedFieldsListTheMap` | src/HttpResponse.cc:20-25 | the walk over the header map meets exactly its entries |
| `HttpResponseSpec.SortedFieldsAreSorted` | src/HttpResponse.cc:20 | and meets them in strictly increasing order of their names |
| `HttpResponses.HttpResponse.ToString` | src/HttpResponse.cc:12-28 | appends the printed response and nothing else |
| `HttpResponses.HttpResponse.HeaderLines` | src/HttpResponse.cc:20-25 | the loop over the header map prints the entries in key order |
| `HttpResponses.HttpResponse.FramingLines` | src/HttpResponse.cc:14-19 | prints the framing fields for a closing or a kept-alive connection |
| `HttpResponses.HttpResponse.AddHeader` | src/HttpResponse.h:29-31 | a reader of the response then finds the value under the name, in place of an earlier one or of a framing field, and all else as before |

## Left out

- TcpServer, EventLoop's dispatch loop and Channel's event handler are modelled on values, as steps of one system, since their claims range over interleavings of several threads; aliasing between C++ objects is represented by connection numbers. Channel, EpollPoller, TcpConnection and the functor queue are also given as classes, which share the poller's specification with the step system.
- The bytes that `handleWrite`, `sendInLoop` and `HttpConn::write` put on the wire: partial writes do not advance the source pointer, so the stream is not conserved. How much waits and how much has been sent is modelled, and so is each turn of the write loop.
- Bodies in HttpConn: the model stops when the body begins (`BodyFollows`), because after an incomplete body the loop condition runs the line scanner over body bytes and moves `checkedIdx` (src/HttpConn.cc:193-220).
- What `doRequest` does with the file it finds; reaching it is an outcome.
- Integer widths: `nextConnId_`, the doubling of the heap's capacity, buffer indices and body sizes are unbounded here, except that the 32-bit truncation of `atol` is kept.
- The 4-byte accesses to the eventfd, which needs 8; the wakeup descriptor is a signal.
- Growth of `eventVec_`: `reserve` does not change its size, and a full batch fails the assert at src/EpollPoller.cc:40. `FillActiveChannel` states that failure; the step system assumes smaller batches.
- The descriptors of the wakeup and accept channels are registered for good and appear in the step system only as events.
- Teardown of servers, loops and threads, `quit` except in the handshake, `startRead`, `stopRead`, `send` and `shutdown` from another thread, and the write-complete callback, which the HTTP server does not set.
- TcpConnections.TcpConnection.HandleWrite: assumes that a write of no bytes returns 0 or a final error and that other writes never return 0; the contents of the buffer are not represented.
- HttpConns.HttpConn.Read: takes one chunk that fits into the buffer; the receive loop and its error codes are the environment's.
- HttpConns.HttpConn.ProcessRead: the outcome of `doRequest` and body parsing are not part of it.
- TimerHeaps.TimerHeap.AddTimer: requires a capacity of at least 1; with 0, doubling leaves no slot and the source writes past the array.
- TimerHeaps.TimerHeap.Tick: requires a capacity of at least 1, since it reads the first slot before it looks at the size; callbacks do not touch the heap, and the clock is a parameter.
- TimerHeaps.TimerHeap.FromArray: requires an array without null pointers, which sifting down would follow.
- WorkerPool.PoolSize: leaves open which size an out-of-range request gets, 20 or 50.
- WorkerPool.EveryJobFreedOnce: the emptying of the queue is one step, so a submission that runs while it walks the list without the mutex is not represented.
- The mutex of TimerHeap, and `delete` of timers.
- `sem_wait` and allocation failures in the worker pool, and submissions that go on after the pool is freed.
- Handshake.StartLoopIsSafe: the thread-init callback is a single step that does not touch the handshake.
- EventLoops.EventLoop.DoPendingFunctors: functors are finite trees of what they run and queue on their own loop; other effects are not represented.
- LoopPools.EventLoopThreadPool.Start: the loops that `startLoop` returns are a parameter.
- The owner field of MutexLock, sockets and epoll calls themselves, logging, configuration, daemon mode, the v0.1 reactor's handler table, the commented-out handler files and the test client.
