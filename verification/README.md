# A verified model of katla's protocols, shared images and option parser

katla is a C++ utility library. This project models the parts of it whose correctness does not show in
any single function body, and proves what they keep over every input, every run or every interleaving:

- **Websocket client and server.** `send` chops a message into packets of 65550 bytes under a lock taken
  once per packet, the service thread pops one packet per writeable callback, and received chunks are
  put together again. `WebSocketFrames` is the wire format (section 5.4 of RFC 6455),
  `WebSocketClient` the object, `WebSocketSenders` many sending threads, `WebSocketService` the
  wake-up protocol between them and the service thread, and `WebSocketAnswers` what it achieves.
- **Worker and dispatcher threads.** Flags, the timed wait and its arithmetic (`WorkerThread`), and the
  queue with coalescing wakeups (`DispatcherThread`).
- **The libuv application.** Async invocation (`AsyncInvocation`), child processes and SIGCHLD
  (`ChildProcess`, over `Subject`), and opening and closing of handles (`HandleLifecycle`).
- **Images.** Nested views over a strided buffer (`ImageViews`) and its reference count (`ImageBuffers`).
- **The bundled cxxopts.** The parser on values (`OptionParser`), what a parse says about its arguments
  (`OptionAccounts`, `OptionPositionals`), the same parse in place over `argv` (`OptionParserInPlace`), the
  option table, integer parsing at any width (`IntegerParser`, `IntegerLiterals`), and the word wrapper of
  the help output (`HelpFormatter`, `HelpBreaks`).
- **Routing and splitting.** Handler tables, segmentwise url match, and `split` with its inverse.

Code that changes state step by step is a class or a method with a loop, each proved against a function of
the old state; code that several threads run is a state machine whose steps are the code's critical
sections, with `Reaches`, `Run` or `Leads` for its finite runs. Some machine states also carry history that
no step looks at, such as what was dispatched, written or pushed so far. The theorems are about these
functions and machines. What the operating system, libuv and libwebsockets do is given by a few step rules,
stated at the head of each module. Where a property one would expect fails, the failing input is exhibited
and the exact condition under which the property holds is proved.

`Primitives` and `Sequences` hold shared vocabulary. `dafny verify dfyconfig.toml` checks everything.

## Model

| member | source | states |
|---|---|---|
| StringSplit.FindFrom | core/string-utils.cpp:110 | the leftmost occurrence at or after a position, or none when there is none |
| StringSplit.Split | core/string-utils.cpp:106-118 | for a non-empty delimiter the loop terminates with the pieces of the input |
| StringSplit.JoinOfPieces | core/string-utils.cpp:106-118 | joining the pieces gives back the input |
| StringSplit.PiecesAreFree | core/string-utils.cpp:106-118 | no piece contains the delimiter |
| StringSplit.PiecesOfJoin | core/string-utils.cpp:106-118 | splitting a join of delimiter-free pieces gives back those pieces when the delimiter has no border |
| StringSplit.BorderBreaksTheInverse | core/string-utils.cpp:106-118 | any bordered delimiter has two delimiter-free pieces that a split of their join does not give back |
| StringSplit.SplitInvertsJoinIffUnbordered | core/string-utils.cpp:106-118 | split inverts join on all delimiter-free pieces exactly for unbordered delimiters, one-character ones among them |
| WebSocketFrames.FragmentsShape | websockets/websocket-server-client-lws-impl.cpp:61-111 | a send makes ceil(n/65550) packets, or one; first and final flags only at the ends; the bodies together are the payload |
| WebSocketFrames.FragmentsCarryFields | websockets/websocket-server-client-lws-impl.cpp:67-87 | every packet repeats the message's header fields and full length, and starts with the reserved prefix |
| WebSocketFrames.ChunksDoNotMatter | websockets/websocket-server-client-lws-impl.cpp:24-40 | a frame received in any chunks has the effect of one insert, followed by a delivery if it is final |
| WebSocketFrames.ReceiverFollowsReading | websockets/websocket-server-lws.cpp:248-261 | for frames that are well-formed by section 5.4 of RFC 6455, in any chunks, the handlers get exactly the messages of a section 5.4 reader, and the buffer is its unfinished message |
| WebSocketSenders.EverySenderKeepsItsOrder | websockets/websocket-server-client-lws-impl.cpp:61-111 | under any interleaving a sender's packets in the list are its own fragment sequences in order |
| WebSocketSenders.StepKeepsInv | websockets/websocket-server-client-lws-impl.cpp:42-111 | every begin, push and pop keeps the invariant over all senders and what a peer has read |
| WebSocketSenders.ReachableStatesSatisfyInv | websockets/websocket-server-client-lws-impl.cpp:42-111 | that invariant holds after every run |
| WebSocketSenders.WholeMessagesIffSerialised | websockets/websocket-server-client-lws-impl.cpp:61-111 | the frames read as whole messages if and only if no thread pushes inside another's message, and then they are the completed messages in completion order |
| WebSocketSenders.ReadingIsMonotone | websockets/websocket-server-client-lws-impl.cpp:42-53 | what was popped so far reads as an initial part of what the whole list reads as |
| WebSocketSenders.RoundTrip | websockets/websocket-server-client-lws-impl.cpp:24-111 | a serialised stream, popped, re-chunked in any way and received, delivers an initial part of the sent payloads, and all of them once the list is empty |
| WebSocketSenders.SeparateCallsAreSerialised | websockets/websocket-server-client-lws-impl.cpp:61-115 | if no thread calls `send` while another is in it, the stream is serialised, for any number of threads |
| WebSocketSenders.SeparateCallsRoundTrip | websockets/websocket-server-client-lws-impl.cpp:24-115 | the round trip for calls of any threads that do not overlap |
| WebSocketSenders.CompletedIsWhatWasSent | websockets/websocket-server-client-lws-impl.cpp:61-115 | a sender's completed messages are those it began, in order, but for one still being pushed |
| WebSocketSenders.OneSenderIsSerialised | websockets/websocket-server-client-lws-impl.cpp:61-111 | a single sending thread is always serialised |
| WebSocketSenders.InterleavedSendersBreakFrames | websockets/websocket-server-client-lws-impl.cpp:89-111 | any long message interrupted by any short one of a second thread makes a stream that no section 5.4 reader accepts |
| WebSocketSenders.SendIsARun | websockets/websocket-server-client-lws-impl.cpp:61-115 | a whole uninterrupted send by any thread is a run of the machine and appends exactly the fragments that the client's own `send` appends |
| WebSocketSenders.PopTakesTheOldest | websockets/websocket-server-client-lws-impl.cpp:42-53 | a pop takes the oldest packet of the list and nothing else |
| WebSocketClient.Client.constructor | websockets/websocket-server-client-lws-impl.cpp:12-20 | a new client has nothing to send and no receive buffer |
| WebSocketClient.Client.Insert | websockets/websocket-server-client-lws-impl.cpp:24-31 | bytes go behind those received, a missing buffer counting as empty |
| WebSocketClient.Client.TakeMessage | websockets/websocket-server-client-lws-impl.cpp:33-40 | hands over the whole receive buffer and leaves none |
| WebSocketClient.Client.DataToSend | websockets/websocket-server-client-lws-impl.cpp:42-53 | pops the oldest packet, or reports that there is none |
| WebSocketClient.Client.HasDataToSend | websockets/websocket-server-client-lws-impl.cpp:55-59 | whether a packet is queued |
| WebSocketClient.Client.Send | websockets/websocket-server-client-lws-impl.cpp:61-115 | pushes exactly the message's fragments behind what is queued and cancels the service wait once |
| WebSocketClient.Client.SendHttpResult | websockets/websocket-server-client-lws-impl.cpp:117-127 | an HTTP result is queued as one binary message |
| WebSocketClient.Client.OnReceive | websockets/websocket-server-lws.cpp:248-261 | one received chunk is one step of the receiver; a message is delivered exactly on a final chunk |
| WebSocketClient.Client.OnServerWriteable | websockets/websocket-server-lws.cpp:215-247 | writes the oldest packet as its frame, closes on a failed or short write, and asks for another callback exactly when more is queued; this is the callback of the protocol with the service thread |
| WebSocketClient.Client.OnHttpWriteable | websockets/websocket-server-lws.cpp:130-204 | the same for HTTP, which also closes after the final packet and when the headers cannot be written |
| WebSocketService.PushIsAnnounced | websockets/websocket-server-client-lws-impl.cpp:89-114 | a push keeps the no-stuck-data invariant because its sender has yet to cancel the wait |
| WebSocketService.OtherStepsKeepInv | websockets/websocket-server-lws.cpp:130-247 | all other steps of senders, scan, callbacks and connections keep it |
| WebSocketService.ReachableStatesSatisfyInv | websockets/websocket-server-lws.cpp:416-433 | it holds after every run |
| WebSocketService.NoStuckData | websockets/websocket-server-lws.cpp:215-247 | data queued for an open client always has a writable request, a pending cancel, a scan or re-check to come, or a sender between push and cancel |
| WebSocketService.BlockedMeansDrained | websockets/websocket-server-lws.cpp:416-433 | when nothing is requested, pending or being sent, every open client's list is empty |
| WebSocketService.StepProgresses | websockets/websocket-server-lws.cpp:130-247 | every step of anyone keeps, for each client, that packets are only appended and popped in order and that each callback pops one while there are any |
| WebSocketService.CallbacksDrain | websockets/websocket-server-lws.cpp:215-247 | over any run from a reachable state, k writeable callbacks of a client pop the first k packets it had queued, in order, whatever senders and other clients do; while it is open all of them were written, except the one being written |
| WebSocketService.RequestsAreKept | websockets/websocket-server-lws.cpp:416-433 | a requested callback stays requested until it runs or the connection ends |
| WebSocketService.StepKeepsWritten | websockets/websocket-server-lws.cpp:130-247 | every step keeps that an open client has had no failed write |
| WebSocketService.WholeCallbackIsARun | websockets/websocket-server-lws.cpp:215-247 | a writeable callback nobody interrupts is a run of the machine with the effect that the client's own callbacks have |
| WebSocketService.HttpClientsGetOneAnswer | websockets/websocket-server-lws.cpp:194-202 | in every reachable state an HTTP client was written at most one final packet, as its last, and is closed then; that it is written is HttpAnswersAreWritten |
| WebSocketService.ClosedClientsGetNothing | websockets/websocket-server-lws.cpp:194-202 | a closed client stays closed and is written nothing more, so a second answer is dropped |
| WebSocketAnswers.HandledRequestsAreAnswered | websockets/websocket-server-lws.cpp:55-65 | after a request whose handling queued something the client is open with a callback requested; otherwise it is closed |
| WebSocketAnswers.HttpAnswersAreWritten | websockets/websocket-server-lws.cpp:122-204 | over any run, unless it ends by a disconnect or a failed write, k callbacks of an HTTP client pop the first k packets of its answer, and a closed one was popped its whole answer; all of it written but for a write under way |
| WebSocketAnswers.ReachableStatesEndWell | websockets/websocket-server-lws.cpp:194-202 | in every reachable state a client that ended as answered was written all that was popped, the last packet being final |
| WebSocketAnswers.EndsHaveCauses | websockets/websocket-server-lws.cpp:174-189 | a client ended by a disconnect or a failed write only if there was one |
| WebSocketAnswers.CausesEnd | websockets/websocket-server-lws.cpp:227-239 | a disconnect or a failed write ends the connection |
| WebSocketAnswers.NewClients | websockets/websocket-server-lws.cpp:209-214 | a new client is open with nothing queued, a websocket is asked for a callback at once, and a client keeps its kind |
| WebSocketAnswers.WebSocketsStayOpen | websockets/websocket-server-lws.cpp:215-247 | a websocket ends only so |
| WebSocketAnswers.SendIsARun | websockets/websocket-server-client-lws-impl.cpp:61-115 | a send nobody interrupts is a run that puts its packets behind those of the client's list and tells the service thread |
| WorkerThread.Worker.constructor | core/worker-thread.cpp:36-55 | no thread, no flags, an interval of one second |
| WorkerThread.Worker.Init | core/worker-thread.cpp:38-55 | refused exactly when a thread exists, but the interval is replaced either way |
| WorkerThread.Worker.Wakeup | core/worker-thread.cpp:57-64 | sets the wakeup flag and nothing else |
| WorkerThread.Worker.Stop | core/worker-thread.cpp:66-73 | sets the stop flag and nothing else |
| WorkerThread.Worker.Join | core/worker-thread.cpp:82-88 | afterwards there is no thread |
| WorkerThread.Worker.AfterWait | core/worker-thread.cpp:104-111 | work goes on exactly when not stopped, and only then is the wakeup flag cleared |
| WorkerThread.Exec | core/worker-thread.cpp:102-122 | the loop asks for the specified waits and starts its passes at the specified times |
| WorkerThread.WaitsAreWithinTheInterval | core/worker-thread.cpp:102-121 | the first wait is the interval, every later one what the work left of it in whole milliseconds, or nothing; only a negative interval's first wait is negative |
| WorkerThread.FirstPassAfterTheInterval | core/worker-thread.cpp:102-115 | never woken, the first pass starts after one interval |
| WorkerThread.GapWhenNeverWoken | core/worker-thread.cpp:116-121 | start-to-start gaps lie in [max(interval, elapsed), that plus 1 ms), with the exact value |
| WorkerThread.GapWhenWoken | core/worker-thread.cpp:102-121 | wakeups only shorten a gap, never below the work |
| WorkerThread.Drift | core/worker-thread.cpp:102-121 | n gaps without wakeups are late by less than n ms and never early |
| DispatcherThread.Dispatcher.constructor | core/dispatcher-thread.cpp:42-82 | an empty queue on a given worker |
| DispatcherThread.Dispatcher.Dispatch | core/dispatcher-thread.cpp:42-49 | queues the task last and sets the worker's wakeup flag |
| DispatcherThread.Dispatcher.RepeatableWork | core/dispatcher-thread.cpp:66-82 | a pass takes the oldest task, at most one, and calls it if it is callable |
| DispatcherThread.StepKeepsInv | core/dispatcher-thread.cpp:42-82 | every step of callers, worker and timeout keeps the invariant and only extends what was dispatched and taken |
| DispatcherThread.RunKeepsInv | core/worker-thread.cpp:57-73 | so does every run |
| DispatcherThread.Conservation | core/dispatcher-thread.cpp:42-82 | taken tasks followed by the queue are the dispatched ones in lock order; those run are the callable ones taken; at most one starts after a stop |
| DispatcherThread.TakenByAttempt | core/dispatcher-thread.cpp:66-82 | the task at queue position k is the one taken by the (k+1)-th later pop attempt |
| DispatcherThread.ClearingsAreAnswered | core/worker-thread.cpp:105-115 | each clearing of the wakeup flag has had its own pop attempt, except that the last one's may be the worker's only next step |
| DispatcherThread.WakeupIsKept | core/worker-thread.cpp:57-64 | a wakeup stays set until the worker's next clearing, also when it lands during a pass, and lets the wait end without the timeout |
| DispatcherThread.CoalescedWakeupNeedsTheTimeout | core/worker-thread.cpp:105-111 | two dispatches and one pass can leave a queued task that only the timeout will reach |
| DispatcherThread.TimeoutNeededIffTasksWereLeft | core/worker-thread.cpp:102-111 | only the timeout can reach queued tasks if and only if the last pop attempt left some and there was no wakeup, stop or call since; they are then all there are |
| DispatcherThread.LoneTasksNeedNoTimeout | core/dispatcher-thread.cpp:42-49 | if every push finds the queue empty, a queued task always has the wakeup set, its dispatch under way, or the pop attempt next |
| DispatcherThread.WaitEndsAsInTheWorker | core/worker-thread.cpp:104-111 | the end of a wait does to the machine what it does to the worker |
| DispatcherThread.DoneMeansStopped | core/worker-thread.cpp:109 | in every reachable state the worker has ended only after a stop |
| DispatcherThread.StopEndsTheWorker | core/worker-thread.cpp:66-73 | a stop is for good and ends the worker at its next wait |
| DispatcherThread.TimeoutTakesTheTask | core/worker-thread.cpp:104-115 | where only the timeout can help it does: the next pass takes the oldest task |
| DispatcherThread.StepKeepsBacklog | core/dispatcher-thread.cpp:42-82 | every step keeps what the last attempt left tied to the queue |
| AsyncInvocation.Application.constructor | core-uv/uv-core-application.cpp:231-277 | no calls, no tasks, nothing pending |
| AsyncInvocation.Application.InvokeAsync | core-uv/uv-core-application.cpp:260-277 | queues the next id last; a failed send is reported although the task stays queued |
| AsyncInvocation.Application.UvAsyncCallback | core-uv/uv-core-application.cpp:231-258 | the drain loop ends with an empty queue and every id run in order, also those queued during callbacks |
| AsyncInvocation.Application.QueueMore | core-uv/uv-core-application.cpp:254-268 | calls made during a callback go behind the queue with consecutive ids |
| AsyncInvocation.InvokeIsARun | core-uv/uv-core-application.cpp:260-277 | a call nobody interrupts does to the machine what it does to the application |
| AsyncInvocation.DrainIsARun | core-uv/uv-core-application.cpp:231-258 | a drain nobody interrupts is a run that executes all that was queued, in order, and ends waiting |
| AsyncInvocation.CallbackIsARun | core-uv/uv-core-application.cpp:231-258 | a pending callback clears the mark and then executes all that was queued |
| AsyncInvocation.StepKeepsOrder | core-uv/uv-core-application.cpp:231-268 | every step keeps executed, in-flight and queued ids equal to those handed out, in order |
| AsyncInvocation.StepKeepsInv | core-uv/uv-core-application.cpp:231-277 | every step also keeps someone responsible for a non-empty queue |
| AsyncInvocation.ReachableStatesSatisfyInv | core-uv/uv-core-application.cpp:231-277 | both hold after every run |
| AsyncInvocation.IdsAreConserved | core-uv/uv-core-application.cpp:231-277 | executed, in-flight and queued ids are, in this order, the ids of all calls; below the 64-bit wrap the executed ones are 1, 2, 3, ... |
| AsyncInvocation.NoLostTask | core-uv/uv-core-application.cpp:231-277 | if the most recent send got through, queued tasks imply a pending send, a running drain, or a caller between push and send, whatever sends failed before |
| AsyncInvocation.StrandedIffPushedSinceTheDrain | core-uv/uv-core-application.cpp:231-277 | with the loop waiting, nothing pending and no call under way, tasks are stranded if and only if something was pushed since the drain last saw an empty list; those are the stranded ones, and every send since then failed |
| AsyncInvocation.IdleLoopMeansAllRan | core-uv/uv-core-application.cpp:231-277 | in such a quiet state every callback has run if and only if nothing was pushed since that empty list, and so whenever the most recent send got through |
| AsyncInvocation.FailedSendStrandsTheTask | core-uv/uv-core-application.cpp:270-274 | a failed send leaves a task that nothing will run |
| Subject.WithoutCounts | core/subject.h:110-118 | erasing takes away one subscription of that observer, if there is one |
| Subject.WithoutAt | core/subject.h:114-117 | it is the first occurrence that is erased, the others keep their order |
| Subject.Subject.Subscribe | core/subject.h:99-108 | the observer is added last |
| Subject.Subject.Unsubscribe | core/subject.h:110-118 | one call takes back one subscription |
| Subject.Subject.Clear | core/subject.h:119-122 | no observers are left |
| Subject.Subject.Next | core/subject.h:86-97 | exactly the observers subscribed at the call are notified, in order, whoever leaves or joins meanwhile; the list afterwards is what the leaving and joining make of it |
| Subject.Subject.Change | core/subject.h:99-118 | unsubscribing some observers and subscribing others, one after the other |
| ChildProcess.Kernel.Fork | core-uv/uv-posix-process.cpp:59-62 | a new living or already ended child, the others unchanged |
| ChildProcess.Kernel.WaitPid | core-uv/uv-posix-process.cpp:154-157 | nothing for a living child, the ending of a zombie, which is reaped, ECHILD after that |
| ChildProcess.PosixProcess.GetStatus | core-uv/uv-posix-process.cpp:148-214 | the new status, the error results and the child's reaping, case by case |
| ChildProcess.PosixProcess.HandleChildSignal | core-uv/uv-posix-process.cpp:216-232 | asks for the status only while the child is watched, and fires onClose exactly when it then no longer is |
| ChildProcess.PosixProcess.Spawn | core-uv/uv-posix-process.cpp:40-117 | every attempt adds a subscription; a pipe or fork that fails leaves Starting and the earlier pid; a child that ended before the closing status call is reaped there, without onClose |
| ChildProcess.PosixProcess.Destroy | core-uv/uv-posix-process.cpp:34-38 | the destructor takes back one subscription |
| ChildProcess.StatusKeepsInv | core-uv/uv-posix-process.cpp:148-214 | a call of `status` by anyone keeps the invariant |
| ChildProcess.NotificationKeepsInv | core-uv/uv-posix-process.cpp:216-232 | so does the notification of one observer |
| ChildProcess.StepKeepsInv | core-uv/uv-posix-process.cpp:40-232 | so does every step of processes, kernel, caller and loop |
| ChildProcess.ReachableStatesSatisfyInv | core-uv/uv-core-application.cpp:120-123 | the invariant holds after every run |
| ChildProcess.NoLostClose | core-uv/uv-core-application.cpp:120-123 | an ended child that its subscribed process still watches has SIGCHLD pending or the round under way has yet to reach it, over any number of processes and however signals coalesce |
| ChildProcess.EveryEndIsAccountedFor | core-uv/uv-posix-process.cpp:148-232 | when no signal is pending and no round under way, an ended child of a subscribed process is exactly one of: closed, with onClose fired once; reaped by a `status` call; or lost, a zombie whose owner has another child or is Starting; only children whose owner tried to spawn again before they were reaped are lost |
| ChildProcess.SingleSpawnsAreClosed | core-uv/uv-posix-process.cpp:216-232 | a child whose owner did not try to spawn again is closed once everything is idle, exactly unless a `status` call reaped it |
| ChildProcess.OneSpawnLosesNothing | core-uv/uv-posix-process.cpp:40-50 | so is the child of a process object used for one spawn only |
| ChildProcess.FailedSpawnLosesTheClose | core-uv/uv-posix-process.cpp:42-62 | a spawn that fails while an earlier child runs loses that child's close |
| ChildProcess.SecondSpawnLosesTheClose | core-uv/uv-posix-process.cpp:103-114 | so does a second spawn that succeeds |
| ChildProcess.ReplacedChildrenAreForgotten | core-uv/uv-posix-process.cpp:103-104 | no later step reaps or closes a child that its owner has replaced |
| ChildProcess.ChildrenStemFromAttempts | core-uv/uv-posix-process.cpp:40-117 | every child stems from a spawn attempt, and one that was overtaken has seen a second |
| ChildProcess.SubscriptionsAreAttempts | core-uv/uv-posix-process.cpp:34-50 | a process has as many subscriptions as it made spawn attempts, less those taken back |
| ChildProcess.DestructorSufficesIffOneAttempt | core-uv/uv-posix-process.cpp:34-38 | the destructor leaves no subscription behind if and only if one spawn was attempted |
| ChildProcess.IdleMeansAllAlive | core-uv/uv-posix-process.cpp:216-232 | with no signal pending and no round under way every watched child of a subscriber is alive |
| ChildProcess.CloseFiresOnce | core-uv/uv-posix-process.cpp:216-232 | in every state each child's onClose has fired at most once, and exactly if it was reaped, and not by a `status` call |
| ChildProcess.WatchedChildIsNotReaped | core-uv/uv-posix-process.cpp:157-172 | the ECHILD branch never makes a watched process Unknown |
| ChildProcess.StatusTellsTheEnding | core-uv/uv-posix-process.cpp:191-211 | in every reachable state the status of a reaped child tells an exit, a kill, a crash and any other signal apart, unless another spawn failed or ECHILD came back since |
| ChildProcess.NotificationCloses | core-uv/uv-posix-process.cpp:216-232 | a notification that reaches a watched child that ended reaps it and fires; a living child is left alone |
| ChildProcess.StatusReapsWereAskedFor | core-uv/uv-posix-process.cpp:148-214 | a child is reaped without onClose only if its owner was asked for the status, by a caller or by its own spawn |
| ChildProcess.LivingChildrenRun | core-uv/uv-posix-process.cpp:180-189 | asking a living child gives Running |
| ChildProcess.ReapedChildrenAreUnknown | core-uv/uv-posix-process.cpp:157-172 | asking for a reaped child gives Unknown if no ending was noted, and the ending otherwise |
| HandleLifecycle.StepKeepsInv | core-uv/uv-timer.cpp:34-135 | every init, close and close callback keeps the invariant on handles and owners |
| HandleLifecycle.LeadsKeepsInv | core-uv/uv-signal-handler.cpp:33-158 | so does every run, timers and signal handlers alike |
| HandleLifecycle.ClosedAndFreedOnce | core-uv/uv-timer.cpp:52-135 | uv_close at most once per handle; memory freed at most once, exactly when the callback of the owner's own close ran |
| HandleLifecycle.OwnersNeverDangle | core-uv/uv-timer.cpp:124-135 | a set `m_handle` points to a handle that was not freed |
| HandleLifecycle.OpenHandlesAreKept | core-uv/uv-timer.cpp:34-63 | no open handle is forgotten: its owner has it and can close it |
| HandleLifecycle.EventLoop.InitHandle | core-uv/uv-timer.cpp:34-50 | refused exactly when a handle is set |
| HandleLifecycle.EventLoop.CloseOwner | core-uv/uv-signal-handler.cpp:52-63 | a close is one step of the life cycle, and harmless when repeated |
| HandleLifecycle.EventLoop.RunCloseCallback | core-uv/uv-signal-handler.cpp:142-158 | a close callback is one step of the life cycle |
| HandleLifecycle.EventLoop.WalkAndClose | core-uv/uv-event-loop.cpp:151-162 | afterwards every handle still open is closing and noted |
| HandleLifecycle.EventLoop.RunSingleIteration | core-uv/uv-event-loop.cpp:88-101 | finishes at least one closing handle and reports success only when none is left |
| HandleLifecycle.EventLoop.CloseOpenHandles | core-uv/uv-event-loop.cpp:129-149 | terminates within one round more than there were open handles, with none left; refused exactly without a loop |
| HandleLifecycle.EventLoop.Close | core-uv/uv-event-loop.cpp:47-71 | frees the loop exactly when no handle is left open, and does nothing the second time |
| HandleLifecycle.SettledOwners | core-uv/uv-event-loop.cpp:129-162 | over any run of closing steps, a handle closed by its owner ends up freed and cleared, one closed by somebody else never does |
| HandleLifecycle.ClosedByTheLoopIsAbandoned | core-uv/uv-event-loop.cpp:151-162 | a handle that the loop closes before its owner does is never freed |
| HandleLifecycle.EventLoop.CloseHandlers | core-uv/uv-core-application.cpp:169-186 | closing the signal handlers settles each of them, one way or the other |
| HandleLifecycle.EventLoop.CloseApplication | core-uv/uv-core-application.cpp:169-211 | succeeds from every state the invariant allows, with every handle closed and the loop freed; a signal handler has no handle left if and only if nobody else had closed it before |
| ImageViews.RoiAddress | image/image.cpp:83-93 | pixel (x, y) of a view is pixel (x+left, y+top) of what it views |
| ImageViews.RoiPixels | image/image.cpp:83-93 | a view has exactly the pixels of its rectangle |
| ImageViews.PixelSizes | image/image.cpp:158-192 | a pixel has one or two bytes for each of its one, three or four channels |
| ImageViews.ChainAddress | image/image.cpp:83-93 | the same for a whole chain of nested views, with summed offsets that lie in the root |
| ImageViews.WholeIsInBounds | image/image.cpp:49-59 | every pixel byte of an image lies in its allocation |
| ImageViews.NestedViewsStayInBounds | image/image.cpp:49-93 | so does every pixel byte of any chain of nested views of an image whose stride holds a row |
| ImageViews.ChainFitsInt | image/image.cpp:83-93 | for an image whose size in bytes fits an int, no product overflows in any chain of nested views |
| ImageViews.PixelsAreDisjoint | image/image.cpp:176-192 | two pixels never share a byte |
| ImageViews.DefaultStrideSuffices | image/image.cpp:35-47 | the default stride holds a row, and is as many rows long as there are channels |
| ImageViews.UnshiftedCopyIsDeep | image/image.cpp:148-155 | copying an un-offset view of an image that owns its memory gives the same pixel bytes |
| ImageViews.ShiftedCopyDiffers | image/image.cpp:148-155 | the copy of an offset view starts with a byte that can differ from the view's |
| ImageViews.CopyIsDeepIffOwnedAndUnshifted | image/image.cpp:148-155 | `copy` duplicates the view, whatever the bytes are, if and only if the image owns its memory and the view is not offset; over external pixels, where it reads through a null pointer, it never does |
| ImageBuffers.SharedBuffer.constructor | image/image.cpp:54-58 | a fresh allocation counted once |
| ImageBuffers.Image.Allocate | image/image.cpp:49-59 | a fresh buffer of height * stride bytes, viewed whole |
| ImageBuffers.Image.External | image/image.cpp:61-69 | a view of foreign pixels, which are not counted |
| ImageBuffers.Image.CopyOf | image/image.cpp:71-81 | shares buffer and view, one more in the count |
| ImageBuffers.Image.RoiOf | image/image.cpp:83-93 | shares the buffer through the shifted view, one more in the count |
| ImageBuffers.Image.Release | image/image.cpp:95-108 | one less in the count, and the buffer freed at zero |
| ImageBuffers.Image.Clear | image/image.cpp:110-121 | releases the buffer and forgets it |
| ImageBuffers.Image.Assign | image/image.cpp:123-146 | releases the old and shares the new buffer, in this order; an assignment to itself only counts up |
| ImageBuffers.Image.Copy | image/image.cpp:148-155 | a new buffer, counted once, with the first height * stride bytes of the old one, which is unchanged; or the null read, exactly when the image has no buffer |
| ImageBuffers.AssignKeepsInv | image/image.cpp:123-146 | an assignment between any two handles keeps counts, frees and handles consistent |
| ImageBuffers.ReachableStatesSatisfyInv | image/image.cpp:35-146 | so does every run of constructors, copies, views, assignments, clears and destructions |
| ImageBuffers.BuffersAreCounted | image/image.cpp:35-146 | a count is the number of handles plus the self-assignments; a buffer is freed at most once and never while referenced |
| ImageBuffers.HandlesNeverDangle | image/image.cpp:71-146 | what a handle refers to exists and was not freed |
| ImageBuffers.StepOnHandles | image/image.cpp:35-146 | which buffer each handle has after each operation |
| ImageBuffers.FreedIffNeverSelfAssigned | image/image.cpp:123-146 | a buffer without handles was freed if and only if no handle was assigned to itself while holding it |
| ImageBuffers.SelfAssignLeaks | image/image.cpp:123-146 | one self-assignment leaks the buffer |
| ImageBuffers.NoSelfAssignNoLeak | image/image.cpp:95-146 | without self-assignment every count is exact and a buffer is freed exactly when it has no handle |
| HelpFormatter.FormatDescription | external/cxxopt/cxxopts.hpp:1427-1493 | the output for the description with its default, or that a reversed range is taken |
| HelpFormatter.DescriptionTellsTheDefault | external/cxxopt/cxxopts.hpp:1435-1440 | the default is appended, except for a flag whose default is false |
| HelpFormatter.BreakIsNewlineAndIndent | external/cxxopt/cxxopts.hpp:1466-1476 | a break is one newline followed by exactly the indent |
| HelpFormatter.WrapText | external/cxxopt/cxxopts.hpp:1444-1490 | the loop over the description, for any text, line break and width |
| HelpFormatter.WrappingReplacesSpaces | external/cxxopt/cxxopts.hpp:1450-1490 | with words of at most width characters and no newline: no reversed range, the output is the description with some single spaces replaced by newline and indent, and no line carries more than 2*width+1 of its characters |
| HelpFormatter.WrapFromMeaning | external/cxxopt/cxxopts.hpp:1450-1490 | the same from any point of the loop |
| HelpBreaks.AdvanceMatches | external/cxxopt/cxxopts.hpp:1450-1487 | each turn of the loop keeps its variables what the text alone says, and takes a reversed range exactly where the text says so |
| HelpBreaks.ReversedIffStretchWithoutSpace | external/cxxopt/cxxopts.hpp:1462-1479 | for every text and width, a range is reversed if and only if some break ends a stretch without spaces that directly follows a break made at a space |
| HelpBreaks.BreaksWithoutNewlines | external/cxxopt/cxxopts.hpp:1457-1484 | without newlines the breaks are at width + 1 and then every width + 2 characters |
| HelpBreaks.ShortWordsReverseNothing | external/cxxopt/cxxopts.hpp:1462-1479 | words of at most width + 1 characters never reverse a range, newlines or not |
| HelpBreaks.LongWordReversesTheRange | external/cxxopt/cxxopts.hpp:1462-1479 | at every width, any word of 2*width+2 or more characters after a short one reverses a range |
| HelpBreaks.TextIsKeptIffNoNewlineCutsALine | external/cxxopt/cxxopts.hpp:1444-1490 | of any text that is wrapped, all visible characters come out, in order, if and only if no newline is reached while its line holds some |
| HelpBreaks.NewlineDropsTheLine | external/cxxopt/cxxopts.hpp:1457-1461 | the output does not depend on what stands on a first line of at most width + 1 characters |
| IntegerParser.Match | external/cxxopt/cxxopts.hpp:474-475 | the sign, base and digits of a literal, at least one digit |
| IntegerParser.DigitOf | external/cxxopt/cxxopts.hpp:572-591 | a digit is below its base |
| IntegerLiterals.DigitTable | external/cxxopt/cxxopts.hpp:576-587 | each character of the digit alphabet, in either case, stands for its place; the letters are no decimal digits |
| IntegerLiterals.OnlyTheseAreDigits | external/cxxopt/cxxopts.hpp:588-591 | no other character is a digit |
| IntegerLiterals.MatchesExactly | external/cxxopt/cxxopts.hpp:474-475 | a text is matched exactly if it is a sign, a prefix and alphanumeric characters, and as that; a prefix is never taken for digits |
| IntegerLiterals.WrittenIsRead | external/cxxopt/cxxopts.hpp:544-614 | every representable number written in decimal, or in hexadecimal behind 0x, with a minus sign if negative, is read as itself |
| IntegerLiterals.Limits | external/cxxopt/cxxopts.hpp:494-508 | the values of an unsigned and of a signed type, by the power of two |
| IntegerParser.ParseInteger | external/cxxopt/cxxopts.hpp:544-614 | the loop over the digits, at any width from 8 bits on, gives the specified value or error |
| IntegerParser.AcceptedIsCongruent | external/cxxopt/cxxopts.hpp:570-600 | an accumulated magnitude is congruent to the literal modulo 2^w |
| IntegerParser.FittingIsExact | external/cxxopt/cxxopts.hpp:593-599 | a magnitude that fits the unsigned type is never refused and is exact |
| IntegerParser.NegationIsExact | external/cxxopt/cxxopts.hpp:527-535 | negation is exact up to the minimum and no step of it leaves the signed type |
| IntegerParser.AcceptedIntegers | external/cxxopt/cxxopts.hpp:487-614 | an accepted literal's result is representable, congruent to it, and equal to it if and only if the literal is representable |
| IntegerParser.RepresentableIntegers | external/cxxopt/cxxopts.hpp:487-614 | every literal of a representable value is accepted exactly, the minimum and minus zero included; only an unsigned type refuses a minus sign |
| IntegerParser.OverflowIsNotAlwaysRefused | external/cxxopt/cxxopts.hpp:593-597 | an 8-bit unsigned type accepts 300 as 44 |
| IntegerParser.AcceptedIffResiduesGrow | external/cxxopt/cxxopts.hpp:593-597 | the wraparound test lets a literal pass if and only if the values of its prefixes never decrease modulo 2^w |
| IntegerParser.AcceptedExactly | external/cxxopt/cxxopts.hpp:487-614 | exactly which texts are accepted, overflowing ones included |
| OptionTable.AddKeepsValid | external/cxxopt/cxxopts.hpp:1888-1938 | a successful declaration keeps every name pointing to its option |
| OptionTable.DeclaredTablesAreValid | external/cxxopt/cxxopts.hpp:1888-1938 | so do all declarations, and they are listed in their order |
| OptionTable.NameLength | external/cxxopt/cxxopts.hpp:1379-1380 | the longest prefix of name characters |
| OptionTable.ClassifiedAsSpelt | external/cxxopt/cxxopts.hpp:1379-1380 | an argument is a long or short option exactly if it is spelt like one, with the name, letters and value it is spelt with |
| OptionTable.DeclaredNamesLead | external/cxxopt/cxxopts.hpp:1888-1938 | every name of a declared option, short or long, leads to it, and no other name to anything |
| OptionTable.AddRefusesTakenNames | external/cxxopt/cxxopts.hpp:1903-1911 | a declaration is refused exactly if one of its names is taken or it names itself twice |
| OptionTable.FlagTexts | external/cxxopt/cxxopts.hpp:476-479 | which texts a flag takes |
| OptionTable.NumberTexts | external/cxxopt/cxxopts.hpp:474-475 | a number option takes every representable number and only literals |
| OptionParser.ParseOptionKeepsLog | external/cxxopt/cxxopts.hpp:1041-1051 | count and log line of an option go together |
| OptionParser.ConsumeKeepsLog | external/cxxopt/cxxopts.hpp:1653-1688 | the positional cursor only moves forward, a taken argument is one positional log line, a refused one leaves the cursor at the end |
| OptionPositionals.OfferedToTheFirstOpen | external/cxxopt/cxxopts.hpp:1653-1688 | an offered argument goes to the first positional option from the cursor on that is a list or has count 0; it is refused exactly if there is none, and an error exactly if that one is not declared or does not accept it |
| OptionPositionals.PositionalsGoToTheFirstOpen | external/cxxopt/cxxopts.hpp:1653-1688 | over a whole parse every positional argument goes to the first positional option that is a list or has no line in the log so far |
| OptionPositionals.RefusedMeansAllCounted | external/cxxopt/cxxopts.hpp:1653-1688 | if a positional argument was refused, every positional option is declared, no list, and counted |
| OptionPositionals.DefaultsWereAccepted | external/cxxopt/cxxopts.hpp:1854-1864 | after a parse the default of every option that was not given is one it accepts |
| OptionPositionals.ShortGroupSucceeds | external/cxxopt/cxxopts.hpp:1774-1808 | exactly when a group of short options does not throw |
| OptionPositionals.TurnSucceeds | external/cxxopt/cxxopts.hpp:1741-1849 | exactly when a turn of the main loop does not throw |
| OptionParser.RefusedForGood | external/cxxopt/cxxopts.hpp:1653-1688 | after a refusal every argument is refused |
| OptionAccounts.ListsTakeAllPositionals | external/cxxopt/cxxopts.hpp:1653-1688 | over a whole parse, from the first positional a list option gets, every later positional is its own |
| OptionParser.CheckedKeepsLog | external/cxxopt/cxxopts.hpp:1603-1635 | one log line per option, and the next argument is its value when it was taken |
| OptionParser.ShortKeepsLog | external/cxxopt/cxxopts.hpp:1774-1808 | a group of short options adds option lines only, the last one holding the next argument if that was taken |
| OptionParser.CountByName | external/cxxopt/cxxopts.hpp:1586-1599 | an option with a long name has as many log lines as its name |
| OptionParser.ScanKeepsInv | external/cxxopt/cxxopts.hpp:1732-1852 | the main loop keeps what is known of every argument, and ends at the last one or at "--" |
| OptionParser.SwallowKeepsInv | external/cxxopt/cxxopts.hpp:1866-1882 | so does the loop after "--", which reaches the last argument |
| OptionParser.ParsedIsConsistent | external/cxxopt/cxxopts.hpp:1724-1886 | and so does a whole parse |
| OptionAccounts.ConsumeAdds | external/cxxopt/cxxopts.hpp:1653-1688 | a taken positional adds one line, of a declared positional option and with the argument as value |
| OptionAccounts.ShortAdds | external/cxxopt/cxxopts.hpp:1774-1808 | a group of short options adds one line for each declared letter, and takes the next argument exactly when its last letter needs a value |
| OptionAccounts.ParseOneAccounts | external/cxxopt/cxxopts.hpp:1741-1851 | every turn of the main loop adds to the log exactly the lines of the arguments it uses up |
| OptionAccounts.ParsingAccountsForAll | external/cxxopt/cxxopts.hpp:1724-1886 | every argument has a fate that fits it, the kept ones are an order-preserving subsequence, the log consists of the lines of the arguments in order, and an option argument leaves no trace if and only if unrecognised options are allowed and no letter of the group is declared |
| OptionAccounts.PositionalsAreKeptOrTaken | external/cxxopt/cxxopts.hpp:1741-1766 | whatever follows "--", and whatever is no option before it, is kept, taken as positional, or taken as the value the option before it needs |
| OptionAccounts.UndeclaredShortOptionIsDropped | external/cxxopt/cxxopts.hpp:1779-1784 | with unrecognised options allowed, any undeclared short option is neither kept nor logged |
| OptionParser.UnrecognisedLongOptionsAreKept | external/cxxopt/cxxopts.hpp:1816-1825 | an unrecognised long option before "--" is kept, unless the option before it took it as its value |
| OptionParser.RefusalIsFinal | external/cxxopt/cxxopts.hpp:1741-1766 | once a positional is refused no later argument is taken as one |
| OptionParser.CountsMatchTheLog | external/cxxopt/cxxopts.hpp:1586-1688 | every count is the number of log lines, by option and by long name, and an option that is no list got at most one positional |
| OptionParser.ListOptionRefusesNothing | external/cxxopt/cxxopts.hpp:1675-1679 | with a list among the positional options no argument is ever refused |
| OptionParserInPlace.Keep | external/cxxopt/cxxopts.hpp:1762-1763 | moving an argument down keeps those to come intact and changes one cell |
| OptionParserInPlace.ParseResult.constructor | external/cxxopt/cxxopts.hpp:1586-1688 | no counts, no log, the cursor at the first positional |
| OptionParserInPlace.ParseResult.ParseOption | external/cxxopt/cxxopts.hpp:1588-1599 | the object's step is that of the value-level parser |
| OptionParserInPlace.ParseResult.ConsumePositional | external/cxxopt/cxxopts.hpp:1653-1688 | the cursor loop does what the value-level parser does |
| OptionParserInPlace.ParseResult.CheckedParseArg | external/cxxopt/cxxopts.hpp:1603-1635 | reads the next argument only where there is one, and steps over it exactly when it is taken |
| OptionParserInPlace.ParseResult.ParseShortGroup | external/cxxopt/cxxopts.hpp:1774-1808 | the loop over the letters does what the value-level parser does |
| OptionParserInPlace.ParseResult.OfferArgument | external/cxxopt/cxxopts.hpp:1744-1766 | an argument is taken as positional or kept, and argv stays compacted |
| OptionParserInPlace.ParseResult.ParseShort | external/cxxopt/cxxopts.hpp:1770-1809 | a short group leaves argv as it is and consumes one or two cells |
| OptionParserInPlace.ParseResult.ParseLong | external/cxxopt/cxxopts.hpp:1833-1847 | so does a declared long option |
| OptionParserInPlace.ParseResult.ParseArgument | external/cxxopt/cxxopts.hpp:1741-1851 | one turn of the main loop, with argv compacted before and after |
| OptionParserInPlace.ParseResult.SwallowRest | external/cxxopt/cxxopts.hpp:1866-1882 | the arguments after "--", to exactly argc |
| OptionParserInPlace.ParseResult.MoveRest | external/cxxopt/cxxopts.hpp:1877-1881 | those that could not be swallowed are all kept |
| OptionParserInPlace.ParseResult.ScanArguments | external/cxxopt/cxxopts.hpp:1732-1852 | the main loop ends at argc exactly, or past a "--" |
| OptionParserInPlace.ParseResult.Parse | external/cxxopt/cxxopts.hpp:1724-1886 | the in-place parse is the value-level parse of the original arguments; afterwards argv is its first cell followed by exactly the kept arguments, and nothing past the old argc was touched |
| Routing.RegisterAt | websockets/websocket-server-lws.cpp:377-390 | a registration goes to the first route of its key, or to a new one at the end |
| Routing.TableGroupsRegistrations | websockets/websocket-server-lws.cpp:375-391 | the table is the registrations grouped by key: keys distinct and in first-registration order, callbacks in registration order |
| Routing.FoundIffRegistered | websockets/websocket-server-lws-private.cpp:104-115 | a route is found exactly when some registration matches |
| Routing.EveryMatchingCallbackRunsOnce | websockets/websocket-server-lws-private.cpp:105-115 | a pass over the table runs each callback once if its key matches and never otherwise |
| Routing.RequestsAreRouted | websockets/websocket-server-lws-private.cpp:102-142 | a request runs each matching callback once; the method's wildcard callbacks once each only if nothing matched; and is answered NotFound exactly if there is none of either |
| Routing.MatchInclusiveUrl | websockets/websocket-server-lws-private.cpp:159-175 | the loop decides the match whose meaning MatchIsSegmentwise gives |
| Routing.MatchIsSegmentwise | websockets/websocket-server-lws-private.cpp:159-175 | urls joined from slash-free segments match if and only if they agree wherever both have a segment and the subscription's does not begin with a colon |
| Routing.FilledTemplatesMatch | websockets/websocket-server-lws-private.cpp:163-167 | anything slash-free can stand for the segments that begin with a colon |
| Routing.PlainMatchIsPrefix | websockets/websocket-server-lws-private.cpp:159-175 | a subscription without variable segments matches a request if and only if the segments of one are a prefix of those of the other |
| Routing.ShorterRequestsMatch | websockets/websocket-server-lws-private.cpp:163-174 | so a request for any prefix of a url runs its handlers |
| Routing.StarIsNoPattern | websockets/websocket-server-lws-private.cpp:117-122 | the wildcard url is matched as a segment only by a request whose first segment is a star |
| Routing.NotFoundIsOnePacket | websockets/http-request.h:49-58 | a NotFound answer is a single packet with the default headers |
| Routing.Server.Handle | websockets/websocket-server-lws.cpp:375-391 | the scan registers the callback in the table |
| Routing.Server.HandleWebSocket | websockets/websocket-server-lws.cpp:393-408 | the same for websocket urls |
| Routing.Server.CallMatching | websockets/websocket-server-lws-private.cpp:104-115 | the first loop runs the matching callbacks in table order |
| Routing.Server.CallWildcards | websockets/websocket-server-lws-private.cpp:117-130 | the second loop runs the method's wildcard callbacks |
| Routing.Server.HandleHttpRequest | websockets/websocket-server-lws-private.cpp:102-142 | a request runs what it is dispatched to and queues exactly one NotFound packet if that is nothing |
| Routing.Server.HandleNewWebSocketClient | websockets/websocket-server-lws-private.cpp:69-90 | a websocket runs the callbacks of exactly its url |

## Left out

Assumed or narrowed:

- Lengths of payloads, urls and split inputs are at most 2^31-1, because `split` and `send` narrow them to int; an empty delimiter makes `split` loop forever, so it is required to be non-empty.
- LWS_PRE is a parameter, and the flags of `lws_write_ws_flags` are taken by their documented meaning.
- WebSocketClient.Client.OnHttpWriteable: writing the HTTP headers is one success flag; the header bytes are not modelled.
- WebSocketClient.Client.OnReceive: a delivered message carries no binary flag, as the code sets none on it.
- WebSocketService.NoStuckData: the callbacks that run when a client connects, disconnects or posts a body are single steps, and a closed client's list is of no interest.
- WebSocketService.CallbacksDrain: counts writeable callbacks; when libwebsockets makes a requested one is its own affair.
- WorkerThread.Exec: thread priority, and a second `init` during a run, which replaces the interval the loop reads without a lock, are not modelled.
- WorkerThread.GapWhenNeverWoken: the wait is ideal: it lasts exactly as long as asked for.
- ImageBuffers.Image.Copy: the undefined read through a null pointer is a null result, also when there is nothing to copy.
- AsyncInvocation.NoLostTask: fails after a failed send, with the exact condition in StrandedIffPushedSinceTheDrain; sends after the async handle was closed are not modelled.
- ChildProcess.NoLostClose: pids are not reused, a process object is the only one to wait for its child and outlives its notifications, the loop thread runs everything, and an application instance exists. Closes that are lost all the same, by another spawn, are the subject of EveryEndIsAccountedFor.
- ChildProcess.PosixProcess.Spawn: of the pipe only its failure to open, and nothing of the exec of the child; the other failures of waitpid than ECHILD are not modelled.
- HandleLifecycle.ClosedAndFreedOnce: initialisation by libuv succeeds; start, stop and the callbacks of timers and signals are not modelled. A timer that `closeOpenHandles` closes is never freed by its owner, which this lemma states.
- HandleLifecycle.EventLoop.CloseOpenHandles: no callback creates handles while the loop is being closed.
- HandleLifecycle.EventLoop.CloseApplication: requires an initialised application; the destructor also calls `close` on one that never was, whose async handle is zeroed memory.
- ImageBuffers.BuffersAreCounted: the atomic count is an unbounded integer, and its operations are single steps of one thread.
- ImageViews.WholeIsInBounds: the products are unbounded integers, which is what the code computes for images whose size in bytes fits an int (ChainFitsInt); larger ones are not modelled. A value outside the image types, which the code treats as fatal, is not representable.
- IntegerParser.AcceptedIntegers: congruence only for overflowing literals, as the wraparound test misses some; AcceptedExactly says which.
- HelpFormatter.WrappingReplacesSpaces: the exact output is given for words that fit and no newline; for all other texts HelpBreaks says when a range is reversed and when text is lost.
- OptionParser.CountsMatchTheLog: of the stored values only counts and the log are kept, and lists accept any text for their elements; a wrong default is one error whichever option it belongs to.
- OptionTable.NameLength: the regular expressions are modelled by what they match, not by an engine.

Not modelled at all:

- MQTT client, SQLite wrapper, sockets, pipes and files: pass-throughs to foreign libraries.
- image/lut.cpp: the counting of images again, in a weaker form.
- cv::Mat conversions, colour arithmetic on floats, and time formatting.
- Help text other than the word wrapper, and the Unicode variant of the option parser.
- Logging, error categories, formatting, thread priorities, the C and Dart interfaces: tables and plumbing.
