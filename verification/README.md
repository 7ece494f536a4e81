# The task-delivery protocol of sit, modelled and proved

sit runs commands on remote machines. A Manager stores each command as a task and sends it, as an
instruction frame, to the Node it is meant for; the Node acknowledges it, runs it, and reports a
result; the Manager records the result and wakes whoever is waiting for it. The link between the
two breaks and comes back, frames can be lost or arrive twice, and both ends keep a bounded memory
of what they have already handled: 4096 result ids on the Manager, 1024 results on the Node.

This project models that protocol and proves what it guarantees, and exactly where the guarantees
end. Check it with `dafny verify dfyconfig.toml`.

## How it is built

Code that changes its state is modelled by classes with the same fields, whose methods are proved
against functions on values. Concurrent code is modelled by transition systems: each step is what
one goroutine does between two points at which another can come in. The transition systems use the
same functions that the methods are proved against (`Handled`, `Outcome`, `Remember`, `SetState`,
`Complete`, `Mark`), so what is proved of one is about the other.

| file | what is in it |
|---|---|
| `Windows.dfy` | the bounded duplicate filter: map plus slice against the history of additions |
| `Executor.dfy` | the Node's executor, its replay cache, how results are shaped |
| `Tasks.dfy` | the task table, which is also the offline queue |
| `Registry.dfy`, `Handlers.dfy` | connections as both ends use them, the session table, and what it holds while handlers come and go |
| `Dispatcher.dfy` | creating, sending, flushing, pairing results, waking waiters |
| `Reports.dfy` | routing of notifications, and a connection's handler from start to end |
| `Client.dfy`, `Selections.dfy` | the Node's session loop and the trace it leaves |
| `Lifecycle.dfy` | the six task states over runs of whole handlers |
| `Delivery.dfy` | the whole system over an unreliable link, with handlers cut into steps, and restarts of both ends |
| `Processes.dfy`, `Executions.dfy`, `Idempotence.dfy`, `LateMarks.dfy`, `Failures.dfy` | what holds over its runs: how often a task is executed, how often a result is applied, when a finished row stays finished, and runs in which each guarantee fails |
| `Session.dfy`, `SessionProof.dfy`, `SessionTheorems.dfy`, `Deadlock.dfy` | one session with all its goroutines and buffers: refinement, termination, deadlock |
| `Pipeline.dfy` | the buffered connection: conservation and prefix delivery under failure |
| `Waiters.dfy` | synchronous calls and the handlers that wake them |
| `Frames.dfy`, `Numbers.dfy` | the JSON text of a result frame, what a reader makes of it, and its size |
| `Backoff.dfy` | the reconnect delay and the agent's loop |
| `Text.dfy`, `NodeConfig.dfy`, `Identity.dfy` | the two line formats, their printers and readers |
| `Auth.dfy` | enrollment tokens and node credentials |

## Main results

* **Idempotence.** However the link duplicates, delays, reorders or loses frames, and whatever happens
  to other tasks, other nodes and the Manager: a task whose result was stored, and between two of whose
  frames its own node neither restarts nor executes 1024 other tasks, has been executed exactly once,
  and its row records that execution from then on. If in one life of the Manager no call for its result
  comes while another is asking, or after the filter has forgotten it, not even the completion time
  changes (`CompletedOnceForAll`).
* **Both conditions are exact, for every run and every task.** A task is executed twice if and only if,
  between two of its frames, its node restarts or executes at least 1024 other tasks
  (`ExecutedTwiceExactly`). A result is applied twice in a life of the Manager if and only if some call
  for it comes while another is asking, or after it was marked and forgotten (`AppliedTwiceExactly`);
  an id marked once is forgotten if and only if 4096 others have been marked since (`ForgottenExactly`).
* **Spacing.** Without any bound on ids, two executions of one id have at least 1024 other ids
  executed between them, and every call between them returns the first one's result; two applied
  results of one id have at least 4096 others between them.
* **Truthful outcomes.** In every run, restarts of nodes and of the Manager included, a finished row
  tells what an execution of that very task reported, and it says `succeeded` exactly when that
  execution started in time and ended well.
* **When finished is final.** A finished row stays finished in every continuation if and only if no
  send or expiry that was planned while it was queued is still outstanding (`SettledExactly`).
* **A session computes the sequential result.** However its goroutines interleave, a session within
  the bound below comes to rest with exactly the table of a direct sequential specification, the
  deliverable tasks having run once each, oldest first.
* **Freedom from deadlock, exactly.** The flush runs inside the loop that drains the Node's frames.
  Let the link hold `cap` frames each way and `room` be `64 + 2 + cap`. A session that drops no frame
  and has `h` heartbeats can deadlock if and only if more than `room + ceil(max(0, room - h) / 2)`
  live tasks are queued (`DeadlocksExactly`); otherwise it never does, whatever is dropped. A queue
  of 64 is therefore always safe. With the default heartbeat of 30 s, and the reaper closing a silent
  connection after 90 s, only a few heartbeats can come in one flush, so in practice the bound is
  about one and a half times `room`; `room` itself is the bound for arbitrarily many heartbeats.
* **Round trips with their exact conditions.** For every input, `sit node setup`'s configuration is
  read back as it was meant if and only if the values meet a condition that can be checked before
  printing; likewise the identity file and the pair in the bearer token.

## What the code does that its documents do not say

* `send` marks a row `sent` after the connection has taken the frame, without looking at the row
  again, and a flush expires rows of a listing it has read earlier. A result handled in between is
  overwritten: `SettledExactly` and `UnfinishedExactly` say exactly when, `LateMarkReopens` gives a
  run. With handlers taken whole, rows only move forward (`RunsMoveForward`).
* Nothing sends an unacknowledged instruction again, although the protocol document speaks of it;
  a `sent` task whose frame is lost stays `sent`. No eventual completion is claimed.
* A Node that refuses an instruction past its deadline reports exit code -1, which the Manager
  records as `failed`; only the Manager's own flush makes a row `expired`.
* A result is paired with its task by id alone. Which node reports it is not compared with the node
  of the task, so any authenticated node can complete any task.
* A connection's handler removes whatever session its node has when it ends. Replacing a connection
  ends its handler, so this is the ordinary course: a node's newest connection is registered, while
  its handler runs, if and only if since it was added no earlier handler of the node has ended and the
  node has not been reaped (`NewestIsBoundExactly`; `OldHandlerDropsNewSession` on the classes).
* The error text of an unknown predefined command is not truncated, so its frame can exceed the
  limit and be dropped (`UnknownPredefinedFitsExactly`). There are names that the instruction's frame
  can carry and the result's cannot (`LostExactly`, `SomeNameIsLost`).
* Only notifications count as signs of life; an acknowledgement does not
  (`OnlyNotificationsKeepAlive`).
* `sit node setup` and the Node read the identity file differently on some texts that the encoder
  would not write (`ReadersAgreeExactly`, `ReadersDisagree`).
* A node id is free text at enrollment. One with a colon, or with white space in front, is not what
  the handshake reads from its bearer token, and with one that has a control character there is no
  handshake (`ClaimIsReadExactly`, `IndentedIdClaimsAnother`).

## Assumptions

* Nodes are honest: what they report about a task is what their executor returned for it.
* A connection fails for good: once a `Send` has been refused, no later one is accepted. This leaves
  out a cancelled context, with which a `Send` on an open connection chooses at random between the
  buffer and the cancellation. After a cancellation the Node's loop may still take a frame before it
  ends, and then an ack can be refused and its result accepted: the trace can have a gap there.
* A node has one agent, which handles one frame at a time.
* A task write succeeds when the row exists. Clocks do not go back. Task ids and secrets are fresh,
  and hashing is injective.
* In `Session.dfy` the link stays up, no other handler runs during the session, and the reaper does
  not act. In the code it would: a session that has deadlocked is closed after 90 s of silence.
* The `Lifecycle` results take whole handler calls as steps, and the `Delivery` results do not.
* In `Frames.dfy` and `Protocol.dfy` a char stands for a byte; in the line formats, for a code point.

## Model

| member | source | states |
|---|---|---|
| `Windows.OrderIsLast` | internal/manager/dispatcher.go:177-187 | for every history of additions, repeated ones too, the slice is the last W entries |
| `Windows.MarkedExactly` | internal/manager/dispatcher.go:177-187 | for every history, an id is in the map if and only if some addition of it has not been followed by an eviction of that id |
| `Windows.ForgottenExactly` | internal/manager/dispatcher.go:177-187 | an id that was marked once is forgotten if and only if W others have been marked since |
| `Windows.KeysWithinOrder` | internal/manager/dispatcher.go:177-187 | even when an id is marked twice, the map's keys are a subset of the slice and at most W |
| `Windows.SerialIffSpaced` | internal/manager/dispatcher.go:107-111 | asking before marking is the same as keeping equal ids more than W additions apart |
| `Windows.SerialWindow` | internal/manager/dispatcher.go:170-187 | when each id is asked for first, map and slice are exactly the last W additions, each once |
| `Windows.SpacingDistinct` | internal/manager/dispatcher.go:170-187 | between two additions of one id there are at least W other ids, all different |
| `Windows.FewIdsAddedOnce` | internal/manager/dispatcher.go:12-13 | a history of at most W different ids adds each at most once |
| `Executors.SuccessMeansRan` | internal/node/executor.go:53-69 | exit code 0 without a timeout is reported if and only if a process or handler really started, before the deadline, and ended well: a shell command with no error or status 0; a timeout is reported if and only if what started hit it |
| `Executors.ShellRunIsReported` | internal/node/executor.go:73-107 | part by part, what is reported of a shell command that started: its status, or -1 after a timeout or when there is none; its first 64 KiB of either output; whether they were cut; its duration |
| `Executors.HandlerRunIsReported` | internal/node/executor.go:110-139 | the same of a known predefined command, whose error is its standard error and makes a code of 0 a -1 |
| `Executors.RefusalIsReported` | internal/node/executor.go:53-69 | whatever did not start is reported with -1, no output, and the reason: the deadline before all else |
| `Executors.OutputsArePrefixes` | internal/node/executor.go:94-106 | each reported output is a prefix of what was written, within 64 KiB, and shorter exactly when the truncation flag says so |
| `Executors.HandlerOutputsArePrefixes` | internal/node/executor.go:110-139 | the same of a predefined command, whose error is its standard error and never goes with exit code 0 |
| `Executors.Executor.Execute` | internal/node/executor.go:47-70 | one instruction: the cached result if the id is remembered, else one that tells truly whether it started, hit its timeout or ended well, and with which status; it is then remembered, and the log gains this call |
| `Executors.Executor.Record` | internal/node/executor.go:167-180 | remembers a new result, and drops the oldest beyond 1024 |
| `Executors.RememberMarks` | internal/node/executor.go:167-180 | the cache's ids follow the same window as the Manager's filter |
| `Executors.CacheIsWindow` | internal/node/executor.go:160-180 | over every sequence of calls the cache holds exactly the ids of the last 1024 executions, and executions of one id are spaced |
| `Executors.CacheHoldsLatest` | internal/node/executor.go:160-180 | a remembered result is that of the id's latest execution |
| `Executors.ExecutionSpacing` | internal/node/executor.go:47-70 | two executions of one id have at least 1024 other ids executed between them, for every sequence of calls |
| `Executors.ReplayReturnsFirst` | internal/node/executor.go:47-51 | until an id is executed again, every call for it returns its execution's result |
| `Executors.ExecutedOnce` | internal/node/executor.go:16-17 | a process that executes at most 1024 different ids executes each once |
| `Tasks.TaskTable.CreateTask` | internal/manager/store/sqlite.go:246-252 | inserts the row with no sent time and an empty report; fails on a stored id and then changes nothing |
| `Tasks.TaskTable.QueuedTasks` | internal/manager/store/sqlite.go:290-293 | exactly the node's queued rows, each once, by creation time |
| `Tasks.InsertByCreation` | internal/manager/store/sqlite.go:290-293 | keeps a listing ordered and its ids different, and adds exactly the one row |
| `Tasks.TaskTable.UpdateTaskState` | internal/manager/store/sqlite.go:312-318 | sets the state whatever it was, and the sent time only for `sent`; not found when no row has the id |
| `Tasks.TaskTable.CompleteTask` | internal/manager/store/sqlite.go:320-325 | records each column of the result, and the state: timed out if and only if the result says so, else failed if and only if its exit code is not 0; not found when no row has the id |
| `Registries.Conn.Send` | internal/transport/pump.go:92-106 | a call on a terminated connection is refused; a refusal means that the connection has terminated; and one that terminates while the call waits may have taken the envelope all the same |
| `Registries.Conn.Close` | internal/transport/pump.go:114-120 | terminates the connection for good |
| `Registries.Registry.Add` | internal/manager/registry.go:35-42 | binds the connection and closes exactly the one it replaces |
| `Registries.Registry.Remove` | internal/manager/registry.go:45-49 | releases exactly the node's session; every connection ever added stays registered, closed or released, one of the three |
| `Registries.Registry.Touch` | internal/manager/registry.go:71-77 | renews the last-seen time of a present session and nothing else |
| `Registries.Registry.SetHeartbeat` | internal/manager/registry.go:80-87 | keeps the heartbeat and renews the last-seen time of a present session |
| `Registries.Registry.ReapStale` | internal/manager/registry.go:113-125 | closes and removes exactly the sessions silent for more than 90000 ms, lists each once, and leaves the others open |
| `Registries.OldHandlerDropsNewSession` | internal/managerd/server.go:71-74 | the condition of `NewestIsBoundExactly` on the classes: after the replaced connection's handler has ended, the newer one is open and not registered |
| `Handlers.BoundIsLast` | internal/manager/registry.go:35-49 | for every history, a node has a registered connection exactly when the last event about it is a start, and then that one |
| `Handlers.NewestIsBoundExactly` | internal/managerd/server.go:71-80 | for every history of handlers and reaps: while its handler runs, a node's newest connection is registered if and only if, since it was added, no earlier handler of the node has ended and the node has not been reaped |
| `Handlers.Play` | internal/manager/registry.go:35-49 | a history of handlers and reaps played on the registry leaves exactly the sessions that the specification says |
| `Dispatchers.Dispatcher.Send` | internal/manager/dispatcher.go:60-83 | marks the row sent exactly when the connection has accepted an envelope with the task's id, kind, command, name, arguments and deadline, and no timeout |
| `Dispatchers.Dispatcher.CreateTask` | internal/manager/dispatcher.go:41-57 | stores the task as queued, column by column, fails on a stored id, and returns it as sent exactly when a connection has accepted it |
| `Dispatchers.Dispatcher.FlushQueue` | internal/manager/dispatcher.go:87-101 | row by row: a queued row of the node is expired if and only if 0 < deadline < now, else sent or still queued; the sent are in order of creation, none younger than one left, and each has been accepted as its envelope, field by field; every other row is untouched; any row is left only when the node is out of reach |
| `Dispatchers.NotYetHandled` | internal/manager/dispatcher.go:87-101 | a listed task has not been dealt with before its turn |
| `Dispatchers.LiveMembers` | internal/manager/dispatcher.go:93-98 | a listed task is tried exactly when it is not overdue |
| `Dispatchers.Dispatcher.FlushOne` | internal/manager/dispatcher.go:93-98 | a listed task is expired if and only if 0 < deadline < now, else marked sent exactly when the connection took it; otherwise its row is untouched and the node is out of reach |
| `Dispatchers.Dispatcher.MarkSeen` | internal/manager/dispatcher.go:177-187 | adds the id without asking, and drops the oldest beyond 4096 |
| `Dispatchers.Dispatcher.HandleResult` | internal/manager/dispatcher.go:104-139 | drops an empty or remembered id; else remembers it, records each column and the state that the result tells, and hands that row to the id's waiter and to no other; fails only when no row has the id |
| `Dispatchers.ResultSpacing` | internal/manager/dispatcher.go:104-131 | for calls one after the other, two applied results of one id have at least 4096 other applied ids between them |
| `Dispatchers.Dispatcher.Wait` | internal/manager/dispatcher.go:143-149 | registers a fresh channel with nothing in it |
| `Dispatchers.Dispatcher.CancelWait` | internal/manager/dispatcher.go:152-156 | removes exactly the id's waiter |
| `Dispatchers.Dispatcher.NotifyWaiter` | internal/manager/dispatcher.go:158-168 | takes the waiter out and puts the task in its channel, which has room |
| `Reporting.Manager.HandleRegister` | internal/manager/reports.go:45-79 | when the node's row is stored, registering delivers the node's queue and changes no other task; when that fails, it changes no task at all |
| `Reporting.Manager.Handle` | internal/manager/reports.go:26-43 | any notification renews the node's session and no other; registering flushes, a result is paired row by row, and no other kind moves a task |
| `Reporting.Manager.HandleConn` | internal/managerd/server.go:71-97 | a connection is bound; the notifications among its frames, all of them and in order, each have their effect, and other frames none; at the end the node has no session |
| `Reporting.OnlyNotificationsKeepAlive` | internal/managerd/server.go:85-94 | after any number of frames the last-seen time is that of the last notification |
| `Clients.Client.Serve` | internal/node/client.go:32-60 | once the registration is accepted, everything that arrives before the session's end is handled and every instruction among it executed, in order; what the connection accepts is a gapless first part of the session's trace, all of it while the connection is open |
| `Clients.Client.HandleFrame` | internal/node/client.go:64-82 | an instruction is acknowledged, executed and reported under its own id; any other frame does nothing |
| `Clients.TraceShape` | internal/node/client.go:32-82 | heartbeats aside, every trace is register, online, then for each instruction in order an ack of its id and then its result |
| `Clients.HeartbeatsAreTicks` | internal/node/client.go:50-51 | a trace has one heartbeat for each tick |
| `Clients.EveryInstructionCounts` | internal/node/client.go:64-82 | the instructions counted are all those received, in order, of whatever kind |
| `Lifecycle.HandlerMoves` | internal/manager/dispatcher.go:41-139 | each whole handler call keeps the order of states and times, and takes a queued row only to queued, sent or expired, a sent one only to sent or finished, an expired one nowhere, and a finished one only to finished |
| `Lifecycle.RunsAreOrdered` | internal/manager/dispatcher.go:41-139 | in every run no id is accepted by connections twice, exactly the rows neither queued nor expired were accepted, and sent times do not exceed finish times |
| `Lifecycle.RunsMoveForward` | internal/manager/store/sqlite.go:312-325 | in every run no row ever goes back, and each keeps what it was created with |
| `Lifecycle.FinishedWasSent` | internal/manager/store/sqlite.go:312-325 | in every run a row that was queued and is finished was sent in between |
| `Delivery.NextKeepsSound` | internal/manager/dispatcher.go:60-139 | every step keeps the system's invariant: asking, marking and storing a result, planning, sending and marking a task, beginning and ending a command, replaying a result, and restarts of a node and of the Manager are steps of their own |
| `Delivery.RunsAreSound` | internal/manager/dispatcher.go:60-139 | the invariant holds in every reachable state, under loss, duplication, reordering, restarts of both ends and any interleaving |
| `Delivery.ReplayRan` | internal/node/executor.go:47-51 | what a replay cache answers was executed on that node |
| `Processes.AgentsLive` | internal/node/executor.go:47-70 | in every run, what happens at one node is a life of its agent: one frame at a time, each begun or answered from the cache as it stands |
| `Processes.KnownWasBegun` | internal/node/executor.go:160-180 | in every life, what the cache holds or the agent is executing was begun since the process last started |
| `Processes.TwiceMeansOverrun` | internal/node/executor.go:47-70 | between two executions of a task by one process lie at least 1024 executions of different other tasks |
| `Processes.OverrunMeansAgain` | internal/node/executor.go:167-180 | when a process executes at least 1024 different other tasks between two frames of a task, it executes the task again after the first |
| `Executions.ExecutedAsCreated` | internal/manager/dispatcher.go:65-70 | in every run, what a Node executes of a task has the kind, command, name, arguments and deadline it was created with, on the node it was created for |
| `Executions.ExecutedTwiceExactly` | internal/node/bootstrap.go:24-26 | for every run and every task: it is executed twice if and only if, between two of its frames, its node restarts or executes at least 1024 different other tasks |
| `Executions.FewDoNotOverrun` | internal/node/executor.go:16-17 | a process that has executed at most 1024 different ids has not overrun its cache between any two frames |
| `Executions.StoredIsTheExecution` | internal/manager/dispatcher.go:113-131 | a task whose result was stored, with neither restart nor overrun between its frames, has been executed exactly once, and its row records that execution ever after, whatever happens to other tasks, other nodes and the Manager |
| `Idempotence.OutcomesAreReal` | internal/manager/dispatcher.go:113-131 | in every run a finished row carries the report of an execution of that task: timed out if and only if it started in time and hit its timeout, succeeded if and only if it started in time and ended well, else failed |
| `Idempotence.ResultsAreSpaced` | internal/manager/dispatcher.go:104-131 | in every life of the Manager in which no two calls for one id overlap, the applied results are spaced by the filter |
| `Idempotence.AppliedTwiceExactly` | internal/manager/dispatcher.go:104-131 | for every life of the Manager and every id, with no call for it in flight: its result was applied twice if and only if some call for it came while another was asking, or after it was marked and forgotten |
| `Idempotence.AppliedOnceExactly` | internal/manager/dispatcher.go:108-111 | within the filter's size, for all ids at once: each result was applied once if and only if no two calls for one id overlapped between asking and marking |
| `Idempotence.ExecutedAtHome` | internal/manager/dispatcher.go:71-78 | only the node a task was created for executes it |
| `Idempotence.ExecutedAtMostOnce` | internal/node/executor.go:47-70 | while the task's own process has executed at most 1024 ids, the running processes together have executed the task at most once |
| `Idempotence.AppliedReportStays` | internal/manager/dispatcher.go:108-131 | once a result is applied and unless its id is marked again, the whole report never changes in that life of the Manager |
| `Idempotence.CompletedOnceForAll` | internal/manager/dispatcher.go:104-139 | with neither restart nor overrun between its frames, a task whose result was stored has been executed exactly once and its row records that execution from then on; unless a call for its result repeats, in one life of the Manager, the whole report stays |
| `LateMarks.UnfinishedExactly` | internal/manager/dispatcher.go:79-82 | for every run from a state with a finished row: it stays finished throughout if and only if no mark or expiry of it is carried out, and each that is was outstanding at the start |
| `LateMarks.SettledExactly` | internal/manager/dispatcher.go:60-101 | a finished row stays finished in every continuation if and only if no plan and no pending mark of it is outstanding |
| `Failures.LateMarkReopens` | internal/manager/dispatcher.go:79-82 | the late mark is reachable: a run in which a succeeded row with one outstanding mark is overwritten by sent |
| `Failures.OverlappingCallsApplyTwice` | internal/manager/dispatcher.go:108-111 | overlap is reachable: a run in which two calls both mark one result, as `AppliedOnceExactly` says they must |
| `Failures.RestartExecutesTwice` | internal/node/bootstrap.go:24-26 | the restart is reachable: a run in which a duplicate frame after it executes the task again, as `ExecutedTwiceExactly` says it must |
| `Failures.EvictionExecutesTwice` | internal/node/executor.go:174-179 | the overrun is reachable: a run of 1025 tasks after which a duplicate frame executes the first again |
| `Failures.ForgottenResultAppliesTwice` | internal/manager/dispatcher.go:181-186 | forgetting is reachable: a run of 4097 results after which a duplicate of the first is applied again |
| `Sessions.ActsUseUpWork` | internal/transport/pump.go:48-106 | every act of a session's goroutines strictly lowers the work left |
| `SessionProof.NextKeepsInv` | internal/node/client.go:44-82 | every act of the handler, the session loop and the four pumps keeps the session's invariant |
| `SessionProof.RunsKeepInv` | internal/node/client.go:44-82 | the invariant holds throughout every run of a session |
| `SessionTheorems.QuietIsFinal` | internal/manager/reports.go:72-78 | a session with nothing left to do has the table of the sequential specification |
| `SessionTheorems.FinalTells` | internal/manager/dispatcher.go:87-139 | the sequential table row by row: expired if and only if 0 < deadline < now, else sent, and completed with what the task's own run reports when both frames encode |
| `Deadlock.AlwaysMoves` | internal/transport/pump.go:92-106 | while anything is left to do and the live tasks are within the bound for the session's heartbeats, some act other than a heartbeat is possible |
| `Deadlock.RunsEnd` | internal/node/client.go:44-60 | every run has at most as many acts as the session has work at its start |
| `Deadlock.SessionRefinesSequential` | internal/manager/dispatcher.go:87-139 | every interleaving within the bound ends in the sequential table, row by row; exactly the listed tasks that are not overdue and encode have run, once each, in order of creation |
| `Deadlock.RunsKeepCounts` | internal/transport/pump.go:48-106 | in every run no task is made up, and the Node's frames are at most two for its greeting, two for each task taken, and its heartbeats |
| `Deadlock.NeverDeadlocksWithinBound` | internal/managerd/server.go:77-96 | a session within the bound cannot stop with work left, whatever frames its ends drop and however many listed tasks are overdue |
| `Deadlock.ClogsUp` | internal/managerd/server.go:77-96 | beyond the bound, when no frame of a live task is dropped, a run whose flush is under way can be continued to a dead state |
| `Deadlock.DeadlocksExactly` | internal/transport/pump.go:15-46 | for every number of heartbeats, when no frame of a live task is dropped: the session can deadlock if and only if more live tasks are queued than the buffers hold plus those the Node must take to fill the buffers the other way |
| `Deadlock.DeadlockFreeExactly` | internal/transport/pump.go:15-46 | no number of heartbeats leads to a deadlock if and only if the live tasks fit the buffers |
| `Pipelines.NextConserves` | internal/transport/pump.go:48-120 | every step of senders, pump, link and reader conserves the accepted frames and their order |
| `Pipelines.NothingLostWhileUp` | internal/transport/pump.go:73-106 | while the link is up, the encodable accepted frames are those delivered, in transit, held and buffered, in that order |
| `Pipelines.DeliveredIsPrefix` | internal/transport/pump.go:73-106 | whatever fails, the peer receives a prefix of the encodable accepted frames |
| `Pipelines.NoSendBegunAfterClose` | internal/transport/pump.go:92-106 | a Send begun after a Close is never accepted; only those already waiting can be |
| `Waiters.PutNeverBlocks` | internal/manager/dispatcher.go:158-168 | a handler that has taken a waiter out always finds room in its channel |
| `Waiters.WaiterIsThereExactly` | internal/manager/mcp/tools.go:65-91 | a call has a waiter if and only if it has not been woken and has not returned, by whatever exit |
| `Waiters.WokenIsNotLost` | internal/manager/mcp/tools.go:65-91 | a result that found its waiter is ever after carried, in the channel, or what the call returned |
| `Frames.EscapeAtMostSixfold` | internal/protocol/codec.go:56-65 | JSON escaping writes at most six bytes for one |
| `Frames.EscapedIsClean` | internal/protocol/codec.go:26-38 | escaped text holds nothing that the second encoding, of the payload inside its envelope, would escape again: no control character, none of `<`, `>` and `&`, and neither line separator |
| `Frames.UnescapeUndoes` | internal/protocol/codec.go:26-38 | a reader of the escaped text gets back the string, with each byte that is not UTF-8 replaced by U+FFFD |
| `Frames.ResultFrameSize` | internal/protocol/codec.go:56-65 | the exact size of a result frame, field by field |
| `Frames.BoundedOutputsFit` | internal/protocol/codec.go:56-65 | with both outputs within 64 KiB, a result frame is at most 1 MiB, whatever its bytes |
| `Frames.ResultFrameFits` | internal/node/executor.go:47-139 | every result but an unknown predefined command's fits its frame, so the write pump never drops it |
| `Frames.UnknownPredefinedFitsExactly` | internal/node/executor.go:111-114 | an unknown predefined command's frame fits if and only if its escaped name, the ids and the time leave room for the fixed 138 bytes |
| `Frames.LostExactly` | internal/node/executor.go:111-114 | an instruction is received and its result dropped if and only if the escaped name is in the gap between what the two frames can carry |
| `Frames.SomeNameIsLost` | internal/node/executor.go:111-114 | with ids of 26 characters and times of 13 digits there is such a name |
| `Backoffs.Backoff.Base` | internal/transport/backoff.go:36-48 | the early-exit loop computes min(Base * Factor^n, Cap) |
| `Backoffs.Backoff.Next` | internal/transport/backoff.go:51-63 | advances by one; the delay is the un-jittered one times 1 + (2u - 1) * jitter, within the jitter band |
| `Backoffs.Backoff.Reset` | internal/transport/backoff.go:33 | starts again from the first delay |
| `Backoffs.DelayIsMonotone` | internal/transport/backoff.go:36-48 | delays never shrink from one attempt to a later one |
| `Backoffs.TotalWaitClosedForm` | internal/transport/backoff.go:22-30 | with the defaults n waits total 2^n - 1 seconds up to the sixth, and 63 + 60 (n - 6) beyond |
| `Backoffs.WaitsSinceDial` | internal/node/bootstrap.go:34-57 | in every run the waits from the last turn that was served add up to the closed form, and so do all of them when none was |
| `Backoffs.RunAgent` | internal/node/bootstrap.go:30-58 | the wait after turn k is within 20 per cent of min(2^(k-j), 60) seconds when turn j is the last served, of min(2^k, 60) when none was, and none exceeds 72 s |
| `Text.TrimLeavesExactly` | internal/node/config.go:53-78 | a trim adds nothing, and leaves a string alone if and only if neither end is to be trimmed |
| `Text.LinesOfUnlines` | internal/node/config.go:50-52 | the scanner finds again exactly the newline-free lines that were written |
| `Text.LinesOfRest` | internal/node/config.go:50-52 | what follows the last newline is a line of its own, unless it is empty |
| `Numbers.AtoiReadsDecimal` | internal/node/config.go:82-84 | reading a printed 64-bit number gives it back |
| `Numbers.AtoiExactly` | internal/node/config.go:82-84 | digits with at most one sign before them are read, if and only if their value has 64 bits |
| `Numbers.AtoiNeedsDigits` | internal/node/config.go:82-84 | nothing else is read as a number |
| `NodeConfigs.ReadLine` | internal/node/config.go:52-87 | one pass of the loop does to the configuration what its line says, which does not depend on a dropped carriage return |
| `NodeConfigs.ParseLines` | internal/node/config.go:47-92 | an error if and only if a line does not fit the scanner; else each value is that of its key's last admissible line, and the endpoints are the items of open lists |
| `NodeConfigs.EndpointsExactly` | internal/node/config.go:58-65 | the endpoints read are those of all items with only blank lines, comments and items between them and their heading, in order |
| `NodeConfigs.LastSettingExactly` | internal/node/config.go:76-88 | of several settings of one key the last admissible one counts |
| `NodeConfigs.ListIsRead` | internal/node/config.go:47-92 | a list of n endpoints, under comments and with or without a final newline, is read as exactly those n in order, with the defaults for all else |
| `NodeConfigs.TakenIsConfigOf` | internal/node/config.go:49-87 | the running state is at every line the configuration of the lines so far |
| `NodeConfigs.ItemIsNoSetting` | internal/node/config.go:58-69 | an item outside a list, though read as a setting, sets nothing |
| `NodeConfigs.CleanLeavesExactly` | internal/node/config.go:76-78 | a value comes through as it is if and only if neither end is a space or a quote |
| `NodeConfigs.PrintedIsRead` | cmd/sit/node_setup.go:509-514 | for all one-line values, what is read is the trimmed values, and the default heartbeat for one that is not positive |
| `NodeConfigs.ConfigRoundTripsExactly` | cmd/sit/node_setup.go:502-515 | for all values, the printed configuration is read back unchanged if and only if the values are `Printable` |
| `Identities.ParseIdentity` | internal/node/identity.go:77-96 | each field is the value of the last line that assigns it |
| `Identities.IdentityHasSecret` | cmd/sit/node_setup.go:529-540 | true if and only if the file can be read and some line shows a secret |
| `Identities.EncodedIsRead` | internal/node/identity.go:67-96 | of newline-free values, exactly the white space at the end is lost |
| `Identities.IdentityRoundTripsExactly` | internal/node/identity.go:67-96 | for all identities, parsing undoes encoding if and only if no value has a newline or ends in white space |
| `Identities.ReadersAgree` | cmd/sit/node_setup.go:529-540 | on an encoded newline-free identity, a secret is shown if and only if the parsed secret is not empty |
| `Identities.NodeSecretIsSeen` | cmd/sit/node_setup.go:529-540 | for every text, a secret that the Node reads is seen by the setup command |
| `Identities.ReadersAgreeExactly` | cmd/sit/node_setup.go:529-540 | for every text, the readers agree if and only if it is not so that the last secret line is blank and some secret line is indented or not blank |
| `Identities.ReadersDisagree` | cmd/sit/node_setup.go:534-538 | the shortest such text: an indented line with an empty secret is taken for a secret |
| `Auths.Auth.MintEnrollToken` | internal/manager/auth.go:116-129 | adds the token, and fails exactly on one that was minted before |
| `Auths.Auth.ConsumeEnrollToken` | internal/manager/store/sqlite.go:233-242 | succeeds if and only if the token was minted, never used, and has not expired, and then it is used |
| `Auths.Auth.PutCredential` | internal/manager/store/sqlite.go:198-207 | the node's credential becomes the one issued |
| `Auths.Auth.Enroll` | internal/manager/auth.go:134-160 | issues a credential exactly for a usable token, for the node asked for or else a fresh one; the token is used up even when the credential cannot be stored |
| `Auths.Auth.VerifyNode` | internal/manager/auth.go:167-180 | accepts if and only if this secret was issued for the node and neither issue nor revocation came since; says revoked if and only if a revocation was the last of these |
| `Auths.Auth.RevokeNode` | internal/manager/auth.go:183-185 | revokes exactly a node that was ever issued a credential; else not found |
| `Auths.RowTellsHistory` | internal/manager/store/sqlite.go:226-242 | a token's row says whether it was minted and used, and when it expires |
| `Auths.TokenYieldsOne` | internal/manager/auth.go:134-160 | each token yields at most one credential, after it was minted and used in time, in that order |
| `Auths.OverlappingYieldOne` | internal/manager/auth.go:134-160 | however enrollments overlap between their two statements, each open one has used a token of its own, and a token yields at most one credential |
| `Auths.AcceptedWasEnrolled` | internal/manager/auth.go:167-180 | whoever is accepted holds the only secret that its token was exchanged for |
| `Auths.HeaderToken` | internal/transport/server.go:49-56 | the token read from the header is the one presented without the white space around it |
| `Auths.ClaimIsReadExactly` | internal/managerd/server.go:58-68 | the handshake takes place and verifies the pair the node meant if and only if its id is not empty, has no colon and does not begin with white space, its secret does not end with any, and neither has a character that a header cannot carry |
| `Auths.IndentedIdClaimsAnother` | internal/transport/server.go:49-56 | a node whose id is another's after a space is verified as that other |

## Left out

- Clients.Client.Serve: relies on the connection failing for good; after a cancellation an ack can be refused and its result accepted on an open connection, which leaves a gap in the trace.
- Reporting.Manager.HandleConn: handles one connection's frames with no other handler between them, and takes node-row writes to succeed; interleavings are the subject of the transition systems.
- Registries.Registry.ReapStale: what the reaper then writes about each node (status, activity) is not modelled.
- Tasks.TaskTable.CreateTask: database errors other than a stored id are not modelled, here and in the other table methods.
- Registries.Conn.Send: the refusal of a `Send` by a cancelled context on an open connection is not modelled; the Manager's flush sends without one that can be cancelled.
- Dispatchers.Dispatcher.HandleResult: asking, marking and storing are one step here; `Delivery` cuts them apart.
- Deadlock.DeadlocksExactly: how many heartbeats a flush can see before the reaper acts is a matter of timing, and stays a parameter.
- NodeConfigs.ParseLines: bytes that are not UTF-8 are not modelled, since a char is a code point.
- Frames.BoundedOutputsFit: the two outputs are bounded together with every 26-character id, not with longer ids.
- Integer width: numbers are unbounded except in `Numbers` and `Frames`.
- Pumps as classes: the read and write pumps are goroutines, and are steps of `Pipelines` and `Sessions` rather than methods.
- The effective timeout of a command (`TimeoutSec`, 60 s by default) and killing its process group: a run is an input with its outcome.
- Decoding of a predefined command's arguments, and the fields of register and heartbeat notifications.
- Admin accounts and sessions: login, logout and password hashing add a simple map.
- Node rows, the activity log, REST handlers, MCP framing, web UI.
- Websocket, TLS, dialling several endpoints, SQLite and its transactions.
- File reading, writing and permissions, and the rest of `sit node setup`.
