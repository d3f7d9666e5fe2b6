# Norns: a verified model

Norns is a daemon (`urd`) that runs data transfer tasks on behalf of the clients of its library. This
project models, in Dafny, its task engine, its path and tar handling, its wire format and its size
parser, and proves what they promise.

* **The task engine** (`Engine*.dfy`) is one transition system. Its threads are the IPC thread that
  serves the requests one after the other, the workers of the pool, and the network thread that serves
  remote daemons. Every section that runs under a mutex is one step: registering a task, pushing it,
  one pass of a worker through the queue's critical section, each status write, each status read of the
  status handler, each entry visited by a scan, the erasure of an entry, and so on. A run is any
  interleaving of these steps, of any length, with any number of workers and of requests; task objects
  are told apart by identity and not by their 32-bit id, which wraps. The lock of an entry is modelled
  where it is held across steps, in the scan of a shutdown request; as in Boost's `shared_mutex`, a
  waiting writer keeps new readers out. `EngineInvariant.Inv` is the inductive invariant, and the
  theorems hold in every state of every run. `EngineWitness.dfy` builds runs from the initial state for
  what can go wrong.
* **The objects of the engine** (`WorkQueue.dfy`, `TaskRecords.dfy`, `TaskManager.dfy`) are classes whose
  methods do what the source's methods do between two steps of other threads. `TaskRules.dfy` holds the
  decisions that they share with the engine, and `EngineObjects.dfy` proves that each method does to the
  objects what the engine's step does to the state.
* **The client** (`Client.dfy`) polls and caches; its theorems relate what it returns to runs of the
  engine.
* **Paths** (`Paths.dfy`, `PosixNamespace.dfy`) are sequences of components. The loops are proved against
  a stack semantics, and that against a definition without a stack.
* **Tar** (`BlockSize.dfy`, `Tar.dfy`, `TarExtract.dfy`) packs any file tree into records, estimates the
  size, and extracts. The stream is laid out as the "ustar Interchange Format" of the pax utility in
  IEEE Std 1003.1-2017 says.
* **The wire** (`Wire.dfy`, `Framing.dfy`) has 8 bytes of big-endian length before each message, read and
  written in chunks of any size.
* **Sizes** (`SizeParser.dfy`) are digits with an optional unit, converted through double precision.

What the proofs show beyond what one would expect of the code:

* The scan of a shutdown request locks each entry in shared mode and then reads its status, which takes
  the same lock in shared mode again. If a worker or the network thread comes to write that status in
  between, both wait for each other for ever: no request is answered any more and no task is created
  (`DeadlockHappens`, `DeadlockForever`). This is the only way in which the IPC thread can get stuck
  (`IpcStuckIff`) and the only thing that can stop a worker that is awake (`WorkerStuckIff`). A shutdown
  request can end like this exactly when some unfinished task, other than the leftover of a rejected
  request, has or can get a thread that runs it (`DeadlockReachableIff`).
* A creation request that is rejected after its registration leaves a pending entry that no thread will
  ever run or erase (`RejectionHappens`, `RejectedForever`, `OrphanIff`). From then on no shutdown request
  can succeed (`RejectionForbidsShutdown`), and once the id counter comes round to the orphan's id no task
  can ever be created again (`CounterMeetsRejected`).
* The status handler reads the status twice, so that a client may be told "running" by the very request
  that erases the entry (`StaleReportHappens`); it is told a terminal status exactly when the task did not
  end between the two (`ReportIsTerminalIff`). Otherwise nobody is ever told that the task ended, and a
  client that waits for it is told that there is no such task (`HeardIff`, `WaitAlone`). A client can later
  be told of another task under the same
  id: the daemon answers for the object that was submitted exactly as long as its entry was not erased
  (`StillSameTask`).
* Id 0 is reachable when the counter wraps (`IdZeroReachable`, `IdZeroIff`), and the client library refuses
  to wait for it or to ask for it (`IdZeroIsRefused`).
* Lexical normalisation is meant to leave no "." or ".." and to be idempotent. A first component that the
  path library returns with a doubled separator in front, as in "//..", defeats both
  (`DisguisedCounterexample`); the exact condition is in `PlainUnlessTainted`, `NormalizeIdempotent` and
  `NormalizeConcat`. With such a path the directories that are created for a new resource can lie outside
  the namespace's mount (`EscapeHappens`, `UnderMountIff`), and a removal can remove the directory above it
  (`RemoveAboveMount`).
* The statistics ask for the namespace of every running task's destination, which a removal does not have.
  A statistics request can come to that exactly when an unfinished task of the pool has no destination
  (`StatsUnsafeIff`).
* Rounding a size up to blocks wraps around within one block of the largest size (`XAlignWraps`,
  `XAlignIsLeast`). The size estimate is nevertheless the length of the stream up to the wrap of 64-bit
  sums, for every source that can be packed; it fails exactly on directories with a broken link, which
  packing merely skips (`EstimateSizeOncePacked`, `AddDirectory`).
* A read that returns 0 ends a transfer exactly when no interruption is recorded as the last error, not
  even one from before the call (`ShortIff`); with a stale interruption the loop never ends (`SpinsAtEnd`).
  A short length prefix is accepted, and so is a short payload, if there is memory for what is announced
  (`UnframedIff`, `ShortPrefixAccepted`).

Each main result has a partner. A method with a loop is proved against a specification function, and
lemmas relate that function to an independent definition, to its inverse or to an invariant.

## Model

| member | source | states |
|---|---|---|
| `EngineProofs.RunKeeps` | src/io/task-manager.cpp:312-533 | The invariant holds in every state of every run: each entry leads to an object that carries its id, every active object is registered, queue, workers and creating thread agree on who owns what, scan counts lie between past and present, no wake-up is lost. |
| `EngineProofs.StepKeeps` | src/io/thread-pool/thread-pool.hpp:205-226 | Every step of every thread keeps the invariant. |
| `EngineTheorems.InOnePlace` | src/io/task-manager.cpp:312-420 | In a state with the invariant the places where an object occurs (creating thread, queue positions, workers, network thread, completed, orphaned) number exactly one. |
| `EngineTheorems.ExactlyOnce` | src/io/thread-pool/thread-pool.hpp:96-99 | In every reachable state each object is in exactly one place; among the steps so far its body was begun never while it is pending and once otherwise; and a worker is in its epilog only after the body set a terminal status. |
| `EngineTheorems.NoLostWakeUp` | src/io/thread-pool/thread-pool-queue.hpp:75-126 | While a worker sleeps unnotified on a valid queue, there are at least as many notified workers as queued tasks; once the queue is invalid no worker sleeps. |
| `EngineTheorems.StepAdvances` | src/io/task-info.cpp:153-167 | Any step leaves a status alone or advances it by exactly one stage. |
| `EngineTheorems.RunProgress` | src/io/task-info.cpp:147-167 | Over any stretch of any run a status only moves from pending to running to one terminal status that never changes; no object disappears or changes its id. |
| `EngineRegistry.IdsDistinct` | src/io/task-manager.cpp:317-346 | Different entries lead to different objects, each with its entry's id. |
| `EngineRegistry.CreationInserts` | src/io/task-manager.cpp:317-346 | Creation refuses exactly when the wrapped next id is in use, and then changes neither counter nor registry; otherwise it inserts a new pending object under a free id. |
| `EngineRegistry.ErasureIsTerminal` | src/urd.cpp:371-388 | An entry disappears only by the status handler's erasure of the object it reported on; that object is terminal, and the reported status is not later in its life. |
| `EngineRegistry.OrphanIff` | src/io/task-manager.cpp:329-366 | In every reachable state an object is an orphan if and only if some registration inserted it for a request that it then rejected. |
| `EngineRegistry.RejectedForever` | src/io/task-manager.cpp:348-366 | The object of a rejected request stays pending, registered and in no thread's hands in all later states. |
| `EngineRegistry.CounterMeetsRejected` | src/io/task-manager.cpp:320-325 | Once the next id is that of a rejected request's object, no object is ever created again and the counter never moves. |
| `EngineRegistry.DispatchOrder` | src/io/thread-pool/thread-pool-queue.hpp:59-126 | At every point of a run the objects that workers took, in the order of the steps, followed by the queued ones are the objects that were enqueued, in the order of the steps and without repetition; both only grow, and nothing is taken once the queue is invalid. |
| `EngineHistory.BandwidthIsLast` | src/io/task-info.cpp:213-220 | In every reachable state the bandwidth of a task is the sample of the last transfer step of its body, or none. |
| `EngineHistory.CompletionHistory` | src/io/task-manager.cpp:513-526 | The completions recorded so far are exactly those of the epilog steps of copies and moves, in order, each with its route and its last sample. |
| `EngineRegistry.BufferIsRecent` | src/io/task-manager.cpp:489-526 | In every reachable state the buffer of each pair of namespaces is exactly the last samples, in order, of the copies and moves whose epilog steps completed for that pair, at most the backlog size of them. |
| `EngineShutdown.ScanOrigin` | src/io/task-manager.hpp:128-137 | A scan in progress began at an earlier state of the run, and the registry has not changed since. |
| `EngineShutdown.ScanSandwich` | src/io/task-manager.cpp:588-632 | When a scan has visited all entries, although tasks progressed meanwhile: pending now is at most the pending count, which is at most pending at its beginning; likewise for pending plus running. `StatsUnsafeIff` says when a statistics scan gets that far. |
| `EngineShutdown.ShutdownIsSound` | src/urd.cpp:1528-1560 | When the scan of a shutdown request counts nothing, no task is active at its end; the daemon is paused, the queue is empty, no worker holds an active task and no local task is active, and this stays so until a resume. |
| `EngineShutdown.QuietAtEnd` | src/urd.cpp:655-696 | The state right after such a scan is quiet. |
| `EngineShutdown.QuietStep` | src/urd.cpp:262-265 | No step but a resume ends a quiet state, since creation is refused while paused. |
| `EngineCommands.PausedIff` | src/urd.cpp:1514-1526 | In every state of every run the daemon is paused if and only if a pause or a shutdown request is among the steps so far with no resume after it. |
| `EngineCommands.AdmittedIff` | src/urd.cpp:262-265 | A creation request is admitted if and only if the daemon is not paused and the request is of one of the four kinds; otherwise it changes nothing. |
| `EngineCommands.NetAdmittedIff` | src/urd.cpp:749-758 | A request of a remote daemon is admitted if and only if the daemon is not paused. |
| `EngineCommands.RefusalIsUndone` | src/urd.cpp:679-685 | The next step of the IPC thread after a refused shutdown is a resume, after which creation requests of all four kinds are admitted again. |
| `EngineCommands.LeavesIff` | src/urd.cpp:1546-1560 | The daemon leaves its loop if and only if it got a signal, or a shutdown request whose scan counted nothing found the tracked namespaces empty; and for that reason. |
| `EngineCommands.CreationMeans` | src/io/task-manager.cpp:348-420 | In every run a registration under a free id makes a pending local object with the request's namespaces; it goes on to the queue if and only if a copy or move has a transferor that validates it and the kind is one of the four, or the run is dry, and it runs as what the request asks for, or as a no-op in a dry run. |
| `EngineCommands.OutcomeIff` | src/io/task-copy.hpp:66-104 | In every reachable state a task is finished if and only if a step has ended it with success, and finished with error if and only if a step has ended it otherwise. |
| `EngineCommands.WakesOne` | src/io/thread-pool/thread-pool-queue.hpp:96-100 | Handing a task to the queue wakes exactly one sleeper if there is one, and nobody otherwise. |
| `EngineShutdown.IdleDaemonMayStop` | src/urd.cpp:1528-1545 | If no registered task is active when the scan of a shutdown request begins, the scan lets the request go on. |
| `EngineShutdown.RejectionForbidsShutdown` | src/urd.cpp:1540-1542 | After a rejected creation no scan of a shutdown request ever counts nothing. |
| `EngineStop.StoppingTerminates` | src/io/thread-pool/thread-pool.hpp:216-226 | After the queue became invalid, in every run, the number of steps that workers take plus the measure of what is left never exceeds the measure at the beginning. |
| `EngineStop.StopStep` | src/io/thread-pool/thread-pool.hpp:205-214 | Each step of a worker on an invalid queue decreases the measure, and no other step raises it. |
| `EngineStop.WorkerStuckIff` | src/io/task-info.cpp:153-167 | In every reachable state a worker that is neither gone nor asleep is stuck if and only if it is about to write the status of an object whose lock a shutdown request holds. |
| `EngineStop.WorkerNotStuck` | src/io/thread-pool/thread-pool.hpp:205-214 | In every other case such a worker can take a step, which is given. |
| `EngineStop.QueueIsServed` | src/io/thread-pool/thread-pool-queue.hpp:96-100 | While the pool is at work and a task is queued, some worker is awake, and it can take a step unless its own object's lock is held. |
| `EngineStop.WorkersLeave` | src/io/thread-pool/thread-pool.hpp:216-226 | From every reachable state with an invalid queue, steps of the workers alone, at most as many as the measure says, lead to a state in which all of them have exited. |
| `EngineLocks.IpcStuckIff` | src/urd.cpp:1531-1542 | In every reachable state the IPC thread is stuck if and only if it has invalidated the queue, or it holds the lock of an object on which a writer waits. |
| `EngineLocks.WaitersAreWriters` | src/io/task-info.cpp:147-167 | Whoever waits for a lock in a reachable state is a thread about to write the status of the very object whose lock the IPC thread holds. |
| `EngineLocks.ContendIff` | src/urd.cpp:1531-1538 | A held lock can become contended if and only if some thread is about to write the object's status. |
| `EngineLocks.DeadlockForever` | src/urd.cpp:1531-1542 | Once a writer waits for the held lock, in all later states the IPC thread is where it was and stuck, the daemon is paused, the task has the same status, and no task was created. |
| `EngineReach.DeadlockReachableIff` | src/urd.cpp:1528-1542 | While the IPC thread waits for requests, and without any new task: a run that goes on to a deadlock exists if and only if some unfinished task, not left behind by a rejected request, is with the network thread or in a pool that has workers. |
| `EngineReach.QueuedIsTaken` | src/io/thread-pool/thread-pool.hpp:205-214 | While the IPC thread waits for requests, every queued task can come into the hands of a worker by steps of the workers, whatever is queued before it. |
| `EngineReach.StatsUnsafeIff` | src/io/task-manager.cpp:604-608 | While the IPC thread waits for requests, and without any new task: a run in which a statistics scan asks for a missing destination exists if and only if some unfinished task of a pool with workers, not left behind by a rejected request, has none. |
| `EngineWitness.DeadlockHappens` | src/urd.cpp:1531-1538 | With any settings and at least one worker there is a run from the initial state to such a deadlock. |
| `EngineWitness.RejectionHappens` | src/io/task-manager.cpp:348-360 | With any settings a copy without a transferor is rejected, after its registration, two steps from the initial state. |
| `EngineWitness.CounterReaches` | src/io/task-manager.cpp:320 | For every 32-bit n there is a run to a state whose counter is n. |
| `EngineWitness.IdZeroReachable` | src/io/task-manager.cpp:320-346 | There is a run to a state in which a task with id 0 is registered, pending and queued. |
| `EngineWitness.IdZeroIff` | src/io/task-manager.cpp:320-346 | A registration yields id 0 if and only if the counter is at its last value and 0 is free. |
| `EngineWitness.StaleReportHappens` | src/urd.cpp:371-388 | There is a run in which a request reports "running" and erases the entry, whose task has finished, and the next request finds no such task. |
| `EngineAnswers.ReportIsTerminalIff` | src/urd.cpp:371-388 | For every request that takes its snapshot at one step and erases the entry at another, the reported status is terminal if and only if the task's end is not among the steps in between. |
| `EngineAnswers.EndedIff` | src/io/task-copy.hpp:77-104 | A task that has ended by some state had ended by an earlier one if and only if no step in between wrote its terminal status. |
| `EngineObjects.PushIsEnqueue` | src/io/thread-pool/thread-pool-queue.hpp:96-100 | Pushing does to the queue what the engine's step does to the state. |
| `EngineObjects.WaitPopIsTake` | src/io/thread-pool/thread-pool-queue.hpp:75-93 | So does popping, and the worker's next position is what the pop returned. |
| `EngineObjects.InvalidateIsStep` | src/io/thread-pool/thread-pool-queue.hpp:122-126 | So does invalidation. |
| `EngineObjects.CreateIsRegister` | src/io/task-manager.cpp:312-420 | Creation does to counter, registry and statuses what the engine's registration does, and hands out a task, of the same type, exactly when the engine goes on to push one. |
| `EngineObjects.FindIsFound` | src/urd.cpp:371-378 | Looking up an id finds the record exactly when the engine's status request does, with the status that the engine would read. |
| `EngineObjects.EraseIsStep` | src/io/task-manager.cpp:552-564 | So does the erasure of an entry. |
| `EngineObjects.CallbackIsEpilog` | src/io/task-manager.cpp:489-511 | So does the completion callback of a copy or a move. |
| `EngineStop.OneMoreTask` | src/io/thread-pool/thread-pool.hpp:205-219 | Once `m_done` is set, any stretch of the run holds at most one step in which a given worker begins a body. |
| `EngineStop.LeftInQueue` | src/io/thread-pool/thread-pool-queue.hpp:122-126 | What is queued when the queue becomes invalid stays queued, at the same position, and pending in all later states. |
| `WorkQueues.WorkQueue.Push` | src/io/thread-pool/thread-pool-queue.hpp:96-100 | The value joins the back; what left followed by what is queued is what was pushed. |
| `WorkQueues.WorkQueue.WaitPop` | src/io/thread-pool/thread-pool-queue.hpp:75-93 | The front is handed out and recorded in order, or nothing changes; an invalid queue hands out nothing. |
| `WorkQueues.WorkQueue.TryPop` | src/io/thread-pool/thread-pool-queue.hpp:59-70 | It pops in exactly the cases in which a blocking pop would, and otherwise changes nothing. |
| `WorkQueues.WorkQueue.Clear` | src/io/thread-pool/thread-pool-queue.hpp:109-117 | The queue becomes empty; nothing that it held is handed to anyone. |
| `WorkQueues.WorkQueue.Invalidate` | src/io/thread-pool/thread-pool-queue.hpp:122-126 | Only the validity changes. |
| `TaskRules.PushKeepsLast` | src/io/task-manager.cpp:509 | Pushing into a circular buffer that holds the last n samples gives the last n of one sample more, a capacity of 0 included. |
| `TaskRules.CompleteKeepsRecent` | src/io/task-manager.cpp:489-511 | A completion keeps every pair's buffer equal to its most recent samples, and touches no other pair. |
| `TaskRecords.TaskInfo.constructor` | src/io/task-info.cpp:48-84 | A record begins pending, without error, bytes or bandwidth. |
| `TaskRecords.TaskInfo.UpdateStatus` | src/io/task-info.cpp:153-157 | The write joins the history of writes, which stays in order if the write advances the status. |
| `TaskRecords.TaskInfo.UpdateStatusWith` | src/io/task-info.cpp:159-167 | As above, and both error codes are recorded. |
| `TaskRecords.TaskInfo.RecordTransfer` | src/io/task-info.cpp:213-220 | Bytes are added with the wrap of their type, the sample is replaced, and no status is written. |
| `TaskRecords.TaskInfo.GetStats` | src/io/task-info.cpp:192-197 | The reported pending bytes and the sent ones make up the total, modulo the width of the type. |
| `TaskRecords.Transfer` | src/io/task-info.cpp:213-220 | However often a transferor records, the bytes add up with the wrap of their type and the bandwidth is the last recording's. |
| `TaskRecords.RunTransfer` | src/io/task-copy.hpp:49-105 | A copy or move writes running and then finished exactly when none of its three stages failed, and otherwise finished with error and the first stage's error that is set; bytes and bandwidth are those recorded by the transferor, if it was reached. |
| `TaskRecords.RunRemove` | src/io/task-remove.hpp:49-86 | A removal writes running and then the terminal status of its one stage. |
| `TaskRecords.RunNoop` | src/io/task-noop.hpp:61-79 | A no-op writes running and finished and touches no error code. |
| `TaskRecords.RunTask` | src/io/task.hpp:194-215 | Per type: a no-op finishes, a removal ends with its own error, everything else that can be queued ends as a transfer does, with status, both error codes and bytes; always two writes, in order if the record was pending. |
| `TaskRecords.OneWritePerStage` | src/io/task-move.hpp:77-104 | A record written in order was written exactly once for each stage that it has reached. |
| `TaskManagers.TaskManager.CreateLocalInitiatedTask` | src/io/task-manager.cpp:312-420 | Refusal without a trace exactly when the next id is in use; otherwise a pending entry, not supported exactly for a copy or move without a transferor, bad arguments exactly for one that its transferor does not validate or for a kind that is none of the four, and else a task that runs as what was asked for, or as a no-op in a dry run. |
| `TaskManagers.TaskManager.Find` | src/io/task-manager.cpp:537-550 | It finds exactly the registered ids, and the registered record, which has the id asked for. |
| `TaskManagers.TaskManager.Erase` | src/io/task-manager.cpp:552-564 | It removes exactly the entry, and reports whether there was one. |
| `TaskManagers.TaskManager.CompletionCallback` | src/io/task-manager.cpp:489-511 | The callback keeps every buffer equal to the most recent samples of its pair. |
| `TaskManagers.TaskManager.CountStatuses` | src/io/task-manager.cpp:588-632 | Without interference the counting loop returns the exact numbers of running and pending entries. |
| `Client.Descriptor.Wait` | lib/libnorns.c:241-307 | The loop goes on after a poll exactly when there is an id, the response is a success with a non-terminal status, the sleep did not fail and no timeout was given; it returns bad arguments for id 0 or an invalid sleep, a failure for any other failed sleep, a timeout after the first such poll if one was given, the daemon's error if there is one, and success exactly with a terminal status, which it caches. |
| `Client.Descriptor.Error` | lib/libnorns.c:221-237 | A cached terminal status is returned whatever the daemon would say; otherwise its response is, and without one the caller's record stays as it was; id 0 is refused. |
| `Client.IdZeroIsRefused` | lib/communication.c:121-123 | Waiting for a task whose id is 0 and asking for its status are both refused whatever the daemon would reply, and leave the descriptor and the caller's record alone. |
| `Client.TerminalAnswerIsFinal` | src/urd.cpp:371-388 | An object that answered with a terminal status has it in all later states, even when its entry is gone or its id is reused. |
| `Client.WaitThenError` | lib/libnorns.c:221-307 | After a successful wait any later query of the descriptor returns the status that the answering object has in any later daemon state. |
| `Client.TerminalAnswerIsLast` | src/urd.cpp:380-384 | After a terminal answer the object never answers under its id again. |
| `Client.HeardIff` | src/urd.cpp:371-388 | Some answer about a task is ever terminal if and only if the task did not end between the snapshot and the erasure of the request that erases its entry; and only that request gives such an answer. |
| `Client.WaitAlone` | lib/libnorns.c:262-275 | A client that polls until that request's answer and then hears that there is no such task has a successful wait if and only if the task did not end in between; otherwise its wait returns that error. |
| `Client.StillSameTask` | lib/communication.c:115-139 | The id still stands for the same object if and only if its entry was never erased in between; afterwards it is unknown or stands for a younger object. |
| `Paths.LexicalNormalize` | src/utils.cpp:117-162 | The loop computes the stack semantics. |
| `Paths.NormalizeIsSurvivors` | src/utils.cpp:133-160 | Normalisation keeps exactly the names that no later ".." takes away, in order and under the root, with a final separator when asked for one, except at the root. |
| `Paths.PlainUnlessTainted` | src/utils.cpp:142-151 | The normalised names are free of "." and ".." if and only if no component with a doubled separator before "." or ".." survives. |
| `Paths.DisguisedCounterexample` | src/utils.cpp:143-149 | A concrete path whose normal form begins with "..". |
| `Paths.NormalizeIdempotent` | src/utils.cpp:117-162 | Normalising twice is normalising once, if and only if no such component survives. |
| `Paths.NormalizeConcat` | src/utils.cpp:117-162 | Normalising a/b is normalising (normalised a)/b for every b, if and only if no such component survives in a. |
| `Paths.Relative` | src/utils.cpp:223-248 | The loops compute one ".." for each component of the base beyond the longest common prefix that is not ".", then the rest of the path. |
| `Paths.AbsoluteLeads` | src/utils.cpp:226-227 | An absolute path stays as it is and any other leads on from the current directory. |
| `Paths.RelativeLeadsBack` | src/utils.cpp:223-248 | Following the relative path from the base leads to the path. |
| `Paths.ClimbsIff` | src/utils.cpp:239-242 | The relative path holds ".." exactly when the base has more than "." beyond the common prefix. |
| `Paths.RelativeRoundTrip` | src/utils.cpp:223-248 | For all normalised absolute paths the base followed by the relative path normalises to the path, and the relative path holds ".." if and only if the base is not a prefix of the path. |
| `PosixNamespace.Contains` | src/backends/posix-fs.cpp:52-61 | The search loop decides membership. |
| `PosixNamespace.GetResource` | src/backends/posix-fs.cpp:129-167 | Whatever canonicalisation returns, a lookup succeeds exactly when the mount has nothing but "." beyond its common prefix with the canonical path, and the subpath it yields holds no "..", leads from the mount to that canonical path, and ends with a separator exactly for a directory. |
| `PosixNamespace.TargetUnderMount` | src/backends/posix-fs.cpp:134-143 | What is canonicalised is the place of the path's surviving names under the mount. |
| `PosixNamespace.FoundIffUnderMount` | src/backends/posix-fs.cpp:149-163 | For a normalised mount the condition of a successful lookup is that the target lies under the mount. |
| `PosixNamespace.NewResource` | src/backends/posix-fs.cpp:101-127 | The directories created are the mount followed by the parents' names, if there are any; they lie under the mount if and only if those names do not begin with a ".." that leaves it, and always above the new resource, which lies under the mount if and only if all its names do not escape. |
| `PosixNamespace.Remove` | src/backends/posix-fs.cpp:169-203 | What is removed is the place that canonicalisation returns, or for a link the place to which the path leads, under the mount or not; for a link it is under the mount if and only if the path's names do not escape. |
| `PosixNamespace.RemoveAboveMount` | src/backends/posix-fs.cpp:169-203 | A concrete path that removes the directory above the mount. |
| `PosixNamespace.UnderMountIff` | src/backends/posix-fs.cpp:114-118 | Names of which all but the first are plain stay under a mount if and only if the first is not "..", or the mount is the root, or the second is the mount's last name. |
| `PosixNamespace.EscapeHappens` | src/backends/posix-fs.cpp:107-118 | A concrete path for which directories outside the mount are created. |
| `BlockSize.AlignIsFloor` | src/utils/tar-archive.cpp:58-61 | For every power-of-two block the mask removes exactly the remainder. |
| `BlockSize.XAlignIsLeast` | src/utils/tar-archive.cpp:63-68 | For every power-of-two block and 64-bit size the mask form is the least multiple of the block that is not below the size, if and only if the size is at most 2^64 minus the block. |
| `BlockSize.XAlignWraps` | src/utils/tar-archive.cpp:63-68 | The largest 64-bit size is rounded to 0. |
| `Tar.Transform` | src/utils/tar-archive.cpp:182-204 | The method computes the renaming on normalised paths. |
| `Tar.StoredName` | src/utils/tar-archive.cpp:182-204 | Every entry is stored under "/", the surviving names of the archive directory, and its own path below the source. |
| `Tar.LookupIff` | src/utils/tar-archive.cpp:396-398 | For every tree: following names through directories leads to a node if and only if the traversal visits that node under that path, and it visits no path twice. |
| `Tar.AddDirectory` | src/utils/tar-archive.cpp:325-436 | The loop appends a record for the source and for each file and directory that the traversal visits, in that order, and skips the rest. |
| `Tar.AppendFileData` | src/utils/tar-archive.cpp:70-122 | For every way of splitting the reads and any number of interruptions, what is appended is what the reads returned of the file, all of it when the size is the file's; the call ends with an error exactly when the deciding read failed before the size was reached, and with its code. |
| `Tar.EstimateSizeOncePacked` | src/utils/tar-archive.cpp:556-611 | For every source, archive directory and one-block header encoding the estimate is the length of the stream that packing the source emits, modulo 2^64; a directory has none exactly when some path in it leads to a broken link, and a source that is neither file nor directory raises an exception. |
| `Tar.EmptyDirectory` | src/utils/tar-archive.cpp:594-609 | The stream of an empty directory has three blocks of 512 bytes. |
| `Tar.EstimateEntries` | src/utils/tar-archive.cpp:564-590 | The loop fails exactly when it meets a broken link, and otherwise adds up the entries' costs modulo 2^64. |
| `Tar.EstimateIsExact` | src/utils/tar-archive.cpp:556-611 | For every tree, archive directory and one-block header encoding, that sum is the length of the stream that packing emits. |
| `Tar.WalkDistinct` | src/utils/tar-archive.cpp:385-389 | No two entries of a tree are visited under the same path. |
| `TarExtract.Extract` | src/utils/tar-archive.cpp:475-549 | Extraction succeeds exactly when no path holds "..", and then every record's content is at its path. |
| `TarExtract.NamesDoNotClimb` | src/utils/tar-archive.cpp:532-539 | No path of a packed entry holds "..", if and only if neither the parent nor the archive directory's surviving names do. |
| `TarExtract.DestinationInjective` | src/utils/tar-archive.cpp:532-539 | Different entries are extracted to different places. |
| `TarExtract.PlaceMirrors` | src/utils/tar-archive.cpp:380-435 | Placing the packed records of any distinct visits gives exactly those entries, each at its destination with its content, and nothing else. |
| `TarExtract.PackThenExtract` | src/utils/tar-archive.cpp:325-549 | Packing any tree and extracting it places, under parent / archive directory, at every path that leads to a file or a link to one that file's data, at every path that leads to a directory or a link to one a directory, and nothing anywhere else; it fails exactly when the parent or the archive directory climbs. |
| `Wire.WireLayout` | rpc/norns-rpc.h:58-64 | On hosts of either byte order the converted value lies in memory most significant byte first, for all 64-bit values. |
| `Wire.HtonllInvolutive` | rpc/norns-rpc.h:58-64 | The conversion inverts itself on all 64-bit values. |
| `Wire.PrefixReadsBack` | rpc/norns-rpc.h:58-64 | What a host of one byte order writes, a host of either byte order reads. |
| `Framing.DeframeFrame` | lib/communication.c:412-482 | A frame is read back exactly, whatever follows it. |
| `Framing.StreamRoundTrip` | lib/communication.c:412-482 | A stream of frames falls apart into exactly the messages, in order. |
| `Framing.SendData` | lib/communication.c:511-536 | For every sequence of write outcomes the stream receives what the writes moved; the call fails if and only if a write fails before all is sent, and completes if and only if the writes before any that fails move enough. |
| `Framing.RecvData` | lib/communication.c:484-508 | The loop computes the transfer's meaning, call by call, for every sequence of read outcomes and every error left behind before the call. |
| `Framing.ReceiveParts` | lib/communication.c:484-508 | The bytes received and those left make up the stream, and a transfer is complete exactly when all bytes asked for arrived. |
| `Framing.ReceiveAppend` | lib/communication.c:491-505 | A transfer that still waits after some calls goes on with the next ones from where it is. |
| `Framing.ShortIff` | lib/communication.c:496-501 | A transfer ends short if and only if the call it waits for returns 0 while no interruption is recorded, by itself or from before, and fails if and only if that call fails. |
| `Framing.SteadyReceives` | lib/communication.c:491-505 | Reads that are interrupted or move something never fail or fall short, and enough of them complete the transfer if the bytes are there. |
| `Framing.SpinsAtEnd` | lib/communication.c:496-501 | With a stale interruption and the stream at its end, the loop goes round however often it reads. |
| `Framing.SendMessage` | lib/communication.c:412-438 | An empty message is refused; otherwise the stream receives a prefix of the frame, all of it exactly on completion, and the call fails if and only if a write fails before its part of the frame is sent. |
| `Framing.RecvMessage` | lib/communication.c:440-482 | On hosts of either byte order the method delivers what the two transfers deliver together, if there is memory for what the prefix announces. |
| `Framing.FrameDelivered` | lib/communication.c:440-482 | If a complete frame is there and every read is interrupted or moves something, exactly its payload is delivered and exactly its bytes are consumed, however the reads are split; it is refused only when there is no memory for it. |
| `Framing.UnframedIff` | lib/communication.c:445-470 | A stream that begins with no frame is accepted if and only if the zero-filled prefix announces something for which there is memory, no call fails, and one of the two transfers ends short. |
| `Framing.ShortPrefixAccepted` | lib/communication.c:445-461 | Seven bytes that are accepted as a message of 256 bytes, wherever 256 bytes can be allocated. |
| `Framing.Exchange` | lib/communication.c:412-536 | Between hosts of any byte orders and for all ways of splitting both transfers the payload arrives unchanged and nothing is left over; it is refused only when there is no memory for it. |
| `Framing.Message.Clear` | src/api/message.hpp:133-137 | Everything is emptied. |
| `Framing.Message.EncodeResponse` | src/api/message.hpp:139-155 | Header followed by body is the frame of the stored response; a failure to store changes nothing. |
| `Framing.Message.DecodeHeader` | src/api/message.hpp:157-169 | A header of the right length announces the big-endian number it spells, and the body gets that size if it can be resized to it; otherwise the exception leaves the announced length and the old body. Any other length changes nothing. |
| `Framing.HeaderOfFrame` | src/api/message.hpp:157-169 | The header of a frame announces exactly its payload. |
| `SizeParser.ParseSize` | src/utils.cpp:49-113 | A text is refused if and only if, without white space, it is not digits followed by at most one of the eleven suffixes; otherwise the result is the double precision product of the number and 1, 1000, 1000^2, 1000^3, 1024, 1024^2 or 1024^3, as the suffix says. |
| `SizeParser.ParseReading` | src/utils.cpp:85-108 | The loop over the table of units finds the only reading of a text, if there is one. |
| `SizeParser.ProductExact` | src/utils.cpp:110-112 | Products below two to the 53rd are exact. |
| `SizeParser.RoundedNear` | src/utils.cpp:110-112 | A conversion to double precision errs by at most one part in two to the 53rd. |
| `SizeParser.RoundedNearest` | src/utils.cpp:110-112 | The result is a multiple of the spacing of doubles around the number, at most half of it away, and an even one half way. |
| `SizeParser.InsertSpaces` | src/utils.cpp:74-79 | Blanks, tabs, line ends and the like may be inserted anywhere without changing the reading. |
| `SizeParser.StripKeeps` | src/utils.cpp:74-79 | No other character is removed. |
| `SizeParser.ParsePrinted` | src/utils.cpp:49-113 | For every number, every suffix and white space anywhere, the printed form parses to the product of the number and the suffix's unit. |

## Left out

- RemoteTransfer: the network thread only registers, starts and ends tasks; Hermes RPCs, the transferors and the push and pull handlers' own logic are not modelled, and such tasks are exempt from `Quiet`, since that thread can pass the pause test before a shutdown.
- CompletionCallback: a completion is one step, although the source's callbacks share their map without a lock.
- ScanSandwich: the estimated time of the global statistics (floating point, with not-a-number) and the 32-bit wrap of the counts are not modelled; a scan that asks for a missing destination, which is undefined in the source, goes on in the model.
- ReadEntry: the two status reads of one visit of a shutdown scan are one step, since the status cannot change while the entry's lock is held.
- ParseSize: a value that does not fit in 64 bits is reported as an overflow, where the source's conversion is undefined or throws.
- AddDirectory: files are read whole; `AppendFileData` shows that they are under any splitting of the reads, but an error in the middle of an archive and files that change while they are packed are not modelled.
- Extract: permissions, the refusal to follow links on disk and the missing directories that libarchive creates above an entry are not modelled; an entry is placed at its normalised path.
- Canonicalises: resolving links is an arbitrary function that yields plain names, and `Relative` is the function that the repository itself defines for older path libraries.
- WellFormed: how a path string splits into components is not modelled, beyond the doubled separator of a first component.
- The sizes of resources, which add up a traversal, the job and namespace tables, the factory of backends, and the Lustre, NVML and remote backends: easy sums, plain map operations or stubs.
- The bytes of protobuf messages and of ustar headers: parameters of the statements.
- `lib/libnornsctl.c`: the same waiting and error logic as `lib/libnorns.c`.
- Daemonising, settings, logging, sockets, signal delivery, futures of tracked submissions and the constructor of the pool.
