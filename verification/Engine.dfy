/** The task engine as a labelled transition system.

    The threads are the IPC thread, which runs every request handler and the final teardown, the
    network thread, which creates and runs remotely initiated tasks, and the pool's workers. Every
    section protected by one mutex is one step, with one exception: the scan of a shutdown request
    visits an entry with the entry's lock held in shared mode and takes that lock in shared mode once
    more to read the status. A writer that arrives in between waits for the first to be released,
    and while a writer waits the lock lets no reader in. */
module Engine {
  import opened TaskStatus
  import opened TaskRules
  import opened WorkQueues

  /** A task object is named by its position among all objects ever created, never by its id. */
  type Obj = nat

  /** The record shared by the registry, the queue and the worker that runs the task. */
  datatype Task = Task(id: Id, runAs: TaskType, remote: bool, status: Status, bandwidth: Option<real>, route: Route)

  datatype Worker =
    | AtLoop        // about to test m_done
    | Entering      // about to lock the queue
    | Asleep        // waiting on the condition variable, not notified
    | Notified      // woken, about to lock the queue again
    | Got(o: Obj)   // holds a task whose body has not begun
    | Body(o: Obj)
    | Epilog(o: Obj)
    | Exited
  {
    predicate Holds(x: Obj) { (Got? || Body? || Epilog?) && o == x }
  }

  datatype Purpose = ForStats | ForShutdown

  datatype Ipc =
    | Idle
    | Admitted(req: Request)                                  // passed the pause test
    | HandOff(o: Obj)                                         // registered, not yet pushed
    | Found(tid: Id, o: Obj)                                  // status handler, after find
    | Reported(tid: Id, o: Obj, rep: Status)                  // after stats()
    | Rechecked(tid: Id, o: Obj, rep: Status)                 // after the first status() test
    | Erasing(tid: Id, o: Obj, rep: Status)                   // about to erase tid
    | ShutdownRequested                                       // paused, about to scan
    | Scanning(purpose: Purpose, todo: set<Id>, pending: nat, running: nat, start: seq<Task>, held: Option<Id>)
    | NoneActive                                              // the scan counted nothing
    | Refusing                                                // about to resume after a refusal
    | Closing(clean: bool)                                    // the listener has stopped
    | DoneSet(clean: bool)                                    // m_done is set
    | Invalidated(clean: bool)                                // the queue is invalid

  datatype Net = NetIdle | NetAdmitted | NetHeld(o: Obj) | NetBody(o: Obj)

  /** Where an object is. This is bookkeeping of the model: no thread reads it. */
  datatype Place = Handed | Queued(ticket: nat) | WithWorker(w: nat) | WithNetwork | Completed | Orphaned

  datatype Config = Config(workers: nat, backlogSize: nat, dryRun: bool)

  datatype State = State(
    cfg: Config,
    tasks: seq<Task>,
    registry: map<Id, Obj>,
    idBase: Id,
    queue: seq<Obj>,
    valid: bool,
    done: bool,
    paused: bool,
    workers: seq<Worker>,
    ipc: Ipc,
    net: Net,
    waiting: set<Obj>, // objects on whose lock a writer waits
    backlog: Backlog,
    // history
    place: seq<Place>,
    pushed: seq<Obj>,
    popped: seq<Obj>,
    starts: seq<Obj>,
    completions: seq<Completion>)

  function Initially(cfg: Config): State {
    State(cfg, [], map[], 0, [], true, false, false,
          seq(cfg.workers, i => AtLoop), Idle, NetIdle, {}, map[],
          [], [], [], [], [])
  }

  predicate Init(s: State) { s == Initially(s.cfg) }

  datatype Label =
    // IPC thread
    | CreateRequest(req: Request) | Register | Enqueue(wake: nat)
    | StatusRequest(tid: Id) | Snapshot | Recheck | RecheckError | EraseEntry
    | Pause | Resume | StatsRequest | ShutdownRequest | BeginScan | ScanEntry(id: Id)
    | HoldEntry(id: Id) | ReadEntry | EndScan
    | NamespaceCheck(empty: bool) | Signal | SetDone | InvalidateQueue
    // network thread
    | NetRequest | NetRegister(route: Route, accepted: bool) | NetStart | NetFinish(ok: bool) | NetContend
    // workers
    | CheckDone(w: nat) | Take(w: nat) | Spurious(w: nat)
    | Start(w: nat) | Transfer(w: nat, sample: Option<real>) | Finish(w: nat, ok: bool) | RunEpilog(w: nat)
    | Contend(w: nat)

  /** The registry's mutex is held from the beginning to the end of a scan. */
  predicate Locked(s: State) { s.ipc.Scanning? }

  /** The scan of a shutdown request holds the lock of object `o`. */
  predicate HoldsLock(registry: map<Id, Obj>, ipc: Ipc, o: Obj) {
    ipc.Scanning? && ipc.held.Some? && ipc.held.value in registry && registry[ipc.held.value] == o
  }

  /** Under the registry's lock: take the next id, refuse if it is in use, otherwise register a
      pending object; a request that is then rejected leaves its object behind. */
  function DoRegister(s: State, remote: bool, route: Route, fate: Fate): State {
    var id := NextId(s.idBase);
    if id in s.registry then
      s.(ipc := if remote then s.ipc else Idle, net := if remote then NetIdle else s.net)
    else
      var o := |s.tasks|;
      var runAs := if fate.Accepted? then fate.runAs else Unknown;
      s.(idBase := id,
         registry := s.registry[id := o],
         tasks := s.tasks + [Task(id, runAs, remote, Pending, None, route)],
         place := s.place + [if fate.Rejected? then Orphaned else if remote then WithNetwork else Handed],
         ipc := if remote then s.ipc else if fate.Rejected? then Idle else HandOff(o),
         net := if !remote then s.net else if fate.Rejected? then NetIdle else NetHeld(o))
  }

  predicate SomeAsleep(workers: seq<Worker>) {
    exists w :: 0 <= w < |workers| && workers[w].Asleep?
  }

  /** `push`: append, then notify one sleeper, if there is one. */
  function DoEnqueue(s: State, wake: nat): State
    requires s.ipc.HandOff? && s.ipc.o < |s.place|
  {
    var o := s.ipc.o;
    s.(ipc := Idle, queue := s.queue + [o], pushed := s.pushed + [o],
       place := s.place[o := Queued(|s.pushed|)],
       workers := if wake < |s.workers| && s.workers[wake].Asleep? then s.workers[wake := Notified] else s.workers)
  }

  function WakeAll(workers: seq<Worker>): (r: seq<Worker>)
    ensures |r| == |workers|
    ensures forall w :: 0 <= w < |r| ==> r[w] == if workers[w].Asleep? then Notified else workers[w]
  {
    seq(|workers|, w requires 0 <= w < |workers| => if workers[w].Asleep? then Notified else workers[w])
  }

  function SetStatus(tasks: seq<Task>, o: Obj, st: Status): (r: seq<Task>)
    requires o < |tasks|
    ensures |r| == |tasks|
  {
    tasks[o := tasks[o].(status := st)]
  }

  /** One pass of a worker through the critical section of `wait_pop`. */
  function DoTake(s: State, w: nat): State
    requires w < |s.workers|
  {
    var r := TakeFront(s.queue, s.valid);
    s.(workers := s.workers[w := if r.Blocked? then Asleep else if r.Refused? then AtLoop else Got(r.value)],
       queue := if r.Popped? then s.queue[1..] else s.queue,
       popped := if r.Popped? then s.popped + [r.value] else s.popped,
       place := if r.Popped? && r.value < |s.place| then s.place[r.value := WithWorker(w)] else s.place)
  }

  function DoEpilog(s: State, w: nat): State
    requires w < |s.workers| && s.workers[w].Epilog? && s.workers[w].o < |s.tasks| == |s.place|
  {
    var o := s.workers[w].o;
    var calls := HasEpilog(s.tasks[o].runAs);
    var c := Completion(s.tasks[o].route, s.tasks[o].bandwidth);
    s.(workers := s.workers[w := AtLoop],
       place := s.place[o := Completed],
       backlog := if calls then Complete(s.backlog, s.cfg.backlogSize, c) else s.backlog,
       completions := if calls then s.completions + [c] else s.completions)
  }

  /** The position of a scan after it has read the status `st` of entry `id`. */
  function ScanOne(ipc: Ipc, id: Id, st: Status): Ipc
    requires ipc.Scanning?
  {
    ipc.(todo := ipc.todo - {id},
         pending := ipc.pending + (if st.Pending? then 1 else 0),
         running := ipc.running + (if st.Running? then 1 else 0),
         held := None)
  }

  /** The steps of a creation request. */
  function CreateStep(s: State, l: Label): Option<State> {
    match l
    case CreateRequest(req) =>
      if !s.ipc.Idle? then None
      else if s.paused then Some(s)
      else if req.kind.Copy? || req.kind.Move? || req.kind.Remove? || req.kind.Noop? then Some(s.(ipc := Admitted(req)))
      else Some(s)
    case Register =>
      if !s.ipc.Admitted? then None
      else Some(DoRegister(s, false, (s.ipc.req.src, s.ipc.req.dst), Judge(s.ipc.req, s.cfg.dryRun)))
    case Enqueue(wake) =>
      if !s.ipc.HandOff? || s.ipc.o >= |s.place| then None
      else if SomeAsleep(s.workers) && !(wake < |s.workers| && s.workers[wake].Asleep?) then None
      else Some(DoEnqueue(s, wake))
    case _ => None
  }

  /** How far the status handler has come after one more of its steps before the erasure. */
  function AnswerStep(tasks: seq<Task>, registry: map<Id, Obj>, ipc: Ipc, l: Label): Option<Ipc> {
    match l
    case StatusRequest(tid) =>
      if !ipc.Idle? then None
      else if tid in registry then Some(Found(tid, registry[tid]))
      else Some(Idle)
    case Snapshot =>
      if !ipc.Found? || ipc.o >= |tasks| then None
      else Some(Reported(ipc.tid, ipc.o, tasks[ipc.o].status))
    case Recheck =>
      if !ipc.Reported? || ipc.o >= |tasks| then None
      else if tasks[ipc.o].status.Finished? then Some(Erasing(ipc.tid, ipc.o, ipc.rep))
      else Some(Rechecked(ipc.tid, ipc.o, ipc.rep))
    case RecheckError =>
      if !ipc.Rechecked? || ipc.o >= |tasks| then None
      else if tasks[ipc.o].status.FinishedWithError? then Some(Erasing(ipc.tid, ipc.o, ipc.rep))
      else Some(Idle)
    case _ => None
  }

  /** The steps of a status request. */
  function StatusStep(s: State, l: Label): Option<State> {
    if l.EraseEntry? then
      if !s.ipc.Erasing? then None
      else Some(s.(registry := s.registry - {s.ipc.tid}, ipc := Idle))
    else
      match AnswerStep(s.tasks, s.registry, s.ipc, l)
      case None => None
      case Some(ipc) => Some(s.(ipc := ipc))
  }

  /** How far one of the two scans has come after one more of its steps. */
  function ScanPosition(tasks: seq<Task>, registry: map<Id, Obj>, waiting: set<Obj>, ipc: Ipc, l: Label): Option<Ipc> {
    match l
    case StatsRequest =>
      if !ipc.Idle? then None else Some(Scanning(ForStats, registry.Keys, 0, 0, tasks, None))
    case BeginScan =>
      if !ipc.ShutdownRequested? then None else Some(Scanning(ForShutdown, registry.Keys, 0, 0, tasks, None))
    case ScanEntry(id) =>
      if !ipc.Scanning? || !ipc.purpose.ForStats? || id !in ipc.todo then None
      else if id !in registry || registry[id] >= |tasks| then None
      else Some(ScanOne(ipc, id, tasks[registry[id]].status))
    case HoldEntry(id) =>
      if !ipc.Scanning? || !ipc.purpose.ForShutdown? || ipc.held.Some? || id !in ipc.todo then None
      else Some(ipc.(held := Some(id)))
    case ReadEntry =>
      if !ipc.Scanning? || ipc.held.None? then None
      else if ipc.held.value !in registry || registry[ipc.held.value] >= |tasks| then None
      else if registry[ipc.held.value] in waiting then None
      else Some(ScanOne(ipc, ipc.held.value, tasks[registry[ipc.held.value]].status))
    case EndScan =>
      if !ipc.Scanning? || ipc.todo != {} then None
      else if ipc.purpose.ForStats? then Some(Idle)
      else if ipc.pending + ipc.running != 0 then Some(Refusing)
      else Some(NoneActive)
    case _ => None
  }

  /** The steps of the two scans of the registry, which hold its lock from beginning to end. */
  function ScanStep(s: State, l: Label): Option<State> {
    match ScanPosition(s.tasks, s.registry, s.waiting, s.ipc, l)
    case None => None
    case Some(ipc) => Some(s.(ipc := ipc))
  }

  function CommandPosition(ipc: Ipc, l: Label): Option<Ipc> {
    match l
    case Pause => if !ipc.Idle? then None else Some(Idle)
    case Resume => if ipc.Idle? || ipc.Refusing? then Some(Idle) else None
    case ShutdownRequest => if !ipc.Idle? then None else Some(ShutdownRequested)
    case NamespaceCheck(empty) =>
      if !ipc.NoneActive? then None else if empty then Some(Closing(true)) else Some(Refusing)
    case Signal => if !ipc.Idle? then None else Some(Closing(false))
    case SetDone => if !ipc.Closing? then None else Some(DoneSet(ipc.clean))
    case InvalidateQueue => if !ipc.DoneSet? then None else Some(Invalidated(ipc.clean))
    case _ => None
  }

  /** The steps of control commands, signals and the final teardown. */
  function CommandStep(s: State, l: Label): Option<State> {
    match CommandPosition(s.ipc, l)
    case None => None
    case Some(ipc) =>
      Some(s.(ipc := ipc,
              paused := l.Pause? || l.ShutdownRequest? || (s.paused && !l.Resume?),
              done := s.done || l.SetDone?,
              valid := s.valid && !l.InvalidateQueue?,
              workers := if l.InvalidateQueue? then WakeAll(s.workers) else s.workers))
  }

  /** The steps of the network thread. */
  function NetStep(s: State, l: Label): Option<State> {
    match l
    case NetRequest =>
      if !s.net.NetIdle? then None else if s.paused then Some(s) else Some(s.(net := NetAdmitted))
    case NetRegister(route, accepted) =>
      if !s.net.NetAdmitted? || Locked(s) || route.1.None? then None
      else Some(DoRegister(s, true, route, if accepted then Accepted(RemoteTransfer) else Rejected(NotSupported)))
    case NetStart =>
      if !s.net.NetHeld? || s.net.o >= |s.tasks| || HoldsLock(s.registry, s.ipc, s.net.o) then None
      else Some(s.(net := NetBody(s.net.o), tasks := SetStatus(s.tasks, s.net.o, Running),
                   starts := s.starts + [s.net.o]))
    case NetFinish(ok) =>
      if !s.net.NetBody? || s.net.o >= |s.tasks| || s.net.o >= |s.place| then None
      else if HoldsLock(s.registry, s.ipc, s.net.o) then None
      else Some(s.(net := NetIdle,
                   tasks := SetStatus(s.tasks, s.net.o, if ok then Finished else FinishedWithError),
                   place := s.place[s.net.o := Completed]))
    case NetContend =>
      if !(s.net.NetHeld? || s.net.NetBody?) || !HoldsLock(s.registry, s.ipc, s.net.o) || s.net.o in s.waiting then None
      else Some(s.(waiting := s.waiting + {s.net.o}))
    case _ => None
  }

  /** The steps of the pool's workers. */
  function WorkerStep(s: State, l: Label): Option<State> {
    match l
    case CheckDone(w) =>
      if w >= |s.workers| || !s.workers[w].AtLoop? then None
      else Some(s.(workers := s.workers[w := if s.done then Exited else Entering]))
    case Take(w) =>
      if w >= |s.workers| || !(s.workers[w].Entering? || s.workers[w].Notified?) then None
      else Some(DoTake(s, w))
    case Spurious(w) =>
      if w >= |s.workers| || !s.workers[w].Asleep? then None
      else Some(s.(workers := s.workers[w := Notified]))
    case Start(w) =>
      if w >= |s.workers| || !s.workers[w].Got? || s.workers[w].o >= |s.tasks| then None
      else if HoldsLock(s.registry, s.ipc, s.workers[w].o) then None
      else
        var o := s.workers[w].o;
        Some(s.(workers := s.workers[w := Body(o)], tasks := SetStatus(s.tasks, o, Running),
                starts := s.starts + [o]))
    case Transfer(w, sample) =>
      if w >= |s.workers| || !s.workers[w].Body? || s.workers[w].o >= |s.tasks| then None
      else if HoldsLock(s.registry, s.ipc, s.workers[w].o) then None
      else
        var o := s.workers[w].o;
        Some(s.(tasks := s.tasks[o := s.tasks[o].(bandwidth := sample)]))
    case Finish(w, ok) =>
      if w >= |s.workers| || !s.workers[w].Body? || s.workers[w].o >= |s.tasks| then None
      else if HoldsLock(s.registry, s.ipc, s.workers[w].o) then None
      else
        var o := s.workers[w].o;
        Some(s.(workers := s.workers[w := Epilog(o)],
                tasks := SetStatus(s.tasks, o, if ok then Finished else FinishedWithError)))
    case Contend(w) =>
      if w >= |s.workers| || !(s.workers[w].Got? || s.workers[w].Body?) then None
      else if !HoldsLock(s.registry, s.ipc, s.workers[w].o) || s.workers[w].o in s.waiting then None
      else Some(s.(waiting := s.waiting + {s.workers[w].o}))
    case RunEpilog(w) =>
      if w >= |s.workers| || !s.workers[w].Epilog? || !(s.workers[w].o < |s.tasks| == |s.place|) then None
      else Some(DoEpilog(s, w))
    case _ => None
  }

  predicate IsCreate(l: Label) { l.CreateRequest? || l.Register? || l.Enqueue? }

  predicate IsStatus(l: Label) { l.StatusRequest? || l.Snapshot? || l.Recheck? || l.RecheckError? || l.EraseEntry? }

  predicate IsScan(l: Label) {
    l.StatsRequest? || l.BeginScan? || l.ScanEntry? || l.HoldEntry? || l.ReadEntry? || l.EndScan?
  }

  predicate IsNet(l: Label) { l.NetRequest? || l.NetRegister? || l.NetStart? || l.NetFinish? || l.NetContend? }

  predicate IsWorker(l: Label) {
    l.CheckDone? || l.Take? || l.Spurious? || l.Start? || l.Transfer? || l.Finish? || l.RunEpilog? || l.Contend?
  }

  /** The state after one step, or `None` when the step cannot be taken. */
  function Step(s: State, l: Label): Option<State> {
    if IsWorker(l) then WorkerStep(s, l)
    else if IsNet(l) then NetStep(s, l)
    else if IsCreate(l) then CreateStep(s, l)
    else if IsStatus(l) then StatusStep(s, l)
    else if IsScan(l) then ScanStep(s, l)
    else CommandStep(s, l)
  }

  /** Label `i` leads from state `i` to the next one. */
  ghost predicate Follows(run: seq<State>, labels: seq<Label>, i: nat)
    requires i < |labels| < |run|
  {
    Step(run[i], labels[i]) == Some(run[i + 1])
  }

  /** A run: an interleaving of the threads' steps from the initial state. */
  ghost predicate IsRun(run: seq<State>, labels: seq<Label>) {
    && |run| == |labels| + 1
    && Init(run[0])
    && forall i :: 0 <= i < |labels| ==> Follows(run, labels, i)
  }
}
