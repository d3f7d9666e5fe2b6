/** What every step of the engine keeps, part by part. Each part names the components of the state
    that it speaks of, so that a step which leaves them alone keeps it. */
module EngineInvariant {
  import opened TaskStatus
  import opened Engine

  ghost predicate Defined(tasks: seq<Task>) {
    forall o :: 0 <= o < |tasks| ==> !tasks[o].status.Undefined?
  }

  /** Every entry leads to an object that carries the entry's own id, and every object that is
      pending or running is registered. */
  ghost predicate Registered(tasks: seq<Task>, registry: map<Id, Obj>) {
    && (forall id :: id in registry ==> registry[id] < |tasks| && tasks[registry[id]].id == id)
    && (forall o :: 0 <= o < |tasks| && tasks[o].status.IsActive() ==>
          tasks[o].id in registry && registry[tasks[o].id] == o)
  }

  /** The queue is the part of the push history that has not been popped. */
  ghost predicate Fifo(place: seq<Place>, queue: seq<Obj>, pushed: seq<Obj>, popped: seq<Obj>) {
    && pushed == popped + queue
    && (forall k :: 0 <= k < |pushed| ==> pushed[k] < |place|)
    && (forall k :: |popped| <= k < |pushed| ==> place[pushed[k]] == Queued(k))
    && (forall o :: 0 <= o < |place| && place[o].Queued? ==>
          |popped| <= place[o].ticket < |pushed| && pushed[place[o].ticket] == o)
  }

  /** What a worker's position says about the task it holds. */
  predicate HoldsWell(tasks: seq<Task>, place: seq<Place>, w: int, worker: Worker)
    requires |place| == |tasks|
  {
    match worker
    case Got(o) => o < |tasks| && 0 <= w && place[o] == WithWorker(w) && tasks[o].status.Pending?
    case Body(o) => o < |tasks| && 0 <= w && place[o] == WithWorker(w) && tasks[o].status.Running?
    case Epilog(o) => o < |tasks| && 0 <= w && place[o] == WithWorker(w) && tasks[o].status.IsTerminal()
    case _ => true
  }

  ghost predicate Holding(tasks: seq<Task>, place: seq<Place>, workers: seq<Worker>) {
    && |place| == |tasks|
    && (forall w :: 0 <= w < |workers| ==> HoldsWell(tasks, place, w, workers[w]))
    && (forall o :: 0 <= o < |place| && place[o].WithWorker? ==>
          place[o].w < |workers| && workers[place[o].w].Holds(o))
  }

  /** Objects that no thread is running are pending before, and terminal after, their run; a
      remotely initiated task never enters the pool. */
  ghost predicate Resting(tasks: seq<Task>, place: seq<Place>) {
    && |place| == |tasks|
    && (forall o :: 0 <= o < |place| && (place[o].Handed? || place[o].Queued? || place[o].Orphaned?) ==>
          tasks[o].status.Pending?)
    && (forall o :: 0 <= o < |place| && place[o].Completed? ==> tasks[o].status.IsTerminal())
    && (forall o :: 0 <= o < |place| && tasks[o].remote ==>
          place[o].WithNetwork? || place[o].Completed? || place[o].Orphaned?)
  }

  ghost predicate WithIpc(place: seq<Place>, ipc: Ipc) {
    && (ipc.HandOff? ==> ipc.o < |place| && place[ipc.o].Handed?)
    && (forall o :: 0 <= o < |place| && place[o].Handed? ==> ipc == HandOff(o))
  }

  ghost predicate WithNet(tasks: seq<Task>, place: seq<Place>, net: Net) {
    && |place| == |tasks|
    && (net.NetHeld? ==> net.o < |tasks| && place[net.o].WithNetwork? && tasks[net.o].status.Pending?)
    && (net.NetBody? ==> net.o < |tasks| && place[net.o].WithNetwork? && tasks[net.o].status.Running?)
    && (forall o :: 0 <= o < |place| && place[o].WithNetwork? ==> net == NetHeld(o) || net == NetBody(o))
  }

  /** A body has begun once for each object that is no longer pending, and never for another. */
  ghost predicate StartedOnce(tasks: seq<Task>, starts: seq<Obj>) {
    forall o: Obj :: multiset(starts)[o] == if o < |tasks| && !tasks[o].status.Pending? then 1 else 0
  }

  /** The status handler's object is still the one registered under its id, and what was reported
      is a point of its life not later than now. */
  ghost predicate Answering(tasks: seq<Task>, registry: map<Id, Obj>, ipc: Ipc) {
    && (ipc.Found? || ipc.Reported? || ipc.Rechecked? || ipc.Erasing? ==>
          ipc.tid in registry && registry[ipc.tid] == ipc.o && ipc.o < |tasks|)
    && (ipc.Reported? || ipc.Rechecked? || ipc.Erasing? ==>
          MayBecome(ipc.rep, tasks[ipc.o].status) && !ipc.rep.Undefined?)
    && (ipc.Erasing? ==> tasks[ipc.o].status.IsTerminal())
  }

  ghost function NotifiedSet(workers: seq<Worker>): set<int> {
    set w | 0 <= w < |workers| && workers[w].Notified?
  }

  /** No wake-up is lost: the sleepers that a valid queue leaves unnotified have nothing to wait
      for, and an invalid queue has no sleepers. */
  ghost predicate Awake(valid: bool, queue: seq<Obj>, workers: seq<Worker>) {
    && (valid && SomeAsleep(workers) ==> |queue| <= |NotifiedSet(workers)|)
    && (!valid ==> !SomeAsleep(workers))
  }

  predicate MeansPaused(ipc: Ipc) {
    || ipc.ShutdownRequested? || ipc.NoneActive? || ipc.Refusing?
    || (ipc.Scanning? && ipc.purpose.ForShutdown?)
    || ((ipc.Closing? || ipc.DoneSet? || ipc.Invalidated?) && ipc.clean)
  }

  predicate Flags(done: bool, valid: bool, paused: bool, ipc: Ipc) {
    && (done <==> ipc.DoneSet? || ipc.Invalidated?)
    && (valid <==> !ipc.Invalidated?)
    && (MeansPaused(ipc) ==> paused)
  }

  /** The ids of `ids` whose object is pending. */
  ghost function PendingIn(ids: set<Id>, registry: map<Id, Obj>, tasks: seq<Task>): set<Id> {
    set id | id in ids && id in registry && registry[id] < |tasks| && tasks[registry[id]].status.Pending?
  }

  /** The ids of `ids` whose object is pending or running. */
  ghost function ActiveIn(ids: set<Id>, registry: map<Id, Obj>, tasks: seq<Task>): set<Id> {
    set id | id in ids && id in registry && registry[id] < |tasks| && tasks[registry[id]].status.IsActive()
  }

  /** Every task of `before` is still there and has only moved forward. */
  ghost predicate Progress(before: seq<Task>, after: seq<Task>) {
    && |before| <= |after|
    && forall o :: 0 <= o < |before| ==>
         && MayBecome(before[o].status, after[o].status)
         && before[o].id == after[o].id && before[o].runAs == after[o].runAs
         && before[o].remote == after[o].remote && before[o].route == after[o].route
  }

  /** The counts of a scan lie between what was true of the entries visited so far when the scan
      began and what is true of them now. */
  ghost predicate Scans(tasks: seq<Task>, registry: map<Id, Obj>, ipc: Ipc) {
    ipc.Scanning? ==>
      var seen := registry.Keys - ipc.todo;
      && ipc.todo <= registry.Keys
      && Progress(ipc.start, tasks)
      && (forall id :: id in registry ==> registry[id] < |ipc.start|)
      && |PendingIn(seen, registry, tasks)| <= ipc.pending <= |PendingIn(seen, registry, ipc.start)|
      && |ActiveIn(seen, registry, tasks)| <= ipc.pending + ipc.running <= |ActiveIn(seen, registry, ipc.start)|
  }

  /** Only the scan of a shutdown request holds an entry's lock, and one that it still has to read;
      a writer waits only for that lock. */
  ghost predicate Locks(registry: map<Id, Obj>, ipc: Ipc, waiting: set<Obj>) {
    && (ipc.Scanning? && ipc.held.Some? ==> ipc.purpose.ForShutdown? && ipc.held.value in ipc.todo)
    && (forall o :: o in waiting ==> HoldsLock(registry, ipc, o))
  }

  /** Nothing local is active. */
  ghost predicate LocalsEnded(tasks: seq<Task>) {
    forall o :: 0 <= o < |tasks| && !tasks[o].remote ==> tasks[o].status.IsTerminal()
  }

  /** The scan of a shutdown request has counted nothing and the daemon has not resumed. */
  predicate ShutdownGranted(ipc: Ipc) {
    ipc.NoneActive? || ((ipc.Closing? || ipc.DoneSet? || ipc.Invalidated?) && ipc.clean)
  }

  ghost predicate Inv(s: State) {
    && |s.workers| == s.cfg.workers
    && Defined(s.tasks)
    && Registered(s.tasks, s.registry)
    && Fifo(s.place, s.queue, s.pushed, s.popped)
    && Holding(s.tasks, s.place, s.workers)
    && Resting(s.tasks, s.place)
    && WithIpc(s.place, s.ipc)
    && WithNet(s.tasks, s.place, s.net)
    && StartedOnce(s.tasks, s.starts)
    && Answering(s.tasks, s.registry, s.ipc)
    && Awake(s.valid, s.queue, s.workers)
    && Flags(s.done, s.valid, s.paused, s.ipc)
    && Scans(s.tasks, s.registry, s.ipc)
    && Locks(s.registry, s.ipc, s.waiting)
    && (ShutdownGranted(s.ipc) ==> LocalsEnded(s.tasks))
  }
}
