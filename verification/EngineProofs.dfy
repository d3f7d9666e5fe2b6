/** Every step keeps the invariant. */
module EngineProofs {
  import opened TaskStatus
  import opened TaskRules
  import opened WorkQueues
  import opened Engine
  import opened EngineInvariant

  lemma InitHolds(s: State)
    requires Init(s)
    ensures Inv(s)
  {
  }

  // ---- one component at a time ----

  lemma SubsetSize<T>(a: set<T>, b: set<T>)
    requires a <= b
    ensures |a| <= |b|
  {
    assert b == a + (b - a);
  }

  lemma OneMember(a: set<int>, w: int)
    ensures |a + {w}| == |a| + if w in a then 0 else 1
    ensures |a - {w}| == |a| - if w in a then 1 else 0
  {
    if w in a {
      assert a + {w} == a;
    } else {
      assert a - {w} == a;
    }
  }

  lemma NotifiedUpdate(workers: seq<Worker>, w: nat, x: Worker)
    requires w < |workers|
    ensures NotifiedSet(workers[w := x]) ==
            if x.Notified? then NotifiedSet(workers) + {w} else NotifiedSet(workers) - {w}
    ensures |NotifiedSet(workers[w := x])| ==
            |NotifiedSet(workers)| + (if x.Notified? then 1 else 0) - (if workers[w].Notified? then 1 else 0)
  {
    NotifiedAfter(workers, w, x);
    OneMember(NotifiedSet(workers), w);
  }

  lemma NotifiedAfter(workers: seq<Worker>, w: nat, x: Worker)
    requires w < |workers|
    ensures NotifiedSet(workers[w := x]) ==
            if x.Notified? then NotifiedSet(workers) + {w} else NotifiedSet(workers) - {w}
  {
    var before, after := NotifiedSet(workers), NotifiedSet(workers[w := x]);
    forall v ensures v in after <==> if x.Notified? then v in before + {w} else v in before - {w} {
    }
  }

  lemma ProgressTransitive(a: seq<Task>, b: seq<Task>, c: seq<Task>)
    requires Progress(a, b) && Progress(b, c)
    ensures Progress(a, c)
  {
    forall o | 0 <= o < |a|
      ensures MayBecome(a[o].status, c[o].status)
      ensures a[o].id == c[o].id && a[o].runAs == c[o].runAs
      ensures a[o].remote == c[o].remote && a[o].route == c[o].route
    {
      assert MayBecome(b[o].status, c[o].status);
    }
  }

  /** Progress of the tasks alone keeps everything that the registry's readers rely on. */
  lemma ProgressKeeps(tasks: seq<Task>, after: seq<Task>, registry: map<Id, Obj>, ipc: Ipc)
    requires Progress(tasks, after) && |tasks| == |after|
    requires Defined(tasks) && Registered(tasks, registry) && Answering(tasks, registry, ipc)
    requires Scans(tasks, registry, ipc)
    ensures Defined(after) && Registered(after, registry) && Answering(after, registry, ipc)
    ensures Scans(after, registry, ipc)
    ensures LocalsEnded(tasks) ==> LocalsEnded(after)
  {
    assert Registered(after, registry) by {
      forall o | 0 <= o < |after| && after[o].status.IsActive()
        ensures after[o].id in registry && registry[after[o].id] == o
      {
        assert tasks[o].status.IsActive();
      }
    }
    if ipc.Scanning? {
      ProgressTransitive(ipc.start, tasks, after);
      var seen := registry.Keys - ipc.todo;
      SubsetSize(PendingIn(seen, registry, after), PendingIn(seen, registry, tasks));
      SubsetSize(ActiveIn(seen, registry, after), ActiveIn(seen, registry, tasks));
    }
  }

  /** A status write on the task of worker `w`. */
  lemma WorkerWrites(tasks: seq<Task>, place: seq<Place>, workers: seq<Worker>, net: Net, w: nat, o: Obj, t: Task,
                     x: Worker)
    requires Holding(tasks, place, workers) && Resting(tasks, place) && WithNet(tasks, place, net)
    requires w < |workers| && workers[w].Holds(o) && o < |tasks| && place[o] == WithWorker(w)
    requires t.remote == tasks[o].remote && x.Holds(o)
    requires HoldsWell(tasks[o := t], place, w, x)
    ensures Holding(tasks[o := t], place, workers[w := x])
    ensures Resting(tasks[o := t], place) && WithNet(tasks[o := t], place, net)
  {
    var after := tasks[o := t];
    var moved := workers[w := x];
    forall v | 0 <= v < |workers| ensures HoldsWell(after, place, v, moved[v]) {
      assert HoldsWell(tasks, place, v, workers[v]);
    }
  }

  /** A task changes hands from or to a worker that is not running a body. */
  lemma WorkerMoves(tasks: seq<Task>, place: seq<Place>, workers: seq<Worker>, w: nat, x: Worker)
    requires Holding(tasks, place, workers) && w < |workers|
    requires !workers[w].Got? && !workers[w].Body? && !workers[w].Epilog?
    requires !x.Got? && !x.Body? && !x.Epilog?
    ensures Holding(tasks, place, workers[w := x])
  {
    var moved := workers[w := x];
    forall v | 0 <= v < |workers| ensures HoldsWell(tasks, place, v, moved[v]) {
      assert HoldsWell(tasks, place, v, workers[v]);
    }
  }

  lemma StartCounts(tasks: seq<Task>, starts: seq<Obj>, o: Obj, t: Task)
    requires o < |tasks| && StartedOnce(tasks, starts) && tasks[o].status.Pending? && !t.status.Pending?
    ensures StartedOnce(tasks[o := t], starts + [o])
  {
    assert multiset(starts + [o]) == multiset(starts) + multiset{o};
  }

  // ---- the IPC thread ----

  /** A step of the IPC thread that touches nothing but its own position and the two flags. */
  lemma IpcMoves(s: State, ipc: Ipc, paused: bool, done: bool)
    requires Inv(s)
    requires WithIpc(s.place, ipc) && Answering(s.tasks, s.registry, ipc) && Flags(done, s.valid, paused, ipc)
    requires Scans(s.tasks, s.registry, ipc) && Locks(s.registry, ipc, s.waiting)
    requires ShutdownGranted(ipc) ==> LocalsEnded(s.tasks)
    ensures Inv(s.(ipc := ipc, paused := paused, done := done))
  {
  }

  lemma KeepsErase(s: State, l: Label, s': State)
    requires Inv(s) && l.EraseEntry? && StatusStep(s, l) == Some(s')
    ensures Inv(s')
  {
  }

  lemma StatusAnswers(tasks: seq<Task>, registry: map<Id, Obj>, ipc: Ipc, l: Label, after: Ipc)
    requires Defined(tasks) && Registered(tasks, registry) && Answering(tasks, registry, ipc)
    requires AnswerStep(tasks, registry, ipc, l) == Some(after)
    ensures Answering(tasks, registry, after)
    ensures after.Idle? || after.Found? || after.Reported? || after.Rechecked? || after.Erasing?
    ensures ipc.Idle? || ipc.Found? || ipc.Reported? || ipc.Rechecked?
  {
  }

  lemma KeepsStatus(s: State, l: Label, s': State)
    requires Inv(s) && IsStatus(l) && !l.EraseEntry? && StatusStep(s, l) == Some(s')
    ensures Inv(s')
  {
    StatusAnswers(s.tasks, s.registry, s.ipc, l, s'.ipc);
    IpcMoves(s, s'.ipc, s.paused, s.done);
  }

  lemma CommandMoves(s: State, l: Label, s': State)
    requires Flags(s.done, s.valid, s.paused, s.ipc) && (ShutdownGranted(s.ipc) ==> LocalsEnded(s.tasks))
    requires !l.InvalidateQueue? && CommandStep(s, l) == Some(s')
    ensures s' == s.(ipc := s'.ipc, paused := s'.paused, done := s'.done)
    ensures Flags(s'.done, s.valid, s'.paused, s'.ipc) && (ShutdownGranted(s'.ipc) ==> LocalsEnded(s.tasks))
    ensures !s.ipc.HandOff? && !s'.ipc.HandOff? && !s'.ipc.Scanning?
    ensures !s'.ipc.Found? && !s'.ipc.Reported? && !s'.ipc.Rechecked? && !s'.ipc.Erasing?
  {
  }

  lemma KeepsCommand(s: State, l: Label, s': State)
    requires Inv(s) && !l.InvalidateQueue? && CommandStep(s, l) == Some(s')
    ensures Inv(s')
  {
    CommandMoves(s, l, s');
    IpcMoves(s, s'.ipc, s'.paused, s'.done);
  }

  lemma KeepsCreateRequest(s: State, l: Label, s': State)
    requires Inv(s) && l.CreateRequest? && CreateStep(s, l) == Some(s')
    ensures Inv(s')
  {
    IpcMoves(s, s'.ipc, s.paused, s.done);
  }

  // ---- creation ----

  /** Registering a pending object under a free id, at rest or with one of the creating threads. */
  lemma NewObject(tasks: seq<Task>, place: seq<Place>, registry: map<Id, Obj>, workers: seq<Worker>, starts: seq<Obj>,
                  queue: seq<Obj>, pushed: seq<Obj>, popped: seq<Obj>, t: Task, p: Place)
    requires Defined(tasks) && Registered(tasks, registry) && Holding(tasks, place, workers) && Resting(tasks, place)
    requires StartedOnce(tasks, starts) && Fifo(place, queue, pushed, popped)
    requires t.id !in registry && t.status.Pending?
    requires p.Orphaned? || (p.Handed? && !t.remote) || (p.WithNetwork? && t.remote)
    ensures Defined(tasks + [t]) && Registered(tasks + [t], registry[t.id := |tasks|])
    ensures Holding(tasks + [t], place + [p], workers) && Resting(tasks + [t], place + [p])
    ensures StartedOnce(tasks + [t], starts) && Fifo(place + [p], queue, pushed, popped)
  {
    var after, there, entries := tasks + [t], place + [p], registry[t.id := |tasks|];
    forall v | 0 <= v < |workers| ensures HoldsWell(after, there, v, workers[v]) {
      assert HoldsWell(tasks, place, v, workers[v]);
    }
    forall o | 0 <= o < |after| && after[o].status.IsActive()
      ensures after[o].id in entries && entries[after[o].id] == o
    {
    }
  }

  /** The other threads' positions stay right when an object is appended. */
  lemma NewForThreads(tasks: seq<Task>, place: seq<Place>, registry: map<Id, Obj>, ipc: Ipc, net: Net, t: Task,
                      p: Place)
    requires WithIpc(place, ipc) && WithNet(tasks, place, net) && Answering(tasks, registry, ipc)
    requires t.id !in registry && t.status.Pending?
    ensures !p.WithNetwork? ==> WithNet(tasks + [t], place + [p], net)
    ensures p.WithNetwork? && !net.NetHeld? && !net.NetBody? ==> WithNet(tasks + [t], place + [p], NetHeld(|tasks|))
    ensures !p.Handed? ==> WithIpc(place + [p], ipc)
    ensures p.Handed? && !ipc.HandOff? ==> WithIpc(place + [p], HandOff(|place|))
    ensures Answering(tasks + [t], registry[t.id := |tasks|], ipc)
  {
  }

  /** The whole invariant, for a new object `t` at `p` and the creating thread's new position. */
  lemma KeepsInsert(s: State, t: Task, p: Place, ipc: Ipc, net: Net)
    requires Inv(s) && !s.ipc.Scanning? && !ipc.Scanning?
    requires t.id !in s.registry && t.status.Pending?
    requires p.Orphaned? || (p.Handed? && !t.remote) || (p.WithNetwork? && t.remote)
    requires WithIpc(s.place + [p], ipc) && WithNet(s.tasks + [t], s.place + [p], net)
    requires Answering(s.tasks + [t], s.registry[t.id := |s.tasks|], ipc)
    requires Flags(s.done, s.valid, s.paused, ipc) && (ShutdownGranted(ipc) ==> LocalsEnded(s.tasks + [t]))
    ensures Inv(s.(idBase := t.id, registry := s.registry[t.id := |s.tasks|], tasks := s.tasks + [t],
                   place := s.place + [p], ipc := ipc, net := net))
  {
    NewObject(s.tasks, s.place, s.registry, s.workers, s.starts, s.queue, s.pushed, s.popped, t, p);
    NoWaiting(s.registry, s.ipc, s.waiting, false);
  }

  lemma KeepsRegister(s: State, l: Label, s': State)
    requires Inv(s) && l.Register? && CreateStep(s, l) == Some(s')
    ensures Inv(s')
  {
    var id := NextId(s.idBase);
    if id in s.registry {
      IpcMoves(s, Idle, s.paused, s.done);
    } else {
      var t, p := s'.tasks[|s.tasks|], s'.place[|s.place|];
      NewForThreads(s.tasks, s.place, s.registry, s.ipc, s.net, t, p);
      KeepsInsert(s, t, p, s'.ipc, s.net);
    }
  }

  lemma KeepsNetRegister(s: State, l: Label, s': State)
    requires Inv(s) && l.NetRegister? && NetStep(s, l) == Some(s')
    ensures Inv(s')
  {
    var id := NextId(s.idBase);
    if id !in s.registry {
      var t, p := s'.tasks[|s.tasks|], s'.place[|s.place|];
      NewForThreads(s.tasks, s.place, s.registry, s.ipc, s.net, t, p);
      KeepsInsert(s, t, p, s.ipc, s'.net);
    }
  }

  /** Pushing moves the object from the creating thread to the back of the queue. */
  lemma BackMoves(tasks: seq<Task>, place: seq<Place>, workers: seq<Worker>, net: Net, o: Obj,
                  queue: seq<Obj>, pushed: seq<Obj>, popped: seq<Obj>)
    requires Holding(tasks, place, workers) && Resting(tasks, place) && WithIpc(place, HandOff(o))
    requires WithNet(tasks, place, net)
    requires Fifo(place, queue, pushed, popped)
    ensures Holding(tasks, place[o := Queued(|pushed|)], workers) && Resting(tasks, place[o := Queued(|pushed|)])
    ensures WithIpc(place[o := Queued(|pushed|)], Idle) && WithNet(tasks, place[o := Queued(|pushed|)], net)
    ensures Fifo(place[o := Queued(|pushed|)], queue + [o], pushed + [o], popped)
  {
    var there := place[o := Queued(|pushed|)];
    assert pushed + [o] == popped + (queue + [o]);
    forall v | 0 <= v < |workers| ensures HoldsWell(tasks, there, v, workers[v]) {
      assert HoldsWell(tasks, place, v, workers[v]);
    }
  }

  lemma KeepsEnqueue(s: State, l: Label, s': State)
    requires Inv(s) && l.Enqueue? && CreateStep(s, l) == Some(s')
    ensures Inv(s')
  {
    BackMoves(s.tasks, s.place, s.workers, s.net, s.ipc.o, s.queue, s.pushed, s.popped);
    if SomeAsleep(s.workers) {
      NotifiedUpdate(s.workers, l.wake, Notified);
      WorkerMoves(s.tasks, s'.place, s.workers, l.wake, Notified);
    }
  }

  // ---- scans ----

  lemma SeenOne(ids: set<Id>, id: Id, registry: map<Id, Obj>, tasks: seq<Task>)
    requires id in registry && registry[id] < |tasks| && id !in ids
    ensures |PendingIn(ids + {id}, registry, tasks)| ==
            |PendingIn(ids, registry, tasks)| + (if tasks[registry[id]].status.Pending? then 1 else 0)
    ensures |ActiveIn(ids + {id}, registry, tasks)| ==
            |ActiveIn(ids, registry, tasks)| + (if tasks[registry[id]].status.IsActive() then 1 else 0)
  {
    SeenPending(ids, id, registry, tasks);
    SeenActive(ids, id, registry, tasks);
  }

  lemma SeenPending(ids: set<Id>, id: Id, registry: map<Id, Obj>, tasks: seq<Task>)
    requires id in registry && registry[id] < |tasks| && id !in ids
    ensures |PendingIn(ids + {id}, registry, tasks)| ==
            |PendingIn(ids, registry, tasks)| + (if tasks[registry[id]].status.Pending? then 1 else 0)
  {
    if tasks[registry[id]].status.Pending? {
      assert PendingIn(ids + {id}, registry, tasks) == PendingIn(ids, registry, tasks) + {id};
    } else {
      assert PendingIn(ids + {id}, registry, tasks) == PendingIn(ids, registry, tasks);
    }
  }

  lemma SeenActive(ids: set<Id>, id: Id, registry: map<Id, Obj>, tasks: seq<Task>)
    requires id in registry && registry[id] < |tasks| && id !in ids
    ensures |ActiveIn(ids + {id}, registry, tasks)| ==
            |ActiveIn(ids, registry, tasks)| + (if tasks[registry[id]].status.IsActive() then 1 else 0)
  {
    if tasks[registry[id]].status.IsActive() {
      assert ActiveIn(ids + {id}, registry, tasks) == ActiveIn(ids, registry, tasks) + {id};
    } else {
      assert ActiveIn(ids + {id}, registry, tasks) == ActiveIn(ids, registry, tasks);
    }
  }

  lemma ScanCounts(tasks: seq<Task>, registry: map<Id, Obj>, ipc: Ipc, id: Id)
    requires ipc.Scanning? && Scans(tasks, registry, ipc) && id in ipc.todo && registry[id] < |tasks|
    ensures var st := tasks[registry[id]].status;
      Scans(tasks, registry, ipc.(todo := ipc.todo - {id}, pending := ipc.pending + (if st.Pending? then 1 else 0),
                                  running := ipc.running + (if st.Running? then 1 else 0), held := None))
  {
    var seen := registry.Keys - ipc.todo;
    SeenOne(seen, id, registry, tasks);
    SeenOne(seen, id, registry, ipc.start);
    assert registry.Keys - (ipc.todo - {id}) == seen + {id};
    assert MayBecome(ipc.start[registry[id]].status, tasks[registry[id]].status);
  }

  lemma ScanMoves(s: State, l: Label, s': State)
    requires (l.ScanEntry? || l.ReadEntry?) && ScanStep(s, l) == Some(s')
    requires Scans(s.tasks, s.registry, s.ipc) && Locks(s.registry, s.ipc, s.waiting)
    ensures s' == s.(ipc := s'.ipc) && Scans(s.tasks, s.registry, s'.ipc) && Locks(s.registry, s'.ipc, s.waiting)
    ensures s.ipc.Scanning? && s'.ipc.Scanning? && s'.ipc.purpose == s.ipc.purpose
  {
    ScanCounts(s.tasks, s.registry, s.ipc, if l.ScanEntry? then l.id else s.ipc.held.value);
    NoWaiting(s.registry, s.ipc, s.waiting, l.ReadEntry?);
  }

  /** Nobody waits while no lock is held, nor when the holder can read. */
  lemma NoWaiting(registry: map<Id, Obj>, ipc: Ipc, waiting: set<Obj>, reading: bool)
    requires Locks(registry, ipc, waiting)
    requires reading ==>
      ipc.Scanning? && ipc.held.Some? && ipc.held.value in registry && registry[ipc.held.value] !in waiting
    requires !reading ==> !ipc.Scanning? || ipc.held.None? || ipc.purpose.ForStats?
    ensures waiting == {}
  {
  }

  lemma KeepsHoldEntry(s: State, l: Label, s': State)
    requires Inv(s) && l.HoldEntry? && ScanStep(s, l) == Some(s')
    ensures Inv(s')
  {
    NoWaiting(s.registry, s.ipc, s.waiting, false);
    KeepsScanning(s, s'.ipc);
  }

  lemma KeepsScanEntry(s: State, l: Label, s': State)
    requires Inv(s) && (l.ScanEntry? || l.ReadEntry?) && ScanStep(s, l) == Some(s')
    ensures Inv(s')
  {
    ScanMoves(s, l, s');
    KeepsScanning(s, s'.ipc);
  }

  lemma KeepsScanning(s: State, ipc: Ipc)
    requires Inv(s) && s.ipc.Scanning? && ipc.Scanning? && ipc.purpose == s.ipc.purpose
    requires Scans(s.tasks, s.registry, ipc) && Locks(s.registry, ipc, s.waiting)
    ensures Inv(s.(ipc := ipc))
  {
    IpcMoves(s, ipc, s.paused, s.done);
  }

  lemma ScanStarts(s: State, l: Label, s': State)
    requires Registered(s.tasks, s.registry)
    requires (l.StatsRequest? || l.BeginScan?) && ScanStep(s, l) == Some(s')
    ensures s' == s.(ipc := s'.ipc) && Scans(s.tasks, s.registry, s'.ipc)
    ensures s'.ipc.Scanning?
    ensures if l.BeginScan? then s.ipc.ShutdownRequested? else s.ipc.Idle? && s'.ipc.purpose.ForStats?
  {
    assert s.registry.Keys - s'.ipc.todo == {};
    assert PendingIn({}, s.registry, s.tasks) == {} && ActiveIn({}, s.registry, s.tasks) == {};
  }

  lemma KeepsScanBegin(s: State, l: Label, s': State)
    requires Inv(s) && (l.StatsRequest? || l.BeginScan?) && ScanStep(s, l) == Some(s')
    ensures Inv(s')
  {
    ScanStarts(s, l, s');
    IpcMoves(s, s'.ipc, s.paused, s.done);
  }

  /** A scan that counted nothing leaves no active task at all: every active object is registered,
      every entry was visited, and a task seen terminal stays so. */
  lemma CountedNothing(tasks: seq<Task>, registry: map<Id, Obj>, ipc: Ipc)
    requires Registered(tasks, registry) && Defined(tasks) && Scans(tasks, registry, ipc)
    requires ipc.Scanning? && ipc.todo == {} && ipc.pending + ipc.running == 0
    ensures forall o :: 0 <= o < |tasks| ==> tasks[o].status.IsTerminal()
  {
    var active := ActiveIn(registry.Keys - ipc.todo, registry, tasks);
    assert active == {};
    forall o | 0 <= o < |tasks| && tasks[o].status.IsActive() ensures tasks[o].id in active {
    }
  }

  lemma ScanEnds(s: State, l: Label, s': State)
    requires Registered(s.tasks, s.registry) && Defined(s.tasks) && Scans(s.tasks, s.registry, s.ipc)
    requires l.EndScan? && ScanStep(s, l) == Some(s')
    ensures s' == s.(ipc := s'.ipc) && s.ipc.Scanning? && s.ipc.todo == {}
    ensures s'.ipc.NoneActive? ==> LocalsEnded(s.tasks)
    ensures s'.ipc.Idle? || (s.ipc.purpose.ForShutdown? && (s'.ipc.NoneActive? || s'.ipc.Refusing?))
  {
    if s'.ipc.NoneActive? {
      CountedNothing(s.tasks, s.registry, s.ipc);
    }
  }

  lemma KeepsScanEnd(s: State, l: Label, s': State)
    requires Inv(s) && l.EndScan? && ScanStep(s, l) == Some(s')
    ensures Inv(s')
  {
    ScanEnds(s, l, s');
    KeepsVerdict(s, s'.ipc);
  }

  lemma KeepsVerdict(s: State, ipc: Ipc)
    requires Inv(s) && s.ipc.Scanning? && s.ipc.todo == {}
    requires ipc.Idle? || (s.ipc.purpose.ForShutdown? && (ipc.Refusing? || (ipc.NoneActive? && LocalsEnded(s.tasks))))
    ensures Inv(s.(ipc := ipc))
  {
    NoWaiting(s.registry, s.ipc, s.waiting, false);
    IpcMoves(s, ipc, s.paused, s.done);
  }

  // ---- the workers ----

  lemma KeepsInvalidate(s: State, l: Label, s': State)
    requires Inv(s) && l.InvalidateQueue? && CommandStep(s, l) == Some(s')
    ensures Inv(s')
  {
  }

  lemma KeepsLoop(s: State, l: Label, s': State)
    requires Inv(s) && (l.CheckDone? || l.Spurious?) && WorkerStep(s, l) == Some(s')
    ensures Inv(s')
  {
    WorkerMoves(s.tasks, s.place, s.workers, l.w, s'.workers[l.w]);
    NotifiedUpdate(s.workers, l.w, s'.workers[l.w]);
    assert SomeAsleep(s'.workers) ==> SomeAsleep(s.workers);
  }

  /** Popping hands the front of the queue to worker `w`. */
  lemma FrontMoves(tasks: seq<Task>, place: seq<Place>, workers: seq<Worker>, ipc: Ipc, net: Net, w: nat,
                   queue: seq<Obj>, pushed: seq<Obj>, popped: seq<Obj>)
    requires Holding(tasks, place, workers) && Resting(tasks, place) && WithIpc(place, ipc)
    requires WithNet(tasks, place, net)
    requires Fifo(place, queue, pushed, popped) && queue != []
    requires w < |workers| && (workers[w].Entering? || workers[w].Notified?)
    ensures queue[0] < |place|
    ensures Holding(tasks, place[queue[0] := WithWorker(w)], workers[w := Got(queue[0])])
    ensures Resting(tasks, place[queue[0] := WithWorker(w)]) && WithIpc(place[queue[0] := WithWorker(w)], ipc)
    ensures WithNet(tasks, place[queue[0] := WithWorker(w)], net)
    ensures Fifo(place[queue[0] := WithWorker(w)], queue[1..], pushed, popped + [queue[0]])
  {
    var o := queue[0];
    assert pushed[|popped|] == o;
    var there, moved := place[o := WithWorker(w)], workers[w := Got(o)];
    assert (popped + [o]) + queue[1..] == pushed;
    forall v | 0 <= v < |workers| ensures HoldsWell(tasks, there, v, moved[v]) {
      assert HoldsWell(tasks, place, v, workers[v]);
    }
  }

  lemma KeepsTake(s: State, l: Label, s': State)
    requires Inv(s) && l.Take? && WorkerStep(s, l) == Some(s')
    ensures Inv(s')
  {
    NotifiedUpdate(s.workers, l.w, s'.workers[l.w]);
    if TakeFront(s.queue, s.valid).Popped? {
      FrontMoves(s.tasks, s.place, s.workers, s.ipc, s.net, l.w, s.queue, s.pushed, s.popped);
      assert SomeAsleep(s'.workers) ==> SomeAsleep(s.workers);
    } else {
      WorkerMoves(s.tasks, s.place, s.workers, l.w, s'.workers[l.w]);
      assert TakeFront(s.queue, s.valid).Refused? ==> !SomeAsleep(s'.workers);
    }
  }

  /** The whole invariant, for a write `t` of worker `w` to its object and the worker's new position. */
  lemma KeepsWrite(s: State, w: nat, o: Obj, t: Task, x: Worker, starts: seq<Obj>)
    requires Inv(s) && w < |s.workers| && s.workers[w].Holds(o) && o < |s.tasks| && s.place[o] == WithWorker(w)
    requires x.Holds(o) && HoldsWell(s.tasks[o := t], s.place, w, x)
    requires MayBecome(s.tasks[o].status, t.status)
    requires t.id == s.tasks[o].id && t.runAs == s.tasks[o].runAs
    requires t.remote == s.tasks[o].remote && t.route == s.tasks[o].route
    requires StartedOnce(s.tasks[o := t], starts)
    ensures Inv(s.(workers := s.workers[w := x], tasks := s.tasks[o := t], starts := starts))
  {
    WorkerWrites(s.tasks, s.place, s.workers, s.net, w, o, t, x);
    ProgressKeeps(s.tasks, s.tasks[o := t], s.registry, s.ipc);
    StaysAwake(s.valid, s.queue, s.workers, w, x);
  }

  /** A worker that was not notified can go anywhere but to sleep. */
  lemma StaysAwake(valid: bool, queue: seq<Obj>, workers: seq<Worker>, w: nat, x: Worker)
    requires Awake(valid, queue, workers) && w < |workers| && !workers[w].Notified? && !x.Asleep?
    ensures Awake(valid, queue, workers[w := x])
  {
    NotifiedUpdate(workers, w, x);
    assert SomeAsleep(workers[w := x]) ==> SomeAsleep(workers);
  }

  lemma KeepsStart(s: State, l: Label, s': State)
    requires Inv(s) && l.Start? && WorkerStep(s, l) == Some(s')
    ensures Inv(s')
  {
    var o := s.workers[l.w].o;
    assert HoldsWell(s.tasks, s.place, l.w, s.workers[l.w]);
    StartCounts(s.tasks, s.starts, o, s'.tasks[o]);
    KeepsWrite(s, l.w, o, s'.tasks[o], Body(o), s'.starts);
  }

  lemma KeepsFinish(s: State, l: Label, s': State)
    requires Inv(s) && l.Finish? && WorkerStep(s, l) == Some(s')
    ensures Inv(s')
  {
    var o := s.workers[l.w].o;
    assert HoldsWell(s.tasks, s.place, l.w, s.workers[l.w]);
    KeepsWrite(s, l.w, o, s'.tasks[o], Epilog(o), s.starts);
  }

  lemma KeepsTransfer(s: State, l: Label, s': State)
    requires Inv(s) && l.Transfer? && WorkerStep(s, l) == Some(s')
    ensures Inv(s')
  {
    var o := s.workers[l.w].o;
    assert HoldsWell(s.tasks, s.place, l.w, s.workers[l.w]);
    assert s.workers[l.w := s.workers[l.w]] == s.workers;
    KeepsWrite(s, l.w, o, s'.tasks[o], s.workers[l.w], s.starts);
  }

  /** The end of an epilog retires the task of worker `w`. */
  lemma TaskRetires(tasks: seq<Task>, place: seq<Place>, workers: seq<Worker>, ipc: Ipc, net: Net, w: nat, o: Obj,
                    queue: seq<Obj>, pushed: seq<Obj>, popped: seq<Obj>)
    requires Holding(tasks, place, workers) && Resting(tasks, place) && WithIpc(place, ipc)
    requires WithNet(tasks, place, net)
    requires Fifo(place, queue, pushed, popped)
    requires w < |workers| && workers[w] == Epilog(o)
    ensures o < |place|
    ensures Holding(tasks, place[o := Completed], workers[w := AtLoop])
    ensures Resting(tasks, place[o := Completed]) && WithIpc(place[o := Completed], ipc)
    ensures WithNet(tasks, place[o := Completed], net) && Fifo(place[o := Completed], queue, pushed, popped)
  {
    assert HoldsWell(tasks, place, w, workers[w]);
    var there, moved := place[o := Completed], workers[w := AtLoop];
    forall v | 0 <= v < |workers| ensures HoldsWell(tasks, there, v, moved[v]) {
      assert HoldsWell(tasks, place, v, workers[v]);
    }
  }

  lemma KeepsEpilog(s: State, l: Label, s': State)
    requires Inv(s) && l.RunEpilog? && WorkerStep(s, l) == Some(s')
    ensures Inv(s')
  {
    KeepsRetire(s, l.w, s.workers[l.w].o, s'.backlog, s'.completions);
  }

  lemma KeepsRetire(s: State, w: nat, o: Obj, backlog: Backlog, completions: seq<Completion>)
    requires Inv(s) && w < |s.workers| && s.workers[w] == Epilog(o) && o < |s.place|
    ensures Inv(s.(workers := s.workers[w := AtLoop], place := s.place[o := Completed],
                   backlog := backlog, completions := completions))
  {
    TaskRetires(s.tasks, s.place, s.workers, s.ipc, s.net, w, o, s.queue, s.pushed, s.popped);
    StaysAwake(s.valid, s.queue, s.workers, w, AtLoop);
  }

  // ---- the network thread ----

  /** A status write on the network thread's task, which moves from `p` to `q`. */
  lemma NetWrites(tasks: seq<Task>, place: seq<Place>, workers: seq<Worker>, ipc: Ipc, queue: seq<Obj>,
                  pushed: seq<Obj>,
                  popped: seq<Obj>, o: Obj, t: Task, q: Place)
    requires Holding(tasks, place, workers) && Resting(tasks, place) && WithIpc(place, ipc)
    requires Fifo(place, queue, pushed, popped)
    requires o < |tasks| && place[o].WithNetwork? && t.remote == tasks[o].remote
    requires q.WithNetwork? || (q.Completed? && t.status.IsTerminal())
    ensures Holding(tasks[o := t], place[o := q], workers) && Resting(tasks[o := t], place[o := q])
    ensures WithIpc(place[o := q], ipc) && Fifo(place[o := q], queue, pushed, popped)
  {
    var after, there := tasks[o := t], place[o := q];
    forall v | 0 <= v < |workers| ensures HoldsWell(after, there, v, workers[v]) {
      assert HoldsWell(tasks, place, v, workers[v]);
    }
  }

  lemma KeepsNetStart(s: State, l: Label, s': State)
    requires Inv(s) && l.NetStart? && NetStep(s, l) == Some(s')
    ensures Inv(s')
  {
    var o := s.net.o;
    NetWrites(s.tasks, s.place, s.workers, s.ipc, s.queue, s.pushed, s.popped, o, s'.tasks[o], WithNetwork);
    assert s.place[o := WithNetwork] == s.place;
    ProgressKeeps(s.tasks, s'.tasks, s.registry, s.ipc);
    StartCounts(s.tasks, s.starts, o, s'.tasks[o]);
  }

  lemma KeepsNetFinish(s: State, l: Label, s': State)
    requires Inv(s) && l.NetFinish? && NetStep(s, l) == Some(s')
    ensures Inv(s')
  {
    var o := s.net.o;
    NetWrites(s.tasks, s.place, s.workers, s.ipc, s.queue, s.pushed, s.popped, o, s'.tasks[o], Completed);
    ProgressKeeps(s.tasks, s'.tasks, s.registry, s.ipc);
  }

  /** A writer begins to wait. */
  lemma KeepsContend(s: State, l: Label, s': State)
    requires Inv(s) && (l.Contend? || l.NetContend?) && Step(s, l) == Some(s')
    ensures Inv(s')
  {
  }

  lemma KeepsNetRequest(s: State, l: Label, s': State)
    requires Inv(s) && l.NetRequest? && NetStep(s, l) == Some(s')
    ensures Inv(s')
  {
  }

  // ---- all of them ----

  lemma WorkerKeeps(s: State, l: Label, s': State)
    requires Inv(s) && IsWorker(l) && WorkerStep(s, l) == Some(s')
    ensures Inv(s')
  {
    match l
    case CheckDone(_) => KeepsLoop(s, l, s');
    case Spurious(_) => KeepsLoop(s, l, s');
    case Take(_) => KeepsTake(s, l, s');
    case Start(_) => KeepsStart(s, l, s');
    case Transfer(_, _) => KeepsTransfer(s, l, s');
    case Finish(_, _) => KeepsFinish(s, l, s');
    case RunEpilog(_) => KeepsEpilog(s, l, s');
    case Contend(_) => KeepsContend(s, l, s');
  }

  lemma NetKeeps(s: State, l: Label, s': State)
    requires Inv(s) && IsNet(l) && NetStep(s, l) == Some(s')
    ensures Inv(s')
  {
    match l
    case NetRequest => KeepsNetRequest(s, l, s');
    case NetRegister(_, _) => KeepsNetRegister(s, l, s');
    case NetStart => KeepsNetStart(s, l, s');
    case NetFinish(_) => KeepsNetFinish(s, l, s');
    case NetContend => KeepsContend(s, l, s');
  }

  lemma StepKeeps(s: State, l: Label, s': State)
    requires Inv(s) && Step(s, l) == Some(s')
    ensures Inv(s')
  {
    if IsWorker(l) {
      WorkerKeeps(s, l, s');
    } else if IsNet(l) {
      NetKeeps(s, l, s');
    } else if l.CreateRequest? {
      KeepsCreateRequest(s, l, s');
    } else if l.Register? {
      KeepsRegister(s, l, s');
    } else if l.Enqueue? {
      KeepsEnqueue(s, l, s');
    } else if l.EraseEntry? {
      KeepsErase(s, l, s');
    } else if IsStatus(l) {
      KeepsStatus(s, l, s');
    } else if l.ScanEntry? || l.ReadEntry? {
      KeepsScanEntry(s, l, s');
    } else if l.HoldEntry? {
      KeepsHoldEntry(s, l, s');
    } else if l.EndScan? {
      KeepsScanEnd(s, l, s');
    } else if IsScan(l) {
      KeepsScanBegin(s, l, s');
    } else if l.InvalidateQueue? {
      KeepsInvalidate(s, l, s');
    } else {
      KeepsCommand(s, l, s');
    }
  }

  /** A run goes on with any step that its last state can take. */
  lemma Extend(run: seq<State>, labels: seq<Label>, l: Label, s': State)
    requires IsRun(run, labels) && Step(run[|labels|], l) == Some(s')
    ensures IsRun(run + [s'], labels + [l])
  {
    var run', labels' := run + [s'], labels + [l];
    forall i | 0 <= i < |labels'| ensures Follows(run', labels', i) {
      if i < |labels| {
        assert Follows(run, labels, i);
      }
    }
  }

  lemma KeepsNext(run: seq<State>, labels: seq<Label>, i: nat)
    requires IsRun(run, labels) && 0 < i < |run| && Inv(run[i - 1])
    ensures Inv(run[i])
  {
    assert Follows(run, labels, i - 1);
    StepKeeps(run[i - 1], labels[i - 1], run[i]);
  }

  lemma KeepsFirst(run: seq<State>, labels: seq<Label>)
    requires IsRun(run, labels)
    ensures Inv(run[0])
  {
    InitHolds(run[0]);
  }

  /** The invariant holds in every state of every run. */
  lemma {:induction false} RunKeeps(run: seq<State>, labels: seq<Label>, i: nat)
    requires IsRun(run, labels) && i < |run|
    ensures Inv(run[i])
  {
    if i == 0 {
      KeepsFirst(run, labels);
    } else {
      RunKeeps(run, labels, i - 1);
      KeepsNext(run, labels, i);
    }
  }
}
