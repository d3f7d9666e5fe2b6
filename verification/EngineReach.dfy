/** What a run can still come to: which tasks a worker can take up, and which of them make a request of
    the IPC thread go wrong. */
module EngineReach {
  import opened TaskStatus
  import opened Engine
  import opened EngineInvariant
  import opened EngineProofs
  import opened EngineFrames
  import opened EngineTheorems
  import opened EngineRegistry
  import opened EngineLocks
  import opened EngineStop

  /** The run goes on to a state in which no task has been created since. */
  ghost predicate GoesOn(run: seq<State>, labels: seq<Label>, run': seq<State>, labels': seq<Label>) {
    && IsRun(run, labels) && IsRun(run', labels') && run <= run' && labels <= labels'
    && |run'[|labels'|].tasks| == |run[|labels|].tasks|
  }

  lemma GoesFurther(run: seq<State>, labels: seq<Label>, run': seq<State>, labels': seq<Label>, l: Label, s': State)
    requires GoesOn(run, labels, run', labels') && Step(run'[|labels'|], l) == Some(s')
    requires |s'.tasks| == |run'[|labels'|].tasks|
    ensures GoesOn(run, labels, run' + [s'], labels' + [l])
  {
    Extend(run', labels', l, s');
  }

  // ---- a worker takes up the front of the queue ----

  /** How many steps a worker that is awake has before it locks the queue. */
  function StepsToQueue(w: Worker): nat {
    match w
    case AtLoop => 1
    case Epilog(_) => 2
    case Body(_) => 3
    case Got(_) => 4
    case _ => 0
  }

  predicate IsAwake(w: Worker) { !w.Asleep? && !w.Exited? }

  /** What stays the same while the workers work and the IPC thread waits for requests. */
  predicate SameButWork(s: State, t: State) {
    && t.ipc == s.ipc && t.net == s.net && t.registry == s.registry && |t.tasks| == |s.tasks|
    && |t.workers| == |s.workers| && t.valid == s.valid && t.done == s.done
  }

  lemma OneStepCloser(s: State, w: nat) returns (l: Label, s': State)
    requires Holding(s.tasks, s.place, s.workers) && !s.done
    requires s.ipc.Idle? && w < |s.workers| && IsAwake(s.workers[w]) && StepsToQueue(s.workers[w]) > 0
    ensures IsWorker(l) && Step(s, l) == Some(s') && SameButWork(s, s') && s'.queue == s.queue
    ensures IsAwake(s'.workers[w]) && StepsToQueue(s'.workers[w]) < StepsToQueue(s.workers[w])
  {
    assert HoldsWell(s.tasks, s.place, w, s.workers[w]);
    l := match s.workers[w]
      case AtLoop => CheckDone(w)
      case Got(_) => Start(w)
      case Body(_) => Finish(w, true)
      case _ => RunEpilog(w);
    s' := Step(s, l).value;
    WorkerFrame(s, l, s');
  }

  lemma TakesFront(s: State, w: nat) returns (s': State)
    requires s.valid && w < |s.workers| && (s.workers[w].Entering? || s.workers[w].Notified?) && s.queue != []
    ensures Step(s, Take(w)) == Some(s') && SameButWork(s, s')
    ensures s'.queue == s.queue[1..] && s'.workers[w] == Got(s.queue[0])
  {
    s' := Step(s, Take(w)).value;
  }

  lemma AtWork(run: seq<State>, labels: seq<Label>, i: nat)
    requires IsRun(run, labels) && i < |run| && run[i].ipc.Idle?
    ensures Holding(run[i].tasks, run[i].place, run[i].workers)
    ensures run[i].valid && !run[i].done
  {
    RunKeeps(run, labels, i);
  }

  /** A worker that is awake can finish what it is doing and take up the front of the queue. */
  lemma {:induction false} WorkerComes(run: seq<State>, labels: seq<Label>, w: nat)
    returns (run': seq<State>, labels': seq<Label>)
    requires IsRun(run, labels) && run[|labels|].ipc.Idle? && run[|labels|].queue != []
    requires w < |run[|labels|].workers| && IsAwake(run[|labels|].workers[w])
    ensures GoesOn(run, labels, run', labels')
    ensures var s, t := run[|labels|], run'[|labels'|];
      SameButWork(s, t) && t.queue == s.queue[1..] && t.workers[w] == Got(s.queue[0])
    decreases StepsToQueue(run[|labels|].workers[w])
  {
    var s := run[|labels|];
    AtWork(run, labels, |labels|);
    if StepsToQueue(s.workers[w]) == 0 {
      var s' := TakesFront(s, w);
      GoesFurther(run, labels, run, labels, Take(w), s');
      run', labels' := run + [s'], labels + [Take(w)];
    } else {
      var l, s' := OneStepCloser(s, w);
      GoesFurther(run, labels, run, labels, l, s');
      run', labels' := WorkerComes(run + [s'], labels + [l], w);
    }
  }

  lemma SomeoneAwake(run: seq<State>, labels: seq<Label>) returns (w: nat)
    requires IsRun(run, labels) && run[|labels|].ipc.Idle? && run[|labels|].queue != [] && run[|labels|].workers != []
    ensures w < |run[|labels|].workers| && IsAwake(run[|labels|].workers[w])
  {
    RunKeeps(run, labels, |labels|);
    w := QueueIsServed(run, labels, |labels|);
  }

  /** Every queued task can come into the hands of a worker, whatever is queued before it. */
  lemma {:induction false} QueuedIsTaken(run: seq<State>, labels: seq<Label>, k: nat)
    returns (run': seq<State>, labels': seq<Label>, w: nat)
    requires IsRun(run, labels) && run[|labels|].ipc.Idle? && run[|labels|].workers != [] && k < |run[|labels|].queue|
    ensures GoesOn(run, labels, run', labels') && SameButWork(run[|labels|], run'[|labels'|])
    ensures w < |run'[|labels'|].workers| && run'[|labels'|].workers[w] == Got(run[|labels|].queue[k])
    decreases k
  {
    w := SomeoneAwake(run, labels);
    run', labels' := WorkerComes(run, labels, w);
    if k > 0 {
      run', labels', w := QueuedIsTaken(run', labels', k - 1);
    }
  }

  // ---- who has a writer ----

  /** The task is unfinished and is not the leftover of a rejected request. */
  predicate Unfinished(s: State, o: Obj) {
    o < |s.tasks| && o < |s.place| && s.tasks[o].status.IsActive() && !s.place[o].Orphaned?
  }

  /** The worker that is to run the task has it, or the task is queued. */
  lemma WithAWorker(s: State, o: Obj) returns (w: nat, k: nat)
    requires Inv(s) && s.ipc.Idle? && Unfinished(s, o) && !s.place[o].WithNetwork?
    ensures if s.place[o].WithWorker? then w < |s.workers| && (s.workers[w] == Got(o) || s.workers[w] == Body(o))
            else k < |s.queue| && s.queue[k] == o
  {
    w, k := 0, 0;
    if s.place[o].WithWorker? {
      w := s.place[o].w;
      assert HoldsWell(s.tasks, s.place, w, s.workers[w]);
    } else {
      assert s.place[o].Queued?;
      k := s.place[o].ticket - |s.popped|;
    }
  }

  /** Every unfinished task of the pool can come into the hands of a worker. */
  lemma CanGetWorker(run: seq<State>, labels: seq<Label>, o: Obj)
    returns (run': seq<State>, labels': seq<Label>, w: nat)
    requires IsRun(run, labels) && run[|labels|].ipc.Idle? && run[|labels|].workers != []
    requires Unfinished(run[|labels|], o) && !run[|labels|].place[o].WithNetwork?
    ensures GoesOn(run, labels, run', labels') && SameButWork(run[|labels|], run'[|labels'|])
    ensures w < |run'[|labels'|].workers|
    ensures run'[|labels'|].workers[w] == Got(o) || run'[|labels'|].workers[w] == Body(o)
  {
    RunKeeps(run, labels, |labels|);
    var k;
    w, k := WithAWorker(run[|labels|], o);
    run', labels' := run, labels;
    if !run[|labels|].place[o].WithWorker? {
      run', labels', w := QueuedIsTaken(run, labels, k);
    }
  }

  // ---- deadlock ----

  lemma RequestShutdown(s: State)
    requires s.ipc.Idle?
    ensures Step(s, ShutdownRequest) == Some(s.(paused := true, ipc := ShutdownRequested))
  {
  }

  lemma BeginToScan(s: State)
    requires s.ipc.ShutdownRequested?
    ensures Step(s, BeginScan) == Some(s.(ipc := Scanning(ForShutdown, s.registry.Keys, 0, 0, s.tasks, None)))
  {
  }

  lemma HoldFirst(s: State, id: Id)
    requires s.ipc.Scanning? && s.ipc.purpose.ForShutdown? && s.ipc.held.None? && id in s.ipc.todo
    ensures Step(s, HoldEntry(id)) == Some(s.(ipc := s.ipc.(held := Some(id))))
  {
  }

  lemma RequestAndHold(s: State, o: Obj) returns (s1: State, s2: State, s3: State, id: Id)
    requires Registered(s.tasks, s.registry) && Locks(s.registry, s.ipc, s.waiting)
    requires s.ipc.Idle? && o < |s.tasks| && s.tasks[o].status.IsActive()
    ensures Step(s, ShutdownRequest) == Some(s1) && Step(s1, BeginScan) == Some(s2)
    ensures Step(s2, HoldEntry(id)) == Some(s3)
    ensures s3 == s.(paused := true, ipc := s3.ipc) && HoldsLock(s3.registry, s3.ipc, o) && s3.waiting == {}
    ensures s1.tasks == s2.tasks == s.tasks
  {
    id := s.tasks[o].id;
    NoWaiting(s.registry, s.ipc, s.waiting, false);
    RequestShutdown(s);
    s1 := s.(paused := true, ipc := ShutdownRequested);
    BeginToScan(s1);
    s2 := s1.(ipc := Scanning(ForShutdown, s.registry.Keys, 0, 0, s.tasks, None));
    HoldFirst(s2, id);
    s3 := s2.(ipc := s2.ipc.(held := Some(id)));
  }

  lemma ContendNow(s: State, o: Obj) returns (l: Label, s': State)
    requires HoldsLock(s.registry, s.ipc, o) && s.waiting == {} && HasWriter(s.workers, s.net, o)
    ensures Step(s, l) == Some(s') && Deadlocked(s', o) && s'.tasks == s.tasks
  {
    ContendIff(s, o);
    l :| Contends(s, l, o);
    s' := Step(s, l).value;
    assert s' == s.(waiting := s'.waiting);
  }

  lemma MakeDeadlock(run: seq<State>, labels: seq<Label>, o: Obj) returns (run': seq<State>, labels': seq<Label>)
    requires IsRun(run, labels) && run[|labels|].ipc.Idle? && o < |run[|labels|].tasks|
    requires run[|labels|].tasks[o].status.IsActive() && HasWriter(run[|labels|].workers, run[|labels|].net, o)
    ensures GoesOn(run, labels, run', labels') && Deadlocked(run'[|labels'|], o)
  {
    var s := run[|labels|];
    RunKeeps(run, labels, |labels|);
    var s1, s2, s3, id := RequestAndHold(s, o);
    var l, s4 := ContendNow(s3, o);
    GoesFurther(run, labels, run, labels, ShutdownRequest, s1);
    run', labels' := run + [s1], labels + [ShutdownRequest];
    GoesFurther(run, labels, run', labels', BeginScan, s2);
    run', labels' := run' + [s2], labels' + [BeginScan];
    GoesFurther(run, labels, run', labels', HoldEntry(id), s3);
    run', labels' := run' + [s3], labels' + [HoldEntry(id)];
    GoesFurther(run, labels, run', labels', l, s4);
    run', labels' := run' + [s4], labels' + [l];
  }

  /** The task is unfinished, and some thread has it or can get it. */
  predicate AtRisk(s: State, o: Obj) { Unfinished(s, o) && (s.workers != [] || s.place[o].WithNetwork?) }

  ghost predicate Deadlocks(run: seq<State>, labels: seq<Label>, run': seq<State>, labels': seq<Label>, o: Obj) {
    GoesOn(run, labels, run', labels') && Deadlocked(run'[|labels'|], o)
  }

  lemma WriterIsActive(s: State, o: Obj)
    requires Inv(s) && HasWriter(s.workers, s.net, o)
    ensures o < |s.tasks| == |s.place| && s.tasks[o].status.IsActive()
    ensures s.place[o].WithNetwork? || (s.place[o].WithWorker? && s.workers != [])
  {
    if w :| 0 <= w < |s.workers| && (s.workers[w] == Got(o) || s.workers[w] == Body(o)) {
      assert HoldsWell(s.tasks, s.place, w, s.workers[w]);
    }
  }

  lemma WriterOfRun(run: seq<State>, labels: seq<Label>, o: Obj)
    requires IsRun(run, labels) && HasWriter(run[|labels|].workers, run[|labels|].net, o)
    ensures var s := run[|labels|];
      && o < |s.tasks| == |s.place| && s.tasks[o].status.IsActive()
      && (s.place[o].WithNetwork? || (s.place[o].WithWorker? && s.workers != []))
  {
    RunKeeps(run, labels, |labels|);
    WriterIsActive(run[|labels|], o);
  }

  /** What was true of an object that is active now, before the run went on without new tasks. */
  lemma WasUnfinished(run: seq<State>, labels: seq<Label>, run': seq<State>, labels': seq<Label>, o: Obj)
    requires GoesOn(run, labels, run', labels') && Unfinished(run'[|labels'|], o)
    ensures Unfinished(run[|labels|], o) && |run'[|labels'|].workers| == |run[|labels|].workers|
    ensures run'[|labels'|].place[o].WithNetwork? ==> run[|labels|].place[o].WithNetwork?
    ensures run'[|labels'|].tasks[o].route == run[|labels|].tasks[o].route
  {
    var n := |labels|;
    assert run'[n] == run[n];
    RunProgress(run', labels', n, |labels'|);
    PlacesAndTasks(run', labels', n);
    PlaceHistory(run', labels', n, |labels'|, o);
    NotUndefined(run', labels', n, o);
  }

  lemma NotUndefined(run: seq<State>, labels: seq<Label>, i: nat, o: Obj)
    requires IsRun(run, labels) && i < |run| && o < |run[i].tasks|
    ensures !run[i].tasks[o].status.Undefined?
  {
    RunKeeps(run, labels, i);
  }

  lemma {:induction false} PlaceHistory(run: seq<State>, labels: seq<Label>, i: nat, j: nat, o: Obj)
    requires IsRun(run, labels) && i <= j < |run| && o < |run[i].place|
    ensures o < |run[j].place| && |run[j].workers| == |run[i].workers|
    ensures run[i].place[o].Orphaned? ==> run[j].place[o].Orphaned?
    ensures run[j].place[o].WithNetwork? ==> run[i].place[o].WithNetwork?
    decreases j - i
  {
    if i < j {
      PlaceHistory(run, labels, i, j - 1, o);
      OrphanStepIff(run, labels, j - 1, o);
      NetworkStep(run, labels, j - 1, o);
    }
  }

  lemma NetworkStep(run: seq<State>, labels: seq<Label>, i: nat, o: Obj)
    requires IsRun(run, labels) && i < |labels| && o < |run[i].place| && o < |run[i + 1].place|
    ensures run[i + 1].place[o].WithNetwork? ==> run[i].place[o].WithNetwork?
    ensures |run[i + 1].workers| == |run[i].workers|
  {
    var s, l, s' := run[i], labels[i], run[i + 1];
    assert Follows(run, labels, i);
    if IsWorker(l) {
      WorkerFrame(s, l, s');
    } else if IsNet(l) {
      NetFrame(s, l, s');
      NetPlaces(s, l, s', o);
    } else {
      IpcPlaces(s, l, s', o);
    }
  }

  lemma NetPlaces(s: State, l: Label, s': State, o: Obj)
    requires NetStep(s, l) == Some(s') && o < |s.place| && o < |s'.place|
    ensures s'.place[o].WithNetwork? ==> s.place[o].WithNetwork?
  {
  }

  lemma IpcPlaces(s: State, l: Label, s': State, o: Obj)
    requires !IsWorker(l) && !IsNet(l) && Step(s, l) == Some(s') && o < |s.place| && o < |s'.place|
    ensures s'.place[o].WithNetwork? ==> s.place[o].WithNetwork?
    ensures |s'.workers| == |s.workers|
  {
    IpcFrame(s, l, s');
  }

  lemma DeadlockWasAtRisk(run: seq<State>, labels: seq<Label>, run': seq<State>, labels': seq<Label>, o: Obj)
    requires Deadlocks(run, labels, run', labels', o)
    ensures AtRisk(run[|labels|], o)
  {
    WaitersAreWriters(run', labels', |labels'|, o);
    WriterOfRun(run', labels', o);
    WasUnfinished(run, labels, run', labels', o);
  }

  lemma AtRiskDeadlocks(run: seq<State>, labels: seq<Label>, o: Obj) returns (run': seq<State>, labels': seq<Label>)
    requires IsRun(run, labels) && run[|labels|].ipc.Idle? && AtRisk(run[|labels|], o)
    ensures Deadlocks(run, labels, run', labels', o)
  {
    run', labels' := run, labels;
    if !run[|labels|].place[o].WithNetwork? {
      var w;
      run', labels', w := CanGetWorker(run, labels, o);
      WriterOfRun(run', labels', o);
    } else {
      NetworkWrites(run, labels, o);
    }
    run', labels' := MakeDeadlock(run', labels', o);
  }

  lemma NetworkWrites(run: seq<State>, labels: seq<Label>, o: Obj)
    requires IsRun(run, labels) && o < |run[|labels|].place| && run[|labels|].place[o].WithNetwork?
    ensures HasWriter(run[|labels|].workers, run[|labels|].net, o)
  {
    RunKeeps(run, labels, |labels|);
  }

  /** While the IPC thread waits for requests: without any new task a shutdown request can deadlock if
      and only if there is an unfinished task, other than the leftover of a rejected request, that the
      network thread has or, if there are workers, that is in the pool. */
  lemma DeadlockReachableIff(run: seq<State>, labels: seq<Label>)
    requires IsRun(run, labels) && run[|labels|].ipc.Idle?
    ensures (exists run', labels', o :: Deadlocks(run, labels, run', labels', o)) <==>
            (exists o :: AtRisk(run[|labels|], o))
  {
    forall run', labels', o | Deadlocks(run, labels, run', labels', o) ensures AtRisk(run[|labels|], o) {
      DeadlockWasAtRisk(run, labels, run', labels', o);
    }
    if o :| AtRisk(run[|labels|], o) {
      var run', labels' := AtRiskDeadlocks(run, labels, o);
    }
  }

  // ---- statistics ----

  /** The visit of a running task that has no destination, whose namespace the scan then asks for. */
  ghost predicate UnsafeVisit(s: State, l: Label) {
    && l.ScanEntry? && Step(s, l).Some? && l.id in s.registry && s.registry[l.id] < |s.tasks|
    && s.tasks[s.registry[l.id]].status.Running? && s.tasks[s.registry[l.id]].route.1.None?
  }

  ghost predicate GoesWrong(run: seq<State>, labels: seq<Label>, run': seq<State>, labels': seq<Label>, l: Label) {
    GoesOn(run, labels, run', labels') && UnsafeVisit(run'[|labels'|], l)
  }

  /** An unfinished task of the pool that has no destination. */
  predicate OneSided(s: State, o: Obj) { Unfinished(s, o) && s.tasks[o].route.1.None? && s.workers != [] }

  /** What the network thread runs always has a destination. */
  lemma {:induction false} RemoteHasDestination(run: seq<State>, labels: seq<Label>, i: nat, o: Obj)
    requires IsRun(run, labels) && i < |run| && o < |run[i].place| && o < |run[i].tasks| && run[i].place[o].WithNetwork?
    ensures run[i].tasks[o].route.1.Some?
  {
    assert i > 0;
    PlacesAndTasks(run, labels, i - 1);
    if o < |run[i - 1].place| {
      NetworkStep(run, labels, i - 1, o);
      RunProgress(run, labels, i - 1, i);
      RemoteHasDestination(run, labels, i - 1, o);
    } else {
      NewRemote(run, labels, i - 1, o);
    }
  }

  lemma NewRemote(run: seq<State>, labels: seq<Label>, i: nat, o: Obj)
    requires IsRun(run, labels) && i < |labels| && |run[i].place| == |run[i].tasks| <= o
    requires o < |run[i + 1].place| && o < |run[i + 1].tasks| && run[i + 1].place[o].WithNetwork?
    ensures run[i + 1].tasks[o].route.1.Some?
  {
    var s, l, s' := run[i], labels[i], run[i + 1];
    assert Follows(run, labels, i);
    if IsWorker(l) {
      WorkerFrame(s, l, s');
    } else if IsNet(l) {
      NewFromNetwork(s, l, s', o);
    } else {
      NewFromIpc(s, l, s', o);
    }
  }

  lemma NewFromNetwork(s: State, l: Label, s': State, o: Obj)
    requires NetStep(s, l) == Some(s') && |s.place| == |s.tasks| <= o < |s'.tasks|
    ensures s'.tasks[o].route.1.Some?
  {
  }

  lemma NewFromIpc(s: State, l: Label, s': State, o: Obj)
    requires !IsWorker(l) && !IsNet(l) && Step(s, l) == Some(s') && |s.place| == |s.tasks| <= o < |s'.place|
    ensures !s'.place[o].WithNetwork?
  {
    IpcFrame(s, l, s');
  }

  lemma RunningHasWriter(run: seq<State>, labels: seq<Label>, o: Obj)
    requires IsRun(run, labels) && o < |run[|labels|].tasks| && run[|labels|].tasks[o].status.Running?
    ensures var s := run[|labels|];
      Unfinished(s, o) && (s.place[o].WithNetwork? || s.workers != [])
  {
    RunKeeps(run, labels, |labels|);
  }

  lemma WrongWasOneSided(run: seq<State>, labels: seq<Label>, run': seq<State>, labels': seq<Label>, l: Label)
    requires GoesWrong(run, labels, run', labels', l)
    ensures OneSided(run[|labels|], run'[|labels'|].registry[l.id])
  {
    var o := run'[|labels'|].registry[l.id];
    RunningHasWriter(run', labels', o);
    WasUnfinished(run, labels, run', labels', o);
    if run'[|labels'|].place[o].WithNetwork? {
      RemoteHasDestination(run', labels', |labels'|, o);
    }
  }

  lemma BeginRunning(s: State, w: nat, o: Obj) returns (s': State)
    requires Inv(s) && s.ipc.Idle? && w < |s.workers| && s.workers[w] == Got(o)
    ensures Step(s, Start(w)) == Some(s') && SameButWork(s, s')
    ensures o < |s.tasks| && s'.tasks[o] == s.tasks[o].(status := Running)
  {
    assert HoldsWell(s.tasks, s.place, w, s.workers[w]);
    s' := Step(s, Start(w)).value;
  }

  lemma StatsNow(s: State, o: Obj) returns (s': State, id: Id)
    requires Registered(s.tasks, s.registry) && s.ipc.Idle?
    requires o < |s.tasks| && s.tasks[o].status.Running? && s.tasks[o].route.1.None?
    ensures Step(s, StatsRequest) == Some(s') && s'.tasks == s.tasks && UnsafeVisit(s', ScanEntry(id))
  {
    id := s.tasks[o].id;
    s' := s.(ipc := Scanning(ForStats, s.registry.Keys, 0, 0, s.tasks, None));
  }

  lemma AskForStats(run: seq<State>, labels: seq<Label>, o: Obj)
    returns (run': seq<State>, labels': seq<Label>, l: Label)
    requires IsRun(run, labels) && run[|labels|].ipc.Idle? && o < |run[|labels|].tasks|
    requires run[|labels|].tasks[o].status.Running? && run[|labels|].tasks[o].route.1.None?
    ensures GoesWrong(run, labels, run', labels', l)
  {
    RunKeeps(run, labels, |labels|);
    var s', id := StatsNow(run[|labels|], o);
    GoesFurther(run, labels, run, labels, StatsRequest, s');
    run', labels', l := run + [s'], labels + [StatsRequest], ScanEntry(id);
  }

  lemma OneSidedRuns(run: seq<State>, labels: seq<Label>, o: Obj) returns (run': seq<State>, labels': seq<Label>)
    requires IsRun(run, labels) && run[|labels|].ipc.Idle? && OneSided(run[|labels|], o)
    ensures GoesOn(run, labels, run', labels')
    ensures var t := run'[|labels'|];
      t.ipc.Idle? && o < |t.tasks| && t.tasks[o].status.Running? && t.tasks[o].route.1.None?
  {
    NotWithNetwork(run, labels, o);
    var w;
    run', labels', w := CanGetWorker(run, labels, o);
    RunKeeps(run', labels', |labels'|);
    var t := run'[|labels'|];
    assert HoldsWell(t.tasks, t.place, w, t.workers[w]);
    RunProgress(run', labels', |labels|, |labels'|);
    assert run'[|labels|] == run[|labels|];
    if t.workers[w] == Got(o) {
      var s' := BeginRunning(t, w, o);
      GoesFurther(run, labels, run', labels', Start(w), s');
      run', labels' := run' + [s'], labels' + [Start(w)];
    }
  }

  lemma NotWithNetwork(run: seq<State>, labels: seq<Label>, o: Obj)
    requires IsRun(run, labels) && OneSided(run[|labels|], o)
    ensures !run[|labels|].place[o].WithNetwork?
  {
    if run[|labels|].place[o].WithNetwork? {
      RemoteHasDestination(run, labels, |labels|, o);
    }
  }

  lemma OneSidedGoesWrong(run: seq<State>, labels: seq<Label>, o: Obj)
    returns (run': seq<State>, labels': seq<Label>, l: Label)
    requires IsRun(run, labels) && run[|labels|].ipc.Idle? && OneSided(run[|labels|], o)
    ensures GoesWrong(run, labels, run', labels', l)
  {
    run', labels' := OneSidedRuns(run, labels, o);
    run', labels', l := AskForStats(run', labels', o);
  }

  /** While the IPC thread waits for requests: without any new task a statistics request can come to ask
      for the namespace of a destination that is not there if and only if an unfinished task of a pool
      with workers, other than the leftover of a rejected request, has no destination. */
  lemma StatsUnsafeIff(run: seq<State>, labels: seq<Label>)
    requires IsRun(run, labels) && run[|labels|].ipc.Idle?
    ensures (exists run', labels', l :: GoesWrong(run, labels, run', labels', l)) <==>
            (exists o :: OneSided(run[|labels|], o))
  {
    forall run', labels', l | GoesWrong(run, labels, run', labels', l)
      ensures exists o :: OneSided(run[|labels|], o)
    {
      WrongWasOneSided(run, labels, run', labels', l);
    }
    if o :| OneSided(run[|labels|], o) {
      var run', labels', l := OneSidedGoesWrong(run, labels, o);
    }
  }
}
