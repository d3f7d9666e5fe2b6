/** Runs that show what can happen: from the initial state, step by step. */
module EngineWitness {
  import opened TaskStatus
  import opened TaskRules
  import opened Engine
  import opened EngineProofs
  import opened EngineRegistry
  import opened EngineLocks

  const NOOP := Request(Noop, false, false, "", None)

  const COPY_WITHOUT_TRANSFEROR := Request(Copy, false, true, "", Some(""))

  lemma StartRun(cfg: Config)
    ensures IsRun([Initially(cfg)], [])
  {
  }

  // ---- submission ----

  /** No worker has gone to sleep and the IPC thread waits for requests. */
  predicate Ready(s: State) {
    s.ipc.Idle? && !s.paused && |s.place| == |s.tasks| && !SomeAsleep(s.workers)
  }

  function NewTask(s: State): Task { Task(NextId(s.idBase), Noop, false, Pending, None, ("", None)) }

  /** A no-op is registered and has to be pushed. */
  function Registering(s: State): State {
    s.(idBase := NextId(s.idBase), registry := s.registry[NextId(s.idBase) := |s.tasks|],
       tasks := s.tasks + [NewTask(s)], place := s.place + [Handed], ipc := HandOff(|s.tasks|))
  }

  /** A no-op is registered and queued. */
  function Submitted(s: State): State {
    s.(idBase := NextId(s.idBase), registry := s.registry[NextId(s.idBase) := |s.tasks|],
       tasks := s.tasks + [NewTask(s)], place := s.place + [Queued(|s.pushed|)],
       queue := s.queue + [|s.tasks|], pushed := s.pushed + [|s.tasks|])
  }

  lemma RegisterStep(s: State)
    requires Ready(s) && NextId(s.idBase) !in s.registry
    ensures Step(s, CreateRequest(NOOP)) == Some(s.(ipc := Admitted(NOOP)))
    ensures Step(s.(ipc := Admitted(NOOP)), Register) == Some(Registering(s))
  {
  }

  lemma EnqueueStep(s: State)
    requires Ready(s) && NextId(s.idBase) !in s.registry
    ensures Step(Registering(s), Enqueue(0)) == Some(Submitted(s))
  {
    assert (s.place + [Handed])[|s.tasks| := Queued(|s.pushed|)] == s.place + [Queued(|s.pushed|)];
  }

  lemma Submit(run: seq<State>, labels: seq<Label>) returns (run': seq<State>, labels': seq<Label>)
    requires IsRun(run, labels) && Ready(run[|labels|]) && NextId(run[|labels|].idBase) !in run[|labels|].registry
    ensures IsRun(run', labels') && run <= run' && run'[|labels'|] == Submitted(run[|labels|])
  {
    var s := run[|labels|];
    RegisterStep(s);
    EnqueueStep(s);
    Extend(run, labels, CreateRequest(NOOP), s.(ipc := Admitted(NOOP)));
    run', labels' := run + [s.(ipc := Admitted(NOOP))], labels + [CreateRequest(NOOP)];
    Extend(run', labels', Register, Registering(s));
    run', labels' := run' + [Registering(s)], labels' + [Register];
    Extend(run', labels', Enqueue(0), Submitted(s));
    run', labels' := run' + [Submitted(s)], labels' + [Enqueue(0)];
  }

  // ---- the counter comes round ----

  ghost predicate Loaded(s: State, n: Id) {
    && Ready(s) && s.idBase == n
    && forall id :: id in s.registry <==> 1 <= id <= n
  }

  /** Every value of the counter is reachable with all smaller ids in use, whatever the settings. */
  lemma {:induction false} CounterReaches(cfg: Config, n: Id) returns (run: seq<State>, labels: seq<Label>)
    ensures IsRun(run, labels) && run[0].cfg == cfg && Loaded(run[|labels|], n)
    decreases n
  {
    if n == 0 {
      StartRun(cfg);
      run, labels := [Initially(cfg)], [];
    } else {
      run, labels := CounterReaches(cfg, n - 1);
      assert NextId(n - 1) == n;
      run, labels := Submit(run, labels);
    }
  }

  /** A task with id 0 is reachable: it is registered, pending and queued like any other. */
  lemma IdZeroReachable(cfg: Config) returns (run: seq<State>, labels: seq<Label>, o: Obj)
    ensures IsRun(run, labels) && run[0].cfg == cfg
    ensures var s := run[|labels|];
      && o < |s.tasks| == |s.place| && s.tasks[o].id == 0 && s.tasks[o].status.Pending?
      && 0 in s.registry && s.registry[0] == o && s.place[o].Queued?
  {
    run, labels := CounterReaches(cfg, 0xFFFF_FFFF);
    o := |run[|labels|].tasks|;
    run, labels := Submit(run, labels);
  }

  /** A registration yields id 0 if and only if the counter is at its last value and 0 is free. */
  lemma IdZeroIff(run: seq<State>, labels: seq<Label>, i: nat)
    requires IsRun(run, labels) && i < |labels| && (labels[i].Register? || labels[i].NetRegister?)
    ensures (|run[i + 1].tasks| > |run[i].tasks| && run[i + 1].tasks[|run[i].tasks|].id == 0) <==>
            run[i].idBase == 0xFFFF_FFFF && 0 !in run[i].registry
  {
    CreationInserts(run, labels, i);
  }

  // ---- a rejected request ----

  /** Two steps from the beginning a copy that no transferor can carry out has left its entry. */
  lemma RejectionHappens(cfg: Config) returns (run: seq<State>, labels: seq<Label>)
    ensures IsRun(run, labels) && run[0].cfg == cfg
    ensures labels == [CreateRequest(COPY_WITHOUT_TRANSFEROR), Register] && Rejects(run, labels, 1, 0)
  {
    StartRun(cfg);
    var s := Initially(cfg);
    var req := COPY_WITHOUT_TRANSFEROR;
    var s1 := s.(ipc := Admitted(req));
    Extend([s], [], CreateRequest(req), s1);
    var s2 := DoRegister(s1, false, ("", Some("")), Rejected(NotSupported));
    Extend([s, s1], [CreateRequest(req)], Register, s2);
    run, labels := [s, s1, s2], [CreateRequest(req), Register];
    assert [s] + [s1] == [s, s1] && [s, s1] + [s2] == run;
    assert [CreateRequest(req)] + [Register] == labels && [] + [CreateRequest(req)] == [CreateRequest(req)];
  }

  // ---- one task in the hands of a worker ----

  lemma Go(run: seq<State>, labels: seq<Label>, l: Label, s': State) returns (run': seq<State>, labels': seq<Label>)
    requires IsRun(run, labels) && Step(run[|labels|], l) == Some(s')
    ensures IsRun(run', labels') && run' == run + [s'] && labels' == labels + [l] && run'[|labels'|] == s'
  {
    Extend(run, labels, l, s');
    run', labels' := run + [s'], labels + [l];
  }

  function Queueing(cfg: Config): State { Submitted(Initially(cfg)) }

  /** The only task has been popped by the first worker. */
  function Popping(cfg: Config): State
    requires cfg.workers > 0
  {
    var s := Queueing(cfg);
    s.(workers := s.workers[0 := Got(0)], queue := [], popped := [0], place := [WithWorker(0)])
  }

  lemma EnteringStep(cfg: Config)
    requires cfg.workers > 0
    ensures var s := Queueing(cfg);
      Step(s, CheckDone(0)) == Some(s.(workers := s.workers[0 := Entering]))
  {
  }

  lemma PoppingStep(cfg: Config)
    requires cfg.workers > 0
    ensures var s := Queueing(cfg);
      Step(s.(workers := s.workers[0 := Entering]), Take(0)) == Some(Popping(cfg))
  {
    var s := Queueing(cfg);
    assert s.queue == [0] && s.queue[1..] == [] && s.popped + [0] == [0];
    assert s.workers[0 := Entering][0 := Got(0)] == s.workers[0 := Got(0)];
    assert s.place[0 := WithWorker(0)] == [WithWorker(0)];
  }

  lemma PoppingReachable(cfg: Config) returns (run: seq<State>, labels: seq<Label>)
    requires cfg.workers > 0
    ensures IsRun(run, labels) && run[0] == Initially(cfg) && run[|labels|] == Popping(cfg)
  {
    StartRun(cfg);
    run, labels := Submit([Initially(cfg)], []);
    var s := Queueing(cfg);
    EnteringStep(cfg);
    PoppingStep(cfg);
    run, labels := Go(run, labels, CheckDone(0), s.(workers := s.workers[0 := Entering]));
    run, labels := Go(run, labels, Take(0), Popping(cfg));
  }

  // ---- a shutdown request that never ends ----

  /** The shutdown request holds the lock of the only task. */
  function HoldingLock(cfg: Config): State
    requires cfg.workers > 0
  {
    var s := Popping(cfg);
    s.(paused := true, ipc := Scanning(ForShutdown, {1}, 0, 0, s.tasks, Some(1)))
  }

  lemma HoldingSteps(cfg: Config)
    requires cfg.workers > 0
    ensures var s := Popping(cfg);
      var s1 := s.(paused := true, ipc := ShutdownRequested);
      var s2 := s.(paused := true, ipc := Scanning(ForShutdown, {1}, 0, 0, s.tasks, None));
      && Step(s, ShutdownRequest) == Some(s1) && Step(s1, BeginScan) == Some(s2)
      && Step(s2, HoldEntry(1)) == Some(HoldingLock(cfg))
  {
    assert Popping(cfg).registry.Keys == {1};
  }

  lemma ContendStep(cfg: Config)
    requires cfg.workers > 0
    ensures Step(HoldingLock(cfg), Contend(0)) == Some(HoldingLock(cfg).(waiting := {0}))
    ensures Deadlocked(HoldingLock(cfg).(waiting := {0}), 0)
  {
    var s := HoldingLock(cfg);
    assert s.registry[1] == 0 && s.workers[0] == Got(0);
    assert s.waiting + {0} == {0};
  }

  /** With any settings and at least one worker, a shutdown request can meet a worker that is about
      to start its task, and then neither ever goes on. */
  lemma DeadlockHappens(cfg: Config) returns (run: seq<State>, labels: seq<Label>)
    requires cfg.workers > 0
    ensures IsRun(run, labels) && run[0] == Initially(cfg) && Deadlocked(run[|labels|], 0)
  {
    run, labels := PoppingReachable(cfg);
    var s := Popping(cfg);
    HoldingSteps(cfg);
    ContendStep(cfg);
    run, labels := Go(run, labels, ShutdownRequest, s.(paused := true, ipc := ShutdownRequested));
    run, labels := Go(run, labels, BeginScan,
      s.(paused := true, ipc := Scanning(ForShutdown, {1}, 0, 0, s.tasks, None)));
    run, labels := Go(run, labels, HoldEntry(1), HoldingLock(cfg));
    run, labels := Go(run, labels, Contend(0), HoldingLock(cfg).(waiting := {0}));
  }

  // ---- a report that is older than the erasure ----

  function WithStatus(st: Status): seq<Task> { [Task(1, Noop, false, st, None, ("", None))] }

  /** The body of the only task is running. */
  function InBody(cfg: Config): State
    requires cfg.workers > 0
  {
    var s := Popping(cfg);
    s.(workers := s.workers[0 := Body(0)], tasks := WithStatus(Running), starts := [0])
  }

  /** It has ended after its status was read. */
  function EndedMeanwhile(cfg: Config): State
    requires cfg.workers > 0
  {
    var s := InBody(cfg);
    s.(workers := s.workers[0 := Epilog(0)], tasks := WithStatus(Finished), ipc := Reported(1, 0, Running))
  }

  lemma BodySteps(cfg: Config)
    requires cfg.workers > 0
    ensures Step(Popping(cfg), Start(0)) == Some(InBody(cfg))
  {
    var s := Popping(cfg);
    assert s.workers[0] == Got(0);
    assert SetStatus(s.tasks, 0, Running) == WithStatus(Running);
    assert s.starts + [0] == [0];
  }

  lemma ReportSteps(cfg: Config)
    requires cfg.workers > 0
    ensures var s := InBody(cfg);
      var s1, s2 := s.(ipc := Found(1, 0)), s.(ipc := Reported(1, 0, Running));
      Step(s, StatusRequest(1)) == Some(s1) && Step(s1, Snapshot) == Some(s2)
  {
    assert InBody(cfg).registry[1] == 0;
  }

  lemma FinishStep(cfg: Config)
    requires cfg.workers > 0
    ensures Step(InBody(cfg).(ipc := Reported(1, 0, Running)), Finish(0, true)) == Some(EndedMeanwhile(cfg))
  {
    var s := InBody(cfg);
    assert s.workers[0] == Body(0);
    assert SetStatus(s.tasks, 0, Finished) == WithStatus(Finished);
  }

  lemma EraseSteps(cfg: Config)
    requires cfg.workers > 0
    ensures var s := EndedMeanwhile(cfg);
      var s1 := s.(ipc := Erasing(1, 0, Running));
      Step(s, Recheck) == Some(s1) && Step(s1, EraseEntry) == Some(s.(registry := map[], ipc := Idle))
  {
    assert EndedMeanwhile(cfg).registry - {1} == map[];
  }

  /** A client can be told "running" by the very request that erases the finished task's entry, and when
      it asks again there is no such task. */
  lemma StaleReportHappens(cfg: Config) returns (run: seq<State>, labels: seq<Label>, e: nat)
    requires cfg.workers > 0
    ensures IsRun(run, labels) && run[0] == Initially(cfg)
    ensures e < |labels| && labels[e].EraseEntry? && run[e].ipc == Erasing(1, 0, Running)
    ensures 1 in run[e].registry && 1 !in run[e + 1].registry && run[e].tasks == WithStatus(Finished)
    ensures e + 1 == |labels| - 1 && labels[e + 1] == StatusRequest(1) && run[e + 1].tasks == WithStatus(Finished)
  {
    run, labels := PoppingReachable(cfg);
    BodySteps(cfg);
    ReportSteps(cfg);
    FinishStep(cfg);
    EraseSteps(cfg);
    var s, t := InBody(cfg), EndedMeanwhile(cfg);
    run, labels := Go(run, labels, Start(0), s);
    run, labels := Go(run, labels, StatusRequest(1), s.(ipc := Found(1, 0)));
    run, labels := Go(run, labels, Snapshot, s.(ipc := Reported(1, 0, Running)));
    run, labels := Go(run, labels, Finish(0, true), t);
    run, labels := Go(run, labels, Recheck, t.(ipc := Erasing(1, 0, Running)));
    e := |labels|;
    run, labels := Go(run, labels, EraseEntry, t.(registry := map[], ipc := Idle));
    AskAgain(t.(registry := map[], ipc := Idle));
    run, labels := Go(run, labels, StatusRequest(1), t.(registry := map[], ipc := Idle));
  }

  /** A request for an id that is not registered is answered at once: there is no such task. */
  lemma AskAgain(s: State)
    requires s.ipc.Idle? && 1 !in s.registry
    ensures Step(s, StatusRequest(1)) == Some(s)
  {
    assert s == s.(ipc := Idle);
  }
}
