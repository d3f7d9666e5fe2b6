/** What requests and commands come to: admission and pause, creation, shutdown, and the outcome of
    tasks, over every run and in terms of its steps. */
module EngineCommands {
  import opened TaskStatus
  import opened TaskRules
  import opened Engine
  import opened EngineInvariant
  import opened EngineProofs
  import opened EngineFrames
  import opened EngineTheorems
  import opened EngineRegistry
  import opened EngineAnswers

  // ---- pause and admission ----

  /** A pause or a shutdown request is among the steps, with no resume after it. */
  ghost predicate PauseLasts(labels: seq<Label>) {
    exists k :: 0 <= k < |labels| && (labels[k].Pause? || labels[k].ShutdownRequest?) && Resume !in labels[k + 1..]
  }

  lemma PauseStep(s: State, l: Label, s': State)
    requires Step(s, l) == Some(s')
    ensures s'.paused <==> l.Pause? || l.ShutdownRequest? || (s.paused && !l.Resume?)
  {
    if IsWorker(l) {
      WorkerFrame(s, l, s');
    } else if IsNet(l) {
      NetFrame(s, l, s');
    } else if IsCreate(l) {
      CreateFrame(s, l, s');
    } else if IsStatus(l) {
      StatusFrame(s, l, s');
    } else if IsScan(l) {
      ScanFrame(s, l, s');
    }
  }

  lemma PauseExtends(labels: seq<Label>, l: Label)
    ensures PauseLasts(labels + [l]) <==> l.Pause? || l.ShutdownRequest? || (PauseLasts(labels) && !l.Resume?)
  {
    var n, all := |labels|, labels + [l];
    if l.Pause? || l.ShutdownRequest? {
      assert all[n] == l && all[n + 1..] == [];
    } else {
      if PauseLasts(labels) && !l.Resume? {
        var k :| 0 <= k < n && (labels[k].Pause? || labels[k].ShutdownRequest?) && Resume !in labels[k + 1..];
        assert all[k] == labels[k] && all[k + 1..] == labels[k + 1..] + [l];
      }
      if PauseLasts(all) {
        var k :| 0 <= k < |all| && (all[k].Pause? || all[k].ShutdownRequest?) && Resume !in all[k + 1..];
        assert k < n && labels[k] == all[k] && all[k + 1..] == labels[k + 1..] + [l];
      }
    }
  }

  /** The daemon is paused if and only if it was told to pause, or to shut down, and not to resume
      since. */
  lemma {:induction false} PausedIff(run: seq<State>, labels: seq<Label>, j: nat)
    requires IsRun(run, labels) && j < |run|
    ensures run[j].paused <==> PauseLasts(labels[..j])
  {
    if j > 0 {
      PausedIff(run, labels, j - 1);
      assert Follows(run, labels, j - 1);
      PauseStep(run[j - 1], labels[j - 1], run[j]);
      assert labels[..j] == labels[..j - 1] + [labels[j - 1]];
      PauseExtends(labels[..j - 1], labels[j - 1]);
    }
  }

  /** A creation request is admitted if and only if the daemon is not paused and the request is of one
      of the four kinds; otherwise it leaves no trace. */
  lemma AdmittedIff(run: seq<State>, labels: seq<Label>, i: nat, req: Request)
    requires IsRun(run, labels) && i < |labels| && labels[i] == CreateRequest(req)
    ensures run[i + 1].ipc == Admitted(req) <==>
      !PauseLasts(labels[..i]) && (req.kind.Copy? || req.kind.Move? || req.kind.Remove? || req.kind.Noop?)
    ensures run[i + 1].ipc != Admitted(req) ==> run[i + 1] == run[i]
    ensures run[i + 1] == run[i].(ipc := run[i + 1].ipc)
  {
    assert Follows(run, labels, i);
    PausedIff(run, labels, i);
  }

  /** A request of the network thread is admitted if and only if the daemon is not paused. */
  lemma NetAdmittedIff(run: seq<State>, labels: seq<Label>, i: nat)
    requires IsRun(run, labels) && i < |labels| && labels[i].NetRequest?
    ensures run[i + 1].net.NetAdmitted? <==> !PauseLasts(labels[..i])
  {
    assert Follows(run, labels, i);
    PausedIff(run, labels, i);
  }

  // ---- shutdown ----

  lemma OnlyResumes(s: State, l: Label)
    requires s.ipc.Refusing? && !IsWorker(l) && !IsNet(l) && Step(s, l).Some?
    ensures l.Resume? && Step(s, l) == Some(s.(paused := false, ipc := Idle))
  {
  }

  lemma AdmitsAgain(s: State, req: Request)
    requires s.ipc.Idle? && !s.paused && (req.kind.Copy? || req.kind.Move? || req.kind.Remove? || req.kind.Noop?)
    ensures Step(s, CreateRequest(req)) == Some(s.(ipc := Admitted(req)))
  {
  }

  /** A refused shutdown is undone by the very next step of the IPC thread: the daemon is no longer
      paused and admits creation requests of all four kinds again. */
  lemma RefusalIsUndone(run: seq<State>, labels: seq<Label>, i: nat, req: Request)
    requires IsRun(run, labels) && i < |labels| && run[i].ipc.Refusing? && !IsWorker(labels[i]) && !IsNet(labels[i])
    requires req.kind.Copy? || req.kind.Move? || req.kind.Remove? || req.kind.Noop?
    ensures labels[i].Resume? && !run[i + 1].paused && run[i + 1].ipc.Idle?
    ensures Step(run[i + 1], CreateRequest(req)) == Some(run[i + 1].(ipc := Admitted(req)))
  {
    assert Follows(run, labels, i);
    OnlyResumes(run[i], labels[i]);
    AdmitsAgain(run[i + 1], req);
  }

  /** Step `i` finds the tracked namespaces empty after a scan that counted nothing. */
  ghost predicate Grants(run: seq<State>, labels: seq<Label>, i: nat)
    requires i < |labels| < |run|
  {
    labels[i] == NamespaceCheck(true) && run[i].ipc.NoneActive?
  }

  predicate Leaving(ipc: Ipc) { ipc.Closing? || ipc.DoneSet? || ipc.Invalidated? }

  lemma LeavingStep(s: State, l: Label, s': State)
    requires Step(s, l) == Some(s')
    ensures Leaving(s'.ipc) <==> Leaving(s.ipc) || l.Signal? || (l == NamespaceCheck(true) && s.ipc.NoneActive?)
    ensures Leaving(s.ipc) ==> s'.ipc.clean == s.ipc.clean
    ensures !Leaving(s.ipc) && Leaving(s'.ipc) ==> (s'.ipc.clean <==> !l.Signal?)
  {
    if IsWorker(l) {
      WorkerFrame(s, l, s');
    } else if IsNet(l) {
      NetFrame(s, l, s');
    } else if IsCreate(l) {
      LeavingCreate(s, l, s');
    } else if IsStatus(l) {
      StatusFrame(s, l, s');
      LeavingStatus(s, l, s');
    } else if IsScan(l) {
      LeavingScan(s, l, s');
    }
  }

  lemma LeavingCreate(s: State, l: Label, s': State)
    requires CreateStep(s, l) == Some(s')
    ensures !Leaving(s.ipc) && !Leaving(s'.ipc)
  {
  }

  lemma LeavingStatus(s: State, l: Label, s': State)
    requires IsStatus(l) && StatusStep(s, l) == Some(s')
    ensures !Leaving(s.ipc) && !Leaving(s'.ipc)
  {
  }

  lemma LeavingScan(s: State, l: Label, s': State)
    requires IsScan(l) && ScanStep(s, l) == Some(s')
    ensures !Leaving(s.ipc) && !Leaving(s'.ipc)
  {
  }

  /** The daemon leaves its loop if and only if it got a signal, or a shutdown request whose scan
      counted nothing found the tracked namespaces empty; and it does so for one of these reasons. */
  lemma {:induction false} LeavesIff(run: seq<State>, labels: seq<Label>, j: nat)
    requires IsRun(run, labels) && j < |run|
    ensures Leaving(run[j].ipc) <==> exists i :: 0 <= i < j && (labels[i].Signal? || Grants(run, labels, i))
    ensures Leaving(run[j].ipc) && run[j].ipc.clean ==> exists i :: 0 <= i < j && Grants(run, labels, i)
    ensures Leaving(run[j].ipc) && !run[j].ipc.clean ==> exists i :: 0 <= i < j && labels[i].Signal?
  {
    if j > 0 {
      LeavesIff(run, labels, j - 1);
      assert Follows(run, labels, j - 1);
      LeavingStep(run[j - 1], labels[j - 1], run[j]);
      assert Grants(run, labels, j - 1) <==> labels[j - 1] == NamespaceCheck(true) && run[j - 1].ipc.NoneActive?;
    }
  }

  // ---- creation ----

  /** What registering a request does when the next id is free, in terms of the request itself: the
      object is new, pending and local, and goes on to the queue, as what the request asks for or as a
      no-op in a dry run, unless the request is rejected. */
  lemma RegisterMeans(s: State, req: Request)
    requires NextId(s.idBase) !in s.registry
    ensures var s' := DoRegister(s, false, (req.src, req.dst), Judge(req, s.cfg.dryRun));
      var o := |s.tasks|;
      && |s'.tasks| == o + 1 && s'.tasks[..o] == s.tasks && s'.registry == s.registry[NextId(s.idBase) := o]
      && s'.tasks[o].id == s'.idBase == NextId(s.idBase) && s'.tasks[o].status.Pending? && !s'.tasks[o].remote
      && s'.tasks[o].route == (req.src, req.dst) && s'.tasks[o].bandwidth.None?
      && (s'.ipc == HandOff(o) <==> !Unacceptable(req, s.cfg.dryRun))
      && (s'.ipc == HandOff(o) ==> s'.tasks[o].runAs == if s.cfg.dryRun then Noop else req.kind)
      && (s'.ipc != HandOff(o) ==> s'.ipc.Idle?)
      && s'.cfg == s.cfg && s'.backlog == s.backlog && s'.completions == s.completions
  {
  }

  /** Every registration of a local request, in every run. */
  lemma CreationMeans(run: seq<State>, labels: seq<Label>, i: nat)
    requires IsRun(run, labels) && i < |labels| && labels[i].Register? && NextId(run[i].idBase) !in run[i].registry
    ensures run[i].ipc.Admitted? && |run[i + 1].tasks| == |run[i].tasks| + 1
    ensures var req, dryRun, o := run[i].ipc.req, run[i].cfg.dryRun, |run[i].tasks|;
      var t := run[i + 1].tasks[o];
      && t.route == (req.src, req.dst) && !t.remote && t.status.Pending?
      && (run[i + 1].ipc == HandOff(o) <==>
            && (req.kind.Copy? || req.kind.Move? ==> req.hasTransferor && req.validates)
            && (dryRun || req.kind.Copy? || req.kind.Move? || req.kind.Remove? || req.kind.Noop?))
      && (run[i + 1].ipc == HandOff(o) ==> t.runAs == if dryRun then Noop else req.kind)
  {
    assert Follows(run, labels, i);
    RegisterMeans(run[i], run[i].ipc.req);
  }

  /** Handing a task to the queue wakes exactly one sleeper if there is one, and nobody otherwise. */
  lemma WakesOne(run: seq<State>, labels: seq<Label>, i: nat)
    requires IsRun(run, labels) && i < |labels| && labels[i].Enqueue?
    ensures run[i].ipc.HandOff? && run[i + 1].queue == run[i].queue + [run[i].ipc.o]
    ensures (forall w :: 0 <= w < |run[i].workers| ==> !run[i].workers[w].Asleep?) ==>
      run[i + 1].workers == run[i].workers
    ensures (exists w :: 0 <= w < |run[i].workers| && run[i].workers[w].Asleep?) ==>
      exists w :: 0 <= w < |run[i].workers| && run[i].workers[w].Asleep? &&
        run[i + 1].workers == run[i].workers[w := Notified]
  {
    assert Follows(run, labels, i);
  }

  // ---- outcome ----

  /** Step `i` ends task `o` with success. */
  ghost predicate Succeeds(run: seq<State>, labels: seq<Label>, i: nat, o: Obj)
    requires i < |labels| < |run|
  {
    FinishesAt(run, labels, i, o) && labels[i].ok
  }

  lemma OutcomeStep(s: State, l: Label, s': State, o: Obj)
    requires Inv(s) && Step(s, l) == Some(s') && o < |s.tasks| <= |s'.tasks|
    ensures s'.tasks[o].status.Finished? <==> s.tasks[o].status.Finished? || (Finishes(s, l, o) && l.ok)
    ensures s'.tasks[o].status.FinishedWithError? <==>
      s.tasks[o].status.FinishedWithError? || (Finishes(s, l, o) && !l.ok)
  {
    if IsWorker(l) {
      OutcomeOfWorker(s, l, s', o);
    } else if IsNet(l) {
      NetFrame(s, l, s');
    } else {
      IpcFrame(s, l, s');
    }
  }

  lemma OutcomeOfWorker(s: State, l: Label, s': State, o: Obj)
    requires Holding(s.tasks, s.place, s.workers) && IsWorker(l) && Step(s, l) == Some(s')
    requires o < |s.tasks| <= |s'.tasks|
    ensures s'.tasks[o].status.Finished? <==> s.tasks[o].status.Finished? || (Finishes(s, l, o) && l.ok)
    ensures s'.tasks[o].status.FinishedWithError? <==>
      s.tasks[o].status.FinishedWithError? || (Finishes(s, l, o) && !l.ok)
  {
    WorkerFrame(s, l, s');
    assert HoldsWell(s.tasks, s.place, l.w, s.workers[l.w]);
  }

  lemma OutcomeNext(run: seq<State>, labels: seq<Label>, i: nat, o: Obj)
    requires IsRun(run, labels) && 0 < i < |run| && o < |run[i - 1].tasks| <= |run[i].tasks|
    ensures run[i].tasks[o].status.Finished? <==>
      run[i - 1].tasks[o].status.Finished? || Succeeds(run, labels, i - 1, o)
    ensures run[i].tasks[o].status.FinishedWithError? <==>
      run[i - 1].tasks[o].status.FinishedWithError? || (FinishesAt(run, labels, i - 1, o) && !labels[i - 1].ok)
  {
    assert Follows(run, labels, i - 1);
    RunKeeps(run, labels, i - 1);
    OutcomeStep(run[i - 1], labels[i - 1], run[i], o);
  }

  lemma NewIsPending(run: seq<State>, labels: seq<Label>, i: nat, o: Obj)
    requires IsRun(run, labels) && 0 < i < |run| && |run[i - 1].tasks| <= o < |run[i].tasks|
    ensures run[i].tasks[o].status.Pending?
    ensures forall k :: 0 <= k < i ==> !FinishesAt(run, labels, k, o)
  {
    assert Follows(run, labels, i - 1);
    NewObjectIsPending(run[i - 1], labels[i - 1], run[i], o);
    forall k | 0 <= k < i ensures !FinishesAt(run, labels, k, o) {
      RunProgress(run, labels, k, i - 1);
      if FinishesAt(run, labels, k, o) {
        FinishesKnown(run, labels, k, o);
      }
    }
  }

  lemma NewObjectIsPending(s: State, l: Label, s': State, o: Obj)
    requires Step(s, l) == Some(s') && |s.tasks| <= o < |s'.tasks|
    ensures s'.tasks[o].status.Pending?
  {
    if IsWorker(l) {
      WorkerFrame(s, l, s');
    } else if !IsNet(l) && !IsCreate(l) {
      IpcFrame(s, l, s');
    }
  }

  lemma FinishesKnown(run: seq<State>, labels: seq<Label>, k: nat, o: Obj)
    requires IsRun(run, labels) && k < |labels| && FinishesAt(run, labels, k, o)
    ensures o < |run[k].tasks|
  {
    RunKeeps(run, labels, k);
    if labels[k].Finish? {
      assert HoldsWell(run[k].tasks, run[k].place, labels[k].w, run[k].workers[labels[k].w]);
    }
  }

  /** In every reachable state a task is finished if and only if a step has ended it with success, and
      finished with error if and only if a step has ended it otherwise. */
  lemma {:induction false} OutcomeIff(run: seq<State>, labels: seq<Label>, j: nat, o: Obj)
    requires IsRun(run, labels) && j < |run| && o < |run[j].tasks|
    ensures run[j].tasks[o].status.Finished? <==> exists i :: 0 <= i < j && Succeeds(run, labels, i, o)
    ensures run[j].tasks[o].status.FinishedWithError? <==>
      exists i :: 0 <= i < j && FinishesAt(run, labels, i, o) && !labels[i].ok
  {
    assert j > 0;
    if o < |run[j - 1].tasks| {
      OutcomeIff(run, labels, j - 1, o);
      StepProgress(run, labels, j - 1);
      OutcomeNext(run, labels, j, o);
    } else {
      NewIsPending(run, labels, j, o);
    }
  }
}
