/** Which components of the state a step of each thread can change. */
module EngineFrames {
  import opened TaskStatus
  import opened TaskRules
  import opened Engine

  lemma WorkerFrame(s: State, l: Label, s': State)
    requires IsWorker(l) && Step(s, l) == Some(s')
    ensures l.w < |s.workers| && |s'.workers| == |s.workers|
    ensures forall v :: 0 <= v < |s.workers| && v != l.w ==> s'.workers[v] == s.workers[v]
    ensures s'.ipc == s.ipc && s'.net == s.net && s'.paused == s.paused && s'.done == s.done && s'.valid == s.valid
    ensures s'.registry == s.registry && s'.idBase == s.idBase && s'.pushed == s.pushed && s'.cfg == s.cfg
    ensures !l.Start? && !l.Transfer? && !l.Finish? ==> s'.tasks == s.tasks
    ensures l.Start? ==>
      s.workers[l.w].Got? && s.workers[l.w].o < |s.tasks| && s'.tasks == SetStatus(s.tasks, s.workers[l.w].o, Running)
    ensures l.Transfer? ==> s.workers[l.w].Body? && s.workers[l.w].o < |s.tasks| && s'.workers == s.workers
    ensures l.Transfer? ==>
      s'.tasks == s.tasks[s.workers[l.w].o := s.tasks[s.workers[l.w].o].(bandwidth := l.sample)]
    ensures l.Finish? ==> s.workers[l.w].Body? && s.workers[l.w].o < |s.tasks|
    ensures l.Finish? ==> s'.tasks == SetStatus(s.tasks, s.workers[l.w].o, if l.ok then Finished else FinishedWithError)
    ensures !l.Take? ==> s'.queue == s.queue && s'.popped == s.popped
    ensures !l.RunEpilog? ==> s'.backlog == s.backlog && s'.completions == s.completions
    ensures !l.Take? && !l.RunEpilog? ==> s'.place == s.place
    ensures !l.Start? ==> s'.starts == s.starts
    ensures !l.Contend? ==> s'.waiting == s.waiting
  {
  }

  lemma RegisterFrame(s: State, route: Route, fate: Fate)
    ensures var s' := DoRegister(s, true, route, fate);
      && s' == s.(idBase := s'.idBase, registry := s'.registry, tasks := s'.tasks, place := s'.place, net := s'.net)
      && |s.tasks| <= |s'.tasks| <= |s.tasks| + 1 && s'.tasks[..|s.tasks|] == s.tasks
      && (|s.tasks| < |s'.tasks| ==> s'.tasks[|s.tasks|].remote)
  {
  }

  lemma NetFrame(s: State, l: Label, s': State)
    requires IsNet(l) && Step(s, l) == Some(s')
    ensures s'.ipc == s.ipc && s'.paused == s.paused && s'.done == s.done && s'.valid == s.valid && s'.cfg == s.cfg
    ensures s'.queue == s.queue && s'.pushed == s.pushed && s'.popped == s.popped
    ensures s'.workers == s.workers && (!l.NetStart? ==> s'.starts == s.starts)
    ensures s'.backlog == s.backlog && s'.completions == s.completions
    ensures l.NetStart? ==> s.net.NetHeld? && s.net.o < |s.tasks| && s'.tasks == SetStatus(s.tasks, s.net.o, Running)
    ensures l.NetFinish? ==> s.net.NetBody? && s.net.o < |s.tasks|
    ensures l.NetFinish? ==> s'.tasks == SetStatus(s.tasks, s.net.o, if l.ok then Finished else FinishedWithError)
    ensures l.NetRequest? || l.NetContend? ==> s'.tasks == s.tasks
    ensures !l.NetContend? ==> s'.waiting == s.waiting
    ensures !l.NetRegister? ==> s'.registry == s.registry
    ensures l.NetRegister? ==> |s.tasks| <= |s'.tasks| <= |s.tasks| + 1 && s'.tasks[..|s.tasks|] == s.tasks
    ensures l.NetRegister? && |s.tasks| < |s'.tasks| ==> s'.tasks[|s.tasks|].remote
  {
    if l.NetRegister? {
      RegisterFrame(s, l.route, if l.accepted then Accepted(RemoteTransfer) else Rejected(NotSupported));
    }
  }

  lemma StatusFrame(s: State, l: Label, s': State)
    requires IsStatus(l) && StatusStep(s, l) == Some(s')
    ensures s' == s.(ipc := s'.ipc, registry := s'.registry)
    ensures !l.EraseEntry? ==> s'.registry == s.registry
    ensures l.EraseEntry? ==> s.ipc.Erasing? && s'.registry == s.registry - {s.ipc.tid}
    ensures !s'.ipc.Scanning? && !s'.ipc.Admitted? && !s'.ipc.HandOff?
  {
  }

  lemma ScanFrame(s: State, l: Label, s': State)
    requires IsScan(l) && ScanStep(s, l) == Some(s')
    ensures s' == s.(ipc := s'.ipc) && !s'.ipc.Admitted? && !s'.ipc.HandOff?
    ensures s'.ipc.Scanning? && !l.StatsRequest? && !l.BeginScan? ==>
      s.ipc.Scanning? && s'.ipc.start == s.ipc.start && s'.ipc.purpose == s.ipc.purpose
  {
  }

  lemma CommandFrame(s: State, l: Label, s': State)
    requires CommandStep(s, l) == Some(s')
    ensures s' == s.(ipc := s'.ipc, paused := s'.paused, done := s'.done, valid := s'.valid, workers := s'.workers)
    ensures !l.InvalidateQueue? ==> s'.valid == s.valid && s'.workers == s.workers
    ensures !l.SetDone? ==> s'.done == s.done
    ensures !l.Resume? && s.paused ==> s'.paused
    ensures !s.ipc.Admitted? && !s.ipc.HandOff? && !s'.ipc.Admitted? && !s'.ipc.HandOff? && !s'.ipc.Scanning?
  {
  }

  lemma CreateFrame(s: State, l: Label, s': State)
    requires IsCreate(l) && CreateStep(s, l) == Some(s')
    ensures !s'.ipc.Scanning?
    ensures l.CreateRequest? ==> s' == s.(ipc := s'.ipc) && (s.paused ==> s' == s)
    ensures l.Register? ==>
      && s.ipc.Admitted?
      && s' == s.(ipc := s'.ipc, tasks := s'.tasks, registry := s'.registry, idBase := s'.idBase, place := s'.place)
    ensures l.Register? ==> |s.tasks| <= |s'.tasks| <= |s.tasks| + 1 && s'.tasks[..|s.tasks|] == s.tasks
    ensures l.Enqueue? ==>
      && s.ipc.HandOff?
      && s' == s.(ipc := Idle, queue := s.queue + [s.ipc.o], pushed := s.pushed + [s.ipc.o],
                  place := s'.place, workers := s'.workers)
  {
  }

  lemma IpcFrame(s: State, l: Label, s': State)
    requires !IsWorker(l) && !IsNet(l) && Step(s, l) == Some(s')
    ensures s'.net == s.net && s'.waiting == s.waiting && s'.popped == s.popped && s'.starts == s.starts
    ensures s'.cfg == s.cfg
    ensures s'.backlog == s.backlog && s'.completions == s.completions
    ensures !l.Register? ==> s'.tasks == s.tasks && s'.idBase == s.idBase
    ensures l.Register? ==> |s.tasks| <= |s'.tasks| <= |s.tasks| + 1 && s'.tasks[..|s.tasks|] == s.tasks
    ensures !l.Register? && !l.EraseEntry? ==> s'.registry == s.registry
    ensures !l.Enqueue? ==> s'.queue == s.queue && s'.pushed == s.pushed
    ensures !l.Enqueue? && !l.InvalidateQueue? ==> s'.workers == s.workers
    ensures !l.Enqueue? && !l.Register? ==> s'.place == s.place
    ensures !l.InvalidateQueue? ==> s'.valid == s.valid
    ensures !l.SetDone? ==> s'.done == s.done
  {
    if IsCreate(l) {
      CreateFrame(s, l, s');
    } else if IsStatus(l) {
      StatusFrame(s, l, s');
    } else if IsScan(l) {
      ScanFrame(s, l, s');
    } else {
      CommandFrame(s, l, s');
    }
  }
}
