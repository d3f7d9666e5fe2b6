/** What the steps of a run say about the histories that the state carries along: each of them can be
    read off the labels. */
module EngineHistory {
  import opened TaskStatus
  import opened TaskRules
  import opened Engine
  import opened EngineInvariant
  import opened EngineProofs
  import opened EngineFrames

  // ---- bodies ----

  /** The object whose body the step begins, if any. */
  function Begins(s: State, l: Label): seq<Obj> {
    if l.Start? && l.w < |s.workers| && s.workers[l.w].Got? then [s.workers[l.w].o]
    else if l.NetStart? && s.net.NetHeld? then [s.net.o]
    else []
  }

  /** The objects whose bodies the first `i` steps begin, in order. */
  ghost function Begun(run: seq<State>, labels: seq<Label>, i: nat): seq<Obj>
    requires i <= |labels| < |run|
  {
    if i == 0 then [] else Begun(run, labels, i - 1) + Begins(run[i - 1], labels[i - 1])
  }

  lemma BeginsStep(s: State, l: Label, s': State)
    requires Step(s, l) == Some(s')
    ensures s'.starts == s.starts + Begins(s, l)
  {
    if IsWorker(l) {
      WorkerFrame(s, l, s');
    } else if IsNet(l) {
      NetFrame(s, l, s');
    } else {
      IpcFrame(s, l, s');
    }
  }

  lemma {:induction false} StartsAreBegun(run: seq<State>, labels: seq<Label>, i: nat)
    requires IsRun(run, labels) && i < |run|
    ensures run[i].starts == Begun(run, labels, i)
  {
    if i > 0 {
      StartsAreBegun(run, labels, i - 1);
      assert Follows(run, labels, i - 1);
      BeginsStep(run[i - 1], labels[i - 1], run[i]);
    }
  }

  // ---- the queue ----

  /** The object that the step hands to the queue, and the one that it hands to a worker. */
  function Enqueues(s: State, l: Label): seq<Obj> { if l.Enqueue? && s.ipc.HandOff? then [s.ipc.o] else [] }

  function Dispatches(l: Label, s': State): seq<Obj> {
    if l.Take? && l.w < |s'.workers| && s'.workers[l.w].Got? then [s'.workers[l.w].o] else []
  }

  ghost function Enqueued(run: seq<State>, labels: seq<Label>, i: nat): seq<Obj>
    requires i <= |labels| < |run|
  {
    if i == 0 then [] else Enqueued(run, labels, i - 1) + Enqueues(run[i - 1], labels[i - 1])
  }

  ghost function Dispatched(run: seq<State>, labels: seq<Label>, i: nat): seq<Obj>
    requires i <= |labels| < |run|
  {
    if i == 0 then [] else Dispatched(run, labels, i - 1) + Dispatches(labels[i - 1], run[i])
  }

  lemma QueueStep(s: State, l: Label, s': State)
    requires Step(s, l) == Some(s')
    ensures s'.pushed == s.pushed + Enqueues(s, l) && s'.popped == s.popped + Dispatches(l, s')
  {
    if IsWorker(l) {
      WorkerFrame(s, l, s');
    } else if IsNet(l) {
      NetFrame(s, l, s');
    } else {
      IpcFrame(s, l, s');
    }
  }

  lemma {:induction false} QueueHistory(run: seq<State>, labels: seq<Label>, i: nat)
    requires IsRun(run, labels) && i < |run|
    ensures run[i].pushed == Enqueued(run, labels, i) && run[i].popped == Dispatched(run, labels, i)
  {
    if i > 0 {
      QueueHistory(run, labels, i - 1);
      assert Follows(run, labels, i - 1);
      QueueStep(run[i - 1], labels[i - 1], run[i]);
    }
  }

  // ---- completions ----

  /** What the transferor of `o` recorded last in the first `i` steps. */
  ghost function LastSample(run: seq<State>, labels: seq<Label>, i: nat, o: Obj): Option<real>
    requires i <= |labels| < |run|
  {
    if i == 0 then None
    else
      var s, l := run[i - 1], labels[i - 1];
      if l.Transfer? && l.w < |s.workers| && s.workers[l.w] == Body(o) then l.sample
      else LastSample(run, labels, i - 1, o)
  }

  lemma SampleStep(s: State, l: Label, s': State, o: Obj)
    requires Holding(s.tasks, s.place, s.workers) && Step(s, l) == Some(s') && o < |s'.tasks|
    ensures s'.tasks[o].bandwidth ==
      if l.Transfer? && l.w < |s.workers| && s.workers[l.w] == Body(o) then l.sample
      else if o < |s.tasks| then s.tasks[o].bandwidth
      else None
  {
    if IsWorker(l) {
      WorkerFrame(s, l, s');
    } else if IsNet(l) {
      SampleOfNetwork(s, l, s', o);
    } else {
      SampleOfIpc(s, l, s', o);
    }
  }

  lemma SampleOfNetwork(s: State, l: Label, s': State, o: Obj)
    requires NetStep(s, l) == Some(s') && o < |s'.tasks|
    ensures s'.tasks[o].bandwidth == if o < |s.tasks| then s.tasks[o].bandwidth else None
  {
  }

  lemma SampleOfIpc(s: State, l: Label, s': State, o: Obj)
    requires !IsWorker(l) && !IsNet(l) && Step(s, l) == Some(s') && o < |s'.tasks|
    ensures s'.tasks[o].bandwidth == if o < |s.tasks| then s.tasks[o].bandwidth else None
  {
    IpcFrame(s, l, s');
    if l.Register? && o < |s.tasks| {
      assert s'.tasks[..|s.tasks|][o] == s'.tasks[o];
    }
  }

  lemma HeldIsKnown(run: seq<State>, labels: seq<Label>, i: nat)
    requires IsRun(run, labels) && i < |run|
    ensures Holding(run[i].tasks, run[i].place, run[i].workers)
  {
    RunKeeps(run, labels, i);
  }

  /** The bandwidth of a task is what its transferor recorded last. */
  lemma {:induction false} BandwidthIsLast(run: seq<State>, labels: seq<Label>, i: nat, o: Obj)
    requires IsRun(run, labels) && i < |run|
    ensures LastSample(run, labels, i, o) == if o < |run[i].tasks| then run[i].tasks[o].bandwidth else None
  {
    if i > 0 {
      BandwidthIsLast(run, labels, i - 1, o);
      HeldIsKnown(run, labels, i - 1);
      assert Follows(run, labels, i - 1);
      SampleOrNone(run[i - 1], labels[i - 1], run[i], o);
    }
  }

  lemma SampleOrNone(s: State, l: Label, s': State, o: Obj)
    requires Holding(s.tasks, s.place, s.workers) && Step(s, l) == Some(s')
    ensures (if o < |s'.tasks| then s'.tasks[o].bandwidth else None) ==
      if l.Transfer? && l.w < |s.workers| && s.workers[l.w] == Body(o) then l.sample
      else if o < |s.tasks| then s.tasks[o].bandwidth
      else None
  {
    TasksStay(s, l, s');
    if o < |s'.tasks| {
      SampleStep(s, l, s', o);
    } else if l.Transfer? {
      WorkerFrame(s, l, s');
    }
  }

  lemma TasksStay(s: State, l: Label, s': State)
    requires Step(s, l) == Some(s')
    ensures |s.tasks| <= |s'.tasks|
  {
    if IsWorker(l) {
      WorkerFrame(s, l, s');
    } else if IsNet(l) {
      NetFrame(s, l, s');
    } else {
      IpcFrame(s, l, s');
    }
  }

  /** The completion of a copy or a move that the step makes, with the last recorded bandwidth. */
  ghost function Completes(run: seq<State>, labels: seq<Label>, i: nat): seq<Completion>
    requires i < |labels| < |run|
  {
    var s, l := run[i], labels[i];
    if l.RunEpilog? && l.w < |s.workers| && s.workers[l.w].Epilog? && s.workers[l.w].o < |s.tasks| then
      var o := s.workers[l.w].o;
      if s.tasks[o].runAs.Copy? || s.tasks[o].runAs.Move? then
        [Completion(s.tasks[o].route, LastSample(run, labels, i, o))]
      else []
    else []
  }

  /** The completions of copies and moves among the first `i` steps, in order. */
  ghost function CompletedBy(run: seq<State>, labels: seq<Label>, i: nat): seq<Completion>
    requires i <= |labels| < |run|
  {
    if i == 0 then [] else CompletedBy(run, labels, i - 1) + Completes(run, labels, i - 1)
  }

  lemma CompletionStep(s: State, l: Label, s': State)
    requires Step(s, l) == Some(s')
    ensures s'.completions == s.completions +
      if l.RunEpilog? && (s.tasks[s.workers[l.w].o].runAs.Copy? || s.tasks[s.workers[l.w].o].runAs.Move?) then
        [Completion(s.tasks[s.workers[l.w].o].route, s.tasks[s.workers[l.w].o].bandwidth)]
      else []
  {
    if IsWorker(l) {
      WorkerFrame(s, l, s');
    } else if IsNet(l) {
      NetFrame(s, l, s');
    } else {
      IpcFrame(s, l, s');
    }
  }

  lemma {:induction false} CompletionHistory(run: seq<State>, labels: seq<Label>, i: nat)
    requires IsRun(run, labels) && i < |run|
    ensures run[i].completions == CompletedBy(run, labels, i)
  {
    if i > 0 {
      CompletionHistory(run, labels, i - 1);
      assert Follows(run, labels, i - 1);
      CompletionStep(run[i - 1], labels[i - 1], run[i]);
      if labels[i - 1].RunEpilog? {
        BandwidthIsLast(run, labels, i - 1, run[i - 1].workers[labels[i - 1].w].o);
      }
    }
  }
}
