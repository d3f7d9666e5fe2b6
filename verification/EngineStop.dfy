/** Stopping the pool, and what every thread can always do next. */
module EngineStop {
  import opened TaskStatus
  import opened Engine
  import opened EngineInvariant
  import opened EngineProofs
  import opened EngineFrames
  import opened EngineTheorems
  import opened EngineRegistry
  import opened EngineLocks

  /** How many steps a worker still has before it leaves an invalid queue for good. */
  function StepsLeft(w: Worker): nat {
    match w
    case Exited => 0
    case AtLoop => 1
    case Epilog(_) => 2
    case Body(_) => 3
    case Got(_) => 4
    case Entering => 5
    case Notified => 5
    case Asleep => 6
  }

  ghost function Measure(workers: seq<Worker>): nat {
    if workers == [] then 0 else Measure(workers[..|workers| - 1]) + StepsLeft(workers[|workers| - 1])
  }

  lemma {:induction false} MeasureUpdate(workers: seq<Worker>, w: nat, x: Worker)
    requires w < |workers|
    ensures Measure(workers[w := x]) == Measure(workers) - StepsLeft(workers[w]) + StepsLeft(x)
  {
    var n := |workers| - 1;
    if w == n {
      assert workers[w := x][..n] == workers[..n];
    } else {
      assert workers[w := x][..n] == workers[..n][w := x];
      MeasureUpdate(workers[..n], w, x);
    }
  }

  /** A step of a worker other than the progress of a transfer inside a body and the wait for a lock. */
  predicate Moves(l: Label) { IsWorker(l) && !l.Transfer? && !l.Contend? }

  function Count(labels: seq<Label>): nat {
    if labels == [] then 0 else Count(labels[..|labels| - 1]) + Bit(Moves(labels[|labels| - 1]))
  }

  lemma StepAfterStop(s: State, l: Label, s': State)
    requires Flags(s.done, s.valid, s.paused, s.ipc) && !SomeAsleep(s.workers) && !s.valid && Step(s, l) == Some(s')
    ensures !s'.valid
    ensures if Moves(l) then Measure(s'.workers) < Measure(s.workers) else s'.workers == s.workers
  {
    if IsWorker(l) {
      WorkerFrame(s, l, s');
      if Moves(l) {
        assert s'.workers == s.workers[l.w := s'.workers[l.w]];
        MeasureUpdate(s.workers, l.w, s'.workers[l.w]);
      }
    } else if IsNet(l) {
      NetFrame(s, l, s');
    } else {
      IpcFrame(s, l, s');
    }
  }

  lemma StopStep(run: seq<State>, labels: seq<Label>, i: nat)
    requires IsRun(run, labels) && i < |labels| && !run[i].valid
    ensures !run[i + 1].valid
    ensures Bit(Moves(labels[i])) + Measure(run[i + 1].workers) <= Measure(run[i].workers)
  {
    RunKeeps(run, labels, i);
    assert Follows(run, labels, i);
    StepAfterStop(run[i], labels[i], run[i + 1]);
  }

  lemma CountExtends(labels: seq<Label>, i: nat, j: nat)
    requires i < j <= |labels|
    ensures Count(labels[i..j]) == Count(labels[i..j - 1]) + Bit(Moves(labels[j - 1]))
  {
    assert labels[i..j][..j - i - 1] == labels[i..j - 1];
  }

  /** After the queue became invalid the workers' steps are bounded: every one of them decreases
      the measure, and nothing else raises it. */
  lemma {:induction false} StoppingTerminates(run: seq<State>, labels: seq<Label>, i: nat, j: nat)
    requires IsRun(run, labels) && i <= j < |run| && !run[i].valid
    ensures !run[j].valid
    ensures Count(labels[i..j]) + Measure(run[j].workers) <= Measure(run[i].workers)
    decreases j - i
  {
    if i < j {
      StoppingTerminates(run, labels, i, j - 1);
      StopStep(run, labels, j - 1);
      CountExtends(labels, i, j);
    }
  }

  /** A worker that is neither gone nor asleep can take a step, unless it is about to write the
      status of an object whose lock is held; on an invalid queue there are neither sleepers nor
      held locks, so that the pool cannot stop half way. */
  lemma WorkerNotStuck(run: seq<State>, labels: seq<Label>, i: nat, w: nat) returns (l: Label)
    requires IsRun(run, labels) && i < |run| && w < |run[i].workers|
    requires !run[i].workers[w].Exited? && !run[i].workers[w].Asleep? && !LockedOut(run[i], w)
    ensures Moves(l) && l.w == w && Step(run[i], l).Some?
  {
    RunKeeps(run, labels, i);
    l := WorkerCanStep(run[i], w);
  }

  lemma WorkerCanStep(s: State, w: nat) returns (l: Label)
    requires Holding(s.tasks, s.place, s.workers) && w < |s.workers|
    requires !s.workers[w].Exited? && !s.workers[w].Asleep? && !LockedOut(s, w)
    ensures Moves(l) && l.w == w && Step(s, l).Some?
  {
    assert HoldsWell(s.tasks, s.place, w, s.workers[w]);
    l := match s.workers[w]
      case AtLoop => CheckDone(w)
      case Got(_) => Start(w)
      case Body(_) => Finish(w, true)
      case Epilog(_) => RunEpilog(w)
      case _ => Take(w);
  }

  /** A step that worker `w` can take, other than the progress of a transfer. */
  ghost predicate WorkerSteps(s: State, w: nat, l: Label) { Moves(l) && l.w == w && Step(s, l).Some? }

  /** A worker that is neither gone nor asleep is stuck if and only if it is about to write the status
      of an object whose lock is held. */
  lemma WorkerStuckIff(run: seq<State>, labels: seq<Label>, i: nat, w: nat)
    requires IsRun(run, labels) && i < |run| && w < |run[i].workers|
    requires !run[i].workers[w].Exited? && !run[i].workers[w].Asleep?
    ensures (forall l :: !WorkerSteps(run[i], w, l)) <==> LockedOut(run[i], w)
  {
    if LockedOut(run[i], w) {
      forall l ensures !WorkerSteps(run[i], w, l) {
      }
    } else {
      var l := WorkerNotStuck(run, labels, i, w);
      assert WorkerSteps(run[i], w, l);
    }
  }

  // ---- the queue is served ----

  /** Before `m_done` is set no worker leaves. */
  lemma {:induction false} NobodyLeft(run: seq<State>, labels: seq<Label>, i: nat, w: nat)
    requires IsRun(run, labels) && i < |run| && !run[i].done && w < |run[i].workers|
    ensures !run[i].workers[w].Exited?
  {
    if i > 0 {
      assert Follows(run, labels, i - 1);
      RunKeeps(run, labels, i - 1);
      LeavesWhenDone(run[i - 1], labels[i - 1], run[i], w);
      NobodyLeft(run, labels, i - 1, w);
    }
  }

  lemma LeavesWhenDone(s: State, l: Label, s': State, w: nat)
    requires Inv(s) && Step(s, l) == Some(s') && !s'.done && w < |s'.workers|
    ensures !s.done && w < |s.workers| && (s'.workers[w].Exited? ==> s.workers[w].Exited?)
  {
    if IsWorker(l) {
      WorkerFrame(s, l, s');
    } else if IsNet(l) {
      NetFrame(s, l, s');
    } else {
      DoneStays(s, l, s');
      IpcFrame(s, l, s');
    }
  }

  lemma DoneStays(s: State, l: Label, s': State)
    requires !IsWorker(l) && !IsNet(l) && Step(s, l) == Some(s')
    ensures s.done ==> s'.done
  {
    if !l.SetDone? {
      IpcFrame(s, l, s');
    }
  }

  /** While the pool is at work and a task is queued, some worker is awake, and it can step unless it
      is the one whose object's lock is held. */
  lemma QueueIsServed(run: seq<State>, labels: seq<Label>, i: nat) returns (w: nat)
    requires IsRun(run, labels) && i < |run| && !run[i].done && run[i].queue != [] && run[i].workers != []
    ensures w < |run[i].workers| && !run[i].workers[w].Asleep? && !run[i].workers[w].Exited?
    ensures LockedOut(run[i], w) || exists l :: WorkerSteps(run[i], w, l)
  {
    var s := run[i];
    RunKeeps(run, labels, i);
    w := 0;
    if SomeAsleep(s.workers) {
      assert |NotifiedSet(s.workers)| > 0;
      var v :| v in NotifiedSet(s.workers);
      w := v;
    }
    NobodyLeft(run, labels, i, w);
    WorkerStuckIff(run, labels, i, w);
  }

  // ---- all workers leave ----

  ghost predicate AllExited(workers: seq<Worker>) {
    forall w :: 0 <= w < |workers| ==> workers[w].Exited?
  }

  lemma InvalidState(s: State, w: nat)
    requires Flags(s.done, s.valid, s.paused, s.ipc) && Awake(s.valid, s.queue, s.workers) && !s.valid
    requires w < |s.workers|
    ensures !s.workers[w].Asleep? && !LockedOut(s, w)
  {
  }

  /** Whatever the workers are doing when the queue is invalid, they leave by steps of their own, as
      many as the measure says at most. */
  lemma {:induction false} WorkersLeave(run: seq<State>, labels: seq<Label>)
    returns (run': seq<State>, labels': seq<Label>)
    requires IsRun(run, labels) && !run[|labels|].valid
    ensures IsRun(run', labels') && labels <= labels' && run <= run'
    ensures |labels'| - |labels| <= Measure(run[|labels|].workers)
    ensures forall k :: |labels| <= k < |labels'| ==> Moves(labels'[k])
    ensures AllExited(run'[|labels'|].workers)
    decreases Measure(run[|labels|].workers)
  {
    var n := |labels|;
    var s := run[n];
    if AllExited(s.workers) {
      return run, labels;
    }
    var w :| 0 <= w < |s.workers| && !s.workers[w].Exited?;
    RunKeeps(run, labels, n);
    InvalidState(s, w);
    var l := WorkerCanStep(s, w);
    var s' := Step(s, l).value;
    Extend(run, labels, l, s');
    StepAfterStop(s, l, s');
    run', labels' := WorkersLeave(run + [s'], labels + [l]);
  }

  // ---- at most one more task ----

  /** Whether the worker may still begin a body without passing the test of m_done. */
  predicate MayStart(w: Worker) { w.Entering? || w.Asleep? || w.Notified? || w.Got? }

  /** How many bodies worker `w` begins in the steps. */
  function Starts(labels: seq<Label>, w: nat): nat {
    if labels == [] then 0
    else Starts(labels[..|labels| - 1], w) + if labels[|labels| - 1] == Start(w) then 1 else 0
  }

  lemma StartsWorker(s: State, l: Label, s': State, w: nat)
    requires s.done && IsWorker(l) && WorkerStep(s, l) == Some(s') && w < |s.workers|
    ensures |s'.workers| == |s.workers|
    ensures Bit(l == Start(w)) + Bit(MayStart(s'.workers[w])) <= Bit(MayStart(s.workers[w]))
  {
  }

  lemma StartsIpc(s: State, l: Label, s': State, w: nat)
    requires !IsWorker(l) && !IsNet(l) && Step(s, l) == Some(s') && w < |s.workers|
    ensures |s'.workers| == |s.workers| && (s.done ==> s'.done)
    ensures MayStart(s'.workers[w]) == MayStart(s.workers[w])
  {
    IpcFrame(s, l, s');
  }

  lemma StartsStep(run: seq<State>, labels: seq<Label>, i: nat, w: nat)
    requires IsRun(run, labels) && i < |labels| && run[i].done && w < |run[i].workers|
    ensures run[i + 1].done && |run[i + 1].workers| == |run[i].workers|
    ensures Bit(labels[i] == Start(w)) + Bit(MayStart(run[i + 1].workers[w])) <= Bit(MayStart(run[i].workers[w]))
  {
    var s, l, s' := run[i], labels[i], run[i + 1];
    assert Follows(run, labels, i);
    if IsWorker(l) {
      WorkerFrame(s, l, s');
      StartsWorker(s, l, s', w);
    } else if IsNet(l) {
      NetFrame(s, l, s');
    } else {
      StartsIpc(s, l, s', w);
    }
  }

  lemma StartsExtend(labels: seq<Label>, i: nat, j: nat, w: nat)
    requires i < j <= |labels|
    ensures Starts(labels[i..j], w) == Starts(labels[i..j - 1], w) + Bit(labels[j - 1] == Start(w))
  {
    assert labels[i..j][..j - i - 1] == labels[i..j - 1];
  }

  lemma {:induction false} StartsBounded(run: seq<State>, labels: seq<Label>, i: nat, j: nat, w: nat)
    requires IsRun(run, labels) && i <= j < |run| && run[i].done && w < |run[i].workers|
    ensures run[j].done && |run[j].workers| == |run[i].workers|
    ensures Starts(labels[i..j], w) + Bit(MayStart(run[j].workers[w])) <= Bit(MayStart(run[i].workers[w]))
    decreases j - i
  {
    if i < j {
      StartsBounded(run, labels, i, j - 1, w);
      StartsStep(run, labels, j - 1, w);
      StartsExtend(labels, i, j, w);
    }
  }

  /** Once m_done is set each worker begins at most one more body. */
  lemma OneMoreTask(run: seq<State>, labels: seq<Label>, i: nat, j: nat, w: nat)
    requires IsRun(run, labels) && i <= j < |run| && run[i].done && w < |run[i].workers|
    ensures Starts(labels[i..j], w) <= 1
  {
    StartsBounded(run, labels, i, j, w);
  }

  /** What is queued when the queue becomes invalid stays queued and pending for ever. */
  lemma LeftInQueue(run: seq<State>, labels: seq<Label>, i: nat, j: nat, k: nat)
    requires IsRun(run, labels) && i <= j < |run| && !run[i].valid && k < |run[i].queue|
    ensures k < |run[j].queue| && run[j].queue[k] == run[i].queue[k]
    ensures run[i].queue[k] < |run[j].tasks| && run[j].tasks[run[i].queue[k]].status.Pending?
  {
    QueueIsRest(run, labels, i);
    QueueIsRest(run, labels, j);
    HistoriesGrow(run, labels, i, j);
    RunKeeps(run, labels, j);
    var n := |run[i].popped| + k;
    assert run[i].pushed[n] == run[i].queue[k];
    assert run[j].pushed[n] == run[j].queue[k];
  }
}
