/** The lock that a shutdown request takes twice: who waits for whom, and when for ever. */
module EngineLocks {
  import opened TaskStatus
  import opened Engine
  import opened EngineInvariant
  import opened EngineProofs
  import opened EngineFrames

  /** Some thread is about to write the status of `o`. */
  ghost predicate HasWriter(workers: seq<Worker>, net: Net, o: Obj) {
    || (exists w :: 0 <= w < |workers| && (workers[w] == Got(o) || workers[w] == Body(o)))
    || net == NetHeld(o) || net == NetBody(o)
  }

  /** The worker is about to write the status of an object whose lock is held. */
  predicate LockedOut(s: State, w: nat)
    requires w < |s.workers|
  {
    (s.workers[w].Got? || s.workers[w].Body?) && HoldsLock(s.registry, s.ipc, s.workers[w].o)
  }

  /** The IPC thread holds the lock of `o`, which it needs once more, while a writer waits for it. */
  predicate Deadlocked(s: State, o: Obj) { HoldsLock(s.registry, s.ipc, o) && o in s.waiting }

  /** A step that the IPC thread can take. */
  ghost predicate IpcSteps(s: State, l: Label) { !IsWorker(l) && !IsNet(l) && Step(s, l).Some? }

  ghost predicate IpcStuck(s: State) { forall l :: !IpcSteps(s, l) }

  // ---- what the IPC thread can do ----

  lemma HandlerCanStep(s: State) returns (l: Label)
    requires WithIpc(s.place, s.ipc) && Answering(s.tasks, s.registry, s.ipc)
    requires s.ipc.Admitted? || s.ipc.HandOff? || s.ipc.Found? || s.ipc.Reported? || s.ipc.Rechecked? || s.ipc.Erasing?
    ensures IpcSteps(s, l)
  {
    match s.ipc
    case Admitted(_) => l := Register;
    case HandOff(_) =>
      if SomeAsleep(s.workers) {
        var w :| 0 <= w < |s.workers| && s.workers[w].Asleep?;
        l := Enqueue(w);
      } else {
        l := Enqueue(0);
      }
    case Found(_, _) => l := Snapshot;
    case Reported(_, _, _) => l := Recheck;
    case Rechecked(_, _, _) => l := RecheckError;
    case Erasing(_, _, _) => l := EraseEntry;
  }

  lemma ScanCanStep(s: State) returns (l: Label)
    requires Registered(s.tasks, s.registry) && Locks(s.registry, s.ipc, s.waiting)
    requires s.ipc.Scanning? && s.ipc.todo <= s.registry.Keys
    requires s.ipc.held.Some? ==> s.registry[s.ipc.held.value] !in s.waiting
    ensures IpcSteps(s, l)
  {
    if s.ipc.todo == {} {
      l := EndScan;
    } else if s.ipc.held.Some? {
      l := ReadEntry;
    } else {
      var id :| id in s.ipc.todo;
      l := if s.ipc.purpose.ForStats? then ScanEntry(id) else HoldEntry(id);
    }
  }

  lemma CommandCanStep(s: State) returns (l: Label)
    requires s.ipc.Idle? || s.ipc.ShutdownRequested? || s.ipc.NoneActive? || s.ipc.Refusing? || s.ipc.Closing? ||
      s.ipc.DoneSet?
    ensures IpcSteps(s, l)
  {
    l := if s.ipc.Idle? then Pause
         else if s.ipc.ShutdownRequested? then BeginScan
         else if s.ipc.NoneActive? then NamespaceCheck(true)
         else if s.ipc.Refusing? then Resume
         else if s.ipc.Closing? then SetDone
         else InvalidateQueue;
  }

  lemma IpcCanStep(s: State) returns (l: Label)
    requires WithIpc(s.place, s.ipc) && Answering(s.tasks, s.registry, s.ipc) && Registered(s.tasks, s.registry)
    requires Locks(s.registry, s.ipc, s.waiting) && (s.ipc.Scanning? ==> s.ipc.todo <= s.registry.Keys)
    requires !s.ipc.Invalidated? && forall o :: !Deadlocked(s, o)
    ensures IpcSteps(s, l)
  {
    if s.ipc.Scanning? {
      assert s.ipc.held.Some? ==> !Deadlocked(s, s.registry[s.ipc.held.value]);
      l := ScanCanStep(s);
    } else if s.ipc.Admitted? || s.ipc.HandOff? || s.ipc.Found? || s.ipc.Reported? || s.ipc.Rechecked? ||
      s.ipc.Erasing? {
      l := HandlerCanStep(s);
    } else {
      l := CommandCanStep(s);
    }
  }

  lemma DeadlockStops(s: State, o: Obj, l: Label)
    requires Locks(s.registry, s.ipc, s.waiting) && Deadlocked(s, o)
    ensures !IpcSteps(s, l)
  {
  }

  lemma InvalidatedStops(s: State, l: Label)
    requires s.ipc.Invalidated?
    ensures !IpcSteps(s, l)
  {
  }

  /** In a reachable state the IPC thread is stuck if and only if it has ended by invalidating the
      queue, or it holds the lock of an object on which a writer waits. */
  lemma IpcStuckIff(run: seq<State>, labels: seq<Label>, i: nat)
    requires IsRun(run, labels) && i < |run|
    ensures IpcStuck(run[i]) <==> run[i].ipc.Invalidated? || exists o :: Deadlocked(run[i], o)
  {
    var s := run[i];
    RunKeeps(run, labels, i);
    if s.ipc.Invalidated? {
      forall l ensures !IpcSteps(s, l) {
        InvalidatedStops(s, l);
      }
    } else if o :| Deadlocked(s, o) {
      forall l ensures !IpcSteps(s, l) {
        DeadlockStops(s, o, l);
      }
    } else {
      var l := IpcCanStep(s);
    }
  }

  // ---- writers ----

  /** While the lock of `o` is held, the thread that is about to write `o` stays where it is. */
  lemma WriterStays(s: State, l: Label, s': State, o: Obj)
    requires Step(s, l) == Some(s') && HoldsLock(s.registry, s.ipc, o) && HasWriter(s.workers, s.net, o)
    ensures HasWriter(s'.workers, s'.net, o)
  {
    if IsWorker(l) {
      WorkerFrame(s, l, s');
      if w :| 0 <= w < |s.workers| && (s.workers[w] == Got(o) || s.workers[w] == Body(o)) {
        assert s'.workers[w] == s.workers[w];
      }
    } else if IsNet(l) {
      NetFrame(s, l, s');
    } else {
      ScanFrameAll(s, l, s');
    }
  }

  /** While a scan is in progress the IPC thread changes nothing but its own position. */
  lemma ScanFrameAll(s: State, l: Label, s': State)
    requires s.ipc.Scanning? && !IsWorker(l) && !IsNet(l) && Step(s, l) == Some(s')
    ensures s' == s.(ipc := s'.ipc)
  {
    if IsScan(l) {
      ScanFrame(s, l, s');
    }
  }

  /** A step of another thread adds to the waiting objects at most one that has a writer. */
  lemma WaitingStep(s: State, l: Label, s': State, o: Obj)
    requires Locks(s.registry, s.ipc, s.waiting) && Step(s, l) == Some(s') && o in s'.waiting
    requires o in s.waiting ==> HasWriter(s.workers, s.net, o)
    ensures HasWriter(s'.workers, s'.net, o)
  {
    if o in s.waiting {
      WriterStays(s, l, s', o);
    } else if l.Contend? {
      assert s'.workers[l.w] == Got(o) || s'.workers[l.w] == Body(o);
    } else if !l.NetContend? {
      WaitingKept(s, l, s');
    }
  }

  lemma WaitingKept(s: State, l: Label, s': State)
    requires !l.Contend? && !l.NetContend? && Step(s, l) == Some(s')
    ensures s'.waiting == s.waiting
  {
    if IsWorker(l) {
      WorkerFrame(s, l, s');
    } else if IsNet(l) {
      NetFrame(s, l, s');
    } else {
      IpcFrame(s, l, s');
    }
  }

  /** What waits for a lock in a reachable state is a thread that is about to write a status, and
      the lock it waits for is the one that the IPC thread holds. */
  lemma {:induction false} WaitersAreWriters(run: seq<State>, labels: seq<Label>, i: nat, o: Obj)
    requires IsRun(run, labels) && i < |run| && o in run[i].waiting
    ensures Deadlocked(run[i], o) && HasWriter(run[i].workers, run[i].net, o)
  {
    WaitingIsDeadlock(run, labels, i, o);
    assert i > 0;
    if o in run[i - 1].waiting {
      WaitersAreWriters(run, labels, i - 1, o);
    }
    WaitingGoesOn(run, labels, i - 1, o);
  }

  lemma WaitingIsDeadlock(run: seq<State>, labels: seq<Label>, i: nat, o: Obj)
    requires IsRun(run, labels) && i < |run| && o in run[i].waiting
    ensures Deadlocked(run[i], o)
  {
    RunKeeps(run, labels, i);
  }

  lemma WaitingGoesOn(run: seq<State>, labels: seq<Label>, i: nat, o: Obj)
    requires IsRun(run, labels) && i < |labels| && o in run[i + 1].waiting
    requires o in run[i].waiting ==> HasWriter(run[i].workers, run[i].net, o)
    ensures HasWriter(run[i + 1].workers, run[i + 1].net, o)
  {
    assert Follows(run, labels, i);
    RunKeeps(run, labels, i);
    WaitingStep(run[i], labels[i], run[i + 1], o);
  }

  /** A step by which a writer begins to wait for the lock of `o`. */
  ghost predicate Contends(s: State, l: Label, o: Obj) {
    && (l.Contend? || l.NetContend?)
    && Step(s, l).Some? && o in Step(s, l).value.waiting && o !in s.waiting
  }

  /** A held lock can become contended if and only if some thread is about to write the object. */
  lemma ContendIff(s: State, o: Obj)
    requires HoldsLock(s.registry, s.ipc, o) && o !in s.waiting
    ensures (exists l :: Contends(s, l, o)) <==> HasWriter(s.workers, s.net, o)
  {
    if w :| 0 <= w < |s.workers| && (s.workers[w] == Got(o) || s.workers[w] == Body(o)) {
      assert Contends(s, Contend(w), o);
    } else if s.net == NetHeld(o) || s.net == NetBody(o) {
      assert Contends(s, NetContend, o);
    }
  }

  // ---- for ever ----

  lemma DeadlockStep(s: State, l: Label, s': State, o: Obj)
    requires Inv(s) && Step(s, l) == Some(s') && Deadlocked(s, o) && o < |s.tasks|
    ensures Deadlocked(s', o) && s'.ipc == s.ipc && s'.registry == s.registry && s'.paused == s.paused
    ensures |s'.tasks| == |s.tasks| && s'.tasks[o].status == s.tasks[o].status
  {
    if IsWorker(l) {
      WorkerFrame(s, l, s');
      WaitingGrows(s, l, s');
    } else if IsNet(l) {
      NetFrame(s, l, s');
      WaitingGrows(s, l, s');
      assert !l.NetRegister?;
    } else {
      DeadlockStops(s, o, l);
    }
  }

  lemma DeadlockMeans(run: seq<State>, labels: seq<Label>, i: nat, o: Obj)
    requires IsRun(run, labels) && i < |run| && Deadlocked(run[i], o)
    ensures o < |run[i].tasks| && run[i].paused
  {
    RunKeeps(run, labels, i);
  }

  lemma DeadlockGoesOn(run: seq<State>, labels: seq<Label>, i: nat, o: Obj)
    requires IsRun(run, labels) && i < |labels| && Deadlocked(run[i], o) && o < |run[i].tasks|
    ensures Deadlocked(run[i + 1], o) && run[i + 1].ipc == run[i].ipc && run[i + 1].registry == run[i].registry
    ensures run[i + 1].paused == run[i].paused && |run[i + 1].tasks| == |run[i].tasks|
    ensures run[i + 1].tasks[o].status == run[i].tasks[o].status
  {
    assert Follows(run, labels, i);
    RunKeeps(run, labels, i);
    DeadlockStep(run[i], labels[i], run[i + 1], o);
  }

  lemma WaitingGrows(s: State, l: Label, s': State)
    requires Step(s, l) == Some(s')
    ensures s.waiting <= s'.waiting
  {
    if !l.Contend? && !l.NetContend? {
      WaitingKept(s, l, s');
    }
  }

  /** Such a deadlock is for ever: the IPC thread never moves again, so that no request is answered
      and the daemon stays paused, the task keeps its status, and no task of either kind is created. */
  lemma {:induction false} DeadlockForever(run: seq<State>, labels: seq<Label>, i: nat, j: nat, o: Obj)
    requires IsRun(run, labels) && i <= j < |run| && Deadlocked(run[i], o)
    ensures Deadlocked(run[j], o) && run[j].ipc == run[i].ipc && run[j].registry == run[i].registry && run[j].paused
    ensures o < |run[i].tasks| == |run[j].tasks| && run[j].tasks[o].status == run[i].tasks[o].status
    ensures IpcStuck(run[j])
    decreases j - i
  {
    if i < j {
      DeadlockForever(run, labels, i, j - 1, o);
      DeadlockGoesOn(run, labels, j - 1, o);
    } else {
      DeadlockMeans(run, labels, i, o);
    }
    IpcStuckIff(run, labels, j);
  }
}
