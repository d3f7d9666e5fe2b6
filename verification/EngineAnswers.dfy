/** What a status request reports, and when its task ended. */
module EngineAnswers {
  import opened TaskStatus
  import opened Engine
  import opened EngineInvariant
  import opened EngineProofs
  import opened EngineFrames
  import opened EngineTheorems

  /** The step writes the terminal status of `o`. */
  predicate Finishes(s: State, l: Label, o: Obj) {
    || (l.Finish? && l.w < |s.workers| && s.workers[l.w] == Body(o))
    || (l.NetFinish? && s.net == NetBody(o))
  }

  /** Step `i` of the run writes the terminal status of `o`. */
  ghost predicate FinishesAt(run: seq<State>, labels: seq<Label>, i: nat, o: Obj)
    requires i < |labels| < |run|
  {
    Finishes(run[i], labels[i], o)
  }

  lemma EndsBy(s: State, l: Label, s': State, o: Obj)
    requires Inv(s) && Step(s, l) == Some(s') && o < |s.tasks| <= |s'.tasks|
    ensures Finishes(s, l, o) ==> !s.tasks[o].status.IsTerminal() && s'.tasks[o].status.IsTerminal()
    ensures !Finishes(s, l, o) ==> (s'.tasks[o].status.IsTerminal() <==> s.tasks[o].status.IsTerminal())
  {
    if IsWorker(l) {
      EndsByWorker(s, l, s', o);
    } else if IsNet(l) {
      NetFrame(s, l, s');
    } else {
      IpcFrame(s, l, s');
    }
  }

  lemma EndsByWorker(s: State, l: Label, s': State, o: Obj)
    requires Holding(s.tasks, s.place, s.workers) && IsWorker(l) && Step(s, l) == Some(s')
    requires o < |s.tasks| <= |s'.tasks|
    ensures Finishes(s, l, o) ==> !s.tasks[o].status.IsTerminal() && s'.tasks[o].status.IsTerminal()
    ensures !Finishes(s, l, o) ==> (s'.tasks[o].status.IsTerminal() <==> s.tasks[o].status.IsTerminal())
  {
    WorkerFrame(s, l, s');
    assert HoldsWell(s.tasks, s.place, l.w, s.workers[l.w]);
  }

  lemma EndsByStep(run: seq<State>, labels: seq<Label>, i: nat, o: Obj)
    requires IsRun(run, labels) && i < |labels| && o < |run[i].tasks| <= |run[i + 1].tasks|
    ensures FinishesAt(run, labels, i, o) ==> !run[i].tasks[o].status.IsTerminal()
    ensures !FinishesAt(run, labels, i, o) ==>
      (run[i + 1].tasks[o].status.IsTerminal() <==> run[i].tasks[o].status.IsTerminal())
  {
    assert Follows(run, labels, i);
    RunKeeps(run, labels, i);
    EndsBy(run[i], labels[i], run[i + 1], o);
  }

  /** A task that has ended by state `e` had ended by state `k` if and only if its end is not among
      the steps in between. */
  lemma {:induction false} EndedIff(run: seq<State>, labels: seq<Label>, k: nat, e: nat, o: Obj)
    requires IsRun(run, labels) && k <= e < |run| && o < |run[k].tasks| <= |run[e].tasks|
    requires run[e].tasks[o].status.IsTerminal()
    ensures run[k].tasks[o].status.IsTerminal() <==> forall i :: k <= i < e ==> !FinishesAt(run, labels, i, o)
    decreases e - k
  {
    if k < e {
      RunProgress(run, labels, k, k + 1);
      RunProgress(run, labels, k + 1, e);
      EndsByStep(run, labels, k, o);
      EndedIff(run, labels, k + 1, e, o);
    }
  }

  /** The handler is past its snapshot. */
  predicate PastSnapshot(ipc: Ipc) { ipc.Reported? || ipc.Rechecked? || ipc.Erasing? }

  /** Past a snapshot, the handler still serves the request of object `o` with report `rep`. */
  predicate SameRequest(ipc: Ipc, tid: Id, o: Obj, rep: Status) {
    PastSnapshot(ipc) ==> ipc.tid == tid && ipc.o == o && ipc.rep == rep
  }

  lemma RequestStep(s: State, l: Label, s': State, tid: Id, o: Obj, rep: Status)
    requires Step(s, l) == Some(s') && l != Snapshot && SameRequest(s.ipc, tid, o, rep)
    ensures SameRequest(s'.ipc, tid, o, rep)
  {
    if IsWorker(l) {
      WorkerFrame(s, l, s');
    } else if IsNet(l) {
      NetFrame(s, l, s');
    } else if l.EraseEntry? {
      assert s'.ipc.Idle?;
    } else if IsStatus(l) {
      AnswerGoesOn(s.tasks, s.registry, s.ipc, l, tid, o, rep);
    } else if IsCreate(l) {
      AfterCreate(s, l, s');
    } else if IsScan(l) {
      AfterScan(s, l, s');
    } else {
      AfterCommand(s, l, s');
    }
  }

  lemma AnswerGoesOn(tasks: seq<Task>, registry: map<Id, Obj>, ipc: Ipc, l: Label, tid: Id, o: Obj, rep: Status)
    requires l != Snapshot && SameRequest(ipc, tid, o, rep) && AnswerStep(tasks, registry, ipc, l).Some?
    ensures SameRequest(AnswerStep(tasks, registry, ipc, l).value, tid, o, rep)
  {
  }

  lemma AfterCreate(s: State, l: Label, s': State)
    requires CreateStep(s, l) == Some(s')
    ensures !PastSnapshot(s'.ipc)
  {
  }

  lemma AfterScan(s: State, l: Label, s': State)
    requires ScanStep(s, l) == Some(s')
    ensures !PastSnapshot(s'.ipc)
  {
  }

  lemma AfterCommand(s: State, l: Label, s': State)
    requires CommandStep(s, l) == Some(s')
    ensures !PastSnapshot(s'.ipc)
  {
  }

  lemma {:induction false} RequestGoesOn(run: seq<State>, labels: seq<Label>, k: nat, e: nat, tid: Id, o: Obj,
                                         rep: Status)
    requires IsRun(run, labels) && k <= e < |run| && Snapshot !in labels[k..e] && SameRequest(run[k].ipc, tid, o, rep)
    ensures SameRequest(run[e].ipc, tid, o, rep)
    decreases e - k
  {
    if k < e {
      assert labels[k] == labels[k..e][0] && labels[k + 1..e] == labels[k..e][1..];
      assert Follows(run, labels, k);
      RequestStep(run[k], labels[k], run[k + 1], tid, o, rep);
      RequestGoesOn(run, labels, k + 1, e, tid, o, rep);
    }
  }

  lemma SnapshotTaken(run: seq<State>, labels: seq<Label>, k: nat)
    requires IsRun(run, labels) && k < |labels| && labels[k].Snapshot?
    ensures run[k].ipc.Found? && run[k].ipc.o < |run[k].tasks| && run[k + 1].tasks == run[k].tasks
    ensures run[k + 1].ipc == Reported(run[k].ipc.tid, run[k].ipc.o, run[k].tasks[run[k].ipc.o].status)
  {
    assert Follows(run, labels, k);
  }

  lemma ErasesTerminal(run: seq<State>, labels: seq<Label>, e: nat)
    requires IsRun(run, labels) && e < |labels| && labels[e].EraseEntry?
    ensures run[e].ipc.Erasing? && run[e].ipc.o < |run[e].tasks| && run[e].tasks[run[e].ipc.o].status.IsTerminal()
  {
    assert Follows(run, labels, e);
    RunKeeps(run, labels, e);
  }

  /** A request that takes its snapshot at step `k` and erases the entry at step `e` reports a
      terminal status if and only if the task did not end in between. */
  lemma ReportIsTerminalIff(run: seq<State>, labels: seq<Label>, k: nat, e: nat)
    requires IsRun(run, labels) && k < e < |labels| && labels[k].Snapshot? && labels[e].EraseEntry?
    requires Snapshot !in labels[k + 1..e]
    ensures run[e].ipc.Erasing? && run[k].ipc.Found? && run[e].ipc.tid == run[k].ipc.tid && run[e].ipc.o == run[k].ipc.o
    ensures run[e].ipc.rep.IsTerminal() <==> forall i :: k < i < e ==> !FinishesAt(run, labels, i, run[e].ipc.o)
  {
    SnapshotTaken(run, labels, k);
    ErasesTerminal(run, labels, e);
    var ipc := run[k + 1].ipc;
    RequestGoesOn(run, labels, k + 1, e, ipc.tid, ipc.o, ipc.rep);
    RunProgress(run, labels, k + 1, e);
    EndedIff(run, labels, k + 1, e, ipc.o);
  }
}
