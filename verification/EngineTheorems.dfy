/** What holds in every reachable state and over every run of the engine. */
module EngineTheorems {
  import opened TaskStatus
  import opened Engine
  import opened EngineInvariant
  import opened EngineProofs
  import opened EngineFrames
  import opened EngineHistory

  // ---- ownership ----

  ghost function Holders(workers: seq<Worker>, o: Obj): set<int> {
    set w | 0 <= w < |workers| && workers[w].Holds(o)
  }

  function Bit(b: bool): nat { if b then 1 else 0 }

  /** In how many places the object is: in the queue (with multiplicity), with workers, being
      handed to the queue, with the network thread, completed, or orphaned. */
  ghost function Occurrences(s: State, o: Obj): nat
    requires o < |s.place|
  {
    multiset(s.queue)[o] + |Holders(s.workers, o)| + Bit(s.ipc == HandOff(o))
      + Bit(s.net == NetHeld(o) || s.net == NetBody(o)) + Bit(s.place[o].Completed?) + Bit(s.place[o].Orphaned?)
  }

  lemma CountOnce(q: seq<Obj>, k: nat)
    requires k < |q| && forall i :: 0 <= i < |q| && i != k ==> q[i] != q[k]
    ensures multiset(q)[q[k]] == 1
  {
    assert q == q[..k] + [q[k]] + q[k + 1..];
    assert multiset(q) == multiset(q[..k]) + multiset{q[k]} + multiset(q[k + 1..]);
  }

  lemma InOnePlace(s: State, o: Obj)
    requires Inv(s) && o < |s.tasks|
    ensures Occurrences(s, o) == 1
  {
    var p := s.place[o];
    assert multiset(s.queue)[o] == Bit(p.Queued?) by {
      if p.Queued? {
        QueueTicket(s, o);
      } else {
        forall i | 0 <= i < |s.queue| ensures s.queue[i] != o {
          assert s.pushed[|s.popped| + i] == s.queue[i];
        }
      }
    }
    assert Holders(s.workers, o) == if p.WithWorker? then {p.w} else {} by {
      forall w | 0 <= w < |s.workers| && s.workers[w].Holds(o) ensures p == WithWorker(w) {
        assert HoldsWell(s.tasks, s.place, w, s.workers[w]);
      }
    }
  }

  lemma QueueTicket(s: State, o: Obj)
    requires Fifo(s.place, s.queue, s.pushed, s.popped) && o < |s.place| && s.place[o].Queued?
    ensures multiset(s.queue)[o] == 1
  {
    var k := s.place[o].ticket - |s.popped|;
    assert s.queue[k] == o;
    forall i | 0 <= i < |s.queue| && i != k ensures s.queue[i] != o {
      assert s.pushed[|s.popped| + i] == s.queue[i];
    }
    CountOnce(s.queue, k);
  }

  /** In every reachable state every object is in exactly one place, its body has begun at most
      once, and an epilog runs only after the body set a terminal status. */
  lemma ExactlyOnce(run: seq<State>, labels: seq<Label>, i: nat, o: Obj)
    requires IsRun(run, labels) && i < |run| && o < |run[i].tasks|
    ensures |run[i].place| == |run[i].tasks| && Occurrences(run[i], o) == 1
    ensures multiset(Begun(run, labels, i))[o] == if run[i].tasks[o].status.Pending? then 0 else 1
    ensures forall w :: 0 <= w < |run[i].workers| && run[i].workers[w] == Epilog(o) ==>
      run[i].tasks[o].status.IsTerminal()
  {
    StartsAreBegun(run, labels, i);
    RunKeeps(run, labels, i);
    InOnePlace(run[i], o);
    forall w | 0 <= w < |run[i].workers| && run[i].workers[w] == Epilog(o) ensures run[i].tasks[o].status.IsTerminal() {
      assert HoldsWell(run[i].tasks, run[i].place, w, run[i].workers[w]);
    }
  }

  // ---- wake-ups ----

  /** While a worker sleeps unnotified on a valid queue, every queued task has a notified worker
      on its way; once the queue is invalid nobody sleeps. */
  lemma NoLostWakeUp(run: seq<State>, labels: seq<Label>, i: nat)
    requires IsRun(run, labels) && i < |run|
    ensures run[i].valid && SomeAsleep(run[i].workers) ==> |run[i].queue| <= |NotifiedSet(run[i].workers)|
    ensures !run[i].valid ==> !SomeAsleep(run[i].workers)
  {
    RunKeeps(run, labels, i);
  }

  // ---- statuses ----

  lemma WorkerAdvances(s: State, l: Label, s': State)
    requires Holding(s.tasks, s.place, s.workers) && IsWorker(l) && Step(s, l) == Some(s')
    ensures Progress(s.tasks, s'.tasks)
    ensures forall o :: 0 <= o < |s.tasks| ==>
              s'.tasks[o].status == s.tasks[o].status || Advances(s.tasks[o].status, s'.tasks[o].status)
  {
    WorkerFrame(s, l, s');
    assert HoldsWell(s.tasks, s.place, l.w, s.workers[l.w]);
  }

  /** A step leaves a status alone or advances it by one stage. */
  lemma StepAdvances(s: State, l: Label, s': State)
    requires Inv(s) && Step(s, l) == Some(s')
    ensures Progress(s.tasks, s'.tasks)
    ensures forall o :: 0 <= o < |s.tasks| ==>
              s'.tasks[o].status == s.tasks[o].status || Advances(s.tasks[o].status, s'.tasks[o].status)
  {
    if IsWorker(l) {
      WorkerAdvances(s, l, s');
    } else if IsNet(l) {
      NetFrame(s, l, s');
    } else {
      IpcFrame(s, l, s');
    }
  }

  lemma StepProgress(run: seq<State>, labels: seq<Label>, i: nat)
    requires IsRun(run, labels) && i < |labels|
    ensures Progress(run[i].tasks, run[i + 1].tasks)
  {
    RunKeeps(run, labels, i);
    assert Follows(run, labels, i);
    StepAdvances(run[i], labels[i], run[i + 1]);
  }

  /** Over any stretch of any run a status only moves forward: pending, then running, then one
      terminal status that never changes again. */
  lemma {:induction false} RunProgress(run: seq<State>, labels: seq<Label>, i: nat, j: nat)
    requires IsRun(run, labels) && i <= j < |run|
    ensures Progress(run[i].tasks, run[j].tasks)
    ensures forall o :: 0 <= o < |run[i].tasks| ==>
      var before, after := run[i].tasks[o].status, run[j].tasks[o].status;
      && (before.Finished? ==> after.Finished?) && (before.FinishedWithError? ==> after.FinishedWithError?)
      && (before.Running? ==> after.Running? || after.Finished? || after.FinishedWithError?)
    decreases j - i
  {
    if i < j {
      RunProgress(run, labels, i, j - 1);
      StepProgress(run, labels, j - 1);
      ProgressTransitive(run[i].tasks, run[j - 1].tasks, run[j].tasks);
    }
  }
}
