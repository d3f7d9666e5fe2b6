/** Scans that race with the workers: shutdown, statistics, and the end of the daemon. */
module EngineShutdown {
  import opened TaskStatus
  import opened Engine
  import opened EngineInvariant
  import opened EngineProofs
  import opened EngineFrames
  import opened EngineTheorems
  import opened EngineRegistry

  // ---- scans ----

  /** A scan in progress began at some earlier state, from whose tasks it counts, and the registry
      has been locked ever since. */
  lemma {:induction false} ScanOrigin(run: seq<State>, labels: seq<Label>, i: nat) returns (b: nat)
    requires IsRun(run, labels) && i < |run| && run[i].ipc.Scanning?
    ensures b < i && if run[i].ipc.purpose.ForStats? then labels[b].StatsRequest? else labels[b].BeginScan?
    ensures run[i].ipc.start == run[b].tasks && run[i].registry == run[b].registry
  {
    assert i > 0;
    var s, l, s' := run[i - 1], labels[i - 1], run[i];
    assert Follows(run, labels, i - 1);
    if l.StatsRequest? || l.BeginScan? {
      b := i - 1;
    } else {
      ScanGoesOn(s, l, s');
      b := ScanOrigin(run, labels, i - 1);
    }
  }

  lemma ScanGoesOn(s: State, l: Label, s': State)
    requires Step(s, l) == Some(s') && s'.ipc.Scanning? && !l.StatsRequest? && !l.BeginScan?
    ensures s.ipc.Scanning? && s'.registry == s.registry && s'.ipc.start == s.ipc.start
    ensures s'.ipc.purpose == s.ipc.purpose
  {
    if IsWorker(l) {
      WorkerFrame(s, l, s');
    } else if IsNet(l) {
      NetFrame(s, l, s');
      assert l.NetRegister? ==> !Locked(s);
    } else if IsCreate(l) {
      CreateFrame(s, l, s');
    } else if IsStatus(l) {
      StatusFrame(s, l, s');
    } else if IsScan(l) {
      ScanFrame(s, l, s');
    } else {
      CommandFrame(s, l, s');
    }
  }

  /** The counts of a finished scan, although tasks progress while it visits the entries: what is
      pending at its end is at most the pending count, which is at most what was pending at its
      beginning; likewise for pending and running together. */
  lemma ScanSandwich(run: seq<State>, labels: seq<Label>, i: nat) returns (b: nat)
    requires IsRun(run, labels) && i < |run| && run[i].ipc.Scanning? && run[i].ipc.todo == {}
    ensures b < i && if run[i].ipc.purpose.ForStats? then labels[b].StatsRequest? else labels[b].BeginScan?
    ensures run[i].registry == run[b].registry
    ensures |PendingIn(run[i].registry.Keys, run[i].registry, run[i].tasks)| <= run[i].ipc.pending
    ensures run[i].ipc.pending <= |PendingIn(run[b].registry.Keys, run[b].registry, run[b].tasks)|
    ensures |ActiveIn(run[i].registry.Keys, run[i].registry, run[i].tasks)| <= run[i].ipc.pending + run[i].ipc.running
    ensures run[i].ipc.pending + run[i].ipc.running <= |ActiveIn(run[b].registry.Keys, run[b].registry, run[b].tasks)|
  {
    b := ScanOrigin(run, labels, i);
    RunKeeps(run, labels, i);
    assert run[i].registry.Keys - run[i].ipc.todo == run[i].registry.Keys;
  }

  // ---- shutdown ----

  /** Nothing local is active or can become so. */
  ghost predicate Quiet(s: State) {
    && s.paused
    && s.queue == []
    && !s.ipc.Admitted? && !s.ipc.HandOff?
    && (forall w: int, o: Obj :: 0 <= w < |s.workers| && s.workers[w].Holds(o) && o < |s.tasks| ==>
      !s.tasks[o].status.IsActive())
    && LocalsEnded(s.tasks)
  }

  ghost predicate AllEnded(tasks: seq<Task>) {
    forall o :: 0 <= o < |tasks| ==> tasks[o].status.IsTerminal()
  }

  lemma QuietStep(run: seq<State>, labels: seq<Label>, i: nat)
    requires IsRun(run, labels) && i < |labels| && Quiet(run[i]) && !labels[i].Resume?
    ensures Quiet(run[i + 1])
  {
    var s, l, s' := run[i], labels[i], run[i + 1];
    assert Follows(run, labels, i);
    RunKeeps(run, labels, i);
    RunKeeps(run, labels, i + 1);
    QuietEnded(s, l, s');
    QuietFromEnded(s');
  }

  lemma QuietEnded(s: State, l: Label, s': State)
    requires Inv(s) && Step(s, l) == Some(s') && !l.Resume?
    requires s.paused && !s.ipc.Admitted? && !s.ipc.HandOff? && LocalsEnded(s.tasks)
    ensures s'.paused && !s'.ipc.Admitted? && !s'.ipc.HandOff? && LocalsEnded(s'.tasks)
  {
    StepAdvances(s, l, s');
    if IsWorker(l) {
      WorkerFrame(s, l, s');
    } else if IsNet(l) {
      NetFrame(s, l, s');
    } else if IsCreate(l) {
      CreateFrame(s, l, s');
    } else if IsStatus(l) {
      StatusFrame(s, l, s');
    } else if IsScan(l) {
      ScanFrame(s, l, s');
    } else {
      CommandFrame(s, l, s');
    }
  }

  lemma QueuedIsPending(s: State)
    requires Inv(s) && s.queue != []
    ensures s.queue[0] < |s.tasks| && s.tasks[s.queue[0]].status.Pending? && !s.tasks[s.queue[0]].remote
  {
    assert s.pushed[|s.popped|] == s.queue[0];
  }

  lemma QuietFromEnded(s: State)
    requires Inv(s) && s.paused && !s.ipc.Admitted? && !s.ipc.HandOff? && LocalsEnded(s.tasks)
    ensures Quiet(s)
  {
    if s.queue != [] {
      QueuedIsPending(s);
      assert false;
    }
    forall w: int, o: Obj | 0 <= w < |s.workers| && s.workers[w].Holds(o) && o < |s.tasks|
      ensures !s.tasks[o].status.IsActive()
    {
      assert HoldsWell(s.tasks, s.place, w, s.workers[w]);
    }
  }

  lemma QuietAtEnd(run: seq<State>, labels: seq<Label>, i: nat)
    requires IsRun(run, labels) && i < |labels| && labels[i].EndScan? && run[i + 1].ipc.NoneActive?
    ensures AllEnded(run[i + 1].tasks) && Quiet(run[i + 1])
  {
    RunKeeps(run, labels, i);
    assert Follows(run, labels, i);
    ScanEndedQuiet(run[i], labels[i], run[i + 1]);
    RunKeeps(run, labels, i + 1);
    QuietFromEnded(run[i + 1]);
  }

  /** When the scan of a shutdown request counts nothing, then, although statuses moved while it
      ran, at its end no task is active anywhere, and the pool stays quiet until a resume. */
  lemma {:induction false} ShutdownIsSound(run: seq<State>, labels: seq<Label>, i: nat, j: nat)
    requires IsRun(run, labels) && i < j < |run| && labels[i].EndScan? && run[i + 1].ipc.NoneActive?
    requires Resume !in labels[i + 1..j]
    ensures AllEnded(run[i + 1].tasks) && Quiet(run[j])
    decreases j
  {
    QuietAtEnd(run, labels, i);
    if j > i + 1 {
      assert labels[i + 1..j] == labels[i + 1..j - 1] + [labels[j - 1]];
      ShutdownIsSound(run, labels, i, j - 1);
      QuietStep(run, labels, j - 1);
    }
  }

  lemma ScanEndedQuiet(s: State, l: Label, s': State)
    requires Registered(s.tasks, s.registry) && Defined(s.tasks) && Scans(s.tasks, s.registry, s.ipc)
    requires Flags(s.done, s.valid, s.paused, s.ipc)
    requires l.EndScan? && Step(s, l) == Some(s') && s'.ipc.NoneActive?
    ensures AllEnded(s'.tasks) && s'.paused && LocalsEnded(s'.tasks)
  {
    CountedNothing(s.tasks, s.registry, s.ipc);
  }

  /** The verdict of a shutdown scan that finds nothing active when it begins is to go on. */
  lemma IdleDaemonMayStop(run: seq<State>, labels: seq<Label>, i: nat) returns (b: nat)
    requires IsRun(run, labels) && i < |labels| && labels[i].EndScan? && run[i].ipc.Scanning?
    requires run[i].ipc.purpose.ForShutdown?
    ensures b < i && labels[b].BeginScan?
    ensures ActiveIn(run[b].registry.Keys, run[b].registry, run[b].tasks) == {} ==> run[i + 1].ipc.NoneActive?
  {
    assert Follows(run, labels, i);
    b := ScanSandwich(run, labels, i);
  }

  /** A rejected creation forbids every later shutdown: no scan ever counts nothing. */
  lemma RejectionForbidsShutdown(run: seq<State>, labels: seq<Label>, i: nat, j: nat, o: Obj)
    requires IsRun(run, labels) && i < j < |run| && Rejects(run, labels, i, o)
    ensures !(labels[j - 1].EndScan? && run[j].ipc.NoneActive?)
  {
    RejectedForever(run, labels, i, j, o);
    if labels[j - 1].EndScan? && run[j].ipc.NoneActive? {
      ShutdownIsSound(run, labels, j - 1, j);
    }
  }
}
