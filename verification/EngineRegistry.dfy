/** Identifiers, entries and queue order over every run. */
module EngineRegistry {
  import opened TaskStatus
  import opened TaskRules
  import opened Engine
  import opened EngineInvariant
  import opened EngineProofs
  import opened EngineFrames
  import opened EngineHistory
  import opened EngineTheorems

  /** Distinct entries lead to distinct objects, each of which carries its entry's id. */
  lemma IdsDistinct(run: seq<State>, labels: seq<Label>, i: nat, a: Id, b: Id)
    requires IsRun(run, labels) && i < |run| && a in run[i].registry && b in run[i].registry && a != b
    ensures run[i].registry[a] < |run[i].tasks| && run[i].registry[b] < |run[i].tasks|
    ensures run[i].registry[a] != run[i].registry[b]
    ensures run[i].tasks[run[i].registry[a]].id == a && run[i].tasks[run[i].registry[b]].id == b
  {
    RunKeeps(run, labels, i);
  }

  /** Creation either refuses, which happens exactly when the next id is in use and changes neither
      counter nor registry, or really inserts a new object under an id that was free. */
  lemma CreationInserts(run: seq<State>, labels: seq<Label>, i: nat)
    requires IsRun(run, labels) && i < |labels| && (labels[i].Register? || labels[i].NetRegister?)
    ensures NextId(run[i].idBase) in run[i].registry ==>
      run[i + 1].registry == run[i].registry && run[i + 1].idBase == run[i].idBase && run[i + 1].tasks == run[i].tasks
    ensures NextId(run[i].idBase) !in run[i].registry ==>
      && run[i + 1].idBase == NextId(run[i].idBase)
      && run[i + 1].registry == run[i].registry[NextId(run[i].idBase) := |run[i].tasks|]
      && |run[i + 1].registry| == |run[i].registry| + 1
      && |run[i].tasks| !in run[i].registry.Values
      && |run[i + 1].tasks| == |run[i].tasks| + 1 && run[i + 1].tasks[..|run[i].tasks|] == run[i].tasks
      && run[i + 1].tasks[|run[i].tasks|].status.Pending? && run[i + 1].tasks[|run[i].tasks|].id == run[i + 1].idBase
  {
    var s := run[i];
    RunKeeps(run, labels, i);
    assert Follows(run, labels, i);
    var id := NextId(s.idBase);
    if id !in s.registry {
      assert s.registry[id := |s.tasks|].Keys == s.registry.Keys + {id};
      assert |s.registry[id := |s.tasks|].Keys| == |s.registry.Keys| + 1;
    }
  }

  /** An entry disappears only by the status handler's erasure, which removes exactly the object it
      reported on; that object is terminal, and what was reported is not later in its life. */
  lemma ErasureIsTerminal(run: seq<State>, labels: seq<Label>, i: nat, id: Id)
    requires IsRun(run, labels) && i < |labels| && id in run[i].registry
    requires id !in run[i + 1].registry || run[i + 1].registry[id] != run[i].registry[id]
    ensures labels[i].EraseEntry? && run[i].ipc.Erasing? && run[i].ipc.tid == id && run[i].ipc.o == run[i].registry[id]
    ensures run[i + 1].registry == run[i].registry - {id}
    ensures run[i].ipc.o < |run[i].tasks| && run[i].tasks[run[i].ipc.o].status.IsTerminal()
    ensures MayBecome(run[i].ipc.rep, run[i].tasks[run[i].ipc.o].status)
  {
    var s, l, s' := run[i], labels[i], run[i + 1];
    assert Follows(run, labels, i);
    RunKeeps(run, labels, i);
    if l.Register? || l.NetRegister? {
      CreationInserts(run, labels, i);
    } else if IsWorker(l) {
      WorkerFrame(s, l, s');
    } else if IsNet(l) {
      NetFrame(s, l, s');
    } else if IsStatus(l) {
      StatusFrame(s, l, s');
    } else {
      IpcFrame(s, l, s');
    }
  }

  // ---- orphans ----

  lemma OrphanWorkerStep(s: State, l: Label, s': State, o: Obj)
    requires Inv(s) && IsWorker(l) && Step(s, l) == Some(s') && o < |s.place| && s.place[o].Orphaned?
    ensures o < |s'.place| && s'.place[o].Orphaned?
  {
    WorkerFrame(s, l, s');
    if l.RunEpilog? {
      assert HoldsWell(s.tasks, s.place, l.w, s.workers[l.w]);
    } else if l.Take? && s.queue != [] {
      assert s.pushed[|s.popped|] == s.queue[0];
    }
  }

  lemma OrphanNetStep(s: State, l: Label, s': State, o: Obj)
    requires WithNet(s.tasks, s.place, s.net) && NetStep(s, l) == Some(s') && o < |s.place| && s.place[o].Orphaned?
    ensures o < |s'.place| && s'.place[o].Orphaned?
  {
  }

  lemma OrphanCreateStep(s: State, l: Label, s': State, o: Obj)
    requires WithIpc(s.place, s.ipc) && CreateStep(s, l) == Some(s') && o < |s.place| && s.place[o].Orphaned?
    ensures o < |s'.place| && s'.place[o].Orphaned?
  {
  }

  lemma OrphanStep(run: seq<State>, labels: seq<Label>, i: nat, o: Obj)
    requires IsRun(run, labels) && i < |labels| && o < |run[i].place| && run[i].place[o].Orphaned?
    ensures o < |run[i + 1].place| && run[i + 1].place[o].Orphaned?
  {
    var s, l, s' := run[i], labels[i], run[i + 1];
    assert Follows(run, labels, i);
    RunKeeps(run, labels, i);
    if IsWorker(l) {
      OrphanWorkerStep(s, l, s', o);
    } else if IsNet(l) {
      OrphanNetStep(s, l, s', o);
    } else if IsCreate(l) {
      OrphanCreateStep(s, l, s', o);
    } else {
      IpcFrame(s, l, s');
    }
  }

  lemma OrphanIsPending(run: seq<State>, labels: seq<Label>, i: nat, o: Obj)
    requires IsRun(run, labels) && i < |run| && o < |run[i].place| && run[i].place[o].Orphaned?
    ensures o < |run[i].tasks| && run[i].tasks[o].status.Pending?
    ensures run[i].tasks[o].id in run[i].registry && run[i].registry[run[i].tasks[o].id] == o
  {
    RunKeeps(run, labels, i);
  }

  /** Step `i` inserts object `o` for a request that it then rejects. */
  ghost predicate Rejects(run: seq<State>, labels: seq<Label>, i: nat, o: Obj)
    requires i < |labels| < |run|
  {
    && |run[i].tasks| == o && |run[i + 1].tasks| == o + 1
    && ((labels[i].Register? && run[i].ipc.Admitted? && Unacceptable(run[i].ipc.req, run[i].cfg.dryRun))
        || (labels[i].NetRegister? && !labels[i].accepted))
  }

  /** A copy or move without a transferor that validates it, or a kind that is none of the four. */
  predicate Unacceptable(req: Request, dryRun: bool) {
    || ((req.kind.Copy? || req.kind.Move?) && !(req.hasTransferor && req.validates))
    || (!dryRun && !(req.kind.Copy? || req.kind.Move? || req.kind.Remove? || req.kind.Noop?))
  }

  /** No step but its insertion makes an object an orphan. */
  lemma NoNewOrphan(s: State, l: Label, s': State, o: Obj)
    requires Inv(s) && Step(s, l) == Some(s') && o < |s.place|
    ensures o < |s'.place| && (s'.place[o].Orphaned? ==> s.place[o].Orphaned?)
  {
    if IsWorker(l) {
      WorkerFrame(s, l, s');
    } else if IsNet(l) {
      NetMakesNoOrphan(s, l, s', o);
    } else if IsCreate(l) {
      CreationMakesNoOrphan(s, l, s', o);
    } else {
      IpcFrame(s, l, s');
    }
  }

  lemma NetMakesNoOrphan(s: State, l: Label, s': State, o: Obj)
    requires NetStep(s, l) == Some(s') && o < |s.place|
    ensures o < |s'.place| && (s'.place[o].Orphaned? ==> s.place[o].Orphaned?)
  {
  }

  lemma CreationMakesNoOrphan(s: State, l: Label, s': State, o: Obj)
    requires CreateStep(s, l) == Some(s') && o < |s.place|
    ensures o < |s'.place| && (s'.place[o].Orphaned? ==> s.place[o].Orphaned?)
  {
  }

  /** A new object is an orphan exactly when its request is rejected. */
  lemma NewObjectFate(run: seq<State>, labels: seq<Label>, i: nat, o: Obj)
    requires IsRun(run, labels) && i < |labels| && |run[i].place| <= o < |run[i + 1].place|
    ensures o == |run[i].tasks| && (run[i + 1].place[o].Orphaned? <==> Rejects(run, labels, i, o))
  {
    var s, l, s' := run[i], labels[i], run[i + 1];
    assert Follows(run, labels, i);
    RunKeeps(run, labels, i);
    if IsWorker(l) {
      WorkerFrame(s, l, s');
    } else if !l.NetRegister? && !l.Register? {
      PlaceLength(s, l, s');
    }
  }

  lemma PlaceLength(s: State, l: Label, s': State)
    requires !IsWorker(l) && !l.NetRegister? && !l.Register? && Step(s, l) == Some(s')
    ensures |s'.place| == |s.place|
  {
    if !IsNet(l) {
      IpcFrame(s, l, s');
    }
  }

  lemma OrphanStepIff(run: seq<State>, labels: seq<Label>, i: nat, o: Obj)
    requires IsRun(run, labels) && i < |labels| && o < |run[i].place|
    ensures o < |run[i + 1].place| && (run[i + 1].place[o].Orphaned? <==> run[i].place[o].Orphaned?)
  {
    assert Follows(run, labels, i);
    RunKeeps(run, labels, i);
    NoNewOrphan(run[i], labels[i], run[i + 1], o);
    if run[i].place[o].Orphaned? {
      OrphanStep(run, labels, i, o);
    }
  }

  lemma PlacesAndTasks(run: seq<State>, labels: seq<Label>, i: nat)
    requires IsRun(run, labels) && i < |run|
    ensures |run[i].place| == |run[i].tasks|
  {
    RunKeeps(run, labels, i);
  }

  /** In every reachable state an object is an orphan if and only if some step inserted it for a
      request that it rejected. */
  lemma {:induction false} OrphanIff(run: seq<State>, labels: seq<Label>, j: nat, o: Obj)
    requires IsRun(run, labels) && j < |run| && o < |run[j].place|
    ensures run[j].place[o].Orphaned? <==> exists i :: 0 <= i < j && Rejects(run, labels, i, o)
  {
    assert j > 0;
    PlacesAndTasks(run, labels, j - 1);
    if o < |run[j - 1].place| {
      OrphanIff(run, labels, j - 1, o);
      OrphanStepIff(run, labels, j - 1, o);
      assert !Rejects(run, labels, j - 1, o);
    } else {
      NewObjectFate(run, labels, j - 1, o);
      forall i | 0 <= i < j - 1 ensures !Rejects(run, labels, i, o) {
        RunProgress(run, labels, i + 1, j - 1);
      }
    }
  }

  /** A rejected request leaves an entry that stays pending and registered for ever, and that no
      thread will ever run. */
  lemma RejectedForever(run: seq<State>, labels: seq<Label>, i: nat, j: nat, o: Obj)
    requires IsRun(run, labels) && i < j < |run| && Rejects(run, labels, i, o)
    ensures o < |run[j].place| == |run[j].tasks| && run[j].place[o].Orphaned?
    ensures run[j].tasks[o].status.Pending?
    ensures run[j].tasks[o].id in run[j].registry && run[j].registry[run[j].tasks[o].id] == o
  {
    PlacesAndTasks(run, labels, j);
    RunProgress(run, labels, i + 1, j);
    OrphanIff(run, labels, j, o);
    OrphanIsPending(run, labels, j, o);
  }

  lemma CounterStep(run: seq<State>, labels: seq<Label>, i: nat)
    requires IsRun(run, labels) && i < |labels| && NextId(run[i].idBase) in run[i].registry
    ensures |run[i + 1].tasks| == |run[i].tasks| && run[i + 1].idBase == run[i].idBase
  {
    var s, l, s' := run[i], labels[i], run[i + 1];
    assert Follows(run, labels, i);
    if l.Register? || l.NetRegister? {
      CreationInserts(run, labels, i);
    } else if IsWorker(l) {
      WorkerFrame(s, l, s');
    } else if !IsNet(l) {
      IpcFrame(s, l, s');
    }
  }

  /** Once the counter stands just before the id that a rejected request has left behind, no object
      is ever created again. */
  lemma {:induction false} CounterMeetsRejected(run: seq<State>, labels: seq<Label>, i: nat, k: nat, j: nat, o: Obj)
    requires IsRun(run, labels) && i < k <= j < |run| && Rejects(run, labels, i, o)
    requires o < |run[k].tasks| && run[k].tasks[o].id == NextId(run[k].idBase)
    ensures |run[j].tasks| == |run[k].tasks| && run[j].idBase == run[k].idBase
    decreases j - k
  {
    if k < j {
      CounterMeetsRejected(run, labels, i, k, j - 1, o);
      RejectedForever(run, labels, i, j - 1, o);
      RunProgress(run, labels, k, j - 1);
      CounterStep(run, labels, j - 1);
    }
  }

  // ---- queue order ----

  /** Each object is pushed at most once, and never again once it has left the creating thread. */
  ghost predicate PushedOnce(place: seq<Place>, pushed: seq<Obj>) {
    && (forall k :: 0 <= k < |pushed| ==>
          pushed[k] < |place| &&
            (place[pushed[k]].Queued? || place[pushed[k]].WithWorker? || place[pushed[k]].Completed?))
    && (forall k, m :: 0 <= k < m < |pushed| ==> pushed[k] != pushed[m])
  }

  lemma PushedOnceWorker(s: State, l: Label, s': State)
    requires Inv(s) && PushedOnce(s.place, s.pushed) && IsWorker(l) && Step(s, l) == Some(s')
    ensures PushedOnce(s'.place, s'.pushed) && s.popped <= s'.popped && (!s.valid ==> s'.popped == s.popped)
  {
    WorkerFrame(s, l, s');
    if l.RunEpilog? {
      assert HoldsWell(s.tasks, s.place, l.w, s.workers[l.w]);
    }
  }

  lemma PushedOnceCreate(s: State, l: Label, s': State)
    requires WithIpc(s.place, s.ipc) && PushedOnce(s.place, s.pushed) && IsCreate(l) && Step(s, l) == Some(s')
    ensures PushedOnce(s'.place, s'.pushed) && s.pushed <= s'.pushed
  {
    if l.Register? {
      PushedBefore(s.place, s.pushed, s'.place);
    } else if l.Enqueue? {
      PushedNow(s.place, s.pushed, s.ipc.o);
    }
  }

  lemma PushedBefore(place: seq<Place>, pushed: seq<Obj>, after: seq<Place>)
    requires PushedOnce(place, pushed) && |place| <= |after| && after[..|place|] == place
    ensures PushedOnce(after, pushed)
  {
    assert forall o :: 0 <= o < |place| ==> after[o] == after[..|place|][o];
  }

  lemma PushedNow(place: seq<Place>, pushed: seq<Obj>, o: Obj)
    requires PushedOnce(place, pushed) && o < |place| && place[o].Handed?
    ensures PushedOnce(place[o := Queued(|pushed|)], pushed + [o])
  {
  }

  lemma PushedOnceNet(s: State, l: Label, s': State)
    requires WithNet(s.tasks, s.place, s.net) && PushedOnce(s.place, s.pushed) && IsNet(l) && Step(s, l) == Some(s')
    ensures PushedOnce(s'.place, s.pushed)
  {
  }

  /** What one step does to the two histories. */
  lemma HistoryStep(run: seq<State>, labels: seq<Label>, i: nat)
    requires IsRun(run, labels) && i < |labels| && PushedOnce(run[i].place, run[i].pushed)
    ensures PushedOnce(run[i + 1].place, run[i + 1].pushed)
    ensures run[i].pushed <= run[i + 1].pushed && run[i].popped <= run[i + 1].popped
    ensures !run[i].valid ==> run[i + 1].popped == run[i].popped && !run[i + 1].valid
  {
    var s, l, s' := run[i], labels[i], run[i + 1];
    assert Follows(run, labels, i);
    RunKeeps(run, labels, i);
    if IsWorker(l) {
      WorkerFrame(s, l, s');
      PushedOnceWorker(s, l, s');
    } else if IsNet(l) {
      NetFrame(s, l, s');
      PushedOnceNet(s, l, s');
    } else if IsCreate(l) {
      IpcFrame(s, l, s');
      PushedOnceCreate(s, l, s');
    } else {
      IpcFrame(s, l, s');
      assert l.InvalidateQueue? ==> !s'.valid;
    }
  }

  lemma {:induction false} RunPushedOnce(run: seq<State>, labels: seq<Label>, i: nat)
    requires IsRun(run, labels) && i < |run|
    ensures PushedOnce(run[i].place, run[i].pushed)
  {
    if i > 0 {
      RunPushedOnce(run, labels, i - 1);
      HistoryStep(run, labels, i - 1);
    }
  }

  lemma {:induction false} HistoriesGrow(run: seq<State>, labels: seq<Label>, i: nat, j: nat)
    requires IsRun(run, labels) && i <= j < |run|
    ensures run[i].pushed <= run[j].pushed && run[i].popped <= run[j].popped
    ensures !run[i].valid ==> run[j].popped == run[i].popped && !run[j].valid
    decreases j - i
  {
    if i < j {
      HistoriesGrow(run, labels, i, j - 1);
      RunPushedOnce(run, labels, j - 1);
      HistoryStep(run, labels, j - 1);
    }
  }

  /** Dispatch is first in, first out: at every point what the workers have taken, in order, followed by
      what is queued is what was enqueued, without repetition; both only grow, and nothing is taken
      after the queue became invalid. */
  lemma DispatchOrder(run: seq<State>, labels: seq<Label>, i: nat, j: nat)
    requires IsRun(run, labels) && i <= j < |run|
    ensures Dispatched(run, labels, j) + run[j].queue == Enqueued(run, labels, j)
    ensures var all := Enqueued(run, labels, j);
      forall k, m :: 0 <= k < m < |all| ==> all[k] != all[m]
    ensures Enqueued(run, labels, i) <= Enqueued(run, labels, j)
    ensures Dispatched(run, labels, i) <= Dispatched(run, labels, j)
    ensures !run[i].valid ==> Dispatched(run, labels, j) == Dispatched(run, labels, i) && !run[j].valid
  {
    QueueHistory(run, labels, i);
    QueueHistory(run, labels, j);
    QueueIsRest(run, labels, j);
    RunPushedOnce(run, labels, j);
    HistoriesGrow(run, labels, i, j);
  }

  lemma QueueIsRest(run: seq<State>, labels: seq<Label>, i: nat)
    requires IsRun(run, labels) && i < |run|
    ensures run[i].popped + run[i].queue == run[i].pushed
  {
    RunKeeps(run, labels, i);
  }

  // ---- bandwidth ----

  /** Every route's buffer holds exactly the most recent samples, in order, of the copies and moves that
      have completed for that route. */
  lemma BufferIsRecent(run: seq<State>, labels: seq<Label>, i: nat)
    requires IsRun(run, labels) && i < |run|
    ensures Recent(run[i].backlog, run[i].cfg.backlogSize, CompletedBy(run, labels, i))
  {
    BufferKeepsUp(run, labels, i);
    CompletionHistory(run, labels, i);
  }

  lemma {:induction false} BufferKeepsUp(run: seq<State>, labels: seq<Label>, i: nat)
    requires IsRun(run, labels) && i < |run|
    ensures Recent(run[i].backlog, run[i].cfg.backlogSize, run[i].completions)
  {
    if i > 0 {
      var s, l, s' := run[i - 1], labels[i - 1], run[i];
      assert Follows(run, labels, i - 1);
      BufferKeepsUp(run, labels, i - 1);
      if l.RunEpilog? {
        EpilogSample(s, l, s');
      } else if IsWorker(l) {
        WorkerFrame(s, l, s');
      } else if IsNet(l) {
        NetFrame(s, l, s');
      } else {
        IpcFrame(s, l, s');
      }
    }
  }

  lemma EpilogSample(s: State, l: Label, s': State)
    requires l.RunEpilog? && WorkerStep(s, l) == Some(s') && Recent(s.backlog, s.cfg.backlogSize, s.completions)
    ensures Recent(s'.backlog, s'.cfg.backlogSize, s'.completions)
  {
    var o := s.workers[l.w].o;
    if HasEpilog(s.tasks[o].runAs) {
      CompleteKeepsRecent(s.backlog, s.cfg.backlogSize, s.completions,
        Completion(s.tasks[o].route, s.tasks[o].bandwidth));
    }
  }
}
