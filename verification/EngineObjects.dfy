/** The objects and the transition system: each critical section, run on the objects, does to them what
    the corresponding step does to the state. */
module EngineObjects {
  import opened TaskStatus
  import opened TaskRules
  import opened WorkQueues
  import opened TaskRecords
  import opened TaskManagers
  import opened Engine
  import opened EngineRegistry
  import opened EngineCommands

  // ---- the queue ----

  ghost predicate QueueIs(q: WorkQueue<Obj>, s: State)
    reads q
  {
    && q.Valid() && !q.everCleared
    && q.items == s.queue && q.valid == s.valid && q.pushed == s.pushed && q.popped == s.popped
  }

  method PushIsEnqueue(q: WorkQueue<Obj>, o: Obj, ghost s: State, ghost wake: nat)
    requires QueueIs(q, s) && s.ipc == HandOff(o) && o < |s.place|
    modifies q
    ensures QueueIs(q, DoEnqueue(s, wake))
  {
    q.Push(o);
  }

  /** The worker sleeps, goes back to its loop or holds a task according to what the pop returned. */
  method WaitPopIsTake(q: WorkQueue<Obj>, ghost s: State, ghost w: nat) returns (r: Taken<Obj>)
    requires QueueIs(q, s) && w < |s.workers|
    modifies q
    ensures QueueIs(q, DoTake(s, w))
    ensures DoTake(s, w).workers[w] == match r case Blocked => Asleep case Refused => AtLoop case Popped(o) => Got(o)
  {
    r := q.WaitPop();
  }

  method InvalidateIsStep(q: WorkQueue<Obj>, ghost s: State)
    requires QueueIs(q, s) && s.ipc.DoneSet?
    modifies q
    ensures CommandStep(s, InvalidateQueue).Some? && QueueIs(q, CommandStep(s, InvalidateQueue).value)
  {
    q.Invalidate();
  }

  // ---- the manager ----

  ghost predicate ManagerIs(m: TaskManager, s: State)
    reads m, m.registry.Values
  {
    && m.Valid() && m.dryRun == s.cfg.dryRun && m.backlogSize == s.cfg.backlogSize
    && m.backlog == s.backlog && m.completions == s.completions
    && EntriesAre(m.idBase, m.Statuses(), s)
  }

  /** The counter is the state's, and so are the statuses of the registered tasks. */
  ghost predicate EntriesAre(idBase: Id, statuses: map<Id, Status>, s: State) {
    && idBase == s.idBase && statuses.Keys == s.registry.Keys
    && forall id :: id in s.registry ==>
         s.registry[id] < |s.tasks| && statuses[id] == s.tasks[s.registry[id]].status
  }

  lemma RegisterEntries(statuses: map<Id, Status>, s: State, req: Request)
    requires EntriesAre(s.idBase, statuses, s)
    ensures var s' := DoRegister(s, false, (req.src, req.dst), Judge(req, s.cfg.dryRun));
      var id := NextId(s.idBase);
      && s'.cfg == s.cfg && s'.backlog == s.backlog && s'.completions == s.completions
      && (id in statuses ==> EntriesAre(s.idBase, statuses, s') && s'.ipc.Idle?)
      && (id !in statuses ==> EntriesAre(id, statuses[id := Pending], s'))
  {
    if NextId(s.idBase) !in s.registry {
      RegisterMeans(s, req);
    }
  }

  /** What creation does to the statuses of the registered tasks. */
  method CreateEntry(m: TaskManager, req: Request, totalBytes: nat)
    returns (rv: UrdError, task: Option<(TaskType, TaskInfo)>)
    requires m.Valid()
    modifies m`idBase, m`registry
    ensures m.Valid()
    ensures NextId(old(m.idBase)) in old(m.Statuses()) ==>
      task.None? && m.idBase == old(m.idBase) && m.Statuses() == old(m.Statuses())
    ensures NextId(old(m.idBase)) !in old(m.Statuses()) ==>
      && m.idBase == NextId(old(m.idBase)) && m.Statuses() == old(m.Statuses())[m.idBase := Pending]
      && (task.Some? <==> !Unacceptable(req, m.dryRun))
      && (task.Some? ==> task.value.0 == if m.dryRun then Noop else req.kind)
  {
    rv, task := m.CreateLocalInitiatedTask(req, totalBytes);
  }

  /** Creation hands out a task exactly when the engine goes on to push one, and of the same type. */
  method CreateIsRegister(m: TaskManager, req: Request, totalBytes: nat, ghost s: State)
    returns (rv: UrdError, task: Option<(TaskType, TaskInfo)>)
    requires ManagerIs(m, s) && s.ipc == Admitted(req)
    modifies m`idBase, m`registry
    ensures var s' := DoRegister(s, false, (req.src, req.dst), Judge(req, s.cfg.dryRun));
      && ManagerIs(m, s')
      && (task.Some? <==> s'.ipc == HandOff(|s.tasks|))
      && (task.Some? ==> |s.tasks| < |s'.tasks| && task.value.0 == s'.tasks[|s.tasks|].runAs)
  {
    RegisterEntries(m.Statuses(), s, req);
    if NextId(s.idBase) !in s.registry {
      RegisterMeans(s, req);
    }
    rv, task := CreateEntry(m, req, totalBytes);
  }

  method EraseIsStep(m: TaskManager, tid: Id, ghost s: State) returns (found: bool)
    requires ManagerIs(m, s) && s.ipc.Erasing? && s.ipc.tid == tid
    modifies m`registry
    ensures StatusStep(s, EraseEntry).Some? && ManagerIs(m, StatusStep(s, EraseEntry).value)
  {
    found := m.Erase(tid);
  }

  method CallbackIsEpilog(m: TaskManager, info: TaskInfo, route: Route, ghost s: State, ghost w: nat)
    requires ManagerIs(m, s) && w < |s.workers| && s.workers[w].Epilog? && s.workers[w].o < |s.tasks| == |s.place|
    requires var t := s.tasks[s.workers[w].o];
      (t.runAs.Copy? || t.runAs.Move?) && info.status.IsTerminal() && info.bandwidth == t.bandwidth && route == t.route
    modifies m`backlog, m`completions
    ensures ManagerIs(m, DoEpilog(s, w))
  {
    m.CompletionCallback(info, route);
  }

  /** The status of a registered record, as the status handler reads it. */
  method FindIsFound(m: TaskManager, tid: Id, ghost s: State) returns (st: Option<Status>)
    requires ManagerIs(m, s) && s.ipc.Idle?
    ensures st.Some? <==> tid in s.registry
    ensures AnswerStep(s.tasks, s.registry, s.ipc, StatusRequest(tid)) ==
            Some(if st.Some? then Found(tid, s.registry[tid]) else Idle)
    ensures st.Some? ==> st.value == s.tasks[s.registry[tid]].status
  {
    var info := m.Find(tid);
    st := if info.Some? then Some(info.value.status) else None;
  }
}
