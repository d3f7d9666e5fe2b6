/** The task manager's own methods, between which the engine interleaves the other threads. */
module TaskManagers {
  import opened TaskStatus
  import opened TaskRules
  import opened TaskRecords

  class TaskManager {
    const backlogSize: nat
    const dryRun: bool
    var idBase: Id
    var registry: map<Id, TaskInfo>
    var backlog: Backlog

    // History: the completions of copies and moves, in order.
    ghost var completions: seq<Completion>

    /** Every entry's record carries the entry's id, and the buffers are recent. */
    ghost predicate Valid()
      reads this
    {
      && (forall id :: id in registry ==> registry[id].id == id)
      && Recent(backlog, backlogSize, completions)
    }

    constructor (backlogSize: nat, dryRun: bool)
      ensures Valid() && registry == map[] && idBase == 0 && backlog == map[] && completions == []
      ensures this.backlogSize == backlogSize && this.dryRun == dryRun
    {
      this.backlogSize, this.dryRun := backlogSize, dryRun;
      idBase, registry, backlog, completions := 0, map[], map[], [];
    }

    /** Creation of a locally initiated task. Unless the next id is in use the request is registered as
        pending. A copy or move without a transferor, or that its transferor does not validate, is then
        rejected, and so is a kind that is none of the four; any other request runs as what it asks
        for, or as a no-op in a dry run. A rejected request stays registered. */
    method CreateLocalInitiatedTask(req: Request, totalBytes: nat)
      returns (rv: UrdError, task: Option<(TaskType, TaskInfo)>)
      requires Valid()
      modifies `idBase, `registry
      ensures Valid()
      ensures NextId(old(idBase)) in old(registry) ==>
        rv.TooManyTasks? && task.None? && idBase == old(idBase) && registry == old(registry)
      ensures NextId(old(idBase)) !in old(registry) ==>
        && idBase == NextId(old(idBase)) && idBase in registry
        && registry == old(registry)[idBase := registry[idBase]]
        && fresh(registry[idBase]) && registry[idBase].Valid() && registry[idBase].InOrder()
        && registry[idBase].status.Pending? && registry[idBase].kind == req.kind
        && registry[idBase].totalBytes == totalBytes
        && (rv.NotSupported? <==> (req.kind.Copy? || req.kind.Move?) && !req.hasTransferor)
        && (rv.BadArgs? <==>
              || ((req.kind.Copy? || req.kind.Move?) && req.hasTransferor && !req.validates)
              || (!dryRun && !(req.kind.Copy? || req.kind.Move? || req.kind.Remove? || req.kind.Noop?)))
        && (rv.NotSupported? || rv.BadArgs? ==> task.None?)
        && (!rv.NotSupported? && !rv.BadArgs? ==>
              rv.Success? && task == Some((if dryRun then Noop else req.kind, registry[idBase])))
    {
      var tid := NextId(idBase);
      if tid in registry {
        return TooManyTasks, None;
      }
      idBase := tid;
      var info := new TaskInfo(tid, req.kind, totalBytes);
      registry := registry[tid := info];
      if req.kind.Copy? || req.kind.Move? {
        if !req.hasTransferor {
          return NotSupported, None;
        }
        if !req.validates {
          return BadArgs, None;
        }
      }
      var runAs := if dryRun then Noop else req.kind;
      match runAs
      case Remove => return UrdError.Success, Some((runAs, info));
      case Copy => return UrdError.Success, Some((runAs, info));
      case Move => return UrdError.Success, Some((runAs, info));
      case Noop => return UrdError.Success, Some((runAs, info));
      case _ => return BadArgs, None;
    }

    function Find(tid: Id): (r: Option<TaskInfo>)
      requires Valid()
      reads this
      ensures r.Some? <==> tid in registry
      ensures r.Some? ==> r.value == registry[tid] && r.value.id == tid
    {
      if tid in registry then Some(registry[tid]) else None
    }

    method Erase(tid: Id) returns (found: bool)
      requires Valid()
      modifies `registry
      ensures Valid() && found == (tid in old(registry)) && registry == old(registry) - {tid}
    {
      if tid !in registry {
        return false;
      }
      registry := registry - {tid};
      return true;
    }

    /** The callback that runs as the epilog of a copy or a move. */
    method CompletionCallback(info: TaskInfo, route: Route)
      requires Valid() && info.status.IsTerminal()
      modifies `backlog, `completions
      ensures Valid() && completions == old(completions) + [Completion(route, info.bandwidth)]
      ensures backlog == Complete(old(backlog), backlogSize, Completion(route, info.bandwidth))
    {
      var sample, samples := info.bandwidth, backlog;
      if sample.Some? {
        if route !in samples {
          samples := samples[route := []];
        }
        samples := samples[route := PushBack(samples[route], backlogSize, sample.value)];
      }
      assert samples == Complete(backlog, backlogSize, Completion(route, sample));
      CompleteKeepsRecent(backlog, backlogSize, completions, Completion(route, sample));
      backlog, completions := samples, completions + [Completion(route, sample)];
    }

    /** The status of every registered task. */
    ghost function Statuses(): map<Id, Status>
      reads this, registry.Values
    {
      map id | id in registry :: registry[id].status
    }

    /** The counting loop of the global statistics, without interference: exact counts. */
    method CountStatuses() returns (running: nat, pending: nat)
      requires Valid()
      ensures running == |IdsWith(registry.Keys, Statuses(), Running)|
      ensures pending == |IdsWith(registry.Keys, Statuses(), Pending)|
    {
      running, pending := 0, 0;
      var todo := registry.Keys;
      ghost var statuses := Statuses();
      while todo != {}
        invariant todo <= registry.Keys
        invariant running == |IdsWith(registry.Keys - todo, statuses, Running)|
        invariant pending == |IdsWith(registry.Keys - todo, statuses, Pending)|
        decreases todo
      {
        var id :| id in todo;
        assert registry.Keys - (todo - {id}) == registry.Keys - todo + {id};
        OneMoreId(registry.Keys - todo, id, statuses, Running);
        OneMoreId(registry.Keys - todo, id, statuses, Pending);
        var st := registry[id].status;
        if st.Running? {
          running := running + 1;
        } else if st.Pending? {
          pending := pending + 1;
        }
        todo := todo - {id};
      }
      assert registry.Keys - todo == registry.Keys;
    }
  }

  ghost function IdsWith(ids: set<Id>, statuses: map<Id, Status>, st: Status): set<Id> {
    set id | id in ids && id in statuses && statuses[id] == st
  }

  lemma OneMoreId(ids: set<Id>, id: Id, statuses: map<Id, Status>, st: Status)
    requires id !in ids && id in statuses
    ensures |IdsWith(ids + {id}, statuses, st)| == |IdsWith(ids, statuses, st)| + if statuses[id] == st then 1 else 0
  {
    if statuses[id] == st {
      assert IdsWith(ids + {id}, statuses, st) == IdsWith(ids, statuses, st) + {id};
    } else {
      assert IdsWith(ids + {id}, statuses, st) == IdsWith(ids, statuses, st);
    }
  }
}
