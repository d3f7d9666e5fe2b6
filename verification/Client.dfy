/** The client library's view of one task: polling, and the status cached in the descriptor. */
module Client {
  import opened TaskStatus
  import opened Engine
  import opened EngineProofs
  import opened EngineFrames
  import opened EngineTheorems
  import opened EngineRegistry
  import opened EngineInvariant
  import opened EngineAnswers

  datatype ClientError = Ok | EBadArgs | ETimeout | ESnafu | EOther(code: int)

  type Failure = e: ClientError | !e.Ok? witness EBadArgs

  /** What one exchange with the daemon yields: a failure, or a response with its error code and a
      status. */
  datatype Reply = NoReply(failure: Failure) | Response(error: ClientError, status: Status)
  {
    function Code(): ClientError { if NoReply? then failure else error }
  }

  /** How one `nanosleep` ends. */
  datatype Nap = Slept | Interrupted | Invalid | Broken

  datatype Poll = Poll(reply: Reply, nap: Nap)

  /** The request for a status; an id of 0 never reaches the daemon. */
  function StatusRequested(tid: Id, reply: Reply): Reply {
    if tid == 0 then NoReply(EBadArgs) else reply
  }

  class Descriptor {
    var tid: Id
    var cached: Status

    constructor ()
      ensures tid == 0 && cached.Undefined?
    {
      tid, cached := 0, Undefined;
    }

    /** Poll until the task ends, an error occurs or a given timeout elapses. The polls are the
        exchanges that take place, each with the sleep after it; `None` means that the call is still
        waiting after them, and `turns` counts the polls after which it went on waiting.

        It goes on after a poll exactly when there is an id, the response reports success and a status
        that is not terminal, the sleep did not fail, and no timeout was given. */
    method Wait(hasTimeout: bool, polls: seq<Poll>) returns (rv: Option<ClientError>, ghost turns: nat)
      modifies `cached
      ensures turns <= |polls| && (rv.None? <==> turns == |polls|) && (tid == 0 ==> turns == 0)
      ensures forall i :: 0 <= i < turns ==>
        && tid != 0 && polls[i].reply.Response? && polls[i].reply.error.Ok? && !polls[i].reply.status.IsTerminal()
        && (polls[i].nap.Slept? || polls[i].nap.Interrupted?) && !hasTimeout
      ensures rv.Some? ==>
        var reply, nap := polls[turns].reply, polls[turns].nap;
        && (tid == 0 ==> rv == Some(EBadArgs))
        && (tid != 0 && !reply.Code().Ok? ==> rv == Some(reply.Code()))
        && (tid != 0 && reply.Code().Ok? && reply.status.IsTerminal() ==> rv == Some(Ok) && cached == reply.status)
        && (tid != 0 && reply.Code().Ok? && !reply.status.IsTerminal() ==>
              rv == Some(if nap.Invalid? then EBadArgs else if nap.Broken? then ESnafu else ETimeout)
              && (nap.Invalid? || nap.Broken? || hasTimeout))
      ensures rv != Some(Ok) ==> cached == old(cached)
    {
      var i := 0;
      while i < |polls|
        invariant i <= |polls| && cached == old(cached) && (tid == 0 ==> i == 0)
        invariant forall k :: 0 <= k < i ==>
          && tid != 0 && polls[k].reply.Response? && polls[k].reply.error.Ok? && !polls[k].reply.status.IsTerminal()
          && (polls[k].nap.Slept? || polls[k].nap.Interrupted?) && !hasTimeout
      {
        turns := i;
        var reply := StatusRequested(tid, polls[i].reply);
        if !reply.Code().Ok? {
          return Some(reply.Code()), i;
        }
        if reply.status.IsTerminal() {
          cached := reply.status;
          return Some(Ok), i;
        }
        if polls[i].nap.Invalid? {
          return Some(EBadArgs), i;
        }
        if polls[i].nap.Broken? {
          return Some(ESnafu), i;
        }
        if hasTimeout {
          return Some(ETimeout), i;
        }
        i := i + 1;
      }
      return None, |polls|;
    }

    /** The status of the task: the cached one once the task is known to have ended, otherwise
        whatever the daemon responds; the caller's record stays as it was when there is no response. */
    method Error(reply: Reply, stats: Status) returns (rv: ClientError, status: Status)
      ensures cached.IsTerminal() ==> rv == Ok && status == cached
      ensures !cached.IsTerminal() && tid != 0 ==> rv == reply.Code() && (reply.Response? ==> status == reply.status)
      ensures !cached.IsTerminal() && (tid == 0 || reply.NoReply?) ==> !rv.Ok? && status == stats
      ensures !cached.IsTerminal() && tid == 0 ==> rv == EBadArgs
    {
      if cached.IsTerminal() {
        return Ok, cached;
      }
      var r := StatusRequested(tid, reply);
      return r.Code(), if r.Response? then r.status else stats;
    }
  }

  /** Step `k` of the run is the daemon's answer, from object `o`, that `tid` has status `st`. */
  ghost predicate Answers(run: seq<State>, labels: seq<Label>, k: nat, tid: Id, o: Obj, st: Status) {
    && IsRun(run, labels) && k < |labels| && labels[k].Snapshot?
    && run[k].ipc == Found(tid, o) && run[k + 1].ipc == Reported(tid, o, st)
  }

  /** A terminal answer is final: in every later state of the daemon the object that gave it has
      that status, whether or not its entry was erased or its id given to another task. */
  lemma TerminalAnswerIsFinal(run: seq<State>, labels: seq<Label>, k: nat, j: nat, tid: Id, o: Obj, st: Status)
    requires Answers(run, labels, k, tid, o, st) && st.IsTerminal() && k < j < |run|
    ensures o < |run[j].tasks| && run[j].tasks[o].status == st
  {
    RunKeeps(run, labels, k);
    assert Follows(run, labels, k);
    RunProgress(run, labels, k, j);
  }

  /** After a successful wait every later query of the same descriptor returns the terminal status
      of the task object that the daemon answered for, in every later daemon state. */
  method WaitThenError(d: Descriptor, hasTimeout: bool, polls: seq<Poll>, later: Reply, stats: Status,
                       ghost run: seq<State>, ghost labels: seq<Label>, ghost at: seq<nat>,
                       ghost objs: seq<Obj>, ghost j: nat)
    returns (waited: Option<ClientError>, rv: ClientError, status: Status, ghost o: Obj)
    requires IsRun(run, labels) && |at| == |objs| == |polls| && j < |run|
    requires forall i :: 0 <= i < |polls| && polls[i].reply.Code().Ok? ==>
               at[i] < j && Answers(run, labels, at[i], d.tid, objs[i], polls[i].reply.status)
    modifies d
    ensures waited == Some(Ok) ==>
      rv == Ok && status.IsTerminal() && o < |run[j].tasks| && run[j].tasks[o].status == status
  {
    ghost var turns;
    waited, turns := d.Wait(hasTimeout, polls);
    rv, status := d.Error(later, stats);
    o := 0;
    if waited == Some(Ok) {
      o := objs[turns];
      TerminalAnswerIsFinal(run, labels, at[turns], j, d.tid, objs[turns], polls[turns].reply.status);
    }
  }

  /** The client of a task whose id is 0 learns nothing about it: waiting and asking are both refused
      without a word to the daemon, whatever it would reply. */
  method IdZeroIsRefused(d: Descriptor, hasTimeout: bool, polls: seq<Poll>, later: Reply, stats: Status)
    returns (waited: Option<ClientError>, rv: ClientError, status: Status)
    requires d.tid == 0 && !d.cached.IsTerminal() && polls != []
    modifies d
    ensures waited == Some(EBadArgs) && rv == EBadArgs && status == stats && d.cached == old(d.cached)
  {
    ghost var turns;
    waited, turns := d.Wait(hasTimeout, polls);
    rv, status := d.Error(later, stats);
  }

  /** Between states `i` and `j` the entry of `tid` was erased at least once. */
  ghost predicate Erased(run: seq<State>, i: nat, j: nat, tid: Id)
    requires i <= j < |run|
    decreases j - i
  {
    i < j && (Erased(run, i, j - 1, tid) || (tid in run[j - 1].registry && tid !in run[j].registry))
  }

  /** The daemon still answers for the submitted object exactly as long as nobody's query erased
      its entry; afterwards the id is unknown or stands for a younger object. */
  lemma {:induction false} StillSameTask(run: seq<State>, labels: seq<Label>, i: nat, j: nat, tid: Id)
    requires IsRun(run, labels) && i <= j < |run| && tid in run[i].registry
    ensures run[i].registry[tid] < |run[i].tasks|
    ensures (tid in run[j].registry && run[j].registry[tid] == run[i].registry[tid]) <==> !Erased(run, i, j, tid)
    ensures tid in run[j].registry && Erased(run, i, j, tid) ==> run[j].registry[tid] >= |run[i].tasks|
    decreases j - i
  {
    EntryInRange(run, labels, i, j, tid);
    if i < j {
      StillSameTask(run, labels, i, j - 1, tid);
      EntryInRange(run, labels, i, j - 1, tid);
      EntryStep(run, labels, j - 1, tid);
    }
  }

  lemma EntryInRange(run: seq<State>, labels: seq<Label>, i: nat, j: nat, tid: Id)
    requires IsRun(run, labels) && i <= j < |run| && tid in run[i].registry
    ensures run[i].registry[tid] < |run[i].tasks| <= |run[j].tasks|
  {
    RunKeeps(run, labels, i);
    RunProgress(run, labels, i, j);
  }

  /** An entry stays as it is, is erased, or appears with an object that is new. */
  lemma EntryStep(run: seq<State>, labels: seq<Label>, i: nat, tid: Id)
    requires IsRun(run, labels) && i < |labels|
    ensures tid in run[i].registry && tid in run[i + 1].registry ==> run[i + 1].registry[tid] == run[i].registry[tid]
    ensures tid !in run[i].registry && tid in run[i + 1].registry ==> run[i + 1].registry[tid] == |run[i].tasks|
  {
    var s, l, s' := run[i], labels[i], run[i + 1];
    assert Follows(run, labels, i);
    if tid in s.registry && tid in s'.registry && s'.registry[tid] != s.registry[tid] {
      ErasureIsTerminal(run, labels, i, tid);
    }
    if l.Register? || l.NetRegister? {
      CreationInserts(run, labels, i);
    } else if IsWorker(l) {
      WorkerFrame(s, l, s');
    } else if IsNet(l) {
      NetFrame(s, l, s');
    } else if IsStatus(l) {
      StatusFrame(s, l, s');
    } else {
      IpcFrame(s, l, s');
    }
  }

  // ---- a client that is alone in asking ----

  ghost predicate EntryIs(s: State, tid: Id, o: Obj) { tid in s.registry && s.registry[tid] == o }

  /** The handler of a request that has reported the terminal status of `o` and has not yet erased the
      entry: it cannot but find the task ended. */
  predicate WillErase(tasks: seq<Task>, ipc: Ipc, tid: Id, o: Obj) {
    && PastSnapshot(ipc) && ipc.tid == tid && ipc.o == o
    && o < |tasks| && tasks[o].status.IsTerminal() && (ipc.Rechecked? ==> tasks[o].status.FinishedWithError?)
  }

  lemma AnswerWillErase(tasks: seq<Task>, registry: map<Id, Obj>, ipc: Ipc, l: Label, tid: Id, o: Obj)
    requires WillErase(tasks, ipc, tid, o) && AnswerStep(tasks, registry, ipc, l).Some?
    ensures WillErase(tasks, AnswerStep(tasks, registry, ipc, l).value, tid, o)
  {
  }

  lemma IpcBusy(s: State, l: Label)
    requires PastSnapshot(s.ipc) && !IsWorker(l) && !IsNet(l) && Step(s, l).Some?
    ensures IsStatus(l)
  {
  }

  lemma ErasesAtLast(s: State, l: Label, s': State, tid: Id, o: Obj)
    requires WillErase(s.tasks, s.ipc, tid, o) && Step(s, l) == Some(s') && Progress(s.tasks, s'.tasks)
    ensures WillErase(s'.tasks, s'.ipc, tid, o) || !EntryIs(s', tid, o)
  {
    if IsWorker(l) {
      WorkerFrame(s, l, s');
    } else if IsNet(l) {
      NetFrame(s, l, s');
    } else {
      IpcBusy(s, l);
      StatusFrame(s, l, s');
      if !l.EraseEntry? {
        AnswerWillErase(s.tasks, s.registry, s.ipc, l, tid, o);
      }
    }
  }

  /** An entry that no longer leads to an object never leads to it again. */
  lemma GoneForGood(run: seq<State>, labels: seq<Label>, i: nat, tid: Id, o: Obj)
    requires IsRun(run, labels) && i < |labels| && o < |run[i].tasks| && !EntryIs(run[i], tid, o)
    ensures !EntryIs(run[i + 1], tid, o)
  {
    EntryStep(run, labels, i, tid);
  }

  lemma {:induction false} ErasedBefore(run: seq<State>, labels: seq<Label>, i: nat, j: nat, tid: Id, o: Obj)
    requires IsRun(run, labels) && i <= j < |run| && o < |run[i].tasks|
    requires WillErase(run[i].tasks, run[i].ipc, tid, o) || !EntryIs(run[i], tid, o)
    ensures WillErase(run[j].tasks, run[j].ipc, tid, o) || !EntryIs(run[j], tid, o)
    decreases j - i
  {
    if i < j {
      ErasedBefore(run, labels, i, j - 1, tid, o);
      RunProgress(run, labels, i, j - 1);
      StepProgress(run, labels, j - 1);
      if !EntryIs(run[j - 1], tid, o) {
        GoneForGood(run, labels, j - 1, tid, o);
      } else {
        assert Follows(run, labels, j - 1);
        ErasesAtLast(run[j - 1], labels[j - 1], run[j], tid, o);
      }
    }
  }

  lemma AnsweredFor(run: seq<State>, labels: seq<Label>, k: nat, tid: Id, o: Obj, st: Status)
    requires Answers(run, labels, k, tid, o, st)
    ensures EntryIs(run[k], tid, o) && o < |run[k].tasks| && st == run[k].tasks[o].status
    ensures run[k + 1].tasks == run[k].tasks
  {
    RunKeeps(run, labels, k);
    assert Follows(run, labels, k);
  }

  /** A terminal answer is the last one that an object ever gives under its id. */
  lemma TerminalAnswerIsLast(run: seq<State>, labels: seq<Label>, k: nat, k': nat, tid: Id, o: Obj, st: Status,
                             st': Status)
    requires Answers(run, labels, k, tid, o, st) && Answers(run, labels, k', tid, o, st') && st.IsTerminal()
    ensures k' <= k
  {
    if k < k' {
      AnsweredFor(run, labels, k, tid, o, st);
      AnsweredFor(run, labels, k', tid, o, st');
      ErasedBefore(run, labels, k + 1, k', tid, o);
      assert false;
    }
  }

  /** The request that takes its snapshot at `k` erases the entry at `e`. */
  ghost predicate Erases(run: seq<State>, labels: seq<Label>, k: nat, e: nat, tid: Id, o: Obj) {
    && IsRun(run, labels) && k < e < |labels| && labels[k].Snapshot? && labels[e].EraseEntry?
    && Snapshot !in labels[k + 1..e] && run[k].ipc == Found(tid, o)
  }

  lemma ErasedThere(run: seq<State>, labels: seq<Label>, k: nat, e: nat, tid: Id, o: Obj)
    requires Erases(run, labels, k, e, tid, o)
    ensures o < |run[k].tasks| && Answers(run, labels, k, tid, o, run[k].tasks[o].status)
    ensures o < |run[e + 1].tasks| && !EntryIs(run[e + 1], tid, o)
    ensures run[e].ipc == Erasing(tid, o, run[k].tasks[o].status)
  {
    SnapshotTaken(run, labels, k);
    ErasesTerminal(run, labels, e);
    var ipc := run[k + 1].ipc;
    RequestGoesOn(run, labels, k + 1, e, ipc.tid, ipc.o, ipc.rep);
    RunProgress(run, labels, k, e + 1);
    assert Follows(run, labels, e);
  }

  /** Of all answers that the object ever gives under its id the one that erases the entry is the last. */
  lemma EraserAnswersLast(run: seq<State>, labels: seq<Label>, k: nat, e: nat, k': nat, tid: Id, o: Obj, st: Status)
    requires Erases(run, labels, k, e, tid, o) && Answers(run, labels, k', tid, o, st)
    ensures k' <= k
  {
    ErasedThere(run, labels, k, e, tid, o);
    AnsweredFor(run, labels, k', tid, o, st);
    if k < k' {
      NotAmong(labels, k + 1, e, k');
      ErasedBefore(run, labels, e + 1, k', tid, o);
    }
  }

  lemma NotAmong(labels: seq<Label>, i: nat, j: nat, k: nat)
    requires i <= j <= |labels| && Snapshot !in labels[i..j]
    ensures i <= k < j ==> labels[k] != Snapshot
  {
    if i <= k < j {
      assert labels[i..j][k - i] == labels[k];
    }
  }

  /** Whoever asks, some answer about the task is ever terminal if and only if the task did not end
      between the snapshot and the erasure of the request that erases its entry; and then that request
      gives it. */
  lemma HeardIff(run: seq<State>, labels: seq<Label>, k: nat, e: nat, tid: Id, o: Obj)
    requires Erases(run, labels, k, e, tid, o)
    ensures (exists k', st :: Answers(run, labels, k', tid, o, st) && st.IsTerminal()) <==>
            forall i :: k < i < e ==> !FinishesAt(run, labels, i, o)
    ensures forall k', st :: Answers(run, labels, k', tid, o, st) && st.IsTerminal() ==> k' == k
  {
    ErasedThere(run, labels, k, e, tid, o);
    ReportIsTerminalIff(run, labels, k, e);
    var last := run[k].tasks[o].status;
    forall k', st | Answers(run, labels, k', tid, o, st) && st.IsTerminal() ensures k' == k {
      TerminalAnswerIsLast(run, labels, k', k, tid, o, st, last);
      EraserAnswersLast(run, labels, k, e, k', tid, o, st);
    }
    forall st | Answers(run, labels, k, tid, o, st) ensures st == last {
      AnsweredFor(run, labels, k, tid, o, st);
    }
  }

  /** A client without a timeout polls until the answer of the request that erases the entry, poll
      number `p`, and what it hears next is that there is no such task. Its wait succeeds if and only
      if the task did not end between the snapshot and the erasure of that request. */
  method WaitAlone(d: Descriptor, polls: seq<Poll>, p: nat, ghost run: seq<State>, ghost labels: seq<Label>,
                   ghost at: seq<nat>, ghost e: nat, ghost o: Obj)
    returns (waited: Option<ClientError>)
    requires d.tid != 0 && p + 1 < |polls| && |at| == p + 1 && Erases(run, labels, at[p], e, d.tid, o)
    requires forall i :: 0 <= i < |polls| ==> polls[i].nap.Slept? || polls[i].nap.Interrupted?
    requires forall i :: 0 <= i < p ==> at[i] < at[p]
    requires forall i :: 0 <= i <= p ==>
      polls[i].reply.Code().Ok? && Answers(run, labels, at[i], d.tid, o, polls[i].reply.status)
    requires !polls[p + 1].reply.Code().Ok?
    modifies d
    ensures waited == Some(Ok) <==> forall i :: at[p] < i < e ==> !FinishesAt(run, labels, i, o)
    ensures waited == Some(Ok) || waited == Some(polls[p + 1].reply.Code())
  {
    HeardIff(run, labels, at[p], e, d.tid, o);
    ErasedThere(run, labels, at[p], e, d.tid, o);
    ReportIsTerminalIff(run, labels, at[p], e);
    AnsweredFor(run, labels, at[p], d.tid, o, polls[p].reply.status);
    forall i | 0 <= i < p ensures !polls[i].reply.status.IsTerminal() {
      assert Answers(run, labels, at[i], d.tid, o, polls[i].reply.status);
    }
    assert !polls[p + 1].reply.Code().Ok?;
    ghost var turns;
    waited, turns := d.Wait(false, polls);
  }
}
