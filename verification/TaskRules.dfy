/** The decisions of the task manager as pure functions: the next identifier, the fate of a
    creation request, and the bounded buffer of bandwidth samples. */
module TaskRules {
  import opened Words
  import opened TaskStatus

  /** The identifier after `base`, with the 32-bit wrap of `++m_id_base`. */
  function NextId(base: Id): Id {
    (base + 1) % WORD32
  }

  /** What the daemon can know of a creation request when it decides on it; the namespaces are those
      of its one or two resources. */
  datatype Request = Request(kind: TaskType, hasTransferor: bool, validates: bool, src: string, dst: Option<string>)

  datatype Fate = Rejected(error: UrdError) | Accepted(runAs: TaskType)

  /** The fate of a request once its identifier is free. */
  function Judge(req: Request, dryRun: bool): Fate {
    if (req.kind.Copy? || req.kind.Move?) && !req.hasTransferor then Rejected(NotSupported)
    else if (req.kind.Copy? || req.kind.Move?) && !req.validates then Rejected(BadArgs)
    else if dryRun then Accepted(Noop)
    else if req.kind.Copy? || req.kind.Move? || req.kind.Remove? || req.kind.Noop? then Accepted(req.kind)
    else Rejected(BadArgs)
  }

  /** Whether a queued task carries the completion callback as its epilog. */
  predicate HasEpilog(t: TaskType) { t.Copy? || t.Move? }

  /** `push_back` on a circular buffer of the given capacity. */
  function PushBack(buffer: seq<real>, capacity: nat, x: real): seq<real> {
    if capacity == 0 then buffer
    else if |buffer| < capacity then buffer + [x]
    else buffer[1..] + [x]
  }

  /** The namespaces of a task's source and of its destination, if it has one. */
  type Route = (string, Option<string>)

  /** A completed copy or move: its route and its bandwidth, if the transfer measured one. */
  datatype Completion = Completion(route: Route, sample: Option<real>)

  /** The samples of one route, in order of completion. */
  function SamplesOf(log: seq<Completion>, route: Route): seq<real> {
    if log == [] then []
    else
      var last := log[|log| - 1];
      var earlier := SamplesOf(log[..|log| - 1], route);
      if last.route == route && last.sample.Some? then earlier + [last.sample.value] else earlier
  }

  type Backlog = map<Route, seq<real>>

  /** The completion callback: a sample creates its route's buffer on demand and enters it. */
  function Complete(backlog: Backlog, capacity: nat, c: Completion): Backlog {
    if c.sample.None? then backlog
    else
      var buffer := if c.route in backlog then backlog[c.route] else [];
      backlog[c.route := PushBack(buffer, capacity, c.sample.value)]
  }

  /** The buffers are the most recent samples of each route that has any. */
  ghost predicate Recent(backlog: Backlog, capacity: nat, log: seq<Completion>) {
    forall route: Route ::
      && (route in backlog <==> SamplesOf(log, route) != [])
      && (route in backlog ==> IsRecent(backlog[route], SamplesOf(log, route), capacity))
  }

  /** The buffer holds the last samples, or all of them when there are no more than it can hold. */
  predicate IsRecent(buffer: seq<real>, samples: seq<real>, capacity: nat) {
    buffer == if |samples| <= capacity then samples else samples[|samples| - capacity..]
  }

  lemma PushKeepsLast(buffer: seq<real>, samples: seq<real>, capacity: nat, x: real)
    requires IsRecent(buffer, samples, capacity)
    ensures IsRecent(PushBack(buffer, capacity, x), samples + [x], capacity)
  {
    var all := samples + [x];
    if 0 < capacity <= |samples| {
      assert all[|all| - capacity..] == samples[|samples| - capacity..][1..] + [x];
    }
  }

  lemma CompleteKeepsRecent(backlog: Backlog, capacity: nat, log: seq<Completion>, c: Completion)
    requires Recent(backlog, capacity, log)
    ensures Recent(Complete(backlog, capacity, c), capacity, log + [c])
  {
    assert (log + [c])[..|log|] == log;
    var after := Complete(backlog, capacity, c);
    forall route: Route
      ensures route in after <==> SamplesOf(log + [c], route) != []
      ensures route in after ==> IsRecent(after[route], SamplesOf(log + [c], route), capacity)
    {
      if c.sample.Some? && c.route == route {
        var buffer := if route in backlog then backlog[route] else [];
        PushKeepsLast(buffer, SamplesOf(log, route), capacity, c.sample.value);
      }
    }
  }
}
