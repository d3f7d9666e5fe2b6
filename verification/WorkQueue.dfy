/** The blocking queue between the daemon and its worker threads. */
module WorkQueues {

  /** What one pass through the critical section of a blocking pop finds. */
  datatype Taken<+T> = Blocked | Refused | Popped(value: T)

  /** The wait condition and what follows it: sleep on a valid empty queue, give up on an
      invalid one, otherwise take the front. */
  function TakeFront<T>(items: seq<T>, valid: bool): (r: Taken<T>)
    ensures r.Blocked? <==> items == [] && valid
    ensures r.Popped? <==> items != [] && valid
    ensures r.Popped? ==> [r.value] + items[1..] == items
  {
    if items == [] && valid then Blocked
    else if !valid then Refused
    else Popped(items[0])
  }

  class WorkQueue<T> {
    var items: seq<T>
    var valid: bool

    // History: everything ever pushed, everything that ever left at the front, and the part of
    // the latter that was handed to a caller.
    ghost var pushed: seq<T>
    ghost var removed: seq<T>
    ghost var popped: seq<T>
    ghost var everCleared: bool

    /** Nothing is lost, duplicated or reordered: what left, then what is queued, is what was
        pushed; and without a `Clear` everything that left was handed out. */
    ghost predicate Valid()
      reads this
    {
      && removed + items == pushed
      && (!everCleared ==> popped == removed)
    }

    constructor ()
      ensures Valid() && valid && items == [] && pushed == [] && popped == [] && !everCleared
    {
      items, valid := [], true;
      pushed, removed, popped, everCleared := [], [], [], false;
    }

    method Push(value: T)
      requires Valid()
      modifies this
      ensures Valid()
      ensures items == old(items) + [value] && pushed == old(pushed) + [value]
      ensures valid == old(valid) && popped == old(popped) && everCleared == old(everCleared)
    {
      items := items + [value];
      pushed := pushed + [value];
    }

    /** One pass through `wait_pop`'s critical section; `Blocked` means that the caller sleeps. */
    method WaitPop() returns (r: Taken<T>)
      requires Valid()
      modifies this
      ensures Valid()
      ensures r == TakeFront(old(items), old(valid))
      ensures items == if r.Popped? then old(items)[1..] else old(items)
      ensures popped == if r.Popped? then old(popped) + [r.value] else old(popped)
      ensures valid == old(valid) && pushed == old(pushed) && everCleared == old(everCleared)
    {
      r := TakeFront(items, valid);
      if r.Popped? {
        removed, popped := removed + [r.value], popped + [r.value];
        items := items[1..];
      }
    }

    method TryPop() returns (r: Taken<T>)
      requires Valid()
      modifies this
      ensures Valid()
      ensures r.Popped? <==> TakeFront(old(items), old(valid)).Popped?
      ensures !r.Popped? ==> r.Refused? && items == old(items) && popped == old(popped)
      ensures r.Popped? ==> [r.value] + items == old(items) && popped == old(popped) + [r.value]
      ensures valid == old(valid) && pushed == old(pushed) && everCleared == old(everCleared)
    {
      if items == [] || !valid {
        return Refused;
      }
      r := Popped(items[0]);
      removed, popped := removed + [items[0]], popped + [items[0]];
      items := items[1..];
    }

    method Clear()
      requires Valid()
      modifies this
      ensures Valid()
      ensures items == [] && removed == pushed && everCleared
      ensures valid == old(valid) && pushed == old(pushed) && popped == old(popped)
    {
      everCleared := true;
      while items != []
        invariant Valid() && everCleared
        invariant valid == old(valid) && pushed == old(pushed) && popped == old(popped)
        decreases |items|
      {
        removed := removed + [items[0]];
        items := items[1..];
      }
    }

    method Invalidate()
      requires Valid()
      modifies this
      ensures Valid() && !valid
      ensures items == old(items) && pushed == old(pushed)
      ensures popped == old(popped) && everCleared == old(everCleared)
    {
      valid := false;
    }
  }
}
