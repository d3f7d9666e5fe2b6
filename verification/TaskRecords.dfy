/** Task records and the bodies that write them, as the objects and step-by-step updates they are.

    The engine's steps `Start` and `Finish` stand for the two status writes that every body makes. */
module TaskRecords {
  import opened Words
  import opened TaskStatus

  datatype Stats = Stats(status: Status, error: UrdError, sysError: int, total: nat, pending: nat)

  class TaskInfo {
    const id: Id
    const kind: TaskType
    const totalBytes: nat
    var status: Status
    var taskError: UrdError
    var sysError: int
    var sentBytes: nat
    var bandwidth: Option<real>

    // History: every status ever written, the initial one included.
    ghost var writes: seq<Status>

    /** The current status is the last one written. */
    ghost predicate Valid()
      reads this
    {
      writes != [] && writes[0] == Pending && writes[|writes| - 1] == status && sentBytes < WORD64
    }

    /** Each write advanced the status before it. */
    ghost predicate InOrder()
      reads this
    {
      forall i :: 0 <= i < |writes| - 1 ==> Advances(writes[i], writes[i + 1])
    }

    constructor (id: Id, kind: TaskType, totalBytes: nat)
      ensures Valid() && InOrder() && this.id == id && this.kind == kind && this.totalBytes == totalBytes
      ensures writes == [Pending] && taskError.Success? && sysError == 0 && sentBytes == 0 && bandwidth.None?
    {
      this.id, this.kind, this.totalBytes := id, kind, totalBytes;
      status, taskError, sysError := Pending, UrdError.Success, 0;
      sentBytes, bandwidth := 0, None;
      writes := [Pending];
    }

    method UpdateStatus(st: Status)
      requires Valid()
      modifies `status, `writes
      ensures Valid() && status == st && writes == old(writes) + [st]
      ensures old(InOrder()) && Advances(old(status), st) ==> InOrder()
    {
      status := st;
      writes := writes + [st];
    }

    method UpdateStatusWith(st: Status, ec: UrdError, sc: int)
      requires Valid()
      modifies `status, `taskError, `sysError, `writes
      ensures Valid() && status == st && taskError == ec && sysError == sc && writes == old(writes) + [st]
      ensures old(InOrder()) && Advances(old(status), st) ==> InOrder()
    {
      status, taskError, sysError := st, ec, sc;
      writes := writes + [st];
    }

    method RecordTransfer(bytes: nat, sample: Option<real>)
      requires Valid()
      modifies `sentBytes, `bandwidth
      ensures Valid() && sentBytes == (old(sentBytes) + bytes) % WORD64 && bandwidth == sample
    {
      sentBytes := (sentBytes + bytes) % WORD64;
      bandwidth := sample;
    }

    /** A consistent view; the bytes still to be sent are the difference modulo the width of
        `size_t`, so that they and the bytes sent always make up the total. */
    function GetStats(): (st: Stats)
      reads this
      ensures st.status == status && st.error == taskError && st.sysError == sysError && st.total == totalBytes
      ensures st.pending < WORD64 && (st.pending + sentBytes - totalBytes) % WORD64 == 0
    {
      Stats(status, taskError, sysError, totalBytes, (totalBytes - sentBytes) % WORD64)
    }
  }

  /** What a transferor records, any number of times: some bytes and their bandwidth. */
  datatype Recording = Recording(bytes: nat, sample: Option<real>)

  function TotalBytes(recordings: seq<Recording>): nat {
    if recordings == [] then 0
    else TotalBytes(recordings[..|recordings| - 1]) + recordings[|recordings| - 1].bytes
  }

  /** The transferor's effect on the record: the bytes add up with the wrap of their type, and the
      bandwidth is that of the last recording. */
  method Transfer(info: TaskInfo, recordings: seq<Recording>)
    requires info.Valid()
    modifies info`sentBytes, info`bandwidth
    ensures info.Valid() && info.sentBytes == (old(info.sentBytes) + TotalBytes(recordings)) % WORD64
    ensures info.bandwidth == if recordings == [] then old(info.bandwidth) else recordings[|recordings| - 1].sample
  {
    for i := 0 to |recordings|
      invariant info.Valid() && info.sentBytes == (old(info.sentBytes) + TotalBytes(recordings[..i])) % WORD64
      invariant info.bandwidth == if i == 0 then old(info.bandwidth) else recordings[i - 1].sample
    {
      info.RecordTransfer(recordings[i].bytes, recordings[i].sample);
      assert recordings[..i + 1][..i] == recordings[..i];
    }
    assert recordings[..|recordings|] == recordings;
  }

  /** The record after a body that met `error`, or no error if it is 0: the status was written twice,
      first as running, then as what the error says. */
  twostate predicate Ended(info: TaskInfo, error: int)
    reads info
  {
    && info.Valid() && |info.writes| == |old(info.writes)| + 2 && old(info.writes) <= info.writes
    && info.writes[|old(info.writes)|] == Running
    && (info.status.Finished? <==> error == 0) && (info.status.FinishedWithError? <==> error != 0)
    && info.sysError == error
    && (info.taskError.Success? <==> error == 0) && (info.taskError.SystemError? <==> error != 0)
  }

  /** The body of a copy or a move: the errors are those of finding the source, creating the
      destination and transferring. The first that is set is the one recorded, and what the transferor
      records counts only if neither of the other two is set. */
  method RunTransfer(info: TaskInfo, sourceError: int, destinationError: int, transferError: int,
                     recordings: seq<Recording>)
    requires info.Valid()
    modifies info
    ensures Ended(info, if sourceError != 0 then sourceError
                        else if destinationError != 0 then destinationError
                        else transferError)
    ensures old(info.InOrder() && info.status.Pending?) ==> info.InOrder()
    ensures sourceError != 0 || destinationError != 0 ==>
      info.sentBytes == old(info.sentBytes) && info.bandwidth == old(info.bandwidth)
    ensures sourceError == 0 && destinationError == 0 ==>
      && info.sentBytes == (old(info.sentBytes) + TotalBytes(recordings)) % WORD64
      && info.bandwidth == if recordings == [] then old(info.bandwidth) else recordings[|recordings| - 1].sample
  {
    info.UpdateStatus(Running);
    if sourceError != 0 {
      info.UpdateStatusWith(FinishedWithError, SystemError, sourceError);
      return;
    }
    if destinationError != 0 {
      info.UpdateStatusWith(FinishedWithError, SystemError, destinationError);
      return;
    }
    Transfer(info, recordings);
    if transferError != 0 {
      info.UpdateStatusWith(FinishedWithError, SystemError, transferError);
      return;
    }
    info.UpdateStatusWith(Finished, UrdError.Success, 0);
  }

  method RunRemove(info: TaskInfo, removeError: int)
    requires info.Valid()
    modifies info
    ensures Ended(info, removeError)
    ensures old(info.InOrder() && info.status.Pending?) ==> info.InOrder()
    ensures info.sentBytes == old(info.sentBytes) && info.bandwidth == old(info.bandwidth)
  {
    info.UpdateStatus(Running);
    if removeError != 0 {
      info.UpdateStatusWith(FinishedWithError, SystemError, removeError);
      return;
    }
    info.UpdateStatusWith(Finished, UrdError.Success, 0);
  }

  method RunNoop(info: TaskInfo)
    requires info.Valid()
    modifies info
    ensures info.Valid() && info.writes == old(info.writes) + [Running, Finished]
    ensures old(info.InOrder() && info.status.Pending?) ==> info.InOrder()
    ensures info.taskError == old(info.taskError) && info.sysError == old(info.sysError)
    ensures info.sentBytes == old(info.sentBytes) && info.bandwidth == old(info.bandwidth)
  {
    info.UpdateStatus(Running);
    info.UpdateStatus(Finished);
  }

  /** Dispatch on the type under which the task was queued: a no-op always succeeds, a removal ends
      with its one error, and everything else that can be queued ends as a transfer does. */
  method RunTask(runAs: TaskType, info: TaskInfo, e1: int, e2: int, e3: int, recordings: seq<Recording>)
    requires info.Valid()
    modifies info
    ensures info.Valid()
    ensures old(info.InOrder() && info.status.Pending?) ==> info.InOrder()
    ensures runAs.Unknown? ==> info.writes == old(info.writes) && info.status == old(info.status)
    ensures runAs.Noop? ==>
      && info.writes == old(info.writes) + [Running, Finished]
      && info.taskError == old(info.taskError) && info.sysError == old(info.sysError)
    ensures runAs.Remove? ==> Ended(info, e1)
    ensures runAs.Unknown? || runAs.Noop? || runAs.Remove? ==>
      info.sentBytes == old(info.sentBytes) && info.bandwidth == old(info.bandwidth)
    ensures runAs.Copy? || runAs.Move? || runAs.RemoteTransfer? ==>
      && Ended(info, if e1 != 0 then e1 else if e2 != 0 then e2 else e3)
      && (e1 == 0 && e2 == 0 ==> info.sentBytes == (old(info.sentBytes) + TotalBytes(recordings)) % WORD64)
      && (e1 != 0 || e2 != 0 ==> info.sentBytes == old(info.sentBytes))
  {
    match runAs
    case Noop => RunNoop(info);
    case Remove => RunRemove(info, e1);
    case Unknown =>
    case _ => RunTransfer(info, e1, e2, e3, recordings);
  }

  function Stage(st: Status): nat {
    if st.IsTerminal() then 2 else if st.Running? then 1 else 0
  }

  lemma {:induction false} WriteStage(info: TaskInfo, i: nat)
    requires info.Valid() && info.InOrder() && i < |info.writes|
    ensures Stage(info.writes[i]) == i
  {
    if i > 0 {
      WriteStage(info, i - 1);
      assert Advances(info.writes[i - 1], info.writes[i]);
    }
  }

  /** A record written in order was written exactly once per stage of its life, so three times at
      most. */
  lemma OneWritePerStage(info: TaskInfo)
    requires info.Valid() && info.InOrder()
    ensures |info.writes| == Stage(info.status) + 1 <= 3
  {
    WriteStage(info, |info.writes| - 1);
  }
}
