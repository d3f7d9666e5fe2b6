/** The life cycle of a task and the small value types shared by the engine's parts. */
module TaskStatus {
  import opened Words

  datatype Option<+T> = None | Some(value: T)

  datatype Status = Undefined | Pending | Running | Finished | FinishedWithError
  {
    predicate IsTerminal() { Finished? || FinishedWithError? }

    predicate IsActive() { Pending? || Running? }
  }

  /** `a` is `b` or an earlier point of the same life: pending, then running, then one fixed
      terminal status. */
  predicate MayBecome(a: Status, b: Status) {
    || a == b
    || (a.Pending? && (b.Running? || b.IsTerminal()))
    || (a.Running? && b.IsTerminal())
  }

  /** One write of a task body: from pending to running or from running to a terminal status. */
  predicate Advances(a: Status, b: Status) {
    (a.Pending? && b.Running?) || (a.Running? && b.IsTerminal())
  }

  datatype TaskType = Copy | Move | Remove | Noop | RemoteTransfer | Unknown

  /** The 32-bit identifier of a task. */
  type Id = n: int | 0 <= n < WORD32 witness 0

  datatype UrdError =
    | Success | TooManyTasks | NotSupported | BadArgs | AcceptPaused | NoSuchTask
    | TasksPending | NamespaceNotEmpty | SystemError
}
