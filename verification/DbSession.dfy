/** A PostgreSQL session: one transaction at a time, its savepoints, and the app.user_id setting. */
module DbSession {
  import opened Wrappers

  /** A statement maps the data and the visible app.user_id to new data, or fails. */
  type Statement<!D> = (D, string) -> Option<D>

  /** Savepoints written by hand, and those numbered by SQLAlchemy. */
  datatype Name = User(text: string) | Sa(number: nat)

  datatype Saved<D> = Saved(name: Name, data: D, setting: string)

  /**
   * The committed and the working data and setting, the savepoints set so far, and whether an error
   * has aborted the transaction.
   */
  datatype Session<D> = Session(
    committed: D,
    committedSetting: string,
    data: D,
    setting: string,
    stack: seq<Saved<D>>,
    aborted: bool)

  /** The position of the newest savepoint of that name, or -1. */
  function LastIndex<D>(stack: seq<Saved<D>>, name: Name): (i: int)
    ensures -1 <= i < |stack|
    ensures i >= 0 ==> stack[i].name == name
  {
    if stack == [] then -1
    else if stack[|stack| - 1].name == name then |stack| - 1
    else LastIndex(stack[..|stack| - 1], name)
  }

  /** A command's effect; ok is false when it raises. */
  datatype Reply<D> = Reply(session: Session<D>, ok: bool)

  function SetConfig<D>(s: Session<D>, value: string): Reply<D> {
    if s.aborted then Reply(s, false) else Reply(s.(setting := value), true)
  }

  function Execute<D>(s: Session<D>, stmt: Statement<D>): Reply<D> {
    if s.aborted then Reply(s, false)
    else
      var outcome := stmt(s.data, s.setting);
      if outcome.Some? then Reply(s.(data := outcome.value), true) else Reply(s.(aborted := true), false)
  }

  function Savepoint<D>(s: Session<D>, name: Name): Reply<D> {
    if s.aborted then Reply(s, false) else Reply(s.(stack := s.stack + [Saved(name, s.data, s.setting)]), true)
  }

  /** Restores the savepoint's state, even in an aborted transaction; the savepoint itself stays. */
  function RollbackTo<D>(s: Session<D>, name: Name): Reply<D> {
    var i := LastIndex(s.stack, name);
    if i < 0 then Reply(s.(aborted := true), false)
    else Reply(s.(data := s.stack[i].data, setting := s.stack[i].setting, stack := s.stack[..i + 1], aborted := false), true)
  }

  function Release<D>(s: Session<D>, name: Name): Reply<D> {
    var i := LastIndex(s.stack, name);
    if s.aborted || i < 0 then Reply(s.(aborted := true), false)
    else Reply(s.(stack := s.stack[..i]), true)
  }

  function Rollback<D>(s: Session<D>): Session<D> {
    s.(data := s.committed, setting := s.committedSetting, stack := [], aborted := false)
  }

  /** COMMIT of an aborted transaction rolls back without raising. */
  function Commit<D>(s: Session<D>): Session<D> {
    if s.aborted then Rollback(s)
    else s.(committed := s.data, committedSetting := s.setting, stack := [])
  }
}
