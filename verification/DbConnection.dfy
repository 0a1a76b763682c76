/** The connection wrapper of backend/app/db.py over such a session. */
module DbConnection {
  import opened Wrappers
  import opened DbSession
  import Decimal

  /** An open transaction() block: its savepoint, and whether SQLAlchemy still considers it active. */
  datatype Block = Block(number: nat, active: bool)

  datatype Conn<D> = Conn(
    pg: Session<D>,
    actor: Option<int>,
    applied: bool,
    nextSavepoint: nat,
    blocks: seq<Block>,
    closed: bool)

  datatype Op<!D> =
    | SetActor(user: Option<int>)
    | Run(stmt: Statement<D>)
    | Save(name: string)
    | RollTo(name: string)
    | ReleaseTo(name: string)
    | CommitAll
    | RollbackAll
    | EnterBlock
    | LeaveBlock(failed: bool)
    | Close

  /** The text handed to set_config for an actor. */
  function ActorText(actor: Option<int>): string {
    if actor.None? then "" else Decimal.OfInt(actor.value)
  }

  /** A wrapper just built over a pooled session, whatever setting that was left with. */
  function Opened<D>(pg: Session<D>): Conn<D> {
    Conn(pg, None, false, 0, [], false)
  }

  predicate Enabled<D>(c: Conn<D>, op: Op<D>) {
    !c.closed && (op.LeaveBlock? ==> c.blocks != [])
  }

  datatype Outcome<D> = Outcome(conn: Conn<D>, ok: bool)

  function EnsureActor<D>(c: Conn<D>): Outcome<D> {
    if c.applied then Outcome(c, true)
    else
      var reply := SetConfig(c.pg, ActorText(c.actor));
      Outcome(c.(pg := reply.session, applied := reply.ok), reply.ok)
  }

  function Using<D>(c: Conn<D>, reply: Reply<D>): Outcome<D> {
    Outcome(c.(pg := reply.session), reply.ok)
  }

  /** An ordinary statement runs inside a savepoint of its own. */
  function RunWrapped<D>(c: Conn<D>, stmt: Statement<D>): Outcome<D> {
    var name := Sa(c.nextSavepoint);
    var begun := Savepoint(c.pg, name);
    if !begun.ok then Outcome(c, false)
    else
      var c1 := c.(nextSavepoint := c.nextSavepoint + 1);
      var ran := Execute(begun.session, stmt);
      if ran.ok then Using(c1, Release(ran.session, name))
      else Outcome(c1.(pg := RollbackTo(ran.session, name).session), false)
  }

  function Cancelled(blocks: seq<Block>): (r: seq<Block>)
    ensures |r| == |blocks|
    ensures forall i :: 0 <= i < |r| ==> r[i] == Block(blocks[i].number, false)
  {
    seq(|blocks|, i requires 0 <= i < |blocks| => Block(blocks[i].number, false))
  }

  function Step<D>(c: Conn<D>, op: Op<D>): Outcome<D>
    requires Enabled(c, op)
  {
    match op
    case SetActor(user) => Outcome(c.(actor := user, applied := false), true)
    case Run(stmt) =>
      var ready := EnsureActor(c);
      if ready.ok then RunWrapped(ready.conn, stmt) else ready
    case Save(name) =>
      var ready := EnsureActor(c);
      if ready.ok then Using(ready.conn, Savepoint(ready.conn.pg, User(name))) else ready
    case RollTo(name) =>
      var ready := EnsureActor(c);
      if ready.ok then Using(ready.conn, RollbackTo(ready.conn.pg, User(name))) else ready
    case ReleaseTo(name) =>
      var ready := EnsureActor(c);
      if ready.ok then Using(ready.conn, Release(ready.conn.pg, User(name))) else ready
    case CommitAll => Outcome(c.(pg := Commit(c.pg), applied := false, blocks := Cancelled(c.blocks)), true)
    case RollbackAll => Outcome(c.(pg := Rollback(c.pg), applied := false, blocks := Cancelled(c.blocks)), true)
    case EnterBlock =>
      var begun := Savepoint(c.pg, Sa(c.nextSavepoint));
      if begun.ok
      then Outcome(c.(pg := begun.session, nextSavepoint := c.nextSavepoint + 1,
                      blocks := c.blocks + [Block(c.nextSavepoint, true)]), true)
      else Outcome(c, false)
    case LeaveBlock(failed) =>
      var top := c.blocks[|c.blocks| - 1];
      var c1 := c.(blocks := c.blocks[..|c.blocks| - 1]);
      if !top.active then Outcome(c1, failed)
      else if failed then Using(c1, RollbackTo(c.pg, Sa(top.number)))
      else Using(c1, Release(c.pg, Sa(top.number)))
    case Close => Outcome(c.(pg := Rollback(c.pg), blocks := Cancelled(c.blocks), closed := true), true)
  }

  predicate Possible<D>(c0: Conn<D>, run: seq<Op<D>>)
    decreases |run|, 0
  {
    run == [] || (Possible(c0, run[..|run| - 1]) && Enabled(After(c0, run[..|run| - 1]), run[|run| - 1]))
  }

  function After<D>(c0: Conn<D>, run: seq<Op<D>>): Conn<D>
    requires Possible(c0, run)
    decreases |run|, 1
  {
    if run == [] then c0 else Step(After(c0, run[..|run| - 1]), run[|run| - 1]).conn
  }

  lemma {:induction false} PrefixPossible<D>(c0: Conn<D>, run: seq<Op<D>>, n: nat)
    requires Possible(c0, run) && n <= |run|
    ensures Possible(c0, run[..n])
    ensures n < |run| ==> Enabled(After(c0, run[..n]), run[n])
    decreases |run|
  {
    if n == |run| {
      assert run[..n] == run;
    } else {
      PrefixPossible(c0, run[..|run| - 1], n);
      assert run[..|run| - 1][..n] == run[..n];
    }
  }

  lemma ActorTextReadsBack(actor: Option<int>)
    ensures Decimal.ReadInt(ActorText(actor)) == actor
  {
    if actor.Some? {
      Decimal.OfIntReads(actor.value);
    }
  }

  // ---------- the wrapper as an object ----------

  class DBConnection<D> {
    var session: Session<D>
    var actorUserId: Option<int>
    var actorApplied: bool
    var nextSavepoint: nat
    var blocks: seq<Block>
    var closed: bool

    ghost function Abs(): Conn<D>
      reads this
    {
      Conn(session, actorUserId, actorApplied, nextSavepoint, blocks, closed)
    }

    constructor (session: Session<D>)
      ensures Abs() == Opened(session)
    {
      this.session := session;
      actorUserId, actorApplied := None, false;
      nextSavepoint, blocks, closed := 0, [], false;
    }

    method SetActorUser(user: Option<int>)
      requires Enabled(Abs(), SetActor(user))
      modifies this
      ensures Abs() == Step(old(Abs()), SetActor(user)).conn
    {
      actorUserId := user;
      actorApplied := false;
    }

    method ApplyActor() returns (ok: bool)
      modifies this
      ensures Outcome(Abs(), ok) == EnsureActor(old(Abs()))
      ensures ok && !old(actorApplied) ==> Decimal.ReadInt(session.setting) == actorUserId
    {
      ActorTextReadsBack(actorUserId);
      if actorApplied {
        return true;
      }
      var reply := SetConfig(session, ActorText(actorUserId));
      session := reply.session;
      if !reply.ok {
        return false;
      }
      actorApplied := true;
      return true;
    }

    /** execute() for anything but a hand-written savepoint command. */
    method ExecuteStatement(stmt: Statement<D>) returns (ok: bool)
      requires Enabled(Abs(), Run(stmt))
      modifies this
      ensures Outcome(Abs(), ok) == Step(old(Abs()), Run(stmt))
    {
      ok := ApplyActor();
      if ok {
        ok := RunNested(stmt);
      }
    }

    /** The statement inside its own savepoint. */
    method RunNested(stmt: Statement<D>) returns (ok: bool)
      modifies this
      ensures Outcome(Abs(), ok) == RunWrapped(old(Abs()), stmt)
    {
      var nested := Sa(nextSavepoint);
      var reply := Savepoint(session, nested);
      if !reply.ok {
        return false;
      }
      session := reply.session;
      nextSavepoint := nextSavepoint + 1;
      reply := Execute(session, stmt);
      session := reply.session;
      if reply.ok {
        reply := Release(session, nested);
        session := reply.session;
        ok := reply.ok;
      } else {
        reply := RollbackTo(session, nested);
        session := reply.session;
        ok := false;
      }
    }

    /** execute() for a hand-written SAVEPOINT, ROLLBACK TO or RELEASE. */
    method ExecuteManual(op: Op<D>) returns (ok: bool)
      requires op.Save? || op.RollTo? || op.ReleaseTo?
      requires Enabled(Abs(), op)
      modifies this
      ensures Outcome(Abs(), ok) == Step(old(Abs()), op)
    {
      ok := ApplyActor();
      if !ok {
        return;
      }
      var reply;
      if op.Save? {
        reply := Savepoint(session, User(op.name));
      } else if op.RollTo? {
        reply := RollbackTo(session, User(op.name));
      } else {
        reply := Release(session, User(op.name));
      }
      session := reply.session;
      ok := reply.ok;
    }

    method CommitRoot()
      requires Enabled(Abs(), CommitAll)
      modifies this
      ensures Abs() == Step(old(Abs()), CommitAll).conn
    {
      session := Commit(session);
      blocks := Cancelled(blocks);
      actorApplied := false;
    }

    method RollbackRoot()
      requires Enabled(Abs(), RollbackAll)
      modifies this
      ensures Abs() == Step(old(Abs()), RollbackAll).conn
    {
      session := Rollback(session);
      blocks := Cancelled(blocks);
      actorApplied := false;
    }

    method CloseConnection()
      requires Enabled(Abs(), Close)
      modifies this
      ensures Abs() == Step(old(Abs()), Close).conn
    {
      session := Rollback(session);
      blocks := Cancelled(blocks);
      closed := true;
    }

    /** The part of transaction() before the yield. */
    method BeginTransaction() returns (ok: bool)
      requires Enabled(Abs(), EnterBlock)
      modifies this
      ensures Outcome(Abs(), ok) == Step(old(Abs()), EnterBlock)
    {
      var reply := Savepoint(session, Sa(nextSavepoint));
      if !reply.ok {
        return false;
      }
      session := reply.session;
      blocks := blocks + [Block(nextSavepoint, true)];
      nextSavepoint := nextSavepoint + 1;
      return true;
    }

    /** The part of transaction() after the yield; failed says whether the body raised. */
    method EndTransaction(failed: bool) returns (ok: bool)
      requires Enabled(Abs(), LeaveBlock(failed))
      modifies this
      ensures Outcome(Abs(), ok) == Step(old(Abs()), LeaveBlock(failed))
    {
      var tx := blocks[|blocks| - 1];
      blocks := blocks[..|blocks| - 1];
      if !tx.active {
        return failed;
      }
      var reply := if failed then RollbackTo(session, Sa(tx.number)) else Release(session, Sa(tx.number));
      session := reply.session;
      ok := reply.ok;
    }
  }
}
