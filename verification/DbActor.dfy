/** Which user the database is told a statement runs for (backend/app/db.py, _ensure_actor). */
module DbActor {
  import opened Wrappers
  import opened DbSession
  import opened DbConnection
  import opened DbRefinement
  import Decimal

  /** An open wrapper believes the actor to be applied only when app.user_id does hold it. */
  predicate ActorKnown<D>(c: Conn<D>) {
    !c.closed && c.applied ==> c.pg.setting == ActorText(c.actor)
  }

  /** In a transaction that is not aborted, that is when the next statement runs under the current actor. */
  lemma SeesActorExactly<D>(c: Conn<D>)
    requires !c.closed && !c.pg.aborted
    ensures Seen(c) == ActorText(c.actor) <==> ActorKnown(c)
  {
  }

  /** The text is that of the user's number, in plain decimals, and empty for no user. */
  lemma ActorTextReads(actor: Option<int>)
    ensures Decimal.ReadInt(ActorText(actor)) == actor
    ensures actor.None? ==> ActorText(actor) == ""
    ensures actor.Some? && actor.value >= 0 ==>
              Decimal.AllDigits(ActorText(actor)) && Decimal.ToNat(ActorText(actor)) == actor.value
              && (actor.value > 0 ==> ActorText(actor)[0] != '0')
    ensures actor.Some? && actor.value < 0 ==>
              var text := ActorText(actor);
              text != "" && text[0] == '-' && Decimal.AllDigits(text[1..]) && Decimal.ToNat(text[1..]) == -actor.value
  {
    if actor.Some? {
      Decimal.OfIntReads(actor.value);
    }
  }

  /** Different users are told apart. */
  lemma ActorTextInjective(a: Option<int>, b: Option<int>)
    requires ActorText(a) == ActorText(b)
    ensures a == b
  {
    if a.Some? && b.Some? {
      Decimal.OfIntInjective(a.value, b.value);
    } else if a.Some? {
      Decimal.OfIntSign(a.value);
    } else if b.Some? {
      Decimal.OfIntSign(b.value);
    }
  }

  /** The savepoint an operation goes back to, if there is one. */
  function Target<D>(c: Conn<D>, op: Op<D>): Option<Saved<D>> {
    var name :=
      if op.RollTo? && EnsureActor(c).ok then Some(User(op.name))
      else if op == LeaveBlock(true) && c.blocks != [] && c.blocks[|c.blocks| - 1].active
      then Some(Sa(c.blocks[|c.blocks| - 1].number))
      else None;
    if name.None? || LastIndex(c.pg.stack, name.value) < 0 then None
    else Some(c.pg.stack[LastIndex(c.pg.stack, name.value)])
  }

  /** The operation goes back to a savepoint set under another user, with the actor applied since. */
  predicate UndoesActor<D>(c: Conn<D>, op: Op<D>) {
    && Target(c, op).Some?
    && (op.RollTo? || c.applied)
    && Target(c, op).value.setting != ActorText(c.actor)
  }

  /** One operation loses the actor exactly when it goes back past the point where it was applied. */
  lemma ActorLostExactly<D>(c: Conn<D>, op: Op<D>)
    requires Enabled(c, op) && ActorKnown(c)
    ensures ActorKnown(Step(c, op).conn) <==> !UndoesActor(c, op)
  {
    match op
    case Run(stmt) =>
      assert Target(c, op).None?;
      if EnsureActor(c).ok {
        RunKeepsActor(EnsureActor(c).conn, stmt);
        assert ActorKnown(Step(c, op).conn);
      }
    case LeaveBlock(failed) =>
      assert failed ==> op == LeaveBlock(true);
    case RollTo(name) =>
    case _ => assert Target(c, op).None?;
  }

  lemma RunKeepsActor<D>(c: Conn<D>, stmt: Statement<D>)
    ensures RunWrapped(c, stmt).conn.pg.setting == c.pg.setting
    ensures RunWrapped(c, stmt).conn.applied == c.applied && RunWrapped(c, stmt).conn.actor == c.actor
  {
    var name := Sa(c.nextSavepoint);
    var begun := Savepoint(c.pg, name);
    if begun.ok {
      var ran := Execute(begun.session, stmt).session;
      assert ran.stack[|ran.stack| - 1] == Saved(name, c.pg.data, c.pg.setting);
      assert LastIndex(ran.stack, name) == |ran.stack| - 1;
    }
  }

  /** No operation of the run goes back past the point where the actor was applied. */
  ghost predicate NeverUndone<D>(c0: Conn<D>, run: seq<Op<D>>)
    requires Possible(c0, run)
    decreases |run|
  {
    run == [] || (NeverUndone(c0, run[..|run| - 1]) && !UndoesActor(After(c0, run[..|run| - 1]), run[|run| - 1]))
  }

  /**
   * Over every run on a pooled session, whatever user that was left with, every statement sees the current
   * actor, provided no savepoint older than the actor's application is gone back to.
   */
  lemma {:induction false} StatementsSeeActor<D>(pg: Session<D>, run: seq<Op<D>>)
    requires Possible(Opened(pg), run) && NeverUndone(Opened(pg), run)
    ensures ActorKnown(After(Opened(pg), run))
    ensures !After(Opened(pg), run).closed && !After(Opened(pg), run).pg.aborted ==>
              Decimal.ReadInt(Seen(After(Opened(pg), run))) == After(Opened(pg), run).actor
  {
    ActorTextReads(After(Opened(pg), run).actor);
    if run != [] {
      StatementsSeeActor(pg, run[..|run| - 1]);
      ActorLostExactly(After(Opened(pg), run[..|run| - 1]), run[|run| - 1]);
    }
  }

  // ---------- a discipline that suffices ----------

  /** A savepoint that can still be gone back to. */
  predicate Reachable(name: Name, blocks: seq<Block>) {
    name.User? || exists i :: 0 <= i < |blocks| && blocks[i] == Block(name.number, true)
  }

  /** The actor changes only while no savepoint is set, and blocks are opened only once it is applied. */
  predicate ActorFirst<D>(c: Conn<D>, op: Op<D>) {
    && (op.SetActor? ==> forall i :: 0 <= i < |c.pg.stack| ==> !Reachable(c.pg.stack[i].name, c.blocks))
    && (op.EnterBlock? ==> c.applied)
  }

  /** Every savepoint that can be gone back to was set under the current actor. */
  ghost predicate ActorEverywhere<D>(c: Conn<D>) {
    && ActorKnown(c)
    && (forall i :: 0 <= i < |c.pg.stack| && Reachable(c.pg.stack[i].name, c.blocks) ==>
          c.applied && c.pg.stack[i].setting == ActorText(c.actor))
    && (forall i :: 0 <= i < |c.pg.stack| && c.pg.stack[i].name.Sa? ==> c.pg.stack[i].name.number < c.nextSavepoint)
    && (forall i :: 0 <= i < |c.blocks| ==> c.blocks[i].number < c.nextSavepoint)
  }

  lemma FewerReachable(blocks: seq<Block>, n: nat, name: Name)
    requires n <= |blocks| && Reachable(name, blocks[..n])
    ensures Reachable(name, blocks)
  {
    if name.Sa? {
      var i :| 0 <= i < n && blocks[..n][i] == Block(name.number, true);
      assert blocks[i] == Block(name.number, true);
    }
  }

  lemma EnteredReachable<D>(c: Conn<D>, name: Name)
    requires Reachable(name, c.blocks + [Block(c.nextSavepoint, true)])
    requires name != Sa(c.nextSavepoint)
    ensures Reachable(name, c.blocks)
  {
    if name.Sa? {
      var blocks := c.blocks + [Block(c.nextSavepoint, true)];
      var i :| 0 <= i < |blocks| && blocks[i] == Block(name.number, true);
      assert c.blocks[i] == Block(name.number, true);
    }
  }

  lemma RunStack<D>(c: Conn<D>, stmt: Statement<D>)
    ensures var out := RunWrapped(c, stmt).conn;
            && out.blocks == c.blocks && out.nextSavepoint >= c.nextSavepoint
            && (out.pg.stack == c.pg.stack
                || (out.pg.stack == c.pg.stack + [Saved(Sa(c.nextSavepoint), c.pg.data, c.pg.setting)]
                    && out.nextSavepoint == c.nextSavepoint + 1))
  {
    var name := Sa(c.nextSavepoint);
    var begun := Savepoint(c.pg, name);
    if begun.ok {
      var ran := Execute(begun.session, stmt).session;
      assert ran.stack[|ran.stack| - 1].name == name;
      assert LastIndex(ran.stack, name) == |c.pg.stack|;
      assert ran.stack[..|c.pg.stack|] == c.pg.stack;
      assert ran.stack[..|c.pg.stack| + 1] == ran.stack;
    }
  }

  lemma ActorFirstExecute<D>(c: Conn<D>, op: Op<D>)
    requires Enabled(c, op) && ActorEverywhere(c) && (op.Run? || op.Save? || op.RollTo? || op.ReleaseTo?)
    ensures !UndoesActor(c, op) && ActorEverywhere(Step(c, op).conn)
  {
    ActorLostExactly(c, op);
    var ready := EnsureActor(c).conn;
    assert ActorEverywhere(ready);
    if op.Run? {
      RunKeepsActor(ready, op.stmt);
      RunStack(ready, op.stmt);
      if EnsureActor(c).ok {
        assert !Reachable(Sa(c.nextSavepoint), c.blocks);
      }
    }
  }

  lemma ActorFirstLeave<D>(c: Conn<D>, op: Op<D>)
    requires Enabled(c, op) && ActorEverywhere(c) && op.LeaveBlock?
    ensures !UndoesActor(c, op) && ActorEverywhere(Step(c, op).conn)
  {
    var n := |c.blocks| - 1;
    if c.blocks[n].active {
      assert c.blocks[n] == Block(Sa(c.blocks[n].number).number, true);
      assert Reachable(Sa(c.blocks[n].number), c.blocks);
      assert op.failed ==> op == LeaveBlock(true);
    }
    ActorLostExactly(c, op);
    forall name: Name | Reachable(name, c.blocks[..n]) ensures Reachable(name, c.blocks) {
      FewerReachable(c.blocks, n, name);
    }
  }

  lemma ActorFirstEnter<D>(c: Conn<D>)
    requires Enabled(c, EnterBlock) && ActorEverywhere(c) && c.applied
    ensures ActorEverywhere(Step(c, EnterBlock).conn)
  {
    var t := Step(c, EnterBlock).conn;
    if !c.pg.aborted {
      forall i | 0 <= i < |c.pg.stack| && Reachable(c.pg.stack[i].name, t.blocks)
        ensures Reachable(c.pg.stack[i].name, c.blocks)
      {
        EnteredReachable(c, c.pg.stack[i].name);
      }
      assert forall i :: 0 <= i < |c.pg.stack| ==> t.pg.stack[i] == c.pg.stack[i];
    }
  }

  lemma ActorFirstStep<D>(c: Conn<D>, op: Op<D>)
    requires Enabled(c, op) && ActorEverywhere(c) && ActorFirst(c, op)
    ensures !UndoesActor(c, op) && ActorEverywhere(Step(c, op).conn)
  {
    if op.LeaveBlock? {
      ActorFirstLeave(c, op);
    } else if op.EnterBlock? {
      ActorFirstEnter(c);
    } else if op.Run? || op.Save? || op.RollTo? || op.ReleaseTo? {
      ActorFirstExecute(c, op);
    }
  }

  ghost predicate ActorFirstRun<D>(c0: Conn<D>, run: seq<Op<D>>)
    requires Possible(c0, run)
    decreases |run|
  {
    run == [] || (ActorFirstRun(c0, run[..|run| - 1]) && ActorFirst(After(c0, run[..|run| - 1]), run[|run| - 1]))
  }

  /** Callers that set the actor and run a statement before opening blocks never lose it. */
  lemma {:induction false} ActorFirstSuffices<D>(pg: Session<D>, run: seq<Op<D>>)
    requires pg.stack == [] && Possible(Opened(pg), run) && ActorFirstRun(Opened(pg), run)
    ensures NeverUndone(Opened(pg), run) && ActorEverywhere(After(Opened(pg), run))
  {
    if run != [] {
      ActorFirstSuffices(pg, run[..|run| - 1]);
      ActorFirstStep(After(Opened(pg), run[..|run| - 1]), run[|run| - 1]);
    }
  }

  // ---------- and a run that loses the actor ----------

  /** A block is opened before the first statement, runs one, and fails; then another statement runs. */
  function LateActorRun<D>(user: int, stmt: Statement<D>): seq<Op<D>> {
    [SetActor(Some(user)), EnterBlock, Run(stmt), LeaveBlock(true)]
  }

  lemma ExtendRun<D>(c0: Conn<D>, run: seq<Op<D>>, n: nat)
    requires n < |run| && Possible(c0, run[..n]) && Enabled(After(c0, run[..n]), run[n])
    ensures Possible(c0, run[..n + 1]) && After(c0, run[..n + 1]) == Step(After(c0, run[..n]), run[n]).conn
  {
    assert run[..n + 1][..n] == run[..n];
  }

  /** The next statement then runs as whoever used the pooled session before, though the actor counts as applied. */
  lemma LateActorIsLost<D>(base: D, pg: Session<D>, user: int, stmt: Statement<D>)
    requires Idle(pg, base) && stmt(base, ActorText(Some(user))).Some? && pg.setting != ActorText(Some(user))
    ensures Possible(Opened(pg), LateActorRun(user, stmt))
    ensures var c := After(Opened(pg), LateActorRun(user, stmt));
            && c.applied && c.actor == Some(user) && !c.pg.aborted
            && Seen(c) == pg.setting && Seen(c) != ActorText(c.actor)
  {
    var inside := Inside(pg, user);
    EntersLate(pg, user);
    var ran := Step(inside, Run(stmt)).conn;
    RanInside(inside, ran, user, stmt);
    LeavesLate(ran, pg, user);
    FourSteps(Opened(pg), inside, ran, LateActorRun(user, stmt));
  }

  lemma FourSteps<D>(c0: Conn<D>, c2: Conn<D>, c3: Conn<D>, run: seq<Op<D>>)
    requires |run| == 4 && Enabled(c0, run[0])
    requires Enabled(Step(c0, run[0]).conn, run[1]) && c2 == Step(Step(c0, run[0]).conn, run[1]).conn
    requires Enabled(c2, run[2]) && c3 == Step(c2, run[2]).conn && Enabled(c3, run[3])
    ensures Possible(c0, run) && After(c0, run) == Step(c3, run[3]).conn
  {
    assert run[..0] == [];
    ExtendRun(c0, run, 0);
    ExtendRun(c0, run, 1);
    ExtendRun(c0, run, 2);
    ExtendRun(c0, run, 3);
    assert run[..4] == run;
  }

  /** Inside the block, before the actor is applied. */
  function Inside<D>(pg: Session<D>, user: int): Conn<D> {
    Conn(pg.(stack := [Saved(Sa(0), pg.data, pg.setting)]), Some(user), false, 1, [Block(0, true)], false)
  }

  lemma EntersLate<D>(pg: Session<D>, user: int)
    requires pg.stack == [] && !pg.aborted
    ensures Enabled(Step(Opened(pg), SetActor(Some(user))).conn, EnterBlock)
    ensures Step(Step(Opened(pg), SetActor(Some(user))).conn, EnterBlock).conn == Inside(pg, user)
  {
  }

  lemma LeavesLate<D>(ran: Conn<D>, pg: Session<D>, user: int)
    requires ran.pg.stack == Inside(pg, user).pg.stack && ran.blocks == [Block(0, true)] && ran.actor == Some(user)
    requires ran.applied && !ran.closed
    ensures var c := Step(ran, LeaveBlock(true)).conn;
            && c.applied && c.actor == Some(user) && !c.pg.aborted && Seen(c) == pg.setting
  {
    assert LastIndex(ran.pg.stack, Sa(0)) == 0;
  }

  lemma RanInside<D>(inside: Conn<D>, ran: Conn<D>, user: int, stmt: Statement<D>)
    requires !inside.closed && !inside.pg.aborted && !inside.applied && inside.actor == Some(user)
    requires stmt(inside.pg.data, ActorText(Some(user))).Some? && ran == Step(inside, Run(stmt)).conn
    ensures ran.pg.stack == inside.pg.stack && ran.blocks == inside.blocks && ran.actor == Some(user)
    ensures ran.applied && !ran.pg.aborted && !ran.closed
  {
    var ready := EnsureActor(inside).conn;
    RunKeepsActor(ready, stmt);
    RunSucceeds(ready, stmt);
  }

  lemma RunSucceeds<D>(c: Conn<D>, stmt: Statement<D>)
    requires !c.pg.aborted && stmt(c.pg.data, c.pg.setting).Some?
    ensures RunWrapped(c, stmt).conn.pg.stack == c.pg.stack && !RunWrapped(c, stmt).conn.pg.aborted
  {
    var name := Sa(c.nextSavepoint);
    var ran := Execute(Savepoint(c.pg, name).session, stmt).session;
    assert LastIndex(ran.stack, name) == |c.pg.stack|;
    assert ran.stack[..|c.pg.stack|] == c.pg.stack;
  }

  // ---------- what the pooled session is left with ----------

  /** The setting of the last commit that was not one of an aborted transaction, or else the session's own. */
  function Kept<D>(pg: Session<D>, run: seq<Op<D>>): string
    requires Possible(Opened(pg), run)
    decreases |run|
  {
    if run == [] then pg.committedSetting
    else
      var front := run[..|run| - 1];
      var c := After(Opened(pg), front);
      if run[|run| - 1].CommitAll? && !c.pg.aborted then c.pg.setting else Kept(pg, front)
  }

  /** Over every run, a rollback or a close leaves the session with that setting, and a commit with its own. */
  lemma {:induction false} LeavesSetting<D>(pg: Session<D>, run: seq<Op<D>>)
    requires Possible(Opened(pg), run)
    ensures var c := After(Opened(pg), run);
            && c.pg.committedSetting == Kept(pg, run)
            && (!c.closed ==>
                  && Step(c, RollbackAll).conn.pg.setting == Kept(pg, run)
                  && Step(c, Close).conn.pg.setting == Kept(pg, run)
                  && Step(c, CommitAll).conn.pg.setting == (if c.pg.aborted then Kept(pg, run) else c.pg.setting))
    decreases |run|
  {
    if run != [] {
      LeavesSetting(pg, run[..|run| - 1]);
      KeepsCommittedSetting(After(Opened(pg), run[..|run| - 1]), run[|run| - 1]);
    }
  }

  lemma KeepsCommittedSetting<D>(c: Conn<D>, op: Op<D>)
    requires Enabled(c, op)
    ensures Step(c, op).conn.pg.committedSetting
            == if op.CommitAll? && !c.pg.aborted then c.pg.setting else c.pg.committedSetting
  {
  }
}
