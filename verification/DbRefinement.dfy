/**
 * The savepoint stack refines a log of surviving statements with bookmarks: a committed and a pending
 * part, no saved states, no per-statement savepoints and none of the savepoints SQLAlchemy leaves behind.
 */
module DbRefinement {
  import opened Wrappers
  import opened DbSession
  import opened DbConnection

  /** A statement that succeeded, with the app.user_id it ran under. */
  datatype Effect<!D> = Effect(stmt: Statement<D>, seen: string)

  /** A bookmark: everything from position len of the log on happened after it. */
  datatype Mark = Mark(name: Name, len: nat)

  /**
   * log[..committed] is published, the rest is pending. In a broken transaction nothing but a rollback
   * works, and not even ROLLBACK TO does while an actor is still to be applied.
   */
  datatype Spec<!D> = Spec(
    log: seq<Effect<D>>,
    committed: nat,
    marks: seq<Mark>,
    blocks: seq<Block>,
    broken: bool,
    applied: bool)

  function Apply<D>(d: D, e: Effect<D>): D {
    var outcome := e.stmt(d, e.seen);
    if outcome.Some? then outcome.value else d
  }

  function Replay<D>(base: D, log: seq<Effect<D>>): D {
    if log == [] then base else Apply(Replay(base, log[..|log| - 1]), log[|log| - 1])
  }

  function LastMark(marks: seq<Mark>, name: Name): (i: int)
    ensures -1 <= i < |marks|
    ensures i >= 0 ==> marks[i].name == name
  {
    if marks == [] then -1
    else if marks[|marks| - 1].name == name then |marks| - 1
    else LastMark(marks[..|marks| - 1], name)
  }

  datatype SpecOutcome<!D> = SpecOutcome(spec: Spec<D>, ok: bool)

  predicate Settled<D>(a: Spec<D>) {
    && a.committed <= |a.log|
    && forall i :: 0 <= i < |a.marks| ==> a.committed <= a.marks[i].len <= |a.log|
  }

  function BackTo<D>(a: Spec<D>, name: Name): SpecOutcome<D>
    requires Settled(a)
  {
    var i := LastMark(a.marks, name);
    if i < 0 then SpecOutcome(a.(broken := true), false)
    else SpecOutcome(a.(log := a.log[..a.marks[i].len], marks := a.marks[..i + 1], broken := false), true)
  }

  function Forget<D>(a: Spec<D>, name: Name): SpecOutcome<D> {
    var i := LastMark(a.marks, name);
    if a.broken || i < 0 then SpecOutcome(a.(broken := true), false)
    else SpecOutcome(a.(marks := a.marks[..i]), true)
  }

  function Place<D>(a: Spec<D>, name: Name): SpecOutcome<D> {
    if a.broken then SpecOutcome(a, false)
    else SpecOutcome(a.(marks := a.marks + [Mark(name, |a.log|)]), true)
  }

  function DropPending<D>(a: Spec<D>): Spec<D>
    requires Settled(a)
  {
    a.(log := a.log[..a.committed], marks := [], blocks := Cancelled(a.blocks), broken := false, applied := false)
  }

  /** Whether the first thing an execute() does, applying the actor, raises. */
  predicate ActorBlocked<D>(a: Spec<D>) {
    a.broken && !a.applied
  }

  /** The specification's step; seen is the app.user_id of the moment, number that of the next savepoint. */
  function SpecStep<D>(base: D, a: Spec<D>, op: Op<D>, seen: string, number: nat): SpecOutcome<D>
    requires Settled(a) && (op.LeaveBlock? ==> a.blocks != [])
  {
    match op
    case SetActor(_) => SpecOutcome(a.(applied := false), true)
    case Run(stmt) =>
      if a.broken then SpecOutcome(a, false)
      else if stmt(Replay(base, a.log), seen).None? then SpecOutcome(a.(applied := true), false)
      else SpecOutcome(a.(log := a.log + [Effect(stmt, seen)], applied := true), true)
    case Save(name) => if ActorBlocked(a) then SpecOutcome(a, false) else Place(a.(applied := true), User(name))
    case RollTo(name) => if ActorBlocked(a) then SpecOutcome(a, false) else BackTo(a.(applied := true), User(name))
    case ReleaseTo(name) => if ActorBlocked(a) then SpecOutcome(a, false) else Forget(a.(applied := true), User(name))
    case CommitAll =>
      if a.broken then SpecOutcome(DropPending(a), true)
      else SpecOutcome(a.(committed := |a.log|, marks := [], blocks := Cancelled(a.blocks), applied := false), true)
    case RollbackAll => SpecOutcome(DropPending(a), true)
    case EnterBlock =>
      var placed := Place(a, Sa(number));
      SpecOutcome(if placed.ok then placed.spec.(blocks := a.blocks + [Block(number, true)]) else a, placed.ok)
    case LeaveBlock(failed) =>
      var top := a.blocks[|a.blocks| - 1];
      var a1 := a.(blocks := a.blocks[..|a.blocks| - 1]);
      if !top.active then SpecOutcome(a1, failed)
      else if failed then
        var back := BackTo(a1, Sa(top.number));
        SpecOutcome(if back.ok then back.spec.(marks := back.spec.marks[..|back.spec.marks| - 1]) else back.spec, back.ok)
      else Forget(a1, Sa(top.number))
    case Close => SpecOutcome(DropPending(a).(applied := a.applied), true)
  }

  // ---------- the refinement relation ----------

  /** A savepoint SQLAlchemy has rolled back to but never released; open holds the others' numbers. */
  predicate Residue(name: Name, open: set<nat>) {
    name.Sa? && name.number !in open
  }

  /** Apart from residue, the stack holds one saved state per mark, the replay of the log up to it. */
  ghost predicate Match<D>(base: D, log: seq<Effect<D>>, stack: seq<Saved<D>>, marks: seq<Mark>, open: set<nat>)
    decreases |stack|
  {
    if stack == [] then marks == []
    else
      var below, top := stack[..|stack| - 1], stack[|stack| - 1];
      if Residue(top.name, open) then Match(base, log, below, marks, open)
      else
        && marks != []
        && var mark := marks[|marks| - 1];
        && mark.name == top.name
        && mark.len <= |log|
        && top.data == Replay(base, log[..mark.len])
        && Match(base, log, below, marks[..|marks| - 1], open)
  }

  /** SQLAlchemy's savepoints are numbered in the order they are set, below next. */
  ghost predicate Rising<D>(stack: seq<Saved<D>>, next: nat)
    decreases |stack|
  {
    stack == [] ||
    var top := stack[|stack| - 1].name;
    (top.Sa? ==> top.number < next) && Rising(stack[..|stack| - 1], if top.Sa? then top.number else next)
  }

  /** And so are its blocks. */
  ghost predicate RisingBlocks(blocks: seq<Block>, next: nat)
    decreases |blocks|
  {
    blocks == [] ||
    var top := blocks[|blocks| - 1];
    top.number < next && RisingBlocks(blocks[..|blocks| - 1], top.number)
  }

  lemma {:induction false} RisingLoosened<D>(stack: seq<Saved<D>>, low: nat, high: nat)
    requires Rising(stack, low) && low <= high
    ensures Rising(stack, high)
    decreases |stack|
  {
    if stack != [] && !stack[|stack| - 1].name.Sa? {
      RisingLoosened(stack[..|stack| - 1], low, high);
    }
  }

  lemma RisingPush<D>(stack: seq<Saved<D>>, next: nat, top: Saved<D>)
    requires Rising(stack, next) && (top.name.Sa? ==> top.name.number == next)
    ensures Rising(stack + [top], next + 1)
  {
    assert (stack + [top])[..|stack|] == stack;
    RisingLoosened(stack, next, next + 1);
  }

  lemma {:induction false} RisingPrefix<D>(stack: seq<Saved<D>>, next: nat, n: nat)
    requires Rising(stack, next) && n <= |stack|
    ensures Rising(stack[..n], next)
    decreases |stack|
  {
    if n == |stack| {
      assert stack[..n] == stack;
    } else {
      var top := stack[|stack| - 1].name;
      if top.Sa? {
        RisingLoosened(stack[..|stack| - 1], top.number, next);
      }
      RisingPrefix(stack[..|stack| - 1], next, n);
      assert stack[..|stack| - 1][..n] == stack[..n];
    }
  }

  lemma {:induction false} RisingBelow<D>(stack: seq<Saved<D>>, next: nat, i: nat)
    requires Rising(stack, next) && i < |stack| && stack[i].name.Sa?
    ensures stack[i].name.number < next
    decreases |stack|
  {
    if i < |stack| - 1 {
      RisingBelow(stack[..|stack| - 1], if stack[|stack| - 1].name.Sa? then stack[|stack| - 1].name.number else next, i);
    }
  }

  lemma RisingBlocksPush(blocks: seq<Block>, next: nat)
    requires RisingBlocks(blocks, next)
    ensures RisingBlocks(blocks + [Block(next, true)], next + 1)
  {
    assert (blocks + [Block(next, true)])[..|blocks|] == blocks;
  }

  lemma {:induction false} RisingBlocksBelow(blocks: seq<Block>, next: nat, i: nat)
    requires RisingBlocks(blocks, next) && i < |blocks|
    ensures blocks[i].number < next
    decreases |blocks|
  {
    if i < |blocks| - 1 {
      RisingBlocksBelow(blocks[..|blocks| - 1], blocks[|blocks| - 1].number, i);
    }
  }

  lemma RisingBlocksLoosened(blocks: seq<Block>, low: nat, high: nat)
    requires RisingBlocks(blocks, low) && low <= high
    ensures RisingBlocks(blocks, high)
  {
  }

  lemma {:induction false} RisingBlocksCancelled(blocks: seq<Block>, next: nat)
    requires RisingBlocks(blocks, next)
    ensures RisingBlocks(Cancelled(blocks), next)
    decreases |blocks|
  {
    if blocks != [] {
      RisingBlocksCancelled(blocks[..|blocks| - 1], blocks[|blocks| - 1].number);
      assert Cancelled(blocks)[..|blocks| - 1] == Cancelled(blocks[..|blocks| - 1]);
    }
  }

  ghost predicate Ordered(marks: seq<Mark>) {
    forall i, j :: 0 <= i < j < |marks| ==> marks[i].len <= marks[j].len
  }

  ghost predicate RefinesWith<D>(base: D, c: Conn<D>, a: Spec<D>, open: set<nat>) {
    && Settled(a) && Ordered(a.marks)
    && Rising(c.pg.stack, c.nextSavepoint) && RisingBlocks(c.blocks, c.nextSavepoint)
    && c.blocks == a.blocks && c.pg.aborted == a.broken && c.applied == a.applied
    && c.pg.committed == Replay(base, a.log[..a.committed])
    && c.pg.data == Replay(base, a.log)
    && Match(base, a.log, c.pg.stack, a.marks, open)
    && (forall i :: 0 <= i < |c.blocks| && c.blocks[i].active ==> c.blocks[i].number in open)
    && (forall n :: n in open ==> n < c.nextSavepoint)
  }

  ghost predicate Refines<D>(base: D, c: Conn<D>, a: Spec<D>) {
    exists open :: RefinesWith(base, c, a, open)
  }

  // ---------- how the relation moves ----------

  /** Only the part of the log below the marks matters. */
  lemma {:induction false} MatchOtherLog<D>(base: D, log: seq<Effect<D>>, log': seq<Effect<D>>, stack: seq<Saved<D>>,
                                            marks: seq<Mark>, open: set<nat>, bound: nat)
    requires Match(base, log, stack, marks, open)
    requires bound <= |log| && bound <= |log'| && log[..bound] == log'[..bound]
    requires forall i :: 0 <= i < |marks| ==> marks[i].len <= bound
    ensures Match(base, log', stack, marks, open)
    decreases |stack|
  {
    if stack != [] {
      var below, top := stack[..|stack| - 1], stack[|stack| - 1];
      if Residue(top.name, open) {
        MatchOtherLog(base, log, log', below, marks, open, bound);
      } else {
        var mark := marks[|marks| - 1];
        assert log[..mark.len] == log[..bound][..mark.len];
        assert log'[..mark.len] == log'[..bound][..mark.len];
        MatchOtherLog(base, log, log', below, marks[..|marks| - 1], open, bound);
      }
    }
  }

  /** Opening or closing blocks matters only for their own savepoints. */
  lemma {:induction false} MatchOtherOpen<D>(base: D, log: seq<Effect<D>>, stack: seq<Saved<D>>, marks: seq<Mark>,
                                             open: set<nat>, open': set<nat>)
    requires Match(base, log, stack, marks, open)
    requires forall i :: 0 <= i < |stack| ==> Residue(stack[i].name, open) == Residue(stack[i].name, open')
    ensures Match(base, log, stack, marks, open')
    decreases |stack|
  {
    if stack != [] {
      var below, top := stack[..|stack| - 1], stack[|stack| - 1];
      assert forall i :: 0 <= i < |below| ==> below[i] == stack[i];
      assert Residue(top.name, open) == Residue(top.name, open');
      MatchOtherOpen(base, log, below, if Residue(top.name, open) then marks else marks[..|marks| - 1], open, open');
    }
  }

  /** The savepoint at i and the mark at j record the same moment, and what lies below matches. */
  ghost predicate SameMoment<D>(base: D, log: seq<Effect<D>>, stack: seq<Saved<D>>, marks: seq<Mark>, open: set<nat>,
                                i: nat, j: nat) {
    && i < |stack| && j < |marks| && marks[j].len <= |log|
    && stack[i].data == Replay(base, log[..marks[j].len])
    && Match(base, log, stack[..i], marks[..j], open)
    && Match(base, log, stack[..i + 1], marks[..j + 1], open)
  }

  lemma SameMomentAbove<D>(base: D, log: seq<Effect<D>>, stack: seq<Saved<D>>, marks: seq<Mark>, open: set<nat>,
                           i: nat, j: nat, m: nat, n: nat)
    requires m <= |stack| && n <= |marks| && SameMoment(base, log, stack[..m], marks[..n], open, i, j)
    ensures SameMoment(base, log, stack, marks, open, i, j)
  {
    assert stack[..m][..i] == stack[..i] && stack[..m][..i + 1] == stack[..i + 1];
    assert marks[..n][..j] == marks[..j] && marks[..n][..j + 1] == marks[..j + 1];
  }

  lemma SameMomentTop<D>(base: D, log: seq<Effect<D>>, stack: seq<Saved<D>>, marks: seq<Mark>, open: set<nat>)
    requires stack != [] && !Residue(stack[|stack| - 1].name, open) && Match(base, log, stack, marks, open)
    ensures SameMoment(base, log, stack, marks, open, |stack| - 1, |marks| - 1)
  {
    assert stack[..|stack|] == stack && marks[..|marks|] == marks;
  }

  lemma LastMarkFront(marks: seq<Mark>, name: Name)
    requires marks != [] && marks[|marks| - 1].name != name
    ensures LastMark(marks, name) == LastMark(marks[..|marks| - 1], name)
  {
  }

  /** The newest savepoint of a name and the newest mark of that name correspond. */
  lemma {:induction false} MatchAt<D>(base: D, log: seq<Effect<D>>, stack: seq<Saved<D>>, marks: seq<Mark>,
                                      open: set<nat>, name: Name)
    requires Match(base, log, stack, marks, open) && !Residue(name, open)
    ensures var i, j := LastIndex(stack, name), LastMark(marks, name);
            && (i >= 0 <==> j >= 0)
            && (i >= 0 ==> SameMoment(base, log, stack, marks, open, i, j))
    decreases |stack|
  {
    if stack == [] {
    } else if stack[|stack| - 1].name == name {
      SameMomentTop(base, log, stack, marks, open);
    } else {
      var m := |stack| - 1;
      var n := if Residue(stack[m].name, open) then |marks| else |marks| - 1;
      if n == |marks| {
        assert marks[..n] == marks;
      } else {
        LastMarkFront(marks, name);
      }
      MatchAt(base, log, stack[..m], marks[..n], open, name);
      var i, j := LastIndex(stack[..m], name), LastMark(marks[..n], name);
      if i >= 0 {
        SameMomentAbove(base, log, stack, marks, open, i, j, m, n);
      }
    }
  }

  lemma MatchPush<D>(base: D, log: seq<Effect<D>>, stack: seq<Saved<D>>, marks: seq<Mark>, open: set<nat>,
                     top: Saved<D>)
    requires Match(base, log, stack, marks, open)
    ensures Residue(top.name, open) ==> Match(base, log, stack + [top], marks, open)
    ensures !Residue(top.name, open) && top.data == Replay(base, log) ==>
              Match(base, log, stack + [top], marks + [Mark(top.name, |log|)], open)
  {
    assert (stack + [top])[..|stack|] == stack;
    assert (marks + [Mark(top.name, |log|)])[..|marks|] == marks;
    assert log[..|log|] == log;
  }

  // ---------- one step ----------

  /** The app.user_id an ordinary statement sees. */
  function Seen<D>(c: Conn<D>): string {
    EnsureActor(c).conn.pg.setting
  }

  lemma ActorStep<D>(base: D, c: Conn<D>, a: Spec<D>, open: set<nat>)
    requires RefinesWith(base, c, a, open)
    ensures var ready := EnsureActor(c);
            && ready.ok == !ActorBlocked(a)
            && (ready.ok ==> RefinesWith(base, ready.conn, a.(applied := true), open))
            && (!ready.ok ==> ready.conn == c)
  {
  }

  lemma RunStep<D>(base: D, c: Conn<D>, a: Spec<D>, stmt: Statement<D>, open: set<nat>)
    requires RefinesWith(base, c, a, open) && c.applied
    ensures var out, spec := RunWrapped(c, stmt), SpecStep(base, a, Run(stmt), c.pg.setting, c.nextSavepoint);
            RefinesWith(base, out.conn, spec.spec, open) && out.ok == spec.ok
  {
    if !c.pg.aborted {
      var outcome := stmt(c.pg.data, c.pg.setting);
      RunWrappedIs(c, stmt);
      if outcome.Some? {
        LogGrows(base, c, a, Effect(stmt, c.pg.setting), open);
      } else {
        ResidueGrows(base, c, a, open);
      }
    }
  }

  /** What a wrapped statement leaves behind: nothing but its effect, or a savepoint when it fails. */
  lemma RunWrappedIs<D>(c: Conn<D>, stmt: Statement<D>)
    requires !c.pg.aborted
    ensures var outcome, name, c1 := stmt(c.pg.data, c.pg.setting), Sa(c.nextSavepoint), c.(nextSavepoint := c.nextSavepoint + 1);
            RunWrapped(c, stmt) ==
            if outcome.Some? then Outcome(c1.(pg := c.pg.(data := outcome.value)), true)
            else Outcome(c1.(pg := c.pg.(stack := c.pg.stack + [Saved(name, c.pg.data, c.pg.setting)])), false)
  {
    var stack := c.pg.stack + [Saved(Sa(c.nextSavepoint), c.pg.data, c.pg.setting)];
    assert LastIndex(stack, Sa(c.nextSavepoint)) == |c.pg.stack|;
    assert stack[..|c.pg.stack|] == c.pg.stack && stack[..|c.pg.stack| + 1] == stack;
  }

  lemma LogGrows<D>(base: D, c: Conn<D>, a: Spec<D>, e: Effect<D>, open: set<nat>)
    requires RefinesWith(base, c, a, open)
    ensures RefinesWith(base, c.(nextSavepoint := c.nextSavepoint + 1, pg := c.pg.(data := Apply(c.pg.data, e))),
                        a.(log := a.log + [e]), open)
  {
    var log := a.log + [e];
    LogPrefix(a.log, e, a.committed);
    LogPrefix(a.log, e, |a.log|);
    MatchOtherLog(base, a.log, log, c.pg.stack, a.marks, open, |a.log|);
    RisingLoosened(c.pg.stack, c.nextSavepoint, c.nextSavepoint + 1);
    RisingBlocksLoosened(c.blocks, c.nextSavepoint, c.nextSavepoint + 1);
  }

  lemma LogPrefix<D>(log: seq<Effect<D>>, e: Effect<D>, n: nat)
    requires n <= |log|
    ensures (log + [e])[..n] == log[..n] && (log + [e])[..|log + [e]| - 1] == log
  {
  }

  lemma ResidueGrows<D>(base: D, c: Conn<D>, a: Spec<D>, open: set<nat>)
    requires RefinesWith(base, c, a, open)
    ensures var top := Saved(Sa(c.nextSavepoint), c.pg.data, c.pg.setting);
            RefinesWith(base, c.(nextSavepoint := c.nextSavepoint + 1, pg := c.pg.(stack := c.pg.stack + [top])), a, open)
  {
    var top := Saved(Sa(c.nextSavepoint), c.pg.data, c.pg.setting);
    assert Residue(top.name, open);
    MatchPush(base, a.log, c.pg.stack, a.marks, open, top);
    RisingPush(c.pg.stack, c.nextSavepoint, top);
    RisingBlocksLoosened(c.blocks, c.nextSavepoint, c.nextSavepoint + 1);
  }

  lemma PlaceStep<D>(base: D, c: Conn<D>, a: Spec<D>, name: Name, open: set<nat>)
    requires RefinesWith(base, c, a, open) && name.User?
    ensures var out, spec := Using(c, Savepoint(c.pg, name)), Place(a, name);
            RefinesWith(base, out.conn, spec.spec, open) && out.ok == spec.ok
  {
    MatchPush(base, a.log, c.pg.stack, a.marks, open, Saved(name, c.pg.data, c.pg.setting));
  }

  lemma EnterStep<D>(base: D, c: Conn<D>, a: Spec<D>, open: set<nat>)
    requires RefinesWith(base, c, a, open) && Enabled(c, EnterBlock) && !c.pg.aborted
    ensures var out, spec := Step(c, EnterBlock), SpecStep(base, a, EnterBlock, Seen(c), c.nextSavepoint);
            RefinesWith(base, out.conn, spec.spec, open + {c.nextSavepoint}) && out.ok == spec.ok
  {
    EnterMatches(base, c, a, open);
    SettledMark(a, Mark(Sa(c.nextSavepoint), |a.log|));
    RisingPush(c.pg.stack, c.nextSavepoint, Saved(Sa(c.nextSavepoint), c.pg.data, c.pg.setting));
    RisingBlocksPush(c.blocks, c.nextSavepoint);
    EnterIs(base, c, a);
    OpenPush(c.blocks, open, c.nextSavepoint);
  }

  lemma EnterIs<D>(base: D, c: Conn<D>, a: Spec<D>)
    requires Settled(a) && Enabled(c, EnterBlock) && !c.pg.aborted && !a.broken
    ensures Step(c, EnterBlock) == Outcome(
              c.(pg := c.pg.(stack := c.pg.stack + [Saved(Sa(c.nextSavepoint), c.pg.data, c.pg.setting)]),
                 nextSavepoint := c.nextSavepoint + 1, blocks := c.blocks + [Block(c.nextSavepoint, true)]), true)
    ensures SpecStep(base, a, EnterBlock, Seen(c), c.nextSavepoint) == SpecOutcome(
              a.(marks := a.marks + [Mark(Sa(c.nextSavepoint), |a.log|)], blocks := a.blocks + [Block(c.nextSavepoint, true)]), true)
  {
  }

  lemma OpenPush(blocks: seq<Block>, open: set<nat>, next: nat)
    requires (forall i :: 0 <= i < |blocks| && blocks[i].active ==> blocks[i].number in open) && forall n :: n in open ==> n < next
    ensures var more := blocks + [Block(next, true)];
            (forall i :: 0 <= i < |more| && more[i].active ==> more[i].number in open + {next})
            && forall n :: n in open + {next} ==> n < next + 1
  {
  }

  lemma SettledMark<D>(a: Spec<D>, mark: Mark)
    requires Settled(a) && Ordered(a.marks) && mark.len == |a.log|
    ensures Settled(a.(marks := a.marks + [mark])) && Ordered(a.marks + [mark])
  {
  }

  lemma EnterMatches<D>(base: D, c: Conn<D>, a: Spec<D>, open: set<nat>)
    requires RefinesWith(base, c, a, open)
    ensures var name := Sa(c.nextSavepoint);
            Match(base, a.log, c.pg.stack + [Saved(name, c.pg.data, c.pg.setting)], a.marks + [Mark(name, |a.log|)],
                  open + {c.nextSavepoint})
  {
    var open' := open + {c.nextSavepoint};
    forall i | 0 <= i < |c.pg.stack| ensures Residue(c.pg.stack[i].name, open) == Residue(c.pg.stack[i].name, open') {
      if c.pg.stack[i].name.Sa? {
        RisingBelow(c.pg.stack, c.nextSavepoint, i);
      }
    }
    MatchOtherOpen(base, a.log, c.pg.stack, a.marks, open, open');
    MatchPush(base, a.log, c.pg.stack, a.marks, open', Saved(Sa(c.nextSavepoint), c.pg.data, c.pg.setting));
  }

  /** Truncating stack, marks and log at a mark. */
  lemma MatchBack<D>(base: D, log: seq<Effect<D>>, stack: seq<Saved<D>>, marks: seq<Mark>, open: set<nat>, name: Name)
    requires Match(base, log, stack, marks, open) && Ordered(marks) && !Residue(name, open)
    ensures var i, j := LastIndex(stack, name), LastMark(marks, name);
            && (i >= 0 <==> j >= 0)
            && (i >= 0 ==>
                 && marks[j].len <= |log|
                 && stack[i].data == Replay(base, log[..marks[j].len])
                 && Match(base, log[..marks[j].len], stack[..i], marks[..j], open)
                 && Match(base, log[..marks[j].len], stack[..i + 1], marks[..j + 1], open))
  {
    MatchAt(base, log, stack, marks, open, name);
    var i, j := LastIndex(stack, name), LastMark(marks, name);
    if i >= 0 {
      MomentCut(base, log, stack, marks, open, i, j);
    }
  }

  lemma MomentCut<D>(base: D, log: seq<Effect<D>>, stack: seq<Saved<D>>, marks: seq<Mark>, open: set<nat>, i: nat, j: nat)
    requires SameMoment(base, log, stack, marks, open, i, j) && Ordered(marks)
    ensures Match(base, log[..marks[j].len], stack[..i], marks[..j], open)
    ensures Match(base, log[..marks[j].len], stack[..i + 1], marks[..j + 1], open)
  {
    MatchCut(base, log, stack[..i + 1], marks[..j + 1], open, marks[j].len);
    MatchCut(base, log, stack[..i], marks[..j], open, marks[j].len);
  }

  lemma MatchCut<D>(base: D, log: seq<Effect<D>>, stack: seq<Saved<D>>, marks: seq<Mark>, open: set<nat>, len: nat)
    requires Match(base, log, stack, marks, open) && len <= |log|
    requires forall i :: 0 <= i < |marks| ==> marks[i].len <= len
    ensures Match(base, log[..len], stack, marks, open)
  {
    assert log[..len][..len] == log[..len];
    MatchOtherLog(base, log, log[..len], stack, marks, open, len);
  }

  lemma BackStep<D>(base: D, c: Conn<D>, a: Spec<D>, name: Name, open: set<nat>)
    requires RefinesWith(base, c, a, open) && !Residue(name, open)
    ensures var out, spec := Using(c, RollbackTo(c.pg, name)), BackTo(a, name);
            RefinesWith(base, out.conn, spec.spec, open) && out.ok == spec.ok
  {
    BackFound(base, c, a, name, open);
    if LastMark(a.marks, name) >= 0 {
      var i, j := LastIndex(c.pg.stack, name), LastMark(a.marks, name);
      BackAt(base, c, a, i, j, open);
      BackIs(c, a, name, i, j);
    } else {
      Breaks(base, c, a, open);
      BackFails(c, a, name);
    }
  }

  /** The savepoint and the mark that a rollback goes back to. */
  lemma BackFound<D>(base: D, c: Conn<D>, a: Spec<D>, name: Name, open: set<nat>)
    requires RefinesWith(base, c, a, open) && !Residue(name, open)
    ensures var i, j := LastIndex(c.pg.stack, name), LastMark(a.marks, name);
            && (i >= 0 <==> j >= 0)
            && (i >= 0 ==>
                 && a.marks[j].len <= |a.log|
                 && c.pg.stack[i].data == Replay(base, a.log[..a.marks[j].len])
                 && Match(base, a.log[..a.marks[j].len], c.pg.stack[..i + 1], a.marks[..j + 1], open))
  {
    MatchBack(base, a.log, c.pg.stack, a.marks, open, name);
  }

  lemma BackIs<D>(c: Conn<D>, a: Spec<D>, name: Name, i: nat, j: nat)
    requires Settled(a) && i == LastIndex(c.pg.stack, name) && j == LastMark(a.marks, name)
    ensures Using(c, RollbackTo(c.pg, name))
            == Outcome(c.(pg := c.pg.(data := c.pg.stack[i].data, setting := c.pg.stack[i].setting,
                                      stack := c.pg.stack[..i + 1], aborted := false)), true)
    ensures BackTo(a, name) == SpecOutcome(a.(log := a.log[..a.marks[j].len], marks := a.marks[..j + 1], broken := false), true)
  {
  }

  lemma BackFails<D>(c: Conn<D>, a: Spec<D>, name: Name)
    requires Settled(a) && LastIndex(c.pg.stack, name) < 0 && LastMark(a.marks, name) < 0
    ensures Using(c, RollbackTo(c.pg, name)) == Outcome(c.(pg := c.pg.(aborted := true)), false)
    ensures BackTo(a, name) == SpecOutcome(a.(broken := true), false)
  {
  }

  lemma Breaks<D>(base: D, c: Conn<D>, a: Spec<D>, open: set<nat>)
    requires RefinesWith(base, c, a, open)
    ensures RefinesWith(base, c.(pg := c.pg.(aborted := true)), a.(broken := true), open)
  {
  }

  lemma BackAt<D>(base: D, c: Conn<D>, a: Spec<D>, i: nat, j: nat, open: set<nat>)
    requires RefinesWith(base, c, a, open) && i < |c.pg.stack| && j < |a.marks|
    requires c.pg.stack[i].data == Replay(base, a.log[..a.marks[j].len])
    requires Match(base, a.log[..a.marks[j].len], c.pg.stack[..i + 1], a.marks[..j + 1], open)
    ensures var top := c.pg.stack[i];
            RefinesWith(base, c.(pg := c.pg.(data := top.data, setting := top.setting, stack := c.pg.stack[..i + 1], aborted := false)),
                        a.(log := a.log[..a.marks[j].len], marks := a.marks[..j + 1], broken := false), open)
  {
    var top := c.pg.stack[i];
    SettledBack(a, j);
    RisingPrefix(c.pg.stack, c.nextSavepoint, i + 1);
    Recombined(base, c, a, c.(pg := c.pg.(data := top.data, setting := top.setting, stack := c.pg.stack[..i + 1], aborted := false)),
               a.(log := a.log[..a.marks[j].len], marks := a.marks[..j + 1], broken := false), open);
  }

  /** The parts of the relation that do not look at the stack, the marks or the log stay when those change. */
  lemma Recombined<D>(base: D, c: Conn<D>, a: Spec<D>, c': Conn<D>, a': Spec<D>, open: set<nat>)
    requires RefinesWith(base, c, a, open)
    requires c'.blocks == c.blocks && c'.nextSavepoint == c.nextSavepoint && c'.applied == c.applied
    requires c'.pg.committed == c.pg.committed && c'.pg.aborted == a'.broken
    requires a'.blocks == a.blocks && a'.applied == a.applied && a'.committed == a.committed
    requires Settled(a') && Ordered(a'.marks) && a'.log[..a'.committed] == a.log[..a.committed]
    requires Rising(c'.pg.stack, c'.nextSavepoint) && c'.pg.data == Replay(base, a'.log)
    requires Match(base, a'.log, c'.pg.stack, a'.marks, open)
    ensures RefinesWith(base, c', a', open)
  {
  }

  lemma SettledBack<D>(a: Spec<D>, j: nat)
    requires Settled(a) && Ordered(a.marks) && j < |a.marks|
    ensures var back := a.(log := a.log[..a.marks[j].len], marks := a.marks[..j + 1], broken := false);
            Settled(back) && Ordered(back.marks) && back.log[..a.committed] == a.log[..a.committed]
  {
  }

  lemma ForgetStep<D>(base: D, c: Conn<D>, a: Spec<D>, name: Name, open: set<nat>)
    requires RefinesWith(base, c, a, open) && !Residue(name, open)
    ensures var out, spec := Using(c, Release(c.pg, name)), Forget(a, name);
            RefinesWith(base, out.conn, spec.spec, open) && out.ok == spec.ok
  {
    MatchAt(base, a.log, c.pg.stack, a.marks, open, name);
    if LastMark(a.marks, name) >= 0 {
      RisingPrefix(c.pg.stack, c.nextSavepoint, LastIndex(c.pg.stack, name));
    }
  }

  lemma PoppedBlock<D>(base: D, c: Conn<D>, a: Spec<D>, open: set<nat>)
    requires RefinesWith(base, c, a, open) && c.blocks != []
    ensures RefinesWith(base, c.(blocks := c.blocks[..|c.blocks| - 1]), a.(blocks := a.blocks[..|a.blocks| - 1]), open)
    ensures forall i :: 0 <= i < |c.blocks| - 1 ==> c.blocks[i].number != c.blocks[|c.blocks| - 1].number
  {
    var front, top := c.blocks[..|c.blocks| - 1], c.blocks[|c.blocks| - 1];
    forall i | 0 <= i < |front| ensures front[i].number < top.number {
      RisingBlocksBelow(front, top.number, i);
    }
    RisingBlocksLoosened(front, top.number, c.nextSavepoint);
  }

  /** Once its number is closed, the savepoint on top is residue and its mark goes. */
  lemma CloseTop<D>(base: D, log: seq<Effect<D>>, stack: seq<Saved<D>>, marks: seq<Mark>, next: nat, open: set<nat>)
    requires Rising(stack, next) && stack != [] && marks != [] && stack[|stack| - 1].name.Sa?
    requires Match(base, log, stack[..|stack| - 1], marks[..|marks| - 1], open)
    ensures Match(base, log, stack, marks[..|marks| - 1], open - {stack[|stack| - 1].name.number})
  {
    var below := stack[..|stack| - 1];
    var number := stack[|stack| - 1].name.number;
    forall i | 0 <= i < |below| ensures Residue(below[i].name, open) == Residue(below[i].name, open - {number}) {
      if below[i].name.Sa? {
        RisingBelow(below, number, i);
      }
    }
    MatchOtherOpen(base, log, below, marks[..|marks| - 1], open, open - {number});
  }

  /** A block that fails leaves its savepoint behind as residue. */
  lemma LeaveFailedStep<D>(base: D, c: Conn<D>, a: Spec<D>, open: set<nat>)
    requires RefinesWith(base, c, a, open) && Enabled(c, LeaveBlock(true)) && c.blocks[|c.blocks| - 1].active
    ensures var out, spec := Step(c, LeaveBlock(true)), SpecStep(base, a, LeaveBlock(true), Seen(c), c.nextSavepoint);
            Refines(base, out.conn, spec.spec) && out.ok == spec.ok
  {
    var number := c.blocks[|c.blocks| - 1].number;
    PoppedBlock(base, c, a, open);
    FailedBack(base, c.(blocks := c.blocks[..|c.blocks| - 1]), a.(blocks := a.blocks[..|a.blocks| - 1]), number, open);
    SpecLeaves(base, a, Seen(c), c.nextSavepoint);
    WrapperLeaves(c);
  }

  lemma WrapperLeaves<D>(c: Conn<D>)
    requires Enabled(c, LeaveBlock(true)) && c.blocks[|c.blocks| - 1].active
    ensures var c1 := c.(blocks := c.blocks[..|c.blocks| - 1]);
            Step(c, LeaveBlock(true)) == Using(c1, RollbackTo(c1.pg, Sa(c.blocks[|c.blocks| - 1].number)))
  {
  }

  lemma FailedBack<D>(base: D, c: Conn<D>, a: Spec<D>, number: nat, open: set<nat>)
    requires RefinesWith(base, c, a, open) && number in open
    requires forall i :: 0 <= i < |c.blocks| ==> c.blocks[i].number != number
    ensures var out, back := Using(c, RollbackTo(c.pg, Sa(number))), BackTo(a, Sa(number));
            && out.ok == back.ok
            && Refines(base, out.conn,
                       if back.ok then back.spec.(marks := back.spec.marks[..|back.spec.marks| - 1]) else back.spec)
  {
    var out, back := Using(c, RollbackTo(c.pg, Sa(number))), BackTo(a, Sa(number));
    BackStep(base, c, a, Sa(number), open);
    if out.ok {
      BackMatchBelow(base, c, a, Sa(number), open);
      CloseBlock(base, out.conn, back.spec, number, open);
    } else {
      assert RefinesWith(base, out.conn, back.spec, open);
    }
  }

  lemma CloseBlock<D>(base: D, c: Conn<D>, a: Spec<D>, number: nat, open: set<nat>)
    requires RefinesWith(base, c, a, open) && c.pg.stack != [] && a.marks != []
    requires c.pg.stack[|c.pg.stack| - 1].name == Sa(number)
    requires forall i :: 0 <= i < |c.blocks| ==> c.blocks[i].number != number
    requires Match(base, a.log, c.pg.stack[..|c.pg.stack| - 1], a.marks[..|a.marks| - 1], open)
    ensures Refines(base, c, a.(marks := a.marks[..|a.marks| - 1]))
  {
    CloseTop(base, a.log, c.pg.stack, a.marks, c.nextSavepoint, open);
    RefinesWithout(base, c, a, open, number);
  }

  lemma SpecLeaves<D>(base: D, a: Spec<D>, seen: string, next: nat)
    requires Settled(a) && a.blocks != [] && a.blocks[|a.blocks| - 1].active
    ensures var back := BackTo(a.(blocks := a.blocks[..|a.blocks| - 1]), Sa(a.blocks[|a.blocks| - 1].number));
            SpecStep(base, a, LeaveBlock(true), seen, next)
            == SpecOutcome(if back.ok then back.spec.(marks := back.spec.marks[..|back.spec.marks| - 1]) else back.spec, back.ok)
  {
  }

  lemma BackMatchBelow<D>(base: D, c: Conn<D>, a: Spec<D>, name: Name, open: set<nat>)
    requires RefinesWith(base, c, a, open) && !Residue(name, open) && RollbackTo(c.pg, name).ok
    ensures var stack, spec := RollbackTo(c.pg, name).session.stack, BackTo(a, name).spec;
            && stack != [] && spec.marks != [] && stack[|stack| - 1].name == name
            && Match(base, spec.log, stack[..|stack| - 1], spec.marks[..|spec.marks| - 1], open)
  {
    MatchBack(base, a.log, c.pg.stack, a.marks, open, name);
    var i, j := LastIndex(c.pg.stack, name), LastMark(a.marks, name);
    Shortened(c.pg.stack, i);
    Shortened(a.marks, j);
  }

  lemma Shortened<T>(s: seq<T>, i: nat)
    requires i < |s|
    ensures var cut := s[..i + 1]; cut[..|cut| - 1] == s[..i] && cut[|cut| - 1] == s[i]
  {
  }

  lemma RefinesWithout<D>(base: D, c: Conn<D>, a: Spec<D>, open: set<nat>, number: nat)
    requires RefinesWith(base, c, a, open) && a.marks != []
    requires forall i :: 0 <= i < |c.blocks| ==> c.blocks[i].number != number
    requires Match(base, a.log, c.pg.stack, a.marks[..|a.marks| - 1], open - {number})
    ensures Refines(base, c, a.(marks := a.marks[..|a.marks| - 1]))
  {
    assert RefinesWith(base, c, a.(marks := a.marks[..|a.marks| - 1]), open - {number});
  }

  lemma DropStep<D>(base: D, c: Conn<D>, a: Spec<D>, open: set<nat>)
    requires RefinesWith(base, c, a, open)
    ensures forall applied, closed ::
              RefinesWith(base, c.(pg := Rollback(c.pg), applied := applied, blocks := Cancelled(c.blocks), closed := closed),
                          DropPending(a).(applied := applied), open)
  {
    assert a.log[..a.committed][..a.committed] == a.log[..a.committed];
    RisingBlocksCancelled(c.blocks, c.nextSavepoint);
  }

  lemma ExecuteStep<D>(base: D, c: Conn<D>, a: Spec<D>, op: Op<D>, open: set<nat>)
    requires RefinesWith(base, c, a, open) && Enabled(c, op)
    requires op.Run? || op.Save? || op.RollTo? || op.ReleaseTo?
    ensures var out, spec := Step(c, op), SpecStep(base, a, op, Seen(c), c.nextSavepoint);
            RefinesWith(base, out.conn, spec.spec, open) && out.ok == spec.ok
  {
    ActorStep(base, c, a, open);
    if !ActorBlocked(a) {
      var ready, a' := EnsureActor(c).conn, a.(applied := true);
      match op
      case Run(stmt) => RunStep(base, ready, a', stmt, open);
      case Save(name) => PlaceStep(base, ready, a', User(name), open);
      case RollTo(name) => BackStep(base, ready, a', User(name), open);
      case ReleaseTo(name) => ForgetStep(base, ready, a', User(name), open);
    }
  }

  lemma EndStep<D>(base: D, c: Conn<D>, a: Spec<D>, op: Op<D>, open: set<nat>)
    requires RefinesWith(base, c, a, open) && Enabled(c, op)
    requires op.SetActor? || op.CommitAll? || op.RollbackAll? || op.Close?
    ensures var out, spec := Step(c, op), SpecStep(base, a, op, Seen(c), c.nextSavepoint);
            RefinesWith(base, out.conn, spec.spec, open) && out.ok == spec.ok
  {
    DropStep(base, c, a, open);
    RisingBlocksCancelled(c.blocks, c.nextSavepoint);
    assert a.log[..|a.log|] == a.log;
  }

  lemma LeaveStep<D>(base: D, c: Conn<D>, a: Spec<D>, op: Op<D>, open: set<nat>)
    requires RefinesWith(base, c, a, open) && Enabled(c, op) && op.LeaveBlock?
    ensures var out, spec := Step(c, op), SpecStep(base, a, op, Seen(c), c.nextSavepoint);
            Refines(base, out.conn, spec.spec) && out.ok == spec.ok
  {
    var top := c.blocks[|c.blocks| - 1];
    if top.active && op.failed {
      LeaveFailedStep(base, c, a, open);
    } else {
      PoppedBlock(base, c, a, open);
      var c1, a1 := c.(blocks := c.blocks[..|c.blocks| - 1]), a.(blocks := a.blocks[..|a.blocks| - 1]);
      if top.active {
        ForgetStep(base, c1, a1, Sa(top.number), open);
      }
      var out, spec := Step(c, op), SpecStep(base, a, op, Seen(c), c.nextSavepoint);
      assert RefinesWith(base, out.conn, spec.spec, open);
    }
  }

  /** Each operation of the wrapper is matched by one step of the specification, and raises exactly when it does. */
  lemma RefinementStep<D>(base: D, c: Conn<D>, a: Spec<D>, op: Op<D>)
    requires Refines(base, c, a) && Enabled(c, op)
    ensures var out, spec := Step(c, op), SpecStep(base, a, op, Seen(c), c.nextSavepoint);
            Refines(base, out.conn, spec.spec) && out.ok == spec.ok
  {
    var open :| RefinesWith(base, c, a, open);
    if op.LeaveBlock? {
      LeaveStep(base, c, a, op, open);
    } else if op.EnterBlock? {
      if !c.pg.aborted {
        EnterStep(base, c, a, open);
      }
    } else if op.Run? || op.Save? || op.RollTo? || op.ReleaseTo? {
      ExecuteStep(base, c, a, op, open);
    } else {
      EndStep(base, c, a, op, open);
    }
  }

  // ---------- whole runs ----------

  /** A session between transactions: nothing pending, no savepoint, no error; any setting. */
  ghost predicate Idle<D>(pg: Session<D>, base: D) {
    pg.committed == base && pg.data == base && pg.stack == [] && !pg.aborted && pg.setting == pg.committedSetting
  }

  lemma OpenedRefines<D>(base: D, pg: Session<D>)
    requires Idle(pg, base)
    ensures Refines(base, Opened(pg), Spec([], 0, [], [], false, false))
  {
    assert RefinesWith(base, Opened(pg), Spec([], 0, [], [], false, false), {});
  }

  /** The specification's run alongside the wrapper's, from any related pair of states. */
  ghost function Follow<D>(base: D, c: Conn<D>, a: Spec<D>, run: seq<Op<D>>): (a': Spec<D>)
    requires Refines(base, c, a) && Possible(c, run)
    ensures Refines(base, After(c, run), a')
    decreases |run|
  {
    if run == [] then a
    else
      var init, op := run[..|run| - 1], run[|run| - 1];
      var before, conn := Follow(base, c, a, init), After(c, init);
      RefinementStep(base, conn, before, op);
      SpecStep(base, before, op, Seen(conn), conn.nextSavepoint).spec
  }
}
