/** What callers of the connection wrapper may rely on, over every run. */
module DbTheorems {
  import opened Wrappers
  import opened DbSession
  import opened DbConnection
  import opened DbRefinement

  // ---------- commits, failures ----------

  lemma CommitPublishesLog<D>(base: D, c: Conn<D>, a: Spec<D>)
    requires Refines(base, c, a) && !c.closed
    ensures c.pg.data == Replay(base, a.log)
    ensures Step(c, CommitAll).conn.pg.committed == (if a.broken then c.pg.committed else Replay(base, a.log))
    ensures Step(c, RollbackAll).conn.pg.data == c.pg.committed == Replay(base, a.log[..a.committed])
    ensures Step(c, Close).conn.pg.committed == c.pg.committed
  {
  }

  ghost function SpecAfter<D>(base: D, pg: Session<D>, run: seq<Op<D>>): (a: Spec<D>)
    requires Idle(pg, base) && Possible(Opened(pg), run)
    ensures Refines(base, After(Opened(pg), run), a)
  {
    OpenedRefines(base, pg);
    Follow(base, Opened(pg), Spec([], 0, [], [], false, false), run)
  }

  /**
   * Over every run, the working data is the replay of the surviving statements and the committed data that
   * of the published ones; a commit publishes exactly the survivors, and in a broken transaction nothing.
   */
  lemma CommitPublishesSurvivors<D>(base: D, pg: Session<D>, run: seq<Op<D>>)
    requires Idle(pg, base) && Possible(Opened(pg), run) && !After(Opened(pg), run).closed
    ensures var c, a := After(Opened(pg), run), SpecAfter(base, pg, run);
            && c.pg.data == Replay(base, a.log) && c.pg.committed == Replay(base, a.log[..a.committed])
            && Step(c, CommitAll).conn.pg.committed == (if a.broken then c.pg.committed else Replay(base, a.log))
            && Step(c, RollbackAll).conn.pg.data == Replay(base, a.log[..a.committed])
  {
    CommitPublishesLog(base, After(Opened(pg), run), SpecAfter(base, pg, run));
  }

  /** An ordinary statement that raises leaves the wrapper related to the very same specification state. */
  lemma FailedStatementChangesNothing<D>(base: D, c: Conn<D>, a: Spec<D>, stmt: Statement<D>)
    requires Refines(base, c, a) && Enabled(c, Run(stmt)) && !Step(c, Run(stmt)).ok
    ensures var out := Step(c, Run(stmt)).conn;
            && Refines(base, out, a.(applied := a.applied || !a.broken))
            && out.pg.data == c.pg.data && out.pg.committed == c.pg.committed && out.pg.aborted == c.pg.aborted
    ensures a.broken || stmt(Replay(base, a.log), Seen(c)).None?
  {
    RefinementStep(base, c, a, Run(stmt));
  }

  // ---------- bookmarks survive what runs above them ----------

  /** The mark at position i is there at every point of the run. */
  ghost predicate Standing<D>(base: D, c: Conn<D>, a: Spec<D>, run: seq<Op<D>>, i: nat)
    requires Refines(base, c, a) && Possible(c, run)
    decreases |run|
  {
    && |Follow(base, c, a, run).marks| > i
    && (run != [] ==> Standing(base, c, a, run[..|run| - 1], i))
  }

  /** Marks up to i, and the log up to mark i, are the same. */
  ghost predicate SameUpTo<D>(a: Spec<D>, a': Spec<D>, i: nat) {
    && i < |a.marks| && i < |a'.marks|
    && a'.marks[..i + 1] == a.marks[..i + 1]
    && a.marks[i].len <= |a.log| && a.marks[i].len <= |a'.log|
    && a'.log[..a.marks[i].len] == a.log[..a.marks[i].len]
    && a'.committed == a.committed
  }

  lemma BackKeeps<D>(a: Spec<D>, name: Name, i: nat)
    requires Settled(a) && Ordered(a.marks) && i < |a.marks| && i < |BackTo(a, name).spec.marks|
    ensures SameUpTo(a, BackTo(a, name).spec, i)
  {
    var j := LastMark(a.marks, name);
    if j >= 0 {
      assert a.log[..a.marks[j].len][..a.marks[i].len] == a.log[..a.marks[i].len];
    }
  }

  lemma ForgetKeeps<D>(a: Spec<D>, name: Name, i: nat)
    requires Settled(a) && i < |a.marks| && i < |Forget(a, name).spec.marks|
    ensures SameUpTo(a, Forget(a, name).spec, i)
  {
  }

  lemma LeaveKeeps<D>(base: D, a: Spec<D>, op: Op<D>, seen: string, number: nat, i: nat)
    requires Settled(a) && Ordered(a.marks) && op.LeaveBlock? && a.blocks != []
    requires i < |a.marks| && i < |SpecStep(base, a, op, seen, number).spec.marks|
    ensures SameUpTo(a, SpecStep(base, a, op, seen, number).spec, i)
  {
    var a1, top := a.(blocks := a.blocks[..|a.blocks| - 1]), a.blocks[|a.blocks| - 1];
    if top.active && op.failed {
      BackKeeps(a1, Sa(top.number), i);
    } else if top.active {
      ForgetKeeps(a1, Sa(top.number), i);
    }
  }

  lemma StandingStep<D>(base: D, a: Spec<D>, op: Op<D>, seen: string, number: nat, i: nat)
    requires Settled(a) && Ordered(a.marks) && (op.LeaveBlock? ==> a.blocks != [])
    requires i < |a.marks| && i < |SpecStep(base, a, op, seen, number).spec.marks|
    ensures SameUpTo(a, SpecStep(base, a, op, seen, number).spec, i)
  {
    if op.LeaveBlock? {
      LeaveKeeps(base, a, op, seen, number, i);
    } else if op.RollTo? && !ActorBlocked(a) {
      BackKeeps(a.(applied := true), User(op.name), i);
    } else if op.ReleaseTo? && !ActorBlocked(a) {
      ForgetKeeps(a.(applied := true), User(op.name), i);
    } else if op.Run? {
      assert (a.log + [Effect(op.stmt, seen)])[..a.marks[i].len] == a.log[..a.marks[i].len];
    }
  }

  /** What lay below a standing mark is untouched. */
  lemma {:induction false} StandingKeeps<D>(base: D, c: Conn<D>, a: Spec<D>, run: seq<Op<D>>, i: nat)
    requires Refines(base, c, a) && Possible(c, run) && i < |a.marks| && Standing(base, c, a, run, i)
    ensures SameUpTo(a, Follow(base, c, a, run), i)
    decreases |run|
  {
    if run != [] {
      var init := run[..|run| - 1];
      StandingKeeps(base, c, a, init, i);
      var before, conn := Follow(base, c, a, init), After(c, init);
      StandingStep(base, before, run[|run| - 1], Seen(conn), conn.nextSavepoint, i);
      assert before.marks[i] == before.marks[..i + 1][i];
      assert a.marks[i] == a.marks[..i + 1][i];
    }
  }

  /** The entry of a bookmark: c1 and a1 are c and a with one mark more, at position |a.marks|. */
  ghost predicate Bookmarked<D>(base: D, c: Conn<D>, a: Spec<D>, c1: Conn<D>, a1: Spec<D>, name: Name) {
    && Refines(base, c, a) && Refines(base, c1, a1)
    && a1.log == a.log && a1.committed == a.committed
    && a1.marks == a.marks + [Mark(name, |a.log|)]
  }

  /** Going back to a standing mark brings back the data of the moment it was set. */
  lemma RestoresMark<D>(base: D, c: Conn<D>, a: Spec<D>, c1: Conn<D>, a1: Spec<D>, c2: Conn<D>, a2: Spec<D>,
                        op: Op<D>, name: Name)
    requires Bookmarked(base, c, a, c1, a1, name) && Refines(base, c2, a2) && Enabled(c2, op)
    requires SameUpTo(a1, a2, |a.marks|) && LastMark(a2.marks, name) == |a.marks|
    requires || (op.RollTo? && name == User(op.name) && !ActorBlocked(a2))
             || (op == LeaveBlock(true) && a2.blocks != [] && a2.blocks[|a2.blocks| - 1].active
                 && name == Sa(a2.blocks[|a2.blocks| - 1].number))
    ensures var out := Step(c2, op);
            && out.ok && !out.conn.pg.aborted
            && out.conn.pg.data == c.pg.data && out.conn.pg.committed == c.pg.committed
  {
    RefinementStep(base, c2, a2, op);
    SpecRestores(base, a, a1, a2, op, name, Seen(c2), c2.nextSavepoint);
  }

  lemma SpecRestores<D>(base: D, a: Spec<D>, a1: Spec<D>, a2: Spec<D>, op: Op<D>, name: Name, seen: string, number: nat)
    requires Settled(a2) && a1.log == a.log && a1.committed == a.committed && a1.marks == a.marks + [Mark(name, |a.log|)]
    requires SameUpTo(a1, a2, |a.marks|) && LastMark(a2.marks, name) == |a.marks|
    requires || (op.RollTo? && name == User(op.name) && !ActorBlocked(a2))
             || (op == LeaveBlock(true) && a2.blocks != [] && a2.blocks[|a2.blocks| - 1].active
                 && name == Sa(a2.blocks[|a2.blocks| - 1].number))
    ensures var spec := SpecStep(base, a2, op, seen, number);
            spec.ok && spec.spec.log == a.log && spec.spec.committed == a.committed && !spec.spec.broken
  {
    assert a2.marks[|a.marks|] == a2.marks[..|a.marks| + 1][|a.marks|] == Mark(name, |a.log|);
  }

  // ---------- names and numbers of marks ----------

  /** A mark's SQLAlchemy number is below every bound on the stack's, and such numbers increase. */
  lemma {:induction false} MarkNumbers<D>(base: D, log: seq<Effect<D>>, stack: seq<Saved<D>>, marks: seq<Mark>,
                                          open: set<nat>, next: nat)
    requires Match(base, log, stack, marks, open)
    requires Rising(stack, next)
    ensures forall i :: 0 <= i < |marks| && marks[i].name.Sa? ==> marks[i].name.number < next
    ensures forall i, j :: 0 <= i < j < |marks| && marks[i].name.Sa? && marks[j].name.Sa? ==>
              marks[i].name.number < marks[j].name.number
    decreases |stack|
  {
    if stack != [] {
      var below, top := stack[..|stack| - 1], stack[|stack| - 1];
      if Residue(top.name, open) {
        MarkNumbers(base, log, below, marks, open, top.name.number);
      } else {
        MarkNumbers(base, log, below, marks[..|marks| - 1], open, if top.name.Sa? then top.name.number else next);
        assert forall i :: 0 <= i < |marks| - 1 ==> marks[i] == marks[..|marks| - 1][i];
      }
    }
  }

  lemma OneMarkPerBlock<D>(base: D, c: Conn<D>, a: Spec<D>, i: nat)
    requires Refines(base, c, a) && i < |a.marks| && a.marks[i].name.Sa?
    ensures LastMark(a.marks, a.marks[i].name) == i
  {
    var open :| RefinesWith(base, c, a, open);
    MarkNumbers(base, a.log, c.pg.stack, a.marks, open, c.nextSavepoint);
    LastMarkAtLeast(a.marks, i);
  }

  lemma {:induction false} LastMarkAtLeast(marks: seq<Mark>, i: nat)
    requires i < |marks|
    ensures LastMark(marks, marks[i].name) >= i
  {
    if marks[|marks| - 1].name != marks[i].name {
      LastMarkAtLeast(marks[..|marks| - 1], i);
    }
  }

  // ---------- bodies that leave a savepoint standing ----------

  function TakenNames<D>(stack: seq<Saved<D>>): set<string> {
    set i | 0 <= i < |stack| && stack[i].name.User? :: stack[i].name.text
  }

  /**
   * What may happen above a savepoint: anything but the end of the transaction, a return to or release of a name
   * that an older savepoint bears, and, above a hand-written savepoint, another of the same name.
   */
  predicate Inner<D>(op: Op<D>, taken: set<string>, own: Option<string>) {
    match op
    case Save(name) => own != Some(name)
    case RollTo(name) => name !in taken || own == Some(name)
    case ReleaseTo(name) => name !in taken
    case CommitAll => false
    case RollbackAll => false
    case Close => false
    case _ => true
  }

  /** A body from c on: inner operations, with properly nested blocks. */
  predicate Body<D>(c: Conn<D>, run: seq<Op<D>>, own: Option<string>)
    requires Possible(c, run)
    decreases |run|
  {
    run == [] ||
    var front, op := run[..|run| - 1], run[|run| - 1];
    && Body(c, front, own) && Inner(op, TakenNames(c.pg.stack), own)
    && (op.LeaveBlock? ==> |After(c, front).blocks| > |c.blocks|)
  }

  /** The marks up to i bear taken names or numbers below low. */
  ghost predicate Guarded(marks: seq<Mark>, i: nat, taken: set<string>, own: Option<string>, low: nat) {
    && i < |marks|
    && (forall k :: 0 <= k <= i ==> if marks[k].name.User? then marks[k].name.text in taken else marks[k].name.number < low)
    && (own.Some? ==> marks[i].name == User(own.value))
  }

  /** Nothing above mark i bears the name. */
  ghost predicate NoneAbove(marks: seq<Mark>, i: nat, own: Option<string>) {
    own.Some? ==> forall k :: i < k < |marks| ==> marks[k].name != User(own.value)
  }

  /** Only blocks opened in the body lie above those there were. */
  ghost predicate BlocksAbove<D>(c1: Conn<D>, c: Conn<D>) {
    && !c.closed && c.nextSavepoint >= c1.nextSavepoint
    && |c.blocks| >= |c1.blocks| && c.blocks[..|c1.blocks|] == c1.blocks
    && (forall k :: |c1.blocks| <= k < |c.blocks| ==> c.blocks[k].number >= c1.nextSavepoint)
  }

  lemma BlocksStay<D>(c1: Conn<D>, c: Conn<D>, op: Op<D>, taken: set<string>, own: Option<string>)
    requires BlocksAbove(c1, c) && Enabled(c, op) && Inner(op, taken, own)
    requires op.LeaveBlock? ==> |c.blocks| > |c1.blocks|
    ensures BlocksAbove(c1, Step(c, op).conn)
  {
    if op.EnterBlock? {
      if Step(c, op).conn != c {
        EnteredBlocksStay(c1, c, Step(c, op).conn);
      }
    } else if op.LeaveBlock? {
      LeftBlocksStay(c1, c, Step(c, op).conn);
    } else {
      OtherBlocksStay(c, op, taken, own);
    }
  }

  lemma OtherBlocksStay<D>(c: Conn<D>, op: Op<D>, taken: set<string>, own: Option<string>)
    requires Enabled(c, op) && Inner(op, taken, own) && !op.EnterBlock? && !op.LeaveBlock?
    ensures var t := Step(c, op).conn; t.blocks == c.blocks && !t.closed && t.nextSavepoint >= c.nextSavepoint
  {
  }

  lemma EnteredBlocksStay<D>(c1: Conn<D>, c: Conn<D>, t: Conn<D>)
    requires BlocksAbove(c1, c) && t.blocks == c.blocks + [Block(c.nextSavepoint, true)]
    requires !t.closed && t.nextSavepoint == c.nextSavepoint + 1
    ensures BlocksAbove(c1, t)
  {
  }

  lemma LeftBlocksStay<D>(c1: Conn<D>, c: Conn<D>, t: Conn<D>)
    requires BlocksAbove(c1, c) && |c.blocks| > |c1.blocks| && t.blocks == c.blocks[..|c.blocks| - 1]
    requires !t.closed && t.nextSavepoint == c.nextSavepoint
    ensures BlocksAbove(c1, t)
  {
  }

  lemma BackStays<D>(a: Spec<D>, name: Name, i: nat)
    requires Settled(a) && i < |a.marks|
    requires LastMark(a.marks, name) >= i || LastMark(a.marks, name) < 0
    ensures var b := BackTo(a, name).spec.marks; i < |b| <= |a.marks| && b == a.marks[..|b|]
  {
  }

  lemma ForgetStays<D>(a: Spec<D>, name: Name, i: nat)
    requires i < |a.marks| && (LastMark(a.marks, name) > i || LastMark(a.marks, name) < 0)
    ensures var b := Forget(a, name).spec.marks; i < |b| <= |a.marks| && b == a.marks[..|b|]
  {
  }

  lemma NotAtOrBelow(marks: seq<Mark>, i: nat, taken: set<string>, own: Option<string>, low: nat, name: Name)
    requires Guarded(marks, i, taken, own, low)
    requires if name.User? then name.text !in taken else name.number >= low
    ensures LastMark(marks, name) > i || LastMark(marks, name) < 0
  {
  }

  /** An inner operation keeps the mark: it adds a mark of another name, or cuts back above mark i. */
  lemma MarkStays<D>(base: D, a: Spec<D>, op: Op<D>, seen: string, number: nat, i: nat, taken: set<string>,
                     own: Option<string>, low: nat)
    requires Settled(a) && Guarded(a.marks, i, taken, own, low) && Inner(op, taken, own)
    requires op.LeaveBlock? ==> a.blocks != [] && a.blocks[|a.blocks| - 1].number >= low
    ensures var b := SpecStep(base, a, op, seen, number).spec.marks;
            || (i < |b| <= |a.marks| && b == a.marks[..|b|])
            || (|b| == |a.marks| + 1 && b[..|a.marks|] == a.marks && (own.Some? ==> b[|a.marks|].name != User(own.value)))
  {
    match op
    case RollTo(name) =>
      if name !in taken {
        NotAtOrBelow(a.marks, i, taken, own, low, User(name));
      } else {
        LastMarkAtLeast(a.marks, i);
      }
      BackStays(a.(applied := true), User(name), i);
      Whole(a.marks);
    case ReleaseTo(name) =>
      NotAtOrBelow(a.marks, i, taken, own, low, User(name));
      ForgetStays(a.(applied := true), User(name), i);
      Whole(a.marks);
    case LeaveBlock(failed) =>
      LeaveStays(base, a, failed, seen, number, i, taken, own, low);
    case _ => Whole(a.marks);
  }

  lemma Whole<T>(s: seq<T>)
    ensures s[..|s|] == s
  {
  }

  lemma LeaveStays<D>(base: D, a: Spec<D>, failed: bool, seen: string, number: nat, i: nat, taken: set<string>,
                      own: Option<string>, low: nat)
    requires Settled(a) && Guarded(a.marks, i, taken, own, low)
    requires a.blocks != [] && a.blocks[|a.blocks| - 1].number >= low
    ensures var b := SpecStep(base, a, LeaveBlock(failed), seen, number).spec.marks;
            i < |b| <= |a.marks| && b == a.marks[..|b|]
  {
    var top, a1 := a.blocks[|a.blocks| - 1], a.(blocks := a.blocks[..|a.blocks| - 1]);
    NotAtOrBelow(a.marks, i, taken, own, low, Sa(top.number));
    Whole(a.marks);
    if top.active && failed {
      BackStays(a1, Sa(top.number), i);
    } else if top.active {
      ForgetStays(a1, Sa(top.number), i);
    }
  }

  /** A body leaves the mark below it standing, and the blocks as they were once it has left its own. */
  lemma {:induction false} BodyStands<D>(base: D, c: Conn<D>, a: Spec<D>, run: seq<Op<D>>, i: nat, own: Option<string>)
    requires Refines(base, c, a) && Possible(c, run) && Body(c, run, own)
    requires Guarded(a.marks, i, TakenNames(c.pg.stack), own, c.nextSavepoint) && i == |a.marks| - 1 && !c.closed
    ensures Standing(base, c, a, run, i)
    ensures BlocksAbove(c, After(c, run)) && NoneAbove(Follow(base, c, a, run).marks, i, own)
    decreases |run|
  {
    if run != [] {
      var front, op := run[..|run| - 1], run[|run| - 1];
      BodyStands(base, c, a, front, i, own);
      StandingKeeps(base, c, a, front, i);
      var before, conn := Follow(base, c, a, front), After(c, front);
      GuardedStill(a.marks, before.marks, i, TakenNames(c.pg.stack), own, c.nextSavepoint);
      SpecBlocks(base, conn, before);
      MarksStay(base, before, op, Seen(conn), conn.nextSavepoint, i, TakenNames(c.pg.stack), own, c.nextSavepoint);
      BlocksStay(c, conn, op, TakenNames(c.pg.stack), own);
    }
  }

  lemma SpecBlocks<D>(base: D, c: Conn<D>, a: Spec<D>)
    requires Refines(base, c, a)
    ensures Settled(a) && a.blocks == c.blocks
  {
  }

  lemma MarksStay<D>(base: D, a: Spec<D>, op: Op<D>, seen: string, number: nat, i: nat, taken: set<string>,
                     own: Option<string>, low: nat)
    requires Settled(a) && Guarded(a.marks, i, taken, own, low) && Inner(op, taken, own) && NoneAbove(a.marks, i, own)
    requires op.LeaveBlock? ==> a.blocks != [] && a.blocks[|a.blocks| - 1].number >= low
    ensures var b := SpecStep(base, a, op, seen, number).spec.marks; i < |b| && NoneAbove(b, i, own)
  {
    var b := SpecStep(base, a, op, seen, number).spec.marks;
    MarkStays(base, a, op, seen, number, i, taken, own, low);
    if |b| == |a.marks| + 1 {
      forall k | i < k < |a.marks| ensures b[k] == a.marks[k] {
        assert b[k] == b[..|a.marks|][k];
      }
    }
  }

  /** Operations that are inner ones whatever the savepoints are. */
  predicate Plain<D>(op: Op<D>, own: Option<string>) {
    op.SetActor? || op.Run? || (op.Save? && own != Some(op.name))
  }

  /** Any list of ordinary statements, new savepoints and actor changes is a body, and leaves the blocks alone. */
  lemma {:induction false} PlainIsBody<D>(c: Conn<D>, run: seq<Op<D>>, own: Option<string>)
    requires !c.closed && forall k :: 0 <= k < |run| ==> Plain(run[k], own)
    ensures Possible(c, run) && Body(c, run, own)
    ensures After(c, run).blocks == c.blocks && !After(c, run).closed
    decreases |run|
  {
    if run != [] {
      PlainIsBody(c, run[..|run| - 1], own);
      assert Plain(run[|run| - 1], own);
    }
  }

  lemma GuardedStill(marks: seq<Mark>, marks': seq<Mark>, i: nat, taken: set<string>, own: Option<string>, low: nat)
    requires Guarded(marks, i, taken, own, low) && i < |marks'| && marks'[..i + 1] == marks[..i + 1]
    ensures Guarded(marks', i, taken, own, low)
  {
    forall k | 0 <= k <= i ensures marks'[k] == marks[k] {
      assert marks'[k] == marks'[..i + 1][k];
      assert marks[k] == marks[..i + 1][k];
    }
  }

  lemma {:induction false} MarksAreTaken<D>(base: D, log: seq<Effect<D>>, stack: seq<Saved<D>>, marks: seq<Mark>,
                                            open: set<nat>, k: nat)
    requires Match(base, log, stack, marks, open) && k < |marks|
    ensures exists i :: 0 <= i < |stack| && stack[i].name == marks[k].name
    decreases |stack|
  {
    var below, top := stack[..|stack| - 1], stack[|stack| - 1];
    if Residue(top.name, open) {
      MarksAreTaken(base, log, below, marks, open, k);
    } else if k < |marks| - 1 {
      MarksAreTaken(base, log, below, marks[..|marks| - 1], open, k);
    } else {
      assert top.name == marks[k].name;
    }
    if Residue(top.name, open) || k < |marks| - 1 {
      var i :| 0 <= i < |below| && below[i].name == marks[k].name;
      assert stack[i] == below[i];
    }
  }

  /** The newest mark of a related state guards itself and all below. */
  lemma MarksGuarded<D>(base: D, c: Conn<D>, a: Spec<D>, own: Option<string>)
    requires Refines(base, c, a) && a.marks != []
    requires own.Some? ==> a.marks[|a.marks| - 1].name == User(own.value)
    ensures Guarded(a.marks, |a.marks| - 1, TakenNames(c.pg.stack), own, c.nextSavepoint)
  {
    var open :| RefinesWith(base, c, a, open);
    MarkNumbers(base, a.log, c.pg.stack, a.marks, open, c.nextSavepoint);
    forall k | 0 <= k < |a.marks|
      ensures if a.marks[k].name.User? then a.marks[k].name.text in TakenNames(c.pg.stack)
              else a.marks[k].name.number < c.nextSavepoint
    {
      MarksAreTaken(base, a.log, c.pg.stack, a.marks, open, k);
    }
  }

  // ---------- what goes back, restores ----------

  /**
   * After any run on an idle session, ROLLBACK TO restores the data of its SAVEPOINT across any body, whatever
   * that changed, even the actor. It raises exactly when the transaction is aborted and an actor is still to be
   * applied, and then changes nothing.
   */
  lemma RollbackToRestores<D>(base: D, pg: Session<D>, prior: seq<Op<D>>, name: string, body: seq<Op<D>>)
    requires Idle(pg, base) && Possible(Opened(pg), prior) && Enabled(After(Opened(pg), prior), Save(name))
    requires var set_ := Step(After(Opened(pg), prior), Save(name));
             set_.ok && Possible(set_.conn, body) && Body(set_.conn, body, Some(name))
    ensures var c := After(Opened(pg), prior);
            var c2 := After(Step(c, Save(name)).conn, body);
            && Enabled(c2, RollTo(name))
            && var out := Step(c2, RollTo(name));
            && (out.ok <==> c2.applied || !c2.pg.aborted)
            && (if out.ok then !out.conn.pg.aborted && out.conn.pg.data == c.pg.data && out.conn.pg.committed == c.pg.committed
                else out.conn == c2)
  {
    var c, a := After(Opened(pg), prior), SpecAfter(base, pg, prior);
    var c1, a1 := Step(c, Save(name)).conn, SpecStep(base, a, Save(name), Seen(c), c.nextSavepoint).spec;
    SavedMark(base, c, a, c1, a1, name);
    BodyAfterSave(base, c, a, c1, a1, name, body);
  }

  lemma BodyAfterSave<D>(base: D, c: Conn<D>, a: Spec<D>, c1: Conn<D>, a1: Spec<D>, name: string, body: seq<Op<D>>)
    requires Bookmarked(base, c, a, c1, a1, User(name)) && !c1.closed
    requires Possible(c1, body) && Body(c1, body, Some(name))
    ensures var c2 := After(c1, body);
            && Enabled(c2, RollTo(name))
            && var out := Step(c2, RollTo(name));
            && (out.ok <==> c2.applied || !c2.pg.aborted)
            && (if out.ok then !out.conn.pg.aborted && out.conn.pg.data == c.pg.data && out.conn.pg.committed == c.pg.committed
                else out.conn == c2)
  {
    var c2, a2 := After(c1, body), Follow(base, c1, a1, body);
    MarksGuarded(base, c1, a1, Some(name));
    BodyStands(base, c1, a1, body, |a.marks|, Some(name));
    StandingKeeps(base, c1, a1, body, |a.marks|);
    StillNewest(a1, a2, |a.marks|, name);
    RollsBack(base, c, a, c1, a1, c2, a2, name);
  }

  lemma SavedMark<D>(base: D, c: Conn<D>, a: Spec<D>, c1: Conn<D>, a1: Spec<D>, name: string)
    requires Refines(base, c, a) && Enabled(c, Save(name)) && Step(c, Save(name)) == Outcome(c1, true)
    requires a1 == SpecStep(base, a, Save(name), Seen(c), c.nextSavepoint).spec
    ensures Bookmarked(base, c, a, c1, a1, User(name))
  {
    RefinementStep(base, c, a, Save(name));
  }

  lemma StillNewest<D>(a1: Spec<D>, a2: Spec<D>, i: nat, name: string)
    requires SameUpTo(a1, a2, i) && a1.marks[i].name == User(name)
    requires forall k :: i < k < |a2.marks| ==> a2.marks[k].name != User(name)
    ensures LastMark(a2.marks, User(name)) == i
  {
    assert a2.marks[i] == a2.marks[..i + 1][i] == a1.marks[..i + 1][i] == a1.marks[i];
    LastMarkAtLeast(a2.marks, i);
  }

  lemma RollsBack<D>(base: D, c: Conn<D>, a: Spec<D>, c1: Conn<D>, a1: Spec<D>, c2: Conn<D>, a2: Spec<D>, name: string)
    requires Bookmarked(base, c, a, c1, a1, User(name)) && Refines(base, c2, a2) && Enabled(c2, RollTo(name))
    requires SameUpTo(a1, a2, |a.marks|) && LastMark(a2.marks, User(name)) == |a.marks|
    ensures var out := Step(c2, RollTo(name));
            && (out.ok <==> c2.applied || !c2.pg.aborted)
            && (if out.ok then !out.conn.pg.aborted && out.conn.pg.data == c.pg.data && out.conn.pg.committed == c.pg.committed
                else out.conn == c2)
  {
    assert c2.applied == a2.applied && c2.pg.aborted == a2.broken;
    if !ActorBlocked(a2) {
      RestoresMark(base, c, a, c1, a1, c2, a2, RollTo(name), User(name));
    }
  }

  /**
   * After any run on an idle session, a transaction() block whose body raises restores the data of its entry,
   * whatever the body did and even in an aborted transaction: c is the state at the entry, c2 the one after the
   * body, which has left its own blocks.
   */
  lemma FailedBlockRestoresEntry<D>(base: D, pg: Session<D>, prior: seq<Op<D>>, body: seq<Op<D>>)
    requires Idle(pg, base) && Possible(Opened(pg), prior) && Enabled(After(Opened(pg), prior), EnterBlock)
    requires var entry := Step(After(Opened(pg), prior), EnterBlock);
             && entry.ok && Possible(entry.conn, body) && Body(entry.conn, body, None)
             && |After(entry.conn, body).blocks| == |entry.conn.blocks|
    ensures var c := After(Opened(pg), prior);
            var c2 := After(Step(c, EnterBlock).conn, body);
            && Enabled(c2, LeaveBlock(true))
            && var out := Step(c2, LeaveBlock(true));
            && out.ok && !out.conn.pg.aborted && out.conn.blocks == c.blocks
            && out.conn.pg.data == c.pg.data && out.conn.pg.committed == c.pg.committed
  {
    var c, a := After(Opened(pg), prior), SpecAfter(base, pg, prior);
    var c1, a1 := Step(c, EnterBlock).conn, SpecStep(base, a, EnterBlock, Seen(c), c.nextSavepoint).spec;
    EnteredBlock(base, c, a, c1, a1);
    BodyWithin(base, c, a, c1, a1, body);
  }

  lemma BodyWithin<D>(base: D, c: Conn<D>, a: Spec<D>, c1: Conn<D>, a1: Spec<D>, body: seq<Op<D>>)
    requires Bookmarked(base, c, a, c1, a1, Sa(c.nextSavepoint)) && !c1.closed
    requires c1.blocks == c.blocks + [Block(c.nextSavepoint, true)]
    requires Possible(c1, body) && Body(c1, body, None) && |After(c1, body).blocks| == |c1.blocks|
    ensures var c2 := After(c1, body);
            && Enabled(c2, LeaveBlock(true))
            && var out := Step(c2, LeaveBlock(true));
            && out.ok && !out.conn.pg.aborted && out.conn.blocks == c.blocks
            && out.conn.pg.data == c.pg.data && out.conn.pg.committed == c.pg.committed
  {
    var c2, a2 := After(c1, body), Follow(base, c1, a1, body);
    MarksGuarded(base, c1, a1, None);
    BodyStands(base, c1, a1, body, |a.marks|, None);
    Whole(c2.blocks);
    StandingKeeps(base, c1, a1, body, |a.marks|);
    LeavesAsEntered(base, c, a, c1, a1, c2, a2);
  }

  lemma LeavesAsEntered<D>(base: D, c: Conn<D>, a: Spec<D>, c1: Conn<D>, a1: Spec<D>, c2: Conn<D>, a2: Spec<D>)
    requires Bookmarked(base, c, a, c1, a1, Sa(c.nextSavepoint)) && Refines(base, c2, a2) && SameUpTo(a1, a2, |a.marks|)
    requires !c2.closed && c2.blocks == c1.blocks == c.blocks + [Block(c.nextSavepoint, true)]
    ensures Enabled(c2, LeaveBlock(true))
    ensures var out := Step(c2, LeaveBlock(true));
            && out.ok && !out.conn.pg.aborted && out.conn.blocks == c.blocks
            && out.conn.pg.data == c.pg.data && out.conn.pg.committed == c.pg.committed
  {
    MarkFound(base, c2, a2, a1, |a.marks|);
    SpecBlocks(base, c2, a2);
    RestoresMark(base, c, a, c1, a1, c2, a2, LeaveBlock(true), Sa(c.nextSavepoint));
    assert c2.blocks[..|c2.blocks| - 1] == c.blocks;
  }

  lemma EnteredBlock<D>(base: D, c: Conn<D>, a: Spec<D>, c1: Conn<D>, a1: Spec<D>)
    requires Refines(base, c, a) && Enabled(c, EnterBlock) && Step(c, EnterBlock) == Outcome(c1, true)
    requires a1 == SpecStep(base, a, EnterBlock, Seen(c), c.nextSavepoint).spec
    ensures Bookmarked(base, c, a, c1, a1, Sa(c.nextSavepoint))
    ensures c1.blocks == c.blocks + [Block(c.nextSavepoint, true)] && c1.blocks[..|c.blocks|] == c.blocks
  {
    RefinementStep(base, c, a, EnterBlock);
  }

  lemma MarkFound<D>(base: D, c2: Conn<D>, a2: Spec<D>, a1: Spec<D>, i: nat)
    requires Refines(base, c2, a2) && SameUpTo(a1, a2, i) && a1.marks[i].name.Sa?
    ensures LastMark(a2.marks, a1.marks[i].name) == i
  {
    assert a2.marks[i] == a2.marks[..i + 1][i] == a1.marks[i];
    OneMarkPerBlock(base, c2, a2, i);
  }
}
