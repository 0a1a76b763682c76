/**
 * Whether a forced refresh respects the stored session (refreshStoredAuthSessionNow of frontend/src/lib/auth.ts):
 * it stores without looking, so everything depends on what was written since it read.
 */
module AuthForced {
  import opened Wrappers
  import opened Text
  import opened AuthSession
  import opened AuthRefresh

  /** What happened to the stored session. */
  datatype Change = Nothing | Wrote(session: Session) | Cleared

  /** What one step does to it: a sign-in, a migration or a refresh writes, a sign-out or a failed refresh clears. */
  function ChangeBy(s: State, e: Event): Change
    requires Enabled(s, e)
  {
    match e
    case SignIn(session) => Wrote(session)
    case SignOut => Cleared
    case FlightSettles(id) =>
      var progress := s.flights[id].stage.progress;
      if Read(s).None? || StoredToken(s) != s.inFlightToken then Nothing
      else if progress.Rejected? then Cleared
      else if Truthy(s.inFlightToken) then Wrote(Merge(Read(s).value, progress.session))
      else Nothing
    case DirectEnds(id) =>
      var d := s.directs[id];
      if d.progress.Resolved? then Wrote(Merge(d.session, d.progress.session)) else Nothing
    case FlightReply(_, _, _) => Nothing
    case FlightEnds(_) => Nothing
    case DirectReply(_, _, _) => Nothing
    case _ =>
      if Read(s).None? && LegacyToken(s) != "" then Wrote(Session(LegacyToken(s), None, None, None, None)) else Nothing
  }

  /** The last change of a run. */
  function LastChange(s0: State, run: seq<Event>): Change
    requires Possible(s0, run)
  {
    if run == [] then Nothing
    else
      var front := run[..|run| - 1];
      var last := ChangeBy(After(s0, front), run[|run| - 1]);
      if last.Nothing? then LastChange(s0, front) else last
  }

  function Applied(stored: Option<Session>, change: Change): Option<Session> {
    match change
    case Nothing => stored
    case Wrote(session) => Some(session)
    case Cleared => None
  }

  /** Each step changes the stored session as ChangeBy says, and announces exactly those changes. */
  lemma ChangeStep(s: State, e: Event)
    requires Enabled(s, e)
    ensures Next(s, e).stored == Applied(s.stored, ChangeBy(s, e))
    ensures Next(s, e).changes != s.changes <==> !ChangeBy(s, e).Nothing?
  {
    if e.FlightSettles? {
      SettleChange(s, e.id);
    }
  }

  lemma SettleChange(s: State, id: nat)
    requires Enabled(s, FlightSettles(id))
    ensures Next(s, FlightSettles(id)).stored == Applied(s.stored, ChangeBy(s, FlightSettles(id)))
    ensures Next(s, FlightSettles(id)).changes != s.changes <==> !ChangeBy(s, FlightSettles(id)).Nothing?
  {
  }

  /** Over every run, what is stored is what the last change left. */
  lemma {:induction false} StorageIsLastChange(s0: State, run: seq<Event>)
    requires Possible(s0, run)
    ensures After(s0, run).stored == Applied(s0.stored, LastChange(s0, run))
  {
    if run != [] {
      StorageIsLastChange(s0, run[..|run| - 1]);
      ChangeStep(After(s0, run[..|run| - 1]), run[|run| - 1]);
    }
  }

  /** Nothing but its own replies touches a pending forced refresh, and its number is not given out again. */
  lemma {:induction false} DirectKept(s0: State, run: seq<Event>, id: nat)
    requires Possible(s0, run) && id in s0.directs && id < s0.nextId && id in After(s0, run).directs
    ensures After(s0, run).directs[id].session == s0.directs[id].session && id < After(s0, run).nextId
  {
    if run != [] {
      var front, e := run[..|run| - 1], run[|run| - 1];
      NumbersGrow(s0, front);
      DirectWasThere(After(s0, front), e, id);
      DirectKept(s0, front, id);
    }
  }

  lemma {:induction false} NumbersGrow(s0: State, run: seq<Event>)
    requires Possible(s0, run)
    ensures s0.nextId <= After(s0, run).nextId
  {
    if run != [] {
      NumbersGrow(s0, run[..|run| - 1]);
      var s, e := After(s0, run[..|run| - 1]), run[|run| - 1];
      assert s.nextId <= Next(s, e).nextId;
    }
  }

  lemma DirectWasThere(s: State, e: Event, id: nat)
    requires Enabled(s, e) && id < s.nextId && id in Next(s, e).directs
    ensures id in s.directs && Next(s, e).directs[id].session == s.directs[id].session && id < Next(s, e).nextId
  {
  }

  /** A forced refresh that has resolved is about to store over another stored session than the one it read. */
  predicate Overwrites(s: State, id: nat)
    requires id in s.directs
  {
    Read(s).Some? && Read(s) != Some(s.directs[id].session)
  }

  /**
   * For every run from the start of a forced refresh to the moment before it ends: it revives a signed-out
   * session if and only if the last change of the stored session was a clear, it overwrites another one if and
   * only if that was a write of another readable session, and it stores over the session it read if and only if
   * nothing was changed or that very session was written last.
   */
  lemma ForcedRefreshRespectsExactly(s: State, run: seq<Event>)
    requires StartsDirect(s) && Possible(Next(s, RefreshNow), run) && s.nextId in After(Next(s, RefreshNow), run).directs
    ensures var id, t, last := s.nextId, After(Next(s, RefreshNow), run), LastChange(Next(s, RefreshNow), run);
            && Some(t.directs[id].session) == Read(s)
            && (t.stored.None? <==> last.Cleared?)
            && (Overwrites(t, id) <==> last.Wrote? && Normalize(last.session).Some? && Normalize(last.session) != Read(s))
            && (Read(t) == Read(s) <==> last.Nothing? || (last.Wrote? && Normalize(last.session) == Read(s)))
  {
    var s0 := Next(s, RefreshNow);
    StorageIsLastChange(s0, run);
    DirectKept(s0, run, s.nextId);
  }

  /** In particular, while no change is announced the forced refresh stores over the session it read. */
  lemma {:induction false} UnannouncedIsUnchanged(s0: State, run: seq<Event>)
    requires Possible(s0, run)
    ensures After(s0, run).changes >= s0.changes
    ensures After(s0, run).changes == s0.changes <==> LastChange(s0, run).Nothing?
  {
    if run != [] {
      var front := run[..|run| - 1];
      UnannouncedIsUnchanged(s0, front);
      ChangeStep(After(s0, front), run[|run| - 1]);
      ChangesGrow(After(s0, front), run[|run| - 1]);
    }
  }

  lemma ChangesGrow(s: State, e: Event)
    requires Enabled(s, e)
    ensures Next(s, e).changes >= s.changes
  {
  }

  /** What the end of a forced refresh then stores: its own tokens, with the metadata of the session it read. */
  lemma ForcedRefreshStores(s: State, id: nat)
    requires Enabled(s, DirectEnds(id)) && s.directs[id].progress.Resolved?
    ensures var t := Next(s, DirectEnds(id));
            && t.stored == Some(Merge(s.directs[id].session, s.directs[id].progress.session))
            && (s.stored.None? ==> t.stored.Some?)
            && t.inFlight == s.inFlight && t.inFlightToken == s.inFlightToken && t.flights == s.flights
  {
  }
}
