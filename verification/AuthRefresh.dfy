/** The refresh protocol of frontend/src/lib/auth.ts as a step system, and what its runs keep. */
module AuthRefresh {
  import opened Wrappers
  import opened Text
  import opened AuthSession

  /** Running until the `.then` or `.catch` handler has run; Answered or Thrown until `.finally` has. */
  datatype Stage = Running(progress: Progress) | Answered(token: Option<string>) | Thrown

  /** A refresh started by getValidAccessTokenOrNull, with the refresh token it was started with. */
  datatype Flight = Flight(token: string, stage: Stage)

  /** A pending refreshStoredAuthSessionNow, with the session it read at its start. */
  datatype Direct = Direct(session: Session, progress: Progress)

  /**
   * The browser storage entries, the two module variables, the pending asynchronous calls, and the
   * number of auth-session-changed events dispatched.
   */
  datatype State = State(
    configured: bool,
    stored: Option<Session>,
    sessionLegacy: Option<string>,
    localLegacy: Option<string>,
    inFlight: Option<nat>,
    inFlightToken: Option<string>,
    flights: map<nat, Flight>,
    directs: map<nat, Direct>,
    nextId: nat,
    changes: nat)

  datatype Event =
    | GetValid(now: int)
    | RefreshNow
    | Snapshot
    | FlightReply(id: nat, reply: Reply, now: int)
    | FlightSettles(id: nat)
    | FlightEnds(id: nat)
    | DirectReply(id: nat, reply: Reply, now: int)
    | DirectEnds(id: nat)
    | SignIn(session: Session)
    | SignOut

  // ---------- storage ----------

  function Read(s: State): Option<Session> {
    if s.stored.None? then None else Normalize(s.stored.value)
  }

  function StoredToken(s: State): Option<string> {
    if Read(s).None? then None else Read(s).value.refreshToken
  }

  function LegacyToken(s: State): string {
    Trim((if s.sessionLegacy.Some? then s.sessionLegacy else s.localLegacy).GetOr(""), IsJsSpace)
  }

  function Store(s: State, session: Session): State {
    s.(stored := Some(session), sessionLegacy := None, localLegacy := None, changes := s.changes + 1)
  }

  function Clear(s: State): State {
    s.(stored := None, sessionLegacy := None, localLegacy := None,
       inFlight := None, inFlightToken := None, changes := s.changes + 1)
  }

  /** The state after a read that migrates a legacy token when nothing is stored. */
  function Migrated(s: State): State {
    if Read(s).None? && LegacyToken(s) != "" then Store(s, Session(LegacyToken(s), None, None, None, None)) else s
  }

  // ---------- steps ----------

  predicate StartsFlight(s: State, e: Event) {
    && e.GetValid?
    && Read(s).Some?
    && NeedsRefresh(Read(s).value, e.now)
    && s.configured
    && s.inFlight.None?
  }

  predicate StartsDirect(s: State) {
    Read(s).Some? && Truthy(StoredToken(s)) && s.configured
  }

  predicate Enabled(s: State, e: Event) {
    match e
    case FlightReply(id, reply, _) => id in s.flights && s.flights[id].stage.Running? && Expects(s.flights[id].stage.progress, reply)
    case FlightSettles(id) => id in s.flights && s.flights[id].stage.Running? && !Pending(s.flights[id].stage.progress)
    case FlightEnds(id) => id in s.flights && !s.flights[id].stage.Running?
    case DirectReply(id, reply, _) => id in s.directs && Expects(s.directs[id].progress, reply)
    case DirectEnds(id) => id in s.directs && !Pending(s.directs[id].progress)
    case _ => true
  }

  function WithStage(s: State, id: nat, stage: Stage): State
    requires id in s.flights
  {
    s.(flights := s.flights[id := s.flights[id].(stage := stage)])
  }

  function AccessTokenOf(session: Option<Session>): Option<string> {
    if session.None? then None else Some(session.value.accessToken)
  }

  /** The `.then` handler: store the new session only over a session holding the in-flight token. */
  function SettleResolved(s: State, id: nat, next: Session): State
    requires id in s.flights
  {
    if Truthy(s.inFlightToken) && Read(s).Some? && StoredToken(s) == s.inFlightToken then
      var merged := Merge(Read(s).value, next);
      WithStage(Store(s, merged), id, Answered(Some(merged.accessToken)))
    else WithStage(s, id, Answered(AccessTokenOf(Read(s))))
  }

  /** The `.catch` handler: clear the session when its token is the in-flight one, both possibly null. */
  function SettleRejected(s: State, id: nat): State
    requires id in s.flights
  {
    WithStage(if Read(s).Some? && StoredToken(s) == s.inFlightToken then Clear(s) else s, id, Thrown)
  }

  function Next(s: State, e: Event): State
    requires Enabled(s, e)
  {
    match e
    case GetValid(now) =>
      if StartsFlight(s, e) then
        s.(inFlight := Some(s.nextId), inFlightToken := StoredToken(s), nextId := s.nextId + 1,
           flights := s.flights[s.nextId := Flight(StoredToken(s).value, Running(AwaitToken(StoredToken(s).value, 0)))])
      else Migrated(s)
    case RefreshNow =>
      if StartsDirect(s) then
        s.(nextId := s.nextId + 1,
           directs := s.directs[s.nextId := Direct(Read(s).value, AwaitToken(StoredToken(s).value, 0))])
      else Migrated(s)
    case Snapshot => Migrated(s)
    case FlightReply(id, reply, now) => WithStage(s, id, Running(Advance(s.flights[id].stage.progress, reply, now)))
    case FlightSettles(id) =>
      var progress := s.flights[id].stage.progress;
      if progress.Resolved? then SettleResolved(s, id, progress.session) else SettleRejected(s, id)
    case FlightEnds(id) => s.(inFlight := None, inFlightToken := None, flights := s.flights - {id})
    case DirectReply(id, reply, now) =>
      s.(directs := s.directs[id := s.directs[id].(progress := Advance(s.directs[id].progress, reply, now))])
    case DirectEnds(id) =>
      var d := s.directs[id];
      var ended := s.(directs := s.directs - {id});
      if d.progress.Resolved? then Store(ended, Merge(d.session, d.progress.session)) else ended
    case SignIn(session) => Store(s, session)
    case SignOut => Clear(s)
  }

  // ---------- runs ----------

  /** A freshly loaded module over any stored content. */
  predicate Initial(s: State) {
    s.inFlight.None? && s.inFlightToken.None? && s.flights == map[] && s.directs == map[]
  }

  predicate Possible(s0: State, run: seq<Event>)
    decreases |run|, 0
  {
    run == [] || (Possible(s0, run[..|run| - 1]) && Enabled(After(s0, run[..|run| - 1]), run[|run| - 1]))
  }

  function After(s0: State, run: seq<Event>): State
    requires Possible(s0, run)
    decreases |run|, 1
  {
    if run == [] then s0 else Next(After(s0, run[..|run| - 1]), run[|run| - 1])
  }

  lemma {:induction false} PrefixPossible(s0: State, run: seq<Event>, n: nat)
    requires Possible(s0, run) && n <= |run|
    ensures Possible(s0, run[..n])
    ensures n < |run| ==> Enabled(After(s0, run[..n]), run[n])
    decreases |run|
  {
    if n == |run| {
      assert run[..n] == run;
    } else {
      var init := run[..|run| - 1];
      PrefixPossible(s0, init, n);
      assert init[..n] == run[..n];
    }
  }

  // ---------- what every reachable state keeps ----------

  ghost predicate Sound(s: State) {
    && (s.inFlight.Some? <==> s.inFlightToken.Some?)
    && (s.inFlight.Some? ==>
         s.inFlight.value in s.flights && s.inFlightToken == Some(s.flights[s.inFlight.value].token))
    && (forall p :: p in s.flights ==> p < s.nextId && s.flights[p].token != "")
    && (forall d :: d in s.directs ==> CarriesToken(s.directs[d].progress))
  }

  /** Every dialogue keeps a refresh token to hand back. */
  predicate CarriesToken(p: Progress) {
    match p
    case Resolved(session) => Truthy(session.refreshToken)
    case Rejected => true
    case _ => CarriedToken(p) != ""
  }

  lemma AdvanceCarriesToken(p: Progress, reply: Reply, now: int)
    requires Expects(p, reply) && CarriesToken(p)
    ensures CarriesToken(Advance(p, reply, now))
  {
  }

  lemma StagePreservesSound(s: State, id: nat, stage: Stage)
    requires Sound(s) && id in s.flights
    ensures Sound(WithStage(s, id, stage))
  {
  }

  lemma SettleSound(s: State, id: nat)
    requires Sound(s) && Enabled(s, FlightSettles(id))
    ensures Sound(Next(s, FlightSettles(id)))
  {
    var p := s.flights[id].stage.progress;
    if p.Resolved? {
      var merged := Merge(Read(s).GetOr(p.session), p.session);
      StagePreservesSound(Store(s, merged), id, Answered(Some(merged.accessToken)));
      StagePreservesSound(s, id, Answered(AccessTokenOf(Read(s))));
    } else {
      ClearSound(s);
      StagePreservesSound(Clear(s), id, Thrown);
      StagePreservesSound(s, id, Thrown);
    }
  }

  lemma ClearSound(s: State)
    requires Sound(s)
    ensures Sound(Clear(s)) && Sound(Migrated(s))
  {
  }

  lemma CallSound(s: State, e: Event)
    requires Sound(s) && (e.GetValid? || e.RefreshNow? || e.Snapshot? || e.SignIn? || e.SignOut?)
    ensures Sound(Next(s, e))
  {
    ClearSound(s);
  }

  lemma SoundStep(s: State, e: Event)
    requires Sound(s) && Enabled(s, e)
    ensures Sound(Next(s, e))
  {
    match e
    case FlightReply(id, reply, now) =>
      StagePreservesSound(s, id, Running(Advance(s.flights[id].stage.progress, reply, now)));
    case FlightSettles(id) => SettleSound(s, id);
    case FlightEnds(id) =>
    case DirectReply(id, reply, now) => AdvanceCarriesToken(s.directs[id].progress, reply, now);
    case DirectEnds(id) =>
    case _ => CallSound(s, e);
  }

  /**
   * At every event-loop boundary the two module variables are null together, and otherwise name a
   * pending refresh and the token it was started with.
   */
  lemma {:induction false} VariablesAgree(s0: State, run: seq<Event>)
    requires Initial(s0) && Possible(s0, run)
    ensures Sound(After(s0, run))
  {
    if run != [] {
      VariablesAgree(s0, run[..|run| - 1]);
      SoundStep(After(s0, run[..|run| - 1]), run[|run| - 1]);
    }
  }

  // ---------- single flight ----------

  /** The step clears the stored session while a refresh is pending. */
  predicate ClearsWhilePending(s: State, e: Event)
    requires Enabled(s, e)
  {
    && s.flights != map[]
    && Next(s, e).stored.None?
    && (e.SignOut? || (e.FlightSettles? && Next(s, e).changes != s.changes))
  }

  function ClearCount(s0: State, run: seq<Event>): nat
    requires Possible(s0, run)
  {
    if run == [] then 0
    else
      var init := run[..|run| - 1];
      ClearCount(s0, init) + if ClearsWhilePending(After(s0, init), run[|run| - 1]) then 1 else 0
  }

  /** Pending refreshes that refreshInFlight no longer names. */
  function Orphans(s: State): set<nat> {
    set p | p in s.flights && s.inFlight != Some(p)
  }

  lemma CountOrphans(s: State)
    requires Sound(s)
    ensures |s.flights| == |Orphans(s)| + if s.inFlight.Some? then 1 else 0
  {
    assert |s.flights| == |s.flights.Keys|;
    if s.inFlight.Some? {
      assert s.flights.Keys == Orphans(s) + {s.inFlight.value};
    } else {
      assert s.flights.Keys == Orphans(s);
    }
  }

  lemma SubsetBound(small: set<nat>, big: set<nat>)
    requires small <= big
    ensures |small| <= |big|
  {
    assert big == small + (big - small);
  }

  /** Apart from `.finally`, only a start names a refresh and only a clear un-names one. */
  lemma NamesKept(s: State, e: Event)
    requires Sound(s) && Enabled(s, e) && !e.FlightEnds?
    ensures var t := Next(s, e);
            if StartsFlight(s, e) then t.inFlight == Some(s.nextId) && t.flights.Keys == s.flights.Keys + {s.nextId}
            else t.flights.Keys == s.flights.Keys
                 && (t.inFlight == s.inFlight || (t.inFlight.None? && (s.inFlight.Some? ==> ClearsWhilePending(s, e))))
  {
    match e
    case FlightSettles(id) =>
      assert s.flights != map[];
    case SignOut =>
      if s.inFlight.Some? {
        assert s.inFlight.value in s.flights;
        assert s.flights != map[];
      }
    case _ =>
  }

  lemma OrphanStep(s: State, e: Event)
    requires Sound(s) && Enabled(s, e)
    ensures |Orphans(Next(s, e))| <= |Orphans(s)| + if ClearsWhilePending(s, e) then 1 else 0
  {
    var t := Next(s, e);
    if e.FlightEnds? {
      if s.inFlight.Some? && s.inFlight != Some(e.id) {
        // the orphan that ends makes room for the refresh it un-names
        assert e.id in Orphans(s);
        assert Orphans(t) == Orphans(s) - {e.id} + {s.inFlight.value};
      } else {
        SubsetBound(Orphans(t), Orphans(s));
      }
    } else {
      NamesKept(s, e);
      if t.inFlight == s.inFlight || s.inFlight.None? {
        SubsetBound(Orphans(t), Orphans(s));
      } else {
        assert Orphans(t) == Orphans(s) + {s.inFlight.value};
      }
    }
  }

  lemma {:induction false} OrphansBounded(s0: State, run: seq<Event>)
    requires Initial(s0) && Possible(s0, run)
    ensures |Orphans(After(s0, run))| <= ClearCount(s0, run)
  {
    if run == [] {
      assert Orphans(s0) == {};
    } else {
      var init := run[..|run| - 1];
      OrphansBounded(s0, init);
      VariablesAgree(s0, init);
      OrphanStep(After(s0, init), run[|run| - 1]);
    }
  }

  /** Pending refreshes number at most one plus the clears made while one was pending. */
  lemma SingleFlight(s0: State, run: seq<Event>)
    requires Initial(s0) && Possible(s0, run)
    ensures |After(s0, run).flights| <= 1 + ClearCount(s0, run)
  {
    OrphansBounded(s0, run);
    VariablesAgree(s0, run);
    CountOrphans(After(s0, run));
  }

  // ---------- whose session a finishing refresh touches ----------

  /** Settling writes or clears a session that does not hold the token the refresh was started with. */
  predicate TouchesForeignSession(s: State, id: nat)
    requires Enabled(s, FlightSettles(id))
  {
    && Next(s, FlightSettles(id)).changes != s.changes
    && !(Read(s).Some? && StoredToken(s) == Some(s.flights[id].token))
  }

  /** A newer refresh is in flight and the stored session holds its token, another than ours. */
  predicate NewerRefreshOwnsSession(s: State, id: nat)
    requires id in s.flights
  {
    && s.inFlight.Some? && s.inFlight.value != id && s.inFlight.value in s.flights
    && Read(s).Some?
    && StoredToken(s) == Some(s.flights[s.inFlight.value].token)
    && StoredToken(s) != Some(s.flights[id].token)
  }

  /** No refresh is in flight, ours failed, and the stored session has no refresh token at all. */
  predicate FailureMeetsTokenlessSession(s: State, id: nat)
    requires id in s.flights && s.flights[id].stage.Running?
  {
    && s.inFlight.None?
    && s.flights[id].stage.progress.Rejected?
    && Read(s).Some? && StoredToken(s).None?
  }

  /** Over every run, there are exactly two ways in which a finishing refresh touches a foreign session. */
  lemma ForeignTouchExactly(s0: State, run: seq<Event>, id: nat)
    requires Initial(s0) && Possible(s0, run)
    requires Enabled(After(s0, run), FlightSettles(id))
    ensures TouchesForeignSession(After(s0, run), id) <==>
            NewerRefreshOwnsSession(After(s0, run), id) || FailureMeetsTokenlessSession(After(s0, run), id)
  {
    VariablesAgree(s0, run);
  }

  /** The step puts a session without refresh token into storage: a manual token, or a migrated legacy one. */
  predicate StoresTokenless(s: State, e: Event) {
    match e
    case SignIn(session) => Normalize(session).Some? && Normalize(session).value.refreshToken.None?
    case GetValid(_) => Read(s).None? && LegacyToken(s) != ""
    case RefreshNow => Read(s).None? && LegacyToken(s) != ""
    case Snapshot => Read(s).None? && LegacyToken(s) != ""
    case _ => false
  }

  /** While an orphan is pending, no new refresh is started and no session without refresh token is stored. */
  predicate Disciplined(s: State, e: Event) {
    Orphans(s) != {} ==> !StartsFlight(s, e) && !StoresTokenless(s, e)
  }

  predicate DisciplinedRun(s0: State, run: seq<Event>)
    requires Possible(s0, run)
  {
    run == [] || (DisciplinedRun(s0, run[..|run| - 1]) && Disciplined(After(s0, run[..|run| - 1]), run[|run| - 1]))
  }

  /** Under that discipline there is one pending refresh at most, and an orphan never sees a tokenless session. */
  ghost predicate Orderly(s: State) {
    && Sound(s)
    && (forall p, q :: p in s.flights && q in s.flights ==> p == q)
    && (forall p :: p in s.flights && s.inFlight != Some(p) ==> Read(s).None? || StoredToken(s).Some?)
  }

  lemma MergedKeepsToken(current: Session, next: Session)
    requires Truthy(next.refreshToken) && Normalize(Merge(current, next)).Some?
    ensures Normalize(Merge(current, next)).value.refreshToken.Some?
  {
  }

  lemma OrderlyStep(s: State, e: Event)
    requires Orderly(s) && Enabled(s, e) && Disciplined(s, e)
    ensures Orderly(Next(s, e))
  {
    SoundStep(s, e);
    OneFlight(s, e);
    var t := Next(s, e);
    forall p | p in t.flights && t.inFlight != Some(p)
      ensures Read(t).None? || StoredToken(t).Some?
    {
      OrphanSeesToken(s, e, p);
    }
  }

  lemma OneFlight(s: State, e: Event)
    requires Orderly(s) && Enabled(s, e) && Disciplined(s, e)
    ensures forall p, q :: p in Next(s, e).flights && q in Next(s, e).flights ==> p == q
  {
    if StartsFlight(s, e) {
      assert forall p :: p in s.flights ==> p in Orphans(s);
      assert s.flights == map[];
    }
  }

  lemma OrphanSeesToken(s: State, e: Event, p: nat)
    requires Orderly(s) && Enabled(s, e) && Disciplined(s, e)
    requires p in Next(s, e).flights && Next(s, e).inFlight != Some(p)
    ensures Read(Next(s, e)).None? || StoredToken(Next(s, e)).Some?
  {
    if s.inFlight != Some(p) && p in s.flights {
      assert p in Orphans(s);
      if e.DirectEnds? && s.directs[e.id].progress.Resolved? {
        DirectStoresToken(s, e.id);
      } else {
        StoredStays(s, e);
      }
    } else {
      OrphanedNow(s, e, p);
    }
  }

  /** A refresh is orphaned by nothing but a clear. */
  lemma OrphanedNow(s: State, e: Event, p: nat)
    requires Orderly(s) && Enabled(s, e)
    requires p in Next(s, e).flights && Next(s, e).inFlight != Some(p) && (s.inFlight == Some(p) || p !in s.flights)
    ensures Next(s, e).stored.None?
  {
    if !e.FlightEnds? {
      NamesKept(s, e);
    }
  }

  lemma DirectStoresToken(s: State, id: nat)
    requires Sound(s) && Enabled(s, DirectEnds(id)) && s.directs[id].progress.Resolved?
    ensures var t := Next(s, DirectEnds(id)); Read(t).None? || StoredToken(t).Some?
  {
    var t := Next(s, DirectEnds(id));
    var d := s.directs[id];
    assert t.stored == Some(Merge(d.session, d.progress.session));
    if Read(t).Some? {
      MergedKeepsToken(d.session, d.progress.session);
    }
  }

  lemma StoredStays(s: State, e: Event)
    requires Orderly(s) && Enabled(s, e) && !StartsFlight(s, e) && !StoresTokenless(s, e)
    requires e.DirectEnds? ==> !s.directs[e.id].progress.Resolved?
    requires exists p :: p in s.flights && s.inFlight != Some(p)
    ensures Read(Next(s, e)).None? || StoredToken(Next(s, e)).Some?
  {
  }

  lemma {:induction false} OrderlyRun(s0: State, run: seq<Event>)
    requires Initial(s0) && Possible(s0, run) && DisciplinedRun(s0, run)
    ensures Orderly(After(s0, run))
  {
    if run != [] {
      OrderlyRun(s0, run[..|run| - 1]);
      OrderlyStep(After(s0, run[..|run| - 1]), run[|run| - 1]);
    }
  }

  lemma {:induction false} DisciplinedPrefix(s0: State, run: seq<Event>, n: nat)
    requires Possible(s0, run) && DisciplinedRun(s0, run) && n <= |run|
    ensures Possible(s0, run[..n]) && DisciplinedRun(s0, run[..n])
    decreases |run|
  {
    if n == |run| {
      assert run[..n] == run;
    } else {
      DisciplinedPrefix(s0, run[..|run| - 1], n);
      assert run[..|run| - 1][..n] == run[..n];
    }
  }

  /**
   * In every disciplined interleaving of callers, sign-ins, sign-outs, direct refreshes and replies, a
   * finishing refresh changes or clears the stored session only if it holds the token the refresh was
   * started with.
   */
  lemma SettlesOnlyItsOwnSession(s0: State, run: seq<Event>, n: nat)
    requires Initial(s0) && Possible(s0, run) && DisciplinedRun(s0, run)
    requires n < |run| && run[n].FlightSettles?
    ensures Possible(s0, run[..n]) && Possible(s0, run[..n + 1])
    ensures var before, after := After(s0, run[..n]), After(s0, run[..n + 1]);
            && run[n].id in before.flights
            && (after.stored != before.stored || after.changes != before.changes ==>
                 Read(before).Some? && StoredToken(before) == Some(before.flights[run[n].id].token))
  {
    PrefixPossible(s0, run, n);
    PrefixPossible(s0, run, n + 1);
    DisciplinedPrefix(s0, run, n);
    OrderlyRun(s0, run[..n]);
    assert run[..n + 1][..n] == run[..n];
  }

  // ---------- what the waiting callers are told ----------

  /**
   * A refresh that resolved with a non-blank id token answers its callers with the access token of
   * whatever session is stored once it has settled, and with null when none is.
   */
  lemma AnswersStoredAccessToken(s: State, id: nat)
    requires Enabled(s, FlightSettles(id)) && s.flights[id].stage.progress.Resolved?
    requires Trim(s.flights[id].stage.progress.session.accessToken, IsJsSpace) != ""
    ensures var t := Next(s, FlightSettles(id));
            && t.flights[id].stage.Answered?
            && var answer := t.flights[id].stage.token;
            AccessTokenOf(Read(t)) == if answer.None? then None else Some(Trim(answer.value, IsJsSpace))
  {
    if s.stored.Some? {
      TrimTwice(s.stored.value.accessToken, IsJsSpace);
    }
  }
}
