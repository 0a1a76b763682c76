/**
 * Runs that show which hypotheses of the refresh protocol's theorems cannot be dropped. Each is a whole
 * family, over all users whose stored sessions are in normal form.
 */
module AuthWitness {
  import opened Wrappers
  import opened Text
  import opened AuthSession
  import opened AuthRefresh

  /** Storage holds the session, nothing is pending. */
  function SignedIn(session: Session): State {
    State(true, Some(session), None, None, None, None, map[], map[], 0, 0)
  }

  /** A session as it is read back, with a refresh token and in need of refreshing at time 0. */
  predicate Stale(session: Session) {
    Normalize(session) == Some(session) && NeedsRefresh(session, 0)
  }

  /** A reply that renews the tokens of a verified user without further requests. */
  predicate Renews(reply: Reply) {
    && reply.TokenPayload? && reply.ok && reply.errorMessage == "" && reply.idToken != ""
    && reply.claims.emailVerified == Some(true) && Truthy(reply.claims.email)
  }

  /** Alice's refresh is orphaned by a sign-out; Bob signs in and his refresh starts; Alice's resolves. */
  function NewerRefreshRun(bob: Session, renewed: Reply): seq<Event> {
    [GetValid(0), SignOut, SignIn(bob), GetValid(0), FlightReply(0, renewed, 0)]
  }

  /** Alice's refresh is orphaned by a sign-out; a manual token is stored; Alice's refresh fails. */
  function TokenlessRun(manual: Session): seq<Event> {
    [GetValid(0), SignOut, SignIn(manual), FlightReply(0, TokenError, 0)]
  }

  /** Alice's forced refresh is pending when she signs out. */
  function SignedOutRun(renewed: Reply): seq<Event> {
    [RefreshNow, SignOut, DirectReply(0, renewed, 0)]
  }

  lemma Extend(s0: State, run: seq<Event>, n: nat)
    requires n < |run| && Possible(s0, run[..n]) && Enabled(After(s0, run[..n]), run[n])
    ensures Possible(s0, run[..n + 1]) && After(s0, run[..n + 1]) == Next(After(s0, run[..n]), run[n])
  {
    assert run[..n + 1][..n] == run[..n];
  }

  /** The state after sign-in, first call, sign-out: one orphan, nothing stored. */
  function Orphaned(alice: Session): State
    requires alice.refreshToken.Some?
  {
    State(true, None, None, None, None, None,
          map[0 := Flight(alice.refreshToken.value, Running(AwaitToken(alice.refreshToken.value, 0)))], map[], 1, 1)
  }

  lemma OrphanBySignOut(alice: Session, run: seq<Event>)
    requires Stale(alice)
    requires |run| >= 2 && run[0] == GetValid(0) && run[1] == SignOut
    ensures Possible(SignedIn(alice), run[..2]) && After(SignedIn(alice), run[..2]) == Orphaned(alice)
  {
    var s0 := SignedIn(alice);
    assert run[..0] == [];
    Extend(s0, run, 0);
    Extend(s0, run, 1);
  }

  /** Bob has signed in and his refresh is pending next to Alice's orphan, which is at the given stage. */
  function BothPending(alice: Session, bob: Session, orphan: Stage): State
    requires alice.refreshToken.Some? && bob.refreshToken.Some?
  {
    State(true, Some(bob), None, None, Some(1), bob.refreshToken,
          map[0 := Flight(alice.refreshToken.value, orphan),
              1 := Flight(bob.refreshToken.value, Running(AwaitToken(bob.refreshToken.value, 0)))], map[], 2, 2)
  }

  lemma SecondRefreshStarts(alice: Session, bob: Session)
    requires Stale(alice) && Stale(bob)
    ensures Next(Store(Orphaned(alice), bob), GetValid(0))
            == BothPending(alice, bob, Running(AwaitToken(alice.refreshToken.value, 0)))
  {
    var s := Store(Orphaned(alice), bob);
    assert s.stored == Some(bob) && StartsFlight(s, GetValid(0));
  }

  lemma OrphanAnswered(alice: Session, bob: Session, renewed: Reply) returns (p: Progress)
    requires Stale(alice) && Stale(bob) && Renews(renewed)
    ensures var s := BothPending(alice, bob, Running(AwaitToken(alice.refreshToken.value, 0)));
            && Enabled(s, FlightReply(0, renewed, 0))
            && Next(s, FlightReply(0, renewed, 0)) == BothPending(alice, bob, Running(p))
    ensures p.Resolved? && p.session.accessToken == renewed.idToken && Truthy(p.session.refreshToken)
  {
    var s := BothPending(alice, bob, Running(AwaitToken(alice.refreshToken.value, 0)));
    p := Advance(s.flights[0].stage.progress, renewed, 0);
    assert Next(s, FlightReply(0, renewed, 0)).flights == BothPending(alice, bob, Running(p)).flights;
  }

  lemma OrphanOverwrites(alice: Session, bob: Session, p: Progress)
    requires Stale(alice) && Stale(bob) && alice.refreshToken != bob.refreshToken
    requires p.Resolved? && Truthy(p.session.refreshToken) && p.session.accessToken != ""
    ensures var s := BothPending(alice, bob, Running(p));
            && Enabled(s, FlightSettles(0)) && TouchesForeignSession(s, 0)
            && AccessTokenOf(Next(s, FlightSettles(0)).stored) == Some(p.session.accessToken)
  {
    var s := BothPending(alice, bob, Running(p));
    assert Read(s) == Some(bob) && StoredToken(s) == s.inFlightToken;
    assert Next(s, FlightSettles(0)) == SettleResolved(s, 0, p.session);
  }

  /** Without the rule on new refreshes, Bob's session is overwritten with Alice's tokens. */
  lemma StaleRefreshOverwritesNewUser(alice: Session, bob: Session, renewed: Reply)
    requires Stale(alice) && Stale(bob) && alice.refreshToken != bob.refreshToken && Renews(renewed)
    ensures Initial(SignedIn(alice)) && Possible(SignedIn(alice), NewerRefreshRun(bob, renewed))
    ensures var s := After(SignedIn(alice), NewerRefreshRun(bob, renewed));
            && s.stored == Some(bob)
            && Enabled(s, FlightSettles(0)) && TouchesForeignSession(s, 0)
            && AccessTokenOf(Next(s, FlightSettles(0)).stored) == Some(renewed.idToken)
  {
    var s0, run := SignedIn(alice), NewerRefreshRun(bob, renewed);
    OrphanBySignOut(alice, run);
    SecondRefreshStarts(alice, bob);
    var p := OrphanAnswered(alice, bob, renewed);
    ThreeMore(s0, Orphaned(alice), Store(Orphaned(alice), bob),
              BothPending(alice, bob, Running(AwaitToken(alice.refreshToken.value, 0))), run);
    OrphanOverwrites(alice, bob, p);
  }

  lemma ThreeMore(s0: State, s2: State, s3: State, s4: State, run: seq<Event>)
    requires |run| == 5 && Possible(s0, run[..2]) && After(s0, run[..2]) == s2
    requires Enabled(s2, run[2]) && Next(s2, run[2]) == s3
    requires Enabled(s3, run[3]) && Next(s3, run[3]) == s4 && Enabled(s4, run[4])
    ensures Possible(s0, run) && After(s0, run) == Next(s4, run[4])
  {
    Extend(s0, run, 2);
    Extend(s0, run, 3);
    Extend(s0, run, 4);
    assert run[..5] == run;
  }

  lemma FailingOrphan(s: State, id: nat)
    requires s.inFlight.None? && s.inFlightToken.None? && Read(s).Some? && StoredToken(s).None?
    requires Enabled(s, FlightReply(id, TokenError, 0)) && s.flights[id].stage.progress.AwaitToken?
    ensures var t := Next(s, FlightReply(id, TokenError, 0));
            && t.stored == s.stored && t.flights.Keys == s.flights.Keys
            && Enabled(t, FlightSettles(id)) && TouchesForeignSession(t, id)
            && Next(t, FlightSettles(id)).stored.None?
  {
    var t := Next(s, FlightReply(id, TokenError, 0));
    assert Read(t) == Read(s);
    assert Next(t, FlightSettles(id)) == SettleRejected(t, id);
  }

  /**
   * Without the rule on sessions that hold no refresh token, a failing orphan clears one: the stored
   * null token equals the reset module variable.
   */
  lemma StaleFailureClearsManualToken(alice: Session, manual: Session)
    requires Stale(alice) && Normalize(manual) == Some(manual) && manual.refreshToken.None?
    ensures Initial(SignedIn(alice)) && Possible(SignedIn(alice), TokenlessRun(manual))
    ensures var s := After(SignedIn(alice), TokenlessRun(manual));
            && s.stored == Some(manual) && s.flights.Keys == {0}
            && Enabled(s, FlightSettles(0)) && TouchesForeignSession(s, 0)
            && Next(s, FlightSettles(0)).stored.None?
  {
    var s0, run := SignedIn(alice), TokenlessRun(manual);
    OrphanBySignOut(alice, run);
    Extend(s0, run, 2);
    var before := Store(Orphaned(alice), manual);
    assert After(s0, run[..3]) == before;
    Extend(s0, run, 3);
    assert run[..4] == run;
    FailingOrphan(before, 0);
  }

  /** refreshStoredAuthSessionNow writes without looking: a signed-out session comes back. */
  lemma ForcedRefreshRevivesSignedOutSession(alice: Session, renewed: Reply)
    requires Stale(alice) && Renews(renewed)
    ensures Initial(SignedIn(alice)) && Possible(SignedIn(alice), SignedOutRun(renewed))
    ensures var s := After(SignedIn(alice), SignedOutRun(renewed));
            && s.stored.None? && Enabled(s, DirectEnds(0))
            && AccessTokenOf(Next(s, DirectEnds(0)).stored) == Some(renewed.idToken)
  {
    var s0, run := SignedIn(alice), SignedOutRun(renewed);
    assert run[..0] == [];
    Extend(s0, run, 0);
    Extend(s0, run, 1);
    Extend(s0, run, 2);
    assert run[..3] == run;
  }
}
