/** The handlers of frontend/src/lib/auth.ts, updating storage and module variables in place. */
module AuthModule {
  import opened Wrappers
  import opened Text
  import opened AuthSession
  import opened AuthRefresh

  /** What a caller of getValidAccessTokenOrNull gets: a token at once, or a pending refresh to await. */
  datatype Answer = Ready(token: Option<string>) | Awaiting(flight: nat)

  /** The stored session, or else the one a legacy token migrates to. */
  function Current(s: State): Option<Session> {
    if Read(s).Some? then Read(s)
    else if LegacyToken(s) == "" then None
    else Some(Session(LegacyToken(s), None, None, None, None))
  }

  /** When the access token of the stored session expires, as far as that is known. */
  function Expires(s: State): Option<int> {
    if Read(s).None? then None else Read(s).value.expiresAt
  }

  class AuthModule {
    const configured: bool
    var stored: Option<Session>
    var sessionLegacy: Option<string>
    var localLegacy: Option<string>
    var refreshInFlight: Option<nat>
    var refreshInFlightToken: Option<string>
    var flights: map<nat, Flight>
    var directs: map<nat, Direct>
    var nextId: nat
    var changes: nat

    ghost function Abs(): State
      reads this
    {
      State(configured, stored, sessionLegacy, localLegacy, refreshInFlight, refreshInFlightToken,
            flights, directs, nextId, changes)
    }

    constructor (configured: bool, stored: Option<Session>, sessionLegacy: Option<string>, localLegacy: Option<string>)
      ensures Initial(Abs())
      ensures this.configured == configured && this.stored == stored
      ensures this.sessionLegacy == sessionLegacy && this.localLegacy == localLegacy
    {
      this.configured := configured;
      this.stored, this.sessionLegacy, this.localLegacy := stored, sessionLegacy, localLegacy;
      refreshInFlight, refreshInFlightToken := None, None;
      flights, directs, nextId, changes := map[], map[], 0, 0;
    }

    method ReadStored() returns (session: Option<Session>)
      ensures session == Read(Abs())
    {
      session := None;
      if stored.Some? {
        session := Normalize(stored.value);
      }
    }

    method WriteStored(session: Option<Session>)
      modifies this
      ensures Abs() == if session.Some? then Store(old(Abs()), session.value) else Clear(old(Abs()))
    {
      if session.None? {
        stored := None;
        sessionLegacy, localLegacy := None, None;
        refreshInFlight := None;
        refreshInFlightToken := None;
        changes := changes + 1;
        return;
      }
      stored := session;
      sessionLegacy, localLegacy := None, None;
      changes := changes + 1;
    }

    /** readStoredAuthSession() ?? migrateLegacyStoredTokenIfNeeded() */
    method ReadOrMigrate() returns (session: Option<Session>)
      modifies this
      ensures Abs() == Migrated(old(Abs()))
      ensures session == Current(old(Abs()))
    {
      session := ReadStored();
      if session.None? {
        var legacy := if sessionLegacy.Some? then sessionLegacy else localLegacy;
        var token := Trim(legacy.GetOr(""), IsJsSpace);
        if token != "" {
          session := Some(Session(token, None, None, None, None));
          stored := session;
          sessionLegacy, localLegacy := None, None;
          changes := changes + 1;
        }
      }
    }

    method GetStoredAccessTokenOrNull() returns (token: Option<string>)
      modifies this
      ensures Abs() == Next(old(Abs()), Snapshot)
      ensures token == AccessTokenOf(Current(old(Abs())))
    {
      var session := ReadOrMigrate();
      if session.None? {
        return None;
      }
      return Some(session.value.accessToken);
    }

    /** A blank token clears the session; any other is stored without a refresh token. */
    method SetStoredAccessToken(token: Option<string>)
      modifies this
      ensures var normalized := Trim(token.GetOr(""), IsJsSpace);
              Abs() == Next(old(Abs()), if normalized == "" then SignOut else SignIn(Session(normalized, None, None, None, None)))
    {
      var normalized := Trim(token.GetOr(""), IsJsSpace);
      WriteStored(if normalized == "" then None else Some(Session(normalized, None, None, None, None)));
    }

    method GetValidAccessTokenOrNull(now: int) returns (answer: Answer)
      modifies this
      ensures Abs() == Next(old(Abs()), GetValid(now))
      ensures answer.Awaiting? ==> refreshInFlight == Some(answer.flight)
      ensures answer.Awaiting? ==> old(Expires(Abs())).Some? && old(Expires(Abs())).value <= now + 60_000
      ensures answer.Ready? && configured && old(Expires(Abs())).Some? && Truthy(old(StoredToken(Abs()))) ==>
                old(Expires(Abs())).value > now + 60_000 || old(Expires(Abs())).value == 0
      ensures answer.Ready? <==>
              !(Read(old(Abs())).Some? && NeedsRefresh(Read(old(Abs())).value, now) && configured)
      ensures answer.Ready? ==> answer.token == AccessTokenOf(Current(old(Abs())))
    {
      var session := ReadOrMigrate();
      if session.None? {
        return Ready(None);
      }
      if !NeedsRefresh(session.value, now) {
        return Ready(Some(session.value.accessToken));
      }
      if !Truthy(session.value.refreshToken) || !configured {
        return Ready(Some(session.value.accessToken));
      }
      if refreshInFlight.None? {
        refreshInFlightToken := session.value.refreshToken;
        refreshInFlight := Some(nextId);
        flights := flights[nextId := Flight(session.value.refreshToken.value, Running(AwaitToken(session.value.refreshToken.value, 0)))];
        nextId := nextId + 1;
      }
      answer := Awaiting(refreshInFlight.value);
    }

    method ReceiveReply(id: nat, reply: Reply, now: int)
      requires Enabled(Abs(), FlightReply(id, reply, now))
      modifies this
      ensures Abs() == Next(old(Abs()), FlightReply(id, reply, now))
    {
      var flight := flights[id];
      flights := flights[id := flight.(stage := Running(Advance(flight.stage.progress, reply, now)))];
    }

    /** The `.then` handler. */
    method Fulfil(id: nat)
      requires Enabled(Abs(), FlightSettles(id)) && flights[id].stage.progress.Resolved?
      modifies this
      ensures Abs() == Next(old(Abs()), FlightSettles(id))
    {
      var next := flights[id].stage.progress.session;
      var current := ReadStored();
      if current.None? || !Truthy(refreshInFlightToken) || current.value.refreshToken != refreshInFlightToken {
        flights := flights[id := flights[id].(stage := Answered(AccessTokenOf(current)))];
        return;
      }
      var merged := Merge(current.value, next);
      WriteStored(Some(merged));
      flights := flights[id := flights[id].(stage := Answered(Some(merged.accessToken)))];
    }

    /** The `.catch` handler. */
    method Fail(id: nat)
      requires Enabled(Abs(), FlightSettles(id)) && flights[id].stage.progress.Rejected?
      modifies this
      ensures Abs() == Next(old(Abs()), FlightSettles(id))
    {
      var current := ReadStored();
      if current.Some? && current.value.refreshToken == refreshInFlightToken {
        WriteStored(None);
      }
      flights := flights[id := flights[id].(stage := Thrown)];
    }

    /** The `.finally` handler. */
    method Finish(id: nat)
      requires Enabled(Abs(), FlightEnds(id))
      modifies this
      ensures Abs() == Next(old(Abs()), FlightEnds(id))
    {
      refreshInFlight := None;
      refreshInFlightToken := None;
      flights := flights - {id};
    }

    method RefreshStoredAuthSessionNow() returns (started: bool, token: Option<string>)
      modifies this
      ensures Abs() == Next(old(Abs()), RefreshNow)
      ensures started == StartsDirect(old(Abs()))
      ensures token == if started then None else AccessTokenOf(Current(old(Abs())))
    {
      var session := ReadOrMigrate();
      if session.None? {
        return false, None;
      }
      if !Truthy(session.value.refreshToken) || !configured {
        return false, Some(session.value.accessToken);
      }
      directs := directs[nextId := Direct(session.value, AwaitToken(session.value.refreshToken.value, 0))];
      nextId := nextId + 1;
      return true, None;
    }

    method ReceiveDirectReply(id: nat, reply: Reply, now: int)
      requires Enabled(Abs(), DirectReply(id, reply, now))
      modifies this
      ensures Abs() == Next(old(Abs()), DirectReply(id, reply, now))
    {
      directs := directs[id := directs[id].(progress := Advance(directs[id].progress, reply, now))];
    }

    method EndDirect(id: nat) returns (token: Result<string, ()>)
      requires Enabled(Abs(), DirectEnds(id))
      modifies this
      ensures Abs() == Next(old(Abs()), DirectEnds(id))
      ensures token.Ok? ==> AccessTokenOf(stored) == Some(token.value)
      ensures token.Err? <==> old(directs)[id].progress.Rejected?
    {
      var d := directs[id];
      directs := directs - {id};
      if d.progress.Rejected? {
        return Err(());
      }
      var merged := Merge(d.session, d.progress.session);
      WriteStored(Some(merged));
      return Ok(merged.accessToken);
    }
  }
}
