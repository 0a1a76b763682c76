/** What a refresh leaves in storage, read off the replies that it was sent (frontend/src/lib/auth.ts). */
module AuthStored {
  import opened Wrappers
  import opened Text
  import opened AuthSession
  import opened AuthRefresh
  import opened AuthDialogues

  // ---------- what the replies say ----------

  /** Arrival k is the last token payload. */
  predicate LastPayload(arrivals: seq<Arrival>, k: nat) {
    k < |arrivals| && arrivals[k].reply.TokenPayload? && forall j :: k < j < |arrivals| ==> !arrivals[j].reply.TokenPayload?
  }

  /** The last reply is the account data that was looked up. */
  predicate LookedUp(arrivals: seq<Arrival>) {
    arrivals != [] &&
    var last := arrivals[|arrivals| - 1].reply;
    last.LookupPayload? && last.ok && last.errorMessage == ""
  }

  /** The address looked up, unless it is blank, and else the one the token claims. */
  function EmailSaid(arrivals: seq<Arrival>, k: nat): Option<string>
    requires LastPayload(arrivals, k)
  {
    if LookedUp(arrivals) && Trim(arrivals[|arrivals| - 1].reply.email, IsJsSpace) != ""
    then Some(Trim(arrivals[|arrivals| - 1].reply.email, IsJsSpace))
    else arrivals[k].reply.claims.email
  }

  function VerifiedSaid(arrivals: seq<Arrival>, k: nat): Option<bool>
    requires LastPayload(arrivals, k)
  {
    if LookedUp(arrivals) && arrivals[|arrivals| - 1].reply.emailVerified.Some?
    then arrivals[|arrivals| - 1].reply.emailVerified
    else arrivals[k].reply.claims.emailVerified
  }

  /**
   * The session has the id token of the last token payload and the last token rotated; it expires the given number
   * of seconds after the last reply, if any; metadata that the replies do not tell are as in before.
   */
  ghost predicate SaysSo(session: Session, token: string, arrivals: seq<Arrival>, before: Session) {
    exists k :: LastPayload(arrivals, k) && SaysAt(session, token, arrivals, k, before)
  }

  predicate SaysAt(session: Session, token: string, arrivals: seq<Arrival>, k: nat, before: Session)
    requires LastPayload(arrivals, k)
  {
    var reply, clock := arrivals[k].reply, arrivals[|arrivals| - 1].now;
    && session.accessToken == reply.idToken
    && session.refreshToken == Some(LastRotated(token, arrivals))
    && (reply.expiresIn.Some? && reply.expiresIn.value > 0 ==> session.expiresAt == Some(clock + 1000 * reply.expiresIn.value))
    && (reply.expiresIn.None? || reply.expiresIn.value <= 0 ==> session.expiresAt == None)
    && session.email == (if EmailSaid(arrivals, k).Some? then EmailSaid(arrivals, k) else before.email)
    && session.emailVerified == (if VerifiedSaid(arrivals, k).Some? then VerifiedSaid(arrivals, k) else before.emailVerified)
  }

  // ---------- a dialogue resolves to what its replies say ----------

  /** The parts of a resolved session that do not depend on the token it began with. */
  predicate Concluded(session: Session, arrivals: seq<Arrival>, k: nat)
    requires LastPayload(arrivals, k)
  {
    var reply, clock := arrivals[k].reply, arrivals[|arrivals| - 1].now;
    && session.accessToken == reply.idToken
    && session.expiresAt == (if reply.expiresIn.None? || reply.expiresIn.value <= 0 then None
                             else Some(clock + reply.expiresIn.value * 1000))
    && session.email == EmailSaid(arrivals, k) && session.emailVerified == VerifiedSaid(arrivals, k)
  }

  lemma {:induction false} ResolvesAsSaid(token: string, attempt: nat, arrivals: seq<Arrival>) returns (k: nat)
    requires var p := AwaitToken(token, attempt); Dialogue(p, arrivals).Resolved? && Consumed(p, arrivals) == |arrivals|
    ensures LastPayload(arrivals, k) && Concluded(Dialogue(AwaitToken(token, attempt), arrivals).session, arrivals, k)
    decreases |arrivals|
  {
    var p := AwaitToken(token, attempt);
    var q := Advance(p, arrivals[0].reply, arrivals[0].now);
    var rest := arrivals[1..];
    assert Dialogue(p, arrivals) == Dialogue(q, rest) && Consumed(q, rest) == |rest|;
    k := 0;
    if q.Resolved? {
      assert rest == [];
    } else {
      assert rest != [];
      var r := Advance(q, rest[0].reply, rest[0].now);
      var last := rest[1..];
      assert Dialogue(q, rest) == Dialogue(r, last) && Consumed(r, last) == |last|;
      assert last == arrivals[2..] && rest[0] == arrivals[1];
      if r.Resolved? {
        assert last == [];
      } else {
        var n := ResolvesAsSaid(r.token, r.attempt, last);
        k := n + 2;
        Later(arrivals, n, Dialogue(p, arrivals).session);
      }
    }
  }

  lemma Later(arrivals: seq<Arrival>, n: nat, session: Session)
    requires |arrivals| > 2 && LastPayload(arrivals[2..], n) && Concluded(session, arrivals[2..], n)
    ensures LastPayload(arrivals, n + 2) && Concluded(session, arrivals, n + 2)
  {
    var last := arrivals[2..];
    assert forall j :: 0 <= j < |last| ==> last[j] == arrivals[j + 2];
    forall j | n + 2 < j < |arrivals| ensures !arrivals[j].reply.TokenPayload? {
      assert arrivals[j] == last[j - 2];
    }
  }

  /** Merged over a session, it still is as the replies say. */
  lemma MergedSaysSo(token: string, arrivals: seq<Arrival>, before: Session)
    requires var p := AwaitToken(token, 0); Dialogue(p, arrivals).Resolved? && Consumed(p, arrivals) == |arrivals|
    ensures SaysSo(Merge(before, Dialogue(AwaitToken(token, 0), arrivals).session), token, arrivals, before)
  {
    var k := ResolvesAsSaid(token, 0, arrivals);
    ResolvesWithLastRotatedToken(token, arrivals);
    assert arrivals[..|arrivals|] == arrivals;
    MergeSays(Dialogue(AwaitToken(token, 0), arrivals).session, token, arrivals, k, before);
  }

  lemma MergeSays(session: Session, token: string, arrivals: seq<Arrival>, k: nat, before: Session)
    requires LastPayload(arrivals, k) && Concluded(session, arrivals, k)
    requires session.refreshToken == Some(LastRotated(token, arrivals))
    ensures SaysSo(Merge(before, session), token, arrivals, before)
  {
    assert SaysAt(Merge(before, session), token, arrivals, k, before);
  }

  // ---------- what is stored, over every run ----------

  /**
   * Over every interleaving: whenever a finishing refresh changes what is stored, it either failed and clears it, or
   * stores what the replies to it say, with the last rotated refresh token.
   */
  lemma SettlingStoresWhatWasSaid(s0: State, run: seq<Event>, id: nat)
    requires Initial(s0) && Possible(s0, run) && Enabled(After(s0, run), FlightSettles(id))
    ensures var s, t := After(s0, run), Next(After(s0, run), FlightSettles(id));
            t.changes != s.changes ==>
              Read(s).Some?
              && if s.flights[id].stage.progress.Rejected? then t.stored.None?
                 else t.stored.Some? && SaysSo(t.stored.value, s.flights[id].token, Arrivals(run, id, false), Read(s).value)
  {
    var s := After(s0, run);
    EveryFlightHolds(s0, run, id);
    if s.flights[id].stage.progress.Resolved? && Read(s).Some? {
      MergedSaysSo(s.flights[id].token, Arrivals(run, id, false), Read(s).value);
    }
  }

  /** And whenever a forced refresh ends with success, with the metadata of the session it had read. */
  lemma ForcedStoresWhatWasSaid(s0: State, run: seq<Event>, id: nat)
    requires Initial(s0) && Possible(s0, run) && Enabled(After(s0, run), DirectEnds(id))
    ensures var s, t := After(s0, run), Next(After(s0, run), DirectEnds(id));
            if s.directs[id].progress.Rejected? then t.stored == s.stored && t.changes == s.changes
            else
              && t.stored.Some? && s.directs[id].session.refreshToken.Some?
              && SaysSo(t.stored.value, s.directs[id].session.refreshToken.value, Arrivals(run, id, true), s.directs[id].session)
  {
    var s := After(s0, run);
    EveryDirectHolds(s0, run, id);
    if s.directs[id].progress.Resolved? {
      MergedSaysSo(s.directs[id].session.refreshToken.value, Arrivals(run, id, true), s.directs[id].session);
    }
  }

  // ---------- the normal form of stored sessions ----------

  predicate Trimmed(s: string) {
    s != "" && !IsJsSpace(s[0]) && !IsJsSpace(s[|s| - 1])
  }

  predicate TrimmedIfAny(o: Option<string>) {
    o.Some? ==> Trimmed(o.value)
  }

  /** A stored session is read back as it is if and only if none of its texts is blank or has white space around it. */
  lemma NormalExactly(raw: Session)
    ensures Normalize(raw) == Some(raw)
            <==> Trimmed(raw.accessToken) && TrimmedIfAny(raw.refreshToken) && TrimmedIfAny(raw.email)
  {
    TrimmedExactly(raw.accessToken);
    TrimmedExactly(raw.refreshToken.GetOr(""));
    TrimmedExactly(raw.email.GetOr(""));
  }

  lemma TrimmedExactly(s: string)
    ensures Trim(s, IsJsSpace) == s && s != "" <==> Trimmed(s)
  {
    TrimSpec(s, IsJsSpace);
    if Trimmed(s) {
      TrimKeeps(s, IsJsSpace);
    }
  }

  /** Other sessions are trimmed field by field; without an access token there is none. */
  lemma NormalizeTrims(raw: Session)
    ensures Normalize(raw).None? <==> forall i :: 0 <= i < |raw.accessToken| ==> IsJsSpace(raw.accessToken[i])
    ensures Normalize(raw).Some? ==>
              var n := Normalize(raw).value;
              && n.accessToken != "" && n.accessToken == Trim(raw.accessToken, IsJsSpace)
              && n.expiresAt == raw.expiresAt && n.emailVerified == raw.emailVerified
              && (n.refreshToken.Some? <==> raw.refreshToken.Some? && raw.refreshToken.value != "")
              && (n.refreshToken.Some? ==> n.refreshToken.value == Trim(raw.refreshToken.value, IsJsSpace))
              && (n.email.Some? <==> raw.email.Some? && raw.email.value != "")
              && (n.email.Some? ==> n.email.value == Trim(raw.email.value, IsJsSpace))
  {
    var i, j := TrimExactly(raw.accessToken, IsJsSpace);
    if Trim(raw.accessToken, IsJsSpace) == "" {
      assert i == j;
    } else {
      assert !IsJsSpace(raw.accessToken[i]);
    }
  }

  // ---------- which requests a refresh makes ----------

  predicate Refused(reply: Reply) {
    reply.TokenError? || (reply.TokenPayload? && (!reply.ok || reply.errorMessage != "" || reply.idToken == ""))
  }

  /** A refresh fails if and only if the last reply it took refuses a token; failing lookups never fail it. */
  lemma {:induction false} RejectsExactly(p: Progress, arrivals: seq<Arrival>)
    requires Pending(p) && Consumed(p, arrivals) == |arrivals|
    ensures Dialogue(p, arrivals).Rejected? <==> arrivals != [] && Refused(arrivals[|arrivals| - 1].reply)
    decreases |arrivals|
  {
    if arrivals != [] {
      var q := Advance(p, arrivals[0].reply, arrivals[0].now);
      if Pending(q) {
        RejectsExactly(q, arrivals[1..]);
      } else {
        assert arrivals[1..] == [];
      }
    }
  }

  /** The token claims a verified address. */
  predicate ClaimsVerified(reply: Reply)
    requires reply.TokenPayload?
  {
    reply.claims.emailVerified == Some(true) && reply.claims.email.Some? && reply.claims.email.value != ""
  }

  /**
   * After a token, the account is looked up if and only if the token does not claim a verified address. After the
   * lookup a second token is asked for if and only if it is the first one, the account is verified and the token
   * did not say so; it is asked for with the last rotated refresh token.
   */
  lemma AsksExactly(token: string, attempt: nat, a: Arrival, b: Arrival)
    requires a.reply.TokenPayload? && !Refused(a.reply) && (b.reply.LookupError? || b.reply.LookupPayload?)
    ensures var p := AwaitToken(token, attempt);
            && (Dialogue(p, [a]).AwaitLookup? <==> !ClaimsVerified(a.reply))
            && (Dialogue(p, [a]).Resolved? <==> ClaimsVerified(a.reply))
            && (!ClaimsVerified(a.reply) ==>
                  && (Dialogue(p, [a, b]).AwaitToken? <==>
                        attempt == 0 && LookedUp([a, b]) && b.reply.emailVerified == Some(true)
                        && a.reply.claims.emailVerified != Some(true))
                  && (Dialogue(p, [a, b]).AwaitToken? ==> Dialogue(p, [a, b]) == AwaitToken(LastRotated(token, [a, b]), 1))
                  && (Dialogue(p, [a, b]).AwaitToken? || Dialogue(p, [a, b]).Resolved?))
  {
    var p := AwaitToken(token, attempt);
    assert [a][1..] == [] && [a, b][1..] == [b] && [b][1..] == [];
    assert [a, b][..1] == [a] && [a][..0] == [];
    assert LastRotated(token, [a, b]) == LastRotated(token, [a]);
    assert LastRotated(token, []) == token;
    var q := Advance(p, a.reply, a.now);
    assert Dialogue(p, [a]) == Dialogue(q, [a][1..]) == q;
    assert Dialogue(p, [a, b]) == Dialogue(q, [a, b][1..]) == Dialogue(q, [b]);
    if q.AwaitLookup? {
      assert Dialogue(q, [b]) == Dialogue(Advance(q, b.reply, b.now), [b][1..]) == Advance(q, b.reply, b.now);
    }
  }

  // ---------- legacy tokens ----------

  predicate Blank(s: string) {
    forall i :: 0 <= i < |s| ==> IsJsSpace(s[i])
  }

  lemma BlankExactly(s: string)
    ensures Trim(s, IsJsSpace) == "" <==> Blank(s)
  {
    var i, j := TrimExactly(s, IsJsSpace);
    if Trim(s, IsJsSpace) != "" {
      assert !IsJsSpace(s[i]);
    }
  }

  /** A legacy token is migrated if and only if nothing is stored and it is not blank; a blank one of the tab hides that of the browser. */
  lemma MigratesExactly(s: State)
    ensures var t := Migrated(s);
            && (t != s <==> Read(s).None? && if s.sessionLegacy.Some? then !Blank(s.sessionLegacy.value)
                                             else s.localLegacy.Some? && !Blank(s.localLegacy.value))
            && (t != s ==>
                  && t.sessionLegacy.None? && t.localLegacy.None? && t.inFlight == s.inFlight
                  && t.stored == Some(Session(Trim(if s.sessionLegacy.Some? then s.sessionLegacy.value else s.localLegacy.value, IsJsSpace),
                                              None, None, None, None)))
  {
    BlankExactly(s.sessionLegacy.GetOr(""));
    BlankExactly(s.localLegacy.GetOr(""));
  }

  predicate Legacy(before: State, after: State) {
    && after.changes >= before.changes
    && (after.changes == before.changes ==>
          after.stored == before.stored && after.sessionLegacy == before.sessionLegacy && after.localLegacy == before.localLegacy)
    && (after.changes > before.changes ==> after.sessionLegacy.None? && after.localLegacy.None?)
  }

  lemma LegacyStep(s: State, e: Event)
    requires Enabled(s, e)
    ensures Legacy(s, Next(s, e))
  {
    assert Legacy(s, Migrated(s));
    match e
    case FlightSettles(id) =>
      var progress := s.flights[id].stage.progress;
      if progress.Resolved? {
        assert Legacy(s, SettleResolved(s, id, progress.session));
      } else {
        assert Legacy(s, SettleRejected(s, id));
      }
    case _ =>
  }

  /** Over every run, legacy tokens are there as long as nothing was ever stored or cleared, and never again. */
  lemma {:induction false} LegacyOnlyBefore(s0: State, run: seq<Event>)
    requires Possible(s0, run)
    ensures Legacy(s0, After(s0, run))
  {
    if run != [] {
      LegacyOnlyBefore(s0, run[..|run| - 1]);
      LegacyStep(After(s0, run[..|run| - 1]), run[|run| - 1]);
    }
  }
}
