/** Stored sessions and the token endpoint dialogue of one refresh (frontend/src/lib/auth.ts). */
module AuthSession {
  import opened Wrappers
  import opened Text

  const EXPIRY_SAFETY_WINDOW_MS := 60_000

  /** A stored session. An absent or null property is None. */
  datatype Session = Session(
    accessToken: string,
    refreshToken: Option<string>,
    expiresAt: Option<int>,
    email: Option<string>,
    emailVerified: Option<bool>)

  predicate Truthy(o: Option<string>) {
    o.Some? && o.value != ""
  }

  function TrimIfTruthy(o: Option<string>): Option<string> {
    if Truthy(o) then Some(Trim(o.value, IsJsSpace)) else None
  }

  function Normalize(raw: Session): Option<Session> {
    var access := Trim(raw.accessToken, IsJsSpace);
    if access == "" then None
    else Some(Session(access, TrimIfTruthy(raw.refreshToken), raw.expiresAt, TrimIfTruthy(raw.email), raw.emailVerified))
  }

  predicate NeedsRefresh(session: Session, now: int) {
    && Truthy(session.refreshToken)
    && session.expiresAt.Some?
    && session.expiresAt.value != 0
    && session.expiresAt.value <= now + EXPIRY_SAFETY_WINDOW_MS
  }

  function ToExpiry(expiresIn: Option<int>, now: int): Option<int> {
    if expiresIn.None? || expiresIn.value <= 0 then None else Some(now + expiresIn.value * 1000)
  }

  function Else<T>(a: Option<T>, b: Option<T>): Option<T> {
    if a.Some? then a else b
  }

  /** `{ ...current, ...next }` with the two metadata fields falling back to the current ones. */
  function Merge(current: Session, next: Session): Session {
    next.(email := Else(next.email, current.email), emailVerified := Else(next.emailVerified, current.emailVerified))
  }

  // ---------- one refresh: at most two token requests and their lookups ----------

  datatype Claims = Claims(email: Option<string>, emailVerified: Option<bool>)

  /** What the network delivers. Absent JSON strings are "". The claims of the id token come with it. */
  datatype Reply =
    | TokenError
    | TokenPayload(ok: bool, errorMessage: string, idToken: string, refreshToken: string, expiresIn: Option<int>, claims: Claims)
    | LookupError
    | LookupPayload(ok: bool, errorMessage: string, email: string, emailVerified: Option<bool>)

  datatype Progress =
    | AwaitToken(token: string, attempt: nat)
    | AwaitLookup(idToken: string, nextToken: string, expiresIn: Option<int>, claims: Claims, attempt: nat)
    | Resolved(session: Session)
    | Rejected

  predicate Pending(p: Progress) {
    p.AwaitToken? || p.AwaitLookup?
  }

  predicate Expects(p: Progress, reply: Reply) {
    || (p.AwaitToken? && (reply.TokenError? || reply.TokenPayload?))
    || (p.AwaitLookup? && (reply.LookupError? || reply.LookupPayload?))
  }

  function Conclude(idToken: string, nextToken: string, expiresIn: Option<int>, claims: Claims, lookedUp: Option<Claims>, now: int): Session {
    var seen := lookedUp.GetOr(Claims(None, None));
    Session(idToken, Some(nextToken), ToExpiry(expiresIn, now), Else(seen.email, claims.email), Else(seen.emailVerified, claims.emailVerified))
  }

  /** The token to use from here on: the rotated one unless it is blank. */
  function Rotate(token: string, rotated: string): string {
    var trimmed := Trim(rotated, IsJsSpace);
    if trimmed == "" then token else trimmed
  }

  /** The continuation of refreshIdentityPlatformSession after one network reply. */
  function Advance(p: Progress, reply: Reply, now: int): Progress
    requires Expects(p, reply)
  {
    match p
    case AwaitToken(token, attempt) =>
      if reply.TokenError? || !reply.ok || reply.errorMessage != "" || reply.idToken == "" then Rejected
      else
        var next := Rotate(token, reply.refreshToken);
        if reply.claims.emailVerified != Some(true) || !Truthy(reply.claims.email)
        then AwaitLookup(reply.idToken, next, reply.expiresIn, reply.claims, attempt)
        else Resolved(Conclude(reply.idToken, next, reply.expiresIn, reply.claims, None, now))
    case AwaitLookup(idToken, next, expiresIn, claims, attempt) =>
      var lookedUp :=
        if reply.LookupError? || !reply.ok || reply.errorMessage != "" then None
        else
          var email := Trim(reply.email, IsJsSpace);
          Some(Claims(if email == "" then None else Some(email), reply.emailVerified));
      if attempt == 0 && lookedUp.Some? && lookedUp.value.emailVerified == Some(true) && claims.emailVerified != Some(true)
      then AwaitToken(next, 1)
      else Resolved(Conclude(idToken, next, expiresIn, claims, lookedUp, now))
  }

  /** A reply together with the clock at its arrival. */
  datatype Arrival = Arrival(reply: Reply, now: int)

  /** A dialogue takes replies while it is pending; further or unexpected arrivals are not consumed. */
  function Dialogue(p: Progress, arrivals: seq<Arrival>): Progress
    decreases |arrivals|
  {
    if arrivals == [] || !Expects(p, arrivals[0].reply) then p
    else Dialogue(Advance(p, arrivals[0].reply, arrivals[0].now), arrivals[1..])
  }

  /** Token requests still to be sent by the dialogue from p on, counting one that is outstanding. */
  function TokenRequests(p: Progress, arrivals: seq<Arrival>): nat
    decreases |arrivals|
  {
    (if p.AwaitToken? then 1 else 0) +
    if arrivals == [] || !Expects(p, arrivals[0].reply) then 0
    else TokenRequests(Advance(p, arrivals[0].reply, arrivals[0].now), arrivals[1..])
  }

  /** The last non-blank rotated refresh token among the token payloads, or the given one if there is none. */
  function LastRotated(token: string, arrivals: seq<Arrival>): string {
    if arrivals == [] then token
    else
      var last := arrivals[|arrivals| - 1].reply;
      if last.TokenPayload? && Trim(last.refreshToken, IsJsSpace) != "" then Trim(last.refreshToken, IsJsSpace)
      else LastRotated(token, arrivals[..|arrivals| - 1])
  }

  lemma {:induction false} LastRotatedFromFront(token: string, arrivals: seq<Arrival>)
    requires arrivals != []
    ensures LastRotated(token, arrivals) ==
            LastRotated(if arrivals[0].reply.TokenPayload? then Rotate(token, arrivals[0].reply.refreshToken) else token, arrivals[1..])
  {
    var init := arrivals[..|arrivals| - 1];
    if init != [] {
      LastRotatedFromFront(token, init);
      assert init[1..] == arrivals[1..][..|arrivals| - 2];
    }
  }

  /** One refresh sends at most two token requests, whatever is answered. */
  lemma {:induction false} AtMostTwoTokenRequests(token: string, arrivals: seq<Arrival>)
    ensures TokenRequests(AwaitToken(token, 0), arrivals) <= 2
  {
    RequestsBound(AwaitToken(token, 0), arrivals);
  }

  lemma {:induction false} RequestsBound(p: Progress, arrivals: seq<Arrival>)
    requires Pending(p)
    ensures TokenRequests(p, arrivals) <= (if p.AwaitToken? then 1 else 0) + (if p.attempt == 0 then 1 else 0)
    decreases |arrivals|
  {
    if arrivals != [] && Expects(p, arrivals[0].reply) {
      var q := Advance(p, arrivals[0].reply, arrivals[0].now);
      if Pending(q) {
        RequestsBound(q, arrivals[1..]);
      }
    }
  }

  /** The number of arrivals the dialogue takes. */
  function Consumed(p: Progress, arrivals: seq<Arrival>): (n: nat)
    ensures n <= |arrivals|
    decreases |arrivals|
  {
    if arrivals == [] || !Expects(p, arrivals[0].reply) then 0
    else 1 + Consumed(Advance(p, arrivals[0].reply, arrivals[0].now), arrivals[1..])
  }

  /** When a refresh resolves, its session carries the last non-blank rotated refresh token it was sent. */
  lemma {:induction false} ResolvesWithLastRotatedToken(token: string, arrivals: seq<Arrival>)
    requires Dialogue(AwaitToken(token, 0), arrivals).Resolved?
    ensures Dialogue(AwaitToken(token, 0), arrivals).session.refreshToken
            == Some(LastRotated(token, arrivals[..Consumed(AwaitToken(token, 0), arrivals)]))
  {
    CarriesRotatedToken(AwaitToken(token, 0), arrivals);
  }

  function CarriedToken(p: Progress): string
    requires Pending(p)
  {
    if p.AwaitToken? then p.token else p.nextToken
  }

  lemma {:induction false} CarriesRotatedToken(p: Progress, arrivals: seq<Arrival>)
    requires Pending(p) && Dialogue(p, arrivals).Resolved?
    ensures Dialogue(p, arrivals).session.refreshToken
            == Some(LastRotated(CarriedToken(p), arrivals[..Consumed(p, arrivals)]))
    decreases |arrivals|
  {
    var q := Advance(p, arrivals[0].reply, arrivals[0].now);
    var taken := arrivals[..Consumed(p, arrivals)];
    assert taken[1..] == arrivals[1..][..Consumed(q, arrivals[1..])];
    LastRotatedFromFront(CarriedToken(p), taken);
    if Pending(q) {
      CarriesRotatedToken(q, arrivals[1..]);
    }
  }
}
