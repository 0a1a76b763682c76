/** In every run, each pending refresh holds its own dialogue with the token endpoint, undisturbed by the others. */
module AuthDialogues {
  import opened Wrappers
  import opened Text
  import opened AuthSession
  import opened AuthRefresh

  /** The replies to one refresh, in order of arrival: of flight id, or of forced refresh id. */
  function Arrivals(run: seq<Event>, id: nat, forced: bool): seq<Arrival> {
    if run == [] then []
    else
      var before, e := Arrivals(run[..|run| - 1], id, forced), run[|run| - 1];
      if e.FlightReply? && e.id == id && !forced then before + [Arrival(e.reply, e.now)]
      else if e.DirectReply? && e.id == id && forced then before + [Arrival(e.reply, e.now)]
      else before
  }

  /** p is where the dialogue that starts with a token is after taking all those replies. */
  predicate Holds(p: Progress, token: string, arrivals: seq<Arrival>) {
    && p == Dialogue(AwaitToken(token, 0), arrivals)
    && Consumed(AwaitToken(token, 0), arrivals) == |arrivals|
  }

  lemma {:induction false} DialogueNext(p: Progress, arrivals: seq<Arrival>, a: Arrival)
    requires Consumed(p, arrivals) == |arrivals| && Expects(Dialogue(p, arrivals), a.reply)
    ensures Dialogue(p, arrivals + [a]) == Advance(Dialogue(p, arrivals), a.reply, a.now)
    ensures Consumed(p, arrivals + [a]) == |arrivals| + 1
    decreases |arrivals|
  {
    var more := arrivals + [a];
    if arrivals == [] {
      assert more[1..] == [];
    } else {
      assert more[0] == arrivals[0] && more[1..] == arrivals[1..] + [a];
      DialogueNext(Advance(p, arrivals[0].reply, arrivals[0].now), arrivals[1..], a);
    }
  }

  /** Flight id: not started, with no reply yet; or holding its dialogue until it has settled. */
  predicate FlightHolds(s: State, id: nat, arrivals: seq<Arrival>) {
    && (id >= s.nextId ==> arrivals == [] && id !in s.flights)
    && (id in s.flights && s.flights[id].stage.Running? ==> Holds(s.flights[id].stage.progress, s.flights[id].token, arrivals))
  }

  predicate DirectHolds(s: State, id: nat, arrivals: seq<Arrival>) {
    && (id >= s.nextId ==> arrivals == [] && id !in s.directs)
    && (id in s.directs ==>
          && s.directs[id].session.refreshToken.Some?
          && Holds(s.directs[id].progress, s.directs[id].session.refreshToken.value, arrivals))
  }

  lemma FlightHoldsStep(s: State, e: Event, id: nat, arrivals: seq<Arrival>)
    requires Enabled(s, e) && FlightHolds(s, id, arrivals)
    ensures FlightHolds(Next(s, e), id,
                        if e.FlightReply? && e.id == id then arrivals + [Arrival(e.reply, e.now)] else arrivals)
  {
    if e.FlightReply? && e.id == id {
      DialogueNext(AwaitToken(s.flights[id].token, 0), arrivals, Arrival(e.reply, e.now));
    }
  }

  lemma DirectHoldsStep(s: State, e: Event, id: nat, arrivals: seq<Arrival>)
    requires Enabled(s, e) && DirectHolds(s, id, arrivals)
    ensures DirectHolds(Next(s, e), id,
                        if e.DirectReply? && e.id == id then arrivals + [Arrival(e.reply, e.now)] else arrivals)
  {
    if e.DirectReply? && e.id == id {
      DialogueNext(AwaitToken(s.directs[id].session.refreshToken.value, 0), arrivals, Arrival(e.reply, e.now));
    }
  }

  lemma {:induction false} EveryFlightHolds(s0: State, run: seq<Event>, id: nat)
    requires Initial(s0) && Possible(s0, run)
    ensures FlightHolds(After(s0, run), id, Arrivals(run, id, false))
  {
    if run != [] {
      EveryFlightHolds(s0, run[..|run| - 1], id);
      FlightHoldsStep(After(s0, run[..|run| - 1]), run[|run| - 1], id, Arrivals(run[..|run| - 1], id, false));
    }
  }

  lemma {:induction false} EveryDirectHolds(s0: State, run: seq<Event>, id: nat)
    requires Initial(s0) && Possible(s0, run)
    ensures DirectHolds(After(s0, run), id, Arrivals(run, id, true))
  {
    if run != [] {
      EveryDirectHolds(s0, run[..|run| - 1], id);
      DirectHoldsStep(After(s0, run[..|run| - 1]), run[|run| - 1], id, Arrivals(run[..|run| - 1], id, true));
    }
  }

  /**
   * Over every interleaving, each pending refresh has sent at most two token requests, and once it has resolved
   * it carries the last non-blank rotated token among the replies to it, else the token it was started with.
   */
  lemma PendingRefreshBounds(s0: State, run: seq<Event>, id: nat)
    requires Initial(s0) && Possible(s0, run)
    requires id in After(s0, run).flights && After(s0, run).flights[id].stage.Running?
    ensures var flight, arrivals := After(s0, run).flights[id], Arrivals(run, id, false);
            && flight.stage.progress == Dialogue(AwaitToken(flight.token, 0), arrivals)
            && TokenRequests(AwaitToken(flight.token, 0), arrivals) <= 2
            && (flight.stage.progress.Resolved? ==>
                  flight.stage.progress.session.refreshToken == Some(LastRotated(flight.token, arrivals)))
  {
    EveryFlightHolds(s0, run, id);
    Bounds(After(s0, run).flights[id].token, Arrivals(run, id, false));
  }

  /** The same for a forced refresh and the token of the session it read. */
  lemma ForcedRefreshBounds(s0: State, run: seq<Event>, id: nat)
    requires Initial(s0) && Possible(s0, run) && id in After(s0, run).directs
    ensures var direct, arrivals := After(s0, run).directs[id], Arrivals(run, id, true);
            && direct.session.refreshToken.Some?
            && var token := direct.session.refreshToken.value;
            && direct.progress == Dialogue(AwaitToken(token, 0), arrivals)
            && TokenRequests(AwaitToken(token, 0), arrivals) <= 2
            && (direct.progress.Resolved? ==> direct.progress.session.refreshToken == Some(LastRotated(token, arrivals)))
  {
    EveryDirectHolds(s0, run, id);
    Bounds(After(s0, run).directs[id].session.refreshToken.value, Arrivals(run, id, true));
  }

  lemma Bounds(token: string, arrivals: seq<Arrival>)
    requires Consumed(AwaitToken(token, 0), arrivals) == |arrivals|
    ensures TokenRequests(AwaitToken(token, 0), arrivals) <= 2
    ensures var p := Dialogue(AwaitToken(token, 0), arrivals);
            p.Resolved? ==> p.session.refreshToken == Some(LastRotated(token, arrivals))
  {
    AtMostTwoTokenRequests(token, arrivals);
    if Dialogue(AwaitToken(token, 0), arrivals).Resolved? {
      ResolvesWithLastRotatedToken(token, arrivals);
      assert arrivals[..|arrivals|] == arrivals;
    }
  }
}
