/** Who is served first in the netting of an item, and from what (backend/app/service.py). */
module PlanningOrder {
  import opened Wrappers
  import opened Sums
  import opened StableSort
  import opened PlanningSources
  import opened PlanningNetting
  import opened PlanningTheorems
  import opened PlanningLaws
  import opened PlanningTiming

  // ---------- the order of events ----------

  /** The first difference decides, and a beginning comes before what it begins. */
  ghost predicate Before(a: string, b: string) {
    exists k :: 0 <= k <= |a| && DiffersAt(a, b, k)
  }

  predicate DiffersAt(a: string, b: string, k: nat)
    requires k <= |a|
  {
    k < |b| && a[..k] == b[..k] && (k < |a| ==> a[k] < b[k])
  }

  lemma {:induction false} CompareTextExactly(a: string, b: string)
    ensures CompareText(a, b) < 0 <==> Before(a, b)
  {
    if a == "" || b == "" || a[0] != b[0] {
      if CompareText(a, b) < 0 {
        assert DiffersAt(a, b, 0);
      }
      if k: nat :| k <= |a| && DiffersAt(a, b, k) {
        if k > 0 {
          FirstAgrees(a, b, k);
        }
      }
    } else {
      CompareTextExactly(a[1..], b[1..]);
      if k: nat :| k <= |a| && DiffersAt(a, b, k) {
        assert k > 0;
        FirstAgrees(a, b, k);
      }
      if k: nat :| k <= |a[1..]| && DiffersAt(a[1..], b[1..], k) {
        assert a[..k + 1] == [a[0]] + a[1..][..k] && b[..k + 1] == [b[0]] + b[1..][..k];
        assert DiffersAt(a, b, k + 1);
      }
    }
  }

  lemma FirstAgrees(a: string, b: string, k: nat)
    requires 0 < k <= |a| && DiffersAt(a, b, k)
    ensures a != "" && b != "" && a[0] == b[0] && DiffersAt(a[1..], b[1..], k - 1)
  {
    assert a[..k][0] == b[..k][0];
    assert a[1..][..k - 1] == a[..k][1..] && b[1..][..k - 1] == b[..k][1..];
  }

  /** Day by day; on one day own supply, supply for everyone, starts; and each of them in planning order. */
  ghost predicate InOrder(a: Event, b: Event) {
    && (a.date == b.date || Before(a.date, b.date))
    && (a.date == b.date ==>
          && (b.Dedicated? ==> a.Dedicated?) && (a.Demand? ==> b.Demand?)
          && (a.Dedicated? == b.Dedicated? && a.Demand? == b.Demand? ==> a.rank < b.rank || (a.rank == b.rank && a.ref <= b.ref)))
  }

  lemma OrderedPair(a: Event, b: Event)
    requires EventOrder(a, b) <= 0
    ensures InOrder(a, b)
  {
    CompareTextExactly(a.date, b.date);
    CompareTextMirrors(a.date, b.date);
  }

  /** All supplies and demands, each once, in that order. */
  lemma EventsInOrder(projects: seq<Project>, required: map<ProjectId, int>, supplies: seq<Event>)
    ensures var events := EventsOf(projects, required, supplies);
            && multiset(events) == multiset(supplies + Demands(projects, required))
            && forall i, j :: 0 <= i < j < |events| ==> InOrder(events[i], events[j])
  {
    var events := EventsOf(projects, required, supplies);
    EventOrderConsistent();
    SortSorts(EventOrder, supplies + Demands(projects, required));
    forall i, j | 0 <= i < j < |events| ensures InOrder(events[i], events[j]) {
      OrderedPair(events[i], events[j]);
    }
  }

  /** A project that asks has its demand among them, on the day of its start and with its place in the planning. */
  lemma {:induction false} DemandListed(projects: seq<Project>, required: map<ProjectId, int>, i: nat)
    requires i < |projects| && Asks(required, projects[i].id)
    ensures Demand(projects[i].start, i, projects[i].id, projects[i].id) in Demands(projects, required)
  {
    if i < |projects| - 1 {
      DemandListed(projects[..|projects| - 1], required, i);
    }
  }

  lemma DemandIndex(projects: seq<Project>, required: map<ProjectId, int>, supplies: seq<Event>, i: nat) returns (k: nat)
    requires i < |projects| && Asks(required, projects[i].id)
    ensures var events := EventsOf(projects, required, supplies);
            k < |events| && events[k] == Demand(projects[i].start, i, projects[i].id, projects[i].id)
  {
    var e, events := Demand(projects[i].start, i, projects[i].id, projects[i].id), EventsOf(projects, required, supplies);
    DemandListed(projects, required, i);
    EventsInOrder(projects, required, supplies);
    assert e in multiset(supplies + Demands(projects, required));
    assert e in multiset(events);
    k :| 0 <= k < |events| && events[k] == e;
  }

  // ---------- what does not change after a start ----------

  lemma {:induction false} PrefixSome(ids: seq<ProjectId>, p: Plan, events: seq<Event>, k: nat)
    requires After(ids, p, events).Some? && k <= |events|
    ensures After(ids, p, events[..k]).Some?
    ensures k < |events| ==> Known(After(ids, p, events[..k]).value, events[k])
                             && After(ids, p, events[..k + 1]) == Some(Step(ids, After(ids, p, events[..k]).value, events[k]))
    decreases |events|
  {
    if k == |events| {
      assert events[..k] == events;
    } else {
      if k == |events| - 1 {
        assert events[..k + 1] == events;
      } else {
        assert events[..|events| - 1][..k + 1] == events[..k + 1];
      }
      PrefixSome(ids, p, events[..|events| - 1], k);
      assert events[..|events| - 1][..k] == events[..k];
    }
  }

  /** The figures of a start. */
  predicate SameStart(a: Metric, b: Metric) {
    && a.shortage == b.shortage && a.covered == b.covered && a.genericAllocated == b.genericAllocated
    && a.dedicatedByStart == b.dedicatedByStart && a.genericAvailable == b.genericAvailable && a.supply == b.supply
    && (a.backlog <= 0 ==> b.backlog <= 0)
  }

  lemma {:induction false} RecoveredAllSameStart(projects: seq<ProjectId>, metrics: map<ProjectId, Metric>, arrived: seq<Source>, id: ProjectId)
    requires id in metrics
    ensures SameStart(metrics[id], RecoveredAll(projects, metrics, arrived).0[id])
    decreases |projects|
  {
    if projects != [] {
      if projects[0] in metrics {
        var m := Recovered(metrics[projects[0]], arrived, false);
        RecoveredAllSameStart(projects[1..], metrics[projects[0] := m], LeftOver(metrics[projects[0]], arrived), id);
      } else {
        RecoveredAllSameStart(projects[1..], metrics, arrived, id);
      }
    }
  }

  lemma StepSameStart(ids: seq<ProjectId>, p: Plan, e: Event, id: ProjectId)
    requires Known(p, e) && id in p.metrics && !(e.Demand? && e.project == id)
    ensures SameStart(p.metrics[id], Step(ids, p, e).metrics[id])
  {
    if e.Generic? {
      RecoveredAllSameStart(ids, p.metrics, [e.source], id);
    }
  }

  lemma {:induction false} StartStays(ids: seq<ProjectId>, p: Plan, events: seq<Event>, n: nat, k: nat, id: ProjectId)
    requires After(ids, p, events).Some? && n <= k <= |events| && id in p.metrics
    requires forall j :: n <= j < k ==> !(events[j].Demand? && events[j].project == id)
    ensures After(ids, p, events[..n]).Some? && After(ids, p, events[..k]).Some?
    ensures id in After(ids, p, events[..n]).value.metrics && id in After(ids, p, events[..k]).value.metrics
    ensures SameStart(After(ids, p, events[..n]).value.metrics[id], After(ids, p, events[..k]).value.metrics[id])
  {
    if n == k {
      PrefixSome(ids, p, events, n);
      MetricsStay(ids, p, events[..n]);
    } else {
      StartStays(ids, p, events, n, k - 1, id);
      var before, after := Around(ids, p, events, k - 1);
      StepSameStart(ids, before, events[k - 1], id);
    }
  }

  /** The plan before and after event k. */
  lemma Around(ids: seq<ProjectId>, p: Plan, events: seq<Event>, k: nat) returns (before: Plan, after: Plan)
    requires After(ids, p, events).Some? && k < |events|
    ensures After(ids, p, events[..k]) == Some(before) && After(ids, p, events[..k + 1]) == Some(after)
    ensures Known(before, events[k]) && after == Step(ids, before, events[k])
    ensures before.metrics.Keys == after.metrics.Keys == p.metrics.Keys
  {
    PrefixSome(ids, p, events, k);
    before, after := After(ids, p, events[..k]).value, After(ids, p, events[..k + 1]).value;
    MetricsStay(ids, p, events[..k]);
    MetricsStay(ids, p, events[..k + 1]);
  }

  /** While projects start, the pool is only drawn on. */
  lemma {:induction false} PoolDrawn(ids: seq<ProjectId>, p: Plan, events: seq<Event>, n: nat, k: nat)
    requires After(ids, p, events).Some? && n <= k <= |events| && forall j :: n <= j < k ==> events[j].Demand?
    ensures After(ids, p, events[..n]).Some? && After(ids, p, events[..k]).Some?
    ensures After(ids, p, events[..k]).value.pool != [] ==> After(ids, p, events[..n]).value.pool != []
  {
    if n == k {
      PrefixSome(ids, p, events, n);
    } else {
      PoolDrawn(ids, p, events, n, k - 1);
      var before, after := Around(ids, p, events, k - 1);
      DemandDraws(ids, before, events[k - 1]);
    }
  }

  lemma DemandDraws(ids: seq<ProjectId>, p: Plan, e: Event)
    requires e.Demand? && Known(p, e)
    ensures Step(ids, p, e).pool != [] ==> p.pool != []
  {
    RestOfNothing(Unfilled(p.metrics[e.project], ReadyFor(p, e.project)));
  }

  lemma PrefixStartsOnce(events: seq<Event>, k: nat)
    requires StartsOnce(events) && k <= |events|
    ensures StartsOnce(events[..k])
  {
  }

  // ---------- who is served first ----------

  /** A project drew on the pool at event k: there was something in it, and so nobody in the plan was waiting. */
  lemma DrewOnPool(ids: seq<ProjectId>, p: Plan, events: seq<Event>, k: nat)
    requires After(ids, p, events).Some? && Sound(p, {}) && StartsOnce(events) && (forall id :: id in p.metrics ==> id in ids)
    requires k < |events| && events[k].Demand? && events[k].project in p.metrics
    ensures After(ids, p, events[..k]).Some? && After(ids, p, events[..k + 1]).Some?
    ensures events[k].project in After(ids, p, events[..k + 1]).value.metrics
    ensures After(ids, p, events[..k + 1]).value.metrics[events[k].project].genericAllocated > 0 ==>
              After(ids, p, events[..k]).value.pool != []
              && forall id :: id in p.metrics ==> id in After(ids, p, events[..k]).value.metrics
                                                  && After(ids, p, events[..k]).value.metrics[id].backlog <= 0
  {
    PrefixSome(ids, p, events, k);
    PrefixStartsOnce(events, k);
    StaysSound(ids, p, events[..k]);
    MetricsStay(ids, p, events[..k]);
    var before := After(ids, p, events[..k]).value;
    var m, own := before.metrics[events[k].project], ReadyFor(before, events[k].project);
    NothingConsumed(Unfilled(m, own));
  }

  lemma NothingConsumed(quantity: int)
    ensures Consumed([], quantity) == [] && Amount(Any, []) == 0
  {
  }

  /** Whoever started before that, is not left waiting at the end. */
  lemma NotWaiting(ids: seq<ProjectId>, p: Plan, events: seq<Event>, b: nat, id: ProjectId)
    requires After(ids, p, events).Some? && Sound(p, {}) && StartsOnce(events) && (forall id :: id in p.metrics ==> id in ids)
    requires b < |events| && events[b].Demand? && events[b].project in p.metrics && id in p.metrics
    requires forall k :: b <= k < |events| ==> !(events[k].Demand? && events[k].project == id)
    ensures After(ids, p, events[..b + 1]).Some? && events[b].project in After(ids, p, events[..b + 1]).value.metrics
    ensures id in After(ids, p, events).value.metrics
    ensures After(ids, p, events[..b + 1]).value.metrics[events[b].project].genericAllocated > 0 ==>
              After(ids, p, events).value.metrics[id].backlog <= 0
  {
    assert events[..|events|] == events;
    DrewOnPool(ids, p, events, b);
    StartStays(ids, p, events, b, |events|, id);
  }

  /** The part of the claim that only looks at events: a's demand before b's. */
  lemma ServedInOrder(ids: seq<ProjectId>, p: Plan, events: seq<Event>, a: nat, b: nat)
    requires After(ids, p, events).Some? && Sound(p, {}) && StartsOnce(events) && (forall id :: id in p.metrics ==> id in ids)
    requires a < b < |events| && events[a].Demand? && events[b].Demand?
    requires events[a].project in p.metrics && events[b].project in p.metrics
    ensures var t := After(ids, p, events).value;
            && events[a].project in t.metrics && events[b].project in t.metrics
            && (t.metrics[events[b].project].genericAllocated > 0 ==> t.metrics[events[a].project].backlog <= 0)
            && (t.metrics[events[b].project].genericAllocated > 0 && (forall k :: a < k < b ==> events[k].Demand?) ==>
                  t.metrics[events[a].project].shortage <= 0)
  {
    NotWaiting(ids, p, events, b, events[a].project);
    AllocatedStays(ids, p, events, b);
    if forall k :: a < k < b ==> events[k].Demand? {
      DrewOnPool(ids, p, events, b);
      NotShort(ids, p, events, a, b);
    }
  }

  lemma AllocatedStays(ids: seq<ProjectId>, p: Plan, events: seq<Event>, b: nat)
    requires After(ids, p, events).Some? && StartsOnce(events)
    requires b < |events| && events[b].Demand? && events[b].project in p.metrics
    ensures After(ids, p, events[..b + 1]).Some?
    ensures var x, t := After(ids, p, events[..b + 1]).value, After(ids, p, events).value;
            && events[b].project in x.metrics && events[b].project in t.metrics
            && t.metrics[events[b].project].genericAllocated == x.metrics[events[b].project].genericAllocated
  {
    assert events[..|events|] == events;
    StartStays(ids, p, events, b + 1, |events|, events[b].project);
  }

  /** If only projects start in between and something is left in the pool, the first one was not short. */
  lemma NotShort(ids: seq<ProjectId>, p: Plan, events: seq<Event>, a: nat, b: nat)
    requires After(ids, p, events).Some? && Sound(p, {}) && StartsOnce(events) && (forall id :: id in p.metrics ==> id in ids)
    requires a < b <= |events| && events[a].Demand? && events[a].project in p.metrics
    requires forall k :: a < k < b ==> events[k].Demand?
    ensures After(ids, p, events[..b]).Some? && events[a].project in After(ids, p, events).value.metrics
    ensures After(ids, p, events[..b]).value.pool != [] ==> After(ids, p, events).value.metrics[events[a].project].shortage <= 0
  {
    assert events[..|events|] == events;
    var t := JustStarted(ids, p, events, a);
    StartStays(ids, p, events, a + 1, |events|, events[a].project);
    PoolDrawn(ids, p, events, a + 1, b);
  }

  /** Right after its start a project is short only if nothing is left in the pool. */
  lemma JustStarted(ids: seq<ProjectId>, p: Plan, events: seq<Event>, a: nat) returns (t: Plan)
    requires After(ids, p, events).Some? && Sound(p, {}) && StartsOnce(events) && (forall id :: id in p.metrics ==> id in ids)
    requires a < |events| && events[a].Demand? && events[a].project in p.metrics
    ensures After(ids, p, events[..a + 1]) == Some(t) && events[a].project in t.metrics
    ensures t.pool != [] ==> t.metrics[events[a].project].shortage <= 0
  {
    var before;
    before, t := Around(ids, p, events, a);
    PrefixStartsOnce(events, a + 1);
    StaysSound(ids, p, events[..a + 1]);
    var m := t.metrics[events[a].project];
    assert m.shortage == m.backlog;
    assert Idle(t.pool, m.backlog);
  }

  /**
   * Of two projects that ask, if the one that starts later, or on the same day and later in the planning, is given
   * anything from the pool, then the earlier one is not left waiting; and if they start on the same day, it is not
   * even short at its start.
   */
  lemma EarlierStartServedFirst(projects: seq<Project>, required: map<ProjectId, int>, stock: int, supplies: seq<Event>, i: nat, j: nat)
    requires Given(projects, required, supplies) && Netted(projects, required, stock, supplies).Some?
    requires i < |projects| && j < |projects| && i != j && projects[i].id in required && projects[j].id in required
    requires if projects[i].start == projects[j].start then i < j else Before(projects[i].start, projects[j].start)
    ensures var t := Netted(projects, required, stock, supplies).value;
            && projects[i].id in t.metrics && projects[j].id in t.metrics
            && (t.metrics[projects[j].id].genericAllocated > 0 ==>
                  && t.metrics[projects[i].id].backlog <= 0
                  && (projects[i].start == projects[j].start ==> t.metrics[projects[i].id].shortage <= 0))
  {
    var ids, p, events := IdsOf(projects), Start(required, stock), EventsOf(projects, required, supplies);
    NettingBalances(projects, required, stock, supplies, projects[i].id);
    NettingBalances(projects, required, stock, supplies, projects[j].id);
    if Asks(required, projects[i].id) && Asks(required, projects[j].id) {
      var a := DemandIndex(projects, required, supplies, i);
      var b := DemandIndex(projects, required, supplies, j);
      StartIsSound(required, stock);
      EventsStartOnce(projects, required, supplies);
      DemandsApart(projects, required, supplies, i, j, a, b);
      ServedInOrder(ids, p, events, a, b);
    }
  }

  lemma DemandsApart(projects: seq<Project>, required: map<ProjectId, int>, supplies: seq<Event>, i: nat, j: nat, a: nat, b: nat)
    requires i < |projects| && j < |projects| && i != j
    requires if projects[i].start == projects[j].start then i < j else Before(projects[i].start, projects[j].start)
    requires var events := EventsOf(projects, required, supplies);
             && a < |events| && events[a] == Demand(projects[i].start, i, projects[i].id, projects[i].id)
             && b < |events| && events[b] == Demand(projects[j].start, j, projects[j].id, projects[j].id)
    ensures a < b
    ensures var events := EventsOf(projects, required, supplies);
            projects[i].start == projects[j].start ==> forall k :: a < k < b ==> events[k].Demand?
  {
    var events := EventsOf(projects, required, supplies);
    EventsInOrder(projects, required, supplies);
    if b < a {
      assert InOrder(events[b], events[a]);
      CompareTextExactly(projects[i].start, projects[j].start);
      CompareTextExactly(projects[j].start, projects[i].start);
      CompareTextMirrors(projects[i].start, projects[j].start);
    }
    forall k | a < k < b && projects[i].start == projects[j].start ensures events[k].Demand? {
      assert InOrder(events[a], events[k]) && InOrder(events[k], events[b]);
      CompareTextExactly(events[a].date, events[k].date);
      CompareTextExactly(events[k].date, events[b].date);
      CompareTextMirrors(events[a].date, events[k].date);
    }
  }

  // ---------- from what ----------

  /** Supply of a project's own. */
  function Own(): Tag -> bool {
    (t: Tag) => t.projectId.Some?
  }

  lemma {:induction false} AmountOfOnly(chosen: Tag -> bool, sources: seq<Source>)
    ensures Only(chosen, sources) ==> Amount(chosen, sources) == Amount(Any, sources)
    ensures Only((t: Tag) => !chosen(t), sources) ==> Amount(chosen, sources) == 0
  {
    if sources != [] {
      AmountOfOnly(chosen, sources[1..]);
      if Only(chosen, sources) {
        assert Only(chosen, sources[1..]);
      }
      if Only((t: Tag) => !chosen(t), sources) {
        assert Only((t: Tag) => !chosen(t), sources[1..]);
        assert !chosen(sources[0].tag);
      }
    }
  }

  /** The figures by origin are those of the sources listed. */
  predicate ByOrigin(m: Metric) {
    && AllPositive(m.supply) && AllPositive(m.recovery)
    && Amount(Own(), m.supply) == m.dedicatedByStart && Amount(ForAll(), m.supply) == m.genericAllocated
    && Amount(Own(), m.recovery) == m.futureDedicated && Amount(ForAll(), m.recovery) == m.futureGeneric
  }

  ghost predicate Origins(p: Plan) {
    && Only(ForAll(), p.pool) && AllPositive(p.pool)
    && forall id :: id in p.metrics ==> ByOrigin(p.metrics[id]) && Only(Own(), ReadyFor(p, id)) && AllPositive(ReadyFor(p, id))
  }

  lemma OneOrigin(own: bool, sources: seq<Source>)
    requires if own then Only(Own(), sources) else Only(ForAll(), sources)
    ensures Amount(Own(), sources) == if own then Amount(Any, sources) else 0
    ensures Amount(ForAll(), sources) == if own then 0 else Amount(Any, sources)
  {
    AmountOfOnly(Own(), sources);
    AmountOfOnly(ForAll(), sources);
    if own {
      assert Only((t: Tag) => !ForAll()(t), sources);
    } else {
      assert Only((t: Tag) => !Own()(t), sources);
    }
  }

  lemma RecoveredByOrigin(m: Metric, arrived: seq<Source>, own: bool)
    requires ByOrigin(m) && if own then Only(Own(), arrived) else Only(ForAll(), arrived)
    ensures ByOrigin(Recovered(m, arrived, own))
    ensures if own then Only(Own(), LeftOver(m, arrived)) else Only(ForAll(), LeftOver(m, arrived))
  {
    if m.backlog > 0 {
      var got := Consumed(arrived, m.backlog);
      ConsumedTags(if own then Own() else ForAll(), arrived, m.backlog);
      ConsumedConserves(Any, arrived, m.backlog);
      OneOrigin(own, got);
      PositiveIs(got);
      AppendedAmount(Own(), m.recovery, got);
      AppendedAmount(ForAll(), m.recovery, got);
      AppendedKeeps(Any, m.recovery, got);
    }
  }

  lemma {:induction false} RecoveredAllByOrigin(projects: seq<ProjectId>, metrics: map<ProjectId, Metric>, arrived: seq<Source>)
    requires Only(ForAll(), arrived) && forall id :: id in metrics ==> ByOrigin(metrics[id])
    ensures var r := RecoveredAll(projects, metrics, arrived);
            Only(ForAll(), r.1) && forall id :: id in metrics ==> ByOrigin(r.0[id])
    decreases |projects|
  {
    if projects != [] {
      var id := projects[0];
      if id !in metrics {
        RecoveredAllByOrigin(projects[1..], metrics, arrived);
      } else {
        RecoveredByOrigin(metrics[id], arrived, false);
        RecoveredAllByOrigin(projects[1..], metrics[id := Recovered(metrics[id], arrived, false)], LeftOver(metrics[id], arrived));
      }
    }
  }

  lemma ServedByOrigin(m: Metric, available: int, dedicated: seq<Source>, generic: seq<Source>)
    requires ByOrigin(m) && m.supply == [] && Only(Own(), dedicated) && Only(ForAll(), generic)
    requires AllPositive(dedicated) && AllPositive(generic)
    ensures ByOrigin(Served(m, available, dedicated, generic))
  {
    var both := dedicated + generic;
    OneOrigin(true, dedicated);
    OneOrigin(false, generic);
    PositiveIs(both);
    AmountConcat(Own(), dedicated, generic);
    AmountConcat(ForAll(), dedicated, generic);
    AppendedAmount(Own(), m.supply, both);
    AppendedAmount(ForAll(), m.supply, both);
    AppendedKeeps(Any, m.supply, both);
  }

  lemma StepOrigins(ids: seq<ProjectId>, p: Plan, e: Event)
    requires Origins(p) && Known(p, e) && SaysWhose(e) && (e.Demand? ==> p.metrics[e.project].supply == [])
    ensures Origins(Step(ids, p, e))
  {
    match e
    case Dedicated(_, _, _, id, source) =>
      RecoveredByOrigin(p.metrics[id], [source], true);
      AppendedKeeps(Own(), ReadyFor(p, id), LeftOver(p.metrics[id], [source]));
    case Generic(_, _, _, source) =>
      RecoveredAllByOrigin(ids, p.metrics, [source]);
      AppendedKeeps(ForAll(), p.pool, RecoveredAll(ids, p.metrics, [source]).1);
    case Demand(_, _, _, id) =>
      var m, own := p.metrics[id], ReadyFor(p, id);
      ConsumedTags(Own(), own, m.required);
      ConsumedTags(ForAll(), p.pool, Unfilled(m, own));
      ConsumedConserves(Any, own, m.required);
      ConsumedConserves(Any, p.pool, Unfilled(m, own));
      ServedByOrigin(m, Amount(Any, p.pool), Consumed(own, m.required), Consumed(p.pool, Unfilled(m, own)));
  }

  lemma {:induction false} OriginsStay(ids: seq<ProjectId>, p: Plan, events: seq<Event>)
    requires Origins(p) && Sound(p, {}) && StartsOnce(events) && (forall id :: id in p.metrics ==> id in ids)
    requires (forall k :: 0 <= k < |events| ==> SaysWhose(events[k])) && After(ids, p, events).Some?
    ensures Origins(After(ids, p, events).value)
  {
    if events != [] {
      var front, e := events[..|events| - 1], events[|events| - 1];
      OriginsStay(ids, p, front);
      StaysSound(ids, p, front);
      MetricsStay(ids, p, front);
      assert events == front + [e];
      StartedNext(front, e);
      StepOrigins(ids, After(ids, p, front).value, e);
    }
  }

  /** What is reported as dedicated is the project's own supply, and what is reported as generic is everyone's. */
  lemma NettingByOrigin(projects: seq<Project>, required: map<ProjectId, int>, stock: int, supplies: seq<Event>, id: ProjectId)
    requires Given(projects, required, supplies) && Netted(projects, required, stock, supplies).Some? && id in required
    ensures var t := Netted(projects, required, stock, supplies).value;
            && id in t.metrics
            && var m := t.metrics[id];
            && Amount(Own(), m.supply) == m.dedicatedByStart && Amount(ForAll(), m.supply) == m.genericAllocated
            && Amount(Own(), m.recovery) == m.futureDedicated && Amount(ForAll(), m.recovery) == m.futureGeneric
  {
    var ids, p, events := IdsOf(projects), Start(required, stock), EventsOf(projects, required, supplies);
    StartIsSound(required, stock);
    EventsStartOnce(projects, required, supplies);
    EventsRight(projects, required, supplies);
    StartOrigins(required, stock);
    OriginsStay(ids, p, events);
    MetricsStay(ids, p, events);
  }

  lemma StartOrigins(required: map<ProjectId, int>, stock: int)
    ensures Origins(Start(required, stock))
  {
  }

  /**
   * When a project starts, what it finds in the pool is what it takes from there and what it leaves; it takes from
   * there only once its own supply is used up.
   */
  lemma StartFigures(ids: seq<ProjectId>, p: Plan, e: Event)
    requires Known(p, e) && e.Demand? && AllPositive(p.pool) && AllPositive(ReadyFor(p, e.project))
    ensures var t := Step(ids, p, e);
            var m := t.metrics[e.project];
            && m.genericAvailable == Amount(Any, p.pool) == m.genericAllocated + Amount(Any, t.pool)
            && m.dedicatedByStart + Amount(Any, ReadyFor(t, e.project)) == Amount(Any, ReadyFor(p, e.project))
            && (m.genericAllocated > 0 ==> ReadyFor(t, e.project) == [])
            && (m.shortage > 0 ==> ReadyFor(t, e.project) == [] && t.pool == [])
  {
    var m, own := p.metrics[e.project], ReadyFor(p, e.project);
    PositiveIs(own);
    PositiveIs(p.pool);
    ConsumedConserves(Any, own, m.required);
    ConsumedConserves(Any, p.pool, Unfilled(m, own));
    ConsumedTakes(own, m.required);
    ConsumedTakes(p.pool, Unfilled(m, own));
  }
}
