/** Where supply goes in the netting of an item: it is conserved, stays with its project, and is counted in time. */
module PlanningLaws {
  import opened Wrappers
  import opened Sums
  import opened PlanningSources
  import opened PlanningNetting
  import opened PlanningTheorems

  predicate Distinct(projects: seq<ProjectId>) {
    forall i, j :: 0 <= i < j < |projects| ==> projects[i] != projects[j]
  }

  predicate Covers(projects: seq<ProjectId>, p: Plan) {
    (forall id :: id in p.metrics ==> id in projects) && (forall id :: id in p.ready ==> id in p.metrics)
  }

  // ---------- conservation ----------

  /** What a project has been given, of the chosen sources. */
  function GivenTo(metrics: map<ProjectId, Metric>, chosen: Tag -> bool): ProjectId -> int {
    id => if id in metrics then Amount(chosen, metrics[id].supply) + Amount(chosen, metrics[id].recovery) else 0
  }

  function KeptFor(ready: map<ProjectId, seq<Source>>, chosen: Tag -> bool): ProjectId -> int {
    id => if id in ready then Amount(chosen, ready[id]) else 0
  }

  /** All of the chosen supply that is anywhere in the plan. */
  function Held(projects: seq<ProjectId>, p: Plan, chosen: Tag -> bool): int {
    Amount(chosen, p.pool) + Total(GivenTo(p.metrics, chosen), projects) + Total(KeptFor(p.ready, chosen), projects)
  }

  /** What an event brings of it. */
  function Brings(chosen: Tag -> bool): Event -> int {
    (e: Event) => if !e.Demand? && e.source.quantity > 0 && chosen(e.source.tag) then e.source.quantity else 0
  }

  lemma BringsItsSource(chosen: Tag -> bool, e: Event)
    requires !e.Demand?
    ensures Brings(chosen)(e) == Amount(chosen, Positive([e.source]))
  {
    assert [e.source][1..] == [];
    if e.source.quantity > 0 {
      assert Positive([e.source]) == [e.source];
    }
  }

  /** Changing what one project has changes the total by as much. */
  lemma {:induction false} ChangeOne(f: ProjectId -> int, g: ProjectId -> int, projects: seq<ProjectId>, id: ProjectId)
    requires Distinct(projects) && forall other :: other in projects && other != id ==> f(other) == g(other)
    ensures Total(g, projects) == Total(f, projects) + if id in projects then g(id) - f(id) else 0
  {
    if projects != [] {
      var front, last := projects[..|projects| - 1], projects[|projects| - 1];
      assert projects == front + [last];
      ChangeOne(f, g, front, id);
    }
  }

  lemma GivenOne(metrics: map<ProjectId, Metric>, chosen: Tag -> bool, projects: seq<ProjectId>, id: ProjectId, m: Metric)
    requires Distinct(projects) && id in metrics && id in projects
    ensures Total(GivenTo(metrics[id := m], chosen), projects)
            == Total(GivenTo(metrics, chosen), projects) + Amount(chosen, m.supply) + Amount(chosen, m.recovery)
               - Amount(chosen, metrics[id].supply) - Amount(chosen, metrics[id].recovery)
  {
    ChangeOne(GivenTo(metrics, chosen), GivenTo(metrics[id := m], chosen), projects, id);
  }

  lemma KeptOne(ready: map<ProjectId, seq<Source>>, chosen: Tag -> bool, projects: seq<ProjectId>, id: ProjectId, own: seq<Source>)
    requires Distinct(projects) && id in projects
    ensures Total(KeptFor(ready[id := own], chosen), projects)
            == Total(KeptFor(ready, chosen), projects) + Amount(chosen, own) - if id in ready then Amount(chosen, ready[id]) else 0
  {
    ChangeOne(KeptFor(ready, chosen), KeptFor(ready[id := own], chosen), projects, id);
  }

  lemma RecoveredConserves(chosen: Tag -> bool, m: Metric, arrived: seq<Source>, own: bool)
    ensures var r := Recovered(m, arrived, own);
            && r.supply == m.supply
            && Amount(chosen, r.recovery) + Amount(chosen, Positive(LeftOver(m, arrived)))
               == Amount(chosen, m.recovery) + Amount(chosen, Positive(arrived))
  {
    if m.backlog > 0 {
      var got := Consumed(arrived, m.backlog);
      ConsumedConserves(chosen, arrived, m.backlog);
      PositiveIs(got);
      PositiveIs(Rest(arrived, m.backlog));
      AppendedAmount(chosen, m.recovery, got);
    }
  }

  lemma {:induction false} RecoveredAllConserves(chosen: Tag -> bool, projects: seq<ProjectId>, ids: seq<ProjectId>,
                                                 metrics: map<ProjectId, Metric>, arrived: seq<Source>)
    requires Distinct(projects) && forall id :: id in metrics ==> id in projects
    ensures var r := RecoveredAll(ids, metrics, arrived);
            Total(GivenTo(r.0, chosen), projects) + Amount(chosen, Positive(r.1))
            == Total(GivenTo(metrics, chosen), projects) + Amount(chosen, Positive(arrived))
    decreases |ids|
  {
    if ids != [] {
      var id := ids[0];
      if id !in metrics {
        RecoveredAllConserves(chosen, projects, ids[1..], metrics, arrived);
      } else {
        var m := Recovered(metrics[id], arrived, false);
        RecoveredConserves(chosen, metrics[id], arrived, false);
        GivenOne(metrics, chosen, projects, id, m);
        RecoveredAllConserves(chosen, projects, ids[1..], metrics[id := m], LeftOver(metrics[id], arrived));
      }
    }
  }

  lemma ServedConserves(chosen: Tag -> bool, m: Metric, own: seq<Source>, pool: seq<Source>)
    requires AllPositive(own) && AllPositive(pool)
    ensures var t := Demanded(m, own, pool);
            && t.recovery == m.recovery
            && Amount(chosen, t.supply) + Amount(chosen, Rest(own, m.required)) + Amount(chosen, Rest(pool, Unfilled(m, own)))
               == Amount(chosen, m.supply) + Amount(chosen, own) + Amount(chosen, pool)
  {
    var dedicated, generic := Consumed(own, m.required), Consumed(pool, Unfilled(m, own));
    ConsumedConserves(chosen, own, m.required);
    ConsumedConserves(chosen, pool, Unfilled(m, own));
    PositiveIs(own);
    PositiveIs(pool);
    PositiveIs(dedicated + generic);
    AmountConcat(chosen, dedicated, generic);
    AppendedAmount(chosen, m.supply, dedicated + generic);
  }

  lemma StepConserves(projects: seq<ProjectId>, p: Plan, e: Event, chosen: Tag -> bool)
    requires Distinct(projects) && Covers(projects, p) && Known(p, e)
    requires AllPositive(p.pool) && forall id :: id in p.metrics ==> AllPositive(ReadyFor(p, id))
    ensures Held(projects, Step(projects, p, e), chosen)
            == Held(projects, p, chosen) + Brings(chosen)(e)
  {
    if !e.Demand? {
      BringsItsSource(chosen, e);
    }
    match e
    case Dedicated(_, _, _, id, source) =>
      var m := p.metrics[id];
      RecoveredConserves(chosen, m, [source], true);
      GivenOne(p.metrics, chosen, projects, id, Recovered(m, [source], true));
      AppendedAmount(chosen, ReadyFor(p, id), LeftOver(m, [source]));
      KeptOne(p.ready, chosen, projects, id, AppendAll(ReadyFor(p, id), LeftOver(m, [source])));
    case Generic(_, _, _, source) =>
      RecoveredAllConserves(chosen, projects, projects, p.metrics, [source]);
      AppendedAmount(chosen, p.pool, RecoveredAll(projects, p.metrics, [source]).1);
    case Demand(_, _, _, id) =>
      var m, own := p.metrics[id], ReadyFor(p, id);
      ServedConserves(chosen, m, own, p.pool);
      GivenOne(p.metrics, chosen, projects, id, Demanded(m, own, p.pool));
      KeptOne(p.ready, chosen, projects, id, Rest(own, m.required));
  }

  lemma CoversStays(projects: seq<ProjectId>, p: Plan, e: Event)
    requires Covers(projects, p) && Known(p, e)
    ensures Covers(projects, Step(projects, p, e))
  {
  }

  /**
   * Supply is neither made nor lost, and none is counted twice: for any choice of sources, by tag and so down to a
   * single one, what all projects were given together with what is still free is what was there and what arrived.
   */
  lemma {:induction false} SupplyConserved(projects: seq<ProjectId>, p: Plan, events: seq<Event>, chosen: Tag -> bool)
    requires Distinct(projects) && Covers(projects, p) && Sound(p, {}) && StartsOnce(events)
    requires After(projects, p, events).Some?
    ensures var t := After(projects, p, events).value;
            Covers(projects, t) && Held(projects, t, chosen) == Held(projects, p, chosen) + Total(Brings(chosen), events)
  {
    if events != [] {
      var front, e := events[..|events| - 1], events[|events| - 1];
      assert events == front + [e];
      SupplyConserved(projects, p, front, chosen);
      var before := After(projects, p, front).value;
      StaysSound(projects, p, front);
      StepConserves(projects, before, e, chosen);
      CoversStays(projects, before, e);
    }
  }

  // ---------- whose supply ----------

  /** Supply for everyone, or for this project. */
  function For(id: ProjectId): Tag -> bool {
    (t: Tag) => t.projectId.None? || t.projectId == Some(id)
  }

  function ForAll(): Tag -> bool {
    (t: Tag) => t.projectId.None?
  }

  /** A source says whose it is. */
  predicate SaysWhose(e: Event) {
    match e
    case Generic(_, _, _, source) => source.tag.projectId.None?
    case Dedicated(_, _, _, id, source) => source.tag.projectId == Some(id)
    case Demand(_, _, _, _) => true
  }

  ghost predicate Apart(p: Plan) {
    && AllPositive(p.pool) && Only(ForAll(), p.pool)
    && (forall id :: id in p.metrics ==>
          && AllPositive(p.metrics[id].supply) && AllPositive(p.metrics[id].recovery) && AllPositive(ReadyFor(p, id))
          && Only(For(id), p.metrics[id].supply) && Only(For(id), p.metrics[id].recovery) && Only(For(id), ReadyFor(p, id)))
  }

  lemma RecoveredTags(allowed: Tag -> bool, m: Metric, arrived: seq<Source>, own: bool)
    requires Only(allowed, m.recovery) && AllPositive(m.recovery) && Only(allowed, arrived)
    ensures var r := Recovered(m, arrived, own);
            Only(allowed, r.recovery) && AllPositive(r.recovery) && r.supply == m.supply
  {
    if m.backlog > 0 {
      ConsumedTags(allowed, arrived, m.backlog);
      AppendedKeeps(allowed, m.recovery, Consumed(arrived, m.backlog));
    }
  }

  lemma LeftTags(allowed: Tag -> bool, m: Metric, arrived: seq<Source>)
    requires Only(allowed, arrived)
    ensures Only(allowed, LeftOver(m, arrived))
  {
    ConsumedTags(allowed, arrived, m.backlog);
  }

  lemma ServedTags(allowed: Tag -> bool, m: Metric, own: seq<Source>, pool: seq<Source>)
    requires Only(allowed, m.supply) && AllPositive(m.supply) && Only(allowed, own) && Only(allowed, pool)
    ensures var t := Demanded(m, own, pool);
            Only(allowed, t.supply) && AllPositive(t.supply) && t.recovery == m.recovery
  {
    ConsumedTags(allowed, own, m.required);
    ConsumedTags(allowed, pool, Unfilled(m, own));
    AppendedKeeps(allowed, m.supply, Consumed(own, m.required) + Consumed(pool, Unfilled(m, own)));
  }

  /** An arrival for everyone: each project that is given some may be given it. */
  lemma {:induction false} RecoveredAllTags(allowed: ProjectId -> (Tag -> bool), common: Tag -> bool, projects: seq<ProjectId>,
                                            metrics: map<ProjectId, Metric>, arrived: seq<Source>)
    requires Only(common, arrived)
    requires forall id :: id in metrics ==> AllPositive(metrics[id].recovery) && Only(allowed(id), metrics[id].recovery)
                                            && (metrics[id].backlog > 0 ==> Only(allowed(id), arrived))
    ensures var r := RecoveredAll(projects, metrics, arrived);
            && Only(common, r.1)
            && (forall id :: id in metrics ==>
                  && AllPositive(r.0[id].recovery) && Only(allowed(id), r.0[id].recovery) && r.0[id].supply == metrics[id].supply)
    decreases |projects|
  {
    if projects != [] {
      var id := projects[0];
      if id !in metrics {
        RecoveredAllTags(allowed, common, projects[1..], metrics, arrived);
      } else {
        var m, left := Recovered(metrics[id], arrived, false), LeftOver(metrics[id], arrived);
        if metrics[id].backlog > 0 {
          RecoveredTags(allowed(id), metrics[id], arrived, false);
        }
        LeftTags(common, metrics[id], arrived);
        forall other | other in metrics && metrics[other].backlog > 0 ensures Only(allowed(other), left) {
          LeftTags(allowed(other), metrics[id], arrived);
        }
        assert m.backlog > 0 ==> metrics[id].backlog > 0 by { TakesNoMore(metrics[id], arrived); }
        RecoveredAllTags(allowed, common, projects[1..], metrics[id := m], left);
      }
    }
  }

  lemma TakesNoMore(m: Metric, arrived: seq<Source>)
    ensures m.backlog <= 0 ==> Recovered(m, arrived, false).backlog <= 0
  {
  }

  lemma StepApart(projects: seq<ProjectId>, p: Plan, e: Event)
    requires Apart(p) && Known(p, e) && SaysWhose(e)
    ensures Apart(Step(projects, p, e))
  {
    match e
    case Dedicated(_, _, _, id, source) => DedicatedApart(projects, p, e);
    case Generic(_, _, _, source) =>
      var allowed := (id: ProjectId) => For(id);
      RecoveredAllTags(allowed, ForAll(), projects, p.metrics, [source]);
      AppendedKeeps(ForAll(), p.pool, RecoveredAll(projects, p.metrics, [source]).1);
    case Demand(_, _, _, id) => DemandApart(projects, p, e);
  }

  lemma DedicatedApart(projects: seq<ProjectId>, p: Plan, e: Event)
    requires Apart(p) && Known(p, e) && e.Dedicated? && SaysWhose(e)
    ensures Apart(Step(projects, p, e))
  {
    var m := p.metrics[e.project];
    RecoveredTags(For(e.project), m, [e.source], true);
    LeftTags(For(e.project), m, [e.source]);
    AppendedKeeps(For(e.project), ReadyFor(p, e.project), LeftOver(m, [e.source]));
  }

  lemma DemandApart(projects: seq<ProjectId>, p: Plan, e: Event)
    requires Apart(p) && Known(p, e) && e.Demand?
    ensures Apart(Step(projects, p, e))
  {
    var m, own := p.metrics[e.project], ReadyFor(p, e.project);
    assert Only(For(e.project), p.pool);
    ServedTags(For(e.project), m, own, p.pool);
    ConsumedTags(For(e.project), own, m.required);
    ConsumedTags(ForAll(), p.pool, Unfilled(m, own));
    ConsumeKeepsPositive(own, m.required);
    ConsumeKeepsPositive(p.pool, Unfilled(m, own));
  }

  /** Supply dedicated to one project never reaches another, nor the pool. */
  lemma {:induction false} DedicatedStaysApart(projects: seq<ProjectId>, p: Plan, events: seq<Event>)
    requires Apart(p) && (forall k :: 0 <= k < |events| ==> SaysWhose(events[k])) && After(projects, p, events).Some?
    ensures Apart(After(projects, p, events).value)
  {
    if events != [] {
      var front := events[..|events| - 1];
      DedicatedStaysApart(projects, p, front);
      StepApart(projects, After(projects, p, front).value, events[|events| - 1]);
    }
  }
}
