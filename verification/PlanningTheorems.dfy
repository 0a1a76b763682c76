/** What the netting of an item keeps, for every list of events in any order. */
module PlanningTheorems {
  import opened Wrappers
  import opened Sums
  import opened PlanningSources
  import opened PlanningNetting

  // ---------- each project's figures ----------

  /** The figures of a project before its start, and from then on. */
  predicate Balanced(m: Metric, started: bool) {
    if !started then m == NewMetric(m.required)
    else
      && m.covered + m.shortage == m.required && m.recovered + m.backlog == m.shortage
      && m.covered == m.dedicatedByStart + m.genericAllocated && m.recovered == m.futureDedicated + m.futureGeneric
      && Amount(Any, m.supply) == m.covered && Amount(Any, m.recovery) == m.recovered
      && AllPositive(m.supply) && AllPositive(m.recovery)
      && m.dedicatedByStart >= 0 && m.genericAllocated >= 0 && m.futureDedicated >= 0 && m.futureGeneric >= 0
      && (m.required >= 0 ==> m.shortage >= 0 && m.backlog >= 0)
  }

  /** Supply that nobody waits for. */
  predicate Idle(sources: seq<Source>, backlog: int) {
    AllPositive(sources) && (sources != [] ==> backlog <= 0)
  }

  lemma RecoveredBalanced(m: Metric, arrived: seq<Source>, own: bool, started: bool)
    requires Balanced(m, started)
    ensures Balanced(Recovered(m, arrived, own), started)
    ensures Recovered(m, arrived, own).required == m.required
    ensures Positive(LeftOver(m, arrived)) != [] ==> Recovered(m, arrived, own).backlog <= 0
  {
    if m.backlog > 0 {
      var got := Consumed(arrived, m.backlog);
      ConsumedTakes(arrived, m.backlog);
      ConsumedConserves(Any, arrived, m.backlog);
      PositiveIs(got);
      AppendedAmount(Any, m.recovery, got);
      AppendedKeeps(Any, m.recovery, got);
    }
  }

  lemma DemandedBalanced(m: Metric, own: seq<Source>, pool: seq<Source>)
    requires Balanced(m, false)
    ensures Balanced(Demanded(m, own, pool), true) && Demanded(m, own, pool).required == m.required
    ensures Rest(own, m.required) != [] || Rest(pool, Unfilled(m, own)) != [] ==> Demanded(m, own, pool).backlog <= 0
  {
    DemandedFigures(m.required, own, pool);
    ConsumedAmount(Any, own, m.required);
    ConsumedAmount(Any, pool, Unfilled(m, own));
    ServedBalanced(m, Amount(Any, pool), Consumed(own, m.required), Consumed(pool, Unfilled(m, own)));
  }

  lemma ServedBalanced(m: Metric, available: int, dedicated: seq<Source>, generic: seq<Source>)
    requires m == NewMetric(m.required) && AllPositive(dedicated) && AllPositive(generic)
    requires var d, g := Amount(Any, dedicated), Amount(Any, generic); 0 <= d && 0 <= g && (m.required >= 0 ==> d + g <= m.required)
    ensures Balanced(Served(m, available, dedicated, generic), true)
  {
    SupplyOf(m.supply, dedicated, generic);
    NothingRecovered(m.required);
  }

  lemma NothingRecovered(required: int)
    ensures Amount(Any, NewMetric(required).recovery) == 0
  {
  }

  lemma DemandedFigures(required: int, own: seq<Source>, pool: seq<Source>)
    ensures var d := Amount(Any, Consumed(own, required));
            var g := Amount(Any, Consumed(pool, required - d));
            && 0 <= d && 0 <= g && (required >= 0 ==> d + g <= required)
            && (Rest(own, required) != [] || Rest(pool, required - d) != [] ==> d + g >= required)
  {
    ConsumedTakes(own, required);
    ConsumedTakes(pool, required - Amount(Any, Consumed(own, required)));
  }

  lemma SupplyOf(supply: seq<Source>, dedicated: seq<Source>, generic: seq<Source>)
    requires supply == [] && AllPositive(dedicated) && AllPositive(generic)
    ensures Amount(Any, AppendAll(supply, dedicated + generic)) == Amount(Any, dedicated) + Amount(Any, generic)
    ensures AllPositive(AppendAll(supply, dedicated + generic))
  {
    AmountConcat(Any, dedicated, generic);
    PositiveIs(dedicated + generic);
    AppendedAmount(Any, supply, dedicated + generic);
    AppendedKeeps(Any, supply, dedicated + generic);
  }

  lemma {:induction false} AmountConcat(chosen: Tag -> bool, a: seq<Source>, b: seq<Source>)
    ensures Amount(chosen, a + b) == Amount(chosen, a) + Amount(chosen, b)
  {
    if a == [] {
      assert a + b == b;
    } else {
      assert (a + b)[1..] == a[1..] + b;
      AmountConcat(chosen, a[1..], b);
    }
  }

  // ---------- what every plan keeps ----------

  function StartedBy(events: seq<Event>): set<ProjectId> {
    set k | 0 <= k < |events| && events[k].Demand? :: events[k].project
  }

  /** Every project starts once at most. */
  predicate StartsOnce(events: seq<Event>) {
    forall i, j :: 0 <= i < j < |events| && events[i].Demand? && events[j].Demand? ==> events[i].project != events[j].project
  }

  /** Figures are balanced, and there is no free supply while a project that could use it waits. */
  ghost predicate Sound(p: Plan, started: set<ProjectId>) {
    && (forall id :: id in p.metrics ==> Balanced(p.metrics[id], id in started))
    && AllPositive(p.pool)
    && (forall id :: id in p.metrics ==> Idle(p.pool, p.metrics[id].backlog) && Idle(ReadyFor(p, id), p.metrics[id].backlog))
  }

  /** After an arrival for everyone: the figures, and that nobody waits if something is left. */
  lemma {:induction false} RecoveredAllSound(projects: seq<ProjectId>, metrics: map<ProjectId, Metric>, arrived: seq<Source>,
                                             started: set<ProjectId>)
    requires forall id :: id in metrics ==> Balanced(metrics[id], id in started)
    ensures var r := RecoveredAll(projects, metrics, arrived);
            && (forall id :: id in metrics ==> Balanced(r.0[id], id in started) && r.0[id].required == metrics[id].required
                                               && (metrics[id].backlog <= 0 ==> r.0[id] == metrics[id]))
            && (Positive(r.1) != [] ==> forall id :: id in metrics && id in projects ==> r.0[id].backlog <= 0)
            && (Positive(arrived) == [] ==> Positive(r.1) == [])
    decreases |projects|
  {
    if projects != [] {
      var id := projects[0];
      if id !in metrics {
        RecoveredAllSound(projects[1..], metrics, arrived, started);
      } else {
        var m := Recovered(metrics[id], arrived, false);
        RecoveredBalanced(metrics[id], arrived, false, id in started);
        LeftOverPositive(metrics[id], arrived);
        RecoveredAllSound(projects[1..], metrics[id := m], LeftOver(metrics[id], arrived), started);
      }
    }
  }

  lemma LeftOverPositive(m: Metric, arrived: seq<Source>)
    ensures Positive(arrived) == [] ==> Positive(LeftOver(m, arrived)) == []
  {
    if m.backlog > 0 && Positive(arrived) == [] {
      ConsumedConserves(Any, arrived, m.backlog);
      ConsumedTakes(arrived, m.backlog);
      var rest := Rest(arrived, m.backlog);
      AmountNonNegative(Any, rest);
      PositiveIs(rest);
    }
  }

  lemma DedicatedSound(projects: seq<ProjectId>, p: Plan, e: Event, started: set<ProjectId>)
    requires Sound(p, started) && Known(p, e) && e.Dedicated?
    ensures Sound(Step(projects, p, e), started)
  {
    var m := p.metrics[e.project];
    var left := LeftOver(m, [e.source]);
    RecoveredBalanced(m, [e.source], true, e.project in started);
    AppendedKeeps(Any, ReadyFor(p, e.project), left);
    if Positive(left) == [] {
      AppendNone(ReadyFor(p, e.project), left);
    }
    DeliveredAs(p, e.project, Recovered(m, [e.source], true), AppendAll(ReadyFor(p, e.project), left), started);
  }

  lemma DeliveredAs(p: Plan, id: ProjectId, m: Metric, own: seq<Source>, started: set<ProjectId>)
    requires Sound(p, started) && id in p.metrics && Balanced(m, id in started) && AllPositive(own)
    requires p.metrics[id].backlog <= 0 ==> m == p.metrics[id]
    requires m.backlog <= 0 || own == ReadyFor(p, id)
    ensures Sound(p.(metrics := p.metrics[id := m], ready := p.ready[id := own]), started)
  {
    OneChanged(p, p.(metrics := p.metrics[id := m], ready := p.ready[id := own]), id, started);
  }

  /** It is enough to look at the project that an event is for, as long as the pool does not grow. */
  lemma OneChanged(p: Plan, t: Plan, id: ProjectId, started: set<ProjectId>)
    requires Sound(p, started - {id}) || Sound(p, started)
    requires id in p.metrics && t.metrics.Keys == p.metrics.Keys && AllPositive(t.pool) && (t.pool != [] ==> p.pool != [])
    requires forall other :: other in p.metrics && other != id ==> t.metrics[other] == p.metrics[other] && ReadyFor(t, other) == ReadyFor(p, other)
    requires Balanced(t.metrics[id], id in started)
    requires Idle(t.pool, t.metrics[id].backlog) && Idle(ReadyFor(t, id), t.metrics[id].backlog)
    ensures Sound(t, started)
  {
  }

  lemma DemandSound(projects: seq<ProjectId>, p: Plan, e: Event, started: set<ProjectId>)
    requires Sound(p, started) && Known(p, e) && e.Demand? && e.project !in started
    ensures Sound(Step(projects, p, e), started + {e.project})
  {
    var m, own := p.metrics[e.project], ReadyFor(p, e.project);
    DemandedBalanced(m, own, p.pool);
    ConsumeKeepsPositive(own, m.required);
    ConsumeKeepsPositive(p.pool, Unfilled(m, own));
    RestOfNothing(Unfilled(m, own));
    assert Step(projects, p, e)
           == Plan(p.metrics[e.project := Demanded(m, own, p.pool)], Rest(p.pool, Unfilled(m, own)), p.ready[e.project := Rest(own, m.required)]);
    MetAs(p, e.project, Demanded(m, own, p.pool), Rest(own, m.required), Rest(p.pool, Unfilled(m, own)), started);
  }

  lemma MetAs(p: Plan, id: ProjectId, m: Metric, own: seq<Source>, pool: seq<Source>, started: set<ProjectId>)
    requires Sound(p, started) && id in p.metrics && id !in started
    requires Balanced(m, true) && AllPositive(own) && AllPositive(pool) && (pool != [] ==> p.pool != [])
    requires own != [] || pool != [] ==> m.backlog <= 0
    ensures Sound(Plan(p.metrics[id := m], pool, p.ready[id := own]), started + {id})
  {
    assert started + {id} - {id} == started;
    OneChanged(p, Plan(p.metrics[id := m], pool, p.ready[id := own]), id, started + {id});
  }

  lemma RestOfNothing(quantity: int)
    ensures Rest([], quantity) == []
  {
  }

  lemma GenericSound(projects: seq<ProjectId>, p: Plan, e: Event, started: set<ProjectId>)
    requires Sound(p, started) && e.Generic? && (forall id :: id in p.metrics ==> id in projects)
    ensures Sound(Step(projects, p, e), started)
  {
    var r := RecoveredAll(projects, p.metrics, [e.source]);
    RecoveredAllSound(projects, p.metrics, [e.source], started);
    AppendedKeeps(Any, p.pool, r.1);
    if Positive(r.1) == [] {
      AppendNone(p.pool, r.1);
    }
  }

  /** Appending what has no quantity changes nothing. */
  lemma {:induction false} AppendNone(target: seq<Source>, sources: seq<Source>)
    requires Positive(sources) == []
    ensures AppendAll(target, sources) == target
  {
    if sources != [] {
      assert sources[0].quantity <= 0;
      AppendNone(target, sources[1..]);
    }
  }

  lemma {:induction false} StaysSound(projects: seq<ProjectId>, p: Plan, events: seq<Event>)
    requires Sound(p, {}) && (forall id :: id in p.metrics ==> id in projects) && StartsOnce(events)
    requires After(projects, p, events).Some?
    ensures Sound(After(projects, p, events).value, StartedBy(events))
  {
    if events == [] {
      assert StartedBy(events) == {};
    } else {
      var front, e := events[..|events| - 1], events[|events| - 1];
      StaysSound(projects, p, front);
      MetricsStay(projects, p, front);
      StartedNext(front, e);
      assert events == front + [e];
      SoundStep(projects, After(projects, p, front).value, e, StartedBy(front));
    }
  }

  lemma SoundStep(projects: seq<ProjectId>, p: Plan, e: Event, started: set<ProjectId>)
    requires Sound(p, started) && Known(p, e) && (forall id :: id in p.metrics ==> id in projects)
    requires e.Demand? ==> e.project !in started
    ensures Sound(Step(projects, p, e), if e.Demand? then started + {e.project} else started)
  {
    match e
    case Dedicated(_, _, _, _, _) => DedicatedSound(projects, p, e, started);
    case Generic(_, _, _, _) => GenericSound(projects, p, e, started);
    case Demand(_, _, _, _) => DemandSound(projects, p, e, started);
  }

  lemma StartedNext(front: seq<Event>, e: Event)
    ensures StartedBy(front + [e]) == StartedBy(front) + if e.Demand? then {e.project} else {}
    ensures StartsOnce(front + [e]) && e.Demand? ==> e.project !in StartedBy(front)
  {
    var events := front + [e];
    forall id ensures id in StartedBy(events) <==> id in StartedBy(front) || (e.Demand? && id == e.project) {
      if k :| 0 <= k < |front| && front[k].Demand? && front[k].project == id {
        assert events[k] == front[k];
      }
      if e.Demand? && id == e.project {
        assert events[|front|] == e;
      }
    }
    if StartsOnce(events) && e.Demand? {
      forall k | 0 <= k < |front| && front[k].Demand? ensures front[k].project != e.project {
        assert events[k] == front[k] && events[|front|] == e;
      }
    }
  }

  lemma StartIsSound(required: map<ProjectId, int>, stock: int)
    ensures Sound(Start(required, stock), {})
  {
  }
}
