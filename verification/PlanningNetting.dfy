/**
 * The netting of one item in the planning snapshot (_build_project_planning_snapshot of backend/app/service.py):
 * supply and demand events change the generic pool, each project's own supply and its metric in place.
 */
module PlanningNetting {
  import opened Wrappers
  import opened PlanningSources

  type ProjectId = int

  datatype Metric = Metric(
    required: int, dedicatedByStart: int, genericAvailable: int, genericAllocated: int, covered: int, shortage: int,
    futureGeneric: int, futureDedicated: int, recovered: int, backlog: int, supply: seq<Source>, recovery: seq<Source>)

  function NewMetric(required: int): Metric {
    Metric(required, 0, 0, 0, 0, 0, 0, 0, 0, 0, [], [])
  }

  /** A supply for everyone or for one project, or the start of a project. */
  datatype Event =
    | Generic(date: string, rank: int, ref: int, source: Source)
    | Dedicated(date: string, rank: int, ref: int, project: ProjectId, source: Source)
    | Demand(date: string, rank: int, ref: int, project: ProjectId)

  /** ready holds each project's own supply that has arrived and is not used yet. */
  datatype Plan = Plan(metrics: map<ProjectId, Metric>, pool: seq<Source>, ready: map<ProjectId, seq<Source>>)

  function ReadyFor(p: Plan, id: ProjectId): seq<Source> {
    if id in p.ready then p.ready[id] else []
  }

  // ---------- recovering a backlog ----------

  function Recovered(m: Metric, arrived: seq<Source>, own: bool): Metric {
    if m.backlog <= 0 then m
    else
      var got := Consumed(arrived, m.backlog);
      var quantity := Amount(Any, got);
      m.(backlog := m.backlog - quantity, recovered := m.recovered + quantity,
         futureDedicated := if own then m.futureDedicated + quantity else m.futureDedicated,
         futureGeneric := if own then m.futureGeneric else m.futureGeneric + quantity,
         recovery := AppendAll(m.recovery, got))
  }

  function LeftOver(m: Metric, arrived: seq<Source>): seq<Source> {
    if m.backlog <= 0 then arrived else Rest(arrived, m.backlog)
  }

  /** An arrival for everyone passes by the projects in planning order. */
  function RecoveredAll(projects: seq<ProjectId>, metrics: map<ProjectId, Metric>, arrived: seq<Source>):
    (r: (map<ProjectId, Metric>, seq<Source>))
    ensures r.0.Keys == metrics.Keys
  {
    if projects == [] then (metrics, arrived)
    else
      var id := projects[0];
      if id !in metrics then RecoveredAll(projects[1..], metrics, arrived)
      else RecoveredAll(projects[1..], metrics[id := Recovered(metrics[id], arrived, false)], LeftOver(metrics[id], arrived))
  }

  /** The figures once a demand has been met with these sources, as far as it has. */
  function Served(m: Metric, available: int, dedicated: seq<Source>, generic: seq<Source>): Metric {
    var d, g := Amount(Any, dedicated), Amount(Any, generic);
    m.(genericAvailable := available, dedicatedByStart := d, genericAllocated := g, covered := d + g,
       shortage := m.required - d - g, backlog := m.required - d - g, supply := AppendAll(m.supply, dedicated + generic))
  }

  /** The demand of a project: its own supply first, then the pool. */
  function Demanded(m: Metric, own: seq<Source>, pool: seq<Source>): Metric {
    Served(m, Amount(Any, pool), Consumed(own, m.required), Consumed(pool, Unfilled(m, own)))
  }

  function Unfilled(m: Metric, own: seq<Source>): int {
    m.required - Amount(Any, Consumed(own, m.required))
  }

  /** metrics[project][item] raises when the project has no metric for the item. */
  predicate Known(p: Plan, e: Event) {
    e.Generic? || e.project in p.metrics
  }

  function Step(projects: seq<ProjectId>, p: Plan, e: Event): Plan
    requires Known(p, e)
  {
    match e
    case Dedicated(_, _, _, id, source) =>
      var m := p.metrics[id];
      p.(metrics := p.metrics[id := Recovered(m, [source], true)],
         ready := p.ready[id := AppendAll(ReadyFor(p, id), LeftOver(m, [source]))])
    case Generic(_, _, _, source) =>
      var (metrics, left) := RecoveredAll(projects, p.metrics, [source]);
      p.(metrics := metrics, pool := AppendAll(p.pool, left))
    case Demand(_, _, _, id) =>
      var m, own := p.metrics[id], ReadyFor(p, id);
      p.(metrics := p.metrics[id := Demanded(m, own, p.pool)],
         ready := p.ready[id := Rest(own, m.required)], pool := Rest(p.pool, Unfilled(m, own)))
  }

  /** The plan after all events, or None when one of them raises. */
  function After(projects: seq<ProjectId>, p: Plan, events: seq<Event>): Option<Plan> {
    if events == [] then Some(p)
    else
      var before, e := After(projects, p, events[..|events| - 1]), events[|events| - 1];
      if before.None? || !Known(before.value, e) then None else Some(Step(projects, before.value, e))
  }

  /** Stock on hand opens the pool. */
  function Start(required: map<ProjectId, int>, stock: int): Plan {
    Plan(map id | id in required :: NewMetric(required[id]),
         if stock > 0 then [Source(Tag("stock", None, None, None, None, "Current stock"), stock)] else [], map[])
  }

  lemma {:induction false} MetricsStay(projects: seq<ProjectId>, p: Plan, events: seq<Event>)
    ensures After(projects, p, events).Some? ==> After(projects, p, events).value.metrics.Keys == p.metrics.Keys
  {
    if events != [] {
      MetricsStay(projects, p, events[..|events| - 1]);
    }
  }

  /**
   * The snapshot raises if and only if some event is for a project without a metric for the item: a project that
   * has supply of its own for an item it does not require, while another planned project requires it.
   */
  lemma {:induction false} RaisesExactly(projects: seq<ProjectId>, p: Plan, events: seq<Event>)
    ensures After(projects, p, events).Some? <==> forall k :: 0 <= k < |events| ==> Known(p, events[k])
  {
    if events != [] {
      RaisesExactly(projects, p, events[..|events| - 1]);
      MetricsStay(projects, p, events[..|events| - 1]);
      assert events == events[..|events| - 1] + [events[|events| - 1]];
    }
  }

  // ---------- the loop over events ----------

  class Netting {
    const projects: seq<ProjectId>
    var metrics: map<ProjectId, Metric>
    var pool: seq<Source>
    var ready: map<ProjectId, seq<Source>>

    ghost function Abs(): Plan
      reads this
    {
      Plan(metrics, pool, ready)
    }

    constructor (projects: seq<ProjectId>, required: map<ProjectId, int>, stock: int)
      ensures Abs() == Start(required, stock) && this.projects == projects
    {
      this.projects := projects;
      metrics := map id | id in required :: NewMetric(required[id]);
      pool := if stock > 0 then [Source(Tag("stock", None, None, None, None, "Current stock"), stock)] else [];
      ready := map[];
    }

    method AppendEach(target: seq<Source>, sources: seq<Source>) returns (r: seq<Source>)
      ensures r == AppendAll(target, sources)
    {
      r := target;
      for i := 0 to |sources|
        invariant AppendAll(r, sources[i..]) == AppendAll(target, sources)
      {
        assert sources[i..][1..] == sources[i + 1..];
        r := AppendPlanningSource(r, sources[i]);
      }
    }

    method Sum(sources: seq<Source>) returns (total: int)
      ensures total == Amount(Any, sources)
    {
      total := 0;
      for i := 0 to |sources|
        invariant total + Amount(Any, sources[i..]) == Amount(Any, sources)
      {
        assert sources[i..][1..] == sources[i + 1..];
        total := total + sources[i].quantity;
      }
    }

    /** One project's backlog takes what it can of an arrival. */
    method Recover(id: ProjectId, arrived: seq<Source>, own: bool) returns (left: seq<Source>)
      requires id in metrics
      modifies this`metrics
      ensures metrics == old(metrics)[id := Recovered(old(metrics)[id], arrived, own)]
      ensures left == LeftOver(old(metrics)[id], arrived)
    {
      var m := metrics[id];
      if m.backlog <= 0 {
        return arrived;
      }
      var got, rest := ConsumePlanningSources(arrived, m.backlog);
      var quantity := Sum(got);
      var recovery := AppendEach(m.recovery, got);
      m := m.(backlog := m.backlog - quantity, recovered := m.recovered + quantity, recovery := recovery);
      if own {
        m := m.(futureDedicated := m.futureDedicated + quantity);
      } else {
        m := m.(futureGeneric := m.futureGeneric + quantity);
      }
      metrics := metrics[id := m];
      left := rest;
    }

    method ReceiveDedicated(e: Event)
      requires e.Dedicated? && Known(Abs(), e)
      modifies this
      ensures Abs() == Step(projects, old(Abs()), e)
    {
      var left := Recover(e.project, [e.source], true);
      var own := AppendEach(if e.project in ready then ready[e.project] else [], left);
      ready := ready[e.project := own];
    }

    /** The loop stops early once nothing is left, which changes nothing. */
    method ReceiveGeneric(e: Event)
      requires e.Generic?
      modifies this
      ensures Abs() == Step(projects, old(Abs()), e)
    {
      var left := [e.source];
      var i := 0;
      while i < |projects|
        invariant 0 <= i <= |projects| && pool == old(pool) && ready == old(ready)
        invariant |left| <= 1
        invariant RecoveredAll(projects[i..], metrics, left) == RecoveredAll(projects, old(metrics), [e.source])
      {
        assert projects[i..][1..] == projects[i + 1..];
        var id := projects[i];
        i := i + 1;
        if id !in metrics {
          continue;
        }
        if metrics[id].backlog <= 0 {
          assert metrics[id := metrics[id]] == metrics;
          continue;
        }
        RestOfOne(left, metrics[id].backlog);
        left := Recover(id, left, false);
        var total := Sum(left);
        if total <= 0 {
          RecoverNothing(projects[i..], metrics, left);
          break;
        }
      }
      pool := AppendEach(pool, left);
    }

    method MeetDemand(e: Event)
      requires e.Demand? && Known(Abs(), e)
      modifies this
      ensures Abs() == Step(projects, old(Abs()), e)
    {
      var m := metrics[e.project];
      var available := Sum(pool);
      var dedicated, own := ConsumePlanningSources(if e.project in ready then ready[e.project] else [], m.required);
      var dedicatedQty := Sum(dedicated);
      var generic, rest := ConsumePlanningSources(pool, m.required - dedicatedQty);
      var served := Serve(m, available, dedicated, generic);
      ready := ready[e.project := own];
      pool := rest;
      metrics := metrics[e.project := served];
    }

    method Serve(m: Metric, available: int, dedicated: seq<Source>, generic: seq<Source>) returns (t: Metric)
      ensures t == Served(m, available, dedicated, generic)
    {
      var dedicatedQty := Sum(dedicated);
      var genericQty := Sum(generic);
      var shortageQty := m.required - dedicatedQty - genericQty;
      var supply := AppendEach(m.supply, dedicated + generic);
      t := m.(genericAvailable := available, dedicatedByStart := dedicatedQty, genericAllocated := genericQty,
              covered := dedicatedQty + genericQty, shortage := shortageQty, backlog := shortageQty, supply := supply);
    }

    /** All events in order; false when one of them raises. */
    method Run(events: seq<Event>) returns (ok: bool)
      modifies this
      ensures ok <==> After(projects, old(Abs()), events).Some?
      ensures ok ==> Abs() == After(projects, old(Abs()), events).value
    {
      for k := 0 to |events|
        invariant After(projects, old(Abs()), events[..k]) == Some(Abs())
      {
        var e := events[k];
        assert events[..k + 1][..k] == events[..k];
        if !e.Generic? && e.project !in metrics {
          RaisesExactly(projects, old(Abs()), events);
          MetricsStay(projects, old(Abs()), events[..k]);
          assert !Known(old(Abs()), events[k]);
          return false;
        }
        if e.Dedicated? {
          ReceiveDedicated(e);
        } else if e.Generic? {
          ReceiveGeneric(e);
        } else {
          MeetDemand(e);
        }
      }
      assert events[..|events|] == events;
      return true;
    }
  }

  /** At most one source is under way. */
  lemma RestOfOne(arrived: seq<Source>, quantity: int)
    requires |arrived| <= 1 && quantity > 0
    ensures |Rest(arrived, quantity)| <= 1 && AllPositive(Rest(arrived, quantity))
  {
    ConsumeKeepsPositive(arrived, quantity);
    if arrived != [] {
      assert arrived[1..] == [];
    }
  }

  /** With nothing left the other projects recover nothing. */
  lemma {:induction false} RecoverNothing(projects: seq<ProjectId>, metrics: map<ProjectId, Metric>, left: seq<Source>)
    requires AllPositive(left) && Amount(Any, left) <= 0
    ensures RecoveredAll(projects, metrics, left) == (metrics, left)
  {
    AmountNonNegative(Any, left);
    if projects != [] {
      var id := projects[0];
      if id in metrics {
        assert Consumed([], metrics[id].backlog) == [] && Amount(Any, []) == 0;
        assert Recovered(metrics[id], left, false) == metrics[id];
        assert metrics[id := metrics[id]] == metrics;
      }
      RecoverNothing(projects[1..], metrics, left);
    }
  }
}
