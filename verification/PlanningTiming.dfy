/** When supply counts: the order of events, and the snapshot of one item as a whole (backend/app/service.py). */
module PlanningTiming {
  import opened Wrappers
  import opened Sums
  import opened StableSort
  import opened PlanningSources
  import opened PlanningNetting
  import opened PlanningTheorems
  import opened PlanningLaws

  // ---------- the order of events ----------

  /** Python's order of strings, by code point. */
  function CompareText(a: string, b: string): int {
    if a == "" then (if b == "" then 0 else -1)
    else if b == "" then 1
    else if a[0] != b[0] then (if a[0] < b[0] then -1 else 1)
    else CompareText(a[1..], b[1..])
  }

  lemma {:induction false} CompareTextMirrors(a: string, b: string)
    ensures CompareText(a, b) == -CompareText(b, a)
    ensures CompareText(a, b) == 0 <==> a == b
  {
    if a != "" && b != "" && a[0] == b[0] {
      CompareTextMirrors(a[1..], b[1..]);
      assert a == [a[0]] + a[1..] && b == [b[0]] + b[1..];
    }
  }

  lemma {:induction false} CompareTextChains(a: string, b: string, c: string)
    requires CompareText(a, b) <= 0 && CompareText(b, c) <= 0
    ensures CompareText(a, c) <= 0
    ensures CompareText(a, b) < 0 || CompareText(b, c) < 0 ==> CompareText(a, c) < 0
  {
    if a != "" && b != "" && c != "" && a[0] == b[0] == c[0] {
      CompareTextChains(a[1..], b[1..], c[1..]);
    }
  }

  /** On one day a project's own supply comes first, then supply for everyone, then the projects that start. */
  function Priority(e: Event): int {
    match e
    case Dedicated(_, _, _, _, _) => 0
    case Generic(_, _, _, _) => 1
    case Demand(_, _, _, _) => 2
  }

  function EventOrder(a: Event, b: Event): int {
    var dates := CompareText(a.date, b.date);
    if dates != 0 then dates
    else if Priority(a) != Priority(b) then Priority(a) - Priority(b)
    else if a.rank != b.rank then a.rank - b.rank
    else a.ref - b.ref
  }

  lemma EventOrderConsistent()
    ensures Consistent(EventOrder)
  {
    forall a, b ensures EventOrder(a, b) <= 0 || EventOrder(b, a) <= 0 {
      CompareTextMirrors(a.date, b.date);
    }
    forall a, b, c | EventOrder(a, b) <= 0 && EventOrder(b, c) <= 0 ensures EventOrder(a, c) <= 0 {
      EventOrderChains(a, b, c);
    }
  }

  lemma EventOrderChains(a: Event, b: Event, c: Event)
    requires EventOrder(a, b) <= 0 && EventOrder(b, c) <= 0
    ensures EventOrder(a, c) <= 0
  {
    CompareTextChains(a.date, b.date, c.date);
    CompareTextMirrors(a.date, b.date);
    CompareTextMirrors(b.date, c.date);
  }

  // ---------- in time ----------

  /** In stock, or here by that day. */
  function By(day: string): Tag -> bool {
    (t: Tag) => t.date.None? || CompareText(t.date.value, day) <= 0
  }

  /** Here only after the project has started. */
  function AfterStart(starts: map<ProjectId, string>, id: ProjectId): Tag -> bool {
    (t: Tag) => t.date.Some? && id in starts && CompareText(starts[id], t.date.value) < 0
  }

  /** Sources are dated with their event, and projects start on their day. */
  predicate DatedRight(starts: map<ProjectId, string>, e: Event) {
    match e
    case Generic(date, _, _, source) => source.tag.date == Some(date)
    case Dedicated(date, _, _, _, source) => source.tag.date == Some(date)
    case Demand(date, _, _, id) => id in starts && date == starts[id]
  }

  /** Free supply is here by the day of every event to come. */
  ghost predicate Here(p: Plan, events: seq<Event>, k: nat) {
    forall j :: k <= j < |events| ==>
      Only(By(events[j].date), p.pool) && forall id :: id in p.metrics ==> Only(By(events[j].date), ReadyFor(p, id))
  }

  /** Whoever waits has started before the day of every arrival to come. */
  ghost predicate WaitsSince(p: Plan, starts: map<ProjectId, string>, events: seq<Event>, k: nat) {
    forall j, id :: k <= j < |events| && !events[j].Demand? && id in p.metrics && p.metrics[id].backlog > 0 ==>
      id in starts && CompareText(starts[id], events[j].date) < 0
  }

  /** What counts as in time was here by the start, what counts as recovery only after it. */
  ghost predicate InTime(p: Plan, starts: map<ProjectId, string>) {
    forall id :: id in p.metrics ==>
      && (id in starts ==> Only(By(starts[id]), p.metrics[id].supply))
      && (id !in starts ==> p.metrics[id].supply == [])
      && Only(AfterStart(starts, id), p.metrics[id].recovery)
  }

  lemma DatesRise(events: seq<Event>, k: nat, j: nat)
    requires Sorted(EventOrder, events) && k < j < |events|
    ensures CompareText(events[k].date, events[j].date) <= 0
    ensures events[k].Demand? && !events[j].Demand? ==> CompareText(events[k].date, events[j].date) < 0
  {
    assert EventOrder(events[k], events[j]) <= 0;
  }

  lemma DedicatedInTime(projects: seq<ProjectId>, p: Plan, starts: map<ProjectId, string>, events: seq<Event>, k: nat)
    requires k < |events| && events[k].Dedicated? && Known(p, events[k]) && DatedRight(starts, events[k])
    requires Sorted(EventOrder, events) && Apart(p) && Here(p, events, k) && WaitsSince(p, starts, events, k) && InTime(p, starts)
    ensures var t := Step(projects, p, events[k]);
            Here(t, events, k + 1) && WaitsSince(t, starts, events, k + 1) && InTime(t, starts)
  {
    var e, t := events[k], Step(projects, p, events[k]);
    var m := p.metrics[e.project];
    if m.backlog > 0 {
      RecoveredTags(AfterStart(starts, e.project), m, [e.source], true);
    }
    BacklogShrinks(m, [e.source], true);
    forall j | k + 1 <= j < |events|
      ensures Only(By(events[j].date), t.pool) && forall id :: id in t.metrics ==> Only(By(events[j].date), ReadyFor(t, id))
    {
      DatesRise(events, k, j);
      LeftTags(By(events[j].date), m, [e.source]);
      AppendedKeeps(By(events[j].date), ReadyFor(p, e.project), LeftOver(m, [e.source]));
    }
  }

  lemma BacklogShrinks(m: Metric, arrived: seq<Source>, own: bool)
    ensures Recovered(m, arrived, own).backlog > 0 ==> m.backlog > 0
    ensures Recovered(m, arrived, own).supply == m.supply
  {
  }

  lemma {:induction false} BacklogsShrink(projects: seq<ProjectId>, metrics: map<ProjectId, Metric>, arrived: seq<Source>)
    ensures var r := RecoveredAll(projects, metrics, arrived);
            forall id :: id in metrics && r.0[id].backlog > 0 ==> metrics[id].backlog > 0
    decreases |projects|
  {
    if projects != [] {
      var id := projects[0];
      if id !in metrics {
        BacklogsShrink(projects[1..], metrics, arrived);
      } else {
        BacklogShrinks(metrics[id], arrived, false);
        BacklogsShrink(projects[1..], metrics[id := Recovered(metrics[id], arrived, false)], LeftOver(metrics[id], arrived));
      }
    }
  }

  /** Of an arrival for everyone, a project is given something only once no project before it waits any more. */
  lemma {:induction false} EarlierFirst(projects: seq<ProjectId>, metrics: map<ProjectId, Metric>, arrived: seq<Source>, i: nat, j: nat)
    requires Distinct(projects) && i < j < |projects| && projects[i] in metrics && projects[j] in metrics
    ensures var r := RecoveredAll(projects, metrics, arrived).0;
            r[projects[j]] != metrics[projects[j]] ==> r[projects[i]].backlog <= 0
    decreases |projects|
  {
    var id, rest := projects[0], projects[1..];
    if i > 0 {
      if id in metrics {
        EarlierFirst(rest, metrics[id := Recovered(metrics[id], arrived, false)], LeftOver(metrics[id], arrived), i - 1, j - 1);
      } else {
        EarlierFirst(rest, metrics, arrived, i - 1, j - 1);
      }
    } else {
      var m, left := Recovered(metrics[id], arrived, false), LeftOver(metrics[id], arrived);
      if m.backlog > 0 {
        ConsumedTakes(arrived, metrics[id].backlog);
        assert left == [];
        RecoverNothing(rest, metrics[id := m], left);
      } else {
        BacklogsShrink(rest, metrics[id := m], left);
      }
    }
  }

  lemma GenericInTime(projects: seq<ProjectId>, p: Plan, starts: map<ProjectId, string>, events: seq<Event>, k: nat)
    requires k < |events| && events[k].Generic? && DatedRight(starts, events[k])
    requires Sorted(EventOrder, events) && Apart(p) && Here(p, events, k) && WaitsSince(p, starts, events, k) && InTime(p, starts)
    ensures var t := Step(projects, p, events[k]);
            Here(t, events, k + 1) && WaitsSince(t, starts, events, k + 1) && InTime(t, starts)
  {
    var e, t := events[k], Step(projects, p, events[k]);
    var allowed := (id: ProjectId) => AfterStart(starts, id);
    BacklogsShrink(projects, p.metrics, [e.source]);
    RecoveredAllTags(allowed, Any, projects, p.metrics, [e.source]);
    forall j | k + 1 <= j < |events|
      ensures Only(By(events[j].date), t.pool) && forall id :: id in t.metrics ==> Only(By(events[j].date), ReadyFor(t, id))
    {
      DatesRise(events, k, j);
      PoolStaysBy(projects, p, e, events[j].date);
    }
  }

  lemma PoolStaysBy(projects: seq<ProjectId>, p: Plan, e: Event, day: string)
    requires e.Generic? && Apart(p) && Only(By(day), p.pool) && Only(By(day), [e.source])
    ensures Only(By(day), Step(projects, p, e).pool)
  {
    RecoveredAllTags(id => Any, By(day), projects, p.metrics, [e.source]);
    AppendedKeeps(By(day), p.pool, RecoveredAll(projects, p.metrics, [e.source]).1);
  }

  lemma DemandInTime(projects: seq<ProjectId>, p: Plan, starts: map<ProjectId, string>, events: seq<Event>, k: nat)
    requires k < |events| && events[k].Demand? && Known(p, events[k]) && DatedRight(starts, events[k])
    requires Sorted(EventOrder, events) && Apart(p) && Here(p, events, k) && WaitsSince(p, starts, events, k) && InTime(p, starts)
    ensures var t := Step(projects, p, events[k]);
            Here(t, events, k + 1) && WaitsSince(t, starts, events, k + 1) && InTime(t, starts)
  {
    var e, t := events[k], Step(projects, p, events[k]);
    var m, own := p.metrics[e.project], ReadyFor(p, e.project);
    ServedTags(By(e.date), m, own, p.pool);
    forall j | k + 1 <= j < |events|
      ensures Only(By(events[j].date), t.pool) && forall id :: id in t.metrics ==> Only(By(events[j].date), ReadyFor(t, id))
    {
      ConsumedTags(By(events[j].date), own, m.required);
      ConsumedTags(By(events[j].date), p.pool, Unfilled(m, own));
    }
    forall j, id | k + 1 <= j < |events| && !events[j].Demand? && id in t.metrics && t.metrics[id].backlog > 0
      ensures id in starts && CompareText(starts[id], events[j].date) < 0
    {
      if id == e.project {
        DatesRise(events, k, j);
      }
    }
  }

  /** The plan after the first k events of a sorted list. */
  lemma {:induction false} StaysInTime(projects: seq<ProjectId>, p: Plan, starts: map<ProjectId, string>, events: seq<Event>, k: nat)
    requires k <= |events| && After(projects, p, events[..k]).Some? && Sorted(EventOrder, events)
    requires Apart(p) && Here(p, events, 0) && WaitsSince(p, starts, events, 0) && InTime(p, starts)
    requires forall j :: 0 <= j < |events| ==> SaysWhose(events[j]) && DatedRight(starts, events[j])
    ensures var t := After(projects, p, events[..k]).value;
            Apart(t) && Here(t, events, k) && WaitsSince(t, starts, events, k) && InTime(t, starts)
  {
    if k == 0 {
      assert events[..0] == [];
    } else {
      assert events[..k][..k - 1] == events[..k - 1];
      StaysInTime(projects, p, starts, events, k - 1);
      var before, e := After(projects, p, events[..k - 1]).value, events[k - 1];
      StepApart(projects, before, e);
      match e
      case Dedicated(_, _, _, _, _) => DedicatedInTime(projects, before, starts, events, k - 1);
      case Generic(_, _, _, _) => GenericInTime(projects, before, starts, events, k - 1);
      case Demand(_, _, _, _) => DemandInTime(projects, before, starts, events, k - 1);
    }
  }

  // ---------- the snapshot of one item ----------

  datatype Project = Project(id: ProjectId, start: string)

  function IdsOf(projects: seq<Project>): (ids: seq<ProjectId>)
    ensures |ids| == |projects| && forall i :: 0 <= i < |ids| ==> ids[i] == projects[i].id
  {
    seq(|projects|, i requires 0 <= i < |projects| => projects[i].id)
  }

  function StartsOf(projects: seq<Project>): map<ProjectId, string> {
    if projects == [] then map[]
    else StartsOf(projects[..|projects| - 1])[projects[|projects| - 1].id := projects[|projects| - 1].start]
  }

  /** One demand for each of the first n projects that requires a quantity of the item. */
  function Demands(projects: seq<Project>, required: map<ProjectId, int>): seq<Event> {
    if projects == [] then []
    else
      var n := |projects| - 1;
      var p := projects[n];
      Demands(projects[..n], required)
      + if p.id in required && required[p.id] != 0 then [Demand(p.start, n, p.id, p.id)] else []
  }

  function EventsOf(projects: seq<Project>, required: map<ProjectId, int>, supplies: seq<Event>): seq<Event> {
    Sort(EventOrder, supplies + Demands(projects, required))
  }

  /** What the database hands over: arrivals with their dates and projects, and each planned project once. */
  ghost predicate Given(projects: seq<Project>, required: map<ProjectId, int>, supplies: seq<Event>) {
    && Distinct(IdsOf(projects)) && (forall id :: id in required ==> id in IdsOf(projects))
    && forall k :: 0 <= k < |supplies| ==> !supplies[k].Demand? && SaysWhose(supplies[k]) && DatedRight(map[], supplies[k])
  }

  function Counts(id: ProjectId): Event -> int {
    (e: Event) => if e.Demand? && e.project == id then 1 else 0
  }

  /** Whether the project asks for a quantity of the item. */
  predicate Asks(required: map<ProjectId, int>, id: ProjectId) {
    id in required && required[id] != 0
  }

  lemma IdsFront(projects: seq<Project>)
    requires projects != [] && Distinct(IdsOf(projects))
    ensures var n := |projects| - 1;
            && Distinct(IdsOf(projects[..n])) && projects[n].id !in IdsOf(projects[..n])
            && (forall id :: id in IdsOf(projects) <==> id in IdsOf(projects[..n]) || id == projects[n].id)
  {
    var n := |projects| - 1;
    assert IdsOf(projects) == IdsOf(projects[..n]) + [projects[n].id];
    forall i | 0 <= i < n ensures IdsOf(projects[..n])[i] != projects[n].id {
      assert IdsOf(projects)[i] != IdsOf(projects)[n];
    }
  }

  /** Each project that asks has one demand, dated with its start. */
  lemma {:induction false} DemandCounted(projects: seq<Project>, required: map<ProjectId, int>, id: ProjectId)
    requires Distinct(IdsOf(projects))
    ensures Total(Counts(id), Demands(projects, required)) == if id in IdsOf(projects) && Asks(required, id) then 1 else 0
  {
    if projects != [] {
      var n := |projects| - 1;
      var p, before := projects[n], Demands(projects[..n], required);
      IdsFront(projects);
      DemandCounted(projects[..n], required, id);
      if Asks(required, p.id) {
        var all := before + [Demand(p.start, n, p.id, p.id)];
        assert Demands(projects, required) == all && all[..|all| - 1] == before;
      } else {
        assert Demands(projects, required) == before;
      }
    }
  }

  lemma {:induction false} DemandDated(projects: seq<Project>, required: map<ProjectId, int>, e: Event)
    requires Distinct(IdsOf(projects)) && e in Demands(projects, required)
    ensures e.Demand? && DatedRight(StartsOf(projects), e) && e.project in required && e.project in IdsOf(projects)
  {
    var n := |projects| - 1;
    IdsFront(projects);
    if e in Demands(projects[..n], required) {
      DemandDated(projects[..n], required, e);
    }
  }

  // ---------- sorting keeps all this ----------

  lemma {:induction false} NotCounted(id: ProjectId, events: seq<Event>)
    requires forall k :: 0 <= k < |events| ==> !events[k].Demand?
    ensures Total(Counts(id), events) == 0
  {
    if events != [] {
      NotCounted(id, events[..|events| - 1]);
    }
  }

  lemma {:induction false} CountsAre(id: ProjectId, events: seq<Event>, k: nat)
    requires k < |events|
    ensures Total(Counts(id), events) >= 0
    ensures Counts(id)(events[k]) == 1 ==> Total(Counts(id), events) >= 1
  {
    if k < |events| - 1 {
      CountsAre(id, events[..|events| - 1], k);
    } else if |events| > 1 {
      CountsAre(id, events[..|events| - 1], 0);
    }
  }

  lemma {:induction false} CountedTwice(id: ProjectId, events: seq<Event>, i: nat, j: nat)
    requires i < j < |events| && Counts(id)(events[i]) == 1 && Counts(id)(events[j]) == 1
    ensures Total(Counts(id), events) >= 2
  {
    var front := events[..|events| - 1];
    if j < |events| - 1 {
      CountedTwice(id, front, i, j);
    } else {
      CountsAre(id, front, i);
    }
  }

  lemma {:induction false} CountedSomewhere(id: ProjectId, events: seq<Event>)
    requires Total(Counts(id), events) >= 1
    ensures id in StartedBy(events)
  {
    var front, last := events[..|events| - 1], events[|events| - 1];
    if Total(Counts(id), front) >= 1 {
      CountedSomewhere(id, front);
      var k :| 0 <= k < |front| && front[k].Demand? && front[k].project == id;
      assert events[k] == front[k];
    } else {
      assert last.Demand? && last.project == id;
    }
  }

  lemma EventsCounted(projects: seq<Project>, required: map<ProjectId, int>, supplies: seq<Event>, id: ProjectId)
    requires Given(projects, required, supplies)
    ensures Total(Counts(id), EventsOf(projects, required, supplies))
            == if id in IdsOf(projects) && Asks(required, id) then 1 else 0
  {
    var demands := Demands(projects, required);
    SortPermutes(EventOrder, supplies + demands);
    TotalSameBag(Counts(id), EventsOf(projects, required, supplies), supplies + demands);
    TotalConcat(Counts(id), supplies, demands);
    NotCounted(id, supplies);
    DemandCounted(projects, required, id);
  }

  lemma EventsStartOnce(projects: seq<Project>, required: map<ProjectId, int>, supplies: seq<Event>)
    requires Given(projects, required, supplies)
    ensures StartsOnce(EventsOf(projects, required, supplies))
  {
    var events := EventsOf(projects, required, supplies);
    forall i, j | 0 <= i < j < |events| && events[i].Demand? && events[j].Demand? ensures events[i].project != events[j].project {
      EventsCounted(projects, required, supplies, events[i].project);
      if events[i].project == events[j].project {
        CountedTwice(events[i].project, events, i, j);
      }
    }
  }

  lemma EventFrom(projects: seq<Project>, required: map<ProjectId, int>, supplies: seq<Event>, e: Event)
    requires Given(projects, required, supplies) && e in EventsOf(projects, required, supplies)
    ensures SaysWhose(e) && DatedRight(StartsOf(projects), e) && (e.Demand? ==> e.project in required)
    ensures !e.Demand? ==> e in supplies
  {
    var all := supplies + Demands(projects, required);
    SortPermutes(EventOrder, all);
    assert e in multiset(EventsOf(projects, required, supplies));
    assert e in multiset(all);
    if e in supplies {
      var k :| 0 <= k < |supplies| && supplies[k] == e;
      assert SaysWhose(supplies[k]) && DatedRight(map[], supplies[k]);
    } else {
      DemandDated(projects, required, e);
    }
  }

  // ---------- the results ----------

  function Netted(projects: seq<Project>, required: map<ProjectId, int>, stock: int, supplies: seq<Event>): Option<Plan> {
    After(IdsOf(projects), Start(required, stock), EventsOf(projects, required, supplies))
  }

  /** The loop over one item: the events are collected, sorted and gone through. */
  method NetItem(projects: seq<Project>, required: map<ProjectId, int>, stock: int, supplies: seq<Event>)
    returns (metrics: Option<map<ProjectId, Metric>>)
    ensures metrics.Some? <==> Netted(projects, required, stock, supplies).Some?
    ensures metrics.Some? ==> metrics.value == Netted(projects, required, stock, supplies).value.metrics
  {
    var events := supplies;
    for i := 0 to |projects|
      invariant events == supplies + Demands(projects[..i], required)
    {
      assert projects[..i + 1][..i] == projects[..i];
      if projects[i].id in required && required[projects[i].id] != 0 {
        events := events + [Demand(projects[i].start, i, projects[i].id, projects[i].id)];
      }
    }
    assert projects[..|projects|] == projects;
    var sorted := Sort(EventOrder, events);
    var netting := new Netting(IdsOf(projects), required, stock);
    var ok := netting.Run(sorted);
    return if ok then Some(netting.metrics) else None;
  }

  /**
   * The snapshot of an item raises if and only if some planned project has supply of its own for the item without
   * requiring it.
   */
  lemma NettingRaisesExactly(projects: seq<Project>, required: map<ProjectId, int>, stock: int, supplies: seq<Event>)
    requires Given(projects, required, supplies)
    ensures Netted(projects, required, stock, supplies).Some?
            <==> forall k :: 0 <= k < |supplies| && supplies[k].Dedicated? ==> supplies[k].project in required
  {
    var events, p := EventsOf(projects, required, supplies), Start(required, stock);
    RaisesExactly(IdsOf(projects), p, events);
    forall k | 0 <= k < |events| && !Known(p, events[k])
      ensures exists i :: 0 <= i < |supplies| && supplies[i].Dedicated? && supplies[i].project !in required
    {
      EventFrom(projects, required, supplies, events[k]);
      var i :| 0 <= i < |supplies| && supplies[i] == events[k];
    }
    forall k | 0 <= k < |supplies| && supplies[k].Dedicated? && supplies[k].project !in required
      ensures exists i :: 0 <= i < |events| && !Known(p, events[i])
    {
      SortPermutes(EventOrder, supplies + Demands(projects, required));
      assert supplies[k] in multiset(supplies + Demands(projects, required));
      assert supplies[k] in multiset(events);
      var i :| 0 <= i < |events| && events[i] == supplies[k];
    }
  }

  /**
   * For every item and all supplies and demands: what is covered in time and what is short make up what is
   * required, what is recovered and what is still missing make up the shortage, and both are the quantities of the
   * sources listed. Nobody is left waiting while supply that they could use lies idle.
   */
  lemma NettingBalances(projects: seq<Project>, required: map<ProjectId, int>, stock: int, supplies: seq<Event>, id: ProjectId)
    requires Given(projects, required, supplies) && Netted(projects, required, stock, supplies).Some? && id in required
    ensures var t := Netted(projects, required, stock, supplies).value;
            && id in t.metrics
            && var m := t.metrics[id];
            && m.required == required[id] && Balanced(m, required[id] != 0)
            && m.covered + m.shortage == required[id] && m.recovered + m.backlog == m.shortage
            && Amount(Any, m.supply) == m.covered && Amount(Any, m.recovery) == m.recovered
            && (t.pool != [] || ReadyFor(t, id) != [] ==> m.backlog <= 0)
  {
    var ids, p, events := IdsOf(projects), Start(required, stock), EventsOf(projects, required, supplies);
    StartIsSound(required, stock);
    EventsStartOnce(projects, required, supplies);
    StaysSound(ids, p, events);
    MetricsStay(ids, p, events);
    RequiredStays(ids, p, events, id);
    EventsCounted(projects, required, supplies, id);
    if Asks(required, id) {
      CountedSomewhere(id, events);
    } else if id in StartedBy(events) {
      var k :| 0 <= k < |events| && events[k].Demand? && events[k].project == id;
      CountsAre(id, events, k);
    }
  }

  lemma {:induction false} RequiredStays(ids: seq<ProjectId>, p: Plan, events: seq<Event>, id: ProjectId)
    requires After(ids, p, events).Some? && id in p.metrics
    ensures id in After(ids, p, events).value.metrics && After(ids, p, events).value.metrics[id].required == p.metrics[id].required
  {
    if events != [] {
      var front := events[..|events| - 1];
      RequiredStays(ids, p, front, id);
      RequiredStep(ids, After(ids, p, front).value, events[|events| - 1], id);
    }
  }

  lemma RequiredStep(ids: seq<ProjectId>, p: Plan, e: Event, id: ProjectId)
    requires Known(p, e) && id in p.metrics
    ensures Step(ids, p, e).metrics[id].required == p.metrics[id].required
  {
    if e.Generic? {
      RequiredAll(ids, p.metrics, [e.source], id);
    }
  }

  lemma {:induction false} RequiredAll(ids: seq<ProjectId>, metrics: map<ProjectId, Metric>, arrived: seq<Source>, id: ProjectId)
    requires id in metrics
    ensures RecoveredAll(ids, metrics, arrived).0[id].required == metrics[id].required
    decreases |ids|
  {
    if ids != [] {
      if ids[0] in metrics {
        RequiredAll(ids[1..], metrics[ids[0] := Recovered(metrics[ids[0]], arrived, false)], LeftOver(metrics[ids[0]], arrived), id);
      } else {
        RequiredAll(ids[1..], metrics, arrived, id);
      }
    }
  }

  /** And each source is used at most once over all projects, whichever sources are looked at. */
  lemma NettingConserves(projects: seq<Project>, required: map<ProjectId, int>, stock: int, supplies: seq<Event>, chosen: Tag -> bool)
    requires Given(projects, required, supplies) && Netted(projects, required, stock, supplies).Some?
    ensures var t := Netted(projects, required, stock, supplies).value;
            && Held(IdsOf(projects), t, chosen)
               == (if stock > 0 && chosen(InStock()) then stock else 0) + Total(Brings(chosen), supplies)
            && Amount(chosen, t.pool) >= 0
  {
    var ids, p, events := IdsOf(projects), Start(required, stock), EventsOf(projects, required, supplies);
    StartIsSound(required, stock);
    EventsStartOnce(projects, required, supplies);
    SupplyConserved(ids, p, events, chosen);
    StaysSound(ids, p, events);
    AmountNonNegative(chosen, After(ids, p, events).value.pool);
    NothingGivenYet(required, stock, chosen, ids);
    var demands := Demands(projects, required);
    SortPermutes(EventOrder, supplies + demands);
    TotalSameBag(Brings(chosen), events, supplies + demands);
    TotalConcat(Brings(chosen), supplies, demands);
    DemandsBringNothing(projects, required, chosen);
    StockOnly(required, stock, chosen);
  }

  /** How stock on hand is listed. */
  function InStock(): Tag {
    Tag("stock", None, None, None, None, "Current stock")
  }

  lemma StockOnly(required: map<ProjectId, int>, stock: int, chosen: Tag -> bool)
    ensures Amount(chosen, Start(required, stock).pool) == if stock > 0 && chosen(InStock()) then stock else 0
  {
    if stock > 0 {
      AmountFirst(chosen, Source(InStock(), stock), []);
      assert [Source(InStock(), stock)] + [] == [Source(InStock(), stock)];
    }
  }

  lemma {:induction false} DemandsBringNothing(projects: seq<Project>, required: map<ProjectId, int>, chosen: Tag -> bool)
    ensures Total(Brings(chosen), Demands(projects, required)) == 0
  {
    if projects != [] {
      var n := |projects| - 1;
      var before := Demands(projects[..n], required);
      DemandsBringNothing(projects[..n], required, chosen);
      if Asks(required, projects[n].id) {
        var all := before + [Demand(projects[n].start, n, projects[n].id, projects[n].id)];
        assert Demands(projects, required) == all && all[..|all| - 1] == before;
      } else {
        assert Demands(projects, required) == before;
      }
    }
  }

  lemma {:induction false} NothingGivenYet(required: map<ProjectId, int>, stock: int, chosen: Tag -> bool, ids: seq<ProjectId>)
    ensures Total(GivenTo(Start(required, stock).metrics, chosen), ids) == 0
    ensures Total(KeptFor(Start(required, stock).ready, chosen), ids) == 0
  {
    if ids != [] {
      NothingGivenYet(required, stock, chosen, ids[..|ids| - 1]);
      NewGiven(required, stock, chosen, ids[|ids| - 1]);
    }
  }

  lemma NewGiven(required: map<ProjectId, int>, stock: int, chosen: Tag -> bool, id: ProjectId)
    ensures GivenTo(Start(required, stock).metrics, chosen)(id) == 0
  {
    assert Amount(chosen, []) == 0;
  }

  /**
   * A project's sources are for everyone or for itself; those counted as covering it in time are in stock or
   * arrive by its start, and those counted as recovery arrive after it.
   */
  lemma NettingInTime(projects: seq<Project>, required: map<ProjectId, int>, stock: int, supplies: seq<Event>, id: ProjectId)
    requires Given(projects, required, supplies) && Netted(projects, required, stock, supplies).Some? && id in required
    ensures var t := Netted(projects, required, stock, supplies).value;
            && id in t.metrics && id in StartsOf(projects)
            && Only(For(id), t.metrics[id].supply) && Only(For(id), t.metrics[id].recovery)
            && Only(By(StartsOf(projects)[id]), t.metrics[id].supply)
            && Only(AfterStart(StartsOf(projects), id), t.metrics[id].recovery)
  {
    var ids, p, events := IdsOf(projects), Start(required, stock), EventsOf(projects, required, supplies);
    EventsRight(projects, required, supplies);
    StartInTime(projects, required, stock, events);
    assert events[..|events|] == events;
    StaysInTime(ids, p, StartsOf(projects), events, |events|);
    MetricsStay(ids, p, events);
    StartKnown(projects, id);
  }

  lemma EventsRight(projects: seq<Project>, required: map<ProjectId, int>, supplies: seq<Event>)
    requires Given(projects, required, supplies)
    ensures var events := EventsOf(projects, required, supplies);
            && Sorted(EventOrder, events)
            && forall j :: 0 <= j < |events| ==> SaysWhose(events[j]) && DatedRight(StartsOf(projects), events[j])
  {
    var events := EventsOf(projects, required, supplies);
    forall j | 0 <= j < |events| ensures SaysWhose(events[j]) && DatedRight(StartsOf(projects), events[j]) {
      EventFrom(projects, required, supplies, events[j]);
    }
    EventOrderConsistent();
    SortSorts(EventOrder, supplies + Demands(projects, required));
  }

  lemma StartInTime(projects: seq<Project>, required: map<ProjectId, int>, stock: int, events: seq<Event>)
    ensures var p, starts := Start(required, stock), StartsOf(projects);
            Apart(p) && Here(p, events, 0) && WaitsSince(p, starts, events, 0) && InTime(p, starts)
  {
  }

  lemma {:induction false} StartKnown(projects: seq<Project>, id: ProjectId)
    requires id in IdsOf(projects)
    ensures id in StartsOf(projects)
  {
    var n := |projects| - 1;
    assert IdsOf(projects) == IdsOf(projects[..n]) + [projects[n].id];
    if id != projects[n].id {
      StartKnown(projects[..n], id);
    }
  }
}
