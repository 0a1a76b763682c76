/** In which order supply is used and listed by the netting of an item (backend/app/service.py). */
module PlanningQueue {
  import opened Wrappers
  import opened Seqs
  import opened StableSort
  import opened PlanningSources
  import opened PlanningNetting
  import opened PlanningTheorems
  import opened PlanningLaws
  import opened PlanningTiming
  import opened PlanningOrder

  // ---------- lists in an order ----------

  predicate Ascending(le: (Tag, Tag) -> bool, sources: seq<Source>) {
    forall i, j :: 0 <= i < j < |sources| ==> le(sources[i].tag, sources[j].tag)
  }

  /** Stock comes first, then supply by its day. */
  predicate NotLater(a: Tag, b: Tag) {
    a.date.None? || (b.date.Some? && CompareText(a.date.value, b.date.value) <= 0)
  }

  /** A project's own supply comes first, and each of both kinds by its day. */
  predicate Listed(a: Tag, b: Tag) {
    if a.projectId.None? then b.projectId.None? && NotLater(a, b) else b.projectId.Some? ==> NotLater(a, b)
  }

  /** The same sources with other quantities, and perhaps one more. */
  predicate Extends(sources: seq<Source>, target: seq<Source>, source: Source) {
    && |target| <= |sources| <= |target| + 1
    && (forall i :: 0 <= i < |target| ==> sources[i].tag == target[i].tag)
    && (|sources| > |target| ==> sources[|target|].tag == source.tag)
  }

  lemma {:induction false} MergedExtends(target: seq<Source>, source: Source)
    ensures Extends(Merged(target, source), target, source)
  {
    if target != [] && target[0].tag != source.tag {
      MergedExtends(target[1..], source);
    }
  }

  lemma ExtendedAscending(le: (Tag, Tag) -> bool, sources: seq<Source>, target: seq<Source>, source: Source, more: seq<Source>)
    requires Extends(sources, target, source) && Ascending(le, target + ([source] + more))
    ensures Ascending(le, sources + more)
  {
    var all := target + ([source] + more);
    forall i, j | 0 <= i < j < |sources + more| ensures le((sources + more)[i].tag, (sources + more)[j].tag) {
      var k := if i < |sources| then i else i - |sources| + |target| + 1;
      var n := if j < |sources| then j else j - |sources| + |target| + 1;
      assert (sources + more)[i].tag == all[k].tag && (sources + more)[j].tag == all[n].tag;
      assert le(all[k].tag, all[n].tag);
    }
  }

  lemma {:induction false} AppendedAscending(le: (Tag, Tag) -> bool, target: seq<Source>, sources: seq<Source>)
    requires Ascending(le, target + sources)
    ensures Ascending(le, AppendAll(target, sources))
    decreases |sources|
  {
    if sources == [] {
      assert target + [] == target;
    } else {
      assert sources == [sources[0]] + sources[1..];
      if sources[0].quantity > 0 {
        MergedExtends(target, sources[0]);
      }
      ExtendedAscending(le, Append(target, sources[0]), target, sources[0], sources[1..]);
      AppendedAscending(le, Append(target, sources[0]), sources[1..]);
    }
  }

  lemma UsedInOrder(le: (Tag, Tag) -> bool, sources: seq<Source>, quantity: int)
    requires AllPositive(sources) && Ascending(le, sources)
    ensures Ascending(le, Used(sources, quantity)) && Ascending(le, Rest(sources, quantity))
  {
    var taken, split, after, part := ConsumedInOrder(sources, quantity);
    var n, used, rest := |taken|, Used(sources, quantity), Rest(sources, quantity);
    assert forall i :: 0 <= i < |used| ==> used[i].tag == sources[i].tag;
    assert forall i :: 0 <= i < |rest| ==> rest[i].tag == sources[n + i].tag;
    forall i, j | 0 <= i < j < |rest| ensures le(rest[i].tag, rest[j].tag) {
      assert le(sources[n + i].tag, sources[n + j].tag);
    }
  }

  lemma ConsumedAscending(le: (Tag, Tag) -> bool, sources: seq<Source>, quantity: int)
    requires AllPositive(sources) && Ascending(le, sources)
    ensures Ascending(le, Consumed(sources, quantity)) && Ascending(le, Rest(sources, quantity))
  {
    UsedInOrder(le, sources, quantity);
    NothingBefore(Used(sources, quantity));
    AppendedAscending(le, [], Used(sources, quantity));
  }

  // ---------- an arrival goes to the end ----------

  function On(day: string): Tag -> bool {
    (t: Tag) => t.date == Some(day)
  }

  lemma ArrivalLast(day: string, target: seq<Source>, arrived: seq<Source>)
    requires AllPositive(target) && Ascending(NotLater, target) && Only(By(day), target) && Only(On(day), arrived)
    ensures var t := AppendAll(target, arrived); AllPositive(t) && Ascending(NotLater, t) && Only(By(day), t)
  {
    CompareTextMirrors(day, day);
    AppendedAscending(NotLater, target, arrived);
    AppendedKeeps(By(day), target, arrived);
  }

  // ---------- over the events ----------

  predicate RowInOrder(m: Metric, day: string) {
    && Ascending(Listed, m.supply)
    && AllPositive(m.recovery) && Ascending(NotLater, m.recovery) && Only(By(day), m.recovery)
  }

  predicate Queue(sources: seq<Source>, day: string) {
    AllPositive(sources) && Ascending(NotLater, sources) && Only(By(day), sources)
  }

  /** By some day: everything free waits in the order of its day, and what was given is listed in order. */
  ghost predicate Queued(p: Plan, day: string) {
    && Queue(p.pool, day)
    && forall id :: id in p.metrics ==> Queue(ReadyFor(p, id), day) && RowInOrder(p.metrics[id], day)
  }

  lemma LaterDay(sources: seq<Source>, day: string, next: string)
    requires Only(By(day), sources) && CompareText(day, next) <= 0
    ensures Only(By(next), sources)
  {
    forall i | 0 <= i < |sources| ensures By(next)(sources[i].tag) {
      assert By(day)(sources[i].tag);
      if sources[i].tag.date.Some? {
        CompareTextChains(sources[i].tag.date.value, day, next);
      }
    }
  }

  lemma QueuedLater(p: Plan, day: string, next: string)
    requires Queued(p, day) && CompareText(day, next) <= 0
    ensures Queued(p, next)
  {
    LaterDay(p.pool, day, next);
    forall id | id in p.metrics ensures Queue(ReadyFor(p, id), next) && RowInOrder(p.metrics[id], next) {
      LaterDay(ReadyFor(p, id), day, next);
      LaterDay(p.metrics[id].recovery, day, next);
    }
  }

  lemma RecoveredInOrder(m: Metric, arrived: seq<Source>, own: bool, day: string)
    requires RowInOrder(m, day) && Only(On(day), arrived)
    ensures RowInOrder(Recovered(m, arrived, own), day) && Only(On(day), LeftOver(m, arrived))
  {
    if m.backlog > 0 {
      ConsumedTags(On(day), arrived, m.backlog);
      ArrivalLast(day, m.recovery, Consumed(arrived, m.backlog));
    }
  }

  lemma {:induction false} RecoveredAllInOrder(ids: seq<ProjectId>, metrics: map<ProjectId, Metric>, arrived: seq<Source>, day: string)
    requires Only(On(day), arrived) && forall id :: id in metrics ==> RowInOrder(metrics[id], day)
    ensures var r := RecoveredAll(ids, metrics, arrived);
            Only(On(day), r.1) && forall id :: id in metrics ==> RowInOrder(r.0[id], day)
    decreases |ids|
  {
    if ids != [] {
      var id := ids[0];
      if id !in metrics {
        RecoveredAllInOrder(ids[1..], metrics, arrived, day);
      } else {
        RecoveredInOrder(metrics[id], arrived, false, day);
        RecoveredAllInOrder(ids[1..], metrics[id := Recovered(metrics[id], arrived, false)], LeftOver(metrics[id], arrived), day);
      }
    }
  }

  lemma OwnListedFirst(own: seq<Source>, generic: seq<Source>)
    requires Only(Own(), own) && Only(ForAll(), generic) && Ascending(NotLater, own) && Ascending(NotLater, generic)
    ensures Ascending(Listed, own + generic)
  {
    var both, n := own + generic, |own|;
    forall i, j | 0 <= i < j < |both| ensures Listed(both[i].tag, both[j].tag) {
      if i < n {
        assert Own()(own[i].tag);
        if j < n {
          assert NotLater(own[i].tag, own[j].tag);
        } else {
          assert ForAll()(generic[j - n].tag);
        }
      } else {
        assert ForAll()(generic[i - n].tag) && ForAll()(generic[j - n].tag);
        assert NotLater(generic[i - n].tag, generic[j - n].tag);
      }
    }
  }

  lemma DemandListsInOrder(m: Metric, own: seq<Source>, pool: seq<Source>, day: string)
    requires RowInOrder(m, day) && m.supply == [] && Queue(own, day) && Queue(pool, day)
    requires Only(Own(), own) && Only(ForAll(), pool)
    ensures RowInOrder(Demanded(m, own, pool), day)
    ensures Queue(Rest(own, m.required), day) && Queue(Rest(pool, Unfilled(m, own)), day)
  {
    QueueRest(own, m.required, day);
    QueueRest(pool, Unfilled(m, own), day);
    var d, g := Consumed(own, m.required), Consumed(pool, Unfilled(m, own));
    ConsumedTags(Own(), own, m.required);
    ConsumedTags(ForAll(), pool, Unfilled(m, own));
    OwnListedFirst(d, g);
    NothingBefore(d + g);
    AppendedAscending(Listed, [], d + g);
  }

  lemma QueueRest(sources: seq<Source>, quantity: int, day: string)
    requires Queue(sources, day)
    ensures Ascending(NotLater, Consumed(sources, quantity)) && Queue(Rest(sources, quantity), day)
  {
    ConsumedAscending(NotLater, sources, quantity);
    ConsumedTags(By(day), sources, quantity);
    ConsumeKeepsPositive(sources, quantity);
  }

  lemma StepQueued(ids: seq<ProjectId>, p: Plan, starts: map<ProjectId, string>, e: Event)
    requires Queued(p, e.date) && Origins(p) && Known(p, e) && DatedRight(starts, e)
    requires e.Demand? ==> p.metrics[e.project].supply == []
    ensures Queued(Step(ids, p, e), e.date)
  {
    match e
    case Dedicated(day, _, _, id, source) =>
      assert Only(On(day), [source]);
      RecoveredInOrder(p.metrics[id], [source], true, day);
      ArrivalLast(day, ReadyFor(p, id), LeftOver(p.metrics[id], [source]));
    case Generic(day, _, _, source) =>
      assert Only(On(day), [source]);
      RecoveredAllInOrder(ids, p.metrics, [source], day);
      ArrivalLast(day, p.pool, RecoveredAll(ids, p.metrics, [source]).1);
    case Demand(day, _, _, id) =>
      DemandListsInOrder(p.metrics[id], ReadyFor(p, id), p.pool, day);
  }

  /** A run of events, sorted and dated, from a plan in which nobody has started. */
  ghost predicate Proper(ids: seq<ProjectId>, p: Plan, starts: map<ProjectId, string>, events: seq<Event>) {
    && After(ids, p, events).Some? && Origins(p) && Sound(p, {}) && StartsOnce(events) && (forall id :: id in p.metrics ==> id in ids)
    && Sorted(EventOrder, events) && forall j :: 0 <= j < |events| ==> SaysWhose(events[j]) && DatedRight(starts, events[j])
  }

  /** The plan before event k, whose sources say whose they are, and a project that starts there has none. */
  lemma Arriving(ids: seq<ProjectId>, p: Plan, starts: map<ProjectId, string>, events: seq<Event>, k: nat) returns (before: Plan)
    requires Proper(ids, p, starts, events) && k < |events|
    ensures After(ids, p, events[..k]) == Some(before) && Known(before, events[k])
    ensures After(ids, p, events[..k + 1]) == Some(Step(ids, before, events[k])) && DatedRight(starts, events[k])
    ensures Origins(before) && (events[k].Demand? ==> before.metrics[events[k].project].supply == [])
  {
    var front, e, after := events[..k], events[k], p;
    before, after := Around(ids, p, events, k);
    PrefixStartsOnce(events, k);
    PrefixStartsOnce(events, k + 1);
    OriginsStay(ids, p, front);
    StaysSound(ids, p, front);
    assert events[..k + 1] == front + [e];
    StartedNext(front, e);
  }

  lemma QueuedForNext(t: Plan, events: seq<Event>, k: nat)
    requires 0 < k < |events| && Sorted(EventOrder, events) && Queued(t, events[k - 1].date)
    ensures Queued(t, events[k].date)
  {
    DatesRise(events, k - 1, k);
    QueuedLater(t, events[k - 1].date, events[k].date);
  }

  /** The plan after the first k events, by the day of the last of them. */
  lemma {:induction false} StaysQueued(ids: seq<ProjectId>, p: Plan, starts: map<ProjectId, string>, events: seq<Event>, k: nat)
    returns (t: Plan)
    requires Proper(ids, p, starts, events) && 0 < k <= |events| && Queued(p, events[0].date)
    ensures After(ids, p, events[..k]) == Some(t) && Queued(t, events[k - 1].date)
  {
    var before := Arriving(ids, p, starts, events, k - 1);
    if k == 1 {
      assert events[..0] == [];
    } else {
      var same := StaysQueued(ids, p, starts, events, k - 1);
      QueuedForNext(before, events, k - 1);
    }
    StepQueued(ids, before, starts, events[k - 1]);
    t := Step(ids, before, events[k - 1]);
  }

  // ---------- for the snapshot of an item ----------

  /**
   * Whatever is free waits in the order of its day, stock first. What is used is the front of it
   * (PlanningSources.ConsumedInOrder), so the earliest supply is used first.
   */
  lemma FreeSupplyInOrder(projects: seq<Project>, required: map<ProjectId, int>, stock: int, supplies: seq<Event>, k: nat)
    requires Given(projects, required, supplies) && Netted(projects, required, stock, supplies).Some?
    requires k <= |EventsOf(projects, required, supplies)|
    ensures var t := After(IdsOf(projects), Start(required, stock), EventsOf(projects, required, supplies)[..k]);
            && t.Some? && Ascending(NotLater, t.value.pool)
            && forall id :: id in t.value.metrics ==>
                 && Ascending(NotLater, ReadyFor(t.value, id))
                 && Ascending(Listed, t.value.metrics[id].supply) && Ascending(NotLater, t.value.metrics[id].recovery)
  {
    var ids, p, events := IdsOf(projects), Start(required, stock), EventsOf(projects, required, supplies);
    if k == 0 {
      assert events[..0] == [];
    } else {
      SnapshotProper(projects, required, stock, supplies);
      var t := StaysQueued(ids, p, StartsOf(projects), events, k);
    }
  }

  lemma SnapshotProper(projects: seq<Project>, required: map<ProjectId, int>, stock: int, supplies: seq<Event>)
    requires Given(projects, required, supplies) && Netted(projects, required, stock, supplies).Some?
    ensures Proper(IdsOf(projects), Start(required, stock), StartsOf(projects), EventsOf(projects, required, supplies))
  {
    StartIsSound(required, stock);
    EventsStartOnce(projects, required, supplies);
    EventsRight(projects, required, supplies);
    StartOrigins(required, stock);
  }

  /** In the result a project's own supply is listed first, each kind by its day, and what recovers it by its day. */
  lemma NettingListsInOrder(projects: seq<Project>, required: map<ProjectId, int>, stock: int, supplies: seq<Event>, id: ProjectId)
    requires Given(projects, required, supplies) && Netted(projects, required, stock, supplies).Some? && id in required
    ensures var t := Netted(projects, required, stock, supplies).value;
            id in t.metrics && Ascending(Listed, t.metrics[id].supply) && Ascending(NotLater, t.metrics[id].recovery)
  {
    var ids, p, events := IdsOf(projects), Start(required, stock), EventsOf(projects, required, supplies);
    assert events[..|events|] == events;
    FreeSupplyInOrder(projects, required, stock, supplies, |events|);
    MetricsStay(ids, p, events);
  }
}
