/** The recently used list of frontend/src/components/CatalogPicker.tsx. */
module RecentSelections {
  import opened Text
  import opened RecencyLists
  import Decimal

  const RECENT_LIMIT := 8

  datatype EntityType = Item | Assembly | Supplier | Project

  datatype Entry = Entry(entityType: EntityType, entityId: int, displayLabel: string, valueText: string)

  function TypeName(t: EntityType): string {
    match t
    case Item => "item"
    case Assembly => "assembly"
    case Supplier => "supplier"
    case Project => "project"
  }

  function ResultKey(e: Entry): string {
    TypeName(e.entityType) + ":" + Decimal.OfInt(e.entityId)
  }

  /** The key tells the entity. */
  lemma ResultKeyInjective(a: Entry, b: Entry)
    requires ResultKey(a) == ResultKey(b)
    ensures a.entityType == b.entityType && a.entityId == b.entityId
  {
    var s, n, m := ResultKey(a), |TypeName(a.entityType)|, |TypeName(b.entityType)|;
    assert s[0] == TypeName(a.entityType)[0] == TypeName(b.entityType)[0];
    assert n == m;
    assert s[n + 1..] == Decimal.OfInt(a.entityId) && ResultKey(b)[m + 1..] == Decimal.OfInt(b.entityId);
    Decimal.OfIntInjective(a.entityId, b.entityId);
  }

  /** rememberSelection and saveRecentSelections: component state and local storage. */
  class RecentPicker {
    var recent: seq<Entry>
    var saved: seq<Entry>

    constructor ()
      ensures recent == [] && saved == []
    {
      recent, saved := [], [];
    }

    method RememberSelection(result: Entry)
      modifies this
      ensures recent == Remembered(ResultKey, RECENT_LIMIT, old(recent), result)
      ensures saved == recent
    {
      var deduped := [result] + Dropping(ResultKey, recent, ResultKey(result));
      recent := Truncate(deduped, RECENT_LIMIT);
      saved := Truncate(deduped, RECENT_LIMIT);
    }
  }

  /** The list after a history of selections, starting from an empty one. */
  function AfterSelections(history: seq<Entry>): seq<Entry> {
    Selected(ResultKey, RECENT_LIMIT, history)
  }

  /** A whole session: the two lists agree after every history. */
  method Session(history: seq<Entry>) returns (picker: RecentPicker)
    ensures fresh(picker) && picker.recent == picker.saved == AfterSelections(history)
  {
    picker := new RecentPicker();
    for i := 0 to |history|
      invariant fresh(picker) && picker.recent == picker.saved == AfterSelections(history[..i])
    {
      picker.RememberSelection(history[i]);
      assert history[..i + 1][..i] == history[..i];
    }
    assert history[..|history|] == history;
  }

  /**
   * Over every history of selections from empty, the list is the first eight of the distinct entities, latest
   * first, each as last selected: truncating at every step loses nothing.
   */
  lemma RecentIsLatestEight(history: seq<Entry>)
    ensures AfterSelections(history) == Truncate(LatestFirst(ResultKey, history, 0), RECENT_LIMIT)
    ensures UniqueKeys(ResultKey, AfterSelections(history)) && |AfterSelections(history)| <= RECENT_LIMIT
  {
    SelectedIsLatest(ResultKey, RECENT_LIMIT, history);
  }

  // ---------- loading what was saved ----------

  function Loaded(saved: seq<Entry>): (r: seq<Entry>)
    ensures |r| == |saved|
    ensures forall i :: 0 <= i < |r| ==>
              r[i] == if Trim(saved[i].valueText, IsJsSpace) != "" then saved[i] else saved[i].(valueText := saved[i].displayLabel)
  {
    seq(|saved|, i requires 0 <= i < |saved| =>
      if Trim(saved[i].valueText, IsJsSpace) != "" then saved[i] else saved[i].(valueText := saved[i].displayLabel))
  }

  /**
   * Over two sittings with a reload in between, the list holds the entities that it would hold without one:
   * what is saved loses none, whatever is selected before and after.
   */
  lemma ReloadLosesNoEntity(before: seq<Entry>, after: seq<Entry>)
    ensures SameKeys(ResultKey, Continued(ResultKey, RECENT_LIMIT, Loaded(AfterSelections(before)), after),
                     AfterSelections(before + after))
  {
    ContinuedSameKeys(ResultKey, RECENT_LIMIT, Loaded(AfterSelections(before)), AfterSelections(before), after);
    SelectedContinued(ResultKey, RECENT_LIMIT, before, after);
  }

  /** An entry with a blank value text comes back with its label in its place. */
  lemma BlankTextIsReplaced(id: int, display: string)
    requires display != " "
    ensures var e := Entry(Item, id, display, " ");
            AfterSelections([e]) == [e] && Loaded(AfterSelections([e])) == [e.(valueText := display)]
  {
    var e := Entry(Item, id, display, " ");
    assert [e][..0] == [];
    assert AfterSelections([]) == [];
    assert AfterSelections([e]) == [e];
    assert " "[1..] == "";
    assert Trim(" ", IsJsSpace) == "";
  }

  /**
   * Reloading keeps the entities and their order for every history, and keeps the entries as they are exactly
   * when none has a blank value text other than its label.
   */
  lemma ReloadExactly(history: seq<Entry>)
    ensures var list := AfterSelections(history);
            && (forall i :: 0 <= i < |list| ==> ResultKey(Loaded(list)[i]) == ResultKey(list[i]))
            && (Loaded(list) == list <==>
                 forall e :: e in list ==> Trim(e.valueText, IsJsSpace) != "" || e.valueText == e.displayLabel)
  {
    var list := AfterSelections(history);
    if Loaded(list) == list {
      forall e | e in list ensures Trim(e.valueText, IsJsSpace) != "" || e.valueText == e.displayLabel {
        var i :| 0 <= i < |list| && list[i] == e;
        assert Loaded(list)[i] == list[i];
      }
    }
  }
}
