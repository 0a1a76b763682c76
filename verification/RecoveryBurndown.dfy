/** The recovery burn-down of frontend/src/features/items/ItemDetailPage.tsx. */
module RecoveryBurndown {
  import opened Wrappers
  import opened Text
  import opened DatedQuantities
  import opened StableSort
  import opened Sums

  datatype Source = Source(sourceType: string, quantity: int, title: string, refId: Option<int>, date: Option<string>)

  const MAX_SAFE_INTEGER := 9007199254740991
  const FAR_DATE := "9999-12-31"

  function LowerAscii(s: string): string {
    seq(|s|, i requires 0 <= i < |s| => if 'A' <= s[i] <= 'Z' then s[i] - 'A' + 'a' else s[i])
  }

  function NormalizeDate(date: Option<string>): Option<string> {
    if date.None? || date.value == "" then None
    else
      var trimmed := Trim(date.value, IsJsSpace);
      if trimmed == "" || LowerAscii(trimmed) == "none" || LowerAscii(trimmed) == "null" then None else Some(trimmed)
  }

  /** A word in lower or upper case letters. */
  predicate Spells(s: string, word: string) {
    |s| == |word| && forall i :: 0 <= i < |s| ==> s[i] == word[i] || ('a' <= word[i] <= 'z' && s[i] == word[i] - 'a' + 'A')
  }

  /** Missing and blank dates, and the words none and null in any case, are no dates; any other is trimmed. */
  lemma NormalizeDateExactly(date: Option<string>)
    ensures var s := Trim(date.GetOr(""), IsJsSpace);
            && (NormalizeDate(date).None? <==> s == "" || Spells(s, "none") || Spells(s, "null"))
            && (NormalizeDate(date).Some? ==> NormalizeDate(date) == Some(s))
  {
    var s := Trim(date.GetOr(""), IsJsSpace);
    TrimKeeps("", IsJsSpace);
    LowerSpells(s, "none");
    LowerSpells(s, "null");
  }

  lemma LowerSpells(s: string, word: string)
    requires forall i :: 0 <= i < |word| ==> 'a' <= word[i] <= 'z'
    ensures LowerAscii(s) == word <==> Spells(s, word)
  {
    if LowerAscii(s) == word {
      assert |s| == |LowerAscii(s)|;
      forall i | 0 <= i < |s| ensures s[i] == word[i] || s[i] == word[i] - 'a' + 'A' {
        assert LowerAscii(s)[i] == word[i];
      }
    }
  }

  /** The date a source is sorted by. */
  function SortDate(s: Source): string {
    NormalizeDate(s.date).GetOr(FAR_DATE)
  }

  function Quantity(s: Source): int {
    s.quantity
  }

  function Compare(cmp: (string, string) -> int, a: Source, b: Source): int {
    if SortDate(a) != SortDate(b) then cmp(SortDate(a), SortDate(b))
    else
      var left, right := a.refId.GetOr(MAX_SAFE_INTEGER), b.refId.GetOr(MAX_SAFE_INTEGER);
      if left != right then left - right else cmp(a.title, b.title)
  }

  // ---------- sorting ----------

  function Comparator(cmp: (string, string) -> int): (Source, Source) -> int {
    (a, b) => Compare(cmp, a, b)
  }

  /** The comparator orders any list consistently. */
  lemma ComparatorConsistent(cmp: (string, string) -> int)
    requires Collation(cmp)
    ensures Consistent(Comparator(cmp))
  {
    forall a, b ensures Comparator(cmp)(a, b) <= 0 || Comparator(cmp)(b, a) <= 0 {
    }
    forall a, b, c | Comparator(cmp)(a, b) <= 0 && Comparator(cmp)(b, c) <= 0 ensures Comparator(cmp)(a, c) <= 0 {
    }
  }

  lemma SortedByDate(cmp: (string, string) -> int, s: seq<Source>)
    requires Collation(cmp) && Sorted(Comparator(cmp), s)
    ensures ByDate(cmp, SortDate, s)
  {
    forall i, j | 0 <= i < j < |s| ensures cmp(SortDate(s[i]), SortDate(s[j])) <= 0 {
      assert Comparator(cmp)(s[i], s[j]) <= 0;
    }
  }

  /** The sources that make up the steps, in step order. */
  function Ordered(cmp: (string, string) -> int, sources: seq<Source>): seq<Source> {
    Positive(Quantity, Sort(Comparator(cmp), sources))
  }

  /** Steps go by date; on one date by reference, those without last; and then by label. */
  lemma StepsInOrder(cmp: (string, string) -> int, sources: seq<Source>, i: nat, j: nat)
    requires Collation(cmp) && i < j < |Ordered(cmp, sources)|
    ensures var a, b := Ordered(cmp, sources)[i], Ordered(cmp, sources)[j];
            && a in sources && b in sources && a.quantity > 0 && b.quantity > 0
            && (SortDate(a) != SortDate(b) ==> cmp(SortDate(a), SortDate(b)) <= 0)
            && (SortDate(a) == SortDate(b) && a.refId.Some? && b.refId.Some? ==>
                  a.refId.value < b.refId.value || (a.refId == b.refId && cmp(a.title, b.title) <= 0))
            && (SortDate(a) == SortDate(b) && a.refId.None? && b.refId.Some? ==> b.refId.value >= MAX_SAFE_INTEGER)
            && (SortDate(a) == SortDate(b) && a.refId.None? && b.refId.None? ==> cmp(a.title, b.title) <= 0)
  {
    var sorted := Sort(Comparator(cmp), sources);
    ComparatorConsistent(cmp);
    SortSorts(Comparator(cmp), sources);
    var k, l := PositivePlaces(sorted, i, j);
    assert Comparator(cmp)(sorted[k], sorted[l]) <= 0;
    assert sorted[k] in multiset(sorted) && sorted[l] in multiset(sorted);
  }

  /** Dropping keeps the order: where the elements that are kept stood. */
  lemma {:induction false} PositivePlaces(s: seq<Source>, i: nat, j: nat) returns (k: nat, l: nat)
    requires i < j < |Positive(Quantity, s)|
    ensures k < l < |s| && s[k] == Positive(Quantity, s)[i] && s[l] == Positive(Quantity, s)[j]
    ensures s[k].quantity > 0 && s[l].quantity > 0
  {
    var front, last := s[..|s| - 1], s[|s| - 1];
    PositiveLast(Quantity, s);
    if j < |Positive(Quantity, front)| {
      k, l := PositivePlaces(front, i, j);
    } else {
      k := PositivePlace(front, i);
      l := |s| - 1;
    }
  }

  lemma {:induction false} PositivePlace(s: seq<Source>, i: nat) returns (k: nat)
    requires i < |Positive(Quantity, s)|
    ensures k < |s| && s[k] == Positive(Quantity, s)[i] && s[k].quantity > 0
  {
    var front := s[..|s| - 1];
    PositiveLast(Quantity, s);
    if i < |Positive(Quantity, front)| {
      k := PositivePlace(front, i);
    } else {
      k := |s| - 1;
    }
  }

  /** Sorting and dropping keep what the sources bring, in total and by any date. */
  lemma OrderedFacts(cmp: (string, string) -> int, sources: seq<Source>, d: string)
    requires Collation(cmp)
    ensures ByDate(cmp, SortDate, Ordered(cmp, sources)) && AllPositive(Quantity, Ordered(cmp, sources))
    ensures RecoveredBy(cmp, SortDate, Quantity, Ordered(cmp, sources), d) == RecoveredBy(cmp, SortDate, Quantity, sources, d)
    ensures Total(Quantity, Ordered(cmp, sources)) == Recovered(Quantity, sources)
  {
    var ordered := Sort(Comparator(cmp), sources);
    ComparatorConsistent(cmp);
    SortSorts(Comparator(cmp), sources);
    SortedByDate(cmp, ordered);
    PositiveByDate(cmp, SortDate, Quantity, ordered);
    PositiveIs(Quantity, ordered);
    DroppingNonPositive(cmp, SortDate, Quantity, ordered, d);
    SameBag(cmp, SortDate, Quantity, ordered, sources, d);
  }

  /** In total even for comparators that are not consistent: sorting permutes. */
  lemma OrderedTotal(cmp: (string, string) -> int, sources: seq<Source>)
    ensures Total(Quantity, Ordered(cmp, sources)) == Recovered(Quantity, sources)
  {
    var sorted := Sort(Comparator(cmp), sources);
    SortPermutes(Comparator(cmp), sources);
    DroppingTotal(Quantity, sorted);
    SameBagTotal(Quantity, sorted, sources);
  }

  // ---------- the burn-down ----------

  function Max(a: int, b: int): int {
    if a >= b then a else b
  }

  function Min(a: int, b: int): int {
    if a <= b then a else b
  }

  datatype Step = Step(date: Option<string>, quantity: int, title: string, sourceType: string, remainingAfter: int)

  /** Step k is the k-th source, with what the first k + 1 of them leave of the shortage. */
  function StepOf(shortage: int, ordered: seq<Source>, k: nat): Step
    requires k < |ordered|
  {
    Step(NormalizeDate(ordered[k].date), ordered[k].quantity, ordered[k].title, ordered[k].sourceType,
         Max(0, shortage - Total(Quantity, ordered[..k + 1])))
  }

  ghost predicate IsBurndown(shortage: int, ordered: seq<Source>, steps: seq<Step>) {
    |steps| == |ordered| && forall k :: 0 <= k < |steps| ==> steps[k] == StepOf(shortage, ordered, k)
  }

  /** The map over the sorted, filtered sources, with its running remainder. */
  method BuildRecoveryBurndown(cmp: (string, string) -> int, shortage: int, sources: seq<Source>) returns (steps: seq<Step>)
    ensures IsBurndown(shortage, Ordered(cmp, sources), steps)
  {
    var remaining := shortage;
    var ordered := Ordered(cmp, sources);
    PositiveIs(Quantity, Sort(Comparator(cmp), sources));
    steps := [];
    for k := 0 to |ordered|
      invariant remaining == if k == 0 then shortage else Max(0, shortage - Total(Quantity, ordered[..k]))
      invariant |steps| == k && forall i :: 0 <= i < k ==> steps[i] == StepOf(shortage, ordered, i)
    {
      NextRemaining(shortage, ordered, k);
      remaining := Max(0, remaining - ordered[k].quantity);
      steps := steps + [Step(NormalizeDate(ordered[k].date), ordered[k].quantity, ordered[k].title,
                             ordered[k].sourceType, remaining)];
    }
  }

  /** What is left after one more source; the remainder stops at zero, and the first one may be negative. */
  lemma NextRemaining(shortage: int, ordered: seq<Source>, k: nat)
    requires k < |ordered| && AllPositive(Quantity, ordered)
    ensures var remaining := if k == 0 then shortage else Max(0, shortage - Total(Quantity, ordered[..k]));
            Max(0, remaining - ordered[k].quantity) == Max(0, shortage - Total(Quantity, ordered[..k + 1]))
  {
    TotalNext(Quantity, ordered, k);
    assert Quantity(ordered[k]) > 0;
    assert ordered[..0] == [];
  }

  /** The final gap is what all sources together leave of the shortage. */
  lemma FinalGap(cmp: (string, string) -> int, shortage: int, sources: seq<Source>, steps: seq<Step>)
    requires IsBurndown(shortage, Ordered(cmp, sources), steps) && steps != []
    ensures steps[|steps| - 1].remainingAfter == Max(0, shortage - Recovered(Quantity, sources))
  {
    OrderedTotal(cmp, sources);
    LastStep(shortage, Ordered(cmp, sources), steps);
  }

  /** It is the same for every order of the sources. */
  lemma FinalGapOrderFree(cmp: (string, string) -> int, shortage: int, a: seq<Source>, b: seq<Source>, s: seq<Step>, t: seq<Step>)
    requires multiset(a) == multiset(b)
    requires IsBurndown(shortage, Ordered(cmp, a), s) && IsBurndown(shortage, Ordered(cmp, b), t)
    requires s != [] && t != []
    ensures s[|s| - 1].remainingAfter == t[|t| - 1].remainingAfter
  {
    FinalGap(cmp, shortage, a, s);
    FinalGap(cmp, shortage, b, t);
    SameBagTotal(Quantity, a, b);
  }

  lemma LastStep(shortage: int, ordered: seq<Source>, steps: seq<Step>)
    requires IsBurndown(shortage, ordered, steps) && steps != []
    ensures steps[|steps| - 1].remainingAfter == Max(0, shortage - Total(Quantity, ordered))
  {
    assert ordered[..|steps|] == ordered;
  }

  // ---------- the summary ----------

  datatype Summary =
    | NoGap
    | NothingScheduled
    | Resolved(recovered: int, date: Option<string>)
    | StillShort(recovered: int, date: Option<string>, gap: int)

  function FirstResolved(steps: seq<Step>): (k: nat)
    ensures k <= |steps| && (k < |steps| ==> steps[k].remainingAfter == 0)
    ensures forall i :: 0 <= i < k ==> steps[i].remainingAfter != 0
  {
    if steps == [] || steps[0].remainingAfter == 0 then 0 else 1 + FirstResolved(steps[1..])
  }

  /** d is the first date by which the sources dated up to it cover the shortage. */
  ghost predicate FirstCovering(cmp: (string, string) -> int, shortage: int, sources: seq<Source>, d: string) {
    && RecoveredBy(cmp, SortDate, Quantity, sources, d) >= shortage
    && forall e :: cmp(e, d) < 0 ==> RecoveredBy(cmp, SortDate, Quantity, sources, e) < shortage
  }

  lemma ResolvedDate(cmp: (string, string) -> int, shortage: int, sources: seq<Source>, r: nat)
    requires Collation(cmp) && shortage > 0 && r < |Ordered(cmp, sources)|
    requires shortage <= Total(Quantity, Ordered(cmp, sources)[..r + 1])
    requires shortage > Total(Quantity, Ordered(cmp, sources)[..r])
    ensures FirstCovering(cmp, shortage, sources, SortDate(Ordered(cmp, sources)[r]))
    ensures Recovered(Quantity, sources) >= shortage
  {
    var ordered := Ordered(cmp, sources);
    var date := SortDate(ordered[r]);
    OrderedFacts(cmp, sources, date);
    AtLeastPrefix(cmp, SortDate, Quantity, ordered, r);
    TotalGrows(Quantity, ordered, r + 1);
    forall e | cmp(e, date) < 0 ensures RecoveredBy(cmp, SortDate, Quantity, sources, e) < shortage {
      OrderedFacts(cmp, sources, e);
      AtMostPrefix(cmp, SortDate, Quantity, ordered, r, e);
    }
  }

  lemma StepResolves(cmp: (string, string) -> int, shortage: int, sources: seq<Source>, steps: seq<Step>, r: nat)
    requires Collation(cmp) && shortage > 0 && IsBurndown(shortage, Ordered(cmp, sources), steps)
    requires r == FirstResolved(steps) && r < |steps|
    ensures FirstCovering(cmp, shortage, sources, steps[r].date.GetOr(FAR_DATE))
    ensures Recovered(Quantity, sources) >= shortage
  {
    var ordered := Ordered(cmp, sources);
    assert steps[r] == StepOf(shortage, ordered, r);
    if r > 0 {
      assert steps[r - 1] == StepOf(shortage, ordered, r - 1);
    } else {
      assert ordered[..0] == [];
    }
    ResolvedDate(cmp, shortage, sources, r);
  }

  /** The dates printed for the sources, missing ones among them. */
  function DatesOf(sources: seq<Source>): (dates: seq<Option<string>>)
    ensures |dates| == |sources| && forall k :: 0 <= k < |dates| ==> dates[k] == NormalizeDate(sources[k].date)
  {
    seq(|sources|, k requires 0 <= k < |sources| => NormalizeDate(sources[k].date))
  }

  method SumQuantities(shortage: int, ghost ordered: seq<Source>, steps: seq<Step>) returns (total: int)
    requires IsBurndown(shortage, ordered, steps)
    ensures total == Total(Quantity, ordered)
  {
    total := 0;
    for k := 0 to |steps|
      invariant total == Total(Quantity, ordered[..k])
    {
      TotalNext(Quantity, ordered, k);
      total := total + steps[k].quantity;
    }
    assert ordered[..|steps|] == ordered;
  }

  /**
   * The reported date is the first by which the sources cover the shortage, in any order they are given, and
   * what is recovered and what stays short make up the shortage.
   */
  method RecoverySummary(cmp: (string, string) -> int, shortage: int, sources: seq<Source>) returns (summary: Summary)
    requires Collation(cmp)
    ensures shortage <= 0 <==> summary.NoGap?
    ensures shortage > 0 ==> (summary.NothingScheduled? <==> Ordered(cmp, sources) == [])
    ensures shortage > 0 ==> (summary.Resolved? <==> Recovered(Quantity, sources) >= shortage)
    ensures summary.Resolved? ==>
              && summary.recovered == shortage && FirstCovering(cmp, shortage, sources, summary.date.GetOr(FAR_DATE))
              && summary.date in DatesOf(Ordered(cmp, sources))
    ensures summary.StillShort? ==>
              && summary.recovered == Recovered(Quantity, sources) && summary.gap == shortage - summary.recovered && summary.gap > 0
              && summary.date == DatesOf(Ordered(cmp, sources))[|Ordered(cmp, sources)| - 1]
  {
    if shortage <= 0 {
      return NoGap;
    }
    var steps := BuildRecoveryBurndown(cmp, shortage, sources);
    OrderedTotal(cmp, sources);
    if |steps| == 0 {
      return NothingScheduled;
    }
    var total := SumQuantities(shortage, Ordered(cmp, sources), steps);
    LastStep(shortage, Ordered(cmp, sources), steps);
    var r := FirstResolved(steps);
    if r < |steps| {
      StepResolves(cmp, shortage, sources, steps, r);
      assert steps[r].date == DatesOf(Ordered(cmp, sources))[r];
      return Resolved(Min(shortage, total), steps[r].date);
    }
    return StillShort(Min(shortage, total), steps[|steps| - 1].date, steps[|steps| - 1].remainingAfter);
  }
}
