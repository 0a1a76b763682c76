/** Sums over dated quantities: what does not depend on the order of a list, and what sorting by date adds. */
module DatedQuantities {
  import opened Seqs
  import opened Sums

  /** A collation: negative, zero or positive, a total order on strings. */
  ghost predicate Collation(cmp: (string, string) -> int) {
    && (forall a, b :: cmp(a, b) == 0 <==> a == b)
    && (forall a, b :: cmp(a, b) < 0 <==> cmp(b, a) > 0)
    && (forall a, b, c :: cmp(a, b) <= 0 && cmp(b, c) <= 0 ==> cmp(a, c) <= 0)
  }

  predicate ByDate<T>(cmp: (string, string) -> int, when: T -> string, s: seq<T>) {
    forall i, j :: 0 <= i < j < |s| ==> cmp(when(s[i]), when(s[j])) <= 0
  }

  predicate AllPositive<T>(amount: T -> int, s: seq<T>) {
    forall i :: 0 <= i < |s| ==> amount(s[i]) > 0
  }

  function Positive<T>(amount: T -> int, s: seq<T>): seq<T> {
    if s == [] then []
    else Positive(amount, s[..|s| - 1]) + if amount(s[|s| - 1]) > 0 then [s[|s| - 1]] else []
  }

  /** What the positive quantities dated up to d bring. */
  function RecoveredBy<T>(cmp: (string, string) -> int, when: T -> string, amount: T -> int, s: seq<T>, d: string): int {
    if s == [] then 0
    else
      var x := s[|s| - 1];
      RecoveredBy(cmp, when, amount, s[..|s| - 1], d) + if amount(x) > 0 && cmp(when(x), d) <= 0 then amount(x) else 0
  }

  /** What all positive quantities bring. */
  function Recovered<T>(amount: T -> int, s: seq<T>): int {
    if s == [] then 0
    else Recovered(amount, s[..|s| - 1]) + if amount(s[|s| - 1]) > 0 then amount(s[|s| - 1]) else 0
  }

  lemma {:induction false} RecoveredConcat<T>(cmp: (string, string) -> int, when: T -> string, amount: T -> int,
                                              a: seq<T>, b: seq<T>, d: string)
    ensures RecoveredBy(cmp, when, amount, a + b, d) == RecoveredBy(cmp, when, amount, a, d) + RecoveredBy(cmp, when, amount, b, d)
    ensures Recovered(amount, a + b) == Recovered(amount, a) + Recovered(amount, b)
  {
    if b == [] {
      assert a + b == a;
    } else {
      assert (a + b)[..|a + b| - 1] == a + b[..|b| - 1];
      RecoveredConcat(cmp, when, amount, a, b[..|b| - 1], d);
    }
  }

  lemma Moved<T>(cmp: (string, string) -> int, when: T -> string, amount: T -> int, front: seq<T>, x: T, back: seq<T>, d: string)
    ensures RecoveredBy(cmp, when, amount, front + [x] + back, d) == RecoveredBy(cmp, when, amount, front + back + [x], d)
    ensures Recovered(amount, front + [x] + back) == Recovered(amount, front + back + [x])
  {
    RecoveredConcat(cmp, when, amount, front, [x], d);
    RecoveredConcat(cmp, when, amount, front + [x], back, d);
    RecoveredConcat(cmp, when, amount, front, back, d);
    RecoveredConcat(cmp, when, amount, front + back, [x], d);
  }

  /** Both sums are those of the bag of quantities. */
  lemma {:induction false} SameBag<T>(cmp: (string, string) -> int, when: T -> string, amount: T -> int,
                                      a: seq<T>, b: seq<T>, d: string)
    requires multiset(a) == multiset(b)
    ensures RecoveredBy(cmp, when, amount, a, d) == RecoveredBy(cmp, when, amount, b, d)
    ensures Recovered(amount, a) == Recovered(amount, b)
  {
    if a == [] {
      assert |b| == |multiset(b)| == 0;
    } else {
      var x, init := a[|a| - 1], a[..|a| - 1];
      var front, back := SplitAt(b, a);
      Moved(cmp, when, amount, front, x, back, d);
      SameBag(cmp, when, amount, init, front + back, d);
      assert (front + back + [x])[..|front + back|] == front + back;
    }
  }

  lemma SameBagTotal<T>(amount: T -> int, a: seq<T>, b: seq<T>)
    requires multiset(a) == multiset(b)
    ensures Recovered(amount, a) == Recovered(amount, b)
  {
    SameBag((x, y) => 0, x => "", amount, a, b, "");
  }

  lemma {:induction false} PositiveIs<T>(amount: T -> int, s: seq<T>)
    ensures AllPositive(amount, Positive(amount, s))
  {
    if s != [] {
      PositiveIs(amount, s[..|s| - 1]);
    }
  }

  lemma {:induction false} DroppingNonPositive<T>(cmp: (string, string) -> int, when: T -> string, amount: T -> int, s: seq<T>, d: string)
    ensures RecoveredBy(cmp, when, amount, Positive(amount, s), d) == RecoveredBy(cmp, when, amount, s, d)
    ensures Total(amount, Positive(amount, s)) == Recovered(amount, s)
  {
    if s != [] {
      var init, x := s[..|s| - 1], s[|s| - 1];
      DroppingNonPositive(cmp, when, amount, init, d);
      PositiveLast(amount, s);
      Appended(Positive(amount, init), x);
    }
  }

  lemma PositiveLast<T>(amount: T -> int, s: seq<T>)
    requires s != []
    ensures var kept, x := Positive(amount, s[..|s| - 1]), s[|s| - 1];
            Positive(amount, s) == if amount(x) > 0 then kept + [x] else kept
  {
  }

  lemma DroppingTotal<T>(amount: T -> int, s: seq<T>)
    ensures Total(amount, Positive(amount, s)) == Recovered(amount, s)
  {
    DroppingNonPositive((x, y) => 0, x => "", amount, s, "");
  }

  lemma {:induction false} PositiveIn<T>(amount: T -> int, s: seq<T>, m: nat)
    requires m < |Positive(amount, s)|
    ensures exists k :: 0 <= k < |s| && s[k] == Positive(amount, s)[m]
  {
    var init := s[..|s| - 1];
    if m < |Positive(amount, init)| {
      PositiveIn(amount, init, m);
      var k :| 0 <= k < |init| && init[k] == Positive(amount, init)[m];
      assert s[k] == Positive(amount, s)[m];
    } else {
      assert s[|s| - 1] == Positive(amount, s)[m];
    }
  }

  lemma {:induction false} PositiveByDate<T>(cmp: (string, string) -> int, when: T -> string, amount: T -> int, s: seq<T>)
    requires ByDate(cmp, when, s)
    ensures ByDate(cmp, when, Positive(amount, s))
  {
    if s != [] {
      var init, last := s[..|s| - 1], s[|s| - 1];
      PositiveByDate(cmp, when, amount, init);
      var kept := Positive(amount, init);
      forall i | 0 <= i < |kept| ensures cmp(when(kept[i]), when(last)) <= 0 {
        PositiveIn(amount, init, i);
        var k :| 0 <= k < |init| && init[k] == kept[i];
        assert s[k] == kept[i];
      }
    }
  }

  lemma {:induction false} RecoveredByAtMost<T>(cmp: (string, string) -> int, when: T -> string, amount: T -> int, s: seq<T>, d: string)
    requires AllPositive(amount, s)
    ensures RecoveredBy(cmp, when, amount, s, d) <= Total(amount, s)
  {
    if s != [] {
      RecoveredByAtMost(cmp, when, amount, s[..|s| - 1], d);
    }
  }

  lemma {:induction false} AllDatedBefore<T>(cmp: (string, string) -> int, when: T -> string, amount: T -> int, s: seq<T>, d: string)
    requires AllPositive(amount, s) && forall i :: 0 <= i < |s| ==> cmp(when(s[i]), d) <= 0
    ensures RecoveredBy(cmp, when, amount, s, d) == Total(amount, s)
  {
    if s != [] {
      AllDatedBefore(cmp, when, amount, s[..|s| - 1], d);
    }
  }

  lemma {:induction false} AllDatedAfter<T>(cmp: (string, string) -> int, when: T -> string, amount: T -> int, s: seq<T>, d: string)
    requires forall i :: 0 <= i < |s| ==> cmp(when(s[i]), d) > 0
    ensures RecoveredBy(cmp, when, amount, s, d) == 0
  {
    if s != [] {
      AllDatedAfter(cmp, when, amount, s[..|s| - 1], d);
    }
  }

  lemma {:induction false} RecoveredByNonNegative<T>(cmp: (string, string) -> int, when: T -> string, amount: T -> int, s: seq<T>, d: string)
    ensures RecoveredBy(cmp, when, amount, s, d) >= 0
  {
    if s != [] {
      RecoveredByNonNegative(cmp, when, amount, s[..|s| - 1], d);
    }
  }

  /** In a list sorted by date, those dated up to that of position k include positions 0 to k. */
  lemma AtLeastPrefix<T>(cmp: (string, string) -> int, when: T -> string, amount: T -> int, s: seq<T>, k: nat)
    requires Collation(cmp) && ByDate(cmp, when, s) && AllPositive(amount, s) && k < |s|
    ensures RecoveredBy(cmp, when, amount, s, when(s[k])) >= Total(amount, s[..k + 1])
  {
    var d, front, back := when(s[k]), s[..k + 1], s[k + 1..];
    FrontDated(cmp, when, s, front, k);
    assert s == front + back;
    FrontCounts(cmp, when, amount, s, front, back, d);
  }

  lemma FrontCounts<T>(cmp: (string, string) -> int, when: T -> string, amount: T -> int, s: seq<T>, front: seq<T>, back: seq<T>, d: string)
    requires s == front + back && AllPositive(amount, s) && forall i :: 0 <= i < |front| ==> cmp(when(front[i]), d) <= 0
    ensures RecoveredBy(cmp, when, amount, s, d) >= Total(amount, front)
  {
    PositiveParts(amount, front, back);
    RecoveredConcat(cmp, when, amount, front, back, d);
    AllDatedBefore(cmp, when, amount, front, d);
    RecoveredByNonNegative(cmp, when, amount, back, d);
  }

  lemma PositiveParts<T>(amount: T -> int, front: seq<T>, back: seq<T>)
    requires AllPositive(amount, front + back)
    ensures AllPositive(amount, front) && AllPositive(amount, back)
  {
    forall i | 0 <= i < |front| ensures amount(front[i]) > 0 {
      assert (front + back)[i] == front[i];
    }
    forall i | 0 <= i < |back| ensures amount(back[i]) > 0 {
      assert (front + back)[|front| + i] == back[i];
    }
  }

  lemma FrontDated<T>(cmp: (string, string) -> int, when: T -> string, s: seq<T>, front: seq<T>, k: nat)
    requires Collation(cmp) && ByDate(cmp, when, s) && k < |s| && front == s[..k + 1]
    ensures forall i :: 0 <= i < |front| ==> cmp(when(front[i]), when(s[k])) <= 0
  {
    var d := when(s[k]);
    assert cmp(d, d) == 0;
    forall i | 0 <= i < |front| ensures cmp(when(front[i]), d) <= 0 {
      assert front[i] == s[i];
    }
  }

  lemma BackDated<T>(cmp: (string, string) -> int, when: T -> string, s: seq<T>, back: seq<T>, k: nat, d: string)
    requires Collation(cmp) && ByDate(cmp, when, s) && k < |s| && back == s[k..] && cmp(d, when(s[k])) < 0
    ensures forall i :: 0 <= i < |back| ==> cmp(when(back[i]), d) > 0
  {
    assert cmp(when(s[k]), when(s[k])) == 0;
    forall i | 0 <= i < |back| ensures cmp(when(back[i]), d) > 0 {
      assert back[i] == s[k + i];
      LaterStill(cmp, d, when(s[k]), when(s[k + i]));
    }
  }

  lemma LaterStill(cmp: (string, string) -> int, d: string, a: string, b: string)
    requires Collation(cmp) && cmp(d, a) < 0 && cmp(a, b) <= 0
    ensures cmp(b, d) > 0
  {
  }

  /** And those dated before it are among the positions below k. */
  lemma AtMostPrefix<T>(cmp: (string, string) -> int, when: T -> string, amount: T -> int, s: seq<T>, k: nat, d: string)
    requires Collation(cmp) && ByDate(cmp, when, s) && AllPositive(amount, s) && k < |s| && cmp(d, when(s[k])) < 0
    ensures RecoveredBy(cmp, when, amount, s, d) <= Total(amount, s[..k])
  {
    var front, back := s[..k], s[k..];
    assert s == front + back;
    BackDated(cmp, when, s, back, k, d);
    RecoveredConcat(cmp, when, amount, front, back, d);
    RecoveredByAtMost(cmp, when, amount, front, d);
    AllDatedAfter(cmp, when, amount, back, d);
  }

  lemma {:induction false} TotalGrows<T>(amount: T -> int, s: seq<T>, k: nat)
    requires k <= |s| && AllPositive(amount, s)
    ensures Total(amount, s[..k]) <= Total(amount, s)
  {
    if k < |s| {
      TotalGrows(amount, s[..|s| - 1], k);
      assert s[..|s| - 1][..k] == s[..k];
    } else {
      assert s[..k] == s;
    }
  }
}
