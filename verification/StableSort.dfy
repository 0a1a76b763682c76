/** Array.prototype.sort with a consistent comparator: a stable sorted permutation. */
module StableSort {

  /** The comparator is total and transitive. */
  ghost predicate Consistent<T(!new)>(cmp: (T, T) -> int) {
    && (forall a, b :: cmp(a, b) <= 0 || cmp(b, a) <= 0)
    && (forall a, b, c :: cmp(a, b) <= 0 && cmp(b, c) <= 0 ==> cmp(a, c) <= 0)
  }

  function Insert<T>(cmp: (T, T) -> int, x: T, s: seq<T>): seq<T> {
    if s == [] || cmp(x, s[0]) <= 0 then [x] + s else [s[0]] + Insert(cmp, x, s[1..])
  }

  /** By insertion from the right, before equal elements: later equal elements stay later. */
  function Sort<T>(cmp: (T, T) -> int, s: seq<T>): seq<T> {
    if s == [] then [] else Insert(cmp, s[0], Sort(cmp, s[1..]))
  }

  ghost predicate Sorted<T>(cmp: (T, T) -> int, s: seq<T>) {
    forall i, j :: 0 <= i < j < |s| ==> cmp(s[i], s[j]) <= 0
  }

  lemma {:induction false} InsertPermutes<T>(cmp: (T, T) -> int, x: T, s: seq<T>)
    ensures multiset(Insert(cmp, x, s)) == multiset{x} + multiset(s)
  {
    if s != [] && !(cmp(x, s[0]) <= 0) {
      InsertPermutes(cmp, x, s[1..]);
      assert s == [s[0]] + s[1..];
    }
  }

  lemma Prepended<T>(cmp: (T, T) -> int, x: T, s: seq<T>)
    requires Sorted(cmp, s) && forall j :: 0 <= j < |s| ==> cmp(x, s[j]) <= 0
    ensures Sorted(cmp, [x] + s)
  {
  }

  lemma BelowAll<T(!new)>(cmp: (T, T) -> int, x: T, s: seq<T>)
    requires Consistent(cmp) && Sorted(cmp, s) && s != [] && cmp(x, s[0]) <= 0
    ensures forall j :: 0 <= j < |s| ==> cmp(x, s[j]) <= 0
  {
    forall j | 0 <= j < |s| ensures cmp(x, s[j]) <= 0 {
      if j > 0 {
        assert cmp(s[0], s[j]) <= 0;
      }
    }
  }

  lemma {:induction false} InsertSorted<T(!new)>(cmp: (T, T) -> int, x: T, s: seq<T>)
    requires Consistent(cmp) && Sorted(cmp, s)
    ensures Sorted(cmp, Insert(cmp, x, s))
  {
    if s == [] {
    } else if cmp(x, s[0]) <= 0 {
      BelowAll(cmp, x, s);
      Prepended(cmp, x, s);
    } else {
      var rest := Insert(cmp, x, s[1..]);
      InsertSorted(cmp, x, s[1..]);
      InsertedBelow(cmp, x, s, rest);
      Prepended(cmp, s[0], rest);
    }
  }

  lemma InsertedBelow<T(!new)>(cmp: (T, T) -> int, x: T, s: seq<T>, rest: seq<T>)
    requires Sorted(cmp, s) && s != [] && cmp(s[0], x) <= 0 && rest == Insert(cmp, x, s[1..])
    ensures forall j :: 0 <= j < |rest| ==> cmp(s[0], rest[j]) <= 0
  {
    InsertPermutes(cmp, x, s[1..]);
    forall j | 0 <= j < |rest| ensures cmp(s[0], rest[j]) <= 0 {
      assert rest[j] in multiset(rest);
      if rest[j] != x {
        assert rest[j] in s[1..];
      }
    }
  }

  lemma {:induction false} SortPermutes<T>(cmp: (T, T) -> int, s: seq<T>)
    ensures multiset(Sort(cmp, s)) == multiset(s)
  {
    if s != [] {
      SortPermutes(cmp, s[1..]);
      InsertPermutes(cmp, s[0], Sort(cmp, s[1..]));
      assert s == [s[0]] + s[1..];
    }
  }

  lemma {:induction false} SortSorts<T(!new)>(cmp: (T, T) -> int, s: seq<T>)
    requires Consistent(cmp)
    ensures Sorted(cmp, Sort(cmp, s)) && multiset(Sort(cmp, s)) == multiset(s)
  {
    if s != [] {
      SortSorts(cmp, s[1..]);
      InsertSorted(cmp, s[0], Sort(cmp, s[1..]));
    }
    SortPermutes(cmp, s);
  }

  /** The elements that compare equal to a given one, in order. */
  function Ties<T>(cmp: (T, T) -> int, s: seq<T>, x: T): seq<T> {
    if s == [] then []
    else (if cmp(s[0], x) <= 0 && cmp(x, s[0]) <= 0 then [s[0]] else []) + Ties(cmp, s[1..], x)
  }

  lemma {:induction false} InsertStable<T(!new)>(cmp: (T, T) -> int, y: T, s: seq<T>, x: T)
    requires Consistent(cmp) && Sorted(cmp, s)
    ensures Ties(cmp, Insert(cmp, y, s), x) == Ties(cmp, [y] + s, x)
  {
    assert ([y] + s)[1..] == s;
    if s != [] && !(cmp(y, s[0]) <= 0) {
      InsertStable(cmp, y, s[1..], x);
      assert ([y] + s[1..])[1..] == s[1..];
      assert Insert(cmp, y, s)[1..] == Insert(cmp, y, s[1..]);
    }
  }

  /** Elements that compare equal keep their order. */
  lemma {:induction false} SortStable<T(!new)>(cmp: (T, T) -> int, s: seq<T>, x: T)
    requires Consistent(cmp)
    ensures Ties(cmp, Sort(cmp, s), x) == Ties(cmp, s, x)
  {
    if s != [] {
      SortStable(cmp, s[1..], x);
      SortSorts(cmp, s[1..]);
      InsertStable(cmp, s[0], Sort(cmp, s[1..]), x);
      var t := [s[0]] + Sort(cmp, s[1..]);
      assert t[1..] == Sort(cmp, s[1..]);
    }
  }
}
