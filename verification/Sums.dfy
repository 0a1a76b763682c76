/** Sums over lists, and that they depend on the bag of elements only. */
module Sums {

  function Total<T>(amount: T -> int, s: seq<T>): int {
    if s == [] then 0 else Total(amount, s[..|s| - 1]) + amount(s[|s| - 1])
  }

  lemma TotalNext<T>(amount: T -> int, s: seq<T>, k: nat)
    requires k < |s|
    ensures Total(amount, s[..k + 1]) == Total(amount, s[..k]) + amount(s[k])
  {
    assert s[..k + 1][..k] == s[..k];
  }

  lemma {:induction false} TotalConcat<T>(amount: T -> int, a: seq<T>, b: seq<T>)
    ensures Total(amount, a + b) == Total(amount, a) + Total(amount, b)
  {
    if b == [] {
      assert a + b == a;
    } else {
      assert (a + b)[..|a + b| - 1] == a + b[..|b| - 1];
      TotalConcat(amount, a, b[..|b| - 1]);
    }
  }

  /** Replacing one element changes the sum by the difference. */
  lemma TotalUpdate<T>(amount: T -> int, s: seq<T>, i: nat, x: T)
    requires i < |s|
    ensures Total(amount, s[i := x]) == Total(amount, s) - amount(s[i]) + amount(x)
  {
    var front, back := s[..i], s[i + 1..];
    assert s == front + [s[i]] + back && s[i := x] == front + [x] + back;
    TotalConcat(amount, front + [s[i]], back);
    TotalConcat(amount, front, [s[i]]);
    TotalConcat(amount, front + [x], back);
    TotalConcat(amount, front, [x]);
    assert [s[i]][..0] == [x][..0] == [];
  }

  /** The last element of a list, found in any list with the same elements. */
  lemma SplitAt<T>(b: seq<T>, a: seq<T>) returns (front: seq<T>, back: seq<T>)
    requires multiset(a) == multiset(b) && a != []
    ensures b == front + [a[|a| - 1]] + back && multiset(a[..|a| - 1]) == multiset(front + back)
  {
    var x := a[|a| - 1];
    assert a == a[..|a| - 1] + [x];
    assert x in multiset(b);
    var i :| 0 <= i < |b| && b[i] == x;
    front, back := b[..i], b[i + 1..];
    assert b == front + [x] + back;
    assert multiset(a) == multiset(a[..|a| - 1]) + multiset{x};
    assert multiset(b) == multiset(front) + multiset{x} + multiset(back);
    assert multiset(front + back) == multiset(front) + multiset(back);
    assert multiset(a[..|a| - 1]) == multiset(a) - multiset{x} == multiset(b) - multiset{x} == multiset(front + back);
  }

  lemma {:induction false} TotalSameBag<T>(amount: T -> int, a: seq<T>, b: seq<T>)
    requires multiset(a) == multiset(b)
    ensures Total(amount, a) == Total(amount, b)
  {
    if a == [] {
      assert |b| == |multiset(b)| == 0;
    } else {
      var x := a[|a| - 1];
      var front, back := SplitAt(b, a);
      TotalSameBag(amount, a[..|a| - 1], front + back);
      TotalConcat(amount, front, [x]);
      TotalConcat(amount, front + [x], back);
      TotalConcat(amount, front, back);
      assert [x][..0] == [];
    }
  }
}
