/** File names of the object store (backend/app/storage.py): sanitising them and finding a free one. */
module StorageNames {
  import opened Wrappers
  import opened Text
  import Decimal

  // ---------- path text, as pathlib reads it ----------

  /** The text up to the first slash. */
  function FirstPart(s: string): (n: nat)
    ensures n <= |s| && (n < |s| ==> s[n] == '/')
    ensures forall i :: 0 <= i < n ==> s[i] != '/'
  {
    if s == "" || s[0] == '/' then 0 else 1 + FirstPart(s[1..])
  }

  /** The components of a path text; empty ones and "." are dropped. */
  function Parts(s: string): seq<string>
    decreases |s|
  {
    var n := FirstPart(s);
    var head := if s[..n] == "" || s[..n] == "." then [] else [s[..n]];
    if n == |s| then head else head + Parts(s[n + 1..])
  }

  /** A component as it can appear in a path. */
  predicate IsPart(p: string) {
    p != "" && p != "." && '/' !in p
  }

  predicate AreParts(ps: seq<string>) {
    forall i :: 0 <= i < |ps| ==> IsPart(ps[i])
  }

  function Posix(ps: seq<string>): string {
    if ps == [] then ""
    else if |ps| == 1 then ps[0]
    else ps[0] + "/" + Posix(ps[1..])
  }

  function LastOf(ps: seq<string>): string {
    if ps == [] then "" else ps[|ps| - 1]
  }

  lemma {:induction false} PartsAreParts(s: string)
    ensures AreParts(Parts(s))
    decreases |s|
  {
    var n := FirstPart(s);
    if n < |s| {
      PartsAreParts(s[n + 1..]);
    }
  }

  lemma {:induction false} FirstPartOf(p: string, rest: string)
    requires '/' !in p && (rest == "" || rest[0] == '/')
    ensures FirstPart(p + rest) == |p|
  {
    if p == "" {
      assert p + rest == rest;
    } else {
      assert (p + rest)[1..] == p[1..] + rest;
      FirstPartOf(p[1..], rest);
    }
  }

  /** Reading a printed path gives its components back. */
  lemma {:induction false} PartsOfPosix(ps: seq<string>)
    requires AreParts(ps)
    ensures Parts(Posix(ps)) == ps
    decreases |ps|
  {
    if |ps| == 1 {
      FirstPartOf(ps[0], "");
      assert ps[0] + "" == ps[0];
    } else if |ps| > 1 {
      var rest := "/" + Posix(ps[1..]);
      FirstPartOf(ps[0], rest);
      var s := Posix(ps);
      assert s == ps[0] + rest;
      assert s[|ps[0]| + 1..] == Posix(ps[1..]) && s[..|ps[0]|] == ps[0];
      PartsOfPosix(ps[1..]);
    }
  }

  lemma PosixInjective(a: seq<string>, b: seq<string>)
    requires AreParts(a) && AreParts(b) && Posix(a) == Posix(b)
    ensures a == b
  {
    PartsOfPosix(a);
    PartsOfPosix(b);
  }

  lemma {:induction false} PosixConcat(a: seq<string>, b: seq<string>)
    requires a != [] && b != []
    ensures Posix(a + b) == Posix(a) + "/" + Posix(b)
  {
    if |a| > 1 {
      assert (a + b)[1..] == a[1..] + b;
      PosixConcat(a[1..], b);
    } else {
      assert (a + b)[1..] == b;
    }
  }

  lemma {:induction false} PosixEnds(ps: seq<string>)
    requires AreParts(ps) && ps != []
    ensures var s := Posix(ps);
            && s != "" && s[0] == ps[0][0] && s[|s| - 1] == LastOf(ps)[|LastOf(ps)| - 1]
    ensures NoNewline(Posix(ps)) <==> forall i :: 0 <= i < |ps| ==> NoNewline(ps[i])
  {
    if |ps| > 1 {
      PosixEnds(ps[1..]);
      JoinEnds(ps[0], Posix(ps[1..]));
      AllParts(ps);
    }
  }

  lemma JoinEnds(p: string, t: string)
    requires p != "" && t != ""
    ensures var s := p + "/" + t;
            && s != "" && s[0] == p[0] && s[|s| - 1] == t[|t| - 1]
            && (NoNewline(s) <==> NoNewline(p) && NoNewline(t))
  {
  }

  lemma AllParts(ps: seq<string>)
    requires ps != []
    ensures (forall i :: 0 <= i < |ps| ==> NoNewline(ps[i]))
            <==> NoNewline(ps[0]) && forall i :: 0 <= i < |ps[1..]| ==> NoNewline(ps[1..][i])
  {
    if NoNewline(ps[0]) && forall i :: 0 <= i < |ps[1..]| ==> NoNewline(ps[1..][i]) {
      forall i | 0 <= i < |ps| ensures NoNewline(ps[i]) {
        assert i > 0 ==> ps[i] == ps[1..][i - 1];
      }
    }
  }

  predicate NoNewline(s: string) {
    '\n' !in s
  }

  // ---------- sanitising ----------

  predicate IsSafe(c: char) {
    'A' <= c <= 'Z' || 'a' <= c <= 'z' || '0' <= c <= '9' || c == '.' || c == '_' || c == '-'
  }

  predicate IsEdge(c: char) {
    c == '.' || c == '_'
  }

  /** Each run of other characters becomes one underscore; inRun says whether the last one was already written. */
  function Collapse(s: string, inRun: bool): string {
    if s == "" then ""
    else if IsSafe(s[0]) then [s[0]] + Collapse(s[1..], false)
    else (if inRun then "" else "_") + Collapse(s[1..], true)
  }

  function SafeFilename(filename: string, default: string): string {
    var name := LastOf(Parts(if filename != "" then filename else default));
    var candidate := Trim(Collapse(Trim(name, IsPySpace), false), IsEdge);
    if candidate != "" then candidate else default
  }

  /** Only safe characters, and neither dots nor underscores at either end. */
  predicate GoodName(n: string) {
    && n != "" && !IsEdge(n[0]) && !IsEdge(n[|n| - 1])
    && forall i :: 0 <= i < |n| ==> IsSafe(n[i])
  }

  lemma {:induction false} CollapseSafe(s: string, inRun: bool)
    ensures forall i :: 0 <= i < |Collapse(s, inRun)| ==> IsSafe(Collapse(s, inRun)[i])
  {
    if s != "" {
      CollapseSafe(s[1..], false);
      CollapseSafe(s[1..], true);
    }
  }

  /** The sanitised name is good, or it is the default. */
  lemma SafeFilenameGood(filename: string, default: string)
    ensures GoodName(SafeFilename(filename, default)) || SafeFilename(filename, default) == default
  {
    var name := LastOf(Parts(if filename != "" then filename else default));
    var collapsed := Collapse(Trim(name, IsPySpace), false);
    CollapseSafe(Trim(name, IsPySpace), false);
    TrimSpec(collapsed, IsEdge);
    var candidate := Trim(collapsed, IsEdge);
    forall i | 0 <= i < |candidate| ensures IsSafe(candidate[i]) {
      assert candidate[i] in collapsed;
    }
  }

  // ---------- sanitising, position by position ----------

  /** Character j writes one of the result: a safe character itself, the first of a run of others an underscore. */
  predicate Writes(c: string, j: nat)
    requires j < |c|
  {
    IsSafe(c[j]) || j == 0 || IsSafe(c[j - 1])
  }

  function Written(c: char): char {
    if IsSafe(c) then c else '_'
  }

  /** How many characters the first n write. */
  function WrittenBy(c: string, n: nat): nat
    requires n <= |c|
  {
    if n == 0 then 0 else WrittenBy(c, n - 1) + if Writes(c, n - 1) then 1 else 0
  }

  lemma {:induction false} CollapseEnd(s: string, x: char, inRun: bool)
    ensures Collapse(s + [x], inRun)
            == Collapse(s, inRun)
               + if IsSafe(x) then [x] else if (s == "" && inRun) || (s != "" && !IsSafe(s[|s| - 1])) then "" else "_"
  {
    if s == "" {
      assert s + [x] == [x] && [x][1..] == "";
    } else {
      assert (s + [x])[0] == s[0] && (s + [x])[1..] == s[1..] + [x];
      CollapseEnd(s[1..], x, !IsSafe(s[0]));
    }
  }

  /** Collapsing writes exactly those characters, each at its place. */
  lemma {:induction false} CollapseExactly(c: string, n: nat)
    requires n <= |c|
    ensures |Collapse(c[..n], false)| == WrittenBy(c, n) && AllWritten(c, n, Collapse(c[..n], false))
  {
    if n > 0 {
      CollapseExactly(c, n - 1);
      assert c[..n] == c[..n - 1] + [c[n - 1]];
      CollapseEnd(c[..n - 1], c[n - 1], false);
      OneWritten(c, n, Collapse(c[..n - 1], false));
    }
  }

  /** The first n characters have written theirs. */
  predicate AllWritten(c: string, n: nat, all: string)
    requires n <= |c|
  {
    forall j :: 0 <= j < n && Writes(c, j) ==> WrittenBy(c, j) < |all| && all[WrittenBy(c, j)] == Written(c[j])
  }

  lemma OneWritten(c: string, n: nat, before: string)
    requires 0 < n <= |c| && |before| == WrittenBy(c, n - 1) && AllWritten(c, n - 1, before)
    ensures AllWritten(c, n, before + if Writes(c, n - 1) then [Written(c[n - 1])] else "")
  {
  }

  /** Every place is written by some character. */
  lemma {:induction false} WriterOf(c: string, n: nat, m: nat) returns (j: nat)
    requires n <= |c| && m < WrittenBy(c, n)
    ensures j < n && Writes(c, j) && WrittenBy(c, j) == m
  {
    if Writes(c, n - 1) && WrittenBy(c, n - 1) == m {
      j := n - 1;
    } else {
      j := WriterOf(c, n - 1, m);
    }
  }

  predicate Unusable(ch: char) {
    !IsSafe(ch) || IsEdge(ch)
  }

  /** The last component of the name, without white space around it. */
  function NamePart(filename: string, default: string): string {
    Trim(LastOf(Parts(if filename != "" then filename else default)), IsPySpace)
  }

  /** The result is what the places from lo to hi are written; what is cut off is dots and underscores. */
  predicate WrittenBetween(c: string, result: string, lo: nat, hi: nat) {
    && lo < hi <= WrittenBy(c, |c|) && |result| == hi - lo
    && !IsEdge(result[0]) && !IsEdge(result[|result| - 1])
    && forall j :: 0 <= j < |c| && Writes(c, j) ==>
         if lo <= WrittenBy(c, j) < hi then result[WrittenBy(c, j) - lo] == Written(c[j]) else IsEdge(Written(c[j]))
  }

  lemma AllUnusable(c: string, candidate: string, lo: nat, hi: nat)
    requires |Collapse(c, false)| == WrittenBy(c, |c|)
    requires lo <= hi <= WrittenBy(c, |c|) && candidate == Collapse(c, false)[lo..hi]
    requires forall k :: 0 <= k < lo || hi <= k < WrittenBy(c, |c|) ==> IsEdge(Collapse(c, false)[k])
    requires lo < hi ==> !IsEdge(Collapse(c, false)[lo])
    ensures candidate == "" <==> forall i :: 0 <= i < |c| ==> Unusable(c[i])
  {
    assert c[..|c|] == c;
    CollapseExactly(c, |c|);
    if candidate == "" {
      forall i | 0 <= i < |c| ensures Unusable(c[i]) {
        if Writes(c, i) {
          assert Collapse(c, false)[WrittenBy(c, i)] == Written(c[i]);
        }
      }
    } else {
      var j := WriterOf(c, |c|, lo);
      assert Collapse(c, false)[lo] == Written(c[j]);
    }
  }

  /**
   * The default is used if and only if the component has nothing but unsafe characters, dots and underscores.
   * Otherwise the result holds, up to dots and underscores cut off at its ends, the component's safe characters in
   * order, and one underscore for each run of others.
   */
  lemma SafeFilenameExactly(filename: string, default: string)
    ensures var c, result := NamePart(filename, default), SafeFilename(filename, default);
            if forall i :: 0 <= i < |c| ==> Unusable(c[i]) then result == default
            else exists lo, hi :: WrittenBetween(c, result, lo, hi)
  {
    var c := NamePart(filename, default);
    var all := Collapse(c, false);
    assert c[..|c|] == c;
    CollapseExactly(c, |c|);
    var lo, hi := TrimExactly(all, IsEdge);
    AllUnusable(c, all[lo..hi], lo, hi);
    if all[lo..hi] != "" {
      Between(c, all, lo, hi);
      assert SafeFilename(filename, default) == all[lo..hi];
    }
  }

  lemma Between(c: string, all: string, lo: nat, hi: nat)
    requires AllWritten(c, |c|, all) && |all| == WrittenBy(c, |c|) && lo < hi <= |all|
    requires forall k :: 0 <= k < lo || hi <= k < |all| ==> IsEdge(all[k])
    requires !IsEdge(all[lo]) && !IsEdge(all[hi - 1])
    ensures WrittenBetween(c, all[lo..hi], lo, hi)
  {
    forall j | 0 <= j < |c| && Writes(c, j)
      ensures if lo <= WrittenBy(c, j) < hi then all[lo..hi][WrittenBy(c, j) - lo] == Written(c[j]) else IsEdge(Written(c[j]))
    {
      OneBetween(c, all, lo, hi, j);
    }
  }

  lemma OneBetween(c: string, all: string, lo: nat, hi: nat, j: nat)
    requires AllWritten(c, |c|, all) && lo < hi <= |all| && j < |c| && Writes(c, j)
    requires forall k :: 0 <= k < lo || hi <= k < |all| ==> IsEdge(all[k])
    ensures if lo <= WrittenBy(c, j) < hi then all[lo..hi][WrittenBy(c, j) - lo] == Written(c[j]) else IsEdge(Written(c[j]))
  {
    assert all[WrittenBy(c, j)] == Written(c[j]);
  }

  lemma WrittenIsGood(c: string, result: string, lo: nat, hi: nat)
    requires WrittenBetween(c, result, lo, hi)
    ensures GoodName(result)
  {
    forall m | 0 <= m < |result| ensures IsSafe(result[m]) {
      var j := WriterOf(c, |c|, lo + m);
      assert result[m] == Written(c[j]);
    }
  }

  // ---------- good names ----------

  lemma {:induction false} CollapseKeeps(s: string, inRun: bool)
    requires forall i :: 0 <= i < |s| ==> IsSafe(s[i])
    ensures Collapse(s, inRun) == s
  {
    if s != "" {
      CollapseKeeps(s[1..], false);
    }
  }

  lemma GoodNameIsPart(n: string)
    requires GoodName(n)
    ensures IsPart(n) && '\n' !in n && !IsPySpace(n[0]) && !IsPySpace(n[|n| - 1])
  {
    assert n[0] != '.';
  }

  /** Sanitising a good name changes nothing, whatever the default. */
  lemma SafeFilenameKeeps(n: string, default: string)
    requires GoodName(n)
    ensures SafeFilename(n, default) == n
  {
    GoodNameIsPart(n);
    PartsOfPosix([n]);
    TrimKeeps(n, IsPySpace);
    CollapseKeeps(n, false);
    TrimKeeps(n, IsEdge);
  }

  // ---------- stem, suffix and numbered names ----------

  function LastDot(n: string): (i: int)
    ensures -1 <= i < |n| && (i >= 0 ==> n[i] == '.')
  {
    if n == "" then -1 else if n[|n| - 1] == '.' then |n| - 1 else LastDot(n[..|n| - 1])
  }

  function Suffix(n: string): string {
    var i := LastDot(n);
    if 0 < i < |n| - 1 then n[i..] else ""
  }

  function Stem(n: string): (s: string)
    ensures s + Suffix(n) == n
    ensures n != "" ==> s != "" && s[0] == n[0]
  {
    n[..|n| - |Suffix(n)|]
  }

  function Numbered(n: string, k: nat): string {
    Stem(n) + "_" + Decimal.OfNat(k) + Suffix(n)
  }

  /** pathlib's suffix: from the last dot on, unless that is the first or the last character. */
  lemma SuffixExactly(n: string)
    ensures n == Stem(n) + Suffix(n)
    ensures Suffix(n) != "" <==> exists i :: 0 < i < |n| - 1 && n[i] == '.' && forall j :: i < j < |n| ==> n[j] != '.'
    ensures Suffix(n) != "" ==>
              |Suffix(n)| > 1 && Suffix(n)[0] == '.' && (forall j :: 1 <= j < |Suffix(n)| ==> Suffix(n)[j] != '.') && Stem(n) != ""
  {
    LastDotExactly(n);
    var i := LastDot(n);
    if 0 < i < |n| - 1 {
      assert n[i] == '.' && forall j :: i < j < |n| ==> n[j] != '.';
    }
    if k :| 0 < k < |n| - 1 && n[k] == '.' && forall j :: k < j < |n| ==> n[j] != '.' {
      assert k == i;
    }
  }

  lemma {:induction false} LastDotExactly(n: string)
    ensures forall j :: LastDot(n) < j < |n| ==> n[j] != '.'
  {
    if n != "" && n[|n| - 1] != '.' {
      LastDotExactly(n[..|n| - 1]);
    }
  }

  /** A numbered name has an underscore and its number, in decimals, between stem and suffix. */
  lemma NumberedExactly(n: string, k: nat)
    ensures var s, m, q := |Stem(n)|, Numbered(n, k), |Suffix(n)|;
            && |m| > s + 1 + q && m[..s] == Stem(n) && m[s] == '_' && m[|m| - q..] == Suffix(n)
            && Decimal.ReadInt(m[s + 1..|m| - q]) == Some(k)
  {
    var s, x, m, q := |Stem(n)|, Decimal.OfNat(k), Numbered(n, k), |Suffix(n)|;
    assert m[s + 1..|m| - q] == x;
    Decimal.OfIntReads(k);
  }

  lemma NumberedInjective(n: string, j: nat, k: nat)
    requires Numbered(n, j) == Numbered(n, k)
    ensures j == k
  {
    var p, x, y, q := Stem(n) + "_", Decimal.OfNat(j), Decimal.OfNat(k), Suffix(n);
    assert |x| == |y|;
    assert (p + x + q)[|p|..|p| + |x|] == x && (p + y + q)[|p|..|p| + |y|] == y;
    Decimal.OfNatInjective(j, k);
  }

  lemma NumberedGood(n: string, k: nat)
    requires GoodName(n)
    ensures GoodName(Numbered(n, k))
  {
    var s, x, m := Stem(n), Decimal.OfNat(k), Numbered(n, k);
    assert m[0] == n[0];
    assert m[|m| - 1] == if Suffix(n) == "" then x[|x| - 1] else n[|n| - 1];
    assert Decimal.IsDigit(x[|x| - 1]);
    AllSafe(n, s, Suffix(n), x);
  }

  lemma AllSafe(n: string, stem: string, suffix: string, x: string)
    requires n == stem + suffix && (forall i :: 0 <= i < |n| ==> IsSafe(n[i])) && Decimal.AllDigits(x)
    ensures var m := stem + "_" + x + suffix; forall i :: 0 <= i < |m| ==> IsSafe(m[i])
  {
    assert forall c :: c in stem ==> c in n;
    assert forall c :: c in suffix ==> c in n;
    var m := stem + "_" + x + suffix;
    assert forall c :: c in x ==> Decimal.IsDigit(c);
    forall i | 0 <= i < |m| ensures IsSafe(m[i]) {
      assert m[i] in stem || m[i] == '_' || m[i] in x || m[i] in suffix;
    }
  }

  lemma NumberedIsPart(n: string, k: nat)
    requires IsPart(n)
    ensures IsPart(Numbered(n, k))
  {
    var m, x := Numbered(n, k), Decimal.OfNat(k);
    assert n == Stem(n) + Suffix(n);
    forall c | c in m ensures c in n || c == '_' || Decimal.IsDigit(c) {
      assert c in Stem(n) || c == '_' || c in x || c in Suffix(n);
    }
    assert |m| >= 2;
  }

  // ---------- the search for a free name ----------

  /** The name itself when free, and otherwise the numbered name with the least free number from 1 on. */
  ghost predicate IsFirstFree<T(!new)>(taken: set<T>, at: string -> T, name: string, chosen: string) {
    && at(chosen) !in taken
    && (at(name) !in taken ==> chosen == name)
    && (at(name) in taken ==>
         exists k: nat :: k >= 1 && chosen == Numbered(name, k) && forall j: nat :: 1 <= j < k ==> at(Numbered(name, j)) in taken)
  }

  /** Different numbers name different objects. */
  ghost predicate NumbersApart<T(!new)>(at: string -> T, name: string) {
    forall j: nat, k: nat :: at(Numbered(name, j)) == at(Numbered(name, k)) ==> j == k
  }

  /** The objects of the numbers below n. */
  ghost function Tried<T>(at: string -> T, name: string, n: nat): set<T> {
    set j: nat | 1 <= j < n :: at(Numbered(name, j))
  }

  /** Distinct numbers name distinct objects, so as many numbers as objects are tried at most. */
  lemma {:induction false} Pigeonhole<T(!new)>(taken: set<T>, at: string -> T, name: string, n: nat)
    requires NumbersApart(at, name) && n >= 1 && forall j: nat :: 1 <= j < n ==> at(Numbered(name, j)) in taken
    ensures n - 1 <= |taken|
    ensures Tried(at, name, n) <= taken && |Tried(at, name, n)| == n - 1
  {
    if n == 1 {
      assert Tried(at, name, n) == {};
    } else {
      Pigeonhole(taken, at, name, n - 1);
      var last := at(Numbered(name, n - 1));
      assert last !in Tried(at, name, n - 1);
      assert Tried(at, name, n) == Tried(at, name, n - 1) + {last};
      assert taken == Tried(at, name, n) + (taken - Tried(at, name, n));
    }
  }

  /** The unbounded loop terminates on any finite set of objects and never picks an existing one. */
  method FindFree<T(==, !new)>(taken: set<T>, at: string -> T, name: string) returns (chosen: string)
    requires NumbersApart(at, name)
    ensures IsFirstFree(taken, at, name, chosen)
  {
    chosen := name;
    if at(name) in taken {
      var index := 1;
      while true
        invariant index >= 1
        invariant forall j: nat :: 1 <= j < index ==> at(Numbered(name, j)) in taken
        decreases |taken| + 1 - index
      {
        Pigeonhole(taken, at, name, index);
        var candidate := Numbered(name, index);
        if at(candidate) !in taken {
          return candidate;
        }
        Pigeonhole(taken, at, name, index + 1);
        index := index + 1;
      }
    }
  }

  lemma FirstFreeGood<T(!new)>(taken: set<T>, at: string -> T, name: string, chosen: string)
    requires IsFirstFree(taken, at, name, chosen) && GoodName(name)
    ensures GoodName(chosen)
  {
    if chosen != name {
      var k: nat :| k >= 1 && chosen == Numbered(name, k);
      NumberedGood(name, k);
    }
  }
}
