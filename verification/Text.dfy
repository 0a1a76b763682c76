/** Trimming of strings, as Python's str.strip and JavaScript's String.trim do it. */
module Text {

  /** The WhiteSpace and LineTerminator characters of ECMA-262, sections 12.2 and 12.3. */
  predicate IsJsSpace(c: char) {
    || c in "\t\n\r \U{000B}\U{000C}\U{00A0}\U{1680}\U{2028}\U{2029}\U{202F}\U{205F}\U{3000}\U{FEFF}"
    || '\U{2000}' <= c <= '\U{200A}'
  }

  /** The characters for which Python's str.isspace holds. */
  predicate IsPySpace(c: char) {
    || c in "\t\n\r \U{000B}\U{000C}\U{0085}\U{00A0}\U{1680}\U{2028}\U{2029}\U{202F}\U{205F}\U{3000}"
    || '\U{001C}' <= c <= '\U{001F}'
    || '\U{2000}' <= c <= '\U{200A}'
  }

  function TrimLeft(s: string, drop: char -> bool): string {
    if s != "" && drop(s[0]) then TrimLeft(s[1..], drop) else s
  }

  function TrimRight(s: string, drop: char -> bool): string {
    if s != "" && drop(s[|s| - 1]) then TrimRight(s[..|s| - 1], drop) else s
  }

  function Trim(s: string, drop: char -> bool): string {
    TrimRight(TrimLeft(s, drop), drop)
  }

  lemma {:induction false} TrimLeftSpec(s: string, drop: char -> bool)
    ensures var t := TrimLeft(s, drop);
            && |t| <= |s| && t == s[|s| - |t|..]
            && (t == "" || !drop(t[0]))
  {
    if s != "" && drop(s[0]) {
      TrimLeftSpec(s[1..], drop);
    }
  }

  lemma {:induction false} TrimRightSpec(s: string, drop: char -> bool)
    ensures var t := TrimRight(s, drop);
            && t <= s
            && (t == "" || !drop(t[|t| - 1]))
  {
    if s != "" && drop(s[|s| - 1]) {
      TrimRightSpec(s[..|s| - 1], drop);
    }
  }

  /** What is left is a piece of the text, and starts and ends with characters that are kept. */
  lemma TrimSpec(s: string, drop: char -> bool)
    ensures var t := Trim(s, drop);
            && |t| <= |s|
            && (t == "" || (!drop(t[0]) && !drop(t[|t| - 1])))
            && (forall c :: c in t ==> c in s)
  {
    var l := TrimLeft(s, drop);
    TrimLeftSpec(s, drop);
    TrimRightSpec(l, drop);
    assert forall c :: c in l ==> c in s;
  }

  /** What is cut off at either end is characters to be dropped, and nothing else; (i, j) are the cuts. */
  lemma TrimExactly(s: string, drop: char -> bool) returns (i: nat, j: nat)
    ensures i <= j <= |s| && Trim(s, drop) == s[i..j]
    ensures forall k :: 0 <= k < i || j <= k < |s| ==> drop(s[k])
    ensures i < j ==> !drop(s[i]) && !drop(s[j - 1])
  {
    i := TrimLeftExactly(s, drop);
    var l := TrimLeft(s, drop);
    var n := TrimRightExactly(l, drop);
    j := i + n;
    assert forall k :: 0 <= k < |l| ==> l[k] == s[i + k];
    forall k | j <= k < |s| ensures drop(s[k]) {
      assert s[k] == l[k - i];
    }
    assert l[..n] == s[i..j];
  }

  lemma {:induction false} TrimLeftExactly(s: string, drop: char -> bool) returns (i: nat)
    ensures i <= |s| && TrimLeft(s, drop) == s[i..]
    ensures forall k :: 0 <= k < i ==> drop(s[k])
    ensures i < |s| ==> !drop(s[i])
  {
    i := 0;
    if s != "" && drop(s[0]) {
      var n := TrimLeftExactly(s[1..], drop);
      i := n + 1;
      assert s[1..][n..] == s[i..];
      forall k | 0 <= k < i ensures drop(s[k]) {
        assert k > 0 ==> s[k] == s[1..][k - 1];
      }
    }
  }

  lemma {:induction false} TrimRightExactly(s: string, drop: char -> bool) returns (n: nat)
    ensures n <= |s| && TrimRight(s, drop) == s[..n]
    ensures forall k :: n <= k < |s| ==> drop(s[k])
    ensures n > 0 ==> !drop(s[n - 1])
  {
    n := |s|;
    if s != "" && drop(s[|s| - 1]) {
      n := TrimRightExactly(s[..|s| - 1], drop);
      assert s[..|s| - 1][..n] == s[..n];
    }
  }

  /** Text that starts and ends with kept characters is left alone. */
  lemma TrimKeeps(s: string, drop: char -> bool)
    requires s == "" || (!drop(s[0]) && !drop(s[|s| - 1]))
    ensures Trim(s, drop) == s
  {
  }

  lemma TrimTwice(s: string, drop: char -> bool)
    ensures Trim(Trim(s, drop), drop) == Trim(s, drop)
  {
    TrimSpec(s, drop);
    TrimKeeps(Trim(s, drop), drop);
  }
}
