/** Rewriting `?` marks to named parameters (backend/app/db.py, _sequence_params_to_mapping). */
module Placeholders {
  import opened Wrappers
  import Decimal

  /** A class of word characters, as the regular expression class \w is. */
  ghost predicate WordClass(word: char -> bool) {
    && !word(':') && !word('?') && !word('\\')
    && word('p') && forall c :: Decimal.IsDigit(c) ==> word(c)
  }

  datatype Piece = Lit(c: char) | Named(name: string) | Mark(k: nat)

  function TokenName(k: nat): string {
    "p" + Decimal.OfNat(k)
  }

  /** The statement with its marks, from number k on, replaced by named tokens. */
  function Rewrite(s: string, k: nat): string {
    if s == "" then ""
    else if s[0] == '?' then ":" + TokenName(k) + Rewrite(s[1..], k + 1)
    else [s[0]] + Rewrite(s[1..], k)
  }

  // ---------- how SQLAlchemy's text() reads named tokens ----------

  /** A character that hides a colon after it. */
  predicate Hides(c: char, word: char -> bool) {
    c == ':' || c == '\\' || word(c)
  }

  function WordLen(s: string, word: char -> bool): (n: nat)
    ensures n <= |s|
  {
    if s == "" || !word(s[0]) then 0 else 1 + WordLen(s[1..], word)
  }

  /** The longest run of word characters that no colon follows: one less than all of them when one does. */
  function NameLen(s: string, word: char -> bool): (n: nat)
    ensures n <= WordLen(s, word)
  {
    var w := WordLen(s, word);
    if w > 0 && w < |s| && s[w] == ':' then w - 1 else w
  }

  /** The pieces of a rewritten statement; hidden tells whether the character before s hides a colon. */
  function Read(hidden: bool, s: string, word: char -> bool): seq<Piece>
    decreases |s|
  {
    if s == "" then []
    else if s[0] == ':' && !hidden && NameLen(s[1..], word) > 0 then
      var n := NameLen(s[1..], word);
      [Named(s[1..1 + n])] + Read(true, s[1 + n..], word)
    else [Lit(s[0])] + Read(Hides(s[0], word), s[1..], word)
  }

  /** The pieces of the statement as written, its marks numbered from k on. */
  function ReadMarks(hidden: bool, s: string, k: nat, word: char -> bool): seq<Piece>
    decreases |s|
  {
    if s == "" then []
    else if s[0] == '?' then [Mark(k)] + ReadMarks(false, s[1..], k + 1, word)
    else if s[0] == ':' && !hidden && NameLen(s[1..], word) > 0 then
      var n := NameLen(s[1..], word);
      [Named(s[1..1 + n])] + ReadMarks(true, s[1 + n..], k, word)
    else [Lit(s[0])] + ReadMarks(Hides(s[0], word), s[1..], k, word)
  }

  function AsNamed(pieces: seq<Piece>): (r: seq<Piece>)
    ensures |r| == |pieces|
    ensures forall i :: 0 <= i < |r| ==> r[i] == if pieces[i].Mark? then Named(TokenName(pieces[i].k)) else pieces[i]
  {
    seq(|pieces|, i requires 0 <= i < |pieces| => if pieces[i].Mark? then Named(TokenName(pieces[i].k)) else pieces[i])
  }

  // ---------- when the rewritten statement reads as meant ----------

  /**
   * What may follow a mark: nothing, or neither a word character nor a colon nor another mark, or a
   * single word character that a colon or a mark follows.
   */
  predicate FollowOk(s: string, word: char -> bool) {
    || s == ""
    || (!word(s[0]) && s[0] != ':' && s[0] != '?')
    || (word(s[0]) && |s| > 1 && (s[1] == ':' || s[1] == '?'))
  }

  predicate MarkOk(hidden: bool, s: string, i: nat, word: char -> bool)
    requires i < |s|
  {
    && !(if i == 0 then hidden else Hides(s[i - 1], word))
    && FollowOk(s[i + 1..], word)
  }

  /** Every mark is separated from what could blur its token. */
  ghost predicate Separated(hidden: bool, s: string, word: char -> bool) {
    forall i :: 0 <= i < |s| && s[i] == '?' ==> MarkOk(hidden, s, i, word)
  }

  lemma SeparatedSkip(hidden: bool, s: string, n: nat, word: char -> bool)
    requires 0 < n <= |s| && forall i :: 0 <= i < n ==> s[i] != '?'
    ensures Separated(hidden, s, word) <==> Separated(Hides(s[n - 1], word), s[n..], word)
  {
    SeparatedTail(hidden, s, n, word);
  }

  /** The marks from position n on. */
  lemma SeparatedTail(hidden: bool, s: string, n: nat, word: char -> bool)
    requires 0 < n <= |s|
    ensures (forall i :: n <= i < |s| && s[i] == '?' ==> MarkOk(hidden, s, i, word))
            <==> Separated(Hides(s[n - 1], word), s[n..], word)
  {
    forall i | n <= i < |s|
      ensures MarkOk(hidden, s, i, word) == MarkOk(Hides(s[n - 1], word), s[n..], i - n, word)
    {
      assert s[n..][i - n + 1..] == s[i + 1..];
    }
    if Separated(Hides(s[n - 1], word), s[n..], word) {
      forall i | n <= i < |s| && s[i] == '?' ensures MarkOk(hidden, s, i, word) {
        assert s[n..][i - n] == '?';
      }
    }
    if forall i :: n <= i < |s| && s[i] == '?' ==> MarkOk(hidden, s, i, word) {
      forall j | 0 <= j < |s[n..]| && s[n..][j] == '?' ensures MarkOk(Hides(s[n - 1], word), s[n..], j, word) {
        assert s[n + j] == '?';
      }
    }
  }

  /** Rewriting copies what comes before the first mark. */
  lemma {:induction false} RewriteCopies(s: string, k: nat, n: nat)
    requires n <= |s| && forall i :: 0 <= i < n ==> s[i] != '?'
    ensures |Rewrite(s, k)| >= n && Rewrite(s, k)[..n] == s[..n] && Rewrite(s, k)[n..] == Rewrite(s[n..], k)
  {
    if n > 0 {
      var rest := s[1..];
      RewriteCopies(rest, k, n - 1);
      assert Rewrite(s, k) == [s[0]] + Rewrite(rest, k);
      assert Rewrite(s, k)[n..] == Rewrite(rest, k)[n - 1..];
      assert s[n..] == rest[n - 1..];
    }
  }

  lemma {:induction false} WordLenWords(s: string, word: char -> bool)
    ensures forall i :: 0 <= i < WordLen(s, word) ==> word(s[i])
    ensures WordLen(s, word) < |s| ==> !word(s[WordLen(s, word)])
  {
    if s != "" && word(s[0]) {
      WordLenWords(s[1..], word);
    }
  }

  /** Rewriting keeps the leading run of word characters, and no longer run appears. */
  lemma RewriteWords(s: string, k: nat, word: char -> bool)
    requires WordClass(word)
    ensures var w, r := WordLen(s, word), Rewrite(s, k);
            && WordLen(r, word) == w && |r| >= w && r[..w] == s[..w]
            && (forall i :: 0 <= i < w ==> s[i] != '?')
            && (w == |s| <==> w == |r|)
            && (w < |s| ==> !word(s[w]) && r[w] == if s[w] == '?' then ':' else s[w])
  {
    var w, r := WordLen(s, word), Rewrite(s, k);
    WordLenWords(s, word);
    RewriteCopies(s, k, w);
    var tail := Rewrite(s[w..], k);
    assert r[w..] == tail;
    Spliced(r, s, w, tail);
    RewriteHead(s[w..], k);
    WordLenConcat(s[..w], tail, word);
    WordLenStop(tail, word);
  }

  lemma Spliced(r: string, s: string, w: nat, tail: string)
    requires w <= |s| && w <= |r| && r[..w] == s[..w] && r[w..] == tail
    ensures r == s[..w] + tail && |s[..w]| == w && |r| == w + |tail| && |s[w..]| == |s| - w
    ensures forall i :: 0 <= i < w ==> s[..w][i] == s[i]
    ensures tail != "" ==> r[w] == tail[0]
    ensures w < |s| ==> s[w..][0] == s[w]
  {
  }

  lemma WordLenStop(s: string, word: char -> bool)
    requires s == "" || !word(s[0])
    ensures WordLen(s, word) == 0
  {
  }

  lemma RewriteHead(s: string, k: nat)
    ensures s == "" <==> Rewrite(s, k) == ""
    ensures s != "" ==> Rewrite(s, k)[0] == if s[0] == '?' then ':' else s[0]
  {
  }

  /** Whether a colon is hidden matters only in front of one. */
  lemma HiddenMatters(s: string, word: char -> bool)
    requires s == "" || s[0] != ':'
    ensures Read(true, s, word) == Read(false, s, word)
  {
  }

  lemma {:induction false} WordLenConcat(a: string, b: string, word: char -> bool)
    requires forall i :: 0 <= i < |a| ==> word(a[i])
    ensures WordLen(a + b, word) == |a| + WordLen(b, word)
  {
    if a == "" {
      assert a + b == b;
    } else {
      assert (a + b)[1..] == a[1..] + b;
      WordLenConcat(a[1..], b, word);
    }
  }

  /** The token of a mark is read back whole exactly when what follows the mark allows it. */
  lemma TokenRead(k: nat, rest: string, word: char -> bool)
    requires WordClass(word)
    ensures NameLen(TokenName(k) + Rewrite(rest, k + 1), word) == |TokenName(k)| <==> FollowOk(rest, word)
    ensures NameLen(TokenName(k) + Rewrite(rest, k + 1), word) > 0
  {
    var t, r := TokenName(k), Rewrite(rest, k + 1);
    WordLenConcat(t, r, word);
    RewriteWords(rest, k + 1, word);
    var w := WordLen(rest, word);
    if w < |rest| {
      assert (t + r)[|t| + w] == r[w];
    }
    if w == 1 {
      assert WordLen(rest[1..], word) == 0;
    } else if w > 1 {
      assert word(rest[1..][0]);
    }
  }

  /**
   * The rewritten statement is read with exactly one token per mark, in order and named by its number, and
   * everything else as it was, if and only if the marks are separated. This covers numbers of any length.
   */
  lemma {:induction false} ReadsAsMeantExactly(hidden: bool, s: string, k: nat, word: char -> bool)
    requires WordClass(word)
    ensures Read(hidden, Rewrite(s, k), word) == AsNamed(ReadMarks(hidden, s, k, word)) <==> Separated(hidden, s, word)
    decreases |s|
  {
    if s != "" {
      if s[0] == '?' {
        ReadsMark(hidden, s, k, word);
      } else if s[0] == ':' && !hidden && NameLen(s[1..], word) > 0 {
        ReadsName(s, k, word);
      } else {
        ReadsChar(hidden, s, k, word);
      }
    }
  }

  /** Equality of piece lists, head by head. */
  lemma SamePieces(a: Piece, x: seq<Piece>, b: Piece, y: seq<Piece>)
    ensures [a] + x == AsNamed([b] + y) <==> [a] == AsNamed([b]) && x == AsNamed(y)
  {
    var l, r := [a] + x, AsNamed([b] + y);
    if l == r {
      assert a == l[0] == r[0];
      assert x == l[1..] == r[1..];
      assert r[1..] == AsNamed(y);
    }
  }

  lemma ReadToken(x: string, word: char -> bool)
    requires NameLen(x, word) > 0
    ensures Read(false, ":" + x, word) == [Named(x[..NameLen(x, word)])] + Read(true, x[NameLen(x, word)..], word)
  {
    ColonThen(x, NameLen(x, word));
    ReadTokenAt(":" + x, word);
  }

  lemma ColonThen(x: string, n: nat)
    requires n <= |x|
    ensures var s := ":" + x; s[1..] == x && s[1..1 + n] == x[..n] && s[1 + n..] == x[n..]
  {
  }

  lemma ReadTokenAt(s: string, word: char -> bool)
    requires s != "" && s[0] == ':' && NameLen(s[1..], word) > 0
    ensures var n := NameLen(s[1..], word); Read(false, s, word) == [Named(s[1..1 + n])] + Read(true, s[1 + n..], word)
  {
  }

  lemma ReadHidden(x: string, word: char -> bool)
    ensures Read(true, ":" + x, word) != [] && Read(true, ":" + x, word)[0] == Lit(':')
  {
  }

  lemma HeadsDiffer(x: seq<Piece>, y: seq<Piece>)
    requires x != [] && y != [] && x[0] != AsNamed(y)[0]
    ensures x != AsNamed(y)
  {
  }

  lemma {:induction false} ReadsMark(hidden: bool, s: string, k: nat, word: char -> bool)
    requires WordClass(word) && s != "" && s[0] == '?'
    ensures Read(hidden, Rewrite(s, k), word) == AsNamed(ReadMarks(hidden, s, k, word)) <==> Separated(hidden, s, word)
    decreases |s|, 0
  {
    var rest, t := s[1..], TokenName(k);
    var x := t + Rewrite(rest, k + 1);
    assert Rewrite(s, k) == ":" + x;
    TokenRead(k, rest, word);
    ReadToken(x, word);
    SeparatedTail(hidden, s, 1, word);
    var meant := ReadMarks(hidden, s, k, word);
    assert meant == [Mark(k)] + ReadMarks(false, rest, k + 1, word);
    assert MarkOk(hidden, s, 0, word) == (!hidden && FollowOk(rest, word));
    if hidden {
      ReadHidden(x, word);
      HeadsDiffer(Read(hidden, ":" + x, word), meant);
    } else if !FollowOk(rest, word) {
      assert |x[..NameLen(x, word)]| != |t|;
      HeadsDiffer(Read(hidden, ":" + x, word), meant);
    } else {
      assert x[..|t|] == t && x[|t|..] == Rewrite(rest, k + 1);
      FollowedByNoColon(rest, k + 1, word);
      ReadsAsMeantExactly(false, rest, k + 1, word);
      SamePieces(Named(t), Read(false, Rewrite(rest, k + 1), word), Mark(k), ReadMarks(false, rest, k + 1, word));
    }
  }

  lemma FollowedByNoColon(rest: string, k: nat, word: char -> bool)
    requires WordClass(word) && FollowOk(rest, word)
    ensures Read(true, Rewrite(rest, k), word) == Read(false, Rewrite(rest, k), word)
  {
    HiddenMatters(Rewrite(rest, k), word);
  }

  /** A name is cut short when a mark follows it, and read alike otherwise. */
  lemma NameRewritten(rest: string, k: nat, word: char -> bool)
    requires WordClass(word) && NameLen(rest, word) > 0
    ensures var w, n, n' := WordLen(rest, word), NameLen(rest, word), NameLen(Rewrite(rest, k), word);
            && (w < |rest| && rest[w] == '?' ==> n == w && n' == w - 1)
            && (!(w < |rest| && rest[w] == '?') ==>
                 n' == n && Rewrite(rest, k)[..n] == rest[..n] && Rewrite(rest, k)[n..] == Rewrite(rest[n..], k))
  {
    RewriteWords(rest, k, word);
    RewriteCopies(rest, k, NameLen(rest, word));
  }

  lemma MarksName(s: string, k: nat, word: char -> bool)
    requires s != "" && s[0] == ':' && NameLen(s[1..], word) > 0
    ensures var rest, n := s[1..], NameLen(s[1..], word);
            ReadMarks(false, s, k, word) == [Named(rest[..n])] + ReadMarks(true, rest[n..], k, word)
  {
    TailSlices(s, NameLen(s[1..], word));
  }

  lemma TailSlices(s: string, n: nat)
    requires s != "" && n < |s|
    ensures s[1..1 + n] == s[1..][..n] && s[1 + n..] == s[1..][n..]
  {
  }

  lemma {:induction false} ReadsName(s: string, k: nat, word: char -> bool)
    requires WordClass(word) && s != "" && s[0] == ':' && NameLen(s[1..], word) > 0
    ensures Read(false, Rewrite(s, k), word) == AsNamed(ReadMarks(false, s, k, word)) <==> Separated(false, s, word)
    decreases |s|, 0
  {
    var rest := s[1..];
    var x, w, n := Rewrite(rest, k), WordLen(rest, word), NameLen(rest, word);
    assert Rewrite(s, k) == ":" + x;
    NameRewritten(rest, k, word);
    if w < |rest| && rest[w] == '?' {
      MarksName(s, k, word);
      NameCutShort(s, word);
      ReadsCutName(x, rest[..w], ReadMarks(false, s, k, word), word);
    } else {
      ReadsAsMeantExactly(true, rest[n..], k, word);
      ReadsWholeName(s, x, n, k, word);
    }
  }

  lemma ReadsWholeName(s: string, x: string, n: nat, k: nat, word: char -> bool)
    requires WordClass(word) && s != "" && s[0] == ':' && n == NameLen(s[1..], word) > 0
    requires !(WordLen(s[1..], word) < |s[1..]| && s[1..][WordLen(s[1..], word)] == '?')
    requires NameLen(x, word) == n && x[..n] == s[1..][..n] && x[n..] == Rewrite(s[1..][n..], k)
    requires Read(true, Rewrite(s[1..][n..], k), word) == AsNamed(ReadMarks(true, s[1..][n..], k, word))
             <==> Separated(true, s[1..][n..], word)
    ensures Read(false, ":" + x, word) == AsNamed(ReadMarks(false, s, k, word)) <==> Separated(false, s, word)
  {
    var rest := s[1..];
    MarksName(s, k, word);
    ReadToken(x, word);
    SamePieces(Named(rest[..n]), Read(true, x[n..], word), Named(rest[..n]), ReadMarks(true, rest[n..], k, word));
    SkipName(s, n, word);
  }

  lemma ReadsCutName(x: string, name: string, meant: seq<Piece>, word: char -> bool)
    requires NameLen(x, word) == |name| - 1 && meant != [] && meant[0] == Named(name)
    ensures Read(false, ":" + x, word) != AsNamed(meant)
  {
    var s := ":" + x;
    assert s[1..] == x;
    if NameLen(x, word) > 0 {
      ReadToken(x, word);
    }
    HeadsDiffer(Read(false, s, word), meant);
  }

  lemma SkipName(s: string, n: nat, word: char -> bool)
    requires WordClass(word) && s != "" && s[0] == ':' && 0 < n <= WordLen(s[1..], word)
    ensures Separated(false, s, word) <==> Separated(true, s[1..][n..], word)
  {
    WordLenWords(s[1..], word);
    forall i | 0 <= i < 1 + n ensures s[i] != '?' && (i > 0 ==> word(s[i])) {
      if i > 0 {
        assert s[i] == s[1..][i - 1];
      }
    }
    SeparatedSkip(false, s, 1 + n, word);
    assert s[1 + n..] == s[1..][n..];
  }

  lemma NameCutShort(s: string, word: char -> bool)
    requires s != "" && WordLen(s[1..], word) > 0 && 1 + WordLen(s[1..], word) < |s| && s[1 + WordLen(s[1..], word)] == '?'
    ensures !Separated(false, s, word)
  {
    var w := WordLen(s[1..], word);
    WordLenWords(s[1..], word);
    assert s[w] == s[1..][w - 1] && word(s[w]);
    assert !MarkOk(false, s, w + 1, word);
  }

  lemma {:induction false} ReadsChar(hidden: bool, s: string, k: nat, word: char -> bool)
    requires WordClass(word) && s != "" && s[0] != '?'
    requires !(s[0] == ':' && !hidden && NameLen(s[1..], word) > 0)
    ensures Read(hidden, Rewrite(s, k), word) == AsNamed(ReadMarks(hidden, s, k, word)) <==> Separated(hidden, s, word)
    decreases |s|, 0
  {
    var rest, r := s[1..], Rewrite(s, k);
    assert r[1..] == Rewrite(rest, k);
    RewriteWords(rest, k, word);
    assert NameLen(rest, word) == 0 ==> NameLen(r[1..], word) == 0;
    SamePieces(Lit(s[0]), Read(Hides(s[0], word), r[1..], word), Lit(s[0]), ReadMarks(Hides(s[0], word), rest, k, word));
    ReadsAsMeantExactly(Hides(s[0], word), rest, k, word);
    SeparatedSkip(hidden, s, 1, word);
  }

  // ---------- what the statement means ----------

  /** A statement with its parameters in place. */
  datatype Out<V> = Text(c: char) | Value(v: V) | Unbound(name: string)

  function Mapping<V>(params: seq<V>): map<string, V> {
    if params == [] then map[]
    else Mapping(params[..|params| - 1])[TokenName(|params| - 1) := params[|params| - 1]]
  }

  function ByName<V>(pieces: seq<Piece>, mapping: map<string, V>): (r: seq<Out<V>>)
    ensures |r| == |pieces|
  {
    seq(|pieces|, i requires 0 <= i < |pieces| =>
      match pieces[i]
      case Lit(c) => Text(c)
      case Named(name) => if name in mapping then Value(mapping[name]) else Unbound(name)
      case Mark(_) => Text('?'))
  }

  function ByPosition<V>(pieces: seq<Piece>, params: seq<V>): (r: seq<Out<V>>)
    ensures |r| == |pieces|
  {
    seq(|pieces|, i requires 0 <= i < |pieces| =>
      match pieces[i]
      case Lit(c) => Text(c)
      case Named(name) => Unbound(name)
      case Mark(k) => if k < |params| then Value(params[k]) else Unbound(TokenName(k)))
  }

  /** The token of mark k is a p and its number. */
  lemma TokenReads(k: nat)
    ensures TokenName(k) != "" && TokenName(k)[0] == 'p' && Decimal.ReadInt(TokenName(k)[1..]) == Some(k)
  {
    assert TokenName(k)[1..] == Decimal.OfNat(k);
    Decimal.OfIntReads(k);
  }

  lemma {:induction false} MappingBinds<V>(params: seq<V>)
    ensures forall k: nat :: TokenName(k) in Mapping(params) <==> k < |params|
    ensures forall k: nat :: k < |params| ==> Mapping(params)[TokenName(k)] == params[k]
  {
    if params != [] {
      var last := |params| - 1;
      MappingBinds(params[..last]);
      forall k: nat ensures TokenName(k) == TokenName(last) ==> k == last {
        if TokenName(k) == TokenName(last) {
          assert TokenName(k)[1..] == Decimal.OfNat(k) && TokenName(last)[1..] == Decimal.OfNat(last);
          Decimal.OfNatInjective(k, last);
        }
      }
    }
  }

  /** The statement as written already names a token that the mapping binds. */
  ghost predicate Clashes<V>(s: string, params: seq<V>, word: char -> bool) {
    exists i :: 0 <= i < |ReadMarks(false, s, 0, word)| && ReadMarks(false, s, 0, word)[i].Named?
                && ReadMarks(false, s, 0, word)[i].name in Mapping(params)
  }

  /**
   * For a statement with separated marks and any number of parameters, binding the rewritten statement by
   * name means what binding the original by position does, if and only if it names none of the new tokens.
   */
  lemma RewritingPreservesMeaning<V>(s: string, params: seq<V>, word: char -> bool)
    requires WordClass(word) && Separated(false, s, word)
    ensures ByName(Read(false, Rewrite(s, 0), word), Mapping(params)) == ByPosition(ReadMarks(false, s, 0, word), params)
            <==> !Clashes(s, params, word)
  {
    ReadsAsMeantExactly(false, s, 0, word);
    MappingBinds(params);
    var pieces := ReadMarks(false, s, 0, word);
    var named, placed := ByName(AsNamed(pieces), Mapping(params)), ByPosition(pieces, params);
    forall i | 0 <= i < |pieces|
      ensures named[i] == placed[i] <==> !(pieces[i].Named? && pieces[i].name in Mapping(params))
    {
    }
    if named == placed {
      forall i | 0 <= i < |pieces| ensures !(pieces[i].Named? && pieces[i].name in Mapping(params)) {
        assert named[i] == placed[i];
      }
    }
  }

  // ---------- inputs for which it fails ----------

  /** Two adjacent marks: the colon of the second token follows a word character. */
  lemma AdjacentMarksMisread(word: char -> bool)
    requires WordClass(word)
    ensures Read(false, Rewrite("??", 0), word) != AsNamed(ReadMarks(false, "??", 0, word))
  {
    assert "??"[1..] == "?" && "?"[1..] == "";
    assert WordLen("?", word) == 0;
    assert !FollowOk("?", word);
    assert !MarkOk(false, "??", 0, word);
    assert !Separated(false, "??", word);
    ReadsAsMeantExactly(false, "??", 0, word);
  }

  /** A statement that names the token its mark becomes. */
  lemma OwnTokenRebound<V>(v: V, word: char -> bool)
    requires WordClass(word) && !word(' ')
    ensures ByName(Read(false, Rewrite(":p0 ?", 0), word), Mapping([v])) != ByPosition(ReadMarks(false, ":p0 ?", 0, word), [v])
  {
    var s := ":p0 ?";
    NamesP0(word);
    OneMark(word);
    MappingBinds([v]);
    assert TokenName(0) == "p0";
    assert ReadMarks(false, s, 0, word)[0] == Named("p0");
    assert Clashes(s, [v], word);
    RewritingPreservesMeaning(s, [v], word);
  }

  lemma NamesP0(word: char -> bool)
    requires WordClass(word) && !word(' ')
    ensures ReadMarks(false, ":p0 ?", 0, word) != [] && ReadMarks(false, ":p0 ?", 0, word)[0] == Named("p0")
  {
    var s := ":p0 ?";
    assert s[1..] == "p0 ?" && "p0 ?"[1..] == "0 ?" && "0 ?"[1..] == " ?";
    assert Decimal.IsDigit('0');
    assert WordLen(" ?", word) == 0 && WordLen("0 ?", word) == 1 && WordLen("p0 ?", word) == 2;
    assert NameLen("p0 ?", word) == 2 && s[1..3] == "p0";
  }

  lemma OneMark(word: char -> bool)
    requires WordClass(word) && !word(' ')
    ensures Separated(false, ":p0 ?", word)
  {
    var s := ":p0 ?";
    forall i | 0 <= i < |s| && s[i] == '?' ensures MarkOk(false, s, i, word) {
      assert i == 4 && s[5..] == "";
    }
  }

  lemma {:induction false} RewriteConcat(a: string, b: string, k: nat)
    ensures Rewrite(a + b, k) == Rewrite(a, k) + Rewrite(b, k + Marks(a))
  {
    if a == "" {
      assert a + b == b;
    } else {
      assert (a + b)[1..] == a[1..] + b;
      RewriteConcat(a[1..], b, if a[0] == '?' then k + 1 else k);
    }
  }

  function Marks(s: string): nat {
    if s == "" then 0 else (if s[0] == '?' then 1 else 0) + Marks(s[1..])
  }

  lemma {:induction false} MarksConcat(a: string, b: string)
    ensures Marks(a + b) == Marks(a) + Marks(b)
  {
    if a == "" {
      assert a + b == b;
    } else {
      assert (a + b)[1..] == a[1..] + b;
      MarksConcat(a[1..], b);
    }
  }

  /** The substitution itself, one match after the other with a running index. */
  method SequenceParamsToMapping<V>(statement: string, params: seq<V>) returns (rewritten: string, mapping: map<string, V>)
    ensures rewritten == Rewrite(statement, 0)
    ensures mapping == Mapping(params)
  {
    rewritten := Substituted(statement);
    mapping := map[];
    for i := 0 to |params|
      invariant mapping == Mapping(params[..i])
    {
      assert params[..i + 1][..i] == params[..i];
      mapping := mapping[TokenName(i) := params[i]];
    }
    assert params[..|params|] == params;
  }

  /** re.sub with the counting replacement. */
  method Substituted(statement: string) returns (rewritten: string)
    ensures rewritten == Rewrite(statement, 0)
  {
    var index := 0;
    rewritten := "";
    for i := 0 to |statement|
      invariant index == Marks(statement[..i])
      invariant rewritten == Rewrite(statement[..i], 0)
    {
      RewriteNext(statement, i);
      if statement[i] == '?' {
        rewritten := rewritten + ":" + TokenName(index);
        index := index + 1;
      } else {
        rewritten := rewritten + [statement[i]];
      }
    }
    assert statement[..|statement|] == statement;
  }

  lemma RewriteNext(s: string, i: nat)
    requires i < |s|
    ensures var c, index := s[i], Marks(s[..i]);
            && Marks(s[..i + 1]) == index + (if c == '?' then 1 else 0)
            && Rewrite(s[..i + 1], 0) == Rewrite(s[..i], 0) + if c == '?' then ":" + TokenName(index) else [c]
  {
    assert s[..i + 1] == s[..i] + [s[i]];
    RewriteConcat(s[..i], [s[i]], 0);
    MarksConcat(s[..i], [s[i]]);
    assert [s[i]][1..] == "";
  }
}
