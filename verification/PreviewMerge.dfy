/**
 * Merging the previews of several files and splitting the row overrides by file again
 * (frontend/src/features/items/utils.ts and ItemsPage.tsx).
 */
module PreviewMerge {
  import opened Wrappers
  import Decimal
  import Sums

  datatype Summary = Summary(totalRows: int, exact: int, highConfidence: int, needsReview: int, unresolved: int)

  /** A preview row: its number in its file, what merging adds, and everything else. */
  datatype Row<P> = Row(row: int, sourceName: Option<string>, sourceIndex: Option<nat>, previewKey: Option<string>, payload: P)

  datatype Preview<P> = Preview(
    sourceName: string,
    summary: Summary,
    blockingErrors: seq<string>,
    canAutoAccept: bool,
    rows: seq<Row<P>>)

  function Key(sourceIndex: nat, row: int): string {
    Decimal.OfNat(sourceIndex) + ":" + Decimal.OfInt(row)
  }

  function RowKey<P>(row: Row<P>): string {
    row.previewKey.GetOr(Decimal.OfInt(row.row))
  }

  function Tagged<P>(preview: Preview<P>, sourceIndex: nat): (rows: seq<Row<P>>)
    ensures |rows| == |preview.rows|
    ensures forall k :: 0 <= k < |rows| ==>
              rows[k] == preview.rows[k].(sourceName := Some(preview.sourceName), sourceIndex := Some(sourceIndex),
                                          previewKey := Some(Key(sourceIndex, preview.rows[k].row)))
  {
    seq(|preview.rows|, k requires 0 <= k < |preview.rows| =>
      preview.rows[k].(sourceName := Some(preview.sourceName), sourceIndex := Some(sourceIndex),
                       previewKey := Some(Key(sourceIndex, preview.rows[k].row))))
  }

  /** The rows of the files below n. */
  function AllRows<P>(previews: seq<Preview<P>>, n: nat): seq<Row<P>>
    requires n <= |previews|
  {
    if n == 0 then [] else AllRows(previews, n - 1) + Tagged(previews[n - 1], n - 1)
  }

  function Plus(a: Summary, b: Summary): Summary {
    Summary(a.totalRows + b.totalRows, a.exact + b.exact, a.highConfidence + b.highConfidence,
            a.needsReview + b.needsReview, a.unresolved + b.unresolved)
  }

  function Total<P>(previews: seq<Preview<P>>): Summary {
    if previews == [] then Summary(0, 0, 0, 0, 0)
    else Plus(Total(previews[..|previews| - 1]), previews[|previews| - 1].summary)
  }

  function Prefixed(name: string, messages: seq<string>): seq<string> {
    seq(|messages|, i requires 0 <= i < |messages| => name + ": " + messages[i])
  }

  function AllErrors<P>(previews: seq<Preview<P>>): seq<string> {
    if previews == [] then []
    else AllErrors(previews[..|previews| - 1])
         + Prefixed(previews[|previews| - 1].sourceName, previews[|previews| - 1].blockingErrors)
  }

  /** One file keeps its own name and messages; any other number of files is summed up. */
  function Merge<P>(previews: seq<Preview<P>>): Preview<P> {
    if |previews| == 1 then previews[0].(rows := Tagged(previews[0], 0))
    else Preview(CountName(|previews|), Total(previews), AllErrors(previews), AllAccept(previews),
                 AllRows(previews, |previews|))
  }

  function CountName(n: nat): string {
    Decimal.OfNat(n) + " files"
  }

  predicate AllAccept<P>(previews: seq<Preview<P>>) {
    forall i :: 0 <= i < |previews| ==> previews[i].canAutoAccept
  }

  /** Both branches merge rows, totals and the auto-accept flag alike. */
  lemma MergeUniform<P>(previews: seq<Preview<P>>)
    ensures Merge(previews).rows == AllRows(previews, |previews|)
    ensures Merge(previews).summary == Total(previews)
    ensures Merge(previews).canAutoAccept <==> AllAccept(previews)
  {
    if |previews| == 1 {
      MergeOne(previews);
    }
  }

  lemma MergeOne<P>(previews: seq<Preview<P>>)
    requires |previews| == 1
    ensures Merge(previews).rows == AllRows(previews, 1)
    ensures Merge(previews).summary == Total(previews)
    ensures Merge(previews).canAutoAccept <==> AllAccept(previews)
  {
    OneFileRows(previews);
    OneFileTotal(previews);
  }

  lemma OneFileRows<P>(previews: seq<Preview<P>>)
    requires |previews| == 1
    ensures AllRows(previews, 1) == Tagged(previews[0], 0)
  {
    assert AllRows(previews, 0) == [];
  }

  lemma OneFileTotal<P>(previews: seq<Preview<P>>)
    requires |previews| == 1
    ensures Total(previews) == previews[0].summary
  {
    assert previews[..0] == [];
    assert Total(previews[..0]) == Summary(0, 0, 0, 0, 0);
  }

  // ---------- what merging many files sums up ----------

  /** Each total is the sum over the files. */
  lemma {:induction false} TotalsAdd<P>(previews: seq<Preview<P>>)
    ensures var t := Total(previews);
            && t.totalRows == Sums.Total((p: Preview<P>) => p.summary.totalRows, previews)
            && t.exact == Sums.Total((p: Preview<P>) => p.summary.exact, previews)
            && t.highConfidence == Sums.Total((p: Preview<P>) => p.summary.highConfidence, previews)
            && t.needsReview == Sums.Total((p: Preview<P>) => p.summary.needsReview, previews)
            && t.unresolved == Sums.Total((p: Preview<P>) => p.summary.unresolved, previews)
  {
    if previews != [] {
      TotalsAdd(previews[..|previews| - 1]);
    }
  }

  /** The messages of all files, file by file in order, each behind the name of its file. */
  lemma ErrorsNamed<P>(previews: seq<Preview<P>>, last: Preview<P>)
    ensures AllErrors<P>([]) == []
    ensures var before, all, n := AllErrors(previews), AllErrors(previews + [last]), |last.blockingErrors|;
            && |all| == |before| + n && all[..|before|] == before
            && forall k :: 0 <= k < n ==> all[|before| + k] == last.sourceName + ": " + last.blockingErrors[k]
  {
    assert (previews + [last])[..|previews|] == previews;
  }

  /** The merged preview of several files is named by their number. */
  lemma NamedByCount<P>(previews: seq<Preview<P>>)
    requires |previews| != 1
    ensures var name := Merge(previews).sourceName;
            |name| > 6 && name[|name| - 6..] == " files" && Decimal.ReadInt(name[..|name| - 6]) == Some(|previews|)
    ensures Merge(previews).blockingErrors == AllErrors(previews)
  {
    CountReads(|previews|);
  }

  lemma CountReads(n: nat)
    ensures var name := CountName(n); |name| > 6 && name[|name| - 6..] == " files" && Decimal.ReadInt(name[..|name| - 6]) == Some(n)
  {
    var name, digits := CountName(n), Decimal.OfNat(n);
    assert name == digits + " files" && |" files"| == 6;
    assert name[..|name| - 6] == digits && name[|name| - 6..] == " files";
    Decimal.OfIntReads(n);
  }

  // ---------- keys ----------

  function FirstColon(s: string): nat {
    if s == "" || s[0] == ':' then 0 else 1 + FirstColon(s[1..])
  }

  lemma {:induction false} ColonAfterDigits(a: string, x: string)
    requires Decimal.AllDigits(a)
    ensures FirstColon(a + ":" + x) == |a|
  {
    if a == "" {
      assert (a + ":" + x)[0] == ':';
    } else {
      assert Decimal.IsDigit(a[0]);
      assert (a + ":" + x)[1..] == a[1..] + ":" + x;
      ColonAfterDigits(a[1..], x);
    }
  }

  lemma DigitsBeforeColon(a: string, x: string, b: string, y: string)
    requires Decimal.AllDigits(a) && Decimal.AllDigits(b) && a + ":" + x == b + ":" + y
    ensures a == b && x == y
  {
    var s := a + ":" + x;
    ColonAfterDigits(a, x);
    ColonAfterDigits(b, y);
    assert s[..|a|] == a && (b + ":" + y)[..|b|] == b;
    assert s[|a| + 1..] == x && (b + ":" + y)[|b| + 1..] == y;
  }

  /** A key is the number of the file, a colon and the number of the row. */
  lemma KeyReads(i: nat, r: int)
    ensures var c := FirstColon(Key(i, r));
            c < |Key(i, r)| && Decimal.ReadInt(Key(i, r)[..c]) == Some(i) && Decimal.ReadInt(Key(i, r)[c + 1..]) == Some(r)
  {
    var a, x := Decimal.OfNat(i), Decimal.OfInt(r);
    ColonAfterDigits(a, x);
    assert (a + ":" + x)[..|a|] == a && (a + ":" + x)[|a| + 1..] == x;
    Decimal.OfIntReads(i);
    Decimal.OfIntReads(r);
  }

  /** A key tells the file and the row number. */
  lemma KeyInjective(i: nat, r: int, j: nat, q: int)
    requires Key(i, r) == Key(j, q)
    ensures i == j && r == q
  {
    DigitsBeforeColon(Decimal.OfNat(i), Decimal.OfInt(r), Decimal.OfNat(j), Decimal.OfInt(q));
    Decimal.OfNatInjective(i, j);
    Decimal.OfIntInjective(r, q);
  }

  /** Row numbers are distinct within each file. */
  predicate DistinctRows<P>(previews: seq<Preview<P>>) {
    forall s, a, b :: 0 <= s < |previews| && 0 <= a < b < |previews[s].rows| ==>
      previews[s].rows[a].row != previews[s].rows[b].row
  }

  /** A merged row names the file it comes from. */
  ghost predicate Sourced<P>(previews: seq<Preview<P>>, row: Row<P>, n: nat) {
    && row.sourceIndex.Some? && row.sourceIndex.value < n <= |previews|
    && row in Tagged(previews[row.sourceIndex.value], row.sourceIndex.value)
  }

  lemma {:induction false} EveryRowSourced<P>(previews: seq<Preview<P>>, n: nat, row: Row<P>)
    requires n <= |previews| && row in AllRows(previews, n)
    ensures Sourced(previews, row, n)
  {
    if row in AllRows(previews, n - 1) {
      EveryRowSourced(previews, n - 1, row);
    } else {
      assert row in Tagged(previews[n - 1], n - 1);
    }
  }

  lemma {:induction false} EveryRowMerged<P>(previews: seq<Preview<P>>, n: nat, s: nat, k: nat)
    requires s < n <= |previews| && k < |previews[s].rows|
    ensures Tagged(previews[s], s)[k] in AllRows(previews, n)
  {
    var before, last := AllRows(previews, n - 1), Tagged(previews[n - 1], n - 1);
    if s < n - 1 {
      EveryRowMerged(previews, n - 1, s, k);
      InFront(before, last, Tagged(previews[s], s)[k]);
    } else {
      InBack(before, last, k);
    }
  }

  lemma InFront<T>(a: seq<T>, b: seq<T>, x: T)
    requires x in a
    ensures x in a + b
  {
  }

  lemma InBack<T>(a: seq<T>, b: seq<T>, k: nat)
    requires k < |b|
    ensures b[k] in a + b
  {
    assert (a + b)[|a| + k] == b[k];
  }

  lemma AllSourced<P>(previews: seq<Preview<P>>)
    ensures forall m :: 0 <= m < |AllRows(previews, |previews|)| ==> Sourced(previews, AllRows(previews, |previews|)[m], |previews|)
  {
    forall m | 0 <= m < |AllRows(previews, |previews|)|
      ensures Sourced(previews, AllRows(previews, |previews|)[m], |previews|)
    {
      EveryRowSourced(previews, |previews|, AllRows(previews, |previews|)[m]);
    }
  }

  /** Two rows of one file with the same number are one row. */
  lemma SameSource<P>(previews: seq<Preview<P>>, a: Row<P>, b: Row<P>)
    requires DistinctRows(previews) && Sourced(previews, a, |previews|) && Sourced(previews, b, |previews|)
    requires a.sourceIndex == b.sourceIndex && a.row == b.row
    ensures a == b
  {
    var s := a.sourceIndex.value;
    var k := TaggedAt(previews[s], s, a);
    var l := TaggedAt(previews[s], s, b);
    assert previews[s].rows[k].row == previews[s].rows[l].row;
    assert k == l;
  }

  /** Tagging keeps the row number, so it shows which row it was. */
  lemma TaggedAt<P>(preview: Preview<P>, s: nat, row: Row<P>) returns (k: nat)
    requires row in Tagged(preview, s)
    ensures k < |preview.rows| && Tagged(preview, s)[k] == row && preview.rows[k].row == row.row
  {
    k :| 0 <= k < |Tagged(preview, s)| && Tagged(preview, s)[k] == row;
  }

  lemma SourcedKey<P>(previews: seq<Preview<P>>, row: Row<P>)
    requires Sourced(previews, row, |previews|)
    ensures RowKey(row) == Key(row.sourceIndex.value, row.row)
  {
  }

  // ---------- overrides ----------

  /** The overrides by key that a list of rows asks for; a later row with the same key wins. */
  function Overrides<P, V>(rows: seq<Row<P>>, ask: Row<P> -> Option<V>): map<string, V> {
    if rows == [] then map[]
    else
      var below, row := Overrides(rows[..|rows| - 1], ask), rows[|rows| - 1];
      if ask(row).Some? then below[RowKey(row) := ask(row).value] else below
  }

  /** The overrides sent with file s, by row number. */
  function FileOverrides<P, V>(rows: seq<Row<P>>, overrides: map<string, V>, s: nat): map<int, V> {
    if rows == [] then map[]
    else
      var below, row := FileOverrides(rows[..|rows| - 1], overrides, s), rows[|rows| - 1];
      if row.sourceIndex.GetOr(0) == s && RowKey(row) in overrides then below[row.row := overrides[RowKey(row)]] else below
  }

  /** The two loops of confirmItemsPreview that build and split the overrides. */
  method ConfirmPreview<P, V>(rows: seq<Row<P>>, ask: Row<P> -> Option<V>, files: nat)
    returns (rowOverrides: map<string, V>, fileRowOverrides: seq<map<int, V>>)
    ensures rowOverrides == Overrides(rows, ask)
    ensures |fileRowOverrides| == files
    ensures forall s :: 0 <= s < files ==> fileRowOverrides[s] == FileOverrides(rows, rowOverrides, s)
  {
    rowOverrides := map[];
    for i := 0 to |rows|
      invariant rowOverrides == Overrides(rows[..i], ask)
    {
      assert rows[..i + 1][..i] == rows[..i];
      var wanted := ask(rows[i]);
      if wanted.Some? {
        rowOverrides := rowOverrides[RowKey(rows[i]) := wanted.value];
      }
    }
    assert rows[..|rows|] == rows;
    fileRowOverrides := [];
    for s := 0 to files
      invariant |fileRowOverrides| == s
      invariant forall t :: 0 <= t < s ==> fileRowOverrides[t] == FileOverrides(rows, rowOverrides, t)
    {
      var mine: map<int, V> := map[];
      for i := 0 to |rows|
        invariant mine == FileOverrides(rows[..i], rowOverrides, s)
      {
        assert rows[..i + 1][..i] == rows[..i];
        if rows[i].sourceIndex.GetOr(0) == s && RowKey(rows[i]) in rowOverrides {
          mine := mine[rows[i].row := rowOverrides[RowKey(rows[i])]];
        }
      }
      assert rows[..|rows|] == rows;
      fileRowOverrides := fileRowOverrides + [mine];
    }
  }

  /** Rows of equal key are equal. */
  ghost predicate UniqueKeys<P>(rows: seq<Row<P>>) {
    forall a, b :: 0 <= a < |rows| && 0 <= b < |rows| && RowKey(rows[a]) == RowKey(rows[b]) ==> rows[a] == rows[b]
  }

  lemma MergedKeysUnique<P>(previews: seq<Preview<P>>)
    requires DistinctRows(previews)
    ensures UniqueKeys(AllRows(previews, |previews|))
    ensures forall s: nat :: UniqueNumbers(AllRows(previews, |previews|), s)
  {
    var rows := AllRows(previews, |previews|);
    AllSourced(previews);
    forall a, b | 0 <= a < |rows| && 0 <= b < |rows| && RowKey(rows[a]) == RowKey(rows[b])
      ensures rows[a] == rows[b]
    {
      SameKeySameRow(previews, rows[a], rows[b]);
    }
    forall s: nat ensures UniqueNumbers(rows, s) {
      NumbersUnique(previews, s);
    }
  }

  lemma NumbersUnique<P>(previews: seq<Preview<P>>, s: nat)
    requires DistinctRows(previews)
    ensures UniqueNumbers(AllRows(previews, |previews|), s)
  {
    var rows := AllRows(previews, |previews|);
    AllSourced(previews);
    forall a, b | 0 <= a < |rows| && 0 <= b < |rows| && SameNumber(rows[a], rows[b], s)
      ensures rows[a] == rows[b]
    {
      SameNumberSameRow(previews, rows[a], rows[b], s);
    }
  }

  lemma SameKeySameRow<P>(previews: seq<Preview<P>>, a: Row<P>, b: Row<P>)
    requires DistinctRows(previews) && Sourced(previews, a, |previews|) && Sourced(previews, b, |previews|)
    requires RowKey(a) == RowKey(b)
    ensures a == b
  {
    SourcedKey(previews, a);
    SourcedKey(previews, b);
    KeyInjective(a.sourceIndex.value, a.row, b.sourceIndex.value, b.row);
    SameSource(previews, a, b);
  }

  lemma SameNumberSameRow<P>(previews: seq<Preview<P>>, a: Row<P>, b: Row<P>, s: nat)
    requires DistinctRows(previews) && Sourced(previews, a, |previews|) && Sourced(previews, b, |previews|)
    requires SameNumber(a, b, s)
    ensures a == b
  {
    SameSource(previews, a, b);
  }

  lemma {:induction false} OverridesExactly<P, V>(rows: seq<Row<P>>, ask: Row<P> -> Option<V>, row: Row<P>)
    requires forall a :: 0 <= a < |rows| && RowKey(rows[a]) == RowKey(row) ==> rows[a] == row
    ensures RowKey(row) in Overrides(rows, ask) <==> row in rows && ask(row).Some?
    ensures RowKey(row) in Overrides(rows, ask) ==> Overrides(rows, ask)[RowKey(row)] == ask(row).value
  {
    if rows != [] {
      OverridesExactly(rows[..|rows| - 1], ask, row);
      assert rows == rows[..|rows| - 1] + [rows[|rows| - 1]];
    }
  }

  predicate SameNumber<P>(a: Row<P>, b: Row<P>, s: nat) {
    a.sourceIndex.GetOr(0) == s == b.sourceIndex.GetOr(0) && a.row == b.row
  }

  /** Row numbers of one file are those of one row. */
  ghost predicate UniqueNumbers<P>(rows: seq<Row<P>>, s: nat) {
    forall a, b :: 0 <= a < |rows| && 0 <= b < |rows| && SameNumber(rows[a], rows[b], s) ==> rows[a] == rows[b]
  }

  lemma {:induction false} FileOverridesExactly<P, V>(rows: seq<Row<P>>, overrides: map<string, V>, s: nat, row: Row<P>)
    requires forall a :: 0 <= a < |rows| && SameNumber(rows[a], row, s) ==> rows[a] == row
    requires row.sourceIndex.GetOr(0) == s
    ensures row.row in FileOverrides(rows, overrides, s) <==> row in rows && RowKey(row) in overrides
    ensures row.row in FileOverrides(rows, overrides, s) ==> FileOverrides(rows, overrides, s)[row.row] == overrides[RowKey(row)]
  {
    if rows != [] {
      FileOverridesExactly(rows[..|rows| - 1], overrides, s, row);
      assert rows == rows[..|rows| - 1] + [rows[|rows| - 1]];
    }
  }

  lemma {:induction false} OnlyRowsOverride<P, V>(rows: seq<Row<P>>, overrides: map<string, V>, s: nat, r: int)
    requires r in FileOverrides(rows, overrides, s)
    ensures exists m :: 0 <= m < |rows| && rows[m].row == r && rows[m].sourceIndex.GetOr(0) == s
  {
    var last := rows[|rows| - 1];
    if last.row != r || last.sourceIndex.GetOr(0) != s {
      OnlyRowsOverride(rows[..|rows| - 1], overrides, s, r);
      var m :| 0 <= m < |rows| - 1 && rows[..|rows| - 1][m].row == r && rows[..|rows| - 1][m].sourceIndex.GetOr(0) == s;
      assert rows[m].row == r;
    }
  }

  /**
   * Merging and then splitting is lossless: file s is sent an override for row r exactly when its own row r
   * asked for one, with the value that row asked for.
   */
  lemma SplitIsLossless<P, V>(previews: seq<Preview<P>>, ask: Row<P> -> Option<V>, s: nat, k: nat)
    requires DistinctRows(previews) && s < |previews| && k < |previews[s].rows|
    ensures var rows := Merge(previews).rows;
            var sent := FileOverrides(rows, Overrides(rows, ask), s);
            var row := Tagged(previews[s], s)[k];
            && (row.row in sent <==> ask(row).Some?)
            && (row.row in sent ==> sent[row.row] == ask(row).value)
  {
    var rows, row := AllRows(previews, |previews|), Tagged(previews[s], s)[k];
    MergeUniform(previews);
    EveryRowMerged(previews, |previews|, s, k);
    MergedKeysUnique(previews);
    assert UniqueNumbers(rows, s);
    var m :| 0 <= m < |rows| && rows[m] == row;
    OverridesExactly(rows, ask, row);
    FileOverridesExactly(rows, Overrides(rows, ask), s, row);
  }

  /** Nothing else is sent: every override of file s is for one of its rows. */
  lemma NothingElseSent<P, V>(previews: seq<Preview<P>>, ask: Row<P> -> Option<V>, s: nat, r: int)
    requires s < |previews|
    requires r in FileOverrides(Merge(previews).rows, Overrides(Merge(previews).rows, ask), s)
    ensures exists k :: 0 <= k < |previews[s].rows| && previews[s].rows[k].row == r
  {
    var rows := AllRows(previews, |previews|);
    MergeUniform(previews);
    AllSourced(previews);
    OnlyRowsOverride(rows, Overrides(rows, ask), s, r);
    var m :| 0 <= m < |rows| && rows[m].row == r && rows[m].sourceIndex.GetOr(0) == s;
    OriginalRow(previews, rows[m], s);
  }

  lemma OriginalRow<P>(previews: seq<Preview<P>>, row: Row<P>, s: nat)
    requires Sourced(previews, row, |previews|) && row.sourceIndex.GetOr(0) == s
    ensures exists k :: 0 <= k < |previews[s].rows| && previews[s].rows[k].row == row.row
  {
    var k :| 0 <= k < |previews[s].rows| && Tagged(previews[s], s)[k] == row;
    assert previews[s].rows[k].row == row.row;
  }
}
