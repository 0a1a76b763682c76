/** The line scanner of backend/data_prep_tools/extract_thorlabs_descriptions.py. */
module DescriptionExtractor {
  import opened Wrappers
  import Seqs

  /** A line that starts with an item number: the item, and the stripped rest of the line. */
  datatype Match = Match(item: string, rest: string)

  /** The item pattern, the two line classifiers and the description cleaner, whatever they are. */
  datatype Rules = Rules(
    match_: string -> Option<Match>,
    isDataOrDelivery: string -> bool,
    isHeaderFooter: string -> bool,
    clean: string -> string)
  {
    predicate IsItem(line: string) {
      match_(line).Some?
    }

    predicate Breaks(line: string) {
      isHeaderFooter(line) || isDataOrDelivery(line)
    }

    predicate IsText(line: string) {
      !Breaks(line) && line != "." && line != ","
    }

    predicate Usable(rest: string) {
      rest != "" && !isDataOrDelivery(rest) && !isHeaderFooter(rest)
    }
  }

  // ---------- what the description of one item line is ----------

  /** Line t lies in the segment of item line i: after it, with no other item line up to it. */
  predicate InSegment(r: Rules, lines: seq<string>, i: nat, t: nat) {
    i < t < |lines| && forall u :: i < u <= t ==> !r.IsItem(lines[u])
  }

  /** The description of item line i has begun before line u. */
  predicate Begun(r: Rules, lines: seq<string>, i: nat, u: nat)
    requires i < u <= |lines| && r.IsItem(lines[i])
  {
    r.Usable(r.match_(lines[i]).value.rest) || exists v :: i < v < u && r.IsText(lines[v])
  }

  /** Line t is part of it: text of the segment, with no break between the beginning and t. */
  predicate Belongs(r: Rules, lines: seq<string>, i: nat, t: nat)
    requires i < |lines| && r.IsItem(lines[i])
  {
    && InSegment(r, lines, i, t)
    && r.IsText(lines[t])
    && !exists u :: i < u < t && r.Breaks(lines[u]) && Begun(r, lines, i, u)
  }

  /** The lines below n that belong to it, in order. */
  function Belonging(r: Rules, lines: seq<string>, i: nat, n: nat): seq<string>
    requires i < n <= |lines| && r.IsItem(lines[i])
  {
    if n == i + 1 then []
    else Belonging(r, lines, i, n - 1) + if Belongs(r, lines, i, n - 1) then [lines[n - 1]] else []
  }

  function Opening(r: Rules, line: string): seq<string>
    requires r.IsItem(line)
  {
    var rest := r.match_(line).value.rest;
    if r.Usable(rest) then [rest] else []
  }

  function Join(parts: seq<string>): string {
    if parts == [] then ""
    else if |parts| == 1 then parts[0]
    else Join(parts[..|parts| - 1]) + " " + parts[|parts| - 1]
  }

  /** Where part k stands in the joined text: after the parts before it and a separator for each. */
  function Offset(parts: seq<string>, k: nat): nat
    requires k <= |parts|
  {
    if k == 0 then 0 else Offset(parts, k - 1) + |parts[k - 1]| + 1
  }

  /** The text has all parts in their places, a single space between neighbours, and nothing else. */
  predicate Joined(parts: seq<string>, text: string) {
    && parts != [] && |text| == Offset(parts, |parts|) - 1
    && forall k :: 0 <= k < |parts| ==> PartAt(parts, text, k)
  }

  predicate PartAt(parts: seq<string>, text: string, k: nat)
    requires k < |parts|
  {
    Stands(text, Offset(parts, k), parts[k])
  }

  /** The part is at offset o, behind a space unless that is the beginning. */
  predicate Stands(text: string, o: nat, part: string) {
    o + |part| <= |text| && text[o..o + |part|] == part && (o > 0 ==> text[o - 1] == ' ')
  }

  lemma {:induction false} OffsetFront(parts: seq<string>, n: nat, k: nat)
    requires k <= n <= |parts|
    ensures Offset(parts[..n], k) == Offset(parts, k)
  {
    if k > 0 {
      OffsetFront(parts, n, k - 1);
    }
  }

  lemma {:induction false} OffsetGrows(parts: seq<string>, j: nat, k: nat)
    requires j < k <= |parts|
    ensures Offset(parts, j) + |parts[j]| + 1 <= Offset(parts, k)
  {
    if j < k - 1 {
      OffsetGrows(parts, j, k - 1);
    }
  }

  lemma {:induction false} JoinExactly(parts: seq<string>)
    requires parts != []
    ensures Joined(parts, Join(parts))
  {
    var n := |parts| - 1;
    if n == 0 {
      assert Offset(parts, 1) == |parts[0]| + 1;
    } else {
      var front, last := parts[..n], parts[n];
      JoinExactly(front);
      forall k | 0 <= k < |parts| ensures PartAt(parts, Join(parts), k) {
        JoinedPart(parts, k);
      }
      OffsetFront(parts, n, n);
    }
  }

  lemma JoinedPart(parts: seq<string>, k: nat)
    requires |parts| > 1 && k < |parts| && Joined(parts[..|parts| - 1], Join(parts[..|parts| - 1]))
    ensures PartAt(parts, Join(parts), k)
  {
    var n := |parts| - 1;
    var front, text := parts[..n], Join(parts[..n]);
    JoinLast(parts);
    OffsetFront(parts, n, k);
    if k < n {
      assert PartAt(front, text, k);
      StandsInFront(text, " " + parts[n], Offset(front, k), front[k]);
    } else {
      StandsAtEnd(text, parts[n]);
    }
  }

  lemma JoinLast(parts: seq<string>)
    requires |parts| > 1
    ensures var n := |parts| - 1; Join(parts) == Join(parts[..n]) + (" " + parts[n])
  {
    var n := |parts| - 1;
    Seqs.Associates(Join(parts[..n]), " ", parts[n]);
  }

  lemma StandsInFront(text: string, back: string, o: nat, part: string)
    requires Stands(text, o, part)
    ensures Stands(text + back, o, part)
  {
    assert (text + back)[o..o + |part|] == text[o..o + |part|];
  }

  lemma StandsAtEnd(text: string, part: string)
    ensures Stands(text + (" " + part), |text| + 1, part)
  {
  }

  /** What is handed to the cleaner for item line i is its opening and the lines that belong to it, in order. */
  ghost predicate Described(r: Rules, lines: seq<string>, i: nat, d: string)
    requires i < |lines| && r.IsItem(lines[i])
  {
    var parts := Opening(r, lines[i]) + Belonging(r, lines, i, |lines|);
    if parts == [] then d == "" else exists text :: Joined(parts, text) && d == r.clean(text)
  }

  lemma DescriptionExactly(r: Rules, lines: seq<string>, i: nat)
    requires i < |lines| && r.IsItem(lines[i])
    ensures Described(r, lines, i, Description(r, lines, i))
  {
    var parts := Opening(r, lines[i]) + Belonging(r, lines, i, |lines|);
    if parts != [] {
      JoinExactly(parts);
    }
  }

  /** The cleaned description of item line i; empty when nothing belongs to it. */
  function Description(r: Rules, lines: seq<string>, i: nat): string
    requires i < |lines| && r.IsItem(lines[i])
  {
    var parts := Opening(r, lines[i]) + Belonging(r, lines, i, |lines|);
    if parts == [] then "" else r.clean(Join(parts))
  }

  // ---------- what the whole scan returns ----------

  /** The item lines below n. */
  function ItemLines(r: Rules, lines: seq<string>, n: nat): (ks: seq<nat>)
    requires n <= |lines|
    ensures forall x :: 0 <= x < |ks| ==> ks[x] < n && r.IsItem(lines[ks[x]])
  {
    if n == 0 then []
    else ItemLines(r, lines, n - 1) + if r.IsItem(lines[n - 1]) then [n - 1] else []
  }

  /** The non-empty descriptions of the lines of one item among the given item lines, in order. */
  function DescriptionsOf(r: Rules, lines: seq<string>, ks: seq<nat>, item: string): seq<string>
    requires forall x :: 0 <= x < |ks| ==> ks[x] < |lines| && r.IsItem(lines[ks[x]])
  {
    if ks == [] then []
    else
      var k := ks[|ks| - 1];
      var d := Description(r, lines, k);
      DescriptionsOf(r, lines, ks[..|ks| - 1], item)
      + if r.match_(lines[k]).value.item == item && d != "" then [d] else []
  }

  /** The dictionary holds exactly the items with descriptions, each with all of them in line order. */
  ghost predicate Holds(r: Rules, lines: seq<string>, ks: seq<nat>, extracted: map<string, seq<string>>)
    requires forall x :: 0 <= x < |ks| ==> ks[x] < |lines| && r.IsItem(lines[ks[x]])
  {
    forall item :: if item in extracted
                   then extracted[item] == DescriptionsOf(r, lines, ks, item) && extracted[item] != []
                   else DescriptionsOf(r, lines, ks, item) == []
  }

  // ---------- lemmas on segments ----------

  /** Nothing from line j on belongs to item line i once j is another item line, or a break after its beginning. */
  lemma {:induction false} NothingFrom(r: Rules, lines: seq<string>, i: nat, j: nat, n: nat)
    requires i < j < n <= |lines| && r.IsItem(lines[i])
    requires r.IsItem(lines[j]) || (r.Breaks(lines[j]) && Begun(r, lines, i, j))
    ensures Belonging(r, lines, i, n) == Belonging(r, lines, i, j)
  {
    assert !Belongs(r, lines, i, n - 1);
    if n > j + 1 {
      NothingFrom(r, lines, i, j, n - 1);
    } else {
      assert Belonging(r, lines, i, j + 1) == Belonging(r, lines, i, j);
    }
  }

  /** Inside the segment, text that no break cuts off belongs, and makes the description begin. */
  lemma BelongsNext(r: Rules, lines: seq<string>, i: nat, j: nat)
    requires i < j < |lines| && r.IsItem(lines[i]) && !r.IsItem(lines[j])
    requires forall u :: i < u < j ==> !r.IsItem(lines[u])
    requires forall u :: i < u < j && r.Breaks(lines[u]) ==> !Begun(r, lines, i, u)
    ensures Belongs(r, lines, i, j) <==> r.IsText(lines[j])
    ensures Begun(r, lines, i, j + 1) <==> Begun(r, lines, i, j) || r.IsText(lines[j])
  {
    assert InSegment(r, lines, i, j);
    if Begun(r, lines, i, j) && !r.Usable(r.match_(lines[i]).value.rest) {
      var v :| i < v < j && r.IsText(lines[v]);
      assert i < v < j + 1;
    }
  }

  lemma {:induction false} NoItemLines(r: Rules, lines: seq<string>, i: nat, j: nat)
    requires i <= j <= |lines| && forall u :: i <= u < j ==> !r.IsItem(lines[u])
    ensures ItemLines(r, lines, j) == ItemLines(r, lines, i)
  {
    if i < j {
      NoItemLines(r, lines, i, j - 1);
    }
  }

  /** The inner loop has read up to line j of the segment of item line i and not stopped. */
  ghost predicate Scanned(r: Rules, lines: seq<string>, i: nat, j: nat, parts: seq<string>)
    requires i < j <= |lines| && r.IsItem(lines[i])
  {
    && (forall u :: i < u < j ==> !r.IsItem(lines[u]))
    && (forall u :: i < u < j && r.Breaks(lines[u]) ==> !Begun(r, lines, i, u))
    && parts == Opening(r, lines[i]) + Belonging(r, lines, i, j)
    && (parts != [] <==> Begun(r, lines, i, j))
  }

  lemma ScannedNext(r: Rules, lines: seq<string>, i: nat, j: nat, parts: seq<string>)
    requires i < j < |lines| && r.IsItem(lines[i]) && !r.IsItem(lines[j]) && Scanned(r, lines, i, j, parts)
    requires r.Breaks(lines[j]) ==> parts == []
    ensures Scanned(r, lines, i, j + 1, parts + if r.IsText(lines[j]) then [lines[j]] else [])
  {
    BelongsNext(r, lines, i, j);
    var here := Belonging(r, lines, i, j);
    assert Belonging(r, lines, i, j + 1) == here + if r.IsText(lines[j]) then [lines[j]] else [];
    assert Opening(r, lines[i]) + (here + [lines[j]]) == Opening(r, lines[i]) + here + [lines[j]];
  }

  /** At an item line, or at a break once something was collected, the collected parts are complete. */
  lemma ScannedStop(r: Rules, lines: seq<string>, i: nat, j: nat, parts: seq<string>)
    requires i < j < |lines| && r.IsItem(lines[i]) && Scanned(r, lines, i, j, parts)
    requires r.IsItem(lines[j]) || (r.Breaks(lines[j]) && parts != [])
    ensures parts == Opening(r, lines[i]) + Belonging(r, lines, i, |lines|)
  {
    NothingFrom(r, lines, i, j, |lines|);
  }

  // ---------- the scanner ----------

  /** The inner loop: collects the parts of item line i and stops at line j. */
  method CollectParts(r: Rules, lines: seq<string>, i: nat) returns (descParts: seq<string>, j: nat)
    requires i < |lines| && r.IsItem(lines[i])
    ensures i < j <= |lines| && forall u :: i < u < j ==> !r.IsItem(lines[u])
    ensures descParts == Opening(r, lines[i]) + Belonging(r, lines, i, |lines|)
  {
    var rest := r.match_(lines[i]).value.rest;
    descParts := [];
    if rest != "" && !r.isDataOrDelivery(rest) && !r.isHeaderFooter(rest) {
      descParts := descParts + [rest];
    }
    j := i + 1;
    while j < |lines|
      invariant i < j <= |lines|
      invariant Scanned(r, lines, i, j, descParts)
    {
      var current := lines[j];
      if r.match_(current).Some? {
        ScannedStop(r, lines, i, j, descParts);
        return;
      }
      if r.isHeaderFooter(current) {
        if descParts != [] {
          ScannedStop(r, lines, i, j, descParts);
          return;
        }
        ScannedNext(r, lines, i, j, descParts);
        j := j + 1;
        continue;
      }
      if r.isDataOrDelivery(current) {
        if descParts != [] {
          ScannedStop(r, lines, i, j, descParts);
          return;
        }
        ScannedNext(r, lines, i, j, descParts);
        j := j + 1;
        continue;
      }
      ScannedNext(r, lines, i, j, descParts);
      if current == "." || current == "," {
        j := j + 1;
        continue;
      }
      descParts := descParts + [current];
      j := j + 1;
    }
  }

  /**
   * The two-pointer scan visits every item line exactly once, in order, and collects for each item the
   * descriptions defined above, line by line.
   */
  method ParseDescriptions(r: Rules, lines: seq<string>) returns (extracted: map<string, seq<string>>, ghost visited: seq<nat>)
    ensures visited == ItemLines(r, lines, |lines|)
    ensures forall x :: 0 <= x < |visited| ==> Described(r, lines, visited[x], Description(r, lines, visited[x]))
    ensures Holds(r, lines, ItemLines(r, lines, |lines|), extracted)
  {
    extracted, visited := map[], [];
    var i := 0;
    while i < |lines|
      invariant 0 <= i <= |lines|
      invariant visited == ItemLines(r, lines, i)
      invariant Holds(r, lines, ItemLines(r, lines, i), extracted)
    {
      var found := r.match_(lines[i]);
      if found.None? {
        i := i + 1;
        continue;
      }
      var descParts, j := CollectParts(r, lines, i);
      ghost var before := extracted;
      extracted := Record(r, extracted, found.value.item, descParts);
      DescriptionIs(r, lines, i, descParts);
      HoldsNext(r, lines, i, before, extracted);
      ItemLinesNext(r, lines, i, j);
      visited := visited + [i];
      i := if j > i then j else i + 1;
    }
    AllDescribed(r, lines, visited);
  }

  lemma AllDescribed(r: Rules, lines: seq<string>, ks: seq<nat>)
    requires forall x :: 0 <= x < |ks| ==> ks[x] < |lines| && r.IsItem(lines[ks[x]])
    ensures forall x :: 0 <= x < |ks| ==> Described(r, lines, ks[x], Description(r, lines, ks[x]))
  {
    forall x | 0 <= x < |ks| ensures Described(r, lines, ks[x], Description(r, lines, ks[x])) {
      DescriptionExactly(r, lines, ks[x]);
    }
  }

  /** What is done with the collected parts of an item line. */
  method Record(r: Rules, extracted: map<string, seq<string>>, item: string, descParts: seq<string>)
    returns (more: map<string, seq<string>>)
    ensures more == Appended(extracted, item, if descParts == [] then "" else r.clean(Join(descParts)))
  {
    more := extracted;
    if descParts != [] {
      var desc := r.clean(Join(descParts));
      if desc != "" {
        more := extracted[item := (if item in extracted then extracted[item] else []) + [desc]];
      }
    }
  }

  /** The item line i is the only one up to line j. */
  lemma ItemLinesNext(r: Rules, lines: seq<string>, i: nat, j: nat)
    requires i < j <= |lines| && r.IsItem(lines[i]) && forall u :: i < u < j ==> !r.IsItem(lines[u])
    ensures ItemLines(r, lines, j) == ItemLines(r, lines, i + 1) == ItemLines(r, lines, i) + [i]
  {
    NoItemLines(r, lines, i + 1, j);
  }

  /** The dictionary with a description appended to the list of an item, unless it is empty. */
  function Appended(extracted: map<string, seq<string>>, item: string, d: string): map<string, seq<string>> {
    if d == "" then extracted else extracted[item := (if item in extracted then extracted[item] else []) + [d]]
  }

  lemma DescriptionIs(r: Rules, lines: seq<string>, i: nat, parts: seq<string>)
    requires i < |lines| && r.IsItem(lines[i]) && parts == Opening(r, lines[i]) + Belonging(r, lines, i, |lines|)
    ensures Description(r, lines, i) == if parts == [] then "" else r.clean(Join(parts))
  {
  }

  lemma HoldsNext(r: Rules, lines: seq<string>, i: nat, before: map<string, seq<string>>, after: map<string, seq<string>>)
    requires i < |lines| && r.IsItem(lines[i]) && Holds(r, lines, ItemLines(r, lines, i), before)
    requires after == Appended(before, r.match_(lines[i]).value.item, Description(r, lines, i))
    ensures Holds(r, lines, ItemLines(r, lines, i + 1), after)
  {
    var ks := ItemLines(r, lines, i);
    Seqs.Appended(ks, i);
    forall item
      ensures var more := DescriptionsOf(r, lines, ItemLines(r, lines, i + 1), item);
              if item in after then after[item] == more && after[item] != [] else more == []
    {
      DescriptionsNext(r, lines, ks, i, item);
    }
  }

  lemma DescriptionsNext(r: Rules, lines: seq<string>, ks: seq<nat>, i: nat, item: string)
    requires i < |lines| && r.IsItem(lines[i]) && forall x :: 0 <= x < |ks| ==> ks[x] < |lines| && r.IsItem(lines[ks[x]])
    ensures DescriptionsOf(r, lines, ks + [i], item)
            == DescriptionsOf(r, lines, ks, item)
               + if r.match_(lines[i]).value.item == item && Description(r, lines, i) != "" then [Description(r, lines, i)] else []
  {
    Seqs.Appended(ks, i);
  }
}
