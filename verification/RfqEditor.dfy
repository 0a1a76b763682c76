/**
 * Draft rehydration, highlighting and paging of the RFQ editor (frontend/src/lib/rfqEditorState.ts,
 * frontend/src/lib/editorDrafts.ts and frontend/src/components/RfqBatchEditor.tsx).
 */
module RfqEditor {
  import opened Wrappers
  import opened Text
  import opened Seqs
  import Decimal

  type LineId = int

  datatype Draft = Draft(
    requestedQuantity: string, finalizedQuantity: string, supplierName: string, leadTimeDays: string,
    expectedArrival: string, linkedPurchaseOrderLineId: string, linkedQuotationId: string, status: string, note: string)

  datatype Line = Line(
    lineId: LineId, itemId: int, requestedQuantity: int, finalizedQuantity: int, supplierName: Option<string>,
    leadTimeDays: Option<int>, expectedArrival: Option<string>, linkedPurchaseOrderLineId: Option<int>,
    linkedQuotationId: Option<int>, status: string, note: Option<string>)

  function Printed(n: Option<int>): string {
    if n.None? then "" else Decimal.OfInt(n.value)
  }

  function CreateDraft(line: Line): Draft {
    Draft(Decimal.OfInt(line.requestedQuantity), Decimal.OfInt(line.finalizedQuantity), line.supplierName.GetOr(""),
          Printed(line.leadTimeDays), line.expectedArrival.GetOr(""), Printed(line.linkedPurchaseOrderLineId),
          Printed(line.linkedQuotationId), line.status, line.note.GetOr(""))
  }

  lemma PrintedInjective(a: Option<int>, b: Option<int>)
    requires Printed(a) == Printed(b)
    ensures a == b
  {
    if a.Some? {
      Decimal.OfIntSign(a.value);
    }
    if b.Some? {
      Decimal.OfIntSign(b.value);
    }
    if a.Some? && b.Some? {
      Decimal.OfIntInjective(a.value, b.value);
    }
  }

  /** Nothing but the difference between a missing and an empty text is lost in a draft. */
  lemma CreateDraftInjective(a: Line, b: Line)
    requires CreateDraft(a) == CreateDraft(b)
    ensures a.requestedQuantity == b.requestedQuantity && a.finalizedQuantity == b.finalizedQuantity
    ensures a.leadTimeDays == b.leadTimeDays && a.status == b.status
    ensures a.linkedPurchaseOrderLineId == b.linkedPurchaseOrderLineId && a.linkedQuotationId == b.linkedQuotationId
    ensures a.supplierName.GetOr("") == b.supplierName.GetOr("") && a.note.GetOr("") == b.note.GetOr("")
    ensures a.expectedArrival.GetOr("") == b.expectedArrival.GetOr("")
  {
    Decimal.OfIntInjective(a.requestedQuantity, b.requestedQuantity);
    Decimal.OfIntInjective(a.finalizedQuantity, b.finalizedQuantity);
    PrintedInjective(a.leadTimeDays, b.leadTimeDays);
    PrintedInjective(a.linkedPurchaseOrderLineId, b.linkedPurchaseOrderLineId);
    PrintedInjective(a.linkedQuotationId, b.linkedQuotationId);
  }

  // ---------- what a save sends ----------

  /** The body of a line's PUT; missing values are null. */
  datatype LineBody = LineBody(
    requestedQuantity: Option<int>, finalizedQuantity: Option<int>, supplierName: Option<string>, leadTimeDays: Option<int>,
    expectedArrival: Option<string>, linkedPurchaseOrderLineId: Option<int>, status: string, note: Option<string>)

  /** Number() of plain decimals; an empty text is 0, and what is not a number becomes null. */
  function Number(text: string): Option<int> {
    var t := Trim(text, IsJsSpace);
    if t == "" then Some(0) else Decimal.ReadInt(t)
  }

  function NumberIfAny(text: string): Option<int> {
    if Trim(text, IsJsSpace) == "" then None else Number(text)
  }

  function TextIfAny(text: string): Option<string> {
    var t := Trim(text, IsJsSpace);
    if t == "" then None else Some(t)
  }

  function SaveBody(draft: Draft): LineBody {
    LineBody(Number(draft.requestedQuantity), Number(draft.finalizedQuantity), TextIfAny(draft.supplierName),
             NumberIfAny(draft.leadTimeDays), TextIfAny(draft.expectedArrival),
             NumberIfAny(draft.linkedPurchaseOrderLineId), draft.status, TextIfAny(draft.note))
  }

  /** Missing, or neither blank nor with white space around it. */
  predicate CleanText(o: Option<string>) {
    o.Some? ==> o.value != "" && !IsJsSpace(o.value[0]) && !IsJsSpace(o.value[|o.value| - 1])
  }

  lemma PrintedReads(n: int)
    ensures Trim(Decimal.OfInt(n), IsJsSpace) == Decimal.OfInt(n) && Decimal.OfInt(n) != ""
    ensures Decimal.ReadInt(Decimal.OfInt(n)) == Some(n)
  {
    var s := Decimal.OfInt(n);
    Decimal.OfIntReads(n);
    Decimal.OfIntSign(n);
    NoSpace(s);
    TrimKeeps(s, IsJsSpace);
  }

  lemma NoSpace(s: string)
    requires s != "" && (Decimal.AllDigits(s) || (|s| > 1 && s[0] == '-' && Decimal.AllDigits(s[1..])))
    ensures !IsJsSpace(s[0]) && !IsJsSpace(s[|s| - 1])
  {
    assert Decimal.IsDigit(s[0]) || s[0] == '-';
    assert |s| > 1 ==> s[|s| - 1] == s[1..][|s| - 2];
  }

  lemma TextExactly(o: Option<string>)
    ensures TextIfAny(o.GetOr("")) == o <==> CleanText(o)
  {
    TrimSpec(o.GetOr(""), IsJsSpace);
    if CleanText(o) {
      TrimKeeps(o.GetOr(""), IsJsSpace);
    }
  }

  /**
   * Saving the draft of a line unchanged sends the line's own numbers and status, and its own texts if and only if
   * these are not blank and have no white space around them.
   */
  lemma UntouchedSaveExactly(line: Line)
    ensures var body := SaveBody(CreateDraft(line));
            && body.requestedQuantity == Some(line.requestedQuantity) && body.finalizedQuantity == Some(line.finalizedQuantity)
            && body.leadTimeDays == line.leadTimeDays && body.linkedPurchaseOrderLineId == line.linkedPurchaseOrderLineId
            && body.status == line.status
            && (body.supplierName == line.supplierName <==> CleanText(line.supplierName))
            && (body.expectedArrival == line.expectedArrival <==> CleanText(line.expectedArrival))
            && (body.note == line.note <==> CleanText(line.note))
    ensures NumberIfAny(CreateDraft(line).linkedQuotationId) == line.linkedQuotationId
  {
    PrintedReads(line.requestedQuantity);
    PrintedReads(line.finalizedQuantity);
    PrintedReads(line.leadTimeDays.GetOr(0));
    PrintedReads(line.linkedPurchaseOrderLineId.GetOr(0));
    PrintedReads(line.linkedQuotationId.GetOr(0));
    TrimKeeps("", IsJsSpace);
    TextExactly(line.supplierName);
    TextExactly(line.expectedArrival);
    TextExactly(line.note);
  }

  // ---------- rehydration ----------

  type Drafts = map<LineId, Draft>

  function Get(m: Drafts, id: LineId): Option<Draft> {
    if id in m then Some(m[id]) else None
  }

  /** The field-by-field comparison, where a missing draft equals only a missing one. */
  predicate DraftsEqual(left: Option<Draft>, right: Option<Draft>) {
    if left.None? || right.None? then left.None? && right.None?
    else
      var l, r := left.value, right.value;
      && l.requestedQuantity == r.requestedQuantity
      && l.finalizedQuantity == r.finalizedQuantity
      && l.supplierName == r.supplierName
      && l.leadTimeDays == r.leadTimeDays
      && l.expectedArrival == r.expectedArrival
      && l.linkedPurchaseOrderLineId == r.linkedPurchaseOrderLineId
      && l.linkedQuotationId == r.linkedQuotationId
      && l.status == r.status
      && l.note == r.note
  }

  /** The lines whose draft differs from its baseline. */
  function Dirty(drafts: Drafts, baseline: Drafts): set<LineId> {
    set id | id in drafts && !DraftsEqual(Get(drafts, id), Get(baseline, id))
  }

  function Ids(ids: seq<LineId>): set<LineId> {
    set id | id in ids
  }

  /** Server drafts for the given lines override what is there. */
  function Overlay(current: Drafts, server: Drafts, ids: set<LineId>): Drafts {
    current + map id | id in ids && id in server :: server[id]
  }

  /** A Set walks its elements in the order of their first insertion. */
  method MergeRehydratedLineDrafts(drafts: Drafts, baseline: Drafts, server: Drafts, pendingLineIds: seq<LineId>)
    returns (nextDrafts: Drafts, nextBaseline: Drafts)
    ensures nextDrafts == Overlay(drafts, server, Ids(pendingLineIds))
    ensures nextBaseline == Overlay(baseline, server, Ids(pendingLineIds))
  {
    var seen := {};
    nextDrafts, nextBaseline := drafts, baseline;
    for k := 0 to |pendingLineIds|
      invariant seen == Ids(pendingLineIds[..k])
      invariant nextDrafts == Overlay(drafts, server, seen)
      invariant nextBaseline == Overlay(baseline, server, seen)
    {
      var lineId := pendingLineIds[k];
      IdsNext(pendingLineIds, k);
      if lineId in seen {
        assert seen + {lineId} == seen;
        continue;
      }
      OverlayOneMore(drafts, server, seen, lineId);
      OverlayOneMore(baseline, server, seen, lineId);
      seen := seen + {lineId};
      if lineId !in server {
        continue;
      }
      DraftsEqualMeansEqual(Get(nextDrafts, lineId), Some(server[lineId]));
      DraftsEqualMeansEqual(Get(nextBaseline, lineId), Some(server[lineId]));
      if !DraftsEqual(Get(nextDrafts, lineId), Some(server[lineId])) {
        nextDrafts := nextDrafts[lineId := server[lineId]];
      }
      if !DraftsEqual(Get(nextBaseline, lineId), Some(server[lineId])) {
        nextBaseline := nextBaseline[lineId := server[lineId]];
      }
    }
    assert pendingLineIds[..|pendingLineIds|] == pendingLineIds;
  }

  lemma IdsNext(ids: seq<LineId>, k: nat)
    requires k < |ids|
    ensures Ids(ids[..k + 1]) == Ids(ids[..k]) + {ids[k]}
  {
    assert ids[..k + 1] == ids[..k] + [ids[k]];
  }

  lemma DraftsEqualMeansEqual(left: Option<Draft>, right: Option<Draft>)
    ensures DraftsEqual(left, right) <==> left == right
  {
  }

  /** Overlaying one more line writes its server draft. */
  lemma OverlayOneMore(current: Drafts, server: Drafts, ids: set<LineId>, id: LineId)
    ensures var before, after := Overlay(current, server, ids), Overlay(current, server, ids + {id});
            after == if id in server then before[id := server[id]] else before
  {
  }

  /** Exactly the pending lines that the server returned stop being dirty. */
  lemma RehydrationCleansExactly(drafts: Drafts, baseline: Drafts, server: Drafts, pending: set<LineId>)
    ensures Dirty(Overlay(drafts, server, pending), Overlay(baseline, server, pending))
            == Dirty(drafts, baseline) - (pending * server.Keys)
  {
    var d, b := Overlay(drafts, server, pending), Overlay(baseline, server, pending);
    forall id
      ensures id in Dirty(d, b) <==> id in Dirty(drafts, baseline) && !(id in pending && id in server)
    {
      if id in pending && id in server {
        assert d[id] == server[id] == b[id];
      } else {
        assert Get(d, id) == Get(drafts, id) && Get(b, id) == Get(baseline, id);
      }
    }
  }

  /** The others keep draft and baseline, and the returned ones take the server's. */
  lemma RehydrationTouchesOnly(current: Drafts, server: Drafts, pending: set<LineId>, id: LineId)
    ensures Get(Overlay(current, server, pending), id)
            == if id in pending && id in server then Some(server[id]) else Get(current, id)
  {
  }

  /** Rehydrating twice is rehydrating once; in two goes, in either order, is rehydrating together. */
  lemma RehydrationCommutes(current: Drafts, server: Drafts, p: set<LineId>, q: set<LineId>)
    ensures Overlay(Overlay(current, server, p), server, p) == Overlay(current, server, p)
    ensures Overlay(Overlay(current, server, p), server, q) == Overlay(current, server, p + q)
    ensures Overlay(Overlay(current, server, p), server, q) == Overlay(Overlay(current, server, q), server, p)
  {
    OverlayTwice(current, server, p, q);
    OverlayTwice(current, server, q, p);
    OverlayTwice(current, server, p, p);
    assert p + q == q + p && p + p == p;
  }

  lemma OverlayTwice(current: Drafts, server: Drafts, p: set<LineId>, q: set<LineId>)
    ensures Overlay(Overlay(current, server, p), server, q) == Overlay(current, server, p + q)
  {
  }

  // ---------- highlighting ----------

  /** The elements on which has answers wanted, in order. */
  function Filter<L>(lines: seq<L>, has: L -> bool, wanted: bool): seq<L> {
    if lines == [] then []
    else (if has(lines[0]) == wanted then [lines[0]] else []) + Filter(lines[1..], has, wanted)
  }

  function ForItem(item: int): Line -> bool {
    (line: Line) => line.itemId == item
  }

  function Highlight<L>(lines: seq<L>, has: L -> bool): seq<L> {
    var matching := Filter(lines, has, true);
    if |matching| == 0 then lines else matching + Filter(lines, has, false)
  }

  function OrderVisible(lines: seq<Line>, highlighted: Option<int>): seq<Line> {
    if highlighted.None? || highlighted.value == 0 then lines else Highlight(lines, ForItem(highlighted.value))
  }

  lemma {:induction false} FilterSplits<L>(lines: seq<L>, has: L -> bool)
    ensures multiset(Filter(lines, has, true)) + multiset(Filter(lines, has, false)) == multiset(lines)
  {
    if lines != [] {
      FilterSplits(lines[1..], has);
      assert lines == [lines[0]] + lines[1..];
    }
  }

  lemma {:induction false} FilterConcat<L>(a: seq<L>, b: seq<L>, has: L -> bool, wanted: bool)
    ensures Filter(a + b, has, wanted) == Filter(a, has, wanted) + Filter(b, has, wanted)
  {
    if a == [] {
      NothingBefore(b);
      NothingBefore(Filter(b, has, wanted));
    } else {
      Heads(a, b);
      FilterConcat(a[1..], b, has, wanted);
      Associates(if has(a[0]) == wanted then [a[0]] else [], Filter(a[1..], has, wanted), Filter(b, has, wanted));
    }
  }

  lemma {:induction false} FilterHolds<L>(lines: seq<L>, has: L -> bool, wanted: bool)
    ensures forall i :: 0 <= i < |Filter(lines, has, wanted)| ==> has(Filter(lines, has, wanted)[i]) == wanted
  {
    if lines != [] {
      FilterHolds(lines[1..], has, wanted);
    }
  }

  /** A list that already agrees is filtered to itself, or to nothing. */
  lemma {:induction false} FilterAgreeing<L>(lines: seq<L>, has: L -> bool, m: bool, wanted: bool)
    requires forall i :: 0 <= i < |lines| ==> has(lines[i]) == m
    ensures Filter(lines, has, wanted) == if m == wanted then lines else []
  {
    if lines != [] {
      FilterAgreeing(lines[1..], has, m, wanted);
    }
  }

  lemma {:induction false} FilterNothing<L>(lines: seq<L>, has: L -> bool, j: nat)
    requires |Filter(lines, has, true)| == 0 && j < |lines|
    ensures !has(lines[j])
  {
    if j > 0 {
      FilterNothing(lines[1..], has, j - 1);
    }
  }

  lemma HighlightFilters<L>(lines: seq<L>, has: L -> bool, wanted: bool)
    ensures Filter(Highlight(lines, has), has, wanted) == Filter(lines, has, wanted)
  {
    var front, back := Filter(lines, has, true), Filter(lines, has, false);
    FilterConcat(front, back, has, wanted);
    FilterHolds(lines, has, true);
    FilterHolds(lines, has, false);
    FilterAgreeing(front, has, true, wanted);
    FilterAgreeing(back, has, false, wanted);
  }

  lemma HighlightLeads<L>(lines: seq<L>, has: L -> bool, i: nat, j: nat)
    requires i < j < |Highlight(lines, has)| && has(Highlight(lines, has)[j])
    ensures has(Highlight(lines, has)[i])
  {
    FilterHolds(lines, has, true);
    FilterHolds(lines, has, false);
    if |Filter(lines, has, true)| == 0 {
      FilterNothing(lines, has, j);
    }
  }

  /**
   * Highlighting is a permutation that keeps the order within the highlighted item and within the rest, and
   * puts the highlighted lines first.
   */
  lemma HighlightingStable(lines: seq<Line>, item: int)
    requires item != 0
    ensures var shown, has := OrderVisible(lines, Some(item)), ForItem(item);
            && multiset(shown) == multiset(lines)
            && (forall wanted :: Filter(shown, has, wanted) == Filter(lines, has, wanted))
            && (forall i: nat, j: nat :: i < j < |shown| && has(shown[j]) ==> has(shown[i]))
  {
    var shown, has := OrderVisible(lines, Some(item)), ForItem(item);
    FilterSplits(lines, has);
    forall wanted ensures Filter(shown, has, wanted) == Filter(lines, has, wanted) {
      HighlightFilters(lines, has, wanted);
    }
    forall i: nat, j: nat | i < j < |shown| && has(shown[j]) ensures has(shown[i]) {
      HighlightLeads(lines, has, i, j);
    }
  }

  // ---------- paging ----------

  function Max(a: int, b: int): int {
    if a >= b then a else b
  }

  function Min(a: int, b: int): int {
    if a <= b then a else b
  }

  /** Array.prototype.slice with non-negative bounds. */
  function Slice<T>(s: seq<T>, from: nat, to: nat): seq<T>
    requires from <= to
  {
    s[Min(from, |s|)..Min(to, |s|)]
  }

  function Paginate<T>(lines: seq<T>, page: int, pageSize: int): seq<T> {
    var p, k := Max(1, page), Max(1, pageSize);
    PageBounds(p, k);
    Slice(lines, (p - 1) * k, (p - 1) * k + k)
  }

  lemma PageBounds(p: int, k: int)
    requires p >= 1 && k >= 1
    ensures (p - 1) * k >= 0
  {
  }

  function TotalPages(count: nat, pageSize: nat): nat
    requires pageSize >= 1
  {
    Max(1, (count + pageSize - 1) / pageSize)
  }

  /** The page shown for a page number that may be out of date. */
  function CurrentPage(page: int, count: nat, pageSize: nat): int
    requires pageSize >= 1
  {
    Min(page, TotalPages(count, pageSize))
  }

  /** Pages 1 to n. */
  function Pages<T>(lines: seq<T>, n: nat, pageSize: nat): seq<T> {
    if n == 0 then [] else Pages(lines, n - 1, pageSize) + Paginate(lines, n, pageSize)
  }

  lemma {:induction false} PagesArePrefix<T>(lines: seq<T>, n: nat, k: nat)
    requires k >= 1
    ensures n * k >= 0 && Pages(lines, n, k) == lines[..Min(n * k, |lines|)]
  {
    if n > 0 {
      PagesArePrefix(lines, n - 1, k);
      PageIs(lines, n, k);
    }
  }

  lemma PageIs<T>(lines: seq<T>, n: nat, k: nat)
    requires n >= 1 && k >= 1
    ensures 0 <= (n - 1) * k <= n * k
    ensures var a, b := Min((n - 1) * k, |lines|), Min(n * k, |lines|);
            Paginate(lines, n, k) == lines[a..b] && lines[..a] + lines[a..b] == lines[..b]
  {
    PageBounds(n, k);
    assert (n - 1) * k + k == n * k;
  }

  lemma EnoughPages(count: nat, k: nat)
    requires k >= 1
    ensures TotalPages(count, k) * k >= count
    ensures count > 0 ==> (TotalPages(count, k) - 1) * k < count
  {
    var q := (count + k - 1) / k;
    assert q * k + (count + k - 1) % k == count + k - 1;
    assert 0 <= (count + k - 1) % k < k;
    if q < 1 {
      assert q * k <= 0;
    }
    assert (q - 1) * k == q * k - k;
  }

  /** Pages 1 to the last concatenate to all lines, the last one being the first that completes them. */
  lemma PagesCoverAll<T>(lines: seq<T>, k: nat)
    requires k >= 1
    ensures Pages(lines, TotalPages(|lines|, k), k) == lines
    ensures forall n: nat :: n < TotalPages(|lines|, k) && lines != [] ==> |Pages(lines, n, k)| < |lines|
  {
    var last := TotalPages(|lines|, k);
    EnoughPages(|lines|, k);
    PagesArePrefix(lines, last, k);
    assert lines[..|lines|] == lines;
    forall n: nat | n < last && lines != [] ensures |Pages(lines, n, k)| < |lines| {
      PagesArePrefix(lines, n, k);
      assert n * k <= (last - 1) * k by { Monotone(n, last - 1, k); }
    }
  }

  lemma Monotone(a: int, b: int, k: int)
    requires a <= b && k >= 0
    ensures a * k <= b * k
  {
  }

  /** A page number kept from a longer list is clamped to a page that has lines. */
  lemma ClampedPageNotEmpty<T>(lines: seq<T>, page: int, k: nat)
    requires k >= 1 && lines != []
    ensures Paginate(lines, CurrentPage(page, |lines|, k), k) != []
    ensures |Paginate(lines, CurrentPage(page, |lines|, k), k)| <= k
  {
    var p, last := Max(1, CurrentPage(page, |lines|, k)), TotalPages(|lines|, k);
    EnoughPages(|lines|, k);
    PageBounds(p, k);
    Monotone(p - 1, last - 1, k);
  }
}
