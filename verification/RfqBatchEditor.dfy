/**
 * The state of the RFQ batch editor over whole sessions (frontend/src/components/RfqBatchEditor.tsx): edits,
 * saves and the details that the server sends in between, in any order.
 */
module RfqBatchEditor {
  import opened Wrappers
  import opened Text
  import opened RfqEditor

  datatype Head = Head(title: string, status: string, note: string)

  datatype Detail = Detail(rfqId: int, title: string, status: string, note: Option<string>, lines: seq<Line>)

  function HeadOf(detail: Detail): Head {
    Head(detail.title, detail.status, detail.note.GetOr(""))
  }

  /** What saveBatch sends. */
  function BatchBody(head: Head): (string, string, Option<string>) {
    (Trim(head.title, IsJsSpace), head.status, TextIfAny(head.note))
  }

  /** Saving the fields of a detail unchanged sends its own title, status and note, if these have no white space around them. */
  lemma UntouchedBatchExactly(detail: Detail)
    ensures BatchBody(HeadOf(detail)) == (detail.title, detail.status, detail.note)
            <==> (detail.title == "" || CleanText(Some(detail.title))) && CleanText(detail.note)
  {
    TextExactly(detail.note);
    TitleExactly(detail.title);
  }

  lemma TitleExactly(title: string)
    ensures Trim(title, IsJsSpace) == title <==> title == "" || CleanText(Some(title))
  {
    TrimSpec(title, IsJsSpace);
    TrimKeeps("", IsJsSpace);
    if CleanText(Some(title)) {
      TrimKeeps(title, IsJsSpace);
    }
  }

  /** Object.fromEntries over the lines; of two lines with one id the later counts. */
  function BuildLineDraftMap(lines: seq<Line>): Drafts {
    if lines == [] then map[]
    else
      var last := lines[|lines| - 1];
      BuildLineDraftMap(lines[..|lines| - 1])[last.lineId := CreateDraft(last)]
  }

  lemma {:induction false} DraftMapGives(lines: seq<Line>, k: nat)
    requires k < |lines| && forall j :: k < j < |lines| ==> lines[j].lineId != lines[k].lineId
    ensures Get(BuildLineDraftMap(lines), lines[k].lineId) == Some(CreateDraft(lines[k]))
  {
    if k < |lines| - 1 {
      DraftMapGives(lines[..|lines| - 1], k);
    }
  }

  lemma {:induction false} DraftMapHasOnly(lines: seq<Line>, id: LineId)
    ensures id in BuildLineDraftMap(lines) <==> exists k :: 0 <= k < |lines| && lines[k].lineId == id
  {
    if lines != [] {
      var front := lines[..|lines| - 1];
      DraftMapHasOnly(front, id);
      assert forall k :: 0 <= k < |front| ==> front[k] == lines[k];
    }
  }

  // ---------- the state ----------

  /** held is the detail at hand: None while another batch is being fetched. */
  datatype State = State(
    held: Option<Detail>, head: Head, headBaseline: Head, drafts: Drafts, baseline: Drafts,
    loaded: Option<int>, headPending: bool, pending: seq<LineId>)

  datatype Event =
    | EditHead(head: Head)
    | EditLine(id: LineId, draft: Draft)
    | HeadSaved
    | LineSaved(id: LineId)
    | Received(detail: Detail)
    | Selected
    | Deselected

  const NoHead := Head("", "OPEN", "")

  const Empty := State(None, NoHead, NoHead, map[], map[], None, false, [])

  function Load(detail: Detail): State {
    var server := BuildLineDraftMap(detail.lines);
    State(Some(detail), HeadOf(detail), HeadOf(detail), server, server, Some(detail.rfqId), false, [])
  }

  function Rehydrate(s: State, detail: Detail): State {
    var server, ids := BuildLineDraftMap(detail.lines), Ids(s.pending);
    s.(head := if s.headPending then HeadOf(detail) else s.head,
       headBaseline := if s.headPending then HeadOf(detail) else s.headBaseline,
       drafts := Overlay(s.drafts, server, ids), baseline := Overlay(s.baseline, server, ids),
       headPending := false, pending := [])
  }

  /** The effect, which runs whenever the detail or one of the pending fields has changed. */
  function Effect(s: State): State {
    if s.held.None? then s
    else if s.loaded != Some(s.held.value.rfqId) then Load(s.held.value)
    else Rehydrate(s, s.held.value)
  }

  function Next(s: State, e: Event): State {
    match e
    case EditHead(head) => s.(head := head)
    case EditLine(id, draft) => s.(drafts := s.drafts[id := draft])
    case HeadSaved => Effect(s.(headPending := true))
    case LineSaved(id) => if id in s.pending then s else Effect(s.(pending := s.pending + [id]))
    case Received(detail) => Effect(s.(held := Some(detail)))
    case Selected => s.(held := None)
    case Deselected => Empty
  }

  function After(s: State, run: seq<Event>): State {
    if run == [] then s else Next(After(s, run[..|run| - 1]), run[|run| - 1])
  }

  predicate IsDirty(s: State) {
    s.head != s.headBaseline || exists id :: id in Dirty(s.drafts, s.baseline)
  }

  // ---------- the component ----------

  class Editor {
    var detailData: Option<Detail>
    var batchTitle: string
    var batchStatus: string
    var batchNote: string
    var batchBaseline: Head
    var lineDrafts: Drafts
    var lineDraftBaseline: Drafts
    var loadedBatchId: Option<int>
    var pendingBatchRehydrate: bool
    var pendingLineRehydrateIds: seq<LineId>

    function Abs(): State
      reads this
    {
      State(detailData, Head(batchTitle, batchStatus, batchNote), batchBaseline, lineDrafts, lineDraftBaseline,
            loadedBatchId, pendingBatchRehydrate, pendingLineRehydrateIds)
    }

    constructor ()
      ensures Abs() == Empty
    {
      detailData := None;
      batchTitle, batchStatus, batchNote := "", "OPEN", "";
      batchBaseline := Head("", "OPEN", "");
      lineDrafts, lineDraftBaseline := map[], map[];
      loadedBatchId := None;
      pendingBatchRehydrate, pendingLineRehydrateIds := false, [];
    }

    method UpdateLineDraft(lineId: LineId, draft: Draft)
      modifies this
      ensures Abs() == Next(old(Abs()), EditLine(lineId, draft))
    {
      lineDrafts := lineDrafts[lineId := draft];
    }

    method EditBatch(head: Head)
      modifies this
      ensures Abs() == Next(old(Abs()), EditHead(head))
    {
      batchTitle, batchStatus, batchNote := head.title, head.status, head.note;
    }

    /** What saveLine does once the server has accepted the line; the effect follows at once. */
    method LineWasSaved(lineId: LineId)
      modifies this
      ensures Abs() == Next(old(Abs()), LineSaved(lineId))
    {
      if lineId !in pendingLineRehydrateIds {
        pendingLineRehydrateIds := pendingLineRehydrateIds + [lineId];
        RunEffect();
      }
    }

    /** What saveBatch does once the server has accepted the batch. */
    method BatchWasSaved()
      modifies this
      ensures Abs() == Next(old(Abs()), HeadSaved)
    {
      pendingBatchRehydrate := true;
      RunEffect();
    }

    method ReceiveDetail(detail: Detail)
      modifies this
      ensures Abs() == Next(old(Abs()), Received(detail))
    {
      detailData := Some(detail);
      RunEffect();
    }

    /** Another batch is selected and its detail not there yet. */
    method SelectBatch()
      modifies this
      ensures Abs() == Next(old(Abs()), Selected)
    {
      detailData := None;
    }

    method Deselect()
      modifies this
      ensures Abs() == Next(old(Abs()), Deselected)
    {
      detailData := None;
      loadedBatchId := None;
      batchTitle, batchStatus, batchNote, batchBaseline := "", "OPEN", "", Head("", "OPEN", "");
      lineDrafts, lineDraftBaseline := map[], map[];
      pendingBatchRehydrate, pendingLineRehydrateIds := false, [];
    }

    method RunEffect()
      modifies this
      ensures Abs() == Effect(old(Abs()))
    {
      if detailData.None? {
        return;
      }
      var detail := detailData.value;
      var serverLineDrafts := BuildLineDraftMap(detail.lines);
      var head := HeadOf(detail);
      if loadedBatchId != Some(detail.rfqId) {
        batchTitle, batchStatus, batchNote, batchBaseline := head.title, head.status, head.note, head;
        lineDrafts, lineDraftBaseline := serverLineDrafts, serverLineDrafts;
        pendingBatchRehydrate, pendingLineRehydrateIds := false, [];
        loadedBatchId := Some(detail.rfqId);
        return;
      }
      if !pendingBatchRehydrate && |pendingLineRehydrateIds| == 0 {
        NothingPending(Abs(), detail);
        return;
      }
      if pendingBatchRehydrate {
        batchTitle, batchStatus, batchNote, batchBaseline := head.title, head.status, head.note, head;
      }
      if |pendingLineRehydrateIds| > 0 {
        lineDrafts, lineDraftBaseline :=
          MergeRehydratedLineDrafts(lineDrafts, lineDraftBaseline, serverLineDrafts, pendingLineRehydrateIds);
      } else {
        OverlayNothing(lineDrafts, serverLineDrafts);
        OverlayNothing(lineDraftBaseline, serverLineDrafts);
      }
      pendingBatchRehydrate, pendingLineRehydrateIds := false, [];
    }
  }

  lemma OverlayNothing(current: Drafts, server: Drafts)
    ensures Overlay(current, server, Ids([])) == current
  {
  }

  lemma NothingPending(s: State, detail: Detail)
    requires !s.headPending && s.pending == []
    ensures Rehydrate(s, detail) == s
  {
    OverlayNothing(s.drafts, BuildLineDraftMap(detail.lines));
    OverlayNothing(s.baseline, BuildLineDraftMap(detail.lines));
  }

  // ---------- what a detail cleans ----------

  /** A detail cleans everything when it loads a batch, and else the saved parts that it holds and nothing more. */
  lemma DetailCleansExactly(s: State, detail: Detail)
    ensures var t := Next(s, Received(detail));
            && (s.loaded != Some(detail.rfqId) ==> !IsDirty(t))
            && (s.loaded == Some(detail.rfqId) ==>
                 && Dirty(t.drafts, t.baseline)
                    == Dirty(s.drafts, s.baseline) - Ids(s.pending) * BuildLineDraftMap(detail.lines).Keys
                 && (t.head != t.headBaseline <==> !s.headPending && s.head != s.headBaseline))
  {
    if s.loaded == Some(detail.rfqId) {
      RehydrationCleansExactly(s.drafts, s.baseline, BuildLineDraftMap(detail.lines), Ids(s.pending));
    } else {
      NothingDirty(BuildLineDraftMap(detail.lines));
    }
  }

  lemma NothingDirty(drafts: Drafts)
    ensures forall id :: id !in Dirty(drafts, drafts)
  {
    forall id ensures id !in Dirty(drafts, drafts) {
      DraftsEqualMeansEqual(Get(drafts, id), Get(drafts, id));
    }
  }

  // ---------- what one line shows ----------

  /** A line's part of the state. */
  datatype Cell = Cell(draft: Option<Draft>, baseline: Option<Draft>, waiting: bool)

  function CellOf(s: State, id: LineId): Cell {
    Cell(Get(s.drafts, id), Get(s.baseline, id), id in s.pending)
  }

  function Refreshed(cell: Cell, detail: Detail, id: LineId): Cell {
    var server := Get(BuildLineDraftMap(detail.lines), id);
    if cell.waiting && server.Some? then Cell(server, server, false) else cell.(waiting := false)
  }

  /** The effect on one line of a batch that is loaded. */
  lemma CellRehydrated(s: State, detail: Detail, id: LineId)
    ensures CellOf(Rehydrate(s, detail), id) == Refreshed(CellOf(s, id), detail, id)
  {
    RehydrationTouchesOnly(s.drafts, BuildLineDraftMap(detail.lines), Ids(s.pending), id);
    RehydrationTouchesOnly(s.baseline, BuildLineDraftMap(detail.lines), Ids(s.pending), id);
  }

  /** A detail at hand is loaded, and nothing waits for it. */
  predicate Quiet(s: State) {
    s.held.Some? ==> s.loaded == Some(s.held.value.rfqId) && s.pending == [] && !s.headPending
  }

  lemma EffectQuiets(s: State)
    ensures s.held.Some? ==> Quiet(Effect(s)) && Effect(s).held == s.held
  {
  }

  /** Over every session, a saved part waits only while no detail is at hand: the effect never leaves one behind. */
  lemma {:induction false} NothingWaits(run: seq<Event>)
    ensures Quiet(After(Empty, run))
  {
    if run != [] {
      NothingWaits(run[..|run| - 1]);
      QuietStep(After(Empty, run[..|run| - 1]), run[|run| - 1]);
    }
  }

  lemma QuietStep(s: State, e: Event)
    requires Quiet(s)
    ensures Quiet(Next(s, e))
  {
    match e
    case HeadSaved => EffectQuiets(s.(headPending := true));
    case LineSaved(id) =>
      if id !in s.pending {
        EffectQuiets(s.(pending := s.pending + [id]));
      }
    case Received(detail) => EffectQuiets(s.(held := Some(detail)));
    case _ =>
  }

  /** The batch stays selected and its details are those of batch rfq. */
  predicate SameBatch(e: Event, rfq: int) {
    !e.Deselected? && (e.Received? ==> e.detail.rfqId == rfq)
  }

  predicate LeavesLine(e: Event, rfq: int, id: LineId) {
    SameBatch(e, rfq) && (e.EditLine? || e.LineSaved? ==> e.id != id)
  }

  /** An edit of a line that is not waiting survives whatever happens to the other lines, and any details. */
  lemma {:induction false} UnsavedEditSurvives(s: State, run: seq<Event>, rfq: int, id: LineId)
    requires Quiet(s) && s.loaded == Some(rfq) && id !in s.pending
    requires forall k :: 0 <= k < |run| ==> LeavesLine(run[k], rfq, id)
    ensures Quiet(After(s, run)) && After(s, run).loaded == Some(rfq)
    ensures CellOf(After(s, run), id) == CellOf(s, id)
  {
    if run != [] {
      var front, e := run[..|run| - 1], run[|run| - 1];
      UnsavedEditSurvives(s, front, rfq, id);
      assert LeavesLine(e, rfq, id);
      UnsavedStep(After(s, front), e, rfq, id);
    }
  }

  lemma UnsavedStep(s: State, e: Event, rfq: int, id: LineId)
    requires Quiet(s) && s.loaded == Some(rfq) && id !in s.pending && LeavesLine(e, rfq, id)
    ensures Quiet(Next(s, e)) && Next(s, e).loaded == Some(rfq) && CellOf(Next(s, e), id) == CellOf(s, id)
  {
    QuietStep(s, e);
    match e
    case HeadSaved => EffectKeepsCell(s.(headPending := true), rfq, id);
    case LineSaved(other) =>
      if other !in s.pending {
        EffectKeepsCell(s.(pending := s.pending + [other]), rfq, id);
      }
    case Received(detail) => EffectKeepsCell(s.(held := Some(detail)), rfq, id);
    case _ =>
  }

  lemma EffectKeepsCell(s: State, rfq: int, id: LineId)
    requires s.loaded == Some(rfq) && (s.held.Some? ==> s.held.value.rfqId == rfq) && id !in s.pending
    ensures Effect(s).loaded == Some(rfq) && CellOf(Effect(s), id) == CellOf(s, id)
  {
    if s.held.Some? {
      CellRehydrated(s, s.held.value, id);
    }
  }

  // ---------- what a save shows ----------

  /**
   * A save puts the line back to what the detail at hand says: drafts and baseline, whatever was typed and
   * accepted. The detail at hand is the one from before the save.
   */
  lemma SaveShowsHeld(s: State, id: LineId)
    requires Quiet(s) && s.held.Some?
    ensures var t, server := Next(s, LineSaved(id)), Get(BuildLineDraftMap(s.held.value.lines), id);
            && t.held == s.held && t.loaded == s.loaded && Quiet(t)
            && CellOf(t, id) == if server.Some? then Cell(server, server, false) else CellOf(s, id)
  {
    var asked := s.(pending := s.pending + [id]);
    EffectQuiets(asked);
    CellRehydrated(asked, s.held.value, id);
  }

  /**
   * So, over every session, a saved line ends up as the newest detail has it if and only if the detail at hand
   * when the save was accepted has it so: later details of the batch are not looked at. In particular a save
   * that changes a line shows the old value, until the batch is loaded again.
   */
  lemma ShowsNewestExactly(prior: seq<Event>, id: LineId, later: seq<Event>, newest: Detail)
    requires var held := After(Empty, prior).held;
             held.Some? && id in BuildLineDraftMap(held.value.lines) && newest.rfqId == held.value.rfqId
             && forall k :: 0 <= k < |later| ==> LeavesLine(later[k], held.value.rfqId, id)
    ensures var s := After(Empty, prior);
            var t := After(Next(s, LineSaved(id)), later + [Received(newest)]);
            && Get(t.drafts, id) == Get(BuildLineDraftMap(s.held.value.lines), id) == Get(t.baseline, id)
            && (Get(t.drafts, id) == Get(BuildLineDraftMap(newest.lines), id)
                <==> Get(BuildLineDraftMap(s.held.value.lines), id) == Get(BuildLineDraftMap(newest.lines), id))
  {
    var s := After(Empty, prior);
    NothingWaits(prior);
    SaveShowsHeld(s, id);
    UnsavedEditSurvives(Next(s, LineSaved(id)), later + [Received(newest)], s.held.value.rfqId, id);
  }

  /** What is typed after a save, in turn, stays. */
  lemma TypedAfterSaveStays(prior: seq<Event>, id: LineId, draft: Draft, later: seq<Event>)
    requires var held := After(Empty, prior).held;
             held.Some? && forall k :: 0 <= k < |later| ==> LeavesLine(later[k], held.value.rfqId, id)
    ensures Get(After(Next(Next(After(Empty, prior), LineSaved(id)), EditLine(id, draft)), later).drafts, id) == Some(draft)
  {
    var s := After(Empty, prior);
    NothingWaits(prior);
    SaveShowsHeld(s, id);
    var typed := Next(Next(s, LineSaved(id)), EditLine(id, draft));
    UnsavedEditSurvives(typed, later, s.held.value.rfqId, id);
  }

  /** A save accepted while no detail is at hand waits, whatever is edited meanwhile. */
  lemma {:induction false} SavedLineWaits(s: State, run: seq<Event>, rfq: int, id: LineId)
    requires s.held.None? && s.loaded == Some(rfq) && id in s.pending
    requires forall k :: 0 <= k < |run| ==> !run[k].Received? && !run[k].Deselected?
    ensures var t := After(s, run); t.held.None? && t.loaded == Some(rfq) && id in t.pending
  {
    if run != [] {
      SavedLineWaits(s, run[..|run| - 1], rfq, id);
    }
  }

  /** And then the first detail of the batch decides what the line shows; edits made before it are dropped. */
  lemma FirstDetailDecides(s: State, meanwhile: seq<Event>, first: Detail, rfq: int, id: LineId)
    requires s.held.None? && s.loaded == Some(rfq) && id in s.pending && first.rfqId == rfq
    requires forall k :: 0 <= k < |meanwhile| ==> !meanwhile[k].Received? && !meanwhile[k].Deselected?
    requires id in BuildLineDraftMap(first.lines)
    ensures var t, server := Next(After(s, meanwhile), Received(first)), Get(BuildLineDraftMap(first.lines), id);
            Quiet(t) && t.loaded == Some(rfq) && CellOf(t, id) == Cell(server, server, false)
  {
    var waiting := After(s, meanwhile);
    SavedLineWaits(s, meanwhile, rfq, id);
    CellRehydrated(waiting.(held := Some(first)), first, id);
  }

  // ---------- a session that shows an old value ----------

  /** A line is edited and saved, and then the server sends it as saved. */
  function StaleRun(stale: Detail, fetched: Detail, draft: Draft): seq<Event> {
    [Received(stale), EditLine(1, draft), LineSaved(1), Received(fetched)]
  }

  function StatusLine(status: string): Line {
    Line(1, 1, 5, 0, None, None, None, None, None, status, None)
  }

  function StatusDetail(status: string): Detail {
    Detail(1, "", "OPEN", None, [StatusLine(status)])
  }

  /** Its status was changed from QUOTED to ORDERED, yet from an empty editor on QUOTED stays on show, and nothing is dirty. */
  lemma StaleDetailSticks()
    ensures var t := After(Empty, StaleRun(StatusDetail("QUOTED"), StatusDetail("ORDERED"), CreateDraft(StatusLine("ORDERED"))));
            && Get(t.drafts, 1) == Some(CreateDraft(StatusLine("QUOTED")))
            && CreateDraft(StatusLine("QUOTED")) != CreateDraft(StatusLine("ORDERED")) && !IsDirty(t)
  {
    var was, typed := CreateDraft(StatusLine("QUOTED")), CreateDraft(StatusLine("ORDERED"));
    assert was.status[0] == 'Q' && typed.status[0] == 'O';
    OneLine(StatusLine("QUOTED"));
    StaleEnds(StatusDetail("QUOTED"), StatusDetail("ORDERED"), was, typed);
    NothingDirty(map[1 := was]);
  }

  lemma StaleEnds(stale: Detail, fetched: Detail, was: Draft, typed: Draft)
    requires stale.rfqId == fetched.rfqId && BuildLineDraftMap(stale.lines) == map[1 := was]
    ensures var t := After(Empty, StaleRun(stale, fetched, typed));
            t.head == t.headBaseline && t.drafts == map[1 := was] == t.baseline
  {
    FourSteps(Received(stale), EditLine(1, typed), LineSaved(1), Received(fetched));
    StaleSaved(stale, was, typed);
    StaleIgnores(stale, fetched);
  }

  lemma StaleSaved(stale: Detail, was: Draft, typed: Draft)
    requires BuildLineDraftMap(stale.lines) == map[1 := was]
    ensures Next(Next(Load(stale), EditLine(1, typed)), LineSaved(1)) == Load(stale)
  {
    var edited := Load(stale).(drafts := map[1 := typed]);
    assert Next(Load(stale), EditLine(1, typed)) == edited;
    OverlayOne(typed, was);
    OverlayOne(was, was);
    RehydrateLoaded(stale, edited, 1);
  }

  lemma RehydrateLoaded(stale: Detail, edited: State, id: LineId)
    requires edited == Load(stale).(drafts := edited.drafts)
    requires Overlay(edited.drafts, BuildLineDraftMap(stale.lines), Ids([id])) == BuildLineDraftMap(stale.lines)
    requires Overlay(BuildLineDraftMap(stale.lines), BuildLineDraftMap(stale.lines), Ids([id])) == BuildLineDraftMap(stale.lines)
    ensures Next(edited, LineSaved(id)) == Load(stale)
  {
    assert [] + [id] == [id];
  }

  lemma OverlayOne(other: Draft, was: Draft)
    ensures Overlay(map[1 := other], map[1 := was], Ids([1])) == map[1 := was]
  {
    assert Ids([1]) == {1};
  }

  lemma StaleIgnores(stale: Detail, fetched: Detail)
    requires stale.rfqId == fetched.rfqId
    ensures Next(Empty, Received(stale)) == Load(stale)
    ensures Next(Load(stale), Received(fetched)) == Load(stale).(held := Some(fetched))
  {
    NothingPending(Load(stale).(held := Some(fetched)), fetched);
  }

  lemma OneMore(s: State, run: seq<Event>, e: Event)
    ensures After(s, run + [e]) == Next(After(s, run), e)
  {
    assert (run + [e])[..|run|] == run;
  }

  lemma FourSteps(a: Event, b: Event, c: Event, d: Event)
    ensures After(Empty, [a, b, c, d]) == Next(Next(Next(Next(Empty, a), b), c), d)
  {
    TwoMore(Empty, [], a, b);
    TwoMore(Empty, [a, b], c, d);
    assert [] + [a] + [b] == [a, b];
    assert [a, b] + [c] + [d] == [a, b, c, d];
  }

  lemma TwoMore(s: State, run: seq<Event>, e: Event, f: Event)
    ensures After(s, run + [e] + [f]) == Next(Next(After(s, run), e), f)
  {
    OneMore(s, run, e);
    OneMore(s, run + [e], f);
  }

  lemma OneLine(line: Line)
    ensures BuildLineDraftMap([line]) == map[line.lineId := CreateDraft(line)]
  {
    assert [line][..0] == [];
    assert BuildLineDraftMap([]) == map[];
  }

  // ---------- baselines ----------

  predicate Sent(run: seq<Event>, detail: Detail) {
    Received(detail) in run
  }

  /** Some received detail gives the line that draft. */
  predicate FromServer(run: seq<Event>, id: LineId, draft: Option<Draft>) {
    exists k :: 0 <= k < |run| && run[k].Received? && Get(BuildLineDraftMap(run[k].detail.lines), id) == draft
  }

  lemma FromServerGrows(front: seq<Event>, e: Event, id: LineId, draft: Option<Draft>)
    requires FromServer(front, id, draft)
    ensures FromServer(front + [e], id, draft)
  {
    var k :| 0 <= k < |front| && front[k].Received? && Get(BuildLineDraftMap(front[k].detail.lines), id) == draft;
    assert (front + [e])[k] == front[k];
  }

  lemma SentDecides(run: seq<Event>, detail: Detail, id: LineId)
    requires Sent(run, detail)
    ensures FromServer(run, id, Get(BuildLineDraftMap(detail.lines), id))
  {
    var k :| 0 <= k < |run| && run[k] == Received(detail);
  }

  /** The baseline of a line after the effect: as before, or the held detail's. */
  lemma EffectBaseline(s: State, id: LineId)
    ensures var b := Get(Effect(s).baseline, id);
            && Effect(s).held == s.held
            && (b == Get(s.baseline, id) || (s.held.Some? && b == Get(BuildLineDraftMap(s.held.value.lines), id)))
  {
    if s.held.Some? && s.loaded == Some(s.held.value.rfqId) {
      CellRehydrated(s, s.held.value, id);
    }
  }

  lemma BaselineStep(s: State, e: Event, id: LineId)
    ensures var t := Next(s, e);
            && (t.held.None? || t.held == s.held || e == Received(t.held.value))
            && (var b := Get(t.baseline, id);
                b.None? || b == Get(s.baseline, id)
                || (t.held.Some? && b == Get(BuildLineDraftMap(t.held.value.lines), id)))
  {
    match e
    case HeadSaved => EffectBaseline(s.(headPending := true), id);
    case LineSaved(line) => EffectBaseline(s.(pending := s.pending + [line]), id);
    case Received(detail) => EffectBaseline(s.(held := Some(detail)), id);
    case _ =>
  }

  /** Over every session, whatever counts as saved was sent by the server for that line. */
  lemma {:induction false} BaselineIsServers(run: seq<Event>, id: LineId)
    ensures var t := After(Empty, run);
            && (t.held.Some? ==> Sent(run, t.held.value))
            && (Get(t.baseline, id).Some? ==> FromServer(run, id, Get(t.baseline, id)))
  {
    if run != [] {
      var front, e := run[..|run| - 1], run[|run| - 1];
      var s, t := After(Empty, front), After(Empty, run);
      assert run == front + [e];
      BaselineIsServers(front, id);
      BaselineStep(s, e, id);
      if Get(t.baseline, id).Some? {
        if Get(t.baseline, id) == Get(s.baseline, id) {
          FromServerGrows(front, e, id, Get(s.baseline, id));
        } else {
          SentDecides(run, t.held.value, id);
        }
      }
    }
  }
}
