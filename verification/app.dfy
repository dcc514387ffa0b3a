/**
 The report collection and navigation state of App.tsx: the upsert performed
 by `handleSaveReport` and the menu/report view with the selected report id.
 */
module App {
  import opened Types
  import opened Scheduler

  datatype View = Menu | ReportScreen

  /** The `reports`, `currentView` and `selectedReportId` state of the application. */
  datatype AppState = AppState(reports: seq<Report>, view: View, selectedId: Option<string>)

  /** No id occurs twice in the collection. */
  predicate UniqueIds(rs: seq<Report>)
  {
    forall i, j :: 0 <= i < j < |rs| ==> rs[i].id != rs[j].id
  }

  /** The test `r => r.id === id`. */
  function ReportWithId(id: string): Report -> bool
  {
    (r: Report) => r.id == id
  }

  /** `reports.findIndex(r => r.id === id)`: the first position holding `id`, or -1. */
  function ReportIndex(rs: seq<Report>, id: string): (i: int)
    ensures -1 <= i < |rs|
    ensures i == -1 <==> forall j :: 0 <= j < |rs| ==> rs[j].id != id
    ensures 0 <= i ==> rs[i].id == id && forall j :: 0 <= j < i ==> rs[j].id != id
  {
    FirstIndex(rs, ReportWithId(id))
  }

  /** `reports.find(r => r.id === id)`: the report at the first position holding `id`. */
  function FindReport(rs: seq<Report>, id: string): (r: Option<Report>)
    ensures r.None? <==> forall j :: 0 <= j < |rs| ==> rs[j].id != id
    ensures r.Some? ==> 0 <= ReportIndex(rs, id) && r.value == rs[ReportIndex(rs, id)]
    ensures r.Some? ==> r.value.id == id
  {
    Find(rs, ReportWithId(id))
  }

  /**
   The collection update of `handleSaveReport`: an existing id is replaced at
   its first position, every other entry staying put; a new id is appended
   after an unchanged prefix.
   */
  function Upsert(rs: seq<Report>, r: Report): (out: seq<Report>)
    ensures ReportIndex(rs, r.id) >= 0 ==>
      && |out| == |rs|
      && out[ReportIndex(rs, r.id)] == r
      && forall j :: 0 <= j < |rs| && j != ReportIndex(rs, r.id) ==> out[j] == rs[j]
    ensures ReportIndex(rs, r.id) == -1 ==>
      |out| == |rs| + 1 && out[..|rs|] == rs && out[|rs|] == r
  {
    var i := ReportIndex(rs, r.id);
    if i > -1 then rs[i := r] else rs + [r]
  }

  /**
   `handleSaveReport`: store the report with a freshly computed
   `nextRevisionDate`, then return to the menu with nothing selected. When
   the scheduler throws, nothing after it runs and the state is untouched.
   */
  function Save(s: AppState, updated: Report): (res: Result<AppState>)
    ensures res.Ok? <==> FindNextRevision(updated).Ok?
    ensures res.Err? ==> res.error == FindNextRevision(updated).error
    ensures res.Ok? ==>
      && res.value.view == Menu
      && res.value.selectedId == None
      && res.value.reports == Upsert(s.reports, updated.(nextRevisionDate := FindNextRevision(updated).value))
  {
    match FindNextRevision(updated)
    case Err(e) => Err(e)
    case Ok(next) => Ok(AppState(Upsert(s.reports, updated.(nextRevisionDate := next)), Menu, None))
  }

  /** `handleCreateNew`. */
  function CreateNew(s: AppState): AppState
  {
    s.(view := ReportScreen, selectedId := None)
  }

  /** `handleSelectReport`. */
  function SelectReport(s: AppState, id: string): AppState
  {
    s.(view := ReportScreen, selectedId := Some(id))
  }

  /** `handleBackToMenu`. */
  function BackToMenu(s: AppState): AppState
  {
    s.(view := Menu, selectedId := None)
  }

  /** `selectedReport`: the first report whose id is the selected id; none when nothing is selected. */
  function SelectedReport(s: AppState): (r: Option<Report>)
    ensures r.Some? <==> s.selectedId.Some? && exists j :: 0 <= j < |s.reports| && s.reports[j].id == s.selectedId.value
    ensures r.Some? ==>
      var i := ReportIndex(s.reports, s.selectedId.value);
      0 <= i && r.value == s.reports[i] && r.value.id == s.selectedId.value
  {
    match s.selectedId
    case None => None
    case Some(id) => FindReport(s.reports, id)
  }

  /**
   After a successful save the saved report, carrying the scheduler's date,
   is what a later lookup of its id finds, and it sits either at the old
   position of its id or at the end.
   */
  lemma {:induction false} SaveThenFind(s: AppState, updated: Report)
    requires FindNextRevision(updated).Ok?
    ensures var saved := updated.(nextRevisionDate := FindNextRevision(updated).value);
      && FindReport(Save(s, updated).value.reports, updated.id) == Some(saved)
      && (ReportIndex(s.reports, updated.id) >= 0 ==>
            ReportIndex(Save(s, updated).value.reports, updated.id) == ReportIndex(s.reports, updated.id))
      && (ReportIndex(s.reports, updated.id) == -1 ==>
            ReportIndex(Save(s, updated).value.reports, updated.id) == |s.reports|)
  {
    var saved := updated.(nextRevisionDate := FindNextRevision(updated).value);
    UpsertFirstIndex(s.reports, saved);
  }

  /** In the upserted collection the report's id is first found where it was put. */
  lemma UpsertFirstIndex(rs: seq<Report>, r: Report)
    ensures ReportIndex(rs, r.id) >= 0 ==> ReportIndex(Upsert(rs, r), r.id) == ReportIndex(rs, r.id)
    ensures ReportIndex(rs, r.id) == -1 ==> ReportIndex(Upsert(rs, r), r.id) == |rs|
    ensures FindReport(Upsert(rs, r), r.id) == Some(r)
  {
    var out := Upsert(rs, r);
    var i := ReportIndex(rs, r.id);
    var k := if i >= 0 then i else |rs|;
    assert out[k] == r;
    assert forall j :: 0 <= j < k ==> out[j] == rs[j];
    FirstIndexAt(out, ReportWithId(r.id), k);
  }

  /** Upsert keeps ids unique, and the ids present afterwards are the old ones plus the report's. */
  lemma UpsertKeepsIdsUnique(rs: seq<Report>, r: Report)
    requires UniqueIds(rs)
    ensures UniqueIds(Upsert(rs, r))
    ensures (set x | x in Upsert(rs, r) :: x.id) == (set x | x in rs :: x.id) + {r.id}
  {
    var out := Upsert(rs, r);
    var i := ReportIndex(rs, r.id);
    if i >= 0 {
      forall x | x in rs ensures x.id in (set y | y in out :: y.id) {
        var j :| 0 <= j < |rs| && rs[j] == x;
        if j == i { assert out[i].id == x.id; } else { assert out[j] == x; }
      }
      assert r == out[i];
    } else {
      assert out == rs + [r];
    }
  }

  /** Saving the same report twice leaves the collection as saving it once. */
  lemma UpsertIdempotent(rs: seq<Report>, r: Report)
    ensures Upsert(Upsert(rs, r), r) == Upsert(rs, r)
  {
    UpsertFirstIndex(rs, r);
  }

  /**
   Opening the editor: creating opens the report screen with no selection,
   so the editor receives no report and starts a fresh one; selecting opens
   it with that id, and the editor receives the first report with that id,
   if any. Neither touches the collection.
   */
  lemma OpenTransitions(s: AppState, id: string)
    ensures CreateNew(s).view == ReportScreen && SelectedReport(CreateNew(s)) == None
    ensures SelectReport(s, id).view == ReportScreen
    ensures SelectedReport(SelectReport(s, id)) == FindReport(s.reports, id)
    ensures CreateNew(s).reports == SelectReport(s, id).reports == s.reports
  {
  }

  /** Going back shows the menu with nothing selected and the collection as it was. */
  lemma BackToMenuClears(s: AppState)
    ensures BackToMenu(s).view == Menu && BackToMenu(s).selectedId == None
    ensures SelectedReport(BackToMenu(s)) == None
    ensures BackToMenu(s).reports == s.reports
  {
  }

  /**
   The editor's debounced auto-save calls `handleSaveReport`, and a
   successful save always switches to the menu: a save fired while the
   report screen is open closes it, whatever was selected.
   */
  lemma AutoSaveClosesEditor(s: AppState, updated: Report)
    requires s.view == ReportScreen && FindNextRevision(updated).Ok?
    ensures Save(s, updated).value.view == Menu != s.view
    ensures SelectedReport(Save(s, updated).value) == None
  {
  }

  /**
   A save that keeps the editor open: the collection is updated exactly as
   by `handleSaveReport`, the view and the selection stay as they were, and
   a lookup of the id finds the saved report with its fresh date.
   */
  function AutoSave(s: AppState, updated: Report): (res: Result<AppState>)
    ensures res.Ok? <==> FindNextRevision(updated).Ok?
    ensures res.Ok? ==>
      && res.value.view == s.view
      && res.value.selectedId == s.selectedId
      && res.value.reports == Save(s, updated).value.reports
      && FindReport(res.value.reports, updated.id)
         == Some(updated.(nextRevisionDate := FindNextRevision(updated).value))
  {
    match FindNextRevision(updated)
    case Err(e) => Err(e)
    case Ok(next) =>
      var saved := updated.(nextRevisionDate := next);
      UpsertFirstIndex(s.reports, saved);
      Ok(s.(reports := Upsert(s.reports, saved)))
  }
}
