/**
 The draft-editing operations of components/ReportView.tsx. Each handler
 builds a new report value from the current draft; none of them touches
 `id` or `createdAt`, and each changes only its own field.
 */
module ReportView {
  import opened Types
  import opened Constants
  import opened Scheduler

  /** The state initialiser: the supplied report, or a fresh one from the template. */
  function OpenDraft(reportData: Option<Report>, freshId: string, now: Day): (draft: Report)
    ensures reportData.Some? ==> draft == reportData.value
    ensures reportData.None? ==>
      && draft.id == freshId
      && draft.createdAt == At(now)
      && draft.title == ""
      && draft.disciplines == InitialDisciplines()
      && draft.evidences == []
      && draft.okSample.None? && draft.nokSample.None?
      && draft.nextRevisionDate.None?
  {
    match reportData
    case Some(r) => r
    case None => Report(freshId, "", At(now), None, None, [], InitialDisciplines(), None)
  }

  /** A fresh draft has the template's shape and, with D3 open, is due the day after creation. */
  lemma FreshDraftSchedule(freshId: string, now: Day)
    ensures HasTemplateShape(OpenDraft(None, freshId, now).disciplines)
    ensures FindNextRevision(OpenDraft(None, freshId, now)) == Ok(Some(now + 1))
  {
    OpenD3Schedule(OpenDraft(None, freshId, now), now);
  }

  /** A report with the catalogue ids, created on day `now`, with D3 open is due on day `now` + 1. */
  lemma OpenD3Schedule(r: Report, now: Day)
    requires HasCatalogueIds(r.disciplines) && r.createdAt == At(now)
    requires !r.disciplines[3].completed
    ensures FindNextRevision(r) == Ok(Some(now + 1))
  {
    CatalogueIdsTracked(r.disciplines);
    assert Pending(r.disciplines, "D3");
    RevisionTable(r, now);
  }

  /** The two edits a discipline card sends: its text or its checkbox. */
  datatype DisciplineEdit = SetContent(text: string) | SetCompleted(done: bool)

  /** One discipline with one field changed. */
  function ApplyEdit(d: Discipline, edit: DisciplineEdit): Discipline
  {
    match edit
    case SetContent(text) => d.(content := text)
    case SetCompleted(done) => d.(completed := done)
  }

  /**
   `handleDisciplineUpdate(index, field, value)`: only the edited field of
   the discipline at `index` changes; the other entries, the other fields of
   that entry and the rest of the report stay as they were.
   */
  function UpdateDiscipline(r: Report, index: nat, edit: DisciplineEdit): (r': Report)
    requires index < |r.disciplines|
    ensures r' == r.(disciplines := r'.disciplines)
    ensures |r'.disciplines| == |r.disciplines|
    ensures forall j :: 0 <= j < |r.disciplines| && j != index ==> r'.disciplines[j] == r.disciplines[j]
    ensures var before, after := r.disciplines[index], r'.disciplines[index];
      && after.id == before.id && after.title == before.title && after.description == before.description
      && (edit.SetContent? ==> after.content == edit.text && after.completed == before.completed)
      && (edit.SetCompleted? ==> after.completed == edit.done && after.content == before.content)
  {
    r.(disciplines := r.disciplines[index := ApplyEdit(r.disciplines[index], edit)])
  }

  /** Discipline edits never change the catalogue shape of the list. */
  lemma UpdateKeepsTemplateShape(r: Report, index: nat, edit: DisciplineEdit)
    requires index < |r.disciplines| && HasTemplateShape(r.disciplines)
    ensures HasTemplateShape(UpdateDiscipline(r, index, edit).disciplines)
  {
    var after := UpdateDiscipline(r, index, edit).disciplines;
    assert forall n :: 0 <= n < 9 ==> after[n].id == r.disciplines[n].id;
  }

  /**
   Worked example of the schedule: on a fresh draft, ticking D3 (position 3)
   moves the due date from `createdAt` + 1 to `createdAt` + 7, because D6
   is the earliest discipline still open.
   */
  lemma CompletingD3OnFreshDraft(freshId: string, now: Day)
    ensures FindNextRevision(UpdateDiscipline(OpenDraft(None, freshId, now), 3, SetCompleted(true)))
            == Ok(Some(now + 7))
  {
    var draft := OpenDraft(None, freshId, now);
    UpdateKeepsTemplateShape(draft, 3, SetCompleted(true));
    ClosedD3Schedule(UpdateDiscipline(draft, 3, SetCompleted(true)), now);
  }

  /** A report with the catalogue ids, created on day `now`, with D3 done and D6 open is due on day `now` + 7. */
  lemma ClosedD3Schedule(r: Report, now: Day)
    requires HasCatalogueIds(r.disciplines) && r.createdAt == At(now)
    requires r.disciplines[3].completed && !r.disciplines[6].completed
    ensures FindNextRevision(r) == Ok(Some(now + 7))
  {
    CatalogueIdsTracked(r.disciplines);
    assert !Pending(r.disciplines, "D3") && Pending(r.disciplines, "D6");
    RevisionTable(r, now);
  }

  /**
   The evidence slot upload: `file && handleFileUpload(file, index)`. A
   removed file (none) leaves the evidences alone; a file replaces slot
   `index` and nothing else.
   */
  function UploadEvidence(r: Report, index: nat, file: Option<FileAttachment>): (r': Report)
    requires index < |r.evidences|
    ensures r' == r.(evidences := r'.evidences)
    ensures |r'.evidences| == |r.evidences|
    ensures forall j :: 0 <= j < |r.evidences| && j != index ==> r'.evidences[j] == r.evidences[j]
    ensures r'.evidences[index] == (if file.Some? then file.value else r.evidences[index])
  {
    match file
    case None => r
    case Some(f) => r.(evidences := r.evidences[index := f])
  }

  /** The placeholder `handleAddEvidence` appends. */
  const EmptySlot := FileAttachment("", "", "")

  /** `handleAddEvidence`: one more slot, the empty placeholder, after the existing ones. */
  function AddEvidence(r: Report): (r': Report)
    ensures r' == r.(evidences := r'.evidences)
    ensures |r'.evidences| == |r.evidences| + 1
    ensures r'.evidences[..|r.evidences|] == r.evidences
    ensures r'.evidences[|r.evidences|] == EmptySlot
  {
    r.(evidences := r.evidences + [EmptySlot])
  }

  /** `s.filter((_, i) => i !== index)`, walking the positions of `s`. */
  function WithoutPosition<T>(s: seq<T>, index: int): (out: seq<T>)
    ensures 0 <= index < |s| ==>
      && |out| == |s| - 1
      && (forall j :: 0 <= j < index ==> out[j] == s[j])
      && (forall j :: index <= j < |out| ==> out[j] == s[j + 1])
    ensures !(0 <= index < |s|) ==> out == s
  {
    if |s| == 0 then []
    else
      var last := |s| - 1;
      WithoutPosition(s[..last], index) + (if last == index then [] else [s[last]])
  }

  /**
   Filtering out a valid position splits the list around the dropped entry:
   the list is the result's first `index` entries, the dropped entry, and the
   rest of the result; so the two differ by exactly that entry.
   */
  lemma {:induction false} WithoutPositionSplit<T>(s: seq<T>, index: int)
    requires 0 <= index < |s|
    ensures s == WithoutPosition(s, index)[..index] + [s[index]] + WithoutPosition(s, index)[index..]
    ensures multiset(WithoutPosition(s, index)) + multiset{s[index]} == multiset(s)
  {
    var out := WithoutPosition(s, index);
    assert out[..index] == s[..index];
    assert out[index..] == s[index + 1..];
    assert s == s[..index] + [s[index]] + s[index + 1..];
    assert out == out[..index] + out[index..];
  }

  /**
   `handleRemoveEvidence(index)`: a valid index drops that slot, the later
   slots moving down one place in the same order; any other index changes
   nothing.
   */
  function RemoveEvidence(r: Report, index: int): (r': Report)
    ensures r' == r.(evidences := r'.evidences)
    ensures 0 <= index < |r.evidences| ==>
      && |r'.evidences| == |r.evidences| - 1
      && (forall j :: 0 <= j < index ==> r'.evidences[j] == r.evidences[j])
      && (forall j :: index <= j < |r'.evidences| ==> r'.evidences[j] == r.evidences[j + 1])
      && multiset(r'.evidences) + multiset{r.evidences[index]} == multiset(r.evidences)
    ensures !(0 <= index < |r.evidences|) ==> r' == r
  {
    if 0 <= index < |r.evidences| then
      WithoutPositionSplit(r.evidences, index);
      r.(evidences := WithoutPosition(r.evidences, index))
    else
      r.(evidences := WithoutPosition(r.evidences, index))
  }

  /** The title input's change handler. */
  function SetTitle(r: Report, title: string): (r': Report)
    ensures r'.title == title
    ensures r' == r.(title := r'.title)
  {
    r.(title := title)
  }

  /** The OK sample upload: a file sets the sample, none (`file || undefined`) clears it. */
  function SetOkSample(r: Report, file: Option<FileAttachment>): (r': Report)
    ensures r'.okSample == file
    ensures r' == r.(okSample := r'.okSample)
  {
    r.(okSample := file)
  }

  /** The NOK sample upload: a file sets the sample, none clears it. */
  function SetNokSample(r: Report, file: Option<FileAttachment>): (r': Report)
    ensures r'.nokSample == file
    ensures r' == r.(nokSample := r'.nokSample)
  {
    r.(nokSample := file)
  }

  /**
   Edits other than discipline edits leave the schedule as it was: the
   scheduler depends on the disciplines and `createdAt` alone.
   */
  lemma NonDisciplineEditsKeepSchedule(r: Report, title: string, file: Option<FileAttachment>, index: int)
    ensures FindNextRevision(SetTitle(r, title)) == FindNextRevision(r)
    ensures FindNextRevision(SetOkSample(r, file)) == FindNextRevision(r)
    ensures FindNextRevision(SetNokSample(r, file)) == FindNextRevision(r)
    ensures FindNextRevision(AddEvidence(r)) == FindNextRevision(r)
    ensures FindNextRevision(RemoveEvidence(r, index)) == FindNextRevision(r)
    ensures 0 <= index < |r.evidences| ==> FindNextRevision(UploadEvidence(r, index, file)) == FindNextRevision(r)
  {
    SchedulerReadsOnlyTrackedFlags(SetTitle(r, title), r);
    SchedulerReadsOnlyTrackedFlags(SetOkSample(r, file), r);
    SchedulerReadsOnlyTrackedFlags(SetNokSample(r, file), r);
    SchedulerReadsOnlyTrackedFlags(AddEvidence(r), r);
    SchedulerReadsOnlyTrackedFlags(RemoveEvidence(r, index), r);
    if 0 <= index < |r.evidences| {
      SchedulerReadsOnlyTrackedFlags(UploadEvidence(r, index, file), r);
    }
  }
}
