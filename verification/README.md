# 8D report logic in Dafny

A model of the report logic of a single-page application for writing "8D"
problem-solving reports. A report has nine fixed sections, called
disciplines (D0..D8). Each discipline has free-text content and a "done"
checkbox. A report also carries OK/NOK sample images, a list of evidence
files and a derived "next revision" date.

The model covers five parts of that logic:

- **The revision scheduler** (`Scheduler`). D3, D6 and D8 fall due 1, 7 and 30 days after the report was created. A report's next revision date is the earliest due date among those still open, or none.
- **The collection and navigation state** (`App`). Saving replaces a report in place or appends it. The view is either the menu or the report editor, together with the selected report id.
- **The per-card due date and past-due flag** (`DisciplineCard`).
- **The draft-editing handlers** (`ReportView`). These build a new draft, edit one discipline, and manage evidence slots, the title and the samples.
- **The listing order** (`MainMenu`). Dated reports come first in ascending date order, undated ones last, in a stable sort. The module also covers the "Completed" label and the overdue flag.

The shared record shapes are in `Types`; the nine-entry discipline catalogue
every new report copies is in `Constants`.

Time is an abstract whole-day count: adding `n` days is `t + n`. A report's
`createdAt` is either `Blank` (the empty string) or `At(day)`. Calls the
logic makes into code outside the model are parameters: `now` for
`new Date()`, `freshId` for `crypto.randomUUID()`, and `localeDate` for
`toLocaleDateString`.

## Model

| member | source | states |
|---|---|---|
| Types.FirstIndex | App.tsx:56 | the index is -1 exactly when no element satisfies the test; otherwise the element there satisfies it and none before it does |
| Types.Find | App.tsx:74 | the lookup finds nothing exactly when no element satisfies the test; otherwise it returns the element at the first position that does |
| Types.FindDiscipline | App.tsx:34-42 | the lookup finds nothing exactly when no discipline has the id; otherwise it returns the discipline at the first position carrying that id, so a later duplicate is never returned |
| Constants.InitialDisciplines | constants.ts:4-68 | the template has nine entries carrying ids D0..D8 with their fixed titles and descriptions in order; every entry has empty content and is not completed |
| Constants.CatalogueIdsTracked | constants.ts:6-62 | in any list carrying the catalogue ids, no id occurs twice, and the first D3, D6 and D8 are at positions 3, 6 and 8 |
| Scheduler.Earliest | App.tsx:49 | the minimum of a non-empty candidate list is one of the candidates and no later than any of them |
| Scheduler.FindNextRevision | App.tsx:23-51 | the result is none exactly when none of the first D3, D6 and D8 is open; it fails exactly when one is open and `createdAt` is blank; otherwise it is the candidate of some open tracked discipline and no later than the candidate of any open one |
| Scheduler.RevisionTable | App.tsx:34-49 | given a creation day, an open D3 yields +1 whatever D6 and D8 are; otherwise an open D6 yields +7; otherwise an open D8 yields +30; with none open there is no date |
| Scheduler.SchedulerReadsOnlyTrackedFlags | App.tsx:31-51 | two reports with the same `createdAt` and the same open/done state of their first D3, D6 and D8 get the same result, whatever their other fields (title, samples, evidences, other disciplines, stored date) |
| App.Upsert | App.tsx:55-63 | a known id is replaced at its first position and the length and every other entry are unchanged; a new id is appended after an unchanged prefix, growing the collection by one |
| App.Save | App.tsx:29-67 | a save succeeds exactly when the scheduler does; on success the stored entry carries the scheduler's fresh date, and the view becomes the menu with no selection; on failure the state is left as it was |
| App.SaveThenFind | App.tsx:53-63 | after a save, looking up the id finds the saved report with its fresh date, at the id's old position or at the end |
| App.UpsertFirstIndex | App.tsx:56-62 | after an upsert the report's id is first found where the report was put, and a lookup returns that report |
| App.UpsertKeepsIdsUnique | App.tsx:55-63 | upsert keeps ids unique; the ids present afterwards are the old ids plus the saved report's id |
| App.UpsertIdempotent | App.tsx:55-63 | upserting the same report twice gives the same collection as upserting it once |
| App.FindReport | App.tsx:74 | the lookup finds nothing exactly when no report has the id; otherwise it returns the report at the first position carrying that id |
| App.SelectedReport | App.tsx:74 | the selected report exists exactly when an id is selected and some report has it; it is then the report at the first position carrying that id |
| App.OpenTransitions | App.tsx:13-21 | create-new opens the editor with no selected report; select opens it and hands over the first report with that id; the collection is untouched |
| App.BackToMenuClears | App.tsx:69-72 | going back shows the menu with nothing selected and leaves the collection untouched |
| App.AutoSaveClosesEditor | App.tsx:65-66 | a successful save made while the editor is open switches the view to the menu and clears the selection |
| App.AutoSave | App.tsx:53-63 | the corrected save keeps the view and the selection, updates the collection as `handleSaveReport` does, and a lookup of the id finds the saved report |
| DisciplineCard.RevisionDate | components/DisciplineCard.tsx:11-21 | a card has a due date exactly when its id is D3, D6 or D8 and the report has a creation time; the date is +1, +7 or +30 days respectively |
| DisciplineCard.IsPastDue | components/DisciplineCard.tsx:23 | a card is past due exactly when it is open, is D3, D6 or D8 on a report with a creation time, and its due date lies before now |
| DisciplineCard.DueLine | components/DisciplineCard.tsx:40-43 | the "Revision Due" line is shown exactly when the card has a due date, and it shows that date |
| DisciplineCard.CardWithoutDate | components/DisciplineCard.tsx:12-26 | a missing date formats as the empty string; a completed card is never past due; a blank `createdAt` or an untracked id gives no date and no due line |
| DisciplineCard.EarliestOpenCard | components/DisciplineCard.tsx:18-23 | the earliest due date over the open cards is the date of some open card and no later than any open card's date |
| DisciplineCard.CardDateIsCandidate | components/DisciplineCard.tsx:18-21 | for an open D3, D6 or D8 the card's date equals the candidate the scheduler pushes for it |
| DisciplineCard.EarliestCardIsPending | components/DisciplineCard.tsx:18-23 | with distinct ids, the earliest open card belongs to a pending D3, D6 or D8, so the scheduler gives a date no later than it |
| DisciplineCard.SchedulerAgreesWithCards | components/DisciplineCard.tsx:18-21 | when discipline ids are distinct and the report has a creation time, the stored next revision date is the earliest due date over the open cards |
| ReportView.OpenDraft | components/ReportView.tsx:15-27 | a supplied report is used unchanged; otherwise the draft has the fresh id, the creation day, an empty title, a copy of the template, no evidences, no samples and no next revision date |
| ReportView.FreshDraftSchedule | constants.ts:27-31 | a fresh draft has the catalogue shape, and because its D3 is open it is due the day after creation |
| ReportView.UpdateDiscipline | components/ReportView.tsx:56-60 | only the edited field of the discipline at the index changes; the length and the other entries stay; ticking "done" keeps the content |
| ReportView.UpdateKeepsTemplateShape | components/ReportView.tsx:56-60 | a discipline edit keeps the nine catalogue ids, titles and descriptions in place |
| ReportView.CompletingD3OnFreshDraft | App.tsx:34-49 | ticking D3 on a fresh draft moves the due date from creation +1 to creation +7 (D6 is then the earliest open) |
| ReportView.UploadEvidence | components/ReportView.tsx:62-66 | an uploaded file replaces only its slot; a removed file (none) leaves the evidences unchanged; the length and every other slot stay |
| ReportView.AddEvidence | components/ReportView.tsx:68-70 | one empty placeholder (empty name, MIME type and data URL) is appended after the unchanged existing slots |
| ReportView.WithoutPosition | components/ReportView.tsx:73 | filtering out a valid position shortens the list by one, keeps the earlier entries and shifts the later ones down by one in order; an invalid position changes nothing |
| ReportView.WithoutPositionSplit | components/ReportView.tsx:73 | the list is the filtered list with the dropped entry put back at its position, so the two differ by exactly that entry |
| ReportView.RemoveEvidence | components/ReportView.tsx:72-75 | removing a valid slot leaves one fewer slot: earlier slots stay in place, later slots move down one place in the same order, and exactly that file is dropped; an out-of-range index leaves the report unchanged |
| ReportView.SetTitle | components/ReportView.tsx:92 | the title becomes the typed text and no other field changes |
| ReportView.SetOkSample | components/ReportView.tsx:116 | the OK sample becomes the uploaded file, or is cleared when the upload is none; nothing else changes |
| ReportView.SetNokSample | components/ReportView.tsx:123 | the NOK sample becomes the uploaded file, or is cleared when the upload is none; nothing else changes |
| ReportView.NonDisciplineEditsKeepSchedule | App.tsx:31-51 | title and sample edits, and adding, uploading into or removing an evidence slot, leave the scheduler's result as it was |
| MainMenu.ComparatorLaws | components/MainMenu.tsx:41-44 | the comparator is antisymmetric and returns zero exactly for equal dates, including two undated reports; its "may precede" relation is total and transitive |
| MainMenu.SortReports | components/MainMenu.tsx:40-45 | the listing is a permutation of the collection in which every report may precede every later one |
| MainMenu.SortedByDate | components/MainMenu.tsx:41-44 | in any list ordered by the comparator, undated reports follow dated ones and dates do not decrease |
| MainMenu.ListingOrder | components/MainMenu.tsx:41-44 | in the listing every undated report comes after every dated one, and dated reports are in non-decreasing date order |
| MainMenu.InsertWithDate | components/MainMenu.tsx:40-45 | inserting a report places it ahead of every report with the same date and keeps the order of the others |
| MainMenu.ListingIsStable | components/MainMenu.tsx:40-45 | for every date, and for "no date", the reports carrying it keep their relative order from the collection |
| MainMenu.SavedReportStatus | components/MainMenu.tsx:13-19 | a report left undated because nothing is pending is labelled "Completed" and is never overdue; an overdue report has a date before now |

## Left out

- Persistence: `hooks/useLocalStorage.ts` is not part of this model. Loading, writing and a save/load round trip are not modelled, and no delete operation exists in the modelled code.
- The debounced auto-save in `components/ReportView.tsx:33-53` is not modelled. It runs on timers and effects. Its cleanup cancels the pending timeout instead of running it, so an edit made less than a second before leaving the editor is not saved.
- Date arithmetic: `new Date` parsing, `toISOString`/re-parsing of the stored date, local-time `setDate` across DST and month ends, and time of day all become whole days. Two reports due on the same day therefore compare equal in the listing, while the application compares them to the millisecond.
- A non-empty `createdAt` string that cannot be parsed is not modelled; only the empty string (`Blank`) is.
- Scheduler.FindNextRevision: when something is pending and `createdAt` cannot be parsed, `toISOString` on the invalid date throws (App.tsx:49-50); the model returns `Err(InvalidTimeValue)`, and only a blank `createdAt` is modelled.
- `handleDisciplineUpdate` writes into the discipline object it shares with the previous state, and `handleSaveReport` writes the date into the incoming report object. Both are modelled as functional updates.
- ReportView.UpdateDiscipline: only the two fields a discipline card sends (content and completed) are modelled, not every key of a discipline. The index must be in range, as it always is for the rendered cards.
- ReportView.UploadEvidence: the index must be a rendered slot. A write past the end of the array is not modelled.
- Rendering, styling, printing, the empty-list message, file reading (`components/FileUpload.tsx`), the text-generation assistant (`components/AIAssistButton.tsx`) and the service worker are not part of this model.
- The listing sorts a copy, so the collection itself is never reordered. Values are immutable in the model, so this holds by construction and needs no lemma.

## Findings

| source | as written | input that shows it | evidently intended | confidence | as-written member | corrected member |
|---|---|---|---|---|---|---|
| App.tsx:65-66 | every successful save switches the view to the menu and clears the selection, and the editor's debounced auto-save is the only caller of the save handler | open a report, type one character, wait one second: the auto-save fires `handleSaveReport` and the editor closes | the auto-save keeps the editor open; the editor shows a "Saving..." indicator while it saves (components/ReportView.tsx:98) | medium, not executed | App.AutoSaveClosesEditor | App.AutoSave |
