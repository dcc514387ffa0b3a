/**
 The per-discipline due date shown by components/DisciplineCard.tsx: D3, D6
 and D8 fall due 1, 7 and 30 days after the report was created, unless the
 report has no creation time; a due date before now on an open discipline is
 past due.
 */
module DisciplineCard {
  import opened Types
  import opened Scheduler

  /** The ids that carry a due date. */
  predicate Tracked(id: string)
  {
    id == "D3" || id == "D6" || id == "D8"
  }

  /** The card's `getRevisionDate(days)`: no date when `createdAt` is the empty string. */
  function DateAfter(createdAt: Timestamp, days: int): Option<Day>
  {
    match createdAt
    case Blank => None
    case At(created) => Some(AddDays(created, days))
  }

  /**
   `revisionDate`: three successive assignments, the D3, D6 and D8 offsets.
   A date exists exactly for a tracked id on a report with a creation time.
   */
  function RevisionDate(d: Discipline, createdAt: Timestamp): (r: Option<Day>)
    ensures r.Some? <==> createdAt.At? && Tracked(d.id)
    ensures createdAt.At? && d.id == "D3" ==> r == Some(AddDays(createdAt.day, 1))
    ensures createdAt.At? && d.id == "D6" ==> r == Some(AddDays(createdAt.day, 7))
    ensures createdAt.At? && d.id == "D8" ==> r == Some(AddDays(createdAt.day, 30))
  {
    var afterD3 := if d.id == "D3" then DateAfter(createdAt, 1) else None;
    var afterD6 := if d.id == "D6" then DateAfter(createdAt, 7) else afterD3;
    if d.id == "D8" then DateAfter(createdAt, 30) else afterD6
  }

  /** `isPastDue`: there is a due date, it lies before `now`, and the discipline is open. */
  function IsPastDue(d: Discipline, createdAt: Timestamp, now: Day): (pastDue: bool)
    ensures pastDue <==> !d.completed && createdAt.At? && Tracked(d.id) && RevisionDate(d, createdAt).value < now
  {
    match RevisionDate(d, createdAt)
    case None => false
    case Some(due) => due < now && !d.completed
  }

  /** The card's `formatDate`; `localeDate` stands for `toLocaleDateString`. */
  function FormatDate(date: Option<Day>, localeDate: Day -> string): (text: string)
  {
    match date
    case None => ""
    case Some(day) => localeDate(day)
  }

  /** The "Revision Due" line: rendered only when the card has a due date. */
  function DueLine(d: Discipline, createdAt: Timestamp, localeDate: Day -> string): (line: Option<string>)
    ensures line.Some? <==> createdAt.At? && Tracked(d.id)
    ensures line.Some? ==> line.value == localeDate(RevisionDate(d, createdAt).value)
  {
    var date := RevisionDate(d, createdAt);
    if date.Some? then Some(FormatDate(date, localeDate)) else None
  }

  /** A missing date formats as the empty string; a completed or undated card is never past due. */
  lemma CardWithoutDate(d: Discipline, createdAt: Timestamp, now: Day, localeDate: Day -> string)
    ensures FormatDate(None, localeDate) == ""
    ensures d.completed ==> !IsPastDue(d, createdAt, now)
    ensures createdAt.Blank? ==> RevisionDate(d, createdAt) == None && !IsPastDue(d, createdAt, now)
    ensures !Tracked(d.id) ==> RevisionDate(d, createdAt) == None && DueLine(d, createdAt, localeDate) == None
  {
  }

  /** The earlier of two optional dates; a missing date never wins. */
  function EarlierOf(a: Option<Day>, b: Option<Day>): (r: Option<Day>)
    ensures r.None? <==> a.None? && b.None?
    ensures r.Some? ==> r == a || r == b
    ensures a.Some? ==> r.Some? && r.value <= a.value
    ensures b.Some? ==> r.Some? && r.value <= b.value
  {
    match (a, b)
    case (None, _) => b
    case (_, None) => a
    case (Some(x), Some(y)) => if x <= y then a else b
  }

  /**
   The earliest due date shown on any open card of the report: it is the
   date of some open card and no later than any open card's date.
   */
  function EarliestOpenCard(ds: seq<Discipline>, createdAt: Timestamp): (r: Option<Day>)
    ensures r.Some? ==> exists i :: 0 <= i < |ds| && !ds[i].completed && RevisionDate(ds[i], createdAt) == r
    ensures forall i :: 0 <= i < |ds| && !ds[i].completed && RevisionDate(ds[i], createdAt).Some? ==>
              r.Some? && r.value <= RevisionDate(ds[i], createdAt).value
  {
    if |ds| == 0 then None
    else
      var here := if ds[0].completed then None else RevisionDate(ds[0], createdAt);
      var rest := EarliestOpenCard(ds[1..], createdAt);
      var r := EarlierOf(here, rest);
      assert forall i :: 1 <= i < |ds| ==> ds[i] == ds[1..][i - 1];
      r
  }

  /**
   For a pending D3, D6 or D8 the card's date is the candidate App.tsx pushes
   for it: `createdAt` + 1, 7 or 30.
   */
  lemma {:induction false} CardDateIsCandidate(r: Report, created: Day)
    requires r.createdAt == At(created)
    ensures Pending(r.disciplines, "D3") ==>
      RevisionDate(FindDiscipline(r.disciplines, "D3").value, r.createdAt) == Some(AddDays(created, 1))
    ensures Pending(r.disciplines, "D6") ==>
      RevisionDate(FindDiscipline(r.disciplines, "D6").value, r.createdAt) == Some(AddDays(created, 7))
    ensures Pending(r.disciplines, "D8") ==>
      RevisionDate(FindDiscipline(r.disciplines, "D8").value, r.createdAt) == Some(AddDays(created, 30))
  {
  }

  /** With distinct ids, the one discipline carrying `id` is open exactly when `id` is pending. */
  lemma PendingAt(ds: seq<Discipline>, i: nat)
    requires DistinctIds(ds) && i < |ds|
    ensures Pending(ds, ds[i].id) <==> !ds[i].completed
  {
    var k := DisciplineIndex(ds, ds[i].id);
    assert k == i;
  }

  /** A pending tracked discipline bounds the earliest open card's date by its own date. */
  lemma PendingBoundsEarliest(ds: seq<Discipline>, createdAt: Timestamp, id: string)
    requires Tracked(id) && Pending(ds, id) && createdAt.At?
    ensures EarliestOpenCard(ds, createdAt).Some?
    ensures EarliestOpenCard(ds, createdAt).value <= RevisionDate(FindDiscipline(ds, id).value, createdAt).value
  {
    var k := DisciplineIndex(ds, id);
    assert ds[k] == FindDiscipline(ds, id).value;
    assert !ds[k].completed && RevisionDate(ds[k], createdAt).Some?;
  }

  /** With distinct ids, the earliest open card is a pending candidate, so the scheduler's date is no later. */
  lemma EarliestCardIsPending(r: Report)
    requires DistinctIds(r.disciplines) && r.createdAt.At?
    requires EarliestOpenCard(r.disciplines, r.createdAt).Some?
    ensures FindNextRevision(r).Ok? && FindNextRevision(r).value.Some?
    ensures FindNextRevision(r).value.value <= EarliestOpenCard(r.disciplines, r.createdAt).value
  {
    var ds, c := r.disciplines, r.createdAt;
    var card := EarliestOpenCard(ds, c);
    var i :| 0 <= i < |ds| && !ds[i].completed && RevisionDate(ds[i], c) == card;
    PendingAt(ds, i);
    assert Pending(ds, ds[i].id) && Tracked(ds[i].id);
  }

  /**
   When every discipline id occurs once, the `nextRevisionDate` the scheduler
   stores is the earliest due date shown on an open card.
   */
  lemma SchedulerAgreesWithCards(r: Report)
    requires DistinctIds(r.disciplines) && r.createdAt.At?
    ensures FindNextRevision(r) == Ok(EarliestOpenCard(r.disciplines, r.createdAt))
  {
    var ds, c := r.disciplines, r.createdAt;
    if Pending(ds, "D3") { PendingBoundsEarliest(ds, c, "D3"); }
    if Pending(ds, "D6") { PendingBoundsEarliest(ds, c, "D6"); }
    if Pending(ds, "D8") { PendingBoundsEarliest(ds, c, "D8"); }
    if EarliestOpenCard(ds, c).Some? {
      EarliestCardIsPending(r);
    }
  }
}
