/**
 The revision scheduler of App.tsx (`getRevisionDate` and `findNextRevision`).

 Each of D3, D6 and D8 whose first occurrence in the report is not completed
 contributes a candidate date `createdAt` + 1, 7 or 30 days; the report's next
 revision date is the earliest candidate, or none when there is no candidate.
 */
module Scheduler {
  import opened Types

  /**
   `d && !d.completed` for `d = disciplines.find(d => d.id === id)`: the
   first discipline with that id exists and is not completed.
   */
  predicate Pending(ds: seq<Discipline>, id: string)
  {
    match FindDiscipline(ds, id)
    case None => false
    case Some(d) => !d.completed
  }

  /** True when none of D3, D6 and D8 is pending. */
  predicate NothingPending(ds: seq<Discipline>)
  {
    !Pending(ds, "D3") && !Pending(ds, "D6") && !Pending(ds, "D8")
  }

  /** The day offsets pushed onto `potentialDates`, in push order. */
  function PendingOffsets(ds: seq<Discipline>): seq<int>
  {
    (if Pending(ds, "D3") then [1] else [])
    + (if Pending(ds, "D6") then [7] else [])
    + (if Pending(ds, "D8") then [30] else [])
  }

  /** `getRevisionDate(createdAt, days)` for every pending offset. */
  function CandidateDates(created: Day, offsets: seq<int>): (dates: seq<Day>)
    ensures |dates| == |offsets|
    ensures forall i :: 0 <= i < |offsets| ==> dates[i] == AddDays(created, offsets[i])
  {
    seq(|offsets|, i requires 0 <= i < |offsets| => AddDays(created, offsets[i]))
  }

  /** `Math.min(...)` over a non-empty list of dates: a member no larger than any other. */
  function Earliest(s: seq<Day>): (m: Day)
    requires |s| > 0
    ensures m in s
    ensures forall i :: 0 <= i < |s| ==> m <= s[i]
  {
    if |s| == 1 then s[0]
    else
      var rest := Earliest(s[1..]);
      if s[0] <= rest then s[0] else rest
  }

  /**
   `findNextRevision`. With no candidate it returns none before touching
   `createdAt`. Otherwise the candidates are dates derived from `createdAt`;
   for the empty string they are invalid dates, and formatting their minimum
   with `toISOString` throws, which is `Err(InvalidTimeValue)` here.

   The contract: none exactly when nothing is pending; failure exactly when
   something is pending and `createdAt` is blank; otherwise the result is the
   candidate of some pending discipline and no later than any pending one.
   */
  function FindNextRevision(r: Report): (res: Result<Option<Day>>)
    ensures res == Ok(None) <==> NothingPending(r.disciplines)
    ensures res.Err? <==> r.createdAt.Blank? && !NothingPending(r.disciplines)
    ensures res.Ok? && res.value.Some? ==>
      var ds, v := r.disciplines, res.value.value;
      && r.createdAt.At?
      && ((Pending(ds, "D3") && v == AddDays(r.createdAt.day, 1))
          || (Pending(ds, "D6") && v == AddDays(r.createdAt.day, 7))
          || (Pending(ds, "D8") && v == AddDays(r.createdAt.day, 30)))
      && (Pending(ds, "D3") ==> v <= AddDays(r.createdAt.day, 1))
      && (Pending(ds, "D6") ==> v <= AddDays(r.createdAt.day, 7))
      && (Pending(ds, "D8") ==> v <= AddDays(r.createdAt.day, 30))
  {
    var offsets := PendingOffsets(r.disciplines);
    if |offsets| == 0 then Ok(None)
    else
      match r.createdAt
      case Blank => Err(InvalidTimeValue)
      case At(created) =>
        var dates := CandidateDates(created, offsets);
        var v := Earliest(dates);
        assert forall i :: 0 <= i < |dates| ==> v <= dates[i];
        Ok(Some(v))
  }

  /**
   The decision table that follows from the minimum rule: a pending D3 gives
   `createdAt` + 1 whatever D6 and D8 are; otherwise a pending D6 gives + 7;
   otherwise a pending D8 gives + 30; otherwise there is no date.
   */
  lemma RevisionTable(r: Report, created: Day)
    requires r.createdAt == At(created)
    ensures Pending(r.disciplines, "D3") ==> FindNextRevision(r) == Ok(Some(created + 1))
    ensures !Pending(r.disciplines, "D3") && Pending(r.disciplines, "D6") ==>
              FindNextRevision(r) == Ok(Some(created + 7))
    ensures !Pending(r.disciplines, "D3") && !Pending(r.disciplines, "D6") && Pending(r.disciplines, "D8") ==>
              FindNextRevision(r) == Ok(Some(created + 30))
    ensures NothingPending(r.disciplines) ==> FindNextRevision(r) == Ok(None)
  {
  }

  /**
   The scheduler reads nothing but `createdAt` and the completion state of
   the first D3, D6 and D8: title, content, samples, evidences, other
   disciplines and the stored `nextRevisionDate` have no effect. In
   particular recomputing over a report that already carries its date gives
   the same date again.
   */
  lemma SchedulerReadsOnlyTrackedFlags(a: Report, b: Report)
    requires a.createdAt == b.createdAt
    requires Pending(a.disciplines, "D3") == Pending(b.disciplines, "D3")
    requires Pending(a.disciplines, "D6") == Pending(b.disciplines, "D6")
    requires Pending(a.disciplines, "D8") == Pending(b.disciplines, "D8")
    ensures FindNextRevision(a) == FindNextRevision(b)
  {
  }
}
