/**
 The report listing of components/MainMenu.tsx: the order the reports are
 shown in, and each card's next-revision label and overdue flag.

 The listing sorts a copy of the collection with a comparator that puts
 reports without a `nextRevisionDate` last and dated ones in ascending date
 order. `Array.prototype.sort` is stable, so the listing is the stable sort
 of the collection under that comparator; `SortReports` computes it by
 insertion.
 */
module MainMenu {
  import opened Types
  import opened Scheduler

  /** The comparator: negative puts `a` first, positive puts `b` first, zero keeps their order. */
  function Compare(a: Report, b: Report): int
  {
    match (a.nextRevisionDate, b.nextRevisionDate)
    case (None, None) => 0
    case (None, Some(_)) => 1
    case (Some(_), None) => -1
    case (Some(x), Some(y)) => x - y
  }

  /** `a` may be listed before `b`. */
  predicate Precedes(a: Report, b: Report)
  {
    Compare(a, b) <= 0
  }

  /**
   The comparator is consistent: antisymmetric, zero exactly on equal dates
   (in particular on two undated reports), and its "may precede" relation is
   total and transitive.
   */
  lemma ComparatorLaws(a: Report, b: Report, c: Report)
    ensures Compare(a, b) == -Compare(b, a)
    ensures Compare(a, b) == 0 <==> a.nextRevisionDate == b.nextRevisionDate
    ensures Precedes(a, b) || Precedes(b, a)
    ensures Precedes(a, b) && Precedes(b, c) ==> Precedes(a, c)
  {
  }

  /** Every report may precede every later one. */
  predicate Sorted(s: seq<Report>)
  {
    forall i, j :: 0 <= i < j < |s| ==> Precedes(s[i], s[j])
  }

  /** A report that may precede the head of a sorted list may precede all of it. */
  lemma PrecedesSorted(x: Report, s: seq<Report>)
    requires Sorted(s) && |s| > 0 && Precedes(x, s[0])
    ensures forall j :: 0 <= j < |s| ==> Precedes(x, s[j])
  {
    forall j | 0 < j < |s| ensures Precedes(x, s[j]) {
      assert Precedes(s[0], s[j]);
    }
  }

  /** A report that may precede every member of a sorted list heads a sorted list. */
  lemma SortedCons(h: Report, t: seq<Report>)
    requires Sorted(t)
    requires forall k :: 0 <= k < |t| ==> Precedes(h, t[k])
    ensures Sorted([h] + t)
  {
    var out := [h] + t;
    forall i, j | 0 <= i < j < |out| ensures Precedes(out[i], out[j]) {
      assert out[j] == t[j - 1];
      if i > 0 { assert out[i] == t[i - 1]; }
    }
  }

  /** The head of a sorted list may precede every member of a permutation of its tail plus `x`, if it precedes `x`. */
  lemma HeadPrecedesRest(x: Report, s: seq<Report>, rest: seq<Report>)
    requires Sorted(s) && |s| > 0 && Precedes(s[0], x)
    requires multiset(rest) == multiset(s[1..]) + multiset{x}
    ensures forall k :: 0 <= k < |rest| ==> Precedes(s[0], rest[k])
  {
    forall k | 0 <= k < |rest| ensures Precedes(s[0], rest[k]) {
      assert rest[k] in multiset(rest);
      if rest[k] != x {
        assert rest[k] in multiset(s[1..]);
        var m :| 0 <= m < |s[1..]| && s[1..][m] == rest[k];
        assert s[m + 1] == rest[k];
      }
    }
  }

  /** Insert `x` into a sorted list, before the first report it may precede. */
  function Insert(x: Report, s: seq<Report>): (out: seq<Report>)
    requires Sorted(s)
    ensures multiset(out) == multiset(s) + multiset{x}
    ensures Sorted(out)
  {
    if |s| == 0 then [x]
    else if Precedes(x, s[0]) then
      PrecedesSorted(x, s);
      SortedCons(x, s);
      [x] + s
    else
      var rest := Insert(x, s[1..]);
      assert s == [s[0]] + s[1..];
      ComparatorLaws(x, s[0], s[0]);
      HeadPrecedesRest(x, s, rest);
      SortedCons(s[0], rest);
      [s[0]] + rest
  }

  /** The listing: a sorted permutation of the collection. */
  function SortReports(s: seq<Report>): (out: seq<Report>)
    ensures multiset(out) == multiset(s)
    ensures Sorted(out)
  {
    if |s| == 0 then []
    else
      assert s == [s[0]] + s[1..];
      Insert(s[0], SortReports(s[1..]))
  }

  /** In a sorted list undated reports follow dated ones, and dates do not decrease. */
  lemma SortedByDate(out: seq<Report>)
    requires Sorted(out)
    ensures forall i, j ::
        (0 <= i < |out| && 0 <= j < |out| && out[i].nextRevisionDate.None? && out[j].nextRevisionDate.Some?)
        ==> j < i
    ensures forall i, j ::
        (0 <= i < j < |out| && out[i].nextRevisionDate.Some? && out[j].nextRevisionDate.Some?)
        ==> out[i].nextRevisionDate.value <= out[j].nextRevisionDate.value
  {
    forall i, j | 0 <= i < |out| && 0 <= j < |out|
      && out[i].nextRevisionDate.None? && out[j].nextRevisionDate.Some?
      ensures j < i
    {
      assert !Precedes(out[i], out[j]);
    }
  }

  /**
   In the listing every undated report comes after every dated one, and the
   dated ones appear in non-decreasing date order.
   */
  lemma ListingOrder(s: seq<Report>)
    ensures var out := SortReports(s);
      forall i, j ::
        (0 <= i < |out| && 0 <= j < |out| && out[i].nextRevisionDate.None? && out[j].nextRevisionDate.Some?)
        ==> j < i
    ensures var out := SortReports(s);
      forall i, j ::
        (0 <= i < j < |out| && out[i].nextRevisionDate.Some? && out[j].nextRevisionDate.Some?)
        ==> out[i].nextRevisionDate.value <= out[j].nextRevisionDate.value
  {
    SortedByDate(SortReports(s));
  }

  /** The reports of `s` whose `nextRevisionDate` is `date`, in their order in `s`. */
  function WithDate(s: seq<Report>, date: Option<Day>): seq<Report>
  {
    if |s| == 0 then []
    else (if s[0].nextRevisionDate == date then [s[0]] else []) + WithDate(s[1..], date)
  }

  /** Inserting `x` puts it ahead of every report with the same date. */
  lemma {:induction false} InsertWithDate(x: Report, s: seq<Report>, date: Option<Day>)
    requires Sorted(s)
    ensures WithDate(Insert(x, s), date)
            == (if x.nextRevisionDate == date then [x] else []) + WithDate(s, date)
  {
    var xs := if x.nextRevisionDate == date then [x] else [];
    if |s| == 0 {
      assert WithDate([x], date) == xs + WithDate([x][1..], date);
    } else if Precedes(x, s[0]) {
      var out := [x] + s;
      assert out[0] == x && out[1..] == s;
      assert WithDate(out, date) == xs + WithDate(s, date);
    } else {
      var rest := Insert(x, s[1..]);
      var out := [s[0]] + rest;
      assert out[0] == s[0] && out[1..] == rest;
      var heads := if s[0].nextRevisionDate == date then [s[0]] else [];
      assert WithDate(out, date) == heads + WithDate(rest, date);
      InsertWithDate(x, s[1..], date);
      assert WithDate(s, date) == heads + WithDate(s[1..], date);
      assert xs == [] || heads == [];
    }
  }

  /**
   The sort is stable: for every date, and in particular for "no date", the
   reports carrying it keep their relative order from the collection.
   */
  lemma {:induction false} ListingIsStable(s: seq<Report>, date: Option<Day>)
    ensures WithDate(SortReports(s), date) == WithDate(s, date)
  {
    if |s| > 0 {
      ListingIsStable(s[1..], date);
      InsertWithDate(s[0], SortReports(s[1..]), date);
    }
  }

  /** `isOverdue`: the report has a next revision date and it lies before `now`. */
  function IsOverdue(r: Report, now: Day): bool
  {
    match r.nextRevisionDate
    case None => false
    case Some(due) => due < now
  }

  /** The card's `formatDate`; `localeDate` stands for `toLocaleDateString`. */
  function RevisionLabel(r: Report, localeDate: Day -> string): string
  {
    match r.nextRevisionDate
    case None => "Completed"
    case Some(due) => localeDate(due)
  }

  /**
   A report the scheduler left undated, because none of D3, D6 and D8 is
   pending, is listed as "Completed" and is never overdue; an overdue report
   always has a date before `now`.
   */
  lemma SavedReportStatus(updated: Report, now: Day, localeDate: Day -> string)
    requires FindNextRevision(updated).Ok?
    ensures var saved := updated.(nextRevisionDate := FindNextRevision(updated).value);
      && (NothingPending(updated.disciplines) ==>
            RevisionLabel(saved, localeDate) == "Completed" && !IsOverdue(saved, now))
      && (IsOverdue(saved, now) ==>
            saved.nextRevisionDate.Some? && saved.nextRevisionDate.value < now)
  {
  }
}
