/**
 Record shapes of an 8D problem-solving report (types.ts).

 Timestamps are whole day counts. A report's `createdAt` is an ISO string in
 the application; the model keeps the one distinction the report logic looks
 at: the empty string (`Blank`) versus a parsable instant on some day (`At`).
 */
module Types {

  /** An optional value: `null`/`undefined` in the application is `None`. */
  datatype Option<+T> = None | Some(value: T)

  /** The one failure the report logic can raise: formatting an invalid date. */
  datatype Error = InvalidTimeValue

  /** Outcome of an operation that may throw. */
  datatype Result<+T> = Ok(value: T) | Err(error: Error)

  /** A point in time, counted in whole days. */
  type Day = int

  /** The `createdAt` field: the empty string, or an instant on day `day`. */
  datatype Timestamp = Blank | At(day: Day)

  /** Calendar-day arithmetic (`setDate(getDate() + n)`) on the abstract day count. */
  function AddDays(t: Day, n: int): Day
  {
    t + n
  }

  /** An attached file; `mimeType` is the `type` field, `dataUrl` holds the base64 content. */
  datatype FileAttachment = FileAttachment(name: string, mimeType: string, dataUrl: string)

  /** One section of a report: fixed id, title and description, editable content and flag. */
  datatype Discipline = Discipline(
    id: string,
    title: string,
    description: string,
    content: string,
    completed: bool)

  datatype Report = Report(
    id: string,
    title: string,
    createdAt: Timestamp,
    okSample: Option<FileAttachment>,
    nokSample: Option<FileAttachment>,
    evidences: seq<FileAttachment>,
    disciplines: seq<Discipline>,
    nextRevisionDate: Option<Day>)

  /** `findIndex(p)`: the position of the first element satisfying `p`, or -1. */
  function FirstIndex<T>(s: seq<T>, p: T -> bool): (i: int)
    ensures -1 <= i < |s|
    ensures i == -1 <==> forall j :: 0 <= j < |s| ==> !p(s[j])
    ensures 0 <= i ==> p(s[i]) && forall j :: 0 <= j < i ==> !p(s[j])
  {
    if |s| == 0 then -1
    else if p(s[0]) then 0
    else
      var k := FirstIndex(s[1..], p);
      if k == -1 then -1 else k + 1
  }

  /** `find(p)`: the first element satisfying `p`, or none. */
  function Find<T>(s: seq<T>, p: T -> bool): (r: Option<T>)
    ensures r.None? <==> forall j :: 0 <= j < |s| ==> !p(s[j])
    ensures r.Some? ==> 0 <= FirstIndex(s, p) && r.value == s[FirstIndex(s, p)]
  {
    var i := FirstIndex(s, p);
    if i == -1 then None else Some(s[i])
  }

  /** The first index satisfying `p` is the first position where `p` holds. */
  lemma FirstIndexAt<T>(s: seq<T>, p: T -> bool, k: nat)
    requires k < |s| && p(s[k])
    requires forall j :: 0 <= j < k ==> !p(s[j])
    ensures FirstIndex(s, p) == k
  {
  }

  /** The test `d => d.id === id`. */
  function DisciplineWithId(id: string): Discipline -> bool
  {
    (d: Discipline) => d.id == id
  }

  /** `disciplines.findIndex(d => d.id === id)`. */
  function DisciplineIndex(ds: seq<Discipline>, id: string): (i: int)
    ensures -1 <= i < |ds|
    ensures i == -1 <==> forall j :: 0 <= j < |ds| ==> ds[j].id != id
    ensures 0 <= i ==> ds[i].id == id && forall j :: 0 <= j < i ==> ds[j].id != id
  {
    FirstIndex(ds, DisciplineWithId(id))
  }

  /**
   `disciplines.find(d => d.id === id)`: nothing when no discipline has the
   id, otherwise the discipline at the first position carrying it.
   */
  function FindDiscipline(ds: seq<Discipline>, id: string): (r: Option<Discipline>)
    ensures r.None? <==> forall j :: 0 <= j < |ds| ==> ds[j].id != id
    ensures r.Some? ==> 0 <= DisciplineIndex(ds, id) && r.value == ds[DisciplineIndex(ds, id)]
    ensures r.Some? ==> r.value.id == id
  {
    Find(ds, DisciplineWithId(id))
  }

  /** True when no id occurs twice in `ds`. */
  predicate DistinctIds(ds: seq<Discipline>)
  {
    forall i, j :: 0 <= i < j < |ds| ==> ds[i].id != ds[j].id
  }
}
