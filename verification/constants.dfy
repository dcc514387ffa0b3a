/**
 The canonical discipline catalogue (constants.ts): nine sections D0..D8, in
 order, each with empty content and not completed. Every new report copies it.
 */
module Constants {
  import opened Types

  /** The id of the `n`-th catalogue entry: "D0" .. "D8". */
  function DisciplineId(n: nat): (id: string)
    requires n < 9
    ensures |id| == 2 && id[0] == 'D' && id[1] as int == '0' as int + n
  {
    match n
    case 0 => "D0"
    case 1 => "D1"
    case 2 => "D2"
    case 3 => "D3"
    case 4 => "D4"
    case 5 => "D5"
    case 6 => "D6"
    case 7 => "D7"
    case 8 => "D8"
  }

  /** Title of the `n`-th catalogue entry. */
  function Title(n: nat): string
    requires n < 9
  {
    match n
    case 0 => "D0: Plan"
    case 1 => "D1: Build Your Team"
    case 2 => "D2: Describe the Problem"
    case 3 => "D3: Develop a Containment Plan"
    case 4 => "D4: Identify & Verify Root Causes"
    case 5 => "D5: Choose & Verify Permanent Corrective Actions (PCAs)"
    case 6 => "D6: Implement & Validate PCAs"
    case 7 => "D7: Prevent Recurrence"
    case 8 => "D8: Congratulate Your Team"
  }

  /** Description of the `n`-th catalogue entry. */
  function Description(n: nat): string
    requires n < 9
  {
    match n
    case 0 => "Is the 8D process appropriate? Plan for the 8D process and identify prerequisites."
    case 1 => "Establish a small group of people with the product/process knowledge, allocated time, authority, and skill to solve the problem and implement corrective actions."
    case 2 => "Describe the internal or external problem by identifying \"what is wrong with what\" and detailing the problem in quantifiable terms."
    case 3 => "Define and implement containment actions to isolate the problem from any customer."
    case 4 => "Identify all potential causes that could explain why the problem occurred. Test each potential cause against the problem description and data."
    case 5 => "Select the best permanent corrective action to remove the root cause. Verify that the decision will be successful."
    case 6 => "Plan and implement the selected permanent corrective actions. Remove the containment actions."
    case 7 => "Modify the necessary systems, including policies, practices, and procedures, to prevent recurrence of this and similar problems."
    case 8 => "Recognize the collective efforts of the team. Share knowledge and learning."
  }

  /** `INITIAL_DISCIPLINES`: entry `n` has id "Dn", the fixed title and description, no content. */
  function InitialDisciplines(): (ds: seq<Discipline>)
    ensures HasTemplateShape(ds)
    ensures forall n :: 0 <= n < 9 ==> ds[n].content == "" && !ds[n].completed
  {
    seq(9, n requires 0 <= n < 9 => Discipline(DisciplineId(n), Title(n), Description(n), "", false))
  }

  /** Nine entries carrying the catalogue ids "D0" .. "D8" in order. */
  predicate HasCatalogueIds(ds: seq<Discipline>)
  {
    |ds| == 9 && forall n :: 0 <= n < 9 ==> ds[n].id == DisciplineId(n)
  }

  /**
   A discipline list has the catalogue's shape: nine entries carrying the
   catalogue's ids, titles and descriptions in catalogue order.
   */
  predicate HasTemplateShape(ds: seq<Discipline>)
  {
    HasCatalogueIds(ds)
    && forall n :: 0 <= n < 9 ==> ds[n].title == Title(n) && ds[n].description == Description(n)
  }

  /**
   In a list with the catalogue ids every id occurs once; in particular D3,
   D6 and D8 are found at positions 3, 6 and 8.
   */
  lemma CatalogueIdsTracked(ds: seq<Discipline>)
    requires HasCatalogueIds(ds)
    ensures DistinctIds(ds)
    ensures DisciplineIndex(ds, "D3") == 3
    ensures DisciplineIndex(ds, "D6") == 6
    ensures DisciplineIndex(ds, "D8") == 8
  {
    forall i, j | 0 <= i < j < |ds|
      ensures ds[i].id != ds[j].id
    {
      assert ds[i].id[1] != ds[j].id[1];
    }
    assert ds[3].id == "D3" && ds[6].id == "D6" && ds[8].id == "D8";
  }
}
