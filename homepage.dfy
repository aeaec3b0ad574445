/** The home page: every department of every school, flattened into search
    entries; the case-insensitive search over their names and the dropdown it
    drives; and the statistics the progress bar compares. */
module HomePage {
  import opened Wrappers
  import opened Seqs
  import opened Strings
  import opened Catalog
  import SchoolsPage
  import Breadcrumb
  import ProgressBar

  /** The page's mock counts. */
  const TotalStudents: nat := 15000
  const TotalFaculty: nat := 850

  /** One search entry: a department's name and the ids of the route to it. */
  datatype Entry = Entry(name: string, schoolId: string, departmentId: string)

  function EntryOf(school: School, department: Department): Entry
  {
    Entry(department.name, school.id, department.id)
  }

  /** The entries of `departments`, each carrying `school`'s id. */
  function EntriesOf(school: School, departments: seq<Department>): (r: seq<Entry>)
    ensures |r| == |departments|
    ensures forall j :: 0 <= j < |r| ==> r[j] == EntryOf(school, departments[j])
  {
    if departments == [] then []
    else EntriesOf(school, departments[..|departments| - 1]) + [EntryOf(school, departments[|departments| - 1])]
  }

  /** The entries of all schools, school by school, each school's in its
      department order: one entry per department, as many as the schools
      page's total. */
  function AllDepartments(schools: seq<School>): (r: seq<Entry>)
    ensures |r| == SchoolsPage.TotalDepartments(schools)
  {
    if schools == [] then []
    else
      var last := schools[|schools| - 1];
      AllDepartments(schools[..|schools| - 1]) + EntriesOf(last, last.departments)
  }

  /** `getAllDepartments`: the nested loops that push one entry per
      department. */
  method GetAllDepartments(schools: seq<School>) returns (departments: seq<Entry>)
    ensures departments == AllDepartments(schools)
  {
    departments := [];
    for i := 0 to |schools|
      invariant departments == AllDepartments(schools[..i])
    {
      var school := schools[i];
      for j := 0 to |school.departments|
        invariant departments == AllDepartments(schools[..i]) + EntriesOf(school, school.departments[..j])
      {
        assert school.departments[..j + 1][..j] == school.departments[..j];
        departments := departments + [Entry(school.departments[j].name, school.id, school.departments[j].id)];
      }
      assert school.departments[..|school.departments|] == school.departments;
      assert schools[..i + 1][..i] == schools[..i];
    }
    assert schools[..|schools|] == schools;
  }

  /** Entry `j` of school `k` sits after all entries of the schools before
      it, and carries that school's id and that department's id and name. */
  lemma {:induction false} AllDepartmentsAt(schools: seq<School>, k: nat, j: nat)
    requires k < |schools| && j < |schools[k].departments|
    ensures var at := SchoolsPage.TotalDepartments(schools[..k]) + j;
      at < |AllDepartments(schools)| &&
      AllDepartments(schools)[at] == EntryOf(schools[k], schools[k].departments[j])
  {
    var n := |schools| - 1;
    var init := schools[..n];
    if k == n {
      assert schools[..k] == init;
    } else {
      assert init[..k] == schools[..k];
      assert init[k] == schools[k];
      AllDepartmentsAt(init, k, j);
    }
  }

  /** The lower-cased, trimmed query. */
  function Query(search: string): string
  {
    ToLower(Trim(search))
  }

  /** `d.name.toLowerCase().includes(query)`. */
  function NameMatches(query: string): Entry -> bool
  {
    (d: Entry) => Includes(ToLower(d.name), query)
  }

  /** The search matches: none for a blank query, otherwise the entries
      whose lower-cased name contains the lower-cased, trimmed query. */
  function Matches(search: string, all: seq<Entry>): (r: seq<Entry>)
    ensures IsSubsequence(r, all)
    ensures forall k :: 0 <= k < |r| ==> Trim(search) != "" && Includes(ToLower(r[k].name), Query(search))
    ensures forall k :: 0 <= k < |all| && Trim(search) != "" && Includes(ToLower(all[k].name), Query(search))
              ==> all[k] in r
    ensures forall x ::
      multiset(r)[x] == if Trim(search) != "" && Includes(ToLower(x.name), Query(search)) then multiset(all)[x] else 0
  {
    if Trim(search) != "" then
      FilterCounts(all, NameMatches(Query(search)));
      Filter(all, NameMatches(Query(search)))
    else []
  }

  /** A query of white space only (or none) matches nothing. */
  lemma BlankSearchMatchesNothing(search: string, all: seq<Entry>)
    requires forall k :: 0 <= k < |search| ==> IsWhitespace(search[k])
    ensures Matches(search, all) == []
  {
    TrimEmpty(search);
  }

  /** Two queries that agree once trimmed and lower-cased match the same
      entries: the search ignores case and surrounding white space. */
  lemma SearchIgnoresCase(search1: string, search2: string, all: seq<Entry>)
    requires Query(search1) == Query(search2)
    ensures Matches(search1, all) == Matches(search2, all)
  {
    assert |Trim(search1)| == |Query(search1)| == |Query(search2)| == |Trim(search2)|;
  }

  /** What appears under the search box. */
  datatype Dropdown = Closed | Results(entries: seq<Entry>) | NoneFound

  /** The list shows for a non-empty input with matches; "No departments
      found" shows for a non-empty input without. */
  function DropdownFor(search: string, all: seq<Entry>): (v: Dropdown)
    ensures v.Closed? <==> search == ""
    ensures v.Results? <==> search != "" && Matches(search, all) != []
    ensures v.Results? ==> v.entries == Matches(search, all)
    ensures v.NoneFound? <==> search != "" && Matches(search, all) == []
  {
    var matches := Matches(search, all);
    if search != "" && |matches| > 0 then Results(matches)
    else if search != "" && |matches| == 0 then NoneFound
    else Closed
  }

  /** Input made only of white space is non-empty but matches nothing, so it
      shows "No departments found". */
  lemma WhitespaceShowsNoneFound(search: string, all: seq<Entry>)
    requires search != ""
    requires forall k :: 0 <= k < |search| ==> IsWhitespace(search[k])
    ensures DropdownFor(search, all) == NoneFound
  {
    BlankSearchMatchesNothing(search, all);
  }

  /** The route of an entry is its four segments joined by `/`. */
  lemma JoinRoute(e: Entry)
    ensures "/" + Join(["schools", e.schoolId, "departments", e.departmentId], "/")
      == "/schools/" + e.schoolId + "/departments/" + e.departmentId
  {
    var segments := ["schools", e.schoolId, "departments", e.departmentId];
    var tail2 := ["departments", e.departmentId];
    assert tail2[1..] == [e.departmentId];
    assert Join(tail2, "/") == "departments" + "/" + e.departmentId;
    var tail1 := [e.schoolId] + tail2;
    assert tail1[1..] == tail2;
    assert Join(tail1, "/") == e.schoolId + "/" + Join(tail2, "/");
    assert segments == ["schools"] + tail1 && segments[1..] == tail1;
    assert Join(segments, "/") == "schools" + "/" + Join(tail1, "/");
  }

  /** The route each result links to; with non-empty, slash-free ids it
      splits back into its four segments. */
  function DepartmentRoute(e: Entry): (r: string)
    ensures e.schoolId != "" && '/' !in e.schoolId && e.departmentId != "" && '/' !in e.departmentId ==>
      Breadcrumb.PathSegments(r) == ["schools", e.schoolId, "departments", e.departmentId]
  {
    var route := "/schools/" + e.schoolId + "/departments/" + e.departmentId;
    var segments := ["schools", e.schoolId, "departments", e.departmentId];
    JoinRoute(e);
    assert e.schoolId != "" && '/' !in e.schoolId && e.departmentId != "" && '/' !in e.departmentId ==>
      Breadcrumb.PathSegments(route) == segments by {
      if e.schoolId != "" && '/' !in e.schoolId && e.departmentId != "" && '/' !in e.departmentId {
        Breadcrumb.SegmentsOfRoute(segments);
      }
    }
    route
  }

  /** Following a result with non-empty, slash-free ids lands on a path
      whose breadcrumb reads Schools / School Details / Departments /
      Department Details, with the last crumb on the result's own route. */
  lemma ResultBreadcrumb(e: Entry)
    requires e.schoolId != "" && '/' !in e.schoolId
    requires e.departmentId != "" && '/' !in e.departmentId
    ensures var crumbs := Breadcrumb.Crumbs(DepartmentRoute(e));
      && crumbs.Some? && |crumbs.value| == 4
      && crumbs.value[0].displayName == "Schools"
      && crumbs.value[1].displayName == "School Details"
      && crumbs.value[2].displayName == "Departments"
      && crumbs.value[3].displayName == "Department Details"
      && crumbs.value[3].routeTo == DepartmentRoute(e)
  {
    var segments := ["schools", e.schoolId, "departments", e.departmentId];
    assert segments[..4] == segments;
    JoinRoute(e);
  }

  /** The four statistic cards, in display order. */
  datatype StatKey = Departments | Schools | Students | Faculty

  /** The departments card counts every department of every school. */
  function StatCount(key: StatKey, schools: seq<School>): (r: nat)
    ensures key == Departments ==> r == SchoolsPage.TotalDepartments(schools)
  {
    match key
    case Departments => |AllDepartments(schools)|
    case Schools => |schools|
    case Students => TotalStudents
    case Faculty => TotalFaculty
  }

  /** The counts of all four cards. */
  function StatCounts(schools: seq<School>): seq<int>
  {
    [StatCount(Departments, schools), StatCount(Schools, schools),
     StatCount(Students, schools), StatCount(Faculty, schools)]
  }

  /** The bar's `max`: the largest of the four counts. */
  function StatsMax(schools: seq<School>): (r: int)
    ensures r >= TotalStudents && r >= TotalFaculty
    ensures r >= SchoolsPage.TotalDepartments(schools) && r >= |schools|
  {
    var counts := StatCounts(schools);
    assert counts[0] == SchoolsPage.TotalDepartments(schools) && counts[1] == |schools|;
    assert counts[2] == TotalStudents && counts[3] == TotalFaculty;
    Max(counts)
  }

  /** The selected card's count never exceeds the bar's `max`, which is one
      of the counts and positive, so the bar's fill lies in [0, 100] percent. */
  lemma SelectedStatWithinMax(key: StatKey, schools: seq<School>)
    ensures StatCount(key, schools) <= StatsMax(schools)
    ensures StatsMax(schools) in StatCounts(schools)
    ensures StatsMax(schools) >= TotalStudents
    ensures 0.0 <= ProgressBar.Percentage(StatCount(key, schools) as real, StatsMax(schools) as real) <= 100.0
  {
    var counts := StatCounts(schools);
    assert counts[2] == TotalStudents;
    match key {
      case Departments => assert counts[0] == StatCount(key, schools);
      case Schools => assert counts[1] == StatCount(key, schools);
      case Students => assert counts[2] == StatCount(key, schools);
      case Faculty => assert counts[3] == StatCount(key, schools);
    }
    ProgressBar.PercentageRange(StatCount(key, schools) as real, StatsMax(schools) as real);
  }
}
