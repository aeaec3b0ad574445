/** The schools page: the department total, each school's coverage of it,
    the select/deselect toggle on a school card, the department preview chips
    and the icon rotation. */
module SchoolsPage {
  import opened Wrappers
  import opened Seqs
  import opened Strings
  import opened Catalog
  import ProgressBar

  /** The length of the page's icon list. */
  const IconCount: nat := 8

  /** How many department chips a card previews. */
  const PreviewSize: nat := 3

  /** The `reduce` over the schools: `sum + school.departments.length`,
      starting from 0. */
  function TotalDepartments(schools: seq<School>): (r: nat)
    ensures r == 0 <==> forall i :: 0 <= i < |schools| ==> schools[i].departments == []
  {
    if schools == [] then 0
    else TotalDepartments(schools[..|schools| - 1]) + |schools[|schools| - 1].departments|
  }

  /** No school has more departments than the total. */
  lemma {:induction false} SchoolWithinTotal(schools: seq<School>, i: nat)
    requires i < |schools|
    ensures |schools[i].departments| <= TotalDepartments(schools)
  {
    var n := |schools| - 1;
    if i < n {
      assert schools[..n][i] == schools[i];
      SchoolWithinTotal(schools[..n], i);
    }
  }

  /** The coverage shown on a card, `(count / total) * 100`: the same
      percentage as the card's progress bar, which is not animated and so
      shows its target. */
  function Coverage(count: nat, total: nat): (r: real)
    requires total > 0
    ensures count == 0 ==> r == 0.0
    ensures count == total ==> r == 100.0
  {
    ProgressBar.Percentage(count as real, total as real)
  }

  /** With a positive total, every school's coverage lies in [0, 100]. */
  lemma CoverageRange(schools: seq<School>, i: nat)
    requires i < |schools| && TotalDepartments(schools) > 0
    ensures 0.0 <= Coverage(|schools[i].departments|, TotalDepartments(schools)) <= 100.0
  {
    SchoolWithinTotal(schools, i);
    ProgressBar.PercentageRange(|schools[i].departments| as real, TotalDepartments(schools) as real);
  }

  /** The coverages of `schools` relative to `total`, added up. */
  function CoverageSum(schools: seq<School>, total: nat): real
    requires total > 0
  {
    if schools == [] then 0.0
    else CoverageSum(schools[..|schools| - 1], total) + Coverage(|schools[|schools| - 1].departments|, total)
  }

  lemma {:induction false} CoverageSumIsShare(schools: seq<School>, total: nat)
    requires total > 0
    ensures CoverageSum(schools, total) == (TotalDepartments(schools) as real / total as real) * 100.0
  {
    if schools != [] {
      var n := |schools| - 1;
      CoverageSumIsShare(schools[..n], total);
      var a, b, t := TotalDepartments(schools[..n]) as real, |schools[n].departments| as real, total as real;
      assert CoverageSum(schools, total) == (a / t) * 100.0 + (b / t) * 100.0;
      assert TotalDepartments(schools) as real == a + b;
      SharesAdd(a, b, t);
    }
  }

  lemma SharesAdd(a: real, b: real, t: real)
    requires t > 0.0
    ensures (a / t) * 100.0 + (b / t) * 100.0 == ((a + b) / t) * 100.0
  {
    assert a / t + b / t == (a + b) / t;
  }

  /** The cards' coverages add up to exactly 100 percent when there is at
      least one department. */
  lemma CoverageSumsToHundred(schools: seq<School>)
    requires TotalDepartments(schools) > 0
    ensures CoverageSum(schools, TotalDepartments(schools)) == 100.0
  {
    CoverageSumIsShare(schools, TotalDepartments(schools));
    WholeIsHundred(TotalDepartments(schools) as real);
  }

  lemma WholeIsHundred(t: real)
    requires t > 0.0
    ensures (t / t) * 100.0 == 100.0
  {
    assert t / t == 1.0;
  }

  /** The overview bar has `progress` and `max` both equal to the total, so
      with any department it fills completely. */
  lemma OverviewBarFull(schools: seq<School>)
    requires TotalDepartments(schools) > 0
    ensures ProgressBar.Percentage(TotalDepartments(schools) as real, TotalDepartments(schools) as real) == 100.0
  {
  }

  /** Clicking a school card: the selected school is cleared if it was this
      one, otherwise this one becomes selected. */
  function ToggleSelection(selected: Option<string>, schoolId: string): (r: Option<string>)
    ensures r == Some(schoolId) <==> selected != Some(schoolId)
    ensures r.Some? ==> r.value == schoolId
  {
    if selected == Some(schoolId) then None else Some(schoolId)
  }

  /** Two clicks on the same card restore the prior selection when that was
      nothing or this school; a different school's selection is lost. */
  lemma ToggleTwice(selected: Option<string>, schoolId: string)
    ensures ToggleSelection(ToggleSelection(selected, schoolId), schoolId) ==
      if selected == Some(schoolId) then selected else None
  {
  }

  /** The departments the card previews: `slice(0, 3)`. */
  function Preview(departments: seq<Department>): (r: seq<Department>)
    ensures |r| == if |departments| < PreviewSize then |departments| else PreviewSize
    ensures r == departments[..|r|]
  {
    Take(departments, PreviewSize)
  }

  /** The "+n more" chip: present exactly when more than three departments
      exist, counting the ones not previewed. */
  function MoreChip(departments: seq<Department>): (r: Option<nat>)
    ensures r.Some? <==> |departments| > PreviewSize
    ensures r.Some? ==> r.value >= 1
  {
    if |departments| > PreviewSize then Some(|departments| - PreviewSize) else None
  }

  /** The preview shows the first `min(3, n)` departments in order, and the
      preview plus the chip's count account for every department. */
  lemma PreviewAccountsForAll(departments: seq<Department>)
    ensures |Preview(departments)| == if |departments| < PreviewSize then |departments| else PreviewSize
    ensures Preview(departments) == departments[..|Preview(departments)|]
    ensures |Preview(departments)| + MoreChip(departments).GetOr(0) == |departments|
  {
  }

  /** The chip text of a previewed department, `name.split(' ')[0]`: the
      name up to its first space. */
  function ChipText(name: string): (r: string)
    ensures ' ' !in r
    ensures |r| <= |name| && r == name[..|r|]
    ensures |r| < |name| ==> name[|r|] == ' '
  {
    Split(name, ' ')[0]
  }

  /** The icon of card `idx`, `idx % icons.length`: always an index of the
      icon list. */
  function IconIndex(idx: nat): (k: nat)
    ensures k < IconCount
    ensures idx < IconCount ==> k == idx
  {
    idx % IconCount
  }
}
