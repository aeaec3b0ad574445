/** The department detail page: the lookup of the routed school and
    department, the page's notification state and the actions that set it,
    the career-paths bar, the related departments and the head's initials. */
module DepartmentDetailPage {
  import opened Wrappers
  import opened Seqs
  import opened Strings
  import opened Catalog
  import Notification
  import ProgressBar

  /** The `duration` the page passes to its notification. */
  const NotificationDurationMs: int := 3000

  /** The career-paths bar's `max` never drops below this. */
  const CareerBarFloor: nat := 10

  /** How many related departments are listed. */
  const RelatedLimit: nat := 4

  /** How many career opportunities a related department's card lists. */
  const RelatedCareerLimit: nat := 2

  const BookmarkMessage: string := "Department bookmarked successfully!"
  const CopiedMessage: string := "Link copied to clipboard!"

  function WelcomeMessage(departmentName: string): (r: string)
    ensures Includes(r, departmentName)
  {
    var r := "Welcome to " + departmentName + "! Explore the details below.";
    assert OccursAt(r, departmentName, 11);
    r
  }

  /** The outcome of looking the route's ids up in the catalog. */
  datatype Lookup = NotFound | Found(school: School, department: Department)

  /** `k` is the first department of `school` carrying `departmentId`. */
  predicate FirstDepartmentWithId(school: School, departmentId: string, k: int)
  {
    0 <= k < |school.departments| && school.departments[k].id == departmentId
    && forall j :: 0 <= j < k ==> school.departments[j].id != departmentId
  }

  /** `schools.find(s => s.id === schoolId)`, then
      `school?.departments.find(d => d.id === departmentId)`: the department
      is searched for only in the first school carrying the id. */
  function LookupDepartment(schools: seq<School>, schoolId: string, departmentId: string): (r: Lookup)
    ensures r.Found? ==> r.school in schools && r.school.id == schoolId
    ensures r.Found? ==> r.department in r.school.departments && r.department.id == departmentId
    ensures r.Found? ==>
      exists k :: FirstDepartmentWithId(r.school, departmentId, k) && r.department == r.school.departments[k]
  {
    match FindFirst(schools, (s: School) => s.id == schoolId)
    case None => NotFound
    case Some(i) =>
      match Find(schools[i].departments, (d: Department) => d.id == departmentId)
      case None => NotFound
      case Some(d) => Found(schools[i], d)
  }

  /** `i` is the first school carrying `schoolId`. */
  predicate FirstWithId(schools: seq<School>, schoolId: string, i: int)
  {
    0 <= i < |schools| && schools[i].id == schoolId
    && forall j :: 0 <= j < i ==> schools[j].id != schoolId
  }

  predicate HasDepartment(school: School, departmentId: string)
  {
    exists k :: 0 <= k < |school.departments| && school.departments[k].id == departmentId
  }

  /** The lookup succeeds exactly when the first school carrying the id has
      a department with the other id, and then finds that school and the
      first of its departments with that id. */
  lemma LookupCharacterised(schools: seq<School>, schoolId: string, departmentId: string, i: int)
    requires FirstWithId(schools, schoolId, i)
    ensures LookupDepartment(schools, schoolId, departmentId).Found? <==> HasDepartment(schools[i], departmentId)
    ensures LookupDepartment(schools, schoolId, departmentId).Found? ==>
      LookupDepartment(schools, schoolId, departmentId).school == schools[i]
    ensures forall k :: FirstDepartmentWithId(schools[i], departmentId, k) ==>
      LookupDepartment(schools, schoolId, departmentId) == Found(schools[i], schools[i].departments[k])
  {
    var p := (s: School) => s.id == schoolId;
    var first := FindFirst(schools, p);
    assert p(schools[i]);
    assert first.Some?;
    assert first.value == i;
    var q := (d: Department) => d.id == departmentId;
    var found := Find(schools[i].departments, q);
    assert found.Some? <==> exists k :: 0 <= k < |schools[i].departments| && q(schools[i].departments[k]);
  }

  /** Without any school carrying the id, the lookup fails. */
  lemma LookupNoSchool(schools: seq<School>, schoolId: string, departmentId: string)
    requires forall i :: 0 <= i < |schools| ==> schools[i].id != schoolId
    ensures LookupDepartment(schools, schoolId, departmentId) == NotFound
  {
    var p := (s: School) => s.id == schoolId;
    assert forall j :: 0 <= j < |schools| ==> !p(schools[j]);
  }

  /** With unique school ids and unique department ids within the school,
      the lookup finds exactly the school and department the route names. */
  lemma LookupFindsRouted(schools: seq<School>, i: nat, k: nat)
    requires i < |schools| && k < |schools[i].departments|
    requires forall a, b :: 0 <= a < b < |schools| ==> schools[a].id != schools[b].id
    requires forall a, b :: 0 <= a < b < |schools[i].departments| ==>
      schools[i].departments[a].id != schools[i].departments[b].id
    ensures LookupDepartment(schools, schools[i].id, schools[i].departments[k].id) == Found(schools[i], schools[i].departments[k])
  {
    var deps := schools[i].departments;
    LookupCharacterised(schools, schools[i].id, deps[k].id, i);
    var r := LookupDepartment(schools, schools[i].id, deps[k].id);
    assert r.Found?;
    var m :| 0 <= m < |deps| && deps[m] == r.department;
    assert m == k;
  }

  /** Two departments sharing an id: `find` returns the earlier one. */
  lemma DuplicateIdsFindFirst()
    ensures var school := School("s", "S", [Department("x", "A", None, None), Department("x", "B", None, None)]);
      LookupDepartment([school], "s", "x") == Found(school, school.departments[0])
  {
    var school := School("s", "S", [Department("x", "A", None, None), Department("x", "B", None, None)]);
    LookupCharacterised([school], "s", "x", 0);
    assert FirstDepartmentWithId(school, "x", 0);
  }

  /** What the page renders. */
  datatype PageView = Loading | Missing | Detail(school: School, department: Department)

  /** The page's state: the loading flag, the lookup result and the
      notification's visibility, kind and message. */
  class DetailPage {
    var isLoading: bool
    var lookup: Lookup
    var showNotification: bool
    var notificationKind: Notification.Kind
    var notificationMessage: string

    /** A page starts loading, with a hidden, empty, informational
        notification. */
    constructor ()
      ensures isLoading && lookup == NotFound
      ensures !showNotification && notificationKind == Notification.Info && notificationMessage == ""
    {
      isLoading := true;
      lookup := NotFound;
      showNotification := false;
      notificationKind := Notification.Info;
      notificationMessage := "";
    }

    function View(): (v: PageView)
      reads this
      ensures v.Loading? <==> isLoading
      ensures v.Detail? ==> lookup == Found(v.school, v.department)
      ensures v.Missing? <==> !isLoading && lookup.NotFound?
    {
      if isLoading then Loading
      else match lookup
        case NotFound => Missing
        case Found(s, d) => Detail(s, d)
    }

    /** The load effect: the lookup result is stored, loading ends, and a
        found department shows a success notification welcoming to it; a
        missing one leaves the notification as it was. */
    method Load(schools: seq<School>, schoolId: string, departmentId: string)
      modifies this
      ensures !isLoading
      ensures lookup == LookupDepartment(schools, schoolId, departmentId)
      ensures lookup.Found? ==> (showNotification && notificationKind == Notification.Success
        && notificationMessage == WelcomeMessage(lookup.department.name))
      ensures lookup.NotFound? ==> (showNotification == old(showNotification)
        && notificationKind == old(notificationKind) && notificationMessage == old(notificationMessage))
    {
      var found := LookupDepartment(schools, schoolId, departmentId);
      isLoading := true;
      lookup := found;
      isLoading := false;
      if found.Found? {
        notificationMessage := WelcomeMessage(found.department.name);
        notificationKind := Notification.Success;
        showNotification := true;
      }
    }

    /** The bookmark button: a success notification confirming it. */
    method Bookmark()
      modifies this`showNotification, this`notificationKind, this`notificationMessage
      ensures showNotification && notificationKind == Notification.Success
      ensures notificationMessage == BookmarkMessage
    {
      notificationMessage := BookmarkMessage;
      notificationKind := Notification.Success;
      showNotification := true;
    }

    /** The share button. With the native share sheet the page's state does
        not change; otherwise the link is copied and an informational
        notification says so. */
    method Share(nativeShare: bool)
      modifies this`showNotification, this`notificationKind, this`notificationMessage
      ensures nativeShare ==> (showNotification == old(showNotification)
        && notificationKind == old(notificationKind) && notificationMessage == old(notificationMessage))
      ensures !nativeShare ==> (showNotification && notificationKind == Notification.Info
        && notificationMessage == CopiedMessage)
    {
      if !nativeShare {
        notificationMessage := CopiedMessage;
        notificationKind := Notification.Info;
        showNotification := true;
      }
    }

    /** The notification's `onClose`: it is hidden, its text is kept. */
    method NotificationClosed()
      modifies this`showNotification
      ensures !showNotification
    {
      showNotification := false;
    }
  }

  /** Opening the page on a route: it shows the found department with its
      welcome, or "Department not found" with no notification. */
  method OpenPage(schools: seq<School>, schoolId: string, departmentId: string)
    returns (view: PageView, shown: bool, message: string)
    ensures view.Detail? <==> LookupDepartment(schools, schoolId, departmentId).Found?
    ensures view.Detail? ==> view.department.id == departmentId && view.school.id == schoolId
    ensures view.Detail? ==> shown && message == WelcomeMessage(view.department.name)
    ensures view.Missing? ==> !shown
    ensures !view.Loading?
  {
    var page := new DetailPage();
    page.Load(schools, schoolId, departmentId);
    view, shown, message := page.View(), page.showNotification, page.notificationMessage;
  }

  /** The welcome notification is mounted with the page's duration and its
      `onClose`. Once the auto-dismiss and exit timers have run, `onClose`
      has hidden it; a bookmark afterwards shows it again with the
      bookmark message. */
  method WelcomeThenBookmark(schools: seq<School>, schoolId: string, departmentId: string)
    returns (shownAfterDismiss: bool, shownAfterBookmark: bool, message: string, kind: Notification.Kind)
    requires LookupDepartment(schools, schoolId, departmentId).Found?
    ensures !shownAfterDismiss
    ensures shownAfterBookmark && message == BookmarkMessage && kind == Notification.Success
  {
    var page := new DetailPage();
    page.Load(schools, schoolId, departmentId);
    var toast := new Notification.Notification(page.notificationMessage, page.notificationKind, NotificationDurationMs, true);
    toast.FireAutoDismiss();
    toast.FireExit();
    if toast.onCloseCalls > 0 {
      page.NotificationClosed();
    }
    shownAfterDismiss := page.showNotification;
    page.Bookmark();
    shownAfterBookmark, message, kind := page.showNotification, page.notificationMessage, page.notificationKind;
  }

  /** `department.careerOpportunities || []`. */
  function Careers(d: Department): (r: seq<string>)
    ensures d.careerOpportunities.None? ==> r == []
    ensures d.careerOpportunities.Some? ==> r == d.careerOpportunities.value
  {
    d.careerOpportunities.GetOr([])
  }

  /** `Math.max(totalCareers, 10)`. */
  function CareerBarMax(totalCareers: nat): (m: nat)
    ensures m >= totalCareers && m >= CareerBarFloor
    ensures m == totalCareers || m == CareerBarFloor
  {
    if totalCareers >= CareerBarFloor then totalCareers else CareerBarFloor
  }

  /** The career-paths bar fills to `10 * n` percent for fewer than ten
      careers and completely from ten on. */
  lemma CareerBarFill(d: Department)
    ensures var n := |Careers(d)|;
      var pct := ProgressBar.Percentage(n as real, CareerBarMax(n) as real);
      && 0.0 <= pct <= 100.0
      && (n < CareerBarFloor ==> pct == 10.0 * n as real)
      && (n >= CareerBarFloor ==> pct == 100.0)
  {
    var n := |Careers(d)|;
    ProgressBar.PercentageRange(n as real, CareerBarMax(n) as real);
    if n < CareerBarFloor {
      assert ProgressBar.Percentage(n as real, 10.0) == (n as real / 10.0) * 100.0;
    }
  }

  /** The Related Departments list: the school's other departments, in order,
      at most four of them. */
  function RelatedDepartments(school: School, current: Department): (r: seq<Department>)
    ensures |r| <= RelatedLimit
    ensures forall k :: 0 <= k < |r| ==> r[k].id != current.id && r[k] in school.departments
    ensures IsSubsequence(r, school.departments)
    ensures |r| < RelatedLimit ==>
      forall k :: 0 <= k < |school.departments| && school.departments[k].id != current.id ==> school.departments[k] in r
    ensures |r| < RelatedLimit ==>
      forall x :: multiset(r)[x] == if x.id != current.id then multiset(school.departments)[x] else 0
  {
    var others := Filter(school.departments, (d: Department) => d.id != current.id);
    PrefixIsSubsequence(others, school.departments, |Take(others, RelatedLimit)|);
    FilterCounts(school.departments, (d: Department) => d.id != current.id);
    Take(others, RelatedLimit)
  }

  /** In a school whose department ids are distinct, the related list is the
      first four other departments: it never shows a department while
      skipping an earlier one that also qualifies. */
  lemma RelatedAreFirst(school: School, current: Department, i: nat, j: nat)
    requires forall a, b :: 0 <= a < b < |school.departments| ==> school.departments[a].id != school.departments[b].id
    requires i < j < |school.departments| && school.departments[i].id != current.id
    requires school.departments[j] in RelatedDepartments(school, current)
    ensures school.departments[i] in RelatedDepartments(school, current)
  {
    FilterPrefixSkipsNothing(school.departments, (d: Department) => d.id != current.id, RelatedLimit, i, j);
  }

  /** `relatedDept.careerOpportunities?.slice(0, 2).join(", ")`: nothing
      when the department lists no careers. */
  function RelatedSummary(d: Department): (r: Option<string>)
    ensures r.None? <==> d.careerOpportunities.None?
  {
    match d.careerOpportunities
    case None => None
    case Some(careers) => Some(Join(Take(careers, RelatedCareerLimit), ", "))
  }

  /** The summary names the first two careers, comma-separated, or the only
      one, or is empty for an empty list. */
  lemma RelatedSummaryShape(d: Department)
    ensures d.careerOpportunities.None? <==> RelatedSummary(d).None?
    ensures var c := Careers(d);
      d.careerOpportunities.Some? ==>
        RelatedSummary(d).value ==
          if |c| == 0 then "" else if |c| == 1 then c[0] else c[0] + ", " + c[1]
  {
    if d.careerOpportunities.Some? && |Careers(d)| >= 2 {
      var c := Careers(d);
      var two := Take(c, RelatedCareerLimit);
      assert two == [c[0], c[1]];
      assert two[1..] == [c[1]];
      assert Join(two[1..], ", ") == c[1];
      assert Join(two, ", ") == c[0] + ", " + c[1];
    }
  }

  /** `n[0]` of one word, which `join` prints as nothing for an empty word. */
  function Initial(word: string): (r: string)
    ensures |r| <= 1
    ensures r != "" <==> word != ""
    ensures r != "" ==> r[0] == word[0]
  {
    if word == "" then "" else [word[0]]
  }

  /** `words.map(n => n[0])`, one entry per word. */
  function FirstLetters(words: seq<string>): (r: seq<string>)
    ensures |r| == |words|
    ensures forall i :: 0 <= i < |r| ==> r[i] == Initial(words[i])
  {
    seq(|words|, (i: int) requires 0 <= i < |words| => Initial(words[i]))
  }

  /** Joining one-letter pieces with no separator spells their letters. */
  lemma {:induction false} JoinLetters(parts: seq<string>)
    requires forall k :: 0 <= k < |parts| ==> |parts[k]| == 1
    ensures |Join(parts, "")| == |parts|
    ensures forall k :: 0 <= k < |parts| ==> Join(parts, "")[k] == parts[k][0]
  {
    if |parts| > 1 {
      JoinLetters(parts[1..]);
      assert Join(parts, "") == parts[0] + Join(parts[1..], "");
    }
  }

  const NonEmpty: string -> bool := (w: string) => w != ""

  /** The first letter of each of `words`, in order. */
  function Heads(words: seq<string>): (r: string)
    requires forall k :: 0 <= k < |words| ==> words[k] != ""
    ensures |r| == |words|
    ensures forall k :: 0 <= k < |words| ==> r[k] == words[k][0]
  {
    seq(|words|, (k: int) requires 0 <= k < |words| => words[k][0])
  }

  /** With no separator, joining a piece onto a list puts it in front. */
  lemma JoinInFront(a: string, parts: seq<string>)
    ensures Join([a] + parts, "") == a + Join(parts, "")
  {
    if |parts| > 0 {
      assert ([a] + parts)[1..] == parts;
    }
  }

  /** Joining the words' initials spells the first letters of the non-empty
      words: an empty word contributes nothing. */
  lemma {:induction false} JoinInitials(words: seq<string>)
    ensures Join(FirstLetters(words), "") == Heads(Filter(words, NonEmpty))
  {
    if words != [] {
      var w, rest := words[0], words[1..];
      JoinInitials(rest);
      FirstLettersInFront(words);
      JoinInFront(Initial(w), FirstLetters(rest));
      if w != "" {
        HeadsInFront(w, Filter(rest, NonEmpty));
      }
    }
  }

  lemma FirstLettersInFront(words: seq<string>)
    requires words != []
    ensures FirstLetters(words) == [Initial(words[0])] + FirstLetters(words[1..])
  {
    assert FirstLetters(words) == [Initial(words[0])] + FirstLetters(words[1..]);
  }

  lemma HeadsInFront(w: string, words: seq<string>)
    requires w != "" && forall k :: 0 <= k < |words| ==> words[k] != ""
    ensures Heads([w] + words) == [w[0]] + Heads(words)
  {
    assert Heads([w] + words) == [w[0]] + Heads(words);
  }

  /** `head.split(' ').map(n => n[0]).join('')`: the first letters of the
      non-empty space-separated words, in order, so runs of spaces and
      leading or trailing spaces add nothing. */
  function Initials(head: string): (r: string)
    ensures r == Heads(Filter(Split(head, ' '), NonEmpty))
    ensures |r| <= |Split(head, ' ')|
  {
    JoinInitials(Split(head, ' '));
    Join(FirstLetters(Split(head, ' ')), "")
  }

  /** A head's name made of words joined by single spaces is shown as the
      first letter of each word, in order. */
  lemma InitialsOfName(words: seq<string>)
    requires |words| >= 1
    requires forall k :: 0 <= k < |words| ==> words[k] != "" && ' ' !in words[k]
    ensures var s := Initials(Join(words, " "));
      |s| == |words| && forall k :: 0 <= k < |words| ==> s[k] == words[k][0]
  {
    SplitJoin(words, ' ');
    assert Split(Join(words, " "), ' ') == words;
    JoinLetters(FirstLetters(words));
  }

  /** The head card with its initials, shown only for a non-empty head. */
  function HeadInitials(d: Department): (r: Option<string>)
    ensures r.Some? <==> d.head.Some? && d.head.value != ""
  {
    if d.head.Some? && d.head.value != "" then Some(Initials(d.head.value)) else None
  }
}
