/** The breadcrumb trail: the pathname is split on `/` with empty pieces
    dropped, and each remaining segment becomes one crumb with a label, the
    route of the path up to it, and whether it is the last (the only crumb
    that is not a link). A path without segments renders no trail. */
module Breadcrumb {
  import opened Wrappers
  import opened Seqs
  import opened Strings

  /** `pathname.split("/").filter((x) => x)`. */
  function PathSegments(pathname: string): (r: seq<string>)
    ensures forall k :: 0 <= k < |r| ==> r[k] != "" && '/' !in r[k]
    ensures IsSubsequence(r, Split(pathname, '/'))
    ensures forall k :: 0 <= k < |Split(pathname, '/')| && Split(pathname, '/')[k] != "" ==> Split(pathname, '/')[k] in r
    ensures forall x :: multiset(r)[x] == if x != "" then multiset(Split(pathname, '/'))[x] else 0
  {
    FilterCounts(Split(pathname, '/'), (x: string) => x != "");
    Filter(Split(pathname, '/'), (x: string) => x != "")
  }

  /** The `routeTo` of crumb `index`: `/` followed by the segments up to and
      including `index`, joined by `/`. */
  function RouteTo(segments: seq<string>, index: nat): (r: string)
    requires index < |segments|
    ensures (forall k :: 0 <= k < |segments| ==> segments[k] != "" && '/' !in segments[k]) ==>
      PathSegments(r) == segments[..index + 1]
  {
    var route := "/" + Join(segments[..index + 1], "/");
    assert (forall k :: 0 <= k < |segments| ==> segments[k] != "" && '/' !in segments[k]) ==>
      PathSegments(route) == segments[..index + 1] by {
      if forall k :: 0 <= k < |segments| ==> segments[k] != "" && '/' !in segments[k] {
        SegmentsOfRoute(segments[..index + 1]);
      }
    }
    route
  }

  /** Each route is the previous one extended by `/` and the next segment,
      so every route is a prefix of the next. */
  lemma RouteExtends(segments: seq<string>, index: nat)
    requires index + 1 < |segments|
    ensures RouteTo(segments, index + 1) == RouteTo(segments, index) + "/" + segments[index + 1]
  {
    assert segments[..index + 2] == segments[..index + 1] + [segments[index + 1]];
    JoinSnoc(segments[..index + 1], segments[index + 1], "/");
  }

  /** The label of the segment at `index` out of `count`: fixed labels at
      positions 1 and 3, the two known names, otherwise the segment with its
      first letter upper-cased. */
  function CrumbLabel(segment: string, index: nat, count: nat): (r: string)
    ensures segment != "" ==> r != ""
    ensures index != 1 && index != 3 && segment != "schools" && segment != "departments" ==>
      |r| == |segment| && (segment != "" ==> r[1..] == segment[1..])
  {
    if index == 1 && count > 1 then "School Details"
    else if index == 3 && count > 3 then "Department Details"
    else if segment == "schools" then "Schools"
    else if segment == "departments" then "Departments"
    else Capitalize(segment)
  }

  datatype Crumb = Crumb(displayName: string, routeTo: string, isLast: bool)

  /** The crumbs after the fixed "Home" link, or `None` when the trail is not
      rendered. */
  function Crumbs(pathname: string): (r: Option<seq<Crumb>>)
    ensures r.None? <==> PathSegments(pathname) == []
    ensures r.Some? ==> |r.value| == |PathSegments(pathname)|
    ensures r.Some? ==> forall i :: 0 <= i < |r.value| ==> (r.value[i].isLast <==> i == |r.value| - 1)
  {
    var segments := PathSegments(pathname);
    if segments == [] then None
    else Some(seq(|segments|, i requires 0 <= i < |segments| =>
      Crumb(CrumbLabel(segments[i], i, |segments|), RouteTo(segments, i), i == |segments| - 1)))
  }

  /** Whatever the segment, position 1 is labelled "School Details" and
      position 3 "Department Details"; elsewhere the label is the mapped
      name or the capitalised segment. */
  lemma CrumbLabels(pathname: string, i: nat)
    requires Crumbs(pathname).Some? && i < |Crumbs(pathname).value|
    ensures var name := Crumbs(pathname).value[i].displayName;
      var segment := PathSegments(pathname)[i];
      && (i == 1 ==> name == "School Details")
      && (i == 3 ==> name == "Department Details")
      && (i != 1 && i != 3 && segment == "schools" ==> name == "Schools")
      && (i != 1 && i != 3 && segment == "departments" ==> name == "Departments")
      && (i != 1 && i != 3 && segment != "schools" && segment != "departments" ==>
            name == Capitalize(segment))
  {
  }

  /** Consecutive crumbs: the next route is this route, `/`, and the next
      segment. */
  lemma CrumbRoutesExtend(pathname: string, i: nat)
    requires Crumbs(pathname).Some? && i + 1 < |Crumbs(pathname).value|
    ensures var crumbs := Crumbs(pathname).value;
      crumbs[i + 1].routeTo == crumbs[i].routeTo + "/" + PathSegments(pathname)[i + 1]
  {
    RouteExtends(PathSegments(pathname), i);
  }

  /** A path built from non-empty, slash-free segments splits back into
      exactly those segments. */
  lemma {:induction false} SegmentsOfRoute(segments: seq<string>)
    requires |segments| >= 1
    requires forall k :: 0 <= k < |segments| ==> segments[k] != "" && '/' !in segments[k]
    ensures PathSegments("/" + Join(segments, "/")) == segments
  {
    var joined := Join(segments, "/");
    var route := "/" + joined;
    assert route == "" + ['/'] + joined;
    SplitCons("", '/', joined);
    SplitJoin(segments, '/');
    var nonEmpty := (x: string) => x != "";
    assert Split(route, '/') == [""] + segments;
    assert ([""] + segments)[1..] == segments;
    assert Filter([""] + segments, nonEmpty) == Filter(segments, nonEmpty);
    FilterKeepsAll(segments, nonEmpty);
  }

  /** The last crumb's route is the normalised path: it has the same
      segments as the pathname, so normalising it again changes nothing and
      it renders the same trail. */
  lemma LastRouteNormalises(pathname: string)
    requires Crumbs(pathname).Some?
    ensures var crumbs := Crumbs(pathname).value;
      var route := crumbs[|crumbs| - 1].routeTo;
      && route == "/" + Join(PathSegments(pathname), "/")
      && PathSegments(route) == PathSegments(pathname)
      && Crumbs(route) == Crumbs(pathname)
  {
    var segments := PathSegments(pathname);
    assert segments[..|segments|] == segments;
    SegmentsOfRoute(segments);
  }
}
