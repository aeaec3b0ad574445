/** The array operations the pages use (`filter`, `find`, `slice(0, n)`,
    `Math.max(...xs)`), as functions on sequences. */
module Seqs {
  import opened Wrappers

  /** `a` can be obtained from `b` by deleting elements: it keeps `b`'s order. */
  predicate IsSubsequence<T(==)>(a: seq<T>, b: seq<T>)
    decreases |b|
  {
    if a == [] then true
    else if b == [] then false
    else if a[0] == b[0] then IsSubsequence(a[1..], b[1..])
    else IsSubsequence(a, b[1..])
  }

  /** A prefix of a subsequence is still a subsequence. */
  lemma {:induction false} PrefixIsSubsequence<T>(a: seq<T>, b: seq<T>, n: nat)
    requires n <= |a| && IsSubsequence(a, b)
    ensures IsSubsequence(a[..n], b)
    decreases |b|
  {
    if n > 0 {
      assert b != [];
      if a[0] == b[0] {
        PrefixIsSubsequence(a[1..], b[1..], n - 1);
        assert a[..n][1..] == a[1..][..n - 1];
      } else {
        PrefixIsSubsequence(a, b[1..], n);
      }
    }
  }

  /** `Array.prototype.filter`: the elements of `xs` that satisfy `p`, in order. */
  function Filter<T(==)>(xs: seq<T>, p: T -> bool): (r: seq<T>)
    ensures |r| <= |xs|
    ensures forall k :: 0 <= k < |r| ==> r[k] in xs && p(r[k])
    ensures forall k :: 0 <= k < |xs| && p(xs[k]) ==> xs[k] in r
    ensures IsSubsequence(r, xs)
  {
    if xs == [] then []
    else if p(xs[0]) then [xs[0]] + Filter(xs[1..], p)
    else Filter(xs[1..], p)
  }

  /** `Filter` keeps every copy of an element that passes and none of one
      that fails: multiplicities, not just membership, are preserved. */
  lemma {:induction false} FilterCounts<T(!new)>(xs: seq<T>, p: T -> bool)
    ensures forall x :: multiset(Filter(xs, p))[x] == if p(x) then multiset(xs)[x] else 0
  {
    if xs != [] {
      FilterCounts(xs[1..], p);
      assert xs == [xs[0]] + xs[1..];
    }
  }

  /** Filtering a concatenation filters each part. */
  lemma {:induction false} FilterAppend<T(!new)>(a: seq<T>, b: seq<T>, p: T -> bool)
    ensures Filter(a + b, p) == Filter(a, p) + Filter(b, p)
  {
    if a == [] {
      assert a + b == b;
    } else {
      var c := a + b;
      assert c != [] && c[0] == a[0] && c[1..] == a[1..] + b;
      FilterAppend(a[1..], b, p);
    }
  }

  /** Filtering the elements up to and including a candidate `xs[i]` ends
      with that candidate; everything it holds comes from that front part. */
  lemma FilterUpTo<T(!new)>(xs: seq<T>, p: T -> bool, i: nat)
    requires i < |xs| && p(xs[i])
    ensures var f := Filter(xs[..i + 1], p);
      |f| >= 1 && f[|f| - 1] == xs[i] && f <= Filter(xs, p)
  {
    var front, back := xs[..i + 1], xs[i + 1..];
    assert xs == front + back;
    FilterAppend(front, back, p);
    assert front == xs[..i] + [xs[i]];
    FilterAppend(xs[..i], [xs[i]], p);
    assert Filter([xs[i]], p) == [xs[i]] by {
      assert [xs[i]][1..] == [];
    }
  }

  /** Two prefixes of one sequence: if `t` holds an element that the prefix
      `f` lacks, `t` is the longer and holds `f`'s last element. */
  lemma LongerPrefix<T>(whole: seq<T>, f: seq<T>, t: seq<T>, y: T)
    requires f <= whole && t <= whole && |f| >= 1
    requires y in t && y !in f
    ensures f[|f| - 1] in t
  {
    if |t| < |f| {
      assert false;
    } else {
      assert t[|f| - 1] == f[|f| - 1];
    }
  }

  /** Among distinct elements, `Filter(xs, p)[..n]` skips no candidate: when
      it holds `xs[j]`, it holds every earlier `xs[i]` that satisfies `p`. */
  lemma FilterPrefixSkipsNothing<T(!new)>(xs: seq<T>, p: T -> bool, n: nat, i: nat, j: nat)
    requires forall a, b :: 0 <= a < b < |xs| ==> xs[a] != xs[b]
    requires i < j < |xs| && p(xs[i])
    requires xs[j] in Take(Filter(xs, p), n)
    ensures xs[i] in Take(Filter(xs, p), n)
  {
    FilterUpTo(xs, p, i);
    var front := xs[..i + 1];
    forall a | 0 <= a < |front|
      ensures front[a] != xs[j]
    {
      assert front[a] == xs[a];
    }
    LongerPrefix(Filter(xs, p), Filter(front, p), Take(Filter(xs, p), n), xs[j]);
  }

  /** Every element satisfying `p` is kept: filtering loses nothing that passes. */
  lemma {:induction false} FilterKeepsAll<T(!new)>(xs: seq<T>, p: T -> bool)
    requires forall k :: 0 <= k < |xs| ==> p(xs[k])
    ensures Filter(xs, p) == xs
  {
    if xs != [] {
      FilterKeepsAll(xs[1..], p);
    }
  }

  /** The index `Array.prototype.find` stops at: the first element that satisfies `p`. */
  function FindFirst<T>(xs: seq<T>, p: T -> bool): (r: Option<nat>)
    ensures r.Some? ==> r.value < |xs| && p(xs[r.value])
    ensures r.Some? ==> forall j :: 0 <= j < r.value ==> !p(xs[j])
    ensures r.None? <==> forall j :: 0 <= j < |xs| ==> !p(xs[j])
  {
    if xs == [] then None
    else if p(xs[0]) then Some(0)
    else match FindFirst(xs[1..], p)
      case None => None
      case Some(i) => Some(i + 1)
  }

  /** `Array.prototype.find`: the first element satisfying `p`, if any. */
  function Find<T>(xs: seq<T>, p: T -> bool): (r: Option<T>)
    ensures r.Some? <==> exists j :: 0 <= j < |xs| && p(xs[j])
    ensures r.Some? ==> p(r.value) && r.value in xs
    ensures r.Some? ==>
      exists j :: 0 <= j < |xs| && r.value == xs[j] && p(xs[j]) && forall i :: 0 <= i < j ==> !p(xs[i])
  {
    match FindFirst(xs, p)
    case None => None
    case Some(i) => Some(xs[i])
  }

  /** `xs.slice(0, n)`: at most the first `n` elements. */
  function Take<T>(xs: seq<T>, n: nat): (r: seq<T>)
    ensures |r| == if |xs| < n then |xs| else n
    ensures r == xs[..|r|]
  {
    if |xs| < n then xs else xs[..n]
  }

  /** `Math.max(...xs)` for a non-empty list of counts. */
  function Max(xs: seq<int>): (m: int)
    requires |xs| > 0
    ensures m in xs
    ensures forall k :: 0 <= k < |xs| ==> xs[k] <= m
  {
    if |xs| == 1 then xs[0]
    else
      var rest := Max(xs[1..]);
      if xs[0] >= rest then xs[0] else rest
  }
}
