// A filter on sequences, as `SELECT`/`DELETE ... WHERE` use it, its laws, and subsequences.

module Sequences {

  /** The elements that satisfy p, in order. */
  function Filter<T(!new)>(s: seq<T>, p: T -> bool): (r: seq<T>)
    ensures |r| <= |s|
    ensures forall x :: x in r <==> x in s && p(x)
  {
    if s == [] then []
    else
      var r := Filter(s[..|s| - 1], p);
      assert s == s[..|s| - 1] + [s[|s| - 1]];
      if p(s[|s| - 1]) then r + [s[|s| - 1]] else r
  }

  lemma {:induction false} FilterAppend<T(!new)>(a: seq<T>, b: seq<T>, p: T -> bool)
    ensures Filter(a + b, p) == Filter(a, p) + Filter(b, p)
  {
    if b == [] {
      assert a + b == a;
    } else {
      var n := |b| - 1;
      assert (a + b)[..|a + b| - 1] == a + b[..n];
      FilterAppend(a, b[..n], p);
    }
  }

  lemma {:induction false} FilterAll<T(!new)>(s: seq<T>, p: T -> bool)
    requires forall x :: x in s ==> p(x)
    ensures Filter(s, p) == s
  {
    if s != [] {
      assert s[|s| - 1] in s;
      FilterAll(s[..|s| - 1], p);
    }
  }

  lemma {:induction false} FilterNone<T(!new)>(s: seq<T>, p: T -> bool)
    requires forall x :: x in s ==> !p(x)
    ensures Filter(s, p) == []
  {
    if s != [] {
      assert s[|s| - 1] in s;
      FilterNone(s[..|s| - 1], p);
    }
  }

  /** A filter keeps every relation that holds between all earlier and later elements. */
  lemma {:induction false} FilterKeepsOrder<T(!new)>(s: seq<T>, p: T -> bool, before: (T, T) -> bool)
    requires forall i, j :: 0 <= i < j < |s| ==> before(s[i], s[j])
    ensures forall i, j :: 0 <= i < j < |Filter(s, p)| ==> before(Filter(s, p)[i], Filter(s, p)[j])
  {
    if s != [] {
      var n := |s| - 1;
      FilterKeepsOrder(s[..n], p, before);
      var r := Filter(s[..n], p);
      forall i | 0 <= i < |r|
        ensures before(r[i], s[n])
      {
        assert r[i] in s[..n];
        var k :| 0 <= k < n && s[..n][k] == r[i];
      }
    }
  }

  /** Filtering by a weaker condition first makes no difference. */
  lemma {:induction false} FilterWeakerFirst<T(!new)>(s: seq<T>, p: T -> bool, q: T -> bool)
    requires forall x :: x in s && q(x) ==> p(x)
    ensures Filter(Filter(s, p), q) == Filter(s, q)
  {
    if s != [] {
      var n := |s| - 1;
      assert s[n] in s && forall x :: x in s[..n] ==> x in s;
      FilterWeakerFirst(s[..n], p, q);
      var r := Filter(s[..n], p);
      assert (r + [s[n]])[..|r|] == r;
    }
  }

  /** The elements of `a` are elements of `b`, in the same order. */
  ghost predicate Subsequence<T>(a: seq<T>, b: seq<T>)
    decreases |b|
  {
    || a == []
    || (b != []
        && var n, m := |b| - 1, |a| - 1;
           Subsequence(a, b[..n]) || (a[m] == b[n] && Subsequence(a[..m], b[..n])))
  }

  lemma {:induction false} SubsequenceAppend<T>(a: seq<T>, b: seq<T>, more: seq<T>)
    requires Subsequence(a, b)
    ensures Subsequence(a + more, b + more)
  {
    if more == [] {
      assert a + more == a && b + more == b;
    } else {
      var n := |more| - 1;
      SubsequenceAppend(a, b, more[..n]);
      assert (a + more)[..|a + more| - 1] == a + more[..n] && (b + more)[..|b + more| - 1] == b + more[..n];
    }
  }

  lemma {:induction false} SubsequenceFilter<T(!new)>(a: seq<T>, b: seq<T>, p: T -> bool)
    requires Subsequence(a, b)
    ensures Subsequence(Filter(a, p), b)
    decreases |b|
  {
    if a != [] {
      var n, m := |b| - 1, |a| - 1;
      if Subsequence(a, b[..n]) {
        SubsequenceFilter(a, b[..n], p);
      } else {
        SubsequenceFilter(a[..m], b[..n], p);
        var kept := Filter(a[..m], p);
        assert p(a[m]) ==> (kept + [a[m]])[..|kept|] == kept;
      }
    }
  }

  lemma {:induction false} SubsequencePair<T>(a: seq<T>, b: seq<T>, l: nat, m: nat) returns (j: nat, k: nat)
    requires Subsequence(a, b) && l < m < |a|
    ensures j < k < |b| && b[j] == a[l] && b[k] == a[m]
    decreases |b|
  {
    var n := |b| - 1;
    if Subsequence(a, b[..n]) {
      j, k := SubsequencePair(a, b[..n], l, m);
    } else if m < |a| - 1 {
      j, k := SubsequencePair(a[..|a| - 1], b[..n], l, m);
    } else {
      j := SubsequenceAt(a[..m], b[..n], l);
      k := n;
    }
  }

  lemma {:induction false} SubsequenceAt<T>(a: seq<T>, b: seq<T>, l: nat) returns (j: nat)
    requires Subsequence(a, b) && l < |a|
    ensures j < |b| && b[j] == a[l]
    decreases |b|
  {
    var n := |b| - 1;
    if Subsequence(a, b[..n]) {
      j := SubsequenceAt(a, b[..n], l);
    } else if l < |a| - 1 {
      j := SubsequenceAt(a[..|a| - 1], b[..n], l);
    } else {
      j := n;
    }
  }
}
