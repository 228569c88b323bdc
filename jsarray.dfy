/** The JavaScript array operations the client uses over its lists:
    `filter`, `find`, `reduce` for a sum, and `slice(0, n)`. */
module JsArray {
  import opened Types

  /** `s.filter(p)`: the elements satisfying `p`, in their original order. */
  function Filter<T(==)>(s: seq<T>, p: T -> bool): (r: seq<T>)
    ensures |r| <= |s|
    ensures forall i :: 0 <= i < |r| ==> r[i] in s && p(r[i])
    ensures forall i :: 0 <= i < |s| && p(s[i]) ==> s[i] in r
    decreases |s|
  {
    if s == [] then []
    else (if p(s[0]) then [s[0]] else []) + Filter(s[1..], p)
  }

  /** Filtering a concatenation filters each part: the order of the kept
      elements is the order in `s`. */
  lemma {:induction false} FilterAppend<T>(a: seq<T>, b: seq<T>, p: T -> bool)
    ensures Filter(a + b, p) == Filter(a, p) + Filter(b, p)
    decreases |a|
  {
    if a == [] {
      assert a + b == b;
    } else {
      assert (a + b)[1..] == a[1..] + b;
      FilterAppend(a[1..], b, p);
    }
  }

  /** Filtering twice is filtering once by the conjunction. */
  lemma {:induction false} FilterTwice<T>(s: seq<T>, p: T -> bool, q: T -> bool, both: T -> bool)
    requires forall x :: both(x) == (p(x) && q(x))
    ensures Filter(Filter(s, p), q) == Filter(s, both)
    decreases |s|
  {
    if s != [] {
      FilterTwice(s[1..], p, q, both);
      var kept := Filter(s, p);
      if p(s[0]) {
        assert kept == [s[0]] + Filter(s[1..], p);
        assert kept != [] && kept[0] == s[0] && kept[1..] == Filter(s[1..], p);
      } else {
        assert kept == Filter(s[1..], p);
      }
    }
  }

  /** Each element kept by the filter is kept as often as it occurs. */
  lemma {:induction false} FilterMultiplicity<T>(s: seq<T>, p: T -> bool, x: T)
    ensures multiset(Filter(s, p))[x] == if p(x) then multiset(s)[x] else 0
    decreases |s|
  {
    if s != [] {
      FilterMultiplicity(s[1..], p, x);
      assert s == [s[0]] + s[1..];
      assert multiset(s) == multiset([s[0]]) + multiset(s[1..]);
    }
  }

  /** `s.find(p)`: the first element satisfying `p`, or nothing. */
  function Find<T(==)>(s: seq<T>, p: T -> bool): (r: Option<T>)
    ensures r.None? <==> forall i :: 0 <= i < |s| ==> !p(s[i])
    ensures r.Some? ==> r.value in s && p(r.value)
    ensures r.Some? ==> exists i :: 0 <= i < |s| && s[i] == r.value && forall j :: 0 <= j < i ==> !p(s[j])
    decreases |s|
  {
    if s == [] then None
    else if p(s[0]) then Some(s[0])
    else
      var r := Find(s[1..], p);
      assert r.Some? ==> exists i :: 0 <= i < |s[1..]| && s[1..][i] == r.value && forall j :: 0 <= j < i ==> !p(s[1..][j]);
      assert r.Some? ==> exists i :: 1 <= i < |s| && s[i] == r.value && forall j :: 0 <= j < i ==> !p(s[j]) by {
        if r.Some? {
          var i :| 0 <= i < |s[1..]| && s[1..][i] == r.value && forall j :: 0 <= j < i ==> !p(s[1..][j]);
          assert s[i + 1] == r.value;
          assert forall j :: 0 <= j < i + 1 ==> !p(s[j]) by {
            forall j | 0 <= j < i + 1 ensures !p(s[j]) {
              if j > 0 { assert s[j] == s[1..][j - 1]; }
            }
          }
        }
      }
      r
  }

  /** `s.reduce((sum, x) => sum + f(x), 0)`, folding from the left. */
  function SumOf<T>(s: seq<T>, f: T -> int): int
    decreases |s|
  {
    if s == [] then 0 else SumOf(s[..|s| - 1], f) + f(s[|s| - 1])
  }

  /** The sum over a concatenation is the sum of the sums. */
  lemma {:induction false} SumOfAppend<T>(a: seq<T>, b: seq<T>, f: T -> int)
    ensures SumOf(a + b, f) == SumOf(a, f) + SumOf(b, f)
    decreases |b|
  {
    if b == [] {
      assert a + b == a;
    } else {
      assert (a + b)[..|a + b| - 1] == a + b[..|b| - 1];
      SumOfAppend(a, b[..|b| - 1], f);
    }
  }

  /** A sum of non-negative terms is non-negative and bounds each term. */
  lemma {:induction false} SumOfNonNegative<T>(s: seq<T>, f: T -> int)
    requires forall i :: 0 <= i < |s| ==> f(s[i]) >= 0
    ensures SumOf(s, f) >= 0
    ensures forall i :: 0 <= i < |s| ==> f(s[i]) <= SumOf(s, f)
    decreases |s|
  {
    if s != [] {
      SumOfNonNegative(s[..|s| - 1], f);
      forall i | 0 <= i < |s| - 1 ensures f(s[i]) <= SumOf(s, f) {
        assert s[..|s| - 1][i] == s[i];
      }
    }
  }

  /** `s.slice(0, n)`: the first `n` elements, or all of them when fewer. */
  function Take<T>(s: seq<T>, n: nat): (r: seq<T>)
    ensures |r| == if |s| < n then |s| else n
    ensures r == s[..|r|]
  {
    if |s| <= n then s else s[..n]
  }
}
