/** Sorting, and sums over lists of reals that do not depend on their order. */
module SortedSums {
  import opened Blocks

  ghost predicate Sorted(s: seq<real>) {
    forall i, j :: 0 <= i < j < |s| ==> s[i] <= s[j]
  }

  ghost predicate SameElements(a: seq<real>, b: seq<real>) {
    multiset(a) == multiset(b)
  }

  function Insert(s: seq<real>, x: real): (r: seq<real>)
    requires Sorted(s)
    ensures Sorted(r) && multiset(r) == multiset(s) + multiset{x}
  {
    if |s| == 0 || s[|s| - 1] <= x then s + [x]
    else
      var n := |s| - 1;
      var r := Insert(s[..n], x);
      InsertedBelow(s, x, r);
      r + [s[n]]
  }

  lemma InsertedBelow(s: seq<real>, x: real, r: seq<real>)
    requires |s| > 0 && Sorted(s) && x <= s[|s| - 1]
    requires Sorted(r) && multiset(r) == multiset(s[..|s| - 1]) + multiset{x}
    ensures Sorted(r + [s[|s| - 1]]) && multiset(r + [s[|s| - 1]]) == multiset(s) + multiset{x}
  {
    var n := |s| - 1;
    BelowLast(s[..n], s[n], x, r);
    assert s == s[..n] + [s[n]];
  }

  lemma BelowLast(s: seq<real>, last: real, x: real, r: seq<real>)
    requires x <= last && (forall i :: 0 <= i < |s| ==> s[i] <= last) && multiset(r) == multiset(s) + multiset{x}
    ensures forall i :: 0 <= i < |r| ==> r[i] <= last
  {
    forall i | 0 <= i < |r| ensures r[i] <= last {
      assert r[i] in multiset(r);
      assert r[i] == x || r[i] in s;
    }
  }

  /** The ascending rearrangement that numpy's sort returns. */
  function Sort(s: seq<real>): (r: seq<real>)
    ensures Sorted(r) && SameElements(r, s) && |r| == |s|
  {
    if |s| == 0 then [] else
      var n := |s| - 1;
      assert s == s[..n] + [s[n]];
      var r := Insert(Sort(s[..n]), s[n]);
      assert |multiset(r)| == |r| && |multiset(s)| == |s|;
      r
  }

  // ------------------------------------------------------------------ sums

  /** f added over the elements of xs. */
  function SumOf(xs: seq<real>, f: real -> real): real {
    if |xs| == 0 then 0.0 else SumOf(xs[..|xs| - 1], f) + f(xs[|xs| - 1])
  }

  function Identity(): real -> real { x => x }

  function Square(): real -> real { x => x * x }

  /** The sum of the elements. */
  function Total(xs: seq<real>): real { SumOf(xs, Identity()) }

  lemma {:induction false} SumOfConcat(a: seq<real>, b: seq<real>, f: real -> real)
    ensures SumOf(a + b, f) == SumOf(a, f) + SumOf(b, f)
  {
    if |b| == 0 {
      assert a + b == a;
    } else {
      var n := |b| - 1;
      assert (a + b)[..|a + b| - 1] == a + b[..n];
      SumOfConcat(a, b[..n], f);
    }
  }

  lemma SumOfOne(x: real, f: real -> real)
    ensures SumOf([x], f) == f(x)
  {
    assert SumOf([x], f) == SumOf([x][..0], f) + f(x);
  }

  function WithoutAt(xs: seq<real>, i: nat): (r: seq<real>)
    requires i < |xs|
    ensures |r| == |xs| - 1
  {
    xs[..i] + xs[i + 1..]
  }

  lemma RemoveAt(xs: seq<real>, i: nat, f: real -> real)
    requires i < |xs|
    ensures multiset(xs) == multiset(WithoutAt(xs, i)) + multiset{xs[i]}
    ensures SumOf(xs, f) == SumOf(WithoutAt(xs, i), f) + f(xs[i])
  {
    CutAt(xs, i);
    AroundElement(xs[..i], xs[i], xs[i + 1..], f);
  }

  lemma AroundElement(front: seq<real>, v: real, back: seq<real>, f: real -> real)
    ensures multiset(front + [v] + back) == multiset(front + back) + multiset{v}
    ensures SumOf(front + [v] + back, f) == SumOf(front + back, f) + f(v)
  {
    SumOfConcat(front + [v], back, f);
    SumOfConcat(front, [v], f);
    SumOfConcat(front, back, f);
    SumOfOne(v, f);
  }

  lemma Cancel(a: multiset<real>, b: multiset<real>, x: real)
    ensures a + multiset{x} == b + multiset{x} ==> a == b
    ensures a + multiset{x} <= b + multiset{x} ==> a <= b
  {
    forall v ensures (a + multiset{x})[v] <= (b + multiset{x})[v] <==> a[v] <= b[v] {}
  }

  lemma SameSize(a: seq<real>, b: seq<real>)
    requires multiset(a) <= multiset(b)
    ensures |a| <= |b| && (SameElements(a, b) ==> |a| == |b|)
  {
    assert |multiset(a)| == |a| && |multiset(b)| == |b|;
    assert multiset(b) == multiset(a) + (multiset(b) - multiset(a));
  }

  /** A sum does not depend on the order of its terms. */
  lemma {:induction false} SumOfSame(a: seq<real>, b: seq<real>, f: real -> real)
    requires SameElements(a, b)
    ensures SumOf(a, f) == SumOf(b, f)
  {
    SameSize(a, b);
    if |a| == 0 {
    } else {
      var n := |a| - 1;
      assert a[n] in multiset(b);
      var i :| 0 <= i < |b| && b[i] == a[n];
      RemoveAt(b, i, f);
      RemoveAt(a, n, f);
      assert WithoutAt(a, n) == a[..n];
      Cancel(multiset(a[..n]), multiset(WithoutAt(b, i)), a[n]);
      SumOfSame(a[..n], WithoutAt(b, i), f);
    }
  }

  lemma {:induction false} SumOfNonNegative(xs: seq<real>, f: real -> real)
    requires forall i :: 0 <= i < |xs| ==> f(xs[i]) >= 0.0
    ensures SumOf(xs, f) >= 0.0
  {
    if |xs| == 0 {
    } else {
      SumOfNonNegative(xs[..|xs| - 1], f);
    }
  }

  /** Running sums, as numpy's cumsum returns them. */
  function CumSum(xs: seq<real>, f: real -> real): (c: seq<real>)
    ensures |c| == |xs|
    ensures forall k :: 0 <= k < |xs| ==> c[k] == SumOf(xs[..k + 1], f)
  {
    if |xs| == 0 then [] else
      var n := |xs| - 1;
      var before := CumSum(xs[..n], f);
      CumSumStep(xs, f, before);
      before + [(if n == 0 then 0.0 else before[n - 1]) + f(xs[n])]
  }

  lemma CumSumStep(xs: seq<real>, f: real -> real, before: seq<real>)
    requires |xs| > 0 && |before| == |xs| - 1
    requires forall k :: 0 <= k < |before| ==> before[k] == SumOf(xs[..|xs| - 1][..k + 1], f)
    ensures forall k :: 0 <= k < |before| ==> before[k] == SumOf(xs[..k + 1], f)
    ensures SumOf(xs[..|xs|], f) == (if |xs| == 1 then 0.0 else before[|xs| - 2]) + f(xs[|xs| - 1])
  {
    var n := |xs| - 1;
    forall k | 0 <= k < n ensures before[k] == SumOf(xs[..k + 1], f) {
      assert xs[..n][..k + 1] == xs[..k + 1];
    }
    assert xs[..|xs|] == xs;
  }
}
