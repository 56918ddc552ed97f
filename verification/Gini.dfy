/** The sorted Gini formulas and the pairwise definition they compute. */
module Gini {
  import opened RealArithmetic
  import opened SortedSums

  /** The values weighted by 2i - n - 1, i their one-based position. */
  function RankSum(x: seq<real>, n: nat): real {
    if |x| == 0 then 0.0
    else RankSum(x[..|x| - 1], n) + Times(2 * |x| - n - 1, x[|x| - 1])
  }

  /** The values weighted by their one-based position. */
  function IndexSum(x: seq<real>): real {
    if |x| == 0 then 0.0 else IndexSum(x[..|x| - 1]) + |x| as real * x[|x| - 1]
  }

  /** r over n values with total t. */
  function Normalised(r: real, n: nat, t: real): real
    requires n > 0 && t > 0.0
  {
    r / (n as real * t)
  }

  /** The in-degree Gini of an area. */
  function GiniOf(values: seq<real>): real {
    var x := Sort(values);
    if Total(x) <= 0.0 then 0.0 else Normalised(RankSum(x, |x|), |x|, Total(x))
  }

  function PlacementForm(i: real, n: nat, t: real): real
    requires n > 0 && t > 0.0
  {
    2.0 * i / (n as real * t) - (n as real + 1.0) / n as real
  }

  /** The occupancy Gini of a placement, written differently. */
  function PlacementGini(values: seq<real>): real
    requires Total(values) > 0.0
  {
    PlacementForm(IndexSum(Sort(values)), |values|, Total(values))
  }

  /** k times t, kept as a name so that equal totals give equal products. */
  function Times(k: int, t: real): real { k as real * t }

  // ------------------------------------------------------------------ the pairwise definition

  function AbsDiff(a: real): real -> real { b => if a <= b then b - a else a - b }

  /** Sum of the distances from a to the values. */
  function Spread(x: seq<real>): real -> real { a => SumOf(x, AbsDiff(a)) }

  /** Sum of |a - b| over all ordered pairs of values. */
  function PairSum(x: seq<real>): real { SumOf(x, Spread(x)) }

  /** The mean absolute difference over twice the mean. */
  function PairwiseGini(values: seq<real>): real
    requires Total(values) > 0.0
  {
    PairForm(PairSum(values), |values|, Total(values))
  }

  function PairForm(p: real, n: nat, t: real): real
    requires n > 0 && t > 0.0
  {
    p / (2.0 * n as real * t)
  }

  lemma {:induction false} SumOfEqual(x: seq<real>, f: real -> real, g: real -> real)
    requires forall i :: 0 <= i < |x| ==> f(x[i]) == g(x[i])
    ensures SumOf(x, f) == SumOf(x, g)
  {
    if |x| == 0 {
    } else {
      SumOfEqual(x[..|x| - 1], f, g);
    }
  }

  lemma {:induction false} SumOfSumOf(x: seq<real>, f: real -> real, g: real -> real, h: real -> real)
    requires forall i :: 0 <= i < |x| ==> h(x[i]) == f(x[i]) + g(x[i])
    ensures SumOf(x, h) == SumOf(x, f) + SumOf(x, g)
  {
    if |x| == 0 {
    } else {
      SumOfSumOf(x[..|x| - 1], f, g, h);
    }
  }

  /** The pair sum does not depend on the order of the values. */
  lemma PairSumOfSame(a: seq<real>, b: seq<real>)
    requires SameElements(a, b)
    ensures PairSum(a) == PairSum(b)
  {
    forall i | 0 <= i < |a| ensures Spread(a)(a[i]) == Spread(b)(a[i]) {
      SumOfSame(a, b, AbsDiff(a[i]));
    }
    SumOfEqual(a, Spread(a), Spread(b));
    SumOfSame(a, b, Spread(b));
  }

  /** Distances from a value to smaller ones. */
  lemma {:induction false} SpreadOfLargest(p: seq<real>, y: real)
    requires forall i :: 0 <= i < |p| ==> p[i] <= y
    ensures SumOf(p, AbsDiff(y)) == Times(|p|, y) - Total(p)
  {
    if |p| == 0 {
    } else {
      var n := |p| - 1;
      SpreadOfLargest(p[..n], y);
      assert |p| as real * y == n as real * y + y;
    }
  }

  /** Adding a largest value adds its distances twice. */
  lemma PairSumGrows(p: seq<real>, y: real)
    requires forall i :: 0 <= i < |p| ==> p[i] <= y
    ensures PairSum(p + [y]) == PairSum(p) + 2.0 * (Times(|p|, y) - Total(p))
  {
    var x := p + [y];
    SumOfConcat(p, [y], Spread(x));
    SumOfOne(y, Spread(x));
    forall i | 0 <= i < |p| ensures Spread(x)(p[i]) == Spread(p)(p[i]) + AbsDiff(y)(p[i]) {
      SumOfConcat(p, [y], AbsDiff(p[i]));
      SumOfOne(y, AbsDiff(p[i]));
    }
    SumOfSumOf(p, Spread(p), AbsDiff(y), Spread(x));
    SumOfConcat(p, [y], AbsDiff(y));
    SumOfOne(y, AbsDiff(y));
    SpreadOfLargest(p, y);
  }

  lemma {:induction false} RankSumShifts(x: seq<real>, n: nat)
    ensures RankSum(x, n + 1) == RankSum(x, n) - Total(x)
  {
    if |x| == 0 {
    } else {
      var m, y := |x| - 1, x[|x| - 1];
      RankSumShifts(x[..m], n);
      var c := (2 * |x| - n - 1) as real;
      assert (2 * |x| - (n + 1) - 1) as real == c - 1.0;
      assert (c - 1.0) * y == c * y - y;
    }
  }

  /** On sorted values the rank-weighted sum is half the pair sum. */
  lemma {:induction false} RankSumIsHalfPairSum(x: seq<real>)
    requires Sorted(x)
    ensures PairSum(x) == 2.0 * RankSum(x, |x|)
  {
    if |x| == 0 {
    } else {
      var p, y := x[..|x| - 1], x[|x| - 1];
      assert x == p + [y];
      RankSumIsHalfPairSum(p);
      PairSumGrows(p, y);
      RankSumGrows(p, y);
    }
  }

  /** Appending a value to n others adds n times it and takes off their total. */
  lemma RankSumGrows(p: seq<real>, y: real)
    ensures RankSum(p + [y], |p| + 1) == RankSum(p, |p|) + (Times(|p|, y) - Total(p))
  {
    RankSumShifts(p, |p|);
    LastRank(p, y);
  }

  lemma LastRank(p: seq<real>, y: real)
    ensures RankSum(p + [y], |p| + 1) == RankSum(p, |p| + 1) + Times(|p|, y)
  {
    var q := p + [y];
    assert q[..|q| - 1] == p && q[|q| - 1] == y;
  }

  /** The sorted formula is the pairwise Gini, and 0 where there is nothing to share out. */
  lemma GiniIsPairwise(values: seq<real>)
    ensures GiniOf(values) == if Total(values) > 0.0 then PairwiseGini(values) else 0.0
  {
    var x := Sort(values);
    SumOfSame(x, values, Identity());
    if Total(values) > 0.0 {
      PairSumOfSame(x, values);
      RankSumIsHalfPairSum(x);
      HalfQuotient(RankSum(x, |values|), |values|, Total(values), PairSum(values));
    }
  }

  lemma GiniForm(values: seq<real>)
    requires Total(values) > 0.0
    ensures GiniOf(values) == Normalised(RankSum(Sort(values), |values|), |values|, Total(values))
  {
    SumOfSame(Sort(values), values, Identity());
  }

  lemma HalfQuotient(r: real, n: nat, t: real, p: real)
    requires p == 2.0 * r && n > 0 && t > 0.0
    ensures Normalised(r, n, t) == PairForm(p, n, t)
  {
    var d := n as real * t;
    assert 2.0 * n as real * t == 2.0 * d;
    assert 2.0 * r / (2.0 * d) == r / d;
  }

  /** The two programs agree. */
  lemma PlacementGiniAgrees(values: seq<real>)
    requires Total(values) > 0.0
    ensures PlacementGini(values) == GiniOf(values)
  {
    var x := Sort(values);
    GiniForm(values);
    SumOfSame(x, values, Identity());
    RankByIndex(x, |values|);
    SameQuotient(RankSum(x, |values|), IndexSum(x), |values|, Total(values));
  }

  lemma {:induction false} RankByIndex(x: seq<real>, n: nat)
    ensures RankSum(x, n) == 2.0 * IndexSum(x) - Times(n + 1, Total(x))
  {
    if |x| == 0 {
    } else {
      var y, m := x[|x| - 1], |x| as real;
      RankByIndex(x[..|x| - 1], n);
      assert (2 * |x| - n - 1) as real == 2.0 * m - (n as real + 1.0);
      assert (2.0 * m - (n as real + 1.0)) * y == 2.0 * (m * y) - (n as real + 1.0) * y;
      assert (n as real + 1.0) * (Total(x[..|x| - 1]) + y)
          == (n as real + 1.0) * Total(x[..|x| - 1]) + (n as real + 1.0) * y;
    }
  }

  lemma SameQuotient(r: real, i: real, n: nat, t: real)
    requires n > 0 && t > 0.0 && r == 2.0 * i - Times(n + 1, t)
    ensures Normalised(r, n, t) == PlacementForm(i, n, t)
  {
    var m := n as real;
    var d, c := m * t, (m + 1.0) / m;
    assert c * m == m + 1.0;
    assert c * d == (m + 1.0) * t;
    assert r / d == 2.0 * i / d - c by {
      assert 2.0 * i / d * d == 2.0 * i;
      assert (2.0 * i / d - c) * d == r;
    }
  }

  // ------------------------------------------------------------------ bounds

  lemma {:induction false} RankSumBound(x: seq<real>, n: nat)
    requires |x| <= n && forall i :: 0 <= i < |x| ==> x[i] >= 0.0
    ensures RankSum(x, n) <= Times(n - 1, Total(x))
  {
    if |x| == 0 {
    } else {
      var y := x[|x| - 1];
      RankSumBound(x[..|x| - 1], n);
      TimesMonotone(2 * |x| - n - 1, n - 1, y);
      TimesAdd(n - 1, Total(x[..|x| - 1]), y);
    }
  }

  lemma TimesMonotone(a: int, b: int, y: real)
    requires a <= b && y >= 0.0
    ensures Times(a, y) <= Times(b, y)
  {
    var gap := (b - a) as real;
    assert gap * y >= 0.0;
    assert gap * y == b as real * y - a as real * y;
  }

  lemma TimesAdd(k: int, s: real, y: real)
    ensures Times(k, s + y) == Times(k, s) + Times(k, y)
  {}

  lemma PairSumNonNegative(x: seq<real>)
    ensures PairSum(x) >= 0.0
  {
    forall i | 0 <= i < |x| ensures Spread(x)(x[i]) >= 0.0 {
      SumOfNonNegative(x, AbsDiff(x[i]));
    }
    SumOfNonNegative(x, Spread(x));
  }

  /** The largest Gini n values can have: everything in one place. */
  function Concentrated(n: nat): real
    requires n > 0
  {
    1.0 - 1.0 / n as real
  }

  /** For nonnegative values the Gini lies between 0 and 1 - 1/n. */
  lemma GiniBounds(values: seq<real>)
    requires |values| > 0 && forall i :: 0 <= i < |values| ==> values[i] >= 0.0
    ensures 0.0 <= GiniOf(values) <= Concentrated(|values|)
  {
    SumOfSame(Sort(values), values, Identity());
    if Total(values) > 0.0 {
      RankSumRange(values);
      QuotientBounds(RankSum(Sort(values), |values|), |values|, Total(values));
    } else {
      QuotientAtMost(1.0, 1.0, |values| as real);
    }
  }

  lemma RankSumRange(values: seq<real>)
    requires forall i :: 0 <= i < |values| ==> values[i] >= 0.0
    ensures 0.0 <= RankSum(Sort(values), |values|) <= Times(|values| - 1, Total(values))
  {
    var x := Sort(values);
    SumOfSame(x, values, Identity());
    forall i | 0 <= i < |x| ensures x[i] >= 0.0 {
      assert x[i] in multiset(values);
    }
    PairSumNonNegative(x);
    RankSumIsHalfPairSum(x);
    RankSumBound(x, |values|);
  }

  lemma QuotientBounds(r: real, n: nat, t: real)
    requires n > 0 && t > 0.0 && 0.0 <= r <= Times(n - 1, t)
    ensures 0.0 <= Normalised(r, n, t) <= Concentrated(n)
  {
    var m, d, c := n as real, n as real * t, Concentrated(n);
    assert 1.0 / m * m == 1.0;
    assert 1.0 / m * d == 1.0 / m * m * t == t;
    assert c * d == d - 1.0 / m * d;
    assert Times(n - 1, t) == m * t - t;
    QuotientAtMost(r, c, d);
    QuotientAtLeast(r, d);
  }
}
