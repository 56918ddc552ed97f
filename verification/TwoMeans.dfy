/** Exact one-dimensional 2-means: the best sorted split is the best of all 2-partitions. */
module TwoMeans {
  import opened Extremes
  import opened RealArithmetic
  import opened SortedSums

  /** (x - c)^2. */
  function SqDist(c: real): real -> real { x => (x - c) * (x - c) }

  function Mean(xs: seq<real>): real
    requires |xs| > 0
  {
    Total(xs) / |xs| as real
  }

  /** Sum of squared distances to the mean. */
  function SumSquares(xs: seq<real>): real {
    if |xs| == 0 then 0.0 else SumOf(xs, SqDist(Mean(xs)))
  }

  /** Sum of squares about the mean, of n values with sum s and sum of squares q. */
  function AboutMean(q: real, s: real, n: nat): real
    requires n > 0
  {
    q - s * s / n as real
  }

  /** Sum of squares about c, of n values with sum s and sum of squares q. */
  function About(c: real, q: real, s: real, n: nat): real {
    q - 2.0 * c * s + n as real * (c * c)
  }

  // ------------------------------------------------------------------ the statistic

  /** The within-cluster sum of squares of the split after i of the sorted values, by prefix sums. */
  function SplitCost(c1: seq<real>, c2: seq<real>, i: nat): real
    requires |c1| == |c2| && 0 < i < |c1|
  {
    var m := |c1|;
    var s1, q1 := c1[i - 1], c2[i - 1];
    var s2, q2 := c1[m - 1] - s1, c2[m - 1] - q1;
    AboutMean(q1, s1, i) + AboutMean(q2, s2, m - i)
  }

  /** The costs of the splits after 1 .. |x| - 1 of the values x, by their running sums. */
  function SplitCosts(x: seq<real>): (costs: seq<real>)
    requires |x| > 0
    ensures |costs| == |x| - 1
  {
    var c1, c2 := CumSum(x, Identity()), CumSum(x, Square());
    seq(|x| - 1, k requires 0 <= k < |x| - 1 => SplitCost(c1, c2, k + 1))
  }

  /** The least cost over all sorted split points. */
  function BestSplit(e: seq<real>): real
    requires |e| >= 2
  {
    MinOf(SplitCosts(Sort(e)))
  }

  /** The separation statistic T. */
  function TwoMeansT(e: seq<real>): real {
    var x := Sort(e);
    var total := SumSquares(x);
    if |x| < 4 || total <= 0.0 then 0.0
    else 1.0 - BestSplit(e) / total
  }

  // ------------------------------------------------------------------ sums of squares

  lemma {:induction false} SumSqDist(xs: seq<real>, c: real)
    ensures SumOf(xs, SqDist(c)) == About(c, SumOf(xs, Square()), Total(xs), |xs|)
  {
    if |xs| > 0 {
      var n, x := |xs| - 1, xs[|xs| - 1];
      SumSqDist(xs[..n], c);
      OneMore(c, SumOf(xs[..n], Square()), Total(xs[..n]), n, x, SumOf(xs, Square()), Total(xs), SqDist(c)(x));
    } else {
      assert About(c, 0.0, 0.0, 0) == 0.0;
    }
  }

  lemma OneMore(c: real, q: real, s: real, n: nat, x: real, q': real, s': real, d: real)
    requires q' == q + x * x && s' == s + x && d == (x - c) * (x - c)
    ensures About(c, q', s', n + 1) == About(c, q, s, n) + d
  {
    assert 2.0 * c * (s + x) == 2.0 * c * s + 2.0 * c * x;
    assert (n as real + 1.0) * (c * c) == n as real * (c * c) + c * c;
    assert (x - c) * (x - c) == x * x - 2.0 * c * x + c * c;
  }

  /** Sum of squares by prefix sums: Q - S^2 / n. */
  lemma SumSquaresByMoments(xs: seq<real>)
    requires |xs| > 0
    ensures SumSquares(xs) == AboutMean(SumOf(xs, Square()), Total(xs), |xs|)
  {
    SumSqDist(xs, Mean(xs));
    Moments(SumOf(xs, Square()), Total(xs), |xs|, Mean(xs));
  }

  lemma Moments(q: real, s: real, n: nat, c: real)
    requires n > 0 && c == s / n as real
    ensures About(c, q, s, n) == AboutMean(q, s, n)
  {
    var m := n as real;
    assert m * c == s;
    assert m * (c * c) == s * c;
    assert s * s / m == s * c;
  }

  /** The mean minimises the sum of squared distances, and nothing else does. */
  lemma MeanIsBest(xs: seq<real>, c: real)
    ensures SumSquares(xs) <= SumOf(xs, SqDist(c))
    ensures |xs| > 0 ==> (SumSquares(xs) == SumOf(xs, SqDist(c)) <==> c == Mean(xs))
  {
    if |xs| > 0 {
      SumSqDist(xs, c);
      SumSqDist(xs, Mean(xs));
      MeanIsLeast(SumOf(xs, Square()), Total(xs), |xs|, Mean(xs), c);
    }
  }

  lemma MeanIsLeast(q: real, s: real, n: nat, a: real, c: real)
    requires n > 0 && a == s / n as real
    ensures About(a, q, s, n) <= About(c, q, s, n)
    ensures About(a, q, s, n) == About(c, q, s, n) <==> c == a
  {
    ParallelAxis(q, s, n, a, c);
    OffsetCosts(n, c - a);
  }

  lemma OffsetCosts(n: nat, d: real)
    requires n > 0
    ensures n as real * (d * d) >= 0.0 && (n as real * (d * d) == 0.0 <==> d == 0.0)
  {
    SquareNonNegative(d);
    SquareIsZero(d);
    NonNegativeProduct(n as real, d * d);
    ZeroProduct(n as real, d * d);
  }

  lemma ParallelAxis(q: real, s: real, n: nat, a: real, c: real)
    requires n > 0 && a == s / n as real
    ensures About(c, q, s, n) == About(a, q, s, n) + n as real * ((c - a) * (c - a))
  {
    var m, d := n as real, c - a;
    assert s == m * a;
    assert m * (d * d) == m * (c * c) - 2.0 * (c * (m * a)) + m * (a * a);
    assert c * (m * a) == c * s && m * (a * a) == a * s;
  }

  lemma SumSquaresNonNegative(xs: seq<real>)
    ensures SumSquares(xs) >= 0.0
  {
    if |xs| > 0 {
      forall i | 0 <= i < |xs| ensures SqDist(Mean(xs))(xs[i]) >= 0.0 {
        SquareNonNegative(xs[i] - Mean(xs));
      }
      SumOfNonNegative(xs, SqDist(Mean(xs)));
    }
  }

  lemma SquareNonNegative(d: real)
    ensures d * d >= 0.0
  {}

  lemma SumSquaresOfSame(a: seq<real>, b: seq<real>)
    requires SameElements(a, b)
    ensures SumSquares(a) == SumSquares(b)
  {
    SameSize(a, b);
    if |a| > 0 {
      SumOfSame(a, b, Identity());
      SumOfSame(a, b, SqDist(Mean(a)));
    }
  }

  // ------------------------------------------------------------------ optimality

  /** l and r are the two nonempty parts of the elements of e. */
  ghost predicate SplitsInto(e: seq<real>, l: seq<real>, r: seq<real>) {
    |l| > 0 && |r| > 0 && multiset(l) + multiset(r) == multiset(e)
  }

  /** The first k elements of a sorted list have the least sum of all its k-element parts. */
  lemma {:induction false} SmallestSum(x: seq<real>, l: seq<real>)
    requires Sorted(x) && multiset(l) <= multiset(x)
    ensures |l| <= |x| && Total(x[..|l|]) <= Total(l)
    decreases |x|
  {
    SameSize(l, x);
    if |l| == 0 {
      assert x[..0] == l;
    } else {
      var n := |x| - 1;
      if x[n] in l {
        var rest := WithoutLargest(x, l);
        SmallestSum(x[..n], rest);
        LargestAdded(x, l, rest);
      } else {
        FitsWithout(l, x[..n], x);
        SmallestSum(x[..n], l);
        assert x[..n][..|l|] == x[..|l|];
      }
    }
  }

  lemma LargestAdded(x: seq<real>, l: seq<real>, rest: seq<real>)
    requires Sorted(x) && |rest| == |l| - 1 && |rest| < |x| && Total(l) == Total(rest) + x[|x| - 1]
    requires Total(x[..|x| - 1][..|rest|]) <= Total(rest)
    ensures Total(x[..|l|]) <= Total(l)
  {
    LargestFits(x, |rest|);
  }

  lemma WithoutLargest(x: seq<real>, l: seq<real>) returns (rest: seq<real>)
    requires |x| > 0 && multiset(l) <= multiset(x) && x[|x| - 1] in l
    ensures |rest| == |l| - 1 && multiset(rest) <= multiset(x[..|x| - 1])
    ensures Total(l) == Total(rest) + x[|x| - 1]
  {
    var i :| 0 <= i < |l| && l[i] == x[|x| - 1];
    rest := WithoutAt(l, i);
    RemoveAt(x, |x| - 1, Identity());
    assert WithoutAt(x, |x| - 1) == x[..|x| - 1];
    RemoveAt(l, i, Identity());
    Cancel(multiset(rest), multiset(x[..|x| - 1]), l[i]);
  }

  lemma LargestFits(x: seq<real>, k: nat)
    requires Sorted(x) && k < |x|
    ensures Total(x[..k + 1]) <= Total(x[..|x| - 1][..k]) + x[|x| - 1]
  {
    PrefixTotal(x, |x| - 1, k);
    assert x[k] <= x[|x| - 1];
  }

  lemma PrefixTotal(x: seq<real>, n: nat, k: nat)
    requires k <= n < |x|
    ensures Total(x[..k + 1]) == Total(x[..n][..k]) + x[k]
  {
    assert x[..k + 1][..k] == x[..n][..k];
  }

  lemma FitsWithout(l: seq<real>, before: seq<real>, x: seq<real>)
    requires |x| > 0 && before == x[..|x| - 1] && multiset(l) <= multiset(x) && x[|x| - 1] !in multiset(l)
    ensures multiset(l) <= multiset(before)
  {
    var y := x[|x| - 1];
    assert x == before + [y];
    forall v ensures multiset(l)[v] <= multiset(before)[v] {
      assert v != y ==> multiset(x)[v] == multiset(before)[v];
    }
  }

  /** Exchange argument: sorting the two parts of a split, smaller mean first, does not cost more. */
  lemma SortedSplitIsBetter(x: seq<real>, l: seq<real>, r: seq<real>)
    requires Sorted(x) && SplitsInto(x, l, r) && Mean(l) <= Mean(r)
    ensures |l| < |x| && SumSquares(x[..|l|]) + SumSquares(x[|l|..]) <= SumSquares(l) + SumSquares(r)
  {
    var k, a, b := |l|, Mean(l), Mean(r);
    SameSize(l + r, x);
    SmallestSum(x, l);
    MeanIsBest(x[..k], a);
    MeanIsBest(x[k..], b);
    assert x == x[..k] + x[k..];
    SwapCosts(l, r, x[..k], x[k..], a, b);
  }

  /** Moving the smaller elements to the smaller centre does not cost more. */
  lemma SwapCosts(l: seq<real>, r: seq<real>, l': seq<real>, r': seq<real>, a: real, b: real)
    requires SameElements(l + r, l' + r') && |l| == |l'| && |r| == |r'| && Total(l') <= Total(l) && a <= b
    ensures SumOf(l', SqDist(a)) + SumOf(r', SqDist(b)) <= SumOf(l, SqDist(a)) + SumOf(r, SqDist(b))
  {
    SameMoments(l, r, l', r', Identity());
    SameMoments(l, r, l', r', Square());
    SumSqDist(l', a);
    SumSqDist(r', b);
    SumSqDist(l, a);
    SumSqDist(r, b);
    Exchange(a, b, |l|, |r|, SumOf(l, Square()), Total(l), SumOf(l', Square()), Total(l'),
             SumOf(r, Square()), Total(r), SumOf(r', Square()), Total(r'));
  }

  lemma SameMoments(l: seq<real>, r: seq<real>, l': seq<real>, r': seq<real>, f: real -> real)
    requires SameElements(l + r, l' + r')
    ensures SumOf(l, f) + SumOf(r, f) == SumOf(l', f) + SumOf(r', f)
  {
    SumOfSame(l + r, l' + r', f);
    SumOfConcat(l, r, f);
    SumOfConcat(l', r', f);
  }

  lemma Exchange(a: real, b: real, k: nat, j: nat, ql: real, sl: real, q1: real, s1: real,
                 qr: real, sr: real, q2: real, s2: real)
    requires a <= b && s1 <= sl && sl + sr == s1 + s2 && ql + qr == q1 + q2
    ensures About(a, q1, s1, k) + About(b, q2, s2, j) <= About(a, ql, sl, k) + About(b, qr, sr, j)
  {
    var t := sl - s1;
    NonNegativeProduct(b - a, t);
    MinusTimes(b, a, t);
    AboutShifts(a, ql, sl, q1, s1, k, t);
    AboutShifts(b, qr, sr, q2, s2, j, -t);
  }

  lemma AboutShifts(c: real, q: real, s: real, q1: real, s1: real, n: nat, t: real)
    requires s == s1 + t
    ensures About(c, q, s, n) == About(c, q1, s1, n) + (q - q1) - 2.0 * (c * t)
  {
    assert c * s == c * s1 + c * t;
  }

  /** The prefix-sum formula is the within-cluster sum of squares of the two halves. */
  lemma SplitCostIsWithin(x: seq<real>, i: nat)
    requires 0 < i < |x|
    ensures SplitCosts(x)[i - 1] == SumSquares(x[..i]) + SumSquares(x[i..])
  {
    SumSquaresByMoments(x[..i]);
    SumSquaresByMoments(x[i..]);
    RestOfCumSum(x, i, Identity());
    RestOfCumSum(x, i, Square());
    assert SplitCosts(x)[i - 1] == SplitCost(CumSum(x, Identity()), CumSum(x, Square()), i);
  }

  /** The prefix sums give the sums of both halves. */
  ghost predicate HalvesSummed(x: seq<real>, i: nat, f: real -> real)
    requires 0 < i < |x|
  {
    && CumSum(x, f)[i - 1] == SumOf(x[..i], f)
    && CumSum(x, f)[|x| - 1] - CumSum(x, f)[i - 1] == SumOf(x[i..], f)
  }

  lemma RestOfCumSum(x: seq<real>, i: nat, f: real -> real)
    requires 0 < i < |x|
    ensures HalvesSummed(x, i, f)
  {
    CumSumAt(x, i, f);
    CumSumAt(x, |x|, f);
    SumOfConcat(x[..i], x[i..], f);
    assert x[..|x|] == x && x[..i] + x[i..] == x;
  }

  lemma CumSumAt(x: seq<real>, i: nat, f: real -> real)
    requires 0 < i <= |x|
    ensures CumSum(x, f)[i - 1] == SumOf(x[..i], f)
  {}

  /** w is the least within-cluster sum of squares over all splits of e into two nonempty parts. */
  ghost predicate IsLeastWithin(e: seq<real>, w: real) {
    && (exists l, r :: SplitsInto(e, l, r) && w == SumSquares(l) + SumSquares(r))
    && (forall l, r :: SplitsInto(e, l, r) ==> w <= SumSquares(l) + SumSquares(r))
  }

  /** The sorted split search is globally optimal, contiguous or not. */
  lemma BestSplitIsLeast(e: seq<real>)
    requires |e| >= 2
    ensures IsLeastWithin(e, BestSplit(e))
  {
    var l0, r0 := BestSplitAttained(e);
    forall l, r | SplitsInto(e, l, r) ensures BestSplit(e) <= SumSquares(l) + SumSquares(r) {
      NoSplitIsBetter(e, l, r);
    }
  }

  lemma BestSplitAttained(e: seq<real>) returns (l: seq<real>, r: seq<real>)
    requires |e| >= 2
    ensures SplitsInto(e, l, r) && BestSplit(e) == SumSquares(l) + SumSquares(r)
  {
    var x := Sort(e);
    var k := BestPoint(x);
    l, r := x[..k], x[k..];
    assert x == l + r;
  }

  lemma BestPoint(x: seq<real>) returns (k: nat)
    requires |x| >= 2
    ensures 0 < k < |x| && MinOf(SplitCosts(x)) == SumSquares(x[..k]) + SumSquares(x[k..])
  {
    var costs := SplitCosts(x);
    var j :| 0 <= j < |costs| && costs[j] == MinOf(costs);
    SplitCostIsWithin(x, j + 1);
    k := j + 1;
  }

  lemma NoSplitIsBetter(e: seq<real>, l: seq<real>, r: seq<real>)
    requires |e| >= 2 && SplitsInto(e, l, r)
    ensures BestSplit(e) <= SumSquares(l) + SumSquares(r)
  {
    if Mean(l) <= Mean(r) {
      SortedSplitIsBetter(Sort(e), l, r);
      BestSplitBelow(e, |l|);
    } else {
      SortedSplitIsBetter(Sort(e), r, l);
      BestSplitBelow(e, |r|);
    }
  }

  lemma BestSplitBelow(e: seq<real>, k: nat)
    requires 0 < k < |e|
    ensures BestSplit(e) <= SumSquares(Sort(e)[..k]) + SumSquares(Sort(e)[k..])
  {
    SplitCostIsWithin(Sort(e), k);
    assert MinOf(SplitCosts(Sort(e))) <= SplitCosts(Sort(e))[k - 1];
  }

  /** Splitting never raises the sum of squares. */
  lemma WithinAtMostTotal(x: seq<real>, k: nat)
    requires 0 < k < |x|
    ensures SumSquares(x[..k]) + SumSquares(x[k..]) <= SumSquares(x)
  {
    var c := Mean(x);
    MeanIsBest(x[..k], c);
    MeanIsBest(x[k..], c);
    assert x == x[..k] + x[k..];
    SumOfConcat(x[..k], x[k..], SqDist(c));
  }

  /**
   * T is one minus the optimal within-cluster share of the total sum of squares, and lies in
   * [0, 1]; with fewer than four values or no variance it is 0.
   */
  lemma TwoMeansTIsOptimal(e: seq<real>)
    ensures 0.0 <= TwoMeansT(e) <= 1.0
    ensures |e| >= 4 && SumSquares(e) > 0.0 ==>
      IsLeastWithin(e, BestSplit(e)) && TwoMeansT(e) == 1.0 - BestSplit(e) / SumSquares(e)
    ensures |e| < 4 || SumSquares(e) == 0.0 ==> TwoMeansT(e) == 0.0
  {
    var x := Sort(e);
    SumSquaresOfSame(x, e);
    SumSquaresNonNegative(e);
    if |e| >= 4 && SumSquares(e) > 0.0 {
      BestSplitIsLeast(e);
      BestSplitBounds(e);
      ShareBounds(BestSplit(e), SumSquares(e));
    }
  }

  lemma BestSplitBounds(e: seq<real>)
    requires |e| >= 2
    ensures 0.0 <= BestSplit(e) <= SumSquares(e)
  {
    var l, r := BestSplitAttained(e);
    SumSquaresNonNegative(l);
    SumSquaresNonNegative(r);
    BestSplitBelow(e, 1);
    WithinAtMostTotal(Sort(e), 1);
    SumSquaresOfSame(Sort(e), e);
  }

  lemma ShareBounds(w: real, total: real)
    requires 0.0 <= w <= total && total > 0.0
    ensures 0.0 <= w / total <= 1.0
  {}
}
