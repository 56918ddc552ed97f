/** The separation statistic ignores shift and scale, so differently centred replicates compare. */
module TwoMeansInvariance {
  import opened RealArithmetic
  import opened SortedSums
  import opened TwoMeans

  // ------------------------------------------------------------------ mapping keeps splits

  function Mapped(xs: seq<real>, f: real -> real): (ys: seq<real>)
    ensures |ys| == |xs| && forall i :: 0 <= i < |xs| ==> ys[i] == f(xs[i])
  {
    seq(|xs|, i requires 0 <= i < |xs| => f(xs[i]))
  }

  lemma {:induction false} MappedSame(a: seq<real>, b: seq<real>, f: real -> real)
    requires SameElements(a, b)
    ensures SameElements(Mapped(a, f), Mapped(b, f))
  {
    SameSize(a, b);
    if |a| == 0 {
    } else {
      var n := |a| - 1;
      assert a[n] in multiset(b);
      var i :| 0 <= i < |b| && b[i] == a[n];
      RemoveAt(b, i, f);
      RemoveAt(a, n, f);
      assert WithoutAt(a, n) == a[..n];
      Cancel(multiset(a[..n]), multiset(WithoutAt(b, i)), a[n]);
      MappedSame(a[..n], WithoutAt(b, i), f);
      MappedWithout(b, i, f);
      MappedWithout(a, n, f);
    }
  }

  lemma MappedWithout(xs: seq<real>, i: nat, f: real -> real)
    requires i < |xs|
    ensures multiset(Mapped(xs, f)) == multiset(Mapped(WithoutAt(xs, i), f)) + multiset{f(xs[i])}
  {
    RemoveAt(Mapped(xs, f), i, f);
    assert WithoutAt(Mapped(xs, f), i) == Mapped(WithoutAt(xs, i), f);
  }

  lemma MappedSplit(e: seq<real>, l: seq<real>, r: seq<real>, f: real -> real)
    requires SplitsInto(e, l, r)
    ensures SplitsInto(Mapped(e, f), Mapped(l, f), Mapped(r, f))
  {
    MappedSame(l + r, e, f);
    assert Mapped(l + r, f) == Mapped(l, f) + Mapped(r, f);
  }

  // ------------------------------------------------------------------ shift and scale

  function Affine(c: real, d: real): real -> real { x => c * x + d }

  /** c * x + d for every x. */
  function Moved(xs: seq<real>, c: real, d: real): (ys: seq<real>) { Mapped(xs, Affine(c, d)) }

  lemma MappedPrefix(xs: seq<real>, f: real -> real)
    requires |xs| > 0
    ensures Mapped(xs, f)[..|xs| - 1] == Mapped(xs[..|xs| - 1], f)
  {}

  lemma {:induction false} MovedTotal(xs: seq<real>, c: real, d: real)
    ensures Total(Moved(xs, c, d)) == c * Total(xs) + |xs| as real * d
  {
    if |xs| == 0 {
    } else {
      var n := |xs| - 1;
      MovedTotal(xs[..n], c, d);
      MappedPrefix(xs, Affine(c, d));
      OneMoreMoved(Total(xs[..n]), xs[n], c, d, n);
    }
  }

  lemma OneMoreMoved(total: real, x: real, c: real, d: real, n: nat)
    ensures c * total + n as real * d + (c * x + d) == c * (total + x) + (n + 1) as real * d
  {}

  lemma MovedMean(xs: seq<real>, c: real, d: real)
    requires |xs| > 0
    ensures Mean(Moved(xs, c, d)) == c * Mean(xs) + d
  {
    MovedTotal(xs, c, d);
    MeanOfSum(Total(xs), c, d, |xs| as real);
  }

  lemma MeanOfSum(total: real, c: real, d: real, n: real)
    requires n > 0.0
    ensures (c * total + n * d) / n == c * (total / n) + d
  {
    var mu := total / n;
    assert total == mu * n;
    assert c * total + n * d == (c * mu + d) * n;
  }

  /** f after t is k times g. */
  ghost predicate ScalesTo(t: real -> real, f: real -> real, g: real -> real, k: real) {
    forall x :: f(t(x)) == k * g(x)
  }

  lemma DistancesScale(c: real, d: real, mu: real, nu: real, c2: real)
    requires nu == c * mu + d && c2 == c * c
    ensures ScalesTo(Affine(c, d), SqDist(nu), SqDist(mu), c2)
  {
    forall x ensures SqDist(nu)(Affine(c, d)(x)) == c2 * SqDist(mu)(x) {
      MovedDistance(x, c, d, mu, nu, c2);
    }
  }

  lemma ScalesAt(t: real -> real, f: real -> real, g: real -> real, k: real, x: real)
    requires ScalesTo(t, f, g, k)
    ensures f(t(x)) == k * g(x)
  {}

  lemma {:induction false} MappedSum(xs: seq<real>, t: real -> real, f: real -> real, g: real -> real, k: real)
    requires ScalesTo(t, f, g, k)
    ensures SumOf(Mapped(xs, t), f) == k * SumOf(xs, g)
  {
    if |xs| == 0 {
    } else {
      var n := |xs| - 1;
      MappedSum(xs[..n], t, f, g, k);
      MappedPrefix(xs, t);
      ScalesAt(t, f, g, k, xs[n]);
      Distribute(k, SumOf(xs[..n], g), g(xs[n]));
    }
  }

  lemma MovedDistance(x: real, c: real, d: real, mu: real, nu: real, c2: real)
    requires nu == c * mu + d && c2 == c * c
    ensures SqDist(nu)(Affine(c, d)(x)) == c2 * SqDist(mu)(x)
  {
    var t := x - mu;
    assert c * x + d - nu == c * t;
    assert (c * t) * (c * t) == c2 * (t * t);
  }

  lemma Distribute(c: real, x: real, y: real)
    ensures c * (x + y) == c * x + c * y
  {}

  lemma MovedSquares(xs: seq<real>, c: real, d: real, c2: real)
    requires c2 == c * c
    ensures SumSquares(Moved(xs, c, d)) == c2 * SumSquares(xs)
  {
    if |xs| > 0 {
      var mu, nu := Mean(xs), Mean(Moved(xs, c, d));
      MovedMean(xs, c, d);
      DistancesScale(c, d, mu, nu, c2);
      MappedSum(xs, Affine(c, d), SqDist(nu), SqDist(mu), c2);
    }
  }

  /** Moving the values moves the best split along. */
  lemma MovedBestAtMost(e: seq<real>, f: seq<real>, c: real, d: real, c2: real, w: real, w': real)
    requires |e| >= 2 && |f| >= 2 && f == Moved(e, c, d) && c2 == c * c && w == BestSplit(e) && w' == BestSplit(f)
    ensures w' <= c2 * w
  {
    var l, r := BestSplitAttained(e);
    MappedSplit(e, l, r, Affine(c, d));
    NoSplitIsBetter(f, Moved(l, c, d), Moved(r, c, d));
    MovedWithin(l, r, c, d, c2, w);
  }

  lemma MovedWithin(l: seq<real>, r: seq<real>, c: real, d: real, c2: real, w: real)
    requires c2 == c * c && w == SumSquares(l) + SumSquares(r)
    ensures SumSquares(Moved(l, c, d)) + SumSquares(Moved(r, c, d)) == c2 * w
  {
    MovedSquares(l, c, d, c2);
    MovedSquares(r, c, d, c2);
    Combine(c2, SumSquares(l), SumSquares(r), w, SumSquares(Moved(l, c, d)), SumSquares(Moved(r, c, d)));
  }

  lemma Combine(k: real, a: real, b: real, w: real, x: real, y: real)
    requires x == k * a && y == k * b && w == a + b
    ensures x + y == k * w
  {}

  lemma MovedBack(e: seq<real>, c: real, d: real, b: real, a: real)
    requires b * c == 1.0 && a == -b * d
    ensures Moved(Moved(e, c, d), b, a) == e
  {
    forall i | 0 <= i < |e| ensures Moved(Moved(e, c, d), b, a)[i] == e[i] {
      Undo(e[i], c, d, b, a);
    }
  }

  lemma Undo(x: real, c: real, d: real, b: real, a: real)
    requires b * c == 1.0 && a == -b * d
    ensures Affine(b, a)(Affine(c, d)(x)) == x
  {
    assert b * (c * x + d) == (b * c) * x + b * d;
  }

  lemma MovedBest(e: seq<real>, f: seq<real>, c: real, d: real, c2: real, w: real, w': real)
    requires |e| >= 2 && |f| >= 2 && f == Moved(e, c, d) && c != 0.0 && c2 == c * c
    requires w == BestSplit(e) && w' == BestSplit(f)
    ensures w' == c2 * w
  {
    var b := Inverse(c);
    MovedBestAtMost(e, f, c, d, c2, w, w');
    MovedBestAtLeast(e, f, c, d, b, c2, w, w');
  }

  lemma Inverse(c: real) returns (b: real)
    requires c != 0.0
    ensures b * c == 1.0
  {
    b := 1.0 / c;
  }

  lemma MovedBestAtLeast(e: seq<real>, f: seq<real>, c: real, d: real, b: real, c2: real, w: real, w': real)
    requires |e| >= 2 && |f| >= 2 && f == Moved(e, c, d) && b * c == 1.0 && c2 == c * c
    requires w == BestSplit(e) && w' == BestSplit(f)
    ensures c2 * w <= w'
  {
    var a, b2 := -b * d, b * b;
    MovedBack(e, c, d, b, a);
    MovedBestAtMost(f, e, b, a, b2, w', w);
    ScaleBack(w, w', b, c, b2, c2);
  }

  lemma ScaleBack(w: real, v: real, b: real, c: real, b2: real, c2: real)
    requires b * c == 1.0 && b2 == b * b && c2 == c * c && w <= b2 * v
    ensures c2 * w <= v
  {
    InverseSquares(b, c, b2, c2);
    OrderKept(w, b2 * v, c2);
    Regroup(c2, b2, v);
  }

  lemma InverseSquares(b: real, c: real, b2: real, c2: real)
    requires b * c == 1.0 && b2 == b * b && c2 == c * c
    ensures b2 * c2 == 1.0 && c2 >= 0.0
  {
    assert b2 * c2 == (b * c) * (b * c);
    SquareNonNegative(c);
  }

  lemma Regroup(x: real, y: real, v: real)
    requires y * x == 1.0
    ensures x * (y * v) == v
  {
    assert x * (y * v) == (y * x) * v;
  }

  lemma OrderKept(x: real, y: real, k: real)
    requires x <= y && k >= 0.0
    ensures k * x <= k * y
  {}

  /** The statistic of c * x + d is the statistic of x, for any c but 0. */
  lemma MovedKeepsT(e: seq<real>, c: real, d: real)
    requires c != 0.0
    ensures TwoMeansT(Moved(e, c, d)) == TwoMeansT(e)
  {
    if |e| >= 4 {
      var f := Moved(e, c, d);
      MovedShare(e, f, c, d, BestSplit(e), SumSquares(e), BestSplit(f), SumSquares(f));
      StatisticOf(e);
      StatisticOf(Moved(e, c, d));
    } else {
      TwoMeansTIsOptimal(e);
      TwoMeansTIsOptimal(Moved(e, c, d));
    }
  }

  function Share(w: real, total: real): real {
    if total == 0.0 then 1.0 else w / total
  }

  lemma MovedSpread(e: seq<real>, f: seq<real>, c: real, d: real, c2: real, total: real, total': real)
    requires f == Moved(e, c, d) && c2 == c * c && total == SumSquares(e) && total' == SumSquares(f)
    ensures total' == c2 * total
  {
    MovedSquares(e, c, d, c2);
  }

  lemma MovedShare(e: seq<real>, f: seq<real>, c: real, d: real, w: real, total: real, w': real, total': real)
    requires |e| >= 2 && |f| >= 2 && c != 0.0 && f == Moved(e, c, d)
    requires w == BestSplit(e) && total == SumSquares(e) && w' == BestSplit(f) && total' == SumSquares(f)
    ensures Share(w', total') == Share(w, total)
  {
    var c2 := c * c;
    ZeroProduct(c, c);
    MovedSpread(e, f, c, d, c2, total, total');
    MovedBest(e, f, c, d, c2, w, w');
    SameShare(w, total, c2, w', total');
  }

  lemma StatisticOf(e: seq<real>)
    requires |e| >= 4
    ensures TwoMeansT(e) == 1.0 - Share(BestSplit(e), SumSquares(e))
  {
    TwoMeansTIsOptimal(e);
    SumSquaresNonNegative(e);
  }

  lemma SameShare(w: real, total: real, k: real, w': real, total': real)
    requires k != 0.0 && w' == k * w && total' == k * total
    ensures Share(w', total') == Share(w, total)
  {
    ZeroProduct(k, total);
    if total != 0.0 {
      SameQuotient(w, total, k, w', total');
    }
  }

  lemma SameQuotient(w: real, total: real, k: real, w': real, total': real)
    requires k != 0.0 && total != 0.0 && w' == k * w && total' == k * total && total' != 0.0
    ensures w' / total' == w / total
  {
    var q := w / total;
    assert q * total == w;
    assert q * total' == k * (q * total);
    QuotientIs(w', total', q);
  }

  lemma QuotientIs(x: real, y: real, q: real)
    requires y != 0.0 && q * y == x
    ensures x / y == q
  {}

  // ------------------------------------------------------------------ replicates

  /** A replicate minus the mean of the other replicates; sums holds the sum of all of them. */
  function LeaveOneOut(tau: seq<real>, sums: seq<real>, replicates: nat): (e: seq<real>)
    requires |tau| == |sums| && replicates >= 2
    ensures |e| == |tau|
  {
    seq(|tau|, a requires 0 <= a < |tau| => tau[a] - (sums[a] - tau[a]) / (replicates - 1) as real)
  }

  /** A replicate minus the mean of all of them. */
  function Centred(tau: seq<real>, sums: seq<real>, replicates: nat): (e: seq<real>)
    requires |tau| == |sums| && replicates >= 1
    ensures |e| == |tau|
  {
    seq(|tau|, a requires 0 <= a < |tau| => tau[a] - sums[a] / replicates as real)
  }

  /** Coordinate a of both, given its value in every replicate: less the mean of the others, less the mean of all. */
  lemma BothCentre(tau: seq<real>, sums: seq<real>, a: nat, values: seq<real>, r: nat)
    requires |tau| == |sums| && a < |tau| && |values| >= 2 && r < |values|
    requires tau[a] == values[r] && sums[a] == Total(values)
    ensures LeaveOneOut(tau, sums, |values|)[a] == values[r] - Mean(WithoutAt(values, r))
    ensures Centred(tau, sums, |values|)[a] == values[r] - Mean(values)
  {
    RemoveAt(values, r, Identity());
  }

  /** Leaving the replicate out of its own mean does not change its statistic. */
  lemma LeaveOneOutIsCentring(tau: seq<real>, sums: seq<real>, replicates: nat)
    requires |tau| == |sums| && replicates >= 2
    ensures TwoMeansT(LeaveOneOut(tau, sums, replicates)) == TwoMeansT(Centred(tau, sums, replicates))
  {
    var n := replicates as real;
    var e, f := Centred(tau, sums, replicates), LeaveOneOut(tau, sums, replicates);
    var c := n / (n - 1.0);
    forall a | 0 <= a < |tau| ensures f[a] == Affine(c, 0.0)(e[a]) {
      LeaveOneOutAt(tau[a], sums[a], n, c);
    }
    assert f == Moved(e, c, 0.0);
    MovedKeepsT(e, c, 0.0);
  }

  lemma LeaveOneOutAt(t: real, s: real, n: real, c: real)
    requires n > 1.0 && c == n / (n - 1.0)
    ensures t - (s - t) / (n - 1.0) == c * (t - s / n)
    ensures c > 0.0
  {
    var k, u, v := n - 1.0, (s - t) / (n - 1.0), s / n;
    assert u * k == s - t && v * n == s && c * k == n;
    LeaveOut(t, s, n, c, k, u, v);
  }

  lemma LeaveOut(t: real, s: real, n: real, c: real, k: real, u: real, v: real)
    requires k == n - 1.0 && k > 0.0 && u * k == s - t && v * n == s && c * k == n
    ensures t - u == c * (t - v)
  {
    assert (t - u) * k == t * k - u * k == t * n - s;
    assert (c * (t - v)) * k == (c * k) * (t - v) == n * (t - v);
    assert n * (t - v) == t * n - s;
    CancelFactor(t - u, c * (t - v), k);
  }

  lemma CancelFactor(x: real, y: real, k: real)
    requires k != 0.0 && x * k == y * k
    ensures x == y
  {
    assert (x - y) * k == 0.0;
    ZeroProduct(x - y, k);
  }
}
