/** The evenly spaced quantiles of a list, interpolated between its sorted values. */
module QuantileStart {
  import opened Division
  import opened RealArithmetic
  import opened SortedSums

  /** The position i * (n - 1) / (k - 1) in a sorted list of n: whole part and remainder. */
  lemma PositionInRange(n: nat, i: nat, k: nat)
    requires n > 0 && i < k && k >= 2
    ensures 0 <= i * (n - 1) / (k - 1) <= n - 1 && 0 <= i * (n - 1) % (k - 1) < k - 1
    ensures i * (n - 1) % (k - 1) > 0 ==> i * (n - 1) / (k - 1) < n - 1
  {
    var pos, m := i * (n - 1), k - 1;
    Decompose(pos, m);
    MulMonotone(i, m, n - 1);
    var q := pos / m;
    assert m * (n - 1) == (n - 1) * m;
    assert n * m == (n - 1) * m + m;
    if q >= n {
      MulMonotone(n, q, m);
    } else if q == n - 1 {
      assert q * m == (n - 1) * m;
    }
  }

  function Between(a: real, b: real, r: nat, m: nat): real
    requires m > 0
  {
    a + (b - a) * (r as real / m as real)
  }

  /** The i-th of k quantiles. */
  function QuantileAt(sorted: seq<real>, i: nat, k: nat): real
    requires |sorted| > 0 && i < k && k >= 2
  {
    PositionInRange(|sorted|, i, k);
    var pos := i * (|sorted| - 1);
    var q, r := pos / (k - 1), pos % (k - 1);
    if r == 0 then sorted[q] else Between(sorted[q], sorted[q + 1], r, k - 1)
  }

  function Quantiles(x: seq<real>, k: nat): (qs: seq<real>)
    requires |x| > 0 && k >= 2
    ensures |qs| == k
  {
    seq(k, i requires 0 <= i < k => QuantileAt(Sort(x), i, k))
  }

  lemma BetweenBounds(a: real, b: real, r: nat, m: nat)
    requires a <= b && r <= m && m > 0
    ensures a <= Between(a, b, r, m) <= b
  {
    var t := r as real / m as real;
    QuotientAtLeast(r as real, m as real);
    QuotientAtMost(r as real, 1.0, m as real);
    NonNegativeProduct(b - a, t);
    NonNegativeProduct(b - a, 1.0 - t);
    assert (b - a) * (1.0 - t) == (b - a) - (b - a) * t;
  }

  lemma BetweenMonotone(a: real, b: real, r: nat, r': nat, m: nat)
    requires a <= b && r <= r' && m > 0
    ensures Between(a, b, r, m) <= Between(a, b, r', m)
  {
    var t, t' := r as real / m as real, r' as real / m as real;
    assert t * m as real == r as real && t' * m as real == r' as real;
    QuotientAtMost(r as real, t', m as real);
    NonNegativeProduct(b - a, t' - t);
    assert (b - a) * (t' - t) == (b - a) * t' - (b - a) * t;
  }

  /** The value at whole part q and remainder r, without the case distinction. */
  function Interpolated(sorted: seq<real>, q: nat, r: nat, m: nat): real
    requires q < |sorted| && m > 0 && (r > 0 ==> q + 1 < |sorted|)
  {
    if r == 0 then sorted[q] else Between(sorted[q], sorted[q + 1], r, m)
  }

  lemma InterpolatedMonotone(sorted: seq<real>, q: nat, r: nat, q': nat, r': nat, m: nat)
    requires Sorted(sorted) && m > 0 && r < m && r' < m
    requires q < |sorted| && (r > 0 ==> q + 1 < |sorted|) && q' < |sorted| && (r' > 0 ==> q' + 1 < |sorted|)
    requires q < q' || (q == q' && r <= r')
    ensures Interpolated(sorted, q, r, m) <= Interpolated(sorted, q', r', m)
  {
    if r > 0 {
      BetweenBounds(sorted[q], sorted[q + 1], r, m);
    }
    if r' > 0 {
      BetweenBounds(sorted[q'], sorted[q' + 1], r', m);
    }
    if q < q' {
      assert sorted[q] <= sorted[q'];
      assert q + 1 < q' ==> sorted[q + 1] <= sorted[q'];
    } else if r > 0 {
      BetweenMonotone(sorted[q], sorted[q + 1], r, r', m);
    }
  }

  lemma PositionsAscend(i: nat, j: nat, n: nat, m: nat)
    requires i <= j && n > 0 && m > 0
    ensures var p, p' := i * (n - 1), j * (n - 1); p / m < p' / m || (p / m == p' / m && p % m <= p' % m)
  {
    var p, p' := i * (n - 1), j * (n - 1);
    MulMonotone(i, j, n - 1);
    Decompose(p, m);
    Decompose(p', m);
    DivideMonotone(p, p', m);
  }

  /** Quantiles ascend. */
  lemma QuantilesAscend(x: seq<real>, k: nat)
    requires |x| > 0 && k >= 2
    ensures Sorted(Quantiles(x, k))
  {
    forall i, j | 0 <= i < j < k ensures Quantiles(x, k)[i] <= Quantiles(x, k)[j] {
      QuantileMonotone(Sort(x), i, j, k);
    }
  }

  lemma QuantileMonotone(sorted: seq<real>, i: nat, j: nat, k: nat)
    requires Sorted(sorted) && |sorted| > 0 && k >= 2 && i < j < k
    ensures QuantileAt(sorted, i, k) <= QuantileAt(sorted, j, k)
  {
    var n, m := |sorted|, k - 1;
    PositionInRange(n, i, k);
    PositionInRange(n, j, k);
    PositionsAscend(i, j, n, m);
    var p, p' := i * (n - 1), j * (n - 1);
    InterpolatedMonotone(sorted, p / m, p % m, p' / m, p' % m, m);
  }

  /**
   * Linear interpolation: a quantile whose position is q + r / (k - 1) parts the way from the q-th to
   * the next sorted value in that ratio; at a whole position it is the q-th value.
   */
  ghost predicate Interpolates(v: real, sorted: seq<real>, q: nat, r: nat, m: nat) {
    && q < |sorted| && (r == 0 ==> v == sorted[q])
    && (r > 0 ==> q + 1 < |sorted| && m as real * v == (m - r) as real * sorted[q] + r as real * sorted[q + 1])
  }

  lemma QuantilesInterpolate(x: seq<real>, k: nat, i: nat, q: nat, r: nat)
    requires |x| > 0 && i < k && k >= 2 && r < k - 1 && i * (|x| - 1) == q * (k - 1) + r
    ensures Interpolates(Quantiles(x, k)[i], Sort(x), q, r, k - 1)
  {
    QuantileInterpolates(Sort(x), i, k, q, r);
  }

  lemma QuantileInterpolates(sorted: seq<real>, i: nat, k: nat, q: nat, r: nat)
    requires |sorted| > 0 && i < k && k >= 2 && r < k - 1 && i * (|sorted| - 1) == q * (k - 1) + r
    ensures Interpolates(QuantileAt(sorted, i, k), sorted, q, r, k - 1)
  {
    var n, m := |sorted|, k - 1;
    PositionInRange(n, i, k);
    var p := i * (n - 1);
    QuotientRemainder(p, q, m, r);
    InterpolatedIsBetween(sorted, q, r, m);
  }

  lemma InterpolatedIsBetween(sorted: seq<real>, q: nat, r: nat, m: nat)
    requires r < m && q < |sorted| && (r > 0 ==> q + 1 < |sorted|)
    ensures Interpolates(Interpolated(sorted, q, r, m), sorted, q, r, m)
  {
    if r > 0 {
      BetweenInterpolates(sorted[q], sorted[q + 1], r, m);
    }
  }

  lemma BetweenInterpolates(a: real, b: real, r: nat, m: nat)
    requires r <= m && m > 0
    ensures m as real * Between(a, b, r, m) == (m - r) as real * a + r as real * b
  {
    var t := r as real / m as real;
    assert m as real * t == r as real;
    assert m as real * ((b - a) * t) == (b - a) * (m as real * t);
    assert (m - r) as real * a == m as real * a - r as real * a;
  }
}
