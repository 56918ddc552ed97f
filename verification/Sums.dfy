/** Finite sums of real-valued functions, the algebra every numeric part of the model shares. */
module Sums {

  /** f(0) + ... + f(n-1). */
  function Sum(n: nat, f: int -> real): real {
    if n == 0 then 0.0 else Sum(n - 1, f) + f(n - 1)
  }

  /** The i-th entry of a sequence, as a total function. */
  function At(a: seq<real>, i: int): real {
    if 0 <= i < |a| then a[i] else 0.0
  }

  lemma SumCongruence(n: nat, f: int -> real, g: int -> real)
    requires forall i :: 0 <= i < n ==> f(i) == g(i)
    ensures Sum(n, f) == Sum(n, g)
  {}

  lemma {:induction false} SumStrict(n: nat, f: int -> real, g: int -> real, k: nat)
    requires (forall i :: 0 <= i < n ==> f(i) <= g(i)) && k < n && f(k) < g(k)
    ensures Sum(n, f) < Sum(n, g)
  {
    if k == n - 1 {
      SumMonotone(n - 1, f, g);
    } else {
      SumStrict(n - 1, f, g, k);
    }
  }

  lemma SumMonotone(n: nat, f: int -> real, g: int -> real)
    requires forall i :: 0 <= i < n ==> f(i) <= g(i)
    ensures Sum(n, f) <= Sum(n, g)
  {}

  lemma SumZero(n: nat, f: int -> real)
    requires forall i :: 0 <= i < n ==> f(i) == 0.0
    ensures Sum(n, f) == 0.0
  {}

  /** A sum of nonnegative terms bounds each of them. */
  lemma SumNonNegative(n: nat, f: int -> real)
    requires forall i :: 0 <= i < n ==> f(i) >= 0.0
    ensures forall i :: 0 <= i < n ==> f(i) <= Sum(n, f)
    ensures Sum(n, f) >= 0.0
  {}

  lemma {:induction false} SumScale(n: nat, a: real, f: int -> real, h: int -> real)
    requires forall i :: 0 <= i < n ==> h(i) == a * f(i)
    ensures Sum(n, h) == a * Sum(n, f)
  {
    if n == 0 {
    } else {
      SumScale(n - 1, a, f, h);
    }
  }

  lemma SumOfOneTerm(f: int -> real)
    ensures Sum(1, f) == f(0)
  {
    assert Sum(0, f) == 0.0;
  }

  lemma SumAdd(n: nat, f: int -> real, g: int -> real, h: int -> real)
    requires forall i :: 0 <= i < n ==> h(i) == f(i) + g(i)
    ensures Sum(n, h) == Sum(n, f) + Sum(n, g)
  {}

  lemma SumSplit(m: nat, n: nat, f: int -> real, g: int -> real)
    requires forall i :: 0 <= i < n ==> g(i) == f(m + i)
    ensures Sum(m + n, f) == Sum(m, f) + Sum(n, g)
  {
    if n == 0 {
    } else {
      SumSplit(m, n - 1, f, g);
      assert g(n - 1) == f(m + (n - 1));
    }
  }

  /** A sum over 2h terms whose second half is g or its negation. */
  function Flipped(negative: bool, v: real): real {
    if negative then -v else v
  }

  lemma FlippedProduct(negX: bool, negY: bool, x: real, y: real)
    ensures Flipped(negX, x) * Flipped(negY, y) == Flipped(negX != negY, x * y)
  {}

  lemma SumOfSignedHalves(h: nat, negative: bool, f: int -> real, g: int -> real)
    requires forall t :: 0 <= t < h ==> f(h + t) == Flipped(negative, g(t))
    ensures Sum(2 * h, f) == Sum(h, f) + Flipped(negative, Sum(h, g))
  {
    var f' := t => Flipped(negative, g(t));
    SumSplit(h, h, f, f');
    SumScale(h, if negative then -1.0 else 1.0, g, f');
  }

  /** A sum with one nonzero term. */
  lemma SumSingle(n: nat, k: nat, f: int -> real)
    requires k < n
    requires forall i :: 0 <= i < n && i != k ==> f(i) == 0.0
    ensures Sum(n, f) == f(k)
  {
    if n - 1 == k {
      SumZero(n - 1, f);
    } else {
      SumSingle(n - 1, k, f);
    }
  }

  function Row(f: (int, int) -> real, i: int): int -> real { j => f(i, j) }

  function Column(f: (int, int) -> real, j: int): int -> real { i => f(i, j) }

  /** The sum of f over the m x n grid, row by row. */
  function Sum2(m: nat, n: nat, f: (int, int) -> real): real {
    Sum(m, i => Sum(n, Row(f, i)))
  }

  lemma SumOfRows(m: nat, n: nat, f: (int, int) -> real, r: int -> real)
    requires forall i :: 0 <= i < m ==> r(i) == Sum(n, Row(f, i))
    ensures Sum(m, r) == Sum2(m, n, f)
  {
    SumCongruence(m, r, i => Sum(n, Row(f, i)));
  }

  /** Row-by-row and column-by-column summation agree. */
  lemma {:induction false} SumOfColumns(m: nat, n: nat, f: (int, int) -> real, c: int -> real)
    requires forall j :: 0 <= j < n ==> c(j) == Sum(m, Column(f, j))
    ensures Sum(n, c) == Sum2(m, n, f)
  {
    if m == 0 {
      SumZero(n, c);
    } else {
      var c' := j => Sum(m - 1, Column(f, j));
      SumOfColumns(m - 1, n, f, c');
      SumAdd(n, c', Row(f, m - 1), c);
      SumOfRows(m - 1, n, f, i => Sum(n, Row(f, i)));
    }
  }

  lemma Sum2Congruence(m: nat, n: nat, f: (int, int) -> real, g: (int, int) -> real)
    requires forall i, j :: 0 <= i < m && 0 <= j < n ==> f(i, j) == g(i, j)
    ensures Sum2(m, n, f) == Sum2(m, n, g)
  {
    forall i | 0 <= i < m ensures Sum(n, Row(f, i)) == Sum(n, Row(g, i)) {
      SumCongruence(n, Row(f, i), Row(g, i));
    }
    SumCongruence(m, i => Sum(n, Row(f, i)), i => Sum(n, Row(g, i)));
  }

  lemma Sum2Add(m: nat, n: nat, f: (int, int) -> real, g: (int, int) -> real, h: (int, int) -> real)
    requires forall i, j :: 0 <= i < m && 0 <= j < n ==> h(i, j) == f(i, j) + g(i, j)
    ensures Sum2(m, n, h) == Sum2(m, n, f) + Sum2(m, n, g)
  {
    forall i | 0 <= i < m ensures Sum(n, Row(h, i)) == Sum(n, Row(f, i)) + Sum(n, Row(g, i)) {
      SumAdd(n, Row(f, i), Row(g, i), Row(h, i));
    }
    SumAdd(m, i => Sum(n, Row(f, i)), i => Sum(n, Row(g, i)), i => Sum(n, Row(h, i)));
  }

  lemma Sum2Scale(m: nat, n: nat, c: real, f: (int, int) -> real, g: (int, int) -> real)
    requires forall i, j :: g(i, j) == c * f(i, j)
    ensures Sum2(m, n, g) == c * Sum2(m, n, f)
  {
    forall i | 0 <= i < m ensures Sum(n, Row(g, i)) == c * Sum(n, Row(f, i)) {
      SumScale(n, c, Row(f, i), Row(g, i));
    }
    SumScale(m, c, i => Sum(n, Row(f, i)), i => Sum(n, Row(g, i)));
  }

  lemma Sum2Zero(m: nat, n: nat, f: (int, int) -> real)
    requires forall i, j :: 0 <= i < m && 0 <= j < n ==> f(i, j) == 0.0
    ensures Sum2(m, n, f) == 0.0
  {
    forall i | 0 <= i < m ensures Sum(n, Row(f, i)) == 0.0 {
      SumZero(n, Row(f, i));
    }
    SumZero(m, i => Sum(n, Row(f, i)));
  }

  /** A grid with one nonzero entry. */
  lemma Sum2Single(m: nat, n: nat, k: nat, l: nat, f: (int, int) -> real)
    requires k < m && l < n
    requires forall i, j :: 0 <= i < m && 0 <= j < n && (i != k || j != l) ==> f(i, j) == 0.0
    ensures Sum2(m, n, f) == f(k, l)
  {
    forall i | 0 <= i < m && i != k ensures Sum(n, Row(f, i)) == 0.0 {
      SumZero(n, Row(f, i));
    }
    SumSingle(n, l, Row(f, k));
    SumSingle(m, k, i => Sum(n, Row(f, i)));
  }

  /** Summing in another order: p is a permutation of 0..n-1 with inverse q. */
  lemma SumPermuted(n: nat, p: int -> int, q: int -> int, f: int -> real, g: int -> real)
    requires forall i :: 0 <= i < n ==> 0 <= p(i) < n && q(p(i)) == i
    requires forall i :: 0 <= i < n ==> 0 <= q(i) < n && p(q(i)) == i
    requires forall i :: 0 <= i < n ==> g(i) == f(p(i))
    ensures Sum(n, g) == Sum(n, f)
  {
    var grid: (int, int) -> real := (i, k) => if p(i) == k then f(k) else 0.0;
    forall i | 0 <= i < n ensures g(i) == Sum(n, Row(grid, i)) {
      SumSingle(n, p(i), Row(grid, i));
    }
    SumOfRows(n, n, grid, g);
    forall k | 0 <= k < n ensures f(k) == Sum(n, Column(grid, k)) {
      SumSingle(n, q(k), Column(grid, k));
    }
    SumOfColumns(n, n, grid, f);
  }
}
