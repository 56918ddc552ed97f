/** Signs of products, and quotients as solutions of equations. */
module RealArithmetic {

  function Abs(v: real): (a: real)
    ensures a >= 0.0 && (a == v || a == -v)
  {
    if v >= 0.0 then v else -v
  }

  lemma PositiveProduct(a: real, b: real)
    requires a > 0.0 && b > 0.0
    ensures a * b > 0.0
  {}

  lemma NonNegativeProduct(a: real, b: real)
    requires a >= 0.0 && b >= 0.0
    ensures a * b >= 0.0
  {}

  lemma MinusTimes(a: real, b: real, k: real)
    ensures (a - b) * k == a * k - b * k
  {}

  lemma QuotientAtMost(r: real, c: real, d: real)
    requires d > 0.0 && r <= c * d
    ensures r / d <= c
  {
    var g := r / d;
    assert g * d == r && (g - c) * d == g * d - c * d;
    if g > c {
      PositiveProduct(g - c, d);
      assert false;
    }
  }

  lemma QuotientAbove(r: real, c: real, d: real)
    requires d > 0.0 && c * d < r
    ensures c < r / d
  {
    var g := r / d;
    assert g * d == r && (c - g) * d == c * d - g * d;
    if g < c {
      PositiveProduct(c - g, d);
      assert false;
    }
  }

  lemma QuotientAtLeast(r: real, d: real)
    requires d > 0.0 && r >= 0.0
    ensures r / d >= 0.0
  {}

  lemma SquareMonotone(a: real, b: real)
    requires 0.0 <= a <= b
    ensures a * a <= b * b
  {
    assert b * b - a * a == (b - a) * (b + a);
    assert (b - a) * (b + a) >= 0.0;
  }

  lemma ZeroProduct(x: real, y: real)
    ensures x * y == 0.0 <==> x == 0.0 || y == 0.0
  {
    if x != 0.0 && y != 0.0 {
      NonZeroProduct(x, y);
    }
  }

  lemma NonZeroProduct(x: real, y: real)
    requires x != 0.0 && y != 0.0
    ensures x * y != 0.0
  {}

  lemma SquareIsZero(x: real)
    ensures x * x == 0.0 <==> x == 0.0
  {
    ZeroProduct(x, x);
  }

  lemma PositiveSquare(d: real, d2: real)
    requires d > 0.0 && d * d == d2
    ensures d2 > 0.0
  {
    var e := 1.0 / d;
    assert d * e == 1.0;
    assert d2 * e == d * (d * e);
    PositiveFactor(d2, e);
  }

  lemma PositiveFactor(x: real, y: real)
    requires y > 0.0 && x * y > 0.0
    ensures x > 0.0
  {}
}
