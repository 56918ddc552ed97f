/** Quotients and remainders with a variable divisor. */
module Division {

  lemma MulAtLeast(k: nat, m: nat)
    requires k >= 1
    ensures k * m >= m
  {
    assert k * m == (k - 1) * m + m;
    assert (k - 1) * m >= 0;
  }

  lemma Decompose(x: nat, m: nat)
    requires m > 0
    ensures x == x / m * m + x % m && 0 <= x % m < m && x / m >= 0
  {
    assert x == m * (x / m) + x % m;
    assert m * (x / m) == x / m * m;
  }

  /** Quotient and remainder are determined by x == q * m + r. */
  lemma QuotientRemainder(x: nat, q: nat, m: nat, r: nat)
    requires r < m && x == q * m + r
    ensures x / m == q && x % m == r
  {
    var k := x / m;
    Decompose(x, m);
    assert k * m - q * m == r - x % m;
    if k > q {
      assert (k - q) * m == k * m - q * m;
      MulAtLeast(k - q, m);
    } else if k < q {
      assert (q - k) * m == q * m - k * m;
      MulAtLeast(q - k, m);
    }
  }

  /** Products are monotone. */
  lemma MulMonotone(a: nat, b: nat, m: nat)
    requires a <= b
    ensures a * m <= b * m
  {
    assert b * m == a * m + (b - a) * m;
    assert (b - a) * m >= 0;
  }

  /** Quotients are monotone. */
  lemma DivideMonotone(x: nat, y: nat, m: nat)
    requires m > 0 && x <= y
    ensures x / m <= y / m
  {
    Decompose(x, m);
    Decompose(y, m);
    var p, q := x / m, y / m;
    assert (q + 1) * m == q * m + m;
    if p > q {
      MulMonotone(q + 1, p, m);
    }
  }
}
