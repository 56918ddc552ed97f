/** Little-endian positional notation: digits, least significant first, and the number they write. */
module Positional {
  import opened Division

  function Power(base: nat, k: nat): nat {
    if k == 0 then 1 else base * Power(base, k - 1)
  }

  /** The number whose digits in the given base are ds, least significant first. */
  function Value(base: nat, ds: seq<nat>): nat {
    if |ds| == 0 then 0 else ds[0] + base * Value(base, ds[1..])
  }

  /** The k least significant digits of n. */
  function Digits(base: nat, n: nat, k: nat): (ds: seq<nat>)
    requires base > 0
    ensures |ds| == k && AllBelow(base, ds)
    decreases k
  {
    if k == 0 then [] else
      Decompose(n, base);
      var rest := Digits(base, n / base, k - 1);
      [n % base] + rest
  }

  predicate AllBelow(base: nat, ds: seq<nat>) {
    forall i :: 0 <= i < |ds| ==> ds[i] < base
  }

  lemma {:induction false} DigitsOfValue(base: nat, ds: seq<nat>)
    requires base > 0 && AllBelow(base, ds)
    ensures Digits(base, Value(base, ds), |ds|) == ds
  {
    if |ds| == 0 {
    } else {
      var rest := Value(base, ds[1..]);
      assert rest * base == base * rest;
      QuotientRemainder(Value(base, ds), rest, base, ds[0]);
      DigitsOfValue(base, ds[1..]);
    }
  }

  /** k digits determine the number they write. */
  lemma ValueInjective(base: nat, a: seq<nat>, b: seq<nat>)
    requires base > 0 && |a| == |b| && AllBelow(base, a) && AllBelow(base, b)
    requires Value(base, a) == Value(base, b)
    ensures a == b
  {
    DigitsOfValue(base, a);
    DigitsOfValue(base, b);
  }

  lemma {:induction false} ValueOfDigits(base: nat, n: nat, k: nat)
    requires base > 0 && n < Power(base, k)
    ensures Value(base, Digits(base, n, k)) == n
    decreases k
  {
    if k == 0 {
    } else {
      QuotientBelow(n, base, Power(base, k - 1));
      ValueOfDigits(base, n / base, k - 1);
      ValueFirst(base, n % base, Digits(base, n / base, k - 1));
      Decompose(n, base);
      Commute(base, n / base);
    }
  }

  lemma ValueFirst(base: nat, d: nat, rest: seq<nat>)
    ensures Value(base, [d] + rest) == d + base * Value(base, rest)
  {
    assert ([d] + rest)[1..] == rest;
  }

  lemma Commute(a: nat, b: nat)
    ensures a * b == b * a
  {}

  lemma QuotientBelow(n: nat, base: nat, p: nat)
    requires base > 0 && n < base * p
    ensures 0 <= n / base < p
  {
    Decompose(n, base);
    var q := n / base;
    assert p * base == base * p;
    if p <= q {
      MulMonotone(p, q, base);
      assert false;
    }
  }

  lemma {:induction false} ValueBound(base: nat, ds: seq<nat>)
    requires base > 0 && AllBelow(base, ds)
    ensures Value(base, ds) < Power(base, |ds|)
  {
    if |ds| == 0 {
    } else {
      ValueBound(base, ds[1..]);
      var v, p := Value(base, ds[1..]), Power(base, |ds| - 1);
      MulMonotone(v + 1, p, base);
      assert (v + 1) * base == base * v + base && p * base == base * p;
    }
  }
}
