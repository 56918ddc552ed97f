/**
 * The unnormalised fast Walsh-Hadamard transform of the TQE1 reader: a butterfly loop,
 * specified by the Walsh matrix it multiplies by.
 */
module WalshHadamard {
  import opened Division
  import opened Matrices
  import opened Sums
  import opened Wrappers

  predicate IsPowerOfTwo(d: nat) {
    d == 1 || (d > 1 && d % 2 == 0 && IsPowerOfTwo(d / 2))
  }

  /** popcount(i AND j). */
  function CommonBits(i: nat, j: nat): nat {
    if i == 0 || j == 0 then 0 else (if i % 2 == 1 && j % 2 == 1 then 1 else 0) + CommonBits(i / 2, j / 2)
  }

  /** Entry (i, j) of the Walsh matrix: (-1) to the number of bits i and j share. */
  function Walsh(i: nat, j: nat): real {
    Sign(CommonBits(i, j))
  }

  /** (-1) to the n. */
  function Sign(n: nat): real {
    if n % 2 == 0 then 1.0 else -1.0
  }

  lemma SignFlips(n: nat)
    ensures Sign(n + 1) == -Sign(n)
  {}

  function WalshMatrix(): Mat {
    (i, j) => if i >= 0 && j >= 0 then Walsh(i, j) else 0.0
  }

  /** The Walsh matrix times the vector a. */
  function Transform(a: seq<real>): (out: seq<real>)
    ensures |out| == |a|
  {
    seq(|a|, i requires 0 <= i < |a| => Apply(|a|, WalshMatrix(), Entries(a))(i))
  }

  lemma TransformAt(a: seq<real>, i: nat)
    requires i < |a|
    ensures Entries(Transform(a))(i) == Transform(a)[i] == Apply(|a|, WalshMatrix(), Entries(a))(i)
  {}

  // ---------------------------------------------------------------- the loop

  /**
   * One pass with half-width h. Position i of a row reshaped to (d/(2h), 2, h) has middle
   * coordinate (i / h) % 2: it holds x + y in the first half of its block, x - y in the second.
   */
  function Butterfly(a: seq<real>, h: nat): (out: seq<real>)
    requires h > 0 && |a| % (2 * h) == 0
    ensures |out| == |a|
  {
    seq(|a|, i requires 0 <= i < |a| =>
      BlockBounds(|a|, h, i);
      if (i / h) % 2 == 0 then a[i] + a[i + h] else a[i - h] - a[i])
  }

  lemma BlockBounds(d: nat, h: nat, i: nat)
    requires h > 0 && d % (2 * h) == 0 && i < d
    ensures (i / h) % 2 == 0 ==> i + h < d
    ensures (i / h) % 2 == 1 ==> i >= h
  {
    Decompose(i, h);
    if (i / h) % 2 == 0 {
      var b, q := i / h / 2, d / (2 * h);
      Decompose(d, 2 * h);
      assert i / h == 2 * b;
      if q <= b {
        MulMonotone(2 * q, 2 * b, h);
        assert false;
      }
      MulMonotone(2 * b + 2, 2 * q, h);
    } else {
      MulAtLeast(i / h, h);
    }
  }

  /** Where the aligned block of length h around position i begins. */
  function BlockStart(i: nat, h: nat): nat
    requires h > 0
  {
    Decompose(i, h);
    i - i % h
  }

  /** Row r of w applied to the block of a that begins at start. */
  function BlockTerm(w: Mat, a: seq<real>, start: nat, r: nat): int -> real {
    t => w(r, t) * At(a, start + t)
  }

  /** Every aligned block of length h has been transformed on its own. */
  ghost predicate BlocksDone(a: seq<real>, out: seq<real>, h: nat)
    requires h > 0
  {
    |out| == |a| && forall i :: 0 <= i < |a| ==> out[i] == Sum(h, BlockTerm(WalshMatrix(), a, BlockStart(i, h), i % h))
  }

  /**
   * The reader's transform. numpy refuses the reshape of a pass whose blocks do not tile the
   * row, and of a row of length 0.
   */
  method Fwht(a: seq<real>) returns (r: Option<seq<real>>)
    ensures r == if IsPowerOfTwo(|a|) then Some(Transform(a)) else None
  {
    if |a| == 0 {
      return None;
    }
    var out, h := a, 1;
    BlocksOfOne(a);
    while h < |a|
      invariant 1 <= h && IsPowerOfTwo(h) && |a| % h == 0
      invariant BlocksDone(a, out, h)
      decreases |a| - h
    {
      if |a| / (2 * h) * 2 * h != |a| {
        NotPowerOfTwo(|a|, h);
        return None;
      }
      QuotientRemainder(|a|, |a| / (2 * h), 2 * h, 0);
      ButterflyDoubles(a, out, h);
      out := Butterfly(out, h);
      h := 2 * h;
    }
    assert h == |a| by { MultipleAtMost(|a|, h); }
    OneBlock(a, out);
    return Some(out);
  }

  /** Blocks of length 1 are their own transforms. */
  lemma BlocksOfOne(a: seq<real>)
    ensures BlocksDone(a, a, 1)
  {
    forall i | 0 <= i < |a| ensures a[i] == Sum(1, BlockTerm(WalshMatrix(), a, BlockStart(i, 1), i % 1)) {
      QuotientRemainder(i, i, 1, 0);
      OneTerm(a, i);
    }
  }

  lemma OneTerm(a: seq<real>, i: nat)
    requires i < |a|
    ensures a[i] == Sum(1, BlockTerm(WalshMatrix(), a, i, 0))
  {
    SumOfOneTerm(BlockTerm(WalshMatrix(), a, i, 0));
    assert WalshMatrix()(0, 0) == Walsh(0, 0) == 1.0;
  }

  /** A single block of the full length is the whole transform. */
  lemma OneBlock(a: seq<real>, out: seq<real>)
    requires |a| > 0 && BlocksDone(a, out, |a|)
    ensures out == Transform(a)
  {
    forall i | 0 <= i < |a| ensures out[i] == Transform(a)[i] {
      QuotientRemainder(i, 0, |a|, i);
      WholeBlock(a, i);
    }
  }

  lemma WholeBlock(a: seq<real>, i: nat)
    requires i < |a|
    ensures Transform(a)[i] == Sum(|a|, BlockTerm(WalshMatrix(), a, 0, i))
  {
    var f, g := BlockTerm(WalshMatrix(), a, 0, i), Product(Row(WalshMatrix(), i), Entries(a));
    forall t | 0 <= t < |a| ensures f(t) == g(t) {}
    SumCongruence(|a|, f, g);
    TransformAt(a, i);
  }

  lemma MultipleAtMost(d: nat, h: nat)
    requires 0 < d <= h && d % h == 0
    ensures d == h
  {}

  lemma {:induction false} NotPowerOfTwo(d: nat, h: nat)
    requires IsPowerOfTwo(h) && h < d && d % h == 0 && d / (2 * h) * 2 * h != d
    ensures !IsPowerOfTwo(d)
    decreases d
  {
    if !IsPowerOfTwo(d) || h == 1 {
    } else {
      HalvesDoNotTile(d, h, d / 2, h / 2);
      NotPowerOfTwo(d / 2, h / 2);
    }
  }

  /** Blocks of length 2h' tile d' = d / 2 no better than blocks of length 2h tile d. */
  lemma HalvesDoNotTile(d: nat, h: nat, d': nat, h': nat)
    requires d == 2 * d' && h == 2 * h' && h > 0 && d % h == 0 && d / (2 * h) * 2 * h != d
    ensures d' % h' == 0 && d' / (2 * h') * 2 * h' != d'
  {
    var q, p := d / h, d' / (2 * h');
    Decompose(d, h);
    assert 2 * d' == q * (2 * h') == 2 * (q * h');
    QuotientRemainder(d', q, h', 0);
    if p * 2 * h' == d' {
      assert d == p * (2 * h);
      QuotientRemainder(d, p, 2 * h, 0);
      assert false;
    }
  }

  // ------------------------------------------------ one pass doubles the blocks

  /** The r-th position of the upper or lower half of a block of length 2h. */
  function InHalf(upper: bool, h: nat, r: nat): nat {
    if upper then h + r else r
  }

  /** The Walsh matrix of size 2h is [[W, W], [W, -W]] for h a power of two. */
  lemma WalshBlocks(h: nat, upper: bool, r: nat, t: nat)
    requires IsPowerOfTwo(h) && r < h && t < h
    ensures Walsh(InHalf(upper, h, r), t) == Walsh(r, t)
    ensures Walsh(InHalf(upper, h, r), h + t) == Flipped(upper, Walsh(r, t))
  {
    CommonBitsOfBlocks(h, upper, r, false, t);
    CommonBitsOfBlocks(h, upper, r, true, t);
    SignFlips(CommonBits(r, t));
  }

  /** The leading 2h x 2h part of w is [[W, W], [W, -W]], W its leading h x h part. */
  ghost predicate HasBlocks(w: Mat, h: nat) {
    forall upper: bool, r: nat, t: nat :: r < h && t < h ==>
      && w(InHalf(upper, h, r), t) == w(r, t)
      && w(InHalf(upper, h, r), h + t) == Flipped(upper, w(r, t))
  }

  lemma WalshHasBlocks(h: nat)
    requires IsPowerOfTwo(h)
    ensures HasBlocks(WalshMatrix(), h)
  {
    forall upper: bool, r: nat, t: nat | r < h && t < h
      ensures Walsh(InHalf(upper, h, r), t) == Walsh(r, t)
      ensures Walsh(InHalf(upper, h, r), h + t) == Flipped(upper, Walsh(r, t))
    {
      WalshBlocks(h, upper, r, t);
    }
  }

  lemma {:induction false} CommonBitsOfBlocks(h: nat, c: bool, r: nat, e: bool, t: nat)
    requires IsPowerOfTwo(h) && r < h && t < h
    ensures CommonBits(InHalf(c, h, r), InHalf(e, h, t)) == CommonBits(r, t) + (if c && e then 1 else 0)
  {
    var i, j := InHalf(c, h, r), InHalf(e, h, t);
    CommonBitsStep(i, j);
    CommonBitsStep(r, t);
    if h == 1 {
    } else {
      var k := h / 2;
      assert i / 2 == InHalf(c, k, r / 2) && i % 2 == r % 2;
      assert j / 2 == InHalf(e, k, t / 2) && j % 2 == t % 2;
      CommonBitsOfBlocks(k, c, r / 2, e, t / 2);
    }
  }

  lemma CommonBitsStep(i: nat, j: nat)
    ensures CommonBits(i, j) == (if i % 2 == 1 && j % 2 == 1 then 1 else 0) + CommonBits(i / 2, j / 2)
  {}

  lemma ButterflyDoubles(a: seq<real>, out: seq<real>, h: nat)
    requires IsPowerOfTwo(h) && |a| % (2 * h) == 0 && BlocksDone(a, out, h)
    ensures BlocksDone(a, Butterfly(out, h), 2 * h)
    ensures |a| % (2 * h) == 0
  {
    forall i | 0 <= i < |a|
      ensures Butterfly(out, h)[i] == Sum(2 * h, BlockTerm(WalshMatrix(), a, BlockStart(i, 2 * h), i % (2 * h))) {
      ButterflyDoublesAt(a, out, h, i);
    }
  }

  lemma ButterflyDoublesAt(a: seq<real>, out: seq<real>, h: nat, i: nat)
    requires IsPowerOfTwo(h) && |a| % (2 * h) == 0 && BlocksDone(a, out, h) && i < |a|
    ensures Butterfly(out, h)[i] == Sum(2 * h, BlockTerm(WalshMatrix(), a, BlockStart(i, 2 * h), i % (2 * h)))
  {
    BlockIndex(i, h);
    HalvesAreDone(a, out, h, i);
    WalshHasBlocks(h);
    ButterflyAt(WalshMatrix(), a, out, h, i, BlockStart(i, 2 * h), i % h, (i / h) % 2 == 1);
  }

  /** Position r of both halves of the block of length 2h at start holds the transform of its half. */
  ghost predicate HalvesDone(w: Mat, a: seq<real>, out: seq<real>, h: nat, start: nat, r: nat) {
    && start + h + r < |out|
    && out[start + r] == Sum(h, BlockTerm(w, a, start, r))
    && out[start + h + r] == Sum(h, BlockTerm(w, a, start + h, r))
  }

  lemma HalvesAreDone(a: seq<real>, out: seq<real>, h: nat, i: nat)
    requires h > 0 && |a| % (2 * h) == 0 && BlocksDone(a, out, h) && i < |a|
    ensures HalvesDone(WalshMatrix(), a, out, h, BlockStart(i, 2 * h), i % h)
  {
    BlockIndex(i, h);
    BlockBounds(|a|, h, i);
    HalfDone(a, out, h, i, false);
    HalfDone(a, out, h, i, true);
  }

  lemma ButterflyValue(a: seq<real>, h: nat, i: nat, upper: bool)
    requires h > 0 && |a| % (2 * h) == 0 && i < |a| && (upper <==> (i / h) % 2 == 1)
    ensures upper ==> i >= h && Butterfly(a, h)[i] == a[i - h] - a[i]
    ensures !upper ==> i + h < |a| && Butterfly(a, h)[i] == a[i] + a[i + h]
  {
    BlockBounds(|a|, h, i);
  }

  lemma ButterflyAt(w: Mat, a: seq<real>, out: seq<real>, h: nat, i: nat, start: nat, r: nat, upper: bool)
    requires HasBlocks(w, h) && h > 0 && |out| % (2 * h) == 0 && i < |out| && r < h
         && HalvesDone(w, a, out, h, start, r)
    requires (upper <==> (i / h) % 2 == 1) && i == start + InHalf(upper, h, r)
    ensures Butterfly(out, h)[i] == Sum(2 * h, BlockTerm(w, a, start, InHalf(upper, h, r)))
  {
    ButterflyValue(out, h, i, upper);
    SumOfHalves(w, a, start, upper, r, h);
  }

  lemma HalfDone(a: seq<real>, out: seq<real>, h: nat, i: nat, upper: bool)
    requires h > 0 && BlocksDone(a, out, h)
    requires BlockStart(i, 2 * h) + InHalf(upper, h, i % h) < |a|
    ensures var start, r := BlockStart(i, 2 * h), i % h;
            out[start + InHalf(upper, h, r)] == Sum(h, BlockTerm(WalshMatrix(), a, InHalf(upper, h, start), r))
  {
    HalfBlock(i, h, upper);
  }

  lemma SumOfHalves(w: Mat, a: seq<real>, start: nat, upper: bool, r: nat, h: nat)
    requires HasBlocks(w, h) && r < h
    ensures Sum(2 * h, BlockTerm(w, a, start, InHalf(upper, h, r)))
         == Sum(h, BlockTerm(w, a, start, r)) + Flipped(upper, Sum(h, BlockTerm(w, a, start + h, r)))
  {
    var f, f0 := BlockTerm(w, a, start, InHalf(upper, h, r)), BlockTerm(w, a, start, r);
    var f1 := BlockTerm(w, a, start + h, r);
    forall t | 0 <= t < h ensures f(t) == f0(t) && f(h + t) == Flipped(upper, f1(t)) {
      HalfTerms(w, a, start, upper, r, h, t);
    }
    SumCongruence(h, f, f0);
    SumOfSignedHalves(h, upper, f, f1);
  }

  lemma HalfTerms(w: Mat, a: seq<real>, start: nat, upper: bool, r: nat, h: nat, t: nat)
    requires HasBlocks(w, h) && r < h && t < h
    ensures var f := BlockTerm(w, a, start, InHalf(upper, h, r));
            && f(t) == BlockTerm(w, a, start, r)(t)
            && f(h + t) == Flipped(upper, BlockTerm(w, a, start + h, r)(t))
  {
    assert start + h + t == start + (h + t);
    FlippedProduct(upper, false, w(r, t), At(a, start + h + t));
  }

  /** Where position i sits in its block of length 2h. */
  lemma BlockIndex(i: nat, h: nat)
    requires h > 0
    ensures i % (2 * h) == InHalf((i / h) % 2 == 1, h, i % h)
  {
    var b, r := i / h / 2, i % h;
    Decompose(i, h);
    if (i / h) % 2 == 1 {
      assert (2 * b + 1) * h == b * (2 * h) + h;
      QuotientRemainder(i, b, 2 * h, h + r);
    } else {
      assert 2 * b * h == b * (2 * h);
      QuotientRemainder(i, b, 2 * h, r);
    }
  }

  /** The two halves of a block of length 2h are blocks of length h. */
  lemma HalfBlock(i: nat, h: nat, upper: bool)
    requires h > 0
    ensures var start, r := BlockStart(i, 2 * h), i % h;
            && BlockStart(start + InHalf(upper, h, r), h) == InHalf(upper, h, start)
            && (start + InHalf(upper, h, r)) % h == r
  {
    var b, r, start := i / (2 * h), i % h, BlockStart(i, 2 * h);
    Decompose(i, 2 * h);
    assert 2 * b * h == start;
    if upper {
      assert (2 * b + 1) * h == start + h;
      QuotientRemainder(start + h + r, 2 * b + 1, h, r);
    } else {
      QuotientRemainder(start + r, 2 * b, h, r);
    }
  }
}
