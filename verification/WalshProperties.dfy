/** What the Walsh-Hadamard transform is: symmetric, self-adjoint and its own inverse up to d. */
module WalshProperties {
  import opened Division
  import opened Matrices
  import opened Sums
  import opened WalshHadamard

  lemma {:induction false} CommonBitsSymmetric(i: nat, j: nat)
    ensures CommonBits(i, j) == CommonBits(j, i)
  {
    if i == 0 || j == 0 {
    } else {
      CommonBitsSymmetric(i / 2, j / 2);
    }
  }

  lemma RowsOfBlocks(w: Mat, h: nat, ui: bool, r: nat, uk: bool, s: nat)
    requires HasBlocks(w, h) && r < h && s < h
    ensures Dot(2 * h, Row(w, InHalf(ui, h, r)), Row(w, InHalf(uk, h, s)))
         == if ui != uk then 0.0 else 2.0 * Dot(h, Row(w, r), Row(w, s))
  {
    var f, g := Product(Row(w, InHalf(ui, h, r)), Row(w, InHalf(uk, h, s))), Product(Row(w, r), Row(w, s));
    forall t | 0 <= t < h ensures f(t) == g(t) && f(h + t) == Flipped(ui != uk, g(t)) {
      EntriesOfBlocks(w, h, ui, r, uk, s, t);
    }
    SumCongruence(h, f, g);
    SumOfSignedHalves(h, ui != uk, f, g);
  }

  lemma EntriesOfBlocks(w: Mat, h: nat, ui: bool, r: nat, uk: bool, s: nat, t: nat)
    requires HasBlocks(w, h) && r < h && s < h && t < h
    ensures var i, k, x := InHalf(ui, h, r), InHalf(uk, h, s), w(r, t) * w(s, t);
            && w(i, t) * w(k, t) == x
            && w(i, h + t) * w(k, h + t) == Flipped(ui != uk, x)
  {
    FlippedProduct(ui, uk, w(r, t), w(s, t));
  }

  /** The rows of the Walsh matrix are orthogonal, each of squared length d. */
  lemma {:induction false} RowsOrthogonal(d: nat, i: nat, k: nat)
    requires IsPowerOfTwo(d) && i < d && k < d
    ensures Dot(d, Row(WalshMatrix(), i), Row(WalshMatrix(), k)) == if i == k then d as real else 0.0
  {
    if d == 1 {
      SumOfOneTerm(Product(Row(WalshMatrix(), 0), Row(WalshMatrix(), 0)));
    } else {
      var h := d / 2;
      var r, s := i % h, k % h;
      HalfOfIndex(h, i);
      HalfOfIndex(h, k);
      RowsOrthogonal(h, r, s);
      WalshHasBlocks(h);
      OrthogonalDoubles(WalshMatrix(), h, i >= h, r, k >= h, s);
    }
  }

  lemma HalfOfIndex(h: nat, i: nat)
    requires i < 2 * h
    ensures i % h < h && i == InHalf(i >= h, h, i % h)
  {
    QuotientRemainder(i, if i >= h then 1 else 0, h, if i >= h then i - h else i);
  }

  lemma OrthogonalDoubles(w: Mat, h: nat, ui: bool, r: nat, uk: bool, s: nat)
    requires HasBlocks(w, h) && r < h && s < h
    requires Dot(h, Row(w, r), Row(w, s)) == if r == s then h as real else 0.0
    ensures var i, k := InHalf(ui, h, r), InHalf(uk, h, s);
            Dot(2 * h, Row(w, i), Row(w, k)) == if i == k then (2 * h) as real else 0.0
  {
    RowsOfBlocks(w, h, ui, r, uk, s);
  }

  /** The Walsh matrix times itself is d times the identity. */
  lemma WalshSquared(d: nat)
    requires IsPowerOfTwo(d)
    ensures IsScalar(d, Mul(d, WalshMatrix(), WalshMatrix()), d as real)
  {
    var w := WalshMatrix();
    forall i, k | 0 <= i < d && 0 <= k < d ensures Mul(d, w, w)(i, k) == if i == k then d as real else 0.0 {
      forall j | 0 <= j < d ensures Column(w, k)(j) == Row(w, k)(j) {
        CommonBitsSymmetric(j, k);
      }
      DotCongruence(d, Row(w, i), Row(w, i), Column(w, k), Row(w, k));
      RowsOrthogonal(d, i, k);
    }
  }

  /** <a, Hb> = <Ha, b>. */
  lemma SelfAdjoint(a: seq<real>, b: seq<real>)
    requires |a| == |b|
    ensures Dot(|a|, Entries(a), Entries(Transform(b))) == Dot(|a|, Entries(Transform(a)), Entries(b))
  {
    var d, w := |a|, WalshMatrix();
    Adjoint(d, d, w, Entries(a), Entries(b));
    forall i | 0 <= i < d
      ensures Entries(Transform(b))(i) == Apply(d, w, Entries(b))(i)
      ensures Entries(Transform(a))(i) == Apply(d, Transpose(w), Entries(a))(i)
    {
      TransformAt(a, i);
      TransformAt(b, i);
      forall j | 0 <= j < d ensures Row(Transpose(w), i)(j) == Row(w, i)(j) {
        CommonBitsSymmetric(i, j);
      }
      DotCongruence(d, Row(w, i), Row(Transpose(w), i), Entries(a), Entries(a));
    }
    DotCongruence(d, Entries(a), Entries(a), Entries(Transform(b)), Apply(d, w, Entries(b)));
    DotCongruence(d, Entries(Transform(a)), Apply(d, Transpose(w), Entries(a)), Entries(b), Entries(b));
  }

  /** H(Ha) = d a. */
  lemma Involution(a: seq<real>)
    requires IsPowerOfTwo(|a|)
    ensures forall i :: 0 <= i < |a| ==> Transform(Transform(a))[i] == |a| as real * a[i]
  {
    WalshSquared(|a|);
    forall i | 0 <= i < |a| ensures Transform(Transform(a))[i] == |a| as real * a[i] {
      InvolutionAt(a, |a| as real, i);
    }
  }

  lemma InvolutionAt(a: seq<real>, c: real, i: nat)
    requires i < |a| && IsScalar(|a|, Mul(|a|, WalshMatrix(), WalshMatrix()), c)
    ensures Transform(Transform(a))[i] == c * a[i]
  {
    TransformTwice(a, i);
    ApplyInverse(|a|, |a|, WalshMatrix(), WalshMatrix(), c, Entries(a), i);
  }

  lemma TransformTwice(a: seq<real>, i: nat)
    requires i < |a|
    ensures Transform(Transform(a))[i] == Apply(|a|, WalshMatrix(), Apply(|a|, WalshMatrix(), Entries(a)))(i)
  {
    var d, w := |a|, WalshMatrix();
    forall j | 0 <= j < d ensures Entries(Transform(a))(j) == Apply(d, w, Entries(a))(j) {
      TransformAt(a, j);
    }
    TransformAt(Transform(a), i);
    DotCongruence(d, Row(w, i), Row(w, i), Entries(Transform(a)), Apply(d, w, Entries(a)));
  }
}
