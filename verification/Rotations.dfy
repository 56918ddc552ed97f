/**
 * The three orthogonal rotation families of TQE1 and the reader's un-rotation. The seeded draws
 * (signs, permutation, orthogonal matrix) are arbitrary inputs, and `scale` stands for
 * 1 / sqrt(dim).
 */
module Rotations {
  import opened Matrices
  import opened Permutations
  import opened Sums
  import opened Tqe1Format
  import opened WalshHadamard
  import opened WalshProperties
  import opened Wrappers

  /** Everything the seed determines. `order` is the argsort of `perm`; `q` comes from the QR. */
  datatype Draws = Draws(sign: seq<real>, perm: seq<int>, order: seq<int>, q: Mat)

  ghost predicate AreSigns(sign: seq<real>) {
    forall i :: 0 <= i < |sign| ==> sign[i] == 1.0 || sign[i] == -1.0
  }

  ghost predicate ValidDraws(d: Draws, dim: nat) {
    && |d.sign| == dim && AreSigns(d.sign)
    && |d.perm| == dim && IsPermutation(d.perm) && IsArgsort(d.perm, d.order)
    && OrthonormalRows(dim, dim, d.q) && OrthonormalRows(dim, dim, Transpose(d.q))
  }

  ghost predicate IsScale(scale: real, dim: nat) {
    scale > 0.0 && scale * scale * dim as real == 1.0
  }

  /** What the Hadamard rotation needs. */
  ghost predicate IsHadamardScale(scale: real, dim: nat) {
    IsPowerOfTwo(dim) && IsScale(scale, dim)
  }

  const MAX_QR_DIM := 4096

  // ------------------------------------------------------------------ un-rotation

  function Times(c: real, a: seq<real>): (b: seq<real>)
    ensures |b| == |a| && forall i :: 0 <= i < |b| ==> b[i] == c * a[i]
  {
    seq(|a|, i requires 0 <= i < |a| => c * a[i])
  }

  function Signed(x: seq<real>, sign: seq<real>): (z: seq<real>)
    requires |sign| == |x|
    ensures |z| == |x|
  {
    seq(|x|, i requires 0 <= i < |x| => x[i] * sign[i])
  }

  function UnrotateHadamard(y: seq<real>, sign: seq<real>, scale: real): (x: seq<real>)
    requires |sign| == |y|
    ensures |x| == |y|
  {
    Signed(Times(scale, Transform(y)), sign)
  }

  /** w a for a square matrix w. */
  function TimesMatrix(w: Mat, a: seq<real>): (b: seq<real>)
    ensures |b| == |a|
    ensures forall i :: 0 <= i < |a| ==> b[i] == Apply(|a|, w, Entries(a))(i)
  {
    seq(|a|, i requires 0 <= i < |a| => Apply(|a|, w, Entries(a))(i))
  }

  function UnrotateStructured(y: seq<real>, sign: seq<real>, order: seq<int>): (x: seq<real>)
    requires |sign| == |order| == |y|
    requires forall i :: 0 <= i < |y| ==> 0 <= order[i] < |y| && sign[i] != 0.0
    ensures |x| == |y|
  {
    seq(|y|, i requires 0 <= i < |y| => y[order[i]] / sign[i])
  }

  /** Which un-rotation a record asks for; None where the transform refuses the length. */
  ghost function Unrotated(y: seq<real>, d: Draws, scale: real, rotation: Rotation): (x: Option<seq<real>>)
    requires ValidDraws(d, |y|)
    ensures x.Some? ==> |x.value| == |y|
  {
    if rotation == Hadamard then
      if IsPowerOfTwo(|y|) then Some(UnrotateHadamard(y, d.sign, scale)) else None
    else if |y| <= MAX_QR_DIM then Some(TimesMatrix(Transpose(d.q), y))
    else Some(UnrotateStructured(y, d.sign, d.order))
  }

  /** The reader's un-rotation of a vector of length dim. */
  method Unrotate(y: seq<real>, d: Draws, scale: real, rotation: Rotation) returns (x: Option<seq<real>>)
    requires ValidDraws(d, |y|)
    ensures x == Unrotated(y, d, scale, rotation)
  {
    if rotation == Hadamard {
      var t := Fwht(y);
      if t.None? {
        return None;
      }
      return Some(Signed(Times(scale, t.value), d.sign));
    }
    if |y| <= MAX_QR_DIM {
      return Some(TimesMatrix(Transpose(d.q), y));
    }
    return Some(UnrotateStructured(y, d.sign, d.order));
  }

  // ------------------------------------------------------------------ the rotation it undoes

  function RotateHadamard(x: seq<real>, sign: seq<real>, scale: real): (y: seq<real>)
    requires |sign| == |x|
    ensures |y| == |x|
  {
    Times(scale, Transform(Signed(x, sign)))
  }

  function RotateStructured(x: seq<real>, sign: seq<real>, perm: seq<int>): (y: seq<real>)
    requires |sign| == |perm| == |x| && forall i :: 0 <= i < |x| ==> 0 <= perm[i] < |x|
    ensures |y| == |x|
  {
    seq(|x|, i requires 0 <= i < |x| => Signed(x, sign)[perm[i]])
  }

  /** R x for the three families: scale H diag(sign), Q, and sign flip then permutation. */
  ghost function Rotated(x: seq<real>, d: Draws, scale: real, rotation: Rotation): (y: seq<real>)
    requires ValidDraws(d, |x|)
    ensures |y| == |x|
  {
    if rotation == Hadamard then RotateHadamard(x, d.sign, scale)
    else if |x| <= MAX_QR_DIM then TimesMatrix(d.q, x)
    else RotateStructured(x, d.sign, d.perm)
  }

  /** Un-rotating a rotated vector gives it back, in all three families. */
  lemma UnrotateInvertsRotate(x: seq<real>, d: Draws, scale: real, rotation: Rotation)
    requires ValidDraws(d, |x|) && IsScale(scale, |x|)
    requires rotation == Hadamard ==> IsPowerOfTwo(|x|)
    ensures Unrotated(Rotated(x, d, scale, rotation), d, scale, rotation) == Some(x)
  {
    if rotation == Hadamard {
      HadamardThere(x, d.sign, scale);
    } else if |x| <= MAX_QR_DIM {
      InverseOfMatrix(x, d.q);
    } else {
      StructuredThere(x, d);
    }
  }

  /** Rotating an un-rotated vector gives it back, in all three families. */
  lemma RotateInvertsUnrotate(y: seq<real>, d: Draws, scale: real, rotation: Rotation)
    requires ValidDraws(d, |y|) && IsScale(scale, |y|)
    requires rotation == Hadamard ==> IsPowerOfTwo(|y|)
    ensures Rotated(Unrotated(y, d, scale, rotation).value, d, scale, rotation) == y
  {
    if rotation == Hadamard {
      HadamardBack(y, d.sign, scale);
    } else if |y| <= MAX_QR_DIM {
      TimesInverse(d.q, Transpose(d.q), y);
    } else {
      StructuredBack(y, d);
    }
  }

  lemma StructuredThere(x: seq<real>, d: Draws)
    requires ValidDraws(d, |x|)
    ensures UnrotateStructured(RotateStructured(x, d.sign, d.perm), d.sign, d.order) == x
  {
    ArgsortInverts(d.perm, d.order);
    var y := RotateStructured(x, d.sign, d.perm);
    forall i | 0 <= i < |x| ensures UnrotateStructured(y, d.sign, d.order)[i] == x[i] {
      var k := d.order[i];
      assert d.perm[k] == i && y[k] == Signed(x, d.sign)[i];
      SignDivides(d.sign[i], x[i]);
    }
  }

  lemma StructuredBack(y: seq<real>, d: Draws)
    requires ValidDraws(d, |y|)
    ensures RotateStructured(UnrotateStructured(y, d.sign, d.order), d.sign, d.perm) == y
  {
    ArgsortInverts(d.perm, d.order);
    var x := UnrotateStructured(y, d.sign, d.order);
    forall i | 0 <= i < |y| ensures RotateStructured(x, d.sign, d.perm)[i] == y[i] {
      var k := d.perm[i];
      assert d.order[k] == i && x[k] == y[i] / d.sign[k];
      SignDivides(d.sign[k], y[i]);
      assert Signed(x, d.sign)[k] == y[i];
    }
  }

  lemma SignDivides(sign: real, v: real)
    requires sign == 1.0 || sign == -1.0
    ensures v * sign / sign == v && v / sign * sign == v
  {}

  /** V W = I gives V (W x) = x. */
  lemma TimesInverse(v: Mat, w: Mat, x: seq<real>)
    requires IsScalar(|x|, Mul(|x|, v, w), 1.0)
    ensures TimesMatrix(v, TimesMatrix(w, x)) == x
  {
    var n, y := |x|, TimesMatrix(w, x);
    forall i | 0 <= i < n ensures TimesMatrix(v, y)[i] == x[i] {
      DotCongruence(n, Row(v, i), Row(v, i), Entries(y), Apply(n, w, Entries(x)));
      ApplyInverse(n, n, v, w, 1.0, Entries(x), i);
    }
  }

  lemma InverseOfMatrix(x: seq<real>, q: Mat)
    requires OrthonormalRows(|x|, |x|, Transpose(q))
    ensures TimesMatrix(Transpose(q), TimesMatrix(q, x)) == x
  {
    var n, t := |x|, Transpose(q);
    forall a, b | 0 <= a < n && 0 <= b < n ensures Mul(n, t, q)(a, b) == Mul(n, t, Transpose(t))(a, b) {
      DotCongruence(n, Row(t, a), Row(t, a), Column(q, b), Column(Transpose(t), b));
    }
    TimesInverse(t, q, x);
  }

  lemma SignedTwice(x: seq<real>, sign: seq<real>)
    requires |sign| == |x| && AreSigns(sign)
    ensures Signed(Signed(x, sign), sign) == x
  {
    forall i | 0 <= i < |x| ensures Signed(Signed(x, sign), sign)[i] == x[i] {
      SignCancels(sign[i], x[i]);
    }
  }

  lemma SignCancels(sign: real, v: real)
    requires sign == 1.0 || sign == -1.0
    ensures v * sign * sign == v
  {}

  /** The transform is linear. */
  lemma TransformScales(z: seq<real>, c: real)
    ensures Transform(Times(c, z)) == Times(c, Transform(z))
  {
    forall i | 0 <= i < |z| ensures Transform(Times(c, z))[i] == c * Transform(z)[i] {
      TransformScalesAt(z, c, i);
    }
  }

  lemma TransformScalesAt(z: seq<real>, c: real, i: nat)
    requires i < |z|
    ensures Transform(Times(c, z))[i] == c * Transform(z)[i]
  {
    TransformAt(z, i);
    TransformAt(Times(c, z), i);
    var w := Row(WalshMatrix(), i);
    DotCongruence(|z|, w, w, Entries(Times(c, z)), Scaled(c, Entries(z)));
    DotScale(|z|, c, w, Entries(z));
  }

  /** scale H (scale H z) = scale^2 d z = z. */
  lemma ScaledTransformTwice(z: seq<real>, scale: real)
    requires IsHadamardScale(scale, |z|)
    ensures Times(scale, Transform(Times(scale, Transform(z)))) == z
  {
    TransformScales(Transform(z), scale);
    TransformOfTransform(z);
    TimesThrice(scale, |z| as real, z);
  }

  lemma TransformOfTransform(z: seq<real>)
    requires IsPowerOfTwo(|z|)
    ensures Transform(Transform(z)) == Times(|z| as real, z)
  {
    Involution(z);
    assert |Transform(Transform(z))| == |z|;
  }

  lemma TimesThrice(scale: real, dim: real, z: seq<real>)
    requires scale * scale * dim == 1.0
    ensures Times(scale, Times(scale, Times(dim, z))) == z
  {
    forall i | 0 <= i < |z| ensures Times(scale, Times(scale, Times(dim, z)))[i] == z[i] {
      ScaleCancels(scale, dim, z[i]);
    }
  }

  lemma ScaleCancels(scale: real, dim: real, v: real)
    requires scale * scale * dim == 1.0
    ensures scale * (scale * (dim * v)) == v
  {
    assert scale * (scale * (dim * v)) == scale * scale * dim * v;
  }

  lemma HadamardThere(x: seq<real>, sign: seq<real>, scale: real)
    requires |sign| == |x| && AreSigns(sign) && IsHadamardScale(scale, |x|)
    ensures UnrotateHadamard(RotateHadamard(x, sign, scale), sign, scale) == x
  {
    ScaledTransformTwice(Signed(x, sign), scale);
    SignedTwice(x, sign);
  }

  lemma HadamardBack(y: seq<real>, sign: seq<real>, scale: real)
    requires |sign| == |y| && AreSigns(sign) && IsHadamardScale(scale, |y|)
    ensures RotateHadamard(UnrotateHadamard(y, sign, scale), sign, scale) == y
  {
    SignedTwice(Times(scale, Transform(y)), sign);
    ScaledTransformTwice(y, scale);
  }

  // ------------------------------------------------------------------ lengths are kept

  /** Un-rotation keeps inner products, in all three families. */
  lemma UnrotateKeepsInnerProducts(y: seq<real>, z: seq<real>, d: Draws, scale: real, rotation: Rotation)
    requires |y| == |z| && ValidDraws(d, |y|) && IsScale(scale, |y|)
    requires rotation == Hadamard ==> IsPowerOfTwo(|y|)
    ensures var u, v := Unrotated(y, d, scale, rotation).value, Unrotated(z, d, scale, rotation).value;
            Dot(|y|, Entries(u), Entries(v)) == Dot(|y|, Entries(y), Entries(z))
  {
    if rotation == Hadamard {
      HadamardKeepsInnerProducts(y, z, d.sign, scale);
    } else if |y| <= MAX_QR_DIM {
      MatrixKeepsInnerProducts(y, z, d.q);
    } else {
      StructuredKeepsInnerProducts(y, z, d);
    }
  }

  lemma MatrixKeepsInnerProducts(y: seq<real>, z: seq<real>, q: Mat)
    requires |y| == |z| && OrthonormalRows(|y|, |y|, q)
    ensures Dot(|y|, Entries(TimesMatrix(Transpose(q), y)), Entries(TimesMatrix(Transpose(q), z)))
         == Dot(|y|, Entries(y), Entries(z))
  {
    var n, t := |y|, Transpose(q);
    var u, v := TimesMatrix(t, y), TimesMatrix(t, z);
    DotCongruence(n, Entries(u), Apply(n, t, Entries(y)), Entries(v), Apply(n, t, Entries(z)));
    RowsSpanIsometry(n, n, q, Entries(y), Entries(z));
  }

  /** <scale D H y, scale D H z> = scale^2 <Hy, Hz> = scale^2 <y, HHz> = <y, z>. */
  lemma HadamardKeepsInnerProducts(y: seq<real>, z: seq<real>, sign: seq<real>, scale: real)
    requires |y| == |z| == |sign| && AreSigns(sign) && IsHadamardScale(scale, |y|)
    ensures Dot(|y|, Entries(UnrotateHadamard(y, sign, scale)), Entries(UnrotateHadamard(z, sign, scale)))
         == Dot(|y|, Entries(y), Entries(z))
  {
    var hy, hz := Transform(y), Transform(z);
    SignsCancel(Times(scale, hy), Times(scale, hz), sign);
    TimesEntries(scale, hy, hz);
    TransformsInnerProduct(y, z);
    ScaledInnerProduct(|y|, Entries(hy), Entries(hz), scale, Dot(|y|, Entries(y), Entries(z)));
  }

  lemma ScaledInnerProduct(n: nat, f: Vec, g: Vec, scale: real, v: real)
    requires IsScale(scale, n) && Dot(n, f, g) == n as real * v
    ensures Dot(n, Scaled(scale, f), Scaled(scale, g)) == v
  {
    var f', g' := Scaled(scale, f), Scaled(scale, g);
    DotScale(n, scale, f, g');
    DotScale(n, scale, f, g);
    ScaleTwice(scale, n, v, Dot(n, f, g), Dot(n, f, g'), Dot(n, f', g'));
  }

  lemma TimesEntries(c: real, a: seq<real>, b: seq<real>)
    requires |a| == |b|
    ensures Dot(|a|, Entries(Times(c, a)), Entries(Times(c, b)))
         == Dot(|a|, Scaled(c, Entries(a)), Scaled(c, Entries(b)))
  {
    DotCongruence(|a|, Entries(Times(c, a)), Scaled(c, Entries(a)), Entries(Times(c, b)), Scaled(c, Entries(b)));
  }

  lemma ScaleTwice(scale: real, dim: nat, v: real, s: real, s1: real, s2: real)
    requires IsScale(scale, dim) && s == dim as real * v && s1 == scale * s && s2 == scale * s1
    ensures s2 == v
  {
    ScaleCancels(scale, dim as real, v);
  }

  lemma SignsCancel(a: seq<real>, b: seq<real>, sign: seq<real>)
    requires |a| == |b| == |sign| && AreSigns(sign)
    ensures Dot(|a|, Entries(Signed(a, sign)), Entries(Signed(b, sign))) == Dot(|a|, Entries(a), Entries(b))
  {
    var f, g := Product(Entries(Signed(a, sign)), Entries(Signed(b, sign))), Product(Entries(a), Entries(b));
    forall i | 0 <= i < |a| ensures f(i) == g(i) {
      ProductOfSigns(a[i], b[i], sign[i]);
    }
    SumCongruence(|a|, f, g);
  }

  lemma ProductOfSigns(a: real, b: real, sign: real)
    requires sign == 1.0 || sign == -1.0
    ensures a * sign * (b * sign) == a * b
  {}

  /** <Hy, Hz> = <y, HHz> = d <y, z>. */
  lemma TransformsInnerProduct(y: seq<real>, z: seq<real>)
    requires |y| == |z| && IsPowerOfTwo(|y|)
    ensures Dot(|y|, Entries(Transform(y)), Entries(Transform(z))) == |y| as real * Dot(|y|, Entries(y), Entries(z))
  {
    var n, hz := |y|, Transform(z);
    SelfAdjoint(y, hz);
    TransformOfTransform(z);
    SameAsScaled(y, Transform(hz), z, n as real);
  }

  lemma SameAsScaled(y: seq<real>, w: seq<real>, z: seq<real>, c: real)
    requires |y| == |w| == |z| && forall i :: 0 <= i < |y| ==> Entries(w)(i) == Scaled(c, Entries(z))(i)
    ensures Dot(|y|, Entries(y), Entries(w)) == c * Dot(|y|, Entries(y), Entries(z))
  {
    DotCongruence(|y|, Entries(y), Entries(y), Entries(w), Scaled(c, Entries(z)));
    DotScale(|y|, c, Entries(y), Entries(z));
  }

  lemma StructuredKeepsInnerProducts(y: seq<real>, z: seq<real>, d: Draws)
    requires |y| == |z| && ValidDraws(d, |y|)
    ensures Dot(|y|, Entries(UnrotateStructured(y, d.sign, d.order)), Entries(UnrotateStructured(z, d.sign, d.order)))
         == Dot(|y|, Entries(y), Entries(z))
  {
    var u, v := UnrotateStructured(y, d.sign, d.order), UnrotateStructured(z, d.sign, d.order);
    forall i | 0 <= i < |y| ensures u[i] * v[i] == y[d.order[i]] * z[d.order[i]] {
      StructuredProduct(y, z, d.sign, d.order, i);
    }
    ArgsortInverts(d.perm, d.order);
    PermutedProducts(u, v, y, z, d.order, d.perm);
  }

  lemma PermutedProducts(u: seq<real>, v: seq<real>, y: seq<real>, z: seq<real>, order: seq<int>, perm: seq<int>)
    requires |u| == |v| == |y| == |z| == |order| == |perm|
    requires forall i :: 0 <= i < |y| ==> 0 <= order[i] < |y| && perm[order[i]] == i
    requires forall i :: 0 <= i < |y| ==> 0 <= perm[i] < |y| && order[perm[i]] == i
    requires forall i :: 0 <= i < |y| ==> u[i] * v[i] == y[order[i]] * z[order[i]]
    ensures Dot(|y|, Entries(u), Entries(v)) == Dot(|y|, Entries(y), Entries(z))
  {
    var f, g := Product(Entries(y), Entries(z)), Product(Entries(u), Entries(v));
    SumPermuted(|y|, Index(order), Index(perm), f, g);
  }

  lemma StructuredProduct(y: seq<real>, z: seq<real>, sign: seq<real>, order: seq<int>, i: nat)
    requires |y| == |z| == |sign| == |order| && AreSigns(sign) && i < |y|
    requires forall j :: 0 <= j < |y| ==> 0 <= order[j] < |y|
    ensures UnrotateStructured(y, sign, order)[i] * UnrotateStructured(z, sign, order)[i] == y[order[i]] * z[order[i]]
  {
    QuotientOfSigns(y[order[i]], z[order[i]], sign[i]);
  }

  lemma QuotientOfSigns(a: real, b: real, sign: real)
    requires sign == 1.0 || sign == -1.0
    ensures a / sign * (b / sign) == a * b
  {}

  // ------------------------------------------------------------------ and it is linear

  lemma UnrotateScales(y: seq<real>, c: real, d: Draws, scale: real, rotation: Rotation)
    requires ValidDraws(d, |y|)
    requires rotation == Hadamard ==> IsPowerOfTwo(|y|)
    ensures Unrotated(Times(c, y), d, scale, rotation) == Some(Times(c, Unrotated(y, d, scale, rotation).value))
  {
    if rotation == Hadamard {
      HadamardScales(y, c, d.sign, scale);
    } else if |y| <= MAX_QR_DIM {
      MatrixScales(y, c, Transpose(d.q));
    } else {
      StructuredScales(y, c, d.sign, d.order);
    }
  }

  lemma HadamardScales(y: seq<real>, c: real, sign: seq<real>, scale: real)
    requires |sign| == |y|
    ensures UnrotateHadamard(Times(c, y), sign, scale) == Times(c, UnrotateHadamard(y, sign, scale))
  {
    TransformScales(y, c);
    TimesCommute(scale, c, Transform(y));
    SignedScales(Times(scale, Transform(y)), sign, c);
  }

  lemma TimesCommute(c: real, d: real, a: seq<real>)
    ensures Times(c, Times(d, a)) == Times(d, Times(c, a))
  {
    forall i | 0 <= i < |a| ensures Times(c, Times(d, a))[i] == Times(d, Times(c, a))[i] {
      FactorsCommute(c, d, a[i]);
    }
  }

  lemma FactorsCommute(x: real, y: real, z: real)
    ensures x * (y * z) == y * (x * z)
  {}

  lemma SignedScales(a: seq<real>, sign: seq<real>, c: real)
    requires |sign| == |a|
    ensures Signed(Times(c, a), sign) == Times(c, Signed(a, sign))
  {
    forall i | 0 <= i < |a| ensures Signed(Times(c, a), sign)[i] == Times(c, Signed(a, sign))[i] {
      ScaleEither(c, a[i], sign[i]);
    }
  }

  lemma StructuredScales(y: seq<real>, c: real, sign: seq<real>, order: seq<int>)
    requires |sign| == |order| == |y| && AreSigns(sign)
    requires forall i :: 0 <= i < |y| ==> 0 <= order[i] < |y|
    ensures UnrotateStructured(Times(c, y), sign, order) == Times(c, UnrotateStructured(y, sign, order))
  {
    var u, v := UnrotateStructured(Times(c, y), sign, order), UnrotateStructured(y, sign, order);
    forall i | 0 <= i < |y| ensures u[i] == Times(c, v)[i] {
      ScaledQuotient(c, y[order[i]], sign[i]);
    }
  }

  lemma ScaledQuotient(c: real, v: real, sign: real)
    requires sign == 1.0 || sign == -1.0
    ensures c * v / sign == c * (v / sign)
  {}

  lemma MatrixScales(y: seq<real>, c: real, w: Mat)
    ensures TimesMatrix(w, Times(c, y)) == Times(c, TimesMatrix(w, y))
  {
    var cy := Times(c, y);
    forall i | 0 <= i < |y| ensures TimesMatrix(w, cy)[i] == c * TimesMatrix(w, y)[i] {
      DotCongruence(|y|, Row(w, i), Row(w, i), Entries(cy), Scaled(c, Entries(y)));
      DotScale(|y|, c, Row(w, i), Entries(y));
    }
  }
}
