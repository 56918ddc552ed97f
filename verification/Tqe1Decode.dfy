/** Decoding a TQE1 record: centroids of the unpacked indices, un-rotated and scaled by the norm. */
module Tqe1Decode {
  import opened BitPacking
  import opened Matrices
  import opened Positional
  import opened RealArithmetic
  import opened Rotations
  import opened Tqe1Format
  import opened WalshHadamard
  import opened Wrappers

  /** The fixed Lloyd-Max centroids of a unit Gaussian coordinate. */
  function Codebook(bits: nat): (c: seq<real>)
    requires bits in {2, 3, 4}
    ensures |c| == Levels(bits)
  {
    if bits == 2 then [-1.510, -0.453, 0.453, 1.510]
    else if bits == 3 then [-1.748, -1.050, -0.500, -0.069, 0.069, 0.500, 1.050, 1.748]
    else [-2.401, -1.844, -1.437, -1.099, -0.800, -0.524, -0.262, -0.066,
          0.066, 0.262, 0.524, 0.800, 1.099, 1.437, 1.844, 2.401]
  }

  /** The centroids a code block selects. */
  function Selected(indices: seq<nat>, bits: nat): (c: seq<real>)
    requires bits in {2, 3, 4} && AllBelow(Levels(bits), indices)
    ensures |c| == |indices|
    ensures forall i :: 0 <= i < |c| ==> c[i] == Codebook(bits)[indices[i]]
  {
    seq(|indices|, i requires 0 <= i < |indices| => Codebook(bits)[indices[i]])
  }

  /** norm^2 times the mean of dim squares that add up to s. */
  function DecodedLength2(norm: real, s: real, dim: nat): real
    requires dim > 0
  {
    norm * norm * s / dim as real
  }

  /** The un-rotated, scaled vector and its squared length are those of the selected centroids c. */
  ghost predicate DecodesTo(x: seq<real>, c: seq<real>, norm: real, d: Draws, scale: real, rotation: Rotation)
    requires |x| == |c| > 0 && ValidDraws(d, |c|)
  {
    && Rotated(x, d, scale, rotation) == Times(norm, Times(scale, c))
    && Norm2(|c|, Entries(x)) == DecodedLength2(norm, Norm2(|c|, Entries(c)), |c|)
  }

  /** x and y are ordered as their indices i and j, for a positive norm; complementary indices give opposites. */
  ghost predicate InOrder(x: real, y: real, i: nat, j: nat, bits: nat, norm: real)
    requires bits in {2, 3, 4}
  {
    (norm > 0.0 ==> (x < y <==> i < j)) && (i + j + 1 == Levels(bits) ==> x == -y)
  }

  /** The centroids are strictly increasing, and symmetric about zero. */
  lemma CodebookIsOddAndIncreasing(bits: nat, i: nat, j: nat)
    requires bits in {2, 3, 4} && i < Levels(bits) && j < Levels(bits)
    ensures InOrder(Codebook(bits)[i], Codebook(bits)[j], i, j, bits, 1.0)
  {
    assert bits == 2 || bits == 3 || bits == 4;
  }

  /** The coordinates of y are ordered as their indices are. */
  ghost predicate OrderedAs(y: seq<real>, indices: seq<nat>, bits: nat, norm: real)
    requires bits in {2, 3, 4}
  {
    && |y| == |indices|
    && forall i, j :: 0 <= i < |y| && 0 <= j < |y| ==> InOrder(y[i], y[j], indices[i], indices[j], bits, norm)
  }

  /**
   * Decode a record whose float32 norm field holds `norm`. None stands for a code block that does
   * not unpack to dim indices, or a Hadamard record whose dim is not a power of two.
   */
  method Decode(rec: Record, norm: real, d: Draws, scale: real) returns (x: Option<seq<real>>)
    requires rec.bits in {2, 3, 4} && rec.dim > 0 && ValidDraws(d, rec.dim) && IsScale(scale, rec.dim)
    ensures x.Some? <==> (UnpackIndices(rec.codes, rec.bits, rec.dim).Some?
                         && |UnpackIndices(rec.codes, rec.bits, rec.dim).value| == rec.dim
                         && (rec.rotation == Hadamard ==> IsPowerOfTwo(rec.dim)))
    ensures x.Some? ==>
      var c := Selected(UnpackIndices(rec.codes, rec.bits, rec.dim).value, rec.bits);
      && |x.value| == rec.dim && DecodesTo(x.value, c, norm, d, scale, rec.rotation)
      && OrderedAs(Rotated(x.value, d, scale, rec.rotation),
                   UnpackIndices(rec.codes, rec.bits, rec.dim).value, rec.bits, norm)
  {
    var indices := UnpackIndices(rec.codes, rec.bits, rec.dim);
    if indices.None? || |indices.value| != rec.dim {
      return None;
    }
    var centroids := Times(scale, Codebook(rec.bits));
    var y := seq(rec.dim, i requires 0 <= i < rec.dim => centroids[indices.value[i]]);
    var unrotated := Unrotate(y, d, scale, rec.rotation);
    if unrotated.None? {
      return None;
    }
    ghost var c := Selected(indices.value, rec.bits);
    SelectThenScale(indices.value, rec.bits, scale, centroids, y);
    x := Some(seq(rec.dim, i requires 0 <= i < rec.dim => unrotated.value[i] * norm));
    assert x.value == Times(norm, unrotated.value);
    DecodedVector(c, norm, d, scale, rec.rotation);
    SelectedAreOrdered(indices.value, rec.bits);
    ScalingKeepsOrder(c, indices.value, rec.bits, norm, scale);
  }

  lemma SelectThenScale(indices: seq<nat>, bits: nat, scale: real, centroids: seq<real>, y: seq<real>)
    requires bits in {2, 3, 4} && AllBelow(Levels(bits), indices) && centroids == Times(scale, Codebook(bits))
    requires |y| == |indices| && forall i :: 0 <= i < |y| ==> y[i] == centroids[indices[i]]
    ensures y == Times(scale, Selected(indices, bits))
  {}

  /** Selecting keeps the order of the codebook. */
  lemma SelectedAreOrdered(indices: seq<nat>, bits: nat)
    requires bits in {2, 3, 4} && AllBelow(Levels(bits), indices)
    ensures OrderedAs(Selected(indices, bits), indices, bits, 1.0)
  {
    var c := Selected(indices, bits);
    forall i, j | 0 <= i < |c| && 0 <= j < |c| ensures InOrder(c[i], c[j], indices[i], indices[j], bits, 1.0) {
      CodebookIsOddAndIncreasing(bits, indices[i], indices[j]);
    }
  }

  /** And so does scaling. */
  lemma ScalingKeepsOrder(c: seq<real>, indices: seq<nat>, bits: nat, norm: real, scale: real)
    requires bits in {2, 3, 4} && scale > 0.0 && OrderedAs(c, indices, bits, 1.0)
    ensures OrderedAs(Times(norm, Times(scale, c)), indices, bits, norm)
  {
    var y := Times(norm, Times(scale, c));
    forall i, j | 0 <= i < |y| && 0 <= j < |y| ensures InOrder(y[i], y[j], indices[i], indices[j], bits, norm) {
      assert InOrder(c[i], c[j], indices[i], indices[j], bits, 1.0);
      ScaledOrder(norm, scale, c[i], c[j], y[i], y[j]);
    }
  }

  lemma ScaledOrder(norm: real, scale: real, a: real, b: real, x: real, y: real)
    requires scale > 0.0 && x == norm * (scale * a) && y == norm * (scale * b)
    ensures norm > 0.0 ==> (x < y <==> a < b)
    ensures a == -b ==> x == -y
  {
    var k := norm * scale;
    assert x == k * a && y == k * b;
    if norm > 0.0 {
      SameOrder(k, a, b);
    }
  }

  lemma SameOrder(k: real, a: real, b: real)
    requires k > 0.0
    ensures k * a < k * b <==> a < b
  {
    assert k * (b - a) == k * b - k * a;
    if a < b {
      PositiveProduct(k, b - a);
    } else {
      NonNegativeProduct(k, a - b);
      assert k * (a - b) == k * a - k * b;
    }
  }

  /** The decoded vector rotates to the scaled centroids, and has their length. */
  lemma DecodedVector(c: seq<real>, norm: real, d: Draws, scale: real, rotation: Rotation)
    requires |c| > 0 && ValidDraws(d, |c|) && IsScale(scale, |c|)
    requires rotation == Hadamard ==> IsPowerOfTwo(|c|)
    ensures DecodesTo(Times(norm, Unrotated(Times(scale, c), d, scale, rotation).value), c, norm, d, scale, rotation)
  {
    var y := Times(scale, c);
    var z, x := Times(norm, y), Times(norm, Unrotated(y, d, scale, rotation).value);
    UnrotateScales(y, norm, d, scale, rotation);
    RotateInvertsUnrotate(z, d, scale, rotation);
    UnrotateKeepsInnerProducts(z, z, d, scale, rotation);
    assert Norm2(|c|, Entries(x)) == Norm2(|c|, Entries(z));
    DecodedNorm(c, norm, scale);
  }

  lemma DecodedNorm(c: seq<real>, norm: real, scale: real)
    requires |c| > 0 && IsScale(scale, |c|)
    ensures Norm2(|c|, Entries(Times(norm, Times(scale, c)))) == DecodedLength2(norm, Norm2(|c|, Entries(c)), |c|)
  {
    var n, k, e := |c|, norm * scale, Entries(c);
    var x := Entries(Times(norm, Times(scale, c)));
    forall i | 0 <= i < n ensures x(i) == Scaled(k, e)(i) {
      assert norm * (scale * c[i]) == k * c[i];
    }
    DotCongruence(n, x, Scaled(k, e), x, Scaled(k, e));
    DotScale(n, k, e, Scaled(k, e));
    DotScale(n, k, e, e);
    NormProduct(norm, scale, k, n, Norm2(n, e));
  }

  lemma NormProduct(norm: real, scale: real, k: real, dim: nat, s: real)
    requires dim > 0 && scale * scale * dim as real == 1.0 && k == norm * scale
    ensures k * (k * s) == DecodedLength2(norm, s, dim)
  {
    var n := dim as real;
    assert k * (k * s) * n == norm * norm * s * (scale * scale * n);
  }
}
