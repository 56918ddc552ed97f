/**
 * Scoring in code space: the kernel never reconstructs a vector, yet returns the cosine that
 * reconstruct-then-normalise would. Square roots are inputs that satisfy their equation.
 */
module KernelIdentity {
  import opened IndexSets
  import opened Matrices
  import opened RealArithmetic
  import opened Sums
  import opened TopK

  /** The fitted model: PCA rows `comp` (pd x dim) and `mean`, rotation `rot` (pd x pd), centroids. */
  datatype Model = Model(dim: nat, pd: nat, comp: Mat, mean: Vec, rot: Mat, cent: seq<real>)

  ghost predicate ValidModel(m: Model) {
    OrthonormalRows(m.pd, m.dim, m.comp) && OrthonormalRows(m.pd, m.pd, m.rot)
  }

  /** One stored vector: its codes and the norm of its centred projection. */
  datatype Stored = Stored(codes: seq<nat>, cnorm: real)

  /** Centroids selected by the codes. */
  function Centroids(m: Model, v: Stored): Vec {
    i => if 0 <= i < |v.codes| then At(m.cent, v.codes[i]) else 0.0
  }

  // ------------------------------------------------------------------ the reference

  /** The low-dimensional reconstruction: norm times the un-rotated centroids. */
  function Recon256(m: Model, v: Stored): Vec {
    Scaled(v.cnorm, Apply(m.pd, Transpose(m.rot), Centroids(m, v)))
  }

  /** The full-dimensional reconstruction, the mean added back. */
  function Recon768(m: Model, v: Stored): Vec {
    Plus(Apply(m.pd, Transpose(m.comp), Recon256(m, v)), m.mean)
  }

  function Max(a: real, b: real): real { if a >= b then a else b }

  const TINY: real := 0.000000000000000000000000000001

  /** Inner product of the query with the normalised reconstruction; `len` is its length. */
  function ReferenceScore(m: Model, v: Stored, q: Vec, len: real): real {
    CosineOf(Dot(m.dim, q, Recon768(m, v)), len)
  }

  function CosineOf(p: real, len: real): real { p / Max(len, TINY) }

  // ------------------------------------------------------------------ the kernel

  /** The mean, projected and rotated. */
  function RotatedMean(m: Model): Vec { Apply(m.pd, m.rot, Apply(m.dim, m.comp, m.mean)) }

  /** The query, projected and rotated. */
  function RotatedQuery(m: Model, q: Vec): Vec { Apply(m.pd, m.rot, Apply(m.dim, m.comp, q)) }

  /** norm^2 s2 + 2 norm m_n + |mean|^2. */
  function ReconNorm2(m: Model, v: Stored): real {
    var cc := Centroids(m, v);
    v.cnorm * v.cnorm * Norm2(m.pd, cc) + 2.0 * v.cnorm * Dot(m.pd, cc, RotatedMean(m)) + Norm2(m.dim, m.mean)
  }

  /** `len` is the square root of n2. */
  ghost predicate IsLength(len: real, n2: real) {
    len >= 0.0 && len * len == n2
  }

  /** `vrnorm` is 1 / sqrt of the clamped squared norm. */
  ghost predicate IsInverseNorm(vrnorm: real, n2: real) {
    vrnorm > 0.0 && vrnorm * vrnorm * Max(n2, TINY) == 1.0
  }

  /** (qbias + norm * sum_j q_rot[j] * cent[code[j]]) * vrnorm. */
  function KernelScore(m: Model, v: Stored, q: Vec, vrnorm: real): real {
    ScoreOf(Dot(m.dim, q, m.mean) + v.cnorm * Dot(m.pd, RotatedQuery(m, q), Centroids(m, v)), vrnorm)
  }

  function ScoreOf(p: real, vrnorm: real): real { p * vrnorm }

  // ------------------------------------------------------------------ they agree

  /** For any vector q of the full space, <q, recon256 @ comp> is a code-space inner product. */
  lemma ProjectedProduct(m: Model, v: Stored, q: Vec)
    ensures Dot(m.dim, q, Apply(m.pd, Transpose(m.comp), Recon256(m, v)))
         == v.cnorm * Dot(m.pd, RotatedQuery(m, q), Centroids(m, v))
  {
    var cc, qt := Centroids(m, v), Apply(m.dim, m.comp, q);
    AdjointOfTranspose(m.pd, m.dim, m.comp, q, Recon256(m, v));
    DotScale(m.pd, v.cnorm, qt, Apply(m.pd, Transpose(m.rot), cc));
    AdjointOfTranspose(m.pd, m.pd, m.rot, qt, cc);
  }

  /** The kernel's numerator is <Q, recon768>. */
  lemma NumeratorIsInnerProduct(m: Model, v: Stored, q: Vec)
    ensures Dot(m.dim, q, Recon768(m, v))
         == Dot(m.dim, q, m.mean) + v.cnorm * Dot(m.pd, RotatedQuery(m, q), Centroids(m, v))
  {
    DotPlus(m.dim, Apply(m.pd, Transpose(m.comp), Recon256(m, v)), m.mean, q);
    ProjectedProduct(m, v, q);
  }

  /** The expanded squared norm is the squared norm of the reconstruction. */
  lemma NormExpands(m: Model, v: Stored)
    requires ValidModel(m)
    ensures Norm2(m.dim, Recon768(m, v)) == ReconNorm2(m, v)
  {
    var cc, y := Centroids(m, v), Recon256(m, v);
    var a, z := Apply(m.pd, Transpose(m.comp), y), Apply(m.pd, Transpose(m.rot), cc);
    NormOfSum(m.dim, a, m.mean);
    RowsSpanIsometry(m.pd, m.dim, m.comp, y, y);
    NormOfScaled(m.pd, v.cnorm, z);
    RowsSpanIsometry(m.pd, m.pd, m.rot, cc, cc);
    ProjectedProduct(m, v, m.mean);
    DotSymmetric(m.pd, RotatedMean(m), cc);
    CollectTerms(v.cnorm, Norm2(m.pd, z), Norm2(m.pd, cc), Dot(m.dim, m.mean, a), Dot(m.pd, cc, RotatedMean(m)));
  }

  lemma NormOfScaled(n: nat, c: real, f: Vec)
    ensures Norm2(n, Scaled(c, f)) == c * c * Norm2(n, f)
  {
    DotScale(n, c, f, Scaled(c, f));
    DotScale(n, c, f, f);
    Twice(c, Norm2(n, f), Dot(n, f, Scaled(c, f)));
  }

  lemma Twice(c: real, s: real, cs: real)
    requires cs == c * s
    ensures c * cs == c * c * s
  {}

  lemma CollectTerms(c: real, z2: real, cc2: real, cross: real, mn: real)
    requires z2 == cc2 && cross == c * mn
    ensures c * c * z2 + 2.0 * cross == c * c * cc2 + 2.0 * c * mn
  {}

  /**
   * The kernel returns the reference cosine if and only if the squared norm of the reconstruction
   * is not clamped, or the inner product is zero anyway.
   */
  lemma KernelScoreIsCosine(m: Model, v: Stored, q: Vec, len: real, vrnorm: real,
                             r2: real, n2: real)
    requires ValidModel(m) && r2 == Norm2(m.dim, Recon768(m, v)) && n2 == ReconNorm2(m, v)
    requires IsLength(len, r2) && IsInverseNorm(vrnorm, n2)
    ensures KernelScore(m, v, q, vrnorm) == ReferenceScore(m, v, q, len)
       <==> (n2 >= TINY || Dot(m.dim, q, Recon768(m, v)) == 0.0)
  {
    var p := Dot(m.dim, q, Recon768(m, v));
    KernelScoreOf(m, v, q, vrnorm, p);
    NormExpands(m, v);
    ScoresAgree(p, len, n2, vrnorm);
  }

  lemma KernelScoreOf(m: Model, v: Stored, q: Vec, vrnorm: real, p: real)
    requires p == Dot(m.dim, q, Recon768(m, v))
    ensures KernelScore(m, v, q, vrnorm) == ScoreOf(p, vrnorm)
  {
    NumeratorIsInnerProduct(m, v, q);
  }

  lemma ScoresAgree(p: real, len: real, n2: real, vrnorm: real)
    requires IsLength(len, n2) && IsInverseNorm(vrnorm, n2)
    ensures ScoreOf(p, vrnorm) == CosineOf(p, len) <==> (n2 >= TINY || p == 0.0)
  {
    var d := Max(len, TINY);
    if n2 >= TINY {
      LengthAboveTiny(len);
      InverseOfLength(len, vrnorm);
      ProductIsQuotient(p, vrnorm, d);
    } else {
      ClampedDiffers(len, d, vrnorm);
      DifferentScales(p, vrnorm, d, vrnorm * d);
    }
  }

  lemma LengthAboveTiny(len: real)
    requires len >= 0.0 && len * len >= TINY
    ensures len > TINY
  {
    if len <= TINY {
      SquareMonotone(len, TINY);
      assert false;
    }
  }

  /** vrnorm * len == 1 when their squares multiply to 1. */
  lemma InverseOfLength(len: real, vrnorm: real)
    requires len > 0.0 && vrnorm > 0.0 && vrnorm * vrnorm * (len * len) == 1.0
    ensures vrnorm * len == 1.0
  {
    var u := vrnorm * len;
    assert u * u == 1.0;
    assert u > 0.0;
    assert (u - 1.0) * (u + 1.0) == 0.0;
  }

  lemma ProductIsQuotient(p: real, v: real, d: real)
    requires d > 0.0 && v * d == 1.0
    ensures p * v == p / d
  {
    QuotientTimes(p * v, p, d);
    assert p * v * d == p * (v * d);
  }

  lemma QuotientTimes(x: real, p: real, d: real)
    requires d > 0.0
    ensures x == p / d <==> x * d == p
  {}

  /** Under the clamp the kernel divides by 1e-15, the reference by something smaller. */
  lemma ClampedDiffers(len: real, d: real, vrnorm: real)
    requires d == Max(len, TINY) && len * len < TINY && vrnorm > 0.0 && vrnorm * vrnorm * TINY == 1.0
    ensures vrnorm * d < 1.0
  {
    assert TINY * TINY < TINY;
    ProductBelowOne(vrnorm, d);
  }

  lemma ProductBelowOne(v: real, d: real)
    requires v > 0.0 && d > 0.0 && v * v * TINY == 1.0 && d * d < TINY
    ensures v * d < 1.0
  {
    var u, v2, d2 := v * d, v * v, d * d;
    assert u * u == v2 * d2;
    LargerFactor(v2, d2, TINY);
    if u >= 1.0 {
      SquareMonotone(1.0, u);
      assert false;
    }
  }

  lemma LargerFactor(v: real, a: real, b: real)
    requires v > 0.0 && a < b
    ensures v * a < v * b
  {}

  lemma DifferentScales(p: real, v: real, d: real, u: real)
    requires d > 0.0 && u == v * d && u < 1.0
    ensures p * v == p / d <==> p == 0.0
  {
    var x := p * v;
    if x == p / d {
      QuotientTimes(x, p, d);
      assert p * u == x * d;
      OnlyZeroShrinks(p, u);
    }
    if p == 0.0 {
      assert x == 0.0;
      QuotientTimes(x, p, d);
    }
  }

  lemma OnlyZeroShrinks(p: real, u: real)
    requires u < 1.0 && p * u == p
    ensures p == 0.0
  {
    var gap := 1.0 - u;
    assert p * gap == p - p * u && -p * gap == -(p * gap);
    if p > 0.0 {
      LargerFactor(p, 0.0, gap);
    } else if p < 0.0 {
      LargerFactor(-p, 0.0, gap);
    }
  }

  // ------------------------------------------------------------------ the rankings agree

  /** One length and one inverse norm for every stored vector. */
  ghost predicate ValidCorpus(m: Model, vs: seq<Stored>, lens: seq<real>, vrnorms: seq<real>) {
    && ValidModel(m) && |lens| == |vrnorms| == |vs|
    && forall i :: 0 <= i < |vs| ==>
         IsLength(lens[i], Norm2(m.dim, Recon768(m, vs[i]))) && IsInverseNorm(vrnorms[i], ReconNorm2(m, vs[i]))
  }

  function KernelScores(m: Model, vs: seq<Stored>, q: Vec, vrnorms: seq<real>): (scores: seq<real>)
    requires |vrnorms| == |vs|
    ensures |scores| == |vs| && forall i :: 0 <= i < |vs| ==> scores[i] == KernelScore(m, vs[i], q, vrnorms[i])
  {
    seq(|vs|, i requires 0 <= i < |vs| => KernelScore(m, vs[i], q, vrnorms[i]))
  }

  function ReferenceScores(m: Model, vs: seq<Stored>, q: Vec, lens: seq<real>): (scores: seq<real>)
    requires |lens| == |vs|
    ensures |scores| == |vs| && forall i :: 0 <= i < |vs| ==> scores[i] == ReferenceScore(m, vs[i], q, lens[i])
  {
    seq(|vs|, i requires 0 <= i < |vs| => ReferenceScore(m, vs[i], q, lens[i]))
  }

  /** Where no squared norm is clamped, the kernel's k best are the reference's k best, for every k. */
  lemma RankingsAgree(m: Model, vs: seq<Stored>, q: Vec, lens: seq<real>, vrnorms: seq<real>)
    requires ValidCorpus(m, vs, lens, vrnorms) && forall i :: 0 <= i < |vs| ==> ReconNorm2(m, vs[i]) >= TINY
    ensures KernelScores(m, vs, q, vrnorms) == ReferenceScores(m, vs, q, lens)
    ensures forall top: set<int>, k: nat ::
      IsTopK(top, KernelScores(m, vs, q, vrnorms), Ids(|vs|), k)
      <==> IsTopK(top, ReferenceScores(m, vs, q, lens), Ids(|vs|), k)
  {
    forall i | 0 <= i < |vs| ensures KernelScores(m, vs, q, vrnorms)[i] == ReferenceScores(m, vs, q, lens)[i] {
      KernelScoreIsCosine(m, vs[i], q, lens[i], vrnorms[i], Norm2(m.dim, Recon768(m, vs[i])), ReconNorm2(m, vs[i]));
    }
  }

  // ------------------------------------------------------------------ where they do not

  /** One dimension, 3 bits, no rotation, and a mean so small that its square is clamped. */
  function TinyModel(): Model {
    Model(1, 1, (i, j) => if i == j then 1.0 else 0.0,
          _ => 0.0000000000000001, (i, j) => if i == j then 1.0 else 0.0,
          [-1.748, -1.050, -0.500, -0.069, 0.069, 0.500, 1.050, 1.748])
  }

  /** A vector equal to the mean: the kernel scores it 0.1, the reference 1. */
  lemma ClampedScoresDiffer()
    ensures var m, v := TinyModel(), Stored([0], 0.0);
            && ValidModel(m) && IsLength(0.0000000000000001, Norm2(1, Recon768(m, v)))
            && ReconNorm2(m, v) < TINY && IsInverseNorm(1000000000000000.0, ReconNorm2(m, v))
            && KernelScore(m, v, _ => 1.0, 1000000000000000.0) != ReferenceScore(m, v, _ => 1.0, 0.0000000000000001)
  {
    var m, v, q: Vec := TinyModel(), Stored([0], 0.0), _ => 1.0;
    TinyRecon(m, v);
    NormExpands(m, v);
    assert Dot(1, q, Recon768(m, v)) == q(0) * Recon768(m, v)(0) by {
      DotOfOne(q, Recon768(m, v));
    }
    KernelScoreIsCosine(m, v, q, 0.0000000000000001, 1000000000000000.0, Norm2(1, Recon768(m, v)), ReconNorm2(m, v));
  }

  lemma DotOfOne(f: Vec, g: Vec)
    ensures Dot(1, f, g) == f(0) * g(0)
  {
    assert Sum(1, Product(f, g)) == Sum(0, Product(f, g)) + f(0) * g(0);
  }

  lemma TinyRecon(m: Model, v: Stored)
    requires m == TinyModel() && v == Stored([0], 0.0)
    ensures ValidModel(m) && Recon768(m, v)(0) == 0.0000000000000001
    ensures Norm2(1, Recon768(m, v)) == 0.0000000000000001 * 0.0000000000000001
  {
    DotOfOne(Row(m.comp, 0), Column(Transpose(m.comp), 0));
    DotOfOne(Row(Transpose(m.comp), 0), Recon256(m, v));
    DotOfOne(Recon768(m, v), Recon768(m, v));
  }
}
