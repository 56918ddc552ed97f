/** Vectors and matrices as total functions, and the identities the decoders and scorers rest on. */
module Matrices {
  import opened Sums

  type Vec = int -> real
  type Mat = (int, int) -> real

  function Product(f: Vec, g: Vec): Vec { i => f(i) * g(i) }

  function Scaled(c: real, f: Vec): Vec { i => c * f(i) }

  function Plus(f: Vec, g: Vec): Vec { i => f(i) + g(i) }

  /** The coordinates of a sequence. */
  function Entries(a: seq<real>): Vec { i => At(a, i) }

  /** Inner product over the first n coordinates. */
  function Dot(n: nat, f: Vec, g: Vec): real { Sum(n, Product(f, g)) }

  function Norm2(n: nat, f: Vec): real { Dot(n, f, f) }

  /** The matrix w, with n columns, times the vector a. */
  function Apply(n: nat, w: Mat, a: Vec): Vec { i => Dot(n, Row(w, i), a) }

  function Transpose(w: Mat): Mat { (i, j) => w(j, i) }

  /** The product of w, with m columns, and v. */
  function Mul(m: nat, w: Mat, v: Mat): Mat { (i, k) => Dot(m, Row(w, i), Column(v, k)) }

  /** The first m rows of w are c times the rows of the identity. */
  ghost predicate IsScalar(m: nat, w: Mat, c: real) {
    forall i, k :: 0 <= i < m && 0 <= k < m ==> w(i, k) == if i == k then c else 0.0
  }

  /** The m rows of w, of n columns each, are orthonormal. */
  ghost predicate OrthonormalRows(m: nat, n: nat, w: Mat) {
    IsScalar(m, Mul(n, w, Transpose(w)), 1.0)
  }

  lemma DotSymmetric(n: nat, f: Vec, g: Vec)
    ensures Dot(n, f, g) == Dot(n, g, f)
  {
    SumCongruence(n, Product(f, g), Product(g, f));
  }

  lemma DotCongruence(n: nat, f: Vec, f': Vec, g: Vec, g': Vec)
    requires forall i :: 0 <= i < n ==> f(i) == f'(i) && g(i) == g'(i)
    ensures Dot(n, f, g) == Dot(n, f', g')
  {
    SumCongruence(n, Product(f, g), Product(f', g'));
  }

  lemma ScaleEither(c: real, x: real, y: real)
    ensures c * x * y == c * (x * y) && x * (c * y) == c * (x * y)
  {}

  lemma DotScale(n: nat, c: real, f: Vec, g: Vec)
    ensures Dot(n, Scaled(c, f), g) == c * Dot(n, f, g)
    ensures Dot(n, f, Scaled(c, g)) == c * Dot(n, f, g)
  {
    var p, left, right := Product(f, g), Product(Scaled(c, f), g), Product(f, Scaled(c, g));
    forall i | 0 <= i < n ensures left(i) == c * p(i) && right(i) == c * p(i) {
      ScaleEither(c, f(i), g(i));
    }
    SumScale(n, c, p, left);
    SumScale(n, c, p, right);
  }

  lemma PlusEither(x: real, y: real, z: real)
    ensures (x + y) * z == x * z + y * z && z * (x + y) == z * x + z * y
  {}

  lemma DotPlus(n: nat, f: Vec, g: Vec, h: Vec)
    ensures Dot(n, Plus(f, g), h) == Dot(n, f, h) + Dot(n, g, h)
    ensures Dot(n, h, Plus(f, g)) == Dot(n, h, f) + Dot(n, h, g)
  {
    forall i | 0 <= i < n
      ensures Product(Plus(f, g), h)(i) == Product(f, h)(i) + Product(g, h)(i)
      ensures Product(h, Plus(f, g))(i) == Product(h, f)(i) + Product(h, g)(i) {
      PlusEither(f(i), g(i), h(i));
    }
    SumAdd(n, Product(f, h), Product(g, h), Product(Plus(f, g), h));
    SumAdd(n, Product(h, f), Product(h, g), Product(h, Plus(f, g)));
  }

  /** <f, W a> = <W^T f, a>. */
  lemma Adjoint(m: nat, n: nat, w: Mat, f: Vec, a: Vec)
    ensures Dot(m, f, Apply(n, w, a)) == Dot(n, Apply(m, Transpose(w), f), a)
  {
    var grid: Mat := (i, j) => f(i) * (w(i, j) * a(j));
    forall i | 0 <= i < m ensures Product(f, Apply(n, w, a))(i) == Sum(n, Row(grid, i)) {
      SumScale(n, f(i), Product(Row(w, i), a), Row(grid, i));
    }
    SumOfRows(m, n, grid, Product(f, Apply(n, w, a)));
    forall j | 0 <= j < n ensures Product(Apply(m, Transpose(w), f), a)(j) == Sum(m, Column(grid, j)) {
      SumScale(m, a(j), Product(Row(Transpose(w), j), f), Column(grid, j));
    }
    SumOfColumns(m, n, grid, Product(Apply(m, Transpose(w), f), a));
  }

  /** W (V a) = (W V) a. */
  lemma Associative(m: nat, n: nat, w: Mat, v: Mat, a: Vec, i: int)
    ensures Apply(m, w, Apply(n, v, a))(i) == Apply(n, Mul(m, w, v), a)(i)
  {
    Adjoint(m, n, v, Row(w, i), a);
    forall k ensures Apply(m, Transpose(v), Row(w, i))(k) == Row(Mul(m, w, v), i)(k) {
      DotSymmetric(m, Row(Transpose(v), k), Row(w, i));
      DotCongruence(m, Row(w, i), Row(w, i), Row(Transpose(v), k), Column(v, k));
    }
    DotCongruence(n, Apply(m, Transpose(v), Row(w, i)), Row(Mul(m, w, v), i), a, a);
  }

  lemma ApplyScalar(m: nat, w: Mat, c: real, a: Vec, i: nat)
    requires IsScalar(m, w, c) && i < m
    ensures Apply(m, w, a)(i) == c * a(i)
  {
    SumSingle(m, i, Product(Row(w, i), a));
  }

  /** A product that is c times the identity: W (V a) = c a. */
  lemma ApplyInverse(m: nat, n: nat, w: Mat, v: Mat, c: real, a: Vec, i: nat)
    requires IsScalar(n, Mul(m, w, v), c) && i < n
    ensures Apply(m, w, Apply(n, v, a))(i) == c * a(i)
  {
    Associative(m, n, w, v, a, i);
    ApplyScalar(n, Mul(m, w, v), c, a, i);
  }

  /** W^T is an isometry when the m rows of W are orthonormal. */
  lemma RowsSpanIsometry(m: nat, n: nat, w: Mat, a: Vec, b: Vec)
    requires OrthonormalRows(m, n, w)
    ensures Dot(n, Apply(m, Transpose(w), a), Apply(m, Transpose(w), b)) == Dot(m, a, b)
  {
    Adjoint(m, n, w, a, Apply(m, Transpose(w), b));
    forall i | 0 <= i < m ensures Apply(n, w, Apply(m, Transpose(w), b))(i) == b(i) {
      ApplyInverse(n, m, w, Transpose(w), 1.0, b, i);
    }
    DotCongruence(m, a, a, Apply(n, w, Apply(m, Transpose(w), b)), b);
  }

  /** <f, W^T a> = <W f, a>. */
  lemma AdjointOfTranspose(m: nat, n: nat, w: Mat, f: Vec, a: Vec)
    ensures Dot(n, f, Apply(m, Transpose(w), a)) == Dot(m, Apply(n, w, f), a)
  {
    Adjoint(n, m, Transpose(w), f, a);
    forall i | 0 <= i < m ensures Apply(n, Transpose(Transpose(w)), f)(i) == Apply(n, w, f)(i) {
      DotCongruence(n, Row(Transpose(Transpose(w)), i), Row(w, i), f, f);
    }
    DotCongruence(m, Apply(n, Transpose(Transpose(w)), f), Apply(n, w, f), a, a);
  }

  /** |f + g|^2 = |f|^2 + 2 <g, f> + |g|^2. */
  lemma NormOfSum(n: nat, f: Vec, g: Vec)
    ensures Norm2(n, Plus(f, g)) == Norm2(n, f) + 2.0 * Dot(n, g, f) + Norm2(n, g)
  {
    DotPlus(n, f, g, Plus(f, g));
    DotPlus(n, f, g, f);
    DotPlus(n, f, g, g);
    DotSymmetric(n, f, g);
  }
}
