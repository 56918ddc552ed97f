/** The area-to-area flow matrix: what it counts, how it relates to transit, and its asymmetry. */
module FlowMatrix {
  import opened Division
  import opened IndexSets
  import opened Matrices
  import opened RealArithmetic
  import opened Sums
  import opened TransitFlow

  // ------------------------------------------------------------------ counting

  /** Every node's area rank, -1 for an area that abstains. */
  ghost predicate AreCodes(src: seq<int>, dst: seq<int>, code: seq<int>, m: nat) {
    && IsGraph(src, dst, code)
    && forall x :: 0 <= x < |code| ==> -1 <= code[x] < m
  }

  function CodeOf(ends: seq<int>, code: seq<int>, e: int): int {
    if 0 <= e < |ends| && 0 <= ends[e] < |code| then code[ends[e]] else -1
  }

  predicate BothScored(src: seq<int>, dst: seq<int>, code: seq<int>, e: int) {
    CodeOf(src, code, e) >= 0 && CodeOf(dst, code, e) >= 0
  }

  /** The flat cell of every edge with both ends scored. */
  function FlowKeys(src: seq<int>, dst: seq<int>, code: seq<int>, m: nat, n: nat): seq<int> {
    if n == 0 then []
    else
      var keys := FlowKeys(src, dst, code, m, n - 1);
      if BothScored(src, dst, code, n - 1)
      then keys + [CodeOf(src, code, n - 1) * m + CodeOf(dst, code, n - 1)]
      else keys
  }

  function Between(src: seq<int>, dst: seq<int>, code: seq<int>, a: int, b: int): Vec {
    e => if CodeOf(src, code, e) == a && CodeOf(dst, code, e) == b then 1.0 else 0.0
  }

  /** Edges from area a to area b, among the first n. */
  function Flow(src: seq<int>, dst: seq<int>, code: seq<int>, n: nat): Mat {
    (a, b) => Sum(n, Between(src, dst, code, a, b))
  }

  /** A pair of areas has a flat cell of its own. */
  lemma CellsDiffer(a: nat, b: nat, x: nat, y: nat, m: nat)
    requires b < m && y < m
    ensures x * m + y == a * m + b <==> x == a && y == b
  {
    QuotientRemainder(a * m + b, a, m, b);
    QuotientRemainder(x * m + y, x, m, y);
  }

  lemma CellInGrid(a: nat, b: nat, m: nat)
    requires a < m && b < m
    ensures 0 <= a * m + b < m * m
  {
    MulMonotone(a + 1, m, m);
    assert (a + 1) * m == a * m + m;
  }

  lemma {:induction false} KeysInGrid(src: seq<int>, dst: seq<int>, code: seq<int>, m: nat, n: nat)
    requires AreCodes(src, dst, code, m)
    ensures Indexes(FlowKeys(src, dst, code, m, n), m * m)
  {
    if n == 0 {
    } else {
      KeysInGrid(src, dst, code, m, n - 1);
      if BothScored(src, dst, code, n - 1) {
        CellInGrid(CodeOf(src, code, n - 1), CodeOf(dst, code, n - 1), m);
      }
    }
  }

  lemma TallyLast(keys: seq<int>, k: int, v: int)
    ensures Tally(keys + [k], Ones(), v) == Tally(keys, Ones(), v) + if k == v then 1.0 else 0.0
  {
    SumCongruence(|keys|, Hits(keys, Ones(), v), Hits(keys + [k], Ones(), v));
  }

  /** The flat histogram holds the flow from a to b at a * m + b. */
  lemma {:induction false} HistogramIsFlow(src: seq<int>, dst: seq<int>, code: seq<int>, m: nat, n: nat, a: nat, b: nat)
    requires AreCodes(src, dst, code, m) && a < m && b < m
    ensures Tally(FlowKeys(src, dst, code, m, n), Ones(), a * m + b) == Flow(src, dst, code, n)(a, b)
  {
    if n == 0 {
    } else {
      HistogramIsFlow(src, dst, code, m, n - 1, a, b);
      if BothScored(src, dst, code, n - 1) {
        var x, y := CodeOf(src, code, n - 1), CodeOf(dst, code, n - 1);
        TallyLast(FlowKeys(src, dst, code, m, n - 1), x * m + y, a * m + b);
        CellsDiffer(a, b, x, y, m);
      }
    }
  }

  // ------------------------------------------------------------------ masses

  /** The entries of f picked out by sel, the rest 0. */
  function Selected(sel: (int, int) -> bool, f: Mat): Mat { (a, b) => if sel(a, b) then f(a, b) else 0.0 }

  /** Scored edges whose pair of areas is picked out by sel. */
  function EdgesIn(sel: (int, int) -> bool, src: seq<int>, dst: seq<int>, code: seq<int>): Vec {
    e => if BothScored(src, dst, code, e) && sel(CodeOf(src, code, e), CodeOf(dst, code, e)) then 1.0 else 0.0
  }

  /** The mass of any part of the flow matrix is the number of edges it stands for. */
  lemma {:induction false} FlowMass(sel: (int, int) -> bool, src: seq<int>, dst: seq<int>, code: seq<int>,
                                   m: nat, n: nat)
    requires AreCodes(src, dst, code, m)
    ensures Sum2(m, m, Selected(sel, Flow(src, dst, code, n))) == Sum(n, EdgesIn(sel, src, dst, code))
  {
    if n == 0 {
      Sum2Zero(m, m, Selected(sel, Flow(src, dst, code, 0)));
    } else {
      FlowMass(sel, src, dst, code, m, n - 1);
      var last := LastEdge(src, dst, code, n);
      Sum2Add(m, m, Selected(sel, Flow(src, dst, code, n - 1)), Selected(sel, last),
              Selected(sel, Flow(src, dst, code, n)));
      LastEdgeMass(sel, src, dst, code, m, n);
    }
  }

  function LastEdge(src: seq<int>, dst: seq<int>, code: seq<int>, n: nat): Mat {
    (a, b) => Between(src, dst, code, a, b)(n - 1)
  }

  lemma LastEdgeMass(sel: (int, int) -> bool, src: seq<int>, dst: seq<int>, code: seq<int>, m: nat, n: nat)
    requires AreCodes(src, dst, code, m) && n > 0
    ensures Sum2(m, m, Selected(sel, LastEdge(src, dst, code, n))) == EdgesIn(sel, src, dst, code)(n - 1)
  {
    var last := Selected(sel, LastEdge(src, dst, code, n));
    if BothScored(src, dst, code, n - 1) {
      Sum2Single(m, m, CodeOf(src, code, n - 1), CodeOf(dst, code, n - 1), last);
    } else {
      Sum2Zero(m, m, last);
    }
  }

  function Anything(): (int, int) -> bool { (a, b) => true }

  function OffDiagonal(): (int, int) -> bool { (a, b) => a != b }

  /** The histogram of the scored edges, as a flat m * m array. */
  method FlowHistogram(src: seq<int>, dst: seq<int>, code: seq<int>, m: nat) returns (flat: array<real>)
    requires AreCodes(src, dst, code, m)
    ensures fresh(flat) && flat.Length == m * m
    ensures forall i :: 0 <= i < m * m ==> flat[i] == Tally(FlowKeys(src, dst, code, m, |src|), Ones(), i)
  {
    var keys := FlowKeys(src, dst, code, m, |src|);
    KeysInGrid(src, dst, code, m, |src|);
    flat := InDegrees(keys, m * m);
  }

  function Normalised(f: Mat, total: real): Mat { (a, b) => f(a, b) / AtLeastOne(total) }

  lemma NormalisedMass(m: nat, f: Mat, total: real)
    requires total == Sum2(m, m, f)
    ensures Sum2(m, m, Normalised(f, total)) == total / AtLeastOne(total)
  {
    var d, g := AtLeastOne(total), Normalised(f, total);
    forall a, b ensures g(a, b) == 1.0 / d * f(a, b) {
      QuotientIsProduct(f(a, b), d);
    }
    Sum2Scale(m, m, 1.0 / d, f, g);
    QuotientIsProduct(total, d);
  }

  lemma QuotientIsProduct(x: real, d: real)
    requires d > 0.0
    ensures x / d == 1.0 / d * x
  {}

  lemma WholeMass(m: nat, f: Mat)
    ensures Sum2(m, m, Selected(Anything(), f)) == Sum2(m, m, f)
  {
    Sum2Congruence(m, m, Selected(Anything(), f), f);
  }

  lemma RatioOfEquals(x: real)
    requires x > 0.0
    ensures x / x == 1.0
  {}

  /** The normalised flow sums to 1 as soon as one edge has both ends scored, and is 0 otherwise. */
  lemma FlowIsADistribution(src: seq<int>, dst: seq<int>, code: seq<int>, m: nat, total: real)
    requires AreCodes(src, dst, code, m) && total == Sum2(m, m, Flow(src, dst, code, |src|))
    ensures total == Sum(|src|, EdgesIn(Anything(), src, dst, code))
    ensures Sum2(m, m, Normalised(Flow(src, dst, code, |src|), total)) ==
            if exists e :: 0 <= e < |src| && BothScored(src, dst, code, e) then 1.0 else 0.0
  {
    var f, scored := Flow(src, dst, code, |src|), EdgesIn(Anything(), src, dst, code);
    WholeMass(m, f);
    FlowMass(Anything(), src, dst, code, m, |src|);
    NormalisedMass(m, f, total);
    SumNonNegative(|src|, scored);
    if e :| 0 <= e < |src| && BothScored(src, dst, code, e) {
      assert scored(e) == 1.0;
      assert AtLeastOne(total) == total >= 1.0;
      RatioOfEquals(total);
    } else {
      SumZero(|src|, scored);
    }
  }

  // ------------------------------------------------------------------ flow and transit

  /** Areas are ranked 0..m-1 without ties; -1 marks those that abstain. */
  ghost predicate IsRanking(rank: seq<int>, m: nat) {
    && (forall a :: 0 <= a < |rank| ==> -1 <= rank[a] < m)
    && (forall a, b :: 0 <= a < b < |rank| && rank[a] >= 0 ==> rank[a] != rank[b])
  }

  function RankOf(rank: seq<int>, fc: seq<int>): (code: seq<int>)
    requires Indexes(fc, |rank|)
    ensures |code| == |fc| && forall x :: 0 <= x < |fc| ==> code[x] == rank[fc[x]]
  {
    seq(|fc|, x requires 0 <= x < |fc| => rank[fc[x]])
  }

  ghost predicate IsLabelling(src: seq<int>, dst: seq<int>, fc: seq<int>, rank: seq<int>, m: nat) {
    IsGraph(src, dst, fc) && Indexes(fc, |rank|) && IsRanking(rank, m)
  }

  /** Edges between areas that the flow matrix leaves out, one of them having abstained. */
  function Unscored(src: seq<int>, dst: seq<int>, fc: seq<int>, code: seq<int>): Vec {
    e => if !SameArea(src, dst, fc, e) && !BothScored(src, dst, code, e) then 1.0 else 0.0
  }

  lemma CrossSplits(src: seq<int>, dst: seq<int>, fc: seq<int>, rank: seq<int>, m: nat, e: nat)
    requires IsLabelling(src, dst, fc, rank, m) && e < |src|
    ensures Cross(src, dst, fc)(e) ==
            EdgesIn(OffDiagonal(), src, dst, RankOf(rank, fc))(e) + Unscored(src, dst, fc, RankOf(rank, fc))(e)
  {
    var a, b := fc[src[e]], fc[dst[e]];
    assert CodeOf(src, RankOf(rank, fc), e) == rank[a] && CodeOf(dst, RankOf(rank, fc), e) == rank[b];
    assert a != b && rank[a] >= 0 ==> rank[a] != rank[b];
  }

  /** In-degree times transit is the off-diagonal flow plus the cross edges some abstaining area hides. */
  lemma TransitIsFlow(src: seq<int>, dst: seq<int>, fc: seq<int>, rank: seq<int>, m: nat)
    requires IsLabelling(src, dst, fc, rank, m)
    ensures Sum(|fc|, TransitOf(src, dst, fc)) ==
            Sum2(m, m, Selected(OffDiagonal(), Flow(src, dst, RankOf(rank, fc), |src|)))
            + Sum(|src|, Unscored(src, dst, fc, RankOf(rank, fc)))
  {
    var code := RankOf(rank, fc);
    TransitCountsCrossEdges(src, dst, fc);
    FlowMass(OffDiagonal(), src, dst, code, m, |src|);
    forall e | 0 <= e < |src|
      ensures Cross(src, dst, fc)(e) == EdgesIn(OffDiagonal(), src, dst, code)(e) + Unscored(src, dst, fc, code)(e) {
      CrossSplits(src, dst, fc, rank, m, e);
    }
    SumAdd(|src|, EdgesIn(OffDiagonal(), src, dst, code), Unscored(src, dst, fc, code), Cross(src, dst, fc));
  }

  /** So transit and flow agree exactly when every edge between areas joins two scored ones. */
  lemma TransitAgreesExactlyWhen(src: seq<int>, dst: seq<int>, fc: seq<int>, rank: seq<int>, m: nat)
    requires IsLabelling(src, dst, fc, rank, m)
    ensures Sum(|fc|, TransitOf(src, dst, fc)) ==
            Sum2(m, m, Selected(OffDiagonal(), Flow(src, dst, RankOf(rank, fc), |src|)))
            <==> (forall e :: 0 <= e < |src| && !SameArea(src, dst, fc, e)
                   ==> BothScored(src, dst, RankOf(rank, fc), e))
  {
    var code := RankOf(rank, fc);
    var hidden := Unscored(src, dst, fc, code);
    TransitIsFlow(src, dst, fc, rank, m);
    SumNonNegative(|src|, hidden);
    if forall e :: 0 <= e < |src| && !SameArea(src, dst, fc, e) ==> BothScored(src, dst, code, e) {
      SumZero(|src|, hidden);
    } else {
      var e :| 0 <= e < |src| && !SameArea(src, dst, fc, e) && !BothScored(src, dst, code, e);
      assert hidden(e) == 1.0;
    }
  }

  /**
   * One neighbour per node, an area of one node, which abstains, and one of two, which is scored:
   * transit counts the edge between them, the flow matrix does not.
   */
  lemma TransitDisagrees()
    ensures IsLabelling([0, 1, 2], [1, 2, 1], [0, 1, 1], [-1, 0], 1)
    ensures Sum(3, TransitOf([0, 1, 2], [1, 2, 1], [0, 1, 1])) !=
            Sum2(1, 1, Selected(OffDiagonal(), Flow([0, 1, 2], [1, 2, 1], RankOf([-1, 0], [0, 1, 1]), 3)))
  {
    TransitAgreesExactlyWhen([0, 1, 2], [1, 2, 1], [0, 1, 1], [-1, 0], 1);
    assert !SameArea([0, 1, 2], [1, 2, 1], [0, 1, 1], 0);
    assert !BothScored([0, 1, 2], [1, 2, 1], RankOf([-1, 0], [0, 1, 1]), 0);
  }

  // ------------------------------------------------------------------ asymmetry

  function Squared(f: Mat): Mat { (a, b) => f(a, b) * f(a, b) }

  /** Squared Frobenius norm. */
  function Frobenius2(m: nat, f: Mat): real { Sum2(m, m, Squared(f)) }

  function Skew(f: Mat): Mat { (a, b) => f(a, b) - f(b, a) }

  function BothWays(f: Mat): Mat { (a, b) => f(a, b) * f(b, a) }

  ghost predicate NonNegative(m: nat, f: Mat) {
    forall a, b :: 0 <= a < m && 0 <= b < m ==> f(a, b) >= 0.0
  }

  ghost predicate Symmetric(m: nat, f: Mat) {
    forall a, b :: 0 <= a < m && 0 <= b < m ==> f(a, b) == f(b, a)
  }

  lemma TransposeKeepsNorm(m: nat, f: Mat)
    ensures Frobenius2(m, Transpose(f)) == Frobenius2(m, f)
  {
    forall a | 0 <= a < m ensures Sum(m, Row(Squared(Transpose(f)), a)) == Sum(m, Column(Squared(f), a)) {
      SumCongruence(m, Row(Squared(Transpose(f)), a), Column(Squared(f), a));
    }
    SumOfColumns(m, m, Squared(f), a => Sum(m, Row(Squared(Transpose(f)), a)));
  }

  lemma SquareOfDifference(x: real, y: real)
    ensures (x - y) * (x - y) == x * x + y * y - 2.0 * (x * y)
  {}

  /** ||F - F'||^2 + 2 <F, F'> == 2 ||F||^2. */
  lemma SkewExpands(m: nat, f: Mat)
    ensures Frobenius2(m, Skew(f)) + Sum2(m, m, BothWays(f)) + Sum2(m, m, BothWays(f)) == 2.0 * Frobenius2(m, f)
  {
    var t := Transpose(f);
    var x: Mat := (a, b) => Squared(Skew(f))(a, b) + BothWays(f)(a, b);
    var y: Mat := (a, b) => x(a, b) + BothWays(f)(a, b);
    Sum2Add(m, m, Squared(Skew(f)), BothWays(f), x);
    Sum2Add(m, m, x, BothWays(f), y);
    forall a, b | 0 <= a < m && 0 <= b < m ensures y(a, b) == Squared(f)(a, b) + Squared(t)(a, b) {
      SquareOfDifference(f(a, b), f(b, a));
    }
    Sum2Add(m, m, Squared(f), Squared(t), y);
    TransposeKeepsNorm(m, f);
  }

  lemma Sum2Positive(m: nat, f: Mat)
    requires NonNegative(m, f)
    ensures Sum2(m, m, f) >= 0.0
    ensures Sum2(m, m, f) == 0.0 <==> (forall a, b :: 0 <= a < m && 0 <= b < m ==> f(a, b) == 0.0)
  {
    forall a | 0 <= a < m ensures Sum(m, Row(f, a)) >= 0.0 {
      SumNonNegative(m, Row(f, a));
    }
    var rows := a => Sum(m, Row(f, a));
    SumNonNegative(m, rows);
    if a, b :| 0 <= a < m && 0 <= b < m && f(a, b) != 0.0 {
      SumNonNegative(m, Row(f, a));
      assert Row(f, a)(b) > 0.0;
      assert rows(a) > 0.0;
    } else {
      Sum2Zero(m, m, f);
    }
  }

  /**
   * Asymmetry ||F - F'||^2 lies between 0 and 2 ||F||^2: it is 0 exactly for a symmetric flow, and
   * full exactly for a one-way one.
   */
  lemma AsymmetryBounds(m: nat, f: Mat)
    requires NonNegative(m, f)
    ensures 0.0 <= Frobenius2(m, Skew(f)) <= 2.0 * Frobenius2(m, f)
    ensures Frobenius2(m, Skew(f)) == 0.0 <==> Symmetric(m, f)
    ensures Frobenius2(m, Skew(f)) == 2.0 * Frobenius2(m, f) <==> OneWay(m, f)
  {
    SkewExpands(m, f);
    SkewIsZero(m, f);
    BothWaysIsZero(m, f);
  }

  /** No two areas, nor an area and itself, send edges both ways. */
  ghost predicate OneWay(m: nat, f: Mat) {
    forall a, b :: 0 <= a < m && 0 <= b < m ==> f(a, b) == 0.0 || f(b, a) == 0.0
  }

  lemma SkewIsZero(m: nat, f: Mat)
    ensures Frobenius2(m, Skew(f)) >= 0.0
    ensures Frobenius2(m, Skew(f)) == 0.0 <==> Symmetric(m, f)
  {
    var s := Squared(Skew(f));
    forall a, b | 0 <= a < m && 0 <= b < m ensures s(a, b) >= 0.0 && (s(a, b) == 0.0 <==> f(a, b) == f(b, a)) {
      SquareIsZero(f(a, b) - f(b, a));
    }
    Sum2Positive(m, s);
  }

  lemma BothWaysIsZero(m: nat, f: Mat)
    requires NonNegative(m, f)
    ensures Sum2(m, m, BothWays(f)) >= 0.0
    ensures Sum2(m, m, BothWays(f)) == 0.0 <==> OneWay(m, f)
  {
    var w := BothWays(f);
    forall a, b | 0 <= a < m && 0 <= b < m
      ensures w(a, b) >= 0.0 && (w(a, b) == 0.0 <==> f(a, b) == 0.0 || f(b, a) == 0.0) {
      NonNegativeProduct(f(a, b), f(b, a));
      ZeroProduct(f(a, b), f(b, a));
    }
    Sum2Positive(m, w);
  }

  lemma SquareOfProduct(q: real, d: real)
    ensures (q * q) * (d * d) == (q * d) * (q * d)
  {
    var p := q * d;
    assert p * p == p * (q * d);
    assert p * (q * d) == (p * q) * d;
    assert p * q == (q * q) * d;
    assert ((q * q) * d) * d == (q * q) * (d * d);
  }

  /** The reported score, ||F - F'|| over ||F|| clamped away from 0. */
  ghost predicate IsAsymmetry(m: nat, f: Mat, score: real) {
    exists num: real, den: real :: IsQuotientOfNorms(m, f, num, den, score)
  }

  ghost predicate IsQuotientOfNorms(m: nat, f: Mat, num: real, den: real, score: real) {
    && num >= 0.0 && num * num == Frobenius2(m, Skew(f))
    && den >= 0.0 && den * den == Frobenius2(m, f)
    && score == num / Clamped(den)
  }

  function Clamped(den: real): (d: real)
    ensures d > 0.0 && d >= den
  {
    if den >= 0.000000000001 then den else 0.000000000001
  }

  /** The score is at most the square root of 2, and 0 exactly for a symmetric flow. */
  lemma ScoreBounds(m: nat, f: Mat, score: real)
    requires NonNegative(m, f) && IsAsymmetry(m, f, score)
    ensures 0.0 <= score && score * score <= 2.0
    ensures score == 0.0 <==> Symmetric(m, f)
  {
    var num, den :| IsQuotientOfNorms(m, f, num, den, score);
    var d := Clamped(den);
    AsymmetryBounds(m, f);
    QuotientAtLeast(num, d);
    SquareMonotone(den, d);
    SquareIsZero(num);
    QuotientSquared(num, d, score, num * num, d * d);
  }

  lemma QuotientSquared(num: real, d: real, q: real, num2: real, d2: real)
    requires d > 0.0 && num >= 0.0 && q == num / d && num2 == num * num && d2 == d * d && num2 <= 2.0 * d2
    ensures q * q <= 2.0
    ensures q == 0.0 <==> num == 0.0
  {
    assert q * d == num;
    PositiveSquare(d, d2);
    SquareOfProduct(q, d);
    QuotientAtMost(num2, 2.0, d2);
    DivideBack(q * q, d2, num2);
  }

  lemma DivideBack(x: real, y: real, z: real)
    requires y > 0.0 && x * y == z
    ensures z / y == x
  {}

  /** The normalised flow is a nonnegative matrix, so all of this holds of the reported score. */
  lemma FlowScoreBounds(src: seq<int>, dst: seq<int>, code: seq<int>, m: nat, n: nat, total: real, score: real)
    requires IsAsymmetry(m, Normalised(Flow(src, dst, code, n), total), score)
    ensures NonNegative(m, Normalised(Flow(src, dst, code, n), total))
    ensures 0.0 <= score && score * score <= 2.0
    ensures score == 0.0 <==> Symmetric(m, Flow(src, dst, code, n))
  {
    var f := Flow(src, dst, code, n);
    var g := Normalised(f, total);
    forall a, b | 0 <= a < m && 0 <= b < m ensures g(a, b) >= 0.0 && (g(a, b) == g(b, a) <==> f(a, b) == f(b, a)) {
      SumNonNegative(n, Between(src, dst, code, a, b));
      QuotientAtLeast(f(a, b), AtLeastOne(total));
      SameQuotients(f(a, b), f(b, a), AtLeastOne(total));
    }
    ScoreBounds(m, g, score);
  }

  lemma SameQuotients(x: real, y: real, d: real)
    requires d > 0.0
    ensures x / d == y / d <==> x == y
  {
    assert x / d * d == x && y / d * d == y;
  }
}
