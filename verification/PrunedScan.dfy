/**
 * Early abandonment in the quantised scan: an 8-bit lookup table, partial sums over the first
 * dimensions, and the exact bound that decides which vectors and blocks can be skipped.
 */
module PrunedScan {
  import opened Extremes
  import opened IndexSets
  import opened RealArithmetic
  import opened TopK

  // ------------------------------------------------------------------ the 8-bit table

  /** One row of the float table: the products of a query coordinate with the centroids. */
  function FloatRow(q: real, cent: seq<real>): (row: seq<real>)
    ensures |row| == |cent|
  {
    seq(|cent|, s requires 0 <= s < |cent| => q * cent[s])
  }

  const TINY: real := 0.00000000000000000001

  function RowWidth(row: seq<real>): real
    requires |row| > 0
  {
    MaxOf(row) - MinOf(row)
  }

  /** The widest row of the table, but at least TINY. */
  function Widest(rows: seq<seq<real>>): (w: real)
    requires forall j :: 0 <= j < |rows| ==> |rows[j]| > 0
    ensures w >= TINY && forall j :: 0 <= j < |rows| ==> RowWidth(rows[j]) <= w
  {
    if |rows| == 0 then TINY else
      var n := |rows| - 1;
      var rest, last := Widest(rows[..n]), RowWidth(rows[n]);
      assert forall j :: 0 <= j < n ==> rows[..n][j] == rows[j];
      if rest < last then last else rest
  }

  /** Truncation to an integer, towards zero. */
  function Truncate(v: real): int { if v >= 0.0 then v.Floor else -((-v).Floor) }

  /** The byte for table entry x of a row that starts at dmin. */
  function ByteOf(x: real, dmin: real, scale: real): (u: int)
    requires scale > 0.0
    ensures 0 <= u <= 255
  {
    Clip(Truncate((x - dmin) / scale + 0.5), 0, 255)
  }

  /** The 8-bit table of a query, with its scale; the row minima are added up in `bias`. */
  datatype Lut = Lut(rows: seq<seq<real>>, scale: real)

  function Uint8Lut(q: seq<real>, cent: seq<real>): (t: Lut)
    requires |cent| > 0
    ensures t.scale > 0.0
  {
    var rows := seq(|q|, j requires 0 <= j < |q| => FloatRow(q[j], cent));
    Lut(rows, Widest(rows) / 255.0)
  }

  ghost predicate ValidLut(t: Lut) {
    && t.scale > 0.0
    && (forall j :: 0 <= j < |t.rows| ==> |t.rows[j]| > 0)
    && (forall j :: 0 <= j < |t.rows| ==> MaxOf(t.rows[j]) - MinOf(t.rows[j]) <= 255.0 * t.scale)
  }

  /** Codes with one entry per dimension, each naming a centroid. */
  ghost predicate ValidCodes(t: Lut, codes: seq<nat>) {
    |codes| == |t.rows| && forall j :: 0 <= j < |codes| ==> codes[j] < |t.rows[j]|
  }

  function ByteAt(t: Lut, codes: seq<nat>, j: nat): (u: int)
    requires ValidLut(t) && ValidCodes(t, codes) && j < |codes|
    ensures 0 <= u <= 255
  {
    ByteOf(t.rows[j][codes[j]], MinOf(t.rows[j]), t.scale)
  }

  /** The integer accumulator after the first m dimensions. */
  function Partial(t: Lut, codes: seq<nat>, m: nat): (acc: int)
    requires ValidLut(t) && ValidCodes(t, codes) && m <= |codes|
    ensures 0 <= acc <= 255 * m
  {
    if m == 0 then 0 else Partial(t, codes, m - 1) + ByteAt(t, codes, m - 1)
  }

  /** The sum of the row minima of the first m dimensions. */
  function Bias(t: Lut, m: nat): real
    requires ValidLut(t) && m <= |t.rows|
  {
    if m == 0 then 0.0 else Bias(t, m - 1) + MinOf(t.rows[m - 1])
  }

  /** The real score of the codes over the first m dimensions. */
  function Exact(t: Lut, codes: seq<nat>, m: nat): real
    requires ValidCodes(t, codes) && m <= |codes|
  {
    if m == 0 then 0.0 else Exact(t, codes, m - 1) + t.rows[m - 1][codes[m - 1]]
  }

  lemma Uint8LutIsValid(q: seq<real>, cent: seq<real>)
    requires |cent| > 0
    ensures ValidLut(Uint8Lut(q, cent))
  {
    var t := Uint8Lut(q, cent);
    assert 255.0 * t.scale == Widest(t.rows);
  }

  /** The real value an integer accumulator stands for. */
  function Unscaled(scale: real, acc: int): real { scale * acc as real }

  /** Half the scale, m times. */
  function HalfSteps(scale: real, m: nat): real { 0.5 * scale * m as real }

  /** x is within most of y. */
  ghost predicate Close(x: real, y: real, most: real) { -most <= x - y <= most }

  /** Rounding one table entry to a byte is off by at most half a step; halves are rounded up. */
  lemma ByteError(x: real, dmin: real, scale: real)
    requires scale > 0.0 && dmin <= x && x - dmin <= 255.0 * scale
    ensures Close(Unscaled(scale, ByteOf(x, dmin, scale)) + dmin, x, HalfSteps(scale, 1))
    ensures Unscaled(scale, ByteOf(x, dmin, scale)) + dmin - x != -HalfSteps(scale, 1)
  {
    var v := (x - dmin) / scale;
    var u := (v + 0.5).Floor;
    assert v * scale == x - dmin;
    QuotientAtLeast(x - dmin, scale);
    QuotientAtMost(x - dmin, 255.0, scale);
    assert 0.0 <= v <= 255.0;
    assert u as real <= v + 0.5 < u as real + 1.0;
    assert 0 <= u <= 255 && ByteOf(x, dmin, scale) == u;
    HalfStep(u, v, x - dmin, scale);
  }

  lemma HalfStep(u: int, v: real, x: real, scale: real)
    requires scale > 0.0 && v * scale == x && -0.5 < u as real - v <= 0.5
    ensures Close(Unscaled(scale, u), x, HalfSteps(scale, 1)) && Unscaled(scale, u) - x != -HalfSteps(scale, 1)
  {
    var w := u as real;
    assert scale * (w - v) == scale * w - v * scale;
    HalfOf(scale, w - v, Unscaled(scale, u) - x);
  }

  lemma HalfOf(scale: real, e: real, se: real)
    requires scale > 0.0 && -0.5 < e <= 0.5 && se == scale * e
    ensures Close(se, 0.0, HalfSteps(scale, 1)) && se != -HalfSteps(scale, 1)
  {
    MulMonotone(scale, e, 0.5);
    PositiveProduct(scale, e + 0.5);
    assert scale * (e + 0.5) == se + HalfSteps(scale, 1);
  }

  /** The 8-bit score of m dimensions is within m half-steps of the real one. */
  lemma {:induction false} LutError(t: Lut, codes: seq<nat>, m: nat)
    requires ValidLut(t) && ValidCodes(t, codes) && m <= |codes|
    ensures Close(Unscaled(t.scale, Partial(t, codes, m)) + Bias(t, m), Exact(t, codes, m), HalfSteps(t.scale, m))
  {
    if m == 0 {
    } else {
      LutError(t, codes, m - 1);
      ByteError(t.rows[m - 1][codes[m - 1]], MinOf(t.rows[m - 1]), t.scale);
      AddErrors(t.scale, Partial(t, codes, m - 1), ByteAt(t, codes, m - 1), m - 1);
    }
  }

  lemma AddErrors(scale: real, acc: int, u: int, m: nat)
    ensures Unscaled(scale, acc + u) == Unscaled(scale, acc) + Unscaled(scale, u)
    ensures HalfSteps(scale, m + 1) == HalfSteps(scale, m) + HalfSteps(scale, 1)
  {}

  // ------------------------------------------------------------------ the exact bound

  /** The largest byte of row j. */
  function RowMax(t: Lut, j: nat, s: nat): (u: int)
    requires ValidLut(t) && j < |t.rows| && s < |t.rows[j]|
    ensures forall i :: 0 <= i <= s ==> ByteOf(t.rows[j][i], MinOf(t.rows[j]), t.scale) <= u
  {
    var here := ByteOf(t.rows[j][s], MinOf(t.rows[j]), t.scale);
    if s == 0 then here else
      var rest := RowMax(t, j, s - 1);
      if rest < here then here else rest
  }

  /** The most the dimensions from m on can add. */
  function RestMax(t: Lut, m: nat): int
    requires ValidLut(t) && m <= |t.rows|
    decreases |t.rows| - m
  {
    if m == |t.rows| then 0 else RowMax(t, m, |t.rows[m]| - 1) + RestMax(t, m + 1)
  }

  /** An upper bound on the full accumulator, known after m dimensions. */
  function UpperBound(t: Lut, codes: seq<nat>, m: nat): int
    requires ValidLut(t) && ValidCodes(t, codes) && m <= |codes|
  {
    Partial(t, codes, m) + RestMax(t, m)
  }

  /** Later checkpoints tighten the bound, down to the accumulator itself. */
  lemma BoundTightens(t: Lut, codes: seq<nat>, m: nat, m': nat)
    requires ValidLut(t) && ValidCodes(t, codes) && m <= m' <= |codes|
    ensures UpperBound(t, codes, m') <= UpperBound(t, codes, m)
    ensures Partial(t, codes, |codes|) == UpperBound(t, codes, |codes|)
  {
    LaterBound(t, codes, m, m');
    assert RestMax(t, |codes|) == 0;
  }

  lemma {:induction false} LaterBound(t: Lut, codes: seq<nat>, m: nat, m': nat)
    requires ValidLut(t) && ValidCodes(t, codes) && m <= m' <= |codes|
    ensures UpperBound(t, codes, m') <= UpperBound(t, codes, m)
    decreases m' - m
  {
    if m == m' {
    } else {
      OneMoreDimension(t, codes, m);
      LaterBound(t, codes, m + 1, m');
    }
  }

  lemma OneMoreDimension(t: Lut, codes: seq<nat>, m: nat)
    requires ValidLut(t) && ValidCodes(t, codes) && m < |codes|
    ensures UpperBound(t, codes, m + 1) <= UpperBound(t, codes, m)
  {
    assert ByteAt(t, codes, m) <= RowMax(t, m, |t.rows[m]| - 1);
  }

  // ------------------------------------------------------------------ the scan

  /** A query against n coded vectors; norms and inverse lengths are not negative. */
  datatype Scan = Scan(lut: Lut, qbias: real, codes: seq<seq<nat>>, norm: seq<real>, vrnorm: seq<real>)

  ghost predicate ValidScan(s: Scan) {
    && ValidLut(s.lut) && |s.norm| == |s.vrnorm| == |s.codes|
    && (forall i :: 0 <= i < |s.codes| ==> ValidCodes(s.lut, s.codes[i]) && s.norm[i] >= 0.0 && s.vrnorm[i] >= 0.0)
  }

  /** The score an accumulator value gives vector i. */
  function ScoreOf(s: Scan, i: nat, acc: int): real
    requires ValidScan(s) && i < |s.codes|
  {
    Affine(s.qbias, s.norm[i], s.vrnorm[i], Unscaled(s.lut.scale, acc) + Bias(s.lut, |s.lut.rows|))
  }

  function Affine(qbias: real, norm: real, vrnorm: real, x: real): real { (qbias + norm * x) * vrnorm }

  function Scores(s: Scan): (scores: seq<real>)
    requires ValidScan(s)
    ensures |scores| == |s.codes|
  {
    seq(|s.codes|, i requires 0 <= i < |s.codes| => ScoreOf(s, i, Partial(s.lut, s.codes[i], |s.codes[i]|)))
  }

  /** The score of vector i with the real table in place of the 8-bit one. */
  function ExactScore(s: Scan, i: nat): real
    requires ValidScan(s) && i < |s.codes|
  {
    Affine(s.qbias, s.norm[i], s.vrnorm[i], Exact(s.lut, s.codes[i], |s.codes[i]|))
  }

  function ExactScores(s: Scan): (scores: seq<real>)
    requires ValidScan(s)
    ensures |scores| == |s.codes|
  {
    seq(|s.codes|, i requires 0 <= i < |s.codes| => ExactScore(s, i))
  }

  /** norm * vrnorm * (as many half-steps as there are dimensions). */
  function ErrorBound(s: Scan, i: nat): real
    requires ValidScan(s) && i < |s.codes|
  {
    s.norm[i] * s.vrnorm[i] * HalfSteps(s.lut.scale, |s.lut.rows|)
  }

  /** What the 8-bit table does to a final score. */
  lemma ScoreError(s: Scan, i: nat)
    requires ValidScan(s) && i < |s.codes|
    ensures Close(Scores(s)[i], ExactScore(s, i), ErrorBound(s, i))
  {
    var codes, m := s.codes[i], |s.lut.rows|;
    LutError(s.lut, codes, m);
    ErrorOfAccumulator(s, i, Partial(s.lut, codes, m), Exact(s.lut, codes, m));
  }

  lemma ErrorOfAccumulator(s: Scan, i: nat, acc: int, exact: real)
    requires ValidScan(s) && i < |s.codes|
    requires var m := |s.lut.rows|; Close(Unscaled(s.lut.scale, acc) + Bias(s.lut, m), exact, HalfSteps(s.lut.scale, m))
    ensures Close(ScoreOf(s, i, acc), Affine(s.qbias, s.norm[i], s.vrnorm[i], exact), ErrorBound(s, i))
  {
    var m := |s.lut.rows|;
    AffineError(s.qbias, s.norm[i], s.vrnorm[i],
                Unscaled(s.lut.scale, acc) + Bias(s.lut, m), exact, HalfSteps(s.lut.scale, m), ErrorBound(s, i));
  }

  lemma AffineError(qbias: real, norm: real, vrnorm: real, x: real, y: real, most: real, bound: real)
    requires norm >= 0.0 && vrnorm >= 0.0 && Close(x, y, most) && bound == norm * vrnorm * most
    ensures Close(Affine(qbias, norm, vrnorm, x), Affine(qbias, norm, vrnorm, y), bound)
  {
    var c := norm * vrnorm;
    NonNegativeProduct(norm, vrnorm);
    MulMonotone(c, -most, x - y);
    MulMonotone(c, x - y, most);
    assert c * -most == -(c * most);
    assert Affine(qbias, norm, vrnorm, x) - Affine(qbias, norm, vrnorm, y) == c * (x - y);
  }

  /** Vector i scores above vector j by more than both errors. */
  ghost predicate Clear(s: Scan, i: nat, j: nat)
    requires ValidScan(s) && i < |s.codes| && j < |s.codes|
  {
    ExactScore(s, i) - ExactScore(s, j) > ErrorBound(s, i) + ErrorBound(s, j)
  }

  ghost predicate Separated(s: Scan, top: set<int>)
    requires ValidScan(s) && top <= Ids(|s.codes|)
  {
    forall i, j :: i in top && j in Ids(|s.codes|) && j !in top ==> Clear(s, i, j)
  }

  /** A separated set of k vectors is the one top-k by the real table, and by the 8-bit one. */
  lemma SeparatedTopKSurvives(s: Scan, top: set<int>, k: nat)
    requires ValidScan(s) && top <= Ids(|s.codes|) && |top| == Min(k, |s.codes|) && Separated(s, top)
    ensures forall other :: IsTopK(other, ExactScores(s), Ids(|s.codes|), k) <==> other == top
    ensures forall other :: IsTopK(other, Scores(s), Ids(|s.codes|), k) <==> other == top
  {
    GapsSurvive(s, top);
    OnlyTopK(top, ExactScores(s), Ids(|s.codes|), k);
    OnlyTopK(top, Scores(s), Ids(|s.codes|), k);
  }

  lemma GapsSurvive(s: Scan, top: set<int>)
    requires ValidScan(s) && top <= Ids(|s.codes|) && Separated(s, top)
    ensures Beats(top, ExactScores(s), Ids(|s.codes|)) && Beats(top, Scores(s), Ids(|s.codes|))
  {
    forall i, j | i in top && j in Ids(|s.codes|) && j !in top
      ensures Above(ExactScores(s), i, j) && Above(Scores(s), i, j) {
      GapSurvives(s, i, j);
    }
  }

  lemma GapSurvives(s: Scan, i: nat, j: nat)
    requires ValidScan(s) && i < |s.codes| && j < |s.codes| && Clear(s, i, j)
    ensures Above(ExactScores(s), i, j) && Above(Scores(s), i, j)
  {
    ScoreError(s, i);
    ScoreError(s, j);
    ErrorsAreNotNegative(s, i);
    ErrorsAreNotNegative(s, j);
  }

  lemma ErrorsAreNotNegative(s: Scan, i: nat)
    requires ValidScan(s) && i < |s.codes|
    ensures ErrorBound(s, i) >= 0.0
  {
    NonNegativeProduct(s.lut.scale, |s.lut.rows| as real);
    NonNegativeProduct(s.norm[i], s.vrnorm[i]);
    NonNegativeProduct(s.norm[i] * s.vrnorm[i], HalfSteps(s.lut.scale, |s.lut.rows|));
  }

  /** Vector i is abandoned at checkpoint m: even its bound scores below the threshold. */
  predicate Pruned(s: Scan, m: nat, thr: real, i: nat)
    requires ValidScan(s) && m <= |s.lut.rows| && i < |s.codes|
  {
    ScoreOf(s, i, UpperBound(s.lut, s.codes[i], m)) < thr
  }

  /** A block of 32 vectors is abandoned when all of them are. */
  predicate BlockPruned(s: Scan, m: nat, thr: real, block: nat)
    requires ValidScan(s) && m <= |s.lut.rows| && 32 * block + 32 <= |s.codes|
  {
    forall i :: 32 * block <= i < 32 * block + 32 ==> Pruned(s, m, thr, i)
  }

  ghost function Kept(s: Scan, m: nat, thr: real): set<int>
    requires ValidScan(s) && m <= |s.lut.rows|
  {
    set i | i in Ids(|s.codes|) && !Pruned(s, m, thr, i)
  }

  lemma ScoreIsMonotone(s: Scan, i: nat, acc: int, more: int)
    requires ValidScan(s) && i < |s.codes| && acc <= more
    ensures ScoreOf(s, i, acc) <= ScoreOf(s, i, more)
  {
    UnscaledMonotone(s.lut.scale, acc, more);
    var bias := Bias(s.lut, |s.lut.rows|);
    AffineMonotone(s.qbias, s.norm[i], s.vrnorm[i],
                   Unscaled(s.lut.scale, acc) + bias, Unscaled(s.lut.scale, more) + bias);
  }

  lemma UnscaledMonotone(scale: real, acc: int, more: int)
    requires scale > 0.0 && acc <= more
    ensures Unscaled(scale, acc) <= Unscaled(scale, more)
  {
    MulMonotone(scale, acc as real, more as real);
  }

  lemma AffineMonotone(qbias: real, norm: real, vrnorm: real, x: real, y: real)
    requires norm >= 0.0 && vrnorm >= 0.0 && x <= y
    ensures Affine(qbias, norm, vrnorm, x) <= Affine(qbias, norm, vrnorm, y)
  {
    MulMonotone(norm, x, y);
    MulMonotone(vrnorm, qbias + norm * x, qbias + norm * y);
  }

  lemma MulMonotone(c: real, x: real, y: real)
    requires c >= 0.0 && x <= y
    ensures c * x <= c * y && x * c <= y * c
  {
    assert c * (y - x) >= 0.0;
    assert c * (y - x) == c * y - c * x;
  }

  /** A vector that scores at least the threshold is never abandoned; an abandoned one stays so. */
  lemma PruningIsAdmissible(s: Scan, m: nat, m': nat, thr: real, i: nat)
    requires ValidScan(s) && m <= m' <= |s.lut.rows| && i < |s.codes|
    ensures Scores(s)[i] >= thr ==> !Pruned(s, m, thr, i)
    ensures Pruned(s, m, thr, i) ==> Pruned(s, m', thr, i)
  {
    var codes := s.codes[i];
    BoundTightens(s.lut, codes, m, |codes|);
    ScoreIsMonotone(s, i, Partial(s.lut, codes, |codes|), UpperBound(s.lut, codes, m));
    BoundTightens(s.lut, codes, m, m');
    ScoreIsMonotone(s, i, UpperBound(s.lut, codes, m'), UpperBound(s.lut, codes, m));
  }

  // ------------------------------------------------------------------ the bound is tight

  /** full agrees with codes on the first m dimensions. */
  ghost predicate Completes(t: Lut, full: seq<nat>, codes: seq<nat>, m: nat) {
    && ValidCodes(t, codes) && ValidCodes(t, full)
    && forall j :: 0 <= j < m && j < |codes| ==> full[j] == codes[j]
  }

  lemma {:induction false} SamePrefix(t: Lut, full: seq<nat>, codes: seq<nat>, m: nat)
    requires ValidLut(t) && Completes(t, full, codes, m) && m <= |codes|
    ensures Partial(t, full, m) == Partial(t, codes, m)
  {
    if m == 0 {
    } else {
      SamePrefix(t, full, codes, m - 1);
    }
  }

  lemma {:induction false} RowMaxAttained(t: Lut, j: nat, s: nat) returns (c: nat)
    requires ValidLut(t) && j < |t.rows| && s < |t.rows[j]|
    ensures c <= s && ByteOf(t.rows[j][c], MinOf(t.rows[j]), t.scale) == RowMax(t, j, s)
  {
    if s == 0 {
      c := 0;
    } else {
      c := RowMaxAttained(t, j, s - 1);
      if RowMax(t, j, s - 1) < ByteOf(t.rows[j][s], MinOf(t.rows[j]), t.scale) {
        c := s;
      }
    }
  }

  /** Giving dimension m its largest byte keeps the bound. */
  lemma BestNext(t: Lut, codes: seq<nat>, m: nat) returns (next: seq<nat>)
    requires ValidLut(t) && ValidCodes(t, codes) && m < |codes|
    ensures Completes(t, next, codes, m) && UpperBound(t, next, m + 1) == UpperBound(t, codes, m)
  {
    next := BestByte(t, codes, m);
    SamePrefix(t, next, codes, m);
    BoundOfNext(t, codes, next, m);
  }

  lemma BoundOfNext(t: Lut, codes: seq<nat>, next: seq<nat>, m: nat)
    requires ValidLut(t) && ValidCodes(t, codes) && ValidCodes(t, next) && m < |codes|
    requires Partial(t, next, m) == Partial(t, codes, m) && ByteAt(t, next, m) == RowMax(t, m, |t.rows[m]| - 1)
    ensures UpperBound(t, next, m + 1) == UpperBound(t, codes, m)
  {}

  lemma BestByte(t: Lut, codes: seq<nat>, m: nat) returns (next: seq<nat>)
    requires ValidLut(t) && ValidCodes(t, codes) && m < |codes|
    ensures Completes(t, next, codes, m) && ByteAt(t, next, m) == RowMax(t, m, |t.rows[m]| - 1)
  {
    var c := RowMaxAttained(t, m, |t.rows[m]| - 1);
    next := codes[m := c];
  }

  /** Some codes with the same first m dimensions reach the bound. */
  lemma {:induction false} BoundIsReached(t: Lut, codes: seq<nat>, m: nat) returns (full: seq<nat>)
    requires ValidLut(t) && ValidCodes(t, codes) && m <= |codes|
    ensures Completes(t, full, codes, m) && Partial(t, full, |full|) == UpperBound(t, codes, m)
    decreases |codes| - m
  {
    if m == |codes| {
      full := codes;
    } else {
      var next := BestNext(t, codes, m);
      full := BoundIsReached(t, next, m + 1);
    }
  }

  /** No way of completing the first m codes of vector i reaches the threshold. */
  ghost predicate OutOfReach(s: Scan, m: nat, thr: real, i: nat)
    requires ValidScan(s) && i < |s.codes|
  {
    forall full :: Completes(s.lut, full, s.codes[i], m) ==> ScoreOf(s, i, Partial(s.lut, full, |full|)) < thr
  }

  /** A vector is abandoned, and not kept, exactly when it is out of reach. */
  lemma PrunedExactlyWhen(s: Scan, m: nat, thr: real, i: nat)
    requires ValidScan(s) && m <= |s.lut.rows| && i < |s.codes|
    ensures Pruned(s, m, thr, i) <==> OutOfReach(s, m, thr, i)
    ensures i in Kept(s, m, thr) <==> !OutOfReach(s, m, thr, i)
  {
    var codes := s.codes[i];
    if Pruned(s, m, thr, i) {
      forall full | Completes(s.lut, full, codes, m) ensures ScoreOf(s, i, Partial(s.lut, full, |full|)) < thr {
        SamePrefix(s.lut, full, codes, m);
        BoundTightens(s.lut, full, m, |full|);
        ScoreIsMonotone(s, i, Partial(s.lut, full, |full|), UpperBound(s.lut, codes, m));
      }
    } else {
      var full := BoundIsReached(s.lut, codes, m);
      assert ScoreOf(s, i, Partial(s.lut, full, |full|)) >= thr;
    }
  }

  // ------------------------------------------------------------------ what survives

  /**
   * With the k-th best score as threshold, no member of the top-k is pruned at any checkpoint, so
   * enough vectors are kept and the k best of the kept have the scores of the k best of all.
   */
  lemma PruningKeepsTopK(s: Scan, m: nat, top: set<int>, k: nat, thr: real)
    requires ValidScan(s) && m <= |s.lut.rows| && k <= |s.codes|
    requires IsTopK(top, Scores(s), Ids(|s.codes|), k)
    requires forall i :: i in top ==> thr <= Scores(s)[i]
    ensures top <= Kept(s, m, thr) && |Kept(s, m, thr)| >= k
    ensures forall keptTop :: IsTopK(keptTop, Scores(s), Kept(s, m, thr), k) ==> SameScores(keptTop, top, Scores(s))
  {
    var kept := Kept(s, m, thr);
    forall i | i in top ensures i in kept {
      PruningIsAdmissible(s, m, m, thr, i);
    }
    SubsetSize(top, kept);
    TopKOfKept(top, kept, Scores(s), Ids(|s.codes|), k);
    forall keptTop | IsTopK(keptTop, Scores(s), kept, k) ensures SameScores(keptTop, top, Scores(s)) {
      TopKScoresUnique(keptTop, top, Scores(s), kept, k);
    }
  }

  /** A block is skipped exactly when each of its 32 vectors is out of reach, so none with a top-k member is. */
  lemma BlockPrunedExactlyWhen(s: Scan, m: nat, thr: real, block: nat)
    requires ValidScan(s) && m <= |s.lut.rows| && 32 * block + 32 <= |s.codes|
    ensures BlockPruned(s, m, thr, block) <==>
              forall i :: 32 * block <= i < 32 * block + 32 ==> OutOfReach(s, m, thr, i)
    ensures forall i :: 32 * block <= i < 32 * block + 32 && thr <= Scores(s)[i] ==> !BlockPruned(s, m, thr, block)
  {
    forall i | 32 * block <= i < 32 * block + 32
      ensures Pruned(s, m, thr, i) <==> OutOfReach(s, m, thr, i)
      ensures thr <= Scores(s)[i] ==> !Pruned(s, m, thr, i)
    {
      PrunedExactlyWhen(s, m, thr, i);
      PruningIsAdmissible(s, m, m, thr, i);
    }
  }
}
