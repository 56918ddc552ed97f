/**
 * The pruned 8-bit scan against the scores it stands for: the kernel's code-space score, and through it
 * the cosine with the reconstruction.
 */
module PrunedKernel {
  import opened Extremes
  import opened IndexSets
  import Kernel = KernelIdentity
  import opened Matrices
  import opened PrunedScan
  import opened RealArithmetic
  import opened Sums
  import opened TopK

  // ------------------------------------------------------------------ the table

  /** The centroids that the codes select. */
  function SelectedBy(cent: seq<real>, codes: seq<nat>): Vec {
    i => if 0 <= i < |codes| then At(cent, codes[i]) else 0.0
  }

  ghost predicate CodesFor(codes: seq<nat>, q: seq<real>, cent: seq<real>) {
    |codes| == |q| && forall j :: 0 <= j < |codes| ==> codes[j] < |cent|
  }

  ghost predicate IsProduct(y: real, q: real, x: real) { y == q * x }

  ghost predicate IsRow(row: seq<real>, q: real, cent: seq<real>) {
    |row| == |cent| && forall c :: 0 <= c < |cent| ==> IsProduct(row[c], q, cent[c])
  }

  /** The rows hold the products of the query coordinates with the centroids. */
  ghost predicate IsTable(rows: seq<seq<real>>, q: seq<real>, cent: seq<real>) {
    |rows| == |q| && forall j :: 0 <= j < |q| ==> IsRow(rows[j], q[j], cent)
  }

  lemma TableHolds(q: seq<real>, cent: seq<real>)
    requires |cent| > 0
    ensures IsTable(Uint8Lut(q, cent).rows, q, cent)
  {
    forall j | 0 <= j < |q| ensures IsRow(FloatRow(q[j], cent), q[j], cent) {
      RowHolds(q[j], cent);
    }
  }

  lemma RowHolds(q: real, cent: seq<real>)
    ensures IsRow(FloatRow(q, cent), q, cent)
  {}

  /** Adding up the table entries of the codes is the inner product of the query with their centroids. */
  lemma TableAddsUp(q: seq<real>, cent: seq<real>, codes: seq<nat>, m: nat)
    requires |cent| > 0 && CodesFor(codes, q, cent) && m <= |q|
    ensures ValidCodes(Uint8Lut(q, cent), codes)
    ensures Exact(Uint8Lut(q, cent), codes, m) == Dot(m, Entries(q), SelectedBy(cent, codes))
  {
    TableHolds(q, cent);
    RowsAddUp(Uint8Lut(q, cent), q, cent, codes, m);
  }

  lemma {:induction false} RowsAddUp(t: Lut, q: seq<real>, cent: seq<real>, codes: seq<nat>, m: nat)
    requires IsTable(t.rows, q, cent) && CodesFor(codes, q, cent) && m <= |q|
    ensures ValidCodes(t, codes) && Exact(t, codes, m) == Dot(m, Entries(q), SelectedBy(cent, codes))
  {
    if m == 0 {
    } else {
      RowsAddUp(t, q, cent, codes, m - 1);
      assert IsRow(t.rows[m - 1], q[m - 1], cent);
      assert Product(Entries(q), SelectedBy(cent, codes))(m - 1) == q[m - 1] * cent[codes[m - 1]];
    }
  }

  /** How far the products of a query coordinate with the centroids are apart. */
  function Spread(q: real, cent: seq<real>): real
    requires |cent| > 0
  {
    Stretched(q, MinOf(cent), MaxOf(cent))
  }

  function Stretched(q: real, lo: real, hi: real): real { Abs(q) * (hi - lo) }

  /** 255 steps of the table are the widest spread of any coordinate, or TINY if that is more. */
  lemma ScaleIsWidestSpread(q: seq<real>, cent: seq<real>)
    requires |cent| > 0
    ensures var steps := 255.0 * Uint8Lut(q, cent).scale;
            && steps >= TINY && (forall j :: 0 <= j < |q| ==> Spread(q[j], cent) <= steps)
            && (steps == TINY || exists j :: 0 <= j < |q| && steps == Spread(q[j], cent))
  {
    var rows := Uint8Lut(q, cent).rows;
    TableHolds(q, cent);
    forall j | 0 <= j < |q| ensures RowWidth(rows[j]) == Spread(q[j], cent) {
      RowSpread(rows[j], q[j], cent);
    }
    if Widest(rows) != TINY {
      var j := WidestRow(rows);
      assert Widest(rows) == Spread(q[j], cent);
    }
  }

  lemma {:induction false} WidestRow(rows: seq<seq<real>>) returns (j: nat)
    requires (forall j :: 0 <= j < |rows| ==> |rows[j]| > 0) && Widest(rows) != TINY
    ensures j < |rows| && RowWidth(rows[j]) == Widest(rows)
  {
    var n := |rows| - 1;
    if Widest(rows[..n]) < RowWidth(rows[n]) {
      j := n;
    } else {
      j := WidestRow(rows[..n]);
    }
  }

  lemma RowSpread(row: seq<real>, q: real, cent: seq<real>)
    requires |cent| > 0 && IsRow(row, q, cent)
    ensures RowWidth(row) == Spread(q, cent)
  {
    var i, k := LeastAndGreatest(cent);
    RowEnds(row, q, cent, i, k);
    SpreadOfEnds(q, cent[i], cent[k], row[i], row[k]);
  }

  lemma LeastAndGreatest(cent: seq<real>) returns (i: nat, k: nat)
    requires |cent| > 0
    ensures i < |cent| && k < |cent| && cent[i] == MinOf(cent) && cent[k] == MaxOf(cent)
    ensures forall c :: 0 <= c < |cent| ==> cent[i] <= cent[c] <= cent[k]
  {
    i :| 0 <= i < |cent| && cent[i] == MinOf(cent);
    k :| 0 <= k < |cent| && cent[k] == MaxOf(cent);
  }

  /** The products with the least and the greatest centroid are the ends of the row. */
  lemma RowEnds(row: seq<real>, q: real, cent: seq<real>, i: nat, k: nat)
    requires IsRow(row, q, cent) && i < |cent| && k < |cent|
    requires forall c :: 0 <= c < |cent| ==> cent[i] <= cent[c] <= cent[k]
    ensures RowWidth(row) == if q >= 0.0 then row[k] - row[i] else row[i] - row[k]
  {
    forall c | 0 <= c < |cent| ensures if q >= 0.0 then row[i] <= row[c] <= row[k] else row[k] <= row[c] <= row[i] {
      EntryBetween(row, q, cent, i, c, k);
    }
    if q >= 0.0 {
      WidthOf(row, i, k);
    } else {
      WidthOf(row, k, i);
    }
  }

  lemma EntryBetween(row: seq<real>, q: real, cent: seq<real>, i: nat, c: nat, k: nat)
    requires IsRow(row, q, cent) && i < |cent| && c < |cent| && k < |cent| && cent[i] <= cent[c] <= cent[k]
    ensures if q >= 0.0 then row[i] <= row[c] <= row[k] else row[k] <= row[c] <= row[i]
  {
    ProductOrder(q, cent[i], cent[c], row[i], row[c]);
    ProductOrder(q, cent[c], cent[k], row[c], row[k]);
  }

  lemma WidthOf(row: seq<real>, i: nat, k: nat)
    requires i < |row| && k < |row| && forall c :: 0 <= c < |row| ==> row[i] <= row[c] <= row[k]
    ensures RowWidth(row) == row[k] - row[i]
  {}

  /** Products with one factor are ordered as the other factor, or the other way round. */
  lemma ProductOrder(q: real, x: real, x': real, y: real, y': real)
    requires x <= x' && IsProduct(y, q, x) && IsProduct(y', q, x')
    ensures if q >= 0.0 then y <= y' else y' <= y
  {
    var gap := x' - x;
    assert q * gap == y' - y;
    if q >= 0.0 {
      NonNegativeProduct(q, gap);
    } else {
      NonNegativeProduct(-q, gap);
      assert -q * gap == -(q * gap);
    }
  }

  lemma SpreadOfEnds(q: real, lo: real, hi: real, a: real, b: real)
    requires IsProduct(a, q, lo) && IsProduct(b, q, hi)
    ensures Stretched(q, lo, hi) == if q >= 0.0 then b - a else a - b
  {}

  // ------------------------------------------------------------------ the kernel

  /** s scans the corpus for the query q: rotated query, centroids, codes and norms are the kernel's. */
  ghost predicate Scans(s: Scan, m: Kernel.Model, vs: seq<Kernel.Stored>, q: Vec, vrnorms: seq<real>) {
    && |m.cent| > 0 && ValidScan(s) && |s.codes| == |vs| == |vrnorms|
    && s.lut == Uint8Lut(Coordinates(m.pd, Kernel.RotatedQuery(m, q)), m.cent) && s.qbias == Dot(m.dim, q, m.mean)
    && forall i :: 0 <= i < |vs| ==>
         && s.codes[i] == vs[i].codes && s.norm[i] == vs[i].cnorm && s.vrnorm[i] == vrnorms[i]
         && forall j :: 0 <= j < |vs[i].codes| ==> vs[i].codes[j] < |m.cent|
  }

  function Coordinates(n: nat, f: Vec): (a: seq<real>)
    ensures |a| == n && forall j :: 0 <= j < n ==> a[j] == f(j)
  {
    seq(n, j => f(j))
  }

  /** With the real table the scan scores are the kernel's. */
  lemma ExactScoresAreKernelScores(s: Scan, m: Kernel.Model, vs: seq<Kernel.Stored>, q: Vec, vrnorms: seq<real>)
    requires Scans(s, m, vs, q, vrnorms)
    ensures ExactScores(s) == Kernel.KernelScores(m, vs, q, vrnorms)
  {
    forall i | 0 <= i < |vs| ensures ExactScore(s, i) == Kernel.KernelScore(m, vs[i], q, vrnorms[i]) {
      ExactScoreIsKernelScore(s, m, vs, q, vrnorms, i);
    }
  }

  lemma ExactScoreIsKernelScore(s: Scan, m: Kernel.Model, vs: seq<Kernel.Stored>, q: Vec, vrnorms: seq<real>, i: nat)
    requires Scans(s, m, vs, q, vrnorms) && i < |vs|
    ensures ExactScore(s, i) == Kernel.KernelScore(m, vs[i], q, vrnorms[i])
  {
    var qr, codes := Coordinates(m.pd, Kernel.RotatedQuery(m, q)), vs[i].codes;
    TableAddsUp(qr, m.cent, codes, m.pd);
    DotCongruence(m.pd, Entries(qr), Kernel.RotatedQuery(m, q), SelectedBy(m.cent, codes), Kernel.Centroids(m, vs[i]));
    KernelScoreIsAffine(m, vs[i], q, vrnorms[i], Exact(s.lut, codes, m.pd));
  }

  lemma KernelScoreIsAffine(m: Kernel.Model, v: Kernel.Stored, q: Vec, vrnorm: real, x: real)
    requires x == Dot(m.pd, Kernel.RotatedQuery(m, q), Kernel.Centroids(m, v))
    ensures Kernel.KernelScore(m, v, q, vrnorm) == Affine(Dot(m.dim, q, m.mean), v.cnorm, vrnorm, x)
  {}

  /** Half a step for each of n dimensions, times the factors that scale a score. */
  function ScanError(norm: real, vrnorm: real, n: nat, scale: real): real {
    norm * vrnorm * (n as real * (scale / 2.0))
  }

  /** The 8-bit score is within half a step per dimension, scaled, of the kernel's score. */
  lemma ScanIsNearKernel(s: Scan, m: Kernel.Model, vs: seq<Kernel.Stored>, q: Vec, vrnorms: seq<real>, i: nat)
    requires Scans(s, m, vs, q, vrnorms) && i < |vs|
    ensures Abs(Scores(s)[i] - Kernel.KernelScore(m, vs[i], q, vrnorms[i]))
         <= ScanError(vs[i].cnorm, vrnorms[i], m.pd, s.lut.scale)
  {
    ScoreError(s, i);
    ExactScoreIsKernelScore(s, m, vs, q, vrnorms, i);
    WithinError(s, i, Kernel.KernelScore(m, vs[i], q, vrnorms[i]));
  }

  lemma WithinError(s: Scan, i: nat, x: real)
    requires ValidScan(s) && i < |s.codes| && Close(Scores(s)[i], x, ErrorBound(s, i))
    ensures Abs(Scores(s)[i] - x) <= ScanError(s.norm[i], s.vrnorm[i], |s.lut.rows|, s.lut.scale)
  {
    SameError(s, i, s.norm[i], s.vrnorm[i], |s.lut.rows|, s.lut.scale);
    CloseIsWithin(Scores(s)[i], x, ErrorBound(s, i));
  }

  lemma CloseIsWithin(x: real, y: real, most: real)
    requires Close(x, y, most)
    ensures Abs(x - y) <= most
  {}

  lemma SameError(s: Scan, i: nat, norm: real, vrnorm: real, n: nat, scale: real)
    requires ValidScan(s) && i < |s.codes|
    requires norm == s.norm[i] && vrnorm == s.vrnorm[i] && n == |s.lut.rows| && scale == s.lut.scale
    ensures ErrorBound(s, i) == ScanError(norm, vrnorm, n, scale)
  {
    HalfStepsIs(scale, n);
  }

  lemma HalfStepsIs(scale: real, n: nat)
    ensures HalfSteps(scale, n) == n as real * (scale / 2.0)
  {}

  // ------------------------------------------------------------------ what the scan returns

  /**
   * From scan to cosine: where no squared norm is clamped and k vectors are clear of all others, they are
   * the one top-k by the cosine with the reconstruction, the one by the 8-bit scores, and the one among
   * the vectors kept at any checkpoint under a threshold that none of them misses.
   */
  lemma ScanFindsCosineTopK(s: Scan, m: Kernel.Model, vs: seq<Kernel.Stored>, q: Vec, lens: seq<real>,
                            vrnorms: seq<real>, top: set<int>, k: nat, checkpoint: nat, thr: real)
    requires Scans(s, m, vs, q, vrnorms) && Kernel.ValidCorpus(m, vs, lens, vrnorms)
    requires forall i :: 0 <= i < |vs| ==> Kernel.ReconNorm2(m, vs[i]) >= Kernel.TINY
    requires top <= Ids(|vs|) && |top| == Min(k, |vs|) && Separated(s, top)
    requires checkpoint <= m.pd && forall i :: i in top ==> thr <= Scores(s)[i]
    ensures forall other ::
      IsTopK(other, Kernel.ReferenceScores(m, vs, q, lens), Ids(|vs|), k) <==> other == top
    ensures forall other :: IsTopK(other, Scores(s), Ids(|vs|), k) <==> other == top
    ensures forall other :: IsTopK(other, Scores(s), Kept(s, checkpoint, thr), k) <==> other == top
  {
    ExactScoresAreKernelScores(s, m, vs, q, vrnorms);
    Kernel.RankingsAgree(m, vs, q, lens, vrnorms);
    SeparatedTopKSurvives(s, top, k);
    OnlyTopOfKept(s, checkpoint, top, k, thr);
  }

  lemma OnlyTopOfKept(s: Scan, m: nat, top: set<int>, k: nat, thr: real)
    requires ValidScan(s) && m <= |s.lut.rows| && top <= Ids(|s.codes|) && |top| == Min(k, |s.codes|)
    requires Separated(s, top) && forall i :: i in top ==> thr <= Scores(s)[i]
    ensures forall other :: IsTopK(other, Scores(s), Kept(s, m, thr), k) <==> other == top
  {
    var kept := Kept(s, m, thr);
    forall i | i in top ensures i in kept {
      PruningIsAdmissible(s, m, m, thr, i);
    }
    SubsetSize(top, kept);
    SubsetSize(kept, Ids(|s.codes|));
    GapsSurvive(s, top);
    OnlyTopK(top, Scores(s), kept, k);
  }
}
