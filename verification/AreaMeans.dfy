/** Transit averaged by area, and what relabelling the nodes keeps. */
module AreaMeans {
  import opened Matrices
  import opened Permutations
  import opened RealArithmetic
  import opened Sums
  import opened TransitFlow

  /** Nodes in area a. */
  function AreaSize(code: seq<int>, a: int): real { Tally(code, Ones(), a) }

  /** Scores added up over area a. */
  function AreaSum(code: seq<int>, tau: Vec, a: int): real { Tally(code, tau, a) }

  function AreaMean(code: seq<int>, tau: Vec, a: int): real {
    AreaSum(code, tau, a) / AtLeastOne(AreaSize(code, a))
  }

  ghost predicate AreShares(tau: Vec, n: nat) {
    forall x :: 0 <= x < n ==> 0.0 <= tau(x) <= 1.0
  }

  lemma SizesAndSums(code: seq<int>, tau: Vec, a: int)
    requires AreShares(tau, |code|)
    ensures 0.0 <= AreaSum(code, tau, a) <= AreaSize(code, a)
    ensures AreaSize(code, a) == 0.0 || AreaSize(code, a) >= 1.0
  {
    SumMonotone(|code|, Hits(code, tau, a), Hits(code, Ones(), a));
    SumNonNegative(|code|, Hits(code, tau, a));
    SumNonNegative(|code|, Hits(code, Ones(), a));
    if forall x :: 0 <= x < |code| ==> code[x] != a {
      SumZero(|code|, Hits(code, Ones(), a));
    } else {
      var x :| 0 <= x < |code| && code[x] == a;
      assert Hits(code, Ones(), a)(x) == 1.0;
    }
  }

  /** The mean of shares is a share, and times the area's size it is the area's sum, empty areas included. */
  lemma AreaMeanIsAShare(code: seq<int>, tau: Vec, a: int)
    requires AreShares(tau, |code|)
    ensures 0.0 <= AreaMean(code, tau, a) <= 1.0
    ensures AreaSize(code, a) * AreaMean(code, tau, a) == AreaSum(code, tau, a)
    ensures AreaSize(code, a) == 0.0 ==> AreaMean(code, tau, a) == 0.0
  {
    SizesAndSums(code, tau, a);
    var s, d := AreaSum(code, tau, a), AtLeastOne(AreaSize(code, a));
    QuotientAtMost(s, 1.0, d);
    QuotientAtLeast(s, d);
    assert s / d * d == s;
  }

  function Weighted(code: seq<int>, tau: Vec): Vec { a => AreaSize(code, a) * AreaMean(code, tau, a) }

  function Scored(code: seq<int>, tau: Vec): Vec {
    x => if 0 <= x < |code| && code[x] >= 0 then tau(x) else 0.0
  }

  /** Weighted by their sizes, the area means pool back to the scores of the nodes in scored areas. */
  lemma MeansPoolBack(code: seq<int>, tau: Vec, m: nat)
    requires AreShares(tau, |code|) && forall x :: 0 <= x < |code| ==> -1 <= code[x] < m
    ensures Sum(m, Weighted(code, tau)) == Sum(|code|, Scored(code, tau))
  {
    forall a | 0 <= a < m ensures Weighted(code, tau)(a) == Sum(|code|, Row(TallyGrid(code, tau), a)) {
      AreaMeanIsAShare(code, tau, a);
      SumCongruence(|code|, Hits(code, tau, a), Row(TallyGrid(code, tau), a));
    }
    SumOfRows(m, |code|, TallyGrid(code, tau), Weighted(code, tau));
    forall x | 0 <= x < |code| ensures Scored(code, tau)(x) == Sum(m, Column(TallyGrid(code, tau), x)) {
      TallyColumn(code, tau, x);
      if code[x] >= 0 {
        SumSingle(m, code[x], Column(TallyGrid(code, tau), x));
      } else {
        SumZero(m, Column(TallyGrid(code, tau), x));
      }
    }
    SumOfColumns(m, |code|, TallyGrid(code, tau), Scored(code, tau));
  }

  // ------------------------------------------------------------------ relabelling

  function Relabelled(fc: seq<int>, p: seq<int>): (fc': seq<int>)
    requires |p| == |fc| && IsPermutation(p)
    ensures |fc'| == |fc| && forall x :: 0 <= x < |fc| ==> fc'[x] == fc[p[x]]
  {
    seq(|fc|, x requires 0 <= x < |fc| => fc[p[x]])
  }

  /** A replicate permutes the labels: every area keeps its size. */
  lemma RelabellingKeepsSizes(fc: seq<int>, p: seq<int>, q: seq<int>, a: int)
    requires |p| == |fc| && IsPermutation(p) && IsArgsort(p, q)
    ensures AreaSize(Relabelled(fc, p), a) == AreaSize(fc, a)
  {
    ArgsortInverts(p, q);
    SumPermuted(|fc|, Index(p), Index(q), Hits(fc, Ones(), a), Hits(Relabelled(fc, p), Ones(), a));
  }
}
