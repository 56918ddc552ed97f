/** Transit scores and the area-to-area flow matrix, both counted from the same list of edges. */
module TransitFlow {
  import opened IndexSets
  import opened Matrices
  import opened RealArithmetic
  import opened Sums

  // ------------------------------------------------------------------ weighted counts

  function Hits(keys: seq<int>, w: Vec, v: int): Vec {
    e => if 0 <= e < |keys| && keys[e] == v then w(e) else 0.0
  }

  /** The weights at the positions whose key is v. */
  function Tally(keys: seq<int>, w: Vec, v: int): real {
    Sum(|keys|, Hits(keys, w, v))
  }

  function Ones(): Vec { _ => 1.0 }

  /** Scatter-add: repeated keys accumulate. */
  method Bincount(keys: seq<int>, weights: seq<real>, n: nat) returns (out: array<real>)
    requires |weights| == |keys| && Indexes(keys, n)
    ensures fresh(out) && out.Length == n
    ensures forall v :: 0 <= v < n ==> out[v] == Tally(keys, Entries(weights), v)
  {
    out := new real[n](_ => 0.0);
    for e := 0 to |keys|
      invariant forall v :: 0 <= v < n ==> out[v] == Sum(e, Hits(keys, Entries(weights), v))
    {
      out[keys[e]] := out[keys[e]] + weights[e];
    }
  }

  function TallyGrid(keys: seq<int>, w: Vec): Mat { (v, e) => Hits(keys, w, v)(e) }

  lemma TallyColumn(keys: seq<int>, w: Vec, e: nat)
    requires e < |keys|
    ensures forall v: int :: Column(TallyGrid(keys, w), e)(v) == if v == keys[e] then w(e) else 0.0
  {
    var grid := TallyGrid(keys, w);
    forall v: int ensures Column(grid, e)(v) == if v == keys[e] then w(e) else 0.0 {
      assert Column(grid, e)(v) == grid(v, e) == Hits(keys, w, v)(e);
    }
  }

  /** Nothing is lost in scattering: the totals agree. */
  lemma TallyTotal(keys: seq<int>, w: Vec, n: nat, t: Vec)
    requires Indexes(keys, n)
    requires forall v :: 0 <= v < n ==> t(v) == Tally(keys, w, v)
    ensures Sum(n, t) == Sum(|keys|, w)
  {
    var grid := TallyGrid(keys, w);
    forall v | 0 <= v < n ensures t(v) == Sum(|keys|, Row(grid, v)) {
      SumCongruence(|keys|, Hits(keys, w, v), Row(grid, v));
    }
    SumOfRows(n, |keys|, grid, t);
    forall e | 0 <= e < |keys| ensures w(e) == Sum(n, Column(grid, e)) {
      TallyColumn(keys, w, e);
      SumSingle(n, keys[e], Column(grid, e));
    }
    SumOfColumns(n, |keys|, grid, w);
  }

  lemma TallyCongruence(keys: seq<int>, w: Vec, w': Vec, v: int)
    requires forall e :: 0 <= e < |keys| ==> w(e) == w'(e)
    ensures Tally(keys, w, v) == Tally(keys, w', v)
  {
    SumCongruence(|keys|, Hits(keys, w, v), Hits(keys, w', v));
  }

  // ------------------------------------------------------------------ transit

  /** Edge e goes from src[e] to dst[e]; fc gives every node an area. */
  ghost predicate IsGraph(src: seq<int>, dst: seq<int>, fc: seq<int>) {
    |src| == |dst| && Indexes(src, |fc|) && Indexes(dst, |fc|)
  }

  predicate SameArea(src: seq<int>, dst: seq<int>, fc: seq<int>, e: int) {
    && 0 <= e < |src| && e < |dst| && 0 <= src[e] < |fc| && 0 <= dst[e] < |fc|
    && fc[src[e]] == fc[dst[e]]
  }

  function Same(src: seq<int>, dst: seq<int>, fc: seq<int>): Vec {
    e => if SameArea(src, dst, fc, e) then 1.0 else 0.0
  }

  function Cross(src: seq<int>, dst: seq<int>, fc: seq<int>): Vec {
    e => if SameArea(src, dst, fc, e) then 0.0 else 1.0
  }

  function Counts(dst: seq<int>, v: int): real { Tally(dst, Ones(), v) }

  function Intra(src: seq<int>, dst: seq<int>, fc: seq<int>, v: int): real { Tally(dst, Same(src, dst, fc), v) }

  function AtLeastOne(x: real): (y: real)
    ensures y >= 1.0 && y >= x && (y == x || y == 1.0)
  {
    if x >= 1.0 then x else 1.0
  }

  /** The share of the edges into v that come from another area; 0 when there are none. */
  function Tau(src: seq<int>, dst: seq<int>, fc: seq<int>, v: int): real {
    (Counts(dst, v) - Intra(src, dst, fc, v)) / AtLeastOne(Counts(dst, v))
  }

  lemma CountsAndIntra(src: seq<int>, dst: seq<int>, fc: seq<int>, v: int)
    ensures 0.0 <= Intra(src, dst, fc, v) <= Counts(dst, v)
    ensures Counts(dst, v) == 0.0 || Counts(dst, v) >= 1.0
  {
    SumMonotone(|dst|, Hits(dst, Same(src, dst, fc), v), Hits(dst, Ones(), v));
    SumNonNegative(|dst|, Hits(dst, Same(src, dst, fc), v));
    SumNonNegative(|dst|, Hits(dst, Ones(), v));
    if forall e :: 0 <= e < |dst| ==> dst[e] != v {
      SumZero(|dst|, Hits(dst, Ones(), v));
    } else {
      var e :| 0 <= e < |dst| && dst[e] == v;
      assert Hits(dst, Ones(), v)(e) == 1.0;
    }
  }

  /** A transit score is a share, and times the in-degree it is the number of edges from outside. */
  lemma TauIsAShare(src: seq<int>, dst: seq<int>, fc: seq<int>, v: int)
    ensures 0.0 <= Tau(src, dst, fc, v) <= 1.0
    ensures Counts(dst, v) * Tau(src, dst, fc, v) == Counts(dst, v) - Intra(src, dst, fc, v)
    ensures Counts(dst, v) == 0.0 ==> Tau(src, dst, fc, v) == 0.0
  {
    CountsAndIntra(src, dst, fc, v);
    var c, outside := Counts(dst, v), Counts(dst, v) - Intra(src, dst, fc, v);
    var d := AtLeastOne(c);
    QuotientAtMost(outside, 1.0, d);
    QuotientAtLeast(outside, d);
    assert outside / d * d == outside;
  }

  function TransitOf(src: seq<int>, dst: seq<int>, fc: seq<int>): Vec {
    v => Counts(dst, v) * Tau(src, dst, fc, v)
  }

  /** In-degree times transit, over all nodes, counts every edge between different areas once. */
  lemma TransitCountsCrossEdges(src: seq<int>, dst: seq<int>, fc: seq<int>)
    requires IsGraph(src, dst, fc)
    ensures Sum(|fc|, TransitOf(src, dst, fc)) == Sum(|dst|, Cross(src, dst, fc))
  {
    forall v | 0 <= v < |fc| ensures TransitOf(src, dst, fc)(v) == Tally(dst, Cross(src, dst, fc), v) {
      TransitAt(src, dst, fc, v);
    }
    TallyTotal(dst, Cross(src, dst, fc), |fc|, TransitOf(src, dst, fc));
  }

  lemma TransitAt(src: seq<int>, dst: seq<int>, fc: seq<int>, v: int)
    ensures Counts(dst, v) * Tau(src, dst, fc, v) == Tally(dst, Cross(src, dst, fc), v)
  {
    TauIsAShare(src, dst, fc, v);
    SumAdd(|dst|, Hits(dst, Same(src, dst, fc), v), Hits(dst, Cross(src, dst, fc), v), Hits(dst, Ones(), v));
  }

  /** In-degrees and transit scores of all nodes. */
  method TransitStats(src: seq<int>, dst: seq<int>, fc: seq<int>) returns (counts: array<real>, tau: array<real>)
    requires IsGraph(src, dst, fc)
    ensures counts.Length == tau.Length == |fc|
    ensures forall v :: 0 <= v < |fc| ==> counts[v] == Counts(dst, v) && tau[v] == Tau(src, dst, fc, v)
  {
    counts := InDegrees(dst, |fc|);
    var intra := IntraDegrees(src, dst, fc);
    tau := new real[|fc|];
    for v := 0 to |fc|
      modifies tau
      invariant forall u :: 0 <= u < v ==> tau[u] == Tau(src, dst, fc, u)
    {
      tau[v] := (counts[v] - intra[v]) / AtLeastOne(counts[v]);
    }
  }

  method InDegrees(dst: seq<int>, n: nat) returns (counts: array<real>)
    requires Indexes(dst, n)
    ensures fresh(counts) && counts.Length == n
    ensures forall v :: 0 <= v < n ==> counts[v] == Counts(dst, v)
  {
    var ones := seq(|dst|, _ => 1.0);
    counts := Bincount(dst, ones, n);
    forall v | 0 <= v < n ensures counts[v] == Counts(dst, v) {
      TallyCongruence(dst, Entries(ones), Ones(), v);
    }
  }

  method IntraDegrees(src: seq<int>, dst: seq<int>, fc: seq<int>) returns (intra: array<real>)
    requires IsGraph(src, dst, fc)
    ensures fresh(intra) && intra.Length == |fc|
    ensures forall v :: 0 <= v < |fc| ==> intra[v] == Intra(src, dst, fc, v)
  {
    var same := seq(|dst|, e => if SameArea(src, dst, fc, e) then 1.0 else 0.0);
    intra := Bincount(dst, same, |fc|);
    forall v | 0 <= v < |fc| ensures intra[v] == Intra(src, dst, fc, v) {
      TallyCongruence(dst, Entries(same), Same(src, dst, fc), v);
    }
  }
}
