/**
 * Per-channel codebooks for cached keys: Lloyd's iteration in one dimension and the search for the
 * nearest codeword by bisection and comparison of two neighbours.
 */
module ChannelCodebook {
  import opened Division
  import opened QuantileStart
  import opened RealArithmetic
  import opened SortedSums
  import opened Sums
  import opened TwoMeans

  // ------------------------------------------------------------------ Lloyd's iteration

  /** argmin of |v - cent[j]|: the first of the nearest centroids. */
  function Nearest(cent: seq<real>, v: real): (j: nat)
    requires |cent| > 0
    ensures j < |cent|
    ensures forall i :: 0 <= i < |cent| ==> Abs(v - cent[j]) <= Abs(v - cent[i])
    ensures forall i :: 0 <= i < j ==> Abs(v - cent[j]) < Abs(v - cent[i])
  {
    var n := |cent| - 1;
    if n == 0 then 0 else
      var j := Nearest(cent[..n], v);
      if Abs(v - cent[n]) < Abs(v - cent[j]) then n else j
  }

  /** The values assigned to centroid j, in order. */
  function Members(x: seq<real>, cent: seq<real>, j: nat): seq<real>
    requires |cent| > 0
  {
    if |x| == 0 then [] else
      var n := |x| - 1;
      Members(x[..n], cent, j) + (if Nearest(cent, x[n]) == j then [x[n]] else [])
  }

  /** Each centroid moves to the mean of its members; one without members stays. */
  function LloydStep(x: seq<real>, cent: seq<real>): (next: seq<real>)
    requires |cent| > 0
    ensures |next| == |cent|
  {
    seq(|cent|, j requires 0 <= j < |cent| =>
      var ms := Members(x, cent, j);
      if |ms| > 0 then Mean(ms) else cent[j])
  }

  function Iterated(x: seq<real>, cent: seq<real>, iters: nat): (c: seq<real>)
    requires |cent| > 0
    ensures |c| == |cent|
  {
    if iters == 0 then cent else LloydStep(x, Iterated(x, cent, iters - 1))
  }

  /** Squared distance to the nearest centroid. */
  function NearestSq(cent: seq<real>): real -> real
    requires |cent| > 0
  {
    v => SqDist(cent[Nearest(cent, v)])(v)
  }

  /** Total squared error of coding x by its nearest centroids. */
  function CodingError(x: seq<real>, cent: seq<real>): real
    requires |cent| > 0
  {
    SumOf(x, NearestSq(cent))
  }

  /** Per-row k-means: the given number of Lloyd iterations from k quantiles. */
  method Kmeans1d(x: seq<real>, k: nat, iters: nat) returns (cent: seq<real>)
    requires |x| > 0 && k >= 2
    ensures cent == Iterated(x, Quantiles(x, k), iters) && |cent| == k
    ensures CodingError(x, cent) < CodingError(x, Quantiles(x, k)) || cent == Quantiles(x, k)
  {
    cent := Quantiles(x, k);
    for t := 0 to iters
      invariant cent == Iterated(x, Quantiles(x, k), t)
      invariant CodingError(x, cent) < CodingError(x, Quantiles(x, k)) || cent == Quantiles(x, k)
    {
      LloydNeverWorse(x, cent);
      ErrorFallsUnlessFixed(x, cent);
      cent := LloydIteration(x, cent);
    }
  }

  /** One iteration: every centroid moves to the mean of its members. */
  method LloydIteration(x: seq<real>, cent: seq<real>) returns (next: seq<real>)
    requires |cent| > 0
    ensures next == LloydStep(x, cent)
  {
    next := [];
    for j := 0 to |cent|
      invariant next == LloydStep(x, cent)[..j]
    {
      var ms := Members(x, cent, j);
      next := next + [if |ms| > 0 then Total(ms) / |ms| as real else cent[j]];
    }
  }

  /** Squared distance to a given codebook's entry for the cluster v is assigned to. */
  function AssignedSq(cent: seq<real>, moved: seq<real>): real -> real
    requires |moved| == |cent| > 0
  {
    v => SqDist(moved[Nearest(cent, v)])(v)
  }

  lemma SquareOfAbs(a: real, b: real)
    requires Abs(a) <= Abs(b)
    ensures a * a <= b * b
  {
    var p, q := Abs(a), Abs(b);
    assert a * a == p * p && b * b == q * q;
    SquareMonotone(p, q);
  }

  lemma {:induction false} SumOfAtMost(x: seq<real>, f: real -> real, g: real -> real)
    requires forall i :: 0 <= i < |x| ==> f(x[i]) <= g(x[i])
    ensures SumOf(x, f) <= SumOf(x, g)
  {
    if |x| == 0 {
    } else {
      SumOfAtMost(x[..|x| - 1], f, g);
    }
  }

  lemma NearestIsLeast(cent: seq<real>, v: real, i: nat)
    requires i < |cent|
    ensures NearestSq(cent)(v) <= SqDist(cent[i])(v)
  {
    NearerIsSmaller(v, cent[Nearest(cent, v)], cent[i]);
  }

  lemma NearerIsSmaller(v: real, a: real, b: real)
    requires Abs(v - a) <= Abs(v - b)
    ensures SqDist(a)(v) <= SqDist(b)(v)
  {
    var x, y := v - a, v - b;
    SquareOfAbs(x, y);
    assert SqDist(a)(v) == x * x && SqDist(b)(v) == y * y;
  }

  /** A Lloyd iteration never increases the total squared error. */
  lemma LloydNeverWorse(x: seq<real>, cent: seq<real>)
    requires |cent| > 0
    ensures CodingError(x, LloydStep(x, cent)) <= CodingError(x, cent)
  {
    ReassigningHelps(x, cent, LloydStep(x, cent));
    MeansAreBest(x, cent, cent);
    OwnAssignment(x, cent);
  }

  lemma ReassigningHelps(x: seq<real>, cent: seq<real>, next: seq<real>)
    requires |next| == |cent| > 0
    ensures CodingError(x, next) <= SumOf(x, AssignedSq(cent, next))
  {
    forall i | 0 <= i < |x| ensures NearestSq(next)(x[i]) <= AssignedSq(cent, next)(x[i]) {
      NearestIsLeast(next, x[i], Nearest(cent, x[i]));
    }
    SumOfAtMost(x, NearestSq(next), AssignedSq(cent, next));
  }

  lemma OwnAssignment(x: seq<real>, cent: seq<real>)
    requires |cent| > 0
    ensures SumOf(x, AssignedSq(cent, cent)) == CodingError(x, cent)
  {
    SumOfAtMost(x, AssignedSq(cent, cent), NearestSq(cent));
    SumOfAtMost(x, NearestSq(cent), AssignedSq(cent, cent));
  }

  /** An iteration lowers the error unless the codebook is a fixed point. */
  lemma ErrorFallsUnlessFixed(x: seq<real>, cent: seq<real>)
    requires |cent| > 0
    ensures CodingError(x, LloydStep(x, cent)) == CodingError(x, cent) <==> LloydStep(x, cent) == cent
  {
    var next := LloydStep(x, cent);
    if next != cent {
      var j :| 0 <= j < |cent| && next[j] != cent[j];
      ReassigningHelps(x, cent, next);
      MovingHelps(x, cent, j);
      OwnAssignment(x, cent);
    }
  }

  /** Moving one centroid to another mean strictly lowers the error of the assignment. */
  lemma MovingHelps(x: seq<real>, cent: seq<real>, j: nat)
    requires j < |cent| && LloydStep(x, cent)[j] != cent[j]
    ensures SumOf(x, AssignedSq(cent, LloydStep(x, cent))) < SumOf(x, AssignedSq(cent, cent))
  {
    var f, g := AssignedSq(cent, LloydStep(x, cent)), AssignedSq(cent, cent);
    SumByCluster(x, cent, f);
    SumByCluster(x, cent, g);
    forall i | 0 <= i < |cent| ensures ClusterSum(x, cent, f)(i) <= ClusterSum(x, cent, g)(i) {
      ClusterImproves(x, cent, cent, i);
    }
    ClusterFalls(x, cent, j);
    SumStrict(|cent|, ClusterSum(x, cent, f), ClusterSum(x, cent, g), j);
  }

  lemma ClusterFalls(x: seq<real>, cent: seq<real>, j: nat)
    requires j < |cent| && LloydStep(x, cent)[j] != cent[j]
    ensures SumOf(Members(x, cent, j), AssignedSq(cent, LloydStep(x, cent)))
          < SumOf(Members(x, cent, j), AssignedSq(cent, cent))
  {
    var ms, next := Members(x, cent, j), LloydStep(x, cent);
    MembersAreNearest(x, cent, j);
    SumOfAtMost(ms, AssignedSq(cent, next), SqDist(next[j]));
    SumOfAtMost(ms, SqDist(cent[j]), AssignedSq(cent, cent));
    MeanIsBest(ms, cent[j]);
  }

  /** A fixed point is kept by every later iteration. */
  lemma {:induction false} FixedStays(x: seq<real>, cent: seq<real>, i: nat, j: nat)
    requires |cent| > 0 && i <= j && Iterated(x, cent, i + 1) == Iterated(x, cent, i)
    ensures Iterated(x, cent, j) == Iterated(x, cent, i)
  {
    if j == i {
    } else {
      FixedStays(x, cent, i, j - 1);
    }
  }

  /** With the assignment kept, no codebook has a smaller error than the means. */
  lemma MeansAreBest(x: seq<real>, cent: seq<real>, other: seq<real>)
    requires |other| == |cent| > 0
    ensures SumOf(x, AssignedSq(cent, LloydStep(x, cent))) <= SumOf(x, AssignedSq(cent, other))
  {
    var k, next := |cent|, LloydStep(x, cent);
    SumByCluster(x, cent, AssignedSq(cent, next));
    SumByCluster(x, cent, AssignedSq(cent, other));
    forall j | 0 <= j < k
      ensures ClusterSum(x, cent, AssignedSq(cent, next))(j) <= ClusterSum(x, cent, AssignedSq(cent, other))(j)
    {
      ClusterImproves(x, cent, other, j);
    }
    SumMonotone(k, ClusterSum(x, cent, AssignedSq(cent, next)), ClusterSum(x, cent, AssignedSq(cent, other)));
  }

  lemma ClusterImproves(x: seq<real>, cent: seq<real>, other: seq<real>, j: nat)
    requires j < |cent| == |other|
    ensures SumOf(Members(x, cent, j), AssignedSq(cent, LloydStep(x, cent)))
         <= SumOf(Members(x, cent, j), AssignedSq(cent, other))
  {
    var ms, next := Members(x, cent, j), LloydStep(x, cent);
    MembersAreNearest(x, cent, j);
    SumOfAtMost(ms, AssignedSq(cent, next), SqDist(next[j]));
    SumOfAtMost(ms, SqDist(other[j]), AssignedSq(cent, other));
    if |ms| > 0 {
      MeanIsBest(ms, other[j]);
    }
  }

  lemma {:induction false} MembersAreNearest(x: seq<real>, cent: seq<real>, j: nat)
    requires |cent| > 0
    ensures forall i :: 0 <= i < |Members(x, cent, j)| ==> Nearest(cent, Members(x, cent, j)[i]) == j
  {
    if |x| == 0 {
    } else {
      MembersAreNearest(x[..|x| - 1], cent, j);
    }
  }

  function ClusterSum(x: seq<real>, cent: seq<real>, f: real -> real): int -> real
    requires |cent| > 0
  {
    j => if j >= 0 then SumOf(Members(x, cent, j), f) else 0.0
  }

  /** A sum over all values is the sum over the clusters. */
  lemma {:induction false} SumByCluster(x: seq<real>, cent: seq<real>, f: real -> real)
    requires |cent| > 0
    ensures SumOf(x, f) == Sum(|cent|, ClusterSum(x, cent, f))
  {
    var k := |cent|;
    if |x| == 0 {
      SumZero(k, ClusterSum(x, cent, f));
    } else {
      var rest, v := x[..|x| - 1], x[|x| - 1];
      var own := j => if j == Nearest(cent, v) then f(v) else 0.0;
      SumByCluster(rest, cent, f);
      forall j | 0 <= j < k ensures ClusterSum(x, cent, f)(j) == ClusterSum(rest, cent, f)(j) + own(j) {
        ClusterGrows(x, cent, j, f);
      }
      SumAdd(k, ClusterSum(rest, cent, f), own, ClusterSum(x, cent, f));
      SumSingle(k, Nearest(cent, v), own);
    }
  }

  lemma ClusterGrows(x: seq<real>, cent: seq<real>, j: nat, f: real -> real)
    requires |cent| > 0 && |x| > 0
    ensures var rest, v := x[..|x| - 1], x[|x| - 1];
            SumOf(Members(x, cent, j), f) == SumOf(Members(rest, cent, j), f)
              + if j == Nearest(cent, v) then f(v) else 0.0
  {
    var ms, v := Members(x[..|x| - 1], cent, j), x[|x| - 1];
    if Nearest(cent, v) == j {
      SumOfConcat(ms, [v], f);
      SumOfOne(v, f);
    } else {
      assert ms + [] == ms;
    }
  }

  // ------------------------------------------------------------------ the codebook search

  /** searchsorted on the left: how many entries are below v. */
  function SearchSorted(cent: seq<real>, v: real): (pos: nat)
    requires Sorted(cent)
    ensures pos <= |cent|
    ensures (forall i :: 0 <= i < pos ==> cent[i] < v) && forall i :: pos <= i < |cent| ==> v <= cent[i]
  {
    if |cent| == 0 || cent[|cent| - 1] < v then |cent| else SearchSorted(cent[..|cent| - 1], v)
  }

  /** The index assigned to v: the nearer of the two entries around it, the left one on a tie. */
  function Assign(cent: seq<real>, v: real): (idx: nat)
    requires |cent| >= 2 && Sorted(cent)
    ensures idx < |cent|
  {
    var found := SearchSorted(cent, v);
    var pos := if found < 1 then 1 else if found > |cent| - 1 then |cent| - 1 else found;
    if Abs(v - cent[pos - 1]) <= Abs(cent[pos] - v) then pos - 1 else pos
  }

  /** w is an entry of the codebook, and none is nearer to v. */
  ghost predicate NoneNearer(cent: seq<real>, v: real, w: real) {
    w in cent && forall j :: 0 <= j < |cent| ==> Abs(v - w) <= Abs(v - cent[j])
  }

  /** And w is the smaller one of two that are equally near. */
  ghost predicate IsNearestEntry(cent: seq<real>, v: real, w: real) {
    NoneNearer(cent, v, w) && forall j :: 0 <= j < |cent| && Abs(v - cent[j]) == Abs(v - w) ==> w <= cent[j]
  }

  /** Two neighbours suffice: no entry of the codebook is nearer than the assigned one. */
  lemma AssignIsNearest(cent: seq<real>, v: real)
    requires |cent| >= 2 && Sorted(cent)
    ensures IsNearestEntry(cent, v, cent[Assign(cent, v)])
  {
    var found := SearchSorted(cent, v);
    var w := cent[Assign(cent, v)];
    forall j | 0 <= j < |cent|
      ensures Abs(v - w) <= Abs(v - cent[j]) && (Abs(v - w) == Abs(v - cent[j]) ==> w <= cent[j])
    {
      if 1 <= found <= |cent| - 1 {
        assert j < found ==> cent[j] <= cent[found - 1] < v;
        assert found <= j ==> v <= cent[found] <= cent[j];
      } else if found == 0 {
        assert v <= cent[0] <= cent[1] && cent[0] <= cent[j];
      } else {
        var n := |cent| - 1;
        assert cent[n - 1] <= cent[n] < v && cent[j] <= cent[n];
      }
    }
  }

  // ------------------------------------------------------------------ a whole channel

  datatype Mode = Quantile | Kmeans

  /** The tokens the codebook is fitted to: all of them, or a strided sample of at most 1024. */
  function Sample(row: seq<real>): (sample: seq<real>)
    ensures |row| > 0 ==> |sample| > 0
  {
    var n := |row|;
    if n <= 1536 then row
    else
      var stride := n / 1024;
      var size := if (n + stride - 1) / stride < 1024 then (n + stride - 1) / stride else 1024;
      seq(size, i requires 0 <= i < size => StrideInRange(n, stride, i); row[i * stride])
  }

  /** A channel of up to 1536 tokens is its own sample; a longer one gives 1024 tokens, evenly spaced from the first. */
  lemma SampleIsStrided(row: seq<real>)
    ensures |row| <= 1536 ==> Sample(row) == row
    ensures |row| > 1536 ==>
      && |Sample(row)| == 1024
      && forall i :: 0 <= i < 1024 ==> i * (|row| / 1024) < |row| && Sample(row)[i] == row[i * (|row| / 1024)]
  {
    var n := |row|;
    if n > 1536 {
      var stride := n / 1024;
      Decompose(n, 1024);
      SampleIsFull(n, stride);
      forall i | 0 <= i < 1024 ensures i * stride < n {
        StrideInRange(n, stride, i);
      }
    }
  }

  lemma SampleIsFull(n: nat, stride: nat)
    requires stride > 0 && 1024 * stride <= n
    ensures (n + stride - 1) / stride >= 1024
  {
    DivideMonotone(1024 * stride, n + stride - 1, stride);
    QuotientRemainder(1024 * stride, 1024, stride, 0);
  }

  /** The positions 0, stride, 2 stride, ... below n. */
  lemma StrideInRange(n: nat, stride: nat, i: nat)
    requires stride > 0 && i < (n + stride - 1) / stride
    ensures 0 <= i * stride < n
  {
    Decompose(n + stride - 1, stride);
    MulMonotone(i + 1, (n + stride - 1) / stride, stride);
    assert (i + 1) * stride == i * stride + stride;
  }

  /** Squared distance to the entry v is assigned to. */
  function AssignSq(cent: seq<real>): real -> real
    requires |cent| >= 2 && Sorted(cent)
  {
    v => SqDist(cent[Assign(cent, v)])(v)
  }

  /** The codebook fitted to a channel, before it is sorted. */
  function Fitted(row: seq<real>, nlev: nat, mode: Mode, iters: nat): (cent: seq<real>)
    requires |row| > 0 && nlev >= 2
    ensures |cent| == nlev
  {
    var quantiles := Quantiles(Sample(row), nlev);
    if mode == Kmeans then Iterated(Sample(row), quantiles, iters) else quantiles
  }

  /**
   * Quantise one channel: fit a codebook of nlev entries to the sample, and replace every value by
   * its assigned entry.
   */
  method QuantChannel(row: seq<real>, nlev: nat, mode: Mode, iters: nat) returns (deq: seq<real>)
    requires |row| > 0 && nlev >= 2
    ensures |deq| == |row|
    ensures forall i :: 0 <= i < |row| ==> IsNearestEntry(Sort(Fitted(row, nlev, mode, iters)), row[i], deq[i])
  {
    var fitted := Quantiles(Sample(row), nlev);
    if mode == Kmeans {
      fitted := Kmeans1d(Sample(row), nlev, iters);
    }
    deq := AssignAll(row, Sort(fitted));
  }

  method AssignAll(row: seq<real>, cent: seq<real>) returns (deq: seq<real>)
    requires |cent| >= 2 && Sorted(cent)
    ensures |deq| == |row| && forall i :: 0 <= i < |row| ==> IsNearestEntry(cent, row[i], deq[i])
  {
    deq := [];
    for i := 0 to |row|
      invariant |deq| == i && forall k :: 0 <= k < i ==> IsNearestEntry(cent, row[k], deq[k])
    {
      AssignIsNearest(cent, row[i]);
      deq := deq + [cent[Assign(cent, row[i])]];
    }
  }

  /** Coding by the sorted codebook has the error of nearest-centroid coding. */
  lemma SortingKeepsError(x: seq<real>, cent: seq<real>)
    requires |cent| >= 2
    ensures SumOf(x, AssignSq(Sort(cent))) == CodingError(x, cent)
  {
    var sorted := Sort(cent);
    forall i | 0 <= i < |x| ensures AssignSq(sorted)(x[i]) == NearestSq(cent)(x[i]) {
      SameNearestDistance(cent, x[i]);
    }
    SumOfAtMost(x, AssignSq(sorted), NearestSq(cent));
    SumOfAtMost(x, NearestSq(cent), AssignSq(sorted));
  }

  lemma SameNearestDistance(cent: seq<real>, v: real)
    requires |cent| >= 2
    ensures AssignSq(Sort(cent))(v) == NearestSq(cent)(v)
  {
    var sorted := Sort(cent);
    var a, b := sorted[Assign(sorted, v)], cent[Nearest(cent, v)];
    AssignIsNearest(sorted, v);
    NoNearer(sorted, cent, v, a, b);
    NoNearer(cent, sorted, v, b, a);
    NearerIsSmaller(v, a, b);
    NearerIsSmaller(v, b, a);
  }

  lemma NoNearer(c1: seq<real>, c2: seq<real>, v: real, a: real, b: real)
    requires SameElements(c1, c2) && NoneNearer(c1, v, a) && b in c2
    ensures Abs(v - a) <= Abs(v - b)
  {
    assert b in multiset(c1);
    var j :| 0 <= j < |c1| && c1[j] == b;
  }

  /**
   * On the tokens it is fitted to, the k-means codebook never codes worse than the quantile
   * codebook; up to 1536 tokens these are the whole channel.
   */
  lemma KmeansBeatsQuantiles(row: seq<real>, nlev: nat, iters: nat)
    requires |row| > 0 && nlev >= 2
    ensures SumOf(Sample(row), AssignSq(Sort(Fitted(row, nlev, Kmeans, iters))))
         <= SumOf(Sample(row), AssignSq(Sort(Fitted(row, nlev, Quantile, iters))))
    ensures |row| <= 1536 ==> Sample(row) == row
  {
    SortingKeepsError(Sample(row), Fitted(row, nlev, Quantile, iters));
    SortingKeepsError(Sample(row), Fitted(row, nlev, Kmeans, iters));
    IterationsNeverWorse(Sample(row), Fitted(row, nlev, Quantile, iters), iters);
  }

  lemma {:induction false} IterationsNeverWorse(x: seq<real>, init: seq<real>, iters: nat)
    requires |init| > 0
    ensures CodingError(x, Iterated(x, init, iters)) <= CodingError(x, init)
  {
    if iters == 0 {
    } else {
      IterationsNeverWorse(x, init, iters - 1);
      LloydNeverWorse(x, Iterated(x, init, iters - 1));
    }
  }
}
