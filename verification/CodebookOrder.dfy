/** When a Lloyd iteration keeps a codebook in order, and why it is sorted afterwards. */
module CodebookOrder {
  import opened Blocks
  import opened ChannelCodebook
  import opened QuantileStart
  import opened RealArithmetic
  import opened SortedSums
  import opened TwoMeans

  ghost predicate StrictlyIncreasing(s: seq<real>) {
    forall i, j :: 0 <= i < j < |s| ==> s[i] < s[j]
  }

  /** Without repeated centroids Lloyd's iteration keeps the codebook strictly increasing. */
  lemma LloydKeepsOrder(x: seq<real>, cent: seq<real>)
    requires |cent| > 0 && StrictlyIncreasing(cent)
    ensures StrictlyIncreasing(LloydStep(x, cent))
  {
    var next := LloydStep(x, cent);
    forall i, j | 0 <= i < j < |cent| ensures next[i] < next[j] {
      var mid := (cent[i] + cent[j]) / 2.0;
      MovedBelow(x, cent, i, j, mid);
      MovedAbove(x, cent, i, j, mid);
    }
  }

  lemma MovedBelow(x: seq<real>, cent: seq<real>, i: nat, j: nat, mid: real)
    requires i < j < |cent| && cent[i] < cent[j] && mid == (cent[i] + cent[j]) / 2.0
    ensures LloydStep(x, cent)[i] <= mid
  {
    var ms := Members(x, cent, i);
    MembersAreNearest(x, cent, i);
    if |ms| > 0 {
      forall k | 0 <= k < |ms| ensures ms[k] <= mid {
        assert Nearest(cent, ms[k]) == i;
      }
      MeanBelow(ms, mid);
    }
  }

  lemma MovedAbove(x: seq<real>, cent: seq<real>, i: nat, j: nat, mid: real)
    requires i < j < |cent| && cent[i] < cent[j] && mid == (cent[i] + cent[j]) / 2.0
    ensures mid < LloydStep(x, cent)[j]
  {
    var ms := Members(x, cent, j);
    MembersAreNearest(x, cent, j);
    if |ms| > 0 {
      forall k | 0 <= k < |ms| ensures mid < ms[k] {
        assert Nearest(cent, ms[k]) == j;
      }
      MeanAbove(ms, mid);
    }
  }

  lemma {:induction false} TotalBelow(ms: seq<real>, b: real)
    requires forall k :: 0 <= k < |ms| ==> ms[k] <= b
    ensures Total(ms) <= b * |ms| as real
  {
    if |ms| == 0 {
    } else {
      TotalBelow(ms[..|ms| - 1], b);
      assert b * |ms| as real == b * (|ms| - 1) as real + b;
    }
  }

  lemma {:induction false} TotalAbove(ms: seq<real>, b: real)
    requires |ms| > 0 && forall k :: 0 <= k < |ms| ==> b < ms[k]
    ensures b * |ms| as real < Total(ms)
  {
    assert b * |ms| as real == b * (|ms| - 1) as real + b;
    if |ms| > 1 {
      TotalAbove(ms[..|ms| - 1], b);
    } else {
      assert Total(ms) == Total(ms[..0]) + ms[0];
    }
  }

  lemma MeanBelow(ms: seq<real>, b: real)
    requires |ms| > 0 && forall k :: 0 <= k < |ms| ==> ms[k] <= b
    ensures Mean(ms) <= b
  {
    TotalBelow(ms, b);
    QuotientAtMost(Total(ms), b, |ms| as real);
  }

  lemma MeanAbove(ms: seq<real>, b: real)
    requires |ms| > 0 && forall k :: 0 <= k < |ms| ==> b < ms[k]
    ensures b < Mean(ms)
  {
    TotalAbove(ms, b);
    QuotientAbove(Total(ms), b, |ms| as real);
  }

  // ------------------------------------------------------------------ repeated centroids

  lemma {:induction false} AdjacentSorted(s: seq<real>, i: nat, j: nat)
    requires forall k :: 0 <= k < |s| - 1 ==> s[k] <= s[k + 1]
    requires i <= j < |s|
    ensures s[i] <= s[j]
    decreases j - i
  {
    if i == j {
    } else {
      AdjacentSorted(s, i, j - 1);
    }
  }

  lemma NeighboursSorted(s: seq<real>)
    requires forall k :: 0 <= k < |s| - 1 ==> s[k] <= s[k + 1]
    ensures Sorted(s)
  {
    forall i, j | 0 <= i < j < |s| ensures s[i] <= s[j] {
      AdjacentSorted(s, i, j);
    }
  }

  /** The second of two equal centroids gets no values. */
  lemma {:induction false} RepeatedHasNoMembers(x: seq<real>, cent: seq<real>, j: nat)
    requires j + 1 < |cent| && cent[j] == cent[j + 1]
    ensures Members(x, cent, j + 1) == []
  {
    if |x| == 0 {
    } else {
      RepeatedHasNoMembers(x[..|x| - 1], cent, j);
    }
  }

  /** Where centroid j equals the next one, the values of j do not pull it upwards. */
  ghost predicate StaysBehind(x: seq<real>, cent: seq<real>, j: nat)
    requires j + 1 < |cent|
  {
    cent[j] == cent[j + 1] && |Members(x, cent, j)| > 0 ==> Mean(Members(x, cent, j)) <= cent[j]
  }

  /** A sorted codebook stays sorted exactly when no centroid is pulled above an equal one after it. */
  lemma OrderKeptExactlyWhen(x: seq<real>, cent: seq<real>)
    requires |cent| > 0 && Sorted(cent)
    ensures Sorted(LloydStep(x, cent)) <==> (forall j :: 0 <= j < |cent| - 1 ==> StaysBehind(x, cent, j))
  {
    var next := LloydStep(x, cent);
    if Sorted(next) {
      forall j | 0 <= j < |cent| - 1 ensures StaysBehind(x, cent, j) {
        NeighboursKept(x, cent, j);
      }
    }
    if forall j :: 0 <= j < |cent| - 1 ==> StaysBehind(x, cent, j) {
      forall j | 0 <= j < |next| - 1 ensures next[j] <= next[j + 1] {
        NeighboursKept(x, cent, j);
      }
      NeighboursSorted(next);
    }
  }

  lemma NeighboursKept(x: seq<real>, cent: seq<real>, j: nat)
    requires j + 1 < |cent| && Sorted(cent)
    ensures LloydStep(x, cent)[j] <= LloydStep(x, cent)[j + 1] <==> StaysBehind(x, cent, j)
  {
    if cent[j] == cent[j + 1] {
      RepeatedHasNoMembers(x, cent, j);
    } else {
      var mid := (cent[j] + cent[j + 1]) / 2.0;
      MovedBelow(x, cent, j, j + 1, mid);
      MovedAbove(x, cent, j, j + 1, mid);
    }
  }

  /** Three values at 0, one at 1 and three at 10, with their four quantiles. */
  function Skewed(): seq<real> { [0.0, 0.0, 0.0, 1.0, 10.0, 10.0, 10.0] }

  function SkewedStart(): seq<real> { [0.0, 0.0, 10.0, 10.0] }

  /** The first iteration from the quantiles of the values is out of order: the sort that follows is needed. */
  lemma QuantileStartBreaksOrder()
    ensures Quantiles(Skewed(), 4) == SkewedStart() && !Sorted(LloydStep(Skewed(), SkewedStart()))
  {
    SkewedQuantiles();
    SkewedIsPulledUp(Skewed(), SkewedStart());
  }

  lemma SkewedIsPulledUp(x: seq<real>, c: seq<real>)
    requires x == Skewed() && c == SkewedStart()
    ensures !Sorted(LloydStep(x, c))
  {
    NeighboursSorted(c);
    SkewedMembers(x, c);
    PulledUp(x, c);
  }

  lemma PulledUp(x: seq<real>, cent: seq<real>)
    requires |cent| > 1 && Sorted(cent) && cent[0] == cent[1] == 0.0 && Members(x, cent, 0) == [0.0, 0.0, 0.0, 1.0]
    ensures !Sorted(LloydStep(x, cent))
  {
    TotalOfFour(0.0, 0.0, 0.0, 1.0);
    assert Mean(Members(x, cent, 0)) == 0.25;
    assert !StaysBehind(x, cent, 0);
    OrderKeptExactlyWhen(x, cent);
  }

  lemma TotalOfFour(a: real, b: real, c: real, d: real)
    ensures Total([a, b, c, d]) == a + b + c + d
  {
    SumOfOne(a, Identity());
    OneMoreTotal([a], b);
    OneMoreTotal([a, b], c);
    OneMoreTotal([a, b, c], d);
    assert [a] + [b] == [a, b] && [a, b] + [c] == [a, b, c] && [a, b, c] + [d] == [a, b, c, d];
  }

  lemma OneMoreTotal(s: seq<real>, v: real)
    ensures Total(s + [v]) == Total(s) + v
  {
    assert (s + [v])[..|s|] == s;
  }

  lemma {:induction false} SortedIsSort(x: seq<real>)
    requires Sorted(x)
    ensures Sort(x) == x
  {
    if |x| == 0 {
    } else {
      LastApart(x);
      SortedIsSort(x[..|x| - 1]);
      LargestInserted(x[..|x| - 1], x[|x| - 1]);
    }
  }

  lemma LargestInserted(s: seq<real>, v: real)
    requires Sorted(s) && (|s| > 0 ==> s[|s| - 1] <= v)
    ensures Insert(s, v) == s + [v]
  {}

  lemma SkewedQuantiles()
    ensures Quantiles(Skewed(), 4) == SkewedStart()
  {
    var x := Skewed();
    NeighboursSorted(x);
    QuantilesOfSeven(x, 0.0, 0.0, 10.0, 10.0);
  }

  lemma QuantilesOfSeven(x: seq<real>, a: real, b: real, c: real, d: real)
    requires |x| == 7 && Sorted(x) && x[0] == a && x[2] == b && x[4] == c && x[6] == d
    ensures Quantiles(x, 4) == [a, b, c, d]
  {
    SortedIsSort(x);
    QuantileInterpolates(x, 0, 4, 0, 0);
    QuantileInterpolates(x, 1, 4, 2, 0);
    QuantileInterpolates(x, 2, 4, 4, 0);
    QuantileInterpolates(x, 3, 4, 6, 0);
  }

  lemma MembersNext(x: seq<real>, v: real, cent: seq<real>, j: nat)
    requires j < |cent|
    ensures Members(x + [v], cent, j) == Members(x, cent, j) + if Nearest(cent, v) == j then [v] else []
  {
    assert (x + [v])[..|x|] == x;
  }

  lemma SkewedNearest(c: seq<real>)
    requires c == SkewedStart()
    ensures Nearest(c, 0.0) == 0 && Nearest(c, 1.0) == 0 && Nearest(c, 10.0) == 2
  {
    NearestIs(c, 0.0, 0);
    NearestIs(c, 1.0, 0);
    NearestIs(c, 10.0, 2);
  }

  /** The first of the nearest centroids. */
  lemma NearestIs(cent: seq<real>, v: real, j: nat)
    requires j < |cent| && forall i :: 0 <= i < |cent| ==> Abs(v - cent[j]) <= Abs(v - cent[i])
    requires forall i :: 0 <= i < j ==> Abs(v - cent[j]) < Abs(v - cent[i])
    ensures Nearest(cent, v) == j
  {
    var k := Nearest(cent, v);
    assert Abs(v - cent[k]) == Abs(v - cent[j]);
  }

  /** The first centroid gets the zeros and the one. */
  lemma SkewedMembers(x: seq<real>, c: seq<real>)
    requires x == Skewed() && c == SkewedStart()
    ensures Members(x, c, 0) == [0.0, 0.0, 0.0, 1.0]
  {
    SkewedNearest(c);
    SmallOnly([0.0, 0.0, 0.0, 1.0], [10.0, 10.0, 10.0], c);
    assert x == [0.0, 0.0, 0.0, 1.0] + [10.0, 10.0, 10.0];
  }

  lemma SmallOnly(low: seq<real>, high: seq<real>, c: seq<real>)
    requires |c| > 0 && Nearest(c, 0.0) == Nearest(c, 1.0) == 0 && Nearest(c, 10.0) != 0
    requires forall i :: 0 <= i < |low| ==> low[i] == 0.0 || low[i] == 1.0
    requires forall i :: 0 <= i < |high| ==> high[i] == 10.0
    ensures Members(low + high, c, 0) == low
  {
    NoneAdded(low, high, c, 0);
    AllMembers(low, c, 0);
  }

  lemma {:induction false} NoneAdded(x: seq<real>, y: seq<real>, cent: seq<real>, j: nat)
    requires j < |cent| && forall i :: 0 <= i < |y| ==> Nearest(cent, y[i]) != j
    ensures Members(x + y, cent, j) == Members(x, cent, j)
  {
    if |y| == 0 {
      assert x + y == x;
    } else {
      var init, v := y[..|y| - 1], y[|y| - 1];
      LastApart(y);
      Associative(x, init, [v]);
      NoneAdded(x, init, cent, j);
      MembersNext(x + init, v, cent, j);
    }
  }

  lemma {:induction false} AllMembers(x: seq<real>, cent: seq<real>, j: nat)
    requires j < |cent| && forall i :: 0 <= i < |x| ==> Nearest(cent, x[i]) == j
    ensures Members(x, cent, j) == x
  {
    if |x| == 0 {
    } else {
      AllMembers(x[..|x| - 1], cent, j);
    }
  }
}
