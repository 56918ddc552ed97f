/** Quantising the settled tokens of a key or value cache: what is kept exact and what may move. */
module SettledBlocks {
  import opened GroupQuantizer
  import opened RealArithmetic
  import opened SortedSums

  /** One token: a coordinate per channel. */
  type Token = seq<real>

  function Magnitudes(x: seq<real>): (m: seq<real>)
    ensures |m| == |x| && forall i :: 0 <= i < |x| ==> m[i] == Abs(x[i])
  {
    seq(|x|, i requires 0 <= i < |x| => Abs(x[i]))
  }

  datatype Config = Config(hot: nat, group: nat, keyLevels: nat, valueLevels: nat,
                           sink: nat, outlierShare: real, preRope: bool)

  ghost predicate ValidConfig(c: Config) {
    c.group > 0 && c.keyLevels > 0 && c.valueLevels > 0 && 0.0 <= c.outlierShare <= 1.0
  }

  // ------------------------------------------------------------------ outliers

  /** How many outliers of n tokens to keep: the rounded share, but one at least. */
  function OutlierCount(n: nat, share: real): (k: nat)
    requires n > 0 && 0.0 <= share <= 1.0
    ensures 1 <= k <= n
  {
    ShareOf(n, share);
    var k := RoundHalfEven(n as real * share);
    if k < 1 then 1 else k
  }

  /** k is the share of n tokens rounded to the nearest number, halves to the even one, but at least one. */
  ghost predicate IsOutlierCount(k: nat, n: nat, share: real) {
    var v := n as real * share;
    if v <= 0.5 then k == 1 else Abs(k as real - v) <= 0.5 && (Abs(k as real - v) == 0.5 ==> k % 2 == 0)
  }

  lemma OutlierCountIsRounded(n: nat, share: real, k: nat)
    requires n > 0 && 0.0 <= share <= 1.0
    ensures IsOutlierCount(k, n, share) <==> k == OutlierCount(n, share)
  {
    ShareOf(n, share);
    RoundsToOne(n as real * share, RoundHalfEven(n as real * share), k);
  }

  /** Rounding has one result. */
  lemma RoundsToOne(v: real, r: int, k: int)
    requires Abs(r as real - v) <= 0.5 && (Abs(r as real - v) == 0.5 ==> r % 2 == 0)
    ensures Abs(k as real - v) <= 0.5 && (Abs(k as real - v) == 0.5 ==> k % 2 == 0) <==> k == r
    ensures 0.0 <= v <= 0.5 ==> r == 0
    ensures v > 0.5 ==> r >= 1
  {}

  lemma ShareOf(n: nat, share: real)
    requires 0.0 <= share <= 1.0
    ensures 0.0 <= n as real * share <= n as real
    ensures RoundHalfEven(n as real * share) <= n
  {
    assert n as real * (1.0 - share) >= 0.0;
  }

  /** The k-th largest magnitude. */
  function Threshold(x: seq<real>, k: nat): real
    requires 1 <= k <= |x|
  {
    Sort(Magnitudes(x))[|x| - k]
  }

  function AtLeast(thr: real): real -> real { v => if v >= thr then 1.0 else 0.0 }

  lemma TailCounts(s: seq<real>, k: nat)
    requires Sorted(s) && 1 <= k <= |s|
    ensures SumOf(s, AtLeast(s[|s| - k])) >= k as real
  {
    var n := |s| - k;
    ReachedBySecond(s[..n], s[n..], s[n]);
    assert s == s[..n] + s[n..];
  }

  lemma ReachedBySecond(front: seq<real>, back: seq<real>, thr: real)
    requires forall i :: 0 <= i < |back| ==> back[i] >= thr
    ensures SumOf(front + back, AtLeast(thr)) >= |back| as real
  {
    SumOfConcat(front, back, AtLeast(thr));
    SumOfNonNegative(front, AtLeast(thr));
    AllAtLeast(back, thr);
  }

  lemma {:induction false} AllAtLeast(s: seq<real>, thr: real)
    requires forall i :: 0 <= i < |s| ==> s[i] >= thr
    ensures SumOf(s, AtLeast(thr)) == |s| as real
  {
    if |s| == 0 {
    } else {
      AllAtLeast(s[..|s| - 1], thr);
    }
  }

  function Above(thr: real): real -> real { v => if v > thr then 1.0 else 0.0 }

  lemma HeadCounts(s: seq<real>, k: nat)
    requires Sorted(s) && 1 <= k <= |s|
    ensures SumOf(s, Above(s[|s| - k])) <= (k - 1) as real
  {
    var n := |s| - k + 1;
    NotExceededByFirst(s[..n], s[n..], s[n - 1]);
    assert s == s[..n] + s[n..];
  }

  lemma NotExceededByFirst(front: seq<real>, back: seq<real>, thr: real)
    requires forall i :: 0 <= i < |front| ==> front[i] <= thr
    ensures SumOf(front + back, Above(thr)) <= |back| as real
  {
    SumOfConcat(front, back, Above(thr));
    NoneAbove(front, thr);
    AboveAtMost(back, thr);
  }

  lemma {:induction false} NoneAbove(s: seq<real>, thr: real)
    requires forall i :: 0 <= i < |s| ==> s[i] <= thr
    ensures SumOf(s, Above(thr)) == 0.0
  {
    if |s| == 0 {
    } else {
      NoneAbove(s[..|s| - 1], thr);
    }
  }

  lemma {:induction false} AboveAtMost(s: seq<real>, thr: real)
    ensures SumOf(s, Above(thr)) <= |s| as real
  {
    if |s| == 0 {
    } else {
      AboveAtMost(s[..|s| - 1], thr);
    }
  }

  /** The threshold is the k-th largest magnitude: k tokens reach it, fewer than k exceed it. */
  lemma ThresholdIsKthLargest(x: seq<real>, k: nat)
    requires 1 <= k <= |x|
    ensures SumOf(Magnitudes(x), AtLeast(Threshold(x, k))) >= k as real
    ensures SumOf(Magnitudes(x), Above(Threshold(x, k))) <= (k - 1) as real
  {
    var sorted, thr := Sort(Magnitudes(x)), Threshold(x, k);
    TailCounts(sorted, k);
    HeadCounts(sorted, k);
    SumOfSame(sorted, Magnitudes(x), AtLeast(thr));
    SumOfSame(sorted, Magnitudes(x), Above(thr));
  }

  /** The tokens whose magnitude exceeds thr. */
  ghost function LargerThan(x: seq<real>, thr: real): set<int> {
    set j | 0 <= j < |x| && Abs(x[j]) > thr
  }

  lemma {:induction false} CountLarger(x: seq<real>, thr: real)
    ensures SumOf(Magnitudes(x), Above(thr)) == |LargerThan(x, thr)| as real
  {
    if |x| == 0 {
    } else {
      var n := |x| - 1;
      CountLarger(x[..n], thr);
      LargerOfMore(x, thr);
      assert Magnitudes(x)[..n] == Magnitudes(x[..n]);
    }
  }

  lemma LargerOfMore(x: seq<real>, thr: real)
    requires |x| > 0
    ensures var n := |x| - 1;
            |LargerThan(x, thr)| == |LargerThan(x[..n], thr)| + if Abs(x[n]) > thr then 1 else 0
  {
    var n := |x| - 1;
    forall j ensures j in LargerThan(x, thr) <==> j in LargerThan(x[..n], thr) || (j == n && Abs(x[n]) > thr) {}
    if Abs(x[n]) > thr {
      assert LargerThan(x, thr) == LargerThan(x[..n], thr) + {n};
    } else {
      assert LargerThan(x, thr) == LargerThan(x[..n], thr);
    }
  }

  /** A magnitude reaches the k-th largest one exactly when fewer than k exceed it. */
  lemma ReachesThreshold(x: seq<real>, k: nat, v: real)
    requires 1 <= k <= |x|
    ensures v >= Threshold(x, k) <==> |LargerThan(x, v)| < k
  {
    var m, thr := Magnitudes(x), Threshold(x, k);
    ThresholdIsKthLargest(x, k);
    CountLarger(x, v);
    if v >= thr {
      FewerExceed(m, Above(v), Above(thr));
    } else {
      FewerExceed(m, AtLeast(thr), Above(v));
    }
  }

  lemma {:induction false} FewerExceed(s: seq<real>, f: real -> real, g: real -> real)
    requires forall v :: f(v) <= g(v)
    ensures SumOf(s, f) <= SumOf(s, g)
  {
    if |s| == 0 {
    } else {
      FewerExceed(s[..|s| - 1], f, g);
    }
  }

  // ------------------------------------------------------------------ one key channel

  predicate Kept(x: seq<real>, c: Config, i: nat)
    requires i < |x| && 0.0 <= c.outlierShare <= 1.0
  {
    i < c.sink || (c.outlierShare > 0.0 && Abs(x[i]) >= Threshold(x, OutlierCount(|x|, c.outlierShare)))
  }

  /** Sinks and outliers as they are, everything else by its level. */
  function KeyChannel(x: seq<real>, c: Config): (y: seq<real>)
    requires c.group > 0 && c.keyLevels > 0 && 0.0 <= c.outlierShare <= 1.0
    ensures |y| == |x|
  {
    var hq := UniformBlock(x, c.group, c.keyLevels);
    seq(|x|, i requires 0 <= i < |x| => if Kept(x, c, i) then x[i] else hq[i])
  }

  /** Fewer tokens exceed token i in magnitude than the share, rounded, lets through. */
  ghost predicate IsOutlier(x: seq<real>, share: real, i: nat)
    requires i < |x|
  {
    exists k: nat :: IsOutlierCount(k, |x|, share) && |LargerThan(x, Abs(x[i]))| < k
  }

  /** y stands for coordinate i of a key channel: exact for sinks and outliers, coded in its group otherwise. */
  ghost predicate IsKeyCoded(y: real, x: seq<real>, c: Config, i: nat)
    requires ValidConfig(c) && i < |x|
  {
    if i < c.sink || (c.outlierShare > 0.0 && IsOutlier(x, c.outlierShare, i)) then y == x[i]
    else IsCoded(y, x[i], GroupOf(x, c.group, i), c.keyLevels)
  }

  /** What is kept: the sink tokens and, for a positive share, the outliers. */
  lemma KeptExactlyWhen(x: seq<real>, c: Config, i: nat)
    requires ValidConfig(c) && i < |x|
    ensures Kept(x, c, i) <==> i < c.sink || (c.outlierShare > 0.0 && IsOutlier(x, c.outlierShare, i))
  {
    var k := OutlierCount(|x|, c.outlierShare);
    ReachesThreshold(x, k, Abs(x[i]));
    OutlierCountIsRounded(|x|, c.outlierShare, k);
    forall other: nat | IsOutlierCount(other, |x|, c.outlierShare) ensures other == k {
      OutlierCountIsRounded(|x|, c.outlierShare, other);
    }
  }

  lemma KeyChannelIsCoded(x: seq<real>, c: Config, i: nat)
    requires ValidConfig(c) && i < |x|
    ensures IsKeyCoded(KeyChannel(x, c)[i], x, c, i)
  {
    KeptExactlyWhen(x, c, i);
    BlockIsNearest(x, c.group, c.keyLevels, i);
  }

  // ------------------------------------------------------------------ blocks of tokens

  ghost predicate IsBlock(x: seq<Token>, dim: nat) {
    forall i :: 0 <= i < |x| ==> |x[i]| == dim
  }

  function Channel(x: seq<Token>, dim: nat, d: nat): (ch: seq<real>)
    requires d < dim && forall i :: 0 <= i < |x| ==> |x[i]| == dim
    ensures |ch| == |x| && forall i :: 0 <= i < |x| ==> ch[i] == x[i][d]
  {
    seq(|x|, i requires 0 <= i < |x| => x[i][d])
  }

  /** Keys are quantised channel by channel, across tokens. */
  function KeyBlock(x: seq<Token>, dim: nat, c: Config): (y: seq<Token>)
    requires ValidConfig(c) && IsBlock(x, dim)
    ensures |y| == |x| && IsBlock(y, dim)
    ensures forall i, d :: 0 <= i < |x| && 0 <= d < dim ==> y[i][d] == KeyChannel(Channel(x, dim, d), c)[i]
  {
    seq(|x|, i requires 0 <= i < |x| => seq(dim, d requires 0 <= d < dim => KeyChannel(Channel(x, dim, d), c)[i]))
  }

  /** Values are quantised token by token, across channels. */
  function ValueBlock(x: seq<Token>, dim: nat, c: Config): (y: seq<Token>)
    requires ValidConfig(c) && IsBlock(x, dim)
    ensures |y| == |x| && IsBlock(y, dim)
    ensures forall i :: 0 <= i < |x| ==> y[i] == QuantGroup(x[i], c.valueLevels)
  {
    seq(|x|, i requires 0 <= i < |x| => QuantGroup(x[i], c.valueLevels))
  }

  /** A value coordinate is coded in its own token. */
  lemma ValueBlockIsNearest(x: seq<Token>, dim: nat, c: Config, i: nat, d: nat)
    requires ValidConfig(c) && IsBlock(x, dim) && i < |x| && d < dim
    ensures IsCoded(ValueBlock(x, dim, c)[i][d], x[i][d], x[i], c.valueLevels)
  {
    GroupIsNearest(x[i], c.valueLevels, d);
  }

  /** Quantising settled values again would change nothing. */
  lemma ValueBlockIdempotent(x: seq<Token>, dim: nat, c: Config)
    requires ValidConfig(c) && IsBlock(x, dim)
    ensures ValueBlock(ValueBlock(x, dim, c), dim, c) == ValueBlock(x, dim, c)
  {
    forall i | 0 <= i < |x| ensures ValueBlock(ValueBlock(x, dim, c), dim, c)[i] == ValueBlock(x, dim, c)[i] {
      GroupIdempotent(x[i], c.valueLevels);
    }
  }
}
