/**
 * Uniform quantisation of one channel in groups of g tokens: the last group is padded by repeating
 * its last token, every group is coded between its own minimum and maximum.
 */
module GroupQuantizer {
  import opened Division
  import opened Extremes
  import opened RealArithmetic

  const NARROWEST: real := 0.00000001

  /** The nearest integer, halves to the even one. */
  function RoundHalfEven(v: real): (r: int)
    ensures -0.5 <= r as real - v <= 0.5
    ensures Abs(r as real - v) == 0.5 ==> r % 2 == 0
    ensures v == v.Floor as real ==> r == v.Floor
  {
    var f := v.Floor;
    var d := v - f as real;
    if d < 0.5 then f else if d > 0.5 then f + 1 else if f % 2 == 0 then f else f + 1
  }

  /** The range of a group, but at least NARROWEST. */
  function Width(xs: seq<real>): (w: real)
    requires |xs| > 0
    ensures w >= NARROWEST && forall i :: 0 <= i < |xs| ==> xs[i] - MinOf(xs) <= w
  {
    var range := MaxOf(xs) - MinOf(xs);
    if range < NARROWEST then NARROWEST else range
  }

  /** The distance between neighbouring levels. */
  function Step(xs: seq<real>, qm: nat): (sc: real)
    requires |xs| > 0 && qm > 0
    ensures sc > 0.0
  {
    QuotientOf(Width(xs), qm as real);
    Width(xs) / qm as real
  }

  function Code(x: real, mn: real, sc: real, qm: nat): int
    requires sc > 0.0
  {
    Clip(RoundHalfEven((x - mn) / sc), 0, qm)
  }

  function Level(code: int, mn: real, sc: real): real { code as real * sc + mn }

  /**
   * The levels of a group: evenly spaced from its minimum to its maximum, or over NARROWEST if
   * these are closer than that.
   */
  lemma LevelsSpanGroup(xs: seq<real>, qm: nat, c: nat)
    requires |xs| > 0 && qm > 0
    ensures var mn, sc := MinOf(xs), Step(xs, qm);
            && Level(0, mn, sc) == mn && Level(c + 1, mn, sc) - Level(c, mn, sc) == sc
            && Level(qm, mn, sc) == if MaxOf(xs) - mn < NARROWEST then mn + NARROWEST else MaxOf(xs)
  {
    var sc := Step(xs, qm);
    StepSpans(xs, qm, sc);
    assert (c + 1) as real * sc == c as real * sc + sc;
  }

  lemma StepSpans(xs: seq<real>, qm: nat, sc: real)
    requires |xs| > 0 && qm > 0 && sc == Step(xs, qm)
    ensures Reach(qm, sc) == Width(xs)
  {
    QuotientOf(Width(xs), qm as real);
  }

  /** How far above the lowest level the highest one lies. */
  function Reach(qm: nat, sc: real): real { qm as real * sc }

  lemma QuotientOf(x: real, n: real)
    requires x > 0.0 && n > 0.0
    ensures x / n > 0.0 && n * (x / n) == x
  {}

  /** A group after quantising and reconstructing it. */
  function QuantGroup(xs: seq<real>, qm: nat): (ys: seq<real>)
    requires qm > 0
    ensures |ys| == |xs|
  {
    if |xs| == 0 then [] else
      Levels(xs, MinOf(xs), Step(xs, qm), qm)
  }

  /** Every value replaced by the level it is coded as. */
  function Levels(xs: seq<real>, mn: real, sc: real, qm: nat): (ys: seq<real>)
    requires sc > 0.0
    ensures |ys| == |xs| && forall i :: 0 <= i < |xs| ==> ys[i] == Level(Code(xs[i], mn, sc, qm), mn, sc)
  {
    seq(|xs|, i requires 0 <= i < |xs| => Level(Code(xs[i], mn, sc, qm), mn, sc))
  }

  // ------------------------------------------------------------------ one value

  /** Within the range clamping does nothing, and the reconstruction is off by at most half a step. */
  lemma LevelError(x: real, mn: real, sc: real, qm: nat, c: int)
    requires sc > 0.0 && mn <= x && x - mn <= Reach(qm, sc) && c == Code(x, mn, sc, qm)
    ensures 0 <= c <= qm && c == RoundHalfEven((x - mn) / sc)
    ensures Near(Level(c, mn, sc), x, sc / 2.0) && (Abs(Level(c, mn, sc) - x) == sc / 2.0 ==> c % 2 == 0)
  {
    var v := (x - mn) / sc;
    QuotientAtLeast(x - mn, sc);
    QuotientAtMost(x - mn, qm as real, sc);
    RoundsInside(v, qm);
    QuotientTimes(x - mn, sc, v);
    HalfStep(c as real, v, sc, x - mn);
    HalfOff(c as real, v, sc, Level(c, mn, sc) - x);
  }

  lemma HalfOff(r: real, v: real, sc: real, gap: real)
    requires sc > 0.0 && gap == r * sc - v * sc
    ensures Abs(gap) == sc / 2.0 ==> Abs(r - v) == 0.5
  {
    MinusTimes(r, v, sc);
    if gap >= 0.0 {
      HalfFactor(r - v, sc, gap);
    } else {
      MinusTimes(v, r, sc);
      HalfFactor(v - r, sc, -gap);
    }
  }

  lemma HalfFactor(e: real, sc: real, gap: real)
    requires sc > 0.0 && gap == e * sc
    ensures gap == sc / 2.0 ==> e == 0.5
  {
    var h := e - 0.5;
    assert h * sc == gap - sc / 2.0;
    ZeroProduct(h, sc);
  }

  lemma RoundsInside(v: real, qm: nat)
    requires 0.0 <= v <= qm as real
    ensures 0 <= RoundHalfEven(v) <= qm
  {}

  lemma HalfStep(r: real, v: real, sc: real, w: real)
    requires sc > 0.0 && v * sc == w && -0.5 <= r - v <= 0.5
    ensures -sc / 2.0 <= r * sc - w <= sc / 2.0
  {
    var d := r * sc - w;
    assert d == (r - v) * sc by { MinusTimes(r, v, sc); }
    ScaledHalf(r - v, sc, d);
  }

  lemma QuotientTimes(w: real, sc: real, v: real)
    requires sc > 0.0 && v == w / sc
    ensures v * sc == w
  {}

  lemma ScaledHalf(e: real, sc: real, d: real)
    requires sc > 0.0 && -0.5 <= e <= 0.5 && d == e * sc
    ensures -sc / 2.0 <= d <= sc / 2.0
  {
    BelowHalf(e, sc);
    BelowHalf(-e, sc);
    assert -e * sc == -(e * sc);
  }

  lemma BelowHalf(e: real, sc: real)
    requires sc > 0.0 && e <= 0.5
    ensures e * sc <= sc / 2.0
  {
    NonNegativeProduct(0.5 - e, sc);
    MinusTimes(0.5, e, sc);
    assert 0.5 * sc == sc / 2.0;
  }

  /** A level is coded as itself. */
  lemma LevelIsFixed(c: int, mn: real, sc: real, qm: nat)
    requires sc > 0.0 && 0 <= c <= qm
    ensures Code(Level(c, mn, sc), mn, sc, qm) == c
  {
    QuotientBack(c as real, sc, Level(c, mn, sc) - mn);
    assert (c as real).Floor == c;
  }

  lemma QuotientBack(c: real, sc: real, w: real)
    requires sc > 0.0 && w == c * sc
    ensures w / sc == c
  {}

  // ------------------------------------------------------------------ one group

  predicate Near(y: real, x: real, half: real) { -half <= y - x <= half }

  /** No level is nearer to x than level c; where another one is as near, c is even. */
  ghost predicate IsPreferred(c: nat, x: real, mn: real, sc: real, qm: nat) {
    forall d: nat :: d <= qm ==> IsBetter(c, d, Abs(Level(c, mn, sc) - x), Abs(Level(d, mn, sc) - x))
  }

  /** Level c at distance a goes before level d at distance b. */
  ghost predicate IsBetter(c: int, d: int, a: real, b: real) {
    a <= b && (a == b && d != c ==> c % 2 == 0)
  }

  /** y is the level mn + c * sc nearest to x, c from 0 to qm; the even one of two equally near. */
  ghost predicate IsNearestLevel(y: real, x: real, mn: real, sc: real, qm: nat) {
    exists c: nat :: c <= qm && y == Level(c, mn, sc) && IsPreferred(c, x, mn, sc, qm)
  }

  /** y codes x in a group: the nearest of its levels, which run from its minimum and lie half a step off at most. */
  ghost predicate IsCoded(y: real, x: real, xs: seq<real>, qm: nat)
    requires |xs| > 0 && qm > 0
  {
    IsNearestLevel(y, x, MinOf(xs), Step(xs, qm), qm) && Near(y, x, Step(xs, qm) / 2.0)
  }

  /** Every value of a group is coded by the nearest of the group's levels, to within half a step. */
  lemma GroupIsNearest(xs: seq<real>, qm: nat, i: nat)
    requires qm > 0 && i < |xs|
    ensures IsCoded(QuantGroup(xs, qm)[i], xs[i], xs, qm)
  {
    var mn, sc := MinOf(xs), Step(xs, qm);
    StepSpans(xs, qm, sc);
    LevelError(xs[i], mn, sc, qm, Code(xs[i], mn, sc, qm));
    LevelIsNearest(xs[i], mn, sc, qm, Code(xs[i], mn, sc, qm));
  }

  lemma LevelIsNearest(x: real, mn: real, sc: real, qm: nat, c: int)
    requires sc > 0.0 && 0 <= c <= qm && Near(Level(c, mn, sc), x, sc / 2.0)
    requires Abs(Level(c, mn, sc) - x) == sc / 2.0 ==> c % 2 == 0
    ensures IsNearestLevel(Level(c, mn, sc), x, mn, sc, qm)
  {
    forall d: nat | d <= qm ensures IsBetter(c, d, Abs(Level(c, mn, sc) - x), Abs(Level(d, mn, sc) - x)) {
      OtherLevel(x, mn, sc, c, d);
    }
  }

  /** Other levels are at least a step away. */
  lemma OtherLevel(x: real, mn: real, sc: real, c: int, d: int)
    requires sc > 0.0 && Near(Level(c, mn, sc), x, sc / 2.0)
    requires Abs(Level(c, mn, sc) - x) == sc / 2.0 ==> c % 2 == 0
    ensures IsBetter(c, d, Abs(Level(c, mn, sc) - x), Abs(Level(d, mn, sc) - x))
  {
    if d > c {
      StepsApart(c, d, mn, sc);
      Farther(Level(c, mn, sc) - x, Level(d, mn, sc) - x, sc);
    } else if d < c {
      StepsApart(d, c, mn, sc);
      Farther(Level(c, mn, sc) - x, Level(d, mn, sc) - x, sc);
    }
  }

  lemma Farther(a: real, b: real, sc: real)
    requires -sc / 2.0 <= a <= sc / 2.0 && (b >= a + sc || b <= a - sc)
    ensures Abs(a) <= Abs(b) && (Abs(a) == Abs(b) ==> Abs(a) == sc / 2.0)
  {}

  lemma StepsApart(c: int, d: int, mn: real, sc: real)
    requires sc > 0.0 && c < d
    ensures Level(d, mn, sc) >= Level(c, mn, sc) + sc
  {
    NonNegativeProduct((d - c - 1) as real, sc);
    assert (d - c - 1) as real * sc == d as real * sc - c as real * sc - sc;
  }

  lemma MinimumStays(xs: seq<real>, qm: nat)
    requires qm > 0 && |xs| > 0
    ensures MinOf(QuantGroup(xs, qm)) == MinOf(xs)
    ensures forall i :: 0 <= i < |xs| ==> MinOf(xs) <= QuantGroup(xs, qm)[i] <= MinOf(xs) + Width(xs)
  {
    var ys, mn := QuantGroup(xs, qm), MinOf(xs);
    forall k | 0 <= k < |xs| ensures mn <= ys[k] <= mn + Width(xs) {
      LevelInRange(xs, qm, k);
    }
    var i :| 0 <= i < |xs| && xs[i] == mn;
    LowestLevel(xs, qm, i);
  }

  lemma LevelInRange(xs: seq<real>, qm: nat, k: nat)
    requires qm > 0 && k < |xs|
    ensures MinOf(xs) <= QuantGroup(xs, qm)[k] <= MinOf(xs) + Width(xs)
  {
    var mn, sc := MinOf(xs), Step(xs, qm);
    StepSpans(xs, qm, sc);
    LevelBetween(Code(xs[k], mn, sc, qm), mn, sc, qm);
  }

  lemma LowestLevel(xs: seq<real>, qm: nat, i: nat)
    requires qm > 0 && i < |xs| && xs[i] == MinOf(xs)
    ensures QuantGroup(xs, qm)[i] == MinOf(xs)
  {
    var mn, sc := MinOf(xs), Step(xs, qm);
    assert Level(0, mn, sc) == mn;
    LevelIsFixed(0, mn, sc, qm);
  }

  lemma MaximumStays(xs: seq<real>, qm: nat)
    requires qm > 0 && |xs| > 0
    ensures MaxOf(xs) - MinOf(xs) >= NARROWEST ==> MaxOf(xs) in QuantGroup(xs, qm)
  {
    if MaxOf(xs) - MinOf(xs) >= NARROWEST {
      var mn, mx, sc := MinOf(xs), MaxOf(xs), Step(xs, qm);
      StepSpans(xs, qm, sc);
      var j :| 0 <= j < |xs| && xs[j] == mx;
      LevelIsFixed(qm, mn, sc, qm);
      assert mx == Level(qm, mn, sc);
      assert QuantGroup(xs, qm)[j] == mx;
    }
  }

  /** A quantised group spans the same levels as before. */
  lemma SameLevels(xs: seq<real>, qm: nat)
    requires qm > 0 && |xs| > 0
    ensures MinOf(QuantGroup(xs, qm)) == MinOf(xs)
    ensures Width(QuantGroup(xs, qm)) == Width(xs)
  {
    MinimumStays(xs, qm);
    MaximumStays(xs, qm);
  }

  lemma LevelBetween(c: int, mn: real, sc: real, qm: nat)
    requires sc > 0.0 && 0 <= c <= qm
    ensures mn <= Level(c, mn, sc) <= mn + Reach(qm, sc)
  {
    NonNegativeProduct(c as real, sc);
    NonNegativeProduct((qm - c) as real, sc);
    assert (qm - c) as real * sc == qm as real * sc - c as real * sc;
  }

  /** Quantising twice is quantising once. */
  lemma GroupIdempotent(xs: seq<real>, qm: nat)
    requires qm > 0
    ensures QuantGroup(QuantGroup(xs, qm), qm) == QuantGroup(xs, qm)
  {
    if |xs| > 0 {
      var mn, sc, ys := MinOf(xs), Step(xs, qm), QuantGroup(xs, qm);
      SameLevels(xs, qm);
      forall i | 0 <= i < |xs| ensures QuantGroup(ys, qm)[i] == ys[i] {
        LevelIsFixed(Code(xs[i], mn, sc, qm), mn, sc, qm);
      }
    }
  }

  // ------------------------------------------------------------------ a whole channel

  /** Tokens missing from the last group. */
  function Missing(n: nat, g: nat): nat
    requires g > 0
  {
    (g - n % g) % g
  }

  /** Padded to whole groups by repeating the last token. */
  function Padded(x: seq<real>, g: nat): (xp: seq<real>)
    requires g > 0
    ensures |xp| == |x| + (if |x| == 0 then 0 else Missing(|x|, g)) && x <= xp
    ensures forall i :: |x| <= i < |xp| ==> xp[i] == x[|x| - 1]
  {
    if |x| == 0 then [] else x + seq(Missing(|x|, g), _ => x[|x| - 1])
  }

  /** Whole groups, one after the other. */
  function QuantGroups(xp: seq<real>, g: nat, qm: nat): (y: seq<real>)
    requires g > 0 && qm > 0
    ensures |y| == |xp|
  {
    if |xp| <= g then QuantGroup(xp, qm)
    else QuantGroup(xp[..g], qm) + QuantGroups(xp[g..], g, qm)
  }

  /** Pad, quantise group by group, cut the padding off. */
  function UniformBlock(x: seq<real>, g: nat, qm: nat): (y: seq<real>)
    requires g > 0 && qm > 0
    ensures |y| == |x|
  {
    QuantGroups(Padded(x, g), g, qm)[..|x|]
  }

  lemma MissingAfterGroup(n: nat, g: nat)
    requires g > 0 && n > g
    ensures Missing(n - g, g) == Missing(n, g)
  {
    Decompose(n - g, g);
    var q := (n - g) / g;
    assert (q + 1) * g == q * g + g;
    QuotientRemainder(n, q + 1, g, (n - g) % g);
  }

  lemma MissingSmall(n: nat, g: nat)
    requires 0 < n <= g
    ensures n + Missing(n, g) == g
  {
    if n == g {
      QuotientRemainder(g, 1, g, 0);
      QuotientRemainder(g, 1, g, 0);
    } else {
      QuotientRemainder(n, 0, g, n);
      QuotientRemainder(g - n, 0, g, g - n);
    }
  }

  /** Repeating the last token changes neither the minimum nor the maximum of a group. */
  lemma SameRange(x: seq<real>, xp: seq<real>)
    requires |x| > 0 && x <= xp && forall i :: |x| <= i < |xp| ==> xp[i] == x[|x| - 1]
    ensures MinOf(xp) == MinOf(x) && Width(xp) == Width(x)
  {
    assert forall v :: v in xp <==> v in x;
    assert MinOf(xp) == MinOf(x) && MaxOf(xp) == MaxOf(x);
  }

  lemma LevelsPrefix(x: seq<real>, xp: seq<real>, mn: real, sc: real, qm: nat)
    requires sc > 0.0 && x <= xp
    ensures Levels(xp, mn, sc, qm)[..|x|] == Levels(x, mn, sc, qm)
  {}

  lemma PaddedGroup(x: seq<real>, xp: seq<real>, qm: nat)
    requires qm > 0 && |x| > 0 && x <= xp && forall i :: |x| <= i < |xp| ==> xp[i] == x[|x| - 1]
    ensures QuantGroup(xp, qm)[..|x|] == QuantGroup(x, qm)
  {
    SameRange(x, xp);
    LevelsPrefix(x, xp, MinOf(x), Step(x, qm), qm);
  }

  lemma PaddedSplits(x: seq<real>, g: nat)
    requires g > 0 && |x| > g
    ensures Padded(x, g)[..g] == x[..g] && Padded(x, g)[g..] == Padded(x[g..], g)
  {
    MissingAfterGroup(|x|, g);
  }

  /** The padding is invisible: the last group is quantised as if it were shorter. */
  lemma {:induction false} PaddingIsInvisible(x: seq<real>, g: nat, qm: nat)
    requires g > 0 && qm > 0
    ensures UniformBlock(x, g, qm) == QuantGroups(x, g, qm)
    decreases |x|
  {
    if |x| > g {
      PaddedSplits(x, g);
      PaddingIsInvisible(x[g..], g, qm);
      assert QuantGroups(Padded(x, g), g, qm) == QuantGroup(x[..g], qm) + QuantGroups(Padded(x[g..], g), g, qm);
    } else if |x| > 0 {
      MissingSmall(|x|, g);
      PaddedGroup(x, Padded(x, g), qm);
    }
  }

  /** The group that token i belongs to. */
  function GroupOf(x: seq<real>, g: nat, i: nat): (xs: seq<real>)
    requires g > 0 && i < |x|
    ensures |xs| > 0
  {
    if |x| <= g then x else if i < g then x[..g] else GroupOf(x[g..], g, i - g)
  }

  /** The groups are the stretches of g tokens, the last one as long as the channel allows. */
  lemma {:induction false} GroupIsStretch(x: seq<real>, g: nat, i: nat, q: nat, start: nat)
    requires g > 0 && i < |x| && start == q * g && start <= i < start + g
    ensures GroupOf(x, g, i) == x[start..if start + g < |x| then start + g else |x|]
    decreases q
  {
    if |x| <= g || i < g {
      NoGroupBefore(q, g, i);
    } else {
      NextGroup(q, g, i);
      GroupIsStretch(x[g..], g, i - g, q - 1, start - g);
      StretchOfRest(x, g, start, if start + g < |x| then start + g else |x|);
    }
  }

  lemma StretchOfRest(x: seq<real>, g: nat, lo: nat, hi: nat)
    requires g <= lo <= hi <= |x|
    ensures x[g..][lo - g..hi - g] == x[lo..hi]
  {}

  lemma NoGroupBefore(q: nat, g: nat, i: nat)
    requires q * g <= i < g
    ensures q == 0
  {
    if q > 0 {
      MulAtLeast(q, g);
    }
  }

  lemma NextGroup(q: nat, g: nat, i: nat)
    requires g <= i < q * g + g
    ensures q > 0 && (q - 1) * g == q * g - g
  {}

  /** Every token is coded by the level of its own group that is nearest to it. */
  lemma BlockIsNearest(x: seq<real>, g: nat, qm: nat, i: nat)
    requires g > 0 && qm > 0 && i < |x|
    ensures IsCoded(UniformBlock(x, g, qm)[i], x[i], GroupOf(x, g, i), qm)
  {
    PaddingIsInvisible(x, g, qm);
    GroupsAreNearest(x, g, qm, i);
  }

  lemma GroupsAreNearest(x: seq<real>, g: nat, qm: nat, i: nat)
    requires g > 0 && qm > 0 && i < |x|
    ensures IsCoded(QuantGroups(x, g, qm)[i], x[i], GroupOf(x, g, i), qm)
  {
    var f := (xs: seq<real>) => QuantGroup(xs, qm);
    GroupsMapped(f, x, g, qm);
    var p := PlaceInGroup(f, x, g, i);
    GroupIsNearest(GroupOf(x, g, i), qm, p);
  }

  /** f applied to every group. */
  function MapGroups(f: seq<real> -> seq<real>, x: seq<real>, g: nat): seq<real>
    requires g > 0
  {
    if |x| <= g then f(x) else f(x[..g]) + MapGroups(f, x[g..], g)
  }

  lemma {:induction false} GroupsMapped(f: seq<real> -> seq<real>, x: seq<real>, g: nat, qm: nat)
    requires g > 0 && qm > 0 && forall xs :: f(xs) == QuantGroup(xs, qm)
    ensures QuantGroups(x, g, qm) == MapGroups(f, x, g)
    decreases |x|
  {
    if |x| <= g {
    } else {
      GroupsMapped(f, x[g..], g, qm);
    }
  }

  /** Token i is a token of its group, and mapped as the group is. */
  lemma {:induction false} PlaceInGroup(f: seq<real> -> seq<real>, x: seq<real>, g: nat, i: nat) returns (p: nat)
    requires g > 0 && i < |x| && forall xs :: |f(xs)| == |xs|
    ensures |MapGroups(f, x, g)| == |x|
    ensures p < |GroupOf(x, g, i)| && GroupOf(x, g, i)[p] == x[i]
    ensures MapGroups(f, x, g)[i] == f(GroupOf(x, g, i))[p]
    decreases |x|
  {
    if |x| <= g {
      p := i;
    } else if i < g {
      var _ := PlaceInGroup(f, x[g..], g, 0);
      p := i;
    } else {
      p := PlaceInGroup(f, x[g..], g, i - g);
    }
  }

  /** Quantising a settled channel again would change nothing. */
  lemma BlockIdempotent(x: seq<real>, g: nat, qm: nat)
    requires g > 0 && qm > 0
    ensures UniformBlock(UniformBlock(x, g, qm), g, qm) == UniformBlock(x, g, qm)
  {
    PaddingIsInvisible(x, g, qm);
    PaddingIsInvisible(QuantGroups(x, g, qm), g, qm);
    GroupsIdempotent(x, g, qm);
  }

  lemma {:induction false} GroupsIdempotent(x: seq<real>, g: nat, qm: nat)
    requires g > 0 && qm > 0
    ensures QuantGroups(QuantGroups(x, g, qm), g, qm) == QuantGroups(x, g, qm)
    decreases |x|
  {
    if |x| <= g {
      GroupIdempotent(x, qm);
    } else {
      var y := QuantGroups(x, g, qm);
      assert y[..g] == QuantGroup(x[..g], qm) && y[g..] == QuantGroups(x[g..], g, qm);
      GroupIdempotent(x[..g], qm);
      GroupsIdempotent(x[g..], g, qm);
    }
  }
}
