/** The largest and the smallest value of a list, and clipping. */
module Extremes {

  function Clip(v: int, lo: int, hi: int): int { if v < lo then lo else if v > hi then hi else v }

  function MaxOf(s: seq<real>): (m: real)
    requires |s| > 0
    ensures m in s && forall i :: 0 <= i < |s| ==> s[i] <= m
  {
    if |s| == 1 then s[0] else
      var rest := MaxOf(s[1..]);
      if rest < s[0] then s[0] else rest
  }

  function MinOf(s: seq<real>): (m: real)
    requires |s| > 0
    ensures m in s && forall i :: 0 <= i < |s| ==> m <= s[i]
  {
    if |s| == 1 then s[0] else
      var rest := MinOf(s[1..]);
      if s[0] < rest then s[0] else rest
  }
}
