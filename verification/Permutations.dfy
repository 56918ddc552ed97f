/** Permutations of 0..n-1, and what argsort returns. */
module Permutations {

  ghost predicate IsPermutation(p: seq<int>) {
    && (forall i :: 0 <= i < |p| ==> 0 <= p[i] < |p|)
    && (forall i, j :: 0 <= i < j < |p| ==> p[i] != p[j])
  }

  /** A list of positions as a total function. */
  function Index(p: seq<int>): int -> int { i => if 0 <= i < |p| then p[i] else 0 }

  /** The contract of argsort: an order of the positions in which the keys never decrease. */
  ghost predicate IsArgsort(keys: seq<int>, order: seq<int>) {
    && |order| == |keys| && IsPermutation(order)
    && (forall i, j :: 0 <= i < j < |keys| ==> keys[order[i]] <= keys[order[j]])
  }

  lemma {:induction false} IncreasingAtLeast(c: seq<int>, i: nat)
    requires forall k :: 0 <= k < |c| ==> 0 <= c[k] < |c|
    requires forall j, k :: 0 <= j < k < |c| ==> c[j] < c[k]
    requires i < |c|
    ensures i <= c[i]
  {
    if i == 0 {
    } else {
      IncreasingAtLeast(c, i - 1);
      assert c[i - 1] < c[i];
    }
  }

  lemma {:induction false} IncreasingAtMost(c: seq<int>, i: nat)
    requires forall k :: 0 <= k < |c| ==> 0 <= c[k] < |c|
    requires forall j, k :: 0 <= j < k < |c| ==> c[j] < c[k]
    requires i < |c|
    ensures c[i] <= i
    decreases |c| - i
  {
    if i + 1 == |c| {
    } else {
      IncreasingAtMost(c, i + 1);
      assert c[i] < c[i + 1];
    }
  }

  /** The argsort of a permutation is its inverse, on both sides. */
  lemma ArgsortInverts(p: seq<int>, order: seq<int>)
    requires IsPermutation(p) && IsArgsort(p, order)
    ensures forall i :: 0 <= i < |p| ==> p[order[i]] == i && order[p[i]] == i
  {
    var c := seq(|p|, i requires 0 <= i < |p| => p[order[i]]);
    forall i, j | 0 <= i < j < |p| ensures c[i] < c[j] {
      assert order[i] != order[j];
    }
    forall i | 0 <= i < |p| ensures p[order[i]] == i {
      IncreasingAtLeast(c, i);
      IncreasingAtMost(c, i);
    }
    forall i | 0 <= i < |p| ensures order[p[i]] == i {
      var k := order[p[i]];
      assert p[k] == p[i];
    }
  }
}
