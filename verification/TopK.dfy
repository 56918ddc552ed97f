/** What it means to be the k best by score, whatever the order and however ties are broken. */
module TopK {
  import opened IndexSets

  function Min(a: nat, b: nat): (m: nat)
    ensures m <= a && m <= b && (m == a || m == b)
  {
    if a <= b then a else b
  }

  /** top holds k of the indices (or all, if fewer), and none left out scores above one kept. */
  ghost predicate IsTopK(top: set<int>, scores: seq<real>, among: set<int>, k: nat)
    requires among <= Ids(|scores|)
  {
    && top <= among && |top| == Min(k, |among|)
    && forall i, j :: i in top && j in among && j !in top ==> scores[j] <= scores[i]
  }

  /** The indices scoring at least v. */
  ghost function AtLeast(s: set<int>, scores: seq<real>, v: real): set<int>
    requires s <= Ids(|scores|)
  {
    set i | i in s && scores[i] >= v
  }

  /** As many indices score at least v, for every v: the same scores, with multiplicity. */
  ghost predicate SameScores(a: set<int>, b: set<int>, scores: seq<real>)
    requires a <= Ids(|scores|) && b <= Ids(|scores|)
  {
    forall v :: |AtLeast(a, scores, v)| == |AtLeast(b, scores, v)|
  }

  ghost predicate HasBestScores(top: set<int>, scores: seq<real>, among: set<int>, k: nat)
    requires top <= among <= Ids(|scores|)
  {
    forall v :: |AtLeast(top, scores, v)| == Min(k, |AtLeast(among, scores, v)|)
  }

  /** The k best are the sets of that size whose scores are the k best scores. */
  lemma TopKByScores(top: set<int>, scores: seq<real>, among: set<int>, k: nat)
    requires top <= among <= Ids(|scores|) && |top| == Min(k, |among|)
    ensures IsTopK(top, scores, among, k) <==> HasBestScores(top, scores, among, k)
  {
    if IsTopK(top, scores, among, k) {
      forall v ensures |AtLeast(top, scores, v)| == Min(k, |AtLeast(among, scores, v)|) {
        TopKCounts(top, scores, among, k, v);
      }
    }
    if HasBestScores(top, scores, among, k) {
      forall i, j | i in top && j in among && j !in top ensures scores[j] <= scores[i] {
        BestScoresLeaveNone(top, scores, among, k, i, j);
      }
    }
  }

  lemma BestScoresLeaveNone(top: set<int>, scores: seq<real>, among: set<int>, k: nat, i: int, j: int)
    requires top <= among <= Ids(|scores|) && |top| == Min(k, |among|) && HasBestScores(top, scores, among, k)
    requires i in top && j in among && j !in top
    ensures scores[j] <= scores[i]
  {
    var v := scores[j];
    var inside, all := AtLeast(top, scores, v), AtLeast(among, scores, v);
    assert |inside| == Min(k, |all|);
    assert |inside + {j}| == |inside| + 1;
    SubsetSize(inside + {j}, all);
    if i !in inside {
      SubsetSize(inside + {i}, top);
      assert false;
    }
  }

  lemma TopKCounts(top: set<int>, scores: seq<real>, among: set<int>, k: nat, v: real)
    requires among <= Ids(|scores|) && IsTopK(top, scores, among, k)
    ensures |AtLeast(top, scores, v)| == Min(k, |AtLeast(among, scores, v)|)
  {
    var inside, all := AtLeast(top, scores, v), AtLeast(among, scores, v);
    SubsetSize(inside, all);
    SubsetSize(inside, top);
    SubsetSize(all, among);
    if i :| i in top && scores[i] < v {
      forall j | j in all ensures j in inside {
        if j !in top {
          assert false;
        }
      }
      assert inside == all;
    } else {
      assert inside == top;
      if |top| == |among| {
        SubsetSize(top, among);
        assert inside == all;
      }
    }
  }

  /** Any two choices of the k best have the same scores. */
  lemma TopKScoresUnique(a: set<int>, b: set<int>, scores: seq<real>, among: set<int>, k: nat)
    requires among <= Ids(|scores|) && IsTopK(a, scores, among, k) && IsTopK(b, scores, among, k)
    ensures SameScores(a, b, scores)
  {
    TopKByScores(a, scores, among, k);
    TopKByScores(b, scores, among, k);
  }

  /** What lies above every left-out index decides the k best: dropping low scores changes nothing. */
  lemma TopKOfKept(top: set<int>, kept: set<int>, scores: seq<real>, among: set<int>, k: nat)
    requires kept <= among <= Ids(|scores|) && IsTopK(top, scores, among, k) && top <= kept
    ensures IsTopK(top, scores, kept, k)
  {
    SubsetSize(top, kept);
    SubsetSize(kept, among);
  }

  /** Every member of top scores above everything left out. */
  ghost predicate Beats(top: set<int>, scores: seq<real>, among: set<int>)
    requires top <= among <= Ids(|scores|)
  {
    forall i, j :: i in top && j in among && j !in top ==> Above(scores, i, j)
  }

  predicate Above(scores: seq<real>, i: int, j: int)
    requires 0 <= i < |scores| && 0 <= j < |scores|
  {
    scores[j] < scores[i]
  }

  /** Then it is the only choice of its size. */
  lemma OnlyTopK(top: set<int>, scores: seq<real>, among: set<int>, k: nat)
    requires top <= among <= Ids(|scores|) && |top| == Min(k, |among|) && Beats(top, scores, among)
    ensures forall other :: IsTopK(other, scores, among, k) <==> other == top
  {
    forall other | IsTopK(other, scores, among, k) ensures other == top {
      if other != top {
        var i := Missing(other, top);
        var j := Missing(top, other);
        assert false;
      }
    }
  }

  /** A member of b that is missing from another set of the same size. */
  lemma Missing<T>(a: set<T>, b: set<T>) returns (i: T)
    requires |a| == |b| && a != b
    ensures i in b && i !in a
  {
    if b <= a {
      SubsetSize(b, a);
      assert false;
    }
    i :| i in b && i !in a;
  }
}
