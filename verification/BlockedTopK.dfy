/** Exact top-k over a corpus that arrives in blocks, and why the blocking does not matter. */
module BlockedTopK {
  import opened Blocks
  import opened IndexSets
  import opened TopK
  import opened Wrappers

  // ------------------------------------------------------------------ selection

  /** Positions of the k largest scores: the contract of argpartition, cut at k. */
  ghost predicate IsArgTop(part: seq<int>, scores: seq<real>, k: nat) {
    Distinct(part) && IsTopK(Elements(part), scores, Ids(|scores|), k)
  }

  /** No position left out scores above one taken. */
  ghost predicate Dominates(part: seq<int>, scores: seq<real>) {
    && Distinct(part) && (forall i :: i in part ==> 0 <= i < |scores|)
    && forall i, j :: i in part && 0 <= j < |scores| && j !in part ==> scores[j] <= scores[i]
  }

  lemma DominatesExtends(part: seq<int>, scores: seq<real>, best: nat)
    requires Dominates(part, scores) && best < |scores| && best !in part
    requires forall i :: 0 <= i < |scores| && i !in part ==> scores[i] <= scores[best]
    ensures Dominates(part + [best], scores)
  {
    assert forall i :: i in part + [best] <==> i in part || i == best;
  }

  lemma DominatesIsTop(part: seq<int>, scores: seq<real>, k: nat)
    requires Dominates(part, scores) && |part| == Min(k, |scores|)
    ensures IsArgTop(part, scores, k)
  {
    DistinctSize(part);
  }

  method BestLeft(scores: seq<real>, part: seq<int>) returns (best: nat)
    requires Dominates(part, scores) && |part| < |scores|
    ensures best < |scores| && best !in part
    ensures forall i :: 0 <= i < |scores| && i !in part ==> scores[i] <= scores[best]
  {
    var found := -1;
    for j := 0 to |scores|
      invariant found == -1 || (0 <= found < j && found !in part)
      invariant forall i :: 0 <= i < j && i !in part ==> found != -1 && scores[i] <= scores[found]
    {
      if j !in part && (found == -1 || scores[j] > scores[found]) {
        found := j;
      }
    }
    if found == -1 {
      DistinctSize(part);
      SubsetSize(Ids(|scores|), Elements(part));
      assert false;
    }
    best := found;
  }

  method ArgPartition(scores: seq<real>, k: nat) returns (part: seq<int>)
    ensures IsArgTop(part, scores, k) && |part| == Min(k, |scores|)
  {
    part := [];
    while |part| < Min(k, |scores|)
      invariant |part| <= Min(k, |scores|) && Dominates(part, scores)
    {
      var best := BestLeft(scores, part);
      DominatesExtends(part, scores, best);
      part := part + [best];
    }
    DominatesIsTop(part, scores, k);
  }

  // ------------------------------------------------------------------ the stream

  function ScoresOf<T>(rows: seq<T>, sim: T -> real): (scores: seq<real>)
    ensures |scores| == |rows| && forall i :: 0 <= i < |rows| ==> scores[i] == sim(rows[i])
  {
    seq(|rows|, i requires 0 <= i < |rows| => sim(rows[i]))
  }

  /** Rows off, ..., off + n - 1 as ids. */
  function IdRange(off: nat, n: nat): (ids: seq<int>)
    ensures |ids| == n && forall i :: 0 <= i < n ==> ids[i] == off + i
  {
    seq(n, i => off + i)
  }

  /** Every id carries its own score. */
  ghost predicate Labelled(ix: seq<int>, sc: seq<real>, scores: seq<real>) {
    && |sc| == |ix| && Indexes(ix, |scores|)
    && forall i :: 0 <= i < |ix| ==> sc[i] == scores[ix[i]]
  }

  /** The running answer: the ids of the k best rows so far, each with its own score. */
  ghost predicate IsRunningTop(ix: seq<int>, sc: seq<real>, scores: seq<real>, k: nat) {
    IsArgTop(ix, scores, k) && Labelled(ix, sc, scores)
  }

  /** argpartition refuses an empty row: block b is empty and nothing was kept before it. */
  predicate Refuses<T>(blocks: seq<seq<T>>, k: nat, b: nat)
    requires b < |blocks|
  {
    |blocks[b]| == 0 && (b == 0 || k == 0)
  }

  /** The running answer after the first b blocks, off rows in all. */
  ghost predicate IsTopOfPrefix<T>(ix: seq<int>, sc: seq<real>, off: int, blocks: seq<seq<T>>, b: nat,
                                    sim: T -> real, k: nat)
    requires b <= |blocks|
  {
    && off == |Flatten(blocks[..b])| && |sc| == Min(k, |Flatten(blocks[..b])|)
    && IsRunningTop(ix, sc, ScoresOf(Flatten(blocks[..b]), sim), k)
  }

  /**
   * Exact top-k of one query against a corpus streamed in blocks; `sim` scores a row. The ids
   * returned are k best of the whole corpus, however it was cut. None stands for the ValueError
   * of partitioning an empty row.
   */
  method ExactTopKBlocked<T>(blocks: seq<seq<T>>, sim: T -> real, k: nat) returns (r: Option<seq<int>>)
    ensures r.None? <==> exists b: nat :: b < |blocks| && Refuses(blocks, k, b)
    ensures r.Some? ==> IsArgTop(r.value, ScoresOf(Flatten(blocks), sim), k) && |r.value| == Min(k, |Flatten(blocks)|)
  {
    var ix, sc, off := [], [], 0;
    for b := 0 to |blocks|
      invariant b > 0 && k > 0 ==> off > 0
      invariant IsTopOfPrefix(ix, sc, off, blocks, b, sim, k)
      invariant forall j: nat :: j < b ==> !Refuses(blocks, k, j)
    {
      if |sc| + |blocks[b]| == 0 {
        assert Refuses(blocks, k, b);
        return None;
      }
      ix, sc, off := AddBlock(ix, sc, off, blocks, b, sim, k);
    }
    TopOfAll(ix, sc, off, blocks, sim, k);
    return Some(ix);
  }

  lemma TopOfAll<T>(ix: seq<int>, sc: seq<real>, off: int, blocks: seq<seq<T>>, sim: T -> real, k: nat)
    requires IsTopOfPrefix(ix, sc, off, blocks, |blocks|, sim, k)
    ensures IsArgTop(ix, ScoresOf(Flatten(blocks), sim), k) && |ix| == Min(k, |Flatten(blocks)|)
  {
    assert blocks[..|blocks|] == blocks;
  }

  lemma PrefixGrows<T>(blocks: seq<seq<T>>, b: nat)
    requires b < |blocks|
    ensures Flatten(blocks[..b + 1]) == Flatten(blocks[..b]) + blocks[b]
  {
    assert blocks[..b + 1] == blocks[..b] + [blocks[b]];
    FlattenLast(blocks[..b], blocks[b]);
  }

  /** The k best of the k best so far and block b. */
  method AddBlock<T>(ix: seq<int>, sc: seq<real>, off: int, blocks: seq<seq<T>>, b: nat, sim: T -> real, k: nat)
    returns (ix': seq<int>, sc': seq<real>, off': int)
    requires b < |blocks| && IsTopOfPrefix(ix, sc, off, blocks, b, sim, k)
    ensures IsTopOfPrefix(ix', sc', off', blocks, b + 1, sim, k) && off' == off + |blocks[b]|
  {
    var blk := blocks[b];
    var csc, cix := sc + ScoresOf(blk, sim), ix + IdRange(off, |blk|);
    var part := ArgPartition(csc, k);
    PrefixGrows(blocks, b);
    CandidatesSuffice(ix, sc, Flatten(blocks[..b]), blk, sim, k, csc, cix, part);
    ix', sc', off' := Picked(cix, part), Picked(csc, part), off + |blk|;
    DistinctSize(ix');
  }

  lemma InRange(part: seq<int>, scores: seq<real>, k: nat)
    requires IsArgTop(part, scores, k)
    ensures Indexes(part, |scores|)
  {
    forall i | 0 <= i < |part| ensures 0 <= part[i] < |scores| {
      assert part[i] in Elements(part);
    }
  }

  /** Keeping the k best of (the k best so far and the new rows) keeps the k best of all. */
  lemma CandidatesSuffice<T>(ix: seq<int>, sc: seq<real>, before: seq<T>, blk: seq<T>, sim: T -> real,
                              k: nat, csc: seq<real>, cix: seq<int>, part: seq<int>)
    requires IsRunningTop(ix, sc, ScoresOf(before, sim), k)
    requires csc == sc + ScoresOf(blk, sim) && cix == ix + IdRange(|before|, |blk|)
    requires IsArgTop(part, csc, k)
    ensures Indexes(part, |csc|)
    ensures IsRunningTop(Picked(cix, part), Picked(csc, part), ScoresOf(before + blk, sim), k)
  {
    InRange(part, csc, k);
    CandidateScores(ix, sc, before, blk, sim, csc, cix);
    CandidatesOfScores(ix, ScoresOf(before, sim), ScoresOf(before + blk, sim), |blk|, k, csc, cix, part);
  }

  lemma CandidatesOfScores(ix: seq<int>, prior: seq<real>, scores: seq<real>, added: nat,
                           k: nat, csc: seq<real>, cix: seq<int>, part: seq<int>)
    requires IsArgTop(ix, prior, k) && IsArgTop(part, csc, k)
    requires |scores| == |prior| + added && scores[..|prior|] == prior
    requires Indexes(part, |csc|) && Labelled(cix, csc, scores) && cix == ix + IdRange(|prior|, added)
    ensures IsRunningTop(Picked(cix, part), Picked(csc, part), scores, k)
  {
    KeptIsTop(ix, prior, scores, added, k, csc, cix, part);
    PickedLabelled(cix, csc, scores, part);
  }

  lemma PickedLabelled(cix: seq<int>, csc: seq<real>, scores: seq<real>, part: seq<int>)
    requires Indexes(part, |csc|) && Labelled(cix, csc, scores)
    ensures Labelled(Picked(cix, part), Picked(csc, part), scores)
  {}

  lemma KeptIsTop(ix: seq<int>, prior: seq<real>, scores: seq<real>, added: nat,
                  k: nat, csc: seq<real>, cix: seq<int>, part: seq<int>)
    requires IsArgTop(ix, prior, k) && IsArgTop(part, csc, k)
    requires |scores| == |prior| + added && scores[..|prior|] == prior
    requires Indexes(part, |csc|) && Labelled(cix, csc, scores) && cix == ix + IdRange(|prior|, added)
    ensures IsArgTop(Picked(cix, part), scores, k)
  {
    InRange(ix, prior, k);
    CandidatesDistinct(ix, |prior|, added);
    TakeIsTop(cix, csc, scores, part, k);
    CandidateElements(ix, |prior|, added);
    MergeTop(Elements(ix), Elements(Picked(cix, part)), prior, scores, added, k);
  }

  lemma CandidateElements(ix: seq<int>, off: nat, n: nat)
    ensures Elements(ix + IdRange(off, n)) == Elements(ix) + Span(off, n)
  {
    var cix := ix + IdRange(off, n);
    forall y ensures y in Elements(cix) <==> y in Elements(ix) + Span(off, n) {
      if y in Span(off, n) {
        assert cix[|ix| + (y - off)] == y;
      }
    }
  }

  lemma CandidateScores<T>(ix: seq<int>, sc: seq<real>, before: seq<T>, blk: seq<T>, sim: T -> real,
                           csc: seq<real>, cix: seq<int>)
    requires Labelled(ix, sc, ScoresOf(before, sim))
    requires csc == sc + ScoresOf(blk, sim) && cix == ix + IdRange(|before|, |blk|)
    ensures Labelled(cix, csc, ScoresOf(before + blk, sim))
  {}

  lemma CandidatesDistinct(ix: seq<int>, off: nat, n: nat)
    requires Distinct(ix) && forall i :: 0 <= i < |ix| ==> ix[i] < off
    ensures Distinct(ix + IdRange(off, n))
  {}

  /** The k best positions name the k best ids. */
  lemma TakeIsTop(cix: seq<int>, csc: seq<real>, scores: seq<real>, part: seq<int>, k: nat)
    requires Distinct(cix) && IsArgTop(part, csc, k)
    requires Indexes(part, |csc|) && Labelled(cix, csc, scores)
    ensures Distinct(Picked(cix, part)) && Elements(cix) <= Ids(|scores|)
    ensures IsTopK(Elements(Picked(cix, part)), scores, Elements(cix), k)
  {
    var taken := Picked(cix, part);
    TakeDistinct(cix, part);
    TakeSizes(cix, csc, part, k);
    forall i, j | i in taken && j in cix && j !in taken ensures scores[j] <= scores[i] {
      TakenBeatsLeft(cix, csc, scores, part, i, j);
    }
  }

  lemma TakeDistinct(cix: seq<int>, part: seq<int>)
    requires Distinct(cix) && Distinct(part)
    requires Indexes(part, |cix|)
    ensures Distinct(Picked(cix, part))
  {}

  lemma TakeSizes(cix: seq<int>, csc: seq<real>, part: seq<int>, k: nat)
    requires Distinct(cix) && IsArgTop(part, csc, k) && |csc| == |cix|
    requires Indexes(part, |cix|)
    ensures |Elements(Picked(cix, part))| == Min(k, |Elements(cix)|)
    ensures Elements(Picked(cix, part)) <= Elements(cix)
  {
    TakeDistinct(cix, part);
    DistinctSize(part);
    DistinctSize(cix);
    DistinctSize(Picked(cix, part));
  }

  lemma TakenBeatsLeft(cix: seq<int>, csc: seq<real>, scores: seq<real>, part: seq<int>, i: int, j: int)
    requires Indexes(part, |csc|) && Labelled(cix, csc, scores)
    requires forall i, j :: i in Elements(part) && j in Ids(|csc|) && j !in Elements(part) ==> csc[j] <= csc[i]
    requires i in Picked(cix, part) && j in cix && j !in Picked(cix, part)
    ensures 0 <= i < |scores| && 0 <= j < |scores| && scores[j] <= scores[i]
  {
    var p :| 0 <= p < |part| && Picked(cix, part)[p] == i;
    var q :| 0 <= q < |cix| && cix[q] == j;
    if q in part {
      TakePosition(cix, part, q);
    } else {
      assert part[p] in Elements(part) && q in Ids(|csc|);
    }
  }

  lemma TakePosition(cix: seq<int>, part: seq<int>, q: int)
    requires Indexes(part, |cix|)
    requires q in part
    ensures 0 <= q < |cix| && cix[q] in Picked(cix, part)
  {
    var t :| 0 <= t < |part| && part[t] == q;
    assert Picked(cix, part)[t] == cix[q];
  }

  /** Merging: the k best of (prior k best + added rows) are the k best of prior and added rows. */
  lemma MergeTop(b: set<int>, n: set<int>, prior: seq<real>, scores: seq<real>, added: nat, k: nat)
    requires |scores| == |prior| + added && scores[..|prior|] == prior
    requires IsTopK(b, prior, Ids(|prior|), k)
    requires b + Span(|prior|, added) <= Ids(|scores|) && IsTopK(n, scores, b + Span(|prior|, added), k)
    ensures IsTopK(n, scores, Ids(|scores|), k)
  {
    var c := b + Span(|prior|, added);
    assert |c| == |b| + added;
    forall i, j | i in n && j in Ids(|scores|) && j !in n ensures scores[j] <= scores[i] {
      if j !in c {
        KeptBeatsLeft(b, n, c, prior, scores, added, k, i, j);
      }
    }
  }

  lemma KeptBeatsLeft(b: set<int>, n: set<int>, c: set<int>, prior: seq<real>, scores: seq<real>,
                      added: nat, k: nat, i: int, j: int)
    requires IsTopK(b, prior, Ids(|prior|), k) && prior <= scores
    requires b <= c <= Ids(|scores|) && |c| == |b| + added && IsTopK(n, scores, c, k)
    requires i in n && j in Ids(|prior|) && j !in c
    ensures scores[j] <= scores[i]
  {
    if i !in b {
      var x := Displaced(b, n, prior, added, k, i, j);
      assert prior[j] <= prior[x] && scores[x] <= scores[i];
    } else {
      assert prior[j] <= prior[i];
    }
  }

  /** A row dropped earlier left k rows behind, one of which a newcomer has replaced. */
  lemma Displaced(b: set<int>, n: set<int>, prior: seq<real>, added: nat, k: nat, i: int, j: int) returns (x: int)
    requires IsTopK(b, prior, Ids(|prior|), k)
    requires |n| == Min(k, |b| + added) && i in n && i !in b && j in Ids(|prior|) && j !in b
    ensures x in b && x !in n
  {
    if b <= n {
      SubsetSize(b + {i}, n);
      SubsetSize(b + {j}, Ids(|prior|));
      assert false;
    }
    x :| x in b && x !in n;
  }

  /** Two ways of cutting the same corpus give answers with the same scores. */
  lemma BlockingDoesNotMatter<T>(blocks: seq<seq<T>>, other: seq<seq<T>>, sim: T -> real, k: nat,
                                  ix: seq<int>, ix': seq<int>)
    requires Flatten(blocks) == Flatten(other)
    requires IsArgTop(ix, ScoresOf(Flatten(blocks), sim), k) && IsArgTop(ix', ScoresOf(Flatten(other), sim), k)
    ensures SameScores(Elements(ix), Elements(ix'), ScoresOf(Flatten(blocks), sim))
  {
    var scores := ScoresOf(Flatten(blocks), sim);
    TopKScoresUnique(Elements(ix), Elements(ix'), scores, Ids(|scores|), k);
  }

  /** The streamed ground truth: shards cut into sub-blocks of a million rows, none of them empty. */
  method GroundTruth<T>(shards: seq<seq<T>>, sim: T -> real, k: nat) returns (ix: seq<int>)
    ensures IsArgTop(ix, ScoresOf(Flatten(shards), sim), k) && |ix| == Min(k, |Flatten(shards)|)
  {
    FlattenSubBlocks(shards, 1_000_000);
    SubBlocksNotEmpty(shards, 1_000_000);
    var r := ExactTopKBlocked(SubBlocks(shards, 1_000_000), sim, k);
    ix := r.value;
  }
}
