/** Placing a corpus in shards by row range or by cell range. */
module CellPlacement {
  import opened Blocks
  import opened Division
  import opened IndexSets
  import opened Permutations
  import opened ShardMap
  import opened StreamingPartition

  // ------------------------------------------------------------------ round robin

  function RowBounds(n: nat, shards: nat): (bounds: seq<int>)
    requires shards > 0
    ensures |bounds| == shards + 1
    ensures forall i :: 0 <= i <= shards ==> bounds[i] == if i < shards then i * (n / shards) else n
  {
    seq(shards + 1, i requires 0 <= i < shards + 1 => if i < shards then i * (n / shards) else n)
  }

  lemma RowBoundsFit(n: nat, shards: nat)
    requires shards > 0
    ensures AreBounds(RowBounds(n, shards), n)
    ensures forall i :: 0 <= i <= shards ==> 0 <= RowBounds(n, shards)[i] <= n
  {
    var per, bounds := n / shards, RowBounds(n, shards);
    Decompose(n, shards);
    assert per * shards == shards * per;
    assert bounds[0] == 0 * per;
    forall i | 0 <= i < shards ensures 0 <= i * per <= n {
      MulMonotone(i, shards, per);
    }
    forall i, j | 0 <= i < j < shards ensures bounds[i] <= bounds[j] {
      MulMonotone(i, j, per);
    }
  }

  function RoundRobinBlocks(ids: seq<int>, shards: nat): (blocks: seq<seq<int>>)
    requires shards > 0
    ensures |blocks| == shards
    ensures forall i :: 0 <= i < shards ==>
      |blocks[i]| == RowBounds(|ids|, shards)[i + 1] - RowBounds(|ids|, shards)[i]
  {
    RowBoundsFit(|ids|, shards);
    Slices(ids, RowBounds(|ids|, shards))
  }

  /** Row ranges hold the rows in order, none twice, all of them. */
  lemma RoundRobinCovers(ids: seq<int>, shards: nat)
    requires shards > 0
    ensures Flatten(RoundRobinBlocks(ids, shards)) == ids
  {
    RowBoundsFit(|ids|, shards);
    FlattenSlices(ids, RowBounds(|ids|, shards));
    assert ids[..|ids|] == ids;
  }

  /** Every range but the last has the same size, and the last is longer by less than a row a shard. */
  lemma RoundRobinSizes(ids: seq<int>, shards: nat, i: nat)
    requires i < shards
    ensures |ids| / shards <= |RoundRobinBlocks(ids, shards)[i]| < |ids| / shards + shards
    ensures i < shards - 1 ==> |RoundRobinBlocks(ids, shards)[i]| == |ids| / shards
  {
    var n, per := |ids|, |ids| / shards;
    Decompose(n, shards);
    assert (i + 1) * per == i * per + per;
    assert shards * per == per * shards;
  }

  // ------------------------------------------------------------------ cell-aligned

  /** The contract of a stable argsort. */
  ghost predicate IsStableArgsort(keys: seq<int>, order: seq<int>) {
    && IsArgsort(keys, order)
    && forall p, q :: 0 <= p < q < |order| && keys[order[p]] == keys[order[q]] ==> order[p] < order[q]
  }

  lemma PastEdgeMonotone(c: nat, d: nat, i: nat, nlist: nat, shards: nat)
    requires c <= d && PastEdge(c, i, nlist, shards)
    ensures PastEdge(d, i, nlist, shards)
  {
    MulMonotone(c, d, shards);
  }

  /** Where edge i goes among sorted cells, before its equals: searchsorted on the left. */
  function SearchEdge(a: seq<int>, i: nat, nlist: nat, shards: nat): (p: nat)
    requires Ascending(a) && Indexes(a, nlist)
    ensures p <= |a|
    ensures forall q :: 0 <= q < |a| ==> (q < p <==> !PastEdge(a[q], i, nlist, shards))
  {
    if |a| == 0 then 0
    else
      var n := |a| - 1;
      if PastEdge(a[n], i, nlist, shards) then SearchEdge(a[..n], i, nlist, shards)
      else
        AllBefore(a, i, nlist, shards);
        |a|
  }

  lemma AllBefore(a: seq<int>, i: nat, nlist: nat, shards: nat)
    requires Ascending(a) && Indexes(a, nlist) && |a| > 0 && !PastEdge(a[|a| - 1], i, nlist, shards)
    ensures forall q :: 0 <= q < |a| ==> !PastEdge(a[q], i, nlist, shards)
  {
    forall q | 0 <= q < |a| ensures !PastEdge(a[q], i, nlist, shards) {
      if PastEdge(a[q], i, nlist, shards) {
        PastEdgeMonotone(a[q], a[|a| - 1], i, nlist, shards);
      }
    }
  }

  function CellBounds(a: seq<int>, nlist: nat, shards: nat): (bounds: seq<int>)
    requires Ascending(a) && Indexes(a, nlist)
    ensures |bounds| == shards + 1
    ensures forall i :: 0 <= i <= shards ==> bounds[i] == SearchEdge(a, i, nlist, shards)
  {
    seq(shards + 1, i requires 0 <= i < shards + 1 => SearchEdge(a, i, nlist, shards))
  }

  lemma SearchEdgeMonotone(a: seq<int>, i: nat, j: nat, nlist: nat, shards: nat)
    requires Ascending(a) && Indexes(a, nlist) && i <= j
    ensures SearchEdge(a, i, nlist, shards) <= SearchEdge(a, j, nlist, shards)
  {
    var p, q := SearchEdge(a, i, nlist, shards), SearchEdge(a, j, nlist, shards);
    MulMonotone(i, j, nlist);
    if q < |a| {
      assert PastEdge(a[q], j, nlist, shards);
      assert PastEdge(a[q], i, nlist, shards);
    }
  }

  lemma SearchEdgeEnds(a: seq<int>, nlist: nat, shards: nat)
    requires Ascending(a) && Indexes(a, nlist) && shards > 0
    ensures SearchEdge(a, 0, nlist, shards) == 0 && SearchEdge(a, shards, nlist, shards) == |a|
  {
    forall q | 0 <= q < |a| ensures PastEdge(a[q], 0, nlist, shards) && !PastEdge(a[q], shards, nlist, shards) {
      assert a[q] * shards >= 0;
      MulMonotone(a[q] + 1, nlist, shards);
      assert (a[q] + 1) * shards == a[q] * shards + shards;
      assert nlist * shards == shards * nlist;
    }
    if |a| > 0 {
      assert PastEdge(a[0], 0, nlist, shards);
    }
  }

  lemma CellBoundsFit(a: seq<int>, nlist: nat, shards: nat)
    requires Ascending(a) && Indexes(a, nlist) && shards > 0
    ensures AreBounds(CellBounds(a, nlist, shards), |a|)
    ensures forall i :: 0 <= i <= shards ==> 0 <= CellBounds(a, nlist, shards)[i] <= |a|
  {
    var bounds := CellBounds(a, nlist, shards);
    SearchEdgeEnds(a, nlist, shards);
    forall i, j | 0 <= i < j < |bounds| ensures bounds[i] <= bounds[j] {
      SearchEdgeMonotone(a, i, j, nlist, shards);
    }
  }

  ghost predicate Placeable(cells: seq<int>, order: seq<int>, nlist: nat, shards: nat) {
    shards > 0 && Indexes(cells, nlist) && IsStableArgsort(cells, order)
  }

  lemma SortedCells(cells: seq<int>, order: seq<int>, nlist: nat)
    requires Indexes(cells, nlist) && IsStableArgsort(cells, order)
    ensures Indexes(order, |cells|)
    ensures Ascending(Picked(cells, order)) && Indexes(Picked(cells, order), nlist)
  {}

  /** The rows of each shard: the sorted order cut at the bounds. */
  function CellAlignedBlocks(cells: seq<int>, order: seq<int>, nlist: nat, shards: nat): (blocks: seq<seq<int>>)
    requires Placeable(cells, order, nlist, shards)
    ensures |blocks| == shards
  {
    SortedCells(cells, order, nlist);
    var sorted := Picked(cells, order);
    CellBoundsFit(sorted, nlist, shards);
    Slices(order, CellBounds(sorted, nlist, shards))
  }

  /** The placement hands out every row exactly once. */
  lemma PlacementCovers(cells: seq<int>, order: seq<int>, nlist: nat, shards: nat)
    requires Placeable(cells, order, nlist, shards)
    ensures Flatten(CellAlignedBlocks(cells, order, nlist, shards)) == order
    ensures forall r :: 0 <= r < |cells| ==> r in order
  {
    SortedCells(cells, order, nlist);
    var sorted := Picked(cells, order);
    CellBoundsFit(sorted, nlist, shards);
    FlattenSlices(order, CellBounds(sorted, nlist, shards));
    assert order[..|order|] == order;
    forall r | 0 <= r < |cells| ensures r in order {
      EveryRowOrdered(order, r);
    }
  }

  lemma EveryRowOrdered(order: seq<int>, r: nat)
    requires IsPermutation(order) && r < |order|
    ensures r in order
  {
    DistinctSize(order);
    SubsetSize(Elements(order), Ids(|order|));
  }

  /** A row is in the block whose unrounded cell range holds its cell, so no cell is split. */
  lemma PlacementByCell(cells: seq<int>, order: seq<int>, nlist: nat, shards: nat, r: nat, i: nat)
    requires Placeable(cells, order, nlist, shards) && r < |cells| && i < shards
    ensures r in CellAlignedBlocks(cells, order, nlist, shards)[i] <==> PlacedIn(cells[r], i, nlist, shards)
  {
    SortedCells(cells, order, nlist);
    var sorted := Picked(cells, order);
    CellBoundsFit(sorted, nlist, shards);
    var lo, hi := SearchEdge(sorted, i, nlist, shards), SearchEdge(sorted, i + 1, nlist, shards);
    EveryRowOrdered(order, r);
    var p :| 0 <= p < |order| && order[p] == r;
    SearchEdgeMonotone(sorted, i, i + 1, nlist, shards);
    InSlice(order, lo, hi, p);
    assert sorted[p] == cells[r];
  }

  lemma InSlice(order: seq<int>, lo: nat, hi: nat, p: nat)
    requires IsPermutation(order) && lo <= hi <= |order| && p < |order|
    ensures order[p] in order[lo..hi] <==> lo <= p < hi
  {
    if lo <= p < hi {
      assert order[lo..hi][p - lo] == order[p];
    }
  }

  /** Where the cells divide evenly, the streaming partition and the placement fill every shard alike. */
  lemma BuildsAgree(cells: seq<int>, order: seq<int>, nlist: nat, shards: nat, r: nat, i: nat)
    requires Placeable(cells, order, nlist, shards) && nlist % shards == 0 && r < |cells| && i < shards
    ensures (r in CellAlignedBlocks(cells, order, nlist, shards)[i] <==>
             r in RowsOf(Targets(cells, nlist, shards), i))
  {
    PlacementByCell(cells, order, nlist, shards, r, i);
    RowLandsWhereItsCellDoes(cells, nlist, shards, r, i);
    EvenCuts(cells[r], i, nlist, shards);
  }

  /** Where they do not, a single row in the cell across the first edge goes to different shards. */
  lemma BuildsDisagree(nlist: nat, shards: nat)
    requires shards > 0 && nlist % shards != 0
    ensures Placeable([Edge(1, nlist, shards)], [0], nlist, shards)
    ensures 0 in CellAlignedBlocks([Edge(1, nlist, shards)], [0], nlist, shards)[0]
    ensures 0 !in RowsOf(Targets([Edge(1, nlist, shards)], nlist, shards), 0)
  {
    var cells := [Edge(1, nlist, shards)];
    UnevenCut(nlist, shards);
    PlacementByCell(cells, [0], nlist, shards, 0, 0);
    RowLandsWhereItsCellDoes(cells, nlist, shards, 0, 0);
  }
}
