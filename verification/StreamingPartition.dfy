/** One pass over a corpus that appends every row to its shard's spill file, chunk after chunk. */
module StreamingPartition {
  import opened Blocks
  import opened IndexSets
  import opened ShardMap

  // ------------------------------------------------------------------ the plain filter

  /** The rows whose target is i, in ascending order. */
  function RowsOf(tgt: seq<int>, i: int): (rows: seq<int>)
    ensures Indexes(rows, |tgt|)
    ensures forall r :: r in rows <==> 0 <= r < |tgt| && tgt[r] == i
  {
    if |tgt| == 0 then []
    else
      var n := |tgt| - 1;
      var rest := RowsOf(tgt[..n], i);
      if tgt[n] == i then rest + [n] else rest
  }

  ghost predicate Increasing(s: seq<int>) {
    forall p, q :: 0 <= p < q < |s| ==> s[p] < s[q]
  }

  lemma {:induction false} RowsIncrease(tgt: seq<int>, i: int)
    ensures Increasing(RowsOf(tgt, i))
  {
    if |tgt| == 0 {
    } else {
      RowsIncrease(tgt[..|tgt| - 1], i);
    }
  }

  function Shifted(s: seq<int>, off: int): (t: seq<int>)
    ensures |t| == |s| && forall p :: 0 <= p < |s| ==> t[p] == s[p] + off
  {
    seq(|s|, p requires 0 <= p < |s| => s[p] + off)
  }

  /** Filtering chunk by chunk, with the chunk's start added to its row numbers. */
  lemma {:induction false} RowsConcat(a: seq<int>, b: seq<int>, i: int)
    ensures RowsOf(a + b, i) == RowsOf(a, i) + Shifted(RowsOf(b, i), |a|)
  {
    if |b| == 0 {
      assert a + b == a;
    } else {
      var n := |b| - 1;
      assert (a + b)[..|a + b| - 1] == a + b[..n];
      RowsConcat(a, b[..n], i);
      assert Shifted(RowsOf(b[..n], i) + [n], |a|) == Shifted(RowsOf(b[..n], i), |a|) + [|a| + n];
    }
  }

  /** Selecting rows with a boolean mask. */
  function Masked<T>(blk: seq<T>, tgt: seq<int>, i: int): seq<T>
    requires |blk| == |tgt|
  {
    if |tgt| == 0 then []
    else
      var n := |tgt| - 1;
      Masked(blk[..n], tgt[..n], i) + (if tgt[n] == i then [blk[n]] else [])
  }

  /** The mask keeps the rows whose numbers flatnonzero reports, in the same order. */
  lemma {:induction false} MaskPicksRows<T>(blk: seq<T>, tgt: seq<int>, i: int)
    requires |blk| == |tgt|
    ensures Masked(blk, tgt, i) == Picked(blk, RowsOf(tgt, i))
  {
    if |tgt| == 0 {
    } else {
      MaskPicksRows(blk[..|tgt| - 1], tgt[..|tgt| - 1], i);
    }
  }

  lemma {:induction false} MaskedConcat<T>(x: seq<T>, y: seq<T>, a: seq<int>, b: seq<int>, i: int)
    requires |x| == |a| && |y| == |b|
    ensures Masked(x + y, a + b, i) == Masked(x, a, i) + Masked(y, b, i)
    decreases |b|
  {
    if |b| == 0 {
      assert a + b == a && x + y == x;
    } else {
      var n := |b| - 1;
      assert (a + b)[..|a + b| - 1] == a + b[..n] && (x + y)[..|a + b| - 1] == x + y[..n];
      MaskedConcat(x, y[..n], a, b[..n], i);
    }
  }

  // ------------------------------------------------------------------ assigning cells

  function CellsOf<T>(rows: seq<T>, cellFor: T -> int): (cells: seq<int>)
    ensures |cells| == |rows| && forall r :: 0 <= r < |rows| ==> cells[r] == cellFor(rows[r])
  {
    seq(|rows|, r requires 0 <= r < |rows| => cellFor(rows[r]))
  }

  /** Fills the cell table slice by slice. */
  method AssignCells<T>(rows: seq<T>, cellFor: T -> int, chunk: nat) returns (cellOf: array<int>)
    requires chunk > 0
    ensures fresh(cellOf) && cellOf[..] == CellsOf(rows, cellFor)
  {
    cellOf := new int[|rows|];
    var s := 0;
    while s < |rows|
      invariant 0 <= s <= |rows|
      invariant forall r :: 0 <= r < s ==> cellOf[r] == cellFor(rows[r])
    {
      var n := if chunk <= |rows| - s then chunk else |rows| - s;
      forall r | s <= r < s + n {
        cellOf[r] := cellFor(rows[r]);
      }
      s := s + n;
    }
  }

  // ------------------------------------------------------------------ the one pass

  function Targets(cells: seq<int>, nlist: nat, shards: nat): (tgt: seq<int>)
    requires shards > 0
    ensures |tgt| == |cells| && forall r :: 0 <= r < |cells| ==> tgt[r] == ShardOfCell(cells[r], nlist, shards)
  {
    seq(|cells|, r requires 0 <= r < |cells| => ShardOfCell(cells[r], nlist, shards))
  }

  /** The distinct elements. */
  function Unique(tgt: seq<int>): (u: seq<int>)
    ensures Distinct(u) && forall i :: i in u <==> i in tgt
  {
    if |tgt| == 0 then []
    else
      var n := |tgt| - 1;
      var rest := Unique(tgt[..n]);
      assert tgt == tgt[..n] + [tgt[n]];
      if tgt[n] in rest then rest else rest + [tgt[n]]
  }

  lemma {:induction false} NoRows<T>(blk: seq<T>, tgt: seq<int>, i: int)
    requires |blk| == |tgt| && i !in tgt
    ensures RowsOf(tgt, i) == [] && Masked(blk, tgt, i) == []
  {
    if |tgt| == 0 {
    } else {
      NoRows(blk[..|tgt| - 1], tgt[..|tgt| - 1], i);
    }
  }

  // What shard i holds once the rows in `rows`, with targets `tgt`, have streamed past.
  ghost predicate HoldsAt<T>(bufs: seq<seq<int>>, file: seq<T>, rows: seq<T>, tgt: seq<int>, i: int) {
    |rows| == |tgt| && Flatten(bufs) == RowsOf(tgt, i) && file == Masked(rows, tgt, i)
  }

  lemma AppendChunk<T>(bufs: seq<seq<int>>, file: seq<T>, rows: seq<T>, tgt: seq<int>,
                        blk: seq<T>, ct: seq<int>, i: int)
    requires HoldsAt(bufs, file, rows, tgt, i) && |blk| == |ct|
    ensures HoldsAt(bufs + [Shifted(RowsOf(ct, i), |tgt|)], file + Masked(blk, ct, i), rows + blk, tgt + ct, i)
  {
    RowsConcat(tgt, ct, i);
    MaskedConcat(rows, blk, tgt, ct, i);
    var more := bufs + [Shifted(RowsOf(ct, i), |tgt|)];
    assert more[..|more| - 1] == bufs;
  }

  lemma SkipChunk<T>(bufs: seq<seq<int>>, file: seq<T>, rows: seq<T>, tgt: seq<int>,
                      blk: seq<T>, ct: seq<int>, i: int)
    requires HoldsAt(bufs, file, rows, tgt, i) && |blk| == |ct| && i !in ct
    ensures HoldsAt(bufs, file, rows + blk, tgt + ct, i)
  {
    NoRows(blk, ct, i);
    RowsConcat(tgt, ct, i);
    MaskedConcat(rows, blk, tgt, ct, i);
  }

  ghost predicate Holds<T>(idBufs: seq<seq<seq<int>>>, spill: seq<seq<T>>, rows: seq<T>, tgt: seq<int>) {
    && |spill| == |idBufs|
    && forall i :: 0 <= i < |idBufs| ==> HoldsAt(idBufs[i], spill[i], rows, tgt, i)
  }

  /** One chunk: each shard that occurs in it gets its rows and their numbers appended. */
  method SpillChunk<T>(idBufs: seq<seq<seq<int>>>, spill: seq<seq<T>>, blk: seq<T>, ct: seq<int>, s: nat,
                       ghost rows: seq<T>, ghost tgt: seq<int>)
    returns (idBufs': seq<seq<seq<int>>>, spill': seq<seq<T>>)
    requires Holds(idBufs, spill, rows, tgt) && s == |tgt| == |rows|
    requires |blk| == |ct| && Indexes(ct, |spill|)
    ensures |spill'| == |spill| && Holds(idBufs', spill', rows + blk, tgt + ct)
  {
    idBufs', spill' := idBufs, spill;
    var u := Unique(ct);
    for j := 0 to |u|
      invariant |idBufs'| == |spill'| == |spill|
      invariant forall i :: 0 <= i < |spill| && i in u[..j] ==> HoldsAt(idBufs'[i], spill'[i], rows + blk, tgt + ct, i)
      invariant forall i :: 0 <= i < |spill| && i !in u[..j] ==> HoldsAt(idBufs'[i], spill'[i], rows, tgt, i)
    {
      var i := u[j];
      assert i in ct;
      AppendChunk(idBufs'[i], spill'[i], rows, tgt, blk, ct, i);
      spill' := spill'[i := spill'[i] + Masked(blk, ct, i)];
      idBufs' := idBufs'[i := idBufs'[i] + [Shifted(RowsOf(ct, i), s)]];
      assert u[..j + 1] == u[..j] + [i];
    }
    assert u[..|u|] == u;
    forall i | 0 <= i < |spill| ensures HoldsAt(idBufs'[i], spill'[i], rows + blk, tgt + ct, i) {
      if i !in ct {
        SkipChunk(idBufs'[i], spill'[i], rows, tgt, blk, ct, i);
      }
    }
  }

  /** Shard i got exactly the rows a plain filter gives it, ascending, and its file holds them in that order. */
  ghost predicate IsPartition<T>(ids: seq<seq<int>>, spill: seq<seq<T>>, rows: seq<T>, tgt: seq<int>) {
    && |ids| == |spill| && |tgt| == |rows|
    && forall i :: 0 <= i < |ids| ==> ids[i] == RowsOf(tgt, i) && spill[i] == Picked(rows, RowsOf(tgt, i))
  }

  /** The streaming partition, in chunks of any size. */
  method Partition<T>(rows: seq<T>, cellOf: seq<int>, nlist: nat, shards: nat, chunk: nat)
    returns (ids: seq<seq<int>>, spill: seq<seq<T>>)
    requires shards > 0 && chunk > 0
    requires |cellOf| == |rows| && Indexes(cellOf, nlist)
    ensures |ids| == shards && IsPartition(ids, spill, rows, Targets(cellOf, nlist, shards))
  {
    ghost var tgt := Targets(cellOf, nlist, shards);
    var idBufs := seq(shards, _ => []);
    spill := seq(shards, _ => []);
    var s := 0;
    while s < |rows|
      invariant 0 <= s <= |rows| && |spill| == shards
      invariant Holds(idBufs, spill, rows[..s], tgt[..s])
    {
      var n := if chunk <= |rows| - s then chunk else |rows| - s;
      var ct := Targets(cellOf[s..s + n], nlist, shards);
      NextChunk(rows, cellOf, nlist, shards, s, n);
      idBufs, spill := SpillChunk(idBufs, spill, rows[s..s + n], ct, s, rows[..s], tgt[..s]);
      s := s + n;
      HoldsUpTo(idBufs, spill, rows[..s - n] + rows[s - n..s], tgt[..s - n] + ct, rows[..s], tgt[..s]);
    }
    ids := seq(shards, i requires 0 <= i < shards => Flatten(idBufs[i]));
    assert rows[..|rows|] == rows && tgt[..|rows|] == tgt;
    HoldsIsPartition(idBufs, ids, spill, rows, tgt);
  }

  lemma HoldsUpTo<T>(idBufs: seq<seq<seq<int>>>, spill: seq<seq<T>>, rows: seq<T>, tgt: seq<int>,
                     rows': seq<T>, tgt': seq<int>)
    requires Holds(idBufs, spill, rows, tgt) && rows == rows' && tgt == tgt'
    ensures Holds(idBufs, spill, rows', tgt')
  {}

  lemma NextChunk<T>(rows: seq<T>, cellOf: seq<int>, nlist: nat, shards: nat, s: nat, n: nat)
    requires shards > 0 && |cellOf| == |rows| && s + n <= |rows| && Indexes(cellOf, nlist)
    ensures rows[..s] + rows[s..s + n] == rows[..s + n]
    ensures Targets(cellOf, nlist, shards)[..s] + Targets(cellOf[s..s + n], nlist, shards)
            == Targets(cellOf, nlist, shards)[..s + n]
    ensures Indexes(Targets(cellOf[s..s + n], nlist, shards), shards)
  {
    TargetsInRange(cellOf[s..s + n], nlist, shards);
  }

  lemma HoldsIsPartition<T>(idBufs: seq<seq<seq<int>>>, ids: seq<seq<int>>, spill: seq<seq<T>>,
                             rows: seq<T>, tgt: seq<int>)
    requires Holds(idBufs, spill, rows, tgt) && |rows| == |tgt|
    requires |ids| == |idBufs| && forall i :: 0 <= i < |ids| ==> ids[i] == Flatten(idBufs[i])
    ensures IsPartition(ids, spill, rows, tgt)
  {
    forall i | 0 <= i < |ids| ensures ids[i] == RowsOf(tgt, i) && spill[i] == Picked(rows, RowsOf(tgt, i)) {
      assert HoldsAt(idBufs[i], spill[i], rows, tgt, i);
      MaskPicksRows(rows, tgt, i);
    }
  }

  lemma TargetsInRange(cells: seq<int>, nlist: nat, shards: nat)
    requires shards > 0 && Indexes(cells, nlist)
    ensures Indexes(Targets(cells, nlist, shards), shards)
  {
    forall r | 0 <= r < |cells| ensures Targets(cells, nlist, shards)[r] < shards {
      ShardInRange(cells[r], nlist, shards);
    }
  }

  // ------------------------------------------------------------------ what the partition promises

  /** Every row is in exactly one shard: the one whose range of cells holds its cell. */
  lemma RowLandsWhereItsCellDoes(cells: seq<int>, nlist: nat, shards: nat, r: nat, i: nat)
    requires shards > 0 && Indexes(cells, nlist) && r < |cells| && i < shards
    ensures (r in RowsOf(Targets(cells, nlist, shards), i) <==>
             Edge(i, nlist, shards) <= cells[r] < Edge(i + 1, nlist, shards))
    ensures ShardOfCell(cells[r], nlist, shards) < shards
    ensures r in RowsOf(Targets(cells, nlist, shards), i) <==> i == ShardOfCell(cells[r], nlist, shards)
  {
    ShardOwnsRange(cells[r], i, nlist, shards);
  }

  /** Rows handed out, shard after shard. */
  function TotalRows(tgt: seq<int>, shards: nat): nat {
    if shards == 0 then 0 else TotalRows(tgt, shards - 1) + |RowsOf(tgt, shards - 1)|
  }

  /** Nothing is lost or duplicated: the shards' sizes add up to the corpus. */
  lemma {:induction false} ShardsCoverCorpus(tgt: seq<int>, shards: nat)
    requires Indexes(tgt, shards)
    ensures TotalRows(tgt, shards) == |tgt|
  {
    if |tgt| == 0 {
      NoTargets(tgt, shards);
    } else {
      var n := |tgt| - 1;
      ShardsCoverCorpus(tgt[..n], shards);
      OneMoreRow(tgt, shards);
    }
  }

  lemma {:induction false} NoTargets(tgt: seq<int>, shards: nat)
    requires |tgt| == 0
    ensures TotalRows(tgt, shards) == 0
  {
    if shards == 0 {
    } else {
      NoTargets(tgt, shards - 1);
    }
  }

  lemma {:induction false} OneMoreRow(tgt: seq<int>, shards: nat)
    requires |tgt| > 0
    ensures TotalRows(tgt, shards) ==
            TotalRows(tgt[..|tgt| - 1], shards) + (if 0 <= tgt[|tgt| - 1] < shards then 1 else 0)
  {
    if shards == 0 {
    } else {
      OneMoreRow(tgt, shards - 1);
    }
  }
}
