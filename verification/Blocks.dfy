/** Cutting a sequence into consecutive blocks and putting it back together. */
module Blocks {
  import opened IndexSets

  function Flatten<T>(blocks: seq<seq<T>>): seq<T> {
    if |blocks| == 0 then [] else Flatten(blocks[..|blocks| - 1]) + blocks[|blocks| - 1]
  }

  lemma Associative<T>(a: seq<T>, b: seq<T>, c: seq<T>)
    ensures a + b + c == a + (b + c)
  {}

  lemma LastApart<T>(a: seq<T>)
    requires |a| > 0
    ensures a == a[..|a| - 1] + [a[|a| - 1]]
  {}

  lemma ConcatAt<T>(a: seq<T>, b: seq<T>, i: nat)
    requires i < |a| + |b|
    ensures (a + b)[i] == if i < |a| then a[i] else b[i - |a|]
  {}

  lemma CutAt<T>(a: seq<T>, i: nat)
    requires i < |a|
    ensures a == a[..i] + [a[i]] + a[i + 1..]
  {}

  lemma {:induction false} FlattenConcat<T>(a: seq<seq<T>>, b: seq<seq<T>>)
    ensures Flatten(a + b) == Flatten(a) + Flatten(b)
  {
    if |b| == 0 {
      assert a + b == a;
    } else {
      var init, last := b[..|b| - 1], b[|b| - 1];
      FlattenConcat(a, init);
      Associative(a, init, [last]);
      Associative(Flatten(a), Flatten(init), last);
      FlattenLast(a + init, last);
      assert b == init + [last];
    }
  }

  lemma FlattenLast<T>(blocks: seq<seq<T>>, x: seq<T>)
    ensures Flatten(blocks + [x]) == Flatten(blocks) + x
  {
    assert (blocks + [x])[..|blocks|] == blocks;
  }

  lemma {:induction false} FlattenFirst<T>(blocks: seq<seq<T>>)
    requires |blocks| > 0
    ensures Flatten(blocks) == blocks[0] + Flatten(blocks[1..])
  {
    var n := |blocks| - 1;
    if n == 0 {
      assert Flatten(blocks) == Flatten(blocks[..0]) + blocks[0];
    } else {
      FlattenFirst(blocks[..n]);
      RestOfInit(blocks);
      Associative(blocks[0], Flatten(blocks[1..][..n - 1]), blocks[n]);
    }
  }

  lemma RestOfInit<T>(a: seq<T>)
    requires |a| > 1
    ensures a[..|a| - 1][1..] == a[1..][..|a| - 2]
  {}

  /** Consecutive slices of the given size, the last one possibly shorter. */
  function Chunks<T>(x: seq<T>, size: nat): seq<seq<T>>
    requires size > 0
  {
    if |x| == 0 then []
    else if |x| <= size then [x]
    else [x[..size]] + Chunks(x[size..], size)
  }

  lemma {:induction false} FlattenChunks<T>(x: seq<T>, size: nat)
    requires size > 0
    ensures Flatten(Chunks(x, size)) == x
  {
    if |x| == 0 {
    } else if |x| <= size {
      FlattenOne(x);
    } else {
      FlattenChunks(x[size..], size);
      FlattenConcat([x[..size]], Chunks(x[size..], size));
      FlattenOne(x[..size]);
    }
  }

  lemma FlattenOne<T>(x: seq<T>)
    ensures Flatten([x]) == x
  {
    assert Flatten([x]) == Flatten([x][..0]) + x;
  }

  /** Every shard cut into sub-blocks, shard after shard. */
  function SubBlocks<T>(shards: seq<seq<T>>, size: nat): seq<seq<T>>
    requires size > 0
  {
    if |shards| == 0 then []
    else SubBlocks(shards[..|shards| - 1], size) + Chunks(shards[|shards| - 1], size)
  }

  lemma {:induction false} FlattenSubBlocks<T>(shards: seq<seq<T>>, size: nat)
    requires size > 0
    ensures Flatten(SubBlocks(shards, size)) == Flatten(shards)
  {
    if |shards| == 0 {
    } else {
      var n := |shards| - 1;
      FlattenSubBlocks(shards[..n], size);
      FlattenConcat(SubBlocks(shards[..n], size), Chunks(shards[n], size));
      FlattenChunks(shards[n], size);
    }
  }

  lemma {:induction false} ChunksNotEmpty<T>(x: seq<T>, size: nat)
    requires size > 0
    ensures forall i :: 0 <= i < |Chunks(x, size)| ==> |Chunks(x, size)[i]| > 0
  {
    if |x| <= size {
    } else {
      ChunksNotEmpty(x[size..], size);
    }
  }

  lemma {:induction false} SubBlocksNotEmpty<T>(shards: seq<seq<T>>, size: nat)
    requires size > 0
    ensures forall i :: 0 <= i < |SubBlocks(shards, size)| ==> |SubBlocks(shards, size)[i]| > 0
  {
    if |shards| == 0 {
    } else {
      SubBlocksNotEmpty(shards[..|shards| - 1], size);
      ChunksNotEmpty(shards[|shards| - 1], size);
    }
  }

  // ------------------------------------------------------------------ slices at given bounds

  ghost predicate AreBounds(bounds: seq<int>, n: nat) {
    && |bounds| > 0 && bounds[0] == 0 && bounds[|bounds| - 1] == n && Ascending(bounds)
  }

  /** x[bounds[0]..bounds[1]], x[bounds[1]..bounds[2]], ... */
  function Slices<T>(x: seq<T>, bounds: seq<int>): (blocks: seq<seq<T>>)
    requires |bounds| > 0
    requires forall i :: 0 <= i < |bounds| ==> 0 <= bounds[i] <= |x|
    requires forall i :: 0 <= i < |bounds| - 1 ==> bounds[i] <= bounds[i + 1]
    ensures |blocks| == |bounds| - 1
    ensures forall i :: 0 <= i < |blocks| ==> blocks[i] == x[bounds[i]..bounds[i + 1]]
  {
    seq(|bounds| - 1, i requires 0 <= i < |bounds| - 1 => x[bounds[i]..bounds[i + 1]])
  }

  lemma {:induction false} FlattenSlices<T>(x: seq<T>, bounds: seq<int>)
    requires |bounds| > 0 && bounds[0] == 0 && Ascending(bounds)
    requires forall i :: 0 <= i < |bounds| ==> 0 <= bounds[i] <= |x|
    ensures Flatten(Slices(x, bounds)) == x[..bounds[|bounds| - 1]]
  {
    var n := |bounds| - 1;
    if n == 0 {
    } else {
      FlattenSlices(x, bounds[..n]);
      LastSlice(x, bounds);
      FlattenLast(Slices(x, bounds[..n]), x[bounds[n - 1]..bounds[n]]);
      SplitAt(x, bounds[n - 1], bounds[n]);
    }
  }

  lemma LastSlice<T>(x: seq<T>, bounds: seq<int>)
    requires |bounds| > 1 && Ascending(bounds)
    requires forall i :: 0 <= i < |bounds| ==> 0 <= bounds[i] <= |x|
    ensures var n := |bounds| - 1;
            Slices(x, bounds) == Slices(x, bounds[..n]) + [x[bounds[n - 1]..bounds[n]]]
  {}

  lemma SplitAt<T>(x: seq<T>, i: nat, j: nat)
    requires i <= j <= |x|
    ensures x[..j] == x[..i] + x[i..j]
  {}
}
