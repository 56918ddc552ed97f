/**
 * The LRU cache simulation and its theory: a cache of capacity c always holds the c most recently
 * used ids, so an access hits exactly when fewer than c distinct ids came since the last one.
 */
module LruCache {
  import opened Blocks
  import Division
  import opened IndexSets
  import opened Wrappers

  // ------------------------------------------------------------------ recency

  /** The sequence without the last occurrence of x. */
  function Remove(s: seq<int>, x: int): seq<int> {
    if |s| == 0 then []
    else if s[|s| - 1] == x then s[..|s| - 1]
    else Remove(s[..|s| - 1], x) + [s[|s| - 1]]
  }

  /** All ids of a stream, least recently used first. */
  function Recency(stream: seq<int>): seq<int> {
    if |stream| == 0 then [] else
      var x := stream[|stream| - 1];
      Remove(Recency(stream[..|stream| - 1]), x) + [x]
  }

  /** The last c elements, or all of them. */
  function LastN(s: seq<int>, c: nat): seq<int> {
    if |s| == 0 || c == 0 then [] else LastN(s[..|s| - 1], c - 1) + [s[|s| - 1]]
  }

  /** The distinct ids accessed after the last access to x. */
  function Since(stream: seq<int>, x: int): set<int> {
    if |stream| == 0 || stream[|stream| - 1] == x then {}
    else Since(stream[..|stream| - 1], x) + {stream[|stream| - 1]}
  }

  /** The stack-distance rule: x was seen, and fewer than c distinct ids came since. */
  predicate Hits(stream: seq<int>, x: int, c: nat) {
    x in stream && |Since(stream, x)| < c
  }

  /** Accesses of a stream that hit under the stack-distance rule. */
  function HitCount(stream: seq<int>, c: nat): (n: nat)
    ensures n <= |stream|
  {
    if |stream| == 0 then 0 else
      var before, x := stream[..|stream| - 1], stream[|stream| - 1];
      HitCount(before, c) + if Hits(before, x, c) then 1 else 0
  }

  // ------------------------------------------------------------------ the simulation

  datatype CacheError = KeyError | ZeroDivision

  datatype Stats = Stats(hits: nat, misses: nat, hitRate: real, capacity: int)

  function HitRate(hits: nat, total: nat): real {
    if total > 0 then hits as real / total as real else 0.0
  }

  /** The statistics the stack-distance rule predicts. */
  function LruStats(capacity: int, stream: seq<int>): Stats {
    var hits := if capacity > 0 then HitCount(stream, capacity) else 0;
    Stats(hits, |stream| - hits, HitRate(hits, |stream|), capacity)
  }

  /** Hits and misses are all accesses, and the rate is the hits per access; 0 without accesses. */
  lemma StatsAddUp(capacity: int, stream: seq<int>)
    ensures var stats := LruStats(capacity, stream);
            && stats.hits + stats.misses == |stream|
            && stats.hitRate * |stream| as real == stats.hits as real
            && (stream == [] ==> stats.hitRate == 0.0)
            && (capacity <= 0 ==> stats.hits == 0)
  {
    var stats := LruStats(capacity, stream);
    if stream != [] {
      QuotientTimes(stats.hits as real, |stream| as real);
    }
  }

  lemma QuotientTimes(a: real, c: real)
    requires c > 0.0
    ensures a / c * c == a
  {}

  /** After the accesses in seen, the cache is the most recent ids and the hits are those predicted. */
  ghost predicate Simulates(entries: seq<int>, hits: int, seen: seq<int>, c: nat) {
    entries == LastN(Recency(seen), c) && hits == HitCount(seen, c)
  }

  lemma AccessKeeps(entries: seq<int>, hits: int, seen: seq<int>, x: int, c: nat)
    requires c > 0 && Simulates(entries, hits, seen, c)
    ensures Simulates(Touched(entries, x, c), hits + if x in entries then 1 else 0, seen + [x], c)
    ensures |entries| <= c
  {
    AccessIsLru(seen, x, c);
    AccessCounts(seen, x, c);
  }

  /**
   * Simulate a cache of the given capacity on a stream of ids. A cache without room for one entry
   * fails on its first access, when the empty dict is popped.
   */
  method SimulateLruCache(capacity: int, stream: seq<int>) returns (r: Result<Stats, CacheError>, ghost cache: seq<int>)
    ensures r == if capacity <= 0 && stream != [] then Failure(KeyError) else Success(LruStats(capacity, stream))
    ensures r.Success? && capacity > 0 ==> cache == LastN(Recency(stream), capacity)
  {
    var entries, hits, misses := [], 0, 0;
    for i := 0 to |stream|
      invariant i > 0 ==> capacity > 0
      invariant hits + misses == i && (i == 0 ==> entries == [])
      invariant capacity > 0 ==> Simulates(entries, hits, stream[..i], capacity)
    {
      var x := stream[i];
      ghost var kept, before := entries, hits;
      assert stream[..i + 1] == stream[..i] + [x];
      if capacity > 0 {
        AccessKeeps(entries, hits, stream[..i], x, capacity);
      }
      if x in entries {
        entries := Remove(entries, x) + [x];
        hits := hits + 1;
      } else {
        misses := misses + 1;
        if |entries| >= capacity {
          if entries == [] {
            return Failure(KeyError), [];
          }
          entries := entries[1..];
        }
        entries := entries + [x];
      }
      assert entries == Touched(kept, x, capacity) && hits == before + if x in kept then 1 else 0;
    }
    assert stream[..|stream|] == stream;
    return Success(Stats(hits, misses, HitRate(hits, hits + misses), capacity)), entries;
  }

  // ------------------------------------------------------------------ why it is LRU

  lemma {:induction false} RemoveMembers(s: seq<int>, x: int)
    ensures x !in s ==> Remove(s, x) == s
    ensures forall y :: y != x ==> (y in Remove(s, x) <==> y in s)
  {
    if |s| == 0 {
    } else {
      assert s == s[..|s| - 1] + [s[|s| - 1]];
      RemoveMembers(s[..|s| - 1], x);
    }
  }

  lemma {:induction false} LastNLength(s: seq<int>, c: nat)
    ensures |LastN(s, c)| == if |s| < c then |s| else c
    ensures |s| <= c ==> LastN(s, c) == s
  {
    if |s| == 0 || c == 0 {
    } else {
      LastNLength(s[..|s| - 1], c - 1);
    }
  }

  /** Removing an id from the last c leaves the last c - 1 of the others. */
  lemma {:induction false} RemoveFromLastN(s: seq<int>, x: int, c: nat)
    requires c > 0 && x in LastN(s, c)
    ensures LastN(Remove(s, x), c - 1) == Remove(LastN(s, c), x)
  {
    var n := |s| - 1;
    var last, rest := s[n], LastN(s[..n], c - 1);
    assert (rest + [last])[..|rest|] == rest;
    if last == x {
    } else {
      RemoveFromLastN(s[..n], x, c - 1);
      var r := Remove(s[..n], x);
      assert (r + [last])[..|r|] == r;
    }
  }

  /** Removing an id that is older than the last c leaves them alone. */
  lemma {:induction false} RemoveOlder(s: seq<int>, x: int, c: nat)
    requires x !in LastN(s, c)
    ensures LastN(Remove(s, x), c) == LastN(s, c)
  {
    if |s| == 0 || c == 0 {
    } else {
      var n := |s| - 1;
      var r := Remove(s[..n], x);
      RemoveOlder(s[..n], x, c - 1);
      assert (r + [s[n]])[..|r|] == r;
    }
  }

  lemma {:induction false} LastNShorter(s: seq<int>, c: nat)
    requires c > 0 && |s| >= c
    ensures LastN(s, c)[1..] == LastN(s, c - 1)
  {
    LastNLength(s, c);
    if c == 1 {
    } else {
      var n := |s| - 1;
      LastNLength(s[..n], c - 1);
      LastNShorter(s[..n], c - 1);
      RestOfAppended(LastN(s[..n], c - 1), s[n]);
    }
  }

  lemma RestOfAppended(a: seq<int>, x: int)
    requires |a| > 0
    ensures (a + [x])[1..] == a[1..] + [x]
  {}

  lemma {:induction false} MembersOfShorter(s: seq<int>, x: int, c: nat)
    requires c > 0 && x !in LastN(s, c)
    ensures x !in LastN(s, c - 1)
  {
    if |s| == 0 || c == 1 {
    } else {
      MembersOfShorter(s[..|s| - 1], x, c - 1);
    }
  }

  /** Some access of x: the ids after it in recency order are those accessed since. */
  lemma InLastNWhenRecent(stream: seq<int>, x: int, c: nat)
    requires x in stream
    ensures x in LastN(Recency(stream), c) <==> |Since(stream, x)| < c
  {
    RecencyMembers(stream);
    RecencyDistinct(stream);
    AfterInRecency(stream, x);
    InLastNWhenFewAfter(Recency(stream), x, c);
  }

  lemma {:induction false} RecencyMembers(stream: seq<int>)
    ensures forall y :: y in Recency(stream) <==> y in stream
  {
    if |stream| == 0 {
    } else {
      var before, x := stream[..|stream| - 1], stream[|stream| - 1];
      assert stream == before + [x];
      RecencyMembers(before);
      RemoveMembers(Recency(before), x);
    }
  }

  lemma {:induction false} RemoveDistinct(s: seq<int>, x: int)
    requires Distinct(s)
    ensures Distinct(Remove(s, x)) && x !in Remove(s, x)
  {
    if |s| == 0 || s[|s| - 1] == x {
    } else {
      RemoveDistinct(s[..|s| - 1], x);
      RemoveMembers(s[..|s| - 1], x);
      assert s[|s| - 1] !in s[..|s| - 1];
    }
  }

  lemma {:induction false} RecencyDistinct(stream: seq<int>)
    ensures Distinct(Recency(stream))
  {
    if |stream| == 0 {
    } else {
      RecencyDistinct(stream[..|stream| - 1]);
      RemoveDistinct(Recency(stream[..|stream| - 1]), stream[|stream| - 1]);
    }
  }

  lemma {:induction false} SinceRemove(s: seq<int>, x: int, y: int)
    requires Distinct(s) && x in s && x != y
    ensures Since(Remove(s, y), x) == Since(s, x) - {y}
  {
    var n := |s| - 1;
    assert s == s[..n] + [s[n]];
    if s[n] == y {
      SinceMembers(s[..n], x, y);
    } else if s[n] != x {
      SinceRemove(s[..n], x, y);
      var r := Remove(s[..n], y);
      assert (r + [s[n]])[..|r|] == r;
    }
  }

  lemma {:induction false} SinceMembers(s: seq<int>, x: int, y: int)
    requires y !in s
    ensures y !in Since(s, x)
  {
    if |s| == 0 || s[|s| - 1] == x {
    } else {
      SinceMembers(s[..|s| - 1], x, y);
    }
  }

  lemma {:induction false} AfterInRecency(stream: seq<int>, x: int)
    requires x in stream
    ensures Since(Recency(stream), x) == Since(stream, x)
  {
    var before, y := stream[..|stream| - 1], stream[|stream| - 1];
    assert stream == before + [y];
    var r := Remove(Recency(before), y);
    assert (r + [y])[..|r|] == r;
    if y == x {
    } else {
      AfterInRecency(before, x);
      RecencyMembers(before);
      RecencyDistinct(before);
      SinceRemove(Recency(before), x, y);
    }
  }

  lemma {:induction false} InLastNWhenFewAfter(s: seq<int>, x: int, c: nat)
    requires Distinct(s) && x in s
    ensures x in LastN(s, c) <==> |Since(s, x)| < c
  {
    var n := |s| - 1;
    assert s == s[..n] + [s[n]];
    if s[n] == x {
    } else if c > 0 {
      InLastNWhenFewAfter(s[..n], x, c - 1);
      SinceMembers(s[..n], x, s[n]);
    }
  }

  /** What one access leaves in a cache of capacity c. */
  function Touched(kept: seq<int>, x: int, c: int): seq<int> {
    (if x in kept then Remove(kept, x) else if |kept| >= c && kept != [] then kept[1..] else kept) + [x]
  }

  /** One access of the simulation, seen through recency. */
  lemma AccessIsLru(before: seq<int>, x: int, c: nat)
    requires c > 0
    ensures LastN(Recency(before + [x]), c) == Touched(LastN(Recency(before), c), x, c)
    ensures |LastN(Recency(before), c)| <= c
  {
    assert (before + [x])[..|before|] == before;
    TouchedIsLastN(Recency(before), x, c);
  }

  lemma TouchedIsLastN(r: seq<int>, x: int, c: nat)
    requires c > 0
    ensures LastN(Remove(r, x) + [x], c) == Touched(LastN(r, c), x, c)
    ensures |LastN(r, c)| <= c
  {
    LastNNext(Remove(r, x), x, c);
    LastNLength(r, c);
    if x in LastN(r, c) {
      RemoveFromLastN(r, x, c);
    } else {
      MissOnLastN(r, x, c);
    }
  }

  lemma LastNNext(s: seq<int>, x: int, c: nat)
    requires c > 0
    ensures LastN(s + [x], c) == LastN(s, c - 1) + [x]
  {
    assert (s + [x])[..|s|] == s;
  }

  /** A missed id is older than the last c, so only the oldest of these has to go, if there are c. */
  ghost predicate MissDropsOldest(r: seq<int>, x: int, c: nat)
    requires c > 0
  {
    x !in LastN(r, c) ==>
      && |LastN(r, c)| == (if |r| < c then |r| else c)
      && LastN(Remove(r, x), c - 1) == if |r| >= c then LastN(r, c)[1..] else LastN(r, c)
  }

  lemma MissOnLastN(r: seq<int>, x: int, c: nat)
    requires c > 0
    ensures MissDropsOldest(r, x, c)
  {
    LastNLength(r, c);
    if x !in LastN(r, c) {
      MembersOfShorter(r, x, c);
      RemoveOlder(r, x, c - 1);
      if |r| >= c {
        LastNShorter(r, c);
      } else {
        LastNLength(r, c - 1);
      }
    }
  }

  /** It hits exactly by the stack-distance rule. */
  lemma AccessCounts(before: seq<int>, x: int, c: nat)
    ensures x in LastN(Recency(before), c) <==> Hits(before, x, c)
    ensures HitCount(before + [x], c) == HitCount(before, c) + if x in LastN(Recency(before), c) then 1 else 0
  {
    assert (before + [x])[..|before|] == before;
    if x in before {
      InLastNWhenRecent(before, x, c);
    } else {
      RecencyMembers(before);
      LastNMembers(Recency(before), x, c);
    }
  }

  lemma {:induction false} LastNMembers(s: seq<int>, x: int, c: nat)
    requires x !in s
    ensures x !in LastN(s, c)
  {
    if |s| == 0 || c == 0 {
    } else {
      LastNMembers(s[..|s| - 1], x, c - 1);
    }
  }

  // ------------------------------------------------------------------ larger caches

  /** The contents of a smaller cache are the most recent entries of a larger one. */
  lemma SmallerCacheIncluded(stream: seq<int>, c1: nat, c2: nat)
    requires c1 <= c2
    ensures LastN(Recency(stream), c1) == LastN(LastN(Recency(stream), c2), c1)
  {
    LastNTwice(Recency(stream), c1, c2);
  }

  lemma {:induction false} LastNTwice(s: seq<int>, c1: nat, c2: nat)
    requires c1 <= c2
    ensures LastN(LastN(s, c2), c1) == LastN(s, c1)
  {
    if |s| == 0 || c1 == 0 {
    } else {
      var n := |s| - 1;
      LastNTwice(s[..n], c1 - 1, c2 - 1);
      var r := LastN(s[..n], c2 - 1);
      assert (r + [s[n]])[..|r|] == r;
    }
  }

  lemma {:induction false} LargerCacheHitsMore(stream: seq<int>, c1: nat, c2: nat)
    requires c1 <= c2
    ensures HitCount(stream, c1) <= HitCount(stream, c2)
  {
    if |stream| == 0 {
    } else {
      LargerCacheHitsMore(stream[..|stream| - 1], c1, c2);
    }
  }

  // ------------------------------------------------------------------ the benchmark

  /** Bytes per compressed embedding: packed codes and a float32 norm. */
  function CompressedSize(dim: nat, bits: nat): nat {
    (if bits == 3 then (dim * 3 + 7) / 8
     else if bits == 2 then (dim + 3) / 4
     else if bits == 4 then (dim + 1) / 2
     else dim) + 4
  }

  function Float32Size(dim: nat): nat { dim * 4 }

  /** Entries of the given size that fit in a cache of memoryMb megabytes. */
  function Capacity(memoryMb: nat, size: nat): nat
    requires size > 0
  {
    Division.Decompose(memoryMb * 1024 * 1024, size);
    memoryMb * 1024 * 1024 / size
  }

  /** The codes of an embedding take the fewest bytes that hold them, a byte per code at other widths. */
  lemma SizesAreLeast(dim: nat, bits: nat)
    ensures var width := if bits in {2, 3, 4} then bits else 8;
            dim * width <= 8 * (CompressedSize(dim, bits) - 4) < dim * width + 8
    ensures 8 * Float32Size(dim) == 32 * dim
  {
    if bits == 3 {
      Division.Decompose(dim * 3 + 7, 8);
    } else if bits == 2 {
      Division.Decompose(dim + 3, 4);
    } else if bits == 4 {
      Division.Decompose(dim + 1, 2);
    }
  }

  /** The capacity is the largest number of entries that fit in the memory. */
  lemma CapacityIsLargest(memoryMb: nat, size: nat, entries: nat)
    requires size > 0
    ensures entries <= Capacity(memoryMb, size) <==> entries * size <= memoryMb * 1048576
  {
    var bytes, c := memoryMb * 1024 * 1024, Capacity(memoryMb, size);
    Division.Decompose(bytes, size);
    if entries <= c {
      Division.MulMonotone(entries, c, size);
    } else {
      assert (c + 1) * size == c * size + size;
      Division.MulMonotone(c + 1, entries, size);
    }
  }

  datatype Report = Report(uncompressed: Stats, compressed: Stats, improvement: real)

  /** Compare caches of uncompressed and compressed embeddings in the same memory. */
  method BenchmarkCacheHitRate(memoryMb: nat, dim: nat, bits: nat, stream: seq<int>)
    returns (r: Result<Report, CacheError>)
    ensures dim == 0 ==> r == Failure(ZeroDivision)
    ensures dim > 0 ==>
      var c1, c2 := Capacity(memoryMb, Float32Size(dim)), Capacity(memoryMb, CompressedSize(dim, bits));
      && (r.Failure? <==> stream != [] && (c1 == 0 || c2 == 0))
      && (r.Failure? ==> r.error == KeyError)
      && (r.Success? ==>
          && r.value.uncompressed == LruStats(c1, stream) && r.value.compressed == LruStats(c2, stream)
          && r.value.improvement == r.value.compressed.hitRate - r.value.uncompressed.hitRate)
      && (r.Success? && dim >= 2 ==> r.value.improvement >= 0.0)
  {
    var float32Size, compressedSize := Float32Size(dim), CompressedSize(dim, bits);
    if float32Size == 0 {
      return Failure(ZeroDivision);
    }
    var c1, c2 := Capacity(memoryMb, float32Size), Capacity(memoryMb, compressedSize);
    var uncompressed, cache1 := SimulateLruCache(c1, stream);
    if uncompressed.Failure? {
      return Failure(uncompressed.error);
    }
    var compressed, cache2 := SimulateLruCache(c2, stream);
    if compressed.Failure? {
      return Failure(compressed.error);
    }
    if dim >= 2 && c1 > 0 {
      CapacityIsMonotone(memoryMb, compressedSize, float32Size);
      LargerCacheHitsMore(stream, c1, c2);
      HitRateIsMonotone(HitCount(stream, c1), HitCount(stream, c2), |stream|);
    }
    var improvement := compressed.value.hitRate - uncompressed.value.hitRate;
    return Success(Report(uncompressed.value, compressed.value, improvement));
  }

  lemma HitRateIsMonotone(few: nat, many: nat, total: nat)
    requires few <= many
    ensures HitRate(few, total) <= HitRate(many, total)
  {
    if total > 0 {
      QuotientIsMonotone(few as real, many as real, total as real);
    }
  }

  lemma QuotientIsMonotone(a: real, b: real, c: real)
    requires a <= b && c > 0.0
    ensures a / c <= b / c
  {
    assert b / c - a / c == (b - a) / c;
  }

  lemma CapacityIsMonotone(memoryMb: nat, small: nat, large: nat)
    requires 0 < small <= large
    ensures Capacity(memoryMb, large) <= Capacity(memoryMb, small)
  {
    var bytes := memoryMb * 1024 * 1024;
    Division.Decompose(bytes, large);
    Division.Decompose(bytes, small);
    SmallerDivisor(bytes, small, bytes / small, bytes % small, large, bytes / large);
  }

  lemma SmallerDivisor(bytes: nat, small: nat, p: nat, rest: nat, large: nat, q: nat)
    requires small <= large && bytes == p * small + rest && rest < small && bytes >= q * large
    ensures q <= p
  {
    assert large * q == q * large && small * q == q * small && (p + 1) * small == p * small + small;
    Division.MulMonotone(small, large, q);
    if p + 1 <= q {
      Division.MulMonotone(p + 1, q, small);
      assert false;
    }
  }

  // ------------------------------------------------------------------ when it cannot lose

  /** Hit rates at equal memory and on equal streams, as a comparison of hits. */
  ghost predicate NeverLoses(dim: nat, bits: nat)
    requires dim > 0
  {
    forall memoryMb: nat, stream: seq<int> :: memoryMb > 0 ==>
      HitCount(stream, Capacity(memoryMb, Float32Size(dim)))
      <= HitCount(stream, Capacity(memoryMb, CompressedSize(dim, bits)))
  }

  /**
   * The compressed cache never hits less, for all budgets and streams, if and only if dim >= 2: at
   * dim 1 the codes and the norm take five bytes where the float takes four.
   */
  lemma NeverLosesExactlyFromDimTwo(dim: nat, bits: nat)
    requires dim > 0
    ensures NeverLoses(dim, bits) <==> dim >= 2
  {
    if dim >= 2 {
      forall memoryMb: nat, stream: seq<int> | memoryMb > 0
        ensures HitCount(stream, Capacity(memoryMb, Float32Size(dim)))
             <= HitCount(stream, Capacity(memoryMb, CompressedSize(dim, bits)))
      {
        CapacityIsMonotone(memoryMb, CompressedSize(dim, bits), Float32Size(dim));
        LargerCacheHitsMore(stream, Capacity(memoryMb, Float32Size(dim)),
                            Capacity(memoryMb, CompressedSize(dim, bits)));
      }
    } else {
      assert Capacity(1, Float32Size(dim)) == 262144 && Capacity(1, CompressedSize(dim, bits)) == 209715;
      FloodedCacheNeverHits(262144, 209715);
      FullCacheHits(262144);
    }
  }

  /** The ids 0 .. n-1, twice over. */
  function Flood(n: nat): seq<int> {
    seq(2 * n, i => if i < n then i else i - n)
  }

  /** On its second round each id comes back after n - 1 others. */
  lemma FloodDistance(n: nat, p: nat)
    requires p < 2 * n
    ensures var f := Flood(n);
            f[p] in f[..p] <==> p >= n
    ensures p >= n ==> |Since(Flood(n)[..p], Flood(n)[p])| == n - 1
  {
    var f := Flood(n);
    var x := f[p];
    if p >= n {
      var between := f[x + 1..p];
      assert f[..p][x] == x && f[..p][x + 1..] == between;
      forall y ensures y in between <==> 0 <= y < n && y != x {
        FloodBetween(n, p, y);
      }
      SinceLastAt(f[..p], x, x);
      assert Elements(between) == Ids(n) - {x};
    }
  }

  lemma FloodBetween(n: nat, p: nat, y: int)
    requires n <= p < 2 * n
    ensures y in Flood(n)[p - n + 1..p] <==> 0 <= y < n && y != p - n
  {
    var f, x := Flood(n), p - n;
    var between := f[x + 1..p];
    if y in between {
      var i :| 0 <= i < |between| && between[i] == y;
      assert y == f[x + 1 + i];
    }
    if 0 <= y < n && y != x {
      var i := if y > x then y else y + n;
      assert between[i - x - 1] == f[i] == y;
    }
  }

  lemma SinceLastAt(s: seq<int>, x: int, k: nat)
    requires k < |s| && s[k] == x && x !in s[k + 1..]
    ensures Since(s, x) == Elements(s[k + 1..])
  {
    CutAt(s, k);
    SinceAfter(s[..k], x, s[k + 1..]);
  }

  lemma {:induction false} SinceAfter(front: seq<int>, x: int, rest: seq<int>)
    requires x !in rest
    ensures Since(front + [x] + rest, x) == Elements(rest)
  {
    if |rest| == 0 {
      assert front + [x] + rest == front + [x];
    } else {
      var init, last := rest[..|rest| - 1], rest[|rest| - 1];
      LastApart(rest);
      Associative(front + [x], init, [last]);
      SinceAfter(front, x, init);
      SinceNext(front + [x] + init, last, x);
    }
  }

  lemma SinceNext(stream: seq<int>, y: int, x: int)
    requires y != x
    ensures Since(stream + [y], x) == Since(stream, x) + {y}
  {
    assert (stream + [y])[..|stream|] == stream;
  }

  lemma FloodedCacheNeverHits(n: nat, c: nat)
    requires c < n
    ensures HitCount(Flood(n), c) == 0
  {
    FloodPrefixNeverHits(n, c, 2 * n);
    assert Flood(n)[..2 * n] == Flood(n);
  }

  lemma {:induction false} FloodPrefixNeverHits(n: nat, c: nat, p: nat)
    requires c < n && p <= 2 * n
    ensures HitCount(Flood(n)[..p], c) == 0
  {
    if p == 0 {
    } else {
      FloodPrefixNeverHits(n, c, p - 1);
      assert Flood(n)[..p][..p - 1] == Flood(n)[..p - 1];
      FloodDistance(n, p - 1);
    }
  }

  lemma FullCacheHits(n: nat)
    requires n > 0
    ensures HitCount(Flood(n), n) > 0
  {
    var f := Flood(n);
    FloodDistance(n, 2 * n - 1);
    assert f[..2 * n - 1] == f[..|f| - 1];
  }
}
