/** Cutting the coarse cells 0, ..., nlist - 1 into one contiguous range per shard, in two ways. */
module ShardMap {
  import opened Division
  import opened IndexSets

  /** Where x goes after its equals: searchsorted on the right. */
  function SearchRight(a: seq<int>, x: int): (p: nat)
    requires Ascending(a)
    ensures p <= |a|
    ensures forall i :: 0 <= i < p ==> a[i] <= x
    ensures forall i :: p <= i < |a| ==> x < a[i]
  {
    if |a| == 0 || a[|a| - 1] <= x then |a| else SearchRight(a[..|a| - 1], x)
  }

  // ------------------------------------------------------------------ whole-number edges

  /** The i-th of shards + 1 evenly spaced edges from 0 to nlist, rounded down. */
  function Edge(i: nat, nlist: nat, shards: nat): nat
    requires shards > 0
  {
    i * nlist / shards
  }

  lemma EdgeMonotone(i: nat, j: nat, nlist: nat, shards: nat)
    requires shards > 0 && i <= j
    ensures Edge(i, nlist, shards) <= Edge(j, nlist, shards)
  {
    MulMonotone(i, j, nlist);
    DivideMonotone(i * nlist, j * nlist, shards);
  }

  lemma EdgeEnds(nlist: nat, shards: nat)
    requires shards > 0
    ensures Edge(0, nlist, shards) == 0 && Edge(shards, nlist, shards) == nlist
  {
    QuotientRemainder(0, 0, shards, 0);
    assert shards * nlist == nlist * shards;
    QuotientRemainder(shards * nlist, nlist, shards, 0);
  }

  function InnerEdges(nlist: nat, shards: nat): (edges: seq<int>)
    requires shards > 0
    ensures |edges| == shards - 1
    ensures forall i :: 0 <= i < |edges| ==> edges[i] == Edge(i + 1, nlist, shards)
    ensures Ascending(edges)
  {
    var edges := seq(shards - 1, i requires 0 <= i < shards - 1 => Edge(i + 1, nlist, shards));
    InnerAscending(edges, nlist, shards);
    edges
  }

  lemma InnerAscending(edges: seq<int>, nlist: nat, shards: nat)
    requires shards > 0 && forall i :: 0 <= i < |edges| ==> edges[i] == Edge(i + 1, nlist, shards)
    ensures Ascending(edges)
  {
    forall i, j | 0 <= i < j < |edges| ensures edges[i] <= edges[j] {
      EdgeMonotone(i + 1, j + 1, nlist, shards);
    }
  }

  function ShardOfCell(c: int, nlist: nat, shards: nat): nat
    requires shards > 0
  {
    SearchRight(InnerEdges(nlist, shards), c)
  }

  /** Shard i owns exactly the cells from its edge up to the next. */
  lemma ShardOwnsRange(c: nat, i: nat, nlist: nat, shards: nat)
    requires shards > 0 && c < nlist
    ensures ShardOfCell(c, nlist, shards) < shards
    ensures (ShardOfCell(c, nlist, shards) == i <==>
             i < shards && Edge(i, nlist, shards) <= c < Edge(i + 1, nlist, shards))
  {
    var p := ShardOfCell(c, nlist, shards);
    ShardInRange(c, nlist, shards);
    if i < shards && Edge(i, nlist, shards) <= c < Edge(i + 1, nlist, shards) {
      if i < p {
        EdgeMonotone(i + 1, p, nlist, shards);
      } else if p < i {
        EdgeMonotone(p + 1, i, nlist, shards);
      }
    }
  }

  lemma ShardInRange(c: nat, nlist: nat, shards: nat)
    requires shards > 0 && c < nlist
    ensures ShardOfCell(c, nlist, shards) < shards
    ensures Edge(ShardOfCell(c, nlist, shards), nlist, shards) <= c
         < Edge(ShardOfCell(c, nlist, shards) + 1, nlist, shards)
  {
    EdgeEnds(nlist, shards);
    var edges, p := InnerEdges(nlist, shards), ShardOfCell(c, nlist, shards);
    if p > 0 {
      assert edges[p - 1] == Edge(p, nlist, shards);
    }
    if p < |edges| {
      assert edges[p] == Edge(p + 1, nlist, shards);
    }
  }

  lemma ShardMonotone(c: nat, d: nat, nlist: nat, shards: nat)
    requires shards > 0 && c <= d < nlist
    ensures ShardOfCell(c, nlist, shards) <= ShardOfCell(d, nlist, shards)
  {
    var p, q := ShardOfCell(c, nlist, shards), ShardOfCell(d, nlist, shards);
    ShardInRange(c, nlist, shards);
    ShardInRange(d, nlist, shards);
    if q < p {
      EdgeMonotone(q + 1, p, nlist, shards);
    }
  }

  // ------------------------------------------------------------------ unrounded edges

  /** Cell c lies on or past the unrounded edge i * nlist / shards. */
  predicate PastEdge(c: int, i: nat, nlist: nat, shards: nat) {
    i * nlist <= c * shards
  }

  /** Cell c lies between the unrounded edges of shard i. */
  predicate PlacedIn(c: int, i: nat, nlist: nat, shards: nat) {
    PastEdge(c, i, nlist, shards) && !PastEdge(c, i + 1, nlist, shards)
  }

  /** Rounding the edges down hands a cell over early exactly when it holds an edge in its inside. */
  lemma RoundedEdge(c: nat, i: nat, nlist: nat, shards: nat)
    requires shards > 0
    ensures PastEdge(c, i, nlist, shards) ==> Edge(i, nlist, shards) <= c
    ensures Edge(i, nlist, shards) < c ==> PastEdge(c, i, nlist, shards)
    ensures (PastEdge(Edge(i, nlist, shards), i, nlist, shards) <==> i * nlist % shards == 0)
  {
    var e := Edge(i, nlist, shards);
    Decompose(i * nlist, shards);
    if c < e {
      MulMonotone(c + 1, e, shards);
      assert (c + 1) * shards == c * shards + shards;
    }
    if e < c {
      MulMonotone(e + 1, c, shards);
      assert (e + 1) * shards == e * shards + shards;
    }
  }

  ghost predicate SameShards(nlist: nat, shards: nat)
    requires shards > 0
  {
    forall c, i :: 0 <= c < nlist && 0 <= i < shards ==>
      (ShardOfCell(c, nlist, shards) == i <==> PlacedIn(c, i, nlist, shards))
  }

  /** The two ways of cutting the cells agree exactly when they divide evenly. */
  lemma CutsAgreeExactlyWhen(nlist: nat, shards: nat)
    requires shards > 0
    ensures SameShards(nlist, shards) <==> nlist % shards == 0
  {
    if nlist % shards == 0 {
      forall c, i | 0 <= c < nlist && 0 <= i < shards
        ensures ShardOfCell(c, nlist, shards) == i <==> PlacedIn(c, i, nlist, shards) {
        EvenCuts(c, i, nlist, shards);
      }
    } else {
      UnevenCut(nlist, shards);
    }
  }

  lemma EvenEdge(i: nat, nlist: nat, shards: nat)
    requires shards > 0 && nlist % shards == 0
    ensures i * nlist % shards == 0
  {
    Decompose(nlist, shards);
    var w := nlist / shards;
    assert i * nlist == i * (w * shards) == (i * w) * shards;
    QuotientRemainder(i * nlist, i * w, shards, 0);
  }

  lemma EvenCuts(c: nat, i: nat, nlist: nat, shards: nat)
    requires shards > 0 && nlist % shards == 0 && c < nlist && i < shards
    ensures ShardOfCell(c, nlist, shards) == i <==> PlacedIn(c, i, nlist, shards)
  {
    ShardOwnsRange(c, i, nlist, shards);
    EvenEdge(i, nlist, shards);
    EvenEdge(i + 1, nlist, shards);
    RoundedEdge(c, i, nlist, shards);
    RoundedEdge(c, i + 1, nlist, shards);
  }

  /** The first inner edge falls inside a cell, which the two cuts give to different shards. */
  lemma UnevenCut(nlist: nat, shards: nat)
    requires shards > 0 && nlist % shards != 0
    ensures Edge(1, nlist, shards) < nlist
    ensures PlacedIn(Edge(1, nlist, shards), 0, nlist, shards)
         && ShardOfCell(Edge(1, nlist, shards), nlist, shards) != 0
  {
    var c := Edge(1, nlist, shards);
    Decompose(nlist, shards);
    QuotientRemainder(nlist, nlist, 1, 0);
    assert shards > 1;
    MulAtLeast(shards, c);
    assert c < nlist;
    RoundedEdge(c, 1, nlist, shards);
    assert !PastEdge(c, 1, nlist, shards) && PastEdge(c, 0, nlist, shards);
    ShardOwnsRange(c, 0, nlist, shards);
  }
}
