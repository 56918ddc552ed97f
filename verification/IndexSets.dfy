/** Finite sets of indices and their sizes. */
module IndexSets {

  /** {0, ..., n-1}. */
  function Ids(n: nat): (ids: set<int>)
    ensures |ids| == n && forall y :: y in ids <==> 0 <= y < n
  {
    if n == 0 then {} else Ids(n - 1) + {n - 1}
  }

  lemma SubsetSize<T>(a: set<T>, b: set<T>)
    requires a <= b
    ensures |a| <= |b| && (|a| == |b| ==> a == b)
  {
    assert b == a + (b - a);
  }

  /** {from, ..., from + n - 1}. */
  function Span(from: nat, n: nat): (ids: set<int>)
    ensures |ids| == n && forall y :: y in ids <==> from <= y < from + n
  {
    if n == 0 then {} else Span(from, n - 1) + {from + n - 1}
  }

  ghost predicate Distinct(s: seq<int>) {
    forall i, j :: 0 <= i < j < |s| ==> s[i] != s[j]
  }

  /** A list of positions below n. */
  predicate Indexes(s: seq<int>, n: nat) {
    forall i :: 0 <= i < |s| ==> 0 <= s[i] < n
  }

  /** The entries at the given positions, in their order. */
  function Picked<T>(x: seq<T>, rows: seq<int>): (y: seq<T>)
    requires Indexes(rows, |x|)
    ensures |y| == |rows| && forall p :: 0 <= p < |rows| ==> y[p] == x[rows[p]]
  {
    seq(|rows|, p requires 0 <= p < |rows| => x[rows[p]])
  }

  ghost predicate Ascending(a: seq<int>) {
    forall i, j :: 0 <= i < j < |a| ==> a[i] <= a[j]
  }

  /** The elements of a sequence. */
  function Elements(s: seq<int>): (e: set<int>)
    ensures forall y :: y in e <==> y in s
    ensures |e| <= |s|
  {
    if |s| == 0 then {} else
      assert s == s[..|s| - 1] + [s[|s| - 1]];
      Elements(s[..|s| - 1]) + {s[|s| - 1]}
  }

  lemma {:induction false} DistinctSize(s: seq<int>)
    requires Distinct(s)
    ensures |Elements(s)| == |s|
  {
    if |s| == 0 {
    } else {
      DistinctSize(s[..|s| - 1]);
      assert s[|s| - 1] !in s[..|s| - 1];
    }
  }
}
