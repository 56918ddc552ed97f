/** From written bytes to vectors: reading, unpacking and decoding a batch of packed indices. */
module Tqe1File {
  import opened BitPacking
  import opened Positional
  import opened Rotations
  import opened Tqe1Batch
  import opened Tqe1Decode
  import opened Tqe1Format
  import opened WalshHadamard
  import opened Wrappers

  /** The code block of r holds the packed indices. */
  ghost predicate Encodes(r: Record, indices: seq<nat>) {
    && r.bits in {2, 3, 4} && |indices| == r.dim && AllBelow(Levels(r.bits), indices)
    && r.codes == Pack(indices, r.bits)
  }

  /** A written record of packed indices is read back, with its indices, wherever it stands. */
  lemma WrittenIndicesAreRead(buf: seq<Byte>, offset: nat, r: Record, indices: seq<nat>)
    requires Holds(buf, offset, r) && Encodes(r, indices)
    ensures ParseRecord(buf, offset) == Success((r, offset + |Serialize(r)|))
    ensures UnpackIndices(r.codes, r.bits, r.dim) == Some(indices)
  {
    WrittenIsParsed(buf, offset, r);
    UnpackInvertsPack(indices, r.bits);
  }

  /** What the fields of a record stand for: its norm, and what its seed and dimension determine. */
  datatype Meaning = Meaning(norm: seq<Byte> -> real, draws: Record -> Draws, scale: nat -> real)

  ghost predicate Decodable(r: Record, indices: seq<nat>, m: Meaning) {
    && Encodes(r, indices) && r.dim > 0 && (r.rotation == Hadamard ==> IsPowerOfTwo(r.dim))
    && ValidDraws(m.draws(r), r.dim) && IsScale(m.scale(r.dim), r.dim)
  }

  /**
   * x rotates to norm times the scaled centroids that the indices select, in the order of the indices,
   * and has their length.
   */
  ghost predicate IsVectorOf(x: seq<real>, r: Record, indices: seq<nat>, m: Meaning)
    requires Decodable(r, indices, m)
  {
    && |x| == r.dim
    && DecodesTo(x, Selected(indices, r.bits), m.norm(r.norm), m.draws(r), m.scale(r.dim), r.rotation)
    && OrderedAs(Rotated(x, m.draws(r), m.scale(r.dim), r.rotation), indices, r.bits, m.norm(r.norm))
  }

  method DecodeOne(r: Record, m: Meaning, ghost indices: seq<nat>) returns (x: seq<real>)
    requires Decodable(r, indices, m)
    ensures IsVectorOf(x, r, indices, m)
  {
    UnpackInvertsPack(indices, r.bits);
    var decoded := Decode(r, m.norm(r.norm), m.draws(r), m.scale(r.dim));
    x := decoded.value;
  }

  /** Decoding a batch file gives, record for record, the vectors of the indices that were packed into it. */
  method DecodeWritten(buf: seq<Byte>, m: Meaning, ghost rs: seq<Record>, ghost indices: seq<seq<nat>>)
    returns (xs: seq<seq<real>>)
    requires AllWellFormed(rs) && buf == SerializeAll(rs)
    requires AllDecodable(rs, indices, m)
    ensures AreVectorsOf(xs, rs, indices, m)
  {
    var read := ReadRecords(buf);
    if read.Success? {
      SerializeAllInjective(read.value, rs);
    }
    xs := DecodeAll(read.value, m, indices);
  }

  ghost predicate AllDecodable(rs: seq<Record>, indices: seq<seq<nat>>, m: Meaning) {
    |indices| == |rs| && forall i :: 0 <= i < |rs| ==> Decodable(rs[i], indices[i], m)
  }

  ghost predicate AreVectorsOf(xs: seq<seq<real>>, rs: seq<Record>, indices: seq<seq<nat>>, m: Meaning)
    requires AllDecodable(rs, indices, m)
  {
    |xs| == |rs| && forall i :: 0 <= i < |rs| ==> IsVectorOf(xs[i], rs[i], indices[i], m)
  }

  method DecodeAll(rs: seq<Record>, m: Meaning, ghost indices: seq<seq<nat>>) returns (xs: seq<seq<real>>)
    requires AllDecodable(rs, indices, m)
    ensures AreVectorsOf(xs, rs, indices, m)
  {
    xs := [];
    for i := 0 to |rs|
      invariant |xs| == i && forall k :: 0 <= k < i ==> IsVectorOf(xs[k], rs[k], indices[k], m)
    {
      var x := DecodeOne(rs[i], m, indices[i]);
      OneMoreVector(xs, x, rs, indices, m);
      xs := xs + [x];
    }
  }

  lemma OneMoreVector(xs: seq<seq<real>>, x: seq<real>, rs: seq<Record>, indices: seq<seq<nat>>, m: Meaning)
    requires AllDecodable(rs, indices, m) && |xs| < |rs| && IsVectorOf(x, rs[|xs|], indices[|xs|], m)
    requires forall k :: 0 <= k < |xs| ==> IsVectorOf(xs[k], rs[k], indices[k], m)
    ensures forall k :: 0 <= k <= |xs| ==> IsVectorOf((xs + [x])[k], rs[k], indices[k], m)
  {
    forall k | 0 <= k <= |xs| ensures IsVectorOf((xs + [x])[k], rs[k], indices[k], m) {
      assert (xs + [x])[k] == if k < |xs| then xs[k] else x;
    }
  }

  /** The packed bytes determine the indices: different ones are written differently. */
  lemma EncodedIndicesAreUnique(r: Record, a: seq<nat>, b: seq<nat>)
    requires Encodes(r, a) && Encodes(r, b)
    ensures a == b
  {
    UnpackInvertsPack(a, r.bits);
    UnpackInvertsPack(b, r.bits);
  }
}
