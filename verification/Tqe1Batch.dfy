/** Batch files: TQE1 records of either version, back to back. */
module Tqe1Batch {
  import opened Tqe1Format
  import opened Wrappers

  predicate AllWellFormed(rs: seq<Record>) {
    forall i :: 0 <= i < |rs| ==> WellFormed(rs[i])
  }

  function SerializeAll(rs: seq<Record>): seq<Byte>
    requires AllWellFormed(rs)
  {
    if |rs| == 0 then [] else Serialize(rs[0]) + SerializeAll(rs[1..])
  }

  lemma {:induction false} SerializeAllLength(rs: seq<Record>)
    requires AllWellFormed(rs)
    ensures |SerializeAll(rs)| >= HEADER_V1 * |rs|
  {
    if |rs| == 0 {
    } else {
      SerializeAllLength(rs[1..]);
    }
  }

  lemma {:induction false} SerializeAllConcat(a: seq<Record>, b: seq<Record>)
    requires AllWellFormed(a) && AllWellFormed(b) && AllWellFormed(a + b)
    ensures SerializeAll(a + b) == SerializeAll(a) + SerializeAll(b)
  {
    if |a| == 0 {
      assert a + b == b;
    } else {
      SerializeTail(a, b);
      SerializeAllConcat(a[1..], b);
      Regroup(Serialize(a[0]), SerializeAll(a[1..]), SerializeAll(b));
    }
  }

  lemma Regroup(x: seq<Byte>, y: seq<Byte>, z: seq<Byte>)
    ensures x + (y + z) == x + y + z
  {}

  lemma SerializeTail(a: seq<Record>, b: seq<Record>)
    requires |a| > 0 && AllWellFormed(a) && AllWellFormed(b) && AllWellFormed(a + b)
    ensures AllWellFormed(a[1..] + b) && (a + b)[1..] == a[1..] + b
    ensures SerializeAll(a + b) == Serialize(a[0]) + SerializeAll(a[1..] + b)
  {
    assert (a + b)[1..] == a[1..] + b;
  }

  /** A batch whose bytes begin another's is the beginning of that batch. */
  lemma {:induction false} BatchPrefix(good: seq<Record>, rest: seq<Byte>, rs: seq<Record>)
    requires AllWellFormed(good) && AllWellFormed(rs) && SerializeAll(good) + rest == SerializeAll(rs)
    ensures good <= rs && rest == SerializeAll(rs[|good|..])
  {
    if |good| == 0 {
      assert SerializeAll(good) + rest == rest && rs[0..] == rs;
    } else {
      SerializeAllLength(good);
      var rest' := SerializeAll(good[1..]) + rest;
      assert Serialize(good[0]) + rest' == SerializeAll(good) + rest;
      UniqueHead(good[0], rest', rs[0], SerializeAll(rs[1..]));
      BatchPrefix(good[1..], rest, rs[1..]);
      assert rs[1..][|good| - 1..] == rs[|good|..];
    }
  }

  /** Batch files decompose in one way only. */
  lemma SerializeAllInjective(a: seq<Record>, b: seq<Record>)
    requires AllWellFormed(a) && AllWellFormed(b) && SerializeAll(a) == SerializeAll(b)
    ensures a == b
  {
    assert SerializeAll(a) + [] == SerializeAll(b);
    BatchPrefix(a, [], b);
    SerializeAllLength(b[|a|..]);
  }

  /** The buffer is not the bytes of any batch. */
  ghost predicate Unreadable(buf: seq<Byte>) {
    forall rs :: AllWellFormed(rs) ==> SerializeAll(rs) != buf
  }

  /** The buffer begins with the batch good, and what follows does not parse, for the given reason. */
  ghost predicate FailsAfter(buf: seq<Byte>, good: seq<Record>, error: FormatError) {
    && AllWellFormed(good) && SerializeAll(good) <= buf
    && ParseRecord(buf, |SerializeAll(good)|) == Failure(error)
  }

  /**
   * Read a batch file. It succeeds with the one list of records whose bytes the buffer is, and
   * fails, with the error of the first record that does not parse, when there is no such list.
   */
  method ReadRecords(buf: seq<Byte>) returns (r: Result<seq<Record>, FormatError>)
    ensures r.Success? ==> AllWellFormed(r.value) && SerializeAll(r.value) == buf
    ensures r.Failure? ==> Unreadable(buf) && exists good :: FailsAfter(buf, good, r.error)
  {
    var out, off := [], 0;
    while off < |buf|
      invariant off <= |buf| && AllWellFormed(out) && SerializeAll(out) == buf[..off]
      decreases |buf| - off
    {
      var p := ParseRecord(buf, off);
      if p.Failure? {
        assert FailsAfter(buf, out, p.error);
        StuckMeansUnreadable(buf, out);
        return Failure(p.error);
      }
      var (rec, end) := p.value;
      ParsedIsWritten(buf, off, rec, end);
      AppendOne(out, rec);
      assert buf[..off] + buf[off..end] == buf[..end];
      out, off := out + [rec], end;
    }
    assert buf[..off] == buf;
    return Success(out);
  }

  lemma AppendOne(rs: seq<Record>, r: Record)
    requires AllWellFormed(rs) && WellFormed(r)
    ensures AllWellFormed(rs + [r]) && SerializeAll(rs + [r]) == SerializeAll(rs) + Serialize(r)
  {
    SerializeAllConcat(rs, [r]);
    assert SerializeAll([r]) == Serialize(r) + SerializeAll([]);
  }

  lemma StuckMeansUnreadable(buf: seq<Byte>, good: seq<Record>)
    requires AllWellFormed(good) && SerializeAll(good) < buf
    requires ParseRecord(buf, |SerializeAll(good)|).Failure?
    ensures Unreadable(buf)
  {
    var rest := buf[|SerializeAll(good)|..];
    assert buf == SerializeAll(good) + rest;
    forall rs | AllWellFormed(rs) ensures SerializeAll(rs) != buf {
      if SerializeAll(rs) == buf {
        PrefixParses(good, rest, rs);
      }
    }
  }

  lemma PrefixParses(good: seq<Record>, rest: seq<Byte>, rs: seq<Record>)
    requires AllWellFormed(good) && AllWellFormed(rs) && rest != [] && SerializeAll(good) + rest == SerializeAll(rs)
    ensures ParseRecord(SerializeAll(good) + rest, |SerializeAll(good)|).Success?
  {
    BatchPrefix(good, rest, rs);
    NextParses(SerializeAll(good), rest, rs[|good|..]);
  }

  lemma NextParses(front: seq<Byte>, rest: seq<Byte>, rs: seq<Record>)
    requires AllWellFormed(rs) && rest != [] && rest == SerializeAll(rs)
    ensures ParseRecord(front + rest, |front|).Success?
  {
    var r := rs[0];
    assert (front + rest)[|front|..|front| + |Serialize(r)|] == rest[..|Serialize(r)|] == Serialize(r);
    WrittenIsParsed(front + rest, |front|, r);
  }

  /** Reading what was written gives it back. */
  method ReadWritten(rs: seq<Record>) returns (r: Result<seq<Record>, FormatError>)
    requires AllWellFormed(rs)
    ensures r == Success(rs)
  {
    r := ReadRecords(SerializeAll(rs));
    if r.Success? {
      SerializeAllInjective(r.value, rs);
    }
  }
}
