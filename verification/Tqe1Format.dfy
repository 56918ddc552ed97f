/** The TQE1 record container, versions 1 and 2: the reader, and the writer it inverts. */
module Tqe1Format {
  import opened Wrappers

  type Byte = x: nat | x < 256

  datatype Rotation = QR | Hadamard

  /** One parsed record. The float32 norm is kept as its four bytes. */
  datatype Record = Record(
    version: nat, bits: nat, dim: nat, seed: nat, norm: seq<Byte>, rotation: Rotation, codes: seq<Byte>)

  datatype FormatError =
    | HeaderTooSmall
    | BadMagic
    | UnsupportedVersion
    | HeaderV2TooSmall
    | UnknownRotation
    | UnsupportedBits
    | Truncated

  const MAGIC: seq<Byte> := [84, 81, 69, 49] // "TQE1"
  const U16_LIMIT: nat := 0x1_0000
  const U32_LIMIT: nat := 0x1_0000_0000
  const HEADER_V1: nat := 20
  const HEADER_V2: nat := 21

  /** The little-endian uint16 and uint32 fields of the header. */
  function Read16(b: seq<Byte>): nat
    requires |b| == 2
  {
    b[0] as int + 256 * (b[1] as int)
  }

  function Read32(b: seq<Byte>): nat
    requires |b| == 4
  {
    Read16(b[..2]) + U16_LIMIT * Read16(b[2..])
  }

  function Write16(n: nat): seq<Byte>
    requires n < U16_LIMIT
  {
    [n % 256, n / 256]
  }

  function Write32(n: nat): seq<Byte>
    requires n < U32_LIMIT
  {
    Write16(n % U16_LIMIT) + Write16(n / U16_LIMIT)
  }

  lemma RoundTrip16(b: seq<Byte>, n: nat)
    ensures |b| == 2 ==> Read16(b) < U16_LIMIT && Write16(Read16(b)) == b
    ensures n < U16_LIMIT ==> Read16(Write16(n)) == n
  {}

  lemma RoundTrip32(b: seq<Byte>, n: nat)
    ensures |b| == 4 ==> Read32(b) < U32_LIMIT && Write32(Read32(b)) == b
    ensures n < U32_LIMIT ==> Read32(Write32(n)) == n
  {
    if |b| == 4 {
      RoundTrip16(b[..2], 0);
      RoundTrip16(b[2..], 0);
      assert Read32(b) % U16_LIMIT == Read16(b[..2]) && Read32(b) / U16_LIMIT == Read16(b[2..]);
    }
    if n < U32_LIMIT {
      RoundTrip16([], n % U16_LIMIT);
      RoundTrip16([], n / U16_LIMIT);
      assert Write32(n)[..2] == Write16(n % U16_LIMIT) && Write32(n)[2..] == Write16(n / U16_LIMIT);
    }
  }

  // ------------------------------------------------------------------ reading

  /** Parse one record at an offset: the record and the offset that follows it. */
  function ParseRecord(buf: seq<Byte>, offset: nat): Result<(Record, nat), FormatError> {
    if |buf| < offset + HEADER_V1 then Failure(HeaderTooSmall)
    else if buf[offset..offset + 4] != MAGIC then Failure(BadMagic)
    else if buf[offset + 4] == 1 then
      ParseBody(buf, offset, HEADER_V1, Read32(buf[offset + 16..offset + 20]), QR)
    else if buf[offset + 4] == 2 then
      if |buf| < offset + HEADER_V2 then Failure(HeaderV2TooSmall)
      else if buf[offset + 16] !in {0, 1} then Failure(UnknownRotation)
      else
        ParseBody(buf, offset, HEADER_V2, Read32(buf[offset + 17..offset + 21]),
                  if buf[offset + 16] == 0 then QR else Hadamard)
    else Failure(UnsupportedVersion)
  }

  function ParseBody(buf: seq<Byte>, offset: nat, hsize: nat, codelen: nat, rotation: Rotation)
    : Result<(Record, nat), FormatError>
    requires HEADER_V1 <= hsize && offset + hsize <= |buf|
  {
    var bits, end := buf[offset + 5], offset + hsize + codelen;
    if bits !in {2, 3, 4} then Failure(UnsupportedBits)
    else if |buf| < end then Failure(Truncated)
    else
      Success((Record(buf[offset + 4], bits, Read16(buf[offset + 6..offset + 8]), Read32(buf[offset + 8..offset + 12]),
                      buf[offset + 12..offset + 16], rotation, buf[offset + hsize..end]), end))
  }

  // ------------------------------------------------------------------ writing

  /** The records the format can hold; version 1 has no rotation byte, so it is always QR. */
  predicate WellFormed(r: Record) {
    && r.version in {1, 2} && r.bits in {2, 3, 4}
    && r.dim < U16_LIMIT && r.seed < U32_LIMIT && |r.norm| == 4 && |r.codes| < U32_LIMIT
    && (r.version == 1 ==> r.rotation == QR)
  }

  /** The sixteen bytes both versions begin with. */
  function FixedPart(r: Record): (b: seq<Byte>)
    requires WellFormed(r)
    ensures |b| == 16 && b[..4] == MAGIC && b[4] == r.version && b[5] == r.bits
    ensures b[6..8] == Write16(r.dim) && b[8..12] == Write32(r.seed) && b[12..] == r.norm
  {
    MAGIC + ([r.version, r.bits] + Write16(r.dim)) + (Write32(r.seed) + r.norm)
  }

  function HeaderSize(r: Record): nat {
    if r.version == 1 then HEADER_V1 else HEADER_V2
  }

  /** The rest of the header: the rotation byte of version 2 and the length of the code block. */
  function LengthPart(r: Record): (b: seq<Byte>)
    requires WellFormed(r)
    ensures 16 + |b| == HeaderSize(r) && b[|b| - 4..] == Write32(|r.codes|)
    ensures r.version != 1 ==> b[0] == if r.rotation == QR then 0 else 1
  {
    (if r.version == 1 then [] else if r.rotation == QR then [0] else [1]) + Write32(|r.codes|)
  }

  /** The bytes of a record. */
  function Serialize(r: Record): (b: seq<Byte>)
    requires WellFormed(r)
    ensures |b| == HeaderSize(r) + |r.codes|
  {
    FixedPart(r) + LengthPart(r) + r.codes
  }

  // ------------------------------------------------------- reading inverts writing

  ghost predicate Holds(buf: seq<Byte>, offset: nat, r: Record) {
    WellFormed(r) && offset + |Serialize(r)| <= |buf| && buf[offset..offset + |Serialize(r)|] == Serialize(r)
  }

  /**
   * The reader accepts exactly what the writer writes: a record parses at an offset if and only
   * if its bytes stand there, and it then consumes exactly those bytes.
   */
  lemma ParsesExactlyWhatIsWritten(buf: seq<Byte>, offset: nat, r: Record, end: nat)
    ensures ParseRecord(buf, offset) == Success((r, end))
       <==> Holds(buf, offset, r) && end == offset + |Serialize(r)|
  {
    if ParseRecord(buf, offset) == Success((r, end)) {
      ParsedIsWritten(buf, offset, r, end);
    }
    if Holds(buf, offset, r) {
      WrittenIsParsed(buf, offset, r);
    }
  }

  /** The fields of r stand at their places in the buffer. */
  ghost predicate FieldsAt(buf: seq<Byte>, offset: nat, r: Record)
    requires WellFormed(r)
  {
    var hsize := HeaderSize(r);
    && offset + hsize + |r.codes| <= |buf|
    && buf[offset..offset + 4] == MAGIC && buf[offset + 4] == r.version && buf[offset + 5] == r.bits
    && buf[offset + 6..offset + 8] == Write16(r.dim)
    && buf[offset + 8..offset + 12] == Write32(r.seed)
    && buf[offset + 12..offset + 16] == r.norm
    && (r.version != 1 ==> buf[offset + 16] == if r.rotation == QR then 0 else 1)
    && buf[offset + hsize - 4..offset + hsize] == Write32(|r.codes|)
    && buf[offset + hsize..offset + hsize + |r.codes|] == r.codes
  }

  lemma ParsedIsWritten(buf: seq<Byte>, offset: nat, r: Record, end: nat)
    requires ParseRecord(buf, offset) == Success((r, end))
    ensures Holds(buf, offset, r) && end == offset + |Serialize(r)|
  {
    ParsedFields(buf, offset, r, end);
    Assemble(buf, offset, r);
  }

  lemma ParsedFields(buf: seq<Byte>, offset: nat, r: Record, end: nat)
    requires ParseRecord(buf, offset) == Success((r, end))
    ensures WellFormed(r) && FieldsAt(buf, offset, r) && end == offset + HeaderSize(r) + |r.codes|
  {
    RoundTrip16(buf[offset + 6..offset + 8], 0);
    RoundTrip32(buf[offset + 8..offset + 12], 0);
    RoundTrip32(buf[offset + HeaderSize(r) - 4..offset + HeaderSize(r)], 0);
  }

  lemma Assemble(buf: seq<Byte>, offset: nat, r: Record)
    requires WellFormed(r) && FieldsAt(buf, offset, r)
    ensures Holds(buf, offset, r)
  {
    FixedPartRead(buf, offset, r);
    LengthPartRead(buf, offset, r);
    Join(buf, offset, offset + 16, offset + HeaderSize(r));
    Join(buf, offset, offset + HeaderSize(r), offset + HeaderSize(r) + |r.codes|);
  }

  lemma Join(buf: seq<Byte>, i: nat, j: nat, k: nat)
    requires i <= j <= k <= |buf|
    ensures buf[i..j] + buf[j..k] == buf[i..k]
  {}

  lemma FixedPartRead(buf: seq<Byte>, offset: nat, r: Record)
    requires WellFormed(r) && FieldsAt(buf, offset, r)
    ensures buf[offset..offset + 16] == FixedPart(r)
  {
    Join(buf, offset, offset + 4, offset + 6);
    Join(buf, offset, offset + 6, offset + 8);
    Join(buf, offset, offset + 8, offset + 12);
    Join(buf, offset, offset + 12, offset + 16);
    assert buf[offset + 4..offset + 6] == [r.version, r.bits];
    assert FixedPart(r) == MAGIC + [r.version, r.bits] + Write16(r.dim) + Write32(r.seed) + r.norm;
  }

  lemma LengthPartRead(buf: seq<Byte>, offset: nat, r: Record)
    requires WellFormed(r) && FieldsAt(buf, offset, r)
    ensures buf[offset + 16..offset + HeaderSize(r)] == LengthPart(r)
  {
    Join(buf, offset + 16, offset + HeaderSize(r) - 4, offset + HeaderSize(r));
  }

  lemma WrittenIsParsed(buf: seq<Byte>, offset: nat, r: Record)
    requires Holds(buf, offset, r)
    ensures ParseRecord(buf, offset) == Success((r, offset + |Serialize(r)|))
  {
    WrittenFields(buf, offset, r);
    RoundTrip16([], r.dim);
    RoundTrip32([], r.seed);
    RoundTrip32([], |r.codes|);
  }

  lemma WrittenFields(buf: seq<Byte>, offset: nat, r: Record)
    requires Holds(buf, offset, r)
    ensures FieldsAt(buf, offset, r)
  {
    var b, hsize := Serialize(r), HeaderSize(r);
    SerializedFields(r);
    Within(buf, offset, b, 0, 4);
    WithinAt(buf, offset, b, 4);
    WithinAt(buf, offset, b, 5);
    Within(buf, offset, b, 6, 8);
    Within(buf, offset, b, 8, 12);
    Within(buf, offset, b, 12, 16);
    WithinAt(buf, offset, b, 16);
    Within(buf, offset, b, hsize - 4, hsize);
    Within(buf, offset, b, hsize, |b|);
  }

  /** The byte layout: a record stands at an offset exactly when every field has its value in its place. */
  lemma LayoutIsExact(buf: seq<Byte>, offset: nat, r: Record)
    requires WellFormed(r)
    ensures Holds(buf, offset, r) <==> FieldsAt(buf, offset, r)
  {
    if Holds(buf, offset, r) {
      WrittenFields(buf, offset, r);
    }
    if FieldsAt(buf, offset, r) {
      Assemble(buf, offset, r);
    }
  }

  lemma WithinAt(buf: seq<Byte>, offset: nat, b: seq<Byte>, i: nat)
    requires offset + |b| <= |buf| && buf[offset..offset + |b|] == b
    ensures i < |b| ==> buf[offset + i] == b[i]
  {
    assert i < |b| ==> buf[offset..offset + |b|][i] == buf[offset + i];
  }

  lemma SerializedFields(r: Record)
    requires WellFormed(r)
    ensures var b, hsize := Serialize(r), HeaderSize(r);
            && b[..4] == MAGIC && b[4] == r.version && b[5] == r.bits && b[6..8] == Write16(r.dim)
            && b[8..12] == Write32(r.seed) && b[12..16] == r.norm
            && (r.version != 1 ==> b[16] == if r.rotation == QR then 0 else 1)
            && b[hsize - 4..hsize] == Write32(|r.codes|) && b[hsize..] == r.codes
  {
    var b, fixed, tail := Serialize(r), FixedPart(r), LengthPart(r);
    assert b[..4] == fixed[..4] && b[6..8] == fixed[6..8] && b[8..12] == fixed[8..12];
    assert b[12..16] == fixed[12..16] == fixed[12..];
    assert b[HeaderSize(r) - 4..HeaderSize(r)] == tail[|tail| - 4..];
  }

  lemma Within(buf: seq<Byte>, offset: nat, b: seq<Byte>, lo: nat, hi: nat)
    requires offset + |b| <= |buf| && buf[offset..offset + |b|] == b && lo <= hi <= |b|
    ensures buf[offset + lo..offset + hi] == b[lo..hi]
  {
    forall i | lo <= i < hi ensures buf[offset + i] == b[i] {
      assert buf[offset..offset + |b|][i] == buf[offset + i];
    }
  }

  /** What the reader says of a record cut off after that many bytes. */
  function CutError(r: Record, cut: nat): FormatError {
    if cut < 20 then HeaderTooSmall else if r.version == 2 && cut == 20 then HeaderV2TooSmall else Truncated
  }

  /** No record is a proper prefix of another: every cut is an error, and the place of the cut says which. */
  lemma PrefixFree(r: Record, cut: nat)
    requires WellFormed(r) && cut < |Serialize(r)|
    ensures ParseRecord(Serialize(r)[..cut], 0) == Failure(CutError(r, cut))
  {
    var b := Serialize(r);
    SerializedFields(r);
    if cut >= HEADER_V1 {
      SameHead(b, cut, 0, 4);
      if cut >= HeaderSize(r) {
        SameHead(b, cut, HeaderSize(r) - 4, HeaderSize(r));
        RoundTrip32([], |r.codes|);
      }
    }
  }

  lemma SameHead(b: seq<Byte>, cut: nat, lo: nat, hi: nat)
    requires lo <= hi <= cut <= |b|
    ensures b[..cut][lo..hi] == b[lo..hi]
  {}

  /** A wrong magic byte, version, bit width or rotation byte is called what it is. */
  lemma CorruptionIsNamed(r: Record, i: nat, v: Byte)
    requires WellFormed(r) && i < HeaderSize(r)
    ensures var p := ParseRecord(Serialize(r)[i := v], 0);
            && (i < 4 && v != MAGIC[i] ==> p == Failure(BadMagic))
            && (i == 4 && v !in {1, 2} ==> p == Failure(UnsupportedVersion))
            && (i == 5 && v !in {2, 3, 4} ==> p == Failure(UnsupportedBits))
            && (i == 16 && r.version == 2 && v !in {0, 1} ==> p == Failure(UnknownRotation))
  {
    var b := Serialize(r);
    SerializedFields(r);
    if i < 4 {
      assert b[i := v][0..4][i] == v;
    } else {
      assert b[i := v][0..4] == b[..4];
    }
  }

  /** Bytes begin with at most one record. */
  lemma UniqueHead(x: Record, restX: seq<Byte>, y: Record, restY: seq<Byte>)
    requires WellFormed(x) && WellFormed(y) && Serialize(x) + restX == Serialize(y) + restY
    ensures x == y && restX == restY
  {
    var buf := Serialize(x) + restX;
    HeadParses(x, restX);
    HeadParses(y, restY);
    assert restX == buf[|Serialize(x)|..] && restY == buf[|Serialize(y)|..];
  }

  lemma HeadParses(r: Record, rest: seq<Byte>)
    requires WellFormed(r)
    ensures ParseRecord(Serialize(r) + rest, 0) == Success((r, |Serialize(r)|))
  {
    assert (Serialize(r) + rest)[0..|Serialize(r)|] == Serialize(r);
    WrittenIsParsed(Serialize(r) + rest, 0, r);
  }
}
