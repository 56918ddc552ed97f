/** The LSB-first packing of 2-, 3- and 4-bit code indices into bytes. */
module BitPacking {
  import opened Positional
  import opened Wrappers

  // ------------------------------------------------------------------ the reader

  /** (b >> s) & 3 for s in 0, 2, 4, 6. */
  function Crumbs(b: nat): seq<nat> { [b % 4, b / 4 % 4, b / 16 % 4, b / 64 % 4] }

  /** (w >> s) & 7 for s in 0, 3, ..., 21, w three bytes. */
  function Octals(w: nat): seq<nat> {
    [w % 8, w / 8 % 8, w / 64 % 8, w / 512 % 8, w / 4096 % 8, w / 32768 % 8, w / 262144 % 8, w / 2097152 % 8]
  }

  /** b & 15 and (b >> 4) & 15. */
  function Nibbles(b: nat): seq<nat> { [b % 16, b / 16 % 16] }

  /** Bytes the reader takes at a time. */
  function GroupBytes(bits: nat): nat { if bits == 3 then 3 else 1 }

  /** Indices held by one such group. */
  function GroupIndices(bits: nat): nat { if bits == 2 then 4 else if bits == 3 then 8 else 2 }

  /** One more than the largest index. */
  function Levels(bits: nat): nat { if bits == 2 then 4 else if bits == 3 then 8 else 16 }

  function UnpackGroup(group: seq<nat>, bits: nat): (vals: seq<nat>)
    requires |group| == GroupBytes(bits)
    ensures |vals| == GroupIndices(bits) && AllBelow(Levels(bits), vals)
  {
    if bits == 2 then Crumbs(group[0])
    else if bits == 3 then Octals(group[0] + group[1] * 256 + group[2] * 65536)
    else Nibbles(group[0])
  }

  predicate WholeGroups(n: nat, bits: nat) { bits == 3 ==> n % 3 == 0 }

  /** Indices held by n bytes of whole groups. */
  function UnpackedCount(n: nat, bits: nat): nat {
    if bits == 3 then n / 3 * 8 else if bits == 2 then n * 4 else n * 2
  }

  function UnpackGroups(codes: seq<nat>, bits: nat): (vals: seq<nat>)
    requires WholeGroups(|codes|, bits)
    ensures AllBelow(Levels(bits), vals)
    ensures |vals| == UnpackedCount(|codes|, bits)
  {
    var g := GroupBytes(bits);
    if |codes| == 0 then [] else UnpackGroup(codes[..g], bits) + UnpackGroups(codes[g..], bits)
  }

  /** None stands for the ValueError of reshaping a 3-bit block that is not whole 3-byte groups. */
  function UnpackIndices(codes: seq<nat>, bits: nat, dim: nat): Option<seq<nat>> {
    if !WholeGroups(|codes|, bits) then None
    else
      var vals := UnpackGroups(codes, bits);
      Some(if dim < |vals| then vals[..dim] else vals)
  }

  // ------------------------------------------------------------------ the bit stream

  /** Indices and bytes write the same number. */
  ghost predicate SameNumber(bits: nat, indices: seq<nat>, codes: seq<nat>) {
    Value(Levels(bits), indices) == Value(256, codes)
  }

  lemma GroupKeepsValue(group: seq<nat>, bits: nat)
    requires |group| == GroupBytes(bits) && AllBelow(256, group)
    ensures SameNumber(bits, UnpackGroup(group, bits), group)
  {
    if bits == 2 {
      CrumbsValue(group[0]);
      OneDigit(group);
    } else if bits == 3 {
      EightOctals(group[0] + group[1] * 256 + group[2] * 65536);
      ThreeDigits(group);
    } else {
      TwoDigits(Nibbles(group[0]));
      OneDigit(group);
    }
  }

  lemma CrumbsValue(b: nat)
    requires b < 256
    ensures Value(4, Crumbs(b)) == b
  {
    FourDigits(4, Crumbs(b));
    var x, y, z := b / 4, b / 16, b / 64;
    assert x == b / 4 && y == x / 4 && z == y / 4 < 4;
  }

  lemma OneDigit(v: seq<nat>)
    requires |v| == 1
    ensures Value(256, v) == v[0]
  {
    assert Value(256, v[1..]) == 0;
  }

  lemma TwoDigits(v: seq<nat>)
    requires |v| == 2
    ensures Value(16, v) == v[0] + 16 * v[1]
  {
    assert Value(16, v[1..]) == v[1] by { assert Value(16, v[1..][1..]) == 0; }
  }

  lemma ThreeDigits(v: seq<nat>)
    requires |v| == 3
    ensures Value(256, v) == v[0] + v[1] * 256 + v[2] * 65536
  {
    assert v[1..][1..] == v[2..];
    OneDigit(v[2..]);
    assert Value(256, v[1..]) == v[1] + 256 * Value(256, v[2..]);
  }

  lemma FourDigits(base: nat, v: seq<nat>)
    requires |v| == 4
    ensures Value(base, v) == v[0] + base * (v[1] + base * (v[2] + base * v[3]))
  {
    assert v[1..][1..] == v[2..] && v[2..][1..] == v[3..];
    assert Value(base, v[3..]) == v[3] by { assert Value(base, v[3..][1..]) == 0; }
    assert Value(base, v[2..]) == v[2] + base * Value(base, v[3..]);
    assert Value(base, v[1..]) == v[1] + base * Value(base, v[2..]);
  }

  lemma EightOctals(w: nat)
    requires w < 16777216
    ensures Value(8, Octals(w)) == w
  {
    var v, lo, hi := Octals(w), w % 4096, w / 4096;
    LowOctals(lo, hi);
    HighOctals(w);
    FourOctals(lo, v[..4]);
    FourOctals(hi, v[4..]);
    assert v == v[..4] + v[4..];
    ValueConcat(8, v[..4], v[4..]);
    EightPowers();
  }

  lemma LowOctals(lo: nat, hi: nat)
    requires lo < 4096
    ensures Octals(lo + 4096 * hi)[..4] == [lo % 8, lo / 8 % 8, lo / 64 % 8, lo / 512]
  {
    var w := lo + 4096 * hi;
    assert w / 8 == lo / 8 + 8 * (64 * hi);
    assert w / 64 == lo / 64 + 8 * (8 * hi);
    assert w / 512 == lo / 512 + 8 * hi;
    SameLowOctal(w, lo, 512 * hi);
    SameLowOctal(w / 8, lo / 8, 64 * hi);
    SameLowOctal(w / 64, lo / 64, 8 * hi);
    SameLowOctal(w / 512, lo / 512, hi);
    assert lo / 512 % 8 == lo / 512;
  }

  lemma SameLowOctal(x: nat, y: nat, m: nat)
    requires x == y + 8 * m
    ensures x % 8 == y % 8
  {}

  lemma HighOctals(w: nat)
    requires w < 16777216
    ensures var hi := w / 4096; Octals(w)[4..] == [hi % 8, hi / 8 % 8, hi / 64 % 8, hi / 512]
  {
    var hi := w / 4096;
    assert w / 32768 == hi / 8;
    assert w / 262144 == hi / 64;
    assert w / 2097152 == hi / 512 < 8;
  }

  lemma FourOctals(w: nat, v: seq<nat>)
    requires w < 4096 && v == [w % 8, w / 8 % 8, w / 64 % 8, w / 512]
    ensures Value(8, v) == w
  {
    FourDigits(8, v);
    var x, y, z := w / 8, w / 64, w / 512;
    assert y == x / 8 && z == y / 8;
    assert x == x % 8 + 8 * y && y == y % 8 + 8 * z;
  }

  lemma EightPowers()
    ensures Power(8, 4) == 4096 && Power(8, 8) == 16777216
  {
    assert Power(8, 2) == 64;
    assert Power(8, 4) == 8 * (8 * Power(8, 2));
    PowerSum(8, 4, 4);
  }

  lemma Distribute(base: nat, x: nat, p: nat, v: nat)
    ensures base * (x + p * v) == base * x + base * p * v
  {}

  lemma {:induction false} ValueConcat(base: nat, a: seq<nat>, b: seq<nat>)
    ensures Value(base, a + b) == Value(base, a) + Power(base, |a|) * Value(base, b)
  {
    if |a| == 0 {
      assert a + b == b;
    } else {
      assert (a + b)[1..] == a[1..] + b;
      ValueConcat(base, a[1..], b);
      Distribute(base, Value(base, a[1..]), Power(base, |a| - 1), Value(base, b));
    }
  }

  lemma {:induction false} PowerOfPower(base: nat, k: nat, m: nat)
    ensures Power(base, k * m) == Power(Power(base, k), m)
  {
    if m == 0 {
    } else {
      PowerOfPower(base, k, m - 1);
      PowerSum(base, k, k * (m - 1));
      assert k + k * (m - 1) == k * m;
    }
  }

  lemma {:induction false} PowerSum(base: nat, a: nat, b: nat)
    ensures Power(base, a + b) == Power(base, a) * Power(base, b)
  {
    if a == 0 {
    } else {
      PowerSum(base, a - 1, b);
      var p, q := Power(base, a - 1), Power(base, b);
      assert base * (p * q) == base * p * q;
    }
  }

  /** A group of bytes and the indices in it have equally many values. */
  lemma GroupPowers(bits: nat)
    requires bits in {2, 3, 4}
    ensures Power(Levels(bits), GroupIndices(bits)) == Power(256, GroupBytes(bits))
  {
    assert Power(4, 4) == 256 && Power(16, 2) == 256;
    EightPowers();
    assert Power(256, 1) == 256;
    assert Power(256, 3) == 256 * (256 * Power(256, 1));
  }

  /**
   * The indices and the bytes are the same bit stream: read as little-endian digit strings,
   * indices in base 2^bits and bytes in base 256, they write the same number.
   */
  lemma {:induction false} SameBitStream(codes: seq<nat>, bits: nat)
    requires bits in {2, 3, 4} && WholeGroups(|codes|, bits) && AllBelow(256, codes)
    ensures SameNumber(bits, UnpackGroups(codes, bits), codes)
    decreases |codes|
  {
    if |codes| == 0 {
    } else {
      var g, base := GroupBytes(bits), Levels(bits);
      var head, tail := codes[..g], codes[g..];
      SameBitStream(tail, bits);
      GroupKeepsValue(head, bits);
      ValueConcat(base, UnpackGroup(head, bits), UnpackGroups(tail, bits));
      assert codes == head + tail;
      ValueConcat(256, head, tail);
      GroupPowers(bits);
    }
  }

  // ------------------------------------------------------------------ the writer

  /** Whole bytes, or whole 3-byte groups of eight for 3-bit indices. */
  function PackedGroups(n: nat, bits: nat): nat {
    (n + GroupIndices(bits) - 1) / GroupIndices(bits)
  }

  /** The bytes of the number the indices write, zero-padded to whole groups. */
  function Pack(indices: seq<nat>, bits: nat): (codes: seq<nat>)
    ensures AllBelow(256, codes)
  {
    Digits(256, Value(Levels(bits), indices), PackedGroups(|indices|, bits) * GroupBytes(bits))
  }

  lemma TrailingZeros(base: nat, a: seq<nat>, n: nat)
    ensures Value(base, a + seq(n, _ => 0)) == Value(base, a)
  {
    var z := seq(n, _ => 0);
    ValueConcat(base, a, z);
    ZeroValue(base, z);
  }

  lemma {:induction false} ZeroValue(base: nat, z: seq<nat>)
    requires forall i :: 0 <= i < |z| ==> z[i] == 0
    ensures Value(base, z) == 0
  {
    if |z| == 0 {
    } else {
      ZeroValue(base, z[1..]);
    }
  }

  /** Unpacking what was packed gives the indices back, padded with zeros to whole groups. */
  lemma UnpackGroupsOfPack(indices: seq<nat>, bits: nat)
    requires bits in {2, 3, 4} && AllBelow(Levels(bits), indices)
    ensures WholeGroups(|Pack(indices, bits)|, bits)
    ensures indices <= UnpackGroups(Pack(indices, bits), bits)
  {
    var base, padding := Levels(bits), GroupIndices(bits) * PackedGroups(|indices|, bits) - |indices|;
    var codes := Pack(indices, bits);
    PackKeepsValue(indices, bits);
    PackedLength(|indices|, bits);
    SameBitStream(codes, bits);
    ValueInjective(base, UnpackGroups(codes, bits), indices + seq(padding, _ => 0));
  }

  lemma PackedLength(n: nat, bits: nat)
    requires bits in {2, 3, 4}
    ensures var groups := PackedGroups(n, bits);
            var bytes := groups * GroupBytes(bits);
            && WholeGroups(bytes, bits) && groups * GroupIndices(bits) >= n
            && UnpackedCount(bytes, bits) == GroupIndices(bits) * groups
  {}

  lemma RepackedLength(n: nat, bits: nat)
    requires bits in {2, 3, 4} && WholeGroups(n, bits)
    ensures PackedGroups(UnpackedCount(n, bits), bits) * GroupBytes(bits) == n
  {}

  /** The packed bytes hold the whole number. */
  lemma PackKeepsValue(indices: seq<nat>, bits: nat)
    requires bits in {2, 3, 4} && AllBelow(Levels(bits), indices)
    ensures var padding := GroupIndices(bits) * PackedGroups(|indices|, bits) - |indices|;
            padding >= 0 && SameNumber(bits, indices + seq(padding, _ => 0), Pack(indices, bits))
  {
    var base, k, groups := Levels(bits), GroupIndices(bits), PackedGroups(|indices|, bits);
    var padded := indices + seq(k * groups - |indices|, _ => 0);
    TrailingZeros(base, indices, k * groups - |indices|);
    ValueBound(base, padded);
    PowerOfPower(base, k, groups);
    GroupPowers(bits);
    PowerOfPower(256, GroupBytes(bits), groups);
    ValueOfDigits(256, Value(base, indices), groups * GroupBytes(bits));
  }

  /** The reader inverts the writer. */
  lemma UnpackInvertsPack(indices: seq<nat>, bits: nat)
    requires bits in {2, 3, 4} && AllBelow(Levels(bits), indices)
    ensures UnpackIndices(Pack(indices, bits), bits, |indices|) == Some(indices)
  {
    UnpackGroupsOfPack(indices, bits);
    var vals := UnpackGroups(Pack(indices, bits), bits);
    assert vals[..|indices|] == indices && vals[..|vals|] == vals;
  }

  /** The writer inverts the reader on blocks that are whole groups. */
  lemma PackInvertsUnpack(codes: seq<nat>, bits: nat)
    requires bits in {2, 3, 4} && WholeGroups(|codes|, bits) && AllBelow(256, codes)
    ensures Pack(UnpackGroups(codes, bits), bits) == codes
  {
    SameBitStream(codes, bits);
    RepackedLength(|codes|, bits);
    DigitsOfValue(256, codes);
  }
}
