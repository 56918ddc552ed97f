/**
 * The bit packers of the Postgres extension, which set bits of a zeroed array in place: they write the
 * bytes of the number that the indices write, so the record reader unpacks what the extension packs.
 */
module ExtensionPacking {
  import opened BitPacking
  import opened Division
  import opened Positional
  import opened ScalarQuantizer
  import opened Tqe1Decode
  import opened Wrappers

  // ------------------------------------------------------------------ bitwise or

  function Or(a: nat, b: nat): nat {
    if a == 0 then b else if b == 0 then a
    else (if a % 2 == 1 || b % 2 == 1 then 1 else 0) + 2 * Or(a / 2, b / 2)
  }

  predicate Bit(n: nat, k: nat) {
    if k == 0 then n % 2 == 1 else Bit(n / 2, k - 1)
  }

  /** A bit of the result is set exactly when it is set in one of the operands. */
  lemma {:induction false} OrIsBitwise(a: nat, b: nat, k: nat)
    ensures Bit(Or(a, b), k) <==> Bit(a, k) || Bit(b, k)
  {
    ZeroHasNoBits(k);
    if k == 0 || a == 0 || b == 0 {
    } else {
      OrIsBitwise(a / 2, b / 2, k - 1);
      assert Or(a, b) / 2 == Or(a / 2, b / 2);
    }
  }

  lemma {:induction false} ZeroHasNoBits(k: nat)
    ensures !Bit(0, k)
  {
    if k == 0 {
    } else {
      ZeroHasNoBits(k - 1);
    }
  }

  /** Setting bits above all those already set is adding them. */
  lemma {:induction false} OrIsSum(a: nat, v: nat, k: nat)
    requires a < Power(2, k)
    ensures Or(a, v * Power(2, k)) == a + v * Power(2, k)
    decreases k
  {
    if k == 0 {
    } else {
      var p := Power(2, k - 1);
      assert v * Power(2, k) == 2 * (v * p);
      OrIsSum(a / 2, v, k - 1);
    }
  }

  lemma OrPlaced(a: nat, v: nat, k: nat, b: nat, p: nat)
    requires p == Power(2, k) && b == v * p && a < p
    ensures Or(a, b) == a + v * p
  {
    OrIsSum(a, v, k);
  }

  // ------------------------------------------------------------------ one index

  /** The bytes written so far hold the number of the first i indices. */
  ghost predicate HoldsFirst(bytes: seq<nat>, indices: seq<nat>, i: nat, bits: nat)
    requires i <= |indices|
  {
    && |bytes| == PackedGroups(|indices|, bits) * GroupBytes(bits) && AllBelow(256, bytes)
    && Value(256, bytes) == Value(Levels(bits), indices[..i])
  }

  lemma {:induction false} ValueOfUpdate(base: nat, ds: seq<nat>, b: nat, x: nat)
    requires b < |ds|
    ensures Value(base, ds[b := ds[b] + x]) == Value(base, ds) + x * Power(base, b)
  {
    var next := ds[b := ds[b] + x];
    if b == 0 {
      assert next[1..] == ds[1..];
    } else {
      assert next[1..] == ds[1..][b - 1 := ds[b] + x];
      ValueOfUpdate(base, ds[1..], b - 1, x);
      OnePlaceUp(base, Value(base, ds[1..]), x, Power(base, b - 1));
    }
  }

  /** A digit weighs no more than the whole number. */
  lemma {:induction false} DigitAtMost(base: nat, ds: seq<nat>, b: nat)
    requires b < |ds|
    ensures ds[b] * Power(base, b) <= Value(base, ds)
  {
    if b == 0 {
    } else {
      DigitAtMost(base, ds[1..], b - 1);
      OnePlaceUp(base, 0, ds[b], Power(base, b - 1));
      Scaled(base, ds[b] * Power(base, b - 1), Value(base, ds[1..]));
    }
  }

  lemma OnePlaceUp(base: nat, rest: nat, x: nat, p: nat)
    ensures base * (rest + x * p) == base * rest + x * (base * p)
  {
    assert base * (x * p) == x * (base * p);
  }

  lemma Scaled(base: nat, x: nat, y: nat)
    requires x <= y
    ensures base * x <= base * y
  {
    MulMonotone(x, y, base);
    assert base * x == x * base && base * y == y * base;
  }

  /** Index i belongs into byte i / k, above the i % k indices that are there. */
  lemma PlaceOf(indices: seq<nat>, i: nat, bits: nat)
    requires bits in {2, 4} && i < |indices|
    ensures var base, k := Levels(bits), GroupIndices(bits);
            && i / k < PackedGroups(|indices|, bits) * GroupBytes(bits)
            && Power(base, i) == Power(base, i % k) * Power(256, i / k)
  {
    var base, k := Levels(bits), GroupIndices(bits);
    Decompose(i, k);
    assert i == i % k + k * (i / k);
    PowerSum(base, i % k, k * (i / k));
    PowerOfPower(base, k, i / k);
    GroupPowers(bits);
    assert Power(256, 1) == 256;
  }

  /** Adding index i in its place. */
  lemma AddIndex(bytes: seq<nat>, indices: seq<nat>, i: nat, bits: nat, b: nat, p: nat)
    requires bits in {2, 4} && i < |indices| && AllBelow(Levels(bits), indices) && HoldsFirst(bytes, indices, i, bits)
    requires b == i / GroupIndices(bits) && b < |bytes| && p == Power(Levels(bits), i % GroupIndices(bits))
    ensures bytes[b] < p && HoldsFirst(bytes[b := bytes[b] + indices[i] * p], indices, i + 1, bits)
  {
    PlaceOf(indices, i, bits);
    NextValue(Levels(bits), indices, i);
    ValueBound(Levels(bits), indices[..i]);
    PutAtPlace(bytes, b, indices[i], p, Value(Levels(bits), indices[..i]), Power(Levels(bits), i));
    FitsByte(bytes[b], indices[i], bits, i % GroupIndices(bits), p);
  }

  lemma NextValue(base: nat, indices: seq<nat>, i: nat)
    requires i < |indices|
    ensures Value(base, indices[..i + 1]) == Value(base, indices[..i]) + indices[i] * Power(base, i)
  {
    assert indices[..i + 1] == indices[..i] + [indices[i]];
    ValueConcat(base, indices[..i], [indices[i]]);
    assert Value(base, [indices[i]]) == indices[i];
    Commute(Power(base, i), indices[i]);
  }

  /** Bytes of a number below q, which is p places into byte b, take d more at that place. */
  lemma PutAtPlace(bytes: seq<nat>, b: nat, d: nat, p: nat, v: nat, q: nat)
    requires b < |bytes| && Value(256, bytes) == v < q && q == p * Power(256, b)
    ensures bytes[b] < p && Value(256, bytes[b := bytes[b] + d * p]) == v + d * q
  {
    ValueOfUpdate(256, bytes, b, d * p);
    DigitAtMost(256, bytes, b);
    BelowPlace(bytes[b], p, Power(256, b));
    TimesInTurn(d, p, Power(256, b), q);
  }

  lemma TimesInTurn(d: nat, p: nat, w: nat, q: nat)
    requires q == p * w
    ensures d * p * w == d * q
  {}

  lemma BelowPlace(x: nat, p: nat, q: nat)
    requires x * q < p * q
    ensures x < p
  {
    if p <= x {
      MulMonotone(p, x, q);
      assert false;
    }
  }

  /** Fewer than k indices leave room for one more in the byte. */
  lemma FitsByte(x: nat, d: nat, bits: nat, s: nat, p: nat)
    requires bits in {2, 4} && s < GroupIndices(bits) && p == Power(Levels(bits), s) && x < p && d < Levels(bits)
    ensures x + d * p < 256
  {
    assert Power(4, 1) == 4 && Power(4, 2) == 16 && Power(4, 3) == 64 && Power(16, 1) == 16;
  }

  /** Once all indices are in, the array holds the packed block. */
  lemma HoldsAll(bytes: seq<nat>, indices: seq<nat>, bits: nat)
    requires HoldsFirst(bytes, indices, |indices|, bits)
    ensures bytes == Pack(indices, bits)
  {
    assert indices[..|indices|] == indices;
    DigitsOfValue(256, bytes);
  }

  /** An array of zeros holds no index. */
  lemma HoldsNone(bytes: seq<nat>, indices: seq<nat>, bits: nat)
    requires |bytes| == PackedGroups(|indices|, bits) * GroupBytes(bits)
    requires forall k :: 0 <= k < |bytes| ==> bytes[k] == 0
    ensures HoldsFirst(bytes, indices, 0, bits)
  {
    ZeroValue(256, bytes);
  }

  // ------------------------------------------------------------------ 2 and 4 bits

  /** Four indices to the byte, each or-ed into its place. */
  method Pack2(indices: seq<nat>) returns (packed: array<nat>)
    requires AllBelow(4, indices)
    ensures fresh(packed) && packed[..] == Pack(indices, 2)
  {
    packed := new nat[(|indices| + 3) / 4](_ => 0);
    HoldsNone(packed[..], indices, 2);
    for i := 0 to |indices|
      invariant HoldsFirst(packed[..], indices, i, 2)
    {
      ghost var before := packed[..];
      OrIndex2(before, indices, i);
      packed[i / 4] := Or(packed[i / 4], indices[i] % 4 * Power(2, i % 4 * 2));
      assert packed[..] == before[i / 4 := packed[i / 4]];
    }
    HoldsAll(packed[..], indices, 2);
  }

  lemma OrIndex2(bytes: seq<nat>, indices: seq<nat>, i: nat)
    requires i < |indices| && AllBelow(4, indices) && HoldsFirst(bytes, indices, i, 2)
    ensures i / 4 < |bytes|
    ensures HoldsFirst(bytes[i / 4 := Or(bytes[i / 4], indices[i] % 4 * Power(2, i % 4 * 2))], indices, i + 1, 2)
  {
    PlaceOf(indices, i, 2);
    AddIndex(bytes, indices, i, 2, i / 4, Power(4, i % 4));
    OrCrumb(bytes[i / 4], indices[i], i % 4);
  }

  lemma OrCrumb(x: nat, d: nat, s: nat)
    requires s < 4 && d < 4 && x < Power(4, s)
    ensures Or(x, d % 4 * Power(2, s * 2)) == x + d * Power(4, s)
  {
    FourIsTwoBits(s);
    OrPlaced(x, d, s * 2, d % 4 * Power(2, s * 2), Power(4, s));
  }

  lemma FourIsTwoBits(s: nat)
    ensures Power(4, s) == Power(2, s * 2)
  {
    PowerOfPower(2, 2, s);
    assert Power(2, 2) == 4 by { assert Power(2, 1) == 2; }
  }

  /** Two indices to the byte: the even one is stored, the odd one or-ed above it. */
  method Pack4(indices: seq<nat>) returns (packed: array<nat>)
    requires AllBelow(16, indices)
    ensures fresh(packed) && packed[..] == Pack(indices, 4)
  {
    packed := new nat[(|indices| + 1) / 2](_ => 0);
    HoldsNone(packed[..], indices, 4);
    for i := 0 to |indices|
      invariant HoldsFirst(packed[..], indices, i, 4)
    {
      ghost var before := packed[..];
      OrIndex4(before, indices, i);
      if i % 2 == 0 {
        packed[i / 2] := indices[i] % 16;
      } else {
        packed[i / 2] := Or(packed[i / 2], indices[i] % 16 * 16);
      }
      assert packed[..] == before[i / 2 := packed[i / 2]];
    }
    HoldsAll(packed[..], indices, 4);
  }

  lemma OrIndex4(bytes: seq<nat>, indices: seq<nat>, i: nat)
    requires i < |indices| && AllBelow(16, indices) && HoldsFirst(bytes, indices, i, 4)
    ensures i / 2 < |bytes|
    ensures var v := if i % 2 == 0 then indices[i] % 16 else Or(bytes[i / 2], indices[i] % 16 * 16);
            HoldsFirst(bytes[i / 2 := v], indices, i + 1, 4)
  {
    PlaceOf(indices, i, 4);
    AddIndex(bytes, indices, i, 4, i / 2, Power(16, i % 2));
    if i % 2 == 0 {
      OnlyNibble(bytes[i / 2], indices[i]);
    } else {
      OrNibble(bytes[i / 2], indices[i]);
    }
  }

  lemma OnlyNibble(x: nat, d: nat)
    requires d < 16 && x < Power(16, 0)
    ensures d % 16 == x + d * Power(16, 0)
  {}

  lemma OrNibble(x: nat, d: nat)
    requires d < 16 && x < Power(16, 1)
    ensures Or(x, d % 16 * 16) == x + d * Power(16, 1)
  {
    assert Power(16, 1) == 16;
    SixteenIsFourBits();
    OrPlaced(x, d, 4, d % 16 * 16, 16);
  }

  lemma SixteenIsFourBits()
    ensures Power(2, 4) == 16
  {
    assert Power(2, 2) == 4;
  }

  // ------------------------------------------------------------------ 3 bits

  /** The eight indices of group g, or what is left of them. */
  function Group(indices: seq<nat>, g: nat): seq<nat>
    requires 8 * g <= |indices|
  {
    indices[8 * g..if 8 * g + 8 < |indices| then 8 * g + 8 else |indices|]
  }

  /** The first g groups of indices stand in the first 3 g bytes. */
  ghost predicate HoldsGroups(bytes: seq<nat>, indices: seq<nat>, g: nat) {
    && |bytes| == 3 * g && AllBelow(256, bytes)
    && Value(256, bytes) == Value(8, if 8 * g <= |indices| then indices[..8 * g] else indices)
  }

  /** Eight indices to three bytes, gathered in a word first. */
  method Pack3(indices: seq<nat>) returns (packed: array<nat>)
    requires AllBelow(8, indices)
    ensures fresh(packed) && packed[..] == Pack(indices, 3)
  {
    var groups := (|indices| + 7) / 8;
    packed := new nat[groups * 3](_ => 0);
    assert indices[..0] == [];
    for g := 0 to groups
      invariant HoldsGroups(packed[..3 * g], indices, g)
    {
      var word := Gathered(indices, g);
      ghost var before := packed[..3 * g];
      StoreWord(packed, g, word);
      OneMoreGroup(before, indices, g, word);
    }
    assert packed[..3 * groups] == packed[..];
    AllGroupsHeld(packed[..], indices, groups);
  }

  /** The three bytes of a word, the lowest first. */
  function WordBytes(word: nat): seq<nat> { [word % 256, word / 256 % 256, word / 65536 % 256] }

  method StoreWord(packed: array<nat>, g: nat, word: nat)
    requires 3 * (g + 1) <= packed.Length
    modifies packed
    ensures packed[..3 * (g + 1)] == old(packed[..3 * g]) + WordBytes(word)
  {
    packed[g * 3] := word % 256;
    packed[g * 3 + 1] := word / 256 % 256;
    packed[g * 3 + 2] := word / 65536 % 256;
  }

  /** The word of group g: its indices or-ed together, each three bits above the one before. */
  method Gathered(indices: seq<nat>, g: nat) returns (word: nat)
    requires AllBelow(8, indices) && 8 * g < |indices|
    ensures word == Value(8, Group(indices, g))
  {
    word := 0;
    var base := g * 8;
    ghost var group := Group(indices, g);
    assert group[..|group|] == group;
    for i := 0 to 8
      invariant word == Value(8, if i <= |group| then group[..i] else group)
    {
      if base + i < |indices| {
        OrDigit(group, i, word);
        word := Or(word, indices[base + i] * Power(2, i * 3));
      }
    }
  }

  lemma AllGroupsHeld(bytes: seq<nat>, indices: seq<nat>, groups: nat)
    requires groups == (|indices| + 7) / 8 && HoldsGroups(bytes, indices, groups)
    ensures bytes == Pack(indices, 3)
  {
    assert indices[..|indices|] == indices;
    DigitsOfValue(256, bytes);
  }

  lemma OrDigit(group: seq<nat>, i: nat, word: nat)
    requires AllBelow(8, group) && i < |group| && word == Value(8, group[..i])
    ensures Or(word, group[i] * Power(2, i * 3)) == Value(8, group[..i + 1])
  {
    NextValue(8, group, i);
    ValueBound(8, group[..i]);
    PowerOfPower(2, 3, i);
    assert Power(2, 3) == 8 by { assert Power(2, 2) == 4 by { assert Power(2, 1) == 2; } }
    OrIsSum(word, group[i], i * 3);
  }

  lemma OneMoreGroup(bytes: seq<nat>, indices: seq<nat>, g: nat, word: nat)
    requires AllBelow(8, indices) && 8 * g < |indices| && HoldsGroups(bytes, indices, g)
    requires word == Value(8, Group(indices, g))
    ensures HoldsGroups(bytes + WordBytes(word), indices, g + 1)
  {
    var group, three := Group(indices, g), WordBytes(word);
    WordFits(group, word);
    ThreeDigits(three);
    ValueConcat(256, bytes, three);
    ValueConcat(8, indices[..8 * g], group);
    GroupPowers(3);
    PowerOfPower(8, 8, g);
    PowerOfPower(256, 3, g);
    assert indices[..8 * g] + group == if 8 * (g + 1) <= |indices| then indices[..8 * (g + 1)] else indices;
  }

  lemma WordFits(group: seq<nat>, word: nat)
    requires AllBelow(8, group) && |group| <= 8 && word == Value(8, group)
    ensures word == word % 256 + word / 256 % 256 * 256 + word / 65536 % 256 * 65536
  {
    TrailingZeros(8, group, 8 - |group|);
    ValueBound(8, group + seq(8 - |group|, _ => 0));
    EightPowers();
    WordSplits(word);
  }

  lemma WordSplits(word: nat)
    requires word < 16777216
    ensures word == word % 256 + word / 256 % 256 * 256 + word / 65536 % 256 * 65536
  {
    var high := word / 256;
    assert word == word % 256 + 256 * high && high == high % 256 + 256 * (high / 256);
    assert word / 65536 == high / 256 && high / 256 % 256 == high / 256;
  }

  // ------------------------------------------------------------------ any width

  /** The reader unpacks what the extension packs: the same bytes, for any number of indices. */
  method PackIndices(indices: seq<nat>, bits: nat) returns (packed: array<nat>)
    requires bits in {2, 3, 4} && AllBelow(Levels(bits), indices)
    ensures fresh(packed) && packed[..] == Pack(indices, bits)
    ensures UnpackIndices(packed[..], bits, |indices|) == Some(indices)
  {
    UnpackInvertsPack(indices, bits);
    if bits == 2 {
      packed := Pack2(indices);
    } else if bits == 4 {
      packed := Pack4(indices);
    } else {
      packed := Pack3(indices);
    }
  }

  /**
   * What the reader finds in the codes: for every value the index of the nearest entry of the extension's
   * table, and for 2 and 3 bits of its own.
   */
  ghost predicate ReadsAsNearest(codes: seq<nat>, vals: seq<real>, bits: nat)
    requires bits in {2, 3, 4}
  {
    var read := UnpackIndices(codes, bits, |vals|);
    && read.Some? && |read.value| == |vals|
    && forall i :: 0 <= i < |vals| ==>
         && IsCodeOf(read.value[i], vals[i], Table(bits))
         && (bits < 4 ==> IsCodeOf(read.value[i], vals[i], Codebook(bits)))
  }

  /** From coordinates to bytes: quantise every value and pack the indices. */
  method QuantizeAndPack(vals: seq<real>, bits: nat) returns (packed: array<nat>)
    requires bits in {2, 3, 4}
    ensures fresh(packed) && ReadsAsNearest(packed[..], vals, bits)
  {
    var indices: seq<nat> := [];
    for i := 0 to |vals|
      invariant |indices| == i && forall k :: 0 <= k < i ==> IsCodeOf(indices[k], vals[k], Table(bits))
    {
      var index := Quantize(vals[i], bits);
      indices := indices + [index];
    }
    forall k | 0 <= k < |vals|
      ensures indices[k] < Levels(bits) && (bits < 4 ==> IsCodeOf(indices[k], vals[k], Codebook(bits)))
    {
      TablesAgreeExactlyWhen(bits, 0);
      if bits < 4 {
        ReaderFindsNearest(vals[k], bits, indices[k]);
      }
    }
    packed := PackIndices(indices, bits);
  }
}
