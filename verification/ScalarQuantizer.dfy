/**
 * The scalar quantiser of the Postgres extension, decision trees over fixed boundaries for 2 and 3 bits
 * and a scan over midpoints for 4 bits, and what the record reader's tables make of its codes.
 */
module ScalarQuantizer {
  import opened BitPacking
  import opened RealArithmetic
  import opened Tqe1Decode

  const CODEBOOK_2BIT: seq<real> := [-1.510, -0.453, 0.453, 1.510]
  const CODEBOOK_3BIT: seq<real> := [-1.748, -1.050, -0.500, -0.069, 0.069, 0.500, 1.050, 1.748]
  const CODEBOOK_4BIT: seq<real> :=
    [-2.401, -1.844, -1.437, -1.099, -0.800, -0.523, -0.258, 0.000,
     0.258, 0.523, 0.800, 1.099, 1.437, 1.844, 2.401, 2.401]
  const BOUNDS_2BIT: seq<real> := [-0.9815, 0.0, 0.9815]
  const BOUNDS_3BIT: seq<real> := [-1.399, -0.775, -0.2845, 0.0, 0.2845, 0.775, 1.399]

  /** The table the extension decodes by; other widths count as 3 bits. */
  function Table(bits: nat): seq<real> {
    if bits == 2 then CODEBOOK_2BIT else if bits == 4 then CODEBOOK_4BIT else CODEBOOK_3BIT
  }

  function Quantize2(val: real): nat {
    if val < BOUNDS_2BIT[1] then (if val < BOUNDS_2BIT[0] then 0 else 1)
    else if val < BOUNDS_2BIT[2] then 2 else 3
  }

  function Quantize3(val: real): nat {
    if val < BOUNDS_3BIT[3] then
      if val < BOUNDS_3BIT[1] then (if val < BOUNDS_3BIT[0] then 0 else 1)
      else if val < BOUNDS_3BIT[2] then 2 else 3
    else if val < BOUNDS_3BIT[5] then (if val < BOUNDS_3BIT[4] then 4 else 5)
    else if val < BOUNDS_3BIT[6] then 6 else 7
  }

  /** The first of the sixteen entries whose midpoint with the next lies above the value, or the last. */
  method Quantize4(val: real) returns (i: nat)
    ensures IsCodeOf(i, val, CODEBOOK_4BIT)
  {
    i := 0;
    while i < 15
      invariant i <= 15
      invariant i > 0 ==> CODEBOOK_4BIT[i - 1] + CODEBOOK_4BIT[i] <= 2.0 * val
    {
      var mid := (CODEBOOK_4BIT[i] + CODEBOOK_4BIT[i + 1]) / 2.0;
      if val < mid {
        break;
      }
      i := i + 1;
    }
    TablesAscend(4);
    NeighboursDecide(CODEBOOK_4BIT, val, i);
  }

  /** The index for a value at the given width names the nearest entry of the table it is decoded by. */
  method Quantize(val: real, bits: nat) returns (i: nat)
    ensures IsCodeOf(i, val, Table(bits))
  {
    TreesFindNearest(val);
    if bits == 2 {
      i := Quantize2(val);
    } else if bits == 4 {
      i := Quantize4(val);
    } else {
      i := Quantize3(val);
    }
  }

  /** Entry i is nearest to val, and the largest of the nearest. */
  ghost predicate IsCodeOf(i: nat, val: real, table: seq<real>) {
    i < |table| && forall j :: 0 <= j < |table| ==> IsNearer(table[i], table[j], val)
  }

  ghost predicate IsNearer(a: real, b: real, val: real) {
    Abs(val - a) <= Abs(val - b) && (Abs(val - a) == Abs(val - b) ==> b <= a)
  }

  ghost predicate Ascends(table: seq<real>) {
    forall i, j :: 0 <= i < j < |table| ==> table[i] <= table[j]
  }

  /** In an ascending table it is enough to compare with the midpoints on either side. */
  lemma NeighboursDecide(table: seq<real>, val: real, i: nat)
    requires Ascends(table) && i < |table|
    requires i > 0 ==> table[i - 1] + table[i] <= 2.0 * val
    requires i + 1 < |table| ==> 2.0 * val < table[i] + table[i + 1]
    ensures IsCodeOf(i, val, table)
  {
    forall j | 0 <= j < |table| ensures IsNearer(table[i], table[j], val) {
      if j < i {
        assert table[j] <= table[i - 1] <= table[i];
      } else if j > i {
        assert table[i] <= table[i + 1] <= table[j];
      }
    }
  }

  lemma TablesAscend(bits: nat)
    ensures Ascends(Table(bits))
  {}

  /** The boundaries of both trees lie half way between the entries. */
  lemma TreesFindNearest(val: real)
    ensures IsCodeOf(Quantize2(val), val, CODEBOOK_2BIT)
    ensures IsCodeOf(Quantize3(val), val, CODEBOOK_3BIT)
  {
    TablesAscend(2);
    TablesAscend(3);
    NeighboursDecide(CODEBOOK_2BIT, val, Quantize2(val));
    NeighboursDecide(CODEBOOK_3BIT, val, Quantize3(val));
  }

  // ------------------------------------------------------------------ what the reader makes of the codes

  /** The reader's table has the same entries, but for the inner ones of the 4-bit table. */
  lemma TablesAgreeExactlyWhen(bits: nat, i: nat)
    requires bits in {2, 3, 4} && i < Levels(bits)
    ensures |Table(bits)| == Levels(bits)
    ensures Table(bits)[i] == Codebook(bits)[i] <==> bits < 4 || i < 5 || i == 15
  {
    assert bits == 2 || bits == 3 || bits == 4;
  }

  /** So the reader decodes a 2-bit or 3-bit code to the centroid nearest to the value that was quantised. */
  lemma ReaderFindsNearest(val: real, bits: nat, i: nat)
    requires bits in {2, 3} && IsCodeOf(i, val, Table(bits))
    ensures IsCodeOf(i, val, Codebook(bits))
  {
    forall j | 0 <= j < Levels(bits) ensures Table(bits)[j] == Codebook(bits)[j] {
      TablesAgreeExactlyWhen(bits, j);
    }
    assert Codebook(bits) == Table(bits);
  }

  /** But it decodes the 4-bit code of 0.8 to 0.524, though 0.8 is in its own table. */
  lemma FourBitCodeMisread(i: nat)
    requires IsCodeOf(i, 0.8, Table(4))
    ensures Codebook(4)[i] == 0.524 && 0.8 in Codebook(4)
  {
    assert IsNearer(CODEBOOK_4BIT[i], CODEBOOK_4BIT[10], 0.8);
    assert i == 10 && Codebook(4)[11] == 0.8;
  }
}
