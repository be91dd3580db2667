/** The bytes Fluss itself writes for one row with a nested array and row, in both layouts. */
module RowFixtures {
  import opened Bytes
  import opened Schema
  import opened RowCodec

  const INTEGER := LogicalType(WordRoot(Int), true)
  const STRING := LogicalType(TextRoot(Str), true)
  const FLUSS: ByteString := [102, 108, 117, 115, 115]
  const GO: ByteString := [103, 111]

  function InnerFields(): seq<LogicalType>
  {
    [INTEGER, STRING]
  }

  function InnerRow(): seq<Value>
  {
    [IntV(7), TextV(GO)]
  }

  function Elements(): seq<Value>
  {
    [IntV(1), Null, IntV(-2)]
  }

  function Fields(): seq<LogicalType>
  {
    [INTEGER, STRING, LogicalType(Array(INTEGER), true), LogicalType(Row(InnerFields()), true)]
  }

  function FixtureRow(): seq<Value>
  {
    [IntV(42), TextV(FLUSS), ArrayV(Elements()), RowV(InnerRow())]
  }

  lemma Digits()
    ensures Var(42) == [42] && Var(7) == [7] && Var(5) == [5] && Var(2) == [2] && Var(24) == [24]
    ensures Little(42, 4) == [42, 0, 0, 0] && Little(7, 4) == [7, 0, 0, 0] && Little(1, 4) == [1, 0, 0, 0]
    ensures Little(3, 4) == [3, 0, 0, 0] && Little(5, 4) == [5, 0, 0, 0] && Little(2, 4) == [2, 0, 0, 0]
    ensures Little(24, 4) == [24, 0, 0, 0] && Little(11, 4) == [11, 0, 0, 0]
    ensures Little(0xffff_fffe, 4) == [254, 255, 255, 255]
  {
    Small(42);
    Small(7);
    Small(1);
    Small(3);
    Small(5);
    Small(2);
    Small(24);
    Small(11);
    assert Little(0xff, 1) == [255] + Little(0, 0);
    assert Little(0xffff, 2) == [255] + Little(0xff, 1);
    assert Little(0xff_ffff, 3) == [255] + Little(0xffff, 2);
    assert Little(0xffff_fffe, 4) == [254] + Little(0xff_ffff, 3);
  }

  lemma Small(n: Byte)
    ensures Little(n, 4) == [n, 0, 0, 0]
  {
    assert Little(0, 1) == [0] + Little(0, 0);
    assert Little(0, 2) == [0] + Little(0, 1);
    assert Little(0, 3) == [0] + Little(0, 2);
    assert Little(n, 4) == [n] + Little(0, 3);
  }

  lemma {:induction false} NoFlag(flags: seq<bool>, index: nat, upTo: nat)
    requires upTo <= 8 && forall k :: 0 <= k < |flags| && k / 8 == index ==> !flags[k]
    ensures BitmapByte(flags, index, upTo) == 0
  {
    if upTo > 0 {
      NoFlag(flags, index, upTo - 1);
    }
  }

  lemma Bitmaps()
    ensures Bitmap([false, true, false], 4) == [2, 0, 0, 0]
    ensures Bitmap([false, false], 1) == [0] && Bitmap([false, false, false, false], 1) == [0]
  {
    hide BitmapByte;
    NoFlag([false, false], 0, 8);
    NoFlag([false, false, false, false], 0, 8);
    var flags := [false, true, false];
    NoFlag(flags, 1, 8);
    NoFlag(flags, 2, 8);
    NoFlag(flags, 3, 8);
    SecondFlag();
    var bytes := Bitmap(flags, 4);
    assert bytes[0] == 2 && bytes[1] == 0 && bytes[2] == 0 && bytes[3] == 0;
    assert Bitmap([false, false], 1)[0] == 0 && Bitmap([false, false, false, false], 1)[0] == 0;
  }

  lemma SecondFlag()
    ensures BitmapByte([false, true, false], 0, 8) == 2
  {
    var flags := [false, true, false];
    assert BitmapByte(flags, 0, 1) == 0;
    assert BitmapByte(flags, 0, 2) == SetBit(0, 1) == 2;
    assert BitmapByte(flags, 0, 3) == 2;
    assert BitmapByte(flags, 0, 4) == 2;
    assert BitmapByte(flags, 0, 5) == 2;
    assert BitmapByte(flags, 0, 6) == 2;
    assert BitmapByte(flags, 0, 7) == 2;
  }

  // ------------------------------------------------------------------------- the array

  const ARRAY_BYTES: ByteString :=
    [3, 0, 0, 0] + [2, 0, 0, 0] + [1, 0, 0, 0, 0, 0, 0, 0, 254, 255, 255, 255] + [0, 0, 0, 0]

  /** One more element in front. */
  lemma ElementStep(layout: Layout, vs: seq<Value>, i: nat, slot: ByteString, rest: ByteString)
    requires i < |vs| && (vs[i].Null? || (Fits(INTEGER.root, vs[i]) && slot == FixedWord(Int, vs[i])))
    requires vs[i].Null? ==> slot == [0, 0, 0, 0]
    requires EncodeElements(layout, INTEGER, vs, i + 1, 24) == Ok(Element(rest, []))
    ensures EncodeElements(layout, INTEGER, vs, i, 24) == Ok(Element(slot + rest, []))
  {
    hide FixedWord;
    assert Zeros(4) == [0, 0, 0, 0] && SlotSize(INTEGER.root) == 4;
    if !vs[i].Null? {
      assert EncodeElement(layout, INTEGER.root, vs[i], 24) == Ok(Element(slot, []));
    }
  }

  lemma ArrayFixture(layout: Layout)
    ensures EncodeArray(layout, INTEGER, Elements()) == Ok(ARRAY_BYTES)
  {
    hide Little, Bitmap, EncodeElements, FixedBytes, Slots, SlotAt, FixedWord;
    Digits();
    Bitmaps();
    Spaces();
    ElementsFixture(layout);
    var vs := Elements();
    assert NullFlags(vs) == [false, true, false];
    assert Zeros(4) == [0, 0, 0, 0];
    assert ARRAY_BYTES + [] == ARRAY_BYTES;
  }

  lemma ElementsFixture(layout: Layout)
    ensures EncodeElements(layout, INTEGER, Elements(), 0, 24)
         == Ok(Element([1, 0, 0, 0, 0, 0, 0, 0, 254, 255, 255, 255], []))
  {
    hide EncodeElements, FixedWord;
    Words();
    var vs := Elements();
    NoElements(layout, vs);
    var last: ByteString := [254, 255, 255, 255];
    assert last + [] == last;
    ElementStep(layout, vs, 2, last, []);
    ElementStep(layout, vs, 1, [0, 0, 0, 0], last);
    ElementStep(layout, vs, 0, [1, 0, 0, 0], [0, 0, 0, 0] + last);
    assert [1, 0, 0, 0] + ([0, 0, 0, 0] + last) == [1, 0, 0, 0, 0, 0, 0, 0, 254, 255, 255, 255];
  }

  lemma Spaces()
    ensures Slots(INTEGER.root, 3) == 12 && FixedBytes(INTEGER.root, 3) == 24 && SlotAt(INTEGER.root, 3, 3) == 20
    ensures WordBytes(3) == 4
  {
    var root := INTEGER.root;
    assert Slots(root, 1) == 4 && Slots(root, 2) == 8;
  }

  lemma Words()
    ensures FixedWord(Int, IntV(1)) == [1, 0, 0, 0] && FixedWord(Int, IntV(-2)) == [254, 255, 255, 255]
  {
    hide Little;
    Digits();
    assert Unsigned(1, TWO_32) == 1 && Unsigned(-2, TWO_32) == 0xffff_fffe;
  }

  lemma NoElements(layout: Layout, vs: seq<Value>)
    ensures EncodeElements(layout, INTEGER, vs, |vs|, 24) == Ok(Element([], []))
  {
  }

  // -------------------------------------------------------------------------- the rows

  const INNER_COMPACTED: ByteString := [0, 7, 2] + GO
  const INNER_INDEXED: ByteString := [0, 2, 0, 0, 0, 7, 0, 0, 0] + GO

  lemma InnerValid()
    ensures ValidSchema(InnerFields()) && ValidRow(InnerFields(), InnerRow())
  {
    var f, r := InnerFields(), InnerRow();
    assert Accepts(f[0], r[0]) && Accepts(f[1], r[1]);
  }

  /** One more non-null cell in front. */
  lemma CellStep(layout: Layout, fields: seq<LogicalType>, row: seq<Value>, i: nat, size: nat, value: ByteString,
                 parts: RowParts)
    requires ValidRow(fields, row) && i < |fields| && !row[i].Null? && size + |value| <= 1000
    requires Fits(fields[i].root, row[i]) && CellValue(layout, fields[i], row[i]) == Ok(value)
    requires EncodeCells(layout, fields, row, i + 1, size + |value|) == Ok(parts)
    ensures EncodeCells(layout, fields, row, i, size)
         == Ok(RowParts(LengthOf(layout, fields[i].root, value) + parts.lengths, value + parts.data))
  {
    hide CellValue, LengthOf, ValidRow;
  }

  lemma NoCells(layout: Layout, fields: seq<LogicalType>, row: seq<Value>, size: nat)
    requires ValidRow(fields, row)
    ensures EncodeCells(layout, fields, row, |fields|, size) == Ok(RowParts([], []))
  {
  }

  lemma InnerCompacted()
    ensures EncodeRow(Compacted, InnerFields(), InnerRow()) == Ok(INNER_COMPACTED)
  {
    hide Var, Bitmap, EncodeCells, ValidSchema, ValidRow;
    Digits();
    Bitmaps();
    InnerValid();
    var f, r := InnerFields(), InnerRow();
    assert Unsigned(7, TWO_32) == 7;
    assert LengthSlots(Compacted, f, 2) == 0 && LengthSlots(Compacted, f, 1) == 0 && LengthSlots(Compacted, f, 0) == 0;
    NoCells(Compacted, f, r, 5);
    CellStep(Compacted, f, r, 1, 2, [2] + GO, RowParts([], []));
    CellStep(Compacted, f, r, 0, 1, [7], RowParts([] + [], [2] + GO + []));
    assert NullFlags(r) == [false, false];
    assert EncodeRow(Compacted, f, r).value == INNER_COMPACTED;
  }

  lemma InnerIndexed()
    ensures EncodeRow(Indexed, InnerFields(), InnerRow()) == Ok(INNER_INDEXED)
  {
    hide Little, Bitmap, EncodeCells, ValidSchema, ValidRow;
    Digits();
    Bitmaps();
    InnerValid();
    var f, r := InnerFields(), InnerRow();
    assert Unsigned(7, TWO_32) == 7;
    assert LengthSlots(Indexed, f, 2) == 0 && LengthSlots(Indexed, f, 1) == 4 && LengthSlots(Indexed, f, 0) == 4;
    NoCells(Indexed, f, r, 11);
    CellStep(Indexed, f, r, 1, 9, GO, RowParts([], []));
    CellStep(Indexed, f, r, 0, 5, [7, 0, 0, 0], RowParts([2, 0, 0, 0] + [], GO + []));
    assert NullFlags(r) == [false, false];
    assert EncodeRow(Indexed, f, r).value == INNER_INDEXED;
  }

  // --------------------------------------------------------------------- the whole row

  lemma RowIsValid()
    ensures ValidSchema(Fields()) && ValidRow(Fields(), FixtureRow())
    ensures Fits(Fields()[2].root, FixtureRow()[2]) && Fits(Fields()[3].root, FixtureRow()[3])
  {
    var f, r, e := Fields(), FixtureRow(), Elements();
    InnerValid();
    assert Accepts(INTEGER, e[0]) && Accepts(INTEGER, e[1]) && Accepts(INTEGER, e[2]);
    assert AllAccepted(INTEGER, e);
    assert ValidType(INTEGER) && ValidType(STRING);
    assert forall i :: 0 <= i < |InnerFields()| ==> ValidType(InnerFields()[i]);
    assert Accepts(f[0], r[0]) && Accepts(f[1], r[1]) && Accepts(f[2], r[2]) && Accepts(f[3], r[3]);
  }

  lemma CompactedCells()
    ensures CellValue(Compacted, Fields()[0], FixtureRow()[0]) == Ok([42])
    ensures CellValue(Compacted, Fields()[1], FixtureRow()[1]) == Ok([5] + FLUSS)
    ensures Fits(Fields()[2].root, FixtureRow()[2]) && Fits(Fields()[3].root, FixtureRow()[3])
    ensures CellValue(Compacted, Fields()[2], FixtureRow()[2]) == Ok([24] + ARRAY_BYTES)
    ensures CellValue(Compacted, Fields()[3], FixtureRow()[3]) == Ok([5] + INNER_COMPACTED)
  {
    hide Var, EncodeArray, EncodeRow, Fits;
    Digits();
    RowIsValid();
    ArrayFixture(Compacted);
    InnerCompacted();
    assert Unsigned(42, TWO_32) == 42;
  }

  lemma IndexedCells()
    ensures CellValue(Indexed, Fields()[0], FixtureRow()[0]) == Ok([42, 0, 0, 0])
    ensures CellValue(Indexed, Fields()[1], FixtureRow()[1]) == Ok(FLUSS)
    ensures Fits(Fields()[2].root, FixtureRow()[2]) && Fits(Fields()[3].root, FixtureRow()[3])
    ensures CellValue(Indexed, Fields()[2], FixtureRow()[2]) == Ok(ARRAY_BYTES)
    ensures CellValue(Indexed, Fields()[3], FixtureRow()[3]) == Ok(INNER_INDEXED)
  {
    hide Little, EncodeArray, EncodeRow, Fits;
    Digits();
    RowIsValid();
    ArrayFixture(Indexed);
    InnerIndexed();
    assert Unsigned(42, TWO_32) == 42;
  }

  /** A row of four non-null cells: null byte, lengths, values. */
  lemma FourCells(layout: Layout, f: seq<LogicalType>, r: seq<Value>, a: ByteString, b: ByteString, c: ByteString,
                  d: ByteString, lengths: ByteString)
    requires |f| == |r| == 4 && ValidSchema(f) && ValidRow(f, r) && |a| + |b| + |c| + |d| <= 900
    requires forall i :: 0 <= i < 4 ==> !r[i].Null? && Fits(f[i].root, r[i])
    requires CellValue(layout, f[0], r[0]) == Ok(a) && CellValue(layout, f[1], r[1]) == Ok(b)
    requires CellValue(layout, f[2], r[2]) == Ok(c) && CellValue(layout, f[3], r[3]) == Ok(d)
    requires lengths == LengthOf(layout, f[0].root, a) + LengthOf(layout, f[1].root, b)
                        + LengthOf(layout, f[2].root, c) + LengthOf(layout, f[3].root, d)
    requires |lengths| == LengthSlots(layout, f, 0) <= 16
    ensures EncodeRow(layout, f, r) == Ok([0] + lengths + a + b + c + d)
  {
    hide Bitmap, EncodeCells, ValidSchema, ValidRow, CellValue, Fits, LengthOf, LengthSlots;
    var size := HeaderBytes(layout, f);
    var l0, l1 := LengthOf(layout, f[0].root, a), LengthOf(layout, f[1].root, b);
    var l2, l3 := LengthOf(layout, f[2].root, c), LengthOf(layout, f[3].root, d);
    NoCells(layout, f, r, size + |a| + |b| + |c| + |d|);
    CellStep(layout, f, r, 3, size + |a| + |b| + |c|, d, RowParts([], []));
    CellStep(layout, f, r, 2, size + |a| + |b|, c, RowParts(l3 + [], d + []));
    CellStep(layout, f, r, 1, size + |a|, b, RowParts(l2 + (l3 + []), c + (d + [])));
    CellStep(layout, f, r, 0, size, a, RowParts(l1 + (l2 + (l3 + [])), b + (c + (d + []))));
    Regroup(l0, l1, l2, l3);
    Regroup(a, b, c, d);
    Assembled(layout, f, r, lengths, a + b + c + d);
    FourInRow([0] + lengths, a, b, c, d);
  }

  lemma Regroup(a: ByteString, b: ByteString, c: ByteString, d: ByteString)
    ensures a + (b + (c + (d + []))) == a + b + c + d
  {
  }

  lemma FourInRow(head: ByteString, a: ByteString, b: ByteString, c: ByteString, d: ByteString)
    ensures head + (a + b + c + d) == head + a + b + c + d
  {
  }

  lemma Assembled(layout: Layout, f: seq<LogicalType>, r: seq<Value>, lengths: ByteString, data: ByteString)
    requires |f| == |r| == 4 && ValidSchema(f) && ValidRow(f, r) && (forall i :: 0 <= i < 4 ==> !r[i].Null?)
    requires |lengths| == LengthSlots(layout, f, 0)
    requires EncodeCells(layout, f, r, 0, HeaderBytes(layout, f)) == Ok(RowParts(lengths, data))
    ensures EncodeRow(layout, f, r) == Ok([0] + lengths + data)
  {
    hide Bitmap, EncodeCells, ValidSchema, ValidRow, LengthSlots, HeaderBytes;
    Bitmaps();
    assert NullFlags(r) == [false, false, false, false];
    assert [0] + lengths + [] == [0] + lengths;
  }

  /** The compacted bytes of the row. */
  lemma CompactedFixture()
    ensures EncodeRow(Compacted, Fields(), FixtureRow())
         == Ok([0] + [] + [42] + ([5] + FLUSS) + ([24] + ARRAY_BYTES) + ([5] + INNER_COMPACTED))
  {
    hide EncodeRow, ValidSchema, ValidRow, CellValue, LengthSlots;
    RowIsValid();
    CompactedCells();
    var f, r := Fields(), FixtureRow();
    NoSlots(f);
    assert forall i :: 0 <= i < 4 ==> !r[i].Null? && Fits(f[i].root, r[i]);
    FourCells(Compacted, f, r, [42], [5] + FLUSS, [24] + ARRAY_BYTES, [5] + INNER_COMPACTED, []);
  }

  lemma NoSlots(f: seq<LogicalType>)
    requires |f| == 4
    ensures LengthSlots(Compacted, f, 0) == 0
  {
    assert LengthSlots(Compacted, f, 4) == 0;
    assert LengthSlots(Compacted, f, 3) == 0;
    assert LengthSlots(Compacted, f, 2) == 0;
    assert LengthSlots(Compacted, f, 1) == 0;
  }

  lemma ThreeSlots()
    ensures LengthSlots(Indexed, Fields(), 0) == 12
  {
    var f := Fields();
    assert LengthSlots(Indexed, f, 4) == 0;
    assert LengthSlots(Indexed, f, 3) == 4;
    assert LengthSlots(Indexed, f, 2) == 8;
    assert LengthSlots(Indexed, f, 1) == 12;
  }

  const LENGTHS: ByteString := [5, 0, 0, 0, 24, 0, 0, 0, 11, 0, 0, 0]

  /** The indexed bytes of the row. */
  lemma IndexedFixture()
    ensures EncodeRow(Indexed, Fields(), FixtureRow())
         == Ok([0] + LENGTHS + [42, 0, 0, 0] + FLUSS + ARRAY_BYTES + INNER_INDEXED)
  {
    hide EncodeRow, ValidSchema, ValidRow, CellValue, LengthSlots, Little;
    Digits();
    RowIsValid();
    IndexedCells();
    var f, r := Fields(), FixtureRow();
    ThreeSlots();
    assert forall i :: 0 <= i < 4 ==> !r[i].Null? && Fits(f[i].root, r[i]);
    FourCells(Indexed, f, r, [42, 0, 0, 0], FLUSS, ARRAY_BYTES, INNER_INDEXED, LENGTHS);
  }
}
