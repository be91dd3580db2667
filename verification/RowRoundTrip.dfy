/**
 Decoding undoes encoding, for every schema and every valid row, in both layouts and at
 every depth of nesting, up to what the layout cannot store: `CanonRow` says exactly what
 survives, and `CanonicalRow` says exactly which rows survive unchanged.
 */
module RowRoundTrip {
  import opened Bytes
  import opened Schema
  import opened RowCodec
  import SignedBytes

  // ------------------------------------------------------------ what survives

  function CanonStamp(nanos: int, digits: nat): int
  {
    Signed(Millis(nanos), TWO_64) * NANOS_PER_MILLI + if digits > 3 then SubMillis(nanos) else 0
  }

  function CanonText(layout: Layout, text: Text, v: Value): Value
    requires TextFits(text, v)
  {
    if layout.Indexed? && FixedText(text) > 0 then TextValue(text, TrimZero(TextContent(text, v))) else v
  }

  /** `cell` tells a column of a row from an element of an array. */
  function CanonValue(layout: Layout, cell: bool, root: Root, v: Value): (r: Value)
    requires Fits(root, v)
    decreases root
  {
    match root
    case TextRoot(text) => if cell then CanonText(layout, text, v) else v
    case Timestamp(_, p) => StampV(CanonStamp(v.nanos, p))
    case Array(e) => ArrayV(CanonElements(layout, e, v.elements))
    case Map(k, e) =>
      MapV(Entries(CanonElements(layout, k, Keys(v.entries)), CanonElements(layout, e, Values(v.entries))))
    case Row(fields) => RowV(CanonRow(layout, fields, v.cells))
    case _ => v
  }

  function Canon(layout: Layout, cell: bool, t: LogicalType, v: Value): (r: Value)
    requires Accepts(t, v)
    decreases t, 0
  {
    if v.Null? then Null else CanonValue(layout, cell, t.root, v)
  }

  function CanonElements(layout: Layout, t: LogicalType, vs: seq<Value>): (r: seq<Value>)
    requires AllAccepted(t, vs)
    ensures |r| == |vs|
    decreases t, 1
  {
    seq(|vs|, i requires 0 <= i < |vs| => Canon(layout, false, t, vs[i]))
  }

  function CanonRow(layout: Layout, fields: seq<LogicalType>, row: seq<Value>): (r: seq<Value>)
    requires ValidRow(fields, row)
    ensures |r| == |row|
    decreases fields
  {
    seq(|row|, i requires 0 <= i < |row| => Canon(layout, true, fields[i], row[i]))
  }

  // ------------------------------------------------------------------ scalars

  /** The day-by-day reconstruction of a wall clock is the same instant arithmetic. */
  lemma WallClockIsInstant(local: bool, millis: int, nanos: int)
    ensures StampOf(local, millis, nanos) == millis * NANOS_PER_MILLI + nanos
  {
  }

  lemma DecimalRoundTrip(amount: real, precision: nat, scale: nat)
    requires Unscaled(amount, precision, scale).Ok?
    ensures Scaled(Unscaled(amount, precision, scale).value, scale) == amount
  {
    var p := SignedBytes.Pow10(scale) as real;
    assert p >= 1.0;
    assert amount * p / p == amount;
  }

  lemma SmallDecimal(n: int, precision: nat)
    requires precision <= 18 && SignedBytes.Abs(n) < SignedBytes.Pow10(precision)
    ensures Signed(Unsigned(n, TWO_64), TWO_64) == n
  {
    SignedBytes.Pow10Monotone(precision, 18);
    SignedBytes.TenTo18();
    SignedUnsigned(n, TWO_64);
  }

  lemma {:induction false} TrimAppendFixed(bytes: ByteString, length: nat)
    requires |bytes| <= length
    ensures TrimZero(bytes + Zeros(length - |bytes|)) == TrimZero(bytes)
    decreases length
  {
    if |bytes| < length {
      var padded := bytes + Zeros(length - |bytes|);
      assert padded[..|padded| - 1] == bytes + Zeros(length - 1 - |bytes|);
      TrimAppendFixed(bytes, length - 1);
    } else {
      assert bytes + Zeros(0) == bytes;
    }
  }

  lemma ReadLittle(value: nat, width: nat, encoded: ByteString, position: nat)
    requires value < Pow256(width) && HoldsAt(encoded, position, Little(value, width))
    ensures ReadFixed(encoded, position, width) == Ok((Little(value, width), position + width))
    ensures FromLittle(encoded[position..position + width]) == value
  {
    LittleExact(value, width);
  }

  lemma WordImage(word: Word, v: Value)
    requires WordFits(word, v)
    ensures WordOf(word, FixedWord(word, v)) == Ok(v)
  {
    PowersOf256();
    match word
    case Bool =>
    case TinyInt => SignedUnsigned(v.number, TWO_8);
    case SmallInt => SignedUnsigned(v.number, TWO_16); LittleExact(Unsigned(v.number, TWO_16), 2);
    case BigInt => SignedUnsigned(v.number, TWO_64); LittleExact(Unsigned(v.number, TWO_64), 8);
    case Float => LittleExact(v.bits, 4);
    case Double => LittleExact(v.bits, 8);
    case _ => SignedUnsigned(v.number, TWO_32); LittleExact(Unsigned(v.number, TWO_32), 4);
  }

  lemma FixedWordReads(word: Word, v: Value, encoded: ByteString, position: nat)
    requires WordFits(word, v) && HoldsAt(encoded, position, FixedWord(word, v))
    ensures ReadFixedWord(encoded, position, word) == Ok((v, position + WordWidth(word)))
  {
    WordImage(word, v);
  }

  lemma CompactedWordReads(word: Word, v: Value, encoded: ByteString, position: nat)
    requires WordFits(word, v) && HoldsAt(encoded, position, CompactedWord(word, v))
    ensures ReadCompactedWord(encoded, position, word) == Ok((v, position + |CompactedWord(word, v)|))
  {
    hide Var, ReadVar, Little, FromLittle;
    match word
    case Int => SignedUnsigned(v.number, TWO_32); ReadVar32(Unsigned(v.number, TWO_32), encoded, position);
    case Date => SignedUnsigned(v.number, TWO_32); ReadVar32(Unsigned(v.number, TWO_32), encoded, position);
    case Time => SignedUnsigned(v.number, TWO_32); ReadVar32(Unsigned(v.number, TWO_32), encoded, position);
    case BigInt => SignedUnsigned(v.number, TWO_64); ReadVar64(Unsigned(v.number, TWO_64), encoded, position);
    case _ =>
      assert CompactedWord(word, v) == FixedWord(word, v);
      FixedWordReads(word, v, encoded, position);
  }

  lemma CompactedStampReads(nanos: int, local: bool, digits: nat, encoded: ByteString, position: nat)
    requires HoldsAt(encoded, position, CompactedStamp(nanos, digits))
    ensures ReadCompactedStamp(encoded, position, local, digits)
         == Ok((StampV(CanonStamp(nanos, digits)), position + |CompactedStamp(nanos, digits)|))
  {
    hide Var, StampOf, HoldsAt, ReadVar;
    var m := Unsigned(Millis(nanos), TWO_64);
    var sub := if digits > 3 then SubMillis(nanos) else 0;
    var tail := if digits > 3 then Var(sub) else [];
    HoldsAtSplit(encoded, position, Var(m), tail);
    ReadVar64(m, encoded, position);
    SignedOfMod(Millis(nanos), TWO_64);
    WallClockIsInstant(local, Signed(Millis(nanos), TWO_64), sub);
    if digits > 3 {
      ReadVar32(sub, encoded, position + |Var(m)|);
    }
  }

  lemma IndexedStampReads(nanos: int, local: bool, digits: nat, encoded: ByteString, position: nat)
    requires HoldsAt(encoded, position, IndexedStamp(nanos, digits))
    ensures ReadIndexedStamp(encoded, position, local, digits)
         == Ok((StampV(CanonStamp(nanos, digits)), position + |IndexedStamp(nanos, digits)|))
  {
    var m := Unsigned(Millis(nanos), TWO_64);
    var sub := if digits > 3 then SubMillis(nanos) else 0;
    var bytes := IndexedStamp(nanos, digits);
    PowersOf256();
    LittleExact(m, 8);
    assert bytes[..8] == Little(m, 8);
    SignedOfMod(Millis(nanos), TWO_64);
    WallClockIsInstant(local, Signed(Millis(nanos), TWO_64), sub);
    if digits > 3 {
      LittleExact(sub, 4);
      assert bytes[8..] == Little(sub, 4);
      SmallMod(sub, TWO_32);
    }
  }

  lemma CompactedDecimalReads(amount: real, p: nat, s: nat, bytes: ByteString, encoded: ByteString, position: nat)
    requires CompactedDecimal(amount, p, s) == Ok(bytes) && HoldsAt(encoded, position, bytes)
    ensures ReadCompactedDecimal(encoded, position, p, s) == Ok((DecimalV(amount), position + |bytes|))
  {
    hide Var, ReadVar, HoldsAt, ReadLengthBytes, SignedBytes.Encode, SignedBytes.Decode;
    var n := Unscaled(amount, p, s).value;
    DecimalRoundTrip(amount, p, s);
    if p <= 18 {
      SmallDecimal(n, p);
      ReadVar64(Unsigned(n, TWO_64), encoded, position);
    } else {
      SignedBytes.RoundTrip(n);
      ReadLengthBytesOf(SignedBytes.Encode(n), encoded, position);
    }
  }

  lemma IndexedDecimalReads(amount: real, p: nat, s: nat, bytes: ByteString,
                            encoded: ByteString, position: nat, length: int)
    requires IndexedDecimal(amount, p, s) == Ok(bytes) && HoldsAt(encoded, position, bytes)
    requires p > 18 ==> length == |bytes|
    ensures ReadIndexedDecimal(encoded, position, p, s, length) == Ok((DecimalV(amount), position + |bytes|))
  {
    var n := Unscaled(amount, p, s).value;
    DecimalRoundTrip(amount, p, s);
    if p <= 18 {
      PowersOf256();
      SmallDecimal(n, p);
      LittleExact(Unsigned(n, TWO_64), 8);
    } else {
      SignedBytes.RoundTrip(n);
    }
  }

  lemma IndexedTextReads(text: Text, v: Value, bytes: ByteString, encoded: ByteString, position: nat, length: int)
    requires TextFits(text, v) && IndexedText(text, TextContent(text, v)) == Ok(bytes)
    requires HoldsAt(encoded, position, bytes) && (FixedText(text) == 0 ==> length == |bytes|)
    ensures ReadIndexedText(encoded, position, text, length) == Ok((CanonText(Indexed, text, v), position + |bytes|))
  {
    if FixedText(text) > 0 {
      TrimAppendFixed(TextContent(text, v), FixedText(text));
    }
  }

  // ------------------------------------------------------------ array elements

  /** The bytes an element appended, read back through its slot. */
  lemma VariableReads(bytes: ByteString, reserved: nat, offset: nat, e: Element, encoded: ByteString, slot: nat)
    requires Variable(bytes, reserved, offset) == Ok(e)
    requires HoldsAt(encoded, slot, e.slot) && HoldsAt(encoded, offset, e.tail)
    ensures slot + 8 <= |encoded| && encoded[slot + 7] < 128
    ensures ReadVariable(encoded, slot) == Ok(bytes)
  {
    PowersOf256();
    HoldsAtSplit(encoded, slot, Little(|bytes|, 4), Little(offset, 4));
    ReadLittle(|bytes|, 4, encoded, slot);
    ReadLittle(offset, 4, encoded, slot + 4);
    HoldsAtSplit(encoded, offset, bytes, Zeros(reserved - |bytes|));
    TopOfSmall(offset);
    assert encoded[slot + 7] == encoded[slot + 4..slot + 8][3];
  }

  lemma TopOfSmall(value: nat)
    requires value <= MAX_ROW_BYTES
    ensures Little(value, 4)[3] == value / 256 / 256 / 256 < 128
  {
    assert Little(value, 4)[1..] == Little(value / 256, 3);
    assert Little(value / 256, 3)[1..] == Little(value / 256 / 256, 2);
    assert Little(value / 256 / 256, 2)[1..] == Little(value / 256 / 256 / 256, 1);
  }

  lemma PackedReads(bytes: ByteString, offset: nat, e: Element, encoded: ByteString, slot: nat)
    requires Packed(bytes, offset) == Ok(e)
    requires HoldsAt(encoded, slot, e.slot) && HoldsAt(encoded, offset, e.tail)
    ensures slot + 8 <= |encoded| && ReadPacked(encoded, slot) == Ok(bytes)
  {
    if |bytes| <= 7 {
      var image := bytes + Zeros(7 - |bytes|) + [128 + |bytes|];
      assert encoded[slot + 7] == encoded[slot..slot + 8][7] == image[7];
      assert encoded[slot..slot + |bytes|] == image[..|bytes|] == bytes;
    } else {
      VariableReads(bytes, Align8(|bytes|), offset, e, encoded, slot);
    }
  }

  lemma ElementStampReads(nanos: int, local: bool, digits: nat, offset: nat, encoded: ByteString, slot: nat)
    requires offset <= MAX_ROW_BYTES
    requires HoldsAt(encoded, slot, ElementStamp(nanos, digits, offset).slot)
    requires HoldsAt(encoded, offset, ElementStamp(nanos, digits, offset).tail)
    ensures slot + 8 <= |encoded|
    ensures ReadElementStamp(encoded, slot, local, digits) == Ok(StampV(CanonStamp(nanos, digits)))
  {
    hide StampOf, Little, FromLittle, Pow256;
    var m := Unsigned(Millis(nanos), TWO_64);
    var sub := if digits > 3 then SubMillis(nanos) else 0;
    PowersOf256();
    SignedOfMod(Millis(nanos), TWO_64);
    WallClockIsInstant(local, Signed(Millis(nanos), TWO_64), sub);
    if digits <= 3 {
      ReadLittle(m, 8, encoded, slot);
    } else {
      HoldsAtSplit(encoded, slot, Little(sub, 4), Little(offset, 4));
      ReadLittle(sub, 4, encoded, slot);
      ReadLittle(offset, 4, encoded, slot + 4);
      ReadLittle(m, 8, encoded, offset);
    }
  }

  lemma ElementDecimalReads(amount: real, p: nat, s: nat, offset: nat, e: Element, encoded: ByteString, slot: nat)
    requires ElementDecimal(amount, p, s, offset) == Ok(e)
    requires HoldsAt(encoded, slot, e.slot) && HoldsAt(encoded, offset, e.tail)
    ensures slot + 8 <= |encoded|
    ensures ReadElementDecimal(encoded, slot, p, s) == Ok(DecimalV(amount))
  {
    var n := Unscaled(amount, p, s).value;
    DecimalRoundTrip(amount, p, s);
    if p <= 18 {
      PowersOf256();
      SmallDecimal(n, p);
      ReadLittle(Unsigned(n, TWO_64), 8, encoded, slot);
    } else {
      SignedBytes.RoundTrip(n);
      VariableReads(SignedBytes.Encode(n), 16, offset, e, encoded, slot);
    }
  }

  lemma {:induction false} ElementReads(layout: Layout, root: Root, v: Value, offset: nat, e: Element,
                                       encoded: ByteString, slot: nat)
    requires Fits(root, v) && offset <= MAX_ROW_BYTES && EncodeElement(layout, root, v, offset) == Ok(e)
    requires HoldsAt(encoded, slot, e.slot) && HoldsAt(encoded, offset, e.tail)
    ensures ReadElement(layout, encoded, slot, root) == Ok(CanonValue(layout, false, root, v))
    decreases root, 4
  {
    hide FixedWord, WordOf, ElementStamp, ReadElementStamp, ElementDecimal, ReadElementDecimal, Packed, ReadPacked,
      NestedBytes, NestedValue, ReadVariable;
    match root
    case WordRoot(word) => WordImage(word, v);
    case TextRoot(text) => PackedReads(TextContent(text, v), offset, e, encoded, slot);
    case Timestamp(local, p) => ElementStampReads(v.nanos, local, p, offset, encoded, slot);
    case Decimal(p, s) => ElementDecimalReads(v.amount, p, s, offset, e, encoded, slot);
    case _ =>
      var bytes := NestedBytes(layout, root, v).value;
      VariableReads(bytes, Align8(|bytes|), offset, e, encoded, slot);
      NestedReads(layout, root, v, bytes);
  }

  lemma BitmapReads(vs: seq<Value>, width: nat, at: nat, encoded: ByteString, i: nat)
    requires i < |vs| && i / 8 < width && HoldsAt(encoded, at, Bitmap(NullFlags(vs), width))
    ensures BitAt(encoded, at, i) == vs[i].Null?
  {
    BitmapBits(NullFlags(vs), width, i);
    assert encoded[at + i / 8] == encoded[at..at + width][i / 8];
  }

  /** A buffer that holds what the elements from `i` on contribute decodes to those elements. */
  lemma {:induction false} ElementsRead(layout: Layout, t: LogicalType, vs: seq<Value>, i: nat, offset: nat,
                                       parts: Element, encoded: ByteString)
    requires AllAccepted(t, vs)
    requires i <= |vs| && offset <= MAX_ROW_BYTES && FixedBytes(t.root, |vs|) <= |encoded|
    requires EncodeElements(layout, t, vs, i, offset) == Ok(parts)
    requires HoldsAt(encoded, 4, Bitmap(NullFlags(vs), WordBytes(|vs|)))
    requires HoldsAt(encoded, SlotAt(t.root, |vs|, i), parts.slot) && HoldsAt(encoded, offset, parts.tail)
    ensures DecodeElements(layout, t, encoded, |vs|, i) == Ok(CanonElements(layout, t, vs)[i..])
    decreases t, 2, |vs| - i
  {
    hide ReadElement, EncodeElement, EncodeElements, CanonValue, HoldsAt, Slots, Bitmap;
    var n := |vs|;
    var want := CanonElements(layout, t, vs);
    if i == n {
      assert want[i..] == [];
    } else {
      assert Accepts(t, vs[i]);
      BitmapInside(t.root, n, i);
      BitmapReads(vs, WordBytes(n), 4, encoded, i);
      assert want[i..] == [want[i]] + want[i + 1..];
      var e, rest := ElementThenRest(layout, t, vs, i, offset, parts, encoded);
      ElementsRead(layout, t, vs, i + 1, offset + |e.tail|, rest, encoded);
      if !vs[i].Null? {
        assert ReadElement(layout, encoded, SlotAt(t.root, n, i), t.root) == Ok(want[i]) by {
          ElementReads(layout, t.root, vs[i], offset, e, encoded, SlotAt(t.root, n, i));
        }
      }
    }
  }

  lemma ElementThenRest(layout: Layout, t: LogicalType, vs: seq<Value>, i: nat, offset: nat,
                        parts: Element, encoded: ByteString)
    returns (e: Element, rest: Element)
    requires i < |vs| && Accepts(t, vs[i]) && offset <= MAX_ROW_BYTES
    requires EncodeElements(layout, t, vs, i, offset) == Ok(parts)
    requires HoldsAt(encoded, SlotAt(t.root, |vs|, i), parts.slot) && HoldsAt(encoded, offset, parts.tail)
    ensures if vs[i].Null? then e.tail == [] else EncodeElement(layout, t.root, vs[i], offset) == Ok(e)
    ensures offset + |e.tail| <= MAX_ROW_BYTES
    ensures EncodeElements(layout, t, vs, i + 1, offset + |e.tail|) == Ok(rest)
    ensures HoldsAt(encoded, SlotAt(t.root, |vs|, i), e.slot) && HoldsAt(encoded, offset, e.tail)
    ensures HoldsAt(encoded, SlotAt(t.root, |vs|, i + 1), rest.slot) && HoldsAt(encoded, offset + |e.tail|, rest.tail)
  {
    hide EncodeElement, HoldsAt;
    if vs[i].Null? {
      e := Element(Zeros(SlotSize(t.root)), []);
    } else {
      e := EncodeElement(layout, t.root, vs[i], offset).value;
    }
    rest := EncodeElements(layout, t, vs, i + 1, offset + |e.tail|).value;
    assert [] + rest.tail == rest.tail;
    HoldsAtSplit(encoded, SlotAt(t.root, |vs|, i), e.slot, rest.slot);
    HoldsAtSplit(encoded, offset, e.tail, rest.tail);
  }

  lemma {:induction false} ArrayReads(layout: Layout, t: LogicalType, vs: seq<Value>, encoded: ByteString)
    requires AllAccepted(t, vs) && EncodeArray(layout, t, vs) == Ok(encoded)
    ensures DecodeArray(layout, t, encoded) == Ok(CanonElements(layout, t, vs))
    decreases t, 3
  {
    var n := |vs|;
    var parts := EncodeElements(layout, t, vs, 0, FixedBytes(t.root, n)).value;
    ArrayRegions(t.root, vs, parts);
    PowersOf256();
    LittleExact(n, 4);
    assert encoded[..4] == Little(n, 4);
    ElementsRead(layout, t, vs, 0, FixedBytes(t.root, n), parts, encoded);
  }

  lemma ArrayRegions(root: Root, vs: seq<Value>, parts: Element)
    requires |parts.slot| == Slots(root, |vs|)
    ensures HoldsAt(AssembleArray(root, vs, parts), 0, Little(|vs|, 4))
    ensures HoldsAt(AssembleArray(root, vs, parts), 4, Bitmap(NullFlags(vs), WordBytes(|vs|)))
    ensures HoldsAt(AssembleArray(root, vs, parts), SlotAt(root, |vs|, 0), parts.slot)
    ensures HoldsAt(AssembleArray(root, vs, parts), FixedBytes(root, |vs|), parts.tail)
  {
    hide HoldsAt, Bitmap, Little, Slots, WordBytes, Align8, NullFlags;
    var n := |vs|;
    assert Slots(root, 0) == 0 by { SlotsIsProduct(root, 0); }
    FiveRegions(Little(n, 4), Bitmap(NullFlags(vs), WordBytes(n)), parts.slot,
                Zeros(FixedBytes(root, n) - SlotAt(root, n, n)), parts.tail);
  }

  lemma {:induction false} NestedReads(layout: Layout, root: Root, v: Value, bytes: ByteString)
    requires Nested(root) && Fits(root, v)
    requires NestedBytes(layout, root, v) == Ok(bytes) && |bytes| <= MAX_ROW_BYTES
    ensures NestedValue(layout, root, bytes) == Ok(CanonValue(layout, false, root, v))
    ensures CanonValue(layout, true, root, v) == CanonValue(layout, false, root, v)
    decreases root, 3
  {
    hide EncodeArray, DecodeArray, CanonElements, EncodeRow, DecodeRow, CanonRow, Pow256;
    match root
    case Array(e) => ArrayReads(layout, e, v.elements, bytes);
    case Map(k, e) =>
      var keys := EncodeArray(layout, k, Keys(v.entries)).value;
      var values := EncodeArray(layout, e, Values(v.entries)).value;
      PowersOf256();
      LittleExact(|keys|, 4);
      assert bytes[..4] == Little(|keys|, 4) && bytes[4..4 + |keys|] == keys && bytes[4 + |keys|..] == values;
      ArrayReads(layout, k, Keys(v.entries), keys);
      ArrayReads(layout, e, Values(v.entries), values);
    case Row(fields) => RowReads(layout, fields, v.cells, bytes);
  }

  // --------------------------------------------------------------------- cells

  lemma {:induction false} CompactedReads(root: Root, v: Value, bytes: ByteString, encoded: ByteString, position: nat)
    requires Fits(root, v) && CompactedValue(root, v) == Ok(bytes) && HoldsAt(encoded, position, bytes)
    ensures ReadCompacted(encoded, position, root) == Ok((CanonValue(Compacted, true, root, v), position + |bytes|))
    decreases root, 4
  {
    hide Var, HoldsAt, CompactedWord, ReadCompactedWord, CompactedStamp, ReadCompactedStamp, CompactedDecimal,
      ReadCompactedDecimal, NestedBytes, NestedValue, ReadLengthBytes;
    match root
    case WordRoot(word) => CompactedWordReads(word, v, encoded, position);
    case TextRoot(text) => ReadLengthBytesOf(TextContent(text, v), encoded, position);
    case Timestamp(local, p) => CompactedStampReads(v.nanos, local, p, encoded, position);
    case Decimal(p, s) => CompactedDecimalReads(v.amount, p, s, bytes, encoded, position);
    case _ =>
      var inner := NestedBytes(Compacted, root, v).value;
      ReadLengthBytesOf(inner, encoded, position);
      NestedReads(Compacted, root, v, inner);
  }

  lemma {:induction false} IndexedReads(root: Root, v: Value, bytes: ByteString,
                                       encoded: ByteString, position: nat, length: int)
    requires Fits(root, v) && IndexedValue(root, v) == Ok(bytes) && |bytes| <= MAX_ROW_BYTES
    requires HoldsAt(encoded, position, bytes) && (!IndexedFixed(root) ==> length == |bytes|)
    ensures ReadIndexed(encoded, position, root, length)
         == Ok((CanonValue(Indexed, true, root, v), position + |bytes|))
    decreases root, 4
  {
    hide FixedWord, ReadFixedWord, IndexedStamp, ReadIndexedStamp, IndexedDecimal, ReadIndexedDecimal,
      IndexedText, ReadIndexedText, NestedBytes, NestedValue;
    match root
    case WordRoot(word) => FixedWordReads(word, v, encoded, position);
    case TextRoot(text) => IndexedTextReads(text, v, bytes, encoded, position, length);
    case Timestamp(local, p) => IndexedStampReads(v.nanos, local, p, encoded, position);
    case Decimal(p, s) => IndexedDecimalReads(v.amount, p, s, bytes, encoded, position, length);
    case _ => NestedReads(Indexed, root, v, bytes);
  }

  lemma {:induction false} CellReads(layout: Layout, t: LogicalType, v: Value, value: ByteString,
                                    encoded: ByteString, position: nat, length: int)
    requires Fits(t.root, v) && CellValue(layout, t, v) == Ok(value) && |value| <= MAX_ROW_BYTES
    requires HoldsAt(encoded, position, value)
    requires OwnsLength(layout, t.root) ==> length == |value|
    ensures ReadCell(layout, encoded, position, t, length)
         == Ok((CanonValue(layout, true, t.root, v), position + |value|))
    decreases t
  {
    if layout.Compacted? {
      CompactedReads(t.root, v, value, encoded, position);
    } else {
      IndexedReads(t.root, v, value, encoded, position, length);
    }
  }

  // ---------------------------------------------------------------------- rows

  /** A buffer whose tail is the values from column `i` on decodes to those columns. */
  lemma {:induction false} CellsRead(layout: Layout, fields: seq<LogicalType>, row: seq<Value>, i: nat, size: nat,
                                    parts: RowParts, encoded: ByteString, position: nat, lengthPosition: nat)
    requires ValidRow(fields, row) && i <= |fields| && NullBytes(|fields|) <= |encoded|
    requires EncodeCells(layout, fields, row, i, size) == Ok(parts)
    requires HoldsAt(encoded, 0, Bitmap(NullFlags(row), NullBytes(|fields|)))
    requires position <= |encoded| && encoded[position..] == parts.data
    requires HoldsAt(encoded, lengthPosition, parts.lengths)
    requires lengthPosition + LengthSlots(layout, fields, i) <= |encoded|
    ensures DecodeCells(layout, fields, encoded, i, position, lengthPosition)
         == Ok(CanonRow(layout, fields, row)[i..])
    decreases fields, |fields| - i, 1
  {
    hide CellValue, CanonValue, HoldsAt, Bitmap, Bit, DecodeCells;
    var want := CanonRow(layout, fields, row);
    if i == |fields| {
      assert want[i..] == [];
      DecodeNoCell(layout, fields, encoded, lengthPosition);
    } else if row[i].Null? {
      BitmapReads(row, NullBytes(|fields|), 0, encoded, i);
      assert Accepts(fields[i], row[i]);
      assert want[i..] == [want[i]] + want[i + 1..];
      CellsRead(layout, fields, row, i + 1, size, parts, encoded, position, lengthPosition);
      DecodeNullCell(layout, fields, encoded, i, position, lengthPosition);
    } else {
      CellFits(fields, row, i);
      var value, rest, length, after :=
        CellThenRest(layout, fields, row, i, size, parts, encoded, position, lengthPosition);
      ValueCellReads(layout, fields, row, i, size, value, rest, encoded, position, lengthPosition, length, after);
    }
  }

  lemma {:induction false} ValueCellReads(layout: Layout, fields: seq<LogicalType>, row: seq<Value>, i: nat, size: nat,
                                         value: ByteString, rest: RowParts, encoded: ByteString,
                                         position: nat, lengthPosition: nat, length: int, after: nat)
    requires ValidRow(fields, row) && i < |fields| && NullBytes(|fields|) <= |encoded|
    requires !row[i].Null? && Fits(fields[i].root, row[i])
    requires CellValue(layout, fields[i], row[i]) == Ok(value) && |value| <= MAX_ROW_BYTES
    requires EncodeCells(layout, fields, row, i + 1, size + |value|) == Ok(rest)
    requires HoldsAt(encoded, 0, Bitmap(NullFlags(row), NullBytes(|fields|)))
    requires HoldsAt(encoded, position, value) && position + |value| <= |encoded|
    requires encoded[position + |value|..] == rest.data && HoldsAt(encoded, after, rest.lengths)
    requires lengthPosition + LengthSlots(layout, fields, i) <= |encoded|
    requires LengthTaken(layout, fields[i].root, value, encoded, lengthPosition, length, after)
    ensures DecodeCells(layout, fields, encoded, i, position, lengthPosition)
         == Ok(CanonRow(layout, fields, row)[i..])
    decreases fields, |fields| - i, 0
  {
    hide CellValue, CanonValue, HoldsAt, Bitmap, Bit, DecodeCells, EncodeCells, ReadCell, FromLittle;
    var want := CanonRow(layout, fields, row);
    assert want[i..] == [want[i]] + want[i + 1..];
    BitmapReads(row, NullBytes(|fields|), 0, encoded, i);
    CellsRead(layout, fields, row, i + 1, size + |value|, rest, encoded, position + |value|, after);
    CellReads(layout, fields[i], row[i], value, encoded, position, length);
    DecodeOneCell(layout, fields, encoded, i, position, lengthPosition, value, length, after);
  }

  /** A variable-width column of an indexed row takes its length from the next length slot. */
  predicate LengthTaken(layout: Layout, root: Root, value: ByteString, encoded: ByteString,
                        lengthPosition: nat, length: int, after: nat)
  {
    if OwnsLength(layout, root) then
      after == lengthPosition + 4 && after <= |encoded|
      && length == |value| == FromLittle(encoded[lengthPosition..after])
    else after == lengthPosition && length == -1
  }

  lemma DecodeNoCell(layout: Layout, fields: seq<LogicalType>, encoded: ByteString, lengthPosition: nat)
    requires NullBytes(|fields|) <= |encoded| && lengthPosition <= |encoded|
    ensures DecodeCells(layout, fields, encoded, |fields|, |encoded|, lengthPosition) == Ok([])
  {
  }

  lemma DecodeNullCell(layout: Layout, fields: seq<LogicalType>, encoded: ByteString,
                       i: nat, position: nat, lengthPosition: nat)
    requires i < |fields| && position <= |encoded| && NullBytes(|fields|) <= |encoded|
    requires lengthPosition + LengthSlots(layout, fields, i) <= |encoded|
    requires BitAt(encoded, 0, i) && fields[i].nullable
    requires DecodeCells(layout, fields, encoded, i + 1, position, lengthPosition).Ok?
    ensures DecodeCells(layout, fields, encoded, i, position, lengthPosition)
         == Ok([Null] + DecodeCells(layout, fields, encoded, i + 1, position, lengthPosition).value)
  {
  }

  lemma DecodeOneCell(layout: Layout, fields: seq<LogicalType>, encoded: ByteString,
                      i: nat, position: nat, lengthPosition: nat, value: ByteString, length: int, after: nat)
    requires i < |fields| && position <= |encoded| && NullBytes(|fields|) <= |encoded|
    requires lengthPosition + LengthSlots(layout, fields, i) <= |encoded|
    requires !BitAt(encoded, 0, i)
    requires LengthTaken(layout, fields[i].root, value, encoded, lengthPosition, length, after)
    requires ReadCell(layout, encoded, position, fields[i], length).Ok?
    requires DecodeCells(layout, fields, encoded, i + 1,
                         ReadCell(layout, encoded, position, fields[i], length).value.1, after).Ok?
    ensures var (v, next) := ReadCell(layout, encoded, position, fields[i], length).value;
      DecodeCells(layout, fields, encoded, i, position, lengthPosition)
      == Ok([v] + DecodeCells(layout, fields, encoded, i + 1, next, after).value)
  {
    hide ReadCell, FromLittle, Bit;
  }

  lemma CellThenRest(layout: Layout, fields: seq<LogicalType>, row: seq<Value>, i: nat, size: nat,
                     parts: RowParts, encoded: ByteString, position: nat, lengthPosition: nat)
    returns (value: ByteString, rest: RowParts, length: int, after: nat)
    requires ValidRow(fields, row) && i < |fields| && !row[i].Null? && Fits(fields[i].root, row[i])
    requires EncodeCells(layout, fields, row, i, size) == Ok(parts)
    requires position <= |encoded| && encoded[position..] == parts.data
    requires HoldsAt(encoded, lengthPosition, parts.lengths)
    ensures CellValue(layout, fields[i], row[i]) == Ok(value) && |value| <= MAX_ROW_BYTES - size
    ensures HoldsAt(encoded, position, value)
    ensures EncodeCells(layout, fields, row, i + 1, size + |value|) == Ok(rest)
    ensures position + |value| <= |encoded| && encoded[position + |value|..] == rest.data
    ensures HoldsAt(encoded, after, rest.lengths)
    ensures LengthTaken(layout, fields[i].root, value, encoded, lengthPosition, length, after)
  {
    hide CellValue;
    value := CellValue(layout, fields[i], row[i]).value;
    rest := EncodeCells(layout, fields, row, i + 1, size + |value|).value;
    assert encoded[position..] == value + rest.data;
    assert encoded[position..][..|value|] == value && encoded[position..][|value|..] == rest.data;
    if OwnsLength(layout, fields[i].root) {
      length, after := |value|, lengthPosition + 4;
      HoldsAtSplit(encoded, lengthPosition, Little(|value|, 4), rest.lengths);
      PowersOf256();
      ReadLittle(|value|, 4, encoded, lengthPosition);
    } else {
      length, after := -1, lengthPosition;
      assert [] + rest.lengths == rest.lengths;
    }
  }

  lemma RowRegions(layout: Layout, fields: seq<LogicalType>, row: seq<Value>, parts: RowParts)
    requires |parts.lengths| <= LengthSlots(layout, fields, 0)
    ensures HoldsAt(AssembleRow(layout, fields, row, parts), 0, Bitmap(NullFlags(row), NullBytes(|fields|)))
    ensures HoldsAt(AssembleRow(layout, fields, row, parts), NullBytes(|fields|), parts.lengths)
    ensures AssembleRow(layout, fields, row, parts)[HeaderBytes(layout, fields)..] == parts.data
  {
    hide Bitmap, LengthSlots;
  }

  lemma {:induction false} RowReads(layout: Layout, fields: seq<LogicalType>, row: seq<Value>, encoded: ByteString)
    requires EncodeRow(layout, fields, row) == Ok(encoded) && |encoded| <= MAX_ROW_BYTES
    ensures ValidRow(fields, row)
    ensures DecodeRow(layout, fields, encoded) == Ok(CanonRow(layout, fields, row))
    decreases fields, |fields| + 1
  {
    var header := HeaderBytes(layout, fields);
    var parts := EncodeCells(layout, fields, row, 0, header).value;
    RowRegions(layout, fields, row, parts);
    CellsRead(layout, fields, row, 0, header, parts, encoded, header, NullBytes(|fields|));
  }

  // ------------------------------------------------------------- main theorems

  /**
   Decoding an encoded row gives the row's canonical form, unless the header of the schema
   alone is over the row limit: the encoder checks the limit only when it appends a value,
   so an all-null row of such a schema is encoded and then refused.
   */
  lemma DecodeAfterEncode(layout: Layout, fields: seq<LogicalType>, row: seq<Value>)
    requires EncodeRow(layout, fields, row).Ok?
    ensures ValidRow(fields, row)
    ensures DecodeRow(layout, fields, EncodeRow(layout, fields, row).value)
         == if HeaderBytes(layout, fields) <= MAX_ROW_BYTES then Ok(CanonRow(layout, fields, row)) else Err
  {
    if HeaderBytes(layout, fields) <= MAX_ROW_BYTES {
      RowReads(layout, fields, row, EncodeRow(layout, fields, row).value);
    }
  }

  /** No trailing zero byte where the width is fixed, no instant finer or wider than stored. */
  predicate CanonicalValue(layout: Layout, cell: bool, root: Root, v: Value)
    requires Fits(root, v)
    decreases root
  {
    match root
    case TextRoot(text) =>
      layout.Indexed? && cell && FixedText(text) > 0 ==> NoTrailingZero(TextContent(text, v))
    case Timestamp(_, p) => CanonicalStamp(v.nanos, p)
    case Array(e) => CanonicalElements(layout, e, v.elements)
    case Map(k, e) => CanonicalElements(layout, k, Keys(v.entries)) && CanonicalElements(layout, e, Values(v.entries))
    case Row(fields) => CanonicalRow(layout, fields, v.cells)
    case _ => true
  }

  predicate Canonical(layout: Layout, cell: bool, t: LogicalType, v: Value)
    requires Accepts(t, v)
    decreases t, 0
  {
    v.Null? || CanonicalValue(layout, cell, t.root, v)
  }

  predicate CanonicalElements(layout: Layout, t: LogicalType, vs: seq<Value>)
    requires AllAccepted(t, vs)
    decreases t, 1
  {
    forall i :: 0 <= i < |vs| ==> Canonical(layout, false, t, vs[i])
  }

  predicate CanonicalRow(layout: Layout, fields: seq<LogicalType>, row: seq<Value>)
    requires ValidRow(fields, row)
    decreases fields
  {
    forall i :: 0 <= i < |fields| ==> Canonical(layout, true, fields[i], row[i])
  }

  predicate NoTrailingZero(bytes: ByteString)
  {
    |bytes| == 0 || bytes[|bytes| - 1] != 0
  }

  predicate CanonicalStamp(nanos: int, digits: nat)
  {
    -TWO_63 <= Millis(nanos) < TWO_63 && (digits <= 3 ==> SubMillis(nanos) == 0)
  }

  lemma TrimFixpoint(bytes: ByteString)
    ensures TrimZero(bytes) == bytes <==> NoTrailingZero(bytes)
  {
    if !NoTrailingZero(bytes) {
      assert |TrimZero(bytes)| <= |bytes| - 1;
    }
  }

  lemma StampFixpoint(nanos: int, digits: nat)
    ensures CanonStamp(nanos, digits) == nanos <==> CanonicalStamp(nanos, digits)
  {
    var m := Millis(nanos);
    assert nanos == m * NANOS_PER_MILLI + SubMillis(nanos);
    if FitsSigned(m, TWO_64) {
      SignedUnsigned(m, TWO_64);
      SignedOfMod(m, TWO_64);
    }
  }

  /** A value survives unchanged exactly when it is canonical. */
  lemma {:induction false} CanonFixpoint(layout: Layout, cell: bool, root: Root, v: Value)
    requires Fits(root, v)
    ensures CanonValue(layout, cell, root, v) == v <==> CanonicalValue(layout, cell, root, v)
    decreases root
  {
    match root
    case TextRoot(text) => TrimFixpoint(TextContent(text, v));
    case Timestamp(_, p) => StampFixpoint(v.nanos, p);
    case Array(e) => ElementsFixpoint(layout, e, v.elements);
    case Map(k, e) =>
      ElementsFixpoint(layout, k, Keys(v.entries));
      ElementsFixpoint(layout, e, Values(v.entries));
      EntriesEqual(CanonElements(layout, k, Keys(v.entries)), CanonElements(layout, e, Values(v.entries)), v.entries);
    case Row(fields) => RowFixpoint(layout, fields, v.cells);
    case _ =>
  }

  lemma EntriesEqual(keys: seq<Value>, values: seq<Value>, entries: seq<Entry>)
    requires |keys| == |values| == |entries|
    ensures Entries(keys, values) == entries <==> keys == Keys(entries) && values == Values(entries)
  {
    if Entries(keys, values) == entries {
      forall i | 0 <= i < |entries| ensures keys[i] == Keys(entries)[i] && values[i] == Values(entries)[i] {
        assert Entries(keys, values)[i] == entries[i];
      }
    }
  }

  lemma {:induction false} ElementsFixpoint(layout: Layout, t: LogicalType, vs: seq<Value>)
    requires AllAccepted(t, vs)
    ensures CanonElements(layout, t, vs) == vs <==> CanonicalElements(layout, t, vs)
    decreases t, 0
  {
    hide CanonValue, CanonicalValue;
    forall i | 0 <= i < |vs| ensures CanonElements(layout, t, vs)[i] == vs[i] <==> Canonical(layout, false, t, vs[i]) {
      assert Accepts(t, vs[i]);
      if !vs[i].Null? {
        CanonFixpoint(layout, false, t.root, vs[i]);
      }
    }
  }

  lemma {:induction false} ColumnFixpoint(layout: Layout, t: LogicalType, v: Value)
    requires Fits(t.root, v)
    ensures CanonValue(layout, true, t.root, v) == v <==> CanonicalValue(layout, true, t.root, v)
    decreases t, 0
  {
    CanonFixpoint(layout, true, t.root, v);
  }

  lemma {:induction false} RowFixpoint(layout: Layout, fields: seq<LogicalType>, row: seq<Value>)
    requires ValidRow(fields, row)
    ensures CanonRow(layout, fields, row) == row <==> CanonicalRow(layout, fields, row)
    decreases fields
  {
    hide CanonValue, CanonicalValue;
    forall i | 0 <= i < |fields|
      ensures CanonRow(layout, fields, row)[i] == row[i] <==> Canonical(layout, true, fields[i], row[i])
    {
      var t := fields[i];
      if !row[i].Null? {
        CellFits(fields, row, i);
        ColumnFixpoint(layout, t, row[i]);
      }
    }
  }

  /** The round trip, with the exact condition under which it is one. */
  lemma RoundTrip(layout: Layout, fields: seq<LogicalType>, row: seq<Value>)
    requires EncodeRow(layout, fields, row).Ok?
    ensures ValidRow(fields, row)
    ensures DecodeRow(layout, fields, EncodeRow(layout, fields, row).value) == Ok(row)
       <==> HeaderBytes(layout, fields) <= MAX_ROW_BYTES && CanonicalRow(layout, fields, row)
  {
    DecodeAfterEncode(layout, fields, row);
    RowFixpoint(layout, fields, row);
  }
}
