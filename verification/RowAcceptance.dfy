/**
 Which rows the encoder accepts, and how long their encodings are: a reference by arithmetic
 on types and values alone, and the proof that the encoder agrees with it at every level.
 */
module RowAcceptance {
  import opened Bytes
  import opened Schema
  import opened RowCodec
  import opened RowRoundTrip
  import opened KeyCodec
  import SignedBytes

  // ------------------------------------------------------------------------ lengths

  /** Bytes of an unsigned base-128 number. */
  function Groups(value: nat): (n: nat)
  {
    if value < 128 then 1 else 1 + Groups(value / 128)
  }

  /** Two's complement of a signed number. */
  function Complement(number: int, modulus: int): nat
    requires modulus >= 1
  {
    number % modulus
  }

  function Prefixed(length: nat): nat
  {
    Groups(length) + length
  }

  function RoundUp(n: nat, unit: nat): nat
    requires unit >= 1
  {
    (n + unit - 1) / unit * unit
  }

  function Width(word: Word): nat
  {
    match word
    case Bool | TinyInt => 1
    case SmallInt => 2
    case Int | Float | Date | Time => 4
    case BigInt | Double => 8
  }

  /** Bytes of a word in a compacted row: integers of four or more bytes are base-128 numbers. */
  function Compact(word: Word, v: Value): nat
    requires WordFits(word, v)
  {
    match word
    case Int | Date | Time => Groups(Complement(v.number, TWO_32))
    case BigInt => Groups(Complement(v.number, TWO_64))
    case _ => Width(word)
  }

  /** The amount in units of its last digit. */
  function Units(amount: real, scale: nat): real
  {
    amount * SignedBytes.Pow10(scale) as real
  }

  /** A decimal type takes whole numbers of units with at most `precision` digits, of either sign. */
  predicate DecimalFits(amount: real, precision: nat, scale: nat)
  {
    var units := Units(amount, scale);
    precision >= 1 && units == units.Floor as real
    && -(SignedBytes.Pow10(precision) as real) < units < SignedBytes.Pow10(precision) as real
  }

  /** Fewer than 19 digits are one 64-bit word, more are big-endian bytes. */
  function DecimalLength(layout: Layout, amount: real, precision: nat, scale: nat): nat
  {
    var n := Units(amount, scale).Floor;
    if precision <= 18 then (if layout.Compacted? then Groups(Complement(n, TWO_64)) else 8)
    else if layout.Compacted? then Prefixed(|SignedBytes.Encode(n)|)
    else |SignedBytes.Encode(n)|
  }

  function StampLength(layout: Layout, nanos: int, digits: nat): nat
  {
    var millis, rest := nanos / 1_000_000, nanos % 1_000_000;
    if layout.Indexed? then (if digits > 3 then 12 else 8)
    else Groups(Complement(millis, TWO_64)) + if digits > 3 then Groups(rest) else 0
  }

  /** The declared length of a CHAR or BINARY, or zero. */
  function Declared(text: Text): nat
  {
    match text
    case Char(n) => n
    case Binary(n) => n
    case _ => 0
  }

  predicate TextFitsLength(layout: Layout, text: Text, length: nat)
  {
    if layout.Compacted? then length <= MAX_ROW_BYTES else Declared(text) == 0 || length <= Declared(text)
  }

  function TextLength(layout: Layout, text: Text, length: nat): nat
  {
    if layout.Compacted? then Prefixed(length) else if Declared(text) == 0 then length else Declared(text)
  }

  /** Columns of an indexed row whose length stands in the header. */
  predicate InHeader(root: Root)
  {
    match root
    case WordRoot(_) | Timestamp(_, _) => false
    case TextRoot(text) => Declared(text) == 0
    case Decimal(p, _) => p == 0 || p > 18
    case Array(_) | Map(_, _) | Row(_) => true
  }

  function CountInHeader(fields: seq<LogicalType>, i: nat): nat
    requires i <= |fields|
    decreases |fields| - i
  {
    if i == |fields| then 0 else (if InHeader(fields[i].root) then 1 else 0) + CountInHeader(fields, i + 1)
  }

  /** One null bit a column, and in indexed rows four bytes for every length that is not declared. */
  function Header(layout: Layout, fields: seq<LogicalType>): nat
  {
    (|fields| + 7) / 8 + if layout.Indexed? then 4 * CountInHeader(fields, 0) else 0
  }

  /** The fixed part of an array: count, null words, a slot an element, rounded up to eight bytes. */
  function Frame(root: Root, count: nat): nat
  {
    RoundUp(4 + RoundUp(count, 32) / 8 + (if root.WordRoot? then Width(root.word) else 8) * count, 8)
  }

  // --------------------------------------------------------------- the reference

  function CellLength(layout: Layout, t: LogicalType, v: Value): nat
    requires Schema.Fits(t.root, v)
    decreases t
  {
    match t.root
    case WordRoot(word) => if layout.Compacted? then Compact(word, v) else Width(word)
    case TextRoot(text) => TextLength(layout, text, |TextContent(text, v)|)
    case Timestamp(_, p) => StampLength(layout, v.nanos, p)
    case Decimal(p, s) => DecimalLength(layout, v.amount, p, s)
    case _ =>
      if layout.Compacted? then Prefixed(NestedLength(layout, t.root, v)) else NestedLength(layout, t.root, v)
  }

  function NestedLength(layout: Layout, root: Root, v: Value): nat
    requires Nested(root) && Schema.Fits(root, v)
    decreases root, 3
  {
    match root
    case Array(e) => ArrayLength(layout, e, v.elements)
    case Map(k, e) => 4 + ArrayLength(layout, k, Keys(v.entries)) + ArrayLength(layout, e, Values(v.entries))
    case Row(fields) => RowLength(layout, fields, v.cells)
  }

  /** What an element needs beyond its slot; text of up to seven bytes needs nothing. */
  function Appended(layout: Layout, root: Root, v: Value): nat
    requires Schema.Fits(root, v)
    decreases root, 4
  {
    match root
    case WordRoot(_) => 0
    case TextRoot(text) => if |TextContent(text, v)| <= 7 then 0 else RoundUp(|TextContent(text, v)|, 8)
    case Timestamp(_, p) => if p <= 3 then 0 else 8
    case Decimal(p, _) => if p <= 18 then 0 else 16
    case _ => RoundUp(NestedLength(layout, root, v), 8)
  }

  function AppendedFrom(layout: Layout, t: LogicalType, vs: seq<Value>, i: nat): nat
    requires i <= |vs| && AllAccepted(t, vs)
    decreases t, 2, |vs| - i
  {
    if i == |vs| then 0
    else
      assert Accepts(t, vs[i]);
      (if vs[i].Null? then 0 else Appended(layout, t.root, vs[i])) + AppendedFrom(layout, t, vs, i + 1)
  }

  function ArrayLength(layout: Layout, t: LogicalType, vs: seq<Value>): nat
    requires AllAccepted(t, vs)
    decreases t, 3
  {
    Frame(t.root, |vs|) + AppendedFrom(layout, t, vs, 0)
  }

  function CellsFrom(layout: Layout, fields: seq<LogicalType>, row: seq<Value>, i: nat): nat
    requires ValidRow(fields, row) && i <= |fields|
    decreases fields, |fields| - i
  {
    if i == |fields| then 0
    else if row[i].Null? then CellsFrom(layout, fields, row, i + 1)
    else
      CellFits(fields, row, i);
      CellLength(layout, fields[i], row[i]) + CellsFrom(layout, fields, row, i + 1)
  }

  function RowLength(layout: Layout, fields: seq<LogicalType>, row: seq<Value>): nat
    requires ValidRow(fields, row)
    decreases fields, |fields| + 1
  {
    Header(layout, fields) + CellsFrom(layout, fields, row, 0)
  }

  // A value is representable when its decimals and declared lengths are respected at every
  // level and no array, prefixed value or row is over the size limit.

  predicate CellOk(layout: Layout, t: LogicalType, v: Value)
    requires Schema.Fits(t.root, v)
    decreases t
  {
    match t.root
    case WordRoot(_) | Timestamp(_, _) => true
    case TextRoot(text) => TextFitsLength(layout, text, |TextContent(text, v)|)
    case Decimal(p, s) => DecimalFits(v.amount, p, s)
    case _ => NestedOk(layout, t.root, v) && (layout.Compacted? ==> NestedLength(layout, t.root, v) <= MAX_ROW_BYTES)
  }

  predicate NestedOk(layout: Layout, root: Root, v: Value)
    requires Nested(root) && Schema.Fits(root, v)
    decreases root, 3
  {
    match root
    case Array(e) => ArrayOk(layout, e, v.elements)
    case Map(k, e) => ArrayOk(layout, k, Keys(v.entries)) && ArrayOk(layout, e, Values(v.entries))
    case Row(fields) => RowOk(layout, fields, v.cells)
  }

  predicate ElementOk(layout: Layout, root: Root, v: Value)
    requires Schema.Fits(root, v)
    decreases root, 4
  {
    match root
    case Decimal(p, s) => DecimalFits(v.amount, p, s)
    case Array(_) | Map(_, _) | Row(_) => NestedOk(layout, root, v)
    case _ => true
  }

  predicate ArrayOk(layout: Layout, t: LogicalType, vs: seq<Value>)
    requires AllAccepted(t, vs)
    decreases t, 3
  {
    |vs| <= MAX_ROW_BYTES / 8 && ArrayLength(layout, t, vs) <= MAX_ROW_BYTES
    && forall i :: 0 <= i < |vs| && Accepts(t, vs[i]) && !vs[i].Null? ==> ElementOk(layout, t.root, vs[i])
  }

  /** A row of nulls only has no size check of its own. */
  predicate RowOk(layout: Layout, fields: seq<LogicalType>, row: seq<Value>)
    requires ValidRow(fields, row)
    decreases fields, |fields| + 1
  {
    (forall i :: 0 <= i < |fields| && Accepts(fields[i], row[i]) && !row[i].Null? ==>
       CellOk(layout, fields[i], row[i]))
    && ((forall i :: 0 <= i < |row| ==> row[i].Null?) || RowLength(layout, fields, row) <= MAX_ROW_BYTES)
  }

  // ------------------------------------------------------------------------- leaves

  lemma {:induction false} VarIsGroups(value: nat)
    ensures |Var(value)| == Groups(value)
  {
    if value >= 128 {
      VarIsGroups(value / 128);
    }
  }

  lemma WidthIs(word: Word)
    ensures WordWidth(word) == Width(word)
  {
  }

  lemma CompactedWordLength(word: Word, v: Value)
    requires WordFits(word, v)
    ensures |CompactedWord(word, v)| == Compact(word, v)
  {
    hide Var, Groups;
    if word.Int? || word.Date? || word.Time? {
      VarIsGroups(Unsigned(v.number, TWO_32));
    } else if word.BigInt? {
      VarIsGroups(Unsigned(v.number, TWO_64));
    }
  }

  lemma StampLengths(nanos: int, digits: nat)
    ensures |CompactedStamp(nanos, digits)| == StampLength(Compacted, nanos, digits)
    ensures |IndexedStamp(nanos, digits)| == StampLength(Indexed, nanos, digits)
  {
    hide Var, Groups, Little;
    VarIsGroups(Unsigned(Millis(nanos), TWO_64));
    VarIsGroups(SubMillis(nanos));
  }

  /** The encoder's digits test is the range of the type, for both signs. */
  lemma UnscaledExactly(amount: real, precision: nat, scale: nat)
    ensures Unscaled(amount, precision, scale).Ok? <==> DecimalFits(amount, precision, scale)
    ensures DecimalFits(amount, precision, scale) ==>
      Unscaled(amount, precision, scale) == Ok(Units(amount, scale).Floor)
  {
    hide SignedBytes.Pow10;
    var n := Units(amount, scale).Floor;
    var limit: int := SignedBytes.Pow10(precision);
    assert SignedBytes.Abs(n) < limit <==> -limit < n < limit;
    if n as real == Units(amount, scale) {
      RealOrder(n, limit);
    }
  }

  lemma RealOrder(n: int, limit: int)
    ensures -(limit as real) < n as real < limit as real <==> -limit < n < limit
  {
  }

  lemma DecimalLengths(layout: Layout, amount: real, p: nat, s: nat)
    requires p <= 38
    ensures var r := if layout.Compacted? then CompactedDecimal(amount, p, s) else IndexedDecimal(amount, p, s);
      (r.Ok? <==> DecimalFits(amount, p, s)) && (r.Ok? ==> |r.value| == DecimalLength(layout, amount, p, s))
  {
    hide Var, Groups, Little, SignedBytes.Encode, SignedBytes.Pow10, DecimalFits, Unscaled;
    UnscaledExactly(amount, p, s);
    if DecimalFits(amount, p, s) {
      var n := Units(amount, s).Floor;
      SignedBytes.DecimalFits16(n, p);
      VarIsGroups(Unsigned(n, TWO_64));
      VarIsGroups(|SignedBytes.Encode(n)|);
    }
  }

  lemma TextLengths(layout: Layout, text: Text, content: ByteString)
    ensures var r := if layout.Compacted? then LengthBytes(content) else IndexedText(text, content);
      (r.Ok? <==> TextFitsLength(layout, text, |content|)) && (r.Ok? ==> |r.value| == TextLength(layout, text, |content|))
  {
    hide Var, Groups;
    VarIsGroups(|content|);
  }

  lemma PrefixLength(bytes: ByteString)
    ensures LengthBytes(bytes).Ok? <==> |bytes| <= MAX_ROW_BYTES
    ensures |bytes| <= MAX_ROW_BYTES ==> |LengthBytes(bytes).value| == Prefixed(|bytes|)
  {
    hide Var, Groups;
    VarIsGroups(|bytes|);
  }

  // ------------------------------------------------------------------------ headers

  lemma {:induction false} SlotsCounted(fields: seq<LogicalType>, i: nat)
    requires i <= |fields|
    ensures LengthSlots(Indexed, fields, i) == 4 * CountInHeader(fields, i)
    ensures LengthSlots(Compacted, fields, i) == 0
    decreases |fields| - i
  {
    if i < |fields| {
      SlotsCounted(fields, i + 1);
    }
  }

  lemma HeaderIs(layout: Layout, fields: seq<LogicalType>)
    ensures HeaderBytes(layout, fields) == Header(layout, fields)
  {
    SlotsCounted(fields, 0);
  }

  lemma FrameIs(root: Root, count: nat)
    ensures FixedBytes(root, count) == Frame(root, count)
  {
    SlotsIsProduct(root, count);
    if root.WordRoot? {
      WidthIs(root.word);
    }
    assert RoundUp(count, 32) / 8 == WordBytes(count);
  }

  // ---------------------------------------------------------------- every level

  lemma {:induction false} CellAccepted(layout: Layout, t: LogicalType, v: Value)
    requires Schema.Fits(t.root, v) && ValidColumn(t)
    ensures CellValue(layout, t, v).Ok? <==> CellOk(layout, t, v)
    ensures CellOk(layout, t, v) ==> |CellValue(layout, t, v).value| == CellLength(layout, t, v)
    decreases t
  {
    hide NestedBytes, NestedLength, NestedOk, CompactedWord, FixedWord, LengthBytes, Prefixed;
    match t.root {
      case WordRoot(word) =>
        CompactedWordLength(word, v);
        WidthIs(word);
      case TextRoot(text) => TextLengths(layout, text, TextContent(text, v));
      case Timestamp(_, p) => StampLengths(v.nanos, p);
      case Decimal(p, s) => DecimalLengths(layout, v.amount, p, s);
      case _ =>
        NestedAccepted(layout, t.root, v);
        var bytes := NestedBytes(layout, t.root, v);
        if bytes.Ok? {
          PrefixLength(bytes.value);
        }
    }
  }

  lemma {:induction false} NestedAccepted(layout: Layout, root: Root, v: Value)
    requires Nested(root) && Schema.Fits(root, v) && ValidType(LogicalType(root, true))
    ensures NestedBytes(layout, root, v).Ok? <==> NestedOk(layout, root, v)
    ensures NestedOk(layout, root, v) ==> |NestedBytes(layout, root, v).value| == NestedLength(layout, root, v)
    decreases root, 3
  {
    hide EncodeArray, EncodeRow, ArrayOk, RowOk, ArrayLength, RowLength;
    match root {
      case Array(e) => ArrayAccepted(layout, e, v.elements);
      case Map(k, e) =>
        ArrayAccepted(layout, k, Keys(v.entries));
        ArrayAccepted(layout, e, Values(v.entries));
      case Row(fields) => RowAccepted(layout, fields, v.cells);
    }
  }

  /** An element at `offset` is written exactly if it is representable and its bytes fit behind. */
  lemma {:induction false} ElementAccepted(layout: Layout, root: Root, v: Value, offset: nat)
    requires Schema.Fits(root, v) && ValidType(LogicalType(root, true)) && offset <= MAX_ROW_BYTES
    ensures var r := EncodeElement(layout, root, v, offset); var more := Appended(layout, root, v);
      (r.Ok? && offset + |r.value.tail| <= MAX_ROW_BYTES <==> ElementOk(layout, root, v) && offset + more <= MAX_ROW_BYTES)
      && (r.Ok? && ElementOk(layout, root, v) ==> |r.value.tail| == more)
    decreases root, 4
  {
    hide NestedBytes, NestedLength, NestedOk, FixedWord, Little, SignedBytes.Encode, DecimalFits, Unscaled;
    hide Align8, RoundUp, OffsetSize, ElementDecimal;
    match root {
      case WordRoot(_) =>
      case TextRoot(text) => AlignIs(|TextContent(text, v)|);
      case Timestamp(_, p) =>
      case Decimal(p, s) => DecimalElement(v.amount, p, s, offset);
      case _ =>
        NestedAccepted(layout, root, v);
        AlignIs(NestedLength(layout, root, v));
    }
  }

  lemma DecimalElement(amount: real, p: nat, s: nat, offset: nat)
    requires p <= 38 && offset <= MAX_ROW_BYTES
    ensures var r, more := ElementDecimal(amount, p, s, offset), if p <= 18 then 0 else 16;
      (r.Ok? <==> DecimalFits(amount, p, s) && offset + more <= MAX_ROW_BYTES) && (r.Ok? ==> |r.value.tail| == more)
  {
    hide Little, SignedBytes.Encode, DecimalFits, Unscaled, OffsetSize;
    UnscaledExactly(amount, p, s);
    if DecimalFits(amount, p, s) {
      SignedBytes.DecimalFits16(Units(amount, s).Floor, p);
    }
  }

  lemma AlignIs(n: nat)
    ensures Align8(n) == RoundUp(n, 8)
  {
  }

  /** Elements from `i` on, all representable. */
  predicate ElementsOk(layout: Layout, t: LogicalType, vs: seq<Value>, i: nat)
    requires AllAccepted(t, vs)
    decreases t, 2
  {
    forall j :: i <= j < |vs| && Accepts(t, vs[j]) && !vs[j].Null? ==> ElementOk(layout, t.root, vs[j])
  }

  lemma {:induction false} ElementsAccepted(layout: Layout, t: LogicalType, vs: seq<Value>, i: nat, offset: nat)
    requires i <= |vs| && AllAccepted(t, vs) && ValidType(t) && offset <= MAX_ROW_BYTES
    ensures var r := EncodeElements(layout, t, vs, i, offset); var more := AppendedFrom(layout, t, vs, i);
      (r.Ok? <==> ElementsOk(layout, t, vs, i) && offset + more <= MAX_ROW_BYTES)
      && (r.Ok? ==> |r.value.tail| == more)
    decreases t, 2, |vs| - i
  {
    hide EncodeElement, Appended, ElementOk, SlotSize;
    if i < |vs| {
      assert Accepts(t, vs[i]);
      if vs[i].Null? {
        ElementsAccepted(layout, t, vs, i + 1, offset);
      } else {
        ElementAccepted(layout, t.root, vs[i], offset);
        var e := EncodeElement(layout, t.root, vs[i], offset);
        if e.Ok? && offset + |e.value.tail| <= MAX_ROW_BYTES {
          ElementsAccepted(layout, t, vs, i + 1, offset + |e.value.tail|);
        }
      }
    }
  }

  lemma {:induction false} ArrayAccepted(layout: Layout, t: LogicalType, vs: seq<Value>)
    requires AllAccepted(t, vs) && ValidType(t)
    ensures EncodeArray(layout, t, vs).Ok? <==> ArrayOk(layout, t, vs)
    ensures ArrayOk(layout, t, vs) ==> |EncodeArray(layout, t, vs).value| == ArrayLength(layout, t, vs)
    decreases t, 3
  {
    hide EncodeElements, AppendedFrom, ElementOk, Frame, FixedBytes;
    FrameIs(t.root, |vs|);
    if Frame(t.root, |vs|) <= MAX_ROW_BYTES {
      ElementsAccepted(layout, t, vs, 0, Frame(t.root, |vs|));
    }
  }

  /** Cells from `i` on, all representable. */
  predicate CellsOk(layout: Layout, fields: seq<LogicalType>, row: seq<Value>, i: nat)
    requires ValidRow(fields, row)
  {
    forall j :: i <= j < |fields| && Accepts(fields[j], row[j]) && !row[j].Null? ==> CellOk(layout, fields[j], row[j])
  }

  predicate NullsFrom(row: seq<Value>, i: nat)
  {
    forall j :: i <= j < |row| ==> row[j].Null?
  }

  lemma {:induction false} CellsAccepted(layout: Layout, fields: seq<LogicalType>, row: seq<Value>, i: nat, size: nat)
    requires ValidRow(fields, row) && ValidSchema(fields) && i <= |fields|
    ensures var r := EncodeCells(layout, fields, row, i, size); var more := CellsFrom(layout, fields, row, i);
      (r.Ok? <==> CellsOk(layout, fields, row, i) && (NullsFrom(row, i) || size + more <= MAX_ROW_BYTES))
      && (r.Ok? ==> |r.value.data| == more)
    decreases fields, |fields| - i
  {
    assert |row| == |fields|;
    hide CellValue, CellOk, CellLength, ValidRow, ValidSchema, CellsOk, NullsFrom, EncodeCells, CellsFrom;
    EncodeStep(layout, fields, row, i, size);
    if i < |fields| {
      CellsOkStep(layout, fields, row, i);
      if row[i].Null? {
        CellsAccepted(layout, fields, row, i + 1, size);
      } else {
        CellFits(fields, row, i);
        assert ValidColumn(fields[i]) by { ColumnValid(fields, i); }
        CellAccepted(layout, fields[i], row[i]);
        var value := CellValue(layout, fields[i], row[i]);
        if value.Ok? && size + |value.value| <= MAX_ROW_BYTES {
          CellsAccepted(layout, fields, row, i + 1, size + |value.value|);
          if NullsFrom(row, i + 1) {
            NoMoreCells(layout, fields, row, i + 1);
          }
        }
      }
    } else {
      NoneLeft(layout, fields, row);
    }
  }

  /** One cell's part in the encoding and in the length. */
  lemma EncodeStep(layout: Layout, fields: seq<LogicalType>, row: seq<Value>, i: nat, size: nat)
    requires ValidRow(fields, row) && i <= |fields|
    ensures i == |fields| ==> EncodeCells(layout, fields, row, i, size) == Ok(RowParts([], []))
                              && CellsFrom(layout, fields, row, i) == 0
    ensures i < |fields| && row[i].Null? ==>
      EncodeCells(layout, fields, row, i, size) == EncodeCells(layout, fields, row, i + 1, size)
      && CellsFrom(layout, fields, row, i) == CellsFrom(layout, fields, row, i + 1)
    ensures i < |fields| && !row[i].Null? && Schema.Fits(fields[i].root, row[i]) ==>
      var r, v := EncodeCells(layout, fields, row, i, size), CellValue(layout, fields[i], row[i]);
      (r.Ok? <==> v.Ok? && size + |v.value| <= MAX_ROW_BYTES
                  && EncodeCells(layout, fields, row, i + 1, size + |v.value|).Ok?)
      && (r.Ok? ==> |r.value.data| == |v.value| + |EncodeCells(layout, fields, row, i + 1, size + |v.value|).value.data|)
      && CellsFrom(layout, fields, row, i)
         == CellLength(layout, fields[i], row[i]) + CellsFrom(layout, fields, row, i + 1)
  {
    hide CellValue, CellLength, LengthOf;
  }

  lemma NoneLeft(layout: Layout, fields: seq<LogicalType>, row: seq<Value>)
    requires ValidRow(fields, row)
    ensures CellsOk(layout, fields, row, |fields|) && NullsFrom(row, |fields|)
  {
  }

  lemma ColumnValid(fields: seq<LogicalType>, i: nat)
    requires ValidSchema(fields) && i < |fields|
    ensures ValidColumn(fields[i])
  {
  }

  lemma CellsOkStep(layout: Layout, fields: seq<LogicalType>, row: seq<Value>, i: nat)
    requires ValidRow(fields, row) && i < |fields|
    ensures row[i].Null? ==>
      (CellsOk(layout, fields, row, i) <==> CellsOk(layout, fields, row, i + 1)) && (NullsFrom(row, i) <==> NullsFrom(row, i + 1))
    ensures !row[i].Null? ==>
      !NullsFrom(row, i) && Schema.Fits(fields[i].root, row[i])
      && (CellsOk(layout, fields, row, i) <==> CellOk(layout, fields[i], row[i]) && CellsOk(layout, fields, row, i + 1))
  {
    hide CellOk;
    assert Accepts(fields[i], row[i]);
  }

  lemma {:induction false} NoMoreCells(layout: Layout, fields: seq<LogicalType>, row: seq<Value>, i: nat)
    requires ValidRow(fields, row) && i <= |fields| && NullsFrom(row, i)
    ensures CellsFrom(layout, fields, row, i) == 0
    decreases |fields| - i
  {
    if i < |fields| {
      NoMoreCells(layout, fields, row, i + 1);
    }
  }

  lemma {:induction false} RowAccepted(layout: Layout, fields: seq<LogicalType>, row: seq<Value>)
    requires ValidRow(fields, row) && ValidSchema(fields)
    ensures EncodeRow(layout, fields, row).Ok? <==> RowOk(layout, fields, row)
    ensures RowOk(layout, fields, row) ==> |EncodeRow(layout, fields, row).value| == RowLength(layout, fields, row)
    decreases fields, |fields| + 1
  {
    hide EncodeCells, CellsFrom, CellOk, Header, HeaderBytes, AssembleRow;
    HeaderIs(layout, fields);
    CellsAccepted(layout, fields, row, 0, Header(layout, fields));
  }

  /**
   The encoder accepts a row if and only if the schema is valid, the row is of the schema, and
   at every level decimals are whole numbers of units within their precision, indexed CHAR and
   BINARY cells are within their declared length, and nothing is over the size limit. What it
   writes then is exactly as long as the types and values say.
   */
  lemma EncoderAcceptsExactly(layout: Layout, fields: seq<LogicalType>, row: seq<Value>)
    ensures EncodeRow(layout, fields, row).Ok? <==>
      ValidSchema(fields) && ValidRow(fields, row) && RowOk(layout, fields, row)
    ensures EncodeRow(layout, fields, row).Ok? ==>
      |EncodeRow(layout, fields, row).value| == RowLength(layout, fields, row)
  {
    hide RowOk, RowLength, EncodeCells;
    if ValidSchema(fields) && ValidRow(fields, row) {
      RowAccepted(layout, fields, row);
    }
  }

  /**
   Encoding and decoding together, for every schema and row: the row comes back as it was if
   and only if it is accepted, canonical, and the header alone is within the limit.
   */
  lemma RoundTripExactly(layout: Layout, fields: seq<LogicalType>, row: seq<Value>)
    ensures (EncodeRow(layout, fields, row).Ok?
             && DecodeRow(layout, fields, EncodeRow(layout, fields, row).value) == Ok(row))
      <==> ValidSchema(fields) && ValidRow(fields, row) && RowOk(layout, fields, row)
           && CanonicalRow(layout, fields, row) && Header(layout, fields) <= MAX_ROW_BYTES
  {
    hide RowOk, RowLength, EncodeRow, DecodeRow, CanonicalRow, Header, HeaderBytes;
    EncoderAcceptsExactly(layout, fields, row);
    HeaderIs(layout, fields);
    if EncodeRow(layout, fields, row).Ok? {
      RoundTrip(layout, fields, row);
    }
  }

  // --------------------------------------------------------------------------- keys

  function KeyLength(types: seq<LogicalType>, key: seq<Value>, i: nat): nat
    requires ValidKey(types, key) && i <= |key|
    decreases |key| - i
  {
    if i == |key| then 0
    else
      CellFits(types, key, i);
      CellLength(Compacted, types[i], key[i]) + KeyLength(types, key, i + 1)
  }

  predicate KeyOk(types: seq<LogicalType>, key: seq<Value>, i: nat)
    requires ValidKey(types, key)
  {
    forall j :: i <= j < |key| && Schema.Fits(types[j].root, key[j]) ==> CellOk(Compacted, types[j], key[j])
  }

  lemma {:induction false} KeyBytesAccepted(types: seq<LogicalType>, key: seq<Value>, i: nat)
    requires ValidKey(types, key) && i <= |key| && forall j :: 0 <= j < |types| ==> ValidColumn(types[j])
    ensures KeyBytes(types, key, i).Ok? <==> KeyOk(types, key, i)
    ensures KeyOk(types, key, i) ==> |KeyBytes(types, key, i).value| == KeyLength(types, key, i)
    decreases |key| - i
  {
    hide CompactedValue, CellOk, CellLength;
    if i < |key| {
      CellFits(types, key, i);
      CellAccepted(Compacted, types[i], key[i]);
      KeyBytesAccepted(types, key, i + 1);
    }
  }

  /** A key of valid columns is encoded if and only if it is non-null throughout, representable and within the limit. */
  lemma KeyAcceptedExactly(types: seq<LogicalType>, key: seq<Value>)
    requires forall j :: 0 <= j < |types| ==> ValidColumn(types[j])
    ensures EncodeKey(types, key).Ok? <==>
      ValidRow(types, key) && (forall j :: 0 <= j < |key| ==> !key[j].Null?)
      && KeyOk(types, key, 0) && KeyLength(types, key, 0) <= MAX_ROW_BYTES
  {
    hide KeyBytes, KeyOk, KeyLength, ValidRow, ValidColumn;
    if ValidKey(types, key) {
      KeyBytesAccepted(types, key, 0);
    }
  }
}
