/**
 The encoding and decoding loops, which patch a buffer in place and advance positions,
 compute the layouts of RowCodec.
 */
module RowLoops {
  import opened Bytes
  import opened Schema
  import opened RowCodec

  // ------------------------------------------------------------- buffer regions

  lemma NoFlags(width: nat)
    ensures Bitmap([], width) == Zeros(width)
  {
    forall k | 0 <= k < width ensures Bitmap([], width)[k] == 0 {
      NoFlagsByte(k, 8);
    }
  }

  lemma {:induction false} NoFlagsByte(index: nat, upTo: nat)
    requires upTo <= 8
    ensures BitmapByte([], index, upTo) == 0
  {
    if upTo > 0 {
      NoFlagsByte(index, upTo - 1);
    }
  }

  /** A buffer of an array or row under construction: head, null bitmap, filled slots, free slots, data. */
  ghost function Buffer(head: ByteString, bitmap: ByteString, filled: ByteString, free: nat, data: ByteString): ByteString
  {
    head + bitmap + filled + Zeros(free) + data
  }

  lemma BufferEmpty(head: ByteString, width: nat, free: nat)
    ensures head + Zeros(width + free) == Buffer(head, Bitmap([], width), [], free, [])
  {
    hide Bitmap;
    NoFlags(width);
    assert Zeros(width + free) == Zeros(width) + Zeros(free);
  }

  lemma BufferSetNull(head: ByteString, flags: seq<bool>, width: nat, i: nat,
                      filled: ByteString, free: nat, data: ByteString)
    requires i / 8 < width && i < |flags|
    ensures flags[i] ==>
      var buffer := Buffer(head, Bitmap(flags[..i], width), filled, free, data);
      |head| + i / 8 < |buffer|
      && buffer[|head| + i / 8 := SetBit(buffer[|head| + i / 8], i % 8)]
      == Buffer(head, Bitmap(flags[..i + 1], width), filled, free, data)
    ensures !flags[i] ==> Bitmap(flags[..i + 1], width) == Bitmap(flags[..i], width)
  {
    hide Bitmap, SetBit;
    BitmapSet(flags, width, i);
    var bitmap := Bitmap(flags[..i], width);
    assert Buffer(head, bitmap, filled, free, data)[|head| + i / 8] == bitmap[i / 8];
  }

  lemma BufferPut(head: ByteString, bitmap: ByteString, filled: ByteString, free: nat, data: ByteString,
                  slot: ByteString, tail: ByteString)
    requires |slot| <= free
    ensures |head| + |bitmap| + |filled| + |slot| <= |Buffer(head, bitmap, filled, free, data)|
    ensures Put(Buffer(head, bitmap, filled, free, data), |head| + |bitmap| + |filled|, slot) + tail
         == Buffer(head, bitmap, filled + slot, free - |slot|, data + tail)
  {
    var a, c := head + bitmap + filled, Zeros(free - |slot|) + data;
    assert Buffer(head, bitmap, filled, free, data) == a + Zeros(|slot|) + c;
    PutMiddle(a, Zeros(|slot|), c, slot);
    assert a + slot + c + tail == Buffer(head, bitmap, filled + slot, free - |slot|, data + tail);
  }

  // ------------------------------------------------------------------ encodeRow

  ghost function Prepend(lengths: ByteString, data: ByteString, rest: Result<RowParts>): Result<RowParts>
  {
    match rest
    case Err => Err
    case Ok(parts) => Ok(RowParts(lengths + parts.lengths, data + parts.data))
  }

  lemma PrependNothing(rest: Result<RowParts>)
    ensures Prepend([], [], rest) == rest
    ensures rest.Ok? ==> Prepend(rest.value.lengths, rest.value.data, Ok(RowParts([], []))) == rest
  {
    if rest.Ok? {
      var parts := rest.value;
      assert [] + parts.lengths == parts.lengths + [] == parts.lengths;
      assert [] + parts.data == parts.data + [] == parts.data;
    }
  }

  lemma PrependTwice(lengths: ByteString, data: ByteString, length: ByteString, value: ByteString, rest: Result<RowParts>)
    ensures Prepend(lengths, data, Prepend(length, value, rest)) == Prepend(lengths + length, data + value, rest)
  {
    if rest.Ok? {
      assert lengths + (length + rest.value.lengths) == lengths + length + rest.value.lengths;
      assert data + (value + rest.value.data) == data + value + rest.value.data;
    }
  }

  ghost function CellThenRest(layout: Layout, fields: seq<LogicalType>, row: seq<Value>, i: nat, size: nat,
                              cell: Result<ByteString>): Result<RowParts>
    requires ValidRow(fields, row) && i < |fields|
  {
    match cell
    case Err => Err
    case Ok(value) =>
      if |value| > MAX_ROW_BYTES - size then Err
      else Prepend(LengthOf(layout, fields[i].root, value), value,
                   EncodeCells(layout, fields, row, i + 1, size + |value|))
  }

  lemma CellStep(layout: Layout, fields: seq<LogicalType>, row: seq<Value>, i: nat, size: nat)
    requires ValidRow(fields, row) && i < |fields|
    ensures !row[i].Null? ==> Fits(fields[i].root, row[i])
    ensures EncodeCells(layout, fields, row, i, size)
         == if row[i].Null? then EncodeCells(layout, fields, row, i + 1, size)
            else CellThenRest(layout, fields, row, i, size, CellValue(layout, fields[i], row[i]))
  {
    hide CellValue, Fits;
    if !row[i].Null? {
      CellFits(fields, row, i);
    }
  }

  /** The buffer after the columns before `i`, and what the remaining columns will add to it. */
  ghost predicate RowState(layout: Layout, fields: seq<LogicalType>, row: seq<Value>, i: nat,
                           lengths: ByteString, data: ByteString, encoded: ByteString, lengthPosition: nat)
  {
    ValidSchema(fields) && ValidRow(fields, row) && i <= |fields|
    && |lengths| + LengthSlots(layout, fields, i) <= LengthSlots(layout, fields, 0)
    && lengthPosition == NullBytes(|fields|) + |lengths|
    && encoded == Buffer([], Bitmap(NullFlags(row)[..i], NullBytes(|fields|)), lengths,
                         LengthSlots(layout, fields, 0) - |lengths|, data)
    && |encoded| == HeaderBytes(layout, fields) + |data|
    && EncodeCells(layout, fields, row, 0, HeaderBytes(layout, fields))
       == Prepend(lengths, data, EncodeCells(layout, fields, row, i, |encoded|))
  }

  lemma RowStart(layout: Layout, fields: seq<LogicalType>, row: seq<Value>)
    requires ValidSchema(fields) && ValidRow(fields, row)
    ensures RowState(layout, fields, row, 0, [], [], Zeros(HeaderBytes(layout, fields)), NullBytes(|fields|))
  {
    hide Bitmap, EncodeCells, LengthSlots, Buffer;
    BufferEmpty([], NullBytes(|fields|), LengthSlots(layout, fields, 0));
    assert [] + Zeros(HeaderBytes(layout, fields)) == Zeros(HeaderBytes(layout, fields));
    assert NullFlags(row)[..0] == [];
    PrependNothing(EncodeCells(layout, fields, row, 0, HeaderBytes(layout, fields)));
  }

  lemma RowNull(layout: Layout, fields: seq<LogicalType>, row: seq<Value>, i: nat,
                lengths: ByteString, data: ByteString, encoded: ByteString, lengthPosition: nat)
    requires RowState(layout, fields, row, i, lengths, data, encoded, lengthPosition)
    requires i < |fields| && row[i].Null?
    ensures i / 8 < |encoded|
    ensures RowState(layout, fields, row, i + 1, lengths, data,
                     encoded[i / 8 := SetBit(encoded[i / 8], i % 8)], lengthPosition)
  {
    hide Bitmap, EncodeCells, Buffer, SetBit, Prepend;
    BufferSetNull([], NullFlags(row), NullBytes(|fields|), i, lengths, LengthSlots(layout, fields, 0) - |lengths|, data);
    CellStep(layout, fields, row, i, |encoded|);
  }

  lemma RowValue(layout: Layout, fields: seq<LogicalType>, row: seq<Value>, i: nat,
                 lengths: ByteString, data: ByteString, encoded: ByteString, lengthPosition: nat, value: ByteString)
    requires RowState(layout, fields, row, i, lengths, data, encoded, lengthPosition)
    requires i < |fields| && !row[i].Null? && Fits(fields[i].root, row[i])
    requires CellValue(layout, fields[i], row[i]) == Ok(value) && |value| <= MAX_ROW_BYTES - |encoded|
    ensures var length := LengthOf(layout, fields[i].root, value);
      lengthPosition + |length| <= |encoded|
      && RowState(layout, fields, row, i + 1, lengths + length, data + value,
                  Put(encoded, lengthPosition, length) + value, lengthPosition + |length|)
  {
    hide Bitmap, EncodeCells, Buffer, Put, Prepend, CellValue, Little, Fits;
    var length := LengthOf(layout, fields[i].root, value);
    var free := LengthSlots(layout, fields, 0) - |lengths|;
    BufferSetNull([], NullFlags(row), NullBytes(|fields|), i, lengths, free, data);
    BufferPut([], Bitmap(NullFlags(row)[..i], NullBytes(|fields|)), lengths, free, data, length, value);
    CellStep(layout, fields, row, i, |encoded|);
    PrependTwice(lengths, data, length, value, EncodeCells(layout, fields, row, i + 1, |encoded| + |value|));
  }

  lemma RowFails(layout: Layout, fields: seq<LogicalType>, row: seq<Value>, i: nat,
                 lengths: ByteString, data: ByteString, encoded: ByteString, lengthPosition: nat)
    requires RowState(layout, fields, row, i, lengths, data, encoded, lengthPosition)
    requires i < |fields| && !row[i].Null? && Fits(fields[i].root, row[i])
    requires var cell := CellValue(layout, fields[i], row[i]);
      cell.Err? || |cell.value| > MAX_ROW_BYTES - |encoded|
    ensures EncodeRow(layout, fields, row) == Err
  {
    hide EncodeCells, CellValue, Buffer, Bitmap, Fits;
    CellStep(layout, fields, row, i, |encoded|);
  }

  lemma RowDone(layout: Layout, fields: seq<LogicalType>, row: seq<Value>,
                lengths: ByteString, data: ByteString, encoded: ByteString, lengthPosition: nat)
    requires RowState(layout, fields, row, |fields|, lengths, data, encoded, lengthPosition)
    ensures EncodeRow(layout, fields, row) == Ok(encoded)
  {
    hide Bitmap;
    assert NullFlags(row)[..|fields|] == NullFlags(row);
    PrependNothing(Ok(RowParts(lengths, data)));
    assert [] + Bitmap(NullFlags(row), NullBytes(|fields|)) == Bitmap(NullFlags(row), NullBytes(|fields|));
  }

  /** Marks nulls and records lengths in the header, and appends the values behind it. */
  method EncodeRowLoop(layout: Layout, fields: seq<LogicalType>, row: seq<Value>) returns (r: Result<ByteString>)
    ensures r == EncodeRow(layout, fields, row)
  {
    if !ValidSchema(fields) || !ValidRow(fields, row) {
      return Err;
    }
    hide RowState, EncodeRow, CellValue, Little, Fits, SetBit, Put, Zeros, OwnsLength;
    ghost var lengths: ByteString, data: ByteString := [], [];
    var encoded: ByteString, lengthPosition: nat := Zeros(HeaderBytes(layout, fields)), NullBytes(|fields|);
    RowStart(layout, fields, row);
    var i := 0;
    while i < |fields|
      invariant 0 <= i <= |fields|
      invariant RowState(layout, fields, row, i, lengths, data, encoded, lengthPosition)
    {
      if row[i].Null? {
        RowNull(layout, fields, row, i, lengths, data, encoded, lengthPosition);
        encoded := encoded[i / 8 := SetBit(encoded[i / 8], i % 8)];
      } else {
        CellFits(fields, row, i);
        var cell := CellValue(layout, fields[i], row[i]);
        if cell.Err? || |cell.value| > MAX_ROW_BYTES - |encoded| {
          RowFails(layout, fields, row, i, lengths, data, encoded, lengthPosition);
          return Err;
        }
        var value := cell.value;
        RowValue(layout, fields, row, i, lengths, data, encoded, lengthPosition, value);
        lengths, data := lengths + LengthOf(layout, fields[i].root, value), data + value;
        if OwnsLength(layout, fields[i].root) {
          encoded := Put(encoded, lengthPosition, Little(|value|, 4));
          lengthPosition := lengthPosition + 4;
        } else {
          PutNothing(encoded, lengthPosition);
        }
        encoded := encoded + value;
      }
      i := i + 1;
    }
    RowDone(layout, fields, row, lengths, data, encoded, lengthPosition);
    r := Ok(encoded);
  }

  lemma PutNothing(buffer: ByteString, at: nat)
    requires at <= |buffer|
    ensures Put(buffer, at, []) == buffer
  {
  }

  // ------------------------------------------------------------------ decodeRow

  ghost function Onto(prefix: seq<Value>, rest: Result<seq<Value>>): Result<seq<Value>>
  {
    match rest
    case Err => Err
    case Ok(values) => Ok(prefix + values)
  }

  lemma OntoNothing(rest: Result<seq<Value>>)
    ensures Onto([], rest) == rest
    ensures rest.Ok? ==> Onto(rest.value, Ok([])) == rest
  {
    if rest.Ok? {
      assert [] + rest.value == rest.value + [] == rest.value;
    }
  }

  lemma OntoTwice(prefix: seq<Value>, v: Value, rest: Result<seq<Value>>)
    ensures Onto(prefix, Onto([v], rest)) == Onto(prefix + [v], rest)
  {
    if rest.Ok? {
      assert prefix + ([v] + rest.value) == prefix + [v] + rest.value;
    }
  }

  lemma ReadCellStep(layout: Layout, fields: seq<LogicalType>, encoded: ByteString,
                     i: nat, position: nat, lengthPosition: nat, row: seq<Value>)
    requires i < |fields| && position <= |encoded| && NullBytes(|fields|) <= |encoded|
    requires lengthPosition + LengthSlots(layout, fields, i) <= |encoded|
    ensures i / 8 < |encoded|
    ensures lengthPosition + LengthSlots(layout, fields, i + 1) <= |encoded|
    ensures OwnsLength(layout, fields[i].root) ==> lengthPosition + 4 + LengthSlots(layout, fields, i + 1) <= |encoded|
    ensures var owns := OwnsLength(layout, fields[i].root);
      Onto(row, DecodeCells(layout, fields, encoded, i, position, lengthPosition)) ==
      if BitAt(encoded, 0, i) then
        if !fields[i].nullable then Err
        else Onto(row + [Null], DecodeCells(layout, fields, encoded, i + 1, position, lengthPosition))
      else
        var length := if owns then FromLittle(encoded[lengthPosition..lengthPosition + 4]) else -1;
        match ReadCell(layout, encoded, position, fields[i], length)
        case Err => Err
        case Ok((v, next)) =>
          Onto(row + [v], DecodeCells(layout, fields, encoded, i + 1, next,
                                      if owns then lengthPosition + 4 else lengthPosition))
  {
    hide ReadCell, Bit, FromLittle, IndexedFixed, Onto;
    OntoErr(row);
    if BitAt(encoded, 0, i) {
      var rest := DecodeCells(layout, fields, encoded, i + 1, position, lengthPosition);
      OntoTwice(row, Null, rest);
      OntoOne(Null, rest);
    } else {
      var owns := OwnsLength(layout, fields[i].root);
      var length := if owns then FromLittle(encoded[lengthPosition..lengthPosition + 4]) else -1;
      var read := ReadCell(layout, encoded, position, fields[i], length);
      if read.Ok? {
        var (v, next) := read.value;
        var rest := DecodeCells(layout, fields, encoded, i + 1, next,
                                if owns then lengthPosition + 4 else lengthPosition);
        OntoTwice(row, v, rest);
        OntoOne(v, rest);
      }
    }
  }

  method DecodeRowLoop(layout: Layout, fields: seq<LogicalType>, encoded: ByteString) returns (r: Result<seq<Value>>)
    ensures r == DecodeRow(layout, fields, encoded)
  {
    hide ReadCell, Bit, FromLittle, OwnsLength, Onto, DecodeCells, LengthSlots;
    if !ValidSchema(fields) || |encoded| > MAX_ROW_BYTES || |encoded| < HeaderBytes(layout, fields) {
      return Err;
    }
    var row: seq<Value> := [];
    var position: nat, lengthPosition: nat := HeaderBytes(layout, fields), NullBytes(|fields|);
    ghost var all := DecodeCells(layout, fields, encoded, 0, position, lengthPosition);
    assert DecodeRow(layout, fields, encoded) == all;
    hide DecodeRow;
    OntoNothing(all);
    var i := 0;
    while i < |fields|
      invariant 0 <= i <= |fields| && position <= |encoded|
      invariant lengthPosition + LengthSlots(layout, fields, i) <= |encoded|
      invariant all == Onto(row, DecodeCells(layout, fields, encoded, i, position, lengthPosition))
    {
      ReadCellStep(layout, fields, encoded, i, position, lengthPosition, row);
      var isNull := BitAt(encoded, 0, i);
      var length: int, nextLength: nat := -1, lengthPosition;
      if OwnsLength(layout, fields[i].root) && !isNull {
        length, nextLength := FromLittle(encoded[lengthPosition..lengthPosition + 4]), lengthPosition + 4;
      }
      if isNull {
        if !fields[i].nullable {
          return Err;
        }
        row := row + [Null];
      } else {
        var read := ReadCell(layout, encoded, position, fields[i], length);
        if read.Err? {
          return Err;
        }
        row, position := row + [read.value.0], read.value.1;
      }
      lengthPosition := nextLength;
      i := i + 1;
    }
    OntoNothing(Ok(row));
    OntoErr(row);
    NoCell(layout, fields, encoded, position, lengthPosition);
    if position != |encoded| {
      return Err;
    }
    r := Ok(row);
  }

  lemma NoCell(layout: Layout, fields: seq<LogicalType>, encoded: ByteString, position: nat, lengthPosition: nat)
    requires position <= |encoded| && NullBytes(|fields|) <= |encoded|
    requires lengthPosition + LengthSlots(layout, fields, |fields|) <= |encoded|
    ensures DecodeCells(layout, fields, encoded, |fields|, position, lengthPosition)
         == if position != |encoded| then Err else Ok([])
  {
  }

  // ---------------------------------------------------------- encodeBinaryArray

  ghost function PrependElement(slots: ByteString, tail: ByteString, rest: Result<Element>): Result<Element>
  {
    match rest
    case Err => Err
    case Ok(parts) => Ok(Element(slots + parts.slot, tail + parts.tail))
  }

  lemma ElementStep(layout: Layout, t: LogicalType, vs: seq<Value>, i: nat, offset: nat, slots: ByteString, tail: ByteString)
    requires i < |vs|
    ensures PrependElement(slots, tail, EncodeElements(layout, t, vs, i, offset)) ==
      if vs[i].Null? then
        if !t.nullable then Err
        else PrependElement(slots + Zeros(SlotSize(t.root)), tail + [], EncodeElements(layout, t, vs, i + 1, offset))
      else if !Fits(t.root, vs[i]) then Err
      else
        match EncodeElement(layout, t.root, vs[i], offset)
        case Err => Err
        case Ok(e) =>
          if offset + |e.tail| > MAX_ROW_BYTES then Err
          else PrependElement(slots + e.slot, tail + e.tail, EncodeElements(layout, t, vs, i + 1, offset + |e.tail|))
  {
    hide EncodeElement, Fits;
    assert tail + [] == tail;
    var parts := EncodeElements(layout, t, vs, i, offset);
    if vs[i].Null? {
      var rest := EncodeElements(layout, t, vs, i + 1, offset);
      if parts.Ok? {
        assert slots + (Zeros(SlotSize(t.root)) + rest.value.slot) == slots + Zeros(SlotSize(t.root)) + rest.value.slot;
      }
    } else if parts.Ok? {
      var e := EncodeElement(layout, t.root, vs[i], offset).value;
      var rest := EncodeElements(layout, t, vs, i + 1, offset + |e.tail|).value;
      assert slots + (e.slot + rest.slot) == slots + e.slot + rest.slot;
      assert tail + (e.tail + rest.tail) == tail + e.tail + rest.tail;
    }
  }

  lemma {:induction false} SlotsSplit(root: Root, i: nat, n: nat)
    requires i <= n
    ensures Slots(root, i) + Slots(root, n - i) == Slots(root, n)
    decreases i
  {
    if i > 0 {
      SlotsSplit(root, i - 1, n - 1);
    }
  }

  /** The buffer after the elements before `i`, and what the remaining elements will add to it. */
  ghost predicate ArrayState(layout: Layout, t: LogicalType, vs: seq<Value>, i: nat,
                             slots: ByteString, tail: ByteString, encoded: ByteString)
  {
    |vs| <= MAX_ROW_BYTES / 8 && FixedBytes(t.root, |vs|) <= MAX_ROW_BYTES && i <= |vs|
    && |slots| == Slots(t.root, i) && |slots| <= FreeBytes(t.root, |vs|)
    && |encoded| == FixedBytes(t.root, |vs|) + |tail| <= MAX_ROW_BYTES
    && encoded == Buffer(Little(|vs|, 4), Bitmap(NullFlags(vs)[..i], WordBytes(|vs|)), slots,
                         FreeBytes(t.root, |vs|) - |slots|, tail)
    && EncodeElements(layout, t, vs, 0, FixedBytes(t.root, |vs|))
       == PrependElement(slots, tail, EncodeElements(layout, t, vs, i, |encoded|))
  }

  ghost function FreeBytes(root: Root, count: nat): nat
  {
    FixedBytes(root, count) - 4 - WordBytes(count)
  }

  lemma FrameFits(root: Root, count: nat)
    ensures 4 + WordBytes(count) <= FixedBytes(root, count)
  {
  }

  lemma ArrayBegin(layout: Layout, t: LogicalType, vs: seq<Value>)
    requires |vs| <= MAX_ROW_BYTES / 8 && FixedBytes(t.root, |vs|) <= MAX_ROW_BYTES
    ensures 4 <= FixedBytes(t.root, |vs|)
    ensures ArrayState(layout, t, vs, 0, [], [], Put(Zeros(FixedBytes(t.root, |vs|)), 0, Little(|vs|, 4)))
  {
    hide Bitmap, EncodeElements, Buffer, Put, Little, Slots, PrependElement, WordWidth, FixedBytes, WordBytes;
    FrameFits(t.root, |vs|);
    assert Slots(t.root, 0) == 0 by { SlotsIsProduct(t.root, 0); }
    ArrayStart(Little(|vs|, 4), WordBytes(|vs|), FreeBytes(t.root, |vs|));
    assert NullFlags(vs)[..0] == [];
    PrependNoElement(EncodeElements(layout, t, vs, 0, FixedBytes(t.root, |vs|)));
  }

  lemma ArrayNull(layout: Layout, t: LogicalType, vs: seq<Value>, i: nat,
                  slots: ByteString, tail: ByteString, encoded: ByteString)
    requires ArrayState(layout, t, vs, i, slots, tail, encoded)
    requires i < |vs| && vs[i].Null? && t.nullable
    ensures 4 + i / 8 < |encoded|
    ensures ArrayState(layout, t, vs, i + 1, slots + Zeros(SlotSize(t.root)), tail + [],
                       encoded[4 + i / 8 := SetBit(encoded[4 + i / 8], i % 8)])
  {
    hide Bitmap, EncodeElements, Buffer, Little, SetBit, PrependElement, WordWidth;
    var n, width := |vs|, WordBytes(|vs|);
    var free, zeros := FreeBytes(t.root, n) - |slots|, Zeros(SlotSize(t.root));
    SlotsSplit(t.root, i + 1, n);
    BitmapInside(t.root, n, i);
    BufferSetNull(Little(n, 4), NullFlags(vs), width, i, slots, free, tail);
    PutZeros(Little(n, 4), Bitmap(NullFlags(vs)[..i + 1], width), slots, free, tail, |zeros|);
    ElementStep(layout, t, vs, i, |encoded|, slots, tail);
  }

  lemma ArrayValue(layout: Layout, t: LogicalType, vs: seq<Value>, i: nat,
                   slots: ByteString, tail: ByteString, encoded: ByteString, e: Element)
    requires ArrayState(layout, t, vs, i, slots, tail, encoded)
    requires i < |vs| && !vs[i].Null? && Fits(t.root, vs[i])
    requires EncodeElement(layout, t.root, vs[i], |encoded|) == Ok(e) && |encoded| + |e.tail| <= MAX_ROW_BYTES
    ensures SlotAt(t.root, |vs|, i) + |e.slot| <= |encoded|
    ensures ArrayState(layout, t, vs, i + 1, slots + e.slot, tail + e.tail,
                       Put(encoded, SlotAt(t.root, |vs|, i), e.slot) + e.tail)
  {
    hide Bitmap, EncodeElements, EncodeElement, Buffer, Little, Put, PrependElement, WordWidth, Fits;
    var n, width := |vs|, WordBytes(|vs|);
    var free := FreeBytes(t.root, n) - |slots|;
    SlotsSplit(t.root, i + 1, n);
    BitmapInside(t.root, n, i);
    BufferSetNull(Little(n, 4), NullFlags(vs), width, i, slots, free, tail);
    BufferPut(Little(n, 4), Bitmap(NullFlags(vs)[..i], width), slots, free, tail, e.slot, e.tail);
    ElementStep(layout, t, vs, i, |encoded|, slots, tail);
  }

  lemma ArrayFails(layout: Layout, t: LogicalType, vs: seq<Value>, i: nat,
                   slots: ByteString, tail: ByteString, encoded: ByteString)
    requires ArrayState(layout, t, vs, i, slots, tail, encoded) && i < |vs|
    requires if vs[i].Null? then !t.nullable
             else !Fits(t.root, vs[i]) ||
                  var element := EncodeElement(layout, t.root, vs[i], |encoded|);
                  element.Err? || |encoded| + |element.value.tail| > MAX_ROW_BYTES
    ensures EncodeArray(layout, t, vs) == Err
  {
    hide EncodeElement, EncodeElements, Buffer, Bitmap, Fits;
    ElementStep(layout, t, vs, i, |encoded|, slots, tail);
  }

  lemma ArrayDone(layout: Layout, t: LogicalType, vs: seq<Value>,
                  slots: ByteString, tail: ByteString, encoded: ByteString)
    requires ArrayState(layout, t, vs, |vs|, slots, tail, encoded)
    ensures EncodeArray(layout, t, vs) == Ok(encoded)
  {
    hide Bitmap, Little;
    assert NullFlags(vs)[..|vs|] == NullFlags(vs);
    assert slots + [] == slots && tail + [] == tail;
  }

  /** Writes every element into its slot and appends variable-width bytes behind the fixed region. */
  method EncodeArrayLoop(layout: Layout, t: LogicalType, vs: seq<Value>) returns (r: Result<ByteString>)
    ensures r == EncodeArray(layout, t, vs)
  {
    if |vs| > MAX_ROW_BYTES / 8 || FixedBytes(t.root, |vs|) > MAX_ROW_BYTES {
      return Err;
    }
    hide ArrayState, EncodeArray, EncodeElement, Little, Fits, Put, SetBit, Zeros, WordWidth, FixedBytes;
    ghost var slots: ByteString, tail: ByteString := [], [];
    ArrayBegin(layout, t, vs);
    var encoded: ByteString := Put(Zeros(FixedBytes(t.root, |vs|)), 0, Little(|vs|, 4));
    var i := 0;
    while i < |vs|
      invariant 0 <= i <= |vs|
      invariant ArrayState(layout, t, vs, i, slots, tail, encoded)
    {
      if vs[i].Null? {
        if !t.nullable {
          ArrayFails(layout, t, vs, i, slots, tail, encoded);
          return Err;
        }
        ArrayNull(layout, t, vs, i, slots, tail, encoded);
        slots, tail := slots + Zeros(SlotSize(t.root)), tail + [];
        encoded := encoded[4 + i / 8 := SetBit(encoded[4 + i / 8], i % 8)];
      } else {
        if !Fits(t.root, vs[i]) {
          ArrayFails(layout, t, vs, i, slots, tail, encoded);
          return Err;
        }
        var element := EncodeElement(layout, t.root, vs[i], |encoded|);
        if element.Err? || |encoded| + |element.value.tail| > MAX_ROW_BYTES {
          ArrayFails(layout, t, vs, i, slots, tail, encoded);
          return Err;
        }
        var e := element.value;
        ArrayValue(layout, t, vs, i, slots, tail, encoded, e);
        slots, tail := slots + e.slot, tail + e.tail;
        encoded := Put(encoded, SlotAt(t.root, |vs|, i), e.slot) + e.tail;
      }
      i := i + 1;
    }
    ArrayDone(layout, t, vs, slots, tail, encoded);
    r := Ok(encoded);
  }

  lemma PrependNoElement(rest: Result<Element>)
    ensures PrependElement([], [], rest) == rest
  {
    if rest.Ok? {
      assert [] + rest.value.slot == rest.value.slot && [] + rest.value.tail == rest.value.tail;
    }
  }

  lemma ArrayStart(head: ByteString, width: nat, free: nat)
    ensures Put(Zeros(|head| + width + free), 0, head) == Buffer(head, Bitmap([], width), [], free, [])
  {
    hide Bitmap;
    assert Zeros(|head| + width + free)[|head|..] == Zeros(width + free);
    BufferEmpty(head, width, free);
  }

  /** A null element leaves its slot as it was allocated. */
  lemma PutZeros(head: ByteString, bitmap: ByteString, filled: ByteString, free: nat, data: ByteString, n: nat)
    requires n <= free
    ensures Buffer(head, bitmap, filled, free, data) == Buffer(head, bitmap, filled + Zeros(n), free - n, data + [])
  {
    assert Zeros(free) == Zeros(n) + Zeros(free - n);
    assert head + bitmap + filled + Zeros(free) == head + bitmap + (filled + Zeros(n)) + Zeros(free - n);
    assert data + [] == data;
  }

  // ---------------------------------------------------------- decodeBinaryArray

  lemma ReadElementStep(layout: Layout, t: LogicalType, encoded: ByteString, count: nat, i: nat, values: seq<Value>)
    requires i < count && FixedBytes(t.root, count) <= |encoded|
    ensures 4 + i / 8 < |encoded|
    ensures Onto(values, DecodeElements(layout, t, encoded, count, i)) ==
      if BitAt(encoded, 4, i) then
        if !t.nullable then Err else Onto(values + [Null], DecodeElements(layout, t, encoded, count, i + 1))
      else
        match ReadElement(layout, encoded, SlotAt(t.root, count, i), t.root)
        case Err => Err
        case Ok(v) => Onto(values + [v], DecodeElements(layout, t, encoded, count, i + 1))
  {
    hide ReadElement, Bit, Slots, Onto, FixedBytes;
    BitmapInside(t.root, count, i);
    var rest := DecodeElements(layout, t, encoded, count, i + 1);
    OntoTwice(values, Null, rest);
    OntoErr(values);
    if BitAt(encoded, 4, i) {
      OntoOne(Null, rest);
    } else {
      var read := ReadElement(layout, encoded, SlotAt(t.root, count, i), t.root);
      if read.Ok? {
        OntoTwice(values, read.value, rest);
        OntoOne(read.value, rest);
      }
    }
  }

  lemma OntoErr(values: seq<Value>)
    ensures Onto(values, Err) == Err
  {
  }

  lemma OntoOne(v: Value, rest: Result<seq<Value>>)
    ensures Onto([v], rest) == if rest.Err? then Err else Ok([v] + rest.value)
  {
  }

  method DecodeArrayLoop(layout: Layout, t: LogicalType, encoded: ByteString) returns (r: Result<seq<Value>>)
    ensures r == DecodeArray(layout, t, encoded)
  {
    hide ReadElement, Bit, Slots, Onto, FixedBytes, DecodeElements, FromLittle;
    if |encoded| < 4 || |encoded| > MAX_ROW_BYTES {
      return Err;
    }
    var count := FromLittle(encoded[..4]);
    if count > MAX_ROW_BYTES / 8 || FixedBytes(t.root, count) > |encoded| {
      return Err;
    }
    ghost var all := DecodeElements(layout, t, encoded, count, 0);
    assert DecodeArray(layout, t, encoded) == all;
    hide DecodeArray;
    var values: seq<Value> := [];
    OntoNothing(all);
    var i := 0;
    while i < count
      invariant 0 <= i <= count
      invariant all == Onto(values, DecodeElements(layout, t, encoded, count, i))
    {
      ReadElementStep(layout, t, encoded, count, i, values);
      if BitAt(encoded, 4, i) {
        if !t.nullable {
          return Err;
        }
        values := values + [Null];
      } else {
        var read := ReadElement(layout, encoded, SlotAt(t.root, count, i), t.root);
        if read.Err? {
          return Err;
        }
        values := values + [read.value];
      }
      i := i + 1;
    }
    OntoNothing(Ok(values));
    NoElement(layout, t, encoded, count);
    r := Ok(values);
  }

  lemma NoElement(layout: Layout, t: LogicalType, encoded: ByteString, count: nat)
    requires FixedBytes(t.root, count) <= |encoded|
    ensures DecodeElements(layout, t, encoded, count, count) == Ok([])
  {
  }
}
