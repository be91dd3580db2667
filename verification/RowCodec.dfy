/**
 The compacted and indexed row layouts, the binary array and the binary map. The encoders
 are written as layouts, a concatenation of regions; the decoders read by position, as the
 decoding loops do. The loops themselves are in module RowLoops.
 */
module RowCodec {
  import opened Bytes
  import opened Schema
  import SignedBytes

  const NANOS_PER_MILLI := 1_000_000
  const MILLIS_PER_DAY := 86_400_000

  // ---------------------------------------------------------------- timestamps

  function Millis(nanos: int): int
  {
    nanos / NANOS_PER_MILLI
  }

  function SubMillis(nanos: int): (r: nat)
    ensures r < NANOS_PER_MILLI
  {
    nanos % NANOS_PER_MILLI
  }

  /** Division and remainder that truncate toward zero, as Go's do. */
  function TruncatedDiv(a: int, b: int): int
    requires b > 0
  {
    if a >= 0 then a / b else -(-a / b)
  }

  function TruncatedMod(a: int, b: int): int
    requires b > 0
  {
    a - b * TruncatedDiv(a, b)
  }

  /** A wall-clock timestamp is rebuilt from days and a non-negative time within the day. */
  function WallClock(millis: int, nanos: int): (r: int)
  {
    var days := TruncatedDiv(millis, MILLIS_PER_DAY);
    var within := TruncatedMod(millis, MILLIS_PER_DAY);
    if within < 0 then
      (days - 1) * MILLIS_PER_DAY * NANOS_PER_MILLI + (within + MILLIS_PER_DAY) * NANOS_PER_MILLI + nanos
    else
      days * MILLIS_PER_DAY * NANOS_PER_MILLI + within * NANOS_PER_MILLI + nanos
  }

  /** An instant with a local time zone is milliseconds plus nanoseconds. */
  function StampOf(local: bool, millis: int, nanos: int): int
  {
    if local then millis * NANOS_PER_MILLI + nanos else WallClock(millis, nanos)
  }

  // ------------------------------------------------------------------ decimals

  /** The exact integer amount * 10^scale, when it is an integer of at most `precision` digits. */
  function Unscaled(amount: real, precision: nat, scale: nat): (r: Result<int>)
    ensures r.Ok? ==> precision >= 1 && SignedBytes.Abs(r.value) < SignedBytes.Pow10(precision)
  {
    if precision < 1 then Err
    else
      var scaled := amount * SignedBytes.Pow10(scale) as real;
      var n := scaled.Floor;
      if n as real != scaled then Err
      else if SignedBytes.Abs(n) >= SignedBytes.Pow10(precision) then Err
      else Ok(n)
  }

  function Scaled(unscaled: int, scale: nat): real
  {
    unscaled as real / SignedBytes.Pow10(scale) as real
  }

  // --------------------------------------------------------- fixed-width strings

  function AppendFixed(bytes: ByteString, length: nat): (r: Result<ByteString>)
    ensures r.Ok? <==> 1 <= length && |bytes| <= length
    ensures r.Ok? ==> |r.value| == length
  {
    if length < 1 || |bytes| > length then Err else Ok(bytes + Zeros(length - |bytes|))
  }

  function TrimZero(bytes: ByteString): (r: ByteString)
    ensures r <= bytes
  {
    if |bytes| > 0 && bytes[|bytes| - 1] == 0 then TrimZero(bytes[..|bytes| - 1]) else bytes
  }

  /** The width a declared CHAR or BINARY length fixes in an indexed row, or zero. */
  function FixedText(text: Text): nat
  {
    if text.Char? || text.Binary? then text.length else 0
  }

  // --------------------------------------------------------------------- words

  function CompactedWord(word: Word, v: Value): (r: ByteString)
    requires WordFits(word, v)
  {
    match word
    case Bool => [if v.flag then 1 else 0]
    case TinyInt => [Unsigned(v.number, TWO_8)]
    case SmallInt => Little(Unsigned(v.number, TWO_16), 2)
    case Int => Var(Unsigned(v.number, TWO_32))
    case BigInt => Var(Unsigned(v.number, TWO_64))
    case Float => Little(v.bits, 4)
    case Double => Little(v.bits, 8)
    case Date => Var(Unsigned(v.number, TWO_32))
    case Time => Var(Unsigned(v.number, TWO_32))
  }

  function WordWidth(word: Word): (n: nat)
    ensures 1 <= n <= 8
  {
    match word
    case Bool => 1
    case TinyInt => 1
    case SmallInt => 2
    case Int => 4
    case Float => 4
    case Date => 4
    case Time => 4
    case BigInt => 8
    case Double => 8
  }

  /** The fixed-width image of a word, in indexed rows and array slots. */
  function FixedWord(word: Word, v: Value): (r: ByteString)
    requires WordFits(word, v)
    ensures |r| == WordWidth(word)
  {
    match word
    case Bool => [if v.flag then 1 else 0]
    case TinyInt => [Unsigned(v.number, TWO_8)]
    case SmallInt => Little(Unsigned(v.number, TWO_16), 2)
    case Int => Little(Unsigned(v.number, TWO_32), 4)
    case BigInt => Little(Unsigned(v.number, TWO_64), 8)
    case Float => Little(v.bits, 4)
    case Double => Little(v.bits, 8)
    case Date => Little(Unsigned(v.number, TWO_32), 4)
    case Time => Little(Unsigned(v.number, TWO_32), 4)
  }

  function WordOf(word: Word, image: ByteString): (r: Result<Value>)
    requires |image| == WordWidth(word)
  {
    match word
    case Bool => if image[0] > 1 then Err else Ok(BoolV(image[0] == 1))
    case TinyInt => Ok(IntV(Signed(image[0], TWO_8)))
    case SmallInt => Ok(IntV(Signed(FromLittle(image), TWO_16)))
    case Int => Ok(IntV(Signed(FromLittle(image), TWO_32)))
    case BigInt => Ok(IntV(Signed(FromLittle(image), TWO_64)))
    case Float => Ok(BitsV(FromLittle(image)))
    case Double => Ok(BitsV(FromLittle(image)))
    case Date => Ok(IntV(Signed(FromLittle(image), TWO_32)))
    case Time => Ok(IntV(Signed(FromLittle(image), TWO_32)))
  }

  function ReadFixedWord(encoded: ByteString, position: nat, word: Word): (r: Result<(Value, nat)>)
    ensures r.Ok? ==> position <= r.value.1 <= |encoded|
  {
    var (image, next) :- ReadFixed(encoded, position, WordWidth(word));
    var v :- WordOf(word, image);
    Ok((v, next))
  }

  function ReadCompactedWord(encoded: ByteString, position: nat, word: Word): (r: Result<(Value, nat)>)
    ensures r.Ok? ==> position <= r.value.1 <= |encoded|
  {
    match word
    case Int =>
      var (n, next) :- ReadVar(encoded, position, 5);
      Ok((IntV(Signed(n, TWO_32)), next))
    case Date =>
      var (n, next) :- ReadVar(encoded, position, 5);
      Ok((IntV(Signed(n, TWO_32)), next))
    case Time =>
      var (n, next) :- ReadVar(encoded, position, 5);
      Ok((IntV(Signed(n, TWO_32)), next))
    case BigInt =>
      var (n, next) :- ReadVar(encoded, position, 10);
      Ok((IntV(Signed(n, TWO_64)), next))
    case _ => ReadFixedWord(encoded, position, word)
  }

  // ---------------------------------------------------------------- row values

  function CompactedStamp(nanos: int, digits: nat): ByteString
  {
    Var(Unsigned(Millis(nanos), TWO_64)) + if digits > 3 then Var(SubMillis(nanos)) else []
  }

  function IndexedStamp(nanos: int, digits: nat): ByteString
  {
    Little(Unsigned(Millis(nanos), TWO_64), 8) + if digits > 3 then Little(SubMillis(nanos), 4) else []
  }

  function CompactedDecimal(amount: real, precision: nat, scale: nat): (r: Result<ByteString>)
  {
    var n :- Unscaled(amount, precision, scale);
    if precision <= 18 then Ok(Var(Unsigned(n, TWO_64))) else LengthBytes(SignedBytes.Encode(n))
  }

  function IndexedDecimal(amount: real, precision: nat, scale: nat): (r: Result<ByteString>)
  {
    var n :- Unscaled(amount, precision, scale);
    if precision <= 18 then Ok(Little(Unsigned(n, TWO_64), 8)) else Ok(SignedBytes.Encode(n))
  }

  function IndexedText(text: Text, content: ByteString): (r: Result<ByteString>)
  {
    if FixedText(text) == 0 then Ok(content) else AppendFixed(content, FixedText(text))
  }

  predicate Nested(root: Root)
  {
    root.Array? || root.Map? || root.Row?
  }

  /** The encoding of an array, map or row value, before its container frames it. */
  function NestedBytes(layout: Layout, root: Root, v: Value): (r: Result<ByteString>)
    requires Nested(root) && Fits(root, v)
    decreases root, 3
  {
    match root
    case Array(e) => EncodeArray(layout, e, v.elements)
    case Map(k, e) =>
      var keys :- EncodeArray(layout, k, Keys(v.entries));
      var values :- EncodeArray(layout, e, Values(v.entries));
      Ok(MapBytes(keys, values))
    case Row(fields) => EncodeRow(layout, fields, v.cells)
  }

  /** Byte length of the key array, the key array, the value array. */
  function MapBytes(keys: ByteString, values: ByteString): ByteString
  {
    Little(|keys|, 4) + keys + values
  }

  function CompactedValue(root: Root, v: Value): (r: Result<ByteString>)
    requires Fits(root, v)
    decreases root, 4
  {
    match root
    case WordRoot(word) => Ok(CompactedWord(word, v))
    case TextRoot(text) => LengthBytes(TextContent(text, v))
    case Timestamp(_, p) => Ok(CompactedStamp(v.nanos, p))
    case Decimal(p, s) => CompactedDecimal(v.amount, p, s)
    case _ =>
      var bytes :- NestedBytes(Compacted, root, v);
      LengthBytes(bytes)
  }

  function IndexedValue(root: Root, v: Value): (r: Result<ByteString>)
    requires Fits(root, v)
    decreases root, 4
  {
    match root
    case WordRoot(word) => Ok(FixedWord(word, v))
    case TextRoot(text) => IndexedText(text, TextContent(text, v))
    case Timestamp(_, p) => Ok(IndexedStamp(v.nanos, p))
    case Decimal(p, s) => IndexedDecimal(v.amount, p, s)
    case _ => NestedBytes(Indexed, root, v)
  }

  function CellValue(layout: Layout, t: LogicalType, v: Value): (r: Result<ByteString>)
    requires Fits(t.root, v)
    decreases t
  {
    if layout.Compacted? then CompactedValue(t.root, v) else IndexedValue(t.root, v)
  }

  // -------------------------------------------------------------------- rows

  function NullFlags(values: seq<Value>): (flags: seq<bool>)
    ensures |flags| == |values|
    ensures forall i :: 0 <= i < |values| ==> flags[i] == values[i].Null?
  {
    seq(|values|, i requires 0 <= i < |values| => values[i].Null?)
  }

  function NullBytes(columns: nat): nat
  {
    (columns + 7) / 8
  }

  /** Column values whose indexed width the type alone determines. */
  predicate IndexedFixed(root: Root)
  {
    match root
    case WordRoot(_) => true
    case TextRoot(text) => FixedText(text) > 0
    case Timestamp(_, _) => true
    case Decimal(p, _) => 0 < p <= 18
    case _ => false
  }

  predicate OwnsLength(layout: Layout, root: Root)
  {
    layout.Indexed? && !IndexedFixed(root)
  }

  /** Length slots of the columns from `i` on, four bytes each. */
  function LengthSlots(layout: Layout, fields: seq<LogicalType>, i: nat): nat
    requires i <= |fields|
    decreases |fields| - i
  {
    if i == |fields| then 0
    else (if OwnsLength(layout, fields[i].root) then 4 else 0) + LengthSlots(layout, fields, i + 1)
  }

  function HeaderBytes(layout: Layout, fields: seq<LogicalType>): nat
  {
    NullBytes(|fields|) + LengthSlots(layout, fields, 0)
  }

  /** The packed lengths and the value bytes of the columns from `i` on. */
  datatype RowParts = RowParts(lengths: ByteString, data: ByteString)

  function LengthOf(layout: Layout, root: Root, value: ByteString): ByteString
  {
    if OwnsLength(layout, root) then Little(|value|, 4) else []
  }

  /** `size` is the length of the row encoded so far; no value may take it past the limit. */
  function EncodeCells(layout: Layout, fields: seq<LogicalType>, row: seq<Value>, i: nat, size: nat)
    : (r: Result<RowParts>)
    requires ValidRow(fields, row) && i <= |fields|
    ensures r.Ok? ==> |r.value.lengths| <= LengthSlots(layout, fields, i)
    ensures r.Ok? ==> r.value.data == [] || size + |r.value.data| <= MAX_ROW_BYTES
    decreases fields, |fields| - i
  {
    if i == |fields| then Ok(RowParts([], []))
    else if row[i].Null? then EncodeCells(layout, fields, row, i + 1, size)
    else
      CellFits(fields, row, i);
      var value :- CellValue(layout, fields[i], row[i]);
      if |value| > MAX_ROW_BYTES - size then Err
      else
        var rest :- EncodeCells(layout, fields, row, i + 1, size + |value|);
        Ok(RowParts(LengthOf(layout, fields[i].root, value) + rest.lengths, value + rest.data))
  }

  function AssembleRow(layout: Layout, fields: seq<LogicalType>, row: seq<Value>, parts: RowParts): (r: ByteString)
    requires |parts.lengths| <= LengthSlots(layout, fields, 0)
    ensures |r| == HeaderBytes(layout, fields) + |parts.data|
  {
    Bitmap(NullFlags(row), NullBytes(|fields|)) + parts.lengths
      + Zeros(LengthSlots(layout, fields, 0) - |parts.lengths|) + parts.data
  }

  /** Null bitmap, packed lengths with their unused reserve zeroed, then the values. */
  function EncodeRow(layout: Layout, fields: seq<LogicalType>, row: seq<Value>): (r: Result<ByteString>)
    decreases fields, |fields| + 1
  {
    if !ValidSchema(fields) || !ValidRow(fields, row) then Err
    else
      var parts :- EncodeCells(layout, fields, row, 0, HeaderBytes(layout, fields));
      Ok(AssembleRow(layout, fields, row, parts))
  }

  // ------------------------------------------------------------ binary arrays

  /** What one element contributes: its fixed slot, and the bytes it appends. */
  datatype Element = Element(slot: ByteString, tail: ByteString)

  function SlotSize(root: Root): (n: nat)
    ensures 1 <= n <= 8
  {
    if root.WordRoot? then WordWidth(root.word) else 8
  }

  /** The bytes of `count` slots, `SlotSize(root) * count`. */
  function Slots(root: Root, count: nat): (n: nat)
  {
    if count == 0 then 0 else SlotSize(root) + Slots(root, count - 1)
  }

  lemma {:induction false} SlotsIsProduct(root: Root, count: nat)
    ensures Slots(root, count) == SlotSize(root) * count
  {
    if count > 0 {
      SlotsIsProduct(root, count - 1);
    }
  }

  function Align8(n: nat): (r: nat)
    ensures n <= r < n + 8
  {
    (n + 7) / 8 * 8
  }

  /** The little-endian image of offset << 32 | size. */
  function OffsetSize(offset: nat, size: nat): (slot: ByteString)
    ensures |slot| == 8
  {
    Little(size, 4) + Little(offset, 4)
  }

  function Variable(bytes: ByteString, reserved: nat, offset: nat): (r: Result<Element>)
    ensures r.Ok? ==> |r.value.slot| == 8
  {
    if reserved < |bytes| || reserved > MAX_ROW_BYTES - offset then Err
    else Ok(Element(OffsetSize(offset, |bytes|), bytes + Zeros(reserved - |bytes|)))
  }

  /** At most seven bytes live in the slot itself, whose last byte is the length with its top bit set. */
  function Packed(bytes: ByteString, offset: nat): (r: Result<Element>)
    ensures r.Ok? ==> |r.value.slot| == 8
  {
    if |bytes| <= 7 then Ok(Element(bytes + Zeros(7 - |bytes|) + [128 + |bytes|], []))
    else Variable(bytes, Align8(|bytes|), offset)
  }

  /** A high-precision timestamp's slot holds its sub-millisecond part where a size would be. */
  function ElementStamp(nanos: int, digits: nat, offset: nat): (e: Element)
    ensures |e.slot| == 8
  {
    var millis := Little(Unsigned(Millis(nanos), TWO_64), 8);
    if digits <= 3 then Element(millis, []) else Element(OffsetSize(offset, SubMillis(nanos)), millis)
  }

  function ElementDecimal(amount: real, precision: nat, scale: nat, offset: nat): (r: Result<Element>)
    ensures r.Ok? ==> |r.value.slot| == 8
  {
    var n :- Unscaled(amount, precision, scale);
    if precision <= 18 then Ok(Element(Little(Unsigned(n, TWO_64), 8), []))
    else Variable(SignedBytes.Encode(n), 16, offset)
  }

  function EncodeElement(layout: Layout, root: Root, v: Value, offset: nat): (r: Result<Element>)
    requires Fits(root, v)
    ensures r.Ok? ==> |r.value.slot| == SlotSize(root)
    decreases root, 4
  {
    match root
    case WordRoot(word) => Ok(Element(FixedWord(word, v), []))
    case TextRoot(text) => Packed(TextContent(text, v), offset)
    case Timestamp(_, p) => Ok(ElementStamp(v.nanos, p, offset))
    case Decimal(p, s) => ElementDecimal(v.amount, p, s, offset)
    case _ =>
      var bytes :- NestedBytes(layout, root, v);
      Variable(bytes, Align8(|bytes|), offset)
  }

  /** The slots and appended bytes of the elements from `i` on; `offset` is the length so far. */
  function EncodeElements(layout: Layout, t: LogicalType, vs: seq<Value>, i: nat, offset: nat): (r: Result<Element>)
    requires i <= |vs|
    ensures r.Ok? ==> |r.value.slot| == Slots(t.root, |vs| - i)
    ensures r.Ok? && offset <= MAX_ROW_BYTES ==> offset + |r.value.tail| <= MAX_ROW_BYTES
    decreases t, 2, |vs| - i
  {
    if i == |vs| then Ok(Element([], []))
    else if vs[i].Null? then
      if !t.nullable then Err
      else
        var rest :- EncodeElements(layout, t, vs, i + 1, offset);
        Ok(Element(Zeros(SlotSize(t.root)) + rest.slot, rest.tail))
    else if !Fits(t.root, vs[i]) then Err
    else
      var e :- EncodeElement(layout, t.root, vs[i], offset);
      if offset + |e.tail| > MAX_ROW_BYTES then Err
      else
        var rest :- EncodeElements(layout, t, vs, i + 1, offset + |e.tail|);
        Ok(Element(e.slot + rest.slot, e.tail + rest.tail))
  }

  /** The array bitmap is rounded to 32-bit words. */
  function WordBytes(count: nat): nat
  {
    (count + 31) / 32 * 4
  }

  /** Where slot `i` of an array of `count` elements begins. */
  function SlotAt(root: Root, count: nat, i: nat): nat
  {
    4 + WordBytes(count) + Slots(root, i)
  }

  function FixedBytes(root: Root, count: nat): nat
  {
    Align8(SlotAt(root, count, count))
  }

  function AssembleArray(root: Root, vs: seq<Value>, parts: Element): (r: ByteString)
    requires |parts.slot| == Slots(root, |vs|)
    ensures |r| == FixedBytes(root, |vs|) + |parts.tail|
  {
    var n := |vs|;
    Little(n, 4) + Bitmap(NullFlags(vs), WordBytes(n)) + parts.slot
      + Zeros(FixedBytes(root, n) - SlotAt(root, n, n)) + parts.tail
  }

  /** Count, null bitmap, slots, padding to eight bytes, then the variable-width bytes. */
  function EncodeArray(layout: Layout, t: LogicalType, vs: seq<Value>): (r: Result<ByteString>)
    ensures r.Ok? ==> 4 <= |r.value| <= MAX_ROW_BYTES
    decreases t, 3
  {
    if |vs| > MAX_ROW_BYTES / 8 then Err
    else if FixedBytes(t.root, |vs|) > MAX_ROW_BYTES then Err
    else
      var parts :- EncodeElements(layout, t, vs, 0, FixedBytes(t.root, |vs|));
      Ok(AssembleArray(t.root, vs, parts))
  }

  // ---------------------------------------------------------------- decoding

  function NestedValue(layout: Layout, root: Root, bytes: ByteString): (r: Result<Value>)
    requires Nested(root)
    decreases root, 3
  {
    match root
    case Array(e) =>
      var elements :- DecodeArray(layout, e, bytes);
      Ok(ArrayV(elements))
    case Map(k, e) =>
      if |bytes| < 4 then Err
      else
        var keyLength := FromLittle(bytes[..4]);
        if keyLength > |bytes| - 4 then Err
        else
          var keys :- DecodeArray(layout, k, bytes[4..4 + keyLength]);
          var values :- DecodeArray(layout, e, bytes[4 + keyLength..]);
          if |keys| != |values| then Err else Ok(MapV(Entries(keys, values)))
    case Row(fields) =>
      var cells :- DecodeRow(layout, fields, bytes);
      Ok(RowV(cells))
  }

  function ReadCompactedStamp(encoded: ByteString, position: nat, local: bool, digits: nat): (r: Result<(Value, nat)>)
    ensures r.Ok? ==> position <= r.value.1 <= |encoded|
  {
    var (millis, next) :- ReadVar(encoded, position, 10);
    if digits > 3 then
      var (nanos, after) :- ReadVar(encoded, next, 5);
      if nanos > 999_999 then Err else Ok((StampV(StampOf(local, Signed(millis, TWO_64), nanos)), after))
    else Ok((StampV(StampOf(local, Signed(millis, TWO_64), 0)), next))
  }

  function ReadCompactedDecimal(encoded: ByteString, position: nat, precision: nat, scale: nat): (r: Result<(Value, nat)>)
    ensures r.Ok? ==> position <= r.value.1 <= |encoded|
  {
    if precision <= 18 then
      var (n, next) :- ReadVar(encoded, position, 10);
      Ok((DecimalV(Scaled(Signed(n, TWO_64), scale)), next))
    else
      var (b, next) :- ReadLengthBytes(encoded, position);
      Ok((DecimalV(Scaled(SignedBytes.Decode(b), scale)), next))
  }

  function ReadCompacted(encoded: ByteString, position: nat, root: Root): (r: Result<(Value, nat)>)
    requires position <= |encoded|
    ensures r.Ok? ==> position <= r.value.1 <= |encoded|
    decreases root, 4
  {
    match root
    case WordRoot(word) => ReadCompactedWord(encoded, position, word)
    case TextRoot(text) =>
      var (b, next) :- ReadLengthBytes(encoded, position);
      Ok((TextValue(text, b), next))
    case Timestamp(local, p) => ReadCompactedStamp(encoded, position, local, p)
    case Decimal(p, s) => ReadCompactedDecimal(encoded, position, p, s)
    case _ =>
      var (b, next) :- ReadLengthBytes(encoded, position);
      var v :- NestedValue(Compacted, root, b);
      Ok((v, next))
  }

  function ReadIndexedStamp(encoded: ByteString, position: nat, local: bool, digits: nat): (r: Result<(Value, nat)>)
    ensures r.Ok? ==> position <= r.value.1 <= |encoded|
  {
    var (b, next) :- ReadFixed(encoded, position, if digits > 3 then 12 else 8);
    var nanos := if digits > 3 then Signed(FromLittle(b[8..]), TWO_32) else 0;
    if nanos > 999_999 then Err
    else Ok((StampV(StampOf(local, Signed(FromLittle(b[..8]), TWO_64), nanos)), next))
  }

  function ReadIndexedDecimal(encoded: ByteString, position: nat, precision: nat, scale: nat, length: int)
    : (r: Result<(Value, nat)>)
    ensures r.Ok? ==> position <= r.value.1 <= |encoded|
  {
    if 0 < precision <= 18 then
      var (b, next) :- ReadFixed(encoded, position, 8);
      Ok((DecimalV(Scaled(Signed(FromLittle(b), TWO_64), scale)), next))
    else
      var (b, next) :- ReadFixed(encoded, position, length);
      Ok((DecimalV(Scaled(SignedBytes.Decode(b), scale)), next))
  }

  function ReadIndexedText(encoded: ByteString, position: nat, text: Text, length: int): (r: Result<(Value, nat)>)
    ensures r.Ok? ==> position <= r.value.1 <= |encoded|
  {
    if FixedText(text) > 0 then
      var (b, next) :- ReadFixed(encoded, position, FixedText(text));
      Ok((TextValue(text, TrimZero(b)), next))
    else
      var (b, next) :- ReadFixed(encoded, position, length);
      Ok((TextValue(text, b), next))
  }

  function ReadIndexed(encoded: ByteString, position: nat, root: Root, length: int): (r: Result<(Value, nat)>)
    requires position <= |encoded|
    ensures r.Ok? ==> position <= r.value.1 <= |encoded|
    decreases root, 4
  {
    match root
    case WordRoot(word) => ReadFixedWord(encoded, position, word)
    case TextRoot(text) => ReadIndexedText(encoded, position, text, length)
    case Timestamp(local, p) => ReadIndexedStamp(encoded, position, local, p)
    case Decimal(p, s) => ReadIndexedDecimal(encoded, position, p, s, length)
    case _ =>
      var (b, next) :- ReadFixed(encoded, position, length);
      var v :- NestedValue(Indexed, root, b);
      Ok((v, next))
  }

  function ReadCell(layout: Layout, encoded: ByteString, position: nat, t: LogicalType, length: int)
    : (r: Result<(Value, nat)>)
    requires position <= |encoded|
    ensures r.Ok? ==> position <= r.value.1 <= |encoded|
    decreases t
  {
    if layout.Compacted? then ReadCompacted(encoded, position, t.root)
    else ReadIndexed(encoded, position, t.root, length)
  }

  /** Reads the columns from `i` on; the last one must end where the buffer does. */
  function DecodeCells(layout: Layout, fields: seq<LogicalType>, encoded: ByteString,
                       i: nat, position: nat, lengthPosition: nat): (r: Result<seq<Value>>)
    requires i <= |fields| && position <= |encoded| && NullBytes(|fields|) <= |encoded|
    requires lengthPosition + LengthSlots(layout, fields, i) <= |encoded|
    ensures r.Ok? ==> |r.value| == |fields| - i
    decreases fields, |fields| - i
  {
    if i == |fields| then
      if position != |encoded| then Err else Ok([])
    else if BitAt(encoded, 0, i) then
      if !fields[i].nullable then Err
      else
        var rest :- DecodeCells(layout, fields, encoded, i + 1, position, lengthPosition);
        Ok([Null] + rest)
    else
      var owns := OwnsLength(layout, fields[i].root);
      var length := if owns then FromLittle(encoded[lengthPosition..lengthPosition + 4]) else -1;
      var (v, next) :- ReadCell(layout, encoded, position, fields[i], length);
      var rest :- DecodeCells(layout, fields, encoded, i + 1, next, if owns then lengthPosition + 4 else lengthPosition);
      Ok([v] + rest)
  }

  function DecodeRow(layout: Layout, fields: seq<LogicalType>, encoded: ByteString): (r: Result<seq<Value>>)
    decreases fields, |fields| + 1
  {
    if !ValidSchema(fields) then Err
    else if |encoded| > MAX_ROW_BYTES || |encoded| < HeaderBytes(layout, fields) then Err
    else DecodeCells(layout, fields, encoded, 0, HeaderBytes(layout, fields), NullBytes(|fields|))
  }

  function ReadVariable(encoded: ByteString, slot: nat): (r: Result<ByteString>)
    requires slot + 8 <= |encoded|
  {
    var (b, _) :- ReadFixed(encoded, FromLittle(encoded[slot + 4..slot + 8]), FromLittle(encoded[slot..slot + 4]));
    Ok(b)
  }

  function ReadPacked(encoded: ByteString, slot: nat): (r: Result<ByteString>)
    requires slot + 8 <= |encoded|
  {
    var top := encoded[slot + 7];
    if top >= 128 then
      if top - 128 > 7 then Err else Ok(encoded[slot..slot + top - 128])
    else ReadVariable(encoded, slot)
  }

  function ReadElementStamp(encoded: ByteString, slot: nat, local: bool, digits: nat): (r: Result<Value>)
    requires slot + 8 <= |encoded|
  {
    if digits <= 3 then Ok(StampV(StampOf(local, Signed(FromLittle(encoded[slot..slot + 8]), TWO_64), 0)))
    else
      var nanos := FromLittle(encoded[slot..slot + 4]);
      var (b, _) :- ReadFixed(encoded, FromLittle(encoded[slot + 4..slot + 8]), 8);
      if nanos > 999_999 then Err else Ok(StampV(StampOf(local, Signed(FromLittle(b), TWO_64), nanos)))
  }

  function ReadElementDecimal(encoded: ByteString, slot: nat, precision: nat, scale: nat): (r: Result<Value>)
    requires slot + 8 <= |encoded|
  {
    if precision <= 18 then Ok(DecimalV(Scaled(Signed(FromLittle(encoded[slot..slot + 8]), TWO_64), scale)))
    else
      var b :- ReadVariable(encoded, slot);
      Ok(DecimalV(Scaled(SignedBytes.Decode(b), scale)))
  }

  function ReadElement(layout: Layout, encoded: ByteString, slot: nat, root: Root): (r: Result<Value>)
    decreases root, 4
  {
    if SlotSize(root) > |encoded| - slot then Err
    else
      match root
      case WordRoot(word) => WordOf(word, encoded[slot..slot + WordWidth(word)])
      case TextRoot(text) =>
        var b :- ReadPacked(encoded, slot);
        Ok(TextValue(text, b))
      case Timestamp(local, p) => ReadElementStamp(encoded, slot, local, p)
      case Decimal(p, s) => ReadElementDecimal(encoded, slot, p, s)
      case _ =>
        var b :- ReadVariable(encoded, slot);
        NestedValue(layout, root, b)
  }

  function DecodeElements(layout: Layout, t: LogicalType, encoded: ByteString, count: nat, i: nat)
    : (r: Result<seq<Value>>)
    requires i <= count && FixedBytes(t.root, count) <= |encoded|
    ensures r.Ok? ==> |r.value| == count - i
    decreases t, 2, count - i
  {
    if i == count then Ok([])
    else
      BitmapInside(t.root, count, i);
      if BitAt(encoded, 4, i) then
        if !t.nullable then Err
        else
          var rest :- DecodeElements(layout, t, encoded, count, i + 1);
          Ok([Null] + rest)
      else
        var v :- ReadElement(layout, encoded, SlotAt(t.root, count, i), t.root);
        var rest :- DecodeElements(layout, t, encoded, count, i + 1);
        Ok([v] + rest)
  }

  lemma BitmapInside(root: Root, count: nat, i: nat)
    requires i < count
    ensures i / 8 < WordBytes(count)
    ensures 4 + i / 8 < FixedBytes(root, count)
  {
  }

  function DecodeArray(layout: Layout, t: LogicalType, encoded: ByteString): (r: Result<seq<Value>>)
    decreases t, 3
  {
    if |encoded| < 4 || |encoded| > MAX_ROW_BYTES then Err
    else
      var count := FromLittle(encoded[..4]);
      if count > MAX_ROW_BYTES / 8 || FixedBytes(t.root, count) > |encoded| then Err
      else DecodeElements(layout, t, encoded, count, 0)
  }
}
