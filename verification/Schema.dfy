/**
 Logical types, row values and the validation rules of a schema. Column and field names
 play no part in the encodings and are left out; a schema is its sequence of column types,
 whose `nullable` flag is the column's.
 */
module Schema {
  import opened Bytes

  /** Types stored as one machine word. */
  datatype Word = Bool | TinyInt | SmallInt | Int | BigInt | Float | Double | Date | Time

  /** Character and byte strings; a zero length is a bare CHAR or BINARY column. */
  datatype Text = Str | Char(length: nat) | ByteArray | Binary(length: nat)

  datatype Root =
    | WordRoot(word: Word)
    | TextRoot(text: Text)
    | Decimal(precision: nat, scale: nat)
    | Timestamp(local: bool, digits: nat)
    | Array(element: LogicalType)
    | Map(key: LogicalType, value: LogicalType)
    | Row(fields: seq<LogicalType>)

  datatype LogicalType = LogicalType(root: Root, nullable: bool)

  datatype Entry = Entry(key: Value, value: Value)

  /**
   Floats are bit patterns, dates are epoch days, times of day are milliseconds and
   timestamps are nanoseconds since the epoch.
   */
  datatype Value =
    | Null
    | BoolV(flag: bool)
    | IntV(number: int)
    | BitsV(bits: nat)
    | TextV(text: ByteString)
    | BytesV(bytes: ByteString)
    | StampV(nanos: int)
    | DecimalV(amount: real)
    | ArrayV(elements: seq<Value>)
    | MapV(entries: seq<Entry>)
    | RowV(cells: seq<Value>)

  datatype Layout = Compacted | Indexed

  /** Root-specific parameters and nested types. */
  predicate ValidType(t: LogicalType)
  {
    match t.root
    case WordRoot(_) => true
    case TextRoot(x) => (x.Char? || x.Binary?) ==> x.length >= 1
    case Decimal(p, s) => 1 <= p <= 38 && s <= p
    case Timestamp(_, p) => p <= 9
    case Array(e) => ValidType(e)
    case Map(k, v) => ValidType(k) && ValidType(v)
    case Row(fields) => |fields| >= 1 && forall i :: 0 <= i < |fields| ==> ValidType(fields[i])
  }

  /** A column may also name a bare CHAR, BINARY or DECIMAL, which then has no parameters. */
  predicate ValidColumn(t: LogicalType)
  {
    ValidType(t) || t.root == TextRoot(Char(0)) || t.root == TextRoot(Binary(0)) || t.root == Decimal(0, 0)
  }

  predicate ValidSchema(fields: seq<LogicalType>)
  {
    |fields| >= 1 && forall i :: 0 <= i < |fields| ==> ValidColumn(fields[i])
  }

  predicate WordFits(word: Word, v: Value)
  {
    match word
    case Bool => v.BoolV?
    case TinyInt => v.IntV? && FitsSigned(v.number, TWO_8)
    case SmallInt => v.IntV? && FitsSigned(v.number, TWO_16)
    case Int => v.IntV? && FitsSigned(v.number, TWO_32)
    case BigInt => v.IntV? && FitsSigned(v.number, TWO_64)
    case Float => v.BitsV? && v.bits < TWO_32
    case Double => v.BitsV? && v.bits < TWO_64
    case Date => v.IntV? && FitsSigned(v.number, TWO_32)
    case Time => v.IntV? && FitsSigned(v.number, TWO_32)
  }

  predicate TextFits(text: Text, v: Value)
  {
    if text.Str? || text.Char? then v.TextV? else v.BytesV?
  }

  function TextContent(text: Text, v: Value): ByteString
    requires TextFits(text, v)
  {
    if text.Str? || text.Char? then v.text else v.bytes
  }

  function TextValue(text: Text, content: ByteString): (v: Value)
    ensures TextFits(text, v) && TextContent(text, v) == content
  {
    if text.Str? || text.Char? then TextV(content) else BytesV(content)
  }

  /** The value has the Go type the root asks for, at every level. */
  predicate Fits(root: Root, v: Value)
    decreases root
  {
    match root
    case WordRoot(word) => WordFits(word, v)
    case TextRoot(text) => TextFits(text, v)
    case Decimal(_, _) => v.DecimalV?
    case Timestamp(_, _) => v.StampV?
    case Array(e) => v.ArrayV? && AllAccepted(e, v.elements)
    case Map(k, e) => v.MapV? && AllAccepted(k, Keys(v.entries)) && AllAccepted(e, Values(v.entries))
    case Row(fields) => v.RowV? && ValidRow(fields, v.cells)
  }

  predicate Accepts(t: LogicalType, v: Value)
    decreases t, 0
  {
    if v.Null? then t.nullable else Fits(t.root, v)
  }

  predicate AllAccepted(t: LogicalType, vs: seq<Value>)
    decreases t, 1
  {
    forall i :: 0 <= i < |vs| ==> Accepts(t, vs[i])
  }

  predicate ValidRow(fields: seq<LogicalType>, row: seq<Value>)
    decreases fields
  {
    |row| == |fields| && forall i :: 0 <= i < |fields| ==> Accepts(fields[i], row[i])
  }

  lemma CellFits(fields: seq<LogicalType>, row: seq<Value>, i: nat)
    requires ValidRow(fields, row) && i < |fields| && !row[i].Null?
    ensures Fits(fields[i].root, row[i])
  {
    assert Accepts(fields[i], row[i]);
  }

  function Keys(entries: seq<Entry>): (r: seq<Value>)
    ensures |r| == |entries|
  {
    seq(|entries|, i requires 0 <= i < |entries| => entries[i].key)
  }

  function Values(entries: seq<Entry>): (r: seq<Value>)
    ensures |r| == |entries|
  {
    seq(|entries|, i requires 0 <= i < |entries| => entries[i].value)
  }

  function Entries(keys: seq<Value>, values: seq<Value>): (r: seq<Entry>)
    requires |keys| == |values|
    ensures |r| == |keys|
  {
    seq(|keys|, i requires 0 <= i < |keys| => Entry(keys[i], values[i]))
  }
}
