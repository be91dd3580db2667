/** Row-oriented log batches with version 0 and version 1 headers. */
module LogBatch {
  import opened Bytes
  import opened Schema
  import opened RowCodec
  import opened RowRoundTrip
  import opened RecordBatch

  const CHANGES := 5

  /** `change` is append, insert, update-before, update-after or delete, as 0 to 4. */
  datatype LogRecord = LogRecord(change: int, row: seq<Value>)

  datatype Header = Header(
    magic: int,
    baseOffset: int,
    commitTime: int,
    leaderEpoch: int,
    schema: int,
    appendOnly: bool,
    writer: int,
    sequence: int)

  datatype LogBatch = LogBatch(header: Header, records: seq<LogRecord>)

  /** A decoded record carries the offset it has by its place, and the batch's commit time. */
  datatype FetchedRecord = FetchedRecord(change: int, row: seq<Value>, offset: int, timestamp: int)

  datatype FetchedBatch = FetchedBatch(header: Header, records: seq<FetchedRecord>)

  predicate ValidHeader(h: Header)
  {
    Fits64(h.baseOffset) && Fits64(h.commitTime) && Fits32(h.leaderEpoch) && Fits16(h.schema)
    && Fits64(h.writer) && Fits32(h.sequence)
  }

  function HeaderSize(magic: int): nat
  {
    if magic == 1 then 52 else 48
  }

  /** Where the checksummed part starts. */
  function SchemaOffset(magic: int): nat
  {
    if magic == 1 then 29 else 25
  }

  // ------------------------------------------------------------------------- encoding

  function LogRecordBytes(layout: Layout, fields: seq<LogicalType>, record: LogRecord): (r: Result<ByteString>)
    ensures r.Ok? ==> |r.value| >= 5
  {
    if record.change < 0 || record.change >= CHANGES then Err
    else
      var row :- EncodeRow(layout, fields, record.row);
      Ok(Little(1 + |row|, 4) + ([record.change] + row))
  }

  function LogRecords(layout: Layout, fields: seq<LogicalType>, records: seq<LogRecord>): (r: Result<ByteString>)
    ensures r.Ok? ==> |r.value| >= 5 * |records|
  {
    if records == [] then Ok([])
    else
      var first :- LogRecordBytes(layout, fields, records[0]);
      var rest :- LogRecords(layout, fields, records[1..]);
      Ok(first + rest)
  }

  /** Schema, attributes, last offset delta, writer, sequence, count and records. */
  function LogTail(h: Header, count: nat, records: ByteString): (r: ByteString)
    ensures |r| == 23 + |records|
  {
    SignedField(h.schema, 2) + ([if h.appendOnly then 1 else 0]
      + (Little(if count > 0 then count - 1 else 0, 4) + (SignedField(h.writer, 8)
      + (SignedField(h.sequence, 4) + (Little(count, 4) + records)))))
  }

  function Epoch(h: Header): (r: ByteString)
    ensures |r| == HeaderSize(h.magic) - 48
  {
    if h.magic == 1 then SignedField(h.leaderEpoch, 4) else []
  }

  function LogFrame(crc: Checksum, h: Header, tail: ByteString): (r: ByteString)
    ensures |r| == SchemaOffset(h.magic) + |tail|
  {
    SignedField(h.baseOffset, 8) + (Little(|tail| + SchemaOffset(h.magic) - 12, 4)
      + ([if h.magic == 1 then 1 else 0] + (SignedField(h.commitTime, 8)
      + (Epoch(h) + (Little(crc(tail) % TWO_32, 4) + tail)))))
  }

  function EncodeLog(crc: Checksum, layout: Layout, fields: seq<LogicalType>, b: LogBatch): (r: Result<ByteString>)
  {
    if b.header.magic != 0 && b.header.magic != 1 then Err
    else
      var records :- LogRecords(layout, fields, b.records);
      Ok(LogFrame(crc, b.header, LogTail(b.header, |b.records|, records)))
  }

  // ------------------------------------------------------------------------- decoding

  /** The checks of `logBatchHeader`; the result is the magic. */
  function CheckHeader(crc: Checksum, encoded: ByteString): (r: Result<int>)
    ensures r.Ok? ==> (r.value == 0 || r.value == 1) && HeaderSize(r.value) <= |encoded| <= MAX_ROW_BYTES
  {
    if |encoded| < 13 || |encoded| > MAX_ROW_BYTES then Err
    else
      var magic := encoded[12];
      if magic != 0 && magic != 1 then Err
      else if |encoded| < HeaderSize(magic) || Field(encoded, 8, 4) != |encoded| - 12 then Err
      else if Field(encoded, SchemaOffset(magic) - 4, 4) != crc(encoded[SchemaOffset(magic)..]) % TWO_32 then Err
      else Ok(magic)
  }

  function DecodeLogRecord(layout: Layout, fields: seq<LogicalType>, h: Header, encoded: ByteString,
                           position: nat, index: nat): (r: Result<(FetchedRecord, nat)>)
    requires position <= |encoded|
    ensures r.Ok? ==> position + 5 <= r.value.1 <= |encoded|
    ensures r.Ok? ==> r.value.0.offset == Signed(h.baseOffset + index, TWO_64)
  {
    if |encoded| - position < 5 then Err
    else
      var length := Field(encoded, position, 4);
      if length < 1 || length > |encoded| - position - 4 then Err
      else
        var change := encoded[position + 4];
        if change >= CHANGES then Err
        else
          var bodyEnd := position + 4 + length;
          var row :- DecodeRow(layout, fields, encoded[position + 5..bodyEnd]);
          Ok((FetchedRecord(change, row, Signed(h.baseOffset + index, TWO_64), h.commitTime), bodyEnd))
  }

  function DecodeLogRecords(layout: Layout, fields: seq<LogicalType>, h: Header, encoded: ByteString,
                            position: nat, index: nat, count: nat): (r: Result<(seq<FetchedRecord>, nat)>)
    requires position <= |encoded|
    ensures r.Ok? ==> position <= r.value.1 <= |encoded| && |r.value.0| == count
    ensures r.Ok? ==> forall k :: 0 <= k < count ==> r.value.0[k].offset == Signed(h.baseOffset + index + k, TWO_64)
    decreases count
  {
    if count == 0 then Ok(([], position))
    else
      var (record, next) :- DecodeLogRecord(layout, fields, h, encoded, position, index);
      var (rest, end) :- DecodeLogRecords(layout, fields, h, encoded, next, index + 1, count - 1);
      Ok(([record] + rest, end))
  }

  function ReadHeader(encoded: ByteString, magic: int): Header
    requires (magic == 0 || magic == 1) && HeaderSize(magic) <= |encoded|
  {
    var s := SchemaOffset(magic);
    Header(magic, Signed(Field(encoded, 0, 8), TWO_64), Signed(Field(encoded, 13, 8), TWO_64),
           if magic == 1 then Signed(Field(encoded, 21, 4), TWO_32) else 0,
           Signed(Field(encoded, s, 2), TWO_16), encoded[s + 2] % 2 == 1,
           Signed(Field(encoded, s + 7, 8), TWO_64), Signed(Field(encoded, s + 15, 4), TWO_32))
  }

  function DecodeLog(crc: Checksum, layout: Layout, fields: seq<LogicalType>, encoded: ByteString)
    : (r: Result<FetchedBatch>)
  {
    var magic :- CheckHeader(crc, encoded);
    var count := Field(encoded, SchemaOffset(magic) + 19, 4);
    if count > (|encoded| - HeaderSize(magic)) / 5 then Err
    else
      var h := ReadHeader(encoded, magic);
      var (records, end) :- DecodeLogRecords(layout, fields, h, encoded, HeaderSize(magic), 0, count);
      if end != |encoded| then Err else Ok(FetchedBatch(h, records))
  }

  // ---------------------------------------------------------------------- round trip

  /** A version 0 header has no leader epoch. */
  function StoredHeader(h: Header): Header
  {
    if h.magic == 1 then h else h.(leaderEpoch := 0)
  }

  function StoredLog(layout: Layout, fields: seq<LogicalType>, b: LogBatch): (r: FetchedBatch)
    requires forall k :: 0 <= k < |b.records| ==> ValidRow(fields, b.records[k].row)
  {
    FetchedBatch(StoredHeader(b.header), StoredLogRecords(layout, fields, b.header, b.records, 0))
  }

  function StoredLogRecords(layout: Layout, fields: seq<LogicalType>, h: Header, records: seq<LogRecord>, index: nat)
    : (r: seq<FetchedRecord>)
    requires forall k :: 0 <= k < |records| ==> ValidRow(fields, records[k].row)
    ensures |r| == |records|
    decreases |records|
  {
    if records == [] then []
    else
      [FetchedRecord(records[0].change, CanonRow(layout, fields, records[0].row),
                     Signed(h.baseOffset + index, TWO_64), h.commitTime)]
      + StoredLogRecords(layout, fields, h, records[1..], index + 1)
  }

  lemma {:induction false} LogRecordsValid(layout: Layout, fields: seq<LogicalType>, records: seq<LogRecord>)
    requires LogRecords(layout, fields, records).Ok?
    ensures forall k :: 0 <= k < |records| ==> ValidRow(fields, records[k].row)
    decreases |records|
  {
    hide EncodeRow, ValidRow;
    if records != [] {
      assert ValidRow(fields, records[0].row) by { EncodedIsValid(layout, fields, records[0].row); }
      LogRecordsValid(layout, fields, records[1..]);
    }
  }

  lemma EncodedIsValid(layout: Layout, fields: seq<LogicalType>, row: seq<Value>)
    requires EncodeRow(layout, fields, row).Ok?
    ensures ValidRow(fields, row)
  {
    hide ValidRow;
  }

  lemma LogRecordReads(layout: Layout, fields: seq<LogicalType>, h: Header, record: LogRecord, bytes: ByteString,
                       encoded: ByteString, position: nat, index: nat)
    requires LogRecordBytes(layout, fields, record) == Ok(bytes) && HoldsAt(encoded, position, bytes)
    requires |encoded| <= MAX_ROW_BYTES
    ensures position <= |encoded| && ValidRow(fields, record.row)
    ensures DecodeLogRecord(layout, fields, h, encoded, position, index)
         == Ok((FetchedRecord(record.change, CanonRow(layout, fields, record.row),
                              Signed(h.baseOffset + index, TWO_64), h.commitTime), position + |bytes|))
  {
    hide EncodeRow, DecodeRow, CanonRow, ValidRow, Little;
    PowersOf256();
    var row := EncodeRow(layout, fields, record.row).value;
    HoldsAtSplit(encoded, position, Little(1 + |row|, 4), [record.change] + row);
    HoldsAtSplit(encoded, position + 4, [record.change], row);
    FieldReads(encoded, position, 1 + |row|, 4);
    assert encoded[position + 4] == encoded[position + 4..position + 5][0];
    RowReads(layout, fields, record.row, row);
  }

  lemma {:induction false} LogRecordsRead(
    layout: Layout, fields: seq<LogicalType>, h: Header, records: seq<LogRecord>, bytes: ByteString,
    encoded: ByteString, position: nat, index: nat)
    requires LogRecords(layout, fields, records) == Ok(bytes) && HoldsAt(encoded, position, bytes)
    requires |encoded| <= MAX_ROW_BYTES
    ensures position <= |encoded|
    ensures forall k :: 0 <= k < |records| ==> ValidRow(fields, records[k].row)
    ensures DecodeLogRecords(layout, fields, h, encoded, position, index, |records|)
         == Ok((StoredLogRecords(layout, fields, h, records, index), position + |bytes|))
    decreases |records|
  {
    hide LogRecordBytes, DecodeLogRecord, CanonRow, ValidRow;
    LogRecordsValid(layout, fields, records);
    if records != [] {
      var first := LogRecordBytes(layout, fields, records[0]).value;
      var rest := LogRecords(layout, fields, records[1..]).value;
      HoldsAtSplit(encoded, position, first, rest);
      LogRecordReads(layout, fields, h, records[0], first, encoded, position, index);
      LogRecordsRead(layout, fields, h, records[1..], rest, encoded, position + |first|, index + 1);
    }
  }

  lemma LogTailReads(h: Header, count: nat, records: ByteString, encoded: ByteString, at: nat)
    requires Fits16(h.schema) && Fits64(h.writer) && Fits32(h.sequence) && count < TWO_32
    requires HoldsAt(encoded, at, LogTail(h, count, records))
    ensures at + 23 <= |encoded| && Signed(Field(encoded, at, 2), TWO_16) == h.schema
    ensures encoded[at + 2] % 2 == (if h.appendOnly then 1 else 0)
    ensures Signed(Field(encoded, at + 7, 8), TWO_64) == h.writer
    ensures Signed(Field(encoded, at + 15, 4), TWO_32) == h.sequence && Field(encoded, at + 19, 4) == count
    ensures HoldsAt(encoded, at + 23, records)
  {
    hide Little, Field, SignedField;
    PowersOf256();
    var schema, flag := SignedField(h.schema, 2), [if h.appendOnly then 1 else 0];
    var last := Little(if count > 0 then count - 1 else 0, 4);
    var writer, sequence, n := SignedField(h.writer, 8), SignedField(h.sequence, 4), Little(count, 4);
    HoldsAtSplit(encoded, at, schema, flag + (last + (writer + (sequence + (n + records)))));
    HoldsAtSplit(encoded, at + 2, flag, last + (writer + (sequence + (n + records))));
    HoldsAtSplit(encoded, at + 3, last, writer + (sequence + (n + records)));
    HoldsAtSplit(encoded, at + 7, writer, sequence + (n + records));
    HoldsAtSplit(encoded, at + 15, sequence, n + records);
    HoldsAtSplit(encoded, at + 19, n, records);
    SignedReads(encoded, at, h.schema, 2);
    SignedReads(encoded, at + 7, h.writer, 8);
    SignedReads(encoded, at + 15, h.sequence, 4);
    FieldReads(encoded, at + 19, count, 4);
    assert encoded[at + 2] == encoded[at + 2..at + 3][0];
  }

  lemma LogFrameReads(crc: Checksum, h: Header, tail: ByteString)
    requires ValidHeader(h) && (h.magic == 0 || h.magic == 1) && |tail| + 29 < TWO_32
    ensures var encoded := LogFrame(crc, h, tail); var s := SchemaOffset(h.magic);
      |encoded| == s + |tail| && Signed(Field(encoded, 0, 8), TWO_64) == h.baseOffset
      && Field(encoded, 8, 4) == |encoded| - 12 && encoded[12] == h.magic
      && Signed(Field(encoded, 13, 8), TWO_64) == h.commitTime
      && (h.magic == 1 ==> Signed(Field(encoded, 21, 4), TWO_32) == h.leaderEpoch)
      && Field(encoded, s - 4, 4) == crc(tail) % TWO_32 && encoded[s..] == tail && HoldsAt(encoded, s, tail)
  {
    hide Little, Field, SignedField;
    PowersOf256();
    var encoded, s := LogFrame(crc, h, tail), SchemaOffset(h.magic);
    var base, length := SignedField(h.baseOffset, 8), Little(|tail| + s - 12, 4);
    var magic, commit := [if h.magic == 1 then 1 else 0], SignedField(h.commitTime, 8);
    var sum, epoch := Little(crc(tail) % TWO_32, 4), Epoch(h);
    assert HoldsAt(encoded, 0, base + (length + (magic + (commit + (epoch + (sum + tail))))));
    HoldsAtSplit(encoded, 0, base, length + (magic + (commit + (epoch + (sum + tail)))));
    HoldsAtSplit(encoded, 8, length, magic + (commit + (epoch + (sum + tail))));
    HoldsAtSplit(encoded, 12, magic, commit + (epoch + (sum + tail)));
    HoldsAtSplit(encoded, 13, commit, epoch + (sum + tail));
    HoldsAtSplit(encoded, 21, epoch, sum + tail);
    HoldsAtSplit(encoded, s - 4, sum, tail);
    SignedReads(encoded, 0, h.baseOffset, 8);
    FieldReads(encoded, 8, |tail| + s - 12, 4);
    SignedReads(encoded, 13, h.commitTime, 8);
    FieldReads(encoded, s - 4, crc(tail) % TWO_32, 4);
    if h.magic == 1 {
      SignedReads(encoded, 21, h.leaderEpoch, 4);
    }
    assert encoded[12] == encoded[12..13][0];
  }

  /**
   The encoder checks no total size, so a batch may be encoded that the decoder refuses: the
   round trip holds exactly when the encoded batch is within the limit.
   */
  lemma LogRoundTrip(crc: Checksum, layout: Layout, fields: seq<LogicalType>, b: LogBatch)
    requires ValidHeader(b.header) && EncodeLog(crc, layout, fields, b).Ok?
    ensures forall k :: 0 <= k < |b.records| ==> ValidRow(fields, b.records[k].row)
    ensures DecodeLog(crc, layout, fields, EncodeLog(crc, layout, fields, b).value)
         == if |EncodeLog(crc, layout, fields, b).value| <= MAX_ROW_BYTES then Ok(StoredLog(layout, fields, b)) else Err
  {
    hide LogRecords, LogFrame, LogTail, DecodeLogRecords, StoredLogRecords, Field, ValidRow, HoldsAt;
    var h := b.header;
    var encoded := EncodeLog(crc, layout, fields, b).value;
    var records := LogRecords(layout, fields, b.records).value;
    var tail := LogTail(h, |b.records|, records);
    var s := SchemaOffset(h.magic);
    LogRecordsValid(layout, fields, b.records);
    if |encoded| <= MAX_ROW_BYTES {
      LogFrameReads(crc, h, tail);
      LogTailReads(h, |b.records|, records, encoded, s);
      LogRecordsRead(layout, fields, h, b.records, records, encoded, HeaderSize(h.magic), 0);
      SameRecords(layout, fields, h, ReadHeader(encoded, h.magic), encoded, HeaderSize(h.magic), 0, |b.records|);
    }
  }

  /** Decoding records uses only the base offset and the commit time of the header. */
  lemma {:induction false} SameRecords(layout: Layout, fields: seq<LogicalType>, h: Header, h': Header,
                                       encoded: ByteString, position: nat, index: nat, count: nat)
    requires position <= |encoded| && h.baseOffset == h'.baseOffset && h.commitTime == h'.commitTime
    ensures DecodeLogRecords(layout, fields, h, encoded, position, index, count)
         == DecodeLogRecords(layout, fields, h', encoded, position, index, count)
    decreases count
  {
    hide DecodeRow, Field;
    if count > 0 {
      var first := DecodeLogRecord(layout, fields, h, encoded, position, index);
      assert first == DecodeLogRecord(layout, fields, h', encoded, position, index);
      if first.Ok? {
        SameRecords(layout, fields, h, h', encoded, first.value.1, index + 1, count - 1);
      }
    }
  }

  lemma {:induction false} StoredRecordAt(layout: Layout, fields: seq<LogicalType>, h: Header, records: seq<LogRecord>,
                                          index: nat, k: nat)
    requires k < |records| && forall j :: 0 <= j < |records| ==> ValidRow(fields, records[j].row)
    ensures StoredLogRecords(layout, fields, h, records, index)[k]
         == FetchedRecord(records[k].change, CanonRow(layout, fields, records[k].row),
                          Signed(h.baseOffset + index + k, TWO_64), h.commitTime)
    decreases k
  {
    hide CanonRow, ValidRow;
    if k > 0 {
      StoredRecordAt(layout, fields, h, records[1..], index + 1, k - 1);
    }
  }

  /** Record `k` of a decoded batch is record `k` of the encoded one, at offset base plus `k`. */
  lemma LogRecordComesBack(crc: Checksum, layout: Layout, fields: seq<LogicalType>, b: LogBatch, k: nat)
    requires ValidHeader(b.header) && EncodeLog(crc, layout, fields, b).Ok? && k < |b.records|
    requires |EncodeLog(crc, layout, fields, b).value| <= MAX_ROW_BYTES
    requires b.header.baseOffset + k < TWO_63
    ensures ValidRow(fields, b.records[k].row)
    ensures var r := DecodeLog(crc, layout, fields, EncodeLog(crc, layout, fields, b).value);
      r.Ok? && |r.value.records| == |b.records| && r.value.records[k].offset == b.header.baseOffset + k
      && r.value.records[k].change == b.records[k].change
      && (r.value.records[k].row == b.records[k].row <==> CanonicalRow(layout, fields, b.records[k].row))
  {
    hide EncodeLog, DecodeLog, CanonRow, ValidRow, CanonicalRow, StoredLogRecords;
    LogRoundTrip(crc, layout, fields, b);
    StoredRecordAt(layout, fields, b.header, b.records, 0, k);
    RowFixpoint(layout, fields, b.records[k].row);
    SignedUnsigned(b.header.baseOffset + k, TWO_64);
    SignedOfMod(b.header.baseOffset + k, TWO_64);
  }
}
