/**
 Which batches are encoded, how long they are, and what bytes are accepted as batches: both
 directions stated over values and byte positions.
 */
module BatchAcceptance {
  import opened Bytes
  import opened Schema
  import opened RowCodec
  import opened RecordBatch
  import opened LogBatch
  import opened RowAcceptance

  // ------------------------------------------------------------------------ KV, encoding

  /** A record is a length, a prefixed key and the value. */
  function KVSize(r: KVRecord): nat
  {
    4 + Prefixed(|r.key|) + if r.value.Delete? then 0 else |r.value.bytes|
  }

  function KVSizesFrom(records: seq<KVRecord>): nat
  {
    if records == [] then 0 else KVSize(records[0]) + KVSizesFrom(records[1..])
  }

  lemma {:induction false} KVRecordsLength(records: seq<KVRecord>)
    ensures |KVRecords(records)| == KVSizesFrom(records)
  {
    hide Var, Groups;
    if records != [] {
      VarIsGroups(|records[0].key|);
      KVRecordsLength(records[1..]);
    }
  }

  /** A KV batch is encoded if and only if header and records are within the limit, and is that long. */
  lemma KVAcceptedExactly(crc: Checksum, b: KVBatch)
    requires ValidKV(b)
    ensures EncodeKV(crc, b).Ok? <==> 28 + KVSizesFrom(b.records) <= MAX_ROW_BYTES
    ensures EncodeKV(crc, b).Ok? ==> |EncodeKV(crc, b).value| == 28 + KVSizesFrom(b.records)
  {
    hide EncodeKV, DecodeKV, KVRecords, KVSizesFrom;
    KVRoundTrip(crc, b);
    KVRecordsLength(b.records);
  }

  // ----------------------------------------------------------------------- log, encoding

  predicate LogRecordOk(layout: Layout, fields: seq<LogicalType>, r: LogRecord)
  {
    0 <= r.change < 5 && ValidSchema(fields) && ValidRow(fields, r.row) && RowOk(layout, fields, r.row)
  }

  function LogSizes(layout: Layout, fields: seq<LogicalType>, records: seq<LogRecord>): nat
    requires forall k :: 0 <= k < |records| ==> LogRecordOk(layout, fields, records[k])
  {
    if records == [] then 0
    else
      assert LogRecordOk(layout, fields, records[0]);
      5 + RowLength(layout, fields, records[0].row) + LogSizes(layout, fields, records[1..])
  }

  lemma {:induction false} LogRecordsAccepted(layout: Layout, fields: seq<LogicalType>, records: seq<LogRecord>)
    ensures LogRecords(layout, fields, records).Ok? <==>
      forall k :: 0 <= k < |records| ==> LogRecordOk(layout, fields, records[k])
    ensures (forall k :: 0 <= k < |records| ==> LogRecordOk(layout, fields, records[k])) ==>
      |LogRecords(layout, fields, records).value| == LogSizes(layout, fields, records)
  {
    hide EncodeRow, ValidSchema, ValidRow, RowOk, RowLength, Little;
    if records != [] {
      EncoderAcceptsExactly(layout, fields, records[0].row);
      LogRecordsAccepted(layout, fields, records[1..]);
      assert LogRecordBytes(layout, fields, records[0]).Ok? <==> LogRecordOk(layout, fields, records[0]);
      if forall k :: 0 <= k < |records[1..]| ==> LogRecordOk(layout, fields, records[1..][k]) {
        assert forall k :: 1 <= k < |records| ==> records[k] == records[1..][k - 1];
      } else {
        var k :| 0 <= k < |records[1..]| && !LogRecordOk(layout, fields, records[1..][k]);
        assert !LogRecordOk(layout, fields, records[k + 1]);
      }
    }
  }

  /**
   A log batch is encoded if and only if its version is known and every record has a known
   change and an acceptable row; its length is the header's and five bytes and the row's for
   each record.
   */
  lemma LogAcceptedExactly(crc: Checksum, layout: Layout, fields: seq<LogicalType>, b: LogBatch)
    ensures EncodeLog(crc, layout, fields, b).Ok? <==>
      (b.header.magic == 0 || b.header.magic == 1)
      && forall k :: 0 <= k < |b.records| ==> LogRecordOk(layout, fields, b.records[k])
    ensures EncodeLog(crc, layout, fields, b).Ok? ==>
      |EncodeLog(crc, layout, fields, b).value|
      == (if b.header.magic == 1 then 52 else 48) + LogSizes(layout, fields, b.records)
  {
    hide LogRecords, LogRecordOk, LogSizes, LogFrame, LogTail;
    LogRecordsAccepted(layout, fields, b.records);
  }

  // -------------------------------------------------------------------------- KV, decoding

  /** A record's bytes: their length, a varint for the key's length, the key, and the value unless it is deleted. */
  ghost predicate KVRecordAt(encoded: ByteString, from: nat, to: nat, r: KVRecord)
  {
    from + 5 <= to <= |encoded| && Field(encoded, from, 4) == to - from - 4
    && exists key: nat, end: nat :: KVSplit(encoded, from, key, end, to, r)
  }

  predicate KVSplit(encoded: ByteString, from: nat, key: nat, end: nat, to: nat, r: KVRecord)
  {
    from + 4 < key <= end <= to <= |encoded| && ReadVar(encoded[..to], from + 4, 5) == Ok((end - key, key))
    && r.key == encoded[key..end] && r.value == if end == to then Delete else Put(encoded[end..to])
  }

  ghost predicate KVTiles(encoded: ByteString, cuts: seq<nat>, records: seq<KVRecord>)
  {
    |cuts| == |records| + 1
    && forall k :: 0 <= k < |records| ==> KVRecordAt(encoded, cuts[k], cuts[k + 1], records[k])
  }

  lemma KVRecordFound(encoded: ByteString, position: nat)
    requires position <= |encoded| && DecodeKVRecord(encoded, position).Ok?
    ensures var (r, next) := DecodeKVRecord(encoded, position).value; KVRecordAt(encoded, position, next, r)
  {
    hide ReadVar, Field;
    var (r, next) := DecodeKVRecord(encoded, position).value;
    var (length, start) := ReadVar(encoded[..next], position + 4, 5).value;
    assert start > position + 4 by { VarTakesBytes(encoded[..next], position + 4); }
    assert KVSplit(encoded, position, start, start + length, next, r);
  }

  lemma VarTakesBytes(encoded: ByteString, position: nat)
    requires ReadVar(encoded, position, 5).Ok?
    ensures ReadVar(encoded, position, 5).value.1 > position
  {
  }

  lemma {:induction false} KVRecordsTile(encoded: ByteString, position: nat, count: nat) returns (cuts: seq<nat>)
    requires position <= |encoded| && DecodeKVRecords(encoded, position, count).Ok?
    ensures var (records, end) := DecodeKVRecords(encoded, position, count).value;
      KVTiles(encoded, cuts, records) && cuts[0] == position && cuts[|cuts| - 1] == end
    decreases count
  {
    hide DecodeKVRecord, KVRecordAt;
    if count == 0 {
      cuts := [position];
    } else {
      KVRecordFound(encoded, position);
      var (record, next) := DecodeKVRecord(encoded, position).value;
      var rest := KVRecordsTile(encoded, next, count - 1);
      cuts := [position] + rest;
      var records := DecodeKVRecords(encoded, position, count).value.0;
      forall k | 0 <= k < |records| ensures KVRecordAt(encoded, cuts[k], cuts[k + 1], records[k]) {
        if k > 0 {
          assert cuts[k] == rest[k - 1] && cuts[k + 1] == rest[k];
        }
      }
    }
  }

  /**
   Whatever bytes are accepted as a KV batch have the right length field, version and checksum,
   and its records lie side by side from the header to the last byte.
   */
  lemma AcceptedKV(crc: Checksum, encoded: ByteString) returns (cuts: seq<nat>)
    requires DecodeKV(crc, encoded).Ok?
    ensures 28 <= |encoded| <= MAX_ROW_BYTES && Field(encoded, 0, 4) == |encoded| - 4 && encoded[4] == 0
    ensures Field(encoded, 5, 4) == crc(encoded[9..]) % TWO_32
    ensures KVTiles(encoded, cuts, DecodeKV(crc, encoded).value.records)
    ensures cuts[0] == 28 && cuts[|cuts| - 1] == |encoded| && |cuts| == Field(encoded, 24, 4) + 1
  {
    hide DecodeKVRecords, KVTiles, Field;
    cuts := KVRecordsTile(encoded, 28, Field(encoded, 24, 4));
    assert |cuts| == |DecodeKV(crc, encoded).value.records| + 1 by { TilesCount(encoded, cuts, DecodeKV(crc, encoded).value.records); }
  }

  lemma TilesCount(encoded: ByteString, cuts: seq<nat>, records: seq<KVRecord>)
    requires KVTiles(encoded, cuts, records)
    ensures |cuts| == |records| + 1
  {
  }

  /** Bytes after the checksum that no longer have it are refused. */
  lemma CorruptKVRefused(crc: Checksum, encoded: ByteString, other: ByteString)
    requires DecodeKV(crc, encoded).Ok? && |other| == |encoded| && other[..9] == encoded[..9]
    requires crc(other[9..]) % TWO_32 != crc(encoded[9..]) % TWO_32
    ensures DecodeKV(crc, other).Err?
  {
    assert other[5..9] == other[..9][5..9] == encoded[5..9];
  }

  // ------------------------------------------------------------------------- log, decoding

  /** A record's bytes: their length, the change, and the row. */
  ghost predicate LogRecordAt(layout: Layout, fields: seq<LogicalType>, encoded: ByteString, from: nat, to: nat,
                              r: FetchedRecord)
  {
    from + 5 <= to <= |encoded| && Field(encoded, from, 4) == to - from - 4
    && r.change == encoded[from + 4] < 5 && DecodeRow(layout, fields, encoded[from + 5..to]) == Ok(r.row)
  }

  ghost predicate LogTiles(layout: Layout, fields: seq<LogicalType>, encoded: ByteString, cuts: seq<nat>,
                           records: seq<FetchedRecord>)
  {
    |cuts| == |records| + 1
    && forall k :: 0 <= k < |records| ==> LogRecordAt(layout, fields, encoded, cuts[k], cuts[k + 1], records[k])
  }

  lemma {:induction false} LogRecordsTile(layout: Layout, fields: seq<LogicalType>, h: Header, encoded: ByteString,
                                          position: nat, index: nat, count: nat) returns (cuts: seq<nat>)
    requires position <= |encoded| && DecodeLogRecords(layout, fields, h, encoded, position, index, count).Ok?
    ensures var (records, end) := DecodeLogRecords(layout, fields, h, encoded, position, index, count).value;
      LogTiles(layout, fields, encoded, cuts, records) && cuts[0] == position && cuts[|cuts| - 1] == end
    decreases count
  {
    hide DecodeRow, Field;
    if count == 0 {
      cuts := [position];
    } else {
      var (record, next) := DecodeLogRecord(layout, fields, h, encoded, position, index).value;
      assert LogRecordAt(layout, fields, encoded, position, next, record);
      hide DecodeLogRecord, LogRecordAt;
      var rest := LogRecordsTile(layout, fields, h, encoded, next, index + 1, count - 1);
      cuts := [position] + rest;
      var records := DecodeLogRecords(layout, fields, h, encoded, position, index, count).value.0;
      forall k | 0 <= k < |records| ensures LogRecordAt(layout, fields, encoded, cuts[k], cuts[k + 1], records[k]) {
        if k > 0 {
          assert cuts[k] == rest[k - 1] && cuts[k + 1] == rest[k];
        }
      }
    }
  }

  /**
   Whatever bytes are accepted as a log batch have a known version, the right length field and
   checksum, and its records lie side by side from the header to the last byte, each at its own
   offset from the base on.
   */
  lemma AcceptedLog(crc: Checksum, layout: Layout, fields: seq<LogicalType>, encoded: ByteString) returns (cuts: seq<nat>)
    requires DecodeLog(crc, layout, fields, encoded).Ok?
    ensures var b := DecodeLog(crc, layout, fields, encoded).value; var start := if b.header.magic == 1 then 29 else 25;
      (b.header.magic == 0 || b.header.magic == 1) && start + 23 <= |encoded| <= MAX_ROW_BYTES
      && encoded[12] == b.header.magic && Field(encoded, 8, 4) == |encoded| - 12
      && Field(encoded, start - 4, 4) == crc(encoded[start..]) % TWO_32
      && LogTiles(layout, fields, encoded, cuts, b.records) && cuts[0] == start + 23 && cuts[|cuts| - 1] == |encoded|
      && forall k :: 0 <= k < |b.records| ==> b.records[k].offset == Signed(b.header.baseOffset + k, TWO_64)
  {
    hide DecodeLogRecords, LogTiles, Field;
    var magic := CheckHeader(crc, encoded).value;
    var h := ReadHeader(encoded, magic);
    cuts := LogRecordsTile(layout, fields, h, encoded, HeaderSize(magic), 0, Field(encoded, SchemaOffset(magic) + 19, 4));
  }

  /** Bytes after the checksum that no longer have it are refused. */
  lemma CorruptLogRefused(crc: Checksum, layout: Layout, fields: seq<LogicalType>, encoded: ByteString, other: ByteString)
    requires DecodeLog(crc, layout, fields, encoded).Ok? && |other| == |encoded| > 29 && other[..29] == encoded[..29]
    requires var start := if encoded[12] == 1 then 29 else 25;
      crc(other[start..]) % TWO_32 != crc(encoded[start..]) % TWO_32
    ensures DecodeLog(crc, layout, fields, other).Err?
  {
    hide DecodeLogRecords, ReadHeader;
    var start := if encoded[12] == 1 then 29 else 25;
    assert other[12] == other[..29][12] == encoded[12];
    assert other[start - 4..start] == other[..29][start - 4..start] == encoded[start - 4..start];
  }
}
