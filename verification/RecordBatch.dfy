/**
 KV batches and row-oriented log batches: headers with little-endian fields at fixed
 offsets, length-delimited records, and a checksum over everything after it. The checksum
 is a parameter; nothing here depends on which function it is.
 */
module RecordBatch {
  import opened Bytes
  import opened Schema
  import opened RowCodec
  import opened RowRoundTrip

  type Checksum = ByteString -> nat

  function Field(encoded: ByteString, at: nat, width: nat): (r: nat)
    requires at + width <= |encoded|
    ensures r < Pow256(width)
  {
    FromLittle(encoded[at..at + width])
  }

  function SignedField(value: int, width: nat): (bytes: ByteString)
    ensures |bytes| == width
  {
    Little(Unsigned(value, Pow256(width)), width)
  }

  lemma FieldReads(encoded: ByteString, at: nat, value: nat, width: nat)
    requires HoldsAt(encoded, at, Little(value, width)) && value < Pow256(width)
    ensures at + width <= |encoded| && Field(encoded, at, width) == value
  {
    LittleExact(value, width);
  }

  predicate Fits16(value: int) { FitsSigned(value, TWO_16) }

  predicate Fits32(value: int) { FitsSigned(value, TWO_32) }

  predicate Fits64(value: int) { FitsSigned(value, TWO_64) }

  lemma SignedReads(encoded: ByteString, at: nat, value: int, width: nat)
    requires width == 2 || width == 4 || width == 8
    requires HoldsAt(encoded, at, SignedField(value, width)) && FitsSigned(value, Pow256(width))
    ensures at + width <= |encoded| && Signed(Field(encoded, at, width), Pow256(width)) == value
  {
    PowersOf256();
    FieldReads(encoded, at, Unsigned(value, Pow256(width)), width);
    SignedUnsigned(value, Pow256(width));
  }

  // ------------------------------------------------------------------------ KV batches

  const KV_HEADER := 28

  /** A nil value is a delete; an empty one is stored the same way. */
  datatype KVValue = Delete | Put(bytes: ByteString)

  datatype KVRecord = KVRecord(key: ByteString, value: KVValue)

  datatype KVBatch = KVBatch(schema: int, writer: int, sequence: int, records: seq<KVRecord>)

  predicate ValidKV(b: KVBatch)
  {
    Fits16(b.schema) && Fits64(b.writer) && Fits32(b.sequence)
  }

  function ValueBytes(v: KVValue): ByteString
  {
    if v.Delete? then [] else v.bytes
  }

  function KVBody(r: KVRecord): (body: ByteString)
    ensures |body| >= 1
  {
    Var(|r.key|) + (r.key + ValueBytes(r.value))
  }

  function KVRecordBytes(r: KVRecord): (bytes: ByteString)
    ensures |bytes| >= 5
  {
    Little(|KVBody(r)|, 4) + KVBody(r)
  }

  function KVRecords(records: seq<KVRecord>): (bytes: ByteString)
    ensures |bytes| >= 5 * |records|
  {
    if records == [] then [] else KVRecordBytes(records[0]) + KVRecords(records[1..])
  }

  /** The encoder's checks, record by record; `size` is the length encoded so far. */
  predicate KVFits(records: seq<KVRecord>, size: nat)
  {
    records == [] ||
    var body := |KVBody(records[0])|;
    |records[0].key| <= MAX_ROW_BYTES && |ValueBytes(records[0].value)| <= MAX_ROW_BYTES
    && body <= MAX_ROW_BYTES && size + 4 + body <= MAX_ROW_BYTES
    && KVFits(records[1..], size + 4 + body)
  }

  function KVTail(b: KVBatch): ByteString
  {
    SignedField(b.schema, 2) + ([0] + (SignedField(b.writer, 8) + (SignedField(b.sequence, 4)
      + (Little(|b.records|, 4) + KVRecords(b.records)))))
  }

  function KVFrame(crc: Checksum, tail: ByteString): (r: ByteString)
    ensures |r| == 9 + |tail|
  {
    Little(|tail| + 5, 4) + ([0] + (Little(crc(tail) % TWO_32, 4) + tail))
  }

  function EncodeKV(crc: Checksum, b: KVBatch): (r: Result<ByteString>)
  {
    if |b.records| > 0x7fff_ffff || !KVFits(b.records, KV_HEADER) then Err
    else Ok(KVFrame(crc, KVTail(b)))
  }

  function DecodeKVRecord(encoded: ByteString, position: nat): (r: Result<(KVRecord, nat)>)
    requires position <= |encoded|
    ensures r.Ok? ==> position + 5 <= r.value.1 <= |encoded|
  {
    if |encoded| - position < 4 then Err
    else
      var length := Field(encoded, position, 4);
      if length < 1 || length > |encoded| - position - 4 then Err
      else
        var bodyEnd := position + 4 + length;
        match ReadVar(encoded[..bodyEnd], position + 4, 5)
        case Err => Err
        case Ok((keyLength, keyStart)) =>
          if keyLength > bodyEnd - keyStart then Err
          else
            var keyEnd := keyStart + keyLength;
            var value := if keyEnd != bodyEnd then Put(encoded[keyEnd..bodyEnd]) else Delete;
            Ok((KVRecord(encoded[keyStart..keyEnd], value), bodyEnd))
  }

  function DecodeKVRecords(encoded: ByteString, position: nat, count: nat): (r: Result<(seq<KVRecord>, nat)>)
    requires position <= |encoded|
    ensures r.Ok? ==> position <= r.value.1 <= |encoded| && |r.value.0| == count
    decreases count
  {
    if count == 0 then Ok(([], position))
    else
      var (record, next) :- DecodeKVRecord(encoded, position);
      var (rest, end) :- DecodeKVRecords(encoded, next, count - 1);
      Ok(([record] + rest, end))
  }

  function DecodeKV(crc: Checksum, encoded: ByteString): (r: Result<KVBatch>)
  {
    if |encoded| < KV_HEADER || |encoded| > MAX_ROW_BYTES || encoded[4] != 0 then Err
    else if Field(encoded, 0, 4) != |encoded| - 4 || Field(encoded, 5, 4) != crc(encoded[9..]) % TWO_32 then Err
    else
      var count := Field(encoded, 24, 4);
      if count > |encoded| / 5 then Err
      else
        var (records, end) :- DecodeKVRecords(encoded, KV_HEADER, count);
        if end != |encoded| then Err
        else
          Ok(KVBatch(Signed(Field(encoded, 9, 2), TWO_16), Signed(Field(encoded, 12, 8), TWO_64),
                     Signed(Field(encoded, 20, 4), TWO_32), records))
  }

  /** What a stored value comes back as: an empty put is read as a delete. */
  function StoredValue(v: KVValue): KVValue
  {
    if ValueBytes(v) == [] then Delete else v
  }

  function StoredRecords(records: seq<KVRecord>): (r: seq<KVRecord>)
    ensures |r| == |records|
  {
    seq(|records|, i requires 0 <= i < |records| => records[i].(value := StoredValue(records[i].value)))
  }

  // ---------------------------------------------------------------- KV round trip

  /** The running checks add up to one bound on the whole batch. */
  lemma {:induction false} KVFitsExactly(records: seq<KVRecord>, size: nat)
    ensures KVFits(records, size) <==> records == [] || size + |KVRecords(records)| <= MAX_ROW_BYTES
  {
    if records != [] {
      KVFitsExactly(records[1..], size + 4 + |KVBody(records[0])|);
    }
  }

  lemma KVRecordReads(record: KVRecord, encoded: ByteString, position: nat)
    requires HoldsAt(encoded, position, KVRecordBytes(record)) && |encoded| <= MAX_ROW_BYTES
    ensures position <= |encoded|
    ensures DecodeKVRecord(encoded, position)
         == Ok((record.(value := StoredValue(record.value)), position + |KVRecordBytes(record)|))
  {
    hide Var, Little, ReadVar;
    var body, key, value := KVBody(record), record.key, ValueBytes(record.value);
    HoldsAtSplit(encoded, position, Little(|body|, 4), body);
    PowersOf256();
    FieldReads(encoded, position, |body|, 4);
    var end := position + 4 + |body|;
    var inside := encoded[..end];
    assert inside[position + 4..end] == encoded[position + 4..end];
    HoldsAtSplit(encoded, position + 4, Var(|key|), key + value);
    HoldsAtSplit(inside, position + 4, Var(|key|), key + value);
    HoldsAtSplit(encoded, position + 4 + |Var(|key|)|, key, value);
    ReadVar32(|key|, inside, position + 4);
  }

  lemma {:induction false} KVRecordsRead(records: seq<KVRecord>, encoded: ByteString, position: nat)
    requires HoldsAt(encoded, position, KVRecords(records)) && |encoded| <= MAX_ROW_BYTES
    ensures position <= |encoded|
    ensures DecodeKVRecords(encoded, position, |records|)
         == Ok((StoredRecords(records), position + |KVRecords(records)|))
    decreases |records|
  {
    hide KVRecordBytes, DecodeKVRecord;
    if records != [] {
      HoldsAtSplit(encoded, position, KVRecordBytes(records[0]), KVRecords(records[1..]));
      KVRecordReads(records[0], encoded, position);
      KVRecordsRead(records[1..], encoded, position + |KVRecordBytes(records[0])|);
      assert StoredRecords(records) == [records[0].(value := StoredValue(records[0].value))] + StoredRecords(records[1..]);
    }
  }

  lemma KVTailReads(b: KVBatch, encoded: ByteString)
    requires ValidKV(b) && HoldsAt(encoded, 9, KVTail(b)) && |b.records| < TWO_32
    ensures 28 <= |encoded|
    ensures Signed(Field(encoded, 9, 2), TWO_16) == b.schema && Signed(Field(encoded, 12, 8), TWO_64) == b.writer
    ensures Signed(Field(encoded, 20, 4), TWO_32) == b.sequence && Field(encoded, 24, 4) == |b.records|
    ensures HoldsAt(encoded, 28, KVRecords(b.records))
  {
    hide Little, KVRecords, Field, SignedField, HoldsAt;
    PowersOf256();
    var records := KVRecords(b.records);
    var count, sequence := Little(|b.records|, 4), SignedField(b.sequence, 4);
    var writer, schema := SignedField(b.writer, 8), SignedField(b.schema, 2);
    HoldsAtSplit(encoded, 9, schema, [0] + (writer + (sequence + (count + records))));
    HoldsAtSplit(encoded, 11, [0], writer + (sequence + (count + records)));
    HoldsAtSplit(encoded, 12, writer, sequence + (count + records));
    HoldsAtSplit(encoded, 20, sequence, count + records);
    HoldsAtSplit(encoded, 24, count, records);
    SignedReads(encoded, 9, b.schema, 2);
    SignedReads(encoded, 12, b.writer, 8);
    SignedReads(encoded, 20, b.sequence, 4);
    FieldReads(encoded, 24, |b.records|, 4);
  }

  lemma KVFrameReads(crc: Checksum, tail: ByteString)
    requires |tail| + 5 < TWO_32
    ensures var encoded := KVFrame(crc, tail);
      |encoded| == 9 + |tail| && Field(encoded, 0, 4) == |tail| + 5 && encoded[4] == 0
      && Field(encoded, 5, 4) == crc(tail) % TWO_32 && encoded[9..] == tail && HoldsAt(encoded, 9, tail)
  {
    hide Little, Field;
    PowersOf256();
    var encoded := KVFrame(crc, tail);
    var sum := Little(crc(tail) % TWO_32, 4);
    assert HoldsAt(encoded, 0, Little(|tail| + 5, 4) + ([0] + (sum + tail)));
    HoldsAtSplit(encoded, 0, Little(|tail| + 5, 4), [0] + (sum + tail));
    HoldsAtSplit(encoded, 4, [0], sum + tail);
    HoldsAtSplit(encoded, 5, sum, tail);
    FieldReads(encoded, 0, |tail| + 5, 4);
    FieldReads(encoded, 5, crc(tail) % TWO_32, 4);
  }

  /**
   A KV batch is encoded exactly when the whole of it is within the limit, and decoding gives
   back every field and record; only an empty put comes back as a delete.
   */
  lemma KVRoundTrip(crc: Checksum, b: KVBatch)
    requires ValidKV(b)
    ensures EncodeKV(crc, b).Ok? <==> KV_HEADER + |KVRecords(b.records)| <= MAX_ROW_BYTES
    ensures EncodeKV(crc, b).Ok? ==>
      |EncodeKV(crc, b).value| == KV_HEADER + |KVRecords(b.records)|
      && DecodeKV(crc, EncodeKV(crc, b).value) == Ok(b.(records := StoredRecords(b.records)))
  {
    hide KVRecords, KVFits, KVFrame, DecodeKVRecords, Field;
    KVFitsExactly(b.records, KV_HEADER);
    if EncodeKV(crc, b).Ok? {
      var encoded := EncodeKV(crc, b).value;
      assert b.records == [] ==> KVRecords(b.records) == [] by { NoRecords(); }
      KVFrameReads(crc, KVTail(b));
      KVTailReads(b, encoded);
      KVRecordsRead(b.records, encoded, KV_HEADER);
    }
  }

  lemma NoRecords()
    ensures KVRecords([]) == []
  {
  }

  /** The round trip is exact if and only if no put is empty. */
  lemma KVRoundTripExact(crc: Checksum, b: KVBatch)
    requires ValidKV(b) && EncodeKV(crc, b).Ok?
    ensures DecodeKV(crc, EncodeKV(crc, b).value) == Ok(b)
       <==> forall i :: 0 <= i < |b.records| ==> b.records[i].value != Put([])
  {
    KVRoundTrip(crc, b);
    var stored := StoredRecords(b.records);
    if forall i :: 0 <= i < |b.records| ==> b.records[i].value != Put([]) {
      assert stored == b.records;
    } else {
      var i :| 0 <= i < |b.records| && b.records[i].value == Put([]);
      assert stored[i].value == Delete;
    }
  }

  /** Every encoded row has a null bitmap, so it has bytes, so an upsert is never read as a delete. */
  lemma UpsertNeverDelete(layout: Layout, fields: seq<LogicalType>, row: seq<Value>)
    requires EncodeRow(layout, fields, row).Ok?
    ensures StoredValue(Put(EncodeRow(layout, fields, row).value)) == Put(EncodeRow(layout, fields, row).value)
  {
    assert NullBytes(|fields|) >= 1;
  }

  /** Buffered sizes bound the request: a batch is at most the header above the sum of its items. */
  lemma {:induction false} KVRecordsBounded(records: seq<KVRecord>)
    requires forall i :: 0 <= i < |records| ==> |records[i].key| <= MAX_ROW_BYTES
    ensures |KVRecords(records)| <= KVSizes(records)
  {
    hide Var;
    if records != [] {
      KVRecordsBounded(records[1..]);
      VarWidths();
      VarLength(|records[0].key|, 4);
    }
  }

  /** The sizes the upsert writer adds up: key, value and eight bytes for each mutation. */
  function KVSizes(records: seq<KVRecord>): nat
  {
    if records == [] then 0
    else |records[0].key| + |ValueBytes(records[0].value)| + 8 + KVSizes(records[1..])
  }

  lemma KVBatchBounded(crc: Checksum, b: KVBatch)
    requires ValidKV(b) && EncodeKV(crc, b).Ok?
    ensures |EncodeKV(crc, b).value| <= KV_HEADER + KVSizes(b.records)
  {
    hide KVRecords, KVFrame, DecodeKV;
    KVRoundTrip(crc, b);
    KVKeysFit(b.records, KV_HEADER);
    KVRecordsBounded(b.records);
  }

  lemma {:induction false} KVKeysFit(records: seq<KVRecord>, size: nat)
    requires KVFits(records, size)
    ensures forall i :: 0 <= i < |records| ==> |records[i].key| <= MAX_ROW_BYTES
    decreases |records|
  {
    if records != [] {
      KVKeysFit(records[1..], size + 4 + |KVBody(records[0])|);
    }
  }
}
