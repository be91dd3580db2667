/** The loops of the batch codecs, proved equal to the closed forms. */
module RecordLoops {
  import opened Bytes
  import opened Schema
  import opened RowCodec
  import opened RecordBatch
  import opened LogBatch

  // --------------------------------------------------------- storing header fields

  lemma Assoc(a: ByteString, b: ByteString, c: ByteString)
    ensures a + (b + c) == (a + b) + c
  {
  }

  lemma ZerosSplit(n: nat, k: nat)
    requires k <= n
    ensures Zeros(n) == Zeros(k) + Zeros(n - k)
  {
  }

  /** Store a field right after the part of the header already filled in. */
  lemma PutNext(done: ByteString, n: nat, bytes: ByteString)
    requires |bytes| <= n
    ensures Bytes.Put(done + Zeros(n), |done|, bytes) == done + bytes + Zeros(n - |bytes|)
  {
  }

  /** Leave `k` bytes zero. */
  lemma SkipNext(done: ByteString, n: nat, k: nat)
    requires k <= n
    ensures done + Zeros(n) == done + Zeros(k) + Zeros(n - k)
  {
    ZerosSplit(n, k);
    Assoc(done, Zeros(k), Zeros(n - k));
  }

  /** Store one byte right after the part of the header already filled in. */
  lemma ByteNext(done: ByteString, n: nat, b: Byte)
    requires n >= 1
    ensures (done + Zeros(n))[|done| := b] == done + [b] + Zeros(n - 1)
  {
  }

  // ------------------------------------------------------------------- KV batches

  /** The header fields stored before the records, with length and checksum still zero. */
  function KVHead(b: KVBatch): (r: ByteString)
    ensures |r| == 19
  {
    SignedField(b.schema, 2) + ([0] + (SignedField(b.writer, 8) + (SignedField(b.sequence, 4) + Little(|b.records|, 4))))
  }

  lemma KVTailSplits(b: KVBatch)
    ensures KVTail(b) == KVHead(b) + KVRecords(b.records)
  {
    hide KVRecords, SignedField, Little;
  }

  method KVHeaderFields(b: KVBatch) returns (encoded: ByteString)
    ensures encoded == Zeros(9) + KVHead(b)
  {
    hide SignedField, Little, Zeros, Bytes.Put;
    var schema, writer := SignedField(b.schema, 2), SignedField(b.writer, 8);
    var sequence, count := SignedField(b.sequence, 4), Little(|b.records|, 4);
    encoded := Zeros(28);
    ZerosSplit(28, 9);
    PutNext(Zeros(9), 19, schema);
    encoded := Bytes.Put(encoded, 9, schema);
    SkipNext(Zeros(9) + schema, 17, 1);
    PutNext(Zeros(9) + schema + Zeros(1), 16, writer);
    encoded := Bytes.Put(encoded, 12, writer);
    PutNext(Zeros(9) + schema + Zeros(1) + writer, 8, sequence);
    encoded := Bytes.Put(encoded, 20, sequence);
    PutNext(Zeros(9) + schema + Zeros(1) + writer + sequence, 4, count);
    encoded := Bytes.Put(encoded, 24, count);
    OneZero();
    Assoc(Zeros(9), schema, [0] + (writer + (sequence + count)));
    Assoc(Zeros(9) + schema, [0], writer + (sequence + count));
    Assoc(Zeros(9) + schema + [0], writer, sequence + count);
    Assoc(Zeros(9) + schema + [0] + writer, sequence, count);
    NoZeros(Zeros(9) + schema + [0] + writer + sequence + count);
  }

  lemma OneZero()
    ensures Zeros(1) == [0]
  {
  }

  lemma NoZeros(done: ByteString)
    ensures done + Zeros(0) == done
  {
  }

  lemma {:induction false} KVRecordsConcat(a: seq<KVRecord>, b: seq<KVRecord>)
    ensures KVRecords(a + b) == KVRecords(a) + KVRecords(b)
  {
    hide KVRecordBytes;
    if a == [] {
      assert a + b == b;
    } else {
      assert (a + b)[0] == a[0] && (a + b)[1..] == a[1..] + b;
      KVRecordsConcat(a[1..], b);
    }
  }

  lemma KVRecordsSnoc(records: seq<KVRecord>, i: nat)
    requires i < |records|
    ensures KVRecords(records[..i + 1]) == KVRecords(records[..i]) + KVRecordBytes(records[i])
  {
    hide KVRecordBytes;
    assert records[..i + 1] == records[..i] + [records[i]];
    KVRecordsConcat(records[..i], [records[i]]);
    assert KVRecords([records[i]]) == KVRecordBytes(records[i]) + KVRecords([]);
  }

  lemma KVFinish(crc: Checksum, tail: ByteString)
    ensures Bytes.Put(Bytes.Put(Zeros(9) + tail, 0, Little(|tail| + 5, 4)), 5, Little(crc(tail) % TWO_32, 4))
         == KVFrame(crc, tail)
  {
    hide Little, Zeros, Bytes.Put;
    var length, sum := Little(|tail| + 5, 4), Little(crc(tail) % TWO_32, 4);
    var rest := [0] + (Zeros(4) + tail);
    assert Zeros(9) + tail == [] + Zeros(4) + rest by {
      ZerosSplit(9, 4);
      ZerosSplit(5, 1);
      OneZero();
      Assoc([0], Zeros(4), tail);
      Assoc(Zeros(4), [0] + Zeros(4), tail);
      assert [] + Zeros(4) == Zeros(4);
    }
    PutMiddle([], Zeros(4), rest, length);
    assert [] + length == length;
    assert length + rest == length + [0] + Zeros(4) + tail by {
      Assoc(length, [0], Zeros(4) + tail);
      Assoc(length + [0], Zeros(4), tail);
    }
    PutMiddle(length + [0], Zeros(4), tail, sum);
    Assoc(length + [0], sum, tail);
    Assoc(length, [0], sum + tail);
  }

  lemma KVFitsStep(records: seq<KVRecord>, i: nat, size: nat)
    requires i < |records|
    ensures KVFits(records[i..], size) ==
      (|records[i].key| <= MAX_ROW_BYTES && |ValueBytes(records[i].value)| <= MAX_ROW_BYTES
       && |KVBody(records[i])| <= MAX_ROW_BYTES && size + 4 + |KVBody(records[i])| <= MAX_ROW_BYTES
       && KVFits(records[i + 1..], size + 4 + |KVBody(records[i])|))
  {
    hide KVBody;
    assert records[i..][0] == records[i] && records[i..][1..] == records[i + 1..];
  }

  /** The records appended one after the other, each checked against the limit first. */
  method AppendKVRecords(records: seq<KVRecord>, header: ByteString) returns (r: Result<ByteString>)
    ensures r == if KVFits(records, |header|) then Ok(header + KVRecords(records)) else Err
  {
    hide KVRecords, KVRecordBytes, KVBody, KVFits, Little, Var;
    var encoded := header;
    var i := 0;
    assert records[..0] == [] && records[0..] == records && header + [] == header;
    NoRecords();
    while i < |records|
      invariant 0 <= i <= |records| && encoded == header + KVRecords(records[..i])
      invariant KVFits(records, |header|) == KVFits(records[i..], |encoded|)
    {
      var record := records[i];
      KVFitsStep(records, i, |encoded|);
      if |record.key| > MAX_ROW_BYTES || |ValueBytes(record.value)| > MAX_ROW_BYTES {
        return Err;
      }
      var body := AppendVar64([], |record.key|);
      body := body + record.key;
      body := body + ValueBytes(record.value);
      assert body == KVBody(record) by { KVBodyIs(record, body); }
      if |body| > MAX_ROW_BYTES || |encoded| + 4 + |body| > MAX_ROW_BYTES {
        return Err;
      }
      KVRecordsSnoc(records, i);
      KVRecordIs(record);
      Assoc(header, KVRecords(records[..i]), Little(|body|, 4) + body);
      Assoc(encoded, Little(|body|, 4), body);
      encoded := encoded + Little(|body|, 4);
      encoded := encoded + body;
      i := i + 1;
    }
    assert records[..|records|] == records && records[|records|..] == [];
    assert KVFits([], |encoded|) by { NothingFits(|encoded|); }
    return Ok(encoded);
  }

  lemma NothingFits(size: nat)
    ensures KVFits([], size)
  {
  }

  lemma KVBodyIs(record: KVRecord, body: ByteString)
    requires body == [] + Var(|record.key|) + record.key + ValueBytes(record.value)
    ensures body == KVBody(record)
  {
    assert [] + Var(|record.key|) == Var(|record.key|);
    Assoc(Var(|record.key|), record.key, ValueBytes(record.value));
  }

  /** `KVBatch.Encode`: header fields in place, records appended, length and checksum last. */
  method EncodeKVLoop(crc: Checksum, b: KVBatch) returns (r: Result<ByteString>)
    ensures r == EncodeKV(crc, b)
  {
    hide KVRecords, KVHead, KVTail, KVFrame, KVFits, Zeros;
    if |b.records| > 0x7fff_ffff {
      return Err;
    }
    var header := KVHeaderFields(b);
    var encoded := AppendKVRecords(b.records, header);
    if encoded.Err? {
      return Err;
    }
    KVTailSplits(b);
    Assoc(Zeros(9), KVHead(b), KVRecords(b.records));
    var sealed := SealKV(crc, encoded.value, KVTail(b));
    return Ok(sealed);
  }

  lemma KVRecordIs(record: KVRecord)
    ensures KVRecordBytes(record) == Little(|KVBody(record)|, 4) + KVBody(record)
  {
  }

  function Before<T>(done: seq<T>, rest: Result<(seq<T>, nat)>): Result<(seq<T>, nat)>
  {
    match rest
    case Err => Err
    case Ok((items, end)) => Ok((done + items, end))
  }

  lemma BeforeStep<T>(done: seq<T>, item: T, rest: Result<(seq<T>, nat)>)
    ensures Before(done, Before([item], rest)) == Before(done + [item], rest)
  {
    if rest.Ok? {
      assert done + ([item] + rest.value.0) == done + [item] + rest.value.0;
    }
  }

  lemma BeforeNothing<T>(rest: Result<(seq<T>, nat)>)
    ensures Before([], rest) == rest
  {
    if rest.Ok? {
      assert [] + rest.value.0 == rest.value.0;
    }
  }

  /** `DecodeKVBatch`: header checks, then `count` records that must end with the buffer. */
  method DecodeKVLoop(crc: Checksum, encoded: ByteString) returns (r: Result<KVBatch>)
    ensures r == DecodeKV(crc, encoded)
  {
    hide DecodeKVRecord, Field, Signed;
    if |encoded| < KV_HEADER || |encoded| > MAX_ROW_BYTES || encoded[4] != 0 {
      return Err;
    }
    if Field(encoded, 0, 4) != |encoded| - 4 || Field(encoded, 5, 4) != crc(encoded[9..]) % TWO_32 {
      return Err;
    }
    var count := Field(encoded, 24, 4);
    if count > |encoded| / 5 {
      return Err;
    }
    var records: seq<KVRecord>, position: nat := [], KV_HEADER;
    var i := 0;
    BeforeNothing(DecodeKVRecords(encoded, KV_HEADER, count));
    while i < count
      invariant 0 <= i <= count && position <= |encoded|
      invariant DecodeKVRecords(encoded, KV_HEADER, count) == Before(records, DecodeKVRecords(encoded, position, count - i))
    {
      var next := DecodeKVRecord(encoded, position);
      if next.Err? {
        return Err;
      }
      BeforeStep(records, next.value.0, DecodeKVRecords(encoded, next.value.1, count - i - 1));
      records := records + [next.value.0];
      position := next.value.1;
      i := i + 1;
    }
    assert records + [] == records;
    if position != |encoded| {
      return Err;
    }
    return Ok(KVBatch(Signed(Field(encoded, 9, 2), TWO_16), Signed(Field(encoded, 12, 8), TWO_64),
                      Signed(Field(encoded, 20, 4), TWO_32), records));
  }

  // ------------------------------------------------------------------- log batches

  function LogHead(h: Header, count: nat): (r: ByteString)
    ensures |r| == 23
  {
    SignedField(h.schema, 2) + ([if h.appendOnly then 1 else 0]
      + (Little(if count > 0 then count - 1 else 0, 4) + (SignedField(h.writer, 8)
      + (SignedField(h.sequence, 4) + Little(count, 4)))))
  }

  lemma LogTailSplits(h: Header, count: nat, records: ByteString)
    ensures LogTail(h, count, records) == LogHead(h, count) + records
  {
    hide SignedField, Little;
  }

  /** The fields before the checksummed part, with length and checksum still zero. */
  function LogLead(h: Header): (r: ByteString)
    ensures |r| == SchemaOffset(h.magic)
  {
    SignedField(h.baseOffset, 8) + Zeros(4) + [if h.magic == 1 then 1 else 0] + SignedField(h.commitTime, 8)
      + Epoch(h) + Zeros(4)
  }

  /** The fields up to the checksum. */
  method LogLeadFields(h: Header) returns (encoded: ByteString)
    requires h.magic == 0 || h.magic == 1
    ensures encoded == LogLead(h) + Zeros(23)
  {
    hide SignedField, Little, Zeros, Bytes.Put;
    var n := HeaderSize(h.magic);
    var base, commit := SignedField(h.baseOffset, 8), SignedField(h.commitTime, 8);
    var mark: Byte := if h.magic == 1 then 1 else 0;
    encoded := Zeros(n);
    assert [] + Zeros(n) == Zeros(n) && [] + base == base;
    PutNext([], n, base);
    encoded := Bytes.Put(encoded, 0, base);
    SkipNext(base, n - 8, 4);
    ByteNext(base + Zeros(4), n - 12, mark);
    encoded := encoded[12 := mark];
    PutNext(base + Zeros(4) + [mark], n - 13, commit);
    encoded := Bytes.Put(encoded, 13, commit);
    ghost var done := base + Zeros(4) + [mark] + commit;
    if h.magic == 1 {
      PutNext(done, n - 21, SignedField(h.leaderEpoch, 4));
      encoded := Bytes.Put(encoded, 21, SignedField(h.leaderEpoch, 4));
    } else {
      assert done + [] == done;
    }
    SkipNext(done + Epoch(h), 27, 4);
  }

  /** The fields from the schema to the record count. */
  method LogHeadFields(h: Header, count: nat, lead: ByteString) returns (encoded: ByteString)
    ensures encoded == lead + LogHead(h, count)
  {
    hide SignedField, Little, Zeros, Bytes.Put;
    var s := |lead|;
    var schema, flag := SignedField(h.schema, 2), [if h.appendOnly then 1 else 0];
    var last: ByteString := Little(if count > 0 then count - 1 else 0, 4);
    var writer, sequence, n := SignedField(h.writer, 8), SignedField(h.sequence, 4), Little(count, 4);
    encoded := lead + Zeros(23);
    PutNext(lead, 23, schema);
    encoded := Bytes.Put(encoded, s, schema);
    if h.appendOnly {
      ByteNext(lead + schema, 21, 1);
      encoded := encoded[s + 2 := 1];
    } else {
      SkipNext(lead + schema, 21, 1);
      OneZero();
    }
    ghost var done := lead + schema + flag;
    if count > 0 {
      PutNext(done, 20, last);
      encoded := Bytes.Put(encoded, s + 3, last);
    } else {
      SkipNext(done, 20, 4);
      ZeroField();
    }
    PutNext(done + last, 16, writer);
    encoded := Bytes.Put(encoded, s + 7, writer);
    PutNext(done + last + writer, 8, sequence);
    encoded := Bytes.Put(encoded, s + 15, sequence);
    PutNext(done + last + writer + sequence, 4, n);
    encoded := Bytes.Put(encoded, s + 19, n);
    NoZeros(done + last + writer + sequence + n);
    Assoc(done + last + writer, sequence, n);
    Assoc(done + last, writer, sequence + n);
    Assoc(done, last, writer + (sequence + n));
    Assoc(lead + schema, flag, last + (writer + (sequence + n)));
    Assoc(lead, schema, flag + (last + (writer + (sequence + n))));
  }

  lemma ZeroField()
    ensures Little(0, 4) == Zeros(4)
  {
    assert Little(0, 0) == [] && Little(0, 1) == [0] && Little(0, 2) == [0, 0];
    assert Little(0, 3) == [0, 0, 0];
  }

  function Glue(done: ByteString, rest: Result<ByteString>): Result<ByteString>
  {
    match rest
    case Err => Err
    case Ok(bytes) => Ok(done + bytes)
  }

  lemma GlueStep(done: ByteString, first: ByteString, rest: Result<ByteString>)
    ensures Glue(done, Glue(first, rest)) == Glue(done + first, rest)
  {
    if rest.Ok? {
      assert done + (first + rest.value) == done + first + rest.value;
    }
  }

  /** Storing length and checksum into the two zero ranges left for them. */
  lemma SealParts(base: ByteString, mark: ByteString, commit: ByteString, epoch: ByteString, tail: ByteString,
                  length: ByteString, sum: ByteString)
    requires |length| == 4 && |sum| == 4
    ensures |base + Zeros(4) + mark + commit + epoch + Zeros(4) + tail|
         == |base| + 4 + |mark| + |commit| + |epoch| + 4 + |tail|
    ensures Bytes.Put(Bytes.Put(base + Zeros(4) + mark + commit + epoch + Zeros(4) + tail, |base|, length),
                |base| + 4 + |mark| + |commit| + |epoch|, sum)
         == base + (length + (mark + (commit + (epoch + (sum + tail)))))
  {
    hide Zeros, Bytes.Put;
    var after := mark + (commit + (epoch + (Zeros(4) + tail)));
    LeftToRight(base + Zeros(4), mark, commit, epoch, Zeros(4), tail);
    PutMiddle(base, Zeros(4), after, length);
    LeftToRight(base + length, mark, commit, epoch, Zeros(4), tail);
    PutMiddle(base + length + mark + commit + epoch, Zeros(4), tail, sum);
    LeftToRight(base + length, mark, commit, epoch, sum, tail);
    Assoc(base, length, mark + (commit + (epoch + (sum + tail))));
  }

  method SealLog(crc: Checksum, h: Header, encoded: ByteString, ghost tail: ByteString) returns (r: ByteString)
    requires (h.magic == 0 || h.magic == 1) && encoded == LogLead(h) + tail
    ensures r == LogFrame(crc, h, tail)
  {
    hide SignedField, Little, Zeros, Epoch;
    var s := SchemaOffset(h.magic);
    assert encoded[s..] == tail;
    SealParts(SignedField(h.baseOffset, 8), [if h.magic == 1 then 1 else 0], SignedField(h.commitTime, 8), Epoch(h), tail,
              Little(|encoded| - 12, 4), Little(crc(tail) % TWO_32, 4));
    r := Bytes.Put(encoded, 8, Little(|encoded| - 12, 4));
    assert r[s..] == tail;
    hide Bytes.Put;
    r := Bytes.Put(r, s - 4, Little(crc(r[s..]) % TWO_32, 4));
  }

  method SealKV(crc: Checksum, encoded: ByteString, ghost tail: ByteString) returns (r: ByteString)
    requires encoded == Zeros(9) + tail
    ensures r == KVFrame(crc, tail)
  {
    hide Little, Zeros;
    assert encoded[9..] == tail;
    KVFinish(crc, tail);
    r := Bytes.Put(encoded, 0, Little(|encoded| - 4, 4));
    assert r[9..] == tail;
    hide Bytes.Put, KVFrame;
    r := Bytes.Put(r, 5, Little(crc(r[9..]) % TWO_32, 4));
  }

  lemma LeftToRight(a: ByteString, b: ByteString, c: ByteString, d: ByteString, e: ByteString, f: ByteString)
    ensures a + b + c + d + e + f == a + (b + (c + (d + (e + f))))
  {
    Assoc(a, b, c + (d + (e + f)));
    Assoc(a + b, c, d + (e + f));
    Assoc(a + b + c, d, e + f);
    Assoc(a + b + c + d, e, f);
  }

  lemma LogRecordsStep(layout: Layout, fields: seq<LogicalType>, records: seq<LogRecord>, i: nat, row: ByteString)
    requires i < |records| && 0 <= records[i].change < CHANGES && EncodeRow(layout, fields, records[i].row) == Ok(row)
    ensures LogRecords(layout, fields, records[i..])
         == Glue(Little(1 + |row|, 4) + ([records[i].change] + row), LogRecords(layout, fields, records[i + 1..]))
  {
    hide EncodeRow, Little;
    assert records[i..][0] == records[i] && records[i..][1..] == records[i + 1..];
  }

  lemma LogRecordsFail(layout: Layout, fields: seq<LogicalType>, records: seq<LogRecord>, i: nat)
    requires i < |records|
    requires records[i].change < 0 || records[i].change >= CHANGES || EncodeRow(layout, fields, records[i].row).Err?
    ensures LogRecords(layout, fields, records[i..]).Err?
  {
    hide EncodeRow, Little;
    assert records[i..][0] == records[i];
  }

  /** The records appended one after the other to the header. */
  method AppendLogRecords(layout: Layout, fields: seq<LogicalType>, records: seq<LogRecord>, header: ByteString)
    returns (r: Result<ByteString>)
    ensures r == Glue(header, LogRecords(layout, fields, records))
  {
    hide Little, EncodeRow, LogRecords, LogRecordBytes;
    var encoded := header;
    var i := 0;
    assert records[0..] == records;
    while i < |records|
      invariant 0 <= i <= |records|
      invariant Glue(header, LogRecords(layout, fields, records)) == Glue(encoded, LogRecords(layout, fields, records[i..]))
    {
      var record := records[i];
      var row := EncodeRow(layout, fields, record.row);
      if record.change < 0 || record.change >= CHANGES || row.Err? {
        LogRecordsFail(layout, fields, records, i);
        return Err;
      }
      var change: Byte := record.change;
      LogRecordsStep(layout, fields, records, i, row.value);
      GlueStep(encoded, Little(1 + |row.value|, 4) + ([change] + row.value), LogRecords(layout, fields, records[i + 1..]));
      Assoc(encoded, Little(1 + |row.value|, 4), [change] + row.value);
      Assoc(encoded + Little(1 + |row.value|, 4), [change], row.value);
      encoded := encoded + Little(1 + |row.value|, 4);
      encoded := encoded + [change];
      encoded := encoded + row.value;
      i := i + 1;
    }
    assert records[|records|..] == [];
    NoLogRecords(layout, fields);
    assert encoded + [] == encoded;
    return Ok(encoded);
  }

  lemma NoLogRecords(layout: Layout, fields: seq<LogicalType>)
    ensures LogRecords(layout, fields, []) == Ok([])
  {
  }

  /** `LogBatch.EncodeRows`. */
  method EncodeLogLoop(crc: Checksum, layout: Layout, fields: seq<LogicalType>, b: LogBatch) returns (r: Result<ByteString>)
    ensures r == EncodeLog(crc, layout, fields, b)
  {
    hide LogRecords, LogLead, LogHead, LogFrame, LogTail, Zeros;
    var h := b.header;
    if h.magic != 0 && h.magic != 1 {
      return Err;
    }
    var s := SchemaOffset(h.magic);
    var lead := LogLeadFields(h);
    assert lead[..s] == LogLead(h);
    var header := LogHeadFields(h, |b.records|, lead[..s]);
    var encoded := AppendLogRecords(layout, fields, b.records, header);
    if encoded.Err? {
      return Err;
    }
    ghost var records := LogRecords(layout, fields, b.records).value;
    LogTailSplits(h, |b.records|, records);
    Assoc(LogLead(h), LogHead(h, |b.records|), records);
    var sealed := SealLog(crc, h, encoded.value, LogTail(h, |b.records|, records));
    return Ok(sealed);
  }

  /** `DecodeLogBatchRows`. */
  method DecodeLogLoop(crc: Checksum, layout: Layout, fields: seq<LogicalType>, encoded: ByteString)
    returns (r: Result<FetchedBatch>)
    ensures r == DecodeLog(crc, layout, fields, encoded)
  {
    hide DecodeLogRecord, Field, ReadHeader, CheckHeader;
    var checked := CheckHeader(crc, encoded);
    if checked.Err? {
      return Err;
    }
    var magic := checked.value;
    var count := Field(encoded, SchemaOffset(magic) + 19, 4);
    if count > (|encoded| - HeaderSize(magic)) / 5 {
      return Err;
    }
    var h := ReadHeader(encoded, magic);
    var records: seq<FetchedRecord>, position: nat := [], HeaderSize(magic);
    var index := 0;
    BeforeNothing(DecodeLogRecords(layout, fields, h, encoded, position, 0, count));
    while index < count
      invariant 0 <= index <= count && position <= |encoded|
      invariant DecodeLogRecords(layout, fields, h, encoded, HeaderSize(magic), 0, count)
             == Before(records, DecodeLogRecords(layout, fields, h, encoded, position, index, count - index))
    {
      var next := DecodeLogRecord(layout, fields, h, encoded, position, index);
      if next.Err? {
        return Err;
      }
      BeforeStep(records, next.value.0,
                 DecodeLogRecords(layout, fields, h, encoded, next.value.1, index + 1, count - index - 1));
      records := records + [next.value.0];
      position := next.value.1;
      index := index + 1;
    }
    assert records + [] == records;
    if position != |encoded| {
      return Err;
    }
    return Ok(FetchedBatch(h, records));
  }
}
