/** Fetching encoded row batches: the framing and the row codec put together. */
module LogFetch {
  import opened Bytes
  import opened Schema
  import opened RowCodec
  import opened RowRoundTrip
  import opened RecordBatch
  import opened LogBatch
  import opened FetchDecode

  /** What a scanner sees of a decoded payload: its base offset and its records. */
  function AsSegment(decoded: Result<FetchedBatch>): Result<Segment<FetchedRecord>>
  {
    match decoded
    case Err => Err
    case Ok(b) => Ok(Segment(b.header.baseOffset, b.records, false))
  }

  /** The row decoder a fetch uses. */
  function RowDecoder(crc: Checksum, layout: Layout, fields: seq<LogicalType>): Decoder<FetchedRecord>
  {
    payload => AsSegment(DecodeLog(crc, layout, fields, payload))
  }

  /** `payload` is the encoding of the batch, within the limit the decoder checks. */
  predicate EncodesTo(crc: Checksum, layout: Layout, fields: seq<LogicalType>, b: LogBatch, payload: ByteString)
  {
    ValidHeader(b.header) && EncodeLog(crc, layout, fields, b) == Ok(payload) && |payload| <= MAX_ROW_BYTES
  }

  /** Offset `o` is one of the batch's. */
  predicate Holds(b: LogBatch, o: int)
  {
    b.header.baseOffset <= o < b.header.baseOffset + |b.records|
  }

  /** The delivered record is the batch's record of that offset, in canonical form. */
  predicate Delivers(layout: Layout, fields: seq<LogicalType>, b: LogBatch, d: Delivered<FetchedRecord>)
  {
    Holds(b, d.offset)
    && var record := b.records[d.offset - b.header.baseOffset];
    ValidRow(fields, record.row)
    && d.content == FetchedRecord(record.change, CanonRow(layout, fields, record.row), d.offset, b.header.commitTime)
  }

  /** Every encoded log batch within the limit has the length field that the framing reads. */
  lemma EncodedIsFramed(crc: Checksum, layout: Layout, fields: seq<LogicalType>, b: LogBatch, payload: ByteString)
    requires EncodesTo(crc, layout, fields, b, payload)
    ensures Framed(payload)
  {
    hide LogFrame, LogTail, Field, LogRecords;
    var records := LogRecords(layout, fields, b.records).value;
    LogFrameReads(crc, b.header, LogTail(b.header, |b.records|, records));
  }

  /** It decodes to a segment at its base offset with all its records, in canonical form. */
  lemma EncodedDecodes(crc: Checksum, layout: Layout, fields: seq<LogicalType>, b: LogBatch, payload: ByteString)
    returns (s: Segment<FetchedRecord>)
    requires EncodesTo(crc, layout, fields, b, payload)
    ensures RowDecoder(crc, layout, fields)(payload) == Ok(s)
    ensures s.base == b.header.baseOffset && |s.contents| == |b.records|
    ensures b.header.baseOffset <= MAX_INT64 - |b.records| ==>
      forall o :: Holds(b, o) ==> Delivers(layout, fields, b, Delivered(o, s.contents[o - s.base]))
  {
    hide EncodeLog, DecodeLog, CanonRow, ValidRow, StoredLogRecords;
    LogRoundTrip(crc, layout, fields, b);
    s := Segment(b.header.baseOffset, StoredLog(layout, fields, b).records, false);
    if b.header.baseOffset <= MAX_INT64 - |b.records| {
      forall o | Holds(b, o) ensures Delivers(layout, fields, b, Delivered(o, s.contents[o - s.base])) {
        StoredRecordAt(layout, fields, b.header, b.records, 0, o - b.header.baseOffset);
        InRange(o);
      }
    }
  }

  lemma InRange(o: int)
    requires -TWO_63 <= o < TWO_63
    ensures Signed(o, TWO_64) == o
  {
    SignedUnsigned(o, TWO_64);
    SignedOfMod(o, TWO_64);
  }

  ghost predicate AllEncoded(crc: Checksum, layout: Layout, fields: seq<LogicalType>, batches: seq<LogBatch>,
                             payloads: seq<ByteString>)
  {
    |payloads| == |batches|
    && forall k :: 0 <= k < |batches| ==> EncodesTo(crc, layout, fields, batches[k], payloads[k])
  }

  /** Batches in offset order whose offsets stay below the 64-bit end. */
  predicate InOffsetOrder(batches: seq<LogBatch>)
  {
    (forall i, j :: 0 <= i < j < |batches| ==> batches[i].header.baseOffset <= batches[j].header.baseOffset)
    && (forall k :: 0 <= k < |batches| ==> batches[k].header.baseOffset <= MAX_INT64 - |batches[k].records|)
  }

  /** `s` is what the batch comes back as. */
  ghost predicate Represents(layout: Layout, fields: seq<LogicalType>, b: LogBatch, s: Segment<FetchedRecord>)
  {
    s.base == b.header.baseOffset && |s.contents| == |b.records|
    && forall o :: Holds(b, o) ==> Delivers(layout, fields, b, Delivered(o, s.contents[o - s.base]))
  }

  lemma {:induction false} AllDecode(crc: Checksum, layout: Layout, fields: seq<LogicalType>, batches: seq<LogBatch>,
                                     payloads: seq<ByteString>) returns (held: seq<Segment<FetchedRecord>>)
    requires AllEncoded(crc, layout, fields, batches, payloads)
    requires forall k :: 0 <= k < |batches| ==> batches[k].header.baseOffset <= MAX_INT64 - |batches[k].records|
    ensures Decodes(RowDecoder(crc, layout, fields), payloads, held)
    ensures forall k :: 0 <= k < |batches| ==> Framed(payloads[k]) && Represents(layout, fields, batches[k], held[k])
  {
    hide EncodesTo, RowDecoder, Framed, Delivers;
    if batches == [] {
      held := [];
    } else {
      var rest := AllDecode(crc, layout, fields, batches[1..], payloads[1..]);
      assert EncodesTo(crc, layout, fields, batches[0], payloads[0]);
      EncodedIsFramed(crc, layout, fields, batches[0], payloads[0]);
      var first := EncodedDecodes(crc, layout, fields, batches[0], payloads[0]);
      held := [first] + rest;
      forall k | 0 <= k < |batches|
        ensures Framed(payloads[k]) && Represents(layout, fields, batches[k], held[k])
        ensures RowDecoder(crc, layout, fields)(payloads[k]) == Ok(held[k])
      {
        if k > 0 {
          assert payloads[1..][k - 1] == payloads[k] && batches[1..][k - 1] == batches[k] && held[k] == rest[k - 1];
        }
      }
    }
  }

  /** Some batch among the first `k` has offset `o`. */
  ghost predicate HeldIn(batches: seq<LogBatch>, k: nat, o: int)
    requires k <= |batches|
  {
    exists j :: 0 <= j < k && Holds(batches[j], o)
  }

  /** Some batch among the first `k` is where the delivered record comes from. */
  ghost predicate DeliveredBy(layout: Layout, fields: seq<LogicalType>, batches: seq<LogBatch>, k: nat,
                              d: Delivered<FetchedRecord>)
    requires k <= |batches|
  {
    exists j :: 0 <= j < k && Delivers(layout, fields, batches[j], d)
  }

  /** What a fetch of the first `k` batches from `from` on must deliver. */
  ghost predicate DeliversAll(layout: Layout, fields: seq<LogicalType>, batches: seq<LogBatch>, k: nat, from: int,
                              next: int, flat: seq<Delivered<FetchedRecord>>)
    requires k <= |batches|
  {
    Increasing(flat, from, next)
    && (forall o :: Has(flat, o) <==> o >= from && HeldIn(batches, k, o))
    && (forall i :: 0 <= i < |flat| ==> DeliveredBy(layout, fields, batches, k, flat[i]))
  }

  /**
   Encode any row batches of non-decreasing offsets, cut their bytes anywhere, and fetch from
   any offset: every offset from there on that lies in a whole batch is delivered, once, in
   increasing order, below the next offset, and its record is the encoded one in canonical form.
   */
  lemma EncodedFetchDelivers(crc: Checksum, layout: Layout, fields: seq<LogicalType>, batches: seq<LogBatch>,
                             payloads: seq<ByteString>, from: int, n: nat)
    requires AllEncoded(crc, layout, fields, batches, payloads) && InOffsetOrder(batches)
    requires n <= |Stream(payloads)|
    ensures var r := DecodeFetched(RowDecoder(crc, layout, fields), from, Stream(payloads)[..n], true);
      r.Ok? && DeliversAll(layout, fields, batches, WholeWithin(payloads, n), from, r.value.next, Flat(r.value.segments))
  {
    hide Framed, DecodeFetched, Flat, Stream, WholeWithin, Increasing, Delivers, RowDecoder, EncodesTo;
    var decode := RowDecoder(crc, layout, fields);
    var held := AllDecode(crc, layout, fields, batches, payloads);
    assert NonDecreasing(held) && NoOverflow(held);
    FetchDeliversExactly(decode, from, payloads, held, n);
    var k := WholeWithin(payloads, n);
    var r := DecodeFetched(decode, from, Stream(payloads)[..n], true).value;
    Transfer(layout, fields, batches, held, k, from, r.next, Flat(r.segments));
  }

  /** What holds of the decoded segments holds of the batches they represent. */
  lemma Transfer(layout: Layout, fields: seq<LogicalType>, batches: seq<LogBatch>, held: seq<Segment<FetchedRecord>>,
                 k: nat, from: int, next: int, flat: seq<Delivered<FetchedRecord>>)
    requires k <= |batches| == |held| && Increasing(flat, from, next)
    requires forall j :: 0 <= j < |batches| ==> Represents(layout, fields, batches[j], held[j])
    requires forall o :: Has(flat, o) <==> o >= from && CoveredBy(held, k, o)
    requires forall i :: 0 <= i < |flat| ==> HeldBy(held, k, flat[i])
    ensures DeliversAll(layout, fields, batches, k, from, next, flat)
  {
    hide Delivers, Increasing, Has, CoveredBy, HeldIn, HeldBy, DeliveredBy, Represents;
    forall o ensures CoveredBy(held, k, o) <==> HeldIn(batches, k, o) {
      TransferOffset(layout, fields, batches, held, k, o);
    }
    forall i | 0 <= i < |flat| ensures DeliveredBy(layout, fields, batches, k, flat[i]) {
      TransferRecord(layout, fields, batches, held, k, flat[i]);
    }
  }

  lemma TransferOffset(layout: Layout, fields: seq<LogicalType>, batches: seq<LogBatch>,
                       held: seq<Segment<FetchedRecord>>, k: nat, o: int)
    requires k <= |batches| == |held|
    requires forall j :: 0 <= j < |batches| ==> Represents(layout, fields, batches[j], held[j])
    ensures CoveredBy(held, k, o) <==> HeldIn(batches, k, o)
  {
    hide Delivers;
    if CoveredBy(held, k, o) {
      var j :| 0 <= j < k && Covers(held[j], o);
      assert Represents(layout, fields, batches[j], held[j]) && Holds(batches[j], o);
    }
    if HeldIn(batches, k, o) {
      var j :| 0 <= j < k && Holds(batches[j], o);
      assert Represents(layout, fields, batches[j], held[j]) && Covers(held[j], o);
    }
  }

  lemma TransferRecord(layout: Layout, fields: seq<LogicalType>, batches: seq<LogBatch>,
                       held: seq<Segment<FetchedRecord>>, k: nat, d: Delivered<FetchedRecord>)
    requires k <= |batches| == |held|
    requires forall j :: 0 <= j < |batches| ==> Represents(layout, fields, batches[j], held[j])
    requires HeldBy(held, k, d)
    ensures DeliveredBy(layout, fields, batches, k, d)
  {
    hide Delivers;
    var j :| 0 <= j < k && Covers(held[j], d.offset) && held[j].contents[d.offset - held[j].base] == d.content;
    assert Represents(layout, fields, batches[j], held[j]) && Holds(batches[j], d.offset);
    assert d == Delivered(d.offset, held[j].contents[d.offset - held[j].base]);
  }
}
