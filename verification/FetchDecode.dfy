/**
 Decoding a fetch response: batch framing with a cut tail, trimming to the fetch offset,
 and the loop over batches. What a batch's records contain is a type parameter; how a
 payload is decoded, as rows or as an Arrow batch, is a function parameter.
 */
module FetchDecode {
  import opened Bytes
  import opened RecordBatch

  const MAX_INT64 := TWO_63 - 1

  /** Consecutive records from offset `base` on: an Arrow batch, or rows of one batch. */
  datatype Segment<+R> = Segment(base: int, contents: seq<R>, arrow: bool)

  datatype Fetch<+R> = Fetch(next: int, segments: seq<Segment<R>>)

  type Decoder<R> = ByteString -> Result<Segment<R>>

  function End<R>(s: Segment<R>): int
  {
    s.base + |s.contents|
  }

  // -------------------------------------------------------------------------- framing

  /** `completeFetchedBatchSize`: the size of the first batch, if all of it is there. */
  function BatchSize(encoded: ByteString): (r: Result<(nat, bool)>)
    ensures r.Ok? && r.value.1 ==> 48 <= r.value.0 <= |encoded|
  {
    if |encoded| < 12 then Ok((0, false))
    else
      var size := 12 + Field(encoded, 8, 4);
      if size < 48 then Err
      else if size > |encoded| then Ok((0, false))
      else Ok((size, true))
  }

  /** `fetchedBatchOffsets`: how many records to drop, and the next offset. */
  function BatchOffsets(base: int, count: nat, current: int): (r: Result<(nat, int)>)
    ensures r.Ok? ==> r.value.0 <= count && current <= r.value.1
  {
    if count == 0 then Ok((0, current))
    else if base > MAX_INT64 - count then Err
    else
      var end := base + count;
      Ok((if current >= end then count else if current > base then current - base else 0,
          if end > current then end else current))
  }

  /** The segment without its first `start` records; nothing when none is left. */
  function Trim<R>(s: Segment<R>, start: nat): (r: seq<Segment<R>>)
    requires start <= |s.contents|
  {
    if start == |s.contents| then [] else [Segment(s.base + start, s.contents[start..], s.arrow)]
  }

  function Then<R>(head: seq<Segment<R>>, rest: Result<Fetch<R>>): Result<Fetch<R>>
  {
    match rest
    case Err => Err
    case Ok(f) => Ok(Fetch(f.next, head + f.segments))
  }

  /** The loop over the batches of a response; a cut tail is left for the next fetch. */
  function DecodeFetched<R>(decode: Decoder<R>, next: int, encoded: ByteString, allowTail: bool): (r: Result<Fetch<R>>)
    decreases |encoded|
  {
    if encoded == [] then Ok(Fetch(next, []))
    else
      var (size, complete) :- BatchSize(encoded);
      if !complete then (if allowTail then Ok(Fetch(next, [])) else Err)
      else
        var s :- decode(encoded[..size]);
        var (start, after) :- BatchOffsets(s.base, |s.contents|, next);
        Then(Trim(s, start), DecodeFetched(decode, after, encoded[size..], allowTail))
  }

  /** `decodeFetchedLogBatchesWithResolver`. */
  method DecodeFetchedLoop<R>(decode: Decoder<R>, fetchOffset: int, stream: ByteString, allowTail: bool)
    returns (r: Result<Fetch<R>>)
    ensures r == DecodeFetched(decode, fetchOffset, stream, allowTail)
  {
    hide BatchSize, BatchOffsets, Trim;
    var next, encoded := fetchOffset, stream;
    var segments: seq<Segment<R>> := [];
    ThenNothing(DecodeFetched(decode, next, encoded, allowTail));
    while encoded != []
      invariant DecodeFetched(decode, fetchOffset, stream, allowTail)
             == Then(segments, DecodeFetched(decode, next, encoded, allowTail))
      decreases |encoded|
    {
      var size := BatchSize(encoded);
      if size.Err? {
        return Err;
      }
      if !size.value.1 {
        if allowTail {
          assert segments + [] == segments;
          return Ok(Fetch(next, segments));
        }
        return Err;
      }
      var s := decode(encoded[..size.value.0]);
      if s.Err? {
        return Err;
      }
      var offsets := BatchOffsets(s.value.base, |s.value.contents|, next);
      if offsets.Err? {
        return Err;
      }
      var kept := Trim(s.value, offsets.value.0);
      ThenStep(segments, kept, DecodeFetched(decode, offsets.value.1, encoded[size.value.0..], allowTail));
      next := offsets.value.1;
      segments := segments + kept;
      encoded := encoded[size.value.0..];
    }
    assert segments + [] == segments;
    return Ok(Fetch(next, segments));
  }

  lemma ThenNothing<R>(rest: Result<Fetch<R>>)
    ensures Then([], rest) == rest
  {
    if rest.Ok? {
      assert [] + rest.value.segments == rest.value.segments;
    }
  }

  lemma ThenStep<R>(a: seq<Segment<R>>, b: seq<Segment<R>>, rest: Result<Fetch<R>>)
    ensures Then(a, Then(b, rest)) == Then(a + b, rest)
  {
    if rest.Ok? {
      assert a + (b + rest.value.segments) == a + b + rest.value.segments;
    }
  }

  // --------------------------------------------------------- a stream cut at any byte

  /** The length field of a batch counts what follows it. */
  predicate Framed(payload: ByteString)
  {
    48 <= |payload| && Field(payload, 8, 4) == |payload| - 12
  }

  function Stream(payloads: seq<ByteString>): ByteString
  {
    if payloads == [] then [] else payloads[0] + Stream(payloads[1..])
  }

  /** How many payloads are whole within the first `n` bytes of the stream. */
  function WholeWithin(payloads: seq<ByteString>, n: nat): (k: nat)
    ensures k <= |payloads|
  {
    if payloads == [] || |payloads[0]| > n then 0 else 1 + WholeWithin(payloads[1..], n - |payloads[0]|)
  }

  /** Decoding whole payloads one by one. */
  function DecodeAll<R>(decode: Decoder<R>, next: int, payloads: seq<ByteString>): (r: Result<Fetch<R>>)
    decreases |payloads|
  {
    if payloads == [] then Ok(Fetch(next, []))
    else
      var s :- decode(payloads[0]);
      var (start, after) :- BatchOffsets(s.base, |s.contents|, next);
      Then(Trim(s, start), DecodeAll(decode, after, payloads[1..]))
  }

  lemma FirstSize(payload: ByteString, rest: ByteString)
    requires Framed(payload)
    ensures payload + rest != [] && BatchSize(payload + rest) == Ok((|payload|, true))
    ensures (payload + rest)[..|payload|] == payload && (payload + rest)[|payload|..] == rest
  {
    assert (payload + rest)[8..12] == payload[8..12];
  }

  lemma CutSize(payload: ByteString, cut: ByteString)
    requires Framed(payload) && cut < payload
    ensures BatchSize(cut).Ok? && !BatchSize(cut).value.1
  {
    if |cut| >= 12 {
      assert cut[8..12] == payload[8..12];
    }
  }

  /** A response cut anywhere decodes as its whole batches do; the cut one is left out. */
  lemma {:induction false} CutStream<R>(decode: Decoder<R>, next: int, payloads: seq<ByteString>, n: nat)
    requires (forall p :: p in payloads ==> Framed(p)) && n <= |Stream(payloads)|
    ensures DecodeFetched(decode, next, Stream(payloads)[..n], true)
         == DecodeAll(decode, next, payloads[..WholeWithin(payloads, n)])
    decreases |payloads|
  {
    hide BatchSize, BatchOffsets, Trim, Framed;
    if payloads == [] {
      assert Stream(payloads)[..n] == [];
    } else {
      var p, rest := payloads[0], payloads[1..];
      var encoded := Stream(payloads)[..n];
      if |p| > n {
        assert encoded == p[..n];
        assert payloads[..0] == [];
        if n > 0 {
          CutSize(p, p[..n]);
        }
      } else {
        var m := n - |p|;
        var k := WholeWithin(rest, m);
        assert encoded == p + Stream(rest)[..m];
        FirstSize(p, Stream(rest)[..m]);
        assert payloads[..k + 1][0] == p && payloads[..k + 1][1..] == rest[..k];
        var s := decode(p);
        if s.Ok? {
          var offsets := BatchOffsets(s.value.base, |s.value.contents|, next);
          if offsets.Ok? {
            CutStream(decode, offsets.value.1, rest, m);
          }
        }
      }
    }
  }

  // --------------------------------------------------------------- what is delivered

  /** One delivered record. */
  datatype Delivered<+R> = Delivered(offset: int, content: R)

  function Flat<R>(segments: seq<Segment<R>>): seq<Delivered<R>>
  {
    if segments == [] then [] else Records(segments[0]) + Flat(segments[1..])
  }

  function Records<R>(s: Segment<R>): (r: seq<Delivered<R>>)
    ensures |r| == |s.contents|
  {
    seq(|s.contents|, k requires 0 <= k < |s.contents| => Delivered(s.base + k, s.contents[k]))
  }

  /** Offsets strictly increase and lie in [from, to). */
  ghost predicate Increasing<R>(records: seq<Delivered<R>>, from: int, to: int)
  {
    (forall i :: 0 <= i < |records| ==> from <= records[i].offset < to)
    && (forall i, j :: 0 <= i < j < |records| ==> records[i].offset < records[j].offset)
  }

  lemma IncreasingConcat<R>(a: seq<Delivered<R>>, b: seq<Delivered<R>>, from: int, mid: int, to: int)
    requires from <= mid <= to && Increasing(a, from, mid) && Increasing(b, mid, to)
    ensures Increasing(a + b, from, to)
  {
  }

  lemma TrimIncreasing<R>(s: Segment<R>, next: int)
    requires BatchOffsets(s.base, |s.contents|, next).Ok?
    ensures var (start, after) := BatchOffsets(s.base, |s.contents|, next).value;
      Increasing(Flat(Trim(s, start)), next, after)
  {
    var (start, after) := BatchOffsets(s.base, |s.contents|, next).value;
    FlatTrim(s, start);
  }

  lemma FlatTrim<R>(s: Segment<R>, start: nat)
    requires start <= |s.contents|
    ensures Flat(Trim(s, start)) == Records(s)[start..]
  {
    if start < |s.contents| {
      var kept := Segment(s.base + start, s.contents[start..], s.arrow);
      assert Flat([kept]) == Records(kept) + Flat([][..]);
      assert Records(kept) == Records(s)[start..];
    }
  }

  lemma {:induction false} FlatConcat<R>(a: seq<Segment<R>>, b: seq<Segment<R>>)
    ensures Flat(a + b) == Flat(a) + Flat(b)
  {
    hide Records;
    if a == [] {
      assert a + b == b;
    } else {
      assert (a + b)[0] == a[0] && (a + b)[1..] == a[1..] + b;
      FlatConcat(a[1..], b);
    }
  }

  /** Whatever order the batches come in, delivered offsets strictly increase below the next offset. */
  lemma {:induction false} AlwaysIncreasing<R>(decode: Decoder<R>, next: int, payloads: seq<ByteString>)
    requires DecodeAll(decode, next, payloads).Ok?
    ensures var f := DecodeAll(decode, next, payloads).value;
      next <= f.next && Increasing(Flat(f.segments), next, f.next)
    decreases |payloads|
  {
    hide BatchOffsets, Trim, Flat, Increasing;
    if payloads == [] {
      assert Increasing<R>([], next, next) by { NothingIncreasing<R>(next); }
      assert Flat<R>([]) == [] by { FlatNothing<R>(); }
    } else {
      var s := decode(payloads[0]).value;
      var (start, after) := BatchOffsets(s.base, |s.contents|, next).value;
      var rest := DecodeAll(decode, after, payloads[1..]).value;
      AlwaysIncreasing(decode, after, payloads[1..]);
      TrimIncreasing(s, next);
      FlatConcat(Trim(s, start), rest.segments);
      IncreasingConcat(Flat(Trim(s, start)), Flat(rest.segments), next, after, rest.next);
    }
  }

  lemma NothingIncreasing<R>(at: int)
    ensures Increasing<R>([], at, at)
  {
  }

  lemma FlatNothing<R>()
    ensures Flat<R>([]) == []
  {
  }

  // -------------------------------------------------------- everything covered, once

  /** The decoded batches in order; only their records and bases matter here. */
  ghost predicate Decodes<R>(decode: Decoder<R>, payloads: seq<ByteString>, batches: seq<Segment<R>>)
  {
    |payloads| == |batches| && forall k :: 0 <= k < |payloads| ==> decode(payloads[k]) == Ok(batches[k])
  }

  predicate NonDecreasing<R>(batches: seq<Segment<R>>)
  {
    forall i, j :: 0 <= i < j < |batches| ==> batches[i].base <= batches[j].base
  }

  predicate Covers<R>(s: Segment<R>, offset: int)
  {
    s.base <= offset < End(s)
  }

  predicate NoOverflow<R>(batches: seq<Segment<R>>)
  {
    forall k :: 0 <= k < |batches| ==> batches[k].base <= MAX_INT64 - |batches[k].contents|
  }

  /** Offset `o` is delivered, with the content some batch holds there. */
  ghost predicate Has<R>(records: seq<Delivered<R>>, o: int)
  {
    exists i :: 0 <= i < |records| && records[i].offset == o
  }

  /** All offsets from `base` to `next` are accounted for: `next` is where a batch starting no later ended. */
  ghost predicate Reached<R>(batches: seq<Segment<R>>, k: nat, from: int, next: int)
    requires k <= |batches|
  {
    next == from || exists j :: 0 <= j < k && Covers(batches[j], next - 1) && End(batches[j]) == next
  }

  lemma {:induction false} DeliversCovered<R>(
    decode: Decoder<R>, from: int, next: int, payloads: seq<ByteString>, batches: seq<Segment<R>>, k: nat)
    requires Decodes(decode, payloads, batches) && NonDecreasing(batches) && NoOverflow(batches)
    requires k <= |batches| && from <= next && Reached(batches, k, from, next)
    ensures DecodeAll(decode, next, payloads[k..]).Ok?
    ensures forall o :: (exists j :: k <= j < |batches| && Covers(batches[j], o)) && o >= from ==>
                          Has(Flat(DecodeAll(decode, next, payloads[k..]).value.segments), o)
                          || exists j :: 0 <= j < k && Covers(batches[j], o)
    decreases |batches| - k
  {
    hide Flat, Records, Trim;
    if k < |batches| {
      var s := batches[k];
      assert payloads[k..][0] == payloads[k] && payloads[k..][1..] == payloads[k + 1..];
      var (start, after) := BatchOffsets(s.base, |s.contents|, next).value;
      ReachedNext(batches, k, from, next);
      DeliversCovered(decode, from, after, payloads, batches, k + 1);
      var rest := DecodeAll(decode, after, payloads[k + 1..]).value.segments;
      var all := Trim(s, start) + rest;
      FlatConcat(Trim(s, start), rest);
      forall o | (exists j :: k <= j < |batches| && Covers(batches[j], o)) && o >= from
        ensures Has(Flat(all), o) || exists j :: 0 <= j < k && Covers(batches[j], o)
      {
        if Covers(s, o) {
          if o >= next {
            TrimHas(s, next, o);
            HasLeft(Flat(Trim(s, start)), Flat(rest), o);
          } else {
            CoveredBefore(batches, k, from, next, o);
          }
        } else {
          assert exists j :: k + 1 <= j < |batches| && Covers(batches[j], o);
          if Has(Flat(rest), o) {
            HasRight(Flat(Trim(s, start)), Flat(rest), o);
          }
        }
      }
    }
  }

  lemma HasLeft<R>(a: seq<Delivered<R>>, b: seq<Delivered<R>>, o: int)
    requires Has(a, o)
    ensures Has(a + b, o)
  {
    var i :| 0 <= i < |a| && a[i].offset == o;
    assert (a + b)[i].offset == o;
  }

  lemma HasRight<R>(a: seq<Delivered<R>>, b: seq<Delivered<R>>, o: int)
    requires Has(b, o)
    ensures Has(a + b, o)
  {
    var i :| 0 <= i < |b| && b[i].offset == o;
    assert (a + b)[|a| + i].offset == o;
  }

  lemma TrimHas<R>(s: Segment<R>, next: int, o: int)
    requires BatchOffsets(s.base, |s.contents|, next).Ok? && Covers(s, o) && o >= next
    ensures Has(Flat(Trim(s, BatchOffsets(s.base, |s.contents|, next).value.0)), o)
  {
    var (start, after) := BatchOffsets(s.base, |s.contents|, next).value;
    FlatTrim(s, start);
    assert Records(s)[start..][o - s.base - start].offset == o;
  }

  /** What a batch repeats of earlier ones, an earlier batch covers. */
  lemma CoveredBefore<R>(batches: seq<Segment<R>>, k: nat, from: int, next: int, o: int)
    requires NonDecreasing(batches) && k < |batches| && Reached(batches, k, from, next)
    requires Covers(batches[k], o) && from <= o < next
    ensures exists j :: 0 <= j < k && Covers(batches[j], o)
  {
    var j :| 0 <= j < k && Covers(batches[j], next - 1) && End(batches[j]) == next;
    assert batches[j].base <= batches[k].base;
    assert Covers(batches[j], o);
  }

  lemma ReachedNext<R>(batches: seq<Segment<R>>, k: nat, from: int, next: int)
    requires k < |batches| && NoOverflow(batches) && from <= next && Reached(batches, k, from, next)
    ensures BatchOffsets(batches[k].base, |batches[k].contents|, next).Ok?
    ensures Reached(batches, k + 1, from, BatchOffsets(batches[k].base, |batches[k].contents|, next).value.1)
  {
    var after := BatchOffsets(batches[k].base, |batches[k].contents|, next).value.1;
    if after != next {
      assert Covers(batches[k], after - 1) && End(batches[k]) == after;
    } else if next != from {
      var j :| 0 <= j < k && Covers(batches[j], next - 1) && End(batches[j]) == next;
    }
  }

  /** Only what batches hold is delivered, with its content. */
  lemma {:induction false} DeliversOnlyHeld<R>(
    decode: Decoder<R>, next: int, payloads: seq<ByteString>, batches: seq<Segment<R>>, k: nat, i: nat)
    requires Decodes(decode, payloads, batches) && k <= |batches| && DecodeAll(decode, next, payloads[k..]).Ok?
    requires i < |Flat(DecodeAll(decode, next, payloads[k..]).value.segments)|
    ensures var d := Flat(DecodeAll(decode, next, payloads[k..]).value.segments)[i];
      exists j :: k <= j < |batches| && Covers(batches[j], d.offset)
                  && batches[j].contents[d.offset - batches[j].base] == d.content
    decreases |batches| - k
  {
    hide Flat, Trim;
    if k == |batches| {
      FlatNothing<R>();
      assert false;
    }
    var s := batches[k];
    assert payloads[k..][0] == payloads[k] && payloads[k..][1..] == payloads[k + 1..];
    var (start, after) := BatchOffsets(s.base, |s.contents|, next).value;
    var rest := DecodeAll(decode, after, payloads[k + 1..]).value.segments;
    FlatConcat(Trim(s, start), rest);
    FlatTrim(s, start);
    if i < |Flat(Trim(s, start))| {
      assert Covers(batches[k], Records(s)[start + i].offset);
    } else {
      DeliversOnlyHeld(decode, after, payloads, batches, k + 1, i - |Flat(Trim(s, start))|);
    }
  }

  /** Some batch among the first `k` has a record at offset `o`. */
  ghost predicate CoveredBy<R>(batches: seq<Segment<R>>, k: nat, o: int)
    requires k <= |batches|
  {
    exists j :: 0 <= j < k && Covers(batches[j], o)
  }

  /** Some batch among the first `k` has that very record. */
  ghost predicate HeldBy<R>(batches: seq<Segment<R>>, k: nat, d: Delivered<R>)
    requires k <= |batches|
  {
    exists j :: 0 <= j < k && Covers(batches[j], d.offset) && batches[j].contents[d.offset - batches[j].base] == d.content
  }

  /**
   The fetch contract. Of any framed batches that decode, with non-decreasing base offsets, cut at any
   byte: every offset at or above the fetch offset that lies in a whole batch is delivered,
   exactly once, in increasing order, below the returned next offset, with its batch's content.
   */
  lemma FetchDeliversExactly<R>(
    decode: Decoder<R>, from: int, payloads: seq<ByteString>, batches: seq<Segment<R>>, n: nat)
    requires (forall p :: p in payloads ==> Framed(p)) && n <= |Stream(payloads)|
    requires Decodes(decode, payloads, batches) && NonDecreasing(batches) && NoOverflow(batches)
    ensures var k := WholeWithin(payloads, n); var r := DecodeFetched(decode, from, Stream(payloads)[..n], true);
      r.Ok? && Increasing(Flat(r.value.segments), from, r.value.next)
      && (forall o :: Has(Flat(r.value.segments), o) <==> o >= from && CoveredBy(batches, k, o))
      && (forall i :: 0 <= i < |Flat(r.value.segments)| ==> HeldBy(batches, k, Flat(r.value.segments)[i]))
  {
    hide Flat, DecodeAll, DecodeFetched, Stream, WholeWithin, Framed;
    var k := WholeWithin(payloads, n);
    CutStream(decode, from, payloads, n);
    var whole, held := payloads[..k], batches[..k];
    assert whole[0..] == whole;
    DeliversCovered(decode, from, from, whole, held, 0);
    AlwaysIncreasing(decode, from, whole);
    var flat := Flat(DecodeAll(decode, from, whole).value.segments);
    forall i | 0 <= i < |flat| ensures HeldBy(batches, k, flat[i]) {
      DeliversOnlyHeld(decode, from, whole, held, 0, i);
      var j :| 0 <= j < k && Covers(held[j], flat[i].offset)
               && held[j].contents[flat[i].offset - held[j].base] == flat[i].content;
      assert Covers(batches[j], flat[i].offset);
    }
    forall o | o >= from && CoveredBy(batches, k, o) ensures Has(flat, o) {
      var j :| 0 <= j < k && Covers(batches[j], o);
      assert Covers(held[j], o);
    }
    forall o | Has(flat, o) ensures o >= from && CoveredBy(batches, k, o) {
      var i :| 0 <= i < |flat| && flat[i].offset == o;
      assert HeldBy(batches, k, flat[i]);
    }
  }
}
