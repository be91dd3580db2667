/**
 Stopping offsets: no poll hands out a record at or past a bucket's stop or moves the bucket
 past it, a poll takes all that stops and row limit leave, and a scan that is done has
 delivered every bucket's log up to its stop.
 */
module ScanStops {
  import opened Bytes
  import opened FetchDecode
  import opened ScanBounds
  import opened LogScan
  import opened ScanRuns
  import opened ScanFailures
  import opened ScanDelivery
  import ScanLimit

  // ------------------------------------------------------------- nothing past the stop

  ghost predicate AllBelow<R>(flat: seq<Delivered<R>>, stop: int)
  {
    forall i :: 0 <= i < |flat| ==> flat[i].offset < stop
  }

  /** The 64-bit difference never exceeds the real one: a wrapped one is negative. */
  lemma DistanceAtMost(stop: int, base: int)
    requires 0 <= stop && base <= MAX_INT64
    ensures Distance(stop, base) <= stop - base
  {
    var x := stop - base;
    if x < TWO_63 {
      SignedUnsigned(x, TWO_64);
      SignedOfMod(x, TWO_64);
    }
  }

  lemma BoundBelow<R>(stop: int, b: Bounded<R>, s: Segment<R>)
    requires 0 <= stop && s.base <= MAX_INT64 && (!s.arrow ==> |s.contents| == 1) && AllBelow(Flat(b.kept), stop)
    ensures AllBelow(Flat(Bound(stop, b, s).kept), stop)
  {
    hide Distance;
    DistanceAtMost(stop, s.base);
    var r := Bound(stop, b, s);
    if r.kept != b.kept {
      var last := r.kept[|b.kept|];
      assert r.kept == b.kept + [last];
      FlatConcat(b.kept, [last]);
      assert Flat([last]) == Records(last) + Flat([][..]);
      assert last.base + |last.contents| <= stop;
    }
  }

  lemma {:induction false} BoundAllBelow<R>(stop: int, b: Bounded<R>, segments: seq<Segment<R>>)
    requires 0 <= stop && AllBelow(Flat(b.kept), stop)
    requires forall k :: 0 <= k < |segments| ==>
      segments[k].base <= MAX_INT64 && (!segments[k].arrow ==> |segments[k].contents| == 1)
    ensures AllBelow(Flat(BoundAll(stop, b, segments).kept), stop)
    decreases |segments|
  {
    hide Bound, Flat, AllBelow;
    if segments != [] {
      BoundBelow(stop, b, segments[0]);
      BoundAllBelow(stop, Bound(stop, b, segments[0]), segments[1..]);
    }
  }

  predicate Ended<R>(segments: seq<Segment<R>>)
  {
    forall k :: 0 <= k < |segments| ==> End(segments[k]) <= MAX_INT64
  }

  /** Whatever a server sends, decoded records end at the largest offset at the latest. */
  lemma {:induction false} DecodedEnds<R>(decode: Decoder<R>, next: int, encoded: ByteString)
    requires DecodeFetched(decode, next, encoded, true).Ok?
    ensures Ended(DecodeFetched(decode, next, encoded, true).value.segments)
    decreases |encoded|
  {
    hide BatchSize;
    if encoded != [] {
      var (size, complete) := BatchSize(encoded).value;
      if complete {
        var s := decode(encoded[..size]).value;
        var (start, after) := BatchOffsets(s.base, |s.contents|, next).value;
        DecodedEnds(decode, after, encoded[size..]);
      }
    }
  }

  lemma {:induction false} SinglesEnd<R>(s: Segment<R>)
    requires End(s) <= MAX_INT64
    ensures forall k :: 0 <= k < |Singles(s)| ==> Singles(s)[k].base <= MAX_INT64
    decreases |s.contents|
  {
    if s.contents != [] {
      SinglesEnd(Segment(s.base + 1, s.contents[1..], false));
    }
  }

  lemma {:induction false} ExplodedEnds<R>(segments: seq<Segment<R>>)
    requires Ended(segments)
    ensures forall k :: 0 <= k < |Explode(segments)| ==> Explode(segments)[k].base <= MAX_INT64
  {
    if segments != [] {
      ExplodedEnds(segments[1..]);
      if !segments[0].arrow {
        SinglesEnd(segments[0]);
      }
    }
  }

  /** What passes the bounds of a bucket with a stop is below it, and so is where the bucket goes. */
  lemma BoundedBelow<R>(c: Config, s: Scanner, b: Bucket, f: Fetch<R>)
    requires ValidConfig(c) && b in c.stops && Ended(f.segments)
    ensures var (segments, count, next) := WithinBounds(c, s, b, f);
      AllBelow(Flat(segments), c.stops[b]) && next <= c.stops[b]
  {
    hide Flat, BoundAll, InOrder, Explode, AllBelow;
    var segments, stop := Explode(f.segments), c.stops[b];
    ExplodedEnds(f.segments);
    ExplodedRows(f.segments);
    SplitIsShuffle(segments);
    var sorted := InOrder(Rows(segments) + Arrows(segments));
    forall k | 0 <= k < |sorted|
      ensures sorted[k].base <= MAX_INT64 && (!sorted[k].arrow ==> |sorted[k].contents| == 1)
    {
      assert sorted[k] in multiset(sorted) && sorted[k] in segments;
    }
    var first := Start<R>(Remaining(c, s), f.next);
    assert AllBelow(Flat(first.kept), stop) by { NothingBelow<R>(stop); }
    BoundAllBelow(stop, first, sorted);
  }

  lemma NothingBelow<R>(stop: int)
    ensures AllBelow(Flat<R>([]), stop)
  {
  }

  /** Every record handed out for a bucket with a stop is below it. */
  ghost predicate KeptBelow<R>(c: Config, kept: seq<Kept<R>>)
  {
    forall k :: 0 <= k < |kept| && kept[k].bucket in c.stops ==>
      AllBelow(Flat(kept[k].segments), c.stops[kept[k].bucket])
  }

  lemma BucketBelow<R>(c: Config, decode: Decoder<R>, s: Scanner, b: Bucket, from: int, reply: Reply)
    requires ValidConfig(c)
    ensures var r := PollBucket(c, decode, s, b, from, reply); r.Polled? ==> KeptBelow(c, r.kept)
  {
    hide DecodeFetched, WithinBounds, Flat, Meanwhile, AllBelow;
    if reply.answer.Fetched? && b in c.stops {
      var f := DecodeFetched(decode, from, reply.answer.bytes, true);
      if f.Ok? {
        DecodedEnds(decode, from, reply.answer.bytes);
        BoundedBelow(c, s, b, f.value);
      }
    }
  }

  lemma {:induction false} PollFromBelow<R>(c: Config, decode: Decoder<R>, s: Scanner, snapshot: map<Bucket, int>,
                                            i: nat, replies: seq<Reply>)
    requires ValidConfig(c) && |replies| == |c.buckets| && i <= |c.buckets|
    ensures var r := PollFrom(c, decode, s, snapshot, i, replies); r.Polled? ==> KeptBelow(c, r.kept)
    decreases |c.buckets| - i
  {
    hide PollBucket, Skipped, AllBelow, Flat, ValidConfig;
    if i < |c.buckets| {
      var b := c.buckets[i];
      if Skipped(c, snapshot, b) {
        PollFromBelow(c, decode, s, snapshot, i + 1, replies);
      } else {
        assert b in snapshot by { SkipsUnsubscribed(c, snapshot, b); }
        BucketBelow(c, decode, s, b, snapshot[b], replies[i]);
        var one := PollBucket(c, decode, s, b, snapshot[b], replies[i]);
        if one.Polled? && !one.after.done {
          PollFromBelow(c, decode, one.after, snapshot, i + 1, replies);
        }
      }
    }
  }

  /** Whatever state the scanner is in and whatever servers answer, a poll hands out nothing at or past a stop. */
  lemma NothingPastTheStop<R>(c: Config, decode: Decoder<R>, s: Scanner, replies: seq<Reply>, k: nat, i: nat)
    requires ValidConfig(c) && |replies| == |c.buckets|
    requires var r := Poll(c, decode, s, replies);
      r.Polled? && k < |r.kept| && r.kept[k].bucket in c.stops && i < |Flat(r.kept[k].segments)|
    ensures var kept := Poll(c, decode, s, replies).kept[k]; Flat(kept.segments)[i].offset < c.stops[kept.bucket]
  {
    hide PollFrom, Flat;
    if Begins(s) {
      PollFromBelow(c, decode, s, s.offsets, 0, replies);
    }
  }

  // ----------------------------------------------------------- no bucket past its stop

  /** A bucket with a stop stays where it was or is at its stop at most. */
  ghost predicate StopsAt(c: Config, before: map<Bucket, int>, after: map<Bucket, int>)
  {
    forall b :: b in after ==> b in before && (after[b] == before[b] || (b in c.stops ==> after[b] <= c.stops[b]))
  }

  lemma BucketStops<R>(c: Config, decode: Decoder<R>, s: Scanner, b: Bucket, from: int, reply: Reply)
    requires ValidConfig(c) && Calm(reply.events)
    ensures StopsAt(c, s.offsets, PollBucket(c, decode, s, b, from, reply).after.offsets)
  {
    hide DecodeFetched, WithinBounds, Meanwhile, AllBelow, Flat, DoneNow;
    MeanwhileThins(c, s, reply.events);
    if reply.answer.Fetched? && b in c.stops {
      var f := DecodeFetched(decode, from, reply.answer.bytes, true);
      if f.Ok? {
        DecodedEnds(decode, from, reply.answer.bytes);
        BoundedBelow(c, s, b, f.value);
      }
    }
  }

  lemma {:induction false} PollStops<R>(c: Config, decode: Decoder<R>, s: Scanner, snapshot: map<Bucket, int>, i: nat,
                                        replies: seq<Reply>)
    requires ValidConfig(c) && |replies| == |c.buckets| && i <= |c.buckets| && CalmReplies(replies)
    ensures StopsAt(c, s.offsets, PollFrom(c, decode, s, snapshot, i, replies).after.offsets)
    decreases |c.buckets| - i
  {
    hide PollBucket, Skipped, ValidConfig, Calm;
    if i < |c.buckets| {
      var b := c.buckets[i];
      if Skipped(c, snapshot, b) {
        PollStops(c, decode, s, snapshot, i + 1, replies);
      } else {
        assert b in snapshot by { SkipsUnsubscribed(c, snapshot, b); }
        BucketStops(c, decode, s, b, snapshot[b], replies[i]);
        var one := PollBucket(c, decode, s, b, snapshot[b], replies[i]);
        if one.Polled? && !one.after.done {
          PollStops(c, decode, one.after, snapshot, i + 1, replies);
        }
      }
    }
  }

  /** Failed or not, a poll nobody subscribes during moves no bucket past its stop. */
  lemma PollStopsAtStops<R>(c: Config, decode: Decoder<R>, s: Scanner, replies: seq<Reply>)
    requires ValidConfig(c) && |replies| == |c.buckets| && CalmReplies(replies)
    ensures StopsAt(c, s.offsets, Poll(c, decode, s, replies).after.offsets)
  {
    hide PollFrom, CalmReplies;
    if Begins(s) {
      PollStops(c, decode, s, s.offsets, 0, replies);
    }
  }

  // ------------------------------------------------------------------------- done

  /** The row limit is reached, or every subscribed bucket has reached its stop. */
  predicate Finished(c: Config, s: Scanner)
  {
    (c.rowLimit > 0 && s.delivered >= c.rowLimit)
    || (c.stopping && s.offsets != map[] && forall b :: b in s.offsets ==> b in c.stops && c.stops[b] <= s.offsets[b])
  }

  predicate SaysDone(c: Config, s: Scanner)
  {
    s.closed || (s.done <==> Finished(c, s))
  }

  lemma {:induction false} MeanwhileSays(c: Config, s: Scanner, events: seq<Event>)
    requires SaysDone(c, s)
    ensures SaysDone(c, Meanwhile(c, s, events))
    decreases |events|
  {
    if events != [] {
      MeanwhileSays(c, React(c, s, events[0]), events[1..]);
    }
  }

  lemma BucketSays<R>(c: Config, decode: Decoder<R>, s: Scanner, b: Bucket, from: int, reply: Reply)
    requires SaysDone(c, s)
    ensures SaysDone(c, PollBucket(c, decode, s, b, from, reply).after)
  {
    hide DecodeFetched, WithinBounds, Meanwhile;
    MeanwhileSays(c, s, reply.events);
  }

  lemma {:induction false} PollSays<R>(c: Config, decode: Decoder<R>, s: Scanner, snapshot: map<Bucket, int>, i: nat,
                                       replies: seq<Reply>)
    requires |replies| == |c.buckets| && i <= |c.buckets| && SaysDone(c, s)
    ensures SaysDone(c, PollFrom(c, decode, s, snapshot, i, replies).after)
    decreases |c.buckets| - i
  {
    hide PollBucket, Skipped, SaysDone;
    if i < |c.buckets| {
      var b := c.buckets[i];
      if Skipped(c, snapshot, b) {
        PollSays(c, decode, s, snapshot, i + 1, replies);
      } else {
        assert b in snapshot by { SkipsUnsubscribed(c, snapshot, b); }
        BucketSays(c, decode, s, b, snapshot[b], replies[i]);
        var one := PollBucket(c, decode, s, b, snapshot[b], replies[i]);
        if one.Polled? && !one.after.done {
          PollSays(c, decode, one.after, snapshot, i + 1, replies);
        }
      }
    }
  }

  lemma PollSaysDone<R>(c: Config, decode: Decoder<R>, s: Scanner, replies: seq<Reply>)
    requires |replies| == |c.buckets| && SaysDone(c, s)
    ensures SaysDone(c, Poll(c, decode, s, replies).after)
  {
    hide PollFrom;
    if Begins(s) {
      PollSays(c, decode, s, s.offsets, 0, replies);
    }
  }

  lemma {:induction false} RunSaysDone<R>(c: Config, decode: Decoder<R>, run: ScanLimit.Run, steps: seq<Step>)
    requires (forall i :: 0 <= i < |steps| ==> WellFormed(c, steps[i])) && SaysDone(c, run.scanner)
    ensures SaysDone(c, ScanLimit.RunAll(c, decode, run, steps).scanner)
    decreases |steps|
  {
    hide Poll, SaysDone;
    if steps != [] {
      if steps[0].PollStep? {
        PollSaysDone(c, decode, run.scanner, steps[0].replies);
      } else {
        EventSaysDone(c, run.scanner, steps[0].event);
      }
      RunSaysDone(c, decode, ScanLimit.Apply(c, decode, run, steps[0]), steps[1..]);
    }
  }

  lemma EventSaysDone(c: Config, s: Scanner, e: Event)
    requires SaysDone(c, s)
    ensures SaysDone(c, React(c, s, e))
  {
  }

  /** In any run at all, an open scanner is done exactly when the limit or all its stops are reached. */
  lemma DoneExactlyWhen<R>(c: Config, decode: Decoder<R>, start: map<Bucket, int>, steps: seq<Step>)
    requires forall i :: 0 <= i < |steps| ==> WellFormed(c, steps[i])
    ensures var first := ScanLimit.Run(Scanner(start, 0, DoneNow(c, start, 0), false, false), 0);
      SaysDone(c, ScanLimit.RunAll(c, decode, first, steps).scanner)
  {
    hide ScanLimit.RunAll;
    RunSaysDone(c, decode, ScanLimit.Run(Scanner(start, 0, DoneNow(c, start, 0), false, false), 0), steps);
  }

  // ------------------------------------------------------------------ as far as possible

  /** Where an honest answer ends. */
  function EndOf<R>(decode: Decoder<R>, from: int, reply: Reply): int
  {
    if !reply.answer.Fetched? then from
    else
      match DecodeFetched(decode, from, reply.answer.bytes, true)
      case Ok(f) => f.next
      case Err => from
  }

  /** One bucket is taken to the end of its answer, its stop or the row limit, whichever comes first. */
  lemma BucketReaches<R(!new)>(c: Config, decode: Decoder<R>, s: Scanner, b: Bucket, log: seq<R>, from: int, reply: Reply)
    requires ValidConfig(c) && 0 <= from <= |log| < MAX_INT64 && HasRoom(c, s) && (b in c.stops ==> from < c.stops[b])
    requires reply.answer.Fetched? && Honest(decode, log, from, reply.answer.bytes)
    ensures var r := PollBucket(c, decode, s, b, from, reply);
      var now, next := Meanwhile(c, s, reply.events), Reach(c, s.delivered, b, from, EndOf(decode, from, reply));
      r.Polled? && r.after.delivered == s.delivered + (next - from) && from <= next <= |log|
      && |r.kept| == 1 && r.kept[0].bucket == b && Flat(r.kept[0].segments) == Slice(log, from, next)
      && r.after.offsets == (if b in now.offsets && now.offsets[b] == from then now.offsets[b := next] else now.offsets)
  {
    hide DecodeFetched, WithinBounds, Flat, Slice, Honest, Meanwhile, DoneNow;
    HonestDecodes(decode, log, from, reply.answer.bytes);
    var f := DecodeFetched(decode, from, reply.answer.bytes, true).value;
    BoundedDelivers(c, s, b, log, f, from);
    MeanwhileCounts(c, s, reply.events);
  }

  /** A bucket a poll has to fetch: subscribed, and below its stop if it has one. */
  predicate Wanted(c: Config, snapshot: map<Bucket, int>, b: Bucket)
  {
    b in snapshot && (b in c.stops ==> snapshot[b] < c.stops[b])
  }

  /** Every bucket to be fetched is answered with records. */
  predicate Answered(c: Config, snapshot: map<Bucket, int>, replies: seq<Reply>)
    requires |replies| == |c.buckets|
  {
    forall j :: 0 <= j < |replies| && Wanted(c, snapshot, c.buckets[j]) ==> replies[j].answer.Fetched?
  }

  /** Where the j-th bucket goes when there is no row limit. */
  function Goal<R>(c: Config, decode: Decoder<R>, snapshot: map<Bucket, int>, j: nat, replies: seq<Reply>): int
    requires |replies| == |c.buckets| && j < |c.buckets| && c.buckets[j] in snapshot
  {
    var b, from := c.buckets[j], snapshot[c.buckets[j]];
    var end := EndOf(decode, from, replies[j]);
    if !Wanted(c, snapshot, b) then from else if b in c.stops && c.stops[b] < end then c.stops[b] else end
  }

  /**
   Without a row limit, a poll takes every subscribed bucket to its stop or the end of its
   answer, whatever is dropped meanwhile, and leaves those at their stops alone.
   */
  lemma {:induction false} PollReaches<R(!new)>(c: Config, decode: Decoder<R>, logs: map<Bucket, seq<R>>, s: Scanner,
                                               snapshot: map<Bucket, int>, i: nat, replies: seq<Reply>)
    requires ValidConfig(c) && c.rowLimit == 0 && |replies| == |c.buckets| && i <= |c.buckets|
    requires ShortLogs(logs) && SnapshotFits(logs, snapshot) && HonestReplies(c, decode, logs, snapshot, replies)
    requires CalmReplies(replies) && Answered(c, snapshot, replies) && Untouched(c, snapshot, s.offsets, i)
    requires SaysDone(c, s) && ClosedEmpty(s)
    ensures var r := PollFrom(c, decode, s, snapshot, i, replies);
      r.Polled? && r.after.offsets.Keys <= s.offsets.Keys
      && (forall j :: i <= j < |c.buckets| && c.buckets[j] in r.after.offsets && c.buckets[j] in snapshot ==>
            r.after.offsets[c.buckets[j]] == Goal(c, decode, snapshot, j, replies))
      && (forall b :: b in r.after.offsets && b !in c.buckets[i..] ==> r.after.offsets[b] == s.offsets[b])
    decreases |c.buckets| - i
  {
    hide PollBucket, DecodeFetched, Calm, Honest, SaysDone, EndOf;
    if i < |c.buckets| {
      var b := c.buckets[i];
      assert c.buckets[i..] == [b] + c.buckets[i + 1..];
      if Skipped(c, snapshot, b) {
        PollReaches(c, decode, logs, s, snapshot, i + 1, replies);
        if b in s.offsets {
          assert b in snapshot && b !in c.buckets[i + 1..];
        }
      } else {
        assert Wanted(c, snapshot, b) && HasRoom(c, s);
        ReachOne(c, decode, logs, s, snapshot, i, replies);
        var one := PollBucket(c, decode, s, b, snapshot[b], replies[i]);
        if one.after.done {
          RestAtStops(c, decode, snapshot, one.after, i + 1, replies);
        } else {
          PollReaches(c, decode, logs, one.after, snapshot, i + 1, replies);
        }
        assert b !in c.buckets[i + 1..];
      }
    }
  }

  /** What `PollReaches` needs of the bucket at `i`. */
  lemma ReachOne<R(!new)>(c: Config, decode: Decoder<R>, logs: map<Bucket, seq<R>>, s: Scanner,
                          snapshot: map<Bucket, int>, i: nat, replies: seq<Reply>)
    requires ValidConfig(c) && c.rowLimit == 0 && |replies| == |c.buckets| && i < |c.buckets|
    requires ShortLogs(logs) && SnapshotFits(logs, snapshot) && HonestReplies(c, decode, logs, snapshot, replies)
    requires CalmReplies(replies) && Untouched(c, snapshot, s.offsets, i) && SaysDone(c, s)
    requires ClosedEmpty(s)
    requires Wanted(c, snapshot, c.buckets[i]) && replies[i].answer.Fetched?
    ensures var b := c.buckets[i]; var r := PollBucket(c, decode, s, b, snapshot[b], replies[i]);
      r.Polled? && r.after.offsets.Keys <= s.offsets.Keys && SaysDone(c, r.after)
      && (b in r.after.offsets ==> r.after.offsets[b] == Goal(c, decode, snapshot, i, replies))
      && (forall x :: x in r.after.offsets && x != b ==> r.after.offsets[x] == s.offsets[x])
      && ClosedEmpty(r.after) && Untouched(c, snapshot, r.after.offsets, i + 1)
  {
    hide DecodeFetched, Honest, EndOf, PollBucket, SaysDone, Meanwhile, Slice;
    var b, reply := c.buckets[i], replies[i];
    BucketReaches(c, decode, s, b, logs[b], snapshot[b], reply);
    BucketSays(c, decode, s, b, snapshot[b], reply);
    MeanwhileThins(c, s, reply.events);
    assert ClosedEmpty(PollBucket(c, decode, s, b, snapshot[b], reply).after) by {
      BucketClosed(c, decode, s, b, snapshot[b], reply);
    }
  }

  /** A done scanner's buckets are at their stops already. */
  lemma RestAtStops<R>(c: Config, decode: Decoder<R>, snapshot: map<Bucket, int>, s: Scanner, i: nat, replies: seq<Reply>)
    requires |replies| == |c.buckets| && i <= |c.buckets| && c.rowLimit == 0
    requires s.done && SaysDone(c, s) && ClosedEmpty(s) && Untouched(c, snapshot, s.offsets, i)
    ensures forall j :: i <= j < |c.buckets| && c.buckets[j] in s.offsets && c.buckets[j] in snapshot ==>
      s.offsets[c.buckets[j]] == Goal(c, decode, snapshot, j, replies)
  {
    hide EndOf;
  }

  predicate ClosedEmpty(s: Scanner)
  {
    s.closed ==> s.offsets == map[]
  }

  lemma {:induction false} MeanwhileClosed(c: Config, s: Scanner, events: seq<Event>)
    requires ClosedEmpty(s)
    ensures ClosedEmpty(Meanwhile(c, s, events))
    decreases |events|
  {
    hide DoneNow;
    if events != [] {
      MeanwhileClosed(c, React(c, s, events[0]), events[1..]);
    }
  }

  lemma BucketClosed<R>(c: Config, decode: Decoder<R>, s: Scanner, b: Bucket, from: int, reply: Reply)
    requires ClosedEmpty(s)
    ensures ClosedEmpty(PollBucket(c, decode, s, b, from, reply).after)
  {
    hide DecodeFetched, WithinBounds, Meanwhile, DoneNow;
    MeanwhileClosed(c, s, reply.events);
  }

  /** A bucket subscribed on an open scanner is wanted from that offset on, unless its stop is there; a dropped one is not. */
  lemma SubscriptionsCount(c: Config, s: Scanner, b: Bucket, offset: int)
    requires !s.closed && b in c.buckets
    ensures var r := React(c, s, Subscribe(b, offset));
      b in r.offsets && r.offsets[b] == offset && (Wanted(c, r.offsets, b) <==> (b in c.stops ==> offset < c.stops[b]))
      && forall x :: x in s.offsets && x != b ==> x in r.offsets && r.offsets[x] == s.offsets[x]
    ensures var r := React(c, s, Drop(b));
      b !in r.offsets && forall x :: x in s.offsets && x != b ==> x in r.offsets && r.offsets[x] == s.offsets[x]
  {
    hide DoneNow;
  }

  // -------------------------------------------------------------- as much as possible

  /** Records the answers hold for the buckets from index `i` on, from their offsets to their stops. */
  function Available<R>(c: Config, decode: Decoder<R>, snapshot: map<Bucket, int>, i: nat, replies: seq<Reply>): int
    requires |replies| == |c.buckets| && i <= |c.buckets|
    decreases |c.buckets| - i
  {
    if i == |c.buckets| then 0
    else
      (if c.buckets[i] in snapshot then Goal(c, decode, snapshot, i, replies) - snapshot[c.buckets[i]] else 0)
      + Available(c, decode, snapshot, i + 1, replies)
  }

  /** What the row limit lets through of `available` records. */
  function Allowance(c: Config, delivered: int, available: int): int
  {
    if c.rowLimit > 0 && c.rowLimit - delivered < available then c.rowLimit - delivered else available
  }

  /** Subscriptions from index `i` on are as the snapshot has them. */
  ghost predicate AsBefore(c: Config, snapshot: map<Bucket, int>, offsets: map<Bucket, int>, i: nat)
    requires i <= |c.buckets|
  {
    forall j :: i <= j < |c.buckets| && c.buckets[j] in snapshot ==>
      c.buckets[j] in offsets && offsets[c.buckets[j]] == snapshot[c.buckets[j]]
  }

  predicate Undisturbed(replies: seq<Reply>)
  {
    forall j :: 0 <= j < |replies| ==> replies[j].events == []
  }

  lemma {:induction false} NothingAvailable<R>(c: Config, decode: Decoder<R>, snapshot: map<Bucket, int>, s: Scanner,
                                               i: nat, replies: seq<Reply>)
    requires |replies| == |c.buckets| && i <= |c.buckets| && AsBefore(c, snapshot, s.offsets, i)
    requires forall b :: b in s.offsets ==> b in c.stops && c.stops[b] <= s.offsets[b]
    ensures Available(c, decode, snapshot, i, replies) == 0
    decreases |c.buckets| - i
  {
    hide EndOf;
    if i < |c.buckets| {
      NothingAvailable(c, decode, snapshot, s, i + 1, replies);
    }
  }

  lemma {:induction false} AvailableNotNegative<R(!new)>(c: Config, decode: Decoder<R>, logs: map<Bucket, seq<R>>,
                                                        snapshot: map<Bucket, int>, i: nat, replies: seq<Reply>)
    requires ValidConfig(c) && |replies| == |c.buckets| && i <= |c.buckets| && Answered(c, snapshot, replies)
    requires ShortLogs(logs) && SnapshotFits(logs, snapshot) && HonestReplies(c, decode, logs, snapshot, replies)
    ensures Available(c, decode, snapshot, i, replies) >= 0
    decreases |c.buckets| - i
  {
    hide EndOf, Honest, Goal;
    if i < |c.buckets| {
      AvailableNotNegative(c, decode, logs, snapshot, i + 1, replies);
      if c.buckets[i] in snapshot {
        GoalAhead(c, decode, logs, snapshot, i, replies);
      }
    }
  }

  lemma GoalAhead<R(!new)>(c: Config, decode: Decoder<R>, logs: map<Bucket, seq<R>>, snapshot: map<Bucket, int>, i: nat,
                           replies: seq<Reply>)
    requires ValidConfig(c) && |replies| == |c.buckets| && i < |c.buckets| && c.buckets[i] in snapshot
    requires ShortLogs(logs) && SnapshotFits(logs, snapshot) && HonestReplies(c, decode, logs, snapshot, replies)
    requires Answered(c, snapshot, replies)
    ensures Goal(c, decode, snapshot, i, replies) >= snapshot[c.buckets[i]]
  {
    hide DecodeFetched, Honest;
    var b := c.buckets[i];
    if Wanted(c, snapshot, b) {
      HonestDecodes(decode, logs[b], snapshot[b], replies[i].answer.bytes);
      TightAhead(logs[b], DecodeFetched(decode, snapshot[b], replies[i].answer.bytes, true).value, snapshot[b]);
    }
  }

  lemma TightAhead<R>(log: seq<R>, f: Fetch<R>, from: int)
    requires Tight(log, f.segments, from, f.next)
    ensures from <= f.next
  {
  }

  /**
   A poll nobody disturbs, all of whose buckets are answered, hands out as many records as the
   answers hold up to the stops, or as many as the row limit still allows, whichever is less.
   */
  lemma {:induction false} PollTakes<R(!new)>(c: Config, decode: Decoder<R>, logs: map<Bucket, seq<R>>, s: Scanner,
                                             snapshot: map<Bucket, int>, i: nat, replies: seq<Reply>)
    requires ValidConfig(c) && |replies| == |c.buckets| && i <= |c.buckets|
    requires ShortLogs(logs) && SnapshotFits(logs, snapshot) && HonestReplies(c, decode, logs, snapshot, replies)
    requires Undisturbed(replies) && Answered(c, snapshot, replies) && AsBefore(c, snapshot, s.offsets, i)
    requires SaysDone(c, s) && !s.closed && HasRoom(c, s)
    ensures var r := PollFrom(c, decode, s, snapshot, i, replies);
      r.Polled?
      && r.after.delivered == s.delivered + Allowance(c, s.delivered, Available(c, decode, snapshot, i, replies))
      && ScanLimit.Total(r.kept) == r.after.delivered - s.delivered
    decreases |c.buckets| - i
  {
    hide PollBucket, Honest, EndOf, Goal, ValidConfig, Available;
    AvailableStep(c, decode, snapshot, i, replies);
    if i < |c.buckets| {
      var b := c.buckets[i];
      if Skipped(c, snapshot, b) {
        PollTakes(c, decode, logs, s, snapshot, i + 1, replies);
        NotWanted(c, decode, snapshot, i, replies);
      } else {
        assert Wanted(c, snapshot, b);
        AvailableNotNegative(c, decode, logs, snapshot, i + 1, replies);
        TakeOne(c, decode, logs, s, snapshot, i, replies);
        var one := PollBucket(c, decode, s, b, snapshot[b], replies[i]);
        if one.after.done {
          DoneTakesNoMore(c, decode, snapshot, one.after, i + 1, replies);
        } else {
          PollTakes(c, decode, logs, one.after, snapshot, i + 1, replies);
          ScanLimit.TotalConcat(one.kept, PollFrom(c, decode, one.after, snapshot, i + 1, replies).kept);
        }
      }
    }
  }

  lemma AvailableStep<R>(c: Config, decode: Decoder<R>, snapshot: map<Bucket, int>, i: nat, replies: seq<Reply>)
    requires |replies| == |c.buckets| && i <= |c.buckets|
    ensures Available(c, decode, snapshot, i, replies) ==
      if i == |c.buckets| then 0
      else (if c.buckets[i] in snapshot then Goal(c, decode, snapshot, i, replies) - snapshot[c.buckets[i]] else 0)
           + Available(c, decode, snapshot, i + 1, replies)
  {
  }

  lemma NotWanted<R>(c: Config, decode: Decoder<R>, snapshot: map<Bucket, int>, i: nat, replies: seq<Reply>)
    requires |replies| == |c.buckets| && i < |c.buckets| && Skipped(c, snapshot, c.buckets[i])
    ensures c.buckets[i] in snapshot ==> Goal(c, decode, snapshot, i, replies) == snapshot[c.buckets[i]]
  {
  }

  /** When the scan is done, the row limit is used up or nothing more is available. */
  lemma DoneTakesNoMore<R>(c: Config, decode: Decoder<R>, snapshot: map<Bucket, int>, s: Scanner, i: nat,
                           replies: seq<Reply>)
    requires |replies| == |c.buckets| && i <= |c.buckets| && AsBefore(c, snapshot, s.offsets, i)
    requires s.done && !s.closed && SaysDone(c, s)
    ensures (c.rowLimit > 0 && s.delivered >= c.rowLimit) || Available(c, decode, snapshot, i, replies) == 0
  {
    hide Available;
    if !(c.rowLimit > 0 && s.delivered >= c.rowLimit) {
      NothingAvailable(c, decode, snapshot, s, i, replies);
    }
  }

  lemma TakeOne<R(!new)>(c: Config, decode: Decoder<R>, logs: map<Bucket, seq<R>>, s: Scanner,
                         snapshot: map<Bucket, int>, i: nat, replies: seq<Reply>)
    requires ValidConfig(c) && |replies| == |c.buckets| && i < |c.buckets|
    requires ShortLogs(logs) && SnapshotFits(logs, snapshot) && HonestReplies(c, decode, logs, snapshot, replies)
    requires Undisturbed(replies) && Answered(c, snapshot, replies) && AsBefore(c, snapshot, s.offsets, i)
    requires SaysDone(c, s) && !s.closed && HasRoom(c, s) && Wanted(c, snapshot, c.buckets[i])
    ensures var b := c.buckets[i]; var r := PollBucket(c, decode, s, b, snapshot[b], replies[i]);
      var more := Goal(c, decode, snapshot, i, replies) - snapshot[b];
      r.Polled? && more >= 0 && r.after.delivered == s.delivered + Allowance(c, s.delivered, more)
      && ScanLimit.Total(r.kept) == r.after.delivered - s.delivered
      && AsBefore(c, snapshot, r.after.offsets, i + 1) && SaysDone(c, r.after) && !r.after.closed
      && (!r.after.done ==> HasRoom(c, r.after))
  {
    hide DecodeFetched, Honest, EndOf, SaysDone, Slice, Flat, WithinBounds, DoneNow;
    var b, reply := c.buckets[i], replies[i];
    GoalAhead(c, decode, logs, snapshot, i, replies);
    BucketReaches(c, decode, s, b, logs[b], snapshot[b], reply);
    BucketSays(c, decode, s, b, snapshot[b], reply);
    var r := PollBucket(c, decode, s, b, snapshot[b], reply);
    assert Meanwhile(c, s, reply.events) == s;
    assert !r.after.closed;
    TotalOne(r.kept);
    if !r.after.done {
      SaysRoom(c, r.after);
    }
  }

  lemma TotalOne<R>(kept: seq<Kept<R>>)
    requires |kept| == 1
    ensures ScanLimit.Total(kept) == |Flat(kept[0].segments)|
  {
    assert kept[1..] == [];
  }

  lemma SaysRoom(c: Config, s: Scanner)
    requires SaysDone(c, s) && !s.closed && !s.done
    ensures HasRoom(c, s)
  {
  }

  // -------------------------------------------------------------------- the whole scan

  ghost predicate UpToStops(c: Config, offsets: map<Bucket, int>)
  {
    forall b :: b in offsets && b in c.stops ==> offsets[b] <= c.stops[b]
  }

  lemma {:induction false} RunStops<R(!new)>(c: Config, decode: Decoder<R>, logs: map<Bucket, seq<R>>, run: Run<R>,
                                            steps: seq<Step>)
    requires ValidConfig(c) && FineRun(c, decode, logs, run, steps)
    requires UpToStops(c, run.scanner.offsets) && SaysDone(c, run.scanner)
    ensures var r := RunAll(c, decode, logs, run, steps); UpToStops(c, r.scanner.offsets) && SaysDone(c, r.scanner)
    decreases |steps|
  {
    hide Poll, HonestReplies, Harmless, SaysDone, CalmReplies;
    if steps != [] {
      var step := steps[0];
      if step.PollStep? {
        PollStopsAtStops(c, decode, run.scanner, step.replies);
        PollSaysDone(c, decode, run.scanner, step.replies);
      } else {
        EventSaysDone(c, run.scanner, step.event);
        EventStops(c, run.scanner, step.event);
      }
      RunStops(c, decode, logs, Apply(c, decode, run, step), steps[1..]);
    }
  }

  lemma EventStops(c: Config, s: Scanner, e: Event)
    requires UpToStops(c, s.offsets) && !e.Subscribe?
    ensures UpToStops(c, React(c, s, e).offsets)
  {
    hide DoneNow;
  }

  /**
   A bounded scan that is done, with no row limit, has delivered for every bucket still
   subscribed exactly its log from the start offset up to the stopping offset, each record
   once and in order.
   */
  lemma DoneMeansDelivered<R(!new)>(c: Config, decode: Decoder<R>, logs: map<Bucket, seq<R>>, start: map<Bucket, int>,
                                    steps: seq<Step>, b: Bucket)
    requires ValidConfig(c) && c.rowLimit == 0 && ShortLogs(logs) && SnapshotFits(logs, start) && UpToStops(c, start)
    requires FineRun(c, decode, logs, NewRun<R>(c, start), steps)
    requires var s := RunAll(c, decode, logs, NewRun<R>(c, start), steps).scanner;
      s.done && !s.closed && b in s.offsets
    ensures b in c.stops && b in logs && b in start && 0 <= start[b] <= c.stops[b] <= |logs[b]|
    ensures Get(RunAll(c, decode, logs, NewRun<R>(c, start), steps).history, b) == Slice(logs[b], start[b], c.stops[b])
  {
    hide FineRun, RunAll, Slice;
    ScanDeliversTheLog(c, decode, logs, start, steps, b);
    RunStops(c, decode, logs, NewRun<R>(c, start), steps);
  }
}
