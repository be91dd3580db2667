/**
 The row limit over any run: failed polls, resubscriptions and servers that answer anything
 included.
 */
module ScanLimit {
  import opened Bytes
  import opened FetchDecode
  import opened ScanBounds
  import opened LogScan
  import opened ScanRuns

  // -------------------------------------------------------------- counting one fetch

  lemma BoundCount<R>(stop: int, b: Bounded<R>, s: Segment<R>)
    requires b.remaining >= 0 && (!s.arrow ==> |s.contents| == 1)
    ensures var r := Bound(stop, b, s);
      0 <= r.remaining <= b.remaining && r.delivered - b.delivered == b.remaining - r.remaining
      && |Flat(r.kept)| - |Flat(b.kept)| == b.remaining - r.remaining
  {
    var r := Bound(stop, b, s);
    assert r.kept == b.kept + r.kept[|b.kept|..];
    FlatConcat(b.kept, r.kept[|b.kept|..]);
    if r.kept == b.kept {
      assert r.kept[|b.kept|..] == [];
    } else {
      var last := r.kept[|b.kept|];
      assert r.kept[|b.kept|..] == [last];
      assert Flat([last]) == Records(last) + Flat([][..]);
    }
  }

  lemma {:induction false} BoundAllCount<R>(stop: int, b: Bounded<R>, segments: seq<Segment<R>>)
    requires b.remaining >= 0 && forall k :: 0 <= k < |segments| && !segments[k].arrow ==> |segments[k].contents| == 1
    ensures var r := BoundAll(stop, b, segments);
      0 <= r.remaining <= b.remaining && r.delivered - b.delivered == b.remaining - r.remaining
      && |Flat(r.kept)| - |Flat(b.kept)| == b.remaining - r.remaining
    decreases |segments|
  {
    hide Bound, Flat;
    if segments != [] {
      BoundCount(stop, b, segments[0]);
      BoundAllCount(stop, Bound(stop, b, segments[0]), segments[1..]);
    }
  }

  lemma {:induction false} RowsSingle<R>(segments: seq<Segment<R>>)
    requires forall k :: 0 <= k < |segments| && !segments[k].arrow ==> |segments[k].contents| == 1
    ensures forall k :: 0 <= k < |Rows(segments)| ==> !Rows(segments)[k].arrow && |Rows(segments)[k].contents| == 1
    ensures forall k :: 0 <= k < |Arrows(segments)| ==> Arrows(segments)[k].arrow
  {
    if segments != [] {
      RowsSingle(segments[1..]);
    }
  }

  /** Whatever was decoded, no more than the remaining rows pass, and they are counted right. */
  lemma BoundedCount<R>(c: Config, s: Scanner, b: Bucket, f: Fetch<R>)
    requires Remaining(c, s) >= 0
    ensures var (segments, count, next) := WithinBounds(c, s, b, f);
      count == |Flat(segments)| && (c.rowLimit > 0 ==> count <= Remaining(c, s))
  {
    hide Flat, BoundAll, InOrder, Explode;
    if c.rowLimit > 0 || c.stopping {
      var segments := Explode(f.segments);
      ExplodedRows(f.segments);
      RowsSingle(segments);
      OfInputs(Rows(segments), Arrows(segments));
      BoundAllCount(StopOf(c, b), Start<R>(Remaining(c, s), f.next), InOrder(Rows(segments) + Arrows(segments)));
      FlatNothing<R>();
    }
  }

  // ------------------------------------------------------------------------- one poll

  function Total<R>(kept: seq<Kept<R>>): nat
  {
    if kept == [] then 0 else |Flat(kept[0].segments)| + Total(kept[1..])
  }

  lemma {:induction false} TotalConcat<R>(a: seq<Kept<R>>, b: seq<Kept<R>>)
    ensures Total(a + b) == Total(a) + Total(b)
  {
    if a == [] {
      assert a + b == b;
    } else {
      assert (a + b)[0] == a[0] && (a + b)[1..] == a[1..] + b;
      TotalConcat(a[1..], b);
    }
  }

  predicate Counted(c: Config, s: Scanner)
  {
    0 <= s.delivered && (c.rowLimit > 0 ==> s.delivered <= c.rowLimit && (!s.done ==> s.delivered < c.rowLimit))
  }

  lemma {:induction false} MeanwhileCounted(c: Config, s: Scanner, events: seq<Event>)
    requires Counted(c, s)
    ensures Counted(c, Meanwhile(c, s, events)) && Meanwhile(c, s, events).delivered == s.delivered
    decreases |events|
  {
    if events != [] {
      MeanwhileCounted(c, React(c, s, events[0]), events[1..]);
    }
  }

  lemma BucketCount<R>(c: Config, decode: Decoder<R>, s: Scanner, b: Bucket, from: int, reply: Reply)
    requires Counted(c, s) && (c.rowLimit > 0 ==> s.delivered < c.rowLimit)
    ensures var r := PollBucket(c, decode, s, b, from, reply);
      Counted(c, r.after) && s.delivered + (if r.Polled? then Total(r.kept) else 0) == r.after.delivered
  {
    hide DecodeFetched, WithinBounds, Flat, Meanwhile;
    MeanwhileCounted(c, s, reply.events);
    if reply.answer.Fetched? {
      var f := DecodeFetched(decode, from, reply.answer.bytes, true);
      if f.Ok? {
        BoundedCount(c, s, b, f.value);
        var (segments, count, next) := WithinBounds(c, s, b, f.value);
        assert Total([Kept(b, segments)]) == |Flat(segments)| + Total<R>([][..]);
      }
    }
  }

  lemma {:induction false} PollCount<R>(c: Config, decode: Decoder<R>, s: Scanner, snapshot: map<Bucket, int>, i: nat,
                                        replies: seq<Reply>)
    requires |replies| == |c.buckets| && i <= |c.buckets|
    requires Counted(c, s) && (c.rowLimit > 0 ==> s.delivered < c.rowLimit)
    ensures var r := PollFrom(c, decode, s, snapshot, i, replies);
      Counted(c, r.after) && s.delivered + (if r.Polled? then Total(r.kept) else 0) <= r.after.delivered
    decreases |c.buckets| - i
  {
    hide PollBucket, Skipped;
    if i < |c.buckets| {
      var b := c.buckets[i];
      if Skipped(c, snapshot, b) {
        PollCount(c, decode, s, snapshot, i + 1, replies);
      } else {
        assert b in snapshot by { SkipsUnsubscribed(c, snapshot, b); }
        BucketCount(c, decode, s, b, snapshot[b], replies[i]);
        var one := PollBucket(c, decode, s, b, snapshot[b], replies[i]);
        if one.Polled? && !one.after.done {
          PollCount(c, decode, one.after, snapshot, i + 1, replies);
          var rest := PollFrom(c, decode, one.after, snapshot, i + 1, replies);
          if rest.Polled? {
            TotalConcat(one.kept, rest.kept);
          }
        }
      }
    }
  }

  // --------------------------------------------------------------------------- any run

  /** `returned` counts the records handed to the caller by polls that returned no error. */
  datatype Run = Run(scanner: Scanner, returned: nat)

  function Apply<R>(c: Config, decode: Decoder<R>, run: Run, step: Step): Run
    requires WellFormed(c, step)
  {
    match step
    case PollStep(replies) =>
      var r := Poll(c, decode, run.scanner, replies);
      Run(r.after, run.returned + if r.Polled? then Total(r.kept) else 0)
    case EventStep(e) => run.(scanner := React(c, run.scanner, e))
  }

  function RunAll<R>(c: Config, decode: Decoder<R>, run: Run, steps: seq<Step>): Run
    requires forall i :: 0 <= i < |steps| ==> WellFormed(c, steps[i])
    decreases |steps|
  {
    if steps == [] then run else RunAll(c, decode, Apply(c, decode, run, steps[0]), steps[1..])
  }

  lemma {:induction false} RunCount<R>(c: Config, decode: Decoder<R>, run: Run, steps: seq<Step>)
    requires (forall i :: 0 <= i < |steps| ==> WellFormed(c, steps[i])) && Counted(c, run.scanner) && run.returned <= run.scanner.delivered
    ensures var r := RunAll(c, decode, run, steps); Counted(c, r.scanner) && r.returned <= r.scanner.delivered
    decreases |steps|
  {
    hide PollFrom;
    if steps != [] {
      var s, step := run.scanner, steps[0];
      if step.PollStep? && !s.closed && !s.done && !s.wakePending && s.offsets != map[] {
        PollCount(c, decode, s, s.offsets, 0, step.replies);
      }
      RunCount(c, decode, Apply(c, decode, run, step), steps[1..]);
    }
  }

  /** In any run at all, the records handed out never exceed the row limit. */
  lemma RowLimitHolds<R>(c: Config, decode: Decoder<R>, start: map<Bucket, int>, steps: seq<Step>)
    requires c.rowLimit > 0 && forall i :: 0 <= i < |steps| ==> WellFormed(c, steps[i])
    ensures var first := Run(Scanner(start, 0, DoneNow(c, start, 0), false, false), 0);
      RunAll(c, decode, first, steps).returned <= c.rowLimit
  {
    RunCount(c, decode, Run(Scanner(start, 0, DoneNow(c, start, 0), false, false), 0), steps);
  }
}
