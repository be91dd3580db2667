/** What a scanner delivers over a whole run, polls that fail included. */
module ScanDelivery {
  import opened Bytes
  import opened FetchDecode
  import opened ScanBounds
  import opened LogScan
  import opened ScanRuns
  import opened ScanFailures

  // ---------------------------------------------------------------- one bucket, one poll

  /** How far a fetch from `from` that brings records up to `end` moves a bucket: to its stop and row limit at most. */
  function Reach(c: Config, delivered: int, b: Bucket, from: int, end: int): int
  {
    var stopped := if b in c.stops && c.stops[b] < end then c.stops[b] else end;
    if c.rowLimit > 0 && from + (c.rowLimit - delivered) < stopped then from + (c.rowLimit - delivered) else stopped
  }

  /** The row limit leaves something to deliver. */
  predicate HasRoom(c: Config, s: Scanner)
  {
    c.rowLimit > 0 ==> s.delivered < c.rowLimit
  }

  /** What passes the bounds of an honest answer: the log from `from` as far as stop and row limit allow. */
  lemma BoundedDelivers<R(!new)>(c: Config, s: Scanner, b: Bucket, log: seq<R>, f: Fetch<R>, from: int)
    requires ValidConfig(c) && Tight(log, f.segments, from, f.next) && |log| < MAX_INT64
    requires (b in c.stops ==> from < c.stops[b]) && HasRoom(c, s)
    ensures var (segments, count, next) := WithinBounds(c, s, b, f);
      next == Reach(c, s.delivered, b, from, f.next)
      && 0 <= from <= next <= |log| && Flat(segments) == Slice(log, from, next) && count == next - from
  {
    hide Flat, Tight, Explode, Bounds, Slice, Rows, Arrows;
    var segments := Explode(f.segments);
    ExplodeTight(log, f.segments, from, f.next);
    TightEnds(log, segments, from, f.next);
    TightFlat(log, segments, from, f.next);
    if c.rowLimit > 0 || c.stopping {
      ExplodedRows(f.segments);
      BoundsDeliver(log, segments, from, f.next, StopOf(c, b), Remaining(c, s));
    }
  }

  /** Bounding contiguous records keeps a contiguous front of them and ends right after it. */
  lemma BoundsDeliver<R>(log: seq<R>, segments: seq<Segment<R>>, from: int, to: int, stop: int, remaining: int)
    requires Tight(log, segments, from, to) && |log| <= MAX_INT64
    requires forall k :: 0 <= k < |segments| && !segments[k].arrow ==> |segments[k].contents| == 1
    requires 0 <= from < stop <= MAX_INT64 && remaining > 0
    ensures var r := Bounds(Rows(segments), Arrows(segments), to, stop, remaining);
      r.next == Min(Min(to, stop), from + remaining)
      && 0 <= from <= r.next <= |log| && Flat(r.kept) == Slice(log, from, r.next) && r.delivered == r.next - from
  {
    hide Flat, Tight, BoundAll, InOrder, Slice, Rows, Arrows;
    TightEnds(log, segments, from, to);
    TightFlat(log, segments, from, to);
    OrderRestored(log, segments, from, to);
    TightShape(log, segments, from, to);
    var m := BoundsExact(stop, Start<R>(remaining, to), segments);
    FrontIsSlice(log, from, to, stop, remaining, m);
    FlatNothing<R>();
    assert [] + Slice(log, from, to)[..m] == Slice(log, from, to)[..m];
  }

  lemma FrontIsSlice<R>(log: seq<R>, from: nat, to: nat, stop: int, remaining: int, m: nat)
    requires from <= to <= |log| && from < stop && remaining > 0
    requires LongestFront(Slice(log, from, to), stop, remaining, m)
    ensures from + m == Min(Min(to, stop), from + remaining)
    ensures Slice(log, from, to)[..m] == Slice(log, from, from + m) && from + m <= stop && m <= remaining && from + m <= to
    ensures m == 0 ==> from == to
    ensures m > 0 ==> Slice(log, from, to)[m - 1].offset + 1 == from + m
  {
    var all := Slice(log, from, to);
    assert all[..m] == Slice(log, from, from + m);
    if m > 0 {
      assert all[m - 1].offset < stop;
    }
    if m < |all| {
      assert all[m].offset == from + m;
    }
  }

  // ------------------------------------------------------------------------- history

  function Get<R>(history: map<Bucket, seq<Delivered<R>>>, b: Bucket): seq<Delivered<R>>
  {
    if b in history then history[b] else []
  }

  /** The returned records added to what each bucket delivered before. */
  function AddAll<R>(history: map<Bucket, seq<Delivered<R>>>, kept: seq<Kept<R>>): map<Bucket, seq<Delivered<R>>>
    decreases |kept|
  {
    if kept == [] then history
    else AddAll(history[kept[0].bucket := Get(history, kept[0].bucket) + Flat(kept[0].segments)], kept[1..])
  }

  lemma {:induction false} AddAllConcat<R>(history: map<Bucket, seq<Delivered<R>>>, a: seq<Kept<R>>, b: seq<Kept<R>>)
    ensures AddAll(history, a + b) == AddAll(AddAll(history, a), b)
    decreases |a|
  {
    if a == [] {
      assert a + b == b;
    } else {
      assert (a + b)[0] == a[0] && (a + b)[1..] == a[1..] + b;
      AddAllConcat(history[a[0].bucket := Get(history, a[0].bucket) + Flat(a[0].segments)], a[1..], b);
    }
  }

  /** One bucket's records so far are its log from its start offset to its current offset. */
  predicate InStep<R(==)>(log: seq<R>, start: int, offset: int, delivered: seq<Delivered<R>>)
  {
    0 <= start <= offset <= |log| && delivered == Slice(log, start, offset)
  }

  ghost predicate AllInStep<R>(logs: map<Bucket, seq<R>>, start: map<Bucket, int>, offsets: map<Bucket, int>,
                               history: map<Bucket, seq<Delivered<R>>>)
  {
    forall b :: b in offsets ==>
      b in logs && b in start && InStep(logs[b], start[b], offsets[b], Get(history, b))
  }

  ghost predicate ShortLogs<R>(logs: map<Bucket, seq<R>>)
  {
    forall b :: b in logs ==> |logs[b]| < MAX_INT64
  }

  // ----------------------------------------------------------------------- one bucket

  lemma BucketDelivers<R(!new)>(c: Config, decode: Decoder<R>, logs: map<Bucket, seq<R>>, start: map<Bucket, int>,
      s: Scanner, b: Bucket, reply: Reply, history: map<Bucket, seq<Delivered<R>>>, from: int)
    requires ShortLogs(logs) && AllInStep(logs, start, s.offsets, history)
    requires b in logs && 0 <= from <= |logs[b]| && (b in s.offsets ==> s.offsets[b] == from)
    requires reply.answer.Fetched? ==> Honest(decode, logs[b], from, reply.answer.bytes)
    requires ValidConfig(c) && (b in c.stops ==> from < c.stops[b]) && HasRoom(c, s) && Calm(reply.events)
    ensures var r := PollBucket(c, decode, s, b, from, reply);
      (r.Failed? || !r.after.done ==> HasRoom(c, r.after))
      && (r.Polled? ==>
            AllInStep(logs, start, r.after.offsets, AddAll(history, r.kept)) && r.after.offsets.Keys <= s.offsets.Keys
            && forall x :: x in r.after.offsets && x != b ==> r.after.offsets[x] == s.offsets[x])
  {
    hide DecodeFetched, WithinBounds, Flat, Slice, Honest, InStep, AllInStep, AddAll, DoneNow, Meanwhile;
    var left := Meanwhile(c, s, reply.events);
    MeanwhileThins(c, s, reply.events);
    MeanwhileCounts(c, s, reply.events);
    LeftInStep(logs, start, s.offsets, left.offsets, history);
    NothingAdded(history);
    assert HasRoom(c, left);
    if reply.answer.Fetched? {
      HonestDecodes(decode, logs[b], from, reply.answer.bytes);
      var f := DecodeFetched(decode, from, reply.answer.bytes, true).value;
      BoundedDelivers(c, s, b, logs[b], f, from);
      var (segments, count, next) := WithinBounds(c, s, b, f);
      BucketInStep(c, logs, start, left, b, from, next, count, segments, history);
      var after := AdvanceOffset(c, left, b, from, next, count);
      if !after.done {
        NotDone(c, after);
      }
    }
  }

  lemma NotDone(c: Config, s: Scanner)
    requires s.done == DoneNow(c, s.offsets, s.delivered) && !s.done
    ensures HasRoom(c, s)
  {
  }

  lemma LeftInStep<R>(logs: map<Bucket, seq<R>>, start: map<Bucket, int>, offsets: map<Bucket, int>,
                      left: map<Bucket, int>, history: map<Bucket, seq<Delivered<R>>>)
    requires AllInStep(logs, start, offsets, history)
    requires forall x :: x in left ==> x in offsets && left[x] == offsets[x]
    ensures AllInStep(logs, start, left, history)
  {
  }

  lemma BucketInStep<R>(c: Config, logs: map<Bucket, seq<R>>, start: map<Bucket, int>, s: Scanner, b: Bucket,
      from: int, next: int, count: int, segments: seq<Segment<R>>, history: map<Bucket, seq<Delivered<R>>>)
    requires AllInStep(logs, start, s.offsets, history)
    requires b in logs && 0 <= from <= next <= |logs[b]| && (b in s.offsets ==> s.offsets[b] == from)
    requires Flat(segments) == Slice(logs[b], from, next)
    ensures AllInStep(logs, start, AdvanceOffset(c, s, b, from, next, count).offsets, AddAll(history, [Kept(b, segments)]))
  {
    hide Flat, Slice, InStep, DoneNow;
    var after := AdvanceOffset(c, s, b, from, next, count);
    var kept := [Kept(b, segments)];
    var added := history[b := Get(history, b) + Flat(segments)];
    assert kept[1..] == [] && AddAll(history, kept) == added;
    forall x | x in after.offsets
      ensures x in logs && x in start && InStep(logs[x], start[x], after.offsets[x], Get(added, x))
    {
      assert x in s.offsets;
      if x == b {
        Stepped(logs[b], start[b], from, next, Get(history, b), Flat(segments));
      }
    }
  }

  lemma Stepped<R>(log: seq<R>, start: int, from: int, next: int, before: seq<Delivered<R>>, more: seq<Delivered<R>>)
    requires InStep(log, start, from, before) && from <= next <= |log| && more == Slice(log, from, next)
    ensures InStep(log, start, next, before + more)
  {
    SliceConcat(log, start, from, next);
  }

  // ------------------------------------------------------------------------- one poll

  ghost predicate HonestReplies<R(!new)>(c: Config, decode: Decoder<R>, logs: map<Bucket, seq<R>>, snapshot: map<Bucket, int>,
                                         replies: seq<Reply>)
    requires |replies| == |c.buckets|
  {
    forall i :: 0 <= i < |replies| && c.buckets[i] in snapshot && replies[i].answer.Fetched? ==>
      c.buckets[i] in logs && Honest(decode, logs[c.buckets[i]], snapshot[c.buckets[i]], replies[i].answer.bytes)
  }

  ghost predicate SnapshotFits<R>(logs: map<Bucket, seq<R>>, snapshot: map<Bucket, int>)
  {
    forall b :: b in snapshot ==> b in logs && 0 <= snapshot[b] <= |logs[b]|
  }

  /** A polled bucket is below its stop, or has none and its log ends below the largest offset. */
  lemma BelowStop<R>(c: Config, logs: map<Bucket, seq<R>>, snapshot: map<Bucket, int>, b: Bucket)
    requires ValidConfig(c) && ShortLogs(logs) && SnapshotFits(logs, snapshot) && !Skipped(c, snapshot, b)
    ensures b in snapshot && b in logs && 0 <= snapshot[b] <= |logs[b]| <= MAX_INT64
    ensures b in c.stops ==> snapshot[b] < c.stops[b]
  {
  }

  lemma {:induction false} PollDelivers<R(!new)>(c: Config, decode: Decoder<R>, logs: map<Bucket, seq<R>>,
      start: map<Bucket, int>, s: Scanner, snapshot: map<Bucket, int>, i: nat, replies: seq<Reply>,
      history: map<Bucket, seq<Delivered<R>>>)
    requires ValidConfig(c) && |replies| == |c.buckets| && i <= |c.buckets|
    requires ShortLogs(logs) && SnapshotFits(logs, snapshot) && AllInStep(logs, start, s.offsets, history)
    requires HonestReplies(c, decode, logs, snapshot, replies) && Untouched(c, snapshot, s.offsets, i)
    requires HasRoom(c, s) && CalmReplies(replies)
    ensures var r := PollFrom(c, decode, s, snapshot, i, replies);
      (r.Polled? ==> AllInStep(logs, start, r.after.offsets, AddAll(history, r.kept)))
      && (r.Failed? || !r.after.done ==> HasRoom(c, r.after))
    decreases |c.buckets| - i
  {
    hide PollBucket, AllInStep, AddAll, ShortLogs, SnapshotFits, HasRoom, Honest, Skipped, Calm;
    if i == |c.buckets| {
      NothingAdded(history);
    } else {
      var b := c.buckets[i];
      if Skipped(c, snapshot, b) {
        PollDelivers(c, decode, logs, start, s, snapshot, i + 1, replies, history);
      } else {
        BelowStop(c, logs, snapshot, b);
        BucketDelivers(c, decode, logs, start, s, b, replies[i], history, snapshot[b]);
        var one := PollBucket(c, decode, s, b, snapshot[b], replies[i]);
        if one.Polled? && !one.after.done {
          assert Untouched(c, snapshot, one.after.offsets, i + 1);
          PollDelivers(c, decode, logs, start, one.after, snapshot, i + 1, replies, AddAll(history, one.kept));
          var rest := PollFrom(c, decode, one.after, snapshot, i + 1, replies);
          if rest.Polled? {
            AddAllConcat(history, one.kept, rest.kept);
          }
        }
      }
    }
  }

  lemma NothingAdded<R>(history: map<Bucket, seq<Delivered<R>>>)
    ensures AddAll(history, []) == history
  {
  }

  // -------------------------------------------------------------------------- whole runs

  datatype Run<+R> = Run(scanner: Scanner, history: map<Bucket, seq<Delivered<R>>>)

  function Apply<R>(c: Config, decode: Decoder<R>, run: Run<R>, step: Step): Run<R>
    requires WellFormed(c, step)
  {
    match step
    case PollStep(replies) =>
      var r := Poll(c, decode, run.scanner, replies);
      Run(r.after, if r.Polled? then AddAll(run.history, r.kept) else run.history)
    case EventStep(e) => run.(scanner := React(c, run.scanner, e))
  }

  /** Nobody subscribes, and servers answer honestly. */
  ghost predicate Fair<R(!new)>(c: Config, decode: Decoder<R>, logs: map<Bucket, seq<R>>, run: Run<R>, step: Step)
  {
    match step
    case PollStep(replies) =>
      |replies| == |c.buckets| && CalmReplies(replies) && HonestReplies(c, decode, logs, run.scanner.offsets, replies)
    case EventStep(e) => !e.Subscribe?
  }

  /** A failed poll is one that moves no bucket still subscribed. */
  ghost predicate Fine<R(!new)>(c: Config, decode: Decoder<R>, logs: map<Bucket, seq<R>>, run: Run<R>, step: Step)
  {
    Fair(c, decode, logs, run, step)
    && (step.PollStep? && Poll(c, decode, run.scanner, step.replies).Failed? ==>
          Harmless(c, decode, run.scanner, step.replies))
  }

  ghost predicate FineRun<R(!new)>(c: Config, decode: Decoder<R>, logs: map<Bucket, seq<R>>, run: Run<R>, steps: seq<Step>)
    decreases |steps|
  {
    steps == []
    || (Fine(c, decode, logs, run, steps[0]) && FineRun(c, decode, logs, Apply(c, decode, run, steps[0]), steps[1..]))
  }

  function RunAll<R(!new)>(c: Config, decode: Decoder<R>, ghost logs: map<Bucket, seq<R>>, run: Run<R>, steps: seq<Step>): Run<R>
    requires FineRun(c, decode, logs, run, steps)
    decreases |steps|
  {
    if steps == [] then run else RunAll(c, decode, logs, Apply(c, decode, run, steps[0]), steps[1..])
  }

  ghost predicate RunInv<R>(c: Config, logs: map<Bucket, seq<R>>, start: map<Bucket, int>, run: Run<R>)
  {
    AllInStep(logs, start, run.scanner.offsets, run.history)
    && (!run.scanner.done ==> HasRoom(c, run.scanner))
  }

  /** A fair step that is no failed poll keeps delivery in step with the log. */
  lemma StepDelivers<R(!new)>(c: Config, decode: Decoder<R>, logs: map<Bucket, seq<R>>, start: map<Bucket, int>,
                              run: Run<R>, step: Step)
    requires ValidConfig(c) && ShortLogs(logs) && RunInv(c, logs, start, run) && Fair(c, decode, logs, run, step)
    requires step.PollStep? ==> Poll(c, decode, run.scanner, step.replies).Polled?
    ensures RunInv(c, logs, start, Apply(c, decode, run, step))
  {
    hide InStep, PollFrom, HonestReplies, AddAll, CalmReplies;
    var s := run.scanner;
    if step.PollStep? {
      if Begins(s) {
        InStepFits(logs, start, s.offsets, run.history);
        PollDelivers(c, decode, logs, start, s, s.offsets, 0, step.replies, run.history);
      } else {
        NothingAdded(run.history);
      }
    } else {
      var after := React(c, s, step.event);
      assert Thinned(s.offsets, after.offsets) && after.delivered == s.delivered;
      LeftInStep(logs, start, s.offsets, after.offsets, run.history);
      DoneOnlyAtLimit(c, s, step.event);
    }
  }

  /** A failed poll keeps delivery in step with the log if and only if it moved no bucket still subscribed. */
  lemma FailureExact<R(!new)>(c: Config, decode: Decoder<R>, logs: map<Bucket, seq<R>>, start: map<Bucket, int>,
                              run: Run<R>, replies: seq<Reply>)
    requires ValidConfig(c) && ShortLogs(logs) && RunInv(c, logs, start, run)
    requires Fair(c, decode, logs, run, PollStep(replies)) && Poll(c, decode, run.scanner, replies).Failed?
    ensures RunInv(c, logs, start, Apply(c, decode, run, PollStep(replies))) <==> Harmless(c, decode, run.scanner, replies)
  {
    hide InStep, PollFrom, HonestReplies, AddAll, CalmReplies, Harmless, AllInStep;
    var s := run.scanner;
    var after := Poll(c, decode, s, replies).after;
    FailedPollKeepsOffsets(c, decode, s, replies);
    FailureLeavesRows(c, decode, logs, start, run, replies);
    if Thinned(s.offsets, after.offsets) {
      LeftInStep(logs, start, s.offsets, after.offsets, run.history);
    } else {
      FailureOnlyThins(c, decode, s, replies);
      var b :| b in after.offsets && after.offsets[b] != s.offsets[b];
      SameHistorySameOffset(logs, start, s.offsets, after.offsets, run.history, b);
    }
  }

  lemma FailureLeavesRows<R(!new)>(c: Config, decode: Decoder<R>, logs: map<Bucket, seq<R>>, start: map<Bucket, int>,
                                   run: Run<R>, replies: seq<Reply>)
    requires ValidConfig(c) && ShortLogs(logs) && RunInv(c, logs, start, run)
    requires Fair(c, decode, logs, run, PollStep(replies)) && Poll(c, decode, run.scanner, replies).Failed?
    ensures var after := Poll(c, decode, run.scanner, replies).after; !after.done ==> HasRoom(c, after)
  {
    hide InStep, PollFrom, HonestReplies, AddAll, CalmReplies, AllInStep;
    var s := run.scanner;
    if Begins(s) {
      InStepFits(logs, start, s.offsets, run.history);
      PollDelivers(c, decode, logs, start, s, s.offsets, 0, replies, run.history);
    }
  }

  /** A failed poll subscribes nothing. */
  lemma FailureOnlyThins<R>(c: Config, decode: Decoder<R>, s: Scanner, replies: seq<Reply>)
    requires ValidConfig(c) && |replies| == |c.buckets| && CalmReplies(replies)
    requires Poll(c, decode, s, replies).Failed?
    ensures Poll(c, decode, s, replies).after.offsets.Keys <= s.offsets.Keys
  {
    hide PollFrom, Moved;
    if Begins(s) {
      PollMoves(c, decode, s, s.offsets, 0, replies);
    }
  }

  /** The delivered records determine the offset they reach. */
  lemma SameHistorySameOffset<R>(logs: map<Bucket, seq<R>>, start: map<Bucket, int>, before: map<Bucket, int>,
                                 after: map<Bucket, int>, history: map<Bucket, seq<Delivered<R>>>, b: Bucket)
    requires AllInStep(logs, start, before, history) && b in before && b in after && before[b] != after[b]
    ensures !AllInStep(logs, start, after, history)
  {
  }

  lemma DoneOnlyAtLimit(c: Config, s: Scanner, e: Event)
    requires !s.done ==> HasRoom(c, s)
    ensures var r := React(c, s, e); !r.done ==> HasRoom(c, r)
  {
  }

  lemma InStepFits<R>(logs: map<Bucket, seq<R>>, start: map<Bucket, int>, offsets: map<Bucket, int>,
                      history: map<Bucket, seq<Delivered<R>>>)
    requires AllInStep(logs, start, offsets, history)
    ensures SnapshotFits(logs, offsets)
  {
  }

  /**
   Over a run in which nobody resubscribes and every poll that fails moved no bucket still
   subscribed, the records delivered for a bucket are exactly those of its log from its start
   offset to its current offset: each once, in order, whatever the cuts, overlaps, limits,
   stops, wakeups and errors.
   */
  lemma {:induction false} RunDelivers<R(!new)>(c: Config, decode: Decoder<R>, logs: map<Bucket, seq<R>>,
                                               start: map<Bucket, int>, run: Run<R>, steps: seq<Step>)
    requires ValidConfig(c) && ShortLogs(logs) && RunInv(c, logs, start, run) && FineRun(c, decode, logs, run, steps)
    ensures RunInv(c, logs, start, RunAll(c, decode, logs, run, steps))
    decreases |steps|
  {
    hide RunInv, Apply, HonestReplies, Poll, Harmless;
    if steps != [] {
      FineStep(c, decode, logs, start, run, steps[0]);
      RunDelivers(c, decode, logs, start, Apply(c, decode, run, steps[0]), steps[1..]);
    }
  }

  lemma FineStep<R(!new)>(c: Config, decode: Decoder<R>, logs: map<Bucket, seq<R>>, start: map<Bucket, int>,
                          run: Run<R>, step: Step)
    requires ValidConfig(c) && ShortLogs(logs) && RunInv(c, logs, start, run) && Fine(c, decode, logs, run, step)
    ensures RunInv(c, logs, start, Apply(c, decode, run, step))
  {
    hide RunInv, Apply, HonestReplies, Poll, Harmless;
    if step.PollStep? && Poll(c, decode, run.scanner, step.replies).Failed? {
      FailureExact(c, decode, logs, start, run, step.replies);
    } else {
      StepDelivers(c, decode, logs, start, run, step);
    }
  }

  function NewRun<R>(c: Config, start: map<Bucket, int>): Run<R>
  {
    Run(Scanner(start, 0, DoneNow(c, start, 0), false, false), map[])
  }

  lemma ScanDeliversTheLog<R(!new)>(c: Config, decode: Decoder<R>, logs: map<Bucket, seq<R>>, start: map<Bucket, int>,
                                    steps: seq<Step>, b: Bucket)
    requires ValidConfig(c) && ShortLogs(logs) && SnapshotFits(logs, start)
    requires FineRun(c, decode, logs, NewRun<R>(c, start), steps)
    ensures var run := RunAll(c, decode, logs, NewRun<R>(c, start), steps);
      b in run.scanner.offsets ==>
        b in logs && b in start && 0 <= start[b] <= run.scanner.offsets[b] <= |logs[b]|
        && Get(run.history, b) == Slice(logs[b], start[b], run.scanner.offsets[b])
  {
    hide FineRun, RunAll;
    var first := NewRun<R>(c, start);
    forall x | x in start ensures InStep(logs[x], start[x], start[x], Get(first.history, x)) {
      assert Slice(logs[x], start[x], start[x]) == [];
    }
    RunDelivers(c, decode, logs, start, first, steps);
  }
}
