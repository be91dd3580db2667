/**
 What a poll does to the offsets, bucket by bucket, whether it succeeds or fails. A failed poll
 hands out nothing, so a bucket whose offset it moved has lost the records in between.
 */
module ScanFailures {
  import opened Bytes
  import opened FetchDecode
  import opened ScanBounds
  import opened LogScan
  import opened ScanRuns

  /** Nobody subscribes while the poll runs. */
  predicate Calm(events: seq<Event>)
  {
    forall i :: 0 <= i < |events| ==> !events[i].Subscribe?
  }

  predicate CalmReplies(replies: seq<Reply>)
  {
    forall i :: 0 <= i < |replies| ==> Calm(replies[i].events)
  }

  /** Offsets of `s` that are still there, unmoved. */
  predicate Thinned(offsets: map<Bucket, int>, left: map<Bucket, int>)
  {
    forall b :: b in left ==> b in offsets && left[b] == offsets[b]
  }

  lemma {:induction false} MeanwhileThins(c: Config, s: Scanner, events: seq<Event>)
    requires Calm(events)
    ensures Thinned(s.offsets, Meanwhile(c, s, events).offsets)
    decreases |events|
  {
    hide DoneNow;
    if events != [] {
      MeanwhileThins(c, React(c, s, events[0]), events[1..]);
    }
  }

  /** The answer decodes, and what passes the bounds ends elsewhere than at the fetch offset. */
  predicate Moves<R>(c: Config, decode: Decoder<R>, s: Scanner, b: Bucket, from: int, reply: Reply)
  {
    reply.answer.Fetched?
    && var f := DecodeFetched(decode, from, reply.answer.bytes, true);
       f.Ok? && WithinBounds(c, s, b, f.value).2 != from
  }

  /** The buckets polled before the poll ends, from index `i` on, whose answers move them. */
  function Moved<R>(c: Config, decode: Decoder<R>, s: Scanner, snapshot: map<Bucket, int>, i: nat, replies: seq<Reply>)
    : set<Bucket>
    requires |replies| == |c.buckets| && i <= |c.buckets|
    decreases |c.buckets| - i
  {
    if i == |c.buckets| then {}
    else if Skipped(c, snapshot, c.buckets[i]) then Moved(c, decode, s, snapshot, i + 1, replies)
    else
      var b := c.buckets[i];
      var one := PollBucket(c, decode, s, b, snapshot[b], replies[i]);
      if one.Failed? then {}
      else
        (if Moves(c, decode, s, b, snapshot[b], replies[i]) then {b} else {})
        + (if one.after.done then {} else Moved(c, decode, one.after, snapshot, i + 1, replies))
  }

  /** Buckets not polled yet are where the snapshot saw them, or gone. */
  ghost predicate Untouched(c: Config, snapshot: map<Bucket, int>, offsets: map<Bucket, int>, i: nat)
    requires i <= |c.buckets|
  {
    forall j :: i <= j < |c.buckets| && c.buckets[j] in offsets ==>
      c.buckets[j] in snapshot && offsets[c.buckets[j]] == snapshot[c.buckets[j]]
  }

  /** The buckets of `moved`, and only those, left the offset they had, of those still there. */
  ghost predicate MovedExactly(before: map<Bucket, int>, after: map<Bucket, int>, moved: set<Bucket>)
  {
    forall b :: b in after ==> b in before && (after[b] != before[b] <==> b in moved)
  }

  lemma BucketMoves<R>(c: Config, decode: Decoder<R>, s: Scanner, b: Bucket, from: int, reply: Reply)
    requires Calm(reply.events) && (b in s.offsets ==> s.offsets[b] == from)
    ensures var r := PollBucket(c, decode, s, b, from, reply);
      MovedExactly(s.offsets, r.after.offsets, if r.Polled? && Moves(c, decode, s, b, from, reply) then {b} else {})
  {
    hide DecodeFetched, WithinBounds, Meanwhile, DoneNow;
    MeanwhileThins(c, s, reply.events);
  }

  /**
   Of any poll, failed or not: a bucket still subscribed at the end has left its offset if and
   only if its fetch, made before the poll ended, decoded to something that passed the bounds.
   */
  lemma {:induction false} PollMoves<R>(c: Config, decode: Decoder<R>, s: Scanner, snapshot: map<Bucket, int>, i: nat,
                                        replies: seq<Reply>)
    requires ValidConfig(c) && |replies| == |c.buckets| && i <= |c.buckets|
    requires CalmReplies(replies) && Untouched(c, snapshot, s.offsets, i)
    ensures MovedExactly(s.offsets, PollFrom(c, decode, s, snapshot, i, replies).after.offsets,
                         Moved(c, decode, s, snapshot, i, replies))
    ensures forall b :: b in Moved(c, decode, s, snapshot, i, replies) ==> b in c.buckets[i..]
    decreases |c.buckets| - i
  {
    hide PollBucket, Moves, Skipped, Calm;
    if i < |c.buckets| {
      var b := c.buckets[i];
      assert c.buckets[i..] == [b] + c.buckets[i + 1..];
      if Skipped(c, snapshot, b) {
        PollMoves(c, decode, s, snapshot, i + 1, replies);
      } else {
        assert b in snapshot by { SkipsUnsubscribed(c, snapshot, b); }
        BucketMoves(c, decode, s, b, snapshot[b], replies[i]);
        var one := PollBucket(c, decode, s, b, snapshot[b], replies[i]);
        if one.Polled? && !one.after.done {
          assert Untouched(c, snapshot, one.after.offsets, i + 1);
          PollMoves(c, decode, one.after, snapshot, i + 1, replies);
          assert b !in c.buckets[i + 1..];
        }
      }
    }
  }

  /** The poll gets as far as its first fetch. */
  predicate Begins(s: Scanner)
  {
    !s.closed && !s.done && !s.wakePending && s.offsets != map[]
  }

  /** No bucket still subscribed when the poll ends was moved by it. */
  predicate Harmless<R>(c: Config, decode: Decoder<R>, s: Scanner, replies: seq<Reply>)
    requires |replies| == |c.buckets|
  {
    Begins(s) ==> Moved(c, decode, s, s.offsets, 0, replies) !! Poll(c, decode, s, replies).after.offsets.Keys
  }

  /**
   The exact condition under which a failed poll loses nothing: every bucket still subscribed
   keeps its offset if and only if each of them fetched before the failure brought nothing that
   moves it.
   */
  lemma FailedPollKeepsOffsets<R>(c: Config, decode: Decoder<R>, s: Scanner, replies: seq<Reply>)
    requires ValidConfig(c) && |replies| == |c.buckets| && CalmReplies(replies)
    requires Poll(c, decode, s, replies).Failed?
    ensures Thinned(s.offsets, Poll(c, decode, s, replies).after.offsets) <==> Harmless(c, decode, s, replies)
  {
    hide PollFrom, Moved;
    if Begins(s) {
      PollMoves(c, decode, s, s.offsets, 0, replies);
    }
  }

  /** A scanner closed, woken or without subscriptions before the poll, and a failure of the first fetch, lose nothing. */
  lemma EarlyFailureIsHarmless<R>(c: Config, decode: Decoder<R>, s: Scanner, replies: seq<Reply>, k: nat)
    requires |replies| == |c.buckets|
    requires !Begins(s)
      || (k < |c.buckets| && (forall i :: 0 <= i < k ==> Skipped(c, s.offsets, c.buckets[i]))
          && !Skipped(c, s.offsets, c.buckets[k])
          && PollBucket(c, decode, s, c.buckets[k], s.offsets[c.buckets[k]], replies[k]).Failed?)
    ensures Harmless(c, decode, s, replies)
  {
    if Begins(s) {
      FirstFailure(c, decode, s, 0, replies, k);
    }
  }

  lemma {:induction false} FirstFailure<R>(c: Config, decode: Decoder<R>, s: Scanner, i: nat, replies: seq<Reply>, k: nat)
    requires |replies| == |c.buckets| && i <= k < |c.buckets|
    requires forall j :: i <= j < k ==> Skipped(c, s.offsets, c.buckets[j])
    requires !Skipped(c, s.offsets, c.buckets[k])
    requires PollBucket(c, decode, s, c.buckets[k], s.offsets[c.buckets[k]], replies[k]).Failed?
    ensures Moved(c, decode, s, s.offsets, i, replies) == {}
    decreases k - i
  {
    hide PollBucket, Skipped, Moves;
    if i < k {
      FirstFailure(c, decode, s, i + 1, replies, k);
    }
  }

  /** A wakeup of an open, unfinished scanner fails the next poll, before it fetches anything, and no other. */
  lemma WakeupInterruptsOnce<R>(c: Config, decode: Decoder<R>, s: Scanner, replies: seq<Reply>)
    requires |replies| == |c.buckets| && !s.closed && !s.done && !s.wakePending
    ensures var woken := React(c, s, Wake); Poll(c, decode, woken, replies) == Failed(s)
  {
  }

  /** Nothing more comes from a closed scanner: every later poll fails, whoever subscribes or wakes it. */
  lemma ClosedForGood<R>(c: Config, decode: Decoder<R>, s: Scanner, events: seq<Event>, replies: seq<Reply>)
    requires |replies| == |c.buckets|
    ensures Poll(c, decode, Meanwhile(c, React(c, s, Close), events), replies).Failed?
  {
    hide PollFrom, DoneNow;
    StaysClosed(c, React(c, s, Close), events);
  }

  lemma {:induction false} StaysClosed(c: Config, s: Scanner, events: seq<Event>)
    requires s.closed
    ensures Meanwhile(c, s, events).closed
    decreases |events|
  {
    if events != [] {
      StaysClosed(c, React(c, s, events[0]), events[1..]);
    }
  }

  /** A bucket somebody subscribed anew during its fetch stays where they put it. */
  lemma ResubscribedStays<R>(c: Config, decode: Decoder<R>, s: Scanner, b: Bucket, from: int, reply: Reply)
    requires var now := Meanwhile(c, s, reply.events); b in now.offsets && now.offsets[b] != from
    ensures var now := Meanwhile(c, s, reply.events);
      PollBucket(c, decode, s, b, from, reply).after.offsets == now.offsets
  {
    hide Meanwhile, DecodeFetched, WithinBounds;
  }

  /**
   The property fails: with an answer for the first bucket and a failure for the second, the
   poll hands out nothing and yet the first bucket has moved on.
   */
  lemma FailedPollLosesRecords<R>(c: Config, decode: Decoder<R>, first: int, second: int, bytes: ByteString)
    requires c.buckets == [0, 1] && c.rowLimit == 0 && !c.stopping && c.stops == map[]
    requires DecodeFetched(decode, first, bytes, true).Ok? && DecodeFetched(decode, first, bytes, true).value.next > first
    ensures var s := Scanner(map[0 := first, 1 := second], 0, false, false, false);
      var r := Poll(c, decode, s, [Reply(Fetched(bytes), []), Reply(Fatal, [])]);
      r.Failed? && 0 in r.after.offsets && r.after.offsets[0] > first
  {
    hide DecodeFetched, Flat, Explode;
    var s := Scanner(map[0 := first, 1 := second], 0, false, false, false);
    var replies := [Reply(Fetched(bytes), []), Reply(Fatal, [])];
    assert 0 in s.offsets && s.offsets != map[];
    var one := PollBucket(c, decode, s, 0, first, replies[0]);
    assert one.Polled? && !one.after.done;
    assert PollFrom(c, decode, one.after, s.offsets, 1, replies).Failed?;
  }
}
