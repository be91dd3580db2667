/** Polling: the scanner's state, what others may do to it, and one poll over all buckets. */
module ScanRuns {
  import opened Bytes
  import opened FetchDecode
  import opened ScanBounds
  import opened LogScan

  // ------------------------------------------------------------------------- scanner

  /** A row limit of zero is none; `stops` is empty unless stopping offsets are configured. */
  datatype Config = Config(buckets: seq<Bucket>, rowLimit: nat, stopping: bool, stops: map<Bucket, int>)

  predicate ValidConfig(c: Config)
  {
    (forall i, j :: 0 <= i < j < |c.buckets| ==> c.buckets[i] != c.buckets[j])
    && (!c.stopping ==> c.stops == map[])
    && (c.stopping ==> c.stops.Keys == set b | b in c.buckets)
    && (forall b :: b in c.stops ==> 0 <= c.stops[b] <= MAX_INT64)
  }

  datatype Scanner = Scanner(offsets: map<Bucket, int>, delivered: int, done: bool, closed: bool, wakePending: bool)

  /** What other goroutines may do to the scanner, between polls and during the fetches of one. */
  datatype Event = Drop(bucket: Bucket) | Subscribe(bucket: Bucket, offset: int) | Wake | Close

  /** What a fetch brings: bytes; a failed fetch; or the end of the caller's context or of a projection. */
  datatype Answer = Fetched(bytes: ByteString) | Broken | Fatal

  /** The answer, and what others did while the fetch was under way. */
  datatype Reply = Reply(answer: Answer, events: seq<Event>)

  datatype Kept<+R> = Kept(bucket: Bucket, segments: seq<Segment<R>>)

  /** A failed poll hands out nothing, but the scanner keeps the offsets it reached. */
  datatype Outcome<+R> = Polled(after: Scanner, kept: seq<Kept<R>>) | Failed(after: Scanner)

  function StopOf(c: Config, b: Bucket): int
  {
    if b in c.stops then c.stops[b] else MAX_INT64
  }

  function Remaining(c: Config, s: Scanner): int
  {
    if c.rowLimit > 0 then c.rowLimit - s.delivered else MAX_INT64
  }

  /** `updateDoneLocked`. */
  predicate DoneNow(c: Config, offsets: map<Bucket, int>, delivered: int)
  {
    (c.rowLimit > 0 && delivered >= c.rowLimit)
    || (c.stopping && offsets != map[] && forall b :: b in offsets ==> b in c.stops && offsets[b] >= c.stops[b])
  }

  function Update(c: Config, s: Scanner, offsets: map<Bucket, int>, delivered: int): Scanner
  {
    s.(offsets := offsets, delivered := delivered, done := DoneNow(c, offsets, delivered))
  }

  function React(c: Config, s: Scanner, e: Event): Scanner
  {
    match e
    case Drop(b) => Update(c, s, s.offsets - {b}, s.delivered)
    case Subscribe(b, offset) =>
      if s.closed || b !in c.buckets then s else Update(c, s, s.offsets[b := offset], s.delivered)
    case Wake => if !s.closed && !s.done then s.(wakePending := true) else s
    case Close => s.(closed := true, offsets := map[])
  }

  function Meanwhile(c: Config, s: Scanner, events: seq<Event>): Scanner
    decreases |events|
  {
    if events == [] then s else Meanwhile(c, React(c, s, events[0]), events[1..])
  }

  /** The decoded records within the bounds, how many there are, and the next offset. */
  function WithinBounds<R>(c: Config, s: Scanner, b: Bucket, f: Fetch<R>): (seq<Segment<R>>, int, int)
  {
    var segments := Explode(f.segments);
    if c.rowLimit == 0 && !c.stopping then (segments, |Flat(segments)|, f.next)
    else
      var r := Bounds(Rows(segments), Arrows(segments), f.next, StopOf(c, b), Remaining(c, s));
      (r.kept, r.delivered, r.next)
  }

  /** `advanceOffset`: only if nobody moved the bucket meanwhile. */
  function AdvanceOffset(c: Config, s: Scanner, b: Bucket, previous: int, next: int, delivered: int): Scanner
  {
    var offsets := if b in s.offsets && s.offsets[b] == previous then s.offsets[b := next] else s.offsets;
    Update(c, s, offsets, s.delivered + delivered)
  }

  /** A failed fetch ends the poll if the scanner was closed or woken, and is the bucket's own error otherwise. */
  function FetchError<R>(s: Scanner): Outcome<R>
  {
    if s.closed || s.wakePending then Failed(s.(wakePending := false)) else Polled(s, [])
  }

  function PollBucket<R>(c: Config, decode: Decoder<R>, s: Scanner, b: Bucket, offset: int, reply: Reply): Outcome<R>
  {
    var now := Meanwhile(c, s, reply.events);
    match reply.answer
    case Fatal => Failed(now)
    case Broken => FetchError(now)
    case Fetched(bytes) =>
      match DecodeFetched(decode, offset, bytes, true)
      case Err => Polled(now, [])
      case Ok(f) =>
        var (segments, delivered, next) := WithinBounds(c, s, b, f);
        Polled(AdvanceOffset(c, now, b, offset, next, delivered), [Kept(b, segments)])
  }

  predicate Skipped(c: Config, snapshot: map<Bucket, int>, b: Bucket)
  {
    b !in snapshot || (b in c.stops && snapshot[b] >= c.stops[b])
  }

  lemma SkipsUnsubscribed(c: Config, snapshot: map<Bucket, int>, b: Bucket)
    requires !Skipped(c, snapshot, b)
    ensures b in snapshot
  {
  }

  /** The loop of `Poll` from bucket index `i` on. */
  function PollFrom<R>(c: Config, decode: Decoder<R>, s: Scanner, snapshot: map<Bucket, int>, i: nat, replies: seq<Reply>)
    : (r: Outcome<R>)
    requires |replies| == |c.buckets| && i <= |c.buckets|
    decreases |c.buckets| - i
  {
    if i == |c.buckets| then Polled(s, [])
    else if Skipped(c, snapshot, c.buckets[i]) then PollFrom(c, decode, s, snapshot, i + 1, replies)
    else
      match PollBucket(c, decode, s, c.buckets[i], snapshot[c.buckets[i]], replies[i])
      case Failed(after) => Failed(after)
      case Polled(after, kept) =>
        if after.done then Polled(after, kept)
        else After(kept, PollFrom(c, decode, after, snapshot, i + 1, replies))
  }

  function After<R>(kept: seq<Kept<R>>, rest: Outcome<R>): Outcome<R>
  {
    match rest
    case Failed(s) => Failed(s)
    case Polled(s, more) => Polled(s, kept + more)
  }

  function Poll<R>(c: Config, decode: Decoder<R>, s: Scanner, replies: seq<Reply>): (r: Outcome<R>)
    requires |replies| == |c.buckets|
  {
    if s.closed then Failed(s)
    else if s.done then Polled(s, [])
    else if s.wakePending then Failed(s.(wakePending := false))
    else if s.offsets == map[] then Failed(s)
    else PollFrom(c, decode, s, s.offsets, 0, replies)
  }

  /** A run is polls, and what others do between them. */
  datatype Step = PollStep(replies: seq<Reply>) | EventStep(event: Event)

  predicate WellFormed(c: Config, step: Step)
  {
    step.PollStep? ==> |step.replies| == |c.buckets|
  }

  // -------------------------------------------------------------------- the class

  /** `LogScanner`: the fields a poll updates. */
  class LogScanner<R> {
    const c: Config
    const decode: Decoder<R>
    var offset: map<Bucket, int>
    var delivered: int
    var done: bool
    var closed: bool
    var wakePending: bool

    ghost function State(): Scanner
      reads this
    {
      Scanner(offset, delivered, done, closed, wakePending)
    }

    constructor (config: Config, decoder: Decoder<R>, start: map<Bucket, int>)
      ensures c == config && decode == decoder
      ensures State() == Scanner(start, 0, DoneNow(config, start, 0), false, false)
    {
      c, decode := config, decoder;
      offset, delivered, closed, wakePending := start, 0, false, false;
      done := DoneNow(config, start, 0);
    }

    method UpdateDone()
      modifies this
      ensures State() == old(State()).(done := DoneNow(c, offset, delivered))
    {
      done := false;
      if c.rowLimit > 0 && delivered >= c.rowLimit {
        done := true;
        return;
      }
      if !c.stopping || offset == map[] {
        return;
      }
      var left := offset.Keys;
      while left != {}
        invariant left <= offset.Keys && State() == old(State()).(done := false)
        invariant forall b :: b in offset && b !in left ==> b in c.stops && offset[b] >= c.stops[b]
        decreases left
      {
        var b :| b in left;
        if b !in c.stops || offset[b] < c.stops[b] {
          assert b in offset;
          return;
        }
        left := left - {b};
      }
      done := true;
    }

    method Unsubscribe(b: Bucket)
      modifies this
      ensures State() == React(c, old(State()), Drop(b))
    {
      offset := offset - {b};
      UpdateDone();
    }

    /** `Subscribe` once the start has been resolved to an offset. */
    method SubscribeAt(b: Bucket, from: int) returns (ok: bool)
      modifies this
      ensures State() == React(c, old(State()), Subscribe(b, from)) && ok == (b in c.buckets && !old(closed))
    {
      if b !in c.buckets || closed {
        return false;
      }
      offset := offset[b := from];
      UpdateDone();
      ok := true;
    }

    method Wakeup()
      modifies this
      ensures State() == React(c, old(State()), Wake)
    {
      if !closed && !done {
        wakePending := true;
      }
    }

    method CloseScanner()
      modifies this
      ensures State() == React(c, old(State()), Close)
    {
      closed, offset := true, map[];
    }

    /** Others at work on the scanner during a fetch. */
    method Interleave(events: seq<Event>)
      modifies this
      ensures State() == Meanwhile(c, old(State()), events)
    {
      assert events[0..] == events;
      for i := 0 to |events|
        invariant Meanwhile(c, State(), events[i..]) == Meanwhile(c, old(State()), events)
      {
        assert events[i..][0] == events[i] && events[i..][1..] == events[i + 1..];
        match events[i] {
          case Drop(b) => Unsubscribe(b);
          case Subscribe(b, from) => var _ := SubscribeAt(b, from);
          case Wake => Wakeup();
          case Close => CloseScanner();
        }
      }
      assert events[|events|..] == [];
    }

    /** `recordFetchError`. */
    method RecordFetchError(cancelled: bool) returns (ok: bool)
      modifies this
      ensures (if cancelled then Failed(old(State())) else FetchError<R>(old(State())))
        == if ok then Polled(State(), []) else Failed(State())
    {
      if cancelled {
        return false;
      }
      var woken := wakePending;
      if woken {
        wakePending := false;
      }
      ok := !closed && !woken;
    }

    method Advance(b: Bucket, previous: int, next: int, count: int)
      modifies this
      ensures State() == AdvanceOffset(c, old(State()), b, previous, next, count)
    {
      if b in offset && offset[b] == previous {
        offset := offset[b := next];
      }
      delivered := delivered + count;
      UpdateDone();
    }

    method PollOne(b: Bucket, from: int, reply: Reply) returns (ok: bool, kept: seq<Kept<R>>)
      modifies this
      ensures PollBucket(c, decode, old(State()), b, from, reply) == if ok then Polled(State(), kept) else Failed(State())
    {
      hide DecodeFetched, Bounds, Explode, Meanwhile;
      kept := [];
      ghost var before := State();
      Interleave(reply.events);
      MeanwhileCounts(c, before, reply.events);
      if !reply.answer.Fetched? {
        ok := RecordFetchError(reply.answer.Fatal?);
        return ok, [];
      }
      var f := DecodeFetched(decode, from, reply.answer.bytes, true);
      if !f.Ok? {
        return true, [];
      }
      var (segments, count, next) := WithinBounds(c, Scanner(offset, delivered, done, closed, wakePending), b, f.value);
      Advance(b, from, next, count);
      return true, [Kept(b, segments)];
    }

    method PollAll(replies: seq<Reply>) returns (ok: bool, kept: seq<Kept<R>>)
      requires |replies| == |c.buckets|
      modifies this
      ensures Poll(c, decode, old(State()), replies) == if ok then Polled(State(), kept) else Failed(State())
    {
      hide PollBucket;
      kept := [];
      if closed {
        return false, [];
      }
      if done {
        return true, [];
      }
      if wakePending {
        wakePending := false;
        return false, [];
      }
      var snapshot := offset;
      if snapshot == map[] {
        return false, [];
      }
      ghost var goal := PollFrom(c, decode, State(), snapshot, 0, replies);
      var i := 0;
      AfterNothing(goal);
      while i < |c.buckets|
        invariant 0 <= i <= |c.buckets|
        invariant After(kept, PollFrom(c, decode, State(), snapshot, i, replies)) == goal
      {
        var b := c.buckets[i];
        i := i + 1;
        if Skipped(c, snapshot, b) {
          continue;
        }
        ghost var s := State();
        var fine, more := PollOne(b, snapshot[b], replies[i - 1]);
        if !fine {
          return false, [];
        }
        if !done {
          AfterStep(kept, more, PollFrom(c, decode, State(), snapshot, i, replies));
        }
        kept := kept + more;
        if done {
          return true, kept;
        }
      }
      assert kept + [] == kept;
      ok := true;
    }
  }

  /** What others do changes no count of rows. */
  lemma {:induction false} MeanwhileCounts(c: Config, s: Scanner, events: seq<Event>)
    ensures Meanwhile(c, s, events).delivered == s.delivered
    decreases |events|
  {
    if events != [] {
      MeanwhileCounts(c, React(c, s, events[0]), events[1..]);
    }
  }

  lemma AfterNothing<R>(rest: Outcome<R>)
    ensures After([], rest) == rest
  {
    if rest.Polled? {
      assert [] + rest.kept == rest.kept;
    }
  }

  lemma AfterStep<R>(a: seq<Kept<R>>, b: seq<Kept<R>>, rest: Outcome<R>)
    ensures After(a, After(b, rest)) == After(a + b, rest)
  {
    if rest.Polled? {
      assert a + (b + rest.kept) == a + b + rest.kept;
    }
  }
}
