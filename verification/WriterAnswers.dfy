/** What callers are told: how a server's reply to a call becomes the answers of the writes in it. */
module WriterAnswers {
  import opened WriterLanes
  import opened WriterLoop
  import opened WriterLoopProofs
  import opened WriterServer
  import opened WriterSystem
  import opened WriterRuns

  /** Log records of the first `k` writes. */
  function RecordsBefore(items: seq<Item>, k: nat): nat
    requires k <= |items|
    decreases k
  {
    if k == 0 then 0 else items[0].records + RecordsBefore(items[1..], k - 1)
  }

  /** `done` answers `items` in order with success, each at the offset of its own first record if that is known. */
  predicate Succeeded(items: seq<Item>, done: seq<Done>, known: bool, base: nat)
  {
    |done| == |items|
    && forall k :: 0 <= k < |items| ==>
         done[k].item == items[k] && done[k].outcome.Success? && done[k].outcome.known == known
         && (known ==> done[k].outcome.base == base + RecordsBefore(items, k))
  }

  predicate AllFailed(items: seq<Item>, done: seq<Done>)
  {
    |done| == |items| && forall k :: 0 <= k < |items| ==> done[k] == Done(items[k], Failure)
  }

  lemma {:induction false} SuccessesSucceeded(items: seq<Item>, ack: Ack)
    ensures Succeeded(items, Successes(items, ack), ack.known, ack.base)
    decreases |items|
  {
    if items != [] {
      var next := if ack.known then Ack(true, ack.base + items[0].records) else ack;
      SuccessesSucceeded(items[1..], next);
      var done, rest := Successes(items, ack), Successes(items[1..], next);
      forall k | 0 <= k < |items|
        ensures done[k].item == items[k] && done[k].outcome.Success? && done[k].outcome.known == ack.known
        ensures ack.known ==> done[k].outcome.base == ack.base + RecordsBefore(items, k)
      {
        if k > 0 {
          assert done[k] == rest[k - 1] && items[1..][k - 1] == items[k];
        }
      }
    }
  }

  /** The answers given between two states of a bucket. */
  function News(before: Lane, after: Lane): seq<Done>
    requires |before.completed| <= |after.completed|
  {
    after.completed[|before.completed|..]
  }

  /** A successful call answers its writes and uses up its sequence number. */
  predicate Acknowledges(before: Lane, after: Lane, known: bool, base: nat)
  {
    before.started != [] && before.completed <= after.completed
    && Succeeded(Flight(before).items, News(before, after), known, base)
    && after.sequence == before.sequence + 1 && after.poisoned == before.poisoned
  }

  /** A failed call fails its writes and all queued behind them, and poisons the bucket. */
  predicate Poisons(before: Lane, after: Lane)
  {
    before.started != [] && before.completed <= after.completed
    && AllFailed(Flight(before).items + Flatten(before.pending), News(before, after))
    && after.sequence == before.sequence && after.poisoned && after.pending == []
  }

  predicate Ends(before: Lane, after: Lane, outcome: Outcome)
  {
    match outcome
    case Success(known, base) => Acknowledges(before, after, known, base)
    case Failure => Poisons(before, after)
  }

  lemma OutcomeAnswers(lane: Lane, outcome: Outcome)
    requires lane.started != []
    ensures Ends(lane, Finished(lane, outcome), outcome)
  {
    hide Flatten, Successes, RecordsBefore;
    var after := Finished(lane, outcome);
    if outcome.Success? {
      var ack := Ack(outcome.known, outcome.base);
      SuccessesSucceeded(Flight(lane).items, ack);
      assert News(lane, after) == Successes(Flight(lane).items, ack);
    } else {
      var flight, queued := Flight(lane).items, Flatten(lane.pending);
      assert News(lane, after) == Failures(flight) + Failures(queued);
    }
  }

  /** Starting the next call of the bucket changes none of that. */
  lemma EndsThenStarts(lane: Lane, finished: Lane, after: Lane, outcome: Outcome)
    requires Ends(lane, finished, outcome) && SameWrites(finished, after) && (outcome.Failure? ==> after.pending == [])
    ensures Ends(lane, after, outcome)
  {
    hide Succeeded, AllFailed, Flatten;
  }

  lemma PoisonedWaitsForNothing(limits: Limits, lane: Lane)
    requires LaneOk(limits, lane, false) && lane.poisoned
    ensures lane.pending == []
  {
    hide Accounted, Sendable, Room;
  }

  /** The end of a call gives the writes of its bucket the answers of its outcome. */
  lemma CompletionAnswers(c: Config, l: Loop, b: Bucket, outcome: Outcome)
    requires LoopInv(c, l) && b in l.lanes && l.lanes[b].active
    ensures Shaped(c, l) && l.lanes[b].started != []
    ensures b in Finish(c, l, b, outcome).lanes && Ends(l.lanes[b], Finish(c, l, b, outcome).lanes[b], outcome)
  {
    hide LaneOk, Home, LoopGrows, SameRouted, Conserving, Finish, Finished, Ends, SameWrites;
    FinishKeeps(c, l, b, outcome);
    OutcomeAnswers(l.lanes[b], outcome);
    var after := Finish(c, l, b, outcome).lanes[b];
    assert LaneOk(c.limits, after, false) && SameWrites(Finished(l.lanes[b], outcome), after);
    if outcome.Failure? {
      FailurePoisons(l.lanes[b], after);
      PoisonedWaitsForNothing(c.limits, after);
    }
    EndsThenStarts(l.lanes[b], Finished(l.lanes[b], outcome), after, outcome);
  }

  lemma FailurePoisons(lane: Lane, after: Lane)
    requires lane.started != [] && SameWrites(Finished(lane, Failure), after)
    ensures after.poisoned
  {
  }

  /**
   A reply to the running call decides its writes: stored at `base`, they are answered with
   success at their own offsets from there; a duplicate, with success at an unknown offset; an
   error that is not retried, with failure, together with everything queued behind.
   */
  predicate Decided(before: Lane, after: Lane, reply: Reply)
  {
    match reply
    case Stored(_, base) => Acknowledges(before, after, true, base)
    case Duplicate(_) => Acknowledges(before, after, false, 0)
    case Refused(_) => Poisons(before, after)
  }

  lemma ReplyDecides(u: Setup, s: System, b: Bucket, reply: Reply, retry: bool, t: System, r: System)
    requires Enabled(u, s, Hear(b, reply, retry)) && t == Apply(u, s, Hear(b, reply, retry))
    requires Enabled(u, t, Complete(b)) && r == Apply(u, t, Complete(b))
    requires LoopInv(u.config, s.loop) && NetsLinked(u, s)
    ensures b in s.loop.lanes && b in r.loop.lanes && Decided(s.loop.lanes[b], r.loop.lanes[b], reply)
  {
    hide LoopInv, NetsLinked, Linked, LaneInv, Acknowledges, Poisons, Finish, Launch, Answers;
    LaneOf(u, s, b);
    CompletionAnswers(u.config, s.loop, b, t.nets[b].attempts.outcome);
  }

  /** After a reply that is not retried, the call can be completed. */
  lemma ReplyEnds(u: Setup, s: System, b: Bucket, reply: Reply, retry: bool, t: System)
    requires Enabled(u, s, Hear(b, reply, retry)) && t == Apply(u, s, Hear(b, reply, retry))
    requires !s.phase.Stopped? && !(reply.Refused? && retry)
    requires LoopInv(u.config, s.loop) && NetsLinked(u, s)
    ensures Enabled(u, t, Complete(b))
  {
    hide LoopInv, NetsLinked, Linked, LaneInv;
    LaneOf(u, s, b);
    ActiveStarted(s.loop.lanes[b]);
  }

  lemma ActiveStarted(lane: Lane)
    requires LaneInv(lane) && lane.active
    ensures lane.started != []
  {
  }

  // ------------------------------------------------------------------------ one attempt

  /** Sent, delivered and answered without loss. */
  function CleanAttempt(lane: Lane, net: Net, honest: bool, retry: bool): Net
    requires lane.started != [] && net.attempts.Ready?
  {
    var call := lane.started[|lane.started| - 1];
    var there := Deliver(Send(lane, net), call, honest);
    var reply := if !honest then Refused(call.sequence)
                 else if call.sequence == |net.applied| then Stored(call.sequence, |net.log|)
                 else Duplicate(call.sequence);
    Receive(there, reply, retry)
  }

  /**
   The running call is stored by one attempt that nothing disturbs, and answered with where its
   records stand; if an earlier attempt was stored and its reply lost, the log stays as it is
   and the answer is success without an offset. An error answer ends the call or, with an
   attempt left, makes it ready for the next one.
   */
  lemma CleanAttemptSucceeds(lane: Lane, net: Net, maxAttempts: nat, retry: bool)
    requires LaneInv(lane) && Linked(lane, net, maxAttempts) && net.attempts.Ready?
    ensures lane.active && lane.started != []
    ensures Call(Flight(lane), lane.sequence) in Send(lane, net).sent
    ensures var r := CleanAttempt(lane, net, true, retry); var items := Flight(lane).items;
      if lane.sequence == |net.applied|
      then r.log == net.log + ExpandAll(items) && r.attempts == Ended(Success(true, |net.log|))
      else r.log == net.log && r.attempts == Ended(Success(false, 0))
    ensures var r := CleanAttempt(lane, net, false, retry);
      r.attempts == if retry then Ready(net.attempts.made + 1) else Ended(Failure)
    ensures forall reply :: reply in CleanAttempt(lane, net, true, retry).replies && reply !in net.replies ==>
      reply == if lane.sequence == |net.applied| then Stored(lane.sequence, |net.log|) else Duplicate(lane.sequence)
  {
    hide ExpandAll, LogHolds, Truthful, Accounted;
    assert Awaited(lane, net, maxAttempts) && Sequenced(lane);
    var call := lane.started[|lane.started| - 1];
    assert call.sequence == lane.sequence;
    assert FromWriter(lane, net);
    AppliedAtMostStarted(lane, net);
  }

  lemma AppliedAtMostStarted(lane: Lane, net: Net)
    requires FromWriter(lane, net)
    ensures lane.sequence <= |net.applied| <= |lane.started|
  {
    assert |Calls(net.applied)| == |net.applied|;
  }

  // -------------------------------------------------------------------------- the timer

  /** The batch timeout leaves no batch open, and no request slot idle that a bucket could use. */
  lemma TimerSendsAll(u: Setup, s: System, r: System)
    requires Enabled(u, s, Timer) && r == Apply(u, s, Timer)
    requires LoopInv(u.config, s.loop)
    ensures Quiet(r.loop) && LoopInv(u.config, r.loop)
  {
    hide LoopInv, Quiet, QueueFrom, Answers, Launch, LoopGrows, LoopCalm, SameRouted;
    QueueKeeps(u.config, s.loop, 0);
  }
}
