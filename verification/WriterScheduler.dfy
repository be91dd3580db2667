/**
 The scheduler goroutine of the batching writers, with the maps it updates in place. Every
 method is tied to the operation of `WriterLoop` on the scheduler's abstract view.
 */
module WriterScheduler {
  import opened WriterLanes
  import opened WriterLoop
  import opened WriterLoopProofs
  import opened WriterFlush

  /** A map entry that may be absent, read the way the scheduler reads it. */
  function Get<V>(m: map<Bucket, V>, b: Bucket, absent: V): V
  {
    if b in m then m[b] else absent
  }

  /** The results of a batch's writes: with a known base each write gets its own offset. */
  function Answers(items: seq<Item>, outcome: Outcome): (done: seq<Done>)
    ensures Items(done) == items
  {
    match outcome
    case Success(known, base) => Successes(items, Ack(known, base))
    case Failure => Failures(items)
  }

  function NextOutcome(outcome: Outcome, item: Item): Outcome
  {
    if outcome.Success? && outcome.known then outcome.(base := outcome.base + item.records) else outcome
  }

  lemma AnswersStep(items: seq<Item>, i: nat, outcome: Outcome)
    requires i < |items|
    ensures Answers(items[i..], outcome)
         == [Done(items[i], outcome)] + Answers(items[i + 1..], NextOutcome(outcome, items[i]))
  {
    hide Items;
    var rest := items[i..];
    assert rest[0] == items[i] && rest[1..] == items[i + 1..];
    match outcome {
      case Success(known, base) =>
        hide Failures;
      case Failure =>
        hide Successes;
        assert Failures(rest) == [Done(rest[0], Failure)] + Failures(rest[1..]);
    }
  }

  /** Answer every write of a batch, advancing the offset by the records each write holds. */
  method CompleteBatch(items: seq<Item>, outcome: Outcome) returns (done: seq<Done>)
    ensures done == Answers(items, outcome)
  {
    hide Answers, Items;
    done := [];
    var now := outcome;
    var i := 0;
    assert items[0..] == items;
    while i < |items|
      invariant 0 <= i <= |items|
      invariant done + Answers(items[i..], now) == Answers(items, outcome)
    {
      AnswersStep(items, i, now);
      ghost var rest := Answers(items[i + 1..], NextOutcome(now, items[i]));
      assert done + ([Done(items[i], now)] + rest) == (done + [Done(items[i], now)]) + rest;
      done := done + [Done(items[i], now)];
      now := NextOutcome(now, items[i]);
      i := i + 1;
    }
    assert items[|items|..] == [];
    assert Answers([], now) == [] by { assert |Items(Answers([], now))| == 0; }
  }

  lemma FailuresConcat(a: seq<Item>, b: seq<Item>)
    ensures Failures(a + b) == Failures(a) + Failures(b)
  {
  }

  /** Fail every write of the batches still queued behind a failed call. */
  method CompleteQueued(batches: seq<Batch>) returns (done: seq<Done>)
    ensures done == Failures(Flatten(batches))
  {
    hide Flatten, Failures;
    done := [];
    assert Failures(Flatten(batches[..0])) == [] by {
      assert batches[..0] == [];
      NothingPending();
      assert |Failures([])| == 0;
    }
    var i := 0;
    while i < |batches|
      invariant 0 <= i <= |batches| && done == Failures(Flatten(batches[..i]))
    {
      var failed := CompleteBatch(batches[i].items, Failure);
      assert batches[..i + 1] == batches[..i] + [batches[i]];
      FlattenConcat(batches[..i], [batches[i]]);
      FlattenOne(batches[i]);
      FailuresConcat(Flatten(batches[..i]), batches[i].items);
      done := done + failed;
      i := i + 1;
    }
    assert batches[..|batches|] == batches;
  }

  // --------------------------------------------------------------------- the tables

  /** The scheduler's tables; `calls` holds the batch each running request carries. */
  datatype Tables = Tables(
    batches: map<Bucket, Batch>,
    pending: map<Bucket, seq<Batch>>,
    active: set<Bucket>,
    calls: map<Bucket, Batch>,
    sequences: map<Bucket, nat>,
    poisoned: set<Bucket>)

  /** One bucket's table entries are what its lane says. */
  ghost predicate Tied(t: Tables, lane: Lane, b: Bucket)
  {
    lane.open == Get(t.batches, b, EMPTY) && lane.pending == Get(t.pending, b, [])
    && (lane.active <==> b in t.active) && lane.sequence == Get(t.sequences, b, 0)
    && (lane.poisoned <==> b in t.poisoned)
    && (lane.active ==> b in t.calls && lane.started != [] && t.calls[b] == Flight(lane))
  }

  ghost predicate AllTied(t: Tables, lanes: map<Bucket, Lane>)
  {
    forall b :: b in lanes ==> Tied(t, lanes[b], b)
  }

  lemma OneTied(t: Tables, t': Tables, lanes: map<Bucket, Lane>, b: Bucket, lane: Lane)
    requires AllTied(t, lanes) && Tied(t', lane, b)
    requires forall x :: x in lanes && x != b && Tied(t, lanes[x], x) ==> Tied(t', lanes[x], x)
    ensures AllTied(t', lanes[b := lane])
  {
    hide Tied;
  }

  lemma TiedAt(t: Tables, lanes: map<Bucket, Lane>, b: Bucket)
    requires AllTied(t, lanes) && b in lanes
    ensures Tied(t, lanes[b], b)
  {
  }

  lemma NothingToClose(lane: Lane)
    requires lane.open.items == []
    ensures Close(lane) == lane
  {
  }

  /** The answers a finished lane gained are those of its batch, then those of its queue. */
  lemma Answered(lane: Lane, outcome: Outcome)
    requires lane.started != []
    ensures Finished(lane, outcome).completed ==
      lane.completed + Answers(Flight(lane).items, outcome)
      + (if outcome.Failure? then Failures(Flatten(lane.pending)) else [])
    ensures outcome.Failure? ==> Finished(lane, outcome) == Fail(lane)
    ensures outcome.Success? ==> Finished(lane, outcome) == Succeed(lane, Ack(outcome.known, outcome.base))
  {
  }

  function Started(t: Tables, b: Bucket): Tables
    requires b in t.pending && t.pending[b] != []
  {
    t.(pending := t.pending[b := t.pending[b][1..]], active := t.active + {b}, calls := t.calls[b := t.pending[b][0]])
  }

  lemma StartTied(t: Tables, lanes: map<Bucket, Lane>, b: Bucket)
    requires AllTied(t, lanes) && b in lanes && b !in t.active && Get(t.pending, b, []) != []
    ensures b in t.pending && t.pending[b] != [] && Eligible(lanes[b])
    ensures AllTied(Started(t, b), lanes[b := Start(lanes[b])])
  {
    assert Tied(t, lanes[b], b);
    OneTied(t, Started(t, b), lanes, b, Start(lanes[b]));
  }

  lemma CloseTied(t: Tables, lanes: map<Bucket, Lane>, b: Bucket)
    requires AllTied(t, lanes) && b in lanes && b in t.batches && t.batches[b].items != []
    ensures b in t.poisoned ==> AllTied(t.(batches := t.batches - {b}), lanes[b := Close(lanes[b])])
    ensures b !in t.poisoned ==>
      AllTied(t.(batches := t.batches - {b}, pending := t.pending[b := Get(t.pending, b, []) + [t.batches[b]]]),
              lanes[b := Close(lanes[b])])
  {
    assert Tied(t, lanes[b], b);
    if b in t.poisoned {
      OneTied(t, t.(batches := t.batches - {b}), lanes, b, Close(lanes[b]));
    } else {
      OneTied(t, t.(batches := t.batches - {b}, pending := t.pending[b := Get(t.pending, b, []) + [t.batches[b]]]),
              lanes, b, Close(lanes[b]));
    }
  }

  lemma SucceedTied(t: Tables, lanes: map<Bucket, Lane>, b: Bucket, ack: Ack)
    requires AllTied(t, lanes) && b in lanes && lanes[b].started != []
    ensures AllTied(t.(active := t.active - {b}, sequences := t.sequences[b := Get(t.sequences, b, 0) + 1]),
                    lanes[b := Succeed(lanes[b], ack)])
  {
    hide Successes;
    assert Tied(t, lanes[b], b);
    OneTied(t, t.(active := t.active - {b}, sequences := t.sequences[b := Get(t.sequences, b, 0) + 1]),
            lanes, b, Succeed(lanes[b], ack));
  }

  lemma FailTied(t: Tables, lanes: map<Bucket, Lane>, b: Bucket)
    requires AllTied(t, lanes) && b in lanes && lanes[b].started != []
    ensures AllTied(t.(active := t.active - {b}, poisoned := t.poisoned + {b}, pending := t.pending - {b}),
                    lanes[b := Fail(lanes[b])])
  {
    hide Failures, Flatten;
    assert Tied(t, lanes[b], b);
    OneTied(t, t.(active := t.active - {b}, poisoned := t.poisoned + {b}, pending := t.pending - {b}),
            lanes, b, Fail(lanes[b]));
  }

  class Scheduler {
    const c: Config
    var batches: map<Bucket, Batch>
    var pending: map<Bucket, seq<Batch>>
    var active: set<Bucket>
    var calls: map<Bucket, Batch>
    var sequences: map<Bucket, nat>
    var poisoned: set<Bucket>
    var inFlight: int
    var stickyIndex: int
    var roundRobin: nat
    ghost var lanes: map<Bucket, Lane>
    ghost var rejected: seq<Item>

    ghost function State(): Tables
      reads this
    {
      Tables(batches, pending, active, calls, sequences, poisoned)
    }

    ghost predicate Valid()
      reads this
    {
      Shaped(c, View()) && AllTied(State(), lanes)
    }

    ghost function View(): (l: Loop)
      reads this
    {
      Loop(lanes, inFlight, stickyIndex, roundRobin, rejected)
    }

    constructor (config: Config)
      requires ValidConfig(config)
      ensures c == config && Valid() && View() == NewLoop(config) && LoopInv(c, View())
    {
      c := config;
      batches, pending, active, calls, sequences, poisoned := map[], map[], {}, map[], map[], {};
      inFlight, stickyIndex, roundRobin := 0, -1, 0;
      lanes, rejected := map b | b in config.buckets :: NEW_LANE, [];
      new;
      NewLoopInv(c);
    }

    // -------------------------------------------------------------------- dispatching

    /** Start the oldest queued batch of a bucket. */
    method StartBatch(b: Bucket)
      requires Valid() && b in lanes && b !in active && Get(pending, b, []) != []
      modifies this
      ensures Valid() && old(Eligible(lanes[b])) && View() == StartAt(old(View()), b)
    {
      hide AllTied, Start;
      StartTied(State(), lanes, b);
      var batch := pending[b][0];
      pending, active, calls, inFlight, lanes := pending[b := pending[b][1..]], active + {b}, calls[b := batch],
        inFlight + 1, lanes[b := Start(lanes[b])];
    }

    /** One pass over the buckets, stopping when every request slot is taken. */
    method Sweep() returns (dispatched: bool)
      requires Valid() && inFlight < c.maxConcurrent
      modifies this
      ensures Valid() && View() == Dispatch(c, old(View())) && inFlight <= c.maxConcurrent
      ensures dispatched ==> old(inFlight) < inFlight
      ensures !dispatched ==> View() == old(View())
    {
      hide Start, AllTied;
      ghost var goal := Dispatch(c, View());
      dispatched := false;
      var i := 0;
      while i < |c.buckets|
        invariant 0 <= i <= |c.buckets| && Valid()
        invariant DispatchFrom(c, View(), i) == goal
        invariant dispatched ==> old(inFlight) < inFlight
        invariant !dispatched ==> View() == old(View())
        invariant old(inFlight) <= inFlight < c.maxConcurrent
      {
        var b := c.buckets[i];
        i := i + 1;
        TiedAt(State(), lanes, b);
        if b in active || Get(pending, b, []) == [] {
          continue;
        }
        StartBatch(b);
        dispatched := true;
        if inFlight == c.maxConcurrent {
          break;
        }
      }
    }

    /** Sweep until a pass starts nothing or every request slot is taken. */
    method DispatchCalls()
      requires Valid() && Core(c, View(), {})
      modifies this
      ensures Valid() && View() == Dispatch(c, old(View()))
    {
      hide LaneOk, Home, Scheduled, Scheduler.Valid;
      ghost var goal := Dispatch(c, View());
      DispatchKeeps(c, View());
      DispatchIdle(c, goal, 0);
      hide Core, LoopInv, LoopGrows, LoopCalm, Conserving, DispatchFrom;
      assert Shaped(c, View());
      while inFlight < c.maxConcurrent
        invariant Valid() && Shaped(c, View()) && Dispatch(c, View()) == goal
        invariant inFlight >= c.maxConcurrent ==> View() == goal
        decreases c.maxConcurrent - inFlight
      {
        var dispatched := Sweep();
        if !dispatched {
          return;
        }
      }
    }

    // ------------------------------------------------------------------ closing batches

    /** Take a bucket's open batch, if it holds anything: queue it, or fail it when poisoned. */
    method CloseBatch(b: Bucket) returns (queued: bool, failed: bool)
      requires Valid() && b in lanes
      modifies this
      ensures Valid() && View() == At(old(View()), b, Close(old(lanes[b])))
      ensures failed == old(FlushFails(View(), b))
      ensures queued == old(lanes[b].open.items != [] && !lanes[b].poisoned)
    {
      hide AllTied, Close;
      assert Tied(State(), lanes[b], b) by { TiedAt(State(), lanes, b); }
      var open := Get(batches, b, EMPTY);
      queued, failed := false, false;
      if open.items == [] {
        assert Close(lanes[b]) == lanes[b] by { NothingToClose(lanes[b]); }
        return;
      }
      CloseTied(State(), lanes, b);
      if b in poisoned {
        var done := CompleteBatch(open.items, Failure);
        failed := true;
        batches, lanes := batches - {b}, lanes[b := Close(lanes[b])];
      } else {
        queued := true;
        batches, pending, lanes :=
          batches - {b}, pending[b := Get(pending, b, []) + [open]], lanes[b := Close(lanes[b])];
      }
    }

    method Flush(b: Bucket, ghost closing: set<Bucket>) returns (failed: bool)
      requires Valid() && b in lanes && closing <= {b} && Core(c, View(), closing) && Conserving(c, View())
      modifies this
      ensures Valid() && View() == FlushBucket(c, old(View()), b) && failed == old(FlushFails(View(), b))
      ensures LoopInv(c, View())
    {
      hide LaneOk, Home, Grows, Close, Conserving, Scheduler.Valid;
      ghost var l := View();
      FlushKeeps(c, l, b, closing);
      CloseLane(c.limits, l.lanes[b], b in closing);
      PutKeeps(c, l, b, Close(l.lanes[b]), l.inFlight, closing, {});
      assert Put(l, b, Close(l.lanes[b]), l.inFlight) == At(l, b, Close(l.lanes[b]));
      var queued;
      queued, failed := CloseBatch(b);
      if queued {
        DispatchCalls();
      } else if !failed {
        NothingToClose(l.lanes[b]);
        assert At(l, b, Close(l.lanes[b])).lanes == l.lanes;
      }
    }

    // -------------------------------------------------------------------- completions

    /** Release the bucket of a call that succeeded and answer its writes. */
    method EndSuccess(b: Bucket, batch: Batch, known: bool, base: nat)
      requires Valid() && b in lanes && lanes[b].started != [] && batch == Flight(lanes[b])
      modifies this
      ensures Valid()
      ensures View() == Put(old(View()), b, Succeed(old(lanes[b]), Ack(known, base)), old(inFlight) - 1)
    {
      hide AllTied, Succeed;
      ghost var next := Succeed(lanes[b], Ack(known, base));
      SucceedTied(State(), lanes, b, Ack(known, base));
      var done := CompleteBatch(batch.items, Success(known, base));
      assert next.completed == lanes[b].completed + done by { Answered(lanes[b], Success(known, base)); }
      active, inFlight, sequences, lanes :=
        active - {b}, inFlight - 1, sequences[b := Get(sequences, b, 0) + 1], lanes[b := next];
    }

    /** Poison the bucket of a call that failed and answer its writes and the queued ones. */
    method EndFailure(b: Bucket, batch: Batch)
      requires Valid() && b in lanes && lanes[b].started != [] && batch == Flight(lanes[b])
      modifies this
      ensures Valid()
      ensures View() == Put(old(View()), b, Fail(old(lanes[b])), old(inFlight) - 1)
    {
      hide AllTied, Fail;
      ghost var next := Fail(lanes[b]);
      FailTied(State(), lanes, b);
      assert Tied(State(), lanes[b], b) by { TiedAt(State(), lanes, b); }
      var done := CompleteBatch(batch.items, Failure);
      var queued := CompleteQueued(Get(pending, b, []));
      assert next.completed == lanes[b].completed + done + queued by { Answered(lanes[b], Failure); }
      active, inFlight, poisoned, pending, lanes :=
        active - {b}, inFlight - 1, poisoned + {b}, pending - {b}, lanes[b := next];
    }

    method HandleCompletion(b: Bucket, batch: Batch, outcome: Outcome) returns (failed: bool)
      requires Valid() && LoopInv(c, View()) && b in lanes && lanes[b].active
      requires lanes[b].started != [] && batch == Flight(lanes[b])
      modifies this
      ensures Valid() && View() == Finish(c, old(View()), b, outcome) && failed == outcome.Failure?
      ensures LoopInv(c, View())
    {
      ghost var l := View();
      hide LaneOk, Home, Grows, LoopGrows, LoopCalm, SameRouted, Became, Succeed, Fail, Conserving, Scheduler.Valid;
      FinishLane(c.limits, l.lanes[b], outcome);
      PutKeeps(c, l, b, Finished(l.lanes[b], outcome), l.inFlight - 1, {}, {});
      FinishKeeps(c, l, b, outcome);
      match outcome {
        case Success(known, base) => EndSuccess(b, batch, known, base);
        case Failure => EndFailure(b, batch);
      }
      DispatchCalls();
      failed := outcome.Failure?;
    }

    /** Some call in flight, with the batch it carries: any of them may end first. */
    method AwaitCompletion() returns (b: Bucket, batch: Batch)
      requires Valid() && LoopInv(c, View()) && inFlight > 0
      ensures b in lanes && lanes[b].active && lanes[b].started != [] && batch == Flight(lanes[b])
    {
      hide LaneOk, Home;
      ghost var x :| x in Active(View());
      TiedAt(State(), lanes, x);
      b :| b in c.buckets && b in active;
      TiedAt(State(), lanes, b);
      batch := calls[b];
    }

    // ------------------------------------------------------------------------ flushing

    /** Close every open batch. */
    method QueueAll() returns (failed: bool)
      requires Valid() && LoopInv(c, View())
      modifies this
      ensures Valid() && View() == QueueFrom(c, old(View()), 0) && failed == QueueFails(c, old(View()), 0)
      ensures LoopInv(c, View())
    {
      hide LaneOk, Home, Grows, Conserving, FlushBucket, FlushFails, Scheduler.Valid;
      failed := false;
      var i := 0;
      while i < |c.buckets|
        invariant 0 <= i <= |c.buckets| && Valid() && LoopInv(c, View())
        invariant QueueFrom(c, View(), i) == QueueFrom(c, old(View()), 0)
        invariant (failed || QueueFails(c, View(), i)) == QueueFails(c, old(View()), 0)
      {
        assert c.buckets[i] in lanes;
        var poisoned := Flush(c.buckets[i], {});
        failed := failed || poisoned;
        i := i + 1;
      }
    }

    /**
     Close every open batch and wait for the calls. It ends whatever the calls return, leaves
     nothing open, queued or in flight, and reports an error exactly when a write failed.
     */
    method FlushAll() returns (failed: bool)
      requires Valid() && LoopInv(c, View())
      modifies this
      ensures Valid() && LoopInv(c, View()) && Drained(View())
      ensures LoopGrows(old(View()), View()) && SameRouted(old(View()), View())
      ensures !failed <==> Unfailed(old(View()), View())
    {
      hide LaneOk, Home, Grows, Core, Conserving, LoopGrows, LoopCalm, SameRouted, Unfailed, Scheduler.Valid, Quiet;
      ghost var l := View();
      assert ValidConfig(c) && Shaped(c, l) by { CoreShaped(c, l, {}); }
      QueueKeeps(c, l, 0);
      QueueReports(c, l, 0);
      failed := QueueAll();
      assert Shaped(c, View()) by { CoreShaped(c, View(), {}); }
      while inFlight > 0
        invariant Valid() && Shaped(c, View()) && LoopInv(c, View()) && Quiet(View())
        invariant LoopGrows(l, View()) && SameRouted(l, View())
        invariant !failed <==> Unfailed(l, View())
        decreases Load(c, View(), 0)
      {
        ghost var before := View();
        var b, batch := AwaitCompletion();
        var outcome: Outcome := *;
        assert outcome.Success? || outcome.Failure? by { match outcome { case Success(_, _) => case Failure => } }
        CompletionStep(c, l, before, b, outcome);
        var poisoned := HandleCompletion(b, batch, outcome);
        assert Shaped(c, View()) by { CoreShaped(c, View(), {}); }
        failed := failed || poisoned;
      }
      assert inFlight >= 0 by { CoreCounts(c, View()); }
      NothingWaits(c, View());
    }

    // -------------------------------------------------------------------------- adding

    /** The no-key assigner. */
    method AssignBucket() returns (b: Bucket)
      requires Valid() && LoopInv(c, View())
      modifies this
      ensures Valid() && View() == Assign(c, old(View())).0 && b == Assign(c, old(View())).1
    {
      hide LaneOk, Home, Conserving, AllTied;
      if c.assigner.RoundRobin? {
        b := c.buckets[roundRobin % |c.buckets|];
        roundRobin := roundRobin + 1;
      } else {
        if stickyIndex < 0 {
          stickyIndex := 0;
        }
        b := c.buckets[stickyIndex];
      }
    }

    method Advance()
      requires Valid()
      modifies this
      ensures Valid() && View() == AdvanceSticky(c, old(View()))
    {
      if |c.buckets| > 1 {
        stickyIndex := (stickyIndex + 1) % |c.buckets|;
      }
    }

    /** Put a row into a bucket's open batch. */
    method Join(b: Bucket, item: Item, bytes: nat)
      requires Valid() && b in lanes
      modifies this
      ensures Valid() && View() == At(old(View()), b, Enter(old(lanes[b]), item, bytes))
    {
      hide AllTied, Enter;
      EnterTied(State(), lanes, b, item, bytes);
      batches, lanes := batches[b := Batch(Get(batches, b, EMPTY).items + [item], bytes)],
        lanes[b := Enter(lanes[b], item, bytes)];
    }

    method PlaceRow(b: Bucket, item: Item)
      requires Valid() && LoopInv(c, View()) && b in lanes && Joins(c.limits, lanes[b].open, item)
      requires c.assigner.Sticky? ==> Home(c, View(), b)
      modifies this
      ensures Valid() && View() == Place(c, old(View()), b, item)
    {
      hide LaneOk, Home, LoopGrows, LoopCalm, Routed, Conserving, Enter, Joins, AllTied, Core, FlushBucket, Full;
      ghost var l := View();
      assert Tied(State(), lanes[b], b) by { TiedAt(State(), lanes, b); }
      EnterAt(c, l, b, item);
      var open := Get(batches, b, EMPTY);
      var full := Batch(open.items + [item], open.bytes + item.size);
      assert Enter(l.lanes[b], item, full.bytes).open == full by { Entered(l.lanes[b], item, full.bytes); }
      Join(b, item, full.bytes);
      if Full(c.limits, full) || c.immediate {
        var failed := Flush(b, {b});
        if c.assigner.Sticky? {
          Advance();
        }
      }
    }

    method AddRowTo(b: Bucket, item: Item)
      requires Valid() && LoopInv(c, View()) && b in lanes && !item.arrow
      requires c.assigner.Sticky? ==> Home(c, View(), b)
      requires lanes[b].open.items == [] || lanes[b].open.items[0].targets == item.targets
      modifies this
      ensures Valid() && View() == AddRow(c, old(View()), b, item)
    {
      hide LaneOk, LoopGrows, LoopCalm, Conserving, AllTied, SameRouted, Became, FlushBucket, Place;
      assert Tied(State(), lanes[b], b) by { TiedAt(State(), lanes, b); }
      var open := Get(batches, b, EMPTY);
      if open.items == [] || !FullWith(c.limits, open, item) {
        PlaceRow(b, item);
        return;
      }
      FlushKeeps(c, View(), b, {});
      var failed := Flush(b, {});
      var next := b;
      if c.assigner.Sticky? {
        StickyFlushed(c, View(), b);
        StickyMoves(c, View());
        StickyMoves(c, AdvanceSticky(c, View()));
        Advance();
        next := AssignBucket();
      }
      PlaceRow(next, item);
    }

    /** Hand one write to the scheduler. */
    method AddWrite(item: Item, route: Destination, cancelled: bool)
      requires Valid() && LoopInv(c, View()) && Admissible(c, item, route)
      modifies this
      ensures Valid() && View() == Add(c, old(View()), item, route, cancelled)
      ensures LoopInv(c, View())
    {
      hide LaneOk, LoopGrows, LoopCalm, Conserving, AllTied, SameRouted, Became, FlushBucket, AddRow, Routed;
      AddKeeps(c, View(), item, route, cancelled);
      if cancelled || route.Unroutable? {
        rejected := rejected + [item];
        return;
      }
      StickyHome(c, View());
      var b;
      if route.To? {
        b := route.bucket;
      } else {
        b := AssignBucket();
      }
      assert b in lanes;
      assert Tied(State(), lanes[b], b) by { TiedAt(State(), lanes, b); }
      if item.arrow {
        AddArrowTo(b, item);
      } else {
        var open := Get(batches, b, EMPTY);
        if open.items != [] && open.items[0].targets != item.targets {
          FlushKeeps(c, View(), b, {});
          var failed := Flush(b, {});
        }
        AddRowTo(b, item);
      }
    }

    method AddArrowTo(b: Bucket, item: Item)
      requires Valid() && LoopInv(c, View()) && b in lanes && item.arrow
      modifies this
      ensures Valid() && View() == AddArrow(c, old(View()), b, item)
    {
      hide LaneOk, Home, LoopGrows, LoopCalm, Conserving, AllTied, SameRouted, Became, FlushBucket, Enter;
      FlushKeeps(c, View(), b, {});
      var failed := Flush(b, {});
      ghost var l := View();
      ghost var lane := Enter(lanes[b].(open := EMPTY), item, 0);
      ArrowLane(c.limits, lanes[b], item);
      Entered(lanes[b].(open := EMPTY), item, 0);
      PutKeeps(c, l, b, lane, l.inFlight, {}, {b});
      assert At(l, b, lane) == Put(l, b, lane, l.inFlight);
      assert Conserving(c, At(l, b, lane)) by { SameEligible(c, l, b, lane); }
      ArrowTied(State(), lanes, b, item);
      batches, lanes := batches[b := Batch([item], 0)], lanes[b := lane];
      failed := Flush(b, {b});
    }
  }

  lemma Entered(lane: Lane, item: Item, bytes: nat)
    ensures var next := Enter(lane, item, bytes);
      next.open == Batch(lane.open.items + [item], bytes) && next.active == lane.active && next.pending == lane.pending
  {
  }

  lemma EnterTied(t: Tables, lanes: map<Bucket, Lane>, b: Bucket, item: Item, bytes: nat)
    requires AllTied(t, lanes) && b in lanes
    ensures AllTied(t.(batches := t.batches[b := Batch(Get(t.batches, b, EMPTY).items + [item], bytes)]),
                    lanes[b := Enter(lanes[b], item, bytes)])
  {
    assert Tied(t, lanes[b], b);
    OneTied(t, t.(batches := t.batches[b := Batch(Get(t.batches, b, EMPTY).items + [item], bytes)]), lanes, b,
            Enter(lanes[b], item, bytes));
  }

  lemma ArrowTied(t: Tables, lanes: map<Bucket, Lane>, b: Bucket, item: Item)
    requires AllTied(t, lanes) && b in lanes
    ensures AllTied(t.(batches := t.batches[b := Batch([item], 0)]), lanes[b := Enter(lanes[b].(open := EMPTY), item, 0)])
  {
    assert Tied(t, lanes[b], b);
    OneTied(t, t.(batches := t.batches[b := Batch([item], 0)]), lanes, b, Enter(lanes[b].(open := EMPTY), item, 0));
  }

  /** Dispatching again changes nothing. */
  lemma {:induction false} DispatchIdle(c: Config, l: Loop, i: nat)
    requires Shaped(c, l) && Conserving(c, l) && i <= |c.buckets|
    ensures DispatchFrom(c, l, i) == l
    decreases |c.buckets| - i
  {
    if i < |c.buckets| && l.inFlight < c.maxConcurrent {
      assert c.buckets[i] in l.lanes;
      DispatchIdle(c, l, i + 1);
    }
  }
}
