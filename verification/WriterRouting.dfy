/**
 Where writes go: the bucket and the batch every write joins, said in terms of the write, its
 route and the batches as they stand, and lifted to whole runs over the steps callers took.
 */
module WriterRouting {
  import opened WriterLanes
  import opened WriterLoop
  import opened WriterLoopProofs
  import opened WriterServer
  import opened WriterSystem
  import opened WriterRuns

  // ------------------------------------------------------------------------- batches

  /** A row joins an empty batch, or one of its own target columns that stays within both limits. */
  predicate Fits(limits: Limits, batch: Batch, item: Item)
  {
    batch.items == []
    || (|batch.items| < limits.maxRecords && batch.bytes + item.size <= limits.maxBytes
        && batch.items[0].targets == item.targets)
  }

  /** The batch that ends with `item`: the one it fits, or a new one. */
  function With(limits: Limits, batch: Batch, item: Item): Batch
  {
    if Fits(limits, batch, item) then Batch(batch.items + [item], batch.bytes + item.size) else Batch([item], item.size)
  }

  /** Nothing waits for more writes in this batch. */
  predicate Ripe(c: Config, batch: Batch)
  {
    |batch.items| >= c.limits.maxRecords || batch.bytes >= c.limits.maxBytes || c.immediate
  }

  /** After a row: bucket `b` holds `batch` open unless it is ripe, every other bucket what it held. */
  ghost predicate Opens(c: Config, before: Loop, after: Loop, b: Bucket, batch: Batch)
  {
    b in after.lanes && after.lanes[b].open == (if Ripe(c, batch) then EMPTY else batch)
    && forall x :: x in before.lanes && x != b ==> x in after.lanes && after.lanes[x].open == before.lanes[x].open
  }

  /** Closing a batch closes that batch only. */
  lemma FlushOpens(c: Config, l: Loop, b: Bucket, closing: set<Bucket>)
    requires closing <= {b} && Core(c, l, closing) && Conserving(c, l) && b in l.lanes && l.lanes[b].open.items != []
    ensures var r := FlushBucket(c, l, b);
      LoopInv(c, r) && b in r.lanes && r.lanes[b].open == EMPTY
      && r.stickyIndex == l.stickyIndex && r.roundRobin == l.roundRobin
      && forall x :: x in l.lanes && x != b ==> x in r.lanes && r.lanes[x].open == l.lanes[x].open
  {
    hide LaneOk, Home, Conserving, LoopCalm, LoopGrows, SameRouted, FlushBucket, Core;
    CoreShaped(c, l, closing);
    FlushKeeps(c, l, b, closing);
  }

  /** The loop with `item` at the end of bucket `b`'s open batch. */
  function Entered(l: Loop, b: Bucket, item: Item): Loop
    requires b in l.lanes
  {
    At(l, b, Enter(l.lanes[b], item, l.lanes[b].open.bytes + item.size))
  }

  lemma PlaceOpens(c: Config, l: Loop, b: Bucket, item: Item)
    requires LoopInv(c, l) && b in l.lanes && !item.arrow && Fits(c.limits, l.lanes[b].open, item)
    requires c.assigner.Sticky? ==> Home(c, l, b)
    ensures Shaped(c, l) && |c.buckets| >= 1
    ensures var r := Place(c, l, b, item); var batch := With(c.limits, l.lanes[b].open, item);
      Opens(c, l, r, b, batch) && r.roundRobin == l.roundRobin
      && r.stickyIndex == (if c.assigner.Sticky? && Ripe(c, batch) && |c.buckets| > 1
                           then (l.stickyIndex + 1) % |c.buckets| else l.stickyIndex)
  {
    hide LaneOk, Home, Conserving, LoopCalm, Routed, FlushBucket, Core;
    CoreShaped(c, l, {});
    EnterAt(c, l, b, item);
    var placed := Entered(l, b, item);
    assert Shaped(c, placed) by { CoreShaped(c, placed, {b}); }
    if Ripe(c, placed.lanes[b].open) {
      FlushOpens(c, placed, b, {b});
    }
  }

  lemma RowOpens(c: Config, l: Loop, b: Bucket, item: Item)
    requires LoopInv(c, l) && b in l.lanes && !item.arrow && !c.assigner.Sticky?
    ensures Shaped(c, l) && |c.buckets| >= 1 && -1 <= l.stickyIndex < |c.buckets|
    ensures var r := AddMutation(c, l, b, item);
      Opens(c, l, r, b, With(c.limits, l.lanes[b].open, item))
      && r.roundRobin == l.roundRobin && r.stickyIndex == l.stickyIndex
  {
    hide LaneOk, Home, Conserving, LoopCalm, LoopGrows, Routed, SameRouted, Core, Place, FlushBucket;
    CoreShaped(c, l, {});
    var open := l.lanes[b].open;
    if Fits(c.limits, open, item) {
      PlaceOpens(c, l, b, item);
    } else {
      FlushOpens(c, l, b, {});
      var flushed := FlushBucket(c, l, b);
      PlaceOpens(c, flushed, b, item);
    }
  }

  // -------------------------------------------------------------------- one write

  /** The write was added to bucket `b` and to no other, and nothing was turned away. */
  ghost predicate GoesTo(before: Loop, after: Loop, b: Bucket, item: Item)
  {
    b in before.lanes && b in after.lanes && after.rejected == before.rejected
    && after.lanes[b].routed == before.lanes[b].routed + [item]
    && forall x :: x in before.lanes && x != b ==> x in after.lanes && after.lanes[x].routed == before.lanes[x].routed
  }

  lemma RoutedGoes(before: Loop, after: Loop, b: Bucket, item: Item)
    requires Routed(before, after, b, item)
    ensures GoesTo(before, after, b, item)
  {
    assert forall x :: x in before.lanes && x != b ==> before.lanes[x].routed + [] == before.lanes[x].routed;
  }

  lemma InvShaped(c: Config, l: Loop)
    requires LoopInv(c, l)
    ensures ValidConfig(c) && Shaped(c, l) && -1 <= l.stickyIndex < |c.buckets|
  {
  }

  /** What `AddKeeps` says of a write that is not turned away. */
  lemma AddGoes(c: Config, l: Loop, item: Item, route: Destination)
    requires LoopInv(c, l) && Admissible(c, item, route) && !route.Unroutable?
    ensures ValidConfig(c) && Shaped(c, l) && -1 <= l.stickyIndex < |c.buckets|
    ensures GoesTo(l, Add(c, l, item, route, false), Target(c, l, item, route), item)
  {
    hide LoopInv, LoopCalm, LoopGrows, Routed, Add, Target, GoesTo;
    InvShaped(c, l);
    AddKeeps(c, l, item, route, false);
    RoutedGoes(l, Add(c, l, item, route, false), Target(c, l, item, route), item);
  }

  /** A write with a bucket of its own, given or hashed, goes to that bucket: a row into its batch, an Arrow write alone. */
  lemma RouteHonoured(c: Config, l: Loop, item: Item, b: Bucket)
    requires LoopInv(c, l) && Admissible(c, item, To(b))
    ensures Shaped(c, l) && |c.buckets| >= 1 && -1 <= l.stickyIndex < |c.buckets| && b in l.lanes
    ensures var r := Add(c, l, item, To(b), false);
      GoesTo(l, r, b, item) && r.roundRobin == l.roundRobin && r.stickyIndex == l.stickyIndex
      && (!item.arrow ==> Opens(c, l, r, b, With(c.limits, l.lanes[b].open, item)))
      && (item.arrow ==> b in r.lanes && r.lanes[b].open.items == [])
  {
    hide LoopInv, AddMutation, AddArrow, With, GoesTo, Opens;
    AddGoes(c, l, item, To(b));
    if item.arrow {
      ArrowOpens(c, l, b, item);
    } else {
      RowOpens(c, l, b, item);
    }
  }

  lemma ArrowOpens(c: Config, l: Loop, b: Bucket, item: Item)
    requires LoopInv(c, l) && b in l.lanes && item.arrow
    ensures Shaped(c, l)
    ensures var r := AddArrow(c, l, b, item);
      b in r.lanes && r.lanes[b].open.items == [] && r.roundRobin == l.roundRobin && r.stickyIndex == l.stickyIndex
  {
    hide LaneOk, Home, LoopCalm, LoopGrows, SameRouted, Became, Core, Conserving, FlushBucket;
    CoreShaped(c, l, {});
    FlushKeeps(c, l, b, {});
    var flushed := FlushBucket(c, l, b);
    assert Shaped(c, flushed) by { CoreShaped(c, flushed, {}); }
    FlushKeepsTurns(c, At(flushed, b, Enter(flushed.lanes[b].(open := EMPTY), item, 0)), b);
    FlushEmpties(c, At(flushed, b, Enter(flushed.lanes[b].(open := EMPTY), item, 0)), b);
  }

  lemma {:induction false} DispatchKeepsOpen(c: Config, l: Loop, i: nat)
    requires Shaped(c, l) && i <= |c.buckets|
    ensures forall b :: b in l.lanes ==> DispatchFrom(c, l, i).lanes[b].open == l.lanes[b].open
    decreases |c.buckets| - i
  {
    if i < |c.buckets| && l.inFlight < c.maxConcurrent {
      if Eligible(l.lanes[c.buckets[i]]) {
        DispatchKeepsOpen(c, StartAt(l, c.buckets[i]), i + 1);
      } else {
        DispatchKeepsOpen(c, l, i + 1);
      }
    }
  }

  lemma FlushEmpties(c: Config, l: Loop, b: Bucket)
    requires Shaped(c, l) && b in l.lanes
    ensures FlushBucket(c, l, b).lanes[b].open.items == []
  {
    DispatchKeepsOpen(c, At(l, b, Close(l.lanes[b])), 0);
  }

  /** The n-th row of a round-robin writer goes to the n-th bucket, counting around the list. */
  lemma RoundRobinTurn(c: Config, l: Loop, item: Item)
    requires LoopInv(c, l) && Admissible(c, item, Free) && c.assigner.RoundRobin?
    ensures Shaped(c, l) && |c.buckets| >= 1 && -1 <= l.stickyIndex < |c.buckets|
    ensures var r := Add(c, l, item, Free, false); var b := c.buckets[l.roundRobin % |c.buckets|];
      GoesTo(l, r, b, item) && r.roundRobin == l.roundRobin + 1
      && Opens(c, l, r, b, With(c.limits, l.lanes[b].open, item))
  {
    hide LoopInv, AddMutation, With, GoesTo, Opens;
    AddGoes(c, l, item, Free);
    var b := c.buckets[l.roundRobin % |c.buckets|];
    StickyHome(c, l);
    var asked := l.(roundRobin := l.roundRobin + 1);
    RowOpens(c, asked, b, item);
    SameBatches(c, l, asked, AddMutation(c, asked, b, item), b, With(c.limits, l.lanes[b].open, item));
  }

  lemma SameBatches(c: Config, l: Loop, asked: Loop, r: Loop, b: Bucket, batch: Batch)
    requires asked.lanes == l.lanes && Opens(c, asked, r, b, batch)
    ensures Opens(c, l, r, b, batch)
  {
  }

  /** The index a sticky writer writes at. */
  function Current(l: Loop): nat
  {
    if l.stickyIndex < 0 then 0 else l.stickyIndex
  }

  /** The row stays at the writer's bucket if the batch there takes it, or is of other target columns. */
  predicate Stays(c: Config, open: Batch, item: Item)
  {
    Fits(c.limits, open, item) || open.items[0].targets != item.targets
  }

  /** `r` is `l` after a row that went to index `at`, whose batch then was `batch`. */
  ghost predicate Sticks(c: Config, r: Loop, at: nat, batch: Batch)
    requires at < |c.buckets|
  {
    c.buckets[at] in r.lanes && r.lanes[c.buckets[at]].open == (if Ripe(c, batch) then EMPTY else batch)
    && r.stickyIndex == if Ripe(c, batch) then (at + 1) % |c.buckets| else at
  }

  function StickyAt(c: Config, here: nat, open: Batch, item: Item): (at: nat)
    requires here < |c.buckets|
    ensures at < |c.buckets|
  {
    if Stays(c, open, item) then here else (here + 1) % |c.buckets|
  }

  /**
   Rows of a sticky writer stay in one bucket until its batch cannot take the next one or is
   ripe with it; then the writer moves to the next bucket of the list. A row of other target
   columns starts a new batch where it is.
   */
  lemma StickyTurn(c: Config, l: Loop, item: Item, open: Batch)
    requires LoopInv(c, l) && Admissible(c, item, Free) && c.assigner.Sticky?
    requires c.buckets[Current(l)] in l.lanes && open == l.lanes[c.buckets[Current(l)]].open
    ensures Shaped(c, l) && -1 <= l.stickyIndex < |c.buckets|
    ensures var r, at := Add(c, l, item, Free, false), StickyAt(c, Current(l), open, item);
      GoesTo(l, r, c.buckets[at], item) && Sticks(c, r, at, With(c.limits, open, item))
  {
    hide LoopInv, AddMutation, With, GoesTo, Sticks;
    AddGoes(c, l, item, Free);
    StickyHome(c, l);
    StickyOpens(c, l.(stickyIndex := Current(l)), item, open);
  }

  lemma StickyOpens(c: Config, l: Loop, item: Item, open: Batch)
    requires LoopInv(c, l) && !item.arrow && c.assigner.Sticky? && 0 <= l.stickyIndex < |c.buckets|
    requires c.buckets[l.stickyIndex] in l.lanes && open == l.lanes[c.buckets[l.stickyIndex]].open
    ensures Shaped(c, l)
    ensures Sticks(c, AddMutation(c, l, c.buckets[l.stickyIndex], item), StickyAt(c, l.stickyIndex, open, item),
                   With(c.limits, open, item))
  {
    hide LaneOk, Conserving, LoopCalm, LoopGrows, Routed, SameRouted, Core, Place, FlushBucket;
    CoreShaped(c, l, {});
    var b := c.buckets[l.stickyIndex];
    if Fits(c.limits, l.lanes[b].open, item) {
      PlaceOpens(c, l, b, item);
    } else {
      FlushOpens(c, l, b, {});
      var flushed := FlushBucket(c, l, b);
      StickyFlushed(c, flushed, b);
      StickyMoves(c, flushed);
      assert Shaped(c, flushed) by { CoreShaped(c, flushed, {}); }
      if l.lanes[b].open.items[0].targets != item.targets {
        PlaceOpens(c, flushed, b, item);
      } else {
        var moved := AdvanceSticky(c, flushed);
        QuietEmpty(c, moved, c.buckets[moved.stickyIndex]);
        PlaceOpens(c, moved, c.buckets[moved.stickyIndex], item);
      }
    }
  }

  lemma QuietEmpty(c: Config, l: Loop, b: Bucket)
    requires LoopInv(c, l) && b in l.lanes && l.lanes[b].open.items == []
    ensures l.lanes[b].open == EMPTY
  {
    hide Conserving, LaneInv, Home;
    assert LaneOk(c.limits, l.lanes[b], false);
  }

  // ------------------------------------------------------------------------ whole runs

  datatype Ask = Ask(item: Item, route: Destination)

  function Asked(step: Step): seq<Ask>
  {
    if step.Accept? then [Ask(step.item, step.route)] else []
  }

  /** The writes callers queued, in the order of their steps. */
  function Asks(steps: seq<Step>): seq<Ask>
  {
    if steps == [] then []
    else Asked(steps[0]) + Asks(steps[1..])
  }

  function Waiting(queue: seq<Command>): seq<Ask>
  {
    if queue == [] then []
    else (if queue[0].Write? then [Ask(queue[0].item, queue[0].route)] else []) + Waiting(queue[1..])
  }

  predicate TakesWrite(s: System, step: Step)
  {
    step.Take? && s.queue != [] && s.queue[0].Write?
  }

  function WasGone(s: System, step: Step): seq<bool>
  {
    if TakesWrite(s, step) then [step.cancelled] else []
  }

  /** For every write taken from the queue, in order, whether its caller had given up by then. */
  function Gone(u: Setup, s: System, steps: seq<Step>): seq<bool>
    requires CanRun(u, s, steps)
    decreases |steps|
  {
    if steps == [] then []
    else WasGone(s, steps[0]) + Gone(u, Apply(u, s, steps[0]), steps[1..])
  }

  /** `turn` is the number of rows the assigner placed before. */
  predicate Obeyed(c: Config, turn: nat, ask: Ask, gone: bool, d: Decision)
    requires |c.buckets| >= 1
  {
    if gone || ask.route.Unroutable? then d == Turned(ask.item)
    else if ask.route.To? then d == Placed(ask.item, ask.route.bucket)
    else
      d.Placed? && d.item == ask.item && d.bucket in c.buckets
      && (c.assigner.RoundRobin? ==> d.bucket == c.buckets[turn % |c.buckets|])
  }

  function NextTurn(turn: nat, ask: Ask, gone: bool): nat
  {
    if ask.route.Free? && !gone then turn + 1 else turn
  }

  predicate Matches(c: Config, turn: nat, asks: seq<Ask>, gone: seq<bool>, decided: seq<Decision>)
    requires |c.buckets| >= 1
    decreases |decided|
  {
    |decided| == |gone| <= |asks|
    && (decided == []
        || (Obeyed(c, turn, asks[0], gone[0], decided[0])
            && Matches(c, NextTurn(turn, asks[0], gone[0]), asks[1..], gone[1..], decided[1..])))
  }

  lemma {:induction false} WaitingConcat(a: seq<Command>, b: seq<Command>)
    ensures Waiting(a + b) == Waiting(a) + Waiting(b)
  {
    if a == [] {
      assert a + b == b;
    } else {
      assert (a + b)[0] == a[0] && (a + b)[1..] == a[1..] + b;
      WaitingConcat(a[1..], b);
    }
  }

  lemma {:induction false} QueueKeepsTurns(c: Config, l: Loop, i: nat)
    requires Shaped(c, l) && i <= |c.buckets|
    ensures QueueFrom(c, l, i).roundRobin == l.roundRobin
    decreases |c.buckets| - i
  {
    hide FlushBucket;
    if i < |c.buckets| {
      FlushKeepsTurns(c, l, c.buckets[i]);
      QueueKeepsTurns(c, FlushBucket(c, l, c.buckets[i]), i + 1);
    }
  }

  /** Taking a write decides it as its route says. */
  lemma TakeObeys(u: Setup, s: System, cancelled: bool, r: System)
    requires Enabled(u, s, Take(cancelled)) && TakesWrite(s, Take(cancelled)) && r == Apply(u, s, Take(cancelled))
    requires LoopInv(u.config, s.loop)
    ensures |r.decided| == |s.decided| + 1 && s.decided <= r.decided && r.queue == s.queue[1..]
    ensures var ask := Ask(s.queue[0].item, s.queue[0].route);
      Obeyed(u.config, s.loop.roundRobin, ask, cancelled, r.decided[|s.decided|])
      && (u.config.assigner.RoundRobin? ==> r.loop.roundRobin == NextTurn(s.loop.roundRobin, ask, cancelled))
  {
    hide LoopInv, AddMutation, AddArrow, With, GoesTo, Opens, Answers, Launch;
    var c, item, route := u.config, s.queue[0].item, s.queue[0].route;
    if !cancelled && route.To? {
      RouteHonoured(c, s.loop, item, route.bucket);
      assert Target(c, s.loop, item, route) == route.bucket;
    } else if !cancelled && route.Free? {
      AddGoes(c, s.loop, item, route);
      TargetInside(c, s.loop, item);
      if c.assigner.RoundRobin? {
        RoundRobinTurn(c, s.loop, item);
      }
    }
  }

  lemma TargetInside(c: Config, l: Loop, item: Item)
    requires |c.buckets| >= 1 && -1 <= l.stickyIndex < |c.buckets| && Shaped(c, l)
    ensures Target(c, l, item, Free) in c.buckets
    ensures c.assigner.RoundRobin? ==> Target(c, l, item, Free) == c.buckets[l.roundRobin % |c.buckets|]
  {
  }

  /** Every other step decides nothing and leaves the assigner alone. */
  lemma OtherSteps(u: Setup, s: System, step: Step, r: System)
    requires Enabled(u, s, step) && r == Apply(u, s, step) && !TakesWrite(s, step)
    ensures r.decided == s.decided && r.loop.roundRobin == s.loop.roundRobin
    ensures Waiting(r.queue) == Waiting(s.queue) + Asked(step)
  {
    hide Answers, Launch, QueueFrom, QueueFails, Finish;
    match step {
      case Accept(item, route) => WaitingConcat(s.queue, [Write(item, route)]);
      case AskFlush => WaitingConcat(s.queue, [FlushAsked]);
      case AskClose => WaitingConcat(s.queue, [CloseAsked]);
      case Take(_) => QueueKeepsTurns(u.config, s.loop, 0);
      case Timer => QueueKeepsTurns(u.config, s.loop, 0);
      case Complete(b) => FinishKeepsTurns(u.config, s.loop, b, s.nets[b].attempts.outcome);
      case _ =>
    }
  }

  lemma FinishKeepsTurns(c: Config, l: Loop, b: Bucket, outcome: Outcome)
    requires Shaped(c, l) && b in l.lanes && l.lanes[b].started != []
    ensures Finish(c, l, b, outcome).roundRobin == l.roundRobin
  {
    DispatchKeepsTurns(c, At(l, b, Finished(l.lanes[b], outcome)).(inFlight := l.inFlight - 1), 0);
  }

  function TurnAfter(s: System, step: Step, turn: nat): nat
  {
    if TakesWrite(s, step) then NextTurn(turn, Ask(s.queue[0].item, s.queue[0].route), step.cancelled) else turn
  }

  lemma StepObeys(u: Setup, s: System, step: Step, r: System, turn: nat, asks: seq<Ask>, gone: seq<bool>,
                  decided: seq<Decision>)
    requires Enabled(u, s, step) && r == Apply(u, s, step) && |u.config.buckets| >= 1
    requires u.config.assigner.RoundRobin? ==> turn == s.loop.roundRobin
    requires LoopInv(u.config, s.loop)
    ensures u.config.assigner.RoundRobin? ==> TurnAfter(s, step, turn) == r.loop.roundRobin
    ensures r.decided <= decided
            && Matches(u.config, TurnAfter(s, step, turn), Waiting(r.queue) + asks, gone, decided[|r.decided|..]) ==>
      s.decided <= decided
      && Matches(u.config, turn, Waiting(s.queue) + (Asked(step) + asks), WasGone(s, step) + gone, decided[|s.decided|..])
  {
    hide Apply, LoopInv, Shaped, Matches, Waiting, Obeyed;
    if TakesWrite(s, step) {
      var ask := Ask(s.queue[0].item, s.queue[0].route);
      TakeObeys(u, s, step.cancelled, r);
      ObeyedTurn(u.config, s.loop.roundRobin, turn, ask, step.cancelled, r.decided[|s.decided|]);
      assert Asked(step) + asks == asks;
      if r.decided <= decided
         && Matches(u.config, TurnAfter(s, step, turn), Waiting(r.queue) + asks, gone, decided[|r.decided|..]) {
        TookOne(u.config, turn, s, r, ask, step.cancelled, asks, gone, decided);
      }
    } else {
      OtherSteps(u, s, step, r);
      assert Waiting(s.queue) + (Asked(step) + asks) == Waiting(r.queue) + asks;
      assert WasGone(s, step) + gone == gone;
    }
  }

  lemma ObeyedTurn(c: Config, turn: nat, other: nat, ask: Ask, gone: bool, d: Decision)
    requires |c.buckets| >= 1 && Obeyed(c, turn, ask, gone, d) && (c.assigner.RoundRobin? ==> turn == other)
    ensures Obeyed(c, other, ask, gone, d)
  {
  }

  lemma {:induction false} RunObeys(u: Setup, s: System, steps: seq<Step>, turn: nat)
    requires CanRun(u, s, steps) && Inv(u, s) && (u.config.assigner.RoundRobin? ==> turn == s.loop.roundRobin)
    ensures |u.config.buckets| >= 1
    ensures s.decided <= Run(u, s, steps).decided
    ensures Matches(u.config, turn, Waiting(s.queue) + Asks(steps), Gone(u, s, steps),
                    Run(u, s, steps).decided[|s.decided|..])
    decreases |steps|
  {
    hide Enabled, Apply, Waiting, Matches, Inv, LoopInv, TurnAfter, TakesWrite, WasGone, Asked;
    ReachedLoop(u, s);
    if steps == [] {
      NothingDecided(u.config, turn, Waiting(s.queue), s.decided);
    } else {
      var step := steps[0];
      var r := Apply(u, s, step);
      StepKeeps(u, s, step);
      StepObeys(u, s, step, r, turn, Asks(steps[1..]), Gone(u, r, steps[1..]), Run(u, r, steps[1..]).decided);
      RunObeys(u, r, steps[1..], TurnAfter(s, step, turn));
    }
  }

  lemma ReachedLoop(u: Setup, s: System)
    requires Inv(u, s)
    ensures LoopInv(u.config, s.loop) && |u.config.buckets| >= 1
  {
    hide LoopInv, NetsLinked, Ordered, Slotted, ClosesLast, Drains;
  }

  lemma NothingDecided(c: Config, turn: nat, asks: seq<Ask>, decided: seq<Decision>)
    requires |c.buckets| >= 1
    ensures Matches(c, turn, asks + [], [], decided[|decided|..])
  {
  }

  lemma TookOne(c: Config, turn: nat, s: System, r: System, ask: Ask, gone: bool, asks: seq<Ask>, rest: seq<bool>,
                decided: seq<Decision>)
    requires |c.buckets| >= 1 && s.queue != [] && s.queue[0] == Write(ask.item, ask.route) && r.queue == s.queue[1..]
    requires |r.decided| == |s.decided| + 1 && s.decided <= r.decided <= decided
    requires Obeyed(c, turn, ask, gone, r.decided[|s.decided|])
    requires Matches(c, NextTurn(turn, ask, gone), Waiting(r.queue) + asks, rest, decided[|r.decided|..])
    ensures Matches(c, turn, Waiting(s.queue) + asks, [gone] + rest, decided[|s.decided|..])
  {
    hide Obeyed, Matches;
    WaitingFirst(s.queue);
    var d := r.decided[|s.decided|];
    OneMore(c, turn, ask, gone, Waiting(r.queue) + asks, rest, d, decided[|r.decided|..]);
    assert decided[|s.decided|..] == [d] + decided[|r.decided|..];
    assert Waiting(s.queue) + asks == [ask] + (Waiting(r.queue) + asks);
  }

  lemma WaitingFirst(queue: seq<Command>)
    requires queue != [] && queue[0].Write?
    ensures Waiting(queue) == [Ask(queue[0].item, queue[0].route)] + Waiting(queue[1..])
  {
  }

  lemma OneMore(c: Config, turn: nat, ask: Ask, gone: bool, asks: seq<Ask>, rest: seq<bool>, d: Decision,
                decided: seq<Decision>)
    requires |c.buckets| >= 1 && Obeyed(c, turn, ask, gone, d)
    requires Matches(c, NextTurn(turn, ask, gone), asks, rest, decided)
    ensures Matches(c, turn, [ask] + asks, [gone] + rest, [d] + decided)
  {
    hide Obeyed;
    assert ([ask] + asks)[1..] == asks && ([gone] + rest)[1..] == rest && ([d] + decided)[1..] == decided;
  }

  /** Rows the assigner placed among the first `k` writes. */
  function FreeBefore(asks: seq<Ask>, gone: seq<bool>, k: nat): nat
    requires k <= |gone| <= |asks|
    decreases k
  {
    if k == 0 then 0
    else (if asks[0].route.Free? && !gone[0] then 1 else 0) + FreeBefore(asks[1..], gone[1..], k - 1)
  }

  lemma {:induction false} MatchesAt(c: Config, turn: nat, asks: seq<Ask>, gone: seq<bool>, decided: seq<Decision>, k: nat)
    requires |c.buckets| >= 1 && Matches(c, turn, asks, gone, decided) && k < |decided|
    ensures Obeyed(c, turn + FreeBefore(asks, gone, k), asks[k], gone[k], decided[k])
    decreases k
  {
    hide Obeyed;
    if k > 0 {
      MatchesAt(c, NextTurn(turn, asks[0], gone[0]), asks[1..], gone[1..], decided[1..], k - 1);
    }
  }

  lemma MatchesLengths(c: Config, turn: nat, asks: seq<Ask>, gone: seq<bool>, decided: seq<Decision>)
    requires |c.buckets| >= 1 && Matches(c, turn, asks, gone, decided)
    ensures |decided| == |gone| <= |asks|
  {
  }

  lemma RunFromStart(u: Setup, steps: seq<Step>)
    requires ValidSetup(u) && CanRun(u, Init(u), steps)
    ensures |u.config.buckets| >= 1
    ensures Matches(u.config, 0, Asks(steps), Gone(u, Init(u), steps), Run(u, Init(u), steps).decided)
  {
    hide Inv, Run, CanRun, Obeyed, Asks, Gone, Matches;
    InitInv(u);
    var s := Init(u);
    RunObeys(u, s, steps, 0);
    var decided := Run(u, s, steps).decided;
    assert decided[0..] == decided && Waiting(s.queue) + Asks(steps) == Asks(steps);
  }

  /**
   In every run, the k-th write queued is decided by its own route: turned away if and only if
   its caller was gone or it could not be routed, placed in the bucket its route names, and a
   row of a round-robin writer in the bucket whose turn it is.
   */
  lemma DecisionsObeyRoutes(u: Setup, steps: seq<Step>, k: nat)
    requires ValidSetup(u) && CanRun(u, Init(u), steps) && k < |Run(u, Init(u), steps).decided|
    ensures |Gone(u, Init(u), steps)| == |Run(u, Init(u), steps).decided| <= |Asks(steps)|
    ensures Obeyed(u.config, FreeBefore(Asks(steps), Gone(u, Init(u), steps), k), Asks(steps)[k],
                   Gone(u, Init(u), steps)[k], Run(u, Init(u), steps).decided[k])
  {
    hide Inv, Run, CanRun, Obeyed, Asks, Gone, Matches, Init;
    RunFromStart(u, steps);
    var s := Init(u);
    var decided := Run(u, s, steps).decided;
    MatchesLengths(u.config, 0, Asks(steps), Gone(u, s, steps), decided);
    MatchesAt(u.config, 0, Asks(steps), Gone(u, s, steps), decided, k);
  }

  /** The writes routed to `b` among those decided. */
  function Chosen(asks: seq<Ask>, gone: seq<bool>, b: Bucket): seq<Item>
    requires |gone| <= |asks|
    decreases |gone|
  {
    if gone == [] then []
    else (if !gone[0] && asks[0].route == To(b) then [asks[0].item] else []) + Chosen(asks[1..], gone[1..], b)
  }

  lemma {:induction false} RoutedSplit(first: Decision, rest: seq<Decision>, b: Bucket)
    ensures RoutedTo([first] + rest, b) == RoutedTo([first], b) + RoutedTo(rest, b)
    decreases |rest|
  {
    if rest == [] {
      assert [first] + rest == [first];
    } else {
      var n := |rest| - 1;
      RoutedSplit(first, rest[..n], b);
      assert ([first] + rest)[..n + 1] == [first] + rest[..n];
    }
  }

  lemma {:induction false} KeyedChosen(c: Config, turn: nat, asks: seq<Ask>, gone: seq<bool>, decided: seq<Decision>,
                                       b: Bucket)
    requires |c.buckets| >= 1 && Matches(c, turn, asks, gone, decided)
    requires forall i :: 0 <= i < |asks| ==> !asks[i].route.Free?
    ensures RoutedTo(decided, b) == Chosen(asks, gone, b)
    decreases |decided|
  {
    if decided != [] {
      KeyedChosen(c, NextTurn(turn, asks[0], gone[0]), asks[1..], gone[1..], decided[1..], b);
      assert decided == [decided[0]] + decided[1..];
      RoutedSplit(decided[0], decided[1..], b);
      assert [decided[0]][..0] == [];
    }
  }

  /**
   A bucket of a writer whose writes all name their bucket receives exactly the writes that
   name it and whose callers were there when the scheduler took them, in the order queued.
   */
  lemma BucketsReceiveTheirs(u: Setup, steps: seq<Step>, b: Bucket)
    requires ValidSetup(u) && CanRun(u, Init(u), steps) && b in u.config.buckets
    requires forall i :: 0 <= i < |Asks(steps)| ==> !Asks(steps)[i].route.Free?
    ensures |Gone(u, Init(u), steps)| <= |Asks(steps)|
    ensures var s := Run(u, Init(u), steps);
      b in s.loop.lanes && s.loop.lanes[b].routed == Chosen(Asks(steps), Gone(u, Init(u), steps), b)
  {
    hide Inv, Run, CanRun, Obeyed, Asks, LaneInv, Linked, LaneOk, Gone, Matches, Init;
    var s := Init(u);
    RunFromStart(u, steps);
    InitInv(u);
    RunKeeps(u, s, steps);
    var t := Run(u, s, steps);
    ReachedBucket(u, t, b);
    MatchesLengths(u.config, 0, Asks(steps), Gone(u, s, steps), t.decided);
    KeyedChosen(u.config, 0, Asks(steps), Gone(u, s, steps), t.decided, b);
  }
}
