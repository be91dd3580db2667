/** What holds after every run of a batching writer, whatever the network and the servers do. */
module WriterRuns {
  import opened WriterLanes
  import opened WriterLoop
  import opened WriterLoopProofs
  import opened WriterFlush
  import opened WriterServer
  import opened WriterSystem

  // ------------------------------------------------------------------------ accounting

  lemma {:induction false} SumSame(buckets: seq<Bucket>, before: map<Bucket, Lane>, after: map<Bucket, Lane>)
    requires forall b :: b in buckets ==> b in before && b in after && after[b].routed == before[b].routed
    ensures SumRouted(buckets, after) == SumRouted(buckets, before)
  {
    if buckets != [] {
      assert buckets[0] in buckets;
      SumSame(buckets[1..], before, after);
    }
  }

  /** One more write in one bucket is one more in the sum. */
  lemma {:induction false} SumOneMore(
    buckets: seq<Bucket>, before: map<Bucket, Lane>, after: map<Bucket, Lane>, to: Bucket, item: Item)
    requires Distinct(buckets) && to in buckets
    requires forall b :: b in buckets ==> b in before && b in after
    requires forall b :: b in buckets ==> after[b].routed == before[b].routed + (if b == to then [item] else [])
    ensures SumRouted(buckets, after) == SumRouted(buckets, before) + 1
  {
    assert buckets[0] in buckets;
    if buckets[0] == to {
      forall b | b in buckets[1..] ensures after[b].routed == before[b].routed {
        assert b != to;
      }
      SumSame(buckets[1..], before, after);
    } else {
      SumOneMore(buckets[1..], before, after, to, item);
    }
  }

  lemma DecideOne(decided: seq<Decision>, d: Decision)
    ensures DecidedItems(decided + [d]) == DecidedItems(decided) + [d.item]
    ensures TurnedAway(decided + [d]) == TurnedAway(decided) + (if d.Turned? then [d.item] else [])
    ensures forall b :: RoutedTo(decided + [d], b) ==
                        RoutedTo(decided, b) + (if d.Placed? && d.bucket == b then [d.item] else [])
  {
    var all := decided + [d];
    assert all[..|all| - 1] == decided && all[|all| - 1] == d;
  }

  lemma {:induction false} QueuedConcat(a: seq<Command>, b: seq<Command>)
    ensures Queued(a + b) == Queued(a) + Queued(b)
  {
    if a == [] {
      assert a + b == b;
    } else {
      assert (a + b)[0] == a[0] && (a + b)[1..] == a[1..] + b;
      QueuedConcat(a[1..], b);
    }
  }

  // ------------------------------------------------------- how each part is kept

  /** The scheduler took a write and decided where it goes. */
  ghost predicate Decides(before: Loop, after: Loop, d: Decision)
  {
    if d.Turned? then after.lanes == before.lanes && after.rejected == before.rejected + [d.item]
    else Routed(before, after, d.bucket, d.item)
  }

  lemma DecidedOrdered(u: Setup, s: System, r: System, d: Decision)
    requires Ordered(u, s) && s.queue != [] && s.queue[0].Write? && d.item == s.queue[0].item
    requires Decides(s.loop, r.loop, d) && r.loop.lanes.Keys == s.loop.lanes.Keys
    requires r.queue == s.queue[1..] && r.accepted == s.accepted && r.decided == s.decided + [d]
    ensures Ordered(u, r)
  {
    hide RoutedTo, TurnedAway, DecidedItems, Admissible;
    DecideOne(s.decided, d);
    assert Queued(s.queue) == [d.item] + Queued(r.queue);
    forall k | 0 <= k < |r.queue| && r.queue[k].Write?
      ensures Admissible(u.config, r.queue[k].item, r.queue[k].route)
    {
      assert r.queue[k] == s.queue[k + 1];
    }
  }

  lemma DecidedSlotted(u: Setup, s: System, r: System, d: Decision)
    requires Distinct(u.config.buckets) && Shaped(u.config, s.loop) && Shaped(u.config, r.loop)
    requires Slotted(u, s) && Decides(s.loop, r.loop, d)
    requires r.held == s.held - (Answers(u.config, r.loop) - Answers(u.config, s.loop)) && r.reserved == s.reserved
    requires r.accepted == s.accepted && r.decided == s.decided + [d] && r.held <= s.held
    ensures Slotted(u, r)
  {
    hide Answers, Distinct;
    if d.Turned? {
      SumSame(u.config.buckets, s.loop.lanes, r.loop.lanes);
    } else {
      SumOneMore(u.config.buckets, s.loop.lanes, r.loop.lanes, d.bucket, d.item);
    }
  }

  lemma KeptOrdered(u: Setup, s: System, r: System)
    requires Ordered(u, s) && SameRouted(s.loop, r.loop) && r.loop.lanes.Keys == s.loop.lanes.Keys
    requires r.accepted == s.accepted && r.decided == s.decided
    requires r.queue == s.queue || (s.queue != [] && !s.queue[0].Write? && r.queue == s.queue[1..])
    ensures Ordered(u, r)
  {
    hide RoutedTo, TurnedAway, DecidedItems, Admissible;
    assert Queued(r.queue) == Queued(s.queue);
    forall k | 0 <= k < |r.queue| && r.queue[k].Write?
      ensures Admissible(u.config, r.queue[k].item, r.queue[k].route)
    {
      assert r.queue[k] in s.queue;
    }
  }

  lemma KeptSlotted(u: Setup, s: System, r: System)
    requires Shaped(u.config, s.loop) && Shaped(u.config, r.loop)
    requires Slotted(u, s) && SameRouted(s.loop, r.loop)
    requires r.held == s.held - (Answers(u.config, r.loop) - Answers(u.config, s.loop)) && r.reserved == s.reserved
    requires r.accepted == s.accepted && r.decided == s.decided && r.held <= s.held
    ensures Slotted(u, r)
  {
    hide Answers;
    SumSame(u.config.buckets, s.loop.lanes, r.loop.lanes);
  }

  lemma TakenCloses(s: System, r: System)
    requires ClosesLast(s) && s.queue != [] && s.phase.Running? && r.queue == s.queue[1..] && r.closed == s.closed
    requires if s.queue[0].Write? then r.phase.Running?
             else r.phase.Draining? && r.phase.closing == s.queue[0].CloseAsked?
    ensures ClosesLast(r)
  {
    forall k | 0 <= k < |r.queue| && r.queue[k].CloseAsked? ensures k == |r.queue| - 1 {
      assert s.queue[k + 1].CloseAsked?;
    }
  }

  lemma SameCloses(s: System, r: System)
    requires ClosesLast(s) && r.queue == s.queue && r.closed == s.closed && r.phase == s.phase
    ensures ClosesLast(r)
  {
  }

  lemma {:induction false} SumGrows(buckets: seq<Bucket>, before: map<Bucket, Lane>, after: map<Bucket, Lane>)
    requires forall b :: b in buckets ==> b in before && b in after && before[b].completed <= after[b].completed
    ensures SumCompleted(buckets, before) <= SumCompleted(buckets, after)
  {
    if buckets != [] {
      assert buckets[0] in buckets;
      SumGrows(buckets[1..], before, after);
    }
  }

  /** Answers are never taken back, so slots are only released. */
  lemma AnswersGrow(c: Config, before: Loop, after: Loop)
    requires Shaped(c, before) && Shaped(c, after) && LoopGrows(before, after)
    ensures Answers(c, before) <= Answers(c, after)
  {
    SumGrows(c.buckets, before.lanes, after.lanes);
  }

  // --------------------------------------------------------------------- network steps

  lemma NetKeeps(u: Setup, s: System, b: Bucket, net: Net)
    requires Inv(u, s) && b in s.nets && b in s.loop.lanes && Linked(s.loop.lanes[b], net, u.maxAttempts)
    ensures Inv(u, WithNet(s, b, net))
  {
    hide Linked, Core, Conserving, Quiet, LoopGrows, SameRouted, Unfailed, Drained, Distinct, RoutedTo;
    var r := WithNet(s, b, net);
    CoreShaped(u.config, s.loop, {});
    assert r.nets.Keys == s.nets.Keys;
    assert Ordered(u, r);
  }

  lemma NetStep(u: Setup, s: System, step: Step, r: System)
    requires Enabled(u, s, step) && r == Apply(u, s, step)
    requires step.Transmit? || step.Arrive? || step.Others? || step.Hear? || step.Lose? || step.Abandon?
    requires Inv(u, s)
    ensures Inv(u, r)
  {
    hide Linked, LoopInv, Ordered, Slotted, ClosesLast, Drains, Send, Deliver, Interleave, Receive, Break, GiveUp;
    var b := step.bucket;
    var lane, net := s.loop.lanes[b], s.nets[b];
    assert LaneInv(lane) && Linked(lane, net, u.maxAttempts) && (lane.active <==> !net.attempts.Idle?) by { LaneOf(u, s, b); }
    hide NetsLinked, Inv;
    match step {
      case Transmit(_) =>
        SendKeeps(lane, net, u.maxAttempts);
        NetKeeps(u, s, b, Send(lane, net));
      case Arrive(_, call, honest) =>
        DeliverKeeps(lane, net, u.maxAttempts, call, honest);
        NetKeeps(u, s, b, Deliver(net, call, honest));
      case Others(_) =>
        InterleaveKeeps(lane, net, u.maxAttempts);
        NetKeeps(u, s, b, Interleave(net));
      case Hear(_, reply, retry) =>
        ReceiveKeeps(lane, net, u.maxAttempts, reply, retry);
        NetKeeps(u, s, b, Receive(net, reply, retry));
      case Lose(_, retry) =>
        BreakKeeps(lane, net, u.maxAttempts, retry);
        NetKeeps(u, s, b, Break(net, retry));
      case Abandon(_) =>
        BreakKeeps(lane, net, u.maxAttempts, false);
        NetKeeps(u, s, b, GiveUp(net));
    }
  }

  lemma LaneOf(u: Setup, s: System, b: Bucket)
    requires LoopInv(u.config, s.loop) && NetsLinked(u, s) && b in s.nets
    ensures b in s.loop.lanes && LaneInv(s.loop.lanes[b]) && Linked(s.loop.lanes[b], s.nets[b], u.maxAttempts)
    ensures s.loop.lanes[b].active <==> !s.nets[b].attempts.Idle?
  {
    hide LogHolds, Truthful, FromWriter, Sent, Room, Sendable, Home, Conserving;
    assert b in s.loop.lanes.Keys;
    assert LaneOk(u.config.limits, s.loop.lanes[b], false);
  }

  // ------------------------------------------------------------------ scheduler steps

  /** Scheduling that ends no call keeps every bucket linked to its server. */
  lemma AdvanceLinked(u: Setup, s: System, l: Loop)
    requires ValidSetup(u) && NetsLinked(u, s) && WellShaped(u, s) && Shaped(u.config, l) && LoopCalm(s.loop, l)
    ensures NetsLinked(u, Advance(u, s, s.nets, l))
  {
    hide Linked, Launch, Answers;
    var r := Advance(u, s, s.nets, l);
    assert r.nets.Keys == s.nets.Keys;
    assert l.lanes.Keys == s.loop.lanes.Keys;
    forall b | b in r.nets ensures Linked(l.lanes[b], r.nets[b], u.maxAttempts) {
      assert Calm(s.loop.lanes[b], l.lanes[b]);
      LaunchKeeps(s.loop.lanes[b], l.lanes[b], s.nets[b], u.maxAttempts);
    }
  }

  lemma SameNets(u: Setup, s: System, r: System)
    requires NetsLinked(u, s) && r.loop == s.loop && r.nets == s.nets
    ensures NetsLinked(u, r)
  {
  }

  lemma SameKeys(c: Config, l: Loop, r: Loop)
    requires Shaped(c, l) && Shaped(c, r)
    ensures l.lanes.Keys == r.lanes.Keys
  {
  }

  /** Closing every open batch, for the timer or a flush. */
  lemma QueueStep(u: Setup, s: System, r: System)
    requires WellShaped(u, s)
    requires var m := Advance(u, s, s.nets, QueueFrom(u.config, s.loop, 0));
      r == m.(queue := r.queue, phase := r.phase)
    requires r.queue == s.queue || (s.queue != [] && !s.queue[0].Write? && r.queue == s.queue[1..])
    requires ValidSetup(u) && LoopInv(u.config, s.loop) && NetsLinked(u, s) && Ordered(u, s) && Slotted(u, s)
    ensures LoopInv(u.config, r.loop) && NetsLinked(u, r) && Ordered(u, r) && Slotted(u, r)
    ensures Quiet(r.loop) && LoopGrows(s.loop, r.loop) && SameRouted(s.loop, r.loop)
    ensures QueueFails(u.config, s.loop, 0) <==> !Unfailed(s.loop, r.loop)
  {
    hide LoopInv, NetsLinked, Ordered, Slotted, Quiet, LoopGrows, LoopCalm, SameRouted, Unfailed, QueueFrom, QueueFails;
    hide Answers, Distinct;
    QueueKeeps(u.config, s.loop, 0);
    QueueReports(u.config, s.loop, 0);
    var l := QueueFrom(u.config, s.loop, 0);
    AdvanceLinked(u, s, l);
    SameNets(u, Advance(u, s, s.nets, l), r);
    AnswersGrow(u.config, s.loop, l);
    SameKeys(u.config, s.loop, l);
    KeptOrdered(u, s, r);
    KeptSlotted(u, s, r);
  }

  lemma TimerStep(u: Setup, s: System, r: System)
    requires Enabled(u, s, Timer) && r == Apply(u, s, Timer)
    requires Inv(u, s)
    ensures Inv(u, r)
  {
    hide LoopInv, NetsLinked, Ordered, Slotted, QueueFrom, Launch, Answers, ClosesLast, Distinct;
    hide Quiet, LoopGrows, SameRouted, Unfailed;
    QueueStep(u, s, r);
    SameCloses(s, r);
  }

  lemma DrainStep(u: Setup, s: System, cancelled: bool, r: System)
    requires Enabled(u, s, Take(cancelled)) && !s.queue[0].Write? && r == BeginDrain(u, s)
    requires Inv(u, s)
    ensures Inv(u, r)
  {
    hide LoopInv, NetsLinked, Ordered, Slotted, QueueFrom, QueueFails, Launch, Answers;
    hide Quiet, LoopGrows, SameRouted, Unfailed, ClosesLast;
    QueueStep(u, s, r);
    TakenCloses(s, r);
  }

  lemma TakeStep(u: Setup, s: System, cancelled: bool, r: System)
    requires Enabled(u, s, Take(cancelled)) && s.queue[0].Write? && r == TakeWrite(u, s, cancelled)
    requires Inv(u, s)
    ensures Inv(u, r)
  {
    hide LoopInv, NetsLinked, Ordered, Slotted, LoopGrows, LoopCalm, Add, Target, Distinct, ClosesLast, Answers, Routed;
    var c, item, route := u.config, s.queue[0].item, s.queue[0].route;
    var l := Add(c, s.loop, item, route, cancelled);
    var d := r.decided[|s.decided|];
    AddKeeps(c, s.loop, item, route, cancelled);
    AdvanceLinked(u, s, l);
    SameNets(u, Advance(u, s, s.nets, l), r);
    AnswersGrow(c, s.loop, l);
    SameKeys(c, s.loop, l);
    DecidedOrdered(u, s, r, d);
    DecidedSlotted(u, s, r, d);
    TakenCloses(s, r);
  }

  lemma CompleteStep(u: Setup, s: System, b: Bucket, r: System)
    requires Enabled(u, s, Complete(b)) && r == EndOfCall(u, s, b)
    requires Inv(u, s)
    ensures Inv(u, r)
  {
    hide LoopInv, NetsLinked, Ordered, Slotted, Drains, Distinct, EndOfCall, Enabled;
    CompleteParts(u, s, b, r);
    CompleteDrains(u, s, b, r);
  }

  lemma CompleteParts(u: Setup, s: System, b: Bucket, r: System)
    requires Enabled(u, s, Complete(b)) && r == EndOfCall(u, s, b)
    requires ValidSetup(u) && LoopInv(u.config, s.loop) && NetsLinked(u, s) && Ordered(u, s) && Slotted(u, s)
    requires ClosesLast(s)
    ensures LoopInv(u.config, r.loop) && NetsLinked(u, r) && Ordered(u, r) && Shaped(u.config, r.loop) && Slotted(u, r)
    ensures ClosesLast(r)
  {
    hide LoopInv, NetsLinked, Ordered, Slotted, LoopGrows, SameRouted, Unfailed, Quiet, Finish, Became, Answers, Distinct;
    LaneOf(u, s, b);
    var outcome := s.nets[b].attempts.outcome;
    var l := Finish(u.config, s.loop, b, outcome);
    FinishKeeps(u.config, s.loop, b, outcome);
    FinishNets(u, s, b, l);
    SameNets(u, Advance(u, s, s.nets[b := s.nets[b].(attempts := Idle)], l), r);
    AnswersGrow(u.config, s.loop, l);
    SameKeys(u.config, s.loop, l);
    KeptOrdered(u, s, r);
    KeptSlotted(u, s, r);
  }

  lemma CompleteDrains(u: Setup, s: System, b: Bucket, r: System)
    requires Enabled(u, s, Complete(b)) && r == EndOfCall(u, s, b)
    requires LoopInv(u.config, s.loop) && NetsLinked(u, s) && Drains(u, s)
    ensures Drains(u, r)
  {
    hide LoopInv, NetsLinked, LoopGrows, SameRouted, Unfailed, Quiet, Finish, Answers;
    LaneOf(u, s, b);
    if s.phase.Draining? {
      CompletionStep(u.config, s.phase.since, s.loop, b, s.nets[b].attempts.outcome);
    }
  }

  lemma FinishNets(u: Setup, s: System, b: Bucket, l: Loop)
    requires Enabled(u, s, Complete(b)) && Shaped(u.config, l)
    requires Became(s.loop, b, Finished(s.loop.lanes[b], s.nets[b].attempts.outcome), l)
    requires ValidSetup(u) && LoopInv(u.config, s.loop) && NetsLinked(u, s)
    ensures NetsLinked(u, Advance(u, s, s.nets[b := s.nets[b].(attempts := Idle)], l))
  {
    hide Linked, Launch, Answers, LoopInv, Finished, Distinct, SameWrites;
    var lane, net := s.loop.lanes[b], s.nets[b];
    LaneOf(u, s, b);
    FinishedLinked(lane, net, u.maxAttempts);
    var nets := s.nets[b := net.(attempts := Idle)];
    var r := Advance(u, s, nets, l);
    SameKeys(u.config, s.loop, l);
    assert nets.Keys == s.nets.Keys && r.nets.Keys == s.nets.Keys;
    forall x | x in r.nets ensures Linked(l.lanes[x], r.nets[x], u.maxAttempts) {
      if x == b {
        LaunchSame(Finished(lane, net.attempts.outcome), l.lanes[b], nets[b], u.maxAttempts);
      } else {
        LaunchSame(s.loop.lanes[x], l.lanes[x], s.nets[x], u.maxAttempts);
      }
    }
  }

  lemma LaunchSame(lane: Lane, after: Lane, net: Net, maxAttempts: nat)
    requires Linked(lane, net, maxAttempts) && maxAttempts >= 1 && SameWrites(lane, after)
    ensures Linked(after, Launch(after, net), maxAttempts)
  {
    hide Linked;
    LaunchKeeps(lane, after, net, maxAttempts);
  }

  lemma FinishedLinked(lane: Lane, net: Net, maxAttempts: nat)
    requires LaneInv(lane) && Linked(lane, net, maxAttempts) && net.attempts.Ended?
    ensures lane.started != [] && Linked(Finished(lane, net.attempts.outcome), net.(attempts := Idle), maxAttempts)
  {
    hide Linked, LaneInv;
    FinishLinked(lane, net, maxAttempts);
  }

  lemma EndDrainStep(u: Setup, s: System, r: System)
    requires Enabled(u, s, EndDrain) && r == Apply(u, s, EndDrain)
    requires Inv(u, s)
    ensures Inv(u, r) && Drained(s.loop)
  {
    hide Linked, LoopGrows, SameRouted, Unfailed, LoopInv, Quiet, Drained, Answers, SumRouted;
    NothingWaits(u.config, s.loop);
    SameNets(u, s, r);
  }

  lemma CallerStep(u: Setup, s: System, step: Step, r: System)
    requires Enabled(u, s, step) && r == Apply(u, s, step)
    requires step.Reserve? || step.Accept? || step.Bounce? || step.AskFlush? || step.AskClose?
    requires Inv(u, s)
    ensures Inv(u, r)
  {
    hide LoopInv, NetsLinked, Drains, Answers, SumRouted, Distinct, Ordered;
    SameNets(u, s, r);
    SameDrains(u, s, r);
    CallerOrdered(u, s, step, r);
  }

  lemma SameDrains(u: Setup, s: System, r: System)
    requires Drains(u, s) && r.loop == s.loop && r.phase == s.phase
    ensures Drains(u, r)
  {
  }

  lemma CallerOrdered(u: Setup, s: System, step: Step, r: System)
    requires Enabled(u, s, step) && r == Apply(u, s, step) && Ordered(u, s)
    requires step.Reserve? || step.Accept? || step.Bounce? || step.AskFlush? || step.AskClose?
    ensures Ordered(u, r)
  {
    hide RoutedTo, TurnedAway, DecidedItems, Admissible;
    if r.queue != s.queue {
      var command := r.queue[|s.queue|];
      assert r.queue == s.queue + [command];
      QueuedConcat(s.queue, [command]);
      assert Queued([command]) == if command.Write? then [command.item] else [];
    }
  }

  // ---------------------------------------------------------------------- every run

  lemma InitInv(u: Setup)
    requires ValidSetup(u)
    ensures Inv(u, Init(u))
  {
    NewLoopInv(u.config);
    NewLinked(u.maxAttempts);
    NothingDone(u.config.buckets, NewLoop(u.config).lanes);
  }

  lemma {:induction false} NothingDone(buckets: seq<Bucket>, lanes: map<Bucket, Lane>)
    requires forall b :: b in buckets ==> b in lanes && lanes[b] == NEW_LANE
    ensures SumCompleted(buckets, lanes) == 0 && SumRouted(buckets, lanes) == 0
  {
    if buckets != [] {
      assert buckets[0] in buckets;
      NothingDone(buckets[1..], lanes);
    }
  }

  lemma StepKeeps(u: Setup, s: System, step: Step)
    requires Enabled(u, s, step) && Inv(u, s)
    ensures Inv(u, Apply(u, s, step))
  {
    hide Inv;
    var r := Apply(u, s, step);
    match step {
      case Reserve | Accept(_, _) | Bounce | AskFlush | AskClose => CallerStep(u, s, step, r);
      case Take(cancelled) =>
        if s.queue[0].Write? {
          TakeStep(u, s, cancelled, r);
        } else {
          DrainStep(u, s, cancelled, r);
        }
      case Timer => TimerStep(u, s, r);
      case Complete(b) => CompleteStep(u, s, b, r);
      case EndDrain => EndDrainStep(u, s, r);
      case _ => NetStep(u, s, step, r);
    }
  }

  ghost predicate CanRun(u: Setup, s: System, steps: seq<Step>)
    decreases |steps|
  {
    steps == [] || (Enabled(u, s, steps[0]) && CanRun(u, Apply(u, s, steps[0]), steps[1..]))
  }

  function Run(u: Setup, s: System, steps: seq<Step>): System
    requires CanRun(u, s, steps)
    decreases |steps|
  {
    if steps == [] then s else Run(u, Apply(u, s, steps[0]), steps[1..])
  }

  lemma StepGrows(u: Setup, s: System, step: Step)
    requires Enabled(u, s, step) && Inv(u, s)
    ensures LoopGrows(s.loop, Apply(u, s, step).loop)
  {
    hide LoopInv, NetsLinked, Ordered, Slotted, Drains, ClosesLast, Distinct, Answers, Launch, LoopGrows, QueueFrom, Add, Finish;
    match step {
      case Take(cancelled) =>
        if s.queue[0].Write? {
          AddKeeps(u.config, s.loop, s.queue[0].item, s.queue[0].route, cancelled);
        } else {
          QueueKeeps(u.config, s.loop, 0);
        }
      case Timer => QueueKeeps(u.config, s.loop, 0);
      case Complete(b) =>
        LaneOf(u, s, b);
        FinishKeeps(u.config, s.loop, b, s.nets[b].attempts.outcome);
      case _ =>
        LoopCalmReflexive(s.loop);
        CalmGrows(s.loop, s.loop);
    }
  }

  /** Every run keeps the invariant and only extends what was started, acknowledged and answered. */
  lemma {:induction false} RunKeeps(u: Setup, s: System, steps: seq<Step>)
    requires CanRun(u, s, steps) && Inv(u, s)
    ensures Inv(u, Run(u, s, steps)) && LoopGrows(s.loop, Run(u, s, steps).loop)
    decreases |steps|
  {
    hide Inv, LoopGrows, Enabled, Apply;
    if steps == [] {
      LoopCalmReflexive(s.loop);
      CalmGrows(s.loop, s.loop);
    } else {
      var t := Apply(u, s, steps[0]);
      StepKeeps(u, s, steps[0]);
      StepGrows(u, s, steps[0]);
      RunKeeps(u, t, steps[1..]);
      LoopGrowsTransitive(s.loop, t.loop, Run(u, t, steps[1..]).loop);
    }
  }

  // -------------------------------------------------------------------- guarantees

  /**
   However requests and replies are lost, delayed or repeated, a bucket's log holds of our
   records exactly those of the first `n` writes routed to it: each once, in the order the
   writes were accepted, none in part, and every write answered with success among them.
   */
  lemma ExactlyOnceInOrder(u: Setup, steps: seq<Step>, b: Bucket) returns (n: nat)
    requires ValidSetup(u) && CanRun(u, Init(u), steps) && b in u.config.buckets
    ensures var s := Run(u, Init(u), steps);
      b in s.loop.lanes && b in s.nets
      && n <= |RoutedTo(s.decided, b)| && DecidedItems(s.decided) <= s.accepted
      && Own(s.nets[b].log) == ExpandAll(RoutedTo(s.decided, b)[..n])
      && Items(s.loop.lanes[b].completed) <= RoutedTo(s.decided, b)
      && forall k :: 0 <= k < |s.loop.lanes[b].completed| && s.loop.lanes[b].completed[k].outcome.Success? ==> k < n
  {
    hide Inv, Init, Run;
    InitInv(u);
    RunKeeps(u, Init(u), steps);
    var s := Run(u, Init(u), steps);
    ReachedBucket(u, s, b);
    var lane := s.loop.lanes[b];
    n := StoredOnceInOrder(lane, s.nets[b], u.maxAttempts);
    assert Items(lane.completed) <= lane.routed && (forall k ::
      |Acknowledged(lane.started, lane.acks, lane.sequence)| <= k < |lane.completed| ==>
        lane.completed[k].outcome == Failure) by { LaneFacts(lane); }
    ReachedOrder(u, s);
  }

  lemma ReachedBucket(u: Setup, s: System, b: Bucket)
    requires Inv(u, s) && b in u.config.buckets
    ensures b in s.loop.lanes && b in s.nets && LaneInv(s.loop.lanes[b])
    ensures Linked(s.loop.lanes[b], s.nets[b], u.maxAttempts)
    ensures s.loop.lanes[b].routed == RoutedTo(s.decided, b)
    ensures LaneOk(u.config.limits, s.loop.lanes[b], false)
  {
    hide Linked, LaneOk, Conserving, Drains, ClosesLast, Slotted, Distinct;
    assert b in s.loop.lanes && b in s.loop.lanes.Keys;
    LaneOf(u, s, b);
  }

  lemma ReachedOrder(u: Setup, s: System)
    requires Inv(u, s)
    ensures DecidedItems(s.decided) <= s.accepted
  {
    hide LoopInv, NetsLinked, Drains, ClosesLast, Slotted, Distinct;
  }

  lemma LaneFacts(lane: Lane)
    requires LaneInv(lane)
    ensures Items(lane.completed) <= lane.routed
    ensures forall k :: |Acknowledged(lane.started, lane.acks, lane.sequence)| <= k < |lane.completed| ==>
                          lane.completed[k].outcome == Failure
  {
  }

  /** A write answered with a known offset is in the log, whole, at that offset. */
  lemma OffsetsAreRight(u: Setup, steps: seq<Step>, b: Bucket, k: nat)
    requires ValidSetup(u) && CanRun(u, Init(u), steps) && b in u.config.buckets
    requires var s := Run(u, Init(u), steps); b in s.loop.lanes && k < |s.loop.lanes[b].completed|
    ensures var s := Run(u, Init(u), steps); var done := s.loop.lanes[b].completed[k];
      b in s.nets
      && (done.outcome.Success? && done.outcome.known ==> StoredAt(s.nets[b].log, done.outcome.base, Expand(done.item)))
  {
    hide Inv, Init, Run, LaneInv, Linked, StoredAt, Expand, RoutedTo;
    InitInv(u);
    RunKeeps(u, Init(u), steps);
    var s := Run(u, Init(u), steps);
    ReachedBucket(u, s, b);
    var done := s.loop.lanes[b].completed[k];
    if done.outcome.Success? && done.outcome.known {
      ReportedOffsets(s.loop.lanes[b], s.nets[b], u.maxAttempts, k);
    }
  }

  /**
   A bucket's calls carry the sequence numbers 0, 1, 2, … in order; what was once sent under a
   number never changes, and a bucket that failed starts nothing ever again.
   */
  lemma SequencesNeverReused(u: Setup, steps: seq<Step>, more: seq<Step>, b: Bucket)
    requires ValidSetup(u) && CanRun(u, Init(u), steps) && b in u.config.buckets
    requires CanRun(u, Run(u, Init(u), steps), more)
    ensures var s := Run(u, Init(u), steps); var t := Run(u, s, more);
      b in s.loop.lanes && b in t.loop.lanes && b in t.nets
      && s.loop.lanes[b].started <= t.loop.lanes[b].started
      && (forall k :: 0 <= k < |t.loop.lanes[b].started| ==> t.loop.lanes[b].started[k].sequence == k)
      && (forall call :: call in t.nets[b].sent ==> call in t.loop.lanes[b].started)
      && (s.loop.lanes[b].poisoned ==> t.loop.lanes[b].poisoned && t.loop.lanes[b].started == s.loop.lanes[b].started)
  {
    hide Inv, Init, Run, CanRun;
    InitInv(u);
    RunKeeps(u, Init(u), steps);
    var s := Run(u, Init(u), steps);
    RunKeeps(u, s, more);
    var t := Run(u, s, more);
    ReachedBucket(u, s, b);
    ReachedBucket(u, t, b);
    assert Grows(s.loop.lanes[b], t.loop.lanes[b]);
    SentWasStarted(t.loop.lanes[b], t.nets[b], u.maxAttempts);
  }

  lemma SentWasStarted(lane: Lane, net: Net, maxAttempts: nat)
    requires LaneInv(lane) && Linked(lane, net, maxAttempts)
    ensures forall k :: 0 <= k < |lane.started| ==> lane.started[k].sequence == k
    ensures forall call :: call in net.sent ==> call in lane.started
  {
  }

  function SumOwed(buckets: seq<Bucket>, lanes: map<Bucket, Lane>): nat
    requires forall b :: b in buckets ==> b in lanes && LaneInv(lanes[b])
  {
    if buckets == [] then 0
    else
      assert buckets[0] in buckets && LaneInv(lanes[buckets[0]]) && Sequenced(lanes[buckets[0]]);
      |Owed(lanes[buckets[0]])| + SumOwed(buckets[1..], lanes)
  }

  lemma {:induction false} SumSplits(buckets: seq<Bucket>, lanes: map<Bucket, Lane>)
    requires forall b :: b in buckets ==> b in lanes && LaneInv(lanes[b])
    ensures SumRouted(buckets, lanes) == SumCompleted(buckets, lanes) + SumOwed(buckets, lanes)
  {
    hide LaneInv;
    if buckets != [] {
      assert buckets[0] in buckets;
      LaneSplits(lanes[buckets[0]]);
      SumSplits(buckets[1..], lanes);
    }
  }

  /** Every write of a bucket is answered, in flight, queued or open: one of them, in this order. */
  lemma LaneSplits(lane: Lane)
    requires LaneInv(lane)
    ensures lane.active ==> lane.started != []
    ensures lane.routed == Items(lane.completed) + InFlight(lane) + Flatten(lane.pending) + lane.open.items
    ensures |lane.routed| == |lane.completed| + |Owed(lane)|
  {
    hide Acknowledged, Batches, Flatten, Items;
    var queued := Flatten(lane.pending);
    assert Items(lane.completed) + (InFlight(lane) + queued + lane.open.items)
        == Items(lane.completed) + InFlight(lane) + queued + lane.open.items;
  }

  /**
   Every accepted write is in exactly one place: the command queue, turned away, or one
   bucket's answered, in-flight, queued or open writes. Request slots and buffer slots follow.
   */
  lemma EveryWriteInOnePlace(u: Setup, steps: seq<Step>)
    requires ValidSetup(u) && CanRun(u, Init(u), steps)
    ensures var s := Run(u, Init(u), steps); var c := u.config;
      s.accepted == DecidedItems(s.decided) + Queued(s.queue)
      && s.loop.rejected == TurnedAway(s.decided)
      && (forall b :: b in c.buckets ==> b in s.loop.lanes && LaneInv(s.loop.lanes[b]))
      && (forall b :: b in c.buckets ==>
            s.loop.lanes[b].routed == RoutedTo(s.decided, b)
            && Items(s.loop.lanes[b].completed) + Owed(s.loop.lanes[b]) == RoutedTo(s.decided, b))
      && s.loop.inFlight == |Active(s.loop)| <= c.maxConcurrent
      && s.held == s.reserved + |Queued(s.queue)| + SumOwed(c.buckets, s.loop.lanes) <= u.maxBuffered
  {
    hide Inv, Init, Run, LaneInv, Linked, RoutedTo, LaneOk;
    InitInv(u);
    RunKeeps(u, Init(u), steps);
    var s := Run(u, Init(u), steps);
    forall b | b in u.config.buckets
      ensures b in s.loop.lanes && LaneInv(s.loop.lanes[b]) && s.loop.lanes[b].routed == RoutedTo(s.decided, b)
      ensures (s.loop.lanes[b].active ==> s.loop.lanes[b].started != [])
           && Items(s.loop.lanes[b].completed) + Owed(s.loop.lanes[b]) == RoutedTo(s.decided, b)
    {
      ReachedBucket(u, s, b);
      LaneAccounts(s.loop.lanes[b]);
    }
    SumSplits(u.config.buckets, s.loop.lanes);
    ReachedCounts(u, s);
  }

  lemma LaneAccounts(lane: Lane)
    requires LaneInv(lane)
    ensures lane.active ==> lane.started != []
    ensures Items(lane.completed) + Owed(lane) == lane.routed
  {
  }

  lemma ReachedCounts(u: Setup, s: System)
    requires Inv(u, s)
    ensures Shaped(u.config, s.loop)
    ensures s.accepted == DecidedItems(s.decided) + Queued(s.queue) && s.loop.rejected == TurnedAway(s.decided)
    ensures s.loop.inFlight == |Active(s.loop)| <= u.config.maxConcurrent
    ensures s.held == s.reserved + |Queued(s.queue)|
      + (SumRouted(u.config.buckets, s.loop.lanes) - SumCompleted(u.config.buckets, s.loop.lanes)) <= u.maxBuffered
  {
    hide NetsLinked, Drains, ClosesLast, Distinct, LaneOk, Conserving;
  }

  /** Every batch ever started is one Arrow write, or rows of one target list within the limits. */
  lemma EveryBatchWithinLimits(u: Setup, steps: seq<Step>, b: Bucket, k: nat)
    requires ValidSetup(u) && CanRun(u, Init(u), steps) && b in u.config.buckets
    requires var s := Run(u, Init(u), steps); b in s.loop.lanes && k < |s.loop.lanes[b].started|
    ensures Sendable(u.config.limits, Run(u, Init(u), steps).loop.lanes[b].started[k].batch)
  {
    hide Inv, Init, Run, LaneInv, Linked, Sendable, RoutedTo, Room;
    InitInv(u);
    RunKeeps(u, Init(u), steps);
    ReachedBucket(u, Run(u, Init(u), steps), b);
  }

  /**
   When a flush or close ends, nothing is open, queued or in flight, every write routed before
   has its answer, and an error is reported exactly when one of those answers is an error.
   */
  lemma FlushCoversEverything(u: Setup, steps: seq<Step>)
    requires ValidSetup(u) && CanRun(u, Init(u), steps) && Enabled(u, Run(u, Init(u), steps), EndDrain)
    ensures var s := Run(u, Init(u), steps); var since := s.phase.since;
      Drained(s.loop) && LoopGrows(since, s.loop) && SameRouted(since, s.loop)
      && (forall b :: b in s.loop.lanes ==> Items(s.loop.lanes[b].completed) == s.loop.lanes[b].routed)
      && (!s.phase.failed <==> Unfailed(since, s.loop))
  {
    hide Init, Run, Inv, Drained, LoopGrows, SameRouted, Unfailed, Items;
    InitInv(u);
    RunKeeps(u, Init(u), steps);
    DrainEnds(u, Run(u, Init(u), steps));
  }

  lemma DrainEnds(u: Setup, s: System)
    requires Inv(u, s) && s.phase.Draining? && s.loop.inFlight == 0
    ensures Drained(s.loop) && LoopGrows(s.phase.since, s.loop) && SameRouted(s.phase.since, s.loop)
    ensures forall b :: b in s.loop.lanes ==> Items(s.loop.lanes[b].completed) == s.loop.lanes[b].routed
    ensures !s.phase.failed <==> Unfailed(s.phase.since, s.loop)
  {
    hide NetsLinked, ClosesLast, Distinct, Drained, LoopGrows, SameRouted, Unfailed, Quiet, Ordered, Slotted, LoopInv, Items;
    NothingWaits(u.config, s.loop);
    forall b | b in s.loop.lanes ensures Items(s.loop.lanes[b].completed) == s.loop.lanes[b].routed {
      DrainedAnswered(u.config, s.loop, b);
    }
  }

  /** A stopped writer owes nobody an answer: no write is left in the queue or in a bucket. */
  lemma CloseStrandsNothing(u: Setup, steps: seq<Step>)
    requires ValidSetup(u) && CanRun(u, Init(u), steps) && Run(u, Init(u), steps).phase.Stopped?
    ensures var s := Run(u, Init(u), steps);
      s.queue == [] && s.accepted == DecidedItems(s.decided)
      && (forall b :: b in s.loop.lanes ==> Items(s.loop.lanes[b].completed) == RoutedTo(s.decided, b))
      && s.loop.rejected == TurnedAway(s.decided) && s.held == s.reserved
  {
    hide Init, Run, LaneInv, Distinct, RoutedTo, LaneOk, Core, Conserving, Linked, SumRouted, SumCompleted, TurnedAway;
    InitInv(u);
    RunKeeps(u, Init(u), steps);
    var s := Run(u, Init(u), steps);
    forall b | b in s.loop.lanes
      ensures Items(s.loop.lanes[b].completed) == RoutedTo(s.decided, b)
    {
      DrainedAnswered(u.config, s.loop, b);
    }
    CoreShaped(u.config, s.loop, {});
    SumDrained(u.config.buckets, s.loop.lanes);
    ReachedCounts(u, s);
  }

  lemma {:induction false} SumDrained(buckets: seq<Bucket>, lanes: map<Bucket, Lane>)
    requires forall b :: b in buckets ==> b in lanes && |lanes[b].completed| == |lanes[b].routed|
    ensures SumRouted(buckets, lanes) == SumCompleted(buckets, lanes)
  {
    if buckets != [] {
      assert buckets[0] in buckets;
      SumDrained(buckets[1..], lanes);
    }
  }
}
