/**
 Flush and close of the whole writer end: while it drains, no step of callers, network or
 servers makes more work, every step of the scheduler and the retry loops leaves less, and one
 of those is always possible.
 */
module WriterDrain {
  import opened WriterLanes
  import opened WriterLoop
  import opened WriterLoopProofs
  import opened WriterFlush
  import opened WriterServer
  import opened WriterSystem
  import opened WriterRuns

  /** Steps of the scheduler and of the retry loops of running calls. */
  predicate ByWriter(step: Step)
  {
    step.Take? || step.Timer? || step.Complete? || step.EndDrain?
    || step.Transmit? || step.Hear? || step.Lose? || step.Abandon?
  }

  /** A drain is never stuck: some call can still end, or all have ended and the drain can. */
  lemma DrainNeverStuck(u: Setup, s: System) returns (step: Step)
    requires Inv(u, s) && s.phase.Draining?
    ensures Enabled(u, s, step)
    ensures ByWriter(step)
  {
    hide Ordered, Slotted, Drains, ClosesLast, Distinct, Linked, LaneOk, Conserving;
    CoreShaped(u.config, s.loop, {});
    assert s.nets.Keys == s.loop.lanes.Keys;
    if s.loop.inFlight == 0 {
      return EndDrain;
    }
    assert |Active(s.loop)| > 0;
    var b :| b in Active(s.loop);
    assert b in s.nets.Keys;
    LaneOf(u, s, b);
    LaneAccounts(s.loop.lanes[b]);
    match s.nets[b].attempts {
      case Ready(_) => step := Abandon(b);
      case Waiting(_) => step := Lose(b, false);
      case Ended(_) => step := Complete(b);
      case Idle => assert false;
    }
  }

  /** How far a retry loop is from its end, given that it makes at most `most` attempts. */
  function TriesLeft(most: nat, attempts: Attempts): nat
  {
    match attempts
    case Idle | Ended(_) => 0
    case Ready(made) => if made <= most then 2 * (most - made) + 1 else 1
    case Waiting(made) => if made <= most then 2 * (most - made) + 2 else 2
  }

  function SumTries(most: nat, buckets: seq<Bucket>, nets: map<Bucket, Net>): nat
  {
    if buckets == [] then 0
    else (if buckets[0] in nets then TriesLeft(most, nets[buckets[0]].attempts) else 0) + SumTries(most, buckets[1..], nets)
  }

  lemma {:induction false} SumSinks(most: nat, buckets: seq<Bucket>, nets: map<Bucket, Net>, b: Bucket, net: Net)
    requires b in nets && TriesLeft(most, net.attempts) <= TriesLeft(most, nets[b].attempts)
    ensures SumTries(most, buckets, nets[b := net]) <= SumTries(most, buckets, nets)
    ensures b in buckets && TriesLeft(most, net.attempts) < TriesLeft(most, nets[b].attempts) ==>
      SumTries(most, buckets, nets[b := net]) < SumTries(most, buckets, nets)
    ensures net.attempts == nets[b].attempts ==>
      SumTries(most, buckets, nets[b := net]) == SumTries(most, buckets, nets)
  {
    hide TriesLeft;
    if buckets != [] {
      SumSinks(most, buckets[1..], nets, b, net);
    }
  }

  /** The work left: first the writes not yet answered, then the attempts of the calls running for them. */
  ghost predicate Less(u: Setup, r: System, s: System)
    requires Shaped(u.config, r.loop) && Shaped(u.config, s.loop)
  {
    Load(u.config, r.loop, 0) < Load(u.config, s.loop, 0)
    || (r.loop == s.loop
        && SumTries(u.maxAttempts, u.config.buckets, r.nets) < SumTries(u.maxAttempts, u.config.buckets, s.nets))
  }

  ghost predicate SameWork(u: Setup, r: System, s: System)
  {
    r.loop == s.loop && SumTries(u.maxAttempts, u.config.buckets, r.nets) == SumTries(u.maxAttempts, u.config.buckets, s.nets)
  }

  lemma ReachedLinks(u: Setup, s: System)
    requires Inv(u, s)
    ensures LoopInv(u.config, s.loop) && NetsLinked(u, s)
  {
    hide LoopInv, NetsLinked, Ordered, Slotted, Drains, ClosesLast, ValidSetup;
  }

  /** What one step makes of a retry loop. */
  function Tried(s: System, step: Step): Net
    requires step.Transmit? || step.Hear? || step.Lose? || step.Abandon?
    requires step.bucket in s.nets && step.bucket in s.loop.lanes
    requires step.Transmit? ==> s.nets[step.bucket].attempts.Ready? && s.loop.lanes[step.bucket].started != []
    requires step.Hear? || step.Lose? ==> s.nets[step.bucket].attempts.Waiting?
  {
    var lane, net := s.loop.lanes[step.bucket], s.nets[step.bucket];
    match step
    case Transmit(_) => Send(lane, net)
    case Hear(_, reply, retry) => Receive(net, reply, retry)
    case Lose(_, retry) => Break(net, retry)
    case Abandon(_) => GiveUp(net)
  }

  lemma AwaitedOf(u: Setup, s: System, b: Bucket)
    requires b in s.nets && NetsLinked(u, s)
    ensures b in s.loop.lanes && Awaited(s.loop.lanes[b], s.nets[b], u.maxAttempts)
  {
    hide FromWriter, Truthful, LogHolds, Awaited;
    assert b in s.loop.lanes.Keys;
    assert Linked(s.loop.lanes[b], s.nets[b], u.maxAttempts);
  }

  /** An attempt sent, answered, lost or given up brings its retry loop nearer to the end. */
  lemma AttemptSinks(u: Setup, s: System, step: Step, r: System)
    requires Enabled(u, s, step) && r == Apply(u, s, step)
    requires step.Transmit? || step.Hear? || step.Lose? || step.Abandon?
    requires NetsLinked(u, s)
    ensures r == s.(nets := r.nets)
    ensures SumTries(u.maxAttempts, u.config.buckets, r.nets) < SumTries(u.maxAttempts, u.config.buckets, s.nets)
  {
    hide SumTries, NetsLinked, Linked;
    AwaitedOf(u, s, step.bucket);
    SumSinks(u.maxAttempts, u.config.buckets, s.nets, step.bucket, Tried(s, step));
  }

  /** The end of a call leaves fewer writes to answer. */
  lemma CompletionSinks(u: Setup, s: System, b: Bucket)
    requires Enabled(u, s, Complete(b)) && s.phase.Draining?
    requires LoopInv(u.config, s.loop) && NetsLinked(u, s)
    ensures var r := Apply(u, s, Complete(b));
      Shaped(u.config, r.loop) && Load(u.config, r.loop, 0) < Load(u.config, s.loop, 0)
      && r.phase.Draining? && r.phase.closing == s.phase.closing
  {
    hide LoopInv, NetsLinked, Linked, Load, Answers, Launch, Finish;
    LaneOf(u, s, b);
    CompletionProgress(u.config, s.loop, b, s.nets[b].attempts.outcome);
  }

  /** While the writer drains, its own steps leave less work, or end the drain. */
  lemma OwnStepSinks(u: Setup, s: System, step: Step, r: System)
    requires Enabled(u, s, step) && r == Apply(u, s, step) && s.phase.Draining? && ByWriter(step) && !step.EndDrain?
    requires LoopInv(u.config, s.loop) && NetsLinked(u, s)
    ensures Shaped(u.config, s.loop) && Shaped(u.config, r.loop) && Less(u, r, s)
    ensures r.phase.Draining? && r.phase.closing == s.phase.closing
  {
    hide LoopInv, NetsLinked, Load, SumTries;
    if step.Complete? {
      CompletionSinks(u, s, step.bucket);
    } else {
      AttemptSinks(u, s, step, r);
    }
  }

  /** While the writer drains, callers, the network and the servers leave it as much to do as it had. */
  lemma OthersAddNothing(u: Setup, s: System, step: Step)
    requires Enabled(u, s, step) && s.phase.Draining? && !ByWriter(step)
    ensures var r := Apply(u, s, step); SameWork(u, r, s) && r.phase == s.phase
  {
    hide SumTries;
    if step.Arrive? || step.Others? {
      var r := Apply(u, s, step);
      SumSinks(u.maxAttempts, u.config.buckets, s.nets, step.bucket, r.nets[step.bucket]);
      assert r.nets == s.nets[step.bucket := r.nets[step.bucket]];
    }
  }

  /** A way of choosing the n-th step: any enabled step of the scheduler or a retry loop. */
  ghost predicate Chooses(u: Setup, choose: (nat, System) -> Step)
  {
    forall n: nat, s :: Inv(u, s) && s.phase.Draining? ==> Enabled(u, s, choose(n, s)) && ByWriter(choose(n, s))
  }

  /** The steps are the chosen ones. */
  ghost predicate Follows(u: Setup, s: System, choose: (nat, System) -> Step, n: nat, steps: seq<Step>)
    requires CanRun(u, s, steps)
    decreases |steps|
  {
    steps == [] || (steps[0] == choose(n, s) && Follows(u, Apply(u, s, steps[0]), choose, n + 1, steps[1..]))
  }

  ghost function LoadOf(u: Setup, s: System): nat
  {
    if Shaped(u.config, s.loop) then Load(u.config, s.loop, 0) else 0
  }

  /**
   However the calls in flight end and in whatever order, the chosen run from a draining writer
   ends the drain, with nothing open, queued or in flight: a flush goes back to running, a
   close stops.
   */
  lemma {:induction false} DrainFinishes(u: Setup, s: System, choose: (nat, System) -> Step, n: nat)
    returns (steps: seq<Step>)
    requires Inv(u, s) && s.phase.Draining? && Chooses(u, choose)
    ensures CanRun(u, s, steps) && Follows(u, s, choose, n, steps)
    ensures var r := Run(u, s, steps); r.phase == (if s.phase.closing then Stopped else Running) && Drained(r.loop)
    decreases LoadOf(u, s), SumTries(u.maxAttempts, u.config.buckets, s.nets)
  {
    hide Inv, Enabled, Apply, Drained, SumTries, Shaped, LoopInv, NetsLinked, Unfailed, LoopGrows, SameRouted, Items;
    var step := choose(n, s);
    var rest: seq<Step> := [];
    if step.EndDrain? {
      EndPhase(u, s, Apply(u, s, step));
      DrainEnds(u, s);
    } else {
      StepKeeps(u, s, step);
      ReachedLinks(u, s);
      OwnStepSinks(u, s, step, Apply(u, s, step));
      rest := DrainFinishes(u, Apply(u, s, step), choose, n + 1);
    }
    steps := [step] + rest;
    assert steps[1..] == rest;
  }

  lemma EndPhase(u: Setup, s: System, r: System)
    requires Enabled(u, s, EndDrain) && r == Apply(u, s, EndDrain)
    ensures s.phase.Draining? && s.loop.inFlight == 0 && r.loop == s.loop
    ensures r.phase == if s.phase.closing then Stopped else Running
  {
  }
}
