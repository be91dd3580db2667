/**
 A batching writer as a whole: callers, the command queue, buffer slots, the scheduler, one
 retry loop per running call, an unreliable network and the servers. A run is any sequence
 of enabled steps; what holds after every run is proved in `WriterRuns`.
 */
module WriterSystem {
  import opened WriterLanes
  import opened WriterLoop
  import opened WriterLoopProofs
  import opened WriterFlush
  import opened WriterServer

  datatype Setup = Setup(config: Config, maxAttempts: nat, maxBuffered: nat)

  ghost predicate ValidSetup(u: Setup)
  {
    ValidConfig(u.config) && u.maxAttempts >= 1 && Distinct(u.config.buckets)
  }

  ghost predicate Distinct(buckets: seq<Bucket>)
  {
    forall i, j :: 0 <= i < j < |buckets| ==> buckets[i] != buckets[j]
  }

  datatype Command = Write(item: Item, route: Destination) | FlushAsked | CloseAsked

  /** What became of a write when the scheduler took it from the queue. */
  datatype Decision = Turned(item: Item) | Placed(item: Item, bucket: Bucket)

  /** While draining, the scheduler only handles completions; `since` is where the flush began. */
  datatype Phase = Running | Draining(closing: bool, since: Loop, failed: bool) | Stopped

  datatype System = System(
    loop: Loop,
    nets: map<Bucket, Net>,
    queue: seq<Command>,
    closed: bool,
    phase: Phase,
    reserved: nat,
    held: int,
    accepted: seq<Item>,
    decided: seq<Decision>)

  datatype Step =
    | Reserve
    | Accept(item: Item, route: Destination)
    | Bounce
    | AskFlush
    | AskClose
    | Take(cancelled: bool)
    | Timer
    | Complete(bucket: Bucket)
    | EndDrain
    | Transmit(bucket: Bucket)
    | Arrive(bucket: Bucket, call: Call, honest: bool)
    | Others(bucket: Bucket)
    | Hear(bucket: Bucket, reply: Reply, retry: bool)
    | Lose(bucket: Bucket, retry: bool)
    | Abandon(bucket: Bucket)

  // ------------------------------------------------------------------------- accounting

  /** Answers given so far: every one released one buffer slot. */
  function SumCompleted(buckets: seq<Bucket>, lanes: map<Bucket, Lane>): nat
    requires forall b :: b in buckets ==> b in lanes
  {
    if buckets == [] then 0
    else |lanes[buckets[0]].completed| + SumCompleted(buckets[1..], lanes)
  }

  function SumRouted(buckets: seq<Bucket>, lanes: map<Bucket, Lane>): nat
    requires forall b :: b in buckets ==> b in lanes
  {
    if buckets == [] then 0
    else |lanes[buckets[0]].routed| + SumRouted(buckets[1..], lanes)
  }

  function Answers(c: Config, l: Loop): nat
    requires Shaped(c, l)
  {
    SumCompleted(c.buckets, l.lanes) + |l.rejected|
  }

  function RoutedTo(decided: seq<Decision>, b: Bucket): seq<Item>
  {
    if decided == [] then []
    else
      var last := decided[|decided| - 1];
      RoutedTo(decided[..|decided| - 1], b) + (if last.Placed? && last.bucket == b then [last.item] else [])
  }

  function TurnedAway(decided: seq<Decision>): seq<Item>
  {
    if decided == [] then []
    else
      var last := decided[|decided| - 1];
      TurnedAway(decided[..|decided| - 1]) + (if last.Turned? then [last.item] else [])
  }

  function DecidedItems(decided: seq<Decision>): (items: seq<Item>)
    ensures |items| == |decided|
  {
    seq(|decided|, k requires 0 <= k < |decided| => decided[k].item)
  }

  function Queued(queue: seq<Command>): seq<Item>
  {
    if queue == [] then []
    else (if queue[0].Write? then [queue[0].item] else []) + Queued(queue[1..])
  }

  // ------------------------------------------------------------------------------ steps

  function Init(u: Setup): System
  {
    System(NewLoop(u.config), map b | b in u.config.buckets :: NEW_NET, [], false, Running, 0, 0, [], [])
  }

  ghost predicate WellShaped(u: Setup, s: System)
  {
    ValidConfig(u.config) && Shaped(u.config, s.loop) && -1 <= s.loop.stickyIndex < |u.config.buckets|
    && s.nets.Keys == s.loop.lanes.Keys
  }

  ghost predicate Enabled(u: Setup, s: System, step: Step)
  {
    WellShaped(u, s)
    && match step
      case Reserve => s.held < u.maxBuffered
      case Accept(item, route) => s.reserved > 0 && !s.closed && Admissible(u.config, item, route)
      case Bounce => s.reserved > 0
      case AskFlush => !s.closed
      case AskClose => !s.closed
      case Take(_) =>
        s.phase.Running? && s.queue != []
        && (s.queue[0].Write? ==> Admissible(u.config, s.queue[0].item, s.queue[0].route))
      case Timer => s.phase.Running?
      case Complete(b) => !s.phase.Stopped? && b in s.nets && s.nets[b].attempts.Ended? && s.loop.lanes[b].started != []
      case EndDrain => s.phase.Draining? && s.loop.inFlight == 0
      case Transmit(b) => b in s.nets && s.nets[b].attempts.Ready? && s.loop.lanes[b].started != []
      case Arrive(b, call, _) => b in s.nets && call in s.nets[b].sent
      case Others(b) => b in s.nets
      case Hear(b, reply, retry) =>
        b in s.nets && s.nets[b].attempts.Waiting? && reply in s.nets[b].replies
        && reply.sequence == s.loop.lanes[b].sequence && (retry ==> s.nets[b].attempts.made < u.maxAttempts)
      case Lose(b, retry) =>
        b in s.nets && s.nets[b].attempts.Waiting? && (retry ==> s.nets[b].attempts.made < u.maxAttempts)
      case Abandon(b) => b in s.nets && s.nets[b].attempts.Ready?
  }

  /** The scheduler moved on: started calls begin their retry loops, answers release slots. */
  function Advance(u: Setup, s: System, nets: map<Bucket, Net>, l: Loop): System
    requires WellShaped(u, s) && Shaped(u.config, l) && nets.Keys == s.nets.Keys
  {
    s.(loop := l, nets := map b | b in nets :: Launch(l.lanes[b], nets[b]),
       held := s.held - (Answers(u.config, l) - Answers(u.config, s.loop)))
  }

  function WithNet(s: System, b: Bucket, net: Net): System
  {
    s.(nets := s.nets[b := net])
  }

  function TakeWrite(u: Setup, s: System, cancelled: bool): System
    requires Enabled(u, s, Take(cancelled)) && s.queue[0].Write?
  {
    var c, item, route := u.config, s.queue[0].item, s.queue[0].route;
    var decision :=
      if cancelled || route.Unroutable? then Turned(item) else Placed(item, Target(c, s.loop, item, route));
    Advance(u, s, s.nets, Add(c, s.loop, item, route, cancelled))
      .(queue := s.queue[1..], decided := s.decided + [decision])
  }

  function BeginDrain(u: Setup, s: System): System
    requires WellShaped(u, s) && s.queue != []
  {
    var failed := QueueFails(u.config, s.loop, 0);
    Advance(u, s, s.nets, QueueFrom(u.config, s.loop, 0))
      .(queue := s.queue[1..], phase := Draining(s.queue[0].CloseAsked?, s.loop, failed))
  }

  function EndOfCall(u: Setup, s: System, b: Bucket): System
    requires Enabled(u, s, Complete(b))
  {
    var outcome := s.nets[b].attempts.outcome;
    var nets := s.nets[b := s.nets[b].(attempts := Idle)];
    Advance(u, s, nets, Finish(u.config, s.loop, b, outcome))
      .(phase := if s.phase.Draining? then s.phase.(failed := s.phase.failed || outcome.Failure?) else s.phase)
  }

  function Apply(u: Setup, s: System, step: Step): System
    requires Enabled(u, s, step)
  {
    match step
    case Reserve => s.(reserved := s.reserved + 1, held := s.held + 1)
    case Accept(item, route) =>
      s.(reserved := s.reserved - 1, queue := s.queue + [Write(item, route)], accepted := s.accepted + [item])
    case Bounce => s.(reserved := s.reserved - 1, held := s.held - 1)
    case AskFlush => s.(queue := s.queue + [FlushAsked])
    case AskClose => s.(queue := s.queue + [CloseAsked], closed := true)
    case Take(cancelled) => if s.queue[0].Write? then TakeWrite(u, s, cancelled) else BeginDrain(u, s)
    case Timer => Advance(u, s, s.nets, QueueFrom(u.config, s.loop, 0))
    case Complete(b) => EndOfCall(u, s, b)
    case EndDrain => s.(phase := if s.phase.closing then Stopped else Running)
    case Transmit(b) => WithNet(s, b, Send(s.loop.lanes[b], s.nets[b]))
    case Arrive(b, call, honest) => WithNet(s, b, Deliver(s.nets[b], call, honest))
    case Others(b) => WithNet(s, b, Interleave(s.nets[b]))
    case Hear(b, reply, retry) => WithNet(s, b, Receive(s.nets[b], reply, retry))
    case Lose(b, retry) => WithNet(s, b, Break(s.nets[b], retry))
    case Abandon(b) => WithNet(s, b, GiveUp(s.nets[b]))
  }

  // -------------------------------------------------------------------------- invariant

  ghost predicate NetsLinked(u: Setup, s: System)
  {
    s.nets.Keys == s.loop.lanes.Keys
    && forall b :: b in s.nets ==> Linked(s.loop.lanes[b], s.nets[b], u.maxAttempts)
  }

  /** Writes are decided in the order they were accepted, each to one bucket or turned away. */
  ghost predicate Ordered(u: Setup, s: System)
  {
    s.accepted == DecidedItems(s.decided) + Queued(s.queue)
    && (forall b :: b in s.loop.lanes ==> s.loop.lanes[b].routed == RoutedTo(s.decided, b))
    && s.loop.rejected == TurnedAway(s.decided)
    && (forall k :: 0 <= k < |s.queue| && s.queue[k].Write? ==>
          Admissible(u.config, s.queue[k].item, s.queue[k].route))
  }

  ghost predicate Slotted(u: Setup, s: System)
    requires Shaped(u.config, s.loop)
  {
    s.held == s.reserved + |s.accepted| - Answers(u.config, s.loop)
    && s.held <= u.maxBuffered
    && |s.decided| == SumRouted(u.config.buckets, s.loop.lanes) + |s.loop.rejected|
  }

  /** A close command is the last one, and nothing is accepted after it. */
  ghost predicate ClosesLast(s: System)
  {
    (forall k :: 0 <= k < |s.queue| && s.queue[k].CloseAsked? ==> k == |s.queue| - 1)
    && (s.closed <==> (s.queue != [] && s.queue[|s.queue| - 1].CloseAsked?) || Closing(s.phase))
    && (Closing(s.phase) ==> s.queue == [])
  }

  predicate Closing(phase: Phase)
  {
    phase.Stopped? || (phase.Draining? && phase.closing)
  }

  ghost predicate Drains(u: Setup, s: System)
  {
    (s.phase.Draining? ==>
       Shaped(u.config, s.phase.since) && Quiet(s.loop) && LoopGrows(s.phase.since, s.loop)
       && SameRouted(s.phase.since, s.loop) && (s.phase.failed <==> !Unfailed(s.phase.since, s.loop)))
    && (s.phase.Stopped? ==> Drained(s.loop))
  }

  ghost predicate Inv(u: Setup, s: System)
  {
    ValidSetup(u) && LoopInv(u.config, s.loop) && NetsLinked(u, s) && Ordered(u, s) && Slotted(u, s)
    && ClosesLast(s) && Drains(u, s)
  }
}
