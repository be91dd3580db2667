/**
 The single-goroutine scheduler of a batching writer as operations on all its lanes: adding
 a write, closing batches, dispatching calls to distinct buckets and handling completions.
 */
module WriterLoop {
  import opened WriterLanes

  type Bucket = nat

  /** How rows without an explicit bucket are routed; upsert writers are always keyed. */
  datatype Assigner = Sticky | RoundRobin | Keyed

  datatype Config = Config(
    buckets: seq<Bucket>,
    limits: Limits,
    maxConcurrent: nat,
    immediate: bool,
    assigner: Assigner)

  /** What option validation and metadata guarantee. */
  predicate ValidConfig(c: Config)
  {
    |c.buckets| >= 1
    && c.limits.maxRecords >= 1 && c.limits.maxBytes >= 1 && c.maxConcurrent >= 1
  }

  datatype Loop = Loop(
    lanes: map<Bucket, Lane>,
    inFlight: int,
    stickyIndex: int,
    roundRobin: nat,
    rejected: seq<Item>)

  /** Where a write goes: a given or key-hashed bucket, the no-key assigner, or nowhere. */
  datatype Destination = To(bucket: Bucket) | Free | Unroutable

  // -------------------------------------------------------------------- operations

  ghost predicate Shaped(c: Config, l: Loop)
  {
    forall b :: b in l.lanes <==> b in c.buckets
  }

  function At(l: Loop, b: Bucket, lane: Lane): Loop
  {
    l.(lanes := l.lanes[b := lane])
  }

  predicate Eligible(lane: Lane)
  {
    !lane.active && lane.pending != []
  }

  function StartAt(l: Loop, b: Bucket): Loop
    requires b in l.lanes && Eligible(l.lanes[b])
  {
    At(l, b, Start(l.lanes[b])).(inFlight := l.inFlight + 1)
  }

  /** One sweep over the buckets from index `i`, while request slots remain. */
  function DispatchFrom(c: Config, l: Loop, i: nat): (r: Loop)
    requires Shaped(c, l) && i <= |c.buckets|
    ensures Shaped(c, r)
    decreases |c.buckets| - i
  {
    if i == |c.buckets| || l.inFlight >= c.maxConcurrent then l
    else if Eligible(l.lanes[c.buckets[i]]) then DispatchFrom(c, StartAt(l, c.buckets[i]), i + 1)
    else DispatchFrom(c, l, i + 1)
  }

  function Dispatch(c: Config, l: Loop): (r: Loop)
    requires Shaped(c, l)
    ensures Shaped(c, r)
  {
    DispatchFrom(c, l, 0)
  }

  /** Closing a poisoned bucket's batch is the error a flush reports. */
  predicate FlushFails(l: Loop, b: Bucket)
    requires b in l.lanes
  {
    l.lanes[b].open.items != [] && l.lanes[b].poisoned
  }

  function FlushBucket(c: Config, l: Loop, b: Bucket): (r: Loop)
    requires Shaped(c, l) && b in l.lanes
    ensures Shaped(c, r)
  {
    var lane := l.lanes[b];
    if lane.open.items == [] then l
    else if lane.poisoned then At(l, b, Close(lane))
    else Dispatch(c, At(l, b, Close(lane)))
  }

  function QueueFrom(c: Config, l: Loop, i: nat): (r: Loop)
    requires Shaped(c, l) && i <= |c.buckets|
    ensures Shaped(c, r)
    decreases |c.buckets| - i
  {
    if i == |c.buckets| then l else QueueFrom(c, FlushBucket(c, l, c.buckets[i]), i + 1)
  }

  predicate QueueFails(c: Config, l: Loop, i: nat)
    requires Shaped(c, l) && i <= |c.buckets|
    decreases |c.buckets| - i
  {
    i < |c.buckets|
    && (FlushFails(l, c.buckets[i]) || QueueFails(c, FlushBucket(c, l, c.buckets[i]), i + 1))
  }

  function Finished(lane: Lane, outcome: Outcome): Lane
    requires lane.started != []
  {
    match outcome
    case Success(known, base) => Succeed(lane, Ack(known, base))
    case Failure => Fail(lane)
  }

  /** The end of a call: its bucket is released, and acknowledged or poisoned. */
  function Finish(c: Config, l: Loop, b: Bucket, outcome: Outcome): (r: Loop)
    requires Shaped(c, l) && b in l.lanes && l.lanes[b].started != []
    ensures Shaped(c, r)
  {
    Dispatch(c, At(l, b, Finished(l.lanes[b], outcome)).(inFlight := l.inFlight - 1))
  }

  function Reject(l: Loop, item: Item): Loop
  {
    l.(rejected := l.rejected + [item])
  }

  function AdvanceSticky(c: Config, l: Loop): Loop
  {
    if |c.buckets| > 1 then l.(stickyIndex := (l.stickyIndex + 1) % |c.buckets|) else l
  }

  /** The no-key assigner's next bucket, and the loop after it was asked. */
  function Assign(c: Config, l: Loop): (r: (Loop, Bucket))
    requires |c.buckets| >= 1 && -1 <= l.stickyIndex < |c.buckets|
    ensures r.1 in c.buckets && r.0.lanes == l.lanes
  {
    if c.assigner.RoundRobin? then (l.(roundRobin := l.roundRobin + 1), c.buckets[l.roundRobin % |c.buckets|])
    else
      var index := if l.stickyIndex < 0 then 0 else l.stickyIndex;
      (l.(stickyIndex := index), c.buckets[index])
  }

  predicate Full(limits: Limits, batch: Batch)
  {
    |batch.items| >= limits.maxRecords || batch.bytes >= limits.maxBytes
  }

  predicate FullWith(limits: Limits, batch: Batch, item: Item)
  {
    |batch.items| >= limits.maxRecords || batch.bytes + item.size > limits.maxBytes
  }

  /** Append a row to a bucket's open batch and close the batch when it is full. */
  function Place(c: Config, l: Loop, b: Bucket, item: Item): (r: Loop)
    requires Shaped(c, l) && b in l.lanes
    ensures Shaped(c, r)
  {
    var lane := Enter(l.lanes[b], item, l.lanes[b].open.bytes + item.size);
    var placed := At(l, b, lane);
    if Full(c.limits, lane.open) || c.immediate then
      var flushed := FlushBucket(c, placed, b);
      if c.assigner.Sticky? then AdvanceSticky(c, flushed) else flushed
    else placed
  }

  /** A row that does not fit closes the batch; a sticky writer then moves on to the next bucket. */
  function AddRow(c: Config, l: Loop, b: Bucket, item: Item): (r: Loop)
    requires |c.buckets| >= 1 && -1 <= l.stickyIndex < |c.buckets|
    requires Shaped(c, l) && b in l.lanes
    ensures Shaped(c, r)
  {
    var open := l.lanes[b].open;
    if open.items == [] || !FullWith(c.limits, open, item) then Place(c, l, b, item)
    else
      FlushKeepsTurns(c, l, b);
      var flushed := FlushBucket(c, l, b);
      if !c.assigner.Sticky? then Place(c, flushed, b, item)
      else
        var (asked, next) := Assign(c, AdvanceSticky(c, flushed));
        Place(c, asked, next, item)
  }

  /** An Arrow write closes the open batch and is a batch of its own. */
  function AddArrow(c: Config, l: Loop, b: Bucket, item: Item): (r: Loop)
    requires Shaped(c, l) && b in l.lanes
    ensures Shaped(c, r)
  {
    var flushed := FlushBucket(c, l, b);
    FlushBucket(c, At(flushed, b, Enter(flushed.lanes[b].(open := EMPTY), item, 0)), b)
  }

  /** A mutation joins the open batch of its bucket only if it names the same target columns. */
  function AddMutation(c: Config, l: Loop, b: Bucket, item: Item): (r: Loop)
    requires |c.buckets| >= 1 && -1 <= l.stickyIndex < |c.buckets|
    requires Shaped(c, l) && b in l.lanes
    ensures Shaped(c, r)
  {
    var open := l.lanes[b].open;
    FlushKeepsTurns(c, l, b);
    if open.items != [] && open.items[0].targets != item.targets then AddRow(c, FlushBucket(c, l, b), b, item)
    else AddRow(c, l, b, item)
  }

  function Add(c: Config, l: Loop, item: Item, route: Destination, cancelled: bool): (r: Loop)
    requires |c.buckets| >= 1 && -1 <= l.stickyIndex < |c.buckets|
    requires Shaped(c, l) && (route.To? ==> route.bucket in c.buckets)
    ensures Shaped(c, r)
  {
    if cancelled || route.Unroutable? then Reject(l, item)
    else
      var (asked, b) := if route.To? then (l, route.bucket) else Assign(c, l);
      if item.arrow then AddArrow(c, asked, b, item) else AddMutation(c, asked, b, item)
  }

  /** The bucket a row asked into bucket `b` ends up in: a sticky writer moves on from a full batch. */
  function RowTarget(c: Config, l: Loop, b: Bucket, item: Item): Bucket
    requires |c.buckets| >= 1 && -1 <= l.stickyIndex < |c.buckets| && b in l.lanes
  {
    var open := l.lanes[b].open;
    if c.assigner.Sticky? && open.items != [] && open.items[0].targets == item.targets && FullWith(c.limits, open, item)
    then Assign(c, AdvanceSticky(c, l)).1
    else b
  }

  /** The bucket a write that is not turned away is routed to. */
  function Target(c: Config, l: Loop, item: Item, route: Destination): Bucket
    requires |c.buckets| >= 1 && -1 <= l.stickyIndex < |c.buckets|
    requires Shaped(c, l) && (route.To? ==> route.bucket in c.buckets)
  {
    var (asked, b) := if route.To? then (l, route.bucket) else Assign(c, l);
    if item.arrow then b else RowTarget(c, asked, b, item)
  }

  lemma {:induction false} DispatchKeepsTurns(c: Config, l: Loop, i: nat)
    requires Shaped(c, l) && i <= |c.buckets|
    ensures DispatchFrom(c, l, i).stickyIndex == l.stickyIndex
    ensures DispatchFrom(c, l, i).roundRobin == l.roundRobin
    ensures DispatchFrom(c, l, i).rejected == l.rejected
    decreases |c.buckets| - i
  {
    if i < |c.buckets| && l.inFlight < c.maxConcurrent {
      if Eligible(l.lanes[c.buckets[i]]) {
        DispatchKeepsTurns(c, StartAt(l, c.buckets[i]), i + 1);
      } else {
        DispatchKeepsTurns(c, l, i + 1);
      }
    }
  }

  lemma FlushKeepsTurns(c: Config, l: Loop, b: Bucket)
    requires Shaped(c, l) && b in l.lanes
    ensures FlushBucket(c, l, b).stickyIndex == l.stickyIndex
    ensures FlushBucket(c, l, b).roundRobin == l.roundRobin
    ensures FlushBucket(c, l, b).rejected == l.rejected
  {
    DispatchKeepsTurns(c, At(l, b, Close(l.lanes[b])), 0);
  }
}
