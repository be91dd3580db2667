/**
 One bucket of an idempotent batching writer: its open batch, its queue of closed batches,
 its one request in flight, its sequence number and its poison mark. The scheduler of the
 append writer and of the upsert writer keep these in maps keyed by bucket; a `Lane` is one
 bucket's slice of all of them, with the history of what was routed, started and completed.
 */
module WriterLanes {

  /** `records` is the number of log records the write holds; an Arrow write may hold any number. */
  datatype Item = Item(id: nat, records: nat, size: nat, arrow: bool, targets: seq<nat>)

  datatype Batch = Batch(items: seq<Item>, bytes: nat)

  /** A batch handed to the retry loop together with its sequence number. */
  datatype Call = Call(batch: Batch, sequence: nat)

  datatype Outcome = Success(known: bool, base: nat) | Failure

  datatype Done = Done(item: Item, outcome: Outcome)

  /** What a successful call reported: whether the response carried an offset, and which. */
  datatype Ack = Ack(known: bool, base: nat)

  datatype Lane = Lane(
    open: Batch,
    pending: seq<Batch>,
    active: bool,
    sequence: nat,
    poisoned: bool,
    routed: seq<Item>,
    started: seq<Call>,
    acks: seq<Ack>,
    completed: seq<Done>)

  const EMPTY := Batch([], 0)

  const NEW_LANE := Lane(EMPTY, [], false, 0, false, [], [], [], [])

  // ------------------------------------------------------------------ histories

  function Flatten(batches: seq<Batch>): (items: seq<Item>)
  {
    if batches == [] then [] else batches[0].items + Flatten(batches[1..])
  }

  function Batches(calls: seq<Call>): (batches: seq<Batch>)
    ensures |batches| == |calls|
  {
    seq(|calls|, k requires 0 <= k < |calls| => calls[k].batch)
  }

  function Items(done: seq<Done>): (items: seq<Item>)
    ensures |items| == |done|
  {
    seq(|done|, k requires 0 <= k < |done| => done[k].item)
  }

  /** Every write of a batch gets the offset of its own first record. */
  function Successes(items: seq<Item>, ack: Ack): (done: seq<Done>)
    ensures Items(done) == items
    decreases |items|
  {
    if items == [] then []
    else
      var rest := Successes(items[1..], if ack.known then Ack(true, ack.base + items[0].records) else ack);
      assert Items([Done(items[0], Success(ack.known, ack.base))] + rest) == [items[0]] + Items(rest);
      [Done(items[0], Success(ack.known, ack.base))] + rest
  }

  function Failures(items: seq<Item>): (done: seq<Done>)
    ensures Items(done) == items
  {
    seq(|items|, k requires 0 <= k < |items| => Done(items[k], Failure))
  }

  /** The completions of the first `n` calls, all acknowledged. */
  function Acknowledged(started: seq<Call>, acks: seq<Ack>, n: nat): (done: seq<Done>)
    requires n <= |started| && n <= |acks|
  {
    if n == 0 then [] else Acknowledged(started, acks, n - 1) + Successes(started[n - 1].batch.items, acks[n - 1])
  }

  lemma {:induction false} FlattenConcat(a: seq<Batch>, b: seq<Batch>)
    ensures Flatten(a + b) == Flatten(a) + Flatten(b)
  {
    if a == [] {
      assert a + b == b;
    } else {
      FlattenConcat(a[1..], b);
      assert (a + b)[1..] == a[1..] + b && (a + b)[0] == a[0];
      assert a[0].items + (Flatten(a[1..]) + Flatten(b)) == a[0].items + Flatten(a[1..]) + Flatten(b);
    }
  }

  lemma FlattenOne(b: Batch)
    ensures Flatten([b]) == b.items
  {
    assert Flatten([b]) == b.items + Flatten([]);
  }

  lemma ItemsConcat(a: seq<Done>, b: seq<Done>)
    ensures Items(a + b) == Items(a) + Items(b)
  {
  }

  lemma {:induction false} AcknowledgedItems(started: seq<Call>, acks: seq<Ack>, n: nat)
    requires n <= |started| && n <= |acks|
    ensures Items(Acknowledged(started, acks, n)) == Flatten(Batches(started[..n]))
  {
    if n > 0 {
      AcknowledgedItems(started, acks, n - 1);
      var last := started[n - 1].batch;
      ItemsConcat(Acknowledged(started, acks, n - 1), Successes(last.items, acks[n - 1]));
      assert Batches(started[..n]) == Batches(started[..n - 1]) + [last];
      FlattenConcat(Batches(started[..n - 1]), [last]);
      FlattenOne(last);
    }
  }

  /** Later calls and acknowledgements do not change what the first `n` completed. */
  lemma {:induction false} AcknowledgedStable(started: seq<Call>, acks: seq<Ack>, started': seq<Call>, acks': seq<Ack>, n: nat)
    requires n <= |started| <= |started'| && n <= |acks| <= |acks'|
    requires started <= started' && acks <= acks'
    ensures Acknowledged(started, acks, n) == Acknowledged(started', acks', n)
  {
    if n > 0 {
      AcknowledgedStable(started, acks, started', acks', n - 1);
    }
  }

  // ------------------------------------------------------------- lane operations

  function Enter(lane: Lane, item: Item, bytes: nat): Lane
  {
    lane.(open := Batch(lane.open.items + [item], bytes), routed := lane.routed + [item])
  }

  /** Closing the open batch: queued, or failed at once when the bucket is poisoned. */
  function Close(lane: Lane): Lane
  {
    if lane.open.items == [] then lane
    else if lane.poisoned then lane.(open := EMPTY, completed := lane.completed + Failures(lane.open.items))
    else lane.(open := EMPTY, pending := lane.pending + [lane.open])
  }

  function Start(lane: Lane): Lane
    requires !lane.active && lane.pending != []
  {
    lane.(pending := lane.pending[1..], active := true,
          started := lane.started + [Call(lane.pending[0], lane.sequence)])
  }

  /** The call in flight, the last one started. */
  function Flight(lane: Lane): Batch
    requires lane.started != []
  {
    lane.started[|lane.started| - 1].batch
  }

  function Succeed(lane: Lane, ack: Ack): Lane
    requires lane.started != []
  {
    lane.(active := false, sequence := lane.sequence + 1, acks := lane.acks + [ack],
          completed := lane.completed + Successes(Flight(lane).items, ack))
  }

  function Fail(lane: Lane): Lane
    requires lane.started != []
  {
    lane.(active := false, poisoned := true, pending := [],
          completed := lane.completed + Failures(Flight(lane).items) + Failures(Flatten(lane.pending)))
  }

  // ------------------------------------------------------------------- invariant

  function InFlight(lane: Lane): seq<Item>
    requires lane.active ==> lane.started != []
  {
    if lane.active then Flight(lane).items else []
  }

  /** The writes a lane still owes an answer, oldest first. */
  function Owed(lane: Lane): seq<Item>
    requires lane.active ==> lane.started != []
  {
    InFlight(lane) + Flatten(lane.pending) + lane.open.items
  }

  /** Sequence numbers are used once each, in order, and never past a failure. */
  predicate Sequenced(lane: Lane)
  {
    |lane.started| == lane.sequence + (if lane.active || lane.poisoned then 1 else 0)
    && (forall k :: 0 <= k < |lane.started| ==> lane.started[k].sequence == k)
    && !(lane.active && lane.poisoned)
    && (lane.poisoned ==> lane.pending == [])
    && |lane.acks| == lane.sequence
  }

  /** Everything routed is completed or owed, in routing order, and successes precede failures. */
  predicate Accounted(lane: Lane)
    requires Sequenced(lane)
  {
    lane.routed == Items(lane.completed) + Owed(lane)
    && Acknowledged(lane.started, lane.acks, lane.sequence) <= lane.completed
    && (!lane.poisoned ==> lane.completed == Acknowledged(lane.started, lane.acks, lane.sequence))
    && (forall k :: |Acknowledged(lane.started, lane.acks, lane.sequence)| <= k < |lane.completed| ==>
          lane.completed[k].outcome == Failure)
    && (lane.poisoned ==>
          Flatten(Batches(lane.started)) <= Items(lane.completed))
  }

  predicate LaneInv(lane: Lane)
  {
    Sequenced(lane) && Accounted(lane)
  }

  lemma NewLaneInv()
    ensures LaneInv(NEW_LANE)
  {
  }

  lemma EnterKeeps(lane: Lane, item: Item, bytes: nat)
    requires LaneInv(lane)
    ensures LaneInv(Enter(lane, item, bytes))
  {
    var next := Enter(lane, item, bytes);
    assert Owed(next) == Owed(lane) + [item];
  }

  lemma CloseKeeps(lane: Lane)
    requires LaneInv(lane)
    ensures LaneInv(Close(lane))
  {
    hide Acknowledged, Batches, Flatten, Items;
    var next := Close(lane);
    if lane.open.items != [] {
      if lane.poisoned {
        ItemsConcat(lane.completed, Failures(lane.open.items));
        NothingPending();
        assert Owed(lane) == lane.open.items && Owed(next) == [];
      } else {
        FlattenConcat(lane.pending, [lane.open]);
        FlattenOne(lane.open);
        assert Owed(next) == Owed(lane);
      }
    }
  }

  lemma StartKeeps(lane: Lane)
    requires LaneInv(lane) && !lane.active && lane.pending != []
    ensures LaneInv(Start(lane))
  {
    var next := Start(lane);
    AcknowledgedStable(lane.started, lane.acks, next.started, next.acks, lane.sequence);
    assert Flatten(lane.pending) == lane.pending[0].items + Flatten(next.pending);
    assert Owed(next) == Owed(lane);
  }

  lemma SucceedKeeps(lane: Lane, ack: Ack)
    requires LaneInv(lane) && lane.active
    ensures LaneInv(Succeed(lane, ack))
  {
    hide Flatten, Successes, Items;
    var next := Succeed(lane, ack);
    var flight := Flight(lane).items;
    AcknowledgedStable(lane.started, lane.acks, next.started, next.acks, lane.sequence);
    assert next.completed == Acknowledged(next.started, next.acks, next.sequence);
    assert next.routed == Items(next.completed) + Owed(next) by {
      ItemsConcat(lane.completed, Successes(flight, ack));
      SplitOwed(flight, Flatten(lane.pending), lane.open.items);
      assert Items(lane.completed) + (flight + Owed(next)) == Items(lane.completed) + flight + Owed(next);
    }
  }

  lemma SplitOwed(flight: seq<Item>, queued: seq<Item>, open: seq<Item>)
    ensures flight + queued + open == flight + ([] + queued + open)
  {
  }

  lemma FailKeeps(lane: Lane)
    requires LaneInv(lane) && lane.active
    ensures LaneInv(Fail(lane))
  {
    hide Flatten, Acknowledged, Items, Batches;
    var next := Fail(lane);
    var flight, queued := Flight(lane).items, Flatten(lane.pending);
    var done := lane.completed + Failures(flight);
    ItemsConcat(lane.completed, Failures(flight));
    ItemsConcat(done, Failures(queued));
    assert next.routed == Items(next.completed) + Owed(next) by {
      assert Owed(next) == lane.open.items by { NothingPending(); }
      assert Items(lane.completed) + (flight + queued + lane.open.items)
          == Items(lane.completed) + flight + queued + lane.open.items;
    }
    StartedItems(lane);
    assert Items(next.completed)[..|Items(done)|] == Items(done);
  }

  lemma NothingPending()
    ensures Flatten([]) == []
  {
  }

  /** While a call is in flight, the calls started hold the completed writes and the flight. */
  lemma StartedItems(lane: Lane)
    requires LaneInv(lane) && lane.active
    ensures Flatten(Batches(lane.started)) == Items(lane.completed) + Flight(lane).items
  {
    hide Flatten, Acknowledged, Items;
    AcknowledgedItems(lane.started, lane.acks, lane.sequence);
    assert Batches(lane.started) == Batches(lane.started[..lane.sequence]) + [Flight(lane)];
    FlattenConcat(Batches(lane.started[..lane.sequence]), [Flight(lane)]);
    FlattenOne(Flight(lane));
  }

  // ------------------------------------------------------------------ monotonicity

  /** Histories only grow, and a poisoned bucket never starts another call. */
  predicate Grows(before: Lane, after: Lane)
  {
    before.routed <= after.routed
    && before.started <= after.started
    && before.acks <= after.acks
    && before.completed <= after.completed
    && (before.poisoned ==> after.poisoned && after.started == before.started)
  }

  // ------------------------------------------------------------ what a batch holds

  datatype Limits = Limits(maxRecords: nat, maxBytes: nat)

  function TotalSize(items: seq<Item>): nat
  {
    if items == [] then 0 else TotalSize(items[..|items| - 1]) + items[|items| - 1].size
  }

  /** A batch that may be sent: one Arrow write, or rows within both limits, one target list. */
  predicate Sendable(limits: Limits, batch: Batch)
  {
    |batch.items| >= 1
    && (if batch.items[0].arrow then |batch.items| == 1
        else
          RowsOnly(batch.items) && batch.bytes == TotalSize(batch.items)
          && |batch.items| <= limits.maxRecords
          && (batch.bytes <= limits.maxBytes || |batch.items| == 1))
    && SameTargets(batch.items)
  }

  predicate RowsOnly(items: seq<Item>)
  {
    forall k :: 0 <= k < |items| ==> !items[k].arrow
  }

  predicate SameTargets(items: seq<Item>)
  {
    forall k :: 0 <= k < |items| ==> items[k].targets == items[0].targets
  }

  /** An open batch has room for at least one more record and one more byte. */
  predicate Room(limits: Limits, batch: Batch)
  {
    RowsOnly(batch.items) && batch.bytes == TotalSize(batch.items) && SameTargets(batch.items)
    && (batch.items != [] ==> |batch.items| < limits.maxRecords && batch.bytes < limits.maxBytes)
  }
}
