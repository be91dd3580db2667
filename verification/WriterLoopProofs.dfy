/** Every scheduler operation keeps the scheduler's invariant and only extends its histories. */
module WriterLoopProofs {
  import opened WriterLanes
  import opened WriterLoop

  // -------------------------------------------------------------------- invariant

  function Active(l: Loop): set<Bucket>
  {
    set b | b in l.lanes && l.lanes[b].active
  }

  ghost predicate Sent(limits: Limits, lane: Lane)
  {
    (forall k :: 0 <= k < |lane.pending| ==> Sendable(limits, lane.pending[k]))
    && (forall k :: 0 <= k < |lane.started| ==> Sendable(limits, lane.started[k].batch))
  }

  /** `closing` marks a bucket whose open batch is about to be closed and may already be full. */
  ghost predicate LaneOk(limits: Limits, lane: Lane, closing: bool)
  {
    LaneInv(lane) && Sent(limits, lane)
    && if closing then lane.open == EMPTY || Sendable(limits, lane.open) else Room(limits, lane.open)
  }

  ghost predicate Home(c: Config, l: Loop, b: Bucket)
  {
    0 <= l.stickyIndex < |c.buckets| && c.buckets[l.stickyIndex] == b
  }

  ghost predicate Core(c: Config, l: Loop, closing: set<Bucket>)
  {
    ValidConfig(c) && Shaped(c, l) && -1 <= l.stickyIndex < |c.buckets|
    && (forall b :: b in l.lanes ==> LaneOk(c.limits, l.lanes[b], b in closing))
    && l.inFlight == |Active(l)| && l.inFlight <= c.maxConcurrent
    && (c.assigner.Sticky? ==>
          forall b :: b in l.lanes && b !in closing && l.lanes[b].open.items != [] ==> Home(c, l, b))
  }

  /** No request slot is idle while a bucket could use it. */
  ghost predicate Conserving(c: Config, l: Loop)
  {
    l.inFlight < c.maxConcurrent ==> forall b :: b in l.lanes ==> !Eligible(l.lanes[b])
  }

  ghost predicate LoopInv(c: Config, l: Loop)
  {
    Core(c, l, {}) && Conserving(c, l)
  }

  /** Histories only grow. */
  ghost predicate LoopGrows(before: Loop, after: Loop)
  {
    (forall b :: b in before.lanes ==> b in after.lanes && Grows(before.lanes[b], after.lanes[b]))
    && before.rejected <= after.rejected
  }

  /** No call ended between the two states, though calls may have started. */
  predicate Calm(before: Lane, after: Lane)
  {
    Grows(before, after) && after.acks == before.acks && after.sequence == before.sequence
    && (before.active ==> after.active && after.started == before.started)
  }

  ghost predicate LoopCalm(before: Loop, after: Loop)
  {
    (forall b :: b in before.lanes ==> b in after.lanes && Calm(before.lanes[b], after.lanes[b]))
    && before.rejected <= after.rejected
  }

  lemma CalmGrows(before: Loop, after: Loop)
    requires LoopCalm(before, after)
    ensures LoopGrows(before, after)
  {
  }

  lemma LoopGrowsTransitive(x: Loop, y: Loop, z: Loop)
    requires LoopGrows(x, y) && LoopGrows(y, z)
    ensures LoopGrows(x, z)
  {
  }

  lemma LoopCalmTransitive(x: Loop, y: Loop, z: Loop)
    requires LoopCalm(x, y) && LoopCalm(y, z)
    ensures LoopCalm(x, z)
  {
  }

  function Count(active: bool): nat
  {
    if active then 1 else 0
  }

  /** What a lane still has to do; a started call counts less than a queued batch. */
  function Weight(lane: Lane): nat
  {
    2 * |lane.pending| + Count(lane.active)
  }

  /** Only scheduling changed: nothing was routed, completed, closed or poisoned. */
  ghost predicate SameWrites(before: Lane, after: Lane)
  {
    after.open == before.open && after.routed == before.routed && after.completed == before.completed
    && (Eligible(after) ==> Eligible(before)) && Weight(after) <= Weight(before)
    && (before.active ==> after.active && after.started == before.started) && before.started <= after.started
    && after.poisoned == before.poisoned && after.sequence == before.sequence && after.acks == before.acks
  }

  ghost predicate Scheduled(before: Loop, after: Loop)
  {
    LoopCalm(before, after) && after.rejected == before.rejected
    && forall b :: b in before.lanes ==> b in after.lanes && SameWrites(before.lanes[b], after.lanes[b])
  }

  /** Bucket `b` became `lane`, and the other buckets at most started a call. */
  ghost predicate Became(before: Loop, b: Bucket, lane: Lane, after: Loop)
  {
    b in after.lanes && SameWrites(lane, after.lanes[b])
    && forall x :: x in before.lanes && x != b ==> x in after.lanes && SameWrites(before.lanes[x], after.lanes[x])
  }

  ghost predicate SameRouted(before: Loop, after: Loop)
  {
    after.rejected == before.rejected
    && forall x :: x in before.lanes ==> x in after.lanes && after.lanes[x].routed == before.lanes[x].routed
  }

  ghost predicate Quiet(l: Loop)
  {
    forall b :: b in l.lanes ==> l.lanes[b].open.items == []
  }

  function NewLoop(c: Config): Loop
  {
    Loop(map b | b in c.buckets :: NEW_LANE, 0, -1, 0, [])
  }

  lemma NewLoopInv(c: Config)
    requires ValidConfig(c)
    ensures LoopInv(c, NewLoop(c))
  {
    NewLaneInv();
    assert Active(NewLoop(c)) == {};
  }

  // ------------------------------------------------------------------ one lane changes

  function Put(l: Loop, b: Bucket, lane: Lane, inFlight: int): Loop
  {
    At(l, b, lane).(inFlight := inFlight)
  }

  /** Replacing one lane by a sound one keeps the scheduler sound, if the flight count follows. */
  lemma PutKeeps(c: Config, l: Loop, b: Bucket, lane: Lane, inFlight: int, closing: set<Bucket>, closing': set<Bucket>)
    requires Core(c, l, closing) && b in l.lanes
    requires closing - {b} == closing' - {b}
    requires LaneOk(c.limits, lane, b in closing')
    requires inFlight == l.inFlight - Count(l.lanes[b].active) + Count(lane.active) && inFlight <= c.maxConcurrent
    requires c.assigner.Sticky? && b !in closing' && lane.open.items != [] ==> Home(c, l, b)
    ensures Core(c, Put(l, b, lane, inFlight), closing')
  {
    hide LaneOk, ValidConfig, Shaped, Active;
    PutShaped(c, l, b, lane, inFlight);
    PutActive(l, b, lane, inFlight);
    forall x | x in l.lanes && x != b ensures x in closing <==> x in closing' {
      assert x in closing - {b} <==> x in closing' - {b};
    }
  }

  lemma PutShaped(c: Config, l: Loop, b: Bucket, lane: Lane, inFlight: int)
    requires Shaped(c, l) && b in l.lanes
    ensures Shaped(c, Put(l, b, lane, inFlight))
  {
  }

  lemma PutActive(l: Loop, b: Bucket, lane: Lane, inFlight: int)
    requires b in l.lanes
    ensures |Active(Put(l, b, lane, inFlight))| == |Active(l)| - Count(l.lanes[b].active) + Count(lane.active)
  {
    var r := Put(l, b, lane, inFlight);
    assert Active(r) - {b} == Active(l) - {b};
    CountOne(Active(l), b);
    CountOne(Active(r), b);
  }

  lemma CountOne(s: set<Bucket>, b: Bucket)
    ensures |s| == |s - {b}| + Count(b in s)
  {
    if b in s {
      assert s == (s - {b}) + {b};
    } else {
      assert s == s - {b};
    }
  }

  lemma PutGrows(l: Loop, b: Bucket, lane: Lane, inFlight: int)
    requires b in l.lanes && Grows(l.lanes[b], lane)
    ensures LoopGrows(l, Put(l, b, lane, inFlight))
  {
  }

  lemma PutCalm(l: Loop, b: Bucket, lane: Lane, inFlight: int)
    requires b in l.lanes && Calm(l.lanes[b], lane)
    ensures LoopCalm(l, Put(l, b, lane, inFlight))
  {
    hide Calm;
    forall x | x in l.lanes ensures Calm(l.lanes[x], Put(l, b, lane, inFlight).lanes[x]) {
      CalmReflexive(l.lanes[x]);
    }
  }

  lemma CalmReflexive(lane: Lane)
    ensures Calm(lane, lane)
  {
  }

  // --------------------------------------------------------------------- dispatch

  lemma StartLane(limits: Limits, lane: Lane, closing: bool)
    requires LaneOk(limits, lane, closing) && Eligible(lane)
    ensures LaneOk(limits, Start(lane), closing) && Calm(lane, Start(lane)) && SameWrites(lane, Start(lane))
  {
    hide LaneInv, Sendable, Room;
    StartKeeps(lane);
    assert !lane.poisoned by { NeverPoisonedAndPending(lane); }
  }

  lemma NeverPoisonedAndPending(lane: Lane)
    requires LaneInv(lane) && lane.pending != []
    ensures !lane.poisoned
  {
  }

  lemma StartAtKeeps(c: Config, l: Loop, b: Bucket, closing: set<Bucket>)
    requires Core(c, l, closing) && b in l.lanes && Eligible(l.lanes[b]) && l.inFlight < c.maxConcurrent
    ensures Core(c, StartAt(l, b), closing) && Scheduled(l, StartAt(l, b))
  {
    hide LaneOk, Calm, Home;
    var lane := Start(l.lanes[b]);
    StartLane(c.limits, l.lanes[b], b in closing);
    PutKeeps(c, l, b, lane, l.inFlight + 1, closing, closing);
    PutCalm(l, b, lane, l.inFlight + 1);
    assert StartAt(l, b) == Put(l, b, lane, l.inFlight + 1);
  }

  lemma ScheduledTransitive(x: Loop, y: Loop, z: Loop)
    requires Scheduled(x, y) && Scheduled(y, z)
    ensures Scheduled(x, z)
  {
    hide Calm, LoopCalm;
    LoopCalmTransitive(x, y, z);
  }

  lemma ScheduledReflexive(l: Loop)
    ensures Scheduled(l, l)
  {
  }

  ghost predicate Swept(c: Config, l: Loop, i: nat)
    requires Shaped(c, l)
  {
    forall j :: i <= j < |c.buckets| ==> !Eligible(l.lanes[c.buckets[j]])
  }

  lemma SweptOne(c: Config, s: Loop, r: Loop, i: nat)
    requires Shaped(c, s) && Shaped(c, r) && Scheduled(s, r) && i < |c.buckets|
    requires !Eligible(s.lanes[c.buckets[i]]) && Swept(c, r, i + 1)
    ensures Swept(c, r, i)
  {
    hide Calm, LoopCalm;
    assert SameWrites(s.lanes[c.buckets[i]], r.lanes[c.buckets[i]]);
  }

  lemma {:induction false} DispatchFromKeeps(c: Config, l: Loop, i: nat, closing: set<Bucket>)
    requires Core(c, l, closing) && i <= |c.buckets|
    ensures Core(c, DispatchFrom(c, l, i), closing) && Scheduled(l, DispatchFrom(c, l, i))
    ensures DispatchFrom(c, l, i).inFlight >= c.maxConcurrent || Swept(c, DispatchFrom(c, l, i), i)
    decreases |c.buckets| - i
  {
    hide LaneOk, Home, Scheduled;
    var r := DispatchFrom(c, l, i);
    if i == |c.buckets| || l.inFlight >= c.maxConcurrent {
      ScheduledReflexive(l);
    } else {
      var b := c.buckets[i];
      var s := l;
      ScheduledReflexive(l);
      if Eligible(l.lanes[b]) {
        StartAtKeeps(c, l, b, closing);
        s := StartAt(l, b);
      }
      DispatchFromKeeps(c, s, i + 1, closing);
      ScheduledTransitive(l, s, r);
      if r.inFlight < c.maxConcurrent {
        SweptOne(c, s, r, i);
      }
    }
  }

  lemma DispatchKeeps(c: Config, l: Loop)
    requires Core(c, l, {})
    ensures LoopInv(c, Dispatch(c, l)) && Scheduled(l, Dispatch(c, l)) && LoopCalm(l, Dispatch(c, l))
  {
    hide LaneOk, Home, LoopCalm;
    DispatchFromKeeps(c, l, 0, {});
    var r := Dispatch(c, l);
    if r.inFlight < c.maxConcurrent {
      forall b | b in r.lanes ensures !Eligible(r.lanes[b]) {
        assert b in c.buckets;
        var j :| 0 <= j < |c.buckets| && c.buckets[j] == b;
      }
    }
  }

  // ---------------------------------------------------------------- closing batches

  lemma RoomIsSendable(limits: Limits, batch: Batch)
    requires Room(limits, batch) && batch.items != []
    ensures Sendable(limits, batch)
  {
  }

  lemma SendableHasItems(limits: Limits, batch: Batch)
    requires Sendable(limits, batch)
    ensures batch.items != []
  {
  }

  lemma NoRoomNeeded(limits: Limits)
    ensures Room(limits, EMPTY)
  {
  }

  lemma CloseLane(limits: Limits, lane: Lane, closing: bool)
    requires LaneOk(limits, lane, closing)
    ensures LaneOk(limits, Close(lane), false) && Close(lane).open.items == []
    ensures Calm(lane, Close(lane)) && Close(lane).routed == lane.routed && Close(lane).active == lane.active
  {
    hide LaneInv, Room, Sendable;
    CloseKeeps(lane);
    NoRoomNeeded(limits);
    if closing && lane.open != EMPTY {
      assert lane.open.items != [] by { SendableHasItems(limits, lane.open); }
    } else if lane.open.items != [] {
      RoomIsSendable(limits, lane.open);
    }
  }

  lemma SameEligible(c: Config, l: Loop, b: Bucket, lane: Lane)
    requires Conserving(c, l) && b in l.lanes && Eligible(lane) == Eligible(l.lanes[b])
    ensures Conserving(c, At(l, b, lane))
  {
  }

  /** Closing a bucket's batch, full or not, restores the whole invariant. */
  lemma FlushKeeps(c: Config, l: Loop, b: Bucket, closing: set<Bucket>)
    requires closing <= {b} && Core(c, l, closing) && Conserving(c, l) && b in l.lanes
    ensures var r := FlushBucket(c, l, b);
      LoopInv(c, r) && LoopCalm(l, r) && LoopGrows(l, r) && SameRouted(l, r) && Became(l, b, Close(l.lanes[b]), r)
      && b in r.lanes && r.lanes[b].open.items == []
      && r.stickyIndex == l.stickyIndex && r.roundRobin == l.roundRobin
  {
    hide LaneOk, Home, Calm, Conserving;
    var lane := l.lanes[b];
    var m := At(l, b, Close(lane));
    CloseLane(c.limits, lane, b in closing);
    PutKeeps(c, l, b, Close(lane), l.inFlight, closing, {});
    PutCalm(l, b, Close(lane), l.inFlight);
    assert m == Put(l, b, Close(lane), l.inFlight);
    FlushKeepsTurns(c, l, b);
    CalmGrows(l, m);
    if lane.open.items == [] {
      assert m.lanes == l.lanes;
    } else if lane.poisoned {
      assert Conserving(c, m) by { SameEligible(c, l, b, Close(lane)); }
    } else {
      DispatchKeeps(c, m);
      LoopCalmTransitive(l, m, Dispatch(c, m));
      CalmGrows(l, Dispatch(c, m));
      BecameAfter(l, b, Close(lane), l.inFlight, Dispatch(c, m));
    }
  }

  lemma {:induction false} QueueKeeps(c: Config, l: Loop, i: nat)
    requires LoopInv(c, l) && i <= |c.buckets|
    requires forall j :: 0 <= j < i ==> l.lanes[c.buckets[j]].open.items == []
    ensures var r := QueueFrom(c, l, i);
      LoopInv(c, r) && LoopCalm(l, r) && LoopGrows(l, r) && SameRouted(l, r) && Quiet(r)
    decreases |c.buckets| - i
  {
    hide LaneOk, Home, Conserving, FlushBucket, Calm;
    if i < |c.buckets| {
      var b := c.buckets[i];
      FlushKeeps(c, l, b, {});
      var s := FlushBucket(c, l, b);
      forall j | 0 <= j < i + 1 ensures s.lanes[c.buckets[j]].open.items == [] {
        assert c.buckets[j] != b ==> j < i;
      }
      QueueKeeps(c, s, i + 1);
      LoopCalmTransitive(l, s, QueueFrom(c, s, i + 1));
      CalmGrows(l, QueueFrom(c, s, i + 1));
    } else {
      LoopCalmReflexive(l);
      CalmGrows(l, l);
      forall b | b in l.lanes ensures l.lanes[b].open.items == [] {
        var j :| 0 <= j < |c.buckets| && c.buckets[j] == b;
      }
    }
  }

  lemma LoopCalmReflexive(l: Loop)
    ensures LoopCalm(l, l)
  {
  }

  // ------------------------------------------------------------------- completions

  lemma FinishLane(limits: Limits, lane: Lane, outcome: Outcome)
    requires LaneOk(limits, lane, false) && lane.active
    ensures lane.started != []
    ensures LaneOk(limits, Finished(lane, outcome), false) && Grows(lane, Finished(lane, outcome))
    ensures !Finished(lane, outcome).active && Finished(lane, outcome).open == lane.open
    ensures Finished(lane, outcome).routed == lane.routed
  {
    hide Sendable, Room, Accounted;
    assert Accounted(lane);
    match outcome {
      case Success(known, base) => SucceedKeeps(lane, Ack(known, base));
      case Failure => FailKeeps(lane);
    }
  }

  lemma FinishKeeps(c: Config, l: Loop, b: Bucket, outcome: Outcome)
    requires LoopInv(c, l) && b in l.lanes && l.lanes[b].active
    ensures l.lanes[b].started != []
    ensures var r := Finish(c, l, b, outcome);
      LoopInv(c, r) && LoopGrows(l, r) && SameRouted(l, r) && Became(l, b, Finished(l.lanes[b], outcome), r)
      && r.stickyIndex == l.stickyIndex && r.roundRobin == l.roundRobin
  {
    hide LaneOk, Home, LoopGrows, LoopCalm, Grows, Finished, Scheduled, SameRouted, Became;
    FinishLane(c.limits, l.lanes[b], outcome);
    var lane := Finished(l.lanes[b], outcome);
    var m := Put(l, b, lane, l.inFlight - 1);
    PutKeeps(c, l, b, lane, l.inFlight - 1, {}, {});
    PutGrows(l, b, lane, l.inFlight - 1);
    DispatchKeeps(c, m);
    DispatchKeepsTurns(c, m, 0);
    CalmGrows(m, Dispatch(c, m));
    LoopGrowsTransitive(l, m, Dispatch(c, m));
    BecameAfter(l, b, lane, l.inFlight - 1, Dispatch(c, m));
  }

  lemma BecameAfter(l: Loop, b: Bucket, lane: Lane, inFlight: int, r: Loop)
    requires b in l.lanes && lane.routed == l.lanes[b].routed && Scheduled(Put(l, b, lane, inFlight), r)
    ensures SameRouted(l, r) && Became(l, b, lane, r)
  {
    hide Calm;
  }

  // ------------------------------------------------------------------------ adding

  /** `item` was routed to bucket `b`, and nothing else was routed or turned away. */
  ghost predicate Routed(before: Loop, after: Loop, b: Bucket, item: Item)
  {
    b in before.lanes && after.rejected == before.rejected
    && forall x :: x in before.lanes ==>
         x in after.lanes
         && after.lanes[x].routed == before.lanes[x].routed + (if x == b then [item] else [])
  }

  lemma RoutedAfter(x: Loop, y: Loop, z: Loop, b: Bucket, item: Item)
    requires SameRouted(x, y) && Routed(y, z, b, item) && b in x.lanes
    ensures Routed(x, z, b, item)
  {
  }

  lemma RoutedBefore(x: Loop, y: Loop, z: Loop, b: Bucket, item: Item)
    requires Routed(x, y, b, item) && SameRouted(y, z)
    ensures Routed(x, z, b, item)
  {
  }

  /** What a batch must satisfy before a row joins it without a further check. */
  predicate Joins(limits: Limits, batch: Batch, item: Item)
  {
    !item.arrow
    && (batch.items == [] || (!FullWith(limits, batch, item) && batch.items[0].targets == item.targets))
  }

  lemma JoinedSendable(limits: Limits, batch: Batch, item: Item)
    requires limits.maxRecords >= 1 && Room(limits, batch) && Joins(limits, batch, item)
    ensures var next := Batch(batch.items + [item], batch.bytes + item.size);
      Sendable(limits, next) && (!Full(limits, next) ==> Room(limits, next))
  {
    var items := batch.items + [item];
    assert items[..|items| - 1] == batch.items;
    assert TotalSize(items) == TotalSize(batch.items) + item.size;
  }

  lemma EnterLane(limits: Limits, lane: Lane, item: Item)
    requires limits.maxRecords >= 1 && LaneOk(limits, lane, false) && Joins(limits, lane.open, item)
    ensures var next := Enter(lane, item, lane.open.bytes + item.size);
      LaneOk(limits, next, true) && (!Full(limits, next.open) ==> LaneOk(limits, next, false))
      && Calm(lane, next)
  {
    hide LaneInv, Sendable, Room, Joins, Full;
    EnterKeeps(lane, item, lane.open.bytes + item.size);
    JoinedSendable(limits, lane.open, item);
  }

  lemma StickyMoves(c: Config, l: Loop)
    requires LoopInv(c, l) && Quiet(l)
    ensures LoopInv(c, AdvanceSticky(c, l))
    ensures LoopInv(c, Assign(c, l).0) && Quiet(Assign(c, l).0)
  {
    hide LaneOk, Home;
    assert Active(AdvanceSticky(c, l)) == Active(l);
    assert Active(Assign(c, l).0) == Active(l);
  }

  /** In a sticky writer only the current bucket holds an open batch. */
  lemma StickyFlushed(c: Config, l: Loop, b: Bucket)
    requires LoopInv(c, l) && c.assigner.Sticky? && Home(c, l, b) && l.lanes[b].open.items == [] && b in l.lanes
    ensures Quiet(l)
  {
    hide LaneOk;
  }

  lemma EnterAt(c: Config, l: Loop, b: Bucket, item: Item)
    requires LoopInv(c, l) && b in l.lanes && Joins(c.limits, l.lanes[b].open, item)
    requires c.assigner.Sticky? ==> Home(c, l, b)
    ensures var placed := At(l, b, Enter(l.lanes[b], item, l.lanes[b].open.bytes + item.size));
      Core(c, placed, {b}) && Conserving(c, placed) && LoopCalm(l, placed) && Routed(l, placed, b, item)
      && (!Full(c.limits, placed.lanes[b].open) ==> Core(c, placed, {}))
  {
    hide LaneOk, Home, Calm, Joins, Full;
    var lane := Enter(l.lanes[b], item, l.lanes[b].open.bytes + item.size);
    EnterLane(c.limits, l.lanes[b], item);
    PutKeeps(c, l, b, lane, l.inFlight, {}, {b});
    PutCalm(l, b, lane, l.inFlight);
    if !Full(c.limits, lane.open) {
      PutKeeps(c, l, b, lane, l.inFlight, {}, {});
    }
    assert At(l, b, lane) == Put(l, b, lane, l.inFlight);
  }

  lemma PlaceKeeps(c: Config, l: Loop, b: Bucket, item: Item)
    requires LoopInv(c, l) && b in l.lanes && Joins(c.limits, l.lanes[b].open, item)
    requires c.assigner.Sticky? ==> Home(c, l, b)
    ensures LoopInv(c, Place(c, l, b, item)) && LoopCalm(l, Place(c, l, b, item))
    ensures Routed(l, Place(c, l, b, item), b, item)
  {
    hide Core, Conserving, Joins, Calm, LoopCalm, Routed, SameRouted, Became, Full, FlushBucket;
    EnterAt(c, l, b, item);
    var placed := At(l, b, Enter(l.lanes[b], item, l.lanes[b].open.bytes + item.size));
    assert Shaped(c, placed) && -1 <= placed.stickyIndex < |c.buckets| by { CoreShaped(c, placed, {b}); }
    if Full(c.limits, placed.lanes[b].open) || c.immediate {
      FlushKeeps(c, placed, b, {b});
      var flushed := FlushBucket(c, placed, b);
      LoopCalmTransitive(l, placed, flushed);
      RoutedBefore(l, placed, flushed, b, item);
      if c.assigner.Sticky? {
        StickyFlushed(c, flushed, b);
        StickyMoves(c, flushed);
        LoopCalmReflexive(flushed);
        SameLanes(l, flushed, AdvanceSticky(c, flushed), b, item);
      }
    }
  }

  lemma CoreShaped(c: Config, l: Loop, closing: set<Bucket>)
    requires Core(c, l, closing)
    ensures ValidConfig(c) && Shaped(c, l) && -1 <= l.stickyIndex < |c.buckets|
  {
  }

  lemma SameLanes(l: Loop, m: Loop, r: Loop, b: Bucket, item: Item)
    requires LoopCalm(l, m) && Routed(l, m, b, item) && r.lanes == m.lanes && r.rejected == m.rejected
    ensures LoopCalm(l, r) && Routed(l, r, b, item)
  {
  }

  lemma AddRowKeeps(c: Config, l: Loop, b: Bucket, item: Item)
    requires LoopInv(c, l) && b in l.lanes && !item.arrow && (c.assigner.Sticky? ==> Home(c, l, b))
    requires var open := l.lanes[b].open; open.items == [] || open.items[0].targets == item.targets
    ensures LoopInv(c, AddRow(c, l, b, item)) && LoopCalm(l, AddRow(c, l, b, item))
    ensures RowTarget(c, l, b, item) in l.lanes && Routed(l, AddRow(c, l, b, item), RowTarget(c, l, b, item), item)
  {
    hide Conserving, Calm, LoopCalm, Routed, LaneOk, Place, SameRouted, Became, FlushBucket;
    var to := b;
    if Joins(c.limits, l.lanes[b].open, item) {
      PlaceKeeps(c, l, b, item);
    } else {
      FlushKeeps(c, l, b, {});
      var flushed := FlushBucket(c, l, b);
      var asked := flushed;
      if c.assigner.Sticky? {
        StickyFlushed(c, flushed, b);
        StickyMoves(c, flushed);
        StickyMoves(c, AdvanceSticky(c, flushed));
        asked, to := Assign(c, AdvanceSticky(c, flushed)).0, Assign(c, AdvanceSticky(c, flushed)).1;
      }
      PlaceKeeps(c, asked, to, item);
      assert SameRouted(l, asked) by { SameLanesRouted(l, flushed, asked); }
      LoopCalmTo(l, flushed, asked, Place(c, asked, to, item));
      RoutedAfter(l, asked, Place(c, asked, to, item), to, item);
    }
  }

  lemma SameLanesRouted(l: Loop, m: Loop, r: Loop)
    requires SameRouted(l, m) && r.lanes == m.lanes && r.rejected == m.rejected
    ensures SameRouted(l, r)
  {
  }

  lemma LoopCalmTo(x: Loop, y: Loop, y': Loop, z: Loop)
    requires LoopCalm(x, y) && y'.lanes == y.lanes && y'.rejected == y.rejected && LoopCalm(y', z)
    ensures LoopCalm(x, z)
  {
  }

  lemma AddMutationKeeps(c: Config, l: Loop, b: Bucket, item: Item)
    requires LoopInv(c, l) && b in l.lanes && !item.arrow && (c.assigner.Sticky? ==> Home(c, l, b))
    ensures LoopInv(c, AddMutation(c, l, b, item)) && LoopCalm(l, AddMutation(c, l, b, item))
    ensures Routed(l, AddMutation(c, l, b, item), RowTarget(c, l, b, item), item)
  {
    hide Conserving, Calm, LoopCalm, Routed, LaneOk, AddRow, SameRouted, Became, FlushBucket;
    var open := l.lanes[b].open;
    if open.items != [] && open.items[0].targets != item.targets {
      FlushKeeps(c, l, b, {});
      var flushed := FlushBucket(c, l, b);
      AddRowKeeps(c, flushed, b, item);
      LoopCalmTransitive(l, flushed, AddRow(c, flushed, b, item));
      RoutedAfter(l, flushed, AddRow(c, flushed, b, item), b, item);
    } else {
      AddRowKeeps(c, l, b, item);
    }
  }

  lemma ArrowLane(limits: Limits, lane: Lane, item: Item)
    requires LaneOk(limits, lane, false) && lane.open.items == [] && item.arrow
    ensures var next := Enter(lane.(open := EMPTY), item, 0);
      LaneOk(limits, next, true) && Calm(lane, next)
  {
    hide Room, TotalSize, Items, Acknowledged, Flatten;
    EnterKeeps(lane.(open := EMPTY), item, 0);
  }

  lemma AddArrowKeeps(c: Config, l: Loop, b: Bucket, item: Item)
    requires LoopInv(c, l) && b in l.lanes && item.arrow
    ensures LoopInv(c, AddArrow(c, l, b, item)) && LoopCalm(l, AddArrow(c, l, b, item))
    ensures Routed(l, AddArrow(c, l, b, item), b, item)
  {
    hide Calm, LoopCalm, Routed, LaneOk, SameRouted, Became, Home, FlushBucket;
    FlushKeeps(c, l, b, {});
    var flushed := FlushBucket(c, l, b);
    var lane := Enter(flushed.lanes[b].(open := EMPTY), item, 0);
    ArrowLane(c.limits, flushed.lanes[b], item);
    PutKeeps(c, flushed, b, lane, flushed.inFlight, {}, {b});
    PutCalm(flushed, b, lane, flushed.inFlight);
    var placed := At(flushed, b, lane);
    assert placed == Put(flushed, b, lane, flushed.inFlight);
    FlushKeeps(c, placed, b, {b});
    LoopCalmTransitive(l, flushed, placed);
    LoopCalmTransitive(l, placed, FlushBucket(c, placed, b));
    PlacedRouted(flushed, b, lane, item);
    RoutedAfter(l, flushed, placed, b, item);
    RoutedBefore(l, placed, FlushBucket(c, placed, b), b, item);
  }

  lemma PlacedRouted(l: Loop, b: Bucket, lane: Lane, item: Item)
    requires b in l.lanes && lane.routed == l.lanes[b].routed + [item]
    ensures Routed(l, At(l, b, lane), b, item)
  {
  }

  // ------------------------------------------------------------------- the scheduler

  /** What the writers' front ends hand to the scheduler: Arrow writes name their bucket, rows of a
      table without a bucket key leave the choice to the assigner, keyed rows are hashed. */
  ghost predicate Admissible(c: Config, item: Item, route: Destination)
  {
    (route.To? ==> route.bucket in c.buckets)
    && (item.arrow ==> route.To?)
    && (!item.arrow ==> (route.Free? <==> !c.assigner.Keyed?))
  }

  /** Adding a write keeps the invariant and accounts for that write exactly once. */
  lemma AddKeeps(c: Config, l: Loop, item: Item, route: Destination, cancelled: bool)
    requires LoopInv(c, l) && Admissible(c, item, route)
    ensures var r := Add(c, l, item, route, cancelled);
      LoopInv(c, r) && LoopCalm(l, r) && LoopGrows(l, r)
      && (if cancelled || route.Unroutable? then r == Reject(l, item)
          else Routed(l, r, Target(c, l, item, route), item))
  {
    hide Calm, Routed, LaneOk, AddMutation, AddArrow;
    if cancelled || route.Unroutable? {
      CalmAlways(l);
      assert Active(Reject(l, item)) == Active(l);
    } else {
      var (asked, b) := if route.To? then (l, route.bucket) else Assign(c, l);
      assert b in l.lanes;
      assert Active(asked) == Active(l);
      if item.arrow {
        AddArrowKeeps(c, asked, b, item);
      } else {
        StickyHome(c, l);
        AddMutationKeeps(c, asked, b, item);
      }
      RoutedFrom(l, asked, Add(c, l, item, route, cancelled), Target(c, l, item, route), item);
    }
    CalmGrows(l, Add(c, l, item, route, cancelled));
  }

  lemma CalmAlways(l: Loop)
    ensures forall b :: b in l.lanes ==> Calm(l.lanes[b], l.lanes[b])
  {
  }

  /** Asking the assigner keeps the invariant, and a sticky writer's answer is its current bucket. */
  lemma StickyHome(c: Config, l: Loop)
    requires LoopInv(c, l)
    ensures var (asked, b) := Assign(c, l);
      LoopInv(c, asked) && (c.assigner.Sticky? ==> Home(c, asked, b))
  {
    hide LaneOk;
    var (asked, b) := Assign(c, l);
    assert Active(asked) == Active(l);
  }

  lemma RoutedFrom(l: Loop, asked: Loop, r: Loop, b: Bucket, item: Item)
    requires asked.lanes == l.lanes && asked.rejected == l.rejected && LoopCalm(asked, r) && Routed(asked, r, b, item)
    ensures LoopCalm(l, r) && Routed(l, r, b, item)
  {
  }
}
