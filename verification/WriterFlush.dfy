/** What a flush guarantees: it ends, it empties every bucket, and it reports exactly the failures. */
module WriterFlush {
  import opened WriterLanes
  import opened WriterLoop
  import opened WriterLoopProofs

  // ------------------------------------------------------------- what a flush reports

  predicate LaneUnfailed(before: Lane, after: Lane)
  {
    forall k :: |before.completed| <= k < |after.completed| ==> after.completed[k].outcome.Success?
  }

  /** No write was answered with an error between the two states. */
  ghost predicate Unfailed(before: Loop, after: Loop)
  {
    forall b :: b in before.lanes && b in after.lanes ==> LaneUnfailed(before.lanes[b], after.lanes[b])
  }

  lemma LaneUnfailedSplit(x: Lane, y: Lane, z: Lane)
    requires x.completed <= y.completed <= z.completed
    ensures LaneUnfailed(x, z) <==> LaneUnfailed(x, y) && LaneUnfailed(y, z)
  {
    if LaneUnfailed(x, z) {
      forall k | |x.completed| <= k < |y.completed| ensures y.completed[k].outcome.Success? {
        assert y.completed[k] == z.completed[k];
      }
    }
    if LaneUnfailed(x, y) && LaneUnfailed(y, z) {
      forall k | |x.completed| <= k < |z.completed| ensures z.completed[k].outcome.Success? {
        assert k < |y.completed| ==> y.completed[k] == z.completed[k];
      }
    }
  }

  lemma UnfailedSplit(c: Config, x: Loop, y: Loop, z: Loop)
    requires Shaped(c, x) && Shaped(c, y) && Shaped(c, z) && LoopGrows(x, y) && LoopGrows(y, z)
    ensures Unfailed(x, z) <==> Unfailed(x, y) && Unfailed(y, z)
  {
    hide LaneUnfailed;
    forall b | b in x.lanes
      ensures LaneUnfailed(x.lanes[b], z.lanes[b])
          <==> LaneUnfailed(x.lanes[b], y.lanes[b]) && LaneUnfailed(y.lanes[b], z.lanes[b])
    {
      assert Grows(x.lanes[b], y.lanes[b]) && Grows(y.lanes[b], z.lanes[b]);
      LaneUnfailedSplit(x.lanes[b], y.lanes[b], z.lanes[b]);
    }
  }

  /** One bucket becoming `lane` decides whether a step reports an error. */
  lemma UnfailedBecame(c: Config, l: Loop, b: Bucket, lane: Lane, r: Loop)
    requires Shaped(c, l) && Shaped(c, r) && b in l.lanes && Became(l, b, lane, r)
    ensures Unfailed(l, r) <==> LaneUnfailed(l.lanes[b], lane)
  {
    assert LaneUnfailed(l.lanes[b], lane) <==> LaneUnfailed(l.lanes[b], r.lanes[b]);
    forall x | x in l.lanes && x != b ensures LaneUnfailed(l.lanes[x], r.lanes[x]) {
      assert SameWrites(l.lanes[x], r.lanes[x]);
    }
  }

  lemma CloseReports(lane: Lane)
    ensures LaneUnfailed(lane, Close(lane)) <==> !(lane.open.items != [] && lane.poisoned)
  {
    if lane.open.items != [] && lane.poisoned {
      assert Close(lane).completed[|lane.completed|].outcome == Failure;
    }
  }

  lemma {:induction false} SuccessesSucceed(items: seq<Item>, ack: Ack, k: nat)
    requires k < |items|
    ensures Successes(items, ack)[k].outcome.Success?
    decreases |items|
  {
    if k > 0 {
      SuccessesSucceed(items[1..], if ack.known then Ack(true, ack.base + items[0].records) else ack, k - 1);
    }
  }

  lemma FinishReports(lane: Lane, outcome: Outcome)
    requires lane.started != [] && Flight(lane).items != []
    ensures LaneUnfailed(lane, Finished(lane, outcome)) <==> outcome.Success?
  {
    var done := Finished(lane, outcome).completed;
    match outcome {
      case Success(known, base) =>
        forall k | |lane.completed| <= k < |done| ensures done[k].outcome.Success? {
          SuccessesSucceed(Flight(lane).items, Ack(known, base), k - |lane.completed|);
        }
      case Failure =>
        assert done[|lane.completed|].outcome == Failure;
    }
  }

  lemma FlushReports(c: Config, l: Loop, b: Bucket)
    requires LoopInv(c, l) && b in l.lanes
    ensures Unfailed(l, FlushBucket(c, l, b)) <==> !FlushFails(l, b)
  {
    hide LaneOk, LoopGrows, Conserving, Became, LaneUnfailed;
    FlushKeeps(c, l, b, {});
    UnfailedBecame(c, l, b, Close(l.lanes[b]), FlushBucket(c, l, b));
    CloseReports(l.lanes[b]);
  }

  lemma {:induction false} QueueReports(c: Config, l: Loop, i: nat)
    requires LoopInv(c, l) && i <= |c.buckets|
    ensures LoopGrows(l, QueueFrom(c, l, i))
    ensures Unfailed(l, QueueFrom(c, l, i)) <==> !QueueFails(c, l, i)
    decreases |c.buckets| - i
  {
    hide LaneOk, Conserving, FlushBucket, Grows, Became, Home, SameRouted;
    if i < |c.buckets| {
      var b := c.buckets[i];
      var s := FlushBucket(c, l, b);
      FlushKeeps(c, l, b, {});
      FlushReports(c, l, b);
      QueueReports(c, s, i + 1);
      LoopGrowsTransitive(l, s, QueueFrom(c, s, i + 1));
      UnfailedSplit(c, l, s, QueueFrom(c, s, i + 1));
    } else {
      LoopCalmReflexive(l);
      CalmGrows(l, l);
    }
  }

  lemma FlightSent(limits: Limits, lane: Lane)
    requires LaneOk(limits, lane, false) && lane.active
    ensures lane.started != [] && Flight(lane).items != []
  {
  }

  /** A completion reports an error exactly when some write was answered with one. */
  lemma CompletionReports(c: Config, l: Loop, b: Bucket, outcome: Outcome)
    requires LoopInv(c, l) && b in l.lanes && l.lanes[b].active
    ensures l.lanes[b].started != []
    ensures Unfailed(l, Finish(c, l, b, outcome)) <==> outcome.Success?
  {
    hide LaneOk, LoopGrows, Conserving, Became, LaneUnfailed, Finished;
    FlightSent(c.limits, l.lanes[b]);
    FinishKeeps(c, l, b, outcome);
    UnfailedBecame(c, l, b, Finished(l.lanes[b], outcome), Finish(c, l, b, outcome));
    FinishReports(l.lanes[b], outcome);
  }

  // ---------------------------------------------------------------------- termination

  /** The work left over all buckets. */
  function Load(c: Config, l: Loop, i: nat): nat
    requires Shaped(c, l) && i <= |c.buckets|
    decreases |c.buckets| - i
  {
    if i == |c.buckets| then 0 else Weight(l.lanes[c.buckets[i]]) + Load(c, l, i + 1)
  }

  lemma {:induction false} LoadShrinks(c: Config, l: Loop, r: Loop, i: nat)
    requires Shaped(c, l) && Shaped(c, r) && i <= |c.buckets|
    requires forall b :: b in l.lanes ==> Weight(r.lanes[b]) <= Weight(l.lanes[b])
    ensures Load(c, r, i) <= Load(c, l, i)
    ensures (exists j :: i <= j < |c.buckets| && Weight(r.lanes[c.buckets[j]]) < Weight(l.lanes[c.buckets[j]]))
            ==> Load(c, r, i) < Load(c, l, i)
    decreases |c.buckets| - i
  {
    if i < |c.buckets| {
      LoadShrinks(c, l, r, i + 1);
    }
  }

  lemma FinishLighter(lane: Lane, outcome: Outcome)
    requires lane.active && lane.started != []
    ensures Weight(Finished(lane, outcome)) < Weight(lane)
  {
  }

  /** Every completion leaves strictly less to do, so a flush waits for finitely many of them. */
  lemma CompletionProgress(c: Config, l: Loop, b: Bucket, outcome: Outcome)
    requires LoopInv(c, l) && b in l.lanes && l.lanes[b].active
    ensures l.lanes[b].started != []
    ensures Load(c, Finish(c, l, b, outcome), 0) < Load(c, l, 0)
  {
    hide LaneOk, LoopGrows, Conserving, Finished, Home, SameRouted;
    FinishKeeps(c, l, b, outcome);
    var r := Finish(c, l, b, outcome);
    FinishLighter(l.lanes[b], outcome);
    forall x | x in l.lanes ensures Weight(r.lanes[x]) <= Weight(l.lanes[x]) {
      assert x != b ==> SameWrites(l.lanes[x], r.lanes[x]);
    }
    assert b in c.buckets;
    var j :| 0 <= j < |c.buckets| && c.buckets[j] == b;
    LoadShrinks(c, l, r, 0);
  }

  // --------------------------------------------------------------------- the end state

  /** Nothing open, queued or in flight. */
  predicate LaneIdle(lane: Lane)
  {
    lane.open.items == [] && lane.pending == [] && !lane.active
  }

  ghost predicate Drained(l: Loop)
  {
    forall b :: b in l.lanes ==> LaneIdle(l.lanes[b])
  }

  /** When the last call ended, nothing can be waiting. */
  lemma NothingWaits(c: Config, l: Loop)
    requires LoopInv(c, l) && Quiet(l) && l.inFlight == 0
    ensures Drained(l)
  {
    hide LaneOk, Home;
    assert Active(l) == {};
    forall b | b in l.lanes ensures LaneIdle(l.lanes[b]) {
      assert b !in Active(l);
      assert !Eligible(l.lanes[b]);
    }
  }

  /** In a drained writer every routed write has its answer. */
  lemma DrainedAnswered(c: Config, l: Loop, b: Bucket)
    requires LoopInv(c, l) && Drained(l) && b in l.lanes
    ensures Items(l.lanes[b].completed) == l.lanes[b].routed
  {
    hide Acknowledged, Items;
    assert LaneIdle(l.lanes[b]) && LaneOk(c.limits, l.lanes[b], false);
    assert Owed(l.lanes[b]) == [];
  }

  /** One completion of a flush that began at `l`. */
  lemma CompletionStep(c: Config, l: Loop, m: Loop, b: Bucket, outcome: Outcome)
    requires LoopInv(c, m) && Quiet(m) && b in m.lanes && m.lanes[b].active
    requires Shaped(c, l) && LoopGrows(l, m) && SameRouted(l, m)
    ensures m.lanes[b].started != []
    ensures var r := Finish(c, m, b, outcome);
      LoopInv(c, r) && Quiet(r) && LoopGrows(l, r) && SameRouted(l, r)
      && (Unfailed(l, r) <==> Unfailed(l, m) && outcome.Success?)
      && Load(c, r, 0) < Load(c, m, 0)
  {
    hide LaneOk, Home, Grows, Core, Conserving, LoopGrows, LoopCalm, SameRouted, Unfailed, Became, Quiet, Finish, Load;
    FinishKeeps(c, m, b, outcome);
    CompletionReports(c, m, b, outcome);
    CompletionProgress(c, m, b, outcome);
    assert Shaped(c, m) by { CoreShaped(c, m, {}); }
    var r := Finish(c, m, b, outcome);
    LoopGrowsTransitive(l, m, r);
    SameRoutedTransitive(l, m, r);
    assert Shaped(c, r) by { CoreShaped(c, r, {}); }
    UnfailedSplit(c, l, m, r);
    StaysQuiet(m, b, outcome, r);
  }

  lemma CoreCounts(c: Config, l: Loop)
    requires LoopInv(c, l)
    ensures l.inFlight >= 0
  {
  }

  lemma StaysQuiet(l: Loop, b: Bucket, outcome: Outcome, r: Loop)
    requires Quiet(l) && b in l.lanes && l.lanes[b].started != [] && Became(l, b, Finished(l.lanes[b], outcome), r)
    requires forall x :: x in r.lanes <==> x in l.lanes
    ensures Quiet(r)
  {
  }

  lemma SameRoutedTransitive(x: Loop, y: Loop, z: Loop)
    requires SameRouted(x, y) && SameRouted(y, z)
    ensures SameRouted(x, z)
  {
  }
}
