/**
 One bucket's calls over an unreliable network, and the server that stores them.

 The server contract is an assumption of the model: per writer and bucket the server stores a
 batch only if it carries the next sequence number, answers DUPLICATE_SEQUENCE only for a
 sequence number it has stored, and may answer any request with an error, stored or not.
 Requests and replies may be lost, delayed and repeated: whatever was once sent can arrive any
 number of times, at any later point, or never.
 */
module WriterServer {
  import opened WriterLanes

  /** One log record: the `index`-th record of a write of ours, or somebody else's record. */
  datatype Entry = Mine(item: Item, index: nat) | Foreign

  datatype Reply = Stored(sequence: nat, base: nat) | Duplicate(sequence: nat) | Refused(sequence: nat)

  datatype Applied = Applied(call: Call, base: nat)

  /** The retry loop of the call in flight. */
  datatype Attempts = Idle | Ready(made: nat) | Waiting(made: nat) | Ended(outcome: Outcome)

  datatype Net = Net(
    attempts: Attempts,
    sent: set<Call>,
    replies: set<Reply>,
    applied: seq<Applied>,
    log: seq<Entry>)

  const NEW_NET := Net(Idle, {}, {}, [], [])

  // ----------------------------------------------------------------------- log contents

  function Expand(item: Item): (entries: seq<Entry>)
    ensures |entries| == item.records
  {
    seq(item.records, k requires 0 <= k < item.records => Mine(item, k))
  }

  function ExpandAll(items: seq<Item>): seq<Entry>
  {
    if items == [] then [] else Expand(items[0]) + ExpandAll(items[1..])
  }

  /** Our own records of a log, in log order. */
  function Own(log: seq<Entry>): seq<Entry>
  {
    if log == [] then []
    else Own(log[..|log| - 1]) + (if log[|log| - 1].Mine? then [log[|log| - 1]] else [])
  }

  function Calls(applied: seq<Applied>): (calls: seq<Call>)
    ensures |calls| == |applied|
  {
    seq(|applied|, k requires 0 <= k < |applied| => applied[k].call)
  }

  predicate StoredAt(log: seq<Entry>, base: nat, entries: seq<Entry>)
  {
    base + |entries| <= |log| && log[base..base + |entries|] == entries
  }

  // ------------------------------------------------------------------------- operations

  /** Hand the encoded batch to the network once more. */
  function Send(lane: Lane, net: Net): Net
    requires lane.started != [] && net.attempts.Ready?
  {
    net.(attempts := Waiting(net.attempts.made + 1), sent := net.sent + {lane.started[|lane.started| - 1]})
  }

  /** A request arrives at the server; `honest` is false when the server answers with an error. */
  function Deliver(net: Net, call: Call, honest: bool): Net
  {
    var sequence := call.sequence;
    if sequence == |net.applied| then
      net.(applied := net.applied + [Applied(call, |net.log|)],
           log := net.log + ExpandAll(call.batch.items),
           replies := net.replies + {if honest then Stored(sequence, |net.log|) else Refused(sequence)})
    else
      net.(replies := net.replies + {if honest && sequence < |net.applied| then Duplicate(sequence) else Refused(sequence)})
  }

  /** Somebody else writes to the same bucket. */
  function Interleave(net: Net): Net
  {
    net.(log := net.log + [Foreign])
  }

  /** What the retry loop makes of a reply, or of no reply: success, another attempt or the end. */
  function Receive(net: Net, reply: Reply, retry: bool): Net
    requires net.attempts.Waiting?
  {
    match reply
    case Stored(_, base) => net.(attempts := Ended(Success(true, base)))
    case Duplicate(_) => net.(attempts := Ended(Success(false, 0)))
    case Refused(_) => Break(net, retry)
  }

  function Break(net: Net, retry: bool): Net
    requires net.attempts.Waiting?
  {
    net.(attempts := if retry then Ready(net.attempts.made) else Ended(Failure))
  }

  /** The batch could not be encoded, or the deadline passed before an attempt. */
  function GiveUp(net: Net): Net
  {
    net.(attempts := Ended(Failure))
  }

  /** A started call begins its retry loop. */
  function Launch(lane: Lane, net: Net): Net
  {
    if lane.active && net.attempts.Idle? then net.(attempts := Ready(0)) else net
  }

  // -------------------------------------------------------------------------- invariant

  /** Only started calls were ever sent, and the server holds the first few of them, in order. */
  ghost predicate FromWriter(lane: Lane, net: Net)
  {
    (forall call :: call in net.sent ==> call.sequence < |lane.started| && lane.started[call.sequence] == call)
    && Calls(net.applied) <= lane.started
    && lane.sequence <= |net.applied|
  }

  /** Every reply and every acknowledgement tells the truth about the log. */
  ghost predicate Truthful(lane: Lane, net: Net)
  {
    (forall s: nat, base: nat :: Stored(s, base) in net.replies ==> s < |net.applied| && net.applied[s].base == base)
    && (forall s: nat :: Duplicate(s) in net.replies ==> s < |net.applied|)
    && |lane.acks| <= |net.applied|
    && (forall k :: 0 <= k < |lane.acks| && lane.acks[k].known ==> lane.acks[k].base == net.applied[k].base)
  }

  /** The log holds the applied batches, each whole at its base, and nothing else of ours. */
  ghost predicate LogHolds(net: Net)
  {
    Own(net.log) == ExpandAll(Flatten(Batches(Calls(net.applied))))
    && forall k :: 0 <= k < |net.applied| ==>
         StoredAt(net.log, net.applied[k].base, ExpandAll(net.applied[k].call.batch.items))
  }

  predicate Awaited(lane: Lane, net: Net, maxAttempts: nat)
  {
    (lane.active <==> !net.attempts.Idle?)
    && (net.attempts.Ready? ==> net.attempts.made < maxAttempts)
    && (net.attempts.Waiting? ==> 1 <= net.attempts.made <= maxAttempts)
    && (net.attempts.Ended? && net.attempts.outcome.Success? ==>
          lane.sequence < |net.applied|
          && (net.attempts.outcome.known ==> net.applied[lane.sequence].base == net.attempts.outcome.base))
  }

  ghost predicate Linked(lane: Lane, net: Net, maxAttempts: nat)
  {
    FromWriter(lane, net) && Truthful(lane, net) && LogHolds(net) && Awaited(lane, net, maxAttempts)
  }

  lemma NewLinked(maxAttempts: nat)
    ensures Linked(NEW_LANE, NEW_NET, maxAttempts)
  {
    assert Calls([]) == [] && Batches([]) == [];
  }

  // ---------------------------------------------------------------------- log lemmas

  lemma {:induction false} ExpandAllConcat(a: seq<Item>, b: seq<Item>)
    ensures ExpandAll(a + b) == ExpandAll(a) + ExpandAll(b)
  {
    hide Expand;
    if a == [] {
      assert a + b == b;
    } else {
      ExpandAllConcat(a[1..], b);
      assert (a + b)[0] == a[0] && (a + b)[1..] == a[1..] + b;
      assert Expand(a[0]) + (ExpandAll(a[1..]) + ExpandAll(b)) == Expand(a[0]) + ExpandAll(a[1..]) + ExpandAll(b);
    }
  }

  lemma {:induction false} OwnConcat(a: seq<Entry>, b: seq<Entry>)
    ensures Own(a + b) == Own(a) + Own(b)
  {
    if b == [] {
      assert a + b == a;
    } else {
      var last := |b| - 1;
      OwnConcat(a, b[..last]);
      assert (a + b)[..|a + b| - 1] == a + b[..last] && (a + b)[|a + b| - 1] == b[last];
    }
  }

  lemma {:induction false} OwnAll(log: seq<Entry>)
    requires forall k :: 0 <= k < |log| ==> log[k].Mine?
    ensures Own(log) == log
  {
    if log != [] {
      OwnAll(log[..|log| - 1]);
    }
  }

  lemma {:induction false} ExpandAllMine(items: seq<Item>)
    ensures forall k :: 0 <= k < |ExpandAll(items)| ==> ExpandAll(items)[k].Mine?
  {
    if items != [] {
      ExpandAllMine(items[1..]);
    }
  }

  lemma StoredStays(log: seq<Entry>, more: seq<Entry>, base: nat, entries: seq<Entry>)
    requires StoredAt(log, base, entries)
    ensures StoredAt(log + more, base, entries)
  {
    assert (log + more)[base..base + |entries|] == log[base..base + |entries|];
  }

  lemma AppendHolds(net: Net, call: Call)
    requires LogHolds(net) && call.sequence == |net.applied|
    ensures LogHolds(Deliver(net, call, true)) && LogHolds(Deliver(net, call, false))
  {
    hide Own, ExpandAll, StoredAt, Flatten;
    var entries := ExpandAll(call.batch.items);
    var applied := net.applied + [Applied(call, |net.log|)];
    OwnConcat(net.log, entries);
    ExpandAllMine(call.batch.items);
    OwnAll(entries);
    assert Batches(Calls(applied)) == Batches(Calls(net.applied)) + [call.batch];
    FlattenConcat(Batches(Calls(net.applied)), [call.batch]);
    FlattenOne(call.batch);
    ExpandAllConcat(Flatten(Batches(Calls(net.applied))), call.batch.items);
    forall k | 0 <= k < |applied|
      ensures StoredAt(net.log + entries, applied[k].base, ExpandAll(applied[k].call.batch.items))
    {
      if k < |net.applied| {
        StoredStays(net.log, entries, applied[k].base, ExpandAll(applied[k].call.batch.items));
      } else {
        JustStored(net.log, entries);
      }
    }
  }

  lemma JustStored(log: seq<Entry>, entries: seq<Entry>)
    ensures StoredAt(log + entries, |log|, entries)
  {
  }

  // ------------------------------------------------------------------ steps keep the link

  lemma SendKeeps(lane: Lane, net: Net, maxAttempts: nat)
    requires LaneInv(lane) && Linked(lane, net, maxAttempts) && net.attempts.Ready?
    ensures lane.started != [] && Linked(lane, Send(lane, net), maxAttempts)
  {
    hide Accounted, LogHolds;
    assert LogHolds(Send(lane, net)) by { SameLog(net, Send(lane, net)); }
  }

  lemma DeliverKeeps(lane: Lane, net: Net, maxAttempts: nat, call: Call, honest: bool)
    requires Linked(lane, net, maxAttempts) && call in net.sent
    ensures Linked(lane, Deliver(net, call, honest), maxAttempts)
  {
    hide LogHolds, ExpandAll;
    var after := Deliver(net, call, honest);
    if call.sequence == |net.applied| {
      AppendHolds(net, call);
      assert Calls(after.applied) == Calls(net.applied) + [call];
    } else {
      assert LogHolds(after) by { SameLog(net, after); }
    }
  }

  lemma SameLog(net: Net, after: Net)
    requires LogHolds(net) && after.log == net.log && after.applied == net.applied
    ensures LogHolds(after)
  {
  }

  lemma InterleaveKeeps(lane: Lane, net: Net, maxAttempts: nat)
    requires Linked(lane, net, maxAttempts)
    ensures Linked(lane, Interleave(net), maxAttempts)
  {
    hide ExpandAll, Flatten, StoredAt, Own;
    assert Own(Interleave(net).log) == Own(net.log) by { OwnConcat(net.log, [Foreign]); ForeignIsNotOurs(); }
    forall k | 0 <= k < |net.applied|
      ensures StoredAt(net.log + [Foreign], net.applied[k].base, ExpandAll(net.applied[k].call.batch.items))
    {
      StoredStays(net.log, [Foreign], net.applied[k].base, ExpandAll(net.applied[k].call.batch.items));
    }
  }

  lemma ForeignIsNotOurs()
    ensures Own([Foreign]) == []
  {
    assert [Foreign][..0] == [];
  }

  lemma ReceiveKeeps(lane: Lane, net: Net, maxAttempts: nat, reply: Reply, retry: bool)
    requires Linked(lane, net, maxAttempts) && net.attempts.Waiting?
    requires reply in net.replies && reply.sequence == lane.sequence
    requires retry ==> net.attempts.made < maxAttempts
    ensures Linked(lane, Receive(net, reply, retry), maxAttempts)
  {
    hide LogHolds;
    assert LogHolds(Receive(net, reply, retry)) by { SameLog(net, Receive(net, reply, retry)); }
  }

  lemma BreakKeeps(lane: Lane, net: Net, maxAttempts: nat, retry: bool)
    requires Linked(lane, net, maxAttempts) && lane.active
    ensures net.attempts.Waiting? && (retry ==> net.attempts.made < maxAttempts) ==>
      Linked(lane, Break(net, retry), maxAttempts)
    ensures Linked(lane, GiveUp(net), maxAttempts)
  {
    hide LogHolds;
    assert LogHolds(GiveUp(net)) by { SameLog(net, GiveUp(net)); }
    if net.attempts.Waiting? {
      assert LogHolds(Break(net, retry)) by { SameLog(net, Break(net, retry)); }
    }
  }

  /** Scheduling that ends no call keeps the link, and launches what it started. */
  lemma LaunchKeeps(lane: Lane, after: Lane, net: Net, maxAttempts: nat)
    requires Linked(lane, net, maxAttempts) && maxAttempts >= 1
    requires lane.started <= after.started && after.acks == lane.acks && after.sequence == lane.sequence
    requires lane.active ==> after.active
    ensures Linked(after, Launch(after, net), maxAttempts)
  {
    hide LogHolds;
    assert LogHolds(Launch(after, net)) by { SameLog(net, Launch(after, net)); }
  }

  /** The end of a call hands its outcome to the lane. */
  lemma FinishLinked(lane: Lane, net: Net, maxAttempts: nat)
    requires LaneInv(lane) && Linked(lane, net, maxAttempts) && net.attempts.Ended?
    ensures lane.started != []
    ensures var done := net.attempts.outcome;
      var after := if done.Success? then Succeed(lane, Ack(done.known, done.base)) else Fail(lane);
      Linked(after, net.(attempts := Idle), maxAttempts)
  {
    hide LogHolds, Accounted;
    assert LogHolds(net.(attempts := Idle)) by { SameLog(net, net.(attempts := Idle)); }
  }

  // ----------------------------------------------------------------------- consequences

  /** The started calls hold a prefix of what was routed. */
  lemma StartedRouted(lane: Lane)
    requires LaneInv(lane)
    ensures Flatten(Batches(lane.started)) <= lane.routed
  {
    hide Flatten, Acknowledged, Items;
    if lane.active {
      StartedItems(lane);
      var done, flight := Items(lane.completed), Flight(lane).items;
      assert lane.routed == done + flight + (Flatten(lane.pending) + lane.open.items);
    } else if !lane.poisoned {
      AcknowledgedItems(lane.started, lane.acks, lane.sequence);
      assert lane.started[..lane.sequence] == lane.started;
    }
  }

  lemma {:induction false} FlattenPrefix(a: seq<Batch>, b: seq<Batch>)
    requires a <= b
    ensures Flatten(a) <= Flatten(b)
  {
    FlattenConcat(a, b[|a|..]);
    assert a + b[|a|..] == b;
  }

  /**
   The server's log holds, of ours, exactly the first `n` writes routed to this bucket, each
   once and in the order they were accepted, and at least those acknowledged as success.
   */
  lemma StoredOnceInOrder(lane: Lane, net: Net, maxAttempts: nat) returns (n: nat)
    requires LaneInv(lane) && Linked(lane, net, maxAttempts)
    ensures n <= |lane.routed| && Own(net.log) == ExpandAll(lane.routed[..n])
    ensures |Acknowledged(lane.started, lane.acks, lane.sequence)| <= n
  {
    hide Flatten, Acknowledged, Items, Own, ExpandAll;
    var stored := Flatten(Batches(Calls(net.applied)));
    n := |stored|;
    StartedRouted(lane);
    assert Batches(Calls(net.applied)) <= Batches(lane.started);
    FlattenPrefix(Batches(Calls(net.applied)), Batches(lane.started));
    assert lane.routed[..n] == stored;
    AcknowledgedItems(lane.started, lane.acks, lane.sequence);
    assert Batches(lane.started[..lane.sequence]) <= Batches(Calls(net.applied));
    FlattenPrefix(Batches(lane.started[..lane.sequence]), Batches(Calls(net.applied)));
  }

  /** The k-th acknowledged write of a batch sits at the batch's base plus the records before it. */
  lemma {:induction false} SuccessOffset(items: seq<Item>, ack: Ack, log: seq<Entry>, k: nat)
    requires k < |items| && ack.known && StoredAt(log, ack.base, ExpandAll(items))
    ensures Successes(items, ack)[k].outcome.Success?
    ensures StoredAt(log, Successes(items, ack)[k].outcome.base, Expand(items[k]))
    decreases k
  {
    hide Expand;
    var next := Ack(true, ack.base + items[0].records);
    var head, tail := Expand(items[0]), ExpandAll(items[1..]);
    assert ExpandAll(items) == head + tail;
    assert StoredAt(log, ack.base, head) && StoredAt(log, next.base, tail) by { StoredParts(log, ack.base, head, tail); }
    if k > 0 {
      SuccessOffset(items[1..], next, log, k - 1);
      assert Successes(items, ack)[k] == Successes(items[1..], next)[k - 1];
    }
  }

  lemma StoredParts(log: seq<Entry>, base: nat, head: seq<Entry>, tail: seq<Entry>)
    requires StoredAt(log, base, head + tail)
    ensures StoredAt(log, base, head) && StoredAt(log, base + |head|, tail)
  {
    var all := head + tail;
    assert log[base..base + |head|] == all[..|head|] == head;
    assert log[base + |head|..base + |all|] == all[|head|..] == tail;
  }

  lemma {:induction false} AcknowledgedOffsets(lane: Lane, net: Net, n: nat, k: nat)
    requires Truthful(lane, net) && LogHolds(net) && FromWriter(lane, net)
    requires n <= |lane.acks| && n <= |lane.started| && n <= |net.applied|
    requires k < |Acknowledged(lane.started, lane.acks, n)|
    ensures var done := Acknowledged(lane.started, lane.acks, n)[k];
      done.outcome.Success? && (done.outcome.known ==> StoredAt(net.log, done.outcome.base, Expand(done.item)))
    decreases n
  {
    hide Own, Expand, StoredAt, ExpandAll, Flatten;
    var before := Acknowledged(lane.started, lane.acks, n - 1);
    if k < |before| {
      AcknowledgedOffsets(lane, net, n - 1, k);
    } else {
      var items, ack := lane.started[n - 1].batch.items, lane.acks[n - 1];
      var done := Successes(items, ack);
      assert Items(done)[k - |before|] == items[k - |before|];
      assert Calls(net.applied)[n - 1] == lane.started[n - 1];
      if ack.known {
        SuccessOffset(items, ack, net.log, k - |before|);
      } else {
        UnknownStays(items, ack, k - |before|);
      }
    }
  }

  lemma {:induction false} UnknownStays(items: seq<Item>, ack: Ack, k: nat)
    requires k < |items| && !ack.known
    ensures Successes(items, ack)[k].outcome.Success? && !Successes(items, ack)[k].outcome.known
    decreases k
  {
    if k > 0 {
      UnknownStays(items[1..], ack, k - 1);
      assert Successes(items, ack)[k] == Successes(items[1..], ack)[k - 1];
    }
  }

  /** A write reported at a known offset is in the log, whole, at that offset. */
  lemma ReportedOffsets(lane: Lane, net: Net, maxAttempts: nat, k: nat)
    requires LaneInv(lane) && Linked(lane, net, maxAttempts) && k < |lane.completed|
    requires lane.completed[k].outcome.Success? && lane.completed[k].outcome.known
    ensures StoredAt(net.log, lane.completed[k].outcome.base, Expand(lane.completed[k].item))
  {
    hide Own, Expand, StoredAt, ExpandAll, Flatten, Acknowledged, Items;
    var acked := Acknowledged(lane.started, lane.acks, lane.sequence);
    assert k < |acked| && acked[k] == lane.completed[k];
    AcknowledgedOffsets(lane, net, lane.sequence, k);
  }
}
