/**
 Reading a remote log: planning which segments form one contiguous range within the limits,
 where each lands in the output buffer, and the byte-budgeted download scheduler.
 */
module RemoteLog {

  datatype Segment = Segment(named: bool, startOffset: int, endOffset: int, sizeBytes: int)

  datatype Config = Config(maxFiles: nat, maxFileBytes: nat, maxTotalBytes: nat, maxReads: nat, maxBytes: nat)

  datatype Plan = Plan(segments: seq<Segment>, outputBytes: int) | Refused

  // ------------------------------------------------------------------------- planning

  predicate ValidSegment(c: Config, s: Segment)
  {
    s.named && 0 <= s.startOffset < s.endOffset && 0 < s.sizeBytes <= c.maxFileBytes
  }

  /** Bytes of segment `index` that are read: the first one may start inside. */
  function Retained(segments: seq<Segment>, first: nat, index: nat): int
    requires index < |segments|
  {
    segments[index].sizeBytes - (if index == 0 then first else 0)
  }

  /** The loop of the planner over sorted segments. */
  function Check(c: Config, sorted: seq<Segment>, first: nat, index: nat, previousEnd: int, output: int): Plan
    requires index <= |sorted|
    decreases |sorted| - index
  {
    if index == |sorted| then Plan(sorted, output)
    else if !ValidSegment(c, sorted[index]) then Refused
    else if previousEnd >= 0 && previousEnd != sorted[index].startOffset then Refused
    else if (if index == 0 then first else 0) > sorted[index].sizeBytes then Refused
    else if Retained(sorted, first, index) > c.maxTotalBytes - output then Refused
    else Check(c, sorted, first, index + 1, sorted[index].endOffset, output + Retained(sorted, first, index))
  }

  function PlanSorted(c: Config, sorted: seq<Segment>, first: nat): Plan
  {
    if |sorted| > c.maxFiles then Refused else Check(c, sorted, first, 0, -1, 0)
  }

  method PlanLoop(c: Config, sorted: seq<Segment>, first: nat) returns (r: Plan)
    ensures r == PlanSorted(c, sorted, first)
  {
    if |sorted| > c.maxFiles {
      return Refused;
    }
    var previousEnd, output := -1, 0;
    for index := 0 to |sorted|
      invariant Check(c, sorted, first, 0, -1, 0) == Check(c, sorted, first, index, previousEnd, output)
    {
      var segment := sorted[index];
      if !segment.named || segment.startOffset < 0 || segment.endOffset <= segment.startOffset
         || segment.sizeBytes <= 0 || segment.sizeBytes > c.maxFileBytes {
        return Refused;
      }
      if previousEnd >= 0 && previousEnd != segment.startOffset {
        return Refused;
      }
      previousEnd := segment.endOffset;
      var start := if index == 0 then first else 0;
      if start > segment.sizeBytes {
        return Refused;
      }
      var retained := segment.sizeBytes - start;
      if retained > c.maxTotalBytes - output {
        return Refused;
      }
      output := output + retained;
    }
    return Plan(sorted, output);
  }

  /** Bytes read from segment `index` on. */
  function Total(segments: seq<Segment>, first: nat, index: nat): int
    requires index <= |segments|
    decreases |segments| - index
  {
    if index == |segments| then 0 else Retained(segments, first, index) + Total(segments, first, index + 1)
  }

  /** One contiguous range of offsets, every segment within its limits and the sum within the total. */
  predicate Chain(c: Config, segments: seq<Segment>, first: nat)
  {
    |segments| <= c.maxFiles
    && (forall k :: 0 <= k < |segments| ==> ValidSegment(c, segments[k]))
    && (forall k :: 0 < k < |segments| ==> segments[k].startOffset == segments[k - 1].endOffset)
    && (|segments| > 0 ==> first <= segments[0].sizeBytes)
    && Total(segments, first, 0) <= c.maxTotalBytes
  }

  lemma {:induction false} TotalPositive(c: Config, segments: seq<Segment>, first: nat, index: nat)
    requires index <= |segments| && (forall k :: index <= k < |segments| ==> ValidSegment(c, segments[k]))
    requires index == 0 && |segments| > 0 ==> first <= segments[0].sizeBytes
    ensures Total(segments, first, index) >= 0
    decreases |segments| - index
  {
    if index < |segments| {
      TotalPositive(c, segments, first, index + 1);
    }
  }

  lemma {:induction false} CheckExact(c: Config, sorted: seq<Segment>, first: nat, index: nat, previousEnd: int, output: int)
    requires index <= |sorted| && (index == 0 <==> previousEnd < 0)
    requires index > 0 ==> previousEnd == sorted[index - 1].endOffset
    requires output <= c.maxTotalBytes
    ensures var r := Check(c, sorted, first, index, previousEnd, output);
      (r.Plan? <==>
         (forall k :: index <= k < |sorted| ==> ValidSegment(c, sorted[k]))
         && (forall k :: index <= k < |sorted| && k > 0 ==> sorted[k].startOffset == sorted[k - 1].endOffset)
         && (index == 0 && |sorted| > 0 ==> first <= sorted[0].sizeBytes)
         && output + Total(sorted, first, index) <= c.maxTotalBytes)
      && (r.Plan? ==> r == Plan(sorted, output + Total(sorted, first, index)))
    decreases |sorted| - index
  {
    if index < |sorted| {
      var s := sorted[index];
      if ValidSegment(c, s) && (previousEnd < 0 || previousEnd == s.startOffset)
         && (if index == 0 then first else 0) <= s.sizeBytes
         && Retained(sorted, first, index) <= c.maxTotalBytes - output {
        CheckExact(c, sorted, first, index + 1, s.endOffset, output + Retained(sorted, first, index));
      } else if forall k :: index <= k < |sorted| ==> ValidSegment(c, sorted[k]) {
        TotalPositive(c, sorted, first, index + 1);
      }
    }
  }

  /** A plan is made exactly for a gapless chain within the limits, and counts its bytes. */
  lemma PlanExact(c: Config, sorted: seq<Segment>, first: nat)
    ensures PlanSorted(c, sorted, first).Plan? <==> Chain(c, sorted, first)
    ensures PlanSorted(c, sorted, first).Plan? ==>
      PlanSorted(c, sorted, first) == Plan(sorted, Total(sorted, first, 0))
  {
    CheckExact(c, sorted, first, 0, -1, 0);
  }

  // ------------------------------------------------------------ independent of the order

  predicate SortedBy(segments: seq<Segment>)
  {
    forall i, j :: 0 <= i < j < |segments| ==> segments[i].startOffset <= segments[j].startOffset
  }

  lemma {:induction false} ChainIncreases(c: Config, segments: seq<Segment>, first: nat, i: nat, j: nat)
    requires Chain(c, segments, first) && i < j < |segments|
    ensures segments[i].startOffset < segments[j].startOffset
    decreases j
  {
    assert ValidSegment(c, segments[j - 1]);
    if i < j - 1 {
      ChainIncreases(c, segments, first, i, j - 1);
    }
  }

  lemma {:induction false} SameSorted(a: seq<Segment>, b: seq<Segment>)
    requires multiset(a) == multiset(b) && SortedBy(b)
    requires forall i, j :: 0 <= i < j < |a| ==> a[i].startOffset < a[j].startOffset
    ensures a == b
  {
    assert |a| == |multiset(a)| == |multiset(b)| == |b|;
    if a != [] {
      SameFirst(a, b);
      Tail(a);
      Tail(b);
      SameSorted(a[1..], b[1..]);
    }
  }

  lemma Tail(a: seq<Segment>)
    requires a != []
    ensures multiset(a[1..]) == multiset(a) - multiset{a[0]} && a == [a[0]] + a[1..]
  {
    assert a == [a[0]] + a[1..];
  }

  lemma SameFirst(a: seq<Segment>, b: seq<Segment>)
    requires a != [] && b != [] && multiset(a) == multiset(b) && SortedBy(b)
    requires forall i, j :: 0 <= i < j < |a| ==> a[i].startOffset < a[j].startOffset
    ensures a[0] == b[0]
  {
    assert a[0] in multiset(b) && b[0] in multiset(a);
    var i :| 0 <= i < |b| && b[i] == a[0];
    var j :| 0 <= j < |a| && a[j] == b[0];
  }

  /**
   However the server lists the segments and however the sort breaks ties, the plan is the same:
   two sorted orders of the same segments are both refused or give one and the same plan.
   */
  lemma PlanIgnoresOrder(c: Config, a: seq<Segment>, b: seq<Segment>, first: nat)
    requires multiset(a) == multiset(b) && SortedBy(a) && SortedBy(b)
    ensures PlanSorted(c, a, first) == PlanSorted(c, b, first)
  {
    PlanExact(c, a, first);
    PlanExact(c, b, first);
    if Chain(c, a, first) {
      forall i, j | 0 <= i < j < |a| ensures a[i].startOffset < a[j].startOffset { ChainIncreases(c, a, first, i, j); }
      SameSorted(a, b);
    } else if Chain(c, b, first) {
      forall i, j | 0 <= i < j < |b| ensures b[i].startOffset < b[j].startOffset { ChainIncreases(c, b, first, i, j); }
      SameSorted(b, a);
    }
  }

  /** Where the bytes of segment `index` land. */
  function Position(segments: seq<Segment>, first: nat, index: nat): int
    requires index <= |segments|
  {
    if index == 0 then 0 else Position(segments, first, index - 1) + Retained(segments, first, index - 1)
  }

  lemma {:induction false} PositionTotal(segments: seq<Segment>, first: nat, index: nat)
    requires index <= |segments|
    ensures Position(segments, first, index) + Total(segments, first, index) == Total(segments, first, 0)
    decreases index
  {
    if index > 0 {
      PositionTotal(segments, first, index - 1);
    }
  }

  /** The destinations tile the output: each starts where the one before ends, the last ends the buffer. */
  lemma DestinationsTile(c: Config, segments: seq<Segment>, first: nat, index: nat)
    requires Chain(c, segments, first) && index < |segments|
    ensures 0 <= Position(segments, first, index) <= Position(segments, first, index + 1) <= Total(segments, first, 0)
    ensures Position(segments, first, index + 1) - Position(segments, first, index) == Retained(segments, first, index)
    ensures Position(segments, first, 0) == 0 && Position(segments, first, |segments|) == Total(segments, first, 0)
  {
    PositionTotal(segments, first, index + 1);
    PositionTotal(segments, first, |segments|);
    TotalPositive(c, segments, first, index + 1);
    PositionsPositive(c, segments, first, index);
  }

  lemma {:induction false} PositionsPositive(c: Config, segments: seq<Segment>, first: nat, index: nat)
    requires Chain(c, segments, first) && index <= |segments|
    ensures Position(segments, first, index) >= 0
  {
    if index > 0 {
      PositionsPositive(c, segments, first, index - 1);
      assert ValidSegment(c, segments[index - 1]);
    }
  }

  // ------------------------------------------------------------------------- downloads

  function Sizes(jobs: seq<nat>, running: seq<nat>): nat
    requires forall k :: 0 <= k < |running| ==> running[k] < |jobs|
  {
    if running == [] then 0 else jobs[running[0]] + Sizes(jobs, running[1..])
  }

  lemma {:induction false} SizesConcat(jobs: seq<nat>, a: seq<nat>, b: seq<nat>)
    requires (forall k :: 0 <= k < |a| ==> a[k] < |jobs|) && (forall k :: 0 <= k < |b| ==> b[k] < |jobs|)
    ensures Sizes(jobs, a + b) == Sizes(jobs, a) + Sizes(jobs, b)
  {
    if a == [] {
      assert a + b == b;
    } else {
      assert (a + b)[0] == a[0] && (a + b)[1..] == a[1..] + b;
      SizesConcat(jobs, a[1..], b);
    }
  }

  lemma SizesWithout(jobs: seq<nat>, running: seq<nat>, w: nat)
    requires (forall k :: 0 <= k < |running| ==> running[k] < |jobs|) && w < |running|
    ensures Sizes(jobs, running[..w] + running[w + 1..]) == Sizes(jobs, running) - jobs[running[w]]
  {
    hide Sizes;
    var a, b := running[..w], running[w + 1..];
    assert running == a + ([running[w]] + b);
    SizesConcat(jobs, a, [running[w]] + b);
    SizesConcat(jobs, [running[w]], b);
    SizesConcat(jobs, a, b);
    SizesOne(jobs, running[w]);
  }

  lemma SizesOne(jobs: seq<nat>, job: nat)
    requires job < |jobs|
    ensures Sizes(jobs, [job]) == jobs[job]
  {
    assert Sizes(jobs, [job]) == jobs[job] + Sizes(jobs, []);
  }

  function UpTo(n: nat): multiset<nat>
  {
    if n == 0 then multiset{} else UpTo(n - 1) + multiset{n - 1}
  }

  /** Counts and bytes are those of the running jobs, within both budgets, and every started job is in one place. */
  ghost predicate Balanced(c: Config, jobs: seq<nat>, next: nat, running: seq<nat>, ended: seq<nat>, active: int, bytes: int)
  {
    next <= |jobs|
    && (forall k :: 0 <= k < |running| ==> running[k] < next)
    && active == |running| && active <= c.maxReads
    && bytes == Sizes(jobs, running) && bytes <= c.maxBytes
    && multiset(running) + multiset(ended) == UpTo(next)
    && (forall k :: 0 <= k < next ==> jobs[k] <= c.maxBytes)
  }

  lemma StartBalanced(c: Config, jobs: seq<nat>, next: nat, running: seq<nat>, ended: seq<nat>, active: int, bytes: int)
    requires Balanced(c, jobs, next, running, ended, active, bytes)
    requires next < |jobs| && active < c.maxReads && jobs[next] <= c.maxBytes - bytes
    ensures Balanced(c, jobs, next + 1, running + [next], ended, active + 1, bytes + jobs[next])
  {
    SizesConcat(jobs, running, [next]);
    SizesOne(jobs, next);
  }

  lemma EndBalanced(c: Config, jobs: seq<nat>, next: nat, running: seq<nat>, ended: seq<nat>, active: int, bytes: int, w: nat)
    requires Balanced(c, jobs, next, running, ended, active, bytes) && w < |running|
    ensures running[w] < |jobs|
    ensures Balanced(c, jobs, next, running[..w] + running[w + 1..], ended + [running[w]], active - 1, bytes - jobs[running[w]])
  {
    SizesWithout(jobs, running, w);
    MovedOn(running, ended, w);
  }

  /** The download scheduler; `jobs` are the sizes, `running` the jobs under way, `ended` the finished ones. */
  class Downloads {
    const c: Config
    const jobs: seq<nat>
    var next: nat
    var active: int
    var activeBytes: int
    var failed: bool
    var contextOpen: bool
    var running: seq<nat>
    var ended: seq<nat>
    var failures: nat

    ghost predicate Valid()
      reads this
    {
      Balanced(c, jobs, next, running, ended, active, activeBytes)
      && (failures > 0 || !contextOpen ==> failed)
    }

    constructor (config: Config, sizes: seq<nat>)
      ensures Valid() && c == config && jobs == sizes && next == 0 && running == [] && ended == [] && failures == 0
      ensures !failed && contextOpen
    {
      c, jobs := config, sizes;
      next, active, activeBytes, failed, contextOpen, running := 0, 0, 0, false, true, [];
      ended, failures := [], 0;
    }

    predicate CanStart()
      reads this
    {
      !failed && next < |jobs| && active < c.maxReads && jobs[next] <= c.maxBytes - activeBytes
    }

    method StartNext()
      requires Valid() && CanStart()
      modifies this
      ensures Valid() && next == old(next) + 1 && |running| == |old(running)| + 1
      ensures ended == old(ended) && failures == old(failures) && failed == old(failed) && contextOpen == old(contextOpen)
    {
      hide Balanced;
      StartBalanced(c, jobs, next, running, ended, active, activeBytes);
      active, activeBytes, running, next := active + 1, activeBytes + jobs[next], running + [next], next + 1;
    }

    /** Start jobs in order while both budgets allow the next one. */
    method StartReady()
      requires Valid()
      modifies this
      ensures Valid() && !CanStart() && old(next) <= next && ended == old(ended) && failures == old(failures)
      ensures failed == old(failed) && contextOpen == old(contextOpen)
      ensures next - old(next) == |running| - |old(running)|
    {
      hide Balanced;
      while CanStart()
        invariant Valid() && old(next) <= next && ended == old(ended) && failures == old(failures)
        invariant failed == old(failed) && contextOpen == old(contextOpen)
        invariant next - old(next) == |running| - |old(running)|
        decreases |jobs| - next
      {
        StartNext();
      }
    }

    /** A running job ended, well or badly. */
    method EndJob(w: nat, ok: bool)
      requires Valid() && w < |running|
      modifies this
      ensures Valid() && next == old(next) && contextOpen == old(contextOpen) && |running| == |old(running)| - 1
      ensures ended == old(ended) + [old(running)[w]]
      ensures failures == old(failures) + (if ok then 0 else 1) && failed == (old(failed) || !ok)
    {
      EndBalanced(c, jobs, next, running, ended, active, activeBytes, w);
      hide Balanced;
      var job := running[w];
      active, activeBytes, running, ended :=
        active - 1, activeBytes - jobs[running[w]], running[..w] + running[w + 1..], ended + [job];
      if !ok {
        failed, failures := true, failures + 1;
      }
    }

    /** Wait for any running job to end, or for the caller's context. */
    method AwaitCompletion()
      requires Valid() && active > 0
      modifies this
      ensures Valid() && next == old(next)
      ensures |running| + (if contextOpen then 1 else 0) == |old(running)| + (if old(contextOpen) then 1 else 0) - 1
      ensures failed && !old(failed) ==> failures > 0 || !contextOpen
      ensures failures >= old(failures) && (contextOpen ==> old(contextOpen))
    {
      assert |running| > 0;
      hide Balanced;
      var context: bool := *;
      if context && contextOpen {
        contextOpen, failed := false, true;
      } else {
        var w: nat :| w < |running|;
        var ok: bool := *;
        EndJob(w, ok);
      }
    }
  }

  lemma MovedOn(running: seq<nat>, ended: seq<nat>, w: nat)
    requires w < |running|
    ensures multiset(running[..w] + running[w + 1..]) + multiset(ended + [running[w]]) == multiset(running) + multiset(ended)
  {
    assert running == running[..w] + [running[w]] + running[w + 1..];
  }

  /**
   `runRemoteDownloads`. When it returns nothing runs: every job it started has ended, once. It
   fails exactly when a job failed, the context ended or some job alone is over the byte budget;
   without an error every job ran.
   */
  method RunDownloads(c: Config, sizes: seq<nat>)
    returns (failed: bool, started: nat, ended: seq<nat>, failures: nat, cancelled: bool)
    requires c.maxReads >= 1
    ensures started <= |sizes| && multiset(ended) == UpTo(started)
    ensures !failed ==> started == |sizes|
    ensures failed <==> failures > 0 || cancelled || exists k :: 0 <= k < |sizes| && sizes[k] > c.maxBytes
  {
    failed, started, ended, failures, cancelled := false, 0, [], 0, false;
    if sizes == [] {
      return;
    }
    var s := new Downloads(c, sizes);
    while s.next < |sizes| || s.active != 0
      invariant s.Valid() && fresh(s) && s.jobs == sizes && s.c == c
      invariant s.failed ==> s.failures > 0 || !s.contextOpen
      decreases 2 * (|sizes| - s.next) + |s.running| + (if s.contextOpen then 1 else 0)
    {
      s.StartReady();
      if s.active == 0 {
        assert !s.failed ==> sizes[s.next] > c.maxBytes by { assert Sizes(sizes, []) == 0; }
        return true, s.next, s.ended, s.failures, !s.contextOpen;
      }
      s.AwaitCompletion();
    }
    return s.failed, s.next, s.ended, s.failures, !s.contextOpen;
  }
}
