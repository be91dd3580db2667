/**
 Putting a remote log together: every segment's download writes its part of one buffer, in
 whatever order the downloads end, and the buffer then is the segments' bytes one after the
 other from the first position on.
 */
module RemoteAssembly {
  import opened RemoteLog

  type Octet = nat

  function Concat(objects: seq<seq<Octet>>): seq<Octet>
  {
    if objects == [] then [] else objects[0] + Concat(objects[1..])
  }

  /** Every object is as long as its segment says. */
  ghost predicate Stored(segments: seq<Segment>, objects: seq<seq<Octet>>)
  {
    |objects| == |segments| && forall k :: 0 <= k < |segments| ==> |objects[k]| == segments[k].sizeBytes
  }

  /** What a download asks for and gets: the object from the start position, which only the first one has, on. */
  function Part(objects: seq<seq<Octet>>, first: nat, k: nat): seq<Octet>
    requires k < |objects| && (k == 0 ==> first <= |objects[0]|)
  {
    if k == 0 then objects[0][first..] else objects[k]
  }

  /** The objects' bytes before object `k`. */
  function Before(objects: seq<seq<Octet>>, k: nat): nat
    requires k <= |objects|
  {
    if k == 0 then 0 else Before(objects, k - 1) + |objects[k - 1]|
  }

  lemma {:induction false} BeforeTail(objects: seq<seq<Octet>>, k: nat)
    requires 1 <= k <= |objects|
    ensures Before(objects, k) == |objects[0]| + Before(objects[1..], k - 1)
    decreases k
  {
    if k > 1 {
      BeforeTail(objects, k - 1);
    }
  }

  /** Object `k` stands in the concatenation where the ones before it end. */
  lemma {:induction false} ObjectAt(objects: seq<seq<Octet>>, k: nat)
    requires k < |objects|
    ensures Before(objects, k) + |objects[k]| <= |Concat(objects)|
    ensures Concat(objects)[Before(objects, k)..][..|objects[k]|] == objects[k]
    decreases k
  {
    if k > 0 {
      var rest := objects[1..];
      ObjectAt(rest, k - 1);
      BeforeTail(objects, k);
      var at := Before(rest, k - 1);
      assert Concat(objects)[|objects[0]| + at..] == Concat(rest)[at..];
    }
  }

  lemma {:induction false} WholeLength(objects: seq<seq<Octet>>)
    ensures |Concat(objects)| == Before(objects, |objects|)
  {
    if objects != [] {
      WholeLength(objects[1..]);
      BeforeTail(objects, |objects|);
    }
  }

  /** Positions in the buffer are positions in the concatenation, less the skipped bytes. */
  lemma {:induction false} PositionIs(segments: seq<Segment>, objects: seq<seq<Octet>>, first: nat, k: nat)
    requires Stored(segments, objects) && k <= |segments|
    ensures Position(segments, first, k) == if k == 0 then 0 else Before(objects, k) - first
    decreases k
  {
    if k > 0 {
      PositionIs(segments, objects, first, k - 1);
    }
  }

  /** The plan's size is that of the objects without the skipped bytes, and the limit is on that. */
  lemma PlanCounts(c: Config, segments: seq<Segment>, objects: seq<seq<Octet>>, first: nat)
    requires Stored(segments, objects) && segments != [] && PlanSorted(c, segments, first).Plan?
    ensures PlanSorted(c, segments, first) == Plan(segments, |Concat(objects)| - first)
    ensures first <= |objects[0]| <= |Concat(objects)| && |Concat(objects)| - first <= c.maxTotalBytes
  {
    ObjectAt(objects, 0);
    PlanExact(c, segments, first);
    PositionTotal(segments, first, |segments|);
    PositionIs(segments, objects, first, |segments|);
    WholeLength(objects);
  }

  /** The part of object `k` is what belongs at its position. */
  lemma PartBelongs(c: Config, segments: seq<Segment>, objects: seq<seq<Octet>>, first: nat, k: nat)
    requires Chain(c, segments, first) && Stored(segments, objects) && k < |segments|
    ensures var p, part := Position(segments, first, k), Part(objects, first, k);
      0 <= p && p + |part| == Position(segments, first, k + 1) && first + p + |part| <= |Concat(objects)|
      && Concat(objects)[first + p..first + p + |part|] == part
  {
    hide Concat;
    PositionIs(segments, objects, first, k);
    PositionIs(segments, objects, first, k + 1);
    PositionsPositive(c, segments, first, k);
    ObjectAt(objects, k);
    var all, at := Concat(objects), Before(objects, k);
    assert all[at..][..|objects[k]|] == all[at..at + |objects[k]|];
    if k == 0 {
      assert all[first..|objects[0]|] == all[0..|objects[0]|][first..];
    }
  }

  /** Every byte of the buffer is in some part. */
  lemma {:induction false} SomePart(segments: seq<Segment>, first: nat, n: nat, i: nat) returns (k: nat)
    requires n <= |segments| && 0 <= i < Position(segments, first, n)
    ensures k < n && Position(segments, first, k) <= i < Position(segments, first, k + 1)
    decreases n
  {
    if i >= Position(segments, first, n - 1) {
      k := n - 1;
    } else {
      k := SomePart(segments, first, n - 1, i);
    }
  }

  lemma AllInUpTo(order: seq<nat>, n: nat, k: nat)
    requires multiset(order) == UpTo(n)
    ensures k in order <==> k < n
  {
    InUpTo(n, k);
    assert k in order <==> k in multiset(order);
  }

  lemma {:induction false} InUpTo(n: nat, k: nat)
    ensures k in UpTo(n) <==> k < n
  {
    if n > 0 {
      InUpTo(n - 1, k);
    }
  }

  /** Write `part` at `at`. */
  method Fill(buffer: array<Octet>, at: nat, part: seq<Octet>)
    requires at + |part| <= buffer.Length
    modifies buffer
    ensures buffer[..] == old(buffer[..at]) + part + old(buffer[at + |part|..])
  {
    for i := 0 to |part|
      invariant buffer[..at] == old(buffer[..at]) && buffer[at..at + i] == part[..i]
      invariant buffer[at + i..] == old(buffer[at + i..])
    {
      buffer[at + i] := part[i];
    }
    assert buffer[..] == buffer[..at] + buffer[at..at + |part|] + buffer[at + |part|..];
    assert part[..|part|] == part;
  }

  ghost predicate Inside(segments: seq<Segment>, first: nat, k: nat, i: int)
    requires k < |segments|
  {
    Position(segments, first, k) <= i < Position(segments, first, k + 1)
  }

  /** The buffer holds the right bytes wherever a finished download has written. */
  ghost predicate Holds(segments: seq<Segment>, first: nat, buffer: seq<Octet>, goal: seq<Octet>, done: seq<nat>)
  {
    |buffer| == |goal|
    && forall k, i :: k in done && k < |segments| && Inside(segments, first, k, i) && 0 <= i < |goal| ==>
         buffer[i] == goal[i]
  }

  lemma FilledHolds(c: Config, segments: seq<Segment>, objects: seq<seq<Octet>>, first: nat, before: seq<Octet>,
                    after: seq<Octet>, goal: seq<Octet>, done: seq<nat>, k: nat)
    requires Chain(c, segments, first) && Stored(segments, objects) && k < |segments|
    requires first <= |Concat(objects)| && goal == Concat(objects)[first..] && Holds(segments, first, before, goal, done)
    requires Position(segments, first, k) >= 0 && Position(segments, first, k) + |Part(objects, first, k)| <= |before|
    requires var p, part := Position(segments, first, k), Part(objects, first, k);
      after == before[..p] + part + before[p + |part|..]
    ensures Holds(segments, first, after, goal, done + [k])
  {
    hide Concat, Position;
    PartBelongs(c, segments, objects, first, k);
    var p, part := Position(segments, first, k), Part(objects, first, k);
    forall i | 0 <= i < |goal| ensures after[i] == if p <= i < p + |part| then goal[i] else before[i] {
      if p <= i < p + |part| {
        assert Concat(objects)[first + p..first + p + |part|][i - p] == Concat(objects)[first + i];
      }
    }
  }

  /**
   The buffer of `downloadRemoteLogSegments` after downloads that ended in the order `ended`,
   each of them once, as `RunDownloads` returns them: the objects' bytes, in segment order,
   without the first ones skipped.
   */
  method Assemble(c: Config, segments: seq<Segment>, first: nat, objects: seq<seq<Octet>>, ended: seq<nat>)
    returns (buffer: array<Octet>)
    requires Chain(c, segments, first) && Stored(segments, objects) && segments != []
    requires multiset(ended) == UpTo(|segments|)
    ensures first <= |Concat(objects)| && buffer[..] == Concat(objects)[first..]
  {
    hide Concat, Position, Total;
    PlanExact(c, segments, first);
    PlanCounts(c, segments, objects, first);
    PositionTotal(segments, first, |segments|);
    assert Total(segments, first, 0) == |Concat(objects)| - first;
    var size := Total(segments, first, 0);
    buffer := new Octet[size](_ => 0);
    ghost var goal := Concat(objects)[first..];
    for n := 0 to |ended|
      invariant Holds(segments, first, buffer[..], goal, ended[..n]) && fresh(buffer) && buffer.Length == size
    {
      var k := ended[n];
      AllInUpTo(ended, |segments|, k);
      PartBelongs(c, segments, objects, first, k);
      ghost var before := buffer[..];
      Fill(buffer, Position(segments, first, k), Part(objects, first, k));
      FilledHolds(c, segments, objects, first, before, buffer[..], goal, ended[..n], k);
      assert ended[..n + 1] == ended[..n] + [k];
    }
    assert ended[..|ended|] == ended;
    forall i | 0 <= i < size ensures buffer[i] == goal[i] {
      EndsAtTotal(segments, first);
      var k := SomePart(segments, first, |segments|, i);
      assert Inside(segments, first, k, i);
      AllInUpTo(ended, |segments|, k);
    }
  }

  lemma EndsAtTotal(segments: seq<Segment>, first: nat)
    ensures Position(segments, first, |segments|) == Total(segments, first, 0)
  {
    PositionTotal(segments, first, |segments|);
  }
}
