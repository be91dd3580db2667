/**
 A log as the scanner sees it: contiguous segments, what honest servers answer with, and how
 their arbitrarily cut and overlapping batches decode to a slice of the log.
 */
module LogScan {
  import opened Bytes
  import opened FetchDecode
  import opened ScanBounds

  type Bucket = nat

  // ------------------------------------------------------------ contiguous segments

  /** Records `from` to `to` of a log, with their offsets. */
  function Slice<R>(log: seq<R>, from: nat, to: nat): (r: seq<Delivered<R>>)
    requires from <= to <= |log|
    ensures |r| == to - from
  {
    seq(to - from, k requires 0 <= k < to - from => Delivered(from + k, log[from + k]))
  }

  lemma SliceConcat<R>(log: seq<R>, a: nat, b: nat, c: nat)
    requires a <= b <= c <= |log|
    ensures Slice(log, a, b) + Slice(log, b, c) == Slice(log, a, c)
  {
  }

  /** The segments hold the log from `from` to `to`, without gap or overlap, none empty. */
  predicate Tight<R(==)>(log: seq<R>, segments: seq<Segment<R>>, from: int, to: int)
  {
    0 <= from <= to <= |log|
    && if segments == [] then from == to
       else
         segments[0].base == from && segments[0].contents != [] && End(segments[0]) <= to
         && segments[0].contents == log[from..End(segments[0])]
         && Tight(log, segments[1..], End(segments[0]), to)
  }

  lemma RecordsAreSlice<R>(log: seq<R>, s: Segment<R>)
    requires 0 <= s.base && End(s) <= |log| && s.contents == log[s.base..End(s)]
    ensures Records(s) == Slice(log, s.base, End(s))
  {
  }

  lemma {:induction false} TightFlat<R>(log: seq<R>, segments: seq<Segment<R>>, from: int, to: int)
    requires Tight(log, segments, from, to)
    ensures Flat(segments) == Slice(log, from, to)
    decreases |segments|
  {
    hide Records, Slice;
    if segments == [] {
      FlatNothing<R>();
      assert |Slice(log, from, to)| == 0;
    } else {
      TightFlat(log, segments[1..], End(segments[0]), to);
      RecordsAreSlice(log, segments[0]);
      SliceConcat(log, from, End(segments[0]), to);
    }
  }

  lemma {:induction false} TightConcat<R>(log: seq<R>, a: seq<Segment<R>>, b: seq<Segment<R>>, from: int, mid: int, to: int)
    requires Tight(log, a, from, mid) && Tight(log, b, mid, to)
    ensures Tight(log, a + b, from, to)
    decreases |a|
  {
    if a == [] {
      assert a + b == b;
    } else {
      TightConcat(log, a[1..], b, End(a[0]), mid, to);
      assert (a + b)[0] == a[0] && (a + b)[1..] == a[1..] + b;
      TightEnds(log, a[1..], End(a[0]), mid);
    }
  }

  lemma TightEnds<R>(log: seq<R>, segments: seq<Segment<R>>, from: int, to: int)
    requires Tight(log, segments, from, to)
    ensures 0 <= from <= to <= |log|
  {
  }

  // ---------------------------------------------------------------- honest responses

  /** A batch as stored: consecutive records of the log. */
  predicate FromLog<R(==)>(log: seq<R>, s: Segment<R>)
  {
    0 <= s.base && End(s) <= |log| && s.contents == log[s.base..End(s)]
  }

  /** Batches may overlap and repeat, but none starts past what came before it. */
  predicate Gapless<R>(batches: seq<Segment<R>>, next: int)
    decreases |batches|
  {
    batches == []
    || ((|batches[0].contents| > 0 ==> batches[0].base <= next)
        && Gapless(batches[1..], if |batches[0].contents| > 0 && End(batches[0]) > next then End(batches[0]) else next))
  }

  lemma {:induction false} HonestTight<R>(decode: Decoder<R>, log: seq<R>, next: int, payloads: seq<ByteString>,
                                          batches: seq<Segment<R>>)
    requires Decodes(decode, payloads, batches) && Gapless(batches, next)
    requires (forall k :: 0 <= k < |batches| ==> FromLog(log, batches[k])) && |log| <= MAX_INT64 && 0 <= next <= |log|
    ensures DecodeAll(decode, next, payloads).Ok?
    ensures var f := DecodeAll(decode, next, payloads).value; Tight(log, f.segments, next, f.next)
    decreases |batches|
  {
    if batches != [] {
      var s := batches[0];
      assert FromLog(log, s);
      var (start, after) := BatchOffsets(s.base, |s.contents|, next).value;
      HonestTight(decode, log, after, payloads[1..], batches[1..]);
      var rest := DecodeAll(decode, after, payloads[1..]).value;
      assert Tight(log, Trim(s, start), next, after) by { TrimTight(log, s, next); }
      TightConcat(log, Trim(s, start), rest.segments, next, after, rest.next);
    }
  }

  lemma TrimTight<R>(log: seq<R>, s: Segment<R>, next: int)
    requires FromLog(log, s) && |log| <= MAX_INT64 && 0 <= next <= |log| && (|s.contents| > 0 ==> s.base <= next)
    ensures BatchOffsets(s.base, |s.contents|, next).Ok?
    ensures var (start, after) := BatchOffsets(s.base, |s.contents|, next).value; Tight(log, Trim(s, start), next, after)
  {
    hide Tight;
    var (start, after) := BatchOffsets(s.base, |s.contents|, next).value;
    if start < |s.contents| {
      var kept := Segment(s.base + start, s.contents[start..], s.arrow);
      assert kept.contents == log[next..End(kept)];
      OneTight(log, kept);
    } else {
      NoneTight(log, next);
    }
  }

  lemma OneTight<R>(log: seq<R>, s: Segment<R>)
    requires FromLog(log, s) && s.contents != []
    ensures Tight(log, [s], s.base, End(s))
  {
    assert Tight(log, [s][1..], End(s), End(s));
  }

  lemma NoneTight<R>(log: seq<R>, at: nat)
    requires at <= |log|
    ensures Tight(log, [], at, at)
  {
  }

  /** What a server may answer to a fetch at `from`: stored batches, cut at any byte. */
  ghost predicate Honest<R(!new)>(decode: Decoder<R>, log: seq<R>, from: int, bytes: ByteString)
  {
    exists payloads, batches, n :: HonestAs(decode, log, from, bytes, payloads, batches, n)
  }

  ghost predicate HonestAs<R>(decode: Decoder<R>, log: seq<R>, from: int, bytes: ByteString,
                              payloads: seq<ByteString>, batches: seq<Segment<R>>, n: nat)
  {
    n <= |Stream(payloads)| && bytes == Stream(payloads)[..n]
    && (forall p :: p in payloads ==> Framed(p)) && Decodes(decode, payloads, batches)
    && (forall k :: 0 <= k < |batches| ==> FromLog(log, batches[k])) && Gapless(batches, from)
  }

  lemma {:induction false} GaplessFront<R>(batches: seq<Segment<R>>, k: nat, next: int)
    requires k <= |batches| && Gapless(batches, next)
    ensures Gapless(batches[..k], next)
    decreases k
  {
    if k > 0 {
      assert batches[..k][0] == batches[0] && batches[..k][1..] == batches[1..][..k - 1];
      GaplessFront(batches[1..], k - 1,
        if |batches[0].contents| > 0 && End(batches[0]) > next then End(batches[0]) else next);
    }
  }

  /** Decoding an honest answer gives the log from the fetch offset on, without gap or overlap. */
  lemma HonestDecodes<R(!new)>(decode: Decoder<R>, log: seq<R>, from: int, bytes: ByteString)
    requires Honest(decode, log, from, bytes) && |log| <= MAX_INT64 && 0 <= from <= |log|
    ensures DecodeFetched(decode, from, bytes, true).Ok?
    ensures var f := DecodeFetched(decode, from, bytes, true).value; Tight(log, f.segments, from, f.next)
  {
    hide DecodeAll, DecodeFetched, Tight, Gapless, Stream, WholeWithin, Framed, FromLog;
    var payloads, batches, n :| HonestAs(decode, log, from, bytes, payloads, batches, n);
    CutStream(decode, from, payloads, n);
    var k := WholeWithin(payloads, n);
    GaplessFront(batches, k, from);
    HonestTight(decode, log, from, payloads[..k], batches[..k]);
  }

  // ----------------------------------------------------- rows and Arrow batches apart

  /** Rows are delivered one by one, Arrow batches whole. */
  function Explode<R>(segments: seq<Segment<R>>): seq<Segment<R>>
  {
    if segments == [] then []
    else (if segments[0].arrow then [segments[0]] else Singles(segments[0])) + Explode(segments[1..])
  }

  function Singles<R>(s: Segment<R>): seq<Segment<R>>
    decreases |s.contents|
  {
    if s.contents == [] then []
    else [Segment(s.base, s.contents[..1], false)] + Singles(Segment(s.base + 1, s.contents[1..], false))
  }

  lemma {:induction false} SinglesTight<R>(log: seq<R>, s: Segment<R>)
    requires FromLog(log, s)
    ensures Tight(log, Singles(s), s.base, End(s))
    decreases |s.contents|
  {
    if s.contents != [] {
      var rest := Segment(s.base + 1, s.contents[1..], false);
      assert rest.contents == log[rest.base..End(rest)];
      SinglesTight(log, rest);
      var first := Segment(s.base, s.contents[..1], false);
      assert first.contents == log[s.base..s.base + 1];
      assert Singles(s)[0] == first && Singles(s)[1..] == Singles(rest);
    }
  }

  lemma {:induction false} ExplodeTight<R>(log: seq<R>, segments: seq<Segment<R>>, from: int, to: int)
    requires Tight(log, segments, from, to)
    ensures Tight(log, Explode(segments), from, to)
    decreases |segments|
  {
    if segments != [] {
      var s := segments[0];
      ExplodeTight(log, segments[1..], End(s), to);
      SinglesTight(log, s);
      var head := if s.arrow then [s] else Singles(s);
      assert Tight(log, [s][1..], End(s), End(s));
      TightConcat(log, head, Explode(segments[1..]), from, End(s), to);
    }
  }

  lemma {:induction false} SinglesAreSingle<R>(s: Segment<R>)
    ensures forall k :: 0 <= k < |Singles(s)| ==> !Singles(s)[k].arrow && |Singles(s)[k].contents| == 1
    decreases |s.contents|
  {
    if s.contents != [] {
      SinglesAreSingle(Segment(s.base + 1, s.contents[1..], false));
    }
  }

  lemma {:induction false} ExplodedRows<R>(segments: seq<Segment<R>>)
    ensures forall k :: 0 <= k < |Explode(segments)| && !Explode(segments)[k].arrow ==> |Explode(segments)[k].contents| == 1
  {
    if segments != [] {
      ExplodedRows(segments[1..]);
      SinglesAreSingle(segments[0]);
    }
  }

  lemma {:induction false} TightShape<R>(log: seq<R>, segments: seq<Segment<R>>, from: int, to: int)
    requires Tight(log, segments, from, to)
    ensures forall k :: 0 <= k < |segments| ==> from <= segments[k].base && End(segments[k]) <= to && segments[k].contents != []
    ensures Disjoint(segments)
    decreases |segments|
  {
    if segments != [] {
      TightShape(log, segments[1..], End(segments[0]), to);
      forall k | 0 <= k < |segments|
        ensures from <= segments[k].base && End(segments[k]) <= to && segments[k].contents != []
      {
        assert k > 0 ==> segments[k] == segments[1..][k - 1];
      }
      forall i, j | 0 <= i < j < |segments| ensures End(segments[i]) <= segments[j].base {
        assert segments[j] == segments[1..][j - 1];
        assert i > 0 ==> segments[i] == segments[1..][i - 1];
      }
    }
  }

  lemma {:induction false} SplitIsShuffle<R>(segments: seq<Segment<R>>)
    ensures multiset(Rows(segments) + Arrows(segments)) == multiset(segments)
  {
    if segments != [] {
      SplitIsShuffle(segments[1..]);
      assert segments == [segments[0]] + segments[1..];
    }
  }

  lemma {:induction false} SortedUnique<R>(a: seq<Segment<R>>, b: seq<Segment<R>>)
    requires multiset(a) == multiset(b) && Sorted(b)
    requires forall i, j :: 0 <= i < j < |a| ==> a[i].base < a[j].base
    ensures a == b
  {
    if a == [] {
      assert |b| == |multiset(b)| == |multiset(a)| == 0;
    } else {
      FirstIsLeast(a, b);
      TailMultiset(a);
      TailMultiset(b);
      SortedUnique(a[1..], b[1..]);
    }
  }

  lemma TailMultiset<R>(a: seq<Segment<R>>)
    requires a != []
    ensures multiset(a[1..]) == multiset(a) - multiset{a[0]}
  {
    assert a == [a[0]] + a[1..];
  }

  lemma FirstIsLeast<R>(a: seq<Segment<R>>, b: seq<Segment<R>>)
    requires a != [] && multiset(a) == multiset(b) && Sorted(b)
    requires forall i, j :: 0 <= i < j < |a| ==> a[i].base < a[j].base
    ensures b != [] && a[0] == b[0]
  {
    assert a[0] in multiset(b);
    var i :| 0 <= i < |b| && b[i] == a[0];
    assert b[0] in multiset(a);
    var j :| 0 <= j < |a| && a[j] == b[0];
    assert b[0].base <= a[0].base;
  }

  /** Sorting the separated rows and Arrow batches restores decode order. */
  lemma OrderRestored<R>(log: seq<R>, segments: seq<Segment<R>>, from: int, to: int)
    requires Tight(log, segments, from, to)
    ensures InOrder(Rows(segments) + Arrows(segments)) == segments
  {
    TightShape(log, segments, from, to);
    SplitIsShuffle(segments);
    InOrderSorts(Rows(segments) + Arrows(segments));
    SortedUnique(segments, InOrder(Rows(segments) + Arrows(segments)));
  }
}
