/**
 Row limits and stopping offsets of a scan: decoded rows and Arrow batches are put in offset
 order and the front of them, up to the bounds, is returned. Arrow batches are owned: each
 one is handed on or released.
 */
module ScanBounds {
  import opened Bytes
  import opened FetchDecode

  // --------------------------------------------------------- segments in offset order

  /** Stable insertion by base offset: `s` goes before later segments of the same offset. */
  function Insert<R>(s: Segment<R>, sorted: seq<Segment<R>>): (r: seq<Segment<R>>)
    ensures multiset(r) == multiset(sorted) + multiset{s}
  {
    if sorted == [] || s.base <= sorted[0].base then [s] + sorted
    else
      assert sorted == [sorted[0]] + sorted[1..];
      [sorted[0]] + Insert(s, sorted[1..])
  }

  /** `orderedScanSegments`: a stable sort by base offset. */
  function InOrder<R>(segments: seq<Segment<R>>): (r: seq<Segment<R>>)
    ensures multiset(r) == multiset(segments)
  {
    if segments == [] then []
    else
      assert segments == [segments[0]] + segments[1..];
      Insert(segments[0], InOrder(segments[1..]))
  }

  predicate Sorted<R>(segments: seq<Segment<R>>)
  {
    forall i, j :: 0 <= i < j < |segments| ==> segments[i].base <= segments[j].base
  }

  lemma {:induction false} InsertSorts<R>(s: Segment<R>, sorted: seq<Segment<R>>)
    requires Sorted(sorted)
    ensures Sorted(Insert(s, sorted))
  {
    if sorted != [] && s.base > sorted[0].base {
      InsertSorts(s, sorted[1..]);
      var r := Insert(s, sorted[1..]);
      forall j | 0 <= j < |r| ensures sorted[0].base <= r[j].base {
        assert r[j] in multiset(r);
        assert r[j] == s || r[j] in multiset(sorted[1..]);
      }
    }
  }

  lemma {:induction false} InOrderSorts<R>(segments: seq<Segment<R>>)
    ensures Sorted(InOrder(segments))
  {
    if segments != [] {
      InOrderSorts(segments[1..]);
      InsertSorts(segments[0], InOrder(segments[1..]));
    }
  }

  function Having<R>(segments: seq<Segment<R>>, base: int): seq<Segment<R>>
  {
    if segments == [] then []
    else (if segments[0].base == base then [segments[0]] else []) + Having(segments[1..], base)
  }

  lemma {:induction false} InsertStable<R>(s: Segment<R>, sorted: seq<Segment<R>>, base: int)
    ensures Having(Insert(s, sorted), base) == (if s.base == base then [s] else []) + Having(sorted, base)
  {
    if sorted != [] && s.base > sorted[0].base {
      InsertStable(s, sorted[1..], base);
      var r := Insert(s, sorted);
      assert r[0] == sorted[0] && r[1..] == Insert(s, sorted[1..]);
      if s.base == base {
        assert Having(r, base) == Having(r[1..], base) && Having(sorted, base) == Having(sorted[1..], base);
      } else {
        assert [] + Having(sorted, base) == Having(sorted, base);
      }
    } else {
      assert ([s] + sorted)[1..] == sorted;
    }
  }

  /** Segments of equal offset keep their order: rows before Arrow batches, each in decode order. */
  lemma {:induction false} InOrderStable<R>(segments: seq<Segment<R>>, base: int)
    ensures Having(InOrder(segments), base) == Having(segments, base)
  {
    if segments != [] {
      InOrderStable(segments[1..], base);
      InsertStable(segments[0], InOrder(segments[1..]), base);
    }
  }

  // ------------------------------------------------------------------------- bounding

  /** `stop - base` in 64-bit arithmetic. */
  function Distance(stop: int, base: int): int
  {
    Signed(stop - base, TWO_64)
  }

  function Min(a: int, b: int): int
  {
    if a < b then a else b
  }

  /** `kept` and `released` in processing order; `whole` are the Arrow batches handed on unsliced. */
  datatype Bounded<+R> = Bounded(
    remaining: int,
    delivered: int,
    next: int,
    kept: seq<Segment<R>>,
    whole: seq<Segment<R>>,
    released: seq<Segment<R>>)

  /** How many of a segment's records fit. */
  function Allowed<R>(stop: int, remaining: int, s: Segment<R>): int
  {
    if !s.arrow then (if remaining <= 0 || s.base >= stop then 0 else |s.contents|)
    else Min(Min(|s.contents|, Distance(stop, s.base)), remaining)
  }

  function Bound<R>(stop: int, b: Bounded<R>, s: Segment<R>): Bounded<R>
  {
    var allowed := Allowed(stop, b.remaining, s);
    if allowed <= 0 then (if s.arrow then b.(released := b.released + [s]) else b)
    else
      var more := b.(remaining := b.remaining - allowed, delivered := b.delivered + allowed, next := s.base + allowed);
      if !s.arrow then more.(kept := b.kept + [s])
      else if allowed >= |s.contents| then more.(kept := b.kept + [s], whole := b.whole + [s])
      else more.(kept := b.kept + [Segment(s.base, s.contents[..allowed], true)], released := b.released + [s])
  }

  function BoundAll<R>(stop: int, b: Bounded<R>, segments: seq<Segment<R>>): Bounded<R>
    decreases |segments|
  {
    if segments == [] then b else BoundAll(stop, Bound(stop, b, segments[0]), segments[1..])
  }

  function Start<R>(remaining: int, next: int): Bounded<R>
  {
    Bounded(remaining, 0, next, [], [], [])
  }

  /** One record per row segment, no empty row, offsets from zero on and clear of the 64-bit end. */
  predicate Proper<R>(segments: seq<Segment<R>>)
  {
    forall k :: 0 <= k < |segments| ==>
      0 <= segments[k].base && End(segments[k]) <= MAX_INT64 && (!segments[k].arrow ==> |segments[k].contents| == 1)
  }

  predicate Disjoint<R>(segments: seq<Segment<R>>)
  {
    forall i, j :: 0 <= i < j < |segments| ==> End(segments[i]) <= segments[j].base
  }

  lemma DistanceExact(stop: int, base: int)
    requires 0 <= base <= MAX_INT64 && -TWO_63 <= stop <= MAX_INT64 && stop >= 0
    ensures Distance(stop, base) == stop - base
  {
    SignedUnsigned(stop - base, TWO_64);
    SignedOfMod(stop - base, TWO_64);
  }

  /** The longest front of `flat` below the stop and no longer than `remaining`. */
  ghost predicate LongestFront<R>(flat: seq<Delivered<R>>, stop: int, remaining: int, m: int)
  {
    0 <= m <= |flat| && (m > 0 ==> m <= remaining)
    && (forall i :: 0 <= i < m ==> flat[i].offset < stop)
    && (m == |flat| || m >= remaining || flat[m].offset >= stop)
  }

  lemma BoundOne<R>(stop: int, b: Bounded<R>, s: Segment<R>)
    requires 0 <= stop <= MAX_INT64 && Proper([s])
    ensures var r := Bound(stop, b, s); var m := if Allowed(stop, b.remaining, s) <= 0 then 0 else Allowed(stop, b.remaining, s);
      LongestFront(Records(s), stop, b.remaining, m)
      && Flat(r.kept) == Flat(b.kept) + Records(s)[..m]
      && r.remaining == b.remaining - m && r.delivered == b.delivered + m
      && r.next == (if m == 0 then b.next else s.base + m)
  {
    assert Proper([s]) && [s][0] == s;
    DistanceExact(stop, s.base);
    var r := Bound(stop, b, s);
    var m := if Allowed(stop, b.remaining, s) <= 0 then 0 else Allowed(stop, b.remaining, s);
    assert r.kept == b.kept + r.kept[|b.kept|..];
    FlatConcat(b.kept, r.kept[|b.kept|..]);
    if m == 0 {
      assert r.kept[|b.kept|..] == [];
    } else {
      var kept := Segment(s.base, s.contents[..m], s.arrow);
      assert s.contents[..|s.contents|] == s.contents;
      assert r.kept[|b.kept|..] == [kept];
      assert Flat([kept]) == Records(kept) + Flat([][..]);
      assert Records(kept) == Records(s)[..m];
    }
  }

  /** Every record of later disjoint segments is past the end of an earlier one. */
  lemma {:induction false} FlatAfter<R>(segments: seq<Segment<R>>, from: int)
    requires forall k :: 0 <= k < |segments| ==> from <= segments[k].base
    ensures forall i :: 0 <= i < |Flat(segments)| ==> from <= Flat(segments)[i].offset
  {
    if segments != [] {
      FlatAfter(segments[1..], from);
    }
  }

  /**
   The returned records are the longest front of the records in offset order that stays below
   the stop and within the row limit; `next` is just past them.
   */
  lemma {:induction false} BoundsExact<R>(stop: int, b: Bounded<R>, segments: seq<Segment<R>>) returns (m: nat)
    requires 0 <= stop <= MAX_INT64 && Proper(segments) && Disjoint(segments)
    ensures LongestFront(Flat(segments), stop, b.remaining, m)
    ensures var r := BoundAll(stop, b, segments);
      Flat(r.kept) == Flat(b.kept) + Flat(segments)[..m]
      && r.remaining == b.remaining - m && r.delivered == b.delivered + m
      && r.next == (if m == 0 then b.next else Flat(segments)[m - 1].offset + 1)
    decreases |segments|
  {
    hide Bound, Allowed, Records, Flat, LongestFront;
    if segments == [] {
      m := 0;
      FlatNothing<R>();
      assert LongestFront<R>([], stop, b.remaining, 0) by { NoFront<R>(stop, b.remaining); }
      assert Flat(b.kept) + [] == Flat(b.kept);
    } else {
      var s, rest := segments[0], segments[1..];
      BoundOne(stop, b, s);
      var front := if Allowed(stop, b.remaining, s) <= 0 then 0 else Allowed(stop, b.remaining, s);
      var more := BoundsExact(stop, Bound(stop, b, s), rest);
      m := front + more;
      FlatStep(segments);
      FlatAfter(rest, End(s));
      RecordOffsets(s);
      FrontsJoin(Records(s), Flat(rest), End(s), stop, b.remaining, front, more);
      JoinKept(Flat(b.kept), Records(s)[..front], Flat(rest)[..more]);
    }
  }

  lemma JoinKept<R>(a: seq<Delivered<R>>, b: seq<Delivered<R>>, c: seq<Delivered<R>>)
    ensures a + b + c == a + (b + c)
  {
  }

  lemma NoFront<R>(stop: int, remaining: int)
    ensures LongestFront<R>([], stop, remaining, 0)
  {
  }

  lemma FlatStep<R>(segments: seq<Segment<R>>)
    requires segments != []
    ensures Flat(segments) == Records(segments[0]) + Flat(segments[1..])
  {
  }

  /** Fronts of two consecutive pieces join to the front of both; a cut in the first empties the second. */
  lemma FrontsJoin<R>(a: seq<Delivered<R>>, b: seq<Delivered<R>>, end: int, stop: int, remaining: int, f: nat, m: nat)
    requires LongestFront(a, stop, remaining, f) && LongestFront(b, stop, remaining - f, m)
    requires forall i :: 0 <= i < |a| ==> a[i].offset < end
    requires forall i :: 0 <= i < |b| ==> end <= b[i].offset
    ensures LongestFront(a + b, stop, remaining, f + m)
    ensures (a + b)[..f + m] == a[..f] + b[..m]
    ensures f + m > 0 ==> (a + b)[f + m - 1] == if m > 0 then b[m - 1] else a[f - 1]
  {
    assert |b| > 0 && f < |a| ==> a[f].offset < b[0].offset;
    assert m > 0 ==> f == |a|;
    assert (a + b)[..f + m] == a[..f] + b[..m];
  }

  lemma RecordOffsets<R>(s: Segment<R>)
    ensures forall i :: 0 <= i < |s.contents| ==> Records(s)[i].offset == s.base + i
  {
  }

  /** Every Arrow batch is handed on whole or released, once. */
  lemma {:induction false} ArrowsAccounted<R>(stop: int, b: Bounded<R>, segments: seq<Segment<R>>)
    ensures var r := BoundAll(stop, b, segments);
      multiset(r.whole) + multiset(r.released)
      == multiset(b.whole) + multiset(b.released) + multiset(Arrows(segments))
    decreases |segments|
  {
    if segments != [] {
      ArrowsAccounted(stop, Bound(stop, b, segments[0]), segments[1..]);
    }
  }

  function Arrows<R>(segments: seq<Segment<R>>): seq<Segment<R>>
  {
    if segments == [] then [] else (if segments[0].arrow then [segments[0]] else []) + Arrows(segments[1..])
  }

  function Rows<R>(segments: seq<Segment<R>>): seq<Segment<R>>
  {
    if segments == [] then [] else (if segments[0].arrow then [] else [segments[0]]) + Rows(segments[1..])
  }

  // ------------------------------------------------------------------- the bounded scan

  /** `boundedScan`, updated segment by segment. */
  class BoundedScan<R> {
    const stop: int
    var remaining: int
    var delivered: int
    var next: int
    var rows: seq<Segment<R>>
    var arrows: seq<Segment<R>>
    var released: seq<Segment<R>>
    ghost var done: Bounded<R>

    ghost predicate Valid()
      reads this
    {
      done.remaining == remaining && done.delivered == delivered && done.next == next
      && rows == Rows(done.kept) && arrows == Arrows(done.kept) && released == done.released
    }

    constructor (stopAt: int, limit: int, decodedNext: int)
      ensures Valid() && stop == stopAt && done == Start(limit, decodedNext)
    {
      stop := stopAt;
      remaining, delivered, next, rows, arrows, released := limit, 0, decodedNext, [], [], [];
      done := Start(limit, decodedNext);
    }

    method AppendRow(row: Segment<R>)
      requires Valid() && !row.arrow && |row.contents| == 1
      modifies this
      ensures Valid() && done == Bound(stop, old(done), row)
    {
      if remaining <= 0 || row.base >= stop {
        return;
      }
      RowsSnoc(done.kept, row);
      rows := rows + [row];
      remaining := remaining - 1;
      delivered := delivered + 1;
      next := row.base + 1;
      done := Bound(stop, done, row);
    }

    method AppendArrow(batch: Segment<R>)
      requires Valid() && batch.arrow
      modifies this
      ensures Valid() && done == Bound(stop, old(done), batch)
    {
      var count := |batch.contents|;
      var allowed := count;
      if Distance(stop, batch.base) < allowed {
        allowed := Distance(stop, batch.base);
      }
      if remaining < allowed {
        allowed := remaining;
      }
      ghost var was := done;
      done := Bound(stop, done, batch);
      if allowed <= 0 {
        released := released + [batch];
        return;
      }
      var part := batch;
      if allowed != count {
        part := Segment(batch.base, batch.contents[..allowed], true);
        released := released + [batch];
      }
      RowsSnoc(was.kept, part);
      arrows := arrows + [part];
      remaining := remaining - allowed;
      delivered := delivered + allowed;
      next := batch.base + allowed;
    }
  }

  lemma NoneKept<R>()
    ensures Rows<R>([]) == [] && Arrows<R>([]) == []
  {
  }

  lemma {:induction false} RowsSnoc<R>(segments: seq<Segment<R>>, s: Segment<R>)
    ensures Rows(segments + [s]) == Rows(segments) + (if s.arrow then [] else [s])
    ensures Arrows(segments + [s]) == Arrows(segments) + (if s.arrow then [s] else [])
  {
    if segments == [] {
      assert segments + [s] == [s];
    } else {
      assert (segments + [s])[0] == segments[0] && (segments + [s])[1..] == segments[1..] + [s];
      RowsSnoc(segments[1..], s);
    }
  }

  /** The end of `applyBounds`: the next offset never passes the stop. */
  function Bounds<R>(rows: seq<Segment<R>>, arrows: seq<Segment<R>>, decodedNext: int, stop: int, remaining: int): Bounded<R>
  {
    var b := BoundAll(stop, Start(remaining, decodedNext), InOrder(rows + arrows));
    if b.next > stop then b.(next := stop) else b
  }

  lemma OfInputs<R>(rows: seq<Segment<R>>, arrows: seq<Segment<R>>)
    requires forall k :: 0 <= k < |rows| ==> !rows[k].arrow && |rows[k].contents| == 1
    requires forall k :: 0 <= k < |arrows| ==> arrows[k].arrow
    ensures forall k :: 0 <= k < |InOrder(rows + arrows)| ==>
              (!InOrder(rows + arrows)[k].arrow ==> |InOrder(rows + arrows)[k].contents| == 1)
  {
    var segments := InOrder(rows + arrows);
    forall k | 0 <= k < |segments| ensures !segments[k].arrow ==> |segments[k].contents| == 1 {
      assert segments[k] in multiset(segments) && segments[k] in rows + arrows;
    }
  }

  method ApplyBounds<R>(rows: seq<Segment<R>>, arrows: seq<Segment<R>>, decodedNext: int, stop: int, remaining: int)
    returns (keptRows: seq<Segment<R>>, keptArrows: seq<Segment<R>>, released: seq<Segment<R>>, delivered: int, next: int)
    requires forall k :: 0 <= k < |rows| ==> !rows[k].arrow && |rows[k].contents| == 1
    requires forall k :: 0 <= k < |arrows| ==> arrows[k].arrow
    ensures var b := Bounds(rows, arrows, decodedNext, stop, remaining);
      keptRows == Rows(b.kept) && keptArrows == Arrows(b.kept) && released == b.released
      && delivered == b.delivered && next == b.next
  {
    hide Insert, Bound, Rows, Arrows;
    var segments := InOrder(rows + arrows);
    OfInputs(rows, arrows);
    hide InOrder;
    var scan := new BoundedScan<R>(stop, remaining, decodedNext);
    var i := 0;
    assert segments[0..] == segments;
    while i < |segments|
      invariant 0 <= i <= |segments| && scan.Valid() && scan.stop == stop && fresh(scan)
      invariant BoundAll(stop, Start(remaining, decodedNext), segments) == BoundAll(stop, scan.done, segments[i..])
    {
      assert segments[i..][0] == segments[i] && segments[i..][1..] == segments[i + 1..];
      if !segments[i].arrow {
        scan.AppendRow(segments[i]);
      } else {
        scan.AppendArrow(segments[i]);
      }
      i := i + 1;
    }
    keptRows, keptArrows, released, delivered, next := scan.rows, scan.arrows, scan.released, scan.delivered, scan.next;
    if next > stop {
      next := stop;
    }
  }

  // ------------------------------------------------------------------ the latest records

  datatype Latest<+R> = Latest(skip: int, kept: seq<Segment<R>>, whole: seq<Segment<R>>, released: seq<Segment<R>>)

  function Skip<R>(l: Latest<R>, s: Segment<R>): Latest<R>
  {
    if !s.arrow then
      if l.skip > 0 then l.(skip := l.skip - 1) else l.(kept := l.kept + [s])
    else if l.skip >= |s.contents| then l.(skip := l.skip - |s.contents|, released := l.released + [s])
    else if l.skip > 0 then
      l.(skip := 0, kept := l.kept + [Segment(s.base + l.skip, s.contents[l.skip..], true)], released := l.released + [s])
    else l.(kept := l.kept + [s], whole := l.whole + [s])
  }

  function SkipAll<R>(l: Latest<R>, segments: seq<Segment<R>>): Latest<R>
    decreases |segments|
  {
    if segments == [] then l else SkipAll(Skip(l, segments[0]), segments[1..])
  }

  lemma SkipOne<R>(l: Latest<R>, s: Segment<R>)
    requires l.skip >= 0 && (!s.arrow ==> |s.contents| == 1)
    ensures var r := Skip(l, s); var m := Min(l.skip, |s.contents|);
      r.skip == l.skip - m && Flat(r.kept) == Flat(l.kept) + Records(s)[m..]
  {
    var r, m := Skip(l, s), Min(l.skip, |s.contents|);
    assert r.kept == l.kept + r.kept[|l.kept|..];
    FlatConcat(l.kept, r.kept[|l.kept|..]);
    if r.kept == l.kept {
      assert r.kept[|l.kept|..] == [] && Records(s)[m..] == [];
    } else {
      var kept := Segment(s.base + m, s.contents[m..], s.arrow);
      assert s.contents[0..] == s.contents;
      assert r.kept[|l.kept|..] == [kept];
      assert Flat([kept]) == Records(kept) + Flat([][..]);
      assert Records(kept) == Records(s)[m..];
    }
  }

  /** Skipping drops exactly the first `skip` records in offset order, or all of them. */
  lemma {:induction false} SkipExact<R>(l: Latest<R>, segments: seq<Segment<R>>)
    requires l.skip >= 0 && forall k :: 0 <= k < |segments| ==> (!segments[k].arrow ==> |segments[k].contents| == 1)
    ensures var r := SkipAll(l, segments); var m := Min(l.skip, |Flat(segments)|);
      r.skip == l.skip - m && Flat(r.kept) == Flat(l.kept) + Flat(segments)[m..]
    decreases |segments|
  {
    hide Skip, Records, Flat;
    if segments == [] {
      FlatNothing<R>();
      assert Flat(l.kept) + [] == Flat(l.kept);
    } else {
      var s, rest := segments[0], segments[1..];
      SkipOne(l, s);
      SkipExact(Skip(l, s), rest);
      FlatStep(segments);
      SkipParts(Records(s), Flat(rest), l.skip);
      var m := Min(l.skip, |s.contents|);
      JoinKept(Flat(l.kept), Records(s)[m..], Flat(rest)[Min(l.skip - m, |Flat(rest)|)..]);
    }
  }

  lemma SkipParts<R>(a: seq<Delivered<R>>, b: seq<Delivered<R>>, skip: nat)
    ensures var m := Min(skip, |a|); var n := Min(skip - m, |b|);
      Min(skip, |a + b|) == m + n && (a + b)[m + n..] == a[m..] + b[n..]
  {
  }

  lemma {:induction false} SkippedArrowsAccounted<R>(l: Latest<R>, segments: seq<Segment<R>>)
    ensures var r := SkipAll(l, segments);
      multiset(r.whole) + multiset(r.released)
      == multiset(l.whole) + multiset(l.released) + multiset(Arrows(segments))
    decreases |segments|
  {
    if segments != [] {
      SkippedArrowsAccounted(Skip(l, segments[0]), segments[1..]);
    }
  }

  function CountRows<R>(rows: seq<Segment<R>>, arrows: seq<Segment<R>>): nat
  {
    |rows| + Sizes(arrows)
  }

  function Sizes<R>(segments: seq<Segment<R>>): nat
  {
    if segments == [] then 0 else |segments[0].contents| + Sizes(segments[1..])
  }

  /** `limitLatestLogRecords`. */
  method LimitLatest<R>(rows: seq<Segment<R>>, arrows: seq<Segment<R>>, limit: int)
    returns (keptRows: seq<Segment<R>>, keptArrows: seq<Segment<R>>, released: seq<Segment<R>>)
    requires forall k :: 0 <= k < |rows| ==> !rows[k].arrow && |rows[k].contents| == 1
    requires forall k :: 0 <= k < |arrows| ==> arrows[k].arrow
    ensures CountRows(rows, arrows) <= limit ==> keptRows == rows && keptArrows == arrows && released == []
    ensures CountRows(rows, arrows) > limit ==>
      var l := SkipAll(Latest(CountRows(rows, arrows) - limit, [], [], []), InOrder(rows + arrows));
      keptRows == Rows(l.kept) && keptArrows == Arrows(l.kept) && released == l.released
  {
    hide InOrder, Rows, Arrows, CountRows;
    var skip := CountRows(rows, arrows) - limit;
    if skip <= 0 {
      return rows, arrows, [];
    }
    keptRows, keptArrows, released := [], [], [];
    assert Rows<R>([]) == [] && Arrows<R>([]) == [] by { NoneKept<R>(); }
    var segments := InOrder(rows + arrows);
    ghost var l: Latest<R> := Latest(skip, [], [], []);
    ghost var goal := SkipAll(l, segments);
    var i := 0;
    assert segments[0..] == segments;
    while i < |segments|
      invariant 0 <= i <= |segments| && l.skip == skip >= 0
      invariant keptRows == Rows(l.kept) && keptArrows == Arrows(l.kept) && released == l.released
      invariant SkipAll(l, segments[i..]) == goal
    {
      var s := segments[i];
      assert segments[i..][0] == s && segments[i..][1..] == segments[i + 1..];
      ghost var was := l;
      l := Skip(l, s);
      if !s.arrow {
        if skip > 0 {
          skip := skip - 1;
        } else {
          RowsSnoc(was.kept, s);
          keptRows := keptRows + [s];
        }
      } else if skip >= |s.contents| {
        skip := skip - |s.contents|;
        released := released + [s];
      } else {
        var part := s;
        if skip > 0 {
          part := Segment(s.base + skip, s.contents[skip..], true);
          released := released + [s];
          skip := 0;
        }
        RowsSnoc(was.kept, part);
        keptArrows := keptArrows + [part];
      }
      i := i + 1;
    }
  }

  lemma {:induction false} FlatSize<R>(segments: seq<Segment<R>>)
    ensures |Flat(segments)| == Sizes(segments)
  {
    if segments != [] {
      FlatSize(segments[1..]);
    }
  }

  lemma {:induction false} SizesOfRows<R>(rows: seq<Segment<R>>)
    requires forall k :: 0 <= k < |rows| ==> |rows[k].contents| == 1
    ensures Sizes(rows) == |rows|
  {
    if rows != [] {
      SizesOfRows(rows[1..]);
    }
  }

  lemma {:induction false} SizesConcat<R>(a: seq<Segment<R>>, b: seq<Segment<R>>)
    ensures Sizes(a + b) == Sizes(a) + Sizes(b)
  {
    if a == [] {
      assert a + b == b;
    } else {
      assert (a + b)[0] == a[0] && (a + b)[1..] == a[1..] + b;
      SizesConcat(a[1..], b);
    }
  }

  lemma {:induction false} SizesInsert<R>(s: Segment<R>, sorted: seq<Segment<R>>)
    ensures Sizes(Insert(s, sorted)) == |s.contents| + Sizes(sorted)
  {
    if sorted != [] && s.base > sorted[0].base {
      SizesInsert(s, sorted[1..]);
    } else {
      assert ([s] + sorted)[1..] == sorted;
    }
  }

  lemma {:induction false} SizesInOrder<R>(segments: seq<Segment<R>>)
    ensures Sizes(InOrder(segments)) == Sizes(segments)
  {
    if segments != [] {
      SizesInOrder(segments[1..]);
      SizesInsert(segments[0], InOrder(segments[1..]));
    }
  }

  /** A limited scan of the latest records keeps exactly the last `limit` records in offset order. */
  lemma LatestExact<R>(rows: seq<Segment<R>>, arrows: seq<Segment<R>>, limit: nat)
    requires forall k :: 0 <= k < |rows| ==> !rows[k].arrow && |rows[k].contents| == 1
    requires forall k :: 0 <= k < |arrows| ==> arrows[k].arrow
    requires CountRows(rows, arrows) > limit
    ensures var all := Flat(InOrder(rows + arrows));
      var l := SkipAll(Latest(CountRows(rows, arrows) - limit, [], [], []), InOrder(rows + arrows));
      |all| == CountRows(rows, arrows) && Flat(l.kept) == all[|all| - limit..]
      && multiset(l.whole) + multiset(l.released) == multiset(Arrows(InOrder(rows + arrows)))
  {
    hide Flat, InOrder, SkipAll, Sizes, Arrows;
    var segments := InOrder(rows + arrows);
    FlatSize(segments);
    SizesInOrder(rows + arrows);
    SizesConcat(rows, arrows);
    SizesOfRows(rows);
    OfInputs(rows, arrows);
    SkipExact(Latest(CountRows(rows, arrows) - limit, [], [], []), segments);
    SkippedArrowsAccounted(Latest(CountRows(rows, arrows) - limit, [], [], []), segments);
    FlatNothing<R>();
    assert [] + Flat(segments)[|Flat(segments)| - limit..] == Flat(segments)[|Flat(segments)| - limit..];
  }
}
