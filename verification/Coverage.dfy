/**
 Interval accounting of src/ft_shadow_data_plane/central/process_cli.py: union and intersection
 durations and the decision whether a symbol's day is accepted.

 A range stands for its nanoseconds, so a duration is the size of a set.
 */
module Coverage {
  import opened Base

  datatype Range = Range(start: int, end: int)
  {
    predicate Has(x: int) {
      start <= x < end
    }
  }

  predicate Covers(ranges: seq<Range>, x: int) {
    exists i :: 0 <= i < |ranges| && ranges[i].Has(x)
  }

  /** The nanoseconds of the window that some range covers. */
  function Within(ranges: seq<Range>, lo: int, hi: int): set<int> {
    set x | lo <= x < hi && Covers(ranges, x)
  }

  /** The nanoseconds from `a` up to, but not including, `b`. */
  function Span(a: int, b: int): (s: set<int>)
    ensures forall x :: x in s <==> a <= x < b
    decreases b - a
  {
    if a < b then Span(a, b - 1) + {b - 1} else {}
  }

  lemma {:induction false} SpanSize(a: int, b: int)
    requires a <= b
    ensures |Span(a, b)| == b - a
    decreases b - a
  {
    if a < b {
      SpanSize(a, b - 1);
    }
  }

  // ---------------------------------------------------------------- clipping and sorting

  function Clipped(r: Range, lo: int, hi: int): Range {
    Range(Max(r.start, lo), Min(r.end, hi))
  }

  /** The clipping comprehension: empty intersections with the window are dropped. */
  function ClipAll(ranges: seq<Range>, lo: int, hi: int): seq<Range> {
    if ranges == [] then []
    else
      var r := Clipped(ranges[0], lo, hi);
      if r.start < r.end then [r] + ClipAll(ranges[1..], lo, hi) else ClipAll(ranges[1..], lo, hi)
  }

  predicate Before(a: Range, b: Range) {
    a.start < b.start || (a.start == b.start && a.end <= b.end)
  }

  function InsertRange(r: Range, sorted: seq<Range>): seq<Range> {
    if sorted == [] || Before(r, sorted[0]) then [r] + sorted
    else [sorted[0]] + InsertRange(r, sorted[1..])
  }

  /** Python's `sorted` on pairs. */
  function SortRanges(ranges: seq<Range>): seq<Range> {
    if ranges == [] then [] else InsertRange(ranges[0], SortRanges(ranges[1..]))
  }

  ghost predicate StartsSorted(ranges: seq<Range>) {
    forall i, j :: 0 <= i < j < |ranges| ==> ranges[i].start <= ranges[j].start
  }

  lemma CoversCons(r: Range, ranges: seq<Range>, x: int)
    ensures Covers([r] + ranges, x) <==> r.Has(x) || Covers(ranges, x)
  {
    var all := [r] + ranges;
    if r.Has(x) {
      assert all[0].Has(x);
    }
    if Covers(ranges, x) {
      var i :| 0 <= i < |ranges| && ranges[i].Has(x);
      assert all[i + 1].Has(x);
    }
  }

  lemma CoversSplit(ranges: seq<Range>, x: int)
    requires ranges != []
    ensures Covers(ranges, x) <==> ranges[0].Has(x) || Covers(ranges[1..], x)
  {
    CoversCons(ranges[0], ranges[1..], x);
    assert ranges == [ranges[0]] + ranges[1..];
  }

  lemma {:induction false} InsertRangeSorts(r: Range, sorted: seq<Range>)
    requires StartsSorted(sorted)
    ensures StartsSorted(InsertRange(r, sorted))
    ensures forall q :: q in InsertRange(r, sorted) <==> q == r || q in sorted
  {
    if !(sorted == [] || Before(r, sorted[0])) {
      InsertRangeSorts(r, sorted[1..]);
      var rest := InsertRange(r, sorted[1..]);
      forall j | 0 <= j < |rest|
        ensures sorted[0].start <= rest[j].start
      {
        assert rest[j] in rest;
      }
      assert sorted == [sorted[0]] + sorted[1..];
    }
  }

  lemma {:induction false} SortRangesSorts(ranges: seq<Range>)
    ensures StartsSorted(SortRanges(ranges))
    ensures forall q :: q in SortRanges(ranges) <==> q in ranges
  {
    if ranges != [] {
      SortRangesSorts(ranges[1..]);
      InsertRangeSorts(ranges[0], SortRanges(ranges[1..]));
      assert ranges == [ranges[0]] + ranges[1..];
    }
  }

  lemma SameElements(a: seq<Range>, b: seq<Range>, x: int)
    requires forall q :: q in a <==> q in b
    ensures Covers(a, x) <==> Covers(b, x)
  {
    if Covers(a, x) {
      var i :| 0 <= i < |a| && a[i].Has(x);
      assert a[i] in b;
    }
    if Covers(b, x) {
      var i :| 0 <= i < |b| && b[i].Has(x);
      assert b[i] in a;
    }
  }

  lemma {:induction false} ClipAllCovers(ranges: seq<Range>, lo: int, hi: int, x: int)
    ensures Covers(ClipAll(ranges, lo, hi), x) <==> lo <= x < hi && Covers(ranges, x)
  {
    if ranges != [] {
      ClipAllCovers(ranges[1..], lo, hi, x);
      CoversSplit(ranges, x);
      CoversCons(Clipped(ranges[0], lo, hi), ClipAll(ranges[1..], lo, hi), x);
    }
  }

  lemma {:induction false} ClipAllNonEmpty(ranges: seq<Range>, lo: int, hi: int)
    ensures forall q :: q in ClipAll(ranges, lo, hi) ==> lo <= q.start < q.end <= hi
  {
    if ranges != [] {
      ClipAllNonEmpty(ranges[1..], lo, hi);
    }
  }

  // ---------------------------------------------------------------- union

  /** All nanoseconds that the ranges cover. */
  ghost function Points(ranges: seq<Range>): set<int> {
    if ranges == [] then {}
    else Points(ranges[..|ranges| - 1]) + Span(ranges[|ranges| - 1].start, ranges[|ranges| - 1].end)
  }

  lemma {:induction false} PointsAreCovered(ranges: seq<Range>)
    ensures forall x :: x in Points(ranges) <==> Covers(ranges, x)
  {
    if ranges != [] {
      var init, last := ranges[..|ranges| - 1], ranges[|ranges| - 1];
      PointsAreCovered(init);
      forall x
        ensures x in Points(ranges) <==> Covers(ranges, x)
      {
        if Covers(init, x) {
          var i :| 0 <= i < |init| && init[i].Has(x);
          assert ranges[i].Has(x);
        }
        if last.Has(x) {
          assert ranges[|init|].Has(x);
        }
        if Covers(ranges, x) && !last.Has(x) {
          var i :| 0 <= i < |ranges| && ranges[i].Has(x);
          assert init[i].Has(x);
        }
      }
    }
  }

  /** `points` are the nanoseconds of the closed runs, `total` of them, and of the current run. */
  ghost predicate Swept(points: set<int>, total: int, run: Range) {
    && run.start <= run.end
    && |points| == total + (run.end - run.start)
    && Span(run.start, run.end) <= points
    && (forall x :: x in points ==> x < run.end)
  }

  lemma SweepFirst(r: Range)
    requires r.start < r.end
    ensures Swept(Span(r.start, r.end), 0, r)
  {
    SpanSize(r.start, r.end);
  }

  /** A range that starts inside the current run, or where it ends, extends the run. */
  lemma SweepExtend(points: set<int>, total: int, run: Range, r: Range)
    requires Swept(points, total, run) && run.start <= r.start <= run.end && r.start < r.end
    ensures Swept(points + Span(r.start, r.end), total, Range(run.start, Max(run.end, r.end)))
  {
    if run.end < r.end {
      SpanSize(run.end, r.end);
      var more := Span(run.end, r.end);
      hide Span;
      assert points + Span(r.start, r.end) == points + more;
      assert points * more == {};
    } else {
      assert points + Span(r.start, r.end) == points;
    }
  }

  /** A range that starts later closes the run and begins the next one. */
  lemma SweepClose(points: set<int>, total: int, run: Range, r: Range)
    requires Swept(points, total, run) && run.end < r.start < r.end
    ensures Swept(points + Span(r.start, r.end), total + (run.end - run.start), r)
  {
    SpanSize(r.start, r.end);
    hide Span;
    assert points * Span(r.start, r.end) == {};
  }

  lemma PointsGrow(ranges: seq<Range>, i: nat)
    requires i < |ranges|
    ensures Points(ranges[..i + 1]) == Points(ranges[..i]) + Span(ranges[i].start, ranges[i].end)
  {
    assert ranges[..i + 1][..i] == ranges[..i];
  }

  /** `_union_duration` */
  method UnionDuration(ranges: seq<Range>, lo: int, hi: int) returns (total: int)
    ensures total == |Within(ranges, lo, hi)|
  {
    var clipped := SortRanges(ClipAll(ranges, lo, hi));
    SortRangesSorts(ClipAll(ranges, lo, hi));
    ClipAllNonEmpty(ranges, lo, hi);
    assert Points([]) == {};
    hide Points, Span, Swept, SortRanges, ClipAll, Within, Covers;
    total := 0;
    var current: Option<Range> := None;
    var i := 0;
    while i < |clipped|
      invariant 0 <= i <= |clipped|
      invariant current.None? ==> i == 0 && total == 0
      invariant current.Some? ==> i > 0 && current.value.start <= clipped[i - 1].start
      invariant current.Some? ==> Swept(Points(clipped[..i]), total, current.value)
    {
      var r := clipped[i];
      assert r in clipped;
      PointsGrow(clipped, i);
      if current.None? {
        SweepFirst(r);
        assert clipped[..i] == [];
        assert {} + Span(r.start, r.end) == Span(r.start, r.end);
        current := Some(r);
      } else if r.start <= current.value.end {
        SweepExtend(Points(clipped[..i]), total, current.value, r);
        current := Some(Range(current.value.start, Max(current.value.end, r.end)));
      } else {
        SweepClose(Points(clipped[..i]), total, current.value, r);
        total := total + (current.value.end - current.value.start);
        current := Some(r);
      }
      i := i + 1;
    }
    assert clipped[..|clipped|] == clipped;
    UnionPoints(ranges, lo, hi);
    if current.Some? {
      SweptSize(Points(clipped), total, current.value);
      total := total + (current.value.end - current.value.start);
    }
  }

  lemma SweptSize(points: set<int>, total: int, run: Range)
    requires Swept(points, total, run)
    ensures |points| == total + (run.end - run.start)
  {
  }

  lemma UnionPoints(ranges: seq<Range>, lo: int, hi: int)
    ensures Points(SortRanges(ClipAll(ranges, lo, hi))) == Within(ranges, lo, hi)
  {
    var clipped := SortRanges(ClipAll(ranges, lo, hi));
    PointsAreCovered(clipped);
    forall x
      ensures x in Points(clipped) <==> x in Within(ranges, lo, hi)
    {
      SortRangesSorts(ClipAll(ranges, lo, hi));
      SameElements(clipped, ClipAll(ranges, lo, hi), x);
      ClipAllCovers(ranges, lo, hi, x);
    }
  }

  // ---------------------------------------------------------------- intersection

  function MeetWith(l: Range, right: seq<Range>): seq<Range> {
    if right == [] then []
    else
      var r := Range(Max(l.start, right[0].start), Min(l.end, right[0].end));
      if r.start < r.end then [r] + MeetWith(l, right[1..]) else MeetWith(l, right[1..])
  }

  /** The pairwise intersections, as the comprehension of `_intersection_duration` lists them. */
  function MeetAll(left: seq<Range>, right: seq<Range>): seq<Range> {
    if left == [] then [] else MeetWith(left[0], right) + MeetAll(left[1..], right)
  }

  lemma CoversConcat(a: seq<Range>, b: seq<Range>, x: int)
    ensures Covers(a + b, x) <==> Covers(a, x) || Covers(b, x)
  {
    if Covers(a, x) {
      var i :| 0 <= i < |a| && a[i].Has(x);
      assert (a + b)[i].Has(x);
    }
    if Covers(b, x) {
      var i :| 0 <= i < |b| && b[i].Has(x);
      assert (a + b)[|a| + i].Has(x);
    }
  }

  lemma {:induction false} MeetWithCovers(l: Range, right: seq<Range>, x: int)
    ensures Covers(MeetWith(l, right), x) <==> l.Has(x) && Covers(right, x)
  {
    if right != [] {
      MeetWithCovers(l, right[1..], x);
      CoversSplit(right, x);
      CoversCons(Range(Max(l.start, right[0].start), Min(l.end, right[0].end)), MeetWith(l, right[1..]), x);
    }
  }

  lemma {:induction false} MeetAllCovers(left: seq<Range>, right: seq<Range>, x: int)
    ensures Covers(MeetAll(left, right), x) <==> Covers(left, x) && Covers(right, x)
  {
    if left != [] {
      MeetAllCovers(left[1..], right, x);
      MeetWithCovers(left[0], right, x);
      CoversSplit(left, x);
      CoversConcat(MeetWith(left[0], right), MeetAll(left[1..], right), x);
    }
  }

  /** `_intersection_duration` */
  method IntersectionDuration(left: seq<Range>, right: seq<Range>, lo: int, hi: int) returns (total: int)
    ensures total == |Within(left, lo, hi) * Within(right, lo, hi)|
  {
    total := UnionDuration(MeetAll(left, right), lo, hi);
    forall x
      ensures x in Within(MeetAll(left, right), lo, hi) <==> x in Within(left, lo, hi) * Within(right, lo, hi)
    {
      MeetAllCovers(left, right, x);
    }
    assert Within(MeetAll(left, right), lo, hi) == Within(left, lo, hi) * Within(right, lo, hi);
  }

  // ---------------------------------------------------------------- the decision

  const MINIMUM_VALID_PER_MILLE := 999

  datatype Account = Account(
    expectedNs: int,
    validNs: int,
    explicitInvalidNs: int,
    conflictingNs: int,
    unclassifiedNs: int)

  /** Valid and explicitly invalid time partition the window. */
  predicate Partitions(valid: seq<Range>, invalid: seq<Range>, lo: int, hi: int) {
    forall x :: lo <= x < hi ==> (Covers(valid, x) <==> !Covers(invalid, x))
  }

  lemma WithinConcat(a: seq<Range>, b: seq<Range>, lo: int, hi: int)
    ensures Within(a + b, lo, hi) == Within(a, lo, hi) + Within(b, lo, hi)
  {
    forall x
      ensures x in Within(a + b, lo, hi) <==> x in Within(a, lo, hi) + Within(b, lo, hi)
    {
      CoversConcat(a, b, x);
    }
  }

  /** The four counts add up, and the two error counts vanish exactly on a partition. */
  lemma AccountIsExact(valid: seq<Range>, invalid: seq<Range>, lo: int, hi: int)
    requires lo <= hi
    ensures var v, w := Within(valid, lo, hi), Within(invalid, lo, hi);
            var accounted := |Within(valid + invalid, lo, hi)|;
            && accounted == |v| + |w| - |v * w|
            && 0 <= accounted <= hi - lo
            && (|v * w| == 0 && accounted == hi - lo <==> Partitions(valid, invalid, lo, hi))
  {
    var v, w := Within(valid, lo, hi), Within(invalid, lo, hi);
    WithinConcat(valid, invalid, lo, hi);
    SpanSize(lo, hi);
    var window := Span(lo, hi);
    assert v + w <= window;
    SubsetCard(v + w, window);
    if |v * w| == 0 && |v + w| == hi - lo {
      assert v * w == {} && v + w == window;
      forall x | lo <= x < hi
        ensures Covers(valid, x) <==> !Covers(invalid, x)
      {
        assert x in window;
        assert x !in v * w;
      }
    }
    if Partitions(valid, invalid, lo, hi) {
      assert v * w == {};
      assert v + w == window;
    }
  }

  /** The accounting of one symbol in `_finalize`, and whether the symbol is accepted. */
  method Decide(valid: seq<Range>, invalid: seq<Range>, lo: int, hi: int)
    returns (account: Account, accepted: bool)
    requires lo < hi
    ensures account.expectedNs == hi - lo
    ensures account.validNs == |Within(valid, lo, hi)|
    ensures account.explicitInvalidNs == |Within(invalid, lo, hi)|
    ensures account.conflictingNs == |Within(valid, lo, hi) * Within(invalid, lo, hi)|
    ensures account.validNs + account.explicitInvalidNs - account.conflictingNs + account.unclassifiedNs
              == account.expectedNs
    ensures accepted <==>
              Partitions(valid, invalid, lo, hi) &&
              1000 * |Within(valid, lo, hi)| >= MINIMUM_VALID_PER_MILLE * (hi - lo)
  {
    var validNs := UnionDuration(valid, lo, hi);
    var invalidNs := UnionDuration(invalid, lo, hi);
    var accountedNs := UnionDuration(valid + invalid, lo, hi);
    var conflictingNs := IntersectionDuration(valid, invalid, lo, hi);
    var expectedNs := hi - lo;
    var unclassifiedNs := expectedNs - accountedNs;
    AccountIsExact(valid, invalid, lo, hi);
    account := Account(expectedNs, validNs, invalidNs, conflictingNs, unclassifiedNs);
    accepted := !(validNs * 1000 < expectedNs * MINIMUM_VALID_PER_MILLE
                  || unclassifiedNs != 0 || conflictingNs != 0);
  }
}
