/**
 How `_finalize` replays the gap ledger: `_explicit_invalid_intervals`,
 `_extend_invalid_until_valid` and `_validate_validity` of
 src/ft_shadow_data_plane/central/process_cli.py. Gap facts are those of one symbol's depth
 stream, sorted by effective time, gap id and state.
 */
module GapReplay {
  import opened Base
  import opened Coverage
  import D = L2Day

  type GapEvent = D.GapEvent

  const CONTINUES := "gap continues into the next UTC day"

  /** The finalizer takes a zero or missing `affected_from` for no value at all. */
  function ReplayNs(gap: GapEvent): int {
    if gap.open && gap.affectedFromNs.Some? && gap.affectedFromNs.value != 0 then gap.affectedFromNs.value
    else gap.observedNs
  }

  /** A CLOSED fact that a rollover wrote covers its own nanosecond, the last one of the day. */
  function EndNs(gap: GapEvent): int {
    ReplayNs(gap) + (if gap.detail == CONTINUES then 1 else 0)
  }

  datatype Opened = Opened(gapId: string, startNs: int)

  /** `unclosed` is the dict of open gaps in insertion order. */
  datatype Replayed = Replayed(unclosed: seq<Opened>, ranges: seq<Range>)

  /** Position of a gap id in the dict, or the length. */
  function Find(unclosed: seq<Opened>, id: string): (index: nat)
    ensures index <= |unclosed|
    ensures index < |unclosed| ==> unclosed[index].gapId == id
    ensures forall i :: 0 <= i < index ==> unclosed[i].gapId != id
  {
    if unclosed == [] || unclosed[0].gapId == id then 0 else 1 + Find(unclosed[1..], id)
  }

  function ReplayStep(state: Replayed, gap: GapEvent): Replayed {
    var index := Find(state.unclosed, gap.gapId);
    if gap.open then
      if index < |state.unclosed| then state.(unclosed := state.unclosed[index := Opened(gap.gapId, ReplayNs(gap))])
      else state.(unclosed := state.unclosed + [Opened(gap.gapId, ReplayNs(gap))])
    else if index < |state.unclosed| then
      Replayed(state.unclosed[..index] + state.unclosed[index + 1..],
               state.ranges + [Range(state.unclosed[index].startNs, EndNs(gap))])
    else state
  }

  function Replay(gaps: seq<GapEvent>, n: nat): Replayed
    requires n <= |gaps|
  {
    if n == 0 then Replayed([], []) else ReplayStep(Replay(gaps, n - 1), gaps[n - 1])
  }

  function StillOpen(unclosed: seq<Opened>, hi: int): seq<Range> {
    seq(|unclosed|, i requires 0 <= i < |unclosed| => Range(unclosed[i].startNs, hi))
  }

  function ExplicitInvalid(gaps: seq<GapEvent>, lo: int, hi: int): seq<Range> {
    var state := Replay(gaps, |gaps|);
    ClipAll(state.ranges + StillOpen(state.unclosed, hi), lo, hi)
  }

  method ExplicitInvalidIntervals(gaps: seq<GapEvent>, lo: int, hi: int) returns (ranges: seq<Range>)
    ensures ranges == ExplicitInvalid(gaps, lo, hi)
  {
    var unclosed: seq<Opened> := [];
    ranges := [];
    var n := 0;
    while n < |gaps|
      invariant 0 <= n <= |gaps|
      invariant Replayed(unclosed, ranges) == Replay(gaps, n)
    {
      var gap := gaps[n];
      var index := Find(unclosed, gap.gapId);
      if gap.open {
        if index < |unclosed| {
          unclosed := unclosed[index := Opened(gap.gapId, ReplayNs(gap))];
        } else {
          unclosed := unclosed + [Opened(gap.gapId, ReplayNs(gap))];
        }
      } else if index < |unclosed| {
        ranges := ranges + [Range(unclosed[index].startNs, EndNs(gap))];
        unclosed := unclosed[..index] + unclosed[index + 1..];
      }
      n := n + 1;
    }
    ranges := ClipAll(ranges + StillOpen(unclosed, hi), lo, hi);
  }

  // ---------------------------------------------------------------- what the replay covers

  /** `gaps[j]` opens its gap and no fact about that gap follows before `k`. */
  ghost predicate OpenSince(gaps: seq<GapEvent>, j: nat, k: nat)
    requires j < k <= |gaps|
  {
    gaps[j].open && forall i :: j < i < k ==> gaps[i].gapId != gaps[j].gapId
  }

  /** `gaps[k]` closes the gap that `gaps[j]` opened. */
  ghost predicate Pair(gaps: seq<GapEvent>, j: nat, k: nat)
    requires j < k < |gaps|
  {
    OpenSince(gaps, j, k) && !gaps[k].open && gaps[k].gapId == gaps[j].gapId
  }

  ghost predicate DistinctIds(unclosed: seq<Opened>) {
    forall i, j :: 0 <= i < j < |unclosed| ==> unclosed[i].gapId != unclosed[j].gapId
  }

  ghost predicate OpenedBy(gaps: seq<GapEvent>, n: nat, entry: Opened)
    requires n <= |gaps|
  {
    exists j :: 0 <= j < n && OpenSince(gaps, j, n) && entry == Opened(gaps[j].gapId, ReplayNs(gaps[j]))
  }

  ghost predicate ClosedBy(gaps: seq<GapEvent>, n: nat, r: Range)
    requires n <= |gaps|
  {
    exists j, k :: 0 <= j < k < n && Pair(gaps, j, k) && r == Range(ReplayNs(gaps[j]), EndNs(gaps[k]))
  }

  lemma OpenedByStep(gaps: seq<GapEvent>, n: nat, entry: Opened)
    requires n < |gaps|
    ensures OpenedBy(gaps, n + 1, entry) <==>
              (OpenedBy(gaps, n, entry) && entry.gapId != gaps[n].gapId) ||
              (gaps[n].open && entry == Opened(gaps[n].gapId, ReplayNs(gaps[n])))
  {
    if OpenedBy(gaps, n, entry) && entry.gapId != gaps[n].gapId {
      var j :| 0 <= j < n && OpenSince(gaps, j, n) && entry == Opened(gaps[j].gapId, ReplayNs(gaps[j]));
      assert OpenSince(gaps, j, n + 1);
    }
    if gaps[n].open {
      assert OpenSince(gaps, n, n + 1);
    }
    if OpenedBy(gaps, n + 1, entry) {
      var j :| 0 <= j < n + 1 && OpenSince(gaps, j, n + 1) && entry == Opened(gaps[j].gapId, ReplayNs(gaps[j]));
      if j < n {
        assert OpenSince(gaps, j, n);
      }
    }
  }

  ghost predicate ClosesNow(gaps: seq<GapEvent>, n: nat, r: Range)
    requires n < |gaps|
  {
    !gaps[n].open && exists entry :: OpenedBy(gaps, n, entry) && entry.gapId == gaps[n].gapId
                                     && r == Range(entry.startNs, EndNs(gaps[n]))
  }

  lemma ClosedByStep(gaps: seq<GapEvent>, n: nat, r: Range)
    requires n < |gaps|
    ensures ClosedBy(gaps, n + 1, r) <==> ClosedBy(gaps, n, r) || ClosesNow(gaps, n, r)
  {
    if ClosedBy(gaps, n, r) {
      var j, k :| 0 <= j < k < n && Pair(gaps, j, k) && r == Range(ReplayNs(gaps[j]), EndNs(gaps[k]));
    }
    if ClosesNow(gaps, n, r) {
      var entry :| OpenedBy(gaps, n, entry) && entry.gapId == gaps[n].gapId
                   && r == Range(entry.startNs, EndNs(gaps[n]));
      var j :| 0 <= j < n && OpenSince(gaps, j, n) && entry == Opened(gaps[j].gapId, ReplayNs(gaps[j]));
      assert Pair(gaps, j, n);
    }
    if ClosedBy(gaps, n + 1, r) {
      var j, k :| 0 <= j < k < n + 1 && Pair(gaps, j, k) && r == Range(ReplayNs(gaps[j]), EndNs(gaps[k]));
      if k == n {
        assert OpenedBy(gaps, n, Opened(gaps[j].gapId, ReplayNs(gaps[j])));
      }
    }
  }

  /** An OPEN fact sets the gap's entry. */
  lemma StepOpens(state: Replayed, gap: GapEvent)
    requires DistinctIds(state.unclosed) && gap.open
    ensures var after := ReplayStep(state, gap);
            && DistinctIds(after.unclosed) && after.ranges == state.ranges
            && forall e :: e in after.unclosed <==>
                 (e in state.unclosed && e.gapId != gap.gapId) || e == Opened(gap.gapId, ReplayNs(gap))
  {
    var before, after := state.unclosed, ReplayStep(state, gap).unclosed;
    var index := Find(before, gap.gapId);
    var entry := Opened(gap.gapId, ReplayNs(gap));
    assert after[if index < |before| then index else |before|] == entry;
    forall e | e in before && e.gapId != gap.gapId
      ensures e in after
    {
      var i :| 0 <= i < |before| && before[i] == e;
      assert after[i] == e;
    }
    forall e | e in after && e != entry
      ensures e in before && e.gapId != gap.gapId
    {
      var i :| 0 <= i < |after| && after[i] == e;
      assert before[i] == e;
    }
  }

  /** A CLOSED fact of an open gap removes its entry and lists its range. */
  lemma StepCloses(state: Replayed, gap: GapEvent, entry: Opened)
    requires DistinctIds(state.unclosed) && !gap.open
    requires entry in state.unclosed && entry.gapId == gap.gapId
    ensures var after := ReplayStep(state, gap);
            && DistinctIds(after.unclosed)
            && after.ranges == state.ranges + [Range(entry.startNs, EndNs(gap))]
            && forall e :: e in after.unclosed <==> e in state.unclosed && e.gapId != gap.gapId
  {
    var before, after := state.unclosed, ReplayStep(state, gap).unclosed;
    var index := Find(before, gap.gapId);
    var at :| 0 <= at < |before| && before[at] == entry;
    assert at == index;
    forall i | 0 <= i < |after|
      ensures after[i] == before[if i < index then i else i + 1]
    {
    }
    forall e | e in before && e.gapId != gap.gapId
      ensures e in after
    {
      var i :| 0 <= i < |before| && before[i] == e;
      assert after[if i < index then i else i - 1] == e;
    }
  }

  /** A CLOSED fact of a gap that is not open changes nothing. */
  lemma StepIgnores(state: Replayed, gap: GapEvent)
    requires !gap.open && forall e :: e in state.unclosed ==> e.gapId != gap.gapId
    ensures ReplayStep(state, gap) == state
  {
  }

  /** The dict holds exactly the open gaps and the list exactly the closed pairs. */
  ghost predicate Recorded(gaps: seq<GapEvent>, n: nat, state: Replayed)
    requires n <= |gaps|
  {
    && DistinctIds(state.unclosed)
    && (forall e :: e in state.unclosed <==> OpenedBy(gaps, n, e))
    && (forall r :: r in state.ranges <==> ClosedBy(gaps, n, r))
  }

  lemma {:induction false} ReplayRecords(gaps: seq<GapEvent>, n: nat)
    requires n <= |gaps|
    ensures Recorded(gaps, n, Replay(gaps, n))
  {
    hide Recorded, ReplayStep;
    if n == 0 {
      NothingRecorded(gaps);
    } else {
      ReplayRecords(gaps, n - 1);
      RecordStep(gaps, n - 1, Replay(gaps, n - 1));
    }
  }

  lemma NothingRecorded(gaps: seq<GapEvent>)
    ensures Recorded(gaps, 0, Replayed([], []))
  {
  }

  lemma RecordStep(gaps: seq<GapEvent>, n: nat, state: Replayed)
    requires n < |gaps| && Recorded(gaps, n, state)
    ensures Recorded(gaps, n + 1, ReplayStep(state, gaps[n]))
  {
    var gap := gaps[n];
    forall e
      ensures OpenedBy(gaps, n + 1, e) <==>
                (e in state.unclosed && e.gapId != gap.gapId) ||
                (gap.open && e == Opened(gap.gapId, ReplayNs(gap)))
    {
      OpenedByStep(gaps, n, e);
    }
    forall r
      ensures ClosedBy(gaps, n + 1, r) <==> r in state.ranges || ClosesNow(gaps, n, r)
    {
      ClosedByStep(gaps, n, r);
    }
    hide ReplayStep, OpenedBy, ClosedBy, DistinctIds, ReplayNs, ClosesNow;
    StepRecords(gaps, n, state);
  }

  /** What one fact does to the open gaps and the ranges. */
  ghost predicate Records(gaps: seq<GapEvent>, n: nat, state: Replayed, after: Replayed)
    requires n < |gaps|
  {
    && DistinctIds(after.unclosed)
    && (forall e :: e in after.unclosed <==>
          (e in state.unclosed && e.gapId != gaps[n].gapId) || (gaps[n].open && e == Opened(gaps[n].gapId, ReplayNs(gaps[n]))))
    && (forall r :: r in after.ranges <==> r in state.ranges || ClosesNow(gaps, n, r))
  }

  lemma StepRecords(gaps: seq<GapEvent>, n: nat, state: Replayed)
    requires n < |gaps| && Recorded(gaps, n, state)
    ensures Records(gaps, n, state, ReplayStep(state, gaps[n]))
  {
    hide ReplayStep, OpenedBy, ClosedBy, DistinctIds, ReplayNs, EndNs;
    var gap := gaps[n];
    if gap.open {
      StepOpens(state, gap);
    } else if exists entry :: entry in state.unclosed && entry.gapId == gap.gapId {
      var entry :| entry in state.unclosed && entry.gapId == gap.gapId;
      StepCloses(state, gap, entry);
      ClosesOnly(gaps, n, state, entry);
      hide ClosesNow;
    } else {
      StepIgnores(state, gap);
    }
  }

  lemma ClosesOnly(gaps: seq<GapEvent>, n: nat, state: Replayed, entry: Opened)
    requires n < |gaps| && Recorded(gaps, n, state) && !gaps[n].open
    requires entry in state.unclosed && entry.gapId == gaps[n].gapId
    ensures forall r :: ClosesNow(gaps, n, r) <==> r == Range(entry.startNs, EndNs(gaps[n]))
  {
    hide OpenedBy, ClosedBy;
    forall other | OpenedBy(gaps, n, other) && other.gapId == gaps[n].gapId
      ensures other == entry
    {
      assert other in state.unclosed;
    }
    assert OpenedBy(gaps, n, entry);
  }

  ghost predicate InClosedGap(gaps: seq<GapEvent>, x: int) {
    exists j, k :: 0 <= j < k < |gaps| && Pair(gaps, j, k) && ReplayNs(gaps[j]) <= x < EndNs(gaps[k])
  }

  ghost predicate InOpenGap(gaps: seq<GapEvent>, x: int) {
    exists j :: 0 <= j < |gaps| && OpenSince(gaps, j, |gaps|) && ReplayNs(gaps[j]) <= x
  }

  /**
   The explicitly invalid time is exactly the time between an OPEN fact and the CLOSED fact that
   ends it, and from an OPEN fact that nothing ends to the end of the window.
   */
  lemma ReplayExact(gaps: seq<GapEvent>, lo: int, hi: int, x: int)
    ensures Covers(ExplicitInvalid(gaps, lo, hi), x) <==>
              lo <= x < hi && (InClosedGap(gaps, x) || InOpenGap(gaps, x))
  {
    var state := Replay(gaps, |gaps|);
    var tail := StillOpen(state.unclosed, hi);
    ReplayRecords(gaps, |gaps|);
    hide Replay;
    ClipAllCovers(state.ranges + tail, lo, hi, x);
    CoversConcat(state.ranges, tail, x);
    ClosedCovers(gaps, state, x);
    OpenCovers(gaps, state, hi, x);
    hide Recorded, Covers, InClosedGap, InOpenGap;
  }

  lemma ClosedCovers(gaps: seq<GapEvent>, state: Replayed, x: int)
    requires Recorded(gaps, |gaps|, state)
    ensures Covers(state.ranges, x) <==> InClosedGap(gaps, x)
  {
    if Covers(state.ranges, x) {
      var i :| 0 <= i < |state.ranges| && state.ranges[i].Has(x);
      assert ClosedBy(gaps, |gaps|, state.ranges[i]);
    }
    if InClosedGap(gaps, x) {
      var j, k :| 0 <= j < k < |gaps| && Pair(gaps, j, k) && ReplayNs(gaps[j]) <= x < EndNs(gaps[k]);
      var r := Range(ReplayNs(gaps[j]), EndNs(gaps[k]));
      assert ClosedBy(gaps, |gaps|, r);
      var i :| 0 <= i < |state.ranges| && state.ranges[i] == r;
      assert state.ranges[i].Has(x);
    }
  }

  lemma OpenCovers(gaps: seq<GapEvent>, state: Replayed, hi: int, x: int)
    requires Recorded(gaps, |gaps|, state)
    ensures Covers(StillOpen(state.unclosed, hi), x) <==> x < hi && InOpenGap(gaps, x)
  {
    var tail := StillOpen(state.unclosed, hi);
    if Covers(tail, x) {
      var i :| 0 <= i < |tail| && tail[i].Has(x);
      assert state.unclosed[i] in state.unclosed;
      assert OpenedBy(gaps, |gaps|, state.unclosed[i]);
    }
    if InOpenGap(gaps, x) && x < hi {
      var j :| 0 <= j < |gaps| && OpenSince(gaps, j, |gaps|) && ReplayNs(gaps[j]) <= x;
      var entry := Opened(gaps[j].gapId, ReplayNs(gaps[j]));
      assert OpenedBy(gaps, |gaps|, entry);
      var i :| 0 <= i < |state.unclosed| && state.unclosed[i] == entry;
      assert tail[i].Has(x);
    }
  }

  // ---------------------------------------------------------------- extending to the next valid time

  /** The start of the first range, in sorted order, that starts at `end` or later; else `hi`. */
  function NextStart(valid: seq<Range>, end: int, hi: int): int {
    if valid == [] then hi
    else if valid[0].start >= end then valid[0].start
    else NextStart(valid[1..], end, hi)
  }

  function ExtendedEnd(valid: seq<Range>, end: int, hi: int): int {
    if Covers(valid, end) then end else NextStart(valid, end, hi)
  }

  function Extend(ranges: seq<Range>, valid: seq<Range>, hi: int): seq<Range> {
    var sorted := SortRanges(valid);
    seq(|ranges|, i requires 0 <= i < |ranges| => Range(ranges[i].start, ExtendedEnd(sorted, ranges[i].end, hi)))
  }

  method ExtendInvalidUntilValid(ranges: seq<Range>, valid: seq<Range>, hi: int) returns (extended: seq<Range>)
    ensures extended == Extend(ranges, valid, hi)
  {
    var sorted := SortRanges(valid);
    extended := [];
    var i := 0;
    while i < |ranges|
      invariant 0 <= i <= |ranges| && |extended| == i
      invariant forall k :: 0 <= k < i ==>
                  extended[k] == Range(ranges[k].start, ExtendedEnd(sorted, ranges[k].end, hi))
    {
      var end := ranges[i].end;
      if !Covers(sorted, end) {
        end := NextStart(sorted, end, hi);
      }
      extended := extended + [Range(ranges[i].start, end)];
      i := i + 1;
    }
  }

  /** Between a gap's end and its extended end there is no valid nanosecond. */
  lemma {:induction false} NextStartSkipsNothing(valid: seq<Range>, end: int, hi: int, x: int)
    requires StartsSorted(valid) && end <= x < NextStart(valid, end, hi) && Covers(valid, x)
    ensures Covers(valid, end)
  {
    if valid != [] && valid[0].start < end {
      CoversSplit(valid, x);
      CoversSplit(valid, end);
      if !valid[0].Has(x) {
        NextStartSkipsNothing(valid[1..], end, hi, x);
      }
    }
  }

  /** Extending adds no overlap with valid time. */
  lemma ExtensionAddsNoOverlap(ranges: seq<Range>, valid: seq<Range>, hi: int, x: int)
    requires Covers(valid, x) && Covers(Extend(ranges, valid, hi), x)
    ensures Covers(ranges, x)
  {
    var extended, sorted := Extend(ranges, valid, hi), SortRanges(valid);
    SortRangesSorts(valid);
    SameElements(sorted, valid, x);
    var i :| 0 <= i < |extended| && extended[i].Has(x);
    if x >= ranges[i].end {
      NextStartSkipsNothing(sorted, ranges[i].end, hi, x);
    }
    assert ranges[i].Has(x);
  }

  /** Extending keeps what was invalid, as long as the ranges end inside the window. */
  lemma ExtensionKeeps(ranges: seq<Range>, valid: seq<Range>, hi: int, x: int)
    requires Covers(ranges, x) && forall i :: 0 <= i < |ranges| ==> ranges[i].end <= hi
    ensures Covers(Extend(ranges, valid, hi), x)
  {
    var i :| 0 <= i < |ranges| && ranges[i].Has(x);
    NextStartNotEarlier(SortRanges(valid), ranges[i].end, hi);
    assert Extend(ranges, valid, hi)[i].Has(x);
  }

  lemma {:induction false} NextStartNotEarlier(valid: seq<Range>, end: int, hi: int)
    requires end <= hi
    ensures end <= NextStart(valid, end, hi)
  {
    if valid != [] && valid[0].start < end {
      NextStartNotEarlier(valid[1..], end, hi);
    }
  }

  ghost predicate NonEmptyRanges(ranges: seq<Range>) {
    forall i :: 0 <= i < |ranges| ==> ranges[i].start < ranges[i].end
  }

  /** No valid nanosecond from `from` up to and including `x`. */
  ghost predicate Barren(valid: seq<Range>, from: int, x: int) {
    forall y :: from <= y <= x ==> !Covers(valid, y)
  }

  /** Without a valid nanosecond from `end` up to `x`, the next start comes after `x`. */
  lemma {:induction false} NextStartWaits(valid: seq<Range>, end: int, hi: int, x: int)
    requires NonEmptyRanges(valid) && x < hi && Barren(valid, end, x)
    ensures x < NextStart(valid, end, hi)
  {
    if valid != [] {
      if valid[0].start >= end {
        if valid[0].start <= x {
          assert valid[0].Has(valid[0].start);
          assert Covers(valid, valid[0].start);
        }
      } else {
        forall y | end <= y <= x
          ensures !Covers(valid[1..], y)
        {
          CoversSplit(valid, y);
        }
        NextStartWaits(valid[1..], end, hi, x);
      }
    }
  }

  lemma ExtendedExactly(range: Range, valid: seq<Range>, hi: int, x: int)
    requires StartsSorted(valid) && NonEmptyRanges(valid) && range.start <= range.end && x < hi
    ensures range.start <= x < ExtendedEnd(valid, range.end, hi) <==> range.start <= x && Barren(valid, range.end, x)
  {
    if Barren(valid, range.end, x) {
      NextStartWaits(valid, range.end, hi, x);
    }
    if range.end <= x < ExtendedEnd(valid, range.end, hi) {
      forall y | range.end <= y <= x
        ensures !Covers(valid, y)
      {
        if Covers(valid, y) {
          NextStartSkipsNothing(valid, range.end, hi, y);
        }
      }
    }
  }

  /** Extended ranges reach, from each range on, exactly as far as no valid nanosecond has come. */
  lemma ExtensionReaches(ranges: seq<Range>, valid: seq<Range>, hi: int, x: int)
    requires NonEmptyRanges(valid) && x < hi && forall i :: 0 <= i < |ranges| ==> ranges[i].start <= ranges[i].end
    ensures Covers(Extend(ranges, valid, hi), x) <==>
              exists i :: 0 <= i < |ranges| && ranges[i].start <= x && Barren(valid, ranges[i].end, x)
  {
    var extended, sorted := Extend(ranges, valid, hi), SortRanges(valid);
    SortRangesSorts(valid);
    forall i | 0 <= i < |sorted|
      ensures sorted[i].start < sorted[i].end
    {
      assert sorted[i] in valid;
    }
    forall i | 0 <= i < |ranges|
      ensures extended[i].Has(x) <==> ranges[i].start <= x && Barren(valid, ranges[i].end, x)
    {
      ExtendedExactly(ranges[i], sorted, hi, x);
      SameBarren(sorted, valid, ranges[i].end, x);
    }
    hide Extend, SortRanges, Barren;
    if i :| 0 <= i < |ranges| && ranges[i].start <= x && Barren(valid, ranges[i].end, x) {
      assert extended[i].Has(x);
    }
  }

  lemma SameBarren(a: seq<Range>, b: seq<Range>, from: int, x: int)
    requires forall r :: r in a <==> r in b
    ensures Barren(a, from, x) <==> Barren(b, from, x)
  {
    forall y
      ensures Covers(a, y) <==> Covers(b, y)
    {
      SameElements(a, b, y);
    }
  }

  /** A gap of the ledger is open at `z`. */
  ghost predicate InGap(gaps: seq<GapEvent>, z: int) {
    InClosedGap(gaps, z) || InOpenGap(gaps, z)
  }

  /**
   The unclassified time of a window, in terms of the ledger and the validity file: the moments that
   are not valid and before which, since the last valid moment, no gap was open. So the time from a
   gap's end to the next valid start is never unclassified.
   */
  lemma UnclassifiedExactly(gaps: seq<GapEvent>, valid: seq<Range>, lo: int, hi: int, x: int)
    requires NonEmptyRanges(valid) && lo <= x < hi
    ensures x !in Within(valid + Extend(ExplicitInvalid(gaps, lo, hi), valid, hi), lo, hi) <==>
              !Covers(valid, x) && forall z :: lo <= z <= x && InGap(gaps, z) ==> exists y :: z < y <= x && Covers(valid, y)
  {
    var explicit := ExplicitInvalid(gaps, lo, hi);
    ExplicitNonEmpty(gaps, lo, hi);
    CoversConcat(valid, Extend(explicit, valid, hi), x);
    ExtensionReaches(explicit, valid, hi, x);
    forall z
      ensures Covers(explicit, z) <==> lo <= z < hi && InGap(gaps, z)
    {
      ReplayExact(gaps, lo, hi, z);
    }
    hide Extend, ExplicitInvalid, InGap;
    if i :| 0 <= i < |explicit| && explicit[i].start <= x && Barren(valid, explicit[i].end, x) {
      var z := Min(x, explicit[i].end - 1);
      assert explicit[i].Has(z);
      assert Covers(explicit, z);
      assert forall y :: z < y <= x ==> !Covers(valid, y);
    }
    if z :| lo <= z <= x && InGap(gaps, z) && !exists y :: z < y <= x && Covers(valid, y) {
      assert Covers(explicit, z);
      var i :| 0 <= i < |explicit| && explicit[i].Has(z);
      assert Barren(valid, explicit[i].end, x);
    }
  }

  lemma ExplicitNonEmpty(gaps: seq<GapEvent>, lo: int, hi: int)
    ensures NonEmptyRanges(ExplicitInvalid(gaps, lo, hi))
  {
    var state := Replay(gaps, |gaps|);
    var all := state.ranges + StillOpen(state.unclosed, hi);
    hide Replay;
    ClipAllNonEmpty(all, lo, hi);
    forall i | 0 <= i < |ClipAll(all, lo, hi)|
      ensures ClipAll(all, lo, hi)[i].start < ClipAll(all, lo, hi)[i].end
    {
      assert ClipAll(all, lo, hi)[i] in ClipAll(all, lo, hi);
    }
  }

  // ---------------------------------------------------------------- the validity file

  predicate RowAccepted(row: D.Interval, previousEnd: Option<int>, dayStart: int, dayEnd: int) {
    && row.connectionId != ""
    && dayStart <= row.fromNs < row.toNs <= dayEnd
    && (previousEnd.Some? ==> previousEnd.value <= row.fromNs)
  }

  function RangesOf(rows: seq<D.Interval>): seq<Range> {
    seq(|rows|, i requires 0 <= i < |rows| => Range(rows[i].fromNs, rows[i].toNs))
  }

  /** The check of `_validate_validity`: rows in order, disjoint, non-empty and inside the day. */
  ghost predicate WellOrdered(rows: seq<D.Interval>, dayStart: int, dayEnd: int) {
    && (forall k :: 0 <= k < |rows| ==>
          rows[k].connectionId != "" && dayStart <= rows[k].fromNs < rows[k].toNs <= dayEnd)
    && (forall k, l :: 0 <= k < l < |rows| ==> rows[k].toNs <= rows[l].fromNs)
  }

  /** Returns the ranges, or the index of the row at which `_validate_validity` raises. */
  method ValidateValidity(rows: seq<D.Interval>, dayStart: int, dayEnd: int) returns (r: Result<seq<Range>, nat>)
    ensures r.Ok? <==> WellOrdered(rows, dayStart, dayEnd)
    ensures r.Ok? ==> r.value == RangesOf(rows)
    ensures r.Err? ==>
              && r.error < |rows| && WellOrdered(rows[..r.error], dayStart, dayEnd)
              && !WellOrdered(rows[..r.error + 1], dayStart, dayEnd)
  {
    var previousEnd: Option<int> := None;
    var ranges: seq<Range> := [];
    var n := 0;
    while n < |rows|
      invariant 0 <= n <= |rows| && |ranges| == n
      invariant WellOrdered(rows[..n], dayStart, dayEnd)
      invariant forall k :: 0 <= k < n ==> ranges[k] == Range(rows[k].fromNs, rows[k].toNs)
      invariant previousEnd == if n == 0 then None else Some(rows[n - 1].toNs)
    {
      var row := rows[n];
      if !RowAccepted(row, previousEnd, dayStart, dayEnd) {
        NotWellOrdered(rows, n, dayStart, dayEnd);
        return Err(n);
      }
      OneMoreRow(rows, n, dayStart, dayEnd);
      previousEnd := Some(row.toNs);
      ranges := ranges + [Range(row.fromNs, row.toNs)];
      n := n + 1;
    }
    assert rows[..|rows|] == rows;
    return Ok(ranges);
  }

  lemma OneMoreRow(rows: seq<D.Interval>, n: nat, dayStart: int, dayEnd: int)
    requires n < |rows| && WellOrdered(rows[..n], dayStart, dayEnd)
    requires RowAccepted(rows[n], if n == 0 then None else Some(rows[n - 1].toNs), dayStart, dayEnd)
    ensures WellOrdered(rows[..n + 1], dayStart, dayEnd)
  {
    var all := rows[..n + 1];
    forall k, l | 0 <= k < l < |all|
      ensures all[k].toNs <= all[l].fromNs
    {
      if l < n {
        assert rows[..n][k].toNs <= rows[..n][l].fromNs;
      } else if k < n - 1 {
        assert rows[..n][k].toNs <= rows[..n][n - 1].fromNs;
        assert rows[..n][n - 1].fromNs < rows[..n][n - 1].toNs;
      }
    }
    forall k | 0 <= k < |all|
      ensures all[k].connectionId != "" && dayStart <= all[k].fromNs < all[k].toNs <= dayEnd
    {
      if k < n {
        assert all[k] == rows[..n][k];
      }
    }
  }

  lemma NotWellOrdered(rows: seq<D.Interval>, n: nat, dayStart: int, dayEnd: int)
    requires n < |rows|
    requires !RowAccepted(rows[n], if n == 0 then None else Some(rows[n - 1].toNs), dayStart, dayEnd)
    ensures !WellOrdered(rows[..n + 1], dayStart, dayEnd) && !WellOrdered(rows, dayStart, dayEnd)
  {
    assert rows[..n + 1][n] == rows[n];
    if n > 0 {
      assert rows[..n + 1][n - 1] == rows[n - 1];
    }
  }
}
