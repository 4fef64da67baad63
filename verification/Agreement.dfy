/**
 The reconstructor and the finalizer read the same gap ledger with different code. This module
 compares what they say about the same day.
 */
module Agreement {
  import opened Base
  import opened Coverage
  import opened GapReplay
  import L2Book
  import opened L2Day
  import opened L2DayProofs
  import opened L2DayChain

  // ---------------------------------------------------------------- ledger facts among the day's events

  /** How many gap facts there are among the first `i` events. */
  function Rank(events: seq<Event>, i: nat): nat
    requires i <= |events|
  {
    if i == 0 then 0 else Rank(events, i - 1) + (if events[i - 1].GapFact? then 1 else 0)
  }

  lemma {:induction false} RankSteps(events: seq<Event>, a: nat, b: nat)
    requires a <= b <= |events|
    ensures Rank(events, a) <= Rank(events, b)
    ensures a < b && events[a].GapFact? ==> Rank(events, a) < Rank(events, b)
    decreases b
  {
    if a < b {
      RankSteps(events, a, b - 1);
    }
  }

  lemma {:induction false} GapsOfPrefix(events: seq<Event>, i: nat)
    requires i <= |events|
    ensures |GapsOf(events[..i])| == Rank(events, i)
    ensures GapsOf(events) == GapsOf(events[..i]) + GapsOf(events[i..])
  {
    if i == 0 {
      assert events[0..] == events;
      assert GapsOf(events[..0]) == [];
    } else {
      GapsOfPrefix(events, i - 1);
      GapsOfSnoc(events[..i - 1], events[i - 1]);
      assert events[..i] == events[..i - 1] + [events[i - 1]];
      assert events[i - 1..][1..] == events[i..];
      var head := if events[i - 1].GapFact? then [events[i - 1].gap] else [];
      assert GapsOf(events[i - 1..]) == head + GapsOf(events[i..]);
      assert (GapsOf(events[..i - 1]) + head) + GapsOf(events[i..]) ==
             GapsOf(events[..i - 1]) + (head + GapsOf(events[i..]));
    }
  }

  lemma {:induction false} GapsOfSnoc(events: seq<Event>, last: Event)
    ensures GapsOf(events + [last]) == GapsOf(events) + (if last.GapFact? then [last.gap] else [])
  {
    if events == [] {
      assert events + [last] == [last];
      assert [last][1..] == [];
    } else {
      GapsOfSnoc(events[1..], last);
      assert (events + [last])[1..] == events[1..] + [last];
      var head := if events[0].GapFact? then [events[0].gap] else [];
      var tail := if last.GapFact? then [last.gap] else [];
      assert head + (GapsOf(events[1..]) + tail) == (head + GapsOf(events[1..])) + tail;
    }
  }

  /** The gap fact at event `i` is the ledger's fact number `Rank(events, i)`. */
  lemma RankNames(events: seq<Event>, i: nat)
    requires i < |events| && events[i].GapFact?
    ensures Rank(events, i) < |GapsOf(events)| && GapsOf(events)[Rank(events, i)] == events[i].gap
  {
    GapsOfPrefix(events, i);
    assert events[i..][0] == events[i];
    assert GapsOf(events[i..])[0] == events[i].gap;
  }

  lemma {:induction false} Place(events: seq<Event>, j: nat, n: nat) returns (i: nat)
    requires n <= |events| && j < Rank(events, n)
    ensures i < n && events[i].GapFact? && Rank(events, i) == j
  {
    if j == Rank(events, n - 1) {
      i := n - 1;
    } else {
      i := Place(events, j, n - 1);
    }
  }

  /** Every fact of the ledger is an event of the day. */
  lemma PlaceOf(events: seq<Event>, j: nat) returns (i: nat)
    requires j < |GapsOf(events)|
    ensures i < |events| && events[i] == GapFact(GapsOf(events)[j]) && Rank(events, i) == j
  {
    GapsOfPrefix(events, |events|);
    assert events[..|events|] == events;
    i := Place(events, j, |events|);
    RankNames(events, i);
  }

  /** A gap that the ledger keeps open between two facts is open between the two events. */
  lemma LedgerOpenThrough(events: seq<Event>, gaps: seq<GapEvent>, j: nat, k: nat, from: nat, to: nat)
    requires gaps == GapsOf(events) && j < k <= |gaps| && OpenSince(gaps, j, k)
    requires from < to <= |events|
    requires events[from] == GapFact(gaps[j]) && Rank(events, from) == j
    requires Rank(events, to) <= k
    ensures OpenThrough(events, gaps[j].gapId, from, to)
  {
    forall i | from < i < to && events[i].GapFact?
      ensures events[i].gap.gapId != gaps[j].gapId
    {
      RankNames(events, i);
      RankSteps(events, from, i);
      RankSteps(events, i, to);
    }
  }

  // ---------------------------------------------------------------- no connection without a name

  ghost predicate Named(state: Day) {
    "" !in state.books
  }

  lemma {:induction false} NamedAfter(start: Day, events: seq<Event>, n: nat)
    requires n <= |events| && Named(start)
    requires forall i :: 0 <= i < |events| && events[i].RowEvent? ==> events[i].row.Connection() != ""
    ensures Named(After(start, events, n))
  {
    hide Feed, Ended;
    if n > 0 {
      NamedAfter(start, events, n - 1);
    }
  }

  // ---------------------------------------------------------------- agreement

  /** A day as both sides see it. */
  ghost predicate SameDay(start: Day, events: seq<Event>, day: L2DayProofs.Span, gaps: seq<GapEvent>, written: seq<Interval>) {
    && TimesSorted(events, day) && 0 < day.startNs
    && DaySound(start, day.startNs, day.startNs) && start.intervals == []
    && gaps == GapsOf(events)
    && written == Written(After(start, events, |events|), day.endNs)
  }

  /** Both sides read the same effective time out of a fact of the day. */
  lemma SameTime(events: seq<Event>, day: L2DayProofs.Span, i: nat)
    requires TimesSorted(events, day) && 0 < day.startNs
    requires i < |events| && events[i].GapFact?
    ensures ReplayNs(events[i].gap) == events[i].gap.EffectiveNs() == events[i].Time()
  {
  }

  lemma NotBoth(written: seq<Interval>, x: int, lo: int, hi: int)
    requires forall iv :: iv in written ==> !Meets(iv, lo, hi)
    requires Covers(RangesOf(written), x)
    ensures !(lo <= x < hi)
  {
    var i :| 0 <= i < |written| && RangesOf(written)[i].Has(x);
    assert written[i] in written;
  }

  /** A moment in an open or closed gap is not valid, except the last nanosecond of a rollover. */
  lemma ClosedGapNotValid(start: Day, events: seq<Event>, day: L2DayProofs.Span, gaps: seq<GapEvent>,
                          written: seq<Interval>, j: nat, k: nat, x: int)
    requires SameDay(start, events, day, gaps, written)
    requires j < k < |gaps| && Pair(gaps, j, k)
    requires ReplayNs(gaps[j]) <= x < ReplayNs(gaps[k])
    ensures !Covers(RangesOf(written), x)
  {
    hide After, DaySound, Written;
    var from := PlaceOf(events, j);
    var to := PlaceOf(events, k);
    if to <= from {
      RankSteps(events, to, from);
    }
    LedgerOpenThrough(events, gaps, j, k, from, to);
    SameTime(events, day, from);
    SameTime(events, day, to);
    forall iv | iv in written
      ensures !Meets(iv, events[from].Time(), events[to].Time())
    {
      IntervalsAvoidGaps(start, events, day, gaps[j].gapId, from, to, iv);
    }
    if Covers(RangesOf(written), x) {
      NotBoth(written, x, events[from].Time(), events[to].Time());
    }
  }

  lemma OpenGapNotValid(start: Day, events: seq<Event>, day: L2DayProofs.Span, gaps: seq<GapEvent>,
                        written: seq<Interval>, j: nat, x: int)
    requires SameDay(start, events, day, gaps, written)
    requires j < |gaps| && OpenSince(gaps, j, |gaps|)
    requires ReplayNs(gaps[j]) <= x < day.endNs
    ensures !Covers(RangesOf(written), x)
  {
    hide After, DaySound, Written;
    var from := PlaceOf(events, j);
    GapsOfPrefix(events, |events|);
    assert events[..|events|] == events;
    LedgerOpenThrough(events, gaps, j, |gaps|, from, |events|);
    SameTime(events, day, from);
    forall iv | iv in written
      ensures !Meets(iv, events[from].Time(), day.endNs)
    {
      IntervalsAvoidGaps(start, events, day, gaps[j].gapId, from, |events|, iv);
    }
    if Covers(RangesOf(written), x) {
      NotBoth(written, x, events[from].Time(), day.endNs);
    }
  }

  /** The nanosecond that the finalizer, but not the reconstructor, adds to a rolled-over gap. */
  ghost predicate RolloverNs(gaps: seq<GapEvent>, x: int) {
    exists j, k :: 0 <= j < k < |gaps| && Pair(gaps, j, k) && gaps[k].detail == CONTINUES
                   && ReplayNs(gaps[k]) == x && ReplayNs(gaps[j]) <= x
  }

  lemma ConflictIsRollover(start: Day, events: seq<Event>, day: L2DayProofs.Span, gaps: seq<GapEvent>,
                           written: seq<Interval>, lo: int, hi: int, x: int)
    requires SameDay(start, events, day, gaps, written) && hi <= day.endNs
    requires Covers(RangesOf(written), x) && Covers(ExplicitInvalid(gaps, lo, hi), x)
    ensures RolloverNs(gaps, x)
  {
    hide SameDay, Covers, ExplicitInvalid;
    ReplayExact(gaps, lo, hi, x);
    if InClosedGap(gaps, x) {
      var j, k :| 0 <= j < k < |gaps| && Pair(gaps, j, k) && ReplayNs(gaps[j]) <= x < EndNs(gaps[k]);
      if x < ReplayNs(gaps[k]) {
        ClosedGapNotValid(start, events, day, gaps, written, j, k, x);
      }
    } else {
      var j :| 0 <= j < |gaps| && OpenSince(gaps, j, |gaps|) && ReplayNs(gaps[j]) <= x;
      OpenGapNotValid(start, events, day, gaps, written, j, x);
    }
  }

  /** The ranges `_finalize` compares: the validity file and the replayed, extended gaps. */
  function Invalid(gaps: seq<GapEvent>, written: seq<Interval>, lo: int, hi: int): seq<Range> {
    Extend(ExplicitInvalid(gaps, lo, hi), RangesOf(written), hi)
  }

  /** Both sides count a moment exactly when it is a written rollover nanosecond in the window. */
  lemma ConflictsAreRollovers(start: Day, events: seq<Event>, day: L2DayProofs.Span, gaps: seq<GapEvent>,
                         written: seq<Interval>, lo: int, hi: int, x: int)
    requires SameDay(start, events, day, gaps, written) && hi <= day.endNs
    ensures x in Within(RangesOf(written), lo, hi) * Within(Invalid(gaps, written, lo, hi), lo, hi) <==>
              lo <= x < hi && Covers(RangesOf(written), x) && RolloverNs(gaps, x)
  {
    hide SameDay;
    var explicit := ExplicitInvalid(gaps, lo, hi);
    if lo <= x < hi && Covers(RangesOf(written), x) {
      if Covers(Invalid(gaps, written, lo, hi), x) {
        ExtensionAddsNoOverlap(explicit, RangesOf(written), hi, x);
        ConflictIsRollover(start, events, day, gaps, written, lo, hi, x);
      }
      if RolloverNs(gaps, x) {
        RolloverIsInvalid(gaps, lo, hi, x);
        ExplicitInsideWindow(gaps, lo, hi);
        ExtensionKeeps(explicit, RangesOf(written), hi, x);
      }
    }
  }

  lemma RolloverIsInvalid(gaps: seq<GapEvent>, lo: int, hi: int, x: int)
    requires RolloverNs(gaps, x) && lo <= x < hi
    ensures Covers(ExplicitInvalid(gaps, lo, hi), x)
  {
    var j, k :| 0 <= j < k < |gaps| && Pair(gaps, j, k) && gaps[k].detail == CONTINUES
                && ReplayNs(gaps[k]) == x && ReplayNs(gaps[j]) <= x;
    assert InClosedGap(gaps, x);
    ReplayExact(gaps, lo, hi, x);
  }

  lemma ExplicitInsideWindow(gaps: seq<GapEvent>, lo: int, hi: int)
    ensures var ranges := ExplicitInvalid(gaps, lo, hi);
            forall i :: 0 <= i < |ranges| ==> ranges[i].end <= hi
  {
    var state := Replay(gaps, |gaps|);
    var all := state.ranges + StillOpen(state.unclosed, hi);
    hide Replay;
    ClipAllNonEmpty(all, lo, hi);
    forall i | 0 <= i < |ClipAll(all, lo, hi)|
      ensures ClipAll(all, lo, hi)[i].end <= hi
    {
      assert ClipAll(all, lo, hi)[i] in ClipAll(all, lo, hi);
    }
  }

  /** The written intervals cover a moment exactly when one of them is written for a connection. */
  lemma CoversWritten(written: seq<Interval>, x: int)
    ensures Covers(RangesOf(written), x) <==> exists c :: WrittenAt(written, c, x)
  {
    if Covers(RangesOf(written), x) {
      var i :| 0 <= i < |RangesOf(written)| && RangesOf(written)[i].Has(x);
      assert Has(written[i], written[i].connectionId, x);
      assert WrittenAt(written, written[i].connectionId, x);
    }
    if c :| WrittenAt(written, c, x) {
      var k :| 0 <= k < |written| && Has(written[k], c, x);
      assert RangesOf(written)[k].Has(x);
    }
  }

  /**
   The conflicting moments of a day, told from the day's own states. In segment `i` a moment is
   counted as valid by the reconstructor and as invalid by the finalizer exactly when a rollover
   closes a gap at that nanosecond, some connection is authoritative once every fact of that
   nanosecond is in, and no later CLOSED fact drops the interval that is open then.
   */
  lemma ConflictsExactly(start: Day, events: seq<Event>, day: L2DayProofs.Span, gaps: seq<GapEvent>,
                         written: seq<Interval>, lo: int, hi: int, i: nat, x: int)
    requires SameDay(start, events, day, gaps, written) && hi <= day.endNs
    requires i <= |events| && Edge(events, day, i) <= x < Edge(events, day, i + 1)
    ensures x in Within(RangesOf(written), lo, hi) * Within(Invalid(gaps, written, lo, hi), lo, hi) <==>
              && lo <= x < hi && RolloverNs(gaps, x)
              && After(start, events, i).authority.Some? && Undropped(start, events, i, |events|, x)
  {
    ConflictsAreRollovers(start, events, day, gaps, written, lo, hi, x);
    CoversWritten(written, x);
    hide Within, RolloverNs, Covers, WrittenAt, Undropped, Written, After, DaySound, TimesSorted, Edge, RangesOf, Invalid;
    forall c
      ensures WrittenAt(written, c, x) <==>
                After(start, events, i).authority == Some(c) && Undropped(start, events, i, |events|, x)
    {
      WrittenExactly(start, events, day, i, c, x);
    }
    if After(start, events, i).authority.Some? && Undropped(start, events, i, |events|, x) {
      assert WrittenAt(written, After(start, events, i).authority.value, x);
    }
  }

  /** A CLOSED fact reopens validity: no other gap is open and the last VALID book still is. */
  ghost predicate Reopens(state: Day, gap: GapEvent) {
    && state.activeGaps == {gap.gapId}
    && state.lastValid.Some? && state.lastValid.value in state.books
    && state.books[state.lastValid.value].state == L2Book.VALID
  }

  lemma ClosedReopensExactly(state: Day, gap: GapEvent, from: int, now: int)
    requires DaySound(state, from, now) && !gap.open && gap.gapId in state.activeGaps
    ensures OnGap(state, gap).authority.Some? <==> Reopens(state, gap)
  {
    hide SoundBooks;
    if state.activeGaps - {gap.gapId} == {} {
      forall id | id in state.activeGaps
        ensures id == gap.gapId
      {
        assert id !in state.activeGaps - {gap.gapId};
      }
      assert state.activeGaps == {gap.gapId};
    }
  }

  /** The ledger's pair is open when its CLOSED fact arrives. */
  lemma PairIsOpen(start: Day, events: seq<Event>, day: L2DayProofs.Span, gaps: seq<GapEvent>, j: nat, k: nat, m: nat)
    requires TimesSorted(events, day) && gaps == GapsOf(events)
    requires j < k < |gaps| && Pair(gaps, j, k)
    requires m < |events| && events[m] == GapFact(gaps[k]) && Rank(events, m) == k
    ensures gaps[k].gapId in After(start, events, m).activeGaps
    ensures !gaps[k].open && gaps[j].EffectiveNs() <= events[m].Time()
  {
    hide After;
    var from := PlaceOf(events, j);
    if m <= from {
      RankSteps(events, m, from);
    }
    LedgerOpenThrough(events, gaps, j, k, from, m);
    GapStaysActive(start, events, gaps[j].gapId, from, m);
  }

  /**
   When a rollover closes the ledger's gap at event `m`, the last one of its nanosecond, that
   nanosecond is in conflict exactly when the guard of the closing branch holds: the gap is the only
   one still open and the last VALID book is VALID again (and no later CLOSED fact drops it).
   */
  lemma RolloverConflictExactly(start: Day, events: seq<Event>, day: L2DayProofs.Span, gaps: seq<GapEvent>,
                                written: seq<Interval>, lo: int, hi: int, j: nat, k: nat, m: nat)
    requires SameDay(start, events, day, gaps, written) && hi <= day.endNs
    requires j < k < |gaps| && Pair(gaps, j, k) && gaps[k].detail == CONTINUES
    requires m < |events| && events[m] == GapFact(gaps[k]) && Rank(events, m) == k
    requires lo <= events[m].Time() < hi && events[m].Time() < Edge(events, day, m + 2)
    ensures events[m].Time() in Within(RangesOf(written), lo, hi) * Within(Invalid(gaps, written, lo, hi), lo, hi) <==>
              Reopens(After(start, events, m), gaps[k]) && Undropped(start, events, m + 1, |events|, events[m].Time())
  {
    hide Within, RangesOf, Invalid, Undropped, Written, Reopens, Pair;
    var x := events[m].Time();
    PairIsOpen(start, events, day, gaps, j, k, m);
    var from := PlaceOf(events, j);
    SameTime(events, day, from);
    SameTime(events, day, m);
    assert RolloverNs(gaps, x);
    TracedUpTo(start, events, day, m);
    ClosedReopensExactly(After(start, events, m), gaps[k], day.startNs, Edge(events, day, m));
    assert After(start, events, m + 1) == OnGap(After(start, events, m), gaps[k]);
    hide After, OnGap, DaySound, RolloverNs;
    ConflictsExactly(start, events, day, gaps, written, lo, hi, m + 1, x);
  }

  /**
   Without a gap that was rolled over midnight the two sides agree: the conflicting duration is
   zero, and the reconstructor's intervals pass the finalizer's validity check.
   */
  lemma FinalizerAgrees(start: Day, events: seq<Event>, day: L2DayProofs.Span, gaps: seq<GapEvent>,
                        written: seq<Interval>, lo: int, hi: int)
    requires SameDay(start, events, day, gaps, written) && hi <= day.endNs
    requires forall k :: 0 <= k < |gaps| ==> gaps[k].detail != CONTINUES
    ensures |Within(RangesOf(written), lo, hi) * Within(Invalid(gaps, written, lo, hi), lo, hi)| == 0
  {
    hide SameDay, Within, Invalid;
    var conflict := Within(RangesOf(written), lo, hi) * Within(Invalid(gaps, written, lo, hi), lo, hi);
    forall x
      ensures x !in conflict
    {
      ConflictsAreRollovers(start, events, day, gaps, written, lo, hi, x);
    }
    assert conflict == {};
  }

  lemma ValidityAccepted(start: Day, events: seq<Event>, day: L2DayProofs.Span, gaps: seq<GapEvent>, written: seq<Interval>)
    requires SameDay(start, events, day, gaps, written) && Named(start)
    requires forall i :: 0 <= i < |events| && events[i].RowEvent? ==> events[i].row.Connection() != ""
    ensures WellOrdered(written, day.startNs, day.endNs)
  {
    hide DaySound, After, Written, Named;
    IntervalsValid(start, events, day);
    forall k | 0 <= k < |written|
      ensures written[k].connectionId != ""
    {
      Tiled(written[k], events, day, 0, |events| + 1);
      var i :| 0 <= i < |events| + 1 && MeetsSegment(written[k], events, day, i);
      NamedAfter(start, events, i);
      NamedIsNamed(After(start, events, i), written[k].connectionId);
    }
  }

  lemma NamedIsNamed(state: Day, c: string)
    requires Named(state) && InForce(state, c)
    ensures c != ""
  {
  }
}
