/**
 Soundness of a reconstructed day.

 The events of the day cut it into segments: segment i lasts from event i - 1 (the day's start for
 i = 0) to event i (the day's end for the last one), and `After(start, events, i)` is the state in
 force during it. Every statement about a moment of the day is a statement about its segment.
 */
module L2DayProofs {
  import opened Base
  import opened L2Book
  import opened L2Checkpoint
  import opened L2Day
  import R = L2Replay

  datatype Span = Span(startNs: int, endNs: int)

  ghost predicate TimesSorted(events: seq<Event>, day: Span) {
    && day.startNs <= day.endNs
    && (forall i :: 0 <= i < |events| ==> day.startNs <= events[i].Time() <= day.endNs)
    && (forall i, j :: 0 <= i < j < |events| ==> events[i].Time() <= events[j].Time())
  }

  /** The time at which segment `n` begins; segment n ends where segment n + 1 begins. */
  function Edge(events: seq<Event>, day: Span, n: nat): int {
    if n == 0 then day.startNs else if n <= |events| then events[n - 1].Time() else day.endNs
  }

  lemma EdgesSorted(events: seq<Event>, day: Span, a: nat, b: nat)
    requires TimesSorted(events, day) && a <= b <= |events| + 1
    ensures day.startNs <= Edge(events, day, a) <= Edge(events, day, b) <= day.endNs
  {
  }

  predicate Meets(interval: Interval, lo: int, hi: int) {
    Max(interval.fromNs, lo) < Min(interval.toNs, hi)
  }

  predicate MeetsSegment(interval: Interval, events: seq<Event>, day: Span, i: nat) {
    Meets(interval, Edge(events, day, i), Edge(events, day, i + 1))
  }

  /** Connection `c` has a VALID book and no transport gap is open. */
  predicate InForce(state: Day, c: string) {
    c in state.books && state.books[c].state == VALID && state.activeGaps == {}
  }

  // ---------------------------------------------------------------- the state invariant

  ghost predicate SoundBooks(state: Day, now: int) {
    forall c :: c in state.books ==> Sound(state.books[c], now) && state.books[c].connectionId == c
  }

  /** From the day's start, each interval begins no earlier than the previous one ends. */
  ghost predicate Ordered(intervals: seq<Interval>, from: int, to: int) {
    && (forall k :: 0 <= k < |intervals| ==> from <= intervals[k].fromNs <= intervals[k].toNs <= to)
    && (forall k, l :: 0 <= k < l < |intervals| ==> intervals[k].toNs <= intervals[l].fromNs)
  }

  ghost predicate DaySound(state: Day, from: int, now: int) {
    && from <= now
    && SoundBooks(state, now)
    && (state.authority.Some? <==> state.validFrom.Some?)
    && (state.authority.Some? ==>
          && InForce(state, state.authority.value)
          && from <= state.validFrom.value <= now)
    && Ordered(state.intervals, from, if state.validFrom.Some? then state.validFrom.value else now)
  }

  lemma OrderedLonger(intervals: seq<Interval>, from: int, to: int, last: Interval)
    requires Ordered(intervals, from, last.fromNs) && from <= last.fromNs <= last.toNs <= to
    ensures Ordered(intervals + [last], from, to)
  {
  }

  lemma EndedOrdered(state: Day, from: int, now: int, at: int, reason: string)
    requires DaySound(state, from, now) && now <= at
    ensures Ordered(Ended(state, at, reason), from, at)
  {
    if state.authority.Some? {
      OrderedLonger(state.intervals, from, at,
                    Interval(state.validFrom.value, at, state.authority.value, reason));
    }
  }

  lemma SoundLater(book: Book, now: int, later: int)
    requires Sound(book, now) && now <= later
    ensures Sound(book, later)
  {
  }

  lemma InvalidSound(book: Book, now: int)
    ensures Sound(Invalidate(book), now)
  {
  }

  lemma GapSound(state: Day, gap: GapEvent, from: int, now: int)
    requires DaySound(state, from, now) && now <= gap.EffectiveNs()
    ensures DaySound(OnGap(state, gap), from, gap.EffectiveNs())
  {
    hide Sound, Ended;
    var at := gap.EffectiveNs();
    if gap.open {
      EndedOrdered(state, from, now, at, "transport_gap");
      forall c | c in state.books
        ensures Sound(Invalidate(state.books[c]), at)
      {
        InvalidSound(state.books[c], at);
      }
    } else {
      forall c | c in state.books
        ensures Sound(state.books[c], at)
      {
        SoundLater(state.books[c], now, at);
      }
    }
  }

  lemma FeedSound(state: Day, row: Row, from: int, now: int)
    requires DaySound(state, from, now) && now <= row.ReceivedNs()
    ensures var book := BookOf(state, row.Connection());
            && Sound(Feed(book, row).book, row.ReceivedNs())
            && ChangeFits(book, Feed(book, row), row.ReceivedNs())
            && Feed(book, row).book.connectionId == row.Connection()
  {
    var book := BookOf(state, row.Connection());
    assert Sound(book, now);
    hide Sound, ChangeFits;
    match row
    case DepthRow(diff) => DiffSound(book, diff, now);
    case SnapshotRow(snapshot) => SnapshotSound(book, snapshot, now);
  }

  lemma StoredSound(state: Day, row: Row, from: int, now: int)
    requires DaySound(state, from, now) && now <= row.ReceivedNs()
    ensures var c := row.Connection();
            SoundBooks(Stored(state, c, Feed(BookOf(state, c), row).book), row.ReceivedNs())
  {
    hide Feed, Sound;
    FeedSound(state, row, from, now);
    forall c | c in state.books
      ensures Sound(state.books[c], row.ReceivedNs())
    {
      SoundLater(state.books[c], now, row.ReceivedNs());
    }
  }

  lemma RowSound(state: Day, row: Row, from: int, now: int)
    requires DaySound(state, from, now) && now <= row.ReceivedNs()
    ensures DaySound(OnRow(state, row), from, row.ReceivedNs())
  {
    hide Feed, Sound, Ended;
    var at := row.ReceivedNs();
    FeedSound(state, row, from, now);
    StoredSound(state, row, from, now);
    EndedOrdered(state, from, now, at, "connection_switch");
    var c := row.Connection();
    var outcome := Feed(BookOf(state, c), row);
    if outcome.change.Some? {
      EndedOrdered(state, from, now, at, outcome.change.value.reason);
      EndedIgnoresBooks(state, c, outcome.book, at, outcome.change.value.reason);
      EndedIgnoresBooks(state, c, outcome.book, at, "connection_switch");
    }
  }

  lemma EndedIgnoresBooks(state: Day, c: string, book: Book, at: int, reason: string)
    ensures Ended(Stored(state, c, book), at, reason) == Ended(state, at, reason)
  {
  }

  lemma EventSound(state: Day, event: Event, from: int, now: int)
    requires DaySound(state, from, now) && now <= event.Time()
    ensures DaySound(OnEvent(state, event), from, event.Time())
  {
    hide DaySound, OnGap, OnRow;
    match event
    case RowEvent(row) => RowSound(state, row, from, now);
    case GapFact(gap) => GapSound(state, gap, from, now);
  }

  // ---------------------------------------------------------------- what one event does to the intervals

  /** The intervals grow at most by the one that was open; a new open one starts now. */
  ghost predicate Advances(before: Day, after: Day, at: int) {
    && (after.intervals == before.intervals ||
        (before.authority.Some? && before.validFrom.Some? &&
         exists reason :: after.intervals == Ended(before, at, reason)))
    && (after.validFrom.None? || after.validFrom == Some(at) ||
        (after.validFrom == before.validFrom && after.authority == before.authority))
  }

  lemma Grows(before: Day, after: Day, at: int, reason: string)
    requires before.authority.Some? <==> before.validFrom.Some?
    requires after.intervals == before.intervals || after.intervals == Ended(before, at, reason)
    requires after.validFrom.None? || after.validFrom == Some(at) ||
             (after.validFrom == before.validFrom && after.authority == before.authority)
    ensures Advances(before, after, at)
  {
  }

  lemma EventAdvances(state: Day, event: Event, from: int, now: int)
    requires DaySound(state, from, now) && now <= event.Time()
    ensures Advances(state, OnEvent(state, event), event.Time())
  {
    hide Sound, Feed, Ended;
    match event
    case GapFact(gap) =>
      Grows(state, OnGap(state, gap), gap.EffectiveNs(), "transport_gap");
    case RowEvent(row) =>
      var c := row.Connection();
      FeedSound(state, row, from, now);
      var outcome := Feed(BookOf(state, c), row);
      if outcome.change.Some? {
        var change := outcome.change.value;
        EndedIgnoresBooks(state, c, outcome.book, change.atNs, change.reason);
        EndedIgnoresBooks(state, c, outcome.book, change.atNs, "connection_switch");
        EndsAuthority(state, row, from, now);
        Grows(state, OnRow(state, row), row.ReceivedNs(),
              if change.state == VALID then "connection_switch" else change.reason);
      }
  }

  /** A change that ends the authoritative book carries the time of its row. */
  lemma EndsAuthority(state: Day, row: Row, from: int, now: int)
    requires DaySound(state, from, now) && now <= row.ReceivedNs()
    requires Feed(BookOf(state, row.Connection()), row).change.Some?
    ensures var change := Feed(BookOf(state, row.Connection()), row).change.value;
            change.state == VALID || state.authority == Some(row.Connection()) ==>
              change.atNs == row.ReceivedNs()
  {
    hide Feed, Sound;
    FeedSound(state, row, from, now);
  }

  // ---------------------------------------------------------------- the whole day

  ghost predicate Covered(interval: Interval, start: Day, events: seq<Event>, day: Span, n: nat)
    requires n <= |events| + 1
  {
    forall i :: 0 <= i < n && MeetsSegment(interval, events, day, i) ==>
      InForce(After(start, events, i), interval.connectionId)
  }

  /** What holds once `n` events are done: see `IntervalsValid` for its meaning at the end. */
  ghost predicate Traced(start: Day, events: seq<Event>, day: Span, n: nat)
    requires n <= |events|
  {
    var state := After(start, events, n);
    && DaySound(state, day.startNs, Edge(events, day, n))
    && (forall k :: 0 <= k < |state.intervals| ==> Covered(state.intervals[k], start, events, day, n))
    && (state.authority.Some? && state.validFrom.Some? ==>
          forall i :: 0 <= i <= n && Edge(events, day, i + 1) > state.validFrom.value ==>
            InForce(After(start, events, i), state.authority.value))
  }

  lemma EndedCovered(start: Day, events: seq<Event>, day: Span, n: nat, reason: string)
    requires TimesSorted(events, day) && n <= |events| && Traced(start, events, day, n)
    requires After(start, events, n).authority.Some? && After(start, events, n).validFrom.Some?
    ensures var state := After(start, events, n);
            Covered(Interval(state.validFrom.value, Edge(events, day, n + 1), state.authority.value, reason),
                    start, events, day, n + 1)
  {
  }

  /** An interval that ends by segment `n` is covered there too. */
  lemma CoveredLater(interval: Interval, start: Day, events: seq<Event>, day: Span, n: nat)
    requires TimesSorted(events, day) && n <= |events|
    requires Covered(interval, start, events, day, n) && interval.toNs <= Edge(events, day, n)
    ensures Covered(interval, start, events, day, n + 1)
  {
  }

  lemma {:induction false} TracedUpTo(start: Day, events: seq<Event>, day: Span, n: nat)
    requires TimesSorted(events, day) && n <= |events|
    requires DaySound(start, day.startNs, day.startNs) && start.intervals == []
    ensures Traced(start, events, day, n)
  {
    hide Sound, OnGap, OnRow, Ended;
    if n > 0 {
      TracedUpTo(start, events, day, n - 1);
      TracedStep(start, events, day, n - 1);
    }
  }

  lemma IntervalsCovered(start: Day, events: seq<Event>, day: Span, n: nat)
    requires TimesSorted(events, day) && n < |events| && Traced(start, events, day, n)
    requires Advances(After(start, events, n), After(start, events, n + 1), events[n].Time())
    ensures var intervals := After(start, events, n + 1).intervals;
            forall k :: 0 <= k < |intervals| ==> Covered(intervals[k], start, events, day, n + 1)
  {
    hide Sound, Covered, After;
    var before, after := After(start, events, n), After(start, events, n + 1);
    forall k | 0 <= k < |before.intervals|
      ensures Covered(before.intervals[k], start, events, day, n + 1)
    {
      CoveredLater(before.intervals[k], start, events, day, n);
    }
    if after.intervals != before.intervals {
      var reason :| after.intervals == Ended(before, events[n].Time(), reason);
      EndedCovered(start, events, day, n, reason);
    }
  }

  lemma TracedStep(start: Day, events: seq<Event>, day: Span, n: nat)
    requires TimesSorted(events, day) && n < |events| && Traced(start, events, day, n)
    ensures Traced(start, events, day, n + 1)
  {
    hide Sound, OnGap, OnRow, Ended, Covered, Ordered;
    var before, after := After(start, events, n), After(start, events, n + 1);
    EdgesSorted(events, day, n, n + 1);
    EventSound(before, events[n], day.startNs, Edge(events, day, n));
    EventAdvances(before, events[n], day.startNs, Edge(events, day, n));
    IntervalsCovered(start, events, day, n);
    if after.validFrom.Some? {
      forall i | 0 <= i <= n + 1 && Edge(events, day, i + 1) > after.validFrom.value
        ensures InForce(After(start, events, i), after.authority.value)
      {
        if i <= n {
          EdgesSorted(events, day, i + 1, n + 1);
        }
      }
    }
  }

  // ---------------------------------------------------------------- the written intervals

  lemma {:induction false} NonEmptyElements(intervals: seq<Interval>)
    ensures forall iv :: iv in NonEmpty(intervals) <==> iv in intervals && iv.fromNs < iv.toNs
  {
    if intervals != [] {
      var init := intervals[..|intervals| - 1];
      NonEmptyElements(init);
      assert intervals == init + [intervals[|intervals| - 1]];
    }
  }

  lemma OrderedInit(intervals: seq<Interval>, from: int, to: int)
    requires Ordered(intervals, from, to) && intervals != []
    ensures Ordered(intervals[..|intervals| - 1], from, intervals[|intervals| - 1].fromNs)
  {
  }

  lemma {:induction false} NonEmptyOrdered(intervals: seq<Interval>, from: int, to: int)
    requires Ordered(intervals, from, to)
    ensures Ordered(NonEmpty(intervals), from, to)
  {
    if intervals != [] {
      var last := intervals[|intervals| - 1];
      OrderedInit(intervals, from, to);
      NonEmptyOrdered(intervals[..|intervals| - 1], from, last.fromNs);
      OrderedLonger(NonEmpty(intervals[..|intervals| - 1]), from, to, last);
    }
  }

  /**
   The written intervals are non-empty, ordered, disjoint and inside the day, and throughout each
   of them the named connection's book is VALID and no transport gap is open.
   */
  lemma IntervalsValid(start: Day, events: seq<Event>, day: Span)
    requires TimesSorted(events, day)
    requires DaySound(start, day.startNs, day.startNs) && start.intervals == []
    ensures var written := Written(After(start, events, |events|), day.endNs);
            && Ordered(written, day.startNs, day.endNs)
            && (forall k :: 0 <= k < |written| ==> written[k].fromNs < written[k].toNs)
            && (forall k, i :: 0 <= k < |written| && 0 <= i <= |events| && MeetsSegment(written[k], events, day, i) ==>
                  InForce(After(start, events, i), written[k].connectionId))
  {
    hide Sound, After, Covered;
    var n := |events|;
    TracedUpTo(start, events, day, n);
    EdgesSorted(events, day, n, n + 1);
    var state := After(start, events, n);
    var all := Ended(state, day.endNs, "utc_day_end");
    EndedOrdered(state, day.startNs, Edge(events, day, n), day.endNs, "utc_day_end");
    forall k | 0 <= k < |all|
      ensures Covered(all[k], start, events, day, n + 1)
    {
      if k < |state.intervals| {
        CoveredLater(all[k], start, events, day, n);
      } else {
        EndedCovered(start, events, day, n, "utc_day_end");
      }
    }
    NonEmptyElements(all);
    NonEmptyOrdered(all, day.startNs, day.endNs);
    WrittenCovered(all, start, events, day);
  }

  lemma WrittenCovered(all: seq<Interval>, start: Day, events: seq<Event>, day: Span)
    requires forall k :: 0 <= k < |all| ==> Covered(all[k], start, events, day, |events| + 1)
    requires forall iv :: iv in NonEmpty(all) <==> iv in all && iv.fromNs < iv.toNs
    ensures var written := NonEmpty(all);
            && (forall k :: 0 <= k < |written| ==> written[k].fromNs < written[k].toNs)
            && (forall k, i :: 0 <= k < |written| && 0 <= i <= |events| && MeetsSegment(written[k], events, day, i) ==>
                  InForce(After(start, events, i), written[k].connectionId))
  {
    var written := NonEmpty(all);
    forall k | 0 <= k < |written|
      ensures written[k].fromNs < written[k].toNs
      ensures Covered(written[k], start, events, day, |events| + 1)
    {
      assert written[k] in all;
    }
  }

  // ---------------------------------------------------------------- transport gaps

  /** Event `j` opens gap `id` and no event before `k` closes it. */
  ghost predicate OpenThrough(events: seq<Event>, id: string, j: nat, k: nat)
    requires j < k <= |events|
  {
    && events[j].GapFact? && events[j].gap.open && events[j].gap.gapId == id
    && forall i :: j < i < k ==> !(events[i].GapFact? && !events[i].gap.open && events[i].gap.gapId == id)
  }

  lemma {:induction false} GapStaysActive(start: Day, events: seq<Event>, id: string, j: nat, k: nat)
    requires j < k <= |events| && OpenThrough(events, id, j, k)
    ensures id in After(start, events, k).activeGaps
  {
    hide Feed, Ended;
    if k > j + 1 {
      GapStaysActive(start, events, id, j, k - 1);
      match events[k - 1] {
        case RowEvent(row) =>
        case GapFact(gap) =>
      }
    }
  }

  /** Consecutive segments tile the time between their outer edges. */
  lemma {:induction false} Tiled(interval: Interval, events: seq<Event>, day: Span, a: nat, b: nat)
    requires TimesSorted(events, day) && a < b <= |events| + 1
    requires Meets(interval, Edge(events, day, a), Edge(events, day, b))
    ensures exists i :: a <= i < b && MeetsSegment(interval, events, day, i)
    decreases b
  {
    EdgesSorted(events, day, a, b - 1);
    if !MeetsSegment(interval, events, day, b - 1) {
      EdgesSorted(events, day, b - 1, b);
      Tiled(interval, events, day, a, b - 1);
    }
  }

  /**
   No written interval meets the span from a gap's effective OPEN (event `j`) to its observed
   CLOSED (event `k`), or to the end of the day when the gap is never closed (`k` the length).
   */
  lemma IntervalsAvoidGaps(start: Day, events: seq<Event>, day: Span, id: string, j: nat, k: nat, interval: Interval)
    requires TimesSorted(events, day)
    requires DaySound(start, day.startNs, day.startNs) && start.intervals == []
    requires j < k <= |events| && OpenThrough(events, id, j, k)
    requires interval in Written(After(start, events, |events|), day.endNs)
    ensures !Meets(interval, events[j].Time(), if k < |events| then events[k].Time() else day.endNs)
  {
    hide DaySound, After, Written;
    IntervalsValid(start, events, day);
    if Meets(interval, events[j].Time(), if k < |events| then events[k].Time() else day.endNs) {
      Tiled(interval, events, day, j + 1, k + 1);
      var i :| j + 1 <= i < k + 1 && MeetsSegment(interval, events, day, i);
      assert InForce(After(start, events, i), interval.connectionId);
      assert OpenThrough(events, id, j, i);
      GapStaysActive(start, events, id, j, i);
    }
  }
}
