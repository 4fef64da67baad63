/**
 Runs that reach the cases in which the code does not do what it promises: each one starts from
 nothing and has a handful of inputs.
 */
module Witnesses {
  import opened Base
  import opened L2Book
  import opened L2Replay
  import opened L2Race
  import opened L2Checkpoint
  import opened L2Day
  import opened L2DayProofs
  import C = L2DayChain
  import A = Agreement
  import opened GapReplay
  import Coverage

  /** A snapshot with one level on each side. */
  function Snap(ns: int, id: int): DepthSnapshot {
    DepthSnapshot("c", ns, ns, id, [Level(1.0, 1.0)], [Level(2.0, 1.0)])
  }

  /** A diff that covers snapshot id `id` and brings no level. */
  function Bridge(ns: int, id: int): DepthDiff {
    DepthDiff("c", ns, ns, id - 1, id, id - 2, "bridge", [], [])
  }

  /** The book once `Snap(ns, id)` has reached it and its bridge has not. */
  function Anchored(book: Book, ns: int, id: int): Book {
    book.(bids := map[1.0 := 1.0], asks := map[2.0 := 1.0], previousUpdateId := Some(id),
          anchor := Some(id), anchorNs := Some(ns))
  }

  // ---------------------------------------------------------------- short steps of a book

  lemma RunOfThree(book: Book, a: Input, b: Input, c: Input)
    ensures Run(book, [a, b, c]) == Step(Step(Step(book, a).book, b).book, c).book
  {
    hide Step;
    assert [a, b, c][..2] == [a, b] && [a, b][..1] == [a] && [a][..0] == [];
    assert Run(book, [a]) == Step(book, a).book;
  }

  lemma RunOfFour(book: Book, a: Input, b: Input, c: Input, d: Input)
    ensures Run(book, [a, b, c, d]) == Step(Step(Step(Step(book, a).book, b).book, c).book, d).book
  {
    RunOfThree(book, a, b, c);
    hide Step;
    assert [a, b, c, d][..3] == [a, b, c];
  }

  /** No bridge and no anchor: the diff waits. */
  lemma Waits(book: Book, diff: DepthDiff)
    requires book.state != VALID && book.anchor.None? && diff.Identity() !in book.seen
    ensures OnDiff(book, diff) ==
              Outcome(book.(seen := book.seen + {diff.Identity()}, pending := book.pending + [diff]), None)
  {
    hide SortBySeq, NotBefore, FirstCovering, ApplyChain;
  }

  lemma Anchors(book: Book, ns: int, id: int)
    requires book.pending == [] && book.state != VALID
    ensures OnSnapshot(book, Snap(ns, id)) == Outcome(Anchored(book, ns, id), None)
  {
    var bids, asks := Snap(ns, id).bids, Snap(ns, id).asks;
    assert bids[..0] == [] && asks[..0] == [];
    assert BookSide(bids) == map[1.0 := 1.0];
    assert BookSide(asks) == map[2.0 := 1.0];
  }

  lemma TwoSided(book: Book, ns: int, id: int)
    ensures Anchored(book, ns, id).bids != map[] && Anchored(book, ns, id).asks != map[]
  {
    assert Anchored(book, ns, id).bids[1.0] == 1.0 && Anchored(book, ns, id).asks[2.0] == 1.0;
  }

  /** The shortest way to a VALID book: the buffer is empty and the diff covers the anchor. */
  lemma BridgesAlone(book: Book, diff: DepthDiff)
    requires book.state != VALID && book.pending == [] && diff.Identity() !in book.seen
    requires book.anchor.Some? && book.anchorNs.Some? && diff.Covers(book.anchor.value)
    ensures OnDiff(book, diff) ==
              Outcome(ApplyDiff(book, diff).(seen := book.seen + {diff.Identity()}, state := VALID,
                                             anchor := None, anchorNs := None),
                      Some(StateChange(book.connectionId, Max(book.anchorNs.value, diff.receivedNs), VALID,
                                       Some(diff.final), "snapshot_bridge")))
  {
    hide ApplyLevels;
    var noted := book.(seen := book.seen + {diff.Identity()}, pending := [diff]);
    assert book.pending + [diff] == [diff];
    SortedIsFixed([diff]);
    assert [diff][..0] == [];
    assert NotBefore([diff], book.anchor.value) == [diff];
    assert ApplyChain(ApplyDiff(noted, diff), []) == Linked(ApplyDiff(noted, diff));
    assert [diff][1..] == [];
  }

  // ---------------------------------------------------------------- restored books

  /**
   A diff seen before a gap continues the VALID book that the next snapshot leads to. Delivered
   again, it is ignored by the original and moves the restored book to another ladder, and neither
   reports a change.
   */
  lemma RepeatMovesRestoredBook() returns (inputs: seq<Input>, diff: DepthDiff)
    ensures var book := Run(FreshBook("c"), inputs);
            && book.state == VALID && book.anchor.None? && book.bids != map[] && book.asks != map[]
            && OnDiff(book, diff) == Outcome(book, None)
            && OnDiff(book.(seen := {}), diff).change == None
            && OnDiff(book.(seen := {}), diff).book.bids != book.bids
            && OnDiff(book.(seen := {}), diff).book.previousUpdateId != book.previousUpdateId
  {
    diff := DepthDiff("c", 1, 1, 11, 12, 10, "old", [Level(1.0, 5.0)], []);
    inputs := [DiffIn(diff), GapIn, SnapshotIn(Snap(3, 10)), DiffIn(Bridge(4, 10))];
    RunOfFour(FreshBook("c"), DiffIn(diff), GapIn, SnapshotIn(Snap(3, 10)), DiffIn(Bridge(4, 10)));
    hide Run;
    Waits(FreshBook("c"), diff);
    var gapped := Invalidate(FreshBook("c")).(seen := {diff.Identity()});
    assert Invalidate(OnDiff(FreshBook("c"), diff).book) == gapped;
    Anchors(gapped, 3, 10);
    var anchored := Anchored(gapped, 3, 10);
    TwoSided(gapped, 3, 10);
    assert anchored.bids[1.0] == 1.0;
    BridgesAlone(anchored, Bridge(4, 10));
    hide OnSnapshot, TryBridge;
    assert ApplyLevels(anchored.bids, []) == anchored.bids;
    assert ApplyLevels(anchored.asks, []) == anchored.asks;
  }

  /**
   A diff seen before a gap bridges the snapshot after it. Delivered again, it is ignored by the
   original, which goes on waiting, and makes the restored book VALID.
   */
  lemma RepeatBridgesRestoredBook() returns (inputs: seq<Input>, diff: DepthDiff)
    ensures var book := Run(FreshBook("c"), inputs);
            && book.state == GAPPED && IsAnchored(book)
            && OnDiff(book, diff) == Outcome(book, None)
            && OnDiff(book.(seen := {}), diff).book.state == VALID
  {
    diff := DepthDiff("c", 1, 1, 9, 12, 8, "old", [], []);
    inputs := [DiffIn(diff), GapIn, SnapshotIn(Snap(3, 10))];
    RunOfThree(FreshBook("c"), DiffIn(diff), GapIn, SnapshotIn(Snap(3, 10)));
    hide Run;
    Waits(FreshBook("c"), diff);
    var gapped := Invalidate(FreshBook("c")).(seen := {diff.Identity()});
    assert Invalidate(OnDiff(FreshBook("c"), diff).book) == gapped;
    Anchors(gapped, 3, 10);
    TwoSided(gapped, 3, 10);
    BridgesAlone(Anchored(gapped, 3, 10).(seen := {}), diff);
  }

  /**
   A snapshot on a VALID book leaves it VALID and anchored, and the day that ends like this cannot
   build its checkpoint.
   */
  lemma CheckpointRaises(dayEndNs: int) returns (inputs: seq<Input>)
    ensures var book := Run(FreshBook("c"), inputs);
            && book.state == VALID && IsAnchored(book)
            && BuildCheckpoint(Some(book), [book], dayEndNs).Err?
  {
    var bridge := DepthDiff("c", 4, 4, 5, 12, 4, "bridge", [], []);
    var again := Snap(5, 12);
    inputs := [SnapshotIn(Snap(3, 10)), DiffIn(bridge), SnapshotIn(again)];
    RunOfThree(FreshBook("c"), SnapshotIn(Snap(3, 10)), DiffIn(bridge), SnapshotIn(again));
    hide Run;
    Anchors(FreshBook("c"), 3, 10);
    BridgesAlone(Anchored(FreshBook("c"), 3, 10), bridge);
    var live := OnDiff(Anchored(FreshBook("c"), 3, 10), bridge).book;
    hide OnDiff;
    assert live.state == VALID && live.pending == [];
    assert BookSide(again.bids)[1.0] == 1.0 && BookSide(again.asks)[2.0] == 1.0;
    assert SortBySeq([]) == [] && NotBefore([], 12) == [];
  }

  // ---------------------------------------------------------------- short steps of a day

  /** The book of connection `c` can be anchored. */
  ghost predicate Open(state: Day, id: int) {
    var book := BookOf(state, "c");
    && book.state != VALID && book.pending == [] && book.connectionId == "c"
    && Bridge(0, id).Identity() !in book.seen
  }

  /** Connection `c` after `Bridge(ns, id)` on the book that `Snap` has anchored. */
  function Bridged(book: Book, id: int): Book {
    book.(bids := map[1.0 := 1.0], asks := map[2.0 := 1.0], previousUpdateId := Some(id), state := VALID,
          seen := book.seen + {Bridge(0, id).Identity()}, anchor := None, anchorNs := None)
  }

  function Recovered(state: Day, ns: int, id: int): Day {
    OnChange(Stored(state, "c", Bridged(BookOf(state, "c"), id)), "c",
             StateChange("c", ns + 1, VALID, Some(id), "snapshot_bridge"))
  }

  /** A snapshot and its bridge make connection `c` VALID. */
  lemma Recovers(state: Day, ns: int, id: int)
    requires Open(state, id)
    ensures OnRow(OnRow(state, SnapshotRow(Snap(ns, id))), DepthRow(Bridge(ns + 1, id))) == Recovered(state, ns, id)
  {
    var book := BookOf(state, "c");
    Anchors(book, ns, id);
    BridgesAlone(Anchored(book, ns, id), Bridge(ns + 1, id));
    hide OnSnapshot, OnDiff, OnChange;
    var anchored := Stored(state, "c", Anchored(book, ns, id));
    assert OnRow(state, SnapshotRow(Snap(ns, id))) == anchored;
    assert BookOf(anchored, "c") == Anchored(book, ns, id);
    assert ApplyLevels(map[1.0 := 1.0], []) == map[1.0 := 1.0] && ApplyLevels(map[2.0 := 1.0], []) == map[2.0 := 1.0];
    var live := Bridged(book, id);
    assert anchored.books["c" := live] == state.books["c" := live];
  }

  // ---------------------------------------------------------------- two days

  const DAY := Span(1, 100)

  function Fact(open: bool, ns: int, detail: string): GapEvent {
    GapEvent("g", open, ns, None, "websocket", detail)
  }

  /** Connection `c` becomes VALID at 3, and a gap that was never opened is closed at 50. */
  function StrayDay(): (events: seq<Event>)
    ensures |events| == 3
  {
    [RowEvent(SnapshotRow(Snap(2, 10))), RowEvent(DepthRow(Bridge(3, 10))), GapFact(Fact(false, 50, ""))]
  }

  /** Connection `c` becomes VALID at 3, and again at 6 inside a gap that a rollover closes at 99. */
  function RolloverDay(): (events: seq<Event>)
    ensures |events| == 6
  {
    [RowEvent(SnapshotRow(Snap(2, 10))), RowEvent(DepthRow(Bridge(3, 10))), GapFact(Fact(true, 4, "")),
     RowEvent(SnapshotRow(Snap(5, 20))), RowEvent(DepthRow(Bridge(6, 20))), GapFact(Fact(false, 99, CONTINUES))]
  }

  lemma Next(events: seq<Event>, n: nat)
    requires n < |events|
    ensures After(EMPTY_DAY, events, n + 1) == OnEvent(After(EMPTY_DAY, events, n), events[n])
  {
  }

  lemma AfterTwo(events: seq<Event>)
    requires |events| >= 2
    requires events[0] == RowEvent(SnapshotRow(Snap(2, 10))) && events[1] == RowEvent(DepthRow(Bridge(3, 10)))
    ensures After(EMPTY_DAY, events, 2) == Recovered(EMPTY_DAY, 2, 10)
  {
    hide OnRow, Recovered;
    Recovers(EMPTY_DAY, 2, 10);
    assert After(EMPTY_DAY, events, 1) == OnRow(EMPTY_DAY, SnapshotRow(Snap(2, 10)));
  }

  lemma FirstRecovery()
    ensures var live := Recovered(EMPTY_DAY, 2, 10);
            && live.books == map["c" := Bridged(FreshBook("c"), 10)] && live.intervals == [] && live.activeGaps == {}
            && live.authority == Some("c") && live.validFrom == Some(3) && live.lastValid == Some("c")
  {
  }

  lemma StrayEvents()
    ensures StrayDay()[0] == RowEvent(SnapshotRow(Snap(2, 10))) && StrayDay()[1] == RowEvent(DepthRow(Bridge(3, 10)))
    ensures StrayDay()[2] == GapFact(Fact(false, 50, ""))
    ensures TimesSorted(StrayDay(), DAY)
  {
  }

  lemma ClosesStray(live: Day)
    requires live.books == map["c" := Bridged(FreshBook("c"), 10)] && live.intervals == [] && live.activeGaps == {}
    requires live.authority == Some("c") && live.validFrom == Some(3) && live.lastValid == Some("c")
    ensures Written(OnGap(live, Fact(false, 50, "")), 100) == [Interval(50, 100, "c", "utc_day_end")]
    ensures C.Drops(live, GapFact(Fact(false, 50, ""))) && InForce(live, "c")
  {
    assert live.activeGaps - {"g"} == {};
    var all := [Interval(50, 100, "c", "utc_day_end")];
    assert Ended(OnGap(live, Fact(false, 50, "")), 100, "utc_day_end") == [] + all == all;
    assert all[..0] == [] && NonEmpty([]) == [];
  }

  /** The CLOSED fact loses the validity from 3 to 50, although the book was VALID all the time. */
  lemma StrayCloseLosesTime()
    ensures TimesSorted(StrayDay(), DAY)
    ensures var live := After(EMPTY_DAY, StrayDay(), 2);
            && InForce(live, "c") && live.authority == Some("c") && live.validFrom == Some(3)
            && C.Drops(live, StrayDay()[2])
    ensures Written(After(EMPTY_DAY, StrayDay(), 3), DAY.endNs) == [Interval(50, 100, "c", "utc_day_end")]
  {
    hide StrayDay, After, Recovered, Bridged, OnGap, TimesSorted, Written, InForce, C.Drops;
    StrayEvents();
    AfterTwo(StrayDay());
    FirstRecovery();
    Next(StrayDay(), 2);
    ClosesStray(Recovered(EMPTY_DAY, 2, 10));
  }

  lemma OpensGap(state: Day)
    requires state.books == map["c" := Bridged(FreshBook("c"), 10)] && state.activeGaps == {}
    ensures var gapped := OnGap(state, Fact(true, 4, ""));
            gapped.activeGaps == {"g"} && gapped.authority.None? && Open(gapped, 20)
  {
    hide GapChanges, Ended;
    var gapped := OnGap(state, Fact(true, 4, ""));
    assert BookOf(gapped, "c") == Invalidate(Bridged(FreshBook("c"), 10));
    assert gapped.activeGaps == {"g"};
    assert Bridge(0, 20).Identity().final == 20 && Bridge(0, 10).Identity().final == 10;
  }

  lemma RolloverEvents()
    ensures var events := RolloverDay();
            && events[0] == RowEvent(SnapshotRow(Snap(2, 10))) && events[1] == RowEvent(DepthRow(Bridge(3, 10)))
            && events[2] == GapFact(Fact(true, 4, "")) && events[3] == RowEvent(SnapshotRow(Snap(5, 20)))
            && events[4] == RowEvent(DepthRow(Bridge(6, 20))) && events[5] == GapFact(Fact(false, 99, CONTINUES))
  {
  }

  lemma AfterOpen()
    ensures var gapped := After(EMPTY_DAY, RolloverDay(), 3);
            gapped.activeGaps == {"g"} && gapped.authority.None? && Open(gapped, 20)
  {
    hide RolloverDay, After, OnGap, Open, Bridged, Recovered;
    var events := RolloverDay();
    RolloverEvents();
    AfterTwo(events);
    Next(events, 2);
    FirstRecovery();
    OpensGap(Recovered(EMPTY_DAY, 2, 10));
  }

  lemma SecondRecovery(gapped: Day)
    requires gapped.activeGaps == {"g"}
    ensures var state := Recovered(gapped, 5, 20);
            A.Reopens(state, Fact(false, 99, CONTINUES)) && state.lastValid == Some("c")
  {
  }

  lemma AfterFive()
    ensures var state := After(EMPTY_DAY, RolloverDay(), 5);
            A.Reopens(state, Fact(false, 99, CONTINUES)) && state.lastValid == Some("c")
  {
    hide RolloverDay, After, OnRow, Open, Recovered, A.Reopens;
    var events := RolloverDay();
    RolloverEvents();
    AfterOpen();
    Next(events, 3);
    Next(events, 4);
    var gapped := After(EMPTY_DAY, events, 3);
    Recovers(gapped, 5, 20);
    SecondRecovery(gapped);
  }

  lemma RolloverReopens()
    ensures After(EMPTY_DAY, RolloverDay(), 6).authority == Some("c")
  {
    hide RolloverDay, After;
    var events := RolloverDay();
    RolloverEvents();
    AfterFive();
    Next(events, 5);
    assert {"g"} - {"g"} == {};
  }

  lemma RolloverDayFits()
    ensures TimesSorted(RolloverDay(), DAY) && |RolloverDay()| == 6
    ensures Edge(RolloverDay(), DAY, 6) == 99 && Edge(RolloverDay(), DAY, 7) == 100
    ensures A.RolloverNs(C.GapsOf(RolloverDay()), 99)
  {
    GapsOfRollover();
    hide C.GapsOf;
    assert Pair(C.GapsOf(RolloverDay()), 0, 1);
  }

  /** Nanosecond 99 is written as valid, and the finalizer counts it as invalid. */
  lemma RolloverConflicts()
    ensures var events := RolloverDay();
            var gaps := C.GapsOf(events);
            var written := Written(After(EMPTY_DAY, events, |events|), DAY.endNs);
            && TimesSorted(events, DAY)
            && 99 in Coverage.Within(RangesOf(written), 1, 100) * Coverage.Within(A.Invalid(gaps, written, 1, 100), 1, 100)
  {
    assert DaySound(EMPTY_DAY, 1, 1);
    hide RolloverDay, After, C.GapsOf, Written, TimesSorted, DaySound, Edge, A.RolloverNs, RangesOf, A.Invalid, Coverage.Within;
    RolloverDayFits();
    RolloverReopens();
    var events := RolloverDay();
    var written := Written(After(EMPTY_DAY, events, |events|), DAY.endNs);
    A.ConflictsExactly(EMPTY_DAY, events, DAY, C.GapsOf(events), written, 1, 100, 6, 99);
  }

  lemma GapsOfRollover()
    ensures C.GapsOf(RolloverDay()) == [Fact(true, 4, ""), Fact(false, 99, CONTINUES)]
  {
    var events := RolloverDay();
    assert C.GapsOf(events[6..]) == [];
    assert events[5..][1..] == events[6..];
    assert C.GapsOf(events[5..]) == [Fact(false, 99, CONTINUES)] + C.GapsOf(events[6..]);
    assert events[4..][1..] == events[5..] && events[3..][1..] == events[4..] && events[2..][1..] == events[3..];
    assert C.GapsOf(events[4..]) == [] + C.GapsOf(events[5..]) && C.GapsOf(events[3..]) == [] + C.GapsOf(events[4..]);
    assert C.GapsOf(events[2..]) == [Fact(true, 4, "")] + C.GapsOf(events[3..]);
    assert events[1..][1..] == events[2..];
    assert C.GapsOf(events[1..]) == [] + C.GapsOf(events[2..]);
  }
}
