/**
 From one day to the next, and from the merged inputs to the day: the merge loses nothing, which
 authoritative moments are written, and the checkpoint a day writes resumes the next day.
 */
module L2DayChain {
  import opened Base
  import opened L2Book
  import opened L2Checkpoint
  import opened L2Day
  import opened L2DayProofs
  import R = L2Replay

  // ---------------------------------------------------------------- the merge

  function RowsOf(events: seq<Event>): seq<Row> {
    if events == [] then []
    else (if events[0].RowEvent? then [events[0].row] else []) + RowsOf(events[1..])
  }

  function GapsOf(events: seq<Event>): seq<GapEvent> {
    if events == [] then []
    else (if events[0].GapFact? then [events[0].gap] else []) + GapsOf(events[1..])
  }

  ghost predicate RowsSorted(rows: seq<Row>, day: Span) {
    && (forall i :: 0 <= i < |rows| ==> day.startNs <= rows[i].ReceivedNs() <= day.endNs)
    && (forall i, j :: 0 <= i < j < |rows| ==> rows[i].ReceivedNs() <= rows[j].ReceivedNs())
  }

  ghost predicate GapsSorted(gaps: seq<GapEvent>, day: Span) {
    && (forall i :: 0 <= i < |gaps| ==> day.startNs <= gaps[i].EffectiveNs() <= day.endNs)
    && (forall i, j :: 0 <= i < j < |gaps| ==> gaps[i].EffectiveNs() <= gaps[j].EffectiveNs())
  }

  ghost predicate NotBeforeTime(events: seq<Event>, at: int) {
    forall i :: 0 <= i < |events| ==> at <= events[i].Time()
  }

  lemma SortedCons(event: Event, rest: seq<Event>, day: Span)
    requires TimesSorted(rest, day) && day.startNs <= event.Time() <= day.endNs
    requires NotBeforeTime(rest, event.Time())
    ensures TimesSorted([event] + rest, day)
  {
    var all := [event] + rest;
    forall i, j | 0 <= i < j < |all|
      ensures all[i].Time() <= all[j].Time()
    {
      assert all[j] == rest[j - 1];
      if i > 0 {
        assert all[i] == rest[i - 1];
      }
    }
  }

  lemma {:induction false} MergeSorted(rows: seq<Row>, gaps: seq<GapEvent>, day: Span, at: int)
    requires day.startNs <= day.endNs && RowsSorted(rows, day) && GapsSorted(gaps, day)
    requires rows != [] ==> at <= rows[0].ReceivedNs()
    requires gaps != [] ==> at <= gaps[0].EffectiveNs()
    ensures TimesSorted(Merge(rows, gaps), day)
    ensures NotBeforeTime(Merge(rows, gaps), at)
    decreases |rows| + |gaps|
  {
    hide TimesSorted;
    if gaps != [] && (rows == [] || gaps[0].EffectiveNs() <= rows[0].ReceivedNs()) {
      MergeSorted(rows, gaps[1..], day, gaps[0].EffectiveNs());
      SortedCons(GapFact(gaps[0]), Merge(rows, gaps[1..]), day);
    } else if rows != [] {
      MergeSorted(rows[1..], gaps, day, rows[0].ReceivedNs());
      SortedCons(RowEvent(rows[0]), Merge(rows[1..], gaps), day);
    } else {
      assert Merge(rows, gaps) == [];
      SortedNil(day);
    }
  }

  lemma SortedNil(day: Span)
    requires day.startNs <= day.endNs
    ensures TimesSorted([], day)
  {
  }

  lemma {:induction false} MergeKeepsAll(rows: seq<Row>, gaps: seq<GapEvent>)
    ensures RowsOf(Merge(rows, gaps)) == rows
    ensures GapsOf(Merge(rows, gaps)) == gaps
    decreases |rows| + |gaps|
  {
    if gaps != [] && (rows == [] || gaps[0].EffectiveNs() <= rows[0].ReceivedNs()) {
      MergeKeepsAll(rows, gaps[1..]);
      var rest := Merge(rows, gaps[1..]);
      assert ([GapFact(gaps[0])] + rest)[1..] == rest;
    } else if rows != [] {
      MergeKeepsAll(rows[1..], gaps);
      var rest := Merge(rows[1..], gaps);
      assert ([RowEvent(rows[0])] + rest)[1..] == rest;
    }
  }

  /** The merge is sorted by time and holds every row and every gap fact, each list in its order. */
  lemma MergeIsExact(rows: seq<Row>, gaps: seq<GapEvent>, day: Span)
    requires day.startNs <= day.endNs && RowsSorted(rows, day) && GapsSorted(gaps, day)
    ensures TimesSorted(Merge(rows, gaps), day)
    ensures RowsOf(Merge(rows, gaps)) == rows && GapsOf(Merge(rows, gaps)) == gaps
  {
    MergeSorted(rows, gaps, day, day.startNs);
    MergeKeepsAll(rows, gaps);
  }

  // ---------------------------------------------------------------- which authoritative moments are written

  /**
   A CLOSED fact that restarts the open interval instead of ending it: a connection is authoritative
   (so no gap is open), the last VALID connection still has a VALID book, and time has passed.
   */
  ghost predicate Drops(state: Day, event: Event) {
    && event.GapFact? && !event.gap.open
    && state.authority.Some? && state.validFrom.Some? && state.validFrom.value < event.gap.observedNs
    && state.lastValid.Some? && InForce(state, state.lastValid.value)
  }

  predicate Has(interval: Interval, c: string, x: int) {
    interval.connectionId == c && interval.fromNs <= x < interval.toNs
  }

  ghost predicate WrittenAt(intervals: seq<Interval>, c: string, x: int) {
    exists k :: 0 <= k < |intervals| && Has(intervals[k], c, x)
  }

  /** Moment `x` is in an interval of connection `c`, or in the one that is still open. */
  ghost predicate Counted(state: Day, c: string, x: int) {
    || WrittenAt(state.intervals, c, x)
    || (state.authority == Some(c) && state.validFrom.Some? && state.validFrom.value <= x)
  }

  /** The open interval stays open, or it ends at `at` and another one may begin there. */
  ghost predicate KeepsOrEnds(before: Day, after: Day, at: int) {
    || (after.authority == before.authority && after.validFrom == before.validFrom && after.intervals == before.intervals)
    || ((exists reason :: after.intervals == Ended(before, at, reason)) && (after.validFrom.None? || after.validFrom == Some(at)))
  }

  /** The interval list stays and the open interval begins again at `at`. */
  ghost predicate Restarts(before: Day, after: Day, at: int) {
    before.authority.Some? && after.intervals == before.intervals && after.validFrom == Some(at)
  }

  lemma Ends(before: Day, after: Day, at: int, reason: string)
    requires after.intervals == Ended(before, at, reason)
    requires after.validFrom.None? || after.validFrom == Some(at)
    ensures KeepsOrEnds(before, after, at)
  {
  }

  lemma GapKeepsOrRestarts(state: Day, gap: GapEvent, from: int, now: int)
    requires DaySound(state, from, now) && now <= gap.EffectiveNs()
    ensures var after := OnGap(state, gap);
            && (Drops(state, GapFact(gap)) ==> Restarts(state, after, gap.EffectiveNs()))
            && (!Drops(state, GapFact(gap)) ==>
                  KeepsOrEnds(state, after, gap.EffectiveNs()) ||
                  (Restarts(state, after, gap.EffectiveNs()) && state.validFrom == after.validFrom))
  {
    hide Sound;
    var after := OnGap(state, gap);
    if gap.open {
      Ends(state, after, gap.EffectiveNs(), "transport_gap");
    } else if state.authority.Some? {
      assert state.activeGaps - {gap.gapId} == {};
    } else if after.authority.Some? {
      Ends(state, after, gap.EffectiveNs(), "transport_gap");
    }
  }

  lemma RowKeepsOrEnds(state: Day, row: Row, from: int, now: int)
    requires DaySound(state, from, now) && now <= row.ReceivedNs()
    ensures KeepsOrEnds(state, OnRow(state, row), row.ReceivedNs())
  {
    hide Sound, Feed, Ended;
    var c := row.Connection();
    FeedSound(state, row, from, now);
    var outcome := Feed(BookOf(state, c), row);
    if outcome.change.Some? {
      var change := outcome.change.value;
      EndedIgnoresBooks(state, c, outcome.book, change.atNs, change.reason);
      EndedIgnoresBooks(state, c, outcome.book, change.atNs, "connection_switch");
      EndsAuthority(state, row, from, now);
      var after := OnRow(state, row);
      if change.state == VALID && state.activeGaps == {} {
        Ends(state, after, row.ReceivedNs(), "connection_switch");
      } else if change.state != VALID && state.authority == Some(c) {
        Ends(state, after, row.ReceivedNs(), change.reason);
      }
    }
  }

  lemma EndedWritten(state: Day, at: int, reason: string, c: string, x: int)
    requires state.authority.Some? <==> state.validFrom.Some?
    requires x < at
    ensures WrittenAt(Ended(state, at, reason), c, x) <==> Counted(state, c, x)
  {
    var all := Ended(state, at, reason);
    if WrittenAt(state.intervals, c, x) {
      var k :| 0 <= k < |state.intervals| && Has(state.intervals[k], c, x);
      assert Has(all[k], c, x);
    } else if Counted(state, c, x) {
      assert Has(all[|all| - 1], c, x);
    } else {
      forall k | 0 <= k < |all|
        ensures !Has(all[k], c, x)
      {
        if k < |state.intervals| {
          assert all[k] == state.intervals[k];
        }
      }
    }
  }

  /** One event after moment `x`: the moment stays counted unless its open interval is dropped. */
  lemma CountedStep(state: Day, event: Event, from: int, now: int, c: string, x: int)
    requires DaySound(state, from, now) && now <= event.Time() && x < event.Time()
    ensures Counted(OnEvent(state, event), c, x) <==>
              Counted(state, c, x) && !(Drops(state, event) && state.validFrom.value <= x)
  {
    hide Sound, OnGap, OnRow, WrittenAt, Ended;
    var after, at := OnEvent(state, event), event.Time();
    match event {
      case GapFact(gap) => GapKeepsOrRestarts(state, gap, from, now);
      case RowEvent(row) => RowKeepsOrEnds(state, row, from, now);
    }
    if Drops(state, event) {
      if WrittenAt(state.intervals, c, x) {
        DroppedAfter(state, from, now, c, x);
      }
    } else if exists reason :: after.intervals == Ended(state, at, reason) {
      var reason :| after.intervals == Ended(state, at, reason);
      EndedWritten(state, at, reason, c, x);
    }
  }

  /** The intervals already ended lie before the open one. */
  lemma DroppedAfter(state: Day, from: int, now: int, c: string, x: int)
    requires DaySound(state, from, now) && state.authority.Some? && WrittenAt(state.intervals, c, x)
    ensures x < state.validFrom.value
  {
  }

  /** No CLOSED fact from event `i` up to event `n` drops the interval that moment `x` is in. */
  ghost predicate Undropped(start: Day, events: seq<Event>, i: nat, n: nat, x: int)
    requires n <= |events|
  {
    forall m :: i <= m < n && Drops(After(start, events, m), events[m]) ==>
      x < After(start, events, m).validFrom.value
  }

  lemma CountedFirst(start: Day, events: seq<Event>, day: Span, i: nat, c: string, x: int)
    requires i <= |events| && DaySound(After(start, events, i), day.startNs, Edge(events, day, i))
    requires Edge(events, day, i) <= x
    ensures Counted(After(start, events, i), c, x) <==> After(start, events, i).authority == Some(c)
  {
    hide Sound, After;
  }

  lemma {:induction false} CountedUpTo(start: Day, events: seq<Event>, day: Span, i: nat, n: nat, c: string, x: int)
    requires TimesSorted(events, day) && i <= n <= |events|
    requires DaySound(start, day.startNs, day.startNs) && start.intervals == []
    requires Edge(events, day, i) <= x < Edge(events, day, i + 1)
    ensures Counted(After(start, events, n), c, x) <==>
              After(start, events, i).authority == Some(c) && Undropped(start, events, i, n, x)
    decreases n
  {
    hide Sound, DaySound, Counted, OnEvent, Drops;
    TracedUpTo(start, events, day, n);
    if i == n {
      CountedFirst(start, events, day, i, c, x);
    } else {
      CountedUpTo(start, events, day, i, n - 1, c, x);
      TracedUpTo(start, events, day, n - 1);
      EdgesSorted(events, day, i + 1, n);
      EdgesSorted(events, day, n - 1, n);
      CountedStep(After(start, events, n - 1), events[n - 1], day.startNs, Edge(events, day, n - 1), c, x);
    }
  }

  lemma WrittenNonEmpty(all: seq<Interval>, c: string, x: int)
    ensures WrittenAt(NonEmpty(all), c, x) <==> WrittenAt(all, c, x)
  {
    NonEmptyElements(all);
    if WrittenAt(all, c, x) {
      var k :| 0 <= k < |all| && Has(all[k], c, x);
      assert all[k] in NonEmpty(all);
      var l :| 0 <= l < |NonEmpty(all)| && NonEmpty(all)[l] == all[k];
    }
    if WrittenAt(NonEmpty(all), c, x) {
      var l :| 0 <= l < |NonEmpty(all)| && Has(NonEmpty(all)[l], c, x);
      assert NonEmpty(all)[l] in all;
      var k :| 0 <= k < |all| && all[k] == NonEmpty(all)[l];
    }
  }

  /**
   A moment is written for a connection exactly when the connection is authoritative at that moment
   and no later CLOSED fact drops the interval that was open then.
   */
  lemma WrittenExactly(start: Day, events: seq<Event>, day: Span, i: nat, c: string, x: int)
    requires TimesSorted(events, day) && i <= |events|
    requires DaySound(start, day.startNs, day.startNs) && start.intervals == []
    requires Edge(events, day, i) <= x < Edge(events, day, i + 1)
    ensures WrittenAt(Written(After(start, events, |events|), day.endNs), c, x) <==>
              After(start, events, i).authority == Some(c) && Undropped(start, events, i, |events|, x)
  {
    hide Sound, DaySound, Counted, WrittenAt, Undropped, After, Ordered;
    var final := After(start, events, |events|);
    CountedUpTo(start, events, day, i, |events|, c, x);
    EdgesSorted(events, day, i + 1, |events| + 1);
    TracedUpTo(start, events, day, |events|);
    assert final.authority.Some? <==> final.validFrom.Some? by {
      OpenInterval(final, day.startNs, Edge(events, day, |events|));
    }
    EndedWritten(final, day.endNs, "utc_day_end", c, x);
    WrittenNonEmpty(Ended(final, day.endNs, "utc_day_end"), c, x);
  }

  lemma OpenInterval(state: Day, from: int, now: int)
    requires DaySound(state, from, now)
    ensures state.authority.Some? <==> state.validFrom.Some?
    ensures state.authority.Some? ==> from <= state.validFrom.value <= now
  {
  }

  /** Each moment at which a connection is authoritative is in a written interval of that connection. */
  ghost predicate EveryMomentWritten(start: Day, events: seq<Event>, day: Span) {
    forall i, x :: 0 <= i <= |events| && Edge(events, day, i) <= x < Edge(events, day, i + 1)
                   && After(start, events, i).authority.Some? ==>
      WrittenAt(Written(After(start, events, |events|), day.endNs), After(start, events, i).authority.value, x)
  }

  /** The segment that a moment of the day's first `n` segments lies in. */
  lemma {:induction false} SegmentOf(events: seq<Event>, day: Span, n: nat, x: int) returns (i: nat)
    requires TimesSorted(events, day) && 0 < n <= |events| + 1
    requires day.startNs <= x < Edge(events, day, n)
    ensures i < n && Edge(events, day, i) <= x < Edge(events, day, i + 1)
  {
    if n == 1 || Edge(events, day, n - 1) <= x {
      i := n - 1;
    } else {
      i := SegmentOf(events, day, n - 1, x);
    }
  }

  /** What a dropping CLOSED fact loses: the moment at which the dropped interval began. */
  lemma DropLoses(start: Day, events: seq<Event>, day: Span, m: nat)
    requires TimesSorted(events, day) && m < |events|
    requires DaySound(start, day.startNs, day.startNs) && start.intervals == []
    requires Drops(After(start, events, m), events[m])
    ensures !EveryMomentWritten(start, events, day)
  {
    hide Sound, DaySound, WrittenAt, After, Ordered;
    var state := After(start, events, m);
    var x, c := state.validFrom.value, state.authority.value;
    TracedUpTo(start, events, day, m);
    OpenInterval(state, day.startNs, Edge(events, day, m));
    var i := SegmentOf(events, day, m + 1, x);
    CountedUpTo(start, events, day, i, m, c, x);
    WrittenExactly(start, events, day, i, c, x);
  }

  /**
   Every authoritative moment of the day is written exactly when no CLOSED fact of the day arrives
   while a connection is authoritative and its last VALID book is still VALID.
   */
  lemma AuthorityIsWrittenExactly(start: Day, events: seq<Event>, day: Span)
    requires TimesSorted(events, day)
    requires DaySound(start, day.startNs, day.startNs) && start.intervals == []
    ensures EveryMomentWritten(start, events, day) <==>
              forall m :: 0 <= m < |events| ==> !Drops(After(start, events, m), events[m])
  {
    hide Sound, DaySound, WrittenAt, Drops;
    if m :| 0 <= m < |events| && Drops(After(start, events, m), events[m]) {
      DropLoses(start, events, day, m);
    } else {
      hide After;
      forall i, x | 0 <= i <= |events| && Edge(events, day, i) <= x < Edge(events, day, i + 1)
                    && After(start, events, i).authority.Some?
        ensures WrittenAt(Written(After(start, events, |events|), day.endNs), After(start, events, i).authority.value, x)
      {
        WrittenExactly(start, events, day, i, After(start, events, i).authority.value, x);
      }
    }
  }

  // ---------------------------------------------------------------- the next day

  /** `order` lists the keys of `books`, each once. */
  ghost predicate OrderSound(state: Day) {
    && (forall c :: c in state.order <==> c in state.books)
    && (forall i, j :: 0 <= i < j < |state.order| ==> state.order[i] != state.order[j])
  }

  lemma StoredOrder(state: Day, c: string, book: Book)
    requires OrderSound(state)
    ensures OrderSound(Stored(state, c, book))
  {
  }

  lemma EventOrder(state: Day, event: Event)
    requires OrderSound(state)
    ensures OrderSound(OnEvent(state, event))
  {
    hide Feed, Ended, GapChanges;
    match event
    case GapFact(gap) =>
    case RowEvent(row) =>
      var stored := Stored(state, row.Connection(), Feed(BookOf(state, row.Connection()), row).book);
      StoredOrder(state, row.Connection(), Feed(BookOf(state, row.Connection()), row).book);
      assert OnRow(state, row).books == stored.books && OnRow(state, row).order == stored.order by {
        hide Stored, OrderSound, BookOf;
      }
      hide OnRow, Stored, OrderSound, BookOf;
      SameOrder(stored, OnRow(state, row));
  }

  lemma SameOrder(a: Day, b: Day)
    requires OrderSound(a) && a.books == b.books && a.order == b.order
    ensures OrderSound(b)
  {
  }

  lemma {:induction false} OrderAfter(start: Day, events: seq<Event>, n: nat)
    requires OrderSound(start) && n <= |events|
    ensures OrderSound(After(start, events, n))
  {
    hide OnEvent, OrderSound;
    if n > 0 {
      OrderAfter(start, events, n - 1);
      EventOrder(After(start, events, n - 1), events[n - 1]);
    }
  }

  /** `resumed` holds some of the books of `final`, without the identities they have seen. */
  ghost predicate Carries(resumed: Day, final: Day, now: int) {
    && OrderSound(resumed)
    && forall c :: c in resumed.books ==>
         && c in final.books && resumed.books[c] == final.books[c].(seen := {})
         && Sound(resumed.books[c], now) && resumed.books[c].connectionId == c
  }

  lemma SoundForgets(book: Book, now: int)
    requires Sound(book, now)
    ensures Sound(book.(seen := {}), now)
  {
  }

  function BooksAt(final: Day, order: seq<string>): seq<Book> {
    seq(|order|, i requires 0 <= i < |order| => BookOf(final, order[i]))
  }

  lemma CarriesOneMore(resumed: Day, final: Day, c: string, now: int)
    requires Carries(resumed, final, now) && SoundBooks(final, now) && c in final.books && c !in resumed.books
    ensures Carries(Stored(resumed, c, final.books[c].(seen := {})), final, now)
  {
    hide Sound;
    SoundForgets(final.books[c], now);
    StoredOrder(resumed, c, final.books[c].(seen := {}));
    hide OrderSound;
  }

  /** The anchored book that heads the list is saved, and restored but for what it has seen. */
  lemma AnchoredHead(final: Day, order: seq<string>, now: int)
    requires SoundBooks(final, now) && order != [] && order[0] in final.books
    requires IsAnchored(final.books[order[0]])
    requires SaveAllAnchored(BooksAt(final, order)).Ok?
    ensures var book := final.books[order[0]];
            && book.state != VALID
            && SaveAllAnchored(BooksAt(final, order[1..])).Ok?
            && SaveAllAnchored(BooksAt(final, order)).value ==
                 [SaveAnchored(book).value] + SaveAllAnchored(BooksAt(final, order[1..])).value
            && SaveAnchored(book).value.connectionId == order[0]
            && RestoreAnchored(SaveAnchored(book).value) == book.(seen := {})
  {
    assert BooksAt(final, order)[1..] == BooksAt(final, order[1..]);
    var book := final.books[order[0]];
    assert book == BooksAt(final, order)[0];
    AnchoredFits(book, now);
    AnchoredRoundTrip(book, now);
    SavedName(book);
  }

  ghost predicate Waits(resumed: Day, final: Day, order: seq<string>) {
    && (forall i :: 0 <= i < |order| ==> order[i] in final.books)
    && (forall i, j :: 0 <= i < j < |order| ==> order[i] != order[j])
    && (forall i :: 0 <= i < |order| && order[i] in resumed.books ==>
          order[i] in final.books && final.books[order[i]].state == VALID)
  }

  /** Saving the anchored books and adding them back carries each of them over. */
  lemma {:induction false} AnchoredResume(resumed: Day, final: Day, order: seq<string>, now: int)
    requires SoundBooks(final, now) && Carries(resumed, final, now) && Waits(resumed, final, order)
    requires SaveAllAnchored(BooksAt(final, order)).Ok?
    ensures var added := AddAnchored(resumed, SaveAllAnchored(BooksAt(final, order)).value);
            && added.Ok? && Carries(added.value, final, now)
            && added.value == resumed.(books := added.value.books, order := added.value.order)
            && resumed.books.Keys <= added.value.books.Keys
            && forall i :: 0 <= i < |order| && IsAnchored(final.books[order[i]]) ==> order[i] in added.value.books
    decreases |order|
  {
    hide Sound, Carries, SoundBooks, SaveAnchored, RestoreAnchored, IsAnchored, OrderSound;
    if order != [] {
      var c := order[0];
      assert order[1..] != [] ==> order[1] == order[1..][0];
      if IsAnchored(final.books[c]) {
        AnchoredHead(final, order, now);
        CarriesOneMore(resumed, final, c, now);
        AnchoredResume(Stored(resumed, c, final.books[c].(seen := {})), final, order[1..], now);
      } else {
        assert BooksAt(final, order)[1..] == BooksAt(final, order[1..]);
        AnchoredResume(resumed, final, order[1..], now);
      }
    }
  }

  lemma SavedName(book: Book)
    requires SaveAnchored(book).Ok?
    ensures SaveAnchored(book).value.connectionId == book.connectionId
  {
  }

  lemma AnchoredFits(book: Book, now: int)
    requires Sound(book, now) && IsAnchored(book) && SaveAnchored(book).Ok?
    ensures book.state != VALID
  {
  }

  /** The authoritative connection is still authoritative at the next midnight. */
  ghost predicate Inherits(resumed: Day, final: Day, dayEndNs: int) {
    resumed.authority.Some? ==>
      && resumed.authority == final.authority
      && resumed.validFrom == Some(dayEndNs)
      && resumed.authority.value in resumed.books
      && resumed.books[resumed.authority.value].state == VALID
  }

  lemma ValidResume(final: Day, checkpoint: Checkpoint, from: int, dayEndNs: int)
    requires DaySound(final, from, dayEndNs) && OrderSound(final)
    requires BuildCheckpoint(FinalBook(final), BooksInOrder(final), dayEndNs) == Ok(checkpoint)
    requires checkpoint.valid.Some?
    ensures var book := RestoreValid(checkpoint.valid.value);
            && final.authority == Some(book.connectionId)
            && final.books[final.authority.value].state == VALID
            && book == final.books[final.authority.value].(seen := {})
  {
    var c := final.authority.value;
    var book := final.books[c];
    assert Sound(book, dayEndNs);
    FinalIsUnanchored(final, from, dayEndNs);
    hide Sound, SaveAllAnchored;
    ValidRoundTrip(book, BooksInOrder(final), dayEndNs, dayEndNs);
  }

  /** The end of a day raises exactly when some book is VALID, anchored and has both sides. */
  lemma EndRaisesExactly(final: Day, from: int, dayEndNs: int)
    requires DaySound(final, from, dayEndNs) && OrderSound(final)
    ensures Finish(final, dayEndNs).Err? <==>
              exists c :: c in final.books && final.books[c].state == VALID && IsAnchored(final.books[c])
  {
    hide SaveAllAnchored, Sound, IsAnchored, Written;
    var books := BooksInOrder(final);
    forall k | 0 <= k < |books|
      ensures books[k] == final.books[final.order[k]] && Sound(books[k], dayEndNs)
    {
      assert final.order[k] in final.order;
    }
    BuildFailsExactly(FinalBook(final), books, dayEndNs, dayEndNs);
    if c :| c in final.books && final.books[c].state == VALID && IsAnchored(final.books[c]) {
      assert c in final.order;
      var i :| 0 <= i < |final.order| && final.order[i] == c;
      assert books[i] == final.books[c];
    }
  }

  /** A book that is saved as VALID has no anchor: with one, the checkpoint would not be built. */
  lemma FinalIsUnanchored(final: Day, from: int, dayEndNs: int)
    requires DaySound(final, from, dayEndNs) && OrderSound(final)
    requires BuildCheckpoint(FinalBook(final), BooksInOrder(final), dayEndNs).Ok?
    requires final.authority.Some?
    requires final.books[final.authority.value].bids != map[] && final.books[final.authority.value].asks != map[]
    ensures final.books[final.authority.value].anchor.None?
  {
    EndRaisesExactly(final, from, dayEndNs);
    assert Sound(final.books[final.authority.value], dayEndNs);
  }

  /** What the authoritative book of `final` starts: it is carried over and stays authoritative. */
  ghost predicate Takes(begun: Day, final: Day, dayEndNs: int) {
    && Carries(begun, final, dayEndNs) && Inherits(begun, final, dayEndNs)
    && begun.intervals == [] && begun.activeGaps == {}
    && (begun.authority.Some? <==> begun.validFrom.Some?)
    && (forall c :: c in begun.books ==> c in final.books && final.books[c].state == VALID)
  }

  lemma CopyTakes(final: Day, c: string, from: int, dayEndNs: int)
    requires DaySound(final, from, dayEndNs) && final.authority == Some(c)
    ensures Takes(Stored(EMPTY_DAY, c, final.books[c].(seen := {}))
                  .(authority := Some(c), lastValid := Some(c), validFrom := Some(dayEndNs)), final, dayEndNs)
  {
    hide Sound;
    assert Carries(EMPTY_DAY, final, dayEndNs);
    CarriesOneMore(EMPTY_DAY, final, c, dayEndNs);
    hide OrderSound;
  }

  lemma BegunTakes(final: Day, checkpoint: Checkpoint, from: int, dayEndNs: int)
    requires DaySound(final, from, dayEndNs) && OrderSound(final)
    requires BuildCheckpoint(FinalBook(final), BooksInOrder(final), dayEndNs) == Ok(checkpoint)
    ensures Takes(Begun(checkpoint.valid, dayEndNs), final, dayEndNs)
    ensures checkpoint.valid.Some? ==> Begun(checkpoint.valid, dayEndNs).authority == final.authority
  {
    hide Sound;
    if checkpoint.valid.Some? {
      ValidResume(final, checkpoint, from, dayEndNs);
      hide RestoreValid, BuildCheckpoint, BooksInOrder, FinalBook;
      CopyTakes(final, final.authority.value, from, dayEndNs);
      hide Takes, OrderSound, DaySound, Stored;
    } else {
      hide BuildCheckpoint, BooksInOrder, FinalBook;
    }
  }

  /** Adding the anchored books to such a beginning keeps it sound. */
  lemma AddedSound(begun: Day, added: Day, final: Day, dayEndNs: int)
    requires Takes(begun, final, dayEndNs) && Carries(added, final, dayEndNs)
    requires added == begun.(books := added.books, order := added.order)
    requires begun.books.Keys <= added.books.Keys
    ensures DaySound(added, dayEndNs, dayEndNs) && Inherits(added, final, dayEndNs)
  {
    hide Sound, OrderSound;
    if begun.authority.Some? {
      var c := begun.authority.value;
      assert c in begun.books.Keys;
      assert added.books[c] == final.books[c].(seen := {});
    }
  }

  /**
   A checkpoint that a day writes always resumes the next day, in a sound state with no interval
   and no open gap. The resumed books are the day's own books but for the identities they have
   seen; they include the authoritative one and every anchored one.
   */
  lemma NextDayResumes(final: Day, checkpoint: Checkpoint, from: int, dayEndNs: int)
    requires DaySound(final, from, dayEndNs) && OrderSound(final)
    requires BuildCheckpoint(FinalBook(final), BooksInOrder(final), dayEndNs) == Ok(checkpoint)
    ensures var resumed := Resume(Some(checkpoint), dayEndNs);
            && resumed.Ok?
            && DaySound(resumed.value, dayEndNs, dayEndNs) && OrderSound(resumed.value)
            && resumed.value.intervals == [] && resumed.value.activeGaps == {}
            && Carries(resumed.value, final, dayEndNs)
            && Inherits(resumed.value, final, dayEndNs)
            && (forall c :: c in final.books && IsAnchored(final.books[c]) ==> c in resumed.value.books)
            && (checkpoint.valid.Some? ==> resumed.value.authority == final.authority)
  {
    BegunTakes(final, checkpoint, from, dayEndNs);
    assert BooksInOrder(final) == BooksAt(final, final.order);
    hide SaveAllAnchored, Sound, IsAnchored, AddAnchored, BooksInOrder, BooksAt, BookOf, Begun, FinalBook, Inherits,
         CheckpointLevels;
    var begun := Begun(checkpoint.valid, dayEndNs);
    AnchoredResume(begun, final, final.order, dayEndNs);
    hide BuildCheckpoint, Waits;
    var resumed := AddAnchored(begun, checkpoint.anchored).value;
    AddedSound(begun, resumed, final, dayEndNs);
    hide Takes, DaySound;
    forall c | c in final.books && IsAnchored(final.books[c])
      ensures c in resumed.books
    {
      assert c in final.order;
    }
  }

  /** Only anchored books are added. */
  lemma {:induction false} AnchoredOnly(resumed: Day, final: Day, order: seq<string>, now: int)
    requires SoundBooks(final, now) && Carries(resumed, final, now) && Waits(resumed, final, order)
    requires SaveAllAnchored(BooksAt(final, order)).Ok?
    ensures var added := AddAnchored(resumed, SaveAllAnchored(BooksAt(final, order)).value);
            added.Ok? ==> forall c :: c in added.value.books && c !in resumed.books ==> c in final.books && IsAnchored(final.books[c])
    decreases |order|
  {
    hide Sound, Carries, SoundBooks, SaveAnchored, RestoreAnchored, IsAnchored, OrderSound;
    if order != [] {
      var c := order[0];
      assert order[1..] != [] ==> order[1] == order[1..][0];
      if IsAnchored(final.books[c]) {
        AnchoredHead(final, order, now);
        CarriesOneMore(resumed, final, c, now);
        AnchoredOnly(Stored(resumed, c, final.books[c].(seen := {})), final, order[1..], now);
      } else {
        assert BooksAt(final, order)[1..] == BooksAt(final, order[1..]);
        AnchoredOnly(resumed, final, order[1..], now);
      }
    }
  }

  /** A connection is authoritative at midnight and its book has both sides. */
  predicate HandsOver(final: Day) {
    && final.authority.Some? && final.authority.value in final.books
    && final.books[final.authority.value].bids != map[] && final.books[final.authority.value].asks != map[]
  }

  lemma SavesExactly(final: Day, checkpoint: Checkpoint, from: int, dayEndNs: int)
    requires DaySound(final, from, dayEndNs) && OrderSound(final)
    requires BuildCheckpoint(FinalBook(final), BooksInOrder(final), dayEndNs) == Ok(checkpoint)
    ensures checkpoint.valid.Some? <==> HandsOver(final)
  {
    hide SaveAllAnchored;
    if final.authority.Some? {
      assert Sound(final.books[final.authority.value], dayEndNs);
    }
    hide Sound;
  }

  /** Which books are in the resumed day, and which connection is in authority from midnight on. */
  ghost predicate ResumesAs(resumed: Day, final: Day, dayEndNs: int) {
    && (forall c :: c in resumed.books <==>
          c in final.books && (IsAnchored(final.books[c]) || (HandsOver(final) && final.authority == Some(c))))
    && resumed.authority == (if HandsOver(final) then final.authority else None)
    && resumed.lastValid == resumed.authority
    && resumed.validFrom == (if HandsOver(final) then Some(dayEndNs) else None)
  }

  lemma BegunExactly(final: Day, checkpoint: Checkpoint, from: int, dayEndNs: int)
    requires DaySound(final, from, dayEndNs) && OrderSound(final)
    requires BuildCheckpoint(FinalBook(final), BooksInOrder(final), dayEndNs) == Ok(checkpoint)
    ensures var begun := Begun(checkpoint.valid, dayEndNs);
            && begun.authority == (if HandsOver(final) then final.authority else None) && begun.lastValid == begun.authority
            && begun.validFrom == (if HandsOver(final) then Some(dayEndNs) else None)
            && forall c :: c in begun.books <==> begun.authority == Some(c)
  {
    SavesExactly(final, checkpoint, from, dayEndNs);
    hide BuildCheckpoint, Sound, DaySound, OrderSound, HandsOver;
    if checkpoint.valid.Some? {
      ValidResume(final, checkpoint, from, dayEndNs);
      hide RestoreValid;
    }
    hide FinalBook, BooksInOrder;
  }

  /**
   What the next day resumes with, exactly: the anchored books, and the authoritative one when it has
   both sides, which then is in authority from midnight on. Nothing else is carried over.
   */
  lemma ResumesExactly(final: Day, checkpoint: Checkpoint, from: int, dayEndNs: int)
    requires DaySound(final, from, dayEndNs) && OrderSound(final)
    requires BuildCheckpoint(FinalBook(final), BooksInOrder(final), dayEndNs) == Ok(checkpoint)
    ensures Resume(Some(checkpoint), dayEndNs).Ok? && ResumesAs(Resume(Some(checkpoint), dayEndNs).value, final, dayEndNs)
  {
    hide SaveAllAnchored, Sound, IsAnchored, AddAnchored, Begun, FinalBook, CheckpointLevels, BuildCheckpoint, DaySound, OrderSound,
         ResumesAs;
    NextDayResumes(final, checkpoint, from, dayEndNs);
    BegunExactly(final, checkpoint, from, dayEndNs);
    AddedOnly(final, checkpoint, from, dayEndNs);
    AddedExactly(Begun(checkpoint.valid, dayEndNs), Resume(Some(checkpoint), dayEndNs).value, final, dayEndNs);
  }

  /** What adding the anchored books to the beginning does. */
  ghost predicate Grows(begun: Day, added: Day, final: Day) {
    && added == begun.(books := added.books, order := added.order) && begun.books.Keys <= added.books.Keys
    && forall c :: c in added.books && c !in begun.books ==> c in final.books && IsAnchored(final.books[c])
  }

  lemma AddedOnly(final: Day, checkpoint: Checkpoint, from: int, dayEndNs: int)
    requires DaySound(final, from, dayEndNs) && OrderSound(final)
    requires BuildCheckpoint(FinalBook(final), BooksInOrder(final), dayEndNs) == Ok(checkpoint)
    requires Resume(Some(checkpoint), dayEndNs).Ok?
    ensures Grows(Begun(checkpoint.valid, dayEndNs), Resume(Some(checkpoint), dayEndNs).value, final)
  {
    assert BooksInOrder(final) == BooksAt(final, final.order);
    hide SaveAllAnchored, Sound, IsAnchored, AddAnchored, BooksInOrder, BooksAt, BookOf, Begun, FinalBook, BuildCheckpoint, Inherits;
    AnchoredAreSaved(final, checkpoint, dayEndNs);
    BegunTakes(final, checkpoint, from, dayEndNs);
    var begun := Begun(checkpoint.valid, dayEndNs);
    assert Waits(begun, final, final.order);
    hide Waits, Takes, OrderSound, Carries;
    AnchoredResume(begun, final, final.order, dayEndNs);
    AnchoredOnly(begun, final, final.order, dayEndNs);
  }

  lemma AnchoredAreSaved(final: Day, checkpoint: Checkpoint, dayEndNs: int)
    requires BuildCheckpoint(FinalBook(final), BooksInOrder(final), dayEndNs) == Ok(checkpoint)
    ensures SaveAllAnchored(BooksInOrder(final)) == Ok(checkpoint.anchored)
  {
    hide SaveAllAnchored, BooksInOrder, FinalBook;
  }

  lemma AddedExactly(begun: Day, added: Day, final: Day, dayEndNs: int)
    requires Grows(begun, added, final)
    requires begun.authority == (if HandsOver(final) then final.authority else None) && begun.lastValid == begun.authority
    requires begun.validFrom == (if HandsOver(final) then Some(dayEndNs) else None)
    requires forall c :: c in begun.books <==> begun.authority == Some(c)
    requires forall c :: c in final.books && IsAnchored(final.books[c]) ==> c in added.books
    ensures ResumesAs(added, final, dayEndNs)
  {
    hide IsAnchored;
    forall c | c in begun.books
      ensures c in added.books
    {
      assert c in begun.books.Keys;
    }
  }

  // ---------------------------------------------------------------- days whose end never raises

  ghost predicate NoAnchorIfValid(book: Book) {
    book.state == VALID ==> book.anchor.None?
  }

  ghost predicate Unanchored(state: Day) {
    forall c :: c in state.books ==> NoAnchorIfValid(state.books[c])
  }

  /** Every snapshot of the day reaches a book that is not VALID at that moment. */
  ghost predicate SnapshotsFindNoValidBook(start: Day, events: seq<Event>) {
    forall n :: 0 <= n < |events| && events[n].RowEvent? && events[n].row.SnapshotRow? ==>
      BookOf(After(start, events, n), events[n].row.Connection()).state != VALID
  }

  lemma FeedUnanchored(book: Book, row: Row)
    requires NoAnchorIfValid(book) && (row.SnapshotRow? ==> book.state != VALID)
    ensures NoAnchorIfValid(Feed(book, row).book)
  {
    match row
    case DepthRow(diff) =>
      var noted := book.(seen := book.seen + {diff.Identity()}, pending := book.pending + [diff]);
      if book.state != VALID {
        R.BridgeAnchor(noted);
      }
      hide TryBridge, ApplyLevels;
    case SnapshotRow(snapshot) =>
      R.BridgeAnchor(book.(bids := BookSide(snapshot.bids), asks := BookSide(snapshot.asks),
                           previousUpdateId := Some(snapshot.lastUpdateId),
                           anchor := Some(snapshot.lastUpdateId), anchorNs := Some(snapshot.receivedNs)));
      hide TryBridge, BookSide;
  }

  lemma EventUnanchored(state: Day, event: Event)
    requires Unanchored(state)
    requires event.RowEvent? && event.row.SnapshotRow? ==> BookOf(state, event.row.Connection()).state != VALID
    ensures Unanchored(OnEvent(state, event))
  {
    hide Feed, Ended, GapChanges;
    match event
    case GapFact(gap) =>
    case RowEvent(row) =>
      FeedUnanchored(BookOf(state, row.Connection()), row);
      hide NoAnchorIfValid;
      var c := row.Connection();
      var stored := Stored(state, c, Feed(BookOf(state, c), row).book);
      assert OnRow(state, row).books == stored.books;
  }

  lemma {:induction false} UnanchoredAfter(start: Day, events: seq<Event>, n: nat)
    requires Unanchored(start) && SnapshotsFindNoValidBook(start, events) && n <= |events|
    ensures Unanchored(After(start, events, n))
  {
    hide OnEvent, Unanchored, BookOf;
    if n > 0 {
      UnanchoredAfter(start, events, n - 1);
      EventUnanchored(After(start, events, n - 1), events[n - 1]);
    }
  }

  /** A day whose snapshots reach only books that are not VALID never raises at its end. */
  lemma EndNeverRaises(start: Day, events: seq<Event>, dayEndNs: int, from: int)
    requires Unanchored(start) && SnapshotsFindNoValidBook(start, events)
    requires DaySound(After(start, events, |events|), from, dayEndNs) && OrderSound(start)
    ensures Finish(After(start, events, |events|), dayEndNs).Ok?
  {
    hide After, DaySound, OrderSound, SnapshotsFindNoValidBook, BookOf, Finish;
    UnanchoredAfter(start, events, |events|);
    OrderAfter(start, events, |events|);
    EndRaisesExactly(After(start, events, |events|), from, dayEndNs);
  }

  lemma {:induction false} SavedAreInvalid(books: seq<Book>)
    requires SaveAllAnchored(books).Ok?
    ensures forall i :: 0 <= i < |SaveAllAnchored(books).value| ==> SaveAllAnchored(books).value[i].state != VALID
  {
    if books != [] {
      hide CheckpointLevels, NotBefore;
      SavedAreInvalid(books[1..]);
    }
  }

  lemma {:induction false} AddedUnanchored(state: Day, anchored: seq<AnchoredBook>)
    requires Unanchored(state) && forall i :: 0 <= i < |anchored| ==> anchored[i].state != VALID
    ensures AddAnchored(state, anchored).Ok? ==> Unanchored(AddAnchored(state, anchored).value)
    decreases |anchored|
  {
    hide BookSide;
    if anchored != [] && anchored[0].connectionId !in state.books {
      AddedUnanchored(Stored(state, anchored[0].connectionId, RestoreAnchored(anchored[0])), anchored[1..]);
    }
  }

  /** A day that resumes from a written checkpoint, or from nothing, has no anchored VALID book. */
  lemma ResumedUnanchored(final: Option<Book>, books: seq<Book>, dayStartNs: int)
    requires BuildCheckpoint(final, books, dayStartNs).Ok?
    ensures var resumed := Resume(Some(BuildCheckpoint(final, books, dayStartNs).value), dayStartNs);
            resumed.Ok? ==> Unanchored(resumed.value)
    ensures Unanchored(EMPTY_DAY)
  {
    var checkpoint := BuildCheckpoint(final, books, dayStartNs).value;
    SavedAreInvalid(books);
    hide SaveAllAnchored, AddAnchored, BookSide, CheckpointLevels;
    AddedUnanchored(Begun(checkpoint.valid, dayStartNs), checkpoint.anchored);
  }
}
