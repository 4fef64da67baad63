/**
 `L2DayReconstructor.run` as the source has it: a loop over the rows that updates book objects and
 the run's variables in place, proved against `L2Day.After`.
 */
module L2DayRun {
  import opened Base
  import opened L2Book
  import opened L2Checkpoint
  import opened L2Day
  import opened L2DayProofs
  import opened L2DayChain

  datatype RunError = MissingCheckpoint | BadCheckpoint(error: CheckpointError)

  /** The value of a `BookTable`. */
  datatype Table = Table(books: map<string, Book>, order: seq<string>)

  function Put(table: Table, c: string, book: Book): Table {
    Table(table.books[c := book], if c in table.books then table.order else table.order + [c])
  }

  lemma PutTwice(table: Table, c: string, first: Book, second: Book)
    ensures Put(Put(table, c, first), c, second) == Put(table, c, second)
  {
    assert table.books[c := first][c := second] == table.books[c := second];
  }

  lemma NoChanges(books: map<string, Book>, at: int, reason: string)
    ensures GapChanges(books, [], at, reason) == []
  {
  }

  lemma GapChangesStep(books: map<string, Book>, order: seq<string>, i: nat, at: int, reason: string)
    requires i < |order| && order[i] in books
    ensures var book := books[order[i]];
            GapChanges(books, order[..i + 1], at, reason) ==
              GapChanges(books, order[..i], at, reason) +
              (if book.state == VALID
               then [StateChange(book.connectionId, at, GAPPED, book.previousUpdateId, reason)] else [])
  {
    assert order[..i + 1][..i] == order[..i];
  }

  lemma PutHas(table: Table, c: string, book: Book)
    ensures c in Put(table, c, book).books && Put(table, c, book).books[c] == book
  {
  }

  ghost predicate Lists(order: seq<string>, books: map<string, ConnectionBook>) {
    && (forall c :: c in order <==> c in books)
    && (forall i, j :: 0 <= i < j < |order| ==> order[i] != order[j])
  }

  ghost predicate Injective(books: map<string, ConnectionBook>) {
    forall c, d :: c in books && d in books && c != d ==> books[c] != books[d]
  }

  lemma OneMore(order: seq<string>, books: map<string, ConnectionBook>, c: string, stored: ConnectionBook)
    requires Lists(order, books) && Injective(books)
    requires c !in books && stored !in books.Values
    ensures Lists(order + [c], books[c := stored]) && Injective(books[c := stored])
    ensures books[c := stored].Values == books.Values + {stored}
  {
    assert forall d :: d in books ==> books[d] in books.Values;
    assert books[c := stored][c] == stored;
    forall o | o in books.Values
      ensures o in books[c := stored].Values
    {
      var d :| d in books && books[d] == o;
      assert books[c := stored][d] == o;
    }
  }

  /** One step of the loop over the books: the change a VALID book reports, and the invalidation. */
  method ReportGap(book: ConnectionBook, at: int, reason: string) returns (change: Option<StateChange>)
    modifies book
    ensures book.Value() == Invalidate(old(book.Value()))
    ensures var before := old(book.Value());
            change == if before.state == VALID
                      then Some(StateChange(before.connectionId, at, GAPPED, before.previousUpdateId, reason))
                      else None
  {
    change := None;
    if book.state == VALID {
      change := Some(StateChange(book.connectionId, at, GAPPED, book.previousUpdateId, reason));
    }
    book.InvalidateInPlace();
  }

  /** The loop over the books of a table: each one reports if it is VALID and is invalidated. */
  method InvalidateEach(objects: seq<ConnectionBook>, ghost names: seq<string>, ghost before: map<string, Book>,
                        at: int, reason: string)
    returns (reported: seq<StateChange>)
    requires |objects| == |names| && forall j, k :: 0 <= j < k < |objects| ==> objects[j] != objects[k]
    requires forall k :: 0 <= k < |objects| ==> names[k] in before && objects[k].Value() == before[names[k]]
    modifies objects
    ensures forall k :: 0 <= k < |objects| ==> objects[k].Value() == Invalidate(before[names[k]])
    ensures reported == GapChanges(before, names, at, reason)
  {
    hide ConnectionBook.Value, Invalidate, GapChanges;
    NoChanges(before, at, reason);
    reported := [];
    var i := 0;
    while i < |objects|
      invariant 0 <= i <= |objects|
      invariant forall k :: 0 <= k < i ==> objects[k].Value() == Invalidate(before[names[k]])
      invariant forall k :: i <= k < |objects| ==> objects[k].Value() == before[names[k]]
      invariant reported == GapChanges(before, names[..i], at, reason)
    {
      GapChangesStep(before, names, i, at, reason);
      var change := ReportGap(objects[i], at, reason);
      if change.Some? {
        reported := reported + [change.value];
      }
      i := i + 1;
    }
    assert names[..|names|] == names;
  }

  lemma AllInvalid(objects: seq<ConnectionBook>, names: seq<string>, books: map<string, ConnectionBook>,
                   before: map<string, Book>)
    requires |objects| == |names| && forall k :: 0 <= k < |names| ==> names[k] in books && objects[k] == books[names[k]]
    requires before.Keys == books.Keys && forall c :: c in books ==> c in names
    requires forall k :: 0 <= k < |objects| ==> objects[k].Value() == Invalidate(before[names[k]])
    ensures (map c | c in books :: books[c].Value()) == InvalidateAll(before)
  {
    hide ConnectionBook.Value, Invalidate;
    forall c | c in books
      ensures books[c].Value() == Invalidate(before[c])
    {
      var k :| 0 <= k < |names| && names[k] == c;
      assert objects[k] == books[c];
    }
  }

  /** The dict of connection books; `order` is its insertion order. */
  class BookTable {
    var books: map<string, ConnectionBook>
    var order: seq<string>

    /** `order` lists the keys once each, and no two connections share an object. */
    ghost predicate Valid()
      reads this
    {
      Lists(order, books) && Injective(books)
    }

    ghost function Value(): Table
      reads this, books.Values
    {
      Table(map c | c in books :: books[c].Value(), order)
    }

    constructor ()
      ensures Valid() && Value() == Table(map[], []) && books == map[]
    {
      books := map[];
      order := [];
    }

    /** The objects in insertion order, no two of them the same. */
    method Objects() returns (objects: seq<ConnectionBook>)
      requires Valid()
      ensures |objects| == |order| && forall k :: 0 <= k < |objects| ==> order[k] in books && objects[k] == books[order[k]]
      ensures forall j, k :: 0 <= j < k < |objects| ==> objects[j] != objects[k]
      ensures forall o :: o in objects ==> o in books.Values
    {
      var table, names := books, order;
      objects := seq(|names|, i requires 0 <= i < |names| && names[i] in table => table[names[i]]);
    }

    /** `for book in books.values()`: reports the VALID books and invalidates all of them. */
    method InvalidateBooks(at: int, reason: string) returns (reported: seq<StateChange>)
      requires Valid()
      modifies books.Values
      ensures Value() == Table(InvalidateAll(old(Value()).books), old(Value()).order)
      ensures reported == GapChanges(old(Value()).books, old(Value()).order, at, reason)
    {
      ghost var before := Value().books;
      assert forall c :: c in books ==> c in order;
      hide ConnectionBook.Value, Invalidate, GapChanges, Injective, Lists, BookTable.Valid;
      var objects := Objects();
      reported := InvalidateEach(objects, order, before, at, reason);
      AllInvalid(objects, order, books, before);
    }

    method Add(c: string, book: Book)
      requires Valid() && c !in books
      modifies this
      ensures Valid() && fresh(books.Values - old(books.Values)) && c in books
      ensures Value() == Put(old(Value()), c, book)
    {
      hide ConnectionBook.Value, Injective, Lists;
      ghost var before := Value();
      var stored := new ConnectionBook.Restore(book);
      OneMore(order, books, c, stored);
      forall d | d in books
        ensures books[d].Value() == before.books[d]
      {
      }
      books := books[c := stored];
      order := order + [c];
      assert Value().books == before.books[c := book];
    }

    /** The row goes to the book it names: `on_diff` or `on_snapshot`. */
    method FeedExisting(c: string, row: Row) returns (change: Option<StateChange>)
      requires Valid() && c in books
      modifies books[c]
      ensures Valid()
      ensures var outcome := Feed(old(Value()).books[c], row);
              change == outcome.change && Value() == Put(old(Value()), c, outcome.book)
    {
      hide OnDiff, OnSnapshot, ConnectionBook.Value, Lists;
      var book := books[c];
      ghost var before := Value();
      assert forall d :: d in books && d != c ==> books[d] != book;
      hide Injective;
      match row {
        case DepthRow(diff) => change := book.HandleDiff(diff);
        case SnapshotRow(snapshot) => change := book.HandleSnapshot(snapshot);
      }
      assert Value().books == before.books[c := book.Value()];
    }

    /** `books.setdefault(...)` and then the row. */
    method FeedRow(row: Row) returns (change: Option<StateChange>)
      requires Valid()
      modifies this, books.Values
      ensures Valid() && fresh(books.Values - old(books.Values))
      ensures var c := row.Connection();
              var books := old(Value()).books;
              var outcome := Feed(if c in books then books[c] else FreshBook(c), row);
              change == outcome.change && Value() == Put(old(Value()), c, outcome.book)
    {
      var c := row.Connection();
      assert c in books <==> c in Value().books;
      ghost var before := Value();
      ghost var book := if c in before.books then before.books[c] else FreshBook(c);
      hide Feed, BookTable.Value, ConnectionBook.Value, Injective, Lists, Put;
      if c !in books {
        Add(c, FreshBook(c));
        PutTwice(before, c, book, Feed(book, row).book);
        PutHas(before, c, book);
      }
      change := FeedExisting(c, row);
    }

    method Lookup(c: string) returns (book: Option<Book>)
      requires Valid()
      ensures book == if c in Value().books then Some(Value().books[c]) else None
    {
      if c in books {
        var stored := books[c];
        return Some(stored.Value());
      }
      return None;
    }

    method List() returns (list: seq<Book>)
      requires Valid()
      ensures |list| == |order|
      ensures forall k :: 0 <= k < |order| ==> list[k] == Value().books[order[k]]
    {
      list := [];
      var i := 0;
      while i < |order|
        invariant 0 <= i <= |order| && |list| == i
        invariant forall k :: 0 <= k < i ==> list[k] == books[order[k]].Value()
      {
        var stored := books[order[i]];
        list := list + [stored.Value()];
        i := i + 1;
      }
    }
  }

  lemma BegunWithNothing(dayStartNs: int)
    ensures Begun(None, dayStartNs) == EMPTY_DAY
  {
  }

  /** The variables of `run`, which `handle_gap` shares. */
  class DayRun {
    const table: BookTable
    var changes: seq<StateChange>
    var intervals: seq<Interval>
    var authority: Option<string>
    var validFrom: Option<int>
    var lastValid: Option<string>
    var activeGaps: set<string>

    ghost predicate Valid()
      reads this, table
    {
      table.Valid()
    }

    ghost function Value(): Day
      reads this, table, table.books.Values
    {
      var t := table.Value();
      Day(t.books, t.order, changes, intervals, authority, validFrom, lastValid, activeGaps)
    }

    constructor ()
      ensures Valid() && Value() == EMPTY_DAY && fresh(table) && table.books == map[]
    {
      table := new BookTable();
      changes, intervals := [], [];
      authority, validFrom, lastValid := None, None, None;
      activeGaps := {};
    }

    method EndInterval(at: int, reason: string)
      modifies this`intervals
      ensures intervals == Ended(old(Value()), at, reason)
    {
      if authority.Some? && validFrom.Some? {
        intervals := intervals + [Interval(validFrom.value, at, authority.value, reason)];
      }
    }

    /** An OPEN fact ends the open interval and invalidates every book. */
    method HandleOpen(gap: GapEvent)
      requires Valid() && gap.open
      modifies this, table.books.Values
      ensures Valid() && table.books == old(table.books)
      ensures Value() == OnGap(old(Value()), gap)
    {
      hide InvalidateAll, GapChanges, BookTable.Value, BookTable.Valid, Ended;
      var at := gap.EffectiveNs();
      ghost var books := table.Value();
      EndInterval(at, "transport_gap");
      authority, validFrom, lastValid := None, None, None;
      activeGaps := activeGaps + {gap.gapId};
      assert table.Value() == books;
      var reported := table.InvalidateBooks(at, gap.reason);
      ghost var invalid := table.Value();
      changes := changes + reported;
      assert table.Value() == invalid;
    }

    method HandleGap(gap: GapEvent)
      requires Valid()
      modifies this, table.books.Values
      ensures Valid() && table.books == old(table.books)
      ensures Value() == OnGap(old(Value()), gap)
    {
      hide BookTable.Value, BookTable.Valid, InvalidateAll, GapChanges, Ended;
      if gap.open {
        hide OnGap;
        HandleOpen(gap);
        return;
      }
      activeGaps := activeGaps - {gap.gapId};
      if activeGaps != {} || lastValid.None? {
        return;
      }
      var candidate := table.Lookup(lastValid.value);
      if candidate.None? || candidate.value.state != VALID {
        return;
      }
      authority := lastValid;
      validFrom := Some(gap.observedNs);
    }

    /** What `run` does with the change a row reports. */
    method HandleChange(c: string, change: StateChange)
      requires Valid()
      modifies this
      ensures Valid()
      ensures Value() == OnChange(old(Value()), c, change)
    {
      hide BookTable.Value, Injective, Lists;
      changes := changes + [change];
      if change.state == VALID {
        lastValid := Some(c);
        if activeGaps != {} {
          return;
        }
        EndInterval(change.atNs, "connection_switch");
        authority, validFrom := Some(c), Some(change.atNs);
      } else if authority == Some(c) && validFrom.Some? {
        EndInterval(change.atNs, change.reason);
        authority, validFrom := None, None;
        if lastValid == Some(c) {
          lastValid := None;
        }
      }
    }

    method HandleRow(row: Row)
      requires Valid()
      modifies this, table, table.books.Values
      ensures Valid() && fresh(table.books.Values - old(table.books.Values))
      ensures Value() == OnRow(old(Value()), row)
    {
      hide Feed, OnChange, BookTable.Value;
      ghost var before := Value();
      var change := table.FeedRow(row);
      var c := row.Connection();
      assert Value() == Stored(before, c, Feed(BookOf(before, c), row).book);
      if change.None? {
        return;
      }
      HandleChange(c, change.value);
    }

    /** The books and the authority the previous day's checkpoint hands over. */
    method Load(checkpoint: Checkpoint, dayStartNs: int) returns (error: Option<CheckpointError>)
      requires Valid() && Value() == EMPTY_DAY
      modifies this, table
      ensures Valid() && fresh(table.books.Values - old(table.books.Values))
      ensures match Resume(Some(checkpoint), dayStartNs)
              case Err(e) => error == Some(e)
              case Ok(begun) => error.None? && Value() == begun
    {
      hide AddAnchored, Begun, DayRun.Value, BookTable.Value, Injective, Lists;
      if checkpoint.valid.Some? {
        LoadValid(checkpoint.valid.value, dayStartNs);
      } else {
        BegunWithNothing(dayStartNs);
      }
      error := LoadAnchored(checkpoint.anchored);
    }

    /** The saved VALID book is in authority from the start of the day. */
    method LoadValid(saved: ValidBook, dayStartNs: int)
      requires Valid() && Value() == EMPTY_DAY
      modifies this, table
      ensures Valid() && fresh(table.books.Values - old(table.books.Values))
      ensures Value() == Begun(Some(saved), dayStartNs)
    {
      hide RestoreValid, Injective, Lists;
      var book := RestoreValid(saved);
      assert book.connectionId in table.books <==> book.connectionId in Value().books;
      table.Add(book.connectionId, book);
      authority, lastValid, validFrom := Some(book.connectionId), Some(book.connectionId), Some(dayStartNs);
    }

    method LoadAnchored(anchored: seq<AnchoredBook>) returns (error: Option<CheckpointError>)
      requires Valid()
      modifies table
      ensures Valid() && fresh(table.books.Values - old(table.books.Values))
      ensures match AddAnchored(old(Value()), anchored)
              case Err(e) => error == Some(e)
              case Ok(begun) => error.None? && Value() == begun
    {
      hide RestoreAnchored, Injective, Lists;
      var i := 0;
      while i < |anchored|
        invariant 0 <= i <= |anchored|
        invariant Valid() && fresh(table.books.Values - old(table.books.Values))
        invariant AddAnchored(Value(), anchored[i..]) == AddAnchored(old(Value()), anchored)
      {
        var saved := anchored[i];
        assert saved.connectionId in table.books <==> saved.connectionId in Value().books;
        if saved.connectionId in table.books {
          return Some(RepeatedConnection);
        }
        table.Add(saved.connectionId, RestoreAnchored(saved));
        assert anchored[i..][1..] == anchored[i + 1..];
        i := i + 1;
      }
      return None;
    }

    method FinalObject() returns (book: Option<Book>)
      requires Valid()
      ensures book == FinalBook(Value())
    {
      if authority.Some? && activeGaps == {} {
        book := table.Lookup(authority.value);
      } else {
        book := None;
      }
    }

    method BookList() returns (list: seq<Book>)
      requires Valid()
      ensures list == BooksInOrder(Value())
    {
      list := table.List();
    }

    /** The open interval lasts to midnight; empty ones are dropped; the checkpoint is built. */
    method EndDay(dayEndNs: int) returns (r: Result<DayOutput, RunError>)
      requires Valid()
      modifies this`intervals
      ensures match Finish(old(Value()), dayEndNs)
              case Err(e) => r == Err(BadCheckpoint(e))
              case Ok(output) => r == Ok(output)
    {
      hide BuildCheckpoint, NonEmpty, BookTable.Value, FinalBook, BooksInOrder;
      var book := FinalObject();
      var list := BookList();
      EndInterval(dayEndNs, "utc_day_end");
      match BuildCheckpoint(book, list, dayEndNs) {
        case Err(e) => return Err(BadCheckpoint(e));
        case Ok(saved) => return Ok(DayOutput(changes, NonEmpty(intervals), saved));
      }
    }

    /** The rows and the gap facts, the latter first when times are equal. */
    method Consume(rows: seq<Row>, gaps: seq<GapEvent>)
      requires Valid()
      modifies this, table, table.books.Values
      ensures Valid() && fresh(table.books.Values - old(table.books.Values))
      ensures var events := Merge(rows, gaps);
              Value() == After(old(Value()), events, |events|)
    {
      hide OnRow, OnGap, DayRun.Valid, DayRun.Value, After, Merge;
      ghost var start := Value();
      ghost var events := Merge(rows, gaps);
      AfterNothing(start, events);
      NothingToMerge();
      ghost var n: nat := 0;
      var i, g: nat := 0, 0;
      while i < |rows|
        invariant 0 <= i <= |rows| && 0 <= g <= |gaps| && n <= |events|
        invariant Valid() && fresh(table.books.Values - old(table.books.Values))
        invariant events[n..] == Merge(rows[i..], gaps[g..])
        invariant Value() == After(start, events, n)
      {
        g, n := ConsumeGapsBefore(rows[i..], gaps, g, start, events, n);
        MergeRow(rows[i..], gaps[g..], events, n);
        AfterRow(start, events, n, rows[i]);
        HandleRow(rows[i]);
        assert rows[i..][1..] == rows[i + 1..];
        i := i + 1;
        n := n + 1;
      }
      assert rows[i..] == [];
      g, n := ConsumeGapsBefore([], gaps, g, start, events, n);
      assert gaps[g..] == [];
    }

    /** `while next_gap is not None and ... <= received_ns`: all the rest when no row is left. */
    method ConsumeGapsBefore(rows: seq<Row>, gaps: seq<GapEvent>, from: nat, ghost start: Day,
                             ghost events: seq<Event>, ghost done: nat)
      returns (g: nat, ghost n: nat)
      requires Valid() && from <= |gaps| && done <= |events|
      requires events[done..] == Merge(rows, gaps[from..])
      requires Value() == After(start, events, done)
      modifies this, table.books.Values
      ensures Valid() && table.books == old(table.books)
      ensures from <= g <= |gaps| && n <= |events|
      ensures g == |gaps| || (rows != [] && gaps[g].EffectiveNs() > rows[0].ReceivedNs())
      ensures events[n..] == Merge(rows, gaps[g..])
      ensures Value() == After(start, events, n)
    {
      hide OnRow, OnGap, DayRun.Valid, DayRun.Value, After, Merge;
      g, n := from, done;
      while g < |gaps| && (rows == [] || gaps[g].EffectiveNs() <= rows[0].ReceivedNs())
        invariant from <= g <= |gaps| && n <= |events|
        invariant Valid() && table.books == old(table.books)
        invariant events[n..] == Merge(rows, gaps[g..])
        invariant Value() == After(start, events, n)
        decreases |gaps| - g
      {
        MergeGap(rows, gaps[g..], events, n);
        AfterGap(start, events, n, gaps[g]);
        HandleGap(gaps[g]);
        assert gaps[g..][1..] == gaps[g + 1..];
        g := g + 1;
        n := n + 1;
      }
    }
  }

  /**
   The whole day. `canStart` says whether the day may begin without a previous checkpoint; the
   gap facts come sorted as `_transport_gap_events` sorts them.
   */
  method Run(rows: seq<Row>, gaps: seq<GapEvent>, checkpoint: Option<Checkpoint>, canStart: bool,
             dayStartNs: int, dayEndNs: int)
    returns (r: Result<DayOutput, RunError>)
    ensures r ==
      if checkpoint.None? && !canStart then Err(MissingCheckpoint)
      else
        match Resume(checkpoint, dayStartNs)
        case Err(e) => Err(BadCheckpoint(e))
        case Ok(start) =>
          var events := Merge(rows, gaps);
          match Finish(After(start, events, |events|), dayEndNs)
          case Err(e) => Err(BadCheckpoint(e))
          case Ok(output) => Ok(output)
  {
    if checkpoint.None? && !canStart {
      return Err(MissingCheckpoint);
    }
    hide Merge, After, Resume, Finish, DayRun.Value;
    var run := new DayRun();
    if checkpoint.Some? {
      var error := run.Load(checkpoint.value, dayStartNs);
      if error.Some? {
        return Err(BadCheckpoint(error.value));
      }
    } else {
      ResumeNothing(dayStartNs);
    }
    run.Consume(rows, gaps);
    r := run.EndDay(dayEndNs);
  }

  lemma AfterNothing(start: Day, events: seq<Event>)
    ensures After(start, events, 0) == start
  {
  }

  lemma AfterRow(start: Day, events: seq<Event>, n: nat, row: Row)
    requires n < |events| && events[n] == RowEvent(row)
    ensures After(start, events, n + 1) == OnRow(After(start, events, n), row)
  {
  }

  lemma AfterGap(start: Day, events: seq<Event>, n: nat, gap: GapEvent)
    requires n < |events| && events[n] == GapFact(gap)
    ensures After(start, events, n + 1) == OnGap(After(start, events, n), gap)
  {
  }

  lemma NothingToMerge()
    ensures Merge([], []) == []
  {
  }

  lemma ResumeNothing(dayStartNs: int)
    ensures Resume(None, dayStartNs) == Ok(EMPTY_DAY)
  {
  }

  lemma MergeGap(rows: seq<Row>, gaps: seq<GapEvent>, events: seq<Event>, n: nat)
    requires gaps != [] && (rows == [] || gaps[0].EffectiveNs() <= rows[0].ReceivedNs())
    requires n <= |events| && events[n..] == Merge(rows, gaps)
    ensures n < |events| && events[n] == GapFact(gaps[0])
    ensures events[n + 1..] == Merge(rows, gaps[1..])
  {
    assert events[n..][1..] == events[n + 1..];
  }

  lemma MergeRow(rows: seq<Row>, gaps: seq<GapEvent>, events: seq<Event>, n: nat)
    requires rows != [] && (gaps == [] || gaps[0].EffectiveNs() > rows[0].ReceivedNs())
    requires n <= |events| && events[n..] == Merge(rows, gaps)
    ensures n < |events| && events[n] == RowEvent(rows[0])
    ensures events[n + 1..] == Merge(rows[1..], gaps)
  {
    assert events[n..][1..] == events[n + 1..];
  }

  /** No interval meets the span from a gap's OPEN to its CLOSED, or to the end of the day. */
  ghost predicate AvoidsGaps(intervals: seq<Interval>, events: seq<Event>, day: Span) {
    forall id, j, k, n :: 0 <= j < k <= |events| && OpenThrough(events, id, j, k) && 0 <= n < |intervals| ==>
      !Meets(intervals[n], events[j].Time(), if k < |events| then events[k].Time() else day.endNs)
  }

  lemma WrittenAvoidsGaps(start: Day, events: seq<Event>, day: Span)
    requires TimesSorted(events, day)
    requires DaySound(start, day.startNs, day.startNs) && start.intervals == []
    ensures AvoidsGaps(Written(After(start, events, |events|), day.endNs), events, day)
  {
    hide DaySound, After, Written, OpenThrough, Meets;
    var written := Written(After(start, events, |events|), day.endNs);
    forall id, j, k, n | 0 <= j < k <= |events| && OpenThrough(events, id, j, k) && 0 <= n < |written|
      ensures !Meets(written[n], events[j].Time(), if k < |events| then events[k].Time() else day.endNs)
    {
      IntervalsAvoidGaps(start, events, day, id, j, k, written[n]);
    }
  }

  /**
   What a run promises for sorted rows and gap facts of the day and a checkpoint that resumes
   soundly: ordered, disjoint, non-empty intervals inside the day, each one VALID and gap-free
   throughout, none of them meeting a transport gap, and a checkpoint that resumes the next day.
   */
  lemma RunIsSound(rows: seq<Row>, gaps: seq<GapEvent>, start: Day, day: Span, output: DayOutput)
    requires day.startNs <= day.endNs && RowsSorted(rows, day) && GapsSorted(gaps, day)
    requires DaySound(start, day.startNs, day.startNs) && OrderSound(start) && start.intervals == []
    requires var events := Merge(rows, gaps); Finish(After(start, events, |events|), day.endNs) == Ok(output)
    ensures Ordered(output.intervals, day.startNs, day.endNs)
    ensures forall k :: 0 <= k < |output.intervals| ==> output.intervals[k].fromNs < output.intervals[k].toNs
    ensures var events := Merge(rows, gaps);
            forall k, i :: 0 <= k < |output.intervals| && 0 <= i <= |events| && MeetsSegment(output.intervals[k], events, day, i) ==>
              InForce(After(start, events, i), output.intervals[k].connectionId)
    ensures AvoidsGaps(output.intervals, Merge(rows, gaps), day)
    ensures Resume(Some(output.checkpoint), day.endNs).Ok?
    ensures var next := Resume(Some(output.checkpoint), day.endNs).value;
            DaySound(next, day.endNs, day.endNs) && OrderSound(next) && next.intervals == []
  {
    hide DaySound, OrderSound, After, Resume, Ordered, BuildCheckpoint, FinalBook, BooksInOrder, AvoidsGaps, Written;
    var events := Merge(rows, gaps);
    MergeIsExact(rows, gaps, day);
    WrittenAvoidsGaps(start, events, day);
    IntervalsValid(start, events, day);
    var final := After(start, events, |events|);
    OrderAfter(start, events, |events|);
    EndSound(start, events, day);
    NextDayResumes(final, output.checkpoint, day.startNs, day.endNs);
  }

  lemma EndSound(start: Day, events: seq<Event>, day: Span)
    requires TimesSorted(events, day)
    requires DaySound(start, day.startNs, day.startNs) && start.intervals == []
    ensures DaySound(After(start, events, |events|), day.startNs, day.endNs)
  {
    hide After;
    TracedUpTo(start, events, day, |events|);
    EdgesSorted(events, day, |events|, |events| + 1);
    var final := After(start, events, |events|);
    forall c | c in final.books
      ensures Sound(final.books[c], day.endNs)
    {
      SoundLater(final.books[c], Edge(events, day, |events|), day.endNs);
    }
  }

  /**
   A run whose snapshots reach only books that are not VALID writes its checkpoint: it never raises
   at its end. `start` is the empty day or one resumed from a checkpoint that a run has written.
   */
  lemma RunNeverRaises(rows: seq<Row>, gaps: seq<GapEvent>, start: Day, day: Span)
    requires day.startNs <= day.endNs && RowsSorted(rows, day) && GapsSorted(gaps, day)
    requires DaySound(start, day.startNs, day.startNs) && OrderSound(start) && start.intervals == []
    requires Unanchored(start) && SnapshotsFindNoValidBook(start, Merge(rows, gaps))
    ensures var events := Merge(rows, gaps); Finish(After(start, events, |events|), day.endNs).Ok?
  {
    hide DaySound, OrderSound, After, Finish, SnapshotsFindNoValidBook, Unanchored;
    var events := Merge(rows, gaps);
    MergeIsExact(rows, gaps, day);
    EndSound(start, events, day);
    EndNeverRaises(start, events, day.endNs, day.startNs);
  }
}
