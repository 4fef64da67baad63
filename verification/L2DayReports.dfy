/**
 The day told from what each connection reports. A connection's book depends on its own rows and on
 the OPEN facts alone; which connection is authoritative, since when, and which moments are written
 follows from the changes those books report and from the gap facts.
 */
module L2DayReports {
  import opened Base
  import opened L2Book
  import opened L2Checkpoint
  import opened L2Day
  import opened L2DayProofs
  import opened L2DayChain
  import R = L2Replay

  // ---------------------------------------------------------------- one connection on its own

  /** The book of connection `c` after `n` events, from its own rows and the OPEN facts. */
  function OwnBook(start: Day, events: seq<Event>, n: nat, c: string): Option<Book>
    requires n <= |events|
  {
    if n == 0 then (if c in start.books then Some(start.books[c]) else None)
    else
      var before := OwnBook(start, events, n - 1, c);
      match events[n - 1]
      case RowEvent(row) => if row.Connection() == c then Some(Feed(OrFresh(before, c), row).book) else before
      case GapFact(gap) => if gap.open && before.Some? then Some(Invalidate(before.value)) else before
  }

  function OrFresh(book: Option<Book>, c: string): Book {
    if book.Some? then book.value else FreshBook(c)
  }

  /** What event `n` makes connection `c` report. */
  function Report(start: Day, events: seq<Event>, n: nat, c: string): Option<StateChange>
    requires n < |events|
  {
    var before := OwnBook(start, events, n, c);
    match events[n]
    case RowEvent(row) => if row.Connection() == c then Feed(OrFresh(before, c), row).change else None
    case GapFact(gap) =>
      if gap.open && before.Some? && before.value.state == VALID
      then Some(StateChange(c, gap.EffectiveNs(), GAPPED, before.value.previousUpdateId, gap.reason))
      else None
  }

  lemma {:induction false} BooksAreOwn(start: Day, events: seq<Event>, n: nat, c: string)
    requires n <= |events|
    ensures OwnBook(start, events, n, c) ==
              if c in After(start, events, n).books then Some(After(start, events, n).books[c]) else None
  {
    hide Feed, Ended, GapChanges, Invalidate;
    if n > 0 {
      BooksAreOwn(start, events, n - 1, c);
      match events[n - 1] {
        case RowEvent(row) =>
          var before := After(start, events, n - 1);
          var d := row.Connection();
          assert OnRow(before, row).books == before.books[d := Feed(BookOf(before, d), row).book];
        case GapFact(gap) =>
      }
    }
  }

  /** What connection `c` has received by event `n`; `known` says whether it has a book by then. */
  function OwnInputs(events: seq<Event>, n: nat, c: string, known: bool): seq<R.Input>
    requires n <= |events|
  {
    if n == 0 then []
    else
      var before := OwnInputs(events, n - 1, c, known);
      match events[n - 1]
      case RowEvent(row) =>
        if row.Connection() != c then before
        else before + [if row.DepthRow? then R.DiffIn(row.diff) else R.SnapshotIn(row.snapshot)]
      case GapFact(gap) => if gap.open && (known || before != []) then before + [R.GapIn] else before
  }

  lemma RunMore(book: Book, inputs: seq<R.Input>, last: R.Input)
    ensures R.Run(book, inputs + [last]) == R.Step(R.Run(book, inputs), last).book
  {
    assert (inputs + [last])[..|inputs|] == inputs;
  }

  /** A connection's book is the run of a book of its own on what the connection has received. */
  lemma {:induction false} OwnBookIsRun(start: Day, events: seq<Event>, n: nat, c: string)
    requires n <= |events|
    ensures var inputs := OwnInputs(events, n, c, c in start.books);
            OwnBook(start, events, n, c) ==
              if c in start.books then Some(R.Run(start.books[c], inputs))
              else if inputs != [] then Some(R.Run(FreshBook(c), inputs)) else None
  {
    hide OnDiff, OnSnapshot, Invalidate;
    if n > 0 {
      OwnBookIsRun(start, events, n - 1, c);
      var before := OwnInputs(events, n - 1, c, c in start.books);
      var book := if c in start.books then start.books[c] else FreshBook(c);
      match events[n - 1] {
        case RowEvent(row) =>
          RunMore(book, before, if row.DepthRow? then R.DiffIn(row.diff) else R.SnapshotIn(row.snapshot));
        case GapFact(gap) => RunMore(book, before, R.GapIn);
      }
      assert before == [] ==> R.Run(book, before) == book;
      hide R.Run;
    }
  }

  // ---------------------------------------------------------------- the reported changes

  function OfConnection(changes: seq<StateChange>, c: string): seq<StateChange> {
    if changes == [] then []
    else
      var last := changes[|changes| - 1];
      OfConnection(changes[..|changes| - 1], c) + (if last.connectionId == c then [last] else [])
  }

  function OwnReports(start: Day, events: seq<Event>, n: nat, c: string): seq<StateChange>
    requires n <= |events|
  {
    if n == 0 then []
    else
      var report := Report(start, events, n - 1, c);
      OwnReports(start, events, n - 1, c) + (if report.Some? then [report.value] else [])
  }

  lemma {:induction false} OfConnectionConcat(a: seq<StateChange>, b: seq<StateChange>, c: string)
    ensures OfConnection(a + b, c) == OfConnection(a, c) + OfConnection(b, c)
  {
    if b == [] {
      assert a + b == a;
    } else {
      var init, last := b[..|b| - 1], b[|b| - 1];
      OfConnectionConcat(a, init, c);
      assert (a + b)[..|a + b| - 1] == a + init;
      Regroup(OfConnection(a, c), OfConnection(init, c), if last.connectionId == c then [last] else []);
    }
  }

  lemma Regroup(a: seq<StateChange>, b: seq<StateChange>, c: seq<StateChange>)
    ensures (a + b) + c == a + (b + c)
  {
  }

  lemma OneOf(change: StateChange, c: string)
    ensures OfConnection([change], c) == if change.connectionId == c then [change] else []
  {
    assert [change][..0] == [];
    assert OfConnection([], c) == [];
  }

  /** An OPEN fact makes each VALID connection report once, and no other. */
  lemma {:induction false} GapChangesOf(books: map<string, Book>, order: seq<string>, at: int, reason: string, c: string)
    requires forall i, j :: 0 <= i < j < |order| ==> order[i] != order[j]
    requires forall d :: d in books ==> books[d].connectionId == d
    ensures OfConnection(GapChanges(books, order, at, reason), c) ==
              if c in order && c in books && books[c].state == VALID
              then [StateChange(c, at, GAPPED, books[c].previousUpdateId, reason)] else []
  {
    if order != [] {
      var init, d := order[..|order| - 1], order[|order| - 1];
      GapChangesOf(books, init, at, reason, c);
      assert order == init + [d];
      if d in books && books[d].state == VALID {
        var change := StateChange(books[d].connectionId, at, GAPPED, books[d].previousUpdateId, reason);
        OfConnectionConcat(GapChanges(books, init, at, reason), [change], c);
        OneOf(change, c);
      }
    }
  }

  lemma RowReports(state: Day, row: Row, from: int, now: int, c: string)
    requires DaySound(state, from, now) && now <= row.ReceivedNs()
    ensures var change := Feed(BookOf(state, c), row).change;
            OfConnection(OnRow(state, row).changes, c) ==
              OfConnection(state.changes, c) + (if row.Connection() == c && change.Some? then [change.value] else [])
  {
    FeedSound(state, row, from, now);
    hide DaySound, Sound, Feed, Ended, OfConnection;
    var d := row.Connection();
    var change := Feed(BookOf(state, d), row).change;
    if change.Some? {
      assert OnRow(state, row).changes == state.changes + [change.value];
      hide OnRow;
      OfConnectionConcat(state.changes, [change.value], c);
      OneOf(change.value, c);
      hide BookOf;
    } else {
      assert OnRow(state, row).changes == state.changes;
      hide OnRow, BookOf;
    }
  }

  lemma GapReports(state: Day, gap: GapEvent, from: int, now: int, c: string)
    requires DaySound(state, from, now) && OrderSound(state)
    ensures OfConnection(OnGap(state, gap).changes, c) ==
              OfConnection(state.changes, c) +
              if gap.open && c in state.books && state.books[c].state == VALID
              then [StateChange(c, gap.EffectiveNs(), GAPPED, state.books[c].previousUpdateId, gap.reason)] else []
  {
    hide Sound, Ended, InvalidateAll, OfConnection, GapChanges;
    if gap.open {
      GapChangesOf(state.books, state.order, gap.EffectiveNs(), gap.reason, c);
      OfConnectionConcat(state.changes, GapChanges(state.books, state.order, gap.EffectiveNs(), gap.reason), c);
    } else {
      assert OnGap(state, gap).changes == state.changes;
    }
  }

  /** What one event adds to the changes, as connection `c` sees it. */
  lemma EventReports(start: Day, events: seq<Event>, day: Span, n: nat, c: string)
    requires TimesSorted(events, day) && n < |events|
    requires DaySound(After(start, events, n), day.startNs, Edge(events, day, n)) && OrderSound(After(start, events, n))
    ensures var report := Report(start, events, n, c);
            OfConnection(After(start, events, n + 1).changes, c) ==
              OfConnection(After(start, events, n).changes, c) + (if report.Some? then [report.value] else [])
  {
    BooksAreOwn(start, events, n, c);
    EdgesSorted(events, day, n, n + 1);
    var state := After(start, events, n);
    hide DaySound, OrderSound, OfConnection, OnRow, OnGap, OwnBook, Feed;
    match events[n]
    case RowEvent(row) => RowReports(state, row, day.startNs, Edge(events, day, n), c); hide After;
    case GapFact(gap) => GapReports(state, gap, day.startNs, Edge(events, day, n), c); hide After;
  }

  /**
   The changes of a day, read for one connection, are exactly what that connection's own book
   reports, event by event: nothing is dropped, repeated or reordered.
   */
  lemma {:induction false} ChangesAreReports(start: Day, events: seq<Event>, day: Span, n: nat, c: string)
    requires TimesSorted(events, day) && n <= |events|
    requires DaySound(start, day.startNs, day.startNs) && OrderSound(start) && start.intervals == []
    ensures OfConnection(After(start, events, n).changes, c) ==
              OfConnection(start.changes, c) + OwnReports(start, events, n, c)
  {
    hide DaySound, OrderSound, OfConnection, OnEvent, Report, After;
    if n > 0 {
      ChangesAreReports(start, events, day, n - 1, c);
      TracedUpTo(start, events, day, n - 1);
      OrderAfter(start, events, n - 1);
      EventReports(start, events, day, n - 1, c);
      var report := Report(start, events, n - 1, c);
      Regroup(OfConnection(start.changes, c), OwnReports(start, events, n - 1, c),
              if report.Some? then [report.value] else []);
    } else {
      AfterNone(start, events);
      assert OfConnection(start.changes, c) + [] == OfConnection(start.changes, c);
    }
  }

  lemma AfterNone(start: Day, events: seq<Event>)
    ensures After(start, events, 0) == start
  {
  }

  // ---------------------------------------------------------------- open gaps

  predicate Opens(event: Event, id: string) {
    event.GapFact? && event.gap.open && event.gap.gapId == id
  }

  predicate Closes(event: Event, id: string) {
    event.GapFact? && !event.gap.open && event.gap.gapId == id
  }

  ghost predicate NotClosed(events: seq<Event>, id: string, a: nat, n: nat)
    requires n <= |events|
  {
    forall k :: a <= k < n ==> !Closes(events[k], id)
  }

  /** The latest fact about gap `id` before event `n` is an OPEN fact. */
  ghost predicate GapOpen(start: Day, events: seq<Event>, n: nat, id: string)
    requires n <= |events|
  {
    || (id in start.activeGaps && NotClosed(events, id, 0, n))
    || exists m :: 0 <= m < n && Opens(events[m], id) && NotClosed(events, id, m + 1, n)
  }

  lemma GapOpenStep(start: Day, events: seq<Event>, n: nat, id: string)
    requires n < |events|
    ensures GapOpen(start, events, n + 1, id) <==>
              Opens(events[n], id) || (GapOpen(start, events, n, id) && !Closes(events[n], id))
  {
    if m :| 0 <= m < n && Opens(events[m], id) && NotClosed(events, id, m + 1, n) && !Closes(events[n], id) {
      assert NotClosed(events, id, m + 1, n + 1);
    }
    if Opens(events[n], id) {
      assert NotClosed(events, id, n + 1, n + 1);
    }
    if m :| 0 <= m < n + 1 && Opens(events[m], id) && NotClosed(events, id, m + 1, n + 1) && m < n {
      assert NotClosed(events, id, m + 1, n);
    }
  }

  /** The open gaps are exactly those whose latest fact is an OPEN fact. */
  lemma {:induction false} GapsAreOpen(start: Day, events: seq<Event>, n: nat, id: string)
    requires n <= |events|
    ensures id in After(start, events, n).activeGaps <==> GapOpen(start, events, n, id)
  {
    hide Feed, Ended, GapChanges, InvalidateAll;
    if n > 0 {
      GapsAreOpen(start, events, n - 1, id);
      GapOpenStep(start, events, n - 1, id);
      hide GapOpen;
      match events[n - 1] {
        case RowEvent(row) =>
        case GapFact(gap) =>
      }
    }
  }

  ghost predicate NoGapOpen(start: Day, events: seq<Event>, n: nat)
    requires n <= |events|
  {
    forall id :: !GapOpen(start, events, n, id)
  }

  lemma NoGapIsOpen(start: Day, events: seq<Event>, n: nat)
    requires n <= |events|
    ensures After(start, events, n).activeGaps == {} <==> NoGapOpen(start, events, n)
  {
    forall id
      ensures id in After(start, events, n).activeGaps <==> GapOpen(start, events, n, id)
    {
      GapsAreOpen(start, events, n, id);
    }
    hide GapOpen, After;
    if NoGapOpen(start, events, n) {
      assert forall id :: id !in After(start, events, n).activeGaps;
    }
  }

  // ---------------------------------------------------------------- who is authoritative

  /** The connection that was the last to report VALID, since the last OPEN fact. */
  function LastReporter(start: Day, events: seq<Event>, n: nat): Option<string>
    requires n <= |events|
  {
    if n == 0 then start.lastValid
    else
      match events[n - 1]
      case RowEvent(row) =>
        var report := Report(start, events, n - 1, row.Connection());
        if report.Some? && report.value.state == VALID then Some(row.Connection())
        else LastReporter(start, events, n - 1)
      case GapFact(gap) => if gap.open then None else LastReporter(start, events, n - 1)
  }

  ghost predicate Reports(start: Day, events: seq<Event>, n: nat, c: string, state: L2State)
    requires n < |events|
  {
    && events[n].RowEvent? && events[n].row.Connection() == c
    && Report(start, events, n, c).Some? && Report(start, events, n, c).value.state == state
  }

  ghost predicate OwnValid(start: Day, events: seq<Event>, n: nat, c: string)
    requires n <= |events|
  {
    OwnBook(start, events, n, c).Some? && OwnBook(start, events, n, c).value.state == VALID
  }

  /**
   Event `n` puts connection `c` in authority: `c` reports VALID while no gap is open, or a CLOSED fact
   leaves no gap open and the last connection to report VALID is `c`, which still is.
   */
  ghost predicate PutsIn(start: Day, events: seq<Event>, n: nat, c: string)
    requires n < |events|
  {
    || (Reports(start, events, n, c, VALID) && NoGapOpen(start, events, n))
    || (events[n].GapFact? && !events[n].gap.open && NoGapOpen(start, events, n + 1)
        && LastReporter(start, events, n) == Some(c) && OwnValid(start, events, n, c))
  }

  /** Event `n` ends the authority of `c` if it has it: `c` reports a break, or a gap opens. */
  ghost predicate PutsOut(start: Day, events: seq<Event>, n: nat, c: string)
    requires n < |events|
  {
    || (events[n].GapFact? && events[n].gap.open)
    || (events[n].RowEvent? && events[n].row.Connection() == c
        && Report(start, events, n, c).Some? && Report(start, events, n, c).value.state != VALID)
  }

  /** Event `n` ends the authority of `c` or hands it to another connection. */
  ghost predicate Deposes(start: Day, events: seq<Event>, n: nat, c: string)
    requires n < |events|
  {
    PutsOut(start, events, n, c) || exists d :: d != c && PutsIn(start, events, n, d)
  }

  /** No event from `a` up to `n` deposes `c`. */
  ghost predicate Stays(start: Day, events: seq<Event>, a: nat, n: nat, c: string)
    requires n <= |events|
  {
    forall k :: a <= k < n ==> !Deposes(start, events, k, c)
  }

  /** The latest event that decides about authority has put `c` in it. */
  ghost predicate InAuthority(start: Day, events: seq<Event>, n: nat, c: string)
    requires n <= |events|
  {
    || (start.authority == Some(c) && Stays(start, events, 0, n, c))
    || exists m :: 0 <= m < n && PutsIn(start, events, m, c) && Stays(start, events, m + 1, n, c)
  }

  /** What is known of the state between two events. */
  ghost predicate Told(start: Day, events: seq<Event>, day: Span, n: nat)
    requires n <= |events|
  {
    var state := After(start, events, n);
    && DaySound(state, day.startNs, Edge(events, day, n))
    && (state.activeGaps == {} <==> NoGapOpen(start, events, n))
    && (forall c :: OwnBook(start, events, n, c) == if c in state.books then Some(state.books[c]) else None)
    && LastFits(start, events, n)
  }

  /** `last_valid_connection` is the last reporter, or forgotten because that one's book broke. */
  ghost predicate LastFits(start: Day, events: seq<Event>, n: nat)
    requires n <= |events|
  {
    var state := After(start, events, n);
    var last := LastReporter(start, events, n);
    state.lastValid == last ||
    (state.lastValid.None? && last.Some? && !OwnValid(start, events, n, last.value))
  }

  // What one event does to authority, on the state.

  lemma RowAuthority(state: Day, row: Row, from: int, now: int)
    requires DaySound(state, from, now) && now <= row.ReceivedNs()
    ensures var change := Feed(BookOf(state, row.Connection()), row).change;
            var after := OnRow(state, row);
            if change.Some? && change.value.state == VALID && state.activeGaps == {}
            then after.authority == Some(row.Connection()) && after.validFrom == Some(row.ReceivedNs())
            else if change.Some? && change.value.state != VALID && state.authority == Some(row.Connection())
            then after.authority.None? && after.validFrom.None?
            else after.authority == state.authority && after.validFrom == state.validFrom
  {
    hide Sound, Feed, Ended;
    FeedSound(state, row, from, now);
  }

  lemma RowLast(state: Day, row: Row)
    requires state.authority.Some? <==> state.validFrom.Some?
    ensures var c := row.Connection();
            var change := Feed(BookOf(state, c), row).change;
            OnRow(state, row).lastValid ==
              if change.Some? && change.value.state == VALID then Some(c)
              else if change.Some? && state.authority == Some(c) && state.lastValid == Some(c) then None
              else state.lastValid
  {
    hide Feed, Ended;
  }

  lemma GapAuthority(state: Day, gap: GapEvent)
    ensures var after := OnGap(state, gap);
            if gap.open then after.authority.None? && after.validFrom.None? && after.lastValid.None?
            else if after.activeGaps == {} && state.lastValid.Some? && state.lastValid.value in state.books
                    && state.books[state.lastValid.value].state == VALID
            then after.authority == state.lastValid && after.validFrom == Some(gap.observedNs)
                 && after.lastValid == state.lastValid
            else after.authority == state.authority && after.validFrom == state.validFrom && after.lastValid == state.lastValid
  {
    hide Ended, GapChanges, InvalidateAll;
  }

  lemma LastStep(start: Day, events: seq<Event>, day: Span, n: nat)
    requires TimesSorted(events, day) && n < |events| && Told(start, events, day, n)
    ensures LastFits(start, events, n + 1)
  {
    var state := After(start, events, n);
    EdgesSorted(events, day, n, n + 1);
    var last := LastReporter(start, events, n);
    match events[n]
    case RowEvent(row) =>
      var c := row.Connection();
      FeedSound(state, row, day.startNs, Edge(events, day, n));
      RowLast(state, row);
      assert OrFresh(OwnBook(start, events, n, c), c) == BookOf(state, c);
      hide Feed, OnRow, DaySound;
    case GapFact(gap) =>
      GapAuthority(state, gap);
      hide OnGap, DaySound;
  }

  lemma {:induction false} ToldAt(start: Day, events: seq<Event>, day: Span, n: nat)
    requires TimesSorted(events, day) && n <= |events|
    requires DaySound(start, day.startNs, day.startNs) && start.intervals == []
    ensures Told(start, events, day, n)
  {
    hide DaySound, OwnBook, NoGapOpen, LastFits, After;
    TracedUpTo(start, events, day, n);
    NoGapIsOpen(start, events, n);
    forall c
      ensures OwnBook(start, events, n, c) ==
                if c in After(start, events, n).books then Some(After(start, events, n).books[c]) else None
    {
      BooksAreOwn(start, events, n, c);
    }
    if n > 0 {
      assert Told(start, events, day, n - 1) by {
        ToldAt(start, events, day, n - 1);
      }
      hide Told;
      LastStep(start, events, day, n - 1);
    } else {
      NothingToldYet(start, events);
    }
  }

  lemma NothingToldYet(start: Day, events: seq<Event>)
    ensures LastFits(start, events, 0)
  {
  }

  /** One event and authority, told from the reports. */
  ghost predicate Decided(start: Day, events: seq<Event>, n: nat)
    requires n < |events|
  {
    var before, after := After(start, events, n), After(start, events, n + 1);
    && (forall c :: after.authority == Some(c) <==>
          PutsIn(start, events, n, c) || (before.authority == Some(c) && !Deposes(start, events, n, c)))
    && (forall c :: PutsIn(start, events, n, c) ==> after.validFrom == Some(events[n].Time()))
    && (after.authority.Some? && (forall c :: !PutsIn(start, events, n, c)) ==> after.validFrom == before.validFrom)
  }

  lemma RowPuts(start: Day, events: seq<Event>, day: Span, n: nat, c: string)
    requires n < |events| && events[n].RowEvent? && Told(start, events, day, n)
    ensures var state, row := After(start, events, n), events[n].row;
            var change := Feed(BookOf(state, row.Connection()), row).change;
            && (PutsIn(start, events, n, c) <==>
                  c == row.Connection() && change.Some? && change.value.state == VALID && state.activeGaps == {})
            && (PutsOut(start, events, n, c) <==>
                  c == row.Connection() && change.Some? && change.value.state != VALID)
  {
    var state, row := After(start, events, n), events[n].row;
    assert OrFresh(OwnBook(start, events, n, row.Connection()), row.Connection()) == BookOf(state, row.Connection());
    hide Feed, DaySound, After, OwnBook, NoGapOpen, LastFits, BookOf, OrFresh;
  }

  lemma RowDecides(start: Day, events: seq<Event>, day: Span, n: nat)
    requires TimesSorted(events, day) && n < |events| && Told(start, events, day, n) && events[n].RowEvent?
    ensures Decided(start, events, n)
  {
    var state := After(start, events, n);
    EdgesSorted(events, day, n, n + 1);
    var row := events[n].row;
    RowAuthority(state, row, day.startNs, Edge(events, day, n));
    assert After(start, events, n + 1) == OnRow(state, row);
    var change := Feed(BookOf(state, row.Connection()), row).change;
    forall c
      ensures PutsIn(start, events, n, c) <==>
                c == row.Connection() && change.Some? && change.value.state == VALID && state.activeGaps == {}
      ensures PutsOut(start, events, n, c) <==>
                c == row.Connection() && change.Some? && change.value.state != VALID
    {
      RowPuts(start, events, day, n, c);
    }
    hide Feed, OnRow, Told, After, PutsIn, PutsOut, BookOf;
    var c := row.Connection();
    if change.Some? && change.value.state == VALID && state.activeGaps == {} {
      assert PutsIn(start, events, n, c);
    } else if change.Some? && change.value.state != VALID && state.authority == Some(c) {
      assert PutsOut(start, events, n, c) && forall d :: !PutsIn(start, events, n, d);
    } else {
      assert forall d :: !PutsIn(start, events, n, d);
    }
  }

  /** The candidate of a CLOSED fact is the last reporter, if its book is still VALID. */
  lemma CandidateIs(start: Day, events: seq<Event>, day: Span, n: nat, c: string)
    requires n <= |events| && Told(start, events, day, n)
    ensures var state := After(start, events, n);
            LastReporter(start, events, n) == Some(c) && OwnValid(start, events, n, c) <==>
              state.lastValid == Some(c) && c in state.books && state.books[c].state == VALID
  {
    hide DaySound, NoGapOpen, LastReporter, After;
    assert OwnBook(start, events, n, c) ==
             if c in After(start, events, n).books then Some(After(start, events, n).books[c]) else None;
    hide OwnBook;
  }

  lemma ClosedPutsIn(start: Day, events: seq<Event>, day: Span, n: nat, c: string)
    requires n < |events| && events[n].GapFact? && !events[n].gap.open
    requires Told(start, events, day, n) && Told(start, events, day, n + 1)
    ensures var state := After(start, events, n);
            PutsIn(start, events, n, c) <==>
              After(start, events, n + 1).activeGaps == {} && state.lastValid == Some(c)
              && c in state.books && state.books[c].state == VALID
  {
    CandidateIs(start, events, day, n, c);
    hide DaySound, NoGapOpen, LastReporter, After, OwnBook, OwnValid, LastFits, Report;
  }

  lemma OpenDecides(start: Day, events: seq<Event>, n: nat)
    requires n < |events| && events[n].GapFact? && events[n].gap.open
    ensures Decided(start, events, n)
  {
    var state, gap := After(start, events, n), events[n].gap;
    GapAuthority(state, gap);
    assert After(start, events, n + 1) == OnGap(state, gap);
    hide OnGap, After, NoGapOpen, LastReporter, OwnBook, OwnValid, Report;
  }

  lemma CloseDecides(start: Day, events: seq<Event>, day: Span, n: nat)
    requires n < |events| && events[n].GapFact? && !events[n].gap.open
    requires Told(start, events, day, n) && Told(start, events, day, n + 1)
    ensures Decided(start, events, n)
  {
    hide Told;
    var state, gap := After(start, events, n), events[n].gap;
    GapAuthority(state, gap);
    assert After(start, events, n + 1) == OnGap(state, gap);
    forall c
      ensures PutsIn(start, events, n, c) <==>
                After(start, events, n + 1).activeGaps == {} && state.lastValid == Some(c)
                && c in state.books && state.books[c].state == VALID
    {
      ClosedPutsIn(start, events, day, n, c);
    }
    assert forall c :: !PutsOut(start, events, n, c);
    hide OnGap, After, PutsIn, PutsOut;
  }

  lemma {:induction false} EventDecides(start: Day, events: seq<Event>, day: Span, n: nat)
    requires TimesSorted(events, day) && n < |events|
    requires DaySound(start, day.startNs, day.startNs) && start.intervals == []
    ensures Decided(start, events, n)
  {
    hide DaySound, Told, Decided;
    ToldAt(start, events, day, n);
    ToldAt(start, events, day, n + 1);
    if events[n].RowEvent? {
      RowDecides(start, events, day, n);
    } else if events[n].gap.open {
      OpenDecides(start, events, n);
    } else {
      CloseDecides(start, events, day, n);
    }
  }

  // ---------------------------------------------------------------- authority over the day

  lemma InAuthorityStep(start: Day, events: seq<Event>, n: nat, c: string)
    requires n < |events|
    ensures InAuthority(start, events, n + 1, c) <==>
              PutsIn(start, events, n, c) || (InAuthority(start, events, n, c) && !Deposes(start, events, n, c))
  {
    hide PutsIn, Deposes;
    if PutsIn(start, events, n, c) {
      assert Stays(start, events, n + 1, n + 1, c);
    }
    if InAuthority(start, events, n, c) && !Deposes(start, events, n, c) {
      if m :| 0 <= m < n && PutsIn(start, events, m, c) && Stays(start, events, m + 1, n, c) {
        assert Stays(start, events, m + 1, n + 1, c);
      } else {
        assert Stays(start, events, 0, n + 1, c);
      }
    }
    if m :| 0 <= m < n + 1 && PutsIn(start, events, m, c) && Stays(start, events, m + 1, n + 1, c) {
      if m < n {
        assert Stays(start, events, m + 1, n, c);
      }
    } else if start.authority == Some(c) && Stays(start, events, 0, n + 1, c) {
      assert Stays(start, events, 0, n, c);
    }
  }

  /**
   A connection is authoritative exactly when the latest event that decides about authority put it
   there: its own report of VALID while no gap was open, or a CLOSED fact after which no gap was open
   while it was the last to have reported VALID.
   */
  lemma {:induction false} AuthorityExactly(start: Day, events: seq<Event>, day: Span, n: nat, c: string)
    requires TimesSorted(events, day) && n <= |events|
    requires DaySound(start, day.startNs, day.startNs) && start.intervals == []
    ensures After(start, events, n).authority == Some(c) <==> InAuthority(start, events, n, c)
  {
    hide DaySound, InAuthority, PutsIn, Deposes, After;
    if n > 0 {
      AuthorityExactly(start, events, day, n - 1, c);
      EventDecides(start, events, day, n - 1);
      InAuthorityStep(start, events, n - 1, c);
    } else {
      AuthorityAtStart(start, events, c);
    }
  }

  lemma AuthorityAtStart(start: Day, events: seq<Event>, c: string)
    ensures After(start, events, 0).authority == Some(c) <==> InAuthority(start, events, 0, c)
  {
    assert Stays(start, events, 0, 0, c);
  }

  /** Event `n` decides about authority while `c` has it. */
  ghost predicate Decides(start: Day, events: seq<Event>, n: nat, c: string)
    requires n < |events|
  {
    PutsOut(start, events, n, c) || exists d :: PutsIn(start, events, n, d)
  }

  /** No event from `a` up to `n` decides about the authority of `c`. */
  ghost predicate Undecided(start: Day, events: seq<Event>, a: nat, n: nat, c: string)
    requires n <= |events|
  {
    forall k :: a <= k < n ==> !Decides(start, events, k, c)
  }

  /** An event that does not decide leaves authority and the open interval as they are. */
  lemma UndecidedStep(start: Day, events: seq<Event>, day: Span, n: nat, c: string)
    requires TimesSorted(events, day) && n < |events|
    requires DaySound(start, day.startNs, day.startNs) && start.intervals == []
    requires After(start, events, n).authority == Some(c) && !Decides(start, events, n, c)
    ensures After(start, events, n + 1).authority == Some(c)
    ensures After(start, events, n + 1).validFrom == After(start, events, n).validFrom
  {
    hide DaySound, After;
    EventDecides(start, events, day, n);
    hide PutsIn, PutsOut;
  }

  /** While nothing decides, authority and the start of its interval stay. */
  lemma {:induction false} UndecidedKeeps(start: Day, events: seq<Event>, day: Span, a: nat, n: nat, c: string)
    requires TimesSorted(events, day) && a <= n <= |events|
    requires DaySound(start, day.startNs, day.startNs) && start.intervals == []
    requires After(start, events, a).authority == Some(c) && Undecided(start, events, a, n, c)
    ensures After(start, events, n).authority == Some(c)
    ensures After(start, events, n).validFrom == After(start, events, a).validFrom
    decreases n
  {
    hide DaySound, After, Decides;
    if a < n {
      UndecidedKeeps(start, events, day, a, n - 1, c);
      UndecidedStep(start, events, day, n - 1, c);
    }
  }

  /** The open interval began with the event that put its connection in authority. */
  lemma IntervalBegins(start: Day, events: seq<Event>, day: Span, m: nat, n: nat, c: string)
    requires TimesSorted(events, day) && m < n <= |events|
    requires DaySound(start, day.startNs, day.startNs) && start.intervals == []
    requires PutsIn(start, events, m, c) && Undecided(start, events, m + 1, n, c)
    ensures After(start, events, n).authority == Some(c)
    ensures After(start, events, n).validFrom == Some(events[m].Time())
  {
    hide DaySound, After, Undecided;
    EventDecides(start, events, day, m);
    hide PutsIn, Deposes;
    UndecidedKeeps(start, events, day, m + 1, n, c);
  }

  /** An interval that began by moment `x` is still open only if nothing has decided since. */
  lemma {:induction false} BeganBefore(start: Day, events: seq<Event>, day: Span, i: nat, n: nat, c: string, x: int)
    requires TimesSorted(events, day) && i <= n <= |events| && x < Edge(events, day, i + 1)
    requires DaySound(start, day.startNs, day.startNs) && start.intervals == []
    requires After(start, events, i).authority == Some(c)
    requires After(start, events, n).authority.Some?
    requires After(start, events, n).validFrom.Some? && After(start, events, n).validFrom.value <= x
    ensures Undecided(start, events, i, n, c)
    decreases n
  {
    hide DaySound, After, Decides;
    if i < n {
      LateEvents(start, events, day, i, n - 1, x);
      BeganBefore(start, events, day, i, n - 1, c, x);
      UndecidedKeeps(start, events, day, i, n - 1, c);
      NoLateDecision(start, events, day, i, n - 1, c, x);
    }
  }

  /** An interval that is open after a late event and began by `x` was open before it. */
  lemma LateEvents(start: Day, events: seq<Event>, day: Span, i: nat, n: nat, x: int)
    requires TimesSorted(events, day) && i <= n < |events| && x < Edge(events, day, i + 1)
    requires DaySound(start, day.startNs, day.startNs) && start.intervals == []
    requires After(start, events, n + 1).authority.Some?
    requires After(start, events, n + 1).validFrom.Some? && After(start, events, n + 1).validFrom.value <= x
    ensures forall d :: !PutsIn(start, events, n, d)
    ensures After(start, events, n).authority == After(start, events, n + 1).authority
    ensures After(start, events, n).validFrom == After(start, events, n + 1).validFrom
  {
    hide DaySound, After;
    EventDecides(start, events, day, n);
    EdgesSorted(events, day, i + 1, n + 1);
    hide PutsIn, Deposes;
  }

  lemma NoLateDecision(start: Day, events: seq<Event>, day: Span, i: nat, n: nat, c: string, x: int)
    requires TimesSorted(events, day) && i <= n < |events|
    requires DaySound(start, day.startNs, day.startNs) && start.intervals == []
    requires After(start, events, n).authority == Some(c) && After(start, events, n + 1).authority == Some(c)
    requires forall d :: !PutsIn(start, events, n, d)
    ensures !Decides(start, events, n, c)
  {
    hide DaySound, After;
    EventDecides(start, events, day, n);
    hide PutsIn, PutsOut;
  }

  /** Event `k`, a CLOSED fact, is the next to decide about authority after segment `i`. */
  ghost predicate RestartedBy(start: Day, events: seq<Event>, i: nat, k: nat, c: string)
    requires k < |events|
  {
    && events[k].GapFact? && !events[k].gap.open && (exists d :: PutsIn(start, events, k, d))
    && Undecided(start, events, i, k, c)
  }

  lemma RestartDrops(start: Day, events: seq<Event>, day: Span, i: nat, k: nat, c: string, x: int)
    requires TimesSorted(events, day) && i <= k < |events|
    requires DaySound(start, day.startNs, day.startNs) && start.intervals == []
    requires Edge(events, day, i) <= x < Edge(events, day, i + 1)
    requires After(start, events, i).authority == Some(c) && RestartedBy(start, events, i, k, c)
    ensures Drops(After(start, events, k), events[k]) && After(start, events, k).validFrom.value <= x
  {
    hide DaySound, After;
    UndecidedKeeps(start, events, day, i, k, c);
    TracedUpTo(start, events, day, i);
    OpenInterval(After(start, events, i), day.startNs, Edge(events, day, i));
    EdgesSorted(events, day, i + 1, k + 1);
    ToldAt(start, events, day, k);
    ToldAt(start, events, day, k + 1);
    var d :| PutsIn(start, events, k, d);
    ClosedPutsIn(start, events, day, k, d);
    TracedUpTo(start, events, day, k);
    assert After(start, events, k).activeGaps == {} by {
      AuthorityMeansNoGap(After(start, events, k), day.startNs, Edge(events, day, k));
    }
    hide PutsIn, Undecided, Told;
  }

  lemma AuthorityMeansNoGap(state: Day, from: int, now: int)
    requires DaySound(state, from, now) && state.authority.Some?
    ensures state.activeGaps == {}
  {
  }

  lemma DropRestarts(start: Day, events: seq<Event>, day: Span, i: nat, k: nat, c: string, x: int)
    requires TimesSorted(events, day) && i <= k < |events|
    requires DaySound(start, day.startNs, day.startNs) && start.intervals == []
    requires Edge(events, day, i) <= x < Edge(events, day, i + 1)
    requires After(start, events, i).authority == Some(c)
    requires Drops(After(start, events, k), events[k]) && After(start, events, k).validFrom.value <= x
    ensures RestartedBy(start, events, i, k, c)
  {
    hide DaySound, After;
    BeganBefore(start, events, day, i, k, c, x);
    ToldAt(start, events, day, k);
    ToldAt(start, events, day, k + 1);
    var d := After(start, events, k).lastValid.value;
    ClosedPutsIn(start, events, day, k, d);
    GapStaysEmpty(start, events, k);
    hide PutsIn, Undecided, Told;
    assert PutsIn(start, events, k, d);
  }

  lemma GapStaysEmpty(start: Day, events: seq<Event>, k: nat)
    requires k < |events| && events[k].GapFact? && !events[k].gap.open && After(start, events, k).activeGaps == {}
    ensures After(start, events, k + 1).activeGaps == {}
  {
    var state, gap := After(start, events, k), events[k].gap;
    assert state.activeGaps - {gap.gapId} == {};
    assert After(start, events, k + 1) == OnGap(state, gap);
  }

  /**
   The written time in terms of reports and gap facts. A moment is written for a connection exactly
   when the latest deciding event had put the connection in authority, and the next deciding event
   after it, if there is one, is not a CLOSED fact.
   */
  lemma WrittenByReports(start: Day, events: seq<Event>, day: Span, i: nat, c: string, x: int)
    requires TimesSorted(events, day) && i <= |events|
    requires DaySound(start, day.startNs, day.startNs) && start.intervals == []
    requires Edge(events, day, i) <= x < Edge(events, day, i + 1)
    ensures WrittenAt(Written(After(start, events, |events|), day.endNs), c, x) <==>
              InAuthority(start, events, i, c) &&
              forall k :: i <= k < |events| ==> !RestartedBy(start, events, i, k, c)
  {
    hide DaySound, After, WrittenAt, InAuthority, RestartedBy, Edge, TimesSorted, InForce;
    WrittenExactly(start, events, day, i, c, x);
    AuthorityExactly(start, events, day, i, c);
    if After(start, events, i).authority == Some(c) {
      forall k | i <= k < |events|
        ensures RestartedBy(start, events, i, k, c) ==>
                  Drops(After(start, events, k), events[k]) && After(start, events, k).validFrom.value <= x
        ensures Drops(After(start, events, k), events[k]) && After(start, events, k).validFrom.value <= x ==>
                  RestartedBy(start, events, i, k, c)
      {
        if RestartedBy(start, events, i, k, c) {
          RestartDrops(start, events, day, i, k, c, x);
        }
        if Drops(After(start, events, k), events[k]) {
          if After(start, events, k).validFrom.value <= x {
            DropRestarts(start, events, day, i, k, c, x);
          }
        }
      }
    }
  }

  // ---------------------------------------------------------------- why an interval ended

  /** Event `n` ends the interval of `c`, for this reason. */
  ghost predicate EndsFor(start: Day, events: seq<Event>, n: nat, c: string, reason: string)
    requires n < |events|
  {
    match events[n]
    case GapFact(gap) => gap.open && reason == "transport_gap"
    case RowEvent(row) =>
      var d := row.Connection();
      var report := Report(start, events, n, d);
      report.Some? && if report.value.state == VALID then reason == "connection_switch"
                      else d == c && reason == report.value.reason
  }

  ghost predicate EndedAt(start: Day, events: seq<Event>, n: nat, interval: Interval)
    requires n <= |events|
  {
    exists m :: 0 <= m < n && interval.toNs == events[m].Time()
                && EndsFor(start, events, m, interval.connectionId, interval.endReason)
  }

  lemma RowEnds(state: Day, row: Row, from: int, now: int) returns (reason: string)
    requires DaySound(state, from, now) && now <= row.ReceivedNs()
    ensures var change := Feed(BookOf(state, row.Connection()), row).change;
            OnRow(state, row).intervals == state.intervals ||
            (&& OnRow(state, row).intervals == Ended(state, row.ReceivedNs(), reason) && change.Some?
             && if change.value.state == VALID then reason == "connection_switch"
                else state.authority == Some(row.Connection()) && reason == change.value.reason)
  {
    hide Sound, Feed, Ended;
    var c := row.Connection();
    FeedSound(state, row, from, now);
    EndedIgnoresBooks(state, c, Feed(BookOf(state, c), row).book, row.ReceivedNs(), "connection_switch");
    reason := "connection_switch";
    var change := Feed(BookOf(state, c), row).change;
    if change.Some? && change.value.state != VALID {
      reason := change.value.reason;
      EndedIgnoresBooks(state, c, Feed(BookOf(state, c), row).book, row.ReceivedNs(), reason);
    }
  }

  lemma EventEnds(start: Day, events: seq<Event>, day: Span, n: nat) returns (reason: string)
    requires TimesSorted(events, day) && n < |events|
    requires DaySound(start, day.startNs, day.startNs) && start.intervals == []
    ensures var before, after := After(start, events, n), After(start, events, n + 1);
            after.intervals == before.intervals ||
            (after.intervals == Ended(before, events[n].Time(), reason) &&
             (before.authority.Some? ==> EndsFor(start, events, n, before.authority.value, reason)))
  {
    var state := After(start, events, n);
    TracedUpTo(start, events, day, n);
    EdgesSorted(events, day, n, n + 1);
    match events[n]
    case GapFact(gap) =>
      reason := "transport_gap";
      hide Ended, Feed, DaySound;
    case RowEvent(row) =>
      reason := RowEnds(state, row, day.startNs, Edge(events, day, n));
      BooksAreOwn(start, events, n, row.Connection());
      assert OrFresh(OwnBook(start, events, n, row.Connection()), row.Connection()) == BookOf(state, row.Connection());
      hide Ended, Feed, DaySound, OnRow, OwnBook;
  }

  lemma EndedLater(start: Day, events: seq<Event>, n: nat, interval: Interval)
    requires n < |events| && EndedAt(start, events, n, interval)
    ensures EndedAt(start, events, n + 1, interval)
  {
    hide EndsFor;
  }

  ghost predicate EachEnded(start: Day, events: seq<Event>, n: nat, intervals: seq<Interval>)
    requires n <= |events|
  {
    forall interval :: interval in intervals ==> EndedAt(start, events, n, interval)
  }

  lemma EachEndedStep(start: Day, events: seq<Event>, n: nat, before: Day, after: seq<Interval>, reason: string)
    requires n < |events| && EachEnded(start, events, n, before.intervals)
    requires after == before.intervals ||
             (after == Ended(before, events[n].Time(), reason) &&
              (before.authority.Some? ==> EndsFor(start, events, n, before.authority.value, reason)))
    ensures EachEnded(start, events, n + 1, after)
  {
    hide EndsFor, EndedAt;
    forall interval | interval in after
      ensures EndedAt(start, events, n + 1, interval)
    {
      if interval in before.intervals {
        EndedLater(start, events, n, interval);
      } else {
        JustEnded(start, events, n, interval);
      }
    }
  }

  lemma {:induction false} AllEnded(start: Day, events: seq<Event>, day: Span, n: nat)
    requires TimesSorted(events, day) && n <= |events|
    requires DaySound(start, day.startNs, day.startNs) && start.intervals == []
    ensures EachEnded(start, events, n, After(start, events, n).intervals)
  {
    hide DaySound, EndsFor, EndedAt, After, EachEnded, Ended;
    if n > 0 {
      AllEnded(start, events, day, n - 1);
      var reason := EventEnds(start, events, day, n - 1);
      EachEndedStep(start, events, n - 1, After(start, events, n - 1), After(start, events, n).intervals, reason);
    } else {
      AfterNone(start, events);
      NoneEnded(start, events);
    }
  }

  lemma NoneEnded(start: Day, events: seq<Event>)
    ensures EachEnded(start, events, 0, [])
  {
  }

  lemma JustEnded(start: Day, events: seq<Event>, n: nat, interval: Interval)
    requires n < |events| && interval.toNs == events[n].Time()
    requires EndsFor(start, events, n, interval.connectionId, interval.endReason)
    ensures EndedAt(start, events, n + 1, interval)
  {
    hide EndsFor;
  }

  /**
   Every written interval ends where an event ends it, under the reason of that event: a gap that
   opens, another connection becoming VALID, its own connection's break; or it ends with the day.
   */
  lemma IntervalsEndForAReason(start: Day, events: seq<Event>, day: Span, interval: Interval)
    requires TimesSorted(events, day)
    requires DaySound(start, day.startNs, day.startNs) && start.intervals == []
    requires interval in Written(After(start, events, |events|), day.endNs)
    ensures EndedAt(start, events, |events|, interval) ||
            (interval.toNs == day.endNs && interval.endReason == "utc_day_end")
  {
    hide DaySound, EndedAt, After;
    AllEnded(start, events, day, |events|);
    assert forall iv :: iv in After(start, events, |events|).intervals ==> EndedAt(start, events, |events|, iv);
    var final := After(start, events, |events|);
    NonEmptyElements(Ended(final, day.endNs, "utc_day_end"));
  }
}
