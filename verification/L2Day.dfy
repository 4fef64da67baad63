/**
 One UTC day of `L2DayReconstructor.run`: depth rows and transport-gap events, merged by time,
 drive the connection books, the authoritative connection and the validity intervals.
 */
module L2Day {
  import opened Base
  import opened L2Book
  import opened L2Checkpoint

  datatype Row = DepthRow(diff: DepthDiff) | SnapshotRow(snapshot: DepthSnapshot)
  {
    function Connection(): string {
      if DepthRow? then diff.connectionId else snapshot.connectionId
    }

    function ReceivedNs(): int {
      if DepthRow? then diff.receivedNs else snapshot.receivedNs
    }
  }

  /** A gap fact of the transport-gap ledger; `open` is state OPEN, otherwise CLOSED. */
  datatype GapEvent = GapEvent(
    gapId: string,
    open: bool,
    observedNs: int,
    affectedFromNs: Option<int>,
    reason: string,
    detail: string)
  {
    /** `_gap_effective_ns` */
    function EffectiveNs(): int {
      if open && affectedFromNs.Some? then affectedFromNs.value else observedNs
    }
  }

  datatype Event = RowEvent(row: Row) | GapFact(gap: GapEvent)
  {
    function Time(): int {
      if RowEvent? then row.ReceivedNs() else gap.EffectiveNs()
    }
  }

  datatype Interval = Interval(fromNs: int, toNs: int, connectionId: string, endReason: string)

  /** The state of `run` between two events; `order` is the insertion order of `books`. */
  datatype Day = Day(
    books: map<string, Book>,
    order: seq<string>,
    changes: seq<StateChange>,
    intervals: seq<Interval>,
    authority: Option<string>,
    validFrom: Option<int>,
    lastValid: Option<string>,
    activeGaps: set<string>)

  // ---------------------------------------------------------------- events

  /** The open validity interval, if any, ended at `at`. */
  function Ended(day: Day, at: int, reason: string): seq<Interval> {
    if day.authority.Some? && day.validFrom.Some?
    then day.intervals + [Interval(day.validFrom.value, at, day.authority.value, reason)]
    else day.intervals
  }

  /** The changes an opening gap reports: one for each VALID book, in dict order. */
  function GapChanges(books: map<string, Book>, order: seq<string>, at: int, reason: string): seq<StateChange> {
    if order == [] then []
    else
      var rest := GapChanges(books, order[..|order| - 1], at, reason);
      var c := order[|order| - 1];
      if c in books && books[c].state == VALID
      then rest + [StateChange(books[c].connectionId, at, GAPPED, books[c].previousUpdateId, reason)]
      else rest
  }

  function InvalidateAll(books: map<string, Book>): map<string, Book> {
    map c | c in books :: Invalidate(books[c])
  }

  /** `handle_gap` */
  function OnGap(day: Day, gap: GapEvent): Day {
    if gap.open then
      day.(intervals := Ended(day, gap.EffectiveNs(), "transport_gap"),
           authority := None, validFrom := None, lastValid := None,
           activeGaps := day.activeGaps + {gap.gapId},
           changes := day.changes + GapChanges(day.books, day.order, gap.EffectiveNs(), gap.reason),
           books := InvalidateAll(day.books))
    else
      var closed := day.(activeGaps := day.activeGaps - {gap.gapId});
      if closed.activeGaps != {} || closed.lastValid.None? then closed
      else if closed.lastValid.value !in closed.books || closed.books[closed.lastValid.value].state != VALID then closed
      else closed.(authority := closed.lastValid, validFrom := Some(gap.observedNs))
  }

  function BookOf(day: Day, connectionId: string): Book {
    if connectionId in day.books then day.books[connectionId] else FreshBook(connectionId)
  }

  function Feed(book: Book, row: Row): Outcome {
    match row
    case DepthRow(diff) => OnDiff(book, diff)
    case SnapshotRow(snapshot) => OnSnapshot(book, snapshot)
  }

  function Stored(day: Day, connectionId: string, book: Book): Day {
    day.(books := day.books[connectionId := book],
         order := if connectionId in day.books then day.order else day.order + [connectionId])
  }

  /** What a state change of connection `c` does to authority and intervals. */
  function OnChange(day: Day, c: string, change: StateChange): Day {
    var noted := day.(changes := day.changes + [change]);
    if change.state == VALID then
      if day.activeGaps != {} then noted.(lastValid := Some(c))
      else
        noted.(lastValid := Some(c),
               intervals := Ended(day, change.atNs, "connection_switch"),
               authority := Some(c), validFrom := Some(change.atNs))
    else if day.authority == Some(c) && day.validFrom.Some? then
      noted.(intervals := Ended(day, change.atNs, change.reason),
             authority := None, validFrom := None,
             lastValid := if day.lastValid == Some(c) then None else day.lastValid)
    else noted
  }

  function OnRow(day: Day, row: Row): Day {
    var c := row.Connection();
    var outcome := Feed(BookOf(day, c), row);
    var stored := Stored(day, c, outcome.book);
    if outcome.change.None? then stored else OnChange(stored, c, outcome.change.value)
  }

  function OnEvent(day: Day, event: Event): Day {
    match event
    case RowEvent(row) => OnRow(day, row)
    case GapFact(gap) => OnGap(day, gap)
  }

  /** The two inputs as the run consumes them: a gap fact goes before a row of the same time. */
  function Merge(rows: seq<Row>, gaps: seq<GapEvent>): seq<Event>
    decreases |rows| + |gaps|
  {
    if gaps != [] && (rows == [] || gaps[0].EffectiveNs() <= rows[0].ReceivedNs())
    then [GapFact(gaps[0])] + Merge(rows, gaps[1..])
    else if rows != [] then [RowEvent(rows[0])] + Merge(rows[1..], gaps)
    else []
  }

  /** The day's state after the first `n` events. */
  function After(start: Day, events: seq<Event>, n: nat): Day
    requires n <= |events|
  {
    if n == 0 then start else OnEvent(After(start, events, n - 1), events[n - 1])
  }

  // ---------------------------------------------------------------- start and end of the day

  const EMPTY_DAY := Day(map[], [], [], [], None, None, None, {})

  function AddAnchored(day: Day, anchored: seq<AnchoredBook>): Result<Day, CheckpointError>
    decreases |anchored|
  {
    if anchored == [] then Ok(day)
    else if anchored[0].connectionId in day.books then Err(RepeatedConnection)
    else AddAnchored(Stored(day, anchored[0].connectionId, RestoreAnchored(anchored[0])), anchored[1..])
  }

  /** The day that begins with the checkpoint's VALID book, if it has one, in authority. */
  function Begun(saved: Option<ValidBook>, dayStartNs: int): Day {
    if saved.None? then EMPTY_DAY
    else
      var book := RestoreValid(saved.value);
      var c := book.connectionId;
      Stored(EMPTY_DAY, c, book).(authority := Some(c), lastValid := Some(c), validFrom := Some(dayStartNs))
  }

  /** The day that resumes from the previous day's checkpoint. */
  function Resume(checkpoint: Option<Checkpoint>, dayStartNs: int): Result<Day, CheckpointError> {
    if checkpoint.None? then Ok(EMPTY_DAY)
    else AddAnchored(Begun(checkpoint.value.valid, dayStartNs), checkpoint.value.anchored)
  }

  function NonEmpty(intervals: seq<Interval>): seq<Interval> {
    if intervals == [] then []
    else
      var rest := NonEmpty(intervals[..|intervals| - 1]);
      var last := intervals[|intervals| - 1];
      if last.toNs > last.fromNs then rest + [last] else rest
  }

  /** The intervals the day writes. */
  function Written(day: Day, dayEndNs: int): seq<Interval> {
    NonEmpty(Ended(day, dayEndNs, "utc_day_end"))
  }

  function BooksInOrder(day: Day): seq<Book> {
    seq(|day.order|, i requires 0 <= i < |day.order| => BookOf(day, day.order[i]))
  }

  function FinalBook(day: Day): Option<Book> {
    if day.authority.Some? && day.activeGaps == {} && day.authority.value in day.books
    then Some(day.books[day.authority.value]) else None
  }

  datatype DayOutput = DayOutput(changes: seq<StateChange>, intervals: seq<Interval>, checkpoint: Checkpoint)

  function Finish(day: Day, dayEndNs: int): Result<DayOutput, CheckpointError> {
    match BuildCheckpoint(FinalBook(day), BooksInOrder(day), dayEndNs)
    case Err(e) => Err(e)
    case Ok(checkpoint) => Ok(DayOutput(day.changes, Written(day, dayEndNs), checkpoint))
  }
}
