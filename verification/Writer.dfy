/**
 The writer pool of src/ft_shadow_data_plane/edge/writer.py with the byte-bounded queues of
 edge/queue.py and the rotation barrier of edge/ingest.py. A lane is one writer group: its queue, its
 worker and the chunks it has finished. A step of the worker is what it does between two awaits.
 */
module Writer {
  import opened Base

  datatype Event = Event(receiveNs: nat, payload: seq<int>)

  function SizeOf(e: Event): nat {
    |e.payload| + 256
  }

  function DateOf(e: Event): int {
    e.receiveNs / DAY_NS
  }

  /** `tag` is history: the universe hash in force when the event was put. */
  datatype Queued = Queued(event: Event, reserved: nat, tag: string)

  datatype Item = Data(queued: Queued) | Rotate(hash: string) | Stop

  datatype Limits = Limits(maxBytes: nat, maxEvents: nat, batchEvents: nat, batchBytes: nat)

  /** A `ChunkSession`: the events written to the file and those still in its batch. */
  datatype Session = Session(
    date: int, hash: string, written: seq<Queued>, batch: seq<Queued>,
    batchBytes: nat, count: nat, bytes: nat, minNs: Option<nat>, maxNs: Option<nat>)

  /** A finished file, with what its manifest says. */
  datatype Chunk = Chunk(date: int, hash: string, events: seq<Queued>, count: nat, minNs: nat, maxNs: nat)

  /** Where the worker of a group stands, and what it does next. */
  datatype Phase =
    | Ready
    | Place(queued: Queued)
    | Check
    | Close(next: Phase)
    | Release(bytes: nat, next: Phase)
    | Install(hash: string)
    | Halt
    | Stopped

  datatype Lane = Lane(
    queue: seq<Item>, session: Option<Session>, hash: string, phase: Phase,
    chunks: seq<Chunk>, accepted: seq<Queued>)

  // ---------------------------------------------------------------- a session

  function NewSession(date: int, hash: string): Session {
    Session(date, hash, [], [], 0, 0, 0, None, None)
  }

  predicate ShouldRotateBefore(s: Session, e: Event, limits: Limits) {
    if DateOf(e) != s.date then true
    else if s.count == 0 then false
    else s.bytes + SizeOf(e) > limits.maxBytes || s.count + 1 > limits.maxEvents
  }

  function Added(s: Session, q: Queued): Session {
    var at := q.event.receiveNs;
    s.(batch := s.batch + [q], batchBytes := s.batchBytes + q.reserved, count := s.count + 1, bytes := s.bytes + q.reserved,
       minNs := Some(if s.minNs == None then at else Min(s.minNs.value, at)),
       maxNs := Some(if s.maxNs == None then at else Max(s.maxNs.value, at)))
  }

  predicate BatchIsFull(s: Session, limits: Limits) {
    |s.batch| >= limits.batchEvents || s.batchBytes >= limits.batchBytes
  }

  function Flushed(s: Session): Session {
    s.(written := s.written + s.batch, batch := [], batchBytes := 0)
  }

  predicate Full(s: Session, limits: Limits) {
    s.bytes >= limits.maxBytes || s.count >= limits.maxEvents
  }

  predicate Finishable(s: Session) {
    s.batch == [] && s.count != 0 && s.minNs.Some? && s.maxNs.Some?
  }

  function Finished(s: Session): Chunk
    requires Finishable(s)
  {
    Chunk(s.date, s.hash, s.written, s.count, s.minNs.value, s.maxNs.value)
  }

  // ---------------------------------------------------------------- the worker of a group

  /** `finish`: flush what is batched, close the file, then go on. */
  function FinishThen(lane: Lane, next: Phase): Lane {
    if lane.session == None then lane.(phase := next)
    else if lane.session.value.batch == [] then lane.(phase := Close(next))
    else lane.(session := Some(Flushed(lane.session.value)),
               phase := Release(lane.session.value.batchBytes, Close(next)))
  }

  /** The next item of the queue is taken. */
  function Take(lane: Lane, limits: Limits): Lane
    requires lane.queue != []
  {
    var rest := lane.(queue := lane.queue[1..]);
    match lane.queue[0]
    case Data(q) =>
      if lane.session.Some? && ShouldRotateBefore(lane.session.value, q.event, limits) then FinishThen(rest, Place(q))
      else rest.(phase := Place(q))
    case Rotate(hash) => FinishThen(rest, Install(hash))
    case Stop => FinishThen(rest, Halt)
  }

  function PlaceOne(lane: Lane, q: Queued, limits: Limits): Lane {
    var open := if lane.session.Some? then lane.session.value else NewSession(DateOf(q.event), lane.hash);
    var s := Added(open, q);
    if BatchIsFull(s, limits) then lane.(session := Some(Flushed(s)), phase := Release(s.batchBytes, Check))
    else lane.(session := Some(s), phase := Check)
  }

  /** The bytes a step gives back to the budget. */
  function Released(lane: Lane): nat {
    if lane.phase.Release? then lane.phase.bytes else 0
  }

  /** `finish` raises on a session with a batch or without events; the worker then stays where it is. */
  function Closed(lane: Lane, next: Phase): Lane {
    if lane.session.Some? && Finishable(lane.session.value) then
      lane.(chunks := lane.chunks + [Finished(lane.session.value)], session := None, phase := next)
    else lane
  }

  /** One step of the worker; `elapsed` tells whether the session is older than its time limit. */
  function Step(lane: Lane, limits: Limits, elapsed: bool): Lane {
    match lane.phase
    case Ready => if lane.session.Some? && elapsed then FinishThen(lane, Ready) else lane
    case Place(q) => PlaceOne(lane, q, limits)
    case Check =>
      if lane.session.Some? && (Full(lane.session.value, limits) || elapsed) then FinishThen(lane, Ready)
      else lane.(phase := Ready)
    case Close(next) => Closed(lane, next)
    case Release(_, next) => lane.(phase := next)
    case Install(hash) => lane.(hash := hash, phase := Ready)
    case Halt => lane.(phase := Stopped)
    case Stopped => lane
  }

  // ---------------------------------------------------------------- what a lane holds

  function EventsIn(chunks: seq<Chunk>): seq<Queued>
    decreases |chunks|
  {
    if chunks == [] then [] else EventsIn(chunks[..|chunks| - 1]) + chunks[|chunks| - 1].events
  }

  function EventsOf(session: Option<Session>): seq<Queued> {
    if session == None then [] else session.value.written + session.value.batch
  }

  /** The event the worker has taken from the queue and not yet placed. */
  function InHand(phase: Phase): seq<Queued>
    decreases phase
  {
    match phase
    case Place(q) => [q]
    case Close(next) => InHand(next)
    case Release(_, next) => InHand(next)
    case _ => []
  }

  function Waiting(queue: seq<Item>): seq<Queued>
    decreases |queue|
  {
    if queue == [] then []
    else (if queue[0].Data? then [queue[0].queued] else []) + Waiting(queue[1..])
  }

  /** Everything a lane holds, oldest first. */
  function Contents(lane: Lane): seq<Queued> {
    EventsIn(lane.chunks) + EventsOf(lane.session) + InHand(lane.phase) + Waiting(lane.queue)
  }

  function Reserved(events: seq<Queued>): nat
    decreases |events|
  {
    if events == [] then 0 else Reserved(events[..|events| - 1]) + events[|events| - 1].reserved
  }

  /** The bytes of the budget a lane accounts for: queued, in hand, batched, or flushed and not yet released. */
  function Owed(lane: Lane): nat {
    Reserved(Waiting(lane.queue)) + Reserved(InHand(lane.phase)) +
    (if lane.session.Some? then lane.session.value.batchBytes else 0) + Released(lane)
  }

  // ---------------------------------------------------------------- the invariant of a lane

  predicate SameOrigin(events: seq<Queued>, date: int, hash: string) {
    forall q | q in events :: DateOf(q.event) == date && q.tag == hash
  }

  predicate Spans(events: seq<Queued>, minNs: nat, maxNs: nat) {
    && (forall q | q in events :: minNs <= q.event.receiveNs <= maxNs)
    && (exists q :: q in events && q.event.receiveNs == minNs) && (exists q :: q in events && q.event.receiveNs == maxNs)
  }

  /** Within the limits, one oversized event excepted. */
  predicate Bounded(count: nat, bytes: nat, limits: Limits) {
    count <= limits.maxEvents && (bytes <= limits.maxBytes || count == 1)
  }

  /** The session's counters describe the events it holds. */
  predicate Describes(s: Session, events: seq<Queued>, limits: Limits) {
    && s.count == |events| > 0 && s.bytes == Reserved(events)
    && SameOrigin(events, s.date, s.hash) && Bounded(s.count, s.bytes, limits)
    && s.minNs.Some? && s.maxNs.Some? && Spans(events, s.minNs.value, s.maxNs.value)
  }

  predicate SessionOk(s: Session, limits: Limits) {
    Describes(s, s.written + s.batch, limits) && s.batchBytes == Reserved(s.batch)
  }

  predicate ChunkOk(c: Chunk, limits: Limits) {
    && c.count == |c.events| > 0 && SameOrigin(c.events, c.date, c.hash)
    && Bounded(c.count, Reserved(c.events), limits) && Spans(c.events, c.minNs, c.maxNs)
  }

  /** What each phase relies on. */
  predicate PhaseOk(phase: Phase, session: Option<Session>, hash: string, limits: Limits) {
    match phase
    case Ready => true
    case Place(q) => q.tag == hash && q.reserved == SizeOf(q.event) &&
                     (session.Some? ==> !ShouldRotateBefore(session.value, q.event, limits))
    case Check => session.Some?
    case Close(next) => session.Some? && session.value.batch == [] && NextOk(next, hash)
    case Release(_, next) =>
      && session.Some? && session.value.batch == []
      && (next.Check? || (next.Close? && NextOk(next.next, hash)))
    case Install(_) => session == None
    case Halt => session == None
    case Stopped => session == None
  }

  /** What follows the closing of a file. */
  predicate NextOk(phase: Phase, hash: string) {
    match phase
    case Ready => true
    case Place(q) => q.tag == hash && q.reserved == SizeOf(q.event)
    case Install(_) => true
    case Halt => true
    case _ => false
  }

  /** The hash events put now will carry once the lane has worked off its queue. */
  function HashAfter(hash: string, queue: seq<Item>): string
    decreases |queue|
  {
    if queue == [] then hash
    else HashAfter(if queue[0].Rotate? then queue[0].hash else hash, queue[1..])
  }

  /** The hash once the item in hand is worked off. */
  function NextHash(lane: Lane): string {
    PhaseHash(lane.phase, lane.hash)
  }

  function PhaseHash(phase: Phase, hash: string): string
    decreases phase
  {
    match phase
    case Close(next) => PhaseHash(next, hash)
    case Release(_, next) => PhaseHash(next, hash)
    case Install(h) => h
    case _ => hash
  }

  /** Every waiting event carries the hash that will be in force when its turn comes. */
  predicate TagsOk(hash: string, queue: seq<Item>)
    decreases |queue|
  {
    queue == [] ||
    match queue[0]
    case Data(q) => q.tag == hash && q.reserved == SizeOf(q.event) && TagsOk(hash, queue[1..])
    case Rotate(h) => TagsOk(h, queue[1..])
    case Stop => TagsOk(hash, queue[1..])
  }

  ghost predicate LaneOk(lane: Lane, limits: Limits) {
    && Contents(lane) == lane.accepted
    && (forall c | c in lane.chunks :: ChunkOk(c, limits))
    && (lane.session.Some? ==> SessionOk(lane.session.value, limits) && lane.session.value.hash == lane.hash)
    && PhaseOk(lane.phase, lane.session, lane.hash, limits)
    && TagsOk(NextHash(lane), lane.queue)
  }

  // ---------------------------------------------------------------- steps of a lane

  lemma {:induction false} ReservedSplit(a: seq<Queued>, b: seq<Queued>)
    ensures Reserved(a + b) == Reserved(a) + Reserved(b)
    decreases |b|
  {
    if b == [] {
      assert a + b == a;
    } else {
      assert (a + b)[..|a + b| - 1] == a + b[..|b| - 1];
      ReservedSplit(a, b[..|b| - 1]);
    }
  }

  lemma ReservedOne(q: Queued)
    ensures Reserved([q]) == q.reserved
  {
    assert [q][..0] == [];
  }

  lemma EventsInOneMore(chunks: seq<Chunk>, c: Chunk)
    ensures EventsIn(chunks + [c]) == EventsIn(chunks) + c.events
  {
    assert (chunks + [c])[..|chunks|] == chunks;
  }

  lemma FlushedOk(s: Session, limits: Limits)
    requires SessionOk(s, limits)
    ensures SessionOk(Flushed(s), limits) && EventsOf(Some(Flushed(s))) == EventsOf(Some(s))
  {
    assert s.written + s.batch + [] == s.written + s.batch;
    hide Spans, SameOrigin, Bounded;
    assert Describes(Flushed(s), s.written + s.batch, limits);
  }

  lemma SpansOne(q: Queued)
    ensures Spans([q], q.event.receiveNs, q.event.receiveNs)
  {
    assert q in [q];
  }

  lemma FirstDescribed(q: Queued, hash: string, limits: Limits)
    requires q.tag == hash && q.reserved == SizeOf(q.event) && limits.maxEvents >= 1
    ensures Describes(Added(NewSession(DateOf(q.event), hash), q), [q], limits)
  {
    ReservedOne(q);
    SpansOne(q);
    hide Spans, Reserved, SizeOf, DateOf;
  }

  lemma FirstAdded(q: Queued, hash: string, limits: Limits)
    requires q.tag == hash && q.reserved == SizeOf(q.event) && limits.maxEvents >= 1
    ensures SessionOk(Added(NewSession(DateOf(q.event), hash), q), limits)
  {
    FirstDescribed(q, hash, limits);
    ReservedOne(q);
    hide Describes, Reserved;
    var s := Added(NewSession(DateOf(q.event), hash), q);
    assert s.batch == [q] && s.written == [];
    assert s.written + s.batch == [q];
  }

  lemma SpansMore(events: seq<Queued>, minNs: nat, maxNs: nat, q: Queued)
    requires Spans(events, minNs, maxNs)
    ensures Spans(events + [q], Min(minNs, q.event.receiveNs), Max(maxNs, q.event.receiveNs))
  {
    var all := events + [q];
    var lo :| lo in events && lo.event.receiveNs == minNs;
    var hi :| hi in events && hi.event.receiveNs == maxNs;
    assert lo in all && hi in all && q in all;
  }

  lemma MoreOfOrigin(events: seq<Queued>, date: int, hash: string, q: Queued)
    requires SameOrigin(events, date, hash) && DateOf(q.event) == date && q.tag == hash
    ensures SameOrigin(events + [q], date, hash)
  {
  }

  lemma NextDescribed(s: Session, events: seq<Queued>, q: Queued, limits: Limits)
    requires Describes(s, events, limits) && q.tag == s.hash && q.reserved == SizeOf(q.event)
    requires !ShouldRotateBefore(s, q.event, limits)
    ensures Describes(Added(s, q), events + [q], limits)
  {
    MoreOfOrigin(events, s.date, s.hash, q);
    SpansMore(events, s.minNs.value, s.maxNs.value, q);
    ReservedSplit(events, [q]);
    ReservedOne(q);
    hide Spans, SameOrigin, DateOf, Reserved, Min, Max;
  }

  lemma Append(a: seq<Queued>, b: seq<Queued>, c: seq<Queued>)
    ensures a + (b + c) == a + b + c
  {
  }

  lemma NextAdded(s: Session, q: Queued, limits: Limits)
    requires SessionOk(s, limits) && q.tag == s.hash && q.reserved == SizeOf(q.event)
    requires !ShouldRotateBefore(s, q.event, limits)
    ensures SessionOk(Added(s, q), limits)
  {
    NextDescribed(s, s.written + s.batch, q, limits);
    ReservedSplit(s.batch, [q]);
    ReservedOne(q);
    hide Describes, Reserved, ShouldRotateBefore;
    Append(s.written, s.batch, [q]);
  }

  lemma FinishThenOk(lane: Lane, next: Phase, limits: Limits)
    requires lane.session.Some? ==> SessionOk(lane.session.value, limits) && lane.session.value.hash == lane.hash
    requires NextOk(next, lane.hash)
    ensures var t := FinishThen(lane, next);
            && (t.session.Some? ==> SessionOk(t.session.value, limits) && t.session.value.hash == t.hash)
            && PhaseOk(t.phase, t.session, t.hash, limits)
            && EventsOf(t.session) == EventsOf(lane.session) && InHand(t.phase) == InHand(next)
            && PhaseHash(t.phase, t.hash) == PhaseHash(next, t.hash)
  {
    if lane.session.Some? {
      FlushedOk(lane.session.value, limits);
    }
    hide SessionOk, ShouldRotateBefore;
  }

  function NextOf(item: Item): Phase {
    match item
    case Data(q) => Place(q)
    case Rotate(h) => Install(h)
    case Stop => Halt
  }

  lemma TakeIs(lane: Lane, limits: Limits)
    requires lane.queue != []
    ensures var rest := lane.(queue := lane.queue[1..]); var next := NextOf(lane.queue[0]);
            || Take(lane, limits) == FinishThen(rest, next)
            || (next.Place? && Take(lane, limits) == rest.(phase := next) &&
                (lane.session.Some? ==> !ShouldRotateBefore(lane.session.value, next.queued.event, limits)))
  {
    hide FinishThen, ShouldRotateBefore;
  }

  lemma TakeQueue(lane: Lane)
    requires lane.phase.Ready? && lane.queue != [] && TagsOk(lane.hash, lane.queue)
    ensures var next := NextOf(lane.queue[0]);
            && NextOk(next, lane.hash) && Waiting(lane.queue) == InHand(next) + Waiting(lane.queue[1..])
            && TagsOk(PhaseHash(next, lane.hash), lane.queue[1..])
  {
  }

  lemma Carry(a: seq<Queued>, b: seq<Queued>, c: seq<Queued>, d: seq<Queued>)
    ensures a + b + [] + (c + d) == a + b + c + d
    ensures a + (b + c) + [] + d == a + b + c + d
  {
  }

  /** Taking an item moves one event from the queue into the worker's hand, and nothing else. */
  lemma TakeOk(lane: Lane, limits: Limits)
    requires LaneOk(lane, limits) && lane.phase.Ready? && lane.queue != []
    ensures LaneOk(Take(lane, limits), limits)
  {
    var rest := lane.(queue := lane.queue[1..]);
    var next := NextOf(lane.queue[0]);
    TakeQueue(lane);
    FinishThenOk(rest, next, limits);
    TakeIs(lane, limits);
    Carry(EventsIn(lane.chunks), EventsOf(lane.session), InHand(next), Waiting(rest.queue));
    TakenFields(rest, next);
    hide SessionOk, ChunkOk, ShouldRotateBefore, FinishThen, EventsIn, EventsOf, Take, Waiting, TagsOk, NextOf;
  }

  lemma TakenFields(rest: Lane, next: Phase)
    ensures var t := FinishThen(rest, next);
            t.queue == rest.queue && t.chunks == rest.chunks && t.accepted == rest.accepted && t.hash == rest.hash
  {
  }

  function Opened(lane: Lane, q: Queued): Session {
    if lane.session.Some? then lane.session.value else NewSession(DateOf(q.event), lane.hash)
  }

  lemma PlaceAdds(lane: Lane, limits: Limits)
    requires LaneOk(lane, limits) && lane.phase.Place? && limits.maxEvents >= 1
    ensures var s := Added(Opened(lane, lane.phase.queued), lane.phase.queued);
            SessionOk(s, limits) && s.hash == lane.hash && EventsOf(Some(s)) == EventsOf(lane.session) + [lane.phase.queued]
  {
    var q := lane.phase.queued;
    var s := Added(Opened(lane, q), q);
    assert EventsOf(Some(s)) == EventsOf(lane.session) + [q];
    hide EventsOf, Contents, ChunkOk, TagsOk, Reserved, Bounded, SameOrigin, Spans;
    if lane.session.Some? {
      NextAdded(lane.session.value, q, limits);
    } else {
      FirstAdded(q, lane.hash, limits);
    }
    hide SessionOk, ShouldRotateBefore, Added;
  }

  predicate Placed(lane: Lane, t: Lane, limits: Limits) {
    && t.session.Some? && SessionOk(t.session.value, limits) && t.session.value.hash == lane.hash
    && PhaseOk(t.phase, t.session, lane.hash, limits)
    && t.chunks == lane.chunks && t.queue == lane.queue && t.accepted == lane.accepted && t.hash == lane.hash
    && InHand(t.phase) == [] && PhaseHash(t.phase, t.hash) == lane.hash
  }

  lemma PlaceKeeps(lane: Lane, s: Session, q: Queued, limits: Limits)
    requires SessionOk(s, limits) && s.hash == lane.hash && s == Added(Opened(lane, q), q)
    ensures Placed(lane, PlaceOne(lane, q, limits), limits)
  {
    FlushedOk(s, limits);
    assert InHand(Check) == [] && PhaseHash(Check, lane.hash) == lane.hash;
    hide SessionOk, EventsOf, Added, BatchIsFull;
    if BatchIsFull(s, limits) {
      assert PlaceOne(lane, q, limits) == lane.(session := Some(Flushed(s)), phase := Release(s.batchBytes, Check));
    } else {
      assert PlaceOne(lane, q, limits) == lane.(session := Some(s), phase := Check);
    }
    hide PlaceOne;
  }

  lemma PlaceSession(lane: Lane, limits: Limits)
    requires LaneOk(lane, limits) && lane.phase.Place? && limits.maxEvents >= 1
    ensures var t := PlaceOne(lane, lane.phase.queued, limits);
            Placed(lane, t, limits) && EventsOf(t.session) == EventsOf(lane.session) + [lane.phase.queued]
  {
    hide LaneOk;
    PlaceAdds(lane, limits);
    var q := lane.phase.queued;
    var s := Added(Opened(lane, q), q);
    PlaceKeeps(lane, s, q, limits);
    FlushedOk(s, limits);
    hide SessionOk, EventsOf, Added, BatchIsFull, Placed, Flushed;
    assert PlaceOne(lane, q, limits).session == (if BatchIsFull(s, limits) then Some(Flushed(s)) else Some(s));
  }

  lemma PlaceOk(lane: Lane, limits: Limits)
    requires LaneOk(lane, limits) && lane.phase.Place? && limits.maxEvents >= 1
    ensures LaneOk(Step(lane, limits, false), limits)
  {
    PlaceSession(lane, limits);
    Carry(EventsIn(lane.chunks), EventsOf(lane.session), [lane.phase.queued], Waiting(lane.queue));
    hide SessionOk, ChunkOk, EventsOf, EventsIn, ShouldRotateBefore, Waiting, TagsOk, PlaceOne;
  }

  lemma CloseOk(lane: Lane, limits: Limits)
    requires LaneOk(lane, limits) && lane.phase.Close?
    ensures LaneOk(Step(lane, limits, false), limits)
    ensures Finishable(lane.session.value)
  {
    var s := lane.session.value;
    assert s.written + [] == s.written;
    var c := Finished(s);
    assert ChunkOk(c, limits);
    EventsInOneMore(lane.chunks, c);
    var t := Step(lane, limits, false);
    hide SessionOk, ChunkOk, ShouldRotateBefore, Waiting, TagsOk, EventsIn;
    assert Contents(t) == Contents(lane);
    assert forall d | d in t.chunks :: d in lane.chunks || d == c;
  }

  lemma OtherStepOk(lane: Lane, limits: Limits, elapsed: bool)
    requires LaneOk(lane, limits) && !lane.phase.Place? && !lane.phase.Close?
    ensures LaneOk(Step(lane, limits, elapsed), limits)
  {
    hide SessionOk, ChunkOk, ShouldRotateBefore, Waiting, TagsOk, EventsIn, Full;
    if lane.phase.Ready? || lane.phase.Check? {
      FinishThenOk(lane, Ready, limits);
      hide FinishThen, EventsOf;
    }
  }

  lemma StepOk(lane: Lane, limits: Limits, elapsed: bool)
    requires LaneOk(lane, limits) && limits.maxEvents >= 1
    ensures LaneOk(Step(lane, limits, elapsed), limits)
  {
    hide LaneOk, Step;
    if lane.phase.Place? {
      PlaceOk(lane, limits);
      SameStep(lane, limits, elapsed);
    } else if lane.phase.Close? {
      CloseOk(lane, limits);
      SameStep(lane, limits, elapsed);
    } else {
      OtherStepOk(lane, limits, elapsed);
    }
  }

  lemma SameStep(lane: Lane, limits: Limits, elapsed: bool)
    requires lane.phase.Place? || lane.phase.Close?
    ensures Step(lane, limits, elapsed) == Step(lane, limits, false)
  {
    hide PlaceOne, Closed;
  }
}
