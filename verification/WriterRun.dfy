/** The chunk session, the shared queues and the loop body of `WriterPool._run` as objects. */
module WriterRun {
  import opened Base
  import opened Writer
  import opened WriterPool

  class ChunkSession {
    const date: int
    const hash: string
    const limits: Limits
    var written: seq<Queued>
    var batch: seq<Queued>
    var batchBytes: nat
    var count: nat
    var bytes: nat
    var minNs: Option<nat>
    var maxNs: Option<nat>

    function Value(): Session
      reads this
    {
      Session(date, hash, written, batch, batchBytes, count, bytes, minNs, maxNs)
    }

    constructor (date: int, hash: string, limits: Limits)
      ensures Value() == NewSession(date, hash) && this.limits == limits
    {
      this.date, this.hash, this.limits := date, hash, limits;
      written, batch, batchBytes, count, bytes, minNs, maxNs := [], [], 0, 0, 0, None, None;
    }

    /** `add`: whether the batch is full now. */
    method AddEvent(q: Queued) returns (full: bool)
      modifies this
      ensures Value() == Added(old(Value()), q) && full == BatchIsFull(Value(), limits)
    {
      batch := batch + [q];
      batchBytes := batchBytes + q.reserved;
      count := count + 1;
      bytes := bytes + q.reserved;
      var at := q.event.receiveNs;
      minNs := Some(if minNs == None then at else Min(minNs.value, at));
      maxNs := Some(if maxNs == None then at else Max(maxNs.value, at));
      full := |batch| >= limits.batchEvents || batchBytes >= limits.batchBytes;
    }

    /** `flush`: the bytes the batch had reserved. */
    method FlushBatch() returns (reserved: nat)
      modifies this`written, this`batch, this`batchBytes
      ensures reserved == (if old(batch) == [] then 0 else old(batchBytes))
      ensures Value() == if old(batch) == [] then old(Value()) else Flushed(old(Value()))
    {
      if batch == [] {
        return 0;
      }
      reserved := batchBytes;
      written := written + batch;
      batch, batchBytes := [], 0;
    }

    /** `finish`; None where it raises. */
    method FinishFile() returns (chunk: Option<Chunk>)
      ensures chunk == if Finishable(Value()) then Some(Finished(Value())) else None
    {
      if batch != [] || count == 0 || minNs == None || maxNs == None {
        return None;
      }
      return Some(Chunk(date, hash, written, count, minNs.value, maxNs.value));
    }
  }

  // ---------------------------------------------------------------- one item, all of its steps

  /** How far a phase is from being done. */
  function Rank(phase: Phase): nat
    decreases phase
  {
    match phase
    case Ready => 0
    case Stopped => 0
    case Install(_) => 1
    case Halt => 1
    case Close(next) => 1 + Rank(next)
    case Release(_, next) => 1 + Rank(next)
    case Check => 3
    case Place(_) => 5
  }

  /** The steps of the worker until it waits for its queue again. */
  function Settled(lane: Lane, limits: Limits, elapsed: bool): Lane
    decreases Rank(lane.phase)
  {
    var next := Step(lane, limits, elapsed);
    if Rank(next.phase) < Rank(lane.phase) then Settled(next, limits, elapsed) else lane
  }

  /** `finish` without a pause: the session's file is closed and listed. */
  function FileFinished(lane: Lane): Lane {
    if lane.session == None || !Finishable(Flushed(lane.session.value)) then lane
    else lane.(chunks := lane.chunks + [Finished(Flushed(lane.session.value))], session := None)
  }

  ghost predicate Sound(lane: Lane, limits: Limits) {
    lane.session.Some? ==> SessionOk(lane.session.value, limits)
  }

  lemma SoundFinishes(lane: Lane, limits: Limits)
    requires Sound(lane, limits)
    ensures lane.session.Some? ==> Finishable(Flushed(lane.session.value))
    ensures lane.session.Some? && lane.session.value.batch == [] ==> Flushed(lane.session.value) == lane.session.value
  {
    if lane.session.Some? && lane.session.value.batch == [] {
      var s := lane.session.value;
      assert s.written + s.batch == s.written;
    }
  }

  lemma CloseSettles(lane: Lane, s: Session, next: Phase, limits: Limits, elapsed: bool)
    requires lane.session == Some(s) && Finishable(s) && lane.phase == Close(next)
    ensures Settled(lane, limits, elapsed) ==
            Settled(lane.(chunks := lane.chunks + [Finished(s)], session := None, phase := next), limits, elapsed)
  {
    assert Step(lane, limits, elapsed) == lane.(chunks := lane.chunks + [Finished(s)], session := None, phase := next);
    hide Step, Finishable;
  }

  lemma ReleaseSettles(lane: Lane, bytes: nat, next: Phase, limits: Limits, elapsed: bool)
    requires lane.phase == Release(bytes, next)
    ensures Settled(lane, limits, elapsed) == Settled(lane.(phase := next), limits, elapsed)
  {
    assert Step(lane, limits, elapsed) == lane.(phase := next);
    hide Step;
  }

  lemma FinishSettles(lane: Lane, next: Phase, limits: Limits, elapsed: bool)
    requires Sound(lane, limits)
    ensures lane.session.Some? ==> Finishable(Flushed(lane.session.value))
    ensures Settled(FinishThen(lane, next), limits, elapsed) == Settled(FileFinished(lane).(phase := next), limits, elapsed)
  {
    SoundFinishes(lane, limits);
    hide Sound, SessionOk, Finishable, Settled;
    if lane.session.Some? {
      var s := lane.session.value;
      var flushed := lane.(session := Some(Flushed(s)), phase := Close(next));
      CloseSettles(flushed, Flushed(s), next, limits, elapsed);
      if s.batch != [] {
        ReleaseSettles(FinishThen(lane, next), s.batchBytes, Close(next), limits, elapsed);
      }
    }
  }

  function PlacedSession(lane: Lane, q: Queued, limits: Limits): Session {
    var s := Added(Opened(lane, q), q);
    if BatchIsFull(s, limits) then Flushed(s) else s
  }

  /** The loop body on an event, with `finish` and `flush` as single operations. */
  function Handled(lane: Lane, q: Queued, limits: Limits, elapsed: bool): Lane {
    var rotated := if lane.session.Some? && ShouldRotateBefore(lane.session.value, q.event, limits) then FileFinished(lane) else lane;
    AfterPlacing(rotated, q, limits, elapsed)
  }

  function AfterPlacing(lane: Lane, q: Queued, limits: Limits, elapsed: bool): Lane {
    var s := PlacedSession(lane, q, limits);
    var placed := lane.(session := Some(s), phase := Ready);
    if Full(s, limits) || elapsed then FileFinished(placed) else placed
  }

  lemma PlaceReaches(lane: Lane, q: Queued, limits: Limits, elapsed: bool)
    ensures Settled(lane.(phase := Place(q)), limits, elapsed) ==
            Settled(lane.(session := Some(PlacedSession(lane, q, limits)), phase := Check), limits, elapsed)
  {
    hide Full, FinishThen, Added;
    var placing := lane.(phase := Place(q));
    assert Step(placing, limits, elapsed) == PlaceOne(placing, q, limits);
    PlaceIs(lane, q, limits);
    hide PlaceOne, PlacedSession;
  }

  lemma CheckSettles(checked: Lane, limits: Limits, elapsed: bool)
    requires Sound(checked, limits) && checked.phase.Check? && checked.session.Some?
    ensures Settled(checked, limits, elapsed) ==
            if Full(checked.session.value, limits) || elapsed then FileFinished(checked.(phase := Ready)) else checked.(phase := Ready)
  {
    if Full(checked.session.value, limits) || elapsed {
      FinishRank(checked);
      assert Step(checked, limits, elapsed) == FinishThen(checked, Ready);
      hide FinishThen, Full;
      FinishSettles(checked, Ready, limits, elapsed);
      assert FileFinished(checked).(phase := Ready) == FileFinished(checked.(phase := Ready));
      hide SessionOk, Finishable, FileFinished;
      SettledReady(FileFinished(checked).(phase := Ready), limits, elapsed);
    } else {
      SettledReady(checked.(phase := Ready), limits, elapsed);
    }
  }

  lemma PlaceSettles(lane: Lane, q: Queued, limits: Limits, elapsed: bool)
    requires SessionOk(PlacedSession(lane, q, limits), limits)
    ensures Settled(lane.(phase := Place(q)), limits, elapsed) == AfterPlacing(lane, q, limits, elapsed)
  {
    PlaceReaches(lane, q, limits, elapsed);
    CheckSettles(lane.(session := Some(PlacedSession(lane, q, limits)), phase := Check), limits, elapsed);
    hide SessionOk, PlacedSession, Settled, FileFinished, Full;
  }

  lemma SettledReady(lane: Lane, limits: Limits, elapsed: bool)
    requires lane.phase.Ready?
    ensures Settled(lane, limits, elapsed) == lane
  {
  }

  lemma PlaceIs(lane: Lane, q: Queued, limits: Limits)
    ensures var t := PlaceOne(lane.(phase := Place(q)), q, limits);
            var checked := lane.(session := Some(PlacedSession(lane, q, limits)), phase := Check);
            t == checked || (t.phase == Release(t.phase.bytes, Check) && t.(phase := Check) == checked)
  {
    hide Added, BatchIsFull;
  }

  /** The small steps of the worker add up to the loop body. */
  lemma HandledIsSettled(lane: Lane, q: Queued, limits: Limits, elapsed: bool)
    requires Sound(lane, limits) && lane.queue == [] && lane.phase.Ready? && limits.maxEvents >= 1
    requires q.tag == lane.hash && q.reserved == SizeOf(q.event) && (lane.session.Some? ==> lane.session.value.hash == lane.hash)
    ensures Settled(Take(lane.(queue := [Data(q)]), limits), limits, elapsed) == Handled(lane, q, limits, elapsed)
  {
    assert [Data(q)][1..] == [];
    var rotates := lane.session.Some? && ShouldRotateBefore(lane.session.value, q.event, limits);
    var rotated := if rotates then FileFinished(lane) else lane;
    SoundFinishes(lane, limits);
    PlacedIsSound(rotated, q, limits);
    PlaceSettles(rotated, q, limits, elapsed);
    if rotates {
      FinishSettles(lane, Place(q), limits, elapsed);
      assert Take(lane.(queue := [Data(q)]), limits) == FinishThen(lane, Place(q));
    } else {
      assert Take(lane.(queue := [Data(q)]), limits) == lane.(phase := Place(q));
    }
    hide AfterPlacing, Settled, FinishThen, Take, FileFinished, ShouldRotateBefore, SessionOk, Sound, PlacedSession;
  }

  lemma PlacedIsSound(lane: Lane, q: Queued, limits: Limits)
    requires Sound(lane, limits) && limits.maxEvents >= 1 && q.tag == lane.hash && q.reserved == SizeOf(q.event)
    requires lane.session.Some? ==> lane.session.value.hash == lane.hash && !ShouldRotateBefore(lane.session.value, q.event, limits)
    ensures SessionOk(PlacedSession(lane, q, limits), limits) && PlacedSession(lane, q, limits).hash == lane.hash
  {
    hide SessionOk, BatchIsFull, ShouldRotateBefore;
    if lane.session.Some? {
      NextAdded(lane.session.value, q, limits);
    } else {
      FirstAdded(q, lane.hash, limits);
    }
    FlushedOk(Added(Opened(lane, q), q), limits);
    hide Added;
  }

  lemma FinishRank(lane: Lane)
    ensures Rank(FinishThen(lane, Ready).phase) <= 2
  {
  }

  function Batched(session: Option<Session>): nat {
    if session.Some? then session.value.batchBytes else 0
  }

  /** One writer group's worker, its queue aside. */
  class GroupWriter {
    const limits: Limits
    var session: ChunkSession?
    var hash: string
    var chunks: seq<Chunk>

    function Value(): Lane
      reads this, session
    {
      Lane([], if session == null then None else Some(session.Value()), hash, Ready, chunks, [])
    }

    ghost predicate Valid()
      reads this, session
    {
      && limits.maxEvents >= 1
      && (session != null ==> session.limits == limits && SessionOk(session.Value(), limits) && session.hash == hash)
    }

    constructor (limits: Limits, hash: string)
      requires limits.maxEvents >= 1
      ensures Valid() && Value() == EmptyLane(hash)
    {
      this.limits, this.hash, session, chunks := limits, hash, null, [];
    }

    /** The inner `finish`: the bytes it releases. */
    method Finish() returns (released: nat)
      requires Valid()
      modifies this`session, this`chunks, session
      ensures Valid() && session == null && hash == old(hash)
      ensures old(session) != null ==> Finishable(Flushed(old(session.Value())))
      ensures Value() == FileFinished(old(Value())) && released == Batched(old(Value()).session)
    {
      released := 0;
      if session == null {
        return;
      }
      SoundFinishes(Value(), limits);
      released := session.FlushBatch();
      var chunk := session.FinishFile();
      chunks := chunks + [chunk.value];
      session := null;
    }

    /** The part of the loop body that adds an event to the open session. */
    method PlaceEvent(q: Queued) returns (released: nat)
      requires Valid() && q.tag == hash && q.reserved == SizeOf(q.event)
      requires session != null ==> !ShouldRotateBefore(session.Value(), q.event, limits)
      modifies this`session, session
      ensures Valid() && session != null && (old(session) != null ==> session == old(session)) && (old(session) == null ==> fresh(session))
      ensures Value() == old(Value()).(session := Some(PlacedSession(old(Value()), q, limits)))
      ensures released + Batched(Value().session) == Batched(old(Value()).session) + q.reserved
    {
      ghost var before := Value();
      PlacedIsSound(before, q, limits);
      if session == null {
        session := new ChunkSession(DateOf(q.event), hash, limits);
      }
      var full := session.AddEvent(q);
      released := 0;
      if full {
        released := session.FlushBatch();
      }
      assert session.Value() == PlacedSession(before, q, limits);
      hide SessionOk, ShouldRotateBefore, PlacedSession;
    }

    /** The loop body on an event: what all the steps of the worker come to. */
    method HandleEvent(q: Queued, elapsed: bool) returns (released: nat)
      requires Valid() && q.tag == hash && q.reserved == SizeOf(q.event)
      modifies this`session, this`chunks, session
      ensures Valid()
      ensures Value() == Settled(Take(old(Value()).(queue := [Data(q)]), limits), limits, elapsed)
      ensures released + Batched(Value().session) == Batched(old(Value()).session) + q.reserved
    {
      hide SessionOk, ShouldRotateBefore, PlacedSession, Settled, Take, Full;
      HandledIsSettled(Value(), q, limits, elapsed);
      released := 0;
      if session != null && ShouldRotateBefore(session.Value(), q.event, limits) {
        released := Finish();
      }
      var more := PlaceEvent(q);
      released := released + more;
      if Full(session.Value(), limits) || elapsed {
        more := Finish();
        released := released + more;
      }
    }

    /** The loop body on a rotation: what was put before it is closed under the old hash. */
    method HandleRotate(newHash: string) returns (released: nat)
      requires Valid()
      modifies this`session, this`chunks, this`hash, session
      ensures Valid() && session == null && hash == newHash
      ensures Value() == FileFinished(old(Value())).(hash := newHash) && released == Batched(old(Value()).session)
    {
      released := Finish();
      hash := newHash;
    }
  }

  /** `ByteBoundedQueues` */
  class ByteBoundedQueues {
    const maxBytes: nat
    var usedBytes: int
    var depth: seq<Item>
    var trades: seq<Item>
    var metadata: seq<Item>

    function QueueOf(g: Group): seq<Item>
      reads this
    {
      match g
      case DEPTH => depth
      case TRADES => trades
      case METADATA => metadata
    }

    constructor (maxBytes: nat)
      ensures this.maxBytes == maxBytes && usedBytes == 0 && forall g :: QueueOf(g) == []
    {
      this.maxBytes, usedBytes, depth, trades, metadata := maxBytes, 0, [], [], [];
    }

    method Append(g: Group, item: Item)
      modifies this`depth, this`trades, this`metadata
      ensures forall h :: QueueOf(h) == old(QueueOf(h)) + if h == g then [item] else []
    {
      match g
      case DEPTH => depth := depth + [item];
      case TRADES => trades := trades + [item];
      case METADATA => metadata := metadata + [item];
    }

    /** `put`: false where it raises. `hash` is kept with the event as the hash it was put under. */
    method Put(g: Group, e: Event, hash: string) returns (ok: bool)
      modifies this`usedBytes, this`depth, this`trades, this`metadata
      ensures ok == (SizeOf(e) <= maxBytes && old(usedBytes) + SizeOf(e) <= maxBytes)
      ensures usedBytes == old(usedBytes) + if ok then SizeOf(e) else 0
      ensures forall h :: QueueOf(h) == old(QueueOf(h)) + if ok && h == g then [Data(Queued(e, SizeOf(e), hash))] else []
    {
      var reserved := SizeOf(e);
      if reserved > maxBytes || usedBytes + reserved > maxBytes {
        return false;
      }
      usedBytes := usedBytes + reserved;
      Append(g, Data(Queued(e, reserved, hash)));
      return true;
    }

    /** `get` of a queue that has something. */
    method Get(g: Group) returns (item: Item)
      requires QueueOf(g) != []
      modifies this`depth, this`trades, this`metadata
      ensures item == old(QueueOf(g))[0]
      ensures forall h :: QueueOf(h) == if h == g then old(QueueOf(h))[1..] else old(QueueOf(h))
    {
      item := QueueOf(g)[0];
      match g
      case DEPTH => depth := depth[1..];
      case TRADES => trades := trades[1..];
      case METADATA => metadata := metadata[1..];
    }

    /** `release`: false where it raises. */
    method ReleaseBytes(bytes: nat) returns (ok: bool)
      modifies this`usedBytes
      ensures usedBytes == old(usedBytes) - bytes && ok == (usedBytes >= 0)
    {
      usedBytes := usedBytes - bytes;
      ok := usedBytes >= 0;
    }
  }
}
