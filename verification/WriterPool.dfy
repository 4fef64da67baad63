/** The three lanes under one byte budget, and the barrier that changes the universe hash. */
module WriterPool {
  import opened Base
  import opened Writer

  datatype Group = DEPTH | TRADES | METADATA

  /** `hash` is the universe hash events are put under; `rotating` the one a rotation in progress brings in. */
  datatype Pool = Pool(
    depth: Lane, trades: Lane, metadata: Lane, usedBytes: int, maxBytes: nat, hash: string, rotating: Option<string>)

  datatype Action =
    | Put(group: Group, event: Event)
    | TakeItem(group: Group)
    | Work(group: Group, elapsed: bool)
    | RotateBegin(hash: string)
    | RotateEnd
    | StopAll

  function LaneOf(p: Pool, g: Group): Lane {
    match g
    case DEPTH => p.depth
    case TRADES => p.trades
    case METADATA => p.metadata
  }

  function WithLane(p: Pool, g: Group, lane: Lane): Pool {
    match g
    case DEPTH => p.(depth := lane)
    case TRADES => p.(trades := lane)
    case METADATA => p.(metadata := lane)
  }

  function EmptyLane(hash: string): Lane {
    Lane([], None, hash, Ready, [], [])
  }

  function Started(maxBytes: nat, hash: string): Pool {
    Pool(EmptyLane(hash), EmptyLane(hash), EmptyLane(hash), 0, maxBytes, hash, None)
  }

  /** `put`: over budget it raises and nothing changes. */
  predicate Fits(p: Pool, e: Event) {
    SizeOf(e) <= p.maxBytes && p.usedBytes + SizeOf(e) <= p.maxBytes
  }

  function Admit(lane: Lane, q: Queued): Lane {
    lane.(queue := lane.queue + [Data(q)], accepted := lane.accepted + [q])
  }

  function Control(lane: Lane, item: Item): Lane {
    lane.(queue := lane.queue + [item])
  }

  /** The rotation has reached the lane: nothing of it is queued or in hand. */
  predicate Reached(lane: Lane) {
    (forall item | item in lane.queue :: !item.Rotate?) && !Installing(lane.phase)
  }

  predicate Installing(phase: Phase)
    decreases phase
  {
    match phase
    case Install(_) => true
    case Close(next) => Installing(next)
    case Release(_, next) => Installing(next)
    case _ => false
  }

  /** Puts and rotations exclude each other by the coordinator's lock; the workers run at any time. */
  predicate Can(p: Pool, a: Action) {
    match a
    case Put(_, _) => p.rotating == None
    case TakeItem(g) => LaneOf(p, g).phase.Ready? && LaneOf(p, g).queue != []
    case Work(_, _) => true
    case RotateBegin(_) => p.rotating == None
    case RotateEnd => p.rotating.Some? && Reached(p.depth) && Reached(p.trades) && Reached(p.metadata)
    case StopAll => true
  }

  function Do(p: Pool, a: Action, limits: Limits): Pool
    requires Can(p, a)
  {
    match a
    case Put(g, e) =>
      if Fits(p, e) then
        WithLane(p, g, Admit(LaneOf(p, g), Queued(e, SizeOf(e), p.hash))).(usedBytes := p.usedBytes + SizeOf(e))
      else p
    case TakeItem(g) => WithLane(p, g, Take(LaneOf(p, g), limits))
    case Work(g, elapsed) =>
      WithLane(p, g, Step(LaneOf(p, g), limits, elapsed)).(usedBytes := p.usedBytes - Released(LaneOf(p, g)))
    case RotateBegin(hash) =>
      p.(depth := Control(p.depth, Rotate(hash)), trades := Control(p.trades, Rotate(hash)),
         metadata := Control(p.metadata, Rotate(hash)), rotating := Some(hash))
    case RotateEnd => p.(hash := p.rotating.value, rotating := None)
    case StopAll => p.(depth := Control(p.depth, Stop), trades := Control(p.trades, Stop), metadata := Control(p.metadata, Stop))
  }

  predicate Runs(p: Pool, actions: seq<Action>, limits: Limits)
    decreases |actions|
  {
    actions == [] || (Can(p, actions[0]) && Runs(Do(p, actions[0], limits), actions[1..], limits))
  }

  function After(p: Pool, actions: seq<Action>, limits: Limits): Pool
    requires Runs(p, actions, limits)
    decreases |actions|
  {
    if actions == [] then p else After(Do(p, actions[0], limits), actions[1..], limits)
  }

  // ---------------------------------------------------------------- the invariant

  /** The hash the next events are put under, once any rotation is through. */
  function Current(p: Pool): string {
    if p.rotating.Some? then p.rotating.value else p.hash
  }

  ghost predicate InLine(lane: Lane, hash: string) {
    HashAfter(NextHash(lane), lane.queue) == hash
  }

  ghost predicate PoolOk(p: Pool, limits: Limits) {
    && LaneOk(p.depth, limits) && LaneOk(p.trades, limits) && LaneOk(p.metadata, limits)
    && InLine(p.depth, Current(p)) && InLine(p.trades, Current(p)) && InLine(p.metadata, Current(p))
    && p.usedBytes == Owed(p.depth) + Owed(p.trades) + Owed(p.metadata) && p.usedBytes <= p.maxBytes
  }

  // Appending to a queue.

  lemma {:induction false} WaitingAppend(queue: seq<Item>, item: Item)
    ensures Waiting(queue + [item]) == Waiting(queue) + (if item.Data? then [item.queued] else [])
    decreases |queue|
  {
    if queue == [] {
      assert queue + [item] == [item] && [item][1..] == [];
    } else {
      assert (queue + [item])[1..] == queue[1..] + [item];
      WaitingAppend(queue[1..], item);
      Append(if queue[0].Data? then [queue[0].queued] else [], Waiting(queue[1..]), if item.Data? then [item.queued] else []);
    }
  }

  lemma {:induction false} HashAfterAppend(hash: string, queue: seq<Item>, item: Item)
    ensures HashAfter(hash, queue + [item]) == if item.Rotate? then item.hash else HashAfter(hash, queue)
    decreases |queue|
  {
    if queue == [] {
      assert queue + [item] == [item] && [item][1..] == [];
    } else {
      assert (queue + [item])[1..] == queue[1..] + [item];
      HashAfterAppend(if queue[0].Rotate? then queue[0].hash else hash, queue[1..], item);
    }
  }

  lemma {:induction false} TagsAppend(hash: string, queue: seq<Item>, item: Item)
    requires TagsOk(hash, queue)
    requires item.Data? ==> item.queued.tag == HashAfter(hash, queue) && item.queued.reserved == SizeOf(item.queued.event)
    ensures TagsOk(hash, queue + [item])
    decreases |queue|
  {
    if queue == [] {
      assert queue + [item] == [item] && [item][1..] == [];
    } else {
      assert (queue + [item])[1..] == queue[1..] + [item];
      TagsAppend(if queue[0].Rotate? then queue[0].hash else hash, queue[1..], item);
    }
  }

  lemma AdmitOk(lane: Lane, q: Queued, limits: Limits)
    requires LaneOk(lane, limits) && InLine(lane, q.tag) && q.reserved == SizeOf(q.event)
    ensures LaneOk(Admit(lane, q), limits) && InLine(Admit(lane, q), q.tag)
    ensures Owed(Admit(lane, q)) == Owed(lane) + q.reserved
  {
    WaitingAppend(lane.queue, Data(q));
    HashAfterAppend(NextHash(lane), lane.queue, Data(q));
    TagsAppend(NextHash(lane), lane.queue, Data(q));
    ReservedSplit(Waiting(lane.queue), [q]);
    ReservedOne(q);
    var before := EventsIn(lane.chunks) + EventsOf(lane.session) + InHand(lane.phase);
    Append(before, Waiting(lane.queue), [q]);
    hide SessionOk, ChunkOk, PhaseOk, EventsIn, EventsOf, InHand, Waiting, TagsOk, HashAfter, Reserved;
  }

  lemma ControlOk(lane: Lane, item: Item, limits: Limits, hash: string)
    requires LaneOk(lane, limits) && InLine(lane, hash) && !item.Data?
    ensures LaneOk(Control(lane, item), limits) && Owed(Control(lane, item)) == Owed(lane)
    ensures InLine(Control(lane, item), if item.Rotate? then item.hash else hash)
  {
    WaitingAppend(lane.queue, item);
    HashAfterAppend(NextHash(lane), lane.queue, item);
    TagsAppend(NextHash(lane), lane.queue, item);
    assert Waiting(lane.queue) + [] == Waiting(lane.queue);
    hide SessionOk, ChunkOk, PhaseOk, EventsIn, EventsOf, InHand, Waiting, TagsOk, HashAfter, Reserved;
  }

  // The budget over a step.

  /** What the lane owes apart from its queue. */
  function Held(session: Option<Session>, phase: Phase): nat {
    Reserved(InHand(phase)) + (if session.Some? then session.value.batchBytes else 0) + (if phase.Release? then phase.bytes else 0)
  }

  lemma FinishThenOwed(lane: Lane, next: Phase, limits: Limits)
    requires lane.session.Some? ==> SessionOk(lane.session.value, limits)
    requires !next.Release? && !next.Close?
    ensures var t := FinishThen(lane, next);
            Held(t.session, t.phase) == Reserved(InHand(next)) + (if lane.session.Some? then lane.session.value.batchBytes else 0)
  {
    assert Reserved([]) == 0;
    assert InHand(Close(next)) == InHand(next);
    hide Describes, Reserved;
  }

  lemma TakeOwed(lane: Lane, limits: Limits)
    requires LaneOk(lane, limits) && lane.phase.Ready? && lane.queue != []
    ensures Owed(Take(lane, limits)) == Owed(lane) && NextHash(Take(lane, limits)) == PhaseHash(NextOf(lane.queue[0]), lane.hash)
  {
    var rest := lane.(queue := lane.queue[1..]);
    var next := NextOf(lane.queue[0]);
    TakeQueue(lane);
    FinishThenOwed(rest, next, limits);
    FinishThenOk(rest, next, limits);
    TakenFields(rest, next);
    TakeIs(lane, limits);
    ReservedSplit(InHand(next), Waiting(rest.queue));
    assert Reserved([]) == 0;
    hide SessionOk, ChunkOk, Contents, FinishThen, Take, Reserved, Waiting, TagsOk, ShouldRotateBefore;
  }

  lemma TakeInLine(lane: Lane, limits: Limits, hash: string)
    requires LaneOk(lane, limits) && lane.phase.Ready? && lane.queue != [] && InLine(lane, hash)
    ensures InLine(Take(lane, limits), hash)
  {
    TakeOwed(lane, limits);
    TakeIs(lane, limits);
    TakenFields(lane.(queue := lane.queue[1..]), NextOf(lane.queue[0]));
    hide LaneOk, FinishThen, Take, ShouldRotateBefore;
  }

  lemma StepOwed(lane: Lane, limits: Limits, elapsed: bool)
    requires LaneOk(lane, limits)
    ensures Owed(Step(lane, limits, elapsed)) + Released(lane) == Owed(lane)
  {
    assert Reserved([]) == 0;
    match lane.phase
    case Place(q) => PlaceOwed(lane, limits, elapsed); hide Reserved, Waiting;
    case Close(_) => CloseOwed(lane, limits, elapsed); hide Reserved, Waiting, Owed, LaneOk, Step;
    case Ready => FinishThenOwed(lane, Ready, limits); hide Contents, TagsOk, Reserved, Waiting, FinishThen, SessionOk, ChunkOk, Full;
      assert FinishThen(lane, Ready).queue == lane.queue by { TakenFields(lane, Ready); }
    case Check => FinishThenOwed(lane, Ready, limits); hide Contents, TagsOk, Reserved, Waiting, FinishThen, SessionOk, ChunkOk, Full;
      assert FinishThen(lane, Ready).queue == lane.queue by { TakenFields(lane, Ready); }
    case _ => hide Contents, TagsOk, Reserved, Waiting, SessionOk, ChunkOk;
  }

  lemma PlaceOwed(lane: Lane, limits: Limits, elapsed: bool)
    requires LaneOk(lane, limits) && lane.phase.Place?
    ensures Owed(Step(lane, limits, elapsed)) == Owed(lane) && Released(lane) == 0
  {
    ReservedOne(lane.phase.queued);
    assert Reserved([]) == 0;
    hide LaneOk, Reserved, Waiting, BatchIsFull;
    assert InHand(Check) == [];
    assert InHand(Release(0, Check)) == [];
  }

  lemma CloseOwed(lane: Lane, limits: Limits, elapsed: bool)
    requires LaneOk(lane, limits) && lane.phase.Close?
    ensures Owed(Step(lane, limits, elapsed)) == Owed(lane) && Released(lane) == 0
  {
    CloseOk(lane, limits);
    assert lane.session.value.batch == [] && lane.session.value.batchBytes == 0;
    assert InHand(lane.phase) == InHand(lane.phase.next);
    assert !lane.phase.next.Release?;
    hide LaneOk, Reserved, Waiting, InHand, Finishable;
  }

  lemma StepInLine(lane: Lane, limits: Limits, elapsed: bool, hash: string)
    requires LaneOk(lane, limits) && InLine(lane, hash)
    ensures InLine(Step(lane, limits, elapsed), hash)
  {
    hide Contents, SessionOk, ChunkOk, TagsOk, HashAfter, Added, BatchIsFull, ShouldRotateBefore;
    assert PhaseHash(Check, lane.hash) == lane.hash;
    if lane.phase.Close? {
      CloseOk(lane, limits);
    } else if lane.phase.Ready? || lane.phase.Check? {
      FinishThenOk(lane, Ready, limits);
      TakenFields(lane, Ready);
      hide FinishThen;
    }
  }

  // ---------------------------------------------------------------- every run

  lemma LaneStepOk(p: Pool, g: Group, limits: Limits, elapsed: bool)
    requires PoolOk(p, limits) && limits.maxEvents >= 1
    ensures var t := Step(LaneOf(p, g), limits, elapsed);
            LaneOk(t, limits) && InLine(t, Current(p)) && Owed(t) + Released(LaneOf(p, g)) == Owed(LaneOf(p, g))
  {
    StepOk(LaneOf(p, g), limits, elapsed);
    StepInLine(LaneOf(p, g), limits, elapsed, Current(p));
    StepOwed(LaneOf(p, g), limits, elapsed);
    hide LaneOk, InLine, Step, Owed;
  }

  lemma WorkOk(p: Pool, g: Group, limits: Limits, elapsed: bool)
    requires PoolOk(p, limits) && limits.maxEvents >= 1
    ensures PoolOk(Do(p, Work(g, elapsed), limits), limits)
    ensures p.usedBytes >= Released(LaneOf(p, g))
  {
    LaneStepOk(p, g, limits, elapsed);
    hide LaneOk, InLine, Step, Owed, Released;
  }

  lemma TakeItemOk(p: Pool, g: Group, limits: Limits)
    requires PoolOk(p, limits) && Can(p, TakeItem(g))
    ensures PoolOk(Do(p, TakeItem(g), limits), limits)
  {
    var lane := LaneOf(p, g);
    TakeOk(lane, limits);
    TakeOwed(lane, limits);
    TakeInLine(lane, limits, Current(p));
    hide LaneOk, InLine, Take, Owed;
  }

  lemma PutOk(p: Pool, g: Group, e: Event, limits: Limits)
    requires PoolOk(p, limits) && p.rotating == None
    ensures PoolOk(Do(p, Put(g, e), limits), limits)
  {
    AdmitOk(LaneOf(p, g), Queued(e, SizeOf(e), p.hash), limits);
    hide LaneOk, InLine, Owed, Admit, SizeOf;
  }

  lemma ControlAllOk(p: Pool, item: Item, limits: Limits)
    requires PoolOk(p, limits) && !item.Data?
    ensures var hash := if item.Rotate? then item.hash else Current(p);
            && LaneOk(Control(p.depth, item), limits) && InLine(Control(p.depth, item), hash)
            && LaneOk(Control(p.trades, item), limits) && InLine(Control(p.trades, item), hash)
            && LaneOk(Control(p.metadata, item), limits) && InLine(Control(p.metadata, item), hash)
    ensures Owed(Control(p.depth, item)) == Owed(p.depth) && Owed(Control(p.trades, item)) == Owed(p.trades)
    ensures Owed(Control(p.metadata, item)) == Owed(p.metadata)
  {
    hide LaneOk, InLine, Owed, Control;
    ControlOk(p.depth, item, limits, Current(p));
    ControlOk(p.trades, item, limits, Current(p));
    ControlOk(p.metadata, item, limits, Current(p));
  }

  lemma StepPoolOk(p: Pool, a: Action, limits: Limits)
    requires PoolOk(p, limits) && Can(p, a) && limits.maxEvents >= 1
    ensures PoolOk(Do(p, a, limits), limits)
  {
    match a
    case Put(g, e) => PutOk(p, g, e, limits); hide PoolOk, Do;
    case TakeItem(g) => TakeItemOk(p, g, limits); hide PoolOk, Do;
    case Work(g, elapsed) => WorkOk(p, g, limits, elapsed); hide PoolOk, Do;
    case RotateBegin(hash) => ControlAllOk(p, Rotate(hash), limits); hide LaneOk, InLine, Owed, Control;
    case RotateEnd => hide LaneOk, InLine, Owed, Reached;
    case StopAll => ControlAllOk(p, Stop, limits); hide LaneOk, InLine, Owed, Control;
  }

  lemma {:induction false} RunPoolOk(p: Pool, actions: seq<Action>, limits: Limits)
    requires PoolOk(p, limits) && Runs(p, actions, limits) && limits.maxEvents >= 1
    ensures PoolOk(After(p, actions, limits), limits)
    decreases |actions|
  {
    hide PoolOk, Can, Do;
    if actions != [] {
      StepPoolOk(p, actions[0], limits);
      RunPoolOk(Do(p, actions[0], limits), actions[1..], limits);
    }
  }

  lemma StartedOk(maxBytes: nat, hash: string, limits: Limits)
    ensures PoolOk(Started(maxBytes, hash), limits)
  {
    assert Contents(EmptyLane(hash)) == [];
    assert Owed(EmptyLane(hash)) == 0;
  }

  /**
   In every state of every interleaving of puts, flushes, timeouts, rotations and stop, each group's
   finished chunks, open session, event in hand and queue concatenate to the accepted events in order.
   */
  lemma NothingIsLostOrReordered(maxBytes: nat, hash: string, limits: Limits, actions: seq<Action>, g: Group)
    requires limits.maxEvents >= 1 && Runs(Started(maxBytes, hash), actions, limits)
    ensures var lane := LaneOf(After(Started(maxBytes, hash), actions, limits), g);
            EventsIn(lane.chunks) + EventsOf(lane.session) + InHand(lane.phase) + Waiting(lane.queue) == lane.accepted
  {
    StartedOk(maxBytes, hash, limits);
    RunPoolOk(Started(maxBytes, hash), actions, limits);
    hide Runs, After, Owed, InLine, SessionOk, ChunkOk, PhaseOk, TagsOk;
  }

  /**
   Every finished chunk is nonempty, of one UTC date, under the universe hash in force when its events
   were put, within the limits but for a single oversized event, and its manifest's count is that of its
   events and its two times are the earliest and the latest of them.
   */
  lemma ChunksAreUniform(maxBytes: nat, hash: string, limits: Limits, actions: seq<Action>, g: Group, c: Chunk)
    requires limits.maxEvents >= 1 && Runs(Started(maxBytes, hash), actions, limits)
    requires c in LaneOf(After(Started(maxBytes, hash), actions, limits), g).chunks
    ensures c.count == |c.events| > 0 && c.count <= limits.maxEvents
    ensures Reserved(c.events) <= limits.maxBytes || c.count == 1
    ensures forall q | q in c.events :: DateOf(q.event) == c.date && q.tag == c.hash && c.minNs <= q.event.receiveNs <= c.maxNs
    ensures exists first, final :: first in c.events && final in c.events
              && first.event.receiveNs == c.minNs && final.event.receiveNs == c.maxNs
  {
    StartedOk(maxBytes, hash, limits);
    RunPoolOk(Started(maxBytes, hash), actions, limits);
    hide Runs, After, Owed, InLine, SessionOk, PhaseOk, TagsOk, Contents;
    assert ChunkOk(c, limits);
  }

  /** The budget counts exactly the bytes queued, in hand, batched or about to be released, and is never exceeded. */
  lemma BudgetIsExact(maxBytes: nat, hash: string, limits: Limits, actions: seq<Action>)
    requires limits.maxEvents >= 1 && Runs(Started(maxBytes, hash), actions, limits)
    ensures var p := After(Started(maxBytes, hash), actions, limits);
            && 0 <= p.usedBytes <= p.maxBytes && p.usedBytes == Owed(p.depth) + Owed(p.trades) + Owed(p.metadata)
            && forall e :: Fits(p, e) <==> p.usedBytes + SizeOf(e) <= p.maxBytes
  {
    StartedOk(maxBytes, hash, limits);
    RunPoolOk(Started(maxBytes, hash), actions, limits);
    hide Runs, After, Owed, InLine, LaneOk;
  }

  /** Outside a rotation, an event is accepted, under the hash in force, exactly when the bytes outstanding leave room for it. */
  lemma PutExactly(maxBytes: nat, hash: string, limits: Limits, actions: seq<Action>, g: Group, e: Event)
    requires limits.maxEvents >= 1 && Runs(Started(maxBytes, hash), actions, limits)
    requires Can(After(Started(maxBytes, hash), actions, limits), Put(g, e))
    ensures var p := After(Started(maxBytes, hash), actions, limits); var q := Do(p, Put(g, e), limits);
            var fits := Owed(p.depth) + Owed(p.trades) + Owed(p.metadata) + SizeOf(e) <= p.maxBytes;
            && LaneOf(q, g).accepted == LaneOf(p, g).accepted + (if fits then [Queued(e, SizeOf(e), Current(p))] else [])
            && (forall h | h != g :: LaneOf(q, h) == LaneOf(p, h)) && (!fits ==> q == p)
  {
    BudgetIsExact(maxBytes, hash, limits, actions);
    hide Runs, After, Owed, SizeOf;
  }

  /** Everything a lane has not yet finished was put under `hash`. */
  ghost predicate Under(lane: Lane, hash: string) {
    && lane.hash == hash
    && forall q | q in EventsOf(lane.session) || q in InHand(lane.phase) || q in Waiting(lane.queue) :: q.tag == hash
  }

  lemma {:induction false} WaitingTagged(hash: string, queue: seq<Item>)
    requires TagsOk(hash, queue) && forall item | item in queue :: !item.Rotate?
    ensures HashAfter(hash, queue) == hash && forall q | q in Waiting(queue) :: q.tag == hash
    decreases |queue|
  {
    if queue != [] {
      assert queue[0] in queue;
      assert forall item | item in queue[1..] :: item in queue;
      WaitingTagged(hash, queue[1..]);
    }
  }

  lemma {:induction false} NotInstalling(phase: Phase, hash: string)
    requires !Installing(phase)
    ensures PhaseHash(phase, hash) == hash
    decreases phase
  {
    match phase
    case Close(next) => NotInstalling(next, hash);
    case Release(_, next) => NotInstalling(next, hash);
    case _ =>
  }

  lemma ReachedUnder(lane: Lane, limits: Limits, hash: string)
    requires LaneOk(lane, limits) && InLine(lane, hash) && Reached(lane)
    ensures Under(lane, hash)
  {
    NotInstalling(lane.phase, lane.hash);
    WaitingTagged(lane.hash, lane.queue);
    HandTagged(lane.phase, lane.session, lane.hash, limits);
    SessionTagged(lane, limits);
    hide LaneOk, ChunkOk, Contents, TagsOk, Waiting, InHand, EventsOf;
  }

  lemma HandTagged(phase: Phase, session: Option<Session>, hash: string, limits: Limits)
    requires PhaseOk(phase, session, hash, limits)
    ensures forall q | q in InHand(phase) :: q.tag == hash
  {
  }

  lemma SessionTagged(lane: Lane, limits: Limits)
    requires LaneOk(lane, limits)
    ensures forall q | q in EventsOf(lane.session) :: q.tag == lane.hash
  {
    hide Contents, ChunkOk, PhaseOk, TagsOk, Bounded, Spans;
  }

  /**
   The barrier of a rotation: it ends only when every worker is under the new hash and all that was put
   under an older one is in finished files. Lanes that rest with nothing queued never hold it up.
   */
  lemma RotationIsBarrier(maxBytes: nat, hash: string, limits: Limits, actions: seq<Action>)
    requires limits.maxEvents >= 1 && Runs(Started(maxBytes, hash), actions, limits)
    requires After(Started(maxBytes, hash), actions, limits).rotating.Some?
    ensures var p := After(Started(maxBytes, hash), actions, limits);
            && (Can(p, RotateEnd) ==>
                  forall g :: Under(LaneOf(p, g), p.rotating.value) && Do(p, RotateEnd, limits).hash == LaneOf(p, g).hash)
            && ((forall g :: LaneOf(p, g).phase.Ready? && LaneOf(p, g).queue == []) ==> Can(p, RotateEnd))
  {
    StartedOk(maxBytes, hash, limits);
    RunPoolOk(Started(maxBytes, hash), actions, limits);
    var p := After(Started(maxBytes, hash), actions, limits);
    hide Runs, After, PoolOk, Under, Reached;
    if Can(p, RotateEnd) {
      EndsUnder(p, limits);
    }
    if forall g :: LaneOf(p, g).phase.Ready? && LaneOf(p, g).queue == [] {
      RestIsReached(LaneOf(p, DEPTH));
      RestIsReached(LaneOf(p, TRADES));
      RestIsReached(LaneOf(p, METADATA));
    }
  }

  lemma EndsUnder(p: Pool, limits: Limits)
    requires PoolOk(p, limits) && Can(p, RotateEnd)
    ensures forall g :: Under(LaneOf(p, g), p.rotating.value) && Do(p, RotateEnd, limits).hash == LaneOf(p, g).hash
  {
    hide LaneOk, InLine, Owed, Under, Reached;
    forall g
      ensures Under(LaneOf(p, g), p.rotating.value) && LaneOf(p, g).hash == p.rotating.value
    {
      ReachedUnder(LaneOf(p, g), limits, p.rotating.value);
      UnderHash(LaneOf(p, g), p.rotating.value);
    }
  }

  lemma UnderHash(lane: Lane, hash: string)
    requires Under(lane, hash)
    ensures lane.hash == hash
  {
  }

  lemma RestIsReached(lane: Lane)
    requires lane.phase.Ready? && lane.queue == []
    ensures Reached(lane)
  {
  }
}
