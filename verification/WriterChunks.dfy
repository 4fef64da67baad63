/**
 When a writer closes a file, and when it must. A lane at rest holds neither a full batch nor a full
 file; a file is closed early only for a change of date, of universe hash, for age or at a stop.
 */
module WriterChunks {
  import opened Base
  import opened Writer
  import opened WriterPool
  import opened WriterRun

  // ---------------------------------------------------------------- nothing full is kept

  predicate BatchHasRoom(s: Session, limits: Limits) {
    s.batch == [] || (|s.batch| < limits.batchEvents && s.batchBytes < limits.batchBytes)
  }

  predicate FileHasRoom(s: Session, limits: Limits) {
    s.bytes < limits.maxBytes && s.count < limits.maxEvents
  }

  ghost predicate HasRoom(lane: Lane, limits: Limits) {
    && (lane.session.Some? ==> BatchHasRoom(lane.session.value, limits))
    && (lane.session.Some? && (lane.phase.Ready? || lane.phase.Place?) ==> FileHasRoom(lane.session.value, limits))
  }

  lemma TakeHasRoom(lane: Lane, limits: Limits)
    requires HasRoom(lane, limits) && lane.phase.Ready? && lane.queue != []
    ensures HasRoom(Take(lane, limits), limits)
  {
    hide ShouldRotateBefore;
  }

  lemma StepHasRoom(lane: Lane, limits: Limits, elapsed: bool)
    requires HasRoom(lane, limits) && PhaseOk(lane.phase, lane.session, lane.hash, limits)
    ensures HasRoom(Step(lane, limits, elapsed), limits)
  {
    hide ShouldRotateBefore, Added, Finished, Finishable;
    match lane.phase
    case Place(q) => PlaceHasRoom(lane, q, limits); hide PlaceOne;
    case _ => hide PlaceOne;
  }

  lemma PlaceHasRoom(lane: Lane, q: Queued, limits: Limits)
    ensures HasRoom(PlaceOne(lane, q, limits), limits)
  {
    hide Added;
  }

  ghost predicate AllHaveRoom(p: Pool, limits: Limits) {
    HasRoom(p.depth, limits) && HasRoom(p.trades, limits) && HasRoom(p.metadata, limits)
  }

  lemma WorkHasRoom(p: Pool, g: Group, elapsed: bool, limits: Limits)
    requires PoolOk(p, limits) && AllHaveRoom(p, limits)
    ensures HasRoom(Step(LaneOf(p, g), limits, elapsed), limits)
  {
    hide Contents, SessionOk, ChunkOk, TagsOk, PhaseOk, Step, InLine, Owed;
    StepHasRoom(LaneOf(p, g), limits, elapsed);
  }

  lemma PoolHasRoom(p: Pool, a: Action, limits: Limits)
    requires PoolOk(p, limits) && AllHaveRoom(p, limits) && Can(p, a)
    ensures AllHaveRoom(Do(p, a, limits), limits)
  {
    match a
    case TakeItem(g) =>
      hide PoolOk, Take, HasRoom;
      TakeHasRoom(LaneOf(p, g), limits);
    case Work(g, elapsed) =>
      hide PoolOk, Step, HasRoom;
      WorkHasRoom(p, g, elapsed, limits);
    case _ => hide PoolOk, Take, Step;
  }

  lemma {:induction false} RunHasRoom(p: Pool, actions: seq<Action>, limits: Limits)
    requires PoolOk(p, limits) && AllHaveRoom(p, limits) && limits.maxEvents >= 1 && Runs(p, actions, limits)
    ensures AllHaveRoom(After(p, actions, limits), limits)
    decreases |actions|
  {
    hide PoolOk, AllHaveRoom, Can, Do;
    if actions != [] {
      StepPoolOk(p, actions[0], limits);
      PoolHasRoom(p, actions[0], limits);
      RunHasRoom(Do(p, actions[0], limits), actions[1..], limits);
    }
  }

  /**
   A worker that waits for its queue holds no batch that is due to be written and no file that is due
   to be closed.
   */
  lemma NothingFullIsKept(maxBytes: nat, hash: string, limits: Limits, actions: seq<Action>, g: Group)
    requires limits.maxEvents >= 1 && Runs(Started(maxBytes, hash), actions, limits)
    ensures var lane := LaneOf(After(Started(maxBytes, hash), actions, limits), g);
            lane.phase.Ready? && lane.session.Some? ==>
              && lane.session.value.bytes < limits.maxBytes && lane.session.value.count < limits.maxEvents
              && (lane.session.value.batch == [] ||
                  (|lane.session.value.batch| < limits.batchEvents && lane.session.value.batchBytes < limits.batchBytes))
  {
    StartedOk(maxBytes, hash, limits);
    assert AllHaveRoom(Started(maxBytes, hash), limits);
    hide PoolOk, Runs, After, Started;
    RunHasRoom(Started(maxBytes, hash), actions, limits);
  }

  // ---------------------------------------------------------------- no file is closed early

  /** The chunk is full, or the event that was put right after its last one does not go into it. */
  ghost predicate Maximal(c: Chunk, accepted: seq<Queued>, after: nat, limits: Limits) {
    || Reserved(c.events) >= limits.maxBytes || c.count >= limits.maxEvents
    || (after < |accepted| &&
        (DateOf(accepted[after].event) != c.date || Reserved(c.events) + SizeOf(accepted[after].event) > limits.maxBytes))
  }

  /** How many events the first `n` chunks hold. */
  function Ends(chunks: seq<Chunk>, n: nat): nat
    requires n <= |chunks|
  {
    |EventsIn(chunks[..n])|
  }

  /** What a phase is about to close the file for. */
  predicate ClosesFor(phase: Phase, s: Session, limits: Limits)
    decreases phase
  {
    match phase
    case Close(next) => Full(s, limits) || (next.Place? && ShouldRotateBefore(s, next.queued.event, limits))
    case Release(_, next) => ClosesFor(next, s, limits)
    case _ => true
  }

  predicate PlainQueue(queue: seq<Item>) {
    forall item | item in queue :: item.Data?
  }

  ghost predicate Packed(lane: Lane, limits: Limits) {
    && PlainQueue(lane.queue)
    && (lane.session.Some? ==> ClosesFor(lane.phase, lane.session.value, limits))
    && forall i :: 0 <= i < |lane.chunks| ==> Maximal(lane.chunks[i], lane.accepted, Ends(lane.chunks, i + 1), limits)
  }

  lemma MaximalLater(c: Chunk, accepted: seq<Queued>, more: seq<Queued>, after: nat, limits: Limits)
    requires Maximal(c, accepted, after, limits)
    ensures Maximal(c, accepted + more, after, limits)
  {
  }

  lemma AdmitPacked(lane: Lane, q: Queued, limits: Limits)
    requires Packed(lane, limits)
    ensures Packed(Admit(lane, q), limits)
  {
    hide ClosesFor, Maximal, Ends;
    forall i | 0 <= i < |lane.chunks|
      ensures Maximal(lane.chunks[i], lane.accepted + [q], Ends(lane.chunks, i + 1), limits)
    {
      MaximalLater(lane.chunks[i], lane.accepted, [q], Ends(lane.chunks, i + 1), limits);
    }
  }

  lemma TakePacked(lane: Lane, limits: Limits)
    requires Packed(lane, limits) && lane.phase.Ready? && lane.queue != []
    ensures Packed(Take(lane, limits), limits)
  {
    hide Maximal, Ends;
    assert lane.queue[0] in lane.queue && lane.queue[0].Data?;
    var after := Take(lane, limits);
    assert after.chunks == lane.chunks && after.accepted == lane.accepted && after.queue == lane.queue[1..];
    TakeCloses(lane, limits);
    hide ClosesFor, Take;
  }

  lemma TakeCloses(lane: Lane, limits: Limits)
    requires lane.phase.Ready? && lane.queue != [] && lane.queue[0].Data?
    ensures var after := Take(lane, limits); after.session.Some? ==> ClosesFor(after.phase, after.session.value, limits)
  {
  }

  /** The closed file is followed by the event that closed it. */
  lemma ClosedMaximal(lane: Lane, s: Session, next: Phase, limits: Limits)
    requires LaneOk(lane, limits) && lane.session == Some(s) && lane.phase == Close(next) && Finishable(s)
    requires ClosesFor(lane.phase, s, limits)
    ensures Maximal(Finished(s), lane.accepted, |EventsIn(lane.chunks + [Finished(s)])|, limits)
  {
    var c := Finished(s);
    EventsInOneMore(lane.chunks, c);
    assert s.written + s.batch == s.written;
    var before := EventsIn(lane.chunks) + s.written;
    assert lane.accepted == before + InHand(next) + Waiting(lane.queue);
    assert s.bytes == Reserved(s.written);
    if !Full(s, limits) {
      assert InHand(next) == [next.queued];
      assert lane.accepted[|before|] == next.queued;
    }
    hide ChunkOk, TagsOk, Spans, SameOrigin;
  }

  lemma ClosePacked(lane: Lane, next: Phase, limits: Limits)
    requires LaneOk(lane, limits) && Packed(lane, limits) && lane.phase == Close(next)
    ensures Packed(Closed(lane, next), limits)
  {
    hide Maximal, ClosesFor;
    if lane.session.Some? && Finishable(lane.session.value) {
      var s := lane.session.value;
      ClosedMaximal(lane, s, next, limits);
      hide LaneOk;
      var after := Closed(lane, next);
      assert after.chunks == lane.chunks + [Finished(s)] && after.accepted == lane.accepted;
      forall i | 0 <= i < |after.chunks|
        ensures Maximal(after.chunks[i], after.accepted, Ends(after.chunks, i + 1), limits)
      {
        if i < |lane.chunks| {
          assert after.chunks[..i + 1] == lane.chunks[..i + 1];
        } else {
          assert after.chunks[..i + 1] == after.chunks;
        }
      }
    }
  }

  lemma StepPacked(lane: Lane, limits: Limits)
    requires LaneOk(lane, limits) && Packed(lane, limits)
    ensures Packed(Step(lane, limits, false), limits)
  {
    match lane.phase
    case Close(next) => ClosePacked(lane, next, limits); hide Packed, Closed, LaneOk;
    case _ =>
      assert PhaseOk(lane.phase, lane.session, lane.hash, limits);
      var after := Step(lane, limits, false);
      assert after.chunks == lane.chunks && after.accepted == lane.accepted && after.queue == lane.queue by {
        hide LaneOk, Added, BatchIsFull, Full, PhaseOk;
      }
      StepCloses(lane, limits);
      hide LaneOk, Step, Maximal, Ends, ClosesFor, PhaseOk;
  }

  lemma StepCloses(lane: Lane, limits: Limits)
    requires PhaseOk(lane.phase, lane.session, lane.hash, limits) && !lane.phase.Close?
    requires lane.session.Some? ==> ClosesFor(lane.phase, lane.session.value, limits)
    ensures var after := Step(lane, limits, false);
            after.session.Some? ==> ClosesFor(after.phase, after.session.value, limits)
  {
    hide Added, BatchIsFull;
  }

  ghost predicate AllPacked(p: Pool, limits: Limits) {
    Packed(p.depth, limits) && Packed(p.trades, limits) && Packed(p.metadata, limits)
  }

  /** No rotation, no stop, and no file grows too old. */
  predicate Calm(actions: seq<Action>) {
    forall a | a in actions :: !a.RotateBegin? && !a.StopAll? && !(a.Work? && a.elapsed)
  }

  lemma PutPacked(p: Pool, g: Group, e: Event, limits: Limits)
    requires AllPacked(p, limits) && p.rotating == None
    ensures AllPacked(Do(p, Put(g, e), limits), limits)
  {
    hide Packed, Fits, Admit;
    AdmitPacked(LaneOf(p, g), Queued(e, SizeOf(e), p.hash), limits);
  }

  lemma WorkPacked(p: Pool, g: Group, limits: Limits)
    requires PoolOk(p, limits) && AllPacked(p, limits)
    ensures AllPacked(Do(p, Work(g, false), limits), limits)
  {
    hide Packed, LaneOk, InLine, Owed, Step, Released;
    StepPacked(LaneOf(p, g), limits);
  }

  lemma PoolPacked(p: Pool, a: Action, limits: Limits)
    requires PoolOk(p, limits) && AllPacked(p, limits) && Can(p, a) && Calm([a])
    ensures AllPacked(Do(p, a, limits), limits)
  {
    assert a in [a];
    hide Calm, PoolOk, Packed;
    match a
    case Put(g, e) => PutPacked(p, g, e, limits); hide Do, AllPacked;
    case TakeItem(g) => hide Take; TakePacked(LaneOf(p, g), limits);
    case Work(g, elapsed) => WorkPacked(p, g, limits); hide Do, AllPacked;
    case RotateEnd =>
  }

  lemma {:induction false} RunPacked(p: Pool, actions: seq<Action>, limits: Limits)
    requires PoolOk(p, limits) && AllPacked(p, limits) && limits.maxEvents >= 1 && Runs(p, actions, limits) && Calm(actions)
    ensures AllPacked(After(p, actions, limits), limits) && PoolOk(After(p, actions, limits), limits)
    decreases |actions|
  {
    hide PoolOk, AllPacked, Can, Do;
    if actions != [] {
      assert forall a | a in actions[1..] :: a in actions;
      StepPoolOk(p, actions[0], limits);
      PoolPacked(p, actions[0], limits);
      RunPacked(Do(p, actions[0], limits), actions[1..], limits);
    }
  }

  /**
   Without rotations, stops and old files, every file is as long as it can be: it is full, or the event
   put next in its lane has another date or would have made it too large.
   */
  lemma ChunksAreMaximal(maxBytes: nat, hash: string, limits: Limits, actions: seq<Action>, g: Group, i: nat)
    requires limits.maxEvents >= 1 && Runs(Started(maxBytes, hash), actions, limits) && Calm(actions)
    requires i < |LaneOf(After(Started(maxBytes, hash), actions, limits), g).chunks|
    ensures var lane := LaneOf(After(Started(maxBytes, hash), actions, limits), g);
            Maximal(lane.chunks[i], lane.accepted, Ends(lane.chunks, i + 1), limits)
  {
    StartedOk(maxBytes, hash, limits);
    assert AllPacked(Started(maxBytes, hash), limits);
    hide PoolOk, Runs, After, Started, Maximal, Ends, Calm;
    RunPacked(Started(maxBytes, hash), actions, limits);
  }

  // ---------------------------------------------------------------- old files, rotations and stops

  lemma OldCloses(lane: Lane, limits: Limits)
    requires Sound(lane, limits) && lane.phase.Ready? && lane.session.Some?
    ensures var after := Settled(Step(lane, limits, true), limits, true);
            && after.phase.Ready? && after.session == None && |after.chunks| == |lane.chunks| + 1
            && after.chunks[..|lane.chunks|] == lane.chunks
            && after.chunks[|lane.chunks|].events == EventsOf(lane.session)
  {
    FinishSettles(lane, Ready, limits, true);
    var closed := FileFinished(lane).(phase := Ready);
    SettledReady(closed, limits, true);
    assert Step(lane, limits, true) == FinishThen(lane, Ready);
    hide Settled, FinishThen, Step, Sound;
  }

  lemma ControlCloses(lane: Lane, item: Item, limits: Limits, elapsed: bool)
    requires Sound(lane, limits) && lane.phase.Ready? && lane.queue != [] && lane.queue[0] == item && !item.Data?
    ensures var after := Settled(Take(lane, limits), limits, elapsed);
            && after.session == None && after.queue == lane.queue[1..]
            && (if item.Rotate? then after.phase.Ready? && after.hash == item.hash
                else after.phase.Stopped? && after.hash == lane.hash)
            && EventsIn(after.chunks) == EventsIn(lane.chunks) + EventsOf(lane.session)
            && (lane.session.Some? ==> after.chunks[|after.chunks| - 1].hash == lane.session.value.hash)
  {
    var rest := lane.(queue := lane.queue[1..]);
    var next := if item.Rotate? then Install(item.hash) else Halt;
    FinishSettles(rest, next, limits, elapsed);
    var closed := FileFinished(rest).(phase := next);
    assert Settled(closed, limits, elapsed) ==
           closed.(hash := if item.Rotate? then item.hash else lane.hash, phase := if item.Rotate? then Ready else Stopped) by {
      ControlSettles(closed, limits, elapsed);
    }
    assert Take(lane, limits) == FinishThen(rest, next);
    if lane.session.Some? {
      EventsInOneMore(lane.chunks, Finished(Flushed(lane.session.value)));
    } else {
      assert EventsIn(lane.chunks) + [] == EventsIn(lane.chunks);
    }
    hide Settled, FinishThen, Take, Sound, EventsIn;
  }

  lemma ControlSettles(lane: Lane, limits: Limits, elapsed: bool)
    requires lane.phase.Install? || lane.phase.Halt?
    ensures Settled(lane, limits, elapsed) ==
              if lane.phase.Install? then lane.(hash := lane.phase.hash, phase := Ready) else lane.(phase := Stopped)
  {
    var next := Step(lane, limits, elapsed);
    if lane.phase.Install? {
      SettledReady(next, limits, elapsed);
    } else {
      assert Settled(next, limits, elapsed) == next;
    }
  }
}
