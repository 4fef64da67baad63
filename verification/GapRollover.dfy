/**
 The edge gap journal of src/ft_shadow_data_plane/edge/gaps.py: a gap that stays open over midnight
 is closed and reopened in every UTC day it touches. The central replay of those per-day facts must
 give back exactly the time the gap was open.
 */
module GapRollover {
  import opened Base
  import opened GapReplay
  import opened Coverage

  function DayOf(ns: int): int {
    ns / DAY_NS
  }

  function StartOf(day: int): int {
    day * DAY_NS
  }

  lemma DayBounds(ns: int)
    ensures StartOf(DayOf(ns)) <= ns < StartOf(DayOf(ns) + 1)
  {
  }

  lemma DayIs(ns: int, day: int)
    requires StartOf(day) <= ns < StartOf(day + 1)
    ensures DayOf(ns) == day
  {
  }

  /** `_event_date` */
  function EventDay(gap: GapEvent): int {
    DayOf(gap.EffectiveNs())
  }

  /** The path of a published fact: its day's directory and its chunk id. */
  datatype Artifact = Artifact(day: int, gapId: string, observedNs: int, open: bool)

  function ArtifactOf(gap: GapEvent): Artifact {
    Artifact(EventDay(gap), gap.gapId, gap.observedNs, gap.open)
  }

  /** The files: open-gap states, published facts of all days, and the days already sealed. */
  datatype Files = Files(states: map<string, GapEvent>, ready: map<Artifact, GapEvent>, sealedDays: set<int>)

  datatype Outcome = Outcome(files: Files, ok: bool)

  /** `_publish`: a sealed day raises. */
  function Publish(files: Files, gap: GapEvent): Outcome {
    if EventDay(gap) in files.sealedDays then Outcome(files, false)
    else Outcome(files.(ready := files.ready[ArtifactOf(gap) := gap]), true)
  }

  /** `open`: the OPEN fact is published and then recorded as the gap's state. */
  function Open(files: Files, gap: GapEvent): Outcome {
    var published := Publish(files, gap);
    if !published.ok then published
    else Outcome(published.files.(states := published.files.states[gap.gapId := gap]), true)
  }

  function RolledClose(gap: GapEvent, day: int): GapEvent {
    gap.(open := false, observedNs := StartOf(day + 1) - 1, affectedFromNs := None, detail := CONTINUES)
  }

  function RolledOpen(gap: GapEvent, day: int): GapEvent {
    gap.(open := true, observedNs := StartOf(day), affectedFromNs := Some(StartOf(day)),
         detail := "gap continued from a previous UTC day")
  }

  /**
   The first `steps` file operations of one turn of the loop in `_roll_state_to`: publish CLOSED
   for day `day` unless that day is sealed, publish OPEN for the next day, write the state file.
   Fewer than three steps is a crash in between.
   */
  function RollTurn(files: Files, id: string, day: int, steps: nat): Outcome
    requires id in files.states
  {
    var gap := files.states[id];
    if steps == 0 then Outcome(files, true)
    else
      var closed := if day in files.sealedDays then Outcome(files, true) else Publish(files, RolledClose(gap, day));
      if steps == 1 || !closed.ok then closed
      else
        var reopened := Publish(closed.files, RolledOpen(gap, day + 1));
        if steps == 2 || !reopened.ok then reopened
        else Outcome(reopened.files.(states := reopened.files.states[id := RolledOpen(gap, day + 1)]), true)
  }

  function RollNs(gap: GapEvent): int {
    if gap.affectedFromNs.Some? && gap.affectedFromNs.value != 0 then gap.affectedFromNs.value else gap.observedNs
  }

  /** The turns from day `day` on, until the state's day is `target` or a publication raises. */
  function RollFrom(files: Files, id: string, day: int, target: int): Outcome
    requires id in files.states
    decreases target - day
  {
    if day >= target then Outcome(files, true)
    else
      var turn := RollTurn(files, id, day, 3);
      if !turn.ok then turn else RollFrom(turn.files, id, day + 1, target)
  }

  function RollStateTo(files: Files, id: string, target: int): Outcome
    requires id in files.states
  {
    RollFrom(files, id, DayOf(RollNs(files.states[id])), target)
  }

  /** `close` up to the state file: roll to the day of the closing time, publish CLOSED. */
  function CloseCut(files: Files, closing: GapEvent): Outcome {
    var id := closing.gapId;
    var rolled := if id in files.states then RollStateTo(files, id, DayOf(closing.observedNs)) else Outcome(files, true);
    if !rolled.ok then rolled else Publish(rolled.files, closing)
  }

  /** `close`: the state file is removed once CLOSED is published. */
  function Close(files: Files, closing: GapEvent): Outcome {
    var published := CloseCut(files, closing);
    if !published.ok then published
    else Outcome(published.files.(states := published.files.states - {closing.gapId}), true)
  }

  /** `rollover`: every open gap in turn; the first publication that raises ends it. */
  function RolloverAll(files: Files, ids: seq<string>, boundaryDay: int): Outcome
    requires forall i :: 0 <= i < |ids| ==> ids[i] in files.states
    decreases |ids|
  {
    if ids == [] then Outcome(files, true)
    else
      RollKeepsKeys(files, ids[0], boundaryDay);
      var rolled := RollStateTo(files, ids[0], boundaryDay);
      if !rolled.ok then rolled else RolloverAll(rolled.files, ids[1..], boundaryDay)
  }

  // ---------------------------------------------------------------- the journal object

  class GapJournal {
    var states: map<string, GapEvent>
    var ready: map<Artifact, GapEvent>
    var sealedDays: set<int>

    function Value(): Files
      reads this
    {
      Files(states, ready, sealedDays)
    }

    constructor ()
      ensures Value() == Files(map[], map[], {})
    {
      states, ready, sealedDays := map[], map[], {};
    }

    method PublishFact(gap: GapEvent) returns (ok: bool)
      modifies this`ready
      ensures Outcome(Value(), ok) == Publish(old(Value()), gap)
    {
      if EventDay(gap) in sealedDays {
        return false;
      }
      ready := ready[ArtifactOf(gap) := gap];
      return true;
    }

    /** `open` */
    method OpenGap(gap: GapEvent) returns (ok: bool)
      modifies this
      ensures Outcome(Value(), ok) == Open(old(Value()), gap)
    {
      ok := PublishFact(gap);
      if ok {
        states := states[gap.gapId := gap];
      }
    }

    method RollState(id: string, target: int) returns (ok: bool)
      requires id in states
      modifies this
      ensures Outcome(Value(), ok) == RollStateTo(old(Value()), id, target)
    {
      var gap := states[id];
      var current := DayOf(RollNs(gap)) + 1;
      while current <= target
        invariant id in states && states[id] == gap
        invariant RollFrom(Value(), id, current - 1, target) == RollStateTo(old(Value()), id, target)
        decreases target - current
      {
        if current - 1 !in sealedDays {
          ok := PublishFact(RolledClose(gap, current - 1));
          if !ok {
            return;
          }
        }
        gap := RolledOpen(gap, current);
        ok := PublishFact(gap);
        if !ok {
          return;
        }
        states := states[id := gap];
        current := current + 1;
      }
      ok := true;
    }

    method Rollover(ids: seq<string>, boundaryDay: int) returns (ok: bool)
      requires forall i :: 0 <= i < |ids| ==> ids[i] in states
      modifies this
      ensures Outcome(Value(), ok) == RolloverAll(old(Value()), ids, boundaryDay)
    {
      hide RollStateTo;
      var i := 0;
      while i < |ids|
        invariant 0 <= i <= |ids|
        invariant forall k :: i <= k < |ids| ==> ids[k] in states
        invariant RolloverAll(Value(), ids[i..], boundaryDay) == RolloverAll(old(Value()), ids, boundaryDay)
      {
        RollKeepsKeys(Value(), ids[i], boundaryDay);
        ok := RollState(ids[i], boundaryDay);
        if !ok {
          return;
        }
        assert ids[i..][1..] == ids[i + 1..];
        i := i + 1;
      }
      ok := true;
    }

    method CloseGap(closing: GapEvent) returns (ok: bool)
      modifies this
      ensures Outcome(Value(), ok) == Close(old(Value()), closing)
    {
      if closing.gapId in states {
        ok := RollState(closing.gapId, DayOf(closing.observedNs));
        if !ok {
          return;
        }
      }
      ok := PublishFact(closing);
      if ok {
        states := states - {closing.gapId};
      }
    }
  }

  lemma RollKeepsKeys(files: Files, id: string, target: int)
    requires id in files.states
    ensures RollStateTo(files, id, target).files.states.Keys == files.states.Keys
    ensures RollStateTo(files, id, target).files.sealedDays == files.sealedDays
  {
    FromKeepsKeys(files, id, DayOf(RollNs(files.states[id])), target);
  }

  lemma {:induction false} FromKeepsKeys(files: Files, id: string, day: int, target: int)
    requires id in files.states
    ensures RollFrom(files, id, day, target).files.states.Keys == files.states.Keys
    ensures RollFrom(files, id, day, target).files.sealedDays == files.sealedDays
    decreases target - day
  {
    if day < target && RollTurn(files, id, day, 3).ok {
      FromKeepsKeys(RollTurn(files, id, day, 3).files, id, day + 1, target);
    }
  }

  // ---------------------------------------------------------------- one rollover of all gaps

  lemma {:induction false} RollArrives(files: Files, id: string, day: int, target: int)
    requires id in files.states && DayOf(RollNs(files.states[id])) == day
    ensures var rolled := RollFrom(files, id, day, target);
            id in rolled.files.states &&
            (rolled.ok ==> DayOf(RollNs(rolled.files.states[id])) == Max(day, target))
    ensures forall other :: other in files.states && other != id ==>
              other in RollFrom(files, id, day, target).files.states &&
              RollFrom(files, id, day, target).files.states[other] == files.states[other]
    decreases target - day
  {
    FromKeepsKeys(files, id, day, target);
    var turn := RollTurn(files, id, day, 3);
    if day < target && turn.ok {
      DayIs(StartOf(day + 1), day + 1);
      RollArrives(turn.files, id, day + 1, target);
    }
  }

  /**
   A rollover that does not raise leaves the state of every gap it names at the boundary day, or at
   the later day it had before; the states of all other gaps are as they were.
   */
  lemma {:induction false} RolloverArrives(files: Files, ids: seq<string>, boundaryDay: int)
    requires forall i :: 0 <= i < |ids| ==> ids[i] in files.states
    requires RolloverAll(files, ids, boundaryDay).ok
    ensures var rolled := RolloverAll(files, ids, boundaryDay).files;
            && rolled.states.Keys == files.states.Keys && rolled.sealedDays == files.sealedDays
            && forall id :: id in files.states ==>
                 if id in ids
                 then DayOf(RollNs(rolled.states[id])) == Max(DayOf(RollNs(files.states[id])), boundaryDay)
                 else rolled.states[id] == files.states[id]
    decreases |ids|
  {
    if ids != [] {
      RollKeepsKeys(files, ids[0], boundaryDay);
      RollArrives(files, ids[0], DayOf(RollNs(files.states[ids[0]])), boundaryDay);
      hide DayOf, RollNs, RollFrom;
      RolloverArrives(RollStateTo(files, ids[0], boundaryDay).files, ids[1..], boundaryDay);
      assert ids == [ids[0]] + ids[1..];
    }
  }

  // ---------------------------------------------------------------- when the journal raises

  /** The days after `day`, up to `target`, are not sealed. */
  predicate OpenDays(files: Files, day: int, target: int) {
    forall d | day < d <= target :: d !in files.sealedDays
  }

  lemma TurnRaisesExactly(files: Files, id: string, day: int)
    requires id in files.states
    ensures RollTurn(files, id, day, 3).ok <==> day + 1 !in files.sealedDays
  {
    var gap := files.states[id];
    DayIs(StartOf(day + 1) - 1, day);
    DayIs(StartOf(day + 1), day + 1);
    assert EventDay(RolledClose(gap, day)) == day && EventDay(RolledOpen(gap, day + 1)) == day + 1;
    hide StartOf, DayOf;
  }

  lemma {:induction false} RollRaisesFrom(files: Files, id: string, day: int, target: int)
    requires id in files.states
    ensures RollFrom(files, id, day, target).ok <==> OpenDays(files, day, target)
    decreases target - day
  {
    if day < target {
      TurnRaisesExactly(files, id, day);
      var turn := RollTurn(files, id, day, 3);
      hide RollTurn;
      if turn.ok {
        assert turn.files.sealedDays == files.sealedDays by {
          TurnKeepsDays(files, id, day);
        }
        RollRaisesFrom(turn.files, id, day + 1, target);
      }
    }
  }

  lemma TurnKeepsDays(files: Files, id: string, day: int)
    requires id in files.states
    ensures RollTurn(files, id, day, 3).files.sealedDays == files.sealedDays
    ensures RollTurn(files, id, day, 3).files.states.Keys == files.states.Keys
  {
  }

  /**
   Opening raises exactly when the day of its time is sealed; closing exactly when its day, or a day
   that the gap has to be reopened in on the way there, is sealed.
   */
  lemma OpenCloseRaiseExactly(files: Files, gap: GapEvent)
    ensures Open(files, gap).ok <==> EventDay(gap) !in files.sealedDays
    ensures Open(files, gap).ok ==>
              gap.gapId in Open(files, gap).files.states && Open(files, gap).files.states[gap.gapId] == gap
              && ArtifactOf(gap) in Open(files, gap).files.ready && Open(files, gap).files.ready[ArtifactOf(gap)] == gap
    ensures !gap.open ==>
              (Close(files, gap).ok <==>
                && DayOf(gap.observedNs) !in files.sealedDays
                && (gap.gapId in files.states ==> OpenDays(files, DayOf(RollNs(files.states[gap.gapId])), DayOf(gap.observedNs))))
    ensures Close(files, gap).ok ==>
              ArtifactOf(gap) in Close(files, gap).files.ready && Close(files, gap).files.ready[ArtifactOf(gap)] == gap
  {
    hide DayOf, RollNs, RollFrom, OpenDays;
    if gap.gapId in files.states {
      var day := DayOf(RollNs(files.states[gap.gapId]));
      RollRaisesFrom(files, gap.gapId, day, DayOf(gap.observedNs));
      FromKeepsKeys(files, gap.gapId, day, DayOf(gap.observedNs));
    }
  }

  /** A rollover raises exactly when a gap it names has a sealed day ahead of it, up to the boundary day. */
  lemma {:induction false} RolloverRaisesExactly(files: Files, ids: seq<string>, boundaryDay: int)
    requires forall i :: 0 <= i < |ids| ==> ids[i] in files.states
    ensures RolloverAll(files, ids, boundaryDay).ok <==>
              forall i :: 0 <= i < |ids| ==> OpenDays(files, DayOf(RollNs(files.states[ids[i]])), boundaryDay)
    decreases |ids|
  {
    if ids != [] {
      var id := ids[0];
      var day := DayOf(RollNs(files.states[id]));
      RollKeepsKeys(files, id, boundaryDay);
      RollRaisesFrom(files, id, day, boundaryDay);
      RollArrives(files, id, day, boundaryDay);
      var rolled := RollStateTo(files, id, boundaryDay);
      hide DayOf, RollNs, RollFrom;
      if rolled.ok {
        assert forall i :: 0 <= i < |ids[1..]| ==> ids[1..][i] == ids[i + 1] && ids[1..][i] in rolled.files.states;
        RolloverRaisesExactly(rolled.files, ids[1..], boundaryDay);
        RestRaises(files, rolled.files, ids, boundaryDay);
      }
    }
  }

  /** Once the first gap has arrived, the condition is that of the others. */
  lemma RestRaises(files: Files, rolled: Files, ids: seq<string>, boundaryDay: int)
    requires ids != [] && (forall i :: 0 <= i < |ids| ==> ids[i] in files.states && ids[i] in rolled.states)
    requires rolled.sealedDays == files.sealedDays && OpenDays(files, DayOf(RollNs(files.states[ids[0]])), boundaryDay)
    requires DayOf(RollNs(rolled.states[ids[0]])) == Max(DayOf(RollNs(files.states[ids[0]])), boundaryDay)
    requires forall id | id in files.states && id != ids[0] :: id in rolled.states && rolled.states[id] == files.states[id]
    ensures (forall i :: 0 <= i < |ids[1..]| ==> OpenDays(rolled, DayOf(RollNs(rolled.states[ids[1..][i]])), boundaryDay)) <==>
            (forall i :: 0 <= i < |ids| ==> OpenDays(files, DayOf(RollNs(files.states[ids[i]])), boundaryDay))
  {
    hide DayOf, RollNs;
    forall i | 0 < i < |ids|
      ensures OpenDays(rolled, DayOf(RollNs(rolled.states[ids[i]])), boundaryDay) <==>
              OpenDays(files, DayOf(RollNs(files.states[ids[i]])), boundaryDay)
      ensures ids[1..][i - 1] == ids[i]
    {
    }
    hide OpenDays;
  }

  // ---------------------------------------------------------------- the life of one gap

  /** What may happen between opening and closing the gap `id`. */
  datatype Step =
    | SealDay(day: int)
    | Turn(steps: nat)
    | Interrupted(closing: GapEvent)
    | OtherFact(other: GapEvent)
    | OtherState(otherId: string, state: GapEvent)

  /** `Interrupted` is a `close` whose process dies before the state file is removed. */
  function Apply(files: Files, id: string, step: Step): Files
    requires id in files.states
  {
    match step
    case SealDay(day) => files.(sealedDays := files.sealedDays + {day})
    case Turn(steps) => RollTurn(files, id, DayOf(RollNs(files.states[id])), steps).files
    case Interrupted(closing) => if closing.gapId == id then CloseCut(files, closing).files else files
    case OtherFact(other) => if other.gapId == id then files else Publish(files, other).files
    case OtherState(otherId, state) =>
      if otherId == id then files else files.(states := files.states[otherId := state])
  }

  /** The OPEN fact the gap has in day `day`. */
  function OpenFact(first: GapEvent, day: int): GapEvent {
    if day == DayOf(RollNs(first)) then first else RolledOpen(first, day)
  }

  /** A well-formed OPEN fact with a positive effective time. */
  ghost predicate Opening(first: GapEvent) {
    first.open && RollNs(first) == first.EffectiveNs() && first.EffectiveNs() > 0
  }

  /** A fact that `close` publishes for the gap. */
  ghost predicate Closing(closing: GapEvent, first: GapEvent) {
    && !closing.open && closing.gapId == first.gapId && closing.detail != CONTINUES
    && closing.affectedFromNs.None?
    && first.EffectiveNs() < closing.observedNs
  }

  /**
   The facts of interrupted closes, no later than day `last`. No two have the same time, and none
   has the last nanosecond of a day, which is where a rollover publishes.
   */
  ghost predicate CutsFit(cuts: set<GapEvent>, first: GapEvent, last: int) {
    && (forall c :: c in cuts ==>
          Closing(c, first) && DayOf(c.observedNs) <= last && c.observedNs != StartOf(DayOf(c.observedNs) + 1) - 1)
    && (forall c, d :: c in cuts && d in cuts && c.observedNs == d.observedNs ==> c == d)
  }

  ghost predicate Known(gap: GapEvent, first: GapEvent, last: int, cuts: set<GapEvent>) {
    || gap in cuts
    || exists day: int :: DayOf(RollNs(first)) <= day <= last &&
         (gap == OpenFact(first, day) || (day < last && gap == RolledClose(first, day)))
  }

  /** The gap's files when its state has reached day `at` and no roll goes past day `last`. */
  ghost predicate Rolled(files: Files, first: GapEvent, at: int, last: int, cuts: set<GapEvent>) {
    && DayOf(RollNs(first)) <= at <= last
    && first.gapId in files.states && files.states[first.gapId] == OpenFact(first, at)
    && (forall a :: a in files.ready && a.gapId == first.gapId ==>
          a == ArtifactOf(files.ready[a]) && Known(files.ready[a], first, last, cuts))
    && (forall day :: DayOf(RollNs(first)) <= day <= at ==> HasFact(files, OpenFact(first, day)))
    && (forall day :: DayOf(RollNs(first)) <= day < at ==>
          HasFact(files, RolledClose(first, day)) || day in files.sealedDays)
  }

  ghost predicate HasFact(files: Files, gap: GapEvent) {
    ArtifactOf(gap) in files.ready && files.ready[ArtifactOf(gap)] == gap
  }

  lemma RolledFields(first: GapEvent, day: int)
    requires Opening(first) && DayOf(RollNs(first)) <= day
    ensures RollNs(OpenFact(first, day)) == OpenFact(first, day).EffectiveNs()
    ensures DayOf(OpenFact(first, day).EffectiveNs()) == day
    ensures RolledOpen(OpenFact(first, day), day + 1) == OpenFact(first, day + 1)
    ensures RolledClose(OpenFact(first, day), day) == RolledClose(first, day)
    ensures EventDay(RolledClose(first, day)) == day
    ensures OpenFact(first, day).gapId == first.gapId
  {
    DayBounds(RollNs(first));
    DayIs(StartOf(day), day);
    DayIs(StartOf(day + 1) - 1, day);
  }

  /** Adding a known fact of the gap keeps every fact that was there. */
  lemma AddKnown(files: Files, first: GapEvent, at: int, last: int, cuts: set<GapEvent>, gap: GapEvent)
    requires Rolled(files, first, at, last, cuts) && Known(gap, first, last, cuts) && gap.gapId == first.gapId
    requires forall b :: b in files.ready && b == ArtifactOf(gap) ==> files.ready[b] == gap
    ensures Rolled(files.(ready := files.ready[ArtifactOf(gap) := gap]), first, at, last, cuts)
    ensures HasFact(files.(ready := files.ready[ArtifactOf(gap) := gap]), gap)
  {
    hide Known, RolledClose, OpenFact;
  }

  lemma DayMonotone(a: int, b: int)
    requires a <= b
    ensures DayOf(a) <= DayOf(b)
  {
    DayBounds(a);
    DayBounds(b);
  }

  lemma KnownDay(first: GapEvent, last: int, cuts: set<GapEvent>, gap: GapEvent)
    requires Opening(first) && CutsFit(cuts, first, last) && Known(gap, first, last, cuts)
    ensures gap.gapId == first.gapId
    ensures DayOf(RollNs(first)) <= EventDay(gap) <= last
    ensures gap in cuts || gap == (if gap.open then OpenFact(first, EventDay(gap)) else RolledClose(first, EventDay(gap)))
    ensures gap !in cuts && !gap.open ==> EventDay(gap) < last
  {
    if gap in cuts {
      DayMonotone(RollNs(first), gap.observedNs);
    } else {
      var day: int :| DayOf(RollNs(first)) <= day <= last &&
        (gap == OpenFact(first, day) || (day < last && gap == RolledClose(first, day)));
      RolledFields(first, day);
    }
  }

  /** The path determines a known fact: republishing it writes the same content again. */
  lemma KnownByPath(first: GapEvent, last: int, cuts: set<GapEvent>, a: GapEvent, b: GapEvent)
    requires Opening(first) && CutsFit(cuts, first, last)
    requires Known(a, first, last, cuts) && Known(b, first, last, cuts)
    requires ArtifactOf(a) == ArtifactOf(b)
    ensures a == b
  {
    hide Known, OpenFact;
    KnownDay(first, last, cuts, a);
    KnownDay(first, last, cuts, b);
  }

  lemma PublishKnown(files: Files, first: GapEvent, at: int, last: int, cuts: set<GapEvent>, gap: GapEvent)
    requires Opening(first) && CutsFit(cuts, first, last)
    requires Rolled(files, first, at, last, cuts) && Known(gap, first, last, cuts)
    ensures Rolled(Publish(files, gap).files, first, at, last, cuts)
    ensures Publish(files, gap).ok ==> HasFact(Publish(files, gap).files, gap)
    ensures forall other :: HasFact(files, other) && other.gapId == first.gapId ==> HasFact(Publish(files, gap).files, other)
  {
    KnownDay(first, last, cuts, gap);
    hide OpenFact, RolledClose;
    if EventDay(gap) !in files.sealedDays {
      forall b | b in files.ready && b == ArtifactOf(gap)
        ensures files.ready[b] == gap
      {
        KnownByPath(first, last, cuts, files.ready[b], gap);
      }
      hide Known, CutsFit;
      AddKnown(files, first, at, last, cuts, gap);
    }
  }

  /** A turn, complete or cut short anywhere, keeps the gap's files in order. */
  lemma TurnKeeps(files: Files, first: GapEvent, at: int, last: int, cuts: set<GapEvent>, steps: nat)
    requires Opening(first) && CutsFit(cuts, first, last) && Rolled(files, first, at, last, cuts) && at < last
    ensures var turn := RollTurn(files, first.gapId, at, steps);
            && (steps <= 2 || !turn.ok ==> Rolled(turn.files, first, at, last, cuts))
            && (steps > 2 && turn.ok ==> Rolled(turn.files, first, at + 1, last, cuts))
            && turn.files.sealedDays == files.sealedDays
  {
    RolledFields(first, at);
    RolledFields(first, at + 1);
    var closing, opening := RolledClose(first, at), OpenFact(first, at + 1);
    assert Known(closing, first, last, cuts);
    assert Known(opening, first, last, cuts);
    hide OpenFact, RolledClose, Known, CutsFit;
    if steps > 0 {
      var closed := if at in files.sealedDays then Outcome(files, true) else Publish(files, closing);
      if at !in files.sealedDays {
        PublishKnown(files, first, at, last, cuts, closing);
      }
      if steps > 1 && closed.ok {
        PublishKnown(closed.files, first, at, last, cuts, opening);
        var reopened := Publish(closed.files, opening);
        assert HasFact(files, closing) || at in files.sealedDays || HasFact(reopened.files, closing);
        if steps > 2 && reopened.ok {
          AdvanceState(reopened.files, first, at, last, cuts);
        }
      }
    }
  }

  lemma AdvanceState(files: Files, first: GapEvent, at: int, last: int, cuts: set<GapEvent>)
    requires Rolled(files, first, at, last, cuts) && at < last
    requires HasFact(files, OpenFact(first, at + 1))
    requires HasFact(files, RolledClose(first, at)) || at in files.sealedDays
    ensures Rolled(files.(states := files.states[first.gapId := OpenFact(first, at + 1)]), first, at + 1, last, cuts)
  {
    hide OpenFact, RolledClose, Known;
  }

  lemma StateDay(files: Files, first: GapEvent, at: int, last: int, cuts: set<GapEvent>)
    requires Opening(first) && Rolled(files, first, at, last, cuts)
    ensures DayOf(RollNs(files.states[first.gapId])) == at
  {
    RolledFields(first, at);
  }

  /** Rolling towards day `target`: a publication that raises stops it, otherwise it gets there. */
  lemma {:induction false} RollKeeps(files: Files, first: GapEvent, at: int, target: int, last: int, cuts: set<GapEvent>)
    returns (reached: int)
    requires Opening(first) && CutsFit(cuts, first, last) && Rolled(files, first, at, last, cuts) && target <= last
    ensures at <= reached && Rolled(RollFrom(files, first.gapId, at, target).files, first, reached, last, cuts)
    ensures RollFrom(files, first.gapId, at, target).ok && at <= target ==> reached == target
    decreases target - at
  {
    reached := at;
    if at < target {
      TurnKeeps(files, first, at, last, cuts, 3);
      hide Rolled, RollTurn, CutsFit;
      if RollTurn(files, first.gapId, at, 3).ok {
        reached := RollKeeps(RollTurn(files, first.gapId, at, 3).files, first, at + 1, target, last, cuts);
      }
    }
  }

  /** A close up to the state file: rolled to its day, and its fact published unless that raises. */
  lemma CutKeeps(files: Files, first: GapEvent, at: int, last: int, cuts: set<GapEvent>, closing: GapEvent)
    returns (reached: int)
    requires Opening(first) && CutsFit(cuts, first, last) && Rolled(files, first, at, last, cuts) && closing in cuts
    ensures at <= reached && Rolled(CloseCut(files, closing).files, first, reached, last, cuts)
  {
    StateDay(files, first, at, last, cuts);
    reached := RollKeeps(files, first, at, DayOf(closing.observedNs), last, cuts);
    var rolled := RollFrom(files, first.gapId, at, DayOf(closing.observedNs));
    assert closing.gapId == first.gapId && first.gapId in files.states;
    hide Rolled, RollFrom, OpenFact, RolledClose;
    if rolled.ok {
      PublishKnown(rolled.files, first, reached, last, cuts, closing);
    }
  }

  /** Other gaps, sealing, interrupted rolls and interrupted closes keep the gap's files in order. */
  lemma StepKeeps(files: Files, first: GapEvent, at: int, last: int, cuts: set<GapEvent>, step: Step)
    returns (reached: int)
    requires Opening(first) && CutsFit(cuts, first, last) && Rolled(files, first, at, last, cuts)
    requires step.Turn? ==> at < last
    requires step.Interrupted? && step.closing.gapId == first.gapId ==> step.closing in cuts
    ensures at <= reached && Rolled(Apply(files, first.gapId, step), first, reached, last, cuts)
  {
    reached := at;
    hide Known, OpenFact, RolledClose, CutsFit;
    match step
    case SealDay(day) =>
    case Turn(steps) =>
      StateDay(files, first, at, last, cuts);
      hide Rolled;
      TurnKeeps(files, first, at, last, cuts, steps);
      if steps > 2 && RollTurn(files, first.gapId, at, steps).ok {
        reached := at + 1;
      }
    case Interrupted(closing) =>
      if closing.gapId == first.gapId {
        reached := CutKeeps(files, first, at, last, cuts, closing);
      }
    case OtherFact(other) =>
      if other.gapId != first.gapId {
        OtherFactKeeps(files, first, at, last, cuts, other);
      }
    case OtherState(otherId, state) =>
  }

  lemma OtherFactKeeps(files: Files, first: GapEvent, at: int, last: int, cuts: set<GapEvent>, other: GapEvent)
    requires Rolled(files, first, at, last, cuts) && other.gapId != first.gapId
    ensures Rolled(Publish(files, other).files, first, at, last, cuts)
  {
    hide Known;
  }

  /** The files after a history of steps; rolls stop when the state has reached day `last`. */
  function History(files: Files, id: string, steps: seq<Step>, last: int): Files
    decreases |steps|
  {
    if steps == [] || id !in files.states then files
    else if steps[0].Turn? && DayOf(RollNs(files.states[id])) >= last then History(files, id, steps[1..], last)
    else History(Apply(files, id, steps[0]), id, steps[1..], last)
  }

  /** The closing facts of the interrupted closes of gap `id`. */
  ghost predicate CutsIn(steps: seq<Step>, id: string, cuts: set<GapEvent>) {
    forall i :: 0 <= i < |steps| && steps[i].Interrupted? && steps[i].closing.gapId == id ==> steps[i].closing in cuts
  }

  lemma {:induction false} HistoryKeeps(files: Files, first: GapEvent, at: int, steps: seq<Step>, last: int, cuts: set<GapEvent>)
    returns (reached: int)
    requires Opening(first) && CutsFit(cuts, first, last) && CutsIn(steps, first.gapId, cuts)
    requires Rolled(files, first, at, last, cuts)
    ensures at <= reached && Rolled(History(files, first.gapId, steps, last), first, reached, last, cuts)
    decreases |steps|
  {
    reached := at;
    if steps != [] {
      StateDay(files, first, at, last, cuts);
      assert CutsIn(steps[1..], first.gapId, cuts);
      if steps[0].Turn? && at >= last {
        hide Rolled, CutsFit;
        reached := HistoryKeeps(files, first, at, steps[1..], last, cuts);
      } else {
        var next := StepKeeps(files, first, at, last, cuts, steps[0]);
        hide Rolled, Apply, CutsFit;
        reached := HistoryKeeps(Apply(files, first.gapId, steps[0]), first, next, steps[1..], last, cuts);
      }
    }
  }

  /** What `OpenGap` leaves: the first fact published and recorded. */
  lemma OpenedRolled(files: Files, first: GapEvent, last: int, cuts: set<GapEvent>)
    requires Opening(first) && DayOf(RollNs(first)) <= last
    requires Open(files, first).ok
    requires forall a :: a in files.ready ==> a.gapId != first.gapId
    ensures Rolled(Open(files, first).files, first, DayOf(RollNs(first)), last, cuts)
  {
    RolledFields(first, DayOf(RollNs(first)));
    assert Known(first, first, last, cuts) by {
      assert first == OpenFact(first, DayOf(RollNs(first)));
    }
    hide Known, RolledClose;
  }

  /**
   Repeating an interrupted roll: whatever prefix of a turn was done before the crash, the turn
   done again in full ends with the same files as if it had not been interrupted.
   */
  lemma InterruptedTurnRepeats(files: Files, id: string, day: int, steps: nat)
    requires id in files.states && steps <= 2
    ensures RollTurn(RollTurn(files, id, day, steps).files, id, day, 3) == RollTurn(files, id, day, 3)
  {
    var gap := files.states[id];
    var closing, opening := RolledClose(gap, day), RolledOpen(gap, day + 1);
    hide RolledClose, RolledOpen, EventDay;
    if steps == 1 {
      PublishAgain(files, closing);
    } else if steps == 2 {
      PublishAgain(files, closing);
      var closed := if day in files.sealedDays then Outcome(files, true) else Publish(files, closing);
      if closed.ok {
        PublishAgain(closed.files, opening);
        PublishCommutes(files, closing, opening);
      }
    }
  }

  lemma PublishAgain(files: Files, gap: GapEvent)
    ensures Publish(Publish(files, gap).files, gap) == Publish(files, gap)
  {
    if EventDay(gap) !in files.sealedDays {
      var a := ArtifactOf(gap);
      assert files.ready[a := gap][a := gap] == files.ready[a := gap];
    }
  }

  /** Publishing a fact that is already there changes nothing, whatever was published since. */
  lemma PublishCommutes(files: Files, first: GapEvent, second: GapEvent)
    ensures var once := Publish(Publish(files, first).files, second).files;
            ArtifactOf(first) != ArtifactOf(second) && Publish(files, first).ok ==>
              Publish(once, first) == Outcome(once, true)
  {
    hide EventDay;
    var once := Publish(Publish(files, first).files, second).files;
    if ArtifactOf(first) != ArtifactOf(second) && Publish(files, first).ok {
      assert once.ready[ArtifactOf(first)] == first;
      assert once.ready[ArtifactOf(first) := first] == once.ready;
    }
  }

  // ---------------------------------------------------------------- the central replay of one day

  /** All facts of day `day`, each once, in the ledger's order. */
  ghost predicate Ledger(facts: seq<GapEvent>, files: Files, day: int) {
    && (forall gap :: gap in facts <==> HasFact(files, gap) && EventDay(gap) == day)
    && (forall i, j :: 0 <= i < j < |facts| ==> facts[i] != facts[j])
    && (forall i, j :: 0 <= i < j < |facts| && facts[i].gapId == facts[j].gapId ==>
          facts[i].EffectiveNs() < facts[j].EffectiveNs() ||
          (facts[i].EffectiveNs() == facts[j].EffectiveNs() && (!facts[i].open || facts[j].open)))
  }

  /** The replay has gap `id` open at `x`, up to the end of the window if nothing closes it. */
  ghost predicate InGap(facts: seq<GapEvent>, id: string, x: int) {
    (exists j, k :: 0 <= j < k < |facts| && Pair(facts, j, k) && facts[j].gapId == id
                    && ReplayNs(facts[j]) <= x < EndNs(facts[k])) ||
    (exists j :: 0 <= j < |facts| && OpenSince(facts, j, |facts|) && facts[j].gapId == id
                 && ReplayNs(facts[j]) <= x)
  }

  /** Closed: the gap's facts are those of its days, and the last day has the closing fact. */
  ghost predicate Closed(files: Files, first: GapEvent, closing: GapEvent, last: int, cuts: set<GapEvent>) {
    && DayOf(RollNs(first)) <= last && last == DayOf(closing.observedNs)
    && (forall a :: a in files.ready && a.gapId == first.gapId ==>
          a == ArtifactOf(files.ready[a]) &&
          (files.ready[a] == closing || Known(files.ready[a], first, last, cuts)))
    && (forall day :: DayOf(RollNs(first)) <= day <= last ==> HasFact(files, OpenFact(first, day)))
    && HasFact(files, closing)
  }

  lemma CloseCloses(files: Files, first: GapEvent, closing: GapEvent, at: int, cuts: set<GapEvent>)
    requires Opening(first) && Closing(closing, first) && CutsFit(cuts, first, DayOf(closing.observedNs))
    requires Rolled(files, first, at, DayOf(closing.observedNs), cuts)
    requires Close(files, closing).ok
    ensures Closed(Close(files, closing).files, first, closing, DayOf(closing.observedNs), cuts)
  {
    var last := DayOf(closing.observedNs);
    StateDay(files, first, at, last, cuts);
    var reached := RollKeeps(files, first, at, last, last, cuts);
    var rolled := RollFrom(files, first.gapId, at, last).files;
    var done := Close(files, closing).files;
    hide RollFrom, Known, CutsFit;
    PublishedCloses(rolled, first, closing, last, cuts);
    assert done.ready == Publish(rolled, closing).files.ready;
    SameFacts(Publish(rolled, closing).files, done, first, closing, last, cuts);
  }

  lemma SameFacts(a: Files, b: Files, first: GapEvent, closing: GapEvent, last: int, cuts: set<GapEvent>)
    requires Closed(a, first, closing, last, cuts) && a.ready == b.ready
    ensures Closed(b, first, closing, last, cuts)
  {
    hide Known, OpenFact;
    forall day | DayOf(RollNs(first)) <= day <= last
      ensures HasFact(b, OpenFact(first, day))
    {
      assert HasFact(a, OpenFact(first, day));
    }
  }

  lemma PublishedCloses(rolled: Files, first: GapEvent, closing: GapEvent, last: int, cuts: set<GapEvent>)
    requires Opening(first) && Closing(closing, first) && last == DayOf(closing.observedNs)
    requires Rolled(rolled, first, last, last, cuts) && Publish(rolled, closing).ok
    ensures Closed(Publish(rolled, closing).files, first, closing, last, cuts)
  {
    hide Known;
    forall day | DayOf(RollNs(first)) <= day <= last
      ensures HasFact(Publish(rolled, closing).files, OpenFact(first, day))
    {
      RolledFields(first, day);
      assert HasFact(rolled, OpenFact(first, day));
      assert OpenFact(first, day).open by {
        OpenFactOpens(first, day);
      }
    }
  }

  lemma OpenFactOpens(first: GapEvent, day: int)
    requires Opening(first)
    ensures OpenFact(first, day).open
  {
  }

  // ---------------------------------------------------------------- time is tiled

  /** A CLOSED fact that the ledger lists after the OPEN fact `opening` and that is over by `x`. */
  ghost predicate Stops(ending: GapEvent, opening: GapEvent, x: int) {
    && ending.gapId == opening.gapId && !ending.open
    && opening.EffectiveNs() < ending.EffectiveNs() && EndNs(ending) <= x
  }

  /** With one OPEN fact in the day's ledger, the replay runs from it to the first CLOSED fact after it. */
  lemma ReplayFirst(facts: seq<GapEvent>, files: Files, day: int, opening: GapEvent, x: int)
    requires Ledger(facts, files, day) && opening in facts && opening.open
    requires forall gap :: gap in facts && gap.gapId == opening.gapId ==> gap == opening || !gap.open
    ensures InGap(facts, opening.gapId, x) <==>
              ReplayNs(opening) <= x && !exists ending :: ending in facts && Stops(ending, opening, x)
  {
    var j :| 0 <= j < |facts| && facts[j] == opening;
    forall i | 0 <= i < |facts| && facts[i].gapId == opening.gapId && i != j
      ensures !facts[i].open && (j < i <==> opening.EffectiveNs() < facts[i].EffectiveNs())
    {
      assert facts[i] in facts;
    }
    if k :| j < k < |facts| && facts[k].gapId == opening.gapId {
      var first := FirstAfter(facts, opening.gapId, j, k);
      FirstStops(facts, files, day, j, first, x);
    } else {
      assert OpenSince(facts, j, |facts|);
    }
  }

  lemma FirstStops(facts: seq<GapEvent>, files: Files, day: int, j: nat, k: nat, x: int)
    requires Ledger(facts, files, day) && j < k < |facts| && facts[j].open
    requires Pair(facts, j, k)
    requires forall i :: 0 <= i < |facts| && facts[i].gapId == facts[j].gapId && i != j ==>
               !facts[i].open && (j < i <==> facts[j].EffectiveNs() < facts[i].EffectiveNs())
    ensures InGap(facts, facts[j].gapId, x) <==>
              ReplayNs(facts[j]) <= x && !exists ending :: ending in facts && Stops(ending, facts[j], x)
  {
    var opening := facts[j];
    assert InGap(facts, opening.gapId, x) <==> ReplayNs(opening) <= x < EndNs(facts[k]);
    if ending :| ending in facts && Stops(ending, opening, x) {
      var i :| 0 <= i < |facts| && facts[i] == ending;
      assert i >= k;
    }
    if EndNs(facts[k]) <= x {
      assert Stops(facts[k], opening, x);
    }
  }

  /** The first fact of gap `id` after position `j`. */
  lemma {:induction false} FirstAfter(facts: seq<GapEvent>, id: string, j: nat, k: nat) returns (first: nat)
    requires j < k < |facts| && facts[k].gapId == id
    ensures j < first <= k && facts[first].gapId == id
    ensures forall i :: j < i < first ==> facts[i].gapId != id
    decreases k
  {
    if i :| j < i < k && facts[i].gapId == id {
      first := FirstAfter(facts, id, j, i);
    } else {
      first := k;
    }
  }

  lemma ReplayNone(facts: seq<GapEvent>, id: string, x: int)
    requires forall gap :: gap in facts ==> gap.gapId != id
    ensures !InGap(facts, id, x)
  {
  }

  /** The facts of the gap in a day's ledger. */
  lemma FactsOfDay(facts: seq<GapEvent>, files: Files, first: GapEvent, closing: GapEvent, last: int,
                   cuts: set<GapEvent>, day: int, gap: GapEvent)
    requires Opening(first) && Closing(closing, first) && CutsFit(cuts, first, last)
    requires Closed(files, first, closing, last, cuts) && Ledger(facts, files, day)
    requires gap in facts && gap.gapId == first.gapId
    ensures DayOf(RollNs(first)) <= day <= last
    ensures || gap == OpenFact(first, day) || (day == last && gap == closing)
            || (day < last && gap == RolledClose(first, day)) || gap in cuts
  {
    hide OpenFact, RolledClose, Known, CutsFit;
    assert HasFact(files, gap);
    if gap != closing {
      KnownDay(first, last, cuts, gap);
    }
  }

  lemma OpenFactTime(first: GapEvent, day: int)
    requires Opening(first) && DayOf(RollNs(first)) <= day
    ensures var gap := OpenFact(first, day);
            && gap.open && gap.gapId == first.gapId && EventDay(gap) == day
            && ReplayNs(gap) == gap.EffectiveNs() == Max(RollNs(first), StartOf(day))
  {
    RolledFields(first, day);
    DayBounds(RollNs(first));
  }

  /** An interrupted close of day `day` that was published, after the day's start and by `x`. */
  ghost predicate Hides(c: GapEvent, files: Files, day: int, x: int) {
    HasFact(files, c) && DayOf(c.observedNs) == day && StartOf(day) < c.observedNs <= x
  }

  ghost predicate Hidden(files: Files, cuts: set<GapEvent>, day: int, x: int) {
    exists c :: c in cuts && Hides(c, files, day, x)
  }

  lemma CutStops(facts: seq<GapEvent>, files: Files, first: GapEvent, opening: GapEvent, c: GapEvent, day: int, x: int)
    requires Opening(first) && Closing(c, first) && Ledger(facts, files, day)
    requires opening.gapId == first.gapId && opening.EffectiveNs() == Max(RollNs(first), StartOf(day))
    ensures c in facts && Stops(c, opening, x) <==> Hides(c, files, day, x)
  {
  }

  /**
   The day's replay of the gap: it runs from the gap's opening or the day's start to the closing
   fact of that day, and an interrupted close hides the rest of its day.
   */
  lemma DayReplay(facts: seq<GapEvent>, files: Files, first: GapEvent, closing: GapEvent, last: int,
                  cuts: set<GapEvent>, day: int, x: int)
    requires Opening(first) && Closing(closing, first) && CutsFit(cuts, first, last)
    requires Closed(files, first, closing, last, cuts) && Ledger(facts, files, day)
    requires StartOf(day) <= x < StartOf(day + 1) && DayOf(RollNs(first)) <= day <= last
    ensures InGap(facts, first.gapId, x) <==>
              && RollNs(first) <= x && !Hidden(files, cuts, day, x)
              && !(day == last && StartOf(day) < closing.observedNs <= x)
  {
    var opening := OpenFact(first, day);
    OpenFactTime(first, day);
    RolledFields(first, day);
    assert HasFact(files, opening) && HasFact(files, closing);
    var ending := RolledClose(first, day);
    assert EndNs(ending) == StartOf(day + 1);
    assert EndNs(closing) == closing.observedNs == closing.EffectiveNs();
    forall gap | gap in facts && gap.gapId == first.gapId
      ensures gap == opening || (!gap.open && (gap == ending || gap in cuts || (day == last && gap == closing)))
    {
      FactsOfDay(facts, files, first, closing, last, cuts, day, gap);
    }
    assert day == last <==> closing in facts;
    forall c | c in cuts
      ensures c in facts && Stops(c, opening, x) <==> Hides(c, files, day, x)
    {
      CutStops(facts, files, first, opening, c, day, x);
    }
    hide OpenFact, RolledClose, Closed, Known, InGap, CutsFit, Hides, Ledger;
    ReplayFirst(facts, files, day, opening, x);
  }

  // ---------------------------------------------------------------- after the close

  /** Every state file holds the gap it is named after. */
  ghost predicate Named(files: Files) {
    forall id :: id in files.states ==> files.states[id].gapId == id
  }

  /** The whole journal at work: any gap may open, roll, close, or die half-way. */
  datatype JournalStep =
    | Seal(day: int)
    | Begin(gap: GapEvent)
    | RollAll(ids: seq<string>, boundaryDay: int)
    | RollPart(rolling: string, steps: nat)
    | End(closing: GapEvent)
    | EndPart(cut: GapEvent)

  /** A step on gaps that have no state is not possible and leaves everything as it is. */
  function JournalDo(files: Files, step: JournalStep): Files {
    match step
    case Seal(day) => files.(sealedDays := files.sealedDays + {day})
    case Begin(gap) => Open(files, gap).files
    case RollAll(ids, boundaryDay) =>
      if forall i :: 0 <= i < |ids| ==> ids[i] in files.states then RolloverAll(files, ids, boundaryDay).files else files
    case RollPart(id, steps) =>
      if id in files.states then RollTurn(files, id, DayOf(RollNs(files.states[id])), steps).files else files
    case End(closing) => Close(files, closing).files
    case EndPart(cut) => CloseCut(files, cut).files
  }

  function Later(files: Files, steps: seq<JournalStep>): Files
    decreases |steps|
  {
    if steps == [] then files else Later(JournalDo(files, steps[0]), steps[1..])
  }

  /** Gap ids are not used again: no step opens or closes gap `id`. Rollovers take whatever has a state. */
  ghost predicate ForOthers(steps: seq<JournalStep>, id: string) {
    forall i :: 0 <= i < |steps| ==>
      match steps[i]
      case Begin(gap) => gap.gapId != id
      case End(closing) => closing.gapId != id
      case EndPart(cut) => cut.gapId != id
      case _ => true
  }

  /** The gap has no state, and its facts are those of `files`. */
  ghost predicate Untouched(files: Files, after: Files, id: string) {
    && Named(after) && id !in after.states
    && (forall a: Artifact :: a.gapId == id ==>
          (a in after.ready <==> a in files.ready) && (a in files.ready ==> after.ready[a] == files.ready[a]))
  }

  /** Closing removes the state of its gap and of no other. */
  lemma CloseForgets(files: Files, closing: GapEvent)
    requires Close(files, closing).ok && Named(files)
    ensures var after := Close(files, closing).files;
            && closing.gapId !in after.states && after.states.Keys == files.states.Keys - {closing.gapId}
            && (forall id :: id in after.states ==> after.states[id] == files.states[id])
            && Named(after)
  {
    var id := closing.gapId;
    if id in files.states {
      RollArrives(files, id, DayOf(RollNs(files.states[id])), DayOf(closing.observedNs));
      RollKeepsKeys(files, id, DayOf(closing.observedNs));
    }
    hide RollStateTo, DayOf;
  }

  lemma PublishOther(files: Files, after: Files, id: string, gap: GapEvent)
    requires Untouched(files, after, id) && gap.gapId != id
    ensures Untouched(files, Publish(after, gap).files, id)
  {
    hide EventDay;
  }

  lemma TurnOther(files: Files, after: Files, id: string, other: string, day: int, steps: nat)
    requires Untouched(files, after, id) && other in after.states
    ensures Untouched(files, RollTurn(after, other, day, steps).files, id)
    ensures RollTurn(after, other, day, steps).files.states.Keys == after.states.Keys
  {
    var gap := after.states[other];
    var closing, opening := RolledClose(gap, day), RolledOpen(gap, day + 1);
    assert after.states[other].gapId == other;
    assert other != id && closing.gapId == other && opening.gapId == other;
    hide RolledClose, RolledOpen, Untouched;
    PublishOther(files, after, id, closing);
    PublishKeepsStates(after, closing);
    var closed := if day in after.sealedDays then Outcome(after, true) else Publish(after, closing);
    PublishOther(files, closed.files, id, opening);
    PublishKeepsStates(closed.files, opening);
    var reopened := Publish(closed.files, opening);
    hide Publish;
    StateOther(files, reopened.files, id, opening);
  }

  lemma PublishKeepsStates(files: Files, gap: GapEvent)
    ensures Publish(files, gap).files.states == files.states
  {
  }

  lemma StateOther(files: Files, after: Files, id: string, state: GapEvent)
    requires Untouched(files, after, id) && state.gapId != id && state.gapId in after.states
    ensures var written := after.(states := after.states[state.gapId := state]);
            Untouched(files, written, id) && written.states.Keys == after.states.Keys
  {
  }

  lemma {:induction false} RollOther(files: Files, after: Files, id: string, other: string, day: int, target: int)
    requires Untouched(files, after, id) && other in after.states
    ensures Untouched(files, RollFrom(after, other, day, target).files, id)
    decreases target - day
  {
    hide Untouched, RollTurn;
    if day < target {
      TurnOther(files, after, id, other, day, 3);
      if RollTurn(after, other, day, 3).ok {
        RollOther(files, RollTurn(after, other, day, 3).files, id, other, day + 1, target);
      }
    }
  }

  lemma {:induction false} RollAllOthers(files: Files, after: Files, id: string, ids: seq<string>, boundaryDay: int)
    requires Untouched(files, after, id) && forall i :: 0 <= i < |ids| ==> ids[i] in after.states
    ensures Untouched(files, RolloverAll(after, ids, boundaryDay).files, id)
    decreases |ids|
  {
    hide Untouched;
    if ids != [] {
      RollKeepsKeys(after, ids[0], boundaryDay);
      RollOther(files, after, id, ids[0], DayOf(RollNs(after.states[ids[0]])), boundaryDay);
      hide RollFrom;
      var rolled := RollStateTo(after, ids[0], boundaryDay);
      if rolled.ok {
        hide RollStateTo;
        RollAllOthers(files, rolled.files, id, ids[1..], boundaryDay);
      }
    }
  }

  lemma CutOther(files: Files, after: Files, id: string, cut: GapEvent)
    requires Untouched(files, after, id) && cut.gapId != id
    ensures Untouched(files, CloseCut(after, cut).files, id)
  {
    hide Untouched;
    if cut.gapId in after.states {
      RollOther(files, after, id, cut.gapId, DayOf(RollNs(after.states[cut.gapId])), DayOf(cut.observedNs));
      PublishOther(files, RollStateTo(after, cut.gapId, DayOf(cut.observedNs)).files, id, cut);
    } else {
      PublishOther(files, after, id, cut);
    }
    hide RollFrom;
  }

  lemma StateGone(files: Files, after: Files, id: string, other: string)
    requires Untouched(files, after, id)
    ensures Untouched(files, after.(states := after.states - {other}), id)
  {
  }

  lemma StateNew(files: Files, after: Files, id: string, gap: GapEvent)
    requires Untouched(files, after, id) && gap.gapId != id
    ensures Untouched(files, after.(states := after.states[gap.gapId := gap]), id)
  {
  }

  lemma DoOthers(files: Files, after: Files, id: string, step: JournalStep)
    requires Untouched(files, after, id) && ForOthers([step], id)
    ensures Untouched(files, JournalDo(after, step), id)
  {
    assert [step][0] == step;
    match step
    case Seal(day) =>
    case Begin(gap) =>
      PublishOther(files, after, id, gap);
      StateNew(files, Publish(after, gap).files, id, gap);
      hide Untouched, Publish;
    case RollAll(ids, boundaryDay) =>
      hide Untouched, RolloverAll;
      if forall i :: 0 <= i < |ids| ==> ids[i] in after.states {
        RollAllOthers(files, after, id, ids, boundaryDay);
      }
    case RollPart(other, steps) =>
      hide Untouched, RollTurn;
      if other in after.states {
        TurnOther(files, after, id, other, DayOf(RollNs(after.states[other])), steps);
      }
    case End(closing) =>
      hide Untouched, CloseCut;
      CutOther(files, after, id, closing);
      StateGone(files, CloseCut(after, closing).files, id, closing.gapId);
    case EndPart(cut) =>
      hide Untouched, CloseCut;
      CutOther(files, after, id, cut);
  }

  lemma {:induction false} OthersGoOn(files: Files, after: Files, id: string, steps: seq<JournalStep>)
    requires Untouched(files, after, id) && ForOthers(steps, id)
    ensures Untouched(files, Later(after, steps), id)
    decreases |steps|
  {
    hide Untouched, JournalDo;
    if steps != [] {
      assert [steps[0]][0] == steps[0];
      DoOthers(files, after, id, steps[0]);
      OthersGoOn(files, JournalDo(after, steps[0]), id, steps[1..]);
    }
  }

  /**
   A closed gap stays closed: whatever gaps open, roll over, close or die half-way after it, and
   whatever days are sealed, no fact of the closed gap is added, changed or lost.
   */
  lemma ClosedStaysClosed(files: Files, id: string, steps: seq<JournalStep>)
    requires Named(files) && id !in files.states && ForOthers(steps, id)
    ensures Untouched(files, Later(files, steps), id)
  {
    OthersGoOn(files, files, id, steps);
  }

  /** The state files that the steps of a history write are named after their gaps. */
  ghost predicate NamedSteps(steps: seq<Step>) {
    forall i :: 0 <= i < |steps| && steps[i].OtherState? ==> steps[i].state.gapId == steps[i].otherId
  }

  lemma {:induction false} RollNamed(files: Files, id: string, day: int, target: int)
    requires Named(files) && id in files.states
    ensures Named(RollFrom(files, id, day, target).files)
    decreases target - day
  {
    if day < target {
      TurnNamed(files, id, day, 3);
      hide RollTurn, Named;
      if RollTurn(files, id, day, 3).ok {
        RollNamed(RollTurn(files, id, day, 3).files, id, day + 1, target);
      }
    }
  }

  lemma TurnNamed(files: Files, id: string, day: int, steps: nat)
    requires Named(files) && id in files.states
    ensures Named(RollTurn(files, id, day, steps).files) && id in RollTurn(files, id, day, steps).files.states
  {
    hide EventDay;
  }

  lemma ApplyNamed(files: Files, id: string, step: Step)
    requires Named(files) && id in files.states && NamedSteps([step])
    ensures Named(Apply(files, id, step))
  {
    assert [step][0] == step;
    match step
    case Turn(steps) => TurnNamed(files, id, DayOf(RollNs(files.states[id])), steps); hide RollTurn;
    case Interrupted(closing) =>
      if closing.gapId == id {
        RollNamed(files, id, DayOf(RollNs(files.states[id])), DayOf(closing.observedNs));
      }
      hide RollFrom, EventDay;
    case _ => hide EventDay;
  }

  lemma {:induction false} HistoryNamed(files: Files, id: string, steps: seq<Step>, last: int)
    requires Named(files) && NamedSteps(steps)
    ensures Named(History(files, id, steps, last))
    decreases |steps|
  {
    hide Named, Apply;
    if steps != [] && id in files.states {
      assert NamedSteps(steps[1..]);
      assert NamedSteps([steps[0]]);
      if steps[0].Turn? && DayOf(RollNs(files.states[id])) >= last {
        HistoryNamed(files, id, steps[1..], last);
      } else {
        ApplyNamed(files, id, steps[0]);
        HistoryNamed(Apply(files, id, steps[0]), id, steps[1..], last);
      }
    }
  }

  lemma SameFactsOf(a: Files, b: Files, first: GapEvent, closing: GapEvent, last: int, cuts: set<GapEvent>)
    requires Opening(first) && Closing(closing, first)
    requires Closed(a, first, closing, last, cuts) && Untouched(a, b, first.gapId)
    ensures Closed(b, first, closing, last, cuts)
  {
    hide Known;
    forall day | DayOf(RollNs(first)) <= day <= last
      ensures HasFact(b, OpenFact(first, day))
    {
      RolledFields(first, day);
      assert HasFact(a, OpenFact(first, day));
    }
  }

  /** What the ledgers of a closed gap replay to, whenever they are read. */
  lemma ClosedTilesTime(done: Files, first: GapEvent, closing: GapEvent, cuts: set<GapEvent>, day: int,
                        facts: seq<GapEvent>, x: int)
    requires Opening(first) && Closing(closing, first) && CutsFit(cuts, first, DayOf(closing.observedNs))
    requires Closed(done, first, closing, DayOf(closing.observedNs), cuts) && Ledger(facts, done, day)
    requires closing.observedNs % DAY_NS != 0
    requires StartOf(day) <= x < StartOf(day + 1)
    ensures InGap(facts, first.gapId, x) <==>
              RollNs(first) <= x < closing.observedNs && !Hidden(done, cuts, day, x)
  {
    var last := DayOf(closing.observedNs);
    DayBounds(closing.observedNs);
    DayBounds(RollNs(first));
    hide CutsFit, Hidden;
    if day < DayOf(RollNs(first)) || last < day {
      forall gap | gap in facts
        ensures gap.gapId != first.gapId
      {
        if gap.gapId == first.gapId {
          FactsOfDay(facts, done, first, closing, last, cuts, day, gap);
        }
      }
      hide Ledger, Closed;
      ReplayNone(facts, first.gapId, x);
    } else {
      DayReplay(facts, done, first, closing, last, cuts, day, x);
    }
  }

  /**
   A gap open from a to b, rolled over any number of midnights, with days sealed, rolls interrupted
   and closes interrupted in between: the replay of each day's ledger covers exactly the moments of
   [a, b) in that day, up to the first interrupted close that day has, provided b is not exactly a
   later midnight. Without interrupted closes that is all of [a, b). The ledger may be read at any
   later moment of the journal.
   */
  lemma RolloverTilesTime(files: Files, first: GapEvent, closing: GapEvent, steps: seq<Step>, at: int,
                          cuts: set<GapEvent>, later: seq<JournalStep>, day: int, facts: seq<GapEvent>, x: int)
    requires Opening(first) && Closing(closing, first)
    requires CutsIn(steps, first.gapId, cuts) && CutsFit(cuts, first, DayOf(closing.observedNs))
    requires var last := DayOf(closing.observedNs);
             && Rolled(files, first, at, last, cuts) && Named(files) && NamedSteps(steps)
             && Close(History(files, first.gapId, steps, last), closing).ok
             && Ledger(facts, Later(Close(History(files, first.gapId, steps, last), closing).files, later), day)
    requires ForOthers(later, first.gapId)
    requires closing.observedNs % DAY_NS != 0
    requires StartOf(day) <= x < StartOf(day + 1)
    ensures var end := Later(Close(History(files, first.gapId, steps, DayOf(closing.observedNs)), closing).files, later);
            InGap(facts, first.gapId, x) <==>
              RollNs(first) <= x < closing.observedNs && !Hidden(end, cuts, day, x)
  {
    var last := DayOf(closing.observedNs);
    var reached := HistoryKeeps(files, first, at, steps, last, cuts);
    HistoryNamed(files, first.gapId, steps, last);
    var before := History(files, first.gapId, steps, last);
    var done := Close(before, closing).files;
    CloseCloses(before, first, closing, reached, cuts);
    CloseForgets(before, closing);
    hide History, Close, Rolled, CutsFit, Hidden, Named, ForOthers;
    ClosedStaysClosed(done, first.gapId, later);
    SameFactsOf(done, Later(done, later), first, closing, last, cuts);
    ClosedTilesTime(Later(done, later), first, closing, cuts, day, facts, x);
  }

  /**
   The condition is exact. When the gap closes at a later midnight, its CLOSED fact sorts before
   the OPEN fact of the same nanosecond, and the replay covers that whole last day although no
   moment of it belongs to the gap.
   */
  lemma MidnightCloseOverruns(files: Files, first: GapEvent, closing: GapEvent, steps: seq<Step>, at: int,
                              cuts: set<GapEvent>, facts: seq<GapEvent>, x: int)
    requires Opening(first) && Closing(closing, first)
    requires CutsIn(steps, first.gapId, cuts) && CutsFit(cuts, first, DayOf(closing.observedNs))
    requires forall c :: c in cuts ==> c.observedNs < closing.observedNs
    requires var last := DayOf(closing.observedNs);
             && Rolled(files, first, at, last, cuts)
             && Close(History(files, first.gapId, steps, last), closing).ok
             && Ledger(facts, Close(History(files, first.gapId, steps, last), closing).files, last)
    requires closing.observedNs % DAY_NS == 0
    requires StartOf(DayOf(closing.observedNs)) <= x < StartOf(DayOf(closing.observedNs) + 1)
    ensures InGap(facts, first.gapId, x) && closing.observedNs <= x
  {
    var last := DayOf(closing.observedNs);
    var reached := HistoryKeeps(files, first, at, steps, last, cuts);
    var done := Close(History(files, first.gapId, steps, last), closing).files;
    CloseCloses(History(files, first.gapId, steps, last), first, closing, reached, cuts);
    DayBounds(closing.observedNs);
    DayBounds(RollNs(first));
    hide History, Close, Rolled, CutsFit, Closed;
    DayReplay(facts, done, first, closing, last, cuts, last, x);
  }

  // ---------------------------------------------------------------- a gap closed at midnight

  const EVENING := GapEvent.GapEvent("g", true, DAY_NS - 5, None, "websocket", "")
  const MIDNIGHT := GapEvent.GapEvent("g", false, DAY_NS, None, "websocket", "")

  /** What is left once the gap opened in the evening of day 0 is closed at the midnight after it. */
  function AfterMidnight(): Files {
    Close(Files(map["g" := EVENING], map[ArtifactOf(EVENING) := EVENING], {}), MIDNIGHT)
    .files
  }

  lemma EveningDays()
    ensures EventDay(EVENING) == 0 && EventDay(MIDNIGHT) == 1 && DayOf(RollNs(EVENING)) == 0
    ensures EventDay(RolledClose(EVENING, 0)) == 0 && EventDay(RolledOpen(EVENING, 1)) == 1
    ensures DayOf(RollNs(RolledOpen(EVENING, 1))) == 1 && DayOf(MIDNIGHT.observedNs) == 1
  {
    DayIs(DAY_NS - 5, 0);
    DayIs(DAY_NS - 1, 0);
    DayIs(DAY_NS, 1);
  }

  lemma MidnightFiles()
    ensures Close(Files(map["g" := EVENING], map[ArtifactOf(EVENING) := EVENING], {}), MIDNIGHT).ok
    ensures AfterMidnight().ready ==
              map[ArtifactOf(EVENING) := EVENING, ArtifactOf(RolledClose(EVENING, 0)) := RolledClose(EVENING, 0),
                  ArtifactOf(RolledOpen(EVENING, 1)) := RolledOpen(EVENING, 1), ArtifactOf(MIDNIGHT) := MIDNIGHT]
  {
    EveningDays();
    var files := Files(map["g" := EVENING], map[ArtifactOf(EVENING) := EVENING], {});
    hide DayOf, EventDay, RolledClose, RolledOpen;
    var turn := RollTurn(files, "g", 0, 3);
    assert turn.ok && turn.files.states["g"] == RolledOpen(EVENING, 1);
    assert RollFrom(turn.files, "g", 1, 1) == Outcome(turn.files, true);
    assert RollStateTo(files, "g", 1) == turn;
  }

  /** The ledger of day 1 has the CLOSED fact before the OPEN fact, and all of day 1 replays as gap. */
  lemma MidnightDayIsLost(x: int)
    requires StartOf(1) <= x < StartOf(2)
    ensures var facts := [MIDNIGHT, RolledOpen(EVENING, 1)];
            Ledger(facts, AfterMidnight(), 1) && InGap(facts, "g", x) && MIDNIGHT.observedNs <= x
  {
    var facts := [MIDNIGHT, RolledOpen(EVENING, 1)];
    EveningDays();
    MidnightFiles();
    assert facts[1].open && OpenSince(facts, 1, 2);
    hide AfterMidnight;
    forall gap | HasFact(AfterMidnight(), gap) && EventDay(gap) == 1
      ensures gap in facts
    {
    }
  }
}
