/**
 A chunk that was recorded before its day was sealed is in the seal, whatever else happens: no
 condition on the journal file is left, because recording is what makes it exist.
 */
module TransferJournal {
  import opened Base
  import opened Spool
  import opened AckApply
  import opened Transfer
  import opened TransferHonest
  import opened TransferSafety
  import opened TransferSeal

  /** Recording appends one line to the journal of the chunk's day, and does nothing else. */
  lemma RecordAppends(e: Edge, id: string, p: Publication)
    requires DayOf(p) !in e.sealed
    ensures var after := JournalChunk(e, id, p); var day := DayOf(p);
            && after == e.(dayJournal := after.dayJournal)
            && after.dayJournal.Keys == e.dayJournal.Keys + {day}
            && (forall other :: other in e.dayJournal && other != day ==> after.dayJournal[other] == e.dayJournal[other])
            && after.dayJournal[day] != []
            && after.dayJournal[day][|after.dayJournal[day]| - 1] == RefOf(id, p)
            && after.dayJournal[day][..|after.dayJournal[day]| - 1] == (if day in e.dayJournal then e.dayJournal[day] else [])
  {
  }

  /** What recording secures: until the day is sealed the line is there, and a seal has to list the chunk. */
  ghost predicate Secured(s: System, id: string, p: Publication) {
    && id in s.published && s.published[id] == p && id in s.described
    && if DayOf(p) in s.edge.sealed
       then DayOf(p) in s.seals && s.seals[DayOf(p)].hadJournal && id in s.seals[DayOf(p)].must
       else InJournal(s.edge.dayJournal, id, p) && SealerKnows(s.sealer, id, DayOf(p))
  }

  /** A seal of the day in progress has found the journal and is going to list the chunk. */
  ghost predicate SealerKnows(sealer: Sealer, id: string, day: int) {
    match sealer
    case ReadingReady(d, _, _, must) => d == day ==> id in must
    case ReadingAcked(d, _, _, must) => d == day ==> id in must
    case Writing(d, _, hadJournal, must) => d == day ==> hadJournal && id in must
    case _ => true
  }

  lemma RecordSecures(s: System, id: string)
    requires Can(s, RecordChunk(id)) && DayOf(s.published[id]) !in s.edge.sealed
    ensures Secured(Do(s, RecordChunk(id)), id, s.published[id])
  {
    RecordAppends(s.edge, id, s.published[id]);
  }

  lemma BeginSecured(s: System, day: int, id: string, p: Publication)
    requires Secured(s, id, p) && s.sealer.Resting?
    ensures SealerKnows(BeginSeal(s.edge, day, DescribedOn(s, day)), id, DayOf(p)) || DayOf(p) in s.edge.sealed
  {
    assert day == DayOf(p) ==> id in DescribedOn(s, day);
    hide DescribedOn, NotedAll, ReadyOf;
  }

  /** A seal writes a day that is not sealed, and removes the journal only of one that is. */
  ghost predicate SealerFits(e: Edge, p: Sealer) {
    && (p.Writing? ==> p.day !in e.sealed)
    && (p.CleaningJournal? ==> p.day in e.sealed)
  }

  lemma WriteSecured(s: System, id: string, p: Publication)
    requires Secured(s, id, p) && SealerFits(s.edge, s.sealer) && s.sealer.Writing?
    ensures Secured(SealDone(s, Advance), id, p)
  {
    hide InJournal;
    var after := SealDone(s, Advance);
    assert after.edge.dayJournal == s.edge.dayJournal;
    assert after.edge.sealed == s.edge.sealed[s.sealer.day := s.sealer.refs];
    assert after.seals == s.seals[s.sealer.day := SealRecord(s.sealer.must, s.sealer.hadJournal)];
    hide SealDone;
  }

  lemma CleanSecured(s: System, id: string, p: Publication)
    requires Secured(s, id, p) && SealerFits(s.edge, s.sealer) && (s.sealer.CleaningJournal? || s.sealer.CleaningAcked?)
    ensures Secured(SealDone(s, Advance), id, p)
  {
    hide AckedOf;
    var after := SealDone(s, Advance);
    assert after.edge.sealed == s.edge.sealed && after.seals == s.seals;
    assert after.edge.dayJournal == if s.sealer.CleaningJournal? then s.edge.dayJournal - {s.sealer.day} else s.edge.dayJournal;
    hide SealDone;
  }

  lemma ScanSecured(s: System, step: SealAction, id: string, p: Publication)
    requires Secured(s, id, p) && CanSeal(s.edge, s.sealer, step) && (s.sealer.ReadingReady? || s.sealer.ReadingAcked?)
    ensures Secured(SealDone(s, step), id, p)
  {
    hide InJournal, NotedAll, Noted, ReadyOf, AckedOf, DescribedOn;
    var after := SealDone(s, step);
    assert after == s.(sealer := after.sealer);
  }

  lemma SealSecured(s: System, step: SealAction, id: string, p: Publication)
    requires SealerFits(s.edge, s.sealer) && Secured(s, id, p) && CanSeal(s.edge, s.sealer, step)
    ensures Secured(SealDone(s, step), id, p)
  {
    match s.sealer
    case Resting =>
      if step.Begin? {
        BeginSecured(s, step.day, id, p);
        hide InJournal, BeginSeal, DescribedOn, SealerKnows;
        assert SealDone(s, step) == s.(sealer := BeginSeal(s.edge, step.day, DescribedOn(s, step.day)));
        hide SealDone;
      }
    case Writing(_, _, _, _) => WriteSecured(s, id, p); hide Secured, SealDone;
    case CleaningJournal(_) => CleanSecured(s, id, p); hide Secured, SealDone;
    case CleaningAcked(_) => CleanSecured(s, id, p); hide Secured, SealDone;
    case _ => ScanSecured(s, step, id, p); hide Secured, SealDone;
  }

  lemma ApplySecured(s: System, pick: string, id: string, p: Publication)
    requires Secured(s, id, p)
    ensures Secured(ApplyDone(s, pick), id, p)
  {
    if s.applier.Moving? {
      hide InJournal, SealerKnows;
      assert Step(s.edge, s.applier, pick).edge == MoveManifest(s.edge, s.applier.transaction, s.applier.sealedSeen);
      hide Step;
    } else {
      StepDayFiles(s.edge, s.applier, pick);
      hide Step, InJournal, SealerKnows;
    }
  }

  lemma CompleteFits(s: System)
    requires Complete(s)
    ensures SealerFits(s.edge, s.sealer)
  {
    hide OwnedBack, Inventoried, SealsOk, Lists, MustOk;
  }

  /** Every action keeps what recording has secured. */
  lemma SecuredStep(s: System, a: Action, id: string, p: Publication)
    requires Complete(s) && Can(s, a) && Secured(s, id, p)
    ensures Secured(Do(s, a), id, p)
  {
    match a
    case Seal(step) =>
      CompleteFits(s);
      SealSecured(s, step, id, p);
      hide Secured, SealDone, Complete;
    case ApplyStep(pick) => ApplySecured(s, pick, id, p); hide Secured, ApplyDone, Complete;
    case RecordChunk(other) =>
      hide Complete, SealerKnows;
      if DayOf(s.published[other]) !in s.edge.sealed {
        RecordAppends(s.edge, other, s.published[other]);
      }
    case _ => hide Complete, SealerKnows, InJournal, DoAtCentral, CanAtCentral, CanSeal;
  }

  lemma {:induction false} RunSecured(s: System, actions: seq<Action>, id: string, p: Publication)
    requires Honest(s) && Durable(s) && Complete(s) && Runs(s, actions) && Secured(s, id, p)
    ensures var t := After(s, actions); Honest(t) && Durable(t) && Complete(t) && Secured(t, id, p)
    decreases |actions|
  {
    hide Honest, Durable, Complete, Can, Do, Secured;
    if actions != [] {
      HonestStep(s, actions[0]);
      DurableStep(s, actions[0]);
      CompleteStep(s, actions[0]);
      SecuredStep(s, actions[0], id, p);
      RunSecured(Do(s, actions[0]), actions[1..], id, p);
    }
  }

  /**
   A chunk recorded while its day was not sealed is listed by that day's seal, with its path, digest and
   size, however the run goes on: other chunks, ACKs, crashes, damaged files, interrupted seals.
   */
  lemma RecordedIsSealed(before: seq<Action>, id: string, later: seq<Action>)
    requires Runs(INITIAL, before) && Can(After(INITIAL, before), RecordChunk(id))
    requires var s := After(INITIAL, before);
             DayOf(s.published[id]) !in s.edge.sealed && Runs(Do(s, RecordChunk(id)), later)
    ensures var s := After(INITIAL, before);
            var end := After(Do(s, RecordChunk(id)), later);
            var p := s.published[id];
            if DayOf(p) in end.edge.sealed
            then DayOf(p) in end.seals && end.seals[DayOf(p)].hadJournal && Lists(end.edge.sealed[DayOf(p)], id, p)
            else InJournal(end.edge.dayJournal, id, p)
  {
    InitialComplete();
    RunComplete(INITIAL, before);
    var s := After(INITIAL, before);
    hide Runs, After, Honest, Durable, Complete, Can, Do, Secured;
    HonestStep(s, RecordChunk(id));
    DurableStep(s, RecordChunk(id));
    CompleteStep(s, RecordChunk(id));
    RecordSecures(s, id);
    RunSecured(Do(s, RecordChunk(id)), later, id, s.published[id]);
    SecuredLists(After(Do(s, RecordChunk(id)), later), id, s.published[id]);
  }

  lemma SecuredLists(s: System, id: string, p: Publication)
    requires Complete(s) && Secured(s, id, p)
    ensures if DayOf(p) in s.edge.sealed
            then DayOf(p) in s.seals && s.seals[DayOf(p)].hadJournal && Lists(s.edge.sealed[DayOf(p)], id, p)
            else InJournal(s.edge.dayJournal, id, p)
  {
    hide Lists, OwnedBack, Inventoried, SealerOk, InJournal, SealerKnows;
    if DayOf(p) in s.edge.sealed {
      assert SealOk(s.edge.sealed[DayOf(p)], s.seals[DayOf(p)], s.published);
    }
  }

  /** Once the central side has published the day from that seal, it holds the recorded chunk. */
  lemma RecordedIsPublished(before: seq<Action>, id: string, later: seq<Action>)
    requires Runs(INITIAL, before) && Can(After(INITIAL, before), RecordChunk(id))
    requires var s := After(INITIAL, before);
             DayOf(s.published[id]) !in s.edge.sealed && Runs(Do(s, RecordChunk(id)), later)
    requires var s := After(INITIAL, before);
             var end := After(Do(s, RecordChunk(id)), later);
             var day := DayOf(s.published[id]);
             day in end.edge.sealed && day in end.central.days
             && forall chunk | chunk in end.edge.sealed[day].Values :: chunk in end.central.days[day]
    ensures var s := After(INITIAL, before);
            var end := After(Do(s, RecordChunk(id)), later);
            var p := s.published[id];
            p.path in end.central.raw && end.central.raw[p.path] == p.content
  {
    InitialComplete();
    RunComplete(INITIAL, before);
    var s := After(INITIAL, before);
    RecordedIsSealed(before, id, later);
    hide Runs, After, Honest, Durable, Complete, Can, Do, Secured;
    HonestStep(s, RecordChunk(id));
    DurableStep(s, RecordChunk(id));
    CompleteStep(s, RecordChunk(id));
    RunComplete(Do(s, RecordChunk(id)), later);
    ListedIsHeld(After(Do(s, RecordChunk(id)), later), id, s.published[id]);
  }

  lemma ListedIsHeld(s: System, id: string, p: Publication)
    requires Durable(s) && DayOf(p) in s.edge.sealed && DayOf(p) in s.central.days
    requires forall chunk | chunk in s.edge.sealed[DayOf(p)].Values :: chunk in s.central.days[DayOf(p)]
    requires Lists(s.edge.sealed[DayOf(p)], id, p)
    ensures p.path in s.central.raw && s.central.raw[p.path] == p.content
  {
    hide EdgeHeld, NothingLost, PullerOk, AcksHeld;
    var refs, chunk := s.edge.sealed[DayOf(p)], RefOf(id, p);
    assert refs[(id, Sha(p.content))] == chunk;
    assert chunk in refs.Values;
    assert AllHeld(s.central.raw, s.central.days[DayOf(p)]);
    assert Verifies(s.central.raw[p.path], chunk);
  }

  // ---------------------------------------------------------------- a day of one chunk

  /** One chunk is published and recorded, and its day sealed, without any disturbance. */
  function PlainRun(id: string, p: Publication): seq<Action> {
    [PublishData(id, p)] + ([PublishManifest(id, 0)] + ([RecordChunk(id)] + PlainSeal(p)))
  }

  function PlainSeal(p: Publication): seq<Action> {
    [Seal(Begin(DayOf(p)))] + ([Seal(Read(p.path.stem))] + ([Seal(Advance)] + PlainWrite()))
  }

  function PlainWrite(): seq<Action> {
    [Seal(Advance)] + ([Seal(Advance)] + ([Seal(Advance)] + ([Seal(Advance)] + [])))
  }

  function OneRef(id: string, p: Publication): Inventory {
    map[(id, Sha(p.content)) := RefOf(id, p)]
  }

  /** The chunk and its manifest are in `ready`; the journal, the sealer and the seals are as given. */
  function PlainState(id: string, p: Publication, journal: map<int, seq<ChunkRef>>, sealed: map<int, Inventory>,
                      sealer: Sealer, seals: map<int, SealRecord>): System {
    var s := PublishManifestDone(PublishDataDone(INITIAL, id, p), id, p, 0);
    s.(edge := s.edge.(dayJournal := journal, sealed := sealed), sealer := sealer, seals := seals)
  }

  /** The day is sealed with exactly that chunk, and its journal is gone. */
  function PlainEnd(id: string, p: Publication): System {
    PlainState(id, p, map[], map[DayOf(p) := OneRef(id, p)], Resting, map[DayOf(p) := SealRecord({id}, true)])
  }

  lemma Advances(s: System, t: System, rest: seq<Action>, end: System)
    requires CanSeal(s.edge, s.sealer, Advance) && SealDone(s, Advance) == t && LeadsTo(t, rest, end)
    ensures LeadsTo(s, [Seal(Advance)] + rest, end)
  {
    hide CanSeal, SealDone, LeadsTo;
    OneMore(s, Seal(Advance), rest, end);
  }

  lemma PlainFiles(id: string, p: Publication, journal: map<int, seq<ChunkRef>>, sealed: map<int, Inventory>,
                   sealer: Sealer, seals: map<int, SealRecord>)
    ensures var s := PlainState(id, p, journal, sealed, sealer, seals);
            && s.edge.manifests == map[p.path.stem := Good(ManifestOf(id, p, 0))] && s.edge.acked == map[]
            && s.edge.dayJournal == journal && s.edge.sealed == sealed && s.sealer == sealer && s.seals == seals
            && s.described == {id} && s.published == map[id := p]
    ensures PlainState(id, p, journal, sealed, sealer, seals) ==
              PlainState(id, p, map[], map[], Resting, map[])
              .(edge := PlainState(id, p, map[], map[], Resting, map[]).edge.(dayJournal := journal, sealed := sealed),
                sealer := sealer, seals := seals)
  {
  }

  /** From the finished scan on: the seal is written and the day cleaned up. */
  lemma PlainWrites(id: string, p: Publication)
    ensures LeadsTo(PlainState(id, p, map[DayOf(p) := [RefOf(id, p)]], map[],
                               ReadingAcked(DayOf(p), OneRef(id, p), {}, {id}), map[]),
                    PlainWrite(), PlainEnd(id, p))
  {
    var day, refs, journal := DayOf(p), OneRef(id, p), map[DayOf(p) := [RefOf(id, p)]];
    var sealed, seals := map[day := refs], map[day := SealRecord({id}, true)];
    var s1 := PlainState(id, p, journal, map[], ReadingAcked(day, refs, {}, {id}), map[]);
    var s2 := PlainState(id, p, journal, map[], Writing(day, refs, true, {id}), map[]);
    var s3 := PlainState(id, p, journal, sealed, CleaningJournal(day), seals);
    var s4 := PlainState(id, p, map[], sealed, CleaningAcked(day), seals);
    var s5 := PlainEnd(id, p);
    hide PublishManifestDone, PublishDataDone, OneRef;
    PlainFiles(id, p, map[], sealed, CleaningAcked(day), seals);
    assert AckedOf(s4.edge, day) == {};
    assert s4.edge.acked - {} == s4.edge.acked;
    assert journal - {day} == map[];
    assert SealDone(s1, Advance) == s2 && SealDone(s2, Advance) == s3;
    assert SealDone(s3, Advance) == s4 && SealDone(s4, Advance) == s5;
    hide PlainState, SealDone, PlainEnd, LeadsTo;
    assert LeadsTo(s5, [], s5) by {
      Nowhere(s5);
    }
    Advances(s4, s5, [], s5);
    Advances(s3, s4, [Seal(Advance)] + [], s5);
    Advances(s2, s3, [Seal(Advance)] + ([Seal(Advance)] + []), s5);
    Advances(s1, s2, [Seal(Advance)] + ([Seal(Advance)] + ([Seal(Advance)] + [])), s5);
  }

  function Scanning(id: string, p: Publication, stems: set<Stem>): System {
    PlainState(id, p, map[DayOf(p) := [RefOf(id, p)]], map[], ReadingReady(DayOf(p), OneRef(id, p), stems, {id}), map[])
  }

  lemma PlainBegins(id: string, p: Publication)
    ensures var s := PlainState(id, p, map[DayOf(p) := [RefOf(id, p)]], map[], Resting, map[]);
            CanSeal(s.edge, s.sealer, Begin(DayOf(p))) && SealDone(s, Begin(DayOf(p))) == Scanning(id, p, {p.path.stem})
  {
    var day, refs, journal := DayOf(p), OneRef(id, p), map[DayOf(p) := [RefOf(id, p)]];
    var s := PlainState(id, p, journal, map[], Resting, map[]);
    PlainFiles(id, p, journal, map[], Resting, map[]);
    assert DescribedOn(s, day) == {id};
    assert ReadyOf(s.edge, day) == {p.path.stem};
    assert NotedAll(map[], [RefOf(id, p)]) == refs by {
      assert [RefOf(id, p)][..0] == [];
      assert NotedAll(map[], []) == map[];
    }
    hide PublishManifestDone, PublishDataDone, DescribedOn, ReadyOf, NotedAll, OneRef;
  }

  lemma PlainReads(id: string, p: Publication)
    ensures var s := Scanning(id, p, {p.path.stem});
            CanSeal(s.edge, s.sealer, Read(p.path.stem)) && SealDone(s, Read(p.path.stem)) == Scanning(id, p, {})
  {
    var refs, stem := OneRef(id, p), p.path.stem;
    var s := Scanning(id, p, {stem});
    assert Noted(refs, RefOf(id, p)) == refs && {stem} - {stem} == {};
    PlainFiles(id, p, map[DayOf(p) := [RefOf(id, p)]], map[], s.sealer, map[]);
    assert s.edge.manifests[stem].value.chunk == RefOf(id, p);
    hide PublishManifestDone, PublishDataDone, OneRef, Noted;
  }

  lemma PlainScanned(id: string, p: Publication)
    ensures var s := Scanning(id, p, {});
            CanSeal(s.edge, s.sealer, Advance) &&
            SealDone(s, Advance) == PlainState(id, p, map[DayOf(p) := [RefOf(id, p)]], map[],
                                               ReadingAcked(DayOf(p), OneRef(id, p), {}, {id}), map[])
  {
    var s := Scanning(id, p, {});
    PlainFiles(id, p, map[DayOf(p) := [RefOf(id, p)]], map[], s.sealer, map[]);
    assert AckedOf(s.edge, DayOf(p)) == {};
    hide PublishManifestDone, PublishDataDone, OneRef, AckedOf;
  }

  lemma PlainScans(id: string, p: Publication)
    ensures LeadsTo(PlainState(id, p, map[DayOf(p) := [RefOf(id, p)]], map[], Resting, map[]),
                    PlainSeal(p), PlainEnd(id, p))
  {
    var day, stem := DayOf(p), p.path.stem;
    PlainBegins(id, p);
    PlainReads(id, p);
    PlainScanned(id, p);
    hide PlainState, Scanning, SealDone, PlainEnd, LeadsTo, OneRef;
    PlainWrites(id, p);
    Advances(Scanning(id, p, {}),
             PlainState(id, p, map[day := [RefOf(id, p)]], map[], ReadingAcked(day, OneRef(id, p), {}, {id}), map[]),
             PlainWrite(), PlainEnd(id, p));
    OneMore(Scanning(id, p, {stem}), Seal(Read(stem)), [Seal(Advance)] + PlainWrite(), PlainEnd(id, p));
    OneMore(PlainState(id, p, map[day := [RefOf(id, p)]], map[], Resting, map[]), Seal(Begin(day)),
            [Seal(Read(stem))] + ([Seal(Advance)] + PlainWrite()), PlainEnd(id, p));
  }

  /** Undisturbed, publishing, recording and sealing end in a seal that lists the chunk. */
  lemma PlainDayIsSealed(id: string, p: Publication)
    ensures LeadsTo(INITIAL, PlainRun(id, p), PlainEnd(id, p))
    ensures DayOf(p) in PlainEnd(id, p).edge.sealed && Lists(PlainEnd(id, p).edge.sealed[DayOf(p)], id, p)
    ensures PlainEnd(id, p).sealer.Resting? && PlainEnd(id, p).edge.dayJournal == map[]
  {
    var s1 := PublishDataDone(INITIAL, id, p);
    var s2 := PublishManifestDone(s1, id, p, 0);
    var s3 := PlainState(id, p, map[DayOf(p) := [RefOf(id, p)]], map[], Resting, map[]);
    assert s2 == PlainState(id, p, map[], map[], Resting, map[]);
    assert [] + [RefOf(id, p)] == [RefOf(id, p)];
    assert JournalChunk(s2.edge, id, p) == s3.edge;
    assert s2.published == map[id := p] && s2.described == {id} && s2.sealer.Resting? && s1.published == map[id := p];
    hide PublishDataDone, PublishManifestDone, PlainState, PlainEnd, LeadsTo, JournalChunk, PlainSeal;
    PlainScans(id, p);
    OneMore(s2, RecordChunk(id), PlainSeal(p), PlainEnd(id, p));
    OneMore(s1, PublishManifest(id, 0), [RecordChunk(id)] + PlainSeal(p), PlainEnd(id, p));
    OneMore(INITIAL, PublishData(id, p), [PublishManifest(id, 0)] + ([RecordChunk(id)] + PlainSeal(p)), PlainEnd(id, p));
    PlainEndLists(id, p);
  }

  lemma PlainEndLists(id: string, p: Publication)
    ensures DayOf(p) in PlainEnd(id, p).edge.sealed && Lists(PlainEnd(id, p).edge.sealed[DayOf(p)], id, p)
    ensures PlainEnd(id, p).sealer.Resting? && PlainEnd(id, p).edge.dayJournal == map[]
  {
    hide PublishDataDone, PublishManifestDone;
  }

  // ---------------------------------------------------------------- what a finished seal leaves behind

  function Cleaned(e: Edge, day: int): Edge {
    e.(dayJournal := e.dayJournal - {day}, acked := e.acked - AckedOf(e, day))
  }

  /** A seal that comes to its end leaves the written seal and neither journal nor acked manifests of the day. */
  lemma SealEnds(s: System)
    requires s.sealer.Writing?
    ensures var day := s.sealer.day; var end := SealDone(SealDone(SealDone(s, Advance), Advance), Advance);
            && end.sealer.Resting? && end.edge == Cleaned(s.edge, day).(sealed := s.edge.sealed[day := s.sealer.refs])
            && day !in end.edge.dayJournal && AckedOf(end.edge, day) == {}
  {
    var day := s.sealer.day;
    assert AckedOf(s.edge.(sealed := s.edge.sealed[day := s.sealer.refs], dayJournal := s.edge.dayJournal - {day}), day) == AckedOf(s.edge, day);
    assert AckedOf(Cleaned(s.edge, day), day) == {};
  }

  /** Sealing a day again, say after a crash in the middle of the cleanup, finishes it and keeps the seal. */
  lemma ResealCleans(s: System, day: int)
    requires s.sealer.Resting? && day in s.edge.sealed
    ensures var end := SealDone(SealDone(SealDone(s, Begin(day)), Advance), Advance);
            end.sealer.Resting? && end.edge == Cleaned(s.edge, day) && end.seals == s.seals
            && day !in end.edge.dayJournal && AckedOf(end.edge, day) == {}
  {
    assert AckedOf(s.edge.(dayJournal := s.edge.dayJournal - {day}), day) == AckedOf(s.edge, day);
    assert AckedOf(Cleaned(s.edge, day), day) == {};
    hide DescribedOn;
  }
}
