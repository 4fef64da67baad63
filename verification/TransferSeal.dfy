/** What a deleted chunk leaves behind, and what a sealed day lists. */
module TransferSeal {
  import opened Base
  import opened Spool
  import opened AckApply
  import opened Transfer
  import opened TransferHonest
  import opened TransferSafety

  // ---------------------------------------------------------------- REMOTE_GC evidence

  ghost predicate Logged(gcLog: set<GcRecord>, id: string) {
    exists record :: record in gcLog && record.chunkId == id
  }

  predicate Aside(rejected: multiset<Rejection>, id: string) {
    Rejection(id, INVALID_TRANSACTION) in rejected
  }

  ghost predicate TraceOf(applying: set<string>, rejected: multiset<Rejection>, gcLog: set<GcRecord>, id: string) {
    id in applying || Aside(rejected, id) || Logged(gcLog, id)
  }

  ghost predicate Traced(published: History, e: Edge) {
    forall id | id in published ::
      published[id].path in e.data || TraceOf(e.applying.Keys, e.rejected, e.gcLog, id)
  }

  ghost predicate ApplierTraced(e: Edge, p: Applier) {
    match p
    case Moving(_, _, name, _, _) => name in e.applying
    case Dropping(_, _, name, _) => name in e.applying
    case Clearing(names) => forall name | name in names :: Logged(e.gcLog, name)
    case _ => true
  }

  /** No trace is lost when an edge gains files, rejections or records, and no data file leaves. */
  lemma TraceGrows(published: History, e: Edge, after: Edge)
    requires Traced(published, e) && e.data.Keys <= after.data.Keys
    requires forall id :: TraceOf(e.applying.Keys, e.rejected, e.gcLog, id) ==>
                          TraceOf(after.applying.Keys, after.rejected, after.gcLog, id)
    ensures Traced(published, after)
  {
    hide TraceOf;
  }

  lemma AcceptTraced(e: Edge, known: map<string, Manifest>, todo: set<string>, transactions: set<string>, name: string, published: History)
    requires name in e.acks && Traced(published, e)
    ensures Traced(published, AcceptOne(e, known, todo, transactions, name).edge)
    ensures ApplierTraced(AcceptOne(e, known, todo, transactions, name).edge, AcceptOne(e, known, todo, transactions, name).applier)
  {
    hide Judge, Logged, Traced;
    match Judge(known, e.applying, name, e.acks[name])
    case Reject(reason) => TraceGrows(published, e, RejectAck(e, name, reason));
    case Accept(ack, manifest) =>
      if name !in e.applying {
        TraceGrows(published, e, RecordAck(e, name, Transaction(ack, manifest)));
      }
  }

  lemma CollectTraced(e: Edge, todo: set<string>, done: map<string, Transaction>, name: string, published: History)
    requires name in e.applying && Traced(published, e) && TransactionsOk(e.applying, published)
    ensures var next := CollectOne(e, todo, done, name); Traced(published, next.edge) && ApplierTraced(next.edge, next.applier)
  {
    hide Logged, IsOf, DataOk;
    TraceGrows(published, e, CollectOne(e, todo, done, name).edge);
  }

  lemma DropTraced(s: System)
    requires Honest(s) && s.applier.Dropping? && Traced(s.published, s.edge) && ApplierTraced(s.edge, s.applier)
    ensures Traced(s.published, DropData(s.edge, s.applier.transaction))
  {
    var t := s.applier.transaction;
    var path := t.manifest.chunk.path;
    assert Genuine(t, s.applier.name, s.published);
    forall id | id in s.published && s.published[id].path == path
      ensures id in s.edge.applying
    {
      assert s.owner[KeyOf(path.stem)] == id;
      assert id == t.manifest.chunk.chunkId;
    }
    hide Honest, Logged;
  }

  lemma LogTraced(e: Edge, done: map<string, Transaction>, published: History)
    requires Traced(published, e) && DoneOk(done, published)
    ensures Traced(published, LogGc(e, done)) && ApplierTraced(LogGc(e, done), Clearing(done.Keys))
  {
    forall name | name in done
      ensures Logged(LogGc(e, done).gcLog, name)
    {
      assert Genuine(done[name], name, published);
      assert Record(done[name]) in LogGc(e, done).gcLog;
    }
    forall id | Logged(e.gcLog, id)
      ensures Logged(LogGc(e, done).gcLog, id)
    {
      var record :| record in e.gcLog && record.chunkId == id;
      assert record in LogGc(e, done).gcLog;
    }
    hide Logged, DoneOk, Records;
  }

  lemma ClearTraced(e: Edge, names: set<string>, name: string, published: History)
    requires Traced(published, e) && ApplierTraced(e, Clearing(names)) && name in names
    ensures Traced(published, RemoveTransaction(e, name)) && ApplierTraced(RemoveTransaction(e, name), Clearing(names - {name}))
  {
    hide Logged;
    TraceGrows(published, e, RemoveTransaction(e, name));
  }

  lemma MoveTraced(e: Edge, t: Transaction, seen: bool, published: History)
    requires Traced(published, e)
    ensures Traced(published, MoveManifest(e, t, seen)) && MoveManifest(e, t, seen).applying == e.applying
  {
    hide TraceOf;
  }

  lemma ApplyTraced(s: System, pick: string)
    requires Honest(s) && Traced(s.published, s.edge) && ApplierTraced(s.edge, s.applier)
    ensures var next := Step(s.edge, s.applier, pick); Traced(s.published, next.edge) && ApplierTraced(next.edge, next.applier)
  {
    var e, p := s.edge, s.applier;
    match p
    case Accepting(known, todo, transactions) =>
      if todo != {} && pick in todo && pick in e.acks {
        AcceptTraced(e, known, todo, transactions, pick, s.published);
        assert Step(e, p, pick) == AcceptOne(e, known, todo, transactions, pick);
        hide Step, AcceptOne, Traced, ApplierTraced;
      }
    case Collecting(todo, done) =>
      if todo != {} && pick in todo && pick in e.applying {
        CollectTraced(e, todo, done, pick, s.published);
        assert Step(e, p, pick) == CollectOne(e, todo, done, pick);
        hide Step, CollectOne, Traced, ApplierTraced;
      }
    case Moving(_, _, _, t, seen) => MoveTraced(e, t, seen, s.published); hide MoveManifest, Traced;
    case Dropping(_, _, _, t) => DropTraced(s); hide Traced;
    case Logging(done) => LogTraced(e, done, s.published); hide Traced;
    case Clearing(names) =>
      if pick in names {
        ClearTraced(e, names, pick, s.published);
        hide Traced;
      }
    case _ => hide TraceOf;
  }

  lemma TraceStep(s: System, a: Action)
    requires Honest(s) && Can(s, a) && Traced(s.published, s.edge) && ApplierTraced(s.edge, s.applier)
    ensures var t := Do(s, a); Traced(t.published, t.edge) && ApplierTraced(t.edge, t.applier)
  {
    hide Honest, TraceOf, Logged;
    match a
    case ApplyStep(pick) => ApplyTraced(s, pick); hide Traced, ApplierTraced, Step;
    case Seal(step) =>
      var must := if step.Begin? then DescribedOn(s, step.day) else {};
      SealFrame(s.edge, s.sealer, step, must);
      hide DoSeal, CanSeal, DescribedOn;
    case AtCentral(_) => hide DoAtCentral, CanAtCentral, Traced, ApplierTraced;
    case DamageTransaction(name) => assert s.edge.applying[name := Damaged].Keys == s.edge.applying.Keys;
    case _ =>
  }

  lemma {:induction false} RunTraced(s: System, actions: seq<Action>)
    requires Honest(s) && Runs(s, actions) && Traced(s.published, s.edge) && ApplierTraced(s.edge, s.applier)
    ensures var t := After(s, actions); Traced(t.published, t.edge) && ApplierTraced(t.edge, t.applier)
    decreases |actions|
  {
    hide Honest, Can, Do, Traced, ApplierTraced;
    if actions != [] {
      HonestStep(s, actions[0]);
      TraceStep(s, actions[0]);
      RunTraced(Do(s, actions[0]), actions[1..]);
    }
  }

  /**
   A chunk whose data file is gone still has its transaction file, or a REMOTE_GC record, unless its
   transaction file was damaged and put aside. Crashes fall anywhere.
   */
  lemma DeletedChunkLeavesTrace(actions: seq<Action>, id: string)
    requires Runs(INITIAL, actions) && id in After(INITIAL, actions).published
    ensures var s := After(INITIAL, actions);
            || s.published[id].path in s.edge.data || id in s.edge.applying
            || (exists record :: record in s.edge.gcLog && record.chunkId == id)
            || Rejection(id, INVALID_TRANSACTION) in s.edge.rejected
  {
    InitialHonest();
    RunTraced(INITIAL, actions);
    hide Runs, After, ApplierTraced;
  }

  // ---------------------------------------------------------------- sealing

  ghost predicate OwnedBack(published: History, owner: map<AckedKey, string>) {
    forall key | key in owner :: owner[key] in published && KeyOf(published[owner[key]].path.stem) == key
  }

  ghost predicate InJournal(journal: map<int, seq<ChunkRef>>, id: string, p: Publication) {
    DayOf(p) in journal && RefOf(id, p) in journal[DayOf(p)]
  }

  /** A described chunk of a day that is not sealed is in one of the three inventories. */
  ghost predicate Inventoried(e: Edge, published: History, described: set<string>) {
    forall id | id in described && id in published && DayOf(published[id]) !in e.sealed ::
      || InJournal(e.dayJournal, id, published[id])
      || published[id].path.stem in e.manifests || KeyOf(published[id].path.stem) in e.acked
  }

  /** The inventory lists the chunk, with its path, digest and size. */
  predicate Lists(refs: Inventory, id: string, p: Publication) {
    (id, Sha(p.content)) in refs && refs[(id, Sha(p.content))] == RefOf(id, p)
  }

  ghost predicate MustOk(must: set<string>, day: int, published: History) {
    forall id | id in must :: id in published && DayOf(published[id]) == day
  }

  /** What a seal in progress has not listed yet, it is still going to read. */
  ghost predicate SealerOk(e: Edge, p: Sealer, published: History) {
    match p
    case Resting => true
    case ReadingReady(day, refs, stems, must) =>
      && day !in e.sealed && MustOk(must, day, published)
      && (forall id | id in must && id in published && !Lists(refs, id, published[id]) ::
           || (published[id].path.stem in stems && published[id].path.stem in e.manifests)
           || KeyOf(published[id].path.stem) in e.acked)
    case ReadingAcked(day, refs, keys, must) =>
      && day !in e.sealed && MustOk(must, day, published)
      && (forall id | id in must && id in published && !Lists(refs, id, published[id]) ::
           KeyOf(published[id].path.stem) in keys && KeyOf(published[id].path.stem) in e.acked)
    case Writing(day, refs, hadJournal, must) =>
      && day !in e.sealed && MustOk(must, day, published)
      && (if hadJournal then forall id | id in must && id in published :: Lists(refs, id, published[id])
          else refs == map[])
    case CleaningJournal(day) => day in e.sealed
    case CleaningAcked(day) => day in e.sealed
  }

  /** A finished seal lists all it had to, exactly when the day's journal was there or it had nothing to list. */
  ghost predicate SealOk(refs: Inventory, record: SealRecord, published: History) {
    && record.must <= published.Keys
    && ((forall id | id in record.must && id in published :: Lists(refs, id, published[id])) <==>
        record.hadJournal || record.must == {})
  }

  ghost predicate SealsOk(sealed: map<int, Inventory>, seals: map<int, SealRecord>, published: History) {
    forall day | day in sealed :: day in seals && SealOk(sealed[day], seals[day], published)
  }

  /** An unlink decided on a seal it has seen is about a sealed day. */
  ghost predicate SeenOk(e: Edge, p: Applier) {
    p.Moving? && p.sealedSeen ==> p.transaction.manifest.day in e.sealed
  }

  ghost predicate Complete(s: System) {
    && OwnedBack(s.published, s.owner) && Inventoried(s.edge, s.published, s.described)
    && SealerOk(s.edge, s.sealer, s.published) && SealsOk(s.edge.sealed, s.seals, s.published)
    && SeenOk(s.edge, s.applier)
  }

  // Publishing and recording.

  lemma SealerGrows(e: Edge, p: Sealer, published: History, id: string, publication: Publication)
    requires SealerOk(e, p, published) && (id in published ==> published[id] == publication)
    ensures SealerOk(e, p, published[id := publication])
  {
    hide Lists, KeyOf;
  }

  lemma SealsGrow(sealed: map<int, Inventory>, seals: map<int, SealRecord>, published: History, id: string, p: Publication)
    requires SealsOk(sealed, seals, published) && (id in published ==> published[id] == p)
    ensures SealsOk(sealed, seals, published[id := p])
  {
    hide Lists;
    forall day | day in sealed
      ensures SealOk(sealed[day], seals[day], published[id := p])
    {
      assert SealOk(sealed[day], seals[day], published);
      assert forall other | other in seals[day].must :: published[id := p][other] == published[other];
    }
  }

  lemma PublishDataComplete(s: System, id: string, p: Publication)
    requires Honest(s) && Complete(s) && Can(s, PublishData(id, p))
    ensures Complete(PublishDataDone(s, id, p))
  {
    SealerGrows(s.edge, s.sealer, s.published, id, p);
    SealsGrow(s.edge.sealed, s.seals, s.published, id, p);
    SameInventories(s.edge, PublishDataDone(s, id, p).edge, s.sealer, s.published[id := p]);
    PublishInventoried(s, id, p);
    hide SealerOk, SealsOk, Inventoried, EdgeOk;
  }

  lemma PublishInventoried(s: System, id: string, p: Publication)
    requires Honest(s) && Inventoried(s.edge, s.published, s.described) && Can(s, PublishData(id, p))
    ensures Inventoried(PublishDataDone(s, id, p).edge, s.published[id := p], s.described)
  {
    hide EdgeOk, FilesOwned, OwnerOk, InJournal, KeyOf;
  }

  lemma SameInventories(e: Edge, after: Edge, p: Sealer, published: History)
    requires SealerOk(e, p, published)
    requires after.sealed == e.sealed && e.acked.Keys <= after.acked.Keys && e.manifests.Keys <= after.manifests.Keys
    ensures SealerOk(after, p, published)
  {
    hide Lists, KeyOf;
  }

  lemma PublishManifestComplete(s: System, id: string, createdAt: int)
    requires Honest(s) && Complete(s) && id in s.published
    ensures Complete(PublishManifestDone(s, id, s.published[id], createdAt))
  {
    SameInventories(s.edge, PublishManifestDone(s, id, s.published[id], createdAt).edge, s.sealer, s.published);
    hide Honest, SealerOk, SealsOk, InJournal, KeyOf;
  }

  lemma RecordComplete(s: System, id: string)
    requires Complete(s) && Can(s, RecordChunk(id))
    ensures Complete(Do(s, RecordChunk(id)))
  {
    hide SealsOk, KeyOf;
  }

  // Moving a manifest from ready to the acked manifests.

  lemma MoveComplete(s: System, t: Transaction, name: string, seen: bool)
    requires Honest(s) && Complete(s) && Genuine(t, name, s.published) && (seen ==> t.manifest.day in s.edge.sealed)
    ensures var after := MoveManifest(s.edge, t, seen);
            Inventoried(after, s.published, s.described) && SealerOk(after, s.sealer, s.published)
  {
    MoveInventoried(s, t, name, seen);
    MoveSealer(s, t, name, seen);
    hide MoveManifest, Inventoried, SealerOk, Honest, Complete;
  }

  /** A manifest file leaves `ready` only for the acked manifests, unless its day is sealed. */
  lemma MoveFiles(e: Edge, t: Transaction, name: string, seen: bool, published: History, stem: Stem)
    requires Genuine(t, name, published) && (seen ==> t.manifest.day in e.sealed)
    ensures var after := MoveManifest(e, t, seen);
            && after.sealed == e.sealed && after.dayJournal == e.dayJournal && e.acked.Keys <= after.acked.Keys
            && (stem in e.manifests && stem.day !in e.sealed ==> stem in after.manifests || KeyOf(stem) in after.acked)
  {
  }

  lemma MoveInventoried(s: System, t: Transaction, name: string, seen: bool)
    requires Inventoried(s.edge, s.published, s.described)
    requires Genuine(t, name, s.published) && (seen ==> t.manifest.day in s.edge.sealed)
    ensures Inventoried(MoveManifest(s.edge, t, seen), s.published, s.described)
  {
    hide InJournal, Genuine, KeyOf, MoveManifest;
    MoveFiles(s.edge, t, name, seen, s.published, StemOf(t));
    forall id | id in s.described && id in s.published && DayOf(s.published[id]) !in s.edge.sealed
      ensures var after := MoveManifest(s.edge, t, seen);
              || InJournal(after.dayJournal, id, s.published[id])
              || s.published[id].path.stem in after.manifests || KeyOf(s.published[id].path.stem) in after.acked
    {
      MoveFiles(s.edge, t, name, seen, s.published, s.published[id].path.stem);
    }
  }

  lemma MoveSealer(s: System, t: Transaction, name: string, seen: bool)
    requires SealerOk(s.edge, s.sealer, s.published)
    requires Genuine(t, name, s.published) && (seen ==> t.manifest.day in s.edge.sealed)
    ensures SealerOk(MoveManifest(s.edge, t, seen), s.sealer, s.published)
  {
    hide Lists, Genuine, KeyOf, MoveManifest;
    MoveFiles(s.edge, t, name, seen, s.published, StemOf(t));
    if s.sealer.ReadingReady? {
      forall id | id in s.sealer.must && id in s.published
        ensures var after := MoveManifest(s.edge, t, seen); var stem := s.published[id].path.stem;
                stem in s.edge.manifests ==> stem in after.manifests || KeyOf(stem) in after.acked
      {
        MoveFiles(s.edge, t, name, seen, s.published, s.published[id].path.stem);
      }
    }
  }

  predicate SameDayFiles(e: Edge, after: Edge) {
    && after.sealed == e.sealed && after.dayJournal == e.dayJournal
    && after.acked == e.acked && after.manifests == e.manifests
  }

  lemma StepDayFiles(e: Edge, p: Applier, pick: string)
    requires !p.Moving?
    ensures SameDayFiles(e, Step(e, p, pick).edge)
  {
    if !p.Dropping? {
      StepStore(e, p, pick);
      hide Step;
    }
  }

  lemma StepSeen(e: Edge, p: Applier, pick: string)
    requires !p.Moving?
    ensures SeenOk(e, Step(e, p, pick).applier)
  {
    hide Judge, Known, Placed, Collectable;
  }

  lemma ApplyComplete(s: System, pick: string)
    requires Honest(s) && Complete(s)
    ensures Complete(ApplyDone(s, pick))
  {
    if s.applier.Moving? {
      var p := s.applier;
      MovingTransaction(s.edge, p, s.published);
      MoveComplete(s, p.transaction, p.name, p.sealedSeen);
      assert Step(s.edge, p, pick).edge == MoveManifest(s.edge, p.transaction, p.sealedSeen);
      assert MoveManifest(s.edge, p.transaction, p.sealedSeen).sealed == s.edge.sealed;
      hide MoveManifest, Inventoried, SealerOk, SealsOk, Honest, OwnedBack, Genuine;
    } else {
      StepDayFiles(s.edge, s.applier, pick);
      StepSeen(s.edge, s.applier, pick);
      hide Step, Honest, SealsOk, OwnedBack;
    }
  }

  // The actions of the seal.

  lemma {:induction false} NotedLists(chunks: seq<ChunkRef>, published: History, id: string)
    requires forall chunk | chunk in chunks ::
               chunk.chunkId in published && chunk == RefOf(chunk.chunkId, published[chunk.chunkId])
    requires id in published && RefOf(id, published[id]) in chunks
    ensures Lists(NotedAll(map[], chunks), id, published[id])
    decreases |chunks|
  {
    var last := chunks[|chunks| - 1];
    if last.chunkId != id {
      assert RefOf(id, published[id]) in chunks[..|chunks| - 1];
      NotedLists(chunks[..|chunks| - 1], published, id);
    }
  }

  /** Noting a true reference loses no other. */
  lemma StillListed(refs: Inventory, chunk: ChunkRef, published: History, id: string)
    requires chunk.chunkId in published && chunk == RefOf(chunk.chunkId, published[chunk.chunkId])
    requires id in published && (Lists(refs, id, published[id]) || chunk.chunkId == id)
    ensures Lists(Noted(refs, chunk), id, published[id])
  {
  }

  lemma BeginComplete(s: System, day: int)
    requires Honest(s) && Complete(s) && s.sealer.Resting?
    ensures SealerOk(s.edge, BeginSeal(s.edge, day, DescribedOn(s, day)), s.published)
  {
    var must := DescribedOn(s, day);
    hide Lists, KeyOf, OwnerOk, FilesOwned, DataOk, ManifestsOk, AckedOk, TransactionsOk, ApplierOk, SealsOk;
    if day !in s.edge.sealed && day in s.edge.dayJournal {
      var refs := NotedAll(map[], s.edge.dayJournal[day]);
      forall id | id in must && InJournal(s.edge.dayJournal, id, s.published[id])
        ensures Lists(refs, id, s.published[id])
      {
        NotedLists(s.edge.dayJournal[day], s.published, id);
      }
      hide NotedAll, InJournal;
    }
  }

  /** A readable manifest file names the one chunk its place belongs to. */
  lemma FileNames(m: Manifest, published: History, owner: map<AckedKey, string>, id: string)
    requires OwnerOk(published, owner) && IsOf(m, published)
    requires id in published && KeyOf(published[id].path.stem) == KeyOf(m.chunk.path.stem)
    ensures m.chunk.chunkId == id
  {
  }

  lemma ReadComplete(s: System, stem: Stem)
    requires Honest(s) && Complete(s) && CanSeal(s.edge, s.sealer, Read(stem))
    ensures SealerOk(s.edge, DoSeal(s.edge, s.sealer, Read(stem), {}).sealer, s.published)
  {
    var p := s.sealer;
    if s.edge.manifests[stem].Good? {
      var m := s.edge.manifests[stem].value;
      assert IsOf(m, s.published) && m.chunk.path.stem == stem;
      hide OwnerOk, FilesOwned, DataOk, ManifestsOk, AckedOk, TransactionsOk, ApplierOk, JournalOk, SealsOk, Inventoried, OwnedBack, Noted, Lists, KeyOf;
      forall id | id in p.must && id in s.published
        ensures Lists(p.refs, id, s.published[id]) || s.published[id].path.stem == stem ==>
                Lists(Noted(p.refs, m.chunk), id, s.published[id])
      {
        if s.published[id].path.stem == stem {
          FileNames(m, s.published, s.owner, id);
        }
        if Lists(p.refs, id, s.published[id]) || s.published[id].path.stem == stem {
          StillListed(p.refs, m.chunk, s.published, id);
        }
      }
    }
  }

  lemma ReadAckedComplete(s: System, key: AckedKey)
    requires Honest(s) && Complete(s) && CanSeal(s.edge, s.sealer, ReadAcked(key))
    ensures SealerOk(s.edge, DoSeal(s.edge, s.sealer, ReadAcked(key), {}).sealer, s.published)
  {
    var p := s.sealer;
    if s.edge.acked[key].Good? {
      var m := s.edge.acked[key].value;
      assert IsOf(m, s.published) && KeyOf(m.chunk.path.stem) == key;
      hide OwnerOk, FilesOwned, DataOk, ManifestsOk, AckedOk, TransactionsOk, ApplierOk, JournalOk, SealsOk, Inventoried, OwnedBack, Noted, Lists, KeyOf;
      forall id | id in p.must && id in s.published
        ensures Lists(p.refs, id, s.published[id]) || KeyOf(s.published[id].path.stem) == key ==>
                Lists(Noted(p.refs, m.chunk), id, s.published[id])
      {
        if KeyOf(s.published[id].path.stem) == key {
          FileNames(m, s.published, s.owner, id);
        }
        if Lists(p.refs, id, s.published[id]) || KeyOf(s.published[id].path.stem) == key {
          StillListed(p.refs, m.chunk, s.published, id);
        }
      }
    }
  }

  lemma WriteComplete(s: System)
    requires Complete(s) && s.sealer.Writing?
    ensures Complete(SealDone(s, Advance))
  {
    hide OwnedBack, KeyOf, InJournal;
    var p := s.sealer;
    assert SealOk(p.refs, SealRecord(p.must, p.hadJournal), s.published);
    hide SealOk, Lists;
  }

  lemma ScanAdvances(s: System)
    requires Complete(s) && CanSeal(s.edge, s.sealer, Advance) && (s.sealer.ReadingReady? || s.sealer.ReadingAcked?)
    ensures Complete(SealDone(s, Advance))
  {
    hide OwnedBack, SealsOk, Lists, InJournal, Inventoried;
  }

  lemma CleanAdvances(s: System)
    requires Complete(s) && (s.sealer.CleaningJournal? || s.sealer.CleaningAcked?)
    ensures Complete(SealDone(s, Advance))
  {
    hide OwnedBack, SealsOk, Lists;
  }

  lemma AdvanceComplete(s: System)
    requires Complete(s) && CanSeal(s.edge, s.sealer, Advance)
    ensures Complete(SealDone(s, Advance))
  {
    hide Complete, SealDone;
    match s.sealer
    case Writing(_, _, _, _) => WriteComplete(s);
    case ReadingReady(_, _, _, _) => ScanAdvances(s);
    case ReadingAcked(_, _, _, _) => ScanAdvances(s);
    case CleaningJournal(_) => CleanAdvances(s);
    case CleaningAcked(_) => CleanAdvances(s);
  }

  lemma SealComplete(s: System, step: SealAction)
    requires Honest(s) && Complete(s) && CanSeal(s.edge, s.sealer, step)
    ensures Complete(SealDone(s, step))
  {
    hide Honest, OwnedBack, SealsOk, Inventoried, Lists, BeginSeal, DescribedOn;
    match step
    case Begin(day) => BeginComplete(s, day); hide SealerOk;
    case Read(stem) => ReadComplete(s, stem); hide SealerOk;
    case Skip(_) =>
    case ReadAcked(key) => ReadAckedComplete(s, key); hide SealerOk;
    case Advance => AdvanceComplete(s); hide Complete, SealDone;
  }

  lemma OtherComplete(s: System, a: Action)
    requires Honest(s) && Complete(s) && Can(s, a)
    requires !a.PublishData? && !a.PublishManifest? && !a.RecordChunk? && !a.ApplyStep? && !a.Seal?
    ensures Complete(Do(s, a))
  {
    hide Honest, OwnedBack, SealsOk, Lists, InJournal, DoAtCentral, CanAtCentral;
    SameInventories(s.edge, Do(s, a).edge, s.sealer, s.published);
    hide SealerOk;
  }

  lemma CompleteStep(s: System, a: Action)
    requires Honest(s) && Complete(s) && Can(s, a)
    ensures Complete(Do(s, a))
  {
    match a
    case PublishData(id, p) => PublishDataComplete(s, id, p); hide Honest, Complete, PublishDataDone, Can;
    case PublishManifest(id, createdAt) => PublishManifestComplete(s, id, createdAt); hide Honest, Complete, PublishManifestDone;
    case RecordChunk(id) => RecordComplete(s, id); hide Honest, Complete, JournalChunk;
    case ApplyStep(pick) => ApplyComplete(s, pick); hide Honest, Complete, ApplyDone;
    case Seal(step) => SealComplete(s, step); hide Honest, Complete, SealDone;
    case _ => OtherComplete(s, a); hide Honest, Complete, Do, Can;
  }

  lemma {:induction false} RunComplete(s: System, actions: seq<Action>)
    requires Honest(s) && Durable(s) && Complete(s) && Runs(s, actions)
    ensures var t := After(s, actions); Honest(t) && Durable(t) && Complete(t)
    decreases |actions|
  {
    hide Honest, Durable, Complete, Can, Do;
    if actions != [] {
      HonestStep(s, actions[0]);
      DurableStep(s, actions[0]);
      CompleteStep(s, actions[0]);
      RunComplete(Do(s, actions[0]), actions[1..]);
    }
  }

  lemma InitialComplete()
    ensures Honest(INITIAL) && Durable(INITIAL) && Complete(INITIAL)
  {
    InitialHonest();
    InitialDurable();
  }

  /**
   A sealed day lists every chunk whose manifest had reached `ready` when the seal began, whichever
   of the three inventories ACKs had moved it to, if and only if the day's journal file existed then
   or there was no such chunk.
   */
  lemma SealListsExactly(actions: seq<Action>, day: int)
    requires Runs(INITIAL, actions) && day in After(INITIAL, actions).edge.sealed
    ensures var s := After(INITIAL, actions);
            && day in s.seals && s.seals[day].must <= s.published.Keys
            && ((forall id | id in s.seals[day].must && id in s.published :: Lists(s.edge.sealed[day], id, s.published[id])) <==>
                s.seals[day].hadJournal || s.seals[day].must == {})
  {
    InitialComplete();
    RunComplete(INITIAL, actions);
    hide Runs, After, Honest, Durable, Lists, Inventoried, SealerOk, OwnedBack;
  }

  /** Without a journal there is nothing to list exactly when no manifest of the day is in `ready` or acked. */
  lemma NothingToSeal(s: System, day: int)
    requires Honest(s) && Complete(s)
    requires day !in s.edge.sealed && day !in s.edge.dayJournal
    ensures DescribedOn(s, day) == {} <==> ReadyOf(s.edge, day) == {} && AckedOf(s.edge, day) == {}
  {
    hide EdgeOk, SealerOk, SealsOk, SeenOk;
    if stem :| stem in ReadyOf(s.edge, day) {
      var id := s.owner[KeyOf(stem)];
      assert KeyOf(s.published[id].path.stem) == KeyOf(stem);
      assert id in DescribedOn(s, day);
    }
    if key :| key in AckedOf(s.edge, day) {
      var id := s.owner[key];
      assert KeyOf(s.published[id].path.stem) == key;
      assert id in DescribedOn(s, day);
    }
    if id :| id in DescribedOn(s, day) {
      assert !InJournal(s.edge.dayJournal, id, s.published[id]);
      var stem := s.published[id].path.stem;
      if stem in s.edge.manifests {
        assert stem in ReadyOf(s.edge, day);
      } else {
        assert KeyOf(stem) in AckedOf(s.edge, day);
      }
    }
  }

  predicate LeadsTo(s: System, actions: seq<Action>, end: System) {
    Runs(s, actions) && After(s, actions) == end
  }

  lemma Nowhere(s: System)
    ensures LeadsTo(s, [], s)
  {
  }

  lemma OneMore(s: System, a: Action, rest: seq<Action>, end: System)
    requires Can(s, a) && LeadsTo(Do(s, a), rest, end)
    ensures LeadsTo(s, [a] + rest, end)
  {
    hide Can, Do;
    assert ([a] + rest)[1..] == rest;
  }

  /** The only chunk of a day, a crash between its manifest and its journal line, then a seal. */
  function MissedRun(id: string, p: Publication): seq<Action> {
    [PublishData(id, p)] + ([PublishManifest(id, 0)] + ([CrashEdge] + ([Seal(Begin(DayOf(p)))] + ([Seal(Advance)] + []))))
  }

  function MissedEnd(id: string, p: Publication): System {
    var day := DayOf(p);
    var s := PublishManifestDone(PublishDataDone(INITIAL, id, p), id, p, 0);
    s.(edge := s.edge.(sealed := map[day := map[]]), sealer := CleaningJournal(day),
       seals := map[day := SealRecord({id}, false)])
  }

  /** Such a chunk is not listed: the day is sealed empty. */
  lemma UnjournaledChunkIsMissed(id: string, p: Publication)
    ensures LeadsTo(INITIAL, MissedRun(id, p), MissedEnd(id, p))
    ensures var s := MissedEnd(id, p); var day := DayOf(p);
            id in s.published && s.edge.sealed[day] == map[] && s.seals[day].must == {id} && !Lists(s.edge.sealed[day], id, p)
  {
    var day := DayOf(p);
    var s1 := PublishDataDone(INITIAL, id, p);
    var s2 := PublishManifestDone(s1, id, p, 0);
    var s3 := s2.(sealer := Writing(day, map[], false, {id}));
    var s4 := MissedEnd(id, p);
    assert DescribedOn(s2, day) == {id};
    hide DescribedOn, KeyOf, ManifestOf;
    assert SealDone(s2, Begin(day)) == s3;
    assert SealDone(s3, Advance) == s4;
    assert s2.(applier := Idle, sealer := Resting) == s2;
    hide SealDone, PublishDataDone, PublishManifestDone, MissedEnd;
    assert LeadsTo(s4, [], s4);
    OneMore(s3, Seal(Advance), [], s4);
    OneMore(s2, Seal(Begin(day)), [Seal(Advance)] + [], s4);
    hide LeadsTo;
    OneMore(s2, CrashEdge, [Seal(Begin(day))] + ([Seal(Advance)] + []), s4);
    OneMore(s1, PublishManifest(id, 0), [CrashEdge] + ([Seal(Begin(day))] + ([Seal(Advance)] + [])), s4);
    OneMore(INITIAL, PublishData(id, p),
            [PublishManifest(id, 0)] + ([CrashEdge] + ([Seal(Begin(day))] + ([Seal(Advance)] + []))), s4);
  }

  /**
   End to end: when the central side has published the day from the edge's own seal, it holds every
   chunk whose manifest had reached `ready` before that seal, under the chunk's path and with its content.
   */
  lemma PublishedDayIsHeld(actions: seq<Action>, day: int, id: string)
    requires Runs(INITIAL, actions)
    requires var s := After(INITIAL, actions);
             && day in s.edge.sealed && day in s.central.days && day in s.seals && s.seals[day].hadJournal
             && (forall chunk | chunk in s.edge.sealed[day].Values :: chunk in s.central.days[day])
             && id in s.seals[day].must && id in s.published
    ensures var s := After(INITIAL, actions);
            var p := s.published[id];
            p.path in s.central.raw && s.central.raw[p.path] == p.content
  {
    InitialComplete();
    RunComplete(INITIAL, actions);
    var s := After(INITIAL, actions);
    hide Runs, After, Honest, Inventoried, SealerOk, OwnedBack, EdgeHeld, NothingLost, PullerOk, AcksHeld;
    var p := s.published[id];
    assert Lists(s.edge.sealed[day], id, p);
    var chunk := RefOf(id, p);
    assert s.edge.sealed[day][(id, Sha(p.content))] == chunk;
    assert chunk in s.edge.sealed[day].Values;
    assert AllHeld(s.central.raw, s.central.days[day]);
    assert Verifies(s.central.raw[p.path], chunk);
  }
}
