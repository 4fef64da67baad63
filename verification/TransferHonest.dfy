/** What the edge's control files may say: they only ever name published chunks, with their true hashes. */
module TransferHonest {
  import opened Base
  import opened Spool
  import opened AckApply
  import opened Transfer

  type History = map<string, Publication>

  ghost predicate IsOf(m: Manifest, published: History) {
    && m.chunk.chunkId in published
    && m.chunk == RefOf(m.chunk.chunkId, published[m.chunk.chunkId])
    && m.day == DayOf(published[m.chunk.chunkId])
  }

  ghost predicate Genuine(t: Transaction, name: string, published: History) {
    IsOf(t.manifest, published) && t.manifest.chunk.chunkId == name && t.ack.sha == t.manifest.chunk.sha
  }

  ghost predicate OwnerOk(published: History, owner: map<AckedKey, string>) {
    forall id | id in published :: KeyOf(published[id].path.stem) in owner && owner[KeyOf(published[id].path.stem)] == id
  }

  ghost predicate DataOk(data: map<DataPath, Bytes>, published: History) {
    forall id | id in published :: published[id].path in data ==> data[published[id].path] == published[id].content
  }

  ghost predicate ManifestsOk(manifests: map<Stem, File<Manifest>>, published: History) {
    forall stem | stem in manifests && manifests[stem].Good? ::
      IsOf(manifests[stem].value, published) && manifests[stem].value.chunk.path.stem == stem
  }

  ghost predicate AckedOk(acked: map<AckedKey, File<Manifest>>, published: History) {
    forall key | key in acked && acked[key].Good? ::
      IsOf(acked[key].value, published) && KeyOf(acked[key].value.chunk.path.stem) == key
  }

  /** Every manifest file, readable or not, is the file of a chunk whose manifest reached `ready`. */
  ghost predicate FilesOwned(manifests: set<Stem>, acked: set<AckedKey>, owner: map<AckedKey, string>, described: set<string>) {
    && (forall stem | stem in manifests :: KeyOf(stem) in owner && owner[KeyOf(stem)] in described)
    && (forall key | key in acked :: key in owner && owner[key] in described)
  }

  ghost predicate TransactionsOk(applying: map<string, File<Transaction>>, published: History) {
    forall name | name in applying && applying[name].Good? :: Genuine(applying[name].value, name, published)
  }

  ghost predicate KnownOk(known: map<string, Manifest>, published: History) {
    forall id | id in known :: IsOf(known[id], published) && known[id].chunk.chunkId == id
  }

  ghost predicate DoneOk(done: map<string, Transaction>, published: History) {
    forall name | name in done :: Genuine(done[name], name, published)
  }

  ghost predicate ApplierOk(p: Applier, published: History) {
    match p
    case Accepting(known, _, _) => KnownOk(known, published)
    case Unlinking(known, _, _, _) => KnownOk(known, published)
    case Collecting(_, done) => DoneOk(done, published)
    case Moving(_, done, name, t, _) => DoneOk(done, published) && Genuine(t, name, published)
    case Dropping(_, done, name, t) => DoneOk(done, published) && Genuine(t, name, published)
    case Logging(done) => DoneOk(done, published)
    case _ => true
  }

  ghost predicate JournalOk(journal: map<int, seq<ChunkRef>>, published: History) {
    forall day, chunk | day in journal && chunk in journal[day] ::
      chunk.chunkId in published && chunk == RefOf(chunk.chunkId, published[chunk.chunkId])
  }

  /** Everything the edge has written, on disk or in the variables of `apply_acks`. */
  ghost predicate EdgeOk(e: Edge, p: Applier, published: History) {
    && DataOk(e.data, published)
    && ManifestsOk(e.manifests, published) && AckedOk(e.acked, published)
    && TransactionsOk(e.applying, published) && ApplierOk(p, published)
    && JournalOk(e.dayJournal, published)
  }

  ghost predicate Honest(s: System) {
    && OwnerOk(s.published, s.owner) && s.described <= s.published.Keys
    && FilesOwned(s.edge.manifests.Keys, s.edge.acked.Keys, s.owner, s.described)
    && EdgeOk(s.edge, s.applier, s.published)
  }

  // ---------------------------------------------------------------- publishing

  lemma OwnerGrows(published: History, owner: map<AckedKey, string>, id: string, p: Publication)
    requires OwnerOk(published, owner)
    requires if id in published then published[id] == p else KeyOf(p.path.stem) !in owner
    ensures OwnerOk(published[id := p], owner[KeyOf(p.path.stem) := id])
  {
  }

  lemma DataGrows(data: map<DataPath, Bytes>, published: History, owner: map<AckedKey, string>, id: string, p: Publication)
    requires OwnerOk(published, owner) && DataOk(data, published)
    requires if id in published then published[id] == p else KeyOf(p.path.stem) !in owner
    ensures DataOk(data[p.path := p.content], published[id := p])
  {
  }

  /** History only grows, so what was honest stays so. */
  lemma HistoryGrows(e: Edge, applier: Applier, published: History, id: string, p: Publication)
    requires id in published ==> published[id] == p
    requires ManifestsOk(e.manifests, published) && AckedOk(e.acked, published)
    requires TransactionsOk(e.applying, published) && ApplierOk(applier, published) && JournalOk(e.dayJournal, published)
    ensures var more := published[id := p];
            && ManifestsOk(e.manifests, more) && AckedOk(e.acked, more)
            && TransactionsOk(e.applying, more) && ApplierOk(applier, more) && JournalOk(e.dayJournal, more)
  {
    var more := published[id := p];
    assert forall m :: IsOf(m, published) ==> IsOf(m, more);
    assert forall t, name :: Genuine(t, name, published) ==> Genuine(t, name, more);
    hide IsOf, Genuine;
    assert forall known :: KnownOk(known, published) ==> KnownOk(known, more);
    assert forall done :: DoneOk(done, published) ==> DoneOk(done, more);
  }

  lemma OwnersGrow(s: System, id: string, p: Publication)
    requires Honest(s) && Can(s, PublishData(id, p))
    ensures FilesOwned(s.edge.manifests.Keys, s.edge.acked.Keys, s.owner[KeyOf(p.path.stem) := id], s.described)
  {
    hide EdgeOk;
    if id in s.published {
      assert s.owner[KeyOf(p.path.stem)] == id;
    }
  }

  lemma PublishDataHonest(s: System, id: string, p: Publication)
    requires Honest(s) && Can(s, PublishData(id, p))
    ensures Honest(PublishDataDone(s, id, p))
  {
    OwnerGrows(s.published, s.owner, id, p);
    DataGrows(s.edge.data, s.published, s.owner, id, p);
    HistoryGrows(s.edge, s.applier, s.published, id, p);
    OwnersGrow(s, id, p);
    hide OwnerOk, DataOk, ManifestsOk, AckedOk, TransactionsOk, ApplierOk, JournalOk, FilesOwned;
  }

  lemma PublishManifestHonest(s: System, id: string, createdAt: int)
    requires Honest(s) && id in s.published
    ensures Honest(PublishManifestDone(s, id, s.published[id], createdAt))
  {
    hide DataOk, AckedOk, TransactionsOk, ApplierOk, JournalOk;
  }

  lemma JournalHonest(journal: map<int, seq<ChunkRef>>, published: History, id: string, day: int)
    requires JournalOk(journal, published) && id in published
    ensures var lines := if day in journal then journal[day] else [];
            JournalOk(journal[day := lines + [RefOf(id, published[id])]], published)
  {
  }

  // ---------------------------------------------------------------- applying ACKs

  lemma KnownIsHonest(manifests: map<Stem, File<Manifest>>, published: History)
    requires ManifestsOk(manifests, published)
    ensures KnownOk(Known(Placed(manifests)), published)
  {
    hide IsOf;
    var known := Known(Placed(manifests));
    forall id | id in known
      ensures IsOf(known[id], published)
    {
      assert known[id] in Placed(manifests);
    }
  }

  lemma AcceptHonest(e: Edge, published: History, known: map<string, Manifest>, todo: set<string>, transactions: set<string>, name: string)
    requires TransactionsOk(e.applying, published) && KnownOk(known, published) && name in e.acks
    ensures var next := AcceptOne(e, known, todo, transactions, name);
            TransactionsOk(next.edge.applying, published) && ApplierOk(next.applier, published)
  {
    hide IsOf, Known, Placed;
  }

  lemma UnlinkHonest(known: map<string, Manifest>, name: string, published: History)
    requires KnownOk(known, published)
    ensures KnownOk(known - {name}, published)
  {
    hide IsOf;
  }

  lemma CollectHonest(e: Edge, published: History, todo: set<string>, done: map<string, Transaction>, name: string)
    requires TransactionsOk(e.applying, published) && DoneOk(done, published) && name in e.applying
    ensures var next := CollectOne(e, todo, done, name);
            TransactionsOk(next.edge.applying, published) && ApplierOk(next.applier, published)
  {
    hide IsOf;
  }

  lemma MoveHonest(e: Edge, published: History, t: Transaction, name: string, seen: bool)
    requires ManifestsOk(e.manifests, published) && AckedOk(e.acked, published) && Genuine(t, name, published)
    ensures var after := MoveManifest(e, t, seen);
            ManifestsOk(after.manifests, published) && AckedOk(after.acked, published)
  {
    assert t.manifest.day == StemOf(t).day;
    var stem := StemOf(t);
    if stem in e.manifests && e.manifests[stem].Good? {
      assert KeyOf(e.manifests[stem].value.chunk.path.stem) == AckedKey(t.manifest.day, stem.name);
    }
    hide IsOf;
  }

  lemma MoveOwned(e: Edge, published: History, owner: map<AckedKey, string>, described: set<string>, t: Transaction, name: string, seen: bool)
    requires Genuine(t, name, published) && FilesOwned(e.manifests.Keys, e.acked.Keys, owner, described)
    ensures FilesOwned(MoveManifest(e, t, seen).manifests.Keys, MoveManifest(e, t, seen).acked.Keys, owner, described)
  {
    assert t.manifest.day == StemOf(t).day;
  }

  lemma DropHonest(data: map<DataPath, Bytes>, published: History, path: DataPath)
    requires DataOk(data, published)
    ensures DataOk(data - {path}, published)
  {
  }

  lemma NothingDone(published: History)
    ensures DoneOk(map[], published)
  {
  }

  lemma OneMoreDone(done: map<string, Transaction>, name: string, t: Transaction, published: History)
    requires DoneOk(done, published) && Genuine(t, name, published)
    ensures DoneOk(done[name := t], published)
  {
    hide Genuine;
  }

  lemma FewerGenuine(applying: map<string, File<Transaction>>, name: string, published: History)
    requires TransactionsOk(applying, published)
    ensures TransactionsOk(applying - {name}, published)
  {
    hide Genuine;
  }

  predicate SameRest(e: Edge, after: Edge) {
    && after.data == e.data && after.manifests == e.manifests && after.acked == e.acked && after.dayJournal == e.dayJournal
    && after.sealed == e.sealed
  }

  lemma AcceptOneFrame(e: Edge, known: map<string, Manifest>, todo: set<string>, transactions: set<string>, name: string)
    requires name in e.acks
    ensures SameRest(e, AcceptOne(e, known, todo, transactions, name).edge)
  {
    var v := Judge(known, e.applying, name, e.acks[name]);
    hide Judge, Known;
    match v
    case Reject(reason) =>
      assert AcceptOne(e, known, todo, transactions, name).edge == RejectAck(e, name, reason);
    case Accept(ack, manifest) =>
      assert SameRest(e, RecordAck(e, name, Transaction(ack, manifest)));
  }

  lemma AcceptPhaseOk(e: Edge, p: Applier, pick: string, published: History)
    requires EdgeOk(e, p, published) && p.Accepting? && p.todo != {} && pick in p.todo && pick in e.acks
    ensures var next := Step(e, p, pick); EdgeOk(next.edge, next.applier, published)
    ensures Step(e, p, pick).edge.manifests == e.manifests && Step(e, p, pick).edge.acked == e.acked
  {
    AcceptHonest(e, published, p.known, p.todo, p.transactions, pick);
    AcceptOneFrame(e, p.known, p.todo, p.transactions, pick);
    assert Step(e, p, pick) == AcceptOne(e, p.known, p.todo, p.transactions, pick);
    hide DataOk, ManifestsOk, AckedOk, TransactionsOk, JournalOk, ApplierOk, AcceptOne, Step;
  }

  lemma CollectPhaseOk(e: Edge, p: Applier, pick: string, published: History)
    requires EdgeOk(e, p, published) && p.Collecting? && p.todo != {} && pick in p.todo && pick in e.applying
    ensures var next := Step(e, p, pick); EdgeOk(next.edge, next.applier, published)
    ensures Step(e, p, pick).edge.manifests == e.manifests && Step(e, p, pick).edge.acked == e.acked
  {
    CollectHonest(e, published, p.todo, p.done, pick);
    hide DataOk, ManifestsOk, AckedOk, TransactionsOk, JournalOk, ApplierOk, Collectable, RefusalOf;
  }

  lemma MovePhaseOk(e: Edge, p: Applier, pick: string, published: History)
    requires EdgeOk(e, p, published) && p.Moving?
    ensures var next := Step(e, p, pick); EdgeOk(next.edge, next.applier, published)
  {
    hide DataOk, ManifestsOk, AckedOk, TransactionsOk, JournalOk, Genuine, DoneOk;
    MoveHonest(e, published, p.transaction, p.name, p.sealedSeen);
    var moved := MoveManifest(e, p.transaction, p.sealedSeen);
    assert moved.data == e.data && moved.applying == e.applying && moved.dayJournal == e.dayJournal;
    hide MoveManifest;
  }

  lemma EndPhaseOk(e: Edge, p: Applier, pick: string, published: History)
    requires EdgeOk(e, p, published) && (p.Dropping? || p.Clearing?)
    ensures var next := Step(e, p, pick); EdgeOk(next.edge, next.applier, published)
    ensures Step(e, p, pick).edge.manifests == e.manifests && Step(e, p, pick).edge.acked == e.acked
  {
    hide DataOk, ManifestsOk, AckedOk, TransactionsOk, JournalOk, Genuine, DoneOk;
    if p.Dropping? {
      DropHonest(e.data, published, p.transaction.manifest.chunk.path);
      OneMoreDone(p.done, p.name, p.transaction, published);
    } else {
      FewerGenuine(e.applying, pick, published);
    }
  }

  predicate OnlyWalks(p: Applier) {
    p.Idle? || p.Accepting? || p.Unlinking? || p.Collecting? || p.Logging?
  }

  lemma WalkPhaseOk(e: Edge, p: Applier, pick: string, published: History)
    requires EdgeOk(e, p, published) && OnlyWalks(p)
    requires p.Accepting? ==> p.todo == {} || pick !in p.todo || pick !in e.acks
    requires p.Collecting? ==> p.todo == {} || pick !in p.todo || pick !in e.applying
    ensures var next := Step(e, p, pick); EdgeOk(next.edge, next.applier, published)
    ensures Step(e, p, pick).edge.manifests == e.manifests && Step(e, p, pick).edge.acked == e.acked
  {
    hide DataOk, ManifestsOk, AckedOk, TransactionsOk, JournalOk, Genuine, DoneOk, KnownOk, AcceptOne, CollectOne, Known;
    NothingDone(published);
    match p
    case Idle => KnownIsHonest(e.manifests, published);
    case Unlinking(known, _, _, name) => UnlinkHonest(known, name, published);
    case _ =>
  }

  lemma StepOk(e: Edge, p: Applier, pick: string, published: History)
    requires EdgeOk(e, p, published)
    ensures var next := Step(e, p, pick); EdgeOk(next.edge, next.applier, published)
    ensures !p.Moving? ==> Step(e, p, pick).edge.manifests == e.manifests && Step(e, p, pick).edge.acked == e.acked
  {
    hide EdgeOk, Step;
    if p.Accepting? && p.todo != {} && pick in p.todo && pick in e.acks {
      AcceptPhaseOk(e, p, pick, published);
    } else if p.Collecting? && p.todo != {} && pick in p.todo && pick in e.applying {
      CollectPhaseOk(e, p, pick, published);
    } else if p.Moving? {
      MovePhaseOk(e, p, pick, published);
    } else if p.Dropping? || p.Clearing? {
      EndPhaseOk(e, p, pick, published);
    } else {
      WalkPhaseOk(e, p, pick, published);
    }
  }

  lemma MovingTransaction(e: Edge, p: Applier, published: History)
    requires EdgeOk(e, p, published) && p.Moving?
    ensures Genuine(p.transaction, p.name, published)
  {
  }

  lemma ApplyHonest(s: System, pick: string)
    requires Honest(s)
    ensures Honest(ApplyDone(s, pick))
  {
    StepOk(s.edge, s.applier, pick, s.published);
    if s.applier.Moving? {
      var t := s.applier.transaction;
      MovingTransaction(s.edge, s.applier, s.published);
      MoveOwned(s.edge, s.published, s.owner, s.described, t, s.applier.name, s.applier.sealedSeen);
      hide MoveManifest;
      assert Step(s.edge, s.applier, pick).edge == MoveManifest(s.edge, t, s.applier.sealedSeen);
    }
    hide EdgeOk, Step, FilesOwned, OwnerOk;
  }

  // ---------------------------------------------------------------- sealing and damage

  lemma CleanHonest(e: Edge, day: int, published: History, owner: map<AckedKey, string>, described: set<string>)
    requires AckedOk(e.acked, published) && FilesOwned(e.manifests.Keys, e.acked.Keys, owner, described)
    requires JournalOk(e.dayJournal, published)
    ensures var rest := e.acked - AckedOf(e, day);
            AckedOk(rest, published) && FilesOwned(e.manifests.Keys, rest.Keys, owner, described)
    ensures JournalOk(e.dayJournal - {day}, published)
  {
    hide IsOf;
  }

  lemma AdvanceHonest(s: System)
    requires Honest(s)
    ensures Honest(s.(edge := AdvanceSeal(s.edge, s.sealer).edge, sealer := AdvanceSeal(s.edge, s.sealer).sealer))
  {
    hide OwnerOk, DataOk, ManifestsOk, AckedOk, TransactionsOk, JournalOk, FilesOwned, ApplierOk;
    match s.sealer
    case CleaningJournal(day) => CleanHonest(s.edge, day, s.published, s.owner, s.described);
    case CleaningAcked(day) => CleanHonest(s.edge, day, s.published, s.owner, s.described);
    case _ =>
  }

  lemma SealHonest(s: System, step: SealAction)
    requires Honest(s) && CanSeal(s.edge, s.sealer, step)
    ensures Honest(SealDone(s, step))
  {
    if step.Advance? {
      AdvanceHonest(s);
    }
    hide AdvanceSeal, BeginSeal, Noted, EdgeOk, OwnerOk, FilesOwned, DescribedOn;
  }

  lemma DamagedManifests(manifests: map<Stem, File<Manifest>>, published: History, stem: Stem)
    requires ManifestsOk(manifests, published) && stem in manifests
    ensures ManifestsOk(manifests[stem := Damaged], published) && manifests[stem := Damaged].Keys == manifests.Keys
  {
    hide IsOf;
  }

  lemma DamagedTransactions(applying: map<string, File<Transaction>>, published: History, name: string)
    requires TransactionsOk(applying, published)
    ensures TransactionsOk(applying[name := Damaged], published)
  {
    hide Genuine;
  }

  lemma HonestStep(s: System, a: Action)
    requires Honest(s) && Can(s, a)
    ensures Honest(Do(s, a))
  {
    match a
    case PublishData(id, p) => PublishDataHonest(s, id, p); hide Honest, Can, PublishDataDone;
    case PublishManifest(id, createdAt) => PublishManifestHonest(s, id, createdAt); hide Honest, PublishManifestDone;
    case ApplyStep(pick) => ApplyHonest(s, pick); hide Honest, ApplyDone;
    case Seal(step) => SealHonest(s, step); hide Honest, SealDone;
    case _ => OtherHonest(s, a); hide Honest, Do, Can;
  }

  lemma OtherHonest(s: System, a: Action)
    requires Honest(s) && Can(s, a) && !a.PublishData? && !a.PublishManifest? && !a.ApplyStep? && !a.Seal?
    ensures Honest(Do(s, a))
  {
    hide OwnerOk, DataOk, ManifestsOk, AckedOk, TransactionsOk, JournalOk, FilesOwned, KnownOk, DoneOk, Genuine, DoAtCentral, CanAtCentral;
    match a
    case RecordChunk(id) => JournalHonest(s.edge.dayJournal, s.published, id, DayOf(s.published[id]));
    case DamageManifest(stem) => DamagedManifests(s.edge.manifests, s.published, stem);
    case DamageTransaction(name) => DamagedTransactions(s.edge.applying, s.published, name);
    case _ =>
  }

  lemma InitialHonest()
    ensures Honest(INITIAL)
  {
  }
}
