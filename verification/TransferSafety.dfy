/** No chunk is ever lost, and nothing leaves the edge without a trace. */
module TransferSafety {
  import opened Base
  import opened Spool
  import opened AckApply
  import opened Transfer
  import opened TransferHonest

  type Raw = map<DataPath, Bytes>

  /** Some raw file on the central side has this digest. */
  ghost predicate Held(raw: Raw, sha: Digest) {
    exists path :: path in raw && Sha(raw[path]) == sha
  }

  ghost predicate AcksHeld(acks: map<string, File<Ack>>, raw: Raw) {
    forall name | name in acks && acks[name].Good? :: Held(raw, acks[name].value.sha)
  }

  ghost predicate TransactionsHeld(applying: map<string, File<Transaction>>, raw: Raw) {
    forall name | name in applying && applying[name].Good? :: Held(raw, applying[name].value.ack.sha)
  }

  ghost predicate ApplierHeld(p: Applier, raw: Raw) {
    (p.Moving? || p.Dropping?) ==> Held(raw, p.transaction.ack.sha)
  }

  ghost predicate NothingLost(published: History, data: map<DataPath, Bytes>, raw: Raw) {
    forall id | id in published :: published[id].path in data || Held(raw, Sha(published[id].content))
  }

  /** The puller acknowledges only what lies verified in the raw store. */
  ghost predicate PullerOk(p: Puller, raw: Raw) {
    match p
    case Waiting => true
    case Checked(m, content) => m.chunk.path !in raw && Verifies(content, m.chunk)
    case Stored(m) => m.chunk.path in raw && Verifies(raw[m.chunk.path], m.chunk)
    case Recorded(m) => m.chunk.path in raw && Verifies(raw[m.chunk.path], m.chunk)
  }

  ghost predicate DaysHeld(days: map<int, seq<ChunkRef>>, raw: Raw) {
    forall day | day in days :: AllHeld(raw, days[day])
  }

  ghost predicate CentralOk(c: Central) {
    PullerOk(c.puller, c.raw) && AcksHeld(c.staged, c.raw) && DaysHeld(c.days, c.raw)
  }

  ghost predicate EdgeHeld(e: Edge, p: Applier, raw: Raw) {
    AcksHeld(e.acks, raw) && TransactionsHeld(e.applying, raw) && ApplierHeld(p, raw)
  }

  ghost predicate Durable(s: System) {
    && CentralOk(s.central) && EdgeHeld(s.edge, s.applier, s.central.raw)
    && NothingLost(s.published, s.edge.data, s.central.raw)
  }

  // ---------------------------------------------------------------- the central side only gains

  ghost predicate Gains(raw: Raw, more: Raw) {
    forall path | path in raw :: path in more && more[path] == raw[path]
  }

  lemma HeldLonger(raw: Raw, more: Raw, sha: Digest)
    requires Gains(raw, more) && Held(raw, sha)
    ensures Held(more, sha)
  {
    var path :| path in raw && Sha(raw[path]) == sha;
    assert path in more;
  }

  lemma AcksHeldLonger(acks: map<string, File<Ack>>, raw: Raw, more: Raw)
    requires Gains(raw, more) && AcksHeld(acks, raw)
    ensures AcksHeld(acks, more)
  {
    forall name | name in acks && acks[name].Good?
      ensures Held(more, acks[name].value.sha)
    {
      HeldLonger(raw, more, acks[name].value.sha);
    }
  }

  lemma EdgeHeldLonger(e: Edge, p: Applier, raw: Raw, more: Raw)
    requires Gains(raw, more) && EdgeHeld(e, p, raw)
    ensures EdgeHeld(e, p, more)
  {
    AcksHeldLonger(e.acks, raw, more);
    forall name | name in e.applying && e.applying[name].Good?
      ensures Held(more, e.applying[name].value.ack.sha)
    {
      HeldLonger(raw, more, e.applying[name].value.ack.sha);
    }
    if p.Moving? || p.Dropping? {
      HeldLonger(raw, more, p.transaction.ack.sha);
    }
  }

  lemma LostNever(published: History, data: map<DataPath, Bytes>, raw: Raw, more: Raw)
    requires Gains(raw, more) && NothingLost(published, data, raw)
    ensures NothingLost(published, data, more)
  {
    forall id | id in published && published[id].path !in data
      ensures Held(more, Sha(published[id].content))
    {
      HeldLonger(raw, more, Sha(published[id].content));
    }
  }

  lemma DaysHeldLonger(days: map<int, seq<ChunkRef>>, raw: Raw, more: Raw)
    requires Gains(raw, more) && DaysHeld(days, raw)
    ensures DaysHeld(days, more)
  {
  }

  lemma CentralGains(c: Central, a: CentralAction)
    requires CentralOk(c) && CanAtCentral(c, a)
    ensures Gains(c.raw, DoAtCentral(c, a).raw)
  {
    hide AcksHeld, DaysHeld, AllHeld, Verifies, FetchChunk;
  }

  lemma PlaceOk(c: Central)
    requires CentralOk(c) && c.puller.Checked?
    ensures CentralOk(DoAtCentral(c, Place))
  {
    var m := c.puller.manifest;
    var more := c.raw[m.chunk.path := c.puller.content];
    assert Gains(c.raw, more);
    AcksHeldLonger(c.staged, c.raw, more);
    DaysHeldLonger(c.days, c.raw, more);
    hide AcksHeld, DaysHeld, Gains;
  }

  lemma StageOk(c: Central, at: int)
    requires CentralOk(c) && c.puller.Recorded?
    ensures CentralOk(DoAtCentral(c, StageAck(at)))
  {
    var chunk := c.puller.manifest.chunk;
    assert Held(c.raw, chunk.sha) by {
      assert chunk.path in c.raw && Sha(c.raw[chunk.path]) == chunk.sha;
    }
    hide Held, DaysHeld;
  }

  lemma CentralStep(c: Central, a: CentralAction)
    requires CentralOk(c) && CanAtCentral(c, a)
    ensures CentralOk(DoAtCentral(c, a))
  {
    hide Held, AllHeld;
    match a
    case Place => PlaceOk(c);
    case StageAck(at) => StageOk(c, at);
    case _ =>
  }

  lemma AtCentralDurable(s: System, a: CentralAction)
    requires Durable(s) && CanAtCentral(s.central, a)
    ensures Durable(s.(central := DoAtCentral(s.central, a)))
  {
    var c := DoAtCentral(s.central, a);
    hide DoAtCentral, CentralOk, CanAtCentral;
    CentralGains(s.central, a);
    CentralStep(s.central, a);
    EdgeHeldLonger(s.edge, s.applier, s.central.raw, c.raw);
    LostNever(s.published, s.edge.data, s.central.raw, c.raw);
    hide EdgeHeld, NothingLost;
  }

  // ---------------------------------------------------------------- the edge deletes only what is held

  lemma AcceptedAck(known: map<string, Manifest>, applying: map<string, File<Transaction>>, name: string, file: File<Ack>)
    ensures var v := Judge(known, applying, name, file); v.Accept? ==> file == Good(v.ack)
  {
  }

  lemma FewerAcks(acks: map<string, File<Ack>>, name: string, raw: Raw)
    requires AcksHeld(acks, raw)
    ensures AcksHeld(acks - {name}, raw)
  {
    hide Held;
  }

  lemma FewerTransactions(applying: map<string, File<Transaction>>, name: string, raw: Raw)
    requires TransactionsHeld(applying, raw)
    ensures TransactionsHeld(applying - {name}, raw)
  {
    hide Held;
  }

  lemma OneMoreTransaction(applying: map<string, File<Transaction>>, name: string, t: Transaction, raw: Raw)
    requires TransactionsHeld(applying, raw) && Held(raw, t.ack.sha)
    ensures TransactionsHeld(applying[name := Good(t)], raw)
  {
    hide Held;
  }

  lemma RejectedHeld(e: Edge, p: Applier, name: string, reason: Reason, raw: Raw)
    requires AcksHeld(e.acks, raw) && TransactionsHeld(e.applying, raw) && p.Accepting?
    ensures EdgeHeld(RejectAck(e, name, reason), p, raw)
  {
    FewerAcks(e.acks, name, raw);
    hide AcksHeld, TransactionsHeld;
  }

  lemma RecordedHeld(e: Edge, p: Applier, name: string, t: Transaction, raw: Raw)
    requires AcksHeld(e.acks, raw) && TransactionsHeld(e.applying, raw) && p.Unlinking? && Held(raw, t.ack.sha)
    ensures EdgeHeld(RecordAck(e, name, t), p, raw) && EdgeHeld(e, p, raw)
  {
    OneMoreTransaction(e.applying, name, t, raw);
    hide AcksHeld, TransactionsHeld, Held;
  }

  lemma AckHeld(acks: map<string, File<Ack>>, name: string, ack: Ack, raw: Raw)
    requires AcksHeld(acks, raw) && name in acks && acks[name] == Good(ack)
    ensures Held(raw, ack.sha)
  {
    hide Held;
  }

  lemma AcceptHeld(e: Edge, known: map<string, Manifest>, todo: set<string>, transactions: set<string>, name: string, raw: Raw)
    requires name in e.acks && AcksHeld(e.acks, raw) && TransactionsHeld(e.applying, raw)
    ensures var next := AcceptOne(e, known, todo, transactions, name); EdgeHeld(next.edge, next.applier, raw)
  {
    hide Judge, Held, AcksHeld, TransactionsHeld, EdgeHeld, RejectAck, RecordAck;
    AcceptedAck(known, e.applying, name, e.acks[name]);
    match Judge(known, e.applying, name, e.acks[name])
    case Reject(reason) =>
      RejectedHeld(e, Accepting(known, todo - {name}, transactions), name, reason, raw);
    case Accept(ack, manifest) =>
      AckHeld(e.acks, name, ack, raw);
      RecordedHeld(e, Unlinking(known, todo, transactions, name), name, Transaction(ack, manifest), raw);
  }

  lemma CollectHeld(e: Edge, todo: set<string>, done: map<string, Transaction>, name: string, raw: Raw)
    requires name in e.applying && AcksHeld(e.acks, raw) && TransactionsHeld(e.applying, raw)
    ensures var next := CollectOne(e, todo, done, name); EdgeHeld(next.edge, next.applier, raw)
  {
    FewerTransactions(e.applying, name, raw);
    if Collectable(e.applying[name]) {
      assert Held(raw, e.applying[name].value.ack.sha) by {
        hide Held;
      }
    }
    hide Held, AcksHeld, TransactionsHeld;
  }

  lemma WalkHeld(e: Edge, p: Applier, pick: string, raw: Raw)
    requires EdgeHeld(e, p, raw)
    requires p.Accepting? ==> p.todo == {} || pick !in p.todo || pick !in e.acks
    requires p.Collecting? ==> p.todo == {} || pick !in p.todo || pick !in e.applying
    ensures var next := Step(e, p, pick); EdgeHeld(next.edge, next.applier, raw)
  {
    hide Held, AcceptOne, CollectOne, Known, Placed, Records, TransactionsHeld, AcksHeld;
    match p
    case Unlinking(known, todo, transactions, name) => FewerAcks(e.acks, name, raw);
    case Clearing(names) => FewerTransactions(e.applying, pick, raw);
    case Moving(todo, done, name, t, sealedSeen) => MoveLeaves(e, t, sealedSeen);
    case _ =>
  }

  lemma MoveLeaves(e: Edge, t: Transaction, sealedSeen: bool)
    ensures var after := MoveManifest(e, t, sealedSeen);
            after.acks == e.acks && after.applying == e.applying && after.data == e.data
  {
    hide StemOf;
  }

  lemma StepHeld(e: Edge, p: Applier, pick: string, raw: Raw)
    requires EdgeHeld(e, p, raw)
    ensures var next := Step(e, p, pick); EdgeHeld(next.edge, next.applier, raw)
  {
    hide AcksHeld, TransactionsHeld, AcceptOne, CollectOne;
    if p.Accepting? && p.todo != {} && pick in p.todo && pick in e.acks {
      AcceptHeld(e, p.known, p.todo, p.transactions, pick, raw);
      assert Step(e, p, pick) == AcceptOne(e, p.known, p.todo, p.transactions, pick);
      hide EdgeHeld;
    } else if p.Collecting? && p.todo != {} && pick in p.todo && pick in e.applying {
      CollectHeld(e, p.todo, p.done, pick, raw);
      assert Step(e, p, pick) == CollectOne(e, p.todo, p.done, pick);
      hide EdgeHeld;
    } else {
      hide EdgeHeld, Step;
      WalkHeld(e, p, pick, raw);
    }
  }

  /** Neither a data file nor a manifest nor a sealed day has changed. */
  predicate SameStore(e: Edge, after: Edge) {
    && after.data == e.data && after.manifests == e.manifests && after.acked == e.acked
    && after.sealed == e.sealed && after.dayJournal == e.dayJournal
  }

  lemma RejectAckStore(e: Edge, name: string, reason: Reason)
    ensures SameStore(e, RejectAck(e, name, reason))
  {
  }

  lemma RecordAckStore(e: Edge, name: string, t: Transaction)
    ensures SameStore(e, RecordAck(e, name, t))
  {
  }

  lemma RemoveAckStore(e: Edge, name: string)
    ensures SameStore(e, RemoveAck(e, name))
  {
  }

  lemma TransactionFilesOnly(e: Edge, name: string, reason: Reason, done: map<string, Transaction>)
    ensures SameStore(e, RejectTransaction(e, name, reason)) && SameStore(e, RemoveTransaction(e, name))
    ensures SameStore(e, LogGc(e, done))
  {
    hide Records;
  }

  lemma AcceptStore(e: Edge, known: map<string, Manifest>, todo: set<string>, transactions: set<string>, name: string)
    requires name in e.acks
    ensures SameStore(e, AcceptOne(e, known, todo, transactions, name).edge)
  {
    assert SameStore(e, e);
    hide Judge, RejectAck, RecordAck, RemoveAck, SameStore;
    match Judge(known, e.applying, name, e.acks[name])
    case Reject(reason) => RejectAckStore(e, name, reason);
    case Accept(ack, manifest) => RecordAckStore(e, name, Transaction(ack, manifest));
  }

  lemma CollectStore(e: Edge, todo: set<string>, done: map<string, Transaction>, name: string)
    requires name in e.applying
    ensures SameStore(e, CollectOne(e, todo, done, name).edge)
  {
    assert SameStore(e, e);
    TransactionFilesOnly(e, name, RefusalOf(e.applying[name]), done);
    hide RejectTransaction, RemoveTransaction, LogGc, SameStore, RefusalOf;
  }

  /** Apart from the two steps that carry out a transaction, the applier touches ACKs and transactions only. */
  lemma StepStore(e: Edge, p: Applier, pick: string)
    requires !p.Moving? && !p.Dropping?
    ensures SameStore(e, Step(e, p, pick).edge)
  {
    assert SameStore(e, e);
    hide AcceptOne, CollectOne, Start, RemoveAck, RemoveTransaction, LogGc, SameStore;
    match p
    case Accepting(known, todo, transactions) =>
      if pick in e.acks {
        AcceptStore(e, known, todo, transactions, pick);
      }
    case Unlinking(known, todo, transactions, name) => RemoveAckStore(e, name);
    case Collecting(todo, done) =>
      if pick in e.applying {
        CollectStore(e, todo, done, pick);
      }
    case Logging(done) => TransactionFilesOnly(e, pick, INVALID, done);
    case Clearing(names) => TransactionFilesOnly(e, pick, INVALID, map[]);
    case _ =>
  }

  /** Only dropping a data file changes which chunks the edge has. */
  lemma StepData(e: Edge, p: Applier, pick: string)
    ensures Step(e, p, pick).edge.data ==
              if p.Dropping? then e.data - {p.transaction.manifest.chunk.path} else e.data
  {
    if p.Moving? {
      MoveLeaves(e, p.transaction, p.sealedSeen);
      hide MoveManifest;
    } else if !p.Dropping? {
      StepStore(e, p, pick);
      hide Step;
    }
  }

  /** The dropped file belongs to the chunk its genuine manifest names, whose content is held. */
  lemma DropLosesNothing(s: System)
    requires Honest(s) && Durable(s) && s.applier.Dropping?
    ensures NothingLost(s.published, s.edge.data - {s.applier.transaction.manifest.chunk.path}, s.central.raw)
  {
    var t := s.applier.transaction;
    var path := t.manifest.chunk.path;
    assert Genuine(t, s.applier.name, s.published);
    hide CentralOk, DataOk, ManifestsOk, AckedOk, TransactionsOk, JournalOk, FilesOwned, Held;
    forall id | id in s.published && s.published[id].path == path
      ensures Held(s.central.raw, Sha(s.published[id].content))
    {
      assert s.owner[KeyOf(path.stem)] == id;
      assert id == t.manifest.chunk.chunkId;
    }
  }

  lemma ApplyDurable(s: System, pick: string)
    requires Honest(s) && Durable(s)
    ensures Durable(ApplyDone(s, pick))
  {
    StepHeld(s.edge, s.applier, pick, s.central.raw);
    StepData(s.edge, s.applier, pick);
    if s.applier.Dropping? {
      DropLosesNothing(s);
    }
    hide Step, EdgeHeld, CentralOk, NothingLost, Honest;
  }

  lemma PublishDurable(s: System, id: string, p: Publication)
    requires Honest(s) && Durable(s) && Can(s, PublishData(id, p))
    ensures Durable(PublishDataDone(s, id, p))
  {
    hide CentralOk, AcksHeld, TransactionsHeld, ApplierHeld, EdgeOk, FilesOwned, Held, KeyOf;
  }

  /** A seal touches the seals, the day journals and the acked manifests only. */
  predicate SealLeaves(e: Edge, after: Edge) {
    && after.data == e.data && after.acks == e.acks && after.applying == e.applying
    && after.rejected == e.rejected && after.gcLog == e.gcLog && after.manifests == e.manifests
  }

  lemma AdvanceFrame(e: Edge, p: Sealer)
    ensures SealLeaves(e, AdvanceSeal(e, p).edge)
  {
    hide AckedOf;
  }

  lemma SealFrame(e: Edge, p: Sealer, step: SealAction, must: set<string>)
    requires CanSeal(e, p, step)
    ensures SealLeaves(e, DoSeal(e, p, step, must).edge)
  {
    AdvanceFrame(e, p);
    hide BeginSeal, AdvanceSeal, Noted;
  }

  lemma OtherDurable(s: System, a: Action)
    requires Durable(s) && Can(s, a) && !a.PublishData? && !a.ApplyStep? && !a.AtCentral?
    ensures Durable(Do(s, a))
  {
    if a.Seal? {
      var must := if a.step.Begin? then DescribedOn(s, a.step.day) else {};
      SealFrame(s.edge, s.sealer, a.step, must);
      hide DoSeal, CanSeal, CentralOk, NothingLost, DescribedOn;
    } else {
      hide CentralOk, NothingLost, SealDone, CanSeal, Held;
      if a.PushAck? {
        PushedHeld(s, a.name);
      }
    }
  }

  lemma PushedHeld(s: System, name: string)
    requires CentralOk(s.central) && AcksHeld(s.edge.acks, s.central.raw) && name in s.central.staged
    ensures AcksHeld(s.edge.acks[name := s.central.staged[name]], s.central.raw)
  {
    hide Held;
  }

  lemma DurableStep(s: System, a: Action)
    requires Honest(s) && Durable(s) && Can(s, a)
    ensures Durable(Do(s, a))
  {
    match a
    case PublishData(id, p) => PublishDurable(s, id, p); hide Honest, Durable, Can, PublishDataDone;
    case ApplyStep(pick) => ApplyDurable(s, pick); hide Honest, Durable, ApplyDone;
    case AtCentral(act) => AtCentralDurable(s, act); hide Honest, Durable, DoAtCentral;
    case _ => OtherDurable(s, a); hide Honest, Durable, Do, Can;
  }

  lemma {:induction false} RunDurable(s: System, actions: seq<Action>)
    requires Honest(s) && Durable(s) && Runs(s, actions)
    ensures Honest(After(s, actions)) && Durable(After(s, actions))
    decreases |actions|
  {
    hide Honest, Durable, Can, Do;
    if actions != [] {
      HonestStep(s, actions[0]);
      DurableStep(s, actions[0]);
      RunDurable(Do(s, actions[0]), actions[1..]);
    }
  }

  lemma InitialDurable()
    ensures Durable(INITIAL)
  {
  }

  /**
   Every chunk ever finished is still in the edge's `ready`, with its content, or the central raw
   store holds a file with exactly that content: in every state any run can reach, whatever the
   mirror delivered and wherever either machine crashed.
   */
  lemma NoChunkIsLost(actions: seq<Action>, id: string)
    requires Runs(INITIAL, actions)
    requires id in After(INITIAL, actions).published
    ensures var s := After(INITIAL, actions);
            var p := s.published[id];
            || (p.path in s.edge.data && s.edge.data[p.path] == p.content)
            || (exists path :: path in s.central.raw && s.central.raw[path] == p.content)
  {
    InitialHonest();
    InitialDurable();
    RunDurable(INITIAL, actions);
    var s := After(INITIAL, actions);
    hide EdgeHeld, CentralOk, OwnerOk, FilesOwned, ManifestsOk, AckedOk, TransactionsOk, ApplierOk, JournalOk, Runs, After;
    var p := s.published[id];
    if p.path !in s.edge.data {
      assert Held(s.central.raw, Sha(p.content));
    }
  }

  /** An ACK, waiting anywhere, vouches for a raw file with its digest; a published day lists only held chunks. */
  lemma AcksAndDaysVouch(actions: seq<Action>, name: string, day: int, chunk: ChunkRef)
    requires Runs(INITIAL, actions)
    ensures var s := After(INITIAL, actions);
            && (name in s.edge.acks && s.edge.acks[name].Good? ==> Held(s.central.raw, s.edge.acks[name].value.sha))
            && (name in s.central.staged && s.central.staged[name].Good? ==> Held(s.central.raw, s.central.staged[name].value.sha))
            && (day in s.central.days && chunk in s.central.days[day] ==>
                 chunk.path in s.central.raw && Verifies(s.central.raw[chunk.path], chunk))
  {
    InitialHonest();
    InitialDurable();
    RunDurable(INITIAL, actions);
    hide Runs, After, Honest, Held;
  }
}
