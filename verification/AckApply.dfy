/**
 `SpoolManager.apply_acks` one file operation at a time. A run may stop after any of them; what a
 complete run would reach from there never changes, so a rerun always ends where the run was going.
 */
module AckApply {
  import opened Base
  import opened Spool

  datatype Verdict = Accept(ack: Ack, manifest: Manifest) | Reject(reason: Reason)

  /** The checks made on one ACK file against the scanned manifests and an existing transaction. */
  function Judge(known: map<string, Manifest>, applying: map<string, File<Transaction>>, name: string, file: File<Ack>): Verdict {
    match file
    case Damaged => Reject(INVALID)
    case Good(ack) =>
      if name != ack.chunkId then Reject(INVALID_NAME)
      else if ack.chunkId !in known then Reject(UNKNOWN)
      else
        var manifest := known[ack.chunkId];
        if ack.sha != manifest.chunk.sha then Reject(HASH_MISMATCH)
        else if name in applying && !Confirms(applying[name], ack, manifest) then Reject(TRANSACTION_CONFLICT)
        else Accept(ack, manifest)
  }

  predicate Confirms(file: File<Transaction>, ack: Ack, manifest: Manifest) {
    && file.Good? && file.value.manifest == manifest
    && file.value.ack.chunkId == ack.chunkId && file.value.ack.sha == ack.sha
  }

  /** Where a run stands. `Accepting` walks the ACK files, `Collecting` the transactions. */
  datatype Applier =
    | Idle
    | Accepting(known: map<string, Manifest>, todo: set<string>, transactions: set<string>)
    | Unlinking(known: map<string, Manifest>, todo: set<string>, transactions: set<string>, name: string)
    | Collecting(todo: set<string>, done: map<string, Transaction>)
    | Moving(todo: set<string>, done: map<string, Transaction>, name: string, transaction: Transaction, sealedSeen: bool)
    | Dropping(todo: set<string>, done: map<string, Transaction>, name: string, transaction: Transaction)
    | Logging(done: map<string, Transaction>)
    | Clearing(names: set<string>)

  datatype Point = Point(edge: Edge, applier: Applier)

  function Start(e: Edge): Applier {
    if e.acks == map[] && e.applying == map[] then Idle
    else Accepting(Known(Placed(e.manifests)), e.acks.Keys, e.applying.Keys)
  }

  function StemOf(t: Transaction): Stem {
    t.manifest.chunk.path.stem
  }

  predicate Collectable(file: File<Transaction>) {
    file.Good? && file.value.ack.sha == file.value.manifest.chunk.sha
  }

  function Record(t: Transaction): GcRecord {
    GcRecord(t.manifest.chunk.chunkId, t.ack.durableAt)
  }

  // The file operations.

  function RejectAck(e: Edge, name: string, reason: Reason): Edge {
    e.(acks := e.acks - {name}, rejected := e.rejected + multiset{Rejection(name, reason)})
  }

  function RecordAck(e: Edge, name: string, t: Transaction): Edge {
    e.(applying := e.applying[name := Good(t)])
  }

  function RemoveAck(e: Edge, name: string): Edge {
    e.(acks := e.acks - {name})
  }

  function RejectTransaction(e: Edge, name: string, reason: Reason): Edge {
    e.(applying := e.applying - {name}, rejected := e.rejected + multiset{Rejection(name, reason)})
  }

  /** The manifest of a sealed day is deleted, any other is kept among the acked manifests. */
  function MoveManifest(e: Edge, t: Transaction, sealedSeen: bool): Edge {
    var stem := StemOf(t);
    if stem !in e.manifests then e
    else if sealedSeen then e.(manifests := e.manifests - {stem})
    else e.(manifests := e.manifests - {stem}, acked := e.acked[AckedKey(t.manifest.day, stem.name) := e.manifests[stem]])
  }

  function DropData(e: Edge, t: Transaction): Edge {
    e.(data := e.data - {t.manifest.chunk.path})
  }

  function LogGc(e: Edge, done: map<string, Transaction>): Edge {
    e.(gcLog := e.gcLog + Records(done))
  }

  function RemoveTransaction(e: Edge, name: string): Edge {
    e.(applying := e.applying - {name})
  }

  function AcceptOne(e: Edge, known: map<string, Manifest>, todo: set<string>, transactions: set<string>, name: string): Point
    requires name in e.acks
  {
    match Judge(known, e.applying, name, e.acks[name])
    case Reject(reason) =>
      Point(RejectAck(e, name, reason), Accepting(known, todo - {name}, transactions))
    case Accept(ack, manifest) =>
      Point(if name in e.applying then e else RecordAck(e, name, Transaction(ack, manifest)),
            Unlinking(known, todo, transactions, name))
  }

  function RefusalOf(file: File<Transaction>): Reason {
    if file.Damaged? then INVALID_TRANSACTION else TRANSACTION_HASH_MISMATCH
  }

  function CollectOne(e: Edge, todo: set<string>, done: map<string, Transaction>, name: string): Point
    requires name in e.applying
  {
    if Collectable(e.applying[name]) then
      var t := e.applying[name].value;
      Point(e, Moving(todo - {name}, done, name, t, t.manifest.day in e.sealed))
    else
      Point(RejectTransaction(e, name, RefusalOf(e.applying[name])), Collecting(todo - {name}, done))
  }

  function Records(done: map<string, Transaction>): set<GcRecord> {
    set name | name in done :: Record(done[name])
  }

  /**
   One file operation (or one read) of the run; `pick` chooses the next file of a listing, so a run
   over every order of files is a run here. A pick that is not on the list does nothing.
   */
  function Step(e: Edge, p: Applier, pick: string): Point {
    match p
    case Idle => Point(e, Start(e))
    case Accepting(known, todo, transactions) =>
      if todo == {} then Point(e, Collecting(transactions, map[]))
      else if pick !in todo || pick !in e.acks then Point(e, p)
      else AcceptOne(e, known, todo, transactions, pick)
    case Unlinking(known, todo, transactions, name) =>
      Point(RemoveAck(e, name), Accepting(known - {name}, todo - {name}, transactions + {name}))
    case Collecting(todo, done) =>
      if todo == {} then Point(e, Logging(done))
      else if pick !in todo || pick !in e.applying then Point(e, p)
      else CollectOne(e, todo, done, pick)
    case Moving(todo, done, name, t, sealedSeen) =>
      Point(MoveManifest(e, t, sealedSeen), Dropping(todo, done, name, t))
    case Dropping(todo, done, name, t) =>
      Point(DropData(e, t), Collecting(todo, done[name := t]))
    case Logging(done) =>
      Point(LogGc(e, done), Clearing(done.Keys))
    case Clearing(names) =>
      if names == {} then Point(e, Idle)
      else if pick !in names then Point(e, p)
      else Point(RemoveTransaction(e, pick), Clearing(names - {pick}))
  }

  /** The point reached from `p` by the picks, one step each. */
  function Steps(e: Edge, p: Applier, picks: seq<string>): Point
    decreases |picks|
  {
    if picks == [] then Point(e, p)
    else
      var next := Step(e, p, picks[0]);
      Steps(next.edge, next.applier, picks[1..])
  }

  // ---------------------------------------------------------------- what a complete run reaches

  function VerdictOn(e: Edge, name: string): Verdict
    requires name in e.acks
  {
    Judge(Known(Placed(e.manifests)), e.applying, name, e.acks[name])
  }

  /** Every ACK judged against the manifests and transactions there were at the start. */
  function AfterAcks(e: Edge): Edge {
    e.(acks := map[], applying := e.applying + Accepted(e), rejected := e.rejected + multiset(Refused(e)))
  }

  function Accepted(e: Edge): map<string, File<Transaction>> {
    map name | name in e.acks && name !in e.applying && VerdictOn(e, name).Accept? ::
      Good(Transaction(VerdictOn(e, name).ack, VerdictOn(e, name).manifest))
  }

  function Refused(e: Edge): (refused: set<Rejection>)
    ensures forall x :: x in refused <==> x.name in e.acks && VerdictOn(e, x.name) == Reject(x.reason)
  {
    set name | name in e.acks && VerdictOn(e, name).Reject? :: Rejection(name, VerdictOn(e, name).reason)
  }

  function Collectables(applying: map<string, File<Transaction>>): map<string, Transaction> {
    map name | name in applying && Collectable(applying[name]) :: applying[name].value
  }

  function Uncollectable(applying: map<string, File<Transaction>>): (refused: set<Rejection>)
    ensures forall x :: x in refused <==>
              x.name in applying && !Collectable(applying[x.name]) && x.reason == RefusalOf(applying[x.name])
  {
    set name | name in applying && !Collectable(applying[name]) :: Rejection(name, RefusalOf(applying[name]))
  }

  function Paths(done: map<string, Transaction>): set<DataPath> {
    set name | name in done :: done[name].manifest.chunk.path
  }

  function Stems(done: map<string, Transaction>): set<Stem> {
    set name | name in done :: StemOf(done[name])
  }

  /** The files the spool is judged by after a run. */
  datatype Outcome = Outcome(
    data: map<DataPath, Bytes>, manifests: map<Stem, File<Manifest>>, acks: map<string, File<Ack>>,
    applying: map<string, File<Transaction>>, rejected: multiset<Rejection>, gcLog: set<GcRecord>)

  function OutcomeOf(e: Edge): Outcome {
    Outcome(e.data, e.manifests, e.acks, e.applying, e.rejected, e.gcLog)
  }

  /** Every transaction with equal hashes is carried out and logged, every other one is put aside. */
  function AfterCollection(e: Edge): Outcome {
    var done := Collectables(e.applying);
    Outcome(e.data - Paths(done), e.manifests - Stems(done), e.acks, map[],
            e.rejected + multiset(Uncollectable(e.applying)), e.gcLog + Records(done))
  }

  /** The end of a complete run of `apply_acks`. */
  function Applied(e: Edge): Outcome {
    AfterCollection(AfterAcks(e))
  }

  // ---------------------------------------------------------------- no step changes where the run ends

  /** The run's dict still answers for the ACKs it has to judge. */
  ghost predicate Current(e: Edge, known: map<string, Manifest>, todo: set<string>) {
    var scan := Known(Placed(e.manifests));
    forall name | name in todo :: (name in known <==> name in scan) && (name in known ==> known[name] == scan[name])
  }

  /** The files of the transactions in `done` are gone, the transactions are not. */
  ghost predicate Gone(e: Edge, done: map<string, Transaction>) {
    forall name | name in done ::
      && name in e.applying && e.applying[name] == Good(done[name]) && Collectable(e.applying[name])
      && done[name].manifest.chunk.path !in e.data && StemOf(done[name]) !in e.manifests
  }

  /** The edge's files and the run's variables fit together. */
  ghost predicate Fits(e: Edge, p: Applier) {
    match p
    case Idle => true
    case Accepting(known, todo, transactions) =>
      todo == e.acks.Keys && transactions == e.applying.Keys && Current(e, known, todo)
    case Unlinking(known, todo, transactions, name) =>
      && todo == e.acks.Keys && name in todo && name in e.applying && transactions + {name} == e.applying.Keys
      && Current(e, known, todo) && VerdictOn(e, name).Accept?
    case Collecting(todo, done) =>
      e.acks == map[] && todo + done.Keys == e.applying.Keys && todo !! done.Keys && Gone(e, done)
    case Moving(todo, done, name, t, sealedSeen) =>
      && e.acks == map[] && todo + done.Keys + {name} == e.applying.Keys && name !in todo && todo !! done.Keys
      && Gone(e, done) && e.applying[name] == Good(t) && Collectable(e.applying[name])
      && sealedSeen == (t.manifest.day in e.sealed)
    case Dropping(todo, done, name, t) =>
      && e.acks == map[] && todo + done.Keys + {name} == e.applying.Keys && name !in todo && todo !! done.Keys
      && Gone(e, done) && e.applying[name] == Good(t) && Collectable(e.applying[name]) && StemOf(t) !in e.manifests
    case Logging(done) =>
      e.acks == map[] && done.Keys == e.applying.Keys && Gone(e, done)
    case Clearing(names) =>
      && e.acks == map[] && names == e.applying.Keys && Collectables(e.applying).Keys == names
      && Gone(e, Collectables(e.applying)) && Records(Collectables(e.applying)) <= e.gcLog
  }

  lemma StartFits(e: Edge)
    ensures Fits(e, Start(e))
  {
  }

  lemma JudgeCurrent(e: Edge, known: map<string, Manifest>, todo: set<string>, name: string)
    requires Current(e, known, todo) && name in todo && name in e.acks
    ensures Judge(known, e.applying, name, e.acks[name]) == VerdictOn(e, name)
  {
    hide Known, Placed;
  }

  lemma TakeOut<T>(s: set<T>, x: T)
    requires x in s
    ensures multiset(s) == multiset(s - {x}) + multiset{x}
  {
    assert s == (s - {x}) + {x};
  }

  lemma SameVerdicts(e: Edge, after: Edge)
    requires after.manifests == e.manifests && after.applying == e.applying && after.acks.Keys <= e.acks.Keys
    requires forall n | n in after.acks :: after.acks[n] == e.acks[n]
    ensures forall n | n in after.acks :: VerdictOn(after, n) == VerdictOn(e, n)
  {
    hide Known, Placed, Judge;
  }

  lemma AcceptedWithout(e: Edge, after: Edge, name: string)
    requires name in e.acks && after.acks == e.acks - {name} && after.applying == e.applying
    requires VerdictOn(e, name).Reject? || name in e.applying
    requires forall n | n in after.acks :: VerdictOn(after, n) == VerdictOn(e, n)
    ensures Accepted(after) == Accepted(e)
  {
    hide VerdictOn;
  }

  lemma RefusedWithout(e: Edge, after: Edge, name: string)
    requires name in e.acks && after.acks == e.acks - {name}
    requires forall n | n in after.acks :: VerdictOn(after, n) == VerdictOn(e, n)
    ensures VerdictOn(e, name).Accept? ==> Refused(after) == Refused(e)
    ensures VerdictOn(e, name).Reject? ==>
              multiset(Refused(e)) == multiset(Refused(after)) + multiset{Rejection(name, VerdictOn(e, name).reason)}
  {
    hide VerdictOn, Refused;
    if VerdictOn(e, name).Reject? {
      var x := Rejection(name, VerdictOn(e, name).reason);
      assert Refused(after) == Refused(e) - {x};
      TakeOut(Refused(e), x);
    }
  }

  lemma RejectKeeps(e: Edge, name: string)
    requires name in e.acks && VerdictOn(e, name).Reject?
    ensures AfterAcks(RejectAck(e, name, VerdictOn(e, name).reason)) == AfterAcks(e)
  {
    var after := RejectAck(e, name, VerdictOn(e, name).reason);
    SameVerdicts(e, after);
    AcceptedWithout(e, after, name);
    RefusedWithout(e, after, name);
    hide VerdictOn, Refused, Accepted;
  }

  /** Writing the transaction of one ACK changes no verdict, not even that ACK's own. */
  lemma VerdictAfterRecord(e: Edge, name: string, n: string)
    requires name in e.acks && VerdictOn(e, name).Accept? && name !in e.applying && n in e.acks
    ensures VerdictOn(RecordAck(e, name, Transaction(VerdictOn(e, name).ack, VerdictOn(e, name).manifest)), n) == VerdictOn(e, n)
  {
    hide Known, Placed;
  }

  lemma AcceptedAfterRecord(e: Edge, after: Edge, name: string, t: Transaction)
    requires name in e.acks && name !in e.applying && after == RecordAck(e, name, t)
    requires VerdictOn(e, name).Accept? && t == Transaction(VerdictOn(e, name).ack, VerdictOn(e, name).manifest)
    requires forall n | n in e.acks :: VerdictOn(after, n) == VerdictOn(e, n)
    ensures after.applying + Accepted(after) == e.applying + Accepted(e)
  {
    hide VerdictOn;
    assert Accepted(after) == Accepted(e) - {name};
    assert Accepted(e)[name] == Good(t);
  }

  lemma RefusedAfterRecord(e: Edge, after: Edge)
    requires after.acks == e.acks
    requires forall n | n in e.acks :: VerdictOn(after, n) == VerdictOn(e, n)
    ensures Refused(after) == Refused(e)
  {
    hide VerdictOn, Refused;
  }

  lemma RecordKeeps(e: Edge, name: string, t: Transaction)
    requires name in e.acks && name !in e.applying
    requires VerdictOn(e, name).Accept? && t == Transaction(VerdictOn(e, name).ack, VerdictOn(e, name).manifest)
    ensures AfterAcks(RecordAck(e, name, t)) == AfterAcks(e) && VerdictOn(RecordAck(e, name, t), name).Accept?
  {
    var after := RecordAck(e, name, t);
    forall n | n in e.acks
      ensures VerdictOn(after, n) == VerdictOn(e, n)
    {
      VerdictAfterRecord(e, name, n);
    }
    AcceptedAfterRecord(e, after, name, t);
    RefusedAfterRecord(e, after);
    hide VerdictOn, Refused, Accepted;
  }

  lemma RemoveKeeps(e: Edge, name: string)
    requires name in e.acks && VerdictOn(e, name).Accept? && name in e.applying
    ensures AfterAcks(RemoveAck(e, name)) == AfterAcks(e)
  {
    var after := RemoveAck(e, name);
    SameVerdicts(e, after);
    AcceptedWithout(e, after, name);
    RefusedWithout(e, after, name);
    hide VerdictOn, Refused, Accepted;
  }

  lemma NoAcks(e: Edge)
    requires e.acks == map[]
    ensures AfterAcks(e) == e
  {
    assert Accepted(e) == map[];
    assert Refused(e) == {};
    assert e.applying + map[] == e.applying;
    assert e.rejected + multiset{} == e.rejected;
  }

  // Collection: what each operation does to the sets the outcome is made of.

  lemma CollectablesWithout(applying: map<string, File<Transaction>>, name: string)
    ensures Collectables(applying - {name}) == Collectables(applying) - {name}
    ensures name in applying && !Collectable(applying[name]) ==> Collectables(applying - {name}) == Collectables(applying)
  {
  }

  lemma UncollectableWithout(applying: map<string, File<Transaction>>, name: string)
    requires name in applying
    ensures Collectable(applying[name]) ==> Uncollectable(applying - {name}) == Uncollectable(applying)
    ensures !Collectable(applying[name]) ==>
              multiset(Uncollectable(applying)) ==
                multiset(Uncollectable(applying - {name})) + multiset{Rejection(name, RefusalOf(applying[name]))}
  {
    hide Collectable, Uncollectable, RefusalOf;
    if !Collectable(applying[name]) {
      var x := Rejection(name, RefusalOf(applying[name]));
      assert Uncollectable(applying - {name}) == Uncollectable(applying) - {x};
      TakeOut(Uncollectable(applying), x);
    }
  }

  lemma RefuseKeeps(e: Edge, name: string)
    requires name in e.applying && !Collectable(e.applying[name])
    ensures var after := RejectTransaction(e, name, RefusalOf(e.applying[name]));
            Collectables(after.applying) == Collectables(e.applying) && AfterCollection(after) == AfterCollection(e)
  {
    CollectablesWithout(e.applying, name);
    UncollectableWithout(e.applying, name);
    hide Collectables, Uncollectable, Collectable, RefusalOf, Paths, Stems, Records;
  }

  lemma MoveStems(e: Edge, name: string, t: Transaction, sealedSeen: bool)
    requires name in e.applying && e.applying[name] == Good(t) && Collectable(e.applying[name])
    ensures MoveManifest(e, t, sealedSeen).manifests - Stems(Collectables(e.applying)) == e.manifests - Stems(Collectables(e.applying))
  {
    assert Collectables(e.applying)[name] == t;
    assert StemOf(t) in Stems(Collectables(e.applying));
  }

  lemma MoveKeeps(e: Edge, name: string, t: Transaction)
    requires name in e.applying && e.applying[name] == Good(t) && Collectable(e.applying[name])
    ensures AfterCollection(MoveManifest(e, t, t.manifest.day in e.sealed)) == AfterCollection(e)
  {
    var done := Collectables(e.applying);
    assert done[name] == t;
    MoveStems(e, name, t, t.manifest.day in e.sealed);
    hide Collectables, Collectable, Uncollectable, Stems, Paths, Records;
  }

  lemma DropKeeps(e: Edge, name: string, t: Transaction)
    requires name in e.applying && e.applying[name] == Good(t) && Collectable(e.applying[name])
    ensures AfterCollection(DropData(e, t)) == AfterCollection(e)
  {
    var done := Collectables(e.applying);
    assert done[name] == t;
    assert t.manifest.chunk.path in Paths(done);
    hide Collectables, Collectable, Uncollectable, Stems, Paths, Records;
    assert (e.data - {t.manifest.chunk.path}) - Paths(done) == e.data - Paths(done);
  }

  lemma LogKeeps(e: Edge)
    ensures AfterCollection(LogGc(e, Collectables(e.applying))) == AfterCollection(e)
  {
    hide Collectables, Uncollectable, Stems, Paths, Records;
    var r := Records(Collectables(e.applying));
    assert (e.gcLog + r) + r == e.gcLog + r;
  }

  lemma GonePaths(e: Edge, done: map<string, Transaction>)
    requires Gone(e, done)
    ensures e.data - Paths(done) == e.data
  {
  }

  lemma GoneStems(e: Edge, done: map<string, Transaction>)
    requires Gone(e, done)
    ensures e.manifests - Stems(done) == e.manifests
  {
  }

  lemma FewerRecords(done: map<string, Transaction>, name: string)
    ensures Records(done - {name}) <= Records(done)
  {
  }

  lemma ClearKeeps(e: Edge, name: string)
    requires name in e.applying && Collectable(e.applying[name])
    requires Gone(e, Collectables(e.applying)) && Records(Collectables(e.applying)) <= e.gcLog
    ensures AfterCollection(RemoveTransaction(e, name)) == AfterCollection(e)
  {
    var after := RemoveTransaction(e, name);
    var done, rest := Collectables(e.applying), Collectables(after.applying);
    CollectablesWithout(e.applying, name);
    UncollectableWithout(e.applying, name);
    FewerRecords(done, name);
    ClearedGone(e, name);
    GonePaths(e, done);
    GonePaths(after, rest);
    GoneStems(e, done);
    GoneStems(after, rest);
    hide Gone, Collectables, Uncollectable, Paths, Stems, Records;
    assert e.gcLog + Records(rest) == e.gcLog;
    assert e.gcLog + Records(done) == e.gcLog;
  }

  lemma ClearedGone(e: Edge, name: string)
    requires Gone(e, Collectables(e.applying))
    ensures var after := RemoveTransaction(e, name);
            Gone(after, Collectables(after.applying))
  {
    CollectablesWithout(e.applying, name);
    hide Collectables;
  }

  // ---------------------------------------------------------------- the steps, one phase at a time

  lemma AcceptStep(e: Edge, p: Applier, pick: string)
    requires p.Accepting? && Fits(e, p)
    ensures var next := Step(e, p, pick); Fits(next.edge, next.applier) && Applied(next.edge) == Applied(e)
  {
    hide Known, Placed, Applied;
    if p.todo == {} {
      assert e.acks == map[];
    } else if pick in p.todo {
      JudgeCurrent(e, p.known, p.todo, pick);
      AcceptOneFits(e, p, pick);
      AcceptOneKeeps(e, p, pick);
    }
  }

  lemma AcceptOneFits(e: Edge, p: Applier, pick: string)
    requires p.Accepting? && Fits(e, p) && pick in p.todo
    requires Judge(p.known, e.applying, pick, e.acks[pick]) == VerdictOn(e, pick)
    ensures var next := AcceptOne(e, p.known, p.todo, p.transactions, pick); Fits(next.edge, next.applier)
  {
    hide Known, Placed, Judge, VerdictOn;
    var v := VerdictOn(e, pick);
    if v.Accept? {
      var t := Transaction(v.ack, v.manifest);
      if pick !in e.applying {
        RecordKeeps(e, pick, t);
        hide AfterAcks;
        assert Current(RecordAck(e, pick, t), p.known, p.todo);
      }
    } else {
      assert Current(RejectAck(e, pick, v.reason), p.known, p.todo - {pick});
    }
  }

  lemma AcceptOneKeeps(e: Edge, p: Applier, pick: string)
    requires p.Accepting? && Fits(e, p) && pick in p.todo
    requires Judge(p.known, e.applying, pick, e.acks[pick]) == VerdictOn(e, pick)
    ensures Applied(AcceptOne(e, p.known, p.todo, p.transactions, pick).edge) == Applied(e)
  {
    var v := VerdictOn(e, pick);
    if v.Reject? {
      RejectKeeps(e, pick);
    } else if pick !in e.applying {
      RecordKeeps(e, pick, Transaction(v.ack, v.manifest));
    }
    hide VerdictOn, Judge, AfterAcks, AfterCollection;
  }

  lemma UnlinkStep(e: Edge, p: Applier, pick: string)
    requires p.Unlinking? && Fits(e, p)
    ensures var next := Step(e, p, pick); Fits(next.edge, next.applier) && Applied(next.edge) == Applied(e)
  {
    RemoveKeeps(e, p.name);
    hide VerdictOn, Known, Placed, AfterAcks, AfterCollection;
  }

  lemma CollectStep(e: Edge, p: Applier, pick: string)
    requires p.Collecting? && Fits(e, p)
    ensures var next := Step(e, p, pick); Fits(next.edge, next.applier) && Applied(next.edge) == Applied(e)
  {
    if pick in p.todo {
      CollectOneFits(e, p, pick);
      CollectOneKeeps(e, p, pick);
    }
    hide Applied, CollectOne, Gone;
  }

  lemma CollectOneFits(e: Edge, p: Applier, pick: string)
    requires p.Collecting? && Fits(e, p) && pick in p.todo
    ensures var next := CollectOne(e, p.todo, p.done, pick); Fits(next.edge, next.applier)
  {
    hide RefusalOf;
  }

  lemma CollectOneKeeps(e: Edge, p: Applier, pick: string)
    requires pick in e.applying && p.Collecting? && e.acks == map[]
    ensures Applied(CollectOne(e, p.todo, p.done, pick).edge) == Applied(e)
  {
    if !Collectable(e.applying[pick]) {
      RefuseKeeps(e, pick);
      NoAcks(e);
      NoAcks(RejectTransaction(e, pick, RefusalOf(e.applying[pick])));
    }
    hide AfterAcks, AfterCollection, RefusalOf;
  }

  lemma MoveStep(e: Edge, p: Applier, pick: string)
    requires p.Moving? && Fits(e, p)
    ensures var next := Step(e, p, pick); Fits(next.edge, next.applier) && Applied(next.edge) == Applied(e)
  {
    MoveKeeps(e, p.name, p.transaction);
    NoAcks(e);
    NoAcks(Step(e, p, pick).edge);
    hide AfterAcks, AfterCollection;
  }

  lemma DropStep(e: Edge, p: Applier, pick: string)
    requires p.Dropping? && Fits(e, p)
    ensures var next := Step(e, p, pick); Fits(next.edge, next.applier) && Applied(next.edge) == Applied(e)
  {
    DropKeeps(e, p.name, p.transaction);
    DropGone(e, p);
    NoAcks(e);
    NoAcks(DropData(e, p.transaction));
    hide AfterAcks, AfterCollection, Gone, Collectable;
  }

  lemma DropGone(e: Edge, p: Applier)
    requires p.Dropping? && Fits(e, p)
    ensures Gone(DropData(e, p.transaction), p.done[p.name := p.transaction])
  {
  }

  lemma AllDone(e: Edge, done: map<string, Transaction>)
    requires done.Keys == e.applying.Keys && Gone(e, done)
    ensures Collectables(e.applying) == done
  {
  }

  lemma LogStep(e: Edge, p: Applier, pick: string)
    requires p.Logging? && Fits(e, p)
    ensures var next := Step(e, p, pick); Fits(next.edge, next.applier) && Applied(next.edge) == Applied(e)
  {
    AllDone(e, p.done);
    LogKeeps(e);
    NoAcks(e);
    NoAcks(Step(e, p, pick).edge);
    hide AfterAcks, AfterCollection, Collectables, Records;
  }

  lemma ClearStep(e: Edge, p: Applier, pick: string)
    requires p.Clearing? && Fits(e, p)
    ensures var next := Step(e, p, pick); Fits(next.edge, next.applier) && Applied(next.edge) == Applied(e)
  {
    if pick in p.names {
      var after := RemoveTransaction(e, pick);
      assert pick in Collectables(e.applying);
      ClearKeeps(e, pick);
      NoAcks(e);
      NoAcks(after);
      ClearedGone(e, pick);
      CollectablesWithout(e.applying, pick);
      FewerRecords(Collectables(e.applying), pick);
      hide AfterAcks, AfterCollection, Collectables, Records, Gone, Collectable;
      assert Fits(after, Clearing(p.names - {pick}));
    }
    hide AfterAcks, AfterCollection, Collectables, Records, Gone, Fits;
  }

  /** No single step changes what a complete run would reach, nor breaks the fit. */
  lemma StepKeeps(e: Edge, p: Applier, pick: string)
    requires Fits(e, p)
    ensures var next := Step(e, p, pick); Fits(next.edge, next.applier) && Applied(next.edge) == Applied(e)
  {
    hide Applied, Fits, Step;
    match p
    case Idle => IdleStep(e, pick);
    case Accepting(_, _, _) => AcceptStep(e, p, pick);
    case Unlinking(_, _, _, _) => UnlinkStep(e, p, pick);
    case Collecting(_, _) => CollectStep(e, p, pick);
    case Moving(_, _, _, _, _) => MoveStep(e, p, pick);
    case Dropping(_, _, _, _) => DropStep(e, p, pick);
    case Logging(_) => LogStep(e, p, pick);
    case Clearing(_) => ClearStep(e, p, pick);
  }

  lemma IdleStep(e: Edge, pick: string)
    ensures Step(e, Idle, pick) == Point(e, Start(e)) && Fits(e, Start(e))
  {
    StartFits(e);
  }

  lemma EmptyCollection(e: Edge)
    requires e.applying == map[]
    ensures AfterCollection(e) == OutcomeOf(e)
  {
    NothingCollectable();
    hide Collectables, Uncollectable, Paths, Stems, Records;
    assert e.data - {} == e.data;
    assert e.manifests - {} == e.manifests;
  }

  lemma NothingCollectable()
    ensures Collectables(map[]) == map[] && Uncollectable(map[]) == {}
    ensures Paths(map[]) == {} && Stems(map[]) == {} && Records(map[]) == {}
  {
  }

  /** A run that has come to its end has reached the outcome. */
  lemma IdleIsEnd(e: Edge, p: Applier, pick: string)
    requires Fits(e, p) && Step(e, p, pick).applier.Idle?
    ensures OutcomeOf(Step(e, p, pick).edge) == Applied(e)
  {
    IdleHasNothing(e, p, pick);
    NoAcks(e);
    EmptyCollection(e);
    hide AfterAcks, AfterCollection, Fits, Step;
  }

  lemma IdleHasNothing(e: Edge, p: Applier, pick: string)
    requires Fits(e, p) && Step(e, p, pick).applier.Idle?
    ensures e.acks == map[] && e.applying == map[] && Step(e, p, pick).edge == e
  {
    hide Gone, Current, Collectables, Records, Known, Placed, Judge, Collectable;
    match p
    case Idle =>
    case Clearing(names) =>
      assert e.applying.Keys == {};
    case _ =>
  }

  /** A run cut off anywhere leaves the outcome still to be reached; one that ended has reached it. */
  lemma {:induction false} RunKeeps(e: Edge, p: Applier, picks: seq<string>)
    requires Fits(e, p)
    ensures Fits(Steps(e, p, picks).edge, Steps(e, p, picks).applier)
    ensures Applied(Steps(e, p, picks).edge) == Applied(e)
    ensures picks != [] && Steps(e, p, picks).applier.Idle? ==> OutcomeOf(Steps(e, p, picks).edge) == Applied(e)
    decreases |picks|
  {
    hide Applied, Fits, Step, OutcomeOf;
    if picks != [] {
      var next := Step(e, p, picks[0]);
      StepKeeps(e, p, picks[0]);
      RunKeeps(next.edge, next.applier, picks[1..]);
      if next.applier.Idle? {
        IdleIsEnd(e, p, picks[0]);
      }
    }
  }

  /** The files after several runs, each cut off by a crash after its last pick. */
  function Crashed(e: Edge, runs: seq<seq<string>>): Edge
    decreases |runs|
  {
    if runs == [] then e else Crashed(Steps(e, Idle, runs[0]).edge, runs[1..])
  }

  /**
   However often `apply_acks` is interrupted and started again, in whatever order it visits the files,
   a run that ends leaves exactly what one uninterrupted run would have left.
   */
  lemma {:induction false} CrashedRunsConverge(e: Edge, runs: seq<seq<string>>, last: seq<string>)
    requires last != [] && Steps(Crashed(e, runs), Idle, last).applier.Idle?
    ensures OutcomeOf(Steps(Crashed(e, runs), Idle, last).edge) == Applied(e)
    decreases |runs|
  {
    hide Applied, Step, Steps, OutcomeOf;
    if runs == [] {
      RunKeeps(e, Idle, last);
    } else {
      RunKeeps(e, Idle, runs[0]);
      CrashedRunsConverge(Steps(e, Idle, runs[0]).edge, runs[1..], last);
    }
  }

  /** The transaction of an accepted ACK: the one already on disk, or the one it is about to make. */
  function TransactionOf(e: Edge, name: string): Transaction
    requires name in e.acks && VerdictOn(e, name).Accept?
  {
    if name in e.applying && e.applying[name].Good? then e.applying[name].value
    else Transaction(VerdictOn(e, name).ack, VerdictOn(e, name).manifest)
  }

  lemma TransactionAgrees(e: Edge, name: string)
    requires name in e.acks && VerdictOn(e, name).Accept?
    ensures var v, t := VerdictOn(e, name), TransactionOf(e, name);
            && v.ack.chunkId == name && t.manifest == v.manifest && t.manifest.chunk.chunkId == name
            && t.ack.sha == t.manifest.chunk.sha && AfterAcks(e).applying[name] == Good(t)
  {
    hide Placed, Refused, Sole;
  }

  /**
   An accepted ACK, its transaction begun before or not, removes its chunk, manifest and itself, and
   leaves a REMOTE_GC record with the durable time of the transaction.
   */
  lemma AcceptedAckCollects(e: Edge, name: string)
    requires name in e.acks && VerdictOn(e, name).Accept?
    ensures var v := VerdictOn(e, name); var end := Applied(e);
            && v.manifest.chunk.path !in end.data && v.manifest.chunk.path.stem !in end.manifests
            && end.acks == map[] && end.applying == map[]
            && GcRecord(name, TransactionOf(e, name).ack.durableAt) in end.gcLog
  {
    var t := TransactionOf(e, name);
    var applying := AfterAcks(e).applying;
    TransactionAgrees(e, name);
    hide VerdictOn, TransactionOf;
    assert Collectables(applying)[name] == t;
    hide Collectables, Accepted;
    assert Record(t) in Records(Collectables(applying));
  }

  /** A data file leaves only by a transaction on disk, or by an ACK with the hash of its ready manifest. */
  lemma OnlyAcknowledgedLeave(e: Edge, path: DataPath)
    requires path in e.data && path !in Applied(e).data
    ensures exists name, t: Transaction ::
              && t.manifest.chunk.path == path && t.ack.sha == t.manifest.chunk.sha
              && ((name in e.applying && e.applying[name] == Good(t)) ||
                  (name in e.acks && e.acks[name] == Good(t.ack) && name == t.ack.chunkId && Sole(Placed(e.manifests), t.manifest)))
  {
    var applying := AfterAcks(e).applying;
    assert path in Paths(Collectables(applying));
    var name :| name in Collectables(applying) && Collectables(applying)[name].manifest.chunk.path == path;
    var t := Collectables(applying)[name];
    assert applying[name] == Good(t) && Collectable(applying[name]);
    if name !in e.applying || e.applying[name] != Good(t) {
      AcceptedIsBacked(e, name, t);
    }
  }

  lemma AcceptedIsBacked(e: Edge, name: string, t: Transaction)
    requires name in Accepted(e) && Accepted(e)[name] == Good(t)
    ensures name in e.acks && e.acks[name] == Good(t.ack) && name == t.ack.chunkId && Sole(Placed(e.manifests), t.manifest)
  {
    hide Placed, Sole, Known;
    assert VerdictOn(e, name) == Accept(t.ack, t.manifest);
  }
}
