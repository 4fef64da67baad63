/**
 What `apply_acks` decides about each ACK, told from the files alone, what becomes of the files it
 decides about, and that a run comes to its end.
 */
module AckVerdicts {
  import opened Base
  import opened Spool
  import opened AckApply

  /** The manifest in `ready` that alone has this chunk id and lies where it says. */
  ghost predicate Ready(e: Edge, name: string, m: Manifest) {
    Sole(Placed(e.manifests), m) && m.chunk.chunkId == name
  }

  ghost predicate NameIs(file: File<Ack>, name: string) {
    file.Good? && file.value.chunkId == name
  }

  /** A transaction of this name that is damaged, or names another manifest, chunk or digest; its time does not matter. */
  ghost predicate Contradicted(e: Edge, name: string, ack: Ack, m: Manifest) {
    name in e.applying && forall at ::
      e.applying[name] != Good(Transaction(Ack(ack.chunkId, ack.sha, at), m))
  }

  lemma ContradictedExactly(e: Edge, name: string, ack: Ack, m: Manifest)
    ensures Contradicted(e, name, ack, m) <==> name in e.applying && !Confirms(e.applying[name], ack, m)
  {
    if name in e.applying && Confirms(e.applying[name], ack, m) {
      var t := e.applying[name].value;
      assert t == Transaction(Ack(ack.chunkId, ack.sha, t.ack.durableAt), m);
    }
  }

  lemma KnownIsReady(e: Edge, name: string)
    ensures var known := Known(Placed(e.manifests));
            && (name in known <==> exists m :: Ready(e, name, m))
            && (name in known ==> Ready(e, name, known[name]))
    ensures forall m, other :: Ready(e, name, m) && Ready(e, name, other) ==> m == other
  {
    var known := Known(Placed(e.manifests));
    if m :| Ready(e, name, m) {
      assert m.chunk.chunkId in known;
    }
    if name in known {
      assert Ready(e, name, known[name]);
    }
  }

  /**
   An ACK is accepted exactly when it decodes, is named after its chunk, exactly one manifest in `ready`
   has that chunk, with the digest the ACK names, and no transaction on disk says otherwise. Each
   refusal names the first of these that fails.
   */
  lemma VerdictExactly(e: Edge, name: string)
    requires name in e.acks
    ensures var v := VerdictOn(e, name); var file := e.acks[name];
            && (v == Reject(INVALID) <==> file.Damaged?)
            && (v == Reject(INVALID_NAME) <==> file.Good? && file.value.chunkId != name)
            && (v == Reject(UNKNOWN) <==> NameIs(file, name) && !exists m :: Ready(e, name, m))
            && (v == Reject(HASH_MISMATCH) <==>
                  NameIs(file, name) && exists m :: Ready(e, name, m) && m.chunk.sha != file.value.sha)
            && (v == Reject(TRANSACTION_CONFLICT) <==>
                  NameIs(file, name) && exists m :: Ready(e, name, m) && m.chunk.sha == file.value.sha && Contradicted(e, name, file.value, m))
            && (v.Accept? <==>
                  NameIs(file, name) && exists m :: Ready(e, name, m) && m.chunk.sha == file.value.sha && !Contradicted(e, name, file.value, m))
            && (v.Accept? ==> v.ack == file.value && Ready(e, name, v.manifest))
  {
    KnownIsReady(e, name);
    hide Known, Placed, Sole, Confirms, Contradicted;
    var file := e.acks[name];
    if file.Good? {
      forall m: Manifest
        ensures Contradicted(e, name, file.value, m) <==> name in e.applying && !Confirms(e.applying[name], file.value, m)
      {
        ContradictedExactly(e, name, file.value, m);
      }
    }
  }

  /** A refused ACK is put aside under its reason. */
  lemma RefusedIsPutAside(e: Edge, name: string)
    requires name in e.acks && VerdictOn(e, name).Reject?
    ensures Rejection(name, VerdictOn(e, name).reason) in Applied(e).rejected
  {
    var x := Rejection(name, VerdictOn(e, name).reason);
    hide VerdictOn, Collectables, Uncollectable, Accepted, Records, Refused;
    assert x in Refused(e);
    assert x in multiset(Refused(e));
  }

  /** A transaction on disk that names its own digest, or one that an accepted ACK begins. */
  ghost predicate Due(e: Edge, name: string, t: Transaction) {
    && t.ack.sha == t.manifest.chunk.sha
    && ((name in e.applying && e.applying[name] == Good(t)) ||
        (name !in e.applying && name in e.acks && VerdictOn(e, name) == Accept(t.ack, t.manifest)))
  }

  lemma CollectedIsDue(e: Edge, name: string, t: Transaction)
    ensures name in Collectables(AfterAcks(e).applying) && Collectables(AfterAcks(e).applying)[name] == t <==> Due(e, name, t)
  {
    hide Known, Placed, Sole, Refused;
  }

  /** `REMOTE_GC` is logged for what is collected and for nothing else. */
  lemma LoggedExactly(e: Edge, record: GcRecord)
    ensures record in Applied(e).gcLog <==> record in e.gcLog || exists name, t :: Due(e, name, t) && record == Record(t)
  {
    var done := Collectables(AfterAcks(e).applying);
    forall name, t
      ensures name in done && done[name] == t <==> Due(e, name, t)
    {
      CollectedIsDue(e, name, t);
    }
    hide Collectables, Due, VerdictOn, Accepted, Refused, Uncollectable;
    if name, t :| Due(e, name, t) && record == Record(t) {
      assert name in done && Record(done[name]) in Records(done);
    }
    if record in Records(done) {
      var name :| name in done && Record(done[name]) == record;
      assert Due(e, name, done[name]);
    }
  }

  /** A data file, and a manifest, leaves `ready` exactly when a transaction that is due names it. */
  lemma LeavesExactly(e: Edge, path: DataPath, stem: Stem)
    ensures path in Applied(e).data <==> path in e.data && !exists name, t :: Due(e, name, t) && t.manifest.chunk.path == path
    ensures stem in Applied(e).manifests <==> stem in e.manifests && !exists name, t :: Due(e, name, t) && StemOf(t) == stem
  {
    DuePaths(e, path);
    DueStems(e, stem);
    hide Collectables, Due, AfterAcks, Uncollectable, Records, Paths, Stems;
    assert AfterAcks(e).data == e.data && AfterAcks(e).manifests == e.manifests by {
      AcksLeaveStore(e);
    }
  }

  lemma AcksLeaveStore(e: Edge)
    ensures AfterAcks(e).data == e.data && AfterAcks(e).manifests == e.manifests
  {
    hide Accepted, Refused;
  }

  lemma DuePaths(e: Edge, path: DataPath)
    ensures path in Paths(Collectables(AfterAcks(e).applying)) <==>
              exists name, t :: Due(e, name, t) && t.manifest.chunk.path == path
  {
    var done := Collectables(AfterAcks(e).applying);
    assert path in Paths(done) <==> exists name :: name in done && done[name].manifest.chunk.path == path;
    hide Collectables, Due, AfterAcks, Paths;
    if name :| name in done && done[name].manifest.chunk.path == path {
      CollectedIsDue(e, name, done[name]);
    }
    if name, t :| Due(e, name, t) && t.manifest.chunk.path == path {
      CollectedIsDue(e, name, t);
    }
  }

  lemma DueStems(e: Edge, stem: Stem)
    ensures stem in Stems(Collectables(AfterAcks(e).applying)) <==> exists name, t :: Due(e, name, t) && StemOf(t) == stem
  {
    var done := Collectables(AfterAcks(e).applying);
    assert stem in Stems(done) <==> exists name :: name in done && StemOf(done[name]) == stem;
    hide Collectables, Due, AfterAcks, Stems, StemOf;
    if name :| name in done && StemOf(done[name]) == stem {
      CollectedIsDue(e, name, done[name]);
    }
    if name, t :| Due(e, name, t) && StemOf(t) == stem {
      CollectedIsDue(e, name, t);
    }
  }

  // ---------------------------------------------------------------- a run comes to its end

  function Phase(p: Applier): nat {
    match p
    case Idle => 0
    case Clearing(_) => 1
    case Logging(_) => 2
    case Collecting(_, _) => 3
    case Moving(_, _, _, _, _) => 3
    case Dropping(_, _, _, _) => 3
    case Accepting(_, _, _) => 4
    case Unlinking(_, _, _, _) => 4
  }

  function Left(p: Applier): nat {
    match p
    case Accepting(_, todo, _) => 2 * |todo| + 1
    case Unlinking(_, todo, _, _) => 2 * |todo|
    case Collecting(todo, _) => 3 * |todo|
    case Moving(todo, _, _, _, _) => 3 * |todo| + 2
    case Dropping(todo, _, _, _) => 3 * |todo| + 1
    case Clearing(names) => |names|
    case _ => 0
  }

  function Listed(p: Applier): set<string> {
    match p
    case Accepting(_, todo, _) => todo
    case Collecting(todo, _) => todo
    case Clearing(names) => names
    case _ => {}
  }

  /** A step whose pick is on the list, if there is a list, brings the run nearer to its end. */
  lemma StepAdvances(e: Edge, p: Applier, pick: string)
    requires Fits(e, p) && !p.Idle? && (Listed(p) != {} ==> pick in Listed(p))
    ensures Nearer(Step(e, p, pick).applier, p)
  {
    match p
    case Accepting(known, todo, transactions) =>
      assert todo == e.acks.Keys by {
        hide Current;
      }
      hide Fits, AcceptOne;
      if todo != {} {
        AcceptAdvances(e, known, todo, transactions, pick);
      }
      hide Nearer;
      ListAdvances(e, p, pick);
    case Collecting(todo, done) =>
      assert todo <= e.applying.Keys by {
        hide Gone;
      }
      hide Fits, CollectOne;
      if todo != {} {
        CollectAdvances(e, todo, done, pick);
      }
      hide Nearer;
      ListAdvances(e, p, pick);
    case Unlinking(known, todo, transactions, name) =>
      assert name in todo by {
        hide Current, VerdictOn;
      }
      hide Fits;
      OtherAdvances(e, p, pick);
    case _ =>
      hide Fits;
      OtherAdvances(e, p, pick);
  }

  /** What is left of the two list phases once their turns are known to advance. */
  lemma ListAdvances(e: Edge, p: Applier, pick: string)
    requires p.Accepting? || p.Collecting?
    requires p.Accepting? && p.todo != {} ==>
               pick in p.todo && pick in e.acks && Nearer(AcceptOne(e, p.known, p.todo, p.transactions, pick).applier, p)
    requires p.Collecting? && p.todo != {} ==>
               pick in p.todo && pick in e.applying && Nearer(CollectOne(e, p.todo, p.done, pick).applier, p)
    ensures Nearer(Step(e, p, pick).applier, p)
  {
    hide AcceptOne, CollectOne;
  }

  lemma OtherAdvances(e: Edge, p: Applier, pick: string)
    requires !p.Idle? && !p.Accepting? && !p.Collecting? && (p.Clearing? && p.names != {} ==> pick in p.names)
    requires p.Unlinking? ==> p.name in p.todo
    ensures Nearer(Step(e, p, pick).applier, p)
  {
    hide RemoveAck, MoveManifest, DropData, LogGc, RemoveTransaction;
  }

  ghost predicate Nearer(next: Applier, p: Applier) {
    Phase(next) < Phase(p) || (Phase(next) == Phase(p) && Left(next) < Left(p))
  }

  lemma AcceptAdvances(e: Edge, known: map<string, Manifest>, todo: set<string>, transactions: set<string>, pick: string)
    requires pick in todo && pick in e.acks
    ensures Nearer(AcceptOne(e, known, todo, transactions, pick).applier, Accepting(known, todo, transactions))
  {
    hide Judge, RejectAck, RecordAck;
  }

  lemma CollectAdvances(e: Edge, todo: set<string>, done: map<string, Transaction>, pick: string)
    requires pick in todo && pick in e.applying
    ensures Nearer(CollectOne(e, todo, done, pick).applier, Collecting(todo, done))
  {
    hide Collectable, RejectTransaction;
  }

  lemma {:induction false} EndOf(e: Edge, p: Applier) returns (picks: seq<string>)
    requires Fits(e, p)
    ensures Steps(e, p, picks).applier.Idle?
    decreases Phase(p), Left(p)
  {
    hide Fits, Step, Steps;
    if p.Idle? {
      picks := [];
      NoSteps(e, p);
    } else {
      var pick := "";
      if Listed(p) != {} {
        pick :| pick in Listed(p);
      }
      StepKeeps(e, p, pick);
      StepAdvances(e, p, pick);
      var next := Step(e, p, pick);
      var rest := EndOf(next.edge, next.applier);
      picks := [pick] + rest;
      FirstStep(e, p, pick, rest);
    }
  }

  lemma NoSteps(e: Edge, p: Applier)
    ensures Steps(e, p, []) == Point(e, p)
  {
  }

  lemma FirstStep(e: Edge, p: Applier, pick: string, rest: seq<string>)
    ensures Steps(e, p, [pick] + rest) == Steps(Step(e, p, pick).edge, Step(e, p, pick).applier, rest)
  {
    hide Step;
    assert ([pick] + rest)[1..] == rest;
  }

  /** From every state of the files a run can come to its end, and then it has reached the outcome. */
  lemma RunCanEnd(e: Edge) returns (picks: seq<string>)
    ensures picks != [] && Steps(e, Idle, picks).applier.Idle?
    ensures OutcomeOf(Steps(e, Idle, picks).edge) == Applied(e)
  {
    hide Step, Steps, Applied, OutcomeOf, Fits;
    IdleStep(e, "");
    var rest := EndOf(e, Start(e));
    picks := [""] + rest;
    FirstStep(e, Idle, "", rest);
    assert Fits(e, Idle) by {
      IdleFits(e);
    }
    RunKeeps(e, Idle, picks);
  }

  lemma IdleFits(e: Edge)
    ensures Fits(e, Idle)
  {
  }
}
