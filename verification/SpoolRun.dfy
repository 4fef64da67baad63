/** `SpoolManager` as an object whose files `apply_acks` changes in place. */
module SpoolRun {
  import opened Base
  import opened Spool
  import opened AckApply

  /** Some transaction of `done` moved the manifest at `stem` away, into the acked manifests unless its day is sealed. */
  ghost predicate Saved(done: map<string, Transaction>, sealedDays: set<int>, acked: set<AckedKey>, stem: Stem) {
    exists name :: name in done && StemOf(done[name]) == stem &&
                   (done[name].manifest.day in sealedDays || AckedKey(done[name].manifest.day, stem.name) in acked)
  }

  /** The acked manifest at `key` was there before, or it is a `ready` manifest of a day that is not sealed. */
  ghost predicate KeptFrom(before: Edge, key: AckedKey, file: File<Manifest>) {
    || (key in before.acked && before.acked[key] == file)
    || (key.day !in before.sealed && exists stem :: stem in before.manifests && before.manifests[stem] == file && stem.name == key.name)
  }

  ghost predicate AllKept(before: Edge, after: Edge) {
    && after.sealed == before.sealed
    && (forall stem :: stem in after.manifests ==> stem in before.manifests && after.manifests[stem] == before.manifests[stem])
    && (forall key :: key in after.acked ==> KeptFrom(before, key, after.acked[key]))
  }

  lemma MoveKept(before: Edge, e: Edge, t: Transaction)
    requires AllKept(before, e)
    ensures AllKept(before, DropData(MoveManifest(e, t, t.manifest.day in e.sealed), t))
  {
  }

  lemma RejectKept(before: Edge, e: Edge, name: string, reason: Reason)
    requires AllKept(before, e)
    ensures AllKept(before, RejectTransaction(e, name, reason))
  {
  }

  lemma TurnKept(before: Edge, e: Edge, name: string)
    requires AllKept(before, e) && name in e.applying
    ensures Collectable(e.applying[name]) ==>
              (var t := e.applying[name].value; AllKept(before, DropData(MoveManifest(e, t, t.manifest.day in e.sealed), t)))
    ensures AllKept(before, RejectTransaction(e, name, RefusalOf(e.applying[name])))
  {
    if Collectable(e.applying[name]) {
      MoveKept(before, e, e.applying[name].value);
    }
    RejectKept(before, e, name, RefusalOf(e.applying[name]));
    hide AllKept, MoveManifest, DropData, RejectTransaction, Collectable, RefusalOf;
  }

  lemma SameKept(before: Edge, e: Edge, after: Edge)
    requires e == before || AllKept(before, e)
    requires after.manifests == e.manifests && after.acked == e.acked && after.sealed == e.sealed
    ensures AllKept(before, after)
  {
  }

  lemma SameStoreKept(e: Edge, after: Edge)
    requires after == AfterAcks(e)
    ensures after.manifests == e.manifests && after.acked == e.acked && after.sealed == e.sealed
  {
    hide Accepted, Refused;
  }

  lemma KeptThrough(e: Edge, between: Edge, after: Edge)
    requires between.manifests == e.manifests && between.acked == e.acked && between.sealed == e.sealed
    requires AllKept(between, after)
    ensures AllKept(e, after)
  {
  }

  lemma AcceptingFits(e: Edge)
    ensures Fits(e, Accepting(Known(Placed(e.manifests)), e.acks.Keys, e.applying.Keys))
  {
  }

  /** One turn of the ACK loop, both of its file operations taken together. */
  lemma AcceptTurn(e: Edge, known: map<string, Manifest>, todo: set<string>, transactions: set<string>, name: string)
    requires Fits(e, Accepting(known, todo, transactions)) && name in todo
    ensures name in e.acks
    ensures match Judge(known, e.applying, name, e.acks[name])
            case Reject(reason) =>
              && Fits(RejectAck(e, name, reason), Accepting(known, todo - {name}, transactions))
              && AfterAcks(RejectAck(e, name, reason)) == AfterAcks(e)
            case Accept(ack, manifest) =>
              var recorded := if name in e.applying then e else RecordAck(e, name, Transaction(ack, manifest));
              && Fits(RemoveAck(recorded, name), Accepting(known - {name}, todo - {name}, transactions + {name}))
              && AfterAcks(RemoveAck(recorded, name)) == AfterAcks(e)
  {
    var p := Accepting(known, todo, transactions);
    JudgeCurrent(e, known, todo, name);
    AcceptOneFits(e, p, name);
    var v := VerdictOn(e, name);
    if v.Reject? {
      RejectKeeps(e, name);
    } else {
      var recorded := if name in e.applying then e else RecordAck(e, name, Transaction(v.ack, v.manifest));
      if name !in e.applying {
        RecordKeeps(e, name, Transaction(v.ack, v.manifest));
      }
      var next := Unlinking(known, todo, transactions, name);
      assert Fits(recorded, next);
      RemoveKeeps(recorded, name);
      UnlinkStep(recorded, next, name);
    }
    hide Fits, Judge, VerdictOn, AfterAcks, Applied, Known, Placed;
  }

  lemma AcceptedAll(e: Edge, known: map<string, Manifest>, transactions: set<string>)
    requires Fits(e, Accepting(known, {}, transactions))
    ensures e == AfterAcks(e) && e.acks == map[] && transactions == e.applying.Keys
  {
    assert e.acks == map[];
    NoAcks(e);
  }

  lemma StepsOfCarryOut(e: Edge, todo: set<string>, done: map<string, Transaction>, name: string, t: Transaction, seen: bool)
    ensures Step(e, Moving(todo, done, name, t, seen), name) == Point(MoveManifest(e, t, seen), Dropping(todo, done, name, t))
    ensures Step(e, Dropping(todo, done, name, t), name) == Point(DropData(e, t), Collecting(todo, done[name := t]))
    ensures name in e.applying && e.applying[name] == Good(t) && Collectable(e.applying[name]) ==>
              CollectOne(e, todo + {name}, done, name) ==
                Point(e, Moving(todo + {name} - {name}, done, name, t, t.manifest.day in e.sealed))
  {
    hide MoveManifest;
  }

  lemma CarryOutFits(e: Edge, todo: set<string>, done: map<string, Transaction>, name: string, t: Transaction)
    requires Fits(e, Collecting(todo, done)) && name in todo
    requires name in e.applying && e.applying[name] == Good(t) && Collectable(e.applying[name])
    ensures var next := DropData(MoveManifest(e, t, t.manifest.day in e.sealed), t);
            Fits(next, Collecting(todo - {name}, done[name := t]))
  {
    hide Fits, Applied, Collectable, Step, CollectOne, MoveManifest, DropData;
    var seen := t.manifest.day in e.sealed;
    var rest := todo - {name};
    assert rest + {name} == todo && rest + {name} - {name} == rest;
    var moved := MoveManifest(e, t, seen);
    StepsOfCarryOut(e, rest, done, name, t, seen);
    StepsOfCarryOut(moved, rest, done, name, t, seen);
    CollectOneFits(e, Collecting(todo, done), name);
    MoveStep(e, Moving(rest, done, name, t, seen), name);
    DropStep(moved, Dropping(rest, done, name, t), name);
  }

  /** One turn of the transaction loop on a transaction with equal hashes, its operations taken together. */
  lemma CarryOutTurn(e: Edge, todo: set<string>, done: map<string, Transaction>, name: string, t: Transaction)
    requires Fits(e, Collecting(todo, done)) && name in todo
    requires name in e.applying && e.applying[name] == Good(t) && Collectable(e.applying[name])
    ensures var next := DropData(MoveManifest(e, t, t.manifest.day in e.sealed), t);
            Fits(next, Collecting(todo - {name}, done[name := t])) && AfterCollection(next) == AfterCollection(e)
  {
    hide Fits, AfterCollection, Applied, Collectable;
    CarryOutFits(e, todo, done, name, t);
    MoveKeeps(e, name, t);
    DropKeeps(MoveManifest(e, t, t.manifest.day in e.sealed), name, t);
  }

  lemma CollectTurn(e: Edge, todo: set<string>, done: map<string, Transaction>, name: string)
    requires Fits(e, Collecting(todo, done)) && name in todo
    ensures name in e.applying
    ensures Collectable(e.applying[name]) ==>
              var t := e.applying[name].value;
              var next := DropData(MoveManifest(e, t, t.manifest.day in e.sealed), t);
              Fits(next, Collecting(todo - {name}, done[name := t])) && AfterCollection(next) == AfterCollection(e)
    ensures !Collectable(e.applying[name]) ==>
              var next := RejectTransaction(e, name, RefusalOf(e.applying[name]));
              Fits(next, Collecting(todo - {name}, done)) && AfterCollection(next) == AfterCollection(e)
  {
    assert name in e.applying;
    if Collectable(e.applying[name]) {
      CarryOutTurn(e, todo, done, name, e.applying[name].value);
    } else {
      CollectOneFits(e, Collecting(todo, done), name);
      RefuseKeeps(e, name);
    }
    hide Fits, AfterCollection, RefusalOf;
  }

  lemma NothingToDo(e: Edge)
    requires e.acks == map[] && e.applying == map[]
    ensures OutcomeOf(e) == Applied(e)
  {
    NoAcks(e);
    EmptyCollection(e);
    hide AfterAcks, AfterCollection, OutcomeOf;
  }

  lemma AppliedInTwo(e: Edge)
    ensures Applied(e) == AfterCollection(AfterAcks(e))
    ensures var all := AfterAcks(e);
            all.manifests == e.manifests && all.acks == map[] && all.acked == e.acked && all.sealed == e.sealed
  {
  }

  lemma NothingAccepted(e: Edge)
    requires e.acks == map[]
    ensures Fits(e, Collecting(e.applying.Keys, map[]))
  {
  }

  lemma AllCollected(e: Edge, done: map<string, Transaction>)
    requires Fits(e, Collecting({}, done))
    ensures done == Collectables(e.applying)
    ensures Fits(LogGc(e, done), Clearing(e.applying.Keys))
    ensures AfterCollection(LogGc(e, done)) == AfterCollection(e)
  {
    AllDone(e, done);
    LogKeeps(e);
    assert Fits(e, Logging(done));
    LogStep(e, Logging(done), "");
    hide Fits, AfterCollection, Collectables, Applied;
  }

  lemma ClearTurn(e: Edge, names: set<string>, name: string)
    requires Fits(e, Clearing(names)) && name in names
    ensures Fits(RemoveTransaction(e, name), Clearing(names - {name}))
    ensures AfterCollection(RemoveTransaction(e, name)) == AfterCollection(e)
  {
    ClearStep(e, Clearing(names), name);
    assert name in Collectables(e.applying);
    ClearKeeps(e, name);
    hide Fits, AfterCollection, Collectables, Applied;
  }

  lemma AllCleared(e: Edge)
    requires Fits(e, Clearing({}))
    ensures OutcomeOf(e) == AfterCollection(e)
  {
    assert e.applying.Keys == {};
    EmptyCollection(e);
  }

  /** What one turn does to the transactions with equal hashes and to the saved manifests. */
  lemma TurnSaves(before: Edge, e: Edge, all: map<string, Transaction>, name: string)
    requires name in before.applying && Collectables(before.applying) == all
    requires forall stem | stem in e.manifests && stem !in before.manifests ::
               Saved(all, before.sealed.Keys, before.acked.Keys, stem)
    ensures !Collectable(before.applying[name]) ==> Collectables((before.applying - {name})) == all
    ensures Collectable(before.applying[name]) ==>
              var t := before.applying[name].value;
              var after := DropData(MoveManifest(before, t, t.manifest.day in before.sealed), t);
              && before.acked.Keys <= after.acked.Keys
              && (forall stem | stem in e.manifests && stem !in after.manifests ::
                   Saved(all, before.sealed.Keys, after.acked.Keys, stem))
  {
    if Collectable(before.applying[name]) {
      var t := before.applying[name].value;
      assert all[name] == t;
      var after := MoveManifest(before, t, t.manifest.day in before.sealed);
      forall stem | stem in e.manifests && stem !in after.manifests
        ensures Saved(all, before.sealed.Keys, after.acked.Keys, stem)
      {
        StillSaved(all, before.sealed.Keys, before, after, name, stem);
      }
    } else {
      CollectablesWithout(before.applying, name);
    }
    hide Saved, Collectables, Collectable;
  }

  lemma StillSaved(done: map<string, Transaction>, sealedDays: set<int>, before: Edge, after: Edge, name: string, stem: Stem)
    requires name in done && after == MoveManifest(before, done[name], done[name].manifest.day in sealedDays)
    requires stem !in before.manifests ==> Saved(done, sealedDays, before.acked.Keys, stem)
    requires stem !in after.manifests
    ensures Saved(done, sealedDays, after.acked.Keys, stem)
  {
    if stem !in before.manifests {
      var n :| n in done && StemOf(done[n]) == stem &&
               (done[n].manifest.day in sealedDays || AckedKey(done[n].manifest.day, stem.name) in before.acked.Keys);
    } else {
      assert StemOf(done[name]) == stem;
    }
  }

  class SpoolManager {
    var data: map<DataPath, Bytes>
    var manifests: map<Stem, File<Manifest>>
    var acks: map<string, File<Ack>>
    var applying: map<string, File<Transaction>>
    var rejected: multiset<Rejection>
    var acked: map<AckedKey, File<Manifest>>
    var sealed: map<int, Inventory>
    var dayJournal: map<int, seq<ChunkRef>>
    var gcLog: set<GcRecord>

    function Value(): Edge
      reads this
    {
      Edge(data, manifests, acks, applying, rejected, acked, sealed, dayJournal, gcLog)
    }

    constructor (e: Edge)
      ensures Value() == e
    {
      data, manifests, acks, applying, rejected := e.data, e.manifests, e.acks, e.applying, e.rejected;
      acked, sealed, dayJournal, gcLog := e.acked, e.sealed, e.dayJournal, e.gcLog;
    }

    /** `_quarantine` of an ACK file */
    method Quarantine(name: string, reason: Reason)
      modifies this`acks, this`rejected
      ensures Value() == RejectAck(old(Value()), name, reason)
    {
      acks := acks - {name};
      rejected := rejected + multiset{Rejection(name, reason)};
    }

    /** The body of the loop over the ACK files. */
    method ApplyAck(known: map<string, Manifest>, name: string) returns (accepted: bool)
      requires name in acks
      modifies this`acks, this`applying, this`rejected
      ensures var e := old(Value());
              match Judge(known, e.applying, name, e.acks[name])
              case Reject(reason) => !accepted && Value() == RejectAck(e, name, reason)
              case Accept(ack, manifest) =>
                accepted &&
                Value() == RemoveAck(if name in e.applying then e else RecordAck(e, name, Transaction(ack, manifest)), name)
    {
      accepted := false;
      var file := acks[name];
      if file.Damaged? {
        Quarantine(name, INVALID);
        return;
      }
      var ack := file.value;
      if name != ack.chunkId {
        Quarantine(name, INVALID_NAME);
        return;
      }
      if ack.chunkId !in known {
        Quarantine(name, UNKNOWN);
        return;
      }
      var manifest := known[ack.chunkId];
      if ack.sha != manifest.chunk.sha {
        Quarantine(name, HASH_MISMATCH);
        return;
      }
      if name in applying {
        if !Confirms(applying[name], ack, manifest) {
          Quarantine(name, TRANSACTION_CONFLICT);
          return;
        }
      } else {
        applying := applying[name := Good(Transaction(ack, manifest))];
      }
      acks := acks - {name};
      accepted := true;
    }

    /** The body of the loop over the transaction files. */
    method CarryOut(name: string) returns (completed: Option<Transaction>)
      requires name in applying
      modifies this`data, this`manifests, this`acked, this`applying, this`rejected
      ensures var e := old(Value());
              if Collectable(e.applying[name])
              then var t := e.applying[name].value;
                   completed == Some(t) && Value() == DropData(MoveManifest(e, t, t.manifest.day in e.sealed), t)
              else completed == None && Value() == RejectTransaction(e, name, RefusalOf(e.applying[name]))
    {
      var file := applying[name];
      if file.Damaged? || file.value.ack.sha != file.value.manifest.chunk.sha {
        applying := applying - {name};
        rejected := rejected + multiset{Rejection(name, RefusalOf(file))};
        return None;
      }
      var t := file.value;
      var stem := t.manifest.chunk.path.stem;
      if stem in manifests {
        if t.manifest.day !in sealed {
          acked := acked[AckedKey(t.manifest.day, stem.name) := manifests[stem]];
        }
        manifests := manifests - {stem};
      }
      data := data - {t.manifest.chunk.path};
      return Some(t);
    }

    method AcceptAll(known: map<string, Manifest>)
      requires known == Known(Placed(manifests))
      modifies this`acks, this`applying, this`rejected
      ensures Value() == AfterAcks(old(Value()))
    {
      hide Fits, Judge, AfterAcks;
      ghost var e := Value();
      var todo, current := acks.Keys, known;
      ghost var transactions := applying.Keys;
      AcceptingFits(e);
      while todo != {}
        invariant Fits(Value(), Accepting(current, todo, transactions))
        invariant AfterAcks(Value()) == AfterAcks(e)
        decreases |todo|
      {
        var name :| name in todo;
        ghost var before := Value();
        AcceptTurn(before, current, todo, transactions, name);
        var accepted := ApplyAck(current, name);
        todo := todo - {name};
        if accepted {
          current := current - {name};
          transactions := transactions + {name};
        }
      }
      AcceptedAll(Value(), current, transactions);
    }


    method CollectAll() returns (done: map<string, Transaction>)
      requires acks == map[]
      modifies this`data, this`manifests, this`acked, this`applying, this`rejected
      ensures done == Collectables(old(applying))
      ensures done == Collectables(applying) && Fits(Value(), Collecting({}, done))
      ensures AfterCollection(Value()) == AfterCollection(old(Value()))
      ensures old(acked.Keys) <= acked.Keys
      ensures forall stem | stem in old(manifests) && stem !in manifests :: Saved(done, sealed.Keys, acked.Keys, stem)
      ensures AllKept(old(Value()), Value())
    {
      hide Fits, AfterCollection, Saved, Collectables, Collectable, RefusalOf;
      ghost var e := Value();
      ghost var all := Collectables(applying);
      var todo := applying.Keys;
      done := map[];
      NothingAccepted(e);
      while todo != {}
        invariant Fits(Value(), Collecting(todo, done))
        invariant AfterCollection(Value()) == AfterCollection(e)
        invariant Collectables(applying) == all
        invariant old(acked.Keys) <= acked.Keys
        invariant forall stem | stem in e.manifests && stem !in manifests :: Saved(all, sealed.Keys, acked.Keys, stem)
        invariant AllKept(e, Value())
        decreases |todo|
      {
        var name :| name in todo;
        ghost var before := Value();
        CollectTurn(before, todo, done, name);
        TurnSaves(before, e, all, name);
        TurnKept(e, before, name);
        hide AllKept;
        var completed := CarryOut(name);
        todo := todo - {name};
        if completed.Some? {
          done := done[name := completed.value];
        }
      }
      AllCollected(Value(), done);
    }

    method ClearAll(completed: set<string>)
      requires Fits(Value(), Clearing(completed))
      modifies this`applying
      ensures OutcomeOf(Value()) == AfterCollection(old(Value()))
    {
      hide Fits, AfterCollection, OutcomeOf;
      ghost var e := Value();
      var todo := completed;
      while todo != {}
        invariant Fits(Value(), Clearing(todo))
        invariant AfterCollection(Value()) == AfterCollection(e)
        decreases |todo|
      {
        var name :| name in todo;
        ClearTurn(Value(), todo, name);
        applying := applying - {name};
        todo := todo - {name};
      }
      AllCleared(Value());
    }

    /** Everything after the ACK loop. */
    method CarryOutAll()
      requires acks == map[]
      modifies this`data, this`manifests, this`acked, this`applying, this`rejected, this`gcLog
      ensures OutcomeOf(Value()) == AfterCollection(old(Value()))
      ensures old(acked.Keys) <= acked.Keys
      ensures forall stem | stem in old(manifests) && stem !in manifests ::
                Saved(Collectables(old(applying)), sealed.Keys, acked.Keys, stem)
      ensures AllKept(old(Value()), Value())
    {
      hide Fits, AfterCollection, Collectables, Saved, OutcomeOf, Records;
      ghost var e := Value();
      var done := CollectAll();
      AllCollected(Value(), done);
      ghost var collected := Value();
      gcLog := gcLog + Records(done);
      ClearAll(applying.Keys);
      SameKept(e, collected, Value());
    }

    /**
     `apply_acks`. The loops may take the files in any order, the sorted one among them. What is
     reached is the outcome every interrupted run also comes to; seals and day journals are not touched.
     */
    method ApplyAcks(listing: seq<Stem>)
      requires forall stem :: stem in listing <==> stem in manifests
      modifies this`data, this`manifests, this`acks, this`applying, this`rejected, this`acked, this`gcLog
      ensures OutcomeOf(Value()) == Applied(old(Value()))
      ensures old(acked.Keys) <= acked.Keys
      ensures forall stem | stem in old(manifests) && stem !in manifests ::
                Saved(Collectables(AfterAcks(old(Value())).applying), sealed.Keys, acked.Keys, stem)
      ensures AllKept(old(Value()), Value())
    {
      ghost var e := Value();
      SameKept(e, e, e);
      hide Applied, AllKept;
      if acks == map[] && applying == map[] {
        NothingToDo(e);
        return;
      }
      AppliedInTwo(e);
      hide AfterAcks, AfterCollection, Collectables, Saved, OutcomeOf, Known, Placed;
      var known, _ := ReadyManifests(manifests, listing);
      AcceptAll(known);
      SameStoreKept(e, Value());
      ghost var accepted := Value();
      CarryOutAll();
      KeptThrough(e, accepted, Value());
    }
  }
}
