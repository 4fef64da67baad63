/** The client's bookkeeping as objects: the ids of one update share one mutable record. */
module SubscriptionRun {
  import opened Base
  import opened Subscription

  /** `_PendingSubscriptionUpdate` */
  class PendingUpdate {
    var remaining: set<int>
    const add: set<Stream>
    const remove: set<Stream>

    constructor (remaining: set<int>, add: set<Stream>, remove: set<Stream>)
      ensures this.remaining == remaining && this.add == add && this.remove == remove
    {
      this.remaining, this.add, this.remove := remaining, add, remove;
    }

    function Value(): Pending
      reads this
    {
      Pending(remaining, add, remove)
    }
  }

  lemma AddsTo(before: map<int, Pending>, after: map<int, Pending>, ids: set<int>, p: Pending)
    requires after.Keys == before.Keys + ids
    requires forall id | id in after :: after[id] == if id in ids then p else before[id]
    ensures after == before + map id | id in ids :: p
  {
    var sum := before + map id | id in ids :: p;
    assert sum.Keys == before.Keys + ids;
    forall id
      ensures id in after <==> id in sum
      ensures id in after ==> after[id] == sum[id]
    {
      assert id in after.Keys <==> id in sum.Keys;
    }
  }

  class SubscriptionClient {
    var active: set<Stream>
    var pending: map<int, PendingUpdate>
    var audits: set<int>
    var lastId: int
    var status: Status

    /** An id is outstanding in the record it leads to, and all outstanding ids of a record lead to it. */
    ghost predicate Valid()
      reads this, pending.Values
    {
      && (forall id | id in pending :: id <= lastId && id in pending[id].remaining)
      && (forall id, other | id in pending && other in pending[id].remaining :: other in pending && pending[other] == pending[id])
    }

    ghost function Value(): Client
      reads this, pending.Values
    {
      Client(active, map id | id in pending :: pending[id].Value(), audits, lastId, status)
    }

    /** The start of `run`, with the SUBSCRIBE it sends. */
    constructor (subscriptions: set<Stream>, firstId: int)
      ensures Valid() && Value() == Opened(subscriptions, firstId).client
    {
      active, pending, audits, lastId, status := subscriptions, map[], {}, firstId, OPEN;
    }

    /** The requests of an update, numbered on from the last id. */
    method NumberRequests(add: set<Stream>, remove: set<Stream>) returns (requests: seq<Request>)
      modifies this`lastId
      ensures requests == RequestsOf(old(lastId), add, remove) && lastId == old(lastId) + |requests|
      ensures forall id | id in IdsOf(requests) :: old(lastId) < id <= lastId
    {
      requests := [];
      if remove != {} {
        lastId := lastId + 1;
        requests := requests + [Unsubscribe(lastId, remove)];
      }
      if add != {} {
        lastId := lastId + 1;
        requests := requests + [Subscribe(lastId, add)];
      }
      assert requests == RequestsOf(old(lastId), add, remove);
    }

    /** One record for all the ids of an update. */
    method Register(ids: set<int>, add: set<Stream>, remove: set<Stream>)
      requires Valid() && forall id | id in ids :: id !in pending && id <= lastId
      modifies this`pending
      ensures Valid()
      ensures Value() == old(Value()).(pending := old(Value()).pending + map id | id in ids :: Pending(ids, add, remove))
      ensures forall p | p in pending.Values && p !in old(pending.Values) :: fresh(p)
    {
      ghost var before := Value();
      var record := new PendingUpdate(ids, add, remove);
      pending := pending + map id | id in ids :: record;
      forall id | id in pending
        ensures Value().pending[id] == if id in ids then Pending(ids, add, remove) else before.pending[id]
      {
      }
      assert Value().pending.Keys == before.pending.Keys + ids;
      AddsTo(before.pending, Value().pending, ids, Pending(ids, add, remove));
    }

    /** An update from the queue. */
    method OnUpdate(add: set<Stream>, remove: set<Stream>) returns (requests: seq<Request>)
      requires Valid()
      modifies this`pending, this`lastId
      ensures Valid() && Value() == Updated(old(Value()), add, remove)
      ensures requests == RequestsOf(old(lastId), add, remove)
      ensures forall p | p in pending.Values && p !in old(pending.Values) :: fresh(p)
    {
      requests := NumberRequests(add, remove);
      hide RequestsOf;
      Register(IdsOf(requests), add, remove);
    }

    /** The audit timer. */
    method OnAuditDue() returns (requests: seq<Request>)
      requires Valid()
      modifies this`audits, this`lastId, this`status
      ensures Valid() && Value() == AuditDue(old(Value()))
      ensures requests == AuditRequests(old(Value()))
    {
      ghost var before := Value();
      assert before.pending == map[] <==> pending == map[] by {
        assert before.pending.Keys == pending.Keys;
      }
      requests := [];
      if audits != {} {
        status := UNANSWERED;
      } else if pending == map[] {
        lastId := lastId + 1;
        audits := {lastId};
        requests := [ListSubscriptions(lastId)];
      }
    }

    /** The acknowledgement of one request of an update. */
    method OnAcknowledged(id: int)
      requires Valid() && id in pending
      modifies this`pending, this`active, pending[id]
      ensures Valid() && Value() == Acked(old(Value()), id)
      ensures pending.Values <= old(pending.Values)
    {
      ghost var before := Value();
      var record := pending[id];
      Settle(id);
      hide Without;
      assert before.pending[id] == Pending(record.remaining + {id}, record.add, record.remove);
      assert record.remaining + {id} - {id} == record.remaining;
      if record.remaining == {} {
        active := active - record.remove + record.add;
      }
    }

    /** The id is no longer outstanding; its record, which other ids may share, forgets it. */
    method Settle(id: int)
      requires Valid() && id in pending
      modifies this`pending, pending[id]
      ensures Valid() && pending == old(pending) - {id}
      ensures old(pending)[id].remaining == old(pending[id].remaining) - {id}
      ensures Value() == old(Value()).(pending := Without(old(Value()).pending, id))
    {
      ghost var before := Value();
      var record := pending[id];
      pending := pending - {id};
      record.remaining := record.remaining - {id};
      forall i | i in pending
        ensures Value().pending[i] == Without(before.pending, id)[i]
      {
        assert i in before.pending;
      }
      assert Value().pending.Keys == Without(before.pending, id).Keys;
    }

    /** The answer to an audit: its list must be what the client takes as active. */
    method CheckAudit(id: int, result: Option<set<Stream>>) returns (ok: bool)
      requires Valid() && id in audits
      modifies this`audits, this`status
      ensures Valid()
      ensures var before := old(Value());
              var heard := before.(audits := before.audits - {id});
              && ok == ((if result.Some? then result.value else {}) == before.active)
              && Value() == if ok then heard else heard.(status := MISMATCH)
    {
      audits := audits - {id};
      var actual := if result.Some? then result.value else {};
      ok := actual == active;
      if !ok {
        status := MISMATCH;
      }
    }

    /** A control message from the server. */
    method OnMessage(id: int, result: Option<set<Stream>>)
      requires Valid()
      modifies this, pending.Values
      ensures Valid() && Value() == Answered(old(Value()), id, result)
    {
      assert id in audits <==> id in Value().audits;
      assert id in pending <==> id in Value().pending.Keys;
      assert id in pending ==> pending[id] in pending.Values;
      hide Acked, SubscriptionClient.Value, SubscriptionClient.Valid;
      ghost var heard := Value();
      if id in audits {
        var ok := CheckAudit(id, result);
        if !ok {
          return;
        }
        heard := Value();
      }
      if id in pending {
        OnAcknowledged(id);
      } else {
        NothingAcked(heard, id);
      }
    }
  }

  lemma NothingAcked(c: Client, id: int)
    requires id !in c.pending
    ensures Acked(c, id) == c
  {
  }
}
