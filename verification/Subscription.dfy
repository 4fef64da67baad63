/**
 The subscription bookkeeping of `BinanceWebSocketConnection.run` in
 src/ft_shadow_data_plane/edge/binance.py against a server that answers in order over two FIFO
 channels, and that may silently drop a stream.
 */
module Subscription {
  import opened Base

  type Stream = string

  datatype Request =
    | Subscribe(id: int, streams: set<Stream>)
    | Unsubscribe(id: int, streams: set<Stream>)
    | ListSubscriptions(id: int)

  /** One update's outstanding request ids, and what it adds and removes. */
  datatype Pending = Pending(remaining: set<int>, add: set<Stream>, remove: set<Stream>)

  datatype Status = OPEN | MISMATCH | UNANSWERED

  /** `active_subscriptions`, `pending_updates`, `pending_audits`, `subscription_id`. */
  datatype Client = Client(active: set<Stream>, pending: map<int, Pending>, audits: set<int>, lastId: int, status: Status)

  // ---------------------------------------------------------------- the client

  /** UNSUBSCRIBE is sent before SUBSCRIBE, an empty side not at all. */
  function RequestsOf(lastId: int, add: set<Stream>, remove: set<Stream>): seq<Request> {
    var first := if remove != {} then [Unsubscribe(lastId + 1, remove)] else [];
    first + if add != {} then [Subscribe(lastId + |first| + 1, add)] else []
  }

  function IdsOf(requests: seq<Request>): set<int> {
    set r | r in requests :: r.id
  }

  /** An update is taken from the queue: its requests share one record. */
  function Updated(c: Client, add: set<Stream>, remove: set<Stream>): Client {
    var requests := RequestsOf(c.lastId, add, remove);
    var ids := IdsOf(requests);
    c.(pending := c.pending + (map id | id in ids :: Pending(ids, add, remove)), lastId := c.lastId + |requests|)
  }

  /** The audit timer: an unanswered audit raises, otherwise one is sent unless updates are in flight. */
  function AuditDue(c: Client): Client {
    if c.audits != {} then c.(status := UNANSWERED)
    else if c.pending != map[] then c
    else c.(audits := {c.lastId + 1}, lastId := c.lastId + 1)
  }

  function AuditRequests(c: Client): seq<Request> {
    if c.audits == {} && c.pending == map[] then [ListSubscriptions(c.lastId + 1)] else []
  }

  function Without(pending: map<int, Pending>, id: int): map<int, Pending>
    requires id in pending
  {
    map i | i in pending && i != id ::
      if i in pending[id].remaining then pending[i].(remaining := pending[i].remaining - {id}) else pending[i]
  }

  /** An acknowledged id; the last one of an update makes the update count as active. */
  function Acked(c: Client, id: int): Client {
    if id !in c.pending then c
    else
      var p := c.pending[id];
      c.(pending := Without(c.pending, id),
         active := if p.remaining - {id} == {} then c.active - p.remove + p.add else c.active)
  }

  /** A control message: `result` is the list it carries, if it carries one. */
  function Answered(c: Client, id: int, result: Option<set<Stream>>): Client {
    if id in c.audits then
      var actual := if result.Some? then result.value else {};
      var heard := c.(audits := c.audits - {id});
      if actual != c.active then heard.(status := MISMATCH) else Acked(heard, id)
    else Acked(c, id)
  }

  // ---------------------------------------------------------------- the server and the channels

  /** What the server sends back. The client reads only the id and the listed streams. */
  datatype Response = Done(request: Request) | Listing(id: int, streams: set<Stream>, lost: set<Stream>)

  /**
   `base` and `lost` are history: the subscriptions the requests answered so far add up to, and the
   streams the server has dropped although the requests it has processed call for them.
   */
  datatype Session = Session(
    client: Client, toServer: seq<Request>, toClient: seq<Response>, subscribed: set<Stream>,
    base: set<Stream>, lost: set<Stream>)

  datatype Action =
    | Update(add: set<Stream>, remove: set<Stream>)
    | Audit
    | Serve
    | Receive
    | Drop(stream: Stream)

  /** `run` starts with everything counted as active and one SUBSCRIBE on its way, under an id of its own. */
  function Opened(subscriptions: set<Stream>, firstId: int): Session {
    Session(Client(subscriptions, map[], {}, firstId, OPEN), [Subscribe(firstId, subscriptions)], [], {}, {}, {})
  }

  function Effect(subscribed: set<Stream>, r: Request): set<Stream> {
    match r
    case Subscribe(_, streams) => subscribed + streams
    case Unsubscribe(_, streams) => subscribed - streams
    case ListSubscriptions(_) => subscribed
  }

  predicate Can(s: Session, a: Action) {
    && s.client.status.OPEN?
    && match a
       case Serve => s.toServer != []
       case Receive => s.toClient != []
       case _ => true
  }

  function ServeOne(s: Session): Session
    requires s.toServer != []
  {
    var r := s.toServer[0];
    if r.ListSubscriptions? then
      s.(toServer := s.toServer[1..], toClient := s.toClient + [Listing(r.id, s.subscribed, s.lost)])
    else
      s.(toServer := s.toServer[1..], toClient := s.toClient + [Done(r)],
         subscribed := Effect(s.subscribed, r), lost := s.lost - r.streams)
  }

  function ReceiveOne(s: Session): Session
    requires s.toClient != []
  {
    match s.toClient[0]
    case Done(r) =>
      s.(toClient := s.toClient[1..], client := Answered(s.client, r.id, None), base := Effect(s.base, r))
    case Listing(id, streams, _) =>
      s.(toClient := s.toClient[1..], client := Answered(s.client, id, Some(streams)))
  }

  function Do(s: Session, a: Action): Session
    requires Can(s, a)
  {
    match a
    case Update(add, remove) =>
      s.(client := Updated(s.client, add, remove), toServer := s.toServer + RequestsOf(s.client.lastId, add, remove))
    case Audit => s.(client := AuditDue(s.client), toServer := s.toServer + AuditRequests(s.client))
    case Serve => ServeOne(s)
    case Receive => ReceiveOne(s)
    case Drop(stream) =>
      if stream in s.subscribed then s.(subscribed := s.subscribed - {stream}, lost := s.lost + {stream}) else s
  }

  predicate Runs(s: Session, actions: seq<Action>)
    decreases |actions|
  {
    actions == [] || (Can(s, actions[0]) && Runs(Do(s, actions[0]), actions[1..]))
  }

  function After(s: Session, actions: seq<Action>): Session
    requires Runs(s, actions)
    decreases |actions|
  {
    if actions == [] then s else After(Do(s, actions[0]), actions[1..])
  }

  // ---------------------------------------------------------------- what is in flight

  function RequestOf(r: Response): Request {
    match r
    case Done(request) => request
    case Listing(id, _, _) => ListSubscriptions(id)
  }

  function RequestsIn(responses: seq<Response>): seq<Request> {
    seq(|responses|, i requires 0 <= i < |responses| => RequestOf(responses[i]))
  }

  /** Every request not answered yet, in the order it was sent. */
  function InFlight(s: Session): seq<Request> {
    RequestsIn(s.toClient) + s.toServer
  }

  /**
   When the requests in flight are answered one after the other, every audit's turn finds the client's
   active set equal to what the requests before it add up to, and in the end nothing is pending.
   */
  ghost predicate InStep(c: Client, base: set<Stream>, flight: seq<Request>)
    decreases |flight|
  {
    if flight == [] then c.pending == map[] && c.audits == {} && c.active == base
    else
      var r := flight[0];
      if r.ListSubscriptions? then
        c.active == base && r.id in c.audits && r.id !in c.pending &&
        InStep(c.(audits := c.audits - {r.id}), base, flight[1..])
      else
        r.id !in c.audits && InStep(Acked(c, r.id), Effect(base, r), flight[1..])
  }

  ghost predicate IdsUpTo(flight: seq<Request>, c: Client) {
    && (forall r | r in flight :: r.id <= c.lastId)
    && (forall id | id in c.pending :: id <= c.lastId && forall other | other in c.pending[id].remaining :: other <= c.lastId)
    && (forall id | id in c.audits :: id <= c.lastId)
  }

  /** Each answer on its way tells what the server had when it wrote it: all that was called for but the lost. */
  ghost predicate Told(base: set<Stream>, responses: seq<Response>, called: set<Stream>)
    decreases |responses|
  {
    if responses == [] then called == base
    else
      (match responses[0]
       case Done(request) => !request.ListSubscriptions?
       case Listing(_, streams, lost) => lost <= base && streams == base - lost) &&
      Told(Effect(base, RequestOf(responses[0])), responses[1..], called)
  }

  ghost predicate Consistent(s: Session) {
    && s.lost !! s.subscribed
    && Told(s.base, s.toClient, s.subscribed + s.lost)
    && IdsUpTo(InFlight(s), s.client)
    && (s.client.status.OPEN? ==> InStep(s.client, s.base, InFlight(s)))
  }

  // ---------------------------------------------------------------- every action keeps it

  /** Client `d` is client `c` with one more update, all of whose ids are later than `n`. */
  ghost predicate Adds(c: Client, d: Client, more: map<int, Pending>, n: int) {
    && d.active == c.active && d.audits == c.audits && d.pending == c.pending + more
    && (forall id | id in more :: id > n)
    && (forall id | id in c.pending :: id <= n && forall other | other in c.pending[id].remaining :: other <= n)
  }

  lemma AddsAfterAck(c: Client, d: Client, more: map<int, Pending>, n: int, id: int)
    requires Adds(c, d, more, n) && id <= n
    ensures Adds(Acked(c, id), Acked(d, id), more, n)
  {
    if id in c.pending {
      assert d.pending[id] == c.pending[id];
      assert Without(d.pending, id) == Without(c.pending, id) + more;
    }
  }

  lemma NewUpdateInStep(d: Client, base: set<Stream>, n: int, add: set<Stream>, remove: set<Stream>)
    requires d.active == base && d.audits == {}
    requires var ids := IdsOf(RequestsOf(n, add, remove)); d.pending == map id | id in ids :: Pending(ids, add, remove)
    ensures InStep(d, base, RequestsOf(n, add, remove))
  {
    var requests := RequestsOf(n, add, remove);
    var ids := IdsOf(requests);
    if |requests| == 2 {
      assert requests == [Unsubscribe(n + 1, remove), Subscribe(n + 2, add)];
      assert requests[0] in requests && requests[1] in requests;
      assert ids == {n + 1, n + 2};
      assert ids - {n + 1} == {n + 2};
      var e := Acked(d, n + 1);
      assert e.pending == map[n + 2 := Pending({n + 2}, add, remove)];
      var f := Acked(e, n + 2);
      assert f.pending == map[] && f.active == base - remove + add;
      assert requests[1..] == [Subscribe(n + 2, add)] && requests[1..][1..] == [];
    } else if |requests| == 1 {
      assert requests[0] in requests;
      assert ids == {n + 1};
      assert Acked(d, n + 1).pending == map[];
      assert Acked(d, n + 1).active == base - remove + add;
    } else {
      assert ids == {};
    }
  }

  lemma {:induction false} UpdateInStep(c: Client, d: Client, base: set<Stream>, flight: seq<Request>, n: int,
                                        add: set<Stream>, remove: set<Stream>)
    requires InStep(c, base, flight) && forall r | r in flight :: r.id <= n
    requires var ids := IdsOf(RequestsOf(n, add, remove)); Adds(c, d, map id | id in ids :: Pending(ids, add, remove), n)
    ensures InStep(d, base, flight + RequestsOf(n, add, remove))
    decreases |flight|
  {
    var requests := RequestsOf(n, add, remove);
    var ids := IdsOf(requests);
    var more := map id | id in ids :: Pending(ids, add, remove);
    if flight == [] {
      assert flight + requests == requests && c.pending + more == more;
      NewUpdateInStep(d, base, n, add, remove);
    } else {
      var r := flight[0];
      assert (flight + requests)[0] == r && (flight + requests)[1..] == flight[1..] + requests;
      if r.ListSubscriptions? {
        UpdateInStep(c.(audits := c.audits - {r.id}), d.(audits := d.audits - {r.id}), base, flight[1..], n, add, remove);
      } else {
        AddsAfterAck(c, d, more, n, r.id);
        UpdateInStep(Acked(c, r.id), Acked(d, r.id), Effect(base, r), flight[1..], n, add, remove);
      }
    }
  }

  lemma AckKeepsRest(c: Client, id: int)
    ensures Acked(c, id).audits == c.audits && Acked(c, id).lastId == c.lastId && Acked(c, id).status == c.status
  {
    hide Without;
  }

  /** Client `d` is client `c` with one more audit, whose id is later than all others. */
  ghost predicate Audits(c: Client, d: Client, id: int) {
    && d.active == c.active && d.pending == c.pending && d.audits == c.audits + {id} && id !in c.audits
    && (forall i | i in c.pending :: i < id)
  }

  lemma AuditsAfterAck(c: Client, d: Client, id: int, acked: int)
    requires Audits(c, d, id) && acked < id
    ensures Audits(Acked(c, acked), Acked(d, acked), id)
  {
  }

  lemma {:induction false} AuditInStep(c: Client, d: Client, base: set<Stream>, flight: seq<Request>, id: int)
    requires InStep(c, base, flight) && Audits(c, d, id) && forall r | r in flight :: r.id < id
    ensures InStep(d, base, flight + [ListSubscriptions(id)])
    decreases |flight|
  {
    var more := [ListSubscriptions(id)];
    if flight == [] {
      assert flight + more == more && more[1..] == [];
      assert d.audits - {id} == {};
    } else {
      var r := flight[0];
      assert (flight + more)[0] == r && (flight + more)[1..] == flight[1..] + more;
      if r.ListSubscriptions? {
        AuditInStep(c.(audits := c.audits - {r.id}), d.(audits := d.audits - {r.id}), base, flight[1..], id);
      } else {
        AuditsAfterAck(c, d, id, r.id);
        AuditInStep(Acked(c, r.id), Acked(d, r.id), Effect(base, r), flight[1..], id);
      }
    }
  }

  lemma InFlightServed(s: Session)
    requires s.toServer != []
    ensures InFlight(ServeOne(s)) == InFlight(s)
  {
    var t := ServeOne(s);
    var last := t.toClient[|s.toClient|];
    assert RequestOf(last) == s.toServer[0];
    assert RequestsIn(t.toClient) == RequestsIn(s.toClient) + [s.toServer[0]];
    assert s.toServer == [s.toServer[0]] + s.toServer[1..];
  }

  lemma InFlightReceived(s: Session)
    requires s.toClient != []
    ensures InFlight(s) != [] && InFlight(s)[0] == RequestOf(s.toClient[0])
    ensures InFlight(ReceiveOne(s)) == InFlight(s)[1..]
  {
    hide Answered;
    assert RequestsIn(s.toClient[1..]) == RequestsIn(s.toClient)[1..];
  }

  lemma {:induction false} ToldOneMore(base: set<Stream>, responses: seq<Response>, called: set<Stream>, r: Response)
    requires Told(base, responses, called)
    requires match r
             case Done(request) => !request.ListSubscriptions?
             case Listing(_, streams, lost) => lost <= called && streams == called - lost
    ensures Told(base, responses + [r], Effect(called, RequestOf(r)))
    decreases |responses|
  {
    if responses == [] {
      assert responses + [r] == [r] && [r][1..] == [];
    } else {
      assert (responses + [r])[1..] == responses[1..] + [r];
      ToldOneMore(Effect(base, RequestOf(responses[0])), responses[1..], called, r);
    }
  }

  lemma ServeConsistent(s: Session)
    requires Consistent(s) && s.toServer != []
    ensures Consistent(ServeOne(s))
  {
    InFlightServed(s);
    var r := s.toServer[0];
    var t := ServeOne(s);
    var called := s.subscribed + s.lost;
    var last := t.toClient[|s.toClient|];
    assert t.toClient == s.toClient + [last];
    ToldOneMore(s.base, s.toClient, called, last);
    assert t.subscribed + t.lost == Effect(called, r);
    hide InStep, Told, InFlight, IdsUpTo;
  }

  lemma UpdateIdsUpTo(c: Client, flight: seq<Request>, add: set<Stream>, remove: set<Stream>)
    requires IdsUpTo(flight, c)
    ensures IdsUpTo(flight + RequestsOf(c.lastId, add, remove), Updated(c, add, remove))
  {
    var requests := RequestsOf(c.lastId, add, remove);
    assert forall r | r in requests :: c.lastId < r.id <= c.lastId + |requests|;
  }

  lemma UpdateAdds(c: Client, flight: seq<Request>, add: set<Stream>, remove: set<Stream>)
    requires IdsUpTo(flight, c)
    ensures var ids := IdsOf(RequestsOf(c.lastId, add, remove));
            Adds(c, Updated(c, add, remove), map id | id in ids :: Pending(ids, add, remove), c.lastId)
  {
    assert forall r | r in RequestsOf(c.lastId, add, remove) :: c.lastId < r.id;
  }

  lemma UpdateConsistent(s: Session, add: set<Stream>, remove: set<Stream>)
    requires Consistent(s) && s.client.status.OPEN?
    ensures Consistent(Do(s, Update(add, remove)))
  {
    hide RequestsOf, InStep, Told, IdsUpTo, Adds, IdsOf, Updated, RequestsIn;
    var c := s.client;
    var t := Do(s, Update(add, remove));
    assert InFlight(t) == InFlight(s) + RequestsOf(c.lastId, add, remove);
    UpdateIdsUpTo(c, InFlight(s), add, remove);
    UpdateAdds(c, InFlight(s), add, remove);
    FlightIds(InFlight(s), c);
    UpdateInStep(c, t.client, s.base, InFlight(s), c.lastId, add, remove);
    hide InFlight;
  }

  lemma FlightIds(flight: seq<Request>, c: Client)
    requires IdsUpTo(flight, c)
    ensures forall r | r in flight :: r.id <= c.lastId
  {
  }

  lemma AuditConsistent(s: Session)
    requires Consistent(s) && s.client.status.OPEN?
    ensures Consistent(Do(s, Audit))
  {
    var c := s.client;
    var t := Do(s, Audit);
    assert InFlight(t) == InFlight(s) + AuditRequests(c);
    if c.audits == {} && c.pending == map[] {
      AuditInStep(c, t.client, s.base, InFlight(s), c.lastId + 1);
    } else {
      assert InFlight(t) == InFlight(s);
    }
    hide InStep, Told, InFlight;
  }

  lemma AckIdsUpTo(c: Client, flight: seq<Request>, id: int)
    requires IdsUpTo(flight, c) && flight != []
    ensures IdsUpTo(flight[1..], Acked(c, id))
  {
    var d := Acked(c, id);
    forall i | i in d.pending
      ensures i <= d.lastId && forall other | other in d.pending[i].remaining :: other <= d.lastId
    {
      assert i in c.pending;
      assert d.pending[i].remaining <= c.pending[i].remaining;
    }
  }

  /** The next answer, handled: an audit's list is judged, an acknowledgement counted. */
  lemma ReceiveConsistent(s: Session)
    requires Consistent(s) && s.client.status.OPEN? && s.toClient != []
    ensures Consistent(ReceiveOne(s))
    ensures s.toClient[0].Listing? ==>
              (ReceiveOne(s).client.status.MISMATCH? <==> s.toClient[0].lost != {}) && s.toClient[0].lost <= s.client.active
    ensures s.toClient[0].Done? ==> ReceiveOne(s).client.status.OPEN?
  {
    InFlightReceived(s);
    var r := InFlight(s)[0];
    var c := s.client;
    match s.toClient[0] {
      case Done(request) =>
        AckKeepsRest(c, request.id);
        AckIdsUpTo(c, InFlight(s), request.id);
        hide InFlight, IdsUpTo, Without;
      case Listing(id, streams, lost) =>
        assert c.active == s.base && id in c.audits && id !in c.pending;
        assert streams == s.base - lost && lost <= s.base;
        assert streams == c.active <==> lost == {};
        assert IdsUpTo(InFlight(s)[1..], c.(audits := c.audits - {id}));
        hide InFlight, Without;
    }
  }

  lemma DropConsistent(s: Session, stream: Stream)
    requires Consistent(s) && s.client.status.OPEN?
    ensures Consistent(Do(s, Drop(stream)))
  {
    var t := Do(s, Drop(stream));
    assert t.subscribed + t.lost == s.subscribed + s.lost;
    assert InFlight(t) == InFlight(s);
    hide InStep, Told, IdsUpTo, InFlight;
  }

  lemma StepConsistent(s: Session, a: Action)
    requires Consistent(s) && Can(s, a)
    ensures Consistent(Do(s, a))
  {
    hide Consistent;
    match a
    case Update(add, remove) => UpdateConsistent(s, add, remove);
    case Audit => AuditConsistent(s);
    case Serve => ServeConsistent(s);
    case Receive => ReceiveConsistent(s);
    case Drop(stream) => DropConsistent(s, stream);
  }

  lemma {:induction false} RunConsistent(s: Session, actions: seq<Action>)
    requires Consistent(s) && Runs(s, actions)
    ensures Consistent(After(s, actions))
    decreases |actions|
  {
    hide Consistent, Can, Do;
    if actions != [] {
      StepConsistent(s, actions[0]);
      RunConsistent(Do(s, actions[0]), actions[1..]);
    }
  }

  lemma OpenedConsistent(subscriptions: set<Stream>, firstId: int)
    ensures Consistent(Opened(subscriptions, firstId))
  {
    var s := Opened(subscriptions, firstId);
    assert RequestsIn([]) == [];
    assert InFlight(s) == [Subscribe(firstId, subscriptions)];
    assert InFlight(s)[1..] == [];
    assert Acked(s.client, firstId) == s.client;
  }

  // ---------------------------------------------------------------- the audit

  /**
   When the client handles the answer to an audit, in any interleaving of any number of updates, it
   raises a mismatch exactly when the server, at the time it wrote the list, had dropped a stream that
   the requests it had processed call for. Everything lost then is among the active subscriptions.
   */
  lemma AuditIsExact(subscriptions: set<Stream>, firstId: int, actions: seq<Action>)
    requires Runs(Opened(subscriptions, firstId), actions)
    requires var s := After(Opened(subscriptions, firstId), actions);
             s.client.status.OPEN? && s.toClient != [] && s.toClient[0].Listing?
    ensures var s := After(Opened(subscriptions, firstId), actions);
            && (ReceiveOne(s).client.status.MISMATCH? <==> s.toClient[0].lost != {})
            && s.toClient[0].lost == s.client.active - s.toClient[0].streams
  {
    OpenedConsistent(subscriptions, firstId);
    RunConsistent(Opened(subscriptions, firstId), actions);
    var s := After(Opened(subscriptions, firstId), actions);
    ReceiveConsistent(s);
    InFlightReceived(s);
    assert s.client.active == s.base;
  }

  /** The list the server writes leaves out exactly what it has lost by then. */
  lemma ListingTellsLoss(subscriptions: set<Stream>, firstId: int, actions: seq<Action>)
    requires Runs(Opened(subscriptions, firstId), actions)
    requires var s := After(Opened(subscriptions, firstId), actions);
             s.toServer != [] && s.toServer[0].ListSubscriptions?
    ensures var s := After(Opened(subscriptions, firstId), actions);
            var last := ServeOne(s).toClient[|s.toClient|];
            last.Listing? && last.lost == s.lost && s.lost !! last.streams
  {
    OpenedConsistent(subscriptions, firstId);
    RunConsistent(Opened(subscriptions, firstId), actions);
  }

  predicate NoDrops(actions: seq<Action>) {
    forall a | a in actions :: !a.Drop?
  }

  ghost predicate Lossless(s: Session) {
    s.lost == {} && forall r | r in s.toClient && r.Listing? :: r.lost == {}
  }

  lemma {:induction false} LosslessRun(s: Session, actions: seq<Action>)
    requires Consistent(s) && Lossless(s) && Runs(s, actions) && NoDrops(actions) && !s.client.status.MISMATCH?
    ensures !After(s, actions).client.status.MISMATCH?
    decreases |actions|
  {
    if actions != [] {
      var a := actions[0];
      assert a in actions;
      StepConsistent(s, a);
      if a.Receive? {
        ReceiveConsistent(s);
      }
      LosslessStep(s, a);
      assert forall b | b in actions[1..] :: b in actions;
      hide Consistent, Lossless, Can, Do;
      LosslessRun(Do(s, a), actions[1..]);
    }
  }

  lemma LosslessStep(s: Session, a: Action)
    requires Lossless(s) && Can(s, a) && !a.Drop?
    ensures Lossless(Do(s, a))
    ensures !a.Receive? ==> !Do(s, a).client.status.MISMATCH?
    ensures a.Receive? ==> s.toClient[0].Listing? ==> s.toClient[0].lost == {}
  {
    hide Answered, Updated;
    match a
    case Update(add, remove) => UpdateStatus(s.client, add, remove);
    case _ =>
  }

  lemma UpdateStatus(c: Client, add: set<Stream>, remove: set<Stream>)
    ensures Updated(c, add, remove).status == c.status
  {
  }

  /** A server that drops nothing never sets off the audit. */
  lemma NoFalseAlarm(subscriptions: set<Stream>, firstId: int, actions: seq<Action>)
    requires Runs(Opened(subscriptions, firstId), actions) && NoDrops(actions)
    ensures !After(Opened(subscriptions, firstId), actions).client.status.MISMATCH?
  {
    OpenedConsistent(subscriptions, firstId);
    LosslessRun(Opened(subscriptions, firstId), actions);
  }

  /** The plain case: with nothing in flight, a dropped stream is caught by the audit that follows. */
  lemma DroppedIsCaught(s: Session, stream: Stream)
    requires Consistent(s) && s.client.status.OPEN? && InFlight(s) == [] && stream in s.subscribed
    ensures var actions := [Drop(stream), Audit, Serve, Receive];
            Runs(s, actions) && After(s, actions).client.status.MISMATCH?
  {
    assert s.toServer == [] && |RequestsIn(s.toClient)| == 0;
    assert s.toClient == [];
    var s1 := Do(s, Drop(stream));
    var s2 := Do(s1, Audit);
    var id := s.client.lastId + 1;
    assert s2.toServer == [ListSubscriptions(id)];
    var s3 := Do(s2, Serve);
    assert s3.toServer == [] && s3.toClient == [Listing(id, s1.subscribed, s1.lost)];
    var s4 := Do(s3, Receive);
    assert s1.subscribed != s.client.active;
    assert s4.client.status.MISMATCH?;
    hide Do, Can, Consistent, InFlight;
    CanAll(s, s1, s2, s3, stream);
    assert Runs(s3, [Receive]) && After(s3, [Receive]) == s4;
    assert [Serve, Receive][1..] == [Receive];
    assert Runs(s2, [Serve, Receive]) && After(s2, [Serve, Receive]) == s4;
    assert [Audit, Serve, Receive][1..] == [Serve, Receive];
    assert Runs(s1, [Audit, Serve, Receive]) && After(s1, [Audit, Serve, Receive]) == s4;
    assert [Drop(stream), Audit, Serve, Receive][1..] == [Audit, Serve, Receive];
  }

  lemma CanAll(s: Session, s1: Session, s2: Session, s3: Session, stream: Stream)
    requires s.client.status.OPEN? && s1.client.status.OPEN? && s2.client.status.OPEN? && s3.client.status.OPEN?
    requires s2.toServer != [] && s3.toClient != []
    ensures Can(s, Drop(stream)) && Can(s1, Audit) && Can(s2, Serve) && Can(s3, Receive)
  {
  }

  // ---------------------------------------------------------------- updates come into force

  /** What the subscriptions become once the requests are answered one after the other. */
  function AfterAll(base: set<Stream>, flight: seq<Request>): set<Stream>
    decreases |flight|
  {
    if flight == [] then base else AfterAll(Effect(base, flight[0]), flight[1..])
  }

  /** What the updates of a run ask for: each removes and then adds. */
  function Wanted(subscriptions: set<Stream>, actions: seq<Action>): set<Stream>
    decreases |actions|
  {
    if actions == [] then subscriptions
    else if actions[0].Update? then Wanted(subscriptions - actions[0].remove + actions[0].add, actions[1..])
    else Wanted(subscriptions, actions[1..])
  }

  lemma {:induction false} AfterAllConcat(base: set<Stream>, a: seq<Request>, b: seq<Request>)
    ensures AfterAll(base, a + b) == AfterAll(AfterAll(base, a), b)
    decreases |a|
  {
    if a == [] {
      assert a + b == b;
    } else {
      assert (a + b)[1..] == a[1..] + b;
      AfterAllConcat(Effect(base, a[0]), a[1..], b);
    }
  }

  lemma UpdateAsks(base: set<Stream>, n: int, add: set<Stream>, remove: set<Stream>)
    ensures AfterAll(base, RequestsOf(n, add, remove)) == base - remove + add
  {
    var requests := RequestsOf(n, add, remove);
    if |requests| == 2 {
      assert requests == [Unsubscribe(n + 1, remove), Subscribe(n + 2, add)];
      var rest := requests[1..];
      assert rest == [Subscribe(n + 2, add)] && rest[1..] == [];
      assert AfterAll(base - remove + add, []) == base - remove + add;
      assert AfterAll(base - remove, rest) == base - remove + add;
    } else if |requests| == 1 {
      assert requests[1..] == [];
    }
  }

  /** Only an update changes what is called for, and it changes it as asked. */
  lemma CalledForStep(s: Session, a: Action)
    requires Can(s, a)
    ensures var called := AfterAll(s.base, InFlight(s));
            AfterAll(Do(s, a).base, InFlight(Do(s, a))) ==
              if a.Update? then called - a.remove + a.add else called
  {
    match a
    case Update(add, remove) =>
      hide RequestsOf, Updated, RequestsIn, AfterAll, Effect;
      assert InFlight(Do(s, a)) == InFlight(s) + RequestsOf(s.client.lastId, add, remove);
      AfterAllConcat(s.base, InFlight(s), RequestsOf(s.client.lastId, add, remove));
      UpdateAsks(AfterAll(s.base, InFlight(s)), s.client.lastId, add, remove);
    case Audit =>
      hide AuditDue, RequestsIn;
      assert InFlight(Do(s, a)) == InFlight(s) + AuditRequests(s.client);
      AfterAllConcat(s.base, InFlight(s), AuditRequests(s.client));
      AuditAsksNothing(AfterAll(s.base, InFlight(s)), s.client);
      hide AfterAll, AuditRequests;
    case Serve => InFlightServed(s); hide InFlight, AfterAll;
    case Receive =>
      InFlightReceived(s);
      hide InFlight, Answered;
    case Drop(_) =>
      assert InFlight(Do(s, a)) == InFlight(s);
      hide InFlight, AfterAll;
  }

  lemma AuditAsksNothing(base: set<Stream>, c: Client)
    ensures AfterAll(base, AuditRequests(c)) == base
  {
    if AuditRequests(c) != [] {
      assert AuditRequests(c)[1..] == [];
    }
  }

  lemma {:induction false} CalledForRun(s: Session, actions: seq<Action>)
    requires Runs(s, actions)
    ensures var t := After(s, actions);
            AfterAll(t.base, InFlight(t)) == Wanted(AfterAll(s.base, InFlight(s)), actions)
    decreases |actions|
  {
    hide Can, Do, InFlight, AfterAll;
    if actions != [] {
      CalledForStep(s, actions[0]);
      CalledForRun(Do(s, actions[0]), actions[1..]);
    }
  }

  /**
   Every update comes into force, in order. Once all requests are answered, the client's active set is
   what the updates asked for, nothing is pending, and the server has all of it but what it has dropped.
   */
  lemma UpdatesComeIntoForce(subscriptions: set<Stream>, firstId: int, actions: seq<Action>)
    requires Runs(Opened(subscriptions, firstId), actions)
    ensures var s := After(Opened(subscriptions, firstId), actions);
            && AfterAll(s.base, InFlight(s)) == Wanted(subscriptions, actions)
            && (s.client.status.OPEN? && InFlight(s) == [] ==>
                  && s.client.active == Wanted(subscriptions, actions)
                  && s.client.pending == map[] && s.client.audits == {}
                  && s.subscribed == Wanted(subscriptions, actions) - s.lost)
  {
    var start := Opened(subscriptions, firstId);
    OpenedConsistent(subscriptions, firstId);
    RunConsistent(start, actions);
    CalledForRun(start, actions);
    assert InFlight(start) == [Subscribe(firstId, subscriptions)] by {
      assert RequestsIn([]) == [];
    }
    assert [Subscribe(firstId, subscriptions)][1..] == [];
    assert AfterAll(start.base, InFlight(start)) == subscriptions;
    var s := After(start, actions);
    hide Runs, After, Opened, Wanted;
    if InFlight(s) == [] {
      assert |RequestsIn(s.toClient)| == 0;
      assert s.toClient == [];
      hide RequestsIn;
    }
  }

  /**
   An update of both kinds counts as active once both its requests are acknowledged, and not before;
   meanwhile it is pending.
   */
  lemma UpdateCountsWhenAcknowledged(c: Client, add: set<Stream>, remove: set<Stream>)
    requires c.pending == map[] && c.audits == {} && add != {} && remove != {}
    ensures var once := Answered(Updated(c, add, remove), c.lastId + 1, None);
            var twice := Answered(once, c.lastId + 2, None);
            && once.active == c.active && once.pending != map[] && AuditDue(once) == once
            && twice.active == c.active - remove + add && twice.pending == map[] && AuditRequests(twice) != []
  {
    var requests := RequestsOf(c.lastId, add, remove);
    assert requests == [Unsubscribe(c.lastId + 1, remove), Subscribe(c.lastId + 2, add)];
    assert requests[0] in requests && requests[1] in requests;
    assert IdsOf(requests) == {c.lastId + 1, c.lastId + 2};
    var once := Answered(Updated(c, add, remove), c.lastId + 1, None);
    assert {c.lastId + 1, c.lastId + 2} - {c.lastId + 1} == {c.lastId + 2};
    assert once.pending == map[c.lastId + 2 := Pending({c.lastId + 2}, add, remove)];
    var twice := Answered(once, c.lastId + 2, None);
    assert twice.pending == map[];
  }

  // ---------------------------------------------------------------- the audit timer

  /** The audits the client waits for are the ones in flight; what is pending is in flight too. */
  lemma {:induction false} InStepIds(c: Client, base: set<Stream>, flight: seq<Request>)
    requires InStep(c, base, flight)
    ensures forall id :: id in c.audits ==> ListSubscriptions(id) in flight
    ensures forall r :: r in flight && r.ListSubscriptions? ==> r.id in c.audits
    ensures forall id :: id in c.pending ==> exists r :: r in flight && r.id == id && !r.ListSubscriptions?
    decreases |flight|
  {
    if flight != [] {
      var r := flight[0];
      var d := if r.ListSubscriptions? then c.(audits := c.audits - {r.id}) else Acked(c, r.id);
      InStepIds(d, if r.ListSubscriptions? then base else Effect(base, r), flight[1..]);
      assert flight == [r] + flight[1..];
      hide InStep;
      forall id | id in c.pending
        ensures exists q :: q in flight && q.id == id && !q.ListSubscriptions?
      {
        if id in d.pending {
          var q :| q in flight[1..] && q.id == id && !q.ListSubscriptions?;
          assert q in flight;
        } else {
          assert r in flight;
        }
      }
    }
  }

  /** An audit is on its way to the server or back. */
  predicate AuditInFlight(s: Session) {
    exists r :: r in InFlight(s) && r.ListSubscriptions?
  }

  /**
   The audit timer in any run: it raises exactly when the last audit is still unanswered. Otherwise it
   sends an audit exactly when no update is pending, so always when nothing is in flight.
   */
  lemma TimerExactly(subscriptions: set<Stream>, firstId: int, actions: seq<Action>)
    requires Runs(Opened(subscriptions, firstId), actions)
    requires After(Opened(subscriptions, firstId), actions).client.status.OPEN?
    ensures var s := After(Opened(subscriptions, firstId), actions); var t := Do(s, Audit);
            && (t.client.status.UNANSWERED? <==> AuditInFlight(s))
            && (AuditInFlight(t) <==> AuditInFlight(s) || s.client.pending == map[])
            && (InFlight(s) == [] ==> AuditInFlight(t) && t.client.status.OPEN?)
  {
    OpenedConsistent(subscriptions, firstId);
    RunConsistent(Opened(subscriptions, firstId), actions);
    hide Runs, Opened, Consistent, InFlight, AuditInFlight;
    TimerAt(After(Opened(subscriptions, firstId), actions));
  }

  lemma AuditsInFlight(s: Session)
    requires InStep(s.client, s.base, InFlight(s))
    ensures s.client.audits != {} <==> AuditInFlight(s)
    ensures InFlight(s) == [] ==> s.client.pending == map[]
  {
    InStepIds(s.client, s.base, InFlight(s));
    hide InFlight;
    if forall id :: id !in s.client.audits {
      assert s.client.audits == {};
    } else {
      var id :| id in s.client.audits;
      assert ListSubscriptions(id) in InFlight(s);
    }
  }

  lemma TimerAt(s: Session)
    requires Consistent(s) && s.client.status.OPEN?
    ensures var t := Do(s, Audit);
            && (t.client.status.UNANSWERED? <==> AuditInFlight(s))
            && (AuditInFlight(t) <==> AuditInFlight(s) || s.client.pending == map[])
            && (InFlight(s) == [] ==> AuditInFlight(t) && t.client.status.OPEN?)
  {
    var t := Do(s, Audit);
    AuditsInFlight(s);
    assert InFlight(t) == InFlight(s) + AuditRequests(s.client);
    hide InFlight, Told, IdsUpTo, InStep, Consistent;
    if AuditRequests(s.client) != [] {
      assert AuditRequests(s.client)[0] in InFlight(t);
    }
  }
}
