/**
 One chunk on its whole way, undisturbed: published at the edge, fetched, stored and described on the
 central side, acknowledged, and collected at the edge once the acknowledgement is back.
 */
module TransferWay {
  import opened Base
  import opened Spool
  import opened AckApply
  import opened AckVerdicts
  import opened Transfer
  import opened TransferHonest
  import opened TransferSeal

  /** The chunk and its manifest are in `ready`, and nothing else is anywhere. */
  function Published(id: string, p: Publication, createdAt: int): System {
    PublishManifestDone(PublishDataDone(INITIAL, id, p), id, p, createdAt)
  }

  /** The central side once the chunk is stored, described and its ACK staged. */
  function Acknowledged(id: string, p: Publication, createdAt: int, at: int): Central {
    Central(map[p.path := p.content], map[p.path.stem := ManifestOf(id, p, createdAt)],
            map[id := Good(Ack(id, Sha(p.content), at))], Waiting, map[])
  }

  function CentralWay(id: string, p: Publication, createdAt: int, at: int): seq<Action> {
    [AtCentral(Fetch(ManifestOf(id, p, createdAt), p.content))] +
    ([AtCentral(Place)] + ([AtCentral(Describe)] + ([AtCentral(StageAck(at))] + [])))
  }

  lemma AtCentralLeads(s: System, c: Central, a: CentralAction, d: Central, rest: seq<Action>, end: System)
    requires s.central == c && CanAtCentral(c, a) && DoAtCentral(c, a) == d && LeadsTo(s.(central := d), rest, end)
    ensures LeadsTo(s, [AtCentral(a)] + rest, end)
  {
    assert Do(s, AtCentral(a)) == s.(central := d);
    hide CanAtCentral, DoAtCentral, LeadsTo, Do;
    OneMore(s, AtCentral(a), rest, end);
  }

  /** The central side takes a chunk it has not yet, verified, and stages its ACK. */
  lemma CentralTakes(s: System, id: string, p: Publication, createdAt: int, at: int)
    requires s.central == INITIAL.central
    ensures LeadsTo(s, CentralWay(id, p, createdAt, at), s.(central := Acknowledged(id, p, createdAt, at)))
  {
    var m := ManifestOf(id, p, createdAt);
    var raw := map[p.path := p.content];
    var c0 := s.central;
    var c1 := c0.(puller := Checked(m, p.content));
    var c2 := c0.(raw := raw, puller := Stored(m));
    var c3 := c2.(rawManifests := map[p.path.stem := m], puller := Recorded(m));
    var c4 := Acknowledged(id, p, createdAt, at);
    var end := s.(central := c4);
    assert DoAtCentral(c0, Fetch(m, p.content)) == c1 && DoAtCentral(c1, Place) == c2;
    assert DoAtCentral(c2, Describe) == c3 && DoAtCentral(c3, StageAck(at)) == c4;
    assert CanAtCentral(c0, Fetch(m, p.content)) && CanAtCentral(c1, Place) && CanAtCentral(c2, Describe)
           && CanAtCentral(c3, StageAck(at));
    hide DoAtCentral, CanAtCentral, Acknowledged, LeadsTo, ManifestOf;
    assert LeadsTo(end, [], end) by {
      Nowhere(end);
    }
    AtCentralLeads(s.(central := c3), c3, StageAck(at), c4, [], end);
    AtCentralLeads(s.(central := c2), c2, Describe, c3, [AtCentral(StageAck(at))] + [], end);
    AtCentralLeads(s.(central := c1), c1, Place, c2, [AtCentral(Describe)] + ([AtCentral(StageAck(at))] + []), end);
    AtCentralLeads(s, c0, Fetch(m, p.content), c1,
                   [AtCentral(Place)] + ([AtCentral(Describe)] + ([AtCentral(StageAck(at))] + [])), end);
  }

  // ---------------------------------------------------------------- steps of the applier as actions

  function ApplySteps(picks: seq<string>): seq<Action>
    decreases |picks|
  {
    if picks == [] then [] else [ApplyStep(picks[0])] + ApplySteps(picks[1..])
  }

  lemma {:induction false} StepsLead(s: System, picks: seq<string>)
    ensures var end := Steps(s.edge, s.applier, picks);
            LeadsTo(s, ApplySteps(picks), s.(edge := end.edge, applier := end.applier))
    decreases |picks|
  {
    hide Step;
    if picks == [] {
      Nowhere(s);
    } else {
      var next := ApplyDone(s, picks[0]);
      StepsLead(next, picks[1..]);
      var end := Steps(s.edge, s.applier, picks);
      assert Do(s, ApplyStep(picks[0])) == next;
      hide LeadsTo, Do, Steps;
      OneMore(s, ApplyStep(picks[0]), ApplySteps(picks[1..]), s.(edge := end.edge, applier := end.applier));
    }
  }

  lemma {:induction false} LeadsOn(s: System, a: seq<Action>, t: System, b: seq<Action>, end: System)
    requires LeadsTo(s, a, t) && LeadsTo(t, b, end)
    ensures LeadsTo(s, a + b, end)
    decreases |a|
  {
    if a == [] {
      assert a + b == b;
    } else {
      assert Can(s, a[0]) && LeadsTo(Do(s, a[0]), a[1..], t);
      hide LeadsTo, Can, Do;
      LeadsOn(Do(s, a[0]), a[1..], t, b, end);
      OneMore(s, a[0], a[1..] + b, end);
      assert a + b == [a[0]] + (a[1..] + b);
    }
  }

  // ---------------------------------------------------------------- the whole way

  /** The state in which the ACK has arrived at the edge. */
  function Arrived(id: string, p: Publication, createdAt: int, at: int): System {
    var s := Published(id, p, createdAt);
    s.(central := Acknowledged(id, p, createdAt, at).(staged := map[]),
       edge := s.edge.(acks := map[id := Good(Ack(id, Sha(p.content), at))]))
  }

  lemma ArrivedAccepts(id: string, p: Publication, createdAt: int, at: int)
    ensures var e := Arrived(id, p, createdAt, at).edge;
            && id in e.acks && VerdictOn(e, id) == Accept(Ack(id, Sha(p.content), at), ManifestOf(id, p, createdAt))
            && e.applying == map[]
  {
    var e, m := Arrived(id, p, createdAt, at).edge, ManifestOf(id, p, createdAt);
    assert e.manifests == map[p.path.stem := Good(m)];
    assert e.acks == map[id := Good(Ack(id, Sha(p.content), at))] && e.applying == map[];
    assert forall other :: other in Placed(e.manifests) <==> other == m;
    assert Sole(Placed(e.manifests), m) && m.chunk.chunkId == id && m.chunk.sha == Sha(p.content);
    hide PublishManifestDone, PublishDataDone, Arrived, ManifestOf, Placed;
    var known := Known(Placed(e.manifests));
    assert id in known && known[id] == m;
    hide Known, Sole;
  }

  lemma ReachesPublished(id: string, p: Publication, createdAt: int)
    ensures LeadsTo(INITIAL, [PublishData(id, p)] + ([PublishManifest(id, createdAt)] + []), Published(id, p, createdAt))
    ensures Published(id, p, createdAt).central == INITIAL.central && Published(id, p, createdAt).edge.acks == map[]
    ensures Published(id, p, createdAt).applier.Idle?
  {
    var s := PublishDataDone(INITIAL, id, p);
    var t := Published(id, p, createdAt);
    assert id in s.published && s.published[id] == p;
    hide PublishDataDone, PublishManifestDone, LeadsTo;
    assert LeadsTo(t, [], t) by {
      Nowhere(t);
    }
    OneMore(s, PublishManifest(id, createdAt), [], t);
    OneMore(INITIAL, PublishData(id, p), [PublishManifest(id, createdAt)] + [], t);
  }

  lemma ReachesArrived(id: string, p: Publication, createdAt: int, at: int) returns (actions: seq<Action>)
    ensures LeadsTo(INITIAL, actions, Arrived(id, p, createdAt, at))
    ensures Arrived(id, p, createdAt, at).applier.Idle?
  {
    var s := Published(id, p, createdAt);
    var t := s.(central := Acknowledged(id, p, createdAt, at));
    var end := Arrived(id, p, createdAt, at);
    var pushed := end.(central := t.central);
    ReachesPublished(id, p, createdAt);
    CentralTakes(s, id, p, createdAt, at);
    assert Can(t, PushAck(id)) && Do(t, PushAck(id)) == pushed;
    assert Can(pushed, AtCentral(UnstageAck(id))) && Do(pushed, AtCentral(UnstageAck(id))) == end by {
      assert t.central.staged - {id} == map[];
    }
    assert end.applier == s.applier;
    hide Published, Acknowledged, Arrived, LeadsTo, Can, Do;
    assert LeadsTo(end, [], end) by {
      Nowhere(end);
    }
    OneMore(pushed, AtCentral(UnstageAck(id)), [], end);
    OneMore(t, PushAck(id), [AtCentral(UnstageAck(id))] + [], end);
    LeadsOn(INITIAL, [PublishData(id, p)] + ([PublishManifest(id, createdAt)] + []), s, CentralWay(id, p, createdAt, at), t);
    actions := [PublishData(id, p)] + ([PublishManifest(id, createdAt)] + []) + CentralWay(id, p, createdAt, at);
    var rest := [PushAck(id)] + ([AtCentral(UnstageAck(id))] + []);
    LeadsOn(INITIAL, actions, t, rest, end);
    actions := actions + rest;
  }

  /**
   Undisturbed, every chunk gets all the way: it ends in the raw store with its content, and its data
   file, manifest and ACK are gone from the edge, which has logged REMOTE_GC for it.
   */
  lemma ChunkGetsThrough(id: string, p: Publication, createdAt: int, at: int) returns (actions: seq<Action>, end: System)
    ensures LeadsTo(INITIAL, actions, end)
    ensures end.central.staged == map[] && p.path in end.central.raw && end.central.raw[p.path] == p.content
    ensures p.path.stem in end.central.rawManifests && end.central.rawManifests[p.path.stem] == ManifestOf(id, p, createdAt)
    ensures p.path !in end.edge.data && p.path.stem !in end.edge.manifests
    ensures end.edge.acks == map[] && end.edge.applying == map[] && GcRecord(id, at) in end.edge.gcLog
    ensures end.applier.Idle?
  {
    var s := Arrived(id, p, createdAt, at);
    var way := ReachesArrived(id, p, createdAt, at);
    ArrivedAccepts(id, p, createdAt, at);
    assert s.central == Acknowledged(id, p, createdAt, at).(staged := map[]);
    assert ManifestOf(id, p, createdAt).chunk.path == p.path;
    hide Arrived, LeadsTo, ManifestOf, VerdictOn, Applied, Steps;
    AcceptedAckCollects(s.edge, id);
    assert TransactionOf(s.edge, id).ack.durableAt == at;
    var picks := RunCanEnd(s.edge);
    StepsLead(s, picks);
    var done := Steps(s.edge, Idle, picks);
    end := s.(edge := done.edge, applier := done.applier);
    LeadsOn(INITIAL, way, s, ApplySteps(picks), end);
    actions := way + ApplySteps(picks);
  }
}
