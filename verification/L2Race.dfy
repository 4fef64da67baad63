/**
 The REST snapshot races the websocket stream: it does not matter when it arrives.

 For a contiguous stream of diffs and a snapshot that one of them covers, inserting the snapshot
 at any position of the stream ends in the same VALID book.
 */
module L2Race {
  import opened Base
  import opened L2Book
  import opened L2Replay

  ghost predicate InSeqOrder(diffs: seq<DepthDiff>) {
    forall i, j :: 0 <= i < j < |diffs| ==> diffs[i].receiveSeq <= diffs[j].receiveSeq
  }

  ghost predicate Distinct(diffs: seq<DepthDiff>) {
    forall i, j :: 0 <= i < j < |diffs| ==> diffs[i].Identity() != diffs[j].Identity()
  }

  ghost predicate FinalsNondecreasing(diffs: seq<DepthDiff>) {
    forall i, j :: 0 <= i < j < |diffs| ==> diffs[i].final <= diffs[j].final
  }

  /** One connection's uninterrupted diff stream. */
  ghost predicate Stream(diffs: seq<DepthDiff>) {
    Contiguous(diffs) && InSeqOrder(diffs) && Distinct(diffs) && FinalsNondecreasing(diffs)
  }

  function Identities(diffs: seq<DepthDiff>): set<DiffIdentity> {
    set d | d in diffs :: d.Identity()
  }

  /** A book with no snapshot and no buffered diff, to which the stream is new. */
  ghost predicate ReadyFor(book: Book, diffs: seq<DepthDiff>) {
    && book.state != VALID
    && book.pending == []
    && book.anchor.None? && book.anchorNs.None?
    && Identities(diffs) !! book.seen
  }

  /** The stream with the snapshot inserted before diff `k`. */
  function WithSnapshotAt(diffs: seq<DepthDiff>, snapshot: DepthSnapshot, k: nat): seq<Input>
    requires k <= |diffs|
  {
    seq(|diffs| + 1, i requires 0 <= i <= |diffs| =>
      if i < k then DiffIn(diffs[i]) else if i == k then SnapshotIn(snapshot) else DiffIn(diffs[i - 1]))
  }

  // ---------------------------------------------------------------- sorting and filtering a stream

  lemma {:induction false} SortedIsFixed(diffs: seq<DepthDiff>)
    requires InSeqOrder(diffs)
    ensures SortBySeq(diffs) == diffs
  {
    if diffs != [] {
      SortedIsFixed(diffs[1..]);
      assert diffs == [diffs[0]] + diffs[1..];
    }
  }

  lemma {:induction false} NotBeforeKeepsOrder(diffs: seq<DepthDiff>, id: int)
    requires InSeqOrder(diffs)
    ensures InSeqOrder(NotBefore(diffs, id))
  {
    if diffs != [] {
      var init := diffs[..|diffs| - 1];
      NotBeforeKeepsOrder(init, id);
      NotBeforeElements(init, id);
      var rest := NotBefore(init, id);
      forall i | 0 <= i < |rest|
        ensures rest[i].receiveSeq <= diffs[|diffs| - 1].receiveSeq
      {
        assert rest[i] in init;
      }
    }
  }

  lemma {:induction false} NotBeforeIdempotent(diffs: seq<DepthDiff>, id: int)
    ensures NotBefore(NotBefore(diffs, id), id) == NotBefore(diffs, id)
  {
    if diffs != [] {
      var init, last := diffs[..|diffs| - 1], diffs[|diffs| - 1];
      NotBeforeIdempotent(init, id);
      var rest := NotBefore(init, id);
      assert (rest + [last])[..|rest|] == rest;
    }
  }

  /** Past the first covering diff the filter keeps everything. */
  lemma {:induction false} NotBeforeSplit(diffs: seq<DepthDiff>, id: int, bridge: nat, m: nat)
    requires FinalsNondecreasing(diffs) && bridge < m <= |diffs| && diffs[bridge].Covers(id)
    ensures NotBefore(diffs[..m], id) == NotBefore(diffs[..bridge], id) + diffs[bridge..m]
  {
    assert diffs[..m][..m - 1] == diffs[..m - 1];
    if m > bridge + 1 {
      NotBeforeSplit(diffs, id, bridge, m - 1);
      assert diffs[bridge..m] == diffs[bridge..m - 1] + [diffs[m - 1]];
    } else {
      assert diffs[bridge..m] == [diffs[bridge]];
    }
  }

  lemma NoneCovers(diffs: seq<DepthDiff>, id: int, m: nat)
    requires m <= FirstCovering(diffs, id)
    ensures FirstCovering(NotBefore(diffs[..m], id), id) == |NotBefore(diffs[..m], id)|
  {
    NotBeforeElements(diffs[..m], id);
    forall i | 0 <= i < |NotBefore(diffs[..m], id)|
      ensures !NotBefore(diffs[..m], id)[i].Covers(id)
    {
      assert NotBefore(diffs[..m], id)[i] in diffs[..m];
    }
  }

  lemma BridgeIndex(diffs: seq<DepthDiff>, id: int, m: nat)
    requires FinalsNondecreasing(diffs)
    requires FirstCovering(diffs, id) < m <= |diffs|
    ensures var bridge := FirstCovering(diffs, id);
            var kept := NotBefore(diffs[..m], id);
            && FirstCovering(kept, id) < |kept|
            && kept[FirstCovering(kept, id)..] == diffs[bridge..m]
  {
    var bridge := FirstCovering(diffs, id);
    NotBeforeSplit(diffs, id, bridge, m);
    var head := NotBefore(diffs[..bridge], id);
    var kept := NotBefore(diffs[..m], id);
    assert kept[|head|] == diffs[bridge];
    NoneCovers(diffs, id, bridge);
  }

  // ---------------------------------------------------------------- the three phases

  /** The identities seen once the first `m` diffs have arrived. */
  function Seen(book: Book, diffs: seq<DepthDiff>, m: nat): set<DiffIdentity>
    requires m <= |diffs|
  {
    if m == 0 then book.seen else Seen(book, diffs, m - 1) + {diffs[m - 1].Identity()}
  }

  lemma {:induction false} SeenIsIdentities(book: Book, diffs: seq<DepthDiff>, m: nat)
    requires m <= |diffs|
    ensures Seen(book, diffs, m) == book.seen + Identities(diffs[..m])
  {
    if m > 0 {
      SeenIsIdentities(book, diffs, m - 1);
      assert diffs[..m] == diffs[..m - 1] + [diffs[m - 1]];
    }
  }

  lemma NotYetSeen(book: Book, diffs: seq<DepthDiff>, m: nat)
    requires Stream(diffs) && ReadyFor(book, diffs) && m < |diffs|
    ensures diffs[m].Identity() !in Seen(book, diffs, m)
  {
    SeenIsIdentities(book, diffs, m);
    assert diffs[m] in diffs;
    assert diffs[m].Identity() in Identities(diffs);
  }

  /** `Replay` of the diffs from `from` up to `m`. */
  function ReplayBetween(start: Ladder, diffs: seq<DepthDiff>, from: nat, m: nat): Ladder
    requires from <= m <= |diffs|
  {
    if m == from then start
    else
      var before := ReplayBetween(start, diffs, from, m - 1);
      Ladder(ApplyLevels(before.bids, diffs[m - 1].bids), ApplyLevels(before.asks, diffs[m - 1].asks),
             diffs[m - 1].final)
  }

  lemma {:induction false} ReplayOfSlice(start: Ladder, diffs: seq<DepthDiff>, from: nat, m: nat)
    requires from <= m <= |diffs|
    ensures Replay(start, diffs[from..m]) == ReplayBetween(start, diffs, from, m)
  {
    hide ApplyLevels;
    if from < m {
      ReplayOfSlice(start, diffs, from, m - 1);
      var slice := diffs[from..m];
      assert |slice| == m - from && slice[m - from - 1] == diffs[m - 1];
      assert slice[..m - from - 1] == diffs[from..m - 1];
    }
  }

  /** Diffs arrive and wait; there is no snapshot yet. */
  function Buffered(book: Book, diffs: seq<DepthDiff>, m: nat): Book
    requires m <= |diffs|
  {
    book.(pending := diffs[..m], seen := Seen(book, diffs, m))
  }

  /** The snapshot is there, its bridge is not. */
  function Waiting(book: Book, diffs: seq<DepthDiff>, snapshot: DepthSnapshot, m: nat): Book
    requires m <= |diffs|
  {
    book.(bids := BookSide(snapshot.bids), asks := BookSide(snapshot.asks),
          previousUpdateId := Some(snapshot.lastUpdateId),
          pending := NotBefore(diffs[..m], snapshot.lastUpdateId),
          seen := Seen(book, diffs, m),
          anchor := Some(snapshot.lastUpdateId), anchorNs := Some(snapshot.receivedNs))
  }

  /** Snapshot and bridge are there: the book shows the replay from the bridge on. */
  function Live(book: Book, diffs: seq<DepthDiff>, snapshot: DepthSnapshot, m: nat): Book
    requires FirstCovering(diffs, snapshot.lastUpdateId) < m <= |diffs|
  {
    var ladder := ReplayBetween(SnapshotLadder(snapshot), diffs, FirstCovering(diffs, snapshot.lastUpdateId), m);
    Book(book.connectionId, VALID, ladder.bids, ladder.asks, Some(ladder.lastId), [],
         Seen(book, diffs, m), None, None)
  }

  function Reached(book: Book, diffs: seq<DepthDiff>, snapshot: DepthSnapshot, m: nat): Book
    requires m <= |diffs|
  {
    if m <= FirstCovering(diffs, snapshot.lastUpdateId) then Waiting(book, diffs, snapshot, m)
    else Live(book, diffs, snapshot, m)
  }

  function ValidFrom(book: Book, diffs: seq<DepthDiff>, snapshot: DepthSnapshot, m: nat): StateChange
    requires FirstCovering(diffs, snapshot.lastUpdateId) < m <= |diffs|
  {
    StateChange(book.connectionId,
                Max(snapshot.receivedNs, diffs[FirstCovering(diffs, snapshot.lastUpdateId)].receivedNs),
                VALID, Some(diffs[m - 1].final), "snapshot_bridge")
  }

  /** A buffer that holds what the stream left for the snapshot. */
  ghost predicate HoldsStream(anchored: Book, book: Book, diffs: seq<DepthDiff>, snapshot: DepthSnapshot, m: nat)
    requires m <= |diffs|
  {
    && anchored == Waiting(book, diffs, snapshot, m).(pending := anchored.pending)
    && InSeqOrder(anchored.pending)
    && NotBefore(anchored.pending, snapshot.lastUpdateId) == NotBefore(diffs[..m], snapshot.lastUpdateId)
  }

  lemma StaysWaiting(book: Book, diffs: seq<DepthDiff>, snapshot: DepthSnapshot, m: nat, anchored: Book)
    requires m <= |diffs| && m <= FirstCovering(diffs, snapshot.lastUpdateId)
    requires HoldsStream(anchored, book, diffs, snapshot, m)
    ensures TryBridge(anchored) == Outcome(Waiting(book, diffs, snapshot, m), None)
  {
    SortedIsFixed(anchored.pending);
    NoneCovers(diffs, snapshot.lastUpdateId, m);
  }

  lemma SliceContiguous(diffs: seq<DepthDiff>, from: nat, to: nat)
    requires Contiguous(diffs) && from < to <= |diffs|
    ensures Contiguous(diffs[from + 1..to])
    ensures from + 1 < to ==> diffs[from + 1..to][0].previous == diffs[from].final
  {
  }

  /** The chain from the covering diff on is linked and replays the snapshot. */
  lemma LinkedReplay(anchored: Book, diffs: seq<DepthDiff>, snapshot: DepthSnapshot, from: nat, m: nat)
    requires Contiguous(diffs) && from < m <= |diffs|
    requires ShowsLadder(anchored, SnapshotLadder(snapshot))
    ensures var chain := ApplyChain(ApplyDiff(anchored, diffs[from]), diffs[from + 1..m]);
            var ladder := ReplayBetween(SnapshotLadder(snapshot), diffs, from, m);
            && chain.Linked?
            && chain.book == anchored.(bids := ladder.bids, asks := ladder.asks,
                                       previousUpdateId := Some(ladder.lastId))
            && ladder.lastId == diffs[m - 1].final
  {
    SliceContiguous(diffs, from, m);
    var ladder := SnapshotLadder(snapshot);
    var next := Ladder(ApplyLevels(ladder.bids, diffs[from].bids),
                       ApplyLevels(ladder.asks, diffs[from].asks), diffs[from].final);
    ReplayOfSlice(ladder, diffs, from, m);
    ReplayHead(ladder, diffs[from..m]);
    assert diffs[from..m][1..] == diffs[from + 1..m];
    ApplyChainIsReplay(ApplyDiff(anchored, diffs[from]), diffs[from + 1..m], next);
  }

  /** What a bridge gives once the candidates from the covering diff on are known to be linked. */
  lemma BridgeOutcome(anchored: Book, id: int, ns: int, chain: seq<DepthDiff>, live: Book)
    requires anchored.anchor == Some(id) && anchored.anchorNs == Some(ns)
    requires var kept := NotBefore(SortBySeq(anchored.pending), id);
             FirstCovering(kept, id) < |kept| && kept[FirstCovering(kept, id)..] == chain
    requires chain != [] && ApplyChain(ApplyDiff(anchored, chain[0]), chain[1..]) == Linked(live)
    ensures TryBridge(anchored) ==
              Outcome(live.(pending := [], state := VALID, anchor := None, anchorNs := None),
                      Some(StateChange(anchored.connectionId, Max(ns, chain[0].receivedNs), VALID,
                                       live.previousUpdateId, "snapshot_bridge")))
  {
    var kept := NotBefore(SortBySeq(anchored.pending), id);
    var index := FirstCovering(kept, id);
    assert kept[index] == chain[0] && kept[index + 1..] == chain[1..];
  }

  lemma GoesLive(book: Book, diffs: seq<DepthDiff>, snapshot: DepthSnapshot, m: nat, anchored: Book)
    requires Contiguous(diffs) && FinalsNondecreasing(diffs)
    requires FirstCovering(diffs, snapshot.lastUpdateId) < m <= |diffs|
    requires HoldsStream(anchored, book, diffs, snapshot, m)
    ensures TryBridge(anchored) == Outcome(Live(book, diffs, snapshot, m),
                                           Some(ValidFrom(book, diffs, snapshot, m)))
  {
    var id := snapshot.lastUpdateId;
    var bridge := FirstCovering(diffs, id);
    assert SortBySeq(anchored.pending) == anchored.pending by {
      SortedIsFixed(anchored.pending);
    }
    BridgeIndex(diffs, id, m);
    var chain := diffs[bridge..m];
    assert chain[0] == diffs[bridge] && chain[1..] == diffs[bridge + 1..m];
    LinkedReplay(anchored, diffs, snapshot, bridge, m);
    var live := ApplyChain(ApplyDiff(anchored, chain[0]), chain[1..]).book;
    BridgeOutcome(anchored, id, snapshot.receivedNs, chain, live);
  }

  /** An anchored book that holds the stream bridges exactly when the covering diff has arrived. */
  lemma Bridging(book: Book, diffs: seq<DepthDiff>, snapshot: DepthSnapshot, m: nat, anchored: Book)
    requires Stream(diffs) && m <= |diffs|
    requires HoldsStream(anchored, book, diffs, snapshot, m)
    ensures TryBridge(anchored) ==
              Outcome(Reached(book, diffs, snapshot, m),
                      if m <= FirstCovering(diffs, snapshot.lastUpdateId) then None
                      else Some(ValidFrom(book, diffs, snapshot, m)))
  {
    if m <= FirstCovering(diffs, snapshot.lastUpdateId) {
      StaysWaiting(book, diffs, snapshot, m, anchored);
    } else {
      GoesLive(book, diffs, snapshot, m, anchored);
    }
  }

  lemma BufferedStep(book: Book, diffs: seq<DepthDiff>, m: nat)
    requires Stream(diffs) && ReadyFor(book, diffs) && m < |diffs|
    ensures OnDiff(Buffered(book, diffs, m), diffs[m]) == Outcome(Buffered(book, diffs, m + 1), None)
  {
    NotYetSeen(book, diffs, m);
    assert diffs[..m] + [diffs[m]] == diffs[..m + 1];
  }

  lemma SnapshotStep(book: Book, diffs: seq<DepthDiff>, snapshot: DepthSnapshot, m: nat)
    requires Stream(diffs) && ReadyFor(book, diffs) && m <= |diffs|
    ensures var outcome := OnSnapshot(Buffered(book, diffs, m), snapshot);
            && outcome.book == Reached(book, diffs, snapshot, m)
            && outcome.change == if m <= FirstCovering(diffs, snapshot.lastUpdateId) then None
                                 else Some(ValidFrom(book, diffs, snapshot, m))
  {
    var anchored := Waiting(book, diffs, snapshot, m).(pending := diffs[..m]);
    Bridging(book, diffs, snapshot, m, anchored);
  }

  /** Appending the next diff to a waiting buffer keeps it the stream's. */
  lemma WaitingBuffer(book: Book, diffs: seq<DepthDiff>, snapshot: DepthSnapshot, m: nat)
    requires InSeqOrder(diffs) && m < |diffs|
    ensures var buffer := NotBefore(diffs[..m], snapshot.lastUpdateId) + [diffs[m]];
            HoldsStream(Waiting(book, diffs, snapshot, m + 1).(pending := buffer), book, diffs, snapshot, m + 1)
  {
    var id := snapshot.lastUpdateId;
    var kept := NotBefore(diffs[..m], id);
    var buffer := kept + [diffs[m]];
    NotBeforeIdempotent(diffs[..m], id);
    assert buffer[..|buffer| - 1] == kept;
    assert diffs[..m + 1][..m] == diffs[..m];
    NotBeforeKeepsOrder(diffs[..m], id);
    NotBeforeElements(diffs[..m], id);
    forall i | 0 <= i < |kept|
      ensures kept[i].receiveSeq <= diffs[m].receiveSeq
    {
      assert kept[i] in diffs[..m];
    }
  }

  /** A diff that continues a VALID book is applied and nothing else happens. */
  lemma ContinuingDiff(book: Book, diff: DepthDiff)
    requires book.state == VALID && diff.Identity() !in book.seen
    requires Some(diff.previous) == book.previousUpdateId
    ensures OnDiff(book, diff) ==
              Outcome(ApplyDiff(book, diff).(seen := book.seen + {diff.Identity()}), None)
  {
  }

  lemma LiveStep(book: Book, diffs: seq<DepthDiff>, snapshot: DepthSnapshot, m: nat)
    requires Contiguous(diffs) && FirstCovering(diffs, snapshot.lastUpdateId) < m < |diffs|
    requires diffs[m].Identity() !in Seen(book, diffs, m)
    ensures OnDiff(Live(book, diffs, snapshot, m), diffs[m]) == Outcome(Live(book, diffs, snapshot, m + 1), None)
  {
    hide ApplyLevels, FirstCovering;
    assert diffs[m].previous == diffs[m - 1].final;
    ContinuingDiff(Live(book, diffs, snapshot, m), diffs[m]);
  }

  lemma ReachedStep(book: Book, diffs: seq<DepthDiff>, snapshot: DepthSnapshot, m: nat)
    requires Stream(diffs) && ReadyFor(book, diffs) && m < |diffs|
    ensures var outcome := OnDiff(Reached(book, diffs, snapshot, m), diffs[m]);
            && outcome.book == Reached(book, diffs, snapshot, m + 1)
            && outcome.change == if m == FirstCovering(diffs, snapshot.lastUpdateId)
                                 then Some(ValidFrom(book, diffs, snapshot, m + 1)) else None
  {
    NotYetSeen(book, diffs, m);
    if m <= FirstCovering(diffs, snapshot.lastUpdateId) {
      WaitingBuffer(book, diffs, snapshot, m);
      var buffer := NotBefore(diffs[..m], snapshot.lastUpdateId) + [diffs[m]];
      Bridging(book, diffs, snapshot, m + 1, Waiting(book, diffs, snapshot, m + 1).(pending := buffer));
    } else {
      LiveStep(book, diffs, snapshot, m);
    }
  }

  // ---------------------------------------------------------------- the race

  lemma EmptyRun(book: Book)
    ensures Run(book, []) == book && Changes(book, []) == []
  {
  }

  lemma UnfoldLast(book: Book, inputs: seq<Input>, n: nat)
    requires 0 < n <= |inputs|
    ensures var outcome := Step(Run(book, inputs[..n - 1]), inputs[n - 1]);
            && Run(book, inputs[..n]) == outcome.book
            && Changes(book, inputs[..n]) ==
                 Changes(book, inputs[..n - 1]) + (if outcome.change.Some? then [outcome.change.value] else [])
  {
    assert inputs[..n][..n - 1] == inputs[..n - 1];
  }

  lemma NothingBuffered(book: Book, diffs: seq<DepthDiff>)
    requires book.pending == []
    ensures Buffered(book, diffs, 0) == book
  {
  }

  lemma {:induction false} AfterPrefix(book: Book, diffs: seq<DepthDiff>, snapshot: DepthSnapshot, k: nat, n: nat)
    requires Stream(diffs) && ReadyFor(book, diffs) && k <= |diffs| && n <= |diffs| + 1
    ensures var inputs := WithSnapshotAt(diffs, snapshot, k)[..n];
            var bridge := FirstCovering(diffs, snapshot.lastUpdateId);
            && Run(book, inputs) ==
                 (if n <= k then Buffered(book, diffs, n) else Reached(book, diffs, snapshot, n - 1))
            && Changes(book, inputs) ==
                 (if n <= k || n - 1 <= bridge then []
                  else [ValidFrom(book, diffs, snapshot, Max(k, bridge + 1))])
  {
    hide OnDiff, OnSnapshot, Buffered, Reached, ValidFrom, FirstCovering, Identities, Run, Changes;
    var all := WithSnapshotAt(diffs, snapshot, k);
    if n == 0 {
      EmptyRun(book);
      assert all[..0] == [];
      NothingBuffered(book, diffs);
    } else {
      AfterPrefix(book, diffs, snapshot, k, n - 1);
      var last := all[n - 1];
      UnfoldLast(book, all, n);
      if n <= k {
        assert last == DiffIn(diffs[n - 1]);
        BufferedStep(book, diffs, n - 1);
      } else if n == k + 1 {
        assert last == SnapshotIn(snapshot);
        SnapshotStep(book, diffs, snapshot, k);
      } else {
        assert last == DiffIn(diffs[n - 2]);
        ReachedStep(book, diffs, snapshot, n - 2);
      }
    }
  }

  /** The book that every arrival order ends in. */
  function Settled(book: Book, diffs: seq<DepthDiff>, snapshot: DepthSnapshot): Book
    requires FirstCovering(diffs, snapshot.lastUpdateId) < |diffs|
  {
    var ladder := Replay(SnapshotLadder(snapshot), diffs[FirstCovering(diffs, snapshot.lastUpdateId)..]);
    Book(book.connectionId, VALID, ladder.bids, ladder.asks, Some(diffs[|diffs| - 1].final), [],
         book.seen + Identities(diffs), None, None)
  }

  lemma LiveAtEnd(book: Book, diffs: seq<DepthDiff>, snapshot: DepthSnapshot)
    requires FirstCovering(diffs, snapshot.lastUpdateId) < |diffs|
    ensures Live(book, diffs, snapshot, |diffs|) == Settled(book, diffs, snapshot)
  {
    hide ApplyLevels;
    var bridge := FirstCovering(diffs, snapshot.lastUpdateId);
    assert diffs[..|diffs|] == diffs && diffs[bridge..|diffs|] == diffs[bridge..];
    ReplayOfSlice(SnapshotLadder(snapshot), diffs, bridge, |diffs|);
    SeenIsIdentities(book, diffs, |diffs|);
  }

  /**
   Inserting the snapshot at any position yields the same book: VALID, showing the snapshot and
   the stream from its first covering diff, with nothing pending. Exactly one change is reported,
   and its time does not depend on the position either.
   */
  lemma SnapshotRaceIndependence(book: Book, diffs: seq<DepthDiff>, snapshot: DepthSnapshot, k: nat)
    requires Stream(diffs) && ReadyFor(book, diffs) && k <= |diffs|
    requires exists i :: 0 <= i < |diffs| && diffs[i].Covers(snapshot.lastUpdateId)
    ensures FirstCovering(diffs, snapshot.lastUpdateId) < |diffs|
    ensures Run(book, WithSnapshotAt(diffs, snapshot, k)) == Settled(book, diffs, snapshot)
    ensures var bridge := diffs[FirstCovering(diffs, snapshot.lastUpdateId)];
            var changes := Changes(book, WithSnapshotAt(diffs, snapshot, k));
            && |changes| == 1 && changes[0].state == VALID
            && changes[0].atNs == Max(snapshot.receivedNs, bridge.receivedNs)
  {
    hide Run, Changes, FirstCovering, Settled, Live, Identities;
    var i :| 0 <= i < |diffs| && diffs[i].Covers(snapshot.lastUpdateId);
    assert FirstCovering(diffs, snapshot.lastUpdateId) <= i;
    var all := WithSnapshotAt(diffs, snapshot, k);
    assert all[..|diffs| + 1] == all;
    AfterPrefix(book, diffs, snapshot, k, |diffs| + 1);
    LiveAtEnd(book, diffs, snapshot);
  }
}
