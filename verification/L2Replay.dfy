/**
 A VALID book is a snapshot followed by an unbroken chain of diffs.

 The statement covers every run of a `ConnectionBook`: diffs, snapshots and transport-gap
 invalidations in any order, including snapshots that land on a book that is already VALID.
 */
module L2Replay {
  import opened Base
  import opened L2Book

  datatype Input = DiffIn(diff: DepthDiff) | SnapshotIn(snapshot: DepthSnapshot) | GapIn

  function Step(book: Book, input: Input): Outcome {
    match input
    case DiffIn(diff) => OnDiff(book, diff)
    case SnapshotIn(snapshot) => OnSnapshot(book, snapshot)
    case GapIn => Outcome(Invalidate(book), None)
  }

  /** The book after a sequence of inputs. */
  function Run(book: Book, inputs: seq<Input>): Book {
    if inputs == [] then book
    else Step(Run(book, inputs[..|inputs| - 1]), inputs[|inputs| - 1]).book
  }

  /** The state changes that a sequence of inputs reports. */
  function Changes(book: Book, inputs: seq<Input>): seq<StateChange> {
    if inputs == [] then []
    else
      var init := inputs[..|inputs| - 1];
      var change := Step(Run(book, init), inputs[|inputs| - 1]).change;
      Changes(book, init) + (if change.Some? then [change.value] else [])
  }

  // ---------------------------------------------------------------- the reference replay

  datatype Ladder = Ladder(bids: Side, asks: Side, lastId: int)

  function SnapshotLadder(snapshot: DepthSnapshot): Ladder {
    Ladder(BookSide(snapshot.bids), BookSide(snapshot.asks), snapshot.lastUpdateId)
  }

  /** The ladder that a snapshot and a list of diffs describe, diff by diff. */
  function Replay(start: Ladder, diffs: seq<DepthDiff>): Ladder {
    if diffs == [] then start
    else
      var before := Replay(start, diffs[..|diffs| - 1]);
      var diff := diffs[|diffs| - 1];
      Ladder(ApplyLevels(before.bids, diff.bids), ApplyLevels(before.asks, diff.asks), diff.final)
  }

  ghost predicate ShowsLadder(book: Book, ladder: Ladder) {
    book.bids == ladder.bids && book.asks == ladder.asks && book.previousUpdateId == Some(ladder.lastId)
  }

  /** Every diff continues the one before it. */
  ghost predicate Contiguous(diffs: seq<DepthDiff>) {
    forall i, j :: 0 <= i < j < |diffs| && j == i + 1 ==> diffs[j].previous == diffs[i].final
  }

  /** Steps 4 and 5 of the exchange's procedure: the first diff covers the snapshot id. */
  ghost predicate Bridged(snapshot: DepthSnapshot, diffs: seq<DepthDiff>) {
    |diffs| > 0 && diffs[0].Covers(snapshot.lastUpdateId) && Contiguous(diffs)
  }

  /** What a snapshot on an already VALID book leaves: the first diff continues the snapshot id. */
  ghost predicate Continued(snapshot: DepthSnapshot, diffs: seq<DepthDiff>) {
    (|diffs| > 0 ==> diffs[0].previous == snapshot.lastUpdateId) && Contiguous(diffs)
  }

  ghost predicate NoZero(side: Side) {
    forall price :: price in side ==> side[price] != 0.0
  }

  ghost predicate AllReceived(diffs: seq<DepthDiff>, inputs: seq<Input>) {
    forall i :: 0 <= i < |diffs| ==> DiffIn(diffs[i]) in inputs
  }

  ghost predicate ReplayOf(book: Book, inputs: seq<Input>, snapshot: DepthSnapshot, diffs: seq<DepthDiff>) {
    && SnapshotIn(snapshot) in inputs
    && AllReceived(diffs, inputs)
    && ShowsLadder(book, Replay(SnapshotLadder(snapshot), diffs))
    && (if book.anchor.None? then Bridged(snapshot, diffs)
        else book.anchor == Some(snapshot.lastUpdateId) && Continued(snapshot, diffs))
  }

  ghost predicate AnchoredBy(book: Book, inputs: seq<Input>, snapshot: DepthSnapshot) {
    && SnapshotIn(snapshot) in inputs
    && ShowsLadder(book, SnapshotLadder(snapshot))
    && book.anchor == Some(snapshot.lastUpdateId)
    && book.anchorNs == Some(snapshot.receivedNs)
  }

  /** Everything the book holds is explained by what it received. */
  ghost predicate Explained(book: Book, inputs: seq<Input>) {
    && AllReceived(book.pending, inputs)
    && NoZero(book.bids) && NoZero(book.asks)
    && (book.anchor.Some? <==> book.anchorNs.Some?)
    && (book.state == VALID ==>
          book.pending == [] && exists snapshot, diffs :: ReplayOf(book, inputs, snapshot, diffs))
    && (book.state != VALID && book.anchor.Some? ==>
          exists snapshot :: AnchoredBy(book, inputs, snapshot))
    && (book.state != VALID && book.anchor.None? ==>
          book.bids == map[] && book.asks == map[] && book.previousUpdateId.None?)
  }

  // ---------------------------------------------------------------- levels keep no zero

  lemma {:induction false} BookSideNoZero(levels: seq<Level>)
    ensures NoZero(BookSide(levels))
  {
    if levels != [] {
      BookSideNoZero(levels[..|levels| - 1]);
    }
  }

  lemma {:induction false} ApplyLevelsNoZero(side: Side, levels: seq<Level>)
    requires NoZero(side)
    ensures NoZero(ApplyLevels(side, levels))
    decreases |levels|
  {
    if levels != [] {
      ApplyLevelsNoZero(ApplyLevel(side, levels[0]), levels[1..]);
    }
  }

  // ---------------------------------------------------------------- sorting and filtering

  lemma {:induction false} InsertBySeqElements(diff: DepthDiff, sorted: seq<DepthDiff>)
    ensures multiset(InsertBySeq(diff, sorted)) == multiset(sorted) + multiset{diff}
  {
    if !(sorted == [] || diff.receiveSeq <= sorted[0].receiveSeq) {
      InsertBySeqElements(diff, sorted[1..]);
      assert sorted == [sorted[0]] + sorted[1..];
    }
  }

  lemma {:induction false} SortBySeqElements(diffs: seq<DepthDiff>)
    ensures multiset(SortBySeq(diffs)) == multiset(diffs)
  {
    if diffs != [] {
      SortBySeqElements(diffs[1..]);
      InsertBySeqElements(diffs[0], SortBySeq(diffs[1..]));
      assert diffs == [diffs[0]] + diffs[1..];
    }
  }

  lemma {:induction false} NotBeforeElements(diffs: seq<DepthDiff>, id: int)
    ensures forall d :: d in NotBefore(diffs, id) <==> d in diffs && d.final >= id
  {
    if diffs != [] {
      NotBeforeElements(diffs[..|diffs| - 1], id);
      assert diffs == diffs[..|diffs| - 1] + [diffs[|diffs| - 1]];
    }
  }

  /** The candidates a bridge is looked for in are exactly the buffered diffs not yet covered. */
  lemma CandidateElements(diffs: seq<DepthDiff>, id: int)
    ensures forall d :: d in NotBefore(SortBySeq(diffs), id) <==> d in diffs && d.final >= id
  {
    SortBySeqElements(diffs);
    NotBeforeElements(SortBySeq(diffs), id);
    forall d
      ensures d in SortBySeq(diffs) <==> d in diffs
    {
      assert d in SortBySeq(diffs) <==> d in multiset(SortBySeq(diffs));
      assert d in diffs <==> d in multiset(diffs);
    }
  }

  // ---------------------------------------------------------------- chains are replays

  /**
   Applying a chain succeeds exactly when each diff continues the one before it (the first one
   continuing the book), and then the book shows the replay; nothing else of the book changes.
   */
  lemma {:induction false} ApplyChainIsReplay(book: Book, diffs: seq<DepthDiff>, ladder: Ladder)
    requires ShowsLadder(book, ladder)
    ensures ApplyChain(book, diffs).Linked? <==>
              Contiguous(diffs) && (|diffs| > 0 ==> diffs[0].previous == ladder.lastId)
    ensures ApplyChain(book, diffs).Linked? ==>
              var live := ApplyChain(book, diffs).book;
              && ShowsLadder(live, Replay(ladder, diffs))
              && live == book.(bids := live.bids, asks := live.asks, previousUpdateId := live.previousUpdateId)
    decreases |diffs|
  {
    if diffs != [] && Some(diffs[0].previous) == book.previousUpdateId {
      var next := Ladder(ApplyLevels(ladder.bids, diffs[0].bids),
                         ApplyLevels(ladder.asks, diffs[0].asks), diffs[0].final);
      ApplyChainIsReplay(ApplyDiff(book, diffs[0]), diffs[1..], next);
      ReplayHead(ladder, diffs);
      if ApplyChain(book, diffs).Linked? {
        forall i, j | 0 <= i < j < |diffs| && j == i + 1
          ensures diffs[j].previous == diffs[i].final
        {
          if i > 0 {
            assert diffs[1..][j - 1].previous == diffs[1..][i - 1].final;
          } else {
            assert diffs[1..][0].previous == next.lastId;
          }
        }
      }
    }
  }

  lemma {:induction false} ReplayHead(start: Ladder, diffs: seq<DepthDiff>)
    requires diffs != []
    ensures Replay(start, diffs) ==
            Replay(Ladder(ApplyLevels(start.bids, diffs[0].bids),
                          ApplyLevels(start.asks, diffs[0].asks), diffs[0].final), diffs[1..])
  {
    var init := diffs[..|diffs| - 1];
    if init != [] {
      ReplayHead(start, init);
      assert diffs[1..][..|diffs[1..]| - 1] == init[1..];
    } else {
      assert Replay(start, init) == start;
    }
  }

  // ---------------------------------------------------------------- one step

  lemma ReceivedGrows(diffs: seq<DepthDiff>, inputs: seq<Input>, input: Input)
    requires AllReceived(diffs, inputs)
    ensures AllReceived(diffs, inputs + [input])
  {
  }

  lemma ReplayNoZero(book: Book, diff: DepthDiff)
    requires NoZero(book.bids) && NoZero(book.asks)
    ensures NoZero(ApplyDiff(book, diff).bids) && NoZero(ApplyDiff(book, diff).asks)
  {
    ApplyLevelsNoZero(book.bids, diff.bids);
    ApplyLevelsNoZero(book.asks, diff.asks);
  }

  lemma {:induction false} ApplyChainNoZero(book: Book, diffs: seq<DepthDiff>)
    requires NoZero(book.bids) && NoZero(book.asks)
    ensures ApplyChain(book, diffs).Linked? ==>
              NoZero(ApplyChain(book, diffs).book.bids) && NoZero(ApplyChain(book, diffs).book.asks)
    decreases |diffs|
  {
    if diffs != [] && Some(diffs[0].previous) == book.previousUpdateId {
      ReplayNoZero(book, diffs[0]);
      ApplyChainNoZero(ApplyDiff(book, diffs[0]), diffs[1..]);
    }
  }

  /** A linked chain whose head covers the anchor shows the replay of the snapshot. */
  lemma BridgeIsReplay(book: Book, snapshot: DepthSnapshot, chain: seq<DepthDiff>)
    requires chain != [] && chain[0].Covers(snapshot.lastUpdateId)
    requires ShowsLadder(book, SnapshotLadder(snapshot))
    requires ApplyChain(ApplyDiff(book, chain[0]), chain[1..]).Linked?
    ensures var live := ApplyChain(ApplyDiff(book, chain[0]), chain[1..]).book;
            && NoZero(live.bids) && NoZero(live.asks)
            && Bridged(snapshot, chain)
            && ShowsLadder(live, Replay(SnapshotLadder(snapshot), chain))
            && live == book.(bids := live.bids, asks := live.asks, previousUpdateId := live.previousUpdateId)
  {
    BookSideNoZero(snapshot.bids);
    BookSideNoZero(snapshot.asks);
    var ladder := SnapshotLadder(snapshot);
    ReplayHead(ladder, chain);
    ReplayNoZero(book, chain[0]);
    ApplyChainNoZero(ApplyDiff(book, chain[0]), chain[1..]);
    var next := Ladder(ApplyLevels(ladder.bids, chain[0].bids),
                       ApplyLevels(ladder.asks, chain[0].asks), chain[0].final);
    ApplyChainIsReplay(ApplyDiff(book, chain[0]), chain[1..], next);
    ChainTail(chain, next.lastId);
  }

  /** A broken chain names one of its own diffs. */
  lemma {:induction false} BrokenAt(book: Book, diffs: seq<DepthDiff>)
    requires ApplyChain(book, diffs).Broken?
    ensures ApplyChain(book, diffs).at in diffs
    decreases |diffs|
  {
    if Some(diffs[0].previous) == book.previousUpdateId {
      BrokenAt(ApplyDiff(book, diffs[0]), diffs[1..]);
    }
  }

  /** The candidates are received diffs. */
  lemma CandidatesReceived(pending: seq<DepthDiff>, id: int, inputs: seq<Input>)
    requires AllReceived(pending, inputs)
    ensures AllReceived(NotBefore(SortBySeq(pending), id), inputs)
  {
    var candidates := NotBefore(SortBySeq(pending), id);
    CandidateElements(pending, id);
    forall i | 0 <= i < |candidates|
      ensures DiffIn(candidates[i]) in inputs
    {
      assert candidates[i] in candidates;
    }
  }

  /** No bridge yet: the snapshot still explains the book. */
  lemma UnbridgedExplained(book: Book, inputs: seq<Input>, snapshot: DepthSnapshot)
    requires AllReceived(book.pending, inputs)
    requires AnchoredBy(book, inputs, snapshot)
    requires book.state == VALID ==> book.pending == []
    ensures Explained(book, inputs)
  {
    BookSideNoZero(snapshot.bids);
    BookSideNoZero(snapshot.asks);
    if book.state == VALID {
      assert Replay(SnapshotLadder(snapshot), []) == SnapshotLadder(snapshot);
      assert ReplayOf(book, inputs, snapshot, []);
    }
  }

  lemma BridgedExplained(book: Book, inputs: seq<Input>, snapshot: DepthSnapshot, chain: seq<DepthDiff>)
    requires AnchoredBy(book, inputs, snapshot) && AllReceived(chain, inputs)
    requires chain != [] && chain[0].Covers(snapshot.lastUpdateId)
    requires ApplyChain(ApplyDiff(book, chain[0]), chain[1..]).Linked?
    ensures var live := ApplyChain(ApplyDiff(book, chain[0]), chain[1..]).book;
            Explained(live.(pending := [], state := VALID, anchor := None, anchorNs := None), inputs)
  {
    BridgeIsReplay(book, snapshot, chain);
    hide ApplyChain, ApplyLevels, Replay;
    var live := ApplyChain(ApplyDiff(book, chain[0]), chain[1..]).book;
    assert ReplayOf(live.(pending := [], state := VALID, anchor := None, anchorNs := None), inputs, snapshot, chain);
  }

  lemma BrokenExplained(book: Book, inputs: seq<Input>, diff: DepthDiff)
    requires DiffIn(diff) in inputs
    ensures Explained(Invalidate(book).(pending := [diff]), inputs)
  {
  }

  lemma AnchoredByKeeps(book: Book, pending: seq<DepthDiff>, inputs: seq<Input>, snapshot: DepthSnapshot)
    requires AnchoredBy(book, inputs, snapshot)
    ensures AnchoredBy(book.(pending := pending), inputs, snapshot)
  {
  }

  /** Looking for a bridge keeps every explanation. */
  lemma BridgeExplained(book: Book, inputs: seq<Input>, snapshot: DepthSnapshot)
    requires book.state != VALID || book.pending == []
    requires AllReceived(book.pending, inputs)
    requires AnchoredBy(book, inputs, snapshot)
    ensures Explained(TryBridge(book).book, inputs)
  {
    var id := book.anchor.value;
    var candidates := NotBefore(SortBySeq(book.pending), id);
    assert book.pending == [] ==> candidates == [];
    hide ApplyLevels, BookSide, SortBySeq, NotBefore, Explained, Replay;
    CandidatesReceived(book.pending, id, inputs);
    var index := FirstCovering(candidates, id);
    if index == |candidates| {
      hide ApplyChain;
      AnchoredByKeeps(book, candidates, inputs, snapshot);
      UnbridgedExplained(book.(pending := candidates), inputs, snapshot);
    } else {
      var chain := candidates[index..];
      assert chain[0] == candidates[index] && chain[1..] == candidates[index + 1..];
      match ApplyChain(ApplyDiff(book, chain[0]), chain[1..]) {
        case Linked(live) =>
          hide ApplyChain;
          BridgedExplained(book, inputs, snapshot, chain);
        case Broken(diff) =>
          BrokenAt(ApplyDiff(book, chain[0]), chain[1..]);
          hide ApplyChain;
          assert diff in chain;
          BrokenExplained(book, inputs, diff);
      }
    }
  }

  lemma ChainTail(chain: seq<DepthDiff>, id: int)
    requires chain != [] && chain[0].final == id
    requires Contiguous(chain[1..]) && (|chain| > 1 ==> chain[1..][0].previous == id)
    ensures Contiguous(chain)
  {
    forall i, j | 0 <= i < j < |chain| && j == i + 1
      ensures chain[j].previous == chain[i].final
    {
      if i > 0 {
        assert chain[1..][j - 1].previous == chain[1..][i - 1].final;
      }
    }
  }

  lemma LiveDiffExplained(book: Book, inputs: seq<Input>, diff: DepthDiff)
    requires Explained(book, inputs) && book.state == VALID
    requires diff.Identity() !in book.seen && Some(diff.previous) == book.previousUpdateId
    ensures Explained(OnDiff(book, diff).book, inputs + [DiffIn(diff)])
  {
    hide ApplyLevels, BookSide, TryBridge;
    var snapshot, diffs :| ReplayOf(book, inputs, snapshot, diffs);
    ReceivedGrows(diffs, inputs, DiffIn(diff));
    ReplayNoZero(book, diff);
    var more := diffs + [diff];
    assert more[..|more| - 1] == diffs;
    assert Replay(SnapshotLadder(snapshot), []) == SnapshotLadder(snapshot);
    assert ReplayOf(OnDiff(book, diff).book, inputs + [DiffIn(diff)], snapshot, more) by {
      assert AllReceived(more, inputs + [DiffIn(diff)]);
      assert diffs != [] ==> Replay(SnapshotLadder(snapshot), diffs).lastId == diffs[|diffs| - 1].final;
    }
  }

  lemma BufferedDiffExplained(book: Book, inputs: seq<Input>, diff: DepthDiff)
    requires Explained(book, inputs) && book.state != VALID
    requires diff.Identity() !in book.seen
    ensures Explained(OnDiff(book, diff).book, inputs + [DiffIn(diff)])
  {
    var all := inputs + [DiffIn(diff)];
    ReceivedGrows(book.pending, inputs, DiffIn(diff));
    var noted := book.(seen := book.seen + {diff.Identity()}, pending := book.pending + [diff]);
    if book.anchor.Some? {
      var snapshot :| AnchoredBy(book, inputs, snapshot);
      assert AnchoredBy(noted, all, snapshot);
      BridgeExplained(noted, all, snapshot);
    }
  }

  /** Receiving an input that changes nothing keeps the explanation. */
  lemma UnchangedExplained(book: Book, inputs: seq<Input>, input: Input)
    requires Explained(book, inputs)
    ensures Explained(book, inputs + [input])
  {
    var all := inputs + [input];
    ReceivedGrows(book.pending, inputs, input);
    if book.state == VALID {
      var snapshot, diffs :| ReplayOf(book, inputs, snapshot, diffs);
      ReceivedGrows(diffs, inputs, input);
      assert ReplayOf(book, all, snapshot, diffs);
    } else if book.anchor.Some? {
      var snapshot :| AnchoredBy(book, inputs, snapshot);
      assert AnchoredBy(book, all, snapshot);
    }
  }

  lemma DiffExplained(book: Book, inputs: seq<Input>, diff: DepthDiff)
    requires Explained(book, inputs)
    ensures Explained(OnDiff(book, diff).book, inputs + [DiffIn(diff)])
  {
    if diff.Identity() in book.seen {
      UnchangedExplained(book, inputs, DiffIn(diff));
    } else if book.state != VALID {
      BufferedDiffExplained(book, inputs, diff);
    } else if Some(diff.previous) == book.previousUpdateId {
      LiveDiffExplained(book, inputs, diff);
    }
  }

  lemma SnapshotExplained(book: Book, inputs: seq<Input>, snapshot: DepthSnapshot)
    requires Explained(book, inputs)
    ensures Explained(OnSnapshot(book, snapshot).book, inputs + [SnapshotIn(snapshot)])
  {
    var all := inputs + [SnapshotIn(snapshot)];
    ReceivedGrows(book.pending, inputs, SnapshotIn(snapshot));
    var anchored := book.(bids := BookSide(snapshot.bids), asks := BookSide(snapshot.asks),
                          previousUpdateId := Some(snapshot.lastUpdateId),
                          anchor := Some(snapshot.lastUpdateId), anchorNs := Some(snapshot.receivedNs));
    assert AnchoredBy(anchored, all, snapshot);
    BridgeExplained(anchored, all, snapshot);
  }

  lemma {:induction false} RunExplained(connectionId: string, inputs: seq<Input>)
    ensures Explained(Run(FreshBook(connectionId), inputs), inputs)
  {
    hide OnDiff, OnSnapshot;
    if inputs != [] {
      var init, last := inputs[..|inputs| - 1], inputs[|inputs| - 1];
      RunExplained(connectionId, init);
      assert inputs == init + [last];
      var before := Run(FreshBook(connectionId), init);
      match last {
        case DiffIn(diff) => DiffExplained(before, init, diff);
        case SnapshotIn(snapshot) => SnapshotExplained(before, init, snapshot);
        case GapIn =>
      }
    }
  }

  // ---------------------------------------------------------------- main results

  /**
   Whenever the book is VALID it shows one received snapshot followed by a contiguous chain of
   received diffs, with no zero quantity. `anchor` tells which chain: with no anchor the first
   diff covers the snapshot id; with an anchor (a snapshot reached a VALID book) the first diff,
   if any, names the snapshot id as its predecessor.
   */
  lemma ValidIsReplay(connectionId: string, inputs: seq<Input>)
    requires Run(FreshBook(connectionId), inputs).state == VALID
    ensures var book := Run(FreshBook(connectionId), inputs);
            NoZero(book.bids) && NoZero(book.asks) && book.pending == []
    ensures var book := Run(FreshBook(connectionId), inputs);
            exists snapshot, diffs :: ReplayOf(book, inputs, snapshot, diffs)
  {
    RunExplained(connectionId, inputs);
  }

  /** The source's own precondition: no snapshot reaches a book that is already VALID. */
  ghost predicate SnapshotsReachOnlyInvalidBooks(connectionId: string, inputs: seq<Input>) {
    forall i :: 0 <= i < |inputs| && inputs[i].SnapshotIn? ==>
      Run(FreshBook(connectionId), inputs[..i]).state != VALID
  }

  lemma {:induction false} NoAnchorWhenValid(connectionId: string, inputs: seq<Input>)
    requires SnapshotsReachOnlyInvalidBooks(connectionId, inputs)
    ensures Run(FreshBook(connectionId), inputs).state == VALID ==>
              Run(FreshBook(connectionId), inputs).anchor.None?
  {
    if inputs != [] {
      var init := inputs[..|inputs| - 1];
      forall i | 0 <= i < |init| && init[i].SnapshotIn?
        ensures Run(FreshBook(connectionId), init[..i]).state != VALID
      {
        assert inputs[i].SnapshotIn? && init[..i] == inputs[..i];
      }
      NoAnchorWhenValid(connectionId, init);
      var before := Run(FreshBook(connectionId), init);
      assert before == Run(FreshBook(connectionId), inputs[..|inputs| - 1]);
      match inputs[|inputs| - 1] {
        case DiffIn(diff) =>
          var noted := before.(seen := before.seen + {diff.Identity()});
          if before.state != VALID {
            BridgeAnchor(noted.(pending := noted.pending + [diff]));
          }
        case SnapshotIn(snapshot) =>
          BridgeAnchor(before.(bids := BookSide(snapshot.bids), asks := BookSide(snapshot.asks),
                               previousUpdateId := Some(snapshot.lastUpdateId),
                               anchor := Some(snapshot.lastUpdateId),
                               anchorNs := Some(snapshot.receivedNs)));
        case GapIn =>
      }
    }
  }

  lemma BridgeAnchor(book: Book)
    requires book.state != VALID
    ensures TryBridge(book).book.state == VALID ==> TryBridge(book).book.anchor.None?
  {
  }

  /** Under that precondition every VALID book is a bridged chain: steps 3 to 6 of the procedure. */
  lemma ValidIsBridged(connectionId: string, inputs: seq<Input>)
    requires SnapshotsReachOnlyInvalidBooks(connectionId, inputs)
    requires Run(FreshBook(connectionId), inputs).state == VALID
    ensures var book := Run(FreshBook(connectionId), inputs);
            exists snapshot, diffs ::
              && SnapshotIn(snapshot) in inputs
              && AllReceived(diffs, inputs)
              && Bridged(snapshot, diffs)
              && ShowsLadder(book, Replay(SnapshotLadder(snapshot), diffs))
  {
    NoAnchorWhenValid(connectionId, inputs);
    ValidIsReplay(connectionId, inputs);
    var book := Run(FreshBook(connectionId), inputs);
    var snapshot, diffs :| ReplayOf(book, inputs, snapshot, diffs);
    assert Bridged(snapshot, diffs);
  }
}
