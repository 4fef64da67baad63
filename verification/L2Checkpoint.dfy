/**
 The end-of-day checkpoint: what `_build_checkpoint` saves, what the next day restores, and why
 the restored book cannot be told from the original one.
 */
module L2Checkpoint {
  import opened Base
  import opened L2Book
  import opened L2Replay
  import opened L2Race

  datatype AnchoredBook = AnchoredBook(
    connectionId: string,
    state: L2State,
    previousUpdateId: int,
    anchor: int,
    anchorNs: int,
    bids: seq<Level>,
    asks: seq<Level>,
    pending: seq<DepthDiff>)

  datatype ValidBook = ValidBook(
    connectionId: string,
    previousUpdateId: int,
    validThroughNs: int,
    bids: seq<Level>,
    asks: seq<Level>)

  /** `valid` is None when the checkpoint's state is UNANCHORED. */
  datatype Checkpoint = Checkpoint(valid: Option<ValidBook>, anchored: seq<AnchoredBook>)

  datatype CheckpointError = AnchoredBookIsValid | BookHasNoAnchor | RepeatedConnection

  // ---------------------------------------------------------------- levels

  lemma {:induction false} MaxPriceExists(side: Side)
    requires side != map[]
    ensures exists p :: p in side && forall q :: q in side ==> q <= p
  {
    if forall q :: q !in side {
      assert false;
    }
    var p :| p in side;
    var rest := side - {p};
    forall q | q in side && q != p
      ensures q in rest
    {
    }
    if rest != map[] {
      MaxPriceExists(rest);
      var r :| r in rest && forall q :: q in rest ==> q <= r;
      var top := if r <= p then p else r;
      assert top in side;
      forall q | q in side
        ensures q <= top
      {
        assert q == p || q in rest;
      }
    }
  }

  function MaxPrice(side: Side): (p: Decimal)
    requires side != map[]
    ensures p in side && forall q :: q in side ==> q <= p
  {
    MaxPriceExists(side);
    var p :| p in side && forall q :: q in side ==> q <= p;
    p
  }

  /** `_checkpoint_levels`: the side's levels by ascending price. */
  function CheckpointLevels(side: Side): seq<Level>
    decreases |side|
  {
    if side == map[] then []
    else
      var p := MaxPrice(side);
      CheckpointLevels(side - {p}) + [Level(p, side[p])]
  }

  lemma {:induction false} CheckpointLevelsSorted(side: Side)
    ensures forall l :: l in CheckpointLevels(side) <==> l.price in side && l.quantity == side[l.price]
    ensures forall i, j :: 0 <= i < j < |CheckpointLevels(side)| ==>
              CheckpointLevels(side)[i].price < CheckpointLevels(side)[j].price
    decreases |side|
  {
    if side != map[] {
      var p := MaxPrice(side);
      var rest := CheckpointLevels(side - {p});
      CheckpointLevelsSorted(side - {p});
      forall i | 0 <= i < |rest|
        ensures rest[i].price < p
      {
        assert rest[i] in rest;
      }
    }
  }

  /** Saving a side and reading it back gives the side. */
  lemma {:induction false} LevelsRoundTrip(side: Side)
    requires NoZero(side)
    ensures BookSide(CheckpointLevels(side)) == side
    decreases |side|
  {
    if side != map[] {
      var p := MaxPrice(side);
      var rest := CheckpointLevels(side - {p});
      LevelsRoundTrip(side - {p});
      var levels := rest + [Level(p, side[p])];
      assert levels[..|levels| - 1] == rest;
      assert (side - {p})[p := side[p]] == side;
    }
  }

  // ---------------------------------------------------------------- save and restore

  predicate IsAnchored(book: Book) {
    book.anchor.Some? && book.anchorNs.Some? && book.bids != map[] && book.asks != map[]
  }

  function SaveAnchored(book: Book): Result<AnchoredBook, CheckpointError> {
    if book.previousUpdateId.None? || book.anchor.None? || book.anchorNs.None? then Err(BookHasNoAnchor)
    else if book.state == VALID || book.bids == map[] || book.asks == map[] then Err(AnchoredBookIsValid)
    else
      Ok(AnchoredBook(book.connectionId, book.state, book.previousUpdateId.value, book.anchor.value,
                      book.anchorNs.value, CheckpointLevels(book.bids), CheckpointLevels(book.asks),
                      NotBefore(book.pending, book.anchor.value)))
  }

  function SaveAllAnchored(books: seq<Book>): Result<seq<AnchoredBook>, CheckpointError> {
    if books == [] then Ok([])
    else if !IsAnchored(books[0]) then SaveAllAnchored(books[1..])
    else
      match SaveAnchored(books[0])
      case Err(e) => Err(e)
      case Ok(saved) =>
        match SaveAllAnchored(books[1..])
        case Err(e) => Err(e)
        case Ok(rest) => Ok([saved] + rest)
  }

  /** `_build_checkpoint`: `final` is the authoritative book, `books` all of them in dict order. */
  function BuildCheckpoint(final: Option<Book>, books: seq<Book>, dayEndNs: int): Result<Checkpoint, CheckpointError> {
    match SaveAllAnchored(books)
    case Err(e) => Err(e)
    case Ok(anchored) =>
      if final.None? || final.value.state != VALID || final.value.previousUpdateId.None?
         || final.value.bids == map[] || final.value.asks == map[]
      then Ok(Checkpoint(None, anchored))
      else
        var book := final.value;
        Ok(Checkpoint(Some(ValidBook(book.connectionId, book.previousUpdateId.value, dayEndNs,
                                     CheckpointLevels(book.bids), CheckpointLevels(book.asks))),
                      anchored))
  }

  function RestoreValid(saved: ValidBook): Book {
    FreshBook(saved.connectionId).(state := VALID, bids := BookSide(saved.bids), asks := BookSide(saved.asks),
                                   previousUpdateId := Some(saved.previousUpdateId))
  }

  function RestoreAnchored(saved: AnchoredBook): Book {
    FreshBook(saved.connectionId).(state := saved.state, bids := BookSide(saved.bids), asks := BookSide(saved.asks),
                                   previousUpdateId := Some(saved.previousUpdateId), pending := saved.pending,
                                   anchor := Some(saved.anchor), anchorNs := Some(saved.anchorNs))
  }

  // ---------------------------------------------------------------- the invariant of every book

  /** An anchored buffer holds only diffs the snapshot lacks, in order, none of which bridges it. */
  ghost predicate Tidy(pending: seq<DepthDiff>, id: int) {
    && InSeqOrder(pending)
    && forall i :: 0 <= i < |pending| ==> pending[i].final >= id && !pending[i].Covers(id)
  }

  ghost predicate ReceivedBy(pending: seq<DepthDiff>, now: int) {
    forall i :: 0 <= i < |pending| ==> pending[i].receivedNs <= now
  }

  /** What every book satisfies after every input received up to `now`. */
  ghost predicate Sound(book: Book, now: int) {
    && NoZero(book.bids) && NoZero(book.asks)
    && (book.anchor.Some? <==> book.anchorNs.Some?)
    && (book.anchorNs.Some? ==> book.anchorNs.value <= now)
    && ReceivedBy(book.pending, now)
    && (book.state == VALID ==> book.pending == [] && book.previousUpdateId.Some?)
    && (book.state != VALID && book.anchor.Some? ==>
          book.previousUpdateId == book.anchor && Tidy(book.pending, book.anchor.value))
    && (book.state != VALID && book.anchor.None? ==>
          book.bids == map[] && book.asks == map[] && book.previousUpdateId.None?)
  }

  lemma {:induction false} InsertKeepsOrder(diff: DepthDiff, sorted: seq<DepthDiff>)
    requires InSeqOrder(sorted)
    ensures InSeqOrder(InsertBySeq(diff, sorted))
  {
    if !(sorted == [] || diff.receiveSeq <= sorted[0].receiveSeq) {
      InsertKeepsOrder(diff, sorted[1..]);
      InsertBySeqElements(diff, sorted[1..]);
      var rest := InsertBySeq(diff, sorted[1..]);
      forall j | 0 <= j < |rest|
        ensures sorted[0].receiveSeq <= rest[j].receiveSeq
      {
        assert rest[j] in multiset(rest);
        assert rest[j] == diff || rest[j] in sorted[1..];
      }
    }
  }

  lemma {:induction false} SortBySeqSorts(diffs: seq<DepthDiff>)
    ensures InSeqOrder(SortBySeq(diffs))
  {
    if diffs != [] {
      SortBySeqSorts(diffs[1..]);
      InsertKeepsOrder(diffs[0], SortBySeq(diffs[1..]));
    }
  }

  lemma CandidatesTidy(pending: seq<DepthDiff>, id: int)
    ensures InSeqOrder(NotBefore(SortBySeq(pending), id))
    ensures FirstCovering(NotBefore(SortBySeq(pending), id), id) == |NotBefore(SortBySeq(pending), id)| ==>
              Tidy(NotBefore(SortBySeq(pending), id), id)
  {
    SortBySeqSorts(pending);
    NotBeforeKeepsOrder(SortBySeq(pending), id);
    CandidateElements(pending, id);
    var candidates := NotBefore(SortBySeq(pending), id);
    forall i | 0 <= i < |candidates|
      ensures candidates[i].final >= id
    {
      assert candidates[i] in candidates;
    }
  }

  lemma CandidatesReceivedBy(pending: seq<DepthDiff>, id: int, now: int)
    requires ReceivedBy(pending, now)
    ensures ReceivedBy(NotBefore(SortBySeq(pending), id), now)
  {
    var candidates := NotBefore(SortBySeq(pending), id);
    CandidateElements(pending, id);
    forall i | 0 <= i < |candidates|
      ensures candidates[i].receivedNs <= now
    {
      assert candidates[i] in candidates;
    }
  }

  /** A linked chain from a covering diff changes only the ladder. */
  lemma {:induction false} ChainKeepsRest(book: Book, diffs: seq<DepthDiff>)
    requires NoZero(book.bids) && NoZero(book.asks) && book.previousUpdateId.Some?
    ensures ApplyChain(book, diffs).Linked? ==>
              var live := ApplyChain(book, diffs).book;
              && NoZero(live.bids) && NoZero(live.asks) && live.previousUpdateId.Some?
              && live == book.(bids := live.bids, asks := live.asks, previousUpdateId := live.previousUpdateId)
    decreases |diffs|
  {
    if diffs != [] && Some(diffs[0].previous) == book.previousUpdateId {
      ReplayNoZero(book, diffs[0]);
      ChainKeepsRest(ApplyDiff(book, diffs[0]), diffs[1..]);
    }
  }

  /** What a bridge reports, seen from the anchored book. */
  ghost predicate BridgeFits(book: Book, outcome: Outcome, now: int) {
    && Sound(outcome.book, now)
    && outcome.book.connectionId == book.connectionId
    && match outcome.change
       case None => outcome.book.state == book.state
       case Some(change) =>
         && book.state != VALID
         && change.connectionId == book.connectionId
         && change.atNs <= now
         && change.state == outcome.book.state
         && change.state != UNANCHORED
  }

  lemma LinkedFits(book: Book, bridge: DepthDiff, chain: seq<DepthDiff>, now: int)
    requires book.state != VALID && NoZero(book.bids) && NoZero(book.asks)
    requires book.anchorNs.Some? && book.anchorNs.value <= now && bridge.receivedNs <= now
    requires ApplyChain(ApplyDiff(book, bridge), chain).Linked?
    ensures var live := ApplyChain(ApplyDiff(book, bridge), chain).book;
            BridgeFits(book,
              Outcome(live.(pending := [], state := VALID, anchor := None, anchorNs := None),
                      Some(StateChange(book.connectionId, Max(book.anchorNs.value, bridge.receivedNs), VALID,
                                       live.previousUpdateId, "snapshot_bridge"))), now)
  {
    ReplayNoZero(book, bridge);
    hide ApplyLevels;
    ChainKeepsRest(ApplyDiff(book, bridge), chain);
    hide ApplyChain;
  }

  lemma BrokenFits(book: Book, diff: DepthDiff, now: int)
    requires book.state != VALID && diff.receivedNs <= now
    ensures BridgeFits(book,
              Outcome(Invalidate(book).(pending := [diff]),
                      Some(GapChange(book.connectionId, diff, "buffered_pu_discontinuity"))), now)
  {
  }

  lemma BridgeSound(book: Book, now: int)
    requires book.anchor.Some? && book.anchorNs.Some? && book.anchorNs.value <= now
    requires NoZero(book.bids) && NoZero(book.asks) && book.previousUpdateId.Some?
    requires ReceivedBy(book.pending, now)
    requires book.state == VALID ==> book.pending == []
    requires book.state != VALID ==> book.previousUpdateId == book.anchor
    ensures BridgeFits(book, TryBridge(book), now)
  {
    var id := book.anchor.value;
    var candidates := NotBefore(SortBySeq(book.pending), id);
    assert book.pending == [] ==> candidates == [];
    hide ApplyLevels, SortBySeq, NotBefore;
    CandidatesTidy(book.pending, id);
    CandidatesReceivedBy(book.pending, id, now);
    var index := FirstCovering(candidates, id);
    if index < |candidates| {
      var bridge, chain := candidates[index], candidates[index + 1..];
      match ApplyChain(ApplyDiff(book, bridge), chain) {
        case Linked(live) =>
          LinkedFits(book, bridge, chain, now);
          hide ApplyChain, BridgeFits;
        case Broken(diff) =>
          BrokenAt(ApplyDiff(book, bridge), chain);
          hide ApplyChain;
          assert diff in candidates;
          BrokenFits(book, diff, now);
          hide BridgeFits;
      }
    } else {
      hide ApplyChain;
    }
  }

  /** The bridge is found when its last missing piece arrives, so it is VALID from that moment. */
  lemma BridgeTime(book: Book, now: int)
    requires book.anchor.Some? && book.anchorNs.Some?
    requires book.anchorNs.value <= now && ReceivedBy(book.pending, now)
    requires book.anchorNs.value == now ||
             (forall d :: d in book.pending && d.Covers(book.anchor.value) ==> d.receivedNs == now)
    ensures var outcome := TryBridge(book);
            outcome.change.Some? && outcome.change.value.state == VALID ==> outcome.change.value.atNs == now
  {
    hide ApplyLevels, SortBySeq, NotBefore, ApplyChain;
    var id := book.anchor.value;
    var candidates := NotBefore(SortBySeq(book.pending), id);
    CandidateElements(book.pending, id);
    var index := FirstCovering(candidates, id);
    if index < |candidates| {
      assert candidates[index] in candidates;
      assert candidates[index] in book.pending;
    }
  }

  function InputNs(input: Input, now: int): int {
    match input
    case DiffIn(diff) => diff.receivedNs
    case SnapshotIn(snapshot) => snapshot.receivedNs
    case GapIn => now
  }

  /** What a reported change says about the book that reports it, at time `now`. */
  ghost predicate ChangeFits(before: Book, outcome: Outcome, now: int) {
    match outcome.change
    case None => outcome.book.state == before.state
    case Some(change) =>
      && change.connectionId == before.connectionId
      && change.state == outcome.book.state
      && change.state != UNANCHORED
      && change.atNs <= now
      && (change.state == VALID ==> before.state != VALID && change.atNs == now)
      && (before.state == VALID ==> change.state == GAPPED && change.atNs == now)
  }

  lemma DiffSound(book: Book, diff: DepthDiff, now: int)
    requires Sound(book, now) && now <= diff.receivedNs
    ensures Sound(OnDiff(book, diff).book, diff.receivedNs)
    ensures ChangeFits(book, OnDiff(book, diff), diff.receivedNs)
    ensures OnDiff(book, diff).book.connectionId == book.connectionId
  {
    hide ApplyLevels, SortBySeq, NotBefore, ApplyChain, FirstCovering;
    if diff.Identity() !in book.seen {
      if book.state == VALID {
        ReplayNoZero(book, diff);
      } else {
        var noted := book.(seen := book.seen + {diff.Identity()}, pending := book.pending + [diff]);
        if book.anchor.Some? {
          BridgeSound(noted, diff.receivedNs);
          BridgeTime(noted, diff.receivedNs);
        }
      }
    }
  }

  lemma SnapshotSound(book: Book, snapshot: DepthSnapshot, now: int)
    requires Sound(book, now) && now <= snapshot.receivedNs
    ensures Sound(OnSnapshot(book, snapshot).book, snapshot.receivedNs)
    ensures ChangeFits(book, OnSnapshot(book, snapshot), snapshot.receivedNs)
    ensures OnSnapshot(book, snapshot).book.connectionId == book.connectionId
  {
    hide ApplyLevels, SortBySeq, NotBefore, ApplyChain, FirstCovering;
    BookSideNoZero(snapshot.bids);
    BookSideNoZero(snapshot.asks);
    hide BookSide;
    var anchored := book.(bids := BookSide(snapshot.bids), asks := BookSide(snapshot.asks),
                          previousUpdateId := Some(snapshot.lastUpdateId),
                          anchor := Some(snapshot.lastUpdateId), anchorNs := Some(snapshot.receivedNs));
    BridgeSound(anchored, snapshot.receivedNs);
    BridgeTime(anchored, snapshot.receivedNs);
  }

  /**
   One input, received at or after `now`: the book stays sound, and a change to VALID, or one that
   ends a VALID book, carries the time of the input itself.
   */
  lemma StepSound(book: Book, input: Input, now: int)
    requires Sound(book, now) && now <= InputNs(input, now)
    ensures Sound(Step(book, input).book, InputNs(input, now))
    ensures !input.GapIn? ==> ChangeFits(book, Step(book, input), InputNs(input, now))
    ensures Step(book, input).book.connectionId == book.connectionId
  {
    match input
    case DiffIn(diff) => DiffSound(book, diff, now);
    case SnapshotIn(snapshot) => SnapshotSound(book, snapshot, now);
    case GapIn =>
  }

  // ---------------------------------------------------------------- restored books

  lemma {:induction false} TidyIsKept(pending: seq<DepthDiff>, id: int)
    requires forall i :: 0 <= i < |pending| ==> pending[i].final >= id
    ensures NotBefore(pending, id) == pending
  {
    if pending != [] {
      TidyIsKept(pending[..|pending| - 1], id);
    }
  }

  /** The authoritative book is restored up to the identities it has seen. */
  lemma ValidRoundTrip(book: Book, books: seq<Book>, dayEndNs: int, now: int)
    requires Sound(book, now) && book.state == VALID && book.anchor.None?
    requires book.bids != map[] && book.asks != map[]
    requires BuildCheckpoint(Some(book), books, dayEndNs).Ok?
    ensures var checkpoint := BuildCheckpoint(Some(book), books, dayEndNs).value;
            && checkpoint.valid.Some?
            && checkpoint.valid.value.validThroughNs == dayEndNs
            && RestoreValid(checkpoint.valid.value) == book.(seen := {})
  {
    LevelsRoundTrip(book.bids);
    LevelsRoundTrip(book.asks);
  }

  /** An anchored book that waits for its bridge is restored up to the identities it has seen. */
  lemma AnchoredRoundTrip(book: Book, now: int)
    requires Sound(book, now) && book.state != VALID && IsAnchored(book)
    ensures SaveAnchored(book).Ok?
    ensures RestoreAnchored(SaveAnchored(book).value) == book.(seen := {})
  {
    LevelsRoundTrip(book.bids);
    LevelsRoundTrip(book.asks);
    TidyIsKept(book.pending, book.anchor.value);
  }

  /**
   `_build_checkpoint` raises exactly when some book is VALID and anchored with both sides
   non-empty: the trace a snapshot leaves on a book that was already VALID.
   */
  lemma {:induction false} BuildFailsExactly(final: Option<Book>, books: seq<Book>, dayEndNs: int, now: int)
    requires forall i :: 0 <= i < |books| ==> Sound(books[i], now)
    ensures BuildCheckpoint(final, books, dayEndNs).Err? <==>
              exists i :: 0 <= i < |books| && books[i].state == VALID && IsAnchored(books[i])
  {
    if books != [] {
      BuildFailsExactly(final, books[1..], dayEndNs, now);
      if exists i :: 0 <= i < |books| && books[i].state == VALID && IsAnchored(books[i]) {
        var i :| 0 <= i < |books| && books[i].state == VALID && IsAnchored(books[i]);
        if i > 0 {
          assert books[1..][i - 1] == books[i];
        }
      }
    }
  }

  // ---------------------------------------------------------------- bisimulation

  lemma {:induction false} ChainIgnoresSeen(book: Book, diffs: seq<DepthDiff>, seen: set<DiffIdentity>)
    ensures var chain := ApplyChain(book, diffs);
            ApplyChain(book.(seen := seen), diffs) ==
              if chain.Linked? then Linked(chain.book.(seen := seen)) else chain
    decreases |diffs|
  {
    hide ApplyLevels;
    if diffs != [] && Some(diffs[0].previous) == book.previousUpdateId {
      ChainIgnoresSeen(ApplyDiff(book, diffs[0]), diffs[1..], seen);
      assert ApplyDiff(book, diffs[0]).(seen := seen) == ApplyDiff(book.(seen := seen), diffs[0]);
    }
  }

  lemma BridgeIgnoresSeen(book: Book, seen: set<DiffIdentity>)
    ensures TryBridge(book.(seen := seen)) ==
              Outcome(TryBridge(book).book.(seen := seen), TryBridge(book).change)
  {
    hide ApplyLevels, SortBySeq, NotBefore;
    if book.anchor.Some? && book.anchorNs.Some? {
      var candidates := NotBefore(SortBySeq(book.pending), book.anchor.value);
      var index := FirstCovering(candidates, book.anchor.value);
      if index < |candidates| {
        var bridged := ApplyDiff(book, candidates[index]);
        ChainIgnoresSeen(bridged, candidates[index + 1..], seen);
        assert bridged.(seen := seen) == ApplyDiff(book.(seen := seen), candidates[index]);
        hide ApplyChain;
      }
    }
  }

  /** Equal but for identities seen; `extra` bounds what only the original has seen. */
  ghost predicate Alike(original: Book, restored: Book, extra: set<DiffIdentity>) {
    && original == restored.(seen := original.seen)
    && original.seen == restored.seen + extra
  }

  lemma StepAlike(original: Book, restored: Book, extra: set<DiffIdentity>, input: Input)
    requires Alike(original, restored, extra)
    requires input.DiffIn? ==> input.diff.Identity() !in extra
    ensures Alike(Step(original, input).book, Step(restored, input).book, extra)
    ensures Step(original, input).change == Step(restored, input).change
  {
    hide ApplyLevels;
    match input
    case DiffIn(diff) =>
      if diff.Identity() !in original.seen && original.state != VALID {
        var noted := restored.(seen := restored.seen + {diff.Identity()}, pending := restored.pending + [diff]);
        BridgeIgnoresSeen(noted, original.seen + {diff.Identity()});
        BridgeKeepsSeen(noted);
        hide TryBridge;
      } else {
        hide TryBridge;
      }
    case SnapshotIn(snapshot) =>
      var anchored := restored.(bids := BookSide(snapshot.bids), asks := BookSide(snapshot.asks),
                                previousUpdateId := Some(snapshot.lastUpdateId),
                                anchor := Some(snapshot.lastUpdateId), anchorNs := Some(snapshot.receivedNs));
      BridgeIgnoresSeen(anchored, original.seen);
      BridgeKeepsSeen(anchored);
      hide TryBridge;
    case GapIn =>
  }

  lemma {:induction false} ChainKeepsSeen(book: Book, diffs: seq<DepthDiff>)
    ensures ApplyChain(book, diffs).Linked? ==> ApplyChain(book, diffs).book.seen == book.seen
    decreases |diffs|
  {
    hide ApplyLevels;
    if diffs != [] && Some(diffs[0].previous) == book.previousUpdateId {
      ChainKeepsSeen(ApplyDiff(book, diffs[0]), diffs[1..]);
    }
  }

  lemma BridgeKeepsSeen(book: Book)
    ensures TryBridge(book).book.seen == book.seen
  {
    hide ApplyLevels, SortBySeq, NotBefore;
    if book.anchor.Some? && book.anchorNs.Some? {
      var candidates := NotBefore(SortBySeq(book.pending), book.anchor.value);
      var index := FirstCovering(candidates, book.anchor.value);
      if index < |candidates| {
        ChainKeepsSeen(ApplyDiff(book, candidates[index]), candidates[index + 1..]);
      }
    }
  }

  /** Every later diff is one the original has not seen before the checkpoint. */
  ghost predicate Unseen(book: Book, inputs: seq<Input>) {
    forall i :: 0 <= i < |inputs| && inputs[i].DiffIn? ==> inputs[i].diff.Identity() !in book.seen
  }

  /**
   A book restored without its seen identities behaves as the original on every later sequence of
   snapshots, gaps and unseen diffs: same changes, same state, same ladder, same buffer.
   */
  lemma {:induction false} RestoredBookBisimilar(book: Book, inputs: seq<Input>)
    requires Unseen(book, inputs)
    ensures Changes(book.(seen := {}), inputs) == Changes(book, inputs)
    ensures Alike(Run(book, inputs), Run(book.(seen := {}), inputs), book.seen)
  {
    hide OnDiff, OnSnapshot;
    if inputs != [] {
      var init, last := inputs[..|inputs| - 1], inputs[|inputs| - 1];
      RestoredBookBisimilar(book, init);
      StepAlike(Run(book, init), Run(book.(seen := {}), init), book.seen, last);
    }
  }
}
