/**
 The per-connection order book of src/ft_shadow_data_plane/central/l2.py.

 `Book` is the value of one `ConnectionBook` object; the functions on it say what every
 operation does, and the methods of the class `ConnectionBook`, which update the fields in
 place as the source does, are proved against them.
 */
module L2Book {
  import opened Base

  type Decimal = real
  type Side = map<Decimal, Decimal>

  datatype Level = Level(price: Decimal, quantity: Decimal)

  datatype L2State = UNANCHORED | VALID | GAPPED

  datatype DiffIdentity = DiffIdentity(first: int, final: int, previous: int, payloadHash: string)

  datatype DepthDiff = DepthDiff(
    connectionId: string,
    receiveSeq: int,
    receivedNs: int,
    first: int,
    final: int,
    previous: int,
    payloadHash: string,
    bids: seq<Level>,
    asks: seq<Level>)
  {
    function Identity(): DiffIdentity {
      DiffIdentity(first, final, previous, payloadHash)
    }

    /** The diff covers snapshot id `id`: it can bridge a snapshot taken at `id`. */
    predicate Covers(id: int) {
      first <= id <= final
    }
  }

  datatype DepthSnapshot = DepthSnapshot(
    connectionId: string,
    receiveSeq: int,
    receivedNs: int,
    lastUpdateId: int,
    bids: seq<Level>,
    asks: seq<Level>)

  datatype StateChange = StateChange(
    connectionId: string,
    atNs: int,
    state: L2State,
    updateId: Option<int>,
    reason: string)

  datatype Book = Book(
    connectionId: string,
    state: L2State,
    bids: Side,
    asks: Side,
    previousUpdateId: Option<int>,
    pending: seq<DepthDiff>,
    seen: set<DiffIdentity>,
    anchor: Option<int>,
    anchorNs: Option<int>)

  datatype Outcome = Outcome(book: Book, change: Option<StateChange>)

  function FreshBook(connectionId: string): Book {
    Book(connectionId, UNANCHORED, map[], map[], None, [], {}, None, None)
  }

  // ---------------------------------------------------------------- levels

  /** A snapshot side: zero quantities are skipped, a repeated price keeps its last level. */
  function BookSide(levels: seq<Level>): Side {
    if levels == [] then map[]
    else
      var side := BookSide(levels[..|levels| - 1]);
      var level := levels[|levels| - 1];
      if level.quantity == 0.0 then side else side[level.price := level.quantity]
  }

  function ApplyLevel(side: Side, level: Level): Side {
    if level.quantity == 0.0 then side - {level.price} else side[level.price := level.quantity]
  }

  function ApplyLevels(side: Side, levels: seq<Level>): Side
    decreases |levels|
  {
    if levels == [] then side else ApplyLevels(ApplyLevel(side, levels[0]), levels[1..])
  }

  // ---------------------------------------------------------------- buffered diffs

  function InsertBySeq(diff: DepthDiff, sorted: seq<DepthDiff>): seq<DepthDiff> {
    if sorted == [] || diff.receiveSeq <= sorted[0].receiveSeq then [diff] + sorted
    else [sorted[0]] + InsertBySeq(diff, sorted[1..])
  }

  /** Python's stable `sorted` on `receive_seq`. */
  function SortBySeq(diffs: seq<DepthDiff>): seq<DepthDiff> {
    if diffs == [] then [] else InsertBySeq(diffs[0], SortBySeq(diffs[1..]))
  }

  /** The diffs that a snapshot taken at `id` does not already contain. */
  function NotBefore(diffs: seq<DepthDiff>, id: int): seq<DepthDiff> {
    if diffs == [] then []
    else
      var rest := NotBefore(diffs[..|diffs| - 1], id);
      if diffs[|diffs| - 1].final >= id then rest + [diffs[|diffs| - 1]] else rest
  }

  /** Index of the first diff that covers `id`, or the length when there is none. */
  function FirstCovering(diffs: seq<DepthDiff>, id: int): (index: nat)
    ensures index <= |diffs|
    ensures index < |diffs| ==> diffs[index].Covers(id)
    ensures forall i :: 0 <= i < index ==> !diffs[i].Covers(id)
  {
    if diffs == [] || diffs[0].Covers(id) then 0 else 1 + FirstCovering(diffs[1..], id)
  }

  // ---------------------------------------------------------------- operations

  function ApplyDiff(book: Book, diff: DepthDiff): Book {
    book.(bids := ApplyLevels(book.bids, diff.bids),
          asks := ApplyLevels(book.asks, diff.asks),
          previousUpdateId := Some(diff.final))
  }

  function Invalidate(book: Book): Book {
    book.(state := GAPPED, bids := map[], asks := map[], previousUpdateId := None,
          pending := [], anchor := None, anchorNs := None)
  }

  datatype Chain = Linked(book: Book) | Broken(at: DepthDiff)

  /** Applies diffs in order as long as each one continues the previous one. */
  function ApplyChain(book: Book, diffs: seq<DepthDiff>): Chain
    decreases |diffs|
  {
    if diffs == [] then Linked(book)
    else if Some(diffs[0].previous) != book.previousUpdateId then Broken(diffs[0])
    else ApplyChain(ApplyDiff(book, diffs[0]), diffs[1..])
  }

  function GapChange(connectionId: string, diff: DepthDiff, reason: string): StateChange {
    StateChange(connectionId, diff.receivedNs, GAPPED, Some(diff.final), reason)
  }

  function TryBridge(book: Book): Outcome {
    if book.anchor.None? || book.anchorNs.None? then Outcome(book, None)
    else
      var candidates := NotBefore(SortBySeq(book.pending), book.anchor.value);
      var index := FirstCovering(candidates, book.anchor.value);
      if index == |candidates| then Outcome(book.(pending := candidates), None)
      else
        var bridge := candidates[index];
        match ApplyChain(ApplyDiff(book, bridge), candidates[index + 1..])
        case Broken(diff) =>
          Outcome(Invalidate(book).(pending := [diff]),
                  Some(GapChange(book.connectionId, diff, "buffered_pu_discontinuity")))
        case Linked(live) =>
          Outcome(live.(pending := [], state := VALID, anchor := None, anchorNs := None),
                  Some(StateChange(book.connectionId,
                                   Max(book.anchorNs.value, bridge.receivedNs),
                                   VALID, live.previousUpdateId, "snapshot_bridge")))
  }

  function OnDiff(book: Book, diff: DepthDiff): Outcome {
    if diff.Identity() in book.seen then Outcome(book, None)
    else
      var noted := book.(seen := book.seen + {diff.Identity()});
      if noted.state != VALID then TryBridge(noted.(pending := noted.pending + [diff]))
      else if Some(diff.previous) != noted.previousUpdateId then
        Outcome(Invalidate(noted).(pending := [diff]),
                Some(GapChange(noted.connectionId, diff, "pu_discontinuity")))
      else Outcome(ApplyDiff(noted, diff), None)
  }

  function OnSnapshot(book: Book, snapshot: DepthSnapshot): Outcome {
    TryBridge(book.(bids := BookSide(snapshot.bids),
                    asks := BookSide(snapshot.asks),
                    previousUpdateId := Some(snapshot.lastUpdateId),
                    anchor := Some(snapshot.lastUpdateId),
                    anchorNs := Some(snapshot.receivedNs)))
  }

  // ---------------------------------------------------------------- the mutable object

  method ApplyLevelsInPlace(side: Side, levels: seq<Level>) returns (updated: Side)
    ensures updated == ApplyLevels(side, levels)
  {
    updated := side;
    var i := 0;
    while i < |levels|
      invariant 0 <= i <= |levels|
      invariant ApplyLevels(updated, levels[i..]) == ApplyLevels(side, levels)
    {
      var price, quantity := levels[i].price, levels[i].quantity;
      if quantity == 0.0 {
        updated := updated - {price};
      } else {
        updated := updated[price := quantity];
      }
      assert levels[i..][1..] == levels[i + 1..];
      i := i + 1;
    }
  }

  class ConnectionBook {
    const connectionId: string
    var state: L2State
    var bids: Side
    var asks: Side
    var previousUpdateId: Option<int>
    var pending: seq<DepthDiff>
    var seenDiffs: set<DiffIdentity>
    var anchorLastUpdateId: Option<int>
    var anchorReceivedNs: Option<int>

    function Value(): Book
      reads this
    {
      Book(connectionId, state, bids, asks, previousUpdateId, pending, seenDiffs,
           anchorLastUpdateId, anchorReceivedNs)
    }

    constructor (connectionId: string)
      ensures Value() == FreshBook(connectionId)
    {
      this.connectionId := connectionId;
      state := UNANCHORED;
      bids, asks := map[], map[];
      previousUpdateId := None;
      pending := [];
      seenDiffs := {};
      anchorLastUpdateId, anchorReceivedNs := None, None;
    }

    /** `from_checkpoint` and `from_anchor_checkpoint`: the keyword constructor of the class. */
    constructor Restore(book: Book)
      ensures Value() == book
    {
      connectionId := book.connectionId;
      state := book.state;
      bids, asks := book.bids, book.asks;
      previousUpdateId := book.previousUpdateId;
      pending := book.pending;
      seenDiffs := book.seen;
      anchorLastUpdateId, anchorReceivedNs := book.anchor, book.anchorNs;
    }

    method Apply(diff: DepthDiff)
      modifies this
      ensures Value() == ApplyDiff(old(Value()), diff)
    {
      bids := ApplyLevelsInPlace(bids, diff.bids);
      asks := ApplyLevelsInPlace(asks, diff.asks);
      previousUpdateId := Some(diff.final);
    }

    method InvalidateInPlace()
      modifies this
      ensures Value() == Invalidate(old(Value()))
    {
      state := GAPPED;
      bids, asks := map[], map[];
      previousUpdateId := None;
      pending := [];
      anchorLastUpdateId, anchorReceivedNs := None, None;
    }

    method HandleDiff(diff: DepthDiff) returns (change: Option<StateChange>)
      modifies this
      ensures Outcome(Value(), change) == OnDiff(old(Value()), diff)
    {
      if diff.Identity() in seenDiffs {
        return None;
      }
      seenDiffs := seenDiffs + {diff.Identity()};
      if state != VALID {
        pending := pending + [diff];
        change := TryBridgeInPlace();
        return;
      }
      if Some(diff.previous) != previousUpdateId {
        InvalidateInPlace();
        pending := [diff];
        return Some(GapChange(connectionId, diff, "pu_discontinuity"));
      }
      Apply(diff);
      return None;
    }

    method HandleSnapshot(snapshot: DepthSnapshot) returns (change: Option<StateChange>)
      modifies this
      ensures Outcome(Value(), change) == OnSnapshot(old(Value()), snapshot)
    {
      bids := BookSide(snapshot.bids);
      asks := BookSide(snapshot.asks);
      previousUpdateId := Some(snapshot.lastUpdateId);
      anchorLastUpdateId := Some(snapshot.lastUpdateId);
      anchorReceivedNs := Some(snapshot.receivedNs);
      change := TryBridgeInPlace();
    }

    method TryBridgeInPlace() returns (change: Option<StateChange>)
      modifies this
      ensures Outcome(Value(), change) == TryBridge(old(Value()))
    {
      if anchorLastUpdateId.None? || anchorReceivedNs.None? {
        return None;
      }
      var candidates := NotBefore(SortBySeq(pending), anchorLastUpdateId.value);
      var bridgeIndex := FirstCovering(candidates, anchorLastUpdateId.value);
      if bridgeIndex == |candidates| {
        pending := candidates;
        return None;
      }
      var bridge := candidates[bridgeIndex];
      Apply(bridge);
      ghost var bridged := Value();
      var rest := candidates[bridgeIndex + 1..];
      var i := 0;
      while i < |rest|
        invariant 0 <= i <= |rest|
        invariant ApplyChain(Value(), rest[i..]) == ApplyChain(bridged, rest)
        invariant Value() == old(Value()).(bids := bids, asks := asks, previousUpdateId := previousUpdateId)
      {
        var diff := rest[i];
        if Some(diff.previous) != previousUpdateId {
          InvalidateInPlace();
          pending := [diff];
          return Some(GapChange(connectionId, diff, "buffered_pu_discontinuity"));
        }
        Apply(diff);
        assert rest[i..][1..] == rest[i + 1..];
        i := i + 1;
      }
      pending := [];
      state := VALID;
      var validAt := Max(anchorReceivedNs.value, bridge.receivedNs);
      anchorLastUpdateId, anchorReceivedNs := None, None;
      return Some(StateChange(connectionId, validAt, VALID, previousUpdateId, "snapshot_bridge"));
    }
  }
}
