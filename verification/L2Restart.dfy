/**
 After a break the stream starts over. A break leaves the book with the one diff that did not fit, and
 that diff may be the very one the next snapshot needs: wherever the snapshot arrives from then on, the
 book ends VALID, showing the snapshot and the stream from the breaking diff on.
 */
module L2Restart {
  import opened Base
  import opened L2Book
  import opened L2Replay
  import opened L2Race
  import opened L2Checkpoint

  /** What a break at `diff` leaves: nothing but the diff and the identities seen. */
  ghost predicate BrokenOff(book: Book, diff: DepthDiff) {
    && book.state == GAPPED && book.pending == [diff]
    && book.bids == map[] && book.asks == map[] && book.previousUpdateId.None?
    && book.anchor.None? && book.anchorNs.None?
  }

  // ---------------------------------------------------------------- where a chain breaks

  /** Diff `n` is the first that does not continue what comes before it. */
  ghost predicate BreaksAt(start: Option<int>, diffs: seq<DepthDiff>, n: nat) {
    && n < |diffs| && Contiguous(diffs[..n])
    && (n > 0 ==> start == Some(diffs[0].previous) && diffs[n].previous != diffs[n - 1].final)
    && (n == 0 ==> start != Some(diffs[0].previous))
  }

  lemma {:induction false} ChainBreaksAt(book: Book, diffs: seq<DepthDiff>) returns (n: nat)
    requires ApplyChain(book, diffs).Broken?
    ensures BreaksAt(book.previousUpdateId, diffs, n) && ApplyChain(book, diffs).at == diffs[n]
    decreases |diffs|
  {
    hide ApplyLevels;
    n := 0;
    if Some(diffs[0].previous) == book.previousUpdateId {
      var m := ChainBreaksAt(ApplyDiff(book, diffs[0]), diffs[1..]);
      n := m + 1;
      forall i, j | 0 <= i < j < n && j == i + 1
        ensures diffs[j].previous == diffs[i].final
      {
        if i > 0 {
          assert diffs[1..][..m][j - 1].previous == diffs[1..][..m][i - 1].final;
        } else {
          assert diffs[1..][0] == diffs[1];
        }
      }
    }
  }

  /** The candidates that follow the covering one. */
  function Followers(book: Book): seq<DepthDiff>
    requires book.anchor.Some?
  {
    var candidates := NotBefore(SortBySeq(book.pending), book.anchor.value);
    var index := FirstCovering(candidates, book.anchor.value);
    if index < |candidates| then candidates[index..] else []
  }

  /** The followers do not link: diff `n` is the first that does not continue the one before it. */
  ghost predicate Unlinked(chain: seq<DepthDiff>, n: nat) {
    0 < n < |chain| && Contiguous(chain[..n]) && chain[n].previous != chain[n - 1].final
  }

  /** A bridge that breaks does so at the first buffered diff that does not continue the chain. */
  lemma BridgeBreak(book: Book) returns (n: nat)
    requires TryBridge(book).change.Some? && TryBridge(book).change.value.state == GAPPED
    ensures book.anchor.Some? && Unlinked(Followers(book), n)
    ensures BrokenOff(TryBridge(book).book, Followers(book)[n])
    ensures TryBridge(book).change == Some(GapChange(book.connectionId, Followers(book)[n], "buffered_pu_discontinuity"))
  {
    hide ApplyLevels, SortBySeq, NotBefore, FirstCovering;
    var chain := Followers(book);
    assert TryBridge(book).book.state == GAPPED;
    var bridged := ApplyDiff(book, chain[0]);
    var candidates := NotBefore(SortBySeq(book.pending), book.anchor.value);
    var index := FirstCovering(candidates, book.anchor.value);
    assert chain[1..] == candidates[index + 1..];
    var m := ChainBreaksAt(bridged, chain[1..]);
    hide ApplyChain, Followers, BreaksAt;
    n := m + 1;
    BreaksLater(chain, m);
  }

  lemma BreaksLater(chain: seq<DepthDiff>, m: nat)
    requires chain != [] && BreaksAt(Some(chain[0].final), chain[1..], m)
    ensures Unlinked(chain, m + 1)
  {
    forall i, j | 0 <= i < j < m + 1 && j == i + 1
      ensures chain[j].previous == chain[i].final
    {
      if i > 0 {
        assert chain[1..][..m][j - 1].previous == chain[1..][..m][i - 1].final;
      } else {
        assert chain[1..][0] == chain[1];
      }
    }
    assert chain[m + 1] == chain[1..][m];
  }

  lemma LinkedBefore(chain: seq<DepthDiff>, m: nat, i: nat)
    requires 0 < i < m <= |chain| && Contiguous(chain[..m])
    ensures chain[i].previous == chain[i - 1].final
  {
    assert chain[..m][i].previous == chain[..m][i - 1].final;
  }

  lemma OneFirstBreak(chain: seq<DepthDiff>, n: nat, m: nat)
    requires Unlinked(chain, n) && Unlinked(chain, m)
    ensures n == m
  {
    hide Contiguous;
    if n < m {
      LinkedBefore(chain, m, n);
    } else if m < n {
      LinkedBefore(chain, n, m);
    }
  }

  lemma UnlinkedTail(chain: seq<DepthDiff>, n: nat)
    requires Unlinked(chain, n)
    ensures !(Contiguous(chain[1..]) && chain[1..][0].previous == chain[0].final)
  {
    if n > 1 {
      assert chain[1..][n - 1].previous != chain[1..][n - 2].final;
    } else {
      assert chain[1..][0] == chain[1];
    }
  }

  /** Candidates that do not link break the book, at the first of them that does not. */
  lemma BridgeBreaksAt(book: Book, n: nat)
    requires book.anchor.Some? && book.anchorNs.Some? && Unlinked(Followers(book), n)
    ensures BrokenOff(TryBridge(book).book, Followers(book)[n])
    ensures TryBridge(book).change == Some(GapChange(book.connectionId, Followers(book)[n], "buffered_pu_discontinuity"))
  {
    hide ApplyLevels, SortBySeq, NotBefore, FirstCovering;
    var chain := Followers(book);
    var candidates := NotBefore(SortBySeq(book.pending), book.anchor.value);
    var index := FirstCovering(candidates, book.anchor.value);
    assert chain == candidates[index..] && chain[1..] == candidates[index + 1..];
    var bridged := ApplyDiff(book, chain[0]);
    UnlinkedTail(chain, n);
    ApplyChainIsReplay(bridged, chain[1..], Ladder(bridged.bids, bridged.asks, chain[0].final));
    hide ApplyChain;
    var m := BridgeBreak(book);
    OneFirstBreak(chain, n, m);
  }

  /** A VALID book breaks exactly at an unseen diff that does not continue it, and keeps that diff. */
  lemma DiffBreaksExactly(book: Book, diff: DepthDiff)
    requires book.state == VALID && diff.Identity() !in book.seen
    ensures OnDiff(book, diff).change.Some? <==> Some(diff.previous) != book.previousUpdateId
    ensures Some(diff.previous) != book.previousUpdateId ==>
              && BrokenOff(OnDiff(book, diff).book, diff)
              && OnDiff(book, diff).change ==
                   Some(StateChange(book.connectionId, diff.receivedNs, GAPPED, Some(diff.final), "pu_discontinuity"))
              && OnDiff(book, diff).book.seen == book.seen + {diff.Identity()}
              && OnDiff(book, diff).book.connectionId == book.connectionId
  {
    hide ApplyLevels, TryBridge;
  }

  // ---------------------------------------------------------------- runs

  lemma {:induction false} RunFromFirst(book: Book, first: Input, rest: seq<Input>)
    ensures Run(book, [first] + rest) == Run(Step(book, first).book, rest)
    ensures Changes(book, [first] + rest) ==
              (if Step(book, first).change.Some? then [Step(book, first).change.value] else [])
              + Changes(Step(book, first).book, rest)
  {
    hide Step;
    var all := [first] + rest;
    if rest == [] {
      assert all == [first] && all[..0] == [];
      assert Run(book, all[..0]) == book && Changes(book, all[..0]) == [];
    } else {
      var init := rest[..|rest| - 1];
      RunFromFirst(book, first, init);
      assert all[..|all| - 1] == [first] + init;
      JoinChanges(if Step(book, first).change.Some? then [Step(book, first).change.value] else [],
                  Changes(Step(book, first).book, init), Step(Run(book, [first] + init), rest[|rest| - 1]).change);
    }
  }

  lemma JoinChanges(a: seq<StateChange>, b: seq<StateChange>, last: Option<StateChange>)
    ensures (a + b) + (if last.Some? then [last.value] else []) == a + (b + (if last.Some? then [last.value] else []))
  {
  }

  /** Identities that never come again make no difference. */
  lemma {:induction false} RunAlike(original: Book, restored: Book, extra: set<DiffIdentity>, inputs: seq<Input>)
    requires Alike(original, restored, extra)
    requires forall i :: 0 <= i < |inputs| && inputs[i].DiffIn? ==> inputs[i].diff.Identity() !in extra
    ensures Alike(Run(original, inputs), Run(restored, inputs), extra)
    ensures Changes(original, inputs) == Changes(restored, inputs)
  {
    hide Step, Alike;
    if inputs != [] {
      var init, last := inputs[..|inputs| - 1], inputs[|inputs| - 1];
      RunAlike(original, restored, extra, init);
      StepAlike(Run(original, init), Run(restored, init), extra, last);
    }
  }

  /** The book that `Restarts` promises, whatever identities it has seen. */
  ghost predicate SettledOn(book: Book, connectionId: string, diffs: seq<DepthDiff>, snapshot: DepthSnapshot)
    requires FirstCovering(diffs, snapshot.lastUpdateId) < |diffs|
  {
    book == Settled(FreshBook(connectionId), diffs, snapshot).(seen := book.seen)
  }

  /** Exactly one change, to VALID, when the later of snapshot and covering diff arrives. */
  ghost predicate OneRecovery(changes: seq<StateChange>, diffs: seq<DepthDiff>, snapshot: DepthSnapshot)
    requires FirstCovering(diffs, snapshot.lastUpdateId) < |diffs|
  {
    && |changes| == 1 && changes[0].state == VALID
    && changes[0].atNs == Max(snapshot.receivedNs, diffs[FirstCovering(diffs, snapshot.lastUpdateId)].receivedNs)
  }

  lemma FirstIsBuffered(base: Book, diffs: seq<DepthDiff>, snapshot: DepthSnapshot, k: nat)
    requires Stream(diffs) && diffs != [] && ReadyFor(base, diffs) && k < |diffs|
    ensures WithSnapshotAt(diffs, snapshot, k + 1) == [DiffIn(diffs[0])] + WithSnapshotAt(diffs[1..], snapshot, k)
    ensures Step(base, DiffIn(diffs[0])) ==
              Outcome(base.(pending := [diffs[0]], seen := base.seen + {diffs[0].Identity()}), None)
  {
    BufferedStep(base, diffs, 0);
    assert diffs[..0] == [] && diffs[..1] == [diffs[0]];
    hide OnDiff, Stream;
    assert Buffered(base, diffs, 0) == base;
    assert Buffered(base, diffs, 1) == base.(pending := [diffs[0]], seen := base.seen + {diffs[0].Identity()});
    var all, rest := WithSnapshotAt(diffs, snapshot, k + 1), WithSnapshotAt(diffs[1..], snapshot, k);
    assert all == [DiffIn(diffs[0])] + rest;
  }

  lemma NotRepeated(diffs: seq<DepthDiff>, snapshot: DepthSnapshot, k: nat)
    requires Distinct(diffs) && diffs != [] && k < |diffs|
    ensures var inputs := WithSnapshotAt(diffs[1..], snapshot, k);
            forall i :: 0 <= i < |inputs| && inputs[i].DiffIn? ==> inputs[i].diff.Identity() !in {diffs[0].Identity()}
  {
    var inputs := WithSnapshotAt(diffs[1..], snapshot, k);
    forall i | 0 <= i < |inputs| && inputs[i].DiffIn?
      ensures inputs[i].diff.Identity() != diffs[0].Identity()
    {
      var j := if i < k then i else i - 1;
      assert inputs[i].diff == diffs[j + 1];
    }
  }

  /**
   From what a break leaves, the snapshot may again arrive anywhere in the stream that the breaking
   diff begins: the book ends VALID on the snapshot and the stream from its first covering diff, which
   may be the breaking diff itself.
   */
  lemma Restarts(book: Book, diffs: seq<DepthDiff>, snapshot: DepthSnapshot, k: nat)
    requires diffs != [] && Stream(diffs) && BrokenOff(book, diffs[0])
    requires Identities(diffs[1..]) !! book.seen && k < |diffs|
    requires exists i :: 0 <= i < |diffs| && diffs[i].Covers(snapshot.lastUpdateId)
    ensures FirstCovering(diffs, snapshot.lastUpdateId) < |diffs|
    ensures SettledOn(Run(book, WithSnapshotAt(diffs[1..], snapshot, k)), book.connectionId, diffs, snapshot)
    ensures OneRecovery(Changes(book, WithSnapshotAt(diffs[1..], snapshot, k)), diffs, snapshot)
  {
    var id := diffs[0].Identity();
    var rest := WithSnapshotAt(diffs[1..], snapshot, k);
    var base, started := book.(pending := [], seen := book.seen - {id}), book.(seen := book.seen + {id});
    ReadyAgain(book, base, diffs);
    NotRepeated(diffs, snapshot, k);
    assert started == base.(pending := [diffs[0]], seen := base.seen + {id});
    hide WithSnapshotAt, Stream, Run, Changes, Step, Identities, FirstCovering, ReadyFor, BrokenOff, Settled, Alike, OneRecovery;
    FromStarted(base, diffs, snapshot, k);
    SeenApart(book, id);
    RunAlike(started, book, {id}, rest);
    SettledAlike(base, Run(book, rest), book.connectionId, diffs, snapshot);
  }

  /** The race, its first diff already buffered. */
  lemma FromStarted(base: Book, diffs: seq<DepthDiff>, snapshot: DepthSnapshot, k: nat)
    requires diffs != [] && Stream(diffs) && ReadyFor(base, diffs) && k < |diffs|
    requires exists i :: 0 <= i < |diffs| && diffs[i].Covers(snapshot.lastUpdateId)
    ensures FirstCovering(diffs, snapshot.lastUpdateId) < |diffs|
    ensures var started := base.(pending := [diffs[0]], seen := base.seen + {diffs[0].Identity()});
            var rest := WithSnapshotAt(diffs[1..], snapshot, k);
            Run(started, rest) == Settled(base, diffs, snapshot) && OneRecovery(Changes(started, rest), diffs, snapshot)
  {
    hide WithSnapshotAt, Stream, Run, Changes, Step, FirstCovering, ReadyFor, Settled, OneRecovery, Identities;
    var all, rest := WithSnapshotAt(diffs, snapshot, k + 1), WithSnapshotAt(diffs[1..], snapshot, k);
    var started := base.(pending := [diffs[0]], seen := base.seen + {diffs[0].Identity()});
    FirstIsBuffered(base, diffs, snapshot, k);
    AfterQuiet(base, DiffIn(diffs[0]), started, rest);
    assert Run(started, rest) == Run(base, all) && Changes(started, rest) == Changes(base, all);
    Race(base, diffs, snapshot, k + 1);
  }

  /** A first input that reports nothing. */
  lemma AfterQuiet(book: Book, first: Input, next: Book, rest: seq<Input>)
    requires Step(book, first) == Outcome(next, None)
    ensures Run(book, [first] + rest) == Run(next, rest) && Changes(book, [first] + rest) == Changes(next, rest)
  {
    RunFromFirst(book, first, rest);
    hide Run, Changes, Step;
    assert [] + Changes(next, rest) == Changes(next, rest);
  }

  lemma SeenApart(book: Book, id: DiffIdentity)
    ensures Alike(book.(seen := book.seen + {id}), book, {id})
  {
  }

  lemma Race(base: Book, diffs: seq<DepthDiff>, snapshot: DepthSnapshot, k: nat)
    requires Stream(diffs) && ReadyFor(base, diffs) && k <= |diffs|
    requires exists i :: 0 <= i < |diffs| && diffs[i].Covers(snapshot.lastUpdateId)
    ensures FirstCovering(diffs, snapshot.lastUpdateId) < |diffs|
    ensures Run(base, WithSnapshotAt(diffs, snapshot, k)) == Settled(base, diffs, snapshot)
    ensures OneRecovery(Changes(base, WithSnapshotAt(diffs, snapshot, k)), diffs, snapshot)
  {
    hide Run, Changes, Settled, Stream, ReadyFor, FirstCovering, WithSnapshotAt;
    SnapshotRaceIndependence(base, diffs, snapshot, k);
  }

  lemma ReadyAgain(book: Book, base: Book, diffs: seq<DepthDiff>)
    requires diffs != [] && BrokenOff(book, diffs[0]) && Identities(diffs[1..]) !! book.seen
    requires base == book.(pending := [], seen := book.seen - {diffs[0].Identity()})
    ensures ReadyFor(base, diffs)
  {
    forall d | d in diffs
      ensures d.Identity() !in base.seen
    {
      var i :| 0 <= i < |diffs| && diffs[i] == d;
      if i > 0 {
        assert diffs[1..][i - 1] == d;
        assert d.Identity() in Identities(diffs[1..]);
      }
    }
  }

  lemma SettledAlike(base: Book, after: Book, connectionId: string, diffs: seq<DepthDiff>, snapshot: DepthSnapshot)
    requires diffs != [] && FirstCovering(diffs, snapshot.lastUpdateId) < |diffs| && base.connectionId == connectionId
    requires Alike(Settled(base, diffs, snapshot), after, {diffs[0].Identity()})
    ensures SettledOn(after, connectionId, diffs, snapshot)
  {
    hide Replay, FirstCovering, Identities;
  }

  /**
   A VALID book that breaks restarts at the breaking diff: wherever in the rest of the stream the next
   snapshot arrives, the run reports one GAPPED and one VALID change and ends on snapshot and stream.
   */
  lemma BreakRestarts(book: Book, diffs: seq<DepthDiff>, snapshot: DepthSnapshot, k: nat)
    requires book.state == VALID && diffs != [] && Stream(diffs)
    requires Identities(diffs) !! book.seen && k < |diffs|
    requires Some(diffs[0].previous) != book.previousUpdateId
    requires exists i :: 0 <= i < |diffs| && diffs[i].Covers(snapshot.lastUpdateId)
    ensures FirstCovering(diffs, snapshot.lastUpdateId) < |diffs|
    ensures var inputs := [DiffIn(diffs[0])] + WithSnapshotAt(diffs[1..], snapshot, k);
            && SettledOn(Run(book, inputs), book.connectionId, diffs, snapshot)
            && Changes(book, inputs) != []
            && Changes(book, inputs)[0] ==
                 StateChange(book.connectionId, diffs[0].receivedNs, GAPPED, Some(diffs[0].final), "pu_discontinuity")
            && OneRecovery(Changes(book, inputs)[1..], diffs, snapshot)
  {
    assert diffs[0] in diffs;
    assert diffs[0].Identity() in Identities(diffs);
    DiffBreaksExactly(book, diffs[0]);
    var broken := OnDiff(book, diffs[0]).book;
    LaterUnseen(book, broken, diffs);
    Restarts(broken, diffs, snapshot, k);
    var rest := WithSnapshotAt(diffs[1..], snapshot, k);
    assert Step(book, DiffIn(diffs[0])) == OnDiff(book, diffs[0]);
    hide WithSnapshotAt, Stream, Run, Changes, Identities, FirstCovering, Step, OnDiff, SettledOn, OneRecovery;
    RunFromFirst(book, DiffIn(diffs[0]), rest);
    assert Changes(book, [DiffIn(diffs[0])] + rest)[1..] == Changes(broken, rest);
  }

  lemma LaterUnseen(book: Book, broken: Book, diffs: seq<DepthDiff>)
    requires diffs != [] && Distinct(diffs) && Identities(diffs) !! book.seen
    requires broken.seen == book.seen + {diffs[0].Identity()}
    ensures Identities(diffs[1..]) !! broken.seen
  {
    forall d | d in diffs[1..]
      ensures d.Identity() !in broken.seen
    {
      var i :| 0 <= i < |diffs[1..]| && diffs[1..][i] == d;
      assert diffs[i + 1] == d;
      assert d.Identity() in Identities(diffs);
    }
  }

  /** The book in which the input makes `_try_bridge` look for a bridge. */
  function Looking(book: Book, input: Input): Book
    requires !input.GapIn?
  {
    match input
    case DiffIn(diff) => book.(seen := book.seen + {diff.Identity()}, pending := book.pending + [diff])
    case SnapshotIn(snapshot) =>
      book.(bids := BookSide(snapshot.bids), asks := BookSide(snapshot.asks),
            previousUpdateId := Some(snapshot.lastUpdateId),
            anchor := Some(snapshot.lastUpdateId), anchorNs := Some(snapshot.receivedNs))
  }

  /**
   The same for a break among buffered diffs, found when a diff or a snapshot starts the search for a
   bridge: the book restarts at the first buffered diff that does not continue the chain.
   */
  lemma BufferedBreakRestarts(book: Book, input: Input, n: nat, diffs: seq<DepthDiff>, snapshot: DepthSnapshot, k: nat)
    requires !input.GapIn? && (input.DiffIn? ==> book.state != VALID && input.diff.Identity() !in book.seen)
    requires var looking := Looking(book, input);
             && looking.anchor.Some? && looking.anchorNs.Some? && Unlinked(Followers(looking), n)
             && diffs != [] && diffs[0] == Followers(looking)[n]
             && Stream(diffs) && Identities(diffs[1..]) !! looking.seen && k < |diffs|
    requires exists i :: 0 <= i < |diffs| && diffs[i].Covers(snapshot.lastUpdateId)
    ensures FirstCovering(diffs, snapshot.lastUpdateId) < |diffs|
    ensures var inputs := [input] + WithSnapshotAt(diffs[1..], snapshot, k);
            && SettledOn(Run(book, inputs), book.connectionId, diffs, snapshot)
            && Changes(book, inputs) != []
            && Changes(book, inputs)[0] ==
                 StateChange(book.connectionId, diffs[0].receivedNs, GAPPED, Some(diffs[0].final), "buffered_pu_discontinuity")
            && OneRecovery(Changes(book, inputs)[1..], diffs, snapshot)
  {
    var looking := Looking(book, input);
    BridgeBreaksAt(looking, n);
    LooksForBridge(book, input);
    var broken := TryBridge(looking).book;
    BridgeKeepsSeen(looking);
    assert broken.connectionId == book.connectionId by {
      BridgeKeepsConnection(looking);
    }
    hide TryBridge, Looking, Followers, Unlinked;
    Restarts(broken, diffs, snapshot, k);
    var rest := WithSnapshotAt(diffs[1..], snapshot, k);
    hide WithSnapshotAt, Stream, Run, Changes, Identities, FirstCovering, Step, SettledOn, OneRecovery;
    RunFromFirst(book, input, rest);
    assert Changes(book, [input] + rest)[1..] == Changes(broken, rest);
  }

  lemma LooksForBridge(book: Book, input: Input)
    requires !input.GapIn? && (input.DiffIn? ==> book.state != VALID && input.diff.Identity() !in book.seen)
    ensures Step(book, input) == TryBridge(Looking(book, input)) && Looking(book, input).connectionId == book.connectionId
  {
    hide TryBridge, BookSide;
  }

  lemma BridgeKeepsConnection(book: Book)
    requires TryBridge(book).change.Some? && TryBridge(book).change.value.state == GAPPED
    ensures TryBridge(book).book.connectionId == book.connectionId
  {
    hide SortBySeq, NotBefore, FirstCovering, ApplyChain;
  }

  // ---------------------------------------------------------------- gaps and further snapshots

  /** A transport gap forgets ladder, anchor and buffer: from then on the race starts from nothing. */
  lemma GapRestarts(book: Book, diffs: seq<DepthDiff>, snapshot: DepthSnapshot, k: nat)
    requires Stream(diffs) && Identities(diffs) !! book.seen && k <= |diffs|
    requires exists i :: 0 <= i < |diffs| && diffs[i].Covers(snapshot.lastUpdateId)
    ensures FirstCovering(diffs, snapshot.lastUpdateId) < |diffs|
    ensures var inputs := [GapIn] + WithSnapshotAt(diffs, snapshot, k);
            && SettledOn(Run(book, inputs), book.connectionId, diffs, snapshot)
            && OneRecovery(Changes(book, inputs), diffs, snapshot)
  {
    var forgotten := Invalidate(book);
    assert ReadyFor(forgotten, diffs);
    var rest := WithSnapshotAt(diffs, snapshot, k);
    assert Step(book, GapIn) == Outcome(forgotten, None);
    assert forgotten.connectionId == book.connectionId;
    hide Invalidate, Stream, Identities, Run, Changes, Step, FirstCovering, WithSnapshotAt, OneRecovery, Settled, ReadyFor;
    Race(forgotten, diffs, snapshot, k);
    AfterQuiet(book, GapIn, forgotten, rest);
    SameIsSettled(forgotten, diffs, snapshot);
  }

  lemma SameIsSettled(base: Book, diffs: seq<DepthDiff>, snapshot: DepthSnapshot)
    requires FirstCovering(diffs, snapshot.lastUpdateId) < |diffs|
    ensures SettledOn(Settled(base, diffs, snapshot), base.connectionId, diffs, snapshot)
  {
    hide Replay, FirstCovering, Identities;
  }

  /** What a snapshot does depends on the buffer alone: the former ladder and anchor do not matter. */
  lemma SnapshotReplaces(book: Book, other: Book, snapshot: DepthSnapshot)
    requires book.connectionId == other.connectionId && book.state == other.state
    requires book.pending == other.pending && book.seen == other.seen
    ensures OnSnapshot(book, snapshot) == OnSnapshot(other, snapshot)
  {
    hide TryBridge, BookSide;
  }

  /** On a VALID book the snapshot is the new ladder and anchor, and nothing is reported. */
  lemma SnapshotOnValid(book: Book, snapshot: DepthSnapshot)
    requires book.state == VALID && book.pending == []
    ensures var after := OnSnapshot(book, snapshot);
            && after.change.None? && after.book.state == VALID
            && ShowsLadder(after.book, SnapshotLadder(snapshot))
            && after.book.anchor == Some(snapshot.lastUpdateId) && after.book.seen == book.seen
  {
    hide BookSide;
    assert SortBySeq([]) == [] && NotBefore([], snapshot.lastUpdateId) == [];
  }
}
