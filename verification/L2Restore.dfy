/**
 What the identities that a checkpoint forgets are worth. A restored book is the original without
 them, so a diff delivered again is news to it. This module says exactly when that shows.
 */
module L2Restore {
  import opened Base
  import opened L2Book
  import opened L2Replay
  import opened L2Race
  import opened L2Checkpoint

  // ---------------------------------------------------------------- a sorted, filtered buffer

  lemma {:induction false} NotBeforeHead(head: DepthDiff, rest: seq<DepthDiff>, id: int)
    ensures NotBefore([head] + rest, id) ==
              if head.final >= id then [head] + NotBefore(rest, id) else NotBefore(rest, id)
  {
    var all := [head] + rest;
    if rest == [] {
      assert all[..0] == [];
      assert NotBefore(all[..0], id) == [];
    } else {
      var init, last := rest[..|rest| - 1], rest[|rest| - 1];
      NotBeforeHead(head, init, id);
      assert all[..|all| - 1] == [head] + init;
      assert all[|all| - 1] == last;
      assert ([head] + NotBefore(init, id)) + [last] == [head] + (NotBefore(init, id) + [last]);
    }
  }

  lemma {:induction false} InsertThenFilter(diff: DepthDiff, sorted: seq<DepthDiff>, id: int)
    requires InSeqOrder(sorted)
    ensures NotBefore(InsertBySeq(diff, sorted), id) ==
              if diff.final >= id then InsertBySeq(diff, NotBefore(sorted, id)) else NotBefore(sorted, id)
  {
    if sorted == [] || diff.receiveSeq <= sorted[0].receiveSeq {
      NotBeforeHead(diff, sorted, id);
      NotBeforeElements(sorted, id);
      var kept := NotBefore(sorted, id);
      assert kept != [] ==> kept[0] in sorted;
    } else {
      var rest := sorted[1..];
      InsertThenFilter(diff, rest, id);
      NotBeforeHead(sorted[0], rest, id);
      NotBeforeHead(sorted[0], InsertBySeq(diff, rest), id);
      assert sorted == [sorted[0]] + rest;
      if sorted[0].final >= id {
        var kept := NotBefore(rest, id);
        assert ([sorted[0]] + kept)[1..] == kept;
      }
    }
  }

  /** Sorting by receive sequence and dropping what the snapshot holds may be done in either order. */
  lemma {:induction false} SortThenFilter(diffs: seq<DepthDiff>, id: int)
    ensures NotBefore(SortBySeq(diffs), id) == SortBySeq(NotBefore(diffs, id))
  {
    if diffs != [] {
      var rest := diffs[1..];
      SortThenFilter(rest, id);
      SortBySeqSorts(rest);
      InsertThenFilter(diffs[0], SortBySeq(rest), id);
      NotBeforeHead(diffs[0], rest, id);
      assert diffs == [diffs[0]] + rest;
      var kept := NotBefore(rest, id);
      assert ([diffs[0]] + kept)[1..] == kept;
    }
  }

  /** The candidates of a tidy buffer and one more diff: it, or nothing new. */
  lemma CandidatesWith(pending: seq<DepthDiff>, diff: DepthDiff, id: int)
    requires Tidy(pending, id)
    ensures diff.final < id ==> NotBefore(SortBySeq(pending + [diff]), id) == pending
    ensures diff.final >= id ==> |NotBefore(SortBySeq(pending + [diff]), id)| == |pending| + 1
  {
    TidyIsKept(pending, id);
    assert (pending + [diff])[..|pending|] == pending;
    SortThenFilter(pending + [diff], id);
    if diff.final < id {
      SortedIsFixed(pending);
    } else {
      SortBySeqElements(pending + [diff]);
      assert |multiset(SortBySeq(pending + [diff]))| == |multiset(pending + [diff])|;
    }
  }

  // ---------------------------------------------------------------- what every book keeps

  /** Anchor and anchor time come together, and a book that waits for its bridge has a tidy buffer. */
  ghost predicate Orderly(book: Book) {
    && (book.anchor.Some? <==> book.anchorNs.Some?)
    && (book.state != VALID && book.anchor.Some? ==> Tidy(book.pending, book.anchor.value))
  }

  lemma BridgeOrderly(book: Book)
    requires book.anchor.Some? <==> book.anchorNs.Some?
    ensures Orderly(TryBridge(book).book)
  {
    hide ApplyLevels, SortBySeq, NotBefore, Tidy;
    if book.anchor.Some? {
      var id := book.anchor.value;
      var candidates := NotBefore(SortBySeq(book.pending), id);
      CandidatesTidy(book.pending, id);
      hide FirstCovering, ApplyChain;
    }
  }

  lemma StepOrderly(book: Book, input: Input)
    requires Orderly(book)
    ensures Orderly(Step(book, input).book)
  {
    hide ApplyLevels, TryBridge, Tidy;
    match input
    case DiffIn(diff) =>
      BridgeOrderly(book.(seen := book.seen + {diff.Identity()}, pending := book.pending + [diff]));
    case SnapshotIn(snapshot) =>
      BridgeOrderly(book.(bids := BookSide(snapshot.bids), asks := BookSide(snapshot.asks),
                          previousUpdateId := Some(snapshot.lastUpdateId),
                          anchor := Some(snapshot.lastUpdateId), anchorNs := Some(snapshot.receivedNs)));
    case GapIn =>
  }

  lemma {:induction false} RunOrderly(book: Book, inputs: seq<Input>)
    requires Orderly(book)
    ensures Orderly(Run(book, inputs))
  {
    hide Step, Orderly;
    if inputs != [] {
      RunOrderly(book, inputs[..|inputs| - 1]);
      StepOrderly(Run(book, inputs[..|inputs| - 1]), inputs[|inputs| - 1]);
    }
  }

  // ---------------------------------------------------------------- one repeated diff

  /** The quantity that a level list ends up saying about a price. */
  function Said(levels: seq<Level>, price: Decimal): Option<Decimal>
    decreases |levels|
  {
    if levels == [] then None
    else
      var later := Said(levels[1..], price);
      if later.Some? then later
      else if levels[0].price == price then Some(levels[0].quantity)
      else None
  }

  /** The side shows at this price what the levels say about it, zero being no entry. */
  ghost predicate ShowsAt(side: Side, levels: seq<Level>, price: Decimal) {
    match Said(levels, price)
    case None => true
    case Some(quantity) => if quantity == 0.0 then price !in side else price in side && side[price] == quantity
  }

  lemma {:induction false} AppliedAt(side: Side, levels: seq<Level>, price: Decimal)
    ensures ShowsAt(ApplyLevels(side, levels), levels, price)
    ensures Said(levels, price).None? ==>
              (price in ApplyLevels(side, levels) <==> price in side) &&
              (price in side ==> ApplyLevels(side, levels)[price] == side[price])
    decreases |levels|
  {
    if levels != [] {
      AppliedAt(ApplyLevel(side, levels[0]), levels[1..], price);
    }
  }

  /** Applying levels changes nothing exactly when the side shows all of them already. */
  lemma ShownAlready(side: Side, levels: seq<Level>)
    ensures ApplyLevels(side, levels) == side <==> forall price :: ShowsAt(side, levels, price)
  {
    forall price
      ensures ShowsAt(ApplyLevels(side, levels), levels, price)
      ensures Said(levels, price).None? ==>
                (price in ApplyLevels(side, levels) <==> price in side) &&
                (price in side ==> ApplyLevels(side, levels)[price] == side[price])
    {
      AppliedAt(side, levels, price);
    }
    hide ApplyLevels, Said;
    if forall price :: ShowsAt(side, levels, price) {
      var after := ApplyLevels(side, levels);
      forall price
        ensures price in after <==> price in side
        ensures price in side ==> after[price] == side[price]
      {
        assert ShowsAt(side, levels, price) && ShowsAt(after, levels, price);
      }
      assert after == side;
    }
  }

  /**
   A diff that leaves the book as it is. A VALID book: it begins and ends at the id the book is at and
   its levels are shown already. A waiting book: it ends before the snapshot the book is anchored at.
   */
  ghost predicate Harmless(book: Book, diff: DepthDiff) {
    if book.state == VALID then
      && book.previousUpdateId == Some(diff.previous) && diff.final == diff.previous
      && (forall price :: ShowsAt(book.bids, diff.bids, price))
      && (forall price :: ShowsAt(book.asks, diff.asks, price))
    else book.anchor.Some? && diff.final < book.anchor.value
  }

  /** The same book, whatever diffs either has seen. */
  ghost predicate SameButSeen(a: Book, b: Book) {
    a == b.(seen := a.seen)
  }

  ghost predicate SameAnswer(a: Outcome, b: Outcome) {
    a.change == b.change && SameButSeen(a.book, b.book)
  }

  lemma TidyNotCovered(pending: seq<DepthDiff>, id: int)
    requires Tidy(pending, id)
    ensures FirstCovering(pending, id) == |pending|
  {
  }

  lemma WaitingIsHarmless(book: Book, noted: Book, diff: DepthDiff)
    requires Orderly(book) && book.state != VALID
    requires noted == book.(seen := noted.seen)
    ensures SameAnswer(Outcome(book, None), TryBridge(noted.(pending := noted.pending + [diff]))) <==>
              Harmless(book, diff)
  {
    hide ApplyLevels, SortBySeq, NotBefore, Tidy;
    if book.anchor.None? {
      assert |book.pending + [diff]| != |book.pending|;
    } else {
      var id := book.anchor.value;
      CandidatesWith(book.pending, diff, id);
      if diff.final < id {
        assert FirstCovering(book.pending, id) == |book.pending| by {
          TidyNotCovered(book.pending, id);
        }
      }
      hide ApplyChain, FirstCovering;
    }
  }

  /** A diff that the original has seen and the restored book has not. */
  lemma RepeatShowsExactly(original: Book, restored: Book, diff: DepthDiff)
    requires Orderly(original) && SameButSeen(original, restored)
    requires diff.Identity() in original.seen && diff.Identity() !in restored.seen
    ensures SameAnswer(OnDiff(original, diff), OnDiff(restored, diff)) <==> Harmless(original, diff)
  {
    hide ApplyLevels, TryBridge;
    var noted := restored.(seen := restored.seen + {diff.Identity()});
    if original.state == VALID {
      assert ApplyDiff(noted, diff) == ApplyDiff(original, diff).(seen := noted.seen);
      ShownAlready(original.bids, diff.bids);
      ShownAlready(original.asks, diff.asks);
      hide ShowsAt;
    } else {
      WaitingIsHarmless(original, noted, diff);
    }
  }

  /** Any other input is answered alike. */
  lemma OtherInputAlike(original: Book, restored: Book, input: Input)
    requires SameButSeen(original, restored) && restored.seen <= original.seen
    requires input.DiffIn? ==>
               input.diff.Identity() !in original.seen || input.diff.Identity() in restored.seen
    ensures SameAnswer(Step(original, input), Step(restored, input))
  {
    hide Step;
    var extra := original.seen - restored.seen;
    assert original.seen == restored.seen + extra;
    StepAlike(original, restored, extra, input);
  }

  // ---------------------------------------------------------------- whole runs

  /** The identities of the diffs among the inputs. */
  function Delivered(inputs: seq<Input>): set<DiffIdentity> {
    if inputs == [] then {}
    else
      var last := inputs[|inputs| - 1];
      Delivered(inputs[..|inputs| - 1]) + (if last.DiffIn? then {last.diff.Identity()} else {})
  }

  lemma StepSeen(book: Book, input: Input)
    ensures Step(book, input).book.seen == book.seen + (if input.DiffIn? then {input.diff.Identity()} else {})
  {
    hide ApplyLevels, TryBridge;
    match input
    case DiffIn(diff) =>
      BridgeKeepsSeen(book.(seen := book.seen + {diff.Identity()}, pending := book.pending + [diff]));
    case SnapshotIn(snapshot) =>
      BridgeKeepsSeen(book.(bids := BookSide(snapshot.bids), asks := BookSide(snapshot.asks),
                            previousUpdateId := Some(snapshot.lastUpdateId),
                            anchor := Some(snapshot.lastUpdateId), anchorNs := Some(snapshot.receivedNs)));
    case GapIn =>
  }

  lemma {:induction false} RunSeen(book: Book, inputs: seq<Input>)
    ensures Run(book, inputs).seen == book.seen + Delivered(inputs)
  {
    hide Step;
    if inputs != [] {
      RunSeen(book, inputs[..|inputs| - 1]);
      StepSeen(Run(book, inputs[..|inputs| - 1]), inputs[|inputs| - 1]);
    }
  }

  /** A diff delivered again, even after gaps, changes nothing and reports nothing. */
  lemma RepeatIsIgnored(book: Book, inputs: seq<Input>, diff: DepthDiff)
    requires diff.Identity() in Delivered(inputs)
    ensures Step(Run(book, inputs), DiffIn(diff)) == Outcome(Run(book, inputs), None)
  {
    RunSeen(book, inputs);
  }

  /** After `n` inputs both books have reported the same changes and are the same book. */
  ghost predicate SameAt(a: Book, b: Book, inputs: seq<Input>, n: nat)
    requires n <= |inputs|
  {
    && Changes(a, inputs[..n]) == Changes(b, inputs[..n])
    && SameButSeen(Run(a, inputs[..n]), Run(b, inputs[..n]))
  }

  /** Input `n` is no diff that only the original remembers, or one that changes nothing. */
  ghost predicate HarmlessAt(book: Book, inputs: seq<Input>, n: nat)
    requires n < |inputs|
  {
    inputs[n].DiffIn? && inputs[n].diff.Identity() in book.seen
    && inputs[n].diff.Identity() !in Delivered(inputs[..n]) ==>
      Harmless(Run(book, inputs[..n]), inputs[n].diff)
  }

  lemma SameNext(a: Book, b: Book, inputs: seq<Input>, n: nat)
    requires n < |inputs| && SameAt(a, b, inputs, n)
    ensures SameAt(a, b, inputs, n + 1) <==>
              SameAnswer(Step(Run(a, inputs[..n]), inputs[n]), Step(Run(b, inputs[..n]), inputs[n]))
  {
    hide Step;
    assert inputs[..n + 1][..n] == inputs[..n];
    var changes := Changes(a, inputs[..n]);
    var c := Step(Run(a, inputs[..n]), inputs[n]).change;
    var d := Step(Run(b, inputs[..n]), inputs[n]).change;
    var cs := changes + (if c.Some? then [c.value] else []);
    var ds := changes + (if d.Some? then [d.value] else []);
    if cs == ds {
      assert c.Some? ==> cs[|changes|] == c.value;
      assert d.Some? ==> ds[|changes|] == d.value;
    }
  }

  lemma NextAlikeExactly(book: Book, inputs: seq<Input>, n: nat)
    requires Orderly(book) && n < |inputs| && SameAt(book, book.(seen := {}), inputs, n)
    ensures SameAt(book, book.(seen := {}), inputs, n + 1) <==> HarmlessAt(book, inputs, n)
  {
    hide Step, Orderly, Harmless, Run, Changes;
    SameNext(book, book.(seen := {}), inputs, n);
    var original, restored := Run(book, inputs[..n]), Run(book.(seen := {}), inputs[..n]);
    RunOrderly(book, inputs[..n]);
    RunSeen(book, inputs[..n]);
    RunSeen(book.(seen := {}), inputs[..n]);
    var input := inputs[n];
    if input.DiffIn? && input.diff.Identity() in original.seen && input.diff.Identity() !in restored.seen {
      RepeatShowsExactly(original, restored, input.diff);
      DiffStep(original, input.diff);
      DiffStep(restored, input.diff);
    } else {
      OtherInputAlike(original, restored, input);
    }
  }

  lemma DiffStep(book: Book, diff: DepthDiff)
    ensures Step(book, DiffIn(diff)) == OnDiff(book, diff)
  {
  }

  lemma {:induction false} AlikeUpTo(book: Book, inputs: seq<Input>, n: nat)
    requires Orderly(book) && n <= |inputs|
    requires forall m :: 0 <= m < n ==> HarmlessAt(book, inputs, m)
    ensures SameAt(book, book.(seen := {}), inputs, n)
  {
    hide Orderly, HarmlessAt;
    if n == 0 {
      assert inputs[..0] == [];
    } else {
      AlikeUpTo(book, inputs, n - 1);
      hide SameAt;
      NextAlikeExactly(book, inputs, n - 1);
    }
  }

  /**
   A book and its restored copy report the same changes and show the same state, ladder and buffer
   after every prefix of a later sequence of inputs exactly when each diff that the original had
   seen before the checkpoint is harmless where it is delivered again for the first time.
   */
  lemma RestoredAlikeExactly(book: Book, inputs: seq<Input>)
    requires Orderly(book)
    ensures (forall n :: 0 <= n <= |inputs| ==> SameAt(book, book.(seen := {}), inputs, n)) <==>
            (forall n :: 0 <= n < |inputs| ==> HarmlessAt(book, inputs, n))
  {
    hide SameAt, HarmlessAt, Orderly;
    if forall n :: 0 <= n < |inputs| ==> HarmlessAt(book, inputs, n) {
      forall n | 0 <= n <= |inputs|
        ensures SameAt(book, book.(seen := {}), inputs, n)
      {
        AlikeUpTo(book, inputs, n);
      }
    }
    if forall n :: 0 <= n <= |inputs| ==> SameAt(book, book.(seen := {}), inputs, n) {
      forall n | 0 <= n < |inputs|
        ensures HarmlessAt(book, inputs, n)
      {
        assert SameAt(book, book.(seen := {}), inputs, n + 1);
        NextAlikeExactly(book, inputs, n);
      }
    }
  }
}
