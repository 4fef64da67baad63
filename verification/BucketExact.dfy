/**
 What a reconciled bucket holds, exactly: which symbols fill it up, how many are exchanged, which of them
 come in and which go.
 */
module BucketExact {
  import opened Base
  import opened Bucket

  /** What is new in `after` are the first of the preferred symbols: none was passed over. */
  predicate TakesBest(before: seq<Symbol>, after: seq<Symbol>, preferred: seq<Symbol>) {
    forall i, j :: 0 <= i < j < |preferred| && preferred[j] in after && preferred[j] !in before ==> preferred[i] in after
  }

  /** Of the removable symbols the last ones go. */
  predicate LeavesLast(before: seq<Symbol>, after: seq<Symbol>, top: seq<Symbol>, t: Tenure) {
    forall i, j :: 0 <= i < j < |before| && before[i] !in after && Removable(before[j], top, t) ==> before[j] !in after
  }

  function RemovableOf(s: seq<Symbol>, top: seq<Symbol>, t: Tenure): set<Symbol> {
    set x | x in s && Removable(x, top, t)
  }

  function ToFive(kept: seq<Symbol>, others: seq<Symbol>): seq<Symbol> {
    kept + (if |kept| < 5 then others[..Min(5 - |kept|, |others|)] else [])
  }

  /** Filling up: the kept symbols, then the best of the others until there are five. */
  function FilledUpFrom(kept: seq<Symbol>, eligible: seq<Symbol>): seq<Symbol> {
    ToFive(kept, Outside(eligible, SetOf(kept)))
  }

  /**
   Exchanging: as many as the limit, the removable symbols and the missing ones of the top five allow; the
   best of the missing come in, and the last of the removable go.
   */
  ghost predicate Exchanges(filled: seq<Symbol>, r: seq<Symbol>, top: seq<Symbol>, t: Tenure, limit: int) {
    && Distinct(r) && |r| == |filled|
    && |SetOf(r) - SetOf(filled)| == Min(limit, Min(|RemovableOf(filled, top, t)|, |SetOf(top) - SetOf(filled)|))
    && SetOf(r) - SetOf(filled) <= SetOf(top) && SetOf(filled) - SetOf(r) <= RemovableOf(filled, top, t)
    && TakesBest(filled, r, top) && LeavesLast(filled, r, top, t)
  }

  // ---------------------------------------------------------------- filling up

  lemma {:induction false} OutsideHead(x: Symbol, rest: seq<Symbol>, out: set<Symbol>)
    ensures Outside([x] + rest, out) == (if x in out then [] else [x]) + Outside(rest, out)
    decreases |rest|
  {
    hide Distinct;
    var s := [x] + rest;
    if rest == [] {
      assert s[..0] == [];
    } else {
      var n := |rest| - 1;
      assert s[..|s| - 1] == [x] + rest[..n];
      OutsideHead(x, rest[..n], out);
    }
  }

  lemma {:induction false} OutsideSame(s: seq<Symbol>, a: set<Symbol>, b: set<Symbol>)
    requires forall x | x in s :: x in a <==> x in b
    ensures Outside(s, a) == Outside(s, b)
    decreases |s|
  {
    if s != [] {
      assert forall x | x in s[..|s| - 1] :: x in s;
      assert s[|s| - 1] in s;
      OutsideSame(s[..|s| - 1], a, b);
    }
  }

  lemma {:induction false} FilledExactly(kept: seq<Symbol>, eligible: seq<Symbol>)
    requires Distinct(eligible)
    ensures Filled(kept, eligible) == FilledUpFrom(kept, eligible)
    decreases |eligible|
  {
    if eligible != [] && |kept| < 5 {
      var x, rest := eligible[0], eligible[1..];
      assert eligible == [x] + rest && x !in rest && Distinct(rest);
      var next := if x in kept then kept else kept + [x];
      assert Filled(kept, eligible) == Filled(next, rest);
      FilledExactly(next, rest);
      hide Filled;
      FilledUpNext(kept, x, rest);
    }
  }

  lemma FilledUpNext(kept: seq<Symbol>, x: Symbol, rest: seq<Symbol>)
    requires |kept| < 5 && x !in rest
    ensures FilledUpFrom(kept, [x] + rest) == FilledUpFrom(if x in kept then kept else kept + [x], rest)
  {
    hide Outside, ToFive;
    OutsideHead(x, rest, SetOf(kept));
    if x in kept {
      assert [] + Outside(rest, SetOf(kept)) == Outside(rest, SetOf(kept));
    } else {
      OutsideSame(rest, SetOf(kept), SetOf(kept + [x]));
      ToFiveOne(kept, x, Outside(rest, SetOf(kept)));
    }
  }

  lemma ToFiveOne(kept: seq<Symbol>, x: Symbol, others: seq<Symbol>)
    requires |kept| < 5
    ensures ToFive(kept, [x] + others) == ToFive(kept + [x], others)
  {
  }

  lemma ToFiveDistinct(kept: seq<Symbol>, others: seq<Symbol>)
    requires Distinct(kept) && Distinct(others) && forall x | x in others :: x !in kept
    ensures Distinct(ToFive(kept, others))
  {
    var r := ToFive(kept, others);
    forall i, j | 0 <= i < j < |r|
      ensures r[i] != r[j]
    {
      if i < |kept| <= j {
        assert r[i] == kept[i] && r[j] == others[j - |kept|] && r[j] in others;
      }
    }
  }

  // ---------------------------------------------------------------- exchanging

  lemma {:induction false} RemovedAt(s: seq<Symbol>, m: nat)
    requires Distinct(s) && m < |s|
    ensures Removed(s, s[m]) == s[..m] + s[m + 1..]
    decreases |s|
  {
    var n := |s| - 1;
    if m < n {
      RemovedAt(s[..n], m);
      assert s[m] != s[n] && s[..n][m] == s[m];
      assert s[..n][..m] == s[..m];
      assert s[..n][m + 1..] + [s[n]] == s[m + 1..];
    } else {
      assert s[m + 1..] == [];
    }
  }

  lemma {:induction false} LastIs(result: seq<Symbol>, top: seq<Symbol>, t: Tenure)
    requires LastRemovable(result, top, t).Some?
    ensures exists m :: 0 <= m < |result| && result[m] == LastRemovable(result, top, t).value && RemovableEnds(result, m, top, t)
    decreases |result|
  {
    var n := |result| - 1;
    if Removable(result[n], top, t) {
      assert RemovableEnds(result, n, top, t);
    } else {
      LastIs(result[..n], top, t);
      var m :| 0 <= m < n && result[..n][m] == LastRemovable(result, top, t).value && RemovableEnds(result[..n], m, top, t);
      forall j | m < j < |result|
        ensures !Removable(result[j], top, t)
      {
        assert j < n ==> result[..n][j] == result[j];
      }
      assert RemovableEnds(result, m, top, t);
    }
  }

  predicate RemovableEnds(result: seq<Symbol>, m: nat, top: seq<Symbol>, t: Tenure) {
    forall j | m < j < |result| :: !Removable(result[j], top, t)
  }

  /** One turn takes out the last removable symbol; the others keep their order. */
  lemma TurnLeavesLast(p: Progress, symbol: Symbol, top: seq<Symbol>, t: Tenure, limit: int, r: seq<Symbol>)
    requires Distinct(p.result) && symbol in top
    requires var q := Turn(p, symbol, top, t, limit); LeavesLast(q.result, r, top, t) && forall x | x in r :: x in q.result || x in top
    ensures LeavesLast(p.result, r, top, t)
  {
    var q := Turn(p, symbol, top, t, limit);
    if q != p {
      var out := LastRemovable(p.result, top, t).value;
      LastIs(p.result, top, t);
      var m :| 0 <= m < |p.result| && p.result[m] == out && RemovableEnds(p.result, m, top, t);
      RemovedAt(p.result, m);
      assert q.result == p.result[..m] + p.result[m + 1..] + [symbol];
      hide Turn, LastRemovable, Removed;
      forall i, j | 0 <= i < j < |p.result| && p.result[i] !in r && Removable(p.result[j], top, t)
        ensures p.result[j] !in r
      {
        assert j <= m;
        assert i < m && q.result[i] == p.result[i];
        assert j < m ==> q.result[j] == p.result[j];
      }
    }
  }

  lemma {:induction false} ReplacedInOrder(p: Progress, preferred: seq<Symbol>, k: nat, t: Tenure, limit: int)
    requires Distinct(p.result) && Distinct(preferred) && k <= |preferred| && |p.result| <= 5
    requires Served(p, preferred, k, t, limit)
    ensures TakesBest(p.result, Replaced(p, preferred, k, t, limit).result, Top(preferred))
    ensures LeavesLast(p.result, Replaced(p, preferred, k, t, limit).result, Top(preferred), t)
    decreases |preferred| - k
  {
    if k < |preferred| {
      if k < 5 {
        ReplacedOneMore(p, preferred, k, t, limit);
      } else {
        LateTurn(p, preferred, k, t, limit);
        ReplacedInOrder(p, preferred, k + 1, t, limit);
      }
    }
  }

  lemma ReplacedOneMore(p: Progress, preferred: seq<Symbol>, k: nat, t: Tenure, limit: int)
    requires Distinct(p.result) && Distinct(preferred) && k < |preferred| && k < 5 && |p.result| <= 5
    requires Served(p, preferred, k, t, limit)
    ensures TakesBest(p.result, Replaced(p, preferred, k, t, limit).result, Top(preferred))
    ensures LeavesLast(p.result, Replaced(p, preferred, k, t, limit).result, Top(preferred), t)
    decreases |preferred| - k, 0
  {
    var top := Top(preferred);
    var q := Turn(p, preferred[k], top, t, limit);
    var r := Replaced(q, preferred, k + 1, t, limit);
    TurnDistinct(p, preferred[k], top, t, limit);
    EarlyTurn(p, preferred, k, t, limit);
    TopIn(preferred, k);
    ReplacedImproves(p, preferred, k, t, limit);
    ReplacedImproves(q, preferred, k + 1, t, limit);
    ReplacedInOrder(q, preferred, k + 1, t, limit);
    assert Replaced(p, preferred, k, t, limit) == r;
    assert forall x | x in r.result :: x in q.result || x in top;
    TurnLeavesLast(p, preferred[k], top, t, limit, r.result);
    TurnTakesBest(p, preferred, k, t, limit, r.result);
  }

  lemma TurnTakesBest(p: Progress, preferred: seq<Symbol>, k: nat, t: Tenure, limit: int, r: seq<Symbol>)
    requires Distinct(p.result) && Distinct(preferred) && k < |preferred| && k < 5
    requires Served(p, preferred, k, t, limit)
    requires var q := Turn(p, preferred[k], Top(preferred), t, limit); TakesBest(q.result, r, Top(preferred))
    requires forall x | x in p.result && x in Top(preferred) :: x in r
    ensures TakesBest(p.result, r, Top(preferred))
  {
    var top := Top(preferred);
    var q := Turn(p, preferred[k], top, t, limit);
    assert top[k] == preferred[k];
    forall i, j | 0 <= i < j < |top| && top[j] in r && top[j] !in p.result
      ensures top[i] in r
    {
      if top[j] in q.result {
        assert q != p && top[j] == top[k];
        assert j == k;
        assert top[i] in p.result;
      }
    }
  }

  /** What the loop did, counted: it stopped only where the limit, the removable or the missing symbols ended. */
  lemma ExchangeCount(s: Progress, e: Progress, eligible: seq<Symbol>, t: Tenure, limit: int)
    requires Distinct(s.result) && Distinct(e.result) && s.changes == 0 && e.changes <= limit
    requires Improves(s, e, Top(eligible), t) && Served(e, eligible, |eligible|, t, limit)
    ensures e.changes == Min(limit, Min(|RemovableOf(s.result, Top(eligible), t)|, |SetOf(Top(eligible)) - SetOf(s.result)|))
  {
    var top := Top(eligible);
    var gone, come := SetOf(s.result) - SetOf(e.result), SetOf(e.result) - SetOf(s.result);
    var removable, missing := RemovableOf(s.result, top, t), SetOf(top) - SetOf(s.result);
    assert gone <= removable && come <= missing;
    SubsetCard(gone, removable);
    SubsetCard(come, missing);
    if e.changes < limit {
      if forall x | x in e.result :: !Removable(x, top, t) {
        assert gone == removable;
      } else {
        assert come == missing;
      }
    }
  }

  /**
   A bucket of five is reconciled exactly so: it is filled up from the kept symbols, and then symbols are
   exchanged. It is refused exactly when fewer than five symbols are kept or eligible.
   */
  lemma BucketExactly(current: seq<Symbol>, preferred: seq<Symbol>, forbidden: set<Symbol>, inactive: set<Symbol>,
                      t: Tenure, limit: int)
    requires Distinct(current) && |current| == 5 && limit >= 0
    ensures var r := Reconciled(current, preferred, forbidden, inactive, t, limit);
            var kept := Outside(current, forbidden + inactive); var eligible := Eligible(preferred, forbidden);
            && (r.Ok? <==> |SetOf(kept) + SetOf(eligible)| >= 5)
            && (r.Ok? ==> IsBucket(kept, eligible, t, limit, r.value))
  {
    var kept, eligible := Outside(current, forbidden + inactive), Eligible(preferred, forbidden);
    RefusedExactly(current, preferred, forbidden, inactive, t, limit);
    if Reconciled(current, preferred, forbidden, inactive, t, limit).Ok? {
      FilledExactly(kept, eligible);
      hide Reconciled;
      LoopExchanges(current, preferred, forbidden, inactive, t, limit);
      hide FilledUpFrom, Exchanges, End, Eligible, Outside, Replaced, Filled, SetOf;
    }
  }

  lemma LoopExchanges(current: seq<Symbol>, preferred: seq<Symbol>, forbidden: set<Symbol>, inactive: set<Symbol>, t: Tenure, limit: int)
    requires Distinct(current) && |current| == 5 && limit >= 0
    ensures var eligible := Eligible(preferred, forbidden);
            Exchanges(Start(current, preferred, forbidden, inactive).result,
                      End(current, preferred, forbidden, inactive, t, limit).result, Top(eligible), t, limit)
  {
    var eligible := Eligible(preferred, forbidden);
    var s := Start(current, preferred, forbidden, inactive);
    var e := End(current, preferred, forbidden, inactive, t, limit);
    Loop(current, preferred, forbidden, inactive, t, limit);
    assert e == Replaced(s, eligible, 0, t, limit) && s.changes == 0;
    ReplacedInOrder(s, eligible, 0, t, limit);
    ExchangeCount(s, e, eligible, t, limit);
    hide Start, End, Replaced, Eligible, Served, TakesBest, LeavesLast, Top, Distinct, Outside;
    hide Filled;
  }

  /** Five symbols made of the kept and the eligible ones by filling up and exchanging. */
  ghost predicate IsBucket(kept: seq<Symbol>, eligible: seq<Symbol>, t: Tenure, limit: int, r: seq<Symbol>) {
    |r| == 5 && Exchanges(FilledUpFrom(kept, eligible), r, Top(eligible), t, limit)
  }

  // ---------------------------------------------------------------- nothing is left open

  /** Two choices of as many, each without passing over an earlier one, are the same. */
  lemma SameFirst(before: seq<Symbol>, a: seq<Symbol>, b: seq<Symbol>, top: seq<Symbol>)
    requires TakesBest(before, a, top) && TakesBest(before, b, top)
    requires SetOf(a) - SetOf(before) <= SetOf(top) && SetOf(b) - SetOf(before) <= SetOf(top)
    requires |SetOf(a) - SetOf(before)| == |SetOf(b) - SetOf(before)|
    ensures SetOf(a) - SetOf(before) == SetOf(b) - SetOf(before)
  {
    var x, y := SetOf(a) - SetOf(before), SetOf(b) - SetOf(before);
    if x <= y {
      SubsetCard(x, y);
    } else {
      var u :| u in x && u !in y;
      assert u in top;
      var i :| 0 <= i < |top| && top[i] == u;
      forall v | v in y
        ensures v in x
      {
        assert v in top;
        var j :| 0 <= j < |top| && top[j] == v;
      }
      SubsetCard(y, x);
    }
  }

  lemma SameLast(before: seq<Symbol>, a: seq<Symbol>, b: seq<Symbol>, top: seq<Symbol>, t: Tenure)
    requires LeavesLast(before, a, top, t) && LeavesLast(before, b, top, t)
    requires SetOf(before) - SetOf(a) <= RemovableOf(before, top, t) && SetOf(before) - SetOf(b) <= RemovableOf(before, top, t)
    requires |SetOf(before) - SetOf(a)| == |SetOf(before) - SetOf(b)|
    ensures SetOf(before) - SetOf(a) == SetOf(before) - SetOf(b)
  {
    hide Removable;
    var x, y := SetOf(before) - SetOf(a), SetOf(before) - SetOf(b);
    if x <= y {
      SubsetCard(x, y);
    } else {
      var u :| u in x && u !in y;
      assert u in RemovableOf(before, top, t);
      var i :| 0 <= i < |before| && before[i] == u;
      forall v | v in y
        ensures v in x
      {
        assert v in RemovableOf(before, top, t);
        var j :| 0 <= j < |before| && before[j] == v;
      }
      SubsetCard(y, x);
    }
  }

  lemma AsManyLeave(filled: seq<Symbol>, r: seq<Symbol>)
    requires Distinct(filled) && Distinct(r) && |r| == |filled|
    ensures |SetOf(filled) - SetOf(r)| == |SetOf(r) - SetOf(filled)|
  {
    DistinctCard(filled);
    DistinctCard(r);
    var (a, b) := (SetOf(filled), SetOf(r));
    assert a == (a - b) + a * b && b == (b - a) + a * b;
  }

  /** The description leaves no choice: a bucket's symbols are determined by what it was made from. */
  lemma BucketIsDetermined(kept: seq<Symbol>, eligible: seq<Symbol>, t: Tenure, limit: int, r: seq<Symbol>, q: seq<Symbol>)
    requires Distinct(kept) && Distinct(eligible) && IsBucket(kept, eligible, t, limit, r) && IsBucket(kept, eligible, t, limit, q)
    ensures SetOf(r) == SetOf(q)
  {
    hide Exchanges, Top, Outside, Distinct, ToFive;
    ToFiveDistinct(kept, Outside(eligible, SetOf(kept)));
    DeterminedFrom(FilledUpFrom(kept, eligible), Top(eligible), t, limit, r, q);
  }

  lemma DeterminedFrom(filled: seq<Symbol>, top: seq<Symbol>, t: Tenure, limit: int, r: seq<Symbol>, q: seq<Symbol>)
    requires Distinct(filled) && Exchanges(filled, r, top, t, limit) && Exchanges(filled, q, top, t, limit)
    ensures SetOf(r) == SetOf(q)
  {
    hide TakesBest, LeavesLast, RemovableOf, SetOf, Distinct;
    AsManyLeave(filled, r);
    AsManyLeave(filled, q);
    SameFirst(filled, r, q, top);
    SameLast(filled, r, q, top, t);
    SetsAgree(SetOf(filled), SetOf(r), SetOf(q));
  }

  lemma SetsAgree(f: set<Symbol>, a: set<Symbol>, b: set<Symbol>)
    requires a - f == b - f && f - a == f - b
    ensures a == b
  {
    forall x
      ensures x in a <==> x in b
    {
      assert x in a - f <==> x in b - f;
      assert x in f - a <==> x in f - b;
    }
  }
}
