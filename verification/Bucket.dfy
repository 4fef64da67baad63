/**
 `_reconcile_bucket` of src/ft_shadow_data_plane/central/selector.py: five candidates are kept, filled
 up and, within a limit, replaced by better ones.
 */
module Bucket {
  import opened Base

  type Symbol = string

  /** What a replacement depends on: since when symbols are members, when the change takes effect, the dwell. */
  datatype Tenure = Tenure(since: map<Symbol, int>, effectiveAt: int, dwell: int)

  /** `_dwell_complete`, with the default for a symbol that has no entry. */
  predicate DwellComplete(t: Tenure, s: Symbol, absent: int) {
    (if s in t.since then t.since[s] else absent) <= t.effectiveAt - t.dwell
  }

  predicate Distinct(s: seq<Symbol>) {
    forall i, j :: 0 <= i < j < |s| ==> s[i] != s[j]
  }

  function SetOf(s: seq<Symbol>): set<Symbol> {
    set x | x in s
  }

  /** The elements outside `out`, in order. */
  function Outside(s: seq<Symbol>, out: set<Symbol>): (r: seq<Symbol>)
    ensures forall x :: x in r <==> x in s && x !in out
    ensures Distinct(s) ==> Distinct(r)
    decreases |s|
  {
    if s == [] then []
    else
      var n := |s| - 1;
      var r := Outside(s[..n], out);
      assert s == s[..n] + [s[n]];
      if s[n] in out then r else r + [s[n]]
  }

  /** `dict.fromkeys`: every element at its first place. */
  function Deduplicated(s: seq<Symbol>): (r: seq<Symbol>)
    ensures Distinct(r) && forall x :: x in r <==> x in s
    decreases |s|
  {
    if s == [] then []
    else
      var n := |s| - 1;
      var r := Deduplicated(s[..n]);
      assert s == s[..n] + [s[n]];
      if s[n] in r then r else r + [s[n]]
  }

  /** `list.remove` of an element that occurs once. */
  function Removed(s: seq<Symbol>, x: Symbol): (r: seq<Symbol>)
    requires Distinct(s) && x in s
    ensures Distinct(r) && |r| == |s| - 1 && forall y :: y in r <==> y in s && y != x
    decreases |s|
  {
    var n := |s| - 1;
    assert s == s[..n] + [s[n]];
    assert s[n] !in s[..n];
    if s[n] == x then s[..n] else Removed(s[..n], x) + [s[n]]
  }

  /** The preferred symbols are taken in order until there are five. */
  function Filled(result: seq<Symbol>, preferred: seq<Symbol>): seq<Symbol>
    decreases |preferred|
  {
    if preferred == [] || |result| >= 5 then result
    else Filled(if preferred[0] in result then result else result + [preferred[0]], preferred[1..])
  }

  function Top(preferred: seq<Symbol>): seq<Symbol> {
    preferred[..Min(5, |preferred|)]
  }

  predicate Removable(s: Symbol, top: seq<Symbol>, t: Tenure) {
    s !in top && DwellComplete(t, s, t.effectiveAt)
  }

  /** The last removable element, if any. */
  function LastRemovable(result: seq<Symbol>, top: seq<Symbol>, t: Tenure): (r: Option<Symbol>)
    ensures r.Some? ==> r.value in result && Removable(r.value, top, t)
    ensures r.None? ==> forall x | x in result :: !Removable(x, top, t)
    decreases |result|
  {
    if result == [] then None
    else
      var n := |result| - 1;
      assert result == result[..n] + [result[n]];
      if Removable(result[n], top, t) then Some(result[n]) else LastRemovable(result[..n], top, t)
  }

  datatype Progress = Progress(result: seq<Symbol>, changes: nat)

  /** One turn of the replacement loop. */
  function Turn(p: Progress, symbol: Symbol, top: seq<Symbol>, t: Tenure, limit: int): Progress
    requires Distinct(p.result)
  {
    if symbol in p.result || p.changes >= limit then p
    else
      var incumbent := LastRemovable(p.result, top, t);
      if incumbent.None? then p
      else Progress(Removed(p.result, incumbent.value) + [symbol], p.changes + 1)
  }

  lemma TurnDistinct(p: Progress, symbol: Symbol, top: seq<Symbol>, t: Tenure, limit: int)
    requires Distinct(p.result)
    ensures Distinct(Turn(p, symbol, top, t, limit).result) && |Turn(p, symbol, top, t, limit).result| == |p.result|
  {
  }

  /** The replacement loop from the `k`-th preferred symbol on. */
  function Replaced(p: Progress, preferred: seq<Symbol>, k: nat, t: Tenure, limit: int): (r: Progress)
    requires Distinct(p.result) && k <= |preferred|
    ensures Distinct(r.result) && |r.result| == |p.result|
    decreases |preferred| - k
  {
    if k == |preferred| then p
    else
      TurnDistinct(p, preferred[k], Top(preferred), t, limit);
      Replaced(Turn(p, preferred[k], Top(preferred), t, limit), preferred, k + 1, t, limit)
  }

  function Eligible(preferred: seq<Symbol>, forbidden: set<Symbol>): (r: seq<Symbol>)
    ensures Distinct(r) && forall x :: x in r <==> x in preferred && x !in forbidden
  {
    Deduplicated(Outside(preferred, forbidden))
  }

  lemma {:induction false} FilledDistinct(result: seq<Symbol>, preferred: seq<Symbol>)
    requires Distinct(result)
    ensures Distinct(Filled(result, preferred))
    decreases |preferred|
  {
    if preferred != [] && |result| < 5 {
      FilledDistinct(if preferred[0] in result then result else result + [preferred[0]], preferred[1..]);
    }
  }

  datatype Error = TOO_FEW | LIMIT_EXCEEDED

  /** `_reconcile_bucket`; the result is sorted afterwards, which the model does not show. */
  function Reconciled(current: seq<Symbol>, preferred: seq<Symbol>, forbidden: set<Symbol>, inactive: set<Symbol>,
                      t: Tenure, limit: int): Result<seq<Symbol>, Error>
    requires Distinct(current)
  {
    var eligible := Eligible(preferred, forbidden);
    var kept := Outside(current, forbidden + inactive);
    FilledDistinct(kept, eligible);
    var last := Replaced(Progress(Filled(kept, eligible), 0), eligible, 0, t, limit).result;
    if |last| != 5 then Err(TOO_FEW)
    else if |kept| == 5 && |SetOf(current) - SetOf(last)| > limit then Err(LIMIT_EXCEEDED)
    else Ok(last)
  }

  // ---------------------------------------------------------------- filling up

  lemma {:induction false} DistinctCard(s: seq<Symbol>)
    requires Distinct(s)
    ensures |SetOf(s)| == |s|
    decreases |s|
  {
    if s != [] {
      var n := |s| - 1;
      DistinctCard(s[..n]);
      assert s == s[..n] + [s[n]];
      assert SetOf(s) == SetOf(s[..n]) + {s[n]};
    } else {
      assert SetOf(s) == {};
    }
  }

  /** What filling up adds is preferred, nothing is dropped, and it stops short of five only when all are taken. */
  lemma {:induction false} FilledUp(result: seq<Symbol>, preferred: seq<Symbol>)
    requires Distinct(result) && |result| <= 5
    ensures var r := Filled(result, preferred);
            && Distinct(r) && |result| <= |r| <= 5
            && (forall x | x in result :: x in r) && (forall x | x in r :: x in result || x in preferred)
            && (|r| < 5 ==> forall x | x in preferred :: x in r)
    decreases |preferred|
  {
    if preferred != [] && |result| < 5 {
      FilledUp(if preferred[0] in result then result else result + [preferred[0]], preferred[1..]);
    }
  }

  // ---------------------------------------------------------------- replacing

  /** Nothing more can be done for the first `k` of the preferred symbols. */
  ghost predicate Served(p: Progress, preferred: seq<Symbol>, k: nat, t: Tenure, limit: int) {
    || p.changes >= limit
    || (forall x | x in p.result :: !Removable(x, Top(preferred), t))
    || (forall j | 0 <= j < k && j < |Top(preferred)| :: Top(preferred)[j] in p.result)
  }

  lemma TopIn(preferred: seq<Symbol>, k: nat)
    requires Distinct(preferred) && k < |preferred|
    ensures preferred[k] in Top(preferred) <==> k < 5
  {
  }

  /** Beyond the first five no symbol comes in any more. */
  lemma LateTurn(p: Progress, preferred: seq<Symbol>, k: nat, t: Tenure, limit: int)
    requires Distinct(p.result) && Distinct(preferred) && 5 <= k < |preferred| && |p.result| <= 5
    requires Served(p, preferred, k, t, limit)
    ensures Turn(p, preferred[k], Top(preferred), t, limit) == p
  {
    var top := Top(preferred);
    var incumbent := LastRemovable(p.result, top, t);
    if p.changes < limit && preferred[k] !in p.result && incumbent.Some? {
      assert forall j | 0 <= j < 5 :: top[j] in p.result;
      AllTop(p.result, top, incumbent.value);
      assert false;
    }
  }

  lemma AllTop(result: seq<Symbol>, top: seq<Symbol>, x: Symbol)
    requires Distinct(result) && Distinct(top) && |result| <= 5 == |top| && x in result
    requires forall j | 0 <= j < 5 :: top[j] in result
    ensures x in top
  {
    DistinctCard(top);
    DistinctCard(result);
    assert SetOf(top) <= SetOf(result);
    SubsetCard(SetOf(top), SetOf(result));
    assert x in SetOf(result);
  }

  lemma EarlyTurn(p: Progress, preferred: seq<Symbol>, k: nat, t: Tenure, limit: int)
    requires Distinct(p.result) && Distinct(preferred) && k < |preferred| && k < 5
    requires Served(p, preferred, k, t, limit)
    ensures Served(Turn(p, preferred[k], Top(preferred), t, limit), preferred, k + 1, t, limit)
  {
    var top := Top(preferred);
    assert top[k] == preferred[k];
  }

  /** What the loop may have done between two states. */
  ghost predicate Improves(before: Progress, after: Progress, top: seq<Symbol>, t: Tenure) {
    && (forall x | x in after.result && x !in before.result :: x in top)
    && (forall x | x in before.result && x !in after.result :: Removable(x, top, t))
    && (forall x | x in before.result && x in top :: x in after.result)
    && before.changes <= after.changes
    && |SetOf(after.result) - SetOf(before.result)| == after.changes - before.changes
    && |SetOf(before.result) - SetOf(after.result)| == after.changes - before.changes
  }

  lemma TurnImproves(p: Progress, symbol: Symbol, top: seq<Symbol>, t: Tenure, limit: int)
    requires Distinct(p.result) && symbol in top
    ensures Improves(p, Turn(p, symbol, top, t, limit), top, t)
  {
    var q := Turn(p, symbol, top, t, limit);
    if q != p {
      var out := LastRemovable(p.result, top, t).value;
      assert SetOf(q.result) - SetOf(p.result) == {symbol};
      assert SetOf(p.result) - SetOf(q.result) == {out};
    } else {
      assert SetOf(q.result) - SetOf(p.result) == {};
    }
  }

  lemma ImprovesOn(a: Progress, b: Progress, c: Progress, top: seq<Symbol>, t: Tenure)
    requires Improves(a, b, top, t) && Improves(b, c, top, t)
    ensures Improves(a, c, top, t)
  {
    var (x, y, z) := (SetOf(a.result), SetOf(b.result), SetOf(c.result));
    assert z - x == (y - x) + (z - y) by {
      assert forall s | s in y - x :: s in top;
      assert forall s | s in z - y :: s in top;
      assert forall s | s in z - y && s in x :: s in top && s in y;
    }
    assert (y - x) * (z - y) == {};
    assert x - z == (x - y) + (y - z) by {
      assert forall s | s in y - z :: s !in top;
      assert forall s | s in y - x :: s in top;
    }
    assert (x - y) * (y - z) == {};
  }

  lemma {:induction false} ReplacedImproves(p: Progress, preferred: seq<Symbol>, k: nat, t: Tenure, limit: int)
    requires Distinct(p.result) && Distinct(preferred) && k <= |preferred| && |p.result| <= 5
    requires Served(p, preferred, k, t, limit)
    ensures var r := Replaced(p, preferred, k, t, limit);
            && Improves(p, r, Top(preferred), t) && Served(r, preferred, |preferred|, t, limit)
            && (p.changes <= limit ==> r.changes <= limit)
    decreases |preferred| - k
  {
    var top := Top(preferred);
    if k == |preferred| {
      assert SetOf(p.result) - SetOf(p.result) == {};
    } else {
      var q := Turn(p, preferred[k], top, t, limit);
      TurnDistinct(p, preferred[k], top, t, limit);
      if k < 5 {
        EarlyTurn(p, preferred, k, t, limit);
        TopIn(preferred, k);
        TurnImproves(p, preferred[k], top, t, limit);
        ReplacedImproves(q, preferred, k + 1, t, limit);
        ImprovesOn(p, q, Replaced(q, preferred, k + 1, t, limit), top, t);
      } else {
        LateTurn(p, preferred, k, t, limit);
        ReplacedImproves(p, preferred, k + 1, t, limit);
      }
    }
  }

  // ---------------------------------------------------------------- the outcome

  /** The state the replacement loop starts from. */
  function Start(current: seq<Symbol>, preferred: seq<Symbol>, forbidden: set<Symbol>, inactive: set<Symbol>): Progress {
    Progress(Filled(Outside(current, forbidden + inactive), Eligible(preferred, forbidden)), 0)
  }

  function End(current: seq<Symbol>, preferred: seq<Symbol>, forbidden: set<Symbol>, inactive: set<Symbol>,
               t: Tenure, limit: int): Progress
    requires Distinct(current)
  {
    var eligible := Eligible(preferred, forbidden);
    FilledDistinct(Outside(current, forbidden + inactive), eligible);
    Replaced(Start(current, preferred, forbidden, inactive), eligible, 0, t, limit)
  }

  lemma Loop(current: seq<Symbol>, preferred: seq<Symbol>, forbidden: set<Symbol>, inactive: set<Symbol>, t: Tenure, limit: int)
    requires Distinct(current) && |current| == 5 && limit >= 0
    ensures var eligible := Eligible(preferred, forbidden); var kept := Outside(current, forbidden + inactive);
            var s := Start(current, preferred, forbidden, inactive); var e := End(current, preferred, forbidden, inactive, t, limit);
            && |kept| <= |s.result| == |e.result| <= 5 && Distinct(s.result) && Distinct(e.result)
            && (forall x | x in kept :: x in s.result) && (forall x | x in s.result :: x in kept || x in eligible)
            && (|s.result| < 5 ==> forall x | x in eligible :: x in s.result)
            && Improves(s, e, Top(eligible), t) && Served(e, eligible, |eligible|, t, limit) && e.changes <= limit
  {
    var kept := Outside(current, forbidden + inactive);
    var eligible := Eligible(preferred, forbidden);
    DistinctCard(kept);
    DistinctCard(current);
    SubsetCard(SetOf(kept), SetOf(current));
    FilledUp(kept, eligible);
    ReplacedImproves(Start(current, preferred, forbidden, inactive), eligible, 0, t, limit);
    hide Improves, Served, Filled, Replaced, Eligible, Outside, SetOf, Top, Distinct;
  }

  lemma FilledCard(current: seq<Symbol>, preferred: seq<Symbol>, forbidden: set<Symbol>, inactive: set<Symbol>, t: Tenure, limit: int)
    requires Distinct(current) && |current| == 5 && limit >= 0
    ensures var available := SetOf(Outside(current, forbidden + inactive)) + SetOf(Eligible(preferred, forbidden));
            |End(current, preferred, forbidden, inactive, t, limit).result| < 5 <==> |available| < 5
  {
    Loop(current, preferred, forbidden, inactive, t, limit);
    var s := Start(current, preferred, forbidden, inactive);
    var available := SetOf(Outside(current, forbidden + inactive)) + SetOf(Eligible(preferred, forbidden));
    hide Outside, Eligible, Start, End, Improves, Served;
    DistinctCard(s.result);
    assert SetOf(s.result) <= available;
    SubsetCard(SetOf(s.result), available);
    if |s.result| < 5 {
      assert SetOf(s.result) == available;
    }
  }

  lemma GuardHolds(current: seq<Symbol>, preferred: seq<Symbol>, forbidden: set<Symbol>, inactive: set<Symbol>, t: Tenure, limit: int)
    requires Distinct(current) && |current| == 5 && limit >= 0
    requires |Outside(current, forbidden + inactive)| == 5
    ensures |SetOf(current) - SetOf(End(current, preferred, forbidden, inactive, t, limit).result)| <= limit
  {
    Loop(current, preferred, forbidden, inactive, t, limit);
    var kept := Outside(current, forbidden + inactive);
    var s := Start(current, preferred, forbidden, inactive);
    DistinctCard(kept);
    DistinctCard(current);
    DistinctCard(s.result);
    SubsetCard(SetOf(kept), SetOf(current));
    SubsetCard(SetOf(kept), SetOf(s.result));
    assert SetOf(s.result) == SetOf(current);
    hide Outside, Eligible, Start, End, Served, SetOf;
  }

  /**
   The final limit guard never fires: the bucket is refused exactly when fewer than five symbols are
   kept or eligible.
   */
  lemma RefusedExactly(current: seq<Symbol>, preferred: seq<Symbol>, forbidden: set<Symbol>, inactive: set<Symbol>,
                       t: Tenure, limit: int)
    requires Distinct(current) && |current| == 5 && limit >= 0
    ensures var r := Reconciled(current, preferred, forbidden, inactive, t, limit);
            var available := SetOf(Outside(current, forbidden + inactive)) + SetOf(Eligible(preferred, forbidden));
            && (r.Err? <==> |available| < 5) && (r.Err? ==> r.error == TOO_FEW)
            && (r.Ok? ==> r.value == End(current, preferred, forbidden, inactive, t, limit).result)
  {
    Loop(current, preferred, forbidden, inactive, t, limit);
    FilledCard(current, preferred, forbidden, inactive, t, limit);
    if |Outside(current, forbidden + inactive)| == 5 {
      GuardHolds(current, preferred, forbidden, inactive, t, limit);
    }
    hide Outside, Eligible, Improves, Served, SetOf, Filled, Replaced;
  }

  /**
   A reconciled bucket: five distinct symbols, none forbidden, each an incumbent that is still active
   or a preferred one. An incumbent that leaves is forbidden, inactive, or outside the top five with its
   dwell complete. Every replacement raises the overlap with the top five by one, and replacing stops
   only at the limit, for want of a removable incumbent, or when the top five are all in.
   */
  lemma ReconciledIsBetter(current: seq<Symbol>, preferred: seq<Symbol>, forbidden: set<Symbol>, inactive: set<Symbol>,
                           t: Tenure, limit: int)
    requires Distinct(current) && |current| == 5 && limit >= 0
    requires Reconciled(current, preferred, forbidden, inactive, t, limit).Ok?
    ensures var r := Reconciled(current, preferred, forbidden, inactive, t, limit).value;
            var top := Top(Eligible(preferred, forbidden)); var s := Start(current, preferred, forbidden, inactive);
            && Distinct(r) && |r| == 5
            && (forall x | x in r :: x !in forbidden && ((x in current && x !in inactive) || x in preferred))
            && (forall x | x in current && x !in r :: x in forbidden || x in inactive || Removable(x, top, t))
            && |SetOf(r) - SetOf(s.result)| <= limit
            && |SetOf(r) * SetOf(top)| == |SetOf(s.result) * SetOf(top)| + |SetOf(r) - SetOf(s.result)|
            && (|SetOf(r) - SetOf(s.result)| >= limit || (forall x | x in r :: !Removable(x, top, t)) || SetOf(top) <= SetOf(r))
  {
    RefusedExactly(current, preferred, forbidden, inactive, t, limit);
    Loop(current, preferred, forbidden, inactive, t, limit);
    var eligible := Eligible(preferred, forbidden);
    var top := Top(eligible);
    var s := Start(current, preferred, forbidden, inactive);
    var e := End(current, preferred, forbidden, inactive, t, limit);
    assert SetOf(e.result) * SetOf(top) == SetOf(s.result) * SetOf(top) + (SetOf(e.result) - SetOf(s.result));
    assert (SetOf(s.result) * SetOf(top)) * (SetOf(e.result) - SetOf(s.result)) == {};
  }
}
