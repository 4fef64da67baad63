/**
 `select_rolling_universe` of src/ft_shadow_data_plane/central/selector.py, from ranked and already gated
 pools: 50 core, 5 boundary and 5 probe symbols are carried over into the next decision.
 */
module Selector {
  import opened Base
  import opened Bucket

  const UNRANKED := 1_000_000_000

  datatype Decision = Decision(core: seq<Symbol>, boundary: seq<Symbol>, probe: seq<Symbol>, effectiveAt: int)

  datatype Policy = Policy(
    coreEntryRank: int, coreRetainRank: int, coreWeeklyReplacements: int, coreDwell: int,
    candidateDwell: int, candidateDailyReplacements: int, boundaryRetainRank: int)

  /** The ranked pools, and the members that are no longer eligible. */
  datatype Market = Market(stable: seq<Symbol>, probes: seq<Symbol>, inactive: set<Symbol>)

  /** When the next decision takes effect, and since when symbols are members or in the core. */
  datatype Timing = Timing(effectiveAt: int, monday: bool, memberSince: map<Symbol, int>, coreSince: map<Symbol, int>)

  datatype Selection = Selection(core: seq<Symbol>, boundary: seq<Symbol>, probe: seq<Symbol>, failedClosed: bool)

  datatype Failure = NO_CORE_REPLACEMENT | BUCKET(error: Error)

  /** The model validator of a decision: 50, 5 and 5 symbols, 60 distinct ones. */
  predicate Valid(d: Decision) {
    && |d.core| == 50 && |d.boundary| == 5 && |d.probe| == 5
    && Distinct(d.core) && Distinct(d.boundary) && Distinct(d.probe) && Distinct(d.core + d.boundary + d.probe)
  }

  /** Pools rank a symbol once, and only eligible symbols are ranked. */
  predicate WellRanked(m: Market) {
    && Distinct(m.stable) && Distinct(m.probes)
    && (forall x | x in m.stable :: x !in m.inactive) && (forall x | x in m.probes :: x !in m.inactive)
  }

  function IndexOf(s: seq<Symbol>, x: Symbol): (i: nat)
    requires x in s
    ensures i < |s| && s[i] == x && forall j | 0 <= j < i :: s[j] != x
  {
    if s[0] == x then 0 else 1 + IndexOf(s[1..], x)
  }

  function Rank(ranking: seq<Symbol>, x: Symbol): int {
    if x in ranking then IndexOf(ranking, x) + 1 else UNRANKED
  }

  // ---------------------------------------------------------------- the core

  /** `_take_first` */
  function FirstFree(pool: seq<Symbol>, taken: set<Symbol>): (r: Option<Symbol>)
    ensures r.Some? ==> r.value in pool && r.value !in taken
    ensures r.None? ==> forall x | x in pool :: x in taken
  {
    if pool == [] then None else if pool[0] !in taken then Some(pool[0]) else FirstFree(pool[1..], taken)
  }

  /** Inactive core symbols give way to the best stable symbols outside the core. */
  function CoreReplaced(core: seq<Symbol>, i: nat, inactive: set<Symbol>, pool: seq<Symbol>): Option<seq<Symbol>>
    requires i <= |core|
    decreases |core| - i
  {
    if i == |core| then Some(core)
    else if core[i] !in inactive then CoreReplaced(core, i + 1, inactive, pool)
    else
      var replacement := FirstFree(pool, SetOf(core));
      if replacement.None? then None else CoreReplaced(core[i := replacement.value], i + 1, inactive, pool)
  }

  /** What Monday's promotions depend on. */
  datatype Weekly = Weekly(stable: seq<Symbol>, policy: Policy, tenure: Tenure, absent: int)

  /** A core symbol ranked too low, with its core dwell complete. */
  predicate CoreRemovable(w: Weekly, x: Symbol) {
    Rank(w.stable, x) > w.policy.coreRetainRank && DwellComplete(w.tenure, x, w.absent)
  }

  /** `max(removable, key=rank)`: the first of the worst-ranked removable symbols among the first `n`. */
  function Worst(core: seq<Symbol>, n: nat, w: Weekly): (r: Option<nat>)
    requires n <= |core|
    ensures r.Some? ==> r.value < n && CoreRemovable(w, core[r.value]) &&
                        forall j | 0 <= j < n :: CoreRemovable(w, core[j]) ==> Rank(w.stable, core[j]) <= Rank(w.stable, core[r.value])
    ensures r.None? ==> forall j | 0 <= j < n :: !CoreRemovable(w, core[j])
  {
    if n == 0 then None
    else
      var before := Worst(core, n - 1, w);
      var x := core[n - 1];
      if CoreRemovable(w, x) && (before.None? || Rank(w.stable, x) > Rank(w.stable, core[before.value])) then Some(n - 1)
      else before
  }

  function Promoted(core: seq<Symbol>, promotable: seq<Symbol>, changes: int, w: Weekly): seq<Symbol>
    decreases |promotable|
  {
    if promotable == [] || changes >= w.policy.coreWeeklyReplacements then core
    else
      var worst := Worst(core, |core|, w);
      if worst.None? || Rank(w.stable, promotable[0]) >= Rank(w.stable, core[worst.value]) then core
      else Promoted(core[worst.value := promotable[0]], promotable[1..], changes + 1, w)
  }

  /** The pool's symbols outside the core that are ranked high enough to enter it. */
  function Promotable(pool: seq<Symbol>, core: seq<Symbol>, w: Weekly): (r: seq<Symbol>)
    ensures forall x | x in r :: x in pool && x !in core && Rank(w.stable, x) <= w.policy.coreEntryRank
    ensures Distinct(pool) ==> Distinct(r)
    decreases |pool|
  {
    if pool == [] then []
    else
      var n := |pool| - 1;
      var r := Promotable(pool[..n], core, w);
      assert pool == pool[..n] + [pool[n]];
      if pool[n] !in core && Rank(w.stable, pool[n]) <= w.policy.coreEntryRank then r + [pool[n]] else r
  }

  /** The next core, if every inactive core symbol can be replaced. */
  function NextCore(active: Decision, m: Market, timing: Timing, policy: Policy): Option<seq<Symbol>> {
    var pool := Outside(m.stable, SetOf(active.core));
    var replaced := CoreReplaced(active.core, 0, m.inactive, pool);
    if replaced.None? || !timing.monday then replaced
    else
      var core := replaced.value;
      var w := WeeklyOf(active, m, timing, policy);
      Some(Promoted(core, Promotable(pool, core, w), |SetOf(active.core) - SetOf(core)|, w))
  }

  function WeeklyOf(active: Decision, m: Market, timing: Timing, policy: Policy): Weekly {
    Weekly(m.stable, policy, Tenure(timing.coreSince, timing.effectiveAt, policy.coreDwell), active.effectiveAt)
  }

  // ---------------------------------------------------------------- the selection

  function Candidates(timing: Timing, policy: Policy): Tenure {
    Tenure(timing.memberSince, timing.effectiveAt, policy.candidateDwell)
  }

  /** The still eligible boundary symbols that rank among the first outside core and probe, by that rank. */
  function Protected(active: seq<Symbol>, ranked: seq<Symbol>, m: Market, taken: set<Symbol>, limit: int): seq<Symbol>
    decreases |ranked|
  {
    // in rank order, as sorting by rank gives them
    if ranked == [] then []
    else
      var n := |ranked| - 1;
      var x := ranked[n];
      Protected(active, ranked[..n], m, taken, limit) +
      if x in active && x !in m.inactive && x !in taken && n + 1 <= limit then [x] else []
  }

  function FailClosed(active: Decision): Selection {
    Selection(active.core, active.boundary, active.probe, true)
  }

  /** The next probe bucket, given the next core. */
  function NextProbe(active: Decision, m: Market, timing: Timing, policy: Policy, core: seq<Symbol>): Result<seq<Symbol>, Error>
    requires Distinct(active.probe)
  {
    Reconciled(active.probe, Outside(m.probes, SetOf(core)), SetOf(core), m.inactive, Candidates(timing, policy), 1)
  }

  /** The next boundary bucket, given the symbols already taken. */
  function NextBoundary(active: Decision, m: Market, timing: Timing, policy: Policy, taken: set<Symbol>): Result<seq<Symbol>, Error>
    requires Distinct(active.boundary)
  {
    var ranked := Outside(m.stable, taken);
    Reconciled(active.boundary, Protected(active.boundary, ranked, m, taken, policy.boundaryRetainRank) + ranked,
               taken, m.inactive, Candidates(timing, policy), Max(1, policy.candidateDailyReplacements - 1))
  }

  /** `select_rolling_universe`; roles are sorted afterwards, which the model does not show. */
  function Selected(active: Decision, m: Market, timing: Timing, policy: Policy): Result<Selection, Failure>
    requires Distinct(active.boundary) && Distinct(active.probe)
  {
    if |m.probes| < 5 then Ok(FailClosed(active))
    else
      var next := NextCore(active, m, timing, policy);
      if next.None? then Err(NO_CORE_REPLACEMENT)
      else
        var core := next.value;
        if |Outside(m.probes, SetOf(core))| < 5 then Ok(FailClosed(active))
        else
          var probe := NextProbe(active, m, timing, policy, core);
          if probe.Err? then Err(BUCKET(probe.error))
          else if |Outside(m.stable, SetOf(probe.value))| < 55 then Ok(FailClosed(active))
          else
            var boundary := NextBoundary(active, m, timing, policy, SetOf(core) + SetOf(probe.value));
            if boundary.Err? then Err(BUCKET(boundary.error))
            else Ok(Selection(core, boundary.value, probe.value, false))
  }

  // ---------------------------------------------------------------- the core, proved

  lemma {:induction false} CoreReplacedOk(core: seq<Symbol>, i: nat, inactive: set<Symbol>, pool: seq<Symbol>)
    requires i <= |core| && Distinct(core)
    requires (forall x | x in pool :: x !in inactive) && (forall j | 0 <= j < i :: core[j] !in inactive)
    ensures var r := CoreReplaced(core, i, inactive, pool);
            r.Some? ==> && |r.value| == |core| && Distinct(r.value)
                        && (forall x | x in r.value :: x !in inactive && (x in core || x in pool))
                        && (forall x | x in core && x !in inactive :: x in r.value)
    decreases |core| - i
  {
    if i < |core| {
      if core[i] !in inactive {
        CoreReplacedOk(core, i + 1, inactive, pool);
      } else {
        var replacement := FirstFree(pool, SetOf(core));
        if replacement.Some? {
          var next := core[i := replacement.value];
          assert Distinct(next);
          CoreReplacedOk(next, i + 1, inactive, pool);
          forall x | x in core && x !in inactive
            ensures x in next
          {
            var j :| 0 <= j < |core| && core[j] == x;
            assert next[j] == x;
          }
        }
      }
    }
  }

  /** What promotions may have done to a core. */
  ghost predicate Promotes(core: seq<Symbol>, r: seq<Symbol>, promotable: seq<Symbol>, w: Weekly) {
    && |r| == |core| && Distinct(r)
    && (forall x | x in r :: x in core || x in promotable)
    && (forall x | x in core && x !in r :: CoreRemovable(w, x))
  }

  lemma PromoteOne(core: seq<Symbol>, promotable: seq<Symbol>, k: nat, w: Weekly)
    requires Distinct(core) && promotable != [] && promotable[0] !in core && k < |core|
    requires Distinct(promotable) && forall x | x in promotable :: x !in core
    ensures var next := core[k := promotable[0]];
            && Distinct(next) && (forall x | x in promotable[1..] :: x !in next)
            && (forall x | x in core && x != core[k] :: x in next) && (forall x | x in next :: x in core || x == promotable[0])
  {
    var next := core[k := promotable[0]];
    forall x | x in core && x != core[k]
      ensures x in next
    {
      var j :| 0 <= j < |core| && core[j] == x;
      assert next[j] == x;
    }
    forall x | x in promotable[1..]
      ensures x !in next
    {
      var j :| 0 <= j < |promotable| - 1 && promotable[1..][j] == x;
      assert promotable[j + 1] == x && promotable[0] != x;
      assert x in promotable;
      assert forall y | y in next :: y in core || y == promotable[0];
    }
  }

  lemma {:induction false} PromotedOk(core: seq<Symbol>, promotable: seq<Symbol>, changes: int, w: Weekly)
    requires Distinct(core) && Distinct(promotable)
    requires forall x | x in promotable :: x !in core && Rank(w.stable, x) <= w.policy.coreEntryRank
    ensures Promotes(core, Promoted(core, promotable, changes, w), promotable, w)
    ensures |SetOf(core) - SetOf(Promoted(core, promotable, changes, w))| <= Max(0, w.policy.coreWeeklyReplacements - changes)
    decreases |promotable|
  {
    hide Rank, Worst;
    assert SetOf(core) - SetOf(core) == {};
    if promotable != [] && changes < w.policy.coreWeeklyReplacements {
      var worst := Worst(core, |core|, w);
      if worst.Some? && Rank(w.stable, promotable[0]) < Rank(w.stable, core[worst.value]) {
        var k := worst.value;
        var next := core[k := promotable[0]];
        PromoteOne(core, promotable, k, w);
        assert forall x | x in promotable[1..] :: x in promotable;
        PromotedOk(next, promotable[1..], changes + 1, w);
        var r := Promoted(next, promotable[1..], changes + 1, w);
        assert forall x | x in core && x !in r :: x == core[k] || x in next;
        CountOne(SetOf(core), SetOf(next), SetOf(r), core[k]);
      }
    }
  }

  lemma CountOne(a: set<Symbol>, b: set<Symbol>, c: set<Symbol>, x: Symbol)
    requires a - b <= {x}
    ensures |a - c| <= |b - c| + 1
  {
    assert a - c <= (b - c) + {x};
    SubsetCard(a - c, (b - c) + {x});
    assert |(b - c) + {x}| <= |b - c| + 1;
  }

  /** The next core: as large, distinct, all eligible; an eligible symbol leaves it only on a Monday, removable. */
  lemma NextCoreOk(active: Decision, m: Market, timing: Timing, policy: Policy)
    requires Valid(active) && WellRanked(m) && NextCore(active, m, timing, policy).Some?
    ensures var core := NextCore(active, m, timing, policy).value;
            && |core| == 50 && Distinct(core)
            && (forall x | x in core :: x !in m.inactive && (x in active.core || x in m.stable))
            && (forall x | x in active.core && x !in m.inactive && x !in core ::
                 timing.monday && CoreRemovable(WeeklyOf(active, m, timing, policy), x))
            && |SetOf(active.core) - SetOf(core)| <= Max(|SetOf(active.core) * m.inactive|, policy.coreWeeklyReplacements)
  {
    hide Rank, Promoted, CoreReplaced;
    var pool := Outside(m.stable, SetOf(active.core));
    CoreReplacedOk(active.core, 0, m.inactive, pool);
    var core := CoreReplaced(active.core, 0, m.inactive, pool).value;
    assert SetOf(active.core) - SetOf(core) <= SetOf(active.core) * m.inactive;
    SubsetCard(SetOf(active.core) - SetOf(core), SetOf(active.core) * m.inactive);
    if timing.monday {
      var w := WeeklyOf(active, m, timing, policy);
      var changes := |SetOf(active.core) - SetOf(core)|;
      PromotedOk(core, Promotable(pool, core, w), changes, w);
      var r := Promoted(core, Promotable(pool, core, w), changes, w);
      LeaveTwice(SetOf(active.core), SetOf(core), SetOf(r));
    }
  }

  lemma LeaveTwice(a: set<Symbol>, b: set<Symbol>, c: set<Symbol>)
    ensures |a - c| <= |a - b| + |b - c|
  {
    SubsetCard(a - c, (a - b) + (b - c));
    assert |(a - b) + (b - c)| <= |a - b| + |b - c|;
  }

  // ---------------------------------------------------------------- the selection, proved

  predicate Member(d: Decision, x: Symbol) {
    x in d.core || x in d.boundary || x in d.probe
  }

  predicate Chosen(s: Selection, x: Symbol) {
    x in s.core || x in s.boundary || x in s.probe
  }

  predicate WellFormed(s: Selection) {
    |s.core| == 50 && |s.boundary| == 5 && |s.probe| == 5 && Distinct(s.core + s.boundary + s.probe)
  }

  lemma JoinTwo(a: seq<Symbol>, b: seq<Symbol>)
    requires Distinct(a) && Distinct(b) && forall x | x in b :: x !in a
    ensures Distinct(a + b)
  {
    forall i, j | 0 <= i < j < |a + b|
      ensures (a + b)[i] != (a + b)[j]
    {
      if i < |a| <= j {
        assert b[j - |a|] in b;
      }
    }
  }

  lemma JoinDistinct(a: seq<Symbol>, b: seq<Symbol>, c: seq<Symbol>)
    requires Distinct(a) && Distinct(b) && Distinct(c)
    requires (forall x | x in b :: x !in a) && (forall x | x in c :: x !in a && x !in b)
    ensures Distinct(a + b + c)
  {
    JoinTwo(a, b);
    JoinTwo(a + b, c);
  }

  lemma ProtectedIn(active: seq<Symbol>, ranked: seq<Symbol>, m: Market, taken: set<Symbol>, limit: int)
    ensures forall x | x in Protected(active, ranked, m, taken, limit) :: x in ranked
    decreases |ranked|
  {
    if ranked != [] {
      ProtectedIn(active, ranked[..|ranked| - 1], m, taken, limit);
    }
  }

  /** The candidate dwell that lets a member go. */
  predicate CandidateRemovable(timing: Timing, policy: Policy, x: Symbol) {
    DwellComplete(Candidates(timing, policy), x, timing.effectiveAt)
  }

  /** A candidate role after reconciliation. */
  predicate RoleOk(before: seq<Symbol>, after: seq<Symbol>, taken: set<Symbol>, m: Market, timing: Timing, policy: Policy) {
    && Distinct(after) && |after| == 5 && (forall x | x in after :: x !in taken && x !in m.inactive)
    && (forall x | x in before && x !in after :: x in taken || x in m.inactive || CandidateRemovable(timing, policy, x))
  }

  lemma ProbeOk(active: Decision, m: Market, timing: Timing, policy: Policy, core: seq<Symbol>)
    requires Valid(active) && WellRanked(m) && NextProbe(active, m, timing, policy, core).Ok?
    ensures RoleOk(active.probe, NextProbe(active, m, timing, policy, core).value, SetOf(core), m, timing, policy)
  {
    ReconciledIsBetter(active.probe, Outside(m.probes, SetOf(core)), SetOf(core), m.inactive, Candidates(timing, policy), 1);
    hide Reconciled, Top, Eligible, Start;
  }

  lemma BoundaryOk(active: Decision, m: Market, timing: Timing, policy: Policy, taken: set<Symbol>)
    requires Valid(active) && WellRanked(m) && NextBoundary(active, m, timing, policy, taken).Ok?
    ensures RoleOk(active.boundary, NextBoundary(active, m, timing, policy, taken).value, taken, m, timing, policy)
  {
    var ranked := Outside(m.stable, taken);
    ProtectedIn(active.boundary, ranked, m, taken, policy.boundaryRetainRank);
    var preferred := Protected(active.boundary, ranked, m, taken, policy.boundaryRetainRank) + ranked;
    ReconciledIsBetter(active.boundary, preferred, taken, m.inactive, Candidates(timing, policy), Max(1, policy.candidateDailyReplacements - 1));
    hide Reconciled, Top, Eligible, Start, Protected;
  }

  /** What a selection that did not fail closed is made of. */
  lemma SelectedParts(active: Decision, m: Market, timing: Timing, policy: Policy)
    requires Distinct(active.boundary) && Distinct(active.probe)
    requires Selected(active, m, timing, policy).Ok? && !Selected(active, m, timing, policy).value.failedClosed
    ensures var s := Selected(active, m, timing, policy).value;
            && NextCore(active, m, timing, policy) == Some(s.core) && NextProbe(active, m, timing, policy, s.core) == Ok(s.probe)
            && NextBoundary(active, m, timing, policy, SetOf(s.core) + SetOf(s.probe)) == Ok(s.boundary)
  {
    hide NextCore, NextProbe, NextBoundary;
  }

  /** A core after inactive symbols were replaced and, on a Monday, better ones promoted. */
  predicate CoreOk(active: Decision, core: seq<Symbol>, m: Market, timing: Timing, policy: Policy) {
    && |core| == 50 && Distinct(core) && (forall x | x in core :: x !in m.inactive)
    && (forall x | x in active.core && x !in m.inactive && x !in core ::
         timing.monday && CoreRemovable(WeeklyOf(active, m, timing, policy), x))
  }

  /** Since when `x` is in, or the default for a symbol without an entry. */
  function Since(since: map<Symbol, int>, x: Symbol, absent: int): int {
    if x in since then since[x] else absent
  }

  /** What lets symbols go: in the core a rank below the retain rank and its dwell, elsewhere the dwell. */
  lemma RemovableExactly(active: Decision, m: Market, timing: Timing, policy: Policy, top: seq<Symbol>, x: Symbol)
    ensures CoreRemovable(WeeklyOf(active, m, timing, policy), x) <==>
              && Rank(m.stable, x) > policy.coreRetainRank
              && Since(timing.coreSince, x, active.effectiveAt) + policy.coreDwell <= timing.effectiveAt
    ensures Removable(x, top, Candidates(timing, policy)) <==>
              x !in top && Since(timing.memberSince, x, timing.effectiveAt) + policy.candidateDwell <= timing.effectiveAt
    ensures CandidateRemovable(timing, policy, x) <==>
              Since(timing.memberSince, x, timing.effectiveAt) + policy.candidateDwell <= timing.effectiveAt
  {
    hide Rank;
  }

  /** An eligible member that is not chosen had its dwell complete. */
  predicate MayLeave(active: Decision, m: Market, timing: Timing, policy: Policy, x: Symbol) {
    || (&& x in active.core && timing.monday && Rank(m.stable, x) > policy.coreRetainRank
        && Since(timing.coreSince, x, active.effectiveAt) + policy.coreDwell <= timing.effectiveAt)
    || (x !in active.core && Since(timing.memberSince, x, timing.effectiveAt) + policy.candidateDwell <= timing.effectiveAt)
  }

  lemma PartsAreSafe(active: Decision, m: Market, timing: Timing, policy: Policy, s: Selection)
    requires CoreOk(active, s.core, m, timing, policy) && RoleOk(active.probe, s.probe, SetOf(s.core), m, timing, policy)
    requires RoleOk(active.boundary, s.boundary, SetOf(s.core) + SetOf(s.probe), m, timing, policy)
    ensures WellFormed(s) && (forall x | Chosen(s, x) :: x !in m.inactive)
    ensures forall x | Member(active, x) && x !in m.inactive && !Chosen(s, x) :: MayLeave(active, m, timing, policy, x)
  {
    hide CoreRemovable, CandidateRemovable, WeeklyOf, Rank, Since;
    JoinDistinct(s.core, s.boundary, s.probe);
    hide Distinct;
    forall x | Member(active, x) && x !in m.inactive && !Chosen(s, x)
      ensures MayLeave(active, m, timing, policy, x)
    {
      RemovableExactly(active, m, timing, policy, [], x);
    }
  }

  /**
   From a valid decision, whatever is selected is again 50, 5 and 5 symbols, 60 distinct ones. Unless it
   failed closed to the active roles, none is inactive, and every eligible symbol that left the 60 had its
   dwell complete: in the core, on a Monday and ranked below the retain rank, or as a candidate. The core
   changes by no more than the weekly limit or the number of its inactive symbols.
   */
  lemma SelectionIsSafe(active: Decision, m: Market, timing: Timing, policy: Policy)
    requires Valid(active) && WellRanked(m) && Selected(active, m, timing, policy).Ok?
    ensures var s := Selected(active, m, timing, policy).value;
            && WellFormed(s)
            && (s.failedClosed ==> s == FailClosed(active))
            && (!s.failedClosed ==>
                 && (forall x | Chosen(s, x) :: x !in m.inactive)
                 && (forall x | Member(active, x) && x !in m.inactive && !Chosen(s, x) :: MayLeave(active, m, timing, policy, x))
                 && |SetOf(active.core) - SetOf(s.core)| <= Max(|SetOf(active.core) * m.inactive|, policy.coreWeeklyReplacements))
  {
    var s := Selected(active, m, timing, policy).value;
    if s.failedClosed {
      FailedIsActive(active, m, timing, policy);
    } else {
      SelectedParts(active, m, timing, policy);
      NextCoreOk(active, m, timing, policy);
      assert CoreOk(active, s.core, m, timing, policy);
      ProbeOk(active, m, timing, policy, s.core);
      BoundaryOk(active, m, timing, policy, SetOf(s.core) + SetOf(s.probe));
      hide Selected, NextCore, NextProbe, NextBoundary, WellRanked, Valid, CoreOk, RoleOk;
      PartsAreSafe(active, m, timing, policy, s);
      hide MayLeave, WellFormed, Chosen, Member;
    }
  }

  lemma FailedIsActive(active: Decision, m: Market, timing: Timing, policy: Policy)
    requires Valid(active) && Selected(active, m, timing, policy).Ok? && Selected(active, m, timing, policy).value.failedClosed
    ensures Selected(active, m, timing, policy).value == FailClosed(active) && WellFormed(FailClosed(active))
  {
    hide NextCore, NextProbe, NextBoundary;
  }

  // ---------------------------------------------------------------- boundary symbols that are protected

  lemma {:induction false} OutsideAll(p: seq<Symbol>, taken: set<Symbol>)
    requires forall x | x in p :: x !in taken
    ensures Outside(p, taken) == p
    decreases |p|
  {
    hide Distinct;
    if p != [] {
      var n := |p| - 1;
      assert p[n] in p;
      assert forall x | x in p[..n] :: x in p;
      OutsideAll(p[..n], taken);
      assert p == p[..n] + [p[n]];
    }
  }

  lemma {:induction false} OutsideConcat(p: seq<Symbol>, q: seq<Symbol>, taken: set<Symbol>)
    ensures Outside(p + q, taken) == Outside(p, taken) + Outside(q, taken)
    decreases |q|
  {
    if q == [] {
      assert p + q == p;
    } else {
      OutsideConcat(p, q[..|q| - 1], taken);
      assert (p + q)[..|p + q| - 1] == p + q[..|q| - 1];
      assert (p + q)[|p + q| - 1] == q[|q| - 1];
    }
  }

  lemma {:induction false} DeduplicatedPrefix(p: seq<Symbol>, q: seq<Symbol>)
    requires Distinct(p)
    ensures |p| <= |Deduplicated(p + q)| && Deduplicated(p + q)[..|p|] == p
    decreases |p| + |q|
  {
    if q == [] {
      assert p + q == p;
      if p != [] {
        var n := |p| - 1;
        DeduplicatedPrefix(p[..n], []);
        assert p[..n] + [] == p[..n];
        SameLength(p[..n]);
        assert p == p[..n] + [p[n]];
      }
    } else {
      DeduplicatedPrefix(p, q[..|q| - 1]);
      assert (p + q)[..|p + q| - 1] == p + q[..|q| - 1];
    }
  }

  lemma SameLength(p: seq<Symbol>)
    requires Distinct(p)
    ensures |Deduplicated(p)| == |p|
  {
    DistinctCard(p);
    DistinctCard(Deduplicated(p));
    assert SetOf(p) == SetOf(Deduplicated(p));
  }

  lemma {:induction false} ProtectedOk(active: seq<Symbol>, ranked: seq<Symbol>, m: Market, taken: set<Symbol>, limit: int)
    requires Distinct(ranked)
    ensures var p := Protected(active, ranked, m, taken, limit);
            Distinct(p) && forall x :: x in p <==> x in ranked && x in active && x !in m.inactive && x !in taken && Rank(ranked, x) <= limit
    decreases |ranked|
  {
    if ranked != [] {
      var n := |ranked| - 1;
      ProtectedOk(active, ranked[..n], m, taken, limit);
      assert ranked == ranked[..n] + [ranked[n]];
      assert ranked[n] !in ranked[..n];
      forall x | x in ranked
        ensures Rank(ranked, x) == if x == ranked[n] then n + 1 else Rank(ranked[..n], x)
      {
        RankIs(ranked, x);
        if x != ranked[n] {
          RankIs(ranked[..n], x);
        }
      }
      hide Rank;
    }
  }

  lemma RankIs(ranking: seq<Symbol>, x: Symbol)
    requires x in ranking
    ensures var i := Rank(ranking, x) - 1; 0 <= i < |ranking| && ranking[i] == x && forall j | 0 <= j < i :: ranking[j] != x
  {
  }

  /** Preferred symbols that come first, at most five of them, are the head of the top five. */
  lemma FirstAreTop(p: seq<Symbol>, q: seq<Symbol>, taken: set<Symbol>, x: Symbol)
    requires Distinct(p) && |p| <= 5 && x in p && forall y | y in p :: y !in taken
    ensures x in Top(Eligible(p + q, taken))
  {
    hide Distinct, Outside, Deduplicated;
    OutsideConcat(p, q, taken);
    OutsideAll(p, taken);
    DeduplicatedPrefix(p, Outside(q, taken));
    var eligible := Eligible(p + q, taken);
    assert eligible[..|p|] == p;
    hide Eligible;
    var i :| 0 <= i < |p| && p[i] == x;
    assert eligible[i] == eligible[..|p|][i];
    assert Top(eligible)[i] == eligible[i];
  }

  lemma ProtectedIsTop(active: seq<Symbol>, ranked: seq<Symbol>, m: Market, taken: set<Symbol>, limit: int, x: Symbol)
    requires Distinct(active) && |active| == 5 && Distinct(ranked) && x in ranked && x in active
    requires x !in m.inactive && x !in taken && Rank(ranked, x) <= limit
    ensures x in Top(Eligible(Protected(active, ranked, m, taken, limit) + ranked, taken))
  {
    ProtectedOk(active, ranked, m, taken, limit);
    var p := Protected(active, ranked, m, taken, limit);
    hide Protected, Rank;
    DistinctCard(p);
    DistinctCard(active);
    assert SetOf(p) <= SetOf(active);
    SubsetCard(SetOf(p), SetOf(active));
    FirstAreTop(p, ranked, taken, x);
  }

  lemma TopStays(current: seq<Symbol>, preferred: seq<Symbol>, forbidden: set<Symbol>, inactive: set<Symbol>,
                 t: Tenure, limit: int, x: Symbol)
    requires Distinct(current) && |current| == 5 && limit >= 0
    requires Reconciled(current, preferred, forbidden, inactive, t, limit).Ok?
    requires x in current && x !in forbidden && x !in inactive && x in Top(Eligible(preferred, forbidden))
    ensures x in Reconciled(current, preferred, forbidden, inactive, t, limit).value
  {
    hide Reconciled, Top, Eligible, Start, SetOf, Distinct;
    ReconciledIsBetter(current, preferred, forbidden, inactive, t, limit);
  }

  lemma RankedFacts(active: Decision, m: Market, taken: set<Symbol>, x: Symbol)
    requires Valid(active) && WellRanked(m) && x in Outside(m.stable, taken)
    ensures Distinct(Outside(m.stable, taken)) && x !in taken && x !in m.inactive
    ensures Distinct(active.boundary) && |active.boundary| == 5
  {
    hide Distinct;
  }

  /**
   A boundary symbol that is still eligible, in neither core nor probe, and ranked within the retain rank
   among the stable symbols outside both, stays in the boundary.
   */
  lemma ProtectedBoundaryStays(active: Decision, m: Market, timing: Timing, policy: Policy, taken: set<Symbol>, x: Symbol)
    requires Valid(active) && WellRanked(m) && NextBoundary(active, m, timing, policy, taken).Ok?
    requires var ranked := Outside(m.stable, taken); x in ranked && Rank(ranked, x) <= policy.boundaryRetainRank
    requires x in active.boundary
    ensures x in NextBoundary(active, m, timing, policy, taken).value
  {
    hide Top, Eligible, Protected, Rank, Outside, Distinct, Reconciled, Valid, WellRanked;
    RankedFacts(active, m, taken, x);
    var ranked := Outside(m.stable, taken);
    ProtectedIsTop(active.boundary, ranked, m, taken, policy.boundaryRetainRank, x);
    var p := Protected(active.boundary, ranked, m, taken, policy.boundaryRetainRank);
    TopStays(active.boundary, p + ranked, taken, m.inactive, Candidates(timing, policy), Max(1, policy.candidateDailyReplacements - 1), x);
  }
}
