/** How a selection ends, and what the candidate buckets are made from. */
module SelectorOutcome {
  import opened Base
  import opened Bucket
  import opened BucketExact
  import opened Selector
  import opened SelectorExact

  // ---------------------------------------------------------------- the eligible symbols of a bucket

  lemma {:induction false} DeduplicatedTwo(p: seq<Symbol>, q: seq<Symbol>)
    requires Distinct(p) && Distinct(q)
    ensures Deduplicated(p + q) == p + Outside(q, SetOf(p))
    decreases |q|
  {
    if q == [] {
      assert p + q == p;
      DeduplicatedPrefix(p, []);
      SameLength(p);
    } else {
      var n := |q| - 1;
      assert (p + q)[..|p + q| - 1] == p + q[..n] && (p + q)[|p + q| - 1] == q[n];
      DeduplicatedTwo(p, q[..n]);
      assert q == q[..n] + [q[n]] && q[n] !in q[..n];
      hide Distinct;
    }
  }

  /** Symbols outside the forbidden ones are all eligible, each at its first place. */
  lemma EligibleTwo(p: seq<Symbol>, q: seq<Symbol>, taken: set<Symbol>)
    requires Distinct(p) && Distinct(q) && (forall x | x in p :: x !in taken) && (forall x | x in q :: x !in taken)
    ensures Eligible(p + q, taken) == p + Outside(q, SetOf(p))
  {
    hide Distinct, Outside, Deduplicated;
    OutsideAll(p + q, taken);
    DeduplicatedTwo(p, q);
  }

  lemma Enough(kept: seq<Symbol>, eligible: seq<Symbol>, pool: seq<Symbol>)
    requires Distinct(pool) && |pool| >= 5 && forall x | x in pool :: x in eligible
    ensures |SetOf(kept) + SetOf(eligible)| >= 5
  {
    DistinctCard(pool);
    SubsetCard(SetOf(pool), SetOf(kept) + SetOf(eligible));
  }

  // ---------------------------------------------------------------- the two candidate buckets

  /** Made from `kept` and `eligible`, and certain to be made when the pool has five symbols. */
  ghost predicate Made(r: Result<seq<Symbol>, Error>, kept: seq<Symbol>, eligible: seq<Symbol>, pool: seq<Symbol>, t: Tenure, limit: int) {
    && (|pool| >= 5 ==> r.Ok?)
    && (r.Ok? ==> IsBucket(kept, eligible, t, limit, r.value))
  }

  lemma MadeExactly(current: seq<Symbol>, p: seq<Symbol>, pool: seq<Symbol>, taken: set<Symbol>, inactive: set<Symbol>, t: Tenure, limit: int)
    requires Distinct(current) && |current| == 5 && limit >= 0
    requires Distinct(p) && Distinct(pool) && (forall x | x in p :: x !in taken && x in pool) && forall x | x in pool :: x !in taken
    ensures Made(Reconciled(current, p + pool, taken, inactive, t, limit), Outside(current, taken + inactive),
                 p + Outside(pool, SetOf(p)), pool, t, limit)
  {
    hide Reconciled, IsBucket, Eligible, Outside, Distinct, SetOf;
    EligibleTwo(p, pool, taken);
    BucketExactly(current, p + pool, taken, inactive, t, limit);
    if |pool| >= 5 {
      Enough(Outside(current, taken + inactive), Eligible(p + pool, taken), pool);
    }
  }

  /** The probe bucket exactly: of its active symbols and the probe pool outside the core, one may be exchanged. */
  lemma ProbeExactly(active: Decision, m: Market, timing: Timing, policy: Policy, core: seq<Symbol>)
    requires Valid(active) && WellRanked(m)
    ensures var pool := Outside(m.probes, SetOf(core));
            Made(NextProbe(active, m, timing, policy, core), Outside(active.probe, SetOf(core) + m.inactive), pool, pool,
                 Candidates(timing, policy), 1)
  {
    hide Made, Reconciled;
    var pool := Outside(m.probes, SetOf(core));
    MadeExactly(active.probe, [], pool, SetOf(core), m.inactive, Candidates(timing, policy), 1);
    assert [] + pool == pool;
    OutsideAll(pool, SetOf([]));
    assert [] + Outside(pool, SetOf([])) == pool;
    hide Distinct, Outside, SetOf;
  }

  /**
   What the boundary bucket is filled from: first the active boundary symbols ranked within the retain
   rank, then the other stable symbols, both by rank.
   */
  function BoundaryPool(active: Decision, m: Market, policy: Policy, taken: set<Symbol>): seq<Symbol> {
    var ranked := Outside(m.stable, taken);
    var p := Protected(active.boundary, ranked, m, taken, policy.boundaryRetainRank);
    p + Outside(ranked, SetOf(p))
  }

  lemma {:induction false} ProtectedAscending(active: seq<Symbol>, ranked: seq<Symbol>, n: nat, m: Market, taken: set<Symbol>, limit: int)
    requires Distinct(ranked) && n <= |ranked|
    ensures var p := Protected(active, ranked[..n], m, taken, limit);
            Ascending(p, ranked) && forall x | x in p :: Rank(ranked, x) <= n
    decreases n
  {
    if n > 0 {
      ProtectedAscending(active, ranked, n - 1, m, taken, limit);
      assert ranked[..n][..n - 1] == ranked[..n - 1] && ranked[..n][n - 1] == ranked[n - 1];
      RankAt(ranked, n - 1);
      hide Rank, Distinct;
    }
  }

  /** The first `k` of the pool are the protected symbols, the others the rest of the ranked ones, each by rank. */
  ghost predicate HeadedBy(pool: seq<Symbol>, k: nat, ranked: seq<Symbol>, active: seq<Symbol>, limit: int) {
    && k <= |pool| && Ascending(pool[..k], ranked) && Ascending(pool[k..], ranked)
    && (forall x :: x in pool[..k] <==> x in ranked && x in active && Rank(ranked, x) <= limit)
    && (forall x :: x in pool[k..] <==> x in ranked && x !in pool[..k])
  }

  lemma BoundaryPoolExactly(active: Decision, m: Market, policy: Policy, taken: set<Symbol>)
    requires Valid(active) && WellRanked(m)
    ensures exists k :: HeadedBy(BoundaryPool(active, m, policy, taken), k, Outside(m.stable, taken), active.boundary, policy.boundaryRetainRank)
  {
    var ranked := Outside(m.stable, taken);
    var p := Protected(active.boundary, ranked, m, taken, policy.boundaryRetainRank);
    hide Rank, Ascending, Protected, HeadedBy;
    ProtectedFirst(active.boundary, ranked, m, taken, policy.boundaryRetainRank);
    HeadIs(p, ranked, active.boundary, policy.boundaryRetainRank);
    hide Outside, Distinct, SetOf;
    assert HeadedBy(BoundaryPool(active, m, policy, taken), |p|, ranked, active.boundary, policy.boundaryRetainRank);
  }

  lemma ProtectedFirst(active: seq<Symbol>, ranked: seq<Symbol>, m: Market, taken: set<Symbol>, limit: int)
    requires Distinct(ranked) && forall x | x in ranked :: x !in taken && x !in m.inactive
    ensures var p := Protected(active, ranked, m, taken, limit);
            && Distinct(p) && Ascending(p, ranked) && Ascending(Outside(ranked, SetOf(p)), ranked)
            && forall x :: x in p <==> x in ranked && x in active && Rank(ranked, x) <= limit
  {
    hide Rank, Distinct, Protected, Ascending;
    var p := Protected(active, ranked, m, taken, limit);
    ProtectedOk(active, ranked, m, taken, limit);
    assert ranked[..|ranked|] == ranked;
    ProtectedAscending(active, ranked, |ranked|, m, taken, limit);
    OutsideRanked(ranked, |ranked|, SetOf(p));
  }

  lemma HeadIs(p: seq<Symbol>, ranked: seq<Symbol>, active: seq<Symbol>, limit: int)
    requires Ascending(p, ranked) && Ascending(Outside(ranked, SetOf(p)), ranked)
    requires forall x :: x in p <==> x in ranked && x in active && Rank(ranked, x) <= limit
    ensures HeadedBy(p + Outside(ranked, SetOf(p)), |p|, ranked, active, limit)
  {
    hide Rank, Ascending, Distinct;
    var pool := p + Outside(ranked, SetOf(p));
    assert pool[..|p|] == p && pool[|p|..] == Outside(ranked, SetOf(p));
  }

  /** The boundary bucket exactly: of its active symbols and the boundary pool, the daily limit less one may be exchanged. */
  lemma BoundaryExactly(active: Decision, m: Market, timing: Timing, policy: Policy, taken: set<Symbol>)
    requires Valid(active) && WellRanked(m)
    ensures Made(NextBoundary(active, m, timing, policy, taken), Outside(active.boundary, taken + m.inactive),
                 BoundaryPool(active, m, policy, taken), Outside(m.stable, taken), Candidates(timing, policy),
                 Max(1, policy.candidateDailyReplacements - 1))
  {
    hide Made, Protected, Rank, Reconciled, Ascending, Distinct, Outside, SetOf, Valid, WellRanked, Candidates;
    var ranked := Outside(m.stable, taken);
    var p := Protected(active.boundary, ranked, m, taken, policy.boundaryRetainRank);
    RankedIsSound(active, m, taken);
    ProtectedFirst(active.boundary, ranked, m, taken, policy.boundaryRetainRank);
    MadeExactly(active.boundary, p, ranked, taken, m.inactive, Candidates(timing, policy), Max(1, policy.candidateDailyReplacements - 1));
  }

  lemma RankedIsSound(active: Decision, m: Market, taken: set<Symbol>)
    requires Valid(active) && WellRanked(m)
    ensures Distinct(active.boundary) && |active.boundary| == 5
    ensures Distinct(Outside(m.stable, taken)) && forall x | x in Outside(m.stable, taken) :: x !in taken && x !in m.inactive
  {
    hide Distinct;
  }

  // ---------------------------------------------------------------- the outcome

  /** 55 stable symbols outside the probe bucket leave five outside the core as well. */
  lemma FiveAreLeft(stable: seq<Symbol>, core: seq<Symbol>, probe: seq<Symbol>)
    requires Distinct(stable) && |core| == 50 && Distinct(core) && |Outside(stable, SetOf(probe))| >= 55
    ensures |Outside(stable, SetOf(core) + SetOf(probe))| >= 5
  {
    var wide, narrow := Outside(stable, SetOf(probe)), Outside(stable, SetOf(core) + SetOf(probe));
    DistinctCard(wide);
    DistinctCard(narrow);
    DistinctCard(core);
    hide Outside, Distinct;
    assert SetOf(wide) <= SetOf(narrow) + SetOf(core);
    SubsetCard(SetOf(wide), SetOf(narrow) + SetOf(core));
    assert |SetOf(narrow) + SetOf(core)| <= |SetOf(narrow)| + |SetOf(core)|;
  }

  /** There are symbols enough for every step of the selection. */
  predicate Supplied(active: Decision, m: Market, timing: Timing, policy: Policy)
    requires Distinct(active.probe)
  {
    var next := NextCore(active, m, timing, policy);
    && |m.probes| >= 5 && next.Some? && |Outside(m.probes, SetOf(next.value))| >= 5
    && var probe := NextProbe(active, m, timing, policy, next.value);
       probe.Ok? && |Outside(m.stable, SetOf(probe.value))| >= 55
  }

  /**
   How a selection ends. It raises exactly when there are probe symbols enough but too few stable symbols
   outside the core for the inactive ones, never for want of candidates; it selects exactly when every pool
   suffices, and keeps the active roles otherwise.
   */
  lemma SelectionEndsExactly(active: Decision, m: Market, timing: Timing, policy: Policy)
    requires Valid(active) && WellRanked(m)
    ensures EndsAs(Selected(active, m, timing, policy), active, m, timing, policy)
  {
    hide EndsAs, Supplied, NextCore, NextProbe, NextBoundary, Outside, Distinct, SetOf;
    CoreExactly(active, m, timing, policy);
    var next := NextCore(active, m, timing, policy);
    if |m.probes| < 5 || next.None? || |Outside(m.probes, SetOf(next.value))| < 5 {
      EndsEarly(active, m, timing, policy);
    } else {
      EndsLate(active, m, timing, policy);
    }
  }

  ghost predicate EndsAs(r: Result<Selection, Failure>, active: Decision, m: Market, timing: Timing, policy: Policy)
    requires Distinct(active.probe)
  {
    && (r.Err? <==> |m.probes| >= 5 && |Reserve(active, m)| < Vacancies(active, m))
    && (r.Err? ==> r.error == NO_CORE_REPLACEMENT)
    && (r.Ok? ==> (r.value.failedClosed <==> !Supplied(active, m, timing, policy)))
    && (r.Ok? && r.value.failedClosed ==> r.value == FailClosed(active))
  }

  lemma EndsEarly(active: Decision, m: Market, timing: Timing, policy: Policy)
    requires Distinct(active.probe) && Distinct(active.boundary)
    requires NextCore(active, m, timing, policy).None? <==> |Reserve(active, m)| < Vacancies(active, m)
    requires var next := NextCore(active, m, timing, policy);
             |m.probes| < 5 || next.None? || |Outside(m.probes, SetOf(next.value))| < 5
    ensures EndsAs(Selected(active, m, timing, policy), active, m, timing, policy)
  {
    hide NextCore, NextProbe, NextBoundary, Outside, Distinct, SetOf, Reserve, Vacancies;
  }

  lemma EndsLate(active: Decision, m: Market, timing: Timing, policy: Policy)
    requires Valid(active) && WellRanked(m)
    requires NextCore(active, m, timing, policy).None? <==> |Reserve(active, m)| < Vacancies(active, m)
    requires var next := NextCore(active, m, timing, policy);
             |m.probes| >= 5 && next.Some? && |Outside(m.probes, SetOf(next.value))| >= 5
    ensures EndsAs(Selected(active, m, timing, policy), active, m, timing, policy)
  {
    hide NextCore, NextProbe, NextBoundary, Outside, SetOf, Reserve, Vacancies, EndsAs;
    var core := NextCore(active, m, timing, policy).value;
    NextCoreOk(active, m, timing, policy);
    assert |core| == 50 && Distinct(core) && Distinct(m.stable);
    hide Distinct, IsBucket;
    ProbeExactly(active, m, timing, policy, core);
    var probe := NextProbe(active, m, timing, policy, core).value;
    if |Outside(m.stable, SetOf(probe))| >= 55 {
      FiveAreLeft(m.stable, core, probe);
      BoundaryExactly(active, m, timing, policy, SetOf(core) + SetOf(probe));
    }
    LateEnd(active, m, timing, policy, core, probe) by {
      hide Valid, WellRanked, Selected;
    }
  }

  lemma LateEnd(active: Decision, m: Market, timing: Timing, policy: Policy, core: seq<Symbol>, probe: seq<Symbol>)
    requires Distinct(active.probe) && Distinct(active.boundary)
    requires |m.probes| >= 5 && NextCore(active, m, timing, policy) == Some(core) && |Outside(m.probes, SetOf(core))| >= 5
    requires |Reserve(active, m)| >= Vacancies(active, m) && NextProbe(active, m, timing, policy, core) == Ok(probe)
    requires |Outside(m.stable, SetOf(probe))| >= 55 ==> NextBoundary(active, m, timing, policy, SetOf(core) + SetOf(probe)).Ok?
    ensures EndsAs(Selected(active, m, timing, policy), active, m, timing, policy)
  {
    hide NextCore, NextProbe, NextBoundary, Outside, SetOf, Reserve, Vacancies, Distinct;
  }
}
