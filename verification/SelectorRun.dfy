/** The selector's loops over its working lists, proved against `Bucket` and `Selector`. */
module SelectorRun {
  import opened Base
  import opened Bucket
  import opened Selector

  /** The first loop of `_reconcile_bucket`. */
  method FillBucket(kept: seq<Symbol>, eligible: seq<Symbol>) returns (result: seq<Symbol>)
    ensures result == Filled(kept, eligible)
  {
    result := kept;
    var i := 0;
    while i < |eligible| && |result| < 5
      invariant 0 <= i <= |eligible|
      invariant Filled(result, eligible[i..]) == Filled(kept, eligible)
    {
      assert eligible[i..][0] == eligible[i] && eligible[i..][1..] == eligible[i + 1..];
      if eligible[i] !in result {
        result := result + [eligible[i]];
      }
      i := i + 1;
    }
  }

  /** The second loop of `_reconcile_bucket`. */
  method ReplaceInBucket(filled: seq<Symbol>, eligible: seq<Symbol>, t: Tenure, limit: int) returns (result: seq<Symbol>)
    requires Distinct(filled)
    ensures result == Replaced(Progress(filled, 0), eligible, 0, t, limit).result
  {
    var top := Top(eligible);
    result := filled;
    var changes := 0;
    for k := 0 to |eligible|
      invariant Distinct(result) && changes >= 0
      invariant Replaced(Progress(result, changes), eligible, k, t, limit) == Replaced(Progress(filled, 0), eligible, 0, t, limit)
    {
      hide DwellComplete;
      TurnDistinct(Progress(result, changes), eligible[k], top, t, limit);
      if eligible[k] in result || changes >= limit {
        continue;
      }
      var incumbent := LastRemovable(result, top, t);
      if incumbent.None? {
        continue;
      }
      result := Removed(result, incumbent.value) + [eligible[k]];
      changes := changes + 1;
    }
  }

  /** `_reconcile_bucket` */
  method ReconcileBucket(current: seq<Symbol>, preferred: seq<Symbol>, forbidden: set<Symbol>, inactive: set<Symbol>,
                         t: Tenure, limit: int)
    returns (r: Result<seq<Symbol>, Error>)
    requires Distinct(current)
    ensures r == Reconciled(current, preferred, forbidden, inactive, t, limit)
  {
    var eligible := Eligible(preferred, forbidden);
    var kept := Outside(current, forbidden + inactive);
    FilledDistinct(kept, eligible);
    var filled := FillBucket(kept, eligible);
    var result := ReplaceInBucket(filled, eligible, t, limit);
    hide Outside, Eligible, Filled, Replaced;
    if |result| != 5 {
      return Err(TOO_FEW);
    }
    if |kept| == 5 && |SetOf(current) - SetOf(result)| > limit {
      return Err(LIMIT_EXCEEDED);
    }
    return Ok(result);
  }

  /** The loop over the inactive core symbols. */
  method ReplaceInactiveCore(active: seq<Symbol>, inactive: set<Symbol>, pool: seq<Symbol>) returns (core: Option<seq<Symbol>>)
    ensures core == CoreReplaced(active, 0, inactive, pool)
  {
    var list := active;
    for i := 0 to |active|
      invariant |list| == |active|
      invariant CoreReplaced(list, i, inactive, pool) == CoreReplaced(active, 0, inactive, pool)
    {
      if list[i] in inactive {
        var replacement := FirstFree(pool, SetOf(list));
        if replacement.None? {
          return None;
        }
        list := list[i := replacement.value];
      }
    }
    return Some(list);
  }

  /** Monday's loop over the promotable symbols. */
  method PromoteCore(replaced: seq<Symbol>, promotable: seq<Symbol>, changed: int, w: Weekly) returns (core: seq<Symbol>)
    ensures core == Promoted(replaced, promotable, changed, w)
  {
    hide Rank, CoreRemovable, Worst;
    core := replaced;
    var queue, changes := promotable, changed;
    while queue != [] && changes < w.policy.coreWeeklyReplacements
      invariant Promoted(core, queue, changes, w) == Promoted(replaced, promotable, changed, w)
      decreases |queue|
    {
      var challenger := queue[0];
      var worst := Worst(core, |core|, w);
      if worst.None? || Rank(w.stable, challenger) >= Rank(w.stable, core[worst.value]) {
        return;
      }
      core := core[worst.value := challenger];
      queue := queue[1..];
      changes := changes + 1;
    }
  }

  /** `select_rolling_universe` */
  method SelectRolling(active: Decision, m: Market, timing: Timing, policy: Policy) returns (r: Result<Selection, Failure>)
    requires Distinct(active.boundary) && Distinct(active.probe)
    ensures r == Selected(active, m, timing, policy)
  {
    hide Reconciled, CoreReplaced, Promoted, Outside, Promotable, Distinct, SetOf, Protected;
    if |m.probes| < 5 {
      return Ok(FailClosed(active));
    }
    var pool := Outside(m.stable, SetOf(active.core));
    var replaced := ReplaceInactiveCore(active.core, m.inactive, pool);
    if replaced.None? {
      return Err(NO_CORE_REPLACEMENT);
    }
    var core := replaced.value;
    if timing.monday {
      var w := WeeklyOf(active, m, timing, policy);
      core := PromoteCore(core, Promotable(pool, core, w), |SetOf(active.core) - SetOf(core)|, w);
    }
    var preferred := Outside(m.probes, SetOf(core));
    if |preferred| < 5 {
      return Ok(FailClosed(active));
    }
    var probe := ReconcileBucket(active.probe, preferred, SetOf(core), m.inactive, Candidates(timing, policy), 1);
    if probe.Err? {
      return Err(BUCKET(probe.error));
    }
    if |Outside(m.stable, SetOf(probe.value))| < 55 {
      return Ok(FailClosed(active));
    }
    var taken := SetOf(core) + SetOf(probe.value);
    var ranked := Outside(m.stable, taken);
    var protected := Protected(active.boundary, ranked, m, taken, policy.boundaryRetainRank);
    var boundary := ReconcileBucket(active.boundary, protected + ranked, taken, m.inactive, Candidates(timing, policy),
                                    Max(1, policy.candidateDailyReplacements - 1));
    if boundary.Err? {
      return Err(BUCKET(boundary.error));
    }
    return Ok(Selection(core, boundary.value, probe.value, false));
  }
}
