/** The universe store as an object, its scan of the override files a loop. */
module UniverseRun {
  import opened Base
  import opened Universe

  /** `_next_effective_at`: the next midnight, or the one after it once the planning cutoff has passed. */
  method NextEffectiveAt(now: int, cutoffMinute: int) returns (effectiveAt: int)
    requires 0 <= cutoffMinute < 60
    ensures effectiveAt % DAY_NS == 0 && now < effectiveAt
    ensures effectiveAt - now <= 2 * DAY_NS
    ensures effectiveAt - now > DAY_NS <==> now % DAY_NS >= DAY_NS - HOUR_NS + (cutoffMinute + 1) * MINUTE_NS
  {
    var hour := now % DAY_NS / HOUR_NS;
    var minute := now % HOUR_NS / MINUTE_NS;
    effectiveAt := (now / DAY_NS + 1) * DAY_NS;
    MidnightIsWhole(now / DAY_NS + 1);
    ClockParts(now, cutoffMinute);
    if hour == 23 && minute > cutoffMinute {
      effectiveAt := effectiveAt + DAY_NS;
      MidnightIsWhole(now / DAY_NS + 2);
    }
  }

  const MINUTE_NS := 60_000_000_000
  const HOUR_NS := 3_600_000_000_000
  lemma MidnightIsWhole(day: int)
    ensures day * DAY_NS % DAY_NS == 0
  {
  }

  /** Hour 23 past the cutoff minute is the last stretch of the day. */
  lemma ClockParts(now: int, cutoffMinute: int)
    requires 0 <= cutoffMinute < 60
    ensures now % DAY_NS / HOUR_NS == 23 && now % HOUR_NS / MINUTE_NS > cutoffMinute <==>
            now % DAY_NS >= DAY_NS - HOUR_NS + (cutoffMinute + 1) * MINUTE_NS
  {
    var rest := now % DAY_NS;
    assert now == now / DAY_NS * 24 * HOUR_NS + rest;
    assert now % HOUR_NS == rest % HOUR_NS;
    if rest / HOUR_NS == 23 {
      assert rest % HOUR_NS == rest - 23 * HOUR_NS;
    }
  }

  class UniverseStore {
    const policy: Policy
    var active: Decision
    var memberSince: map<Symbol, int>
    var coreSince: map<Symbol, int>
    var pending: Option<Decision>
    var overrides: map<string, Override>
    var history: seq<Decision>

    function Value(): Store
      reads this
    {
      Store(active, memberSince, coreSince, pending, overrides, history)
    }

    /** `initialize` without a stored decision */
    constructor (policy: Policy, d: Decision)
      ensures this.policy == policy && Value() == Bootstrapped(d)
    {
      this.policy := policy;
      active := d;
      memberSince := map x | x in Members(d.roles) :: d.effectiveAt;
      coreSince := map x | x in d.roles.core :: d.effectiveAt;
      pending, overrides, history := None, map[], [d];
    }

    /** The part of `observe_and_plan` after the selection. */
    method Plan(roles: Roles, now: int, effectiveAt: int) returns (decision: Option<Decision>)
      modifies this`pending
      ensures Value() == PlanDone(old(Value()), roles, now, effectiveAt)
      ensures decision.Some? ==> pending == decision
    {
      if roles == active.roles {
        pending := None;
        return None;
      }
      if !ValidRoles(roles) || effectiveAt < now {
        return None;
      }
      var core := roles.core != active.roles.core;
      var planned := Decision(if core then active.generation + 1 else active.generation,
                              if core then 0 else active.revision + 1, active.sequence + 1, now, effectiveAt, roles);
      pending := Some(planned);
      return pending;
    }

    /** `_select_due`: the scan puts invalid overrides aside and keeps the greatest due candidate. */
    method SelectDue(now: int) returns (best: Option<Candidate>)
      requires PENDING !in overrides
      modifies this`overrides
      ensures overrides == ValidOverrides(old(Value()), policy)
      ensures best.Some? ==> IsCandidate(old(Value()), policy, now, best.value)
      ensures forall c | IsCandidate(old(Value()), policy, now, c) :: best.Some? && !Before(best.value, c)
    {
      ghost var s := Value();
      BestBeforeScan(s, policy, now);
      best := if pending.Some? && Due(active, pending.value, now) then Some(Candidate(pending.value, PENDING)) else None;
      AllScanned(s, policy);
      hide FromOverride, Before, NameBefore, IsCandidate, BestSoFar, Due, ValidExcept, ValidOverrides;
      var files := overrides;
      var todo := files.Keys;
      var valid: map<string, Override> := map[];
      while todo != {}
        invariant todo <= files.Keys && Value() == s && BestSoFar(s, policy, now, todo, best)
        invariant valid == ValidExcept(s, policy, todo)
        decreases |todo|
      {
        var name :| name in todo;
        var decision := FromOverride(Value(), files[name], policy);
        BestAfter(s, policy, now, todo, best, name);
        OneScanned(s, policy, todo, name);
        todo := todo - {name};
        if decision.Some? {
          valid := valid[name := files[name]];
          if Due(active, decision.value, now) && (best.None? || Before(best.value, Candidate(decision.value, name))) {
            best := Some(Candidate(decision.value, name));
          }
        }
      }
      BestAfterScan(s, policy, now, best);
      overrides := valid;
    }

    /** The changes of `apply_due` once a decision is selected. */
    method ApplyChosen(c: Candidate)
      modifies this`active, this`memberSince, this`coreSince, this`pending, this`overrides, this`history
      ensures Value() == AppliedTo(old(Value()), c)
    {
      var decision, previous := c.decision, active;
      active := decision;
      memberSince := SinceAfter(memberSince, Members(decision.roles), decision.effectiveAt);
      coreSince := CoreSinceAfter(coreSince, previous.roles.core, decision.roles.core, decision.effectiveAt);
      history := history + [decision];
      if c.name != PENDING {
        overrides := overrides - {c.name};
      }
      pending := None;
    }

    /** `apply_due` */
    method ApplyDue(now: int) returns (applied: Option<Candidate>)
      requires PENDING !in overrides
      modifies this`active, this`memberSince, this`coreSince, this`pending, this`overrides, this`history
      ensures applied.None? ==> Value() == Do(old(Value()), policy, Scan) && forall c :: !IsCandidate(old(Value()), policy, now, c)
      ensures applied.Some? ==>
                Can(old(Value()), policy, Apply(now, applied.value)) && Value() == Do(old(Value()), policy, Apply(now, applied.value))
    {
      hide IsCandidate, FromOverride, Before, ValidOverrides, AppliedTo;
      applied := SelectDue(now);
      if applied.Some? {
        ApplyChosen(applied.value);
      }
    }
  }

  /** The valid overrides not in the files still to be scanned. */
  function ValidExcept(s: Store, policy: Policy, todo: set<string>): map<string, Override> {
    map name | name in s.overrides && name !in todo && FromOverride(s, s.overrides[name], policy).Some? :: s.overrides[name]
  }

  lemma AllScanned(s: Store, policy: Policy)
    ensures ValidExcept(s, policy, {}) == ValidOverrides(s, policy)
    ensures ValidExcept(s, policy, s.overrides.Keys) == map[]
  {
    hide FromOverride;
  }

  lemma OneScanned(s: Store, policy: Policy, todo: set<string>, name: string)
    requires name in s.overrides && name in todo
    ensures ValidExcept(s, policy, todo - {name}) ==
            if FromOverride(s, s.overrides[name], policy).Some? then ValidExcept(s, policy, todo)[name := s.overrides[name]]
            else ValidExcept(s, policy, todo)
  {
    hide FromOverride;
  }

  /** `best` is the greatest of the candidates not in the files still to be scanned. */
  ghost predicate BestSoFar(s: Store, policy: Policy, now: int, todo: set<string>, best: Option<Candidate>) {
    && (best.Some? ==> IsCandidate(s, policy, now, best.value))
    && (forall c | IsCandidate(s, policy, now, c) && c.name !in todo :: best.Some? && !Before(best.value, c))
  }

  lemma BestBeforeScan(s: Store, policy: Policy, now: int)
    requires PENDING !in s.overrides
    ensures var best := if s.pending.Some? && Due(s.active, s.pending.value, now) then Some(Candidate(s.pending.value, PENDING)) else None;
            BestSoFar(s, policy, now, s.overrides.Keys, best)
  {
    hide FromOverride, Before;
    if s.pending.Some? {
      Irreflexive(Candidate(s.pending.value, PENDING));
    }
  }

  lemma BestAfterScan(s: Store, policy: Policy, now: int, best: Option<Candidate>)
    requires BestSoFar(s, policy, now, {}, best)
    ensures best.Some? ==> IsCandidate(s, policy, now, best.value)
    ensures forall c | IsCandidate(s, policy, now, c) :: best.Some? && !Before(best.value, c)
  {
    hide IsCandidate, Before;
  }

  lemma BestAfter(s: Store, policy: Policy, now: int, todo: set<string>, best: Option<Candidate>, name: string)
    requires PENDING !in s.overrides && name in todo && name in s.overrides && BestSoFar(s, policy, now, todo, best)
    ensures var decision := FromOverride(s, s.overrides[name], policy);
            if decision.Some? && Due(s.active, decision.value, now) && (best.None? || Before(best.value, Candidate(decision.value, name)))
            then BestSoFar(s, policy, now, todo - {name}, Some(Candidate(decision.value, name)))
            else BestSoFar(s, policy, now, todo - {name}, best)
  {
    hide FromOverride, Before, Due;
    var decision := FromOverride(s, s.overrides[name], policy);
    forall c | IsCandidate(s, policy, now, c) && c.name !in todo - {name} && c.name in todo
      ensures decision == Some(c.decision) && c == Candidate(decision.value, name) && Due(s.active, decision.value, now)
    {
    }
    if decision.Some? && Due(s.active, decision.value, now) {
      var c := Candidate(decision.value, name);
      assert IsCandidate(s, policy, now, c);
      Irreflexive(c);
      if best.None? || Before(best.value, c) {
        Overtakes(s, policy, now, todo, best, c);
      }
    }
    hide IsCandidate;
  }

  lemma {:induction false} NameIrreflexive(a: string)
    ensures !NameBefore(a, a)
    decreases |a|
  {
    if a != [] {
      NameIrreflexive(a[1..]);
    }
  }

  lemma Irreflexive(c: Candidate)
    ensures !Before(c, c)
  {
    NameIrreflexive(c.name);
  }

  lemma {:induction false} NameTransitive(a: string, b: string, c: string)
    requires NameBefore(a, b) && NameBefore(b, c)
    ensures NameBefore(a, c)
    decreases |a|
  {
    if a != [] && a[0] == b[0] && b[0] == c[0] {
      NameTransitive(a[1..], b[1..], c[1..]);
    }
  }

  lemma Transitive(a: Candidate, b: Candidate, c: Candidate)
    requires Before(a, b) && Before(b, c)
    ensures Before(a, c)
  {
    hide NameBefore;
    if NameBefore(a.name, b.name) && NameBefore(b.name, c.name) {
      NameTransitive(a.name, b.name, c.name);
    }
  }

  /** A candidate after the best so far comes after all that the best so far came after. */
  lemma Overtakes(s: Store, policy: Policy, now: int, todo: set<string>, best: Option<Candidate>, c: Candidate)
    requires best.Some? ==> Before(best.value, c)
    requires forall d | IsCandidate(s, policy, now, d) && d.name !in todo :: best.Some? && !Before(best.value, d)
    ensures forall d | IsCandidate(s, policy, now, d) && d.name !in todo :: !Before(c, d)
  {
    hide IsCandidate, Before;
    forall d | IsCandidate(s, policy, now, d) && d.name !in todo
      ensures !Before(c, d)
    {
      if Before(c, d) {
        Transitive(best.value, c, d);
      }
    }
  }
}
