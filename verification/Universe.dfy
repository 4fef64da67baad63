/**
 `UniverseStore` of src/ft_shadow_data_plane/edge/universe.py: decisions are planned or overridden by
 hand, and the due one with the greatest key is applied. Roles are sets: the stored tuples are sorted.
 */
module Universe {
  import opened Base
  import Bucket
  import Selector

  type Symbol = string

  datatype Roles = Roles(core: set<Symbol>, boundary: set<Symbol>, probe: set<Symbol>)

  datatype Decision = Decision(generation: int, revision: int, sequence: int, createdAt: int, effectiveAt: int, roles: Roles)

  datatype Override = Override(createdAt: int, effectiveAt: int, boundary: set<Symbol>, probe: set<Symbol>)

  datatype Policy = Policy(dailyReplacements: int, dwell: int)

  /** A due decision and the file it came from. */
  datatype Candidate = Candidate(decision: Decision, name: string)

  /** `history` lists the decisions that have been active, oldest first. */
  datatype Store = Store(
    active: Decision, memberSince: map<Symbol, int>, coreSince: map<Symbol, int>,
    pending: Option<Decision>, overrides: map<string, Override>, history: seq<Decision>)

  const PENDING := "pending.json"

  function Members(r: Roles): set<Symbol> {
    r.core + r.boundary + r.probe
  }

  predicate ValidRoles(r: Roles) {
    |r.core| == 50 && |r.boundary| == 5 && |r.probe| == 5 && |Members(r)| == 60
  }

  // ---------------------------------------------------------------- planning

  /** `_next_version` */
  function NextVersion(active: Decision, core: set<Symbol>): (int, int) {
    if core != active.roles.core then (active.generation + 1, 0) else (active.generation, active.revision + 1)
  }

  function Planned(active: Decision, roles: Roles, now: int, effectiveAt: int): Decision {
    var version := NextVersion(active, roles.core);
    Decision(version.0, version.1, active.sequence + 1, now, effectiveAt, roles)
  }

  /** `observe_and_plan` after the selection; an invalid decision raises and changes nothing. */
  function PlanDone(s: Store, roles: Roles, now: int, effectiveAt: int): Store {
    if roles == s.active.roles then s.(pending := None)
    else if ValidRoles(roles) && now <= effectiveAt then s.(pending := Some(Planned(s.active, roles, now, effectiveAt)))
    else s
  }

  // ---------------------------------------------------------------- overrides

  predicate TooYoung(s: Store, o: Override, policy: Policy, x: Symbol) {
    (if x in s.memberSince then s.memberSince[x] else o.effectiveAt) > o.effectiveAt - policy.dwell
  }

  /** `_decision_from_override`; None where it raises. */
  function FromOverride(s: Store, o: Override, policy: Policy): Option<Decision> {
    var proposed := o.boundary + o.probe;
    var current := s.active.roles.boundary + s.active.roles.probe;
    var roles := Roles(s.active.roles.core, o.boundary, o.probe);
    if proposed * s.active.roles.core != {} then None
    else if |proposed - current| > policy.dailyReplacements then None
    else if exists x | x in current - proposed :: TooYoung(s, o, policy, x) then None
    else if !ValidRoles(roles) || o.effectiveAt < o.createdAt then None
    else Some(Decision(s.active.generation, s.active.revision + 1, s.active.sequence + 1, o.createdAt, o.effectiveAt, roles))
  }

  // ---------------------------------------------------------------- the due decision

  predicate Due(active: Decision, d: Decision, now: int) {
    d.sequence > active.sequence && d.effectiveAt <= now
  }

  /** The order of file names. */
  predicate NameBefore(a: string, b: string)
    decreases |a|
  {
    b != [] && (a == [] || a[0] < b[0] || (a[0] == b[0] && NameBefore(a[1..], b[1..])))
  }

  /** The order of the selection key: sequence, effective time, creation time, file name. */
  predicate Before(a: Candidate, b: Candidate) {
    || a.decision.sequence < b.decision.sequence
    || (a.decision.sequence == b.decision.sequence &&
        (|| a.decision.effectiveAt < b.decision.effectiveAt
         || (a.decision.effectiveAt == b.decision.effectiveAt &&
             (|| a.decision.createdAt < b.decision.createdAt
              || (a.decision.createdAt == b.decision.createdAt && NameBefore(a.name, b.name))))))
  }

  /** What may be applied at `now`: the pending decision and every valid override that is due. */
  predicate IsCandidate(s: Store, policy: Policy, now: int, c: Candidate) {
    || (c.name == PENDING && s.pending == Some(c.decision) && Due(s.active, c.decision, now))
    || (c.name in s.overrides && FromOverride(s, s.overrides[c.name], policy) == Some(c.decision) && Due(s.active, c.decision, now))
  }

  // ---------------------------------------------------------------- applying

  /** Since when the members of `after` are members, given since when those of `before` were. */
  function SinceAfter(since: map<Symbol, int>, after: set<Symbol>, at: int): map<Symbol, int> {
    map x | x in after :: if x in since then since[x] else at
  }

  function CoreSinceAfter(since: map<Symbol, int>, before: set<Symbol>, after: set<Symbol>, at: int): map<Symbol, int> {
    map x | x in after :: if x in before && x in since then since[x] else at
  }

  /** `apply_due` once the decision is selected: its file and the pending one are gone. */
  function AppliedTo(s: Store, c: Candidate): Store {
    var d := c.decision;
    Store(d, SinceAfter(s.memberSince, Members(d.roles), d.effectiveAt),
          CoreSinceAfter(s.coreSince, s.active.roles.core, d.roles.core, d.effectiveAt),
          None, if c.name == PENDING then s.overrides else s.overrides - {c.name}, s.history + [d])
  }

  /** The overrides left after a scan: invalid ones are put aside. */
  function ValidOverrides(s: Store, policy: Policy): map<string, Override> {
    map name | name in s.overrides && FromOverride(s, s.overrides[name], policy).Some? :: s.overrides[name]
  }

  /** `initialize` without a stored decision */
  function Bootstrapped(d: Decision): Store {
    Store(d, map x | x in Members(d.roles) :: d.effectiveAt, map x | x in d.roles.core :: d.effectiveAt, None, map[], [d])
  }

  datatype Action =
    | Plan(roles: Roles, now: int, effectiveAt: int)
    | AddOverride(name: string, value: Override)
    | Scan
    | Apply(now: int, choice: Candidate)

  /** A scan rejects the invalid overrides; an application takes the candidate no other comes after. */
  ghost predicate Can(s: Store, policy: Policy, a: Action) {
    match a
    case Apply(now, choice) =>
      IsCandidate(s, policy, now, choice) && forall c | IsCandidate(s, policy, now, c) :: !Before(choice, c)
    case AddOverride(name, _) => name != PENDING
    case _ => true
  }

  function Do(s: Store, policy: Policy, a: Action): Store {
    match a
    case Plan(roles, now, effectiveAt) => PlanDone(s, roles, now, effectiveAt)
    case AddOverride(name, value) => s.(overrides := s.overrides[name := value])
    case Scan => s.(overrides := ValidOverrides(s, policy))
    case Apply(_, choice) => AppliedTo(s.(overrides := ValidOverrides(s, policy)), choice)
  }

  ghost predicate Runs(s: Store, policy: Policy, actions: seq<Action>)
    decreases |actions|
  {
    actions == [] || (Can(s, policy, actions[0]) && Runs(Do(s, policy, actions[0]), policy, actions[1..]))
  }

  function After(s: Store, policy: Policy, actions: seq<Action>): Store
    decreases |actions|
  {
    if actions == [] then s else After(Do(s, policy, actions[0]), policy, actions[1..])
  }

  // ---------------------------------------------------------------- the history

  predicate VersionBefore(a: Decision, b: Decision) {
    a.generation < b.generation || (a.generation == b.generation && a.revision < b.revision)
  }

  /** `b` may follow `a`: one later in sequence, a new generation exactly when the core changes, else a new revision. */
  predicate Follows(a: Decision, b: Decision) {
    && b.sequence == a.sequence + 1 && ValidRoles(b.roles)
    && (if a.roles.core == b.roles.core then b.generation == a.generation && b.revision == a.revision + 1
        else b.generation == a.generation + 1 && b.revision == 0)
  }

  predicate Has(d: Decision, x: Symbol, inCore: bool) {
    if inCore then x in d.roles.core else x in Members(d.roles)
  }

  /** When the stay that lasts to the end of the history began. */
  function StayBegan(history: seq<Decision>, x: Symbol, inCore: bool): int
    requires history != []
    decreases |history|
  {
    var n := |history| - 1;
    if n > 0 && Has(history[n - 1], x, inCore) then StayBegan(history[..n], x, inCore) else history[n].effectiveAt
  }

  /** Decision `i` is where the unbroken stay up to the end of the history began. */
  predicate Stay(history: seq<Decision>, x: Symbol, inCore: bool, i: int) {
    && 0 <= i < |history| && (forall j | i <= j < |history| :: Has(history[j], x, inCore))
    && (i > 0 ==> !Has(history[i - 1], x, inCore))
  }

  /** `StayBegan` is the effective time of the decision that began the unbroken stay. */
  lemma {:induction false} StayIsUnbroken(history: seq<Decision>, x: Symbol, inCore: bool)
    requires history != [] && Has(history[|history| - 1], x, inCore)
    ensures exists i :: Stay(history, x, inCore, i) && history[i].effectiveAt == StayBegan(history, x, inCore)
    decreases |history|
  {
    var n := |history| - 1;
    if n > 0 && Has(history[n - 1], x, inCore) {
      StayIsUnbroken(history[..n], x, inCore);
      var i :| Stay(history[..n], x, inCore, i) && history[..n][i].effectiveAt == StayBegan(history[..n], x, inCore);
      assert history[..n][i] == history[i];
      forall j | i <= j < |history|
        ensures Has(history[j], x, inCore)
      {
        if j < n {
          assert history[..n][j] == history[j];
        }
      }
      if i > 0 {
        assert history[..n][i - 1] == history[i - 1];
      }
      assert Stay(history, x, inCore, i);
    } else {
      assert Stay(history, x, inCore, n);
    }
  }

  /** `since` maps exactly the symbols that the last decision has, each to the beginning of its stay. */
  ghost predicate Exact(since: map<Symbol, int>, history: seq<Decision>, inCore: bool)
    requires history != []
  {
    && (forall x :: x in since <==> Has(history[|history| - 1], x, inCore))
    && (forall x | x in since :: since[x] == StayBegan(history, x, inCore))
  }

  ghost predicate Chained(history: seq<Decision>) {
    forall i, j :: 0 <= i < |history| && j == i + 1 && j < |history| ==> Follows(history[i], history[j])
  }

  ghost predicate Sound(s: Store) {
    && s.history != [] && s.history[|s.history| - 1] == s.active && Chained(s.history)
    && Exact(s.memberSince, s.history, false) && Exact(s.coreSince, s.history, true)
    && (s.pending.Some? ==> Follows(s.active, s.pending.value))
  }

  lemma PlannedFollows(active: Decision, roles: Roles, now: int, effectiveAt: int)
    requires ValidRoles(roles)
    ensures Follows(active, Planned(active, roles, now, effectiveAt))
  {
  }

  lemma OverrideFollows(s: Store, o: Override, policy: Policy)
    requires FromOverride(s, o, policy).Some?
    ensures Follows(s.active, FromOverride(s, o, policy).value)
    ensures FromOverride(s, o, policy).value.roles.core == s.active.roles.core
  {
    hide TooYoung, ValidRoles;
  }

  lemma CandidateFollows(s: Store, policy: Policy, now: int, c: Candidate)
    requires Sound(s) && IsCandidate(s, policy, now, c)
    ensures Follows(s.active, c.decision)
  {
    hide FromOverride, Exact, Chained, Follows;
    if c.name in s.overrides && FromOverride(s, s.overrides[c.name], policy) == Some(c.decision) {
      OverrideFollows(s, s.overrides[c.name], policy);
    }
  }

  lemma ChainOn(history: seq<Decision>, d: Decision)
    requires history != [] && Chained(history) && Follows(history[|history| - 1], d)
    ensures Chained(history + [d])
  {
    hide Follows;
  }

  lemma StayOn(history: seq<Decision>, d: Decision, x: Symbol, inCore: bool)
    requires history != [] && Has(d, x, inCore)
    ensures StayBegan(history + [d], x, inCore) ==
            if Has(history[|history| - 1], x, inCore) then StayBegan(history, x, inCore) else d.effectiveAt
  {
    hide Has, StayBegan;
    var more := history + [d];
    StayUnfolds(more, x, inCore);
    assert more[|more| - 1] == d && more[|more| - 2] == history[|history| - 1];
    assert more[..|more| - 1] == history;
  }

  lemma StayUnfolds(history: seq<Decision>, x: Symbol, inCore: bool)
    requires |history| >= 2
    ensures StayBegan(history, x, inCore) ==
            if Has(history[|history| - 2], x, inCore) then StayBegan(history[..|history| - 1], x, inCore)
            else history[|history| - 1].effectiveAt
  {
    hide Has;
  }

  lemma MembersExact(since: map<Symbol, int>, history: seq<Decision>, d: Decision)
    requires history != [] && Exact(since, history, false)
    ensures Exact(SinceAfter(since, Members(d.roles), d.effectiveAt), history + [d], false)
  {
    forall x | x in Members(d.roles)
      ensures SinceAfter(since, Members(d.roles), d.effectiveAt)[x] == StayBegan(history + [d], x, false)
    {
      StayOn(history, d, x, false);
    }
  }

  lemma CoreExact(since: map<Symbol, int>, history: seq<Decision>, d: Decision)
    requires history != [] && Exact(since, history, true)
    ensures Exact(CoreSinceAfter(since, history[|history| - 1].roles.core, d.roles.core, d.effectiveAt), history + [d], true)
  {
    var before := history[|history| - 1].roles.core;
    forall x | x in d.roles.core
      ensures CoreSinceAfter(since, before, d.roles.core, d.effectiveAt)[x] == StayBegan(history + [d], x, true)
    {
      StayOn(history, d, x, true);
    }
  }

  lemma PlanSound(s: Store, roles: Roles, now: int, effectiveAt: int)
    requires Sound(s)
    ensures Sound(PlanDone(s, roles, now, effectiveAt))
  {
    if ValidRoles(roles) {
      PlannedFollows(s.active, roles, now, effectiveAt);
    }
    hide Exact, Chained, Follows, Planned, ValidRoles;
  }

  lemma ApplySound(s: Store, policy: Policy, now: int, c: Candidate, overrides: map<string, Override>)
    requires Sound(s) && IsCandidate(s, policy, now, c)
    ensures Sound(AppliedTo(s.(overrides := overrides), c))
  {
    CandidateFollows(s, policy, now, c);
    hide Follows, IsCandidate;
    ChainOn(s.history, c.decision);
    MembersExact(s.memberSince, s.history, c.decision);
    CoreExact(s.coreSince, s.history, c.decision);
    hide Exact, Chained, SinceAfter, CoreSinceAfter, Members;
  }

  lemma StepSound(s: Store, policy: Policy, a: Action)
    requires Sound(s) && Can(s, policy, a)
    ensures Sound(Do(s, policy, a))
  {
    hide ValidOverrides, AppliedTo, PlanDone;
    match a
    case Plan(roles, now, effectiveAt) => PlanSound(s, roles, now, effectiveAt); hide Sound;
    case Apply(now, choice) => ApplySound(s, policy, now, choice, ValidOverrides(s, policy)); hide Sound, IsCandidate;
    case _ => hide Exact, Chained, Follows;
  }

  lemma {:induction false} RunSound(s: Store, policy: Policy, actions: seq<Action>)
    requires Sound(s) && Runs(s, policy, actions)
    ensures Sound(After(s, policy, actions))
    decreases |actions|
  {
    hide Sound, Can, Do;
    if actions != [] {
      StepSound(s, policy, actions[0]);
      RunSound(Do(s, policy, actions[0]), policy, actions[1..]);
    }
  }

  lemma BootstrappedSound(d: Decision)
    ensures Sound(Bootstrapped(d))
  {
  }

  /**
   Over every run of planning, overrides and applications: each applied decision is one later in
   sequence, strictly greater in (core generation, candidate revision) and of valid roles; and
   `member_since` and `core_since` have exactly the members and the core as keys, each mapped to the
   effective time at which its current unbroken stay began.
   */
  lemma HistoryIsOrdered(d: Decision, policy: Policy, actions: seq<Action>)
    requires Runs(Bootstrapped(d), policy, actions)
    ensures var s := After(Bootstrapped(d), policy, actions);
            && s.history != [] && s.history[|s.history| - 1] == s.active && Chained(s.history)
            && s.memberSince.Keys == Members(s.active.roles) && s.coreSince.Keys == s.active.roles.core
            && (forall x | x in s.memberSince :: exists i :: Stay(s.history, x, false, i) && s.history[i].effectiveAt == s.memberSince[x])
            && (forall x | x in s.coreSince :: exists i :: Stay(s.history, x, true, i) && s.history[i].effectiveAt == s.coreSince[x])
  {
    BootstrappedSound(d);
    RunSound(Bootstrapped(d), policy, actions);
    var s := After(Bootstrapped(d), policy, actions);
    hide Runs, After, Stay, StayBegan, Chained, Follows;
    forall x | x in s.memberSince
      ensures exists i :: Stay(s.history, x, false, i) && s.history[i].effectiveAt == s.memberSince[x]
    {
      StayIsUnbroken(s.history, x, false);
    }
    forall x | x in s.coreSince
      ensures exists i :: Stay(s.history, x, true, i) && s.history[i].effectiveAt == s.coreSince[x]
    {
      StayIsUnbroken(s.history, x, true);
    }
  }

  lemma {:induction false} SequenceCounts(history: seq<Decision>, i: nat)
    requires Chained(history) && i < |history|
    ensures history[i].sequence == history[0].sequence + i
  {
    if i > 0 {
      SequenceCounts(history, i - 1);
      assert Follows(history[i - 1], history[i]);
    }
  }

  /** No version is ever used twice: later decisions have greater ones. */
  lemma {:induction false} VersionsIncrease(history: seq<Decision>, i: nat, j: nat)
    requires Chained(history) && i < j < |history|
    ensures VersionBefore(history[i], history[j])
    decreases j
  {
    assert Follows(history[j - 1], history[j]);
    if i < j - 1 {
      VersionsIncrease(history, i, j - 1);
    }
  }

  /**
   A manual override that is accepted keeps the core, exchanges no more candidates than the daily limit
   allows, and lets go only candidates whose dwell is complete by the time it takes effect.
   */
  lemma OverrideIsLimited(s: Store, o: Override, policy: Policy)
    requires Sound(s) && FromOverride(s, o, policy).Some?
    ensures var d := FromOverride(s, o, policy).value;
            && d.roles.core == s.active.roles.core
            && |Members(d.roles) - Members(s.active.roles)| <= policy.dailyReplacements
            && (forall x | x in Members(s.active.roles) && x !in Members(d.roles) ::
                 x in s.memberSince && s.memberSince[x] + policy.dwell <= d.effectiveAt)
  {
    hide Sound, ValidRoles, TooYoung;
    var d := FromOverride(s, o, policy).value;
    var proposed, current := o.boundary + o.probe, s.active.roles.boundary + s.active.roles.probe;
    CoreAside(s.active.roles.core, proposed, current);
    assert Members(d.roles) == s.active.roles.core + proposed && Members(s.active.roles) == s.active.roles.core + current;
    forall x | x in Members(s.active.roles) && x !in Members(d.roles)
      ensures x in s.memberSince && s.memberSince[x] + policy.dwell <= d.effectiveAt
    {
      assert x in current - proposed;
      assert !TooYoung(s, o, policy, x);
      MemberJoined(s, o, policy, x);
    }
  }

  lemma CoreAside(core: set<Symbol>, a: set<Symbol>, b: set<Symbol>)
    requires a * core == {}
    ensures (core + a) - (core + b) == a - b
  {
    forall x | x in a
      ensures x !in core
    {
      assert x !in a * core;
    }
  }

  lemma MemberJoined(s: Store, o: Override, policy: Policy, x: Symbol)
    requires Sound(s) && x in Members(s.active.roles)
    ensures x in s.memberSince && (TooYoung(s, o, policy, x) <==> s.memberSince[x] + policy.dwell > o.effectiveAt)
  {
    hide Chained, Follows;
    assert Has(s.active, x, false);
  }

  /** The five and five symbols an override names make valid roles with the core it keeps. */
  predicate FitsCore(o: Override, core: set<Symbol>) {
    |o.boundary| == 5 && |o.probe| == 5 && o.boundary !! o.probe && o.boundary + o.probe !! core
  }

  /** An override is accepted exactly when it keeps to the core, the daily limit, the dwell and the calendar. */
  lemma OverrideAcceptedExactly(s: Store, o: Override, policy: Policy)
    requires Sound(s) && ValidRoles(s.active.roles)
    ensures FromOverride(s, o, policy).Some? <==>
              && FitsCore(o, s.active.roles.core) && o.createdAt <= o.effectiveAt
              && |o.boundary + o.probe - Members(s.active.roles)| <= policy.dailyReplacements
              && (forall x | x in Members(s.active.roles) - s.active.roles.core && x !in o.boundary + o.probe ::
                   s.memberSince[x] + policy.dwell <= o.effectiveAt)
    ensures FromOverride(s, o, policy).Some? ==>
              FromOverride(s, o, policy).value.roles == Roles(s.active.roles.core, o.boundary, o.probe)
              && FromOverride(s, o, policy).value.effectiveAt == o.effectiveAt
  {
    var core := s.active.roles.core;
    var current, proposed := s.active.roles.boundary + s.active.roles.probe, o.boundary + o.probe;
    RolesAreDisjoint(s.active.roles);
    assert Members(s.active.roles) - core == current;
    OverrideRoles(core, o);
    forall x | x in current
      ensures TooYoung(s, o, policy, x) <==> s.memberSince[x] + policy.dwell > o.effectiveAt
    {
      MemberJoined(s, o, policy, x);
    }
    if proposed !! core {
      assert proposed - Members(s.active.roles) == proposed - current;
    }
    hide Sound, Exact, Chained, ValidRoles, TooYoung, Members;
  }

  lemma RolesAreDisjoint(r: Roles)
    requires ValidRoles(r)
    ensures r.core !! r.boundary + r.probe && r.boundary !! r.probe
  {
    var inner := r.core + r.boundary;
    assert |inner| == |r.core| + |r.boundary| - |r.core * r.boundary|;
    assert |inner + r.probe| == |inner| + |r.probe| - |inner * r.probe|;
    assert |r.core * r.boundary| == 0 && |inner * r.probe| == 0;
    assert r.core * r.boundary == {} && inner * r.probe == {};
    forall x | x in r.probe
      ensures x !in r.core && x !in r.boundary
    {
      assert x !in inner * r.probe;
    }
    forall x | x in r.core
      ensures x !in r.boundary
    {
      assert x !in r.core * r.boundary;
    }
  }

  lemma OverrideRoles(core: set<Symbol>, o: Override)
    requires |core| == 50
    ensures FitsCore(o, core) <==> (o.boundary + o.probe) * core == {} && ValidRoles(Roles(core, o.boundary, o.probe))
  {
    var r := Roles(core, o.boundary, o.probe);
    if ValidRoles(r) {
      RolesAreDisjoint(r);
    }
    if FitsCore(o, core) {
      assert |core + o.boundary| == 55;
      assert |core + o.boundary + o.probe| == 60;
    }
  }

  // ---------------------------------------------------------------- when a decision is due

  /** What may be applied is what is planned or accepted and has reached its time: its sequence always fits. */
  lemma DueExactly(s: Store, policy: Policy, now: int, c: Candidate)
    requires Sound(s)
    ensures IsCandidate(s, policy, now, c) <==>
              && c.decision.effectiveAt <= now
              && (|| (c.name == PENDING && s.pending == Some(c.decision))
                  || (c.name in s.overrides && FromOverride(s, s.overrides[c.name], policy) == Some(c.decision)))
  {
    hide FromOverride, Exact, Chained, Follows;
    if c.name in s.overrides && FromOverride(s, s.overrides[c.name], policy) == Some(c.decision) {
      OverrideFollows(s, s.overrides[c.name], policy);
    }
    if s.pending.Some? {
      assert Follows(s.active, s.pending.value);
    }
    FollowsLater(s, c.decision);
  }

  lemma FollowsLater(s: Store, d: Decision)
    ensures Follows(s.active, d) ==> d.sequence > s.active.sequence
  {
  }

  predicate Waits(a: Action) {
    a.AddOverride? || a.Scan?
  }

  /** Scans and new overrides leave the active and the pending decision as they are. */
  lemma {:induction false} PendingWaits(s: Store, policy: Policy, actions: seq<Action>)
    requires Sound(s) && Runs(s, policy, actions) && forall a | a in actions :: Waits(a)
    ensures var t := After(s, policy, actions); Sound(t) && t.pending == s.pending && t.active == s.active && t.history == s.history
    decreases |actions|
  {
    if actions != [] {
      assert Waits(actions[0]);
      assert forall a | a in actions[1..] :: a in actions;
      hide Sound, ValidOverrides;
      StepSound(s, policy, actions[0]);
      PendingWaits(Do(s, policy, actions[0]), policy, actions[1..]);
    }
  }

  /**
   A planned change takes effect: whatever overrides and scans come between, the first application at or
   after its time finds something to apply, and applies the plan or a candidate that the plan does not
   come after. Nothing is planned for, and nothing takes effect, before its time.
   */
  lemma PlanTakesEffect(s: Store, policy: Policy, roles: Roles, planned: int, effectiveAt: int, actions: seq<Action>, now: int, c: Candidate)
    requires Sound(s) && ValidRoles(roles) && roles != s.active.roles && planned <= effectiveAt
    requires var t := PlanDone(s, roles, planned, effectiveAt); Runs(t, policy, actions) && forall a | a in actions :: Waits(a)
    ensures var u := After(PlanDone(s, roles, planned, effectiveAt), policy, actions);
            var plan := Candidate(Planned(s.active, roles, planned, effectiveAt), PENDING);
            && (IsCandidate(u, policy, now, plan) <==> effectiveAt <= now)
            && (Can(u, policy, Apply(now, c)) && effectiveAt <= now ==> !Before(c, plan))
            && (Can(u, policy, Apply(now, c)) ==>
                 Do(u, policy, Apply(now, c)).active == c.decision && Do(u, policy, Apply(now, c)).pending == None
                 && c.decision.effectiveAt <= now)
  {
    var t := PlanDone(s, roles, planned, effectiveAt);
    var plan := Candidate(Planned(s.active, roles, planned, effectiveAt), PENDING);
    hide Sound, Planned, After, Runs, ValidOverrides, FromOverride, Before, IsCandidate, Members, ValidRoles, Follows;
    assert t.pending == Some(plan.decision);
    PlanSound(s, roles, planned, effectiveAt);
    hide PlanDone;
    PendingWaits(t, policy, actions);
    var u := After(t, policy, actions);
    DueExactly(u, policy, now, plan);
    assert plan.decision.effectiveAt == effectiveAt by {
      PlannedFor(s.active, roles, planned, effectiveAt);
    }
    if Can(u, policy, Apply(now, c)) {
      DueExactly(u, policy, now, c);
    }
  }

  lemma PlannedFor(active: Decision, roles: Roles, planned: int, effectiveAt: int)
    ensures Planned(active, roles, planned, effectiveAt).effectiveAt == effectiveAt
  {
  }

  /**
   The decision that is applied takes effect last of all that are due, and among those that take effect
   with it was created last. No candidate ever wins by its sequence number.
   */
  lemma LatestIsApplied(s: Store, policy: Policy, now: int, choice: Candidate, c: Candidate)
    requires Sound(s) && Can(s, policy, Apply(now, choice)) && IsCandidate(s, policy, now, c)
    ensures c.decision.sequence == choice.decision.sequence
    ensures c.decision.effectiveAt <= choice.decision.effectiveAt <= now
    ensures c.decision.effectiveAt == choice.decision.effectiveAt ==> c.decision.createdAt <= choice.decision.createdAt
    ensures c.decision.effectiveAt == choice.decision.effectiveAt && c.decision.createdAt == choice.decision.createdAt ==>
              !NameBefore(choice.name, c.name)
  {
    CandidateFollows(s, policy, now, c);
    CandidateFollows(s, policy, now, choice);
    DueExactly(s, policy, now, choice);
    hide Sound, IsCandidate, NameBefore, FromOverride;
  }

  /** An application uses up its file and any pending decision, puts invalid overrides aside and keeps the others. */
  lemma ApplyConsumes(s: Store, policy: Policy, now: int, choice: Candidate)
    requires PENDING !in s.overrides && Can(s, policy, Apply(now, choice))
    ensures var t := Do(s, policy, Apply(now, choice));
            && t.active == choice.decision && t.history == s.history + [choice.decision]
            && t.pending == None && choice.name !in t.overrides
            && (forall name | name != choice.name ::
                 name in t.overrides <==> name in s.overrides && FromOverride(s, s.overrides[name], policy).Some?)
            && (forall name | name in t.overrides :: t.overrides[name] == s.overrides[name])
  {
    hide FromOverride, IsCandidate, Before, SinceAfter, CoreSinceAfter, Members;
  }

  // ---------------------------------------------------------------- planning what was selected

  function RolesOf(s: Selector.Selection): Roles {
    Roles(Bucket.SetOf(s.core), Bucket.SetOf(s.boundary), Bucket.SetOf(s.probe))
  }

  lemma {:induction false} JoinedSets(a: seq<Symbol>, b: seq<Symbol>)
    requires Bucket.Distinct(a + b)
    ensures Bucket.Distinct(a) && Bucket.Distinct(b) && Bucket.SetOf(a) !! Bucket.SetOf(b)
    ensures Bucket.SetOf(a + b) == Bucket.SetOf(a) + Bucket.SetOf(b)
  {
    assert forall i | 0 <= i < |a| :: (a + b)[i] == a[i];
    assert forall i | 0 <= i < |b| :: (a + b)[|a| + i] == b[i];
  }

  /** Every selection makes valid roles, so planning it never raises: it becomes pending unless nothing changes. */
  lemma SelectionCanBePlanned(s: Store, selection: Selector.Selection, now: int, effectiveAt: int)
    requires Selector.WellFormed(selection) && now <= effectiveAt
    ensures var roles := RolesOf(selection);
            && ValidRoles(roles)
            && PlanDone(s, roles, now, effectiveAt).pending ==
                 if roles == s.active.roles then None else Some(Planned(s.active, roles, now, effectiveAt))
  {
    var all := selection.core + selection.boundary + selection.probe;
    JoinedSets(selection.core + selection.boundary, selection.probe);
    JoinedSets(selection.core, selection.boundary);
    Bucket.DistinctCard(all);
    Bucket.DistinctCard(selection.core);
    Bucket.DistinctCard(selection.boundary);
    Bucket.DistinctCard(selection.probe);
    hide Bucket.SetOf, Bucket.Distinct, Planned;
  }
}
