/**
 What the selection does, exactly: when it fails closed or raises, which symbols replace the inactive core,
 which are promoted, and what the candidate buckets are made from.
 */
module SelectorExact {
  import opened Base
  import opened Bucket
  import opened BucketExact
  import opened Selector

  // ---------------------------------------------------------------- inactive core symbols

  /** The stable symbols outside the active core, best first. */
  function Reserve(active: Decision, m: Market): seq<Symbol> {
    Outside(m.stable, SetOf(active.core))
  }

  /** How many core symbols are inactive. */
  function Vacancies(active: Decision, m: Market): nat {
    |SetOf(active.core) * m.inactive|
  }

  /** The eligible core symbols with the best of the reserve in the places of the others. */
  function Refilled(active: Decision, m: Market): set<Symbol>
    requires Vacancies(active, m) <= |Reserve(active, m)|
  {
    SetOf(active.core) - m.inactive + SetOf(Reserve(active, m)[..Vacancies(active, m)])
  }

  lemma FirstFreeIs(pool: seq<Symbol>, taken: set<Symbol>, n: nat)
    requires n <= |pool| && (forall x | x in pool[..n] :: x in taken) && (forall x | x in pool[n..] :: x !in taken)
    ensures FirstFree(pool, taken) == if n == |pool| then None else Some(pool[n])
    decreases n
  {
    if n > 0 {
      assert pool[..n][0] == pool[0];
      assert pool[1..][..n - 1] == pool[..n][1..] && pool[1..][n - 1..] == pool[n..];
      assert forall x | x in pool[..n][1..] :: x in pool[..n];
      FirstFreeIs(pool[1..], taken, n - 1);
    } else if pool != [] {
      assert pool[n..][0] == pool[0];
    }
  }

  /** `n` of the pool are used up; the inactive symbols from place `i` on take the next ones. */
  lemma {:induction false} CoreReplacedFrom(core: seq<Symbol>, i: nat, inactive: set<Symbol>, pool: seq<Symbol>, n: nat)
    requires i <= |core| && n <= |pool| && Distinct(core) && Distinct(pool)
    requires forall j | 0 <= j < i :: core[j] !in inactive
    requires forall x | x in pool :: x !in inactive
    requires SetOf(pool[..n]) <= SetOf(core) && SetOf(pool[n..]) !! SetOf(core)
    ensures RefillsFrom(SetOf(core), inactive, pool, n, CoreReplaced(core, i, inactive, pool))
    decreases |core| - i
  {
    hide Distinct, RefillsFrom, FirstFree;
    if i == |core| {
      RefillsNone(core, inactive, pool, n);
    } else if core[i] !in inactive {
      CoreReplacedFrom(core, i + 1, inactive, pool, n);
      hide SetOf;
    } else {
      FirstFreeIs(pool, SetOf(core), n);
      if n == |pool| {
        TooFew(core, i, inactive, pool);
        hide SetOf;
      } else {
        assert pool[n] in pool && pool[n] !in inactive;
        var next := core[i := pool[n]];
        CoreReplacedOne(core, i, inactive, pool, n);
        hide SetOf;
        CoreReplacedFrom(next, i + 1, inactive, pool, n + 1);
        RefillsOne(SetOf(core), SetOf(next), inactive, pool, n, CoreReplaced(next, i + 1, inactive, pool));
      }
    }
  }

  lemma RefillsNone(core: seq<Symbol>, inactive: set<Symbol>, pool: seq<Symbol>, n: nat)
    requires n <= |pool| && SetOf(pool[..n]) <= SetOf(core) && forall j | 0 <= j < |core| :: core[j] !in inactive
    ensures RefillsFrom(SetOf(core), inactive, pool, n, Some(core))
  {
    NoneInactive(core, inactive);
    hide SetOf;
    var used := SetOf(pool[..n]);
    assert SetOf(core) == SetOf(core) - inactive + used by {
      assert SetOf(core) - inactive == SetOf(core);
    }
    assert n + |SetOf(core) * inactive| == n;
  }

  lemma NoneInactive(core: seq<Symbol>, inactive: set<Symbol>)
    requires forall j | 0 <= j < |core| :: core[j] !in inactive
    ensures SetOf(core) * inactive == {}
  {
  }

  lemma TooFew(core: seq<Symbol>, i: nat, inactive: set<Symbol>, pool: seq<Symbol>)
    requires i < |core| && core[i] in inactive
    ensures RefillsFrom(SetOf(core), inactive, pool, |pool|, None)
  {
    assert core[i] in SetOf(core) * inactive;
    hide SetOf;
  }

  /** The inactive symbols of the core make way for the next of the pool, if there are enough. */
  predicate RefillsFrom(core: set<Symbol>, inactive: set<Symbol>, pool: seq<Symbol>, n: nat, r: Option<seq<Symbol>>) {
    var need := |core * inactive|;
    && (r.None? <==> |pool| < n + need)
    && (r.Some? ==> SetOf(r.value) == core - inactive + SetOf(pool[..n + need]))
  }

  lemma RefillsOne(core: set<Symbol>, next: set<Symbol>, inactive: set<Symbol>, pool: seq<Symbol>, n: nat, r: Option<seq<Symbol>>)
    requires n < |pool| && RefillsFrom(next, inactive, pool, n + 1, r)
    requires |next * inactive| + 1 == |core * inactive| && next - inactive == core - inactive + {pool[n]}
    ensures RefillsFrom(core, inactive, pool, n, r)
  {
    hide SetOf;
    var need := |next * inactive|;
    if n + 1 + need <= |pool| {
      NthIn(pool, n, n + 1 + need);
      AddAgain(core - inactive, pool[n], SetOf(pool[..n + 1 + need]));
    }
  }

  lemma AddAgain(a: set<Symbol>, x: Symbol, b: set<Symbol>)
    requires x in b
    ensures a + {x} + b == a + b
  {
  }

  lemma NthIn(pool: seq<Symbol>, n: nat, k: nat)
    requires n < k <= |pool|
    ensures pool[n] in SetOf(pool[..k])
  {
    assert pool[..k][n] == pool[n];
  }

  /** Eligible symbols stay where they are in the list. */
  predicate KeepsPlaces(core: seq<Symbol>, list: seq<Symbol>, inactive: set<Symbol>) {
    |list| == |core| && forall j | 0 <= j < |core| :: core[j] !in inactive ==> list[j] == core[j]
  }

  lemma {:induction false} CoreReplacedPlaces(core: seq<Symbol>, i: nat, inactive: set<Symbol>, pool: seq<Symbol>)
    requires i <= |core| && forall x | x in pool :: x !in inactive
    ensures var r := CoreReplaced(core, i, inactive, pool); r.Some? ==> KeepsPlaces(core, r.value, inactive)
    decreases |core| - i
  {
    if i < |core| {
      if core[i] !in inactive {
        CoreReplacedPlaces(core, i + 1, inactive, pool);
      } else {
        var replacement := FirstFree(pool, SetOf(core));
        if replacement.Some? {
          CoreReplacedPlaces(core[i := replacement.value], i + 1, inactive, pool);
        }
      }
    }
  }

  lemma CoreReplacedOne(core: seq<Symbol>, i: nat, inactive: set<Symbol>, pool: seq<Symbol>, n: nat)
    requires i < |core| && n < |pool| && Distinct(core) && Distinct(pool) && core[i] in inactive
    requires forall x | x in pool :: x !in inactive
    requires SetOf(pool[..n]) <= SetOf(core) && SetOf(pool[n..]) !! SetOf(core)
    ensures var next := core[i := pool[n]];
            && Distinct(next) && SetOf(pool[..n + 1]) <= SetOf(next) && SetOf(pool[n + 1..]) !! SetOf(next)
            && |SetOf(next) * inactive| + 1 == |SetOf(core) * inactive|
            && SetOf(next) - inactive == SetOf(core) - inactive + {pool[n]}
  {
    var next := core[i := pool[n]];
    assert pool[n] in SetOf(pool[n..]) && pool[n] in pool;
    UpdatedSet(core, i, pool[n]);
    assert SetOf(pool[..n + 1]) == SetOf(pool[..n]) + {pool[n]} by {
      assert pool[..n + 1] == pool[..n] + [pool[n]];
    }
    forall x | x in pool[..n]
      ensures x != core[i]
    {
      assert x in pool;
    }
    forall x | x in pool[n + 1..]
      ensures x in pool[n..] && x != pool[n]
    {
    }
    assert SetOf(next) * inactive == SetOf(core) * inactive - {core[i]};
  }

  lemma UpdatedSet(s: seq<Symbol>, i: nat, x: Symbol)
    requires Distinct(s) && i < |s| && x !in s
    ensures Distinct(s[i := x]) && SetOf(s[i := x]) == SetOf(s) - {s[i]} + {x}
  {
    var next := s[i := x];
    forall y | y in s && y != s[i]
      ensures y in next
    {
      var j :| 0 <= j < |s| && s[j] == y;
      assert next[j] == y;
    }
    assert next[i] == x;
  }

  /** The inactive core symbols give way to as many of the best of the reserve, or there are too few of them. */
  lemma RefilledExactly(active: Decision, m: Market)
    requires Valid(active) && WellRanked(m)
    ensures var r := CoreReplaced(active.core, 0, m.inactive, Reserve(active, m));
            && (r.None? <==> |Reserve(active, m)| < Vacancies(active, m))
            && (r.Some? ==> SetOf(r.value) == Refilled(active, m) && |r.value| == 50 && Distinct(r.value))
            && (r.Some? ==> KeepsPlaces(active.core, r.value, m.inactive))
            && (r.Some? ==> |SetOf(active.core) - Refilled(active, m)| == Vacancies(active, m))
  {
    var pool := Reserve(active, m);
    assert pool[..0] == [];
    CoreReplacedOk(active.core, 0, m.inactive, pool);
    CoreReplacedPlaces(active.core, 0, m.inactive, pool);
    hide KeepsPlaces;
    RefilledFrom(active, m);
    if Vacancies(active, m) <= |pool| {
      hide CoreReplaced, Distinct;
      assert SetOf(active.core) - Refilled(active, m) == SetOf(active.core) * m.inactive by {
        assert forall x | x in pool[..Vacancies(active, m)] :: x in pool;
      }
    }
    hide CoreReplaced, Reserve, SetOf;
  }

  lemma RefilledFrom(active: Decision, m: Market)
    requires Valid(active) && WellRanked(m)
    ensures var r := CoreReplaced(active.core, 0, m.inactive, Reserve(active, m));
            && (r.None? <==> |Reserve(active, m)| < Vacancies(active, m))
            && (r.Some? ==> SetOf(r.value) == Refilled(active, m))
  {
    var pool := Reserve(active, m);
    assert pool[..0] == [];
    hide CoreReplaced, Distinct;
    CoreReplacedFrom(active.core, 0, m.inactive, pool, 0);
  }

  // ---------------------------------------------------------------- promotions

  predicate Ascending(s: seq<Symbol>, stable: seq<Symbol>) {
    forall i, j :: 0 <= i < j < |s| ==> Rank(stable, s[i]) < Rank(stable, s[j])
  }

  /**
   Promotion of the first `n` entrants: they replace the `n` worst of the removable symbols, each ranked
   below all of them; and no further one could be promoted.
   */
  ghost predicate Promotion(before: set<Symbol>, after: set<Symbol>, entrants: seq<Symbol>, n: nat, limit: int, w: Weekly) {
    && n <= |entrants| && n <= Max(0, limit)
    && after - before == SetOf(entrants[..n]) && |before - after| == n
    && (forall x | x in before - after :: Worse(before * after, x, w) && Beaten(x, entrants, n, w))
    && (n == |entrants| || n >= limit || NoBetter(after, entrants[n], w))
  }

  /** A removable symbol, and none of `staying` that is removable ranks below it. */
  predicate Worse(staying: set<Symbol>, x: Symbol, w: Weekly) {
    CoreRemovable(w, x) && forall y | y in staying && CoreRemovable(w, y) :: Rank(w.stable, y) <= Rank(w.stable, x)
  }

  /** The first `n` entrants all rank above the symbol. */
  predicate Beaten(x: Symbol, entrants: seq<Symbol>, n: nat, w: Weekly)
    requires n <= |entrants|
  {
    forall i | 0 <= i < n :: Rank(w.stable, entrants[i]) < Rank(w.stable, x)
  }

  /** No removable symbol ranks below `entrant`. */
  predicate NoBetter(core: set<Symbol>, entrant: Symbol, w: Weekly) {
    forall y | y in core && CoreRemovable(w, y) :: Rank(w.stable, y) <= Rank(w.stable, entrant)
  }

  lemma PromotionNone(core: seq<Symbol>, entrants: seq<Symbol>, limit: int, w: Weekly)
    requires entrants == [] || limit <= 0 || NoBetter(SetOf(core), entrants[0], w)
    ensures Promotion(SetOf(core), SetOf(core), entrants, 0, limit, w)
  {
    hide Worse, NoBetter;
    assert entrants[..0] == [];
    assert SetOf(core) - SetOf(core) == {};
  }

  lemma PromotionOne(core: seq<Symbol>, k: nat, after: set<Symbol>, entrants: seq<Symbol>, n: nat, limit: int, w: Weekly)
    requires Distinct(core) && k < |core| && entrants != [] && Ascending(entrants, w.stable) && limit > 0
    requires forall x | x in entrants :: x !in core
    requires Worse(SetOf(core), core[k], w) && Rank(w.stable, entrants[0]) < Rank(w.stable, core[k])
    requires Promotion(SetOf(core[k := entrants[0]]), after, entrants[1..], n, limit - 1, w)
    ensures Promotion(SetOf(core), after, entrants, n + 1, limit, w)
  {
    hide CoreRemovable, Rank, NoBetter, Worse, Beaten, SetOf, Distinct, Ascending;
    var (before, next, rest) := (SetOf(core), SetOf(core[k := entrants[0]]), entrants[1..]);
    FirstEnters(core, k, entrants);
    FirstEntrants(entrants, n, before);
    EntrantStays(next, after, entrants, n, limit - 1, w);
    SetsOne(before, next, after, SetOf(rest[..n]), entrants[0], core[k]);
    LeaverRanks(next, after, entrants, n, limit - 1, w, before, core[k]);
    OthersRank(next, after, entrants, n, limit - 1, w, before, core[k]);
    StillWorse(before, before * after, core[k], w);
  }

  lemma FirstEnters(core: seq<Symbol>, k: nat, entrants: seq<Symbol>)
    requires Distinct(core) && k < |core| && entrants != [] && forall x | x in entrants :: x !in core
    ensures core[k] in SetOf(core) && entrants[0] !in SetOf(core)
    ensures SetOf(core[k := entrants[0]]) == SetOf(core) - {core[k]} + {entrants[0]}
    ensures forall x | x in entrants :: x !in SetOf(core)
  {
    assert entrants[0] in entrants;
    UpdatedSet(core, k, entrants[0]);
  }

  lemma FirstEntrants(entrants: seq<Symbol>, n: nat, before: set<Symbol>)
    requires n < |entrants| && forall x | x in entrants :: x !in before
    ensures SetOf(entrants[..n + 1]) == SetOf(entrants[1..][..n]) + {entrants[0]} && SetOf(entrants[1..][..n]) !! before
    ensures n < |entrants[1..]| ==> entrants[1..][n] == entrants[n + 1]
  {
    var rest := entrants[1..];
    assert entrants[..n + 1] == [entrants[0]] + rest[..n];
    assert forall x | x in rest[..n] :: x in entrants;
  }

  lemma StillWorse(all: set<Symbol>, some: set<Symbol>, x: Symbol, w: Weekly)
    requires Worse(all, x, w) && some <= all
    ensures Worse(some, x, w)
  {
    hide CoreRemovable, Rank;
  }

  lemma SetsOne(before: set<Symbol>, next: set<Symbol>, after: set<Symbol>, rest: set<Symbol>, c: Symbol, out: Symbol)
    requires out in before && c !in before && next == before - {out} + {c} && c in after
    requires rest !! before && after - next == rest
    ensures out !in after && after - before == rest + {c} && before - after == (next - after) + {out} && |before - after| == |next - after| + 1
  {
  }

  /** An entrant is not replaced by a later one: those rank below it. */
  lemma EntrantStays(next: set<Symbol>, after: set<Symbol>, entrants: seq<Symbol>, n: nat, limit: int, w: Weekly)
    requires entrants != [] && Ascending(entrants, w.stable) && entrants[0] in next
    requires Promotion(next, after, entrants[1..], n, limit, w)
    ensures entrants[0] in after
  {
    hide Rank, Worse, NoBetter;
    forall x | x in next - after
      ensures x != entrants[0]
    {
      assert n > 0;
      assert entrants[1..][0] == entrants[1];
      assert Rank(w.stable, entrants[1..][0]) < Rank(w.stable, x);
    }
    assert entrants[0] !in next - after;
  }

  lemma OthersRank(next: set<Symbol>, after: set<Symbol>, entrants: seq<Symbol>, n: nat, limit: int, w: Weekly,
                   before: set<Symbol>, out: Symbol)
    requires entrants != [] && Ascending(entrants, w.stable) && Promotion(next, after, entrants[1..], n, limit, w)
    requires next == before - {out} + {entrants[0]} && entrants[0] in after
    requires Worse(before, out, w) && out !in after
    ensures forall x | x in next - after ::
              Worse(before * after, x, w) && Beaten(x, entrants, n + 1, w)
  {
    hide CoreRemovable, Rank, NoBetter;
    forall x | x in next - after
      ensures Worse(before * after, x, w) && Beaten(x, entrants, n + 1, w)
    {
      assert n > 0;
      assert Worse(next * after, x, w);
      forall i | 0 <= i < n + 1
        ensures Rank(w.stable, entrants[i]) < Rank(w.stable, x)
      {
        assert entrants[1..][0] == entrants[1];
        if i > 0 {
          assert entrants[i] == entrants[1..][i - 1];
        }
      }
    }
  }

  lemma LeaverRanks(next: set<Symbol>, after: set<Symbol>, entrants: seq<Symbol>, n: nat, limit: int, w: Weekly,
                    before: set<Symbol>, x0: Symbol)
    requires entrants != [] && Promotion(next, after, entrants[1..], n, limit, w)
    requires Worse(before, x0, w) && Rank(w.stable, entrants[0]) < Rank(w.stable, x0)
    requires next == before - {x0} + {entrants[0]} && entrants[0] in after
    ensures Beaten(x0, entrants, n + 1, w)
  {
    hide Rank, NoBetter;
    if n > 0 {
      assert next - after != {};
      var x :| x in next - after;
      assert Worse(next * after, x, w);
      assert x in before;
      forall i | 0 <= i < n + 1
        ensures Rank(w.stable, entrants[i]) < Rank(w.stable, x0)
      {
        if i > 0 {
          assert entrants[i] == entrants[1..][i - 1];
        }
      }
    }
  }

  lemma WorstIsWorse(core: seq<Symbol>, w: Weekly)
    ensures var worst := Worst(core, |core|, w);
            && (worst.Some? ==> Worse(SetOf(core), core[worst.value], w))
            && (worst.None? ==> forall y | y in core :: !CoreRemovable(w, y))
  {
    hide Rank, CoreRemovable;
  }

  ghost predicate SomePromotion(before: set<Symbol>, after: set<Symbol>, entrants: seq<Symbol>, limit: int, w: Weekly) {
    exists n :: Promotion(before, after, entrants, n, limit, w)
  }

  lemma {:induction false} PromotedExactly(core: seq<Symbol>, entrants: seq<Symbol>, changes: int, w: Weekly)
    requires Distinct(core) && Ascending(entrants, w.stable) && forall x | x in entrants :: x !in core
    ensures SomePromotion(SetOf(core), SetOf(Promoted(core, entrants, changes, w)), entrants, w.policy.coreWeeklyReplacements - changes, w)
    decreases |entrants|
  {
    hide CoreRemovable, Rank, Worse, NoBetter, Promotion;
    var limit := w.policy.coreWeeklyReplacements - changes;
    WorstIsWorse(core, w);
    var worst := Worst(core, |core|, w);
    hide Worst;
    if entrants == [] || limit <= 0 || worst.None? || Rank(w.stable, entrants[0]) >= Rank(w.stable, core[worst.value]) {
      if entrants != [] && limit > 0 {
        NoneBetter(core, entrants[0], w);
      }
      PromotionNone(core, entrants, limit, w);
    } else {
      var k := worst.value;
      var next, rest := core[k := entrants[0]], entrants[1..];
      NextEntrants(core, k, entrants, w);
      PromotedExactly(next, rest, changes + 1, w);
      var n :| Promotion(SetOf(next), SetOf(Promoted(next, rest, changes + 1, w)), rest, n, limit - 1, w);
      PromotionOne(core, k, SetOf(Promoted(next, rest, changes + 1, w)), entrants, n, limit, w);
    }
  }

  lemma NoneBetter(core: seq<Symbol>, entrant: Symbol, w: Weekly)
    requires var worst := Worst(core, |core|, w); worst.None? || Rank(w.stable, entrant) >= Rank(w.stable, core[worst.value])
    ensures NoBetter(SetOf(core), entrant, w)
  {
    hide Rank, CoreRemovable;
  }

  /** Of removable symbols with the same rank the first in the list goes. */
  predicate TiesFirst(core: seq<Symbol>, after: set<Symbol>, w: Weekly) {
    forall i, j | 0 <= i < j < |core| && core[j] !in after && Tied(core[i], core[j], w) :: core[i] !in after
  }

  predicate Tied(x: Symbol, y: Symbol, w: Weekly) {
    CoreRemovable(w, x) && Rank(w.stable, x) == Rank(w.stable, y)
  }

  lemma {:induction false} WorstIsFirst(core: seq<Symbol>, n: nat, w: Weekly)
    requires n <= |core| && Worst(core, n, w).Some?
    ensures forall j | 0 <= j < Worst(core, n, w).value ::
              CoreRemovable(w, core[j]) ==> Rank(w.stable, core[j]) < Rank(w.stable, core[Worst(core, n, w).value])
  {
    hide Rank, CoreRemovable;
    if Worst(core, n - 1, w).Some? {
      WorstIsFirst(core, n - 1, w);
    }
  }

  lemma {:induction false} PromotedTies(core: seq<Symbol>, entrants: seq<Symbol>, changes: int, w: Weekly)
    requires Distinct(core) && Ascending(entrants, w.stable) && forall x | x in entrants :: x !in core
    ensures TiesFirst(core, SetOf(Promoted(core, entrants, changes, w)), w)
    decreases |entrants|
  {
    hide CoreRemovable, Rank;
    var worst := Worst(core, |core|, w);
    if entrants != [] && changes < w.policy.coreWeeklyReplacements && worst.Some? &&
       Rank(w.stable, entrants[0]) < Rank(w.stable, core[worst.value]) {
      var k := worst.value;
      WorstIsFirst(core, |core|, w);
      NextEntrants(core, k, entrants, w);
      hide Distinct, Ascending;
      var next := core[k := entrants[0]];
      PromotedTies(next, entrants[1..], changes + 1, w);
      PromotedStays(core, k, entrants, changes, w);
      var after := SetOf(Promoted(core, entrants, changes, w));
      assert after == SetOf(Promoted(next, entrants[1..], changes + 1, w));
      hide Promoted, SetOf, Worst;
      forall i, j | 0 <= i < j < |core| && core[j] !in after && Tied(core[i], core[j], w)
        ensures core[i] !in after
      {
        if i != k {
          assert j != k && next[i] == core[i] && next[j] == core[j];
        }
      }
    } else {
      assert SetOf(Promoted(core, entrants, changes, w)) == SetOf(core);
    }
  }

  /** A promoted-out symbol does not come back. */
  lemma PromotedStays(core: seq<Symbol>, k: nat, entrants: seq<Symbol>, changes: int, w: Weekly)
    requires Distinct(core) && Ascending(entrants, w.stable) && (forall x | x in entrants :: x !in core)
    requires k < |core| && entrants != []
    ensures core[k] !in SetOf(Promoted(core[k := entrants[0]], entrants[1..], changes + 1, w))
  {
    hide Rank;
    var next, rest := core[k := entrants[0]], entrants[1..];
    NextEntrants(core, k, entrants, w);
    UpdatedSet(core, k, entrants[0]);
    assert core[k] !in SetOf(next);
    assert forall x | x in rest :: x in entrants;
    PromotedIn(next, rest, changes + 1, w);
  }

  lemma {:induction false} PromotedIn(core: seq<Symbol>, entrants: seq<Symbol>, changes: int, w: Weekly)
    ensures forall x | x in Promoted(core, entrants, changes, w) :: x in core || x in entrants
    decreases |entrants|
  {
    hide Rank, CoreRemovable, Worst;
    if entrants != [] {
      var worst := Worst(core, |core|, w);
      if worst.Some? {
        PromotedIn(core[worst.value := entrants[0]], entrants[1..], changes + 1, w);
      }
    }
  }

  // Nothing is left open.

  /** A promotion that stopped lets go of at least as many as any other. */
  lemma StoppedLetsGo(before: set<Symbol>, a: set<Symbol>, b: set<Symbol>, entrants: seq<Symbol>, n: nat, k: nat, limit: int, w: Weekly)
    requires Promotion(before, a, entrants, n, limit, w) && Promotion(before, b, entrants, k, limit, w)
    ensures k <= n
  {
    hide Rank, Worse;
    if n < k {
      assert NoBetter(a, entrants[n], w);
      forall x | x in before - b
        ensures x in before - a
      {
        assert Worse(before * b, x, w) && Beaten(x, entrants, k, w);
        assert Rank(w.stable, entrants[n]) < Rank(w.stable, x);
        assert CoreRemovable(w, x) by {
          WorseRemovable(before * b, x, w);
        }
      }
      SubsetCard(before - b, before - a);
    }
  }

  lemma WorseRemovable(staying: set<Symbol>, x: Symbol, w: Weekly)
    requires Worse(staying, x, w)
    ensures CoreRemovable(w, x)
  {
  }

  /** The description leaves no choice: the promoted core is determined by the list and the entrants. */
  lemma PromotionIsDetermined(core: seq<Symbol>, a: set<Symbol>, b: set<Symbol>, entrants: seq<Symbol>, limit: int, w: Weekly)
    requires SomePromotion(SetOf(core), a, entrants, limit, w) && SomePromotion(SetOf(core), b, entrants, limit, w)
    requires TiesFirst(core, a, w) && TiesFirst(core, b, w)
    ensures a == b
  {
    hide Rank, CoreRemovable;
    var before := SetOf(core);
    var n :| Promotion(before, a, entrants, n, limit, w);
    var k :| Promotion(before, b, entrants, k, limit, w);
    StoppedLetsGo(before, a, b, entrants, n, k, limit, w);
    StoppedLetsGo(before, b, a, entrants, k, n, limit, w);
    SameLeavers(core, a, b, entrants, n, limit, w);
    hide Worse, NoBetter, Beaten, TiesFirst, SetOf;
    SetsAgree(before, a, b);
  }

  lemma SameLeavers(core: seq<Symbol>, a: set<Symbol>, b: set<Symbol>, entrants: seq<Symbol>, n: nat, limit: int, w: Weekly)
    requires Promotion(SetOf(core), a, entrants, n, limit, w) && Promotion(SetOf(core), b, entrants, n, limit, w)
    requires TiesFirst(core, a, w) && TiesFirst(core, b, w)
    ensures SetOf(core) - a == SetOf(core) - b
  {
    hide Rank, CoreRemovable, NoBetter, Beaten;
    var x, y := SetOf(core) - a, SetOf(core) - b;
    if x <= y {
      SubsetCard(x, y);
    } else {
      var u :| u in x && u !in y;
      var i :| 0 <= i < |core| && core[i] == u;
      assert Worse(SetOf(core) * a, u, w);
      forall v | v in y
        ensures v in x
      {
        assert Worse(SetOf(core) * b, v, w);
        var j :| 0 <= j < |core| && core[j] == v;
        assert i < j || j < i;
      }
      SubsetCard(y, x);
    }
  }

  lemma NextEntrants(core: seq<Symbol>, k: nat, entrants: seq<Symbol>, w: Weekly)
    requires Distinct(core) && k < |core| && entrants != [] && Ascending(entrants, w.stable)
    requires forall x | x in entrants :: x !in core
    ensures var next := core[k := entrants[0]];
            Distinct(next) && Ascending(entrants[1..], w.stable) && forall x | x in entrants[1..] :: x !in next
  {
    hide Rank;
    assert entrants[0] in entrants;
    UpdatedSet(core, k, entrants[0]);
    var next := core[k := entrants[0]];
    forall x | x in entrants[1..]
      ensures x !in next
    {
      var j :| 0 <= j < |entrants| - 1 && entrants[1..][j] == x;
      assert entrants[j + 1] == x && x in entrants;
      assert x !in SetOf(next);
    }
  }

  // ---------------------------------------------------------------- the pools, by rank

  lemma {:induction false} OutsideRanked(stable: seq<Symbol>, n: nat, out: set<Symbol>)
    requires Distinct(stable) && n <= |stable|
    ensures Ascending(Outside(stable[..n], out), stable)
    ensures forall x | x in Outside(stable[..n], out) :: Rank(stable, x) <= n
    decreases n
  {
    if n > 0 {
      OutsideRanked(stable, n - 1, out);
      assert stable[..n][..n - 1] == stable[..n - 1] && stable[..n][n - 1] == stable[n - 1];
      RankAt(stable, n - 1);
      hide Rank, Distinct;
    }
  }

  lemma RankAt(ranking: seq<Symbol>, i: nat)
    requires Distinct(ranking) && i < |ranking|
    ensures Rank(ranking, ranking[i]) == i + 1
  {
  }

  lemma {:induction false} PromotableExactly(pool: seq<Symbol>, core: seq<Symbol>, w: Weekly)
    requires Ascending(pool, w.stable)
    ensures Ascending(Promotable(pool, core, w), w.stable)
    ensures forall x :: x in Promotable(pool, core, w) <==> x in pool && x !in core && Rank(w.stable, x) <= w.policy.coreEntryRank
    decreases |pool|
  {
    hide Rank, Distinct;
    if pool != [] {
      var n := |pool| - 1;
      PromotableExactly(pool[..n], core, w);
      assert pool == pool[..n] + [pool[n]];
    }
  }

  // ---------------------------------------------------------------- the next core

  /** The entrants: the rest of the reserve that ranks high enough, best first. */
  ghost predicate Entrants(entrants: seq<Symbol>, active: Decision, refilled: set<Symbol>, m: Market, policy: Policy) {
    && Ascending(entrants, m.stable)
    && forall x :: x in entrants <==> x in m.stable && x !in active.core && x !in refilled && Rank(m.stable, x) <= policy.coreEntryRank
  }

  ghost predicate MondayPromotes(active: Decision, core: set<Symbol>, m: Market, timing: Timing, policy: Policy)
    requires Vacancies(active, m) <= |Reserve(active, m)|
  {
    exists list, entrants ::
      && KeepsPlaces(active.core, list, m.inactive) && SetOf(list) == Refilled(active, m)
      && Entrants(entrants, active, Refilled(active, m), m, policy)
      && PromotesFrom(list, core, entrants, policy.coreWeeklyReplacements - Vacancies(active, m), WeeklyOf(active, m, timing, policy))
  }

  ghost predicate PromotesFrom(list: seq<Symbol>, core: set<Symbol>, entrants: seq<Symbol>, limit: int, w: Weekly) {
    SomePromotion(SetOf(list), core, entrants, limit, w) && TiesFirst(list, core, w)
  }

  lemma PromotesExactly(active: Decision, m: Market, timing: Timing, policy: Policy, replaced: seq<Symbol>)
    requires Valid(active) && WellRanked(m) && Vacancies(active, m) <= |Reserve(active, m)|
    requires Distinct(replaced) && SetOf(replaced) == Refilled(active, m) && KeepsPlaces(active.core, replaced, m.inactive)
    ensures var w := WeeklyOf(active, m, timing, policy);
            MondayPromotes(active, SetOf(Promoted(replaced, Promotable(Reserve(active, m), replaced, w), Vacancies(active, m), w)), m, timing, policy)
  {
    hide Refilled, Promoted, Promotable, Rank, CoreRemovable, Entrants, SomePromotion, TiesFirst, KeepsPlaces, Valid, WellRanked;
    hide SetOf, Ascending, Reserve, MondayPromotes, Distinct;
    var w := WeeklyOf(active, m, timing, policy);
    var entrants := Promotable(Reserve(active, m), replaced, w);
    ReserveEnters(active, m, timing, policy, replaced);
    PromotedExactly(replaced, entrants, Vacancies(active, m), w);
    PromotedTies(replaced, entrants, Vacancies(active, m), w);
    PromotesWith(active, m, timing, policy, replaced, entrants, SetOf(Promoted(replaced, entrants, Vacancies(active, m), w)));
  }

  lemma PromotesWith(active: Decision, m: Market, timing: Timing, policy: Policy, list: seq<Symbol>, entrants: seq<Symbol>, core: set<Symbol>)
    requires Vacancies(active, m) <= |Reserve(active, m)|
    requires KeepsPlaces(active.core, list, m.inactive) && SetOf(list) == Refilled(active, m)
    requires Entrants(entrants, active, Refilled(active, m), m, policy)
    requires PromotesFrom(list, core, entrants, policy.coreWeeklyReplacements - Vacancies(active, m), WeeklyOf(active, m, timing, policy))
    ensures MondayPromotes(active, core, m, timing, policy)
  {
    hide KeepsPlaces, Entrants, Refilled, SetOf, PromotesFrom;
  }

  lemma ReserveEnters(active: Decision, m: Market, timing: Timing, policy: Policy, replaced: seq<Symbol>)
    requires Valid(active) && WellRanked(m) && Vacancies(active, m) <= |Reserve(active, m)|
    requires SetOf(replaced) == Refilled(active, m)
    ensures var entrants := Promotable(Reserve(active, m), replaced, WeeklyOf(active, m, timing, policy));
            && Entrants(entrants, active, Refilled(active, m), m, policy)
            && Ascending(entrants, m.stable) && forall x | x in entrants :: x !in replaced
  {
    hide Rank, Promotable, Refilled, Distinct;
    assert m.stable[..|m.stable|] == m.stable;
    OutsideRanked(m.stable, |m.stable|, SetOf(active.core));
    PromotableExactly(Reserve(active, m), replaced, WeeklyOf(active, m, timing, policy));
    assert forall x :: x in replaced <==> x in Refilled(active, m);
    hide Ascending;
  }

  /**
   The next core exactly. There is none when the reserve has too few symbols for the inactive ones;
   otherwise the best of the reserve take their places, and on a Monday the promotions follow.
   */
  lemma CoreExactly(active: Decision, m: Market, timing: Timing, policy: Policy)
    requires Valid(active) && WellRanked(m)
    ensures var next := NextCore(active, m, timing, policy);
            && (next.None? <==> |Reserve(active, m)| < Vacancies(active, m))
            && (next.Some? && !timing.monday ==> SetOf(next.value) == Refilled(active, m))
            && (next.Some? && timing.monday ==> MondayPromotes(active, SetOf(next.value), m, timing, policy))
  {
    RefilledExactly(active, m);
    var replaced := CoreReplaced(active.core, 0, m.inactive, Reserve(active, m));
    hide CoreReplaced, Refilled, MondayPromotes, Valid, WellRanked, Distinct, KeepsPlaces;
    if replaced.Some? && timing.monday {
      PromotesExactly(active, m, timing, policy, replaced.value);
    }
    hide Promoted, Promotable, WeeklyOf;
  }
}
