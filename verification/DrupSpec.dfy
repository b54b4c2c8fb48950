/** Unit propagation by plain scanning of literal sets: the reference for the
    two-watched-literal checker of druplig.c. */
module DrupSpec {
  import opened Cnf

  /** Live clauses as literal sets, by clause identity. */
  type Clauses = map<nat, set<int>>

  ghost predicate SetTrue(a: Assignment, c: set<int>) {
    exists lit :: lit in c && True(a, lit)
  }

  ghost predicate ModelsSets(a: Assignment, f: Clauses) {
    forall c :: c in f ==> SetTrue(a, f[c])
  }

  ghost predicate AllTrue(a: Assignment, t: set<int>) {
    forall lit :: lit in t ==> True(a, lit)
  }

  /** Under the true literals t, clause c leaves only x. */
  predicate UnitIn(c: set<int>, t: set<int>, x: int) {
    x in c && forall lit :: lit in c && lit != x ==> -lit in t
  }

  predicate FalseIn(c: set<int>, t: set<int>) {
    forall lit :: lit in c ==> -lit in t
  }

  predicate Unit(f: Clauses, t: set<int>, x: int) {
    exists c :: c in f && UnitIn(f[c], t, x)
  }

  predicate Falsified(f: Clauses, t: set<int>) {
    exists c :: c in f && FalseIn(f[c], t)
  }

  predicate Clash(t: set<int>) {
    exists lit :: lit in t && -lit in t
  }

  /** Each step is a unit under the base and the earlier steps. */
  predicate Derivation(f: Clauses, base: set<int>, steps: seq<int>) {
    forall k :: 0 <= k < |steps| ==> Unit(f, base + LitSet(steps[..k]), steps[k])
  }

  /** Unit propagation from base can reach a conflict. */
  ghost predicate Rup(f: Clauses, base: set<int>) {
    exists steps :: Derivation(f, base, steps) && Refutes(f, base + LitSet(steps))
  }

  predicate Refutes(f: Clauses, t: set<int>) {
    Falsified(f, t) || Clash(t)
  }

  /** No clause is falsified or unit: each is satisfied or has two open literals. */
  ghost predicate Closed(f: Clauses, t: set<int>) {
    forall c :: c in f ==> Settled(f[c], t)
  }

  ghost predicate Settled(c: set<int>, t: set<int>) {
    (exists lit :: lit in c && lit in t) ||
    (exists x, y :: x in c && y in c && x != y && -x !in t && -y !in t)
  }

  lemma UnitSound(a: Assignment, f: Clauses, t: set<int>, x: int)
    requires ModelsSets(a, f) && AllTrue(a, t) && Unit(f, t, x) && 0 !in t
    requires forall c :: c in f ==> 0 !in f[c]
    ensures True(a, x) && x != 0
  {
    var c :| c in f && UnitIn(f[c], t, x);
    assert SetTrue(a, f[c]);
  }

  /** A derivation without its last step. */
  lemma DerivationInit(f: Clauses, base: set<int>, steps: seq<int>)
    requires Derivation(f, base, steps) && steps != []
    ensures var n := |steps| - 1;
            Derivation(f, base, steps[..n]) && Unit(f, base + LitSet(steps[..n]), steps[n]) &&
            LitSet(steps) == LitSet(steps[..n]) + {steps[n]}
  {
    var n := |steps| - 1;
    assert forall k :: 0 <= k < n ==> steps[..n][..k] == steps[..k];
    assert steps == steps[..n] + [steps[n]];
  }

  lemma {:induction false} DerivationSound(a: Assignment, f: Clauses, base: set<int>, steps: seq<int>)
    requires ModelsSets(a, f) && AllTrue(a, base) && Derivation(f, base, steps) && 0 !in base
    requires forall c :: c in f ==> 0 !in f[c]
    ensures AllTrue(a, base + LitSet(steps)) && 0 !in base + LitSet(steps)
  {
    if steps != [] {
      hide Derivation, Unit, LitSet;
      var n := |steps| - 1;
      DerivationInit(f, base, steps);
      DerivationSound(a, f, base, steps[..n]);
      UnitSound(a, f, base + LitSet(steps[..n]), steps[n]);
    }
  }

  /** A model of the clauses and the base excludes reachable conflicts. */
  lemma RupSound(a: Assignment, f: Clauses, base: set<int>)
    requires ModelsSets(a, f) && AllTrue(a, base) && 0 !in base
    requires forall c :: c in f ==> 0 !in f[c]
    ensures !Rup(f, base)
  {
    forall steps | Derivation(f, base, steps) ensures !Refutes(f, base + LitSet(steps)) {
      var t := base + LitSet(steps);
      DerivationSound(a, f, base, steps);
      forall c | c in f ensures !FalseIn(f[c], t) {
        assert SetTrue(a, f[c]);
      }
      forall lit | lit in t ensures -lit !in t {
        assert True(a, lit) && lit != 0;
      }
    }
  }

  lemma SettledUnit(c: set<int>, t: set<int>, s: set<int>, x: int)
    requires Settled(c, t) && !Clash(t) && s <= t && UnitIn(c, s, x)
    ensures x in t
  {
  }

  /** A closed consistent set is never left by derivations, so it excludes conflicts. */
  lemma {:induction false} ClosedAbsorbs(f: Clauses, base: set<int>, steps: seq<int>, t: set<int>)
    requires Closed(f, t) && !Clash(t) && base <= t && Derivation(f, base, steps)
    ensures LitSet(steps) <= t
  {
    if steps != [] {
      hide Derivation, LitSet, Settled, UnitIn, Clash;
      var n := |steps| - 1;
      DerivationInit(f, base, steps);
      ClosedAbsorbs(f, base, steps[..n], t);
      var s := base + LitSet(steps[..n]);
      var c :| c in f && UnitIn(f[c], s, steps[n]);
      SettledUnit(f[c], t, s, steps[n]);
    } else {
      assert LitSet(steps) == {};
    }
  }

  lemma ClosedNotRup(f: Clauses, base: set<int>, t: set<int>)
    requires Closed(f, t) && !Clash(t) && base <= t
    ensures !Rup(f, base)
  {
    forall steps | Derivation(f, base, steps) ensures !Refutes(f, base + LitSet(steps)) {
      ClosedAbsorbs(f, base, steps, t);
      forall c | c in f ensures !FalseIn(f[c], base + LitSet(steps)) {
        assert Settled(f[c], t);
      }
    }
  }

  lemma DerivationAppend(f: Clauses, base: set<int>, steps: seq<int>, x: int)
    requires Derivation(f, base, steps) && Unit(f, base + LitSet(steps), x)
    ensures Derivation(f, base, steps + [x])
  {
    var more := steps + [x];
    forall k | 0 <= k < |more| ensures Unit(f, base + LitSet(more[..k]), more[k]) {
      assert more[..k] == steps[..k];
      assert steps[..|steps|] == steps;
    }
  }

  lemma UnitMonotone(f: Clauses, g: Clauses, t: set<int>, t': set<int>, x: int)
    requires Unit(f, t, x) && t <= t' && forall c :: c in f ==> c in g && g[c] == f[c]
    ensures Unit(g, t', x)
  {
    var c :| c in f && UnitIn(f[c], t, x);
    assert UnitIn(g[c], t', x);
  }

  /** More clauses and a larger base allow the same steps. */
  lemma DerivationMonotone(f: Clauses, g: Clauses, base: set<int>, base': set<int>, steps: seq<int>)
    requires Derivation(f, base, steps) && base <= base' && forall c :: c in f ==> c in g && g[c] == f[c]
    ensures Derivation(g, base', steps)
  {
    hide Unit;
    forall k | 0 <= k < |steps| ensures Unit(g, base' + LitSet(steps[..k]), steps[k]) {
      UnitMonotone(f, g, base + LitSet(steps[..k]), base' + LitSet(steps[..k]), steps[k]);
    }
  }

  lemma FalsifiedMonotone(f: Clauses, g: Clauses, t: set<int>, t': set<int>)
    requires Falsified(f, t) && t <= t' && forall c :: c in f ==> c in g && g[c] == f[c]
    ensures Falsified(g, t')
  {
    var c :| c in f && FalseIn(f[c], t);
    assert FalseIn(g[c], t');
  }

  /** A conflict stays reachable with more clauses and a larger base. */
  lemma RupMonotone(f: Clauses, g: Clauses, base: set<int>, base': set<int>)
    requires Rup(f, base) && base <= base' && forall c :: c in f ==> c in g && g[c] == f[c]
    ensures Rup(g, base')
  {
    hide Derivation, Falsified;
    var steps :| Derivation(f, base, steps) && Refutes(f, base + LitSet(steps));
    DerivationMonotone(f, g, base, base', steps);
    if Falsified(f, base + LitSet(steps)) {
      FalsifiedMonotone(f, g, base + LitSet(steps), base' + LitSet(steps));
    }
    assert Refutes(g, base' + LitSet(steps));
  }

  /** A conflict of the base and derived literals is a conflict of the base. */
  lemma RefutesRup(f: Clauses, base: set<int>, steps: seq<int>, t: set<int>)
    requires Derivation(f, base, steps) && t <= base + LitSet(steps) && Refutes(f, t)
    ensures Rup(f, base)
  {
    hide Derivation;
    if Falsified(f, t) {
      FalsifiedMonotone(f, f, t, base + LitSet(steps));
    }
    assert Refutes(f, base + LitSet(steps));
  }
}
