/** Propositional logic over DIMACS literals, shared by every tool model.
    A literal is a nonzero integer, a clause a sequence of literals, and an
    assignment the set of variables it makes true. */
module Cnf {

  type Clause = seq<int>
  type Assignment = iset<int>

  ghost predicate True(a: Assignment, lit: int) {
    if lit > 0 then lit in a else -lit !in a
  }

  ghost predicate Satisfies(a: Assignment, c: Clause) {
    exists lit :: lit in c && True(a, lit)
  }

  ghost predicate Models(a: Assignment, f: set<Clause>) {
    forall c :: c in f ==> Satisfies(a, c)
  }

  ghost predicate Satisfiable(f: set<Clause>) {
    exists a :: Models(a, f)
  }

  ghost predicate Implies(f: set<Clause>, c: Clause) {
    forall a :: Models(a, f) ==> Satisfies(a, c)
  }

  ghost predicate FalsifiesAll(a: Assignment, lits: set<int>) {
    forall lit :: lit in lits ==> !True(a, lit)
  }

  predicate NonZero(c: seq<int>) {
    0 !in c
  }

  predicate Tautology(c: Clause) {
    exists lit :: lit in c && -lit in c
  }

  function LitSet(c: Clause): set<int> {
    set lit | lit in c
  }

  /** The assignment a with literal p made true. */
  ghost function Flip(a: Assignment, p: int): Assignment {
    if p > 0 then a + iset{p} else a - iset{-p}
  }

  lemma FlipMeaning(a: Assignment, p: int, lit: int)
    requires p != 0 && lit != 0
    ensures True(Flip(a, p), p)
    ensures lit != -p && True(a, lit) ==> True(Flip(a, p), lit)
  {
  }
}
