/** And-inverter graphs: variable 0 is false, literal 2v + s is variable v, negated
    when s is 1, and the variables in defs are AND gates over two literals. */
module Aig {

  datatype And = And(lhs: nat, rhs0: nat, rhs1: nat)
  datatype Latch = Latch(lit: nat, next: nat, reset: nat)

  type Defs = map<nat, (nat, nat)>

  predicate Child(defs: Defs, v: nat, c: nat) {
    v in defs && (c == defs[v].0 / 2 || c == defs[v].1 / 2)
  }

  /** A ranking of the gates that falls from a gate to its gate children. */
  ghost predicate Ranked(defs: Defs, rank: map<nat, nat>) {
    forall v, c :: v in defs && c in defs && Child(defs, v, c) ==>
      v in rank && c in rank && rank[c] < rank[v]
  }

  ghost predicate Acyclic(defs: Defs) {
    exists rank :: Ranked(defs, rank)
  }

  function RankOf(rank: map<nat, nat>, v: nat): nat {
    if v in rank then rank[v] else 0
  }

  /** The value of a literal when env are the true inputs and latches. */
  ghost function Eval(defs: Defs, rank: map<nat, nat>, env: iset<nat>, lit: nat): bool
    requires Ranked(defs, rank)
    decreases RankOf(rank, lit / 2), if lit / 2 in defs then 1 else 0, lit % 2
  {
    var v := lit / 2;
    if lit % 2 == 1 then !Eval(defs, rank, env, lit - 1)
    else if v == 0 then false
    else if v !in defs then v in env
    else
      Value(defs, rank, env, v, defs[v].0) && Value(defs, rank, env, v, defs[v].1)
  }

  /** The value of a child literal of gate v. */
  ghost function Value(defs: Defs, rank: map<nat, nat>, env: iset<nat>, v: nat, lit: nat): bool
    requires Ranked(defs, rank) && v in defs && (lit == defs[v].0 || lit == defs[v].1)
    decreases RankOf(rank, v), 0, 0
  {
    var c := lit / 2;
    if c in defs then
      assert Child(defs, v, c);
      Eval(defs, rank, env, lit)
    else if c == 0 then lit % 2 == 1
    else (c in env) == (lit % 2 == 0)
  }

  // ----- paths -----

  ghost predicate Path(defs: Defs, p: seq<nat>) {
    p != [] && forall i :: 0 <= i < |p| - 1 ==> Child(defs, p[i], p[i + 1])
  }

  ghost predicate Reaches(defs: Defs, u: nat, v: nat) {
    exists p :: Path(defs, p) && p[0] == u && p[|p| - 1] == v
  }

  /** Some gate reaches itself through at least one right-hand side. */
  ghost predicate Cyclic(defs: Defs) {
    exists p :: Path(defs, p) && |p| >= 2 && p[0] == p[|p| - 1]
  }

  /** Ranks fall along a path that stays on gates. */
  lemma {:induction false} RankFalls(defs: Defs, rank: map<nat, nat>, p: seq<nat>)
    requires Ranked(defs, rank) && Path(defs, p) && |p| >= 2 && p[|p| - 1] in defs
    ensures p[0] in rank && p[|p| - 1] in rank && rank[p[|p| - 1]] < rank[p[0]]
  {
    assert Child(defs, p[0], p[1]);
    if |p| > 2 {
      var q := p[1..];
      assert Path(defs, q) by {
        forall i | 0 <= i < |q| - 1 ensures Child(defs, q[i], q[i + 1]) {
          assert Child(defs, p[i + 1], p[i + 2]);
        }
      }
      assert Child(defs, p[1], p[2]);
      RankFalls(defs, rank, q);
    }
  }

  lemma AcyclicNoCycle(defs: Defs)
    requires Acyclic(defs)
    ensures !Cyclic(defs)
  {
    var rank :| Ranked(defs, rank);
    forall p | Path(defs, p) && |p| >= 2 ensures p[0] != p[|p| - 1] {
      assert Child(defs, p[0], p[1]);
      if p[|p| - 1] in defs {
        RankFalls(defs, rank, p);
      }
    }
  }

  /** A set closed under children contains whatever its members reach. */
  lemma {:induction false} ClosedReaches(defs: Defs, s: set<nat>, p: seq<nat>)
    requires Path(defs, p) && p[0] in s
    requires forall v, c :: v in s && c in defs && Child(defs, v, c) ==> c in s
    ensures p[|p| - 1] in defs ==> p[|p| - 1] in s
  {
    if |p| >= 2 {
      var n := |p| - 1;
      assert Path(defs, p[..n]);
      assert Child(defs, p[n - 1], p[n]);
      ClosedReaches(defs, s, p[..n]);
    }
  }
}
