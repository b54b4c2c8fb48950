/** Renumbering an and-inverter graph: variable vars[k] becomes variable k + 1; the
    first n of vars are inputs and latches, the rest gates after their children. */
module Renumber {
  import opened Lists
  import opened Aig
  import opened AigDfs

  /** The new literal of lit; 0 for a literal without one. */
  function CodeOf(vars: seq<nat>, lit: nat): nat {
    if lit < 2 then lit
    else if lit / 2 in vars then 2 * (Position(vars, lit / 2) + 1) + lit % 2
    else 0
  }

  function Larger(a: nat, b: nat): (nat, nat) {
    if a < b then (b, a) else (a, b)
  }

  /** The right-hand sides of gate v in new literals, the larger one first. */
  function Recoded(defs: Defs, vars: seq<nat>, v: nat): (nat, nat)
    requires v in defs
  {
    Larger(CodeOf(vars, defs[v].0), CodeOf(vars, defs[v].1))
  }

  predicate GatesFrom(defs: Defs, n: nat, vars: seq<nat>) {
    n <= |vars| && forall k :: n <= k < |vars| ==> vars[k] in defs
  }

  function Range(n: nat, m: nat): (r: set<nat>)
    ensures forall k: nat :: k in r <==> n < k <= m
  {
    if m <= n then {} else Range(n, m - 1) + {m}
  }

  function Renumbered(defs: Defs, n: nat, vars: seq<nat>): Defs
    requires GatesFrom(defs, n, vars)
  {
    map k | k in Range(n, |vars|) :: Recoded(defs, vars, vars[k - 1])
  }

  /** Variable c is false itself or one of the first k. */
  predicate Placed(vars: seq<nat>, c: nat, k: nat)
    requires k <= |vars|
  {
    c == 0 || c in vars[..k]
  }

  ghost predicate Numbering(defs: Defs, n: nat, vars: seq<nat>) {
    NoDup(vars) && 0 !in vars && GatesFrom(defs, n, vars) &&
    (forall k :: 0 <= k < n ==> vars[k] !in defs) &&
    (forall k :: n <= k < |vars| ==> Placed(vars, defs[vars[k]].0 / 2, k) && Placed(vars, defs[vars[k]].1 / 2, k))
  }

  /** Position-matched values of the inputs and latches. */
  ghost predicate Matched(n: nat, vars: seq<nat>, env: iset<nat>, env': iset<nat>)
    requires n <= |vars|
  {
    forall k :: 0 <= k < n ==> (vars[k] in env <==> k + 1 in env')
  }

  lemma PositionOf(vars: seq<nat>, k: nat)
    requires NoDup(vars) && k < |vars|
    ensures Position(vars, vars[k]) == k
  {
    assert vars[Position(vars, vars[k])] == vars[k];
  }

  /** A literal of one of the first k variables. */
  ghost predicate Before(vars: seq<nat>, lit: nat, k: nat) {
    lit < 2 || (lit / 2 in vars && Position(vars, lit / 2) < k)
  }

  lemma PlacedCode(vars: seq<nat>, lit: nat, k: nat)
    requires NoDup(vars) && k <= |vars| && Placed(vars, lit / 2, k)
    ensures CodeOf(vars, lit) < 2 * (k + 1) && Before(vars, lit, k)
  {
    if lit >= 2 {
      var j :| 0 <= j < |vars[..k]| && vars[..k][j] == lit / 2;
      PositionOf(vars, j);
    }
  }

  /** A new gate lies above its right-hand sides, the first of which is the larger. */
  lemma GateAbove(defs: Defs, n: nat, vars: seq<nat>, k: nat)
    requires Numbering(defs, n, vars) && n < k <= |vars|
    ensures var rhs := Renumbered(defs, n, vars)[k]; 2 * k > rhs.0 >= rhs.1
  {
    hide CodeOf;
    var v := vars[k - 1];
    assert Placed(vars, defs[v].0 / 2, k - 1) && Placed(vars, defs[v].1 / 2, k - 1);
    PlacedCode(vars, defs[v].0, k - 1);
    PlacedCode(vars, defs[v].1, k - 1);
    assert Renumbered(defs, n, vars)[k] == Recoded(defs, vars, v);
  }

  function Identity(n: nat, m: nat): map<nat, nat> {
    map k | k in Range(n, m) :: k
  }

  lemma RenumberedRanked(defs: Defs, n: nat, vars: seq<nat>)
    requires Numbering(defs, n, vars)
    ensures Ranked(Renumbered(defs, n, vars), Identity(n, |vars|))
  {
    var defs' := Renumbered(defs, n, vars);
    forall k, c | k in defs' && c in defs' && Child(defs', k, c) ensures c < k {
      GateAbove(defs, n, vars, k);
    }
  }

  lemma ValueIsEval(defs: Defs, rank: map<nat, nat>, env: iset<nat>, v: nat, lit: nat)
    requires Ranked(defs, rank) && 0 !in defs && v in defs && (lit == defs[v].0 || lit == defs[v].1)
    ensures Value(defs, rank, env, v, lit) == Eval(defs, rank, env, lit)
  {
  }

  lemma EvalNot(defs: Defs, rank: map<nat, nat>, env: iset<nat>, lit: nat)
    requires Ranked(defs, rank) && lit % 2 == 0
    ensures Eval(defs, rank, env, lit + 1) == !Eval(defs, rank, env, lit)
  {
  }

  lemma EvalGate(defs: Defs, rank: map<nat, nat>, env: iset<nat>, v: nat)
    requires Ranked(defs, rank) && 0 !in defs && v in defs
    ensures Eval(defs, rank, env, 2 * v) == (Eval(defs, rank, env, defs[v].0) && Eval(defs, rank, env, defs[v].1))
  {
    ValueIsEval(defs, rank, env, v, defs[v].0);
    ValueIsEval(defs, rank, env, v, defs[v].1);
  }

  lemma CodeParity(vars: seq<nat>, lit: nat)
    requires lit < 2 || lit / 2 in vars
    ensures lit % 2 == 1 ==> CodeOf(vars, lit) == CodeOf(vars, lit - 1) + 1
    ensures lit % 2 == 0 ==> CodeOf(vars, lit) == if lit == 0 then 0 else 2 * (Position(vars, lit / 2) + 1)
  {
  }

  lemma EvalLeaf(defs: Defs, rank: map<nat, nat>, env: iset<nat>, v: nat)
    requires Ranked(defs, rank) && v !in defs
    ensures Eval(defs, rank, env, 2 * v) == (v != 0 && v in env)
  {
  }

  lemma LeafVar(defs: Defs, n: nat, vars: seq<nat>, k: nat)
    requires Numbering(defs, n, vars) && k < n
    ensures vars[k] !in defs && vars[k] != 0 && k + 1 !in Renumbered(defs, n, vars)
  {
  }

  lemma NumberedChildren(defs: Defs, n: nat, vars: seq<nat>, k: nat)
    requires Numbering(defs, n, vars) && n <= k < |vars|
    ensures vars[k] in defs && k + 1 in Renumbered(defs, n, vars) && Position(vars, vars[k]) == k
    ensures Before(vars, defs[vars[k]].0, k) && Before(vars, defs[vars[k]].1, k)
    ensures Renumbered(defs, n, vars)[k + 1] == Larger(CodeOf(vars, defs[vars[k]].0), CodeOf(vars, defs[vars[k]].1))
  {
    hide CodeOf, Before, Position;
    var v := vars[k];
    assert Placed(vars, defs[v].0 / 2, k) && Placed(vars, defs[v].1 / 2, k);
    PlacedCode(vars, defs[v].0, k);
    PlacedCode(vars, defs[v].1, k);
    PositionOf(vars, k);
    assert Renumbered(defs, n, vars)[k + 1] == Recoded(defs, vars, v);
  }

  lemma NumberingGates(defs: Defs, n: nat, vars: seq<nat>)
    requires Numbering(defs, n, vars)
    ensures GatesFrom(defs, n, vars)
  {
  }

  /** A renumbered literal has the value of the original under matched inputs. */
  lemma {:induction false} SameValue(defs: Defs, rank: map<nat, nat>, n: nat, vars: seq<nat>, env: iset<nat>,
                                     env': iset<nat>, lit: nat)
    requires Numbering(defs, n, vars) && Ranked(defs, rank) && Matched(n, vars, env, env') && 0 !in defs
    requires lit < 2 || lit / 2 in vars
    ensures Ranked(Renumbered(defs, n, vars), Identity(n, |vars|))
    ensures Eval(Renumbered(defs, n, vars), Identity(n, |vars|), env', CodeOf(vars, lit)) == Eval(defs, rank, env, lit)
    decreases if lit < 2 then 0 else Position(vars, lit / 2) + 1, lit % 2 + 1
  {
    hide CodeOf, Ranked, Numbering, Eval, Position, Identity;
    NumberingGates(defs, n, vars);
    RenumberedRanked(defs, n, vars);
    CodeParity(vars, lit);
    var defs', rank' := Renumbered(defs, n, vars), Identity(n, |vars|);
    if lit % 2 == 1 {
      CodeParity(vars, lit - 1);
      SameValue(defs, rank, n, vars, env, env', lit - 1);
      EvalNot(defs, rank, env, lit - 1);
      EvalNot(defs', rank', env', CodeOf(vars, lit - 1));
    } else if lit == 0 {
      EvalLeaf(defs, rank, env, 0);
      EvalLeaf(defs', rank', env', 0);
    } else {
      var k := Position(vars, lit / 2);
      if k >= n {
        GateValue(defs, rank, n, vars, env, env', k);
      } else {
        LeafVar(defs, n, vars, k);
        EvalLeaf(defs, rank, env, lit / 2);
        EvalLeaf(defs', rank', env', k + 1);
      }
    }
  }

  lemma {:induction false} GateValue(defs: Defs, rank: map<nat, nat>, n: nat, vars: seq<nat>, env: iset<nat>,
                                     env': iset<nat>, k: nat)
    requires Numbering(defs, n, vars) && Ranked(defs, rank) && Matched(n, vars, env, env') && 0 !in defs
    requires n <= k < |vars|
    ensures Ranked(Renumbered(defs, n, vars), Identity(n, |vars|))
    ensures Eval(Renumbered(defs, n, vars), Identity(n, |vars|), env', 2 * (k + 1)) ==
            Eval(defs, rank, env, 2 * vars[k])
    decreases k + 1, 0
  {
    hide CodeOf, Ranked, Numbering, Eval, Position, Matched, Identity;
    NumberingGates(defs, n, vars);
    RenumberedRanked(defs, n, vars);
    var defs', rank' := Renumbered(defs, n, vars), Identity(n, |vars|);
    var v := vars[k];
    NumberedChildren(defs, n, vars, k);
    EvalGate(defs, rank, env, v);
    EvalGate(defs', rank', env', k + 1);
    SameValue(defs, rank, n, vars, env, env', defs[v].0);
    SameValue(defs, rank, n, vars, env, env', defs[v].1);
  }

  /** The value of a literal does not depend on how the gates are ranked. */
  lemma {:induction false} EvalRankFree(defs: Defs, r: map<nat, nat>, s: map<nat, nat>, env: iset<nat>, lit: nat)
    requires Ranked(defs, r) && Ranked(defs, s) && 0 !in defs
    ensures Eval(defs, r, env, lit) == Eval(defs, s, env, lit)
    decreases RankOf(r, lit / 2), if lit / 2 in defs then 1 else 0, lit % 2
  {
    var v := lit / 2;
    if lit % 2 == 1 {
      EvalRankFree(defs, r, s, env, lit - 1);
    } else if v in defs {
      EvalGate(defs, r, env, v);
      EvalGate(defs, s, env, v);
      ChildRankFree(defs, r, s, env, v, defs[v].0);
      ChildRankFree(defs, r, s, env, v, defs[v].1);
    }
  }

  lemma ChildRankFree(defs: Defs, r: map<nat, nat>, s: map<nat, nat>, env: iset<nat>, v: nat, lit: nat)
    requires Ranked(defs, r) && Ranked(defs, s) && 0 !in defs
    requires v in defs && (lit == defs[v].0 || lit == defs[v].1)
    ensures Eval(defs, r, env, lit) == Eval(defs, s, env, lit)
    decreases RankOf(r, v), 0, 0
  {
    if lit / 2 in defs {
      assert Child(defs, v, lit / 2);
      EvalRankFree(defs, r, s, env, lit);
    }
  }

  /** The value of a literal of an acyclic graph. */
  ghost function Means(defs: Defs, env: iset<nat>, lit: nat): bool
    requires Acyclic(defs)
  {
    var rank :| Ranked(defs, rank);
    Eval(defs, rank, env, lit)
  }

  lemma MeansEval(defs: Defs, rank: map<nat, nat>, env: iset<nat>, lit: nat)
    requires Ranked(defs, rank) && 0 !in defs
    ensures Acyclic(defs) && Means(defs, env, lit) == Eval(defs, rank, env, lit)
  {
    var r :| Ranked(defs, r) && Means(defs, env, lit) == Eval(defs, r, env, lit);
    EvalRankFree(defs, r, rank, env, lit);
  }

  lemma MeansNot(defs: Defs, env: iset<nat>, lit: nat)
    requires Acyclic(defs) && 0 !in defs && lit % 2 == 0
    ensures Means(defs, env, lit + 1) == !Means(defs, env, lit)
  {
    var rank :| Ranked(defs, rank);
    MeansEval(defs, rank, env, lit);
    MeansEval(defs, rank, env, lit + 1);
    EvalNot(defs, rank, env, lit);
  }

  lemma MeansGate(defs: Defs, env: iset<nat>, v: nat)
    requires Acyclic(defs) && 0 !in defs && v in defs
    ensures Means(defs, env, 2 * v) == (Means(defs, env, defs[v].0) && Means(defs, env, defs[v].1))
  {
    var rank :| Ranked(defs, rank);
    MeansEval(defs, rank, env, 2 * v);
    MeansEval(defs, rank, env, defs[v].0);
    MeansEval(defs, rank, env, defs[v].1);
    EvalGate(defs, rank, env, v);
  }

  lemma MeansLeaf(defs: Defs, env: iset<nat>, v: nat)
    requires Acyclic(defs) && 0 !in defs && v !in defs
    ensures Means(defs, env, 2 * v) == (v != 0 && v in env)
  {
    var rank :| Ranked(defs, rank);
    MeansEval(defs, rank, env, 2 * v);
    EvalLeaf(defs, rank, env, v);
  }

  /** The value of every numbered literal is preserved. */
  lemma RenumberedMeans(defs: Defs, n: nat, vars: seq<nat>, env: iset<nat>, env': iset<nat>, lit: nat)
    requires Numbering(defs, n, vars) && Acyclic(defs) && Matched(n, vars, env, env') && 0 !in defs
    requires lit < 2 || lit / 2 in vars
    ensures Acyclic(Renumbered(defs, n, vars))
    ensures Means(Renumbered(defs, n, vars), env', CodeOf(vars, lit)) == Means(defs, env, lit)
  {
    var rank :| Ranked(defs, rank);
    SameValue(defs, rank, n, vars, env, env', lit);
    MeansEval(defs, rank, env, lit);
    MeansEval(Renumbered(defs, n, vars), Identity(n, |vars|), env', CodeOf(vars, lit));
  }
}
