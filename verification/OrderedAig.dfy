/** Reencoded and-inverter graphs: n inputs and latches, then gates in order. */
module OrderedAig {
  import opened Aig
  import opened Renumber

  /** aiger_not */
  function Not(lit: nat): nat {
    if lit % 2 == 0 then lit + 1 else lit - 1
  }

  /** The section of a reencoded acyclic circuit with n inputs and latches. */
  ghost predicate Ordered(n: nat, ands: seq<And>) {
    forall i :: 0 <= i < |ands| ==> ands[i].lhs == 2 * (n + i + 1) && ands[i].lhs > ands[i].rhs0 >= ands[i].rhs1
  }

  function GateOf(n: nat, ands: seq<And>, v: nat): (nat, nat)
    requires n < v <= n + |ands|
  {
    (ands[v - n - 1].rhs0, ands[v - n - 1].rhs1)
  }

  function Gates(n: nat, ands: seq<And>): Defs {
    map v | v in Range(n, n + |ands|) :: GateOf(n, ands, v)
  }

  lemma GatesAcyclic(n: nat, ands: seq<And>)
    requires Ordered(n, ands)
    ensures Ranked(Gates(n, ands), Identity(n, n + |ands|)) && Acyclic(Gates(n, ands))
  {
    var defs := Gates(n, ands);
    forall v, c | v in defs && c in defs && Child(defs, v, c) ensures c < v {
      assert ands[v - n - 1].lhs == 2 * v;
    }
    assert Ranked(defs, Identity(n, n + |ands|));
  }

  /** The value of a literal for given inputs. */
  ghost function Val(n: nat, ands: seq<And>, env: iset<nat>, lit: nat): bool
    requires Ordered(n, ands)
  {
    GatesAcyclic(n, ands);
    Means(Gates(n, ands), env, lit)
  }

  lemma ValNot(n: nat, ands: seq<And>, env: iset<nat>, lit: nat)
    requires Ordered(n, ands)
    ensures Val(n, ands, env, Not(lit)) == !Val(n, ands, env, lit)
    ensures Val(n, ands, env, 1) && !Val(n, ands, env, 0)
  {
    hide Means, Eval, Ranked, Acyclic, Identity;
    var defs, rank := Gates(n, ands), Identity(n, n + |ands|);
    GatesAcyclic(n, ands);
    MeansEval(defs, rank, env, lit);
    MeansEval(defs, rank, env, Not(lit));
    MeansEval(defs, rank, env, 0);
    MeansEval(defs, rank, env, 1);
    EvalLeaf(defs, rank, env, 0);
    EvalNot(defs, rank, env, 0);
    EvalNot(defs, rank, env, lit - lit % 2);
  }

  lemma ValGate(n: nat, ands: seq<And>, env: iset<nat>, i: nat)
    requires Ordered(n, ands) && i < |ands|
    ensures Val(n, ands, env, ands[i].lhs) == (Val(n, ands, env, ands[i].rhs0) && Val(n, ands, env, ands[i].rhs1))
  {
    hide Means, Eval, Ranked, Acyclic, Identity;
    var defs, rank := Gates(n, ands), Identity(n, n + |ands|);
    GatesAcyclic(n, ands);
    assert n + i + 1 in Range(n, n + |ands|);
    assert defs[n + i + 1] == GateOf(n, ands, n + i + 1);
    MeansEval(defs, rank, env, ands[i].lhs);
    MeansEval(defs, rank, env, ands[i].rhs0);
    MeansEval(defs, rank, env, ands[i].rhs1);
    EvalGate(defs, rank, env, n + i + 1);
  }

  lemma ValInput(n: nat, ands: seq<And>, env: iset<nat>, v: nat)
    requires Ordered(n, ands) && 0 < v <= n
    ensures Val(n, ands, env, 2 * v) == (v in env)
  {
    hide Means, Eval, Ranked, Acyclic, Identity;
    var defs, rank := Gates(n, ands), Identity(n, n + |ands|);
    GatesAcyclic(n, ands);
    MeansEval(defs, rank, env, 2 * v);
    EvalLeaf(defs, rank, env, v);
  }

  lemma OrderedAt(n: nat, ands: seq<And>, i: nat)
    requires Ordered(n, ands) && i < |ands|
    ensures ands[i].lhs == 2 * (n + i + 1) && ands[i].rhs1 <= ands[i].rhs0 < ands[i].lhs
    ensures Not(ands[i].rhs0) < ands[i].lhs && Not(ands[i].rhs1) < ands[i].lhs
  {
  }
}
