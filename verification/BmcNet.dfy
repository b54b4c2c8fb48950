/** aigbmc from the circuit that was read: reencoding carries its runs to the model whose
    clauses are solved. */
module BmcNet {
  import opened Lists
  import opened Aig
  import opened Renumber
  import opened Recode
  import Aiger
  import O = OrderedAig
  import B = BmcSpec
  import Proof = BmcProof

  type Run = seq<iset<nat>>

  // ----- runs of a circuit in its own numbers -----

  /** Every latch has the value of its reset literal, which leaves it free when that is the
      latch itself. */
  ghost predicate Starts(defs: Defs, net: Net, env: iset<nat>)
    requires Acyclic(defs)
  {
    forall i :: 0 <= i < |net.latches| ==> LatchIs(net, env, i, Means(defs, env, net.latches[i].reset))
  }

  ghost predicate LatchIs(net: Net, env: iset<nat>, i: nat, value: bool)
    requires i < |net.latches|
  {
    net.latches[i].lit / 2 in env <==> value
  }

  ghost predicate Steps(defs: Defs, net: Net, env: iset<nat>, next: iset<nat>)
    requires Acyclic(defs)
  {
    forall i :: 0 <= i < |net.latches| ==> LatchIs(net, next, i, Means(defs, env, net.latches[i].next))
  }

  ghost predicate IsRun(defs: Defs, net: Net, r: Run)
    requires Acyclic(defs)
  {
    r != [] && Starts(defs, net, r[0]) && forall t :: 0 <= t < |r| - 1 ==> Steps(defs, net, r[t], r[t + 1])
  }

  ghost predicate Constrained(defs: Defs, net: Net, env: iset<nat>)
    requires Acyclic(defs)
  {
    forall i :: 0 <= i < |net.constraints| ==> Means(defs, env, net.constraints[i])
  }

  /** Every literal of lits holds somewhere from state l on. */
  ghost predicate AllHold(defs: Defs, r: Run, l: nat, lits: seq<nat>)
    requires Acyclic(defs)
  {
    forall j :: 0 <= j < |lits| ==> Holds(defs, r, l, lits[j])
  }

  ghost predicate Holds(defs: Defs, r: Run, l: nat, lit: nat)
    requires Acyclic(defs)
  {
    exists s :: l <= s < |r| && Means(defs, r[s], lit)
  }

  /** The run returns to state l, and justice property i and fairness hold on the loop. */
  ghost predicate LassoAt(defs: Defs, net: Net, r: Run, l: nat, i: nat)
    requires Acyclic(defs) && l < |r| && i < |net.justice|
  {
    Steps(defs, net, r[|r| - 1], r[l]) && AllHold(defs, r, l, net.justice[i]) && AllHold(defs, r, l, net.fairness)
  }

  ghost predicate Lasso(defs: Defs, net: Net, r: Run, i: nat)
    requires Acyclic(defs) && i < |net.justice|
  {
    exists l :: 0 <= l < |r| && LassoAt(defs, net, r, l, i)
  }

  ghost predicate EndsBad(defs: Defs, net: Net, r: Run, badDone: set<nat>)
    requires Acyclic(defs) && r != []
  {
    exists i :: 0 <= i < |net.bad| && i !in badDone && Means(defs, r[|r| - 1], net.bad[i])
  }

  ghost predicate Justifies(defs: Defs, net: Net, r: Run, justDone: set<nat>)
    requires Acyclic(defs)
  {
    exists i :: 0 <= i < |net.justice| && i !in justDone &&
      (Lasso(defs, net, r, i) || (net.justice[i] == [] && net.fairness == []))
  }

  /** Some constrained run of k states ends in a bad state or closes a lasso. */
  ghost predicate Witnessed(defs: Defs, net: Net, k: nat, badDone: set<nat>, justDone: set<nat>)
    requires Acyclic(defs)
  {
    exists r: Run :: |r| == k && Shown(defs, net, r, badDone, justDone)
  }

  ghost predicate Shown(defs: Defs, net: Net, r: Run, badDone: set<nat>, justDone: set<nat>)
    requires Acyclic(defs)
  {
    IsRun(defs, net, r) && (forall t :: 0 <= t < |r| ==> Constrained(defs, net, r[t])) &&
    (EndsBad(defs, net, r, badDone) || Justifies(defs, net, r, justDone))
  }

  /** Every latch starts at a constant or uninitialized. */
  predicate Supported(net: Net) {
    forall i :: 0 <= i < |net.latches| ==> net.latches[i].reset < 2 || net.latches[i].reset == net.latches[i].lit
  }

  // ----- the model of a circuit -----

  function ModelOf(net: Net, ands: seq<And>): B.Model {
    B.Model(|net.inputs|, net.latches, ands, net.bad, net.constraints, net.justice, net.fairness)
  }

  /** Root literals have the values of their codes whenever inputs and latches agree. */
  ghost predicate Keeps(defs: Defs, net: Net, vars: seq<nat>, c: B.Model)
    requires Acyclic(defs) && c.Ok() && c.Leaves() <= |vars|
  {
    forall env, env', lit :: Matched(c.Leaves(), vars, env, env') && lit in Roots(net) ==>
      (B.V(c, env', CodeOf(vars, lit)) <==> Means(defs, env, lit))
  }

  /** Model c is the circuit with variable vars[k] renamed to k + 1. */
  ghost predicate Carried(defs: Defs, net: Net, vars: seq<nat>, c: B.Model) {
    Acyclic(defs) && c.Ok() && Named(net, vars) && c == ModelOf(RecodedNet(vars, net), c.ands) &&
    Keeps(defs, net, vars, c)
  }

  ghost predicate Named(net: Net, vars: seq<nat>) {
    LeafVars(net.inputs, net.latches) <= vars && NoDup(vars) && 0 !in vars && AllKnown(vars, Roots(net)) &&
    forall i :: 0 <= i < |net.latches| ==> net.latches[i].lit % 2 == 0
  }

  lemma {:induction false} JoinHas(lists: seq<seq<nat>>, i: nat, j: nat)
    requires i < |lists| && j < |lists[i]|
    ensures lists[i][j] in Join(lists)
  {
    var n := |lists| - 1;
    if i < n {
      JoinHas(lists[..n], i, j);
    }
  }

  /** Every literal the runs speak of is a root. */
  lemma RootsHave(net: Net)
    ensures forall i :: 0 <= i < |net.latches| ==>
              net.latches[i].next in Roots(net) && net.latches[i].reset in Roots(net)
    ensures forall i :: 0 <= i < |net.bad| ==> net.bad[i] in Roots(net)
    ensures forall i :: 0 <= i < |net.constraints| ==> net.constraints[i] in Roots(net)
    ensures forall i, j :: 0 <= i < |net.justice| && 0 <= j < |net.justice[i]| ==> net.justice[i][j] in Roots(net)
    ensures forall i :: 0 <= i < |net.fairness| ==> net.fairness[i] in Roots(net)
  {
    hide LatchRoots, Join;
    forall i | 0 <= i < |net.latches|
      ensures net.latches[i].next in LatchRoots(net.latches) && net.latches[i].reset in LatchRoots(net.latches)
    {
      LatchRootIn(net.latches, i);
    }
    forall i, j | 0 <= i < |net.justice| && 0 <= j < |net.justice[i]| ensures net.justice[i][j] in Join(net.justice) {
      JoinHas(net.justice, i, j);
    }
  }

  // ----- runs side by side -----

  /** The literals of c are the codes of those of the circuit. */
  lemma CodedParts(defs: Defs, net: Net, vars: seq<nat>, c: B.Model)
    requires Carried(defs, net, vars, c)
    ensures c.n == |net.inputs| && |c.latches| == |net.latches| && c.Leaves() <= |vars|
    ensures Acyclic(defs) && c.Ok() && Keeps(defs, net, vars, c)
    ensures forall i :: 0 <= i < |c.latches| ==>
              c.latches[i].next == CodeOf(vars, net.latches[i].next) &&
              c.latches[i].reset == CodeOf(vars, net.latches[i].reset)
    ensures c.bad == CodedLits(vars, net.bad) && c.constraints == CodedLits(vars, net.constraints)
    ensures c.justice == CodedLists(vars, net.justice) && c.fairness == CodedLits(vars, net.fairness)
  {
    hide CodeOf, Roots, B.Model.Ok, Keeps, NoDup;
  }

  /** Latch i is variable c.n + i + 1. */
  lemma LatchMatched(defs: Defs, net: Net, vars: seq<nat>, c: B.Model, env: iset<nat>, env': iset<nat>, i: nat)
    requires Carried(defs, net, vars, c) && c.Leaves() <= |vars| && Matched(c.Leaves(), vars, env, env')
    requires i < |net.latches|
    ensures LatchIs(net, env, i, c.n + i + 1 in env')
  {
    hide CodeOf, Roots, B.Model.Ok, Keeps, NoDup, RecodedNet;
    CodedParts(defs, net, vars, c);
    assert vars[c.n + i] == LeafVars(net.inputs, net.latches)[c.n + i];
  }

  lemma NextAlike(defs: Defs, net: Net, vars: seq<nat>, c: B.Model, e: iset<nat>, e': iset<nat>, i: nat)
    requires Carried(defs, net, vars, c) && c.Leaves() <= |vars| && Matched(c.Leaves(), vars, e, e')
    requires i < |net.latches|
    ensures Acyclic(defs) && c.Ok() && i < |c.latches|
    ensures Means(defs, e, net.latches[i].next) <==> B.V(c, e', c.latches[i].next)
  {
    CodedParts(defs, net, vars, c);
    RootsHave(net);
    hide CodeOf, Roots, B.Model.Ok, Carried, Matched, Means, B.V, Acyclic, CodedLits, CodedLists;
  }

  /** Latch i of the model takes the value of its next literal. */
  ghost predicate StepAt(c: B.Model, env: iset<nat>, next: iset<nat>, i: nat)
    requires c.Ok() && i < |c.latches|
  {
    c.n + i + 1 in next <==> B.V(c, env, c.latches[i].next)
  }

  lemma FollowsIf(c: B.Model, env: iset<nat>, next: iset<nat>)
    requires c.Ok()
    ensures B.Follows(c, env, next) <==> forall i :: 0 <= i < |c.latches| ==> StepAt(c, env, next, i)
  {
    hide B.Model.Ok, B.V;
    if forall i :: 0 <= i < |c.latches| ==> StepAt(c, env, next, i) {
      forall i | 0 <= i < |c.latches| ensures c.n + i + 1 in next <==> B.V(c, env, c.latches[i].next) {
        assert StepAt(c, env, next, i);
      }
    }
  }

  lemma StepAlike(defs: Defs, net: Net, vars: seq<nat>, c: B.Model, e: iset<nat>, e': iset<nat>, f: iset<nat>,
                  f': iset<nat>, i: nat)
    requires Carried(defs, net, vars, c) && c.Leaves() <= |vars| && i < |net.latches|
    requires Matched(c.Leaves(), vars, e, e') && Matched(c.Leaves(), vars, f, f')
    ensures Acyclic(defs) && c.Ok() && i < |c.latches|
    ensures LatchIs(net, f, i, Means(defs, e, net.latches[i].next)) <==> StepAt(c, e', f', i)
  {
    hide Carried, Matched, Means, B.V, Acyclic, B.Model.Ok, LatchIs;
    NextAlike(defs, net, vars, c, e, e', i);
    LatchMatched(defs, net, vars, c, f, f', i);
    LatchIsIff(net, f, i, Means(defs, e, net.latches[i].next), c.n + i + 1 in f');
  }

  lemma StepsIff(defs: Defs, net: Net, c: B.Model, e: iset<nat>, e': iset<nat>, f: iset<nat>, f': iset<nat>)
    requires Acyclic(defs) && c.Ok() && |c.latches| == |net.latches|
    requires forall i :: 0 <= i < |net.latches| ==>
               (LatchIs(net, f, i, Means(defs, e, net.latches[i].next)) <==> StepAt(c, e', f', i))
    ensures Steps(defs, net, e, f) <==> forall i :: 0 <= i < |c.latches| ==> StepAt(c, e', f', i)
  {
    hide LatchIs, Means, Acyclic, StepAt, B.Model.Ok;
  }

  lemma StepsAlike(defs: Defs, net: Net, vars: seq<nat>, c: B.Model, e: iset<nat>, e': iset<nat>, f: iset<nat>,
                   f': iset<nat>)
    requires Carried(defs, net, vars, c) && c.Leaves() <= |vars|
    requires Matched(c.Leaves(), vars, e, e') && Matched(c.Leaves(), vars, f, f')
    ensures Acyclic(defs) && c.Ok() && (Steps(defs, net, e, f) <==> B.Follows(c, e', f'))
  {
    CodedParts(defs, net, vars, c);
    hide *;
    forall i | 0 <= i < |net.latches|
      ensures LatchIs(net, f, i, Means(defs, e, net.latches[i].next)) <==> StepAt(c, e', f', i)
    {
      StepAlike(defs, net, vars, c, e, e', f, f', i);
    }
    FollowsIf(c, e', f');
    StepsIff(defs, net, c, e, e', f, f');
  }

  /** Known literals have distinct codes, and constants keep theirs. */
  lemma CodesFaithful(vars: seq<nat>, a: nat, b: nat)
    requires NoDup(vars) && Known(vars, a) && Known(vars, b)
    ensures CodeOf(vars, a) == CodeOf(vars, b) <==> a == b
    ensures CodeOf(vars, a) < 2 <==> a < 2
    ensures a < 2 ==> CodeOf(vars, a) == a
  {
    hide NoDup;
  }

  /** Latch i and its reset literal are renamed together. */
  lemma LatchRenamed(defs: Defs, net: Net, vars: seq<nat>, c: B.Model, i: nat)
    requires Carried(defs, net, vars, c) && i < |net.latches|
    ensures i < |c.latches| && NoDup(vars)
    ensures c.latches[i].lit == CodeOf(vars, net.latches[i].lit)
    ensures c.latches[i].reset == CodeOf(vars, net.latches[i].reset)
    ensures Known(vars, net.latches[i].lit) && Known(vars, net.latches[i].reset)
  {
    var leaves := LeafVars(net.inputs, net.latches);
    assert leaves[|net.inputs| + i] == net.latches[i].lit / 2;
    hide Roots, B.Model.Ok, LeafVars, Keeps, CodeOf, NoDup, Acyclic;
    RootsHave(net);
    assert vars[|net.inputs| + i] in vars;
  }

  /** A reset literal keeps its meaning: 0, 1 or the latch itself. */
  lemma ResetKept(defs: Defs, net: Net, vars: seq<nat>, c: B.Model, i: nat)
    requires Carried(defs, net, vars, c) && i < |net.latches|
    ensures i < |c.latches| && (c.latches[i].reset < 2 <==> net.latches[i].reset < 2)
    ensures c.latches[i].reset < 2 ==> c.latches[i].reset == net.latches[i].reset
    ensures c.latches[i].reset == c.latches[i].lit <==> net.latches[i].reset == net.latches[i].lit
  {
    LatchRenamed(defs, net, vars, c, i);
    hide Carried, CodeOf, NoDup, Known;
    CodesFaithful(vars, net.latches[i].reset, net.latches[i].lit);
  }

  /** Reencoding keeps whether every latch starts at a constant or uninitialized. */
  lemma SupportedKept(defs: Defs, net: Net, vars: seq<nat>, c: B.Model)
    requires Carried(defs, net, vars, c)
    ensures c.Supported() <==> Supported(net)
  {
    CodedParts(defs, net, vars, c);
    hide Carried, Keeps, B.Model.Ok;
    forall i | 0 <= i < |net.latches|
      ensures c.latches[i].reset < 2 || c.latches[i].reset == c.latches[i].lit <==>
              net.latches[i].reset < 2 || net.latches[i].reset == net.latches[i].lit
    {
      ResetKept(defs, net, vars, c, i);
    }
  }

  lemma ConstantsMean(defs: Defs, env: iset<nat>)
    requires Acyclic(defs) && 0 !in defs
    ensures Means(defs, env, 1) && !Means(defs, env, 0)
  {
    hide Means, Acyclic;
    MeansLeaf(defs, env, 0);
    MeansNot(defs, env, 0);
  }

  lemma LatchMeans(defs: Defs, net: Net, env: iset<nat>, i: nat)
    requires WellFormed(defs, net) && i < |net.latches|
    ensures Acyclic(defs) && LatchIs(net, env, i, Means(defs, env, net.latches[i].lit))
    ensures net.latches[i].lit >= 2
  {
    var leaves := LeafVars(net.inputs, net.latches);
    assert leaves[|net.inputs| + i] == net.latches[i].lit / 2 && leaves[|net.inputs| + i] in leaves;
    hide Means, Acyclic, Closed, AllDefined, Roots, NoDup, LeafVars;
    MeansLeaf(defs, env, net.latches[i].lit / 2);
  }

  lemma WellFormedConstants(defs: Defs, net: Net)
    requires WellFormed(defs, net)
    ensures 0 !in defs
  {
  }

  /** Latch i of the model obeys its reset literal. */
  ghost predicate ResetAt(c: B.Model, env: iset<nat>, i: nat)
    requires i < |c.latches|
  {
    (c.latches[i].reset == 0 ==> c.n + i + 1 !in env) && (c.latches[i].reset == 1 ==> c.n + i + 1 in env)
  }

  lemma LatchIsIff(net: Net, env: iset<nat>, i: nat, v: bool, w: bool)
    requires i < |net.latches| && LatchIs(net, env, i, w)
    ensures LatchIs(net, env, i, v) <==> v == w
  {
  }

  lemma SupportedAt(c: B.Model, i: nat)
    requires c.Supported() && i < |c.latches|
    ensures c.latches[i].reset < 2 || c.latches[i].reset == c.latches[i].lit
  {
  }

  lemma StartAlike(defs: Defs, net: Net, vars: seq<nat>, c: B.Model, env: iset<nat>, env': iset<nat>, i: nat)
    requires Carried(defs, net, vars, c) && c.Supported() && WellFormed(defs, net)
    requires c.Leaves() <= |vars| && Matched(c.Leaves(), vars, env, env') && i < |net.latches|
    ensures Acyclic(defs) && i < |c.latches|
    ensures LatchIs(net, env, i, Means(defs, env, net.latches[i].reset)) <==> ResetAt(c, env', i)
  {
    hide Carried, Matched, WellFormed, Means, Acyclic, LatchIs, B.Model.Supported, B.Model.Ok;
    ResetKept(defs, net, vars, c, i);
    LatchMatched(defs, net, vars, c, env, env', i);
    LatchMeans(defs, net, env, i);
    LatchIsIff(net, env, i, Means(defs, env, net.latches[i].lit), c.n + i + 1 in env');
    LatchIsIff(net, env, i, Means(defs, env, net.latches[i].reset), c.n + i + 1 in env');
    WellFormedConstants(defs, net);
    ConstantsMean(defs, env);
    SupportedAt(c, i);
  }

  lemma ResetsIf(c: B.Model, env: iset<nat>)
    ensures B.Resets(c, env) <==> forall i :: 0 <= i < |c.latches| ==> ResetAt(c, env, i)
  {
    if forall i :: 0 <= i < |c.latches| ==> ResetAt(c, env, i) {
      forall i | 0 <= i < |c.latches|
        ensures c.latches[i].reset == 0 ==> c.n + i + 1 !in env
        ensures c.latches[i].reset == 1 ==> c.n + i + 1 in env
      {
        assert ResetAt(c, env, i);
      }
    }
  }

  lemma StartsIff(defs: Defs, net: Net, c: B.Model, env: iset<nat>, env': iset<nat>)
    requires Acyclic(defs) && |c.latches| == |net.latches|
    requires forall i :: 0 <= i < |net.latches| ==>
               (LatchIs(net, env, i, Means(defs, env, net.latches[i].reset)) <==> ResetAt(c, env', i))
    ensures Starts(defs, net, env) <==> forall i :: 0 <= i < |c.latches| ==> ResetAt(c, env', i)
  {
    hide LatchIs, Means, Acyclic, ResetAt;
  }

  lemma StartsAlike(defs: Defs, net: Net, vars: seq<nat>, c: B.Model, env: iset<nat>, env': iset<nat>)
    requires Carried(defs, net, vars, c) && c.Supported() && WellFormed(defs, net)
    requires c.Leaves() <= |vars| && Matched(c.Leaves(), vars, env, env')
    ensures Acyclic(defs) && (Starts(defs, net, env) <==> B.Resets(c, env'))
  {
    CodedParts(defs, net, vars, c);
    hide *;
    forall i | 0 <= i < |net.latches|
      ensures LatchIs(net, env, i, Means(defs, env, net.latches[i].reset)) <==> ResetAt(c, env', i)
    {
      StartAlike(defs, net, vars, c, env, env', i);
    }
    ResetsIf(c, env');
    StartsIff(defs, net, c, env, env');
  }

  /** State by state, inputs and latches agree. */
  ghost predicate Alike(n: nat, vars: seq<nat>, r: Run, r': Run)
    requires n <= |vars|
  {
    |r| == |r'| && forall t :: 0 <= t < |r| ==> Matched(n, vars, r[t], r'[t])
  }

  /** A circuit, its model and two runs that agree. */
  ghost predicate Paired(defs: Defs, net: Net, vars: seq<nat>, c: B.Model, r: Run, r': Run) {
    WellFormed(defs, net) && Carried(defs, net, vars, c) && c.Supported() && c.Leaves() <= |vars| &&
    Alike(c.Leaves(), vars, r, r') && r != []
  }

  lemma PairedParts(defs: Defs, net: Net, vars: seq<nat>, c: B.Model, r: Run, r': Run)
    requires Paired(defs, net, vars, c, r, r')
    ensures Acyclic(defs) && c.Ok() && |r'| == |r| > 0 && |c.justice| == |net.justice|
    ensures c.bad == CodedLits(vars, net.bad) && c.constraints == CodedLits(vars, net.constraints)
    ensures c.justice == CodedLists(vars, net.justice) && c.fairness == CodedLits(vars, net.fairness)
  {
    CodedParts(defs, net, vars, c);
  }

  lemma ValueAlike(defs: Defs, net: Net, vars: seq<nat>, c: B.Model, r: Run, r': Run, t: nat, lit: nat)
    requires Paired(defs, net, vars, c, r, r') && t < |r| && lit in Roots(net)
    ensures Acyclic(defs) && c.Ok() && |r'| == |r|
    ensures B.V(c, r'[t], CodeOf(vars, lit)) <==> Means(defs, r[t], lit)
  {
    CodedParts(defs, net, vars, c);
    hide CodeOf, Roots, B.Model.Ok, Carried, Matched, Means, B.V, WellFormed;
  }

  lemma RunAlike(defs: Defs, net: Net, vars: seq<nat>, c: B.Model, r: Run, r': Run)
    requires Paired(defs, net, vars, c, r, r')
    ensures Acyclic(defs) && c.Ok() && (IsRun(defs, net, r) <==> B.IsRun(c, r'))
  {
    CodedParts(defs, net, vars, c);
    hide CodeOf, Roots, B.Model.Ok, Carried, Matched, WellFormed, Keeps, Starts, Steps, B.Follows, B.Resets, Acyclic,
      B.Model.Supported;
    StartsAlike(defs, net, vars, c, r[0], r'[0]);
    forall t | 0 <= t < |r| - 1 ensures Steps(defs, net, r[t], r[t + 1]) <==> B.Follows(c, r'[t], r'[t + 1]) {
      StepsAlike(defs, net, vars, c, r[t], r'[t], r[t + 1], r'[t + 1]);
    }
  }

  lemma ConstrainedAlike(defs: Defs, net: Net, vars: seq<nat>, c: B.Model, r: Run, r': Run, t: nat)
    requires Paired(defs, net, vars, c, r, r') && t < |r|
    ensures Acyclic(defs) && c.Ok() && |r'| == |r|
    ensures Constrained(defs, net, r[t]) <==> B.Constrained(c, r'[t])
  {
    PairedParts(defs, net, vars, c, r, r');
    RootsHave(net);
    hide CodeOf, Roots, B.Model.Ok, Paired, Means, B.V, Acyclic, CodedLists;
    forall i | 0 <= i < |net.constraints|
      ensures B.V(c, r'[t], c.constraints[i]) <==> Means(defs, r[t], net.constraints[i])
    {
      ValueAlike(defs, net, vars, c, r, r', t, net.constraints[i]);
    }
  }

  lemma HoldsAlike(defs: Defs, net: Net, vars: seq<nat>, c: B.Model, r: Run, r': Run, l: nat, lit: nat)
    requires Paired(defs, net, vars, c, r, r') && lit in Roots(net)
    ensures Acyclic(defs) && c.Ok() && (B.Holds(c, r', l, CodeOf(vars, lit)) <==> Holds(defs, r, l, lit))
  {
    PairedParts(defs, net, vars, c, r, r');
    hide CodeOf, Roots, B.Model.Ok, Paired, Means, B.V, Acyclic;
    forall s | l <= s < |r| ensures B.V(c, r'[s], CodeOf(vars, lit)) <==> Means(defs, r[s], lit) {
      ValueAlike(defs, net, vars, c, r, r', s, lit);
    }
  }

  lemma AllHoldAlike(defs: Defs, net: Net, vars: seq<nat>, c: B.Model, r: Run, r': Run, l: nat, lits: seq<nat>)
    requires Paired(defs, net, vars, c, r, r')
    requires forall j :: 0 <= j < |lits| ==> lits[j] in Roots(net)
    ensures Acyclic(defs) && c.Ok()
    ensures AllHold(defs, r, l, lits) <==>
            forall j :: 0 <= j < |lits| ==> B.Holds(c, r', l, CodedLits(vars, lits)[j])
  {
    PairedParts(defs, net, vars, c, r, r');
    hide CodeOf, Roots, B.Model.Ok, Paired, Holds, B.Holds, Acyclic;
    forall j | 0 <= j < |lits| ensures Holds(defs, r, l, lits[j]) <==> B.Holds(c, r', l, CodedLits(vars, lits)[j]) {
      HoldsAlike(defs, net, vars, c, r, r', l, lits[j]);
    }
  }

  lemma LassoAlike(defs: Defs, net: Net, vars: seq<nat>, c: B.Model, r: Run, r': Run, i: nat)
    requires Paired(defs, net, vars, c, r, r') && i < |net.justice|
    ensures Acyclic(defs) && c.Ok() && i < |c.justice|
    ensures Lasso(defs, net, r, i) <==> B.Lasso(c, r', i)
    ensures c.justice[i] == [] <==> net.justice[i] == []
    ensures c.fairness == [] <==> net.fairness == []
  {
    PairedParts(defs, net, vars, c, r, r');
    RootsHave(net);
    hide CodeOf, Roots, B.Model.Ok, Paired, Holds, B.Holds, Acyclic, B.Follows, Steps, AllHold;
    forall l | 0 <= l < |r|
      ensures LassoAt(defs, net, r, l, i) <==> B.Closes(c, r', l) && B.OnLoop(c, r', l, i)
    {
      StateSteps(defs, net, vars, c, r, r', l);
      AllHoldAlike(defs, net, vars, c, r, r', l, net.justice[i]);
      AllHoldAlike(defs, net, vars, c, r, r', l, net.fairness);
    }
  }

  lemma StateSteps(defs: Defs, net: Net, vars: seq<nat>, c: B.Model, r: Run, r': Run, l: nat)
    requires Paired(defs, net, vars, c, r, r') && l < |r|
    ensures Acyclic(defs) && c.Ok() && |r'| == |r|
    ensures Steps(defs, net, r[|r| - 1], r[l]) <==> B.Closes(c, r', l)
  {
    hide CodeOf, Roots, B.Model.Ok, Carried, Acyclic, Matched, WellFormed;
    StepsAlike(defs, net, vars, c, r[|r| - 1], r'[|r| - 1], r[l], r'[l]);
  }

  lemma BadAlike(defs: Defs, net: Net, vars: seq<nat>, c: B.Model, r: Run, r': Run, badDone: set<nat>)
    requires Paired(defs, net, vars, c, r, r')
    ensures Acyclic(defs) && c.Ok() && |r'| == |r|
    ensures EndsBad(defs, net, r, badDone) <==> Proof.EndsBad(c, r', badDone)
  {
    PairedParts(defs, net, vars, c, r, r');
    RootsHave(net);
    hide CodeOf, Roots, B.Model.Ok, Paired, Means, B.V, Acyclic;
    forall i | 0 <= i < |net.bad|
      ensures B.V(c, r'[|r| - 1], c.bad[i]) <==> Means(defs, r[|r| - 1], net.bad[i])
    {
      ValueAlike(defs, net, vars, c, r, r', |r| - 1, net.bad[i]);
    }
  }

  lemma WitnessAlike(defs: Defs, net: Net, vars: seq<nat>, c: B.Model, r: Run, r': Run, badDone: set<nat>,
                     justDone: set<nat>)
    requires Paired(defs, net, vars, c, r, r')
    ensures Acyclic(defs) && c.Ok() && |r'| == |r|
    ensures B.Witness(c, r', badDone, justDone) <==>
            EndsBad(defs, net, r, badDone) || Justifies(defs, net, r, justDone)
  {
    PairedParts(defs, net, vars, c, r, r');
    BadAlike(defs, net, vars, c, r, r', badDone);
    hide CodedLits, CodedLists, B.Model.Ok, Paired, B.V, Acyclic, Lasso, B.Lasso, EndsBad;
    forall i | 0 <= i < |net.justice|
      ensures Lasso(defs, net, r, i) <==> B.Lasso(c, r', i)
      ensures c.justice[i] == [] <==> net.justice[i] == []
      ensures c.fairness == [] <==> net.fairness == []
    {
      LassoAlike(defs, net, vars, c, r, r', i);
    }
  }

  lemma ShownAlike(defs: Defs, net: Net, vars: seq<nat>, c: B.Model, r: Run, r': Run, badDone: set<nat>,
                   justDone: set<nat>)
    requires Paired(defs, net, vars, c, r, r')
    ensures Acyclic(defs) && c.Ok() && |r'| == |r|
    ensures Shown(defs, net, r, badDone, justDone) <==>
            B.IsRun(c, r') && (forall t :: 0 <= t < |r'| ==> B.Constrained(c, r'[t])) &&
            B.Witness(c, r', badDone, justDone)
  {
    WitnessAlike(defs, net, vars, c, r, r', badDone, justDone);
    RunAlike(defs, net, vars, c, r, r');
    hide B.Model.Ok, Paired, Acyclic, EndsBad, Justifies, IsRun, B.IsRun, Constrained, B.Constrained, B.Witness;
    forall t | 0 <= t < |r| ensures Constrained(defs, net, r[t]) <==> B.Constrained(c, r'[t]) {
      ConstrainedAlike(defs, net, vars, c, r, r', t);
    }
  }

  // ----- runs from one numbering to the other -----

  function Onward(n: nat, vars: seq<nat>, env: iset<nat>): iset<nat>
    requires n <= |vars|
  {
    iset k: nat | k < n && vars[k] in env :: k + 1
  }

  function Back(n: nat, vars: seq<nat>, env: iset<nat>): iset<nat>
    requires n <= |vars|
  {
    iset k: nat | k < n && k + 1 in env :: vars[k]
  }

  lemma {:induction false} OnwardPaired(defs: Defs, net: Net, vars: seq<nat>, c: B.Model, r: Run) returns (r': Run)
    requires WellFormed(defs, net) && Carried(defs, net, vars, c) && c.Supported() && r != []
    ensures |r'| == |r| && Paired(defs, net, vars, c, r, r')
  {
    CodedParts(defs, net, vars, c);
    var n := c.Leaves();
    hide B.Model.Ok, WellFormed, Carried, B.Model.Supported, Acyclic, Keeps, CodedLits, CodedLists;
    r' := seq(|r|, t requires 0 <= t < |r| => Onward(n, vars, r[t]));
  }

  lemma {:induction false} BackPaired(defs: Defs, net: Net, vars: seq<nat>, c: B.Model, r': Run) returns (r: Run)
    requires WellFormed(defs, net) && Carried(defs, net, vars, c) && c.Supported() && r' != []
    ensures |r| == |r'| && Paired(defs, net, vars, c, r, r')
  {
    CodedParts(defs, net, vars, c);
    CarriedNoDup(defs, net, vars, c);
    var n := c.Leaves();
    hide B.Model.Ok, WellFormed, Carried, B.Model.Supported, Acyclic, Keeps, CodedLits, CodedLists, Back, NoDup,
      Matched;
    r := seq(|r'|, t requires 0 <= t < |r'| => Back(n, vars, r'[t]));
    forall t | 0 <= t < |r| ensures Matched(n, vars, r[t], r'[t]) {
      BackMatched(n, vars, r'[t]);
    }
  }

  lemma CarriedNoDup(defs: Defs, net: Net, vars: seq<nat>, c: B.Model)
    requires Carried(defs, net, vars, c)
    ensures NoDup(vars)
  {
  }

  lemma BackMatched(n: nat, vars: seq<nat>, env: iset<nat>)
    requires n <= |vars| && NoDup(vars)
    ensures Matched(n, vars, Back(n, vars, env), env)
  {
  }

  /** Reencoding keeps which properties a run of k states can witness. */
  lemma WitnessedKept(defs: Defs, net: Net, vars: seq<nat>, c: B.Model, k: nat, badDone: set<nat>, justDone: set<nat>)
    requires WellFormed(defs, net) && Carried(defs, net, vars, c) && c.Supported() && k > 0
    ensures Acyclic(defs) && c.Ok()
    ensures Witnessed(defs, net, k, badDone, justDone) <==> Proof.Witnessed(c, k, badDone, justDone)
  {
    CodedParts(defs, net, vars, c);
    hide B.Model.Ok, Acyclic, WellFormed, Carried, Keeps, B.Model.Supported, Shown, B.IsRun, B.Constrained, B.Witness,
      Paired, CodedLits, CodedLists;
    if Witnessed(defs, net, k, badDone, justDone) {
      var r: Run :| |r| == k && Shown(defs, net, r, badDone, justDone);
      var r' := OnwardPaired(defs, net, vars, c, r);
      ShownAlike(defs, net, vars, c, r, r', badDone, justDone);
      assert |r'| == k && B.IsRun(c, r');
    }
    if Proof.Witnessed(c, k, badDone, justDone) {
      var r': Run :| |r'| == k && B.IsRun(c, r') && (forall t :: 0 <= t < k ==> B.Constrained(c, r'[t])) &&
        B.Witness(c, r', badDone, justDone);
      var r := BackPaired(defs, net, vars, c, r');
      ShownAlike(defs, net, vars, c, r, r', badDone, justDone);
      assert |r| == k && Shown(defs, net, r, badDone, justDone);
    }
  }

  // ----- the model of a reencoded circuit -----

  lemma NoSelfLoop(defs: Defs, v: nat)
    requires Acyclic(defs) && v in defs
    ensures !Child(defs, v, v)
  {
  }

  /** In order and acyclic, gates lie strictly above their right-hand sides. */
  lemma SectionOrdered(defs: Defs, net: Net, ands: seq<And>)
    requires InOrder(net.inputs, net.latches, ands) && Acyclic(defs) && Describes(ands, defs)
    ensures O.Ordered(|net.inputs| + |net.latches|, ands)
  {
    hide Acyclic, DistinctLhs, Listed;
    forall i | 0 <= i < |ands| ensures ands[i].lhs > ands[i].rhs0 {
      assert Entry(ands[i], defs);
      NoSelfLoop(defs, ands[i].lhs / 2);
    }
  }

  lemma GateAt(n: nat, defs: Defs, ands: seq<And>, i: nat)
    requires O.Ordered(n, ands) && Describes(ands, defs) && i < |ands|
    ensures n + i + 1 in defs && defs[n + i + 1] == (ands[i].rhs0, ands[i].rhs1)
  {
    hide DistinctLhs, Listed;
    assert Entry(ands[i], defs) && ands[i].lhs == 2 * (n + i + 1);
  }

  lemma GatesListed(n: nat, defs: Defs, ands: seq<And>, v: nat)
    requires O.Ordered(n, ands) && Describes(ands, defs) && v in defs
    ensures n < v <= n + |ands|
  {
    hide DistinctLhs, Entry;
    assert Listed(ands, v);
    var i :| 0 <= i < |ands| && ands[i].lhs == 2 * v;
    assert ands[i].lhs == 2 * (n + i + 1);
  }

  /** The AND array of a circuit numbered in order is the section of its gates. */
  lemma SectionGates(n: nat, defs: Defs, ands: seq<And>)
    requires O.Ordered(n, ands) && Describes(ands, defs)
    ensures O.Gates(n, ands) == defs
  {
    hide Describes, O.Ordered;
    var gates := O.Gates(n, ands);
    forall v | v in defs ensures v in gates {
      GatesListed(n, defs, ands, v);
      assert v in Range(n, n + |ands|);
    }
    forall v | v in gates ensures v in defs && defs[v] == gates[v] {
      GateAt(n, defs, ands, v - n - 1);
    }
  }

  lemma RootsBelow(defs: Defs, net: Net, ands: seq<And>, lit: nat)
    requires WellFormed(defs, net) && InOrder(net.inputs, net.latches, ands) && lit in Roots(net)
    requires var n := |net.inputs| + |net.latches|; O.Ordered(n, ands) && O.Gates(n, ands) == defs
    ensures ModelOf(net, ands).Defined(lit)
  {
    hide Roots, Closed, Acyclic, LeafVars;
    LeavesCount(net.inputs, net.latches);
    assert DefinedVar(defs, LeafVars(net.inputs, net.latches), lit / 2);
  }

  lemma OkIf(net: Net, ands: seq<And>)
    requires O.Ordered(|net.inputs| + |net.latches|, ands) && |net.bad| + |net.justice| > 0
    requires InOrder(net.inputs, net.latches, ands)
    requires forall lit :: lit in Roots(net) ==> ModelOf(net, ands).Defined(lit)
    ensures ModelOf(net, ands).Ok() && ModelOf(net, ands).Leaves() == |net.inputs| + |net.latches|
  {
    RootsHave(net);
    hide Roots, O.Ordered;
  }

  /** A checked circuit with a property, numbered in order, is a model. */
  lemma InOrderModel(defs: Defs, net: Net, ands: seq<And>)
    requires WellFormed(defs, net) && InOrder(net.inputs, net.latches, ands) && Describes(ands, defs)
    requires |net.bad| + |net.justice| > 0
    ensures Acyclic(defs) && ModelOf(net, ands).Ok() && O.Gates(ModelOf(net, ands).Leaves(), ands) == defs
  {
    hide *;
    WellFormedAcyclic(defs, net);
    SectionOrdered(defs, net, ands);
    SectionGates(|net.inputs| + |net.latches|, defs, ands);
    forall lit | lit in Roots(net) ensures ModelOf(net, ands).Defined(lit) {
      RootsBelow(defs, net, ands, lit);
    }
    OkIf(net, ands);
  }

  /** The values of the model are those of the circuit. */
  lemma ModelValue(defs: Defs, c: B.Model, env: iset<nat>, lit: nat)
    requires c.Ok() && Acyclic(defs) && O.Gates(c.Leaves(), c.ands) == defs
    ensures B.V(c, env, lit) <==> Means(defs, env, lit)
  {
  }

  lemma RewritingNamed(defs: Defs, net: Net, vars: seq<nat>)
    requires WellFormed(defs, net) && Rewriting(defs, net, vars)
    ensures Named(net, vars)
  {
    hide Roots, Acyclic, Closed, AllDefined, Needed, AllKnown, LeafVars;
    NumberingFacts(defs, |net.inputs| + |net.latches|, vars);
  }

  lemma KeepsIf(defs: Defs, net: Net, vars: seq<nat>, c: B.Model)
    requires Acyclic(defs) && c.Ok() && c.Leaves() <= |vars|
    requires forall env, env', lit :: Matched(c.Leaves(), vars, env, env') && lit in Roots(net) ==>
               (B.V(c, env', CodeOf(vars, lit)) <==> Means(defs, env, lit))
    ensures Keeps(defs, net, vars, c)
  {
    hide Matched, Roots, B.V, Means, CodeOf;
  }

  lemma RecodedLeaves(net: Net, vars: seq<nat>, ands: seq<And>)
    requires LeafVars(net.inputs, net.latches) <= vars
    ensures ModelOf(RecodedNet(vars, net), ands).Leaves() == |net.inputs| + |net.latches| <= |vars|
    ensures ModelOf(RecodedNet(vars, net), ands).ands == ands
    ensures RecodedNet(vars, net).bad == CodedLits(vars, net.bad)
    ensures RecodedNet(vars, net).justice == CodedLists(vars, net.justice)
  {
  }

  lemma CarriedIf(defs: Defs, net: Net, vars: seq<nat>, ands: seq<And>)
    requires var c := ModelOf(RecodedNet(vars, net), ands);
             Acyclic(defs) && c.Ok() && Named(net, vars) && c.Leaves() <= |vars| && Keeps(defs, net, vars, c)
    ensures Carried(defs, net, vars, ModelOf(RecodedNet(vars, net), ands))
  {
    hide Acyclic, B.Model.Ok, Named, Keeps, RecodedNet;
  }

  lemma NamedLeaves(net: Net, vars: seq<nat>)
    requires Named(net, vars)
    ensures LeafVars(net.inputs, net.latches) <= vars && |net.inputs| + |net.latches| <= |vars|
  {
    hide Roots, NoDup, AllKnown;
  }

  /** The rewritten circuit is carried from the given one. */
  lemma RewritingCarried(defs: Defs, net: Net, vars: seq<nat>, ands: seq<And>)
    requires WellFormed(defs, net) && Rewriting(defs, net, vars) && |net.bad| + |net.justice| > 0
    requires GatesFrom(defs, |net.inputs| + |net.latches|, vars)
    requires var net' := RecodedNet(vars, net);
             InOrder(net'.inputs, net'.latches, ands) &&
             Describes(ands, Renumbered(defs, |net.inputs| + |net.latches|, vars))
    ensures Carried(defs, net, vars, ModelOf(RecodedNet(vars, net), ands))
  {
    hide *;
    var n, net' := |net.inputs| + |net.latches|, RecodedNet(vars, net);
    var defs', c := Renumbered(defs, n, vars), ModelOf(net', ands);
    RewritingNamed(defs, net, vars);
    NamedLeaves(net, vars);
    RewrittenWellFormed(defs, net, vars);
    RecodedLeaves(net, vars, ands);
    InOrderModel(defs', net', ands);
    WellFormedAcyclic(defs, net);
    forall env, env', lit | Matched(n, vars, env, env') && lit in Roots(net)
      ensures B.V(c, env', CodeOf(vars, lit)) <==> Means(defs, env, lit)
    {
      RewritingMeans(defs, net, vars, env, env', lit);
      ModelValue(defs', c, env', CodeOf(vars, lit));
    }
    KeepsIf(defs, net, vars, c);
    CarriedIf(defs, net, vars, ands);
  }

  // ----- a circuit that was in order already -----

  function UpTo(m: nat): seq<nat> {
    seq(m, k requires 0 <= k < m => k + 1)
  }

  lemma SameCode(m: nat, lit: nat)
    requires lit / 2 <= m
    ensures CodeOf(UpTo(m), lit) == lit && Known(UpTo(m), lit)
  {
    if lit >= 2 {
      assert UpTo(m)[lit / 2 - 1] == lit / 2;
      PositionOf(UpTo(m), lit / 2 - 1);
    }
  }

  ghost predicate Below(m: nat, lits: seq<nat>) {
    forall i :: 0 <= i < |lits| ==> lits[i] / 2 <= m
  }

  lemma SameLits(m: nat, lits: seq<nat>)
    requires Below(m, lits)
    ensures CodedLits(UpTo(m), lits) == lits
  {
    hide CodeOf, UpTo;
    forall i | 0 <= i < |lits| ensures CodedLits(UpTo(m), lits)[i] == lits[i] {
      SameCode(m, lits[i]);
    }
  }

  lemma SameLists(m: nat, lists: seq<seq<nat>>)
    requires forall i :: 0 <= i < |lists| ==> Below(m, lists[i])
    ensures CodedLists(UpTo(m), lists) == lists
  {
    hide CodedLits, UpTo, Below;
    forall i | 0 <= i < |lists| ensures CodedLists(UpTo(m), lists)[i] == lists[i] {
      SameLits(m, lists[i]);
    }
  }

  lemma SameLatches(m: nat, latches: seq<Latch>)
    requires forall i :: 0 <= i < |latches| ==>
               latches[i].lit / 2 <= m && latches[i].next / 2 <= m && latches[i].reset / 2 <= m
    ensures LitCoded(UpTo(m), NextCoded(UpTo(m), latches)) == latches
  {
    hide CodeOf, UpTo;
    forall i | 0 <= i < |latches| ensures LitCoded(UpTo(m), NextCoded(UpTo(m), latches))[i] == latches[i] {
      SameCode(m, latches[i].lit);
      SameCode(m, latches[i].next);
      SameCode(m, latches[i].reset);
    }
  }

  /** All literals of a circuit numbered in order lie below m. */
  ghost predicate AllBelow(m: nat, net: Net) {
    Below(m, net.inputs) && Below(m, net.outputs) && Below(m, net.bad) && Below(m, net.constraints) &&
    Below(m, net.fairness) && (forall i :: 0 <= i < |net.justice| ==> Below(m, net.justice[i])) &&
    forall i :: 0 <= i < |net.latches| ==>
      net.latches[i].lit / 2 <= m && net.latches[i].next / 2 <= m && net.latches[i].reset / 2 <= m
  }

  lemma SameNet(m: nat, net: Net)
    requires AllBelow(m, net)
    ensures RecodedNet(UpTo(m), net) == net
  {
    hide CodedLits, CodedLists, LitCoded, NextCoded, UpTo, Below;
    SameLits(m, net.inputs);
    SameLits(m, net.outputs);
    SameLits(m, net.bad);
    SameLits(m, net.constraints);
    SameLits(m, net.fairness);
    SameLists(m, net.justice);
    SameLatches(m, net.latches);
  }

  lemma OutputsRooted(net: Net)
    ensures forall i :: 0 <= i < |net.outputs| ==> net.outputs[i] in Roots(net)
  {
    hide LatchRoots, Join;
  }

  lemma OkBelow(net: Net, ands: seq<And>)
    requires InOrder(net.inputs, net.latches, ands)
    requires forall lit :: lit in Roots(net) ==> ModelOf(net, ands).Defined(lit)
    ensures AllBelow(|net.inputs| + |net.latches| + |ands|, net)
  {
    RootsHave(net);
    OutputsRooted(net);
    hide Roots;
  }

  lemma RootsKnown(m: nat, lits: seq<nat>)
    requires forall lit :: lit in lits ==> lit / 2 <= m
    ensures AllKnown(UpTo(m), lits)
  {
    hide Known, UpTo;
    forall lit | lit in lits ensures Known(UpTo(m), lit) {
      SameCode(m, lit);
    }
  }

  lemma LeavesFirst(net: Net, m: nat)
    requires InOrder(net.inputs, net.latches, []) && |net.inputs| + |net.latches| <= m
    ensures LeafVars(net.inputs, net.latches) <= UpTo(m)
  {
    var leaves := LeafVars(net.inputs, net.latches);
    forall k | 0 <= k < |leaves| ensures leaves[k] == UpTo(m)[k] {
      if k >= |net.inputs| {
        assert leaves[k] == net.latches[k - |net.inputs|].lit / 2;
      }
    }
  }

  lemma UpToDistinct(m: nat)
    ensures NoDup(UpTo(m)) && 0 !in UpTo(m)
  {
  }

  lemma InOrderEven(net: Net, ands: seq<And>)
    requires InOrder(net.inputs, net.latches, ands)
    ensures InOrder(net.inputs, net.latches, [])
    ensures forall i :: 0 <= i < |net.latches| ==> net.latches[i].lit % 2 == 0
  {
  }

  lemma SameNamed(net: Net, ands: seq<And>, m: nat)
    requires InOrder(net.inputs, net.latches, ands) && m == |net.inputs| + |net.latches| + |ands|
    requires AllKnown(UpTo(m), Roots(net))
    ensures Named(net, UpTo(m))
  {
    hide Roots, LeafVars, NoDup, UpTo, AllKnown, InOrder;
    InOrderEven(net, ands);
    LeavesFirst(net, m);
    UpToDistinct(m);
  }

  lemma MatchedSame(net: Net, vars: seq<nat>, env: iset<nat>, env': iset<nat>)
    requires LeafVars(net.inputs, net.latches) <= vars && InOrder(net.inputs, net.latches, [])
    requires |net.inputs| + |net.latches| <= |vars| && Matched(|net.inputs| + |net.latches|, vars, env, env')
    ensures SameLeaves(net, net, env, env')
  {
    LeavesFirst(net, |net.inputs| + |net.latches|);
    hide InOrder;
    var leaves := LeafVars(net.inputs, net.latches);
    hide LeafVars;
    forall k | 0 <= k < |leaves| ensures leaves[k] in env <==> leaves[k] in env' {
      assert leaves[k] == vars[k] && leaves[k] == UpTo(|leaves|)[k] == k + 1;
    }
  }

  /** A circuit numbered in order is carried to itself. */
  lemma InOrderCarried(defs: Defs, net: Net, ands: seq<And>)
    requires WellFormed(defs, net) && InOrder(net.inputs, net.latches, ands) && Describes(ands, defs)
    requires |net.bad| + |net.justice| > 0
    ensures Carried(defs, net, UpTo(|net.inputs| + |net.latches| + |ands|), ModelOf(net, ands))
  {
    hide *;
    var n := |net.inputs| + |net.latches|;
    var m, c := n + |ands|, ModelOf(net, ands);
    var vars := UpTo(m);
    InOrderModel(defs, net, ands);
    SectionOrdered(defs, net, ands);
    SectionGates(n, defs, ands);
    InOrderEven(net, ands);
    forall lit | lit in Roots(net) ensures c.Defined(lit) && lit / 2 <= m {
      RootsBelow(defs, net, ands, lit);
      DefinedBelow(net, ands, lit);
    }
    OkBelow(net, ands);
    SameNet(m, net);
    RootsKnown(m, Roots(net));
    SameNamed(net, ands, m);
    NamedLeaves(net, vars);
    RecodedLeaves(net, vars, ands);
    forall env, env', lit | Matched(n, vars, env, env') && lit in Roots(net)
      ensures B.V(c, env', CodeOf(vars, lit)) <==> Means(defs, env, lit)
    {
      SameCode(m, lit);
      ModelValue(defs, c, env', lit);
      MatchedSame(net, vars, env, env');
      MeansSame(defs, net, env, env', lit);
    }
    KeepsIf(defs, net, vars, c);
    CarriedIf(defs, net, vars, ands);
  }

  lemma DefinedBelow(net: Net, ands: seq<And>, lit: nat)
    ensures ModelOf(net, ands).Defined(lit) <==> lit / 2 <= |net.inputs| + |net.latches| + |ands|
  {
  }

  // ----- what main does before the first bound -----

  datatype Prepared = NoProperties | Ready(model: B.Model)

  /** With -m, outputs become bad states when there are no bad states and no constraints. */
  function Moved(net: Net, move: bool): Net {
    if move && net.bad == [] && net.constraints == [] then net.(bad := net.outputs) else net
  }

  lemma MovedWellFormed(defs: Defs, net: Net)
    requires WellFormed(defs, net) && net.bad == []
    ensures WellFormed(defs, net.(bad := net.outputs))
  {
    hide Acyclic, Closed, NoDup, DefinedVar, LeafVars;
    var net' := net.(bad := net.outputs);
    forall lit | lit in Roots(net') ensures lit in Roots(net) {
    }
  }

  lemma SnapshotIs(circuit: Aiger.Circuit)
    ensures circuit.Snapshot() == Net(circuit.inputs, circuit.latches, circuit.outputs, circuit.bad,
                                      circuit.constraints, circuit.justice, circuit.fairness)
  {
  }

  lemma CheckedIff(circuit: Aiger.Circuit)
    ensures circuit.Checked() <==>
            circuit.Typed() && circuit.TypesAgree() && circuit.onstack == {} &&
            WellFormed(circuit.Gates(), circuit.Snapshot()) && LeavesBelow(circuit)
  {
    hide WellFormed, Aiger.Circuit.Typed, Aiger.Circuit.TypesAgree, LeafVars, Aiger.Circuit.Gates;
  }

  ghost predicate LeavesBelow(circuit: Aiger.Circuit)
    reads circuit`inputs, circuit`latches, circuit`maxvar
  {
    forall v :: v in LeafVars(circuit.inputs, circuit.latches) ==> v <= circuit.maxvar
  }

  method AddOutputs(circuit: Aiger.Circuit)
    requires circuit.bad == []
    modifies circuit`bad
    ensures circuit.bad == circuit.outputs
  {
    for i := 0 to |circuit.outputs|
      invariant circuit.bad == circuit.outputs[..i]
    {
      circuit.bad := circuit.bad + [circuit.outputs[i]];
    }
  }

  /** The outputs become bad states. */
  method MoveOutputs(circuit: Aiger.Circuit)
    requires circuit.Checked() && circuit.bad == []
    modifies circuit`bad
    ensures circuit.Checked() && circuit.Gates() == old(circuit.Gates())
    ensures circuit.Snapshot() == old(circuit.Snapshot()).(bad := circuit.outputs)
  {
    hide *;
    CheckedIff(circuit);
    SnapshotIs(circuit);
    MovedWellFormed(circuit.Gates(), circuit.Snapshot());
    AddOutputs(circuit);
    CheckedIff(circuit);
    SnapshotIs(circuit);
  }

  /** Either way out of aiger_reencode leads to the model. */
  lemma ReencodedCarried(defs: Defs, net: Net, ands: seq<And>, net': Net, ands': seq<And>, vars: seq<nat>)
    requires WellFormed(defs, net) && Describes(ands, defs) && |net.bad| + |net.justice| > 0
    requires InOrder(net'.inputs, net'.latches, ands')
    requires InOrder(net.inputs, net.latches, ands) ==> net' == net && ands' == ands
    requires !InOrder(net.inputs, net.latches, ands) ==>
               Rewriting(defs, net, vars) && GatesFrom(defs, |net.inputs| + |net.latches|, vars) &&
               net' == RecodedNet(vars, net) && Describes(ands', Renumbered(defs, |net.inputs| + |net.latches|, vars))
    ensures exists v :: Carried(defs, net, v, ModelOf(net', ands'))
  {
    hide WellFormed, Describes, InOrder, Rewriting, RecodedNet, Renumbered, GatesFrom, Carried, UpTo, ModelOf;
    if InOrder(net.inputs, net.latches, ands) {
      InOrderCarried(defs, net, ands);
    } else {
      RewritingCarried(defs, net, vars, ands');
    }
  }

  lemma RewrittenParts(circuit: Aiger.Circuit, defs: Defs, net: Net, vars: seq<nat>)
    requires circuit.Rewritten(defs, net, vars)
    ensures Rewriting(defs, net, vars) && GatesFrom(defs, |net.inputs| + |net.latches|, vars)
    ensures circuit.Snapshot() == RecodedNet(vars, net)
    ensures Describes(circuit.ands, Renumbered(defs, |net.inputs| + |net.latches|, vars))
  {
    hide Describes, Rewriting, RecodedNet, Renumbered, GatesFrom, Aiger.Circuit.Gates, Aiger.Circuit.Snapshot,
      Aiger.Circuit.Typed;
    circuit.TypedDescribes();
  }

  lemma ModelIs(net: Net, ands: seq<And>)
    ensures ModelOf(net, ands) ==
            B.Model(|net.inputs|, net.latches, ands, net.bad, net.constraints, net.justice, net.fairness)
  {
  }

  /** aiger_reencode makes the model that is solved. */
  method Load(circuit: Aiger.Circuit) returns (c: B.Model)
    requires circuit.Checked() && |circuit.bad| + |circuit.justice| > 0
    modifies circuit
    ensures exists vars :: Carried(old(circuit.Gates()), old(circuit.Snapshot()), vars, c)
  {
    ghost var defs, net, ands := circuit.Gates(), circuit.Snapshot(), circuit.ands;
    hide *;
    circuit.CheckedParts();
    circuit.TypedDescribes();
    SnapshotIs(circuit);
    ghost var vars := circuit.Reencode();
    SnapshotIs(circuit);
    ModelIs(circuit.Snapshot(), circuit.ands);
    if !InOrder(net.inputs, net.latches, ands) {
      RewrittenParts(circuit, defs, net, vars);
    }
    c := B.Model(|circuit.inputs|, circuit.latches, circuit.ands, circuit.bad, circuit.constraints, circuit.justice,
                 circuit.fairness);
    ReencodedCarried(defs, net, ands, circuit.Snapshot(), circuit.ands, vars);
  }

  /** Everything between reading the model and the first bound: outputs are moved on request,
      and with a property the circuit is reencoded into the model that is solved. */
  method Prepare(circuit: Aiger.Circuit, move: bool) returns (p: Prepared)
    requires circuit.Checked()
    modifies circuit
    ensures var net := Moved(old(circuit.Snapshot()), move);
            WellFormed(old(circuit.Gates()), net) && if net.bad == [] && net.justice == [] then p == NoProperties
            else p.Ready? && exists vars :: Carried(old(circuit.Gates()), net, vars, p.model)
  {
    circuit.CheckedParts();
    hide WellFormed, Carried, Roots, Aiger.Circuit.Gates, Aiger.Circuit.Checked;
    if move && circuit.bad == [] && circuit.constraints == [] {
      MoveOutputs(circuit);
      circuit.CheckedParts();
    }
    if circuit.bad == [] && circuit.justice == [] {
      return NoProperties;
    }
    var c := Load(circuit);
    p := Ready(c);
  }

  /** Bounded model checking is exact for the circuit that was read: with the model that
      Prepare makes of it, the clauses of the bounds 0 to k are satisfiable under the k-th
      assumption if and only if the circuit itself has a constrained run of k + 1 states
      that ends in an unreached bad state or closes an unreached lasso. */
  lemma ReadExact(defs: Defs, net: Net, vars: seq<nat>, c: B.Model, marks: seq<B.Mark>)
    requires WellFormed(defs, net) && Carried(defs, net, vars, c) && Supported(net)
    requires marks != [] && !marks[|marks| - 1].refuted
    requires forall u :: 0 <= u < |marks| ==> marks[u].justice <= marks[|marks| - 1].justice
    ensures Acyclic(defs) && c.Supported()
    ensures (exists w :: B.SatAll(w, B.Script(c, marks)) && B.Assume(|marks| - 1) in w) <==>
            Witnessed(defs, net, |marks|, marks[|marks| - 1].bad, marks[|marks| - 1].justice)
  {
    hide B.SatAll, B.Script, Witnessed, Proof.Witnessed, WellFormed, Acyclic, Carried, Supported, B.Model.Ok,
      B.Model.Supported;
    SupportedKept(defs, net, vars, c);
    WitnessedKept(defs, net, vars, c, |marks|, marks[|marks| - 1].bad, marks[|marks| - 1].justice);
    Proof.BoundedExact(c, marks);
  }
}
