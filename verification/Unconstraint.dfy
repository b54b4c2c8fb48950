/** aigunconstraint: environment constraints are replaced by one latch that remembers
    a violation and guards the bad states. */
module Unconstraint {
  import opened Lists
  import opened Aig
  import opened AigDfs
  import opened Renumber
  import opened Recode

  // ----- runs of a checked circuit -----

  ghost predicate Starts(net: Net, env: iset<nat>) {
    forall i :: 0 <= i < |net.latches| ==>
      (net.latches[i].reset == 0 ==> net.latches[i].lit / 2 !in env) &&
      (net.latches[i].reset == 1 ==> net.latches[i].lit / 2 in env)
  }

  ghost predicate Follows(defs: Defs, net: Net, env: iset<nat>, env': iset<nat>)
    requires Acyclic(defs)
  {
    forall i :: 0 <= i < |net.latches| ==> (net.latches[i].lit / 2 in env' <==> Means(defs, env, net.latches[i].next))
  }

  ghost predicate IsRun(defs: Defs, net: Net, r: seq<iset<nat>>)
    requires Acyclic(defs)
  {
    r != [] && Starts(net, r[0]) && forall t :: 0 <= t < |r| - 1 ==> Follows(defs, net, r[t], r[t + 1])
  }

  ghost predicate Constrained(defs: Defs, net: Net, env: iset<nat>)
    requires Acyclic(defs)
  {
    forall i :: 0 <= i < |net.constraints| ==> Means(defs, env, net.constraints[i])
  }

  /** Bad property j can be true at step t of a run whose constraints hold up to then. */
  ghost predicate BadAt(defs: Defs, net: Net, t: nat, j: nat)
    requires Acyclic(defs) && j < |net.bad|
  {
    exists r :: |r| == t + 1 && IsRun(defs, net, r) && (forall s :: 0 <= s <= t ==> Constrained(defs, net, r[s])) &&
      Means(defs, r[t], net.bad[j])
  }

  // ----- the new circuit -----

  /** The latch variable is m + 1, the guard gates m + 2, m + 3, ... */
  function GuardLit(m: nat, j: nat): nat {
    if j == 0 then 2 * (m + 1) + 1 else 2 * (m + 1 + j)
  }

  function GuardGate(m: nat, constraints: seq<nat>, j: nat): And
    requires j < |constraints|
  {
    And(2 * (m + 2 + j), GuardLit(m, j), constraints[j])
  }

  function BadGate(m: nat, n: nat, bad: seq<nat>, j: nat): And
    requires j < |bad|
  {
    And(2 * (m + 2 + n + j), GuardLit(m, n), bad[j])
  }

  function GuardGates(m: nat, constraints: seq<nat>): (s: seq<And>)
    ensures |s| == |constraints| && forall j :: 0 <= j < |s| ==> s[j] == GuardGate(m, constraints, j)
  {
    seq(|constraints|, j requires 0 <= j < |constraints| => GuardGate(m, constraints, j))
  }

  function BadGates(m: nat, n: nat, bad: seq<nat>): (s: seq<And>)
    ensures |s| == |bad| && forall j :: 0 <= j < |s| ==> s[j] == BadGate(m, n, bad, j)
  {
    seq(|bad|, j requires 0 <= j < |bad| => BadGate(m, n, bad, j))
  }

  function GuardLatch(m: nat, n: nat): Latch {
    Latch(2 * (m + 1), if GuardLit(m, n) % 2 == 0 then GuardLit(m, n) + 1 else GuardLit(m, n) - 1, 0)
  }

  function NewBad(m: nat, n: nat, bad: seq<nat>): (s: seq<nat>)
    ensures |s| == |bad| && forall j :: 0 <= j < |s| ==> s[j] == 2 * (m + 2 + n + j)
  {
    seq(|bad|, j requires 0 <= j < |bad| => 2 * (m + 2 + n + j))
  }

  function NewNet(m: nat, net: Net): Net {
    Net(net.inputs, net.latches + [GuardLatch(m, |net.constraints|)], [], NewBad(m, |net.constraints|, net.bad), [], [],
      [])
  }

  function NewDefs(defs: Defs, m: nat, net: Net): Defs {
    map v | v in defs.Keys + Range(m + 1, m + 1 + |net.constraints| + |net.bad|) :: NewGate(defs, m, net, v)
  }

  function NewGate(defs: Defs, m: nat, net: Net, v: nat): (nat, nat)
    requires v in defs || m + 1 < v <= m + 1 + |net.constraints| + |net.bad|
  {
    var n := |net.constraints|;
    if v in defs then defs[v]
    else if v <= m + 1 + n then (GuardLit(m, v - m - 2), net.constraints[v - m - 2])
    else (GuardLit(m, n), net.bad[v - m - 2 - n])
  }

  /** All variables of a circuit are at most m. */
  ghost predicate UpTo(defs: Defs, net: Net, m: nat) {
    0 !in defs && (forall v :: v in defs ==> v <= m && defs[v].0 / 2 <= m && defs[v].1 / 2 <= m) &&
    (forall i :: 0 <= i < |net.latches| ==> net.latches[i].lit / 2 <= m && net.latches[i].next / 2 <= m) &&
    (forall i :: 0 <= i < |net.constraints| ==> net.constraints[i] / 2 <= m) &&
    forall i :: 0 <= i < |net.bad| ==> net.bad[i] / 2 <= m
  }

  // ----- meaning -----

  /** Ranks of finitely many gates are bounded. */
  lemma {:induction false} RankBound(rank: map<nat, nat>, keys: set<nat>) returns (b: nat)
    ensures forall v :: v in keys && v in rank ==> rank[v] < b
    decreases |keys|
  {
    if keys == {} {
      b := 0;
    } else {
      var v :| v in keys;
      b := RankBound(rank, keys - {v});
      if v in rank && rank[v] >= b {
        b := rank[v] + 1;
      }
    }
  }

  lemma NewAcyclic(defs: Defs, m: nat, net: Net)
    requires Acyclic(defs) && UpTo(defs, net, m)
    ensures Acyclic(NewDefs(defs, m, net)) && 0 !in NewDefs(defs, m, net)
  {
    var rank :| Ranked(defs, rank);
    var b := RankBound(rank, defs.Keys);
    var defs' := NewDefs(defs, m, net);
    var rank' := map v | v in defs' :: NewRank(defs, rank, b, v);
    forall v, c | v in defs' && c in defs' && Child(defs', v, c) ensures rank'[c] < rank'[v] {
      NewChild(defs, m, net, v, c);
      if v in defs {
        assert Child(defs, v, c);
      }
    }
    assert Ranked(defs', rank');
  }

  function NewRank(defs: Defs, rank: map<nat, nat>, b: nat, v: nat): nat {
    if v in defs then RankOf(rank, v) else b + v
  }

  lemma NewChild(defs: Defs, m: nat, net: Net, v: nat, c: nat)
    requires UpTo(defs, net, m) && v in NewDefs(defs, m, net) && c in NewDefs(defs, m, net) &&
             Child(NewDefs(defs, m, net), v, c)
    ensures v in defs ==> c in defs && Child(defs, v, c)
    ensures v !in defs ==> c in defs || c < v
  {
    assert NewDefs(defs, m, net)[v] == NewGate(defs, m, net, v);
  }

  /** Two environments that agree up to m. */
  ghost predicate Agree(m: nat, env: iset<nat>, env': iset<nat>) {
    forall v: nat :: v <= m ==> (v in env <==> v in env')
  }

  /** Old literals keep their meaning. */
  lemma {:induction false} OldEval(defs: Defs, rank: map<nat, nat>, defs': Defs, m: nat, env: iset<nat>,
                                   env': iset<nat>, lit: nat)
    requires Ranked(defs, rank) && Acyclic(defs') && 0 !in defs && 0 !in defs' && lit / 2 <= m && Agree(m, env, env')
    requires forall v: nat :: v <= m ==> (v in defs <==> v in defs')
    requires forall v :: v in defs ==> v in defs' && defs'[v] == defs[v] && defs[v].0 / 2 <= m && defs[v].1 / 2 <= m
    ensures Means(defs', env', lit) == Eval(defs, rank, env, lit)
    decreases RankOf(rank, lit / 2), if lit / 2 in defs then 1 else 0, lit % 2
  {
    hide Means, Eval, Acyclic, Ranked;
    var v := lit / 2;
    if lit % 2 == 1 {
      OldEval(defs, rank, defs', m, env, env', lit - 1);
      MeansNot(defs', env', lit - 1);
      EvalNot(defs, rank, env, lit - 1);
    } else if v in defs {
      MeansGate(defs', env', v);
      EvalGate(defs, rank, env, v);
      OldChild(defs, rank, defs', m, env, env', v, defs[v].0);
      OldChild(defs, rank, defs', m, env, env', v, defs[v].1);
    } else {
      MeansLeaf(defs', env', v);
      EvalLeaf(defs, rank, env, v);
    }
  }

  lemma {:induction false} OldChild(defs: Defs, rank: map<nat, nat>, defs': Defs, m: nat, env: iset<nat>,
                                    env': iset<nat>, v: nat, lit: nat)
    requires Ranked(defs, rank) && Acyclic(defs') && 0 !in defs && 0 !in defs' && lit / 2 <= m && Agree(m, env, env')
    requires forall v: nat :: v <= m ==> (v in defs <==> v in defs')
    requires forall v :: v in defs ==> v in defs' && defs'[v] == defs[v] && defs[v].0 / 2 <= m && defs[v].1 / 2 <= m
    requires v in defs && (lit == defs[v].0 || lit == defs[v].1)
    ensures Means(defs', env', lit) == Eval(defs, rank, env, lit)
    decreases RankOf(rank, v), 0, 1
  {
    hide Means, Eval, Acyclic;
    if lit / 2 in defs {
      assert Child(defs, v, lit / 2);
      OldEval(defs, rank, defs', m, env, env', lit);
    } else {
      MeansLeaf(defs', env', lit / 2);
      EvalLeaf(defs, rank, env, lit / 2);
      if lit % 2 == 1 {
        MeansNot(defs', env', lit - 1);
        EvalNot(defs, rank, env, lit - 1);
      }
    }
  }

  lemma OldMeans(defs: Defs, m: nat, net: Net, env: iset<nat>, env': iset<nat>, lit: nat)
    requires Acyclic(defs) && UpTo(defs, net, m) && lit / 2 <= m && Agree(m, env, env')
    ensures Acyclic(NewDefs(defs, m, net)) && Means(NewDefs(defs, m, net), env', lit) == Means(defs, env, lit)
  {
    NewAcyclic(defs, m, net);
    var rank :| Ranked(defs, rank);
    MeansEval(defs, rank, env, lit);
    hide Acyclic, Means, Ranked;
    OldEval(defs, rank, NewDefs(defs, m, net), m, env, env', lit);
  }

  /** A guard says that the latch is off and the first constraints hold. */
  lemma {:induction false} GuardMeans(defs: Defs, m: nat, net: Net, env': iset<nat>, j: nat)
    requires Acyclic(defs) && UpTo(defs, net, m) && j <= |net.constraints|
    ensures Acyclic(NewDefs(defs, m, net))
    ensures Means(NewDefs(defs, m, net), env', GuardLit(m, j)) <==>
            m + 1 !in env' && forall i :: 0 <= i < j ==> Means(defs, env', net.constraints[i])
  {
    hide Means, Acyclic;
    NewAcyclic(defs, m, net);
    var defs' := NewDefs(defs, m, net);
    if j == 0 {
      MeansLeaf(defs', env', m + 1);
      MeansNot(defs', env', 2 * (m + 1));
    } else {
      var v := m + 1 + j;
      assert v in Range(m + 1, m + 1 + |net.constraints| + |net.bad|) && v !in defs;
      assert defs'[v] == NewGate(defs, m, net, v);
      MeansGate(defs', env', v);
      GuardMeans(defs, m, net, env', j - 1);
      OldMeans(defs, m, net, env', env', net.constraints[j - 1]);
    }
  }

  lemma BadMeans(defs: Defs, m: nat, net: Net, env': iset<nat>, j: nat)
    requires Acyclic(defs) && UpTo(defs, net, m) && j < |net.bad|
    ensures Acyclic(NewDefs(defs, m, net))
    ensures Means(NewDefs(defs, m, net), env', NewNet(m, net).bad[j]) <==>
            m + 1 !in env' && Constrained(defs, net, env') && Means(defs, env', net.bad[j])
  {
    hide Means, Acyclic;
    NewAcyclic(defs, m, net);
    var defs', n := NewDefs(defs, m, net), |net.constraints|;
    var v := m + 2 + n + j;
    assert v in Range(m + 1, m + 1 + |net.constraints| + |net.bad|) && v !in defs;
    assert defs'[v] == NewGate(defs, m, net, v);
    MeansGate(defs', env', v);
    GuardMeans(defs, m, net, env', n);
    OldMeans(defs, m, net, env', env', net.bad[j]);
  }

  /** The guard latch steps to "a constraint was violated". */
  lemma LatchMeans(defs: Defs, m: nat, net: Net, env': iset<nat>)
    requires Acyclic(defs) && UpTo(defs, net, m)
    ensures Acyclic(NewDefs(defs, m, net))
    ensures Means(NewDefs(defs, m, net), env', GuardLatch(m, |net.constraints|).next) <==>
            m + 1 in env' || !Constrained(defs, net, env')
  {
    hide Means, Acyclic;
    var defs', n := NewDefs(defs, m, net), |net.constraints|;
    NewAcyclic(defs, m, net);
    GuardMeans(defs, m, net, env', n);
    if n == 0 {
      MeansNot(defs', env', 2 * (m + 1));
    } else {
      MeansNot(defs', env', GuardLit(m, n));
    }
  }

  /** In every run of the new circuit the guard latch is on exactly after a violation. */
  lemma {:induction false} LatchInvariant(defs: Defs, m: nat, net: Net, r: seq<iset<nat>>, t: nat)
    requires Acyclic(defs) && UpTo(defs, net, m) && Acyclic(NewDefs(defs, m, net))
    requires IsRun(NewDefs(defs, m, net), NewNet(m, net), r) && t < |r|
    ensures m + 1 in r[t] <==> exists s :: 0 <= s < t && !Constrained(defs, net, r[s])
  {
    hide Means, Acyclic, Constrained, UpTo;
    var net' := NewNet(m, net);
    var k := |net.latches|;
    assert net'.latches[k] == GuardLatch(m, |net.constraints|);
    if t > 0 {
      LatchInvariant(defs, m, net, r, t - 1);
      LatchMeans(defs, m, net, r[t - 1]);
      assert Follows(NewDefs(defs, m, net), net', r[t - 1], r[t]);
    }
  }

  /** A run of the new circuit is a run of the old one. */
  lemma ProjectRun(defs: Defs, m: nat, net: Net, r: seq<iset<nat>>)
    requires Acyclic(defs) && UpTo(defs, net, m) && Acyclic(NewDefs(defs, m, net))
    requires IsRun(NewDefs(defs, m, net), NewNet(m, net), r)
    ensures IsRun(defs, net, r)
  {
    hide Means, Acyclic;
    var net' := NewNet(m, net);
    assert forall i :: 0 <= i < |net.latches| ==> net'.latches[i] == net.latches[i];
    forall t | 0 <= t < |r| - 1 ensures Follows(defs, net, r[t], r[t + 1]) {
      assert Follows(NewDefs(defs, m, net), net', r[t], r[t + 1]);
      forall i | 0 <= i < |net.latches|
        ensures net.latches[i].lit / 2 in r[t + 1] <==> Means(defs, r[t], net.latches[i].next)
      {
        assert net'.latches[i] == net.latches[i];
        OldMeans(defs, m, net, r[t], r[t], net.latches[i].next);
      }
    }
  }

  /** The states of a run with the guard latch added. */
  ghost function Extend(defs: Defs, m: nat, net: Net, r: seq<iset<nat>>): (r': seq<iset<nat>>)
    requires Acyclic(defs)
    ensures |r'| == |r|
  {
    seq(|r|, t requires 0 <= t < |r| => ExtendAt(defs, m, net, r, t))
  }

  ghost function ExtendAt(defs: Defs, m: nat, net: Net, r: seq<iset<nat>>, t: nat): iset<nat>
    requires Acyclic(defs) && t < |r|
  {
    if exists s :: 0 <= s < t && !Constrained(defs, net, r[s]) then r[t] + iset{m + 1} else r[t] - iset{m + 1}
  }

  lemma ConstrainedSame(defs: Defs, m: nat, net: Net, env: iset<nat>, env': iset<nat>)
    requires Acyclic(defs) && UpTo(defs, net, m) && Agree(m, env, env')
    ensures Constrained(defs, net, env) <==> Constrained(defs, net, env')
  {
    hide Means, Acyclic;
    forall i | 0 <= i < |net.constraints| ensures Means(defs, env, net.constraints[i]) ==
      Means(defs, env', net.constraints[i]) {
      OldMeans(defs, m, net, env, env', net.constraints[i]);
      OldMeans(defs, m, net, env', env', net.constraints[i]);
    }
  }

  lemma ExtendRun(defs: Defs, m: nat, net: Net, r: seq<iset<nat>>)
    requires Acyclic(defs) && UpTo(defs, net, m) && Acyclic(NewDefs(defs, m, net)) && IsRun(defs, net, r)
    ensures IsRun(NewDefs(defs, m, net), NewNet(m, net), Extend(defs, m, net, r))
  {
    hide Means, Acyclic, Constrained;
    var defs', net', r' := NewDefs(defs, m, net), NewNet(m, net), Extend(defs, m, net, r);
    assert forall i :: 0 <= i < |net.latches| ==> net'.latches[i] == net.latches[i];
    forall t | 0 <= t < |r| - 1 ensures Follows(defs', net', r'[t], r'[t + 1]) {
      assert Follows(defs, net, r[t], r[t + 1]);
      assert Agree(m, r[t], r'[t]);
      forall i | 0 <= i < |net'.latches|
        ensures net'.latches[i].lit / 2 in r'[t + 1] <==> Means(defs', r'[t], net'.latches[i].next)
      {
        if i < |net.latches| {
          assert net'.latches[i] == net.latches[i];
          OldMeans(defs, m, net, r[t], r'[t], net.latches[i].next);
        } else {
          LatchMeans(defs, m, net, r'[t]);
          ConstrainedSame(defs, m, net, r[t], r'[t]);
          assert m + 1 in r'[t + 1] <==> exists s :: 0 <= s < t + 1 && !Constrained(defs, net, r[s]);
          assert m + 1 in r'[t] <==> exists s :: 0 <= s < t && !Constrained(defs, net, r[s]);
        }
      }
    }
  }

  /** Eliminating the constraints is exact: a bad state is reachable at step t under the
      constraints if and only if its guarded copy is reachable at step t without any. */
  lemma BadPreserved(defs: Defs, m: nat, net: Net, t: nat, j: nat)
    requires Acyclic(defs) && UpTo(defs, net, m) && j < |net.bad|
    ensures Acyclic(NewDefs(defs, m, net))
    ensures BadAt(defs, net, t, j) <==> BadAt(NewDefs(defs, m, net), NewNet(m, net), t, j)
  {
    hide Means, Acyclic, IsRun, UpTo;
    NewAcyclic(defs, m, net);
    var defs', net' := NewDefs(defs, m, net), NewNet(m, net);
    if BadAt(defs, net, t, j) {
      var r :| |r| == t + 1 && IsRun(defs, net, r) && (forall s :: 0 <= s <= t ==> Constrained(defs, net, r[s])) &&
        Means(defs, r[t], net.bad[j]);
      var r' := Extend(defs, m, net, r);
      ExtendRun(defs, m, net, r);
      assert Agree(m, r[t], r'[t]) && m + 1 !in r'[t];
      ConstrainedSame(defs, m, net, r[t], r'[t]);
      BadSame(defs, m, net, r[t], r'[t], j);
      BadMeans(defs, m, net, r'[t], j);
      assert forall s :: 0 <= s <= t ==> Constrained(defs', net', r'[s]);
    }
    if BadAt(defs', net', t, j) {
      var r :| |r| == t + 1 && IsRun(defs', net', r) && (forall s :: 0 <= s <= t ==> Constrained(defs', net', r[s])) &&
        Means(defs', r[t], net'.bad[j]);
      ProjectRun(defs, m, net, r);
      BadMeans(defs, m, net, r[t], j);
      LatchInvariant(defs, m, net, r, t);
      assert forall s :: 0 <= s <= t ==> Constrained(defs, net, r[s]);
    }
  }

  lemma BadSame(defs: Defs, m: nat, net: Net, env: iset<nat>, env': iset<nat>, j: nat)
    requires Acyclic(defs) && UpTo(defs, net, m) && Agree(m, env, env') && j < |net.bad|
    ensures Means(defs, env, net.bad[j]) == Means(defs, env', net.bad[j])
  {
    OldMeans(defs, m, net, env, env', net.bad[j]);
    OldMeans(defs, m, net, env', env', net.bad[j]);
  }

  // ----- building the new circuit -----

  /** Added gate i of the new AND array. */
  lemma AddedEntry(defs: Defs, m: nat, net: Net, i: nat)
    requires UpTo(defs, net, m) && i < |net.constraints| + |net.bad|
    ensures var a := (GuardGates(m, net.constraints) + BadGates(m, |net.constraints|, net.bad))[i];
            Entry(a, NewDefs(defs, m, net)) && a.lhs == 2 * (m + 2 + i)
  {
    var v := m + 2 + i;
    assert v in Range(m + 1, m + 1 + |net.constraints| + |net.bad|) && v !in defs;
    assert NewDefs(defs, m, net)[v] == NewGate(defs, m, net, v);
  }

  lemma KeptEntry(defs: Defs, m: nat, net: Net, a: And)
    requires UpTo(defs, net, m) && Entry(a, defs)
    ensures Entry(a, NewDefs(defs, m, net)) && a.lhs < 2 * (m + 1)
  {
    assert NewDefs(defs, m, net)[a.lhs / 2] == NewGate(defs, m, net, a.lhs / 2);
  }

  lemma NewKeys(defs: Defs, m: nat, net: Net, v: nat)
    requires v in NewDefs(defs, m, net) && v !in defs
    ensures m + 2 <= v < m + 2 + |net.constraints| + |net.bad|
  {
  }

  /** The new AND array describes the new gates. */
  lemma NewDescribes(ands: seq<And>, defs: Defs, m: nat, net: Net)
    requires Describes(ands, defs) && UpTo(defs, net, m)
    ensures Describes(ands + GuardGates(m, net.constraints) + BadGates(m, |net.constraints|, net.bad),
            NewDefs(defs, m, net))
  {
    var added, defs' := GuardGates(m, net.constraints) + BadGates(m, |net.constraints|, net.bad), NewDefs(defs, m, net);
    var all := ands + added;
    assert ands + GuardGates(m, net.constraints) + BadGates(m, |net.constraints|, net.bad) == all;
    hide GuardGates, BadGates, NewDefs, Entry, UpTo;
    forall i | 0 <= i < |all|
      ensures Entry(all[i], defs')
      ensures if i < |ands| then all[i] == ands[i] && all[i].lhs < 2 * (m + 1)
              else all[i].lhs == 2 * (m + 2 + (i - |ands|))
    {
      if i < |ands| {
        KeptEntry(defs, m, net, ands[i]);
      } else {
        AddedEntry(defs, m, net, i - |ands|);
        assert all[i] == added[i - |ands|];
      }
    }
    forall v | v in defs' ensures Listed(all, v) {
      if v in defs {
        var i := EntryOf(ands, defs, v);
        assert all[i].lhs == 2 * v;
      } else {
        NewKeys(defs, m, net, v);
        assert all[|ands| + (v - m - 2)].lhs == 2 * v;
      }
    }
  }

  /** The library's view of a circuit under construction. */
  class Target {
    var maxvar: nat
    var inputs: seq<nat>
    var ands: seq<And>
    var latches: seq<Latch>
    var bad: seq<nat>
    /** The tool's own counter of new variables. */
    var counter: nat

    constructor ()
      ensures maxvar == 0 && inputs == [] && ands == [] && latches == [] && bad == [] && counter == 0
    {
      maxvar, inputs, ands, latches, bad, counter := 0, [], [], [], [], 0;
    }

    /** aiger_import_literal */
    method Import(lit: nat)
      modifies this`maxvar
      ensures maxvar >= old(maxvar) && maxvar >= lit / 2 && (maxvar == old(maxvar) || maxvar == lit / 2)
    {
      if lit / 2 > maxvar {
        maxvar := lit / 2;
      }
    }

    method AddAnd(lhs: nat, rhs0: nat, rhs1: nat)
      modifies this`maxvar, this`ands
      ensures ands == old(ands) + [And(lhs, rhs0, rhs1)]
      ensures maxvar >= old(maxvar) && maxvar >= lhs / 2 && maxvar >= rhs0 / 2 && maxvar >= rhs1 / 2
    {
      Import(lhs);
      Import(rhs0);
      Import(rhs1);
      ands := ands + [And(lhs, rhs0, rhs1)];
    }

    method AddLatch(lit: nat, next: nat, reset: nat)
      modifies this`maxvar, this`latches
      ensures latches == old(latches) + [Latch(lit, next, reset)]
      ensures maxvar >= old(maxvar) && maxvar >= lit / 2 && maxvar >= next / 2
    {
      Import(lit);
      Import(next);
      latches := latches + [Latch(lit, next, reset)];
    }

    /** newlit: the counter starts at the highest variable so far. */
    method NewLit() returns (lit: nat)
      modifies this`counter
      ensures counter == (if old(counter) == 0 then maxvar else old(counter)) + 1 && lit == 2 * counter
    {
      if counter == 0 {
        counter := maxvar;
      }
      counter := counter + 1;
      lit := 2 * counter;
    }

    /** main: inputs, latches and gates are copied. */
    method Copy(net: Net, src: seq<And>)
      requires inputs == [] && ands == [] && latches == []
      modifies this`maxvar, this`inputs, this`ands, this`latches
      ensures inputs == net.inputs && ands == src && latches == net.latches
      ensures forall i :: 0 <= i < |inputs| ==> inputs[i] / 2 <= maxvar
      ensures forall i :: 0 <= i < |src| ==>
              src[i].lhs / 2 <= maxvar && src[i].rhs0 / 2 <= maxvar && src[i].rhs1 / 2 <= maxvar
      ensures forall i :: 0 <= i < |latches| ==> latches[i].lit / 2 <= maxvar && latches[i].next / 2 <= maxvar
    {
      for j := 0 to |net.inputs|
        invariant inputs == net.inputs[..j] && ands == [] && latches == []
        invariant forall i :: 0 <= i < |inputs| ==> inputs[i] / 2 <= maxvar
      {
        Import(net.inputs[j]);
        inputs := inputs + [net.inputs[j]];
      }
      for j := 0 to |src|
        invariant inputs == net.inputs && ands == src[..j] && latches == []
        invariant forall i :: 0 <= i < |inputs| ==> inputs[i] / 2 <= maxvar
        invariant forall i :: 0 <= i < j ==>
                  src[i].lhs / 2 <= maxvar && src[i].rhs0 / 2 <= maxvar && src[i].rhs1 / 2 <= maxvar
      {
        AddAnd(src[j].lhs, src[j].rhs0, src[j].rhs1);
      }
      for j := 0 to |net.latches|
        invariant inputs == net.inputs && ands == src && latches == net.latches[..j]
        invariant forall i :: 0 <= i < |inputs| ==> inputs[i] / 2 <= maxvar
        invariant forall i :: 0 <= i < |src| ==>
                  src[i].lhs / 2 <= maxvar && src[i].rhs0 / 2 <= maxvar && src[i].rhs1 / 2 <= maxvar
        invariant forall i :: 0 <= i < j ==> net.latches[i].lit / 2 <= maxvar && net.latches[i].next / 2 <= maxvar
      {
        var s := net.latches[j];
        AddLatch(s.lit, s.next, s.reset);
      }
    }

    /** main: the chain of guards and the latch. */
    method Guard(net: Net, ghost m: nat) returns (valid: nat)
      requires counter == 0 && maxvar == m
      modifies this`maxvar, this`ands, this`latches, this`counter
      ensures valid == GuardLit(m, |net.constraints|) && counter == m + 1 + |net.constraints|
      ensures ands == old(ands) + GuardGates(m, net.constraints)
      ensures latches == old(latches) + [GuardLatch(m, |net.constraints|)]
    {
      var invalid := NewLit();
      valid := invalid + 1;
      ghost var ands0 := ands;
      for j := 0 to |net.constraints|
        invariant invalid == 2 * (m + 1) && valid == GuardLit(m, j) && counter == m + 1 + j && latches == old(latches)
        invariant ands == ands0 + GuardGates(m, net.constraints)[..j]
      {
        var tmp := NewLit();
        AddAnd(tmp, valid, net.constraints[j]);
        assert GuardGates(m, net.constraints)[..j + 1] == GuardGates(m, net.constraints)[..j] +
          [GuardGate(m, net.constraints, j)];
        valid := tmp;
      }
      AddLatch(invalid, if valid % 2 == 0 then valid + 1 else valid - 1, 0);
    }

    /** main: guarded bad states. */
    method GuardBad(net: Net, valid: nat, ghost m: nat, ghost n: nat)
      requires valid == GuardLit(m, n) && counter == m + 1 + n && bad == []
      modifies this`maxvar, this`ands, this`counter, this`bad
      ensures ands == old(ands) + BadGates(m, n, net.bad) && bad == NewBad(m, n, net.bad)
    {
      ghost var ands0 := ands;
      for j := 0 to |net.bad|
        invariant counter == m + 1 + n + j && bad == NewBad(m, n, net.bad)[..j]
        invariant ands == ands0 + BadGates(m, n, net.bad)[..j]
      {
        var tmp := NewLit();
        AddAnd(tmp, valid, net.bad[j]);
        assert BadGates(m, n, net.bad)[..j + 1] == BadGates(m, n, net.bad)[..j] + [BadGate(m, n, net.bad, j)];
        Import(tmp);
        bad := bad + [tmp];
      }
    }

    /** main between reading and reencoding; other kinds of properties are refused. */
    method Eliminate(net: Net, src: seq<And>, ghost defs: Defs) returns (ok: bool, ghost m: nat)
      requires inputs == [] && ands == [] && latches == [] && bad == [] && counter == 0
      requires WellFormed(defs, net) && Describes(src, defs)
      modifies this
      ensures ok <==> net.outputs == [] && net.bad != [] && net.constraints != [] && net.justice == []
      ensures ok ==> UpTo(defs, net, m) && Net(inputs, latches, [], bad, [], [], []) == NewNet(m, net) &&
                     Describes(ands, NewDefs(defs, m, net))
    {
      ok, m := net.outputs == [] && net.bad != [] && net.constraints != [] && net.justice == [], 0;
      if ok {
        hide WellFormed, Describes, UpTo, GuardGates, BadGates;
        Copy(net, src);
        m := maxvar;
        CopiedUpTo(src, defs, net, m);
        var valid := Guard(net, m);
        GuardBad(net, valid, m, |net.constraints|);
        NewDescribes(src, defs, m, net);
      }
    }
  }

  /** The highest imported variable bounds every defined one. */
  lemma CopiedUpTo(src: seq<And>, defs: Defs, net: Net, m: nat)
    requires WellFormed(defs, net) && Describes(src, defs)
    requires forall i :: 0 <= i < |net.inputs| ==> net.inputs[i] / 2 <= m
    requires forall i :: 0 <= i < |src| ==> src[i].lhs / 2 <= m && src[i].rhs0 / 2 <= m && src[i].rhs1 / 2 <= m
    requires forall i :: 0 <= i < |net.latches| ==> net.latches[i].lit / 2 <= m && net.latches[i].next / 2 <= m
    ensures UpTo(defs, net, m)
  {
    hide WellFormed, Describes;
    ZeroFree(defs, net);
    forall v | v in defs ensures v <= m && defs[v].0 / 2 <= m && defs[v].1 / 2 <= m {
      var i := EntryOf(src, defs, v);
    }
    ClosedRoots(defs, net, m);
  }

  lemma ZeroFree(defs: Defs, net: Net)
    requires WellFormed(defs, net)
    ensures 0 !in defs
  {
  }

  lemma ClosedRoots(defs: Defs, net: Net, m: nat)
    requires WellFormed(defs, net) && forall v :: v in defs ==> v <= m
    requires forall i :: 0 <= i < |net.inputs| ==> net.inputs[i] / 2 <= m
    requires forall i :: 0 <= i < |net.latches| ==> net.latches[i].lit / 2 <= m
    ensures forall i :: 0 <= i < |net.constraints| ==> net.constraints[i] / 2 <= m
    ensures forall i :: 0 <= i < |net.bad| ==> net.bad[i] / 2 <= m
  {
    hide Acyclic, Closed, NoDup, LatchRoots, Join;
    var leaves := LeafVars(net.inputs, net.latches);
    forall v | v in leaves ensures v <= m {
      var i :| 0 <= i < |leaves| && leaves[i] == v;
      assert i >= |net.inputs| ==> leaves[|net.inputs| + (i - |net.inputs|)] == v;
    }
    hide LeafVars;
    forall lit | lit in Roots(net) ensures lit / 2 <= m {
      assert DefinedVar(defs, leaves, lit / 2);
    }
    forall i | 0 <= i < |net.constraints| ensures net.constraints[i] in Roots(net) {
      assert net.constraints[i] in net.constraints;
    }
    forall i | 0 <= i < |net.bad| ensures net.bad[i] in Roots(net) {
      assert net.bad[i] in net.bad;
    }
  }
}
