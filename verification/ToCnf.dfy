/** aigtocnf: the clauses of a combinational circuit with one output, by polarity. */
module ToCnf {
  import opened Cnf
  import opened Aig
  import opened OrderedAig

  // ----- the DIMACS stream -----

  function PrintAll(clauses: seq<Clause>): seq<int> {
    if clauses == [] then [] else PrintAll(clauses[..|clauses| - 1]) + clauses[|clauses| - 1] + [0]
  }

  /** The clauses a reader finds: maximal runs ended by a zero. */
  function Parse(tokens: seq<int>): seq<Clause> {
    ParseFrom(tokens, [])
  }

  function ParseFrom(tokens: seq<int>, current: Clause): seq<Clause>
    decreases |tokens|
  {
    if tokens == [] then []
    else if tokens[0] == 0 then [current] + ParseFrom(tokens[1..], [])
    else ParseFrom(tokens[1..], current + [tokens[0]])
  }

  lemma {:induction false} ParseSplit(a: seq<int>, b: seq<int>, current: Clause)
    ensures ParseFrom(a + [0] + b, current) == ParseFrom(a + [0], current) + Parse(b)
    decreases |a|
  {
    if a == [] {
      assert (a + [0] + b)[1..] == b && (a + [0])[1..] == [];
    } else {
      assert (a + [0] + b)[1..] == a[1..] + [0] + b && (a + [0])[1..] == a[1..] + [0];
      ParseSplit(a[1..], b, if a[0] == 0 then [] else current + [a[0]]);
    }
  }

  lemma {:induction false} ParseClause(c: Clause, current: Clause)
    requires NonZero(c)
    ensures ParseFrom(c + [0], current) == [current + c]
    decreases |c|
  {
    if c == [] {
      assert (c + [0])[1..] == [] && current + c == current;
    } else {
      assert c[0] in c && (c + [0])[1..] == c[1..] + [0] && current + [c[0]] + c[1..] == current + c;
      ParseClause(c[1..], current + [c[0]]);
    }
  }

  /** Printed clauses are read back unless one contains a zero. */
  lemma {:induction false} ParsePrint(clauses: seq<Clause>)
    requires forall c :: c in clauses ==> NonZero(c)
    ensures Parse(PrintAll(clauses)) == clauses
  {
    if clauses != [] {
      var n := |clauses| - 1;
      var init := clauses[..n];
      ParsePrint(init);
      ParseClause(clauses[n], []);
      assert [] + clauses[n] == clauses[n];
      ParseAppend(init, clauses[n]);
      assert clauses == init + [clauses[n]];
    }
  }

  lemma ParseAppend(init: seq<Clause>, c: Clause)
    ensures Parse(PrintAll(init) + c + [0]) == Parse(PrintAll(init)) + Parse(c + [0])
  {
    if init != [] {
      var p := PrintAll(init);
      var q := p[..|p| - 1];
      assert p == q + [0];
      assert p + c + [0] == q + [0] + (c + [0]);
      ParseSplit(q, c + [0], []);
    } else {
      assert PrintAll(init) + c + [0] == c + [0];
    }
  }

  /** A clause printed with a zero at its end leaves an empty clause behind. */
  lemma {:induction false} ZeroLeavesEmpty(clauses: seq<Clause>, k: nat)
    requires k < |clauses| && clauses[k] != [] && clauses[k][|clauses[k]| - 1] == 0
    ensures [] in Parse(PrintAll(clauses))
  {
    var n := |clauses| - 1;
    var init := clauses[..n];
    ParseAppend(init, clauses[n]);
    if k < n {
      ZeroLeavesEmpty(init, k);
    } else {
      var c := clauses[n];
      var d := c[..|c| - 1];
      assert c + [0] == d + [0] + [0];
      ParseSplit(d, [0], []);
      assert Parse([0]) == [[]];
      assert Parse(c + [0])[|Parse(c + [0])| - 1] == [];
    }
  }

  ghost predicate SatAll(a: Assignment, clauses: seq<Clause>) {
    forall c :: c in clauses ==> Satisfies(a, c)
  }

  ghost predicate Satisfiable(clauses: seq<Clause>) {
    exists a :: SatAll(a, clauses)
  }

  // ----- reference counts and the variable map -----

  function At<T>(s: seq<T>, i: nat, none: T): T {
    if i < |s| then s[i] else none
  }

  /** A literal is referenced in this polarity. */
  predicate Pos(refs: seq<nat>, lit: nat) {
    At(refs, lit, 0) > 0
  }

  predicate Used(refs: seq<nat>, v: nat) {
    Pos(refs, 2 * v) || Pos(refs, 2 * v + 1)
  }

  /** A literal whose value the clauses constrain; constants are fixed both ways. */
  predicate Needs(refs: seq<nat>, lit: nat) {
    if lit < 2 then Used(refs, 0) else Pos(refs, lit)
  }

  predicate GateCovered(a: And, refs: seq<nat>) {
    (Pos(refs, a.lhs) ==> Needs(refs, a.rhs0) && Needs(refs, a.rhs1)) &&
    (Pos(refs, a.lhs + 1) ==> Needs(refs, Not(a.rhs0)) && Needs(refs, Not(a.rhs1)))
  }

  /** What is referenced references its right-hand sides. */
  ghost predicate Covered(ands: seq<And>, refs: seq<nat>) {
    forall i :: 0 <= i < |ands| ==> GateCovered(ands[i], refs)
  }

  /** The DIMACS literal of the positive side of a variable; literal 1 for the constant. */
  function Index(mp: seq<int>, v: nat): int {
    if v == 0 then At(mp, 1, 0) else At(mp, 2 * v, 0)
  }

  ghost predicate VarMapped(refs: seq<nat>, mp: seq<int>, m: nat, v: nat) {
    if Used(refs, v) then
      1 <= Index(mp, v) <= m &&
      (if v == 0 then At(mp, 0, 0) == -Index(mp, 0) else At(mp, 2 * v + 1, 0) == -Index(mp, v))
    else At(mp, 2 * v, 0) == 0 && At(mp, 2 * v + 1, 0) == 0
  }

  /** Distinct numbers from 1 to m for the used variables, 0 for the others. */
  ghost predicate Mapped(refs: seq<nat>, mp: seq<int>, m: nat) {
    (forall v: nat :: VarMapped(refs, mp, m, v)) &&
    forall u: nat, v: nat :: u != v && Used(refs, u) && Used(refs, v) ==> Index(mp, u) != Index(mp, v)
  }

  function GateClauses(a: And, refs: seq<nat>, mp: seq<int>): seq<Clause> {
    (if Pos(refs, a.lhs) then
       [[At(mp, a.lhs + 1, 0), At(mp, a.rhs1, 0)], [At(mp, a.lhs + 1, 0), At(mp, a.rhs0, 0)]]
     else []) +
    (if Pos(refs, a.lhs + 1) then [[At(mp, a.lhs, 0), At(mp, Not(a.rhs1), 0), At(mp, Not(a.rhs0), 0)]] else [])
  }

  function AllGates(ands: seq<And>, refs: seq<nat>, mp: seq<int>): seq<Clause> {
    if ands == [] then [] else AllGates(ands[..|ands| - 1], refs, mp) + GateClauses(ands[|ands| - 1], refs, mp)
  }

  function Constants(refs: seq<nat>, mp: seq<int>): seq<Clause> {
    if Used(refs, 0) then [[At(mp, 1, 0)]] else []
  }

  function Formula(ands: seq<And>, refs: seq<nat>, mp: seq<int>, output: nat): seq<Clause> {
    Constants(refs, mp) + AllGates(ands, refs, mp) + [[At(mp, output, 0)]]
  }

  lemma {:induction false} GateIn(ands: seq<And>, refs: seq<nat>, mp: seq<int>, i: nat, c: Clause)
    requires i < |ands| && c in GateClauses(ands[i], refs, mp)
    ensures c in AllGates(ands, refs, mp)
  {
    if i < |ands| - 1 {
      GateIn(ands[..|ands| - 1], refs, mp, i, c);
    }
  }

  lemma {:induction false} OfGate(ands: seq<And>, refs: seq<nat>, mp: seq<int>, c: Clause) returns (i: nat)
    requires c in AllGates(ands, refs, mp)
    ensures i < |ands| && c in GateClauses(ands[i], refs, mp)
  {
    hide GateClauses;
    i := |ands| - 1;
    if c in AllGates(ands[..|ands| - 1], refs, mp) {
      i := OfGate(ands[..|ands| - 1], refs, mp, c);
    }
  }

  // ----- equisatisfiability -----

  /** Opposite literals map to opposite DIMACS literals. */
  lemma MapNot(refs: seq<nat>, mp: seq<int>, m: nat, lit: nat)
    requires Mapped(refs, mp, m) && Used(refs, lit / 2)
    ensures At(mp, lit, 0) != 0 && At(mp, Not(lit), 0) == -At(mp, lit, 0)
  {
    assert VarMapped(refs, mp, m, lit / 2);
  }

  lemma NeedsUsed(refs: seq<nat>, lit: nat)
    requires Needs(refs, lit)
    ensures Used(refs, lit / 2)
  {
  }

  /** The inputs an assignment stands for. */
  ghost function Inputs(a: Assignment, mp: seq<int>): iset<nat> {
    iset v: nat | v > 0 && Index(mp, v) > 0 && Index(mp, v) in a
  }

  /** In a model of the clauses a true literal has the value true in the circuit. */
  lemma {:induction false} ModelHolds(n: nat, ands: seq<And>, refs: seq<nat>, mp: seq<int>, m: nat, output: nat,
                                      a: Assignment, lit: nat)
    requires Ordered(n, ands) && Covered(ands, refs) && Mapped(refs, mp, m) &&
             SatAll(a, Formula(ands, refs, mp, output))
    requires Needs(refs, lit) && lit / 2 <= n + |ands| && True(a, At(mp, lit, 0))
    ensures Val(n, ands, Inputs(a, mp), lit)
    decreases lit
  {
    hide Val, Covered, Mapped, Formula, Ordered;
    var env, v := Inputs(a, mp), lit / 2;
    NeedsUsed(refs, lit);
    MapNot(refs, mp, m, lit);
    ValNot(n, ands, env, lit - lit % 2);
    if v == 0 {
      ConstantTrue(ands, refs, mp, output, a);
      MapNot(refs, mp, m, 1);
    } else if v <= n {
      ValInput(n, ands, env, v);
      UsedIndex(refs, mp, m, v);
    } else {
      var i := v - n - 1;
      var g := ands[i];
      OrderedAt(n, ands, i);
      ValGate(n, ands, env, i);
      CoveredAt(ands, refs, i);
      if lit % 2 == 0 {
        PositiveClauses(ands, refs, mp, m, output, a, i);
        ModelHolds(n, ands, refs, mp, m, output, a, g.rhs0);
        ModelHolds(n, ands, refs, mp, m, output, a, g.rhs1);
      } else {
        NegativeClause(ands, refs, mp, m, output, a, i);
        var r := if True(a, At(mp, Not(g.rhs0), 0)) then g.rhs0 else g.rhs1;
        ModelHolds(n, ands, refs, mp, m, output, a, Not(r));
        ValNot(n, ands, env, r);
      }
    }
  }

  lemma CoveredAt(ands: seq<And>, refs: seq<nat>, i: nat)
    requires Covered(ands, refs) && i < |ands|
    ensures GateCovered(ands[i], refs)
  {
  }

  lemma UsedIndex(refs: seq<nat>, mp: seq<int>, m: nat, v: nat)
    requires Mapped(refs, mp, m) && Used(refs, v)
    ensures 1 <= Index(mp, v) <= m
  {
    assert VarMapped(refs, mp, m, v);
  }

  lemma ConstantTrue(ands: seq<And>, refs: seq<nat>, mp: seq<int>, output: nat, a: Assignment)
    requires SatAll(a, Formula(ands, refs, mp, output)) && Used(refs, 0)
    ensures True(a, At(mp, 1, 0))
  {
    hide Used, AllGates;
    var c := [At(mp, 1, 0)];
    assert Formula(ands, refs, mp, output)[0] == c;
    assert Satisfies(a, c);
  }

  lemma GateSatisfied(ands: seq<And>, refs: seq<nat>, mp: seq<int>, output: nat, a: Assignment, i: nat, c: Clause)
    requires SatAll(a, Formula(ands, refs, mp, output)) && i < |ands| && c in GateClauses(ands[i], refs, mp)
    ensures Satisfies(a, c)
  {
    hide GateClauses, AllGates;
    GateIn(ands, refs, mp, i, c);
  }

  lemma PositiveClauses(ands: seq<And>, refs: seq<nat>, mp: seq<int>, m: nat, output: nat, a: Assignment, i: nat)
    requires Mapped(refs, mp, m) && SatAll(a, Formula(ands, refs, mp, output)) && i < |ands|
    requires Pos(refs, ands[i].lhs) && True(a, At(mp, ands[i].lhs, 0)) && ands[i].lhs % 2 == 0
    ensures True(a, At(mp, ands[i].rhs0, 0)) && True(a, At(mp, ands[i].rhs1, 0))
  {
    hide Mapped, Formula, SatAll;
    var g := ands[i];
    MapNot(refs, mp, m, g.lhs);
    var c, d := [At(mp, g.lhs + 1, 0), At(mp, g.rhs1, 0)], [At(mp, g.lhs + 1, 0), At(mp, g.rhs0, 0)];
    assert GateClauses(g, refs, mp)[0] == c && GateClauses(g, refs, mp)[1] == d;
    GateSatisfied(ands, refs, mp, output, a, i, c);
    GateSatisfied(ands, refs, mp, output, a, i, d);
  }

  lemma NegativeClause(ands: seq<And>, refs: seq<nat>, mp: seq<int>, m: nat, output: nat, a: Assignment, i: nat)
    requires Mapped(refs, mp, m) && SatAll(a, Formula(ands, refs, mp, output)) && i < |ands|
    requires Pos(refs, ands[i].lhs + 1) && True(a, At(mp, ands[i].lhs + 1, 0)) && ands[i].lhs % 2 == 0
    ensures True(a, At(mp, Not(ands[i].rhs0), 0)) || True(a, At(mp, Not(ands[i].rhs1), 0))
  {
    hide Mapped, Formula, SatAll;
    var g := ands[i];
    MapNot(refs, mp, m, g.lhs);
    var c := [At(mp, g.lhs, 0), At(mp, Not(g.rhs1), 0), At(mp, Not(g.rhs0), 0)];
    assert GateClauses(g, refs, mp)[|GateClauses(g, refs, mp)| - 1] == c;
    GateSatisfied(ands, refs, mp, output, a, i, c);
  }

  /** DIMACS variable x belongs to a true circuit variable. */
  ghost predicate Stands(n: nat, ands: seq<And>, env: iset<nat>, refs: seq<nat>, mp: seq<int>, x: int)
    requires Ordered(n, ands)
  {
    exists v: nat :: Used(refs, v) && Index(mp, v) == x && (v == 0 || Val(n, ands, env, 2 * v))
  }

  /** The assignment a run of the circuit stands for. */
  ghost function Model(n: nat, ands: seq<And>, env: iset<nat>, refs: seq<nat>, mp: seq<int>): Assignment
    requires Ordered(n, ands)
  {
    iset x: int | Stands(n, ands, env, refs, mp, x)
  }

  /** Under that assignment every mapped literal has its circuit value. */
  lemma ModelTrue(n: nat, ands: seq<And>, env: iset<nat>, refs: seq<nat>, mp: seq<int>, m: nat, lit: nat)
    requires Ordered(n, ands) && Mapped(refs, mp, m) && Used(refs, lit / 2)
    ensures True(Model(n, ands, env, refs, mp), At(mp, lit, 0)) <==> Val(n, ands, env, lit)
  {
    hide Val, Ordered, Used;
    var v := lit / 2;
    var a := Model(n, ands, env, refs, mp);
    ValNot(n, ands, env, lit - lit % 2);
    UsedIndex(refs, mp, m, v);
    MapNot(refs, mp, m, lit);
    assert Index(mp, v) in a <==> v == 0 || Val(n, ands, env, 2 * v);
    assert lit == 2 * v || lit == 2 * v + 1;
  }

  /** A run with a true output satisfies all clauses. */
  lemma CircuitModels(n: nat, ands: seq<And>, env: iset<nat>, refs: seq<nat>, mp: seq<int>, m: nat, output: nat)
    requires Ordered(n, ands) && Covered(ands, refs) && Mapped(refs, mp, m)
    requires Used(refs, output / 2) && Val(n, ands, env, output)
    ensures SatAll(Model(n, ands, env, refs, mp), Formula(ands, refs, mp, output))
  {
    hide Val, Ordered, Covered, Mapped, Model, AllGates, GateClauses, Used;
    var a := Model(n, ands, env, refs, mp);
    forall c | c in Formula(ands, refs, mp, output) ensures Satisfies(a, c) {
      if c in AllGates(ands, refs, mp) {
        var i := OfGate(ands, refs, mp, c);
        GateModels(n, ands, env, refs, mp, m, i, c);
      } else if c == [At(mp, output, 0)] {
        ModelTrue(n, ands, env, refs, mp, m, output);
        assert At(mp, output, 0) in c;
      } else {
        ModelTrue(n, ands, env, refs, mp, m, 1);
        ValNot(n, ands, env, 0);
        assert At(mp, 1, 0) in c;
      }
    }
  }

  lemma GateModels(n: nat, ands: seq<And>, env: iset<nat>, refs: seq<nat>, mp: seq<int>, m: nat, i: nat, c: Clause)
    requires Ordered(n, ands) && Covered(ands, refs) && Mapped(refs, mp, m) && i < |ands| &&
             c in GateClauses(ands[i], refs, mp)
    ensures Satisfies(Model(n, ands, env, refs, mp), c)
  {
    hide Val, Ordered, Covered, Mapped, Model;
    var a, g := Model(n, ands, env, refs, mp), ands[i];
    OrderedAt(n, ands, i);
    CoveredAt(ands, refs, i);
    ValGate(n, ands, env, i);
    ValNot(n, ands, env, g.lhs);
    ValNot(n, ands, env, g.rhs0);
    ValNot(n, ands, env, g.rhs1);
    ModelTrue(n, ands, env, refs, mp, m, g.lhs);
    ModelTrue(n, ands, env, refs, mp, m, g.lhs + 1);
    if Pos(refs, g.lhs) && |c| == 2 {
      var r := if c == [At(mp, g.lhs + 1, 0), At(mp, g.rhs1, 0)] then g.rhs1 else g.rhs0;
      NeedsUsed(refs, r);
      ModelTrue(n, ands, env, refs, mp, m, r);
      assert c == [At(mp, g.lhs + 1, 0), At(mp, r, 0)];
      assert At(mp, g.lhs + 1, 0) in c && At(mp, r, 0) in c;
    } else {
      NeedsUsed(refs, Not(g.rhs0));
      NeedsUsed(refs, Not(g.rhs1));
      ModelTrue(n, ands, env, refs, mp, m, Not(g.rhs0));
      ModelTrue(n, ands, env, refs, mp, m, Not(g.rhs1));
      assert c == [At(mp, g.lhs, 0), At(mp, Not(g.rhs1), 0), At(mp, Not(g.rhs0), 0)];
      assert At(mp, g.lhs, 0) in c && At(mp, Not(g.rhs0), 0) in c && At(mp, Not(g.rhs1), 0) in c;
    }
  }

  /** The clauses are satisfiable exactly when some inputs make the output true. */
  lemma Equisatisfiable(n: nat, ands: seq<And>, refs: seq<nat>, mp: seq<int>, m: nat, output: nat)
    requires Ordered(n, ands) && Covered(ands, refs) && Mapped(refs, mp, m)
    requires Pos(refs, output) && 2 <= output && output / 2 <= n + |ands|
    ensures Satisfiable(Formula(ands, refs, mp, output)) <==> exists env :: Val(n, ands, env, output)
  {
    hide Val, Ordered, Covered, Mapped, AllGates;
    var f := Formula(ands, refs, mp, output);
    forall a | SatAll(a, f) ensures exists env :: Val(n, ands, env, output) {
      assert f[|f| - 1] == [At(mp, output, 0)];
      assert Satisfies(a, [At(mp, output, 0)]);
      ModelHolds(n, ands, refs, mp, m, output, a, output);
    }
    forall env | Val(n, ands, env, output) ensures Satisfiable(f) {
      CircuitModels(n, ands, env, refs, mp, m, output);
    }
  }

  // ----- the reference counts -----

  /** What gate a adds to a set of referenced literals. */
  function Step(a: And, s: set<nat>): set<nat> {
    s + (if a.lhs in s then {a.rhs0, a.rhs1} else {}) + (if a.lhs + 1 in s then {Not(a.rhs0), Not(a.rhs1)} else {})
  }

  /** The literals referenced from s, polarity by polarity, gates from the last one down. */
  function Cone(ands: seq<And>, s: set<nat>): set<nat> {
    if ands == [] then s else Cone(ands[..|ands| - 1], Step(ands[|ands| - 1], s))
  }

  lemma OrderedInit(n: nat, ands: seq<And>)
    requires Ordered(n, ands) && ands != []
    ensures Ordered(n, ands[..|ands| - 1])
  {
  }

  /** The gates add literals of variables below their own. */
  lemma {:induction false} ConeAdds(n: nat, ands: seq<And>, s: set<nat>, l: nat)
    requires Ordered(n, ands)
    ensures l in s ==> l in Cone(ands, s)
    ensures l in Cone(ands, s) && l !in s ==> l < 2 * (n + |ands|)
  {
    if ands != [] {
      OrderedInit(n, ands);
      OrderedAt(n, ands, |ands| - 1);
      ConeAdds(n, ands[..|ands| - 1], Step(ands[|ands| - 1], s), l);
    }
  }

  lemma {:induction false} ConeClosed(n: nat, ands: seq<And>, s: set<nat>, i: nat)
    requires Ordered(n, ands) && i < |ands|
    ensures var a, c := ands[i], Cone(ands, s);
            (a.lhs in c ==> a.rhs0 in c && a.rhs1 in c) && (a.lhs + 1 in c ==> Not(a.rhs0) in c && Not(a.rhs1) in c)
  {
    var k := |ands| - 1;
    var init, a, t := ands[..k], ands[k], Step(ands[k], s);
    OrderedInit(n, ands);
    OrderedAt(n, ands, k);
    if i < k {
      ConeClosed(n, init, t, i);
    } else {
      ConeAdds(n, init, t, a.lhs);
      ConeAdds(n, init, t, a.lhs + 1);
      ConeAdds(n, init, t, a.rhs0);
      ConeAdds(n, init, t, a.rhs1);
      ConeAdds(n, init, t, Not(a.rhs0));
      ConeAdds(n, init, t, Not(a.rhs1));
    }
  }

  function Counted(refs: seq<nat>): set<nat> {
    set l | 0 <= l < |refs| && refs[l] > 0
  }

  /** The constants are fixed by a clause, or no gate refers to them. */
  predicate Clean(ands: seq<And>, output: nat) {
    Fixed(ands, output) || forall i :: 0 <= i < |ands| ==> ands[i].rhs1 >= 2
  }

  /** main: the references of every literal, counted from the output down. */
  method CountRefs(n: nat, ands: seq<And>, output: nat, maxvar: nat) returns (refs: array<nat>)
    requires Ordered(n, ands) && n + |ands| <= maxvar && output / 2 <= n + |ands|
    ensures fresh(refs) && refs.Length == 2 * (maxvar + 1) && Counted(refs[..]) == Cone(ands, {output})
  {
    hide *;
    refs := new nat[2 * (maxvar + 1)](_ => 0);
    NoneCounted(refs[..]);
    var lit := output;
    Increment(refs, lit);
    assert {} + {output} == {output};
    var i := |ands|;
    assert ands[..i] == ands;
    while i > 0
      invariant 0 <= i <= |ands| && Cone(ands[..i], Counted(refs[..])) == Cone(ands, {output})
    {
      i := i - 1;
      OrderedAt(n, ands, i);
      ConeStep(ands, i, Counted(refs[..]));
      CountGate(refs, ands[i]);
    }
    assert ands[..0] == [];
    ConeNone(Counted(refs[..]));
  }

  lemma NoneCounted(refs: seq<nat>)
    requires forall l :: 0 <= l < |refs| ==> refs[l] == 0
    ensures Counted(refs) == {}
  {
  }

  lemma ConeStep(ands: seq<And>, i: nat, s: set<nat>)
    requires i < |ands|
    ensures Cone(ands[..i + 1], s) == Cone(ands[..i], Step(ands[i], s))
  {
    assert ands[..i + 1][..i] == ands[..i];
  }

  lemma ConeNone(s: set<nat>)
    ensures Cone([], s) == s
  {
  }

  method CountGate(refs: array<nat>, a: And)
    requires a.lhs + 1 < refs.Length && a.rhs0 + 1 < refs.Length && a.rhs1 + 1 < refs.Length
    requires a.lhs % 2 == 0 && a.rhs1 <= a.rhs0 < a.lhs && Not(a.rhs0) < a.lhs && Not(a.rhs1) < a.lhs
    modifies refs
    ensures Counted(refs[..]) == Step(a, old(Counted(refs[..])))
  {
    var lit := a.lhs;
    if refs[lit] > 0 {
      Increment(refs, a.rhs0);
      Increment(refs, a.rhs1);
    }
    if refs[Not(lit)] > 0 {
      Increment(refs, Not(a.rhs0));
      Increment(refs, Not(a.rhs1));
    }
  }

  method Increment(refs: array<nat>, l: nat)
    requires l < refs.Length
    modifies refs
    ensures Counted(refs[..]) == old(Counted(refs[..])) + {l}
    ensures forall k :: 0 <= k < refs.Length && k != l ==> refs[k] == old(refs[k])
  {
    refs[l] := refs[l] + 1;
    assert forall k :: 0 <= k < refs.Length ==> (k in Counted(refs[..]) <==> refs[k] > 0);
    assert forall k :: 0 <= k < refs.Length ==> (k in old(Counted(refs[..])) <==> old(refs[k]) > 0);
  }

  const INT_MAX := 0x7fff_ffff

  /** main: without polarities every literal counts. */
  method ForceAll(refs: array<nat>)
    requires refs.Length >= 2
    modifies refs
    ensures refs[0] == old(refs[0]) && refs[1] == old(refs[1])
    ensures forall l :: 2 <= l < refs.Length ==> refs[l] == INT_MAX
  {
    for lit := 2 to refs.Length
      invariant refs[0] == old(refs[0]) && refs[1] == old(refs[1])
      invariant forall l :: 2 <= l < lit ==> refs[l] == INT_MAX
    {
      refs[lit] := INT_MAX;
    }
  }

  lemma CountedPos(refs: seq<nat>, l: nat)
    ensures Pos(refs, l) <==> l in Counted(refs)
  {
  }

  /** With polarities the counts cover every gate. */
  lemma PolarityCovers(n: nat, ands: seq<And>, output: nat, refs: seq<nat>)
    requires Ordered(n, ands) && Counted(refs) == Cone(ands, {output})
    ensures Covered(ands, refs) && Pos(refs, output)
  {
    hide Ordered, Cone, Counted, Pos;
    forall i | 0 <= i < |ands| ensures GateCovered(ands[i], refs) {
      var a := ands[i];
      ConeClosed(n, ands, {output}, i);
      CountedPos(refs, a.lhs);
      CountedPos(refs, a.lhs + 1);
      CountedPos(refs, a.rhs0);
      CountedPos(refs, a.rhs1);
      CountedPos(refs, Not(a.rhs0));
      CountedPos(refs, Not(a.rhs1));
    }
    ConeAdds(n, ands, {output}, output);
    CountedPos(refs, output);
  }

  /** Without polarities they do exactly when the constants are fixed or not used. */
  lemma ForcedCovers(n: nat, ands: seq<And>, output: nat, counted: seq<nat>, refs: seq<nat>)
    requires Ordered(n, ands) && |counted| == |refs| && |refs| >= 2 * (n + |ands| + 1) && output / 2 <= n + |ands| &&
             output >= 2
    requires Counted(counted) == Cone(ands, {output}) && refs[0] == counted[0] && refs[1] == counted[1]
    requires forall l :: 2 <= l < |refs| ==> refs[l] == INT_MAX
    ensures Pos(refs, output) && (Clean(ands, output) ==> Covered(ands, refs))
    ensures !Clean(ands, output) ==>
              exists i :: 0 <= i < |ands| && ands[i].rhs1 < 2 && Pos(refs, ands[i].lhs) && !Used(refs, 0)
  {
    hide Cone;
    CountedPos(counted, 0);
    CountedPos(counted, 1);
    forall i | 0 <= i < |ands| ensures Pos(refs, ands[i].lhs) && (Clean(ands, output) ==> GateCovered(ands[i], refs)) {
      OrderedAt(n, ands, i);
    }
  }

  // ----- the variable map and the header -----

  function Weight(refs: seq<nat>, n: nat, v: nat): nat {
    if v == 0 then (if Used(refs, 0) then 1 else 0)
    else if v <= n then 0
    else (if Pos(refs, 2 * v) then 2 else 0) + (if Pos(refs, 2 * v + 1) then 1 else 0)
  }

  /** The clauses of the first v variables. */
  function Clauses(refs: seq<nat>, n: nat, v: nat): nat {
    if v == 0 then 0 else Clauses(refs, n, v - 1) + Weight(refs, n, v - 1)
  }

  function UsedVars(refs: seq<nat>, v: nat): nat {
    if v == 0 then 0 else UsedVars(refs, v - 1) + if Used(refs, v - 1) then 1 else 0
  }

  /** The map of the first v variables: increasing numbers up to m. */
  ghost predicate MappedTo(refs: seq<nat>, mp: seq<int>, m: nat, v: nat) {
    (forall u: nat :: u < v ==> VarMapped(refs, mp, m, u)) &&
    (forall l :: 2 * v <= l < |mp| ==> mp[l] == 0) &&
    forall u: nat :: u < v && Used(refs, u) ==> Index(mp, u) == UsedVars(refs, u + 1)
  }

  /** Every used variable is numbered by the used variables up to it. */
  ghost predicate Ranked(refs: seq<nat>, mp: seq<int>) {
    forall u: nat :: Used(refs, u) ==> Index(mp, u) == UsedVars(refs, u + 1)
  }

  lemma MapSkip(refs: seq<nat>, mp: seq<int>, m: nat, v: nat)
    requires MappedTo(refs, mp, m, v) && !Used(refs, v)
    ensures MappedTo(refs, mp, m, v + 1)
  {
  }

  lemma MapNext(refs: seq<nat>, mp: seq<int>, mp': seq<int>, m: nat, v: nat)
    requires MappedTo(refs, mp, m, v) && Used(refs, v) && v > 0 && 2 * v + 1 < |mp| && m == UsedVars(refs, v)
    requires mp' == mp[2 * v := m + 1][2 * v + 1 := -(m + 1)]
    ensures MappedTo(refs, mp', m + 1, v + 1)
  {
    assert UsedVars(refs, v + 1) == m + 1;
    assert VarMapped(refs, mp', m + 1, v) && Index(mp', v) == m + 1;
    hide Used, UsedVars, Index, VarMapped;
    forall u: nat | u < v + 1
      ensures VarMapped(refs, mp', m + 1, u) && (Used(refs, u) ==> Index(mp', u) == UsedVars(refs, u + 1))
    {
      if u < v {
        assert VarMapped(refs, mp, m, u);
        MapKept(refs, mp, mp', m, v, u);
      }
    }
    forall l | 2 * (v + 1) <= l < |mp'| ensures mp'[l] == 0 {
      assert mp[l] == 0;
    }
  }

  /** An old entry, under the larger bound. */
  lemma MapKept(refs: seq<nat>, mp: seq<int>, mp': seq<int>, m: nat, v: nat, u: nat)
    requires VarMapped(refs, mp, m, u) && u < v && 2 * v + 1 < |mp|
    requires mp' == mp[2 * v := m + 1][2 * v + 1 := -(m + 1)]
    ensures VarMapped(refs, mp', m + 1, u) && Index(mp', u) == Index(mp, u)
  {
    hide Used;
    assert mp'[2 * u] == mp[2 * u] && mp'[2 * u + 1] == mp[2 * u + 1];
    assert u == 0 ==> mp'[0] == mp[0] && mp'[1] == mp[1];
  }

  /** Ranks grow. */
  lemma {:induction false} RankGrows(refs: seq<nat>, u: nat, w: nat)
    requires u < w && Used(refs, w)
    ensures UsedVars(refs, u + 1) < UsedVars(refs, w + 1)
    decreases w
  {
    hide Used;
    if u < w - 1 {
      RankMonotone(refs, u + 1, w);
    }
  }

  lemma {:induction false} RankMonotone(refs: seq<nat>, u: nat, w: nat)
    requires u <= w
    ensures UsedVars(refs, u) <= UsedVars(refs, w)
  {
    if u < w {
      RankMonotone(refs, u, w - 1);
    }
  }

  lemma MapDone(refs: seq<nat>, mp: seq<int>, m: nat, v: nat)
    requires MappedTo(refs, mp, m, v) && |refs| == |mp| == 2 * v
    ensures Mapped(refs, mp, m) && Ranked(refs, mp)
  {
    forall u: nat | Used(refs, u) ensures Index(mp, u) == UsedVars(refs, u + 1) {
      assert u < v;
    }
    forall u: nat ensures VarMapped(refs, mp, m, u) {
      if u < v {
        assert VarMapped(refs, mp, m, u);
      }
    }
    forall u: nat, w: nat | u < w && Used(refs, u) && Used(refs, w) ensures Index(mp, u) != Index(mp, w) {
      RankGrows(refs, u, w);
    }
  }

  /** main: the variable map, and the counts for the header. */
  method BuildMap(n: nat, refs: array<nat>) returns (mp: array<int>, m: nat, k: nat)
    requires refs.Length >= 2 && refs.Length % 2 == 0
    ensures fresh(mp) && mp.Length == refs.Length && Mapped(refs[..], mp[..], m) && Ranked(refs[..], mp[..])
    ensures m == UsedVars(refs[..], refs.Length / 2) && k == 1 + Clauses(refs[..], n, refs.Length / 2)
  {
    hide Mapped, MappedTo, Used, Ranked;
    ghost var r := refs[..];
    mp := new int[refs.Length](_ => 0);
    m, k := 0, 1;
    MapStart(r, mp[..]);
    UsedIs(r, 0);
    if refs[0] > 0 || refs[1] > 0 {
      mp[0] := -1;
      mp[1] := 1;
      m := m + 1;
      k := k + 1;
    }
    assert Clauses(r, n, 1) == Clauses(r, n, 0) + Weight(r, n, 0) &&
      UsedVars(r, 1) == UsedVars(r, 0) + (if Used(r, 0) then 1 else 0);
    var lit: nat := 2;
    while lit < refs.Length
      invariant 2 <= lit <= refs.Length && lit % 2 == 0 && mp.Length == refs.Length && refs[..] == r
      invariant MappedTo(r, mp[..], m, lit / 2)
      invariant m == UsedVars(r, lit / 2) && k == 1 + Clauses(r, n, lit / 2)
    {
      m, k := MapVariable(n, refs, mp, lit, m, k);
      lit := lit + 2;
    }
    MapDone(r, mp[..], m, lit / 2);
  }

  /** One round of the second loop. */
  method MapVariable(n: nat, refs: array<nat>, mp: array<int>, lit: nat, m0: nat, k0: nat) returns (m: nat, k: nat)
    requires mp.Length == refs.Length && 2 <= lit && lit + 1 < refs.Length && lit % 2 == 0
    requires MappedTo(refs[..], mp[..], m0, lit / 2) && m0 == UsedVars(refs[..], lit / 2)
    modifies mp
    ensures MappedTo(refs[..], mp[..], m, lit / 2 + 1)
    ensures m == m0 + (if Used(refs[..], lit / 2) then 1 else 0) && k == k0 + Weight(refs[..], n, lit / 2)
  {
    hide MappedTo, Used;
    ghost var r, v, before := refs[..], lit / 2, mp[..];
    m, k := m0, k0;
    UsedIs(r, v);
    if refs[lit] == 0 && refs[lit + 1] == 0 {
      MapSkip(r, mp[..], m, v);
      WeightNone(r, n, v);
    } else {
      MapNext(r, before, before[lit := m + 1][lit + 1 := -(m + 1)], m, v);
      m := m + 1;
      mp[lit] := m;
      mp[lit + 1] := -(m as int);
      assert mp[..] == before[lit := m][lit + 1 := -(m as int)];
      if lit > 2 * n + 1 {
        k := k + (if refs[lit] > 0 then 2 else 0);
        k := k + (if refs[lit + 1] > 0 then 1 else 0);
      }
    }
  }

  lemma UsedIs(refs: seq<nat>, v: nat)
    ensures 2 * v + 1 < |refs| ==> (Used(refs, v) <==> refs[2 * v] > 0 || refs[2 * v + 1] > 0)
  {
  }

  lemma WeightNone(refs: seq<nat>, n: nat, v: nat)
    requires !Used(refs, v)
    ensures Weight(refs, n, v) == 0
  {
  }

  lemma MapStart(refs: seq<nat>, mp: seq<int>)
    requires |mp| >= 2 && |refs| == |mp| && forall l :: 0 <= l < |mp| ==> mp[l] == 0
    ensures if Used(refs, 0) then MappedTo(refs, mp[0 := -1][1 := 1], 1, 1) else MappedTo(refs, mp, 0, 1)
  {
    assert UsedVars(refs, 1) == UsedVars(refs, 0) + (if Used(refs, 0) then 1 else 0);
    if Used(refs, 0) {
      assert VarMapped(refs, mp[0 := -1][1 := 1], 1, 0);
    } else {
      assert VarMapped(refs, mp, 0, 0);
    }
  }

  /** The number of clauses the gates are given. */
  lemma {:induction false} GateCount(n: nat, ands: seq<And>, refs: seq<nat>, mp: seq<int>)
    requires Ordered(n, ands)
    ensures (if Used(refs, 0) then 1 else 0) + |AllGates(ands, refs, mp)| == Clauses(refs, n, n + |ands| + 1)
  {
    hide Used, GateClauses, Weight, Ordered;
    if ands == [] {
      InputCount(n, refs, n + 1);
    } else {
      OrderedInit(n, ands);
      GateCount(n, ands[..|ands| - 1], refs, mp);
      GateWeight(n, ands, refs, mp, |ands| - 1);
    }
  }

  lemma GateWeight(n: nat, ands: seq<And>, refs: seq<nat>, mp: seq<int>, i: nat)
    requires Ordered(n, ands) && i < |ands|
    ensures |GateClauses(ands[i], refs, mp)| == Weight(refs, n, n + i + 1)
  {
    OrderedAt(n, ands, i);
  }

  lemma {:induction false} InputCount(n: nat, refs: seq<nat>, v: nat)
    requires 0 < v <= n + 1
    ensures Clauses(refs, n, v) == if Used(refs, 0) then 1 else 0
  {
    hide Used, Pos;
    if v > 1 {
      InputCount(n, refs, v - 1);
    } else {
      assert Clauses(refs, n, 0) == 0;
    }
  }

  /** Above the defined variables nothing is counted, or three clauses each. */
  lemma {:induction false} TailCount(n: nat, refs: seq<nat>, v: nat, w: nat, forced: bool)
    requires n < v <= w && 2 * w <= |refs|
    requires forall l :: 2 * v <= l < |refs| ==> (refs[l] > 0 <==> forced)
    ensures Clauses(refs, n, w) == Clauses(refs, n, v) + if forced then 3 * (w - v) else 0
  {
    if v < w {
      TailCount(n, refs, v, w - 1, forced);
      assert Weight(refs, n, w - 1) == if forced then 3 else 0;
    }
  }

  lemma PrintMore(a: seq<Clause>, c: Clause)
    ensures PrintAll(a + [c]) == PrintAll(a) + (c + [0])
  {
    assert (a + [c])[..|a|] == a;
  }

  /** main: the clauses in order. */
  method Emit(ands: seq<And>, refs: array<nat>, mp: array<int>, output: nat) returns (out: seq<int>)
    requires refs.Length == mp.Length >= 2 && output < mp.Length
    requires forall i :: 0 <= i < |ands| ==>
               ands[i].lhs % 2 == 0 && ands[i].lhs + 1 < refs.Length && ands[i].rhs1 <= ands[i].rhs0 < ands[i].lhs
    ensures out == PrintAll(Formula(ands, refs[..], mp[..], output))
  {
    hide Used, GateClauses, Pos, PrintAll, Formula;
    ghost var r, t, fs := refs[..], mp[..], Constants(refs[..], mp[..]);
    UsedIs(r, 0);
    out := [];
    PrintNone();
    if refs[0] > 0 || refs[1] > 0 {
      out := out + [mp[1], 0];
      PrintMore([], [mp[1]]);
      assert [] + [[mp[1]]] == fs && [mp[1]] + [0] == [mp[1], 0] && [] + [mp[1], 0] == [mp[1], 0];
    }
    assert fs + AllGates(ands[..0], r, t) == fs;
    for i := 0 to |ands|
      invariant out == PrintAll(fs + AllGates(ands[..i], r, t))
    {
      assert ands[..i + 1][..i] == ands[..i] && ands[..i + 1][i] == ands[i];
      ghost var g := GateClauses(ands[i], r, t);
      ghost var before := out;
      out := EmitGate(ands[i], refs, mp, out, fs + AllGates(ands[..i], r, t));
      assert fs + AllGates(ands[..i], r, t) + g == fs + AllGates(ands[..i + 1], r, t);
    }
    assert ands[..|ands|] == ands;
    PrintMore(fs + AllGates(ands, r, t), [mp[output]]);
    FormulaIs(ands, r, t, output);
    out := out + ([mp[output]] + [0]);
  }

  lemma PrintNone()
    ensures PrintAll([]) == []
  {
  }

  lemma FormulaIs(ands: seq<And>, refs: seq<nat>, mp: seq<int>, output: nat)
    ensures output < |mp| ==>
              Formula(ands, refs, mp, output) == Constants(refs, mp) + AllGates(ands, refs, mp) + [[mp[output]]]
  {
  }

  method EmitGate(a: And, refs: array<nat>, mp: array<int>, out0: seq<int>, ghost fs: seq<Clause>)
    returns (out: seq<int>)
    requires refs.Length == mp.Length && a.lhs % 2 == 0 && a.lhs + 1 < refs.Length && a.rhs1 <= a.rhs0 < a.lhs
    requires out0 == PrintAll(fs)
    ensures out == PrintAll(fs + GateClauses(a, refs[..], mp[..]))
  {
    hide PrintAll;
    out := out0;
    ghost var g: seq<Clause> := [];
    assert fs + g == fs;
    var lit := a.lhs;
    if refs[lit] > 0 {
      var c, d := [mp[Not(lit)], mp[a.rhs1]], [mp[Not(lit)], mp[a.rhs0]];
      PrintMore(fs, c);
      PrintMore(fs + [c], d);
      out := out + (c + [0]) + (d + [0]);
      g := [c, d];
      assert fs + [c] + [d] == fs + g;
    }
    if refs[lit + 1] > 0 {
      var c := [mp[lit], mp[Not(a.rhs1)], mp[Not(a.rhs0)]];
      PrintMore(fs + g, c);
      out := out + (c + [0]);
      assert fs + g + [c] == fs + (g + [c]);
      g := g + [c];
    }
    assert g == GateClauses(a, refs[..], mp[..]);
  }

  // ----- the variables of the stream -----

  function Abs(t: int): nat {
    if t < 0 then -t else t
  }

  /** The DIMACS variables that occur. */
  function Vars(tokens: seq<int>): set<int> {
    set t | t in tokens && t != 0 :: Abs(t)
  }

  predicate Mentions(c: Clause, x: int) {
    exists t :: t in c && t != 0 && Abs(t) == x
  }

  lemma {:induction false} VarsPrint(clauses: seq<Clause>, x: int)
    ensures x in Vars(PrintAll(clauses)) <==> exists c :: c in clauses && Mentions(c, x)
  {
    if clauses != [] {
      var n := |clauses| - 1;
      var init, last := clauses[..n], clauses[n];
      VarsPrint(init, x);
      var p := PrintAll(init);
      assert PrintAll(clauses) == p + last + [0];
      VarsConcat(p, last);
      VarsConcat(p + last, [0]);
      assert Vars([0]) == {};
      assert x in Vars(last) <==> Mentions(last, x);
      assert clauses == init + [last];
      assert forall c :: c in clauses <==> c in init || c == last;
    }
  }

  lemma VarsConcat(a: seq<int>, b: seq<int>)
    ensures Vars(a + b) == Vars(a) + Vars(b)
  {
    forall x ensures x in Vars(a + b) <==> x in Vars(a) || x in Vars(b) {
      if x in Vars(a + b) {
        var t :| t in a + b && t != 0 && Abs(t) == x;
        assert t in a || t in b;
      }
      if x in Vars(a) {
        var t :| t in a && t != 0 && Abs(t) == x;
        assert t in a + b;
      }
      if x in Vars(b) {
        var t :| t in b && t != 0 && Abs(t) == x;
        assert t in a + b;
      }
    }
  }

  /** A used variable has the number of its literals. */
  lemma MapAbs(refs: seq<nat>, mp: seq<int>, m: nat, lit: nat)
    requires Mapped(refs, mp, m) && Used(refs, lit / 2)
    ensures At(mp, lit, 0) != 0 && Abs(At(mp, lit, 0)) == Index(mp, lit / 2)
  {
    assert VarMapped(refs, mp, m, lit / 2);
    assert lit == 2 * (lit / 2) || lit == 2 * (lit / 2) + 1;
  }

  lemma UnmappedZero(refs: seq<nat>, mp: seq<int>, m: nat, lit: nat)
    requires Mapped(refs, mp, m) && !Used(refs, lit / 2)
    ensures At(mp, lit, 0) == 0
  {
    assert VarMapped(refs, mp, m, lit / 2);
    assert lit == 2 * (lit / 2) || lit == 2 * (lit / 2) + 1;
  }

  /** The circuit variables whose literals a gate prints. */
  predicate GateNames(a: And, refs: seq<nat>, v: nat) {
    (Pos(refs, a.lhs) || Pos(refs, a.lhs + 1)) && (v == a.lhs / 2 || v == a.rhs0 / 2 || v == a.rhs1 / 2)
  }

  /** The circuit variables that are printed: the output, the variables of printed gates, and
      the constant when it is fixed. */
  predicate Named(ands: seq<And>, refs: seq<nat>, output: nat, v: nat) {
    (v == 0 && Used(refs, 0)) || v == output / 2 || exists i :: 0 <= i < |ands| && GateNames(ands[i], refs, v)
  }

  lemma NotHalf(lit: nat)
    ensures Not(lit) / 2 == lit / 2
  {
  }

  lemma GateMentions(a: And, refs: seq<nat>, mp: seq<int>, m: nat, v: nat)
    requires Mapped(refs, mp, m) && GateNames(a, refs, v) && Used(refs, v) && a.lhs % 2 == 0
    ensures exists c :: c in GateClauses(a, refs, mp) && Mentions(c, Index(mp, v))
  {
    hide Mapped, Used;
    NotHalf(a.rhs0);
    NotHalf(a.rhs1);
    if Pos(refs, a.lhs) {
      var lit := if v == a.lhs / 2 then a.lhs + 1 else if v == a.rhs1 / 2 then a.rhs1 else a.rhs0;
      MapAbs(refs, mp, m, lit);
      var k := if v == a.lhs / 2 || v == a.rhs1 / 2 then 0 else 1;
      var c := GateClauses(a, refs, mp)[k];
      assert At(mp, lit, 0) in c;
      assert Mentions(c, Index(mp, v));
    } else {
      var lit := if v == a.lhs / 2 then a.lhs else if v == a.rhs1 / 2 then Not(a.rhs1) else Not(a.rhs0);
      MapAbs(refs, mp, m, lit);
      var c := GateClauses(a, refs, mp)[0];
      assert c == [At(mp, a.lhs, 0), At(mp, Not(a.rhs1), 0), At(mp, Not(a.rhs0), 0)];
      assert At(mp, lit, 0) in c;
      assert Mentions(c, Index(mp, v));
    }
  }

  lemma MentionsGate(a: And, refs: seq<nat>, mp: seq<int>, m: nat, c: Clause, x: int) returns (v: nat)
    requires Mapped(refs, mp, m) && c in GateClauses(a, refs, mp) && Mentions(c, x) && a.lhs % 2 == 0
    ensures GateNames(a, refs, v) && Used(refs, v) && Index(mp, v) == x
  {
    hide Mapped, Used;
    NotHalf(a.rhs0);
    NotHalf(a.rhs1);
    var t :| t in c && t != 0 && Abs(t) == x;
    var lits := [a.lhs, a.lhs + 1, a.rhs0, a.rhs1, Not(a.rhs0), Not(a.rhs1)];
    assert exists lit :: lit in lits && t == At(mp, lit, 0) by {
      assert lits[0] in lits && lits[1] in lits && lits[2] in lits && lits[3] in lits && lits[4] in lits &&
        lits[5] in lits;
    }
    var lit :| lit in lits && t == At(mp, lit, 0);
    v := lit / 2;
    if !Used(refs, v) {
      UnmappedZero(refs, mp, m, lit);
    }
    MapAbs(refs, mp, m, lit);
  }

  /** The variables that occur are the numbers of those printed. */
  lemma VarsNamed(ands: seq<And>, refs: seq<nat>, mp: seq<int>, m: nat, output: nat, x: int)
    requires Mapped(refs, mp, m) && Used(refs, output / 2) && forall i :: 0 <= i < |ands| ==> ands[i].lhs % 2 == 0
    ensures x in Vars(PrintAll(Formula(ands, refs, mp, output))) <==>
            exists v: nat :: Named(ands, refs, output, v) && Used(refs, v) && Index(mp, v) == x
  {
    hide Mapped, Used, GateClauses, AllGates, GateNames, Mentions, PrintAll, Vars;
    var f := Formula(ands, refs, mp, output);
    VarsPrint(f, x);
    FormulaIs(ands, refs, mp, output);
    if c :| c in f && Mentions(c, x) {
      if c in AllGates(ands, refs, mp) {
        var i := OfGate(ands, refs, mp, c);
        var v := MentionsGate(ands[i], refs, mp, m, c, x);
        assert Named(ands, refs, output, v);
      } else if c == [At(mp, output, 0)] {
        MentionsOne(refs, mp, m, output, x);
        assert Named(ands, refs, output, output / 2);
      } else {
        MentionsOne(refs, mp, m, 1, x);
        assert Named(ands, refs, output, 0);
      }
    }
    if v: nat :| Named(ands, refs, output, v) && Used(refs, v) && Index(mp, v) == x {
      if v == output / 2 {
        MentionsOne(refs, mp, m, output, x);
        assert [At(mp, output, 0)] in f;
      } else if v == 0 && Used(refs, 0) {
        MentionsOne(refs, mp, m, 1, x);
        assert [At(mp, 1, 0)] in Constants(refs, mp) && [At(mp, 1, 0)] in f;
      } else {
        var i :| 0 <= i < |ands| && GateNames(ands[i], refs, v);
        GateMentions(ands[i], refs, mp, m, v);
        var c :| c in GateClauses(ands[i], refs, mp) && Mentions(c, x);
        GateIn(ands, refs, mp, i, c);
        assert c in f;
      }
    }
  }

  lemma MentionsOne(refs: seq<nat>, mp: seq<int>, m: nat, lit: nat, x: int)
    requires Mapped(refs, mp, m) && Used(refs, lit / 2)
    ensures Mentions([At(mp, lit, 0)], x) <==> Index(mp, lit / 2) == x
  {
    hide Mapped, Used;
    MapAbs(refs, mp, m, lit);
    assert At(mp, lit, 0) in [At(mp, lit, 0)];
  }

  // ----- which numbers are given -----

  /** Every number from 1 on belongs to a used variable. */
  lemma {:induction false} RankedOnto(refs: seq<nat>, v: nat, x: int) returns (u: nat)
    requires 1 <= x <= UsedVars(refs, v)
    ensures u < v && Used(refs, u) && UsedVars(refs, u + 1) == x
  {
    hide Used;
    if Used(refs, v - 1) && UsedVars(refs, v) == x {
      u := v - 1;
    } else {
      u := RankedOnto(refs, v - 1, x);
    }
  }

  /** A referenced literal is the output, or a gate that is printed references it. */
  lemma {:induction false} ConeSource(ands: seq<And>, s: set<nat>, l: nat)
    requires l in Cone(ands, s)
    ensures l in s || exists i :: 0 <= i < |ands| && References(ands[i], Cone(ands, s), l)
  {
    if ands != [] {
      var k := |ands| - 1;
      var t := Step(ands[k], s);
      ConeSource(ands[..k], t, l);
      if l in t && l !in s {
        ConeGrows(ands[..k], t);
        assert References(ands[k], Cone(ands, s), l);
      } else if l !in t {
        var i :| 0 <= i < |ands[..k]| && References(ands[..k][i], Cone(ands[..k], t), l);
        assert References(ands[i], Cone(ands, s), l);
      }
    }
  }

  predicate References(a: And, cone: set<nat>, l: nat) {
    (a.lhs in cone && (l == a.rhs0 || l == a.rhs1)) ||
    (a.lhs + 1 in cone && (l == Not(a.rhs0) || l == Not(a.rhs1)))
  }

  lemma {:induction false} ConeGrows(ands: seq<And>, s: set<nat>)
    ensures s <= Cone(ands, s)
  {
    if ands != [] {
      ConeGrows(ands[..|ands| - 1], Step(ands[|ands| - 1], s));
    }
  }

  /** With polarities every used variable is printed. */
  lemma UsedNamed(ands: seq<And>, refs: seq<nat>, output: nat, v: nat)
    requires Counted(refs) == Cone(ands, {output}) && Used(refs, v)
    ensures Named(ands, refs, output, v)
  {
    hide Cone;
    var l := if Pos(refs, 2 * v) then 2 * v else 2 * v + 1;
    CountedPos(refs, l);
    ConeSource(ands, {output}, l);
    if l != output {
      var i :| 0 <= i < |ands| && References(ands[i], Cone(ands, {output}), l);
      CountedPos(refs, ands[i].lhs);
      CountedPos(refs, ands[i].lhs + 1);
      NotHalf(ands[i].rhs0);
      NotHalf(ands[i].rhs1);
      assert GateNames(ands[i], refs, v);
    }
  }

  /** With polarities exactly the numbers 1 to m occur. */
  lemma VarsPolar(ands: seq<And>, refs: seq<nat>, mp: seq<int>, m: nat, output: nat, v: nat, x: int)
    requires Mapped(refs, mp, m) && Ranked(refs, mp) && m == UsedVars(refs, v) && Used(refs, output / 2)
    requires forall i :: 0 <= i < |ands| ==> ands[i].lhs % 2 == 0
    requires Counted(refs) == Cone(ands, {output})
    ensures x in Vars(PrintAll(Formula(ands, refs, mp, output))) <==> 1 <= x <= m
  {
    hide Used, Cone, Named, PrintAll, Vars, Formula, Counted;
    VarsNamed(ands, refs, mp, m, output, x);
    if 1 <= x <= m {
      var u := RankedOnto(refs, v, x);
      UsedNamed(ands, refs, output, u);
    }
    if u: nat :| Named(ands, refs, output, u) && Used(refs, u) && Index(mp, u) == x {
      UsedIndex(refs, mp, m, u);
    }
  }

  /** Without polarities variable v has number v, or v + 1 when the constant has number 1. */
  lemma {:induction false} ForcedRank(refs: seq<nat>, v: nat)
    requires 0 < v && 2 * v <= |refs| && forall l :: 2 <= l < |refs| ==> refs[l] > 0
    ensures UsedVars(refs, v) == v - 1 + if Used(refs, 0) then 1 else 0
  {
    if v > 1 {
      ForcedRank(refs, v - 1);
    } else {
      assert UsedVars(refs, 0) == 0;
    }
  }

  /** The circuit variables in the clauses when all gates are printed. */
  predicate Occurring(ands: seq<And>, output: nat, v: nat) {
    v == output / 2 ||
    exists i :: 0 <= i < |ands| && (v == ands[i].lhs / 2 || v == ands[i].rhs0 / 2 || v == ands[i].rhs1 / 2)
  }

  /** The output refers to a constant. */
  predicate Fixed(ands: seq<And>, output: nat) {
    0 in Cone(ands, {output}) || 1 in Cone(ands, {output})
  }

  /** DIMACS variable x is the fixed constant or an occurring variable, moved up by c. */
  ghost predicate OccursAs(ands: seq<And>, output: nat, c: nat, x: int) {
    (c == 1 && x == 1) || exists v: nat :: 0 < v && Occurring(ands, output, v) && x == v + c
  }

  lemma VarsForced(n: nat, ands: seq<And>, refs: seq<nat>, mp: seq<int>, m: nat, output: nat, maxvar: nat, x: int)
    requires Ordered(n, ands) && Mapped(refs, mp, m) && Ranked(refs, mp) && |refs| == 2 * (maxvar + 1)
    requires n + |ands| <= maxvar && 2 <= output && output / 2 <= n + |ands|
    requires forall l :: 2 <= l < |refs| ==> refs[l] > 0
    ensures var c := if Used(refs, 0) then 1 else 0;
            x in Vars(PrintAll(Formula(ands, refs, mp, output))) <==> OccursAs(ands, output, c, x)
  {
    hide PrintAll, Vars, Formula, Mapped, UsedVars, Ordered;
    var c := if Used(refs, 0) then 1 else 0;
    forall v: nat | 0 < v <= maxvar ensures Used(refs, v) && Index(mp, v) == v + c {
      assert refs[2 * v] > 0;
      ForcedRank(refs, v + 1);
    }
    ForcedRank(refs, 1);
    forall i | 0 <= i < |ands| ensures ands[i].lhs % 2 == 0 {
      OrderedAt(n, ands, i);
    }
    VarsNamed(ands, refs, mp, m, output, x);
    forall v: nat | 0 < v ensures Named(ands, refs, output, v) <==> Occurring(ands, output, v) {
      NamedOccurs(n, ands, refs, output, v, maxvar);
    }
    forall v: nat | Occurring(ands, output, v) ensures v <= maxvar {
      OccursBelow(n, ands, output, v);
    }
    if Used(refs, 0) {
      assert Named(ands, refs, output, 0);
      assert Index(mp, 0) == 1;
    }
  }

  lemma NamedOccurs(n: nat, ands: seq<And>, refs: seq<nat>, output: nat, v: nat, maxvar: nat)
    requires Ordered(n, ands) && n + |ands| <= maxvar && |refs| == 2 * (maxvar + 1) && 0 < v
    requires forall l :: 2 <= l < |refs| ==> refs[l] > 0
    ensures Named(ands, refs, output, v) <==> Occurring(ands, output, v)
  {
    forall i | 0 <= i < |ands|
      ensures GateNames(ands[i], refs, v) <==> v == ands[i].lhs / 2 || v == ands[i].rhs0 / 2 || v == ands[i].rhs1 / 2
    {
      OrderedAt(n, ands, i);
      assert Pos(refs, ands[i].lhs);
    }
  }

  lemma OccursBelow(n: nat, ands: seq<And>, output: nat, v: nat)
    requires Ordered(n, ands) && Occurring(ands, output, v) && output / 2 <= n + |ands|
    ensures v <= n + |ands|
  {
    if v != output / 2 {
      var i :| 0 <= i < |ands| && (v == ands[i].lhs / 2 || v == ands[i].rhs0 / 2 || v == ands[i].rhs1 / 2);
      OrderedAt(n, ands, i);
    }
  }

  // ----- the whole translation -----

  lemma FormulaNonZero(n: nat, ands: seq<And>, refs: seq<nat>, mp: seq<int>, m: nat, output: nat)
    requires Ordered(n, ands) && Covered(ands, refs) && Mapped(refs, mp, m) && Pos(refs, output)
    ensures forall c :: c in Formula(ands, refs, mp, output) ==> NonZero(c)
  {
    hide Covered, Mapped, Ordered, AllGates, GateClauses, Used;
    UsedOf(refs, output);
    MapNot(refs, mp, m, output);
    forall c | c in Formula(ands, refs, mp, output) ensures NonZero(c) {
      if c in AllGates(ands, refs, mp) {
        var i := OfGate(ands, refs, mp, c);
        OrderedAt(n, ands, i);
        CoveredAt(ands, refs, i);
        GateNonZero(ands[i], refs, mp, m, c);
      } else if c in Constants(refs, mp) {
        MapNot(refs, mp, m, 1);
      }
    }
  }

  lemma UsedOf(refs: seq<nat>, lit: nat)
    requires Pos(refs, lit)
    ensures Used(refs, lit / 2)
  {
  }

  lemma GateNonZero(a: And, refs: seq<nat>, mp: seq<int>, m: nat, c: Clause)
    requires a.lhs % 2 == 0 && GateCovered(a, refs) && Mapped(refs, mp, m) && c in GateClauses(a, refs, mp)
    ensures NonZero(c)
  {
    hide Mapped, Used;
    if Pos(refs, a.lhs) {
      UsedOf(refs, a.lhs);
      NeedsUsed(refs, a.rhs0);
      NeedsUsed(refs, a.rhs1);
      MapNot(refs, mp, m, a.lhs);
      MapNot(refs, mp, m, a.rhs0);
      MapNot(refs, mp, m, a.rhs1);
    }
    if Pos(refs, a.lhs + 1) {
      UsedOf(refs, a.lhs + 1);
      NeedsUsed(refs, Not(a.rhs0));
      NeedsUsed(refs, Not(a.rhs1));
      MapNot(refs, mp, m, a.lhs);
      MapNot(refs, mp, m, Not(a.rhs0));
      MapNot(refs, mp, m, Not(a.rhs1));
    }
  }

  /** A gate over an unfixed constant prints an empty clause. */
  lemma UncoveredEmpty(ands: seq<And>, refs: seq<nat>, mp: seq<int>, m: nat, output: nat, i: nat)
    requires Mapped(refs, mp, m) && i < |ands| && ands[i].rhs1 < 2 && Pos(refs, ands[i].lhs) && !Used(refs, 0)
    ensures [] in Parse(PrintAll(Formula(ands, refs, mp, output)))
  {
    assert VarMapped(refs, mp, m, 0);
    hide Mapped, AllGates, Used, Pos;
    var c := [At(mp, ands[i].lhs + 1, 0), At(mp, ands[i].rhs1, 0)];
    assert GateClauses(ands[i], refs, mp)[0] == c;
    GateIn(ands, refs, mp, i, c);
    var f := Formula(ands, refs, mp, output);
    assert c in f;
    var k :| 0 <= k < |f| && f[k] == c;
    ZeroLeavesEmpty(f, k);
  }

  lemma EmptyUnsatisfiable(clauses: seq<Clause>)
    requires [] in clauses
    ensures !Satisfiable(clauses)
  {
    forall a ensures !SatAll(a, clauses) {
      assert !Satisfies(a, []);
    }
  }

  /** main from the reencoded circuit on: the header counts and the token stream. */
  method Translate(n: nat, ands: seq<And>, output: nat, maxvar: nat, pg: bool)
    returns (m: nat, k: nat, tokens: seq<int>)
    requires Ordered(n, ands) && n + |ands| <= maxvar && output / 2 <= n + |ands|
    ensures pg || Clean(ands, output) || output < 2 ==>
              (Satisfiable(Parse(tokens)) <==> exists env :: Val(n, ands, env, output))
    ensures !(pg || Clean(ands, output) || output < 2) ==> !Satisfiable(Parse(tokens))
    ensures pg || Clean(ands, output) || output < 2 ==>
              (k == |Parse(tokens)| <==> pg || output < 2 || maxvar == n + |ands|)
    ensures forall t :: t in tokens ==> t <= m && -t <= m
    ensures output < 2 ==> m == 0
    ensures output >= 2 && pg ==> forall x :: x in Vars(tokens) <==> 1 <= x <= m
    ensures output >= 2 && !pg ==>
              var c := if Fixed(ands, output) then 1 else 0;
              m == maxvar + c && forall x :: x in Vars(tokens) <==> OccursAs(ands, output, c, x)
  {
    if output == 0 {
      m, k, tokens := 0, 1, [0];
      ConstantStreams(n, ands);
    } else if output == 1 {
      m, k, tokens := 0, 0, [];
      ConstantStreams(n, ands);
    } else {
      m, k, tokens := TranslateGates(n, ands, output, maxvar, pg);
    }
  }

  lemma ConstantStreams(n: nat, ands: seq<And>)
    requires Ordered(n, ands)
    ensures !Satisfiable(Parse([0])) && |Parse([0])| == 1 && forall env :: !Val(n, ands, env, 0)
    ensures Satisfiable(Parse([])) && |Parse([])| == 0 && exists env :: Val(n, ands, env, 1)
  {
    assert Parse([0])[0] == [];
    EmptyUnsatisfiable(Parse([0]));
    assert SatAll(iset{}, Parse([]));
    forall env ensures !Val(n, ands, env, 0) && Val(n, ands, env, 1) {
      ValNot(n, ands, env, 0);
    }
    assert Val(n, ands, iset{}, 1);
  }

  method TranslateGates(n: nat, ands: seq<And>, output: nat, maxvar: nat, pg: bool)
    returns (m: nat, k: nat, tokens: seq<int>)
    requires Ordered(n, ands) && n + |ands| <= maxvar && 2 <= output && output / 2 <= n + |ands|
    ensures pg || Clean(ands, output) ==> (Satisfiable(Parse(tokens)) <==> exists env :: Val(n, ands, env, output))
    ensures !(pg || Clean(ands, output)) ==> !Satisfiable(Parse(tokens))
    ensures pg || Clean(ands, output) ==> (k == |Parse(tokens)| <==> pg || maxvar == n + |ands|)
    ensures forall t :: t in tokens ==> t <= m && -t <= m
    ensures pg ==> forall x :: x in Vars(tokens) <==> 1 <= x <= m
    ensures !pg ==>
              var c := if Fixed(ands, output) then 1 else 0;
              m == maxvar + c && forall x :: x in Vars(tokens) <==> OccursAs(ands, output, c, x)
  {
    hide Val, Cone, Covered, Mapped, Ranked, Parse, PrintAll, Satisfiable, Clean, Clauses, UsedVars, Formula, Vars,
      Counted, Fixed, Ordered, OccursAs, Used;
    var refs := CountRefs(n, ands, output, maxvar);
    ghost var counted := refs[..];
    PolarityCovers(n, ands, output, counted);
    if !pg {
      ForceAll(refs);
      ForcedCovers(n, ands, output, counted, refs[..]);
    }
    var mp;
    mp, m, k := BuildMap(n, refs);
    forall i | 0 <= i < |ands|
      ensures ands[i].lhs % 2 == 0 && ands[i].lhs + 1 < refs.Length && ands[i].rhs1 <= ands[i].rhs0 < ands[i].lhs
    {
      OrderedAt(n, ands, i);
    }
    tokens := Emit(ands, refs, mp, output);
    TranslationCorrect(n, ands, output, counted, refs[..], mp[..], m, maxvar, pg);
    FormulaBounded(ands, refs[..], mp[..], m, output);
    VarsExact(n, ands, output, counted, refs[..], mp[..], m, maxvar, pg);
  }

  /** The variables that occur, in the terms of the circuit. */
  lemma VarsExact(n: nat, ands: seq<And>, output: nat, counted: seq<nat>, refs: seq<nat>, mp: seq<int>, m: nat,
                  maxvar: nat, pg: bool)
    requires Ordered(n, ands) && n + |ands| <= maxvar && 2 <= output && output / 2 <= n + |ands|
    requires Counted(counted) == Cone(ands, {output}) && |counted| == |refs| == 2 * (maxvar + 1)
    requires if pg then refs == counted
             else refs[0] == counted[0] && refs[1] == counted[1] && forall l :: 2 <= l < |refs| ==> refs[l] == INT_MAX
    requires Mapped(refs, mp, m) && Ranked(refs, mp) && m == UsedVars(refs, maxvar + 1) && Pos(refs, output)
    ensures var tokens := PrintAll(Formula(ands, refs, mp, output));
            if pg then forall x :: x in Vars(tokens) <==> 1 <= x <= m
            else
              var c := if Fixed(ands, output) then 1 else 0;
              m == maxvar + c && forall x :: x in Vars(tokens) <==> OccursAs(ands, output, c, x)
  {
    hide Mapped, Ranked, PrintAll, Formula, Vars, UsedVars, Cone, Ordered, Counted;
    var tokens := PrintAll(Formula(ands, refs, mp, output));
    forall i | 0 <= i < |ands| ensures ands[i].lhs % 2 == 0 {
      OrderedAt(n, ands, i);
    }
    UsedOf(refs, output);
    if pg {
      forall x ensures x in Vars(tokens) <==> 1 <= x <= m {
        VarsPolar(ands, refs, mp, m, output, maxvar + 1, x);
      }
    } else {
      ForcedRank(refs, maxvar + 1);
      CountedPos(counted, 0);
      CountedPos(counted, 1);
      forall x ensures x in Vars(tokens) <==> OccursAs(ands, output, if Fixed(ands, output) then 1 else 0, x) {
        VarsForced(n, ands, refs, mp, m, output, maxvar, x);
      }
    }
  }

  ghost predicate Within(c: seq<int>, m: nat) {
    forall l :: l in c ==> l <= m && -l <= m
  }

  lemma {:induction false} PrintBounded(clauses: seq<Clause>, m: nat)
    requires forall c :: c in clauses ==> Within(c, m)
    ensures Within(PrintAll(clauses), m)
  {
    if clauses != [] {
      PrintBounded(clauses[..|clauses| - 1], m);
      assert Within(clauses[|clauses| - 1], m);
    }
  }

  lemma MapBounded(refs: seq<nat>, mp: seq<int>, m: nat, lit: nat)
    requires Mapped(refs, mp, m)
    ensures At(mp, lit, 0) <= m && -At(mp, lit, 0) <= m
  {
    assert VarMapped(refs, mp, m, lit / 2);
    assert lit == 2 * (lit / 2) || lit == 2 * (lit / 2) + 1;
  }

  lemma FormulaBounded(ands: seq<And>, refs: seq<nat>, mp: seq<int>, m: nat, output: nat)
    requires Mapped(refs, mp, m)
    ensures Within(PrintAll(Formula(ands, refs, mp, output)), m)
  {
    hide Mapped, AllGates, Used, PrintAll;
    var f := Formula(ands, refs, mp, output);
    forall c | c in f ensures Within(c, m) {
      MapBounded(refs, mp, m, output);
      MapBounded(refs, mp, m, 1);
      if c in AllGates(ands, refs, mp) {
        var i := OfGate(ands, refs, mp, c);
        var a := ands[i];
        forall l | l in c ensures l <= m && -l <= m {
          MapBounded(refs, mp, m, a.lhs);
          MapBounded(refs, mp, m, a.lhs + 1);
          MapBounded(refs, mp, m, a.rhs0);
          MapBounded(refs, mp, m, a.rhs1);
          MapBounded(refs, mp, m, Not(a.rhs0));
          MapBounded(refs, mp, m, Not(a.rhs1));
        }
      }
    }
    PrintBounded(f, m);
  }

  lemma TranslationCorrect(n: nat, ands: seq<And>, output: nat, counted: seq<nat>, refs: seq<nat>, mp: seq<int>, m: nat,
                           maxvar: nat, pg: bool)
    requires Ordered(n, ands) && n + |ands| <= maxvar && 2 <= output && output / 2 <= n + |ands|
    requires Counted(counted) == Cone(ands, {output}) && |counted| == |refs| == 2 * (maxvar + 1)
    requires if pg then refs == counted
             else refs[0] == counted[0] && refs[1] == counted[1] && forall l :: 2 <= l < |refs| ==> refs[l] == INT_MAX
    requires Mapped(refs, mp, m)
    ensures var clauses := Parse(PrintAll(Formula(ands, refs, mp, output)));
            if pg || Clean(ands, output) then
              (Satisfiable(clauses) <==> exists env :: Val(n, ands, env, output)) &&
              (1 + Clauses(refs, n, maxvar + 1) == |clauses| <==> pg || maxvar == n + |ands|)
            else !Satisfiable(clauses)
  {
    hide Val, Cone, Covered, Mapped, Parse, PrintAll, Satisfiable, Clean, Clauses, Formula, Ordered, Used;
    PolarityCovers(n, ands, output, counted);
    if !pg {
      ForcedCovers(n, ands, output, counted, refs);
    }
    if pg || Clean(ands, output) {
      FormulaNonZero(n, ands, refs, mp, m, output);
      ParsePrint(Formula(ands, refs, mp, output));
      Equisatisfiable(n, ands, refs, mp, m, output);
      GateCount(n, ands, refs, mp);
      TailPlain(n, ands, output, counted, maxvar);
      TailCount(n, refs, n + |ands| + 1, maxvar + 1, !pg);
      FormulaSize(ands, refs, mp, output);
    } else {
      var i :| 0 <= i < |ands| && ands[i].rhs1 < 2 && Pos(refs, ands[i].lhs) && !Used(refs, 0);
      UncoveredEmpty(ands, refs, mp, m, output, i);
      EmptyUnsatisfiable(Parse(PrintAll(Formula(ands, refs, mp, output))));
    }
  }

  lemma FormulaSize(ands: seq<And>, refs: seq<nat>, mp: seq<int>, output: nat)
    ensures |Formula(ands, refs, mp, output)| == (if Used(refs, 0) then 1 else 0) + |AllGates(ands, refs, mp)| + 1
  {
  }

  /** Nothing above the defined variables is referenced. */
  lemma TailPlain(n: nat, ands: seq<And>, output: nat, counted: seq<nat>, maxvar: nat)
    requires Ordered(n, ands) && Counted(counted) == Cone(ands, {output}) && output / 2 <= n + |ands|
    ensures forall l :: 2 * (n + |ands| + 1) <= l < |counted| ==> counted[l] == 0
  {
    hide Ordered, Cone;
    forall l | 2 * (n + |ands| + 1) <= l < |counted| ensures counted[l] == 0 {
      ConeAdds(n, ands, {output}, l);
      CountedPos(counted, l);
    }
  }

  /** Without polarities an unneeded gate over a constant makes every translation
      unsatisfiable: here the output is the input itself. */
  lemma ForcedConstantFails()
    ensures var ands := [And(4, 2, 1)];
            Ordered(1, ands) && !Clean(ands, 2) && Val(1, ands, iset{1}, 2)
  {
    var ands := [And(4, 2, 1)];
    assert ands[..0] == [];
    assert Cone(ands, {2}) == Cone([], {2}) == {2};
    ValInput(1, ands, iset{1}, 1);
  }
}
