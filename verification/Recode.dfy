/** The code table of aiger_reencode and its AND section: compaction, sorting and
    the section they lead to. */
module Recode {
  import opened Lists
  import opened Aig
  import opened AigDfs
  import opened Renumber

  function Get(code: map<nat, nat>, lit: nat): nat {
    if lit in code then code[lit] else 0
  }

  // ----- the code table -----

  /** The inputs and latches, then the gates in the order in which they were closed. */
  ghost predicate Ordered(defs: Defs, leaves: seq<nat>, order: seq<nat>) {
    NoDup(leaves + order) && 0 !in leaves + order && Topological(defs, order) &&
    (forall v :: v in leaves ==> v !in defs) && (forall v :: v in order ==> v in defs)
  }

  ghost predicate Coding(defs: Defs, leaves: seq<nat>, order: seq<nat>, code: map<nat, nat>, next: nat) {
    Ordered(defs, leaves, order) && next == 2 * (|leaves| + |order| + 1) && Tabled(leaves + order, code)
  }

  ghost predicate Tabled(vars: seq<nat>, code: map<nat, nat>) {
    forall lit: nat :: Get(code, lit) == CodeOf(vars, lit)
  }

  predicate Known(vars: seq<nat>, lit: nat) {
    lit < 2 || lit / 2 in vars
  }

  lemma CodeKnown(vars: seq<nat>, lit: nat)
    requires lit >= 2
    ensures CodeOf(vars, lit) != 0 <==> lit / 2 in vars
  {
  }

  lemma CodeStable(vars: seq<nat>, more: seq<nat>, lit: nat)
    requires NoDup(vars + more) && Known(vars, lit)
    ensures Known(vars + more, lit) && CodeOf(vars + more, lit) == CodeOf(vars, lit)
  {
    if lit >= 2 {
      var k := Position(vars, lit / 2);
      assert (vars + more)[k] == lit / 2;
      PositionOf(vars + more, k);
    }
  }

  lemma CodeAppend(vars: seq<nat>, v: nat, lit: nat)
    requires NoDup(vars + [v]) && v != 0
    ensures CodeOf(vars + [v], lit) == if lit / 2 == v then 2 * (|vars| + 1) + lit % 2 else CodeOf(vars, lit)
  {
    if lit / 2 == v {
      assert (vars + [v])[|vars|] == v;
      PositionOf(vars + [v], |vars|);
    } else if lit >= 2 && lit / 2 in vars {
      CodeStable(vars, [v], lit);
    }
  }

  lemma TabledAppend(vars: seq<nat>, v: nat, code: map<nat, nat>)
    requires Tabled(vars, code) && NoDup(vars + [v]) && v != 0
    ensures Tabled(vars + [v], code[2 * v := 2 * (|vars| + 1)][2 * v + 1 := 2 * (|vars| + 1) + 1])
  {
    hide CodeOf;
    var code' := code[2 * v := 2 * (|vars| + 1)][2 * v + 1 := 2 * (|vars| + 1) + 1];
    forall lit: nat ensures Get(code', lit) == CodeOf(vars + [v], lit) {
      CodeAppend(vars, v, lit);
      assert Get(code, lit) == CodeOf(vars, lit);
      assert lit / 2 == v <==> lit == 2 * v || lit == 2 * v + 1;
    }
  }

  lemma NoDupAppend(vars: seq<nat>, v: nat)
    requires NoDup(vars) && v !in vars
    ensures NoDup(vars + [v])
  {
  }

  lemma CodingStart(defs: Defs)
    ensures Coding(defs, [], [], map[1 := 1], 2)
  {
    var none: seq<nat> := [];
    assert none + none == none;
  }

  lemma CodingLeaf(defs: Defs, leaves: seq<nat>, v: nat, code: map<nat, nat>, next: nat)
    requires Coding(defs, leaves, [], code, next) && v != 0 && v !in defs && v !in leaves
    ensures Coding(defs, leaves + [v], [], code[2 * v := next][2 * v + 1 := next + 1], next + 2)
  {
    hide Tabled, Topological;
    assert leaves + [] == leaves && (leaves + [v]) + [] == leaves + [v];
    NoDupAppend(leaves, v);
    TabledAppend(leaves, v, code);
  }

  lemma CodingGate(defs: Defs, leaves: seq<nat>, order: seq<nat>, v: nat, code: map<nat, nat>, next: nat)
    requires Coding(defs, leaves, order, code, next) && v != 0 && v in defs && v !in order
    requires forall c :: c in defs && Child(defs, v, c) ==> c in order
    ensures Coding(defs, leaves, order + [v], code[2 * v := next][2 * v + 1 := next + 1], next + 2)
  {
    hide Tabled, Topological, Child;
    assert leaves + (order + [v]) == (leaves + order) + [v];
    NoDupAppend(leaves + order, v);
    TabledAppend(leaves + order, v, code);
    TopologicalAppend(defs, order, v);
  }

  predicate DefinedVar(defs: Defs, leaves: seq<nat>, v: nat) {
    v == 0 || v in defs || v in leaves
  }

  /** Every right-hand side is constant, a gate, an input or a latch. */
  ghost predicate Closed(defs: Defs, leaves: seq<nat>) {
    forall v, c :: Child(defs, v, c) ==> DefinedVar(defs, leaves, c)
  }

  lemma PlacedChild(defs: Defs, leaves: seq<nat>, order: seq<nat>, k: nat, c: nat)
    requires Ordered(defs, leaves, order) && Closed(defs, leaves) && |leaves| <= k < |leaves| + |order|
    requires Child(defs, (leaves + order)[k], c)
    ensures Placed(leaves + order, c, k)
  {
    hide Child;
    var vars := leaves + order;
    assert vars[k] == order[k - |leaves|];
    assert DefinedVar(defs, leaves, c);
    if c in defs {
      var j :| 0 <= j < |order[..k - |leaves|]| && order[..k - |leaves|][j] == c;
      assert vars[..k][|leaves| + j] == c;
    } else if c in leaves {
      var j :| 0 <= j < |leaves| && leaves[j] == c;
      assert vars[..k][j] == c;
    }
  }

  lemma OrderNumbering(defs: Defs, leaves: seq<nat>, order: seq<nat>)
    requires Ordered(defs, leaves, order) && Closed(defs, leaves)
    ensures Numbering(defs, |leaves|, leaves + order)
  {
    hide Placed, Topological;
    var vars := leaves + order;
    forall k | |leaves| <= k < |vars|
      ensures vars[k] in defs && Placed(vars, defs[vars[k]].0 / 2, k) && Placed(vars, defs[vars[k]].1 / 2, k)
    {
      assert vars[k] in order;
      PlacedChild(defs, leaves, order, k, defs[vars[k]].0 / 2);
      PlacedChild(defs, leaves, order, k, defs[vars[k]].1 / 2);
    }
    assert forall k :: 0 <= k < |leaves| ==> vars[k] in leaves;
  }

  // ----- the AND section -----

  function RecodedAnd(a: And, code: map<nat, nat>): And {
    var rhs := Larger(Get(code, a.rhs0), Get(code, a.rhs1));
    And(Get(code, a.lhs), rhs.0, rhs.1)
  }

  /** The coded gates of the section, in their old order. */
  function Compact(ands: seq<And>, code: map<nat, nat>): (out: seq<And>)
    ensures |out| <= |ands|
  {
    if ands == [] then []
    else
      var n := |ands| - 1;
      var init := Compact(ands[..n], code);
      if Get(code, ands[n].lhs) == 0 then init else init + [RecodedAnd(ands[n], code)]
  }

  lemma {:induction false} CompactIn(ands: seq<And>, code: map<nat, nat>, e: And)
    ensures e in Compact(ands, code) <==>
            exists i :: 0 <= i < |ands| && Get(code, ands[i].lhs) != 0 && e == RecodedAnd(ands[i], code)
  {
    if ands != [] {
      var n := |ands| - 1;
      CompactIn(ands[..n], code, e);
      assert forall i :: 0 <= i < n ==> ands[..n][i] == ands[i];
      assert Get(code, ands[n].lhs) != 0 ==> RecodedAnd(ands[n], code) in Compact(ands, code);
      assert e in Compact(ands, code) <==>
             e in Compact(ands[..n], code) || (Get(code, ands[n].lhs) != 0 && e == RecodedAnd(ands[n], code));
    }
  }

  ghost predicate DistinctLhs(s: seq<And>) {
    forall i, j :: 0 <= i < j < |s| ==> s[i].lhs != s[j].lhs
  }

  /** Codes of different gates differ. */
  ghost predicate Injective(ands: seq<And>, code: map<nat, nat>) {
    forall i, j :: 0 <= i < j < |ands| && Get(code, ands[i].lhs) != 0 ==>
      Get(code, ands[i].lhs) != Get(code, ands[j].lhs)
  }

  lemma {:induction false} CompactDistinct(ands: seq<And>, code: map<nat, nat>)
    requires Injective(ands, code)
    ensures DistinctLhs(Compact(ands, code))
  {
    if ands != [] {
      var n := |ands| - 1;
      CompactDistinct(ands[..n], code);
      var init := Compact(ands[..n], code);
      forall i | 0 <= i < |init| && Get(code, ands[n].lhs) != 0 ensures init[i].lhs != Get(code, ands[n].lhs) {
        CompactIn(ands[..n], code, init[i]);
      }
    }
  }

  ghost predicate Increasing(s: seq<And>) {
    forall i, j :: 0 <= i < j < |s| ==> s[i].lhs < s[j].lhs
  }

  /** qsort by left-hand side. */
  function Sort(s: seq<And>): (t: seq<And>) {
    if s == [] then [] else Insert(s[0], Sort(s[1..]))
  }

  function Insert(a: And, s: seq<And>): seq<And> {
    if s == [] || a.lhs <= s[0].lhs then [a] + s else [s[0]] + Insert(a, s[1..])
  }

  lemma {:induction false} InsertIn(a: And, s: seq<And>)
    ensures multiset(Insert(a, s)) == multiset(s) + multiset{a}
  {
    if !(s == [] || a.lhs <= s[0].lhs) {
      InsertIn(a, s[1..]);
      assert s == [s[0]] + s[1..];
    }
  }

  lemma {:induction false} InsertIncreasing(a: And, s: seq<And>)
    requires Increasing(s) && forall i :: 0 <= i < |s| ==> s[i].lhs != a.lhs
    ensures Increasing(Insert(a, s))
  {
    if !(s == [] || a.lhs <= s[0].lhs) {
      var t := Insert(a, s[1..]);
      InsertIncreasing(a, s[1..]);
      InsertIn(a, s[1..]);
      forall j | 0 <= j < |t| ensures s[0].lhs < t[j].lhs {
        assert t[j] in multiset(t);
        assert t[j] == a || t[j] in s[1..];
      }
    }
  }

  lemma SortedApart(s: seq<And>, t: seq<And>)
    requires DistinctLhs(s) && s != [] && multiset(t) == multiset(s[1..])
    ensures forall j :: 0 <= j < |t| ==> t[j].lhs != s[0].lhs
  {
    forall j | 0 <= j < |t| ensures t[j].lhs != s[0].lhs {
      assert t[j] in multiset(t) && t[j] in s[1..];
    }
  }

  /** Sorting yields an increasing permutation. */
  lemma {:induction false} SortCorrect(s: seq<And>)
    requires DistinctLhs(s)
    ensures Increasing(Sort(s)) && multiset(Sort(s)) == multiset(s)
  {
    if s != [] {
      var t := Sort(s[1..]);
      DistinctTail(s);
      SortCorrect(s[1..]);
      hide Increasing, Insert, DistinctLhs;
      SortedApart(s, t);
      InsertIncreasing(s[0], t);
      InsertIn(s[0], t);
      assert s == [s[0]] + s[1..];
    }
  }

  lemma DistinctTail(s: seq<And>)
    requires DistinctLhs(s) && s != []
    ensures DistinctLhs(s[1..])
  {
  }

  /** An increasing section is determined by its elements. */
  lemma {:induction false} IncreasingUnique(s: seq<And>, t: seq<And>)
    requires Increasing(s) && Increasing(t) && forall e :: e in s <==> e in t
    ensures s == t
  {
    assert t != [] ==> t[0] in s;
    if s != [] {
      var m := |s| - 1;
      assert s[m] in t;
      var n := |t| - 1;
      assert t[n] in s;
      assert s[m] == t[n];
      forall e ensures e in s[..m] <==> e in t[..n] {
        LastOut(s, e);
        LastOut(t, e);
      }
      IncreasingUnique(s[..m], t[..n]);
      assert s == s[..m] + [s[m]] && t == t[..n] + [t[n]];
    }
  }

  lemma LastOut(s: seq<And>, e: And)
    requires Increasing(s) && s != []
    ensures var m := |s| - 1; e in s[..m] <==> e in s && e != s[m]
  {
  }

  /** The AND array and the gate definitions agree. */
  ghost predicate Describes(ands: seq<And>, defs: Defs) {
    DistinctLhs(ands) && (forall v :: v in defs ==> Listed(ands, v)) &&
    forall i :: 0 <= i < |ands| ==> Entry(ands[i], defs)
  }

  predicate Entry(a: And, defs: Defs) {
    a.lhs % 2 == 0 && a.lhs / 2 in defs && defs[a.lhs / 2] == (a.rhs0, a.rhs1)
  }

  ghost predicate Listed(ands: seq<And>, v: nat) {
    exists i :: 0 <= i < |ands| && ands[i].lhs == 2 * v
  }

  function NewAnd(defs: Defs, n: nat, vars: seq<nat>, k: nat): And
    requires GatesFrom(defs, n, vars) && n <= k < |vars|
  {
    var rhs := Recoded(defs, vars, vars[k]);
    And(2 * (k + 1), rhs.0, rhs.1)
  }

  /** The section of the renumbered graph, in the order of the new literals. */
  function Section(defs: Defs, n: nat, vars: seq<nat>): (s: seq<And>)
    requires GatesFrom(defs, n, vars)
    ensures |s| == |vars| - n && forall k :: 0 <= k < |s| ==> s[k] == NewAnd(defs, n, vars, n + k)
  {
    seq(|vars| - n, k requires 0 <= k < |vars| - n => NewAnd(defs, n, vars, n + k))
  }

  /** A coded gate becomes its entry of the new section. */
  lemma RecodedEntry(defs: Defs, leaves: seq<nat>, order: seq<nat>, code: map<nat, nat>, a: And)
    requires Ordered(defs, leaves, order) && Tabled(leaves + order, code) && Entry(a, defs) && 0 !in defs
    requires GatesFrom(defs, |leaves|, leaves + order)
    ensures Get(code, a.lhs) != 0 <==> a.lhs / 2 in order
    ensures a.lhs / 2 in order ==>
              RecodedAnd(a, code) == NewAnd(defs, |leaves|, leaves + order, |leaves| + Position(order, a.lhs / 2))
  {
    hide Topological;
    var v, vars := a.lhs / 2, leaves + order;
    assert Get(code, a.lhs) == CodeOf(vars, a.lhs);
    CodeKnown(vars, a.lhs);
    if v in order {
      var k := |leaves| + Position(order, v);
      assert vars[k] == v;
      PositionOf(vars, k);
      assert Get(code, a.rhs0) == CodeOf(vars, a.rhs0) && Get(code, a.rhs1) == CodeOf(vars, a.rhs1);
    }
  }

  lemma CompactSubset(ands: seq<And>, defs: Defs, leaves: seq<nat>, order: seq<nat>, code: map<nat, nat>, e: And)
    requires Describes(ands, defs) && Ordered(defs, leaves, order) && Tabled(leaves + order, code) && 0 !in defs
    requires GatesFrom(defs, |leaves|, leaves + order) && e in Compact(ands, code)
    ensures e in Section(defs, |leaves|, leaves + order)
  {
    hide Ordered, Tabled, RecodedAnd, NewAnd, Compact, Entry;
    CompactIn(ands, code, e);
    var i :| 0 <= i < |ands| && Get(code, ands[i].lhs) != 0 && e == RecodedAnd(ands[i], code);
    assert Entry(ands[i], defs);
    RecodedEntry(defs, leaves, order, code, ands[i]);
    assert Section(defs, |leaves|, leaves + order)[Position(order, ands[i].lhs / 2)] == e;
  }

  lemma EntryOf(ands: seq<And>, defs: Defs, v: nat) returns (i: nat)
    requires Describes(ands, defs) && v in defs
    ensures i < |ands| && ands[i].lhs == 2 * v && Entry(ands[i], defs)
  {
    assert Listed(ands, v);
    i :| 0 <= i < |ands| && ands[i].lhs == 2 * v;
  }

  lemma OrderedGate(defs: Defs, leaves: seq<nat>, order: seq<nat>, k: nat)
    requires Ordered(defs, leaves, order) && k < |order|
    ensures order[k] in defs && order[k] in order && Position(order, order[k]) == k
  {
    hide Topological;
    OrderPosition(leaves, order, k);
  }

  lemma SectionSubset(ands: seq<And>, defs: Defs, leaves: seq<nat>, order: seq<nat>, code: map<nat, nat>, k: nat)
    requires Describes(ands, defs) && Ordered(defs, leaves, order) && Tabled(leaves + order, code) && 0 !in defs
    requires GatesFrom(defs, |leaves|, leaves + order) && k < |order|
    ensures Section(defs, |leaves|, leaves + order)[k] in Compact(ands, code)
  {
    hide Ordered, Tabled, RecodedAnd, NewAnd, Compact, Entry, Describes, NoDup, Position;
    OrderedGate(defs, leaves, order, k);
    var i := EntryOf(ands, defs, order[k]);
    RecodedEntry(defs, leaves, order, code, ands[i]);
    CompactIn(ands, code, RecodedAnd(ands[i], code));
  }

  lemma OrderPosition(leaves: seq<nat>, order: seq<nat>, k: nat)
    requires NoDup(leaves + order) && k < |order|
    ensures Position(order, order[k]) == k
  {
    var j := Position(order, order[k]);
    assert (leaves + order)[|leaves| + j] == (leaves + order)[|leaves| + k];
  }

  lemma CodesInjective(ands: seq<And>, defs: Defs, vars: seq<nat>, code: map<nat, nat>)
    requires Describes(ands, defs) && Tabled(vars, code) && 0 !in defs
    ensures Injective(ands, code)
  {
    forall i, j | 0 <= i < j < |ands| && Get(code, ands[i].lhs) != 0
      ensures Get(code, ands[i].lhs) != Get(code, ands[j].lhs)
    {
      assert Entry(ands[i], defs) && Entry(ands[j], defs);
      CodesDiffer(vars, ands[i].lhs / 2, ands[j].lhs / 2);
      assert Get(code, ands[i].lhs) == CodeOf(vars, ands[i].lhs) && Get(code, ands[j].lhs) == CodeOf(vars, ands[j].lhs);
    }
  }

  lemma CodesDiffer(vars: seq<nat>, u: nat, v: nat)
    requires u != v && u != 0 && v != 0 && CodeOf(vars, 2 * u) != 0
    ensures CodeOf(vars, 2 * u) != CodeOf(vars, 2 * v)
  {
  }

  /** Compacting and sorting the AND array gives the section of the renumbered graph. */
  lemma SectionOf(ands: seq<And>, defs: Defs, leaves: seq<nat>, order: seq<nat>, code: map<nat, nat>)
    requires Describes(ands, defs) && Ordered(defs, leaves, order) && Tabled(leaves + order, code) && 0 !in defs
    requires GatesFrom(defs, |leaves|, leaves + order)
    ensures Sort(Compact(ands, code)) == Section(defs, |leaves|, leaves + order)
  {
    hide Topological, Tabled, Compact, Sort, Describes, Ordered;
    var c := Compact(ands, code);
    CodesInjective(ands, defs, leaves + order, code);
    CompactDistinct(ands, code);
    SortCorrect(c);
    forall e ensures e in Sort(c) <==> e in Section(defs, |leaves|, leaves + order) {
      if e in c {
        CompactSubset(ands, defs, leaves, order, code, e);
      }
      if e in Section(defs, |leaves|, leaves + order) {
        var k :| 0 <= k < |order| && Section(defs, |leaves|, leaves + order)[k] == e;
        SectionSubset(ands, defs, leaves, order, code, k);
      }
      assert e in Sort(c) <==> e in multiset(Sort(c));
      assert e in c <==> e in multiset(c);
    }
    IncreasingUnique(Sort(c), Section(defs, |leaves|, leaves + order));
  }

  // ----- the rest of the circuit -----

  /** Everything but the gates; literals throughout. */
  datatype Net = Net(inputs: seq<nat>, latches: seq<Latch>, outputs: seq<nat>, bad: seq<nat>, constraints: seq<nat>,
                     justice: seq<seq<nat>>, fairness: seq<nat>)

  /** The variables of the inputs, then of the latches. */
  function LeafVars(inputs: seq<nat>, latches: seq<Latch>): (vars: seq<nat>)
    ensures |vars| == |inputs| + |latches|
    ensures forall i :: 0 <= i < |inputs| ==> vars[i] == inputs[i] / 2
    ensures forall i :: 0 <= i < |latches| ==> vars[|inputs| + i] == latches[i].lit / 2
  {
    seq(|inputs|, i requires 0 <= i < |inputs| => inputs[i] / 2) +
    seq(|latches|, i requires 0 <= i < |latches| => latches[i].lit / 2)
  }

  function LatchRoots(latches: seq<Latch>): seq<nat> {
    if latches == [] then []
    else LatchRoots(latches[..|latches| - 1]) + [latches[|latches| - 1].next, latches[|latches| - 1].reset]
  }

  function Join(lists: seq<seq<nat>>): seq<nat> {
    if lists == [] then [] else Join(lists[..|lists| - 1]) + lists[|lists| - 1]
  }

  /** The literals that must keep their meaning, in the order in which they are reencoded. */
  function Roots(net: Net): seq<nat> {
    LatchRoots(net.latches) + net.outputs + net.bad + net.constraints + Join(net.justice) + net.fairness
  }

  function CodedLits(vars: seq<nat>, lits: seq<nat>): (r: seq<nat>)
    ensures |r| == |lits| && forall i :: 0 <= i < |r| ==> r[i] == CodeOf(vars, lits[i])
  {
    seq(|lits|, i requires 0 <= i < |lits| => CodeOf(vars, lits[i]))
  }

  function CodedLists(vars: seq<nat>, lists: seq<seq<nat>>): (r: seq<seq<nat>>)
    ensures |r| == |lists| && forall i :: 0 <= i < |r| ==> r[i] == CodedLits(vars, lists[i])
  {
    seq(|lists|, i requires 0 <= i < |lists| => CodedLits(vars, lists[i]))
  }

  /** Latches with their next and reset literals recoded. */
  function NextCoded(vars: seq<nat>, latches: seq<Latch>): (r: seq<Latch>)
    ensures |r| == |latches|
    ensures forall i :: 0 <= i < |r| ==>
              r[i] == Latch(latches[i].lit, CodeOf(vars, latches[i].next), CodeOf(vars, latches[i].reset))
  {
    seq(|latches|, i requires 0 <= i < |latches| =>
      Latch(latches[i].lit, CodeOf(vars, latches[i].next), CodeOf(vars, latches[i].reset)))
  }

  /** Latches with their own literals recoded. */
  function LitCoded(vars: seq<nat>, latches: seq<Latch>): (r: seq<Latch>)
    ensures |r| == |latches|
    ensures forall i :: 0 <= i < |r| ==> r[i] == Latch(CodeOf(vars, latches[i].lit), latches[i].next, latches[i].reset)
  {
    seq(|latches|, i requires 0 <= i < |latches| =>
      Latch(CodeOf(vars, latches[i].lit), latches[i].next, latches[i].reset))
  }

  function RecodedNet(vars: seq<nat>, net: Net): Net {
    Net(CodedLits(vars, net.inputs), LitCoded(vars, NextCoded(vars, net.latches)), CodedLits(vars, net.outputs),
        CodedLits(vars, net.bad), CodedLits(vars, net.constraints), CodedLists(vars, net.justice),
        CodedLits(vars, net.fairness))
  }

  ghost predicate AllKnown(vars: seq<nat>, lits: seq<nat>) {
    forall lit :: lit in lits ==> Known(vars, lit)
  }

  lemma CodedStable(vars: seq<nat>, more: seq<nat>, lits: seq<nat>)
    requires NoDup(vars + more) && AllKnown(vars, lits)
    ensures AllKnown(vars + more, lits) && CodedLits(vars + more, lits) == CodedLits(vars, lits)
  {
    hide CodeOf, Known;
    forall lit | lit in lits ensures Known(vars + more, lit) && CodeOf(vars + more, lit) == CodeOf(vars, lit) {
      CodeStable(vars, more, lit);
    }
  }

  lemma {:induction false} ListsStable(vars: seq<nat>, more: seq<nat>, lists: seq<seq<nat>>)
    requires NoDup(vars + more) && AllKnown(vars, Join(lists))
    ensures CodedLists(vars + more, lists) == CodedLists(vars, lists)
  {
    hide Known;
    if lists != [] {
      var n := |lists| - 1;
      assert AllKnown(vars, Join(lists[..n])) && AllKnown(vars, lists[n]);
      ListsStable(vars, more, lists[..n]);
      CodedStable(vars, more, lists[n]);
      var l, m := CodedLists(vars + more, lists), CodedLists(vars, lists);
      assert l[..n] == CodedLists(vars + more, lists[..n]) && m[..n] == CodedLists(vars, lists[..n]);
      assert l == l[..n] + [l[n]] && m == m[..n] + [m[n]];
    }
  }

  lemma {:induction false} LatchRootIn(latches: seq<Latch>, i: nat)
    requires i < |latches|
    ensures latches[i].next in LatchRoots(latches) && latches[i].reset in LatchRoots(latches)
  {
    var n := |latches| - 1;
    var tail := [latches[n].next, latches[n].reset];
    assert tail[0] in tail && tail[1] in tail;
    if i < n {
      LatchRootIn(latches[..n], i);
    }
  }

  lemma LatchesStable(vars: seq<nat>, more: seq<nat>, latches: seq<Latch>)
    requires NoDup(vars + more) && AllKnown(vars, LatchRoots(latches))
    ensures NextCoded(vars + more, latches) == NextCoded(vars, latches)
  {
    hide Known, CodeOf, LatchRoots;
    var l, m := NextCoded(vars + more, latches), NextCoded(vars, latches);
    forall i | 0 <= i < |l| ensures l[i] == m[i] {
      LatchRootIn(latches, i);
      CodeStable(vars, more, latches[i].next);
      CodeStable(vars, more, latches[i].reset);
    }
  }

  // ----- the numbered circuit -----

  /** Inputs, latches and gates carry the literals 2, 4, 6, ... and a gate comes after
      its ordered right-hand sides. */
  ghost predicate InOrder(inputs: seq<nat>, latches: seq<Latch>, ands: seq<And>) {
    var n := |inputs| + |latches|;
    (forall i :: 0 <= i < |inputs| ==> inputs[i] == 2 * (i + 1)) &&
    (forall i :: 0 <= i < |latches| ==> latches[i].lit == 2 * (|inputs| + i + 1)) &&
    forall i :: 0 <= i < |ands| ==> ands[i].lhs == 2 * (n + i + 1) && ands[i].lhs >= ands[i].rhs0 >= ands[i].rhs1
  }

  /** What aiger_check and the types guarantee of a circuit. */
  ghost predicate WellFormed(defs: Defs, net: Net) {
    var leaves := LeafVars(net.inputs, net.latches);
    NoDup(leaves) && 0 !in leaves && 0 !in defs && (forall v :: v in leaves ==> v !in defs) && Evens(net.inputs) &&
    (forall i :: 0 <= i < |net.latches| ==> net.latches[i].lit % 2 == 0) &&
    Closed(defs, leaves) && AllDefined(defs, leaves, Roots(net)) && Acyclic(defs)
  }

  ghost predicate Evens(lits: seq<nat>) {
    forall i :: 0 <= i < |lits| ==> lits[i] % 2 == 0
  }

  ghost predicate AllDefined(defs: Defs, leaves: seq<nat>, lits: seq<nat>) {
    forall lit :: lit in lits ==> DefinedVar(defs, leaves, lit / 2)
  }

  /** vars numbers exactly the inputs, the latches and the gates some root depends on. */
  ghost predicate Rewriting(defs: Defs, net: Net, vars: seq<nat>) {
    var leaves := LeafVars(net.inputs, net.latches);
    leaves <= vars && Numbering(defs, |leaves|, vars) && AllKnown(vars, Roots(net)) &&
    forall v :: v in defs ==> (v in vars <==> Needed(defs, Roots(net), v))
  }

  ghost predicate Needed(defs: Defs, roots: seq<nat>, v: nat) {
    exists i :: 0 <= i < |roots| && Reaches(defs, roots[i] / 2, v)
  }

  /** The main result: every next, reset, output, bad, constraint, justice and fairness
      literal keeps its value under position-matched inputs and latches. */
  lemma RewritingMeans(defs: Defs, net: Net, vars: seq<nat>, env: iset<nat>, env': iset<nat>, lit: nat)
    requires WellFormed(defs, net) && Rewriting(defs, net, vars) && lit in Roots(net)
    requires Matched(|net.inputs| + |net.latches|, vars, env, env')
    ensures Acyclic(Renumbered(defs, |net.inputs| + |net.latches|, vars))
    ensures Means(Renumbered(defs, |net.inputs| + |net.latches|, vars), env', CodeOf(vars, lit)) ==
            Means(defs, env, lit)
  {
    hide Closed, AllDefined, Acyclic, Roots, LeafVars, Numbering, Needed, NoDup;
    assert Known(vars, lit);
    RenumberedMeans(defs, |net.inputs| + |net.latches|, vars, env, env', lit);
  }

  lemma {:induction false} RootsRecodedLatches(vars: seq<nat>, latches: seq<Latch>)
    ensures LatchRoots(LitCoded(vars, NextCoded(vars, latches))) == CodedLits(vars, LatchRoots(latches))
  {
    hide CodeOf;
    if latches != [] {
      var n := |latches| - 1;
      RootsRecodedLatches(vars, latches[..n]);
      assert LitCoded(vars, NextCoded(vars, latches))[..n] == LitCoded(vars, NextCoded(vars, latches[..n]));
    }
  }

  lemma {:induction false} RootsRecodedLists(vars: seq<nat>, lists: seq<seq<nat>>)
    ensures Join(CodedLists(vars, lists)) == CodedLits(vars, Join(lists))
  {
    hide CodeOf;
    if lists != [] {
      var n := |lists| - 1;
      RootsRecodedLists(vars, lists[..n]);
      assert CodedLists(vars, lists)[..n] == CodedLists(vars, lists[..n]);
    }
  }

  lemma CodedConcat(vars: seq<nat>, a: seq<nat>, b: seq<nat>)
    ensures CodedLits(vars, a + b) == CodedLits(vars, a) + CodedLits(vars, b)
  {
    hide CodeOf;
  }

  /** The roots of the rewritten circuit are the codes of the roots. */
  lemma RootsRecoded(vars: seq<nat>, net: Net)
    ensures Roots(RecodedNet(vars, net)) == CodedLits(vars, Roots(net))
  {
    hide LatchRoots, Join, CodedLists, LitCoded, NextCoded, CodedLits, CodeOf;
    RootsRecodedLatches(vars, net.latches);
    RootsRecodedLists(vars, net.justice);
    var a, b, c := LatchRoots(net.latches), net.outputs, net.bad;
    var d, e := net.constraints, Join(net.justice);
    CodedConcat(vars, a, b);
    CodedConcat(vars, a + b, c);
    CodedConcat(vars, a + b + c, d);
    CodedConcat(vars, a + b + c + d, e);
    CodedConcat(vars, a + b + c + d + e, net.fairness);
  }

  /** The leaves of the rewritten circuit are the variables 1 to n. */
  lemma LeavesRecoded(net: Net, vars: seq<nat>)
    requires LeafVars(net.inputs, net.latches) <= vars && NoDup(vars) && 0 !in vars && Evens(net.inputs)
    requires forall i :: 0 <= i < |net.latches| ==> net.latches[i].lit % 2 == 0
    ensures var net' := RecodedNet(vars, net);
            (forall i :: 0 <= i < |net'.inputs| ==> net'.inputs[i] == 2 * (i + 1)) &&
            (forall i :: 0 <= i < |net'.latches| ==> net'.latches[i].lit == 2 * (|net.inputs| + i + 1))
  {
    hide CodeOf;
    var net', leaves := RecodedNet(vars, net), LeafVars(net.inputs, net.latches);
    forall i | 0 <= i < |net.inputs| ensures net'.inputs[i] == 2 * (i + 1) {
      assert vars[i] == leaves[i];
      LeafCode(vars, i, net.inputs[i]);
    }
    forall i | 0 <= i < |net.latches| ensures net'.latches[i].lit == 2 * (|net.inputs| + i + 1) {
      assert vars[|net.inputs| + i] == leaves[|net.inputs| + i];
      LeafCode(vars, |net.inputs| + i, net.latches[i].lit);
    }
  }

  lemma LeafCode(vars: seq<nat>, i: nat, lit: nat)
    requires NoDup(vars) && 0 !in vars && i < |vars| && lit % 2 == 0 && vars[i] == lit / 2
    ensures CodeOf(vars, lit) == 2 * (i + 1)
  {
    PositionOf(vars, i);
    assert vars[i] in vars;
  }

  /** The leaves as variables 1 to n. */
  lemma LeavesCount(inputs: seq<nat>, latches: seq<Latch>)
    requires InOrder(inputs, latches, [])
    ensures var leaves := LeafVars(inputs, latches);
            NoDup(leaves) && forall v: nat :: v in leaves <==> 0 < v <= |leaves|
  {
    var leaves := LeafVars(inputs, latches);
    forall i | 0 <= i < |leaves| ensures leaves[i] == i + 1 {
      if i >= |inputs| {
        assert leaves[|inputs| + (i - |inputs|)] == latches[i - |inputs|].lit / 2;
      }
    }
    forall v: nat | 0 < v <= |leaves| ensures v in leaves {
      assert leaves[v - 1] == v;
    }
  }

  /** The rewritten circuit is numbered in order and passes the check again. */
  lemma RewrittenWellFormed(defs: Defs, net: Net, vars: seq<nat>)
    requires WellFormed(defs, net) && Rewriting(defs, net, vars)
    ensures var n := |net.inputs| + |net.latches|; var net' := RecodedNet(vars, net);
            WellFormed(Renumbered(defs, n, vars), net') &&
            InOrder(net'.inputs, net'.latches, Section(defs, n, vars))
  {
    hide Roots, CodeOf, Acyclic, Ranked, Closed, AllDefined, Needed, Numbering, LeafVars, RecodedNet, AllKnown, NoDup,
      Section;
    var n := |net.inputs| + |net.latches|;
    NumberingFacts(defs, n, vars);
    var net', defs' := RecodedNet(vars, net), Renumbered(defs, n, vars);
    LeavesRecoded(net, vars);
    RecodedLengths(vars, net);
    SectionInOrder(defs, n, vars);
    LeavesCount(net'.inputs, net'.latches);
    RenumberedRanked(defs, n, vars);
    AcyclicIf(defs', Identity(n, |vars|));
    RenumberedClosed(defs, n, vars, LeafVars(net'.inputs, net'.latches));
    RootsRecoded(vars, net);
    CodesDefined(defs, n, vars, LeafVars(net'.inputs, net'.latches), Roots(net));
  }

  // ----- one circuit in place of another -----

  /** Inputs and latches have the same values position by position. */
  ghost predicate SameLeaves(net: Net, net': Net, env: iset<nat>, env': iset<nat>)
    requires |LeafVars(net.inputs, net.latches)| == |LeafVars(net'.inputs, net'.latches)|
  {
    forall k :: 0 <= k < |LeafVars(net.inputs, net.latches)| ==>
      (LeafVars(net.inputs, net.latches)[k] in env <==> LeafVars(net'.inputs, net'.latches)[k] in env')
  }

  /** Every next, reset, output, bad, constraint, justice and fairness literal keeps its
      value whenever inputs and latches do. */
  ghost predicate Preserved(defs: Defs, net: Net, defs': Defs, net': Net) {
    Acyclic(defs) && Acyclic(defs') && |Roots(net')| == |Roots(net)| &&
    |LeafVars(net.inputs, net.latches)| == |LeafVars(net'.inputs, net'.latches)| &&
    forall env, env' {:trigger SameLeaves(net, net', env, env')} :: SameLeaves(net, net', env, env') ==>
      SameRoots(defs, net, defs', net', env, env')
  }

  ghost predicate SameRoots(defs: Defs, net: Net, defs': Defs, net': Net, env: iset<nat>, env': iset<nat>)
    requires Acyclic(defs) && Acyclic(defs') && |Roots(net')| == |Roots(net)|
  {
    forall i :: 0 <= i < |Roots(net)| ==> (Means(defs', env', Roots(net')[i]) <==> Means(defs, env, Roots(net)[i]))
  }

  /** The rewritten circuit means what the given one means. */
  lemma RewritingPreserved(defs: Defs, net: Net, vars: seq<nat>)
    requires WellFormed(defs, net) && Rewriting(defs, net, vars)
    ensures Preserved(defs, net, Renumbered(defs, |net.inputs| + |net.latches|, vars), RecodedNet(vars, net))
  {
    hide Roots, CodeOf, Acyclic, Ranked, Closed, AllDefined, Needed, Numbering, LeafVars, RecodedNet, AllKnown, NoDup,
      Means;
    var n := |net.inputs| + |net.latches|;
    NumberingFacts(defs, n, vars);
    var net', defs' := RecodedNet(vars, net), Renumbered(defs, n, vars);
    LeavesRecoded(net, vars);
    RecodedLengths(vars, net);
    RootsRecoded(vars, net);
    LeafNumbers(net, net', vars);
    RenumberedRanked(defs, n, vars);
    AcyclicIf(defs', Identity(n, |vars|));
    forall env, env' {:trigger SameLeaves(net, net', env, env')} | SameLeaves(net, net', env, env')
      ensures SameRoots(defs, net, defs', net', env, env')
    {
      forall k | 0 <= k < n ensures vars[k] in env <==> k + 1 in env' {
        assert LeafVars(net.inputs, net.latches)[k] in env <==> LeafVars(net'.inputs, net'.latches)[k] in env';
      }
      forall i | 0 <= i < |Roots(net)| ensures Means(defs', env', Roots(net')[i]) <==> Means(defs, env, Roots(net)[i]) {
        RewritingMeans(defs, net, vars, env, env', Roots(net)[i]);
      }
    }
  }

  lemma LeafNumbers(net: Net, net': Net, vars: seq<nat>)
    requires LeafVars(net.inputs, net.latches) <= vars
    requires |net'.inputs| == |net.inputs| && |net'.latches| == |net.latches|
    requires forall i :: 0 <= i < |net'.inputs| ==> net'.inputs[i] == 2 * (i + 1)
    requires forall i :: 0 <= i < |net'.latches| ==> net'.latches[i].lit == 2 * (|net.inputs| + i + 1)
    ensures var a, b := LeafVars(net.inputs, net.latches), LeafVars(net'.inputs, net'.latches);
            |a| == |b| == |net.inputs| + |net.latches| <= |vars| && forall k :: 0 <= k < |a| ==>
              a[k] == vars[k] && b[k] == k + 1
  {
    var b := LeafVars(net'.inputs, net'.latches);
    forall k | 0 <= k < |b| ensures b[k] == k + 1 {
      if k >= |net.inputs| {
        assert b[k] == net'.latches[k - |net.inputs|].lit / 2;
      }
    }
  }

  lemma LeafSame(defs: Defs, rank: map<nat, nat>, leaves: seq<nat>, env: iset<nat>, env': iset<nat>, lit: nat)
    requires Ranked(defs, rank) && DefinedVar(defs, leaves, lit / 2) && lit / 2 !in defs
    requires forall v :: v in leaves ==> (v in env <==> v in env')
    ensures Eval(defs, rank, env', lit) == Eval(defs, rank, env, lit)
  {
    EvalLeaf(defs, rank, env, lit / 2);
    EvalLeaf(defs, rank, env', lit / 2);
    EvalNot(defs, rank, env, 2 * (lit / 2));
    EvalNot(defs, rank, env', 2 * (lit / 2));
  }

  /** Values depend on the inputs and latches only. */
  lemma {:induction false} EvalSame(defs: Defs, rank: map<nat, nat>, leaves: seq<nat>, env: iset<nat>, env': iset<nat>,
                                    lit: nat)
    requires Ranked(defs, rank) && 0 !in defs && Closed(defs, leaves) && DefinedVar(defs, leaves, lit / 2)
    requires forall v :: v in leaves ==> (v in env <==> v in env')
    ensures Eval(defs, rank, env', lit) == Eval(defs, rank, env, lit)
    decreases RankOf(rank, lit / 2), lit % 2
  {
    var v := lit / 2;
    hide Eval, Value;
    if v !in defs {
      LeafSame(defs, rank, leaves, env, env', lit);
    } else if lit % 2 == 1 {
      EvalSame(defs, rank, leaves, env, env', lit - 1);
      EvalNot(defs, rank, env, lit - 1);
      EvalNot(defs, rank, env', lit - 1);
    } else {
      forall c | c == defs[v].0 || c == defs[v].1 ensures Eval(defs, rank, env', c) == Eval(defs, rank, env, c) {
        assert Child(defs, v, c / 2);
        if c / 2 in defs {
          EvalSame(defs, rank, leaves, env, env', c);
        } else {
          LeafSame(defs, rank, leaves, env, env', c);
        }
      }
      EvalGate(defs, rank, env, v);
      EvalGate(defs, rank, env', v);
    }
  }

  lemma MeansSame(defs: Defs, net: Net, env: iset<nat>, env': iset<nat>, lit: nat)
    requires WellFormed(defs, net) && lit in Roots(net) && SameLeaves(net, net, env, env')
    ensures Means(defs, env', lit) == Means(defs, env, lit)
  {
    var leaves := LeafVars(net.inputs, net.latches);
    var rank :| Ranked(defs, rank);
    hide LeafVars, Roots, Eval, Means, Ranked, Acyclic;
    MeansEval(defs, rank, env, lit);
    MeansEval(defs, rank, env', lit);
    forall v | v in leaves ensures v in env <==> v in env' {
      var k :| 0 <= k < |leaves| && leaves[k] == v;
      assert leaves[k] in env <==> leaves[k] in env';
    }
    EvalSame(defs, rank, leaves, env, env', lit);
  }

  /** A circuit means what it means. */
  lemma UnchangedPreserved(defs: Defs, net: Net)
    requires WellFormed(defs, net)
    ensures Preserved(defs, net, defs, net)
  {
    WellFormedAcyclic(defs, net);
    hide *;
    forall env, env' {:trigger SameLeaves(net, net, env, env')} | SameLeaves(net, net, env, env')
      ensures SameRoots(defs, net, defs, net, env, env')
    {
      forall i | 0 <= i < |Roots(net)| ensures Means(defs, env', Roots(net)[i]) <==> Means(defs, env, Roots(net)[i]) {
        MeansSame(defs, net, env, env', Roots(net)[i]);
      }
      SameRootsIf(defs, net, defs, net, env, env');
    }
    PreservedIf(defs, net, defs, net);
  }

  lemma WellFormedAcyclic(defs: Defs, net: Net)
    requires WellFormed(defs, net)
    ensures Acyclic(defs)
  {
  }

  lemma SameRootsIf(defs: Defs, net: Net, defs': Defs, net': Net, env: iset<nat>, env': iset<nat>)
    requires Acyclic(defs) && Acyclic(defs') && |Roots(net')| == |Roots(net)|
    requires forall i :: 0 <= i < |Roots(net)| ==>
             (Means(defs', env', Roots(net')[i]) <==> Means(defs, env, Roots(net)[i]))
    ensures SameRoots(defs, net, defs', net', env, env')
  {
    hide Means, Roots, Acyclic;
  }

  lemma PreservedIf(defs: Defs, net: Net, defs': Defs, net': Net)
    requires Acyclic(defs) && Acyclic(defs') && |Roots(net')| == |Roots(net)|
    requires |LeafVars(net.inputs, net.latches)| == |LeafVars(net'.inputs, net'.latches)|
    requires forall env, env' {:trigger SameLeaves(net, net', env, env')} :: SameLeaves(net, net', env, env') ==>
      SameRoots(defs, net, defs', net', env, env')
    ensures Preserved(defs, net, defs', net')
  {
    hide SameLeaves, SameRoots, Roots, LeafVars, Acyclic;
  }

  lemma AcyclicIf(defs: Defs, rank: map<nat, nat>)
    requires Ranked(defs, rank)
    ensures Acyclic(defs)
  {
  }

  lemma NumberingFacts(defs: Defs, n: nat, vars: seq<nat>)
    requires Numbering(defs, n, vars)
    ensures NoDup(vars) && 0 !in vars && GatesFrom(defs, n, vars)
  {
  }

  lemma RecodedLengths(vars: seq<nat>, net: Net)
    ensures var net' := RecodedNet(vars, net); |net'.inputs| == |net.inputs| && |net'.latches| == |net.latches|
  {
  }

  lemma SectionInOrder(defs: Defs, n: nat, vars: seq<nat>)
    requires Numbering(defs, n, vars)
    ensures GatesFrom(defs, n, vars)
    ensures var s := Section(defs, n, vars);
            forall i :: 0 <= i < |s| ==> s[i].lhs == 2 * (n + i + 1) && s[i].lhs > s[i].rhs0 >= s[i].rhs1
  {
    NumberingFacts(defs, n, vars);
    hide Numbering;
    var s := Section(defs, n, vars);
    forall i | 0 <= i < |s| ensures s[i].lhs == 2 * (n + i + 1) && s[i].lhs > s[i].rhs0 >= s[i].rhs1 {
      assert s[i] == NewAnd(defs, n, vars, n + i);
      GateAbove(defs, n, vars, n + i + 1);
    }
  }

  lemma RenumberedClosed(defs: Defs, n: nat, vars: seq<nat>, leaves: seq<nat>)
    requires Numbering(defs, n, vars) && |leaves| == n && forall v: nat :: v in leaves <==> 0 < v <= n
    ensures GatesFrom(defs, n, vars) && Closed(Renumbered(defs, n, vars), leaves)
  {
    NumberingFacts(defs, n, vars);
    hide Numbering;
    var defs' := Renumbered(defs, n, vars);
    forall k, c | Child(defs', k, c) ensures DefinedVar(defs', leaves, c) {
      GateAbove(defs, n, vars, k);
    }
  }

  lemma CodesDefined(defs: Defs, n: nat, vars: seq<nat>, leaves: seq<nat>, lits: seq<nat>)
    requires GatesFrom(defs, n, vars) && AllKnown(vars, lits) && forall v: nat :: v in leaves <==> 0 < v <= n
    ensures AllDefined(Renumbered(defs, n, vars), leaves, CodedLits(vars, lits))
  {
    var defs', r := Renumbered(defs, n, vars), CodedLits(vars, lits);
    forall lit | lit in r ensures DefinedVar(defs', leaves, lit / 2) {
      var i :| 0 <= i < |r| && r[i] == lit;
      assert Known(vars, lits[i]) && lit == CodeOf(vars, lits[i]);
    }
  }
}
