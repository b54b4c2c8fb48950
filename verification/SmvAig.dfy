/** The hash-consed and-inverter graphs of smvtoaig: signed node references,
    algebraic simplification and the unique table. */
module SmvAig {

  const TRUE := 1
  const FALSE := -1

  /** A reference is TRUE, FALSE or plus or minus k + 2 for node k; negating it
      negates the node. */
  type Ref = int

  /** An input bit of a symbol or a conjunction. */
  datatype Node = Bit(symbol: nat, slice: nat) | And(c0: Ref, c1: Ref)

  type Nodes = seq<Node>

  function Abs(r: Ref): nat {
    if r < 0 then -r else r
  }

  /** A reference to a constant or to one of the first k nodes. */
  predicate Below(r: Ref, k: nat) {
    r != 0 && Abs(r) < k + 2
  }

  predicate Constant(r: Ref) {
    Abs(r) == 1
  }

  ghost predicate Layered(nodes: Nodes) {
    forall k :: 0 <= k < |nodes| && nodes[k].And? ==>
      Below(nodes[k].c0, k) && Below(nodes[k].c1, k) && !Constant(nodes[k].c0) && !Constant(nodes[k].c1)
  }

  type Env = iset<(nat, nat)>

  /** The value of a reference when env are the true bits. */
  ghost predicate Val(nodes: Nodes, env: Env, r: Ref)
    requires Layered(nodes) && Below(r, |nodes|)
    decreases Abs(r), r < 0
  {
    if r < 0 then !Val(nodes, env, -r)
    else if r == TRUE then true
    else match nodes[r - 2]
      case Bit(s, l) => (s, l) in env
      case And(c0, c1) => Val(nodes, env, c0) && Val(nodes, env, c1)
  }

  /** The size of the tree below a reference. */
  function Size(nodes: Nodes, r: Ref): nat
    requires Layered(nodes) && Below(r, |nodes|)
    decreases Abs(r)
  {
    if Constant(r) then 1
    else match nodes[Abs(r) - 2]
      case Bit(s, l) => 1
      case And(c0, c1) => 1 + Size(nodes, c0) + Size(nodes, c1)
  }

  lemma ValNot(nodes: Nodes, env: Env, r: Ref)
    requires Layered(nodes) && Below(r, |nodes|)
    ensures Val(nodes, env, -r) == !Val(nodes, env, r) && Size(nodes, -r) == Size(nodes, r)
    ensures Val(nodes, env, TRUE) && !Val(nodes, env, FALSE)
  {
  }

  predicate IsAnd(nodes: Nodes, r: Ref) {
    2 <= Abs(r) < |nodes| + 2 && nodes[Abs(r) - 2].And?
  }

  /** The children of a node; a bit counts as its own children. */
  function Child0(nodes: Nodes, r: Ref): Ref {
    if IsAnd(nodes, r) then nodes[Abs(r) - 2].c0 else Abs(r)
  }

  function Child1(nodes: Nodes, r: Ref): Ref {
    if IsAnd(nodes, r) then nodes[Abs(r) - 2].c1 else Abs(r)
  }

  lemma ChildrenVal(nodes: Nodes, env: Env, r: Ref)
    requires Layered(nodes) && Below(r, |nodes|) && !Constant(r)
    ensures var c0, c1 := Child0(nodes, r), Child1(nodes, r);
            Below(c0, |nodes|) && Below(c1, |nodes|) && !Constant(c0) && !Constant(c1) &&
            (Val(nodes, env, c0) && Val(nodes, env, c1) <==> Val(nodes, env, Abs(r))) &&
            (IsAnd(nodes, r) ==> Size(nodes, c0) < Size(nodes, r) && Size(nodes, c1) < Size(nodes, r))
  {
  }

  // ----- simplification -----

  /** 0 stands for no simplification. */
  function OneLevel(a: Ref, b: Ref): Ref {
    if a == FALSE || b == FALSE then FALSE
    else if b == TRUE || a == b then a
    else if a == TRUE then b
    else if a == -b then FALSE
    else 0
  }

  /** Contradiction and idempotence, or subsumption, of (a0 & a1) against another reference. */
  function Asymmetric(a: Ref, a0: Ref, a1: Ref, b: Ref): Ref {
    if a > 0 then
      if a0 == -b || a1 == -b then FALSE
      else if a0 == b || a1 == b then a
      else 0
    else if a0 == -b || a1 == -b then b
    else 0
  }

  function Symmetric(a: Ref, a0: Ref, a1: Ref, b: Ref, b0: Ref, b1: Ref): Ref {
    if a > 0 && b > 0 then
      if a0 == -b0 || a0 == -b1 || a1 == -b0 || a1 == -b1 then FALSE else 0
    else if a < 0 && b > 0 then
      if a0 == -b0 || a1 == -b0 || a0 == -b1 || a1 == -b1 then b else 0
    else if a > 0 && b < 0 then
      if b0 == -a0 || b1 == -a0 || b0 == -a1 || b1 == -a1 then a else 0
    else if a0 == b0 && a1 == -b1 then -a0
    else if a0 == b1 && a1 == -b0 then -a0
    else if a1 == b0 && a0 == -b1 then -a1
    else if a1 == b1 && a0 == -b0 then -a1
    else 0
  }

  /** simplify_aig_two_level */
  function TwoLevel(nodes: Nodes, a: Ref, b: Ref): Ref {
    var a0, a1, b0, b1 := Child0(nodes, a), Child1(nodes, a), Child0(nodes, b), Child1(nodes, b);
    if Asymmetric(a, a0, a1, b) != 0 then Asymmetric(a, a0, a1, b)
    else if Asymmetric(b, b0, b1, a) != 0 then Asymmetric(b, b0, b1, a)
    else Symmetric(a, a0, a1, b, b0, b1)
  }

  datatype Pair = Pair(a: Ref, b: Ref)

  /** Substitution of one reference into a negated conjunction: 0 if it does not apply. */
  function Substitute(nodes: Nodes, a: Ref, b: Ref): Ref {
    if a < 0 && IsAnd(nodes, a) then
      if Child0(nodes, a) == b then -Child1(nodes, a)
      else if Child1(nodes, a) == b then -Child0(nodes, a)
      else 0
    else 0
  }

  /** Substitution of one side of a conjunction into a negated conjunction. */
  function SubstituteSide(nodes: Nodes, a: Ref, b: Ref): Ref {
    if a < 0 && IsAnd(nodes, a) && b > 0 && IsAnd(nodes, b) then
      var b0, b1 := Child0(nodes, b), Child1(nodes, b);
      if Child0(nodes, a) == b0 || Child0(nodes, a) == b1 then -Child1(nodes, a)
      else if Child1(nodes, a) == b0 || Child1(nodes, a) == b1 then -Child0(nodes, a)
      else 0
    else 0
  }

  /** A shared conjunct is dropped from a. */
  function Shared(nodes: Nodes, a: Ref, b: Ref): Ref {
    if a > 0 && IsAnd(nodes, a) && b > 0 && IsAnd(nodes, b) then
      var a0, a1, b0, b1 := Child0(nodes, a), Child1(nodes, a), Child0(nodes, b), Child1(nodes, b);
      if a0 == b0 || a0 == b1 then a1
      else if a1 == b0 || a1 == b1 then a0
      else 0
    else 0
  }

  /** The operands after one rewriting step, or the same operands. */
  function Rewrite(nodes: Nodes, level: nat, a: Ref, b: Ref): Pair {
    if level >= 3 && Substitute(nodes, a, b) != 0 then Pair(Substitute(nodes, a, b), b)
    else if level >= 3 && Substitute(nodes, b, a) != 0 then Pair(a, Substitute(nodes, b, a))
    else if level >= 3 && SubstituteSide(nodes, b, a) != 0 then Pair(a, SubstituteSide(nodes, b, a))
    else if level >= 3 && SubstituteSide(nodes, a, b) != 0 then Pair(SubstituteSide(nodes, a, b), b)
    else if level >= 4 && Shared(nodes, a, b) != 0 then Pair(Shared(nodes, a, b), b)
    else Pair(a, b)
  }

  /** The result of the two simplifiers, 0 if neither applies. */
  function Simplify(nodes: Nodes, level: nat, a: Ref, b: Ref): Ref {
    if OneLevel(a, b) != 0 then OneLevel(a, b)
    else if level >= 2 then TwoLevel(nodes, a, b)
    else 0
  }

  /** Nothing applies to the operands. */
  predicate Stuck(nodes: Nodes, level: nat, a: Ref, b: Ref) {
    Simplify(nodes, level, a, b) == 0 &&
    (level >= 3 ==> Substitute(nodes, a, b) == 0 && Substitute(nodes, b, a) == 0 &&
                    SubstituteSide(nodes, a, b) == 0 && SubstituteSide(nodes, b, a) == 0) &&
    (level >= 4 ==> Shared(nodes, a, b) == 0)
  }

  ghost predicate Conjoins(nodes: Nodes, env: Env, r: Ref, a: Ref, b: Ref)
    requires Layered(nodes) && Below(a, |nodes|) && Below(b, |nodes|)
  {
    Below(r, |nodes|) && Val(nodes, env, r) == (Val(nodes, env, a) && Val(nodes, env, b))
  }

  /** A simplified conjunction means the conjunction. */
  lemma SimplifySound(nodes: Nodes, level: nat, env: Env, a: Ref, b: Ref)
    requires Layered(nodes) && Below(a, |nodes|) && Below(b, |nodes|)
    ensures Simplify(nodes, level, a, b) != 0 ==> Conjoins(nodes, env, Simplify(nodes, level, a, b), a, b)
  {
    OneLevelSound(nodes, env, a, b);
    if OneLevel(a, b) == 0 && level >= 2 && TwoLevel(nodes, a, b) != 0 {
      TwoLevelSound(nodes, env, a, b);
    }
  }

  lemma OneLevelSound(nodes: Nodes, env: Env, a: Ref, b: Ref)
    requires Layered(nodes) && Below(a, |nodes|) && Below(b, |nodes|)
    ensures OneLevel(a, b) != 0 ==> Conjoins(nodes, env, OneLevel(a, b), a, b)
  {
    hide Val, Size, Layered;
    ValNot(nodes, env, a);
    ValNot(nodes, env, b);
  }

  lemma TwoLevelSound(nodes: Nodes, env: Env, a: Ref, b: Ref)
    requires Layered(nodes) && Below(a, |nodes|) && Below(b, |nodes|) && OneLevel(a, b) == 0 &&
             TwoLevel(nodes, a, b) != 0
    ensures Conjoins(nodes, env, TwoLevel(nodes, a, b), a, b)
  {
    hide Val, Size, Layered, Child0, Child1, Asymmetric, Symmetric;
    var a0, a1, b0, b1 := Child0(nodes, a), Child1(nodes, a), Child0(nodes, b), Child1(nodes, b);
    ChildrenVal(nodes, env, a);
    ChildrenVal(nodes, env, b);
    AsymmetricSound(nodes, env, a, a0, a1, b);
    AsymmetricSound(nodes, env, b, b0, b1, a);
    SymmetricSound(nodes, env, a, a0, a1, b, b0, b1);
  }

  ghost predicate Splits(nodes: Nodes, env: Env, a: Ref, a0: Ref, a1: Ref)
    requires Layered(nodes)
  {
    Below(a, |nodes|) && Below(a0, |nodes|) && Below(a1, |nodes|) &&
    (Val(nodes, env, Abs(a)) <==> Val(nodes, env, a0) && Val(nodes, env, a1))
  }

  lemma AsymmetricSound(nodes: Nodes, env: Env, a: Ref, a0: Ref, a1: Ref, b: Ref)
    requires Layered(nodes) && Splits(nodes, env, a, a0, a1) && Below(b, |nodes|)
    ensures Asymmetric(a, a0, a1, b) != 0 ==> Conjoins(nodes, env, Asymmetric(a, a0, a1, b), a, b)
  {
    hide Val, Size, Layered;
    ValNot(nodes, env, a);
    ValNot(nodes, env, b);
  }

  lemma SymmetricSound(nodes: Nodes, env: Env, a: Ref, a0: Ref, a1: Ref, b: Ref, b0: Ref, b1: Ref)
    requires Layered(nodes) && Splits(nodes, env, a, a0, a1) && Splits(nodes, env, b, b0, b1)
    ensures Symmetric(a, a0, a1, b, b0, b1) != 0 ==> Conjoins(nodes, env, Symmetric(a, a0, a1, b, b0, b1), a, b)
  {
    hide Val, Size, Layered;
    ValNot(nodes, env, a);
    ValNot(nodes, env, b);
    ValNot(nodes, env, a0);
    ValNot(nodes, env, a1);
    ValNot(nodes, env, b0);
    ValNot(nodes, env, b1);
  }

  /** The operands shrink and keep their conjunction, or nothing applies. */
  ghost predicate Progress(nodes: Nodes, env: Env, a: Ref, b: Ref, p: Pair)
    requires Layered(nodes) && Below(a, |nodes|) && Below(b, |nodes|)
  {
    Below(p.a, |nodes|) && Below(p.b, |nodes|) &&
    Size(nodes, p.a) + Size(nodes, p.b) < Size(nodes, a) + Size(nodes, b) &&
    (Val(nodes, env, p.a) && Val(nodes, env, p.b) <==> Val(nodes, env, a) && Val(nodes, env, b))
  }

  lemma RewriteSound(nodes: Nodes, level: nat, env: Env, a: Ref, b: Ref)
    requires Layered(nodes) && Below(a, |nodes|) && Below(b, |nodes|) && Simplify(nodes, level, a, b) == 0
    ensures var p := Rewrite(nodes, level, a, b);
            if p == Pair(a, b) then Stuck(nodes, level, a, b) else Progress(nodes, env, a, b, p)
  {
    hide Val, Size, Layered, Child0, Child1, TwoLevel, IsAnd;
    ChildrenVal(nodes, env, a);
    ChildrenVal(nodes, env, b);
    SubstituteSound(nodes, env, a, b);
    SubstituteSound(nodes, env, b, a);
    SideSound(nodes, env, a, b);
    SideSound(nodes, env, b, a);
    SharedSound(nodes, env, a, b);
    hide Substitute, SubstituteSide, Shared;
  }

  /** Replacing a by r keeps the conjunction with b and makes it smaller. */
  ghost predicate Replaces(nodes: Nodes, env: Env, a: Ref, b: Ref, r: Ref)
    requires Layered(nodes) && Below(a, |nodes|) && Below(b, |nodes|)
  {
    Below(r, |nodes|) && Size(nodes, r) < Size(nodes, a) && r != a &&
    (Val(nodes, env, b) ==> Val(nodes, env, r) == Val(nodes, env, a))
  }

  lemma SubstituteSound(nodes: Nodes, env: Env, a: Ref, b: Ref)
    requires Layered(nodes) && Below(a, |nodes|) && Below(b, |nodes|) && !Constant(a)
    ensures Substitute(nodes, a, b) != 0 ==> Replaces(nodes, env, a, b, Substitute(nodes, a, b))
  {
    hide Val, Size, Layered, Child0, Child1, IsAnd;
    ChildrenVal(nodes, env, a);
    ValNot(nodes, env, a);
    ValNot(nodes, env, Child0(nodes, a));
    ValNot(nodes, env, Child1(nodes, a));
  }

  lemma SideSound(nodes: Nodes, env: Env, a: Ref, b: Ref)
    requires Layered(nodes) && Below(a, |nodes|) && Below(b, |nodes|) && !Constant(a) && !Constant(b)
    ensures SubstituteSide(nodes, a, b) != 0 ==> Replaces(nodes, env, a, b, SubstituteSide(nodes, a, b))
  {
    hide Val, Size, Layered, Child0, Child1, IsAnd;
    ChildrenVal(nodes, env, a);
    ChildrenVal(nodes, env, b);
    ValNot(nodes, env, a);
    ValNot(nodes, env, Child0(nodes, a));
    ValNot(nodes, env, Child1(nodes, a));
  }

  lemma SharedSound(nodes: Nodes, env: Env, a: Ref, b: Ref)
    requires Layered(nodes) && Below(a, |nodes|) && Below(b, |nodes|) && !Constant(a) && !Constant(b)
    ensures Shared(nodes, a, b) != 0 ==> Replaces(nodes, env, a, b, Shared(nodes, a, b))
  {
    hide Val, Size, Layered, Child0, Child1, IsAnd;
    ChildrenVal(nodes, env, a);
    ChildrenVal(nodes, env, b);
  }

  // ----- what no rule applies to -----

  function Kids(nodes: Nodes, r: Ref): set<Ref> {
    {Child0(nodes, r), Child1(nodes, r)}
  }

  /** b is neither contradicted nor contained in a conjunction a, nor is a negated one implied. */
  predicate Apart(nodes: Nodes, a: Ref, b: Ref) {
    -b !in Kids(nodes, a) && (a > 0 ==> b !in Kids(nodes, a))
  }

  predicate Opposed(x: set<Ref>, y: set<Ref>) {
    exists r :: r in x && -r in y
  }

  /** The conjunctions p & q and p & -q. */
  predicate Resolvable(x: set<Ref>, y: set<Ref>) {
    exists p, q :: p in x && q in x && x == {p, q} && y == {p, -q}
  }

  /** Operands of a conjunction in terms of their children alone. */
  predicate Reduced(nodes: Nodes, level: nat, a: Ref, b: Ref) {
    var x, y := Kids(nodes, a), Kids(nodes, b);
    var both := IsAnd(nodes, a) && IsAnd(nodes, b);
    !Constant(a) && !Constant(b) && Abs(a) != Abs(b) &&
    (level >= 2 ==>
       Apart(nodes, a, b) && Apart(nodes, b, a) && if a < 0 && b < 0 then !Resolvable(x, y) else !Opposed(x, y)) &&
    (level >= 3 ==>
       (a < 0 && IsAnd(nodes, a) ==> b !in x) && (b < 0 && IsAnd(nodes, b) ==> a !in y) &&
       (both && (a < 0) != (b < 0) ==> x !! y)) &&
    (level >= 4 ==> both && a > 0 && b > 0 ==> x !! y)
  }

  lemma OneLevelIs(a: Ref, b: Ref)
    requires a != 0 && b != 0
    ensures OneLevel(a, b) == 0 <==> !Constant(a) && !Constant(b) && Abs(a) != Abs(b)
  {
  }

  lemma AsymmetricIs(nodes: Nodes, a: Ref, b: Ref)
    requires a != 0 && b != 0
    ensures Asymmetric(a, Child0(nodes, a), Child1(nodes, a), b) == 0 <==> Apart(nodes, a, b)
  {
    hide Child0, Child1;
  }

  lemma SymmetricIs(nodes: Nodes, a: Ref, b: Ref)
    requires a != 0 && b != 0 && Child0(nodes, a) != 0 && Child1(nodes, a) != 0
    ensures Symmetric(a, Child0(nodes, a), Child1(nodes, a), b, Child0(nodes, b), Child1(nodes, b)) == 0 <==>
            if a < 0 && b < 0 then !Resolvable(Kids(nodes, a), Kids(nodes, b))
            else !Opposed(Kids(nodes, a), Kids(nodes, b))
  {
    var a0, a1, b0, b1 := Child0(nodes, a), Child1(nodes, a), Child0(nodes, b), Child1(nodes, b);
    ResolvableIs(a0, a1, b0, b1);
    OpposedIs(a0, a1, b0, b1);
    hide Child0, Child1, Resolvable, Opposed;
  }

  lemma SubstituteIs(nodes: Nodes, a: Ref, b: Ref)
    requires Child0(nodes, a) != 0 && Child1(nodes, a) != 0
    ensures Substitute(nodes, a, b) == 0 <==> (a < 0 && IsAnd(nodes, a) ==> b !in Kids(nodes, a))
  {
    hide Child0, Child1, IsAnd;
  }

  lemma SideIs(nodes: Nodes, a: Ref, b: Ref)
    requires Child0(nodes, a) != 0 && Child1(nodes, a) != 0
    ensures SubstituteSide(nodes, a, b) == 0 <==>
            (a < 0 && b > 0 && IsAnd(nodes, a) && IsAnd(nodes, b) ==> Kids(nodes, a) !! Kids(nodes, b))
  {
    hide Child0, Child1, IsAnd;
  }

  lemma SharedIs(nodes: Nodes, a: Ref, b: Ref)
    requires Child0(nodes, a) != 0 && Child1(nodes, a) != 0
    ensures Shared(nodes, a, b) == 0 <==>
            (a > 0 && b > 0 && IsAnd(nodes, a) && IsAnd(nodes, b) ==> Kids(nodes, a) !! Kids(nodes, b))
  {
    hide Child0, Child1, IsAnd;
  }

  /** No rule of any level fires exactly when no operand is constant, repeated or opposite,
      contained in or contradicted by the other, and their children neither clash, resolve
      nor, at higher levels, overlap. */
  lemma StuckExact(nodes: Nodes, level: nat, a: Ref, b: Ref)
    requires Layered(nodes) && Below(a, |nodes|) && Below(b, |nodes|) && level >= 1
    ensures Stuck(nodes, level, a, b) <==> Reduced(nodes, level, a, b)
  {
    OneLevelIs(a, b);
    hide OneLevel;
    if OneLevel(a, b) == 0 {
      ChildrenVal(nodes, iset{}, a);
      ChildrenVal(nodes, iset{}, b);
      hide *;
      AsymmetricIs(nodes, a, b);
      AsymmetricIs(nodes, b, a);
      SymmetricIs(nodes, a, b);
      SubstituteIs(nodes, a, b);
      SubstituteIs(nodes, b, a);
      SideIs(nodes, a, b);
      SideIs(nodes, b, a);
      SharedIs(nodes, a, b);
      LevelsIs(nodes, level, a, b);
    }
  }

  /** The levels together. */
  lemma LevelsIs(nodes: Nodes, level: nat, a: Ref, b: Ref)
    requires OneLevel(a, b) == 0 && !Constant(a) && !Constant(b) && Abs(a) != Abs(b) && level >= 1 && a != 0 && b != 0
    requires Asymmetric(a, Child0(nodes, a), Child1(nodes, a), b) == 0 <==> Apart(nodes, a, b)
    requires Asymmetric(b, Child0(nodes, b), Child1(nodes, b), a) == 0 <==> Apart(nodes, b, a)
    requires Symmetric(a, Child0(nodes, a), Child1(nodes, a), b, Child0(nodes, b), Child1(nodes, b)) == 0 <==>
             if a < 0 && b < 0 then !Resolvable(Kids(nodes, a), Kids(nodes, b))
             else !Opposed(Kids(nodes, a), Kids(nodes, b))
    requires Substitute(nodes, a, b) == 0 <==> (a < 0 && IsAnd(nodes, a) ==> b !in Kids(nodes, a))
    requires Substitute(nodes, b, a) == 0 <==> (b < 0 && IsAnd(nodes, b) ==> a !in Kids(nodes, b))
    requires SubstituteSide(nodes, a, b) == 0 <==>
             (a < 0 && b > 0 && IsAnd(nodes, a) && IsAnd(nodes, b) ==> Kids(nodes, a) !! Kids(nodes, b))
    requires SubstituteSide(nodes, b, a) == 0 <==>
             (b < 0 && a > 0 && IsAnd(nodes, b) && IsAnd(nodes, a) ==> Kids(nodes, b) !! Kids(nodes, a))
    requires Shared(nodes, a, b) == 0 <==>
             (a > 0 && b > 0 && IsAnd(nodes, a) && IsAnd(nodes, b) ==> Kids(nodes, a) !! Kids(nodes, b))
    ensures Stuck(nodes, level, a, b) <==> Reduced(nodes, level, a, b)
  {
    var x, y := Kids(nodes, a), Kids(nodes, b);
    assert x !! y <==> y !! x;
    hide OneLevel, Asymmetric, Symmetric, Substitute, SubstituteSide, Shared, Apart, Resolvable, Opposed, Kids, Child0,
      Child1, IsAnd;
  }

  lemma ResolvableIs(a0: Ref, a1: Ref, b0: Ref, b1: Ref)
    ensures Resolvable({a0, a1}, {b0, b1}) <==>
            (a0 == b0 && a1 == -b1) || (a0 == b1 && a1 == -b0) || (a1 == b0 && a0 == -b1) || (a1 == b1 && a0 == -b0)
  {
    var x, y := {a0, a1}, {b0, b1};
    if Resolvable(x, y) {
      var p, q :| p in x && q in x && x == {p, q} && y == {p, -q};
      assert a0 in {p, q} && a1 in {p, q} && b0 in {p, -q} && b1 in {p, -q};
      assert p in {a0, a1} && q in {a0, a1} && p in {b0, b1} && -q in {b0, b1};
    }
    if (a0 == b0 && a1 == -b1) || (a0 == b1 && a1 == -b0) {
      assert a0 in x && a1 in x && x == {a0, a1} && y == {a0, -a1};
    }
    if (a1 == b0 && a0 == -b1) || (a1 == b1 && a0 == -b0) {
      assert a1 in x && a0 in x && x == {a1, a0} && y == {a1, -a0};
    }
  }

  lemma OpposedIs(a0: Ref, a1: Ref, b0: Ref, b1: Ref)
    ensures Opposed({a0, a1}, {b0, b1}) <==> a0 == -b0 || a0 == -b1 || a1 == -b0 || a1 == -b1
  {
    if a0 == -b0 || a0 == -b1 {
      assert a0 in {a0, a1} && -a0 in {b0, b1};
    }
    if a1 == -b0 || a1 == -b1 {
      assert a1 in {a0, a1} && -a1 in {b0, b1};
    }
  }

  /** So is every stored conjunction. */
  lemma StoredReduced(nodes: Nodes, level: nat, k: nat)
    requires Layered(nodes) && Settled(nodes, level) && level >= 1 && k < |nodes| && nodes[k].And?
    ensures Reduced(nodes, level, nodes[k].c0, nodes[k].c1)
  {
    assert SettledAt(nodes, level, k);
    StuckExact(nodes, level, nodes[k].c0, nodes[k].c1);
  }

  /** The rules do not care about the order of the operands. */
  lemma StuckSwap(nodes: Nodes, level: nat, a: Ref, b: Ref)
    requires Layered(nodes) && Below(a, |nodes|) && Below(b, |nodes|) && Stuck(nodes, level, a, b)
    ensures Stuck(nodes, level, b, a)
  {
    assert !Constant(a) && !Constant(b);
    ChildrenVal(nodes, iset{}, a);
    ChildrenVal(nodes, iset{}, b);
    hide Child0, Child1, IsAnd, Layered;
  }

  /** The rules only read the nodes below their operands. */
  lemma StuckStable(nodes: Nodes, more: Nodes, level: nat, a: Ref, b: Ref)
    requires Below(a, |nodes|) && Below(b, |nodes|)
    ensures Stuck(nodes + more, level, a, b) == Stuck(nodes, level, a, b)
  {
    ChildStable(nodes, more, a);
    ChildStable(nodes, more, b);
    hide Child0, Child1, IsAnd;
  }

  lemma ChildStable(nodes: Nodes, more: Nodes, r: Ref)
    requires Below(r, |nodes|)
    ensures IsAnd(nodes + more, r) == IsAnd(nodes, r) && Child0(nodes + more, r) == Child0(nodes, r)
    ensures Child1(nodes + more, r) == Child1(nodes, r)
  {
  }

  /** Values survive the creation of nodes. */
  lemma {:induction false} ValStable(nodes: Nodes, more: Nodes, env: Env, r: Ref)
    requires Layered(nodes) && Layered(nodes + more) && Below(r, |nodes|)
    ensures Val(nodes + more, env, r) == Val(nodes, env, r)
    decreases Abs(r), r < 0
  {
    if r < 0 {
      ValStable(nodes, more, env, -r);
    } else if r != TRUE && nodes[r - 2].And? {
      ValStable(nodes, more, env, nodes[r - 2].c0);
      ValStable(nodes, more, env, nodes[r - 2].c1);
    }
  }

  /** Two pairs of operands with the same conjunction. */
  ghost predicate SameConjunction(nodes: Nodes, p: Pair, q: Pair) {
    Layered(nodes) && Below(p.a, |nodes|) && Below(p.b, |nodes|) && Below(q.a, |nodes|) && Below(q.b, |nodes|) &&
    forall env :: (Val(nodes, env, p.a) && Val(nodes, env, p.b)) == (Val(nodes, env, q.a) && Val(nodes, env, q.b))
  }

  lemma SameTrans(nodes: Nodes, p: Pair, q: Pair, r: Pair)
    requires SameConjunction(nodes, p, q) && SameConjunction(nodes, q, r)
    ensures SameConjunction(nodes, p, r)
  {
    hide Val, Layered;
    forall env ensures (Val(nodes, env, p.a) && Val(nodes, env, p.b)) == (Val(nodes, env, r.a) &&
      Val(nodes, env, r.b)) {
      assert (Val(nodes, env, p.a) && Val(nodes, env, p.b)) == (Val(nodes, env, q.a) && Val(nodes, env, q.b));
    }
  }

  lemma RewriteSame(nodes: Nodes, level: nat, a: Ref, b: Ref)
    requires Layered(nodes) && Below(a, |nodes|) && Below(b, |nodes|) && Simplify(nodes, level, a, b) == 0
    ensures var p := Rewrite(nodes, level, a, b);
            if p == Pair(a, b) then Stuck(nodes, level, a, b)
            else
              SameConjunction(nodes, Pair(a, b), p) &&
              Size(nodes, p.a) + Size(nodes, p.b) < Size(nodes, a) + Size(nodes, b)
  {
    hide Val, Layered, Rewrite, Stuck, Simplify, Size;
    RewriteSound(nodes, level, iset{}, a, b);
    var p := Rewrite(nodes, level, a, b);
    if p != Pair(a, b) {
      forall env ensures (Val(nodes, env, a) && Val(nodes, env, b)) == (Val(nodes, env, p.a) && Val(nodes, env, p.b)) {
        RewriteSound(nodes, level, env, a, b);
      }
    }
  }

  /** A reference means the conjunction of two others. */
  ghost predicate Means(nodes: Nodes, r: Ref, a: Ref, b: Ref) {
    Layered(nodes) && Below(a, |nodes|) && Below(b, |nodes|) && forall env :: Conjoins(nodes, env, r, a, b)
  }

  lemma SimplifyMeans(nodes: Nodes, level: nat, a: Ref, b: Ref, p: Pair)
    requires SameConjunction(nodes, p, Pair(a, b)) && Simplify(nodes, level, a, b) != 0
    ensures Means(nodes, Simplify(nodes, level, a, b), p.a, p.b)
  {
    hide Val, Layered, Simplify;
    forall env ensures Conjoins(nodes, env, Simplify(nodes, level, a, b), p.a, p.b) {
      SimplifySound(nodes, level, env, a, b);
    }
  }

  /** A node over the operands, created or found, means their conjunction. */
  lemma NodeMeans(nodes0: Nodes, nodes: Nodes, k: nat, a: Ref, b: Ref, p: Pair)
    requires nodes0 <= nodes && Layered(nodes0) && Layered(nodes) && SameConjunction(nodes0, p, Pair(a, b))
    requires k < |nodes| && (nodes[k] == And(a, b) || nodes[k] == And(b, a))
    ensures Means(nodes, k + 2, p.a, p.b)
  {
    hide Layered;
    var more := nodes[|nodes0|..];
    assert nodes == nodes0 + more;
    var r: Ref := k + 2;
    forall env ensures Conjoins(nodes, env, r, p.a, p.b) {
      ValStable(nodes0, more, env, p.a);
      ValStable(nodes0, more, env, p.b);
      ValStable(nodes0, more, env, a);
      ValStable(nodes0, more, env, b);
      assert (Val(nodes0, env, p.a) && Val(nodes0, env, p.b)) == (Val(nodes0, env, a) && Val(nodes0, env, b));
    }
  }

  // ----- the unique table -----

  /** Nothing simplifies a stored conjunction, and its operands are ordered. */
  ghost predicate Settled(nodes: Nodes, level: nat) {
    forall k :: 0 <= k < |nodes| && nodes[k].And? ==> SettledAt(nodes, level, k)
  }

  ghost predicate SettledAt(nodes: Nodes, level: nat, k: nat)
    requires k < |nodes| && nodes[k].And?
  {
    Stuck(nodes, level, nodes[k].c0, nodes[k].c1) && Abs(nodes[k].c0) < Abs(nodes[k].c1)
  }

  ghost predicate Distinct<S>(s: seq<S>) {
    forall i, j :: 0 <= i < j < |s| ==> s[i] != s[j]
  }

  lemma LayeredMore(nodes: Nodes, level: nat, n: Node)
    requires Layered(nodes) && Settled(nodes, level)
    requires n.And? ==> Below(n.c0, |nodes|) && Below(n.c1, |nodes|) && !Constant(n.c0) && !Constant(n.c1)
    requires n.And? ==> Stuck(nodes, level, n.c0, n.c1) && Abs(n.c0) < Abs(n.c1)
    ensures Layered(nodes + [n]) && Settled(nodes + [n], level)
  {
    hide Stuck;
    forall k | 0 <= k < |nodes| + 1 && (nodes + [n])[k].And? ensures SettledAt(nodes + [n], level, k) {
      if k < |nodes| {
        assert SettledAt(nodes, level, k);
        StuckStable(nodes, [n], level, nodes[k].c0, nodes[k].c1);
      } else {
        StuckStable(nodes, [n], level, n.c0, n.c1);
      }
    }
  }

  class Manager {
    var nodes: Nodes
    var buckets: seq<seq<nat>>
    const level: nat
    const hash: Node -> nat

    /** Every node is in the chain of its hash value and nowhere else. */
    ghost predicate Table()
      reads this`nodes, this`buckets
    {
      (nodes != [] ==> buckets != []) && (forall h :: 0 <= h < |buckets| ==> Chain(buckets[h], h)) &&
      forall k :: 0 <= k < |nodes| ==> k in buckets[hash(nodes[k]) % |buckets|]
    }

    ghost predicate Chain(chain: seq<nat>, h: nat)
      requires buckets != []
      reads this`nodes, this`buckets
    {
      forall i :: 0 <= i < |chain| ==> chain[i] < |nodes| && hash(nodes[chain[i]]) % |buckets| == h
    }

    ghost predicate Valid()
      reads this`nodes, this`buckets
    {
      Layered(nodes) && Settled(nodes, level) && Distinct(nodes) && Table() && 1 <= level <= 4
    }

    constructor (level: nat, hash: Node -> nat)
      requires 1 <= level <= 4
      ensures Valid() && nodes == [] && this.level == level && this.hash == hash
    {
      this.level := level;
      this.hash := hash;
      nodes, buckets := [], [];
    }

    /** Chains already moved, while the others wait. */
    static ghost predicate Moving(nodes: Nodes, hash: Node -> nat, moved: seq<seq<nat>>, done: set<nat>)
    {
      moved != [] && (forall h, i :: 0 <= h < |moved| && 0 <= i < |moved[h]| ==>
        moved[h][i] < |nodes| && hash(nodes[moved[h][i]]) % |moved| == h) &&
      forall k :: k in done && k < |nodes| ==> k in moved[hash(nodes[k]) % |moved|]
    }

    /** enlarge_aigs */
    method Enlarge()
      requires Valid()
      modifies this`buckets
      ensures Valid() && |buckets| == if old(buckets) == [] then 1 else 2 * |old(buckets)|
    {
      hide Layered, Settled, Distinct;
      var size := if buckets == [] then 1 else 2 * |buckets|;
      var moved := seq(size, i => []);
      ghost var done: set<nat> := {};
      for i := 0 to |buckets|
        invariant Valid() && buckets == old(buckets) && |moved| == size && Moving(nodes, hash, moved, done)
        invariant forall j, k :: 0 <= j < i && k in buckets[j] ==> k in done
      {
        var chain := buckets[i];
        for j := 0 to |chain|
          invariant Valid() && buckets == old(buckets) && |moved| == size && Moving(nodes, hash, moved, done)
          invariant forall h, k :: 0 <= h < i && k in buckets[h] ==> k in done
          invariant forall l :: 0 <= l < j ==> chain[l] in done
        {
          assert Chain(chain, i);
          var p := chain[j];
          var h := hash(nodes[p]) % size;
          MovedOne(nodes, hash, moved, done, p);
          moved := moved[h := [p] + moved[h]];
          done := done + {p};
        }
      }
      forall k | 0 <= k < |nodes| ensures k in moved[hash(nodes[k]) % size] {
        assert k in buckets[hash(nodes[k]) % |buckets|];
      }
      buckets := moved;
    }

    static lemma MovedOne(nodes: Nodes, hash: Node -> nat, moved: seq<seq<nat>>, done: set<nat>, p: nat)
      requires Moving(nodes, hash, moved, done) && p < |nodes|
      ensures var h := hash(nodes[p]) % |moved|; Moving(nodes, hash, moved[h := [p] + moved[h]], done + {p})
    {
      var h := hash(nodes[p]) % |moved|;
      var more := moved[h := [p] + moved[h]];
      forall g, i | 0 <= g < |more| && 0 <= i < |more[g]|
        ensures more[g][i] < |nodes| && hash(nodes[more[g][i]]) % |more| == g
      {
        assert g == h && i > 0 ==> more[g][i] == moved[g][i - 1];
      }
      forall k | k in done + {p} && k < |nodes| ensures k in more[hash(nodes[k]) % |more|] {
        var g := hash(nodes[k]) % |more|;
        if k == p {
          assert more[h][0] == p;
        } else {
          assert k in moved[g];
          assert forall x :: x in moved[g] ==> x in more[g];
        }
      }
    }

    /** find_aig: the node with this content in its chain. */
    method Find(n: Node) returns (found: bool, k: nat)
      requires Valid() && buckets != []
      ensures found ==> k < |nodes| && nodes[k] == n
      ensures !found ==> n !in nodes
    {
      hide Layered, Settled, Distinct;
      var chain := buckets[hash(n) % |buckets|];
      assert Chain(chain, hash(n) % |buckets|);
      found, k := false, 0;
      for i := 0 to |chain|
        invariant forall j :: 0 <= j < i ==> nodes[chain[j]] != n
      {
        if nodes[chain[i]] == n {
          return true, chain[i];
        }
      }
      forall m | 0 <= m < |nodes| ensures nodes[m] != n {
        assert m in buckets[hash(nodes[m]) % |buckets|];
        assert m in chain ==> nodes[m] != n;
      }
    }

    /** The end of new_aig: return the node with this content or append it to its chain. */
    method Store(n: Node) returns (k: nat)
      requires Valid() && buckets != []
      requires n.And? ==> Below(n.c0, |nodes|) && Below(n.c1, |nodes|) && !Constant(n.c0) && !Constant(n.c1)
      requires n.And? ==> Stuck(nodes, level, n.c0, n.c1) && Abs(n.c0) < Abs(n.c1)
      modifies this`nodes, this`buckets
      ensures Valid() && k < |nodes| && nodes[k] == n && nodes == if n in old(nodes) then old(nodes)
              else old(nodes) + [n]
    {
      hide Layered, Settled, Stuck;
      var found;
      found, k := Find(n);
      if !found {
        LayeredMore(nodes, level, n);
        k := |nodes|;
        var h := hash(n) % |buckets|;
        ghost var before := buckets;
        assert forall g :: 0 <= g < |buckets| ==> Chain(buckets[g], g);
        nodes := nodes + [n];
        buckets := buckets[h := buckets[h] + [k]];
        forall g | 0 <= g < |buckets| ensures Chain(buckets[g], g) {
          forall i | 0 <= i < |buckets[g]| ensures buckets[g][i] < |nodes| &&
            hash(nodes[buckets[g][i]]) % |buckets| == g {
            assert i < |before[g]| ==> buckets[g][i] == before[g][i];
          }
        }
        forall m | 0 <= m < |nodes| ensures m in buckets[hash(nodes[m]) % |buckets|] {
          if m < k {
            assert m in before[hash(nodes[m]) % |buckets|];
          } else {
            assert buckets[h][|before[h]|] == k;
          }
        }
      }
    }

    /** Room for one more node. */
    method Reserve()
      requires Valid()
      modifies this`buckets
      ensures Valid() && buckets != []
    {
      if |nodes| >= |buckets| {
        Enlarge();
      }
    }

    /** new_aig of an input bit. */
    method NewBit(symbol: nat, slice: nat) returns (r: Ref)
      requires Valid()
      modifies this`nodes, this`buckets
      ensures Valid() && 2 <= r < |nodes| + 2 && nodes[r - 2] == Bit(symbol, slice)
      ensures nodes == if Bit(symbol, slice) in old(nodes) then old(nodes) else old(nodes) + [Bit(symbol, slice)]
    {
      hide Layered, Settled, Distinct, Manager.Table;
      Reserve();
      var k := Store(Bit(symbol, slice));
      r := k + 2;
    }

    /** new_aig of a conjunction. */
    method NewAnd(a0: Ref, b0: Ref) returns (r: Ref)
      requires Valid() && Below(a0, |nodes|) && Below(b0, |nodes|)
      modifies this`nodes, this`buckets
      ensures Valid() && old(nodes) <= nodes && |nodes| <= |old(nodes)| + 1
      ensures Means(nodes, r, a0, b0)
      ensures Stuck(old(nodes), level, a0, b0) && Abs(a0) < Abs(b0) ==>
                2 <= r < |nodes| + 2 && nodes[r - 2] == And(a0, b0) &&
                  (And(a0, b0) in old(nodes) ==> nodes == old(nodes))
    {
      hide Settled, Distinct, Manager.Table, Rewrite, Simplify, Size, Val;
      Reserve();
      var a, b := a0, b0;
      ghost var nodes0 := nodes;
      var r0 := Simplify(nodes, level, a, b);
      while r0 == 0 && Rewrite(nodes, level, a, b) != Pair(a, b)
        invariant Valid() && buckets != [] && nodes == nodes0
        invariant SameConjunction(nodes, Pair(a0, b0), Pair(a, b)) && r0 == Simplify(nodes, level, a, b)
        invariant Stuck(nodes0, level, a0, b0) ==> a == a0 && b == b0
        decreases Size(nodes, a) + Size(nodes, b)
      {
        var p := Rewrite(nodes, level, a, b);
        RewriteSame(nodes, level, a, b);
        SameTrans(nodes, Pair(a0, b0), Pair(a, b), p);
        StuckRewrite(nodes, level, a, b);
        a, b := p.a, p.b;
        r0 := Simplify(nodes, level, a, b);
      }
      if r0 != 0 {
        SimplifyMeans(nodes, level, a, b, Pair(a0, b0));
        StuckRewrite(nodes, level, a0, b0);
        return r0;
      }
      RewriteSame(nodes, level, a, b);
      StuckOperands(nodes, level, a, b);
      if Abs(a) > Abs(b) {
        StuckSwap(nodes, level, a, b);
        a, b := b, a;
      }
      var k := Store(And(a, b));
      NodeMeansEither(nodes0, nodes, k, a, b, Pair(a0, b0));
      r := k + 2;
    }

    /** check_rebuild_aig: rebuilding a conjunction from its own operands gives the same node. */
    method Rebuild(k: nat) returns (r: Ref)
      requires Valid() && k < |nodes| && nodes[k].And?
      modifies this`nodes, this`buckets
      ensures Valid() && nodes == old(nodes) && r == k + 2
    {
      assert SettledAt(nodes, level, k);
      assert nodes[k] in nodes;
      hide Settled, Manager.Table, Stuck, Val;
      r := NewAnd(nodes[k].c0, nodes[k].c1);
    }
  }

  /** Operands nothing applies to are distinct nodes. */
  lemma StuckOperands(nodes: Nodes, level: nat, a: Ref, b: Ref)
    requires Stuck(nodes, level, a, b) && Below(a, |nodes|) && Below(b, |nodes|)
    ensures !Constant(a) && !Constant(b) && Abs(a) != Abs(b)
  {
    hide TwoLevel, Substitute, SubstituteSide, Shared;
  }

  lemma StuckRewrite(nodes: Nodes, level: nat, a: Ref, b: Ref)
    ensures Stuck(nodes, level, a, b) ==> Simplify(nodes, level, a, b) == 0 && Rewrite(nodes, level, a, b) == Pair(a, b)
  {
    hide Simplify, Substitute, SubstituteSide, Shared;
  }

  lemma NodeMeansEither(nodes0: Nodes, nodes: Nodes, k: nat, a: Ref, b: Ref, p: Pair)
    requires nodes0 <= nodes && Layered(nodes0) && Layered(nodes)
    requires SameConjunction(nodes0, p, Pair(a, b)) || SameConjunction(nodes0, p, Pair(b, a))
    requires k < |nodes| && nodes[k] == And(a, b)
    ensures Means(nodes, k + 2, p.a, p.b)
  {
    hide Layered, SameConjunction, Means;
    if SameConjunction(nodes0, p, Pair(a, b)) {
      NodeMeans(nodes0, nodes, k, a, b, p);
    } else {
      NodeMeans(nodes0, nodes, k, b, a, p);
    }
  }
}
