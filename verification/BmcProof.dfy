/** The clauses of the bounds 0 to k under the k-th assumption describe exactly the
    constrained runs of k + 1 states that end in a bad state or close a fair lasso. */
module BmcProof {
  import opened Aig
  import opened OrderedAig
  import opened BmcSpec

  // ----- small clauses -----

  lemma NegT(w: Valuation, l: Lit)
    ensures T(w, l.Neg()) <==> !T(w, l)
  {
  }

  lemma Sat2(w: Valuation, a: Lit, b: Lit)
    ensures Sat(w, [a, b]) <==> T(w, a) || T(w, b)
  {
    assert [a, b][0] == a && [a, b][1] == b;
  }

  lemma Sat3(w: Valuation, a: Lit, b: Lit, c: Lit)
    ensures Sat(w, [a, b, c]) <==> T(w, a) || T(w, b) || T(w, c)
  {
    assert [a, b, c][0] == a && [a, b, c][1] == b && [a, b, c][2] == c;
  }

  lemma SatCons(w: Valuation, a: Lit, rest: Sym)
    ensures Sat(w, [a] + rest) <==> T(w, a) || Sat(w, rest)
  {
    var c := [a] + rest;
    assert c[0] == a && c[1..] == rest;
    if Sat(w, rest) {
      var i :| 0 <= i < |rest| && T(w, rest[i]);
      assert T(w, c[i + 1]);
    }
    if Sat(w, c) {
      var i :| 0 <= i < |c| && T(w, c[i]);
      assert i > 0 ==> c[i] == rest[i - 1];
    }
  }

  lemma SatEmpty(w: Valuation)
    ensures !Sat(w, [])
  {
  }

  lemma SatSplit(w: Valuation, a: Sym, b: Sym)
    ensures Sat(w, a + b) <==> Sat(w, a) || Sat(w, b)
  {
    var c := a + b;
    if Sat(w, a) {
      var i :| 0 <= i < |a| && T(w, a[i]);
      assert T(w, c[i]);
    }
    if Sat(w, b) {
      var i :| 0 <= i < |b| && T(w, b[i]);
      assert T(w, c[|a| + i]);
    }
    if Sat(w, c) {
      var i :| 0 <= i < |c| && T(w, c[i]);
      assert i < |a| ==> c[i] == a[i];
      assert i >= |a| ==> c[i] == b[i - |a|];
    }
  }

  /** A clause with one literal per index. */
  lemma {:induction false} SatLits(w: Valuation, n: nat, f: nat --> Sym)
    requires forall i: nat :: i < n ==> f.requires(i) && |f(i)| == 1
    ensures Sat(w, Each(n, f)) <==> exists i: nat :: i < n && T(w, f(i)[0])
  {
    if n == 0 {
      SatEmpty(w);
    } else {
      SatLits(w, n - 1, f);
      SatSplit(w, Each(n - 1, f), f(n - 1));
    }
  }

  lemma Two(w: Valuation, c: Sym, d: Sym)
    ensures SatAll(w, [c, d]) <==> Sat(w, c) && Sat(w, d)
  {
    hide Sat;
    assert [c, d][0] == c && [c, d][1] == d;
  }

  lemma Three(w: Valuation, c: Sym, d: Sym, e: Sym)
    ensures SatAll(w, [c, d, e]) <==> Sat(w, c) && Sat(w, d) && Sat(w, e)
  {
    hide Sat;
    assert [c, d, e][0] == c && [c, d, e][1] == d && [c, d, e][2] == e;
  }

  // ----- what each group of clauses means -----

  ghost predicate GatesMean(c: Model, w: Valuation, t: nat) {
    forall i :: 0 <= i < |c.ands| ==> GateMeans(c, w, t, i)
  }

  ghost predicate GateMeans(c: Model, w: Valuation, t: nat, i: nat)
    requires i < |c.ands|
  {
    Gate(t, i) in w <==> T(w, Import(c, t, c.ands[i].rhs0)) && T(w, Import(c, t, c.ands[i].rhs1))
  }

  lemma GateMeaning(c: Model, w: Valuation, t: nat, i: nat)
    requires i < |c.ands|
    ensures SatAll(w, GateClauses(c, t, i)) <==> GateMeans(c, w, t, i)
  {
    hide Sat, SatAll, Import;
    var r0, r1 := Import(c, t, c.ands[i].rhs0), Import(c, t, c.ands[i].rhs1);
    Three(w, [N(Gate(t, i)), r0], [N(Gate(t, i)), r1], [P(Gate(t, i)), r0.Neg(), r1.Neg()]);
    Sat2(w, N(Gate(t, i)), r0);
    Sat2(w, N(Gate(t, i)), r1);
    Sat3(w, P(Gate(t, i)), r0.Neg(), r1.Neg());
    NegT(w, r0);
    NegT(w, r1);
  }

  lemma GatesMeaning(c: Model, w: Valuation, t: nat)
    ensures SatAll(w, GateFrame(c, t)) <==> GatesMean(c, w, t)
  {
    hide SatAll, GateClauses, GateMeans;
    var f := GateList(c, t);
    SatEach(w, |c.ands|, f);
    forall i: nat | i < |c.ands| ensures SatAll(w, f(i)) <==> GateMeans(c, w, t, i) {
      GateMeaning(c, w, t, i);
    }
  }

  ghost predicate SaneMeans(c: Model, w: Valuation, t: nat) {
    c.constraints != [] ==>
      (Sane(t) in w ==> (forall i :: 0 <= i < |c.constraints| ==> T(w, Import(c, t, c.constraints[i]))) &&
                        (t > 0 ==> Sane(t - 1) in w)) &&
      (Assume(t) in w ==> Sane(t) in w)
  }

  lemma SaneMeaning(c: Model, w: Valuation, t: nat)
    ensures SatAll(w, SaneClauses(c, t)) <==> SaneMeans(c, w, t)
  {
    hide Sat, SatAll, Import;
    if c.constraints == [] {
      SatNone(w);
    } else {
      var f := ConstraintList(c, t);
      SatEach(w, |c.constraints|, f);
      forall i: nat | i < |c.constraints|
        ensures SatAll(w, f(i)) <==> (Sane(t) in w ==> T(w, Import(c, t, c.constraints[i])))
      {
        SatOne(w, [N(Sane(t)), Import(c, t, c.constraints[i])]);
        Sat2(w, N(Sane(t)), Import(c, t, c.constraints[i]));
      }
      var a, b := Each(|c.constraints|, f), if t > 0 then [[N(Sane(t)), P(Sane(t - 1))]] else [];
      SatConcat(w, a, b);
      SatConcat(w, a + b, [[N(Assume(t)), P(Sane(t))]]);
      SatOne(w, [N(Assume(t)), P(Sane(t))]);
      Sat2(w, N(Assume(t)), P(Sane(t)));
      if t > 0 {
        SatOne(w, [N(Sane(t)), P(Sane(t - 1))]);
        Sat2(w, N(Sane(t)), P(Sane(t - 1)));
      } else {
        SatNone(w);
      }
    }
  }

  ghost predicate BadMeans(c: Model, w: Valuation, t: nat, done: set<nat>) {
    |c.bad| > 1 && OneBad(t) in w ==> exists i :: 0 <= i < |c.bad| && T(w, BadLit(c, t, done, i))
  }

  lemma BadMeaning(c: Model, w: Valuation, t: nat, done: set<nat>)
    ensures SatAll(w, BadClauses(c, t, done)) <==> BadMeans(c, w, t, done)
  {
    hide Sat, SatAll, BadLit, Each;
    if |c.bad| > 1 {
      var f := BadList(c, t, done);
      SatOne(w, [N(OneBad(t))] + Each(|c.bad|, f));
      SatCons(w, N(OneBad(t)), Each(|c.bad|, f));
      SatLits(w, |c.bad|, f);
      assert forall i: nat {:trigger BadLit(c, t, done, i)} {:trigger f(i)} :: i < |c.bad| ==>
        f(i) == [BadLit(c, t, done, i)];
    } else {
      SatNone(w);
    }
  }

  ghost predicate HereMeans(c: Model, w: Valuation, t: nat, i: nat)
    requires i < |c.latches|
  {
    Here(t) in w ==> (Join(i) in w <==> T(w, LatchLit(c, t, i)))
  }

  ghost predicate CloseMeans(c: Model, w: Valuation, t: nat, i: nat)
    requires i < |c.latches|
  {
    Assume(t) in w ==> (Join(i) in w <==> T(w, Import(c, t, c.latches[i].next)))
  }

  lemma HereMeaning(c: Model, w: Valuation, t: nat, i: nat)
    requires i < |c.latches|
    ensures SatAll(w, HereClauses(c, t, i)) <==> HereMeans(c, w, t, i)
    ensures SatAll(w, CloseClauses(c, t, i)) <==> CloseMeans(c, w, t, i)
  {
    hide Sat, SatAll, Import, LatchLit;
    var l, m := LatchLit(c, t, i), Import(c, t, c.latches[i].next);
    Two(w, [N(Here(t)), N(Join(i)), l], [N(Here(t)), P(Join(i)), l.Neg()]);
    Sat3(w, N(Here(t)), N(Join(i)), l);
    Sat3(w, N(Here(t)), P(Join(i)), l.Neg());
    NegT(w, l);
    Two(w, [N(Assume(t)), N(Join(i)), m], [N(Assume(t)), P(Join(i)), m.Neg()]);
    Sat3(w, N(Assume(t)), N(Join(i)), m);
    Sat3(w, N(Assume(t)), P(Join(i)), m.Neg());
    NegT(w, m);
  }

  ghost predicate LoopMeans(c: Model, w: Valuation, t: nat) {
    (t > 0 && Loop(t) in w ==> Here(t) in w || T(w, LoopLit(t - 1))) &&
    (forall i :: 0 <= i < |c.latches| ==> HereMeans(c, w, t, i)) &&
    forall i :: 0 <= i < |c.latches| ==> CloseMeans(c, w, t, i)
  }

  lemma LoopMeaning(c: Model, w: Valuation, t: nat)
    ensures SatAll(w, LoopClauses(c, t)) <==> LoopMeans(c, w, t)
  {
    hide Sat, SatAll, HereClauses, CloseClauses, HereMeans, CloseMeans, LoopLit, Each;
    var f := HereList(c, t);
    var g := CloseList(c, t);
    var a := if t > 0 then [[N(Loop(t)), P(Here(t)), LoopLit(t - 1)]] else [];
    SatConcat(w, a, Each(|c.latches|, f));
    SatConcat(w, a + Each(|c.latches|, f), Each(|c.latches|, g));
    SatEach(w, |c.latches|, f);
    SatEach(w, |c.latches|, g);
    forall i: nat | i < |c.latches|
      ensures SatAll(w, f(i)) <==> HereMeans(c, w, t, i)
      ensures SatAll(w, g(i)) <==> CloseMeans(c, w, t, i)
    {
      HereMeaning(c, w, t, i);
    }
    if t > 0 {
      SatOne(w, [N(Loop(t)), P(Here(t)), LoopLit(t - 1)]);
      Sat3(w, N(Loop(t)), P(Here(t)), LoopLit(t - 1));
    } else {
      SatNone(w);
    }
  }

  ghost predicate RememberMeans(w: Valuation, seen: Name, before: seq<Lit>, lit: Lit, t: nat) {
    seen in w ==> Sat(w, before) || (T(w, lit) && T(w, LoopLit(t)))
  }

  lemma RememberMeaning(w: Valuation, seen: Name, before: seq<Lit>, lit: Lit, t: nat)
    ensures SatAll(w, Remember(seen, before, lit, t)) <==> RememberMeans(w, seen, before, lit, t)
  {
    hide Sat, SatAll, LoopLit;
    Two(w, [N(seen)] + before + [lit], [N(seen)] + before + [LoopLit(t)]);
    SatSplit(w, [N(seen)] + before, [lit]);
    SatSplit(w, [N(seen)] + before, [LoopLit(t)]);
    SatCons(w, N(seen), before);
    SatCons(w, lit, []);
    SatCons(w, LoopLit(t), []);
    SatEmpty(w);
    assert [lit] + [] == [lit] && [LoopLit(t)] + [] == [LoopLit(t)];
  }

  ghost predicate SeenMeans(c: Model, w: Valuation, t: nat, i: nat, j: nat)
    requires i < |c.justice| && j < |c.justice[i]|
  {
    RememberMeans(w, Seen(t, i, j), if t > 0 then [P(Seen(t - 1, i, j))] else [], Import(c, t, c.justice[i][j]), t)
  }

  ghost predicate JustMeans(c: Model, w: Valuation, t: nat, done: set<nat>, i: nat)
    requires i < |c.justice|
  {
    i in done ||
    ((forall j :: 0 <= j < |c.justice[i]| ==> SeenMeans(c, w, t, i, j)) &&
     forall j :: 0 <= j < |c.justice[i]| && Just(t, i) in w ==> Seen(t, i, j) in w)
  }

  lemma JustMeaning(c: Model, w: Valuation, t: nat, done: set<nat>, i: nat)
    requires i < |c.justice|
    ensures SatAll(w, JusticeClauses(c, t, done, i)) <==> JustMeans(c, w, t, done, i)
  {
    hide Sat, SatAll, Import, Remember, RememberMeans, Each;
    if i in done {
      SatNone(w);
    } else {
      var n := |c.justice[i]|;
      var f := SeenList(c, t, i);
      var g := JustList(c, t, i);
      SatEach(w, n, f);
      SatEach(w, n, g);
      SatConcat(w, Each(n, f), Each(n, g));
      forall j: nat | j < n
        ensures SatAll(w, f(j)) <==> SeenMeans(c, w, t, i, j)
        ensures SatAll(w, g(j)) <==> (Just(t, i) in w ==> Seen(t, i, j) in w)
      {
        RememberMeaning(w, Seen(t, i, j), if t > 0 then [P(Seen(t - 1, i, j))]
          else [], Import(c, t, c.justice[i][j]), t);
        SatOne(w, [N(Just(t, i)), P(Seen(t, i, j))]);
        Sat2(w, N(Just(t, i)), P(Seen(t, i, j)));
      }
    }
  }

  ghost predicate AllJusticeMeans(c: Model, w: Valuation, t: nat, done: set<nat>) {
    c.justice != [] ==>
      LoopMeans(c, w, t) && (forall i :: 0 <= i < |c.justice| ==> JustMeans(c, w, t, done, i)) &&
      (|c.justice| > 1 && OneJust(t) in w ==> exists i :: 0 <= i < |c.justice| && T(w, JustLit(t, done, i)))
  }

  lemma AllJusticeMeaning(c: Model, w: Valuation, t: nat, done: set<nat>)
    ensures SatAll(w, AllJustice(c, t, done)) <==> AllJusticeMeans(c, w, t, done)
  {
    hide Sat, SatAll, LoopClauses, LoopMeans, JusticeClauses, JustMeans, JustLit, Each;
    if c.justice == [] {
      SatNone(w);
    } else {
      var n := |c.justice|;
      var f := JusticeList(c, t, done);
      var g := JustLits(c, t, done);
      var one := if |c.justice| > 1 then [[N(OneJust(t))] + Each(|c.justice|, g)] else [];
      SatConcat(w, LoopClauses(c, t), Each(n, f));
      SatConcat(w, LoopClauses(c, t) + Each(n, f), one);
      LoopMeaning(c, w, t);
      SatEach(w, n, f);
      forall i: nat | i < n ensures SatAll(w, f(i)) <==> JustMeans(c, w, t, done, i) {
        JustMeaning(c, w, t, done, i);
      }
      if n > 1 {
        SatOne(w, [N(OneJust(t))] + Each(n, g));
        SatCons(w, N(OneJust(t)), Each(n, g));
        SatLits(w, n, g);
        assert forall i: nat {:trigger JustLit(t, done, i)} {:trigger g(i)} :: i < n ==> g(i) == [JustLit(t, done, i)];
      } else {
        SatNone(w);
      }
    }
  }

  ghost predicate FairMeans(c: Model, w: Valuation, t: nat, i: nat)
    requires i < |c.fairness|
  {
    RememberMeans(w, Fair(t, i), if t > 0 then [P(Fair(t - 1, i))] else [], Import(c, t, c.fairness[i]), t)
  }

  ghost predicate FairnessMeans(c: Model, w: Valuation, t: nat, done: set<nat>) {
    c.justice != [] && c.fairness != [] ==>
      (forall i :: 0 <= i < |c.fairness| ==> FairMeans(c, w, t, i)) &&
      (|c.fairness| > 1 ==> forall i :: 0 <= i < |c.fairness| && AllFair(t) in w ==> Fair(t, i) in w) &&
      (T(w, OneJustLit(c, t, done)) ==> T(w, AllFairLit(c, t)))
  }

  lemma FairnessMeaning(c: Model, w: Valuation, t: nat, done: set<nat>)
    ensures SatAll(w, Fairness(c, t, done)) <==> FairnessMeans(c, w, t, done)
  {
    hide Sat, SatAll, Import, Remember, RememberMeans, Each, OneJustLit, AllFairLit;
    if c.justice == [] || c.fairness == [] {
      SatNone(w);
    } else {
      var n := |c.fairness|;
      var f := FairList(c, t);
      var g := AllFairList(c, t);
      var all := if |c.fairness| > 1 then Each(|c.fairness|, g) else [];
      var last := [OneJustLit(c, t, done).Neg(), AllFairLit(c, t)];
      SatConcat(w, Each(n, f), all);
      SatConcat(w, Each(n, f) + all, [last]);
      SatOne(w, last);
      Sat2(w, OneJustLit(c, t, done).Neg(), AllFairLit(c, t));
      NegT(w, OneJustLit(c, t, done));
      SatEach(w, n, f);
      SatEach(w, n, g);
      SatNone(w);
      forall i: nat | i < n
        ensures SatAll(w, f(i)) <==> FairMeans(c, w, t, i)
        ensures SatAll(w, g(i)) <==> (AllFair(t) in w ==> Fair(t, i) in w)
      {
        RememberMeaning(w, Fair(t, i), if t > 0 then [P(Fair(t - 1, i))] else [], Import(c, t, c.fairness[i]), t);
        SatOne(w, [N(AllFair(t)), P(Fair(t, i))]);
        Sat2(w, N(AllFair(t)), P(Fair(t, i)));
      }
    }
  }

  ghost predicate GoalMeans(c: Model, w: Valuation, t: nat, badDone: set<nat>, justDone: set<nat>) {
    Assume(t) in w ==>
      (c.bad != [] && T(w, OneBadLit(c, t, badDone))) || (c.justice != [] && T(w, OneJustLit(c, t, justDone)))
  }

  lemma GoalMeaning(c: Model, w: Valuation, t: nat, badDone: set<nat>, justDone: set<nat>)
    ensures SatAll(w, Goal(c, t, badDone, justDone)) <==> GoalMeans(c, w, t, badDone, justDone)
  {
    hide Sat, SatAll, OneBadLit, OneJustLit;
    var a := if c.bad != [] then [OneBadLit(c, t, badDone)] else [];
    var b := if c.justice != [] then [OneJustLit(c, t, justDone)] else [];
    SatOne(w, [N(Assume(t))] + a + b);
    SatSplit(w, [N(Assume(t))] + a, b);
    SatCons(w, N(Assume(t)), a);
    SatEmpty(w);
    if c.bad != [] {
      SatCons(w, OneBadLit(c, t, badDone), []);
      assert a + [] == a;
    }
    if c.justice != [] {
      SatCons(w, OneJustLit(c, t, justDone), []);
      assert b + [] == b;
    }
  }

  /** The meaning of one frame. */
  ghost predicate FrameMeans(c: Model, w: Valuation, t: nat, m: Mark) {
    GatesMean(c, w, t) && BadMeans(c, w, t, m.bad) && SaneMeans(c, w, t) && AllJusticeMeans(c, w, t, m.justice) &&
    FairnessMeans(c, w, t, m.justice) && GoalMeans(c, w, t, m.bad, m.justice) && (m.refuted ==> Assume(t) !in w)
  }

  lemma FrameMeaning(c: Model, w: Valuation, t: nat, m: Mark)
    ensures SatAll(w, FrameAndUnit(c, t, m)) <==> FrameMeans(c, w, t, m)
  {
    GatesMeaning(c, w, t);
    BadMeaning(c, w, t, m.bad);
    SaneMeaning(c, w, t);
    AllJusticeMeaning(c, w, t, m.justice);
    FairnessMeaning(c, w, t, m.justice);
    GoalMeaning(c, w, t, m.bad, m.justice);
    hide GateFrame, BadClauses, SaneClauses, AllJustice, Fairness, Goal, SatAll, Sat;
    hide GatesMean, BadMeans, SaneMeans, AllJusticeMeans, FairnessMeans, GoalMeans;
    var p1 := GateFrame(c, t);
    var p2 := p1 + BadClauses(c, t, m.bad);
    var p3 := p2 + SaneClauses(c, t);
    var p4 := p3 + AllJustice(c, t, m.justice);
    var p5 := p4 + Fairness(c, t, m.justice);
    var p6 := p5 + Goal(c, t, m.bad, m.justice);
    SatConcat(w, p1, BadClauses(c, t, m.bad));
    SatConcat(w, p2, SaneClauses(c, t));
    SatConcat(w, p3, AllJustice(c, t, m.justice));
    SatConcat(w, p4, Fairness(c, t, m.justice));
    SatConcat(w, p5, Goal(c, t, m.bad, m.justice));
    SatConcat(w, p6, if m.refuted then [[N(Assume(t))]] else []);
    SatNone(w);
    SatOne(w, [N(Assume(t))]);
    SatCons(w, N(Assume(t)), []);
    SatEmpty(w);
    assert [N(Assume(t))] + [] == [N(Assume(t))];
  }

  ghost predicate ScriptMeans(c: Model, w: Valuation, marks: seq<Mark>) {
    One in w && forall t :: 0 <= t < |marks| ==> FrameMeans(c, w, t, marks[t])
  }

  lemma ScriptMeaning(c: Model, w: Valuation, marks: seq<Mark>)
    ensures SatAll(w, Script(c, marks)) <==> ScriptMeans(c, w, marks)
  {
    hide FrameMeans, FrameAndUnit, SatAll, Sat, Each;
    var f := FrameList(c, marks);
    SatConcat(w, [[P(One)]], Each(|marks|, f));
    SatOne(w, [P(One)]);
    SatCons(w, P(One), []);
    SatEmpty(w);
    assert [P(One)] + [] == [P(One)];
    SatEach(w, |marks|, f);
    forall t: nat | t < |marks| ensures SatAll(w, f(t)) <==> FrameMeans(c, w, t, marks[t]) {
      FrameMeaning(c, w, t, marks[t]);
    }
  }

  // ----- from a model of the clauses to a run -----

  /** The state of frame t under a valuation. */
  ghost function Env(c: Model, w: Valuation, t: nat): iset<nat> {
    iset v: nat | 0 < v <= c.Leaves() && T(w, Import(c, t, 2 * v))
  }

  /** Imported literals have their circuit value. */
  lemma {:induction false} ImportVal(c: Model, w: Valuation, t: nat, lit: nat)
    requires c.Ok() && One in w && GatesMean(c, w, t) && c.Defined(lit)
    ensures T(w, Import(c, t, lit)) <==> V(c, Env(c, w, t), lit)
    decreases lit
  {
    hide Val, GatesMean, Ordered, Model.Ok;
    OkOrdered(c);
    var env, v := Env(c, w, t), lit / 2;
    if lit % 2 == 1 {
      ImportVal(c, w, t, lit - 1);
      NegT(w, Import(c, t, lit - 1));
      ValNot(c.Leaves(), c.ands, env, lit - 1);
    } else if v == 0 {
      ValNot(c.Leaves(), c.ands, env, 0);
    } else if v <= c.Leaves() {
      ValInput(c.Leaves(), c.ands, env, v);
    } else {
      var i := v - c.Leaves() - 1;
      OrderedAt(c.Leaves(), c.ands, i);
      ValGate(c.Leaves(), c.ands, env, i);
      ImportVal(c, w, t, c.ands[i].rhs0);
      ImportVal(c, w, t, c.ands[i].rhs1);
      GateAt(c, w, t, i);
    }
  }

  lemma OkOrdered(c: Model)
    requires c.Ok()
    ensures Ordered(c.Leaves(), c.ands)
  {
  }

  lemma GateAt(c: Model, w: Valuation, t: nat, i: nat)
    requires GatesMean(c, w, t) && i < |c.ands|
    ensures GateMeans(c, w, t, i)
  {
  }

  ghost function RunOf(c: Model, w: Valuation, n: nat): (r: Run)
    ensures |r| == n && forall t :: 0 <= t < n ==> r[t] == Env(c, w, t)
  {
    seq(n, t requires 0 <= t < n => Env(c, w, t))
  }

  lemma FrameParts(c: Model, w: Valuation, marks: seq<Mark>, t: nat)
    requires ScriptMeans(c, w, marks) && t < |marks|
    ensures One in w && GatesMean(c, w, t) && SaneMeans(c, w, t) && AllJusticeMeans(c, w, t, marks[t].justice)
    ensures FairnessMeans(c, w, t, marks[t].justice) && BadMeans(c, w, t, marks[t].bad)
    ensures GoalMeans(c, w, t, marks[t].bad, marks[t].justice)
  {
    assert FrameMeans(c, w, t, marks[t]);
  }

  lemma LatchImport(c: Model, w: Valuation, t: nat, i: nat)
    requires i < |c.latches|
    ensures Import(c, t, 2 * (c.n + i + 1)) == LatchLit(c, t, i)
    ensures c.n + i + 1 in Env(c, w, t) <==> T(w, LatchLit(c, t, i))
  {
  }

  lemma ModelIsRun(c: Model, w: Valuation, marks: seq<Mark>)
    requires c.Ok() && marks != [] && ScriptMeans(c, w, marks)
    ensures IsRun(c, RunOf(c, w, |marks|))
  {
    hide Model.Ok, ScriptMeans, Follows, Resets, Env;
    ModelResets(c, w, marks);
    forall t | 0 <= t < |marks| - 1 ensures Follows(c, Env(c, w, t), Env(c, w, t + 1)) {
      ModelFollows(c, w, marks, t);
    }
  }

  lemma ModelResets(c: Model, w: Valuation, marks: seq<Mark>)
    requires c.Ok() && marks != [] && ScriptMeans(c, w, marks)
    ensures Resets(c, Env(c, w, 0))
  {
    hide Val, Ordered, ScriptMeans, GatesMean, Env;
    FrameParts(c, w, marks, 0);
    forall i | 0 <= i < |c.latches|
      ensures c.latches[i].reset == 0 ==> c.n + i + 1 !in Env(c, w, 0)
      ensures c.latches[i].reset == 1 ==> c.n + i + 1 in Env(c, w, 0)
    {
      LatchImport(c, w, 0, i);
    }
  }

  lemma ModelFollows(c: Model, w: Valuation, marks: seq<Mark>, t: nat)
    requires c.Ok() && t + 1 < |marks| && ScriptMeans(c, w, marks)
    ensures Follows(c, Env(c, w, t), Env(c, w, t + 1))
  {
    hide Val, Ordered, ScriptMeans, GatesMean, Env;
    FrameParts(c, w, marks, t);
    forall i | 0 <= i < |c.latches| ensures c.n + i + 1 in Env(c, w, t + 1) <==> V(c, Env(c, w, t), c.latches[i].next) {
      LatchImport(c, w, t + 1, i);
      ImportVal(c, w, t, c.latches[i].next);
    }
  }

  /** Under the last assumption all frames are sane. */
  lemma {:induction false} SaneDown(c: Model, w: Valuation, marks: seq<Mark>, t: nat)
    requires ScriptMeans(c, w, marks) && t < |marks| && c.constraints != [] && Assume(|marks| - 1) in w
    ensures Sane(t) in w
    decreases |marks| - t
  {
    FrameParts(c, w, marks, t);
    if t + 1 < |marks| {
      SaneDown(c, w, marks, t + 1);
      FrameParts(c, w, marks, t + 1);
    }
  }

  lemma ModelConstrained(c: Model, w: Valuation, marks: seq<Mark>, t: nat)
    requires c.Ok() && ScriptMeans(c, w, marks) && t < |marks| && Assume(|marks| - 1) in w
    ensures Constrained(c, Env(c, w, t))
  {
    hide Val, Ordered, ScriptMeans, GatesMean;
    FrameParts(c, w, marks, t);
    forall i | 0 <= i < |c.constraints| ensures V(c, Env(c, w, t), c.constraints[i]) {
      SaneDown(c, w, marks, t);
      ImportVal(c, w, t, c.constraints[i]);
    }
  }

  /** A frame that joins carries the state after the last one. */
  lemma HereCloses(c: Model, w: Valuation, marks: seq<Mark>, l: nat)
    requires c.Ok() && ScriptMeans(c, w, marks) && l < |marks| && Assume(|marks| - 1) in w && c.justice != []
    requires Here(l) in w
    ensures Closes(c, RunOf(c, w, |marks|), l)
  {
    hide Val, Ordered, ScriptMeans, GatesMean, SaneMeans, FairnessMeans, BadMeans, GoalMeans, Import, JustMeans;
    var k := |marks| - 1;
    FrameParts(c, w, marks, l);
    FrameParts(c, w, marks, k);
    forall i | 0 <= i < |c.latches| ensures c.n + i + 1 in Env(c, w, l) <==> V(c, Env(c, w, k), c.latches[i].next) {
      assert HereMeans(c, w, l, i) && CloseMeans(c, w, k, i);
      LatchImport(c, w, l, i);
      ImportVal(c, w, k, c.latches[i].next);
    }
  }

  lemma {:induction false} LoopEntered(c: Model, w: Valuation, marks: seq<Mark>, t: nat)
    requires ScriptMeans(c, w, marks) && t < |marks| && c.justice != [] && T(w, LoopLit(t))
    ensures exists l :: 0 <= l <= t && Here(l) in w
  {
    FrameParts(c, w, marks, t);
    if t > 0 && Here(t) !in w {
      LoopEntered(c, w, marks, t - 1);
    }
  }

  /** The chain of one remembered literal: s is a frame in the loop where it holds. */
  lemma {:induction false} SeenAt(c: Model, w: Valuation, marks: seq<Mark>, done: set<nat>, i: nat, j: nat, t: nat)
    returns (s: nat)
    requires ScriptMeans(c, w, marks) && t < |marks| && i < |c.justice| && j < |c.justice[i]| && Seen(t, i, j) in w
    requires i !in done && forall u :: 0 <= u < |marks| ==> marks[u].justice <= done
    ensures s <= t && T(w, Import(c, s, c.justice[i][j])) && T(w, LoopLit(s))
  {
    hide ScriptMeans, GatesMean, Import, LoopMeans;
    FrameParts(c, w, marks, t);
    assert JustMeans(c, w, t, marks[t].justice, i);
    assert SeenMeans(c, w, t, i, j);
    if T(w, Import(c, t, c.justice[i][j])) && T(w, LoopLit(t)) {
      s := t;
    } else {
      assert t > 0;
      s := SeenAt(c, w, marks, done, i, j, t - 1);
    }
  }

  lemma {:induction false} FairAt(c: Model, w: Valuation, marks: seq<Mark>, i: nat, t: nat) returns (s: nat)
    requires ScriptMeans(c, w, marks) && t < |marks| && c.justice != [] && i < |c.fairness| && Fair(t, i) in w
    ensures s <= t && T(w, Import(c, s, c.fairness[i])) && T(w, LoopLit(s))
  {
    hide ScriptMeans, GatesMean, Import, LoopMeans;
    FrameParts(c, w, marks, t);
    assert FairMeans(c, w, t, i);
    if T(w, Import(c, t, c.fairness[i])) && T(w, LoopLit(t)) {
      s := t;
    } else {
      assert t > 0;
      s := FairAt(c, w, marks, i, t - 1);
    }
  }

  /** The first frame that joins. */
  lemma {:induction false} FirstHere(w: Valuation, l: nat) returns (first: nat)
    requires Here(l) in w
    ensures first <= l && Here(first) in w && forall m :: 0 <= m < first ==> Here(m) !in w
  {
    if m :| 0 <= m < l && Here(m) in w {
      first := FirstHere(w, m);
    } else {
      first := l;
    }
  }

  /** A literal seen within the loop holds from the first joining frame on. */
  lemma SeenHolds(c: Model, w: Valuation, marks: seq<Mark>, s: nat, lit: nat, first: nat)
    requires c.Ok() && ScriptMeans(c, w, marks) && s < |marks| && c.justice != [] && c.Defined(lit)
    requires T(w, Import(c, s, lit)) && T(w, LoopLit(s)) && forall m :: 0 <= m < first ==> Here(m) !in w
    ensures Holds(c, RunOf(c, w, |marks|), first, lit)
  {
    hide Val, Ordered, ScriptMeans, GatesMean;
    LoopEntered(c, w, marks, s);
    FrameParts(c, w, marks, s);
    ImportVal(c, w, s, lit);
    var r := RunOf(c, w, |marks|);
    assert r[s] == Env(c, w, s) && first <= s;
  }

  /** A justified property comes with a lasso. */
  lemma JustifiedLasso(c: Model, w: Valuation, marks: seq<Mark>, i: nat)
    requires c.Ok() && marks != [] && ScriptMeans(c, w, marks) && Assume(|marks| - 1) in w && i < |c.justice|
    requires i !in marks[|marks| - 1].justice && Just(|marks| - 1, i) in w
    requires forall u :: 0 <= u < |marks| ==> marks[u].justice <= marks[|marks| - 1].justice
    requires c.fairness != [] ==> T(w, AllFairLit(c, |marks| - 1))
    ensures Lasso(c, RunOf(c, w, |marks|), i) || (c.justice[i] == [] && c.fairness == [])
  {
    hide Val, Ordered, ScriptMeans, GatesMean, Import, LoopMeans, Closes, Holds, Model.Ok, RunOf;
    var k, done := |marks| - 1, marks[|marks| - 1].justice;
    FrameParts(c, w, marks, k);
    assert JustMeans(c, w, k, done, i);
    if c.justice[i] != [] || c.fairness != [] {
      var s: nat;
      if c.justice[i] != [] {
        s := SeenAt(c, w, marks, done, i, 0, k);
      } else {
        s := FairAt(c, w, marks, 0, k);
      }
      LoopEntered(c, w, marks, s);
      var l :| 0 <= l <= s && Here(l) in w;
      var first := FirstHere(w, l);
      HereCloses(c, w, marks, first);
      var r := RunOf(c, w, |marks|);
      RunLength(c, w, |marks|);
      forall j | 0 <= j < |c.justice[i]| ensures Holds(c, r, first, c.justice[i][j]) {
        var u := SeenAt(c, w, marks, done, i, j, k);
        OkLits(c, i, j);
        SeenHolds(c, w, marks, u, c.justice[i][j], first);
      }
      forall j | 0 <= j < |c.fairness| ensures Holds(c, r, first, c.fairness[j]) {
        var u := FairAt(c, w, marks, j, k);
        OkFair(c, j);
        SeenHolds(c, w, marks, u, c.fairness[j], first);
      }
      assert OnLoop(c, r, first, i);
    }
  }

  lemma RunLength(c: Model, w: Valuation, n: nat)
    ensures |RunOf(c, w, n)| == n
  {
  }

  lemma OkLits(c: Model, i: nat, j: nat)
    requires c.Ok() && i < |c.justice| && j < |c.justice[i]|
    ensures c.Defined(c.justice[i][j])
  {
  }

  lemma OkFair(c: Model, j: nat)
    requires c.Ok() && j < |c.fairness|
    ensures c.Defined(c.fairness[j])
  {
  }

  /** Every model of the clauses under the last assumption is a witness. */
  lemma ModelWitness(c: Model, w: Valuation, marks: seq<Mark>)
    requires c.Ok() && marks != [] && ScriptMeans(c, w, marks) && Assume(|marks| - 1) in w
    requires forall u :: 0 <= u < |marks| ==> marks[u].justice <= marks[|marks| - 1].justice
    ensures Witness(c, RunOf(c, w, |marks|), marks[|marks| - 1].bad, marks[|marks| - 1].justice)
  {
    hide Val, Ordered, ScriptMeans, GatesMean, Import, LoopMeans, JustMeans, Lasso, AllFairLit;
    var k, m := |marks| - 1, marks[|marks| - 1];
    var r := RunOf(c, w, |marks|);
    FrameParts(c, w, marks, k);
    if c.bad != [] && T(w, OneBadLit(c, k, m.bad)) {
      var i := BadPicked(c, w, k, m.bad);
      ImportVal(c, w, k, c.bad[i]);
    } else {
      var i := JustPicked(c, w, k, m.justice);
      JustifiedLasso(c, w, marks, i);
    }
  }

  lemma BadPicked(c: Model, w: Valuation, t: nat, done: set<nat>) returns (i: nat)
    requires BadMeans(c, w, t, done) && c.bad != [] && T(w, OneBadLit(c, t, done)) && One in w
    ensures i < |c.bad| && i !in done && T(w, Import(c, t, c.bad[i]))
  {
    if |c.bad| > 1 {
      i :| 0 <= i < |c.bad| && T(w, BadLit(c, t, done, i));
    } else {
      i := 0;
    }
  }

  lemma JustPicked(c: Model, w: Valuation, t: nat, done: set<nat>) returns (i: nat)
    requires AllJusticeMeans(c, w, t, done) && c.justice != [] && T(w, OneJustLit(c, t, done)) && One in w
    ensures i < |c.justice| && i !in done && Just(t, i) in w
  {
    if |c.justice| > 1 {
      i :| 0 <= i < |c.justice| && T(w, JustLit(t, done, i));
    } else {
      i := 0;
    }
  }

  // ----- from a run to a model of the clauses -----

  ghost predicate LoopAt(c: Model, r: Run, t: nat)
    requires c.Ok()
  {
    exists l :: 0 <= l <= t && l < |r| && Closes(c, r, l)
  }

  /** A literal held in the loop up to frame t. */
  ghost predicate Noted(c: Model, r: Run, t: nat, lit: nat)
    requires c.Ok()
  {
    exists s :: 0 <= s <= t && s < |r| && V(c, r[s], lit) && LoopAt(c, r, s)
  }

  ghost predicate Justified(c: Model, r: Run, t: nat, i: nat)
    requires c.Ok()
  {
    AllNoted(c, r, t, i) && forall j :: 0 <= j < |c.fairness| ==> Noted(c, r, t, c.fairness[j])
  }

  /** All literals of justice property i, fairness aside. */
  ghost predicate AllNoted(c: Model, r: Run, t: nat, i: nat)
    requires c.Ok()
  {
    i < |c.justice| && forall j :: 0 <= j < |c.justice[i]| ==> Noted(c, r, t, c.justice[i][j])
  }

  /** The intended value of every name. The loose reading ignores fairness in the justice
      literals and leaves their disjunctions false. */
  ghost predicate Truth(c: Model, r: Run, marks: seq<Mark>, loose: bool, name: Name)
    requires c.Ok() && |r| == |marks| > 0
  {
    var k := |r| - 1;
    match name
    case One => true
    case Join(i) => i < |c.latches| && V(c, r[k], c.latches[i].next)
    case Init(i) => c.n + i + 1 in r[0]
    case Input(t, i) => t <= k && i + 1 in r[t]
    case Gate(t, i) => t <= k && i < |c.ands| && V(c, r[t], c.ands[i].lhs)
    case Assume(t) => t == k
    case OneBad(t) => t <= k && exists i :: 0 <= i < |c.bad| && i !in marks[t].bad && V(c, r[t], c.bad[i])
    case Sane(t) => true
    case Here(t) => t <= k && Closes(c, r, t)
    case Loop(t) => LoopAt(c, r, t)
    case Seen(t, i, j) => i < |c.justice| && j < |c.justice[i]| && Noted(c, r, t, c.justice[i][j])
    case Just(t, i) => if loose then AllNoted(c, r, t, i) else Justified(c, r, t, i)
    case OneJust(t) =>
      !loose && t <= k && exists i :: 0 <= i < |c.justice| && i !in marks[t].justice && Justified(c, r, t, i)
    case Fair(t, i) => i < |c.fairness| && Noted(c, r, t, c.fairness[i])
    case AllFair(t) => forall i :: 0 <= i < |c.fairness| ==> Noted(c, r, t, c.fairness[i])
  }

  ghost function Intended(c: Model, r: Run, marks: seq<Mark>, loose: bool): Valuation
    requires c.Ok() && |r| == |marks| > 0
  {
    iset name | Truth(c, r, marks, loose, name)
  }

  /** The setting of the second half: a constrained run with its intended valuation. */
  ghost predicate Setting(c: Model, r: Run, marks: seq<Mark>, loose: bool, w: Valuation) {
    c.Ok() && c.Supported() && |r| == |marks| > 0 && IsRun(c, r) && (loose ==> |c.justice| > 1) &&
    (forall t :: 0 <= t < |r| ==> Constrained(c, r[t])) && w == Intended(c, r, marks, loose)
  }

  /** The run ends in a bad state that is not reached yet. */
  ghost predicate EndsBad(c: Model, r: Run, done: set<nat>)
    requires c.Ok() && r != []
  {
    exists i :: 0 <= i < |c.bad| && i !in done && V(c, r[|r| - 1], c.bad[i])
  }

  lemma SettingOrdered(c: Model, r: Run, marks: seq<Mark>, loose: bool, w: Valuation)
    requires Setting(c, r, marks, loose, w)
    ensures Ordered(c.Leaves(), c.ands)
  {
  }

  lemma ImportIs(c: Model, t: nat, v: nat)
    ensures Import(c, t, 2 * v + 1) == Import(c, t, 2 * v).Neg()
    ensures v == 0 ==> Import(c, t, 2 * v) == N(One)
    ensures 0 < v <= c.n ==> Import(c, t, 2 * v) == P(Input(t, v - 1))
    ensures c.n < v <= c.Leaves() ==> Import(c, t, 2 * v) == LatchLit(c, t, v - c.n - 1)
    ensures c.Leaves() < v ==> Import(c, t, 2 * v) == P(Gate(t, v - c.Leaves() - 1))
  {
    hide LatchLit;
  }

  /** Constants, inputs and gates have their intended names. */
  lemma ImportLeaf(c: Model, r: Run, marks: seq<Mark>, loose: bool, w: Valuation, t: nat, v: nat)
    requires Setting(c, r, marks, loose, w) && t < |r|
    ensures One in w && c.Ok()
    ensures 0 < v <= c.n ==> (Input(t, v - 1) in w <==> v in r[t])
    ensures c.Leaves() < v <= c.Leaves() + |c.ands| ==> (Gate(t, v - c.Leaves() - 1) in w <==> V(c, r[t], 2 * v))
  {
    hide Val, Constrained, IsRun, Closes, LoopAt, Noted, Justified, AllNoted;
    assert Truth(c, r, marks, loose, One);
    if 0 < v <= c.n {
      assert Input(t, v - 1) in w <==> Truth(c, r, marks, loose, Input(t, v - 1));
    } else if c.Leaves() < v <= c.Leaves() + |c.ands| {
      var i := v - c.Leaves() - 1;
      assert Gate(t, i) in w <==> Truth(c, r, marks, loose, Gate(t, i));
      OrderedAt(c.Leaves(), c.ands, i);
    }
  }

  lemma {:induction false} VarTruth(c: Model, r: Run, marks: seq<Mark>, loose: bool, w: Valuation, t: nat, v: nat)
    requires Setting(c, r, marks, loose, w) && t < |r| && v <= c.Leaves() + |c.ands|
    ensures c.Ok() && One in w && Ordered(c.Leaves(), c.ands)
    ensures T(w, Import(c, t, 2 * v)) <==> V(c, r[t], 2 * v)
    decreases t, 1
  {
    SettingOrdered(c, r, marks, loose, w);
    ImportIs(c, t, v);
    ImportLeaf(c, r, marks, loose, w, t, v);
    hide Val, Ordered, Setting, Model.Ok, LatchLit, Import;
    if v == 0 {
      ValNot(c.Leaves(), c.ands, r[t], 0);
    } else if v <= c.Leaves() {
      ValInput(c.Leaves(), c.ands, r[t], v);
      if v > c.n {
        LatchTruth(c, r, marks, loose, w, t, v - c.n - 1);
      }
    }
  }

  lemma {:induction false} ImportTruth(c: Model, r: Run, marks: seq<Mark>, loose: bool, w: Valuation, t: nat, lit: nat)
    requires Setting(c, r, marks, loose, w) && t < |r| && c.Defined(lit)
    ensures T(w, Import(c, t, lit)) <==> V(c, r[t], lit)
    decreases t, 2
  {
    var v := lit / 2;
    VarTruth(c, r, marks, loose, w, t, v);
    hide Val, Ordered, Setting, Model.Ok, LatchLit, Import;
    if lit != 2 * v {
      assert lit == 2 * v + 1;
      ImportIs(c, t, v);
      NegT(w, Import(c, t, 2 * v));
      ValNot(c.Leaves(), c.ands, r[t], 2 * v);
    }
  }

  lemma {:induction false} LatchTruth(c: Model, r: Run, marks: seq<Mark>, loose: bool, w: Valuation, t: nat, i: nat)
    requires Setting(c, r, marks, loose, w) && t < |r| && i < |c.latches|
    ensures T(w, LatchLit(c, t, i)) <==> c.n + i + 1 in r[t]
    decreases t, 0
  {
    hide Val, Ordered, Constrained, Closes, LoopAt, Noted, Justified;
    assert Truth(c, r, marks, loose, One);
    if t > 0 {
      ImportTruth(c, r, marks, loose, w, t - 1, c.latches[i].next);
      assert Follows(c, r[t - 1], r[t]);
    }
  }

  lemma LoopTruth(c: Model, r: Run, marks: seq<Mark>, loose: bool, w: Valuation, t: nat)
    requires Setting(c, r, marks, loose, w) && t < |r|
    ensures T(w, LoopLit(t)) <==> LoopAt(c, r, t)
    ensures t > 0 && LoopAt(c, r, t) ==> Closes(c, r, t) || LoopAt(c, r, t - 1)
  {
    hide IsRun, Constrained, Closes, Noted, Justified, Model.Ok, Model.Supported;
    assert LoopLit(t).name in w <==> Truth(c, r, marks, loose, LoopLit(t).name);
    if Closes(c, r, t) {
      assert LoopAt(c, r, t);
    }
  }

  lemma NotedStep(c: Model, r: Run, t: nat, lit: nat)
    requires c.Ok() && t < |r| && Noted(c, r, t, lit)
    ensures (t > 0 && Noted(c, r, t - 1, lit)) || (V(c, r[t], lit) && LoopAt(c, r, t))
  {
    hide Val, Model.Ok, LoopAt;
    var s :| 0 <= s <= t && s < |r| && V(c, r[s], lit) && LoopAt(c, r, s);
  }

  lemma GatesTruth(c: Model, r: Run, marks: seq<Mark>, loose: bool, w: Valuation, t: nat)
    requires Setting(c, r, marks, loose, w) && t < |r|
    ensures GatesMean(c, w, t)
  {
    forall i | 0 <= i < |c.ands| ensures GateMeans(c, w, t, i) {
      GateTruth(c, r, marks, loose, w, t, i);
    }
  }

  lemma GateTruth(c: Model, r: Run, marks: seq<Mark>, loose: bool, w: Valuation, t: nat, i: nat)
    requires Setting(c, r, marks, loose, w) && t < |r| && i < |c.ands|
    ensures GateMeans(c, w, t, i)
  {
    hide Val, Ordered, Constrained, IsRun, Import;
    OrderedAt(c.Leaves(), c.ands, i);
    ValGate(c.Leaves(), c.ands, r[t], i);
    ImportTruth(c, r, marks, loose, w, t, c.ands[i].rhs0);
    ImportTruth(c, r, marks, loose, w, t, c.ands[i].rhs1);
    assert Gate(t, i) in w <==> Truth(c, r, marks, loose, Gate(t, i));
  }

  lemma BadTruth(c: Model, r: Run, marks: seq<Mark>, loose: bool, w: Valuation, t: nat)
    requires Setting(c, r, marks, loose, w) && t < |r|
    ensures BadMeans(c, w, t, marks[t].bad)
  {
    hide Val, Ordered, Constrained, IsRun, Import;
    if OneBad(t) in w {
      assert Truth(c, r, marks, loose, OneBad(t));
      var i :| 0 <= i < |c.bad| && i !in marks[t].bad && V(c, r[t], c.bad[i]);
      ImportTruth(c, r, marks, loose, w, t, c.bad[i]);
      assert T(w, BadLit(c, t, marks[t].bad, i));
    }
  }

  lemma SaneTruth(c: Model, r: Run, marks: seq<Mark>, loose: bool, w: Valuation, t: nat)
    requires Setting(c, r, marks, loose, w) && t < |r|
    ensures SaneMeans(c, w, t)
  {
    hide Val, Ordered, IsRun, Import;
    assert Truth(c, r, marks, loose, Sane(t));
    assert t > 0 ==> Truth(c, r, marks, loose, Sane(t - 1));
    forall i | 0 <= i < |c.constraints| ensures T(w, Import(c, t, c.constraints[i])) {
      ImportTruth(c, r, marks, loose, w, t, c.constraints[i]);
      assert Constrained(c, r[t]);
    }
  }

  lemma LoopsTruth(c: Model, r: Run, marks: seq<Mark>, loose: bool, w: Valuation, t: nat)
    requires Setting(c, r, marks, loose, w) && t < |r|
    ensures LoopMeans(c, w, t)
  {
    hide Val, Ordered, Constrained, IsRun, Import, LatchLit, LoopLit, LoopAt, Noted, Justified;
    LoopTruth(c, r, marks, loose, w, t);
    if t > 0 {
      LoopTruth(c, r, marks, loose, w, t - 1);
      assert LoopLit(t) == P(Loop(t)) by {
        LoopLitIs(t);
      }
    }
    assert Here(t) in w <==> Truth(c, r, marks, loose, Here(t));
    assert Assume(t) in w <==> Truth(c, r, marks, loose, Assume(t));
    forall i | 0 <= i < |c.latches| ensures HereMeans(c, w, t, i) && CloseMeans(c, w, t, i) {
      assert Join(i) in w <==> Truth(c, r, marks, loose, Join(i));
      LatchTruth(c, r, marks, loose, w, t, i);
      ImportTruth(c, r, marks, loose, w, t, c.latches[i].next);
    }
  }

  lemma LoopLitIs(t: nat)
    ensures t > 0 ==> LoopLit(t) == P(Loop(t))
  {
  }

  /** A remembered literal of the intended valuation satisfies its two clauses. */
  lemma RememberTruth(c: Model, r: Run, marks: seq<Mark>, loose: bool, w: Valuation, t: nat, lit: nat,
                      seen: Name, prev: Name)
    requires Setting(c, r, marks, loose, w) && t < |r| && c.Defined(lit)
    requires seen in w ==> Noted(c, r, t, lit)
    requires t > 0 && Noted(c, r, t - 1, lit) ==> prev in w
    ensures RememberMeans(w, seen, if t > 0 then [P(prev)] else [], Import(c, t, lit), t)
  {
    hide IsRun, Constrained, Import, LoopAt, Noted, LoopLit, Sat;
    ImportTruth(c, r, marks, loose, w, t, lit);
    LoopTruth(c, r, marks, loose, w, t);
    SatCons(w, P(prev), []);
    assert [P(prev)] + [] == [P(prev)];
    if seen in w {
      NotedStep(c, r, t, lit);
    }
  }

  lemma JusticeTruth(c: Model, r: Run, marks: seq<Mark>, loose: bool, w: Valuation, t: nat, i: nat)
    requires Setting(c, r, marks, loose, w) && t < |r| && i < |c.justice|
    ensures JustMeans(c, w, t, marks[t].justice, i)
  {
    hide IsRun, Constrained, Import, LoopAt, Noted, LoopLit, Sat, RememberMeans;
    assert Just(t, i) in w <==> Truth(c, r, marks, loose, Just(t, i));
    forall j | 0 <= j < |c.justice[i]|
      ensures SeenMeans(c, w, t, i, j)
      ensures Just(t, i) in w ==> Seen(t, i, j) in w
    {
      var lit := c.justice[i][j];
      assert Seen(t, i, j) in w <==> Truth(c, r, marks, loose, Seen(t, i, j));
      assert t > 0 ==> (Seen(t - 1, i, j) in w <==> Truth(c, r, marks, loose, Seen(t - 1, i, j)));
      RememberTruth(c, r, marks, loose, w, t, lit, Seen(t, i, j), if t > 0 then Seen(t - 1, i, j) else One);
    }
  }

  lemma AllJusticeTruth(c: Model, r: Run, marks: seq<Mark>, loose: bool, w: Valuation, t: nat)
    requires Setting(c, r, marks, loose, w) && t < |r|
    ensures AllJusticeMeans(c, w, t, marks[t].justice)
  {
    hide IsRun, Constrained, Import, LoopAt, Noted, LoopLit, Sat, RememberMeans, LoopMeans, JustMeans, Justified;
    LoopsTruth(c, r, marks, loose, w, t);
    forall i | 0 <= i < |c.justice| ensures JustMeans(c, w, t, marks[t].justice, i) {
      JusticeTruth(c, r, marks, loose, w, t, i);
    }
    if OneJust(t) in w {
      assert Truth(c, r, marks, loose, OneJust(t));
      var i :| 0 <= i < |c.justice| && i !in marks[t].justice && Justified(c, r, t, i);
      assert Truth(c, r, marks, loose, Just(t, i));
      assert T(w, JustLit(t, marks[t].justice, i));
    }
  }

  lemma FairnessTruth(c: Model, r: Run, marks: seq<Mark>, loose: bool, w: Valuation, t: nat)
    requires Setting(c, r, marks, loose, w) && t < |r|
    ensures FairnessMeans(c, w, t, marks[t].justice)
  {
    hide IsRun, Constrained, Import, LoopAt, Noted, LoopLit, Sat, RememberMeans;
    if c.justice != [] && c.fairness != [] {
      assert AllFair(t) in w <==> Truth(c, r, marks, loose, AllFair(t));
      forall i | 0 <= i < |c.fairness|
        ensures FairMeans(c, w, t, i)
        ensures Fair(t, i) in w <==> Noted(c, r, t, c.fairness[i])
      {
        assert Fair(t, i) in w <==> Truth(c, r, marks, loose, Fair(t, i));
        assert t > 0 ==> (Fair(t - 1, i) in w <==> Truth(c, r, marks, loose, Fair(t - 1, i)));
        RememberTruth(c, r, marks, loose, w, t, c.fairness[i], Fair(t, i), if t > 0 then Fair(t - 1, i) else One);
      }
      OneJustFair(c, r, marks, loose, w, t);
    }
  }

  /** A true justice disjunct implies that all fairness literals were noted. */
  lemma OneJustFair(c: Model, r: Run, marks: seq<Mark>, loose: bool, w: Valuation, t: nat)
    requires Setting(c, r, marks, loose, w) && t < |r| && c.justice != []
    ensures T(w, OneJustLit(c, t, marks[t].justice)) ==> forall i :: 0 <= i < |c.fairness| ==>
            Noted(c, r, t, c.fairness[i])
  {
    hide IsRun, Constrained, LoopAt, Noted;
    assert Truth(c, r, marks, loose, One);
    assert OneJust(t) in w <==> Truth(c, r, marks, loose, OneJust(t));
    assert Just(t, 0) in w <==> Truth(c, r, marks, loose, Just(t, 0));
  }

  /** A lasso notes its literals by the last frame. */
  lemma LassoJustified(c: Model, r: Run, i: nat)
    requires c.Ok() && r != [] && i < |c.justice| && (Lasso(c, r, i) || (c.justice[i] == [] && c.fairness == []))
    ensures Justified(c, r, |r| - 1, i)
  {
    hide Val, Closes, Model.Ok;
    if Lasso(c, r, i) {
      var l :| 0 <= l < |r| && Closes(c, r, l) && OnLoop(c, r, l, i);
      forall lit | Holds(c, r, l, lit) ensures Noted(c, r, |r| - 1, lit) {
        var s :| l <= s < |r| && V(c, r[s], lit);
        assert LoopAt(c, r, s);
      }
    }
  }

  lemma GoalTruth(c: Model, r: Run, marks: seq<Mark>, loose: bool, w: Valuation, t: nat)
    requires Setting(c, r, marks, loose, w) && t < |r|
    requires if loose then EndsBad(c, r, marks[|r| - 1].bad)
             else Witness(c, r, marks[|r| - 1].bad, marks[|r| - 1].justice)
    ensures GoalMeans(c, w, t, marks[t].bad, marks[t].justice)
  {
    hide IsRun, Constrained, LoopAt, Noted, Val, Lasso, Import, Justified, Ordered;
    assert Assume(t) in w <==> Truth(c, r, marks, loose, Assume(t));
    if Assume(t) in w {
      var m := marks[t];
      if i :| 0 <= i < |c.bad| && i !in m.bad && V(c, r[t], c.bad[i]) {
        ImportTruth(c, r, marks, loose, w, t, c.bad[i]);
        assert Truth(c, r, marks, loose, OneBad(t));
        assert T(w, OneBadLit(c, t, m.bad));
      } else {
        var i :| 0 <= i < |c.justice| && i !in m.justice &&
          (Lasso(c, r, i) || (c.justice[i] == [] && c.fairness == []));
        LassoJustified(c, r, i);
        assert Truth(c, r, marks, loose, Just(t, i)) && Truth(c, r, marks, loose, OneJust(t));
        assert T(w, OneJustLit(c, t, m.justice));
      }
    }
  }

  /** The intended valuation of a witness satisfies everything, and so does the loose one
      of a run that ends badly. */
  lemma RunModels(c: Model, r: Run, marks: seq<Mark>, loose: bool)
    requires c.Ok() && c.Supported() && |r| == |marks| > 0 && IsRun(c, r) && !marks[|marks| - 1].refuted
    requires forall t :: 0 <= t < |r| ==> Constrained(c, r[t])
    requires if loose then |c.justice| > 1 && EndsBad(c, r, marks[|r| - 1].bad)
             else Witness(c, r, marks[|r| - 1].bad, marks[|r| - 1].justice)
    ensures Setting(c, r, marks, loose, Intended(c, r, marks, loose))
    ensures ScriptMeans(c, Intended(c, r, marks, loose), marks) && Assume(|marks| - 1) in Intended(c, r, marks, loose)
  {
    var w := Intended(c, r, marks, loose);
    assert Setting(c, r, marks, loose, w);
    assert Truth(c, r, marks, loose, One) && Truth(c, r, marks, loose, Assume(|marks| - 1));
    hide FrameMeans, Witness, EndsBad, Setting, IsRun, Constrained;
    forall t | 0 <= t < |marks| ensures FrameMeans(c, w, t, marks[t]) {
      FrameTruth(c, r, marks, loose, w, t);
    }
  }

  lemma FrameTruth(c: Model, r: Run, marks: seq<Mark>, loose: bool, w: Valuation, t: nat)
    requires Setting(c, r, marks, loose, w) && t < |marks| == |r| && c.Ok() && !marks[|marks| - 1].refuted
    requires if loose then |c.justice| > 1 && EndsBad(c, r, marks[|r| - 1].bad)
             else Witness(c, r, marks[|r| - 1].bad, marks[|r| - 1].justice)
    ensures FrameMeans(c, w, t, marks[t])
  {
    assert Assume(t) in w <==> Truth(c, r, marks, loose, Assume(t));
    hide GatesMean, BadMeans, SaneMeans, AllJusticeMeans, FairnessMeans, GoalMeans, Witness, EndsBad, Setting, IsRun,
      Constrained, Model.Ok;
    GatesTruth(c, r, marks, loose, w, t);
    BadTruth(c, r, marks, loose, w, t);
    SaneTruth(c, r, marks, loose, w, t);
    AllJusticeTruth(c, r, marks, loose, w, t);
    FairnessTruth(c, r, marks, loose, w, t);
    GoalTruth(c, r, marks, loose, w, t);
  }

  /** A constrained run of the given number of states that witnesses a property. */
  ghost predicate Witnessed(c: Model, n: nat, badDone: set<nat>, justDone: set<nat>)
    requires c.Ok()
  {
    exists r: Run :: |r| == n && IsRun(c, r) && (forall t :: 0 <= t < n ==> Constrained(c, r[t])) &&
      Witness(c, r, badDone, justDone)
  }

  /** Bounded model checking is exact: the clauses of the bounds 0 to k are satisfiable under
      the k-th assumption if and only if some constrained run of k + 1 states ends in an
      unreached bad state or closes a lasso for an unreached justice property. */
  lemma BoundedExact(c: Model, marks: seq<Mark>)
    requires c.Ok() && c.Supported() && marks != [] && !marks[|marks| - 1].refuted
    requires forall u :: 0 <= u < |marks| ==> marks[u].justice <= marks[|marks| - 1].justice
    ensures (exists w :: SatAll(w, Script(c, marks)) && Assume(|marks| - 1) in w) <==>
            Witnessed(c, |marks|, marks[|marks| - 1].bad, marks[|marks| - 1].justice)
  {
    hide Script, SatAll, Witness, IsRun, Constrained, ScriptMeans, Model.Supported, Model.Ok;
    var last := marks[|marks| - 1];
    forall w | SatAll(w, Script(c, marks)) && Assume(|marks| - 1) in w
      ensures Witnessed(c, |marks|, last.bad, last.justice)
    {
      ScriptMeaning(c, w, marks);
      ModelIsRun(c, w, marks);
      ModelWitness(c, w, marks);
      var r := RunOf(c, w, |marks|);
      forall t | 0 <= t < |marks| ensures Constrained(c, r[t]) {
        ModelConstrained(c, w, marks, t);
      }
      assert |r| == |marks|;
    }
    if Witnessed(c, |marks|, last.bad, last.justice) {
      var r: Run :| |r| == |marks| && IsRun(c, r) && (forall t :: 0 <= t < |marks| ==> Constrained(c, r[t])) &&
        Witness(c, r, last.bad, last.justice);
      RunModels(c, r, marks, false);
      ScriptMeaning(c, Intended(c, r, marks, false), marks);
    }
  }

  // ----- which properties a model of the clauses reports -----

  /** Nothing is left to mix: no unreached bad state, no fairness, or one justice property. */
  predicate Trusted(c: Model, reached: set<nat>) {
    (forall i :: 0 <= i < |c.bad| ==> i in reached) || c.fairness == [] || |c.justice| == 1
  }

  /** The run of a model ends in every bad state whose literal it makes true. */
  lemma ReportedBad(c: Model, w: Valuation, marks: seq<Mark>, i: nat)
    requires c.Ok() && marks != [] && ScriptMeans(c, w, marks) && i < |c.bad|
    requires T(w, BadLit(c, |marks| - 1, marks[|marks| - 1].bad, i))
    ensures |RunOf(c, w, |marks|)| == |marks| && V(c, RunOf(c, w, |marks|)[|marks| - 1], c.bad[i])
  {
    hide Val, Ordered, GatesMean, Import;
    FrameParts(c, w, marks, |marks| - 1);
    ImportVal(c, w, |marks| - 1, c.bad[i]);
  }

  // ----- exactly when a justice property is misreported -----

  /** A model of the bound in which justice property i reads true, though the run of this
      model closes no lasso for it, and it is not empty. */
  ghost predicate Misreports(c: Model, w: Valuation, marks: seq<Mark>, i: nat)
    requires c.Ok() && marks != [] && i < |c.justice|
  {
    SatAll(w, Script(c, marks)) && Assume(|marks| - 1) in w && Just(|marks| - 1, i) in w &&
    !Lasso(c, RunOf(c, w, |marks|), i) && !(c.justice[i] == [] && c.fairness == [])
  }

  /** A constrained run of the bound that ends in an unreached bad state and holds all
      literals of justice property i in its loop, but not all fairness literals. */
  ghost predicate Slips(c: Model, r: Run, marks: seq<Mark>, i: nat)
    requires c.Ok() && marks != []
  {
    var n := |marks|;
    |r| == n && IsRun(c, r) && (forall t :: 0 <= t < n ==> Constrained(c, r[t])) && EndsBad(c, r, marks[n - 1].bad) &&
    AllNoted(c, r, n - 1, i) && exists j :: 0 <= j < |c.fairness| && !Noted(c, r, n - 1, c.fairness[j])
  }

  /** The first state the last one steps back to. */
  lemma {:induction false} FirstClosing(c: Model, r: Run, l: nat) returns (first: nat)
    requires c.Ok() && l < |r| && Closes(c, r, l)
    ensures first <= l && Closes(c, r, first) && forall m :: 0 <= m < first ==> !Closes(c, r, m)
  {
    hide Closes;
    if m :| 0 <= m < l && Closes(c, r, m) {
      first := FirstClosing(c, r, m);
    } else {
      first := l;
    }
  }

  /** Everything noted by the last state holds in the longest loop. */
  lemma JustifiedCloses(c: Model, r: Run, i: nat)
    requires c.Ok() && r != [] && Justified(c, r, |r| - 1, i) && !(c.justice[i] == [] && c.fairness == [])
    ensures Lasso(c, r, i)
  {
    hide Val, Closes, Model.Ok;
    var lit := if c.justice[i] != [] then c.justice[i][0] else c.fairness[0];
    assert Noted(c, r, |r| - 1, lit);
    var s :| 0 <= s <= |r| - 1 && s < |r| && V(c, r[s], lit) && LoopAt(c, r, s);
    var l :| 0 <= l <= s && l < |r| && Closes(c, r, l);
    var first := FirstClosing(c, r, l);
    forall x | Noted(c, r, |r| - 1, x) ensures Holds(c, r, first, x) {
      var u :| 0 <= u <= |r| - 1 && u < |r| && V(c, r[u], x) && LoopAt(c, r, u);
      assert first <= u;
    }
    assert OnLoop(c, r, first, i);
  }

  lemma SeenNoted(c: Model, w: Valuation, marks: seq<Mark>, i: nat, j: nat)
    requires c.Ok() && marks != [] && ScriptMeans(c, w, marks) && Assume(|marks| - 1) in w
    requires i < |c.justice| && j < |c.justice[i]| && i !in marks[|marks| - 1].justice
    requires Seen(|marks| - 1, i, j) in w
    requires forall u :: 0 <= u < |marks| ==> marks[u].justice <= marks[|marks| - 1].justice
    ensures Noted(c, RunOf(c, w, |marks|), |marks| - 1, c.justice[i][j])
  {
    hide Val, Ordered, ScriptMeans, GatesMean, Import, Closes, RunOf;
    var k, r, lit := |marks| - 1, RunOf(c, w, |marks|), c.justice[i][j];
    var s := SeenAt(c, w, marks, marks[k].justice, i, j, k);
    LoopEntered(c, w, marks, s);
    var l :| 0 <= l <= s && Here(l) in w;
    HereCloses(c, w, marks, l);
    FrameParts(c, w, marks, s);
    ImportVal(c, w, s, lit);
    assert V(c, r[s], lit) && LoopAt(c, r, s);
  }

  /** A misreport can only come from the bad literal: fairness was not asked for. */
  lemma MisreportUnfair(c: Model, w: Valuation, marks: seq<Mark>, i: nat)
    requires c.Ok() && marks != [] && ScriptMeans(c, w, marks) && Assume(|marks| - 1) in w && i < |c.justice|
    requires i !in marks[|marks| - 1].justice && Just(|marks| - 1, i) in w
    requires forall u :: 0 <= u < |marks| ==> marks[u].justice <= marks[|marks| - 1].justice
    requires !Lasso(c, RunOf(c, w, |marks|), i) && !(c.justice[i] == [] && c.fairness == [])
    ensures |c.justice| > 1 && EndsBad(c, RunOf(c, w, |marks|), marks[|marks| - 1].bad)
  {
    hide Val, Ordered, ScriptMeans, GatesMean, SaneMeans, AllJusticeMeans, AllFairLit, Lasso, Model.Ok, Import;
    var k := |marks| - 1;
    FrameParts(c, w, marks, k);
    if c.fairness == [] || T(w, AllFairLit(c, k)) {
      JustifiedLasso(c, w, marks, i);
    }
    assert !T(w, OneJustLit(c, k, marks[k].justice));
    var b := BadPicked(c, w, k, marks[k].bad);
    ReportedBad(c, w, marks, b);
  }

  lemma MisreportSlips(c: Model, w: Valuation, marks: seq<Mark>, i: nat)
    requires c.Ok() && marks != [] && i < |c.justice| && i !in marks[|marks| - 1].justice && Misreports(c, w, marks, i)
    requires forall u :: 0 <= u < |marks| ==> marks[u].justice <= marks[|marks| - 1].justice
    ensures |c.justice| > 1 && Slips(c, RunOf(c, w, |marks|), marks, i)
  {
    hide SatAll, Script, ScriptMeans, IsRun, Constrained, Lasso, Noted, EndsBad, RunOf, Model.Ok, JustMeans;
    var k, r := |marks| - 1, RunOf(c, w, |marks|);
    RunLength(c, w, |marks|);
    ScriptMeaning(c, w, marks);
    ModelIsRun(c, w, marks);
    MisreportUnfair(c, w, marks, i);
    forall t | 0 <= t < |marks| ensures Constrained(c, r[t]) {
      RunAt(c, w, |marks|, t);
      ModelConstrained(c, w, marks, t);
    }
    forall j | 0 <= j < |c.justice[i]| ensures Noted(c, r, k, c.justice[i][j]) {
      JustSeen(c, w, marks, i, j);
      SeenNoted(c, w, marks, i, j);
    }
    if forall j :: 0 <= j < |c.fairness| ==> Noted(c, r, k, c.fairness[j]) {
      JustifiedCloses(c, r, i);
    }
  }

  lemma RunAt(c: Model, w: Valuation, n: nat, t: nat)
    requires t < n
    ensures |RunOf(c, w, n)| == n && RunOf(c, w, n)[t] == Env(c, w, t)
  {
  }

  lemma JustSeen(c: Model, w: Valuation, marks: seq<Mark>, i: nat, j: nat)
    requires marks != [] && ScriptMeans(c, w, marks) && i < |c.justice| && j < |c.justice[i]|
    requires i !in marks[|marks| - 1].justice && Just(|marks| - 1, i) in w
    ensures Seen(|marks| - 1, i, j) in w
  {
    hide GatesMean, ScriptMeans, Import, LoopMeans, SeenMeans;
    FrameParts(c, w, marks, |marks| - 1);
    assert JustMeans(c, w, |marks| - 1, marks[|marks| - 1].justice, i);
  }

  /** The run of the intended valuation has the values of the run it was made from. */
  lemma IntendedRun(c: Model, r: Run, marks: seq<Mark>, loose: bool, w: Valuation, t: nat)
    requires Setting(c, r, marks, loose, w) && ScriptMeans(c, w, marks) && t < |r|
    ensures c.Ok() && SameState(c, Env(c, w, t), r[t])
  {
    hide *;
    SettingOk(c, r, marks, loose, w);
    forall lit: nat | c.Defined(lit) ensures V(c, Env(c, w, t), lit) <==> V(c, r[t], lit) {
      IntendedVal(c, r, marks, loose, w, t, lit);
    }
    forall v: nat | c.n < v <= c.Leaves() ensures v in Env(c, w, t) <==> v in r[t] {
      IntendedLatch(c, r, marks, loose, w, t, v);
    }
    SameStateIf(c, Env(c, w, t), r[t]);
  }

  lemma SameStateIf(c: Model, env: iset<nat>, env': iset<nat>)
    requires c.Ok() && forall lit: nat :: c.Defined(lit) ==> (V(c, env, lit) <==> V(c, env', lit))
    requires forall v: nat :: c.n < v <= c.Leaves() ==> (v in env <==> v in env')
    ensures SameState(c, env, env')
  {
    hide V, Model.Ok;
  }

  lemma IntendedVal(c: Model, r: Run, marks: seq<Mark>, loose: bool, w: Valuation, t: nat, lit: nat)
    requires Setting(c, r, marks, loose, w) && ScriptMeans(c, w, marks) && t < |r| && c.Defined(lit)
    ensures c.Ok() && (V(c, Env(c, w, t), lit) <==> V(c, r[t], lit))
  {
    hide *;
    SettingOk(c, r, marks, loose, w);
    FrameParts(c, w, marks, t);
    ImportVal(c, w, t, lit);
    ImportTruth(c, r, marks, loose, w, t, lit);
  }

  lemma IntendedLatch(c: Model, r: Run, marks: seq<Mark>, loose: bool, w: Valuation, t: nat, v: nat)
    requires Setting(c, r, marks, loose, w) && t < |r| && c.n < v <= c.Leaves()
    ensures v in Env(c, w, t) <==> v in r[t]
  {
    LatchImport(c, w, t, v - c.n - 1);
    hide Setting, LatchLit, Env, Import, T;
    LatchTruth(c, r, marks, loose, w, t, v - c.n - 1);
  }

  lemma SettingOk(c: Model, r: Run, marks: seq<Mark>, loose: bool, w: Valuation)
    requires Setting(c, r, marks, loose, w)
    ensures c.Ok() && |r| == |marks| > 0
    ensures forall i :: 0 <= i < |c.latches| ==> c.Defined(c.latches[i].next)
    ensures forall i :: 0 <= i < |c.fairness| ==> c.Defined(c.fairness[i])
    ensures forall i, j :: 0 <= i < |c.justice| && 0 <= j < |c.justice[i]| ==> c.Defined(c.justice[i][j])
  {
  }

  /** Two states agree on the latches and on every literal. */
  ghost predicate SameState(c: Model, env: iset<nat>, env': iset<nat>)
    requires c.Ok()
  {
    (forall lit: nat :: c.Defined(lit) ==> (V(c, env, lit) <==> V(c, env', lit))) &&
    forall v: nat :: c.n < v <= c.Leaves() ==> (v in env <==> v in env')
  }

  ghost predicate SameRun(c: Model, q: Run, r: Run)
    requires c.Ok()
  {
    |q| == |r| && forall t :: 0 <= t < |r| ==> SameState(c, q[t], r[t])
  }

  lemma HoldsSame(c: Model, q: Run, r: Run, l: nat, lit: nat)
    requires c.Ok() && SameRun(c, q, r) && c.Defined(lit) && Holds(c, q, l, lit)
    ensures Holds(c, r, l, lit)
  {
    hide Val, Model.Ok;
    var s :| l <= s < |q| && V(c, q[s], lit);
    assert SameState(c, q[s], r[s]);
  }

  lemma ClosesSame(c: Model, q: Run, r: Run, l: nat)
    requires c.Ok() && SameRun(c, q, r) && l < |q| && Closes(c, q, l)
    requires forall i :: 0 <= i < |c.latches| ==> c.Defined(c.latches[i].next)
    ensures Closes(c, r, l)
  {
    hide Val, Model.Ok, Model.Defined;
    var k := |r| - 1;
    assert SameState(c, q[l], r[l]) && SameState(c, q[k], r[k]);
    forall i | 0 <= i < |c.latches| ensures c.n + i + 1 in r[l] <==> V(c, r[k], c.latches[i].next) {
      assert c.n + i + 1 in q[l] <==> V(c, q[k], c.latches[i].next);
    }
  }

  lemma LassoBack(c: Model, r: Run, marks: seq<Mark>, loose: bool, w: Valuation, i: nat)
    requires Setting(c, r, marks, loose, w) && ScriptMeans(c, w, marks) && i < |c.justice|
    requires Lasso(c, RunOf(c, w, |marks|), i)
    ensures Lasso(c, r, i)
  {
    SettingOk(c, r, marks, loose, w);
    hide Val, Ordered, Setting, ScriptMeans, Model.Ok, Model.Defined, RunOf, Env, V, Closes, Holds;
    var q := RunOf(c, w, |marks|);
    RunLength(c, w, |marks|);
    forall t | 0 <= t < |r| ensures SameState(c, q[t], r[t]) {
      RunAt(c, w, |marks|, t);
      IntendedRun(c, r, marks, loose, w, t);
    }
    hide SameState;
    assert SameRun(c, q, r);
    var l :| 0 <= l < |q| && Closes(c, q, l) && OnLoop(c, q, l, i);
    ClosesSame(c, q, r, l);
    forall j | 0 <= j < |c.justice[i]| ensures Holds(c, r, l, c.justice[i][j]) {
      HoldsSame(c, q, r, l, c.justice[i][j]);
    }
    forall j | 0 <= j < |c.fairness| ensures Holds(c, r, l, c.fairness[j]) {
      HoldsSame(c, q, r, l, c.fairness[j]);
    }
    assert OnLoop(c, r, l, i);
  }

  lemma SlipsMisreport(c: Model, r: Run, marks: seq<Mark>, i: nat)
    requires c.Ok() && c.Supported() && marks != [] && !marks[|marks| - 1].refuted && i < |c.justice| && |c.justice| > 1
    requires Slips(c, r, marks, i)
    ensures Misreports(c, Intended(c, r, marks, true), marks, i)
  {
    hide Model.Ok, Model.Supported, IsRun, Constrained, EndsBad, Setting, ScriptMeans, SatAll, Script, Noted, Lasso,
      RunOf;
    var w, k := Intended(c, r, marks, true), |marks| - 1;
    RunModels(c, r, marks, true);
    ScriptMeaning(c, w, marks);
    assert Truth(c, r, marks, true, Just(k, i));
    RunLength(c, w, |marks|);
    if Lasso(c, RunOf(c, w, |marks|), i) {
      LassoBack(c, r, marks, true, w, i);
      LassoJustified(c, r, i);
    }
  }

  /** An unreached justice property can be misreported if and only if there are several
      and some run slips. */
  lemma MisreportExact(c: Model, marks: seq<Mark>, i: nat)
    requires c.Ok() && c.Supported() && marks != [] && !marks[|marks| - 1].refuted
    requires forall u :: 0 <= u < |marks| ==> marks[u].justice <= marks[|marks| - 1].justice
    requires i < |c.justice| && i !in marks[|marks| - 1].justice
    ensures (exists w :: Misreports(c, w, marks, i)) <==>
            |c.justice| > 1 && exists r: Run :: Slips(c, r, marks, i)
  {
    hide Misreports, Slips, Model.Ok, Model.Supported;
    forall w | Misreports(c, w, marks, i)
      ensures |c.justice| > 1 && exists r: Run :: Slips(c, r, marks, i)
    {
      MisreportSlips(c, w, marks, i);
    }
    if |c.justice| > 1 {
      forall r: Run | Slips(c, r, marks, i) ensures exists w :: Misreports(c, w, marks, i) {
        SlipsMisreport(c, r, marks, i);
      }
    }
  }

  /** What a run of the bound says of a reported justice property: it closes a lasso for it,
      unless the property is empty, or something was left to mix and the run slips. */
  ghost predicate Backed(c: Model, r: Run, marks: seq<Mark>, i: nat)
    requires c.Ok() && marks != [] && i < |c.justice|
  {
    Lasso(c, r, i) || (c.justice[i] == [] && c.fairness == []) ||
    (!Trusted(c, marks[|marks| - 1].bad) && Slips(c, r, marks, i))
  }

  /** With nothing to mix no run slips, whatever there is to report. */
  lemma TrustedNoSlip(c: Model, r: Run, marks: seq<Mark>, i: nat)
    requires c.Ok() && marks != [] && i < |c.justice| && |c.justice| > 1 && Trusted(c, marks[|marks| - 1].bad)
    ensures !Slips(c, r, marks, i)
  {
    hide Model.Ok, IsRun, Constrained, V, AllNoted, Noted;
  }

  /** The run of a model backs every justice property read true. */
  lemma ReportedJustice(c: Model, w: Valuation, marks: seq<Mark>, i: nat)
    requires c.Ok() && marks != [] && ScriptMeans(c, w, marks) && Assume(|marks| - 1) in w && i < |c.justice|
    requires T(w, JustLit(|marks| - 1, marks[|marks| - 1].justice, i))
    requires forall u :: 0 <= u < |marks| ==> marks[u].justice <= marks[|marks| - 1].justice
    ensures |RunOf(c, w, |marks|)| == |marks| && Backed(c, RunOf(c, w, |marks|), marks, i)
  {
    RunLength(c, w, |marks|);
    FrameParts(c, w, marks, |marks| - 1);
    hide ScriptMeans, SatAll, Script, Lasso, RunOf, Model.Ok, Slips, Trusted;
    ScriptMeaning(c, w, marks);
    if !Lasso(c, RunOf(c, w, |marks|), i) && !(c.justice[i] == [] && c.fairness == []) {
      MisreportSlips(c, w, marks, i);
      if Trusted(c, marks[|marks| - 1].bad) {
        TrustedNoSlip(c, RunOf(c, w, |marks|), marks, i);
      }
    }
  }

  /** A true output as bad state, two true justice properties and a false fairness literal. */
  function Mixed(): Model {
    Model(0, [], [], [1], [], [[1], [1]], [0])
  }

  /** Bound 0 is satisfiable with the first justice literal true. */
  ghost predicate ReportsFirst(c: Model, w: Valuation) {
    SatAll(w, Script(c, [Mark({}, {}, false)])) && Assume(0) in w && Just(0, 0) in w
  }

  /** Otherwise a bad state can satisfy the bound alone: then fairness is not enforced, and
      a justice property is reported that no run of one state witnesses. */
  lemma MixedReport()
    ensures Mixed().Ok() && Mixed().Supported() && !Trusted(Mixed(), {}) && exists w :: ReportsFirst(Mixed(), w)
    ensures forall r :: |r| == 1 && IsRun(Mixed(), r) ==> !Lasso(Mixed(), r, 0)
  {
    MixedOk();
    hide IsRun, Lasso, ReportsFirst, SatAll, Script, ScriptMeans, Model.Ok, Model.Supported, Trusted;
    MixedReports(Mixed());
    forall r | |r| == 1 && IsRun(Mixed(), r) ensures !Lasso(Mixed(), r, 0) {
      MixedNoLasso(Mixed(), r);
    }
  }

  lemma MixedOk()
    ensures Mixed().Ok() && Mixed().Supported() && !Trusted(Mixed(), {})
  {
    var none: set<nat> := {};
    assert 0 !in none && |Mixed().bad| == 1;
  }

  lemma MixedReports(c: Model)
    requires c == Mixed()
    ensures exists w :: ReportsFirst(c, w)
  {
    var w := iset{One, Assume(0), Just(0, 0), Seen(0, 0, 0), Here(0)};
    MixedFrame(c, w, Mark({}, {}, false));
    hide SatAll, Script, ScriptMeans, Mixed;
    ScriptMeaning(c, w, [Mark({}, {}, false)]);
    assert ReportsFirst(c, w);
  }

  lemma MixedNoLasso(c: Model, r: Run)
    requires c.Ok() && |c.justice| > 0 && c.fairness == [0] && |r| == 1
    ensures !Lasso(c, r, 0)
  {
    OkOrdered(c);
    hide Val, Model.Ok, Closes, Ordered;
    ValNot(c.Leaves(), c.ands, r[0], 0);
    forall l | 0 <= l < |r| ensures !OnLoop(c, r, l, 0) {
      assert !Holds(c, r, l, c.fairness[0]);
    }
  }

  lemma MixedFrame(c: Model, w: Valuation, m: Mark)
    requires c == Model(0, [], [], [1], [], [[1], [1]], [0]) && m == Mark({}, {}, false)
    requires w == iset{One, Assume(0), Just(0, 0), Seen(0, 0, 0), Here(0)}
    ensures ScriptMeans(c, w, [m])
  {
    assert Import(c, 0, 1) == P(One) && Import(c, 0, 0) == N(One);
    assert JustMeans(c, w, 0, {}, 0) && JustMeans(c, w, 0, {}, 1);
    assert FairMeans(c, w, 0, 0);
    assert FrameMeans(c, w, 0, m);
  }

  /** A constrained run of n states. */
  ghost predicate Stays(c: Model, r: Run, n: nat)
    requires c.Ok()
  {
    |r| == n && IsRun(c, r) && forall t :: 0 <= t < n ==> Constrained(c, r[t])
  }

  /** An unreached justice property has no literals, and there is no fairness. */
  predicate EmptyUnreached(c: Model, justDone: set<nat>) {
    exists i :: 0 <= i < |c.justice| && i !in justDone && c.justice[i] == [] && c.fairness == []
  }

  /** A bad state, or a lasso that closes. */
  ghost predicate Genuine(c: Model, r: Run, badDone: set<nat>, justDone: set<nat>)
    requires c.Ok() && r != []
  {
    EndsBad(c, r, badDone) || exists i :: 0 <= i < |c.justice| && i !in justDone && Lasso(c, r, i)
  }

  /** A bound asks for a bad state or a lasso exactly as long as no unreached justice property
      is empty with no fairness; then any constrained run will do. */
  lemma EmptyJusticeExact(c: Model, n: nat, badDone: set<nat>, justDone: set<nat>)
    requires c.Ok()
    ensures EmptyUnreached(c, justDone) ==>
              (Witnessed(c, n, badDone, justDone) <==> exists r: Run :: Stays(c, r, n))
    ensures !EmptyUnreached(c, justDone) ==>
              (Witnessed(c, n, badDone, justDone) <==>
               exists r: Run :: Stays(c, r, n) && Genuine(c, r, badDone, justDone))
  {
    hide V, Model.Ok, Lasso, Constrained;
    forall r: Run | Stays(c, r, n)
      ensures EmptyUnreached(c, justDone) ==> Witness(c, r, badDone, justDone)
      ensures !EmptyUnreached(c, justDone) ==> (Witness(c, r, badDone, justDone) <==> Genuine(c, r, badDone, justDone))
    {
    }
    hide Witness, Genuine, IsRun;
    if Witnessed(c, n, badDone, justDone) {
      var r: Run :| |r| == n && IsRun(c, r) && (forall t :: 0 <= t < n ==> Constrained(c, r[t])) &&
        Witness(c, r, badDone, justDone);
      assert Stays(c, r, n);
    }
  }

  /** A justice property without literals is reported at bound 0 although no lasso
      of one state exists: here the latch changes in the only step. */
  lemma EmptyJusticeNoLasso()
    ensures var c := Model(0, [Latch(2, 1, 0)], [], [], [], [[]], []);
            c.Ok() && c.Supported() && IsRun(c, [iset{}]) && Witness(c, [iset{}], {}, {}) && !Lasso(c, [iset{}], 0)
  {
    var c := Model(0, [Latch(2, 1, 0)], [], [], [], [[]], []);
    var r: Run := [iset{}];
    assert c.Ok();
    ValNot(c.Leaves(), c.ands, r[0], 0);
    assert !Closes(c, r, 0) by {
      assert c.n + 0 + 1 !in r[0] && V(c, r[0], c.latches[0].next);
    }
    assert c.justice[0] == [];
  }
}
