/** aigunroll: time-frame expansion of a circuit with one output. */
module Unroll {
  import A = Aig
  import O = OrderedAig
  import R = RefCount
  import S = Simpaig
  import X = Expansion

  /** A reencoded circuit: n inputs, then the latches, then the gates. */
  datatype Model = Model(n: nat, latches: seq<A.Latch>, ands: seq<A.And>, output: nat) {
    function Leaves(): nat {
      n + |latches|
    }

    function MaxVar(): nat {
      Leaves() + |ands|
    }

    predicate IsLatch(v: nat) {
      n < v <= Leaves()
    }

    function LatchAt(v: nat): A.Latch
      requires IsLatch(v)
    {
      latches[v - n - 1]
    }

    ghost predicate Ok() {
      O.Ordered(Leaves(), ands) && (forall i :: 0 <= i < |latches| ==> latches[i].lit == 2 * (n + i + 1)) &&
      (forall i :: 0 <= i < |latches| ==> latches[i].next / 2 <= MaxVar()) && output / 2 <= MaxVar()
    }

    ghost predicate Val(env: iset<nat>, lit: nat)
      requires Ok()
    {
      O.Val(Leaves(), ands, env, lit)
    }
  }

  // ----- runs -----

  ghost predicate Starts(m: Model, env: iset<nat>) {
    forall v: nat :: m.IsLatch(v) ==> (m.LatchAt(v).reset == 0 ==> v !in env) && (m.LatchAt(v).reset == 1 ==> v in env)
  }

  ghost predicate Follows(m: Model, env: iset<nat>, env': iset<nat>)
    requires m.Ok()
  {
    forall v: nat :: m.IsLatch(v) ==> (v in env' <==> m.Val(env, m.LatchAt(v).next))
  }

  /** A sequence of inputs and latch values from reset. */
  ghost predicate IsRun(m: Model, r: seq<iset<nat>>)
    requires m.Ok()
  {
    r != [] && Starts(m, r[0]) && forall t :: 0 <= t < |r| - 1 ==> Follows(m, r[t], r[t + 1])
  }

  // ----- runs from variables with time slices -----

  ghost function At(env: S.Env, s: int): iset<nat> {
    iset v: nat | (v, s) in env
  }

  /** Inputs at every step and the uninitialized latches at step 0 are read from env. */
  ghost predicate Holds(m: Model, env: S.Env, t: nat, v: nat)
    requires m.Ok()
    decreases t, 0
  {
    if !m.IsLatch(v) then (v, t as int) in env
    else if t == 0 then
      if m.LatchAt(v).reset == 0 then false
      else if m.LatchAt(v).reset == 1 then true
      else (v, 0) in env
    else m.Val(State(m, env, t - 1), m.LatchAt(v).next)
  }

  ghost function State(m: Model, env: S.Env, t: nat): iset<nat>
    requires m.Ok()
    decreases t, 1
  {
    iset v: nat | Holds(m, env, t, v)
  }

  ghost predicate InFull(m: Model, env: S.Env, k: nat, v: nat, s: int)
    requires m.Ok()
  {
    if 0 <= s <= k then v in State(m, env, s) else (v, s) in env
  }

  /** The variables of all steps with the latches as the run sets them. */
  ghost function Full(m: Model, env: S.Env, k: nat): S.Env
    requires m.Ok()
  {
    iset x: (nat, int) | InFull(m, env, k, x.0, x.1)
  }

  lemma AtFull(m: Model, env: S.Env, k: nat, t: nat)
    requires m.Ok() && t <= k
    ensures At(Full(m, env, k), t) == State(m, env, t)
  {
  }

  ghost predicate TrueBy(m: Model, env: S.Env, k: nat)
    requires m.Ok()
  {
    exists t: nat :: t <= k && m.Val(State(m, env, t), m.output)
  }

  ghost function Run(m: Model, env: S.Env, t: nat): seq<iset<nat>>
    requires m.Ok()
  {
    if t == 0 then [State(m, env, 0)] else Run(m, env, t - 1) + [State(m, env, t)]
  }

  lemma {:induction false} RunAt(m: Model, env: S.Env, t: nat)
    requires m.Ok()
    ensures |Run(m, env, t)| == t + 1 && forall i :: 0 <= i <= t ==> Run(m, env, t)[i] == State(m, env, i)
  {
    hide State;
    if t > 0 {
      RunAt(m, env, t - 1);
    }
  }

  lemma StateFollows(m: Model, env: S.Env, t: nat)
    requires m.Ok()
    ensures Follows(m, State(m, env, t), State(m, env, t + 1))
  {
    hide State, m.Val, O.Val;
    forall v: nat | m.IsLatch(v)
      ensures v in State(m, env, t + 1) <==> m.Val(State(m, env, t), m.LatchAt(v).next)
    {
      StateAt(m, env, t + 1, v);
      assert Holds(m, env, t + 1, v) <==> m.Val(State(m, env, t + 1 - 1), m.LatchAt(v).next);
    }
  }

  lemma StateStarts(m: Model, env: S.Env)
    requires m.Ok()
    ensures Starts(m, State(m, env, 0))
  {
    hide State, m.Val, O.Val;
    forall v: nat | m.IsLatch(v) ensures v in State(m, env, 0) <==> Holds(m, env, 0, v) {
      StateAt(m, env, 0, v);
    }
  }

  /** The states read from any variables form a run. */
  lemma StatesRun(m: Model, env: S.Env, t: nat)
    requires m.Ok()
    ensures IsRun(m, Run(m, env, t)) && |Run(m, env, t)| == t + 1 && Run(m, env, t)[t] == State(m, env, t)
  {
    RunAt(m, env, t);
    StateStarts(m, env);
    var r := Run(m, env, t);
    hide State, Starts, Follows, Run;
    forall i | 0 <= i < t ensures Follows(m, r[i], r[i + 1]) {
      StateFollows(m, env, i);
      assert r[i] == State(m, env, i) && r[i + 1] == State(m, env, i + 1);
    }
  }

  /** Every run is read from some variables. */
  ghost function EnvOf(r: seq<iset<nat>>): S.Env {
    iset x: (nat, int) | 0 <= x.1 < |r| && x.0 in r[x.1]
  }

  lemma {:induction false} RunStates(m: Model, r: seq<iset<nat>>, t: nat)
    requires m.Ok() && IsRun(m, r) && t < |r|
    ensures State(m, EnvOf(r), t) == r[t]
  {
    if t > 0 {
      RunStates(m, r, t - 1);
    }
    hide State;
    forall v: nat ensures v in State(m, EnvOf(r), t) <==> v in r[t] {
      StateAt(m, EnvOf(r), t, v);
      RunHolds(m, r, t, v);
    }
  }

  lemma RunHolds(m: Model, r: seq<iset<nat>>, t: nat, v: nat)
    requires m.Ok() && IsRun(m, r) && t < |r| && (t > 0 ==> State(m, EnvOf(r), t - 1) == r[t - 1])
    ensures Holds(m, EnvOf(r), t, v) <==> v in r[t]
  {
    hide State, m.Val, O.Val;
    assert (v, t as int) in EnvOf(r) <==> v in r[t];
    if t > 0 {
      RunFollows(m, r, t);
    }
  }

  lemma RunFollows(m: Model, r: seq<iset<nat>>, t: nat)
    requires m.Ok() && IsRun(m, r) && 0 < t < |r|
    ensures Follows(m, r[t - 1], r[t])
  {
    hide Follows, Starts;
    assert Follows(m, r[t - 1], r[t - 1 + 1]);
  }

  /** The output is true at the end of some run of at most k + 1 states. */
  ghost predicate Reachable(m: Model, k: nat)
    requires m.Ok()
  {
    exists r :: IsRun(m, r) && |r| <= k + 1 && m.Val(r[|r| - 1], m.output)
  }

  /** Some variables make the output true within k steps exactly if some run does. */
  lemma TrueByReachable(m: Model, k: nat)
    requires m.Ok()
    ensures (exists env :: TrueBy(m, env, k)) <==> Reachable(m, k)
  {
    if env :| TrueBy(m, env, k) {
      var t: nat :| t <= k && m.Val(State(m, env, t), m.output);
      StatesRun(m, env, t);
      assert IsRun(m, Run(m, env, t));
    }
    if Reachable(m, k) {
      var r :| IsRun(m, r) && |r| <= k + 1 && m.Val(r[|r| - 1], m.output);
      RunStates(m, r, |r| - 1);
      assert TrueBy(m, EnvOf(r), k);
    }
  }

  // ----- nodes -----

  /** A node for a literal at step t. */
  ghost predicate FrameOf(m: Model, content: R.Contents, r: R.Ref, lit: nat, t: int)
    requires m.Ok()
  {
    S.Known(content, r) && S.Sliced(content, r, t) && Valued(m, content, r, lit, t)
  }

  ghost predicate Valued(m: Model, content: R.Contents, r: R.Ref, lit: nat, t: int)
    requires m.Ok()
  {
    forall env: S.Env :: S.Val(content, env, r) == m.Val(At(env, t), lit)
  }

  lemma FrameAgree(m: Model, content: R.Contents, content': R.Contents, r: R.Ref, lit: nat, t: int)
    requires m.Ok() && S.Whole(content) && S.Whole(content') && R.Agree(content, content')
    requires FrameOf(m, content, r, lit, t) && S.Known(content', r)
    ensures FrameOf(m, content', r, lit, t)
  {
    S.SlicedAgree(content, content', r, t);
    hide S.Whole, R.Agree, S.Known, S.Val, S.Sliced, O.Val;
    forall env: S.Env ensures S.Val(content', env, r) == m.Val(At(env, t), lit) {
      S.ValAgree(content, content', env, r);
    }
  }

  lemma FrameNot(m: Model, content: R.Contents, r: R.Ref, lit: nat, t: int)
    requires m.Ok() && FrameOf(m, content, r, lit, t)
    ensures FrameOf(m, content, S.Not(r), O.Not(lit), t)
  {
    S.SlicedNot(content, r, S.Not(r), t);
    S.NotKnown(content, r);
    hide S.Known, S.Val, S.Sliced, O.Val;
    forall env: S.Env ensures S.Val(content, env, S.Not(r)) == m.Val(At(env, t), O.Not(lit)) {
      S.ValNot(content, env, r);
      O.ValNot(m.Leaves(), m.ands, At(env, t), lit);
    }
  }

  lemma FrameConst(m: Model, content: R.Contents, t: int)
    requires m.Ok()
    ensures FrameOf(m, content, 0, 0, t)
  {
    hide S.Val, O.Val;
    forall env: S.Env ensures S.Val(content, env, 0) == m.Val(At(env, t), 0) {
      S.ValNot(content, env, 0);
      O.ValNot(m.Leaves(), m.ands, At(env, t), 0);
    }
  }

  lemma FrameVar(m: Model, content: R.Contents, r: R.Ref, v: nat, t: int)
    requires m.Ok() && 0 !in content && S.VarAt(content, r, v, t) && 0 < v <= m.Leaves()
    ensures FrameOf(m, content, r, 2 * v, t)
  {
    hide O.Val;
    forall env: S.Env ensures S.Val(content, env, r) == m.Val(At(env, t), 2 * v) {
      O.ValInput(m.Leaves(), m.ands, At(env, t), v);
    }
  }

  lemma FrameGate(m: Model, content: R.Contents, i: nat, l: R.Ref, r: R.Ref, res: R.Ref)
    requires m.Ok() && i < |m.ands| && FrameOf(m, content, l, m.ands[i].rhs0, 0) &&
             FrameOf(m, content, r, m.ands[i].rhs1, 0)
    requires S.Conjoins(content, res, l, r) && S.Known(content, res)
    ensures FrameOf(m, content, res, m.ands[i].lhs, 0)
  {
    hide S.Val, S.Sliced, O.Val, S.Known;
    forall env: S.Env ensures S.Val(content, env, res) == m.Val(At(env, 0), m.ands[i].lhs) {
      O.ValGate(m.Leaves(), m.ands, At(env, 0), i);
    }
  }

  ghost function Moved(env: S.Env, d: int): S.Env {
    iset x: (nat, int) | (x.0, x.1 + d) in env
  }

  lemma MovedRelated(env: S.Env, d: int)
    ensures S.Related(S.Shift(d), env, Moved(env, d))
  {
  }

  lemma MovedAt(env: S.Env, d: int, t: int)
    ensures At(Moved(env, d), t) == At(env, t + d)
  {
  }

  /** Shifting is time translation. */
  lemma FrameShift(m: Model, content: R.Contents, r: R.Ref, lit: nat, t: int, d: int, res: R.Ref)
    requires m.Ok() && FrameOf(m, content, r, lit, t) && S.Translates(content, S.Shift(d), r, res) &&
             S.Known(content, res)
    ensures FrameOf(m, content, res, lit, t + d)
  {
    ShiftSliced(content, r, t, d, res);
    hide S.Known, S.Val, S.Sliced, O.Val, S.Related, S.Moves, Moved, At;
    forall env: S.Env ensures S.Val(content, env, res) == m.Val(At(env, t + d), lit) {
      MovedRelated(env, d);
      MovedAt(env, d, t);
      assert S.Related(S.Shift(d), env, Moved(env, d));
    }
  }

  lemma ShiftSliced(content: R.Contents, r: R.Ref, t: int, d: int, res: R.Ref)
    requires S.Translates(content, S.Shift(d), r, res) && S.Sliced(content, r, t)
    ensures S.Sliced(content, res, t + d)
  {
    hide S.Same, S.Sliced;
  }

  // ----- the memo -----

  datatype Maybe = None | Some(r: R.Ref)

  function Handle(x: Maybe): multiset<nat> {
    if x.Some? then multiset{x.r / 2} else multiset{}
  }

  /** The handles the memo holds. */
  function HandlesOf(lois: seq<Maybe>): multiset<nat> {
    if lois == [] then multiset{} else HandlesOf(lois[..|lois| - 1]) + Handle(lois[|lois| - 1])
  }

  lemma BagSwapped(a: multiset<nat>, b: multiset<nat>, c: multiset<nat>)
    ensures a + c + b == a + b + c
  {
  }

  lemma HandlesStep(lois: seq<Maybe>)
    requires lois != []
    ensures HandlesOf(lois) == HandlesOf(lois[..|lois| - 1]) + Handle(lois[|lois| - 1])
  {
  }

  lemma {:induction false} HandlesSet(lois: seq<Maybe>, i: nat, r: R.Ref)
    requires i < |lois| && lois[i].None?
    ensures HandlesOf(lois[i := Some(r)]) == HandlesOf(lois) + multiset{r / 2}
  {
    var n := |lois| - 1;
    var lois' := lois[i := Some(r)];
    HandlesStep(lois);
    HandlesStep(lois');
    hide HandlesOf;
    if i == n {
      assert lois'[..n] == lois[..n];
      assert Handle(lois[n]) == multiset{};
    } else {
      assert lois'[..n] == lois[..n][i := Some(r)];
      HandlesSet(lois[..n], i, r);
      BagSwapped(HandlesOf(lois[..n]), Handle(lois[n]), multiset{r / 2});
    }
  }

  lemma {:induction false} HandlesHas(lois: seq<Maybe>, i: nat)
    requires i < |lois| && lois[i].Some?
    ensures lois[i].r / 2 in HandlesOf(lois)
  {
    if i < |lois| - 1 {
      HandlesHas(lois[..|lois| - 1], i);
    }
  }

  lemma {:induction false} HandlesNone(n: nat)
    ensures HandlesOf(seq(n, _ => None)) == multiset{}
  {
    if n > 0 {
      assert seq(n, _ => None)[..n - 1] == seq(n - 1, _ => None);
      HandlesNone(n - 1);
    }
  }

  ghost predicate MemoAt(m: Model, content: R.Contents, i: nat, r: R.Ref)
    requires m.Ok()
  {
    FrameOf(m, content, r, 2 * i, 0) && (0 < i <= m.Leaves() ==> S.VarAt(content, r, i, 0))
  }

  ghost predicate Memo(m: Model, content: R.Contents, lois: seq<Maybe>)
    requires m.Ok()
  {
    |lois| == m.MaxVar() + 1 && forall i :: 0 <= i < |lois| && lois[i].Some? ==> MemoAt(m, content, i, lois[i].r)
  }

  lemma MemoHas(m: Model, content: R.Contents, lois: seq<Maybe>, i: nat)
    requires m.Ok() && Memo(m, content, lois) && i < |lois| && lois[i].Some?
    ensures MemoAt(m, content, i, lois[i].r)
  {
  }

  lemma MemoSet(m: Model, content: R.Contents, lois: seq<Maybe>, i: nat, r: R.Ref)
    requires m.Ok() && Memo(m, content, lois) && i < |lois| && MemoAt(m, content, i, r)
    ensures Memo(m, content, lois[i := Some(r)])
  {
    hide MemoAt;
  }

  lemma MemoEmpty(m: Model, content: R.Contents)
    requires m.Ok()
    ensures Memo(m, content, seq(m.MaxVar() + 1, _ => None))
  {
  }

  /** The node of a literal. */
  function NodeOf(lois: seq<Maybe>, lit: nat): R.Ref
    requires lit / 2 < |lois| && lois[lit / 2].Some?
  {
    var r := lois[lit / 2].r;
    if lit % 2 == 1 then S.Not(r) else r
  }

  lemma NodeMeans(m: Model, content: R.Contents, lois: seq<Maybe>, lit: nat)
    requires m.Ok() && Memo(m, content, lois) && lit / 2 < |lois| && lois[lit / 2].Some?
    ensures FrameOf(m, content, NodeOf(lois, lit), lit, 0) && NodeOf(lois, lit) / 2 in HandlesOf(lois)
  {
    MemoHas(m, content, lois, lit / 2);
    HandlesHas(lois, lit / 2);
    S.NotKnown(content, lois[lit / 2].r);
    hide FrameOf, Memo, S.Known;
    if lit % 2 == 1 {
      FrameNot(m, content, lois[lit / 2].r, 2 * (lit / 2), 0);
    }
  }

  /** Held nodes keep their meaning while other nodes come and go. */
  lemma MemoSurvives(m: Model, st: R.Store, st': R.Store, lois: seq<Maybe>)
    requires m.Ok() && R.Ok(st) && R.Ok(st') && st.dying == {} && st'.dying == {} && R.Agree(st.content, st'.content)
    requires Memo(m, st.content, lois) && HandlesOf(lois) <= st'.handles
    ensures Memo(m, st'.content, lois)
  {
    hide *;
    S.OkWhole(st);
    S.OkWhole(st');
    MemoSize(m, st.content, lois);
    forall i | 0 <= i < |lois| && lois[i].Some? ensures MemoAt(m, st'.content, i, lois[i].r) {
      HandlesHas(lois, i);
      S.ResultLive(st', lois[i].r);
      MemoHas(m, st.content, lois, i);
      MemoAgree(m, st.content, st'.content, i, lois[i].r);
    }
    MemoIf(m, st'.content, lois);
  }

  lemma MemoSize(m: Model, content: R.Contents, lois: seq<Maybe>)
    requires m.Ok() && Memo(m, content, lois)
    ensures |lois| == m.MaxVar() + 1
  {
  }

  lemma MemoIf(m: Model, content: R.Contents, lois: seq<Maybe>)
    requires m.Ok() && |lois| == m.MaxVar() + 1
    requires forall i :: 0 <= i < |lois| && lois[i].Some? ==> MemoAt(m, content, i, lois[i].r)
    ensures Memo(m, content, lois)
  {
    hide MemoAt;
  }

  lemma MemoAgree(m: Model, content: R.Contents, content': R.Contents, i: nat, r: R.Ref)
    requires m.Ok() && S.Whole(content) && S.Whole(content') && R.Agree(content, content')
    requires MemoAt(m, content, i, r) && S.Known(content', r)
    ensures MemoAt(m, content', i, r)
  {
    FrameAgree(m, content, content', r, 2 * i, 0);
    hide FrameOf, S.Whole;
  }

  // ----- the assigned nodes -----

  /** The right-hand side a latch gets at a step. */
  ghost predicate RightFor(m: Model, content: R.Contents, v: nat, s: int, r: R.Ref)
    requires m.Ok()
  {
    m.IsLatch(v) && s >= 0 &&
    if s == 0 then r == m.LatchAt(v).reset && r < 2 else FrameOf(m, content, r, m.LatchAt(v).next, s - 1)
  }

  /** Latches assigned before latch j of step i. */
  predicate Due(m: Model, i: nat, j: nat, v: nat, s: int) {
    m.IsLatch(v) && (0 <= s < i || (s == i && v - m.n - 1 < j)) && (s == 0 ==> m.LatchAt(v).reset < 2)
  }

  ghost predicate AssignedAt(m: Model, content: R.Contents, h: R.Held, i: nat, j: nat, p: nat)
    requires m.Ok()
  {
    h.Node? && p in content && content[p].Var? && Due(m, i, j, content[p].v, content[p].s) &&
    RightFor(m, content, content[p].v, content[p].s, h.r)
  }

  ghost predicate IsAssigned(content: R.Contents, slots: map<R.Slot, R.Held>, v: nat, s: int) {
    exists p: nat :: R.Rhs(p) in slots && p in content && content[p] == R.Var(v, s)
  }

  /** Exactly the latches due are assigned, each its right-hand side. */
  ghost predicate Assigns(m: Model, content: R.Contents, slots: map<R.Slot, R.Held>, i: nat, j: nat)
    requires m.Ok()
  {
    (forall p: nat :: R.Rhs(p) in slots ==> AssignedAt(m, content, slots[R.Rhs(p)], i, j, p)) &&
    forall v: nat, s: int :: Due(m, i, j, v, s) ==> IsAssigned(content, slots, v, s)
  }

  lemma AssignsNone(m: Model, content: R.Contents, slots: map<R.Slot, R.Held>)
    requires m.Ok() && slots == map[]
    ensures Assigns(m, content, slots, 0, 0)
  {
  }

  lemma AssignsNext(m: Model, content: R.Contents, slots: map<R.Slot, R.Held>, i: nat)
    requires m.Ok() && Assigns(m, content, slots, i, |m.latches|)
    ensures Assigns(m, content, slots, i + 1, 0)
  {
    hide RightFor, IsAssigned;
    assert forall v: nat, s: int :: Due(m, i + 1, 0, v, s) <==> Due(m, i, |m.latches|, v, s);
  }

  /** A latch without reset value is not assigned at step 0. */
  lemma AssignsSkip(m: Model, content: R.Contents, slots: map<R.Slot, R.Held>, j: nat)
    requires m.Ok() && Assigns(m, content, slots, 0, j) && j < |m.latches| && m.latches[j].reset > 1
    ensures Assigns(m, content, slots, 0, j + 1)
  {
    hide RightFor, IsAssigned;
    assert forall v: nat, s: int :: Due(m, 0, j + 1, v, s) <==> Due(m, 0, j, v, s);
  }

  lemma NotYet(m: Model, content: R.Contents, slots: map<R.Slot, R.Held>, i: nat, j: nat, lhs: R.Ref)
    requires m.Ok() && Assigns(m, content, slots, i, j) && j < |m.latches| && S.VarAt(content, lhs, m.n + j + 1, i)
    ensures R.Rhs(lhs / 2) !in slots
  {
    hide RightFor, IsAssigned;
    assert R.Rhs(lhs / 2) in slots ==> AssignedAt(m, content, slots[R.Rhs(lhs / 2)], i, j, lhs / 2);
  }

  lemma AssignsOne(m: Model, content: R.Contents, slots: map<R.Slot, R.Held>, i: nat, j: nat, lhs: R.Ref, rhs: R.Ref)
    requires m.Ok() && Assigns(m, content, slots, i, j) && j < |m.latches| && S.VarAt(content, lhs, m.n + j + 1, i)
    requires RightFor(m, content, m.n + j + 1, i, rhs)
    ensures Assigns(m, content, slots[R.Rhs(lhs / 2) := R.Node(rhs)], i, j + 1)
  {
    var slots' := slots[R.Rhs(lhs / 2) := R.Node(rhs)];
    RightDue(m, content, i, j, rhs);
    hide RightFor;
    forall p: nat | R.Rhs(p) in slots' ensures AssignedAt(m, content, slots'[R.Rhs(p)], i, j + 1, p) {
      if p != lhs / 2 {
        assert AssignedAt(m, content, slots[R.Rhs(p)], i, j, p);
      }
    }
    forall v: nat, s: int | Due(m, i, j + 1, v, s) ensures IsAssigned(content, slots', v, s) {
      if v == m.n + j + 1 && s == i {
        assert R.Rhs(lhs / 2) in slots';
      } else {
        assert Due(m, i, j, v, s);
        var p: nat :| R.Rhs(p) in slots && p in content && content[p] == R.Var(v, s);
        assert R.Rhs(p) in slots';
      }
    }
  }

  lemma RightDue(m: Model, content: R.Contents, i: nat, j: nat, rhs: R.Ref)
    requires m.Ok() && j < |m.latches| && RightFor(m, content, m.n + j + 1, i, rhs)
    ensures Due(m, i, j + 1, m.n + j + 1, i)
  {
  }

  /** Assignments survive like all that the stack holds. */
  lemma AssignsSurvive(m: Model, st: R.Store, st': R.Store, i: nat, j: nat)
    requires m.Ok() && R.Ok(st) && R.Ok(st') && st.dying == {} && st'.dying == {} && R.Agree(st.content, st'.content)
    requires Assigns(m, st.content, st.slots, i, j) && st'.slots == st.slots
    ensures Assigns(m, st'.content, st'.slots, i, j)
  {
    hide *;
    S.OkWhole(st);
    S.OkWhole(st');
    S.OkZero(st);
    forall p: nat | R.Rhs(p) in st.slots ensures AssignedAt(m, st'.content, st.slots[R.Rhs(p)], i, j, p) {
      AssignsHas(m, st.content, st.slots, i, j, p);
      SlotLive(st', p);
      AssignedAgree(m, st.content, st'.content, st.slots[R.Rhs(p)], i, j, p);
    }
    forall v: nat, s: int | Due(m, i, j, v, s) ensures IsAssigned(st'.content, st.slots, v, s) {
      AssignsDue(m, st.content, st.slots, i, j, v, s);
      IsAssignedAgree(st, st', v, s);
    }
    AssignsIf(m, st'.content, st'.slots, i, j);
  }

  lemma AssignsHas(m: Model, content: R.Contents, slots: map<R.Slot, R.Held>, i: nat, j: nat, p: nat)
    requires m.Ok() && Assigns(m, content, slots, i, j) && R.Rhs(p) in slots
    ensures AssignedAt(m, content, slots[R.Rhs(p)], i, j, p) && slots[R.Rhs(p)].Node? && p in content
  {
  }

  lemma AssignsDue(m: Model, content: R.Contents, slots: map<R.Slot, R.Held>, i: nat, j: nat, v: nat, s: int)
    requires m.Ok() && Assigns(m, content, slots, i, j) && Due(m, i, j, v, s)
    ensures IsAssigned(content, slots, v, s)
  {
  }

  lemma AssignsIf(m: Model, content: R.Contents, slots: map<R.Slot, R.Held>, i: nat, j: nat)
    requires m.Ok() && forall p: nat :: R.Rhs(p) in slots ==> AssignedAt(m, content, slots[R.Rhs(p)], i, j, p)
    requires forall v: nat, s: int :: Due(m, i, j, v, s) ==> IsAssigned(content, slots, v, s)
    ensures Assigns(m, content, slots, i, j)
  {
    hide AssignedAt, IsAssigned, Due;
  }

  lemma SlotLive(st: R.Store, p: nat)
    requires R.Ok(st) && R.Rhs(p) in st.slots
    ensures p == 0 || p in st.content
    ensures st.slots[R.Rhs(p)].Node? ==> S.Known(st.content, st.slots[R.Rhs(p)].r)
  {
    S.SlotsLive(st);
    hide R.Ok;
    assert R.Live(st, R.Owner(R.Rhs(p)));
  }

  lemma AssignedAgree(m: Model, content: R.Contents, content': R.Contents, h: R.Held, i: nat, j: nat, p: nat)
    requires m.Ok() && S.Whole(content) && S.Whole(content') && R.Agree(content, content') && 0 !in content
    requires AssignedAt(m, content, h, i, j, p) && (p == 0 || p in content') && (h.Node? ==> S.Known(content', h.r))
    ensures AssignedAt(m, content', h, i, j, p)
  {
    hide S.Whole, FrameOf, S.Known, Due;
    var v, s := content[p].v, content[p].s;
    if s > 0 {
      FrameAgree(m, content, content', h.r, m.LatchAt(v).next, s - 1);
    }
  }

  lemma IsAssignedAgree(st: R.Store, st': R.Store, v: nat, s: int)
    requires R.Ok(st') && R.Agree(st.content, st'.content) && st'.slots == st.slots && 0 !in st.content
    requires IsAssigned(st.content, st.slots, v, s)
    ensures IsAssigned(st'.content, st.slots, v, s)
  {
    hide R.Ok;
    var p: nat :| R.Rhs(p) in st.slots && p in st.content && st.content[p] == R.Var(v, s);
    SlotLive(st', p);
    assert R.Rhs(p) in st.slots && p in st'.content;
  }

  // ----- solving the assignments -----

  function StepLevel(v: nat, s: int): nat {
    if s < 0 then 0 else s
  }

  lemma {:induction false} SlicedHeight(content: R.Contents, r: R.Ref, s: int)
    requires S.Whole(content) && S.Sliced(content, r, s) && s >= 0
    ensures S.Height(content, StepLevel, r) <= s + 1
    decreases r / 2
  {
    var p := r / 2;
    if R.IsAnd(content, p) && p != 0 {
      SlicedHeight(content, content[p].c0, s);
      SlicedHeight(content, content[p].c1, s);
    }
  }

  lemma ConstHeight(content: R.Contents, level: (nat, int) -> nat, r: R.Ref)
    requires r < 2
    ensures S.Height(content, level, r) == 0
  {
  }

  /** Every right-hand side lies at an earlier step. */
  lemma AssignsFall(m: Model, st: R.Store, i: nat, j: nat)
    requires m.Ok() && R.Ok(st) && st.dying == {} && Assigns(m, st.content, st.slots, i, j)
    ensures S.Falling(st.content, st.slots, StepLevel)
  {
    hide *;
    S.OkWhole(st);
    forall p: nat | R.Rhs(p) in st.slots ensures S.FallsAt(st.content, st.slots[R.Rhs(p)], StepLevel, p) {
      AssignsHas(m, st.content, st.slots, i, j, p);
      AssignedFalls(m, st.content, st.slots[R.Rhs(p)], i, j, p);
    }
    FallingIf(st.content, st.slots, StepLevel);
  }

  lemma FallingIf(content: R.Contents, slots: map<R.Slot, R.Held>, level: (nat, int) -> nat)
    requires forall p: nat :: R.Rhs(p) in slots ==> S.FallsAt(content, slots[R.Rhs(p)], level, p)
    ensures S.Falling(content, slots, level)
  {
    hide S.FallsAt;
  }

  lemma AssignedFalls(m: Model, content: R.Contents, h: R.Held, i: nat, j: nat, p: nat)
    requires m.Ok() && S.Whole(content) && AssignedAt(m, content, h, i, j, p)
    ensures S.FallsAt(content, h, StepLevel, p)
  {
    hide S.Whole, S.Height, S.Sliced, Due, S.Known, Valued;
    if content[p].s == 0 {
      ConstHeight(content, StepLevel, h.r);
    } else {
      SlicedHeight(content, h.r, content[p].s - 1);
    }
  }

  /** The states of the run solve the assignments. */
  lemma FullSolves(m: Model, content: R.Contents, slots: map<R.Slot, R.Held>, env: S.Env, k: nat)
    requires m.Ok() && Assigns(m, content, slots, k + 1, 0)
    ensures S.Solves(content, S.Assignment(slots), env, Full(m, env, k))
  {
    hide *;
    forall p | p in S.Assignment(slots) && p in content && content[p].Var?
      ensures (content[p].v, content[p].s) in Full(m, env, k) <==>
              S.Val(content, Full(m, env, k), S.Assignment(slots)[p])
    {
      AssignmentAt(slots, p);
      AssignsHas(m, content, slots, k + 1, 0, p);
      FullAt(m, content, slots[R.Rhs(p)], env, k, p);
    }
    forall v: nat, s: int | !S.Assigned(content, S.Assignment(slots), v, s)
      ensures (v, s) in Full(m, env, k) <==> (v, s) in env
    {
      FullElse(m, content, slots, env, k, v, s);
    }
    SolvesIf(content, S.Assignment(slots), env, Full(m, env, k));
  }

  lemma SolvesIf(content: R.Contents, rhs: map<nat, R.Ref>, env: S.Env, full: S.Env)
    requires forall p :: p in rhs && p in content && content[p].Var? ==>
      ((content[p].v, content[p].s) in full <==> S.Val(content, full, rhs[p]))
    requires forall v: nat, s: int :: !S.Assigned(content, rhs, v, s) ==> ((v, s) in full <==> (v, s) in env)
    ensures S.Solves(content, rhs, env, full)
  {
    hide S.Val, S.Assigned;
  }

  lemma AssignmentAt(slots: map<R.Slot, R.Held>, p: nat)
    requires p in S.Assignment(slots)
    ensures R.Rhs(p) in slots && slots[R.Rhs(p)] == R.Node(S.Assignment(slots)[p])
  {
  }

  lemma FullAt(m: Model, content: R.Contents, h: R.Held, env: S.Env, k: nat, p: nat)
    requires m.Ok() && AssignedAt(m, content, h, k + 1, 0, p)
    ensures h.Node? && p in content && content[p].Var?
    ensures (content[p].v, content[p].s) in Full(m, env, k) <==> S.Val(content, Full(m, env, k), h.r)
  {
    var v, s := content[p].v, content[p].s;
    hide O.Val, S.Val, State, Full, FrameOf;
    InFullAt(m, env, k, v, s);
    StateAt(m, env, s, v);
    if s == 0 {
      S.ValNot(content, Full(m, env, k), h.r);
    } else {
      FrameValue(m, content, h.r, m.LatchAt(v).next, s - 1, Full(m, env, k));
      AtFull(m, env, k, s - 1);
    }
  }

  lemma FrameValue(m: Model, content: R.Contents, r: R.Ref, lit: nat, t: int, env: S.Env)
    requires m.Ok() && FrameOf(m, content, r, lit, t)
    ensures S.Val(content, env, r) == m.Val(At(env, t), lit)
  {
    hide S.Val, O.Val, S.Sliced, S.Known, At;
  }

  lemma StateAt(m: Model, env: S.Env, s: nat, v: nat)
    requires m.Ok()
    ensures v in State(m, env, s) <==> Holds(m, env, s, v)
  {
    hide Holds;
  }

  lemma InFullAt(m: Model, env: S.Env, k: nat, v: nat, s: int)
    requires m.Ok()
    ensures (v, s) in Full(m, env, k) <==> InFull(m, env, k, v, s)
  {
    hide InFull;
  }

  lemma DueAssigned(m: Model, content: R.Contents, slots: map<R.Slot, R.Held>, i: nat, j: nat, v: nat, s: int)
    requires m.Ok() && Assigns(m, content, slots, i, j)
    ensures Due(m, i, j, v, s) ==> S.Assigned(content, S.Assignment(slots), v, s)
  {
    hide Due, RightFor, FrameOf;
    if Due(m, i, j, v, s) {
      assert IsAssigned(content, slots, v, s);
      var p: nat :| R.Rhs(p) in slots && p in content && content[p] == R.Var(v, s);
      assert AssignedAt(m, content, slots[R.Rhs(p)], i, j, p);
      assert p in S.Assignment(slots);
    }
  }

  lemma FullElse(m: Model, content: R.Contents, slots: map<R.Slot, R.Held>, env: S.Env, k: nat, v: nat, s: int)
    requires m.Ok() && Assigns(m, content, slots, k + 1, 0) && !S.Assigned(content, S.Assignment(slots), v, s)
    ensures (v, s) in Full(m, env, k) <==> (v, s) in env
  {
    DueAssigned(m, content, slots, k + 1, 0, v, s);
    hide O.Val, S.Val, State, Full, Assigns, S.Assigned, S.Assignment;
    InFullAt(m, env, k, v, s);
    if 0 <= s <= k {
      StateAt(m, env, s, v);
    }
  }

  // ----- build -----

  ghost predicate AllBuilt(lois: seq<Maybe>) {
    forall i :: 0 <= i < |lois| ==> lois[i].Some?
  }

  /** Memo and assignments survive while their nodes stay held. */
  lemma ReadySurvives(m: Model, st: R.Store, st': R.Store, lois: seq<Maybe>, i: nat, j: nat, extra: multiset<nat>)
    requires m.Ok() && R.Ok(st) && R.Ok(st') && st.dying == {} && st'.dying == {} && R.Agree(st.content, st'.content)
    requires Memo(m, st.content, lois) && st'.handles == HandlesOf(lois) + extra && st'.slots == st.slots
    requires Assigns(m, st.content, st.slots, i, j)
    ensures Memo(m, st'.content, lois) && Assigns(m, st'.content, st'.slots, i, j)
  {
    hide *;
    MemoSurvives(m, st, st', lois);
    AssignsSurvive(m, st, st', i, j);
  }

  /** Some step before t makes the literal true. */
  ghost predicate AnyOf(m: Model, content: R.Contents, r: R.Ref, lit: nat, t: nat)
    requires m.Ok()
  {
    S.Known(content, r) && forall env: S.Env :: S.Val(content, env, r) <==> TrueAt(m, env, lit, t)
  }

  ghost predicate TrueAt(m: Model, env: S.Env, lit: nat, t: nat)
    requires m.Ok()
  {
    exists i: nat :: i < t && m.Val(At(env, i), lit)
  }

  lemma AnyNone(m: Model, content: R.Contents, lit: nat)
    requires m.Ok()
    ensures AnyOf(m, content, 0, lit, 0)
  {
  }

  lemma AnyMore(m: Model, content: R.Contents, r: R.Ref, shifted: R.Ref, res: R.Ref, lit: nat, t: nat)
    requires m.Ok() && AnyOf(m, content, r, lit, t) && FrameOf(m, content, shifted, lit, t)
    requires S.Disjoins(content, res, r, shifted) && S.Known(content, res)
    ensures AnyOf(m, content, res, lit, t + 1)
  {
    hide S.Val, O.Val, S.Sliced, S.Known, At, m.Val;
    forall env: S.Env ensures S.Val(content, env, res) <==> TrueAt(m, env, lit, t + 1) {
      assert TrueAt(m, env, lit, t + 1) <==> TrueAt(m, env, lit, t) || m.Val(At(env, t), lit);
    }
  }

  lemma AnyAgree(m: Model, content: R.Contents, content': R.Contents, r: R.Ref, lit: nat, t: nat)
    requires m.Ok() && S.Whole(content) && S.Whole(content') && R.Agree(content, content')
    requires AnyOf(m, content, r, lit, t) && S.Known(content', r)
    ensures AnyOf(m, content', r, lit, t)
  {
    hide S.Whole, R.Agree, S.Known, S.Val, TrueAt;
    forall env: S.Env ensures S.Val(content', env, r) <==> TrueAt(m, env, lit, t) {
      S.ValAgree(content, content', env, r);
    }
  }

  /** The expansion: true exactly if the output is true within k steps. */
  ghost predicate Expands(m: Model, content: R.Contents, r: R.Ref, k: nat)
    requires m.Ok()
  {
    forall env: S.Env :: S.Val(content, env, r) <==> TrueBy(m, env, k)
  }

  lemma ExpandsReplaced(m: Model, before: R.Contents, slots: map<R.Slot, R.Held>, content: R.Contents, r: R.Ref,
                        res: R.Ref, k: nat)
    requires m.Ok() && Assigns(m, before, slots, k + 1, 0) && AnyOf(m, before, r, m.output, k + 1)
    requires S.Replaced(before, S.Assignment(slots), content, r, res)
    ensures Expands(m, content, res, k)
  {
    hide S.Val, O.Val, m.Val, State, Full, Assigns, S.Assignment, S.Solves, TrueAt, TrueBy, S.Known;
    forall env: S.Env ensures S.Val(content, env, res) <==> TrueBy(m, env, k) {
      FullSolves(m, before, slots, env, k);
      assert S.Solves(before, S.Assignment(slots), env, Full(m, env, k));
      TrueFull(m, env, k);
    }
  }

  lemma TrueFull(m: Model, env: S.Env, k: nat)
    requires m.Ok()
    ensures TrueAt(m, Full(m, env, k), m.output, k + 1) <==> TrueBy(m, env, k)
  {
    hide O.Val, m.Val, State, Full, At;
    forall t: nat | t <= k ensures At(Full(m, env, k), t) == State(m, env, t) {
      AtFull(m, env, k, t);
    }
    if t: nat :| t < k + 1 && m.Val(At(Full(m, env, k), t), m.output) {
      assert t <= k && m.Val(State(m, env, t), m.output);
    }
    if t: nat :| t <= k && m.Val(State(m, env, t), m.output) {
      assert t < k + 1 && m.Val(At(Full(m, env, k), t), m.output);
    }
  }

  lemma ExpandsAgree(m: Model, content: R.Contents, content': R.Contents, r: R.Ref, k: nat)
    requires m.Ok() && S.Whole(content) && S.Whole(content') && R.Agree(content, content')
    requires Expands(m, content, r, k) && S.Known(content, r) && S.Known(content', r)
    ensures Expands(m, content', r, k)
  {
    hide S.Whole, R.Agree, S.Known, S.Val, TrueBy;
    forall env: S.Env ensures S.Val(content', env, r) <==> TrueBy(m, env, k) {
      S.ValAgree(content, content', env, r);
    }
  }

  /** The expansion is satisfiable exactly if the output is reachable within k steps. */
  lemma ExpandsReachable(m: Model, content: R.Contents, r: R.Ref, k: nat)
    requires m.Ok() && Expands(m, content, r, k)
    ensures X.NodeCanBeTrue(content, r) <==> Reachable(m, k)
  {
    hide TrueBy, Reachable;
    TrueByReachable(m, k);
    if Reachable(m, k) {
      var env: S.Env :| TrueBy(m, env, k);
      assert S.Val(content, env, r);
    }
  }

  /** The circuit written out is satisfiable exactly if the output of the model is
      reachable within k steps. */
  lemma TargetReachable(m: Model, content: R.Contents, r: R.Ref, k: nat, t: X.Target, defs: A.Defs)
    requires m.Ok() && Expands(m, content, r, k) && X.Renders(t, defs, content, r)
    ensures X.CanBeTrue(t, defs) <==> Reachable(m, k)
  {
    hide *;
    ExpandsReachable(m, content, r, k);
    X.RendersSatisfiable(t, defs, content, r);
  }

  class Unroller {
    const m: Model
    const mgr: S.Manager
    var lois: seq<Maybe>

    /** The memo holds its nodes; extra are the temporaries. */
    ghost predicate Holding(extra: multiset<nat>)
      reads this`lois, mgr
    {
      mgr.Valid() && m.Ok() && Memo(m, mgr.content, lois) && mgr.handles == HandlesOf(lois) + extra
    }

    ghost predicate Idle()
      reads mgr
    {
      mgr.cachedStack == [] && S.Stacked(mgr.slots, []) && S.Pushed(mgr.slots, mgr.assignedStack) &&
        OnlyRhs(mgr.slots) &&
      mgr.indexStack == [] && mgr.idx == map[]
    }

    /** Everything is built and the latches before latch j of step i are assigned. */
    ghost predicate Ready(extra: multiset<nat>, i: nat, j: nat)
      reads this`lois, mgr
    {
      Holding(extra) && Idle() && AllBuilt(lois) && Assigns(m, mgr.content, mgr.slots, i, j)
    }

    constructor (model: Model)
      requires model.Ok()
      ensures m == model && fresh(mgr) && Holding(multiset{}) && Idle() && mgr.slots == map[]
    {
      m := model;
      mgr := new S.Manager();
      lois := seq(model.MaxVar() + 1, _ => None);
      new;
      HandlesNone(model.MaxVar() + 1);
      MemoEmpty(m, mgr.content);
      NothingStacked();
    }

    lemma NothingStacked()
      requires mgr.cachedStack == [] && mgr.assignedStack == [] && mgr.slots == map[]
      requires mgr.indexStack == [] && mgr.idx == map[]
      ensures Idle()
    {
    }

    /** build_rec */
    method BuildRec(lit: nat, ghost extra: multiset<nat>) returns (res: R.Ref)
      requires Holding(extra) && lit / 2 <= m.MaxVar()
      modifies this`lois, mgr`content, mgr`ref, mgr`next, mgr`handles
      ensures Holding(extra) && lois[lit / 2].Some? && res == NodeOf(lois, lit)
      ensures forall i :: 0 <= i < |lois| && (i > lit / 2 || old(lois)[i].Some?) ==> lois[i] == old(lois)[i]
      ensures old(lois)[lit / 2].Some? ==>
              lois == old(lois) && mgr.content == old(mgr.content) && mgr.handles == old(mgr.handles)
      decreases lit / 2, 1
    {
      hide R.Ok, S.Unique, Memo, S.Val, FrameOf, HandlesOf, O.Ordered, MemoAt;
      var idx := lit / 2;
      MemoSize(m, mgr.content, lois);
      if lois[idx].None? {
        var r := BuildNew(idx, extra);
        MemoSize(m, mgr.content, lois);
        MemoSet(m, mgr.content, lois, idx, r);
        HandlesSet(lois, idx, r);
        BagSwapped(HandlesOf(lois), multiset{r / 2}, extra);
        lois := lois[idx := Some(r)];
      }
      res := if lit % 2 == 1 then S.Not(lois[idx].r) else lois[idx].r;
    }

    /** The node of a variable seen for the first time. */
    method BuildNew(idx: nat, ghost extra: multiset<nat>) returns (r: R.Ref)
      requires Holding(extra) && idx <= m.MaxVar() && lois[idx].None?
      modifies this`lois, mgr`content, mgr`ref, mgr`next, mgr`handles
      ensures mgr.Valid() && Memo(m, mgr.content, lois) && mgr.handles == HandlesOf(lois) + extra + multiset{r / 2}
      ensures MemoAt(m, mgr.content, idx, r)
      ensures forall x :: 0 <= x < |lois| && (x >= idx || old(lois)[x].Some?) ==> lois[x] == old(lois)[x]
      decreases idx, 0, 1
    {
      hide R.Ok, S.Unique, Memo, S.Val, FrameOf, HandlesOf, O.Ordered;
      MemoSize(m, mgr.content, lois);
      if idx == 0 {
        mgr.Inc(0);
        r := 0;
        FrameConst(m, mgr.content, 0);
      } else if idx > m.Leaves() {
        r := BuildGate(idx - m.Leaves() - 1, extra);
      } else {
        ghost var st := mgr.St();
        r := mgr.NewVar(idx, 0);
        S.GrowAgree(st.content, mgr.content);
        Grown(st, mgr.St(), extra, r);
        S.OkZero(mgr.St());
        FrameVar(m, mgr.content, r, idx, 0);
      }
    }

    /** The memo survives a new node. */
    lemma Grown(st: R.Store, st': R.Store, extra: multiset<nat>, r: R.Ref)
      requires m.Ok() && R.Ok(st) && R.Ok(st') && st.dying == {} && st'.dying == {} && R.Agree(st.content, st'.content)
      requires Memo(m, st.content, lois) && st.handles == HandlesOf(lois) + extra &&
               st'.handles == st.handles + multiset{r / 2}
      ensures Memo(m, st'.content, lois)
    {
      hide *;
      MemoSurvives(m, st, st', lois);
    }

    method BuildGate(i: nat, ghost extra: multiset<nat>) returns (r: R.Ref)
      requires Holding(extra) && i < |m.ands| && lois[m.Leaves() + i + 1].None?
      modifies this`lois, mgr`content, mgr`ref, mgr`next, mgr`handles
      ensures mgr.Valid() && Memo(m, mgr.content, lois) && mgr.handles == HandlesOf(lois) + extra + multiset{r / 2}
      ensures MemoAt(m, mgr.content, m.Leaves() + i + 1, r)
      ensures forall x :: 0 <= x < |lois| && (x > m.Leaves() + i || old(lois)[x].Some?) ==> lois[x] == old(lois)[x]
      decreases m.Leaves() + i + 1, 0, 0
    {
      hide R.Ok, S.Unique, Memo, S.Val, FrameOf, HandlesOf, O.Ordered, S.Conjoins;
      O.OrderedAt(m.Leaves(), m.ands, i);
      var gate := m.ands[i];
      var l := BuildRec(gate.rhs0, extra);
      MemoSize(m, mgr.content, lois);
      var r1 := BuildRec(gate.rhs1, extra);
      MemoSize(m, mgr.content, lois);
      NodeMeans(m, mgr.content, lois, gate.rhs0);
      NodeMeans(m, mgr.content, lois, gate.rhs1);
      FrameKnown(m, mgr.content, l, gate.rhs0, 0);
      FrameKnown(m, mgr.content, r1, gate.rhs1, 0);
      ghost var st := mgr.St();
      r := mgr.Conjunction(l, r1);
      S.GrowAgree(st.content, mgr.content);
      Grown(st, mgr.St(), extra, r);
      NodeMeans(m, mgr.content, lois, gate.rhs0);
      NodeMeans(m, mgr.content, lois, gate.rhs1);
      FrameGate(m, mgr.content, i, l, r1, r);
    }

    /** All variables in turn. */
    method BuildAll()
      requires Holding(multiset{}) && Idle() && mgr.slots == map[]
      modifies this`lois, mgr`content, mgr`ref, mgr`next, mgr`handles
      ensures Ready(multiset{}, 0, 0)
    {
      hide R.Ok, S.Unique, Memo, S.Val, FrameOf, HandlesOf, O.Ordered;
      MemoSize(m, mgr.content, lois);
      for i := 0 to m.MaxVar() + 1
        invariant Holding(multiset{}) && |lois| == m.MaxVar() + 1
        invariant forall x :: 0 <= x < i ==> lois[x].Some?
      {
        var r := BuildRec(2 * i, multiset{});
        MemoSize(m, mgr.content, lois);
      }
      AssignsNone(m, mgr.content, mgr.slots);
    }

    /** The node of a literal moved to step t. */
    method FrameNode(lit: nat, t: nat, ghost extra: multiset<nat>, ghost i: nat, ghost j: nat) returns (r: R.Ref)
      requires Ready(extra, i, j) && lit / 2 <= m.MaxVar()
      modifies this`lois, mgr`content, mgr`ref, mgr`slots, mgr`cachedStack, mgr`next, mgr`handles, mgr`dying
      ensures Ready(extra + multiset{r / 2}, i, j) && lois == old(lois) && S.Within(old(mgr.content), mgr.content)
      ensures FrameOf(m, mgr.content, r, lit, t) && mgr.slots == old(mgr.slots)
      ensures lit % 2 == 0 && 0 < lit / 2 <= m.Leaves() ==> S.VarAt(mgr.content, r, lit / 2, t)
    {
      hide R.Ok, S.Unique, Memo, S.Val, FrameOf, HandlesOf, O.Ordered, S.Translates, Assigns, S.Stacked, S.Pushed,
        S.Within, MemoAt, S.VarAt;
      MemoSize(m, mgr.content, lois);
      ghost var content0 := mgr.content;
      var node := BuildRec(lit, extra);
      NodeMeans(m, mgr.content, lois, lit);
      FrameKnown(m, mgr.content, node, lit, 0);
      ghost var st := mgr.St();
      NodeVar(m, mgr.content, lois, lit);
      r := mgr.TimeShift(node, t);
      S.GrowAgree(st.content, mgr.content);
      BagStep(HandlesOf(lois), extra, r / 2);
      ReadySurvives(m, st, mgr.St(), lois, i, j, extra + multiset{r / 2});
      NodeMeans(m, mgr.content, lois, lit);
      FrameShift(m, mgr.content, node, lit, 0, t, r);
      NodeVar(m, mgr.content, lois, lit);
      ShiftedVarAt(mgr.content, node, lit / 2, t, r);
    }

    /** A latch gets its reset value. */
    method AssignReset(j: nat)
      requires Ready(multiset{}, 0, j) && j < |m.latches|
      modifies this`lois, mgr
      ensures Ready(multiset{}, 0, j + 1) && lois == old(lois)
    {
      hide R.Ok, S.Unique, Memo, S.Val, FrameOf, HandlesOf, O.Ordered, Assigns, S.Pushed, S.Stacked, MemoAt, S.VarAt,
        OnlyRhs;
      var latch := m.latches[j];
      LatchLit(m, j);
      MemoSize(m, mgr.content, lois);
      var lhs := BuildRec(latch.lit, multiset{});
      if latch.reset > 1 {
        AssignsSkip(m, mgr.content, mgr.slots, j);
      } else {
        NodeVar(m, mgr.content, lois, latch.lit);
        AssignConst(j, lhs, if latch.reset != 0 then 1 else 0);
      }
    }

    method AssignConst(j: nat, lhs: R.Ref, rhs: R.Ref)
      requires Ready(multiset{}, 0, j) && j < |m.latches| && rhs == m.latches[j].reset < 2
      requires S.VarAt(mgr.content, lhs, m.n + j + 1, 0)
      modifies mgr
      ensures Ready(multiset{}, 0, j + 1)
    {
      hide R.Ok, S.Unique, Memo, S.Val, FrameOf, HandlesOf, O.Ordered, Assigns, S.Pushed, S.Stacked, MemoAt, S.VarAt,
        OnlyRhs, S.Within, AllBuilt;
      mgr.Inc(rhs);
      NotYet(m, mgr.content, mgr.slots, 0, j, lhs);
      VarParts(mgr.content, lhs, m.n + j + 1, 0);
      ghost var slots := mgr.slots;
      mgr.Assign(lhs, rhs);
      StillStacked(slots, R.Rhs(lhs / 2), R.Node(rhs));
      AssignsOne(m, mgr.content, slots, 0, j, lhs, rhs);
      ghost var st := mgr.St();
      BagFirst(HandlesOf(lois) + multiset{}, rhs / 2);
      mgr.Drop(rhs);
      S.GrowAgree(mgr.content, st.content);
      AgreeBack(mgr.content, st.content);
      ReadySurvives(m, st, mgr.St(), lois, 0, j + 1, multiset{});
    }

    /** A latch at step i gets its next state at step i - 1. */
    method AssignStep(i: nat, j: nat)
      requires Ready(multiset{}, i, j) && 1 <= i && j < |m.latches|
      modifies this`lois, mgr
      ensures Ready(multiset{}, i, j + 1) && lois == old(lois)
    {
      hide R.Ok, S.Unique, Memo, S.Val, FrameOf, HandlesOf, O.Ordered, Assigns, S.Pushed, S.Stacked, OnlyRhs, AllBuilt,
        MemoAt, S.VarAt, S.Within;
      var latch := m.latches[j];
      LatchLit(m, j);
      var lhs := FrameNode(latch.lit, i, multiset{}, i, j);
      ghost var content1 := mgr.content;
      var rhs := FrameNode(latch.next, i - 1, multiset{} + multiset{lhs / 2}, i, j);
      VarStays(content1, mgr.content, lhs, m.n + j + 1, i);
      NotYet(m, mgr.content, mgr.slots, i, j, lhs);
      VarParts(mgr.content, lhs, m.n + j + 1, i);
      FrameKnown(m, mgr.content, rhs, latch.next, i - 1);
      ghost var slots := mgr.slots;
      mgr.Assign(lhs, rhs);
      StillStacked(slots, R.Rhs(lhs / 2), R.Node(rhs));
      RightStep(m, mgr.content, i, j, rhs);
      AssignsOne(m, mgr.content, slots, i, j, lhs, rhs);
      Release(lhs, rhs, i, j + 1);
    }

    /** The two temporaries are dropped. */
    method Release(lhs: R.Ref, rhs: R.Ref, ghost i: nat, ghost j: nat)
      requires Ready(multiset{} + multiset{lhs / 2} + multiset{rhs / 2}, i, j)
      modifies mgr`content, mgr`ref, mgr`handles, mgr`dying
      ensures Ready(multiset{}, i, j)
    {
      hide R.Ok, S.Unique, Memo, HandlesOf, O.Ordered, Assigns, S.Pushed, S.Stacked, S.Within, OnlyRhs, AllBuilt;
      ghost var st := mgr.St();
      BagTwo(HandlesOf(lois), lhs / 2, rhs / 2);
      mgr.DropTwo(lhs, rhs, HandlesOf(lois));
      S.GrowAgree(mgr.content, st.content);
      AgreeBack(mgr.content, st.content);
      ReadySurvives(m, st, mgr.St(), lois, i, j, multiset{});
    }

    /** The disjunction of the output over the steps up to k. */
    method Outputs(k: nat) returns (res: R.Ref)
      requires Ready(multiset{}, k + 1, 0)
      modifies this`lois, mgr
      ensures Ready(multiset{res / 2}, k + 1, 0) && AnyOf(m, mgr.content, res, m.output, k + 1) && lois == old(lois)
    {
      hide R.Ok, S.Unique, Memo, S.Val, FrameOf, HandlesOf, O.Ordered, Assigns, S.Pushed, S.Stacked, MemoAt, S.VarAt,
        S.Within, AnyOf, OnlyRhs, AllBuilt;
      ghost var st0 := mgr.St();
      mgr.Inc(0);
      res := 0;
      AnyNone(m, mgr.content, m.output);
      for i := 0 to k + 1
        invariant Ready(multiset{res / 2}, k + 1, 0) && AnyOf(m, mgr.content, res, m.output, i) && lois == old(lois)
      {
        res := OneOutput(k, i, res);
      }
    }

    /** The output at step i joins the disjunction. */
    method OneOutput(k: nat, i: nat, res: R.Ref) returns (tmp: R.Ref)
      requires Ready(multiset{res / 2}, k + 1, 0) && AnyOf(m, mgr.content, res, m.output, i)
      modifies this`lois, mgr
      ensures Ready(multiset{tmp / 2}, k + 1, 0) && AnyOf(m, mgr.content, tmp, m.output, i + 1) && lois == old(lois)
    {
      hide R.Ok, S.Unique, Memo, S.Val, FrameOf, HandlesOf, O.Ordered, Assigns, S.Pushed, S.Stacked, MemoAt, S.VarAt,
        S.Within, AnyOf, S.Disjoins, OnlyRhs, AllBuilt;
      ghost var st0 := mgr.St();
      var shifted := FrameNode(m.output, i, multiset{res / 2}, k + 1, 0);
      ghost var st1 := mgr.St();
      AnyKept(m, st0, st1, res, m.output, i);
      FrameKnown(m, mgr.content, shifted, m.output, i);
      tmp := mgr.Disjunction(res, shifted);
      ghost var st2 := mgr.St();
      AnyJoined(m, st1, st2, res, shifted, tmp, m.output, i);
      BagThree(HandlesOf(lois), res / 2, shifted / 2, tmp / 2);
      mgr.Release2(shifted, res, tmp, HandlesOf(lois));
      AnySettled(m, st1, st2, mgr.St(), lois, k, tmp, i + 1);
    }

    /** build */
    method Build(k: nat) returns (res: R.Ref)
      requires Holding(multiset{}) && Idle() && mgr.slots == map[]
      modifies this`lois, mgr
      ensures Holding(multiset{res / 2}) && Idle() && mgr.slots == map[] && AllBuilt(lois)
      ensures Expands(m, mgr.content, res, k) && S.Known(mgr.content, res)
    {
      hide R.Ok, S.Unique, Memo, S.Val, FrameOf, HandlesOf, O.Ordered, Assigns, S.Pushed, S.Stacked, MemoAt, S.VarAt,
        S.Within, AnyOf, Expands, S.Falling, S.Replaced, OnlyRhs, AllBuilt;
      BuildAll();
      for j := 0 to |m.latches|
        invariant Ready(multiset{}, 0, j)
      {
        AssignReset(j);
      }
      AssignsNext(m, mgr.content, mgr.slots, 0);
      for i := 1 to k + 1
        invariant Ready(multiset{}, i, 0)
      {
        for j := 0 to |m.latches|
          invariant Ready(multiset{}, i, j)
        {
          AssignStep(i, j);
        }
        AssignsNext(m, mgr.content, mgr.slots, i);
      }
      var all := Outputs(k);
      res := Solve(k, all);
    }

    /** expand: the cone of the result is numbered, copied and released again. */
    method Expand(res: R.Ref) returns (t: X.Target, ghost defs: A.Defs)
      requires Holding(multiset{res / 2}) && Idle() && mgr.slots == map[] && S.Known(mgr.content, res)
      modifies mgr
      ensures Holding(multiset{res / 2}) && mgr.slots == map[] && mgr.content == old(mgr.content)
      ensures X.Renders(t, defs, mgr.content, res)
    {
      hide R.Ok, S.Unique, Memo, HandlesOf, S.Within, S.Numbered, S.OnlyIndices, X.Renders, S.Cone, S.Stacked, S.Pushed,
        OnlyRhs;
      ghost var st0 := mgr.St();
      NoIndices(mgr.content);
      mgr.AssignIndices(res);
      var view := X.View(mgr.content, mgr.slots, mgr.indexStack, mgr.idx);
      t, defs := CopyOut(view, res, mgr.St());
      ghost var st1 := mgr.St();
      mgr.ResetIndices();
      S.IndicesGone(st0, st1, mgr.St());
    }

    method CopyOut(view: X.View, res: R.Ref, ghost st: R.Store) returns (t: X.Target, ghost defs: A.Defs)
      requires R.Ok(st) && st.content == view.content && S.Unique(view.content) && S.Known(view.content, res)
      requires S.Numbered(view.content, view.slots, view.stack, view.idx)
      requires S.Elements(view.stack) == S.Elements([]) + S.Cone(view.content, res)
      ensures X.Renders(t, defs, view.content, res)
    {
      hide R.Ok, S.Unique, S.Numbered, X.Renders, S.Cone, X.Emitted, X.Complete, X.Extends, X.View.Ok, X.Full;
      ViewOk(view, st, res);
      var copier := new X.Copier(view);
      X.EmittedNone(view, view.IndexOf(res / 2) + 1);
      copier.Copy(res);
      t := X.Target(copier.inputs, copier.ands, view.LitOf(res));
      if res < 2 {
        X.ConstantCopied(view, copier.aigs, copier.inputs, copier.ands);
        defs := map[];
        X.ConstantRenders(view.content, res);
      } else {
        defs := X.AllDefs(view);
        X.CopyFull(view, copier.aigs, copier.inputs, copier.ands, res, t.output);
        X.FullRenders(view, t, res);
      }
    }

    /** The end of main: the result and the memo are released, and no node is left. */
    method Finish(res: R.Ref)
      requires Holding(multiset{res / 2}) && AllBuilt(lois) && mgr.slots == map[]
      modifies mgr`content, mgr`ref, mgr`handles, mgr`dying
      ensures mgr.Valid() && mgr.CurrentNodes() == 0
    {
      hide R.Ok, S.Unique, HandlesOf, S.Within, S.Manager.CurrentNodes;
      BagFirst(HandlesOf(lois), res / 2);
      mgr.Drop(res);
      assert lois[0..] == lois;
      for i := 0 to |lois|
        invariant mgr.Valid() && mgr.handles == HandlesOf(lois[i..])
      {
        HandlesFirst(lois[i..]);
        assert lois[i..][1..] == lois[i + 1..] && lois[i..][0] == lois[i];
        BagFirst(HandlesOf(lois[i + 1..]), lois[i].r / 2);
        mgr.Drop(lois[i].r);
      }
      HandlesNothing();
      mgr.NoneLeft();
    }

    /** The assignments are substituted and forgotten. */
    method Solve(k: nat, all: R.Ref) returns (res: R.Ref)
      requires Ready(multiset{all / 2}, k + 1, 0) && AnyOf(m, mgr.content, all, m.output, k + 1)
      modifies mgr
      ensures Holding(multiset{res / 2}) && Idle() && mgr.slots == map[] && Expands(m, mgr.content, res, k) &&
              S.Known(mgr.content, res)
    {
      hide R.Ok, S.Unique, Memo, S.Val, FrameOf, HandlesOf, O.Ordered, Assigns, S.Pushed, S.Stacked, MemoAt, S.VarAt,
        S.Within, AnyOf, Expands, S.Falling, S.Replaced, OnlyRhs, AllBuilt;
      ghost var st0 := mgr.St();
      AssignsFall(m, st0, k + 1, 0);
      res := mgr.Substitute(all, StepLevel);
      ghost var st1 := mgr.St();
      ExpandsReplaced(m, st0.content, st0.slots, st1.content, all, res, k);
      SlotsEmpty(st0.slots, st1.slots);
      BagSwap(HandlesOf(lois), all / 2, res / 2);
      mgr.Drop(all);
      Solved(m, st0, st1, mgr.St(), lois, k, res);
    }
  }

  /** Memo and result survive the substitution and the loss of the unsolved disjunction. */
  lemma Solved(m: Model, st0: R.Store, st1: R.Store, st2: R.Store, lois: seq<Maybe>, k: nat, res: R.Ref)
    requires m.Ok() && R.Ok(st0) && R.Ok(st1) && R.Ok(st2) && st0.dying == {} && st1.dying == {} && st2.dying == {}
    requires R.Agree(st0.content, st1.content) && S.Within(st2.content, st1.content) && Memo(m, st0.content, lois)
    requires HandlesOf(lois) <= st1.handles && st2.handles == HandlesOf(lois) + multiset{res / 2}
    requires Expands(m, st1.content, res, k) && S.Known(st1.content, res)
    ensures Memo(m, st2.content, lois) && Expands(m, st2.content, res, k) && S.Known(st2.content, res)
  {
    hide *;
    S.GrowAgree(st2.content, st1.content);
    AgreeBack(st2.content, st1.content);
    S.ResultLive(st2, res);
    S.OkWhole(st1);
    S.OkWhole(st2);
    ExpandsAgree(m, st1.content, st2.content, res, k);
    MemoSurvives(m, st0, st1, lois);
    MemoSurvives(m, st1, st2, lois);
  }

  lemma FrameKnown(m: Model, content: R.Contents, r: R.Ref, lit: nat, t: int)
    requires m.Ok() && FrameOf(m, content, r, lit, t)
    ensures S.Known(content, r)
  {
  }

  lemma LatchLit(m: Model, j: nat)
    requires m.Ok() && j < |m.latches|
    ensures m.latches[j].lit == 2 * (m.n + j + 1) && m.latches[j].lit / 2 == m.n + j + 1 &&
            m.latches[j].next / 2 <= m.MaxVar()
  {
  }

  /** The memo keeps leaves as plain variables. */
  lemma NodeVar(m: Model, content: R.Contents, lois: seq<Maybe>, lit: nat)
    requires m.Ok() && Memo(m, content, lois) && lit / 2 < |lois| && lois[lit / 2].Some?
    ensures lit % 2 == 0 && 0 < lit / 2 <= m.Leaves() ==> S.VarAt(content, NodeOf(lois, lit), lit / 2, 0)
  {
    MemoHas(m, content, lois, lit / 2);
  }

  lemma ShiftedVarAt(content: R.Contents, node: R.Ref, v: nat, t: int, r: R.Ref)
    requires S.Translates(content, S.Shift(t), node, r)
    ensures S.VarAt(content, node, v, 0) ==> S.VarAt(content, r, v, t)
  {
    hide S.Same, S.MovesSlices, S.VarAt;
    assert S.MovesVar(content, t, node, r);
    if S.VarAt(content, node, v, 0) {
      assert S.VarAt(content, r, v, 0 + t);
    }
  }

  lemma VarParts(content: R.Contents, r: R.Ref, v: nat, s: int)
    requires S.VarAt(content, r, v, s)
    ensures r % 2 == 0 && r / 2 in content && S.Known(content, r)
  {
  }

  lemma VarStays(before: R.Contents, after: R.Contents, r: R.Ref, v: nat, s: int)
    requires S.VarAt(before, r, v, s) && S.Within(before, after)
    ensures S.VarAt(after, r, v, s)
  {
  }

  lemma StillStacked(slots: map<R.Slot, R.Held>, slot: R.Slot, h: R.Held)
    requires S.Stacked(slots, []) && OnlyRhs(slots) && slot.Rhs?
    ensures S.Stacked(slots[slot := h], []) && OnlyRhs(slots[slot := h])
  {
  }

  /** The stacks hold assignments only. */
  ghost predicate OnlyRhs(slots: map<R.Slot, R.Held>) {
    forall slot :: slot in slots ==> slot.Rhs?
  }

  lemma SlotsEmpty(slots: map<R.Slot, R.Held>, after: map<R.Slot, R.Held>)
    requires OnlyRhs(slots) && after == map slot | slot in slots && !slot.Rhs? :: slots[slot]
    ensures after == map[] && S.Stacked(after, []) && OnlyRhs(after) && S.Pushed(after, [])
  {
    forall slot ensures slot !in after {
    }
  }

  lemma RightStep(m: Model, content: R.Contents, i: nat, j: nat, rhs: R.Ref)
    requires m.Ok() && 1 <= i && j < |m.latches| && FrameOf(m, content, rhs, m.latches[j].next, i - 1)
    ensures RightFor(m, content, m.n + j + 1, i, rhs)
  {
  }

  lemma AgreeBack(a: R.Contents, b: R.Contents)
    requires R.Agree(a, b)
    ensures R.Agree(b, a)
  {
  }

  lemma AnyKept(m: Model, st: R.Store, st': R.Store, r: R.Ref, lit: nat, t: nat)
    requires m.Ok() && R.Ok(st) && R.Ok(st') && st.dying == {} && st'.dying == {} && S.Within(st.content, st'.content)
    requires AnyOf(m, st.content, r, lit, t)
    ensures AnyOf(m, st'.content, r, lit, t) && S.Known(st'.content, r)
  {
    AnyKnown(m, st.content, r, lit, t);
    hide *;
    S.OkWhole(st);
    S.OkWhole(st');
    S.GrowAgree(st.content, st'.content);
    S.KnownMore(st.content, st'.content, r);
    AnyAgree(m, st.content, st'.content, r, lit, t);
  }

  lemma AnyJoined(m: Model, st1: R.Store, st2: R.Store, res: R.Ref, shifted: R.Ref, tmp: R.Ref, lit: nat, i: nat)
    requires m.Ok() && R.Ok(st1) && R.Ok(st2) && st1.dying == {} && st2.dying == {} &&
             S.Within(st1.content, st2.content)
    requires AnyOf(m, st1.content, res, lit, i) && FrameOf(m, st1.content, shifted, lit, i)
    requires S.Disjoins(st2.content, tmp, res, shifted) && S.Known(st2.content, tmp)
    ensures AnyOf(m, st2.content, tmp, lit, i + 1)
  {
    hide *;
    AnyKept(m, st1, st2, res, lit, i);
    FrameKept(m, st1, st2, shifted, lit, i);
    AnyMore(m, st2.content, res, shifted, tmp, lit, i);
  }

  /** After the temporaries are gone only the result is held besides the memo. */
  lemma AnySettled(m: Model, st1: R.Store, st2: R.Store, st4: R.Store, lois: seq<Maybe>, k: nat, tmp: R.Ref, i: nat)
    requires m.Ok() && R.Ok(st1) && R.Ok(st2) && R.Ok(st4) && st1.dying == {} && st2.dying == {} && st4.dying == {}
    requires S.Within(st1.content, st2.content) && S.Within(st4.content, st2.content) && st4.slots == st1.slots
    requires Memo(m, st1.content, lois) && Assigns(m, st1.content, st1.slots, k + 1, 0)
    requires st4.handles == HandlesOf(lois) + multiset{tmp / 2} && AnyOf(m, st2.content, tmp, m.output, i)
    ensures Memo(m, st4.content, lois) && Assigns(m, st4.content, st4.slots, k + 1, 0) &&
            AnyOf(m, st4.content, tmp, m.output, i)
  {
    hide *;
    S.UpDownAgree(st1.content, st2.content, st4.content);
    ReadySurvives(m, st1, st4, lois, k + 1, 0, multiset{tmp / 2});
    S.GrowAgree(st4.content, st2.content);
    AgreeBack(st4.content, st2.content);
    S.ResultLive(st4, tmp);
    S.OkWhole(st2);
    S.OkWhole(st4);
    AnyAgree(m, st2.content, st4.content, tmp, m.output, i);
  }

  lemma AnyKnown(m: Model, content: R.Contents, r: R.Ref, lit: nat, t: nat)
    requires m.Ok() && AnyOf(m, content, r, lit, t)
    ensures S.Known(content, r)
  {
  }

  lemma FrameKept(m: Model, st: R.Store, st': R.Store, r: R.Ref, lit: nat, t: int)
    requires m.Ok() && R.Ok(st) && R.Ok(st') && st.dying == {} && st'.dying == {} && S.Within(st.content, st'.content)
    requires FrameOf(m, st.content, r, lit, t)
    ensures FrameOf(m, st'.content, r, lit, t)
  {
    FrameKnown(m, st.content, r, lit, t);
    hide *;
    S.OkWhole(st);
    S.OkWhole(st');
    S.GrowAgree(st.content, st'.content);
    S.KnownMore(st.content, st'.content, r);
    FrameAgree(m, st.content, st'.content, r, lit, t);
  }

  lemma HandlesNothing()
    ensures HandlesOf([]) == multiset{}
  {
  }

  lemma {:induction false} HandlesFirst(lois: seq<Maybe>)
    requires lois != []
    ensures HandlesOf(lois) == HandlesOf(lois[1..]) + Handle(lois[0])
  {
    var n := |lois| - 1;
    if n > 0 {
      HandlesStep(lois);
      HandlesStep(lois[1..]);
      hide HandlesOf, Handle;
      assert lois[..n][1..] == lois[1..][..n - 1];
      HandlesFirst(lois[..n]);
      BagSwapped(HandlesOf(lois[1..][..n - 1]), Handle(lois[n]), Handle(lois[0]));
    } else {
      assert lois[..0] == lois[1..];
    }
  }

  lemma BagFirst(h: multiset<nat>, a: nat)
    ensures a in h + multiset{a} && h + multiset{a} - multiset{a} == h
  {
  }

  lemma NoIndices(content: R.Contents)
    ensures S.Numbered(content, map[], [], map[])
  {
  }

  lemma ViewOk(view: X.View, st: R.Store, res: R.Ref)
    requires R.Ok(st) && st.content == view.content && S.Known(view.content, res)
    requires S.Numbered(view.content, view.slots, view.stack, view.idx)
    requires S.Elements(view.stack) == S.Elements([]) + S.Cone(view.content, res)
    ensures view.Ok() && S.Elements(view.stack) == S.Cone(view.content, res)
    ensures if res < 2 then view.IndexOf(res / 2) == 0 && view.Known(res) && view.LitOf(res) == res
            else res / 2 in view.idx && view.Known(res)
  {
    S.LayeredOf(st);
    S.OkZero(st);
    hide R.Ok, R.Layered;
    assert view.stack != [] ==> view.stack[0] in view.content;
    assert 0 !in view.idx;
    if res >= 2 {
      S.ConeOf(st, res);
      assert res / 2 in S.Elements(view.stack);
    }
  }

  lemma BagStep(h: multiset<nat>, extra: multiset<nat>, a: nat)
    ensures h + extra + multiset{a} == h + (extra + multiset{a})
  {
  }

  lemma BagTwo(h: multiset<nat>, a: nat, b: nat)
    ensures h + (multiset{} + multiset{a} + multiset{b}) == h + multiset{a} + multiset{b} && h == h + multiset{}
  {
  }

  lemma BagThree(h: multiset<nat>, a: nat, b: nat, c: nat)
    ensures h + (multiset{a} + multiset{b}) + multiset{c} == h + multiset{b} + multiset{a} + multiset{c}
  {
  }

  lemma BagSwap(h: multiset<nat>, a: nat, b: nat)
    ensures var all := h + multiset{a} + multiset{b}; a in all && all - multiset{a} == h + multiset{b}
    ensures h <= h + multiset{a} + multiset{b} && h <= h + multiset{b}
  {
  }
}
