/** The clauses of aigbmc over named variables, and the runs they describe. */
module BmcSpec {
  import opened Aig
  import opened OrderedAig

  /** A reencoded model: n inputs, then the latches, then the gates. */
  datatype Model = Model(n: nat, latches: seq<Latch>, ands: seq<And>, bad: seq<nat>, constraints: seq<nat>,
                         justice: seq<seq<nat>>, fairness: seq<nat>) {
    /** The number of inputs and latches. */
    function Leaves(): nat {
      n + |latches|
    }

    predicate Defined(lit: nat) {
      lit / 2 <= Leaves() + |ands|
    }

    ghost predicate Ok() {
      Ordered(Leaves(), ands) && (forall i :: 0 <= i < |latches| ==> latches[i].lit == 2 * (n + i + 1)) &&
      (forall i :: 0 <= i < |latches| ==> Defined(latches[i].next)) &&
      (forall i :: 0 <= i < |bad| ==> Defined(bad[i])) &&
      (forall i :: 0 <= i < |constraints| ==> Defined(constraints[i])) &&
      (forall i, j :: 0 <= i < |justice| && 0 <= j < |justice[i]| ==> Defined(justice[i][j])) &&
      (forall i :: 0 <= i < |fairness| ==> Defined(fairness[i])) && |bad| + |justice| > 0
    }

    /** Every latch starts at a constant or uninitialized. */
    predicate Supported() {
      forall i :: 0 <= i < |latches| ==> latches[i].reset < 2 || latches[i].reset == latches[i].lit
    }
  }

  // ----- named variables -----

  /** What a solver variable stands for; t is a time frame. */
  datatype Name =
    | One
    | Join(i: nat)
    | Init(i: nat)
    | Input(t: nat, i: nat)
    | Gate(t: nat, i: nat)
    | Assume(t: nat)
    | OneBad(t: nat)
    | Sane(t: nat)
    | Here(t: nat)
    | Loop(t: nat)
    | Seen(t: nat, i: nat, j: nat)
    | Just(t: nat, i: nat)
    | OneJust(t: nat)
    | Fair(t: nat, i: nat)
    | AllFair(t: nat)

  datatype Lit = Lit(name: Name, pos: bool) {
    function Neg(): Lit {
      Lit(name, !pos)
    }
  }

  type Valuation = iset<Name>
  type Sym = seq<Lit>

  ghost predicate T(w: Valuation, l: Lit) {
    (l.name in w) == l.pos
  }

  ghost predicate Sat(w: Valuation, c: Sym) {
    exists i :: 0 <= i < |c| && T(w, c[i])
  }

  ghost predicate SatAll(w: Valuation, f: seq<Sym>) {
    forall c :: c in f ==> Sat(w, c)
  }

  function P(name: Name): Lit {
    Lit(name, true)
  }

  function N(name: Name): Lit {
    Lit(name, false)
  }

  // ----- lists of clauses -----

  function Each<S>(n: nat, f: nat --> seq<S>): seq<S>
    requires forall i: nat :: i < n ==> f.requires(i)
  {
    if n == 0 then [] else Each(n - 1, f) + f(n - 1)
  }

  lemma {:induction false} SatEach(w: Valuation, n: nat, f: nat --> seq<Sym>)
    requires forall i: nat :: i < n ==> f.requires(i)
    ensures SatAll(w, Each(n, f)) <==> forall i: nat :: i < n ==> SatAll(w, f(i))
  {
    hide Sat;
    if n > 0 {
      SatEach(w, n - 1, f);
      SatConcat(w, Each(n - 1, f), f(n - 1));
    }
  }

  lemma SatConcat(w: Valuation, a: seq<Sym>, b: seq<Sym>)
    ensures SatAll(w, a + b) <==> SatAll(w, a) && SatAll(w, b)
  {
    hide Sat;
  }

  lemma SatNone(w: Valuation)
    ensures SatAll(w, [])
  {
  }

  lemma SatOne(w: Valuation, c: Sym)
    ensures SatAll(w, [c]) <==> Sat(w, c)
  {
    hide Sat;
  }

  // ----- import -----

  /** latches[i].lit of time frame t. */
  function LatchLit(c: Model, t: nat, i: nat): Lit
    requires i < |c.latches|
    decreases t, 0
  {
    if t > 0 then Import(c, t - 1, c.latches[i].next)
    else if c.latches[i].reset == 0 then N(One)
    else if c.latches[i].reset == 1 then P(One)
    else P(Init(i))
  }

  /** import: the solver literal of a circuit literal in time frame t. */
  function Import(c: Model, t: nat, lit: nat): Lit
    decreases t, 1
  {
    var v := lit / 2;
    var l := if v == 0 then N(One)
             else if v <= c.n then P(Input(t, v - 1))
             else if v <= c.Leaves() then LatchLit(c, t, v - c.n - 1)
             else P(Gate(t, v - c.Leaves() - 1));
    if lit % 2 == 1 then l.Neg() else l
  }

  // ----- one call of encode -----

  function GateClauses(c: Model, t: nat, i: nat): seq<Sym>
    requires i < |c.ands|
  {
    var r0, r1 := Import(c, t, c.ands[i].rhs0), Import(c, t, c.ands[i].rhs1);
    [[N(Gate(t, i)), r0], [N(Gate(t, i)), r1], [P(Gate(t, i)), r0.Neg(), r1.Neg()]]
  }

  function GateList(c: Model, t: nat): (f: nat --> seq<Sym>)
    ensures forall i: nat :: i < |c.ands| ==> f.requires(i)
  {
    i requires 0 <= i < |c.ands| => GateClauses(c, t, i)
  }

  function GateFrame(c: Model, t: nat): seq<Sym> {
    Each(|c.ands|, GateList(c, t))
  }

  /** A reached property counts as false. */
  function BadLit(c: Model, t: nat, done: set<nat>, i: nat): Lit
    requires i < |c.bad|
  {
    if i in done then N(One) else Import(c, t, c.bad[i])
  }

  function OneBadLit(c: Model, t: nat, done: set<nat>): Lit
    requires c.bad != []
  {
    if |c.bad| > 1 then P(OneBad(t)) else BadLit(c, t, done, 0)
  }

  function BadList(c: Model, t: nat, done: set<nat>): (f: nat --> Sym)
    ensures forall i: nat :: i < |c.bad| ==> f.requires(i)
  {
    i requires 0 <= i < |c.bad| => [BadLit(c, t, done, i)]
  }

  function BadClauses(c: Model, t: nat, done: set<nat>): seq<Sym> {
    if |c.bad| > 1 then
      [[N(OneBad(t))] + Each(|c.bad|, BadList(c, t, done))]
    else []
  }

  function ConstraintClause(c: Model, t: nat, i: nat): seq<Sym>
    requires i < |c.constraints|
  {
    [[N(Sane(t)), Import(c, t, c.constraints[i])]]
  }

  function ConstraintList(c: Model, t: nat): (f: nat --> seq<Sym>)
    ensures forall i: nat :: i < |c.constraints| ==> f.requires(i)
  {
    i requires 0 <= i < |c.constraints| => ConstraintClause(c, t, i)
  }

  function SaneClauses(c: Model, t: nat): seq<Sym> {
    if c.constraints == [] then []
    else
      Each(|c.constraints|, ConstraintList(c, t)) +
      (if t > 0 then [[N(Sane(t)), P(Sane(t - 1))]] else []) + [[N(Assume(t)), P(Sane(t))]]
  }

  function LoopLit(t: nat): Lit {
    if t > 0 then P(Loop(t)) else P(Here(t))
  }

  function HereClauses(c: Model, t: nat, i: nat): seq<Sym>
    requires i < |c.latches|
  {
    [[N(Here(t)), N(Join(i)), LatchLit(c, t, i)], [N(Here(t)), P(Join(i)), LatchLit(c, t, i).Neg()]]
  }

  function CloseClauses(c: Model, t: nat, i: nat): seq<Sym>
    requires i < |c.latches|
  {
    var l := Import(c, t, c.latches[i].next);
    [[N(Assume(t)), N(Join(i)), l], [N(Assume(t)), P(Join(i)), l.Neg()]]
  }

  function HereList(c: Model, t: nat): (f: nat --> seq<Sym>)
    ensures forall i: nat :: i < |c.latches| ==> f.requires(i)
  {
    i requires 0 <= i < |c.latches| => HereClauses(c, t, i)
  }

  function CloseList(c: Model, t: nat): (f: nat --> seq<Sym>)
    ensures forall i: nat :: i < |c.latches| ==> f.requires(i)
  {
    i requires 0 <= i < |c.latches| => CloseClauses(c, t, i)
  }

  function LoopClauses(c: Model, t: nat): seq<Sym> {
    (if t > 0 then [[N(Loop(t)), P(Here(t)), LoopLit(t - 1)]] else []) +
    Each(|c.latches|, HereList(c, t)) +
    Each(|c.latches|, CloseList(c, t))
  }

  /** The two clauses by which a literal is remembered once the loop was entered. */
  function Remember(seen: Name, before: seq<Lit>, lit: Lit, t: nat): seq<Sym> {
    [[N(seen)] + before + [lit], [N(seen)] + before + [LoopLit(t)]]
  }

  function SeenClauses(c: Model, t: nat, i: nat, j: nat): seq<Sym>
    requires i < |c.justice| && j < |c.justice[i]|
  {
    Remember(Seen(t, i, j), if t > 0 then [P(Seen(t - 1, i, j))] else [], Import(c, t, c.justice[i][j]), t)
  }

  function SeenList(c: Model, t: nat, i: nat): (f: nat --> seq<Sym>)
    requires i < |c.justice|
    ensures forall j: nat :: j < |c.justice[i]| ==> f.requires(j)
  {
    j requires 0 <= j < |c.justice[i]| => SeenClauses(c, t, i, j)
  }

  function JustList(c: Model, t: nat, i: nat): (f: nat --> seq<Sym>)
    requires i < |c.justice|
    ensures forall j: nat :: j < |c.justice[i]| ==> f.requires(j)
  {
    j requires 0 <= j < |c.justice[i]| => [[N(Just(t, i)), P(Seen(t, i, j))]]
  }

  function JusticeClauses(c: Model, t: nat, done: set<nat>, i: nat): seq<Sym>
    requires i < |c.justice|
  {
    if i in done then []
    else
      Each(|c.justice[i]|, SeenList(c, t, i)) +
      Each(|c.justice[i]|, JustList(c, t, i))
  }

  function JustLit(t: nat, done: set<nat>, i: nat): Lit {
    if i in done then N(One) else P(Just(t, i))
  }

  function OneJustLit(c: Model, t: nat, done: set<nat>): Lit {
    if |c.justice| > 1 then P(OneJust(t)) else JustLit(t, done, 0)
  }

  function JusticeList(c: Model, t: nat, done: set<nat>): (f: nat --> seq<Sym>)
    ensures forall i: nat :: i < |c.justice| ==> f.requires(i)
  {
    i requires 0 <= i < |c.justice| => JusticeClauses(c, t, done, i)
  }

  function JustLits(c: Model, t: nat, done: set<nat>): (f: nat --> Sym)
    ensures forall i: nat :: i < |c.justice| ==> f.requires(i)
  {
    i requires 0 <= i < |c.justice| => [JustLit(t, done, i)]
  }

  function AllJustice(c: Model, t: nat, done: set<nat>): seq<Sym> {
    if c.justice == [] then []
    else
      LoopClauses(c, t) +
      Each(|c.justice|, JusticeList(c, t, done)) +
      (if |c.justice| > 1 then
         [[N(OneJust(t))] + Each(|c.justice|, JustLits(c, t, done))]
       else [])
  }

  function FairClauses(c: Model, t: nat, i: nat): seq<Sym>
    requires i < |c.fairness|
  {
    Remember(Fair(t, i), if t > 0 then [P(Fair(t - 1, i))] else [], Import(c, t, c.fairness[i]), t)
  }

  function FairList(c: Model, t: nat): (f: nat --> seq<Sym>)
    ensures forall i: nat :: i < |c.fairness| ==> f.requires(i)
  {
    i requires 0 <= i < |c.fairness| => FairClauses(c, t, i)
  }

  function AllFairLit(c: Model, t: nat): Lit {
    if |c.fairness| > 1 then P(AllFair(t)) else P(Fair(t, 0))
  }

  function AllFairList(c: Model, t: nat): (f: nat --> seq<Sym>)
    ensures forall i: nat :: i < |c.fairness| ==> f.requires(i)
  {
    i requires 0 <= i < |c.fairness| => [[N(AllFair(t)), P(Fair(t, i))]]
  }

  function Fairness(c: Model, t: nat, done: set<nat>): seq<Sym> {
    if c.justice == [] || c.fairness == [] then []
    else
      Each(|c.fairness|, FairList(c, t)) +
      (if |c.fairness| > 1 then Each(|c.fairness|, AllFairList(c, t))
       else []) +
      [[OneJustLit(c, t, done).Neg(), AllFairLit(c, t)]]
  }

  function Goal(c: Model, t: nat, badDone: set<nat>, justDone: set<nat>): seq<Sym> {
    [[N(Assume(t))] + (if c.bad != [] then [OneBadLit(c, t, badDone)] else []) +
     (if c.justice != [] then [OneJustLit(c, t, justDone)] else [])]
  }

  /** The clauses of one call of encode, in order. */
  function Frame(c: Model, t: nat, badDone: set<nat>, justDone: set<nat>): seq<Sym> {
    GateFrame(c, t) + BadClauses(c, t, badDone) + SaneClauses(c, t) + AllJustice(c, t, justDone) +
    Fairness(c, t, justDone) + Goal(c, t, badDone, justDone)
  }

  /** What was reached when a frame was encoded, and whether its bound was refuted since. */
  datatype Mark = Mark(bad: set<nat>, justice: set<nat>, refuted: bool)

  function FrameAndUnit(c: Model, t: nat, m: Mark): seq<Sym> {
    Frame(c, t, m.bad, m.justice) + (if m.refuted then [[N(Assume(t))]] else [])
  }

  function FrameList(c: Model, marks: seq<Mark>): (f: nat --> seq<Sym>)
    ensures forall t: nat :: t < |marks| ==> f.requires(t)
  {
    t requires 0 <= t < |marks| => FrameAndUnit(c, t, marks[t])
  }

  /** Everything the solver holds after the frames of marks. */
  function Script(c: Model, marks: seq<Mark>): seq<Sym> {
    [[P(One)]] + Each(|marks|, FrameList(c, marks))
  }

  // ----- runs -----

  type Run = seq<iset<nat>>

  ghost predicate Resets(c: Model, env: iset<nat>) {
    forall i :: 0 <= i < |c.latches| ==>
      (c.latches[i].reset == 0 ==> c.n + i + 1 !in env) && (c.latches[i].reset == 1 ==> c.n + i + 1 in env)
  }

  /** The value of a literal in one state. */
  ghost predicate V(c: Model, env: iset<nat>, lit: nat)
    requires c.Ok()
  {
    Val(c.Leaves(), c.ands, env, lit)
  }

  ghost predicate Follows(c: Model, env: iset<nat>, env': iset<nat>)
    requires c.Ok()
  {
    forall i :: 0 <= i < |c.latches| ==> (c.n + i + 1 in env' <==> V(c, env, c.latches[i].next))
  }

  /** Reset-started, latches stepping by their next literals. */
  ghost predicate IsRun(c: Model, r: Run)
    requires c.Ok()
  {
    r != [] && Resets(c, r[0]) && forall t :: 0 <= t < |r| - 1 ==> Follows(c, r[t], r[t + 1])
  }

  ghost predicate Constrained(c: Model, env: iset<nat>)
    requires c.Ok()
  {
    forall i :: 0 <= i < |c.constraints| ==> V(c, env, c.constraints[i])
  }

  /** A literal holds somewhere from state l on. */
  ghost predicate Holds(c: Model, r: Run, l: nat, lit: nat)
    requires c.Ok()
  {
    exists s :: l <= s < |r| && V(c, r[s], lit)
  }

  /** The state after the last one is state l again. */
  ghost predicate Closes(c: Model, r: Run, l: nat)
    requires c.Ok() && l < |r|
  {
    Follows(c, r[|r| - 1], r[l])
  }

  /** Justice property i on the loop from l on. */
  ghost predicate OnLoop(c: Model, r: Run, l: nat, i: nat)
    requires c.Ok() && i < |c.justice|
  {
    (forall j :: 0 <= j < |c.justice[i]| ==> Holds(c, r, l, c.justice[i][j])) &&
    forall j :: 0 <= j < |c.fairness| ==> Holds(c, r, l, c.fairness[j])
  }

  /** A lasso on which justice property i and all fairness literals hold. */
  ghost predicate Lasso(c: Model, r: Run, i: nat)
    requires c.Ok() && i < |c.justice|
  {
    exists l :: 0 <= l < |r| && Closes(c, r, l) && OnLoop(c, r, l, i)
  }

  /** What the last bound of a run witnesses: a bad state or a lasso. A justice property
      without literals and without fairness is witnessed by any run. */
  ghost predicate Witness(c: Model, r: Run, badDone: set<nat>, justDone: set<nat>)
    requires c.Ok() && r != []
  {
    (exists i :: 0 <= i < |c.bad| && i !in badDone && V(c, r[|r| - 1], c.bad[i])) ||
    exists i :: 0 <= i < |c.justice| && i !in justDone &&
      (Lasso(c, r, i) || (c.justice[i] == [] && c.fairness == []))
  }
}
