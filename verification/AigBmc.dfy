/** The solver side of aigbmc: numbered variables, clauses and the states of the
    encoded time frames. */
module AigBmc {
  import Cnf
  import opened Aig
  import opened OrderedAig
  import opened BmcSpec
  import opened BmcProof

  type Vars = map<Name, int>

  function Con(vars: Vars, l: Lit): int {
    if l.name in vars then (if l.pos then vars[l.name] else -vars[l.name]) else 0
  }

  /** x is the number of literal l. */
  ghost predicate Is(vars: Vars, x: int, l: Lit) {
    l.name in vars && x == Con(vars, l)
  }

  ghost predicate Are(vars: Vars, xs: seq<int>, ls: Sym) {
    |xs| == |ls| && forall i :: 0 <= i < |xs| ==> Is(vars, xs[i], ls[i])
  }

  ghost predicate Ext(vars: Vars, vars': Vars) {
    forall n :: n in vars ==> n in vars' && vars'[n] == vars[n]
  }

  lemma IsMono(vars: Vars, vars': Vars, x: int, l: Lit)
    requires Ext(vars, vars') && Is(vars, x, l)
    ensures Is(vars', x, l)
  {
  }

  lemma AreMono(vars: Vars, vars': Vars, xs: seq<int>, ls: Sym)
    requires Ext(vars, vars') && Are(vars, xs, ls)
    ensures Are(vars', xs, ls)
  {
    forall i | 0 <= i < |xs| ensures Is(vars', xs[i], ls[i]) {
      assert Is(vars, xs[i], ls[i]);
    }
  }

  lemma ExtTrans(a: Vars, b: Vars, c: Vars)
    requires Ext(a, b) && Ext(b, c)
    ensures Ext(a, c)
  {
  }

  lemma NegIs(vars: Vars, x: int, l: Lit)
    requires Is(vars, x, l)
    ensures Is(vars, -x, l.Neg())
  {
  }

  lemma AreAppend(vars: Vars, xs: seq<int>, ls: Sym, x: int, l: Lit)
    requires Are(vars, xs, ls) && Is(vars, x, l)
    ensures Are(vars, xs + [x], ls + [l])
  {
    forall i | 0 <= i < |xs| + 1 ensures Is(vars, (xs + [x])[i], (ls + [l])[i]) {
      if i < |xs| {
        assert Is(vars, xs[i], ls[i]);
      }
    }
  }

  lemma AreNone(vars: Vars)
    ensures Are(vars, [], [])
  {
  }

  // ----- numbering order -----

  /** Names are numbered in lexicographic order of their keys. */
  datatype Key = Key(t: nat, stage: nat, i: nat, sub: nat, j: nat)

  function KeyOf(name: Name): Key {
    match name
    case One => Key(0, 0, 0, 0, 0)
    case Join(i) => Key(0, 1, i, 0, 0)
    case Init(i) => Key(1, 0, i, 0, 0)
    case Input(t, i) => Key(t + 1, 1, i, 0, 0)
    case Gate(t, i) => Key(t + 1, 2, i, 0, 0)
    case Assume(t) => Key(t + 1, 3, 0, 0, 0)
    case OneBad(t) => Key(t + 1, 4, 0, 0, 0)
    case Sane(t) => Key(t + 1, 5, 0, 0, 0)
    case Here(t) => Key(t + 1, 6, 0, 0, 0)
    case Loop(t) => Key(t + 1, 7, 0, 0, 0)
    case Seen(t, i, j) => Key(t + 1, 8, i, 0, j)
    case Just(t, i) => Key(t + 1, 8, i, 1, 0)
    case OneJust(t) => Key(t + 1, 9, 0, 0, 0)
    case Fair(t, i) => Key(t + 1, 10, i, 0, 0)
    case AllFair(t) => Key(t + 1, 11, 0, 0, 0)
  }

  predicate Less(a: Key, b: Key) {
    a.t < b.t || (a.t == b.t &&
    (a.stage < b.stage || (a.stage == b.stage &&
    (a.i < b.i || (a.i == b.i &&
    (a.sub < b.sub || (a.sub == b.sub && a.j < b.j)))))))
  }

  /** Only names before a key are numbered. */
  ghost predicate UpTo(vars: Vars, k: Key) {
    forall n :: n in vars ==> Less(KeyOf(n), k)
  }

  lemma UpToMore(vars: Vars, k: Key, k': Key)
    requires UpTo(vars, k) && (Less(k, k') || k == k')
    ensures UpTo(vars, k')
  {
  }

  lemma UpToNew(vars: Vars, name: Name, x: int, k: Key)
    requires UpTo(vars, KeyOf(name)) && Less(KeyOf(name), k)
    ensures UpTo(vars[name := x], k) && name !in vars
  {
  }

  // ----- the solver -----

  /** Clauses carry the numbers of the symbolic formula; numbers are distinct. */
  ghost predicate SolverOk(nvars: nat, vars: Vars, clauses: seq<seq<int>>, formula: seq<Sym>) {
    Represents(vars, clauses, formula) && Numbered(vars, nvars) && Is(vars, 1, P(One))
  }

  ghost predicate Represents(vars: Vars, clauses: seq<seq<int>>, formula: seq<Sym>) {
    |clauses| == |formula| && forall i :: 0 <= i < |clauses| ==> Are(vars, clauses[i], formula[i])
  }

  ghost predicate Numbered(vars: Vars, nvars: nat) {
    (forall n :: n in vars ==> 1 <= vars[n] <= nvars) && forall n, m :: n in vars && m in vars && n != m ==>
      vars[n] != vars[m]
  }

  lemma RepresentsMono(vars: Vars, vars': Vars, clauses: seq<seq<int>>, formula: seq<Sym>)
    requires Ext(vars, vars') && Represents(vars, clauses, formula)
    ensures Represents(vars', clauses, formula)
  {
    hide Are, Ext;
    forall i | 0 <= i < |clauses| ensures Are(vars', clauses[i], formula[i]) {
      AreMono(vars, vars', clauses[i], formula[i]);
    }
  }

  lemma NumberedNew(vars: Vars, nvars: nat, name: Name)
    requires Numbered(vars, nvars) && name !in vars
    ensures Numbered(vars[name := nvars + 1], nvars + 1) && Ext(vars, vars[name := nvars + 1])
  {
  }

  lemma RepresentsAdd(vars: Vars, clauses: seq<seq<int>>, formula: seq<Sym>, c: seq<int>, sym: Sym)
    requires Represents(vars, clauses, formula) && Are(vars, c, sym)
    ensures Represents(vars, clauses + [c], formula + [sym])
  {
    hide Are;
  }

  // ----- literal lists of a frame -----

  function InputLits(c: Model, t: nat, n: nat): (s: Sym)
    ensures |s| == n
  {
    seq(n, i requires 0 <= i < n => P(Input(t, i)))
  }

  function LatchLits(c: Model, t: nat, n: nat): (s: Sym)
    requires n <= |c.latches|
    ensures |s| == n
  {
    seq(n, i requires 0 <= i < n => LatchLit(c, t, i))
  }

  function GateLits(t: nat, n: nat): (s: Sym)
    ensures |s| == n
  {
    seq(n, i requires 0 <= i < n => P(Gate(t, i)))
  }

  function Imports(c: Model, t: nat, lits: seq<nat>): (s: Sym)
    ensures |s| == |lits|
  {
    seq(|lits|, i requires 0 <= i < |lits| => Import(c, t, lits[i]))
  }

  function Nexts(c: Model): (s: seq<nat>)
    ensures |s| == |c.latches|
  {
    seq(|c.latches|, i requires 0 <= i < |c.latches| => c.latches[i].next)
  }

  function JoinLits(n: nat): (s: Sym)
    ensures |s| == n
  {
    seq(n, i requires 0 <= i < n => P(Join(i)))
  }

  function SeenLits(t: nat, i: nat, n: nat): (s: Sym)
    ensures |s| == n
  {
    seq(n, j requires 0 <= j < n => P(Seen(t, i, j)))
  }

  function FairLits(t: nat, n: nat): (s: Sym)
    ensures |s| == n
  {
    seq(n, i requires 0 <= i < n => P(Fair(t, i)))
  }

  function BadLits(c: Model, t: nat, done: set<nat>, n: nat): (s: Sym)
    requires n <= |c.bad|
    ensures |s| == n
  {
    seq(n, i requires 0 <= i < n => BadLit(c, t, done, i))
  }

  function JusticeLits(t: nat, done: set<nat>, n: nat): (s: Sym)
    ensures |s| == n
  {
    seq(n, i requires 0 <= i < n => JustLit(t, done, i))
  }

  /** The recorded literals of one time frame; sats of reached justice properties are empty. */
  datatype State = State(inputs: seq<int>, latches: seq<int>, ands: seq<int>, nexts: seq<int>, assumption: int,
                         bad: seq<int>, onebad: int, sane: int, loop: int, seen: seq<seq<int>>, just: seq<int>,
                         onejust: int, fair: seq<int>)

  /** What later frames and the witness printer read of a state. */
  ghost predicate StateIs(c: Model, vars: Vars, t: nat, s: State, m: Mark) {
    Are(vars, s.inputs, InputLits(c, t, c.n)) && Are(vars, s.latches, LatchLits(c, t, |c.latches|)) &&
    Are(vars, s.ands, GateLits(t, |c.ands|)) && Are(vars, s.nexts, Imports(c, t, Nexts(c))) &&
    Is(vars, s.assumption, P(Assume(t))) && Are(vars, s.bad, BadLits(c, t, m.bad, |c.bad|)) &&
    (c.constraints != [] ==> Is(vars, s.sane, P(Sane(t)))) &&
    (c.justice != [] ==> Is(vars, s.loop, LoopLit(t)) && SeenOk(c, vars, t, s.seen, m.justice) &&
                         Are(vars, s.just, JusticeLits(t, m.justice, |c.justice|))) &&
    (c.justice != [] && c.fairness != [] ==> Are(vars, s.fair, FairLits(t, |c.fairness|)))
  }

  lemma StateMono(c: Model, vars: Vars, vars': Vars, t: nat, s: State, m: Mark)
    requires Ext(vars, vars') && StateIs(c, vars, t, s, m)
    ensures StateIs(c, vars', t, s, m)
  {
    hide Are, Ext, Is, Imports, LatchLits, BadLits, SeenOk;
    AreMono(vars, vars', s.inputs, InputLits(c, t, c.n));
    AreMono(vars, vars', s.latches, LatchLits(c, t, |c.latches|));
    AreMono(vars, vars', s.ands, GateLits(t, |c.ands|));
    AreMono(vars, vars', s.nexts, Imports(c, t, Nexts(c)));
    AreMono(vars, vars', s.bad, BadLits(c, t, m.bad, |c.bad|));
    IsMono(vars, vars', s.assumption, P(Assume(t)));
    if c.constraints != [] {
      IsMono(vars, vars', s.sane, P(Sane(t)));
    }
    if c.justice != [] {
      IsMono(vars, vars', s.loop, LoopLit(t));
      AreMono(vars, vars', s.just, JusticeLits(t, m.justice, |c.justice|));
      SeenMono(c, vars, vars', t, s.seen, m.justice);
      if c.fairness != [] {
        AreMono(vars, vars', s.fair, FairLits(t, |c.fairness|));
      }
    }
  }

  lemma Snoc(c: Model, t: nat, done: set<nat>, i: nat, n: nat)
    ensures InputLits(c, t, n + 1) == InputLits(c, t, n) + [P(Input(t, n))]
    ensures GateLits(t, n + 1) == GateLits(t, n) + [P(Gate(t, n))]
    ensures JoinLits(n + 1) == JoinLits(n) + [P(Join(n))]
    ensures SeenLits(t, i, n + 1) == SeenLits(t, i, n) + [P(Seen(t, i, n))]
    ensures FairLits(t, n + 1) == FairLits(t, n) + [P(Fair(t, n))]
    ensures JusticeLits(t, done, n + 1) == JusticeLits(t, done, n) + [JustLit(t, done, n)]
    ensures n < |c.latches| ==> LatchLits(c, t, n + 1) == LatchLits(c, t, n) + [LatchLit(c, t, n)]
    ensures n < |c.bad| ==> BadLits(c, t, done, n + 1) == BadLits(c, t, done, n) + [BadLit(c, t, done, n)]
  {
  }

  lemma Nil(c: Model, t: nat, done: set<nat>, i: nat)
    ensures InputLits(c, t, 0) == [] && GateLits(t, 0) == [] && JoinLits(0) == [] && SeenLits(t, i, 0) == []
    ensures FairLits(t, 0) == [] && JusticeLits(t, done, 0) == [] && LatchLits(c, t, 0) == [] &&
            BadLits(c, t, done, 0) == []
  {
  }

  lemma ImportsSnoc(c: Model, t: nat, lits: seq<nat>, n: nat)
    requires n < |lits|
    ensures Imports(c, t, lits[..n + 1]) == Imports(c, t, lits[..n]) + [Import(c, t, lits[n])]
  {
    hide Import;
  }

  lemma LatchesFromNexts(c: Model, t: nat)
    requires t > 0
    ensures LatchLits(c, t, |c.latches|) == Imports(c, t - 1, Nexts(c))
  {
  }

  lemma EachMore<S>(n: nat, f: nat --> seq<S>)
    requires forall i: nat :: i < n + 1 ==> f.requires(i)
    ensures Each(n + 1, f) == Each(n, f) + f(n)
  {
  }

  lemma EachNone<S>(f: nat --> seq<S>)
    ensures Each(0, f) == []
  {
  }

  lemma {:induction false} BadEach(c: Model, t: nat, done: set<nat>, n: nat)
    requires n <= |c.bad|
    ensures Each(n, BadList(c, t, done)) == BadLits(c, t, done, n)
  {
    hide BadLit;
    if n > 0 {
      BadEach(c, t, done, n - 1);
      Snoc(c, t, done, 0, n - 1);
    } else {
      Nil(c, t, done, 0);
    }
  }

  lemma {:induction false} JustEach(c: Model, t: nat, done: set<nat>, n: nat)
    requires n <= |c.justice|
    ensures Each(n, JustLits(c, t, done)) == JusticeLits(t, done, n)
  {
    hide JustLit;
    if n > 0 {
      JustEach(c, t, done, n - 1);
      Snoc(c, t, done, 0, n - 1);
    } else {
      Nil(c, t, done, 0);
    }
  }

  /** The literals of frame t known so far. */
  ghost predicate Known(c: Model, vars: Vars, t: nat, inputs: seq<int>, latches: seq<int>, ands: seq<int>) {
    Are(vars, inputs, InputLits(c, t, c.n)) && Are(vars, latches, LatchLits(c, t, |c.latches|)) &&
    Are(vars, ands, GateLits(t, |ands|))
  }

  lemma KnownMono(c: Model, vars0: Vars, vars: Vars, t: nat, inputs: seq<int>, latches: seq<int>, ands: seq<int>)
    requires Ext(vars0, vars) && Known(c, vars0, t, inputs, latches, ands)
    ensures Known(c, vars, t, inputs, latches, ands)
  {
    hide Are, Ext;
    AreMono(vars0, vars, inputs, InputLits(c, t, c.n));
    AreMono(vars0, vars, latches, LatchLits(c, t, |c.latches|));
    AreMono(vars0, vars, ands, GateLits(t, |ands|));
  }

  lemma KnownMore(c: Model, vars: Vars, t: nat, inputs: seq<int>, latches: seq<int>, ands: seq<int>, x: int)
    requires Known(c, vars, t, inputs, latches, ands) && Is(vars, x, P(Gate(t, |ands|)))
    ensures Known(c, vars, t, inputs, latches, ands + [x])
  {
    hide Are, Is;
    AreAppend(vars, ands, GateLits(t, |ands|), x, P(Gate(t, |ands|)));
    Snoc(c, t, {}, 0, |ands|);
  }

  class Encoder {
    const c: Model
    var nvars: nat
    var clauses: seq<seq<int>>
    var join: seq<int>
    var states: seq<State>
    var bad: set<nat>
    var justice: set<nat>
    ghost var vars: Vars
    ghost var formula: seq<Sym>
    ghost var marks: seq<Mark>

    ghost predicate Ready()
      reads this`nvars, this`clauses, this`vars, this`formula
    {
      c.Ok() && SolverOk(nvars, vars, clauses, formula)
    }

    /** newvar */
    method NewVar(ghost name: Name) returns (x: int)
      requires Ready() && UpTo(vars, KeyOf(name))
      modifies this`nvars, this`vars
      ensures Ready() && Ext(old(vars), vars) && Is(vars, x, P(name))
      ensures forall k :: Less(KeyOf(name), k) ==> UpTo(vars, k)
    {
      hide Less, UpTo, Represents, Numbered, Ext, Are, Model.Ok;
      nvars := nvars + 1;
      x := nvars;
      forall k | Less(KeyOf(name), k) ensures UpTo(vars[name := x], k) {
        UpToNew(vars, name, x, k);
      }
      NameNew(vars, name);
      NumberedNew(vars, nvars - 1, name);
      RepresentsMono(vars, vars[name := x], clauses, formula);
      IsMono(vars, vars[name := x], 1, P(One));
      vars := vars[name := x];
    }

    /** add (...); add (0) */
    method Add(lits: seq<int>, ghost sym: Sym)
      requires Ready() && Are(vars, lits, sym)
      modifies this`clauses, this`formula
      ensures Ready() && formula == old(formula) + [sym]
    {
      hide Represents, Numbered, Are, Model.Ok;
      RepresentsAdd(vars, clauses, formula, lits, sym);
      clauses := clauses + [lits];
      formula := formula + [sym];
    }

    method Binary(a: int, b: int, ghost l: Lit, ghost m: Lit)
      requires Ready() && Is(vars, a, l) && Is(vars, b, m)
      modifies this`clauses, this`formula
      ensures Ready() && formula == old(formula) + [[l, m]]
    {
      hide Represents, Numbered, Is, Model.Ok;
      Add([a, b], [l, m]);
    }

    method Ternary(a: int, b: int, d: int, ghost l: Lit, ghost m: Lit, ghost n: Lit)
      requires Ready() && Is(vars, a, l) && Is(vars, b, m) && Is(vars, d, n)
      modifies this`clauses, this`formula
      ensures Ready() && formula == old(formula) + [[l, m, n]]
    {
      hide Represents, Numbered, Is, Model.Ok;
      Add([a, b, d], [l, m, n]);
    }

    /** import */
    method Lookup(t: nat, inputs: seq<int>, latches: seq<int>, ands: seq<int>, ulit: nat) returns (res: int)
      requires Ready() && Known(c, vars, t, inputs, latches, ands) && ulit / 2 <= c.Leaves() + |ands|
      ensures Is(vars, res, Import(c, t, ulit))
    {
      hide Represents, Numbered, Model.Ok, LatchLit;
      var uidx := ulit / 2;
      ghost var l: Lit;
      var idx;
      if uidx == 0 {
        idx, l := -1, N(One);
      } else if uidx < 1 + c.n {
        idx, l := inputs[uidx - 1], P(Input(t, uidx - 1));
        assert Is(vars, idx, InputLits(c, t, c.n)[uidx - 1]);
      } else if uidx < 1 + c.n + |c.latches| {
        idx, l := latches[uidx - c.n - 1], LatchLit(c, t, uidx - c.n - 1);
        assert Is(vars, idx, LatchLits(c, t, |c.latches|)[uidx - c.n - 1]);
      } else {
        idx, l := ands[uidx - c.Leaves() - 1], P(Gate(t, uidx - c.Leaves() - 1));
        assert Is(vars, idx, GateLits(t, |ands|)[uidx - c.Leaves() - 1]);
      }
      NegIs(vars, idx, l);
      res := if ulit % 2 == 1 then -idx else idx;
    }

    method LookupAll(t: nat, inputs: seq<int>, latches: seq<int>, ands: seq<int>, lits: seq<nat>) returns (xs: seq<int>)
      requires Ready() && Known(c, vars, t, inputs, latches, ands)
      requires forall i :: 0 <= i < |lits| ==> lits[i] / 2 <= c.Leaves() + |ands|
      ensures Are(vars, xs, Imports(c, t, lits))
    {
      hide *;
      xs := [];
      AreNone(vars);
      ImportsNone(c, t, lits);
      for i := 0 to |lits|
        invariant Are(vars, xs, Imports(c, t, lits[..i]))
      {
        var x := Lookup(t, inputs, latches, ands, lits[i]);
        AreAppend(vars, xs, Imports(c, t, lits[..i]), x, Import(c, t, lits[i]));
        ImportsSnoc(c, t, lits, i);
        xs := xs + [x];
      }
      assert lits[..|lits|] == lits;
    }

    /** encode: inherit the latches or reset them. */
    method EncodeLatches(t: nat, prev: seq<int>) returns (ok: bool, latches: seq<int>)
      requires Ready() && (t > 0 ==> Are(vars, prev, Imports(c, t - 1, Nexts(c)))) && UpTo(vars, Key(t + 1, 0, 0, 0, 0))
      modifies this`nvars, this`vars
      ensures Ready() && Ext(old(vars), vars) && UpTo(vars, Key(t + 1, 1, 0, 0, 0)) && (ok <==> t > 0 || c.Supported())
      ensures ok ==> Are(vars, latches, LatchLits(c, t, |c.latches|))
    {
      hide Are, Ext, UpTo, Model.Ok, SolverOk, Imports, LatchLits;
      if t > 0 {
        LatchesFromNexts(c, t);
        ok, latches := true, prev;
        UpToMore(vars, Key(t + 1, 0, 0, 0, 0), Key(t + 1, 1, 0, 0, 0));
        ExtSelf(vars);
        return;
      }
      latches, ok := [], false;
      AreNone(vars);
      Nil(c, t, {}, 0);
      ExtSelf(vars);
      for i := 0 to |c.latches|
        invariant Ready() && Ext(old(vars), vars) && UpTo(vars, Key(1, 0, i, 0, 0))
        invariant forall k :: 0 <= k < i ==> c.latches[k].reset < 2 || c.latches[k].reset == c.latches[k].lit
        invariant Are(vars, latches, LatchLits(c, 0, i))
      {
        var reset := c.latches[i].reset;
        ghost var vars0 := vars;
        OneIs(nvars, vars, clauses, formula);
        var lit := -1;
        if reset == 1 {
          lit := 1;
        } else if reset != 0 {
          if reset != c.latches[i].lit {
            UpToMore(vars, Key(1, 0, i, 0, 0), Key(1, 1, 0, 0, 0));
            return;
          }
          lit := NewVar(Init(i));
          AreMono(vars0, vars, latches, LatchLits(c, 0, i));
          ExtTrans(old(vars), vars0, vars);
        }
        UpToMaybe(vars, i);
        AreAppend(vars, latches, LatchLits(c, 0, i), lit, LatchLit(c, 0, i));
        Snoc(c, 0, {}, 0, i);
        latches := latches + [lit];
      }
      ok := true;
      UpToMore(vars, Key(1, 0, |c.latches|, 0, 0), Key(1, 1, 0, 0, 0));
    }

    /** encode: a new variable for every input. */
    method EncodeInputs(t: nat) returns (inputs: seq<int>)
      requires Ready() && UpTo(vars, Key(t + 1, 1, 0, 0, 0))
      modifies this`nvars, this`vars
      ensures Ready() && Ext(old(vars), vars) && UpTo(vars, Key(t + 1, 2, 0, 0, 0)) &&
              Are(vars, inputs, InputLits(c, t, c.n))
    {
      hide Are, Ext, UpTo, Model.Ok, SolverOk, InputLits, Is;
      inputs := [];
      AreNone(vars);
      Nil(c, t, {}, 0);
      ExtSelf(vars);
      for i := 0 to c.n
        invariant Ready() && Ext(old(vars), vars) && UpTo(vars, Key(t + 1, 1, i, 0, 0)) &&
                  Are(vars, inputs, InputLits(c, t, i))
      {
        ghost var vars0 := vars;
        var x := NewVar(Input(t, i));
        AreMono(vars0, vars, inputs, InputLits(c, t, i));
        ExtTrans(old(vars), vars0, vars);
        AreAppend(vars, inputs, InputLits(c, t, i), x, P(Input(t, i)));
        Snoc(c, t, {}, 0, i);
        inputs := inputs + [x];
      }
      UpToMore(vars, Key(t + 1, 1, c.n, 0, 0), Key(t + 1, 2, 0, 0, 0));
    }

    /** The three clauses of one gate. */
    method And(t: nat, i: nat, lhs: int, rhs0: int, rhs1: int)
      requires Ready() && i < |c.ands| && Is(vars, lhs, P(Gate(t, i)))
      requires Is(vars, rhs0, Import(c, t, c.ands[i].rhs0)) && Is(vars, rhs1, Import(c, t, c.ands[i].rhs1))
      modifies this`clauses, this`formula
      ensures Ready() && formula == old(formula) + GateClauses(c, t, i)
    {
      hide Is, Import, SolverOk, Model.Ok;
      ghost var l, m, n := P(Gate(t, i)), Import(c, t, c.ands[i].rhs0), Import(c, t, c.ands[i].rhs1);
      NegIs(vars, lhs, l);
      NegIs(vars, rhs0, m);
      NegIs(vars, rhs1, n);
      Binary(-lhs, rhs0, l.Neg(), m);
      Binary(-lhs, rhs1, l.Neg(), n);
      Ternary(lhs, -rhs0, -rhs1, l, m.Neg(), n.Neg());
    }

    /** encode: every gate with its three clauses. */
    method EncodeAnds(t: nat, inputs: seq<int>, latches: seq<int>) returns (ands: seq<int>)
      requires Ready() && UpTo(vars, Key(t + 1, 2, 0, 0, 0)) && Known(c, vars, t, inputs, latches, [])
      modifies this`nvars, this`vars, this`clauses, this`formula
      ensures Ready() && Ext(old(vars), vars) && UpTo(vars, Key(t + 1, 3, 0, 0, 0)) &&
              Known(c, vars, t, inputs, latches, ands)
      ensures |ands| == |c.ands| && formula == old(formula) + GateFrame(c, t)
    {
      hide Are, Ext, UpTo, SolverOk, InputLits, LatchLits, GateLits, Is, Import, GateClauses, Each, Known, Ordered,
        Model.Ok;
      ands := [];
      ExtSelf(vars);
      EachNone(GateList(c, t));
      assert formula + [] == formula;
      for i := 0 to |c.ands|
        invariant |ands| == i && Ready() && Ext(old(vars), vars) && UpTo(vars, Key(t + 1, 2, i, 0, 0))
        invariant Known(c, vars, t, inputs, latches, ands) && formula == old(formula) + Each(i, GateList(c, t))
      {
        ghost var vars0 := vars;
        var lit := NewVar(Gate(t, i));
        KnownMono(c, vars0, vars, t, inputs, latches, ands);
        ExtTrans(old(vars), vars0, vars);
        OkOrdered(c);
        OrderedAt(c.Leaves(), c.ands, i);
        var rhs0 := Lookup(t, inputs, latches, ands, c.ands[i].rhs0);
        var rhs1 := Lookup(t, inputs, latches, ands, c.ands[i].rhs1);
        And(t, i, lit, rhs0, rhs1);
        KnownMore(c, vars, t, inputs, latches, ands, lit);
        EachMore(i, GateList(c, t));
        assert old(formula) + Each(i, GateList(c, t)) + GateClauses(c, t, i) == old(formula) +
          Each(i + 1, GateList(c, t));
        ands := ands + [lit];
      }
      UpToMore(vars, Key(t + 1, 2, |c.ands|, 0, 0), Key(t + 1, 3, 0, 0, 0));
    }

    /** encode: the bad literals of the frame and their disjunction. */
    method EncodeBad(t: nat, inputs: seq<int>, latches: seq<int>, ands: seq<int>) returns (bads: seq<int>, onebad: int)
      requires Ready() && UpTo(vars, Key(t + 1, 4, 0, 0, 0)) && Known(c, vars, t, inputs, latches, ands) &&
               |ands| == |c.ands|
      modifies this`nvars, this`vars, this`clauses, this`formula
      ensures Ready() && Ext(old(vars), vars) && UpTo(vars, Key(t + 1, 5, 0, 0, 0))
      ensures formula == old(formula) + BadClauses(c, t, bad) && Are(vars, bads, BadLits(c, t, bad, |c.bad|))
      ensures c.bad != [] ==> Is(vars, onebad, OneBadLit(c, t, bad))
    {
      hide Are, Ext, UpTo, SolverOk, Is, Import, Known, Model.Ok, BadLits, BadLit, Each;
      bads, onebad := [], 0;
      AreNone(vars);
      Nil(c, t, bad, 0);
      ExtSelf(vars);
      for i := 0 to |c.bad|
        invariant Ready() && vars == old(vars) && formula == old(formula)
        invariant Are(vars, bads, BadLits(c, t, bad, i))
      {
        OkBad(c, i);
        OneIs(nvars, vars, clauses, formula);
        var x := -1;
        if i !in bad {
          x := Lookup(t, inputs, latches, ands, c.bad[i]);
        }
        BadIs(c, vars, t, bad, i, x);
        AreAppend(vars, bads, BadLits(c, t, bad, i), x, BadLit(c, t, bad, i));
        Snoc(c, t, bad, 0, i);
        bads := bads + [x];
      }
      if |c.bad| > 1 {
        ghost var vars0 := vars;
        onebad := NewVar(OneBad(t));
        AreMono(vars0, vars, bads, BadLits(c, t, bad, |c.bad|));
        NegIs(vars, onebad, P(OneBad(t)));
        BadEach(c, t, bad, |c.bad|);
        AreCons(vars, -onebad, N(OneBad(t)), bads, BadLits(c, t, bad, |c.bad|));
        Add([-onebad] + bads, [N(OneBad(t))] + BadLits(c, t, bad, |c.bad|));
        UpToMore(vars, Key(t + 1, 5, 0, 0, 0), Key(t + 1, 5, 0, 0, 0));
      } else {
        UpToMore(vars, Key(t + 1, 4, 0, 0, 0), Key(t + 1, 5, 0, 0, 0));
        assert formula + [] == formula;
        if |c.bad| == 1 {
          AreAt(vars, bads, BadLits(c, t, bad, 1), 0);
          onebad := bads[0];
          BadFirst(c, t, bad);
        }
      }
    }

    /** encode: the constraints so far hold when the frame is sane. */
    method EncodeConstraints(t: nat, inputs: seq<int>, latches: seq<int>, ands: seq<int>, assumption: int,
                             prevSane: int)
      returns (sane: int)
      requires Ready() && UpTo(vars, Key(t + 1, 5, 0, 0, 0)) && Known(c, vars, t, inputs, latches, ands) &&
               |ands| == |c.ands|
      requires Is(vars, assumption, P(Assume(t))) &&
               (t > 0 && c.constraints != [] ==> Is(vars, prevSane, P(Sane(t - 1))))
      modifies this`nvars, this`vars, this`clauses, this`formula
      ensures Ready() && Ext(old(vars), vars) && UpTo(vars, Key(t + 1, 6, 0, 0, 0))
      ensures formula == old(formula) + SaneClauses(c, t) && (c.constraints != [] ==> Is(vars, sane, P(Sane(t))))
    {
      hide Are, Ext, UpTo, SolverOk, Is, Import, Known, Model.Ok, Each, Imports;
      sane := 0;
      ExtSelf(vars);
      if c.constraints == [] {
        UpToMore(vars, Key(t + 1, 5, 0, 0, 0), Key(t + 1, 6, 0, 0, 0));
        assert formula + [] == formula;
        return;
      }
      OkConstraints(c);
      var xs := LookupAll(t, inputs, latches, ands, c.constraints);
      ghost var vars0, f0 := vars, formula;
      sane := NewVar(Sane(t));
      AreMono(vars0, vars, xs, Imports(c, t, c.constraints));
      IsMono(vars0, vars, assumption, P(Assume(t)));
      NegIs(vars, sane, P(Sane(t)));
      NegIs(vars, assumption, P(Assume(t)));
      EachNone(ConstraintList(c, t));
      assert f0 + [] == f0;
      ghost var vars1 := vars;
      for i := 0 to |c.constraints|
        invariant Ready() && vars == vars1 && formula == f0 + Each(i, ConstraintList(c, t))
      {
        AreAt(vars, xs, Imports(c, t, c.constraints), i);
        ImportsAt(c, t, c.constraints, i);
        Binary(-sane, xs[i], N(Sane(t)), Import(c, t, c.constraints[i]));
        EachMore(i, ConstraintList(c, t));
        assert f0 + Each(i, ConstraintList(c, t)) + ConstraintClause(c, t, i) == f0 + Each(i + 1, ConstraintList(c, t));
      }
      ghost var f1 := Each(|c.constraints|, ConstraintList(c, t));
      ghost var link: seq<Sym> := [];
      if t > 0 {
        IsMono(vars0, vars, prevSane, P(Sane(t - 1)));
        Binary(-sane, prevSane, N(Sane(t)), P(Sane(t - 1)));
        link := [[N(Sane(t)), P(Sane(t - 1))]];
      }
      assert formula == f0 + f1 + link;
      Binary(-assumption, sane, N(Assume(t)), P(Sane(t)));
      assert f0 + f1 + link + [[N(Assume(t)), P(Sane(t))]] == f0 + (f1 + link + [[N(Assume(t)), P(Sane(t))]]);
    }

    /** encode: entering the loop and closing it. */
    method EncodeLoop(t: nat, latches: seq<int>, nexts: seq<int>, assumption: int, prevLoop: int) returns (loop: int)
      requires Ready() && UpTo(vars, Key(t + 1, 6, 0, 0, 0)) && Are(vars, latches, LatchLits(c, t, |c.latches|))
      requires Are(vars, nexts, Imports(c, t, Nexts(c))) && Is(vars, assumption, P(Assume(t)))
      requires Are(vars, join, JoinLits(|c.latches|)) && (t > 0 ==> Is(vars, prevLoop, LoopLit(t - 1)))
      modifies this`nvars, this`vars, this`clauses, this`formula
      ensures Ready() && Ext(old(vars), vars) && UpTo(vars, Key(t + 1, 8, 0, 0, 0))
      ensures formula == old(formula) + LoopClauses(c, t) && Is(vars, loop, LoopLit(t))
    {
      hide Are, Ext, UpTo, SolverOk, Is, Import, LatchLit, Model.Ok, Each, Imports, LatchLits, JoinLits, HereClauses,
        CloseClauses;
      ghost var f0 := formula;
      var here;
      here, loop := EncodeHere(t, prevLoop);
      ghost var a := if t > 0 then [[N(Loop(t)), P(Here(t)), LoopLit(t - 1)]] else [];
      AreMono(old(vars), vars, latches, LatchLits(c, t, |c.latches|));
      AreMono(old(vars), vars, nexts, Imports(c, t, Nexts(c)));
      AreMono(old(vars), vars, join, JoinLits(|c.latches|));
      IsMono(old(vars), vars, assumption, P(Assume(t)));
      ghost var f1 := formula;
      JoinHere(t, here, latches);
      CloseHere(t, assumption, nexts);
      ghost var h, d := Each(|c.latches|, HereList(c, t)), Each(|c.latches|, CloseList(c, t));
      assert f0 + a + h + d == f0 + (a + h + d);
    }

    /** encode: a frame that joins carries the join state. */
    method JoinHere(t: nat, here: int, latches: seq<int>)
      requires Ready() && Is(vars, here, P(Here(t))) && Are(vars, join, JoinLits(|c.latches|))
      requires Are(vars, latches, LatchLits(c, t, |c.latches|))
      modifies this`clauses, this`formula
      ensures Ready() && formula == old(formula) + Each(|c.latches|, HereList(c, t))
    {
      hide Are, SolverOk, Is, Import, LatchLit, Model.Ok, Each, LatchLits, JoinLits, HereClauses;
      EachNone(HereList(c, t));
      assert formula + [] == formula;
      for i := 0 to |c.latches|
        invariant Ready() && formula == old(formula) + Each(i, HereList(c, t))
      {
        AreAt(vars, join, JoinLits(|c.latches|), i);
        AreAt(vars, latches, LatchLits(c, t, |c.latches|), i);
        LatchLitsAt(c, t, i);
        Equal(here, join[i], latches[i], P(Here(t)), P(Join(i)), LatchLit(c, t, i));
        EachMore(i, HereList(c, t));
        HereIs(c, t, i);
        assert old(formula) + Each(i, HereList(c, t)) + HereClauses(c, t, i) == old(formula) +
          Each(i + 1, HereList(c, t));
      }
    }

    /** encode: under the assumption the next state is the join state. */
    method CloseHere(t: nat, assumption: int, nexts: seq<int>)
      requires Ready() && Is(vars, assumption, P(Assume(t))) && Are(vars, join, JoinLits(|c.latches|))
      requires Are(vars, nexts, Imports(c, t, Nexts(c)))
      modifies this`clauses, this`formula
      ensures Ready() && formula == old(formula) + Each(|c.latches|, CloseList(c, t))
    {
      hide Are, SolverOk, Is, Import, LatchLit, Model.Ok, Each, Imports, JoinLits, CloseClauses;
      EachNone(CloseList(c, t));
      assert formula + [] == formula;
      for i := 0 to |c.latches|
        invariant Ready() && formula == old(formula) + Each(i, CloseList(c, t))
      {
        AreAt(vars, join, JoinLits(|c.latches|), i);
        AreAt(vars, nexts, Imports(c, t, Nexts(c)), i);
        ImportsAt(c, t, Nexts(c), i);
        LatchLitsAt(c, t, i);
        Equal(assumption, join[i], nexts[i], P(Assume(t)), P(Join(i)), Import(c, t, c.latches[i].next));
        EachMore(i, CloseList(c, t));
        HereIs(c, t, i);
        assert old(formula) + Each(i, CloseList(c, t)) + CloseClauses(c, t, i) == old(formula) +
          Each(i + 1, CloseList(c, t));
      }
    }

    method EncodeHere(t: nat, prevLoop: int) returns (here: int, loop: int)
      requires Ready() && UpTo(vars, Key(t + 1, 6, 0, 0, 0)) && (t > 0 ==> Is(vars, prevLoop, LoopLit(t - 1)))
      modifies this`nvars, this`vars, this`clauses, this`formula
      ensures Ready() && Ext(old(vars), vars) && UpTo(vars, Key(t + 1, 8, 0, 0, 0))
      ensures Is(vars, here, P(Here(t))) && Is(vars, loop, LoopLit(t))
      ensures formula == old(formula) + (if t > 0 then [[N(Loop(t)), P(Here(t)), LoopLit(t - 1)]] else [])
    {
      hide Ext, UpTo, SolverOk, Is, Model.Ok, Are;
      here := NewVar(Here(t));
      ghost var vars0 := vars;
      if t > 0 {
        IsMono(old(vars), vars0, prevLoop, LoopLit(t - 1));
        loop := NewVar(Loop(t));
        IsMono(vars0, vars, prevLoop, LoopLit(t - 1));
        IsMono(vars0, vars, here, P(Here(t)));
        ExtTrans(old(vars), vars0, vars);
        NegIs(vars, loop, P(Loop(t)));
        Ternary(-loop, here, prevLoop, N(Loop(t)), P(Here(t)), LoopLit(t - 1));
        UpToMore(vars, Key(t + 1, 8, 0, 0, 0), Key(t + 1, 8, 0, 0, 0));
      } else {
        loop := here;
        UpToMore(vars, Key(t + 1, 7, 0, 0, 0), Key(t + 1, 8, 0, 0, 0));
        assert formula + [] == formula;
      }
    }

    /** Two ternary clauses: under g, a and b are equal. */
    method Equal(g: int, a: int, b: int, ghost l: Lit, ghost m: Lit, ghost n: Lit)
      requires Ready() && Is(vars, g, l) && Is(vars, a, m) && Is(vars, b, n)
      modifies this`clauses, this`formula
      ensures Ready() && formula == old(formula) + [[l.Neg(), m.Neg(), n], [l.Neg(), m, n.Neg()]]
    {
      hide Is, SolverOk, Model.Ok;
      NegIs(vars, g, l);
      NegIs(vars, a, m);
      NegIs(vars, b, n);
      Ternary(-g, -a, b, l.Neg(), m.Neg(), n);
      Ternary(-g, a, -b, l.Neg(), m, n.Neg());
    }

    /** encode: the two clauses of one remembered literal. */
    method EncodeRemember(t: nat, ghost seen: Name, prev: seq<int>, ghost before: Sym, x: int, ghost lit: Lit,
                          loop: int) returns (sat: int)
      requires Ready() && UpTo(vars, KeyOf(seen)) && Are(vars, prev, before) && Is(vars, x, lit) &&
               Is(vars, loop, LoopLit(t))
      modifies this`nvars, this`vars, this`clauses, this`formula
      ensures Ready() && Ext(old(vars), vars) && Is(vars, sat, P(seen)) &&
              formula == old(formula) + Remember(seen, before, lit, t)
      ensures forall k :: Less(KeyOf(seen), k) ==> UpTo(vars, k)
    {
      hide Ext, UpTo, SolverOk, Is, Model.Ok, Are, Less, LoopLit;
      ghost var vars0 := vars;
      sat := NewVar(seen);
      AreMono(vars0, vars, prev, before);
      IsMono(vars0, vars, x, lit);
      IsMono(vars0, vars, loop, LoopLit(t));
      NegIs(vars, sat, P(seen));
      AreCons(vars, -sat, N(seen), prev, before);
      AreAppend(vars, [-sat] + prev, [N(seen)] + before, x, lit);
      AreAppend(vars, [-sat] + prev, [N(seen)] + before, loop, LoopLit(t));
      Add([-sat] + prev + [x], [N(seen)] + before + [lit]);
      Add([-sat] + prev + [loop], [N(seen)] + before + [LoopLit(t)]);
    }

    /** One remembered justice literal. */
    method EncodeSeen(t: nat, i: nat, j: nat, inputs: seq<int>, latches: seq<int>, ands: seq<int>, loop: int,
                      prev: seq<int>)
      returns (sat: int)
      requires Ready() && UpTo(vars, Key(t + 1, 8, i, 0, j)) && Known(c, vars, t, inputs, latches, ands) &&
               |ands| == |c.ands|
      requires i < |c.justice| && j < |c.justice[i]| && Is(vars, loop, LoopLit(t))
      requires t > 0 ==> Are(vars, prev, SeenLits(t - 1, i, |c.justice[i]|))
      modifies this`nvars, this`vars, this`clauses, this`formula
      ensures Ready() && Ext(old(vars), vars) && UpTo(vars, Key(t + 1, 8, i, 0, j + 1))
      ensures Is(vars, sat, P(Seen(t, i, j))) && formula == old(formula) + SeenClauses(c, t, i, j)
    {
      hide Ext, UpTo, SolverOk, Is, Model.Ok, Are, LoopLit, Known, Import, SeenLits, Remember;
      OkLits(c, i, j);
      var x := Lookup(t, inputs, latches, ands, c.justice[i][j]);
      var before: seq<int> := [];
      AreNone(vars);
      if t > 0 {
        AreAt(vars, prev, SeenLits(t - 1, i, |c.justice[i]|), j);
        SeenLitsAt(t - 1, i, |c.justice[i]|, j);
        AreAppend(vars, [], [], prev[j], P(Seen(t - 1, i, j)));
        before := [prev[j]];
        assert [] + [prev[j]] == [prev[j]] && [] + [P(Seen(t - 1, i, j))] == [P(Seen(t - 1, i, j))];
      }
      sat := EncodeRemember(t, Seen(t, i, j), before, if t > 0 then [P(Seen(t - 1, i, j))] else [], x,
                            Import(c, t, c.justice[i][j]), loop);
    }

    method EncodeSeenAll(t: nat, i: nat, inputs: seq<int>, latches: seq<int>, ands: seq<int>, loop: int, prev: seq<int>)
      returns (seen: seq<int>)
      requires Ready() && UpTo(vars, Key(t + 1, 8, i, 0, 0)) && Known(c, vars, t, inputs, latches, ands) &&
               |ands| == |c.ands|
      requires i < |c.justice| && Is(vars, loop, LoopLit(t))
      requires t > 0 ==> Are(vars, prev, SeenLits(t - 1, i, |c.justice[i]|))
      modifies this`nvars, this`vars, this`clauses, this`formula
      ensures Ready() && Ext(old(vars), vars) && UpTo(vars, Key(t + 1, 8, i, 1, 0))
      ensures Are(vars, seen, SeenLits(t, i, |c.justice[i]|))
      ensures formula == old(formula) + Each(|c.justice[i]|, SeenList(c, t, i))
    {
      hide Ext, UpTo, SolverOk, Is, Model.Ok, Are, LoopLit, Known, SeenLits, SeenClauses, Each;
      seen := [];
      AreNone(vars);
      Nil(c, t, {}, i);
      ExtSelf(vars);
      EachNone(SeenList(c, t, i));
      assert formula + [] == formula;
      for j := 0 to |c.justice[i]|
        invariant Ready() && Ext(old(vars), vars) && UpTo(vars, Key(t + 1, 8, i, 0, j))
        invariant Are(vars, seen, SeenLits(t, i, j)) && formula == old(formula) + Each(j, SeenList(c, t, i))
      {
        ghost var vars0, f0 := vars, formula;
        KnownMono(c, old(vars), vars, t, inputs, latches, ands);
        IsMono(old(vars), vars, loop, LoopLit(t));
        if t > 0 {
          AreMono(old(vars), vars, prev, SeenLits(t - 1, i, |c.justice[i]|));
        }
        var x := EncodeSeen(t, i, j, inputs, latches, ands, loop, prev);
        AreMono(vars0, vars, seen, SeenLits(t, i, j));
        ExtTrans(old(vars), vars0, vars);
        AreAppend(vars, seen, SeenLits(t, i, j), x, P(Seen(t, i, j)));
        Snoc(c, t, {}, i, j);
        seen := seen + [x];
        EachMore(j, SeenList(c, t, i));
        assert old(formula) + Each(j, SeenList(c, t, i)) + SeenClauses(c, t, i, j) == old(formula) +
          Each(j + 1, SeenList(c, t, i));
      }
      UpToMore(vars, Key(t + 1, 8, i, 0, |c.justice[i]|), Key(t + 1, 8, i, 1, 0));
    }

    /** encode: one justice property not reached yet. */
    method EncodeJust(t: nat, i: nat, inputs: seq<int>, latches: seq<int>, ands: seq<int>, loop: int, prev: seq<int>)
      returns (seen: seq<int>, sat: int)
      requires Ready() && UpTo(vars, Key(t + 1, 8, i, 0, 0)) && Known(c, vars, t, inputs, latches, ands) &&
               |ands| == |c.ands|
      requires i < |c.justice| && i !in justice && Is(vars, loop, LoopLit(t))
      requires t > 0 ==> Are(vars, prev, SeenLits(t - 1, i, |c.justice[i]|))
      modifies this`nvars, this`vars, this`clauses, this`formula
      ensures Ready() && Ext(old(vars), vars) && UpTo(vars, Key(t + 1, 8, i + 1, 0, 0))
      ensures Are(vars, seen, SeenLits(t, i, |c.justice[i]|)) && Is(vars, sat, P(Just(t, i)))
      ensures formula == old(formula) + JusticeClauses(c, t, justice, i)
    {
      hide Ext, UpTo, SolverOk, Is, Model.Ok, Are, LoopLit, Known, SeenLits, SeenClauses, Each;
      seen := EncodeSeenAll(t, i, inputs, latches, ands, loop, prev);
      ghost var vars0, f0 := vars, formula;
      sat := NewVar(Just(t, i));
      UpToMore(vars, Key(t + 1, 8, i + 1, 0, 0), Key(t + 1, 8, i + 1, 0, 0));
      AreMono(vars0, vars, seen, SeenLits(t, i, |c.justice[i]|));
      ExtTrans(old(vars), vars0, vars);
      NegIs(vars, sat, P(Just(t, i)));
      EachNone(JustList(c, t, i));
      assert f0 + [] == f0;
      ghost var vars1 := vars;
      for j := 0 to |c.justice[i]|
        invariant Ready() && vars == vars1 && formula == f0 + Each(j, JustList(c, t, i))
      {
        AreAt(vars, seen, SeenLits(t, i, |c.justice[i]|), j);
        SeenLitsAt(t, i, |c.justice[i]|, j);
        Binary(-sat, seen[j], N(Just(t, i)), P(Seen(t, i, j)));
        EachMore(j, JustList(c, t, i));
        assert f0 + Each(j, JustList(c, t, i)) + [[N(Just(t, i)), P(Seen(t, i, j))]] == f0 +
          Each(j + 1, JustList(c, t, i));
      }
      ghost var a, b := Each(|c.justice[i]|, SeenList(c, t, i)), Each(|c.justice[i]|, JustList(c, t, i));
      assert old(formula) + a + b == old(formula) + (a + b);
    }

    /** The loop over the justice properties. */
    method EncodeJusts(t: nat, inputs: seq<int>, latches: seq<int>, ands: seq<int>, loop: int, prev: seq<seq<int>>)
      returns (seen: seq<seq<int>>, justs: seq<int>)
      requires Ready() && UpTo(vars, Key(t + 1, 8, 0, 0, 0)) && Known(c, vars, t, inputs, latches, ands) &&
               |ands| == |c.ands|
      requires Is(vars, loop, LoopLit(t)) && (t > 0 ==> SeenOk(c, vars, t - 1, prev, justice))
      modifies this`nvars, this`vars, this`clauses, this`formula
      ensures Ready() && Ext(old(vars), vars) && UpTo(vars, Key(t + 1, 9, 0, 0, 0))
      ensures SeenOk(c, vars, t, seen, justice) && Are(vars, justs, JusticeLits(t, justice, |c.justice|))
      ensures formula == old(formula) + Each(|c.justice|, JusticeList(c, t, justice))
    {
      hide Ext, UpTo, SolverOk, Is, Model.Ok, Are, LoopLit, Known, JusticeLits, JusticeClauses, Each, SeenLits;
      seen, justs := [], [];
      AreNone(vars);
      Nil(c, t, justice, 0);
      ExtSelf(vars);
      EachNone(JusticeList(c, t, justice));
      assert formula + [] == formula;
      for i := 0 to |c.justice|
        invariant Ready() && Ext(old(vars), vars) && UpTo(vars, Key(t + 1, 8, i, 0, 0))
        invariant |seen| == i && forall k :: 0 <= k < i && k !in justice ==>
                  Are(vars, seen[k], SeenLits(t, k, |c.justice[k]|))
        invariant Are(vars, justs, JusticeLits(t, justice, i)) &&
                  formula == old(formula) + Each(i, JusticeList(c, t, justice))
      {
        ghost var vars0, f0 := vars, formula;
        var s: seq<int>, x := [], -1;
        if i !in justice {
          KnownMono(c, old(vars), vars, t, inputs, latches, ands);
          IsMono(old(vars), vars, loop, LoopLit(t));
          if t > 0 {
            AreMono(old(vars), vars, prev[i], SeenLits(t - 1, i, |c.justice[i]|));
          }
          s, x := EncodeJust(t, i, inputs, latches, ands, loop, if t > 0 then prev[i] else []);
          ExtTrans(old(vars), vars0, vars);
        } else {
          OneIs(nvars, vars, clauses, formula);
          ExtSelf(vars);
          UpToMore(vars, Key(t + 1, 8, i, 0, 0), Key(t + 1, 8, i + 1, 0, 0));
          DoneClauses(c, t, justice, i);
          assert formula + [] == formula;
        }
        forall k | 0 <= k < i && k !in justice ensures Are(vars, seen[k], SeenLits(t, k, |c.justice[k]|)) {
          AreMono(vars0, vars, seen[k], SeenLits(t, k, |c.justice[k]|));
        }
        AreMono(vars0, vars, justs, JusticeLits(t, justice, i));
        AreAppend(vars, justs, JusticeLits(t, justice, i), x, JustLit(t, justice, i));
        Snoc(c, t, justice, 0, i);
        seen, justs := seen + [s], justs + [x];
        EachMore(i, JusticeList(c, t, justice));
        assert old(formula) + Each(i, JusticeList(c, t, justice)) + JusticeClauses(c, t, justice, i) ==
               old(formula) + Each(i + 1, JusticeList(c, t, justice));
      }
      UpToMore(vars, Key(t + 1, 8, |c.justice|, 0, 0), Key(t + 1, 9, 0, 0, 0));
    }

    /** encode: the loop and all justice properties. */
    method EncodeAllJustice(t: nat, inputs: seq<int>, latches: seq<int>, ands: seq<int>, nexts: seq<int>,
                            assumption: int, prevLoop: int, prevSeen: seq<seq<int>>)
      returns (loop: int, seen: seq<seq<int>>, justs: seq<int>, onejust: int)
      requires Ready() && UpTo(vars, Key(t + 1, 6, 0, 0, 0)) && Known(c, vars, t, inputs, latches, ands) &&
               |ands| == |c.ands|
      requires Are(vars, nexts, Imports(c, t, Nexts(c))) && Is(vars, assumption, P(Assume(t)))
      requires c.justice != [] ==> Are(vars, join, JoinLits(|c.latches|))
      requires c.justice != [] && t > 0 ==>
               Is(vars, prevLoop, LoopLit(t - 1)) && SeenOk(c, vars, t - 1, prevSeen, justice)
      modifies this`nvars, this`vars, this`clauses, this`formula
      ensures Ready() && Ext(old(vars), vars) && UpTo(vars, Key(t + 1, 10, 0, 0, 0))
      ensures c.justice != [] ==> Is(vars, loop, LoopLit(t)) && SeenOk(c, vars, t, seen, justice) &&
                                  Are(vars, justs, JusticeLits(t, justice, |c.justice|)) &&
                                  Is(vars, onejust, OneJustLit(c, t, justice))
      ensures formula == old(formula) + AllJustice(c, t, justice)
    {
      loop, seen, justs, onejust := 0, [], [], 0;
      hide Ext, UpTo, SolverOk, Is, Model.Ok, Are, LoopLit, JusticeLits, Each, SeenLits, LoopClauses, SeenOk, JustLit,
        Imports;
      ghost var f0 := formula;
      ExtSelf(vars);
      if c.justice == [] {
        UpToMore(vars, Key(t + 1, 6, 0, 0, 0), Key(t + 1, 10, 0, 0, 0));
        assert formula + [] == formula;
        return;
      }
      loop := EncodeLoop(t, latches, nexts, assumption, prevLoop);
      ghost var vars1 := vars;
      KnownMono(c, old(vars), vars, t, inputs, latches, ands);
      if t > 0 {
        SeenMono(c, old(vars), vars, t - 1, prevSeen, justice);
      }
      seen, justs := EncodeJusts(t, inputs, latches, ands, loop, prevSeen);
      ghost var vars2 := vars;
      IsMono(vars1, vars, loop, LoopLit(t));
      ExtTrans(old(vars), vars1, vars);
      ghost var one: seq<Sym> := [];
      if |c.justice| > 1 {
        onejust := EncodeOneJust(t, justs);
        one := [[N(OneJust(t))] + Each(|c.justice|, JustLits(c, t, justice))];
        IsMono(vars2, vars, loop, LoopLit(t));
        SeenMono(c, vars2, vars, t, seen, justice);
        AreMono(vars2, vars, justs, JusticeLits(t, justice, |c.justice|));
        ExtTrans(old(vars), vars2, vars);
      } else {
        AreAt(vars, justs, JusticeLits(t, justice, |c.justice|), 0);
        onejust := justs[0];
        JustFirst(t, justice, |c.justice|);
        UpToMore(vars, Key(t + 1, 9, 0, 0, 0), Key(t + 1, 10, 0, 0, 0));
      }
      ghost var a, b := LoopClauses(c, t), Each(|c.justice|, JusticeList(c, t, justice));
      assert f0 + a + b + one == f0 + (a + b + one);
    }

    method EncodeOneJust(t: nat, justs: seq<int>) returns (onejust: int)
      requires Ready() && UpTo(vars, Key(t + 1, 9, 0, 0, 0)) && Are(vars, justs, JusticeLits(t, justice, |c.justice|))
      modifies this`nvars, this`vars, this`clauses, this`formula
      ensures Ready() && Ext(old(vars), vars) && UpTo(vars, Key(t + 1, 10, 0, 0, 0)) && Is(vars, onejust, P(OneJust(t)))
      ensures formula == old(formula) + [[N(OneJust(t))] + Each(|c.justice|, JustLits(c, t, justice))]
    {
      hide Ext, UpTo, SolverOk, Is, Model.Ok, Are, JusticeLits, Each, JustLit;
      ghost var vars0 := vars;
      onejust := NewVar(OneJust(t));
      AreMono(vars0, vars, justs, JusticeLits(t, justice, |c.justice|));
      NegIs(vars, onejust, P(OneJust(t)));
      JustEach(c, t, justice, |c.justice|);
      AreCons(vars, -onejust, N(OneJust(t)), justs, JusticeLits(t, justice, |c.justice|));
      Add([-onejust] + justs, [N(OneJust(t))] + JusticeLits(t, justice, |c.justice|));
      UpToMore(vars, Key(t + 1, 10, 0, 0, 0), Key(t + 1, 10, 0, 0, 0));
    }

    method EncodeFair(t: nat, i: nat, inputs: seq<int>, latches: seq<int>, ands: seq<int>, loop: int, prev: seq<int>)
      returns (sat: int)
      requires Ready() && UpTo(vars, Key(t + 1, 10, i, 0, 0)) && Known(c, vars, t, inputs, latches, ands) &&
               |ands| == |c.ands|
      requires i < |c.fairness| && Is(vars, loop, LoopLit(t)) &&
               (t > 0 ==> Are(vars, prev, FairLits(t - 1, |c.fairness|)))
      modifies this`nvars, this`vars, this`clauses, this`formula
      ensures Ready() && Ext(old(vars), vars) && UpTo(vars, Key(t + 1, 10, i + 1, 0, 0))
      ensures Is(vars, sat, P(Fair(t, i))) && formula == old(formula) + FairClauses(c, t, i)
    {
      hide Ext, UpTo, SolverOk, Is, Model.Ok, Are, LoopLit, Known, Import, FairLits, Remember;
      OkFair(c, i);
      var x := Lookup(t, inputs, latches, ands, c.fairness[i]);
      var before: seq<int> := [];
      AreNone(vars);
      if t > 0 {
        AreAt(vars, prev, FairLits(t - 1, |c.fairness|), i);
        FairLitsAt(t - 1, |c.fairness|, i);
        AreAppend(vars, [], [], prev[i], P(Fair(t - 1, i)));
        before := [prev[i]];
        assert [] + [prev[i]] == [prev[i]] && [] + [P(Fair(t - 1, i))] == [P(Fair(t - 1, i))];
      }
      sat := EncodeRemember(t, Fair(t, i), before, if t > 0 then [P(Fair(t - 1, i))]
        else [], x, Import(c, t, c.fairness[i]), loop);
    }

    method EncodeFairAll(t: nat, inputs: seq<int>, latches: seq<int>, ands: seq<int>, loop: int, prev: seq<int>)
      returns (fair: seq<int>)
      requires Ready() && UpTo(vars, Key(t + 1, 10, 0, 0, 0)) && Known(c, vars, t, inputs, latches, ands) &&
               |ands| == |c.ands|
      requires Is(vars, loop, LoopLit(t)) && (t > 0 ==> Are(vars, prev, FairLits(t - 1, |c.fairness|)))
      modifies this`nvars, this`vars, this`clauses, this`formula
      ensures Ready() && Ext(old(vars), vars) && UpTo(vars, Key(t + 1, 11, 0, 0, 0)) &&
              Are(vars, fair, FairLits(t, |c.fairness|))
      ensures formula == old(formula) + Each(|c.fairness|, FairList(c, t))
    {
      hide Ext, UpTo, SolverOk, Is, Model.Ok, Are, LoopLit, Known, FairLits, FairClauses, Each;
      fair := [];
      AreNone(vars);
      Nil(c, t, {}, 0);
      ExtSelf(vars);
      EachNone(FairList(c, t));
      assert formula + [] == formula;
      for i := 0 to |c.fairness|
        invariant Ready() && Ext(old(vars), vars) && UpTo(vars, Key(t + 1, 10, i, 0, 0))
        invariant Are(vars, fair, FairLits(t, i)) && formula == old(formula) + Each(i, FairList(c, t))
      {
        ghost var vars0 := vars;
        KnownMono(c, old(vars), vars, t, inputs, latches, ands);
        IsMono(old(vars), vars, loop, LoopLit(t));
        if t > 0 {
          AreMono(old(vars), vars, prev, FairLits(t - 1, |c.fairness|));
        }
        var x := EncodeFair(t, i, inputs, latches, ands, loop, prev);
        AreMono(vars0, vars, fair, FairLits(t, i));
        ExtTrans(old(vars), vars0, vars);
        AreAppend(vars, fair, FairLits(t, i), x, P(Fair(t, i)));
        Snoc(c, t, {}, 0, i);
        fair := fair + [x];
        EachMore(i, FairList(c, t));
        assert old(formula) + Each(i, FairList(c, t)) + FairClauses(c, t, i) == old(formula) +
          Each(i + 1, FairList(c, t));
      }
      UpToMore(vars, Key(t + 1, 10, |c.fairness|, 0, 0), Key(t + 1, 11, 0, 0, 0));
    }

    /** encode: the conjunction of the fairness literals. */
    method EncodeAllFair(t: nat, fair: seq<int>) returns (allfair: int)
      requires Ready() && UpTo(vars, Key(t + 1, 11, 0, 0, 0)) && Are(vars, fair, FairLits(t, |c.fairness|)) &&
               c.fairness != []
      modifies this`nvars, this`vars, this`clauses, this`formula
      ensures Ready() && Ext(old(vars), vars) && UpTo(vars, Key(t + 2, 0, 0, 0, 0)) &&
              Is(vars, allfair, AllFairLit(c, t))
      ensures formula == old(formula) + (if |c.fairness| > 1 then Each(|c.fairness|, AllFairList(c, t)) else [])
    {
      hide Ext, UpTo, SolverOk, Is, Model.Ok, Are, FairLits, Each;
      ghost var f0 := formula;
      if |c.fairness| > 1 {
        ghost var vars0 := vars;
        allfair := NewVar(AllFair(t));
        UpToMore(vars, Key(t + 2, 0, 0, 0, 0), Key(t + 2, 0, 0, 0, 0));
        AreMono(vars0, vars, fair, FairLits(t, |c.fairness|));
        NegIs(vars, allfair, P(AllFair(t)));
        EachNone(AllFairList(c, t));
        assert f0 + [] == f0;
        ghost var vars1 := vars;
        for i := 0 to |c.fairness|
          invariant Ready() && vars == vars1 && formula == f0 + Each(i, AllFairList(c, t))
        {
          AreAt(vars, fair, FairLits(t, |c.fairness|), i);
          FairLitsAt(t, |c.fairness|, i);
          Binary(-allfair, fair[i], N(AllFair(t)), P(Fair(t, i)));
          EachMore(i, AllFairList(c, t));
          assert f0 + Each(i, AllFairList(c, t)) + [[N(AllFair(t)), P(Fair(t, i))]] == f0 +
            Each(i + 1, AllFairList(c, t));
        }
      } else {
        AreAt(vars, fair, FairLits(t, |c.fairness|), 0);
        FairLitsAt(t, |c.fairness|, 0);
        allfair := fair[0];
        ExtSelf(vars);
        UpToMore(vars, Key(t + 1, 11, 0, 0, 0), Key(t + 2, 0, 0, 0, 0));
        assert f0 + [] == f0;
      }
    }

    /** encode: the fairness literals within the loop. */
    method EncodeFairness(t: nat, inputs: seq<int>, latches: seq<int>, ands: seq<int>, loop: int, onejust: int,
                          prevFair: seq<int>)
      returns (fair: seq<int>)
      requires Ready() && UpTo(vars, Key(t + 1, 10, 0, 0, 0)) && Known(c, vars, t, inputs, latches, ands) &&
               |ands| == |c.ands|
      requires c.justice != [] ==> Is(vars, loop, LoopLit(t)) && Is(vars, onejust, OneJustLit(c, t, justice))
      requires t > 0 && c.justice != [] && c.fairness != [] ==> Are(vars, prevFair, FairLits(t - 1, |c.fairness|))
      modifies this`nvars, this`vars, this`clauses, this`formula
      ensures Ready() && Ext(old(vars), vars) && UpTo(vars, Key(t + 2, 0, 0, 0, 0))
      ensures c.justice != [] && c.fairness != [] ==> Are(vars, fair, FairLits(t, |c.fairness|))
      ensures formula == old(formula) + Fairness(c, t, justice)
    {
      hide Ext, UpTo, SolverOk, Is, Model.Ok, Are, LoopLit, Known, FairLits, Each, OneJustLit, AllFairLit;
      fair := [];
      ghost var f0 := formula;
      if c.justice == [] || c.fairness == [] {
        ExtSelf(vars);
        UpToMore(vars, Key(t + 1, 10, 0, 0, 0), Key(t + 2, 0, 0, 0, 0));
        assert formula + [] == formula;
        return;
      }
      fair := EncodeFairAll(t, inputs, latches, ands, loop, prevFair);
      ghost var vars1 := vars;
      var allfair := EncodeAllFair(t, fair);
      AreMono(vars1, vars, fair, FairLits(t, |c.fairness|));
      ExtTrans(old(vars), vars1, vars);
      IsMono(old(vars), vars, onejust, OneJustLit(c, t, justice));
      NegIs(vars, onejust, OneJustLit(c, t, justice));
      Binary(-onejust, allfair, OneJustLit(c, t, justice).Neg(), AllFairLit(c, t));
      ghost var a := Each(|c.fairness|, FairList(c, t));
      ghost var b := if |c.fairness| > 1 then Each(|c.fairness|, AllFairList(c, t)) else [];
      ghost var last := [[OneJustLit(c, t, justice).Neg(), AllFairLit(c, t)]];
      assert f0 + a + b + last == f0 + (a + b + last);
    }

    /** encode: the assumption implies a bad state or a justified loop. */
    method EncodeGoal(t: nat, assumption: int, onebad: int, onejust: int)
      requires Ready() && Is(vars, assumption, P(Assume(t))) && (c.bad != [] ==> Is(vars, onebad, OneBadLit(c, t, bad)))
      requires c.justice != [] ==> Is(vars, onejust, OneJustLit(c, t, justice))
      modifies this`clauses, this`formula
      ensures Ready() && formula == old(formula) + Goal(c, t, bad, justice)
    {
      hide SolverOk, Is, Model.Ok, Are, OneBadLit, OneJustLit;
      NegIs(vars, assumption, P(Assume(t)));
      AreNone(vars);
      var lits: seq<int> := [-assumption];
      ghost var sym := [N(Assume(t))];
      AreAppend(vars, [], [], -assumption, N(Assume(t)));
      assert [] + [-assumption] == [-assumption] && [] + [N(Assume(t))] == sym;
      if c.bad != [] {
        AreAppend(vars, lits, sym, onebad, OneBadLit(c, t, bad));
        lits, sym := lits + [onebad], sym + [OneBadLit(c, t, bad)];
      }
      if c.justice != [] {
        AreAppend(vars, lits, sym, onejust, OneJustLit(c, t, justice));
        lits, sym := lits + [onejust], sym + [OneJustLit(c, t, justice)];
      }
      Add(lits, sym);
      assert [sym] == Goal(c, t, bad, justice) by {
        assert [N(Assume(t))] + [] == [N(Assume(t))];
        assert sym + [] == sym;
      }
    }

    /** Every frame was encoded as it is marked. */
    ghost predicate Valid()
      reads this
    {
      Ready() && Frames(c, vars, formula, join, states, marks, justice)
    }

    /** The first half of encode: latches, inputs, gates, next literals, the assumption. */
    method EncodeCircuit(t: nat, prevNexts: seq<int>)
      returns (ok: bool, inputs: seq<int>, latches: seq<int>, ands: seq<int>, nexts: seq<int>, assumption: int)
      requires Ready() && (t > 0 ==> Are(vars, prevNexts, Imports(c, t - 1, Nexts(c)))) &&
               UpTo(vars, Key(t + 1, 0, 0, 0, 0))
      modifies this`nvars, this`vars, this`clauses, this`formula
      ensures ok <==> t > 0 || c.Supported()
      ensures ok ==> Ready() && Ext(old(vars), vars) && UpTo(vars, Key(t + 1, 4, 0, 0, 0)) &&
                     Known(c, vars, t, inputs, latches, ands) && |ands| == |c.ands| &&
                     Are(vars, nexts, Imports(c, t, Nexts(c))) && Is(vars, assumption, P(Assume(t))) &&
                     formula == old(formula) + GateFrame(c, t)
    {
      hide Are, Ext, UpTo, Model.Ok, SolverOk, Imports, LatchLits, InputLits, GateLits, Is, GateFrame, Model.Supported,
        Nexts;
      inputs, ands, nexts, assumption := [], [], [], 0;
      ok, latches := EncodeLatches(t, prevNexts);
      if !ok {
        return;
      }
      ghost var vars1 := vars;
      inputs := EncodeInputs(t);
      AreMono(vars1, vars, latches, LatchLits(c, t, |c.latches|));
      ExtTrans(old(vars), vars1, vars);
      ghost var vars2 := vars;
      AreNone(vars);
      Nil(c, t, {}, 0);
      ands := EncodeAnds(t, inputs, latches);
      ExtTrans(old(vars), vars2, vars);
      OkNexts(c);
      nexts := LookupAll(t, inputs, latches, ands, Nexts(c));
      ghost var vars3 := vars;
      assumption := NewVar(Assume(t));
      UpToMore(vars, Key(t + 1, 4, 0, 0, 0), Key(t + 1, 4, 0, 0, 0));
      KnownMono(c, vars3, vars, t, inputs, latches, ands);
      AreMono(vars3, vars, nexts, Imports(c, t, Nexts(c)));
      ExtTrans(old(vars), vars3, vars);
    }

    /** The second half of encode: properties and constraints. */
    method EncodeProperties(t: nat, prev: State, inputs: seq<int>, latches: seq<int>, ands: seq<int>, nexts: seq<int>,
                            assumption: int)
      returns (s: State)
      requires Ready() && UpTo(vars, Key(t + 1, 4, 0, 0, 0))
      requires Basis(c, vars, t, prev, justice, inputs, latches, ands, nexts, assumption, join)
      modifies this`nvars, this`vars, this`clauses, this`formula
      ensures Ready() && Ext(old(vars), vars) && UpTo(vars, Key(t + 2, 0, 0, 0, 0))
      ensures StateIs(c, vars, t, s, Mark(bad, justice, false))
      ensures formula == old(formula) + BadClauses(c, t, bad) + SaneClauses(c, t) + AllJustice(c, t, justice) +
                         Fairness(c, t, justice) + Goal(c, t, bad, justice)
    {
      hide Ext, UpTo, SolverOk, Is, Model.Ok, Are, LoopLit, Known, FairLits, OneJustLit, OneBadLit, SeenOk, JusticeLits,
        Imports, BadLits;
      hide BadClauses, SaneClauses, AllJustice, Fairness, Goal, StateIs, JoinLits, Basis, LatchLits;
      var bads, onebad, sane;
      BasisParts(c, vars, t, prev, justice, inputs, latches, ands, nexts, assumption, join);
      bads, onebad := EncodeBad(t, inputs, latches, ands);
      ghost var vars1 := vars;
      BasisMono(c, old(vars), vars1, t, prev, justice, inputs, latches, ands, nexts, assumption, join);
      BasisParts(c, vars, t, prev, justice, inputs, latches, ands, nexts, assumption, join);
      sane := EncodeConstraints(t, inputs, latches, ands, assumption, prev.sane);
      ghost var vars2 := vars;
      BasisMono(c, vars1, vars2, t, prev, justice, inputs, latches, ands, nexts, assumption, join);
      BasisParts(c, vars, t, prev, justice, inputs, latches, ands, nexts, assumption, join);
      ExtTrans(old(vars), vars1, vars2);
      s := EncodeLoops(t, prev, inputs, latches, ands, nexts, assumption, bads, onebad, sane, vars1, vars2);
      ExtTrans(old(vars), vars2, vars);
    }

    method EncodeLoops(t: nat, prev: State, inputs: seq<int>, latches: seq<int>, ands: seq<int>, nexts: seq<int>,
                       assumption: int, bads: seq<int>, onebad: int, sane: int, ghost vars1: Vars,
                       ghost vars2: Vars) returns (s: State)
      requires Ready() && UpTo(vars, Key(t + 1, 6, 0, 0, 0)) && vars == vars2 && Ext(vars1, vars2)
      requires Basis(c, vars, t, prev, justice, inputs, latches, ands, nexts, assumption, join)
      requires Are(vars1, bads, BadLits(c, t, bad, |c.bad|)) &&
               (c.bad != [] ==> Is(vars1, onebad, OneBadLit(c, t, bad)))
      requires c.constraints != [] ==> Is(vars2, sane, P(Sane(t)))
      modifies this`nvars, this`vars, this`clauses, this`formula
      ensures Ready() && Ext(vars2, vars) && UpTo(vars, Key(t + 2, 0, 0, 0, 0)) &&
              StateIs(c, vars, t, s, Mark(bad, justice, false))
      ensures formula == old(formula) + AllJustice(c, t, justice) + Fairness(c, t, justice) + Goal(c, t, bad, justice)
    {
      hide Ext, UpTo, SolverOk, Is, Model.Ok, Are, LoopLit, Known, FairLits, OneJustLit, OneBadLit, SeenOk, JusticeLits,
        Imports, BadLits;
      hide AllJustice, Fairness, Goal, JoinLits, Basis, LatchLits, InputLits, GateLits;
      var loop, seen, justs, onejust, fair;
      BasisParts(c, vars, t, prev, justice, inputs, latches, ands, nexts, assumption, join);
      loop, seen, justs, onejust := EncodeAllJustice(t, inputs, latches, ands, nexts, assumption, prev.loop, prev.seen);
      ghost var vars3 := vars;
      BasisMono(c, vars2, vars3, t, prev, justice, inputs, latches, ands, nexts, assumption, join);
      BasisParts(c, vars, t, prev, justice, inputs, latches, ands, nexts, assumption, join);
      fair := EncodeFairness(t, inputs, latches, ands, loop, onejust, prev.fair);
      BasisMono(c, vars3, vars, t, prev, justice, inputs, latches, ands, nexts, assumption, join);
      BasisParts(c, vars, t, prev, justice, inputs, latches, ands, nexts, assumption, join);
      ExtTrans(vars2, vars3, vars);
      ExtTrans(vars1, vars2, vars);
      AreMono(vars1, vars, bads, BadLits(c, t, bad, |c.bad|));
      if c.bad != [] {
        IsMono(vars1, vars, onebad, OneBadLit(c, t, bad));
      }
      if c.constraints != [] {
        IsMono(vars2, vars, sane, P(Sane(t)));
      }
      if c.justice != [] {
        IsMono(vars3, vars, loop, LoopLit(t));
        SeenMono(c, vars3, vars, t, seen, justice);
        AreMono(vars3, vars, justs, JusticeLits(t, justice, |c.justice|));
        IsMono(vars3, vars, onejust, OneJustLit(c, t, justice));
      }
      s := State(inputs, latches, ands, nexts, assumption, bads, onebad, sane, loop, seen, justs, onejust, fair);
      EncodeGoal(t, assumption, onebad, onejust);
    }

    /** The frame itself. */
    method EncodeFrame(t: nat, prev: State) returns (ok: bool, s: State, lit: int)
      requires Ready() && PrevIs(c, vars, t, prev, justice) && UpTo(vars, Key(t + 1, 0, 0, 0, 0))
      requires t > 0 ==> Are(vars, prev.nexts, Imports(c, t - 1, Nexts(c)))
      requires c.justice != [] ==> Are(vars, join, JoinLits(|c.latches|))
      modifies this`nvars, this`vars, this`clauses, this`formula
      ensures ok <==> t > 0 || c.Supported()
      ensures ok ==> Ready() && Ext(old(vars), vars) && UpTo(vars, Key(t + 2, 0, 0, 0, 0)) &&
                     StateIs(c, vars, t, s, Mark(bad, justice, false)) && s.assumption == lit &&
                     formula == old(formula) + FrameAndUnit(c, t, Mark(bad, justice, false))
    {
      hide Ext, UpTo, SolverOk, Is, Model.Ok, Are, Known, Imports, StateIs, JoinLits, Basis, PrevIs, Model.Supported,
        FrameAndUnit;
      hide GateFrame, BadClauses, SaneClauses, AllJustice, Fairness, Goal;
      ghost var f0 := formula;
      s := prev;
      var inputs, latches, ands, nexts;
      ok, inputs, latches, ands, nexts, lit := EncodeCircuit(t, prev.nexts);
      if !ok {
        return;
      }
      ghost var vars1 := vars;
      MakeBasis(c, old(vars), vars1, t, prev, justice, inputs, latches, ands, nexts, lit, join);
      s := EncodeProperties(t, prev, inputs, latches, ands, nexts, lit);
      ExtTrans(old(vars), vars1, vars);
      IsMono(vars1, vars, lit, P(Assume(t)));
      StateAssumption(c, vars, t, s, Mark(bad, justice, false), lit);
      FrameIs(c, t, Mark(bad, justice, false), f0);
    }

    /** encode: one more time frame; it gives up on latches with other resets. */
    method Encode() returns (ok: bool, lit: int)
      requires Valid()
      modifies this`nvars, this`vars, this`clauses, this`formula, this`states, this`marks
      ensures ok <==> old(marks) != [] || c.Supported()
      ensures ok ==> Valid() && marks == old(marks) + [Mark(bad, justice, false)] &&
                     |states| == |marks| && states[|marks| - 1].assumption == lit
    {
      hide Ext, UpTo, SolverOk, Are, PrevIs, Imports, StateIs, JoinLits, Frames, Model.Supported, FrameAndUnit;
      FramesLast(c, vars, formula, join, states, marks, justice);
      var t := |states|;
      var none := State([], [], [], [], 0, [], 0, 0, 0, [], [], 0, []);
      var s;
      ghost var vars0, f0 := vars, formula;
      ok, s, lit := EncodeFrame(t, if t > 0 then states[t - 1] else none);
      if ok {
        FramesMore(c, vars0, vars, f0, formula, join, states, marks, justice, s, Mark(bad, justice, false));
        states := states + [s];
        marks := marks + [Mark(bad, justice, false)];
        FramesLength(c, vars, formula, join, states, marks, justice);
      }
    }

    /** The first calls of main: the constant variable and the join literals. */
    constructor (c: Model)
      requires c.Ok()
      ensures Valid() && this.c == c && marks == [] && bad == {} && justice == {}
    {
      this.c := c;
      nvars, states, bad, justice, marks := 1, [], {}, {}, [];
      clauses, formula := [[1]], [[P(One)]];
      vars := map[One := 1];
      join := [];
      new;
      FirstVariable();
      hide Are, UpTo, SolverOk, Is, JoinLits, Model.Ok, StateIs;
      if c.justice != [] {
        InitJoin();
      }
      NoFrames(c, vars, join);
    }

    method InitJoin()
      requires Ready() && UpTo(vars, Key(0, 1, 0, 0, 0)) && join == []
      modifies this`nvars, this`vars, this`join
      ensures Ready() && UpTo(vars, Key(1, 0, 0, 0, 0)) && Are(vars, join, JoinLits(|c.latches|))
    {
      hide Ext, UpTo, SolverOk, Are, JoinLits, Is, Model.Ok;
      AreNone(vars);
      Nil(c, 0, {}, 0);
      for i := 0 to |c.latches|
        invariant Ready() && UpTo(vars, Key(0, 1, i, 0, 0)) && Are(vars, join, JoinLits(i))
      {
        ghost var vars0 := vars;
        var x := NewVar(Join(i));
        AreMono(vars0, vars, join, JoinLits(i));
        AreAppend(vars, join, JoinLits(i), x, P(Join(i)));
        Snoc(c, 0, {}, 0, i);
        join := join + [x];
        UpToMore(vars, Key(0, 1, i + 1, 0, 0), Key(0, 1, i + 1, 0, 0));
      }
      UpToMore(vars, Key(0, 1, |c.latches|, 0, 0), Key(1, 0, 0, 0, 0));
    }

    /** main, an unsatisfiable bound: a refuted bound is recorded as a unit clause. */
    method Refute()
      requires Valid() && marks != [] && !marks[|marks| - 1].refuted
      modifies this`clauses, this`formula, this`marks
      ensures Valid() && |marks| == |old(marks)| &&
              marks == old(marks)[|marks| - 1 := old(marks)[|marks| - 1].(refuted := true)]
    {
      hide Are, SolverOk, Is, Script, StateIs, Model.Ok, Model.Supported, UpTo, JoinLits;
      var k := |states| - 1;
      LastAssumption(c, vars, k, states[k], marks[k]);
      NegIs(vars, states[k].assumption, P(Assume(k)));
      AreNone(vars);
      AreAppend(vars, [], [], -states[k].assumption, N(Assume(k)));
      assert [] + [-states[k].assumption] == [-states[k].assumption] && [] + [N(Assume(k))] == [N(Assume(k))];
      Add([-states[k].assumption], [N(Assume(k))]);
      ScriptRefuted(c, marks);
      StateUnmarked(c, vars, k, states[k], marks[k]);
      marks := marks[k := marks[k].(refuted := true)];
    }

    /** The model satisfies all clauses under the last assumption. */
    ghost predicate Answers(truths: set<int>)
      reads this`clauses, this`states
    {
      states != [] && Deref(truths, states[|states| - 1].assumption) &&
      forall i :: 0 <= i < |clauses| ==> Cnf.Satisfies(Assigned(truths), clauses[i])
    }

    /** main, a satisfiable bound: every property whose literal is true in the last frame is
        reached, and one run stands behind them all. */
    method Reach(truths: set<int>)
      requires Valid() && marks != [] && !marks[|marks| - 1].refuted && Answers(truths)
      modifies this`bad, this`justice
      ensures Valid() && |states| == |marks| && bad == old(bad) + ReadTrue(truths, states[|marks| - 1].bad)
      ensures justice == old(justice) + if c.justice == [] then {} else ReadTrue(truths, states[|marks| - 1].just)
      ensures Behind(c, Found(truths), marks, bad - old(bad), justice - old(justice))
    {
      hide Are, SolverOk, Is, Script, StateIs, Model.Ok, Model.Supported, UpTo, JoinLits, Behind, Answers, Deref;
      var s := states[|states| - 1];
      ReportsBehind(truths);
      for i := 0 to |s.bad|
        invariant justice == old(justice) && bad == old(bad) + ReadTrue(truths, s.bad[..i])
      {
        ReadTrueMore(truths, s.bad, i);
        if i !in bad && Deref(truths, s.bad[i]) {
          bad := bad + {i};
        }
      }
      assert s.bad[..|s.bad|] == s.bad;
      if |c.justice| > 0 {
        for i := 0 to |s.just|
          invariant bad == old(bad) + ReadTrue(truths, s.bad)
          invariant justice == old(justice) + ReadTrue(truths, s.just[..i])
        {
          ReadTrueMore(truths, s.just, i);
          if i !in justice && Deref(truths, s.just[i]) {
            justice := justice + {i};
          }
        }
        assert s.just[..|s.just|] == s.just;
      }
      GrowingMore(marks, old(justice), justice);
      BehindLess(c, Found(truths), marks, ReadTrue(truths, s.bad),
                 if c.justice == [] then {} else ReadTrue(truths, s.just), bad - old(bad), justice - old(justice));
    }

    /** The run the model of the solver describes. */
    ghost function Found(truths: set<int>): Run
      reads this`vars, this`marks
    {
      RunOf(c, Reading(vars, Assigned(truths)), |marks|)
    }

    lemma ReportsBehind(truths: set<int>)
      requires Valid() && marks != [] && !marks[|marks| - 1].refuted && Answers(truths)
      ensures |states| == |marks|
      ensures var s := states[|marks| - 1];
              |s.bad| == |c.bad| && (c.justice != [] ==> |s.just| == |c.justice|) &&
              Behind(c, Found(truths), marks, ReadTrue(truths, s.bad),
                     if c.justice == [] then {} else ReadTrue(truths, s.just))
    {
      hide Are, Is, Script, StateIs, Model.Ok, Model.Supported, UpTo, JoinLits, Cnf.Satisfies, Sat, Numbered, Behind,
        ReadTrue;
      var k, a := |marks| - 1, Assigned(truths);
      var w := Reading(vars, a);
      LastAssumption(c, vars, k, states[k], marks[k]);
      MarksGrow(marks, justice);
      ReadAgrees(vars, nvars, a);
      ReadClauses(vars, clauses, formula, a, w);
      DerefTrue(truths, states[k].assumption);
      ReadLit(vars, a, w, states[k].assumption, P(Assume(k)));
      StateReports(c, vars, states[k], marks, truths);
    }

    lemma FirstVariable()
      requires c.Ok() && nvars == 1 && clauses == [[1]] && formula == [[P(One)]] && vars == map[One := 1]
      ensures Ready() && UpTo(vars, Key(0, 1, 0, 0, 0)) && UpTo(vars, Key(1, 0, 0, 0, 0))
    {
      hide Model.Ok;
      assert Is(vars, 1, P(One));
      assert Are(vars, clauses[0], formula[0]);
    }

    /** The solver would answer yes under the last assumption. */
    ghost predicate Answer(lit: int)
      reads this`clauses
    {
      exists a :: Cnf.True(a, lit) && forall i :: 0 <= i < |clauses| ==> Cnf.Satisfies(a, clauses[i])
    }

    /** The solver's answer under the last assumption is exact. */
    lemma Exact()
      requires Valid() && marks != [] && !marks[|marks| - 1].refuted
      ensures |states| == |marks|
      ensures Answer(states[|marks| - 1].assumption) <==>
              Witnessed(c, |marks|, marks[|marks| - 1].bad, marks[|marks| - 1].justice)
    {
      hide Are, Is, Script, StateIs, Model.Ok, Model.Supported, UpTo, JoinLits, Witnessed, Cnf.Satisfies, Sat, Numbered;
      var k := |marks| - 1;
      LastAssumption(c, vars, k, states[k], marks[k]);
      MarksGrow(marks, justice);
      BoundedExact(c, marks);
      forall a | Cnf.True(a, states[k].assumption) && forall i :: 0 <= i < |clauses| ==> Cnf.Satisfies(a, clauses[i])
        ensures exists w :: SatAll(w, Script(c, marks)) && Assume(k) in w
      {
        var w := Reading(vars, a);
        ReadAgrees(vars, nvars, a);
        ReadClauses(vars, clauses, formula, a, w);
        ReadLit(vars, a, w, states[k].assumption, P(Assume(k)));
      }
      forall w | SatAll(w, Script(c, marks)) && Assume(k) in w ensures Answer(states[k].assumption) {
        var a := Writing(vars, w);
        WriteReads(vars, nvars, w);
        ReadClauses(vars, clauses, formula, a, w);
        ReadLit(vars, a, w, states[k].assumption, P(Assume(k)));
      }
    }
  }

  /** The valuation an assignment stands for. */
  ghost function Reading(vars: Vars, a: Cnf.Assignment): Valuation {
    iset n | n in vars && vars[n] in a
  }

  ghost function Writing(vars: Vars, w: Valuation): Cnf.Assignment {
    iset x: int | Written(vars, w, x)
  }

  ghost predicate Written(vars: Vars, w: Valuation, x: int) {
    exists n :: n in vars && vars[n] == x && n in w
  }

  ghost predicate Agrees(vars: Vars, a: Cnf.Assignment, w: Valuation) {
    forall n :: n in vars ==> vars[n] > 0 && (vars[n] in a <==> n in w)
  }

  lemma ReadAgrees(vars: Vars, nvars: nat, a: Cnf.Assignment)
    requires Numbered(vars, nvars)
    ensures Agrees(vars, a, Reading(vars, a))
  {
  }

  lemma WriteReads(vars: Vars, nvars: nat, w: Valuation)
    requires Numbered(vars, nvars)
    ensures Agrees(vars, Writing(vars, w), w)
  {
    forall n | n in vars ensures vars[n] in Writing(vars, w) <==> n in w {
      assert n in w ==> Written(vars, w, vars[n]);
    }
  }

  lemma ReadLit(vars: Vars, a: Cnf.Assignment, w: Valuation, x: int, l: Lit)
    requires Agrees(vars, a, w) && Is(vars, x, l)
    ensures Cnf.True(a, x) <==> T(w, l)
  {
  }

  lemma ReadClause(vars: Vars, a: Cnf.Assignment, w: Valuation, c: seq<int>, sym: Sym)
    requires Agrees(vars, a, w) && Are(vars, c, sym)
    ensures Cnf.Satisfies(a, c) <==> Sat(w, sym)
  {
    hide Agrees, Is, Cnf.True, T;
    forall i | 0 <= i < |c| ensures Cnf.True(a, c[i]) <==> T(w, sym[i]) {
      ReadLit(vars, a, w, c[i], sym[i]);
    }
  }

  lemma ReadClauses(vars: Vars, clauses: seq<seq<int>>, formula: seq<Sym>, a: Cnf.Assignment, w: Valuation)
    requires Represents(vars, clauses, formula) && Agrees(vars, a, w)
    ensures (forall i :: 0 <= i < |clauses| ==> Cnf.Satisfies(a, clauses[i])) <==> SatAll(w, formula)
  {
    hide Agrees, Are, Cnf.Satisfies, Sat;
    forall i | 0 <= i < |clauses| ensures Cnf.Satisfies(a, clauses[i]) <==> Sat(w, formula[i]) {
      ReadClause(vars, a, w, clauses[i], formula[i]);
    }
    forall s | s in formula && (forall i :: 0 <= i < |clauses| ==> Cnf.Satisfies(a, clauses[i])) ensures Sat(w, s) {
      var i :| 0 <= i < |formula| && formula[i] == s;
      assert Cnf.Satisfies(a, clauses[i]);
    }
  }

  // ----- what a satisfiable bound reports -----

  /** deref, for a model given by its true variables. */
  predicate Deref(truths: set<int>, lit: int) {
    if lit > 0 then lit in truths else -lit !in truths
  }

  ghost function Assigned(truths: set<int>): Cnf.Assignment {
    iset x: int | x in truths
  }

  lemma DerefTrue(truths: set<int>, lit: int)
    ensures Deref(truths, lit) <==> Cnf.True(Assigned(truths), lit)
  {
  }

  /** The positions of the true literals. */
  function ReadTrue(truths: set<int>, lits: seq<int>): set<nat> {
    set i: nat | i < |lits| && Deref(truths, lits[i])
  }

  lemma ReadTrueMore(truths: set<int>, lits: seq<int>, i: nat)
    requires i < |lits|
    ensures ReadTrue(truths, lits[..i + 1]) == ReadTrue(truths, lits[..i]) + if Deref(truths, lits[i]) then {i} else {}
  {
    hide Deref;
  }

  /** A constrained run of the bound that ends in all these bad states and closes a lasso
      for each of these justice properties, unless it slips or the property is empty. With
      nothing to mix no run slips. */
  ghost predicate Behind(c: Model, r: Run, marks: seq<Mark>, bad: set<nat>, justice: set<nat>)
    requires c.Ok() && marks != []
  {
    |r| == |marks| && IsRun(c, r) && (forall t :: 0 <= t < |marks| ==> Constrained(c, r[t])) &&
    (forall i :: i in bad ==> i < |c.bad| && V(c, r[|marks| - 1], c.bad[i])) &&
    (forall i :: i in justice ==> i < |c.justice| && Backed(c, r, marks, i))
  }

  lemma BehindLess(c: Model, r: Run, marks: seq<Mark>, bad: set<nat>, justice: set<nat>,
                   bad': set<nat>, justice': set<nat>)
    requires c.Ok() && marks != [] && Behind(c, r, marks, bad, justice) && bad' <= bad && justice' <= justice
    ensures Behind(c, r, marks, bad', justice')
  {
    hide V, IsRun, Constrained, Backed, Model.Ok;
  }

  lemma GrowingMore(marks: seq<Mark>, done: set<nat>, more: set<nat>)
    requires Growing(marks, done) && done <= more
    ensures Growing(marks, more)
  {
  }

  lemma StateReports(c: Model, vars: Vars, s: State, marks: seq<Mark>, truths: set<int>)
    requires c.Ok() && marks != [] && StateIs(c, vars, |marks| - 1, s, marks[|marks| - 1])
    requires Agrees(vars, Assigned(truths), Reading(vars, Assigned(truths)))
    requires SatAll(Reading(vars, Assigned(truths)), Script(c, marks)) &&
             Assume(|marks| - 1) in Reading(vars, Assigned(truths))
    requires forall u :: 0 <= u < |marks| ==> marks[u].justice <= marks[|marks| - 1].justice
    ensures |s.bad| == |c.bad| && (c.justice != [] ==> |s.just| == |c.justice|)
    ensures Behind(c, RunOf(c, Reading(vars, Assigned(truths)), |marks|), marks, ReadTrue(truths, s.bad),
                   if c.justice == [] then {} else ReadTrue(truths, s.just))
  {
    var w, k := Reading(vars, Assigned(truths)), |marks| - 1;
    StateLits(c, vars, k, s, marks[k]);
    hide StateIs, Are, Script, SatAll, Agrees, Model.Ok, IsRun, Constrained, Backed, V, ScriptMeans, Reading,
      RunOf;
    ScriptMeaning(c, w, marks);
    ModelIsRun(c, w, marks);
    RunLength(c, w, |marks|);
    RunStates(c, w, |marks|);
    forall t | 0 <= t < |marks| ensures Constrained(c, RunOf(c, w, |marks|)[t]) {
      ModelConstrained(c, w, marks, t);
    }
    BadReports(c, vars, s, marks, truths, w);
    if c.justice != [] {
      JusticeReports(c, vars, s, marks, truths, w);
    }
  }

  lemma BadReports(c: Model, vars: Vars, s: State, marks: seq<Mark>, truths: set<int>, w: Valuation)
    requires c.Ok() && marks != [] && ScriptMeans(c, w, marks) && Agrees(vars, Assigned(truths), w)
    requires Are(vars, s.bad, BadLits(c, |marks| - 1, marks[|marks| - 1].bad, |c.bad|)) && |s.bad| == |c.bad|
    ensures |RunOf(c, w, |marks|)| == |marks|
    ensures forall i :: i in ReadTrue(truths, s.bad) ==>
            i < |c.bad| && V(c, RunOf(c, w, |marks|)[|marks| - 1], c.bad[i])
  {
    hide Are, Agrees, Model.Ok, V, ScriptMeans, RunOf;
    RunLength(c, w, |marks|);
    var k := |marks| - 1;
    forall i | i in ReadTrue(truths, s.bad) ensures i < |c.bad| && V(c, RunOf(c, w, |marks|)[k], c.bad[i]) {
      DerefTrue(truths, s.bad[i]);
      AreAt(vars, s.bad, BadLits(c, k, marks[k].bad, |c.bad|), i);
      ReadLit(vars, Assigned(truths), w, s.bad[i], BadLit(c, k, marks[k].bad, i));
      ReportedBad(c, w, marks, i);
    }
  }

  lemma JusticeReports(c: Model, vars: Vars, s: State, marks: seq<Mark>, truths: set<int>, w: Valuation)
    requires c.Ok() && marks != [] && ScriptMeans(c, w, marks) && Agrees(vars, Assigned(truths), w)
    requires Are(vars, s.just, JusticeLits(|marks| - 1, marks[|marks| - 1].justice, |c.justice|)) &&
             |s.just| == |c.justice|
    requires Assume(|marks| - 1) in w
    requires forall u :: 0 <= u < |marks| ==> marks[u].justice <= marks[|marks| - 1].justice
    ensures |RunOf(c, w, |marks|)| == |marks|
    ensures forall i :: i in ReadTrue(truths, s.just) ==> i < |c.justice| && Backed(c, RunOf(c, w, |marks|), marks, i)
  {
    hide Are, Agrees, Model.Ok, Backed, ScriptMeans, RunOf;
    RunLength(c, w, |marks|);
    var k := |marks| - 1;
    forall i | i in ReadTrue(truths, s.just) ensures i < |c.justice| && Backed(c, RunOf(c, w, |marks|), marks, i) {
      DerefTrue(truths, s.just[i]);
      AreAt(vars, s.just, JusticeLits(k, marks[k].justice, |c.justice|), i);
      ReadLit(vars, Assigned(truths), w, s.just[i], JustLit(k, marks[k].justice, i));
      ReportedJustice(c, w, marks, i);
    }
  }

  lemma StateLits(c: Model, vars: Vars, t: nat, s: State, m: Mark)
    requires StateIs(c, vars, t, s, m)
    ensures Are(vars, s.bad, BadLits(c, t, m.bad, |c.bad|)) && |s.bad| == |c.bad|
    ensures c.justice != [] ==> Are(vars, s.just, JusticeLits(t, m.justice, |c.justice|)) && |s.just| == |c.justice|
  {
  }

  lemma RunStates(c: Model, w: Valuation, n: nat)
    ensures |RunOf(c, w, n)| == n && forall t :: 0 <= t < n ==> RunOf(c, w, n)[t] == Env(c, w, t)
  {
  }

  /** The frames encoded so far. */
  ghost predicate Frames(c: Model, vars: Vars, formula: seq<Sym>, join: seq<int>, states: seq<State>, marks: seq<Mark>,
                         done: set<nat>) {
    formula == Script(c, marks) && |states| == |marks| && UpTo(vars, Key(|marks| + 1, 0, 0, 0, 0)) &&
    (c.justice != [] ==> Are(vars, join, JoinLits(|c.latches|))) && (marks != [] ==> c.Supported()) &&
    (forall t :: 0 <= t < |marks| ==> StateIs(c, vars, t, states[t], marks[t])) && Growing(marks, done)
  }

  /** Reached properties stay reached. */
  ghost predicate Growing(marks: seq<Mark>, done: set<nat>) {
    (forall t :: 0 <= t < |marks| ==> marks[t].justice <= done) &&
    forall t, u :: 0 <= t < u < |marks| ==> marks[t].justice <= marks[u].justice
  }

  lemma MarksGrow(marks: seq<Mark>, done: set<nat>)
    requires Growing(marks, done) && marks != []
    ensures forall u :: 0 <= u < |marks| ==> marks[u].justice <= marks[|marks| - 1].justice
  {
  }

  lemma FramesLast(c: Model, vars: Vars, formula: seq<Sym>, join: seq<int>, states: seq<State>, marks: seq<Mark>,
                   done: set<nat>)
    requires Frames(c, vars, formula, join, states, marks, done)
    ensures |states| == |marks| && UpTo(vars, Key(|marks| + 1, 0, 0, 0, 0))
    ensures c.justice != [] ==> Are(vars, join, JoinLits(|c.latches|))
    ensures marks != [] ==> c.Supported()
    ensures var t := |states|; forall prev :: t == 0 || prev == states[t - 1] ==>
              PrevIs(c, vars, t, prev, done) && (t > 0 ==> Are(vars, prev.nexts, Imports(c, t - 1, Nexts(c))))
  {
    hide Are, UpTo, StateIs, PrevIs, JoinLits, Imports, Model.Supported, Script;
    var t := |states|;
    forall prev | t == 0 || prev == states[t - 1]
      ensures PrevIs(c, vars, t, prev, done) && (t > 0 ==> Are(vars, prev.nexts, Imports(c, t - 1, Nexts(c))))
    {
      PrevBasis(c, vars, t, prev, if t > 0 then marks[t - 1] else Mark({}, {}, false), done);
    }
  }

  lemma FramesLength(c: Model, vars: Vars, formula: seq<Sym>, join: seq<int>, states: seq<State>, marks: seq<Mark>,
                     done: set<nat>)
    requires Frames(c, vars, formula, join, states, marks, done)
    ensures |states| == |marks|
  {
  }

  lemma FramesMore(c: Model, vars0: Vars, vars: Vars, f0: seq<Sym>, formula: seq<Sym>, join: seq<int>,
                   states: seq<State>, marks: seq<Mark>, done: set<nat>, s: State, m: Mark)
    requires Frames(c, vars0, f0, join, states, marks, done) && Ext(vars0, vars) &&
             UpTo(vars, Key(|marks| + 2, 0, 0, 0, 0))
    requires StateIs(c, vars, |marks|, s, m) && formula == f0 + FrameAndUnit(c, |marks|, m) && m.justice == done &&
             c.Supported()
    ensures Frames(c, vars, formula, join, states + [s], marks + [m], done)
  {
    hide Are, UpTo, StateIs, JoinLits, Model.Supported, Script, FrameAndUnit, Ext;
    ScriptMore(c, marks, m);
    forall u | 0 <= u < |marks| + 1 ensures StateIs(c, vars, u, (states + [s])[u], (marks + [m])[u]) {
      if u < |marks| {
        StateMono(c, vars0, vars, u, states[u], marks[u]);
      }
    }
    if c.justice != [] {
      AreMono(vars0, vars, join, JoinLits(|c.latches|));
    }
  }

  lemma NoFrames(c: Model, vars: Vars, join: seq<int>)
    requires UpTo(vars, Key(1, 0, 0, 0, 0)) && (c.justice != [] ==> Are(vars, join, JoinLits(|c.latches|)))
    ensures Frames(c, vars, [[P(One)]], join, [], [], {})
  {
    assert Script(c, []) == [[P(One)]] + [];
  }

  lemma LastAssumption(c: Model, vars: Vars, t: nat, s: State, m: Mark)
    requires StateIs(c, vars, t, s, m)
    ensures Is(vars, s.assumption, P(Assume(t)))
  {
  }

  lemma StateUnmarked(c: Model, vars: Vars, t: nat, s: State, m: Mark)
    requires StateIs(c, vars, t, s, m)
    ensures StateIs(c, vars, t, s, m.(refuted := true))
  {
  }

  lemma ScriptRefuted(c: Model, marks: seq<Mark>)
    requires marks != [] && !marks[|marks| - 1].refuted
    ensures var k := |marks| - 1;
            Script(c, marks[k := marks[k].(refuted := true)]) == Script(c, marks) + [[N(Assume(k))]]
  {
    hide Script, Frame;
    var k := |marks| - 1;
    var init, m := marks[..k], marks[k];
    ScriptMore(c, init, m);
    ScriptMore(c, init, m.(refuted := true));
    assert marks == init + [m] && marks[k := m.(refuted := true)] == init + [m.(refuted := true)];
    assert FrameAndUnit(c, k, m) == Frame(c, k, m.bad, m.justice);
  }

  /** The remembered literals of the justice properties not reached. */
  ghost predicate SeenOk(c: Model, vars: Vars, t: nat, seen: seq<seq<int>>, done: set<nat>) {
    |seen| == |c.justice| &&
    forall i :: 0 <= i < |c.justice| && i !in done ==> Are(vars, seen[i], SeenLits(t, i, |c.justice[i]|))
  }

  lemma SeenMono(c: Model, vars: Vars, vars': Vars, t: nat, seen: seq<seq<int>>, done: set<nat>)
    requires Ext(vars, vars') && SeenOk(c, vars, t, seen, done)
    ensures SeenOk(c, vars', t, seen, done)
  {
    hide Are, Ext, SeenLits;
    forall i | 0 <= i < |c.justice| && i !in done ensures Are(vars', seen[i], SeenLits(t, i, |c.justice[i]|)) {
      AreMono(vars, vars', seen[i], SeenLits(t, i, |c.justice[i]|));
    }
  }

  /** The state a frame inherits from. */
  ghost predicate PrevIs(c: Model, vars: Vars, t: nat, prev: State, done: set<nat>) {
    t > 0 ==>
      Are(vars, prev.nexts, Imports(c, t - 1, Nexts(c))) &&
        (c.constraints != [] ==> Is(vars, prev.sane, P(Sane(t - 1)))) &&
      (c.justice != [] ==> Is(vars, prev.loop, LoopLit(t - 1)) && SeenOk(c, vars, t - 1, prev.seen, done)) &&
      (c.justice != [] && c.fairness != [] ==> Are(vars, prev.fair, FairLits(t - 1, |c.fairness|)))
  }

  lemma PrevMono(c: Model, vars: Vars, vars': Vars, t: nat, prev: State, done: set<nat>)
    requires PrevIs(c, vars, t, prev, done) && Ext(vars, vars')
    ensures PrevIs(c, vars', t, prev, done)
  {
    hide Are, Ext, Is, Imports, FairLits, SeenOk;
    if t > 0 {
      AreMono(vars, vars', prev.nexts, Imports(c, t - 1, Nexts(c)));
      if c.constraints != [] {
        IsMono(vars, vars', prev.sane, P(Sane(t - 1)));
      }
      if c.justice != [] {
        IsMono(vars, vars', prev.loop, LoopLit(t - 1));
        SeenMono(c, vars, vars', t - 1, prev.seen, done);
        if c.fairness != [] {
          AreMono(vars, vars', prev.fair, FairLits(t - 1, |c.fairness|));
        }
      }
    }
  }

  /** All a frame's properties are encoded from. */
  ghost predicate Basis(c: Model, vars: Vars, t: nat, prev: State, done: set<nat>, inputs: seq<int>, latches: seq<int>,
                        ands: seq<int>, nexts: seq<int>, assumption: int, join: seq<int>) {
    Known(c, vars, t, inputs, latches, ands) && |ands| == |c.ands| && Are(vars, nexts, Imports(c, t, Nexts(c))) &&
    Is(vars, assumption, P(Assume(t))) && PrevIs(c, vars, t, prev, done) &&
    (c.justice != [] ==> Are(vars, join, JoinLits(|c.latches|)))
  }

  lemma BasisMono(c: Model, vars: Vars, vars': Vars, t: nat, prev: State, done: set<nat>, inputs: seq<int>,
                  latches: seq<int>, ands: seq<int>, nexts: seq<int>, assumption: int, join: seq<int>)
    requires Basis(c, vars, t, prev, done, inputs, latches, ands, nexts, assumption, join) && Ext(vars, vars')
    ensures Basis(c, vars', t, prev, done, inputs, latches, ands, nexts, assumption, join)
  {
    hide Are, Ext, Is, Imports, PrevIs, Known, JoinLits;
    KnownMono(c, vars, vars', t, inputs, latches, ands);
    AreMono(vars, vars', nexts, Imports(c, t, Nexts(c)));
    IsMono(vars, vars', assumption, P(Assume(t)));
    PrevMono(c, vars, vars', t, prev, done);
    if c.justice != [] {
      AreMono(vars, vars', join, JoinLits(|c.latches|));
    }
  }

  lemma BasisParts(c: Model, vars: Vars, t: nat, prev: State, done: set<nat>, inputs: seq<int>, latches: seq<int>,
                   ands: seq<int>, nexts: seq<int>, assumption: int, join: seq<int>)
    requires Basis(c, vars, t, prev, done, inputs, latches, ands, nexts, assumption, join)
    ensures Known(c, vars, t, inputs, latches, ands) && |ands| == |c.ands| && Are(vars, nexts, Imports(c, t, Nexts(c)))
    ensures Is(vars, assumption, P(Assume(t))) && (c.justice != [] ==> Are(vars, join, JoinLits(|c.latches|)))
    ensures t > 0 && c.constraints != [] ==> Is(vars, prev.sane, P(Sane(t - 1)))
    ensures t > 0 && c.justice != [] ==> Is(vars, prev.loop, LoopLit(t - 1)) && SeenOk(c, vars, t - 1, prev.seen, done)
    ensures t > 0 && c.justice != [] && c.fairness != [] ==> Are(vars, prev.fair, FairLits(t - 1, |c.fairness|))
  {
  }

  lemma MakeBasis(c: Model, vars0: Vars, vars: Vars, t: nat, prev: State, done: set<nat>, inputs: seq<int>,
                  latches: seq<int>, ands: seq<int>, nexts: seq<int>, assumption: int, join: seq<int>)
    requires PrevIs(c, vars0, t, prev, done) && Ext(vars0, vars) && Known(c, vars, t, inputs, latches, ands) &&
             |ands| == |c.ands|
    requires Are(vars, nexts, Imports(c, t, Nexts(c))) && Is(vars, assumption, P(Assume(t)))
    requires c.justice != [] ==> Are(vars0, join, JoinLits(|c.latches|))
    ensures Basis(c, vars, t, prev, done, inputs, latches, ands, nexts, assumption, join)
  {
    hide Are, Ext, Is, Imports, PrevIs, Known, JoinLits;
    PrevMono(c, vars0, vars, t, prev, done);
    if c.justice != [] {
      AreMono(vars0, vars, join, JoinLits(|c.latches|));
    }
  }

  /** The last state serves as the predecessor of the next frame. */
  lemma PrevBasis(c: Model, vars: Vars, t: nat, prev: State, m: Mark, done: set<nat>)
    requires t > 0 ==> StateIs(c, vars, t - 1, prev, m) && m.justice <= done
    ensures PrevIs(c, vars, t, prev, done) && (t > 0 ==> Are(vars, prev.nexts, Imports(c, t - 1, Nexts(c))))
  {
    hide Are, Is, Imports, FairLits, SeenLits;
  }

  lemma StateAssumption(c: Model, vars: Vars, t: nat, s: State, m: Mark, lit: int)
    requires StateIs(c, vars, t, s, m) && (Is(vars, lit, P(Assume(t))) || s.assumption == lit)
    ensures s.assumption == lit
  {
  }

  lemma {:induction false} EachSame<S>(n: nat, f: nat --> seq<S>, g: nat --> seq<S>)
    requires forall i: nat :: i < n ==> f.requires(i) && g.requires(i) && f(i) == g(i)
    ensures Each(n, f) == Each(n, g)
  {
    if n > 0 {
      EachSame(n - 1, f, g);
    }
  }

  lemma ScriptMore(c: Model, marks: seq<Mark>, m: Mark)
    ensures Script(c, marks + [m]) == Script(c, marks) + FrameAndUnit(c, |marks|, m)
  {
    hide FrameAndUnit;
    var f, g := FrameList(c, marks), FrameList(c, marks + [m]);
    EachSame(|marks|, f, g);
    EachMore(|marks|, g);
  }

  lemma FrameIs(c: Model, t: nat, m: Mark, f0: seq<Sym>)
    requires !m.refuted
    ensures f0 + GateFrame(c, t) + BadClauses(c, t, m.bad) + SaneClauses(c, t) + AllJustice(c, t, m.justice) +
            Fairness(c, t, m.justice) + Goal(c, t, m.bad, m.justice) == f0 + FrameAndUnit(c, t, m)
  {
    hide GateFrame, BadClauses, SaneClauses, AllJustice, Fairness, Goal;
    var a := GateFrame(c, t) + BadClauses(c, t, m.bad) + SaneClauses(c, t) + AllJustice(c, t, m.justice) +
             Fairness(c, t, m.justice) + Goal(c, t, m.bad, m.justice);
    assert FrameAndUnit(c, t, m) == a + [] == a;
  }

  lemma OkNexts(c: Model)
    requires c.Ok()
    ensures forall i :: 0 <= i < |Nexts(c)| ==> Nexts(c)[i] / 2 <= c.Leaves() + |c.ands|
  {
  }

  lemma FairLitsAt(t: nat, n: nat, i: nat)
    requires i < n
    ensures FairLits(t, n)[i] == P(Fair(t, i))
  {
  }

  lemma SeenLitsAt(t: nat, i: nat, n: nat, j: nat)
    requires j < n
    ensures SeenLits(t, i, n)[j] == P(Seen(t, i, j))
  {
  }

  lemma JustFirst(t: nat, done: set<nat>, n: nat)
    requires n > 0
    ensures JusticeLits(t, done, n)[0] == JustLit(t, done, 0)
  {
  }

  lemma DoneClauses(c: Model, t: nat, done: set<nat>, i: nat)
    requires i < |c.justice| && i in done
    ensures JusticeClauses(c, t, done, i) == []
  {
  }

  lemma OkBad(c: Model, i: nat)
    requires c.Ok() && i < |c.bad|
    ensures c.bad[i] / 2 <= c.Leaves() + |c.ands|
  {
  }

  lemma OkConstraints(c: Model)
    requires c.Ok()
    ensures forall i :: 0 <= i < |c.constraints| ==> c.constraints[i] / 2 <= c.Leaves() + |c.ands|
  {
  }

  lemma BadIs(c: Model, vars: Vars, t: nat, done: set<nat>, i: nat, x: int)
    requires i < |c.bad| && (if i in done then Is(vars, x, N(One)) else Is(vars, x, Import(c, t, c.bad[i])))
    ensures Is(vars, x, BadLit(c, t, done, i))
  {
  }

  lemma AreCons(vars: Vars, x: int, l: Lit, xs: seq<int>, ls: Sym)
    requires Is(vars, x, l) && Are(vars, xs, ls)
    ensures Are(vars, [x] + xs, [l] + ls)
  {
    forall i | 0 <= i < |xs| + 1 ensures Is(vars, ([x] + xs)[i], ([l] + ls)[i]) {
      if i > 0 {
        assert Is(vars, xs[i - 1], ls[i - 1]);
      }
    }
  }

  lemma AreAt(vars: Vars, xs: seq<int>, ls: Sym, i: nat)
    requires Are(vars, xs, ls) && i < |ls|
    ensures |xs| == |ls| && Is(vars, xs[i], ls[i])
  {
  }

  lemma BadFirst(c: Model, t: nat, done: set<nat>)
    requires |c.bad| >= 1
    ensures BadLits(c, t, done, 1)[0] == BadLit(c, t, done, 0)
  {
  }

  lemma ImportsAt(c: Model, t: nat, lits: seq<nat>, i: nat)
    requires i < |lits|
    ensures Imports(c, t, lits)[i] == Import(c, t, lits[i])
  {
  }

  lemma LatchLitsAt(c: Model, t: nat, i: nat)
    requires i < |c.latches|
    ensures LatchLits(c, t, |c.latches|)[i] == LatchLit(c, t, i) && JoinLits(|c.latches|)[i] == P(Join(i))
    ensures Nexts(c)[i] == c.latches[i].next
  {
  }

  lemma HereIs(c: Model, t: nat, i: nat)
    requires i < |c.latches|
    ensures HereClauses(c, t, i) ==
            [[N(Here(t)), N(Join(i)), LatchLit(c, t, i)], [N(Here(t)), P(Join(i)), LatchLit(c, t, i).Neg()]]
    ensures var l := Import(c, t, c.latches[i].next);
            CloseClauses(c, t, i) == [[N(Assume(t)), N(Join(i)), l], [N(Assume(t)), P(Join(i)), l.Neg()]]
  {
  }

  lemma NameNew(vars: Vars, name: Name)
    requires UpTo(vars, KeyOf(name))
    ensures name !in vars
  {
  }

  lemma ExtSelf(vars: Vars)
    ensures Ext(vars, vars)
  {
  }

  lemma ImportsNone(c: Model, t: nat, lits: seq<nat>)
    ensures Imports(c, t, lits[..0]) == []
  {
  }

  lemma OneIs(nvars: nat, vars: Vars, clauses: seq<seq<int>>, formula: seq<Sym>)
    requires SolverOk(nvars, vars, clauses, formula)
    ensures Is(vars, 1, P(One)) && Is(vars, -1, N(One))
  {
  }

  lemma UpToMaybe(vars: Vars, i: nat)
    ensures UpTo(vars, Key(1, 0, i, 0, 0)) ==> UpTo(vars, Key(1, 0, i + 1, 0, 0))
  {
  }
}
