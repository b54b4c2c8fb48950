/** What lrat-check.c accepts, stated on sets of marked literals, and what an
    acceptance means. */
module LratSpec {
  import opened Cnf

  /** How a check ends. The first three are SUCCESS in the source: a falsified
      hint clause (lrat-check.c:89), hints that merely run out with no resolution
      candidate listed (lrat-check.c:93), and every resolution candidate closed
      (lrat-check.c:141). */
  datatype Exit = Conflict | Exhausted | Resolved | Rejected | Abort {
    predicate Accepted() {
      Conflict? || Exhausted? || Resolved?
    }
  }

  /** seen: literals known to be false now; keep: those of them that are still
      known to be false when the next resolution candidate is started. */
  datatype Marks = Marks(seen: set<int>, keep: set<int>) {
    function Add(lit: int): Marks {
      Marks(seen + {lit}, keep)
    }

    /** A unit stamps its negation with the current threshold, whatever the
        stamp was before. */
    function Force(lit: int): Marks {
      Marks(seen + {lit}, keep - {lit})
    }
  }

  type Database = map<int, Clause>

  function Live(cls: Database): set<Clause> {
    set i | i in cls :: cls[i]
  }

  ghost predicate Proper(cls: Database) {
    forall i :: i in cls ==> NonZero(cls[i])
  }

  function Unmarked(c: Clause, seen: set<int>): seq<int> {
    if c == [] then []
    else if c[0] in seen then Unmarked(c[1..], seen)
    else [c[0]] + Unmarked(c[1..], seen)
  }

  /** The hint clauses up to the first non-positive hint, each of which has to
      be unit or falsified. */
  function Chain(cls: Database, m: Marks, hints: seq<int>): (Exit, Marks)
    decreases |hints|
  {
    if hints == [] || hints[0] <= 0 then (Exhausted, m)
    else if hints[0] !in cls then (Abort, m)
    else
      var open := Unmarked(cls[hints[0]], m.seen);
      if |open| == 0 then (Conflict, m)
      else if |open| > 1 then (Rejected, m)
      else Chain(cls, m.Force(-open[0]), hints[1..])
  }

  predicate Occurs(cls: Database, lit: int, lo: int, hi: int) {
    exists i :: lo <= i < hi && i in cls && lit in cls[i]
  }

  datatype Marking = Blocked(m: Marks) | Marked(found: bool, m: Marks)

  /** Assume a resolution candidate false, except for the negated pivot. */
  function Candidate(c: Clause, np: int, found: bool, m: Marks): Marking
    decreases |c|
  {
    if c == [] then Marked(found, m)
    else if c[0] == np then Candidate(c[1..], np, true, m)
    else if c[0] in m.seen then Candidate(c[1..], np, found, m)
    else if -c[0] in m.seen then Blocked(m)
    else Candidate(c[1..], np, found, m.Add(c[0]))
  }

  /** One resolution candidate, -hints[0], with its own hint chain. */
  function Group(cls: Database, np: int, start: int, hints: seq<int>, m: Marks): (Exit, Marks)
    requires hints != []
  {
    var res := -hints[0];
    if start > res then (Abort, m)
    else if Occurs(cls, np, start, res) then (Rejected, m)
    else if res !in cls then (Abort, m)
    else match Candidate(cls[res], np, false, m)
      case Blocked(m1) => (Resolved, m1)
      case Marked(found, m1) =>
        if !found then (Rejected, m1)
        else
          var (e, m2) := Chain(cls, m1, hints[1..]);
          (if e == Conflict then Resolved else if e == Exhausted then Rejected else e, m2)
  }

  function SkipPositive(hints: seq<int>): seq<int>
  {
    if hints != [] && hints[0] > 0 then SkipPositive(hints[1..]) else hints
  }

  lemma SkipShortens(hints: seq<int>)
    ensures |SkipPositive(hints)| <= |hints|
    ensures SkipPositive(hints) != [] ==> SkipPositive(hints)[0] <= 0
    ensures forall h :: h in SkipPositive(hints) ==> h in hints
    ensures (forall h :: h in hints ==> h > 0) ==> SkipPositive(hints) == []
  {
    if hints != [] && hints[0] > 0 {
      SkipShortens(hints[1..]);
      assert forall h :: h in hints[1..] ==> h in hints;
    } else if hints != [] {
      assert hints[0] in hints;
    }
  }

  function Groups(cls: Database, np: int, start: int, last: int, hints: seq<int>, seen: set<int>): Exit
    decreases |hints|
  {
    SkipShortens(hints);
    var h := SkipPositive(hints);
    if h == [] then
      if Occurs(cls, np, start, last + 1) then Rejected else Resolved
    else
      var (e, m) := Group(cls, np, start, h, Marks(seen, seen));
      if e != Resolved then e else Groups(cls, np, -h[0] + 1, last, h[1..], m.keep)
  }

  function NegatedPivot(lits: Clause): int {
    if lits == [] then 0 else -lits[0]
  }

  function Max(x: int, y: int): int {
    if x < y then y else x
  }

  /** The verdict on lemma lits with its hints, when the first index that may
      hold the negated pivot is recorded as intro. */
  function Check(cls: Database, last: int, intro: int, lits: Clause, hints: seq<int>): Exit {
    var (e, m) := Chain(cls, Marks(LitSet(lits), LitSet(lits)), hints);
    var h := SkipPositive(hints);
    if !e.Accepted() || h == [] then e
    else if Occurs(cls, NegatedPivot(lits), intro, -h[0]) then Rejected
    else Groups(cls, NegatedPivot(lits), Max(intro, -h[0]), last, hints, m.seen)
  }

  // ----- what a chain of hints proves -----

  lemma UnmarkedMeaning(c: Clause, seen: set<int>)
    ensures forall lit :: lit in c ==> lit in seen || lit in Unmarked(c, seen)
    ensures forall lit :: lit in Unmarked(c, seen) ==> lit in c && lit !in seen
  {
  }

  /** Under any model that falsifies the marks no hint clause is falsified, and
      every new mark is false too. */
  lemma {:induction false} ChainSound(a: Assignment, cls: Database, m: Marks, hints: seq<int>)
    requires Proper(cls) && Models(a, Live(cls)) && FalsifiesAll(a, m.seen)
    ensures var (e, m') := Chain(cls, m, hints);
            e != Conflict && FalsifiesAll(a, m'.seen) && m'.keep <= m.keep && m.seen <= m'.seen
    decreases |hints|
  {
    if hints == [] || hints[0] <= 0 || hints[0] !in cls {
    } else {
      var c := cls[hints[0]];
      var open := Unmarked(c, m.seen);
      UnmarkedMeaning(c, m.seen);
      assert Satisfies(a, c);
      var lit :| lit in c && True(a, lit);
      assert lit in open;
      if |open| == 1 {
        assert lit == open[0];
        ChainSound(a, cls, m.Force(-lit), hints[1..]);
      }
    }
  }

  /** The clauses a chain can use. */
  function Hinted(cls: Database, hints: seq<int>): set<Clause> {
    set h | h in hints && h in cls :: cls[h]
  }

  ghost predicate Consistent(seen: set<int>) {
    forall lit :: lit in seen ==> -lit !in seen
  }

  /** The assignment that falsifies a consistent set of marks. */
  ghost function Witness(seen: set<int>): Assignment {
    iset v | v in seen && v < 0 :: -v
  }

  lemma WitnessFalsifies(seen: set<int>)
    requires Consistent(seen)
    ensures FalsifiesAll(Witness(seen), seen)
    ensures forall lit :: lit in seen && lit != 0 ==> True(Witness(seen), -lit)
  {
    forall lit | lit in seen
      ensures !True(Witness(seen), lit)
      ensures lit != 0 ==> True(Witness(seen), -lit)
    {
      if lit <= 0 {
        assert -lit in Witness(seen) || lit == 0;
      }
    }
  }

  /** Hints that run out leave consistent marks whose falsification satisfies
      every hint clause. */
  lemma {:induction false} ChainExhausted(cls: Database, m: Marks, hints: seq<int>)
    requires Proper(cls) && Consistent(m.seen)
    requires forall h :: h in hints ==> h > 0
    requires Chain(cls, m, hints).0 == Exhausted
    ensures var m' := Chain(cls, m, hints).1;
            m.seen <= m'.seen && Consistent(m'.seen) &&
            forall h :: h in hints ==> h in cls && exists lit :: lit in cls[h] && -lit in m'.seen
    decreases |hints|
  {
    if hints != [] {
      assert hints[0] in hints && forall h :: h in hints[1..] ==> h in hints;
      var c := cls[hints[0]];
      var open := Unmarked(c, m.seen);
      UnmarkedMeaning(c, m.seen);
      var lit := open[0];
      assert lit in open && lit in c && -lit in m.Force(-lit).seen;
      ChainExhausted(cls, m.Force(-lit), hints[1..]);
      assert forall h :: h in hints ==> h == hints[0] || h in hints[1..];
    }
  }

  /** Literals falsified once the first k hint clauses are used: those of base, and the
      negations of what each hint clause leaves open. */
  function Falsified(cls: Database, base: set<int>, hints: seq<int>, k: nat): set<int>
    requires k <= |hints|
  {
    if k == 0 then base
    else
      var before := Falsified(cls, base, hints, k - 1);
      if hints[k - 1] in cls then before + set lit | lit in cls[hints[k - 1]] && lit !in before :: -lit else before
  }

  /** Some hint clause has no literal left: the guard of checkRedundancy's return in its
      hint loop. */
  predicate Closes(cls: Database, lits: Clause, hints: seq<int>) {
    exists k :: 0 <= k < |hints| && hints[k] in cls && LitSet(cls[hints[k]]) <= Falsified(cls, LitSet(lits), hints, k)
  }

  /** A chain that has used k hints without conflict has marked what they falsify. */
  lemma {:induction false} ChainMarks(cls: Database, lits: Clause, hints: seq<int>, k: nat, m: Marks)
    requires k <= |hints| && m.seen == Falsified(cls, LitSet(lits), hints, k)
    requires forall h :: h in hints ==> h > 0
    ensures Chain(cls, m, hints[k..]).0 == Conflict ==> Closes(cls, lits, hints)
    ensures Chain(cls, m, hints[k..]).0 == Exhausted ==>
              forall j :: k <= j < |hints| ==>
                hints[j] in cls && !(LitSet(cls[hints[j]]) <= Falsified(cls, LitSet(lits), hints, j))
    decreases |hints| - k
  {
    if k < |hints| {
      assert hints[k] in hints && hints[k..][0] == hints[k] && hints[k..][1..] == hints[k + 1..];
    }
    if k < |hints| && hints[k] in cls {
      var c := cls[hints[k]];
      var open := Unmarked(c, m.seen);
      UnmarkedMeaning(c, m.seen);
      if |open| == 0 {
        assert open == [] && forall lit :: lit in c ==> lit in m.seen;
        forall lit | lit in LitSet(c) ensures lit in m.seen {
          assert lit in c;
        }
      } else if |open| == 1 {
        assert open[0] in open && open[0] in LitSet(c);
        assert forall lit :: lit in c && lit !in m.seen ==> lit == open[0];
        assert m.Force(-open[0]).seen == Falsified(cls, LitSet(lits), hints, k + 1);
        ChainMarks(cls, lits, hints, k + 1, m.Force(-open[0]));
      }
    }
  }

  /** Among the accepted checks without resolution candidates, the hint loop's return is
      the exit of exactly those with a closed hint clause. */
  lemma ConflictCloses(cls: Database, last: int, intro: int, lits: Clause, hints: seq<int>)
    requires forall h :: h in hints ==> h > 0
    requires Check(cls, last, intro, lits, hints).Accepted()
    ensures Check(cls, last, intro, lits, hints) == Conflict <==> Closes(cls, lits, hints)
  {
    SkipShortens(hints);
    var m := Marks(LitSet(lits), LitSet(lits));
    ChainExit(cls, m, hints);
    assert hints[0..] == hints;
    ChainMarks(cls, lits, hints, 0, m);
  }

  /** A lemma accepted without resolution candidates follows from its hint
      clauses exactly when some hint clause is closed, or the lemma is a tautology. */
  lemma RupExact(cls: Database, last: int, intro: int, lits: Clause, hints: seq<int>)
    requires Proper(cls) && NonZero(lits)
    requires forall h :: h in hints ==> h > 0
    requires Check(cls, last, intro, lits, hints).Accepted()
    ensures Implies(Hinted(cls, hints), lits) <==> Closes(cls, lits, hints) || Tautology(lits)
  {
    SkipShortens(hints);
    ConflictCloses(cls, last, intro, lits, hints);
    hide Closes;
    var m := Marks(LitSet(lits), LitSet(lits));
    var (e, m') := Chain(cls, m, hints);
    if Tautology(lits) {
      TautologyTrue(lits);
    } else if e == Conflict {
      ConflictImplies(cls, m, lits, hints);
    } else {
      assert Consistent(m.seen);
      ChainExit(cls, m, hints);
      ChainExhausted(cls, m, hints);
      WitnessFalsifies(m'.seen);
      var a := Witness(m'.seen);
      forall c | c in Hinted(cls, hints) ensures Satisfies(a, c) {
        var h :| h in hints && h in cls && cls[h] == c;
        var lit :| lit in cls[h] && -lit in m'.seen;
        assert lit in c && True(a, lit);
      }
      assert Models(a, Hinted(cls, hints)) && !Satisfies(a, lits);
    }
  }

  lemma TautologyTrue(lits: Clause)
    requires NonZero(lits) && Tautology(lits)
    ensures forall a :: Satisfies(a, lits)
  {
    var lit :| lit in lits && -lit in lits;
    forall a ensures Satisfies(a, lits) {
      assert lit in lits && -lit in lits && (True(a, lit) || True(a, -lit));
    }
  }

  /** Only the clauses named by the hints matter to a chain. */
  lemma {:induction false} ChainRestrict(cls: Database, sub: Database, m: Marks, hints: seq<int>)
    requires forall h :: h in hints ==> (h in cls <==> h in sub) && (h in cls ==> cls[h] == sub[h])
    ensures Chain(cls, m, hints) == Chain(sub, m, hints)
    decreases |hints|
  {
    if hints != [] && hints[0] > 0 && hints[0] in cls {
      var open := Unmarked(cls[hints[0]], m.seen);
      if |open| == 1 {
        ChainRestrict(cls, sub, m.Force(-open[0]), hints[1..]);
      }
    }
  }

  lemma ConflictImplies(cls: Database, m: Marks, lits: Clause, hints: seq<int>)
    requires Proper(cls) && m.seen == LitSet(lits) && Chain(cls, m, hints).0 == Conflict
    ensures Implies(Hinted(cls, hints), lits)
  {
    var sub := map h | h in cls && h in hints :: cls[h];
    ChainRestrict(cls, sub, m, hints);
    forall c | c in Live(sub) ensures c in Hinted(cls, hints) {
      var h :| h in sub && sub[h] == c;
    }
    forall a | Models(a, Hinted(cls, hints)) ensures Satisfies(a, lits) {
      if !Satisfies(a, lits) {
        assert FalsifiesAll(a, m.seen);
        assert Models(a, Live(sub));
        ChainSound(a, sub, m, hints);
      }
    }
  }

  // ----- resolution candidates -----

  /** Some literal of c other than np is true. */
  ghost predicate OtherTrue(a: Assignment, c: Clause, np: int) {
    exists lit :: lit in c && lit != np && True(a, lit)
  }

  lemma {:induction false} CandidateSound(a: Assignment, c: Clause, np: int, found: bool, m: Marks)
    requires NonZero(c) && !OtherTrue(a, c, np) && FalsifiesAll(a, m.seen)
    ensures Candidate(c, np, found, m).Marked?
    ensures FalsifiesAll(a, Candidate(c, np, found, m).m.seen)
    decreases |c|
  {
    if c != [] {
      assert c[0] in c;
      assert !OtherTrue(a, c[1..], np) by {
        assert forall lit :: lit in c[1..] ==> lit in c;
      }
      if c[0] == np {
        CandidateSound(a, c[1..], np, true, m);
      } else {
        assert !True(a, c[0]);
        CandidateSound(a, c[1..], np, found, if c[0] in m.seen then m else m.Add(c[0]));
      }
    }
  }

  lemma {:induction false} CandidateKeeps(c: Clause, np: int, found: bool, m: Marks)
    ensures Candidate(c, np, found, m).m.keep == m.keep
    decreases |c|
  {
    if c != [] {
      CandidateKeeps(c[1..], np, true, m);
      CandidateKeeps(c[1..], np, found, m);
      CandidateKeeps(c[1..], np, found, m.Add(c[0]));
    }
  }

  lemma {:induction false} ChainKeeps(cls: Database, m: Marks, hints: seq<int>)
    ensures Chain(cls, m, hints).1.keep <= m.keep
    decreases |hints|
  {
    if hints != [] && hints[0] > 0 && hints[0] in cls {
      var open := Unmarked(cls[hints[0]], m.seen);
      if |open| == 1 {
        ChainKeeps(cls, m.Force(-open[0]), hints[1..]);
      }
    }
  }

  lemma GroupSound(a: Assignment, cls: Database, np: int, start: int, hints: seq<int>, m: Marks)
    requires hints != [] && Proper(cls) && Models(a, Live(cls))
    requires FalsifiesAll(a, m.seen) && m.keep <= m.seen
    requires Group(cls, np, start, hints, m).0 == Resolved
    ensures Group(cls, np, start, hints, m).1.keep <= m.keep
    ensures forall i :: start <= i <= -hints[0] && i in cls && np in cls[i] ==> OtherTrue(a, cls[i], np)
  {
    var c := cls[-hints[0]];
    CandidateKeeps(c, np, false, m);
    var m1 := Candidate(c, np, false, m).m;
    ChainKeeps(cls, m1, hints[1..]);
    if !OtherTrue(a, c, np) {
      CandidateSound(a, c, np, false, m);
      ChainSound(a, cls, m1, hints[1..]);
      ChainExit(cls, m1, hints[1..]);
    }
    forall i | start <= i <= -hints[0] && i in cls && np in cls[i] ensures OtherTrue(a, cls[i], np) {
      assert !Occurs(cls, np, start, -hints[0]);
    }
  }

  lemma {:induction false} GroupsSound(a: Assignment, cls: Database, np: int, start: int, last: int, hints: seq<int>,
                                       seen: set<int>)
    requires Proper(cls) && Models(a, Live(cls)) && FalsifiesAll(a, seen)
    requires Groups(cls, np, start, last, hints, seen) == Resolved
    ensures forall i :: start <= i <= last && i in cls && np in cls[i] ==> OtherTrue(a, cls[i], np)
    decreases |hints|
  {
    SkipShortens(hints);
    var h := SkipPositive(hints);
    if h != [] {
      GroupSound(a, cls, np, start, h, Marks(seen, seen));
      GroupsSound(a, cls, np, -h[0] + 1, last, h[1..], Group(cls, np, start, h, Marks(seen, seen)).1.keep);
    }
  }

  /** No live clause below index intro contains lit. */
  ghost predicate NoneBelow(cls: Database, lit: int, intro: int) {
    forall i :: i in cls && i < intro ==> lit !in cls[i]
  }

  /** Making the pivot true repairs a model that falsifies the lemma. */
  lemma FlipModels(a: Assignment, cls: Database, lits: Clause)
    requires Proper(cls) && Models(a, Live(cls)) && NonZero(lits) && lits != [] && !Satisfies(a, lits)
    requires forall i :: i in cls && -lits[0] in cls[i] ==> OtherTrue(a, cls[i], -lits[0])
    ensures Models(Flip(a, lits[0]), Live(cls) + {lits})
  {
    var p := lits[0];
    assert p in lits;
    FlipMeaning(a, p, p);
    forall c | c in Live(cls) + {lits} ensures Satisfies(Flip(a, p), c) {
      if c in Live(cls) {
        var i :| i in cls && cls[i] == c;
        var lit :| lit in c && True(a, lit) && lit != -p;
        FlipMeaning(a, p, lit);
      }
    }
  }

  /** What an accepted check promises about the live clauses. */
  lemma CheckSound(cls: Database, last: int, intro: int, lits: Clause, hints: seq<int>)
    requires Proper(cls) && NonZero(lits) && forall i :: i in cls ==> i <= last
    requires NoneBelow(cls, NegatedPivot(lits), intro)
    ensures Check(cls, last, intro, lits, hints) == Conflict ==> Implies(Live(cls), lits)
    ensures Check(cls, last, intro, lits, hints) == Resolved && lits != [] && Satisfiable(Live(cls)) ==>
              Satisfiable(Live(cls) + {lits})
  {
    var e := Check(cls, last, intro, lits, hints);
    var np := NegatedPivot(lits);
    var (e0, m) := Chain(cls, Marks(LitSet(lits), LitSet(lits)), hints);
    var h := SkipPositive(hints);
    SkipShortens(hints);
    ChainExit(cls, Marks(LitSet(lits), LitSet(lits)), hints);
    if e == Conflict {
      GroupsExit(cls, np, Max(intro, if h == [] then 0 else -h[0]), last, hints, m.seen);
      ConflictImplies(cls, Marks(LitSet(lits), LitSet(lits)), lits, hints);
      assert Hinted(cls, hints) <= Live(cls);
    } else if e == Resolved && lits != [] && Satisfiable(Live(cls)) {
      var a :| Models(a, Live(cls));
      if Satisfies(a, lits) {
        assert Models(a, Live(cls) + {lits});
      } else {
        assert FalsifiesAll(a, LitSet(lits));
        ChainSound(a, cls, Marks(LitSet(lits), LitSet(lits)), hints);
        GroupsSound(a, cls, np, Max(intro, -h[0]), last, hints, m.seen);
        FlipModels(a, cls, lits);
      }
    }
  }

  lemma {:induction false} ChainExit(cls: Database, m: Marks, hints: seq<int>)
    ensures Chain(cls, m, hints).0 != Resolved
    decreases |hints|
  {
    if hints != [] && hints[0] > 0 && hints[0] in cls {
      var open := Unmarked(cls[hints[0]], m.seen);
      if |open| == 1 {
        ChainExit(cls, m.Force(-open[0]), hints[1..]);
      }
    }
  }

  lemma {:induction false} GroupsExit(cls: Database, np: int, start: int, last: int, hints: seq<int>, seen: set<int>)
    ensures Groups(cls, np, start, last, hints, seen) !in {Conflict, Exhausted}
    decreases |hints|
  {
    SkipShortens(hints);
    var h := SkipPositive(hints);
    if h != [] {
      GroupsExit(cls, np, -h[0] + 1, last, h[1..], Group(cls, np, start, h, Marks(seen, seen)).1.keep);
    }
  }

  // ----- the empty lemma -----

  /** The hints before the first resolution candidate. */
  function Leading(hints: seq<int>): seq<int> {
    if hints != [] && hints[0] > 0 then [hints[0]] + Leading(hints[1..]) else []
  }

  /** The clauses listed as resolution candidates. */
  function Candidates(cls: Database, hints: seq<int>): set<Clause> {
    set h | h in hints && h < 0 && -h in cls :: cls[-h]
  }

  lemma {:induction false} SkipAll(hints: seq<int>)
    requires SkipPositive(hints) == []
    ensures forall h :: h in hints ==> h > 0
  {
    if hints != [] {
      SkipAll(hints[1..]);
      assert forall h :: h in hints ==> h == hints[0] || h in hints[1..];
    }
  }

  lemma {:induction false} LeadingMeaning(hints: seq<int>)
    ensures SkipPositive(Leading(hints)) == [] && forall h :: h in Leading(hints) ==> h > 0 && h in hints
    ensures forall h :: h in hints && h <= 0 ==> h in SkipPositive(hints)
  {
    if hints != [] && hints[0] > 0 {
      LeadingMeaning(hints[1..]);
      assert Leading(hints)[1..] == Leading(hints[1..]);
      assert forall h :: h in hints ==> h == hints[0] || h in hints[1..];
      assert forall h :: h in hints[1..] ==> h in hints;
    }
  }

  /** A chain stops at the first candidate by itself. */
  lemma {:induction false} ChainLeading(cls: Database, m: Marks, hints: seq<int>)
    ensures Chain(cls, m, hints) == Chain(cls, m, Leading(hints))
    decreases |hints|
  {
    if hints != [] && hints[0] > 0 && hints[0] in cls {
      assert Leading(hints)[1..] == Leading(hints[1..]);
      var open := Unmarked(cls[hints[0]], m.seen);
      if |open| == 1 {
        ChainLeading(cls, m.Force(-open[0]), hints[1..]);
      }
    }
  }

  /** Without a pivot a candidate is closed only by being blocked, and a blocked clause
      has a literal whose negation is marked or in the clause itself. */
  lemma {:induction false} CandidateBlocked(c: Clause, m: Marks)
    requires NonZero(c)
    ensures Candidate(c, 0, false, m).Marked? ==> !Candidate(c, 0, false, m).found
    ensures Candidate(c, 0, false, m).Blocked? ==> exists x :: x in c && (-x in m.seen || -x in c)
    decreases |c|
  {
    if c != [] {
      assert c[0] in c && forall x :: x in c[1..] ==> x in c;
      if c[0] in m.seen {
        CandidateBlocked(c[1..], m);
      } else if -c[0] !in m.seen {
        CandidateBlocked(c[1..], m.Add(c[0]));
        if Candidate(c, 0, false, m).Blocked? {
          var x :| x in c[1..] && (-x in m.Add(c[0]).seen || -x in c[1..]);
          assert x in c && (-x in m.seen || -x in c);
        }
      }
    }
  }

  /** An assignment that falsifies the marks satisfies every blocked candidate. */
  lemma {:induction false} GroupsBlocked(cls: Database, start: int, last: int, hints: seq<int>, seen: set<int>,
                                         a: Assignment)
    requires Proper(cls) && Groups(cls, 0, start, last, hints, seen) == Resolved
    requires forall lit :: lit in seen && lit != 0 ==> True(a, -lit)
    ensures forall h :: h in hints && h < 0 ==> -h in cls && Satisfies(a, cls[-h])
    decreases |hints|
  {
    SkipShortens(hints);
    LeadingMeaning(hints);
    var h := SkipPositive(hints);
    if h != [] {
      var (e, m) := Group(cls, 0, start, h, Marks(seen, seen));
      BlockedGroup(cls, start, h, seen, a);
      GroupsBlocked(cls, -h[0] + 1, last, h[1..], m.keep, a);
      assert forall x :: x in h ==> x == h[0] || x in h[1..];
    }
  }

  lemma BlockedGroup(cls: Database, start: int, hints: seq<int>, seen: set<int>, a: Assignment)
    requires Proper(cls) && hints != [] && Group(cls, 0, start, hints, Marks(seen, seen)).0 == Resolved
    requires forall lit :: lit in seen && lit != 0 ==> True(a, -lit)
    ensures Group(cls, 0, start, hints, Marks(seen, seen)).1.keep == seen
    ensures -hints[0] in cls && Satisfies(a, cls[-hints[0]])
  {
    var c := cls[-hints[0]];
    CandidateBlocked(c, Marks(seen, seen));
    CandidateKeeps(c, 0, false, Marks(seen, seen));
    var x :| x in c && (-x in seen || -x in c);
    assert x != 0;
    if -x in seen {
      assert True(a, -(-x));
    } else {
      assert True(a, x) || True(a, -x);
    }
  }

  /** A resolution step accepted for the empty lemma refutes the clauses it used, those of
      the candidates included, exactly when the hints before the first candidate close. */
  lemma EmptyExact(cls: Database, last: int, intro: int, hints: seq<int>)
    requires Proper(cls) && Check(cls, last, intro, [], hints) == Resolved
    ensures Implies(Hinted(cls, Leading(hints)) + Candidates(cls, hints), []) <==> Closes(cls, [], Leading(hints))
  {
    var p, m := Leading(hints), Marks({}, {});
    assert LitSet([]) == {};
    LeadingMeaning(hints);
    ChainLeading(cls, m, hints);
    ChainExit(cls, m, hints);
    assert Check(cls, last, intro, [], p) == Chain(cls, m, p).0;
    ConflictCloses(cls, last, intro, [], p);
    var (e, m') := Chain(cls, m, p);
    if e == Conflict {
      ConflictImplies(cls, m, [], p);
      assert Implies(Hinted(cls, p) + Candidates(cls, hints), []);
    } else {
      ChainExhausted(cls, m, p);
      WitnessFalsifies(m'.seen);
      EmptyWitness(cls, last, intro, hints, m'.seen);
    }
  }

  /** Exhausted hints leave an assignment that satisfies everything the step used. */
  lemma EmptyWitness(cls: Database, last: int, intro: int, hints: seq<int>, seen: set<int>)
    requires Proper(cls) && Check(cls, last, intro, [], hints) == Resolved && Consistent(seen)
    requires Chain(cls, Marks({}, {}), hints).1.seen == seen
    requires forall h :: h in Leading(hints) ==> h in cls && exists lit :: lit in cls[h] && -lit in seen
    ensures !Implies(Hinted(cls, Leading(hints)) + Candidates(cls, hints), [])
  {
    var a, used := Witness(seen), Hinted(cls, Leading(hints)) + Candidates(cls, hints);
    assert LitSet([]) == {};
    WitnessFalsifies(seen);
    AcceptedKinds(cls, last, intro, [], hints);
    var h := SkipPositive(hints);
    if h != [] {
      GroupsBlocked(cls, Max(intro, -h[0]), last, hints, seen, a);
    } else {
      SkipAll(hints);
    }
    forall c | c in used ensures Satisfies(a, c) {
      if c in Hinted(cls, Leading(hints)) {
        var k :| k in Leading(hints) && k in cls && cls[k] == c;
        var lit :| lit in cls[k] && -lit in seen;
        assert lit in c && True(a, -(-lit));
      }
    }
    assert Models(a, used) && !Satisfies(a, []);
  }

  // ----- whole runs -----

  /** convertLit: the literal index used by the tables. */
  function Code(lit: int): nat {
    if lit < 0 then -2 * lit + 1 else 2 * lit
  }

  /** The index with its sign bit flipped. */
  function Flipped(c: nat): nat {
    if c % 2 == 0 then c + 1 else c - 1
  }

  /** A table grown on demand and zero-filled: absent entries read 0. */
  function At(t: map<nat, int>, c: nat): int {
    if c in t then t[c] else 0
  }

  function Pivot(lits: Clause): nat {
    if lits == [] then 0 else Code(lits[0])
  }

  datatype Line = Addition(index: int, lits: Clause, hints: seq<int>) | Deletion(ids: seq<int>) | Other {
    ghost predicate WellFormed() {
      Addition? ==> NonZero(lits) && NonZero(hints)
    }
  }

  /** Live clauses, the last index added, and the recorded first occurrences. */
  datatype State = State(cls: Database, last: int, intro: map<nat, int>)

  function FirstSeen(intro: map<nat, int>, lits: seq<int>, index: int): map<nat, int>
    decreases |lits|
  {
    if lits == [] then intro
    else FirstSeen(if At(intro, Code(lits[0])) == 0 then intro[Code(lits[0]) := index] else intro, lits[1..], index)
  }

  function Added(s: State, index: int, lits: seq<int>, c: Clause): State {
    State(s.cls[index := c], index, FirstSeen(s.intro, lits, index))
  }

  function Verdict(s: State, lits: Clause, hints: seq<int>): Exit {
    Check(s.cls, s.last, At(s.intro, Flipped(Pivot(lits))), lits, hints)
  }

  /** The state an accepted check leaves: with resolution candidates the first
      of them becomes the recorded occurrence of the negated pivot. */
  function Checked(s: State, lits: Clause, hints: seq<int>): State {
    var h := SkipPositive(hints);
    if h == [] then s else s.(intro := s.intro[Flipped(Pivot(lits)) := -h[0]])
  }

  datatype Result = Stopped | Finished(state: State, verified: bool)

  /** The main loop up to its first failure; verified records an empty lemma. */
  function Run(s: State, proof: seq<Line>, verified: bool): Result
    decreases |proof|
  {
    if proof == [] then Finished(s, verified)
    else match proof[0]
      case Deletion(ids) => Run(s.(cls := s.cls - LitSet(ids)), proof[1..], verified)
      case Other => Stopped
      case Addition(index, lits, hints) =>
        if !Verdict(s, lits, hints).Accepted() then Stopped
        else Run(Added(Checked(s, lits, hints), index, lits, lits), proof[1..], verified || lits == [])
  }

  /** The clauses of a lemma's own hints close it: those before the first candidate for a
      lemma with candidates and no pivot, all of them for a lemma without candidates. */
  predicate Grounded(cls: Database, lits: Clause, hints: seq<int>) {
    if SkipPositive(hints) == [] then Closes(cls, lits, hints) || Tautology(lits)
    else lits != [] || Closes(cls, [], Leading(hints))
  }

  /** Indices grow, and every addition is grounded. */
  predicate Careful(s: State, proof: seq<Line>)
    decreases |proof|
  {
    proof == [] || match proof[0]
      case Deletion(ids) => Careful(s.(cls := s.cls - LitSet(ids)), proof[1..])
      case Other => true
      case Addition(index, lits, hints) =>
        index > s.last && Grounded(s.cls, lits, hints) &&
        Careful(Added(Checked(s, lits, hints), index, lits, lits), proof[1..])
  }

  lemma {:induction false} FirstSeenMeaning(intro: map<nat, int>, lits: seq<int>, index: int)
    requires index != 0
    ensures forall c :: At(FirstSeen(intro, lits, index), c) == At(intro, c) ||
                        (At(intro, c) == 0 && At(FirstSeen(intro, lits, index), c) == index)
    ensures forall lit :: lit in lits ==> At(FirstSeen(intro, lits, index), Code(lit)) != 0
    decreases |lits|
  {
    if lits != [] {
      var next := if At(intro, Code(lits[0])) == 0 then intro[Code(lits[0]) := index] else intro;
      FirstSeenMeaning(next, lits[1..], index);
      assert At(next, Code(lits[0])) != 0;
    }
  }

  lemma LiveAdded(cls: Database, index: int, c: Clause)
    requires index !in cls
    ensures Live(cls[index := c]) == Live(cls) + {c}
  {
    var more := cls[index := c];
    forall d | d in Live(cls) + {c} ensures d in Live(more) {
      if d in Live(cls) {
        var i :| i in cls && cls[i] == d;
        assert more[i] == d;
      } else {
        assert more[index] == d;
      }
    }
  }

  /** An accepted resolution step lists a live first candidate. */
  lemma ResolvedFirst(cls: Database, last: int, intro: int, lits: Clause, hints: seq<int>)
    requires Check(cls, last, intro, lits, hints).Accepted() && SkipPositive(hints) != []
    ensures -SkipPositive(hints)[0] in cls
    ensures !Occurs(cls, NegatedPivot(lits), intro, -SkipPositive(hints)[0])
  {
    var h := SkipPositive(hints);
    SkipShortens(hints);
    ChainExit(cls, Marks(LitSet(lits), LitSet(lits)), hints);
    var m := Chain(cls, Marks(LitSet(lits), LitSet(lits)), hints).1;
    GroupsExit(cls, NegatedPivot(lits), Max(intro, -h[0]), last, hints, m.seen);
  }

  /** Resolution candidates decide between the kinds of acceptance. */
  lemma AcceptedKinds(cls: Database, last: int, intro: int, lits: Clause, hints: seq<int>)
    requires Check(cls, last, intro, lits, hints).Accepted()
    ensures SkipPositive(hints) != [] ==> Check(cls, last, intro, lits, hints) == Resolved
    ensures SkipPositive(hints) == [] ==> Check(cls, last, intro, lits, hints) in {Conflict, Exhausted}
  {
    var m := Marks(LitSet(lits), LitSet(lits));
    ChainExit(cls, m, hints);
    var h := SkipPositive(hints);
    if h != [] {
      GroupsExit(cls, NegatedPivot(lits), Max(intro, -h[0]), last, hints, Chain(cls, m, hints).1.seen);
    }
  }

  /** One accepted, grounded addition whose scan misses no clause keeps satisfiability. */
  lemma StepSound(s: State, index: int, lits: Clause, hints: seq<int>)
    requires Proper(s.cls) && NonZero(lits) && index !in s.cls && forall i :: i in s.cls ==> i <= s.last
    requires Verdict(s, lits, hints).Accepted() && Grounded(s.cls, lits, hints)
    requires SkipPositive(hints) != [] && lits != [] ==>
               NoneBelow(s.cls, NegatedPivot(lits), At(s.intro, Flipped(Pivot(lits))))
    ensures var s' := Added(Checked(s, lits, hints), index, lits, lits);
            Satisfiable(Live(s.cls)) ==> Satisfiable(Live(s'.cls))
    ensures lits == [] ==> !Satisfiable(Live(s.cls))
  {
    var intro := At(s.intro, Flipped(Pivot(lits)));
    AcceptedKinds(s.cls, s.last, intro, lits, hints);
    LiveAdded(s.cls, index, lits);
    if SkipPositive(hints) != [] && lits != [] {
      CheckSound(s.cls, s.last, intro, lits, hints);
    } else {
      GroundedImplies(s.cls, s.last, intro, lits, hints);
      if Satisfiable(Live(s.cls)) {
        var a :| Models(a, Live(s.cls));
        assert Satisfies(a, lits) && Models(a, Live(s.cls) + {lits});
      }
    }
  }

  /** Without a resolution on a pivot the lemma follows from the live clauses. */
  lemma GroundedImplies(cls: Database, last: int, intro: int, lits: Clause, hints: seq<int>)
    requires Proper(cls) && NonZero(lits) && (SkipPositive(hints) == [] || lits == [])
    requires Check(cls, last, intro, lits, hints).Accepted() && Grounded(cls, lits, hints)
    ensures Implies(Live(cls), lits)
  {
    AcceptedKinds(cls, last, intro, lits, hints);
    if SkipPositive(hints) == [] {
      SkipAll(hints);
      RupExact(cls, last, intro, lits, hints);
      assert Hinted(cls, hints) <= Live(cls);
    } else {
      EmptyExact(cls, last, intro, hints);
      assert Hinted(cls, Leading(hints)) + Candidates(cls, hints) <= Live(cls);
    }
  }

  lemma DeletionSound(cls: Database, ids: set<int>)
    ensures Live(cls - ids) <= Live(cls)
    ensures Satisfiable(Live(cls)) ==> Satisfiable(Live(cls - ids))
  {
    if Satisfiable(Live(cls)) {
      var a :| Models(a, Live(cls));
      assert Models(a, Live(cls - ids));
    }
  }

  // ----- where the code accepts too much -----

  /** checkRedundancy's last return: a lemma without hints is accepted whatever it says. */
  lemma ExhaustedIsUnsound()
    ensures var cls: Database := map[1 := [1]];
            Check(cls, 1, 0, [-1], []) == Exhausted &&
            Satisfiable(Live(cls)) && !Satisfiable(Live(cls) + {[-1]})
  {
    var cls: Database := map[1 := [1]];
    assert Models(iset{1}, Live(cls)) by { assert 1 in [1]; }
    forall a ensures !Models(a, Live(cls) + {[-1]}) {
      assert cls[1] in Live(cls) && [1] in Live(cls) + {[-1]} && [-1] in Live(cls) + {[-1]};
    }
  }

  /** A resolution step on the empty lemma has no pivot; a blocked candidate
      closes it although nothing was proved. */
  lemma EmptyResolutionIsUnsound()
    ensures var cls: Database := map[1 := [1], 2 := [1, 2]];
            Check(cls, 2, 0, [], [1, -2]) == Resolved &&
            Satisfiable(Live(cls)) && !Satisfiable(Live(cls) + {[]})
  {
    var cls: Database := map[1 := [1], 2 := [1, 2]];
    assert Models(iset{1}, Live(cls)) by {
      assert 1 in [1] && 1 in [1, 2] && True(iset{1}, 1);
    }
    forall a ensures !Models(a, Live(cls) + {[]}) {
      assert [] in Live(cls) + {[]} && !Satisfies(a, []);
    }
    assert LitSet([]) == {};
    assert Unmarked(cls[1], {}) == [1];
    assert Marks({}, {}).Force(-1) == Marks({-1}, {}) && [1, -2][1..] == [-2];
    assert Chain(cls, Marks({}, {}), [1, -2]) == (Exhausted, Marks({-1}, {}));
    assert SkipPositive([1, -2]) == [-2];
    assert Candidate([1, 2], 0, false, Marks({-1}, {-1})).Blocked?;
    assert Group(cls, 0, 2, [-2], Marks({-1}, {-1})).0 == Resolved;
  }
}
