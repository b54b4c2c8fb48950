/** The forward DRUP checker: a clause database with two watched literals per
    clause, an assignment trail, temporary assumptions and deletion. */
module Druplig {
  import opened Cnf
  import opened Lists
  import opened DrupSpec

  type Lits = seq<int>

  function Occ(occs: map<int, seq<nat>>, lit: int): seq<nat> {
    if lit in occs then occs[lit] else []
  }

  /** druplig_val: the value of a literal, -1, 0 or 1. */
  function ValueOf(vals: map<int, int>, lit: int): int {
    if lit < 0 then -(if -lit in vals then vals[-lit] else 0) else if lit in vals then vals[lit] else 0
  }

  ghost function SetsOf(lits: map<nat, Lits>): Clauses {
    map c | c in lits :: LitSet(lits[c])
  }

  /** How often clause c is to be found in the occurrence list of lit. */
  function WatchCount(c: Lits, lit: int): nat {
    (if |c| >= 1 && c[0] == lit then 1 else 0) + (if |c| >= 2 && c[1] == lit then 1 else 0)
  }

  function Watchers(lits: map<nat, Lits>, c: nat, lit: int): nat {
    if c in lits then WatchCount(lits[c], lit) else 0
  }

  ghost predicate OccsOk(lits: map<nat, Lits>, occs: map<int, seq<nat>>) {
    forall lit, c: nat :: multiset(Occ(occs, lit))[c] == Watchers(lits, c, lit)
  }

  ghost predicate ValsOk(vals: map<int, int>, trail: seq<int>) {
    0 !in trail && NoDup(trail) &&
    (forall lit :: lit != 0 ==> -1 <= ValueOf(vals, lit) <= 1 && (ValueOf(vals, lit) == 1 <==> lit in trail))
  }

  lemma TrailConsistent(vals: map<int, int>, trail: seq<int>)
    requires ValsOk(vals, trail)
    ensures !Clash(LitSet(trail))
  {
    forall lit | lit in trail ensures -lit !in trail {
      assert ValueOf(vals, -lit) == -ValueOf(vals, lit);
    }
  }

  // ----- the watch invariant -----

  ghost predicate SatBy(c: Lits, t: set<int>) {
    LitSet(c) * t != {}
  }

  /** Clause c is satisfied for good by p, or a watch whose falsification is in q
      has a true partner in t. */
  ghost predicate ClauseOk(c: Lits, p: set<int>, t: set<int>, q: set<int>) {
    |c| >= 1 && NoDup(c) &&
    (|c| == 1 ==> c[0] in p) &&
    (|c| >= 2 ==> SatBy(c, p) || ((-c[0] in q ==> c[1] in t) && (-c[1] in q ==> c[0] in t)))
  }

  /** Clauses still to be visited know nothing of literal x yet. */
  ghost predicate Watched(lits: map<nat, Lits>, p: set<int>, t: set<int>, q: set<int>, x: int, pending: seq<nat>) {
    forall c :: c in lits ==> ClauseOk(lits[c], p, t, if c in pending then q else q + {x})
  }

  ghost predicate AllOk(lits: map<nat, Lits>, p: set<int>, t: set<int>, q: set<int>) {
    forall c :: c in lits ==> ClauseOk(lits[c], p, t, q)
  }

  lemma SatByMember(c: Lits, t: set<int>)
    ensures SatBy(c, t) <==> exists lit :: lit in c && lit in t
  {
    if forall lit :: lit in c ==> lit !in t {
      assert LitSet(c) * t == {};
    } else {
      var lit :| lit in c && lit in t;
      assert lit in LitSet(c) * t;
    }
  }

  /** With every true literal processed no clause is falsified or unit. */
  lemma WatchedClosed(lits: map<nat, Lits>, p: set<int>, t: set<int>)
    requires AllOk(lits, p, t, t) && p <= t
    ensures Closed(SetsOf(lits), t)
  {
    forall c | c in lits ensures Settled(SetsOf(lits)[c], t) {
      var w := lits[c];
      assert ClauseOk(w, p, t, t);
      assert w[0] in SetsOf(lits)[c];
      SatByMember(w, p);
      if SatBy(w, p) {
        var lit :| lit in w && lit in p;
        assert lit in SetsOf(lits)[c] && lit in t;
      } else if |w| >= 2 {
        assert w[1] in SetsOf(lits)[c] && w[0] != w[1];
      }
    }
  }

  // ----- the array operations on one clause -----

  /** druplig_propagate: the falsified watch comes first. */
  function Arrange(c: Lits, f: int): (d: Lits)
    requires |c| >= 2
    ensures |d| == |c|
  {
    if c[0] == f then c else c[0 := f][1 := c[0]]
  }

  lemma Swapped(c: Lits, i: nat, j: nat)
    requires i < |c| && j < |c|
    ensures var d := c[i := c[j]][j := c[i]];
            LitSet(d) == LitSet(c) && multiset(d) == multiset(c) && (NoDup(c) ==> NoDup(d)) && (0 !in c ==> 0 !in d)
  {
    var d := c[i := c[j]][j := c[i]];
    assert d[i] == c[j] && d[j] == c[i];
    forall x | x in c ensures x in d {
      var k :| 0 <= k < |c| && c[k] == x;
      assert d[if k == i then j else if k == j then i else k] == x;
    }
  }

  lemma Arranged(c: Lits, f: int)
    requires |c| >= 2 && (c[0] == f || c[1] == f)
    ensures var d := Arrange(c, f);
            d[0] == f && LitSet(d) == LitSet(c) && (NoDup(c) ==> NoDup(d)) && (0 !in c ==> 0 !in d) &&
            (forall lit :: WatchCount(d, lit) == WatchCount(c, lit))
  {
    Swapped(c, 0, 1);
  }

  datatype Visit = Kept | Moved | Forced | Conflict

  /** druplig_propagate: the effect of one visit on the visited clause, f being the
      falsified literal and t the true ones. */
  ghost predicate Visited(v: Visit, c: Lits, d: Lits, f: int, t: set<int>) {
    if |c| < 2 then v == Conflict && d == c
    else
      var a := Arrange(c, f);
      match v
      case Kept => d == a && a[1] in t
      case Moved => exists k :: 2 <= k < |a| && -a[k] !in t && a[1] !in t && d == a[0 := a[k]][k := f]
      case Forced => d == a && a[1] !in t && -a[1] !in t && forall k :: 2 <= k < |a| ==> -a[k] in t
      case Conflict => d == a && forall k :: 1 <= k < |a| ==> -a[k] in t
  }

  lemma VisitedMoved(c: Lits, f: int, k: nat, t: set<int>)
    requires |c| >= 2 && 2 <= k < |c| && -Arrange(c, f)[k] !in t && Arrange(c, f)[1] !in t
    ensures var a := Arrange(c, f); Visited(Moved, c, a[0 := a[k]][k := f], f, t)
  {
  }

  lemma VisitedStays(c: Lits, f: int, t: set<int>)
    requires |c| >= 2 && forall k :: 2 <= k < |c| ==> -Arrange(c, f)[k] in t
    ensures var a := Arrange(c, f);
            (a[1] in t ==> Visited(Kept, c, a, f, t)) &&
            (a[1] !in t && -a[1] !in t ==> Visited(Forced, c, a, f, t)) &&
            (-a[1] in t ==> Visited(Conflict, c, a, f, t))
  {
  }

  lemma VisitedUnit(c: Lits, f: int, t: set<int>)
    requires |c| == 1
    ensures Visited(Conflict, c, c, f, t)
  {
  }

  lemma VisitedKept(c: Lits, f: int, t: set<int>)
    requires |c| >= 2 && Arrange(c, f)[1] in t
    ensures Visited(Kept, c, Arrange(c, f), f, t)
  {
  }

  /** A visit restores the watch invariant of its clause. */
  lemma VisitOk(v: Visit, c: Lits, d: Lits, f: int, p: set<int>, t: set<int>, t': set<int>, q: set<int>)
    requires Visited(v, c, d, f, t) && v != Conflict && ClauseOk(c, p, t, q) && (c[0] == f || (|c| >= 2 && c[1] == f))
    requires p <= t && q <= t && -f in t && -f !in q && !Clash(t) && 0 !in c
    requires t' == if v == Forced then t + {Arrange(c, f)[1]} else t
    ensures ClauseOk(d, p, t', q + {-f}) && LitSet(d) == LitSet(c)
  {
    Arranged(c, f);
    var a := Arrange(c, f);
    assert a[1] in a && a[1] in LitSet(a);
    if v == Moved {
      var k :| 2 <= k < |a| && -a[k] !in t && a[1] !in t && d == a[0 := a[k]][k := f];
      Swapped(a, 0, k);
    }
  }

  /** A conflict needs a second falsified watch, and that literal was not processed yet. */
  lemma ConflictPending(c: Lits, d: Lits, f: int, p: set<int>, t: set<int>, q: set<int>)
    requires Visited(Conflict, c, d, f, t) && ClauseOk(c, p, t, q) && (c[0] == f || (|c| >= 2 && c[1] == f))
    requires p <= t && -f in t && !Clash(t) && 0 !in c
    ensures exists lit :: lit in t && lit !in q && lit != -f
  {
    ConflictFalse(c, d, f, t);
    SatByMember(c, p);
    forall lit | lit in c ensures lit !in p {
    }
    if |c| >= 2 {
      var other := if c[0] == f then c[1] else c[0];
      assert other in c && -other in t && -other !in q;
    }
  }

  /** All literals of a clause in conflict are false. */
  lemma ConflictFalse(c: Lits, d: Lits, f: int, t: set<int>)
    requires Visited(Conflict, c, d, f, t) && -f in t && |c| >= 1 && (c[0] == f || (|c| >= 2 && c[1] == f))
    ensures forall lit :: lit in c ==> -lit in t
  {
    if |c| >= 2 {
      Arranged(c, f);
      var a := Arrange(c, f);
      forall lit | lit in c ensures -lit in t {
        assert lit in LitSet(c) && lit in LitSet(a);
        var k :| 0 <= k < |a| && a[k] == lit;
      }
    }
  }

  /** A visit under assumptions does not disturb the invariant they will leave. */
  lemma VisitBaseOk(v: Visit, c: Lits, d: Lits, f: int, p: set<int>, t: set<int>)
    requires Visited(v, c, d, f, t) && ClauseOk(c, p, p, p) && (c[0] == f || (|c| >= 2 && c[1] == f))
    requires p <= t && -f in t && -f !in p && !Clash(t) && 0 !in c
    ensures ClauseOk(d, p, p, p)
  {
    Arranged(c, f);
    hide LitSet;
    var a := Arrange(c, f);
    if v == Moved {
      var k :| 2 <= k < |a| && -a[k] !in t && a[1] !in t && d == a[0 := a[k]][k := f];
      Swapped(a, 0, k);
    }
  }

  lemma ClauseOkMonotone(c: Lits, p: set<int>, p': set<int>, t: set<int>, t': set<int>, q: set<int>)
    requires ClauseOk(c, p, t, q) && p <= p' && t <= t'
    ensures ClauseOk(c, p', t', q)
  {
  }

  ghost predicate WatchesOf(c: Lits, f: int) {
    |c| >= 1 && (c[0] == f || (|c| >= 2 && c[1] == f))
  }

  /** The loop invariant of a sweep over the clauses watching a falsified literal. */
  lemma SweepStep(lits: map<nat, Lits>, id: nat, d: Lits, v: Visit, f: int, p: set<int>, t: set<int>, q: set<int>,
                  p': set<int>, t': set<int>, pending: seq<nat>)
    requires Watched(lits, p, t, q, -f, pending) && pending != [] && pending[0] == id && id in lits
    requires v != Conflict && Visited(v, lits[id], d, f, t) && WatchesOf(lits[id], f) && 0 !in lits[id]
    requires p <= t && q <= t && -f in t && -f !in q && !Clash(t)
    requires t' == if v == Forced && |lits[id]| >= 2 then t + {Arrange(lits[id], f)[1]} else t
    requires p <= p'
    ensures Watched(lits[id := d], p', t', q, -f, pending[1..])
  {
    hide ClauseOk, Clash, LitSet, Arrange;
    assert ClauseOk(lits[id], p, t, q);
    VisitOk(v, lits[id], d, f, p, t, t', q);
    ClauseOkMonotone(d, p, p', t', t', q + {-f});
    ClauseOkLess(d, p', t', q, q + {-f});
    forall c | c in lits && c != id ensures ClauseOk(lits[c], p', t', if c in pending[1..] then q else q + {-f}) {
      assert c in pending <==> c in pending[1..];
      ClauseOkMonotone(lits[c], p, p', t, t', if c in pending then q else q + {-f});
    }
  }

  lemma WatchedAt(lits: map<nat, Lits>, p: set<int>, t: set<int>, q: set<int>, x: int, pending: seq<nat>, id: nat)
    requires Watched(lits, p, t, q, x, pending) && id in lits && id in pending
    ensures ClauseOk(lits[id], p, t, q)
  {
  }

  lemma ClauseOkLess(c: Lits, p: set<int>, t: set<int>, q: set<int>, q': set<int>)
    requires ClauseOk(c, p, t, q') && q <= q'
    ensures ClauseOk(c, p, t, q)
  {
  }

  lemma BaseStep(lits: map<nat, Lits>, id: nat, d: Lits, v: Visit, f: int, p: set<int>, t: set<int>)
    requires AllOk(lits, p, p, p) && id in lits && Visited(v, lits[id], d, f, t)
    requires WatchesOf(lits[id], f) && 0 !in lits[id] && p <= t && -f in t && -f !in p && !Clash(t)
    ensures AllOk(lits[id := d], p, p, p)
  {
    VisitBaseOk(v, lits[id], d, f, p, t);
  }

  /** A forced or conflicting visit is a unit or falsified clause of the database. */
  lemma VisitDerives(v: Visit, f: Clauses, id: nat, c: Lits, d: Lits, lit: int, t: set<int>)
    requires id in f && f[id] == LitSet(c) && Visited(v, c, d, lit, t) && -lit in t
    requires WatchesOf(c, lit)
    ensures v == Forced ==> Unit(f, t, Arrange(c, lit)[1])
    ensures v == Conflict ==> Falsified(f, t)
  {
    if |c| >= 2 {
      Arranged(c, lit);
      var a := Arrange(c, lit);
      assert forall x :: x in LitSet(a) ==> exists k :: 0 <= k < |a| && a[k] == x;
      if v == Forced {
        assert a[1] in LitSet(a);
        assert UnitIn(f[id], t, a[1]);
      } else if v == Conflict {
        assert FalseIn(f[id], t);
      }
    } else {
      assert FalseIn(f[id], t);
    }
  }

  /** Moving one entry of clause id between occurrence lists. */
  lemma MoveOccAt(lits: map<nat, Lits>, occs: map<int, seq<nat>>, f: int, q: nat, r: int, d: Lits, lit: int, c: nat)
    requires OccsOk(lits, occs) && q < |Occ(occs, f)| && Occ(occs, f)[q] in lits && r != f
    requires WatchCount(d, lit) + (if lit == f then 1 else 0) ==
             WatchCount(lits[Occ(occs, f)[q]], lit) + (if lit == r then 1 else 0)
    ensures var id := Occ(occs, f)[q];
            multiset(Occ(occs[f := Occ(occs, f)[..q] + Occ(occs, f)[q + 1..]][r := Occ(occs, r) + [id]], lit))[c] ==
            Watchers(lits[id := d], c, lit)
  {
    hide WatchCount;
    RemoveAt(Occ(occs, f), q);
    assert multiset(Occ(occs, lit))[c] == Watchers(lits, c, lit);
    assert multiset(Occ(occs, r) + [Occ(occs, f)[q]]) == multiset(Occ(occs, r)) + multiset{Occ(occs, f)[q]};
  }

  lemma MoveOcc(lits: map<nat, Lits>, occs: map<int, seq<nat>>, f: int, q: nat, r: int, d: Lits)
    requires OccsOk(lits, occs) && q < |Occ(occs, f)| && Occ(occs, f)[q] in lits && r != f
    requires forall lit :: WatchCount(d, lit) + (if lit == f then 1 else 0) ==
                           WatchCount(lits[Occ(occs, f)[q]], lit) + (if lit == r then 1 else 0)
    ensures var id := Occ(occs, f)[q];
            OccsOk(lits[id := d], occs[f := Occ(occs, f)[..q] + Occ(occs, f)[q + 1..]][r := Occ(occs, r) + [id]])
  {
    hide WatchCount, Watchers, Occ;
    var id, o := Occ(occs, f)[q], Occ(occs, f);
    var occs' := occs[f := o[..q] + o[q + 1..]][r := Occ(occs, r) + [id]];
    forall lit, c: nat ensures multiset(Occ(occs', lit))[c] == Watchers(lits[id := d], c, lit) {
      MoveOccAt(lits, occs, f, q, r, d, lit, c);
    }
  }

  lemma SameOccs(lits: map<nat, Lits>, occs: map<int, seq<nat>>, id: nat, d: Lits)
    requires OccsOk(lits, occs) && id in lits
    requires forall lit :: WatchCount(d, lit) == WatchCount(lits[id], lit)
    ensures OccsOk(lits[id := d], occs)
  {
    forall lit, c: nat ensures multiset(Occ(occs, lit))[c] == Watchers(lits[id := d], c, lit) {
      assert multiset(Occ(occs, lit))[c] == Watchers(lits, c, lit);
    }
  }

  lemma SetsAt(lits: map<nat, Lits>, id: nat)
    requires id in lits
    ensures id in SetsOf(lits) && SetsOf(lits)[id] == LitSet(lits[id])
  {
  }

  lemma LitSetOne(x: int)
    ensures LitSet([x]) == {x}
  {
  }

  lemma LitSetSplit(s: seq<int>, t: seq<int>)
    ensures LitSet(s + t) == LitSet(s) + LitSet(t)
  {
  }

  /** One more unit step on the trail. */
  lemma GrownStep(f: Clauses, start: seq<int>, trail: seq<int>, x: int)
    requires start <= trail && Derivation(f, LitSet(start), trail[|start|..]) && Unit(f, LitSet(trail), x)
    ensures Derivation(f, LitSet(start), (trail + [x])[|start|..])
    ensures LitSet(trail + [x]) == LitSet(trail) + {x}
  {
    var steps := trail[|start|..];
    assert trail == start + steps && (trail + [x])[|start|..] == steps + [x];
    LitSetSplit(start, steps);
    DerivationAppend(f, LitSet(start), steps, x);
  }

  lemma SetsInsert(lits: map<nat, Lits>, id: nat, c: Lits)
    ensures SetsOf(lits[id := c]) == SetsOf(lits)[id := LitSet(c)]
  {
  }

  lemma SameSets(lits: map<nat, Lits>, id: nat, d: Lits)
    requires id in lits && LitSet(d) == LitSet(lits[id])
    ensures SetsOf(lits[id := d]) == SetsOf(lits)
  {
  }

  /** An entry of an occurrence list is a live clause watching that literal. */
  lemma OccWatches(lits: map<nat, Lits>, occs: map<int, seq<nat>>, f: int, q: nat)
    requires OccsOk(lits, occs) && q < |Occ(occs, f)|
    ensures var c := Occ(occs, f)[q];
            c in lits && WatchesOf(lits[c], f)
  {
    var c := Occ(occs, f)[q];
    assert c in multiset(Occ(occs, f));
    assert multiset(Occ(occs, f))[c] == Watchers(lits, c, f);
  }

  lemma AssignOk(vals: map<int, int>, trail: seq<int>, lit: int)
    requires ValsOk(vals, trail) && lit != 0 && ValueOf(vals, lit) == 0
    ensures ValsOk(vals[if lit < 0 then -lit else lit := if lit < 0 then -1 else 1], trail + [lit])
  {
    var v, t := vals[if lit < 0 then -lit else lit := if lit < 0 then -1 else 1], trail + [lit];
    forall l | l != 0 ensures -1 <= ValueOf(v, l) <= 1 && (ValueOf(v, l) == 1 <==> l in t) {
      if l != lit && l != -lit {
        assert ValueOf(v, l) == ValueOf(vals, l);
      } else {
        assert ValueOf(vals, -lit) == -ValueOf(vals, lit);
      }
    }
  }

  ghost predicate Waiting(lits: map<nat, Lits>, empty: seq<nat>, trail: seq<int>, next: nat) {
    next == |trail| ==>
      forall c :: c in lits && c !in empty ==> ClauseOk(lits[c], LitSet(trail), LitSet(trail), LitSet(trail))
  }

  /** A new clause does not disturb this: it is recorded, or its watches are in order. */
  lemma WaitingMore(lits: map<nat, Lits>, empty: seq<nat>, trail: seq<int>, next: nat, id: nat, c: Lits,
                    empty': seq<nat>, trail': seq<int>)
    requires Waiting(lits, empty, trail, next) && next <= |trail| && trail <= trail' && id !in lits
    requires forall d :: d in empty ==> d in empty'
    requires id in empty' || ClauseOk(c, LitSet(trail'), LitSet(trail'), LitSet(trail))
    ensures Waiting(lits[id := c], empty', trail', next)
  {
  }

  lemma WaitingLess(lits: map<nat, Lits>, empty: seq<nat>, trail: seq<int>, next: nat, id: nat, empty': seq<nat>)
    requires Waiting(lits, empty, trail, next) && forall c :: c != id ==> (c in empty <==> c in empty')
    ensures Waiting(lits - {id}, empty', trail, next)
  {
  }

  lemma UnprocessedWaiting(lits: map<nat, Lits>, empty: seq<nat>, trail: seq<int>, next: nat)
    requires next < |trail|
    ensures Waiting(lits, empty, trail, next)
  {
  }

  lemma MoreThan(trail: seq<int>, n: nat)
    requires n < |trail| && exists lit :: lit in LitSet(trail) && lit !in LitSet(trail[..n]) && lit != trail[n]
    ensures n + 1 < |trail|
  {
    var lit :| lit in trail && lit !in trail[..n] && lit != trail[n];
    forall j | 0 <= j < n ensures trail[j] in trail[..n] {
      assert trail[..n][j] == trail[j];
    }
    var k :| 0 <= k < |trail| && trail[k] == lit;
  }

  ghost predicate ModelsAll(a: Assignment, orig: set<set<int>>) {
    forall c :: c in orig ==> SetTrue(a, c)
  }

  /** Derived literals add nothing to the base. */
  lemma DerivedBase(f: Clauses, derived: seq<int>, base: set<int>)
    requires Derivation(f, {}, derived)
    ensures Rup(f, LitSet(derived) + base) <==> Rup(f, base)
  {
    hide Derivation, Refutes, LitSet;
    if Rup(f, LitSet(derived) + base) {
      var steps :| Derivation(f, LitSet(derived) + base, steps) && Refutes(f, LitSet(derived) + base + LitSet(steps));
      DerivationMonotone(f, f, {}, base, derived);
      DerivationConcat(f, base, derived, steps);
      LitSetSplit(derived, steps);
      RefutesRup(f, base, derived + steps, LitSet(derived) + base + LitSet(steps));
    }
    if Rup(f, base) {
      RupMonotone(f, f, base, LitSet(derived) + base);
    }
  }

  lemma {:induction false} DerivationConcat(f: Clauses, base: set<int>, first: seq<int>, second: seq<int>)
    requires Derivation(f, base, first) && Derivation(f, LitSet(first) + base, second)
    ensures Derivation(f, base, first + second)
  {
    if second == [] {
      assert first + second == first;
    } else {
      hide Derivation, Unit, LitSet;
      var n := |second| - 1;
      DerivationInit(f, LitSet(first) + base, second);
      DerivationConcat(f, base, first, second[..n]);
      LitSetSplit(first, second[..n]);
      assert base + LitSet(first + second[..n]) == LitSet(first) + base + LitSet(second[..n]);
      DerivationAppend(f, base, first + second[..n], second[n]);
      assert first + second == first + second[..n] + [second[n]];
    }
  }

  lemma FreshSets(lits: map<nat, Lits>, id: nat)
    requires id !in lits
    ensures id !in SetsOf(lits)
  {
  }

  /** The trail stays derivable when a clause is added and the trail grows by unit steps. */
  lemma GrownDerived(f: Clauses, g: Clauses, start: seq<int>, trail: seq<int>)
    requires Derivation(f, {}, start) && forall c :: c in f ==> c in g && g[c] == f[c]
    requires start <= trail && Derivation(g, LitSet(start), trail[|start|..])
    ensures Derivation(g, {}, trail)
  {
    hide Derivation, LitSet;
    DerivationMonotone(f, g, {}, {}, start);
    assert LitSet(start) + {} == LitSet(start) && start + trail[|start|..] == trail;
    DerivationConcat(g, {}, start, trail[|start|..]);
  }

  /** A new clause starts the trail's growth with at most one unit. */
  lemma StartGrown(f: Clauses, start: seq<int>, trail: seq<int>)
    requires start <= trail
    requires trail == start || (|trail| == |start| + 1 && Unit(f, LitSet(start), trail[|start|]))
    ensures Derivation(f, LitSet(start), trail[|start|..])
  {
    NoSteps(f, LitSet(start));
    assert start[|start|..] == [];
    if trail != start {
      assert trail == start + [trail[|start|]];
      GrownStep(f, start, start, trail[|start|]);
    } else {
      assert trail[|start|..] == [];
    }
  }

  lemma DerivationJoin(f: Clauses, start: seq<int>, middle: seq<int>, trail: seq<int>)
    requires start <= middle <= trail
    requires Derivation(f, LitSet(start), middle[|start|..]) && Derivation(f, LitSet(middle), trail[|middle|..])
    ensures Derivation(f, LitSet(start), trail[|start|..])
  {
    var steps, first, last := trail[|start|..], middle[|start|..], trail[|middle|..];
    assert steps == first + last && middle == start + first;
    LitSetSplit(start, first);
    forall k | 0 <= k < |steps| ensures Unit(f, LitSet(start) + LitSet(steps[..k]), steps[k]) {
      if k < |first| {
        assert steps[..k] == first[..k];
      } else {
        var j := k - |first|;
        assert steps[..k] == first + last[..j];
        LitSetSplit(first, last[..j]);
        assert LitSet(start) + LitSet(steps[..k]) == LitSet(middle) + LitSet(last[..j]);
      }
    }
  }

  lemma EmptyFalse(c: Lits, t: set<int>)
    ensures c == [] ==> FalseIn(LitSet(c), t)
  {
  }

  predicate Matches(c: Lits, clause: Lits) {
    |c| == |clause| && LitSet(c) <= LitSet(clause)
  }

  lemma RemovedFrom(o: seq<nat>, r: seq<nat>, id: nat)
    requires multiset(o) == multiset(r) + multiset{id}
    ensures forall c :: c in r ==> c in o
    ensures forall c :: c in o && c != id ==> c in r
    ensures NoDup(o) ==> id !in r
  {
    forall c ensures (c in r ==> c in o) && (c in o && c != id ==> c in r) {
      assert (c in r <==> c in multiset(r)) && (c in o <==> c in multiset(o));
    }
    if NoDup(o) && id in r {
      assert multiset(r)[id] >= 1 && multiset(o)[id] >= 2;
      NoDupOnce(o, id);
    }
  }

  lemma {:induction false} NoDupOnce(o: seq<nat>, id: nat)
    requires NoDup(o)
    ensures multiset(o)[id] <= 1
  {
    if o != [] {
      var n := |o| - 1;
      assert o == o[..n] + [o[n]];
      NoDupOnce(o[..n], id);
      if o[n] == id {
        assert id !in o[..n] && id !in multiset(o[..n]);
      }
    }
  }

  lemma OccCount(lits: map<nat, Lits>, occs: map<int, seq<nat>>, id: nat, lit: int)
    requires OccsOk(lits, occs) && id in lits
    ensures multiset(Occ(occs, lit))[id] == WatchCount(lits[id], lit)
  {
  }

  /** One entry of clause id was taken out of the list of lit. */
  ghost predicate Took(occs: map<int, seq<nat>>, occs': map<int, seq<nat>>, id: nat, lit: int) {
    forall l, d: nat {:trigger multiset(Occ(occs', l))[d]} ::
      multiset(Occ(occs', l))[d] + (if d == id && l == lit then 1 else 0) == multiset(Occ(occs, l))[d]
  }

  /** With all its entries gone a clause can be dropped. */
  lemma TookAll(lits: map<nat, Lits>, occs: map<int, seq<nat>>, one: map<int, seq<nat>>, two: map<int, seq<nat>>,
                id: nat)
    requires OccsOk(lits, occs) && id in lits
    requires if lits[id] == [] then one == occs else Took(occs, one, id, lits[id][0])
    requires if |lits[id]| <= 1 then two == one else Took(one, two, id, lits[id][1])
    ensures OccsOk(lits - {id}, two)
  {
    hide Occ;
    forall lit, d: nat ensures multiset(Occ(two, lit))[d] == Watchers(lits - {id}, d, lit) {
      assert multiset(Occ(occs, lit))[d] == Watchers(lits, d, lit);
      assert |lits[id]| > 1 ==> multiset(Occ(two, lit))[d] <= multiset(Occ(one, lit))[d];
      assert |lits[id]| > 0 ==> multiset(Occ(one, lit))[d] <= multiset(Occ(occs, lit))[d];
    }
  }

  lemma FewerSets(f: Clauses, id: nat)
    ensures forall a :: ModelsSets(a, f) ==> ModelsSets(a, f - {id})
  {
  }

  /** Unit steps from true literals stay true and falsify nothing. */
  lemma GrowthSound(a: Assignment, f: Clauses, start: seq<int>, trail: seq<int>)
    requires ModelsSets(a, f) && AllTrue(a, LitSet(start)) && 0 !in LitSet(start)
    requires forall c :: c in f ==> 0 !in f[c]
    requires start <= trail && Derivation(f, LitSet(start), trail[|start|..])
    ensures AllTrue(a, LitSet(trail)) && !Falsified(f, LitSet(trail))
  {
    var steps := trail[|start|..];
    assert trail == start + steps;
    LitSetSplit(start, steps);
    DerivationSound(a, f, LitSet(start), steps);
    forall c | c in f ensures !FalseIn(f[c], LitSet(trail)) {
      assert SetTrue(a, f[c]);
    }
  }

  /** A clause whose negation propagates to a conflict holds in every model. */
  lemma RupImplies(a: Assignment, f: Clauses, t: set<int>, clause: Lits)
    requires ModelsSets(a, f) && AllTrue(a, t) && 0 !in t && 0 !in clause
    requires forall c :: c in f ==> 0 !in f[c]
    ensures Rup(f, t + Negations(clause)) ==> SetTrue(a, LitSet(clause))
  {
    if !SetTrue(a, LitSet(clause)) {
      forall lit | lit in t + Negations(clause) ensures True(a, lit) && lit != 0 {
        if lit in Negations(clause) {
          assert -lit in LitSet(clause);
        }
      }
      RupSound(a, f, t + Negations(clause));
    }
  }

  function Negations(c: Lits): set<int> {
    set lit | lit in c :: -lit
  }

  lemma NewFalsified(f: Clauses, id: nat, start: seq<int>, trail: seq<int>)
    requires id in f && FalseIn(f[id], LitSet(start)) && start <= trail
    ensures Falsified(f, LitSet(trail))
  {
    LitSetPrefix(start, trail);
  }

  lemma LitSetPrefix(start: seq<int>, trail: seq<int>)
    requires start <= trail
    ensures LitSet(start) <= LitSet(trail)
  {
  }

  lemma AllOkMonotone(lits: map<nat, Lits>, p: set<int>, t: set<int>, q: set<int>, t': set<int>)
    requires AllOk(lits, p, t, q) && t <= t'
    ensures AllOk(lits, p, t', q)
  {
  }

  lemma RupClash(f: Clauses, base: set<int>)
    requires Clash(base)
    ensures Rup(f, base)
  {
    NoSteps(f, base);
    assert base + LitSet([]) == base;
  }

  /** A propagation that ends in a falsified clause is a refutation of its start. */
  lemma RupReached(f: Clauses, base: set<int>, middle: seq<int>, trail: seq<int>)
    requires middle <= trail && LitSet(middle) <= base
    requires Derivation(f, LitSet(middle), trail[|middle|..]) && Falsified(f, LitSet(trail))
    ensures Rup(f, base)
  {
    var steps := trail[|middle|..];
    assert trail == middle + steps;
    LitSetSplit(middle, steps);
    forall k | 0 <= k < |steps| ensures Unit(f, base + LitSet(steps[..k]), steps[k]) {
      var c :| c in f && UnitIn(f[c], LitSet(middle) + LitSet(steps[..k]), steps[k]);
      assert UnitIn(f[c], base + LitSet(steps[..k]), steps[k]);
    }
    var c :| c in f && FalseIn(f[c], LitSet(trail));
    assert FalseIn(f[c], base + LitSet(steps));
  }

  // ----- counting open literals of a new clause -----

  predicate IsOpen(lit: int, t: set<int>) {
    lit !in t && -lit !in t
  }

  function Opens(c: Lits, t: set<int>): nat {
    if c == [] then 0 else (if IsOpen(c[|c| - 1], t) then 1 else 0) + Opens(c[..|c| - 1], t)
  }

  /** The first two open positions, as far as there are any. */
  lemma {:induction false} OpensAt(c: Lits, t: set<int>) returns (i: nat, j: nat)
    ensures Opens(c, t) == 0 ==> forall k :: 0 <= k < |c| ==> !IsOpen(c[k], t)
    ensures Opens(c, t) == 1 ==> i < |c| && IsOpen(c[i], t) && forall k :: 0 <= k < |c| && k != i ==> !IsOpen(c[k], t)
    ensures Opens(c, t) >= 2 ==> i < j < |c| && IsOpen(c[i], t) && IsOpen(c[j], t)
  {
    i, j := 0, 0;
    if c != [] {
      var n := |c| - 1;
      i, j := OpensAt(c[..n], t);
      if IsOpen(c[n], t) {
        if Opens(c[..n], t) == 0 {
          i := n;
        } else if Opens(c[..n], t) == 1 {
          j := n;
        }
      }
    }
  }

  /** How a move to the front changes the literal array. */
  ghost predicate Fronted(c: Lits, d: Lits, from: nat, t: set<int>)
    requires from < |c|
  {
    |d| == |c| &&
    (d == c || (!IsOpen(c[from], t) && exists k ::
        from < k < |c| && IsOpen(c[k], t) && d == c[from := c[k]][k := c[from]])) &&
    ((exists k :: from <= k < |c| && IsOpen(c[k], t)) ==> IsOpen(d[from], t))
  }

  lemma FrontedSame(c: Lits, d: Lits, from: nat, t: set<int>)
    requires from < |c| && Fronted(c, d, from, t)
    ensures LitSet(d) == LitSet(c) && (NoDup(c) ==> NoDup(d)) && (0 !in c ==> 0 !in d)
    ensures forall k :: 0 <= k < from ==> d[k] == c[k]
  {
    if d != c {
      var k :| from < k < |c| && IsOpen(c[k], t) && d == c[from := c[k]][k := c[from]];
      Swapped(c, from, k);
    }
  }

  /** After both moves the first two literals are open, as far as there are open ones. */
  lemma FrontedTwice(c: Lits, d: Lits, e: Lits, t: set<int>)
    requires c != [] && Fronted(c, d, 0, t) && (if |d| > 1 then Fronted(d, e, 1, t) else e == d)
    ensures LitSet(e) == LitSet(c) && (NoDup(c) ==> NoDup(e)) && (0 !in c ==> 0 !in e) && |e| == |c|
    ensures Opens(c, t) == 1 ==> IsOpen(e[0], t) && forall k :: 1 <= k < |e| ==> !IsOpen(e[k], t)
    ensures Opens(c, t) >= 2 ==> |e| >= 2 && IsOpen(e[0], t) && IsOpen(e[1], t)
  {
    var i, j := OpensAt(c, t);
    FrontedSame(c, d, 0, t);
    if |d| > 1 {
      FrontedSame(d, e, 1, t);
      if Opens(c, t) == 1 {
        assert forall k :: 1 <= k < |d| ==> !IsOpen(d[k], t);
      } else if Opens(c, t) >= 2 {
        assert d == c ==> IsOpen(d[j], t);
        assert d != c ==> i > 0 && (IsOpen(d[i], t) || IsOpen(d[j], t));
      }
    }
  }

  /** The literals the clauses can contribute to a trail. */
  function Universe(f: Clauses): set<int> {
    set c, lit | c in f && lit in f[c] :: lit
  }

  lemma {:induction false} DerivationWithin(f: Clauses, base: set<int>, steps: seq<int>)
    requires Derivation(f, base, steps)
    ensures LitSet(steps) <= Universe(f)
  {
    forall x | x in steps ensures x in Universe(f) {
      var k :| 0 <= k < |steps| && steps[k] == x;
      assert Unit(f, base + LitSet(steps[..k]), steps[k]);
    }
  }

  /** A trail is no longer than the literals it can draw from. */
  lemma TrailBounded(f: Clauses, start: seq<int>, trail: seq<int>)
    requires start <= trail && NoDup(trail) && Derivation(f, LitSet(start), trail[|start|..])
    ensures |trail| <= |LitSet(start) + Universe(f)|
  {
    DerivationWithin(f, LitSet(start), trail[|start|..]);
    LitSetSplit(start, trail[|start|..]);
    assert trail == start + trail[|start|..];
    NoDupBounded(trail, LitSet(start) + Universe(f));
  }

  lemma NoSteps(f: Clauses, base: set<int>)
    ensures Derivation(f, base, [])
  {
  }

  lemma TrailDistinct(vals: map<int, int>, trail: seq<int>)
    requires ValsOk(vals, trail)
    ensures NoDup(trail)
  {
  }

  lemma TrailNonzero(vals: map<int, int>, trail: seq<int>, n: nat)
    requires ValsOk(vals, trail) && n < |trail|
    ensures trail[n] != 0 && trail[n] in LitSet(trail) && NoDup(trail)
  {
  }

  lemma UnassignOk(vals: map<int, int>, trail: seq<int>)
    requires ValsOk(vals, trail) && trail != []
    ensures var n := |trail| - 1; var v := if trail[n] < 0 then -trail[n] else trail[n];
            ValsOk(vals[v := 0], trail[..n])
  {
    var n := |trail| - 1;
    var v := if trail[n] < 0 then -trail[n] else trail[n];
    var w, t := vals[v := 0], trail[..n];
    TrailConsistent(vals, trail);
    assert trail[n] in trail && trail == t + [trail[n]];
    forall l | l != 0 ensures -1 <= ValueOf(w, l) <= 1 && (ValueOf(w, l) == 1 <==> l in t) {
      if l != trail[n] && l != -trail[n] {
        assert ValueOf(w, l) == ValueOf(vals, l);
        assert l in trail <==> l in t;
      }
    }
  }

  /** Entering a clause in the lists of its watches. */
  function Connected(occs: map<int, seq<nat>>, id: nat, c: Lits): map<int, seq<nat>> {
    var one := if |c| >= 1 then occs[c[0] := Occ(occs, c[0]) + [id]] else occs;
    if |c| >= 2 then one[c[1] := Occ(one, c[1]) + [id]] else one
  }

  lemma ConnectedCount(occs: map<int, seq<nat>>, id: nat, c: Lits, lit: int, d: nat)
    ensures multiset(Occ(Connected(occs, id, c), lit))[d] ==
            multiset(Occ(occs, lit))[d] + if d == id then WatchCount(c, lit) else 0
  {
    if |c| >= 1 {
      var one := occs[c[0] := Occ(occs, c[0]) + [id]];
      assert multiset(Occ(one, lit))[d] == multiset(Occ(occs, lit))[d] + if d == id && c[0] == lit then 1 else 0;
      if |c| >= 2 {
        var two := one[c[1] := Occ(one, c[1]) + [id]];
        assert multiset(Occ(two, lit))[d] == multiset(Occ(one, lit))[d] + if d == id && c[1] == lit then 1 else 0;
      }
    }
  }

  lemma ConnectOccs(lits: map<nat, Lits>, occs: map<int, seq<nat>>, id: nat, c: Lits)
    requires OccsOk(lits, occs) && id !in lits
    ensures OccsOk(lits[id := c], Connected(occs, id, c))
  {
    hide Connected, WatchCount;
    forall lit, d: nat
      ensures multiset(Occ(Connected(occs, id, c), lit))[d] == Watchers(lits[id := c], d, lit)
    {
      assert multiset(Occ(occs, lit))[d] == Watchers(lits, d, lit);
      ConnectedCount(occs, id, c, lit, d);
    }
  }

  /** What druplig_actual establishes for a clause c rearranged to d. */
  ghost predicate Actualized(c: Lits, d: Lits, sat: bool, open: nat, t: set<int>) {
    |d| == |c| && LitSet(d) == LitSet(c) && (NoDup(c) ==> NoDup(d)) && 0 !in d &&
    (sat <==> SatBy(d, t)) &&
    (open == 0 && !sat ==> FalseIn(LitSet(d), t)) &&
    (open == 1 ==> |d| >= 1 && IsOpen(d[0], t) && forall k :: 1 <= k < |d| ==> !IsOpen(d[k], t)) &&
    (open >= 2 ==> |d| >= 2 && IsOpen(d[0], t) && IsOpen(d[1], t))
  }

  lemma FalseNotSat(c: Lits, t: set<int>)
    requires FalseIn(LitSet(c), t)
    ensures SatBy(c, t) ==> Clash(t)
  {
    SatByMember(c, t);
    if SatBy(c, t) {
      var lit :| lit in c && lit in t;
      assert lit in LitSet(c);
    }
  }

  lemma ActualizedUnit(c: Lits, d: Lits, sat: bool, open: nat, t: set<int>)
    requires Actualized(c, d, sat, open, t) && !Clash(t)
    ensures FalseIn(LitSet(d), t) <==> !sat && open == 0
    ensures !sat && open == 1 ==> UnitIn(LitSet(d), t, d[0])
  {
    SatByMember(d, t);
    if FalseIn(LitSet(d), t) {
      FalseNotSat(d, t);
    }
    if open > 0 {
      assert d[0] in LitSet(d);
    }
  }

  /** A fresh clause, its watches chosen, respects the watch invariant. */
  lemma NewClauseOk(c: Lits, d: Lits, sat: bool, open: nat, t: set<int>, t': set<int>)
    requires Actualized(c, d, sat, open, t) && NoDup(c) && !FalseIn(LitSet(c), t) && !Clash(t) && t <= t'
    requires !sat && open == 1 ==> d[0] in t'
    ensures ClauseOk(d, t', t', t)
  {
    SatByMember(d, t);
    SatByMember(d, t');
    ActualizedUnit(c, d, sat, open, t);
    if sat {
      var lit :| lit in d && lit in t;
    }
  }

  class Checker {
    var lits: map<nat, Lits>
    var occs: map<int, seq<nat>>
    var vals: map<int, int>
    var trail: seq<int>
    var next: nat
    var empty: seq<nat>
    var ids: nat

    ghost predicate Struct()
      reads this
    {
      Shape() && forall c :: c in lits && lits[c] == [] ==> c in empty
    }

    ghost predicate Shape()
      reads this
    {
      ValsOk(vals, trail) && OccsOk(lits, occs) && next <= |trail| && NoDup(empty) &&
      (forall c :: c in empty ==> c in lits) &&
      (forall c :: c in lits ==> c < ids && 0 !in lits[c])
    }

    ghost function True(): set<int>
      reads this`trail
    {
      LitSet(trail)
    }

    ghost function Sets(): Clauses
      reads this`lits
    {
      SetsOf(lits)
    }

    function Value(lit: int): int
      reads this`vals
    {
      ValueOf(vals, lit)
    }

    lemma ValueMeaning(lit: int)
      requires ValsOk(vals, trail) && lit != 0
      ensures Value(lit) > 0 <==> lit in True()
      ensures Value(lit) < 0 <==> -lit in True()
    {
      assert ValueOf(vals, -lit) == -ValueOf(vals, lit);
    }

    /** druplig_assign */
    method Assign(lit: int)
      requires ValsOk(vals, trail) && lit != 0 && Value(lit) == 0
      modifies this`vals, this`trail
      ensures ValsOk(vals, trail) && trail == old(trail) + [lit]
    {
      AssignOk(vals, trail, lit);
      vals := vals[if lit < 0 then -lit else lit := if lit < 0 then -1 else 1];
      trail := trail + [lit];
    }

    /** druplig_push_inconsistent */
    method PushInconsistent(c: nat)
      requires c in lits && NoDup(empty) && forall d :: d in empty ==> d in lits
      modifies this`empty
      ensures NoDup(empty) && forall d :: d in empty ==> d in lits
      ensures c in empty && empty == if c in old(empty) then old(empty) else old(empty) + [c]
    {
      if c !in empty {
        empty := empty + [c];
      }
    }

    /** druplig_propagate: the first literal beyond the watches that is not false. */
    method Replacement(c: Lits, ghost t: set<int>) returns (k: nat)
      requires ValsOk(vals, trail) && |c| >= 2 && 0 !in c && t == True()
      ensures 2 <= k <= |c| && (k < |c| ==> -c[k] !in t)
      ensures forall j :: 2 <= j < k ==> -c[j] in t
    {
      k := 2;
      while k < |c|
        invariant 2 <= k <= |c|
        invariant forall j :: 2 <= j < k ==> -c[j] in t
      {
        assert c[k] in c;
        ValueMeaning(c[k]);
        if Value(c[k]) >= 0 {
          return;
        }
        k := k + 1;
      }
    }

    /** druplig_propagate: watch another literal instead of the falsified one. */
    method MoveWatch(f: int, q: nat, k: nat)
      requires Struct() && q < |Occ(occs, f)| && Occ(occs, f)[q] in lits
      requires var d := lits[Occ(occs, f)[q]]; 2 <= k < |d| && d[0] == f && d[k] != f
      modifies this`lits, this`occs
      ensures Struct() && Sets() == old(Sets())
      ensures var id := old(Occ(occs, f)[q]); var d := old(lits)[id];
              lits == old(lits)[id := d[0 := d[k]][k := f]]
      ensures Occ(occs, f) == old(Occ(occs, f)[..q] + Occ(occs, f)[q + 1..])
    {
      hide OccsOk, ValsOk, NoDup, LitSet;
      var id := Occ(occs, f)[q];
      var d := lits[id];
      var e := d[0 := d[k]][k := f];
      Swapped(d, 0, k);
      MoveOcc(lits, occs, f, q, d[k], e);
      SameSets(lits, id, e);
      occs := occs[f := Occ(occs, f)[..q] + Occ(occs, f)[q + 1..]][d[k] := Occ(occs, d[k]) + [id]];
      lits := lits[id := e];
    }

    /** druplig_propagate: put the falsified watch first. */
    method ArrangeClause(f: int, id: nat)
      requires Struct() && id in lits && |lits[id]| >= 2 && (lits[id][0] == f || lits[id][1] == f)
      modifies this`lits
      ensures Struct() && Sets() == old(Sets()) && lits == old(lits)[id := Arrange(old(lits)[id], f)]
    {
      hide OccsOk, ValsOk, NoDup, LitSet;
      var c := lits[id];
      Arranged(c, f);
      SameOccs(lits, occs, id, Arrange(c, f));
      SameSets(lits, id, Arrange(c, f));
      lits := lits[id := Arrange(c, f)];
    }

    /** The body of the occurrence loop of druplig_propagate. */
    method VisitClause(f: int, q: nat, level: nat) returns (v: Visit)
      requires Struct() && f != 0 && -f in True() && q < |Occ(occs, f)|
      modifies this`lits, this`occs, this`vals, this`trail, this`empty
      ensures Struct() && Sets() == old(Sets())
      ensures var id := old(Occ(occs, f)[q]);
              id in lits && id in old(lits) && lits == old(lits)[id := lits[id]] &&
              Visited(v, old(lits)[id], lits[id], f, old(True()))
      ensures Occ(occs, f) == if v == Moved then old(Occ(occs, f)[..q] + Occ(occs, f)[q + 1..]) else old(Occ(occs, f))
      ensures var c := old(lits)[old(Occ(occs, f)[q])];
              if v == Forced then |c| >= 2 && trail == old(trail) + [Arrange(c, f)[1]] else trail == old(trail)
      ensures v != Conflict || level > 0 ==> empty == old(empty)
      ensures v == Conflict && level == 0 ==> empty != []
    {
      hide OccsOk, ValsOk, NoDup, Visited, LitSet, SetsOf;
      var id := Occ(occs, f)[q];
      OccWatches(lits, occs, f, q);
      ghost var t, c := True(), lits[id];
      if |lits[id]| == 1 {
        if level == 0 {
          PushInconsistent(id);
        }
        VisitedUnit(c, f, t);
        return Conflict;
      }
      ArrangeClause(f, id);
      var d := lits[id];
      var other := d[1];
      assert other in d && d[0] == f && d[0] in d;
      ValueMeaning(other);
      if Value(other) > 0 {
        VisitedKept(c, f, t);
        return Kept;
      }
      var k := Replacement(d, t);
      if k < |d| {
        assert d[k] in d;
        VisitedMoved(c, f, k, t);
        assert -f in t && -d[k] !in t;
        MoveWatch(f, q, k);
        return Moved;
      }
      VisitedStays(c, f, t);
      if Value(other) == 0 {
        Assign(other);
        return Forced;
      }
      if level == 0 {
        PushInconsistent(id);
      }
      return Conflict;
    }

    /** The literals that stay true: all of them at level zero. */
    ghost function Lasting(level: nat, p: set<int>): set<int>
      reads this`trail
    {
      if level == 0 then True() else p
    }

    /** The watch invariant before the sweep for x, and the one that backtracking
        to the literals p will find. */
    ghost predicate Watching(level: nat, p: set<int>, q: set<int>, x: int, pending: seq<nat>)
      reads this`lits, this`trail
    {
      Watched(lits, Lasting(level, p), True(), q, x, pending) &&
      (level > 0 ==> p <= True() && x !in p && AllOk(lits, p, p, p))
    }

    /** The trail grew by unit steps only. */
    ghost predicate Grown(start: seq<int>)
      reads this`lits, this`trail
    {
      start <= trail && Derivation(Sets(), LitSet(start), trail[|start|..])
    }

    /** druplig_propagate: the loop over the occurrence list of a falsified literal. */
    method Sweep(f: int, level: nat, ghost start: seq<int>, ghost p: set<int>, ghost q: set<int>, ghost clean: bool)
      returns (ok: bool)
      requires Struct() && f != 0 && -f in True() && Grown(start)
      requires clean ==> q <= True() && -f !in q && Watching(level, p, q, -f, Occ(occs, f))
      modifies this`lits, this`occs, this`vals, this`trail, this`empty
      ensures Struct() && Sets() == old(Sets()) && old(trail) <= trail && Grown(start)
      ensures ok && clean ==> Watching(level, p, q, -f, [])
      ensures clean && level > 0 ==> AllOk(lits, p, p, p)
      ensures !ok ==> Falsified(Sets(), True())
      ensures ok || level > 0 ==> empty == old(empty)
      ensures !ok && level == 0 ==> empty != []
      ensures !ok && clean ==> exists lit :: lit in True() && lit !in q && lit != -f
    {
      hide OccsOk, ValsOk, NoDup, Visited, LitSet, SetsOf, Derivation, AllOk, Watched, Arrange;
      var i := 0;
      while i < |Occ(occs, f)|
        invariant i <= |Occ(occs, f)|
        invariant Struct() && Sets() == old(Sets()) && old(trail) <= trail && Grown(start)
        invariant -f in True() && (clean ==> q <= True() && Watching(level, p, q, -f, Occ(occs, f)[i..]))
        invariant empty == old(empty)
        decreases |Occ(occs, f)| - i
      {
        ghost var lits0, t0, trail0, pending := lits, True(), trail, Occ(occs, f)[i..];
        ghost var id := pending[0];
        OccWatches(lits, occs, f, i);
        TrailConsistent(vals, trail);
        SetsAt(lits, id);
        var v := VisitClause(f, i, level);
        VisitDerives(v, SetsOf(lits0), id, lits0[id], lits[id], f, t0);
        if clean && level > 0 {
          BaseStep(lits0, id, lits[id], v, f, p, t0);
        }
        if v == Conflict {
          if clean {
            WatchedAt(lits0, if level == 0 then t0 else p, t0, q, -f, pending, id);
            ConflictPending(lits0[id], lits[id], f, if level == 0 then t0 else p, t0, q);
          }
          return false;
        }
        if v == Forced {
          GrownStep(SetsOf(lits0), start, trail0, Arrange(lits0[id], f)[1]);
        }
        if v != Moved {
          i := i + 1;
        }
        assert Occ(occs, f)[i..] == pending[1..];
        if clean {
          SweepStep(lits0, id, lits[id], v, f, if level == 0 then t0 else p, t0, q, Lasting(level, p), True(), pending);
        }
      }
      assert Occ(occs, f)[i..] == [];
      ok := true;
    }

    /** All clauses respect the watches, with the first n trail literals processed;
        lasting is what backtracking keeps. */
    ghost predicate Ready(level: nat, lasting: seq<int>, n: nat)
      reads this`lits, this`trail
      requires n <= |trail|
    {
      AllOk(lits, Lasting(level, LitSet(lasting)), True(), LitSet(trail[..n])) &&
      (level > 0 ==>
         |lasting| <= n && lasting <= trail && AllOk(lits, LitSet(lasting), LitSet(lasting), LitSet(lasting)))
    }

    lemma ReadyWatching(level: nat, lasting: seq<int>, n: nat)
      requires n < |trail| && NoDup(trail) && Ready(level, lasting, n) && OccsOk(lits, occs)
      ensures Watching(level, LitSet(lasting), LitSet(trail[..n]), trail[n], Occ(occs, -trail[n]))
      ensures LitSet(trail[..n]) <= True() && trail[n] !in LitSet(trail[..n])
    {
      var q, pending := LitSet(trail[..n]), Occ(occs, -trail[n]);
      forall c | c in lits
        ensures ClauseOk(lits[c], Lasting(level, LitSet(lasting)), True(), if c in pending then q else q + {trail[n]})
      {
        assert ClauseOk(lits[c], Lasting(level, LitSet(lasting)), True(), q);
        assert multiset(pending)[c] == Watchers(lits, c, -trail[n]);
      }
    }

    lemma WatchingReady(level: nat, lasting: seq<int>, n: nat)
      requires n < |trail| && Watching(level, LitSet(lasting), LitSet(trail[..n]), trail[n], [])
      requires level > 0 ==> |lasting| <= n && lasting <= trail
      ensures Ready(level, lasting, n + 1)
    {
      assert trail[..n + 1] == trail[..n] + [trail[n]];
      LitSetSplit(trail[..n], [trail[n]]);
      assert LitSet([trail[n]]) == {trail[n]};
    }

    /** druplig_propagate */
    method Propagate(level: nat, ghost lasting: seq<int>, ghost clean: bool) returns (ok: bool)
      requires Struct()
      requires clean ==> Ready(level, lasting, next)
      modifies this`lits, this`occs, this`vals, this`trail, this`empty, this`next
      ensures Struct() && Sets() == old(Sets()) && Grown(old(trail)) && old(next) <= next
      ensures ok ==> next == |trail| && (clean ==> Ready(level, lasting, next))
      ensures clean && level > 0 ==> lasting <= trail && AllOk(lits, LitSet(lasting), LitSet(lasting), LitSet(lasting))
      ensures !ok ==> Falsified(Sets(), True())
      ensures ok || level > 0 ==> empty == old(empty)
      ensures !ok && level == 0 ==> empty != []
      ensures old(next) == |old(trail)| ==> ok && trail == old(trail)
      ensures !ok && clean ==> next < |trail|
    {
      hide OccsOk, LitSet, SetsOf, Derivation, AllOk, Watched, NoDup, ValsOk;
      ghost var start := trail;
      assert Grown(start) by {
        NoSteps(Sets(), LitSet(start));
        assert trail[|start|..] == [];
      }
      TrailDistinct(vals, trail);
      TrailBounded(Sets(), start, trail);
      while next < |trail|
        invariant Struct() && Sets() == old(Sets()) && Grown(start) && old(next) <= next
        invariant clean ==> Ready(level, lasting, next)
        invariant empty == old(empty)
        invariant old(next) == |start| ==> trail == start && next == |start|
        invariant |trail| <= |LitSet(start) + Universe(old(Sets()))|
        decreases |LitSet(start) + Universe(old(Sets()))| - next
      {
        var lit := trail[next];
        ghost var n := next;
        TrailNonzero(vals, trail, n);
        if clean {
          ReadyWatching(level, lasting, n);
        }
        next := next + 1;
        ghost var before := trail;
        ok := Sweep(-lit, level, start, LitSet(lasting), LitSet(trail[..n]), clean);
        assert before[..n] == trail[..n] && trail[n] == lit;
        TrailDistinct(vals, trail);
        TrailBounded(Sets(), start, trail);
        if !ok {
          if clean {
            MoreThan(trail, n);
          }
          return;
        }
        if clean {
          WatchingReady(level, lasting, n);
        }
      }
      ok := true;
    }

    /** druplig_backtrack, with druplig_unassign inlined. */
    method Backtrack(level: nat)
      requires ValsOk(vals, trail) && level <= |trail|
      modifies this`vals, this`trail, this`next
      ensures ValsOk(vals, trail) && trail == old(trail)[..level]
      ensures next == if old(next) > level then level else old(next)
    {
      while |trail| > level
        invariant ValsOk(vals, trail) && level <= |trail| <= |old(trail)| && trail == old(trail)[..|trail|]
        invariant next == old(next)
        decreases |trail|
      {
        var lit := trail[|trail| - 1];
        UnassignOk(vals, trail);
        trail := trail[..|trail| - 1];
        vals := vals[if lit < 0 then -lit else lit := 0];
      }
      if next > |trail| {
        next := |trail|;
      }
    }

    /** druplig_move_to_front on the literals from a position on. */
    method MoveToFront(c: Lits, from: nat) returns (d: Lits)
      requires ValsOk(vals, trail) && from < |c| && 0 !in c
      ensures Fronted(c, d, from, True())
    {
      assert c[from] in c;
      ValueMeaning(c[from]);
      if Value(c[from]) == 0 {
        return c;
      }
      var k := from + 1;
      while k < |c|
        invariant from < k <= |c|
        invariant forall j :: from <= j < k ==> !IsOpen(c[j], True())
      {
        assert c[k] in c;
        ValueMeaning(c[k]);
        if Value(c[k]) == 0 {
          return c[from := c[k]][k := c[from]];
        }
        k := k + 1;
      }
      d := c;
    }

    /** druplig_actual: is the clause satisfied, how many literals are open, and
        the literals with open ones moved to the watch positions. */
    method Actual(c: Lits) returns (sat: bool, open: nat, d: Lits)
      requires ValsOk(vals, trail) && 0 !in c
      ensures Actualized(c, d, sat, open, True())
    {
      sat, open, d := false, 0, c;
      for k := 0 to |c|
        invariant sat <==> exists lit :: lit in c[..k] && lit in True()
        invariant open == Opens(c[..k], True())
      {
        assert c[k] in c && c[..k + 1] == c[..k] + [c[k]] && c[..k + 1][..k] == c[..k];
        ValueMeaning(c[k]);
        var val := Value(c[k]);
        if val > 0 {
          sat := true;
        } else if val == 0 {
          open := open + 1;
        }
      }
      assert c[..|c|] == c;
      SatByMember(c, True());
      if |c| > 0 {
        d := MoveToFront(c, 0);
        FrontedSame(c, d, 0, True());
        ghost var d0 := d;
        if |c| > 1 {
          d := MoveToFront(d, 1);
        }
        FrontedTwice(c, d0, d, True());
      }
      SatByMember(d, True());
      ghost var i, j := OpensAt(c, True());
    }

    /** druplig_connect_literal for the watches of a new clause. */
    method Connect(id: nat, c: Lits)
      requires Struct() && id !in lits && id < ids && 0 !in c
      modifies this`lits, this`occs
      ensures Shape() && lits == old(lits)[id := c] && Sets() == old(Sets())[id := LitSet(c)]
    {
      hide OccsOk, ValsOk, NoDup, LitSet, SetsOf;
      ConnectOccs(lits, occs, id, c);
      if |c| > 0 {
        occs := occs[c[0] := Occ(occs, c[0]) + [id]];
        if |c| > 1 {
          occs := occs[c[1] := Occ(occs, c[1]) + [id]];
        }
      }
      assert occs == Connected(old(occs), id, c);
      SetsInsert(lits, id, c);
      lits := lits[id := c];
    }

    /** druplig_new_clause */
    method NewClause(clause: Lits) returns (id: nat)
      requires Struct() && 0 !in clause
      modifies this`lits, this`occs, this`vals, this`trail, this`empty, this`ids
      ensures Struct() && id == old(ids) && ids == id + 1 && id !in old(lits) && id in lits
      ensures Sets() == old(Sets())[id := LitSet(clause)] && old(trail) <= trail
      ensures trail == old(trail) || (|trail| == |old(trail)| + 1 && Unit(Sets(), old(True()), trail[|old(trail)|]))
      ensures empty == if FalseIn(LitSet(clause), old(True())) then old(empty) + [id] else old(empty)
      ensures lits == old(lits)[id := lits[id]]
      ensures NoDup(clause) && !FalseIn(LitSet(clause), old(True())) ==>
                ClauseOk(lits[id], True(), True(), old(True()))
      ensures NoDup(clause) && old(AllOk(lits, True(), True(), True())) && !FalseIn(LitSet(clause), old(True())) ==>
                AllOk(lits, True(), True(), old(True()))
    {
      hide OccsOk, ValsOk, ClauseOk, LitSet, SatBy, SetsOf, Clash, FalseIn, UnitIn;
      id := ids;
      ids := ids + 1;
      ghost var t := True();
      TrailConsistent(vals, trail);
      var sat, open, c := Actual(clause);
      ActualizedUnit(clause, c, sat, open, t);
      Connect(id, c);
      SetsAt(lits, id);
      if !sat && open == 0 {
        PushInconsistent(id);
      } else if !sat && open == 1 {
        OpenUnassigned(c[0]);
        Assign(c[0]);
        LitSetSplit(old(trail), [c[0]]);
        LitSetOne(c[0]);
      }
      EmptyFalse(c, t);
      if NoDup(clause) && !FalseIn(LitSet(clause), t) {
        NewClauseOk(clause, c, sat, open, t, True());
      }
      if NoDup(clause) && old(AllOk(lits, True(), True(), True())) && !FalseIn(LitSet(clause), t) {
        forall d | d in lits ensures ClauseOk(lits[d], True(), True(), t) {
          if d != id {
            ClauseOkMonotone(lits[d], t, True(), t, True(), t);
          }
        }
      }
    }

    lemma OpenUnassigned(lit: int)
      requires ValsOk(vals, trail) && lit != 0 && IsOpen(lit, True())
      ensures Value(lit) == 0
    {
      ValueMeaning(lit);
    }

    // ----- the interface -----

    /** No inconsistent clause was recorded so far: everything is propagated and
        the watches are in order. */
    ghost predicate Clean()
      reads this
    {
      Struct() && empty == [] && next == |trail| && AllOk(lits, True(), True(), True())
    }

    /** Every live clause and every trail literal holds in all models of the
        clauses orig, and a recorded inconsistency excludes such models. */
    ghost predicate Sound(orig: set<set<int>>)
      reads this`lits, this`trail, this`empty
    {
      forall a :: ModelsAll(a, orig) ==> ModelsSets(a, Sets()) && AllTrue(a, True()) && empty == []
    }

    /** The state after calls on clauses without duplicates: once the whole trail is
        processed, the watches of all clauses but the recorded ones are in order, and without
        a recorded inconsistency it is. */
    ghost predicate Tidy()
      reads this
    {
      Struct() && Waiting(lits, empty, trail, next) && (empty == [] ==> next == |trail|)
    }

    lemma TidyClean()
      requires Tidy() && empty == []
      ensures Clean()
    {
    }

    lemma CleanTidy()
      requires Clean()
      ensures Tidy()
    {
    }

    lemma CleanWaiting()
      requires next == |trail| && AllOk(lits, True(), True(), True())
      ensures Waiting(lits, empty, trail, next)
    {
    }

    /** Moreover nothing was deleted: the trail follows from the clauses by unit propagation,
        and a recorded inconsistency is a falsified clause. */
    ghost predicate Propagated()
      reads this
    {
      Tidy() && Derivation(Sets(), {}, trail) && (empty != [] ==> Falsified(Sets(), True()))
    }

    lemma PropagatedParts()
      ensures Propagated() ==>
                Tidy() && Derivation(Sets(), {}, trail) && (empty != [] ==> Falsified(Sets(), LitSet(trail)))
    {
      hide Derivation, Falsified, Checker.Tidy;
    }

    lemma PropagatedIf()
      requires Tidy() && Derivation(Sets(), {}, trail) && (empty != [] ==> Falsified(Sets(), LitSet(trail)))
      ensures Propagated()
    {
      hide Derivation, Falsified, Checker.Tidy;
    }

    lemma StructIds()
      requires Struct()
      ensures ids !in lits
    {
    }

    /** Then an inconsistency is recorded exactly when unit propagation of the clauses alone
        reaches a conflict. */
    lemma PropagatedRefuted()
      requires Propagated()
      ensures empty != [] <==> Rup(Sets(), {})
    {
      if empty != [] {
        RefutesRup(Sets(), {}, trail, True());
      } else {
        WatchedClosed(lits, True(), True());
        TrailConsistent(vals, trail);
        ClosedNotRup(Sets(), {}, True());
      }
    }

    lemma PropagatedStruct()
      requires Propagated()
      ensures Struct()
    {
    }

    /** And the trail can be left out of the base. */
    lemma PropagatedBase(base: set<int>)
      requires Propagated()
      ensures Rup(Sets(), True() + base) <==> Rup(Sets(), base)
    {
      DerivedBase(Sets(), trail, base);
    }

    constructor ()
      ensures Propagated() && Sound({}) && Sets() == map[] && trail == [] && ids == 0
    {
      lits, occs, vals, trail, next, empty, ids := map[], map[], map[], [], 0, [], 0;
    }

    /** druplig_new_clause and druplig_propagate_after_adding_clause. */
    method AddClause(clause: Lits) returns (id: nat)
      requires Struct() && 0 !in clause
      modifies this
      ensures Struct() && id == old(ids) && ids == id + 1 && id !in old(lits)
      ensures Sets() == old(Sets())[id := LitSet(clause)]
      ensures old(trail) <= trail && Derivation(Sets(), LitSet(old(trail)), trail[|old(trail)|..])
      ensures old(empty) == [] && empty != [] ==> Falsified(Sets(), True())
      ensures old(empty) != [] ==> empty != []
      ensures old(Tidy()) && NoDup(clause) ==> Tidy()
      ensures old(Propagated()) && NoDup(clause) ==> Propagated()
    {
      ghost var before, known, refuted, start := Sets(), Propagated() && NoDup(clause), empty != [], trail;
      PropagatedParts();
      FreshSets(lits, ids);
      StructIds();
      hide *;
      id := AddSteps(clause);
      if known {
        GrownDerived(before, Sets(), start, trail);
        if refuted {
          LitSetPrefix(start, trail);
          FalsifiedMonotone(before, Sets(), LitSet(start), LitSet(trail));
        }
        PropagatedIf();
      }
    }

    /** Its steps. */
    method AddSteps(clause: Lits) returns (id: nat)
      requires Struct() && 0 !in clause
      modifies this
      ensures Struct() && id == old(ids) && ids == id + 1 && id !in old(lits)
      ensures Sets() == old(Sets())[id := LitSet(clause)]
      ensures old(trail) <= trail && Derivation(Sets(), LitSet(old(trail)), trail[|old(trail)|..])
      ensures old(empty) == [] && empty != [] ==> Falsified(Sets(), True())
      ensures old(empty) != [] ==> empty != []
      ensures old(Tidy()) && NoDup(clause) ==> Tidy()
    {
      if Tidy() && empty == [] {
        TidyClean();
      }
      hide OccsOk, ValsOk, ClauseOk, LitSet, SatBy, SetsOf, Clash, FalseIn, UnitIn, NoDup, AllOk, Derivation, Falsified,
        Unit, Waiting;
      ghost var start := trail;
      id := NewClause(clause);
      StartGrown(Sets(), start, trail);
      ghost var middle := trail;
      if old(Tidy()) && NoDup(clause) {
        WaitingMore(old(lits), old(empty), start, next, id, lits[id], empty, trail);
      }
      if empty == [] {
        ghost var clean := old(Clean()) && NoDup(clause);
        assert old(Clean()) ==> trail[..next] == start;
        var ok := Propagate(0, [], clean);
        DerivationJoin(Sets(), start, middle, trail);
        if clean && ok {
          assert trail[..next] == trail;
          CleanWaiting();
        } else if clean {
          UnprocessedWaiting(lits, empty, trail, next);
        }
      } else if old(empty) == [] {
        NewFalsified(Sets(), id, start, trail);
      }
    }

    /** druplig_check_redundant_clause: assume the negation of the clause, unless it clashes. */
    method Assume(clause: Lits) returns (ok: bool)
      requires ValsOk(vals, trail) && 0 !in clause
      modifies this`vals, this`trail
      ensures ValsOk(vals, trail) && old(trail) <= trail && True() <= old(True()) + Negations(clause)
      ensures ok ==> Negations(clause) <= True()
      ensures !ok ==> Clash(old(True()) + Negations(clause))
    {
      ok := true;
      var i := 0;
      while ok && i < |clause|
        invariant i <= |clause| && ValsOk(vals, trail) && old(trail) <= trail
        invariant True() <= old(True()) + Negations(clause)
        invariant ok ==> forall j :: 0 <= j < i ==> -clause[j] in True()
        invariant !ok ==> Clash(old(True()) + Negations(clause))
        decreases |clause| - i, ok
      {
        var lit := -clause[i];
        assert clause[i] in clause && lit in Negations(clause);
        ValueMeaning(lit);
        var val := Value(lit);
        if val < 0 {
          assert -lit in old(True()) + Negations(clause);
          ok := false;
        } else {
          if val == 0 {
            Assign(lit);
            LitSetSplit(trail[..|trail| - 1], [lit]);
            LitSetOne(lit);
          }
          i := i + 1;
        }
      }
    }

    /** druplig_check_redundant_clause: does propagation of the negated clause fail? */
    method CheckRedundant(clause: Lits) returns (redundant: bool)
      requires Struct() && 0 !in clause
      modifies this`lits, this`occs, this`vals, this`trail, this`empty, this`next
      ensures Struct() && Sets() == old(Sets())
      ensures old(trail) <= trail && Derivation(Sets(), LitSet(old(trail)), trail[|old(trail)|..])
      ensures old(empty) == [] && empty != [] ==> Falsified(Sets(), True())
      ensures redundant && empty == [] ==> Rup(Sets(), True() + Negations(clause))
      ensures old(empty) != [] ==> redundant && empty == old(empty) && trail == old(trail)
      ensures old(Tidy()) ==>
                Tidy() && trail == old(trail) && empty == old(empty) &&
                (redundant <==> old(empty) != [] || Rup(Sets(), True() + Negations(clause)))
      ensures old(Propagated()) ==> Propagated() && (redundant <==> Rup(Sets(), Negations(clause)))
    {
      ghost var known := Propagated();
      if Tidy() && empty == [] {
        TidyClean();
      }
      PropagatedParts();
      hide *;
      redundant := CheckSteps(clause);
      if old(Clean()) {
        CleanTidy();
      }
      if known {
        PropagatedIf();
        PropagatedRefuted();
        PropagatedBase(Negations(clause));
        if old(empty) != [] {
          RupMonotone(Sets(), Sets(), {}, Negations(clause));
        }
      }
    }

    /** Its steps, unless an inconsistency is recorded. */
    method CheckSteps(clause: Lits) returns (redundant: bool)
      requires Struct() && 0 !in clause
      modifies this`lits, this`occs, this`vals, this`trail, this`empty, this`next
      ensures Struct() && Sets() == old(Sets())
      ensures old(trail) <= trail && Derivation(Sets(), LitSet(old(trail)), trail[|old(trail)|..])
      ensures old(empty) == [] && empty != [] ==> Falsified(Sets(), True())
      ensures redundant && empty == [] ==> Rup(Sets(), True() + Negations(clause))
      ensures old(Clean()) ==>
                Clean() && empty == [] && trail == old(trail) &&
                (redundant <==> Rup(Sets(), True() + Negations(clause)))
      ensures old(empty) != [] ==> redundant && unchanged(this)
    {
      hide OccsOk, ValsOk, ClauseOk, LitSet, SatBy, SetsOf, Clash, NoDup, AllOk, Derivation, Falsified, Rup, Negations;
      if empty != [] {
        StartGrown(Sets(), trail, trail);
        return true;
      }
      ghost var clean := old(Clean());
      assert clean ==> trail[..next] == trail;
      var ok := Propagate(0, [], clean);
      if !ok {
        return true;
      }
      ghost var top := trail;
      assert clean ==> trail == old(trail);
      var level := |trail|;
      ok := Assume(clause);
      ghost var base, middle := LitSet(top) + Negations(clause), trail;
      if ok {
        if clean {
          LitSetPrefix(top, trail);
          AllOkMonotone(lits, LitSet(top), LitSet(top), LitSet(top), True());
          assert trail[..next] == top;
        }
        ok := Propagate(1, top, clean);
        if !ok {
          RupReached(Sets(), base, middle, trail);
        } else if clean {
          assert trail[..next] == trail;
          LitSetPrefix(top, trail);
          LitSetPrefix(middle, trail);
          WatchedClosed(lits, LitSet(top), True());
          TrailConsistent(vals, trail);
          ClosedNotRup(Sets(), base, True());
        }
      } else {
        RupClash(Sets(), base);
      }
      ghost var full := trail;
      Backtrack(level);
      assert trail == full[..level] == top;
      redundant := !ok;
    }

    /** druplig_find_clause: marking the literals of the clause, look for a live
        clause of the same size made of marked literals only. */
    method FindClause(clause: Lits) returns (found: bool, id: nat)
      requires Struct() && 0 !in clause
      ensures found ==> id in lits && Matches(lits[id], clause)
      ensures !found ==> forall c :: c in lits ==> !Matches(lits[c], clause)
    {
      id := 0;
      if clause == [] {
        for i := 0 to |empty|
          invariant forall j :: 0 <= j < i ==> lits[empty[j]] != []
        {
          if lits[empty[i]] == [] {
            return true, empty[i];
          }
        }
        return false, id;
      }
      var marks := {};
      for i := 0 to |clause|
        invariant marks == LitSet(clause[..i])
      {
        assert clause[..i + 1] == clause[..i] + [clause[i]];
        marks := marks + {clause[i]};
      }
      assert clause[..|clause|] == clause;
      for i := 0 to |clause|
        invariant forall j, c :: 0 <= j < i && c in lits && c in Occ(occs, clause[j]) ==> !Matches(lits[c], clause)
      {
        var o := Occ(occs, clause[i]);
        for q := 0 to |o|
          invariant forall c :: c in lits && c in o[..q] ==> !Matches(lits[c], clause)
        {
          OccWatches(lits, occs, clause[i], q);
          var c := o[q];
          if |lits[c]| == |clause| && forall lit :: lit in lits[c] ==> lit in marks {
            return true, c;
          }
        }
      }
      forall c | c in lits ensures !Matches(lits[c], clause) {
        if |lits[c]| > 0 && lits[c][0] in LitSet(clause) {
          var j :| 0 <= j < |clause| && clause[j] == lits[c][0];
          assert multiset(Occ(occs, clause[j]))[c] == Watchers(lits, c, clause[j]);
        } else if |lits[c]| > 0 {
          assert lits[c][0] in LitSet(lits[c]);
        }
      }
      found := false;
    }

    /** druplig_remove_occ */
    method RemoveOcc(o: seq<nat>, c: nat) returns (r: seq<nat>)
      requires c in o
      ensures multiset(o) == multiset(r) + multiset{c}
      ensures NoDup(o) ==> NoDup(r)
    {
      var p := 0;
      while o[p] != c
        invariant p < |o| && c !in o[..p]
        decreases |o| - p
      {
        assert o == o[..p] + [o[p]] + o[p + 1..];
        p := p + 1;
      }
      RemoveAt(o, p);
      r := o[..p] + o[p + 1..];
    }

    /** druplig_disconnect_literal */
    method DisconnectLiteral(id: nat, lit: int)
      requires multiset(Occ(occs, lit))[id] > 0
      modifies this`occs
      ensures Took(old(occs), occs, id, lit)
    {
      var o := Occ(occs, lit);
      assert id in multiset(o);
      var r := RemoveOcc(o, id);
      occs := occs[lit := r];
    }

    /** druplig_disconnect_clause, the occurrence lists. */
    method DisconnectWatches(id: nat)
      requires OccsOk(lits, occs) && id in lits
      modifies this`occs
      ensures OccsOk(lits - {id}, occs)
    {
      hide OccsOk;
      var c := lits[id];
      ghost var occs0 := occs;
      if |c| > 0 {
        OccCount(lits, occs0, id, c[0]);
        DisconnectLiteral(id, c[0]);
      }
      ghost var occs1 := occs;
      if |c| > 1 {
        OccCount(lits, occs0, id, c[1]);
        assert multiset(Occ(occs1, c[1]))[id] > 0;
        DisconnectLiteral(id, c[1]);
      }
      TookAll(lits, occs0, occs1, occs, id);
    }

    /** druplig_remove_inconsistent, for a clause that was recorded. */
    method RemoveInconsistent(id: nat)
      requires NoDup(empty)
      modifies this`empty
      ensures NoDup(empty) && id !in empty
      ensures forall c :: c != id ==> (c in empty <==> c in old(empty))
      ensures old(empty) == [] ==> empty == []
    {
      if id in empty {
        var r := RemoveOcc(empty, id);
        RemovedFrom(empty, r, id);
        empty := r;
      }
    }

    /** druplig_disconnect_delete_clause */
    method Disconnect(id: nat)
      requires Struct() && id in lits
      modifies this`lits, this`occs, this`empty
      ensures Struct() && lits == old(lits) - {id} && Sets() == old(Sets()) - {id}
      ensures forall c :: c != id ==> (c in empty <==> c in old(empty))
      ensures old(empty) == [] ==> empty == []
    {
      hide ValsOk, LitSet, OccsOk, NoDup;
      DisconnectWatches(id);
      RemoveInconsistent(id);
      lits := lits - {id};
    }

    /** druplig_forget_clause: delete a matching clause, if there is one. */
    method Forget(clause: Lits, ghost orig: set<set<int>>) returns (res: bool)
      requires Struct() && 0 !in clause
      modifies this`lits, this`occs, this`empty
      ensures Struct() && (old(Sound(orig)) ==> Sound(orig))
      ensures res <==> exists c :: c in old(lits) && Matches(old(lits)[c], clause)
      ensures if res then exists c :: c in old(lits) && Matches(old(lits)[c], clause) && lits == old(lits) - {c}
              else lits == old(lits)
      ensures old(Clean()) ==> Clean()
      ensures old(Tidy()) ==> (Tidy() <==> empty != [] || next == |trail|)
    {
      var id;
      res, id := FindClause(clause);
      if res {
        Disconnect(id);
        FewerSets(old(Sets()), id);
        if old(Tidy()) {
          WaitingLess(old(lits), old(empty), trail, next, id, empty);
        }
      }
    }

    /** druplig_add_original_clause */
    method AddOriginal(clause: Lits, ghost orig: set<set<int>>)
      requires Struct() && 0 !in clause
      modifies this
      ensures Struct() && (old(Sound(orig)) ==> Sound(orig + {LitSet(clause)}))
      ensures Sets() == old(Sets())[old(ids) := LitSet(clause)]
      ensures ids == old(ids) + 1
      ensures old(Tidy()) && NoDup(clause) ==> Tidy()
      ensures old(Propagated()) && NoDup(clause) ==> Propagated()
    {
      hide OccsOk, ValsOk, NoDup, LitSet, SetsOf, Clash, FalseIn, AllOk, Derivation, Falsified;
      ghost var start := trail;
      StructNonzero();
      var id := AddClause(clause);
      StructNonzero();
      forall a | old(Sound(orig)) && ModelsAll(a, orig + {LitSet(clause)})
        ensures ModelsSets(a, Sets()) && AllTrue(a, True()) && empty == []
      {
        assert ModelsAll(a, orig);
        GrowthSound(a, Sets(), start, trail);
      }
    }

    /** druplig_check_and_add_redundant_clause */
    method CheckAndAddRedundant(clause: Lits, ghost orig: set<set<int>>) returns (res: bool)
      requires Struct() && 0 !in clause
      modifies this
      ensures Struct() && (res && old(Sound(orig)) ==> Sound(orig))
      ensures Sets() == old(Sets())[old(ids) := LitSet(clause)]
      ensures ids == old(ids) + 1
      ensures old(Tidy()) ==> (res <==> old(empty) != [] || Rup(old(Sets()), old(True()) + Negations(clause)))
      ensures old(Tidy()) && NoDup(clause) ==> Tidy()
      ensures old(Propagated()) ==> (res <==> Rup(old(Sets()), Negations(clause)))
      ensures old(Propagated()) && NoDup(clause) ==> Propagated()
    {
      hide OccsOk, ValsOk, NoDup, LitSet, SetsOf, Clash, FalseIn, AllOk, Derivation, Falsified, Rup, Negations;
      ghost var start, sets := trail, Sets();
      StructNonzero();
      if Tidy() && empty == [] {
        TidyClean();
      }
      res := CheckRedundant(clause);
      StructNonzero();
      ghost var middle, implied := trail, empty == [];
      var id := AddClause(clause);
      StructNonzero();
      if res {
        forall a | old(Sound(orig)) && ModelsAll(a, orig)
          ensures ModelsSets(a, Sets()) && AllTrue(a, True()) && empty == []
        {
          GrowthSound(a, sets, start, middle);
          RupImplies(a, sets, LitSet(middle), clause);
          GrowthSound(a, Sets(), middle, trail);
        }
      }
    }

    lemma StructNonzero()
      requires Struct()
      ensures 0 !in True() && forall c :: c in Sets() ==> 0 !in Sets()[c]
    {
    }
  }

  // ----- sequences of calls -----

  datatype Call = Original(clause: Lits) | Redundant(clause: Lits)

  /** The clauses of a sequence of calls, numbered in order. */
  function Given(calls: seq<Call>): Clauses {
    map k: nat | k < |calls| :: LitSet(calls[k].clause)
  }

  lemma GivenMore(calls: seq<Call>, k: nat)
    requires k < |calls|
    ensures Given(calls[..k + 1]) == Given(calls[..k])[k := LitSet(calls[k].clause)]
  {
  }

  lemma GivenNone(calls: seq<Call>)
    requires calls == []
    ensures Given(calls) == map[]
  {
  }

  /** A client that adds clauses and checks lemmas from the start: every answer is that of
      naive unit propagation on the clauses given so far, whatever was answered before. */
  method Replay(calls: seq<Call>) returns (answers: seq<bool>)
    requires forall k :: 0 <= k < |calls| ==> 0 !in calls[k].clause && NoDup(calls[k].clause)
    ensures |answers| == |calls|
    ensures forall k :: 0 <= k < |calls| && calls[k].Redundant? ==>
              (answers[k] <==> Rup(Given(calls[..k]), Negations(calls[k].clause)))
  {
    hide *;
    var checker := new Checker();
    answers := [];
    GivenNone(calls[..0]);
    for i := 0 to |calls|
      invariant fresh(checker) && checker.Propagated() && checker.ids == i && checker.Sets() == Given(calls[..i])
      invariant |answers| == i
      invariant forall k :: 0 <= k < i && calls[k].Redundant? ==>
                  (answers[k] <==> Rup(Given(calls[..k]), Negations(calls[k].clause)))
    {
      checker.PropagatedStruct();
      GivenMore(calls, i);
      var clause := calls[i].clause;
      var res := true;
      if calls[i].Redundant? {
        res := checker.CheckAndAddRedundant(clause, {});
      } else {
        checker.AddOriginal(clause, {});
      }
      answers := answers + [res];
    }
  }

  /** Once unit propagation refutes the given clauses, every later lemma is accepted. */
  lemma RefutedForGood(calls: seq<Call>, j: nat, k: nat)
    requires j <= k < |calls| && Rup(Given(calls[..j]), {})
    ensures Rup(Given(calls[..k]), Negations(calls[k].clause))
  {
    RupMonotone(Given(calls[..j]), Given(calls[..k]), {}, Negations(calls[k].clause));
  }
}
