/** Conflict analysis of drat-trim as a walk down the trail of falsified
    literals, and why its record read backwards is an LRAT hint chain. */
module DratHints {
  import opened Cnf
  import opened LratSpec

  /** The clause that forced the literal on a trail position, 0 for an assumption. */
  type Reasons = seq<nat>

  function Others(c: Clause): set<int> {
    LitSet(if c == [] then [] else c[1..])
  }

  /** Clause ids recorded from trail position n downwards, when the literals in
      marked are the ones that matter (drat-trim.c:156-162). */
  function Walk(cls: Database, trail: seq<int>, why: Reasons, n: nat, marked: set<int>): seq<int>
    requires n <= |trail| == |why|
  {
    if n == 0 then []
    else if trail[n - 1] in marked && why[n - 1] != 0 && why[n - 1] in cls then
      [why[n - 1]] + Walk(cls, trail, why, n - 1, marked + Others(cls[why[n - 1]]))
    else Walk(cls, trail, why, n - 1, marked)
  }

  function Reverse(s: seq<int>): seq<int> {
    if s == [] then [] else Reverse(s[1..]) + [s[0]]
  }

  /** Every literal on the trail is an assumption, or the first literal of its
      reason negated with the other literals of the reason further down. */
  ghost predicate Justified(cls: Database, trail: seq<int>, why: Reasons, assumed: set<int>) {
    |trail| == |why| &&
    forall k {:trigger why[k]} :: 0 <= k < |trail| ==>
      if why[k] == 0 then trail[k] in assumed
      else why[k] in cls && cls[why[k]] != [] && cls[why[k]][0] == -trail[k] &&
           Others(cls[why[k]]) <= LitSet(trail[..k])
  }

  lemma {:induction false} ChainJoin(cls: Database, m: Marks, first: seq<int>, second: seq<int>)
    requires forall h :: h in first ==> h > 0
    requires Chain(cls, m, first).0 == Exhausted
    ensures Chain(cls, m, first + second) == Chain(cls, Chain(cls, m, first).1, second)
    decreases |first|
  {
    if first == [] {
      assert first + second == second;
    } else {
      assert first[0] in first && forall h :: h in first[1..] ==> h in first;
      assert (first + second)[1..] == first[1..] + second;
      var open := Unmarked(cls[first[0]], m.seen);
      ChainJoin(cls, m.Force(-open[0]), first[1..], second);
    }
  }

  lemma {:induction false} OnlyOpen(c: Clause, seen: set<int>)
    requires c != [] && c[0] !in seen && Others(c) <= seen
    ensures Unmarked(c, seen) == [c[0]]
  {
    NoneOpen(c[1..], seen);
  }

  lemma {:induction false} NoneOpen(c: Clause, seen: set<int>)
    requires LitSet(c) <= seen
    ensures Unmarked(c, seen) == []
  {
    if c != [] {
      assert c[0] in LitSet(c) && LitSet(c[1..]) <= LitSet(c);
      NoneOpen(c[1..], seen);
    }
  }

  lemma {:induction false} WalkPositive(cls: Database, trail: seq<int>, why: Reasons, n: nat, marked: set<int>)
    requires n <= |trail| == |why|
    ensures forall h :: h in Walk(cls, trail, why, n, marked) ==> h > 0
    ensures forall h :: h in Reverse(Walk(cls, trail, why, n, marked)) ==> h > 0
  {
    if n > 0 {
      WalkPositive(cls, trail, why, n - 1, marked);
      if why[n - 1] in cls {
        WalkPositive(cls, trail, why, n - 1, marked + Others(cls[why[n - 1]]));
      }
    }
  }

  /** One more reason at the end of a chain forces its trail literal false. */
  lemma ChainForce(cls: Database, m: Marks, h: int, y: int, trail: set<int>)
    requires h > 0 && h in cls && cls[h] != [] && cls[h][0] == -y && Others(cls[h]) <= m.seen
    requires m.seen <= trail && y in trail && Consistent(trail)
    ensures Chain(cls, m, [h]) == (Exhausted, m.Force(y))
  {
    OnlyOpen(cls[h], m.seen);
    assert Chain(cls, m.Force(y), []) == (Exhausted, m.Force(y));
  }

  /** Read backwards from below, the recorded reasons falsify every marked trail literal. */
  lemma {:induction false} WalkChain(cls: Database, trail: seq<int>, why: Reasons, assumed: set<int>, lits: set<int>,
                                     n: nat, marked: set<int>)
    requires Justified(cls, trail, why, assumed) && n <= |trail|
    requires assumed <= lits <= LitSet(trail) && Consistent(LitSet(trail))
    ensures var (e, m) := Chain(cls, Marks(lits, lits), Reverse(Walk(cls, trail, why, n, marked)));
            e == Exhausted && marked * LitSet(trail[..n]) <= m.seen && lits <= m.seen <= LitSet(trail)
  {
    if n > 0 {
      hide Chain, Others, Consistent;
      var y, r := trail[n - 1], why[n - 1];
      assert trail[..n] == trail[..n - 1] + [y] && y in LitSet(trail);
      if y in marked && r != 0 {
        var below := marked + Others(cls[r]);
        var rest := Walk(cls, trail, why, n - 1, below);
        WalkChain(cls, trail, why, assumed, lits, n - 1, below);
        WalkPositive(cls, trail, why, n - 1, below);
        var m := Chain(cls, Marks(lits, lits), Reverse(rest)).1;
        ChainJoin(cls, Marks(lits, lits), Reverse(rest), [r]);
        ChainForce(cls, m, r, y, LitSet(trail));
      } else {
        WalkChain(cls, trail, why, assumed, lits, n - 1, marked);
      }
    }
  }

  /** The recorded clauses in printing order: reasons first, the conflict last. */
  function Hints(cls: Database, trail: seq<int>, why: Reasons, conflict: nat): seq<int>
    requires |trail| == |why| && conflict in cls
  {
    Reverse([conflict as int] + Walk(cls, trail, why, |trail|, LitSet(cls[conflict])))
  }

  /** The hints written for a lemma accepted by unit propagation make the LRAT
      check of that lemma end in its conflict exit. */
  lemma HintsAccepted(cls: Database, trail: seq<int>, why: Reasons, assumed: set<int>, lits: Clause, conflict: nat,
                      last: int, intro: int)
    requires Justified(cls, trail, why, assumed)
    requires assumed <= LitSet(lits) <= LitSet(trail) && Consistent(LitSet(trail))
    requires conflict > 0 && conflict in cls && LitSet(cls[conflict]) <= LitSet(trail)
    ensures Check(cls, last, intro, lits, Hints(cls, trail, why, conflict)) == Conflict
  {
    var marked := LitSet(cls[conflict]);
    var rest := Walk(cls, trail, why, |trail|, marked);
    var start := Marks(LitSet(lits), LitSet(lits));
    assert trail[..|trail|] == trail;
    WalkChain(cls, trail, why, assumed, LitSet(lits), |trail|, marked);
    WalkPositive(cls, trail, why, |trail|, marked);
    var m := Chain(cls, start, Reverse(rest)).1;
    NoneOpen(cls[conflict], m.seen);
    assert Hints(cls, trail, why, conflict) == Reverse(rest) + [conflict as int];
    ChainJoin(cls, start, Reverse(rest), [conflict]);
    assert Chain(cls, m, [conflict]).0 == Conflict;
    SkipShortens(Hints(cls, trail, why, conflict));
  }

  // ----- literal order does not matter -----

  lemma {:induction false} UnmarkedCount(c: Clause, seen: set<int>, lit: int)
    ensures multiset(Unmarked(c, seen))[lit] == if lit in seen then 0 else multiset(c)[lit]
  {
    if c != [] {
      assert c == [c[0]] + c[1..];
      UnmarkedCount(c[1..], seen, lit);
    }
  }

  /** A chain gives the same exit on clauses whose literals are permuted, as
      watching and printing permute them. */
  lemma {:induction false} ChainPermuted(cls: Database, other: Database, m: Marks, hints: seq<int>)
    requires cls.Keys == other.Keys && forall i :: i in cls ==> multiset(cls[i]) == multiset(other[i])
    ensures Chain(cls, m, hints) == Chain(other, m, hints)
    decreases |hints|
  {
    if hints != [] && hints[0] > 0 && hints[0] in cls {
      var a, b := Unmarked(cls[hints[0]], m.seen), Unmarked(other[hints[0]], m.seen);
      forall lit ensures multiset(a)[lit] == multiset(b)[lit] {
        UnmarkedCount(cls[hints[0]], m.seen, lit);
        UnmarkedCount(other[hints[0]], m.seen, lit);
      }
      assert multiset(a) == multiset(b);
      assert |a| == |multiset(a)| && |b| == |multiset(b)|;
      if |a| == 1 {
        assert a == [a[0]] && b == [b[0]] && a[0] in multiset(b);
        ChainPermuted(cls, other, m.Force(-a[0]), hints[1..]);
      }
    }
  }
}
