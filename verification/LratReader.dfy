/** Runs of lrat-check.c from the state its own formula reader builds: parseLine
    records each new literal with the line number plus one before addClause sees it. */
module LratReader {
  import opened Cnf
  import opened LratSpec

  /** One line of the formula: parseLine in CNF mode, then addClause. */
  function Read(s: State, c: Clause): State {
    var n := s.last + 1;
    Added(s.(intro := FirstSeen(s.intro, c + [0], n + 1)), n, c + [0], c)
  }

  /** The state after the formula is read. */
  function Prefilled(formula: seq<Clause>): State {
    if formula == [] then State(map[], 0, map[])
    else Read(Prefilled(formula[..|formula| - 1]), formula[|formula| - 1])
  }

  /** The first clause of the formula with a literal, counted from 1; 0 if there is none. */
  function First(formula: seq<Clause>, lit: int): nat {
    if formula == [] then 0
    else
      var n := |formula|;
      var k := First(formula[..n - 1], lit);
      if k != 0 then k else if lit in formula[n - 1] then n else 0
  }

  lemma {:induction false} FirstMeaning(formula: seq<Clause>, lit: int)
    ensures First(formula, lit) <= |formula|
    ensures First(formula, lit) > 0 ==> lit in formula[First(formula, lit) - 1]
    ensures forall i :: 0 <= i < |formula| && lit in formula[i] ==> 0 < First(formula, lit) <= i + 1
  {
    if formula != [] {
      var n := |formula|;
      FirstMeaning(formula[..n - 1], lit);
      forall i | 0 <= i < n && lit in formula[i] ensures 0 < First(formula, lit) <= i + 1 {
        assert i < n - 1 ==> formula[..n - 1][i] == formula[i];
      }
    }
  }

  /** Entries of other literals stay. */
  lemma {:induction false} FirstSeenElse(intro: map<nat, int>, lits: seq<int>, index: int, lit: int)
    requires lit !in lits
    ensures At(FirstSeen(intro, lits, index), Code(lit)) == At(intro, Code(lit))
    decreases |lits|
  {
    if lits != [] {
      assert lits[0] in lits && Code(lits[0]) != Code(lit);
      FirstSeenElse(if At(intro, Code(lits[0])) == 0 then intro[Code(lits[0]) := index]
        else intro, lits[1..], index, lit);
    }
  }

  /** The reader leaves the clauses under their line numbers, and every literal one
      past the line where it first occurs. */
  lemma {:induction false} PrefilledMeaning(formula: seq<Clause>)
    ensures var s := Prefilled(formula);
            s.last == |formula| &&
            (forall i :: i in s.cls <==> 1 <= i <= |formula|) &&
            (forall i :: 1 <= i <= |formula| ==> s.cls[i] == formula[i - 1])
    ensures forall lit :: lit != 0 ==>
              At(Prefilled(formula).intro, Code(lit)) ==
              if First(formula, lit) == 0 then 0 else First(formula, lit) + 1
  {
    if formula != [] {
      var n := |formula|;
      var init, c := formula[..n - 1], formula[n - 1];
      PrefilledMeaning(init);
      forall lit | lit != 0
        ensures At(Prefilled(formula).intro, Code(lit)) ==
                if First(formula, lit) == 0 then 0 else First(formula, lit) + 1
      {
        ReadEntry(Prefilled(init), c, lit);
      }
    }
  }

  lemma ReadEntry(s: State, c: Clause, lit: int)
    requires lit != 0 && s.last >= 0
    ensures At(Read(s, c).intro, Code(lit)) ==
            if At(s.intro, Code(lit)) == 0 && lit in c then s.last + 2 else At(s.intro, Code(lit))
  {
    var n, lits := s.last + 1, c + [0];
    var read := FirstSeen(s.intro, lits, n + 1);
    FirstSeenMeaning(s.intro, lits, n + 1);
    FirstSeenMeaning(read, lits, n);
    if lit in c {
      assert lit in lits;
    } else {
      FirstSeenElse(s.intro, lits, n + 1, lit);
      FirstSeenElse(read, lits, n, lit);
    }
  }

  // ----- which runs are sound -----

  /** Every resolution step is on a pivot whose negation an earlier step has resolved
      on, occurs nowhere in the formula, or had its first formula clause deleted. */
  predicate Covered(formula: seq<Clause>, deleted: set<int>, done: set<int>, proof: seq<Line>)
    decreases |proof|
  {
    proof == [] || match proof[0]
      case Deletion(ids) => Covered(formula, deleted + LitSet(ids), done, proof[1..])
      case Other => true
      case Addition(index, lits, hints) =>
        if SkipPositive(hints) == [] then Covered(formula, deleted, done, proof[1..])
        else
          Clears(formula, deleted, done, NegatedPivot(lits)) &&
          Covered(formula, deleted, done + {NegatedPivot(lits)}, proof[1..])
  }

  predicate Clears(formula: seq<Clause>, deleted: set<int>, done: set<int>, lit: int) {
    lit in done || First(formula, lit) == 0 || First(formula, lit) in deleted
  }

  /** No entry of lit is one too late: there is none in the formula or it was overwritten. */
  predicate Exact(formula: seq<Clause>, done: set<int>, lit: int) {
    lit in done || First(formula, lit) == 0
  }

  /** Entries between the lines of a covered run. */
  ghost predicate Entries(formula: seq<Clause>, s: State, done: set<int>) {
    forall lit :: lit != 0 ==>
      if Exact(formula, done, lit) then 0 <= At(s.intro, Code(lit)) <= s.last
      else At(s.intro, Code(lit)) == First(formula, lit) + 1
  }

  ghost predicate Occurrences(formula: seq<Clause>, s: State, done: set<int>) {
    forall i, lit :: i in s.cls && lit in s.cls[i] ==>
      if Exact(formula, done, lit) then 0 < At(s.intro, Code(lit)) <= i else First(formula, lit) <= i
  }

  /** The clauses of the formula that no line has deleted are live. */
  ghost predicate Undeleted(formula: seq<Clause>, s: State, deleted: set<int>) {
    forall i :: 1 <= i <= |formula| ==> (i in s.cls <==> i !in deleted) && (i in s.cls ==> s.cls[i] == formula[i - 1])
  }

  ghost predicate Tracks(formula: seq<Clause>, s: State, deleted: set<int>, done: set<int>) {
    Proper(s.cls) && |formula| <= s.last && (forall i :: i in s.cls ==> 0 < i <= s.last) &&
    Undeleted(formula, s, deleted) && Entries(formula, s, done) && Occurrences(formula, s, done)
  }

  lemma PrefilledTracks(formula: seq<Clause>)
    requires forall c :: c in formula ==> NonZero(c)
    ensures Tracks(formula, Prefilled(formula), {}, {})
    ensures Live(Prefilled(formula).cls) == set c | c in formula
  {
    PrefilledMeaning(formula);
    var s := Prefilled(formula);
    forall i, lit | i in s.cls && lit in s.cls[i] ensures 0 < First(formula, lit) <= i {
      FirstMeaning(formula, lit);
      assert lit in formula[i - 1];
    }
    forall c | c in formula ensures c in Live(s.cls) {
      var i :| 0 <= i < |formula| && formula[i] == c;
      assert s.cls[i + 1] == c;
    }
  }

  /** In such a state the scan for the negated pivot misses no live clause exactly if
      the literal is cleared. */
  lemma CoveredExact(formula: seq<Clause>, s: State, deleted: set<int>, done: set<int>, lits: Clause)
    requires Tracks(formula, s, deleted, done) && NonZero(lits) && lits != []
    ensures NoneBelow(s.cls, NegatedPivot(lits), At(s.intro, Flipped(Pivot(lits)))) <==>
            Clears(formula, deleted, done, NegatedPivot(lits))
  {
    var np := NegatedPivot(lits);
    assert lits[0] in lits;
    assert Flipped(Pivot(lits)) == Code(np) && np != 0;
    var k := First(formula, np);
    FirstMeaning(formula, np);
    if !Exact(formula, done, np) {
      assert At(s.intro, Code(np)) == k + 1 && (k in s.cls <==> k !in deleted);
      assert k in s.cls ==> np in s.cls[k];
      forall i | i in s.cls && i < k + 1 && np in s.cls[i] ensures i == k {
      }
    }
  }

  lemma DeletionTracks(formula: seq<Clause>, s: State, deleted: set<int>, done: set<int>, ids: set<int>)
    requires Tracks(formula, s, deleted, done)
    ensures Tracks(formula, s.(cls := s.cls - ids), deleted + ids, done)
  {
    var s' := s.(cls := s.cls - ids);
    forall i | i in s'.cls ensures i in s.cls && s'.cls[i] == s.cls[i] {
    }
    hide Exact;
  }

  lemma AddedTracks(formula: seq<Clause>, s: State, deleted: set<int>, done: set<int>, index: int, c: Clause)
    requires Tracks(formula, s, deleted, done) && s.last < index && NonZero(c)
    ensures Tracks(formula, Added(s, index, c, c), deleted, done)
  {
    FirstSeenMeaning(s.intro, c, index);
    var s' := Added(s, index, c, c);
    forall i, lit | i in s'.cls && lit in s'.cls[i]
      ensures if Exact(formula, done, lit) then 0 < At(s'.intro, Code(lit)) <= i else First(formula, lit) <= i
    {
      if i != index {
        assert i in s.cls && lit in s.cls[i];
      } else {
        FirstMeaning(formula, lit);
      }
    }
  }

  /** Overwriting the entry of the negated pivot makes it exact. */
  lemma CheckedTracks(formula: seq<Clause>, s: State, deleted: set<int>, done: set<int>, lits: Clause, hints: seq<int>)
    requires Tracks(formula, s, deleted, done) && NonZero(lits) && lits != [] && SkipPositive(hints) != []
    requires Verdict(s, lits, hints).Accepted() && Clears(formula, deleted, done, NegatedPivot(lits))
    ensures Tracks(formula, Checked(s, lits, hints), deleted, done + {NegatedPivot(lits)})
  {
    var np, h := NegatedPivot(lits), SkipPositive(hints);
    assert lits[0] in lits;
    assert Flipped(Pivot(lits)) == Code(np) && np != 0;
    CoveredExact(formula, s, deleted, done, lits);
    ResolvedFirst(s.cls, s.last, At(s.intro, Code(np)), lits, hints);
    assert 0 < -h[0] <= s.last;
    hide Verdict, Code, First, Clears, SkipPositive, Proper;
    assert Checked(s, lits, hints) == s.(intro := s.intro[Code(np) := -h[0]]);
    OverwrittenTracks(formula, s, deleted, done, np, -h[0]);
  }

  /** A candidate before which no live clause has the literal is as good as its first
      occurrence. */
  lemma OverwrittenTracks(formula: seq<Clause>, s: State, deleted: set<int>, done: set<int>, np: int, res: int)
    requires Tracks(formula, s, deleted, done) && np != 0 && 0 < res <= s.last
    requires NoneBelow(s.cls, np, At(s.intro, Code(np))) && !Occurs(s.cls, np, At(s.intro, Code(np)), res)
    ensures Tracks(formula, s.(intro := s.intro[Code(np) := res]), deleted, done + {np})
  {
    var s' := s.(intro := s.intro[Code(np) := res]);
    forall lit | lit != 0 ensures At(s'.intro, Code(lit)) == if lit == np then res else At(s.intro, Code(lit)) {
    }
    hide Code, First;
    assert Entries(formula, s', done + {np});
    forall i, lit | i in s'.cls && lit in s'.cls[i]
      ensures if Exact(formula, done + {np}, lit) then 0 < At(s'.intro, Code(lit)) <= i else First(formula, lit) <= i
    {
      assert lit != 0;
    }
  }

  /** A careful accepted run all of whose resolution steps are covered keeps
      satisfiability, so an accepted empty lemma refutes the formula. */
  lemma {:induction false} CoveredSound(formula: seq<Clause>, s: State, deleted: set<int>, done: set<int>,
                                        proof: seq<Line>, verified: bool)
    requires Tracks(formula, s, deleted, done) && Covered(formula, deleted, done, proof)
    requires Careful(s, proof) && Run(s, proof, verified).Finished?
    requires forall line :: line in proof ==> line.WellFormed()
    ensures Satisfiable(Live(s.cls)) ==> Satisfiable(Live(Run(s, proof, verified).state.cls))
    ensures Run(s, proof, verified).verified && !verified ==> !Satisfiable(Live(s.cls))
    decreases |proof|
  {
    if proof != [] {
      assert proof[0] in proof && proof[0].WellFormed();
      assert forall line :: line in proof[1..] ==> line in proof;
      match proof[0] {
        case Deletion(ids) =>
          DeletionTracks(formula, s, deleted, done, LitSet(ids));
          DeletionSound(s.cls, LitSet(ids));
          CoveredSound(formula, s.(cls := s.cls - LitSet(ids)), deleted + LitSet(ids), done, proof[1..], verified);
        case Other =>
        case Addition(index, lits, hints) =>
          CoveredStep(formula, s, deleted, done, index, lits, hints);
          if lits != [] {
            var done' := if SkipPositive(hints) == [] then done else done + {NegatedPivot(lits)};
            CoveredSound(formula, Added(Checked(s, lits, hints), index, lits, lits), deleted, done', proof[1..],
                         verified);
          }
      }
    }
  }

  lemma CoveredStep(formula: seq<Clause>, s: State, deleted: set<int>, done: set<int>, index: int, lits: Clause,
                    hints: seq<int>)
    requires Tracks(formula, s, deleted, done) && NonZero(lits) && s.last < index
    requires Verdict(s, lits, hints).Accepted() && Grounded(s.cls, lits, hints)
    requires SkipPositive(hints) != [] ==> Clears(formula, deleted, done, NegatedPivot(lits))
    ensures var s' := Added(Checked(s, lits, hints), index, lits, lits);
            (Satisfiable(Live(s.cls)) ==> Satisfiable(Live(s'.cls))) && (lits == [] ==> !Satisfiable(Live(s.cls))) &&
            (lits != [] ==>
               Tracks(formula, s', deleted, if SkipPositive(hints) == [] then done else done + {NegatedPivot(lits)}))
  {
    if lits != [] {
      CoveredExact(formula, s, deleted, done, lits);
    }
    StepSound(s, index, lits, hints);
    if SkipPositive(hints) == [] {
      AddedTracks(formula, s, deleted, done, index, lits);
    } else if lits != [] {
      CheckedTracks(formula, s, deleted, done, lits, hints);
      AddedTracks(formula, Checked(s, lits, hints), deleted, done + {NegatedPivot(lits)}, index, lits);
    }
  }

  /** The certificate: what the checker's successful exit says about the formula it read. */
  lemma PrefilledSound(formula: seq<Clause>, proof: seq<Line>)
    requires forall c :: c in formula ==> NonZero(c)
    requires forall line :: line in proof ==> line.WellFormed()
    requires Careful(Prefilled(formula), proof) && Covered(formula, {}, {}, proof)
    requires Run(Prefilled(formula), proof, false).Finished?
    ensures var r := Run(Prefilled(formula), proof, false);
            (Satisfiable(set c | c in formula) ==> Satisfiable(Live(r.state.cls))) &&
            (r.verified ==> !Satisfiable(set c | c in formula))
  {
    PrefilledTracks(formula);
    CoveredSound(formula, Prefilled(formula), {}, {}, proof, false);
  }

  // ----- what the late entries cost -----

  /** Against the index where the literal first occurs, the entry one later changes
      the verdict on some hints exactly while that first clause is live. */
  lemma LateVerdict(cls: Database, last: int, first: int, lits: Clause)
    requires Proper(cls) && NonZero(lits) && 0 < first
    requires first in cls ==> NegatedPivot(lits) in cls[first]
    ensures (forall hints: seq<int> {:trigger Check(cls, last, first, lits, hints)} :: NonZero(hints) ==>
               Check(cls, last, first + 1, lits, hints) == Check(cls, last, first, lits, hints)) <==> first !in cls
  {
    if first in cls {
      ListedFirst(cls, last, first, lits);
      assert NonZero([-first]);
    } else {
      forall hints: seq<int> {:trigger Check(cls, last, first, lits, hints)} | NonZero(hints)
        ensures Check(cls, last, first + 1, lits, hints) == Check(cls, last, first, lits, hints)
      {
        LateSame(cls, last, first, lits, hints);
      }
    }
  }

  /** Listing the first clause as a candidate fails the checker's own assertion. */
  lemma ListedFirst(cls: Database, last: int, first: int, lits: Clause)
    requires 0 < first && first in cls
    ensures Check(cls, last, first + 1, lits, [-first]) == Abort && Check(cls, last, first, lits, [-first]) != Abort
  {
    var np, seen, h := NegatedPivot(lits), LitSet(lits), [-first];
    assert SkipPositive(h) == h && h[1..] == [] && SkipPositive([]) == [];
    assert !Occurs(cls, np, first, first) && !Occurs(cls, np, first + 1, first);
    assert Group(cls, np, first + 1, h, Marks(seen, seen)).0 == Abort;
    var (e, m) := Group(cls, np, first, h, Marks(seen, seen));
    assert e in {Resolved, Rejected};
    assert Chain(cls, Marks(seen, seen), h) == (Exhausted, Marks(seen, seen));
    assert Groups(cls, np, first + 1, last, h, seen) == Abort;
    assert Groups(cls, np, first + 1, last, [], m.keep) != Abort;
    assert Groups(cls, np, first, last, h, seen) != Abort;
  }

  lemma LateSame(cls: Database, last: int, first: int, lits: Clause, hints: seq<int>)
    requires 0 < first && first !in cls
    ensures Check(cls, last, first + 1, lits, hints) == Check(cls, last, first, lits, hints)
  {
    var np, h := NegatedPivot(lits), SkipPositive(hints);
    if h != [] {
      assert Occurs(cls, np, first, -h[0]) == Occurs(cls, np, first + 1, -h[0]);
      if -h[0] <= first {
        var seen := Chain(cls, Marks(LitSet(lits), LitSet(lits)), hints).1.seen;
        assert Group(cls, np, first, h, Marks(seen, seen)).0 == Abort;
      }
    }
  }

  /** A satisfiable formula the checker calls refuted: the entry of -1 is 2, so the
      resolution step on 1 overlooks the first clause. */
  lemma LateEntryRefutesSatisfiable()
    ensures var formula: seq<Clause> := [[-1], [-1, -2], [1, -2]];
            var proof := [Addition(4, [1], [-2, 3]), Addition(5, [], [1, 4])];
            Careful(Prefilled(formula), proof) && Run(Prefilled(formula), proof, false).Finished? &&
            Run(Prefilled(formula), proof, false).verified && Satisfiable(set c | c in formula) &&
            !Covered(formula, {}, {}, proof)
  {
    var formula: seq<Clause> := [[-1], [-1, -2], [1, -2]];
    var first, second := Addition(4, [1], [-2, 3]), Addition(5, [], [1, 4]);
    var s := Prefilled(formula);
    ThreeClauses(formula);
    assert [first, second][1..] == [second] && [second][1..] == [];
    FirstStep(s);
    var s' := Added(Checked(s, [1], [-2, 3]), 4, [1], [1]);
    SecondStep(s');
    ConflictCloses(s'.cls, s'.last, At(s'.intro, Flipped(Pivot([]))), [], [1, 4]);
    assert SkipPositive([1, 4]) == [];
    var s2 := Added(Checked(s', [], [1, 4]), 5, [], []);
    assert Run(s2, [], true) == Finished(s2, true);
    assert Run(s', [second], false) == Run(s2, [], true);
    assert Careful(s', [second]);
    assert SkipPositive([-2, 3]) == [-2, 3];
  }

  lemma ThreeClauses(formula: seq<Clause>)
    requires formula == [[-1], [-1, -2], [1, -2]]
    ensures First(formula, -1) == 1 && Satisfiable(set c | c in formula)
    ensures var s := Prefilled(formula);
            s.last == 3 && Three(s.cls) && At(s.intro, Code(-1)) == 2
  {
    hide Prefilled;
    PrefilledMeaning(formula);
    FirstMeaning(formula, -1);
    assert -1 in formula[0];
    assert Models(iset{}, set c | c in formula) by {
      assert -1 in [-1] && -1 in [-1, -2] && -2 in [1, -2];
      assert True(iset{}, -1) && True(iset{}, -2);
    }
  }

  /** The clauses of the example under their line numbers. */
  predicate Three(cls: Database) {
    1 in cls && 2 in cls && 3 in cls && cls[1] == [-1] && cls[2] == [-1, -2] && cls[3] == [1, -2]
  }

  lemma FirstStep(s: State)
    requires s.last == 3 && Three(s.cls) && At(s.intro, Code(-1)) == 2
    ensures Verdict(s, [1], [-2, 3]) == Resolved
  {
    var hints := [-2, 3];
    assert LitSet([1]) == {1} && SkipPositive(hints) == hints && hints[1..] == [3] && SkipPositive([3]) == [];
    var m := Marks({1}, {1});
    assert Chain(s.cls, m, hints) == (Exhausted, m);
    assert Candidate([-1, -2], -1, false, m) == Marked(true, m.Add(-2));
    assert m.Add(-2).seen == {1, -2} && Unmarked([1, -2], {1, -2}) == [];
    assert Chain(s.cls, m.Add(-2), [3]).0 == Conflict;
    assert !Occurs(s.cls, -1, 2, 2) && !Occurs(s.cls, -1, 3, 4);
    assert Group(s.cls, -1, 2, hints, m).0 == Resolved;
    assert Groups(s.cls, -1, 3, 3, [3], {1}) == Resolved;
  }

  lemma SecondStep(s: State)
    requires 1 in s.cls && 4 in s.cls && s.cls[1] == [-1] && s.cls[4] == [1]
    ensures Verdict(s, [], [1, 4]) == Conflict
  {
    var m := Marks({}, {});
    assert LitSet([]) == {} && SkipPositive([1, 4]) == [] && [1, 4][1..] == [4];
    assert Unmarked([-1], {}) == [-1];
    assert Unmarked([1], m.Force(1).seen) == [];
    assert Chain(s.cls, m.Force(1), [4]).0 == Conflict;
  }
}
