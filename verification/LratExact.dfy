/** When lrat-check.c accepts a lemma, said without following its loops: which hint clauses
    have to be unit, which clauses have to be listed, and what has to close each of them. */
module LratExact {
  import opened Cnf
  import opened LratSpec

  // ----- one chain of hints -----

  /** All literals of c but one occurrence are in t. */
  predicate OneOpen(c: Clause, t: set<int>) {
    exists i :: 0 <= i < |c| && c[i] !in t && forall j :: 0 <= j < |c| && j != i ==> c[j] in t
  }

  lemma {:induction false} UnmarkedNone(c: Clause, t: set<int>)
    ensures Unmarked(c, t) == [] <==> LitSet(c) <= t
  {
    if c != [] {
      UnmarkedNone(c[1..], t);
      assert LitSet(c) == {c[0]} + LitSet(c[1..]);
    }
  }

  lemma {:induction false} UnmarkedOne(c: Clause, t: set<int>)
    ensures |Unmarked(c, t)| == 1 <==> OneOpen(c, t)
  {
    if c == [] {
    } else if c[0] in t {
      UnmarkedOne(c[1..], t);
      if OneOpen(c[1..], t) {
        var i :| 0 <= i < |c[1..]| && c[1..][i] !in t && forall j :: 0 <= j < |c[1..]| && j != i ==> c[1..][j] in t;
        assert c[i + 1] !in t;
        assert forall j :: 0 <= j < |c| && j != i + 1 ==> j == 0 || c[1..][j - 1] == c[j];
      }
      if OneOpen(c, t) {
        var i :| 0 <= i < |c| && c[i] !in t && forall j :: 0 <= j < |c| && j != i ==> c[j] in t;
        assert c[1..][i - 1] !in t;
      }
    } else {
      UnmarkedNone(c[1..], t);
      if LitSet(c[1..]) <= t {
        assert forall j :: 0 <= j < |c| && j != 0 ==> c[j] == c[1..][j - 1] && c[j] in LitSet(c[1..]);
        assert OneOpen(c, t);
      }
      if OneOpen(c, t) {
        var i :| 0 <= i < |c| && c[i] !in t && forall j :: 0 <= j < |c| && j != i ==> c[j] in t;
        forall x | x in LitSet(c[1..]) ensures x in t {
          var j :| 0 <= j < |c[1..]| && c[1..][j] == x;
          assert c[j + 1] == x;
        }
      }
    }
  }

  /** Hint k names a clause that is unit after the first k. */
  predicate Forces(cls: Database, base: set<int>, hints: seq<int>, k: nat) {
    k < |hints| && hints[k] > 0 && hints[k] in cls && OneOpen(cls[hints[k]], Falsified(cls, base, hints, k))
  }

  /** Hint k names a clause that is falsified after the first k. */
  predicate ClosesAt(cls: Database, base: set<int>, hints: seq<int>, k: nat) {
    k < |hints| && hints[k] > 0 && hints[k] in cls && LitSet(cls[hints[k]]) <= Falsified(cls, base, hints, k)
  }

  /** The number of hints that are unit one after the other, k of them known to be. */
  function Used(cls: Database, base: set<int>, hints: seq<int>, k: nat): (u: nat)
    requires k <= |hints|
    ensures k <= u <= |hints| && !Forces(cls, base, hints, u)
    ensures forall j :: k <= j < u ==> Forces(cls, base, hints, j)
    decreases |hints| - k
  {
    if Forces(cls, base, hints, k) then Used(cls, base, hints, k + 1) else k
  }

  /** Own hints end at the next candidate. */
  predicate Ends(hints: seq<int>, k: nat) {
    k >= |hints| || hints[k] <= 0
  }

  /** The literals falsified by the first k hints. */
  function Forced(cls: Database, base: set<int>, hints: seq<int>, k: nat): set<int>
    requires k <= |hints|
  {
    if k == 0 then {}
    else
      var before := Falsified(cls, base, hints, k - 1);
      Forced(cls, base, hints, k - 1) +
      if hints[k - 1] in cls then set lit | lit in cls[hints[k - 1]] && lit !in before :: -lit else {}
  }

  /** A chain from k on: its exit and the marks it leaves. */
  lemma {:induction false} ChainExact(cls: Database, base: set<int>, keep: set<int>, hints: seq<int>, k: nat, m: Marks)
    requires k <= |hints| && m.seen == Falsified(cls, base, hints, k) && m.keep == keep - Forced(cls, base, hints, k)
    ensures var u := Used(cls, base, hints, k); var (e, m') := Chain(cls, m, hints[k..]);
            m' == Marks(Falsified(cls, base, hints, u), keep - Forced(cls, base, hints, u)) &&
            (e == Conflict <==> ClosesAt(cls, base, hints, u)) && (e == Exhausted <==> Ends(hints, u))
    decreases |hints| - k
  {
    if k < |hints| && hints[k] > 0 && hints[k] in cls {
      var c := cls[hints[k]];
      var open := Unmarked(c, m.seen);
      assert hints[k..][0] == hints[k] && hints[k..][1..] == hints[k + 1..];
      UnmarkedNone(c, m.seen);
      UnmarkedOne(c, m.seen);
      if |open| == 1 {
        UnmarkedMeaning(c, m.seen);
        assert open[0] in open;
        var step := set lit | lit in c && lit !in m.seen :: -lit;
        assert step == {-open[0]};
        assert m.Force(-open[0]).seen == Falsified(cls, base, hints, k + 1);
        assert m.Force(-open[0]).keep == keep - Forced(cls, base, hints, k + 1);
        ChainExact(cls, base, keep, hints, k + 1, m.Force(-open[0]));
      }
    }
  }

  // ----- one resolution candidate -----

  /** Literal i of c is true under t and the literals of c before it, the negated pivot aside. */
  predicate BlocksAt(c: Clause, np: int, t: set<int>, i: nat) {
    i < |c| && c[i] != np && c[i] !in t + (LitSet(c[..i]) - {np}) && -c[i] in t + (LitSet(c[..i]) - {np})
  }

  predicate BlockedBy(c: Clause, np: int, t: set<int>) {
    exists i :: 0 <= i < |c| && BlocksAt(c, np, t, i)
  }

  /** The marks a candidate starts with, when the first i literals were looked at. */
  lemma {:induction false} CandidateExact(c: Clause, np: int, t: set<int>, keep: set<int>, i: nat)
    requires i <= |c| && forall j: nat :: j < i ==> !BlocksAt(c, np, t, j)
    ensures var r := Candidate(c[i..], np, np in c[..i], Marks(t + (LitSet(c[..i]) - {np}), keep));
            r.m.keep == keep && (r.Blocked? <==> BlockedBy(c, np, t)) &&
            (r.Marked? ==> r.found == (np in c) && r.m.seen == t + (LitSet(c) - {np}))
    decreases |c| - i
  {
    if i == |c| {
      assert c[..i] == c;
    } else {
      assert c[i..][0] == c[i] && c[i..][1..] == c[i + 1..] && c[..i + 1] == c[..i] + [c[i]];
      assert LitSet(c[..i + 1]) == LitSet(c[..i]) + {c[i]};
      if BlocksAt(c, np, t, i) {
        CandidateKeeps(c[i..], np, np in c[..i], Marks(t + (LitSet(c[..i]) - {np}), keep));
        assert -c[i] in t + (LitSet(c[..i]) - {np});
      } else {
        var before, after := t + (LitSet(c[..i]) - {np}), t + (LitSet(c[..i + 1]) - {np});
        assert after == if c[i] == np then before else before + {c[i]};
        assert c[i] in before ==> after == before;
        assert (np in c[..i + 1]) == (np in c[..i] || c[i] == np);
        assert forall j: nat :: j < i + 1 ==> !BlocksAt(c, np, t, j);
        assert c[i] == np || c[i] in before || -c[i] !in before;
        CandidateExact(c, np, t, keep, i + 1);
        assert Candidate(c[i..], np, np in c[..i], Marks(before, keep)) ==
               Candidate(c[i + 1..], np, np in c[..i + 1], Marks(after, keep));
      }
    }
  }

  /** The marks kept for the candidate at position p: those of the leading hints, without
      what the chains of earlier candidates forced. */
  function Kept(cls: Database, np: int, hints: seq<int>, seen: set<int>, p: nat): set<int>
    requires p <= |hints|
  {
    if p == 0 then seen
    else
      var kept, i := Kept(cls, np, hints, seen, p - 1), -hints[p - 1];
      if i <= 0 || i !in cls || BlockedBy(cls[i], np, kept) then kept
      else
        var base := kept + (LitSet(cls[i]) - {np});
        kept - Forced(cls, base, hints[p..], Used(cls, base, hints[p..], 0))
  }

  /** The candidate at position p is live, and blocked or closed by the hints after it. */
  predicate Settled(cls: Database, np: int, hints: seq<int>, seen: set<int>, p: nat)
    requires p < |hints|
  {
    -hints[p] in cls &&
    var c, kept := cls[-hints[p]], Kept(cls, np, hints, seen, p);
    BlockedBy(c, np, kept) ||
    (np in c &&
     var base := kept + (LitSet(c) - {np});
     ClosesAt(cls, base, hints[p + 1..], Used(cls, base, hints[p + 1..], 0)))
  }

  lemma GroupExact(cls: Database, np: int, start: int, hints: seq<int>, seen: set<int>, p: nat)
    requires p < |hints| && hints[p] < 0
    ensures var kept := Kept(cls, np, hints, seen, p);
            var (e, m) := Group(cls, np, start, hints[p..], Marks(kept, kept));
            (e == Resolved <==>
             start <= -hints[p] && !Occurs(cls, np, start, -hints[p]) && Settled(cls, np, hints, seen, p)) &&
            (e == Resolved ==> m.keep == Kept(cls, np, hints, seen, p + 1))
  {
    var kept, i := Kept(cls, np, hints, seen, p), -hints[p];
    assert hints[p..][0] == hints[p] && hints[p..][1..] == hints[p + 1..];
    if i in cls {
      var c := cls[i];
      assert c[..0] == [] && c[0..] == c && kept + (LitSet([]) - {np}) == kept;
      CandidateExact(c, np, kept, kept, 0);
      var base, own := kept + (LitSet(c) - {np}), hints[p + 1..];
      assert kept - Forced(cls, base, own, 0) == kept && own[0..] == own;
      ChainExact(cls, base, kept, own, 0, Marks(base, kept));
      ChainExit(cls, Marks(base, kept), own);
    }
  }

  // ----- all candidates -----

  /** The candidates listed from position p on start at lo and grow. */
  predicate Increasing(hints: seq<int>, p: nat, lo: int) {
    (forall q :: p <= q < |hints| && hints[q] < 0 ==> lo <= -hints[q]) &&
    forall q, q' :: p <= q < q' < |hints| && hints[q] < 0 && hints[q'] < 0 ==> -hints[q] < -hints[q']
  }

  /** Every live clause from lo on with literal np is listed from position p on. */
  predicate Lists(cls: Database, np: int, lo: int, hints: seq<int>, p: nat) {
    forall i :: i in cls && lo <= i && np in cls[i] ==> ListedFrom(hints, p, i)
  }

  predicate ListedFrom(hints: seq<int>, p: nat, i: int) {
    exists q :: p <= q < |hints| && hints[q] == -i
  }

  predicate AllSettled(cls: Database, np: int, hints: seq<int>, seen: set<int>, p: nat) {
    forall q :: p <= q < |hints| && hints[q] < 0 ==> Settled(cls, np, hints, seen, q)
  }

  lemma {:induction false} SkipAt(hints: seq<int>, p: nat)
    requires p < |hints|
    ensures hints[p] > 0 ==> SkipPositive(hints[p..]) == SkipPositive(hints[p + 1..])
    ensures hints[p] <= 0 ==> SkipPositive(hints[p..]) == hints[p..]
  {
    assert hints[p..][0] == hints[p] && hints[p..][1..] == hints[p + 1..];
  }

  lemma GroupsSkip(cls: Database, np: int, start: int, last: int, hints: seq<int>, seen: set<int>, p: nat)
    requires p < |hints| && hints[p] > 0
    ensures Groups(cls, np, start, last, hints[p..], seen) == Groups(cls, np, start, last, hints[p + 1..], seen)
  {
    SkipAt(hints, p);
  }

  lemma GroupsStep(cls: Database, np: int, start: int, last: int, hints: seq<int>, seen: set<int>, p: nat)
    requires p < |hints| && hints[p] < 0
    ensures var (e, m) := Group(cls, np, start, hints[p..], Marks(seen, seen));
            Groups(cls, np, start, last, hints[p..], seen) ==
            if e != Resolved then e else Groups(cls, np, -hints[p] + 1, last, hints[p + 1..], m.keep)
  {
    SkipAt(hints, p);
    SkipShortens(hints[p..]);
    assert hints[p..][0] == hints[p] && hints[p..][1..] == hints[p + 1..];
  }

  /** Below the first candidate nothing is listed. */
  lemma BelowUnlisted(hints: seq<int>, p: nat, f: nat, lo: int, j: int)
    requires p <= f < |hints| && hints[f] < 0 && Increasing(hints, p, lo) && 0 < j < -hints[f]
    requires forall q :: p <= q < f ==> hints[q] > 0
    ensures !ListedFrom(hints, p, j)
  {
  }

  /** The conditions at a candidate, and those that remain after it. */
  lemma SplitAt(cls: Database, np: int, lo: int, hints: seq<int>, p: nat)
    requires p < |hints| && hints[p] < 0 && -hints[p] in cls && forall i :: i in cls ==> i > 0
    ensures Increasing(hints, p, lo) && Lists(cls, np, lo, hints, p) <==>
            lo <= -hints[p] && !Occurs(cls, np, lo, -hints[p]) &&
            Increasing(hints, p + 1, -hints[p] + 1) && Lists(cls, np, -hints[p] + 1, hints, p + 1)
  {
    var i := -hints[p];
    if Increasing(hints, p, lo) && Lists(cls, np, lo, hints, p) {
      forall j | lo <= j < i && j in cls ensures np !in cls[j] {
        BelowUnlisted(hints, p, p, lo, j);
      }
      forall j | j in cls && i + 1 <= j && np in cls[j] ensures ListedFrom(hints, p + 1, j) {
        assert ListedFrom(hints, p, j);
        var q :| p <= q < |hints| && hints[q] == -j;
        assert q != p;
      }
    }
    if lo <= i && !Occurs(cls, np, lo, i) && Increasing(hints, p + 1, i + 1) && Lists(cls, np, i + 1, hints, p + 1) {
      forall j | j in cls && lo <= j && np in cls[j] ensures ListedFrom(hints, p, j) {
        if j == i {
          assert hints[p] == -j;
        } else if j > i {
          assert ListedFrom(hints, p + 1, j);
          var q :| p + 1 <= q < |hints| && hints[q] == -j;
        }
      }
    }
  }

  /** The loop over the candidates from position p on, without following it. */
  lemma {:induction false} GroupsExact(cls: Database, np: int, lo: int, last: int, hints: seq<int>, seen: set<int>,
                                       p: nat)
    requires p <= |hints| && NonZero(hints) && forall i :: i in cls ==> 0 < i <= last
    ensures Groups(cls, np, lo, last, hints[p..], Kept(cls, np, hints, seen, p)) == Resolved <==>
            Increasing(hints, p, lo) && Lists(cls, np, lo, hints, p) && AllSettled(cls, np, hints, seen, p)
    decreases |hints| - p
  {
    hide Settled, Increasing, Lists, Group;
    if p == |hints| {
      NoneLeft(cls, np, lo, last, hints, p);
    } else if hints[p] > 0 {
      GroupsSkip(cls, np, lo, last, hints, Kept(cls, np, hints, seen, p), p);
      GroupsExact(cls, np, lo, last, hints, seen, p + 1);
      SkipConditions(cls, np, lo, hints, p);
    } else {
      assert hints[p] in hints;
      GroupsStep(cls, np, lo, last, hints, Kept(cls, np, hints, seen, p), p);
      GroupExact(cls, np, lo, hints, seen, p);
      GroupsExact(cls, np, -hints[p] + 1, last, hints, seen, p + 1);
      SettledLive(cls, np, hints, seen, p);
      if -hints[p] in cls {
        SplitAt(cls, np, lo, hints, p);
      }
    }
  }

  lemma SettledLive(cls: Database, np: int, hints: seq<int>, seen: set<int>, p: nat)
    requires p < |hints|
    ensures Settled(cls, np, hints, seen, p) ==> -hints[p] in cls
  {
  }

  lemma NoneLeft(cls: Database, np: int, lo: int, last: int, hints: seq<int>, p: nat)
    requires p == |hints| && forall i :: i in cls ==> 0 < i <= last
    ensures Increasing(hints, p, lo) && (Lists(cls, np, lo, hints, p) <==> !Occurs(cls, np, lo, last + 1))
  {
  }

  lemma SkipConditions(cls: Database, np: int, lo: int, hints: seq<int>, p: nat)
    requires p < |hints| && hints[p] > 0 && forall i :: i in cls ==> i > 0
    ensures Increasing(hints, p, lo) <==> Increasing(hints, p + 1, lo)
    ensures Lists(cls, np, lo, hints, p) <==> Lists(cls, np, lo, hints, p + 1)
  {
  }

  // ----- the verdict -----

  /** How a lemma with resolution candidates is accepted: the leading hints are unit up to
      the first candidate or to a falsified clause, the candidates are live, listed in order
      and without a gap from the recorded index on, and each is blocked or closed. */
  predicate ResolvedBy(cls: Database, intro: int, lits: Clause, hints: seq<int>) {
    var base, np := LitSet(lits), NegatedPivot(lits);
    var u := Used(cls, base, hints, 0);
    var seen := Falsified(cls, base, hints, u);
    (ClosesAt(cls, base, hints, u) || Ends(hints, u)) && Increasing(hints, 0, intro) &&
    Lists(cls, np, intro, hints, 0) && AllSettled(cls, np, hints, seen, 0)
  }

  /** The conditions under which checkClause answers SUCCESS. */
  predicate AcceptedBy(cls: Database, intro: int, lits: Clause, hints: seq<int>) {
    var u := Used(cls, LitSet(lits), hints, 0);
    if forall h :: h in hints ==> h > 0 then ClosesAt(cls, LitSet(lits), hints, u) || u == |hints|
    else ResolvedBy(cls, intro, lits, hints)
  }

  lemma {:induction false} SkipNone(hints: seq<int>)
    requires NonZero(hints)
    ensures SkipPositive(hints) == [] <==> forall h :: h in hints ==> h > 0
  {
    SkipShortens(hints);
    if SkipPositive(hints) == [] {
      SkipAll(hints);
    }
  }

  /** The first candidate. */
  lemma {:induction false} FirstCandidate(hints: seq<int>, f: nat)
    requires f < |hints| && hints[f] < 0 && forall j :: 0 <= j < f ==> hints[j] > 0
    ensures SkipPositive(hints) == hints[f..]
    decreases f
  {
    if f > 0 {
      FirstCandidate(hints[1..], f - 1);
      assert hints[1..][f - 1..] == hints[f..];
    } else {
      assert hints[0..] == hints;
    }
  }

  lemma {:induction false} CandidateAt(hints: seq<int>) returns (f: nat)
    requires NonZero(hints) && SkipPositive(hints) != []
    ensures f < |hints| && hints[f] < 0 && forall j :: 0 <= j < f ==> hints[j] > 0
    ensures SkipPositive(hints) == hints[f..]
  {
    assert hints[0] in hints;
    if hints[0] < 0 {
      f := 0;
    } else {
      assert forall h :: h in hints[1..] ==> h in hints;
      f := CandidateAt(hints[1..]);
      f := f + 1;
    }
    FirstCandidate(hints, f);
  }

  /** The scan before the first candidate and the loop from it on start where the record says. */
  lemma FromRecord(cls: Database, np: int, intro: int, hints: seq<int>, f: nat)
    requires f < |hints| && hints[f] < 0 && (forall j :: 0 <= j < f ==> hints[j] > 0)
    requires forall i :: i in cls ==> i > 0
    ensures Increasing(hints, 0, intro) && Lists(cls, np, intro, hints, 0) <==>
            !Occurs(cls, np, intro, -hints[f]) && Increasing(hints, 0, Max(intro, -hints[f])) &&
            Lists(cls, np, Max(intro, -hints[f]), hints, 0)
  {
    var i := -hints[f];
    if Increasing(hints, 0, intro) && Lists(cls, np, intro, hints, 0) {
      forall j | intro <= j < i && j in cls ensures np !in cls[j] {
        BelowUnlisted(hints, 0, f, intro, j);
      }
      forall q | 0 <= q < |hints| && hints[q] < 0 ensures i <= -hints[q] {
        assert q >= f;
      }
    }
    if !Occurs(cls, np, intro, i) && Increasing(hints, 0, Max(intro, i)) && Lists(cls, np, Max(intro, i), hints, 0) {
      forall j | j in cls && intro <= j && np in cls[j] ensures ListedFrom(hints, 0, j) {
        assert j >= i;
      }
    }
  }

  /** When checkClause accepts, for each of its three ways of accepting, and so when it does
      not. */
  lemma CheckExact(cls: Database, last: int, intro: int, lits: Clause, hints: seq<int>)
    requires NonZero(hints) && forall i :: i in cls ==> 0 < i <= last
    ensures var e := Check(cls, last, intro, lits, hints);
            var base := LitSet(lits);
            var u := Used(cls, base, hints, 0);
            var plain := forall h :: h in hints ==> h > 0;
            (e == Conflict <==> plain && ClosesAt(cls, base, hints, u)) &&
            (e == Exhausted <==> plain && u == |hints|) &&
            (e == Resolved <==> !plain && ResolvedBy(cls, intro, lits, hints)) &&
            (e.Accepted() <==> AcceptedBy(cls, intro, lits, hints))
  {
    var base, np := LitSet(lits), NegatedPivot(lits);
    var u := Used(cls, base, hints, 0);
    assert base - Forced(cls, base, hints, 0) == base && hints[0..] == hints;
    ChainExact(cls, base, base, hints, 0, Marks(base, base));
    ChainExit(cls, Marks(base, base), hints);
    SkipNone(hints);
    var m := Chain(cls, Marks(base, base), hints).1;
    hide ClosesAt, Increasing, Lists, AllSettled, Chain, Groups, Occurs, Forced, Falsified;
    if SkipPositive(hints) != [] {
      var f := CandidateAt(hints);
      GroupsExit(cls, np, Max(intro, -hints[f]), last, hints, m.seen);
      GroupsExact(cls, np, Max(intro, -hints[f]), last, hints, m.seen, 0);
      FromRecord(cls, np, intro, hints, f);
    } else if u < |hints| {
      assert hints[u] in hints;
    }
  }
}
