/** The LRAT checker itself: literal stamps, first-occurrence indices and a flat
    zero-terminated clause table, updated in place. */
module LratCheck {
  import opened Cnf
  import opened LratSpec
  import LratExact
  import opened LratReader

  /** The clause stored at an offset of the table, up to its terminating zero. */
  function Stored(table: seq<int>, p: nat): (c: Clause)
    requires p <= |table|
    ensures NonZero(c)
    decreases |table| - p
  {
    if p == |table| || table[p] == 0 then [] else [table[p]] + Stored(table, p + 1)
  }

  /** Appending keeps every clause whose zero is already there. */
  lemma {:induction false} StoredAppend(table: seq<int>, more: seq<int>, p: nat)
    requires p < |table| && table[|table| - 1] == 0
    ensures Stored(table + more, p) == Stored(table, p)
    decreases |table| - p
  {
    if table[p] != 0 {
      StoredAppend(table, more, p + 1);
    }
  }

  /** The literals before the first zero. */
  function Prefix(lits: seq<int>): Clause {
    if lits == [] || lits[0] == 0 then [] else [lits[0]] + Prefix(lits[1..])
  }

  lemma {:induction false} StoredNew(table: seq<int>, lits: seq<int>)
    ensures Stored(table + lits + [0], |table|) == Prefix(lits)
    decreases |lits|
  {
    var t := table + lits + [0];
    if lits != [] && lits[0] != 0 {
      assert t == (table + [lits[0]]) + lits[1..] + [0];
      StoredNew(table + [lits[0]], lits[1..]);
    }
  }

  /** The stamps show a mark set at threshold t; the keep part is only tracked
      while another resolution candidate is to come. */
  ghost predicate Shows(stamp: map<nat, int>, t: int, m: Marks, more: bool) {
    forall lit :: lit != 0 ==>
      (lit in m.seen <==> At(stamp, Code(lit)) >= t) &&
      (more ==> (lit in m.keep <==> At(stamp, Code(lit)) > t))
  }

  /** code stands for literal np, or for no literal when np is 0. */
  ghost predicate Names(code: nat, np: int) {
    forall lit :: lit != 0 ==> (Code(lit) == code <==> lit == np)
  }

  ghost predicate Bounded(stamp: map<nat, int>, limit: int) {
    forall c :: At(stamp, c) <= limit
  }

  /** Every entry is as before or carries stamp t. */
  ghost predicate Restamped(before: map<nat, int>, stamp: map<nat, int>, t: int) {
    forall c :: At(stamp, c) == At(before, c) || At(stamp, c) == t
  }

  /** During the resolution candidates the lemma's own stamps lie ahead of the clock. */
  ghost predicate TwoLevels(stamp: map<nat, int>, now: int, top: int) {
    forall c :: At(stamp, c) <= now || At(stamp, c) == top
  }

  lemma TwoLevelsStep(before: map<nat, int>, stamp: map<nat, int>, now: int, top: int)
    requires TwoLevels(before, now, top) && Restamped(before, stamp, now + 1)
    ensures TwoLevels(stamp, now + 1, top)
  {
  }

  /** Moving the threshold past a candidate hides its marks and keeps the rest. */
  lemma NextThreshold(stamp: map<nat, int>, t: int, m: Marks, top: int, rest: nat)
    requires top == t + rest && TwoLevels(stamp, t, top)
    requires Shows(stamp, t, m, rest > 0)
    ensures rest > 0 ==> Shows(stamp, t + 1, Marks(m.keep, m.keep), rest > 1)
  {
    if rest > 0 {
      forall lit | lit != 0
        ensures lit in m.keep <==> At(stamp, Code(lit)) >= t + 1
        ensures rest > 1 ==> (lit in m.keep <==> At(stamp, Code(lit)) > t + 1)
      {
      }
    }
  }

  /** Stamping one literal index. */
  lemma ShowsAdd(stamp: map<nat, int>, t: int, m: Marks, more: bool, lit: int)
    requires lit != 0 && Shows(stamp, t, m, more)
    ensures At(stamp, Code(lit)) < t ==> Shows(stamp[Code(lit) := t], t, m.Add(lit), more)
    ensures Shows(stamp[Code(lit) := t], t, m.Force(lit), more)
    ensures Restamped(stamp, stamp[Code(lit) := t], t)
  {
    forall l | l != 0 && l != lit ensures At(stamp[Code(lit) := t], Code(l)) == At(stamp, Code(l)) {
    }
  }

  lemma ShowsAt(stamp: map<nat, int>, t: int, m: Marks, more: bool, lit: int)
    requires lit != 0 && Shows(stamp, t, m, more)
    ensures lit in m.seen <==> At(stamp, Code(lit)) >= t
    ensures -lit in m.seen <==> At(stamp, Flipped(Code(lit))) >= t
  {
    assert Flipped(Code(lit)) == Code(-lit);
  }

  lemma NamesAt(code: nat, np: int, lit: int)
    requires Names(code, np) && lit != 0
    ensures Code(lit) == code <==> lit == np
  {
  }

  lemma RestampedTrans(a: map<nat, int>, b: map<nat, int>, c: map<nat, int>, t: int)
    requires Restamped(a, b, t) && Restamped(b, c, t)
    ensures Restamped(a, c, t)
  {
  }

  function Rats(hints: seq<int>): nat {
    if hints == [] then 0 else (if hints[0] < 0 then 1 else 0) + Rats(hints[1..])
  }

  lemma FreshStamps(before: map<nat, int>, marked: map<nat, int>, stamp: map<nat, int>, now: int, rats: nat)
    requires Bounded(before, now - 1)
    requires Restamped(before, marked, now + rats) && Restamped(marked, stamp, now + rats)
    ensures TwoLevels(stamp, now, now + rats)
    ensures rats == 0 ==> Bounded(stamp, now)
  {
  }

  /** The candidates start with the lemma's stamps at the last threshold of all. */
  lemma FirstThreshold(stamp: map<nat, int>, now: int, m: Marks, rats: nat)
    requires rats > 0 && Shows(stamp, now + rats, m, false) && TwoLevels(stamp, now, now + rats)
    ensures Shows(stamp, now + 1, Marks(m.seen, m.seen), rats > 1)
  {
  }

  lemma NegatedPivotNamed(lits: Clause)
    requires NonZero(lits)
    ensures Names(Flipped(Pivot(lits)), NegatedPivot(lits))
  {
    if lits != [] {
      assert lits[0] in lits;
    }
  }

  lemma {:induction false} RatsSkip(hints: seq<int>)
    requires NonZero(hints)
    ensures Rats(hints) == 0 <==> SkipPositive(hints) == []
  {
    if hints != [] {
      assert hints[0] in hints && NonZero(hints[1..]);
      RatsSkip(hints[1..]);
    }
  }

  lemma {:induction false} PrefixZero(c: Clause)
    requires NonZero(c)
    ensures Prefix(c + [0]) == c
  {
    if c != [] {
      assert c[0] in c && (c + [0])[1..] == c[1..] + [0];
      PrefixZero(c[1..]);
    }
  }

  lemma {:induction false} PrefixWhole(c: Clause)
    requires NonZero(c)
    ensures Prefix(c) == c
  {
    if c != [] {
      assert c[0] in c;
      PrefixWhole(c[1..]);
    }
  }

  function LitClauses(formula: seq<Clause>): set<Clause> {
    set c | c in formula
  }

  class Checker {
    var mask: map<nat, int>
    var intro: map<nat, int>
    var now: int
    var clsList: map<int, nat>
    var clsLast: int
    var table: seq<int>

    /** Every recorded clause is stored and terminated. */
    ghost predicate ValidStore()
      reads this`table, this`clsList
    {
      (table != [] ==> table[|table| - 1] == 0) &&
      (forall i :: i in clsList ==> clsList[i] < |table|)
    }

    /** Between checks no stamp is ahead of the clock. */
    ghost predicate Valid()
      reads this
    {
      ValidStore() && 0 <= now && Bounded(mask, now)
    }

    /** The live clauses by index. */
    ghost function Cls(): (cls: Database)
      requires ValidStore()
      reads this`table, this`clsList
      ensures Proper(cls)
    {
      map i | i in clsList :: Stored(table, clsList[i])
    }

    constructor ()
      ensures Valid() && Cls() == map[] && intro == map[] && clsLast == 0
    {
      mask, intro, now, clsList, clsLast, table := map[], map[], 0, map[], 0, [];
    }

    /** while (*clause) ... if (clit == (pivot^1)) */
    method Mentions(index: int, np: int, code: nat) returns (yes: bool)
      requires ValidStore() && index in clsList
      requires Names(code, np)
      ensures yes <==> np in Stored(table, clsList[index])
    {
      var p := clsList[index];
      ghost var c := Stored(table, p);
      ghost var done: Clause := [];
      while table[p] != 0
        invariant p < |table|
        invariant c == done + Stored(table, p) && np !in done
        decreases |table| - p
      {
        done := done + [table[p]];
        if Code(table[p]) == code {
          assert np in done;
          return true;
        }
        p := p + 1;
      }
      yes := false;
    }

    /** Does a live clause with index in lo..hi contain the negated pivot? */
    method Scan(lo: int, hi: int, np: int, code: nat) returns (found: bool)
      requires ValidStore()
      requires Names(code, np)
      ensures found <==> Occurs(Cls(), np, lo, hi)
    {
      var start := lo;
      while start < hi
        invariant lo <= start && (lo < hi ==> start <= hi)
        invariant !Occurs(Cls(), np, lo, start)
      {
        if start in clsList {
          var yes := Mentions(start, np, code);
          assert Cls()[start] == Stored(table, clsList[start]);
          if yes {
            return true;
          }
        }
        start := start + 1;
      }
      found := false;
    }

    /** checkRedundancy, the body of its first literal loop: one literal of a resolution candidate. */
    method MarkLiteral(lit: int, np: int, code: nat, t: int, found0: bool, ghost rest: Clause, ghost m: Marks,
                       ghost more: bool)
      returns (blocked: bool, found: bool, ghost m1: Marks)
      requires lit != 0 && Shows(mask, t, m, more) && Names(code, np)
      modifies this`mask
      ensures Candidate([lit] + rest, np, found0, m) == if blocked then Blocked(m1) else Candidate(rest, np, found, m1)
      ensures Shows(mask, t, m1, more) && Restamped(old(mask), mask, t)
    {
      ShowsAt(mask, t, m, more, lit);
      NamesAt(code, np, lit);
      hide Shows, Names;
      assert ([lit] + rest)[1..] == rest;
      var clit := Code(lit);
      blocked, found, m1 := false, found0, m;
      if clit == code {
        found := true;
      } else if At(mask, clit) >= t {
      } else if At(mask, Flipped(clit)) >= t {
        blocked := true;
      } else {
        ShowsAdd(mask, t, m, more, lit);
        mask := mask[clit := t];
        m1 := m.Add(lit);
      }
    }

    /** checkRedundancy, its first literal loop: assume a resolution candidate false apart
        from the negated pivot. */
    method MarkCandidate(index: int, np: int, code: nat, t: int, ghost m: Marks, ghost more: bool)
      returns (blocked: bool, found: bool, ghost m1: Marks)
      requires ValidStore() && index in clsList && Shows(mask, t, m, more)
      requires Names(code, np)
      modifies this`mask
      ensures Candidate(Stored(table, clsList[index]), np, false, m) == if blocked then Blocked(m1)
              else Marked(found, m1)
      ensures Shows(mask, t, m1, more)
      ensures Restamped(old(mask), mask, t)
    {
      var p := clsList[index];
      ghost var c := Stored(table, p);
      blocked, found, m1 := false, false, m;
      assert Restamped(mask, mask, t);
      hide Shows, Restamped, Names, NonZero;
      while table[p] != 0
        invariant p < |table|
        invariant Candidate(c, np, false, m) == Candidate(Stored(table, p), np, found, m1)
        invariant Shows(mask, t, m1, more)
        invariant Restamped(old(mask), mask, t)
        decreases |table| - p
      {
        var lit := table[p];
        assert Stored(table, p) == [lit] + Stored(table, p + 1);
        p := p + 1;
        ghost var mask0 := mask;
        blocked, found, m1 := MarkLiteral(lit, np, code, t, found, Stored(table, p), m1, more);
        RestampedTrans(old(mask), mask0, mask, t);
        if blocked {
          return;
        }
      }
    }

    /** checkRedundancy, its inner hint loop: the one unmarked literal of a hint clause. */
    method FindUnit(index: int, t: int, ghost m: Marks) returns (failed: bool, unit: nat, ghost lit: int)
      requires ValidStore() && index in clsList && Shows(mask, t, m, false)
      ensures var open := Unmarked(Stored(table, clsList[index]), m.seen);
              if failed then |open| > 1
              else if unit == 0 then |open| == 0
              else open == [lit] && lit != 0 && unit == Code(lit)
    {
      var p := clsList[index];
      ghost var c := Stored(table, p);
      unit, lit := 0, 0;
      ghost var open: seq<int> := [];
      while table[p] != 0
        invariant p < |table|
        invariant Unmarked(c, m.seen) == open + Unmarked(Stored(table, p), m.seen)
        invariant if unit == 0 then open == [] else open == [lit] && lit != 0 && unit == Code(lit)
        decreases |table| - p
      {
        assert Stored(table, p) == [table[p]] + Stored(table, p + 1);
        var clit := Code(table[p]);
        p := p + 1;
        if At(mask, clit) >= t {
        } else if unit != 0 {
          failed := true;
          return;
        } else {
          unit, lit := clit, table[p - 1];
          open := [lit];
        }
      }
      failed := false;
    }

    /** checkRedundancy, its hint loop: unit propagation along the hints. */
    method FollowHints(hints: seq<int>, t: int, ghost m: Marks, ghost more: bool)
      returns (exit: Exit, ghost m1: Marks)
      requires ValidStore() && Shows(mask, t, m, more)
      modifies this`mask
      ensures (exit, m1) == Chain(Cls(), m, hints)
      ensures Shows(mask, t, m1, more)
      ensures Restamped(old(mask), mask, t)
    {
      var h := 0;
      ghost var cls := Cls();
      m1 := m;
      while h < |hints| && hints[h] > 0
        invariant h <= |hints|
        invariant Chain(cls, m, hints) == Chain(cls, m1, hints[h..])
        invariant Shows(mask, t, m1, more)
        invariant Restamped(old(mask), mask, t)
      {
        if hints[h] !in clsList {
          return Abort, m1;
        }
        var failed, unit, lit := FindUnit(hints[h], t, m1);
        assert hints[h..][1..] == hints[h + 1..] && cls[hints[h]] == Stored(table, clsList[hints[h]]);
        h := h + 1;
        if failed {
          return Rejected, m1;
        }
        if unit == 0 {
          return Conflict, m1;
        }
        assert Flipped(unit) == Code(-lit);
        ShowsAdd(mask, t, m1, more, -lit);
        mask := mask[Flipped(unit) := t];
        m1 := m1.Force(-lit);
      }
      exit := Exhausted;
    }

    /** checkRedundancy for a resolution candidate, -hints[0]. */
    method CheckCandidate(np: int, code: nat, start: int, hints: seq<int>, t: int, ghost m: Marks, ghost more: bool)
      returns (exit: Exit, ghost m1: Marks)
      requires ValidStore() && hints != [] && Shows(mask, t, m, more)
      requires Names(code, np)
      modifies this`mask
      ensures (exit, m1) == Group(Cls(), np, start, hints, m)
      ensures exit == Resolved ==> Shows(mask, t, m1, more)
      ensures Restamped(old(mask), mask, t)
    {
      var res := -hints[0];
      if start > res {
        return Abort, m;
      }
      var skipped := Scan(start, res, np, code);
      if skipped {
        return Rejected, m;
      }
      if res !in clsList {
        return Abort, m;
      }
      var blocked, found;
      blocked, found, m1 := MarkCandidate(res, np, code, t, m, more);
      if blocked {
        return Resolved, m1;
      }
      if !found {
        return Rejected, m1;
      }
      exit, m1 := FollowHints(hints[1..], t, m1, more);
      if exit == Conflict {
        exit := Resolved;
      } else if exit == Exhausted {
        exit := Rejected;
      }
    }

    /** getRATs: how many hints start a resolution candidate. */
    method CountRats(hints: seq<int>) returns (c: nat)
      ensures c == Rats(hints)
    {
      c := 0;
      for i := 0 to |hints|
        invariant Rats(hints) == c + Rats(hints[i..])
      {
        if hints[i] < 0 {
          c := c + 1;
        }
      }
    }

    /** while (*hints > 0) hints++ */
    method SkipHints(hints: seq<int>, from: nat) returns (h: nat)
      requires from <= |hints|
      ensures from <= h <= |hints| && SkipPositive(hints[from..]) == hints[h..]
      ensures Rats(hints[from..]) == Rats(hints[h..])
      ensures h < |hints| ==> hints[h] <= 0
    {
      h := from;
      while h < |hints| && hints[h] > 0
        invariant from <= h <= |hints|
        invariant SkipPositive(hints[from..]) == SkipPositive(hints[h..])
        invariant Rats(hints[from..]) == Rats(hints[h..])
      {
        h := h + 1;
      }
    }

    /** checkClause, its last two loops: every resolution candidate in turn, then the
        clauses after the last. */
    method CheckCandidates(np: int, code: nat, first: int, hints: seq<int>, ghost seen: set<int>, ghost top: int)
      returns (exit: Exit)
      requires ValidStore() && NonZero(hints) && Names(code, np)
      requires top == now + Rats(hints) && TwoLevels(mask, now, top)
      requires Rats(hints) > 0 ==> Shows(mask, now + 1, Marks(seen, seen), Rats(hints) > 1)
      modifies this`mask, this`now
      ensures exit == Groups(Cls(), np, first, clsLast, hints, seen)
      ensures exit == Resolved ==> now >= old(now) && Bounded(mask, now)
    {
      hide Group, Chain, Candidate, Shows;
      ghost var cls, known := Cls(), seen;
      var start, h := first, 0;
      assert hints[0..] == hints;
      while true
        invariant h <= |hints| && old(now) <= now && Cls() == cls
        invariant top == now + Rats(hints[h..]) && TwoLevels(mask, now, top)
        invariant Rats(hints[h..]) > 0 ==> Shows(mask, now + 1, Marks(known, known), Rats(hints[h..]) > 1)
        invariant Groups(cls, np, first, clsLast, hints, seen) == Groups(cls, np, start, clsLast, hints[h..], known)
        decreases |hints| - h
      {
        now := now + 1;
        h := SkipHints(hints, h);
        if h == |hints| {
          break;
        }
        assert hints[h] in hints && hints[h..][0] == hints[h] && hints[h..][1..] == hints[h + 1..];
        ghost var m1, before := Marks(known, known), mask;
        exit, m1 := CheckCandidate(np, code, start, hints[h..], now, Marks(known, known), Rats(hints[h..]) > 1);
        if exit != Resolved {
          return;
        }
        TwoLevelsStep(before, mask, now - 1, top);
        NextThreshold(mask, now, m1, top, Rats(hints[h + 1..]));
        known := m1.keep;
        start := -hints[h] + 1;
        h := h + 1;
      }
      var found := Scan(start, clsLast + 1, np, code);
      exit := if found then Rejected else Resolved;
    }

    /** checkClause. */
    method CheckClause(lits: Clause, hints: seq<int>) returns (exit: Exit)
      requires Valid() && NonZero(lits) && NonZero(hints)
      modifies this`mask, this`now, this`intro
      ensures exit == Check(Cls(), clsLast, At(old(intro), Flipped(Pivot(lits))), lits, hints)
      ensures exit.Accepted() ==> Valid() && intro == Checked(State(Cls(), clsLast, old(intro)), lits, hints).intro
      ensures (forall i :: i in Cls() ==> 0 < i <= clsLast) ==>
                (exit.Accepted() <==> LratExact.AcceptedBy(Cls(), At(old(intro), Flipped(Pivot(lits))), lits, hints))
    {
      if forall i :: i in Cls() ==> 0 < i <= clsLast {
        LratExact.CheckExact(Cls(), clsLast, At(intro, Flipped(Pivot(lits))), lits, hints);
      }
      hide Check, LratExact.AcceptedBy;
      exit := CheckSteps(lits, hints);
    }

    /** The steps of checkClause. */
    method CheckSteps(lits: Clause, hints: seq<int>) returns (exit: Exit)
      requires Valid() && NonZero(lits) && NonZero(hints)
      modifies this`mask, this`now, this`intro
      ensures exit == Check(Cls(), clsLast, At(old(intro), Flipped(Pivot(lits))), lits, hints)
      ensures exit.Accepted() ==> Valid() && intro == Checked(State(Cls(), clsLast, old(intro)), lits, hints).intro
    {
      hide Groups, Chain, Shows, Occurs, Restamped, TwoLevels, Names, Rats, SkipPositive;
      now := now + 1;
      var pivot := Pivot(lits);
      var rats := CountRats(hints);
      RatsSkip(hints);
      SkipShortens(hints);
      assert Bounded(mask, now + rats - 1);
      ghost var m := MarkLemma(lits, now + rats);
      ghost var m1, marked := m, mask;
      exit, m1 := FollowHints(hints, now + rats, m, false);
      FreshStamps(old(mask), marked, mask, now, rats);
      ChainExit(Cls(), m, hints);
      if !exit.Accepted() || rats == 0 {
        return;
      }
      var f := SkipHints(hints, 0);
      assert hints[0..] == hints;
      var first := -hints[f];
      assert hints[f] in hints;
      NegatedPivotNamed(lits);
      var start := At(intro, Flipped(pivot));
      var found := Scan(start, first, NegatedPivot(lits), Flipped(pivot));
      if found {
        return Rejected;
      }
      start := Max(start, first);
      intro := intro[Flipped(pivot) := first];
      FirstThreshold(mask, now, m1, rats);
      exit := CheckCandidates(NegatedPivot(lits), Flipped(pivot), start, hints, m1.seen, now + rats);
      GroupsExit(Cls(), NegatedPivot(lits), start, clsLast, hints, m1.seen);
    }

    /** checkClause, its first loop: stamp the literals of the lemma. */
    method MarkLemma(lits: Clause, t: int) returns (ghost m: Marks)
      requires NonZero(lits) && Bounded(mask, t - 1)
      modifies this`mask
      ensures m == Marks(LitSet(lits), LitSet(lits)) && Shows(mask, t, m, false)
      ensures Restamped(old(mask), mask, t)
    {
      m := Marks({}, {});
      for i := 0 to |lits|
        invariant m.seen == LitSet(lits[..i]) && Shows(mask, t, m, false) && Restamped(old(mask), mask, t)
      {
        assert lits[i] in lits && lits[..i + 1] == lits[..i] + [lits[i]];
        ShowsAdd(mask, t, m, false, lits[i]);
        mask := mask[Code(lits[i]) := t];
        m := m.Force(lits[i]);
      }
      assert lits[..|lits|] == lits;
      m := Marks(m.seen, m.seen);
    }

    /** The loop of addClause. */
    method AppendLiterals(index: int, lits: seq<int>)
      modifies this`table, this`intro
      ensures table == old(table) + lits && intro == FirstSeen(old(intro), lits, index)
    {
      assert lits[0..] == lits;
      for i := 0 to |lits|
        invariant table == old(table) + lits[..i]
        invariant FirstSeen(old(intro), lits, index) == FirstSeen(intro, lits[i..], index)
      {
        var clit := Code(lits[i]);
        assert lits[i..][1..] == lits[i + 1..] && lits[..i + 1] == lits[..i] + [lits[i]];
        if At(intro, clit) == 0 {
          intro := intro[clit := index];
        }
        table := table + [lits[i]];
      }
      assert lits[..|lits|] == lits && lits[|lits|..] == [];
    }

    /** Recording a clause appended to the table. */
    lemma Appended(table0: seq<int>, list0: map<int, nat>, index: int, lits: seq<int>)
      requires table0 != [] ==> table0[|table0| - 1] == 0
      requires forall i :: i in list0 ==> list0[i] < |table0|
      requires table == table0 + lits + [0] && clsList == list0[index := |table0|]
      ensures ValidStore()
      ensures Cls() == (map i | i in list0 :: Stored(table0, list0[i]))[index := Prefix(lits)]
    {
      hide Stored, Prefix;
      StoredNew(table0, lits);
      assert table == table0 + (lits + [0]);
      forall i | i in list0 ensures Stored(table, list0[i]) == Stored(table0, list0[i]) {
        StoredAppend(table0, lits + [0], list0[i]);
      }
    }

    /** addClause: append the literals and a zero to the table. */
    method AddClause(index: int, lits: seq<int>)
      requires ValidStore()
      modifies this`table, this`clsList, this`clsLast, this`intro
      ensures ValidStore() && Cls() == old(Cls())[index := Prefix(lits)]
      ensures clsLast == index && intro == FirstSeen(old(intro), lits, index)
    {
      hide FirstSeen, Prefix, Stored;
      var offset := |table|;
      AppendLiterals(index, lits);
      table := table + [0];
      clsList := clsList[index := offset];
      clsLast := index;
      Appended(old(table), old(clsList), index, lits);
    }

    /** deleteClauses. */
    method DeleteClauses(ids: seq<int>)
      requires ValidStore()
      modifies this`clsList
      ensures ValidStore() && Cls() == old(Cls()) - LitSet(ids)
    {
      for i := 0 to |ids|
        invariant clsList == old(clsList) - LitSet(ids[..i])
      {
        assert ids[..i + 1] == ids[..i] + [ids[i]];
        if ids[i] in clsList {
          clsList := clsList - {ids[i]};
        }
      }
      assert ids[..|ids|] == ids;
    }

    /** The state the specification speaks of. */
    ghost function Abstract(): State
      requires ValidStore()
      reads this`table, this`clsList, this`clsLast, this`intro
    {
      State(Cls(), clsLast, intro)
    }

    /** parseLine on a clause of the formula: literals seen for the first time get the
        line number it was called with, plus one. */
    method ParseLine(c: Clause, index: int) returns (lits: seq<int>)
      modifies this`intro
      ensures lits == c + [0] && intro == FirstSeen(old(intro), c + [0], index + 1)
    {
      lits := [];
      var line, all := index + 1, c + [0];
      for i := 0 to |all|
        invariant lits == all[..i]
        invariant FirstSeen(old(intro), all, line) == FirstSeen(intro, all[i..], line)
      {
        assert all[i..][1..] == all[i + 1..] && all[..i + 1] == all[..i] + [all[i]];
        var clit := Code(all[i]);
        if At(intro, clit) == 0 {
          intro := intro[clit := line];
        }
        lits := lits + [all[i]];
      }
      assert all[..|all|] == all && all[|all|..] == [];
    }

    /** The first loop of main: clause k of the formula is parsed and added under index k + 1. */
    method Load(formula: seq<Clause>)
      requires Valid() && Abstract() == State(map[], 0, map[]) && forall c :: c in formula ==> NonZero(c)
      modifies this
      ensures Valid() && Abstract() == Prefilled(formula)
    {
      hide FirstSeen, Stored;
      for i := 0 to |formula|
        invariant Valid() && Abstract() == Prefilled(formula[..i]) && clsLast == i
      {
        var c := formula[i];
        assert formula[..i + 1] == formula[..i] + [c] && c in formula && formula[..i + 1][..i] == formula[..i];
        var lits := ParseLine(c, i + 1);
        AddClause(i + 1, lits);
        PrefixZero(c);
      }
      assert formula[..|formula|] == formula;
    }

    /** main: load the formula, then process the proof up to the first failed line. */
    method Verify(formula: seq<Clause>, proof: seq<Line>) returns (returnCode: int, verified: bool)
      requires Valid() && Abstract() == State(map[], 0, map[]) && forall c :: c in formula ==> NonZero(c)
      requires forall line :: line in proof ==> line.WellFormed()
      modifies this
      ensures returnCode == 0 <==> Run(Prefilled(formula), proof, false).Finished?
      ensures returnCode == 0 ==>
                ValidStore() && Run(Prefilled(formula), proof, false) == Finished(Abstract(), verified)
      ensures returnCode == 0 && Careful(Prefilled(formula), proof) && Covered(formula, {}, {}, proof) ==>
                (Satisfiable(LitClauses(formula)) ==> Satisfiable(Live(Cls()))) &&
                (verified ==> !Satisfiable(LitClauses(formula)))
    {
      Load(formula);
      verified := false;
      for i := 0 to |proof|
        invariant Valid()
        invariant Run(Prefilled(formula), proof, false) == Run(Abstract(), proof[i..], verified)
      {
        assert proof[i] in proof && proof[i..][0] == proof[i] && proof[i..][1..] == proof[i + 1..];
        match proof[i] {
          case Deletion(ids) =>
            DeleteClauses(ids);
          case Other =>
            return 1, verified;
          case Addition(index, lits, hints) =>
            var exit := CheckClause(lits, hints);
            if !exit.Accepted() {
              return 1, verified;
            }
            AddClause(index, lits);
            PrefixWhole(lits);
            verified := verified || |lits| == 0;
        }
      }
      returnCode := 0;
      if Careful(Prefilled(formula), proof) && Covered(formula, {}, {}, proof) {
        PrefilledSound(formula, proof);
      }
    }
  }
}
