/** The unit propagation of drat-trim, core clauses first, with reason pointers,
    and the conflict analysis that records the clauses a lemma depends on. */
module DratTrim {
  import opened Cnf
  import opened Lists
  import opened LratSpec
  import opened DratHints
  import DrupSpec

  datatype Watch = Watch(id: int, core: bool)

  const ASSUMED := 2
  const MARK := 3

  function Get(m: map<int, nat>, k: int): nat {
    if k in m then m[k] else 0
  }

  function List(w: map<int, seq<Watch>>, lit: int): seq<Watch> {
    if lit in w then w[lit] else []
  }

  function Var(lit: int): int {
    if lit < 0 then -lit else lit
  }

  ghost predicate FalseOk(falseA: map<int, nat>, stack: seq<int>) {
    0 !in stack && NoDup(stack) && Consistent(LitSet(stack)) &&
    forall lit :: lit != 0 ==> (Get(falseA, lit) != 0 <==> lit in stack) && Get(falseA, lit) != MARK
  }

  ghost predicate DbOk(db: Database) {
    forall id :: id in db ==> id > 0 && db[id] != [] && NoDup(db[id]) && 0 !in db[id]
  }

  ghost predicate Listed(l: seq<Watch>, id: int) {
    exists i :: 0 <= i < |l| && l[i].id == id
  }

  ghost predicate DistinctIds(l: seq<Watch>) {
    forall i, j :: 0 <= i < j < |l| ==> l[i].id != l[j].id
  }

  predicate Watches(db: Database, id: int, lit: int) {
    id in db && |db[id]| >= 2 && (db[id][0] == lit || db[id][1] == lit)
  }

  /** The list of a literal holds exactly the clauses watching it, once each. */
  ghost predicate WatchOk(db: Database, w: map<int, seq<Watch>>) {
    forall lit :: DistinctIds(List(w, lit)) && forall id :: Listed(List(w, lit), id) <==> Watches(db, id, lit)
  }

  /** The reason of each stack entry, by position. */
  function Why(reason: map<int, nat>, stack: seq<int>): (why: seq<nat>)
    ensures |why| == |stack|
  {
    seq(|stack|, k requires 0 <= k < |stack| => Get(reason, Var(stack[k])))
  }

  /** propagate: the other watch first, the falsified literal second. */
  function Arrange(c: Clause, lit: int): (d: Clause)
    requires |c| >= 2
    ensures |d| == |c|
  {
    if c[0] == lit then c[0 := c[1]][1 := lit] else c
  }

  lemma Swapped(c: Clause, i: nat, j: nat)
    requires i < |c| && j < |c|
    ensures var d := c[i := c[j]][j := c[i]];
            multiset(d) == multiset(c) && LitSet(d) == LitSet(c) && (NoDup(c) ==> NoDup(d)) && (0 !in c ==> 0 !in d)
  {
    var d := c[i := c[j]][j := c[i]];
    assert d[i] == c[j] && d[j] == c[i];
    assert multiset(d) == multiset(c);
    forall x | x in c ensures x in d {
      var k :| 0 <= k < |c| && c[k] == x;
      assert d[if k == i then j else if k == j then i else k] == x;
    }
  }

  lemma Arranged(c: Clause, lit: int)
    requires |c| >= 2 && (c[0] == lit || c[1] == lit)
    ensures var d := Arrange(c, lit);
            d[1] == lit && d[0] == (if c[0] == lit then c[1] else c[0]) && multiset(d) == multiset(c) &&
            LitSet(d) == LitSet(c) && (NoDup(c) ==> NoDup(d)) && (0 !in c ==> 0 !in d)
  {
    Swapped(c, 0, 1);
  }

  /** Literals permuted, clause by clause. */
  ghost predicate Permuted(db: Database, db': Database) {
    db.Keys == db'.Keys && forall id :: id in db ==> multiset(db[id]) == multiset(db'[id])
  }

  // ----- watch lists -----

  lemma WatchSame(db: Database, w: map<int, seq<Watch>>, id: int, d: Clause)
    requires WatchOk(db, w) && id in db && |db[id]| >= 2 && |d| >= 2
    requires (d[0] == db[id][0] && d[1] == db[id][1]) || (d[0] == db[id][1] && d[1] == db[id][0])
    ensures WatchOk(db[id := d], w)
  {
    forall lit, i ensures Watches(db[id := d], i, lit) <==> Watches(db, i, lit) {
    }
  }

  /** propagate: the entry moves to the list of a new literal x, and the last
      entry of the old list takes its place. */
  function MovedLists(w: map<int, seq<Watch>>, lit: int, i: nat, x: int): map<int, seq<Watch>>
    requires i < |List(w, lit)|
  {
    var l := List(w, lit);
    w[x := List(w, x) + [l[i]]][lit := l[i := l[|l| - 1]][..|l| - 1]]
  }

  lemma DropListed(l: seq<Watch>, i: nat)
    requires i < |l| && DistinctIds(l)
    ensures var r := l[i := l[|l| - 1]][..|l| - 1];
            DistinctIds(r) && forall id :: Listed(r, id) <==> Listed(l, id) && id != l[i].id
  {
    var n := |l| - 1;
    var r := l[i := l[n]][..n];
    forall id | Listed(l, id) && id != l[i].id ensures Listed(r, id) {
      var k :| 0 <= k < |l| && l[k].id == id;
      assert r[if k == n then i else k].id == id;
    }
    forall id | Listed(r, id) ensures Listed(l, id) && id != l[i].id {
      var k :| 0 <= k < |r| && r[k].id == id;
      assert l[if k == i then n else k].id == id;
    }
  }

  lemma AppendListed(l: seq<Watch>, e: Watch)
    requires DistinctIds(l) && !Listed(l, e.id)
    ensures DistinctIds(l + [e]) && forall id :: Listed(l + [e], id) <==> Listed(l, id) || id == e.id
  {
    forall id | Listed(l, id) || id == e.id ensures Listed(l + [e], id) {
      if Listed(l, id) {
        var k :| 0 <= k < |l| && l[k].id == id;
        assert (l + [e])[k].id == id;
      } else {
        assert (l + [e])[|l|].id == id;
      }
    }
  }

  lemma WatchMoved(db: Database, w: map<int, seq<Watch>>, lit: int, i: nat, d: Clause)
    requires WatchOk(db, w) && i < |List(w, lit)|
    requires var id := List(w, lit)[i].id;
             id in db && |db[id]| >= 2 && |d| >= 2 && d[1] != lit && d[0] != lit && d[0] != d[1] &&
             ((db[id][0] == lit && d[0] == db[id][1]) || (db[id][1] == lit && d[0] == db[id][0])) &&
             d[1] != db[id][0] && d[1] != db[id][1]
    ensures WatchOk(db[List(w, lit)[i].id := d], MovedLists(w, lit, i, d[1]))
  {
    var l, x := List(w, lit), d[1];
    var id := l[i].id;
    var w', db' := MovedLists(w, lit, i, x), db[id := d];
    DropListed(l, i);
    assert !Watches(db, id, x) && !Listed(List(w, x), id);
    AppendListed(List(w, x), l[i]);
    forall y ensures DistinctIds(List(w', y)) && forall k :: Listed(List(w', y), k) <==> Watches(db', k, y) {
      forall k ensures Listed(List(w', y), k) <==> Watches(db', k, y) {
        assert Listed(List(w, y), k) <==> Watches(db, k, y);
      }
    }
  }

  /** Watching literal k of a clause instead of lit. */
  lemma MovedOk(db: Database, w: map<int, seq<Watch>>, lit: int, i: nat, k: nat, stack: seq<int>, why: seq<nat>,
                assumed: set<int>)
    requires DbOk(db) && WatchOk(db, w) && i < |List(w, lit)| && Justified(db, stack, why, assumed)
    requires var id := List(w, lit)[i].id;
             Watches(db, id, lit) && -db[id][0] !in stack && 2 <= k < |db[id]|
    ensures var id := List(w, lit)[i].id; var d := Arrange(db[id], lit); var e := d[1 := d[k]][k := lit];
            DbOk(db[id := e]) && WatchOk(db[id := e], MovedLists(w, lit, i, d[k])) && Permuted(db, db[id := e]) &&
            Justified(db[id := e], stack, why, assumed)
  {
    hide WatchOk, Justified, Permuted, LitSet;
    var id := List(w, lit)[i].id;
    Arranged(db[id], lit);
    var d := Arrange(db[id], lit);
    var e := d[1 := d[k]][k := lit];
    Swapped(d, 1, k);
    assert d[k] in d && d[0] != d[k] && d[1] != d[k] && d[0] != d[1];
    WatchMoved(db, w, lit, i, e);
    JustifiedSwap(db, stack, why, assumed, id, e);
    PermutedSelf(db, id, e);
  }

  // ----- the trail -----

  lemma FalseAssign(falseA: map<int, nat>, stack: seq<int>, lit: int, mark: nat)
    requires FalseOk(falseA, stack) && lit != 0 && mark != 0 && mark != MARK
    requires Get(falseA, lit) == 0 && Get(falseA, -lit) == 0
    ensures FalseOk(falseA[lit := mark], stack + [lit])
  {
    assert lit !in stack && -lit !in stack;
    forall y | y in LitSet(stack + [lit]) ensures -y !in LitSet(stack + [lit]) {
      if y != lit {
        assert y in stack && y in LitSet(stack) && y != -lit;
        assert -y !in LitSet(stack) && -y !in stack && -y != lit;
      }
    }
    forall y | y != 0
      ensures (Get(falseA[lit := mark], y) != 0 <==> y in stack + [lit]) && Get(falseA[lit := mark], y) != MARK
    {
      assert y in stack + [lit] <==> y in stack || y == lit;
    }
  }

  /** Pushing a literal leaves the reasons below untouched. */
  lemma WhyPush(reason: map<int, nat>, stack: seq<int>, lit: int, r: nat)
    requires lit !in stack && -lit !in stack
    ensures Why(reason[Var(lit) := r], stack + [lit]) == Why(reason, stack) + [r]
  {
    var a, b := Why(reason[Var(lit) := r], stack + [lit]), Why(reason, stack) + [r];
    forall k | 0 <= k < |a| ensures a[k] == b[k] {
      if k < |stack| {
        assert stack[k] in stack && Var(stack[k]) != Var(lit);
      }
    }
  }

  lemma JustifiedPush(db: Database, stack: seq<int>, why: seq<nat>, assumed: set<int>, lit: int, r: nat)
    requires Justified(db, stack, why, assumed)
    requires if r == 0 then lit in assumed
             else r in db && db[r] != [] && db[r][0] == -lit && Others(db[r]) <= LitSet(stack)
    ensures Justified(db, stack + [lit], why + [r], assumed)
  {
    var s, y := stack + [lit], why + [r];
    forall k {:trigger y[k]} | 0 <= k < |s|
      ensures if y[k] == 0 then s[k] in assumed
              else y[k] in db && db[y[k]] != [] && db[y[k]][0] == -s[k] && Others(db[y[k]]) <= LitSet(s[..k])
    {
      if k < |stack| {
        assert y[k] == why[k] && s[..k] == stack[..k];
      } else {
        assert s[..k] == stack;
      }
    }
  }

  /** Rearranging a clause whose first literal is not true touches no reason. */
  lemma JustifiedSwap(db: Database, stack: seq<int>, why: seq<nat>, assumed: set<int>, id: int, d: Clause)
    requires Justified(db, stack, why, assumed) && id in db && db[id] != [] && -db[id][0] !in stack && id > 0
    ensures Justified(db[id := d], stack, why, assumed)
  {
    forall k {:trigger why[k]} | 0 <= k < |stack|
      ensures why[k] != id
    {
      assert stack[k] in stack;
    }
  }

  lemma StackFacts(falseA: map<int, nat>, stack: seq<int>)
    requires FalseOk(falseA, stack)
    ensures 0 !in stack && NoDup(stack) && forall y :: y in stack ==> -y !in stack
  {
    forall y | y in stack ensures -y !in stack {
      assert y in LitSet(stack) && -y !in LitSet(stack);
    }
  }

  lemma FalseMeans(falseA: map<int, nat>, stack: seq<int>, lit: int)
    requires FalseOk(falseA, stack) && lit != 0
    ensures Get(falseA, lit) != 0 <==> lit in stack
    ensures Get(falseA, -lit) != 0 <==> -lit in stack
  {
  }

  lemma PermutedSelf(db: Database, id: int, d: Clause)
    requires id in db && multiset(d) == multiset(db[id])
    ensures Permuted(db, db[id := d])
  {
  }

  /** All literals but the first are on the stack. */
  lemma AllButFirst(d: Clause, stack: seq<int>)
    requires |d| >= 2 && d[1] in stack && forall j :: 2 <= j < |d| ==> d[j] in stack
    ensures Others(d) <= LitSet(stack)
    ensures d[0] in stack ==> LitSet(d) <= LitSet(stack)
  {
    forall x | x in LitSet(d) && (x in Others(d) || d[0] in stack) ensures x in stack {
      var j :| 0 <= j < |d| && d[j] == x && (j > 0 || d[0] in stack);
    }
    forall x | x in Others(d) ensures x in stack {
      var j :| 0 <= j < |d[1..]| && d[1..][j] == x;
      assert d[j + 1] == x;
    }
  }

  /** The literals unit steps over db can falsify. */
  function Negs(db: Database): set<int> {
    set id, lit | id in db && lit in db[id] :: -lit
  }

  lemma PermutedNegs(db: Database, db': Database)
    requires Permuted(db, db')
    ensures Negs(db) == Negs(db')
  {
    forall id, lit | id in db ensures lit in db[id] <==> lit in db'[id] {
      assert multiset(db[id]) == multiset(db'[id]);
      assert (lit in db[id] <==> lit in multiset(db[id])) && (lit in db'[id] <==> lit in multiset(db'[id]));
    }
  }

  lemma PermutedJoin(a: Database, b: Database, c: Database)
    requires Permuted(a, b) && Permuted(b, c)
    ensures Permuted(a, c)
  {
  }

  /** The stack cannot outgrow the literals at hand. */
  lemma StackBounded(db: Database, stack: seq<int>, why: seq<nat>, assumed: set<int>)
    requires Justified(db, stack, why, assumed) && NoDup(stack)
    ensures |stack| <= |assumed + Negs(db)|
  {
    forall y | y in stack ensures y in assumed + Negs(db) {
      var k :| 0 <= k < |stack| && stack[k] == y;
      if why[k] != 0 {
        assert db[why[k]][0] in db[why[k]];
      }
    }
    NoDupBounded(stack, assumed + Negs(db));
  }

  lemma PermutedRefl(db: Database)
    ensures Permuted(db, db)
  {
  }

  lemma ClauseNonzero(db: Database, id: int)
    requires DbOk(db) && id in db && |db[id]| >= 2
    ensures db[id][0] != 0 && db[id][1] != 0 && id > 0
  {
    assert db[id][0] in db[id] && db[id][1] in db[id];
  }

  lemma ListedWatches(db: Database, w: map<int, seq<Watch>>, lit: int, i: nat)
    requires WatchOk(db, w) && i < |List(w, lit)|
    ensures Watches(db, List(w, lit)[i].id, lit)
  {
    assert Listed(List(w, lit), List(w, lit)[i].id);
  }

  // ----- analysis -----

  /** Recorded dependencies without their forced flag. */
  function Ids(deps: seq<int>): seq<int> {
    seq(|deps|, i requires 0 <= i < |deps| => deps[i] / 2)
  }

  /** Marks sit on the literals of m, as far as they are still on the trail. */
  ghost predicate MarkedAre(falseA: map<int, nat>, trail: seq<int>, k: nat, m: set<int>)
    requires k <= |trail|
  {
    forall j :: 0 <= j < k ==> Get(falseA, trail[j]) != 0 && (Get(falseA, trail[j]) == MARK <==> trail[j] in m)
  }

  /** Entries from k on were popped: forced ones are plainly false, the rest open. */
  ghost predicate PoppedAre(falseA: map<int, nat>, trail: seq<int>, k: nat, forced: nat)
    requires k <= |trail|
  {
    (forall j :: k <= j < |trail| ==> Get(falseA, trail[j]) == if j < forced then 1 else 0) &&
    forall lit :: lit !in trail && lit != 0 ==> Get(falseA, lit) == 0
  }

  function MarkAll(falseA: map<int, nat>, c: Clause): map<int, nat>
    decreases |c|
  {
    if c == [] then falseA else MarkAll(falseA[c[0] := MARK], c[1..])
  }

  lemma {:induction false} MarkAllGet(falseA: map<int, nat>, c: Clause, lit: int)
    ensures Get(MarkAll(falseA, c), lit) == if lit in c then MARK else Get(falseA, lit)
    decreases |c|
  {
    if c != [] {
      MarkAllGet(falseA[c[0] := MARK], c[1..], lit);
    }
  }

  /** Marking literals that lie below k on a trail without repetition. */
  lemma MarkBelow(falseA: map<int, nat>, trail: seq<int>, k: nat, forced: nat, m: set<int>, c: Clause)
    requires k <= |trail| && NoDup(trail) && LitSet(c) <= LitSet(trail[..k])
    requires MarkedAre(falseA, trail, k, m) && PoppedAre(falseA, trail, k, forced)
    ensures MarkedAre(MarkAll(falseA, c), trail, k, m + LitSet(c)) && PoppedAre(MarkAll(falseA, c), trail, k, forced)
  {
    var f := MarkAll(falseA, c);
    forall j | 0 <= j < k
      ensures Get(f, trail[j]) != 0 && (Get(f, trail[j]) == MARK <==> trail[j] in m + LitSet(c))
    {
      MarkAllGet(falseA, c, trail[j]);
    }
    forall j | k <= j < |trail| ensures Get(f, trail[j]) == if j < forced then 1 else 0 {
      MarkAllGet(falseA, c, trail[j]);
      assert trail[j] !in LitSet(trail[..k]);
    }
    forall lit | lit !in trail && lit != 0 ensures Get(f, lit) == 0 {
      MarkAllGet(falseA, c, lit);
      assert lit !in LitSet(trail[..k]);
    }
  }

  lemma AllMarkable(falseA: map<int, nat>, trail: seq<int>, forced: nat)
    requires FalseOk(falseA, trail)
    ensures MarkedAre(falseA, trail, |trail|, {}) && PoppedAre(falseA, trail, |trail|, forced)
  {
  }

  lemma MarkedAt(falseA: map<int, nat>, trail: seq<int>, k: nat, m: set<int>, j: nat)
    requires j < k <= |trail| && MarkedAre(falseA, trail, k, m)
    ensures Get(falseA, trail[j]) == MARK <==> trail[j] in m
  {
  }

  lemma WhyKept(reason: map<int, nat>, trail: seq<int>, forced: nat)
    ensures ReasonsKept(reason, trail, Why(reason, trail), |trail|, forced)
  {
  }

  lemma JustifiedAt(db: Database, trail: seq<int>, why: seq<nat>, assumed: set<int>, k: nat)
    requires Justified(db, trail, why, assumed) && k < |trail|
    ensures why[k] != 0 ==> why[k] in db && db[why[k]] != [] && Others(db[why[k]]) == LitSet(db[why[k]][1..]) &&
                            Others(db[why[k]]) <= LitSet(trail[..k])
  {
    assert why[k] == why[k];
  }

  /** Marking the reason of the literal at k and then popping it. */
  lemma MarkPop(falseA: map<int, nat>, trail: seq<int>, k: nat, forced: nat, m: set<int>, c: Clause, lit: int)
    requires k < |trail| && NoDup(trail) && LitSet(c) <= LitSet(trail[..k]) && lit == trail[k]
    requires MarkedAre(falseA, trail, k + 1, m) && PoppedAre(falseA, trail, k + 1, forced)
    ensures var f := MarkAll(falseA, c)[lit := if k < forced then 1 else 0];
            MarkedAre(f, trail, k, m + LitSet(c)) && PoppedAre(f, trail, k, forced)
  {
    assert LitSet(trail[..k]) <= LitSet(trail[..k + 1]);
    MarkBelow(falseA, trail, k + 1, forced, m, c);
    PopStep(MarkAll(falseA, c), trail, k + 1, forced, m + LitSet(c));
  }

  /** Popping position k - 1. */
  lemma PopStep(falseA: map<int, nat>, trail: seq<int>, k: nat, forced: nat, m: set<int>)
    requires 0 < k <= |trail| && NoDup(trail)
    requires MarkedAre(falseA, trail, k, m) && PoppedAre(falseA, trail, k, forced)
    ensures var f := falseA[trail[k - 1] := if k - 1 < forced then 1 else 0];
            MarkedAre(f, trail, k - 1, m) && PoppedAre(f, trail, k - 1, forced)
  {
  }

  /** Which reasons are still in place when position k was popped. */
  ghost predicate ReasonsKept(reason: map<int, nat>, trail: seq<int>, why: seq<nat>, k: nat, forced: nat)
    requires |why| == |trail|
  {
    forall j {:trigger why[j]} :: 0 <= j < |trail| && (j < k || j < forced) ==> Get(reason, Var(trail[j])) == why[j]
  }

  lemma ReasonPop(reason: map<int, nat>, trail: seq<int>, why: seq<nat>, k: nat, forced: nat)
    requires 0 < k <= |trail| == |why| && ReasonsKept(reason, trail, why, k, forced)
    requires NoDup(trail) && Consistent(LitSet(trail))
    ensures var r := if k - 1 >= forced then reason[Var(trail[k - 1]) := 0] else reason;
            ReasonsKept(r, trail, why, k - 1, forced)
  {
    forall j {:trigger why[j]} | 0 <= j < |trail| && (j < k - 1 || j < forced) && k - 1 >= forced
      ensures Var(trail[j]) != Var(trail[k - 1])
    {
      assert trail[j] in LitSet(trail) && trail[k - 1] in LitSet(trail);
    }
  }

  lemma ReasonsWhy(reason: map<int, nat>, trail: seq<int>, why: seq<nat>, forced: nat)
    requires forced <= |trail| == |why| && ReasonsKept(reason, trail, why, 0, forced)
    ensures Why(reason, trail[..forced]) == why[..forced]
  {
    assert forall j :: 0 <= j < forced ==> why[j] == Get(reason, Var(trail[j]));
  }

  lemma WalkZero(cls: Database, trail: seq<int>, why: Reasons, m: set<int>)
    requires |trail| == |why|
    ensures Walk(cls, trail, why, 0, m) == []
  {
  }

  lemma WalkStep(cls: Database, trail: seq<int>, why: Reasons, k: nat, m: set<int>)
    requires 0 < k <= |trail| == |why|
    ensures var taken := trail[k - 1] in m && why[k - 1] != 0 && why[k - 1] in cls;
            Walk(cls, trail, why, k, m) ==
            if taken then [why[k - 1]] + Walk(cls, trail, why, k - 1, m + Others(cls[why[k - 1]]))
            else Walk(cls, trail, why, k - 1, m)
  {
  }

  /** Everything popped leaves exactly the forced literals false. */
  lemma AllPopped(falseA: map<int, nat>, trail: seq<int>, forced: nat)
    requires forced <= |trail| && PoppedAre(falseA, trail, 0, forced)
    requires 0 !in trail && NoDup(trail) && Consistent(LitSet(trail))
    ensures FalseOk(falseA, trail[..forced])
  {
    forall lit | lit != 0 ensures (Get(falseA, lit) != 0 <==> lit in trail[..forced]) && Get(falseA, lit) != MARK {
      if lit in trail {
        var j :| 0 <= j < |trail| && trail[j] == lit;
      }
    }
    forall y | y in LitSet(trail[..forced]) ensures -y !in LitSet(trail[..forced]) {
      assert y in LitSet(trail) && -y !in LitSet(trail);
    }
  }

  /** The core flag of one watch. */
  lemma CoreFlag(db: Database, w: map<int, seq<Watch>>, lit: int, i: nat)
    requires WatchOk(db, w) && i < |List(w, lit)|
    ensures WatchOk(db, w[lit := List(w, lit)[i := Watch(List(w, lit)[i].id, true)]])
  {
    var l := List(w, lit);
    var r := l[i := Watch(l[i].id, true)];
    assert forall j :: 0 <= j < |l| ==> r[j].id == l[j].id;
    forall id ensures Listed(r, id) <==> Listed(l, id) {
      if Listed(l, id) {
        var j :| 0 <= j < |l| && l[j].id == id;
        assert r[j].id == id;
      }
    }
    var w' := w[lit := r];
    forall y ensures DistinctIds(List(w', y)) && forall id :: Listed(List(w', y), id) <==> Watches(db, id, y) {
      assert DistinctIds(List(w, y));
    }
  }

  lemma JustifiedMore(db: Database, stack: seq<int>, why: seq<nat>, a: set<int>, b: set<int>)
    requires Justified(db, stack, why, a) && a <= b
    ensures Justified(db, stack, why, b)
  {
  }

  lemma InPrefix(c: Clause, size: nat, i: nat)
    requires i < size <= |c|
    ensures c[i] in LitSet(c[..size])
  {
    assert c[..size][i] == c[i];
  }

  /** A clause that becomes active and the flags of its watches. */
  lemma CoreMarked(db: Database, w: map<int, seq<Watch>>, w1: map<int, seq<Watch>>, w2: map<int, seq<Watch>>,
                   active: set<int>, id: int)
    requires CoreIs(w, active) && id in db && WatchOk(db, w2)
    requires if |db[id]| < 2 then w1 == w2 == w else Flagged(w, w1, db[id][0], id) && Flagged(w1, w2, db[id][1], id)
    ensures CoreIs(w2, active + {id})
  {
    hide List;
    forall lit, e | e in List(w2, lit) ensures e.core <==> e.id in active + {id} {
      if e.id == id {
        var j :| 0 <= j < |List(w2, lit)| && List(w2, lit)[j] == e;
        assert Listed(List(w2, lit), id);
        assert Watches(db, id, lit);
      }
    }
  }

  /** Only the flag of one entry is set. */
  ghost predicate Flagged(w: map<int, seq<Watch>>, w': map<int, seq<Watch>>, lit: int, id: int) {
    forall y, e :: e in List(w', y) ==> if y == lit && e.id == id then e.core else e in List(w, y)
  }

  lemma ActiveFirst(deps0: seq<int>, deps: seq<int>, id: int)
    requires Ids(deps) == Ids(deps0) + [id]
    ensures Ids(deps)[|deps0|..] == [id] && LitSet(Ids(deps)[|deps0|..]) == {id}
  {
  }

  /** The clauses recorded in two stages. */
  lemma ActiveMore(a0: set<int>, deps0: seq<int>, deps: seq<int>, more: seq<int>)
    requires Ids(deps0) <= Ids(deps) <= Ids(more)
    ensures a0 + LitSet(Ids(deps)[|deps0|..]) + LitSet(Ids(more)[|deps|..]) == a0 + LitSet(Ids(more)[|deps0|..])
  {
    var a, b, c := Ids(deps)[|deps0|..], Ids(more)[|deps|..], Ids(more)[|deps0|..];
    assert c == a + b;
    forall x | x in c ensures x in a || x in b {
    }
  }

  // ----- undoing assumptions -----

  /** Exactly the first k trail literals are false. */
  ghost predicate Undone(falseA: map<int, nat>, trail: seq<int>, k: nat)
    requires k <= |trail|
  {
    forall lit :: lit != 0 ==> (Get(falseA, lit) != 0 <==> lit in trail[..k]) && Get(falseA, lit) != MARK
  }

  lemma UndoStart(falseA: map<int, nat>, reason: map<int, nat>, trail: seq<int>, forced: nat)
    requires FalseOk(falseA, trail)
    ensures Undone(falseA, trail, |trail|) && ReasonsKept(reason, trail, Why(reason, trail), |trail|, forced)
  {
    assert trail[..|trail|] == trail;
  }

  lemma UndoStep(falseA: map<int, nat>, trail: seq<int>, k: nat)
    requires k < |trail| && NoDup(trail) && Undone(falseA, trail, k + 1)
    ensures Undone(falseA[trail[k] := 0], trail, k)
  {
    var f := falseA[trail[k] := 0];
    assert trail[..k + 1] == trail[..k] + [trail[k]] && trail[k] !in trail[..k];
    forall lit | lit != 0 ensures (Get(f, lit) != 0 <==> lit in trail[..k]) && Get(f, lit) != MARK {
      assert lit in trail[..k + 1] <==> lit in trail[..k] || lit == trail[k];
      assert Get(f, lit) == if lit == trail[k] then 0 else Get(falseA, lit);
    }
  }

  lemma UndoneFalse(falseA: map<int, nat>, trail: seq<int>, k: nat)
    requires k <= |trail| && Undone(falseA, trail, k) && 0 !in trail && NoDup(trail) && Consistent(LitSet(trail))
    ensures FalseOk(falseA, trail[..k])
  {
    forall y | y in LitSet(trail[..k]) ensures -y !in LitSet(trail[..k]) {
      assert y in LitSet(trail) && -y !in LitSet(trail);
    }
  }

  lemma ForcedWhy(reason: map<int, nat>, trail: seq<int>, why: seq<nat>, forced: nat)
    requires forced <= |trail| == |why| && ReasonsKept(reason, trail, why, forced, forced)
    ensures Why(reason, trail[..forced]) == why[..forced]
  {
    assert forall j :: 0 <= j < forced ==> why[j] == Get(reason, Var(trail[j]));
  }

  lemma StackConsistent(falseA: map<int, nat>, stack: seq<int>)
    requires FalseOk(falseA, stack)
    ensures Consistent(LitSet(stack))
  {
  }

  // ----- the printed hints -----

  /** Without resolution candidates a check is its unit propagation chain. */
  lemma CheckIsChain(cls: Database, last: int, intro: int, lits: Clause, hints: seq<int>)
    requires forall h :: h in hints ==> h > 0
    ensures Check(cls, last, intro, lits, hints) == Chain(cls, Marks(LitSet(lits), LitSet(lits)), hints).0
  {
    SkipShortens(hints);
  }

  lemma PrintedHints(db0: Database, db: Database, trail: seq<int>, why: seq<nat>, assumed: set<int>, lits: Clause,
                     conflict: int, deps: seq<int>, hints: seq<int>)
    requires Permuted(db0, db) && Justified(db, trail, why, assumed)
    requires assumed <= LitSet(lits) <= LitSet(trail) && Consistent(LitSet(trail))
    requires conflict > 0 && conflict in db && LitSet(db[conflict]) <= LitSet(trail)
    requires Ids(deps) == [conflict] + Walk(db, trail, why, |trail|, LitSet(db[conflict])) &&
             hints == Reverse(Ids(deps))
    ensures forall last, intro :: Check(db0, last, intro, lits, hints) == Conflict
  {
    var rest := Walk(db, trail, why, |trail|, LitSet(db[conflict]));
    WalkPositive(db, trail, why, |trail|, LitSet(db[conflict]));
    assert hints == Reverse(rest) + [conflict];
    forall last, intro ensures Check(db0, last, intro, lits, hints) == Conflict {
      HintsAccepted(db, trail, why, assumed, lits, conflict, last, intro);
      CheckIsChain(db, last, intro, lits, hints);
      CheckIsChain(db0, last, intro, lits, hints);
      ChainPermuted(db0, db, Marks(LitSet(lits), LitSet(lits)), hints);
    }
  }

  lemma AllOnStack(lits: Clause, size: nat, before: seq<int>, after: seq<int>)
    requires size <= |lits| && before + lits[..size] <= after
    requires forall i :: 0 <= i < |lits| ==> (lits[i] in before <==> size <= i)
    ensures LitSet(lits[..size]) <= LitSet(lits) <= LitSet(after)
  {
    forall x | x in lits ensures x in after {
      var i :| 0 <= i < |lits| && lits[i] == x;
      if i < size {
        assert lits[..size][i] == x && x in before + lits[..size];
      } else {
        assert x in before + lits[..size];
      }
    }
  }

  // ----- what propagation has seen -----

  /** The watch of c beside lit. */
  function Partner(c: Clause, lit: int): int
    requires |c| >= 2
  {
    if c[0] == lit then c[1] else c[0]
  }

  /** The clause of an entry in the list of lit is satisfied by its other watch. */
  ghost predicate Handled(db: Database, e: Watch, lit: int, t: set<int>) {
    e.id in db && |db[e.id]| >= 2 && -Partner(db[e.id], lit) in t
  }

  /** Does the pass over core clauses see the entry? */
  predicate Early(prep: bool, e: Watch) {
    !prep && e.core
  }

  /** The falsified literals in early are done with their core clauses, those in late with
      the others; t are all falsified literals. */
  ghost predicate Progress(db: Database, w: map<int, seq<Watch>>, prep: bool, t: set<int>, early: set<int>,
                           late: set<int>) {
    forall lit, e :: e in List(w, lit) && lit in (if Early(prep, e) then early else late) ==> Handled(db, e, lit, t)
  }

  /** The first n entries of a list are done, as far as one pass sees them. */
  ghost predicate Scanned(db: Database, l: seq<Watch>, prep: bool, core: bool, lit: int, t: set<int>, n: nat) {
    forall j :: 0 <= j < n && j < |l| && Early(prep, l[j]) == core ==> Handled(db, l[j], lit, t)
  }

  /** A clause with a falsified watch in p is satisfied by its other watch. */
  ghost predicate Paired(db: Database, p: set<int>) {
    forall id :: id in db && |db[id]| >= 2 ==> PairOk(db[id], p)
  }

  ghost predicate PairOk(c: Clause, p: set<int>)
    requires |c| >= 2
  {
    (c[0] in p ==> -c[1] in p) && (c[1] in p ==> -c[0] in p)
  }

  ghost predicate UnitsTrue(db: Database, p: set<int>) {
    forall id :: id in db && |db[id]| == 1 ==> -db[id][0] in p
  }

  predicate WatchTrue(c: Clause, t: set<int>) {
    |c| >= 2 && (-c[0] in t || -c[1] in t)
  }

  /** Clauses satisfied by a watch are left alone. */
  ghost predicate SatisfiedKept(db: Database, db': Database, t: set<int>) {
    forall id :: id in db && WatchTrue(db[id], t) ==> id in db' && db'[id] == db[id]
  }

  /** Lists of falsified literals only lose entries. */
  ghost predicate ListsShrink(w: map<int, seq<Watch>>, w': map<int, seq<Watch>>, t: set<int>) {
    forall lit, e :: lit in t && e in List(w', lit) ==> e in List(w, lit)
  }

  lemma HandledKept(db: Database, db': Database, e: Watch, lit: int, t: set<int>, t': set<int>)
    requires Handled(db, e, lit, t) && SatisfiedKept(db, db', t) && t <= t'
    ensures Handled(db', e, lit, t')
  {
    assert WatchTrue(db[e.id], t);
  }

  lemma ProgressKept(db: Database, w: map<int, seq<Watch>>, db': Database, w': map<int, seq<Watch>>, prep: bool,
                     t: set<int>, t': set<int>, early: set<int>, late: set<int>)
    requires Progress(db, w, prep, t, early, late) && early <= t && late <= t && t <= t'
    requires SatisfiedKept(db, db', t) && ListsShrink(w, w', t)
    ensures Progress(db', w', prep, t', early, late)
  {
    hide Handled, SatisfiedKept, List;
    forall lit, e | e in List(w', lit) && lit in (if Early(prep, e) then early else late)
      ensures Handled(db', e, lit, t')
    {
      assert e in List(w, lit);
      HandledKept(db, db', e, lit, t, t');
    }
  }

  lemma ScannedKept(db: Database, db': Database, l: seq<Watch>, prep: bool, core: bool, lit: int, t: set<int>,
                    t': set<int>, n: nat)
    requires Scanned(db, l, prep, core, lit, t, n) && SatisfiedKept(db, db', t) && t <= t'
    ensures Scanned(db', l, prep, core, lit, t', n)
  {
    hide Handled, SatisfiedKept;
    forall j | 0 <= j < n && j < |l| && Early(prep, l[j]) == core ensures Handled(db', l[j], lit, t') {
      HandledKept(db, db', l[j], lit, t, t');
    }
  }

  /** A list that is done in one pass. */
  lemma ProgressGrows(db: Database, w: map<int, seq<Watch>>, prep: bool, t: set<int>, early: set<int>,
                      late: set<int>, lit: int, core: bool)
    requires Progress(db, w, prep, t, early, late)
    requires Scanned(db, List(w, lit), prep, core, lit, t, |List(w, lit)|)
    ensures core ==> Progress(db, w, prep, t, early + {lit}, late)
    ensures !core ==> Progress(db, w, prep, t, early, late + {lit})
  {
    hide Handled, List;
    forall e | e in List(w, lit) && Early(prep, e) == core ensures Handled(db, e, lit, t) {
      var j :| 0 <= j < |List(w, lit)| && List(w, lit)[j] == e;
    }
  }

  /** Where propagation was complete it need not look again. */
  lemma PairedProgress(db: Database, w: map<int, seq<Watch>>, prep: bool, p: set<int>, t: set<int>)
    requires WatchOk(db, w) && Paired(db, p) && p <= t
    ensures Progress(db, w, prep, t, p, p)
  {
    forall lit, e | e in List(w, lit) && lit in p ensures Handled(db, e, lit, t) {
      var i :| 0 <= i < |List(w, lit)| && List(w, lit)[i] == e;
      ListedWatches(db, w, lit, i);
      assert PairOk(db[e.id], p);
    }
  }

  /** With every falsified literal done in both passes propagation is complete. */
  lemma ProgressPaired(db: Database, w: map<int, seq<Watch>>, prep: bool, t: set<int>)
    requires WatchOk(db, w) && Progress(db, w, prep, t, t, t) && DbOk(db)
    ensures Paired(db, t)
  {
    forall id, lit | Watches(db, id, lit) && lit in t ensures -Partner(db[id], lit) in t {
      assert Listed(List(w, lit), id);
      var i :| 0 <= i < |List(w, lit)| && List(w, lit)[i].id == id;
      assert Handled(db, List(w, lit)[i], lit, t);
    }
    forall id | id in db && |db[id]| >= 2 ensures PairOk(db[id], t) {
      assert Watches(db, id, db[id][0]) && Watches(db, id, db[id][1]);
      assert db[id][0] != db[id][1];
    }
  }

  // ----- one visit -----

  /** Exchanging the watches. */
  lemma ArrangedPaired(db: Database, id: int, lit: int, p: set<int>)
    requires Paired(db, p) && Watches(db, id, lit)
    ensures Paired(db[id := Arrange(db[id], lit)], p)
  {
    assert PairOk(db[id], p);
  }

  /** A new watch that is not falsified, when the other one is not true. */
  lemma MovedPaired(db: Database, id: int, lit: int, k: nat, p: set<int>, t: set<int>)
    requires Paired(db, p) && Watches(db, id, lit) && p <= t && lit in t && -lit !in t
    requires 2 <= k < |db[id]| && Arrange(db[id], lit)[k] !in t
    ensures var d := Arrange(db[id], lit); Paired(db[id := d[1 := d[k]][k := lit]], p)
  {
    assert PairOk(db[id], p);
  }

  lemma OthersSatisfied(db: Database, id: int, d: Clause, t: set<int>)
    requires id in db && !WatchTrue(db[id], t)
    ensures SatisfiedKept(db, db[id := d], t)
  {
  }

  lemma SatisfiedJoin(a: Database, b: Database, c: Database, t: set<int>, t': set<int>)
    requires SatisfiedKept(a, b, t) && SatisfiedKept(b, c, t') && t <= t'
    ensures SatisfiedKept(a, c, t)
  {
  }

  /** A moved entry goes to the list of a literal that is not falsified. */
  lemma MovedShrink(w: map<int, seq<Watch>>, lit: int, i: nat, x: int, t: set<int>)
    requires i < |List(w, lit)| && x !in t && x != lit
    ensures var w' := MovedLists(w, lit, i, x);
            ListsShrink(w, w', t) && (forall y :: y in t && y != lit ==> List(w', y) == List(w, y)) &&
            List(w', lit) == List(w, lit)[i := List(w, lit)[|List(w, lit)| - 1]][..|List(w, lit)| - 1]
  {
    var l := List(w, lit);
    var r := l[i := l[|l| - 1]][..|l| - 1];
    forall e | e in r ensures e in l {
      var j :| 0 <= j < |r| && r[j] == e;
    }
  }

  lemma ShrinkJoin(a: map<int, seq<Watch>>, b: map<int, seq<Watch>>, c: map<int, seq<Watch>>, t: set<int>, t': set<int>)
    requires ListsShrink(a, b, t) && ListsShrink(b, c, t') && t <= t'
    ensures ListsShrink(a, c, t)
  {
    hide List;
  }

  lemma ScannedDropped(db: Database, l: seq<Watch>, prep: bool, core: bool, lit: int, t: set<int>, i: nat)
    requires i < |l| && Scanned(db, l, prep, core, lit, t, i)
    ensures Scanned(db, l[i := l[|l| - 1]][..|l| - 1], prep, core, lit, t, i)
  {
    hide Handled;
    var r := l[i := l[|l| - 1]][..|l| - 1];
    assert forall j :: 0 <= j < i && j < |r| ==> r[j] == l[j];
  }

  lemma ScannedMore(db: Database, l: seq<Watch>, prep: bool, core: bool, lit: int, t: set<int>, i: nat)
    requires i < |l| && Scanned(db, l, prep, core, lit, t, i)
    requires Early(prep, l[i]) == core ==> Handled(db, l[i], lit, t)
    ensures Scanned(db, l, prep, core, lit, t, i + 1)
  {
    hide Handled;
  }

  /** The core flags of the watches are those of the clauses. */
  ghost predicate CoreIs(w: map<int, seq<Watch>>, active: set<int>) {
    forall lit, e :: e in List(w, lit) ==> (e.core <==> e.id in active)
  }

  ghost predicate CoreKept(w: map<int, seq<Watch>>, w': map<int, seq<Watch>>) {
    forall a: set<int> :: CoreIs(w, a) ==> CoreIs(w', a)
  }

  lemma MovedCore(w: map<int, seq<Watch>>, lit: int, i: nat, x: int, a: set<int>)
    requires i < |List(w, lit)| && CoreIs(w, a)
    ensures CoreIs(MovedLists(w, lit, i, x), a)
  {
    var l := List(w, lit);
    var r, w' := l[i := l[|l| - 1]][..|l| - 1], MovedLists(w, lit, i, x);
    forall y, e | e in List(w', y) ensures e.core <==> e.id in a {
      if y == lit {
        assert List(w', y) == r;
        var j :| 0 <= j < |r| && r[j] == e;
        assert l[if j == i then |l| - 1 else j] == e && e in List(w, lit);
      } else if y == x && e !in List(w, x) {
        assert List(w', y) == List(w, x) + [l[i]];
        assert l[i] == e && e in List(w, lit);
      } else {
        assert e in List(w, y);
      }
    }
  }

  /** What visits in the list of lit leave of the clauses and the lists. */
  ghost predicate Advanced(db: Database, w: map<int, seq<Watch>>, db': Database, w': map<int, seq<Watch>>,
                           t: set<int>, lit: int, base: set<int>) {
    SatisfiedKept(db, db', t) && ListsShrink(w, w', t) &&
    (forall y :: y in t && y != lit ==> List(w', y) == List(w, y)) && (Paired(db, base) ==> Paired(db', base)) &&
    CoreKept(w, w')
  }

  lemma AdvancedRefl(db: Database, w: map<int, seq<Watch>>, t: set<int>, lit: int, base: set<int>)
    ensures Advanced(db, w, db, w, t, lit, base)
  {
  }

  lemma AdvancedJoin(db: Database, w: map<int, seq<Watch>>, db1: Database, w1: map<int, seq<Watch>>, db2: Database,
                     w2: map<int, seq<Watch>>, t: set<int>, t1: set<int>, lit: int, base: set<int>)
    requires Advanced(db, w, db1, w1, t, lit, base) && Advanced(db1, w1, db2, w2, t1, lit, base) && t <= t1
    ensures Advanced(db, w, db2, w2, t, lit, base)
  {
    hide SatisfiedKept, ListsShrink, Paired, List, CoreIs;
    SatisfiedJoin(db, db1, db2, t, t1);
    ShrinkJoin(w, w1, w2, t, t1);
  }

  lemma AdvancedKept(db: Database, w: map<int, seq<Watch>>, lit: int, id: int, t: set<int>, base: set<int>)
    requires Watches(db, id, lit) && !WatchTrue(db[id], t)
    ensures Advanced(db, w, db[id := Arrange(db[id], lit)], w, t, lit, base)
  {
    OthersSatisfied(db, id, Arrange(db[id], lit), t);
    if Paired(db, base) {
      ArrangedPaired(db, id, lit, base);
    }
  }

  lemma AdvancedMoved(db: Database, w: map<int, seq<Watch>>, lit: int, i: nat, k: nat, t: set<int>, base: set<int>)
    requires i < |List(w, lit)|
    requires var id := List(w, lit)[i].id;
             Watches(db, id, lit) && !WatchTrue(db[id], t) && 2 <= k < |db[id]| && Arrange(db[id], lit)[k] !in t
    requires lit in t && -lit !in t && base <= t
    ensures var id := List(w, lit)[i].id; var d := Arrange(db[id], lit);
            Advanced(db, w, db[id := d[1 := d[k]][k := lit]], MovedLists(w, lit, i, d[k]), t, lit, base)
  {
    var id := List(w, lit)[i].id;
    var d := Arrange(db[id], lit);
    OthersSatisfied(db, id, d[1 := d[k]][k := lit], t);
    MovedShrink(w, lit, i, d[k], t);
    forall a | CoreIs(w, a) ensures CoreIs(MovedLists(w, lit, i, d[k]), a) {
      MovedCore(w, lit, i, d[k], a);
    }
    hide CoreIs, MovedLists;
    if Paired(db, base) {
      MovedPaired(db, id, lit, k, base, t);
    }
  }

  lemma AdvancedFacts(db: Database, w: map<int, seq<Watch>>, db': Database, w': map<int, seq<Watch>>, t: set<int>,
                      lit: int, base: set<int>)
    requires Advanced(db, w, db', w', t, lit, base)
    ensures Paired(db, base) ==> Paired(db', base)
    ensures CoreKept(w, w')
  {
  }

  lemma LitSetGrows(a: seq<int>, b: seq<int>)
    requires a <= b
    ensures LitSet(a) <= LitSet(b)
  {
    forall x | x in a ensures x in b {
      var i :| 0 <= i < |a| && a[i] == x;
      assert b[i] == x;
    }
  }

  lemma SatisfiedHandled(falseA: map<int, nat>, stack: seq<int>, db: Database, e: Watch, lit: int)
    requires FalseOk(falseA, stack) && Watches(db, e.id, lit) && lit in stack
    requires -db[e.id][0] in stack || -db[e.id][1] in stack
    ensures Handled(db, e, lit, LitSet(stack))
  {
    StackFacts(falseA, stack);
  }

  lemma ScannedNone(db: Database, l: seq<Watch>, prep: bool, core: bool, lit: int, t: set<int>)
    ensures Scanned(db, l, prep, core, lit, t, 0)
  {
  }

  /** Entries that were done stay done. */
  lemma ScannedAdvanced(db: Database, w: map<int, seq<Watch>>, db': Database, w': map<int, seq<Watch>>, l: seq<Watch>,
                        prep: bool, core: bool, lit: int, at: int, t: set<int>, t': set<int>, n: nat, base: set<int>)
    requires Advanced(db, w, db', w', t, at, base) && t <= t' && Scanned(db, l, prep, core, lit, t, n)
    ensures Scanned(db', l, prep, core, lit, t', n)
  {
    ScannedKept(db, db', l, prep, core, lit, t, t', n);
  }

  lemma ProgressAdvanced(db: Database, w: map<int, seq<Watch>>, db': Database, w': map<int, seq<Watch>>, prep: bool,
                         lit: int, stack: seq<int>, stack': seq<int>, early: nat, late: nat, base: set<int>)
    requires Advanced(db, w, db', w', LitSet(stack), lit, base) && stack <= stack'
    requires early <= |stack| && late <= |stack|
    requires Progress(db, w, prep, LitSet(stack), LitSet(stack[..early]), LitSet(stack[..late]))
    ensures Progress(db', w', prep, LitSet(stack'), LitSet(stack'[..early]), LitSet(stack'[..late]))
  {
    LitSetGrows(stack, stack');
    LitSetGrows(stack[..early], stack);
    LitSetGrows(stack[..late], stack);
    assert stack'[..early] == stack[..early] && stack'[..late] == stack[..late];
    ProgressKept(db, w, db', w', prep, LitSet(stack), LitSet(stack'), LitSet(stack[..early]), LitSet(stack[..late]));
  }

  lemma ProgressNext(db: Database, w: map<int, seq<Watch>>, prep: bool, stack: seq<int>, early: nat, late: nat,
                     core: bool)
    requires early <= |stack| && late <= |stack| && (if core then early else late) < |stack|
    requires Progress(db, w, prep, LitSet(stack), LitSet(stack[..early]), LitSet(stack[..late]))
    requires var lit := stack[if core then early else late];
             Scanned(db, List(w, lit), prep, core, lit, LitSet(stack), |List(w, lit)|)
    ensures core ==> Progress(db, w, prep, LitSet(stack), LitSet(stack[..early + 1]), LitSet(stack[..late]))
    ensures !core ==> Progress(db, w, prep, LitSet(stack), LitSet(stack[..early]), LitSet(stack[..late + 1]))
  {
    var n := if core then early else late;
    ProgressGrows(db, w, prep, LitSet(stack), LitSet(stack[..early]), LitSet(stack[..late]), stack[n], core);
    assert stack[..n + 1] == stack[..n] + [stack[n]];
    assert LitSet(stack[..n + 1]) == LitSet(stack[..n]) + {stack[n]};
  }

  lemma ScannedAll(db: Database, l: seq<Watch>, prep: bool, core: bool, lit: int, t: set<int>, n: nat)
    requires Scanned(db, l, prep, core, lit, t, n) && n >= |l|
    ensures Scanned(db, l, prep, core, lit, t, |l|)
  {
  }

  /** Where both passes stand: the interrupted list, if any, is that of the literal at position
      at, and its first resume entries are done. */
  ghost predicate Seen(db: Database, w: map<int, seq<Watch>>, prep: bool, stack: seq<int>, early: nat, late: nat,
                       saved: int, resume: nat, at: nat, base: set<int>, clean: bool) {
    early <= |stack| && late <= |stack| && base <= LitSet(stack) &&
    (clean ==>
       Paired(db, base) && Progress(db, w, prep, LitSet(stack), LitSet(stack[..early]), LitSet(stack[..late]))) &&
    (saved != 0 ==>
       at < early && at <= late && stack[at] == saved &&
       (at == late ==> Scanned(db, List(w, saved), prep, false, saved, LitSet(stack), resume)))
  }

  lemma SeenStart(db: Database, w: map<int, seq<Watch>>, prep: bool, stack: seq<int>, n: nat)
    requires n <= |stack| && WatchOk(db, w)
    ensures var base := LitSet(stack[..n]); Seen(db, w, prep, stack, n, n, 0, 0, 0, base, Paired(db, base))
  {
    LitSetGrows(stack[..n], stack);
    if Paired(db, LitSet(stack[..n])) {
      PairedProgress(db, w, prep, LitSet(stack[..n]), LitSet(stack));
    }
  }

  /** Where the scan of the next list starts. */
  lemma SeenFrom(db: Database, w: map<int, seq<Watch>>, prep: bool, falseA: map<int, nat>, stack: seq<int>,
                 early: nat, late: nat, saved: int, resume: nat, at: nat, base: set<int>, clean: bool, core: bool)
    requires Seen(db, w, prep, stack, early, late, saved, resume, at, base, clean) && FalseOk(falseA, stack)
    requires (if core then early else late) < |stack|
    ensures var lit := stack[if core then early else late];
            base <= LitSet(stack) && lit in stack && (lit == saved ==> !core && at == late) &&
            Scanned(db, List(w, lit), prep, core, lit, LitSet(stack), if lit == saved then resume else 0)
  {
    var n := if core then early else late;
    assert stack[n] in stack && stack[n] != 0;
    ScannedNone(db, List(w, stack[n]), prep, core, stack[n], LitSet(stack));
    assert stack[n] == saved ==> n == at;
  }

  /** The scan of another list keeps what was seen. */
  lemma SeenAfter(db: Database, w: map<int, seq<Watch>>, db': Database, w': map<int, seq<Watch>>, prep: bool,
                  stack: seq<int>, stack': seq<int>, early: nat, late: nat, saved: int, resume: nat, at: nat,
                  base: set<int>, clean: bool, lit: int)
    requires Seen(db, w, prep, stack, early, late, saved, resume, at, base, clean) && stack <= stack'
    requires Advanced(db, w, db', w', LitSet(stack), lit, base)
    requires lit == saved ==> at == late
    ensures Seen(db', w', prep, stack', early, late, if lit == saved then 0 else saved, resume, at, base, clean)
  {
    LitSetGrows(stack, stack');
    if clean {
      ProgressAdvanced(db, w, db', w', prep, lit, stack, stack', early, late, base);
    }
    if saved != 0 && lit != saved {
      assert stack[at] in LitSet(stack);
      assert List(w', saved) == List(w, saved);
      if at == late {
        ScannedAdvanced(db, w, db', w', List(w, saved), prep, false, saved, lit, LitSet(stack), LitSet(stack'), resume,
                        base);
      }
    }
  }

  /** A list that was scanned to its end. */
  lemma SeenDone(db: Database, w: map<int, seq<Watch>>, prep: bool, stack: seq<int>, early: nat, late: nat,
                 saved: int, resume: nat, at: nat, base: set<int>, clean: bool, core: bool)
    requires Seen(db, w, prep, stack, early, late, saved, resume, at, base, clean)
    requires (if core then early else late) < |stack|
    requires var lit := stack[if core then early else late];
             Scanned(db, List(w, lit), prep, core, lit, LitSet(stack), |List(w, lit)|)
    ensures Seen(db, w, prep, stack, if core then early + 1 else early, if core then late else late + 1, saved, resume,
                 at, base, clean)
  {
    if clean {
      ProgressNext(db, w, prep, stack, early, late, core);
    }
  }

  /** A list that was interrupted. */
  lemma SeenFlipped(db: Database, w: map<int, seq<Watch>>, prep: bool, stack: seq<int>, early: nat, late: nat,
                    saved: int, resume: nat, at: nat, base: set<int>, clean: bool, next: nat)
    requires Seen(db, w, prep, stack, early, late, saved, resume, at, base, clean) && late < early
    requires Scanned(db, List(w, stack[late]), prep, false, stack[late], LitSet(stack), next)
    ensures Seen(db, w, prep, stack, early, late, stack[late], next, late, base, clean)
  {
  }

  /** An interrupted list that was resumed and finished. */
  lemma SeenPast(db: Database, w: map<int, seq<Watch>>, prep: bool, stack: seq<int>, early: nat, late: nat,
                 saved: int, resume: nat, at: nat, base: set<int>, clean: bool)
    requires Seen(db, w, prep, stack, early, late + 1, 0, resume, at, base, clean)
    requires at == late < early && stack[at] == saved
    ensures Seen(db, w, prep, stack, early, late + 1, saved, resume, at, base, clean)
  {
  }

  lemma SeenAll(db: Database, w: map<int, seq<Watch>>, prep: bool, stack: seq<int>, saved: int, resume: nat, at: nat,
                base: set<int>)
    requires Seen(db, w, prep, stack, |stack|, |stack|, saved, resume, at, base, true) && WatchOk(db, w) && DbOk(db)
    ensures Paired(db, base) && Paired(db, LitSet(stack))
  {
    assert stack[..|stack|] == stack;
    ProgressPaired(db, w, prep, LitSet(stack));
  }

  lemma SeenBase(db: Database, w: map<int, seq<Watch>>, prep: bool, stack: seq<int>, early: nat, late: nat,
                 saved: int, resume: nat, at: nat, base: set<int>, clean: bool)
    requires Seen(db, w, prep, stack, early, late, saved, resume, at, base, clean)
    ensures clean ==> Paired(db, base)
  {
  }

  // ----- propagation as a decision -----

  function SetsOf(db: Database): DrupSpec.Clauses {
    map id: nat | id in db :: LitSet(db[id])
  }

  /** The literals made true by falsifying those of s. */
  function Opposite(s: set<int>): set<int> {
    set y | y in s :: -y
  }

  /** Propagation is complete: no clause is unit or falsified. */
  lemma PairedClosed(db: Database, p: set<int>)
    requires DbOk(db) && Paired(db, p) && UnitsTrue(db, p)
    ensures DrupSpec.Closed(SetsOf(db), Opposite(p))
  {
    forall id | id in SetsOf(db) ensures DrupSpec.Settled(SetsOf(db)[id], Opposite(p)) {
      var c := db[id];
      assert c[0] in SetsOf(db)[id];
      if |c| == 1 {
        assert -(-c[0]) in Opposite(p);
      } else {
        assert PairOk(c, p) && c[1] in SetsOf(db)[id] && c[0] != c[1];
        if c[0] in p {
          assert -(-c[1]) in Opposite(p);
        } else if c[1] in p {
          assert -(-c[0]) in Opposite(p);
        } else {
          OppositeIn(p, c[0]);
          OppositeIn(p, c[1]);
        }
      }
    }
  }

  lemma OppositeIn(p: set<int>, x: int)
    ensures x in p <==> -x in Opposite(p)
  {
    if -x in Opposite(p) {
      var y :| y in p && -y == -x;
    }
  }

  lemma OppositeClash(p: set<int>)
    requires Consistent(p)
    ensures !DrupSpec.Clash(Opposite(p))
  {
    forall x | x in Opposite(p) ensures -x !in Opposite(p) {
      OppositeIn(p, -x);
      OppositeIn(p, x);
    }
  }

  lemma OppositeGrows(p: set<int>, q: set<int>)
    requires p <= q
    ensures Opposite(p) <= Opposite(q)
  {
  }

  lemma SetsPermuted(db: Database, db': Database)
    requires Permuted(db, db')
    ensures SetsOf(db) == SetsOf(db')
  {
    forall id: nat | id in db ensures LitSet(db[id]) == LitSet(db'[id]) {
      assert multiset(db[id]) == multiset(db'[id]);
      forall x ensures x in db[id] <==> x in db'[id] {
        assert (x in db[id] <==> x in multiset(db[id])) && (x in db'[id] <==> x in multiset(db'[id]));
      }
    }
  }

  lemma UnitsPermuted(db: Database, db': Database, p: set<int>, q: set<int>)
    requires Permuted(db, db') && UnitsTrue(db, p) && p <= q
    ensures UnitsTrue(db', q)
  {
    forall id | id in db' && |db'[id]| == 1 ensures -db'[id][0] in q {
      assert |multiset(db[id])| == |multiset(db'[id])|;
      assert db[id] == [db[id][0]] && db'[id] == [db'[id][0]];
      assert db'[id][0] in multiset(db[id]);
    }
  }

  /** The stack is a derivation from its assumptions. */
  lemma {:induction false} JustifiedSteps(db: Database, stack: seq<int>, why: seq<nat>, assumed: set<int>)
    returns (steps: seq<int>)
    requires Justified(db, stack, why, assumed)
    ensures DrupSpec.Derivation(SetsOf(db), Opposite(assumed), steps)
    ensures Opposite(LitSet(stack)) <= Opposite(assumed) + LitSet(steps)
  {
    if stack == [] {
      return [];
    }
    hide LitSet, Others, DrupSpec.Derivation, DrupSpec.Unit;
    var n := |stack| - 1;
    JustifiedInit(db, stack, why, assumed);
    var init := JustifiedSteps(db, stack[..n], why[..n], assumed);
    assert stack == stack[..n] + [stack[n]];
    OppositeLast(stack, n);
    if why[n] == 0 {
      OppositeIn(assumed, stack[n]);
      return init;
    }
    ReasonUnit(db, stack, why, assumed, Opposite(assumed) + LitSet(init));
    DrupSpec.DerivationAppend(SetsOf(db), Opposite(assumed), init, -stack[n]);
    steps := init + [-stack[n]];
    LitSetAppend(init, -stack[n]);
  }

  lemma JustifiedInit(db: Database, stack: seq<int>, why: seq<nat>, assumed: set<int>)
    requires Justified(db, stack, why, assumed) && stack != []
    ensures Justified(db, stack[..|stack| - 1], why[..|stack| - 1], assumed)
    ensures why[|stack| - 1] == 0 ==> stack[|stack| - 1] in assumed
  {
    var n := |stack| - 1;
    hide LitSet;
    assert why[n] == 0 ==> stack[n] in assumed;
    forall k {:trigger why[..n][k]} | 0 <= k < n
      ensures if why[..n][k] == 0 then stack[..n][k] in assumed
              else why[..n][k] in db && db[why[..n][k]] != [] && db[why[..n][k]][0] == -stack[..n][k] &&
                   Others(db[why[..n][k]]) <= LitSet(stack[..n][..k])
    {
      assert why[k] == why[..n][k] && stack[..n][..k] == stack[..k];
    }
  }

  lemma LitSetAppend(s: seq<int>, x: int)
    ensures LitSet(s + [x]) == LitSet(s) + {x}
  {
  }

  lemma OppositeLast(stack: seq<int>, n: nat)
    requires |stack| == n + 1
    ensures Opposite(LitSet(stack)) == Opposite(LitSet(stack[..n])) + {-stack[n]}
  {
    assert stack == stack[..n] + [stack[n]];
    LitSetAppend(stack[..n], stack[n]);
  }

  lemma ReasonUnit(db: Database, stack: seq<int>, why: seq<nat>, assumed: set<int>, t: set<int>)
    requires Justified(db, stack, why, assumed) && stack != []
    requires why[|stack| - 1] != 0 && Opposite(LitSet(stack[..|stack| - 1])) <= t
    ensures DrupSpec.Unit(SetsOf(db), t, -stack[|stack| - 1])
  {
    var n := |stack| - 1;
    var id: nat := why[n];
    var c := db[id];
    forall x | x in LitSet(c) && x != -stack[n] ensures -x in t {
      var j :| 0 <= j < |c| && c[j] == x;
      assert c[1..][j - 1] == x && x in Others(c);
      OppositeIn(LitSet(stack[..n]), x);
    }
    assert id in SetsOf(db) && c[0] in LitSet(c);
    assert DrupSpec.UnitIn(SetsOf(db)[id], t, -stack[n]);
  }

  /** A falsified clause is a conflict that unit propagation of the assumptions reaches. */
  lemma ConflictRup(db: Database, stack: seq<int>, why: seq<nat>, assumed: set<int>, id: int, base: set<int>)
    requires Justified(db, stack, why, assumed) && id > 0 && id in db && LitSet(db[id]) <= LitSet(stack)
    requires Opposite(assumed) <= base
    ensures DrupSpec.Rup(SetsOf(db), base)
  {
    var steps := JustifiedSteps(db, stack, why, assumed);
    var t := Opposite(LitSet(stack));
    forall x | x in LitSet(db[id]) ensures -x in t {
      OppositeIn(LitSet(stack), x);
    }
    var n: nat := id;
    assert n in SetsOf(db) && DrupSpec.FalseIn(SetsOf(db)[n], t);
    hide DrupSpec.Derivation, DrupSpec.Rup;
    DrupSpec.RefutesRup(SetsOf(db), Opposite(assumed), steps, t);
    DrupSpec.RupMonotone(SetsOf(db), SetsOf(db), Opposite(assumed), base);
  }

  /** So is a literal of the lemma that is true already, or the negation of another one. */
  lemma TautologyRup(db: Database, stack: seq<int>, why: seq<nat>, lits: Clause, i: nat)
    requires Justified(db, stack, why, {}) && i < |lits| && -lits[i] in stack + lits[..i]
    ensures DrupSpec.Rup(SetsOf(db), Opposite(LitSet(lits)))
  {
    var steps := JustifiedSteps(db, stack, why, {});
    var base := Opposite(LitSet(lits));
    hide DrupSpec.Derivation, DrupSpec.Rup;
    DrupSpec.DerivationMonotone(SetsOf(db), SetsOf(db), Opposite({}), base, steps);
    assert lits[i] in LitSet(lits);
    OppositeIn(LitSet(lits), lits[i]);
    if -lits[i] in stack {
      OppositeIn(LitSet(stack), -lits[i]);
    } else {
      assert -lits[i] in LitSet(lits);
      OppositeIn(LitSet(lits), -lits[i]);
    }
    assert DrupSpec.Clash(base + LitSet(steps));
    DrupSpec.RefutesRup(SetsOf(db), base, steps, base + LitSet(steps));
  }

  /** Where propagation is complete and finds no conflict there is none to be found. */
  lemma DoneNotRup(db: Database, stack: seq<int>, base: set<int>)
    requires DbOk(db) && Paired(db, LitSet(stack)) && UnitsTrue(db, LitSet(stack)) && Consistent(LitSet(stack))
    requires base <= Opposite(LitSet(stack))
    ensures !DrupSpec.Rup(SetsOf(db), base)
  {
    PairedClosed(db, LitSet(stack));
    OppositeClash(LitSet(stack));
    DrupSpec.ClosedNotRup(SetsOf(db), base, Opposite(LitSet(stack)));
  }

  lemma TautologyDecides(db: Database, stack: seq<int>, why: seq<nat>, lits: Clause)
    requires Justified(db, stack, why, {}) && exists i :: 0 <= i < |lits| && -lits[i] in stack + lits[..i]
    ensures DrupSpec.Rup(SetsOf(db), Opposite(LitSet(lits)))
  {
    var i :| 0 <= i < |lits| && -lits[i] in stack + lits[..i];
    TautologyRup(db, stack, why, lits, i);
  }

  lemma ConflictDecides(db0: Database, db: Database, stack: seq<int>, why: seq<nat>, assumed: set<int>, id: int,
                        lits: Clause)
    requires Permuted(db0, db) && Justified(db, stack, why, assumed) && DbOk(db)
    requires id in db && LitSet(db[id]) <= LitSet(stack) && assumed <= LitSet(lits)
    ensures DrupSpec.Rup(SetsOf(db0), Opposite(LitSet(lits))) && id > 0
  {
    hide Justified, LitSet, Permuted;
    OppositeGrows(assumed, LitSet(lits));
    SetsPermuted(db0, db);
    ConflictRup(db, stack, why, assumed, id, Opposite(LitSet(lits)));
  }

  lemma DoneDecides(db0: Database, db: Database, stack0: seq<int>, stack: seq<int>, lits: Clause)
    requires Permuted(db0, db) && DbOk(db) && UnitsTrue(db0, LitSet(stack0)) && stack0 <= stack
    requires Paired(db, LitSet(stack)) && Consistent(LitSet(stack)) && LitSet(lits) <= LitSet(stack)
    ensures !DrupSpec.Rup(SetsOf(db0), Opposite(LitSet(lits)))
  {
    hide *;
    LitSetGrows(stack0, stack);
    UnitsPermuted(db0, db, LitSet(stack0), LitSet(stack));
    SetsPermuted(db0, db);
    OppositeGrows(LitSet(lits), LitSet(stack));
    DoneNotRup(db, stack, Opposite(LitSet(lits)));
  }

  lemma NoHints(active: set<int>)
    ensures active == active + LitSet([])
  {
  }

  lemma {:induction false} ReverseMembers(s: seq<int>)
    ensures LitSet(Reverse(s)) == LitSet(s)
  {
    if s != [] {
      ReverseMembers(s[1..]);
      LitSetAppend(Reverse(s[1..]), s[0]);
      assert s == [s[0]] + s[1..];
    }
  }

  lemma ReverseSet(deps: seq<int>)
    ensures LitSet(Ids(deps)[0..]) == LitSet(Reverse(Ids(deps)))
  {
    ReverseMembers(Ids(deps));
    assert Ids(deps)[0..] == Ids(deps);
  }

  // ----- the initial lists and units -----

  /** addWatch on both watches of a clause. */
  function AddedLists(w: map<int, seq<Watch>>, c: Clause, e: Watch): map<int, seq<Watch>>
    requires |c| >= 2
  {
    var w1 := w[c[0] := List(w, c[0]) + [e]];
    w1[c[1] := List(w1, c[1]) + [e]]
  }

  lemma WatchAdded(db: Database, w: map<int, seq<Watch>>, c: Clause, e: Watch)
    requires WatchOk(db, w) && e.id !in db && |c| >= 2 && c[0] != c[1]
    ensures WatchOk(db[e.id := c], AddedLists(w, c, e))
  {
    var db', w' := db[e.id := c], AddedLists(w, c, e);
    forall y ensures DistinctIds(List(w', y)) && forall k :: Listed(List(w', y), k) <==> Watches(db', k, y) {
      assert !Watches(db, e.id, y) && !Listed(List(w, y), e.id);
      AppendListed(List(w, y), e);
      forall k ensures Listed(List(w', y), k) <==> Watches(db', k, y) {
        assert Listed(List(w, y), k) <==> Watches(db, k, y);
      }
    }
  }

  lemma ShortAdded(db: Database, w: map<int, seq<Watch>>, id: int, c: Clause)
    requires WatchOk(db, w) && id !in db && |c| < 2
    ensures WatchOk(db[id := c], w)
  {
    forall y, k ensures Watches(db[id := c], k, y) <==> Watches(db, k, y) {
    }
  }

  lemma CoreAdded(w: map<int, seq<Watch>>, c: Clause, e: Watch, active: set<int>)
    requires CoreIs(w, active) && |c| >= 2 && (e.core <==> e.id in active)
    ensures CoreIs(AddedLists(w, c, e), active)
  {
    var w' := AddedLists(w, c, e);
    forall y, x | x in List(w', y) ensures x.core <==> x.id in active {
      assert x in List(w, y) || x == e;
    }
  }

  /** The stack of the unit clauses in units. */
  ghost predicate UnitStack(db: Database, units: seq<int>, stack: seq<int>) {
    |stack| == |units| &&
    forall k :: 0 <= k < |units| ==> units[k] > 0 && units[k] in db && db[units[k]] == [-stack[k]]
  }

  lemma UnitStackMore(db: Database, units: seq<int>, stack: seq<int>, id: int, lit: int)
    requires UnitStack(db, units, stack) && id > 0 && id in db && db[id] == [lit]
    ensures UnitStack(db, units + [id], stack + [-lit])
  {
  }

  lemma UnitsMore(db: Database, stack: seq<int>, stack': seq<int>, id: int, c: Clause)
    requires UnitsTrue(db, LitSet(stack)) && stack <= stack' && (|c| == 1 ==> -c[0] in stack')
    ensures UnitsTrue(db[id := c], LitSet(stack'))
  {
    LitSetGrows(stack, stack');
  }

  /** A unit clause against another one, or an empty clause. */
  lemma ComplementaryRup(db: Database, units: seq<int>, stack: seq<int>, id: int)
    requires UnitStack(db, units, stack) && id > 0 && id in db
    requires db[id] == [] || (|db[id]| == 1 && db[id][0] in stack)
    ensures DrupSpec.Rup(SetsOf(db), {})
  {
    var f, n: nat := SetsOf(db), id;
    assert n in f && f[n] == LitSet(db[id]);
    if db[id] == [] {
      assert DrupSpec.FalseIn(f[n], {});
      DrupSpec.RefutesRup(f, {}, [], {});
    } else {
      var k :| 0 <= k < |stack| && stack[k] == db[id][0];
      var m: nat, x := units[k], -stack[k];
      assert m in f && f[m] == LitSet([x]) && x in f[m];
      assert DrupSpec.UnitIn(f[m], {} + LitSet([]), x);
      DrupSpec.DerivationAppend(f, {}, [], x);
      assert [] + [x] == [x] && db[id] == [-x];
      assert DrupSpec.FalseIn(f[n], {x});
      DrupSpec.RefutesRup(f, {}, [x], {x});
    }
  }

  /** One more unit with itself as the reason. */
  lemma UnitJustified(db: Database, reason: map<int, nat>, units: seq<int>, full: seq<int>, i: nat)
    requires UnitStack(db, units, full) && i < |full| && NoDup(full) && Consistent(LitSet(full))
    requires Justified(db, full[..i], Why(reason, full[..i]), {})
    ensures full[..i + 1] == full[..i] + [full[i]]
    ensures Justified(db, full[..i + 1], Why(reason[Var(full[i]) := units[i]], full[..i + 1]), {})
  {
    var lit := full[i];
    assert full[..i + 1] == full[..i] + [lit];
    assert lit in LitSet(full) && -lit !in LitSet(full) && lit !in full[..i];
    assert forall x :: x in full[..i] ==> x in LitSet(full);
    hide LitSet, Justified;
    WhyPush(reason, full[..i], lit, units[i]);
    assert Others(db[units[i]]) == {} by {
      assert LitSet([]) == {};
    }
    JustifiedPush(db, full[..i], Why(reason, full[..i]), {}, lit, units[i]);
  }

  lemma SameDatabase(part: Database, db: Database, formula: seq<int>)
    requires forall id :: id in part <==> id in formula
    requires forall id :: id in db <==> id in formula
    requires forall id :: id in part ==> id in db && part[id] == db[id]
    ensures part == db
  {
    assert part.Keys == db.Keys by {
      forall id ensures id in part.Keys <==> id in db.Keys {
        assert id in part <==> id in formula;
      }
    }
    forall id | id in db ensures id in part && part[id] == db[id] {
      assert id in part.Keys;
    }
  }

  lemma WatchNone()
    ensures WatchOk(map[], map[])
  {
  }

  lemma CoreNone(active: set<int>)
    ensures CoreIs(map[], active)
  {
  }

  lemma StartUnits(falseA: map<int, nat>, db: Database)
    requires Undone(falseA, [], 0)
    ensures FalseOk(falseA, []) && UnitStack(db, [], []) && UnitsTrue(map[], LitSet([]))
  {
  }

  lemma UnitStackSize(db: Database, units: seq<int>, stack: seq<int>)
    requires UnitStack(db, units, stack)
    ensures |units| == |stack|
  {
  }

  lemma UnitStackAt(db: Database, units: seq<int>, stack: seq<int>, falseA: map<int, nat>, i: nat)
    requires UnitStack(db, units, stack) && FalseOk(falseA, stack) && i < |stack|
    ensures units[i] > 0 && units[i] in db && db[units[i]] == [-stack[i]] && Var(-stack[i]) == Var(stack[i])
    ensures FalseOk(falseA[stack[i] := 1], stack)
  {
  }

  lemma JustifiedNone(db: Database, reason: map<int, nat>)
    ensures Justified(db, [], Why(reason, []), {})
  {
  }

  lemma PairedNone(db: Database, none: seq<int>)
    requires none == []
    ensures Paired(db, LitSet(none))
  {
  }

  lemma OppositeNone()
    ensures Opposite({}) == {}
  {
  }

  lemma ConflictNonzero(db: Database, id: int)
    requires DbOk(db) && id in db
    ensures id > 0
  {
  }

  datatype Outcome = Done | Flipped(next: nat) | Falsified(id: int)

  class Solver {
    var db: Database
    var active: set<int>
    var falseA: map<int, nat>
    var stack: seq<int>
    var forced: nat
    var processed: nat
    var reason: map<int, nat>
    var wlist: map<int, seq<Watch>>
    var deps: seq<int>
    var prep: bool

    ghost predicate Struct()
      reads this
    {
      DbOk(db) && FalseOk(falseA, stack) && WatchOk(db, wlist) && forced <= |stack| && processed <= |stack|
    }

    /** Every stack entry is assumed or follows from its reason and the entries below. */
    ghost predicate Reasoned(assumed: set<int>)
      reads this`db, this`stack, this`reason
    {
      Justified(db, stack, Why(reason, stack), assumed)
    }

    /** assign, with its reason pointer: lit becomes true. */
    method Assign(lit: int, id: int, ghost assumed: set<int>)
      requires FalseOk(falseA, stack) && Reasoned(assumed) && lit != 0
      requires Get(falseA, lit) == 0 && Get(falseA, -lit) == 0
      requires id > 0 && id in db && db[id] != [] && db[id][0] == lit && Others(db[id]) <= LitSet(stack)
      modifies this`falseA, this`stack, this`reason
      ensures FalseOk(falseA, stack) && Reasoned(assumed) && stack == old(stack) + [-lit]
      ensures old(Why(reason, stack)) <= Why(reason, stack)
    {
      hide Justified, Why;
      FalseAssign(falseA, stack, -lit, 1);
      assert -lit !in stack && lit !in stack;
      WhyPush(reason, stack, -lit, id);
      JustifiedPush(db, stack, Why(reason, stack), assumed, -lit, id);
      falseA := falseA[-lit := 1];
      stack := stack + [-lit];
      reason := reason[Var(lit) := id];
    }

    /** propagate: the first literal beyond the watches that is not false. */
    method FindReplacement(c: Clause) returns (i: nat)
      requires |c| >= 2 && 0 !in c && FalseOk(falseA, stack)
      ensures 2 <= i <= |c| && (i < |c| ==> c[i] !in stack) && forall j :: 2 <= j < i ==> c[j] in stack
    {
      i := 2;
      while i < |c|
        invariant 2 <= i <= |c| && forall j :: 2 <= j < i ==> c[j] in stack
      {
        assert c[i] in c;
        if Get(falseA, c[i]) == 0 {
          return;
        }
        i := i + 1;
      }
    }

    /** propagate: watch literal k of the clause instead of lit. */
    method MoveWatch(lit: int, i: nat, k: nat, ghost assumed: set<int>)
      requires Struct() && Reasoned(assumed) && lit in stack && i < |List(wlist, lit)|
      requires var id := List(wlist, lit)[i].id;
               Watches(db, id, lit) && -db[id][0] !in stack && 2 <= k < |db[id]| && Arrange(db[id], lit)[k] !in stack
      modifies this`db, this`wlist
      ensures Struct() && Reasoned(assumed) && Permuted(old(db), db)
      ensures var id := old(List(wlist, lit)[i].id); var d := Arrange(old(db)[id], lit);
              db == old(db)[id := d[1 := d[k]][k := lit]] && wlist == MovedLists(old(wlist), lit, i, d[k])
    {
      MovedOk(db, wlist, lit, i, k, stack, Why(reason, stack), assumed);
      hide WatchOk, FalseOk, DbOk, Justified, Permuted, Why, LitSet, Others, MovedLists;
      var id := List(wlist, lit)[i].id;
      var d := Arrange(db[id], lit);
      wlist := MovedLists(wlist, lit, i, d[k]);
      db := db[id := d[1 := d[k]][k := lit]];
    }

    /** propagate: bring the falsified watch to the second position. */
    method KeepWatch(lit: int, id: int, ghost assumed: set<int>)
      requires Struct() && Reasoned(assumed) && Watches(db, id, lit) && -db[id][0] !in stack
      modifies this`db
      ensures Struct() && Reasoned(assumed) && Permuted(old(db), db) && db == old(db)[id := Arrange(old(db)[id], lit)]
    {
      hide WatchOk, FalseOk, Justified, Permuted, Why, LitSet, Others;
      var d := Arrange(db[id], lit);
      Arranged(db[id], lit);
      WatchSame(db, wlist, id, d);
      JustifiedSwap(db, stack, Why(reason, stack), assumed, id, d);
      PermutedSelf(db, id, d);
      db := db[id := d];
    }

    /** propagate: one watched clause that is not satisfied by a watch. */
    method VisitWatch(lit: int, i: nat, ghost assumed: set<int>, ghost base: set<int>)
      returns (moved: bool, conflict: bool)
      requires Struct() && Reasoned(assumed) && lit in stack && i < |List(wlist, lit)| && base <= LitSet(stack)
      requires var c := List(wlist, lit)[i].id; Watches(db, c, lit) && -db[c][0] !in stack && -db[c][1] !in stack
      modifies this`db, this`wlist, this`falseA, this`stack, this`reason
      ensures Struct() && Reasoned(assumed) && Permuted(old(db), db) && old(stack) <= stack
      ensures old(Why(reason, stack)) <= Why(reason, stack)
      ensures Advanced(old(db), old(wlist), db, wlist, old(LitSet(stack)), lit, base)
      ensures moved ==> stack == old(stack) && !conflict
      ensures moved ==> List(wlist, lit) == old(List(wlist, lit)[i := List(wlist, lit)[|List(wlist, lit)| - 1]])
                                            [..old(|List(wlist, lit)|) - 1]
      ensures !moved ==> wlist == old(wlist)
      ensures !moved && !conflict ==> |stack| > |old(stack)| && Handled(db, List(wlist, lit)[i], lit, LitSet(stack))
      ensures conflict ==> stack == old(stack) && old(List(wlist, lit)[i].id) in db &&
                           LitSet(db[old(List(wlist, lit)[i].id)]) <= LitSet(stack)
    {
      hide WatchOk, FalseOk, Justified, Permuted, Why, Others, Advanced;
      var id := List(wlist, lit)[i].id;
      var c := db[id];
      StackFacts(falseA, stack);
      Arranged(c, lit);
      var d := Arrange(c, lit);
      var k := FindReplacement(d);
      moved, conflict := k < |d|, false;
      assert !WatchTrue(c, LitSet(stack)) && -lit !in LitSet(stack);
      if moved {
        AdvancedMoved(db, wlist, lit, i, k, LitSet(stack), base);
        MoveWatch(lit, i, k, assumed);
      } else {
        AdvancedKept(db, wlist, lit, id, LitSet(stack), base);
        KeepWatch(lit, id, assumed);
        assert d[0] in d && id > 0;
        AllButFirst(d, stack);
        FalseMeans(falseA, stack, d[0]);
        if Get(falseA, d[0]) == 0 {
          Assign(d[0], id, assumed);
          assert Partner(db[id], lit) == d[0];
        } else {
          conflict := true;
        }
      }
    }

    /** propagate: with core-first propagation the first pass sees core clauses
        only, without it the first pass sees none. */
    predicate Skipped(w: Watch, check: nat)
      reads this`prep
    {
      if prep then check == 1 else w.core != (check == 1)
    }

    /** propagate: the loop over one watch list from a position on. */
    method ScanList(lit: int, from: nat, check: nat, ghost assumed: set<int>, ghost base: set<int>) returns (o: Outcome)
      requires Struct() && Reasoned(assumed) && lit in stack && base <= LitSet(stack)
      requires Scanned(db, List(wlist, lit), prep, check == 1, lit, LitSet(stack), from)
      modifies this`db, this`wlist, this`falseA, this`stack, this`reason
      ensures Struct() && Reasoned(assumed) && Permuted(old(db), db) && old(stack) <= stack
      ensures old(Why(reason, stack)) <= Why(reason, stack)
      ensures Advanced(old(db), old(wlist), db, wlist, old(LitSet(stack)), lit, base)
      ensures o.Done? ==>
                Scanned(db, List(wlist, lit), prep, check == 1, lit, LitSet(stack), |List(wlist, lit)|) &&
                (check == 0 ==> stack == old(stack))
      ensures o.Flipped? ==> check == 0 && |stack| > |old(stack)|
      ensures o.Flipped? ==>
                Scanned(db, List(wlist, lit), prep, false, lit, LitSet(stack), o.next)
      ensures o.Falsified? ==> o.id in db && LitSet(db[o.id]) <= LitSet(stack)
    {
      hide WatchOk, FalseOk, Justified, Permuted, Why, LitSet, Others, DbOk, Advanced, Scanned, Handled, WatchTrue;
      var i: nat := from;
      PermutedRefl(db);
      AdvancedRefl(db, wlist, LitSet(stack), lit, base);
      while i < |List(wlist, lit)|
        invariant Struct() && Reasoned(assumed) && Permuted(old(db), db) && old(stack) <= stack && lit in stack
        invariant old(Why(reason, stack)) <= Why(reason, stack) && (check == 0 ==> stack == old(stack))
        invariant base <= LitSet(stack) && old(LitSet(stack)) <= LitSet(stack)
        invariant Advanced(old(db), old(wlist), db, wlist, old(LitSet(stack)), lit, base)
        invariant Scanned(db, List(wlist, lit), prep, check == 1, lit, LitSet(stack), i)
        decreases |List(wlist, lit)| - i
      {
        var w := List(wlist, lit)[i];
        ListedWatches(db, wlist, lit, i);
        if Skipped(w, check) {
          ScannedMore(db, List(wlist, lit), prep, check == 1, lit, LitSet(stack), i);
          i := i + 1;
          continue;
        }
        ClauseNonzero(db, w.id);
        FalseMeans(falseA, stack, -db[w.id][0]);
        FalseMeans(falseA, stack, -db[w.id][1]);
        if Get(falseA, -db[w.id][0]) != 0 || Get(falseA, -db[w.id][1]) != 0 {
          SatisfiedHandled(falseA, stack, db, w, lit);
          ScannedMore(db, List(wlist, lit), prep, check == 1, lit, LitSet(stack), i);
          i := i + 1;
          continue;
        }
        ghost var db0, w0, stack0, t0, l0 := db, wlist, stack, LitSet(stack), List(wlist, lit);
        var before := |stack|;
        var moved, conflict := VisitWatch(lit, i, assumed, base);
        PermutedJoin(old(db), db0, db);
        LitSetGrows(old(stack), stack);
        LitSetGrows(stack0, stack);
        AdvancedJoin(old(db), old(wlist), db0, w0, db, wlist, old(LitSet(stack)), t0, lit, base);
        ScannedAdvanced(db0, w0, db, wlist, l0, prep, check == 1, lit, lit, t0, LitSet(stack), i, base);
        if conflict {
          return Falsified(w.id);
        }
        if moved {
          ScannedDropped(db, l0, prep, check == 1, lit, LitSet(stack), i);
        } else {
          ScannedMore(db, l0, prep, check == 1, lit, LitSet(stack), i);
          i := i + 1;
          if check == 0 && |stack| > before {
            return Flipped(i);
          }
        }
      }
      ScannedAll(db, List(wlist, lit), prep, check == 1, lit, LitSet(stack), i);
      o := Done;
    }

    /** propagate: the list of the next literal of one pass, resumed if it was interrupted. */
    method ScanNext(start0: nat, start1: nat, check: nat, saved: int, resume: nat, ghost at: nat,
                    ghost assumed: set<int>, ghost base: set<int>, ghost clean: bool) returns (o: Outcome)
      requires Struct() && Reasoned(assumed) && check <= 1 && (if check == 1 then start1 else start0) < |stack|
      requires check == 0 ==> start0 < start1
      requires Seen(db, wlist, prep, stack, start1, start0, saved, resume, at, base, clean)
      modifies this`db, this`wlist, this`falseA, this`stack, this`reason
      ensures Struct() && Reasoned(assumed) && Permuted(old(db), db) && old(stack) <= stack
      ensures old(Why(reason, stack)) <= Why(reason, stack)
      ensures o.Done? ==>
                Seen(db, wlist, prep, stack, if check == 1 then start1 + 1 else start1,
                     if check == 1 then start0 else start0 + 1, saved, resume, at, base, clean) &&
                (check == 0 ==> stack == old(stack))
      ensures o.Flipped? ==>
                check == 0 && |stack| > |old(stack)| &&
                Seen(db, wlist, prep, stack, start1, start0, stack[start0], o.next, start0, base, clean)
      ensures o.Falsified? ==> o.id in db && LitSet(db[o.id]) <= LitSet(stack) && (clean ==> Paired(db, base))
      ensures CoreKept(old(wlist), wlist)
    {
      hide WatchOk, FalseOk, Justified, Permuted, Why, LitSet, Others, DbOk, Paired, Scanned, Advanced, Seen, List,
        NoDup, Var, Get, Consistent;
      var lit := stack[if check == 1 then start1 else start0];
      ghost var db0, w0, stack0, held := db, wlist, stack, if lit == saved then 0 else saved;
      SeenFrom(db, wlist, prep, falseA, stack, start1, start0, saved, resume, at, base, clean, check == 1);
      o := ScanList(lit, if lit == saved then resume else 0, check, assumed, base);
      SeenAfter(db0, w0, db, wlist, prep, stack0, stack, start1, start0, saved, resume, at, base, clean, lit);
      AdvancedFacts(db0, w0, db, wlist, LitSet(stack0), lit, base);
      match o {
        case Falsified(id) => SeenBase(db, wlist, prep, stack, start1, start0, held, resume, at, base, clean);
        case Flipped(next) => SeenFlipped(db, wlist, prep, stack, start1, start0, held, resume, at, base, clean, next);
        case Done =>
          SeenDone(db, wlist, prep, stack, start1, start0, held, resume, at, base, clean, check == 1);
          if lit == saved {
            SeenPast(db, wlist, prep, stack, start1, start0, saved, resume, at, base, clean);
          }
      }
    }

    /** propagate, up to the point where it finds a falsified clause or none; then no clause
        with a falsified watch is left that its other watch does not satisfy. */
    method Propagate(ghost assumed: set<int>) returns (o: Outcome)
      requires Struct() && Reasoned(assumed)
      modifies this`db, this`wlist, this`falseA, this`stack, this`reason, this`processed
      ensures Struct() && Reasoned(assumed) && Permuted(old(db), db) && old(stack) <= stack
      ensures old(Why(reason, stack)) <= Why(reason, stack)
      ensures o.Done? || (o.Falsified? && o.id in db && LitSet(db[o.id]) <= LitSet(stack))
      ensures o.Done? ==> processed == |stack|
      ensures var base := old(LitSet(stack[..processed]));
              Paired(old(db), base) ==> Paired(db, base) && (o.Done? ==> Paired(db, LitSet(stack)))
      ensures CoreKept(old(wlist), wlist)
    {
      hide WatchOk, FalseOk, Justified, Permuted, Why, LitSet, Others, DbOk, Negs, Paired, Seen, NoDup, Consistent,
        CoreIs;
      var start0: nat, start1: nat, check: nat, saved: int, resume: nat := processed, processed, 1, 0, 0;
      ghost var limit, base, at: nat := |assumed + Negs(db)|, LitSet(stack[..processed]), 0;
      ghost var clean := Paired(db, base);
      PermutedRefl(db);
      StackFacts(falseA, stack);
      StackBounded(db, stack, Why(reason, stack), assumed);
      SeenStart(db, wlist, prep, stack, processed);
      while true
        invariant Struct() && Reasoned(assumed) && Permuted(old(db), db) && old(stack) <= stack
        invariant old(Why(reason, stack)) <= Why(reason, stack)
        invariant start0 <= |stack| && start1 <= |stack| <= limit == |assumed + Negs(db)| && check <= 1
        invariant check == 0 ==> start1 == |stack|
        invariant CoreKept(old(wlist), wlist)
        invariant Seen(db, wlist, prep, stack, start1, start0, saved, resume, at, base, clean)
        decreases limit - |stack|, check, if check == 1 then |stack| - start1 else |stack| - start0
      {
        if (if check == 1 then start1 else start0) == |stack| {
          if check == 0 {
            break;
          }
          check := 0;
          continue;
        }
        ghost var db0 := db;
        o := ScanNext(start0, start1, check, saved, resume, at, assumed, base, clean);
        PermutedJoin(old(db), db0, db);
        PermutedNegs(db0, db);
        StackFacts(falseA, stack);
        StackBounded(db, stack, Why(reason, stack), assumed);
        match o {
          case Falsified(id) => return;
          case Flipped(next) => saved, resume, check, at := stack[start0], next, 1, start0;
          case Done =>
            if check == 1 {
              start1 := start1 + 1;
            } else {
              start0 := start0 + 1;
            }
        }
      }
      if clean {
        SeenAll(db, wlist, prep, stack, saved, resume, at, base);
      }
      processed := |stack|;
      o := Done;
    }

    /** markWatch: set the core flag of a clause in one of its watch lists. */
    method MarkWatch(lit: int, id: int)
      requires WatchOk(db, wlist) && Watches(db, id, lit)
      modifies this`wlist
      ensures WatchOk(db, wlist)
      ensures Flagged(old(wlist), wlist, lit, id)
    {
      var l := List(wlist, lit);
      assert Listed(l, id);
      var i := 0;
      while l[i].id != id
        invariant i < |l| && forall j :: 0 <= j < i ==> l[j].id != id
        decreases |l| - i
      {
        i := i + 1;
      }
      CoreFlag(db, wlist, lit, i);
      wlist := wlist[lit := l[i := Watch(l[i].id, true)]];
    }

    /** markClause: record the clause and mark its literals from a position on,
        0 for the conflict, 1 for a reason, whose first literal is true. */
    method MarkClause(id: int, from: nat, top: nat)
      requires DbOk(db) && WatchOk(db, wlist) && id in db && from <= |db[id]|
      modifies this`deps, this`active, this`wlist, this`falseA
      ensures WatchOk(db, wlist) && falseA == MarkAll(old(falseA), db[id][from..])
      ensures Ids(deps) == Ids(old(deps)) + [id] && active == old(active) + {id}
      ensures old(CoreIs(wlist, active)) ==> CoreIs(wlist, active)
    {
      hide WatchOk, CoreIs, Flagged;
      ghost var w0 := wlist;
      deps := deps + [2 * id + if top > forced then 1 else 0];
      assert Ids(deps) == Ids(old(deps)) + [id];
      var c := db[id];
      if id !in active {
        active := active + {id};
        ghost var w1 := wlist;
        if |c| >= 2 {
          MarkWatch(c[0], id);
          w1 := wlist;
          MarkWatch(c[1], id);
        }
        if old(CoreIs(wlist, active)) {
          CoreMarked(db, w0, w1, wlist, old(active), id);
        }
      } else {
        assert active == old(active) + {id};
      }
      ghost var recorded := deps;
      for j := from to |c|
        invariant deps == recorded && WatchOk(db, wlist) && active == old(active) + {id}
        invariant old(CoreIs(wlist, active)) ==> CoreIs(wlist, active)
        invariant MarkAll(old(falseA), c[from..]) == MarkAll(falseA, c[j..])
      {
        assert c[j..] == [c[j]] + c[j + 1..];
        falseA := falseA[c[j] := MARK];
      }
    }

    /** One popped stack entry: a marked literal records its reason and marks the
        other literals of it. */
    method VisitEntry(k: nat, ghost trail: seq<int>, ghost why: seq<nat>, ghost m: set<int>, ghost assumed: set<int>)
      returns (ghost marked: set<int>)
      requires k < |trail| == |why| && stack == trail[..k + 1] && NoDup(trail) && Justified(db, trail, why, assumed)
      requires DbOk(db) && WatchOk(db, wlist) && Get(reason, Var(trail[k])) == why[k]
      requires MarkedAre(falseA, trail, k + 1, m) && PoppedAre(falseA, trail, k + 1, forced)
      modifies this`deps, this`active, this`wlist, this`falseA
      ensures WatchOk(db, wlist)
      ensures var f := falseA[trail[k] := if k < forced then 1 else 0];
              MarkedAre(f, trail, k, marked) && PoppedAre(f, trail, k, forced)
      ensures Ids(deps) + Walk(db, trail, why, k, marked) == Ids(old(deps)) + Walk(db, trail, why, k + 1, m)
      ensures Ids(old(deps)) <= Ids(deps) && active == old(active) + LitSet(Ids(deps)[|old(deps)|..])
      ensures old(CoreIs(wlist, active)) ==> CoreIs(wlist, active)
    {
      hide CoreIs, WatchOk, Justified, DbOk, MarkedAre, PoppedAre, Walk, Others, NoDup, MarkAll;
      var lit := stack[k];
      WalkStep(db, trail, why, k + 1, m);
      JustifiedAt(db, trail, why, assumed, k);
      MarkedAt(falseA, trail, k + 1, m, k);
      PopStep(falseA, trail, k + 1, forced, m);
      marked := m;
      if Get(falseA, lit) == MARK {
        var r := Get(reason, Var(lit));
        if r != 0 {
          MarkPop(falseA, trail, k, forced, m, db[r][1..], lit);
          MarkClause(r, 1, k);
          marked := m + Others(db[r]);
          assert Ids(deps)[|old(deps)|..] == [r as int];
        }
      }
    }

    /** analyze: walk down the stack, recording the reasons of marked literals. */
    method Analyze(conflict: int, ghost assumed: set<int>)
      requires Struct() && Reasoned(assumed) && conflict in db && LitSet(db[conflict]) <= LitSet(stack)
      modifies this`deps, this`active, this`wlist, this`falseA, this`stack, this`reason, this`processed
      ensures Struct() && stack == old(stack)[..forced] && processed == forced
      ensures Why(reason, stack) == old(Why(reason, stack))[..forced]
      ensures Ids(deps) == Ids(old(deps)) + [conflict] +
                           Walk(db, old(stack), old(Why(reason, stack)), |old(stack)|, LitSet(db[conflict]))
      ensures active == old(active) + LitSet(Ids(deps)[|old(deps)|..])
      ensures old(CoreIs(wlist, active)) ==> CoreIs(wlist, active)
    {
      hide CoreIs, LitSet, WatchOk, Justified, DbOk, MarkedAre, PoppedAre, Walk, Why, Consistent, Others, NoDup,
        MarkAll;
      var trail := stack;
      ghost var why, m := Why(reason, stack), LitSet(db[conflict]);
      var k: nat := |stack|;
      StackFacts(falseA, trail);
      AllMarkable(falseA, trail, forced);
      assert db[conflict][0..] == db[conflict] && trail[..k] == trail;
      MarkBelow(falseA, trail, k, forced, {}, db[conflict]);
      assert {} + m == m;
      WhyKept(reason, trail, forced);
      MarkClause(conflict, 0, k);
      ActiveFirst(old(deps), deps, conflict);
      while k > 0
        invariant k <= |trail| && stack == trail[..k] && WatchOk(db, wlist)
        invariant MarkedAre(falseA, trail, k, m) && PoppedAre(falseA, trail, k, forced)
        invariant ReasonsKept(reason, trail, why, k, forced)
        invariant Ids(deps) + Walk(db, trail, why, k, m) ==
                  Ids(old(deps)) + [conflict] + Walk(db, trail, why, |trail|, LitSet(db[conflict]))
        invariant Ids(old(deps)) <= Ids(deps) && active == old(active) + LitSet(Ids(deps)[|old(deps)|..])
        invariant old(CoreIs(wlist, active)) ==> CoreIs(wlist, active)
        decreases k
      {
        ghost var k0, deps0 := k, deps;
        k := k - 1;
        var lit := stack[k];
        assert Get(reason, Var(lit)) == why[k];
        m := VisitEntry(k, trail, why, m, assumed);
        ActiveMore(old(active), old(deps), deps0, deps);
        ReasonPop(reason, trail, why, k0, forced);
        if k >= forced {
          reason := reason[Var(lit) := 0];
        }
        falseA := falseA[lit := if k < forced then 1 else 0];
        stack := stack[..k];
      }
      WalkZero(db, trail, why, m);
      stack := trail[..forced];
      processed := forced;
      AllPopped(falseA, trail, forced);
      ReasonsWhy(reason, trail, why, forced);
    }

    /** printDependenciesFile: the recorded clauses are printed last one first. */
    method PrintHints() returns (hints: seq<int>)
      ensures hints == Reverse(Ids(deps))
    {
      hints := [];
      var i := |deps|;
      ghost var ids := Ids(deps);
      while i > 0
        invariant 0 <= i <= |deps| && hints == Reverse(ids[i..])
      {
        i := i - 1;
        assert ids[i..] == [ids[i]] + ids[i + 1..];
        hints := hints + [deps[i] / 2];
      }
      assert ids[0..] == ids;
    }

    /** init, on the clauses of the formula: watch the first two literals and assign the units,
        until an empty or two complementary unit clauses are found. */
    method WatchFormula(formula: seq<int>, mask: bool) returns (ok: bool, units: seq<int>)
      requires NoDup(formula) && (forall id :: id in db <==> id in formula) && stack == [] && Undone(falseA, [], 0)
      requires wlist == map[] && active == {}
      requires forall id :: id in db ==> id > 0 && NoDup(db[id]) && 0 !in db[id]
      modifies this`falseA, this`stack, this`wlist
      ensures !ok ==> DrupSpec.Rup(SetsOf(db), {})
      ensures ok ==> DbOk(db) && WatchOk(db, wlist) && FalseOk(falseA, stack) && UnitStack(db, units, stack)
      ensures ok ==> UnitsTrue(db, LitSet(stack)) && (!mask ==> CoreIs(wlist, active))
    {
      units := [];
      ghost var part: Database := map[];
      hide WatchOk, FalseOk, UnitStack, UnitsTrue, LitSet, CoreIs, DrupSpec.Rup, SetsOf;
      WatchNone();
      StartUnits(falseA, db);
      CoreNone(active);
      for i := 0 to |formula|
        invariant forall id :: id in part <==> id in formula[..i]
        invariant forall id :: id in part ==> id in db && part[id] == db[id] && db[id] != []
        invariant WatchOk(part, wlist) && FalseOk(falseA, stack) && UnitStack(db, units, stack)
        invariant UnitsTrue(part, LitSet(stack)) && (!mask ==> CoreIs(wlist, active))
      {
        var id := formula[i];
        var c := db[id];
        assert id in formula && formula[..i + 1] == formula[..i] + [id] && id !in part;
        if c == [] {
          ComplementaryRup(db, units, stack, id);
          return false, units;
        }
        assert c[0] in c;
        FalseMeans(falseA, stack, c[0]);
        FalseMeans(falseA, stack, -c[0]);
        if |c| >= 2 {
          WatchAdded(part, wlist, c, Watch(id, mask));
          if !mask {
            CoreAdded(wlist, c, Watch(id, mask), active);
          }
          UnitsMore(part, stack, stack, id, c);
          wlist := AddedLists(wlist, c, Watch(id, mask));
        } else if Get(falseA, c[0]) != 0 {
          ComplementaryRup(db, units, stack, id);
          return false, units;
        } else {
          ShortAdded(part, wlist, id, c);
          ghost var stack0 := stack;
          if Get(falseA, -c[0]) == 0 {
            FalseAssign(falseA, stack, -c[0], 1);
            UnitStackMore(db, units, stack, id, c[0]);
            units := units + [id];
            falseA := falseA[-c[0] := 1];
            stack := stack + [-c[0]];
          }
          UnitsMore(part, stack0, stack, id, c);
        }
        part := part[id := c];
      }
      assert formula[..|formula|] == formula;
      SameDatabase(part, db, formula);
      ok := true;
    }

    /** propagateUnits at the start: the units again, now with their reasons. */
    method PropagateUnits(units: seq<int>) returns (ok: bool)
      requires DbOk(db) && WatchOk(db, wlist) && FalseOk(falseA, stack) && UnitStack(db, units, stack)
      requires UnitsTrue(db, LitSet(stack))
      modifies this
      ensures Permuted(old(db), db)
      ensures ok ==> Struct() && Reasoned({}) && forced == processed == |stack| && Complete()
      ensures ok <==> !DrupSpec.Rup(old(SetsOf(db)), {})
      ensures ok && old(CoreIs(wlist, active)) ==> CoreIs(wlist, active)
    {
      hide WatchOk, FalseOk, DbOk, UnitStack, Paired, UnitsTrue, Justified, Why, LitSet, CoreIs, DrupSpec.Rup, SetsOf,
        Opposite, Permuted, Consistent;
      ghost var full, db0 := stack, db;
      StackFacts(falseA, full);
      StackConsistent(falseA, full);
      UnitStackSize(db, units, full);
      stack, forced, processed := [], 0, 0;
      JustifiedNone(db, reason);
      for i := 0 to |units|
        invariant stack == full[..i] && Reasoned({}) && FalseOk(falseA, full) && forced == processed == 0
        invariant db == db0 && wlist == old(wlist) && active == old(active)
      {
        var id := units[i];
        UnitStackAt(db, units, full, falseA, i);
        UnitJustified(db, reason, units, full, i);
        var lit := db[id][0];
        falseA := falseA[-lit := 1];
        reason := reason[Var(lit) := id];
        stack := stack + [-lit];
      }
      assert stack == full;
      PermutedRefl(db);
      PairedNone(db, stack[..processed]);
      var o := Propagate({});
      StackConsistent(falseA, stack);
      LitSetGrows(full, stack);
      UnitsPermuted(db0, db, LitSet(full), LitSet(stack));
      SetsPermuted(db0, db);
      ok := o.Done?;
      OppositeNone();
      if ok {
        DoneNotRup(db, stack, {});
        forced := processed;
      } else {
        ConflictNonzero(db, o.id);
        ConflictRup(db, stack, Why(reason, stack), {}, o.id, {});
        Analyze(o.id, {});
      }
    }

    /** init: satisfiable as far as unit propagation can tell, or refuted by it. */
    method Init(formula: seq<int>, mask: bool) returns (ok: bool)
      requires NoDup(formula) && (forall id :: id in db <==> id in formula)
      requires forall id :: id in db ==> id > 0 && NoDup(db[id]) && 0 !in db[id]
      modifies this
      ensures Permuted(old(db), db)
      ensures ok ==> Struct() && Reasoned({}) && forced == processed == |stack| && Complete()
      ensures ok <==> !DrupSpec.Rup(old(SetsOf(db)), {})
      ensures ok && !mask ==> CoreIs(wlist, active)
    {
      falseA, stack, reason, wlist, deps := map[], [], map[], map[], [];
      forced, processed, active := 0, 0, {};
      hide WatchOk, FalseOk, DbOk, UnitStack, UnitsTrue, Justified, LitSet, CoreIs, DrupSpec.Rup, SetsOf, Permuted;
      PermutedRefl(db);
      var units;
      ok, units := WatchFormula(formula, mask);
      if ok {
        ok := PropagateUnits(units);
      }
    }

    /** redundancyCheck: falsify the open literals of the lemma. */
    method AssumeLemma(lemmaLits: Clause, size: nat) returns (tautology: bool)
      requires Struct() && Reasoned({}) && size <= |lemmaLits| && NoDup(lemmaLits) && 0 !in lemmaLits
      requires forall i :: 0 <= i < size ==> lemmaLits[i] !in stack
      modifies this`falseA, this`stack, this`reason
      ensures Struct() && Reasoned(LitSet(lemmaLits[..size])) && old(stack) <= stack
      ensures Why(reason, stack)[..|old(stack)|] == old(Why(reason, stack))
      ensures !tautology ==> stack == old(stack) + lemmaLits[..size]
      ensures tautology ==> exists i :: 0 <= i < size && -lemmaLits[i] in old(stack) + lemmaLits[..i]
    {
      hide FalseOk, Justified, WatchOk, Why, LitSet;
      tautology := false;
      JustifiedMore(db, stack, Why(reason, stack), {}, LitSet(lemmaLits[..size]));
      for i := 0 to size
        invariant Struct() && Reasoned(LitSet(lemmaLits[..size])) && stack == old(stack) + lemmaLits[..i]
        invariant old(Why(reason, stack)) <= Why(reason, stack)
      {
        var lit := lemmaLits[i];
        assert lit in lemmaLits && lit !in stack;
        FalseMeans(falseA, stack, lit);
        FalseMeans(falseA, stack, -lit);
        if Get(falseA, -lit) != 0 {
          tautology := true;
          return;
        }
        FalseAssign(falseA, stack, lit, ASSUMED);
        WhyPush(reason, stack, lit, 0);
        InPrefix(lemmaLits, size, i);
        JustifiedPush(db, stack, Why(reason, stack), LitSet(lemmaLits[..size]), lit, 0);
        falseA := falseA[lit := ASSUMED];
        stack := stack + [lit];
        reason := reason[Var(lit) := 0];
        assert lemmaLits[..i + 1] == lemmaLits[..i] + [lit];
      }
    }

    /** redundancyCheck: undo the assumptions of a tautological lemma. */
    method Undo()
      requires Struct() && processed <= forced
      modifies this`falseA, this`stack, this`reason
      ensures Struct() && stack == old(stack)[..forced] && Why(reason, stack) == old(Why(reason, stack))[..forced]
    {
      hide PoppedAre, Consistent, Why, ReasonsKept, Justified, WatchOk;
      var trail := stack;
      ghost var why := Why(reason, trail);
      var k: nat := |stack|;
      StackFacts(falseA, trail);
      StackConsistent(falseA, trail);
      assert trail[..k] == trail;
      UndoStart(falseA, reason, trail, forced);
      while k > forced
        invariant forced <= k <= |trail| && stack == trail[..k]
        invariant Undone(falseA, trail, k) && ReasonsKept(reason, trail, why, k, forced)
        decreases k
      {
        k := k - 1;
        ReasonPop(reason, trail, why, k + 1, forced);
        UndoStep(falseA, trail, k);
        falseA := falseA[trail[k] := 0];
        reason := reason[Var(trail[k]) := 0];
        stack := stack[..k];
      }
      UndoneFalse(falseA, trail, forced);
      ForcedWhy(reason, trail, why, forced);
    }

    /** Propagation is complete: no clause with a falsified watch is open, and unit clauses are
        true. */
    ghost predicate Complete()
      reads this`db, this`stack
    {
      Paired(db, LitSet(stack)) && UnitsTrue(db, LitSet(stack))
    }

    /** The hints of a lemma whose negation falsified a clause. */
    method Explain(id: int, lemmaLits: Clause, ghost assumed: set<int>, ghost db0: Database) returns (hints: seq<int>)
      requires Struct() && Reasoned(assumed) && id in db && LitSet(db[id]) <= LitSet(stack) && deps == []
      requires Permuted(db0, db) && assumed <= LitSet(lemmaLits) <= LitSet(stack)
      modifies this`deps, this`active, this`wlist, this`falseA, this`stack, this`reason, this`processed
      ensures Struct() && stack == old(stack)[..forced] && processed == forced
      ensures Why(reason, stack) == old(Why(reason, stack))[..forced]
      ensures forall last, intro :: Check(db0, last, intro, lemmaLits, hints) == Conflict
      ensures active == old(active) + LitSet(hints)
      ensures old(CoreIs(wlist, active)) ==> CoreIs(wlist, active)
    {
      assert Ids([]) == [];
      assert id > 0;
      hide WatchOk, FalseOk, DbOk, Justified, Why, LitSet, Permuted, Check, Walk, CoreIs, Consistent, Ids, Reverse;
      StackConsistent(falseA, stack);
      ghost var trail, why := stack, Why(reason, stack);
      Analyze(id, assumed);
      hints := PrintHints();
      ReverseSet(deps);
      PrintedHints(db0, db, trail, why, assumed, lemmaLits, id, deps, hints);
    }

    /** redundancyCheck: propagate the negated lemma, assumed on top of stack0. */
    method Refute(lemmaLits: Clause, size: nat, ghost stack0: seq<int>) returns (accepted: bool, hints: seq<int>)
      requires Struct() && size <= |lemmaLits| && Reasoned(LitSet(lemmaLits[..size])) && deps == []
      requires forced == processed == |stack0| && stack == stack0 + lemmaLits[..size]
      requires forall i :: 0 <= i < |lemmaLits| ==> (lemmaLits[i] in stack0 <==> size <= i)
      modifies this
      ensures Permuted(old(db), db) && forced == old(forced)
      ensures accepted ==>
                Struct() && stack == stack0 && Why(reason, stack) == old(Why(reason, stack))[..forced] &&
                processed == forced
      ensures accepted ==> forall last, intro :: Check(old(db), last, intro, lemmaLits, hints) == Conflict
      ensures Paired(old(db), LitSet(stack0)) && UnitsTrue(old(db), LitSet(stack0)) ==>
                (accepted <==> DrupSpec.Rup(old(SetsOf(db)), Opposite(LitSet(lemmaLits)))) &&
                (accepted ==> Paired(db, LitSet(stack0)))
      ensures active == old(active) + LitSet(hints)
      ensures old(CoreIs(wlist, active)) ==> CoreIs(wlist, active)
    {
      hide WatchOk, FalseOk, DbOk, Justified, Why, LitSet, Permuted, Check, Paired, UnitsTrue, CoreIs, SetsOf, Opposite,
        DrupSpec.Rup, Consistent;
      ghost var assumed, db0 := LitSet(lemmaLits[..size]), db;
      accepted, hints := false, [];
      assert stack[..processed] == stack0;
      var o := Propagate(assumed);
      assert old(CoreIs(wlist, active)) ==> CoreIs(wlist, active);
      AllOnStack(lemmaLits, size, stack0, stack);
      StackConsistent(falseA, stack);
      if o.Falsified? {
        ConflictDecides(db0, db, stack, Why(reason, stack), assumed, o.id, lemmaLits);
        hints := Explain(o.id, lemmaLits, assumed, db0);
        accepted := true;
      } else {
        if Paired(db0, LitSet(stack0)) && UnitsTrue(db0, LitSet(stack0)) {
          DoneDecides(db0, db, stack0, stack, lemmaLits);
        }
        NoHints(active);
      }
    }

    /** redundancyCheck, up to a failed unit propagation: accepted with hints, or
        a tautology, or neither. */
    method RupCheck(lemmaLits: Clause, size: nat) returns (accepted: bool, tautology: bool, hints: seq<int>)
      requires Struct() && Reasoned({}) && forced == processed == |stack|
      requires size <= |lemmaLits| && NoDup(lemmaLits) && 0 !in lemmaLits
      requires forall i :: 0 <= i < |lemmaLits| ==> (lemmaLits[i] in stack <==> size <= i)
      modifies this
      ensures Permuted(old(db), db) && forced == old(forced)
      ensures accepted || tautology ==>
                Struct() && stack == old(stack) && Why(reason, stack) == old(Why(reason, stack)) && processed == forced
      ensures accepted ==> forall last, intro :: Check(old(db), last, intro, lemmaLits, hints) == Conflict
      ensures tautology ==> !accepted && exists i :: 0 <= i < size && -lemmaLits[i] in old(stack) + lemmaLits[..i]
      ensures old(Complete()) ==>
                (accepted || tautology <==> DrupSpec.Rup(old(SetsOf(db)), Opposite(LitSet(lemmaLits))))
      ensures old(Complete()) && (accepted || tautology) ==> Complete()
      ensures active == old(active) + LitSet(hints)
      ensures old(CoreIs(wlist, active)) ==> CoreIs(wlist, active)
    {
      hide WatchOk, FalseOk, DbOk, Justified, Why, LitSet, Permuted, Check, Walk, Paired, UnitsTrue, CoreIs, SetsOf,
        Opposite, DrupSpec.Rup;
      deps, hints, accepted := [], [], false;
      ghost var why0, db0, stack0 := Why(reason, stack), db, stack;
      PermutedRefl(db);
      tautology := AssumeLemma(lemmaLits, size);
      if tautology {
        TautologyDecides(db0, stack0, why0, lemmaLits);
        Undo();
        NoHints(active);
        return;
      }
      accepted, hints := Refute(lemmaLits, size, stack0);
      if old(Complete()) {
        UnitsPermuted(db0, db, LitSet(stack0), LitSet(stack0));
      }
    }
  }
}
