/** simpaig: hash-consed conjunctions with reference counts, time shift and
    substitution by a shared cache. */
module Simpaig {
  import opened RefCount

  /** The true variables, each with its time slice. */
  type Env = iset<(nat, int)>

  /** The value of a reference; nodes that are gone count as false. */
  ghost predicate Val(content: Contents, env: Env, r: Ref)
    decreases r / 2, r % 2
  {
    var p := r / 2;
    if r % 2 == 1 then !Val(content, env, r - 1)
    else if p == 0 || p !in content then false
    else match content[p]
      case Var(v, s) => (v, s) in env
      case And(c0, c1) => OlderChild(c0, p) && OlderChild(c1, p) && Val(content, env, c0) && Val(content, env, c1)
  }

  function Not(r: Ref): Ref {
    if r % 2 == 0 then r + 1 else r - 1
  }

  lemma ValNot(content: Contents, env: Env, r: Ref)
    ensures Val(content, env, Not(r)) == !Val(content, env, r) && !Val(content, env, 0) && Val(content, env, 1)
  {
  }

  predicate Known(content: Contents, r: Ref) {
    r / 2 == 0 || r / 2 in content
  }

  /** All children are in the table. */
  ghost predicate Whole(content: Contents) {
    Layered(content) && forall p :: IsAnd(content, p) ==> content[p].c0 / 2 in content && content[p].c1 / 2 in content
  }

  lemma OkWhole(st: Store)
    requires Ok(st) && st.dying == {}
    ensures Whole(st.content)
  {
    hide UsesOf, Counted;
    forall p | IsAnd(st.content, p) ensures st.content[p].c0 / 2 in st.content && st.content[p].c1 / 2 in st.content {
      assert Active(st, Left(p)) && Active(st, Right(p));
      assert Live(st, Target(st, Left(p))) && Live(st, Target(st, Right(p)));
    }
  }

  /** Tables that agree give known references the same value. */
  lemma {:induction false} ValAgree(content: Contents, content': Contents, env: Env, r: Ref)
    requires Whole(content) && Whole(content') && Agree(content, content') && Known(content, r) && Known(content', r)
    ensures Val(content', env, r) == Val(content, env, r)
    decreases r / 2, r % 2
  {
    var p := r / 2;
    if r % 2 == 1 {
      ValAgree(content, content', env, r - 1);
    } else if IsAnd(content, p) {
      assert IsAnd(content', p);
      ValAgree(content, content', env, content[p].c0);
      ValAgree(content, content', env, content[p].c1);
    }
  }

  /** One more than the highest level of a variable below a reference. */
  ghost function Height(content: Contents, level: (nat, int) -> nat, r: Ref): nat
    decreases r / 2
  {
    var p := r / 2;
    if p == 0 || p !in content then 0
    else match content[p]
      case Var(v, s) => level(v, s) + 1
      case And(c0, c1) =>
        if OlderChild(c0, p) && OlderChild(c1, p) then
          (if Height(content, level, c0) > Height(content, level, c1) then Height(content, level, c0)
           else Height(content, level, c1))
        else 0
  }

  lemma {:induction false} HeightAgree(content: Contents, content': Contents, level: (nat, int) -> nat, r: Ref)
    requires Whole(content) && Whole(content') && Agree(content, content') && Known(content, r) && Known(content', r)
    ensures Height(content', level, r) == Height(content, level, r)
    decreases r / 2
  {
    var p := r / 2;
    if IsAnd(content, p) {
      assert IsAnd(content', p);
      HeightAgree(content, content', level, content[p].c0);
      HeightAgree(content, content', level, content[p].c1);
    }
  }

  lemma HeightNot(content: Contents, level: (nat, int) -> nat, r: Ref, q: Ref)
    requires r / 2 == q / 2
    ensures Height(content, level, r) == Height(content, level, q)
  {
  }

  lemma ChildHeights(content: Contents, level: (nat, int) -> nat, p: nat)
    requires IsAnd(content, p) && Layered(content)
    ensures Height(content, level, content[p].c0) <= Height(content, level, 2 * p)
    ensures Height(content, level, content[p].c1) <= Height(content, level, 2 * p)
  {
  }

  /** Every variable below a reference belongs to time slice s. */
  ghost predicate Sliced(content: Contents, r: Ref, s: int)
    decreases r / 2
  {
    var p := r / 2;
    if p == 0 || p !in content then true
    else match content[p]
      case Var(v, t) => t == s
      case And(c0, c1) => OlderChild(c0, p) && OlderChild(c1, p) && Sliced(content, c0, s) && Sliced(content, c1, s)
  }

  lemma {:induction false} SlicedAgree(content: Contents, content': Contents, r: Ref, s: int)
    requires Whole(content) && Whole(content') && Agree(content, content') && Known(content, r) && Known(content', r)
    ensures Sliced(content', r, s) == Sliced(content, r, s)
    decreases r / 2
  {
    var p := r / 2;
    if IsAnd(content, p) {
      assert IsAnd(content', p);
      SlicedAgree(content, content', content[p].c0, s);
      SlicedAgree(content, content', content[p].c1, s);
    }
  }

  lemma SlicedNot(content: Contents, r: Ref, q: Ref, s: int)
    requires r / 2 == q / 2
    ensures Sliced(content, r, s) == Sliced(content, q, s)
  {
  }

  /** A plain variable node. */
  predicate VarAt(content: Contents, r: Ref, v: nat, s: int) {
    r % 2 == 0 && r / 2 in content && content[r / 2] == Var(v, s)
  }

  // ----- what a translation of references means -----

  /** Time shift, or substitution by the right-hand sides known in a table. */
  datatype Mode = Shift(delta: int) | Subst(content: Contents, rhs: map<nat, Ref>)

  /** full solves the assignments and otherwise agrees with env. */
  ghost predicate Solves(content: Contents, rhs: map<nat, Ref>, env: Env, full: Env) {
    (forall p :: p in rhs && p in content && content[p].Var? ==>
      ((content[p].v, content[p].s) in full <==> Val(content, full, rhs[p]))) &&
    forall v: nat, s: int :: !Assigned(content, rhs, v, s) ==> ((v, s) in full <==> (v, s) in env)
  }

  ghost predicate Assigned(content: Contents, rhs: map<nat, Ref>, v: nat, s: int) {
    exists p :: p in rhs && p in content && content[p] == Var(v, s)
  }

  /** The environment in which the original is read when the result is read in env. */
  ghost predicate Related(mode: Mode, env: Env, full: Env) {
    match mode
    case Shift(delta) => forall v: nat, s: int :: (v, s) in full <==> (v, s + delta) in env
    case Subst(content, rhs) => Solves(content, rhs, env, full)
  }

  /** res under env is r under the related environment. */
  ghost predicate Same(content: Contents, mode: Mode, r: Ref, res: Ref) {
    forall env, full {:trigger Related(mode, env, full)} ::
      Related(mode, env, full) ==> (Val(content, env, res) <==> Val(content, full, r))
  }

  /** A shift moves every variable. */
  ghost predicate Moves(content: Contents, mode: Mode, r: Ref, res: Ref) {
    mode.Shift? ==> MovesSlices(content, mode.delta, r, res) && MovesVar(content, mode.delta, r, res)
  }

  ghost predicate MovesSlices(content: Contents, delta: int, r: Ref, res: Ref) {
    forall s: int :: Sliced(content, r, s) ==> Sliced(content, res, s + delta)
  }

  ghost predicate MovesVar(content: Contents, delta: int, r: Ref, res: Ref) {
    forall v: nat, s: int :: VarAt(content, r, v, s) ==> VarAt(content, res, v, s + delta)
  }

  ghost predicate Translates(content: Contents, mode: Mode, r: Ref, res: Ref) {
    Same(content, mode, r, res) && Moves(content, mode, r, res)
  }

  lemma TranslatesAgree(content: Contents, content': Contents, mode: Mode, r: Ref, res: Ref)
    requires Whole(content) && Whole(content') && Agree(content, content')
    requires Known(content, r) && Known(content', r) && Known(content, res) && Known(content', res)
    requires Translates(content, mode, r, res)
    ensures Translates(content', mode, r, res)
  {
    MovesAgree(content, content', mode, r, res);
    hide Val, Whole, Related, Moves;
    forall env, full {:trigger Related(mode, env, full)} | Related(mode, env, full)
      ensures Val(content', env, res) <==> Val(content', full, r)
    {
      ValAgree(content, content', env, res);
      ValAgree(content, content', full, r);
    }
  }

  lemma MovesAgree(content: Contents, content': Contents, mode: Mode, r: Ref, res: Ref)
    requires Whole(content) && Whole(content') && Agree(content, content')
    requires Known(content, r) && Known(content', r) && Known(content, res) && Known(content', res)
    requires Moves(content, mode, r, res)
    ensures Moves(content', mode, r, res)
  {
    if mode.Shift? {
      VarMovesAgree(content, content', mode.delta, r, res);
      hide Whole, Agree, Sliced, MovesVar;
      forall s: int | Sliced(content', r, s) ensures Sliced(content', res, s + mode.delta) {
        SlicedAgree(content, content', r, s);
        SlicedAgree(content, content', res, s + mode.delta);
      }
    }
  }

  lemma VarMovesAgree(content: Contents, content': Contents, delta: int, r: Ref, res: Ref)
    requires Whole(content) && Whole(content') && Agree(content, content')
    requires Known(content, r) && Known(content', r) && Known(content, res) && Known(content', res)
    requires MovesVar(content, delta, r, res)
    ensures MovesVar(content', delta, r, res)
  {
    forall v: nat, s: int | VarAt(content', r, v, s) ensures VarAt(content', res, v, s + delta) {
      assert VarAt(content, r, v, s);
      assert VarAt(content, res, v, s + delta);
    }
  }

  lemma TranslatesNot(content: Contents, mode: Mode, r: Ref, res: Ref)
    requires Translates(content, mode, r, res) && r % 2 == 0
    ensures Translates(content, mode, Not(r), Not(res))
  {
    hide Val, Related, Sliced;
    forall env, full {:trigger Related(mode, env, full)} | Related(mode, env, full)
      ensures Val(content, env, Not(res)) <==> Val(content, full, Not(r))
    {
      ValNot(content, env, res);
      ValNot(content, full, r);
    }
    if mode.Shift? {
      forall s: int | Sliced(content, Not(r), s) ensures Sliced(content, Not(res), s + mode.delta) {
        SlicedNot(content, r, Not(r), s);
        SlicedNot(content, res, Not(res), s + mode.delta);
      }
    }
  }

  /** A reference means the conjunction of two. */
  ghost predicate Conjoins(content: Contents, r: Ref, a: Ref, b: Ref) {
    (forall env :: Val(content, env, r) == (Val(content, env, a) && Val(content, env, b))) &&
    forall s: int :: Sliced(content, a, s) && Sliced(content, b, s) ==> Sliced(content, r, s)
  }

  ghost predicate Disjoins(content: Contents, r: Ref, a: Ref, b: Ref) {
    forall env :: Val(content, env, r) == (Val(content, env, a) || Val(content, env, b))
  }

  lemma ConjoinsNot(content: Contents, c: Ref, a: Ref, b: Ref)
    requires Conjoins(content, c, Not(a), Not(b))
    ensures Disjoins(content, Not(c), a, b)
  {
    hide Val, Sliced;
    forall env ensures Val(content, env, Not(c)) == (Val(content, env, a) || Val(content, env, b)) {
      ValNot(content, env, c);
      ValNot(content, env, a);
      ValNot(content, env, b);
    }
  }

  lemma TranslatesAnd(content: Contents, mode: Mode, p: nat, l: Ref, r: Ref, res: Ref)
    requires IsAnd(content, p) && Layered(content) && Translates(content, mode, content[p].c0, l)
    requires Translates(content, mode, content[p].c1, r) && Conjoins(content, res, l, r)
    ensures Translates(content, mode, 2 * p, res)
  {
    MovesAnd(content, mode, p, l, r, res);
    hide Related, Moves;
    forall env, full {:trigger Related(mode, env, full)} | Related(mode, env, full)
      ensures Val(content, env, res) <==> Val(content, full, 2 * p)
    {
      assert Val(content, full, 2 * p) == (Val(content, full, content[p].c0) && Val(content, full, content[p].c1));
    }
  }

  lemma MovesAnd(content: Contents, mode: Mode, p: nat, l: Ref, r: Ref, res: Ref)
    requires IsAnd(content, p) && Layered(content) && Moves(content, mode, content[p].c0, l)
    requires Moves(content, mode, content[p].c1, r) && Conjoins(content, res, l, r)
    ensures Moves(content, mode, 2 * p, res)
  {
    hide Val;
    if mode.Shift? {
      forall s: int | Sliced(content, 2 * p, s) ensures Sliced(content, res, s + mode.delta) {
        assert Sliced(content, content[p].c0, s) && Sliced(content, content[p].c1, s);
        assert Sliced(content, l, s + mode.delta) && Sliced(content, r, s + mode.delta);
      }
    }
  }

  function Swapped(c: Content): Content {
    match c
    case Var(v, s) => c
    case And(c0, c1) => And(c1, c0)
  }

  /** No two nodes with the same content, not even with swapped children. */
  ghost predicate Unique(content: Contents) {
    forall p, q :: p in content && q in content && p != q ==>
      content[p] != content[q] && content[p] != Swapped(content[q])
  }

  /** The cache holds translations of live nodes. */
  ghost predicate CacheMeans(content: Contents, slots: map<Slot, Held>, mode: Mode) {
    forall p: nat :: Cache(p) in slots ==> CachedAt(content, slots, mode, p)
  }

  ghost predicate CachedAt(content: Contents, slots: map<Slot, Held>, mode: Mode, p: nat)
    requires Cache(p) in slots
  {
    slots[Cache(p)].Node? && p in content && Known(content, slots[Cache(p)].r) &&
    Translates(content, mode, 2 * p, slots[Cache(p)].r)
  }

  lemma CacheAgree(content: Contents, content': Contents, slots: map<Slot, Held>, mode: Mode)
    requires Whole(content) && Whole(content') && Agree(content, content') && CacheMeans(content, slots, mode)
    requires forall p: nat :: Cache(p) in slots && slots[Cache(p)].Node? ==>
               p in content' && Known(content', slots[Cache(p)].r)
    ensures CacheMeans(content', slots, mode)
  {
    hide Whole, Agree, Translates;
    forall p: nat | Cache(p) in slots ensures CachedAt(content', slots, mode, p) {
      assert CachedAt(content, slots, mode, p);
      TranslatesAgree(content, content', mode, 2 * p, slots[Cache(p)].r);
    }
  }

  /** The stack lists the cached nodes. */
  ghost predicate Stacked(slots: map<Slot, Held>, stack: seq<nat>) {
    (forall p: nat :: Cache(p) in slots <==> p in stack) && forall i, j :: 0 <= i < j < |stack| ==> stack[i] != stack[j]
  }

  /** Only cache entries were added. */
  ghost predicate Grown(before: map<Slot, Held>, slots: map<Slot, Held>) {
    (forall slot :: slot in before ==> slot in slots && slots[slot] == before[slot]) &&
    forall slot :: slot in slots && slot !in before ==> slot.Cache?
  }

  lemma SlotsLive(st: Store)
    requires Ok(st)
    ensures forall slot :: slot in st.slots ==>
            Live(st, Owner(slot)) && (st.slots[slot].Node? ==> Live(st, st.slots[slot].r / 2))
  {
    hide UsesOf, Counted, Layered;
    forall slot | slot in st.slots
      ensures Live(st, Owner(slot)) && (st.slots[slot].Node? ==> Live(st, st.slots[slot].r / 2))
    {
      assert Active(st, Key(slot)) && (st.slots[slot].Node? ==> Active(st, Value(slot)));
    }
  }

  /** Cached translations survive any change that keeps the stack entries. */
  lemma CacheSurvives(st: Store, st': Store, mode: Mode)
    requires Ok(st) && Ok(st') && st.dying == {} && st'.dying == {} && Agree(st.content, st'.content)
    requires st'.slots == st.slots && CacheMeans(st.content, st.slots, mode)
    ensures CacheMeans(st'.content, st'.slots, mode)
  {
    SlotsLive(st');
    OkWhole(st);
    OkWhole(st');
    OkZero(st');
    hide Ok, Whole, Agree;
    forall p: nat | Cache(p) in st.slots && st.slots[Cache(p)].Node?
      ensures p in st'.content && Known(st'.content, st.slots[Cache(p)].r)
    {
      assert Live(st', Owner(Cache(p))) && CachedAt(st.content, st.slots, mode, p);
      assert p != 0;
    }
    CacheAgree(st.content, st'.content, st.slots, mode);
  }

  lemma OkZero(st: Store)
    requires Ok(st)
    ensures 0 !in st.content
  {
  }

  /** Whatever was in the table stays while its holders stay. */
  lemma Survive(st: Store, st': Store)
    requires Ok(st) && Ok(st') && st.dying == {} && st'.dying == {} && Agree(st.content, st'.content)
    requires forall m :: m in st.handles ==> m in st'.handles
    requires forall slot :: slot in st.slots ==> slot in st'.slots && st'.slots[slot] == st.slots[slot]
    ensures Within(st.content, st'.content)
  {
    var top := Bound(st.content.Keys);
    forall n | n in st.content ensures n in st'.content {
      StaysLive(st, st', n, top);
    }
  }

  lemma Bound(s: set<nat>) returns (top: nat)
    ensures forall n :: n in s ==> n < top
  {
    top := 0;
    if s != {} {
      var m := MaxKey(s);
      top := m + 1;
    }
  }

  // ----- the manager -----

  class Manager {
    var content: Contents
    var ref: map<nat, nat>
    var slots: map<Slot, Held>
    var cachedStack: seq<nat>
    var assignedStack: seq<nat>
    var indexStack: seq<nat>
    /** The idx fields that are not zero. */
    var idx: map<nat, nat>
    /** A number no node has had yet. */
    var next: nat
    ghost var handles: multiset<nat>
    ghost var dying: set<nat>

    ghost function St(): Store
      reads this`content, this`ref, this`slots, this`handles, this`dying
    {
      Store(content, ref, slots, handles, dying)
    }

    /** Counters exact, node numbers never reused, no duplicates. */
    ghost predicate Sound()
      reads this`content, this`ref, this`slots, this`handles, this`dying, this`next
    {
      Ok(St()) && Unique(content) && 0 < next && forall p :: p in content ==> p < next
    }

    ghost predicate Valid()
      reads this`content, this`ref, this`slots, this`handles, this`dying, this`next
    {
      Sound() && dying == {}
    }

    constructor ()
      ensures Valid() && content == map[] && handles == multiset{} && slots == map[]
      ensures cachedStack == [] && assignedStack == [] && indexStack == [] && idx == map[]
    {
      content, ref, slots, cachedStack, assignedStack, next := map[], map[0 := 0], map[], [], [], 1;
      indexStack, idx := [], map[];
      handles, dying := multiset{}, {};
      new;
      EmptyOk();
    }

    lemma EmptyOk()
      requires content == map[] && ref == map[0 := 0] && slots == map[] && handles == multiset{} && dying == {}
      ensures Ok(St())
    {
      var st := St();
      forall u ensures u !in UsesOf(st, 0) {
        UsesOfIn(st, 0, u);
      }
      assert UsesOf(st, 0) == {};
      assert CountedAt(st, 0);
    }

    /** simpaig_current_nodes */
    function CurrentNodes(): nat
      reads this`content, this`ref
    {
      |content| + if 0 in ref then ref[0] else 0
    }

    /** inc */
    method Inc(r: Ref)
      requires Valid() && Known(content, r)
      modifies this`ref, this`handles
      ensures Valid() && handles == old(handles) + multiset{r / 2}
    {
      hide Ok, Unique;
      IncrementedOk(St(), r / 2);
      ref := ref[r / 2 := ref[r / 2] + 1];
      handles := handles + multiset{r / 2};
    }

    /** dec: nodes whose counter reaches zero are freed with all that only they held. */
    method Dec(r: Ref)
      requires Sound() && r / 2 in handles
      modifies this`ref, this`handles, this`content, this`dying
      ensures Sound() && handles == old(handles) - multiset{r / 2} && dying == old(dying) &&
              Within(content, old(content))
      decreases r / 2, 3
    {
      hide Ok, UsesOf, Layered, Unique, Live, ChildHandles, Died;
      WithinSelf(content);
      var n := r / 2;
      DecrementedOk(St(), n);
      HandleCounted(St(), n);
      LiveIs(St(), n);
      if ref[n] > 1 || n == 0 {
        ref := ref[n := ref[n] - 1];
        handles := handles - multiset{n};
      } else {
        DropLast(n);
      }
    }

    /** The last handle of a node goes. */
    method DropLast(n: nat)
      requires Sound() && n in handles && n in content && ref[n] == 1
      modifies this`ref, this`handles, this`content, this`dying
      ensures Sound() && handles == old(handles) - multiset{n} && dying == old(dying) && Within(content, old(content))
      decreases n, 2
    {
      hide Ok, UsesOf, Layered, Unique, Live, ChildHandles, Within;
      DiedOk(St(), n);
      Release(n);
      Free(n);
    }

    /** The rest of dec for a node without references. */
    method Free(n: nat)
      requires Sound() && n in dying && n in content && ChildHandles(content[n]) <= handles
      modifies this`ref, this`handles, this`content, this`dying
      ensures Sound() && handles == old(handles) - ChildHandles(old(content)[n]) && dying == old(dying) - {n} &&
              Within(content, old(content))
      decreases n, 1
    {
      hide Ok, UsesOf, Layered, Unique, ChildHandles;
      var c := content[n];
      FreeChildren(n, c);
      RemovedOk(St(), n);
      SubsetUnique(content, content - {n});
      content := content - {n};
      ref := ref - {n};
      dying := dying - {n};
    }

    method FreeChildren(n: nat, c: Content)
      requires Sound() && n in dying && n in content && content[n] == c && ChildHandles(c) <= handles
      modifies this`ref, this`handles, this`content, this`dying
      ensures Sound() && handles == old(handles) - ChildHandles(c) && dying == old(dying) &&
              Within(content, old(content))
      ensures n in content
      decreases n, 0
    {
      hide Ok, UsesOf, Layered, Unique, Within;
      WithinSelf(content);
      if c.And? {
        ChildrenOlder(St(), n);
        HandlesOf(c.c0 / 2, c.c1 / 2, handles);
        Dec(c.c0);
        ghost var content1 := content;
        Dec(c.c1);
        WithinTrans(content, content1, old(content));
        StillThere(St(), n);
      } else {
        assert ChildHandles(c) == multiset{};
      }
    }

    /** The counter reaches zero; the children's references are the caller's now. */
    method Release(n: nat)
      requires n in content && Ok(Died(St(), n)) && n in handles && n !in dying
      modifies this`ref, this`handles, this`dying
      ensures St() == Died(old(St()), n) && ChildHandles(content[n]) <= handles && n in dying
      ensures handles - ChildHandles(content[n]) == old(handles) - multiset{n} && dying - {n} == old(dying)
    {
      hide Ok, ChildHandles, Died;
      BagCancel(handles - multiset{n}, ChildHandles(content[n]));
      DiedIs(St(), n);
      ref := ref[n := 0];
      handles := handles - multiset{n} + ChildHandles(content[n]);
      dying := dying + {n};
    }

    /** A node not in the table yet. */
    method NewNode(c: Content) returns (p: nat)
      requires Valid() && Fits(St(), next, c) && forall q :: q in content ==>
               content[q] != c && content[q] != Swapped(c)
      requires c.And? ==> c.c0 / 2 != c.c1 / 2
      modifies this`content, this`ref, this`next, this`handles
      ensures Valid() && p in content && content[p] == c && p > 0 && p !in old(content)
      ensures handles == old(handles) + multiset{p} && content == old(content)[p := c]
    {
      hide Ok, UsesOf, Fits;
      p := next;
      CreatedOk(St(), p, c);
      assert p !in content;
      ref := BumpedBy(ref, c)[p := 1];
      content := content[p := c];
      handles := handles + multiset{p};
      next := next + 1;
    }

    /** simpaig_var */
    method NewVar(v: nat, s: int) returns (r: Ref)
      requires Valid()
      modifies this`content, this`ref, this`next, this`handles
      ensures Valid() && r % 2 == 0 && r / 2 in content && content[r / 2] == Var(v, s)
      ensures handles == old(handles) + multiset{r / 2} && Within(old(content), content)
    {
      hide Ok, UsesOf, Unique;
      WithinSelf(content);
      if q :| q in content && content[q] == Var(v, s) {
        Inc(2 * q);
        r := 2 * q;
      } else {
        NoTwin(content, Var(v, s));
        var p := NewNode(Var(v, s));
        r := 2 * p;
      }
    }

    /** simpaig_and */
    method Conjunction(c0: Ref, c1: Ref) returns (r: Ref)
      requires Valid() && Known(content, c0) && Known(content, c1)
      modifies this`content, this`ref, this`next, this`handles
      ensures Valid() && Known(content, r) && Conjoins(content, r, c0, c1)
      ensures handles == old(handles) + multiset{r / 2} && Within(old(content), content)
    {
      hide Ok, UsesOf, Unique, Conjoins;
      WithinSelf(content);
      ConstantCases(content, c0, c1);
      if c0 == 0 || c1 == 0 || c0 == Not(c1) {
        r := 0;
        Inc(r);
      } else if c0 == 1 || c0 == c1 {
        r := c1;
        Inc(r);
      } else if c1 == 1 {
        r := c0;
        Inc(r);
      } else {
        r := FindOrCreate(c0, c1);
      }
    }

    /** simpaig_or */
    method Disjunction(a: Ref, b: Ref) returns (r: Ref)
      requires Valid() && Known(content, a) && Known(content, b)
      modifies this`content, this`ref, this`next, this`handles
      ensures Valid() && Known(content, r) && Disjoins(content, r, a, b)
      ensures handles == old(handles) + multiset{r / 2} && Within(old(content), content)
    {
      hide Ok, UsesOf, Unique, Conjoins, Disjoins, Within;
      NotKnown(content, a);
      NotKnown(content, b);
      var c := Conjunction(Not(a), Not(b));
      NotKnown(content, c);
      ConjoinsNot(content, c, a, b);
      r := Not(c);
    }

    /** Without handles and stack entries simpaig_current_nodes is zero. */
    lemma NoneLeft()
      requires Valid() && handles == multiset{} && slots == map[]
      ensures CurrentNodes() == 0
    {
      NothingLeft(St());
    }

    method FindOrCreate(c0: Ref, c1: Ref) returns (r: Ref)
      requires Valid() && c0 / 2 in content && c1 / 2 in content && c0 / 2 != c1 / 2
      modifies this`content, this`ref, this`next, this`handles
      ensures Valid() && r / 2 in content && Conjoins(content, r, c0, c1)
      ensures handles == old(handles) + multiset{r / 2} && Within(old(content), content)
    {
      hide Ok, UsesOf, Unique, Conjoins, Layered;
      WithinSelf(content);
      LayeredOf(St());
      if q :| q in content && content[q] == And(c1, c0) {
        Inc(2 * q);
        r := 2 * q;
        NodeConjoins(content, q, c1, c0);
      } else if q :| q in content && content[q] == And(c0, c1) {
        Inc(2 * q);
        r := 2 * q;
        NodeConjoins(content, q, c0, c1);
      } else {
        FitsNext(St(), next, c0, c1);
        NoTwin(content, And(c0, c1));
        var p := NewNode(And(c0, c1));
        r := 2 * p;
        LayeredOf(St());
        NodeConjoins(content, p, c0, c1);
      }
    }

    /** Two increments and a push. */
    method Enter(slot: Slot, h: Held)
      requires Valid() && Enterable(St(), slot, h)
      modifies this`ref, this`slots
      ensures Valid() && slots == old(slots)[slot := h]
    {
      hide Ok, UsesOf, Unique, Enterable;
      EnteredOk(St(), slot, h);
      ref := HeldBump(Bumped(ref, Owner(slot)), h);
      slots := slots[slot := h];
    }

    /** A popped entry gives up its two references. */
    method Pop(slot: Slot)
      requires Valid() && slot in slots
      modifies this`ref, this`slots, this`content, this`handles, this`dying
      ensures Valid() && slots == old(slots) - {slot} && handles == old(handles) && Within(content, old(content))
    {
      hide Ok, UsesOf, Unique, Within;
      PoppedOk(St(), slot);
      ghost var owner, held := Owner(slot), slots[slot];
      var h := slots[slot];
      BagTwo(handles, owner, h);
      handles := handles + multiset{owner} + HeldHandle(h);
      slots := slots - {slot};
      WithinSelf(content);
      if h.Node? {
        Dec(h.r);
      }
      ghost var content1 := content;
      Dec(2 * Owner(slot));
      WithinTrans(content, content1, old(content));
    }

    /** The external interface of dec. */
    method Drop(r: Ref)
      requires Valid() && r / 2 in handles
      modifies this`ref, this`handles, this`content, this`dying
      ensures Valid() && handles == old(handles) - multiset{r / 2} && Within(content, old(content))
    {
      Dec(r);
    }

    /** simpaig_cache */
    method Save(p: nat, r: Ref, ghost mode: Mode)
      requires Valid() && p in content && Known(content, r) && Cache(p) !in slots && Stacked(slots, cachedStack)
      requires CacheMeans(content, slots, mode) && Translates(content, mode, 2 * p, r)
      modifies this`ref, this`slots, this`cachedStack
      ensures Valid() && slots == old(slots)[Cache(p) := Node(r)] && Stacked(slots, cachedStack)
      ensures CacheMeans(content, slots, mode)
    {
      hide Ok, UsesOf, Unique, Translates;
      Enter(Cache(p), Node(r));
      cachedStack := cachedStack + [p];
      forall q: nat | Cache(q) in slots ensures CachedAt(content, slots, mode, q) {
        if q != p {
          assert CachedAt(content, old(slots), mode, q);
        }
      }
    }

    /** The conjunction of two translated children translates their parent. */
    method Join(p: nat, l: Ref, r: Ref, ghost mode: Mode) returns (res: Ref)
      requires Valid() && IsAnd(content, p) && Known(content, l) && Known(content, r) &&
               CacheMeans(content, slots, mode)
      requires Translates(content, mode, content[p].c0, l) && Translates(content, mode, content[p].c1, r)
      modifies this`content, this`ref, this`next, this`handles
      ensures Valid() && Within(old(content), content) && handles == old(handles) + multiset{res / 2} &&
              Known(content, res)
      ensures CacheMeans(content, slots, mode) && Translates(content, mode, 2 * p, res)
    {
      hide Ok, UsesOf, Unique, Translates, Conjoins, CacheMeans, Within, Layered, Agree;
      ghost var st1, a, b := St(), content[p].c0, content[p].c1;
      ChildrenKnown(st1, p);
      res := Conjunction(l, r);
      ghost var st2 := St();
      GrowAgree(st1.content, st2.content);
      CacheSurvives(st1, st2, mode);
      Carry(st1, st2, mode, a, l);
      Carry(st1, st2, mode, b, r);
      LayeredOf(st2);
      Here(st1.content, st2.content, p);
      TranslatesAnd(content, mode, p, l, r, res);
    }

    /** The end of both recursions at a conjunction: combine, release, cache. */
    method Combine(p: nat, l: Ref, r: Ref, ghost mode: Mode, ghost st0: Store) returns (res: Ref)
      requires Valid() && Ok(st0) && st0.dying == {} && Within(st0.content, content) && Grown(st0.slots, slots)
      requires handles == st0.handles + multiset{l / 2} + multiset{r / 2} && IsAnd(content, p) && p in st0.content
      requires Known(content, l) && Known(content, r) && Cache(p) !in slots && Stacked(slots, cachedStack)
      requires CacheMeans(content, slots, mode)
      requires Translates(content, mode, content[p].c0, l) && Translates(content, mode, content[p].c1, r)
      modifies this`content, this`ref, this`slots, this`cachedStack, this`next, this`handles, this`dying
      ensures Valid() && Within(st0.content, content) && handles == st0.handles + multiset{res / 2}
      ensures Known(content, res) && slots == old(slots)[Cache(p) := Node(res)] && Stacked(slots, cachedStack)
      ensures CacheMeans(content, slots, mode) && Translates(content, mode, 2 * p, res) && Agree(old(content), content)
    {
      hide Ok, UsesOf, Unique, Translates, Conjoins, CacheMeans, Within, Grown, Stacked, Layered, Agree, IsAnd;
      ghost var st1 := St();
      AndIn(content, p);
      res := Join(p, l, r, mode);
      ghost var st2 := St();
      WithinTrans(st0.content, st1.content, st2.content);
      Release2(l, r, res, st0.handles);
      Settle(st0, st2, St(), mode, 2 * p, res);
      UpDownAgree(st1.content, st2.content, content);
      Here(st0.content, content, p);
      Save(p, res, mode);
    }

    /** Two temporaries are dropped, the result stays. */
    method Release2(l: Ref, r: Ref, ghost res: Ref, ghost before: multiset<nat>)
      requires Valid() && handles == before + multiset{l / 2} + multiset{r / 2} + multiset{res / 2}
      modifies this`ref, this`handles, this`content, this`dying
      ensures Valid() && Within(content, old(content)) && handles == before + multiset{res / 2}
    {
      hide Ok, UsesOf, Unique, Within;
      BagThree(before, l / 2, r / 2, res / 2);
      Drop(l);
      ghost var content3 := content;
      Drop(r);
      WithinTrans(content, content3, old(content));
    }

    /** Two temporaries are dropped. */
    method DropTwo(l: Ref, r: Ref, ghost before: multiset<nat>)
      requires Valid() && handles == before + multiset{l / 2} + multiset{r / 2}
      modifies this`ref, this`handles, this`content, this`dying
      ensures Valid() && Within(content, old(content)) && handles == before
    {
      hide Ok, UsesOf, Unique, Within;
      BagPair(before, l / 2, r / 2);
      Drop(r);
      ghost var content3 := content;
      Drop(l);
      WithinTrans(content, content3, old(content));
    }

    /** A cached translation is handed out again. */
    method FromCache(p: nat, ghost mode: Mode) returns (res: Ref)
      requires Valid() && Cache(p) in slots && CacheMeans(content, slots, mode)
      modifies this`ref, this`handles
      ensures Valid() && handles == old(handles) + multiset{res / 2} && Known(content, res) &&
              Translates(content, mode, 2 * p, res)
    {
      hide Ok, UsesOf, Unique, Translates;
      assert CachedAt(content, slots, mode, p);
      res := slots[Cache(p)].r;
      Inc(res);
    }

    /** A variable node moved in time. */
    method ShiftVar(p: nat, delta: int) returns (res: Ref)
      requires Valid() && p in content && content[p].Var? && CacheMeans(content, slots, Shift(delta))
      modifies this`content, this`ref, this`next, this`handles
      ensures Valid() && Within(old(content), content) && handles == old(handles) + multiset{res / 2} &&
              Known(content, res)
      ensures CacheMeans(content, slots, Shift(delta)) && Translates(content, Shift(delta), 2 * p, res)
    {
      hide Ok, UsesOf, Unique, CacheMeans, Agree;
      ghost var st1 := St();
      res := NewVar(content[p].v, content[p].s + delta);
      GrowAgree(st1.content, content);
      CacheSurvives(st1, St(), Shift(delta));
      Here(st1.content, content, p);
      OkZero(St());
      ShiftedVar(content, p, res, delta);
    }

    /** simpaig_shift_rec */
    method ShiftRec(node: Ref, delta: int) returns (res: Ref)
      requires Valid() && node / 2 in content && CacheMeans(content, slots, Shift(delta)) && Stacked(slots, cachedStack)
      modifies this`content, this`ref, this`slots, this`cachedStack, this`next, this`handles, this`dying
      ensures Valid() && Within(old(content), content) && handles == old(handles) + multiset{res / 2} &&
              Known(content, res)
      ensures Grown(old(slots), slots) && Stacked(slots, cachedStack) && CacheMeans(content, slots, Shift(delta))
      ensures Translates(content, Shift(delta), node, res)
      ensures forall p: nat :: Cache(p) in slots && Cache(p) !in old(slots) ==> p <= node / 2
      decreases node / 2
    {
      hide Ok, UsesOf, Unique, Translates, CacheMeans, Within, Stacked, Layered, Agree;
      var p := node / 2;
      GrownSelf(slots);
      WithinSelf(content);
      if Cache(p) in slots {
        res := FromCache(p, Shift(delta));
      } else if content[p].Var? {
        res := ShiftVar(p, delta);
        Here(old(content), content, p);
        Save(p, res, Shift(delta));
      } else {
        res := ShiftAnd(p, delta);
      }
      EvenRef(node);
      if node % 2 == 1 {
        TranslatesNot(content, Shift(delta), 2 * p, res);
        NotKnown(content, res);
        res := Not(res);
      }
    }

    method ShiftAnd(p: nat, delta: int) returns (res: Ref)
      requires Valid() && IsAnd(content, p) && Cache(p) !in slots && CacheMeans(content, slots, Shift(delta))
      requires Stacked(slots, cachedStack)
      modifies this`content, this`ref, this`slots, this`cachedStack, this`next, this`handles, this`dying
      ensures Valid() && Within(old(content), content) && handles == old(handles) + multiset{res / 2} &&
              Known(content, res)
      ensures Grown(old(slots), slots) && Stacked(slots, cachedStack) && CacheMeans(content, slots, Shift(delta))
      ensures Translates(content, Shift(delta), 2 * p, res)
      ensures forall q: nat :: Cache(q) in slots && Cache(q) !in old(slots) ==> q <= p
      decreases p, 0
    {
      hide Ok, UsesOf, Unique, Translates, CacheMeans, Within, Stacked, Layered, Agree, IsAnd;
      ghost var st0 := St();
      AndParts(st0, p);
      var c0, c1 := content[p].c0, content[p].c1;
      var l := ShiftRec(c0, delta);
      ghost var st1 := St();
      Here(st0.content, st1.content, c1 / 2);
      var r := ShiftRec(c1, delta);
      ghost var st2 := St();
      Here(st0.content, st1.content, c0 / 2);
      Carry(st1, st2, Shift(delta), c0, l);
      WithinTrans(st0.content, st1.content, st2.content);
      GrownTrans(st0.slots, st1.slots, st2.slots);
      AndKept(st0.content, st2.content, p);
      res := Combine(p, l, r, Shift(delta), st0);
      GrownOne(st0.slots, st2.slots, Cache(p), Node(res));
    }

    /** simpaig_reset_cache */
    method ResetCache()
      requires Valid() && Stacked(slots, cachedStack)
      modifies this`ref, this`slots, this`content, this`handles, this`dying, this`cachedStack
      ensures Valid() && handles == old(handles) && Within(content, old(content)) && cachedStack == [] &&
              Stacked(slots, [])
      ensures slots == map slot | slot in old(slots) && !slot.Cache? :: old(slots)[slot]
    {
      hide Ok, UsesOf, Unique, Within;
      WithinSelf(content);
      for i := 0 to |cachedStack|
        invariant Valid() && handles == old(handles) && Within(content, old(content)) && cachedStack == old(cachedStack)
        invariant forall slot :: slot in slots <==> slot in old(slots) && (slot.Cache? ==> slot.p !in cachedStack[..i])
        invariant forall slot :: slot in slots ==> slots[slot] == old(slots)[slot]
      {
        ghost var content1, slots1 := content, slots;
        assert cachedStack[i] in cachedStack && cachedStack[i] !in cachedStack[..i];
        Pop(Cache(cachedStack[i]));
        WithinTrans(content, content1, old(content));
        assert cachedStack[..i + 1] == cachedStack[..i] + [cachedStack[i]];
      }
      assert cachedStack[..|cachedStack|] == cachedStack;
      cachedStack := [];
    }

    /** simpaig_shift */
    method TimeShift(node: Ref, delta: int) returns (res: Ref)
      requires Valid() && Known(content, node) && cachedStack == [] && Stacked(slots, [])
      modifies this`content, this`ref, this`slots, this`cachedStack, this`next, this`handles, this`dying
      ensures Valid() && Within(old(content), content) && handles == old(handles) + multiset{res / 2} &&
              Known(content, res)
      ensures slots == old(slots) && cachedStack == [] && Translates(content, Shift(delta), node, res)
    {
      hide Ok, UsesOf, Unique, Translates, CacheMeans, Within, Agree;
      WithinSelf(content);
      if node < 2 {
        Inc(node);
        res := node;
        OkZero(St());
        ConstTranslates(content, Shift(delta), node);
      } else {
        ghost var st0 := St();
        EmptyCache(content, slots, Shift(delta));
        res := ShiftRec(node, delta);
        ghost var st2 := St();
        ResetCache();
        CacheGone(st0.slots, st2.slots, slots);
        Return(st0, st2, St(), Shift(delta), node, res);
      }
    }

    /** simpaig_assign */
    method Assign(lhs: Ref, rhs: Ref)
      requires Valid() && lhs % 2 == 0 && lhs / 2 in content && Known(content, rhs) && Rhs(lhs / 2) !in slots
      requires Pushed(slots, assignedStack)
      modifies this`ref, this`slots, this`assignedStack
      ensures Valid() && slots == old(slots)[Rhs(lhs / 2) := Node(rhs)] && Pushed(slots, assignedStack)
    {
      hide Ok, UsesOf, Unique;
      Enter(Rhs(lhs / 2), Node(rhs));
      assignedStack := assignedStack + [lhs / 2];
    }

    /** A variable node under substitution: its right-hand side, if any, is substituted further. */
    method SubstVar(p: nat, ghost basis: Basis) returns (res: Ref)
      requires Valid() && p in content && content[p].Var? && Cache(p) !in slots && Stacked(slots, cachedStack)
      requires Based(basis, content, slots) && CacheMeans(content, slots, basis.AsMode())
      modifies this`content, this`ref, this`slots, this`cachedStack, this`next, this`handles, this`dying
      ensures Valid() && Within(old(content), content) && handles == old(handles) + multiset{res / 2} &&
              Known(content, res)
      ensures Grown(old(slots), slots) && Stacked(slots, cachedStack) && Based(basis, content, slots)
      ensures CacheMeans(content, slots, basis.AsMode()) && Translates(content, basis.AsMode(), 2 * p, res)
      ensures NewLower(content, old(slots), slots, basis.level, 2 * p)
      decreases Height(content, basis.level, 2 * p), p, 1
    {
      hide Ok, UsesOf, Unique, Translates, CacheMeans, Within, Stacked, Layered, Agree, Based, NewLower, Grown, Height,
        Whole;
      ghost var st0, mode := St(), basis.AsMode();
      GrownSelf(slots);
      WithinSelf(content);
      if Rhs(p) in slots {
        res := SubstRhs(p, basis);
      } else {
        Inc(2 * p);
        res := 2 * p;
        FreeVar(basis, St(), p);
        NewLowerSelf(content, slots, basis.level, 2 * p);
      }
      ghost var st1 := St();
      Here(st0.content, content, p);
      Save(p, res, mode);
      GrownOne(st1.slots, st1.slots, Cache(p), Node(res));
      GrownTrans(st0.slots, st1.slots, slots);
      BasedGrown(basis, st1.content, st1.slots, slots);
      NewLowerAdd(content, st0.slots, st1.slots, basis.level, p, Node(res));
    }

    /** The right-hand side of an assigned variable. */
    method SubstRhs(p: nat, ghost basis: Basis) returns (res: Ref)
      requires Valid() && p in content && content[p].Var? && Cache(p) !in slots && Stacked(slots, cachedStack)
      requires Based(basis, content, slots) && CacheMeans(content, slots, basis.AsMode()) && Rhs(p) in slots
      modifies this`content, this`ref, this`slots, this`cachedStack, this`next, this`handles, this`dying
      ensures Valid() && Within(old(content), content) && handles == old(handles) + multiset{res / 2} &&
              Known(content, res)
      ensures Grown(old(slots), slots) && Stacked(slots, cachedStack) && Based(basis, content, slots)
      ensures CacheMeans(content, slots, basis.AsMode()) && Translates(content, basis.AsMode(), 2 * p, res)
      ensures Cache(p) !in slots && NewLower(content, old(slots), slots, basis.level, 2 * p)
      decreases Height(content, basis.level, 2 * p), p, 0
    {
      hide Ok, UsesOf, Unique, Translates, CacheMeans, Within, Stacked, Layered, Agree, Based, NewLower, Grown, Height,
        Whole;
      ghost var st0, mode := St(), basis.AsMode();
      GrownSelf(slots);
      WithinSelf(content);
      BasedRhs(basis, st0, p);
      var rhs := slots[Rhs(p)].r;
      LowerRhs(basis, st0, p);
      if rhs < 2 {
        Inc(rhs);
        res := rhs;
        OkZero(st0);
        ConstTranslates(content, mode, rhs);
        NewLowerSelf(content, slots, basis.level, rhs);
      } else {
        res := SubstRec(rhs, basis);
      }
      VarLower(st0, St(), basis.level, p, rhs);
      AssignedVar(basis, st0, St(), p, rhs, res);
    }

    /** simpaig_substitute_rec */
    method SubstRec(node: Ref, ghost basis: Basis) returns (res: Ref)
      requires Valid() && node / 2 in content && Stacked(slots, cachedStack)
      requires Based(basis, content, slots) && CacheMeans(content, slots, basis.AsMode())
      modifies this`content, this`ref, this`slots, this`cachedStack, this`next, this`handles, this`dying
      ensures Valid() && Within(old(content), content) && handles == old(handles) + multiset{res / 2} &&
              Known(content, res)
      ensures Grown(old(slots), slots) && Stacked(slots, cachedStack) && Based(basis, content, slots)
      ensures CacheMeans(content, slots, basis.AsMode()) && Translates(content, basis.AsMode(), node, res)
      ensures NewLower(content, old(slots), slots, basis.level, node)
      decreases Height(content, basis.level, node), node / 2, 2
    {
      hide Ok, UsesOf, Unique, Translates, CacheMeans, Within, Stacked, Layered, Agree, Based, NewLower, Grown, Height,
        Whole;
      var p := node / 2;
      ghost var mode := basis.AsMode();
      GrownSelf(slots);
      WithinSelf(content);
      EvenRef(node);
      HeightNot(content, basis.level, node, 2 * p);
      if Cache(p) in slots {
        res := FromCache(p, mode);
        NewLowerSelf(content, slots, basis.level, 2 * p);
      } else if content[p].Var? {
        res := SubstVar(p, basis);
      } else {
        res := SubstAnd(p, basis);
      }
      NewLowerNot(content, old(slots), slots, basis.level, node);
      if node % 2 == 1 {
        TranslatesNot(content, mode, 2 * p, res);
        NotKnown(content, res);
        res := Not(res);
      }
    }

    method SubstAnd(p: nat, ghost basis: Basis) returns (res: Ref)
      requires Valid() && IsAnd(content, p) && Cache(p) !in slots && Stacked(slots, cachedStack)
      requires Based(basis, content, slots) && CacheMeans(content, slots, basis.AsMode())
      modifies this`content, this`ref, this`slots, this`cachedStack, this`next, this`handles, this`dying
      ensures Valid() && Within(old(content), content) && handles == old(handles) + multiset{res / 2} &&
              Known(content, res)
      ensures Grown(old(slots), slots) && Stacked(slots, cachedStack) && Based(basis, content, slots)
      ensures CacheMeans(content, slots, basis.AsMode()) && Translates(content, basis.AsMode(), 2 * p, res)
      ensures NewLower(content, old(slots), slots, basis.level, 2 * p)
      decreases Height(content, basis.level, 2 * p), p, 1
    {
      hide Ok, UsesOf, Unique, Translates, CacheMeans, Within, Stacked, Layered, Agree, IsAnd, Based, NewLower, Grown,
        Height, Whole;
      ghost var st0, mode := St(), basis.AsMode();
      AndParts(st0, p);
      AndHeights(st0, basis.level, p);
      var c0, c1 := content[p].c0, content[p].c1;
      var l := SubstRec(c0, basis);
      ghost var st1 := St();
      Here(st0.content, st1.content, c0 / 2);
      Here(st0.content, st1.content, c1 / 2);
      NewLowerUp(st0, st1, st0.slots, basis.level, p, c0);
      HeightKept(st0, st1, basis.level, c1);
      HeightKept(st0, st1, basis.level, 2 * p);
      var r := SubstRec(c1, basis);
      ghost var st2 := St();
      Carry(st1, st2, mode, c0, l);
      WithinTrans(st0.content, st1.content, st2.content);
      GrownTrans(st0.slots, st1.slots, st2.slots);
      AndKept(st0.content, st2.content, p);
      NewLowerUp(st0, st2, st1.slots, basis.level, p, c1);
      res := Combine(p, l, r, mode, st0);
      GrownOne(st2.slots, st2.slots, Cache(p), Node(res));
      GrownTrans(st0.slots, st2.slots, slots);
      BasedCombined(basis, st0, St());
      Here(st0.content, st1.content, p);
      Here(st0.content, content, p);
      LowerCombined(st0, st1, st2, St(), basis, p, Node(res));
    }

    /** simpaig_push_index */
    method PushIndex(p: nat)
      requires Valid() && p in content && p !in idx && Numbered(content, slots, indexStack, idx)
      requires ChildrenIn(content, p, indexStack)
      modifies this`ref, this`slots, this`indexStack, this`idx
      ensures Valid() && Numbered(content, slots, indexStack, idx) && indexStack == old(indexStack) + [p]
      ensures OnlyIndices(old(slots), slots)
    {
      hide Ok, UsesOf, Unique, Numbered;
      NotNumbered(content, slots, indexStack, idx, p);
      Enter(Index(p), Nothing);
      NumberedMore(content, old(slots), indexStack, idx, p);
      indexStack := indexStack + [p];
      idx := idx[p := |indexStack|];
    }

    /** simpaig_assign_indices_rec: afterwards exactly the cone of node is numbered as well. */
    method AssignIndicesRec(node: Ref)
      requires Valid() && node / 2 in content && Numbered(content, slots, indexStack, idx)
      modifies this`ref, this`slots, this`indexStack, this`idx
      ensures Valid() && Numbered(content, slots, indexStack, idx) && OnlyIndices(old(slots), slots)
      ensures old(indexStack) <= indexStack && Elements(indexStack) == Elements(old(indexStack)) + Cone(content, node)
      decreases node / 2
    {
      hide Ok, UsesOf, Unique, Numbered, Layered, OnlyIndices;
      var p := node / 2;
      OnlySelf(slots);
      InStack(content, slots, indexStack, idx, p);
      if p in idx {
        ConeNumbered(content, slots, indexStack, idx, node);
        assert Elements(indexStack) + Cone(content, node) == Elements(indexStack);
        return;
      }
      ConeOf(St(), node);
      if content[p].And? {
        IndexChildren(p);
      }
      ghost var slots1 := slots;
      InStack(content, slots, indexStack, idx, p);
      ElementsMore(indexStack, p);
      PushIndex(p);
      OnlyTrans(old(slots), slots1, slots);
    }

    method IndexChildren(p: nat)
      requires Valid() && IsAnd(content, p) && p !in idx && Numbered(content, slots, indexStack, idx)
      modifies this`ref, this`slots, this`indexStack, this`idx
      ensures Valid() && Numbered(content, slots, indexStack, idx) && OnlyIndices(old(slots), slots) && p !in idx
      ensures old(indexStack) <= indexStack && ChildrenIn(content, p, indexStack)
      ensures Elements(indexStack) == Elements(old(indexStack)) + Cone(content, content[p].c0) +
              Cone(content, content[p].c1)
      decreases p, 0
    {
      hide Ok, UsesOf, Unique, Numbered, Layered, OnlyIndices, Cone;
      ghost var st := St();
      AndParts(st, p);
      InStack(content, slots, indexStack, idx, p);
      AssignIndicesRec(content[p].c0);
      ghost var slots1 := slots;
      AssignIndicesRec(content[p].c1);
      OnlyTrans(old(slots), slots1, slots);
      ConeBelow(st, content[p].c0);
      ConeBelow(st, content[p].c1);
      ConeOf(st, content[p].c0);
      ConeOf(st, content[p].c1);
      InStack(content, slots, indexStack, idx, p);
      assert p !in Elements(indexStack);
      assert content[p].c0 / 2 in Elements(indexStack) && content[p].c1 / 2 in Elements(indexStack);
    }

    /** simpaig_assign_indices */
    method AssignIndices(node: Ref)
      requires Valid() && Known(content, node) && Numbered(content, slots, indexStack, idx)
      modifies this`ref, this`slots, this`indexStack, this`idx
      ensures Valid() && Numbered(content, slots, indexStack, idx) && OnlyIndices(old(slots), slots)
      ensures old(indexStack) <= indexStack && Elements(indexStack) == Elements(old(indexStack)) + Cone(content, node)
    {
      hide Ok, UsesOf, Unique, Numbered, Layered, OnlyIndices;
      OnlySelf(slots);
      if node < 2 {
      } else {
        AssignIndicesRec(node);
      }
    }

    /** simpaig_reset_indices */
    method ResetIndices()
      requires Valid() && Numbered(content, slots, indexStack, idx)
      modifies this`ref, this`slots, this`content, this`handles, this`dying, this`indexStack, this`idx
      ensures Valid() && handles == old(handles) && Within(content, old(content)) && indexStack == [] && idx == map[]
      ensures slots == map slot | slot in old(slots) && !slot.Index? :: old(slots)[slot]
    {
      hide Ok, UsesOf, Unique, Within, Numbered, Layered, Live;
      WithinSelf(content);
      IndexedStacked(content, slots, indexStack, idx);
      for i := 0 to |indexStack|
        invariant Valid() && handles == old(handles) && Within(content, old(content)) && indexStack == old(indexStack)
        invariant forall slot :: slot in slots <==> slot in old(slots) && (slot.Index? ==> slot.p !in indexStack[..i])
        invariant forall slot :: slot in slots ==> slots[slot] == old(slots)[slot]
      {
        ghost var content1 := content;
        StackDistinct(old(content), old(slots), indexStack, old(idx), i);
        Pop(Index(indexStack[i]));
        WithinTrans(content, content1, old(content));
        assert indexStack[..i + 1] == indexStack[..i] + [indexStack[i]];
      }
      assert indexStack[..|indexStack|] == indexStack;
      indexStack, idx := [], map[];
    }

    /** simpaig_reset_assignment */
    method ResetAssignment()
      requires Valid() && Pushed(slots, assignedStack)
      modifies this`ref, this`slots, this`content, this`handles, this`dying, this`assignedStack
      ensures Valid() && handles == old(handles) && Within(content, old(content)) && assignedStack == [] &&
              Pushed(slots, [])
      ensures slots == map slot | slot in old(slots) && !slot.Rhs? :: old(slots)[slot]
    {
      hide Ok, UsesOf, Unique, Within;
      WithinSelf(content);
      for i := 0 to |assignedStack|
        invariant Valid() && handles == old(handles) && Within(content, old(content)) &&
                  assignedStack == old(assignedStack)
        invariant forall slot :: slot in slots <==> slot in old(slots) && (slot.Rhs? ==> slot.p !in assignedStack[..i])
        invariant forall slot :: slot in slots ==> slots[slot] == old(slots)[slot]
      {
        ghost var content1 := content;
        assert assignedStack[i] in assignedStack && assignedStack[i] !in assignedStack[..i];
        Pop(Rhs(assignedStack[i]));
        WithinTrans(content, content1, old(content));
        assert assignedStack[..i + 1] == assignedStack[..i] + [assignedStack[i]];
      }
      assert assignedStack[..|assignedStack|] == assignedStack;
      assignedStack := [];
    }

    /** simpaig_substitute; the level falls from every assigned variable to its right-hand side. */
    method Substitute(node: Ref, ghost level: (nat, int) -> nat) returns (res: Ref)
      requires Valid() && node / 2 in handles && cachedStack == [] && Stacked(slots, []) && Pushed(slots, assignedStack)
      requires Falling(content, slots, level)
      modifies this`content, this`ref, this`slots, this`cachedStack, this`assignedStack, this`next, this`handles,
        this`dying
      ensures Valid() && Agree(old(content), content) && handles == old(handles) + multiset{res / 2} &&
              Known(content, res)
      ensures slots == map slot | slot in old(slots) && !slot.Rhs? :: old(slots)[slot]
      ensures cachedStack == [] && assignedStack == [] &&
              Replaced(old(content), Assignment(old(slots)), content, node, res)
    {
      hide Ok, UsesOf, Unique, Translates, CacheMeans, Within, Stacked, Layered, Agree, Based, NewLower, Grown, Height,
        Whole, Falling, Replaced, Pushed;
      ghost var st0, basis := St(), Basis(content, Assignment(slots), level);
      HandleKnown(st0, node);
      WithinSelf(content);
      if node < 2 {
        Inc(node);
        res := node;
        OkZero(st0);
        ConstTranslates(content, basis.AsMode(), node);
      } else {
        EmptyCache(content, slots, basis.AsMode());
        StartBasis(st0, basis);
        res := SubstRec(node, basis);
        ghost var st2 := St();
        ResetCache();
        CacheGone(st0.slots, st2.slots, slots);
        Return(st0, st2, St(), basis.AsMode(), node, res);
      }
      ghost var st3 := St();
      ResetAssignment();
      Finish(st0, st3, St(), basis, node, res);
    }
  }

  function Assignment(slots: map<Slot, Held>): map<nat, Ref> {
    map slot | slot in slots && slot.Rhs? && slots[slot].Node? :: slot.p := slots[slot].r
  }

  /** Every assigned node is a variable above the variables of its right-hand side. */
  ghost predicate Falling(content: Contents, slots: map<Slot, Held>, level: (nat, int) -> nat) {
    forall p: nat :: Rhs(p) in slots ==> FallsAt(content, slots[Rhs(p)], level, p)
  }

  ghost predicate FallsAt(content: Contents, h: Held, level: (nat, int) -> nat, p: nat) {
    h.Node? && p in content && content[p].Var? && Height(content, level, h.r) <= level(content[p].v, content[p].s)
  }

  /** The result means node with the assignments solved. */
  ghost predicate Replaced(before: Contents, rhs: map<nat, Ref>, content: Contents, node: Ref, res: Ref) {
    forall env, full {:trigger Solves(before, rhs, env, full)} ::
      Solves(before, rhs, env, full) ==> (Val(content, env, res) <==> Val(before, full, node))
  }

  lemma HandleKnown(st: Store, node: Ref)
    requires Ok(st) && node / 2 in st.handles
    ensures Known(st.content, node) && (node >= 2 ==> node / 2 in st.content)
  {
    ResultLive(st, node);
  }

  lemma StartBasis(st: Store, basis: Basis)
    requires Ok(st) && st.dying == {} && basis.content == st.content && basis.rhs == Assignment(st.slots)
    requires Falling(st.content, st.slots, basis.level)
    ensures Based(basis, st.content, st.slots)
  {
    OkWhole(st);
    SlotsLive(st);
    hide Ok, Whole, Height;
    forall p | p in basis.rhs ensures RankedAt(basis, p) {
      assert FallsAt(st.content, st.slots[Rhs(p)], basis.level, p);
    }
    forall p: nat | Rhs(p) in st.slots ensures p in basis.rhs {
      assert FallsAt(st.content, st.slots[Rhs(p)], basis.level, p);
    }
  }

  lemma Finish(st0: Store, st3: Store, st4: Store, basis: Basis, node: Ref, res: Ref)
    requires Ok(st0) && Ok(st3) && Ok(st4) && st0.dying == {} && st3.dying == {} && st4.dying == {}
    requires Within(st0.content, st3.content) && Within(st4.content, st3.content) &&
             st4.handles == st0.handles + multiset{res / 2}
    requires basis.content == st0.content && Known(st3.content, res) && Known(st0.content, node)
    requires Translates(st3.content, basis.AsMode(), node, res)
    ensures Agree(st0.content, st4.content) && Known(st4.content, res)
    ensures Replaced(st0.content, basis.rhs, st4.content, node, res)
  {
    hide *;
    ResultLive(st4, res);
    UpDownAgree(st0.content, st3.content, st4.content);
    OkWhole(st0);
    OkWhole(st3);
    OkWhole(st4);
    GrowAgree(st4.content, st3.content);
    GrowAgree(st0.content, st3.content);
    KnownMore(st0.content, st3.content, node);
    forall env, full {:trigger Solves(st0.content, basis.rhs, env, full)} | Solves(st0.content, basis.rhs, env, full)
      ensures Val(st4.content, env, res) <==> Val(st0.content, full, node)
    {
      RelatedIf(basis, env, full);
      TranslatesAt(st3.content, basis.AsMode(), node, res, env, full);
      ValAgree(st4.content, st3.content, env, res);
      ValAgree(st0.content, st3.content, full, node);
    }
    ReplacedIf(st0.content, basis.rhs, st4.content, node, res);
  }

  lemma RelatedIf(basis: Basis, env: Env, full: Env)
    requires Solves(basis.content, basis.rhs, env, full)
    ensures Related(basis.AsMode(), env, full)
  {
  }

  lemma ReplacedIf(before: Contents, rhs: map<nat, Ref>, content: Contents, node: Ref, res: Ref)
    requires forall env, full {:trigger Solves(before, rhs, env, full)} ::
      Solves(before, rhs, env, full) ==> (Val(content, env, res) <==> Val(before, full, node))
    ensures Replaced(before, rhs, content, node, res)
  {
    hide Solves, Val;
  }

  // ----- indices -----

  /** The nodes below a reference, without the constant. */
  function Cone(content: Contents, r: Ref): set<nat>
    decreases r / 2
  {
    var p := r / 2;
    if p == 0 || p !in content then {}
    else match content[p]
      case Var(v, s) => {p}
      case And(c0, c1) =>
        if OlderChild(c0, p) && OlderChild(c1, p) then {p} + Cone(content, c0) + Cone(content, c1) else {p}
  }

  function Elements(stack: seq<nat>): set<nat> {
    set p | p in stack
  }

  lemma ElementsMore(stack: seq<nat>, p: nat)
    ensures Elements(stack + [p]) == Elements(stack) + {p}
  {
  }

  predicate ChildrenIn(content: Contents, p: nat, stack: seq<nat>) {
    IsAnd(content, p) ==> content[p].c0 / 2 in stack && content[p].c1 / 2 in stack
  }

  /** The indexed nodes are numbered from 1 in stack order, children before parents. */
  ghost predicate Numbered(content: Contents, slots: map<Slot, Held>, stack: seq<nat>, idx: map<nat, nat>) {
    (forall p: nat :: Index(p) in slots <==> p in stack) &&
      (forall p: nat :: Index(p) in slots ==> slots[Index(p)] == Nothing) &&
    (forall p: nat :: p in idx <==> p in stack) &&
      (forall i :: 0 <= i < |stack| ==> stack[i] in idx && idx[stack[i]] == i + 1) &&
    forall i :: 0 <= i < |stack| ==> stack[i] in content && ChildrenIn(content, stack[i], stack[..i])
  }

  /** Nothing but index entries was added. */
  ghost predicate OnlyIndices(before: map<Slot, Held>, slots: map<Slot, Held>) {
    (forall slot :: slot in before ==> slot in slots && slots[slot] == before[slot]) &&
    forall slot :: slot in slots && slot !in before ==> slot.Index?
  }

  lemma OnlySelf(slots: map<Slot, Held>)
    ensures OnlyIndices(slots, slots)
  {
  }

  lemma OnlyTrans(a: map<Slot, Held>, b: map<Slot, Held>, c: map<Slot, Held>)
    requires OnlyIndices(a, b) && OnlyIndices(b, c)
    ensures OnlyIndices(a, c)
  {
  }

  lemma NotNumbered(content: Contents, slots: map<Slot, Held>, stack: seq<nat>, idx: map<nat, nat>, p: nat)
    requires Numbered(content, slots, stack, idx) && p !in idx
    ensures Index(p) !in slots
  {
  }

  lemma InStack(content: Contents, slots: map<Slot, Held>, stack: seq<nat>, idx: map<nat, nat>, p: nat)
    requires Numbered(content, slots, stack, idx)
    ensures p in idx <==> p in stack
  {
  }

  lemma IndexedStacked(content: Contents, slots: map<Slot, Held>, stack: seq<nat>, idx: map<nat, nat>)
    requires Numbered(content, slots, stack, idx)
    ensures forall p: nat :: Index(p) in slots ==> p in stack
  {
  }

  lemma StackDistinct(content: Contents, slots: map<Slot, Held>, stack: seq<nat>, idx: map<nat, nat>, i: nat)
    requires Numbered(content, slots, stack, idx) && i < |stack|
    ensures stack[i] in stack && Index(stack[i]) in slots && stack[i] !in stack[..i]
  {
    assert forall j :: 0 <= j < i ==> idx[stack[j]] == j + 1;
  }

  lemma NumberedMore(content: Contents, slots: map<Slot, Held>, stack: seq<nat>, idx: map<nat, nat>, p: nat)
    requires Numbered(content, slots, stack, idx) && p in content && p !in idx && ChildrenIn(content, p, stack)
    ensures Numbered(content, slots[Index(p) := Nothing], stack + [p], idx[p := |stack| + 1])
  {
    var stack' := stack + [p];
    forall i | 0 <= i < |stack'| ensures stack'[i] in content && ChildrenIn(content, stack'[i], stack'[..i]) {
      assert stack'[..i] == stack[..i];
    }
  }

  /** With a numbered node its whole cone is numbered. */
  lemma {:induction false} ConeNumbered(content: Contents, slots: map<Slot, Held>, stack: seq<nat>, idx: map<nat, nat>,
                                        r: Ref)
    requires Numbered(content, slots, stack, idx) && r / 2 in stack
    ensures Cone(content, r) <= Elements(stack)
    decreases r / 2
  {
    var p := r / 2;
    if IsAnd(content, p) && OlderChild(content[p].c0, p) && OlderChild(content[p].c1, p) {
      var i :| 0 <= i < |stack| && stack[i] == p;
      assert ChildrenIn(content, stack[i], stack[..i]);
      ConeNumbered(content, slots, stack, idx, content[p].c0);
      ConeNumbered(content, slots, stack, idx, content[p].c1);
    }
  }

  lemma ConeOf(st: Store, r: Ref)
    requires Ok(st) && r / 2 in st.content
    ensures var p := r / 2;
            Cone(st.content, r) ==
            {p} + if st.content[p].And? then Cone(st.content, st.content[p].c0) + Cone(st.content, st.content[p].c1)
              else {}
  {
    hide *;
    OkZero(st);
    LayeredOf(st);
    ConeIs(st.content, r);
  }

  lemma ConeIs(content: Contents, r: Ref)
    requires Layered(content) && r / 2 in content
    ensures var p := r / 2;
            Cone(content, r) ==
            {p} + if content[p].And? then Cone(content, content[p].c0) + Cone(content, content[p].c1) else {}
  {
    var p := r / 2;
    if content[p].And? {
      assert IsAnd(content, p) && OlderChild(content[p].c0, p) && OlderChild(content[p].c1, p);
      hide Layered;
      var a, b := Cone(content, content[p].c0), Cone(content, content[p].c1);
      assert Cone(content, r) == {p} + a + b;
    }
  }

  /** Cones contain no younger nodes. */
  lemma {:induction false} ConeBelow(st: Store, r: Ref)
    ensures forall p :: p in Cone(st.content, r) ==> p <= r / 2
    decreases r / 2
  {
    var p := r / 2;
    if IsAnd(st.content, p) && OlderChild(st.content[p].c0, p) && OlderChild(st.content[p].c1, p) {
      ConeBelow(st, st.content[p].c0);
      ConeBelow(st, st.content[p].c1);
    }
  }

  /** Assigning and resetting indices leaves the store as it was. */
  lemma IndicesGone(st0: Store, st1: Store, st2: Store)
    requires Ok(st0) && Ok(st2) && st0.dying == {} && st2.dying == {} && st1.content == st0.content
    requires OnlyIndices(st0.slots, st1.slots) && (forall slot :: slot in st0.slots ==> !slot.Index?)
    requires st2.slots == map slot | slot in st1.slots && !slot.Index? :: st1.slots[slot]
    requires Within(st2.content, st1.content) && st2.handles == st0.handles
    ensures st2.slots == st0.slots && st2.content == st0.content
  {
    hide Ok, UsesOf;
    assert st2.slots == st0.slots;
    assert Agree(st0.content, st2.content);
    Survive(st0, st2);
  }

  lemma ChildrenKnown(st: Store, p: nat)
    requires Ok(st) && st.dying == {} && IsAnd(st.content, p)
    ensures Known(st.content, st.content[p].c0) && Known(st.content, st.content[p].c1)
  {
    OkWhole(st);
  }

  lemma UpDownAgree(a: Contents, b: Contents, c: Contents)
    requires Within(a, b) && Within(c, b)
    ensures Agree(a, c)
  {
  }

  lemma AndIn(content: Contents, p: nat)
    requires IsAnd(content, p)
    ensures p in content
  {
  }

  lemma GrowAgree(before: Contents, after: Contents)
    requires Within(before, after)
    ensures Agree(before, after)
  {
  }

  lemma Here(before: Contents, after: Contents, p: nat)
    requires Within(before, after) && p in before
    ensures p in after && after[p] == before[p]
  {
  }

  /** A translation known in one state is known after growth. */
  lemma Carry(st: Store, st': Store, mode: Mode, r: Ref, res: Ref)
    requires Ok(st) && Ok(st') && st.dying == {} && st'.dying == {} && Within(st.content, st'.content)
    requires Known(st.content, r) && Known(st.content, res) && Translates(st.content, mode, r, res)
    ensures Known(st'.content, r) && Known(st'.content, res) && Translates(st'.content, mode, r, res)
  {
    OkWhole(st);
    OkWhole(st');
    hide Ok, Whole, Translates;
    GrowAgree(st.content, st'.content);
    TranslatesAgree(st.content, st'.content, mode, r, res);
  }

  lemma BagPair(h: multiset<nat>, a: nat, b: nat)
    ensures b in h + multiset{a} + multiset{b} && h + multiset{a} + multiset{b} - multiset{b} == h + multiset{a}
    ensures a in h + multiset{a} && h + multiset{a} - multiset{a} == h
  {
  }

  lemma BagThree(h: multiset<nat>, a: nat, b: nat, c: nat)
    ensures var all := h + multiset{a} + multiset{b} + multiset{c};
            a in all && b in all - multiset{a} && all - multiset{a} - multiset{b} == h + multiset{c}
  {
  }

  /** After releasing temporaries the old table, the cache and the result are intact. */
  lemma Settle(st0: Store, st2: Store, st3: Store, mode: Mode, r: Ref, res: Ref)
    requires Ok(st0) && Ok(st2) && Ok(st3) && st0.dying == {} && st2.dying == {} && st3.dying == {}
    requires Within(st0.content, st2.content) && Within(st3.content, st2.content) && st3.slots == st2.slots
    requires Grown(st0.slots, st2.slots) && st3.handles == st0.handles + multiset{res / 2}
    requires CacheMeans(st2.content, st2.slots, mode) && Translates(st2.content, mode, r, res)
    requires Known(st0.content, r) && Known(st2.content, res)
    ensures Within(st0.content, st3.content) && CacheMeans(st3.content, st3.slots, mode)
    ensures Known(st3.content, res) && Known(st3.content, r) && Translates(st3.content, mode, r, res)
  {
    ResultLive(st3, res);
    hide Ok, UsesOf, Translates, CacheMeans;
    assert Agree(st0.content, st3.content) && Agree(st2.content, st3.content);
    Survive(st0, st3);
    CacheSurvives(st2, st3, mode);
    OkWhole(st2);
    OkWhole(st3);
    hide Whole, Agree;
    TranslatesAgree(st2.content, st3.content, mode, r, res);
  }

  lemma ResultLive(st: Store, res: Ref)
    requires Ok(st) && res / 2 in st.handles
    ensures Known(st.content, res)
  {
    assert Live(st, res / 2);
  }

  lemma ShiftedVar(content: Contents, p: nat, res: Ref, delta: int)
    requires p in content && content[p].Var? && p != 0 && res % 2 == 0 && res / 2 in content && res / 2 != 0
    requires content[res / 2] == Var(content[p].v, content[p].s + delta)
    ensures Translates(content, Shift(delta), 2 * p, res)
  {
  }

  lemma GrownSelf(slots: map<Slot, Held>)
    ensures Grown(slots, slots)
  {
  }

  lemma GrownTrans(a: map<Slot, Held>, b: map<Slot, Held>, c: map<Slot, Held>)
    requires Grown(a, b) && Grown(b, c)
    ensures Grown(a, c)
  {
  }

  lemma GrownOne(a: map<Slot, Held>, b: map<Slot, Held>, slot: Slot, h: Held)
    requires Grown(a, b) && slot.Cache? && slot !in b
    ensures Grown(a, b[slot := h])
  {
  }

  lemma EvenRef(node: Ref)
    ensures node % 2 == 0 ==> node == 2 * (node / 2)
    ensures node % 2 == 1 ==> node == Not(2 * (node / 2))
  {
  }

  lemma NotKnown(content: Contents, r: Ref)
    ensures Known(content, Not(r)) == Known(content, r) && Not(r) / 2 == r / 2
  {
  }

  lemma AndParts(st: Store, p: nat)
    requires Ok(st) && st.dying == {} && IsAnd(st.content, p)
    ensures p in st.content && st.content[p].And? && st.content[p].c0 / 2 < p && st.content[p].c1 / 2 < p
    ensures st.content[p].c0 / 2 in st.content && st.content[p].c1 / 2 in st.content
  {
    OkWhole(st);
    ChildrenOlder(st, p);
  }

  lemma AndKept(before: Contents, after: Contents, p: nat)
    requires IsAnd(before, p) && Within(before, after)
    ensures IsAnd(after, p) && after[p] == before[p]
  {
  }

  lemma ConstTranslates(content: Contents, mode: Mode, r: Ref)
    requires r < 2 && 0 !in content
    ensures Translates(content, mode, r, r)
  {
  }

  lemma EmptyCache(content: Contents, slots: map<Slot, Held>, mode: Mode)
    requires Stacked(slots, [])
    ensures CacheMeans(content, slots, mode)
  {
  }

  lemma CacheGone(before: map<Slot, Held>, during: map<Slot, Held>, after: map<Slot, Held>)
    requires Stacked(before, []) && Grown(before, during)
    requires after == map slot | slot in during && !slot.Cache? :: during[slot]
    ensures after == before
  {
    forall slot ensures slot in after <==> slot in before {
      assert slot in before && slot.Cache? ==> Cache(slot.p) in before;
    }
  }

  /** Emptying the cache leaves the old table and the result. */
  lemma Return(st0: Store, st2: Store, st3: Store, mode: Mode, r: Ref, res: Ref)
    requires Ok(st0) && Ok(st2) && Ok(st3) && st0.dying == {} && st2.dying == {} && st3.dying == {}
    requires Within(st0.content, st2.content) && Within(st3.content, st2.content) && st3.slots == st0.slots
    requires st3.handles == st0.handles + multiset{res / 2} && Known(st0.content, r) && Known(st2.content, res)
    requires Translates(st2.content, mode, r, res)
    ensures Within(st0.content, st3.content) && Known(st3.content, res) && Translates(st3.content, mode, r, res)
  {
    ResultLive(st3, res);
    hide Ok, UsesOf, Translates;
    assert Agree(st0.content, st3.content) && Agree(st2.content, st3.content);
    Survive(st0, st3);
    OkWhole(st2);
    OkWhole(st3);
    hide Whole, Agree;
    TranslatesAgree(st2.content, st3.content, mode, r, res);
  }

  /** The stack lists the assigned nodes. */
  ghost predicate Pushed(slots: map<Slot, Held>, stack: seq<nat>) {
    (forall p: nat :: Rhs(p) in slots <==> p in stack) && (forall p: nat :: Rhs(p) in slots ==> slots[Rhs(p)].Node?) &&
    forall i, j :: 0 <= i < j < |stack| ==> stack[i] != stack[j]
  }

  /** The table and assignments a substitution started from, with a level for every
      variable that falls from an assigned variable to its right-hand side. */
  datatype Basis = Basis(content: Contents, rhs: map<nat, Ref>, level: (nat, int) -> nat) {
    function AsMode(): Mode {
      Subst(content, rhs)
    }
  }

  ghost predicate RankedAt(basis: Basis, p: nat)
    requires p in basis.rhs
  {
    p in basis.content && basis.content[p].Var? && Known(basis.content, basis.rhs[p]) &&
    Height(basis.content, basis.level, basis.rhs[p]) <= basis.level(basis.content[p].v, basis.content[p].s)
  }

  ghost predicate Based(basis: Basis, content: Contents, slots: map<Slot, Held>) {
    Whole(basis.content) && Within(basis.content, content) && (forall p :: p in basis.rhs ==> RankedAt(basis, p)) &&
    (forall p: nat :: Rhs(p) in slots <==> p in basis.rhs) && forall p :: p in basis.rhs ==>
      slots[Rhs(p)] == Node(basis.rhs[p])
  }

  /** Node q comes before a reference by height, then by age. */
  ghost predicate Lower(content: Contents, level: (nat, int) -> nat, q: nat, r: Ref) {
    q in content &&
    (Height(content, level, 2 * q) < Height(content, level, r) ||
     (Height(content, level, 2 * q) == Height(content, level, r) && q <= r / 2))
  }

  /** Everything cached since is no later than r. */
  ghost predicate NewLower(content: Contents, before: map<Slot, Held>, slots: map<Slot, Held>,
                           level: (nat, int) -> nat, r: Ref) {
    forall q: nat :: Cache(q) in slots && Cache(q) !in before ==> Lower(content, level, q, r)
  }

  lemma NewLowerSelf(content: Contents, slots: map<Slot, Held>, level: (nat, int) -> nat, r: Ref)
    ensures NewLower(content, slots, slots, level, r)
  {
  }

  lemma NewLowerNot(content: Contents, before: map<Slot, Held>, slots: map<Slot, Held>,
                    level: (nat, int) -> nat, node: Ref)
    requires NewLower(content, before, slots, level, 2 * (node / 2))
    ensures NewLower(content, before, slots, level, node)
  {
    HeightNot(content, level, node, 2 * (node / 2));
    hide Height;
  }

  lemma NewLowerAdd(content: Contents, before: map<Slot, Held>, slots: map<Slot, Held>,
                    level: (nat, int) -> nat, p: nat, h: Held)
    requires NewLower(content, before, slots, level, 2 * p) && p in content
    ensures NewLower(content, before, slots[Cache(p) := h], level, 2 * p)
  {
    hide Height;
  }

  lemma NewLowerJoin(content: Contents, a: map<Slot, Held>, b: map<Slot, Held>, c: map<Slot, Held>,
                     level: (nat, int) -> nat, r: Ref)
    requires NewLower(content, a, b, level, r) && NewLower(content, b, c, level, r)
    ensures NewLower(content, a, c, level, r)
  {
    hide Lower;
  }

  lemma NewLowerLift(content: Contents, before: map<Slot, Held>, slots: map<Slot, Held>,
                     level: (nat, int) -> nat, r: Ref, r': Ref)
    requires NewLower(content, before, slots, level, r) && r / 2 <= r' / 2
    requires Height(content, level, r) <= Height(content, level, r')
    ensures NewLower(content, before, slots, level, r')
  {
    hide Height;
  }

  /** What was cached below a child is below the conjunction, and not the conjunction itself. */
  lemma NewLowerUp(st0: Store, st: Store, before: map<Slot, Held>, level: (nat, int) -> nat, p: nat, c: Ref)
    requires Ok(st0) && Ok(st) && st0.dying == {} && st.dying == {} && Within(st0.content, st.content)
    requires IsAnd(st0.content, p) && (c == st0.content[p].c0 || c == st0.content[p].c1) && Cache(p) !in before
    requires NewLower(st.content, before, st.slots, level, c)
    ensures Cache(p) !in st.slots && NewLower(st.content, before, st.slots, level, 2 * p)
  {
    hide *;
    AndParts(st0, p);
    AndHeights(st0, level, p);
    KnownIn(st0.content, c);
    KnownIn(st0.content, 2 * p);
    HeightKept(st0, st, level, c);
    HeightKept(st0, st, level, 2 * p);
    NotNew(st.content, before, st.slots, level, p, c);
    NewLowerLift(st.content, before, st.slots, level, c, 2 * p);
  }

  lemma NotNew(content: Contents, before: map<Slot, Held>, slots: map<Slot, Held>,
               level: (nat, int) -> nat, p: nat, r: Ref)
    requires NewLower(content, before, slots, level, r) && Cache(p) !in before
    requires Height(content, level, r) < Height(content, level, 2 * p) ||
             (Height(content, level, r) == Height(content, level, 2 * p) && r / 2 < p)
    ensures Cache(p) !in slots
  {
    hide Height;
  }

  lemma KnownIn(content: Contents, r: Ref)
    requires r / 2 in content
    ensures Known(content, r)
  {
  }

  lemma HeightKept(st: Store, st': Store, level: (nat, int) -> nat, r: Ref)
    requires Ok(st) && Ok(st') && st.dying == {} && st'.dying == {} && Within(st.content, st'.content) &&
             Known(st.content, r)
    ensures Known(st'.content, r) && Height(st'.content, level, r) == Height(st.content, level, r)
  {
    hide *;
    OkWhole(st);
    OkWhole(st');
    GrowAgree(st.content, st'.content);
    KnownMore(st.content, st'.content, r);
    HeightAgree(st.content, st'.content, level, r);
  }

  lemma AndHeights(st: Store, level: (nat, int) -> nat, p: nat)
    requires Ok(st) && st.dying == {} && IsAnd(st.content, p)
    ensures Height(st.content, level, st.content[p].c0) <= Height(st.content, level, 2 * p)
    ensures Height(st.content, level, st.content[p].c1) <= Height(st.content, level, 2 * p)
  {
    ChildHeights(st.content, level, p);
  }

  /** The assigned value of a live variable. */
  lemma BasedRhs(basis: Basis, st: Store, p: nat)
    requires Based(basis, st.content, st.slots) && Rhs(p) in st.slots && Ok(st)
    ensures p in basis.rhs && st.slots[Rhs(p)] == Node(basis.rhs[p]) && Known(st.content, basis.rhs[p])
    ensures basis.rhs[p] >= 2 ==> basis.rhs[p] / 2 in st.content
  {
    assert RankedAt(basis, p);
    hide Whole, Height, UsesOf;
  }

  lemma LowerRhs(basis: Basis, st: Store, p: nat)
    requires Based(basis, st.content, st.slots) && p in basis.rhs && Ok(st) && st.dying == {} && p in st.content
    ensures Height(st.content, basis.level, basis.rhs[p]) < Height(st.content, basis.level, 2 * p)
    ensures Known(st.content, basis.rhs[p])
  {
    BasisFacts(basis, st, p);
    OkWhole(st);
    OkZero(st);
    VarHeight(st.content, basis.level, p);
    hide Whole, UsesOf, Ok, Based, Height, RankedAt;
    HeightAgree(basis.content, st.content, basis.level, basis.rhs[p]);
  }

  lemma VarHeight(content: Contents, level: (nat, int) -> nat, p: nat)
    requires p in content && content[p].Var? && p != 0
    ensures Height(content, level, 2 * p) == level(content[p].v, content[p].s) + 1
  {
  }

  /** What a basis says of one assigned node. */
  lemma BasisFacts(basis: Basis, st: Store, p: nat)
    requires Based(basis, st.content, st.slots) && p in basis.rhs
    ensures p in basis.content && p in st.content && st.content[p] == basis.content[p] && basis.content[p].Var?
    ensures Known(basis.content, basis.rhs[p]) && Known(st.content, basis.rhs[p])
    ensures Height(basis.content, basis.level, basis.rhs[p]) <= basis.level(basis.content[p].v, basis.content[p].s)
    ensures Whole(basis.content) && Agree(basis.content, st.content)
  {
    assert RankedAt(basis, p);
    hide Whole, Height;
  }

  /** A substituted right-hand side did not cache its variable. */
  lemma VarLower(st0: Store, st: Store, level: (nat, int) -> nat, p: nat, rhs: Ref)
    requires Ok(st0) && Ok(st) && st0.dying == {} && st.dying == {} && Within(st0.content, st.content)
    requires p in st0.content && Known(st0.content, rhs) && Cache(p) !in st0.slots
    requires Height(st0.content, level, rhs) < Height(st0.content, level, 2 * p)
    requires NewLower(st.content, st0.slots, st.slots, level, rhs)
    ensures Cache(p) !in st.slots && NewLower(st.content, st0.slots, st.slots, level, 2 * p)
  {
    hide *;
    KnownIn(st0.content, 2 * p);
    HeightKept(st0, st, level, rhs);
    HeightKept(st0, st, level, 2 * p);
    NotNew(st.content, st0.slots, st.slots, level, p, rhs);
    NewLowerHigher(st.content, st0.slots, st.slots, level, rhs, 2 * p);
  }

  lemma NewLowerHigher(content: Contents, before: map<Slot, Held>, slots: map<Slot, Held>,
                       level: (nat, int) -> nat, r: Ref, r': Ref)
    requires NewLower(content, before, slots, level, r) && Height(content, level, r) < Height(content, level, r')
    ensures NewLower(content, before, slots, level, r')
  {
    hide Height;
  }

  /** An assigned variable translates to what its right-hand side translates to. */
  lemma AssignedVar(basis: Basis, st0: Store, st: Store, p: nat, rhs: Ref, res: Ref)
    requires Based(basis, st0.content, st0.slots) && Ok(st0) && st0.dying == {} && p in basis.rhs
    requires rhs == basis.rhs[p] && Ok(st) && st.dying == {} && Within(st0.content, st.content)
    requires Translates(st.content, basis.AsMode(), rhs, res)
    ensures Translates(st.content, basis.AsMode(), 2 * p, res)
  {
    BasisMode(basis);
    hide *;
    BasisFacts(basis, st0, p);
    OkWhole(st);
    OkZero(st);
    BasedWithin(basis, st0);
    WithinTrans(basis.content, st0.content, st.content);
    GrowAgree(basis.content, st.content);
    Here(st0.content, st.content, p);
    KnownMore(st0.content, st.content, rhs);
    forall env, full {:trigger Related(basis.AsMode(), env, full)} | Related(basis.AsMode(), env, full)
      ensures Val(st.content, env, res) <==> Val(st.content, full, 2 * p)
    {
      AssignedAt(basis, st.content, p, res, env, full);
    }
    TranslatesIf(st.content, basis.AsMode(), 2 * p, res);
  }

  lemma TranslatesIf(content: Contents, mode: Mode, r: Ref, res: Ref)
    requires mode.Subst? && forall env, full {:trigger Related(mode, env, full)} ::
               Related(mode, env, full) ==> (Val(content, env, res) <==> Val(content, full, r))
    ensures Translates(content, mode, r, res)
  {
    hide Related, Val;
  }

  lemma TranslatesAt(content: Contents, mode: Mode, r: Ref, res: Ref, env: Env, full: Env)
    requires Translates(content, mode, r, res) && Related(mode, env, full)
    ensures Val(content, env, res) <==> Val(content, full, r)
  {
    hide Related, Val;
  }

  lemma AssignedAt(basis: Basis, content: Contents, p: nat, res: Ref, env: Env, full: Env)
    requires p in basis.rhs && Related(basis.AsMode(), env, full) &&
             Translates(content, basis.AsMode(), basis.rhs[p], res)
    requires Whole(basis.content) && Whole(content) && Agree(basis.content, content)
    requires Known(basis.content, basis.rhs[p]) && Known(content, basis.rhs[p])
    requires p in basis.content && basis.content[p].Var? && p in content && content[p] == basis.content[p] &&
             0 !in content
    ensures Val(content, env, res) <==> Val(content, full, 2 * p)
  {
    hide *;
    TranslatesAt(content, basis.AsMode(), basis.rhs[p], res, env, full);
    SolvedAs(basis, env, full);
    SolvedVar(basis, env, full, p);
    ValAgree(basis.content, content, full, basis.rhs[p]);
    VarVal(content, full, p);
  }

  lemma AndVal(content: Contents, env: Env, p: nat)
    requires IsAnd(content, p) && Layered(content)
    ensures Val(content, env, 2 * p) == (Val(content, env, content[p].c0) && Val(content, env, content[p].c1))
  {
  }

  lemma VarVal(content: Contents, env: Env, p: nat)
    requires p in content && content[p].Var? && p != 0
    ensures Val(content, env, 2 * p) <==> (content[p].v, content[p].s) in env
  {
  }

  lemma BasisMode(basis: Basis)
    ensures basis.AsMode().Subst?
  {
  }

  lemma SolvedAs(basis: Basis, env: Env, full: Env)
    requires Related(basis.AsMode(), env, full)
    ensures Solves(basis.content, basis.rhs, env, full)
  {
  }

  lemma SolvedVar(basis: Basis, env: Env, full: Env, p: nat)
    requires Solves(basis.content, basis.rhs, env, full) && p in basis.rhs && p in basis.content &&
             basis.content[p].Var?
    ensures (basis.content[p].v, basis.content[p].s) in full <==> Val(basis.content, full, basis.rhs[p])
  {
  }

  lemma BasedWithin(basis: Basis, st: Store)
    requires Based(basis, st.content, st.slots)
    ensures Within(basis.content, st.content)
  {
  }

  lemma KnownMore(before: Contents, after: Contents, r: Ref)
    requires Within(before, after) && Known(before, r)
    ensures Known(after, r)
  {
  }

  lemma NotAssigned(basis: Basis, st: Store, p: nat)
    requires Based(basis, st.content, st.slots) && Unique(st.content) && p in st.content && st.content[p].Var?
    requires Rhs(p) !in st.slots
    ensures !Assigned(basis.content, basis.rhs, st.content[p].v, st.content[p].s)
  {
    hide Whole, RankedAt;
    forall q | q in basis.rhs && q in basis.content ensures basis.content[q] != Var(st.content[p].v, st.content[p].s) {
      Here(basis.content, st.content, q);
    }
  }

  /** A variable without right-hand side translates to itself. */
  lemma FreeVar(basis: Basis, st: Store, p: nat)
    requires Based(basis, st.content, st.slots) && Ok(st) && Unique(st.content) && p in st.content && st.content[p].Var?
    requires Rhs(p) !in st.slots
    ensures Translates(st.content, basis.AsMode(), 2 * p, 2 * p)
  {
    BasisMode(basis);
    hide *;
    OkZero(st);
    NotAssigned(basis, st, p);
    forall env, full {:trigger Related(basis.AsMode(), env, full)} | Related(basis.AsMode(), env, full)
      ensures Val(st.content, env, 2 * p) <==> Val(st.content, full, 2 * p)
    {
      FreeAt(basis, st.content, p, env, full);
    }
    TranslatesIf(st.content, basis.AsMode(), 2 * p, 2 * p);
  }

  lemma FreeAt(basis: Basis, content: Contents, p: nat, env: Env, full: Env)
    requires p in content && content[p].Var? && 0 !in content && Related(basis.AsMode(), env, full)
    requires !Assigned(basis.content, basis.rhs, content[p].v, content[p].s)
    ensures Val(content, env, 2 * p) <==> Val(content, full, 2 * p)
  {
    SolvedAs(basis, env, full);
    hide Assigned;
  }

  lemma BasedGrown(basis: Basis, content: Contents, slots: map<Slot, Held>, slots': map<Slot, Held>)
    requires Based(basis, content, slots) && Grown(slots, slots')
    ensures Based(basis, content, slots')
  {
    hide Whole, Within, RankedAt;
  }

  lemma BasedCombined(basis: Basis, st0: Store, st: Store)
    requires Based(basis, st0.content, st0.slots) && Within(st0.content, st.content) && Grown(st0.slots, st.slots)
    ensures Based(basis, st.content, st.slots)
  {
    BasedGrown(basis, st0.content, st0.slots, st.slots);
    hide Whole, Within, RankedAt, Grown;
    WithinTrans(basis.content, st0.content, st.content);
  }

  /** What the recursion cached lies below the conjunction. */
  lemma LowerCombined(st0: Store, st1: Store, st2: Store, st3: Store, basis: Basis, p: nat, h: Held)
    requires Ok(st1) && Ok(st2) && Ok(st3) && st1.dying == {} && st2.dying == {} && st3.dying == {}
    requires Within(st1.content, st2.content) && Agree(st2.content, st3.content)
    requires p in st1.content && p in st2.content && p in st3.content && Grown(st1.slots, st2.slots)
    requires NewLower(st1.content, st0.slots, st1.slots, basis.level, 2 * p)
    requires NewLower(st2.content, st1.slots, st2.slots, basis.level, 2 * p)
    requires st3.slots == st2.slots[Cache(p) := h]
    ensures NewLower(st3.content, st0.slots, st3.slots, basis.level, 2 * p)
  {
    hide *;
    GrowAgree(st1.content, st2.content);
    GrownKeeps(st1.slots, st2.slots);
    NewLowerKept(st1, st2, st0.slots, basis.level, p);
    NewLowerJoin(st2.content, st0.slots, st1.slots, st2.slots, basis.level, 2 * p);
    OneKeeps(st2.slots, Cache(p), h);
    NewLowerKept(st2, st3, st0.slots, basis.level, p);
    NewLowerAdd(st3.content, st0.slots, st2.slots, basis.level, p, h);
  }

  /** No cache entry is lost. */
  ghost predicate Keeps(slots: map<Slot, Held>, slots': map<Slot, Held>) {
    forall q: nat :: Cache(q) in slots ==> Cache(q) in slots'
  }

  lemma GrownKeeps(slots: map<Slot, Held>, slots': map<Slot, Held>)
    requires Grown(slots, slots')
    ensures Keeps(slots, slots')
  {
  }

  lemma OneKeeps(slots: map<Slot, Held>, slot: Slot, h: Held)
    ensures Keeps(slots, slots[slot := h])
  {
  }

  /** Cached nodes are live. */
  lemma CachedStays(st: Store)
    requires Ok(st)
    ensures forall q: nat :: Cache(q) in st.slots && q != 0 ==> q in st.content
  {
    SlotsLive(st);
    hide UsesOf, Layered, Counted, Closed;
    forall q: nat | Cache(q) in st.slots && q != 0 ensures q in st.content {
      assert Live(st, Owner(Cache(q)));
    }
  }

  lemma NewLowerKept(st: Store, st': Store, before: map<Slot, Held>, level: (nat, int) -> nat, p: nat)
    requires Ok(st) && Ok(st') && st.dying == {} && st'.dying == {} && Agree(st.content, st'.content)
    requires p in st.content && p in st'.content && Keeps(st.slots, st'.slots)
    requires NewLower(st.content, before, st.slots, level, 2 * p)
    ensures NewLower(st'.content, before, st.slots, level, 2 * p)
  {
    hide *;
    CachedStays(st');
    OkZero(st);
    KnownIn(st.content, 2 * p);
    KnownIn(st'.content, 2 * p);
    forall q: nat | Cache(q) in st.slots && Cache(q) !in before ensures Lower(st'.content, level, q, 2 * p) {
      NewLowerAt(st.content, before, st.slots, level, 2 * p, q);
      KeepsAt(st.slots, st'.slots, q);
      LowerKept(st, st', level, q, 2 * p);
    }
    NewLowerIf(st'.content, before, st.slots, level, 2 * p);
  }

  lemma KeepsAt(slots: map<Slot, Held>, slots': map<Slot, Held>, q: nat)
    requires Keeps(slots, slots') && Cache(q) in slots
    ensures Cache(q) in slots'
  {
  }

  lemma NewLowerAt(content: Contents, before: map<Slot, Held>, slots: map<Slot, Held>,
                   level: (nat, int) -> nat, r: Ref, q: nat)
    requires NewLower(content, before, slots, level, r) && Cache(q) in slots && Cache(q) !in before
    ensures Lower(content, level, q, r) && q in content
  {
  }

  lemma NewLowerIf(content: Contents, before: map<Slot, Held>, slots: map<Slot, Held>, level: (nat, int) -> nat, r: Ref)
    requires forall q: nat :: Cache(q) in slots && Cache(q) !in before ==> Lower(content, level, q, r)
    ensures NewLower(content, before, slots, level, r)
  {
    hide Lower;
  }

  lemma LowerKept(st: Store, st': Store, level: (nat, int) -> nat, q: nat, r: Ref)
    requires Ok(st) && Ok(st') && st.dying == {} && st'.dying == {} && Agree(st.content, st'.content)
    requires Lower(st.content, level, q, r) && q in st'.content && Known(st.content, r) && Known(st'.content, r)
    ensures Lower(st'.content, level, q, r)
  {
    hide Ok, Agree, Height;
    HeightSame(st, st', level, r);
    HeightSame(st, st', level, 2 * q);
  }

  lemma HeightSame(st: Store, st': Store, level: (nat, int) -> nat, r: Ref)
    requires Ok(st) && Ok(st') && st.dying == {} && st'.dying == {} && Agree(st.content, st'.content)
    requires Known(st.content, r) && Known(st'.content, r)
    ensures Height(st'.content, level, r) == Height(st.content, level, r)
  {
    hide *;
    OkWhole(st);
    OkWhole(st');
    HeightAgree(st.content, st'.content, level, r);
  }

  lemma NoTwin(content: Contents, c: Content)
    requires forall q :: q in content ==> content[q] != c
    requires c.And? ==> forall q :: q in content ==> content[q] != Swapped(c)
    ensures forall q :: q in content ==> content[q] != c && content[q] != Swapped(c)
  {
  }

  lemma LayeredOf(st: Store)
    requires Ok(st)
    ensures Layered(st.content)
  {
  }

  lemma FitsNext(st: Store, p: nat, c0: Ref, c1: Ref)
    requires Ok(st) && st.dying == {} && p !in st.content && 0 < p && c0 / 2 in st.content && c1 / 2 in st.content
    requires forall q :: q in st.content ==> q < p
    ensures Fits(st, p, And(c0, c1))
  {
  }

  lemma NodeConjoins(content: Contents, p: nat, a: Ref, b: Ref)
    requires Layered(content) && p in content && content[p] == And(a, b)
    ensures Conjoins(content, 2 * p, a, b) && Conjoins(content, 2 * p, b, a)
  {
    assert IsAnd(content, p);
  }

  /** The cases in which no node is needed. */
  lemma ConstantCases(content: Contents, c0: Ref, c1: Ref)
    ensures c0 == 0 || c1 == 0 || c0 == Not(c1) ==> Conjoins(content, 0, c0, c1)
    ensures c0 == 1 || c0 == c1 ==> Conjoins(content, c1, c0, c1)
    ensures c1 == 1 ==> Conjoins(content, c0, c0, c1)
    ensures c0 != 0 && c1 != 0 && c0 != 1 && c1 != 1 && c0 != c1 && c0 != Not(c1) ==>
              c0 / 2 > 0 && c1 / 2 > 0 && c0 / 2 != c1 / 2
  {
    forall env ensures !Val(content, env, 0) && Val(content, env, 1) &&
      Val(content, env, Not(c1)) == !Val(content, env, c1) {
      ValNot(content, env, c1);
    }
  }

  lemma BagTwo(h: multiset<nat>, owner: nat, held: Held)
    ensures var all := h + multiset{owner} + HeldHandle(held);
            (held.Node? ==> held.r / 2 in all && all - multiset{held.r / 2} == h + multiset{owner}) &&
            (!held.Node? ==> all == h + multiset{owner}) &&
            owner in h + multiset{owner} && h + multiset{owner} - multiset{owner} == h
  {
  }

  lemma ChildrenOlder(st: Store, n: nat)
    requires Ok(st) && IsAnd(st.content, n)
    ensures OlderChild(st.content[n].c0, n) && OlderChild(st.content[n].c1, n)
  {
  }

  lemma LiveIs(st: Store, n: nat)
    requires Live(st, n)
    ensures n == 0 || n in st.content
  {
  }

  lemma StillThere(st: Store, n: nat)
    requires Ok(st) && n in st.dying
    ensures n in st.content
  {
  }

  /** Everything still in the table is as it was. */
  ghost predicate Within(content: Contents, before: Contents) {
    forall p :: p in content ==> p in before && content[p] == before[p]
  }

  lemma WithinSelf(content: Contents)
    ensures Within(content, content)
  {
  }

  lemma WithinTrans(a: Contents, b: Contents, c: Contents)
    requires Within(a, b) && Within(b, c)
    ensures Within(a, c)
  {
  }

  lemma DiedIs(st: Store, n: nat)
    requires n in st.content
    ensures Died(st, n) == st.(ref := st.ref[n := 0], dying := st.dying + {n},
                               handles := st.handles - multiset{n} + ChildHandles(st.content[n]))
  {
  }

  lemma BagCancel(h: multiset<nat>, c: multiset<nat>)
    ensures (h + c) - c == h && c <= h + c
  {
  }

  function ChildHandles(c: Content): multiset<nat> {
    if c.And? then multiset{c.c0 / 2, c.c1 / 2} else multiset{}
  }

  lemma HandlesOf(a: nat, b: nat, handles: multiset<nat>)
    requires multiset{a, b} <= handles
    ensures a in handles && b in handles - multiset{a}
    ensures handles - multiset{a} - multiset{b} == handles - multiset{a, b}
  {
    assert multiset{a, b}[a] >= 1 && multiset{a, b}[b] >= 1;
  }

  lemma SubsetUnique(content: Contents, less: Contents)
    requires Unique(content) && forall p :: p in less ==> p in content && less[p] == content[p]
    ensures Unique(less)
  {
  }
}
