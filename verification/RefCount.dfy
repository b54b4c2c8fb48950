/** The reference-counted node store of simpaig: who holds which node. */
module RefCount {

  /** Twice a node plus a sign; node 0 is the constant false. */
  type Ref = nat

  datatype Content = Var(v: nat, s: int) | And(c0: Ref, c1: Ref)

  type Contents = map<nat, Content>

  /** Entries of the cache, assignment and index stacks, by the node they belong to. */
  datatype Slot = Cache(p: nat) | Rhs(p: nat) | Index(p: nat)

  datatype Held = Nothing | Node(r: Ref)

  /** Everything that counts as a reference apart from the callers' handles. */
  datatype Use = Left(p: nat) | Right(p: nat) | Key(slot: Slot) | Value(slot: Slot)

  /** The store; dying nodes have lost their last reference but are still in the table. */
  datatype Store = Store(content: Contents, ref: map<nat, nat>, slots: map<Slot, Held>, handles: multiset<nat>,
                         dying: set<nat>)

  function Owner(slot: Slot): nat {
    slot.p
  }

  predicate IsAnd(content: Contents, p: nat) {
    p in content && content[p].And?
  }

  predicate Active(st: Store, u: Use) {
    match u
    case Left(p) => IsAnd(st.content, p) && p !in st.dying
    case Right(p) => IsAnd(st.content, p) && p !in st.dying
    case Key(slot) => slot in st.slots
    case Value(slot) => slot in st.slots && st.slots[slot].Node?
  }

  function Target(st: Store, u: Use): nat
    requires Active(st, u)
  {
    match u
    case Left(p) => st.content[p].c0 / 2
    case Right(p) => st.content[p].c1 / 2
    case Key(slot) => Owner(slot)
    case Value(slot) => st.slots[slot].r / 2
  }

  function AllUses(st: Store): set<Use> {
    (set p | p in st.content :: Left(p)) + (set p | p in st.content :: Right(p)) +
    (set slot | slot in st.slots :: Key(slot)) + (set slot | slot in st.slots :: Value(slot))
  }

  /** The references to node n. */
  function UsesOf(st: Store, n: nat): set<Use> {
    set u | u in AllUses(st) && Active(st, u) && Target(st, u) == n
  }

  lemma UsesOfIn(st: Store, n: nat, u: Use)
    ensures u in UsesOf(st, n) <==> Active(st, u) && Target(st, u) == n
  {
  }

  predicate Live(st: Store, n: nat) {
    n == 0 || n in st.content
  }

  /** Conjunctions have two older nodes as children. */
  ghost predicate Layered(content: Contents) {
    0 !in content && forall p :: IsAnd(content, p) ==> OlderChild(content[p].c0, p) && OlderChild(content[p].c1, p)
  }

  predicate OlderChild(c: Ref, p: nat) {
    0 < c / 2 < p
  }

  /** No live reference leads to a freed node. */
  ghost predicate Closed(st: Store) {
    (forall u :: Active(st, u) ==> Live(st, Target(st, u))) && forall n :: n in st.handles ==> Live(st, n)
  }

  /** Counters are exact, and only dying nodes have none. */
  ghost predicate Counted(st: Store) {
    st.ref.Keys == st.content.Keys + {0} &&
    (forall n :: n in st.ref ==> CountedAt(st, n)) &&
    (forall n :: n in st.content ==> (st.ref[n] == 0 <==> n in st.dying)) && st.dying <= st.content.Keys
  }

  ghost predicate CountedAt(st: Store, n: nat)
    requires n in st.ref
  {
    st.ref[n] == |UsesOf(st, n)| + st.handles[n]
  }

  ghost predicate Ok(st: Store) {
    Layered(st.content) && Closed(st) && Counted(st)
  }

  // ----- one step each -----

  function Incremented(st: Store, n: nat): Store
    requires n in st.ref
  {
    st.(ref := st.ref[n := st.ref[n] + 1], handles := st.handles + multiset{n})
  }

  lemma SameUses(st: Store, st': Store)
    requires st'.content == st.content && st'.slots == st.slots && st'.dying == st.dying
    ensures forall n :: UsesOf(st', n) == UsesOf(st, n)
  {
    forall n ensures UsesOf(st', n) == UsesOf(st, n) {
      forall u ensures u in UsesOf(st', n) <==> u in UsesOf(st, n) {
        UsesOfIn(st, n, u);
        UsesOfIn(st', n, u);
      }
    }
  }

  lemma RebalancedClosed(st: Store, st': Store)
    requires Closed(st) && st'.content == st.content && st'.slots == st.slots && st'.dying == st.dying
    requires forall n :: n in st'.handles ==> Live(st, n)
    ensures Closed(st')
  {
    forall u | Active(st', u) ensures Live(st', Target(st', u)) {
      assert Active(st, u);
    }
  }

  lemma RebalancedAt(st: Store, st': Store, m: nat)
    requires Counted(st) && st'.content == st.content && st'.slots == st.slots && st'.dying == st.dying &&
             st'.ref.Keys == st.ref.Keys
    requires m in st.ref && st'.ref[m] + st.handles[m] == st.ref[m] + st'.handles[m]
    ensures CountedAt(st', m)
  {
    SameUses(st, st');
    hide UsesOf;
    assert CountedAt(st, m);
  }

  lemma Zeros(st: Store)
    requires Counted(st)
    ensures forall n :: n in st.content ==> n in st.ref && (st.ref[n] == 0 <==> n in st.dying)
  {
  }

  /** Counters and handles change together. */
  lemma Rebalanced(st: Store, st': Store)
    requires Ok(st) && st'.content == st.content && st'.slots == st.slots && st'.dying == st.dying &&
             st'.ref.Keys == st.ref.Keys
    requires forall n :: n in st.ref ==> st'.ref[n] + st.handles[n] == st.ref[n] + st'.handles[n]
    requires forall n :: n in st.content ==> (st'.ref[n] == 0 <==> st.ref[n] == 0)
    requires forall n :: n in st'.handles ==> Live(st, n)
    ensures Ok(st')
  {
    RefKeys(st);
    DyingKnown(st);
    Zeros(st);
    RebalancedClosed(st, st');
    hide UsesOf, Layered, Closed, CountedAt, Live, Counted;
    forall m | m in st'.ref ensures CountedAt(st', m) {
      RebalancedAt(st, st', m);
    }
    CountedIf(st');
  }

  lemma IncrementedOk(st: Store, n: nat)
    requires Ok(st) && Live(st, n) && n !in st.dying
    ensures n in st.ref && Ok(Incremented(st, n))
  {
    HandlesLive(st);
    hide Layered, Closed, CountedAt, UsesOf;
    Rebalanced(st, Incremented(st, n));
  }

  lemma HandlesLive(st: Store)
    requires Closed(st)
    ensures forall n :: n in st.handles ==> Live(st, n)
  {
  }

  /** One handle is dropped while others remain. */
  function Decremented(st: Store, n: nat): Store
    requires n in st.ref && st.ref[n] > 0
  {
    st.(ref := st.ref[n := st.ref[n] - 1], handles := st.handles - multiset{n})
  }

  lemma HandleCounted(st: Store, n: nat)
    requires Ok(st) && n in st.handles
    ensures n in st.ref && st.ref[n] >= st.handles[n] > 0 && n !in st.dying && Live(st, n)
  {
    hide UsesOf, Layered;
    assert Live(st, n) && CountedAt(st, n);
  }

  lemma DecrementedOk(st: Store, n: nat)
    requires Ok(st) && n in st.handles
    ensures n in st.ref && st.ref[n] > 0 && (st.ref[n] > 1 || n == 0 ==> Ok(Decremented(st, n)))
  {
    HandleCounted(st, n);
    if st.ref[n] > 1 || n == 0 {
      KeptOk(st, n);
    }
  }

  lemma KeptOk(st: Store, n: nat)
    requires Ok(st) && n in st.handles && n in st.ref && st.ref[n] > 0 && (st.ref[n] > 1 || n == 0)
    ensures Ok(Decremented(st, n))
  {
    HandlesLive(st);
    ZeroFree(st);
    var st' := Decremented(st, n);
    forall m ensures st'.handles[m] == st.handles[m] - (if m == n then 1 else 0) {
    }
    RefKeys(st);
    hide Ok, UsesOf, Live;
    Rebalanced(st, st');
  }

  lemma RefKeys(st: Store)
    requires Ok(st)
    ensures st.ref.Keys == st.content.Keys + {0}
  {
  }

  lemma ZeroFree(st: Store)
    requires Layered(st.content)
    ensures 0 !in st.content
  {
  }

  /** The last handle is dropped: the references to the children become handles. */
  function Died(st: Store, n: nat): Store
    requires n in st.content
  {
    var children := if st.content[n].And? then multiset{st.content[n].c0 / 2, st.content[n].c1 / 2} else multiset{};
    st.(ref := st.ref[n := 0], handles := st.handles - multiset{n} + children, dying := st.dying + {n})
  }

  lemma DiedUses(st: Store, n: nat, m: nat)
    requires n in st.content && n !in st.dying
    ensures UsesOf(Died(st, n), m) == UsesOf(st, m) - {Left(n), Right(n)}
  {
    var st' := Died(st, n);
    forall u ensures u in UsesOf(st', m) <==> u in UsesOf(st, m) - {Left(n), Right(n)} {
      UsesOfIn(st, m, u);
      UsesOfIn(st', m, u);
    }
  }

  lemma DiedOk(st: Store, n: nat)
    requires Ok(st) && n in st.handles && n in st.content && st.ref[n] == 1
    ensures Ok(Died(st, n)) && n !in st.dying
  {
    HandleCounted(st, n);
    var st' := Died(st, n);
    DiedClosed(st, n);
    forall m | m in st'.ref ensures CountedAt(st', m) {
      DiedCounted(st, n, m);
    }
  }

  lemma DiedClosed(st: Store, n: nat)
    requires Ok(st) && n in st.content && n !in st.dying
    ensures Closed(Died(st, n))
  {
    hide Layered, Counted;
    var st' := Died(st, n);
    forall u | Active(st', u) ensures Live(st', Target(st', u)) {
      assert Active(st, u);
    }
    forall m | m in st'.handles ensures Live(st', m) {
      if m !in st.handles {
        assert Active(st, Left(n)) && Active(st, Right(n));
      }
    }
  }

  lemma DiedCounted(st: Store, n: nat, m: nat)
    requires Ok(st) && n in st.handles && n in st.content && st.ref[n] == 1 && n !in st.dying && m in st.ref
    ensures CountedAt(Died(st, n), m)
  {
    hide UsesOf, Layered, Closed;
    assert CountedAt(st, m);
    DiedUses(st, n, m);
    DiedSize(st, n, m);
    DiedHandles(st, n, m);
  }

  lemma DiedHandles(st: Store, n: nat, m: nat)
    requires n in st.content && n in st.handles
    ensures Died(st, n).handles[m] == st.handles[m] - (if m == n then 1 else 0) +
              (if st.content[n].And? && st.content[n].c0 / 2 == m then 1 else 0) +
              (if st.content[n].And? && st.content[n].c1 / 2 == m then 1 else 0)
  {
  }

  lemma DiedSize(st: Store, n: nat, m: nat)
    requires Ok(st) && n in st.content && n !in st.dying
    ensures var c := st.content[n];
            |UsesOf(st, m) - {Left(n), Right(n)}| + (if c.And? && c.c0 / 2 == m then 1 else 0) + (if c.And? &&
              c.c1 / 2 == m then 1 else 0)
            == |UsesOf(st, m)|
  {
    var s, l, r := UsesOf(st, m), Left(n), Right(n);
    UsesOfIn(st, m, l);
    UsesOfIn(st, m, r);
    assert s - {l, r} == s - {l} - {r};
  }

  /** A dead node leaves the table. */
  function Removed(st: Store, n: nat): Store {
    st.(content := st.content - {n}, ref := st.ref - {n}, dying := st.dying - {n})
  }

  lemma RemovedOk(st: Store, n: nat)
    requires Ok(st) && n in st.dying
    ensures n in st.content && Ok(Removed(st, n))
  {
    hide UsesOf;
    var st' := Removed(st, n);
    assert CountedAt(st, n);
    forall m ensures UsesOf(st', m) == UsesOf(st, m) {
      forall u ensures u in UsesOf(st', m) <==> u in UsesOf(st, m) {
        UsesOfIn(st, m, u);
        UsesOfIn(st', m, u);
      }
    }
    forall u | Active(st', u) ensures Live(st', Target(st', u)) {
      assert Active(st, u);
      UsesOfIn(st, n, u);
    }
    forall m | m in st'.handles ensures Live(st', m) {
      assert m != n;
    }
    forall m | m in st'.ref ensures CountedAt(st', m) {
      assert CountedAt(st, m);
    }
    forall p | IsAnd(st'.content, p) ensures OlderChild(st'.content[p].c0, p) && OlderChild(st'.content[p].c1, p) {
      assert IsAnd(st.content, p);
    }
  }

  function Bumped(ref: map<nat, nat>, n: nat): map<nat, nat> {
    if n in ref then ref[n := ref[n] + 1] else ref
  }

  function BumpedBy(ref: map<nat, nat>, c: Content): map<nat, nat> {
    match c
    case Var(v, s) => ref
    case And(c0, c1) => Bumped(Bumped(ref, c0 / 2), c1 / 2)
  }

  function CountIn(c: Content, m: nat): nat {
    match c
    case Var(v, s) => 0
    case And(c0, c1) => (if c0 / 2 == m then 1 else 0) + if c1 / 2 == m then 1 else 0
  }

  predicate Fits(st: Store, p: nat, c: Content) {
    p > 0 && p !in st.content &&
    (c.And? ==> OlderChild(c.c0, p) && OlderChild(c.c1, p) && c.c0 / 2 in st.content && c.c1 / 2 in st.content &&
                c.c0 / 2 !in st.dying && c.c1 / 2 !in st.dying)
  }

  /** A new node in the table, held by its creator. */
  function Created(st: Store, p: nat, c: Content): Store {
    st.(content := st.content[p := c], ref := BumpedBy(st.ref, c)[p := 1], handles := st.handles + multiset{p})
  }

  lemma NotUsed(st: Store, p: nat)
    requires Ok(st) && !Live(st, p)
    ensures UsesOf(st, p) == {} && p !in st.handles
  {
    forall u ensures u !in UsesOf(st, p) {
      UsesOfIn(st, p, u);
      assert Active(st, u) ==> Live(st, Target(st, u));
    }
  }

  /** The new uses: those of the new node's children. */
  function ChildUses(p: nat, c: Content, m: nat): set<Use> {
    (if c.And? && c.c0 / 2 == m then {Left(p)} else {}) + (if c.And? && c.c1 / 2 == m then {Right(p)} else {})
  }

  lemma CreatedUse(st: Store, p: nat, c: Content, m: nat, u: Use)
    requires p !in st.content && p !in st.dying
    ensures u in UsesOf(Created(st, p, c), m) <==> u in UsesOf(st, m) || u in ChildUses(p, c, m)
  {
    UsesOfIn(st, m, u);
    UsesOfIn(Created(st, p, c), m, u);
    hide UsesOf;
  }

  lemma CreatedUses(st: Store, p: nat, c: Content, m: nat)
    requires p !in st.content && p !in st.dying
    ensures UsesOf(Created(st, p, c), m) == UsesOf(st, m) + ChildUses(p, c, m)
  {
    hide UsesOf, Created, ChildUses;
    forall u ensures u in UsesOf(Created(st, p, c), m) <==> u in UsesOf(st, m) + ChildUses(p, c, m) {
      CreatedUse(st, p, c, m, u);
    }
  }

  lemma CreatedSize(st: Store, p: nat, c: Content, m: nat)
    requires Ok(st) && Fits(st, p, c)
    ensures |UsesOf(Created(st, p, c), m)| == |UsesOf(st, m)| + CountIn(c, m)
  {
    hide UsesOf, Created, Layered, Closed, CountedAt;
    CreatedUses(st, p, c, m);
    UsesOfIn(st, m, Left(p));
    UsesOfIn(st, m, Right(p));
    assert UsesOf(st, m) !! ChildUses(p, c, m);
    assert |ChildUses(p, c, m)| == CountIn(c, m);
  }

  lemma CreatedRef(st: Store, p: nat, c: Content, m: nat)
    requires Fits(st, p, c) && m in st.ref && m != p && st.ref.Keys == st.content.Keys + {0}
    ensures m in Created(st, p, c).ref && Created(st, p, c).ref[m] == st.ref[m] + CountIn(c, m)
  {
  }

  lemma CreatedCounted(st: Store, p: nat, c: Content, m: nat)
    requires Ok(st) && Fits(st, p, c) && (m in st.ref || m == p)
    ensures m in Created(st, p, c).ref && CountedAt(Created(st, p, c), m)
    ensures m in st.content ==> (Created(st, p, c).ref[m] == 0 <==> m in st.dying)
  {
    CreatedParts(st, p, c);
    hide UsesOf, Created, Layered, Closed;
    CreatedSize(st, p, c, m);
    if m != p {
      assert CountedAt(st, m);
      CreatedRef(st, p, c, m);
    } else {
      NotUsed(st, p);
    }
  }

  lemma CreatedTotal(st: Store, p: nat, c: Content)
    requires Ok(st) && Fits(st, p, c)
    ensures Counted(Created(st, p, c))
  {
    var st' := Created(st, p, c);
    CreatedParts(st, p, c);
    RefKeys(st);
    DyingKnown(st);
    hide *;
    assert st'.content.Keys == st.content.Keys + {p};
    assert st'.ref.Keys == st'.content.Keys + {0};
    forall m | m in st'.ref ensures CountedAt(st', m) && (m in st.content ==> (st'.ref[m] == 0 <==> m in st.dying)) {
      CreatedCounted(st, p, c, m);
    }
    CountedIf(st');
  }

  lemma DyingKnown(st: Store)
    requires Ok(st)
    ensures st.dying <= st.content.Keys
  {
  }

  lemma CountedIf(st: Store)
    requires st.ref.Keys == st.content.Keys + {0} && (forall n :: n in st.ref ==> CountedAt(st, n))
    requires (forall n :: n in st.content ==> (st.ref[n] == 0 <==> n in st.dying)) && st.dying <= st.content.Keys
    ensures Counted(st)
  {
    hide CountedAt;
  }

  lemma CreatedOk(st: Store, p: nat, c: Content)
    requires Ok(st) && Fits(st, p, c)
    ensures Ok(Created(st, p, c))
  {
    hide Counted, Layered, Closed, Created;
    CreatedTotal(st, p, c);
    CreatedClosed(st, p, c);
  }

  lemma CreatedParts(st: Store, p: nat, c: Content)
    requires Ok(st) && Fits(st, p, c)
    ensures var st' := Created(st, p, c);
            st'.content == st.content[p := c] && st'.slots == st.slots && st'.dying == st.dying && p !in st.dying &&
            st'.ref.Keys == st.ref.Keys + {p} && st'.ref[p] == 1 && st'.handles == st.handles + multiset{p} &&
              CountIn(c, p) == 0
  {
    hide UsesOf;
  }

  lemma CreatedClosed(st: Store, p: nat, c: Content)
    requires Ok(st) && Fits(st, p, c)
    ensures Closed(Created(st, p, c)) && Layered(Created(st, p, c).content)
  {
    hide UsesOf, Counted;
    var st' := Created(st, p, c);
    forall u | Active(st', u) ensures Live(st', Target(st', u)) {
      if !(u == Left(p) || u == Right(p)) {
        assert Active(st, u) && Live(st, Target(st, u));
      }
    }
    forall q | IsAnd(st'.content, q) ensures OlderChild(st'.content[q].c0, q) && OlderChild(st'.content[q].c1, q) {
      if q != p {
        assert IsAnd(st.content, q);
      }
    }
  }

  // ----- stack entries -----

  function HeldBump(ref: map<nat, nat>, h: Held): map<nat, nat> {
    if h.Node? then Bumped(ref, h.r / 2) else ref
  }

  /** A new stack entry holds its node and its value. */
  function Entered(st: Store, slot: Slot, h: Held): Store {
    st.(slots := st.slots[slot := h], ref := HeldBump(Bumped(st.ref, Owner(slot)), h))
  }

  function HeldCount(slot: Slot, h: Held, m: nat): nat {
    (if Owner(slot) == m then 1 else 0) + if h.Node? && h.r / 2 == m then 1 else 0
  }

  predicate Enterable(st: Store, slot: Slot, h: Held) {
    slot !in st.slots && Owner(slot) in st.content && Owner(slot) !in st.dying &&
    (h.Node? ==> Live(st, h.r / 2) && h.r / 2 !in st.dying)
  }

  function SlotUses(slot: Slot, h: Held, m: nat): set<Use> {
    (if Owner(slot) == m then {Key(slot)} else {}) + (if h.Node? && h.r / 2 == m then {Value(slot)} else {})
  }

  lemma EnteredUse(st: Store, slot: Slot, h: Held, m: nat, u: Use)
    requires slot !in st.slots
    ensures u in UsesOf(Entered(st, slot, h), m) <==> u in UsesOf(st, m) || u in SlotUses(slot, h, m)
    ensures u in SlotUses(slot, h, m) ==> u !in UsesOf(st, m)
  {
    UsesOfIn(st, m, u);
    UsesOfIn(Entered(st, slot, h), m, u);
    hide UsesOf;
  }

  lemma EnteredUses(st: Store, slot: Slot, h: Held, m: nat)
    requires slot !in st.slots
    ensures |UsesOf(Entered(st, slot, h), m)| == |UsesOf(st, m)| + HeldCount(slot, h, m)
  {
    assert |SlotUses(slot, h, m)| == HeldCount(slot, h, m);
    hide UsesOf, Entered, SlotUses, HeldCount;
    forall u
      ensures u in UsesOf(Entered(st, slot, h), m) <==> u in UsesOf(st, m) + SlotUses(slot, h, m)
      ensures u in SlotUses(slot, h, m) ==> u !in UsesOf(st, m)
    {
      EnteredUse(st, slot, h, m, u);
    }
    assert UsesOf(Entered(st, slot, h), m) == UsesOf(st, m) + SlotUses(slot, h, m);
    assert UsesOf(st, m) !! SlotUses(slot, h, m);
  }

  lemma EnteredRef(st: Store, slot: Slot, h: Held, m: nat)
    requires Enterable(st, slot, h) && m in st.ref && st.ref.Keys == st.content.Keys + {0}
    ensures m in Entered(st, slot, h).ref && Entered(st, slot, h).ref[m] == st.ref[m] + HeldCount(slot, h, m)
  {
  }

  lemma EnteredOk(st: Store, slot: Slot, h: Held)
    requires Ok(st) && Enterable(st, slot, h)
    ensures Ok(Entered(st, slot, h))
  {
    EnteredClosed(st, slot, h);
    EnteredCounted(st, slot, h);
    hide Closed, Counted, Layered;
  }

  lemma EnteredClosed(st: Store, slot: Slot, h: Held)
    requires Closed(st) && Enterable(st, slot, h)
    ensures Closed(Entered(st, slot, h))
  {
    var st' := Entered(st, slot, h);
    forall u | Active(st', u) ensures Live(st', Target(st', u)) {
      if !(u == Key(slot) || u == Value(slot)) {
        assert Active(st, u) && Live(st, Target(st, u));
      }
    }
  }

  lemma EnteredCounted(st: Store, slot: Slot, h: Held)
    requires Ok(st) && Enterable(st, slot, h)
    ensures Counted(Entered(st, slot, h))
  {
    hide UsesOf, Layered, Closed;
    var st' := Entered(st, slot, h);
    assert st'.ref.Keys == st.ref.Keys;
    forall m | m in st'.ref ensures CountedAt(st', m) {
      assert CountedAt(st, m);
      EnteredUses(st, slot, h, m);
      EnteredRef(st, slot, h, m);
    }
    forall n | n in st'.content ensures st'.ref[n] == 0 <==> n in st'.dying {
      EnteredRef(st, slot, h, n);
      assert HeldCount(slot, h, n) > 0 ==> n !in st.dying;
    }
  }

  /** A removed stack entry leaves its two references to the caller. */
  function Popped(st: Store, slot: Slot): Store
    requires slot in st.slots
  {
    st.(slots := st.slots - {slot}, handles := st.handles + multiset{Owner(slot)} + HeldHandle(st.slots[slot]))
  }

  function HeldHandle(h: Held): multiset<nat> {
    if h.Node? then multiset{h.r / 2} else multiset{}
  }

  lemma PoppedUse(st: Store, slot: Slot, m: nat, u: Use)
    requires slot in st.slots
    ensures u in UsesOf(st, m) <==> u in UsesOf(Popped(st, slot), m) || u in SlotUses(slot, st.slots[slot], m)
    ensures u in SlotUses(slot, st.slots[slot], m) ==> u !in UsesOf(Popped(st, slot), m)
  {
    UsesOfIn(st, m, u);
    UsesOfIn(Popped(st, slot), m, u);
    hide UsesOf;
  }

  lemma PoppedUses(st: Store, slot: Slot, m: nat)
    requires slot in st.slots
    ensures |UsesOf(st, m)| == |UsesOf(Popped(st, slot), m)| + HeldCount(slot, st.slots[slot], m)
  {
    var h := st.slots[slot];
    assert |SlotUses(slot, h, m)| == HeldCount(slot, h, m);
    hide UsesOf, Popped, SlotUses, HeldCount;
    forall u
      ensures u in UsesOf(st, m) <==> u in UsesOf(Popped(st, slot), m) + SlotUses(slot, h, m)
      ensures u in SlotUses(slot, h, m) ==> u !in UsesOf(Popped(st, slot), m)
    {
      PoppedUse(st, slot, m, u);
    }
    assert UsesOf(st, m) == UsesOf(Popped(st, slot), m) + SlotUses(slot, h, m);
    assert UsesOf(Popped(st, slot), m) !! SlotUses(slot, h, m);
  }

  lemma PoppedOk(st: Store, slot: Slot)
    requires Ok(st) && slot in st.slots
    ensures Ok(Popped(st, slot))
  {
    PoppedClosed(st, slot);
    PoppedCounted(st, slot);
    hide Closed, Counted, Layered;
  }

  lemma PoppedClosed(st: Store, slot: Slot)
    requires Closed(st) && slot in st.slots
    ensures Closed(Popped(st, slot))
  {
    var st', h := Popped(st, slot), st.slots[slot];
    assert Active(st, Key(slot)) && (h.Node? ==> Active(st, Value(slot)));
    forall u | Active(st', u) ensures Live(st', Target(st', u)) {
      assert Active(st, u) && Live(st, Target(st, u));
    }
  }

  lemma PoppedCounted(st: Store, slot: Slot)
    requires Ok(st) && slot in st.slots
    ensures Counted(Popped(st, slot))
  {
    hide UsesOf, Layered, Closed;
    var st' := Popped(st, slot);
    forall m | m in st'.ref ensures CountedAt(st', m) {
      assert CountedAt(st, m);
      PoppedUses(st, slot, m);
    }
  }

  // ----- what stays -----

  /** Later states know the same content under the same number. */
  predicate Agree(content: Contents, content': Contents) {
    forall n :: n in content && n in content' ==> content[n] == content'[n]
  }

  /** A node that was held stays as long as whatever held it stays. */
  lemma {:induction false} StaysLive(st: Store, st': Store, n: nat, top: nat)
    requires Ok(st) && Ok(st') && st.dying == {} && Agree(st.content, st'.content) && n in st.content
    requires forall m :: m in st.handles ==> m in st'.handles
    requires forall slot :: slot in st.slots ==> slot in st'.slots && st'.slots[slot] == st.slots[slot]
    requires forall p :: p in st.content ==> p < top
    requires st'.dying == {}
    ensures n in st'.content
    decreases top - n
  {
    assert CountedAt(st, n) && st.ref[n] > 0;
    if n in st.handles {
      assert Live(st', n);
    } else {
      assert |UsesOf(st, n)| > 0;
      var u :| u in UsesOf(st, n);
      UsesOfIn(st, n, u);
      if u.Left? || u.Right? {
        assert IsAnd(st.content, u.p) && OlderChild(st.content[u.p].c0, u.p) && OlderChild(st.content[u.p].c1, u.p);
        StaysLive(st, st', u.p, top);
        assert Active(st', u) && Target(st', u) == n;
      } else {
        assert Active(st', u) && Target(st', u) == n;
      }
    }
  }

  /** The newest node has no uses in the table. */
  lemma TopUnused(st: Store, top: nat)
    requires Layered(st.content) && st.slots == map[] && forall p :: p in st.content ==> p <= top
    ensures UsesOf(st, top) == {}
  {
    forall u ensures u !in UsesOf(st, top) {
      UsesOfIn(st, top, u);
      assert u.Left? && Active(st, u) ==> OlderChild(st.content[u.p].c0, u.p);
      assert u.Right? && Active(st, u) ==> OlderChild(st.content[u.p].c1, u.p);
    }
  }

  /** Without handles and stack entries nothing is left. */
  lemma NothingLeft(st: Store)
    requires Ok(st) && st.dying == {} && st.handles == multiset{} && st.slots == map[]
    ensures st.content == map[] && st.ref[0] == 0
  {
    hide UsesOf;
    assert CountedAt(st, 0);
    if st.content.Keys != {} {
      var top := MaxKey(st.content.Keys);
      assert CountedAt(st, top);
      TopUnused(st, top);
    }
    assert UsesOf(st, 0) == {} by {
      forall u ensures u !in UsesOf(st, 0) {
        UsesOfIn(st, 0, u);
      }
    }
  }

  lemma {:induction false} MaxKey(s: set<nat>) returns (top: nat)
    requires s != {}
    ensures top in s && forall n :: n in s ==> n <= top
    decreases |s|
  {
    top :| top in s;
    if s != {top} {
      var rest := s - {top};
      assert rest != {};
      var other := MaxKey(rest);
      assert forall n :: n in s ==> n == top || n in rest;
      if other > top {
        top := other;
      }
    }
  }
}
