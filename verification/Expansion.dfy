/** aigunroll, expand: the cone of a simpaig node becomes a combinational circuit. */
module Expansion {
  import opened Aig
  import opened Renumber
  import opened Recode
  import R = RefCount
  import S = Simpaig

  /** The numbered nodes of a manager. */
  datatype View = View(content: R.Contents, slots: map<R.Slot, R.Held>, stack: seq<nat>, idx: map<nat, nat>) {
    ghost predicate Ok() {
      S.Numbered(content, slots, stack, idx) && R.Layered(content) && 0 !in idx
    }

    /** simpaig_index, 0 for nodes without one. */
    function IndexOf(p: nat): nat {
      if p in idx then idx[p] else 0
    }

    /** simpaig_unsigned_index */
    function LitOf(r: R.Ref): nat {
      2 * IndexOf(r / 2) + r % 2
    }

    predicate Known(r: R.Ref) {
      r / 2 == 0 || r / 2 in idx
    }

    predicate IsGate(i: nat) {
      1 <= i <= |stack| && R.IsAnd(content, stack[i - 1])
    }

    function GateOf(i: nat): (nat, nat)
      requires IsGate(i)
    {
      (LitOf(content[stack[i - 1]].c0), LitOf(content[stack[i - 1]].c1))
    }

    predicate IsInput(x: Input) {
      x.lit % 2 == 0 && 1 <= x.lit / 2 <= |stack| && stack[x.lit / 2 - 1] in content &&
      content[stack[x.lit / 2 - 1]] == R.Var(x.v, x.s)
    }
  }

  /** An input of the target, named after a variable and its time slice. */
  datatype Input = Input(lit: nat, v: nat, s: int)

  datatype Target = Target(inputs: seq<Input>, ands: seq<And>, output: nat)

  function DefsOf(view: View, copied: set<nat>): Defs {
    map i | i in copied && view.IsGate(i) :: view.GateOf(i)
  }

  // ----- numbered nodes -----

  lemma IndexMeaning(view: View, p: nat)
    requires view.Ok() && p in view.idx
    ensures 1 <= view.idx[p] <= |view.stack| && view.stack[view.idx[p] - 1] == p && p in view.content && p != 0
  {
    var i :| 0 <= i < |view.stack| && view.stack[i] == p;
    assert view.idx[view.stack[i]] == i + 1;
  }

  /** The children of a numbered conjunction are numbered lower. */
  lemma ChildIndex(view: View, p: nat, c: R.Ref)
    requires view.Ok() && p in view.idx && R.IsAnd(view.content, p)
    requires c == view.content[p].c0 || c == view.content[p].c1
    ensures 0 < c / 2 < p && c / 2 in view.idx && view.idx[c / 2] < view.idx[p]
  {
    IndexMeaning(view, p);
    var i := view.idx[p] - 1;
    assert S.ChildrenIn(view.content, view.stack[i], view.stack[..i]);
    assert R.OlderChild(view.content[p].c0, p) && R.OlderChild(view.content[p].c1, p);
    var j :| 0 <= j < i && view.stack[..i][j] == c / 2;
    assert view.idx[view.stack[j]] == j + 1;
  }

  // ----- copyaig -----

  /** Marks and emitted entries fit the view. */
  ghost predicate Emitted(view: View, aigs: set<nat>, inputs: seq<Input>, ands: seq<And>) {
    (forall i :: i in aigs ==> 1 <= i <= |view.stack|) && DistinctLhs(ands) &&
    (forall k :: 0 <= k < |ands| ==> Entry(ands[k], DefsOf(view, aigs))) &&
    forall k :: 0 <= k < |inputs| ==> view.IsInput(inputs[k]) && inputs[k].lit / 2 in aigs
  }

  /** A marked node has its entry, and its children are marked. */
  ghost predicate DoneAt(view: View, aigs: set<nat>, inputs: seq<Input>, ands: seq<And>, i: nat)
    requires 1 <= i <= |view.stack|
  {
    var p := view.stack[i - 1];
    if R.IsAnd(view.content, p) then
      Listed(ands, i) && view.IndexOf(view.content[p].c0 / 2) in aigs && view.IndexOf(view.content[p].c1 / 2) in aigs
    else exists k :: 0 <= k < |inputs| && inputs[k].lit == 2 * i
  }

  /** All marked nodes numbered below limit are done. */
  ghost predicate Complete(view: View, aigs: set<nat>, inputs: seq<Input>, ands: seq<And>, limit: nat) {
    forall i :: i in aigs && 1 <= i <= |view.stack| && i < limit ==> DoneAt(view, aigs, inputs, ands, i)
  }

  /** Only new nodes up to limit were added. */
  ghost predicate Extends(aigs0: set<nat>, inputs0: seq<Input>, ands0: seq<And>, aigs: set<nat>, inputs: seq<Input>,
                          ands: seq<And>, limit: nat) {
    aigs0 <= aigs && inputs0 <= inputs && ands0 <= ands && (forall i :: i in aigs && i !in aigs0 ==> i <= limit) &&
    forall k :: |ands0| <= k < |ands| ==> ands[k].lhs / 2 !in aigs0
  }

  lemma ExtendsSelf(aigs: set<nat>, inputs: seq<Input>, ands: seq<And>, limit: nat)
    ensures Extends(aigs, inputs, ands, aigs, inputs, ands, limit)
  {
  }

  lemma ExtendsTrans(aigs0: set<nat>, inputs0: seq<Input>, ands0: seq<And>, aigs1: set<nat>, inputs1: seq<Input>,
                     ands1: seq<And>, aigs2: set<nat>, inputs2: seq<Input>, ands2: seq<And>, a: nat, b: nat)
    requires Extends(aigs0, inputs0, ands0, aigs1, inputs1, ands1, a) && a <= b
    requires Extends(aigs1, inputs1, ands1, aigs2, inputs2, ands2, b)
    ensures Extends(aigs0, inputs0, ands0, aigs2, inputs2, ands2, b)
  {
    forall k | |ands0| <= k < |ands2| ensures ands2[k].lhs / 2 !in aigs0 {
      assert k < |ands1| ==> ands1[k] == ands2[k];
    }
  }

  /** What is complete stays complete. */
  lemma DoneKept(view: View, aigs: set<nat>, inputs: seq<Input>, ands: seq<And>, aigs': set<nat>, inputs': seq<Input>,
                 ands': seq<And>, i: nat)
    requires 1 <= i <= |view.stack| && DoneAt(view, aigs, inputs, ands, i)
    requires aigs <= aigs' && inputs <= inputs' && ands <= ands'
    ensures DoneAt(view, aigs', inputs', ands', i)
  {
    if R.IsAnd(view.content, view.stack[i - 1]) {
      var k :| 0 <= k < |ands| && ands[k].lhs == 2 * i;
      assert ands'[k].lhs == 2 * i;
    } else {
      var k :| 0 <= k < |inputs| && inputs[k].lit == 2 * i;
      assert inputs'[k].lit == 2 * i;
    }
  }

  lemma CompleteLess(view: View, aigs: set<nat>, inputs: seq<Input>, ands: seq<And>, limit: nat, less: nat)
    requires Complete(view, aigs, inputs, ands, limit) && less <= limit
    ensures Complete(view, aigs, inputs, ands, less)
  {
    hide DoneAt;
  }

  /** A call on a child completes what it adds. */
  lemma CompleteMore(view: View, aigs: set<nat>, inputs: seq<Input>, ands: seq<And>, aigs': set<nat>,
                     inputs': seq<Input>, ands': seq<And>, limit: nat, child: nat)
    requires Complete(view, aigs, inputs, ands, limit) && Extends(aigs, inputs, ands, aigs', inputs', ands', child)
    requires Complete(view, aigs', inputs', ands', child + 1)
    ensures Complete(view, aigs', inputs', ands', limit)
  {
    hide DoneAt;
    forall i | i in aigs' && 1 <= i <= |view.stack| && i < limit ensures DoneAt(view, aigs', inputs', ands', i) {
      if i in aigs {
        DoneKept(view, aigs, inputs, ands, aigs', inputs', ands', i);
      }
    }
  }

  /** The mark alone changes no entry. */
  lemma Marked(view: View, aigs: set<nat>, inputs: seq<Input>, ands: seq<And>, i: nat)
    requires Emitted(view, aigs, inputs, ands) && Complete(view, aigs, inputs, ands, i + 1) && 1 <= i <= |view.stack|
    ensures Emitted(view, aigs + {i}, inputs, ands) && Complete(view, aigs + {i}, inputs, ands, i)
    ensures Extends(aigs, inputs, ands, aigs + {i}, inputs, ands, i)
  {
    forall k | 0 <= k < |ands| ensures Entry(ands[k], DefsOf(view, aigs + {i})) {
      assert Entry(ands[k], DefsOf(view, aigs));
    }
    forall j | j in aigs + {i} && 1 <= j <= |view.stack| && j < i ensures DoneAt(view, aigs + {i}, inputs, ands, j) {
      DoneKept(view, aigs, inputs, ands, aigs + {i}, inputs, ands, j);
    }
  }

  lemma InputAdded(view: View, aigs: set<nat>, inputs: seq<Input>, ands: seq<And>, p: nat, i: nat)
    requires view.Ok() && Emitted(view, aigs, inputs, ands) && Complete(view, aigs, inputs, ands, i + 1)
    requires p in view.idx && i == view.idx[p] && p in view.content && view.content[p].Var?
    ensures var inputs' := inputs + [Input(2 * i, view.content[p].v, view.content[p].s)];
            Emitted(view, aigs + {i}, inputs', ands) && Complete(view, aigs + {i}, inputs', ands, i + 1) &&
            Extends(aigs, inputs, ands, aigs + {i}, inputs', ands, i)
  {
    hide *;
    IndexMeaning(view, p);
    Marked(view, aigs, inputs, ands, i);
    InputEmitted(view, aigs + {i}, inputs, ands, p, i);
    InputCompletes(view, aigs + {i}, inputs, ands, p, i);
    InputExtends(aigs, inputs, ands, i, Input(2 * i, view.content[p].v, view.content[p].s));
  }

  lemma InputEmitted(view: View, aigs: set<nat>, inputs: seq<Input>, ands: seq<And>, p: nat, i: nat)
    requires Emitted(view, aigs, inputs, ands) && i in aigs && 1 <= i <= |view.stack| && view.stack[i - 1] == p
    requires p in view.content && view.content[p].Var?
    ensures Emitted(view, aigs, inputs + [Input(2 * i, view.content[p].v, view.content[p].s)], ands)
  {
    hide DistinctLhs, DefsOf;
    assert view.IsInput(Input(2 * i, view.content[p].v, view.content[p].s));
  }

  lemma InputCompletes(view: View, aigs: set<nat>, inputs: seq<Input>, ands: seq<And>, p: nat, i: nat)
    requires Complete(view, aigs, inputs, ands, i) && 1 <= i <= |view.stack| && view.stack[i - 1] == p
    requires p in view.content && view.content[p].Var?
    ensures Complete(view, aigs, inputs + [Input(2 * i, view.content[p].v, view.content[p].s)], ands, i + 1)
  {
    var inputs' := inputs + [Input(2 * i, view.content[p].v, view.content[p].s)];
    assert inputs'[|inputs|].lit == 2 * i;
    hide DoneAt;
    forall j | j in aigs && 1 <= j <= |view.stack| && j < i + 1 ensures DoneAt(view, aigs, inputs', ands, j) {
      if j < i {
        DoneKept(view, aigs, inputs, ands, aigs, inputs', ands, j);
      } else {
        InputDone(view, aigs, inputs', ands, i, |inputs|);
      }
    }
  }

  lemma InputExtends(aigs: set<nat>, inputs: seq<Input>, ands: seq<And>, i: nat, x: Input)
    ensures Extends(aigs, inputs, ands, aigs + {i}, inputs + [x], ands, i)
  {
  }

  lemma InputDone(view: View, aigs: set<nat>, inputs: seq<Input>, ands: seq<And>, i: nat, k: nat)
    requires 1 <= i <= |view.stack| && !R.IsAnd(view.content, view.stack[i - 1]) && k < |inputs| &&
             inputs[k].lit == 2 * i
    ensures DoneAt(view, aigs, inputs, ands, i)
  {
  }

  /** The gate itself follows its children. */
  lemma GateAdded(view: View, before: set<nat>, ands0: seq<And>, aigs: set<nat>, inputs: seq<Input>, ands: seq<And>,
                  p: nat, i: nat)
    requires view.Ok() && Emitted(view, aigs, inputs, ands) && Complete(view, aigs, inputs, ands, i)
    requires p in view.idx && i == view.idx[p] && i !in before && i in aigs && R.IsAnd(view.content, p)
    requires R.IsAnd(view.content, p) && view.IndexOf(view.content[p].c0 / 2) in aigs
    requires view.IndexOf(view.content[p].c1 / 2) in aigs && ands0 <= ands &&
             (forall k :: 0 <= k < |ands0| ==> ands0[k].lhs / 2 in before)
    requires forall k :: |ands0| <= k < |ands| ==> ands[k].lhs / 2 !in before + {i}
    ensures var ands' := ands + [And(2 * i, view.LitOf(view.content[p].c0), view.LitOf(view.content[p].c1))];
            Emitted(view, aigs, inputs, ands') && Complete(view, aigs, inputs, ands', i + 1)
  {
    hide View.Ok, View.LitOf, View.IndexOf, View.GateOf, View.IsGate, DefsOf, Complete, DoneAt;
    IndexMeaning(view, p);
    GateEntry(view, aigs, p, i);
    forall k | 0 <= k < |ands| ensures ands[k].lhs != 2 * i {
      assert k < |ands0| ==> ands0[k] == ands[k];
    }
    GateCompletes(view, aigs, inputs, ands, p,
      And(2 * i, view.LitOf(view.content[p].c0), view.LitOf(view.content[p].c1)), i);
  }

  lemma GateCompletes(view: View, aigs: set<nat>, inputs: seq<Input>, ands: seq<And>, p: nat, a: And, i: nat)
    requires 1 <= i <= |view.stack| && view.stack[i - 1] == p && Complete(view, aigs, inputs, ands, i) && a.lhs == 2 * i
    requires i in aigs && R.IsAnd(view.content, p) && view.IndexOf(view.content[p].c0 / 2) in aigs
    requires view.IndexOf(view.content[p].c1 / 2) in aigs
    ensures Complete(view, aigs, inputs, ands + [a], i + 1)
  {
    var ands' := ands + [a];
    forall j | j in aigs && 1 <= j <= |view.stack| && j < i + 1 ensures DoneAt(view, aigs, inputs, ands', j) {
      if j < i {
        DoneKept(view, aigs, inputs, ands, aigs, inputs, ands', j);
      } else {
        assert ands'[|ands|].lhs == 2 * i;
      }
    }
  }

  lemma GateEntry(view: View, aigs: set<nat>, p: nat, i: nat)
    requires view.Ok() && p in view.idx && i == view.idx[p] && i in aigs && R.IsAnd(view.content, p)
    ensures Entry(And(2 * i, view.LitOf(view.content[p].c0), view.LitOf(view.content[p].c1)), DefsOf(view, aigs))
  {
    hide View.Ok, View.LitOf;
    IndexMeaning(view, p);
    assert view.IsGate(i) && view.GateOf(i) == (view.LitOf(view.content[p].c0), view.LitOf(view.content[p].c1));
    DefsAt(view, aigs, i);
  }

  lemma DefsAt(view: View, aigs: set<nat>, i: nat)
    requires i in aigs && view.IsGate(i)
    ensures i in DefsOf(view, aigs) && DefsOf(view, aigs)[i] == view.GateOf(i)
  {
    hide View.GateOf;
  }

  lemma EntriesIn(view: View, aigs: set<nat>, inputs: seq<Input>, ands: seq<And>)
    requires Emitted(view, aigs, inputs, ands)
    ensures forall k :: 0 <= k < |ands| ==> ands[k].lhs / 2 in aigs
  {
    forall k | 0 <= k < |ands| ensures ands[k].lhs / 2 in aigs {
      assert Entry(ands[k], DefsOf(view, aigs));
    }
  }

  lemma ExtendsParts(aigs0: set<nat>, inputs0: seq<Input>, ands0: seq<And>, aigs: set<nat>, inputs: seq<Input>,
                     ands: seq<And>, limit: nat)
    requires Extends(aigs0, inputs0, ands0, aigs, inputs, ands, limit)
    ensures aigs0 <= aigs && ands0 <= ands && forall k :: |ands0| <= k < |ands| ==> ands[k].lhs / 2 !in aigs0
  {
  }

  lemma ExtendsLast(aigs0: set<nat>, inputs0: seq<Input>, ands0: seq<And>, aigs: set<nat>, inputs: seq<Input>,
                    ands: seq<And>, limit: nat, a: And)
    requires Extends(aigs0, inputs0, ands0, aigs, inputs, ands, limit) && a.lhs / 2 !in aigs0
    ensures Extends(aigs0, inputs0, ands0, aigs, inputs, ands + [a], limit)
  {
  }

  class Copier {
    const view: View
    var aigs: set<nat>
    var inputs: seq<Input>
    var ands: seq<And>

    constructor (v: View)
      ensures view == v && aigs == {} && inputs == [] && ands == []
    {
      view, aigs, inputs, ands := v, {}, [], [];
    }

    /** copyaig */
    method Copy(aig: R.Ref)
      requires view.Ok() && view.Known(aig) && Emitted(view, aigs, inputs, ands)
      requires Complete(view, aigs, inputs, ands, view.IndexOf(aig / 2) + 1)
      modifies this
      ensures Emitted(view, aigs, inputs, ands) && Complete(view, aigs, inputs, ands, view.IndexOf(aig / 2) + 1)
      ensures Extends(old(aigs), old(inputs), old(ands), aigs, inputs, ands, view.IndexOf(aig / 2))
      ensures aig / 2 in view.idx ==> view.IndexOf(aig / 2) in aigs
      decreases view.IndexOf(aig / 2), 1
    {
      hide Emitted, Complete, Extends, DistinctLhs, View.Ok;
      var p := aig / 2;
      var i := view.IndexOf(p);
      if p in view.idx {
        IndexMeaning(view, p);
      }
      ExtendsSelf(aigs, inputs, ands, i);
      if i == 0 || i in aigs {
        return;
      }
      if view.content[p].And? {
        CopyGate(p, i);
      } else {
        InputAdded(view, aigs, inputs, ands, p, i);
        inputs := inputs + [Input(2 * i, view.content[p].v, view.content[p].s)];
        aigs := aigs + {i};
      }
    }

    method CopyGate(p: nat, i: nat)
      requires view.Ok() && Emitted(view, aigs, inputs, ands) && p in view.idx && i == view.idx[p] && i !in aigs
      requires R.IsAnd(view.content, p) && Complete(view, aigs, inputs, ands, i + 1)
      modifies this
      ensures Emitted(view, aigs, inputs, ands) && Complete(view, aigs, inputs, ands, i + 1)
      ensures Extends(old(aigs), old(inputs), old(ands), aigs, inputs, ands, i) && i in aigs
      decreases i, 0
    {
      hide Emitted, Complete, Extends, DistinctLhs, View.Ok;
      IndexMeaning(view, p);
      var c0, c1 := view.content[p].c0, view.content[p].c1;
      ChildIndex(view, p, c0);
      ChildIndex(view, p, c1);
      EntriesIn(view, aigs, inputs, ands);
      Marked(view, aigs, inputs, ands, i);
      aigs := aigs + {i};
      ghost var aigs1 := aigs;
      CopyChild(c0, i);
      ghost var aigs2, inputs2, ands2 := aigs, inputs, ands;
      CopyChild(c1, i);
      ExtendsTrans(aigs1, old(inputs), old(ands), aigs2, inputs2, ands2, aigs, inputs, ands, i, i);
      ExtendsParts(aigs1, old(inputs), old(ands), aigs, inputs, ands, i);
      ExtendsParts(aigs2, inputs2, ands2, aigs, inputs, ands, i);
      ExtendsTrans(old(aigs), old(inputs), old(ands), aigs1, old(inputs), old(ands), aigs, inputs, ands, i, i);
      GateAdded(view, old(aigs), old(ands), aigs, inputs, ands, p, i);
      ExtendsLast(old(aigs), old(inputs), old(ands), aigs, inputs, ands, i, And(2 * i, view.LitOf(c0), view.LitOf(c1)));
      ands := ands + [And(2 * i, view.LitOf(c0), view.LitOf(c1))];
    }

    method CopyChild(c: R.Ref, i: nat)
      requires view.Ok() && c / 2 in view.idx && view.idx[c / 2] < i && Emitted(view, aigs, inputs, ands)
      requires Complete(view, aigs, inputs, ands, i)
      modifies this
      ensures Emitted(view, aigs, inputs, ands) && Complete(view, aigs, inputs, ands, i) && view.idx[c / 2] in aigs
      ensures Extends(old(aigs), old(inputs), old(ands), aigs, inputs, ands, i)
      decreases view.idx[c / 2], 2
    {
      hide Emitted, Complete, Extends, DistinctLhs, View.Ok;
      CompleteLess(view, aigs, inputs, ands, i, view.idx[c / 2] + 1);
      Copy(c);
      CompleteMore(view, old(aigs), old(inputs), old(ands), aigs, inputs, ands, i, view.idx[c / 2]);
      ExtendsWider(old(aigs), old(inputs), old(ands), aigs, inputs, ands, view.idx[c / 2], i);
    }
  }

  lemma ExtendsWider(aigs0: set<nat>, inputs0: seq<Input>, ands0: seq<And>, aigs: set<nat>, inputs: seq<Input>,
                     ands: seq<And>, a: nat, b: nat)
    requires Extends(aigs0, inputs0, ands0, aigs, inputs, ands, a) && a <= b
    ensures Extends(aigs0, inputs0, ands0, aigs, inputs, ands, b)
  {
  }

  lemma EmittedNone(view: View, limit: nat)
    ensures Emitted(view, {}, [], []) && Complete(view, {}, [], [], limit)
  {
  }

  // ----- what the target means -----

  /** Marks that contain a node and are complete contain its cone. */
  lemma {:induction false} ConeMarked(view: View, aigs: set<nat>, inputs: seq<Input>, ands: seq<And>, r: R.Ref,
                                      limit: nat)
    requires view.Ok() && r / 2 in view.idx && view.idx[r / 2] in aigs && view.idx[r / 2] < limit
    requires Complete(view, aigs, inputs, ands, limit)
    ensures forall p :: p in S.Cone(view.content, r) ==> p in view.idx && view.idx[p] in aigs
    decreases r / 2
  {
    hide View.Ok;
    var p := r / 2;
    IndexMeaning(view, p);
    assert DoneAt(view, aigs, inputs, ands, view.idx[p]);
    if R.IsAnd(view.content, p) {
      ChildIndex(view, p, view.content[p].c0);
      ChildIndex(view, p, view.content[p].c1);
      ConeMarked(view, aigs, inputs, ands, view.content[p].c0, limit);
      ConeMarked(view, aigs, inputs, ands, view.content[p].c1, limit);
    }
  }

  /** Every numbered node is in the target, and nothing else. */
  ghost predicate Full(view: View, t: Target) {
    Describes(t.ands, AllDefs(view)) && (forall k :: 0 <= k < |t.inputs| ==> view.IsInput(t.inputs[k])) &&
    forall i :: 1 <= i <= |view.stack| && !view.IsGate(i) ==> exists k ::
        0 <= k < |t.inputs| && t.inputs[k].lit == 2 * i
  }

  function AllDefs(view: View): Defs {
    DefsOf(view, Range(0, |view.stack|))
  }

  lemma AllMarked(view: View, aigs: set<nat>, inputs: seq<Input>, ands: seq<And>, r: R.Ref)
    requires view.Ok() && r / 2 in view.idx && Emitted(view, aigs, inputs, ands) && view.idx[r / 2] in aigs
    requires Complete(view, aigs, inputs, ands, view.idx[r / 2] + 1) &&
             S.Elements(view.stack) == S.Cone(view.content, r)
    ensures aigs == Range(0, |view.stack|)
  {
    ConeMarked(view, aigs, inputs, ands, r, view.idx[r / 2] + 1);
    forall i | 1 <= i <= |view.stack| ensures i in aigs {
      assert view.stack[i - 1] in S.Elements(view.stack);
      assert view.idx[view.stack[i - 1]] == i;
    }
  }

  /** Copying the root of the numbered cone yields exactly the cone. */
  lemma CopyFull(view: View, aigs: set<nat>, inputs: seq<Input>, ands: seq<And>, r: R.Ref, output: nat)
    requires view.Ok() && r / 2 in view.idx && Emitted(view, aigs, inputs, ands) && view.idx[r / 2] in aigs
    requires Complete(view, aigs, inputs, ands, view.idx[r / 2] + 1) &&
             S.Elements(view.stack) == S.Cone(view.content, r)
    ensures Full(view, Target(inputs, ands, output))
  {
    hide *;
    AllMarked(view, aigs, inputs, ands, r);
    LastIndex(view, r);
    forall i | 1 <= i <= |view.stack| ensures DoneAt(view, aigs, inputs, ands, i) {
      CompleteAt(view, aigs, inputs, ands, |view.stack| + 1, i);
    }
    FullIf(view, inputs, ands, output);
  }

  lemma CompleteAt(view: View, aigs: set<nat>, inputs: seq<Input>, ands: seq<And>, limit: nat, i: nat)
    requires Complete(view, aigs, inputs, ands, limit) && i in aigs && 1 <= i <= |view.stack| && i < limit
    ensures DoneAt(view, aigs, inputs, ands, i)
  {
    hide DoneAt;
  }

  lemma FullIf(view: View, inputs: seq<Input>, ands: seq<And>, output: nat)
    requires Emitted(view, Range(0, |view.stack|), inputs, ands)
    requires forall i :: 1 <= i <= |view.stack| ==> DoneAt(view, Range(0, |view.stack|), inputs, ands, i)
    ensures Full(view, Target(inputs, ands, output))
  {
    hide View.GateOf, DistinctLhs, View.IsInput;
    forall v | v in AllDefs(view) ensures Listed(ands, v) {
      assert DoneAt(view, Range(0, |view.stack|), inputs, ands, v);
    }
    forall i | 1 <= i <= |view.stack| && !view.IsGate(i)
      ensures exists k :: 0 <= k < |inputs| && inputs[k].lit == 2 * i
    {
      assert DoneAt(view, Range(0, |view.stack|), inputs, ands, i);
    }
  }

  /** The root has the highest number of its cone. */
  lemma LastIndex(view: View, r: R.Ref)
    requires view.Ok() && r / 2 in view.idx && S.Elements(view.stack) == S.Cone(view.content, r)
    ensures view.idx[r / 2] == |view.stack|
  {
    var p := view.stack[|view.stack| - 1];
    assert p in S.Elements(view.stack) && view.idx[p] == |view.stack|;
    ConeIndices(view, r);
    IndexMeaning(view, r / 2);
  }

  lemma {:induction false} ConeIndices(view: View, r: R.Ref)
    requires view.Ok() && r / 2 in view.idx
    ensures forall p :: p in S.Cone(view.content, r) ==> p in view.idx && view.idx[p] <= view.idx[r / 2]
    decreases r / 2
  {
    hide View.Ok;
    var p := r / 2;
    if R.IsAnd(view.content, p) {
      ChildIndex(view, p, view.content[p].c0);
      ChildIndex(view, p, view.content[p].c1);
      ConeIndices(view, view.content[p].c0);
      ConeIndices(view, view.content[p].c1);
    }
  }

  /** Every input has the value of the variable it is named after. */
  ghost predicate Agrees(inputs: seq<Input>, env: S.Env, env': iset<nat>) {
    forall k :: 0 <= k < |inputs| ==> (inputs[k].lit / 2 in env' <==> (inputs[k].v, inputs[k].s) in env)
  }

  lemma InputValue(view: View, t: Target, env: S.Env, env': iset<nat>, p: nat)
    requires view.Ok() && Full(view, t) && p in view.idx && p in view.content && view.content[p].Var?
    requires Agrees(t.inputs, env, env')
    ensures view.idx[p] in env' <==> (view.content[p].v, view.content[p].s) in env
  {
    IndexMeaning(view, p);
    hide View.Ok, Describes;
    var i := view.idx[p];
    assert !view.IsGate(i);
    var k :| 0 <= k < |t.inputs| && t.inputs[k].lit == 2 * i;
    assert view.IsInput(t.inputs[k]);
  }

  lemma AllRanked(view: View)
    requires view.Ok()
    ensures Ranked(AllDefs(view), Identity(0, |view.stack|)) && 0 !in AllDefs(view)
  {
    var defs := AllDefs(view);
    forall v, c | v in defs && c in defs && Child(defs, v, c) ensures c < v {
      var p := view.stack[v - 1];
      assert view.idx[p] == v && p in view.idx;
      ChildIndex(view, p, view.content[p].c0);
      ChildIndex(view, p, view.content[p].c1);
    }
  }

  /** The value of the literal of a reference in the target. */
  ghost predicate Out(view: View, env': iset<nat>, r: R.Ref)
    requires Ranked(AllDefs(view), Identity(0, |view.stack|))
  {
    Eval(AllDefs(view), Identity(0, |view.stack|), env', view.LitOf(r))
  }

  /** The literal of a numbered reference has the value of the reference. */
  lemma {:induction false} TargetValue(view: View, t: Target, env: S.Env, env': iset<nat>, r: R.Ref)
    requires view.Ok() && Full(view, t) && view.Known(r) && Ranked(AllDefs(view), Identity(0, |view.stack|))
    requires Agrees(t.inputs, env, env')
    ensures Out(view, env', r) == S.Val(view.content, env, r)
    decreases r / 2, r % 2
  {
    hide *;
    var p := r / 2;
    KnownNode(view, r);
    if r % 2 == 1 {
      KnownNode(view, r - 1);
      TargetValue(view, t, env, env', r - 1);
      OutNot(view, env', r);
      S.ValNot(view.content, env, r - 1);
      NotOdd(r);
    } else if p == 0 {
      OutZero(view, env');
      S.ValNot(view.content, env, 0);
    } else {
      IndexMeaning(view, p);
      if view.content[p].Var? {
        VarTarget(view, t, env, env', p);
      } else {
        AndNode(view, p);
        ChildIndex(view, p, view.content[p].c0);
        ChildIndex(view, p, view.content[p].c1);
        KnownNode(view, view.content[p].c0);
        KnownNode(view, view.content[p].c1);
        TargetValue(view, t, env, env', view.content[p].c0);
        TargetValue(view, t, env, env', view.content[p].c1);
        GateTarget(view, env, env', p);
      }
    }
  }

  lemma KnownNode(view: View, r: R.Ref)
    ensures view.Known(r) <==> r / 2 == 0 || r / 2 in view.idx
  {
  }

  lemma NotOdd(r: R.Ref)
    ensures r % 2 == 1 ==> S.Not(r - 1) == r
  {
  }

  lemma AndNode(view: View, p: nat)
    requires p in view.content && view.content[p].And?
    ensures R.IsAnd(view.content, p)
  {
  }

  lemma OutNot(view: View, env': iset<nat>, r: R.Ref)
    requires Ranked(AllDefs(view), Identity(0, |view.stack|)) && r % 2 == 1
    ensures Out(view, env', r) == !Out(view, env', r - 1)
  {
    hide Eval, Ranked;
    EvalNot(AllDefs(view), Identity(0, |view.stack|), env', view.LitOf(r - 1));
  }

  lemma OutZero(view: View, env': iset<nat>)
    requires Ranked(AllDefs(view), Identity(0, |view.stack|)) && view.Ok()
    ensures !Out(view, env', 0)
  {
    AllRanked(view);
    hide Eval, Ranked;
    EvalLeaf(AllDefs(view), Identity(0, |view.stack|), env', 0);
  }

  lemma VarTarget(view: View, t: Target, env: S.Env, env': iset<nat>, p: nat)
    requires view.Ok() && Full(view, t) && p in view.idx && p in view.content && view.content[p].Var? && p != 0
    requires Ranked(AllDefs(view), Identity(0, |view.stack|)) && Agrees(t.inputs, env, env')
    ensures Out(view, env', 2 * p) == S.Val(view.content, env, 2 * p)
  {
    hide *;
    IndexMeaning(view, p);
    InputValue(view, t, env, env', p);
    S.VarVal(view.content, env, p);
    VarFree(view, p);
    OutIs(view, env', p);
    EvalLeaf(AllDefs(view), Identity(0, |view.stack|), env', view.idx[p]);
  }

  lemma OutIs(view: View, env': iset<nat>, p: nat)
    requires Ranked(AllDefs(view), Identity(0, |view.stack|)) && p in view.idx
    ensures Out(view, env', 2 * p) == Eval(AllDefs(view), Identity(0, |view.stack|), env', 2 * view.idx[p])
  {
    hide Eval, Ranked;
  }

  lemma VarFree(view: View, p: nat)
    requires view.Ok() && p in view.idx && p in view.content && view.content[p].Var?
    ensures view.idx[p] !in AllDefs(view)
  {
    hide View.Ok;
    IndexMeaning(view, p);
  }

  lemma GateTarget(view: View, env: S.Env, env': iset<nat>, p: nat)
    requires view.Ok() && p in view.idx && R.IsAnd(view.content, p) && p != 0
    requires Ranked(AllDefs(view), Identity(0, |view.stack|))
    requires Out(view, env', view.content[p].c0) == S.Val(view.content, env, view.content[p].c0)
    requires Out(view, env', view.content[p].c1) == S.Val(view.content, env, view.content[p].c1)
    ensures Out(view, env', 2 * p) == S.Val(view.content, env, 2 * p)
  {
    NodesLayered(view);
    S.AndVal(view.content, env, p);
    AllRanked(view);
    hide View.Ok, Eval, Ranked, AllDefs, S.Val, R.Layered, View.LitOf;
    GateIndex(view, p);
    EvalGate(AllDefs(view), Identity(0, |view.stack|), env', view.idx[p]);
    OutIs(view, env', p);
  }

  lemma NodesLayered(view: View)
    requires view.Ok()
    ensures R.Layered(view.content)
  {
  }

  lemma GateIndex(view: View, p: nat)
    requires view.Ok() && p in view.idx && R.IsAnd(view.content, p)
    ensures view.idx[p] in AllDefs(view)
    ensures AllDefs(view)[view.idx[p]] == (view.LitOf(view.content[p].c0), view.LitOf(view.content[p].c1))
  {
    hide View.Ok, View.LitOf, DefsOf;
    IndexMeaning(view, p);
    var i := view.idx[p];
    assert view.IsGate(i) && view.GateOf(i) == (view.LitOf(view.content[p].c0), view.LitOf(view.content[p].c1));
    DefsAt(view, Range(0, |view.stack|), i);
  }

  /** Gates defs compute a reference: they are the acyclic gates of the target, and the
      output has the value of the reference whenever the inputs have the values of their
      variables. */
  ghost predicate Renders(t: Target, defs: Defs, content: R.Contents, r: R.Ref) {
    Describes(t.ands, defs) && Acyclic(defs) && Named(t.inputs) &&
    forall env: S.Env, env' {:trigger Agrees(t.inputs, env, env')} ::
      Agrees(t.inputs, env, env') ==> Means(defs, env', t.output) == S.Val(content, env, r)
  }

  /** Different inputs are named after different variables. */
  ghost predicate Named(inputs: seq<Input>) {
    (forall k :: 0 <= k < |inputs| ==> inputs[k].lit % 2 == 0) &&
    forall j, k :: 0 <= j < |inputs| && 0 <= k < |inputs| ==> SameName(inputs[j], inputs[k])
  }

  predicate SameName(x: Input, y: Input) {
    x.v == y.v && x.s == y.s <==> x.lit == y.lit
  }

  lemma FullNamed(view: View, t: Target)
    requires view.Ok() && Full(view, t) && S.Unique(view.content)
    ensures Named(t.inputs)
  {
    hide Describes;
    forall j, k | 0 <= j < |t.inputs| && 0 <= k < |t.inputs| ensures SameName(t.inputs[j], t.inputs[k]) {
      assert view.IsInput(t.inputs[j]) && view.IsInput(t.inputs[k]);
      InputName(view, t.inputs[j], t.inputs[k]);
    }
    forall k | 0 <= k < |t.inputs| ensures t.inputs[k].lit % 2 == 0 {
      assert view.IsInput(t.inputs[k]);
    }
  }

  lemma InputName(view: View, x: Input, y: Input)
    requires view.Ok() && view.IsInput(x) && view.IsInput(y) && S.Unique(view.content)
    ensures SameName(x, y)
  {
    var a, b := x.lit / 2, y.lit / 2;
    assert view.idx[view.stack[a - 1]] == a && view.idx[view.stack[b - 1]] == b;
  }

  lemma FullRenders(view: View, t: Target, r: R.Ref)
    requires view.Ok() && Full(view, t) && view.Known(r) && t.output == view.LitOf(r) && S.Unique(view.content)
    ensures Renders(t, AllDefs(view), view.content, r)
  {
    AllRanked(view);
    FullNamed(view, t);
    assert Describes(t.ands, AllDefs(view));
    hide Eval, Ranked, View.Ok, Full, Agrees, S.Val, Means, Named, Describes, S.Unique;
    forall env: S.Env, env' {:trigger Agrees(t.inputs, env, env')} | Agrees(t.inputs, env, env')
      ensures Means(AllDefs(view), env', t.output) == S.Val(view.content, env, r)
    {
      MeansEval(AllDefs(view), Identity(0, |view.stack|), env', t.output);
      TargetValue(view, t, env, env', r);
    }
  }

  lemma FirstMarked(view: View, aigs: set<nat>, inputs: seq<Input>, ands: seq<And>)
    requires Emitted(view, aigs, inputs, ands)
    ensures (ands != [] ==> ands[0].lhs / 2 in aigs) && (inputs != [] ==> inputs[0].lit / 2 in aigs)
  {
    EntriesIn(view, aigs, inputs, ands);
  }

  /** Copying a constant adds nothing. */
  lemma ConstantCopied(view: View, aigs: set<nat>, inputs: seq<Input>, ands: seq<And>)
    requires Emitted(view, aigs, inputs, ands) && Extends({}, [], [], aigs, inputs, ands, 0)
    ensures inputs == [] && ands == []
  {
    FirstMarked(view, aigs, inputs, ands);
    assert forall i :: i in aigs ==> 1 <= i <= 0;
    assert aigs == {};
  }

  lemma ConstantRenders(content: R.Contents, r: R.Ref)
    requires r < 2
    ensures Renders(Target([], [], r), map[], content, r)
  {
    assert Ranked(map[], map[]);
    forall env: S.Env, env': iset<nat> ensures Means(map[], env', r) == S.Val(content, env, r) {
      MeansEval(map[], map[], env', r);
      EvalLeaf(map[], map[], env', 0);
      EvalNot(map[], map[], env', 0);
      S.ValNot(content, env, 0);
    }
  }

  // ----- satisfiability -----

  /** Values of the variables behind given input values. */
  ghost function Behind(inputs: seq<Input>, env': iset<nat>): S.Env {
    iset x: (nat, int) | exists k ::
      0 <= k < |inputs| && inputs[k].v == x.0 && inputs[k].s == x.1 && inputs[k].lit / 2 in env'
  }

  lemma BehindAgrees(inputs: seq<Input>, env': iset<nat>)
    requires Named(inputs)
    ensures Agrees(inputs, Behind(inputs, env'), env')
  {
    forall k | 0 <= k < |inputs|
      ensures inputs[k].lit / 2 in env' <==> (inputs[k].v, inputs[k].s) in Behind(inputs, env')
    {
      if j :|
        0 <= j < |inputs| && inputs[j].v == inputs[k].v && inputs[j].s == inputs[k].s && inputs[j].lit / 2 in env'
      {
        assert SameName(inputs[j], inputs[k]);
      }
    }
  }

  /** Values of the inputs for given variables. */
  ghost function InputsOf(inputs: seq<Input>, env: S.Env): iset<nat> {
    iset i: nat | exists k :: 0 <= k < |inputs| && inputs[k].lit == 2 * i && (inputs[k].v, inputs[k].s) in env
  }

  lemma InputsAgree(inputs: seq<Input>, env: S.Env)
    requires Named(inputs)
    ensures Agrees(inputs, env, InputsOf(inputs, env))
  {
    forall k | 0 <= k < |inputs|
      ensures inputs[k].lit / 2 in InputsOf(inputs, env) <==> (inputs[k].v, inputs[k].s) in env
    {
      assert inputs[k].lit == 2 * (inputs[k].lit / 2);
      if j :| 0 <= j < |inputs| && inputs[j].lit == 2 * (inputs[k].lit / 2) && (inputs[j].v, inputs[j].s) in env {
        assert SameName(inputs[j], inputs[k]);
      }
    }
  }

  ghost predicate CanBeTrue(t: Target, defs: Defs)
    requires Acyclic(defs)
  {
    exists env' :: Means(defs, env', t.output)
  }

  ghost predicate NodeCanBeTrue(content: R.Contents, r: R.Ref) {
    exists env: S.Env :: S.Val(content, env, r)
  }

  /** The target is satisfiable exactly if the reference is. */
  lemma RendersSatisfiable(t: Target, defs: Defs, content: R.Contents, r: R.Ref)
    requires Renders(t, defs, content, r)
    ensures CanBeTrue(t, defs) <==> NodeCanBeTrue(content, r)
  {
    hide Means, Describes, Named, Agrees;
    if CanBeTrue(t, defs) {
      var env' :| Means(defs, env', t.output);
      BehindAgrees(t.inputs, env');
      assert S.Val(content, Behind(t.inputs, env'), r);
    }
    if NodeCanBeTrue(content, r) {
      var env: S.Env :| S.Val(content, env, r);
      InputsAgree(t.inputs, env);
      assert Means(defs, InputsOf(t.inputs, env), t.output);
    }
  }
}
