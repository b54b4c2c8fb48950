/** The AIGER library object: circuit, variable types and the cycle check. */
module Aiger {
  import opened Aig
  import opened AigDfs
  import opened Lists
  import opened Recode
  import opened Renumber

  ghost predicate Distinct(frames: seq<Frame>) {
    forall j, k :: 0 <= j < k < |frames| ==> frames[j].v != frames[k].v
  }

  function Spine(frames: seq<Frame>, a: nat): (p: seq<nat>)
    requires a <= |frames|
    ensures |p| == |frames| - a && forall k :: 0 <= k < |p| ==> p[k] == frames[a + k].v
    decreases |frames| - a
  {
    if a == |frames| then [] else [frames[a].v] + Spine(frames, a + 1)
  }

  lemma {:induction false} SpinePath(defs: Defs, frames: seq<Frame>, done: set<nat>, a: nat)
    requires FramesOk(defs, frames, done) && a < |frames|
    ensures Path(defs, Spine(frames, a))
    decreases |frames| - a
  {
    if a + 1 < |frames| {
      SpinePath(defs, frames, done, a + 1);
      assert FrameOk(defs, frames, a, done);
      assert Child(defs, frames[a].v, frames[a + 1].v);
      PathCons(defs, frames[a].v, Spine(frames, a + 1));
    }
  }

  lemma PathCons(defs: Defs, v: nat, p: seq<nat>)
    requires Path(defs, p) && Child(defs, v, p[0])
    ensures Path(defs, [v] + p)
  {
    var q := [v] + p;
    forall i | 0 <= i < |q| - 1 ensures Child(defs, q[i], q[i + 1]) {
      if i > 0 {
        assert Child(defs, p[i - 1], p[i]);
      }
    }
  }

  lemma PathOne(defs: Defs, x: nat)
    ensures Path(defs, [x])
  {
  }

  lemma PathSnoc(defs: Defs, p: seq<nat>, x: nat)
    requires Path(defs, p) && Child(defs, p[|p| - 1], x)
    ensures Path(defs, p + [x])
  {
  }

  /** An opened gate met again below an opened gate closes a cycle. */
  lemma FramesCycle(defs: Defs, frames: seq<Frame>, done: set<nat>, x: nat)
    requires FramesOk(defs, frames, done) && frames != [] && x in Opened(frames)
    requires Child(defs, frames[|frames| - 1].v, x)
    ensures Cyclic(defs)
  {
    hide Child, FramesOk, Path;
    var a :| 0 <= a < |frames| && frames[a].v == x;
    SpinePath(defs, frames, done, a);
    var p := Spine(frames, a);
    PathSnoc(defs, p, x);
    assert (p + [x])[0] == x && (p + [x])[|p|] == x;
  }

  /** The nonzero child variables in the order they are pushed. */
  function Kids(defs: Defs, v: nat): seq<nat>
    requires v in defs
  {
    (if defs[v].0 / 2 != 0 then [defs[v].0 / 2] else []) + (if defs[v].1 / 2 != 0 then [defs[v].1 / 2] else [])
  }

  lemma KidsFresh(defs: Defs, v: nat, done: set<nat>)
    requires v in defs && 0 !in defs && v !in done
    ensures Fresh(defs, v, Kids(defs, v), done)
  {
  }

  /** A finishing order without repetition. */
  ghost predicate Finished(defs: Defs, done: seq<nat>) {
    Topological(defs, done) && forall j, k :: 0 <= j < k < |done| ==> done[j] != done[k]
  }

  lemma FinishedAppend(defs: Defs, done: seq<nat>, v: nat)
    requires Finished(defs, done) && v !in Elems(done) && forall c :: c in defs && Child(defs, v, c) ==>
             c in Elems(done)
    ensures Finished(defs, done + [v]) && Elems(done + [v]) == Elems(done) + {v}
  {
    TopologicalAppend(defs, done, v);
    forall k | 0 <= k < |done| ensures done[k] != v {
      assert done[k] in Elems(done);
    }
  }

  lemma AllFinished(defs: Defs, done: seq<nat>)
    requires Finished(defs, done) && forall v :: v in defs ==> v in done
    ensures Acyclic(defs)
  {
    var rank := TopologicalRanks(defs, done);
  }

  lemma NothingFinished(defs: Defs)
    ensures Finished(defs, []) && FramesOk(defs, [], {}) && Elems([]) == {} && Opened([]) == {}
  {
  }

  lemma RootFrame(defs: Defs, i: nat, done: seq<nat>)
    requires i in defs && 0 !in defs && i !in Elems(done)
    ensures var frames := [Frame(i, Kids(defs, i))];
            FramesOk(defs, frames, Elems(done)) && Opened(frames) == {i} && Distinct(frames) &&
            Flat(frames) == [i, 0] + Kids(defs, i)
  {
    KidsFresh(defs, i, Elems(done));
    OpenRoot(defs, i, Elems(done), Kids(defs, i));
    FlatPush([], Frame(i, Kids(defs, i)));
    assert [] + [Frame(i, Kids(defs, i))] == [Frame(i, Kids(defs, i))];
  }

  lemma FlatEmpty()
    ensures Flat([]) == []
  {
  }

  lemma FlatNonempty(frames: seq<Frame>)
    ensures Flat(frames) == [] <==> frames == []
  {
  }

  lemma DistinctTop(frames: seq<Frame>)
    requires Distinct(frames) && frames != [] && frames[|frames| - 1].pending != []
    ensures Distinct(WithoutTop(frames))
    ensures forall x, kids :: x !in Opened(frames) ==> Distinct(WithoutTop(frames) + [Frame(x, kids)])
  {
    var less := WithoutTop(frames);
    assert forall k :: 0 <= k < |frames| ==> less[k].v == frames[k].v;
    forall x, kids | x !in Opened(frames) ensures Distinct(less + [Frame(x, kids)]) {
      assert forall k :: 0 <= k < |frames| ==> frames[k].v in Opened(frames);
    }
  }

  lemma PendingNonzero(defs: Defs, frames: seq<Frame>, done: set<nat>)
    requires FramesOk(defs, frames, done) && frames != []
    requires var s := Flat(frames); s != [] && s[|s| - 1] == 0
    ensures frames[|frames| - 1].pending == []
  {
    hide Flat, Child;
    var p := frames[|frames| - 1].pending;
    assert FrameOk(defs, frames, |frames| - 1, done);
    assert p != [] ==> p[|p| - 1] in p && p[|p| - 1] != 0;
    FlatTop(frames);
  }

  lemma OpenedNotDone(defs: Defs, frames: seq<Frame>, done: set<nat>)
    requires FramesOk(defs, frames, done)
    ensures Opened(frames) !! done
  {
    forall v | v in Opened(frames) ensures v !in done {
      var k :| 0 <= k < |frames| && frames[k].v == v;
      assert FrameOk(defs, frames, k, done);
    }
  }

  lemma Shrinks(x: set<nat>, y: set<nat>)
    requires y <= x
    ensures y != x ==> |y| < |x|
  {
    assert x == y + (x - y);
  }

  // ----- reencoding -----

  /** An edge from a gate back to an opened one closes a cycle. */
  lemma NoBackEdge(defs: Defs, frames: seq<Frame>, done: set<nat>, x: nat, c: nat)
    requires Acyclic(defs) && FramesOk(defs, frames, done) && Child(defs, x, c)
    requires frames != [] ==> Child(defs, frames[|frames| - 1].v, x)
    ensures c !in Opened(frames) && c != x
  {
    hide Child, FramesOk, Path, Acyclic;
    AcyclicNoCycle(defs);
    if c == x {
      PathOne(defs, x);
      PathSnoc(defs, [x], c);
    } else if c in Opened(frames) {
      var a :| 0 <= a < |frames| && frames[a].v == c;
      SpinePath(defs, frames, done, a);
      var p := Spine(frames, a);
      PathSnoc(defs, p, x);
      PathSnoc(defs, p + [x], c);
    }
  }

  /** The opened gates are reached from the root of the search. */
  lemma FrameReached(defs: Defs, frames: seq<Frame>, done: set<nat>)
    requires FramesOk(defs, frames, done) && frames != []
    ensures Reaches(defs, frames[0].v, frames[|frames| - 1].v)
  {
    SpinePath(defs, frames, done, 0);
  }

  /** The codes of all literals looked up so far, and nothing without need. */
  ghost predicate Explored(defs: Defs, leaves: seq<nat>, order: seq<nat>, roots: seq<nat>) {
    (forall lit :: lit in roots ==> Known(leaves + order, lit)) && forall v :: v in order ==> Needed(defs, roots, v)
  }

  lemma NeededMore(defs: Defs, roots: seq<nat>, more: seq<nat>, v: nat)
    requires Needed(defs, roots, v)
    ensures Needed(defs, roots + more, v)
  {
    var i :| 0 <= i < |roots| && Reaches(defs, roots[i] / 2, v);
    assert (roots + more)[i] == roots[i];
  }

  lemma ExploredLit(defs: Defs, leaves: seq<nat>, order0: seq<nat>, order: seq<nat>, roots: seq<nat>, lit: nat)
    requires Explored(defs, leaves, order0, roots) && order0 <= order && Known(leaves + order, lit)
    requires forall v :: v in order && v !in order0 ==> Reaches(defs, lit / 2, v)
    ensures Explored(defs, leaves, order, roots + [lit])
  {
    forall l | l in roots + [lit] ensures Known(leaves + order, l) {
      assert l in roots || l == lit;
      assert forall x :: x in leaves + order0 ==> x in leaves + order;
    }
    forall v | v in order ensures Needed(defs, roots + [lit], v) {
      if v in order0 {
        NeededMore(defs, roots, [lit], v);
      } else {
        assert (roots + [lit])[|roots|] == lit;
      }
    }
  }

  class Circuit {
    var maxvar: nat
    var inputs: seq<nat>
    var latches: seq<Latch>
    var outputs: seq<nat>
    var bad: seq<nat>
    var constraints: seq<nat>
    var justice: seq<seq<nat>>
    var fairness: seq<nat>
    var ands: seq<And>
    var gate: map<nat, nat>
    var inputOf: map<nat, nat>
    var latchOf: map<nat, nat>
    var mark: set<nat>
    var onstack: set<nat>

    /** Gate types and the AND array agree. */
    ghost predicate Typed()
      reads this`gate, this`ands, this`maxvar
    {
      (forall v :: v in gate ==> 0 < v <= maxvar && gate[v] < |ands| && ands[gate[v]].lhs == 2 * v) &&
      (forall i :: 0 <= i < |ands| ==> ands[i].lhs % 2 == 0 && ands[i].lhs / 2 in gate && gate[ands[i].lhs / 2] == i)
    }

    ghost function Gates(): (defs: Defs)
      requires Typed()
      reads this`gate, this`ands, this`maxvar
      ensures 0 !in defs
    {
      map v | v in gate :: (ands[gate[v]].rhs0, ands[gate[v]].rhs1)
    }

    /** The stack, marks and finishing order of the search of aiger_check_for_cycles. */
    ghost predicate Searching(frames: seq<Frame>, done: seq<nat>, stack: seq<nat>)
      requires Typed()
      reads this`gate, this`ands, this`maxvar, this`mark, this`onstack
    {
      stack == Flat(frames) && FramesOk(Gates(), frames, Elems(done)) && Distinct(frames) &&
      onstack == Opened(frames) && mark == Elems(done) + onstack && mark <= Gates().Keys && Finished(Gates(), done)
    }

    /** aiger_check_for_cycles: a variable on top of the stack. */
    method VisitTop(x: nat, stack0: seq<nat>, ghost frames: seq<Frame>, ghost done: seq<nat>)
      returns (cyclic: bool, stack: seq<nat>, ghost frames': seq<Frame>)
      requires Typed() && Searching(frames, done, stack0 + [x]) && x != 0
      modifies this`mark, this`onstack
      ensures cyclic ==> Cyclic(Gates())
      ensures !cyclic ==> Searching(frames', done, stack)
      ensures old(mark) <= mark
      ensures !cyclic ==> ((x in gate && x in mark && x !in old(mark)) || (mark == old(mark) && stack == stack0))
    {
      hide FramesOk, Flat, Child, Finished;
      ghost var defs := Gates();
      FlatNonempty(frames);
      FlatTop(frames);
      assert (stack0 + [x])[|stack0|] == x && (stack0 + [x])[..|stack0|] == stack0;
      cyclic, stack, frames' := false, stack0, WithoutTop(frames);
      assert frames[|frames| - 1].pending[|frames[|frames| - 1].pending| - 1] == x;
      assert stack0 == Flat(WithoutTop(frames));
      DistinctTop(frames);
      if x in mark && x in onstack {
        PendingChild(defs, frames, Elems(done));
        FramesCycle(defs, frames, Elems(done), x);
        cyclic := true;
      } else if x !in gate || x in mark {
        PopPending(defs, frames, Elems(done));
      } else {
        KidsFresh(defs, x, Elems(done));
        OpenPending(defs, frames, Elems(done), Kids(defs, x));
        FlatPush(WithoutTop(frames), Frame(x, Kids(defs, x)));
        frames' := WithoutTop(frames) + [Frame(x, Kids(defs, x))];
        mark := mark + {x};
        onstack := onstack + {x};
        stack := stack0 + [x, 0] + PushKids(x);
      }
    }

    /** aiger_check_for_cycles: a marker on top of the stack. */
    method CloseGate(stack0: seq<nat>, ghost frames: seq<Frame>, ghost done: seq<nat>)
      returns (stack: seq<nat>, ghost frames': seq<Frame>, ghost done': seq<nat>)
      requires Typed() && Searching(frames, done, stack0 + [0])
      modifies this`onstack
      ensures Searching(frames', done', stack) && |stack| < |stack0|
      ensures Elems(done) <= Elems(done')
    {
      hide FramesOk, Flat, Child;
      ghost var defs, n := Gates(), |frames| - 1;
      FlatNonempty(frames);
      FlatTop(frames);
      assert (stack0 + [0])[|stack0|] == 0;
      PendingNonzero(defs, frames, Elems(done));
      ghost var v := frames[n].v;
      assert stack0 == Flat(frames[..n]) + [v] by {
        assert (stack0 + [0])[..|stack0|] == stack0;
        assert Flat(frames[..n]) + [v, 0] == (Flat(frames[..n]) + [v]) + [0];
        assert ((Flat(frames[..n]) + [v]) + [0])[..|stack0|] == Flat(frames[..n]) + [v];
      }
      var j := stack0[|stack0| - 1];
      stack := stack0[..|stack0| - 1];
      OpenedClose(frames);
      OpenedNotDone(defs, frames, Elems(done));
      CloseTop(defs, frames, Elems(done));
      ClosedChildren(defs, frames, Elems(done));
      FinishedAppend(defs, done, v);
      onstack := onstack - {j};
      frames', done' := frames[..n], done + [v];
    }

    /** aiger_check_for_cycles: an unmarked gate is pushed on the empty stack and visited. */
    method OpenGate(i: nat, ghost done: seq<nat>) returns (stack: seq<nat>, ghost frames: seq<Frame>)
      requires Typed() && i in gate && i !in mark && Searching([], done, [])
      modifies this`mark, this`onstack
      ensures Searching(frames, done, stack) && i in mark
    {
      hide FramesOk, Flat, Child, Finished, Opened, Distinct;
      RootFrame(Gates(), i, done);
      frames := [Frame(i, Kids(Gates(), i))];
      NothingFinished(Gates());
      mark := mark + {i};
      onstack := onstack + {i};
      stack := [i, 0] + PushKids(i);
    }

    lemma SearchEnds(frames: seq<Frame>, done: seq<nat>)
      requires Typed() && Searching(frames, done, [])
      ensures frames == [] && mark == Elems(done)
    {
      FlatNonempty(frames);
    }

    ghost function Unmarked(): nat
      reads this`gate, this`mark
    {
      |gate.Keys - mark|
    }

    /** aiger_check_for_cycles: one round of the inner loop. */
    method SearchStep(stack0: seq<nat>, ghost frames0: seq<Frame>, ghost done0: seq<nat>)
      returns (cyclic: bool, stack: seq<nat>, ghost frames: seq<Frame>, ghost done: seq<nat>)
      requires Typed() && Searching(frames0, done0, stack0) && stack0 != []
      modifies this`mark, this`onstack
      ensures cyclic ==> Cyclic(Gates())
      ensures !cyclic ==> Searching(frames, done, stack) && Elems(done0) <= Elems(done) && old(mark) <= mark
      ensures !cyclic ==> Unmarked() < old(Unmarked()) || (Unmarked() == old(Unmarked()) && |stack| < |stack0|)
    {
      hide Circuit.Searching, Circuit.Typed, Circuit.Gates, Cyclic, Elems;
      var top := |stack0| - 1;
      var j := stack0[top];
      assert stack0 == stack0[..top] + [j];
      cyclic, done := false, done0;
      if j != 0 {
        ghost var before := gate.Keys - mark;
        cyclic, stack, frames := VisitTop(j, stack0[..top], frames0, done0);
        Shrinks(before, gate.Keys - mark);
      } else {
        stack, frames, done := CloseGate(stack0[..top], frames0, done0);
      }
    }

    /** aiger_check_for_cycles: the search from one unmarked gate. */
    method SearchFrom(i: nat, ghost done: seq<nat>) returns (cyclic: bool, ghost done': seq<nat>)
      requires Typed() && i in gate && i !in mark && Searching([], done, [])
      modifies this`mark, this`onstack
      ensures cyclic ==> Cyclic(Gates())
      ensures !cyclic ==> Searching([], done', []) && i in Elems(done') && Elems(done) <= Elems(done')
    {
      hide Circuit.Searching, Circuit.Typed, Circuit.Gates, Cyclic, Elems, Circuit.Unmarked;
      var stack;
      ghost var frames;
      stack, frames := OpenGate(i, done);
      done', cyclic := done, false;
      while stack != []
        invariant Searching(frames, done', stack) && i in mark && Elems(done) <= Elems(done')
        decreases Unmarked(), |stack|
      {
        cyclic, stack, frames, done' := SearchStep(stack, frames, done');
        if cyclic {
          return;
        }
      }
      SearchEnds(frames, done');
    }

    /** aiger_check_for_cycles: an error is raised exactly for cyclic definitions. */
    method CheckForCycles() returns (error: bool)
      requires Typed() && mark == {} && onstack == {}
      modifies this`mark, this`onstack
      ensures error <==> Cyclic(Gates())
      ensures !error <==> Acyclic(Gates())
    {
      hide FramesOk, Flat, Child, Finished;
      ghost var done: seq<nat> := [];
      NothingFinished(Gates());
      FlatEmpty();
      error := false;
      for i := 1 to maxvar + 1
        invariant Searching([], done, []) && forall v :: 0 < v < i && v in gate ==> v in Elems(done)
      {
        if i in gate && i !in mark {
          ghost var before := done;
          error, done := SearchFrom(i, done);
          if error {
            assert !Acyclic(Gates()) by {
              if Acyclic(Gates()) {
                AcyclicNoCycle(Gates());
              }
            }
            return;
          }
          assert forall v :: v in before ==> v in Elems(before);
        }
      }
      assert forall v :: v in Gates() ==> v in done by {
        assert forall v :: v in Elems(done) ==> v in done;
      }
      AllFinished(Gates(), done);
      AcyclicNoCycle(Gates());
    }

    function PushKids(x: nat): seq<nat>
      requires x in gate && gate[x] < |ands|
      reads this`gate, this`ands
    {
      var a := ands[gate[x]];
      (if a.rhs0 / 2 != 0 then [a.rhs0 / 2] else []) + (if a.rhs1 / 2 != 0 then [a.rhs1 / 2] else [])
    }

    /** The types of inputs, latches and gates tell them apart. */
    ghost predicate Leafy(leaves: seq<nat>)
      reads this`gate, this`inputOf, this`latchOf
    {
      (forall v :: v in leaves <==> v in inputOf || v in latchOf) && (forall v :: v in gate ==> v !in leaves)
    }

    /** The stack, code table and closing order of the search of aiger_reencode_lit. */
    ghost predicate Descending(frames: seq<Frame>, stack: seq<nat>, leaves: seq<nat>, order: seq<nat>,
                               code: map<nat, nat>, next: nat)
      requires Typed()
      reads this`gate, this`ands, this`maxvar, this`onstack
    {
      Coding(Gates(), leaves, order, code, next) && stack == Flat(frames) &&
      FramesOk(Gates(), frames, Elems(order)) && Distinct(frames) && onstack == Opened(frames)
    }

    /** aiger_reencode_lit: open a gate and push its children, the smaller one on top. */
    method OpenAnd(v: nat, ghost done: set<nat>, ghost leaves: seq<nat>) returns (kids: seq<nat>)
      requires Typed() && v in gate && v !in done && Leafy(leaves)
      requires forall c :: Child(Gates(), v, c) ==> c !in onstack && c != v
      modifies this`onstack
      ensures onstack == old(onstack) + {v} && Fresh(Gates(), v, kids, done)
    {
      ghost var defs := Gates();
      onstack := onstack + {v};
      var a := ands[gate[v]];
      var child0, child1 := a.rhs0 / 2, a.rhs1 / 2;
      assert forall c :: Child(defs, v, c) <==> c == child0 || c == child1;
      if child0 < child1 {
        child0, child1 := child1, child0;
      }
      kids := [];
      if child0 != 0 && child0 !in inputOf && child0 !in latchOf && child0 !in onstack {
        kids := kids + [child0];
      }
      if child1 != 0 && child1 !in inputOf && child1 !in latchOf && child1 !in onstack {
        kids := kids + [child1];
      }
    }

    /** aiger_reencode_lit: a variable on top of the stack. */
    method VisitAnd(x: nat, stack0: seq<nat>, code: map<nat, nat>, next: nat, ghost frames: seq<Frame>,
                    ghost leaves: seq<nat>, ghost order: seq<nat>)
      returns (stack: seq<nat>, ghost frames': seq<Frame>)
      requires Typed() && Descending(frames, stack0 + [x], leaves, order, code, next) && x != 0
      requires Acyclic(Gates()) && Leafy(leaves) && Closed(Gates(), leaves)
      modifies this`onstack
      ensures Descending(frames', stack, leaves, order, code, next)
      ensures frames != [] && frames' != [] && frames'[0].v == frames[0].v
      ensures (x in gate && x !in order && x !in old(onstack) && onstack == old(onstack) + {x}) ||
              (onstack == old(onstack) && stack == stack0)
    {
      hide FramesOk, Flat, Child, Coding, Acyclic, Fresh, Closed;
      ghost var defs, done := Gates(), Elems(order);
      FlatNonempty(frames);
      FlatTop(frames);
      assert (stack0 + [x])[|stack0|] == x && (stack0 + [x])[..|stack0|] == stack0;
      stack, frames' := stack0, WithoutTop(frames);
      assert frames[|frames| - 1].pending[|frames[|frames| - 1].pending| - 1] == x;
      assert stack0 == Flat(WithoutTop(frames));
      DistinctTop(frames);
      PendingChild(defs, frames, done);
      PendingDefined(defs, leaves, order, code, next, frames[|frames| - 1].v, x);
      if Get(code, 2 * x) != 0 {
        PopPending(defs, frames, done);
      } else {
        forall c | Child(defs, x, c) ensures c !in onstack && c != x {
          NoBackEdge(defs, frames, done, x, c);
        }
        OpenedTopChild(defs, frames, done, x);
        var kids := OpenAnd(x, done, leaves);
        OpenPending(defs, frames, done, kids);
        FlatPush(WithoutTop(frames), Frame(x, kids));
        frames' := WithoutTop(frames) + [Frame(x, kids)];
        stack := stack0 + [x, 0] + kids;
      }
    }

    /** aiger_reencode_lit: a marker on top of the stack; the gate gets the next code. */
    method CloseAnd(stack0: seq<nat>, code0: map<nat, nat>, next0: nat, ghost frames: seq<Frame>,
                    ghost leaves: seq<nat>, ghost order: seq<nat>)
      returns (stack: seq<nat>, code: map<nat, nat>, next: nat, ghost frames': seq<Frame>, ghost order': seq<nat>)
      requires Typed() && Descending(frames, stack0 + [0], leaves, order, code0, next0)
      modifies this`onstack
      ensures Descending(frames', stack, leaves, order', code, next) && |stack| < |stack0|
      ensures frames != [] && onstack == old(onstack) - {frames[|frames| - 1].v} && frames' == frames[..|frames| - 1]
      ensures order' == order + [frames[|frames| - 1].v] && frames[|frames| - 1].v in old(onstack)
      ensures Reaches(Gates(), frames[0].v, frames[|frames| - 1].v)
    {
      hide FramesOk, Flat, Child, Coding, Reaches;
      ghost var defs, n := Gates(), |frames| - 1;
      FlatNonempty(frames);
      FlatTop(frames);
      assert (stack0 + [0])[|stack0|] == 0;
      PendingNonzero(defs, frames, Elems(order));
      ghost var v := frames[n].v;
      assert stack0 == Flat(frames[..n]) + [v] by {
        assert (stack0 + [0])[..|stack0|] == stack0;
        assert Flat(frames[..n]) + [v, 0] == (Flat(frames[..n]) + [v]) + [0];
        assert ((Flat(frames[..n]) + [v]) + [0])[..|stack0|] == Flat(frames[..n]) + [v];
      }
      var closed := stack0[|stack0| - 1];
      stack := stack0[..|stack0| - 1];
      OpenedClose(frames);
      OpenedNotDone(defs, frames, Elems(order));
      FrameReached(defs, frames, Elems(order));
      CloseTop(defs, frames, Elems(order));
      ClosedChildren(defs, frames, Elems(order));
      assert Elems(order + [v]) == Elems(order) + {v};
      CodingGate(defs, leaves, order, v, code0, next0);
      onstack := onstack - {closed};
      code := code0[2 * closed := next0][2 * closed + 1 := next0 + 1];
      next := next0 + 2;
      frames', order' := frames[..n], order + [v];
    }

    /** aiger_reencode_lit: the root gate is pushed and opened. */
    method OpenRootAnd(v: nat, code: map<nat, nat>, next: nat, ghost leaves: seq<nat>, ghost order: seq<nat>)
      returns (stack: seq<nat>, ghost frames: seq<Frame>)
      requires Typed() && v in gate && v !in order && onstack == {} && Coding(Gates(), leaves, order, code, next)
      requires Acyclic(Gates()) && Leafy(leaves)
      modifies this`onstack
      ensures Descending(frames, stack, leaves, order, code, next)
      ensures frames != [] && frames[0].v == v
    {
      hide FramesOk, Flat, Child, Coding, Acyclic, Fresh;
      ghost var defs, done := Gates(), Elems(order);
      forall c | Child(defs, v, c) ensures c !in onstack && c != v {
        NoFrames(defs, done);
        NoBackEdge(defs, [], done, v, c);
      }
      var kids := OpenAnd(v, done, leaves);
      OpenRoot(defs, v, done, kids);
      FlatEmpty();
      FlatPush([], Frame(v, kids));
      frames := [Frame(v, kids)];
      assert [] + [Frame(v, kids)] == frames;
      stack := [v, 0] + kids;
    }

    lemma DescentEnds(frames: seq<Frame>, leaves: seq<nat>, order: seq<nat>, code: map<nat, nat>, next: nat)
      requires Typed() && Descending(frames, [], leaves, order, code, next)
      ensures frames == [] && onstack == {} && Coding(Gates(), leaves, order, code, next)
    {
      FlatNonempty(frames);
    }

    /** aiger_reencode_lit: give a literal and the gates below it their codes. */
    method ReencodeLit(lit: nat, code0: map<nat, nat>, next0: nat, ghost leaves: seq<nat>, ghost order0: seq<nat>)
      returns (res: nat, code: map<nat, nat>, next: nat, ghost order: seq<nat>)
      requires Typed() && onstack == {} && Coding(Gates(), leaves, order0, code0, next0)
      requires Acyclic(Gates()) && Leafy(leaves) && Closed(Gates(), leaves) && DefinedVar(Gates(), leaves, lit / 2)
      modifies this`onstack
      ensures onstack == {} && Coding(Gates(), leaves, order, code, next) && order0 <= order
      ensures res == CodeOf(leaves + order, lit) && Known(leaves + order, lit)
      ensures forall v :: v in order && v !in order0 ==> Reaches(Gates(), lit / 2, v)
    {
      res, code, next, order := lit, code0, next0, order0;
      if lit < 2 {
        return;
      }
      CodingAt(Gates(), leaves, order, code, next, lit);
      res := Get(code, lit);
      if res != 0 {
        return;
      }
      code, next, order := CodeGate(lit / 2, code0, next0, leaves, order0);
      CodingAt(Gates(), leaves, order, code, next, lit);
      res := Get(code, lit);
    }

    /** Gates neither opened nor closed. */
    ghost function Left(order: seq<nat>): nat
      reads this`gate, this`onstack
    {
      |gate.Keys - onstack - Elems(order)|
    }

    /** aiger_reencode_lit: one round of its loop. */
    method Step(stack0: seq<nat>, code0: map<nat, nat>, next0: nat, ghost frames0: seq<Frame>, ghost leaves: seq<nat>,
                ghost order0: seq<nat>)
      returns (stack: seq<nat>, code: map<nat, nat>, next: nat, ghost frames: seq<Frame>, ghost order: seq<nat>)
      requires Typed() && Descending(frames0, stack0, leaves, order0, code0, next0) && stack0 != []
      requires Acyclic(Gates()) && Leafy(leaves) && Closed(Gates(), leaves)
      modifies this`onstack
      ensures Descending(frames, stack, leaves, order, code, next)
      ensures frames0 != [] && (frames != [] ==> frames[0].v == frames0[0].v)
      ensures (order == order0 && frames != []) ||
              (order == order0 + [frames0[|frames0| - 1].v] && frames == frames0[..|frames0| - 1] &&
               Reaches(Gates(), frames0[0].v, frames0[|frames0| - 1].v))
      ensures Left(order) < old(Left(order0)) || (Left(order) == old(Left(order0)) && |stack| < |stack0|)
    {
      hide Circuit.Descending, Coding, Acyclic, Closed, Circuit.Leafy, Reaches, Circuit.Typed, Circuit.Gates, Elems;
      var top := |stack0| - 1;
      var j := stack0[top];
      assert stack0 == stack0[..top] + [j];
      ghost var open0 := onstack;
      code, next, order := code0, next0, order0;
      if j != 0 {
        LeftDrops(gate.Keys, open0, order0, j);
        stack, frames := VisitAnd(j, stack0[..top], code0, next0, frames0, leaves, order0);
      } else {
        stack, code, next, frames, order := CloseAnd(stack0[..top], code0, next0, frames0, leaves, order0);
        LeftSame(gate.Keys, open0, order0, frames0[|frames0| - 1].v);
      }
    }

    method CodeGate(root: nat, code0: map<nat, nat>, next0: nat, ghost leaves: seq<nat>, ghost order0: seq<nat>)
      returns (code: map<nat, nat>, next: nat, ghost order: seq<nat>)
      requires Typed() && onstack == {} && Coding(Gates(), leaves, order0, code0, next0)
      requires Acyclic(Gates()) && Leafy(leaves) && Closed(Gates(), leaves) && root in gate && root !in order0
      modifies this`onstack
      ensures onstack == {} && Coding(Gates(), leaves, order, code, next) && order0 <= order && root in order
      ensures forall v :: v in order && v !in order0 ==> Reaches(Gates(), root, v)
    {
      hide Circuit.Descending, Coding, Acyclic, Closed, Circuit.Leafy, Reaches, Circuit.Left, Circuit.Typed,
        Circuit.Gates;
      code, next, order := code0, next0, order0;
      var stack;
      ghost var frames;
      stack, frames := OpenRootAnd(root, code, next, leaves, order);
      while stack != []
        invariant Descending(frames, stack, leaves, order, code, next) && order0 <= order
        invariant if frames == [] then root in order else frames[0].v == root
        invariant forall v :: v in order && v !in order0 ==> Reaches(Gates(), root, v)
        decreases Left(order), |stack|
      {
        stack, code, next, frames, order := Step(stack, code, next, frames, leaves, order);
      }
      DescentEnds(frames, leaves, order, code, next);
    }

    ghost function Snapshot(): Net
      reads this
    {
      Net(inputs, latches, outputs, bad, constraints, justice, fairness)
    }

    /** Types and symbol arrays agree. */
    ghost predicate TypesAgree()
      reads this`inputs, this`latches, this`inputOf, this`latchOf
    {
      (forall v :: v in inputOf ==> inputOf[v] < |inputs| && inputs[inputOf[v]] == 2 * v) &&
      (forall i :: 0 <= i < |inputs| ==> inputs[i] / 2 in inputOf && inputOf[inputs[i] / 2] == i) &&
      (forall v :: v in latchOf ==> latchOf[v] < |latches| && latches[latchOf[v]].lit == 2 * v) &&
      (forall i :: 0 <= i < |latches| ==> latches[i].lit / 2 in latchOf && latchOf[latches[i].lit / 2] == i)
    }

    /** What the construction interface and aiger_check guarantee. */
    ghost predicate Checked()
      reads this
    {
      Typed() && TypesAgree() && onstack == {} && WellFormed(Gates(), Snapshot()) &&
      forall v :: v in LeafVars(inputs, latches) ==> v <= maxvar
    }

    /** aiger_max_input_or_latch */
    method MaxInputOrLatch() returns (res: nat)
      ensures forall i :: 0 <= i < |inputs| ==> inputs[i] <= res
      ensures forall i :: 0 <= i < |latches| ==> latches[i].lit <= res
      ensures res == 0 || res in inputs || exists i :: 0 <= i < |latches| && latches[i].lit == res
    {
      res := 0;
      for i := 0 to |inputs|
        invariant forall k :: 0 <= k < i ==> inputs[k] <= res
        invariant res == 0 || res in inputs
      {
        if inputs[i] > res {
          res := inputs[i];
        }
      }
      for i := 0 to |latches|
        invariant forall k :: 0 <= k < |inputs| ==> inputs[k] <= res
        invariant forall k :: 0 <= k < i ==> latches[k].lit <= res
        invariant res == 0 || res in inputs || exists k :: 0 <= k < |latches| && latches[k].lit == res
      {
        if latches[i].lit > res {
          res := latches[i].lit;
        }
      }
    }

    /** aiger_is_reencoded */
    method IsReencoded() returns (yes: bool)
      ensures yes <==> InOrder(inputs, latches, ands)
    {
      yes := false;
      var max := 0;
      for i := 0 to |inputs|
        invariant max == 2 * i && forall k :: 0 <= k < i ==> inputs[k] == 2 * (k + 1)
      {
        max := max + 2;
        if max != inputs[i] {
          return;
        }
      }
      for i := 0 to |latches|
        invariant max == 2 * (|inputs| + i) && forall k :: 0 <= k < i ==> latches[k].lit == 2 * (|inputs| + k + 1)
      {
        max := max + 2;
        if max != latches[i].lit {
          return;
        }
      }
      var top := MaxInputOrLatch();
      assert top == max by {
        assert |latches| > 0 ==> latches[|latches| - 1].lit == max;
        assert |inputs| > 0 && |latches| == 0 ==> inputs[|inputs| - 1] == max;
      }
      var lhs := top + 2;
      for i := 0 to |ands|
        invariant lhs == max + 2 + 2 * i
        invariant forall k :: 0 <= k < i ==>
                  ands[k].lhs == max + 2 + 2 * k && ands[k].lhs >= ands[k].rhs0 >= ands[k].rhs1
      {
        var a := ands[i];
        if a.lhs <= max || a.lhs != lhs || a.lhs < a.rhs0 || a.rhs0 < a.rhs1 {
          return;
        }
        lhs := lhs + 2;
      }
      yes := true;
    }

    /** Between two lookups of the reencoding. */
    ghost predicate Reencoding(leaves: seq<nat>, order: seq<nat>, code: map<nat, nat>, next: nat, roots: seq<nat>)
      reads this`gate, this`ands, this`maxvar, this`onstack, this`inputOf, this`latchOf
    {
      Typed() && onstack == {} && Coding(Gates(), leaves, order, code, next) && Acyclic(Gates()) && Leafy(leaves) &&
      Closed(Gates(), leaves) && Explored(Gates(), leaves, order, roots)
    }

    /** One call of aiger_reencode_lit. */
    method Lookup(lit: nat, code0: map<nat, nat>, next0: nat, ghost leaves: seq<nat>, ghost order0: seq<nat>,
                  ghost roots: seq<nat>)
      returns (res: nat, code: map<nat, nat>, next: nat, ghost order: seq<nat>)
      requires Reencoding(leaves, order0, code0, next0, roots) && DefinedVar(Gates(), leaves, lit / 2)
      modifies this`onstack
      ensures Reencoding(leaves, order, code, next, roots + [lit]) && order0 <= order
      ensures res == CodeOf(leaves + order, lit) && NoDup(leaves + order)
    {
      hide Coding, Acyclic, Closed, Explored, Circuit.Leafy, Reaches, CodeOf;
      res, code, next, order := ReencodeLit(lit, code0, next0, leaves, order0);
      ExploredLit(Gates(), leaves, order0, order, roots, lit);
      CodingNoDup(Gates(), leaves, order, code, next);
    }

    lemma ReencodingKnows(leaves: seq<nat>, order: seq<nat>, code: map<nat, nat>, next: nat, roots: seq<nat>)
      requires Reencoding(leaves, order, code, next, roots)
      ensures AllKnown(leaves + order, roots) && NoDup(leaves + order)
    {
      hide Circuit.Typed, Circuit.Gates, Acyclic, Closed, Needed, Topological;
    }

    /** aiger_reencode: a list of literals. */
    method ReencodeList(lits: seq<nat>, code0: map<nat, nat>, next0: nat, ghost leaves: seq<nat>,
                        ghost order0: seq<nat>, ghost roots: seq<nat>)
      returns (out: seq<nat>, code: map<nat, nat>, next: nat, ghost order: seq<nat>)
      requires Reencoding(leaves, order0, code0, next0, roots) && AllDefined(Gates(), leaves, lits)
      modifies this`onstack
      ensures Reencoding(leaves, order, code, next, roots + lits) && order0 <= order
      ensures out == CodedLits(leaves + order, lits)
    {
      hide Circuit.Reencoding, CodeOf, Circuit.Gates, AllKnown, Circuit.Typed, DefinedVar;
      out, code, next, order := [], code0, next0, order0;
      assert roots + lits[..0] == roots;
      for i := 0 to |lits|
        invariant Reencoding(leaves, order, code, next, roots + lits[..i]) && order0 <= order
        invariant out == CodedLits(leaves + order, lits[..i])
      {
        ghost var order1 := order;
        var res;
        assert lits[i] in lits;
        ReencodingKnows(leaves, order, code, next, roots + lits[..i]);
        res, code, next, order := Lookup(lits[i], code, next, leaves, order, roots + lits[..i]);
        KnownPart(leaves + order1, roots, lits[..i]);
        CodedGrows(leaves, order1, order, lits[..i]);
        out := out + [res];
        assert lits[..i + 1] == lits[..i] + [lits[i]];
        assert roots + lits[..i + 1] == roots + lits[..i] + [lits[i]];
      }
      assert lits[..|lits|] == lits;
    }

    /** aiger_reencode: the next and reset literals of one latch. */
    method ReencodeLatch(l: Latch, code0: map<nat, nat>, next0: nat, ghost leaves: seq<nat>, ghost order0: seq<nat>,
                         ghost roots: seq<nat>)
      returns (l': Latch, code: map<nat, nat>, next: nat, ghost order: seq<nat>)
      requires Reencoding(leaves, order0, code0, next0, roots)
      requires DefinedVar(Gates(), leaves, l.next / 2) && DefinedVar(Gates(), leaves, l.reset / 2)
      modifies this`onstack
      ensures Reencoding(leaves, order, code, next, roots + [l.next, l.reset]) && order0 <= order
      ensures l' == Latch(l.lit, CodeOf(leaves + order, l.next), CodeOf(leaves + order, l.reset))
    {
      hide Circuit.Reencoding, CodeOf, Circuit.Gates, AllKnown, Circuit.Typed, DefinedVar;
      ghost var order1;
      var res0, res1;
      res0, code, next, order1 := Lookup(l.next, code0, next0, leaves, order0, roots);
      ReencodingKnows(leaves, order1, code, next, roots + [l.next]);
      KnownPart(leaves + order1, roots, [l.next]);
      res1, code, next, order := Lookup(l.reset, code, next, leaves, order1, roots + [l.next]);
      CodedGrows(leaves, order1, order, [l.next]);
      assert CodedLits(leaves + order, [l.next])[0] == CodedLits(leaves + order1, [l.next])[0];
      l' := Latch(l.lit, res0, res1);
      assert roots + [l.next] + [l.reset] == roots + [l.next, l.reset];
    }

    method ReencodeLatchAt(i: nat, code0: map<nat, nat>, next0: nat, ghost leaves: seq<nat>, ghost order0: seq<nat>,
                           ghost roots: seq<nat>, ghost before: seq<Latch>)
      returns (code: map<nat, nat>, next: nat, ghost order: seq<nat>)
      requires i < |latches| == |before| && latches[i..] == before[i..]
      requires Reencoding(leaves, order0, code0, next0, roots + LatchRoots(before[..i]))
      requires AllDefined(Gates(), leaves, LatchRoots(before))
      requires latches[..i] == NextCoded(leaves + order0, before[..i])
      modifies this`onstack, this`latches
      ensures |latches| == |before| && latches[i + 1..] == before[i + 1..] && order0 <= order
      ensures Reencoding(leaves, order, code, next, roots + LatchRoots(before[..i + 1]))
      ensures latches[..i + 1] == NextCoded(leaves + order, before[..i + 1])
    {
      ghost var defs := Gates();
      hide *;
      LatchDefined(defs, leaves, before, i);
      ghost var latches1 := latches;
      var l;
      assert latches[i] == before[i..][0];
      ReencodingKnows(leaves, order0, code0, next0, roots + LatchRoots(before[..i]));
      l, code, next, order := ReencodeLatch(latches[i], code0, next0, leaves, order0, roots + LatchRoots(before[..i]));
      latches := latches[i := l];
      ReencodingOrdered(leaves, order, code, next, roots + LatchRoots(before[..i]) + [before[i].next, before[i].reset]);
      KnownPart(leaves + order0, roots, LatchRoots(before[..i]));
      LatchCoded(leaves, order0, order, roots, before, latches1, i, l);
    }

    method ReencodeLatches(code0: map<nat, nat>, next0: nat, ghost leaves: seq<nat>, ghost order0: seq<nat>,
                           ghost roots: seq<nat>)
      returns (code: map<nat, nat>, next: nat, ghost order: seq<nat>)
      requires Reencoding(leaves, order0, code0, next0, roots) && AllDefined(Gates(), leaves, LatchRoots(latches))
      modifies this`onstack, this`latches
      ensures Reencoding(leaves, order, code, next, roots + LatchRoots(old(latches))) && order0 <= order
      ensures latches == NextCoded(leaves + order, old(latches))
    {
      ghost var before := latches;
      assert roots + LatchRoots(before[..0]) == roots;
      hide *;
      code, next, order := code0, next0, order0;
      for i := 0 to |latches|
        invariant |latches| == |before| && latches[i..] == before[i..] && order0 <= order
        invariant Reencoding(leaves, order, code, next, roots + LatchRoots(before[..i]))
        invariant latches[..i] == NextCoded(leaves + order, before[..i])
      {
        code, next, order := ReencodeLatchAt(i, code, next, leaves, order, roots, before);
      }
      assert before[..|before|] == before && latches[..|before|] == latches;
    }

    lemma ReencodingOrdered(leaves: seq<nat>, order: seq<nat>, code: map<nat, nat>, next: nat, roots: seq<nat>)
      requires Reencoding(leaves, order, code, next, roots)
      ensures NoDup(leaves + order)
    {
      CodingNoDup(Gates(), leaves, order, code, next);
    }

    /** aiger_reencode: justice property i. */
    method ReencodeJusticeAt(i: nat, code0: map<nat, nat>, next0: nat, ghost leaves: seq<nat>, ghost order0: seq<nat>,
                             ghost roots: seq<nat>, ghost before: seq<seq<nat>>)
      returns (code: map<nat, nat>, next: nat, ghost order: seq<nat>)
      requires i < |justice| == |before| && justice[i..] == before[i..]
      requires Reencoding(leaves, order0, code0, next0, roots + Join(before[..i])) &&
               AllDefined(Gates(), leaves, before[i])
      requires justice[..i] == CodedLists(leaves + order0, before[..i])
      modifies this`onstack, this`justice
      ensures |justice| == |before| && justice[i + 1..] == before[i + 1..] && order0 <= order
      ensures Reencoding(leaves, order, code, next, roots + Join(before[..i + 1]))
      ensures justice[..i + 1] == CodedLists(leaves + order, before[..i + 1])
    {
      hide *;
      ghost var justice1 := justice;
      var list;
      assert justice[i] == before[i..][0];
      ReencodingKnows(leaves, order0, code0, next0, roots + Join(before[..i]));
      list, code, next, order := ReencodeList(justice[i], code0, next0, leaves, order0, roots + Join(before[..i]));
      justice := justice[i := list];
      ReencodingOrdered(leaves, order, code, next, roots + Join(before[..i]) + before[i]);
      KnownPart(leaves + order0, roots, Join(before[..i]));
      ListsGrow(leaves, order0, order, before[..i]);
      Splice(before, justice1, i, list);
      ListsCodedStep(leaves + order, before[..i], before[i]);
      assert roots + Join(before[..i + 1]) == roots + Join(before[..i]) + before[i];
    }

    /** aiger_reencode: all justice properties. */
    method ReencodeJustice(code0: map<nat, nat>, next0: nat, ghost leaves: seq<nat>, ghost order0: seq<nat>,
                           ghost roots: seq<nat>)
      returns (code: map<nat, nat>, next: nat, ghost order: seq<nat>)
      requires Reencoding(leaves, order0, code0, next0, roots) && AllDefined(Gates(), leaves, Join(justice))
      modifies this`onstack, this`justice
      ensures Reencoding(leaves, order, code, next, roots + Join(old(justice))) && order0 <= order
      ensures justice == CodedLists(leaves + order, old(justice))
    {
      ghost var defs, before := Gates(), justice;
      assert roots + Join(before[..0]) == roots;
      hide *;
      code, next, order := code0, next0, order0;
      for i := 0 to |justice|
        invariant |justice| == |before| && justice[i..] == before[i..] && order0 <= order
        invariant Reencoding(leaves, order, code, next, roots + Join(before[..i]))
        invariant justice[..i] == CodedLists(leaves + order, before[..i])
      {
        JoinPart(defs, leaves, before, i);
        code, next, order := ReencodeJusticeAt(i, code, next, leaves, order, roots, before);
      }
      assert before[..|before|] == before && justice[..|before|] == justice;
    }

    /** aiger_reencode: inputs and latches take the first codes. */
    method CodeLeaves(ghost defs: Defs, ghost net: Net) returns (code: map<nat, nat>, next: nat)
      requires WellFormed(defs, net) && net.inputs == inputs && net.latches == latches
      ensures Coding(defs, LeafVars(inputs, latches), [], code, next)
    {
      hide *;
      ghost var leaves := LeafVars(inputs, latches);
      CodingStart(defs);
      assert leaves[..0] == [];
      code, next := CodeInputs(map[1 := 1], 2, defs, net);
      code, next := CodeLatches(code, next, defs, net);
      assert leaves[..|leaves|] == leaves;
    }

    method CodeInputs(code0: map<nat, nat>, next0: nat, ghost defs: Defs, ghost net: Net)
      returns (code: map<nat, nat>, next: nat)
      requires WellFormed(defs, net) && net.inputs == inputs
      requires Coding(defs, LeafVars(net.inputs, net.latches)[..0], [], code0, next0)
      ensures Coding(defs, LeafVars(net.inputs, net.latches)[..|inputs|], [], code, next)
    {
      hide *;
      code, next := code0, next0;
      for i := 0 to |inputs|
        invariant Coding(defs, LeafVars(net.inputs, net.latches)[..i], [], code, next)
      {
        CodeLeaf(defs, net, i, inputs[i], code, next);
        code := code[inputs[i] := next][inputs[i] + 1 := next + 1];
        next := next + 2;
      }
    }

    method CodeLatches(code0: map<nat, nat>, next0: nat, ghost defs: Defs, ghost net: Net)
      returns (code: map<nat, nat>, next: nat)
      requires WellFormed(defs, net) && net.latches == latches
      requires Coding(defs, LeafVars(net.inputs, net.latches)[..|net.inputs|], [], code0, next0)
      ensures Coding(defs, LeafVars(net.inputs, net.latches)[..|net.inputs| + |latches|], [], code, next)
    {
      hide *;
      code, next := code0, next0;
      for i := 0 to |latches|
        invariant Coding(defs, LeafVars(net.inputs, net.latches)[..|net.inputs| + i], [], code, next)
      {
        var lit := latches[i].lit;
        CodeLeaf(defs, net, |net.inputs| + i, lit, code, next);
        code := code[lit := next][lit + 1 := next + 1];
        next := next + 2;
      }
    }

    /** aiger_reencode: move the coded gates to the front of the array. */
    method CompactAnds(code: map<nat, nat>)
      modifies this`ands
      ensures ands == Compact(old(ands), code)
    {
      hide RecodedAnd;
      ghost var before := ands;
      var j: nat := 0;
      for i := 0 to |ands|
        invariant j <= i && |ands| == |before| && ands[i..] == before[i..] && ands[..j] == Compact(before[..i], code)
      {
        assert before[..i + 1][..i] == before[..i] && ands[i] == before[i];
        var a := ands[i];
        var lhs := Get(code, a.lhs);
        if lhs == 0 {
          continue;
        }
        var rhs0, rhs1 := Get(code, a.rhs0), Get(code, a.rhs1);
        if rhs0 < rhs1 {
          rhs0, rhs1 := rhs1, rhs0;
        }
        RecodedIs(a, code, lhs, rhs0, rhs1);
        ghost var now := ands;
        ands := ands[j := And(lhs, rhs0, rhs1)];
        assert ands[..j + 1] == now[..j] + [ands[j]] && ands[i + 1..] == now[i..][1..] &&
          before[i + 1..] == before[i..][1..];
        j := j + 1;
      }
      assert before[..|before|] == before;
      ands := ands[..j];
    }

    /** aiger_reencode: types for the gates only. */
    method RetypeAnds(ghost n: nat)
      requires forall i :: 0 <= i < |ands| ==> ands[i].lhs == 2 * (n + i + 1)
      modifies this`gate, this`inputOf, this`latchOf
      ensures inputOf == map[] && latchOf == map[]
      ensures forall v :: (v in gate <==> n < v <= n + |ands|) && (v in gate ==> gate[v] == v - n - 1)
    {
      gate, inputOf, latchOf := map[], map[], map[];
      for i := 0 to |ands|
        invariant inputOf == map[] && latchOf == map[]
        invariant forall v :: (v in gate <==> n < v <= n + i) && (v in gate ==> gate[v] == v - n - 1)
      {
        gate := gate[ands[i].lhs / 2 := i];
      }
    }

    /** aiger_reencode: inputs and latches get their codes and types. */
    method RetypeInputs(code: map<nat, nat>, ghost vars: seq<nat>)
      requires Tabled(vars, code) && inputOf == map[]
      requires forall i :: 0 <= i < |inputs| ==> CodeOf(vars, inputs[i]) == 2 * (i + 1)
      modifies this`inputs, this`inputOf
      ensures inputs == CodedLits(vars, old(inputs))
      ensures forall v :: (v in inputOf <==> 0 < v <= |inputs|) && (v in inputOf ==> inputOf[v] == v - 1)
    {
      hide CodeOf;
      ghost var before := inputs;
      for i := 0 to |inputs|
        invariant |inputs| == |before| && forall k :: i <= k < |inputs| ==> inputs[k] == before[k]
        invariant forall k :: 0 <= k < i ==> inputs[k] == CodeOf(vars, before[k])
        invariant forall v :: (v in inputOf <==> 0 < v <= i) && (v in inputOf ==> inputOf[v] == v - 1)
      {
        assert Get(code, inputs[i]) == CodeOf(vars, before[i]);
        inputs := inputs[i := Get(code, inputs[i])];
        inputOf := inputOf[inputs[i] / 2 := i];
      }
    }

    method RetypeLatches(code: map<nat, nat>, ghost vars: seq<nat>, ghost n: nat)
      requires Tabled(vars, code) && latchOf == map[]
      requires forall i :: 0 <= i < |latches| ==> CodeOf(vars, latches[i].lit) == 2 * (n + i + 1)
      modifies this`latches, this`latchOf
      ensures latches == LitCoded(vars, old(latches))
      ensures forall v :: (v in latchOf <==> n < v <= n + |latches|) && (v in latchOf ==> latchOf[v] == v - n - 1)
    {
      hide CodeOf;
      ghost var before := latches;
      for i := 0 to |latches|
        invariant |latches| == |before| && forall k :: i <= k < |latches| ==> latches[k] == before[k]
        invariant forall k :: 0 <= k < i ==>
                    latches[k] == Latch(CodeOf(vars, before[k].lit), before[k].next, before[k].reset)
        invariant forall v :: (v in latchOf <==> n < v <= n + i) && (v in latchOf ==> latchOf[v] == v - n - 1)
      {
        assert Get(code, latches[i].lit) == CodeOf(vars, before[i].lit);
        latches := latches[i := latches[i].(lit := Get(code, latches[i].lit))];
        latchOf := latchOf[latches[i].lit / 2 := i];
      }
    }

    /** aiger_reencode: latches, outputs and bad states. */
    method ReencodeFirst(code0: map<nat, nat>, next0: nat, ghost leaves: seq<nat>)
      returns (code: map<nat, nat>, next: nat, ghost order: seq<nat>)
      requires Reencoding(leaves, [], code0, next0, []) && AllDefined(Gates(), leaves, LatchRoots(latches))
      requires AllDefined(Gates(), leaves, outputs) && AllDefined(Gates(), leaves, bad)
      modifies this`onstack, this`latches, this`outputs, this`bad
      ensures Reencoding(leaves, order, code, next, LatchRoots(old(latches)) + old(outputs) + old(bad))
      ensures latches == NextCoded(leaves + order, old(latches)) && outputs == CodedLits(leaves + order, old(outputs))
      ensures bad == CodedLits(leaves + order, old(bad))
    {
      hide *;
      ghost var r0 := LatchRoots(latches);
      ghost var r1 := r0 + outputs;
      ghost var o0, o1;
      assert [] + r0 == r0;
      code, next, o0 := ReencodeLatches(code0, next0, leaves, [], []);
      ReencodingKnows(leaves, o0, code, next, r0);
      outputs, code, next, o1 := ReencodeList(outputs, code, next, leaves, o0, r0);
      ReencodingKnows(leaves, o1, code, next, r1);
      bad, code, next, order := ReencodeList(bad, code, next, leaves, o1, r1);
      ReencodingOrdered(leaves, order, code, next, r1 + old(bad));
      KnownPart(leaves + o1, r0, old(outputs));
      LatchesGrow(leaves, o0, order, old(latches));
      CodedGrows(leaves, o1, order, old(outputs));
    }

    /** aiger_reencode: constraints, justice and fairness. */
    method ReencodeSecond(code0: map<nat, nat>, next0: nat, ghost leaves: seq<nat>, ghost order0: seq<nat>,
                          ghost roots: seq<nat>)
      returns (code: map<nat, nat>, next: nat, ghost order: seq<nat>)
      requires Reencoding(leaves, order0, code0, next0, roots) && AllDefined(Gates(), leaves, constraints)
      requires AllDefined(Gates(), leaves, Join(justice)) && AllDefined(Gates(), leaves, fairness)
      modifies this`onstack, this`constraints, this`justice, this`fairness
      ensures Reencoding(leaves, order, code, next, roots + old(constraints) + Join(old(justice)) + old(fairness))
      ensures order0 <= order && constraints == CodedLits(leaves + order, old(constraints))
      ensures justice == CodedLists(leaves + order, old(justice)) &&
              fairness == CodedLits(leaves + order, old(fairness))
    {
      hide *;
      ghost var r1 := roots + constraints;
      ghost var r2 := r1 + Join(justice);
      ghost var o1, o2;
      constraints, code, next, o1 := ReencodeList(constraints, code0, next0, leaves, order0, roots);
      ReencodingKnows(leaves, o1, code, next, r1);
      code, next, o2 := ReencodeJustice(code, next, leaves, o1, r1);
      ReencodingKnows(leaves, o2, code, next, r2);
      fairness, code, next, order := ReencodeList(fairness, code, next, leaves, o2, r2);
      ReencodingOrdered(leaves, order, code, next, r2 + old(fairness));
      KnownPart(leaves + o1, roots, old(constraints));
      KnownPart(leaves + o2, r1, Join(old(justice)));
      CodedGrows(leaves, o1, order, old(constraints));
      ListsGrow(leaves, o2, order, old(justice));
    }

    /** aiger_reencode: every root literal is looked up. */
    method ReencodeRoots(code0: map<nat, nat>, next0: nat, ghost leaves: seq<nat>)
      returns (code: map<nat, nat>, next: nat, ghost order: seq<nat>)
      requires Reencoding(leaves, [], code0, next0, []) && AllDefined(Gates(), leaves, Roots(Snapshot()))
      modifies this`onstack, this`latches, this`outputs, this`bad, this`constraints, this`justice, this`fairness
      ensures Reencoding(leaves, order, code, next, Roots(old(Snapshot())))
      ensures latches == NextCoded(leaves + order, old(latches)) && outputs == CodedLits(leaves + order, old(outputs))
      ensures bad == CodedLits(leaves + order, old(bad)) && constraints == CodedLits(leaves + order, old(constraints))
      ensures justice == CodedLists(leaves + order, old(justice)) &&
              fairness == CodedLits(leaves + order, old(fairness))
    {
      ghost var net := Snapshot();
      RootsParts(Gates(), leaves, net);
      hide *;
      ghost var r0 := LatchRoots(net.latches);
      ghost var r1 := r0 + net.outputs + net.bad;
      ghost var o1;
      code, next, o1 := ReencodeFirst(code0, next0, leaves);
      ReencodingKnows(leaves, o1, code, next, r1);
      code, next, order := ReencodeSecond(code, next, leaves, o1, r1);
      RootsAre(net);
      ReencodingOrdered(leaves, order, code, next, Roots(net));
      KnownPart(leaves + o1, r0 + net.outputs, net.bad);
      KnownPart(leaves + o1, r0, net.outputs);
      LatchesGrow(leaves, o1, order, net.latches);
      CodedGrows(leaves, o1, order, net.outputs);
      CodedGrows(leaves, o1, order, net.bad);
    }

    lemma TypedDescribes()
      requires Typed()
      ensures Describes(ands, Gates())
    {
      forall v | v in Gates() ensures Recode.Listed(ands, v) {
        assert ands[gate[v]].lhs == 2 * v;
      }
    }

    /** The type flags list the inputs and latches. */
    lemma LeavesKnown()
      requires TypesAgree()
      ensures forall v: nat :: v in LeafVars(inputs, latches) <==> v in inputOf || v in latchOf
    {
      var leaves := LeafVars(inputs, latches);
      forall v: nat | v in leaves ensures v in inputOf || v in latchOf {
        var i :| 0 <= i < |leaves| && leaves[i] == v;
        assert i >= |inputs| ==> leaves[|inputs| + (i - |inputs|)] == v;
      }
      forall v: nat | v in inputOf || v in latchOf ensures v in leaves {
        if v in inputOf {
          assert leaves[inputOf[v]] == v;
        } else {
          assert leaves[|inputs| + latchOf[v]] == v;
        }
      }
    }

    lemma LeavesApart()
      requires Checked()
      ensures TypesAgree() && forall v :: v in LeafVars(inputs, latches) ==> v <= maxvar && v !in gate
    {
      hide Acyclic, Closed, AllDefined, Roots, NoDup, LeafVars, Circuit.TypesAgree;
      assert forall v :: v in gate ==> v in Gates();
    }

    lemma LeavesTyped()
      requires Checked()
      ensures Leafy(LeafVars(inputs, latches))
    {
      LeavesApart();
      LeavesKnown();
      hide LeafVars, WellFormed, Circuit.TypesAgree, Circuit.Typed, Circuit.Gates;
    }

    lemma StartReencoding(code: map<nat, nat>, next: nat)
      requires Checked() && Coding(Gates(), LeafVars(inputs, latches), [], code, next)
      ensures Reencoding(LeafVars(inputs, latches), [], code, next, []) &&
              AllDefined(Gates(), LeafVars(inputs, latches), Roots(Snapshot()))
    {
      LeavesTyped();
      hide LeafVars, Roots, Coding, Closed, Acyclic, AllDefined, NoDup, Explored, Circuit.Leafy, Circuit.Typed,
        Circuit.TypesAgree;
      NothingExplored(Gates(), LeafVars(inputs, latches));
    }

    /** aiger_reencode: the AND section and the highest variable. */
    method RebuildAnds(code: map<nat, nat>, next: nat, ghost leaves: seq<nat>, ghost order: seq<nat>,
                       ghost roots: seq<nat>)
      requires Reencoding(leaves, order, code, next, roots) && GatesFrom(Gates(), |leaves|, leaves + order)
      modifies this`ands, this`maxvar
      ensures ands == Section(old(Gates()), |leaves|, leaves + order) && maxvar == |leaves| + |order|
    {
      TypedDescribes();
      ghost var defs := Gates();
      CodingParts(defs, leaves, order, code, next);
      hide *;
      SectionOf(ands, defs, leaves, order, code);
      CompactAnds(code);
      ands := Sort(ands);
      maxvar := (next - 1) / 2;
    }

    /** aiger_reencode: all types are set anew. */
    method Retype(code: map<nat, nat>, ghost vars: seq<nat>, ghost n: nat)
      requires Tabled(vars, code) && n == |inputs| + |latches|
      requires forall i :: 0 <= i < |ands| ==> ands[i].lhs == 2 * (n + i + 1)
      requires forall i :: 0 <= i < |inputs| ==> CodeOf(vars, inputs[i]) == 2 * (i + 1)
      requires forall i :: 0 <= i < |latches| ==> CodeOf(vars, latches[i].lit) == 2 * (|inputs| + i + 1)
      modifies this`gate, this`inputOf, this`latchOf, this`inputs, this`latches
      ensures inputs == CodedLits(vars, old(inputs)) && latches == LitCoded(vars, old(latches))
      ensures forall v :: (v in inputOf <==> 0 < v <= |inputs|) && (v in inputOf ==> inputOf[v] == v - 1)
      ensures forall v :: (v in latchOf <==> |inputs| < v <= n) && (v in latchOf ==> latchOf[v] == v - |inputs| - 1)
      ensures forall v :: (v in gate <==> n < v <= n + |ands|) && (v in gate ==> gate[v] == v - n - 1)
    {
      hide *;
      RetypeAnds(n);
      RetypeInputs(code, vars);
      RetypeLatches(code, vars, |inputs|);
    }

    lemma CheckedParts()
      requires Checked()
      ensures Typed() && onstack == {} && WellFormed(Gates(), Snapshot())
    {
    }

    lemma SnapshotRecoded(vars: seq<nat>, net: Net, latches1: seq<Latch>)
      requires latches1 == NextCoded(vars, net.latches)
      requires inputs == CodedLits(vars, net.inputs) && latches == LitCoded(vars, latches1)
      requires outputs == CodedLits(vars, net.outputs) && bad == CodedLits(vars, net.bad)
      requires constraints == CodedLits(vars, net.constraints) && justice == CodedLists(vars, net.justice)
      requires fairness == CodedLits(vars, net.fairness)
      ensures Snapshot() == RecodedNet(vars, net)
    {
    }

    lemma ReencodingRewrites(net: Net, order: seq<nat>, code: map<nat, nat>, next: nat)
      requires Reencoding(LeafVars(net.inputs, net.latches), order, code, next, Roots(net)) && WellFormed(Gates(), net)
      ensures onstack == {}
      ensures var vars := LeafVars(net.inputs, net.latches) + order;
              Rewriting(Gates(), net, vars) && Tabled(vars, code) &&
              Numbering(Gates(), |net.inputs| + |net.latches|, vars) &&
                GatesFrom(Gates(), |net.inputs| + |net.latches|, vars)
    {
      var leaves := LeafVars(net.inputs, net.latches);
      hide Roots, LeafVars, WellFormed, Explored, Acyclic, Closed, Circuit.Leafy, Numbering, NoDup;
      CodingParts(Gates(), leaves, order, code, next);
      RewritingFrom(Gates(), net, leaves, order);
      NumberingFacts(Gates(), |leaves|, leaves + order);
    }

    lemma RetypedGates(defs: Defs, n: nat, vars: seq<nat>)
      requires GatesFrom(defs, n, vars) && ands == Section(defs, n, vars) && maxvar == |vars|
      requires forall v :: (v in gate <==> n < v <= |vars|) && (v in gate ==> gate[v] == v - n - 1)
      ensures Typed() && Gates() == Renumbered(defs, n, vars)
    {
      hide Recoded;
      forall i | 0 <= i < |ands| ensures ands[i] == NewAnd(defs, n, vars, n + i) && ands[i].lhs == 2 * (n + i + 1) {
      }
      assert Typed();
      var g, d := Gates(), Renumbered(defs, n, vars);
      forall v | v in d ensures v in g && g[v] == d[v] {
        assert ands[v - n - 1] == NewAnd(defs, n, vars, v - 1);
      }
    }

    lemma RetypedLeaves()
      requires InOrder(inputs, latches, [])
      requires forall v :: (v in inputOf <==> 0 < v <= |inputs|) && (v in inputOf ==> inputOf[v] == v - 1)
      requires forall v :: (v in latchOf <==> |inputs| < v <= |inputs| + |latches|) &&
                 (v in latchOf ==> latchOf[v] == v - |inputs| - 1)
      ensures TypesAgree() && forall v :: v in LeafVars(inputs, latches) ==> v <= |inputs| + |latches|
    {
      LeavesCount(inputs, latches);
      hide LeafVars;
      assert forall i :: 0 <= i < |inputs| ==> inputs[i] / 2 == i + 1;
      assert forall i :: 0 <= i < |latches| ==> latches[i].lit / 2 == |inputs| + i + 1;
    }

    lemma InOrderLeaves(n: nat)
      requires InOrder(inputs, latches, ands)
      ensures InOrder(inputs, latches, [])
    {
    }

    /** Types of a circuit numbered in order. */
    ghost predicate TypesNumbered(n: nat, m: nat)
      reads this`inputs, this`gate, this`inputOf, this`latchOf
    {
      (forall v :: (v in inputOf <==> 0 < v <= |inputs|) && (v in inputOf ==> inputOf[v] == v - 1)) &&
      (forall v :: (v in latchOf <==> |inputs| < v <= n) && (v in latchOf ==> latchOf[v] == v - |inputs| - 1)) &&
      forall v :: (v in gate <==> n < v <= m) && (v in gate ==> gate[v] == v - n - 1)
    }

    /** What the rewritten types and arrays amount to. */
    lemma RetypedChecked(defs: Defs, net: Net, n: nat, vars: seq<nat>)
      requires WellFormed(defs, net) && Rewriting(defs, net, vars) && Snapshot() == RecodedNet(vars, net)
      requires maxvar == |vars| && onstack == {} && n == |inputs| + |latches| && GatesFrom(defs, n, vars) && n <= |vars|
      requires ands == Section(defs, n, vars)
      requires TypesNumbered(n, |vars|)
      ensures Typed() && Gates() == Renumbered(defs, n, vars)
      ensures Checked() && InOrder(inputs, latches, ands)
    {
      hide Roots, LeafVars, WellFormed, Rewriting, RecodedNet, Circuit.Typed, Circuit.TypesAgree, Section, InOrder,
        Renumbered, Circuit.Gates, Circuit.Snapshot;
      RecodedLengths(vars, net);
      RewrittenWellFormed(defs, net, vars);
      SnapshotFields();
      RetypedGates(defs, n, vars);
      InOrderLeaves(n);
      RetypedLeaves();
    }

    lemma SnapshotFields()
      ensures Snapshot().inputs == inputs && Snapshot().latches == latches && Snapshot().outputs == outputs
      ensures Snapshot().bad == bad && Snapshot().constraints == constraints
      ensures Snapshot().justice == justice && Snapshot().fairness == fairness
    {
    }

    /** aiger_reencode: the code table of the whole circuit. */
    method CodeCircuit() returns (code: map<nat, nat>, next: nat, ghost order: seq<nat>)
      requires Checked()
      modifies this`onstack, this`latches, this`outputs, this`bad, this`constraints, this`justice, this`fairness
      ensures Reencoding(LeafVars(inputs, old(latches)), order, code, next, Roots(old(Snapshot())))
      ensures var vars := LeafVars(inputs, old(latches)) + order;
              latches == NextCoded(vars, old(latches)) && outputs == CodedLits(vars, old(outputs)) &&
              bad == CodedLits(vars, old(bad)) && constraints == CodedLits(vars, old(constraints)) &&
              justice == CodedLists(vars, old(justice)) && fairness == CodedLits(vars, old(fairness))
    {
      ghost var defs, net := Gates(), Snapshot();
      SnapshotFields();
      hide *;
      CheckedParts();
      ghost var leaves := LeafVars(inputs, latches);
      code, next := CodeLeaves(defs, net);
      StartReencoding(code, next);
      code, next, order := ReencodeRoots(code, next, leaves);
    }

    /** The arrays, types and highest variable of the new numbering; the roots are set already. */
    ghost predicate NewNumbers(defs: Defs, net: Net, vars: seq<nat>, before: seq<Latch>)
      reads this`ands, this`maxvar, this`gate, this`inputOf, this`latchOf, this`inputs, this`latches
    {
      |inputs| == |net.inputs| && |latches| == |net.latches| && GatesFrom(defs, |inputs| + |latches|, vars) &&
      ands == Section(defs, |inputs| + |latches|, vars) && maxvar == |vars| && inputs == CodedLits(vars, net.inputs) &&
      latches == LitCoded(vars, before) && TypesNumbered(|inputs| + |latches|, |vars|)
    }

    lemma NumberedTypes(n: nat, m: nat)
      requires forall v :: (v in inputOf <==> 0 < v <= |inputs|) && (v in inputOf ==> inputOf[v] == v - 1)
      requires forall v :: (v in latchOf <==> |inputs| < v <= n) && (v in latchOf ==> latchOf[v] == v - |inputs| - 1)
      requires forall v :: (v in gate <==> n < v <= m) && (v in gate ==> gate[v] == v - n - 1)
      ensures TypesNumbered(n, m)
    {
    }

    lemma NewNumbersIf(defs: Defs, net: Net, vars: seq<nat>, before: seq<Latch>, n: nat)
      requires |inputs| == |net.inputs| && |latches| == |net.latches| && n == |inputs| + |latches|
      requires GatesFrom(defs, n, vars) && ands == Section(defs, n, vars) && maxvar == |vars|
      requires inputs == CodedLits(vars, net.inputs) && latches == LitCoded(vars, before) && TypesNumbered(n, |vars|)
      ensures NewNumbers(defs, net, vars, before)
    {
    }

    /** aiger_reencode: the arrays and types of the new numbering. */
    method Renumber(code: map<nat, nat>, next: nat, ghost order: seq<nat>, ghost defs: Defs, ghost net: Net,
                    ghost vars: seq<nat>)
      requires vars == LeafVars(net.inputs, net.latches) + order
      requires Reencoding(LeafVars(net.inputs, net.latches), order, code, next, Roots(net))
      requires defs == Gates() && WellFormed(defs, net)
      requires inputs == net.inputs && |latches| == |net.latches|
      requires forall i :: 0 <= i < |latches| ==> latches[i].lit == net.latches[i].lit
      modifies this`ands, this`maxvar, this`gate, this`inputOf, this`latchOf, this`inputs, this`latches
      ensures NewNumbers(defs, net, vars, old(latches))
    {
      hide *;
      ghost var leaves := LeafVars(net.inputs, net.latches);
      ReencodingRewrites(net, order, code, next);
      SectionInOrder(defs, |leaves|, vars);
      LeafCodes(defs, net, vars);
      RebuildAnds(code, next, leaves, order, Roots(net));
      Retype(code, vars, |leaves|);
      NumberedTypes(|leaves|, |vars|);
      NewNumbersIf(defs, net, vars, old(latches), |leaves|);
    }

    /** This circuit is the given one with its variables renumbered by vars. */
    ghost predicate Rewritten(defs: Defs, net: Net, vars: seq<nat>)
      reads this
    {
      Rewriting(defs, net, vars) && Snapshot() == RecodedNet(vars, net) && Typed() && maxvar == |vars| &&
      GatesFrom(defs, |net.inputs| + |net.latches|, vars) &&
        Gates() == Renumbered(defs, |net.inputs| + |net.latches|, vars)
    }

    lemma NewNumbersRewritten(defs: Defs, net: Net, vars: seq<nat>, latches1: seq<Latch>)
      requires WellFormed(defs, net) && Rewriting(defs, net, vars) && onstack == {}
      requires NewNumbers(defs, net, vars, latches1) && latches1 == NextCoded(vars, net.latches)
      requires outputs == CodedLits(vars, net.outputs) && bad == CodedLits(vars, net.bad)
      requires constraints == CodedLits(vars, net.constraints) && justice == CodedLists(vars, net.justice)
      requires fairness == CodedLits(vars, net.fairness)
      ensures Rewritten(defs, net, vars) && Checked() && InOrder(inputs, latches, ands)
    {
      hide Roots, LeafVars, WellFormed, Rewriting, RecodedNet, Circuit.Typed, Circuit.TypesAgree, Section, InOrder;
      hide Renumbered, Circuit.Gates, Circuit.Snapshot, Circuit.TypesNumbered, CodedLits, LitCoded, NextCoded,
        CodedLists, Circuit.Checked;
      SnapshotRecoded(vars, net, latches1);
      VarsLength(defs, net, vars);
      RetypedChecked(defs, net, |inputs| + |latches|, vars);
    }

    /** aiger_reencode: the circuit is not numbered in order yet. */
    method Rewrite(ghost defs: Defs, ghost net: Net) returns (ghost vars: seq<nat>)
      requires Checked() && defs == Gates() && net == Snapshot()
      modifies this
      ensures Rewritten(defs, net, vars) && Checked() && InOrder(inputs, latches, ands)
    {
      SnapshotFields();
      hide *;
      CheckedParts();
      ghost var order;
      var code, next;
      code, next, order := CodeCircuit();
      vars := LeafVars(net.inputs, net.latches) + order;
      ReencodingRewrites(net, order, code, next);
      Renumber(code, next, order, defs, net, vars);
      NewNumbersRewritten(defs, net, vars, NextCoded(vars, net.latches));
    }

    /** aiger_reencode: an acyclic circuit keeps the meaning of all its literals, loses
        exactly the gates nothing depends on, and is numbered in order. */
    method Reencode() returns (ghost vars: seq<nat>)
      requires Checked()
      modifies this
      ensures Checked() && InOrder(inputs, latches, ands)
      ensures Preserved(old(Gates()), old(Snapshot()), Gates(), Snapshot())
      ensures if old(InOrder(inputs, latches, ands)) then Snapshot() == old(Snapshot()) && ands == old(ands)
              else Rewritten(old(Gates()), old(Snapshot()), vars)
    {
      vars := [];
      ghost var defs, net := Gates(), Snapshot();
      hide *;
      CheckedParts();
      var yes := IsReencoded();
      if !yes {
        vars := Rewrite(defs, net);
        RewrittenPreserved(defs, net, vars);
      } else {
        UnchangedPreserved(defs, net);
      }
    }

    lemma RewrittenPreserved(defs: Defs, net: Net, vars: seq<nat>)
      requires WellFormed(defs, net) && Rewritten(defs, net, vars)
      ensures Preserved(defs, net, Gates(), Snapshot())
    {
      hide WellFormed, Rewriting, Preserved, RecodedNet, Renumbered, GatesFrom, Circuit.Gates, Circuit.Snapshot,
        Circuit.Typed;
      RewritingPreserved(defs, net, vars);
    }
  }

  lemma VarsLength(defs: Defs, net: Net, vars: seq<nat>)
    requires Rewriting(defs, net, vars)
    ensures |net.inputs| + |net.latches| <= |vars|
  {
  }

  lemma CodingParts(defs: Defs, leaves: seq<nat>, order: seq<nat>, code: map<nat, nat>, next: nat)
    requires Coding(defs, leaves, order, code, next)
    ensures Ordered(defs, leaves, order) && Tabled(leaves + order, code) && next == 2 * (|leaves| + |order| + 1)
  {
  }

  /** The closing order holds exactly the gates some root depends on. */
  lemma NeededClosed(defs: Defs, leaves: seq<nat>, order: seq<nat>, roots: seq<nat>, v: nat)
    requires Ordered(defs, leaves, order) && AllKnown(leaves + order, roots) && 0 !in defs && v in defs
    requires Needed(defs, roots, v)
    ensures v in order
  {
    var i :| 0 <= i < |roots| && Reaches(defs, roots[i] / 2, v);
    var p :| Path(defs, p) && p[0] == roots[i] / 2 && p[|p| - 1] == v;
    assert Known(leaves + order, roots[i]);
    assert p[0] !in order ==> p[0] !in defs;
    assert |p| > 1 ==> Child(defs, p[0], p[1]);
    if p[0] in order {
      OrderClosed(defs, order);
      ClosedReaches(defs, Elems(order), p);
    }
  }

  lemma OrderClosed(defs: Defs, order: seq<nat>)
    requires Topological(defs, order)
    ensures forall v, c :: v in Elems(order) && c in defs && Child(defs, v, c) ==> c in Elems(order)
  {
    forall v, c | v in Elems(order) && c in defs && Child(defs, v, c) ensures c in Elems(order) {
      var k :| 0 <= k < |order| && order[k] == v;
      assert c in order[..k];
    }
  }

  lemma RewritingFrom(defs: Defs, net: Net, leaves: seq<nat>, order: seq<nat>)
    requires WellFormed(defs, net) && leaves == LeafVars(net.inputs, net.latches) && Ordered(defs, leaves, order)
    requires Explored(defs, leaves, order, Roots(net))
    ensures Rewriting(defs, net, leaves + order)
  {
    hide Roots, LeafVars, AllDefined, Acyclic, Closed, Topological, NoDup, Needed, Known, Numbering;
    OrderNumbering(defs, leaves, order);
    var vars := leaves + order;
    forall v | v in defs ensures v in vars <==> Needed(defs, Roots(net), v) {
      if Needed(defs, Roots(net), v) {
        NeededClosed(defs, leaves, order, Roots(net), v);
      }
      assert v in vars ==> v in order;
    }
  }

  lemma LeafCodes(defs: Defs, net: Net, vars: seq<nat>)
    requires WellFormed(defs, net) && Rewriting(defs, net, vars)
    ensures forall i :: 0 <= i < |net.inputs| ==> CodeOf(vars, net.inputs[i]) == 2 * (i + 1)
    ensures forall i :: 0 <= i < |net.latches| ==> CodeOf(vars, net.latches[i].lit) == 2 * (|net.inputs| + i + 1)
  {
    hide Roots, LeafVars, AllDefined, Acyclic, Closed, NoDup, Needed, CodeOf, AllKnown;
    LeavesRecoded(net, vars);
    var net' := RecodedNet(vars, net);
    assert forall i :: 0 <= i < |net.inputs| ==> CodeOf(vars, net.inputs[i]) == net'.inputs[i];
    assert forall i :: 0 <= i < |net.latches| ==> CodeOf(vars, net.latches[i].lit) == net'.latches[i].lit;
  }

  lemma NothingExplored(defs: Defs, leaves: seq<nat>)
    ensures Explored(defs, leaves, [], [])
  {
  }

  lemma RootsAre(net: Net)
    ensures Roots(net) ==
            LatchRoots(net.latches) + net.outputs + net.bad + net.constraints + Join(net.justice) + net.fairness
  {
  }

  lemma DefinedPart(defs: Defs, leaves: seq<nat>, a: seq<nat>, b: seq<nat>)
    requires AllDefined(defs, leaves, a + b)
    ensures AllDefined(defs, leaves, a) && AllDefined(defs, leaves, b)
  {
    hide DefinedVar;
  }

  lemma RootsParts(defs: Defs, leaves: seq<nat>, net: Net)
    requires AllDefined(defs, leaves, Roots(net))
    ensures AllDefined(defs, leaves, LatchRoots(net.latches)) && AllDefined(defs, leaves, net.outputs)
    ensures AllDefined(defs, leaves, net.bad) && AllDefined(defs, leaves, net.constraints)
    ensures AllDefined(defs, leaves, Join(net.justice)) && AllDefined(defs, leaves, net.fairness)
  {
    hide AllDefined, LatchRoots, Join;
    var a, b, c := LatchRoots(net.latches), net.outputs, net.bad;
    var d, e := net.constraints, Join(net.justice);
    DefinedPart(defs, leaves, a + b + c + d + e, net.fairness);
    DefinedPart(defs, leaves, a + b + c + d, e);
    DefinedPart(defs, leaves, a + b + c, d);
    DefinedPart(defs, leaves, a + b, c);
    DefinedPart(defs, leaves, a, b);
  }

  lemma RecodedIs(a: And, code: map<nat, nat>, lhs: nat, rhs0: nat, rhs1: nat)
    requires lhs == Get(code, a.lhs) && (rhs0, rhs1) == Larger(Get(code, a.rhs0), Get(code, a.rhs1))
    ensures And(lhs, rhs0, rhs1) == RecodedAnd(a, code)
  {
  }

  lemma LeafNew(defs: Defs, net: Net, i: nat)
    requires WellFormed(defs, net) && i < |LeafVars(net.inputs, net.latches)|
    ensures var leaves := LeafVars(net.inputs, net.latches);
            leaves[i] !in leaves[..i] && leaves[..i + 1] == leaves[..i] + [leaves[i]] && leaves[i] !in defs &&
              leaves[i] != 0
  {
    hide Closed, AllDefined, Roots, Acyclic, LeafVars;
    assert LeafVars(net.inputs, net.latches)[i] in LeafVars(net.inputs, net.latches);
  }

  lemma LatchDefined(defs: Defs, leaves: seq<nat>, latches: seq<Latch>, i: nat)
    requires AllDefined(defs, leaves, LatchRoots(latches)) && i < |latches|
    ensures DefinedVar(defs, leaves, latches[i].next / 2) && DefinedVar(defs, leaves, latches[i].reset / 2)
  {
    LatchRootIn(latches, i);
  }

  lemma Splice<T>(before: seq<T>, now: seq<T>, i: nat, x: T)
    requires i < |before| == |now| && now[i..] == before[i..]
    ensures now[i := x][i + 1..] == before[i + 1..] && now[i := x][..i + 1] == now[..i] + [x]
    ensures before[..i + 1] == before[..i] + [before[i]]
  {
    assert now[i := x][i + 1..] == now[i..][1..] && before[i + 1..] == before[i..][1..];
  }

  /** One more latch is coded, the earlier ones keep their codes. */
  lemma LatchCoded(leaves: seq<nat>, order0: seq<nat>, order: seq<nat>, roots: seq<nat>, before: seq<Latch>,
                   now: seq<Latch>, i: nat, l: Latch)
    requires i < |before| == |now| && now[i..] == before[i..] && order0 <= order && NoDup(leaves + order)
    requires AllKnown(leaves + order0, LatchRoots(before[..i])) && now[..i] == NextCoded(leaves + order0, before[..i])
    requires l == Latch(before[i].lit, CodeOf(leaves + order, before[i].next), CodeOf(leaves + order, before[i].reset))
    ensures now[i := l][i + 1..] == before[i + 1..] &&
            now[i := l][..i + 1] == NextCoded(leaves + order, before[..i + 1])
    ensures roots + LatchRoots(before[..i + 1]) == roots + LatchRoots(before[..i]) + [before[i].next, before[i].reset]
  {
    hide *;
    LatchesGrow(leaves, order0, order, before[..i]);
    Splice(before, now, i, l);
    NextCodedStep(leaves + order, before[..i], before[i]);
  }

  lemma NextCodedStep(vars: seq<nat>, latches: seq<Latch>, l: Latch)
    ensures NextCoded(vars, latches + [l]) ==
            NextCoded(vars, latches) + [Latch(l.lit, CodeOf(vars, l.next), CodeOf(vars, l.reset))]
    ensures LatchRoots(latches + [l]) == LatchRoots(latches) + [l.next, l.reset]
  {
    assert (latches + [l])[..|latches|] == latches;
  }

  lemma ListsCodedStep(vars: seq<nat>, lists: seq<seq<nat>>, l: seq<nat>)
    ensures CodedLists(vars, lists + [l]) == CodedLists(vars, lists) + [CodedLits(vars, l)]
    ensures Join(lists + [l]) == Join(lists) + l
  {
    assert (lists + [l])[..|lists|] == lists;
  }

  /** The next input or latch takes the next code. */
  lemma CodeLeaf(defs: Defs, net: Net, i: nat, lit: nat, code: map<nat, nat>, next: nat)
    requires WellFormed(defs, net) && i < |net.inputs| + |net.latches|
    requires lit == if i < |net.inputs| then net.inputs[i] else net.latches[i - |net.inputs|].lit
    requires Coding(defs, LeafVars(net.inputs, net.latches)[..i], [], code, next)
    ensures Coding(defs, LeafVars(net.inputs, net.latches)[..i + 1], [], code[lit := next][lit + 1 := next + 1],
            next + 2)
  {
    hide Coding, WellFormed, LeafVars;
    var leaves := LeafVars(net.inputs, net.latches);
    LeafNew(defs, net, i);
    LeafLits(defs, net);
    assert i >= |net.inputs| ==> leaves[i] == leaves[|net.inputs| + (i - |net.inputs|)];
    CodingLeaf(defs, leaves[..i], leaves[i], code, next);
  }

  lemma LeafLits(defs: Defs, net: Net)
    requires WellFormed(defs, net)
    ensures var leaves := LeafVars(net.inputs, net.latches);
            (forall i :: 0 <= i < |net.inputs| ==> net.inputs[i] == 2 * leaves[i]) &&
            (forall i :: 0 <= i < |net.latches| ==> net.latches[i].lit == 2 * leaves[|net.inputs| + i])
  {
    hide Closed, AllDefined, Roots, Acyclic, NoDup, LeafVars;
  }

  lemma {:induction false} JoinPart(defs: Defs, leaves: seq<nat>, lists: seq<seq<nat>>, i: nat)
    requires AllDefined(defs, leaves, Join(lists)) && i < |lists|
    ensures AllDefined(defs, leaves, lists[i])
  {
    hide DefinedVar;
    var n := |lists| - 1;
    assert forall lit :: lit in Join(lists[..n]) || lit in lists[n] ==> lit in Join(lists);
    if i < n {
      JoinPart(defs, leaves, lists[..n], i);
    }
  }

  lemma LatchesGrow(leaves: seq<nat>, order0: seq<nat>, order: seq<nat>, ls: seq<Latch>)
    requires order0 <= order && NoDup(leaves + order) && AllKnown(leaves + order0, LatchRoots(ls))
    ensures NextCoded(leaves + order, ls) == NextCoded(leaves + order0, ls)
  {
    assert leaves + order == (leaves + order0) + order[|order0|..];
    LatchesStable(leaves + order0, order[|order0|..], ls);
  }

  lemma ListsGrow(leaves: seq<nat>, order0: seq<nat>, order: seq<nat>, lists: seq<seq<nat>>)
    requires order0 <= order && NoDup(leaves + order) && AllKnown(leaves + order0, Join(lists))
    ensures CodedLists(leaves + order, lists) == CodedLists(leaves + order0, lists)
  {
    assert leaves + order == (leaves + order0) + order[|order0|..];
    ListsStable(leaves + order0, order[|order0|..], lists);
  }

  lemma CodingNoDup(defs: Defs, leaves: seq<nat>, order: seq<nat>, code: map<nat, nat>, next: nat)
    requires Coding(defs, leaves, order, code, next)
    ensures NoDup(leaves + order)
  {
  }

  lemma KnownPart(vars: seq<nat>, roots: seq<nat>, lits: seq<nat>)
    requires AllKnown(vars, roots + lits)
    ensures AllKnown(vars, roots) && AllKnown(vars, lits)
  {
  }

  /** Codes stay when the order of the gates grows. */
  lemma CodedGrows(leaves: seq<nat>, order0: seq<nat>, order: seq<nat>, lits: seq<nat>)
    requires order0 <= order && NoDup(leaves + order) && AllKnown(leaves + order0, lits)
    ensures AllKnown(leaves + order, lits) && CodedLits(leaves + order, lits) == CodedLits(leaves + order0, lits)
  {
    assert leaves + order == (leaves + order0) + order[|order0|..];
    CodedStable(leaves + order0, order[|order0|..], lits);
  }

  lemma NoFrames(defs: Defs, done: set<nat>)
    ensures FramesOk(defs, [], done) && Opened([]) == {}
  {
  }

  lemma LeftDrops(gates: set<nat>, open0: set<nat>, order: seq<nat>, x: nat)
    ensures x in gates && x !in open0 && x !in order ==>
              |gates - (open0 + {x}) - Elems(order)| < |gates - open0 - Elems(order)|
  {
    Shrinks(gates - open0 - Elems(order), gates - (open0 + {x}) - Elems(order));
    assert x in gates && x !in open0 && x !in order ==> x in gates - open0 - Elems(order);
  }

  lemma LeftSame(gates: set<nat>, open0: set<nat>, order: seq<nat>, v: nat)
    requires v in open0
    ensures |gates - (open0 - {v}) - Elems(order + [v])| == |gates - open0 - Elems(order)|
  {
    assert gates - (open0 - {v}) - Elems(order + [v]) == gates - open0 - Elems(order);
  }

  /** A pending variable without a code is a gate not closed yet. */
  lemma PendingDefined(defs: Defs, leaves: seq<nat>, order: seq<nat>, code: map<nat, nat>, next: nat, v: nat, x: nat)
    requires Coding(defs, leaves, order, code, next) && Closed(defs, leaves) && Child(defs, v, x) && x != 0
    ensures if Get(code, 2 * x) == 0 then x in defs && x !in order else x !in defs || x in order
  {
    hide Child, Topological, NoDup;
    assert Get(code, 2 * x) == CodeOf(leaves + order, 2 * x);
    CodeKnown(leaves + order, 2 * x);
    assert DefinedVar(defs, leaves, x);
  }

  lemma CodingAt(defs: Defs, leaves: seq<nat>, order: seq<nat>, code: map<nat, nat>, next: nat, lit: nat)
    requires Coding(defs, leaves, order, code, next) && lit >= 2
    ensures Get(code, lit) == CodeOf(leaves + order, lit) && (Get(code, lit) != 0 <==> lit / 2 in leaves + order)
  {
    hide Topological, NoDup;
    CodeKnown(leaves + order, lit);
  }

  /** In an acyclic graph the gate about to be opened is not opened already. */
  lemma OpenedTopChild(defs: Defs, frames: seq<Frame>, done: set<nat>, x: nat)
    requires Acyclic(defs) && FramesOk(defs, frames, done) && frames != [] && Child(defs, frames[|frames| - 1].v, x)
    ensures x !in Opened(frames)
  {
    hide Child, FramesOk, Cyclic, Acyclic;
    AcyclicNoCycle(defs);
    if x in Opened(frames) {
      FramesCycle(defs, frames, done, x);
    }
  }

  lemma PendingChild(defs: Defs, frames: seq<Frame>, done: set<nat>)
    requires FramesOk(defs, frames, done) && frames != [] && frames[|frames| - 1].pending != []
    ensures var top := frames[|frames| - 1]; Child(defs, top.v, top.pending[|top.pending| - 1])
  {
    var n := |frames| - 1;
    assert FrameOk(defs, frames, n, done);
    assert frames[n].pending[|frames[n].pending| - 1] in frames[n].pending;
  }
}
