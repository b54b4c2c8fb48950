/** The explicit stack of aiger.c's depth-first searches: an opened gate v lies
    on it as v followed by a 0 marker, with its children still to be visited above. */
module AigDfs {
  import opened Aig

  datatype Frame = Frame(v: nat, pending: seq<nat>)

  function Flat(frames: seq<Frame>): seq<nat> {
    if frames == [] then []
    else
      var top := frames[|frames| - 1];
      Flat(frames[..|frames| - 1]) + [top.v, 0] + top.pending
  }

  function Opened(frames: seq<Frame>): set<nat> {
    set k | 0 <= k < |frames| :: frames[k].v
  }

  /** Frames follow a path of gates, and every gate child of an opened gate is
      done, pending, or the gate opened next. */
  ghost predicate FramesOk(defs: Defs, frames: seq<Frame>, done: set<nat>) {
    forall k :: 0 <= k < |frames| ==> FrameOk(defs, frames, k, done)
  }

  ghost predicate FrameOk(defs: Defs, frames: seq<Frame>, k: nat, done: set<nat>)
    requires k < |frames|
  {
    frames[k].v in defs && frames[k].v !in done && PendingOk(defs, frames[k]) &&
    Covered(defs, frames[k], Next(frames, k), done) &&
    (k + 1 < |frames| ==> Child(defs, frames[k].v, frames[k + 1].v))
  }

  ghost predicate PendingOk(defs: Defs, f: Frame) {
    forall c :: c in f.pending ==> c != 0 && Child(defs, f.v, c)
  }

  /** The gate opened from frame k. */
  function Next(frames: seq<Frame>, k: nat): set<nat> {
    if k + 1 < |frames| then {frames[k + 1].v} else {}
  }

  /** The gate children of a frame are done, pending, or being visited. */
  ghost predicate Covered(defs: Defs, f: Frame, visiting: set<nat>, done: set<nat>) {
    forall c :: c in defs && Child(defs, f.v, c) ==> c in done || c in f.pending || c in visiting
  }

  /** Moving the top pending child x out of a frame. */
  lemma PopFrame(defs: Defs, f: Frame, visiting: set<nat>, done: set<nat>)
    requires f.pending != [] && PendingOk(defs, f) && Covered(defs, f, {}, done)
    requires var x := f.pending[|f.pending| - 1]; x !in defs || x in done || x in visiting
    ensures PendingOk(defs, Frame(f.v, f.pending[..|f.pending| - 1]))
    ensures Covered(defs, Frame(f.v, f.pending[..|f.pending| - 1]), visiting, done)
    ensures var x := f.pending[|f.pending| - 1]; x != 0 && Child(defs, f.v, x)
  {
    hide Child;
    var x := f.pending[|f.pending| - 1];
    var less := Frame(f.v, f.pending[..|f.pending| - 1]);
    assert f.pending == less.pending + [x];
    assert x in f.pending;
    forall c | c in less.pending ensures c != 0 && Child(defs, f.v, c) {
      assert c in f.pending;
    }
    forall c | c in defs && Child(defs, f.v, c) ensures c in done || c in less.pending || c in visiting {
      assert c in done || c in f.pending;
      assert c in f.pending ==> c in less.pending || c == x;
    }
  }

  lemma CoveredDone(defs: Defs, f: Frame, v: nat, done: set<nat>)
    requires Covered(defs, f, {v}, done)
    ensures Covered(defs, f, {}, done + {v})
  {
    hide Child;
  }

  lemma CoveredMore(defs: Defs, f: Frame, visiting: set<nat>, done: set<nat>, more: set<nat>)
    requires Covered(defs, f, visiting, done) && done <= more
    ensures Covered(defs, f, visiting, more)
  {
    hide Child;
  }

  /** Finished gates come after their gate children. */
  ghost predicate Topological(defs: Defs, done: seq<nat>) {
    forall k, c :: 0 <= k < |done| && c in defs && Child(defs, done[k], c) ==> c in done[..k]
  }

  function Elems(s: seq<nat>): set<nat> {
    set x | x in s
  }

  function WithoutTop(frames: seq<Frame>): seq<Frame>
    requires frames != [] && frames[|frames| - 1].pending != []
  {
    var n := |frames| - 1;
    frames[n := Frame(frames[n].v, frames[n].pending[..|frames[n].pending| - 1])]
  }

  /** The element on top of a stack of frames. */
  lemma FlatTop(frames: seq<Frame>)
    requires frames != []
    ensures var top := frames[|frames| - 1];
            if top.pending == [] then Flat(frames) == Flat(frames[..|frames| - 1]) + [top.v, 0]
            else Flat(frames) == Flat(WithoutTop(frames)) + [top.pending[|top.pending| - 1]]
  {
    var n := |frames| - 1;
    var top := frames[n];
    if top.pending != [] {
      var less := WithoutTop(frames);
      assert less[..n] == frames[..n];
      assert top.pending == less[n].pending + [top.pending[|top.pending| - 1]];
    }
  }

  lemma FlatPush(frames: seq<Frame>, f: Frame)
    ensures Flat(frames + [f]) == Flat(frames) + [f.v, 0] + f.pending
  {
    assert (frames + [f])[..|frames|] == frames;
  }

  /** Dropping a pending child that is no gate or is done. */
  lemma PopPending(defs: Defs, frames: seq<Frame>, done: set<nat>)
    requires FramesOk(defs, frames, done) && frames != [] && frames[|frames| - 1].pending != []
    requires var p := frames[|frames| - 1].pending; p[|p| - 1] !in defs || p[|p| - 1] in done
    ensures FramesOk(defs, WithoutTop(frames), done) && Opened(WithoutTop(frames)) == Opened(frames)
  {
    hide Child, Covered, PendingOk;
    var n, less := |frames| - 1, WithoutTop(frames);
    assert FrameOk(defs, frames, n, done);
    PopFrame(defs, frames[n], {}, done);
    forall k | 0 <= k < |less| ensures FrameOk(defs, less, k, done) {
      assert FrameOk(defs, frames, k, done);
    }
    OpenedPop(frames);
  }

  lemma OpenedPop(frames: seq<Frame>)
    requires frames != [] && frames[|frames| - 1].pending != []
    ensures Opened(WithoutTop(frames)) == Opened(frames)
  {
    assert forall k :: 0 <= k < |frames| ==> WithoutTop(frames)[k].v == frames[k].v;
  }

  lemma OpenedPush(frames: seq<Frame>, f: Frame)
    ensures Opened(frames + [f]) == Opened(frames) + {f.v}
  {
    var more := frames + [f];
    assert more[|frames|] == f;
    assert forall k :: 0 <= k < |frames| ==> more[k] == frames[k];
  }

  /** A new frame holds children that cover its gate. */
  ghost predicate Fresh(defs: Defs, x: nat, kids: seq<nat>, done: set<nat>) {
    x in defs && x !in done && PendingOk(defs, Frame(x, kids)) && Covered(defs, Frame(x, kids), {}, done)
  }

  /** Opening the pending child on top. */
  lemma OpenPending(defs: Defs, frames: seq<Frame>, done: set<nat>, kids: seq<nat>)
    requires FramesOk(defs, frames, done) && frames != [] && frames[|frames| - 1].pending != []
    requires var p := frames[|frames| - 1].pending; Fresh(defs, p[|p| - 1], kids, done)
    ensures var p := frames[|frames| - 1].pending; var x := p[|p| - 1];
            FramesOk(defs, WithoutTop(frames) + [Frame(x, kids)], done) &&
            Opened(WithoutTop(frames) + [Frame(x, kids)]) == Opened(frames) + {x}
  {
    hide Child, Covered, PendingOk;
    var n, less := |frames| - 1, WithoutTop(frames);
    var p := frames[n].pending;
    var x := p[|p| - 1];
    var more := less + [Frame(x, kids)];
    assert FrameOk(defs, frames, n, done);
    PopFrame(defs, frames[n], {x}, done);
    forall k | 0 <= k < |more| ensures FrameOk(defs, more, k, done) {
      if k < n {
        assert FrameOk(defs, frames, k, done);
        assert more[k] == frames[k] && Next(more, k) == Next(frames, k);
      }
    }
    OpenedPop(frames);
    OpenedPush(less, Frame(x, kids));
  }

  lemma OpenRoot(defs: Defs, root: nat, done: set<nat>, kids: seq<nat>)
    requires Fresh(defs, root, kids, done)
    ensures FramesOk(defs, [Frame(root, kids)], done) && Opened([Frame(root, kids)]) == {root}
  {
    hide Child, Covered, PendingOk;
    var f := [Frame(root, kids)];
    assert f[0].v == root;
  }

  lemma OpenedClose(frames: seq<Frame>)
    requires frames != [] && forall j, k :: 0 <= j < k < |frames| ==> frames[j].v != frames[k].v
    ensures var n := |frames| - 1; Opened(frames[..n]) == Opened(frames) - {frames[n].v}
  {
    var n := |frames| - 1;
    forall v | v in Opened(frames) - {frames[n].v} ensures v in Opened(frames[..n]) {
      var k :| 0 <= k < |frames| && frames[k].v == v;
      assert frames[..n][k].v == v;
    }
  }

  /** Closing the top gate: all its gate children are done. */
  lemma CloseTop(defs: Defs, frames: seq<Frame>, done: set<nat>)
    requires FramesOk(defs, frames, done) && frames != [] && frames[|frames| - 1].pending == []
    requires forall j, k :: 0 <= j < k < |frames| ==> frames[j].v != frames[k].v
    ensures var n := |frames| - 1; FramesOk(defs, frames[..n], done + {frames[n].v})
  {
    hide Child, Covered, PendingOk;
    var n := |frames| - 1;
    var v := frames[n].v;
    var rest, more := frames[..n], done + {v};
    forall k | 0 <= k < n ensures FrameOk(defs, rest, k, more) {
      assert FrameOk(defs, frames, k, done);
      if k == n - 1 {
        CoveredDone(defs, frames[k], v, done);
      } else {
        CoveredMore(defs, frames[k], Next(frames, k), done, more);
      }
    }
  }

  lemma ClosedChildren(defs: Defs, frames: seq<Frame>, done: set<nat>)
    requires FramesOk(defs, frames, done) && frames != [] && frames[|frames| - 1].pending == []
    ensures var v := frames[|frames| - 1].v;
            v in defs && v !in done && forall c :: c in defs && Child(defs, v, c) ==> c in done
  {
    hide Child;
    assert FrameOk(defs, frames, |frames| - 1, done);
  }

  lemma TopologicalAppend(defs: Defs, done: seq<nat>, v: nat)
    requires Topological(defs, done) && forall c :: c in defs && Child(defs, v, c) ==> c in done
    ensures Topological(defs, done + [v])
  {
    var more := done + [v];
    forall k, c | 0 <= k < |more| && c in defs && Child(defs, more[k], c) ensures c in more[..k] {
      if k < |done| {
        assert more[..k] == done[..k];
      } else {
        assert more[..k] == done;
      }
    }
  }

  /** A finishing order of all gates ranks them. */
  lemma TopologicalRanks(defs: Defs, done: seq<nat>) returns (rank: map<nat, nat>)
    requires Topological(defs, done) && (forall v :: v in defs ==> v in done)
    requires forall j, k :: 0 <= j < k < |done| ==> done[j] != done[k]
    ensures Ranked(defs, rank)
  {
    rank := map v | v in defs :: (Position(done, v));
    forall v, c | v in defs && c in defs && Child(defs, v, c) ensures rank[c] < rank[v] {
      var k := Position(done, v);
      assert done[k] == v;
      var j :| 0 <= j < |done[..k]| && done[..k][j] == c;
      assert done[j] == c;
    }
  }

  function Position(s: seq<nat>, v: nat): (k: nat)
    requires v in s
    ensures k < |s| && s[k] == v
  {
    if s[0] == v then 0 else 1 + Position(s[1..], v)
  }
}
