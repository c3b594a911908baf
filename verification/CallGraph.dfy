/**
 `Callable.callgraph` (project/indexer/model.py): a lazy depth-first walk kept
 iterative by an explicit stack of callee iterators. It is proved equal to the
 recursive pre-order walk with one shared `seen` set, and the pre-order walk is
 proved to reach exactly what the edges reach.
 */
module CallGraph {
  import opened Options
  import opened Reachability

  /** One yielded pair `(callee, depth)`. */
  datatype Step = Step(node: Node, depth: nat)

  /** A stack frame: the node being expanded, its depth, and how far its callee iterator has advanced. */
  datatype Frame = Frame(node: Node, depth: nat, next: nat)

  /** `_kids`: nothing at or past the depth bound; a non-callable node has no entry in g. */
  function Kids(g: Graph, bound: Option<int>, n: Node, d: nat): seq<Node> {
    if bound.Some? && d >= bound.value then [] else Succ(g, n)
  }

  // ---- The recursive walk the iterator stack stands for ---------------------

  lemma {:induction false} KidIsTarget(g: Graph, bound: Option<int>, n: Node, d: nat, i: nat)
    requires i < |Kids(g, bound, n, d)|
    ensures Kids(g, bound, n, d)[i] in Targets(g)
  {
    SuccInTargets(g, n, i);
  }

  /** Pre-order below n (at depth d) from its i-th callee on: the steps yielded and the resulting seen set. */
  ghost function PreOrder(g: Graph, bound: Option<int>, n: Node, d: nat, i: nat, seen: set<Node>)
    : (r: (seq<Step>, set<Node>))
    ensures seen <= r.1
    decreases Targets(g) - seen, |Kids(g, bound, n, d)| - i
  {
    var kids := Kids(g, bound, n, d);
    if i >= |kids| then ([], seen)
    else if kids[i] in seen then PreOrder(g, bound, n, d, i + 1, seen)
    else
      KidIsTarget(g, bound, n, d, i);
      assert kids[i] in Targets(g) - seen;
      var below := PreOrder(g, bound, kids[i], d + 1, 0, seen + {kids[i]});
      assert kids[i] !in Targets(g) - below.1;
      var after := PreOrder(g, bound, n, d, i + 1, below.1);
      ([Step(kids[i], d + 1)] + below.0 + after.0, after.1)
  }

  ghost function WalkSteps(g: Graph, root: Node, bound: Option<int>): seq<Step> {
    PreOrder(g, bound, root, 0, 0, {root}).0
  }

  /** What a stack of frames still has to yield, top frame first. */
  ghost function Drain(g: Graph, bound: Option<int>, stack: seq<Frame>, seen: set<Node>): seq<Step> {
    if stack == [] then []
    else
      var top := stack[|stack| - 1];
      var r := PreOrder(g, bound, top.node, top.depth, top.next, seen);
      r.0 + Drain(g, bound, stack[..|stack| - 1], r.1)
  }

  /** Everything the walk yields: what is out already and what the stack still holds. */
  ghost function Stream(g: Graph, bound: Option<int>, out: seq<Step>, stack: seq<Frame>, seen: set<Node>): seq<Step> {
    out + Drain(g, bound, stack, seen)
  }

  lemma {:induction false} DrainPush(g: Graph, bound: Option<int>, below: seq<Frame>, top: Frame, seen: set<Node>)
    ensures var r := PreOrder(g, bound, top.node, top.depth, top.next, seen);
            Drain(g, bound, below + [top], seen) == r.0 + Drain(g, bound, below, r.1)
  {
    assert (below + [top])[..|below|] == below;
  }

  // ---- The walk as the source runs it --------------------------------------

  method Walk(g: Graph, root: Node, bound: Option<int>) returns (out: seq<Step>)
    ensures out == WalkSteps(g, root, bound)
  {
    var seen := {root};
    var stack := [Frame(root, 0, 0)];
    out := [];
    StreamRoot(g, root, bound);
    while stack != []
      invariant Stream(g, bound, out, stack, seen) == WalkSteps(g, root, bound)
      decreases Targets(g) - seen, |stack|
    {
      var top := stack[|stack| - 1];
      var i := SkipSeen(g, bound, top, seen);
      var kids := Kids(g, bound, top.node, top.depth);
      if i >= |kids| {
        PopExhausted(g, bound, out, stack, top, i, seen);
        stack := stack[..|stack| - 1];
      } else {
        YieldAndPush(g, bound, out, stack, top, i, kids[i], seen);
        out := out + [Step(kids[i], top.depth + 1)];
        stack := Pushed(stack, i, kids[i]);
        seen := seen + {kids[i]};
      }
    }
  }

  /** The `for callee in it` scan: advance the top iterator past callees already seen. */
  method SkipSeen(g: Graph, bound: Option<int>, top: Frame, seen: set<Node>) returns (i: nat)
    ensures top.next <= i && SkippedTo(g, bound, top, i, seen)
    ensures i < |Kids(g, bound, top.node, top.depth)| ==> Kids(g, bound, top.node, top.depth)[i] !in seen
  {
    i := top.next;
    while i < |Kids(g, bound, top.node, top.depth)| && Kids(g, bound, top.node, top.depth)[i] in seen
      invariant top.next <= i && SkippedTo(g, bound, top, i, seen)
    {
      i := i + 1;
    }
  }

  // ---- Each turn of the walk keeps the stream -----------------------------------

  lemma {:induction false} StreamRoot(g: Graph, root: Node, bound: Option<int>)
    ensures Stream(g, bound, [], [Frame(root, 0, 0)], {root}) == WalkSteps(g, root, bound)
  {
    DrainPush(g, bound, [], Frame(root, 0, 0), {root});
    assert [] + [Frame(root, 0, 0)] == [Frame(root, 0, 0)];
  }

  /** The top iterator yields the same from position i on: everything before was already seen. */
  ghost predicate SkippedTo(g: Graph, bound: Option<int>, top: Frame, i: nat, seen: set<Node>) {
    PreOrder(g, bound, top.node, top.depth, i, seen) == PreOrder(g, bound, top.node, top.depth, top.next, seen)
  }

  /** A frame whose iterator is exhausted yields nothing more. */
  lemma {:induction false} PopExhausted(g: Graph, bound: Option<int>, out: seq<Step>, stack: seq<Frame>, top: Frame, i: nat, seen: set<Node>)
    requires stack != [] && top == stack[|stack| - 1] && i >= |Kids(g, bound, top.node, top.depth)|
    requires SkippedTo(g, bound, top, i, seen)
    ensures Stream(g, bound, out, stack[..|stack| - 1], seen) == Stream(g, bound, out, stack, seen)
  {
    var below := stack[..|stack| - 1];
    assert PreOrder(g, bound, top.node, top.depth, i, seen) == ([], seen);
    DrainPush(g, bound, below, top, seen);
    assert stack == below + [top] && [] + Drain(g, bound, below, seen) == Drain(g, bound, below, seen);
  }

  /** Stepping the top iterator past a callee already seen changes nothing either. */
  lemma {:induction false} SkipOne(g: Graph, bound: Option<int>, out: seq<Step>, stack: seq<Frame>, top: Frame, seen: set<Node>)
    requires stack != [] && top == stack[|stack| - 1] && top.next < |Kids(g, bound, top.node, top.depth)|
    requires Kids(g, bound, top.node, top.depth)[top.next] in seen
    ensures Stream(g, bound, out, stack[..|stack| - 1] + [top.(next := top.next + 1)], seen)
            == Stream(g, bound, out, stack, seen)
  {
    DrainPush(g, bound, stack[..|stack| - 1], top.(next := top.next + 1), seen);
  }

  /** The stack after yielding the i-th callee of its top frame: the iterator moves on and the callee's frame goes on top. */
  function Pushed(stack: seq<Frame>, i: nat, callee: Node): seq<Frame>
    requires stack != []
  {
    var top := stack[|stack| - 1];
    stack[..|stack| - 1] + [top.(next := i + 1)] + [Frame(callee, top.depth + 1, 0)]
  }

  /** What the stack holds after a yield: the callee's subtree, the rest of the top iterator, what is below. */
  lemma {:induction false} DrainPushed(g: Graph, bound: Option<int>, stack: seq<Frame>, i: nat, callee: Node, seen: set<Node>)
    requires stack != []
    ensures var below, top := stack[..|stack| - 1], stack[|stack| - 1];
            var inner := PreOrder(g, bound, callee, top.depth + 1, 0, seen);
            var after := PreOrder(g, bound, top.node, top.depth, i + 1, inner.1);
            Drain(g, bound, Pushed(stack, i, callee), seen) == inner.0 + (after.0 + Drain(g, bound, below, after.1))
  {
    var below, top := stack[..|stack| - 1], stack[|stack| - 1];
    DrainPush(g, bound, below + [top.(next := i + 1)], Frame(callee, top.depth + 1, 0), seen);
    DrainPush(g, bound, below, top.(next := i + 1), PreOrder(g, bound, callee, top.depth + 1, 0, seen).1);
  }

  lemma {:induction false} DrainYield(g: Graph, bound: Option<int>, stack: seq<Frame>, top: Frame, i: nat, callee: Node, seen: set<Node>)
    requires stack != [] && top == stack[|stack| - 1] && SkippedTo(g, bound, top, i, seen)
    requires i < |Kids(g, bound, top.node, top.depth)| && callee == Kids(g, bound, top.node, top.depth)[i] && callee !in seen
    ensures Drain(g, bound, stack, seen)
            == [Step(callee, top.depth + 1)] + Drain(g, bound, Pushed(stack, i, callee), seen + {callee})
  {
    var below := stack[..|stack| - 1];
    var inner := PreOrder(g, bound, callee, top.depth + 1, 0, seen + {callee});
    var after := PreOrder(g, bound, top.node, top.depth, i + 1, inner.1);
    var rest := Drain(g, bound, below, after.1);
    DrainPushed(g, bound, stack, i, callee, seen + {callee});
    assert PreOrder(g, bound, top.node, top.depth, i, seen) == ([Step(callee, top.depth + 1)] + inner.0 + after.0, after.1);
    assert Drain(g, bound, stack, seen) == [Step(callee, top.depth + 1)] + inner.0 + after.0 + rest;
    Regroup([Step(callee, top.depth + 1)], inner.0, after.0, rest);
  }

  lemma {:induction false} Regroup<T>(a: seq<T>, b: seq<T>, c: seq<T>, d: seq<T>)
    ensures a + b + c + d == a + (b + (c + d))
  {
  }

  /** Yielding one callee and pushing its frame leaves the whole stream unchanged. */
  lemma {:induction false} YieldAndPush(g: Graph, bound: Option<int>, out: seq<Step>, stack: seq<Frame>, top: Frame, i: nat,
                     callee: Node, seen: set<Node>)
    requires stack != [] && top == stack[|stack| - 1] && SkippedTo(g, bound, top, i, seen)
    requires i < |Kids(g, bound, top.node, top.depth)| && callee == Kids(g, bound, top.node, top.depth)[i] && callee !in seen
    ensures Stream(g, bound, out + [Step(callee, top.depth + 1)], Pushed(stack, i, callee), seen + {callee})
            == Stream(g, bound, out, stack, seen)
    ensures Targets(g) - (seen + {callee}) < Targets(g) - seen
  {
    KidIsTarget(g, bound, top.node, top.depth, i);
    assert callee in Targets(g) - seen;
    DrainYield(g, bound, stack, top, i, callee, seen);
  }

  // ---- What the walk yields ------------------------------------------------

  function Nodes(steps: seq<Step>): set<Node> {
    set s | s in steps :: s.node
  }

  ghost predicate EachOnce(steps: seq<Step>) {
    forall i, j :: 0 <= i < j < |steps| ==> steps[i].node != steps[j].node
  }

  /** Every node is yielded at most once, none that was seen before, and all newly seen ones are. */
  lemma {:induction false} PreOrderYields(g: Graph, bound: Option<int>, n: Node, d: nat, i: nat, seen: set<Node>)
    ensures var r := PreOrder(g, bound, n, d, i, seen);
            EachOnce(r.0) && Nodes(r.0) == r.1 - seen
    decreases Targets(g) - seen, |Kids(g, bound, n, d)| - i
  {
    var kids := Kids(g, bound, n, d);
    if i >= |kids| {
    } else if kids[i] in seen {
      PreOrderYields(g, bound, n, d, i + 1, seen);
    } else {
      KidIsTarget(g, bound, n, d, i);
      var below := PreOrder(g, bound, kids[i], d + 1, 0, seen + {kids[i]});
      assert kids[i] in Targets(g) - seen && kids[i] !in Targets(g) - below.1;
      PreOrderYields(g, bound, kids[i], d + 1, 0, seen + {kids[i]});
      PreOrderYields(g, bound, n, d, i + 1, below.1);
      YieldsConcat([Step(kids[i], d + 1)], below.0, {kids[i]}, below.1 - (seen + {kids[i]}));
      YieldsConcat([Step(kids[i], d + 1)] + below.0, PreOrder(g, bound, n, d, i + 1, below.1).0,
                   below.1 - seen, PreOrder(g, bound, n, d, i + 1, below.1).1 - below.1);
    }
  }

  lemma {:induction false} YieldsConcat(a: seq<Step>, b: seq<Step>, na: set<Node>, nb: set<Node>)
    requires EachOnce(a) && EachOnce(b) && Nodes(a) == na && Nodes(b) == nb && na !! nb
    ensures EachOnce(a + b) && Nodes(a + b) == na + nb
  {
    forall n ensures n in Nodes(a + b) <==> n in na + nb {
      assert forall s :: s in a + b <==> s in a || s in b;
    }
    forall i, j | 0 <= i < j < |a + b| ensures (a + b)[i].node != (a + b)[j].node {
      if i < |a| <= j {
        assert a[i] in a && b[j - |a|] in b;
        assert a[i].node in na && b[j - |a|].node in nb;
      }
    }
  }

  /** A step below n (at depth d) comes with a path from n of exactly as many edges as it is deeper. */
  ghost predicate Witnessed(g: Graph, bound: Option<int>, n: Node, d: nat, s: Step) {
    && (exists p :: PathBetween(g, n, s.node, p) && |p| - 1 == s.depth - d)
    && s.depth > d
    && (bound.Some? ==> s.depth <= bound.value)
  }

  lemma {:induction false} PreOrderDepths(g: Graph, bound: Option<int>, n: Node, d: nat, i: nat, seen: set<Node>)
    ensures forall s :: s in PreOrder(g, bound, n, d, i, seen).0 ==> Witnessed(g, bound, n, d, s)
    decreases Targets(g) - seen, |Kids(g, bound, n, d)| - i
  {
    var kids := Kids(g, bound, n, d);
    if i >= |kids| {
    } else if kids[i] in seen {
      PreOrderDepths(g, bound, n, d, i + 1, seen);
    } else {
      KidIsTarget(g, bound, n, d, i);
      var below := PreOrder(g, bound, kids[i], d + 1, 0, seen + {kids[i]});
      assert kids[i] in Targets(g) - seen && kids[i] !in Targets(g) - below.1;
      PreOrderDepths(g, bound, kids[i], d + 1, 0, seen + {kids[i]});
      PreOrderDepths(g, bound, n, d, i + 1, below.1);
      assert kids[i] in Succ(g, n);
      forall s | s in PreOrder(g, bound, n, d, i, seen).0 ensures Witnessed(g, bound, n, d, s) {
        if s == Step(kids[i], d + 1) {
          assert PathBetween(g, n, kids[i], [n, kids[i]]);
        } else if s in below.0 {
          WitnessedFromParent(g, bound, n, d, kids[i], s);
        }
      }
    }
  }

  lemma {:induction false} WitnessedFromParent(g: Graph, bound: Option<int>, n: Node, d: nat, kid: Node, s: Step)
    requires kid in Succ(g, n) && Witnessed(g, bound, kid, d + 1, s)
    ensures Witnessed(g, bound, n, d, s)
  {
    var p :| PathBetween(g, kid, s.node, p) && |p| - 1 == s.depth - (d + 1);
    PathCons(g, n, kid, s.node, p);
    assert |[n] + p| - 1 == s.depth - d;
  }

  /** Once n's callees are walked all are seen, and so are the callees of every node yielded below them. */
  lemma {:induction false} PreOrderCloses(g: Graph, bound: Option<int>, n: Node, d: nat, i: nat, seen: set<Node>)
    ensures var r := PreOrder(g, bound, n, d, i, seen);
            && (forall j :: i <= j < |Kids(g, bound, n, d)| ==> Kids(g, bound, n, d)[j] in r.1)
            && (forall s, v :: s in r.0 && v in Kids(g, bound, s.node, s.depth) ==> v in r.1)
    decreases Targets(g) - seen, |Kids(g, bound, n, d)| - i
  {
    var kids := Kids(g, bound, n, d);
    if i >= |kids| {
    } else if kids[i] in seen {
      PreOrderCloses(g, bound, n, d, i + 1, seen);
    } else {
      KidIsTarget(g, bound, n, d, i);
      var below := PreOrder(g, bound, kids[i], d + 1, 0, seen + {kids[i]});
      assert kids[i] in Targets(g) - seen && kids[i] !in Targets(g) - below.1;
      PreOrderCloses(g, bound, kids[i], d + 1, 0, seen + {kids[i]});
      PreOrderCloses(g, bound, n, d, i + 1, below.1);
    }
  }

  // ---- The promises of the walk --------------------------------------------

  /** Cycles cannot repeat a node, the root is never yielded, and every depth is the length of a real path. */
  lemma {:induction false} WalkIsSound(g: Graph, root: Node, bound: Option<int>)
    ensures var w := WalkSteps(g, root, bound);
            && EachOnce(w)
            && root !in Nodes(w)
            && forall s :: s in w ==> Witnessed(g, bound, root, 0, s)
  {
    PreOrderYields(g, bound, root, 0, 0, {root});
    PreOrderDepths(g, bound, root, 0, 0, {root});
  }

  /** s is the root at depth 0 or a yielded step. */
  ghost predicate OnWalk(w: seq<Step>, root: Node, s: Step) {
    s == Step(root, 0) || s in w
  }

  ghost predicate Reached(w: seq<Step>, root: Node, n: Node) {
    n == root || n in Nodes(w)
  }

  lemma {:induction false} StepOf(w: seq<Step>, root: Node, n: Node) returns (s: Step)
    requires Reached(w, root, n)
    ensures OnWalk(w, root, s) && s.node == n
  {
    if n == root {
      s := Step(root, 0);
    } else {
      s :| s in w && s.node == n;
    }
  }

  /** The callees of every reached node are reached, unless the bound stopped its expansion. */
  ghost predicate Expanded(g: Graph, root: Node, bound: Option<int>, w: seq<Step>) {
    forall s, v :: OnWalk(w, root, s) && v in Kids(g, bound, s.node, s.depth) ==> Reached(w, root, v)
  }

  lemma {:induction false} WalkExpands(g: Graph, root: Node, bound: Option<int>)
    ensures Expanded(g, root, bound, WalkSteps(g, root, bound))
  {
    PreOrderYields(g, bound, root, 0, 0, {root});
    PreOrderCloses(g, bound, root, 0, 0, {root});
  }

  /** Unbounded, the walk yields precisely what the root reaches, the root itself excepted. */
  lemma {:induction false} WalkReachesExactly(g: Graph, root: Node)
    ensures forall n :: n in Nodes(WalkSteps(g, root, None)) <==> n != root && Reachable(g, root, n)
  {
    var w := WalkSteps(g, root, None);
    var done := {root} + Nodes(w);
    WalkIsSound(g, root, None);
    WalkExpands(g, root, None);
    forall u, v | u in done && v in Succ(g, u) ensures v in done {
      var s := StepOf(w, root, u);
      assert Reached(w, root, v);
    }
    forall n | n != root && Reachable(g, root, n) ensures n in Nodes(w) {
      var p :| PathBetween(g, root, n, p);
      ClosedHoldsPath(g, done, root, n, p);
    }
    forall n | n in Nodes(w) ensures n != root && Reachable(g, root, n) {
      var s :| s in w && s.node == n;
      assert Witnessed(g, None, root, 0, s);
    }
  }

  // ---- Depths need not be distances ------------------------------------------

  /** f calls g and h, g calls h, h calls k: h is reported at depth 2 although f calls it directly. */
  const SHORTCUT: Graph := map[0 := [1, 2], 1 := [2], 2 := [3]]

  lemma {:induction false} DepthCanExceedDistance()
    ensures Step(2, 2) in WalkSteps(SHORTCUT, 0, None) && AtDistance(SHORTCUT, 0, 2, 1)
    ensures 3 !in Nodes(WalkSteps(SHORTCUT, 0, Some(2))) && Within(SHORTCUT, 0, 3, 2)
  {
    var g := SHORTCUT;
    assert PathBetween(g, 0, 2, [0, 2]) && PathBetween(g, 0, 3, [0, 2, 3]);
    WithinStart(g, 0);
    assert {0} + {1} == {0, 1} && {0, 1} + {2} == {0, 1, 2};
    assert PreOrder(g, Some(2), 0, 0, 1, {0, 1, 2}) == ([], {0, 1, 2});
    assert PreOrder(g, Some(2), 1, 1, 1, {0, 1, 2}) == ([], {0, 1, 2});
    assert PreOrder(g, Some(2), 1, 1, 0, {0, 1}).0 == [Step(2, 2)];
    assert WalkSteps(g, 0, Some(2)) == [Step(1, 1), Step(2, 2)];
    assert PreOrder(g, None, 1, 1, 0, {0, 1}).0[0] == Step(2, 2);
    assert WalkSteps(g, 0, None)[1] == Step(2, 2);
  }
}
