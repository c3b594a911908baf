/**
 * The order in which the walks meet nodes, stated without their stacks and queues: a rule
 * that looks only at what is out already says what comes next, and the walk is the one list
 * the rule allows.
 */
module VisitOrder {
  import opened Options
  import opened Reachability
  import BreadthFirst
  import CallGraph

  /** `v` is the first of the nodes that is not among the seen ones. */
  ghost predicate FirstNew(nodes: seq<Node>, seen: set<Node>, v: Node) {
    exists k :: FirstAt(nodes, seen, v, k)
  }

  ghost predicate FirstAt(nodes: seq<Node>, seen: set<Node>, v: Node, k: int) {
    0 <= k < |nodes| && nodes[k] == v && v !in seen && AllSeen(nodes, seen, k)
  }

  ghost predicate AllSeen(nodes: seq<Node>, seen: set<Node>, n: int) {
    forall j :: 0 <= j < n && j < |nodes| ==> nodes[j] in seen
  }

  /** Nothing is left to step to from n: its callees are seen, or it lies at the bound. */
  ghost predicate Spent(g: Graph, bound: Option<int>, n: Node, depth: int, seen: set<Node>) {
    (bound.Some? && depth >= bound.value) || AllSeen(Succ(g, n), seen, |Succ(g, n)|)
  }

  lemma {:induction false} FirstNewIsUnique(nodes: seq<Node>, seen: set<Node>, v: Node, w: Node)
    requires FirstNew(nodes, seen, v) && FirstNew(nodes, seen, w)
    ensures v == w
  {
    var i :| FirstAt(nodes, seen, v, i);
    var j :| FirstAt(nodes, seen, w, j);
  }

  lemma {:induction false} NewIsNotSpent(g: Graph, bound: Option<int>, n: Node, depth: int, seen: set<Node>, v: Node)
    requires FirstNew(Succ(g, n), seen, v) && (bound.Some? ==> depth < bound.value)
    ensures !Spent(g, bound, n, depth, seen)
  {
    var k :| FirstAt(Succ(g, n), seen, v, k);
  }

  // ---- Depth first -----------------------------------------------------------------------

  /**
   * The depth-first rule. The trail leads from the root to the node met last, and its i-th
   * node has depth i. Next comes the first new callee of the deepest node on the trail that
   * is not spent; when all are spent the walk is over.
   */
  ghost predicate DeepestFirst(g: Graph, bound: Option<int>, trail: seq<Node>, seen: set<Node>, steps: seq<CallGraph.Step>)
    decreases |steps|
  {
    if steps == [] then SpentFrom(g, bound, trail, 0, seen)
    else
      var s := steps[0];
      && 0 < s.depth <= |trail|
      && SpentFrom(g, bound, trail, s.depth, seen)
      && (bound.Some? ==> s.depth <= bound.value)
      && FirstNew(Succ(g, trail[s.depth - 1]), seen, s.node)
      && DeepestFirst(g, bound, trail[..s.depth] + [s.node], seen + {s.node}, steps[1..])
  }

  ghost predicate SpentFrom(g: Graph, bound: Option<int>, trail: seq<Node>, lo: int, seen: set<Node>) {
    forall i :: 0 <= lo <= i < |trail| ==> Spent(g, bound, trail[i], i, seen)
  }

  /** The stack's frames are the trail, and all callees an iterator is past have been seen. */
  ghost predicate OnTrail(g: Graph, stack: seq<CallGraph.Frame>, trail: seq<Node>, seen: set<Node>) {
    && |stack| == |trail|
    && forall i :: 0 <= i < |stack| ==> Passed(g, stack[i], trail[i], i, seen)
  }

  ghost predicate Passed(g: Graph, f: CallGraph.Frame, n: Node, depth: int, seen: set<Node>) {
    f.node == n && f.depth == depth && AllSeen(Succ(g, n), seen, f.next)
  }

  /** A spent node at the end of the trail changes nothing. */
  lemma {:induction false} SpentAtEnd(g: Graph, bound: Option<int>, trail: seq<Node>, seen: set<Node>, steps: seq<CallGraph.Step>)
    requires trail != [] && Spent(g, bound, trail[|trail| - 1], |trail| - 1, seen)
    requires DeepestFirst(g, bound, trail[..|trail| - 1], seen, steps)
    ensures DeepestFirst(g, bound, trail, seen, steps)
  {
    var front := trail[..|trail| - 1];
    forall lo, i | 0 <= lo <= i < |trail| && SpentFrom(g, bound, front, lo, seen) ensures Spent(g, bound, trail[i], i, seen) {
      if i < |front| {
        assert front[i] == trail[i];
      }
    }
    if steps != [] {
      assert front[..steps[0].depth] == trail[..steps[0].depth];
    }
  }

  lemma {:induction false} PassedMore(g: Graph, stack: seq<CallGraph.Frame>, trail: seq<Node>, seen: set<Node>, v: Node)
    requires OnTrail(g, stack, trail, seen)
    ensures OnTrail(g, stack, trail, seen + {v})
  {
    forall i | 0 <= i < |stack| ensures Passed(g, stack[i], trail[i], i, seen + {v}) {
      assert Passed(g, stack[i], trail[i], i, seen);
    }
  }

  /** The stack after its top iterator moved past a seen callee. */
  lemma {:induction false} PassOne(g: Graph, stack: seq<CallGraph.Frame>, trail: seq<Node>, seen: set<Node>)
    requires OnTrail(g, stack, trail, seen) && stack != []
    requires var top := stack[|stack| - 1]; top.next < |Succ(g, top.node)| && Succ(g, top.node)[top.next] in seen
    ensures var top := stack[|stack| - 1]; OnTrail(g, stack[..|stack| - 1] + [top.(next := top.next + 1)], trail, seen)
  {
    var n := |stack| - 1;
    var top := stack[n];
    assert Passed(g, top, trail[n], n, seen);
    var after := stack[..n] + [top.(next := top.next + 1)];
    forall i | 0 <= i < |after| ensures Passed(g, after[i], trail[i], i, seen) {
      if i < n {
        assert after[i] == stack[i] && Passed(g, stack[i], trail[i], i, seen);
      }
    }
  }

  lemma {:induction false} PushOne(g: Graph, stack: seq<CallGraph.Frame>, trail: seq<Node>, seen: set<Node>, v: Node)
    requires OnTrail(g, stack, trail, seen) && stack != []
    requires var top := stack[|stack| - 1]; top.next < |Succ(g, top.node)| && Succ(g, top.node)[top.next] == v
    ensures OnTrail(g, CallGraph.Pushed(stack, stack[|stack| - 1].next, v), trail + [v], seen + {v})
  {
    var n := |stack| - 1;
    PassedMore(g, stack, trail, seen, v);
    PassOne(g, stack, trail, seen + {v});
    var advanced := stack[..n] + [stack[n].(next := stack[n].next + 1)];
    var pushed, longer := advanced + [CallGraph.Frame(v, stack[n].depth + 1, 0)], trail + [v];
    assert Passed(g, stack[n], trail[n], n, seen);
    forall i | 0 <= i < |pushed| ensures Passed(g, pushed[i], longer[i], i, seen + {v}) {
      if i <= n {
        assert pushed[i] == advanced[i] && Passed(g, advanced[i], trail[i], i, seen + {v});
      }
    }
  }

  /** A new callee of the node at the end of the trail comes next. */
  lemma {:induction false} YieldFollows(g: Graph, bound: Option<int>, top: CallGraph.Frame, trail: seq<Node>, seen: set<Node>,
                                        v: Node, rest: seq<CallGraph.Step>)
    requires trail != [] && Passed(g, top, trail[|trail| - 1], |trail| - 1, seen)
    requires top.next < |CallGraph.Kids(g, bound, top.node, top.depth)| && v !in seen
    requires CallGraph.Kids(g, bound, top.node, top.depth)[top.next] == v
    requires DeepestFirst(g, bound, trail + [v], seen + {v}, rest)
    ensures DeepestFirst(g, bound, trail, seen, [CallGraph.Step(v, top.depth + 1)] + rest)
  {
    assert FirstAt(Succ(g, top.node), seen, v, top.next);
    var steps := [CallGraph.Step(v, top.depth + 1)] + rest;
    assert steps[1..] == rest && trail[..|trail|] == trail;
  }

  /** What a stack still yields follows the rule. */
  lemma {:induction false} DrainFollows(g: Graph, bound: Option<int>, stack: seq<CallGraph.Frame>, trail: seq<Node>, seen: set<Node>)
    requires OnTrail(g, stack, trail, seen)
    ensures DeepestFirst(g, bound, trail, seen, CallGraph.Drain(g, bound, stack, seen))
    decreases Targets(g) - seen, |stack|, Left(g, stack), 1
  {
    if stack != [] {
      var top := stack[|stack| - 1];
      var kids := CallGraph.Kids(g, bound, top.node, top.depth);
      if top.next >= |kids| {
        DrainPops(g, bound, stack, trail, seen);
      } else if kids[top.next] in seen {
        DrainSkips(g, bound, stack, trail, seen);
      } else {
        DrainYields(g, bound, stack, trail, seen, kids[top.next]);
      }
    }
  }

  lemma {:induction false} DrainSkips(g: Graph, bound: Option<int>, stack: seq<CallGraph.Frame>, trail: seq<Node>, seen: set<Node>)
    requires OnTrail(g, stack, trail, seen) && stack != []
    requires var top := stack[|stack| - 1];
             && top.next < |CallGraph.Kids(g, bound, top.node, top.depth)|
             && CallGraph.Kids(g, bound, top.node, top.depth)[top.next] in seen
    ensures DeepestFirst(g, bound, trail, seen, CallGraph.Drain(g, bound, stack, seen))
    decreases Targets(g) - seen, |stack|, Left(g, stack), 0
  {
    var advanced := Skipped(g, bound, stack, trail, seen);
    DrainFollows(g, bound, advanced, trail, seen);
  }

  lemma {:induction false} Skipped(g: Graph, bound: Option<int>, stack: seq<CallGraph.Frame>, trail: seq<Node>, seen: set<Node>)
    returns (advanced: seq<CallGraph.Frame>)
    requires OnTrail(g, stack, trail, seen) && stack != []
    requires var top := stack[|stack| - 1];
             && top.next < |CallGraph.Kids(g, bound, top.node, top.depth)|
             && CallGraph.Kids(g, bound, top.node, top.depth)[top.next] in seen
    ensures OnTrail(g, advanced, trail, seen)
    ensures CallGraph.Drain(g, bound, advanced, seen) == CallGraph.Drain(g, bound, stack, seen)
    ensures |advanced| == |stack| && Left(g, advanced) < Left(g, stack)
  {
    var top := stack[|stack| - 1];
    advanced := stack[..|stack| - 1] + [top.(next := top.next + 1)];
    PassOne(g, stack, trail, seen);
    SkipKeeps(g, bound, stack, seen);
  }

  lemma {:induction false} SkipKeeps(g: Graph, bound: Option<int>, stack: seq<CallGraph.Frame>, seen: set<Node>)
    requires stack != []
    requires var top := stack[|stack| - 1];
             && top.next < |CallGraph.Kids(g, bound, top.node, top.depth)|
             && CallGraph.Kids(g, bound, top.node, top.depth)[top.next] in seen
    ensures var top := stack[|stack| - 1];
            var advanced := stack[..|stack| - 1] + [top.(next := top.next + 1)];
            && CallGraph.Drain(g, bound, advanced, seen) == CallGraph.Drain(g, bound, stack, seen)
            && |advanced| == |stack| && Left(g, advanced) < Left(g, stack)
  {
    var top := stack[|stack| - 1];
    var advanced := stack[..|stack| - 1] + [top.(next := top.next + 1)];
    CallGraph.SkipOne(g, bound, [], stack, top, seen);
    assert [] + CallGraph.Drain(g, bound, advanced, seen) == CallGraph.Drain(g, bound, advanced, seen);
    assert [] + CallGraph.Drain(g, bound, stack, seen) == CallGraph.Drain(g, bound, stack, seen);
    assert advanced[|advanced| - 1] == top.(next := top.next + 1);
  }

  lemma {:induction false} DrainYields(g: Graph, bound: Option<int>, stack: seq<CallGraph.Frame>, trail: seq<Node>, seen: set<Node>,
                                       v: Node)
    requires OnTrail(g, stack, trail, seen) && stack != [] && v !in seen
    requires var top := stack[|stack| - 1];
             top.next < |CallGraph.Kids(g, bound, top.node, top.depth)| && CallGraph.Kids(g, bound, top.node, top.depth)[top.next] == v
    ensures DeepestFirst(g, bound, trail, seen, CallGraph.Drain(g, bound, stack, seen))
    decreases Targets(g) - seen, |stack|, 0, 0
  {
    var top := stack[|stack| - 1];
    Progress(g, top.node, top.next, seen);
    PushOne(g, stack, trail, seen, v);
    CallGraph.DrainYield(g, bound, stack, top, top.next, v, seen);
    DrainFollows(g, bound, CallGraph.Pushed(stack, top.next, v), trail + [v], seen + {v});
    assert Passed(g, top, trail[|trail| - 1], |trail| - 1, seen);
    YieldFollows(g, bound, top, trail, seen, v, CallGraph.Drain(g, bound, CallGraph.Pushed(stack, top.next, v), seen + {v}));
  }

  /** How far the top iterator still has to go. */
  function Left(g: Graph, stack: seq<CallGraph.Frame>): nat {
    if stack == [] then 0
    else
      var top := stack[|stack| - 1];
      if top.next < |Succ(g, top.node)| then |Succ(g, top.node)| - top.next else 0
  }

  lemma {:induction false} TrailFront(g: Graph, stack: seq<CallGraph.Frame>, trail: seq<Node>, seen: set<Node>)
    requires OnTrail(g, stack, trail, seen) && stack != []
    ensures OnTrail(g, stack[..|stack| - 1], trail[..|trail| - 1], seen)
  {
    var below, front := stack[..|stack| - 1], trail[..|trail| - 1];
    forall i | 0 <= i < |below| ensures Passed(g, below[i], front[i], i, seen) {
      assert Passed(g, stack[i], trail[i], i, seen);
    }
  }

  lemma {:induction false} ExhaustedIsSpent(g: Graph, bound: Option<int>, top: CallGraph.Frame, n: Node, depth: nat, seen: set<Node>)
    requires Passed(g, top, n, depth, seen) && top.next >= |CallGraph.Kids(g, bound, top.node, top.depth)|
    ensures Spent(g, bound, n, depth, seen)
    ensures CallGraph.PreOrder(g, bound, top.node, top.depth, top.next, seen) == ([], seen)
  {
  }

  lemma {:induction false} DrainPops(g: Graph, bound: Option<int>, stack: seq<CallGraph.Frame>, trail: seq<Node>, seen: set<Node>)
    requires OnTrail(g, stack, trail, seen) && stack != []
    requires var top := stack[|stack| - 1]; top.next >= |CallGraph.Kids(g, bound, top.node, top.depth)|
    ensures DeepestFirst(g, bound, trail, seen, CallGraph.Drain(g, bound, stack, seen))
    decreases Targets(g) - seen, |stack|, 0, 0
  {
    var top, below, front := stack[|stack| - 1], stack[..|stack| - 1], trail[..|trail| - 1];
    assert Passed(g, top, trail[|trail| - 1], |trail| - 1, seen);
    ExhaustedIsSpent(g, bound, top, trail[|trail| - 1], |trail| - 1, seen);
    TrailFront(g, stack, trail, seen);
    DrainFollows(g, bound, below, front, seen);
    var rest := CallGraph.Drain(g, bound, below, seen);
    SpentAtEnd(g, bound, trail, seen, rest);
    assert [] + rest == rest;
  }

  lemma {:induction false} SameNext(g: Graph, bound: Option<int>, trail: seq<Node>, seen: set<Node>, a: seq<CallGraph.Step>,
                                    b: seq<CallGraph.Step>)
    requires DeepestFirst(g, bound, trail, seen, a) && DeepestFirst(g, bound, trail, seen, b) && a != []
    ensures b != [] && a[0] == b[0]
  {
    var s := a[0];
    NewIsNotSpent(g, bound, trail[s.depth - 1], s.depth - 1, seen, s.node);
    if b != [] {
      var t := b[0];
      NewIsNotSpent(g, bound, trail[t.depth - 1], t.depth - 1, seen, t.node);
      assert s.depth == t.depth;
      FirstNewIsUnique(Succ(g, trail[s.depth - 1]), seen, s.node, t.node);
    }
  }

  lemma {:induction false} RuleDecides(g: Graph, bound: Option<int>, trail: seq<Node>, seen: set<Node>, a: seq<CallGraph.Step>,
                                       b: seq<CallGraph.Step>)
    requires DeepestFirst(g, bound, trail, seen, a) && DeepestFirst(g, bound, trail, seen, b)
    ensures a == b
    decreases |a|
  {
    if a == [] {
      if b != [] {
        SameNext(g, bound, trail, seen, b, a);
      }
    } else {
      SameNext(g, bound, trail, seen, a, b);
      RuleDecides(g, bound, trail[..a[0].depth] + [a[0].node], seen + {a[0].node}, a[1..], b[1..]);
      assert a == [a[0]] + a[1..] && b == [b[0]] + b[1..];
    }
  }

  /** The walk is the one list of steps the depth-first rule allows from the root. */
  lemma {:induction false} WalkIsDeepestFirst(g: Graph, root: Node, bound: Option<int>, steps: seq<CallGraph.Step>)
    ensures DeepestFirst(g, bound, [root], {root}, steps) <==> steps == CallGraph.WalkSteps(g, root, bound)
  {
    var stack := [CallGraph.Frame(root, 0, 0)];
    assert Passed(g, stack[0], root, 0, {root});
    DrainFollows(g, bound, stack, [root], {root});
    CallGraph.StreamRoot(g, root, bound);
    assert [] + CallGraph.Drain(g, bound, stack, {root}) == CallGraph.Drain(g, bound, stack, {root});
    if DeepestFirst(g, bound, [root], {root}, steps) {
      RuleDecides(g, bound, [root], {root}, steps, CallGraph.WalkSteps(g, root, bound));
    }
  }

  // ---- Breadth first ---------------------------------------------------------------------

  /** Next comes the first new neighbour of the entry met earliest that is not spent. */
  ghost predicate ComesNext(g: Graph, bound: Option<int>, order: seq<BreadthFirst.Entry>, e: BreadthFirst.Entry) {
    exists h :: FoundAt(g, bound, order, h, e)
  }

  ghost predicate FoundAt(g: Graph, bound: Option<int>, order: seq<BreadthFirst.Entry>, h: int, e: BreadthFirst.Entry) {
    && 0 <= h < |order|
    && SpentBefore(g, bound, order, h, BreadthFirst.NodeSet(order))
    && (bound.Some? ==> order[h].depth < bound.value)
    && FirstNew(Succ(g, order[h].node), BreadthFirst.NodeSet(order), e.node)
    && e.depth == order[h].depth + 1 && e.parent == Some(order[h].node)
  }

  ghost predicate SpentBefore(g: Graph, bound: Option<int>, order: seq<BreadthFirst.Entry>, n: int, seen: set<Node>) {
    forall i :: 0 <= i < n && i < |order| ==> Spent(g, bound, order[i].node, order[i].depth, seen)
  }

  /**
   * The breadth-first rule: the start comes first, each later entry comes next after those
   * before it, and in the end all are spent.
   */
  ghost predicate EarliestFirst(g: Graph, start: Node, bound: Option<int>, order: seq<BreadthFirst.Entry>) {
    && Queues(g, start, bound, order)
    && SpentBefore(g, bound, order, |order|, BreadthFirst.NodeSet(order))
  }

  ghost predicate Queues(g: Graph, start: Node, bound: Option<int>, order: seq<BreadthFirst.Entry>) {
    && order != [] && order[0] == BreadthFirst.Entry(start, 0, None)
    && forall k :: 1 <= k < |order| ==> ComesNext(g, bound, order[..k], order[k])
  }

  lemma {:induction false} QueueOne(g: Graph, start: Node, bound: Option<int>, order: seq<BreadthFirst.Entry>, e: BreadthFirst.Entry)
    requires Queues(g, start, bound, order) && ComesNext(g, bound, order, e)
    ensures Queues(g, start, bound, order + [e])
  {
    var longer := order + [e];
    forall k | 1 <= k < |longer| ensures ComesNext(g, bound, longer[..k], longer[k]) {
      if k < |order| {
        assert longer[..k] == order[..k] && longer[k] == order[k];
      } else {
        assert longer[..k] == order;
      }
    }
  }

  /** More entries and more seen nodes leave what is spent spent. */
  lemma {:induction false} SpentStays(g: Graph, bound: Option<int>, order: seq<BreadthFirst.Entry>, longer: seq<BreadthFirst.Entry>, n: nat)
    requires order <= longer && n <= |order| && SpentBefore(g, bound, order, n, BreadthFirst.NodeSet(order))
    ensures SpentBefore(g, bound, longer, n, BreadthFirst.NodeSet(longer))
  {
    BreadthFirst.NodeSetPrefix(order, longer);
    forall i | 0 <= i < n ensures Spent(g, bound, longer[i].node, longer[i].depth, BreadthFirst.NodeSet(longer)) {
      assert Spent(g, bound, order[i].node, order[i].depth, BreadthFirst.NodeSet(order)) && longer[i] == order[i];
    }
  }

  /** The entry at h is being expanded and its first i neighbours are seen; all before it are spent. */
  ghost predicate Expanding(g: Graph, start: Node, bound: Option<int>, order: seq<BreadthFirst.Entry>, h: nat, i: nat) {
    && Queues(g, start, bound, order) && h < |order| && (bound.Some? ==> order[h].depth < bound.value)
    && SpentBefore(g, bound, order, h, BreadthFirst.NodeSet(order))
    && AllSeen(Succ(g, order[h].node), BreadthFirst.NodeSet(order), i)
  }

  ghost predicate SpentThrough(g: Graph, start: Node, bound: Option<int>, order: seq<BreadthFirst.Entry>, h: nat) {
    Queues(g, start, bound, order) && SpentBefore(g, bound, order, h + 1, BreadthFirst.NodeSet(order))
  }

  lemma {:induction false} SeenOneMore(nodes: seq<Node>, seen: set<Node>, i: nat)
    requires AllSeen(nodes, seen, i) && i < |nodes|
    ensures AllSeen(nodes, seen + {nodes[i]}, i + 1)
  {
  }

  lemma {:induction false} NewComesNext(g: Graph, bound: Option<int>, order: seq<BreadthFirst.Entry>, h: nat, i: nat)
    requires h < |order| && (bound.Some? ==> order[h].depth < bound.value)
    requires SpentBefore(g, bound, order, h, BreadthFirst.NodeSet(order))
    requires AllSeen(Succ(g, order[h].node), BreadthFirst.NodeSet(order), i)
    requires i < |Succ(g, order[h].node)| && Succ(g, order[h].node)[i] !in BreadthFirst.NodeSet(order)
    ensures ComesNext(g, bound, order, BreadthFirst.Found(order[h], Succ(g, order[h].node)[i]))
  {
    var e := BreadthFirst.Found(order[h], Succ(g, order[h].node)[i]);
    assert FirstAt(Succ(g, order[h].node), BreadthFirst.NodeSet(order), e.node, i);
    assert FoundAt(g, bound, order, h, e);
  }

  lemma {:induction false} NewEntry(g: Graph, start: Node, bound: Option<int>, order: seq<BreadthFirst.Entry>, h: nat, i: nat)
    requires Expanding(g, start, bound, order, h, i) && i < |Succ(g, order[h].node)|
    requires Succ(g, order[h].node)[i] !in BreadthFirst.NodeSet(order)
    ensures Expanding(g, start, bound, order + [BreadthFirst.Found(order[h], Succ(g, order[h].node)[i])], h, i + 1)
  {
    var e := BreadthFirst.Found(order[h], Succ(g, order[h].node)[i]);
    NewComesNext(g, bound, order, h, i);
    QueueOne(g, start, bound, order, e);
    SpentStays(g, bound, order, order + [e], h);
    BreadthFirst.NodeSetAppend(order, e);
    SeenOneMore(Succ(g, order[h].node), BreadthFirst.NodeSet(order), i);
    assert (order + [e])[h] == order[h];
  }

  lemma {:induction false} AllExpanded(g: Graph, start: Node, bound: Option<int>, order: seq<BreadthFirst.Entry>, h: nat, i: nat)
    requires Expanding(g, start, bound, order, h, i) && i >= |Succ(g, order[h].node)|
    ensures SpentThrough(g, start, bound, order, h)
  {
    assert Spent(g, bound, order[h].node, order[h].depth, BreadthFirst.NodeSet(order));
  }

  lemma {:induction false} DiscoverQueues(g: Graph, start: Node, bound: Option<int>, order: seq<BreadthFirst.Entry>, h: nat,
                                          u: BreadthFirst.Entry, i: nat)
    requires Expanding(g, start, bound, order, h, i) && u == order[h]
    ensures SpentThrough(g, start, bound, BreadthFirst.Discover(g, order, u, i), h)
    decreases |Succ(g, u.node)| - i
  {
    if i >= |Succ(g, u.node)| {
      AllExpanded(g, start, bound, order, h, i);
    } else if Succ(g, u.node)[i] in BreadthFirst.NodeSet(order) {
      DiscoverQueues(g, start, bound, order, h, u, i + 1);
    } else {
      NewEntry(g, start, bound, order, h, i);
      DiscoverQueues(g, start, bound, order + [BreadthFirst.Found(u, Succ(g, u.node)[i])], h, u, i + 1);
    }
  }

  lemma {:induction false} ExpandQueues(g: Graph, start: Node, bound: Option<int>, order: seq<BreadthFirst.Entry>, h: nat)
    requires Queues(g, start, bound, order) && h < |order|
    requires SpentBefore(g, bound, order, h, BreadthFirst.NodeSet(order))
    ensures SpentThrough(g, start, bound, BreadthFirst.Expand(g, bound, order, order[h]), h)
  {
    if bound.Some? && order[h].depth >= bound.value {
      assert Spent(g, bound, order[h].node, order[h].depth, BreadthFirst.NodeSet(order));
    } else {
      DiscoverQueues(g, start, bound, order, h, order[h], 0);
    }
  }

  lemma {:induction false} ExploreQueues(g: Graph, start: Node, bound: Option<int>, order: seq<BreadthFirst.Entry>, head: nat)
    requires Queues(g, start, bound, order) && head <= |order|
    requires SpentBefore(g, bound, order, head, BreadthFirst.NodeSet(order))
    ensures EarliestFirst(g, start, bound, BreadthFirst.Explore(g, bound, order, head))
    decreases Targets(g) - BreadthFirst.NodeSet(order), |order| - head
  {
    if head < |order| {
      BreadthFirst.DiscoverProgress(g, order, order[head], 0);
      ExpandQueues(g, start, bound, order, head);
      ExploreQueues(g, start, bound, BreadthFirst.Expand(g, bound, order, order[head]), head + 1);
    }
  }

  lemma {:induction false} OneComesNext(g: Graph, bound: Option<int>, order: seq<BreadthFirst.Entry>, a: BreadthFirst.Entry, b: BreadthFirst.Entry)
    requires ComesNext(g, bound, order, a) && ComesNext(g, bound, order, b)
    ensures a == b
  {
    var seen := BreadthFirst.NodeSet(order);
    var h :| FoundAt(g, bound, order, h, a);
    var k :| FoundAt(g, bound, order, k, b);
    NewIsNotSpent(g, bound, order[h].node, order[h].depth, seen, a.node);
    NewIsNotSpent(g, bound, order[k].node, order[k].depth, seen, b.node);
    assert h == k;
    FirstNewIsUnique(Succ(g, order[h].node), seen, a.node, b.node);
  }

  lemma {:induction false} TakeLast<T>(s: seq<T>, n: nat)
    requires 0 < n <= |s|
    ensures s[..n] == s[..n - 1] + [s[n - 1]]
  {
  }

  /** Up to the shorter one, two lists by the rule are the same. */
  lemma {:induction false} QueuesAgree(g: Graph, start: Node, bound: Option<int>, a: seq<BreadthFirst.Entry>, b: seq<BreadthFirst.Entry>, n: nat)
    requires Queues(g, start, bound, a) && Queues(g, start, bound, b) && n <= |a| && n <= |b|
    ensures a[..n] == b[..n]
    decreases n
  {
    if n > 0 {
      var k := n - 1;
      QueuesAgree(g, start, bound, a, b, k);
      TakeLast(a, n);
      TakeLast(b, n);
      if k > 0 {
        assert ComesNext(g, bound, a[..k], a[k]) && ComesNext(g, bound, b[..k], b[k]);
        OneComesNext(g, bound, a[..k], a[k], b[k]);
      }
    }
  }

  /** After all are spent nothing comes next. */
  lemma {:induction false} NotLonger(g: Graph, start: Node, bound: Option<int>, a: seq<BreadthFirst.Entry>, b: seq<BreadthFirst.Entry>)
    requires EarliestFirst(g, start, bound, a) && Queues(g, start, bound, b)
    ensures |b| <= |a|
  {
    if |b| > |a| {
      QueuesAgree(g, start, bound, a, b, |a|);
      assert a[..|a|] == a && b[..|a|] == a;
      var h :| FoundAt(g, bound, a, h, b[|a|]);
      NewIsNotSpent(g, bound, a[h].node, a[h].depth, BreadthFirst.NodeSet(a), b[|a|].node);
      assert false;
    }
  }

  /** The discovery order is the one list the breadth-first rule allows. */
  lemma {:induction false} SearchIsEarliestFirst(g: Graph, start: Node, bound: Option<int>, order: seq<BreadthFirst.Entry>)
    ensures EarliestFirst(g, start, bound, order) <==> order == BreadthFirst.SearchOrder(g, start, bound)
  {
    var r := BreadthFirst.SearchOrder(g, start, bound);
    ExploreQueues(g, start, bound, [BreadthFirst.Origin(start)], 0);
    if EarliestFirst(g, start, bound, order) {
      NotLonger(g, start, bound, order, r);
      NotLonger(g, start, bound, r, order);
      QueuesAgree(g, start, bound, order, r, |r|);
      assert order[..|r|] == order && r[..|r|] == r;
    }
  }
}
