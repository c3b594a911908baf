/**
 Transitive closures: `_calls_closure` and `_callers_closure` (cxq/executor.py),
 and the override closure `Graph.dispatch_targets` (cidx-graph/cidx_graph/graph.py).
 */
module Closures {
  import opened BreadthFirst
  import opened Options
  import opened Reachability
  import CallGraph
  import Searches

  // ---- Work lists -------------------------------------------------------------------

  ghost predicate AllIn(nodes: seq<Node>, s: set<Node>, k: nat) {
    forall j :: 0 <= j < k && j < |nodes| ==> nodes[j] in s
  }

  /** Every known node waits in the frontier or has had all its neighbours collected. */
  ghost predicate Pending(g: Graph, start: Node, visited: set<Node>, frontier: seq<Node>) {
    forall v :: v in visited + {start} ==> v in frontier || AllIn(Succ(g, v), visited, |Succ(g, v)|)
  }

  /** Only what the start reaches over at least one edge is collected. */
  ghost predicate Sound(g: Graph, start: Node, visited: set<Node>, extra: set<Node>) {
    forall v :: v in visited ==> v in extra || ReachableByEdges(g, start, v)
  }

  lemma {:induction false} SoundStep(g: Graph, start: Node, visited: set<Node>, extra: set<Node>, u: Node, v: Node)
    requires Sound(g, start, visited, extra) && extra <= {start}
    requires u in visited + {start} && v in Succ(g, u)
    ensures Sound(g, start, visited + {v}, extra)
  {
    if u == start {
      assert PathBetween(g, start, start, [start]);
      PathSnoc(g, start, start, v, [start]);
      assert ReachableByEdges(g, start, v);
    } else {
      var p :| PathBetween(g, start, u, p) && |p| >= 2;
      PathSnoc(g, start, u, v, p);
      assert ReachableByEdges(g, start, v);
    }
  }

  lemma {:induction false} CollectedAll(g: Graph, start: Node, visited: set<Node>, v: Node, p: seq<Node>)
    requires Pending(g, start, visited, []) && PathBetween(g, start, v, p) && |p| >= 2
    ensures v in visited
    decreases |p|
  {
    var u := p[|p| - 2];
    PathInit(g, start, v, p);
    if |p| > 2 {
      CollectedAll(g, start, visited, u, p[..|p| - 1]);
    }
    assert u in visited + {start} && AllIn(Succ(g, u), visited, |Succ(g, u)|);
  }

  /** After i of u's neighbours: the closure so far is sound and only u may still miss neighbours. */
  ghost predicate Collecting(g: Graph, start: Node, u: Node, i: nat, visited: set<Node>, frontier: seq<Node>, extra: set<Node>) {
    && AllIn(Succ(g, u), visited, i) && Sound(g, start, visited, extra)
    && (forall v :: v in visited + {start} ==> v == u || v in frontier || AllIn(Succ(g, v), visited, |Succ(g, v)|))
    && (forall v :: v in frontier ==> v in visited + {start})
  }

  lemma {:induction false} CollectOne(g: Graph, start: Node, u: Node, i: nat, visited: set<Node>, frontier: seq<Node>,
                                      extra: set<Node>)
    requires Collecting(g, start, u, i, visited, frontier, extra) && extra <= {start}
    requires i < |Succ(g, u)| && u in visited + {start}
    ensures var n := Succ(g, u)[i];
            Collecting(g, start, u, i + 1, visited + {n}, if n in visited then frontier else frontier + [n], extra)
  {
    SoundStep(g, start, visited, extra, u, Succ(g, u)[i]);
  }

  /** The nodes one closure step collects from u: its neighbours not collected before, queued for expansion. */
  method Collect(g: Graph, start: Node, u: Node, visited0: set<Node>, frontier0: seq<Node>, ghost extra: set<Node>)
    returns (visited: set<Node>, frontier: seq<Node>)
    requires u in visited0 + {start} && extra <= {start}
    requires Collecting(g, start, u, 0, visited0, frontier0, extra)
    ensures Collecting(g, start, u, |Succ(g, u)|, visited, frontier, extra)
    ensures (visited == visited0 && frontier == frontier0) || Targets(g) - visited < Targets(g) - visited0
    ensures visited0 <= visited
  {
    visited, frontier := visited0, frontier0;
    var neighbors := Succ(g, u);
    for i := 0 to |neighbors|
      invariant visited0 <= visited && Collecting(g, start, u, i, visited, frontier, extra)
      invariant (visited == visited0 && frontier == frontier0) || Targets(g) - visited < Targets(g) - visited0
    {
      var n := neighbors[i];
      CollectOne(g, start, u, i, visited, frontier, extra);
      assert n in visited ==> visited + {n} == visited;
      if n !in visited {
        Progress(g, u, i, visited);
        visited := visited + {n};
        frontier := frontier + [n];
      }
    }
  }

  /** Between two steps: sound, and every known node waits or is done. */
  ghost predicate Working(g: Graph, start: Node, visited: set<Node>, frontier: seq<Node>, extra: set<Node>) {
    && Sound(g, start, visited, extra) && Pending(g, start, visited, frontier)
    && forall v :: v in frontier ==> v in visited + {start}
  }

  lemma {:induction false} TakeLast(g: Graph, start: Node, visited: set<Node>, frontier: seq<Node>, extra: set<Node>)
    requires Working(g, start, visited, frontier, extra) && frontier != []
    ensures frontier[|frontier| - 1] in visited + {start}
    ensures Collecting(g, start, frontier[|frontier| - 1], 0, visited, frontier[..|frontier| - 1], extra)
  {
    var below, cur := frontier[..|frontier| - 1], frontier[|frontier| - 1];
    assert frontier == below + [cur] && cur in frontier;
    assert forall v :: v in frontier ==> v == cur || v in below;
  }

  lemma {:induction false} CollectedIsWorking(g: Graph, start: Node, u: Node, visited: set<Node>, frontier: seq<Node>, extra: set<Node>)
    requires Collecting(g, start, u, |Succ(g, u)|, visited, frontier, extra)
    ensures Working(g, start, visited, frontier, extra)
  {
  }

  // ---- cxq closures --------------------------------------------------------------------

  /** b belongs to the closure of a over the given edges: reached by an edge path, or a itself when reflexive. */
  ghost predicate InClosure(g: Graph, a: Node, b: Node, reflexive: bool) {
    ReachableByEdges(g, a, b) || (reflexive && a == b)
  }

  /** `_callers_closure`: a stack work list over direct callers. */
  method CallersClosure(callers: Graph, entity: Node, reflexive: bool) returns (result: set<Node>)
    ensures forall n :: n in result <==> InClosure(callers, entity, n, reflexive)
  {
    var visited := if reflexive then {entity} else {};
    ghost var extra := visited;
    var frontier := [entity];
    while frontier != []
      invariant extra <= visited && Working(callers, entity, visited, frontier, extra)
      decreases Targets(callers) - visited, |frontier|
    {
      var cur := frontier[|frontier| - 1];
      TakeLast(callers, entity, visited, frontier, extra);
      visited, frontier := Collect(callers, entity, cur, visited, frontier[..|frontier| - 1], extra);
      CollectedIsWorking(callers, entity, cur, visited, frontier, extra);
    }
    forall v | ReachableByEdges(callers, entity, v) ensures v in visited {
      var p :| PathBetween(callers, entity, v, p) && |p| >= 2;
      CollectedAll(callers, entity, visited, v, p);
    }
    result := visited;
  }

  /** `_calls_closure`: what the unbounded call-graph walk yields, with the entity itself when reflexive. */
  method CallsClosure(calls: Graph, entity: Node, reflexive: bool) returns (result: set<Node>)
    ensures forall n :: n in result <==> (n != entity && InClosure(calls, entity, n, false)) || (reflexive && n == entity)
  {
    var visited := if reflexive then {entity} else {};
    ghost var initial := visited;
    var steps := CallGraph.Walk(calls, entity, None);
    for i := 0 to |steps|
      invariant forall n :: n in visited <==> n in initial || exists j :: 0 <= j < i && steps[j].node == n
    {
      if steps[i].node !in visited {
        visited := visited + {steps[i].node};
      }
    }
    result := visited;
    CallGraph.WalkReachesExactly(calls, entity);
    forall n ensures n in result <==> n in initial || n in CallGraph.Nodes(steps) {
      if n in CallGraph.Nodes(steps) {
        var s :| s in steps && s.node == n;
        var j :| 0 <= j < |steps| && steps[j] == s;
        assert steps[j].node == n;
      }
    }
    forall n | n != entity ensures Reachable(calls, entity, n) <==> ReachableByEdges(calls, entity, n) {
      if Reachable(calls, entity, n) {
        var p :| PathBetween(calls, entity, n, p);
        assert |p| >= 2;
      }
    }
  }

  /** Every edge goes to a node of lesser rank: there are no cycles. */
  ghost predicate Falls(g: Graph, rank: Node -> nat) {
    forall u, i :: 0 <= i < |Succ(g, u)| ==> rank(Succ(g, u)[i]) < rank(u)
  }

  /** `_inherits_closure` over derived classes and `_ancestors_closure` over bases: the recursion of both, on a graph without cycles. */
  method InheritsClosure(g: Graph, entity: Node, reflexive: bool, ghost rank: Node -> nat) returns (result: set<Node>)
    requires Falls(g, rank)
    ensures forall n :: n in result <==> InClosure(g, entity, n, reflexive)
    decreases rank(entity)
  {
    ghost var extra := if reflexive then {entity} else {};
    result := if reflexive then {entity} else {};
    var next := Succ(g, entity);
    for i := 0 to |next|
      invariant forall n :: n in result <==> n in extra || ReachedThrough(g, next, i, n)
    {
      result := result + {next[i]};
      var below := InheritsClosure(g, next[i], false, rank);
      result := result + below;
    }
    forall n ensures ReachedThrough(g, next, |next|, n) <==> ReachableByEdges(g, entity, n) {
      FirstEdge(g, entity, n);
    }
  }

  /** n is one of the first k nodes, or reached from one of them. */
  ghost predicate ReachedThrough(g: Graph, next: seq<Node>, k: nat, n: Node) {
    exists j :: 0 <= j < k && j < |next| && (next[j] == n || ReachableByEdges(g, next[j], n))
  }

  lemma {:induction false} FirstEdge(g: Graph, a: Node, n: Node)
    ensures ReachedThrough(g, Succ(g, a), |Succ(g, a)|, n) <==> ReachableByEdges(g, a, n)
  {
    if ReachableByEdges(g, a, n) {
      var p :| PathBetween(g, a, n, p) && |p| >= 2;
      PathTail(g, a, n, p);
    }
    if ReachedThrough(g, Succ(g, a), |Succ(g, a)|, n) {
      var j :| 0 <= j < |Succ(g, a)| && (Succ(g, a)[j] == n || ReachableByEdges(g, Succ(g, a)[j], n));
      var b := Succ(g, a)[j];
      if b == n {
        assert PathBetween(g, n, n, [n]);
        PathCons(g, a, b, n, [n]);
      } else {
        var p :| PathBetween(g, b, n, p) && |p| >= 2;
        PathCons(g, a, b, n, p);
      }
    }
  }

  /** A path of at least one edge starts with an edge. */
  lemma {:induction false} PathTail(g: Graph, a: Node, n: Node, p: seq<Node>)
    requires PathBetween(g, a, n, p) && |p| >= 2
    ensures p[1] in Succ(g, a) && PathBetween(g, p[1], n, p[1..])
    decreases |p|
  {
    var front := p[..|p| - 1];
    if |p| == 2 {
      assert p[1..] == [n] && p[0] == a;
    } else {
      PathTail(g, a, p[|p| - 2], front);
      assert front[1] == p[1] && p[1..][..|p| - 2] == front[1..];
    }
  }

  // ---- calls+ and callers+ -------------------------------------------------------------

  /** `callers` lists exactly the reversed `calls` edges. */
  ghost predicate Converse(calls: Graph, callers: Graph) {
    forall u, v :: v in Succ(calls, u) <==> u in Succ(callers, v)
  }

  lemma {:induction false} ReversePath(g: Graph, h: Graph, a: Node, b: Node, p: seq<Node>) returns (q: seq<Node>)
    requires (forall u, v :: v in Succ(g, u) ==> u in Succ(h, v)) && PathBetween(g, a, b, p)
    ensures PathBetween(h, b, a, q) && |q| == |p|
    decreases |p|
  {
    if |p| == 1 {
      q := [a];
    } else {
      var u := p[|p| - 2];
      PathInit(g, a, b, p);
      var r := ReversePath(g, h, a, u, p[..|p| - 1]);
      PathCons(h, b, u, a, r);
      q := [b] + r;
    }
  }

  /** The closure over callers is the converse of the closure over calls, the diagonal included. */
  lemma {:induction false} ClosuresAreConverse(calls: Graph, callers: Graph, a: Node, b: Node, reflexive: bool)
    requires Converse(calls, callers)
    ensures InClosure(calls, a, b, reflexive) <==> InClosure(callers, b, a, reflexive)
  {
    if ReachableByEdges(calls, a, b) {
      var p :| PathBetween(calls, a, b, p) && |p| >= 2;
      var q := ReversePath(calls, callers, a, b, p);
    }
    if ReachableByEdges(callers, b, a) {
      var p :| PathBetween(callers, b, a, p) && |p| >= 2;
      var q := ReversePath(callers, calls, b, a, p);
    }
  }

  /**
   The two closures as computed: they agree for distinct entities, but an entity on
   a call cycle is its own transitive caller while `calls+` never lists it.
   */
  method CompareClosures(calls: Graph, callers: Graph, a: Node, b: Node)
    returns (below: set<Node>, above: set<Node>)
    requires Converse(calls, callers)
    ensures a != b ==> (b in below <==> a in above)
    ensures a == b ==> b !in below && (a in above <==> ReachableByEdges(calls, a, a))
  {
    below := CallsClosure(calls, a, false);
    above := CallersClosure(callers, b, false);
    ClosuresAreConverse(calls, callers, a, b, false);
  }

  // ---- Dispatch targets ------------------------------------------------------------------

  /** The discovered methods that have a body, in the order of discovery. */
  function Concrete(order: seq<Entry>, pure: set<Node>): seq<Node> {
    if order == [] then []
    else
      var front, n := Concrete(order[..|order| - 1], pure), order[|order| - 1].node;
      if n in pure then front else front + [n]
  }

  /** The search has discovered `order`; the methods from head on still wait. */
  ghost predicate Searching(g: Graph, m: Node, pure: set<Node>, targets: seq<Node>, seen: set<Node>, waiting: seq<Node>,
                            order: seq<Entry>, head: nat) {
    && Awaiting(waiting, order, head)
    && seen == NodeSet(order) && targets == Concrete(order, pure)
    && Explore(g, None, order, head) == SearchOrder(g, m, None)
  }

  ghost predicate Awaiting(waiting: seq<Node>, order: seq<Entry>, head: nat) {
    head + |waiting| == |order| && forall k :: 0 <= k < |waiting| ==> waiting[k] == order[head + k].node
  }

  ghost predicate Advanced(g: Graph, before: seq<Entry>, after: seq<Entry>) {
    after == before || Targets(g) - NodeSet(after) < Targets(g) - NodeSet(before)
  }

  /**
   `dispatch_targets`: the method itself and everything that overrides it, directly
   or transitively, except pure-virtual methods, in the order of a breadth-first search;
   nothing for an unknown method.
   */
  method DispatchTargets(overriddenBy: Graph, pure: set<Node>, symbols: set<Node>, m: Node) returns (targets: seq<Node>)
    ensures targets == if m in symbols then Concrete(SearchOrder(overriddenBy, m, None), pure) else []
    ensures Searches.Distinct(targets)
    ensures forall n :: n in targets <==> m in symbols && n !in pure && Reachable(overriddenBy, m, n)
  {
    targets := [];
    if m !in symbols {
      return;
    }
    if m !in pure {
      targets := [m];
    }
    var seen, frontier := {m}, [m];
    ghost var order, head := [Origin(m)], 0;
    SearchStarts(overriddenBy, m, pure);
    while frontier != []
      invariant Searching(overriddenBy, m, pure, targets, seen, frontier, order, head)
      decreases Targets(overriddenBy) - NodeSet(order), |order| - head
    {
      targets, seen, frontier, order, head := OverrideLevel(overriddenBy, pure, m, targets, seen, frontier, order, head);
    }
    ConcreteIs(overriddenBy, m, pure);
  }

  lemma {:induction false} SearchStarts(g: Graph, m: Node, pure: set<Node>)
    ensures Searching(g, m, pure, if m in pure then [] else [m], {m}, [m], [Origin(m)], 0)
  {
    var order := [Origin(m)];
    assert order[..0] == [] && Concrete([], pure) == [];
    forall n ensures n in NodeSet(order) <==> n in {m} {
      assert Origin(m) in order;
    }
  }

  lemma {:induction false} ConcreteMembers(order: seq<Entry>, pure: set<Node>)
    requires forall i, j :: 0 <= i < j < |order| ==> order[i].node != order[j].node
    ensures Searches.Distinct(Concrete(order, pure)) && forall n :: n in Concrete(order, pure) <==> n in NodeSet(order) && n !in pure
  {
    if order != [] {
      var front, e := order[..|order| - 1], order[|order| - 1];
      ConcreteMembers(front, pure);
      assert order == front + [e];
      NodeSetAppend(front, e);
      assert e.node !in NodeSet(front);
    }
  }

  lemma {:induction false} ConcreteIs(g: Graph, m: Node, pure: set<Node>)
    ensures var targets := Concrete(SearchOrder(g, m, None), pure);
            Searches.Distinct(targets) && forall n :: n in targets <==> n !in pure && Reachable(g, m, n)
  {
    var r := SearchOrder(g, m, None);
    SearchOrderExact(g, m, None);
    ConcreteMembers(r, pure);
    assert PathBetween(g, m, m, [m]);
    forall n ensures n in NodeSet(r) <==> Reachable(g, m, n) {
      assert n in NodeSet(r) <==> n == m || InReach(g, m, n, None);
    }
  }

  /** In the midst of a level: its methods from j on wait, and those found in it behind them. */
  ghost predicate Levelling(g: Graph, m: Node, pure: set<Node>, targets: seq<Node>, seen: set<Node>, frontier: seq<Node>, j: nat,
                            nxt: seq<Node>, order: seq<Entry>, head: nat)
    requires j <= |frontier|
  {
    Searching(g, m, pure, targets, seen, frontier[j..] + nxt, order, head)
  }

  lemma {:induction false} LevelEnds(g: Graph, m: Node, pure: set<Node>, targets: seq<Node>, seen: set<Node>, frontier: seq<Node>,
                                     nxt: seq<Node>, order: seq<Entry>, head: nat)
    ensures Levelling(g, m, pure, targets, seen, frontier, 0, [], order, head)
       <==> Searching(g, m, pure, targets, seen, frontier, order, head)
    ensures Levelling(g, m, pure, targets, seen, frontier, |frontier|, nxt, order, head)
       <==> Searching(g, m, pure, targets, seen, nxt, order, head)
  {
    assert frontier[0..] + [] == frontier && frontier[|frontier|..] + nxt == nxt;
  }

  lemma {:induction false} LevelHead(g: Graph, m: Node, pure: set<Node>, targets: seq<Node>, seen: set<Node>, frontier: seq<Node>,
                                     j: nat, nxt: seq<Node>, order: seq<Entry>, head: nat)
    requires j < |frontier| && Levelling(g, m, pure, targets, seen, frontier, j, nxt, order, head)
    ensures head < |order| && frontier[j] == order[head].node && seen == NodeSet(order) && targets == Concrete(order, pure)
  {
    assert (frontier[j..] + nxt)[0] == frontier[j];
  }

  /** One level of the override search: every frontier method's direct overriders. */
  method OverrideLevel(g: Graph, pure: set<Node>, m: Node, targets0: seq<Node>, seen0: set<Node>, frontier: seq<Node>,
                       ghost order0: seq<Entry>, ghost head0: nat)
    returns (targets: seq<Node>, seen: set<Node>, nxt: seq<Node>, ghost order: seq<Entry>, ghost head: nat)
    requires Searching(g, m, pure, targets0, seen0, frontier, order0, head0)
    ensures Searching(g, m, pure, targets, seen, nxt, order, head) && head == head0 + |frontier| && Advanced(g, order0, order)
  {
    targets, seen, nxt, order, head := targets0, seen0, [], order0, head0;
    LevelEnds(g, m, pure, targets, seen, frontier, nxt, order, head);
    for j := 0 to |frontier|
      invariant head == head0 + j && Advanced(g, order0, order)
      invariant Levelling(g, m, pure, targets, seen, frontier, j, nxt, order, head)
    {
      LevelHead(g, m, pure, targets, seen, frontier, j, nxt, order, head);
      ghost var targets1, seen1 := targets, seen;
      var added;
      targets, seen, added := Overriders(g, pure, frontier[j], targets, seen, order, order[head]);
      LevelTurn(g, m, pure, targets1, seen1, targets, seen, frontier, j, nxt, added, order0, order, head);
      nxt := nxt + added;
      order, head := Expand(g, None, order, order[head]), head + 1;
    }
    LevelEnds(g, m, pure, targets, seen, frontier, nxt, order, head);
  }

  /** One method of the level expanded. */
  lemma {:induction false} LevelTurn(g: Graph, m: Node, pure: set<Node>, targets1: seq<Node>, seen1: set<Node>, targets: seq<Node>,
                                     seen: set<Node>, frontier: seq<Node>, j: nat, nxt: seq<Node>, added: seq<Node>,
                                     order0: seq<Entry>, order: seq<Entry>, head: nat)
    requires j < |frontier| && Levelling(g, m, pure, targets1, seen1, frontier, j, nxt, order, head) && head < |order|
    requires Overridden(g, pure, targets, seen, added, order, order[head]) && Advanced(g, order0, order)
    ensures var next := Expand(g, None, order, order[head]);
            && Levelling(g, m, pure, targets, seen, frontier, j + 1, nxt + added, next, head + 1)
            && Advanced(g, order0, next)
  {
    ExpandsTo(g, m, order, head);
    Requeue(frontier, j, nxt);
    ExpandQueue(frontier[j + 1..] + nxt, added, frontier[j], order, head, Expand(g, None, order, order[head]));
    Regroup(frontier[j + 1..], nxt, added);
  }

  /** What is known once the direct overriders of u have been added. */
  ghost predicate Overridden(g: Graph, pure: set<Node>, targets: seq<Node>, seen: set<Node>, added: seq<Node>, order: seq<Entry>, u: Entry) {
    var next := Expand(g, None, order, u);
    seen == NodeSet(next) && targets == Concrete(next, pure) && Adds(order, next, added)
  }

  lemma {:induction false} ExpandsTo(g: Graph, m: Node, order: seq<Entry>, head: nat)
    requires head < |order| && Explore(g, None, order, head) == SearchOrder(g, m, None)
    ensures var next := Expand(g, None, order, order[head]);
            head + 1 <= |next| && Explore(g, None, next, head + 1) == SearchOrder(g, m, None) && Advanced(g, order, next)
  {
    DiscoverProgress(g, order, order[head], 0);
  }

  lemma {:induction false} ExpandQueue(others: seq<Node>, added: seq<Node>, n: Node, order: seq<Entry>, head: nat, next: seq<Entry>)
    requires Awaiting([n] + others, order, head) && Adds(order, next, added)
    ensures Awaiting(others + added, next, head + 1)
  {
    var waiting := [n] + others;
    forall k | 0 <= k < |others + added| ensures (others + added)[k] == next[head + 1 + k].node {
      if k < |others| {
        assert waiting[k + 1] == order[head + (k + 1)].node && next[head + 1 + k] == order[head + 1 + k];
      }
    }
  }

  /** The entries of `after` behind those of `before` are of the nodes added. */
  ghost predicate Adds(before: seq<Entry>, after: seq<Entry>, added: seq<Node>) {
    before <= after && Awaiting(added, after, |before|)
  }

  lemma {:induction false} Requeue(frontier: seq<Node>, j: nat, nxt: seq<Node>)
    requires j < |frontier|
    ensures frontier[j..] + nxt == [frontier[j]] + (frontier[j + 1..] + nxt)
  {
  }

  lemma {:induction false} Regroup(a: seq<Node>, b: seq<Node>, c: seq<Node>)
    ensures a + b + c == a + (b + c)
  {
  }

  lemma {:induction false} AddOne(order0: seq<Entry>, order: seq<Entry>, added: seq<Node>, pure: set<Node>, u: Entry, d: Node)
    requires Adds(order0, order, added)
    ensures Adds(order0, order + [Found(u, d)], added + [d])
    ensures Concrete(order + [Found(u, d)], pure) == if d in pure then Concrete(order, pure) else Concrete(order, pure) + [d]
  {
    assert (order + [Found(u, d)])[..|order|] == order;
  }

  /** The direct overriders of one method that were not seen before; those with a body become targets. */
  method Overriders(g: Graph, pure: set<Node>, nid: Node, targets0: seq<Node>, seen0: set<Node>,
                    ghost order0: seq<Entry>, ghost u: Entry)
    returns (targets: seq<Node>, seen: set<Node>, added: seq<Node>)
    requires nid == u.node && seen0 == NodeSet(order0) && targets0 == Concrete(order0, pure)
    ensures Overridden(g, pure, targets, seen, added, order0, u)
  {
    targets, seen, added := targets0, seen0, [];
    var ds := Succ(g, nid);
    ghost var order, goal := order0, Discover(g, order0, u, 0);
    for i := 0 to |ds|
      invariant Searches.Remains(g, order, u, i, goal)
      invariant seen == NodeSet(order) && targets == Concrete(order, pure) && Adds(order0, order, added)
    {
      var d := ds[i];
      Searches.RemainsStep(g, order, u, i, goal);
      if d !in seen {
        seen := seen + {d};
        if d !in pure {
          targets := targets + [d];
        }
        AddOne(order0, order, added, pure, u, d);
        added := added + [d];
        order := order + [Found(u, d)];
      }
    }
  }
}
