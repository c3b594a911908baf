/**
 The bounded searches as the source runs them, each tied to the one breadth-first
 discovery order: `_bfs_path` (cxq/executor.py), `EntityNode.walk`
 (project/indexer/entity_graph.py), `Graph.walk`, `Graph.reaches` and
 `Traversal.path_to` (cidx-graph/cidx_graph/graph.py).
 */
module Searches {
  import opened Options
  import opened Reachability
  import opened BreadthFirst

  /** Looking at u's neighbours from the i-th on turns `order` into `goal`. */
  ghost predicate Remains(g: Graph, order: seq<Entry>, u: Entry, i: nat, goal: seq<Entry>) {
    Discover(g, order, u, i) == goal
  }

  lemma {:induction false} RemainsStep(g: Graph, order: seq<Entry>, u: Entry, i: nat, goal: seq<Entry>)
    requires Remains(g, order, u, i, goal) && i < |Succ(g, u.node)|
    ensures var v := Succ(g, u.node)[i];
            && (v in NodeSet(order) ==> Remains(g, order, u, i + 1, goal))
            && (v !in NodeSet(order) ==>
                  && Remains(g, order + [Found(u, v)], u, i + 1, goal)
                  && NodeSet(order + [Found(u, v)]) == NodeSet(order) + {v}
                  && Found(u, v) in goal)
  {
    var v := Succ(g, u.node)[i];
    if v !in NodeSet(order) {
      NodeSetAppend(order, Found(u, v));
      NodeSetPrefix(order + [Found(u, v)], goal);
    }
  }

  lemma {:induction false} ExploreStep(g: Graph, bound: Option<int>, order: seq<Entry>, head: nat)
    requires head < |order|
    ensures var r := Expand(g, bound, order, order[head]);
            && r <= Explore(g, bound, order, head) == Explore(g, bound, r, head + 1)
            && (r == order || Targets(g) - NodeSet(r) < Targets(g) - NodeSet(order))
  {
    DiscoverProgress(g, order, order[head], 0);
  }

  // ---- cxq: show path -----------------------------------------------------------

  /** A queue element of `_bfs_path`: an entity with the path that led to it. */
  datatype Route = Route(node: Node, path: seq<Node>)

  ghost predicate RouteOf(g: Graph, src: Node, route: Route, e: Entry) {
    route.node == e.node && PathBetween(g, src, e.node, route.path) && |route.path| - 1 == e.depth
  }

  /** The queue holds exactly the discovered entries from head on, each with a path of its depth. */
  ghost predicate Queued(g: Graph, src: Node, queue: seq<Route>, order: seq<Entry>, head: nat) {
    && head + |queue| == |order|
    && forall k :: 0 <= k < |queue| ==> RouteOf(g, src, queue[k], order[head + k])
  }

  lemma {:induction false} QueuedPop(g: Graph, src: Node, queue: seq<Route>, order: seq<Entry>, head: nat)
    requires Queued(g, src, queue, order, head) && queue != []
    ensures RouteOf(g, src, queue[0], order[head]) && Queued(g, src, queue[1..], order, head + 1)
  {
  }

  lemma {:induction false} QueuedAppend(g: Graph, src: Node, queue: seq<Route>, order: seq<Entry>, head: nat, cur: Route, u: Entry, v: Node)
    requires Queued(g, src, queue, order, head) && RouteOf(g, src, cur, u) && v in Succ(g, u.node)
    ensures PathBetween(g, src, v, cur.path + [v])
    ensures Queued(g, src, queue + [Route(v, cur.path + [v])], order + [Found(u, v)], head)
  {
    PathSnoc(g, src, u.node, v, cur.path);
  }

  /** `_bfs_path`: a real path with the fewest edges, or nothing exactly when there is no path. */
  method BfsPath(g: Graph, src: Node, dst: Node) returns (route: Option<seq<Node>>)
    ensures route.Some? ==> IsShortestPath(g, src, dst, route.value)
    ensures route.None? ==> !Reachable(g, src, dst)
  {
    assert PathBetween(g, src, src, [src]);
    if src == dst {
      return Some([src]);
    }
    var visited := {src};
    var queue := [Route(src, [src])];
    ghost var order, head := [Origin(src)], 0;
    ghost var final := SearchOrder(g, src, None);
    assert NodeSet(order) == {src} by {
      assert Origin(src) in order;
    }
    while queue != []
      invariant Queued(g, src, queue, order, head)
      invariant visited == NodeSet(order) && dst !in visited
      invariant Explore(g, None, order, head) == final
      decreases Targets(g) - NodeSet(order), |order| - head
    {
      ghost var u := order[head];
      ExploreStep(g, None, order, head);
      QueuedPop(g, src, queue, order, head);
      route, visited, queue := TryNeighbors(g, src, dst, queue[0], visited, queue[1..], order, head + 1, u);
      if route.Some? {
        return;
      }
      order, head := Discover(g, order, u, 0), head + 1;
    }
    NotFoundIsUnreachable(g, src, dst);
    return None;
  }

  /** The inner loop of `_bfs_path`: extend the popped route by each unseen neighbour, stopping at dst. */
  method TryNeighbors(g: Graph, src: Node, dst: Node, cur: Route, visited0: set<Node>, queue0: seq<Route>,
                      ghost order0: seq<Entry>, ghost head: nat, ghost u: Entry)
    returns (route: Option<seq<Node>>, visited: set<Node>, queue: seq<Route>)
    requires RouteOf(g, src, cur, u)
    requires Queued(g, src, queue0, order0, head)
    requires visited0 == NodeSet(order0) && dst !in visited0
    requires Discover(g, order0, u, 0) <= SearchOrder(g, src, None)
    ensures route.Some? ==> IsShortestPath(g, src, dst, route.value)
    ensures route.None? ==>
              && Queued(g, src, queue, Discover(g, order0, u, 0), head)
              && visited == NodeSet(Discover(g, order0, u, 0)) && dst !in visited
  {
    var neighbors := Succ(g, cur.node);
    visited, queue := visited0, queue0;
    ghost var order, goal := order0, Discover(g, order0, u, 0);
    for i := 0 to |neighbors|
      invariant Remains(g, order, u, i, goal)
      invariant Queued(g, src, queue, order, head)
      invariant visited == NodeSet(order) && dst !in visited
    {
      var nxt := neighbors[i];
      RemainsStep(g, order, u, i, goal);
      if nxt !in visited {
        QueuedAppend(g, src, queue, order, head, cur, u, nxt);
        var path := cur.path + [nxt];
        if nxt == dst {
          NodeSetPrefix(goal, SearchOrder(g, src, None));
          ShortestByDepth(g, src, dst, path, Found(u, nxt));
          route := Some(path);
          return;
        }
        visited := visited + {nxt};
        queue := queue + [Route(nxt, path)];
        order := order + [Found(u, nxt)];
      }
    }
    route := None;
  }

  lemma {:induction false} NotFoundIsUnreachable(g: Graph, src: Node, dst: Node)
    requires dst !in NodeSet(SearchOrder(g, src, None))
    ensures !Reachable(g, src, dst)
  {
    SearchOrderExact(g, src, None);
    assert Reachable(g, src, dst) ==> InReach(g, src, dst, None);
  }

  lemma {:induction false} ShortestByDepth(g: Graph, src: Node, dst: Node, path: seq<Node>, e: Entry)
    requires PathBetween(g, src, dst, path) && e.node == dst && |path| - 1 == e.depth
    requires e in SearchOrder(g, src, None)
    ensures IsShortestPath(g, src, dst, path)
  {
    SearchOrderExact(g, src, None);
    ShortestPathHasDistance(g, src, dst, path);
  }

  // ---- Entity graph: transitive walk ------------------------------------------------

  /** A `(node, depth)` pair of the walk's frontier. */
  datatype Pending = Pending(node: Node, depth: nat)

  function NodesOf(order: seq<Entry>): (nodes: seq<Node>)
    ensures |nodes| == |order|
    ensures forall i :: 0 <= i < |order| ==> nodes[i] == order[i].node
  {
    seq(|order|, i requires 0 <= i < |order| => order[i].node)
  }

  ghost predicate Distinct(nodes: seq<Node>) {
    forall i, j :: 0 <= i < j < |nodes| ==> nodes[i] != nodes[j]
  }

  /** Nothing is yielded before a node that is closer to a. */
  ghost predicate NearestFirst(g: Graph, a: Node, nodes: seq<Node>) {
    forall i, j, d :: 0 <= i < j < |nodes| && Within(g, a, nodes[j], d) ==> Within(g, a, nodes[i], d)
  }

  /** The frontier is the discovered entries from head on. */
  ghost predicate Awaits(frontier: seq<Pending>, order: seq<Entry>, head: nat) {
    && head + |frontier| == |order|
    && forall k :: 0 <= k < |frontier| ==> frontier[k] == Pending(order[head + k].node, order[head + k].depth)
  }

  lemma {:induction false} AwaitsPop(frontier: seq<Pending>, order: seq<Entry>, head: nat)
    requires Awaits(frontier, order, head) && frontier != []
    ensures frontier[0] == Pending(order[head].node, order[head].depth)
    ensures Awaits(frontier[1..], order, head + 1)
  {
    forall k | 0 <= k < |frontier| - 1
      ensures frontier[1..][k] == Pending(order[head + 1 + k].node, order[head + 1 + k].depth)
    {
      assert frontier[1..][k] == frontier[k + 1] && head + (k + 1) == head + 1 + k;
    }
  }

  /** What is out and seen is the discovery order so far; the frontier is what still waits in it. */
  ghost predicate Streamed(g: Graph, self: Node, maxDepth: Option<int>, out: seq<Node>, seen: set<Node>,
                           frontier: seq<Pending>, order: seq<Entry>, head: nat) {
    && Awaits(frontier, order, head)
    && NodeSet(order) == seen + {self} && [self] + out == NodesOf(order)
    && Explore(g, maxDepth, order, head) == SearchOrder(g, self, maxDepth)
  }

  /**
   `EntityNode.walk`: the transitive closure along one edge kind. It streams every
   entity within the depth bound once, nearest first, and never the start itself.
   */
  method EntityWalk(g: Graph, self: Node, maxDepth: Option<int>) returns (out: seq<Node>)
    ensures out == NodesOf(SearchOrder(g, self, maxDepth))[1..]
    ensures Distinct(out) && NearestFirst(g, self, out)
    ensures forall n :: n in out <==> n != self && InReach(g, self, n, maxDepth)
  {
    var seen: set<Node> := {};
    var frontier := [Pending(self, 0)];
    ghost var order, head := [Origin(self)], 0;
    out := [];
    assert NodeSet(order) == {self} by {
      assert Origin(self) in order;
    }
    while frontier != []
      invariant Streamed(g, self, maxDepth, out, seen, frontier, order, head)
      decreases Targets(g) - NodeSet(order), |order| - head
    {
      ExploreStep(g, maxDepth, order, head);
      out, seen, frontier := StreamFirst(g, self, maxDepth, out, seen, frontier, order, head);
      order, head := Expand(g, maxDepth, order, order[head]), head + 1;
    }
    WalkOrder(g, self, maxDepth, out);
  }

  /** One turn of the walk: take the first waiting entity and stream its unseen neighbours. */
  method StreamFirst(g: Graph, self: Node, maxDepth: Option<int>, out0: seq<Node>, seen0: set<Node>, frontier0: seq<Pending>,
                     ghost order: seq<Entry>, ghost head: nat)
    returns (out: seq<Node>, seen: set<Node>, frontier: seq<Pending>)
    requires Streamed(g, self, maxDepth, out0, seen0, frontier0, order, head) && frontier0 != []
    ensures Streamed(g, self, maxDepth, out, seen, frontier, Expand(g, maxDepth, order, order[head]), head + 1)
  {
    AwaitsPop(frontier0, order, head);
    out, seen, frontier := StreamNeighbors(g, self, maxDepth, frontier0[0], out0, seen0, frontier0[1..], order, head + 1,
                                           order[head]);
    StreamedOn(g, self, maxDepth, order, head);
  }

  lemma {:induction false} StreamedOn(g: Graph, self: Node, maxDepth: Option<int>, order: seq<Entry>, head: nat)
    requires head < |order| && Explore(g, maxDepth, order, head) == SearchOrder(g, self, maxDepth)
    ensures var next := Expand(g, maxDepth, order, order[head]);
            head + 1 <= |next| && Explore(g, maxDepth, next, head + 1) == SearchOrder(g, self, maxDepth)
  {
    ExploreStep(g, maxDepth, order, head);
  }

  /** One turn of the walk: nothing at the depth bound, else yield and enqueue each unseen neighbour. */
  method StreamNeighbors(g: Graph, self: Node, maxDepth: Option<int>, cur: Pending, out0: seq<Node>, seen0: set<Node>,
                         frontier0: seq<Pending>, ghost order0: seq<Entry>, ghost head: nat, ghost u: Entry)
    returns (out: seq<Node>, seen: set<Node>, frontier: seq<Pending>)
    requires cur == Pending(u.node, u.depth) && Awaits(frontier0, order0, head)
    requires NodeSet(order0) == seen0 + {self} && [self] + out0 == NodesOf(order0)
    ensures var order := Expand(g, maxDepth, order0, u);
            && Awaits(frontier, order, head)
            && NodeSet(order) == seen + {self} && [self] + out == NodesOf(order)
  {
    out, seen, frontier := out0, seen0, frontier0;
    if maxDepth.Some? && cur.depth >= maxDepth.value {
      return;
    }
    var neighbors := Succ(g, cur.node);
    ghost var order, goal := order0, Discover(g, order0, u, 0);
    for i := 0 to |neighbors|
      invariant Remains(g, order, u, i, goal)
      invariant Awaits(frontier, order, head)
      invariant NodeSet(order) == seen + {self} && [self] + out == NodesOf(order)
    {
      var n := neighbors[i];
      RemainsStep(g, order, u, i, goal);
      if n != self && n !in seen {
        seen := seen + {n};
        out := out + [n];
        frontier := frontier + [Pending(n, cur.depth + 1)];
        order := order + [Found(u, n)];
      }
    }
  }

  lemma {:induction false} WalkOrder(g: Graph, self: Node, bound: Option<int>, out: seq<Node>)
    requires [self] + out == NodesOf(SearchOrder(g, self, bound))
    ensures out == NodesOf(SearchOrder(g, self, bound))[1..]
    ensures Distinct(out) && NearestFirst(g, self, out)
    ensures forall n :: n in out <==> n != self && InReach(g, self, n, bound)
  {
    var r := SearchOrder(g, self, bound);
    SearchOrderExact(g, self, bound);
    assert ([self] + out)[1..] == out;
    forall i | 0 <= i < |out| ensures out[i] == r[i + 1].node && AtDistance(g, self, out[i], r[i + 1].depth) {
      assert r[i + 1] in r && ([self] + out)[i + 1] == out[i];
    }
    MembersAfterFirst(r, self, out);
  }

  lemma {:induction false} MembersAfterFirst(r: seq<Entry>, first: Node, out: seq<Node>)
    requires [first] + out == NodesOf(r)
    requires forall i, j :: 0 <= i < j < |r| ==> r[i].node != r[j].node
    ensures forall n :: n in out <==> n != first && n in NodeSet(r)
  {
    var all := [first] + out;
    forall n ensures n in out <==> n != first && n in NodeSet(r) {
      if n in NodeSet(r) && n != first {
        var e :| e in r && e.node == n;
        var k :| 0 <= k < |r| && r[k] == e;
        assert all[k] == n;
      }
      if n in out {
        var k :| 0 <= k < |out| && out[k] == n;
        assert all[k + 1] == n && all[0] == first && r[k + 1] in r;
      }
    }
  }
}
