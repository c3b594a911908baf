/**
 `Graph.walk`, `Graph.reaches`, `Graph.dispatch_targets` and `Traversal.path_to`
 (cidx-graph/cidx_graph/graph.py): level-by-level searches that remember parents.
 */
module GraphWalk {
  import opened Options
  import opened Reachability
  import opened BreadthFirst
  import opened Searches

  // ---- Row limits -----------------------------------------------------------------

  /** SQL `LIMIT k` on a neighbour query; a negative limit keeps every row. */
  function Limited(rows: seq<Node>, limit: int): seq<Node> {
    if 0 <= limit < |rows| then rows[..limit] else rows
  }

  /** The first rows, as many as the limit says; all of them for a negative one. */
  lemma {:induction false} LimitedRows(rows: seq<Node>, limit: int)
    ensures Limited(rows, limit) <= rows
    ensures |Limited(rows, limit)| == if limit < 0 || |rows| <= limit then |rows| else limit
  {
  }

  function LimitGraph(g: Graph, limit: int): (r: Graph)
    ensures forall n :: Succ(r, n) == Limited(Succ(g, n), limit)
  {
    map n | n in g :: Limited(g[n], limit)
  }

  // ---- Traversals ------------------------------------------------------------------

  /** Reached nodes with their depth, and the node each was first reached from; the start has no parent. */
  datatype Traversal = Traversal(depth: map<Node, nat>, parent: Option<map<Node, Node>>)

  /** n's depth is its exact distance, and its parent link is an edge from one level up. */
  ghost predicate LinkedNode(g: Graph, start: Node, depth: map<Node, nat>, parent: map<Node, Node>, n: Node)
    requires n in depth
  {
    && AtDistance(g, start, n, depth[n])
    && (n in parent <==> n != start)
    && (n in parent ==> parent[n] in depth && n in Succ(g, parent[n]) && depth[n] == depth[parent[n]] + 1)
  }

  ghost predicate Linked(g: Graph, start: Node, depth: map<Node, nat>, parent: map<Node, Node>) {
    && start in depth
    && parent.Keys <= depth.Keys
    && forall n :: n in depth ==> LinkedNode(g, start, depth, parent, n)
  }

  /** The dictionaries hold exactly what the discovery order says. */
  ghost predicate Records(order: seq<Entry>, depth: map<Node, nat>, parent: map<Node, Node>) {
    && depth.Keys == NodeSet(order) && |depth| == |order|
    && parent.Keys <= depth.Keys
    && forall e {:trigger e in order} :: e in order ==>
         && depth[e.node] == e.depth
         && e.parent == (if e.node in parent then Some(parent[e.node]) else None)
  }

  lemma {:induction false} RecordsAppend(order: seq<Entry>, depth: map<Node, nat>, parent: map<Node, Node>, u: Entry, v: Node)
    requires Records(order, depth, parent) && v !in NodeSet(order)
    ensures Records(order + [Found(u, v)], depth[v := u.depth + 1], parent[v := u.node])
  {
    NodeSetAppend(order, Found(u, v));
    assert depth[v := u.depth + 1].Keys == depth.Keys + {v};
    forall e | e in order ensures e.node in NodeSet(order) {
    }
  }

  lemma {:induction false} GrownPrefix(g: Graph, start: Node, bound: Option<int>, longer: seq<Entry>, order: seq<Entry>)
    requires Grown(g, start, bound, longer) && order != [] && order <= longer
    ensures Grown(g, start, bound, order)
    decreases |longer|
  {
    if order != longer {
      GrownPrefix(g, start, bound, longer[..|longer| - 1], order);
    }
  }

  /** Recording any prefix of a search's discovery order gives exact distances and links back to the start. */
  lemma {:induction false} RecordsAreLinked(g: Graph, start: Node, bound: Option<int>, order: seq<Entry>, depth: map<Node, nat>,
                         parent: map<Node, Node>)
    requires order != [] && order <= SearchOrder(g, start, bound) && Records(order, depth, parent)
    ensures Linked(g, start, depth, parent)
  {
    var final := SearchOrder(g, start, bound);
    SearchFinishes(g, start, bound);
    GrownPrefix(g, start, bound, final, order);
    GrownFirst(g, start, bound, order);
    assert order[0] in order;
    forall n | n in depth ensures LinkedNode(g, start, depth, parent, n) {
      EntryLinked(g, start, bound, final, order, depth, parent, n);
    }
  }

  lemma {:induction false} EntryLinked(g: Graph, start: Node, bound: Option<int>, final: seq<Entry>, order: seq<Entry>,
                    depth: map<Node, nat>, parent: map<Node, Node>, n: Node)
    requires Finished(g, start, bound, final) && order <= final && Grown(g, start, bound, order)
    requires Records(order, depth, parent) && n in depth
    ensures LinkedNode(g, start, depth, parent, n)
  {
    var e :| e in order && e.node == n;
    var i :| 0 <= i < |order| && order[i] == e;
    EntryAtDistance(g, start, bound, final, i);
    GrownFirst(g, start, bound, order);
    if i > 0 {
      var j := GrownParent(g, start, bound, order, i);
      GrownOrder(g, start, bound, order, 0, i);
      assert order[j] in order && order[j].node in NodeSet(order);
    }
  }

  // ---- Graph.walk --------------------------------------------------------------------

  /** `nodes` are the entries lo..hi of the order, all at depth d. */
  ghost predicate Slice(order: seq<Entry>, lo: nat, hi: nat, nodes: seq<Node>, d: int) {
    && lo <= hi <= |order| && |nodes| == hi - lo
    && forall k :: 0 <= k < |nodes| ==> nodes[k] == order[lo + k].node && order[lo + k].depth == d
  }

  lemma {:induction false} SliceDepth(order: seq<Entry>, lo: nat, hi: nat, nodes: seq<Node>, d: int)
    requires Slice(order, lo, hi, nodes, d)
    ensures forall i :: lo <= i < hi ==> order[i].depth == d
  {
    forall i | lo <= i < hi ensures order[i].depth == d {
      assert nodes[i - lo] == order[lo + (i - lo)].node;
    }
  }

  /** The sizes a walk may have: max_nodes, though never fewer than the two the first discovery makes. */
  ghost predicate SizeOk(size: nat, maxNodes: int) {
    size <= 2 || size <= maxNodes
  }

  /** Level d is done, uncut: the frontier is the last stretch of the discovery order. */
  ghost predicate WalkedTo(g: Graph, start: Node, d: int, maxDepth: int, maxNodes: int, depth: map<Node, nat>,
                           parent: map<Node, Node>, frontier: seq<Node>, order: seq<Entry>, lo: nat) {
    && order != [] && Records(order, depth, parent) && Slice(order, lo, |order|, frontier, d)
    && Explore(g, Some(maxDepth), order, lo) == SearchOrder(g, start, Some(maxDepth))
    && (|depth| == 1 || |depth| < maxNodes)
  }

  lemma {:induction false} StartWalking(g: Graph, start: Node, maxDepth: int, maxNodes: int)
    ensures WalkedTo(g, start, 0, maxDepth, maxNodes, map[start := 0], map[], [start], [Origin(start)], 0)
  {
    assert Origin(start) in [Origin(start)];
  }

  /**
   The level-by-level search: what it records is a prefix of the discovery order
   over the row-limited graph, and all of it unless the node limit cut it short.
   */
  method WalkLevels(g: Graph, start: Node, maxDepth: int, maxNodes: int)
    returns (depth: map<Node, nat>, parent: map<Node, Node>, ghost order: seq<Entry>)
    ensures order != [] && order <= SearchOrder(g, start, Some(maxDepth)) && Records(order, depth, parent)
    ensures order == SearchOrder(g, start, Some(maxDepth)) || |depth| >= maxNodes
    ensures SizeOk(|depth|, maxNodes)
  {
    if maxDepth < 1 {
      depth, parent, order := map[start := 0], map[], [Origin(start)];
      assert Origin(start) in order;
      ExploreAtBound(g, maxDepth, order, 0);
    } else {
      depth, parent, order := WalkUpTo(g, start, maxDepth, maxNodes);
    }
  }

  method WalkUpTo(g: Graph, start: Node, maxDepth: int, maxNodes: int)
    returns (depth: map<Node, nat>, parent: map<Node, Node>, ghost order: seq<Entry>)
    requires maxDepth >= 1
    ensures order != [] && order <= SearchOrder(g, start, Some(maxDepth)) && Records(order, depth, parent)
    ensures order == SearchOrder(g, start, Some(maxDepth)) || |depth| >= maxNodes
    ensures SizeOk(|depth|, maxNodes)
  {
    depth, parent, order := map[start := 0], map[], [Origin(start)];
    var frontier := [start];
    ghost var lo: nat := 0;
    StartWalking(g, start, maxDepth, maxNodes);
    for d := 1 to maxDepth + 1
      invariant WalkedTo(g, start, d - 1, maxDepth, maxNodes, depth, parent, frontier, order, lo)
    {
      var cut, nxt;
      ghost var base := |order|;
      cut, depth, parent, nxt, order := WalkLevel(g, start, d, maxDepth, maxNodes, depth, parent, frontier, order, lo);
      if cut || nxt == [] {
        return;
      }
      lo, frontier := base, nxt;
    }
    WalkedThrough(g, start, maxDepth, maxNodes, depth, parent, frontier, order, lo);
  }

  /** After the last level nothing is left to expand. */
  lemma {:induction false} WalkedThrough(g: Graph, start: Node, maxDepth: int, maxNodes: int, depth: map<Node, nat>,
                                         parent: map<Node, Node>, frontier: seq<Node>, order: seq<Entry>, lo: nat)
    requires WalkedTo(g, start, maxDepth, maxDepth, maxNodes, depth, parent, frontier, order, lo)
    ensures order == SearchOrder(g, start, Some(maxDepth)) && SizeOk(|depth|, maxNodes)
  {
    SliceDepth(order, lo, |order|, frontier, maxDepth);
    ExploreAtBound(g, maxDepth, order, lo);
  }

  /** One level: every frontier node's rows in turn. */
  method WalkLevel(g: Graph, start: Node, d: nat, maxDepth: int, maxNodes: int, depth0: map<Node, nat>,
                   parent0: map<Node, Node>, frontier: seq<Node>, ghost order0: seq<Entry>, ghost lo: nat)
    returns (cut: bool, depth: map<Node, nat>, parent: map<Node, Node>, nxt: seq<Node>, ghost order: seq<Entry>)
    requires 1 <= d <= maxDepth
    requires WalkedTo(g, start, d - 1, maxDepth, maxNodes, depth0, parent0, frontier, order0, lo)
    ensures cut ==> order != [] && Records(order, depth, parent) && order <= SearchOrder(g, start, Some(maxDepth))
    ensures cut ==> |depth| >= maxNodes && SizeOk(|depth|, maxNodes)
    ensures !cut ==> WalkedTo(g, start, d, maxDepth, maxNodes, depth, parent, nxt, order, |order0|)
  {
    ghost var base := |order0|;
    depth, parent, nxt, order, cut := depth0, parent0, [], order0, false;
    for j := 0 to |frontier|
      invariant !cut && order0 <= order && InLevel(g, start, d, maxDepth, maxNodes, depth, parent, nxt, order, base, lo + j)
    {
      cut, depth, parent, nxt, order :=
        WalkTurn(g, start, d, maxDepth, maxNodes, depth, parent, frontier, nxt, order0, order, lo, j);
      if cut {
        return;
      }
    }
  }

  /** Inside level d: what is recorded so far, with the search resumed at entry `at`. */
  ghost predicate InLevel(g: Graph, start: Node, d: int, maxDepth: int, maxNodes: int, depth: map<Node, nat>,
                          parent: map<Node, Node>, nxt: seq<Node>, order: seq<Entry>, base: nat, at: nat) {
    && order != [] && Recorded(order, depth, parent, base, nxt, d) && at <= |order|
    && Explore(g, Some(maxDepth), order, at) == SearchOrder(g, start, Some(maxDepth))
    && (|depth| == 1 || |depth| < maxNodes)
  }

  /** The rows of frontier node `j`. */
  method WalkTurn(g: Graph, start: Node, d: nat, maxDepth: int, maxNodes: int, depth0: map<Node, nat>,
                  parent0: map<Node, Node>, frontier: seq<Node>, nxt0: seq<Node>, ghost level: seq<Entry>,
                  ghost order0: seq<Entry>, ghost lo: nat, j: nat)
    returns (cut: bool, depth: map<Node, nat>, parent: map<Node, Node>, nxt: seq<Node>, ghost order: seq<Entry>)
    requires 1 <= d <= maxDepth && j < |frontier| && level <= order0
    requires Slice(level, lo, |level|, frontier, d - 1)
    requires InLevel(g, start, d, maxDepth, maxNodes, depth0, parent0, nxt0, order0, |level|, lo + j)
    ensures level <= order
    ensures cut ==> order != [] && Records(order, depth, parent) && order <= SearchOrder(g, start, Some(maxDepth))
    ensures cut ==> |depth| >= maxNodes && SizeOk(|depth|, maxNodes)
    ensures !cut ==> InLevel(g, start, d, maxDepth, maxNodes, depth, parent, nxt, order, |level|, lo + j + 1)
  {
    ghost var u := level[lo + j];
    LevelStep(g, maxDepth, level, order0, lo, frontier, d, j);
    cut, depth, parent, nxt, order := WalkNode(g, frontier[j], d, maxNodes, depth0, parent0, nxt0, order0, |level|, u);
  }

  /** The frontier's turn `j` expands the entry its node stands for, below the bound. */
  lemma {:induction false} LevelStep(g: Graph, maxDepth: int, order0: seq<Entry>, order: seq<Entry>, lo: nat,
                                     frontier: seq<Node>, d: nat, j: nat)
    requires Slice(order0, lo, |order0|, frontier, d - 1) && order0 <= order && j < |frontier| && 1 <= d <= maxDepth
    ensures var u := order0[lo + j]; u.node == frontier[j] && u.depth + 1 == d
    ensures var next := Discover(g, order, order0[lo + j], 0);
            && next <= Explore(g, Some(maxDepth), order, lo + j)
            && |order| <= |next|
            && Explore(g, Some(maxDepth), next, lo + j + 1) == Explore(g, Some(maxDepth), order, lo + j)
  {
    assert order[lo + j] == order0[lo + j];
    ExploreStep(g, Some(maxDepth), order, lo + j);
  }

  /** The rows of one frontier node: record each new peer, and stop as soon as the node limit is reached. */
  method WalkNode(g: Graph, nid: Node, d: nat, maxNodes: int, depth0: map<Node, nat>, parent0: map<Node, Node>,
                  nxt0: seq<Node>, ghost order0: seq<Entry>, ghost base: nat, ghost u: Entry)
    returns (cut: bool, depth: map<Node, nat>, parent: map<Node, Node>, nxt: seq<Node>, ghost order: seq<Entry>)
    requires u.node == nid && u.depth + 1 == d && order0 != []
    requires Recorded(order0, depth0, parent0, base, nxt0, d)
    requires |depth0| == 1 || |depth0| < maxNodes
    ensures order0 <= order <= Discover(g, order0, u, 0)
    ensures Recorded(order, depth, parent, base, nxt, d)
    ensures cut ==> |depth| >= maxNodes && SizeOk(|depth|, maxNodes)
    ensures !cut ==> order == Discover(g, order0, u, 0) && (|depth| == 1 || |depth| < maxNodes)
  {
    var edges := Succ(g, nid);
    ghost var goal := Discover(g, order0, u, 0);
    depth, parent, nxt, order, cut := depth0, parent0, nxt0, order0, false;
    for i := 0 to |edges|
      invariant !cut && order0 <= order && Remains(g, order, u, i, goal)
      invariant Recorded(order, depth, parent, base, nxt, d)
      invariant |depth| == 1 || |depth| < maxNodes
    {
      var peer := edges[i];
      RemainsStep(g, order, u, i, goal);
      if peer !in depth {
        RecordStep(order, depth, parent, base, nxt, d, u, peer);
        depth, parent, nxt := depth[peer := d], parent[peer := nid], nxt + [peer];
        order := order + [Found(u, peer)];
        if |depth| >= maxNodes {
          cut := true;
          return;
        }
      }
    }
  }

  /** The dictionaries and the next frontier after some rows of a level at depth d. */
  ghost predicate Recorded(order: seq<Entry>, depth: map<Node, nat>, parent: map<Node, Node>, base: nat, nxt: seq<Node>,
                           d: int) {
    Records(order, depth, parent) && Slice(order, base, |order|, nxt, d)
  }

  lemma {:induction false} RecordStep(order: seq<Entry>, depth: map<Node, nat>, parent: map<Node, Node>, base: nat, nxt: seq<Node>, d: int,
                   u: Entry, v: Node)
    requires Recorded(order, depth, parent, base, nxt, d) && v !in depth && u.depth + 1 == d
    ensures Recorded(order + [Found(u, v)], depth[v := u.depth + 1], parent[v := u.node], base, nxt + [v], d)
    ensures |depth[v := u.depth + 1]| == |depth| + 1
  {
    RecordsAppend(order, depth, parent, u, v);
  }

  /** What is recorded is a first stretch of the breadth-first discovery order. */
  ghost predicate RecordsFirst(g: Graph, start: Node, maxDepth: int, depth: map<Node, nat>, parent: map<Node, Node>) {
    exists order :: order <= SearchOrder(g, start, Some(maxDepth)) && Records(order, depth, parent)
  }

  /**
   `Graph.walk` from a symbol that may be unknown. Whatever is recorded is exact
   even when the node limit cuts the walk, and it is what comes first; uncut, it is
   everything within the depth.
   */
  method Walk(g: Graph, symbols: set<Node>, start: Node, maxDepth: int, maxNodes: int) returns (t: Traversal)
    ensures start !in symbols ==> t == Traversal(map[], None)
    ensures start in symbols ==>
              var limited := LimitGraph(g, maxNodes);
              && t.parent.Some? && Linked(limited, start, t.depth, t.parent.value)
              && RecordsFirst(limited, start, maxDepth, t.depth, t.parent.value)
              && (forall n :: n in t.depth ==> n == start || InReach(limited, start, n, Some(maxDepth)))
              && (|t.depth| < maxNodes ==>
                    forall n :: n in t.depth <==> n == start || InReach(limited, start, n, Some(maxDepth)))
              && SizeOk(|t.depth|, maxNodes)
  {
    if start !in symbols {
      return Traversal(map[], None);
    }
    var limited := LimitGraph(g, maxNodes);
    var depth, parent;
    ghost var order;
    depth, parent, order := WalkLevels(limited, start, maxDepth, maxNodes);
    RecordsAreLinked(limited, start, Some(maxDepth), order, depth, parent);
    SearchOrderExact(limited, start, Some(maxDepth));
    NodeSetPrefix(order, SearchOrder(limited, start, Some(maxDepth)));
    t := Traversal(depth, Some(parent));
  }

  /** The start and everything within the depth of it. */
  ghost predicate IsBall(g: Graph, start: Node, maxDepth: int, reached: set<Node>) {
    forall m :: m in reached <==> m == start || InReach(g, start, m, Some(maxDepth))
  }

  /** All neighbours of a node that is reached with an edge to spare are reached. */
  lemma {:induction false} OneMoreStep(g: Graph, start: Node, maxDepth: int, reached: set<Node>, u: Node, q: seq<Node>)
    requires IsBall(g, start, maxDepth, reached) && PathBetween(g, start, u, q) && |q| <= maxDepth
    ensures forall m :: m in Succ(g, u) ==> m in reached
  {
    forall m | m in Succ(g, u) ensures m in reached {
      PathSnoc(g, start, u, m, q);
      assert InReach(g, start, m, Some(maxDepth));
    }
  }

  /**
   When every neighbour list is duplicate-free, a walk that stayed below its node
   limit was not hurt by the row limit either: it covers the full graph's ball.
   */
  lemma {:induction false} UncutMeansUnlimited(g: Graph, start: Node, maxDepth: int, maxNodes: int, reached: set<Node>, n: Node, p: seq<Node>)
    requires forall u :: Distinct(Succ(g, u))
    requires IsBall(LimitGraph(g, maxNodes), start, maxDepth, reached) && |reached| < maxNodes
    requires PathBetween(g, start, n, p) && |p| - 1 <= maxDepth
    ensures PathBetween(LimitGraph(g, maxNodes), start, n, p) && n in reached
    decreases |p|
  {
    if |p| > 1 {
      var u, q := p[|p| - 2], p[..|p| - 1];
      PathInit(g, start, n, p);
      UncutMeansUnlimited(g, start, maxDepth, maxNodes, reached, u, q);
      LastStepSurvives(g, LimitGraph(g, maxNodes), start, maxDepth, maxNodes, reached, u, n, q);
      assert q + [n] == p;
    }
  }

  lemma {:induction false} LastStepSurvives(g: Graph, limited: Graph, start: Node, maxDepth: int, maxNodes: int, reached: set<Node>,
                                            u: Node, n: Node, q: seq<Node>)
    requires Succ(limited, u) == Limited(Succ(g, u), maxNodes) && Distinct(Succ(g, u)) && |reached| < maxNodes
    requires IsBall(limited, start, maxDepth, reached) && PathBetween(limited, start, u, q) && |q| <= maxDepth
    requires n in Succ(g, u)
    ensures PathBetween(limited, start, n, q + [n]) && n in reached
  {
    OneMoreStep(limited, start, maxDepth, reached, u, q);
    RowsFit(Succ(g, u), maxNodes, reached);
    PathSnoc(limited, start, u, n, q);
  }

  lemma {:induction false} RowsFit(rows: seq<Node>, limit: int, reached: set<Node>)
    requires Distinct(rows) && |reached| < limit && forall m :: m in Limited(rows, limit) ==> m in reached
    ensures Limited(rows, limit) == rows
  {
    DistinctFits(Limited(rows, limit), reached);
  }

  lemma {:induction false} DistinctFits(nodes: seq<Node>, s: set<Node>)
    requires Distinct(nodes) && forall m :: m in nodes ==> m in s
    ensures |nodes| <= |s|
    decreases |nodes|
  {
    if nodes != [] {
      var last := nodes[|nodes| - 1];
      DistinctFits(nodes[..|nodes| - 1], s - {last});
    }
  }

  // ---- Paths back to the start ---------------------------------------------------------

  function Reversed(s: seq<Node>): seq<Node> {
    if s == [] then [] else [s[|s| - 1]] + Reversed(s[..|s| - 1])
  }

  /** Follow parent links from `id` until a node without one; reversed, that is a path of exactly `depth[id]` edges. */
  method ChainTo(parent: map<Node, Node>, id: Node, ghost g: Graph, ghost start: Node, ghost depth: map<Node, nat>)
    returns (path: seq<Node>)
    requires Linked(g, start, depth, parent) && id in depth
    ensures PathBetween(g, start, id, path) && |path| - 1 == depth[id]
    ensures IsShortestPath(g, start, id, path)
  {
    var chain := [id];
    assert Reversed(chain) == [id];
    while chain[|chain| - 1] in parent
      invariant chain != [] && chain[|chain| - 1] in depth
      invariant |Reversed(chain)| == |chain| && PathBetween(g, chain[|chain| - 1], id, Reversed(chain))
      invariant |chain| - 1 + depth[chain[|chain| - 1]] == depth[id]
      decreases depth[chain[|chain| - 1]]
    {
      var par := parent[chain[|chain| - 1]];
      assert LinkedNode(g, start, depth, parent, chain[|chain| - 1]);
      PathCons(g, par, chain[|chain| - 1], id, Reversed(chain));
      assert (chain + [par])[..|chain|] == chain;
      chain := chain + [par];
    }
    assert LinkedNode(g, start, depth, parent, chain[|chain| - 1]) && LinkedNode(g, start, depth, parent, id);
    WithinStart(g, start);
    DistanceUnique(g, start, start, depth[start], 0);
    path := Reversed(chain);
    ShortestPathHasDistance(g, start, id, path);
  }

  // ---- Graph.reaches ----------------------------------------------------------------------

  /**
   `Graph.reaches`: a shortest path of at most max_depth edges, or nothing exactly
   when there is none. Edges are foreign keys into the symbol table.
   */
  method Reaches(g: Graph, symbols: set<Node>, src: Node, dst: Node, maxDepth: int) returns (path: Option<seq<Node>>)
    requires Targets(g) <= symbols
    ensures path.Some? ==> IsShortestPath(g, src, dst, path.value) && (src == dst || |path.value| - 1 <= maxDepth)
    ensures path.None? ==> src !in symbols || dst !in symbols || (src != dst && !InReach(g, src, dst, Some(maxDepth)))
  {
    if src !in symbols || dst !in symbols {
      return None;
    }
    if src == dst {
      assert PathBetween(g, src, dst, [src]);
      return Some([src]);
    }
    if maxDepth >= 1 {
      path := ReachLevels(g, src, dst, maxDepth);
    } else {
      assert !InReach(g, src, dst, Some(maxDepth));
      path := None;
    }
  }

  method ReachLevels(g: Graph, src: Node, dst: Node, maxDepth: nat) returns (path: Option<seq<Node>>)
    requires src != dst && maxDepth >= 1
    ensures path.Some? ==> IsShortestPath(g, src, dst, path.value) && |path.value| - 1 <= maxDepth
    ensures path.None? ==> !InReach(g, src, dst, Some(maxDepth))
  {
    var seen, parent, frontier := {src}, map[], [src];
    ghost var lo: nat, depth, order := 0, map[src := 0], [Origin(src)];
    StartReaching(g, src, dst, maxDepth);
    for d := 1 to maxDepth + 1
      invariant Reaching(g, src, dst, d - 1, maxDepth, seen, parent, frontier, depth, order, lo)
    {
      var found, nxt;
      ghost var base := |order|;
      found, seen, parent, nxt, depth, order :=
        ReachLevel(g, src, dst, d, maxDepth, seen, parent, frontier, depth, order, lo);
      if found {
        var chain := FoundChain(g, src, dst, maxDepth, parent, depth, order);
        return Some(chain);
      }
      lo := base;
      if nxt == [] {
        NothingLeft(g, src, dst, d, maxDepth, seen, parent, depth, order, lo);
        return None;
      }
      frontier := nxt;
    }
    LevelsExhausted(g, src, dst, maxDepth, order, lo, frontier);
    return None;
  }

  /** The chain of parents from a found target back to the source. */
  method FoundChain(g: Graph, src: Node, dst: Node, maxDepth: int, parent: map<Node, Node>, ghost depth: map<Node, nat>,
                    ghost order: seq<Entry>)
    returns (chain: seq<Node>)
    requires order != [] && order <= SearchOrder(g, src, Some(maxDepth)) && Records(order, depth, parent) && dst in depth
    ensures IsShortestPath(g, src, dst, chain) && |chain| - 1 == depth[dst]
  {
    RecordsAreLinked(g, src, Some(maxDepth), order, depth, parent);
    chain := ChainTo(parent, dst, g, src, depth);
  }

  /** When a level adds nothing, what was not found is out of reach. */
  lemma {:induction false} NothingLeft(g: Graph, src: Node, dst: Node, d: int, maxDepth: int, seen: set<Node>,
                                       parent: map<Node, Node>, depth: map<Node, nat>, order: seq<Entry>, lo: nat)
    requires Reaching(g, src, dst, d, maxDepth, seen, parent, [], depth, order, lo)
    ensures !InReach(g, src, dst, Some(maxDepth))
  {
    NotFoundIsOutOfReach(g, src, dst, maxDepth);
  }

  /** When the last level is done, what was not found is out of reach. */
  lemma {:induction false} LevelsExhausted(g: Graph, src: Node, dst: Node, maxDepth: int, order: seq<Entry>, lo: nat,
                                           frontier: seq<Node>)
    requires Slice(order, lo, |order|, frontier, maxDepth) && dst !in NodeSet(order)
    requires Explore(g, Some(maxDepth), order, lo) == SearchOrder(g, src, Some(maxDepth))
    ensures !InReach(g, src, dst, Some(maxDepth))
  {
    SliceDepth(order, lo, |order|, frontier, maxDepth);
    ExploreAtBound(g, maxDepth, order, lo);
    NotFoundIsOutOfReach(g, src, dst, maxDepth);
  }

  lemma {:induction false} NotFoundIsOutOfReach(g: Graph, src: Node, dst: Node, maxDepth: int)
    requires dst !in NodeSet(SearchOrder(g, src, Some(maxDepth)))
    ensures !InReach(g, src, dst, Some(maxDepth))
  {
    SearchOrderExact(g, src, Some(maxDepth));
  }

  ghost predicate Tracked(order: seq<Entry>, seen: set<Node>, depth: map<Node, nat>, parent: map<Node, Node>, dst: Node) {
    Records(order, depth, parent) && seen == depth.Keys && dst !in seen
  }

  /** Level d is done: the frontier is the last stretch of the discovery order, and the target is not in it. */
  ghost predicate Reaching(g: Graph, src: Node, dst: Node, d: int, maxDepth: int, seen: set<Node>, parent: map<Node, Node>,
                           frontier: seq<Node>, depth: map<Node, nat>, order: seq<Entry>, lo: nat) {
    && order != [] && Tracked(order, seen, depth, parent, dst) && Slice(order, lo, |order|, frontier, d)
    && Explore(g, Some(maxDepth), order, lo) == SearchOrder(g, src, Some(maxDepth))
  }

  lemma {:induction false} StartReaching(g: Graph, src: Node, dst: Node, maxDepth: int)
    requires src != dst
    ensures Reaching(g, src, dst, 0, maxDepth, {src}, map[], [src], map[src := 0], [Origin(src)], 0)
  {
    assert Origin(src) in [Origin(src)];
  }

  method ReachLevel(g: Graph, src: Node, dst: Node, d: nat, maxDepth: int, seen0: set<Node>, parent0: map<Node, Node>,
                    frontier: seq<Node>, ghost depth0: map<Node, nat>, ghost order0: seq<Entry>, ghost lo: nat)
    returns (found: bool, seen: set<Node>, parent: map<Node, Node>, nxt: seq<Node>, ghost depth: map<Node, nat>,
             ghost order: seq<Entry>)
    requires 1 <= d <= maxDepth && Reaching(g, src, dst, d - 1, maxDepth, seen0, parent0, frontier, depth0, order0, lo)
    ensures found ==> order != [] && Records(order, depth, parent) && order <= SearchOrder(g, src, Some(maxDepth))
    ensures found ==> dst in depth && depth[dst] == d
    ensures !found ==> Reaching(g, src, dst, d, maxDepth, seen, parent, nxt, depth, order, |order0|)
  {
    ghost var base := |order0|;
    seen, parent, nxt, depth, order, found := seen0, parent0, [], depth0, order0, false;
    for j := 0 to |frontier|
      invariant !found && order0 <= order && Tracing(g, src, dst, d, maxDepth, seen, parent, nxt, depth, order, base, lo + j)
    {
      found, seen, parent, nxt, depth, order :=
        ReachTurn(g, src, dst, d, maxDepth, seen, parent, frontier, nxt, depth, order0, order, lo, j);
      if found {
        return;
      }
    }
  }

  /** Inside level d: what is recorded so far, with the search resumed at entry `at` and the target not met. */
  ghost predicate Tracing(g: Graph, src: Node, dst: Node, d: int, maxDepth: int, seen: set<Node>, parent: map<Node, Node>,
                          nxt: seq<Node>, depth: map<Node, nat>, order: seq<Entry>, base: nat, at: nat) {
    && order != [] && Recorded(order, depth, parent, base, nxt, d) && seen == depth.Keys && dst !in seen && at <= |order|
    && Explore(g, Some(maxDepth), order, at) == SearchOrder(g, src, Some(maxDepth))
  }

  /** The peers of frontier node `j`. */
  method ReachTurn(g: Graph, src: Node, dst: Node, d: nat, maxDepth: int, seen0: set<Node>, parent0: map<Node, Node>,
                   frontier: seq<Node>, nxt0: seq<Node>, ghost depth0: map<Node, nat>, ghost level: seq<Entry>,
                   ghost order0: seq<Entry>, ghost lo: nat, j: nat)
    returns (found: bool, seen: set<Node>, parent: map<Node, Node>, nxt: seq<Node>, ghost depth: map<Node, nat>,
             ghost order: seq<Entry>)
    requires 1 <= d <= maxDepth && j < |frontier| && level <= order0 && Slice(level, lo, |level|, frontier, d - 1)
    requires Tracing(g, src, dst, d, maxDepth, seen0, parent0, nxt0, depth0, order0, |level|, lo + j)
    ensures level <= order
    ensures found ==> order != [] && Records(order, depth, parent) && order <= SearchOrder(g, src, Some(maxDepth))
    ensures found ==> dst in depth && depth[dst] == d
    ensures !found ==> Tracing(g, src, dst, d, maxDepth, seen, parent, nxt, depth, order, |level|, lo + j + 1)
  {
    ghost var u := level[lo + j];
    LevelStep(g, maxDepth, level, order0, lo, frontier, d, j);
    found, seen, parent, nxt, depth, order :=
      ReachNode(g, dst, frontier[j], d, seen0, parent0, nxt0, depth0, order0, |level|, u);
  }

  method ReachNode(g: Graph, dst: Node, nid: Node, d: nat, seen0: set<Node>, parent0: map<Node, Node>, nxt0: seq<Node>,
                   ghost depth0: map<Node, nat>, ghost order0: seq<Entry>, ghost base: nat, ghost u: Entry)
    returns (found: bool, seen: set<Node>, parent: map<Node, Node>, nxt: seq<Node>, ghost depth: map<Node, nat>,
             ghost order: seq<Entry>)
    requires u.node == nid && u.depth + 1 == d
    requires Recorded(order0, depth0, parent0, base, nxt0, d) && seen0 == depth0.Keys && dst !in seen0
    ensures order0 <= order <= Discover(g, order0, u, 0)
    ensures Recorded(order, depth, parent, base, nxt, d)
    ensures found ==> dst in depth && depth[dst] == d && order != []
    ensures !found ==> order == Discover(g, order0, u, 0) && seen == depth.Keys && dst !in seen
  {
    var peers := Succ(g, nid);
    ghost var goal := Discover(g, order0, u, 0);
    seen, parent, nxt, depth, order, found := seen0, parent0, nxt0, depth0, order0, false;
    for i := 0 to |peers|
      invariant !found && order0 <= order && Remains(g, order, u, i, goal)
      invariant Recorded(order, depth, parent, base, nxt, d)
      invariant seen == depth.Keys && dst !in seen
    {
      var peer := peers[i];
      RemainsStep(g, order, u, i, goal);
      if peer !in seen {
        RecordStep(order, depth, parent, base, nxt, d, u, peer);
        seen, parent := seen + {peer}, parent[peer := nid];
        nxt, depth, order := nxt + [peer], depth[peer := d], order + [Found(u, peer)];
        if peer == dst {
          found := true;
          return;
        }
      }
    }
  }

  /** Every edge of g is one of h. */
  ghost predicate Contained(g: Graph, h: Graph) {
    forall n, m :: HasEdge(g, n, m) ==> HasEdge(h, n, m)
  }

  predicate HasEdge(g: Graph, n: Node, m: Node) {
    m in Succ(g, n)
  }

  lemma {:induction false} PathWithin(g: Graph, h: Graph, p: seq<Node>)
    requires Contained(g, h) && IsPath(g, p)
    ensures IsPath(h, p)
    decreases |p|
  {
    if |p| > 1 {
      PathWithin(g, h, p[..|p| - 1]);
      assert HasEdge(g, p[|p| - 2], p[|p| - 1]);
    }
  }

  /**
   The two searches, each on the graph its own query answers: the one that sees more edges
   finds a path wherever the other does, and no longer a one; on one graph they agree on
   every path within the bound, and beyond it only `_bfs_path` finds one.
   */
  method ComparePaths(g: Graph, h: Graph, symbols: set<Node>, src: Node, dst: Node, maxDepth: int)
    returns (route: Option<seq<Node>>, bounded: Option<seq<Node>>)
    requires Targets(h) <= symbols && src in symbols && dst in symbols
    ensures Contained(h, g) && bounded.Some? ==> route.Some? && |route.value| <= |bounded.value|
    ensures Contained(g, h) && route.Some? && |route.value| - 1 <= maxDepth ==> bounded.Some? && |bounded.value| <= |route.value|
    ensures bounded.Some? && src != dst ==> |bounded.value| - 1 <= maxDepth
  {
    route := BfsPath(g, src, dst);
    bounded := Reaches(h, symbols, src, dst, maxDepth);
    if src == dst {
      assert PathBetween(g, src, dst, [src]) && PathBetween(h, src, dst, [src]);
    }
    if Contained(h, g) && bounded.Some? {
      PathWithin(h, g, bounded.value);
      assert PathBetween(g, src, dst, bounded.value);
    }
    if Contained(g, h) && route.Some? && |route.value| - 1 <= maxDepth {
      PathWithin(g, h, route.value);
      assert PathBetween(h, src, dst, route.value);
    }
  }

  // ---- Traversal.path_to ---------------------------------------------------------------------

  datatype PathResult = NoParents | PathFound(path: seq<Node>)

  /** `Traversal.path_to`: the discovery path to a reached symbol, [] for any other, an error without parents. */
  method PathTo(t: Traversal, id: Node, ghost g: Graph, ghost start: Node) returns (r: PathResult)
    requires t.parent.Some? ==> Linked(g, start, t.depth, t.parent.value)
    ensures r.NoParents? <==> t.parent.None?
    ensures r.PathFound? && id !in t.depth ==> r.path == []
    ensures r.PathFound? && id in t.depth ==> IsShortestPath(g, start, id, r.path) && |r.path| - 1 == t.depth[id]
  {
    if t.parent.None? {
      return NoParents;
    }
    if id !in t.depth {
      return PathFound([]);
    }
    var path := ChainTo(t.parent.value, id, g, start, t.depth);
    r := PathFound(path);
  }
}