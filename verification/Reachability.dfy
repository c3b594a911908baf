/**
 Finite directed graphs as adjacency lists, the vocabulary every walk over the
 index is specified in: paths, reachability and shortest distances.
 */
module Reachability {

  type Node = int

  /** What a neighbour query answers for each node; a node without an entry has no neighbours. */
  type Graph = map<Node, seq<Node>>

  function Succ(g: Graph, n: Node): seq<Node> {
    if n in g then g[n] else []
  }

  /** Every node some edge points at: a finite bound on what a walk can discover. */
  function Targets(g: Graph): set<Node> {
    set n, m | n in g.Keys && m in Succ(g, n) :: m
  }

  lemma {:induction false} SuccInTargets(g: Graph, n: Node, i: nat)
    requires i < |Succ(g, n)|
    ensures Succ(g, n)[i] in Targets(g)
  {
    var m := Succ(g, n)[i];
    assert n in g.Keys && m in Succ(g, n);
  }

  /** Visiting a new neighbour leaves strictly fewer nodes to visit. */
  lemma {:induction false} Progress(g: Graph, n: Node, i: nat, visited: set<Node>)
    requires i < |Succ(g, n)| && Succ(g, n)[i] !in visited
    ensures Targets(g) - (visited + {Succ(g, n)[i]}) < Targets(g) - visited
  {
    SuccInTargets(g, n, i);
    assert Succ(g, n)[i] in Targets(g) - visited;
  }

  ghost predicate IsPath(g: Graph, p: seq<Node>) {
    p != [] && (|p| > 1 ==> p[|p| - 1] in Succ(g, p[|p| - 2]) && IsPath(g, p[..|p| - 1]))
  }

  ghost predicate PathBetween(g: Graph, a: Node, b: Node, p: seq<Node>) {
    IsPath(g, p) && p[0] == a && p[|p| - 1] == b
  }

  ghost predicate Reachable(g: Graph, a: Node, b: Node) {
    exists p :: PathBetween(g, a, b, p)
  }

  /** b is reached from a by at least one edge, so a reaches itself only around a cycle. */
  ghost predicate ReachableByEdges(g: Graph, a: Node, b: Node) {
    exists p :: PathBetween(g, a, b, p) && |p| >= 2
  }

  /** Some path of at most d edges leads from a to b. */
  ghost predicate Within(g: Graph, a: Node, b: Node, d: int) {
    exists p :: PathBetween(g, a, b, p) && |p| - 1 <= d
  }

  /** A shortest path from a to b has exactly d edges. */
  ghost predicate AtDistance(g: Graph, a: Node, b: Node, d: int) {
    Within(g, a, b, d) && !Within(g, a, b, d - 1)
  }

  /** A path no other path between its two ends is shorter than. */
  ghost predicate IsShortestPath(g: Graph, a: Node, b: Node, p: seq<Node>) {
    && PathBetween(g, a, b, p)
    && forall q :: PathBetween(g, a, b, q) ==> |p| <= |q|
  }

  ghost predicate Closed(g: Graph, s: set<Node>) {
    forall n, m :: n in s && m in Succ(g, n) ==> m in s
  }

  lemma {:induction false} PathSnoc(g: Graph, a: Node, b: Node, c: Node, p: seq<Node>)
    requires PathBetween(g, a, b, p) && c in Succ(g, b)
    ensures PathBetween(g, a, c, p + [c])
  {
    assert (p + [c])[..|p|] == p;
  }

  lemma {:induction false} PathInit(g: Graph, a: Node, b: Node, p: seq<Node>)
    requires PathBetween(g, a, b, p) && |p| > 1
    ensures PathBetween(g, a, p[|p| - 2], p[..|p| - 1])
    ensures b in Succ(g, p[|p| - 2])
  {
  }

  lemma {:induction false} PathCons(g: Graph, a: Node, b: Node, c: Node, p: seq<Node>)
    requires PathBetween(g, b, c, p) && b in Succ(g, a)
    ensures PathBetween(g, a, c, [a] + p)
    decreases |p|
  {
    if |p| == 1 {
      assert [a] + p == [a, b] && [a, b][..1] == [a];
    } else {
      PathCons(g, a, b, p[|p| - 2], p[..|p| - 1]);
      assert ([a] + p)[..|p|] == [a] + p[..|p| - 1];
    }
  }

  // ---- Distances -------------------------------------------------------------

  lemma {:induction false} WithinStart(g: Graph, a: Node)
    ensures AtDistance(g, a, a, 0)
    ensures forall b :: Within(g, a, b, 0) ==> b == a
  {
    assert PathBetween(g, a, a, [a]);
  }

  lemma {:induction false} WithinStep(g: Graph, a: Node, u: Node, v: Node, d: int)
    requires Within(g, a, u, d) && v in Succ(g, u)
    ensures Within(g, a, v, d + 1)
  {
    var p :| PathBetween(g, a, u, p) && |p| - 1 <= d;
    PathSnoc(g, a, u, v, p);
  }

  /** A node at distance d > 0 has a predecessor closer to a. */
  lemma {:induction false} WithinPredecessor(g: Graph, a: Node, v: Node, d: int) returns (u: Node)
    requires Within(g, a, v, d) && v != a
    ensures Within(g, a, u, d - 1) && v in Succ(g, u)
  {
    var p :| PathBetween(g, a, v, p) && |p| - 1 <= d;
    u := p[|p| - 2];
    PathInit(g, a, v, p);
  }

  lemma {:induction false} DistanceUnique(g: Graph, a: Node, b: Node, d: int, e: int)
    requires AtDistance(g, a, b, d) && AtDistance(g, a, b, e)
    ensures d == e
  {
  }

  /** A path with as many edges as the distance is a shortest path, and conversely. */
  lemma {:induction false} ShortestPathHasDistance(g: Graph, a: Node, b: Node, p: seq<Node>)
    requires PathBetween(g, a, b, p)
    ensures IsShortestPath(g, a, b, p) <==> AtDistance(g, a, b, |p| - 1)
  {
  }

  /** A set that holds a and is closed under edges holds everything a reaches. */
  lemma {:induction false} ClosedHoldsPath(g: Graph, s: set<Node>, a: Node, b: Node, p: seq<Node>)
    requires Closed(g, s) && a in s && PathBetween(g, a, b, p)
    ensures b in s
    decreases |p|
  {
    if |p| > 1 {
      PathInit(g, a, b, p);
      ClosedHoldsPath(g, s, a, p[|p| - 2], p[..|p| - 1]);
    }
  }
}
