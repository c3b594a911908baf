/**
 When the depth a call-graph walk reports is the distance from the root. The walk
 is depth-first, so the answer turns on the order of the callee lists; what is
 true for every order of them is decided here by conditions on the graph alone.
 */
module WalkDepths {
  import opened Options
  import opened Reachability
  import opened CallGraph

  // ---- Paths that repeat no node ----------------------------------------------

  ghost predicate Simple(p: seq<Node>) {
    forall i, j :: 0 <= i < j < |p| ==> p[i] != p[j]
  }

  ghost predicate SimplePath(g: Graph, a: Node, b: Node, p: seq<Node>) {
    PathBetween(g, a, b, p) && Simple(p)
  }

  lemma {:induction false} PathPrefix(g: Graph, p: seq<Node>, k: nat)
    requires IsPath(g, p) && 0 < k <= |p|
    ensures IsPath(g, p[..k])
    decreases |p|
  {
    if k == |p| {
      assert p[..k] == p;
    } else {
      PathPrefix(g, p[..|p| - 1], k);
      assert p[..|p| - 1][..k] == p[..k];
    }
  }

  lemma {:induction false} SimpleSnoc(g: Graph, a: Node, b: Node, c: Node, p: seq<Node>)
    requires SimplePath(g, a, b, p) && c in Succ(g, b) && c !in p
    ensures SimplePath(g, a, c, p + [c])
  {
    PathSnoc(g, a, b, c, p);
  }

  /** Cutting the cycles out of a path leaves a simple one that is no longer. */
  lemma {:induction false} Straighten(g: Graph, a: Node, b: Node, p: seq<Node>) returns (q: seq<Node>)
    requires PathBetween(g, a, b, p)
    ensures SimplePath(g, a, b, q) && |q| <= |p|
    decreases |p|
  {
    if |p| == 1 {
      q := p;
    } else {
      PathInit(g, a, b, p);
      var r := Straighten(g, a, p[|p| - 2], p[..|p| - 1]);
      if b in r {
        var k :| 0 <= k < |r| && r[k] == b;
        PathPrefix(g, r, k + 1);
        q := r[..k + 1];
      } else {
        SimpleSnoc(g, a, p[|p| - 2], b, r);
        q := r + [b];
      }
    }
  }

  lemma {:induction false} SimpleWithin(g: Graph, a: Node, b: Node, d: int) returns (q: seq<Node>)
    requires Within(g, a, b, d)
    ensures SimplePath(g, a, b, q) && |q| - 1 <= d
  {
    var p :| PathBetween(g, a, b, p) && |p| - 1 <= d;
    q := Straighten(g, a, b, p);
  }

  // ---- Conditions on the graph --------------------------------------------------

  /** Any two non-repeating paths from the root to one node have the same length. */
  ghost predicate LevelConsistent(g: Graph, root: Node) {
    forall p, q, n :: SimplePath(g, root, n, p) && SimplePath(g, root, n, q) ==> |p| == |q|
  }

  /** No node closer than `bound` has a non-repeating path of exactly `bound` edges from the root. */
  ghost predicate NoDetour(g: Graph, root: Node, bound: nat) {
    forall p, n :: SimplePath(g, root, n, p) && |p| - 1 == bound ==> !Within(g, root, n, bound - 1)
  }

  /** The same callees, listed in another order. */
  ghost predicate Reordered(g: Graph, h: Graph) {
    h.Keys == g.Keys && forall n :: n in g ==> multiset(h[n]) == multiset(g[n])
  }

  lemma {:induction false} SameSuccessors(g: Graph, h: Graph, n: Node, m: Node)
    requires Reordered(g, h)
    ensures m in Succ(h, n) <==> m in Succ(g, n)
  {
    if n in g {
      assert m in multiset(h[n]) <==> m in multiset(g[n]);
    }
  }

  lemma {:induction false} SamePath(g: Graph, h: Graph, p: seq<Node>)
    requires Reordered(g, h)
    ensures IsPath(h, p) <==> IsPath(g, p)
    decreases |p|
  {
    if |p| > 1 {
      SameSuccessors(g, h, p[|p| - 2], p[|p| - 1]);
      SamePath(g, h, p[..|p| - 1]);
    }
  }

  lemma {:induction false} SameDistances(g: Graph, h: Graph, a: Node, b: Node, d: int)
    requires Reordered(g, h)
    ensures Within(h, a, b, d) <==> Within(g, a, b, d)
  {
    forall p ensures PathBetween(h, a, b, p) <==> PathBetween(g, a, b, p) {
      SamePath(g, h, p);
    }
  }

  lemma {:induction false} ReorderedKeepsDetours(g: Graph, h: Graph, root: Node, bound: nat)
    requires Reordered(g, h) && NoDetour(g, root, bound)
    ensures NoDetour(h, root, bound)
  {
    forall p, n | SimplePath(h, root, n, p) && |p| - 1 == bound ensures !Within(h, root, n, bound - 1) {
      SamePath(g, h, p);
      SameDistances(g, h, root, n, bound - 1);
      assert SimplePath(g, root, n, p);
    }
  }

  lemma {:induction false} ReorderedKeepsLevels(g: Graph, h: Graph, root: Node)
    requires Reordered(g, h) && LevelConsistent(g, root)
    ensures LevelConsistent(h, root)
  {
    forall p, q, n | SimplePath(h, root, n, p) && SimplePath(h, root, n, q) ensures |p| == |q| {
      SamePath(g, h, p);
      SamePath(g, h, q);
      assert SimplePath(g, root, n, p) && SimplePath(g, root, n, q);
    }
  }

  // ---- Every step is reported along a branch of the walk ----------------------

  /** p leads from the root to s.node, repeats nothing, and each of its nodes is reported at its place on it. */
  ghost predicate Branch(g: Graph, root: Node, w: seq<Step>, s: Step, p: seq<Node>) {
    && SimplePath(g, root, s.node, p)
    && |p| - 1 == s.depth
    && forall k :: 1 <= k < |p| ==> Step(p[k], k) in w
  }

  /** A path already on the walk: n is its last node, d edges from the root, and all of it has been seen. */
  ghost predicate Trail(g: Graph, root: Node, w: seq<Step>, n: Node, d: nat, seen: set<Node>, trail: seq<Node>) {
    Branch(g, root, w, Step(n, d), trail) && forall x :: x in trail ==> x in seen
  }

  ghost predicate Subsumes(w: seq<Step>, part: seq<Step>) {
    forall s :: s in part ==> s in w
  }

  lemma {:induction false} TrailSnoc(g: Graph, root: Node, w: seq<Step>, n: Node, d: nat, seen: set<Node>, trail: seq<Node>,
                                     kid: Node)
    requires Trail(g, root, w, n, d, seen, trail) && kid in Succ(g, n) && kid !in seen && Step(kid, d + 1) in w
    ensures Trail(g, root, w, kid, d + 1, seen + {kid}, trail + [kid])
  {
    SimpleSnoc(g, root, n, kid, trail);
  }

  lemma {:induction false} PreOrderBranches(g: Graph, bound: Option<int>, root: Node, w: seq<Step>, n: Node, d: nat, i: nat,
                                            seen: set<Node>, trail: seq<Node>)
    requires Trail(g, root, w, n, d, seen, trail) && Subsumes(w, PreOrder(g, bound, n, d, i, seen).0)
    ensures forall s :: s in PreOrder(g, bound, n, d, i, seen).0 ==> exists p :: Branch(g, root, w, s, p)
    decreases Targets(g) - seen, |Kids(g, bound, n, d)| - i
  {
    var kids := Kids(g, bound, n, d);
    if i >= |kids| {
    } else if kids[i] in seen {
      PreOrderBranches(g, bound, root, w, n, d, i + 1, seen, trail);
    } else {
      KidIsTarget(g, bound, n, d, i);
      var below := PreOrder(g, bound, kids[i], d + 1, 0, seen + {kids[i]});
      assert kids[i] in Targets(g) - seen && kids[i] !in Targets(g) - below.1;
      var after := PreOrder(g, bound, n, d, i + 1, below.1);
      assert PreOrder(g, bound, n, d, i, seen).0 == [Step(kids[i], d + 1)] + below.0 + after.0;
      TrailSnoc(g, root, w, n, d, seen, trail, kids[i]);
      PreOrderBranches(g, bound, root, w, kids[i], d + 1, 0, seen + {kids[i]}, trail + [kids[i]]);
      PreOrderBranches(g, bound, root, w, n, d, i + 1, below.1, trail);
    }
  }

  lemma {:induction false} BranchOf(g: Graph, root: Node, bound: Option<int>, s: Step) returns (p: seq<Node>)
    requires OnWalk(WalkSteps(g, root, bound), root, s)
    ensures Branch(g, root, WalkSteps(g, root, bound), s, p)
  {
    var w := WalkSteps(g, root, bound);
    WithinStart(g, root);
    if s == Step(root, 0) {
      p := [root];
    } else {
      PreOrderBranches(g, bound, root, w, root, 0, 0, {root}, [root]);
      p :| Branch(g, root, w, s, p);
    }
  }

  // ---- Depth is distance on a level-consistent graph ----------------------------

  lemma {:induction false} DepthIsDistance(g: Graph, root: Node, bound: Option<int>, s: Step)
    requires LevelConsistent(g, root) && OnWalk(WalkSteps(g, root, bound), root, s)
    ensures AtDistance(g, root, s.node, s.depth)
  {
    var p := BranchOf(g, root, bound, s);
    if Within(g, root, s.node, s.depth - 1) {
      var q := SimpleWithin(g, root, s.node, s.depth - 1);
    }
  }

  // ---- A callee order that makes the walk follow a given path --------------------

  /** s without the first occurrence of x. */
  function Without(s: seq<Node>, x: Node): seq<Node> {
    if s == [] then [] else if s[0] == x then s[1..] else [s[0]] + Without(s[1..], x)
  }

  function Foremost(s: seq<Node>, x: Node): seq<Node> {
    if x in s then [x] + Without(s, x) else s
  }

  lemma {:induction false} ForemostKeepsAll(s: seq<Node>, x: Node)
    ensures multiset(Foremost(s, x)) == multiset(s)
  {
    if x in s {
      if s[0] == x {
        assert s == [x] + s[1..];
      } else {
        assert x in s[1..];
        ForemostKeepsAll(s[1..], x);
        assert s == [s[0]] + s[1..];
        assert multiset([x] + Without(s[1..], x)) == multiset(s[1..]);
        assert [x] + Without(s, x) == [x] + ([s[0]] + Without(s[1..], x));
      }
    }
  }

  /** The node after n on the path. */
  function Following(p: seq<Node>, n: Node): Option<Node> {
    if |p| < 2 then None else if p[0] == n then Some(p[1]) else Following(p[1..], n)
  }

  lemma {:induction false} FollowingAt(p: seq<Node>, i: nat)
    requires Simple(p) && i + 1 < |p|
    ensures Following(p, p[i]) == Some(p[i + 1])
  {
    if i > 0 {
      FollowingAt(p[1..], i - 1);
    }
  }

  /** The callee lists of g with the next node of the path put first in each list along it. */
  function Steered(g: Graph, p: seq<Node>): Graph {
    map n | n in g :: match Following(p, n)
                      case Some(m) => Foremost(g[n], m)
                      case None => g[n]
  }

  lemma {:induction false} SteeredIsReordered(g: Graph, p: seq<Node>)
    ensures Reordered(g, Steered(g, p))
  {
    forall n | n in g ensures multiset(Steered(g, p)[n]) == multiset(g[n]) {
      match Following(p, n)
      case Some(m) => ForemostKeepsAll(g[n], m);
      case None =>
    }
  }

  lemma {:induction false} SteeredFirst(g: Graph, p: seq<Node>, i: nat)
    requires IsPath(g, p) && Simple(p) && i + 1 < |p|
    ensures Succ(Steered(g, p), p[i]) != [] && Succ(Steered(g, p), p[i])[0] == p[i + 1]
  {
    FollowingAt(p, i);
    PathPrefix(g, p, i + 2);
    assert p[..i + 2][i] == p[i] && p[..i + 2][i + 1] == p[i + 1];
  }

  /** Each node of the path is the first callee of the node before it. */
  ghost predicate Leads(h: Graph, p: seq<Node>) {
    |p| > 1 ==> Succ(h, p[0]) != [] && Succ(h, p[0])[0] == p[1] && Leads(h, p[1..])
  }

  lemma {:induction false} SteeredLeads(g: Graph, p: seq<Node>, i: nat)
    requires IsPath(g, p) && Simple(p) && i < |p|
    ensures Leads(Steered(g, p), p[i..])
    decreases |p| - i
  {
    if i + 1 < |p| {
      SteeredFirst(g, p, i);
      SteeredLeads(g, p, i + 1);
      assert p[i..][1..] == p[i + 1..];
    }
  }

  /** The walk goes down such a path without a turn. */
  lemma {:induction false} FollowsPath(h: Graph, p: seq<Node>, bound: Option<int>, d: nat, seen: set<Node>)
    requires Leads(h, p) && Simple(p) && |p| > 1
    requires forall x :: x in p[1..] ==> x !in seen
    requires bound.Some? ==> d + |p| - 1 <= bound.value
    ensures Step(p[|p| - 1], d + |p| - 1) in PreOrder(h, bound, p[0], d, 0, seen).0
    decreases |p|
  {
    assert p[1] in p[1..];
    FirstKidFirst(h, bound, p[0], d, p[1], seen);
    if |p| > 2 {
      forall x | x in p[1..][1..] ensures x !in seen + {p[1]} {
        assert x in p[1..];
      }
      FollowsPath(h, p[1..], bound, d + 1, seen + {p[1]});
    }
  }

  lemma {:induction false} FirstKidFirst(h: Graph, bound: Option<int>, n: Node, d: nat, kid: Node, seen: set<Node>)
    requires Kids(h, bound, n, d) != [] && Kids(h, bound, n, d)[0] == kid && kid !in seen
    ensures Step(kid, d + 1) in PreOrder(h, bound, n, d, 0, seen).0
    ensures forall s :: s in PreOrder(h, bound, kid, d + 1, 0, seen + {kid}).0 ==> s in PreOrder(h, bound, n, d, 0, seen).0
  {
    KidIsTarget(h, bound, n, d, 0);
    var below := PreOrder(h, bound, kid, d + 1, 0, seen + {kid});
    assert kid in Targets(h) - seen && kid !in Targets(h) - below.1;
    var after := PreOrder(h, bound, n, d, 1, below.1);
    assert PreOrder(h, bound, n, d, 0, seen).0 == [Step(kid, d + 1)] + below.0 + after.0;
  }

  /** Every non-repeating path is the branch some order of the callees reports its last node on. */
  lemma {:induction false} SomeOrderTakesPath(g: Graph, root: Node, n: Node, p: seq<Node>, bound: Option<int>)
    requires SimplePath(g, root, n, p) && |p| > 1
    requires bound.Some? ==> |p| - 1 <= bound.value
    ensures Reordered(g, Steered(g, p))
    ensures Step(n, |p| - 1) in WalkSteps(Steered(g, p), root, bound)
  {
    SteeredIsReordered(g, p);
    SteeredLeads(g, p, 0);
    assert p[0..] == p;
    LedWalkTakesPath(Steered(g, p), root, p, bound);
  }

  lemma {:induction false} LedWalkTakesPath(h: Graph, root: Node, p: seq<Node>, bound: Option<int>)
    requires Leads(h, p) && Simple(p) && |p| > 1 && p[0] == root
    requires bound.Some? ==> |p| - 1 <= bound.value
    ensures Step(p[|p| - 1], |p| - 1) in WalkSteps(h, root, bound)
  {
    forall x | x in p[1..] ensures x !in {root} {
      var k :| 1 <= k < |p| && p[k] == x;
    }
    FollowsPath(h, p, bound, 0, {root});
  }

  // ---- The exact conditions, for every order of the callees ------------------------

  /** Every depth an unbounded walk of h reports is the distance in g. */
  ghost predicate DepthsAreDistances(g: Graph, h: Graph, root: Node) {
    forall s :: s in WalkSteps(h, root, None) ==> AtDistance(g, root, s.node, s.depth)
  }

  /**
   The documentation calls `depth` the distance in call edges from the root. That
   holds for every order of the callee lists exactly when the graph is
   level-consistent: otherwise an order that puts the longer path first breaks it.
   */
  lemma {:induction false} DepthIsDistanceIff(g: Graph, root: Node)
    ensures (forall h :: Reordered(g, h) ==> DepthsAreDistances(g, h, root)) <==> LevelConsistent(g, root)
  {
    if LevelConsistent(g, root) {
      forall h | Reordered(g, h) ensures DepthsAreDistances(g, h, root) {
        LevelsGiveDistances(g, h, root);
      }
    }
    if forall h :: Reordered(g, h) ==> DepthsAreDistances(g, h, root) {
      forall p, q, n | SimplePath(g, root, n, p) && SimplePath(g, root, n, q) ensures |p| == |q| {
        if |p| > |q| {
          LongerPathFirst(g, root, n, p, q);
        } else if |q| > |p| {
          LongerPathFirst(g, root, n, q, p);
        }
      }
    }
  }

  lemma {:induction false} LevelsGiveDistances(g: Graph, h: Graph, root: Node)
    requires LevelConsistent(g, root) && Reordered(g, h)
    ensures DepthsAreDistances(g, h, root)
  {
    ReorderedKeepsLevels(g, h, root);
    forall s | s in WalkSteps(h, root, None) ensures AtDistance(g, root, s.node, s.depth) {
      DepthIsDistance(h, root, None, s);
      SameDistances(g, h, root, s.node, s.depth);
      SameDistances(g, h, root, s.node, s.depth - 1);
    }
  }

  /** Of two paths to one node, putting the longer first reports a depth that is not the distance. */
  lemma {:induction false} LongerPathFirst(g: Graph, root: Node, n: Node, longer: seq<Node>, shorter: seq<Node>)
    requires SimplePath(g, root, n, longer) && SimplePath(g, root, n, shorter) && |longer| > |shorter|
    ensures Reordered(g, Steered(g, longer)) && !DepthsAreDistances(g, Steered(g, longer), root)
  {
    SomeOrderTakesPath(g, root, n, longer, None);
    assert Within(g, root, n, |longer| - 2);
    assert !AtDistance(g, root, Step(n, |longer| - 1).node, Step(n, |longer| - 1).depth);
  }

  // ---- The bounded walk ---------------------------------------------------------------

  /** n is met before the bound, so its callees are looked at. */
  ghost predicate IsExpanded(h: Graph, root: Node, bound: nat, n: Node) {
    exists s :: OnWalk(WalkSteps(h, root, Some(bound)), root, s) && s.node == n && s.depth < bound
  }

  ghost predicate ExpandsBall(g: Graph, h: Graph, root: Node, bound: nat) {
    forall n :: Within(g, root, n, bound - 1) ==> IsExpanded(h, root, bound, n)
  }

  ghost predicate CoversBall(g: Graph, h: Graph, root: Node, bound: nat) {
    forall n :: Within(g, root, n, bound) ==> Reached(WalkSteps(h, root, Some(bound)), root, n)
  }

  /** Without detours no node closer than the bound is met at it. */
  lemma {:induction false} MetBeforeBound(g: Graph, root: Node, bound: nat, s: Step)
    requires NoDetour(g, root, bound) && OnWalk(WalkSteps(g, root, Some(bound)), root, s)
    requires Within(g, root, s.node, bound - 1)
    ensures s.depth < bound
  {
    var p := BranchOf(g, root, Some(bound), s);
    WalkIsSound(g, root, Some(bound));
    assert s in WalkSteps(g, root, Some(bound)) ==> Witnessed(g, Some(bound), root, 0, s);
    var q :| PathBetween(g, root, s.node, q) && |q| - 1 <= bound - 1;
    assert |q| >= 1;
  }

  lemma {:induction false} ReachesBall(g: Graph, root: Node, bound: nat, n: Node, k: nat)
    requires NoDetour(g, root, bound) && Within(g, root, n, k) && k <= bound
    ensures Reached(WalkSteps(g, root, Some(bound)), root, n)
    decreases k
  {
    var w := WalkSteps(g, root, Some(bound));
    if n != root {
      var u := WithinPredecessor(g, root, n, k);
      var r :| PathBetween(g, root, u, r) && |r| - 1 <= k - 1;
      assert Within(g, root, u, bound - 1);
      ReachesBall(g, root, bound, u, k - 1);
      var s := StepOf(w, root, u);
      MetBeforeBound(g, root, bound, s);
      WalkExpands(g, root, Some(bound));
      assert n in Kids(g, Some(bound), s.node, s.depth);
    }
  }

  lemma {:induction false} NoDetourExpands(g: Graph, h: Graph, root: Node, bound: nat)
    requires Reordered(g, h) && NoDetour(g, root, bound)
    ensures ExpandsBall(g, h, root, bound) && CoversBall(g, h, root, bound)
  {
    ReorderedKeepsDetours(g, h, root, bound);
    var w := WalkSteps(h, root, Some(bound));
    forall n | Within(g, root, n, bound) ensures Reached(w, root, n) {
      SameDistances(g, h, root, n, bound);
      ReachesBall(h, root, bound, n, bound);
    }
    forall n | Within(g, root, n, bound - 1) ensures IsExpanded(h, root, bound, n) {
      SameDistances(g, h, root, n, bound - 1);
      var r :| PathBetween(h, root, n, r) && |r| - 1 <= bound - 1;
      assert Within(h, root, n, bound);
      ReachesBall(h, root, bound, n, bound);
      var s := StepOf(w, root, n);
      MetBeforeBound(h, root, bound, s);
    }
  }

  /** A node is reported once, so a step at the bound is the only one of its node. */
  lemma {:induction false} OnlyStep(g: Graph, root: Node, bound: Option<int>, s: Step, t: Step)
    requires s in WalkSteps(g, root, bound) && OnWalk(WalkSteps(g, root, bound), root, t) && s.node == t.node
    ensures s == t
  {
    var w := WalkSteps(g, root, bound);
    WalkIsSound(g, root, bound);
    assert s.node in Nodes(w);
    if t in w {
      OnceInSteps(w, s, t);
    }
  }

  lemma {:induction false} OnceInSteps(w: seq<Step>, s: Step, t: Step)
    requires EachOnce(w) && s in w && t in w && s.node == t.node
    ensures s == t
  {
    var i :| 0 <= i < |w| && w[i] == s;
    var j :| 0 <= j < |w| && w[j] == t;
    assert i == j;
  }

  lemma {:induction false} DetourBlocks(g: Graph, root: Node, bound: nat, n: Node, p: seq<Node>)
    requires SimplePath(g, root, n, p) && |p| - 1 == bound && Within(g, root, n, bound - 1)
    ensures Reordered(g, Steered(g, p)) && !ExpandsBall(g, Steered(g, p), root, bound)
  {
    var h := Steered(g, p);
    var q :| PathBetween(g, root, n, q) && |q| - 1 <= bound - 1;
    assert |q| >= 1;
    SomeOrderTakesPath(g, root, n, p, Some(bound));
    forall s | OnWalk(WalkSteps(h, root, Some(bound)), root, s) && s.node == n ensures s.depth == bound {
      OnlyStep(h, root, Some(bound), Step(n, bound), s);
    }
    assert !IsExpanded(h, root, bound, n);
  }

  /**
   With a bound N, every node closer than N is expanded whatever the order of the
   callees exactly when no such node has a detour of N edges.
   */
  lemma {:induction false} BallIsExpandedIff(g: Graph, root: Node, bound: nat)
    ensures (forall h :: Reordered(g, h) ==> ExpandsBall(g, h, root, bound)) <==> NoDetour(g, root, bound)
  {
    if NoDetour(g, root, bound) {
      forall h | Reordered(g, h) ensures ExpandsBall(g, h, root, bound) {
        NoDetourExpands(g, h, root, bound);
      }
    }
    if forall h :: Reordered(g, h) ==> ExpandsBall(g, h, root, bound) {
      forall p, n | SimplePath(g, root, n, p) && |p| - 1 == bound ensures !Within(g, root, n, bound - 1) {
        if Within(g, root, n, bound - 1) {
          DetourBlocks(g, root, bound, n, p);
        }
      }
    }
  }

  /** Without detours the bounded walk covers the ball of radius N, in any order. */
  lemma {:induction false} NoDetourCovers(g: Graph, root: Node, bound: nat)
    requires NoDetour(g, root, bound)
    ensures forall h :: Reordered(g, h) ==> CoversBall(g, h, root, bound)
  {
    forall h | Reordered(g, h) ensures CoversBall(g, h, root, bound) {
      NoDetourExpands(g, h, root, bound);
    }
  }

  /**
   A detour to u of N edges hides a callee v of u that every short path enters
   through u: some order of the callees leaves v out although it is within N edges.
   */
  lemma {:induction false} DetourHidesCallee(g: Graph, root: Node, bound: nat, u: Node, p: seq<Node>, v: Node)
    requires SimplePath(g, root, u, p) && |p| - 1 == bound && Within(g, root, u, bound - 1)
    requires v in Succ(g, u) && v != u
    requires forall q :: SimplePath(g, root, v, q) && |q| - 1 <= bound ==> u in q
    ensures exists h :: Reordered(g, h) && !CoversBall(g, h, root, bound)
  {
    var h := Steered(g, p);
    var r :| PathBetween(g, root, u, r) && |r| - 1 <= bound - 1;
    assert v != root by {
      WithinStart(g, root);
      assert SimplePath(g, root, root, [root]);
    }
    SomeOrderTakesPath(g, root, u, p, Some(bound));
    WithinStep(g, root, u, v, bound - 1);
    if Reached(WalkSteps(h, root, Some(bound)), root, v) {
      var s := StepOf(WalkSteps(h, root, Some(bound)), root, v);
      var q := BranchAvoidsCutNode(g, h, root, bound, u, s);
    }
  }

  /** When u itself is only met at the bound, everything else is reported along a path without u. */
  lemma {:induction false} BranchAvoidsCutNode(g: Graph, h: Graph, root: Node, bound: nat, u: Node, s: Step) returns (q: seq<Node>)
    requires Reordered(g, h) && Step(u, bound) in WalkSteps(h, root, Some(bound))
    requires s in WalkSteps(h, root, Some(bound)) && s.node != u
    ensures SimplePath(g, root, s.node, q) && |q| - 1 <= bound && u !in q
  {
    WalkIsSound(h, root, Some(bound));
    assert Witnessed(h, Some(bound), root, 0, s);
    q := BranchOf(h, root, Some(bound), s);
    SamePath(g, h, q);
    forall k | 0 <= k < |q| ensures q[k] != u {
      CutNodeOffBranch(h, root, bound, u, s, q, k);
    }
  }

  lemma {:induction false} CutNodeOffBranch(h: Graph, root: Node, bound: nat, u: Node, s: Step, q: seq<Node>, k: nat)
    requires Step(u, bound) in WalkSteps(h, root, Some(bound)) && s.node != u && s.depth <= bound
    requires Branch(h, root, WalkSteps(h, root, Some(bound)), s, q) && k < |q|
    ensures q[k] != u
  {
    if q[k] == u {
      assert OnWalk(WalkSteps(h, root, Some(bound)), root, Step(q[k], k));
      OnlyStep(h, root, Some(bound), Step(u, bound), Step(q[k], k));
    }
  }

  // ---- Every bound at once --------------------------------------------------------------

  /** The walk bounded by N yields exactly the ball of radius N without the root, each node at its distance. */
  ghost predicate WalkIsBall(g: Graph, h: Graph, root: Node, bound: nat) {
    && (forall n :: n in Nodes(WalkSteps(h, root, Some(bound))) <==> n != root && Within(g, root, n, bound))
    && (forall s :: s in WalkSteps(h, root, Some(bound)) ==> AtDistance(g, root, s.node, s.depth))
  }

  lemma {:induction false} LevelsHaveNoDetour(g: Graph, root: Node, bound: nat)
    requires LevelConsistent(g, root)
    ensures NoDetour(g, root, bound)
  {
    forall p, n | SimplePath(g, root, n, p) && |p| - 1 == bound ensures !Within(g, root, n, bound - 1) {
      if Within(g, root, n, bound - 1) {
        var q := SimpleWithin(g, root, n, bound - 1);
      }
    }
  }

  lemma {:induction false} LevelsGiveBall(g: Graph, h: Graph, root: Node, bound: nat)
    requires LevelConsistent(g, root) && Reordered(g, h)
    ensures WalkIsBall(g, h, root, bound)
  {
    var w := WalkSteps(h, root, Some(bound));
    LevelsHaveNoDetour(g, root, bound);
    NoDetourExpands(g, h, root, bound);
    ReorderedKeepsLevels(g, h, root);
    WalkIsSound(h, root, Some(bound));
    forall s | s in w ensures AtDistance(g, root, s.node, s.depth) && Within(g, root, s.node, bound) && s.node != root {
      assert s.node in Nodes(w) && Witnessed(h, Some(bound), root, 0, s);
      DepthIsDistance(h, root, Some(bound), s);
      SameDistances(g, h, root, s.node, s.depth);
      SameDistances(g, h, root, s.node, s.depth - 1);
      var p :| PathBetween(g, root, s.node, p) && |p| - 1 <= s.depth;
    }
  }

  /** For every bound and every order the walk is the ball with its distances exactly on level-consistent graphs. */
  lemma {:induction false} BoundedWalkIsBallIff(g: Graph, root: Node)
    ensures (forall h, bound: nat :: Reordered(g, h) ==> WalkIsBall(g, h, root, bound)) <==> LevelConsistent(g, root)
  {
    if LevelConsistent(g, root) {
      forall h, bound: nat | Reordered(g, h) ensures WalkIsBall(g, h, root, bound) {
        LevelsGiveBall(g, h, root, bound);
      }
    }
    if forall h, bound: nat :: Reordered(g, h) ==> WalkIsBall(g, h, root, bound) {
      forall p, q, n | SimplePath(g, root, n, p) && SimplePath(g, root, n, q) ensures |p| == |q| {
        if |p| > |q| {
          LongerPathBounded(g, root, n, p, q);
        } else if |q| > |p| {
          LongerPathBounded(g, root, n, q, p);
        }
      }
    }
  }

  lemma {:induction false} LongerPathBounded(g: Graph, root: Node, n: Node, longer: seq<Node>, shorter: seq<Node>)
    requires SimplePath(g, root, n, longer) && SimplePath(g, root, n, shorter) && |longer| > |shorter|
    ensures Reordered(g, Steered(g, longer)) && !WalkIsBall(g, Steered(g, longer), root, |longer| - 1)
  {
    SomeOrderTakesPath(g, root, n, longer, Some(|longer| - 1));
    assert Within(g, root, n, |longer| - 2);
    assert !AtDistance(g, root, Step(n, |longer| - 1).node, Step(n, |longer| - 1).depth);
  }
}
