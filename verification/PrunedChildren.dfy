/**
 * The children the devirtualised walks step to, stated from the index and the receiver's set
 * at the first call site alone: which nodes they are, and in which order they come.
 */
module PrunedChildren {
  import opened Devirtualization
  import opened Options
  import opened Provenance
  import opened Reachability

  predicate Selects(s: Selection, classes: set<Usr>) {
    s.selecting.Some? && s.selecting.value in classes
  }

  /** The candidates the first call site of the edge keeps, when it keeps only some: their classes. */
  ghost predicate NarrowedTo(w: World, closed: bool, gamma: Gamma, n: Node, c: Node, classes: set<Usr>) {
    && c in w.dispatch && w.dispatch[c].prunable
    && (n, c) in w.sites && w.sites[(n, c)] != []
    && GammaForSite(w, closed, gamma, n, w.sites[(n, c)][0]) == Types(classes)
    && exists s :: s in w.dispatch[c].candidates && Selects(s, classes)
  }

  /** A decision keeps all targets unless the method may be narrowed and a finite set selects some candidate. */
  lemma {:induction false} DecidesIff(w: World, closed: bool, gamma: Gamma, ctx: Usr, site: Site, d: Dispatch)
    ensures var ts, r := GammaForSite(w, closed, gamma, ctx, site), Decide(w, closed, gamma, ctx, site, d);
            && (r.Some? <==> d.prunable && ts.Types? && exists s :: s in d.candidates && Selects(s, ts.classes))
            && (r.Some? ==> forall s :: s in r.value <==> s in d.candidates && Selects(s, ts.classes))
  {
    var ts := GammaForSite(w, closed, gamma, ctx, site);
    if ts.Types? {
      var kept := Feasible(d.candidates, ts.classes);
      forall s ensures s in kept <==> s in d.candidates && Selects(s, ts.classes) {
        FeasibleExact(d.candidates, ts.classes, s);
      }
      if kept != [] {
        assert kept[0] in kept;
      }
    }
  }

  // ---- Which nodes -----------------------------------------------------------------------

  /** t is a candidate's target that the classes select. */
  ghost predicate Chosen(w: World, c: Node, classes: set<Usr>, t: Node)
    requires c in w.dispatch
  {
    exists s :: s in w.dispatch[c].candidates && Selects(s, classes) && s.target == t
  }

  /** t follows the static callee c: c itself, and for a virtual one its chosen targets, or all of them. */
  ghost predicate Follows(w: World, closed: bool, gamma: Gamma, n: Node, c: Node, t: Node) {
    || t == c
    || (c in w.virtuals && (exists classes :: NarrowedTo(w, closed, gamma, n, c, classes) && Chosen(w, c, classes, t)))
    || (c in w.virtuals && !(exists classes :: NarrowedTo(w, closed, gamma, n, c, classes)) && t in Succ(w.targets, c))
  }

  lemma {:induction false} TargetsOfIff(kept: seq<Selection>, t: Node)
    ensures t in TargetsOf(kept) <==> exists s :: s in kept && s.target == t
  {
    if t in TargetsOf(kept) {
      var i :| 0 <= i < |kept| && TargetsOf(kept)[i] == t;
      assert kept[i] in kept;
    }
    if exists s :: s in kept && s.target == t {
      var s :| s in kept && s.target == t;
      var i :| 0 <= i < |kept| && kept[i] == s;
      assert TargetsOf(kept)[i] == t;
    }
  }

  /** What the edge's decision is, in terms of the index. */
  lemma {:induction false} EdgeDecides(w: World, closed: bool, gamma: Gamma, n: Node, c: Node, t: Node)
    requires c in w.dispatch
    ensures var r := EdgeDecision(w, closed, gamma, n, SitesAt(w, n, c), w.dispatch[c]);
            && (r.Some? <==> exists classes :: NarrowedTo(w, closed, gamma, n, c, classes))
            && (r.Some? ==> (t in TargetsOf(r.value)
                             <==> exists classes :: NarrowedTo(w, closed, gamma, n, c, classes) && Chosen(w, c, classes, t)))
  {
    var sites := SitesAt(w, n, c);
    if sites != [] {
      DecidesIff(w, closed, gamma, n, sites[0], w.dispatch[c]);
      var ts, r := GammaForSite(w, closed, gamma, n, sites[0]), Decide(w, closed, gamma, n, sites[0], w.dispatch[c]);
      if r.Some? {
        assert NarrowedTo(w, closed, gamma, n, c, ts.classes);
        TargetsOfIff(r.value, t);
        assert t in TargetsOf(r.value) <==> Chosen(w, c, ts.classes, t);
      }
    }
  }

  lemma {:induction false} FollowsIff(w: World, closed: bool, gamma: Gamma, n: Node, c: Node, t: Node)
    ensures t in PrunedCallee(w, closed, gamma, n, c) <==> Follows(w, closed, gamma, n, c, t)
  {
    if c in w.virtuals && t != c {
      var kept := if c in w.dispatch then EdgeDecision(w, closed, gamma, n, SitesAt(w, n, c), w.dispatch[c]) else None;
      if c in w.dispatch {
        EdgeDecides(w, closed, gamma, n, c, t);
      }
      WithoutMembers(if kept.None? then Succ(w.targets, c) else TargetsOf(kept.value), c, t);
    }
  }

  lemma {:induction false} KidsIff(w: World, closed: bool, gamma: Gamma, n: Node, callees: seq<Node>, t: Node)
    ensures t in PrunedKids(w, closed, gamma, n, callees) <==> exists c :: c in callees && Follows(w, closed, gamma, n, c, t)
    decreases |callees|
  {
    if callees != [] {
      var front, last := callees[..|callees| - 1], callees[|callees| - 1];
      KidsIff(w, closed, gamma, n, front, t);
      FollowsIff(w, closed, gamma, n, last, t);
      assert forall c :: c in callees <==> c in front || c == last;
    }
  }

  /** The pruned walk steps from n to exactly the static callees of n and what follows them. */
  lemma {:induction false} PrunedChildIff(w: World, closed: bool, gamma: Gamma, n: Node, t: Node)
    ensures t in Succ(PrunedGraph(w, closed, gamma), n)
       <==> exists c :: c in Succ(w.callees, n) && Follows(w, closed, gamma, n, c, t)
  {
    if n in w.callees {
      KidsIff(w, closed, gamma, n, w.callees[n], t);
    }
  }

  lemma {:induction false} ExpandedKidsIff(w: World, callees: seq<Node>, t: Node)
    ensures t in ExpandedKids(w, callees)
       <==> exists c :: c in callees && (t == c || (c in w.virtuals && t in Succ(w.targets, c)))
    decreases |callees|
  {
    if callees != [] {
      var front, last := callees[..|callees| - 1], callees[|callees| - 1];
      ExpandedKidsIff(w, front, t);
      assert forall c :: c in callees <==> c in front || c == last;
    }
  }

  /** Without pruning, a virtual callee is followed by all its dispatch targets, and no other callee by any. */
  lemma {:induction false} ExpandedChildIff(w: World, n: Node, t: Node)
    ensures t in Succ(ExpandedGraph(w), n)
       <==> exists c :: c in Succ(w.callees, n) && (t == c || (c in w.virtuals && t in Succ(w.targets, c)))
  {
    if n in w.callees {
      ExpandedKidsIff(w, w.callees[n], t);
    }
  }

  // ---- In which order --------------------------------------------------------------------

  /** The given positions in increasing order. */
  ghost predicate Lists(at: seq<nat>, positions: set<nat>) {
    && (forall a, b :: 0 <= a < b < |at| ==> at[a] < at[b])
    && forall i: nat :: i in at <==> i in positions
  }

  /** `part` is `whole` at these positions, in order. */
  ghost predicate PicksAt(part: seq<Node>, whole: seq<Node>, positions: set<nat>) {
    exists at: seq<nat> :: Lists(at, positions) && Reads(part, whole, at)
  }

  ghost predicate Reads(part: seq<Node>, whole: seq<Node>, at: seq<nat>) {
    |part| == |at| && forall k :: 0 <= k < |part| ==> at[k] < |whole| && part[k] == whole[at[k]]
  }

  function OtherThan(nodes: seq<Node>, c: Node): set<nat> {
    set i: nat | i < |nodes| && nodes[i] != c
  }

  function ChosenAt(candidates: seq<Selection>, classes: set<Usr>, c: Node): set<nat> {
    set i: nat | i < |candidates| && Selects(candidates[i], classes) && candidates[i].target != c
  }

  lemma {:induction false} ListOneMore(at: seq<nat>, positions: set<nat>, n: nat)
    requires Lists(at, positions) && forall i: nat :: i in positions ==> i < n
    ensures Lists(at + [n], positions + {n})
  {
    var longer := at + [n];
    forall i: nat ensures i in longer <==> i in positions + {n} {
      assert i in longer <==> i in at || i == n;
    }
    forall a, b | 0 <= a < b < |longer| ensures longer[a] < longer[b] {
      assert longer[a] == at[a] && at[a] in at;
    }
  }

  lemma {:induction false} ReadOneMore(part: seq<Node>, whole: seq<Node>, at: seq<nat>, n: Node)
    requires Reads(part, whole, at)
    ensures Reads(part, whole + [n], at)
    ensures Reads(part + [n], whole + [n], at + [|whole|])
  {
  }

  /** One more position at the end, picked or not. */
  lemma {:induction false} PickOneMore(part: seq<Node>, whole: seq<Node>, positions: set<nat>, n: Node)
    requires PicksAt(part, whole, positions) && forall i: nat :: i in positions ==> i < |whole|
    ensures PicksAt(part, whole + [n], positions)
    ensures PicksAt(part + [n], whole + [n], positions + {|whole|})
  {
    var at: seq<nat> :| Lists(at, positions) && Reads(part, whole, at);
    ListOneMore(at, positions, |whole|);
    ReadOneMore(part, whole, at, n);
  }

  lemma {:induction false} PickNone(positions: set<nat>)
    requires positions == {}
    ensures PicksAt([], [], positions)
  {
    var at: seq<nat> := [];
    assert Lists(at, positions) && Reads([], [], at);
  }

  lemma {:induction false} OtherSnoc(front: seq<Node>, n: Node, c: Node)
    ensures OtherThan(front + [n], c) == if n != c then OtherThan(front, c) + {|front|} else OtherThan(front, c)
  {
    forall i: nat
      ensures i in OtherThan(front + [n], c) <==> i in OtherThan(front, c) || (i == |front| && n != c)
    {
      assert i < |front| ==> (front + [n])[i] == front[i];
    }
  }

  lemma {:induction false} WithoutInOrder(nodes: seq<Node>, c: Node)
    ensures PicksAt(Without(nodes, c), nodes, OtherThan(nodes, c))
    decreases |nodes|
  {
    if nodes == [] {
      PickNone(OtherThan(nodes, c));
    } else {
      var front, n := nodes[..|nodes| - 1], nodes[|nodes| - 1];
      assert nodes == front + [n];
      WithoutInOrder(front, c);
      PickOneMore(Without(front, c), front, OtherThan(front, c), n);
      OtherSnoc(front, n, c);
    }
  }

  lemma {:induction false} TargetsSnoc(kept: seq<Selection>, s: Selection, c: Node)
    ensures TargetsOf(kept + [s]) == TargetsOf(kept) + [s.target]
    ensures Without(TargetsOf(kept + [s]), c)
         == if s.target == c then Without(TargetsOf(kept), c) else Without(TargetsOf(kept), c) + [s.target]
  {
    var ts := TargetsOf(kept) + [s.target];
    assert TargetsOf(kept + [s]) == ts && ts[..|ts| - 1] == TargetsOf(kept);
  }

  lemma {:induction false} ChosenSnoc(front: seq<Selection>, s: Selection, classes: set<Usr>, c: Node)
    ensures ChosenAt(front + [s], classes, c)
         == if Selects(s, classes) && s.target != c then ChosenAt(front, classes, c) + {|front|} else ChosenAt(front, classes, c)
  {
    forall i: nat
      ensures i in ChosenAt(front + [s], classes, c)
         <==> i in ChosenAt(front, classes, c) || (i == |front| && Selects(s, classes) && s.target != c)
    {
      assert i < |front| ==> (front + [s])[i] == front[i];
    }
  }

  lemma {:induction false} FeasibleSnoc(front: seq<Selection>, s: Selection, classes: set<Usr>, c: Node)
    ensures var before := Without(TargetsOf(Feasible(front, classes)), c);
            Without(TargetsOf(Feasible(front + [s], classes)), c) == if Selects(s, classes) && s.target != c then before + [s.target] else before
  {
    assert (front + [s])[..|front|] == front;
    TargetsSnoc(Feasible(front, classes), s, c);
  }

  lemma {:induction false} ChosenInOrder(candidates: seq<Selection>, classes: set<Usr>, c: Node)
    ensures PicksAt(Without(TargetsOf(Feasible(candidates, classes)), c), TargetsOf(candidates), ChosenAt(candidates, classes, c))
    decreases |candidates|
  {
    if candidates == [] {
      PickNone(ChosenAt(candidates, classes, c));
    } else {
      var front, s := candidates[..|candidates| - 1], candidates[|candidates| - 1];
      assert candidates == front + [s];
      ChosenInOrder(front, classes, c);
      TargetsSnoc(front, s, c);
      FeasibleSnoc(front, s, classes, c);
      ChosenSnoc(front, s, classes, c);
      PickOneMore(Without(TargetsOf(Feasible(front, classes)), c), TargetsOf(front), ChosenAt(front, classes, c), s.target);
    }
  }

  /**
   * The children of n come callee by callee: first the callee itself, then, for a virtual one,
   * the targets that follow it in the order of the selection map or of the dispatch targets.
   */
  lemma {:induction false} ChildrenInOrder(w: World, closed: bool, gamma: Gamma, n: Node, front: seq<Node>, c: Node)
    ensures exists rest ::
              && PrunedKids(w, closed, gamma, n, front + [c]) == PrunedKids(w, closed, gamma, n, front) + ([c] + rest)
              && (c !in w.virtuals ==> rest == [])
              && (c in w.virtuals ==> FollowInOrder(w, closed, gamma, n, c, rest))
  {
    assert (front + [c])[..|front|] == front;
    var here := PrunedCallee(w, closed, gamma, n, c);
    var rest := here[1..];
    if c in w.virtuals {
      VirtualInOrder(w, closed, gamma, n, c);
    }
    assert here == [c] + rest;
    assert PrunedKids(w, closed, gamma, n, front + [c]) == PrunedKids(w, closed, gamma, n, front) + ([c] + rest);
  }

  ghost predicate FollowInOrder(w: World, closed: bool, gamma: Gamma, n: Node, c: Node, rest: seq<Node>) {
    && (forall classes :: NarrowedTo(w, closed, gamma, n, c, classes) ==>
          PicksAt(rest, TargetsOf(w.dispatch[c].candidates), ChosenAt(w.dispatch[c].candidates, classes, c)))
    && (!(exists classes :: NarrowedTo(w, closed, gamma, n, c, classes)) ==>
          PicksAt(rest, Succ(w.targets, c), OtherThan(Succ(w.targets, c), c)))
  }

  lemma {:induction false} VirtualInOrder(w: World, closed: bool, gamma: Gamma, n: Node, c: Node)
    requires c in w.virtuals
    ensures var here := PrunedCallee(w, closed, gamma, n, c);
            here != [] && here[0] == c && FollowInOrder(w, closed, gamma, n, c, here[1..])
  {
    var rest := PrunedCallee(w, closed, gamma, n, c)[1..];
    if c in w.dispatch {
      EdgeDecides(w, closed, gamma, n, c, c);
    }
    WithoutInOrder(Succ(w.targets, c), c);
    forall classes | NarrowedTo(w, closed, gamma, n, c, classes)
      ensures PicksAt(rest, TargetsOf(w.dispatch[c].candidates), ChosenAt(w.dispatch[c].candidates, classes, c))
    {
      ChosenInOrder(w.dispatch[c].candidates, classes, c);
      assert Decide(w, closed, gamma, n, w.sites[(n, c)][0], w.dispatch[c]) == Some(Feasible(w.dispatch[c].candidates, classes));
    }
  }
}
