/**
 The breadth-first discovery order every bounded search of the index is measured
 against: nodes in the order they are first met, with depth and parent, and the
 proof that those depths are exact distances.
 */
module BreadthFirst {
  import opened Options
  import opened Reachability

  /** A discovered node, the number of edges it was discovered over, and the node it was discovered from. */
  datatype Entry = Entry(node: Node, depth: nat, parent: Option<Node>)

  function NodeSet(order: seq<Entry>): set<Node> {
    set e | e in order :: e.node
  }

  lemma {:induction false} NodeSetAppend(order: seq<Entry>, e: Entry)
    ensures NodeSet(order + [e]) == NodeSet(order) + {e.node}
  {
    forall n ensures n in NodeSet(order + [e]) <==> n in NodeSet(order) + {e.node} {
      assert forall x :: x in order + [e] <==> x in order || x == e;
    }
  }

  function Found(u: Entry, v: Node): Entry {
    Entry(v, u.depth + 1, Some(u.node))
  }

  /** Look at u's neighbours from the i-th on, appending those not yet discovered. */
  ghost function Discover(g: Graph, order: seq<Entry>, u: Entry, i: nat): (r: seq<Entry>)
    ensures order <= r
    decreases |Succ(g, u.node)| - i
  {
    if i >= |Succ(g, u.node)| then order
    else if Succ(g, u.node)[i] in NodeSet(order) then Discover(g, order, u, i + 1)
    else Discover(g, order + [Found(u, Succ(g, u.node)[i])], u, i + 1)
  }

  lemma {:induction false} DiscoverProgress(g: Graph, order: seq<Entry>, u: Entry, i: nat)
    ensures var r := Discover(g, order, u, i);
            r != order ==> Targets(g) - NodeSet(r) < Targets(g) - NodeSet(order)
    decreases |Succ(g, u.node)| - i
  {
    if i < |Succ(g, u.node)| {
      var v := Succ(g, u.node)[i];
      if v in NodeSet(order) {
        DiscoverProgress(g, order, u, i + 1);
      } else {
        Progress(g, u.node, i, NodeSet(order));
        NodeSetAppend(order, Found(u, v));
        DiscoverProgress(g, order + [Found(u, v)], u, i + 1);
      }
    }
  }

  ghost function Expand(g: Graph, bound: Option<int>, order: seq<Entry>, u: Entry): (r: seq<Entry>)
    ensures order <= r
  {
    if bound.Some? && u.depth >= bound.value then order else Discover(g, order, u, 0)
  }

  /** Expand the discovered nodes one after the other, from position head on. */
  ghost function Explore(g: Graph, bound: Option<int>, order: seq<Entry>, head: nat): (r: seq<Entry>)
    requires head <= |order|
    ensures order <= r
    decreases Targets(g) - NodeSet(order), |order| - head
  {
    if head == |order| then order
    else
      DiscoverProgress(g, order, order[head], 0);
      Explore(g, bound, Expand(g, bound, order, order[head]), head + 1)
  }

  function Origin(start: Node): Entry {
    Entry(start, 0, None)
  }

  ghost function SearchOrder(g: Graph, start: Node, bound: Option<int>): (r: seq<Entry>)
    ensures [Origin(start)] <= r
  {
    Explore(g, bound, [Origin(start)], 0)
  }

  /** Nothing at or past the bound is expanded, so a search whose waiting entries are all there is over. */
  lemma {:induction false} ExploreAtBound(g: Graph, bound: int, order: seq<Entry>, head: nat)
    requires head <= |order|
    requires forall i :: head <= i < |order| ==> order[i].depth >= bound
    ensures Explore(g, Some(bound), order, head) == order
    decreases |order| - head
  {
    if head < |order| {
      ExploreAtBound(g, bound, order, head + 1);
    }
  }

  // ---- How the order grows ------------------------------------------------------

  /** e extends the order: a new node, no shallower than the last one, found along an edge from an expanded entry. */
  ghost predicate Extends(g: Graph, bound: Option<int>, order: seq<Entry>, e: Entry)
    requires order != []
  {
    && e.node !in NodeSet(order)
    && order[|order| - 1].depth <= e.depth
    && exists j :: 0 <= j < |order| && FoundFrom(g, bound, order[j], e)
  }

  ghost predicate FoundFrom(g: Graph, bound: Option<int>, u: Entry, e: Entry) {
    e == Found(u, e.node) && e.node in Succ(g, u.node) && (bound.Some? ==> u.depth < bound.value)
  }

  /** The order started at the start and was only ever extended. */
  ghost predicate Grown(g: Graph, start: Node, bound: Option<int>, order: seq<Entry>) {
    if |order| <= 1 then order == [Origin(start)]
    else
      && Grown(g, start, bound, order[..|order| - 1])
      && Extends(g, bound, order[..|order| - 1], order[|order| - 1])
  }

  lemma {:induction false} GrownAppend(g: Graph, start: Node, bound: Option<int>, order: seq<Entry>, e: Entry)
    requires Grown(g, start, bound, order) && order != [] && Extends(g, bound, order, e)
    ensures Grown(g, start, bound, order + [e])
  {
    assert (order + [e])[..|order|] == order;
  }

  lemma {:induction false} GrownOrder(g: Graph, start: Node, bound: Option<int>, order: seq<Entry>, i: nat, j: nat)
    requires Grown(g, start, bound, order) && i < j < |order|
    ensures order[i].node != order[j].node && order[i].depth <= order[j].depth
    decreases |order|
  {
    var rest := order[..|order| - 1];
    if j < |order| - 1 {
      GrownOrder(g, start, bound, rest, i, j);
    } else {
      assert rest[i] in rest;
      if i < |rest| - 1 {
        GrownOrder(g, start, bound, rest, i, |rest| - 1);
      }
    }
  }

  lemma {:induction false} GrownParent(g: Graph, start: Node, bound: Option<int>, order: seq<Entry>, i: nat)
    returns (j: nat)
    requires Grown(g, start, bound, order) && 0 < i < |order|
    ensures j < i && FoundFrom(g, bound, order[j], order[i])
    decreases |order|
  {
    var rest := order[..|order| - 1];
    if i < |order| - 1 {
      j := GrownParent(g, start, bound, rest, i);
    } else {
      j :| 0 <= j < |rest| && FoundFrom(g, bound, rest[j], order[i]);
    }
  }

  lemma {:induction false} GrownFirst(g: Graph, start: Node, bound: Option<int>, order: seq<Entry>)
    requires Grown(g, start, bound, order)
    ensures order != [] && order[0] == Origin(start)
    decreases |order|
  {
    if |order| > 1 {
      GrownFirst(g, start, bound, order[..|order| - 1]);
    }
  }

  /** v has been discovered no deeper than d. */
  ghost predicate FoundBy(order: seq<Entry>, v: Node, d: int) {
    exists e :: e in order && e.node == v && e.depth <= d
  }

  lemma {:induction false} FoundIsFoundBy(g: Graph, start: Node, bound: Option<int>, order: seq<Entry>, v: Node)
    requires Grown(g, start, bound, order) && v in NodeSet(order)
    ensures order != [] && FoundBy(order, v, order[|order| - 1].depth)
  {
    var e :| e in order && e.node == v;
    var i :| 0 <= i < |order| && order[i] == e;
    if i < |order| - 1 {
      GrownOrder(g, start, bound, order, i, |order| - 1);
    }
  }

  /** The order has grown, and no entry lies more than one level below u. */
  ghost predicate GrownBelow(g: Graph, start: Node, bound: Option<int>, order: seq<Entry>, u: Entry) {
    Grown(g, start, bound, order) && order != [] && u in order && order[|order| - 1].depth <= u.depth + 1
  }

  lemma {:induction false} FindExtends(g: Graph, start: Node, bound: Option<int>, order: seq<Entry>, u: Entry, v: Node)
    requires GrownBelow(g, start, bound, order, u)
    requires v in Succ(g, u.node) && v !in NodeSet(order) && (bound.Some? ==> u.depth < bound.value)
    ensures GrownBelow(g, start, bound, order + [Found(u, v)], u)
  {
    var j :| 0 <= j < |order| && order[j] == u;
    assert FoundFrom(g, bound, order[j], Found(u, v));
    GrownAppend(g, start, bound, order, Found(u, v));
  }

  lemma {:induction false} DiscoverGrows(g: Graph, start: Node, bound: Option<int>, order: seq<Entry>, u: Entry, i: nat)
    requires GrownBelow(g, start, bound, order, u) && (bound.Some? ==> u.depth < bound.value)
    ensures GrownBelow(g, start, bound, Discover(g, order, u, i), u)
    decreases |Succ(g, u.node)| - i
  {
    var kids := Succ(g, u.node);
    if i >= |kids| {
    } else if kids[i] in NodeSet(order) {
      DiscoverGrows(g, start, bound, order, u, i + 1);
    } else {
      FindExtends(g, start, bound, order, u, kids[i]);
      DiscoverGrows(g, start, bound, order + [Found(u, kids[i])], u, i + 1);
    }
  }

  lemma {:induction false} NodeSetPrefix(order: seq<Entry>, longer: seq<Entry>)
    requires order <= longer
    ensures NodeSet(order) <= NodeSet(longer)
    ensures forall e :: e in order ==> e in longer
  {
    assert longer == order + longer[|order|..];
  }

  lemma {:induction false} DiscoverFinds(g: Graph, order: seq<Entry>, u: Entry, i: nat, k: nat)
    requires i <= k < |Succ(g, u.node)|
    ensures Succ(g, u.node)[k] in NodeSet(Discover(g, order, u, i))
    decreases |Succ(g, u.node)| - i
  {
    var v := Succ(g, u.node)[i];
    if v in NodeSet(order) {
      if i < k {
        DiscoverFinds(g, order, u, i + 1, k);
      } else {
        NodeSetPrefix(order, Discover(g, order, u, i));
      }
    } else {
      var longer := order + [Found(u, v)];
      if i < k {
        DiscoverFinds(g, longer, u, i + 1, k);
      } else {
        NodeSetAppend(order, Found(u, v));
        NodeSetPrefix(longer, Discover(g, longer, u, i + 1));
      }
    }
  }

  /** Unless it lies at the bound, u's neighbours are all discovered, at most one level below it. */
  ghost predicate Settled(g: Graph, bound: Option<int>, order: seq<Entry>, u: Entry) {
    bound.None? || u.depth < bound.value ==> forall v :: v in Succ(g, u.node) ==> FoundBy(order, v, u.depth + 1)
  }

  lemma {:induction false} SettledPrefix(g: Graph, bound: Option<int>, order: seq<Entry>, longer: seq<Entry>, u: Entry)
    requires order <= longer && Settled(g, bound, order, u)
    ensures Settled(g, bound, longer, u)
  {
    NodeSetPrefix(order, longer);
  }

  lemma {:induction false} ExpandSettles(g: Graph, start: Node, bound: Option<int>, order: seq<Entry>, u: Entry)
    requires GrownBelow(g, start, bound, order, u)
    ensures GrownBelow(g, start, bound, Expand(g, bound, order, u), u)
    ensures Settled(g, bound, Expand(g, bound, order, u), u)
  {
    if bound.None? || u.depth < bound.value {
      DiscoverGrows(g, start, bound, order, u, 0);
      forall v | v in Succ(g, u.node) ensures FoundBy(Discover(g, order, u, 0), v, u.depth + 1) {
        ExpandFinds(g, start, bound, order, u, v);
      }
    }
  }

  lemma {:induction false} ExpandFinds(g: Graph, start: Node, bound: Option<int>, order: seq<Entry>, u: Entry, v: Node)
    requires GrownBelow(g, start, bound, Discover(g, order, u, 0), u) && v in Succ(g, u.node)
    ensures FoundBy(Discover(g, order, u, 0), v, u.depth + 1)
  {
    var k :| 0 <= k < |Succ(g, u.node)| && Succ(g, u.node)[k] == v;
    DiscoverFinds(g, order, u, 0, k);
    FoundIsFoundBy(g, start, bound, Discover(g, order, u, 0), v);
  }

  /** The search is about to expand the entry at head. */
  ghost predicate Ready(g: Graph, start: Node, bound: Option<int>, order: seq<Entry>, head: nat) {
    && head <= |order|
    && Grown(g, start, bound, order)
    && (head < |order| ==> GrownBelow(g, start, bound, order, order[head]))
  }

  lemma {:induction false} ReadyAfter(g: Graph, start: Node, bound: Option<int>, order: seq<Entry>, head: nat)
    requires Ready(g, start, bound, order, head) && head < |order|
    ensures Ready(g, start, bound, Expand(g, bound, order, order[head]), head + 1)
    ensures Settled(g, bound, Expand(g, bound, order, order[head]), order[head])
  {
    var longer := Expand(g, bound, order, order[head]);
    ExpandSettles(g, start, bound, order, order[head]);
    if head + 1 < |longer| {
      GrownOrder(g, start, bound, longer, head, head + 1);
    }
  }

  lemma {:induction false} ExploreGrows(g: Graph, start: Node, bound: Option<int>, order: seq<Entry>, head: nat)
    requires Ready(g, start, bound, order, head)
    ensures Grown(g, start, bound, Explore(g, bound, order, head))
    decreases Targets(g) - NodeSet(order), |order| - head
  {
    if head < |order| {
      DiscoverProgress(g, order, order[head], 0);
      ReadyAfter(g, start, bound, order, head);
      ExploreGrows(g, start, bound, Expand(g, bound, order, order[head]), head + 1);
    }
  }

  lemma {:induction false} ExploreSettles(g: Graph, start: Node, bound: Option<int>, order: seq<Entry>, head: nat, k: nat)
    requires Ready(g, start, bound, order, head)
    requires head <= k < |Explore(g, bound, order, head)|
    ensures Settled(g, bound, Explore(g, bound, order, head), Explore(g, bound, order, head)[k])
    decreases Targets(g) - NodeSet(order), |order| - head
  {
    if head < |order| {
      var longer := Expand(g, bound, order, order[head]);
      DiscoverProgress(g, order, order[head], 0);
      ReadyAfter(g, start, bound, order, head);
      if k == head {
        SettledPrefix(g, bound, longer, Explore(g, bound, longer, head + 1), order[head]);
      } else {
        ExploreSettles(g, start, bound, longer, head + 1, k);
      }
    }
  }

  // ---- Discovered depths are distances --------------------------------------------

  /** b can be reached from a within the optional depth bound. */
  ghost predicate InReach(g: Graph, a: Node, b: Node, bound: Option<int>) {
    exists p :: PathBetween(g, a, b, p) && (bound.Some? ==> |p| - 1 <= bound.value)
  }

  /** What a finished search has: grown step by step, with every entry's neighbours settled. */
  ghost predicate Finished(g: Graph, start: Node, bound: Option<int>, r: seq<Entry>) {
    && Grown(g, start, bound, r)
    && forall u :: u in r ==> Settled(g, bound, r, u)
  }

  lemma {:induction false} SearchFinishes(g: Graph, start: Node, bound: Option<int>)
    ensures Finished(g, start, bound, SearchOrder(g, start, bound))
  {
    var r := SearchOrder(g, start, bound);
    ExploreGrows(g, start, bound, [Origin(start)], 0);
    forall u | u in r ensures Settled(g, bound, r, u) {
      var k :| 0 <= k < |r| && r[k] == u;
      ExploreSettles(g, start, bound, [Origin(start)], 0, k);
    }
  }

  /** Parents lead back to the start over exactly as many edges as the depth says. */
  lemma {:induction false} EntryPath(g: Graph, start: Node, bound: Option<int>, order: seq<Entry>, i: nat)
    returns (p: seq<Node>)
    requires Grown(g, start, bound, order) && i < |order|
    ensures PathBetween(g, start, order[i].node, p) && |p| - 1 == order[i].depth
    decreases i
  {
    if i == 0 {
      GrownFirst(g, start, bound, order);
      p := [start];
    } else {
      var j := GrownParent(g, start, bound, order, i);
      var q := EntryPath(g, start, bound, order, j);
      PathSnoc(g, start, order[j].node, order[i].node, q);
      p := q + [order[i].node];
    }
  }

  /** Whatever lies within d edges, d within the bound, is discovered no deeper than d. */
  lemma {:induction false} NearIsFound(g: Graph, start: Node, bound: Option<int>, r: seq<Entry>, n: Node, p: seq<Node>)
    requires Finished(g, start, bound, r)
    requires PathBetween(g, start, n, p) && (bound.Some? ==> |p| - 1 <= bound.value || p == [start])
    ensures FoundBy(r, n, |p| - 1)
    decreases |p|
  {
    if |p| == 1 {
      GrownFirst(g, start, bound, r);
      assert r[0] in r;
    } else {
      var u := p[|p| - 2];
      PathInit(g, start, n, p);
      NearIsFound(g, start, bound, r, u, p[..|p| - 1]);
      var e :| e in r && e.node == u && e.depth <= |p| - 2;
      assert FoundBy(r, n, e.depth + 1);
    }
  }

  lemma {:induction false} EntryWithinBound(g: Graph, start: Node, bound: Option<int>, order: seq<Entry>, i: nat)
    requires Grown(g, start, bound, order) && 0 < i < |order|
    ensures bound.Some? ==> order[i].depth <= bound.value
  {
    var j := GrownParent(g, start, bound, order, i);
  }

  /** A node's discovered depth is its exact distance from the start. */
  lemma {:induction false} EntryAtDistance(g: Graph, start: Node, bound: Option<int>, r: seq<Entry>, i: nat)
    requires Finished(g, start, bound, r) && i < |r|
    ensures AtDistance(g, start, r[i].node, r[i].depth)
  {
    var p := EntryPath(g, start, bound, r, i);
    if Within(g, start, r[i].node, r[i].depth - 1) {
      var q :| PathBetween(g, start, r[i].node, q) && |q| - 1 <= r[i].depth - 1;
      if i == 0 {
        GrownFirst(g, start, bound, r);
      } else {
        EntryWithinBound(g, start, bound, r, i);
      }
      NearIsFound(g, start, bound, r, r[i].node, q);
      var e :| e in r && e.node == r[i].node && e.depth <= |q| - 1;
      var k :| 0 <= k < |r| && r[k] == e;
      GrownOrder(g, start, bound, r, if k < i then k else i, if k < i then i else k);
    }
  }

  /** The search discovers exactly the nodes within its bound, each once and at its exact distance. */
  lemma {:induction false} SearchOrderExact(g: Graph, start: Node, bound: Option<int>)
    ensures var r := SearchOrder(g, start, bound);
            && (forall e :: e in r ==> AtDistance(g, start, e.node, e.depth))
            && (forall i, j :: 0 <= i < j < |r| ==> r[i].node != r[j].node && r[i].depth <= r[j].depth)
            && (forall n :: n in NodeSet(r) <==> n == start || InReach(g, start, n, bound))
  {
    var r := SearchOrder(g, start, bound);
    SearchFinishes(g, start, bound);
    forall e | e in r ensures AtDistance(g, start, e.node, e.depth) {
      var i :| 0 <= i < |r| && r[i] == e;
      EntryAtDistance(g, start, bound, r, i);
    }
    forall i, j | 0 <= i < j < |r| ensures r[i].node != r[j].node && r[i].depth <= r[j].depth {
      GrownOrder(g, start, bound, r, i, j);
    }
    forall n ensures n in NodeSet(r) <==> n == start || InReach(g, start, n, bound) {
      FoundIffInReach(g, start, bound, r, n);
    }
  }

  lemma {:induction false} FoundIffInReach(g: Graph, start: Node, bound: Option<int>, r: seq<Entry>, n: Node)
    requires Finished(g, start, bound, r)
    ensures n in NodeSet(r) <==> n == start || InReach(g, start, n, bound)
  {
    GrownFirst(g, start, bound, r);
    if n in NodeSet(r) {
      var e :| e in r && e.node == n;
      var i :| 0 <= i < |r| && r[i] == e;
      var p := EntryPath(g, start, bound, r, i);
      if i > 0 {
        EntryWithinBound(g, start, bound, r, i);
      }
    }
    if InReach(g, start, n, bound) {
      var p :| PathBetween(g, start, n, p) && (bound.Some? ==> |p| - 1 <= bound.value);
      NearIsFound(g, start, bound, r, n, p);
    }
    assert r[0] in r;
  }
}
