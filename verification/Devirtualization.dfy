/**
 The devirtualised call-graph walks (project/indexer/model.py): the prune decision
 at a virtual call read from a finished Gamma analysis, and the three walks over
 static callees, pruned targets and all dispatch targets.
 */
module Devirtualization {
  import opened Options
  import opened Reachability
  import opened Provenance
  import CallGraph
  import GammaEngine
  import GammaRuns

  /** Receiver provenance of one call site. */
  datatype Site = Site(srcKind: SrcKind, typeUsr: Option<Usr>, declUsr: Option<Usr>, paramPos: Option<nat>, isValue: bool)

  /** One incoming call edge of a callable: all calls its caller makes to it, with the argument rows of all of them. */
  datatype CallContext = CallContext(caller: Usr, args: seq<CallArg>)

  /** One entry of a selection map: a receiver of class `selecting` runs `target`. */
  datatype Selection = Selection(selecting: Option<Usr>, target: Node)

  /** The selection map of a virtual method, closed over subtypes, and whether it may be narrowed. */
  datatype Dispatch = Dispatch(candidates: seq<Selection>, prunable: bool)

  /**
   The index as the walks read it. A callable's symbol id also stands for its USR,
   the two being in bijection; `sites` gives all call sites of an edge, in order.
   */
  datatype World = World(
    callees: Graph,
    virtuals: set<Node>,
    targets: Graph,
    sites: map<(Node, Node), seq<Site>>,
    dispatch: map<Node, Dispatch>,
    known: set<Usr>,
    sitesInto: map<Usr, seq<CallContext>>)

  // ---- Closed-world parameter union ------------------------------------------------------

  function ArgAt(args: seq<CallArg>, pos: nat): Option<CallArg> {
    if args == [] then None else if args[0].position == pos then Some(args[0]) else ArgAt(args[1..], pos)
  }

  /** What the first row of a call edge passes at a position; TOP when it passes nothing knowable. */
  function SitePasses(gamma: Gamma, cc: CallContext, pos: nat): TypeSet {
    var arg := ArgAt(cc.args, pos);
    if arg.None? then Top else ResolveSource(gamma, cc.caller, arg.value)
  }

  function SitesOf(w: World, callee: Usr): seq<CallContext> {
    if callee in w.sitesInto then w.sitesInto[callee] else []
  }

  /** The join over the first n incoming call edges. */
  function JoinSites(gamma: Gamma, sites: seq<CallContext>, pos: nat, n: nat): TypeSet
    requires n <= |sites|
  {
    if n == 0 then Types({}) else Join(JoinSites(gamma, sites, pos, n - 1), SitePasses(gamma, sites[n - 1], pos))
  }

  /** `_closed_world_param` without its memo: the join over all call edges, TOP without a callee or a caller. */
  function ClosedWorld(w: World, gamma: Gamma, callee: Usr, pos: nat): TypeSet {
    var sites := SitesOf(w, callee);
    if callee !in w.known || sites == [] then Top else JoinSites(gamma, sites, pos, |sites|)
  }

  lemma {:induction false} JoinSitesExact(gamma: Gamma, sites: seq<CallContext>, pos: nat, n: nat)
    requires n <= |sites|
    ensures var r := JoinSites(gamma, sites, pos, n);
            && (r.Top? <==> exists k :: 0 <= k < n && SitePasses(gamma, sites[k], pos).Top?)
            && (r.Types? ==> forall c :: c in r.classes <==>
                  exists k :: 0 <= k < n && SitePasses(gamma, sites[k], pos).Types?
                              && c in SitePasses(gamma, sites[k], pos).classes)
    decreases n
  {
    if n > 0 {
      JoinSitesExact(gamma, sites, pos, n - 1);
    }
  }

  /** TOP exactly without a known callee, without a call edge, or when the first row of one is unknowable; else the union of the first rows. */
  lemma {:induction false} ClosedWorldExact(w: World, gamma: Gamma, callee: Usr, pos: nat)
    ensures var r, sites := ClosedWorld(w, gamma, callee, pos), SitesOf(w, callee);
            && (r.Top? <==> callee !in w.known || sites == []
                            || exists k :: 0 <= k < |sites| && SitePasses(gamma, sites[k], pos).Top?)
            && (r.Types? ==> forall c :: c in r.classes <==>
                  exists k :: 0 <= k < |sites| && SitePasses(gamma, sites[k], pos).Types?
                              && c in SitePasses(gamma, sites[k], pos).classes)
  {
    JoinSitesExact(gamma, SitesOf(w, callee), pos, |SitesOf(w, callee)|);
  }

  // ---- Receiver types and the prune decision --------------------------------------------

  /** First hit of the three environment lookups: receiver declaration, receiver type, receiver parameter. */
  function SiteLookup(gamma: Gamma, ctx: Usr, site: Site): Option<TypeSet> {
    var byDecl := if site.declUsr.Some? then Lookup(gamma, Key(ctx, Decl(site.declUsr.value))) else None;
    var byType := if site.typeUsr.Some? then Lookup(gamma, Key(ctx, Decl(site.typeUsr.value))) else None;
    var byPos := if site.paramPos.Some? then Lookup(gamma, Key(ctx, Pos(site.paramPos.value))) else None;
    if byDecl.Some? then byDecl else if byType.Some? then byType else byPos
  }

  /** `gamma_for_site`: the receiver's type set at a virtual call. */
  function GammaForSite(w: World, closed: bool, gamma: Gamma, ctx: Usr, site: Site): TypeSet {
    if site.isValue && site.srcKind in {Member, Global, CallResult} && site.typeUsr.Some? then
      Types({site.typeUsr.value})
    else if SiteLookup(gamma, ctx, site).Some? then SiteLookup(gamma, ctx, site).value
    else if site.srcKind == Construct && site.typeUsr.Some? then Types({site.typeUsr.value})
    else if closed && site.srcKind == Local && site.paramPos.Some? then
      ClosedWorld(w, gamma, ctx, site.paramPos.value)
    else Top
  }

  /** The candidates selected by a class of the receiver set. */
  function Feasible(candidates: seq<Selection>, classes: set<Usr>): seq<Selection> {
    if candidates == [] then []
    else
      var s, front := candidates[|candidates| - 1], Feasible(candidates[..|candidates| - 1], classes);
      if s.selecting.Some? && s.selecting.value in classes then front + [s] else front
  }

  lemma {:induction false} FeasibleExact(candidates: seq<Selection>, classes: set<Usr>, s: Selection)
    ensures s in Feasible(candidates, classes)
            <==> s in candidates && s.selecting.Some? && s.selecting.value in classes
    decreases |candidates|
  {
    if candidates != [] {
      var front, last := candidates[..|candidates| - 1], candidates[|candidates| - 1];
      FeasibleExact(front, classes, s);
      assert candidates == front + [last];
    }
  }

  /** `decide`: the kept selections at a site, or None to keep every dispatch target. */
  function Decide(w: World, closed: bool, gamma: Gamma, ctx: Usr, site: Site, d: Dispatch): Option<seq<Selection>> {
    if !d.prunable then None
    else
      var ts := GammaForSite(w, closed, gamma, ctx, site);
      if ts.Top? then None
      else
        var kept := Feasible(d.candidates, ts.classes);
        if kept == [] then None else Some(kept)
  }

  /** A target is only ever dropped when no class of the receiver's type set selects it. */
  lemma {:induction false} DecideKeepsFeasible(w: World, closed: bool, gamma: Gamma, ctx: Usr, site: Site, d: Dispatch, s: Selection)
    requires s in d.candidates && s.selecting.Some?
    ensures var ts, r := GammaForSite(w, closed, gamma, ctx, site), Decide(w, closed, gamma, ctx, site, d);
            (ts.Top? || s.selecting.value in ts.classes) ==> r.None? || s in r.value
    ensures var ts, r := GammaForSite(w, closed, gamma, ctx, site), Decide(w, closed, gamma, ctx, site, d);
            r.Some? ==> ts.Types? && (s in r.value <==> s.selecting.value in ts.classes)
  {
    var ts := GammaForSite(w, closed, gamma, ctx, site);
    if ts.Types? {
      FeasibleExact(d.candidates, ts.classes, s);
    }
  }

  // ---- The engine after its analysis: decisions with a memo -------------------------------

  class Decider {
    const w: World
    const closed: bool
    const gamma: Gamma
    var cwMemo: map<(Usr, nat), TypeSet>

    /** Every memoised answer is the unmemoised one. */
    ghost predicate Valid()
      reads this
    {
      forall k :: k in cwMemo ==> cwMemo[k] == ClosedWorld(w, gamma, k.0, k.1)
    }

    constructor (w: World, closed: bool, gamma: Gamma)
      ensures this.w == w && this.closed == closed && this.gamma == gamma && Valid()
    {
      this.w, this.closed, this.gamma := w, closed, gamma;
      cwMemo := map[];
    }

    /** `_closed_world_param`: the memo, marked TOP while in flight, never changes an answer. */
    method ClosedWorldParam(callee: Usr, pos: nat, visited: set<Usr>) returns (ts: TypeSet)
      requires Valid()
      modifies this`cwMemo
      ensures Valid()
      ensures ts == if callee in visited then Top else ClosedWorld(w, gamma, callee, pos)
    {
      if callee in visited {
        return Top;
      }
      var memoKey := (callee, pos);
      if memoKey in cwMemo {
        return cwMemo[memoKey];
      }
      if callee !in w.known {
        return Top;
      }
      cwMemo := cwMemo[memoKey := Top];
      var union, sawCaller := Types({}), false;
      var sites := SitesOf(w, callee);
      var k := 0;
      while k < |sites| && !union.Top?
        invariant k <= |sites| && sawCaller == (k > 0)
        invariant union == JoinSites(gamma, sites, pos, k)
      {
        sawCaller := true;
        var arg := ArgAt(sites[k].args, pos);
        if arg.None? {
          union := Top;
        } else {
          var one := ResolveSource(gamma, sites[k].caller, arg.value);
          union := if one.Top? then Top else Types(union.classes + one.classes);
        }
        k := k + 1;
      }
      if union.Top? {
        TopSticks(gamma, sites, pos, k, |sites|);
      }
      ts := if union.Top? || !sawCaller then Top else union;
      cwMemo := cwMemo[memoKey := ts];
    }

    method ReceiverTypes(ctx: Usr, site: Site) returns (ts: TypeSet)
      requires Valid()
      modifies this`cwMemo
      ensures Valid() && ts == GammaForSite(w, closed, gamma, ctx, site)
    {
      if site.isValue && site.srcKind in {Member, Global, CallResult} && site.typeUsr.Some? {
        return Types({site.typeUsr.value});
      }
      var found := SiteLookup(gamma, ctx, site);
      if found.Some? {
        return found.value;
      }
      if site.srcKind == Construct && site.typeUsr.Some? {
        return Types({site.typeUsr.value});
      }
      if closed && site.srcKind == Local && site.paramPos.Some? {
        ts := ClosedWorldParam(ctx, site.paramPos.value, {});
        return;
      }
      return Top;
    }

    method DecideAt(ctx: Usr, site: Site, d: Dispatch) returns (kept: Option<seq<Selection>>)
      requires Valid()
      modifies this`cwMemo
      ensures Valid() && kept == Decide(w, closed, gamma, ctx, site, d)
    {
      if !d.prunable {
        return None;
      }
      var ts := ReceiverTypes(ctx, site);
      if ts.Top? {
        return None;
      }
      var feasible := Feasible(d.candidates, ts.classes);
      kept := if feasible == [] then None else Some(feasible);
    }

    /** `_kids_pruned`: each static callee followed by the targets the decision keeps. */
    method Kids(n: Node) returns (kids: seq<Node>)
      requires Valid()
      modifies this`cwMemo
      ensures Valid() && kids == PrunedKids(w, closed, gamma, n, Succ(w.callees, n))
    {
      var callees := Succ(w.callees, n);
      kids := [];
      for i := 0 to |callees|
        invariant Valid() && kids == PrunedKids(w, closed, gamma, n, callees[..i])
      {
        var c := callees[i];
        assert callees[..i + 1][..i] == callees[..i];
        if c in w.virtuals && c in w.dispatch && SitesAt(w, n, c) != [] {
          var kept := DecideAt(n, SitesAt(w, n, c)[0], w.dispatch[c]);
          kids := kids + Expansion(c, Succ(w.targets, c), kept);
        } else if c in w.virtuals {
          kids := kids + Expansion(c, Succ(w.targets, c), None);
        } else {
          kids := kids + [c];
        }
      }
      assert callees[..|callees|] == callees;
    }
  }

  lemma {:induction false} TopSticks(gamma: Gamma, sites: seq<CallContext>, pos: nat, k: nat, n: nat)
    requires k <= n <= |sites| && JoinSites(gamma, sites, pos, k).Top?
    ensures JoinSites(gamma, sites, pos, n).Top?
    decreases n
  {
    if k < n {
      TopSticks(gamma, sites, pos, k, n - 1);
    }
  }

  // ---- What each walk steps to --------------------------------------------------------------

  function Without(nodes: seq<Node>, c: Node): seq<Node> {
    if nodes == [] then []
    else
      var front, n := Without(nodes[..|nodes| - 1], c), nodes[|nodes| - 1];
      if n == c then front else front + [n]
  }

  function TargetsOf(kept: seq<Selection>): (r: seq<Node>)
    ensures |r| == |kept|
    ensures forall i :: 0 <= i < |kept| ==> r[i] == kept[i].target
  {
    seq(|kept|, i requires 0 <= i < |kept| => kept[i].target)
  }

  /** A virtual callee with all its dispatch targets, or with the kept ones only. */
  function Expansion(c: Node, targets: seq<Node>, kept: Option<seq<Selection>>): seq<Node> {
    [c] + Without(if kept.None? then targets else TargetsOf(kept.value), c)
  }

  function SitesAt(w: World, n: Node, c: Node): seq<Site> {
    if (n, c) in w.sites then w.sites[(n, c)] else []
  }

  /** What the walk decides for a call edge: the first of its sites speaks for all. */
  function EdgeDecision(w: World, closed: bool, gamma: Gamma, n: Node, sites: seq<Site>, d: Dispatch): Option<seq<Selection>> {
    if sites == [] then None else Decide(w, closed, gamma, n, sites[0], d)
  }

  function PrunedCallee(w: World, closed: bool, gamma: Gamma, n: Node, c: Node): seq<Node> {
    if c !in w.virtuals then [c]
    else
      Expansion(c, Succ(w.targets, c),
                if c in w.dispatch then EdgeDecision(w, closed, gamma, n, SitesAt(w, n, c), w.dispatch[c]) else None)
  }

  function PrunedKids(w: World, closed: bool, gamma: Gamma, n: Node, callees: seq<Node>): seq<Node> {
    if callees == [] then []
    else PrunedKids(w, closed, gamma, n, callees[..|callees| - 1])
         + PrunedCallee(w, closed, gamma, n, callees[|callees| - 1])
  }

  /** Superset mode: every virtual callee is followed by all its dispatch targets. */
  function ExpandedKids(w: World, callees: seq<Node>): seq<Node> {
    if callees == [] then []
    else
      var c := callees[|callees| - 1];
      ExpandedKids(w, callees[..|callees| - 1]) + [c] + if c in w.virtuals then Succ(w.targets, c) else []
  }

  function PrunedGraph(w: World, closed: bool, gamma: Gamma): Graph {
    map n | n in w.callees :: PrunedKids(w, closed, gamma, n, w.callees[n])
  }

  function ExpandedGraph(w: World): Graph {
    map n | n in w.callees :: ExpandedKids(w, w.callees[n])
  }

  // ---- The pruned walk ------------------------------------------------------------------------

  /** An element of the walk's stack: a kid iterator and the depth of the kids it yields. */
  datatype Iter = Iter(items: seq<Node>, next: nat, depth: nat)

  ghost predicate Mirror(g: Graph, bound: Option<int>, it: Iter, f: CallGraph.Frame) {
    it.items == CallGraph.Kids(g, bound, f.node, f.depth) && it.next == f.next && it.depth == f.depth + 1
  }

  ghost predicate Mirrors(g: Graph, bound: Option<int>, iters: seq<Iter>, frames: seq<CallGraph.Frame>) {
    |iters| == |frames| && forall k :: 0 <= k < |iters| ==> Mirror(g, bound, iters[k], frames[k])
  }

  /** The state of the pruned walk: the iterators mirror a stack of frames whose stream is the whole walk. */
  ghost predicate Walking(g: Graph, bound: Option<int>, root: Node, out: seq<CallGraph.Step>, iters: seq<Iter>,
                          frames: seq<CallGraph.Frame>, seen: set<Node>) {
    && Mirrors(g, bound, iters, frames)
    && CallGraph.Stream(g, bound, out, frames, seen) == CallGraph.WalkSteps(g, root, bound)
  }

  lemma {:induction false} TurnExhausted(g: Graph, bound: Option<int>, root: Node, out: seq<CallGraph.Step>,
                                         iters: seq<Iter>, frames: seq<CallGraph.Frame>, seen: set<Node>)
    returns (below: seq<CallGraph.Frame>)
    requires Walking(g, bound, root, out, iters, frames, seen) && iters != []
    requires iters[|iters| - 1].next >= |iters[|iters| - 1].items|
    ensures Walking(g, bound, root, out, iters[..|iters| - 1], below, seen)
  {
    var top := frames[|frames| - 1];
    assert Mirror(g, bound, iters[|iters| - 1], top);
    CallGraph.PopExhausted(g, bound, out, frames, top, top.next, seen);
    below := frames[..|frames| - 1];
  }

  lemma {:induction false} TurnSeen(g: Graph, bound: Option<int>, root: Node, out: seq<CallGraph.Step>,
                                    iters: seq<Iter>, frames: seq<CallGraph.Frame>, seen: set<Node>)
    returns (after: seq<CallGraph.Frame>)
    requires Walking(g, bound, root, out, iters, frames, seen) && iters != []
    requires var it := iters[|iters| - 1]; it.next < |it.items| && it.items[it.next] in seen
    ensures Walking(g, bound, root, out, Advanced(iters), after, seen)
    ensures |Advanced(iters)| == |iters| && Left(Advanced(iters)) < Left(iters)
  {
    var top := frames[|frames| - 1];
    assert Mirror(g, bound, iters[|iters| - 1], top);
    CallGraph.SkipOne(g, bound, out, frames, top, seen);
    after := frames[..|frames| - 1] + [top.(next := top.next + 1)];
  }

  lemma {:induction false} TurnYields(g: Graph, bound: Option<int>, root: Node, out: seq<CallGraph.Step>,
                                      iters: seq<Iter>, frames: seq<CallGraph.Frame>, seen: set<Node>, kids: seq<Node>)
    returns (pushed: seq<CallGraph.Frame>)
    requires Walking(g, bound, root, out, iters, frames, seen) && iters != []
    requires var it := iters[|iters| - 1];
             && it.next < |it.items| && it.items[it.next] !in seen
             && kids == CallGraph.Kids(g, bound, it.items[it.next], it.depth)
    ensures var it := iters[|iters| - 1];
            var callee := it.items[it.next];
            && Walking(g, bound, root, out + [CallGraph.Step(callee, it.depth)],
                       Advanced(iters) + [Iter(kids, 0, it.depth + 1)], pushed, seen + {callee})
            && Targets(g) - (seen + {callee}) < Targets(g) - seen
  {
    var it, top := iters[|iters| - 1], frames[|frames| - 1];
    var callee := it.items[it.next];
    assert Mirror(g, bound, it, top);
    assert CallGraph.Step(callee, it.depth) == CallGraph.Step(callee, top.depth + 1);
    CallGraph.YieldAndPush(g, bound, out, frames, top, top.next, callee, seen);
    pushed := CallGraph.Pushed(frames, top.next, callee);
  }

  /** The stack with its top iterator one item further. */
  function Advanced(stack: seq<Iter>): seq<Iter>
    requires stack != []
  {
    var it := stack[|stack| - 1];
    stack[..|stack| - 1] + [it.(next := it.next + 1)]
  }

  /** One turn of the loop: drop an exhausted iterator, step past a seen callee, or yield it and push its kids. */
  method Turn(d: Decider, ghost g: Graph, root: Node, bound: Option<int>, out0: seq<CallGraph.Step>, stack0: seq<Iter>,
              ghost frames0: seq<CallGraph.Frame>, seen0: set<Node>)
    returns (out: seq<CallGraph.Step>, stack: seq<Iter>, ghost frames: seq<CallGraph.Frame>, seen: set<Node>)
    requires d.Valid() && g == PrunedGraph(d.w, d.closed, d.gamma)
    requires Walking(g, bound, root, out0, stack0, frames0, seen0) && stack0 != []
    modifies d`cwMemo
    ensures d.Valid() && Walking(g, bound, root, out, stack, frames, seen)
    ensures || Targets(g) - seen < Targets(g) - seen0
            || (seen == seen0 && |stack| < |stack0|)
            || (seen == seen0 && |stack| == |stack0| && Left(stack) < Left(stack0))
  {
    out, stack, frames, seen := out0, stack0, frames0, seen0;
    var it := stack0[|stack0| - 1];
    if it.next >= |it.items| {
      frames := TurnExhausted(g, bound, root, out, stack, frames, seen);
      stack := stack0[..|stack0| - 1];
    } else if it.items[it.next] in seen {
      frames := TurnSeen(g, bound, root, out, stack, frames, seen);
      stack := Advanced(stack0);
    } else {
      var callee := it.items[it.next];
      var kids := KidsAt(d, bound, callee, it.depth);
      frames := TurnYields(g, bound, root, out, stack, frames, seen, kids);
      out := out0 + [CallGraph.Step(callee, it.depth)];
      seen := seen0 + {callee};
      stack := Advanced(stack0) + [Iter(kids, 0, it.depth + 1)];
    }
  }

  /** How many items the top iterator still holds. */
  function Left(stack: seq<Iter>): nat {
    if stack == [] then 0
    else
      var it := stack[|stack| - 1];
      if it.next < |it.items| then |it.items| - it.next else 0
  }

  /**
   `_devirt_prune` once the engine has run: the same pre-order walk, over pruned
   kids, taking one item off the top iterator per turn.
   */
  method PrunedWalk(d: Decider, root: Node, bound: Option<int>) returns (out: seq<CallGraph.Step>)
    requires d.Valid()
    modifies d`cwMemo
    ensures d.Valid()
    ensures out == CallGraph.WalkSteps(PrunedGraph(d.w, d.closed, d.gamma), root, bound)
  {
    ghost var g := PrunedGraph(d.w, d.closed, d.gamma);
    ghost var frames := [CallGraph.Frame(root, 0, 0)];
    var seen := {root};
    var first := KidsAt(d, bound, root, 0);
    var stack := [Iter(first, 0, 1)];
    out := [];
    CallGraph.StreamRoot(g, root, bound);
    while stack != []
      invariant d.Valid() && Walking(g, bound, root, out, stack, frames, seen)
      decreases Targets(g) - seen, |stack|, Left(stack)
    {
      out, stack, frames, seen := Turn(d, g, root, bound, out, stack, frames, seen);
    }
  }

  method KidsAt(d: Decider, bound: Option<int>, n: Node, depth: nat) returns (kids: seq<Node>)
    requires d.Valid()
    modifies d`cwMemo
    ensures d.Valid()
    ensures kids == CallGraph.Kids(PrunedGraph(d.w, d.closed, d.gamma), bound, n, depth)
  {
    if (bound.Some? && depth >= bound.value) || n !in d.w.callees {
      return [];
    }
    kids := d.Kids(n);
  }

  // ---- Static, pruned and expanded walks are nested -----------------------------------------

  ghost predicate EdgesWithin(g: Graph, h: Graph) {
    forall n, m :: m in Succ(g, n) ==> m in Succ(h, n)
  }

  lemma {:induction false} PathWithin(g: Graph, h: Graph, a: Node, b: Node, p: seq<Node>)
    requires EdgesWithin(g, h) && PathBetween(g, a, b, p)
    ensures PathBetween(h, a, b, p)
    decreases |p|
  {
    if |p| > 1 {
      PathInit(g, a, b, p);
      PathWithin(g, h, a, p[|p| - 2], p[..|p| - 1]);
      assert p[..|p| - 1] + [b] == p;
      PathSnoc(h, a, p[|p| - 2], b, p[..|p| - 1]);
    }
  }

  lemma {:induction false} WalksNest(g: Graph, h: Graph, root: Node)
    requires EdgesWithin(g, h)
    ensures CallGraph.Nodes(CallGraph.WalkSteps(g, root, None)) <= CallGraph.Nodes(CallGraph.WalkSteps(h, root, None))
  {
    CallGraph.WalkReachesExactly(g, root);
    CallGraph.WalkReachesExactly(h, root);
    forall n | n in CallGraph.Nodes(CallGraph.WalkSteps(g, root, None))
      ensures n in CallGraph.Nodes(CallGraph.WalkSteps(h, root, None))
    {
      var p :| PathBetween(g, root, n, p);
      PathWithin(g, h, root, n, p);
    }
  }

  /** Every candidate of a selection map is one of the method's dispatch targets. */
  ghost predicate SelectionsAreTargets(w: World) {
    forall c, s :: c in w.dispatch && s in w.dispatch[c].candidates ==> s.target in Succ(w.targets, c)
  }

  lemma {:induction false} WithoutMembers(nodes: seq<Node>, c: Node, n: Node)
    ensures n in Without(nodes, c) <==> n in nodes && n != c
    decreases |nodes|
  {
    if nodes != [] {
      WithoutMembers(nodes[..|nodes| - 1], c, n);
      assert nodes == nodes[..|nodes| - 1] + [nodes[|nodes| - 1]];
    }
  }

  lemma {:induction false} KeptTargets(w: World, closed: bool, gamma: Gamma, ctx: Usr, site: Site, c: Node, t: Node)
    requires SelectionsAreTargets(w) && c in w.dispatch
    requires var kept := Decide(w, closed, gamma, ctx, site, w.dispatch[c]);
             kept.Some? && t in TargetsOf(kept.value)
    ensures t in Succ(w.targets, c)
  {
    var kept := Decide(w, closed, gamma, ctx, site, w.dispatch[c]).value;
    var i :| 0 <= i < |kept| && TargetsOf(kept)[i] == t;
    FeasibleExact(w.dispatch[c].candidates, GammaForSite(w, closed, gamma, ctx, site).classes, kept[i]);
  }

  /** The kids a static callee contributes: itself always, and otherwise only its dispatch targets. */
  lemma {:induction false} PrunedCalleeBetween(w: World, closed: bool, gamma: Gamma, n: Node, c: Node, m: Node)
    requires SelectionsAreTargets(w)
    ensures c in PrunedCallee(w, closed, gamma, n, c)
    ensures m in PrunedCallee(w, closed, gamma, n, c) ==> m == c || (c in w.virtuals && m in Succ(w.targets, c))
  {
    if c in w.virtuals && m in PrunedCallee(w, closed, gamma, n, c) && m != c {
      var kept := if c in w.dispatch then EdgeDecision(w, closed, gamma, n, SitesAt(w, n, c), w.dispatch[c]) else None;
      WithoutMembers(if kept.None? then Succ(w.targets, c) else TargetsOf(kept.value), c, m);
      if kept.Some? {
        KeptTargets(w, closed, gamma, n, SitesAt(w, n, c)[0], c, m);
      }
    }
  }

  lemma {:induction false} KidsNest(w: World, closed: bool, gamma: Gamma, n: Node, callees: seq<Node>, m: Node)
    requires SelectionsAreTargets(w)
    ensures m in callees ==> m in PrunedKids(w, closed, gamma, n, callees)
    ensures m in PrunedKids(w, closed, gamma, n, callees) ==> m in ExpandedKids(w, callees)
    decreases |callees|
  {
    if callees != [] {
      var front, c := callees[..|callees| - 1], callees[|callees| - 1];
      KidsNest(w, closed, gamma, n, front, m);
      PrunedCalleeBetween(w, closed, gamma, n, c, m);
      assert callees == front + [c];
    }
  }

  /**
   Unbounded from any root, the nodes over static callees are contained in those of
   the pruned walk, and those in the nodes of the walk that expands every target.
   */
  lemma {:induction false} PrunedWalkIsBetween(w: World, closed: bool, gamma: Gamma, root: Node)
    requires SelectionsAreTargets(w)
    ensures CallGraph.Nodes(CallGraph.WalkSteps(w.callees, root, None))
            <= CallGraph.Nodes(CallGraph.WalkSteps(PrunedGraph(w, closed, gamma), root, None))
            <= CallGraph.Nodes(CallGraph.WalkSteps(ExpandedGraph(w), root, None))
  {
    var pruned, expanded := PrunedGraph(w, closed, gamma), ExpandedGraph(w);
    forall n, m ensures m in Succ(w.callees, n) ==> m in Succ(pruned, n)
                ensures m in Succ(pruned, n) ==> m in Succ(expanded, n)
    {
      if n in w.callees {
        KidsNest(w, closed, gamma, n, w.callees[n], m);
      }
    }
    WalksNest(w.callees, pruned, root);
    WalksNest(pruned, expanded, root);
  }

  // ---- What pruning may not drop ------------------------------------------------------------------

  /** Every target selected by a class that some site of the edge admits is among the children. */
  ghost predicate ServesAllSites(w: World, closed: bool, gamma: Gamma, n: Node, c: Node, sites: seq<Site>, d: Dispatch,
                                 targets: seq<Node>) {
    forall site, s :: site in sites && s in d.candidates && s.selecting.Some?
                      && Admits(GammaForSite(w, closed, gamma, n, site), s.selecting.value)
                      ==> s.target in Expansion(c, targets, EdgeDecision(w, closed, gamma, n, sites, d))
  }

  /** The method is not prunable, or the first site's set is TOP, empty, or above the set of this site. */
  ghost predicate ServedByFirst(w: World, closed: bool, gamma: Gamma, n: Node, sites: seq<Site>, prunable: bool, site: Site) {
    sites == [] || !prunable
    || var first := GammaForSite(w, closed, gamma, n, sites[0]);
       first == Top || first == Types({}) || Below(GammaForSite(w, closed, gamma, n, site), first)
  }

  ghost predicate FirstSiteServes(w: World, closed: bool, gamma: Gamma, n: Node, sites: seq<Site>, prunable: bool) {
    forall site :: site in sites ==> ServedByFirst(w, closed, gamma, n, sites, prunable, site)
  }

  lemma {:induction false} AdmittedIsServed(w: World, closed: bool, gamma: Gamma, n: Node, c: Node, sites: seq<Site>, d: Dispatch,
                                            targets: seq<Node>, site: Site, s: Selection)
    requires site in sites && ServedByFirst(w, closed, gamma, n, sites, d.prunable, site)
    requires s in d.candidates && s.selecting.Some? && s.target in targets
    requires Admits(GammaForSite(w, closed, gamma, n, site), s.selecting.value)
    ensures s.target in Expansion(c, targets, EdgeDecision(w, closed, gamma, n, sites, d))
  {
    var kept := Decide(w, closed, gamma, n, sites[0], d);
    DecideKeepsFeasible(w, closed, gamma, n, sites[0], d, s);
    if kept.Some? {
      KeptIsFeasible(w, closed, gamma, n, sites[0], d);
      var i :| 0 <= i < |kept.value| && kept.value[i] == s;
      assert TargetsOf(kept.value)[i] == s.target;
    }
    WithoutMembers(if kept.None? then targets else TargetsOf(kept.value), c, s.target);
  }

  /** Something is kept only by a set with a class in it. */
  lemma {:induction false} KeptIsFeasible(w: World, closed: bool, gamma: Gamma, n: Node, site: Site, d: Dispatch)
    requires Decide(w, closed, gamma, n, site, d).Some?
    ensures var ts := GammaForSite(w, closed, gamma, n, site); ts.Types? && ts.classes != {}
  {
    var ts, kept := GammaForSite(w, closed, gamma, n, site), Decide(w, closed, gamma, n, site, d).value;
    FeasibleExact(d.candidates, ts.classes, kept[0]);
    assert kept[0].selecting.value in ts.classes;
  }

  /**
   The call edges of one caller to one callee are one edge, and its first site decides. All
   targets admitted at any of its sites are among the children, whatever the candidates of
   the method are, exactly when the first site serves all.
   */
  lemma {:induction false} AllSitesServedIff(w: World, closed: bool, gamma: Gamma, n: Node, c: Node, sites: seq<Site>, prunable: bool)
    ensures (forall candidates: seq<Selection>, targets: seq<Node> ::
               (forall s :: s in candidates ==> s.target in targets) ==>
                 ServesAllSites(w, closed, gamma, n, c, sites, Dispatch(candidates, prunable), targets))
       <==> FirstSiteServes(w, closed, gamma, n, sites, prunable)
  {
    if FirstSiteServes(w, closed, gamma, n, sites, prunable) {
      forall candidates: seq<Selection>, targets: seq<Node> | forall s :: s in candidates ==> s.target in targets
        ensures ServesAllSites(w, closed, gamma, n, c, sites, Dispatch(candidates, prunable), targets)
      {
        forall site, s | site in sites && s in candidates && s.selecting.Some?
                         && Admits(GammaForSite(w, closed, gamma, n, site), s.selecting.value)
          ensures s.target in Expansion(c, targets, EdgeDecision(w, closed, gamma, n, sites, Dispatch(candidates, prunable)))
        {
          AdmittedIsServed(w, closed, gamma, n, c, sites, Dispatch(candidates, prunable), targets, site, s);
        }
      }
    } else {
      var site :| site in sites && !ServedByFirst(w, closed, gamma, n, sites, prunable, site);
      LaterSiteDropped(w, closed, gamma, n, c, sites, site);
    }
  }

  /** Two candidates, one selected by a class of the first site and one by a class only the other site admits. */
  lemma {:induction false} LaterSiteDropped(w: World, closed: bool, gamma: Gamma, n: Node, c: Node, sites: seq<Site>, site: Site)
    requires site in sites && var first := GammaForSite(w, closed, gamma, n, sites[0]);
             first.Types? && first.classes != {} && !Below(GammaForSite(w, closed, gamma, n, site), first)
    ensures exists candidates: seq<Selection>, targets: seq<Node> ::
              && (forall s :: s in candidates ==> s.target in targets)
              && !ServesAllSites(w, closed, gamma, n, c, sites, Dispatch(candidates, true), targets)
  {
    var first, other := GammaForSite(w, closed, gamma, n, sites[0]), GammaForSite(w, closed, gamma, n, site);
    var a := SomeClass(first.classes);
    var b := ClassOutside(other, first.classes);
    var kept, lost := Selection(Some(a), c + 1), Selection(Some(b), c + 2);
    var candidates, targets := [kept, lost], [c + 1, c + 2];
    var d := Dispatch(candidates, true);
    KeepsOne(first.classes, kept, lost);
    assert Decide(w, closed, gamma, n, sites[0], d) == Some([kept]);
    assert lost in candidates && candidates[0] == kept && candidates[1] == lost;
    assert targets[0] == c + 1 && targets[1] == c + 2;
    assert TargetsOf([kept]) == [c + 1];
    WithoutMembers([c + 1], c, c + 2);
    assert lost.target !in Expansion(c, targets, Some([kept]));
    assert !ServesAllSites(w, closed, gamma, n, c, sites, d, targets);
  }

  lemma {:induction false} KeepsOne(classes: set<Usr>, kept: Selection, lost: Selection)
    requires kept.selecting.Some? && kept.selecting.value in classes
    requires lost.selecting.Some? && lost.selecting.value !in classes
    ensures Feasible([kept, lost], classes) == [kept]
  {
    assert [kept, lost][..1] == [kept] && [kept][..0] == [];
    assert Feasible([kept], classes) == [] + [kept] == [kept];
  }

  lemma {:induction false} SomeClass(classes: set<Usr>) returns (a: Usr)
    requires classes != {}
    ensures a in classes
  {
    EmptyOrNot(classes);
    a :| a in classes;
  }

  lemma {:induction false} EmptyOrNot(classes: set<Usr>)
    ensures classes == {} || exists a: Usr :: a in classes
  {
    if forall a: Usr :: a !in classes {
      assert classes == {};
    }
  }

  /** A class admitted by a set that is not below the given classes, and not one of them. */
  lemma {:induction false} ClassOutside(ts: TypeSet, classes: set<Usr>) returns (b: Usr)
    requires !Below(ts, Types(classes))
    ensures Admits(ts, b) && b !in classes
  {
    if ts.Top? {
      b := Fresh(classes);
    } else {
      NotWithin(ts.classes, classes);
      b :| b in ts.classes && b !in classes;
    }
  }

  lemma {:induction false} NotWithin(a: set<Usr>, b: set<Usr>)
    ensures a <= b || exists x: Usr :: x in a && x !in b
  {
    if forall x: Usr :: x in a ==> x in b {
      assert a <= b;
    }
  }

  lemma {:induction false} Fresh(classes: set<Usr>) returns (b: Usr)
    ensures b !in classes
  {
    b := Above(classes);
  }

  lemma {:induction false} Above(classes: set<Usr>) returns (b: Usr)
    ensures forall a :: a in classes ==> a < b
    decreases |classes|
  {
    if classes == {} {
      b := 0;
    } else {
      var a := SomeClass(classes);
      var rest := Above(classes - {a});
      assert classes == (classes - {a}) + {a};
      b := if rest <= a then a + 1 else rest;
    }
  }

  /** Sites with the same receiver provenance are served by the first of them, in every environment. */
  lemma {:induction false} LikeSitesAreServed(w: World, closed: bool, gamma: Gamma, n: Node, sites: seq<Site>, prunable: bool)
    requires forall site :: site in sites ==> site == sites[0]
    ensures FirstSiteServes(w, closed, gamma, n, sites, prunable)
  {
  }

  lemma {:induction false} KidFrom(w: World, closed: bool, gamma: Gamma, n: Node, callees: seq<Node>, m: Node) returns (c: Node)
    requires m in PrunedKids(w, closed, gamma, n, callees)
    ensures c in callees && m in PrunedCallee(w, closed, gamma, n, c)
    decreases |callees|
  {
    var front, last := callees[..|callees| - 1], callees[|callees| - 1];
    assert callees == front + [last];
    if m in PrunedCallee(w, closed, gamma, n, last) {
      c := last;
    } else {
      c := KidFrom(w, closed, gamma, n, front, m);
    }
  }

  lemma {:induction false} CalleeContributes(w: World, closed: bool, gamma: Gamma, n: Node, callees: seq<Node>, c: Node, t: Node)
    requires c in callees && t in PrunedCallee(w, closed, gamma, n, c)
    ensures t in PrunedKids(w, closed, gamma, n, callees)
    decreases |callees|
  {
    var front, last := callees[..|callees| - 1], callees[|callees| - 1];
    assert callees == front + [last];
    if c != last {
      CalleeContributes(w, closed, gamma, n, front, c, t);
    }
  }

  /** A child of a visited node is visited. */
  lemma {:induction false} KidIsVisited(g: Graph, root: Node, n: Node, t: Node)
    requires n == root || n in CallGraph.Nodes(CallGraph.WalkSteps(g, root, None))
    requires t in Succ(g, n)
    ensures t == root || t in CallGraph.Nodes(CallGraph.WalkSteps(g, root, None))
  {
    CallGraph.WalkReachesExactly(g, root);
    assert PathBetween(g, root, root, [root]);
    var p :| PathBetween(g, root, n, p);
    PathSnoc(g, root, n, t, p);
  }

  /**
   At every virtual call c made by a node the pruned walk visits: if the first site of the
   call edge serves this one of its sites, the target selected by a class that the type set of
   the site admits is visited too.
   */
  lemma {:induction false} AdmittedTargetIsVisited(w: World, closed: bool, gamma: Gamma, root: Node, n: Node, c: Node,
                                                   site: Site, s: Selection)
    requires n == root || n in CallGraph.Nodes(CallGraph.WalkSteps(PrunedGraph(w, closed, gamma), root, None))
    requires c in Succ(w.callees, n) && c in w.virtuals && c in w.dispatch && site in SitesAt(w, n, c)
    requires ServedByFirst(w, closed, gamma, n, SitesAt(w, n, c), w.dispatch[c].prunable, site)
    requires SelectionsAreTargets(w) && s in w.dispatch[c].candidates && s.selecting.Some?
    requires Admits(GammaForSite(w, closed, gamma, n, site), s.selecting.value)
    ensures s.target == root
            || s.target in CallGraph.Nodes(CallGraph.WalkSteps(PrunedGraph(w, closed, gamma), root, None))
  {
    AdmittedIsServed(w, closed, gamma, n, c, SitesAt(w, n, c), w.dispatch[c], Succ(w.targets, c), site, s);
    CalleeContributes(w, closed, gamma, n, w.callees[n], c, s.target);
    KidIsVisited(PrunedGraph(w, closed, gamma), root, n, s.target);
  }

  // ---- What the limit makes pruning drop ------------------------------------------------------------

  const RECEIVER: Site := Site(Local, None, None, Some(0), false)

  const SELECTIONS: seq<Selection> :=
    [Selection(Some(11), 21), Selection(Some(12), 22), Selection(Some(13), 23), Selection(Some(14), 24)]

  /** The program of the index, where 5's call of 6 is virtual on its parameter and class 10 + k overrides 6 by 20 + k. */
  function FourClassWorld(ix: GammaEngine.Index): World {
    World(GammaRuns.CallsOf(ix), {6}, map[6 := [21, 22, 23, 24]], map[(5, 6) := [RECEIVER]],
          map[6 := Dispatch(SELECTIONS, true)], {}, map[])
  }

  lemma {:induction false} KeptThree(w: World, gamma: Gamma)
    requires Lookup(gamma, Key(5, Pos(0))) == Some(Types({11, 12, 13}))
    ensures var kept := Decide(w, false, gamma, 5, RECEIVER, Dispatch(SELECTIONS, true));
            kept.Some? && Selection(Some(13), 23) in kept.value && forall s :: s in kept.value ==> s.target in {21, 22, 23}
  {
    assert SELECTIONS[2] in SELECTIONS;
    FeasibleExact(SELECTIONS, {11, 12, 13}, Selection(Some(13), 23));
    forall s | s in Feasible(SELECTIONS, {11, 12, 13}) ensures s.target in {21, 22, 23} {
      FeasibleExact(SELECTIONS, {11, 12, 13}, s);
    }
  }

  lemma {:induction false} KidsOfFive(ix: GammaEngine.Index, gamma: Gamma, m: Node)
    requires GammaEngine.FourCallers(ix) && Lookup(gamma, Key(5, Pos(0))) == Some(Types({11, 12, 13}))
    ensures var g := PrunedGraph(FourClassWorld(ix), false, gamma);
            (m in Succ(g, 5) ==> m in {6, 21, 22, 23}) && 23 in Succ(g, 5)
  {
    var w := FourClassWorld(ix);
    KeptThree(w, gamma);
    var kept := Decide(w, false, gamma, 5, RECEIVER, Dispatch(SELECTIONS, true)).value;
    assert GammaRuns.Callees(ix.calls[5]) == [6];
    assert PrunedKids(w, false, gamma, 5, [6]) == PrunedCallee(w, false, gamma, 5, 6);
    WithoutMembers(TargetsOf(kept), 6, m);
    WithoutMembers(TargetsOf(kept), 6, 23);
    if m in TargetsOf(kept) {
      var i :| 0 <= i < |kept| && TargetsOf(kept)[i] == m;
      assert kept[i] in kept;
    }
    var i :| 0 <= i < |kept| && kept[i] == Selection(Some(13), 23);
    assert TargetsOf(kept)[i] == 23;
  }

  lemma {:induction false} PlainKids(w: World, closed: bool, gamma: Gamma, n: Node, callees: seq<Node>)
    requires forall c :: c in callees ==> c !in w.virtuals
    ensures PrunedKids(w, closed, gamma, n, callees) == callees
    decreases |callees|
  {
    if callees != [] {
      var front, last := callees[..|callees| - 1], callees[|callees| - 1];
      assert callees == front + [last];
      PlainKids(w, closed, gamma, n, front);
    }
  }

  /** Outside 5 the program makes no virtual call, and its calls stay among 1 .. 5. */
  lemma {:induction false} KidsElsewhere(ix: GammaEngine.Index, gamma: Gamma, n: Node, m: Node)
    requires GammaEngine.FourCallers(ix) && n != 5
    ensures m in Succ(PrunedGraph(FourClassWorld(ix), false, gamma), n) ==> m in {1, 2, 3, 4, 5}
  {
    var callees := GammaRuns.Callees(GammaEngine.EdgesOut(ix, n));
    if m in Succ(PrunedGraph(FourClassWorld(ix), false, gamma), n) {
      forall c | c in callees ensures c in {1, 2, 3, 4, 5} {
        var i :| 0 <= i < |callees| && callees[i] == c;
      }
      PlainKids(FourClassWorld(ix), false, gamma, n, callees);
    }
  }

  lemma {:induction false} FourthTargetNotVisited(ix: GammaEngine.Index, gamma: Gamma)
    requires GammaEngine.FourCallers(ix) && Lookup(gamma, Key(5, Pos(0))) == Some(Types({11, 12, 13}))
    ensures 24 !in CallGraph.Nodes(CallGraph.WalkSteps(PrunedGraph(FourClassWorld(ix), false, gamma), 0, None))
  {
    var g := PrunedGraph(FourClassWorld(ix), false, gamma);
    var some := {0, 1, 2, 3, 4, 5, 6, 21, 22, 23};
    forall n, m | n in some && m in Succ(g, n) ensures m in some {
      if n == 5 {
        KidsOfFive(ix, gamma, m);
      } else {
        KidsElsewhere(ix, gamma, n, m);
      }
    }
    CallGraph.WalkReachesExactly(g, 0);
    if Reachable(g, 0, 24) {
      var p :| PathBetween(g, 0, 24, p);
      ClosedHoldsPath(g, some, 0, 24, p);
    }
  }

  /** 0 calls 4 and 4 calls 5, which the third and the fourth target may be selected at. */
  lemma {:induction false} WalkToFive(ix: GammaEngine.Index, gamma: Gamma)
    requires GammaEngine.FourCallers(ix)
    ensures var calls := GammaRuns.CallsOf(ix); 4 in Succ(calls, 0) && 5 in Succ(calls, 4) && 6 in Succ(calls, 5)
    ensures 5 in CallGraph.Nodes(CallGraph.WalkSteps(PrunedGraph(FourClassWorld(ix), false, gamma), 0, None))
  {
    var w := FourClassWorld(ix);
    GammaRuns.CallsOfEdge(ix, 0, 3);
    GammaRuns.CallsOfEdge(ix, 4, 0);
    GammaRuns.CallsOfEdge(ix, 5, 0);
    KidsElsewhereKept(ix, gamma, 0, 4);
    KidsElsewhereKept(ix, gamma, 4, 5);
    var g := PrunedGraph(w, false, gamma);
    assert PathBetween(g, 0, 0, [0]);
    PathSnoc(g, 0, 0, 4, [0]);
    PathSnoc(g, 0, 4, 5, [0] + [4]);
    CallGraph.WalkReachesExactly(g, 0);
  }

  lemma {:induction false} KidsElsewhereKept(ix: GammaEngine.Index, gamma: Gamma, n: Node, m: Node)
    requires m in Succ(GammaRuns.CallsOf(ix), n)
    ensures m in Succ(PrunedGraph(FourClassWorld(ix), false, gamma), n)
  {
    KidsNest(FourClassWorld(ix), false, gamma, n, Succ(GammaRuns.CallsOf(ix), n), m);
  }

  /**
   The K_LIMIT of the engine is visible in the walk. Four callers reach 5 and the
   fourth passes it an object of class 14, which selects 24 at 5's virtual call; yet
   the pruned walk of that very program visits 5 and 23 but never 24.
   */
  lemma {:induction false} LimitDropsATarget(ix: GammaEngine.Index)
    requires GammaEngine.FourCallers(ix)
    ensures var calls := GammaRuns.CallsOf(ix); 4 in Succ(calls, 0) && 5 in Succ(calls, 4) && 6 in Succ(calls, 5)
    ensures var passed := GammaEngine.ArgsOf(ix, GammaEngine.Edge(4, 5));
            |passed| == 1 && ResolveSource(GammaEngine.Analysis(ix, 0).gamma, 4, passed[0]) == Types({14})
    ensures Selection(Some(14), 24) in FourClassWorld(ix).dispatch[6].candidates
    ensures var visited := CallGraph.Nodes(CallGraph.WalkSteps(
                PrunedGraph(FourClassWorld(ix), false, GammaEngine.Analysis(ix, 0).gamma), 0, None));
            5 in visited && 23 in visited && 24 !in visited
  {
    var gamma := GammaEngine.Analysis(ix, 0).gamma;
    GammaEngine.LimitLosesAClass(ix);
    FourthTargetNotVisited(ix, gamma);
    WalkToFive(ix, gamma);
    KidsOfFive(ix, gamma, 23);
    assert SELECTIONS[3] in SELECTIONS;
    var g := PrunedGraph(FourClassWorld(ix), false, gamma);
    CallGraph.WalkReachesExactly(g, 0);
    var p :| PathBetween(g, 0, 5, p);
    PathSnoc(g, 0, 5, 23, p);
  }
}
