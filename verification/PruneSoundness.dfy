/**
 Engine and prune together: which targets of the receivers a program passes the pruned walk
 is sure to visit, by conditions on the index, and two programs on which it drops one.
 */
module PruneSoundness {
  import opened Options
  import opened Reachability
  import opened Provenance
  import opened GammaEngine
  import opened GammaRuns
  import opened GammaKeys
  import opened Devirtualization
  import CallGraph

  // ---- Receivers that are parameters ------------------------------------------------------

  /** A member, global or call result held by value, whose class is known without the environment. */
  predicate HeldByValue(site: Site) {
    site.isValue && (site.srcKind == Member || site.srcKind == Global || site.srcKind == CallResult) && site.typeUsr.Some?
  }

  predicate DeclUnbound(gamma: Gamma, ctx: Usr, d: Option<Usr>) {
    d.Some? ==> Key(ctx, Decl(d.value)) !in gamma
  }

  /** In this environment the receiver is looked up by its parameter position: no shortcut and no earlier key applies. */
  predicate FallsToPosition(gamma: Gamma, ctx: Usr, site: Site, i: nat) {
    && !HeldByValue(site) && DeclUnbound(gamma, ctx, site.declUsr) && DeclUnbound(gamma, ctx, site.typeUsr)
    && site.paramPos == Some(i)
  }

  /** On the index: no row of a call out of n seeds, and no row of a call into n names, the receiver's declaration or type. */
  ghost predicate ReadByPosition(ix: Index, root: Usr, n: Usr, site: Site, i: nat) {
    && !HeldByValue(site)
    && (site.declUsr.Some? ==> !BindsKey(ix, root, n, site.declUsr.value))
    && (site.typeUsr.Some? ==> !BindsKey(ix, root, n, site.typeUsr.value))
    && site.paramPos == Some(i)
  }

  /** Within the limit, whether the finished environment is read by position is decided by the index. */
  lemma {:induction false} ReadByPositionIff(ix: Index, root: Usr, n: Usr, site: Site, i: nat)
    requires WithinLimit(ix, root, n)
    ensures FallsToPosition(Analysis(ix, root).gamma, n, site, i) <==> ReadByPosition(ix, root, n, site, i)
  {
    if site.declUsr.Some? {
      KeyBoundByIndexIff(ix, root, n, site.declUsr.value);
    }
    if site.typeUsr.Some? {
      KeyBoundByIndexIff(ix, root, n, site.typeUsr.value);
    }
  }

  /** Some processed call edge into n passed an object of class k, or one of unknown type, at position i. */
  ghost predicate Passed(r: State, n: Usr, i: nat, k: Usr) {
    exists e :: e in r.events && e.Bound? && e.callee == n && i < |e.sets| && Admits(e.sets[i], k)
  }

  /** The positional entries hold exactly what bound call edges passed. */
  lemma {:induction false} PassedIff(events: seq<Event>, n: Usr, i: nat, k: Usr)
    ensures (PosJoin(events, n, i).Some? && Admits(PosJoin(events, n, i).value, k))
       <==> exists e :: e in events && e.Bound? && e.callee == n && i < |e.sets| && Admits(e.sets[i], k)
    decreases |events|
  {
    if events != [] {
      var front, last := events[..|events| - 1], events[|events| - 1];
      PassedIff(front, n, i, k);
      assert events == front + [last];
    }
  }

  /**
   Where the receiver at the first site of a virtual call is a parameter of the caller n that
   no row seeds or names, and at most K_LIMIT call edges lead into n from callables the root
   reaches, every target selected by a class that one of those edges passes is visited.
   */
  lemma {:induction false} PassedTargetIsVisited(ix: Index, w: World, closed: bool, root: Node, n: Node, c: Node, i: nat, s: Selection)
    requires var g := PrunedGraph(w, closed, Analysis(ix, root).gamma);
             n == root || n in CallGraph.Nodes(CallGraph.WalkSteps(g, root, None))
    requires c in Succ(w.callees, n) && c in w.virtuals && c in w.dispatch && SitesAt(w, n, c) != []
    requires SelectionsAreTargets(w) && s in w.dispatch[c].candidates && s.selecting.Some?
    requires ReadByPosition(ix, root, n, SitesAt(w, n, c)[0], i)
    requires WithinLimit(ix, root, n) && Passed(Analysis(ix, root), n, i, s.selecting.value)
    ensures var g := PrunedGraph(w, closed, Analysis(ix, root).gamma);
            s.target == root || s.target in CallGraph.Nodes(CallGraph.WalkSteps(g, root, None))
  {
    var r, site := Analysis(ix, root), SitesAt(w, n, c)[0];
    ReadByPositionIff(ix, root, n, site, i);
    EveryEdgeAdmittedIff(ix, root, n);
    var e :| e in r.events && e.Bound? && e.callee == n && i < |e.sets| && Admits(e.sets[i], s.selecting.value);
    var k :| 0 <= k < |r.events| && r.events[k] == e;
    assert Below(r.events[k].sets[i], r.gamma[Key(n, Pos(i))]);
    assert GammaForSite(w, closed, r.gamma, n, site) == r.gamma[Key(n, Pos(i))];
    AdmittedTargetIsVisited(w, closed, r.gamma, root, n, c, site, s);
  }

  // ---- Programs of two levels -----------------------------------------------------------------

  /** 0 calls 1, and 1 calls only 2 and 3, which call nothing. */
  ghost predicate TwoLevels(ix: Index) {
    && EdgesOut(ix, 0) == [Edge(0, 1)]
    && (forall e :: e in EdgesOut(ix, 1) ==> e.callee == 2 || e.callee == 3)
    && forall c :: c != 0 && c != 1 ==> EdgesOut(ix, c) == []
  }

  /** The environment when 1 has been bound and entered. */
  ghost function InsideOne(ix: Index): Gamma {
    SeedEdges(ix, Bind(ix, Enter(ix, START, 0), 0, Edge(0, 1)).gamma, 1, EdgesOut(ix, 1))
  }

  lemma {:induction false} LeafCall(ix: Index, u: set<Usr>, st: State, e: Edge, k: Key)
    requires TwoLevels(ix) && Bounds(ix, u) && e.callee in u && (e.callee == 2 || e.callee == 3) && k.ctx == 1
    ensures Lookup(AfterCall(ix, u, st, 1, e).gamma, k) == Lookup(st.gamma, k)
  {
    if Count(st, e.callee) < K_LIMIT {
      var st1, args := Bind(ix, st, 1, e), ArgsOf(ix, e);
      BindParamsInside(st.gamma, 1, e.callee, args, ParamCount(args));
      if e.callee !in st1.analysed {
        var st2 := Enter(ix, st1, e.callee);
        assert AfterEdges(ix, u, st2, e.callee, 0) == st2;
      }
    }
  }

  lemma {:induction false} LeafCalls(ix: Index, u: set<Usr>, st: State, i: nat, k: Key)
    requires TwoLevels(ix) && Bounds(ix, u) && 1 in u && i <= |EdgesOut(ix, 1)| && k.ctx == 1
    ensures Lookup(AfterEdges(ix, u, st, 1, i).gamma, k) == Lookup(st.gamma, k)
    decreases |EdgesOut(ix, 1)| - i
  {
    if i < |EdgesOut(ix, 1)| {
      var e := EdgesOut(ix, 1)[i];
      LeafCall(ix, u, st, e, k);
      LeafCalls(ix, u, AfterCall(ix, u, st, 1, e), i + 1, k);
    }
  }

  /** What 1's keys hold in the end they hold once 1 is entered. */
  lemma {:induction false} TwoLevelRun(ix: Index, k: Key)
    requires TwoLevels(ix) && k.ctx == 1
    ensures Lookup(Analysis(ix, 0).gamma, k) == Lookup(InsideOne(ix), k)
  {
    var u := Universe(ix, 0);
    UniverseBounds(ix, 0);
    assert EdgesOut(ix, 0)[0].callee == 1;
    var st1 := Enter(ix, START, 0);
    var st2 := Bind(ix, st1, 0, Edge(0, 1));
    var st3 := AfterCall(ix, u, st1, 0, Edge(0, 1));
    assert AfterEdges(ix, u, st3, 0, 1) == st3;
    assert AfterEdges(ix, u, st1, 0, 0) == st3;
    assert 1 !in st2.analysed && st3 == AfterVisit(ix, u, st2, 1);
    assert st3 == AfterEdges(ix, u, Enter(ix, st2, 1), 1, 0);
    LeafCalls(ix, u, Enter(ix, st2, 1), 0, k);
  }

  /** 2 is virtual: class 11 selects 21 and class 12 selects 22; 1 calls it at the given sites. */
  function TwoClassWorld(ix: Index, sites: seq<Site>): World {
    World(CallsOf(ix), {2}, map[2 := [21, 22]], map[(1, 2) := sites],
          map[2 := Dispatch([Selection(Some(11), 21), Selection(Some(12), 22)], true)], {}, map[])
  }

  lemma {:induction false} KeptFirst(w: World, gamma: Gamma, site: Site)
    requires GammaForSite(w, false, gamma, 1, site) == Types({11})
    ensures Decide(w, false, gamma, 1, site, Dispatch([Selection(Some(11), 21), Selection(Some(12), 22)], true))
         == Some([Selection(Some(11), 21)])
  {
    KeepsOne({11}, Selection(Some(11), 21), Selection(Some(12), 22));
  }

  lemma {:induction false} CalleeOfOne(ix: Index, gamma: Gamma, sites: seq<Site>, m: Node)
    requires sites != [] && GammaForSite(TwoClassWorld(ix, sites), false, gamma, 1, sites[0]) == Types({11})
    ensures m in PrunedCallee(TwoClassWorld(ix, sites), false, gamma, 1, 2) <==> m == 2 || m == 21
    ensures PrunedCallee(TwoClassWorld(ix, sites), false, gamma, 1, 3) == [3]
  {
    var w := TwoClassWorld(ix, sites);
    KeptFirst(w, gamma, sites[0]);
    assert TargetsOf([Selection(Some(11), 21)]) == [21];
    WithoutMembers([21], 2, m);
  }

  lemma {:induction false} KidsOfTwoLevels(ix: Index, gamma: Gamma, sites: seq<Site>, n: Node, m: Node)
    requires TwoLevels(ix) && sites != [] && GammaForSite(TwoClassWorld(ix, sites), false, gamma, 1, sites[0]) == Types({11})
    requires m in Succ(PrunedGraph(TwoClassWorld(ix, sites), false, gamma), n)
    ensures if n == 0 then m == 1 else n == 1 && m in {2, 3, 21}
  {
    var w := TwoClassWorld(ix, sites);
    var callees := Callees(EdgesOut(ix, n));
    assert Succ(w.callees, n) == callees;
    var c := KidFrom(w, false, gamma, n, callees, m);
    var i :| 0 <= i < |callees| && callees[i] == c;
    assert EdgesOut(ix, n)[i] in EdgesOut(ix, n);
    if n == 0 {
      assert PrunedCallee(w, false, gamma, 0, 1) == [1];
    } else {
      CalleeOfOne(ix, gamma, sites, m);
    }
  }

  /** The walk visits the target of class 11 and never that of class 12. */
  lemma {:induction false} OnlyFirstTarget(ix: Index, gamma: Gamma, sites: seq<Site>, e: Edge)
    requires TwoLevels(ix) && sites != [] && GammaForSite(TwoClassWorld(ix, sites), false, gamma, 1, sites[0]) == Types({11})
    requires e in EdgesOut(ix, 1) && e.callee == 2
    ensures var visited := CallGraph.Nodes(CallGraph.WalkSteps(PrunedGraph(TwoClassWorld(ix, sites), false, gamma), 0, None));
            1 in visited && 21 in visited && 22 !in visited
  {
    VisitsFirst(ix, gamma, sites, e);
    NeverSecond(ix, gamma, sites);
  }

  lemma {:induction false} NeverSecond(ix: Index, gamma: Gamma, sites: seq<Site>)
    requires TwoLevels(ix) && sites != [] && GammaForSite(TwoClassWorld(ix, sites), false, gamma, 1, sites[0]) == Types({11})
    ensures 22 !in CallGraph.Nodes(CallGraph.WalkSteps(PrunedGraph(TwoClassWorld(ix, sites), false, gamma), 0, None))
  {
    var g := PrunedGraph(TwoClassWorld(ix, sites), false, gamma);
    var some := {0, 1, 2, 3, 21};
    forall n, m | n in some && m in Succ(g, n) ensures m in some {
      KidsOfTwoLevels(ix, gamma, sites, n, m);
    }
    CallGraph.WalkReachesExactly(g, 0);
    if Reachable(g, 0, 22) {
      var p :| PathBetween(g, 0, 22, p);
      ClosedHoldsPath(g, some, 0, 22, p);
    }
  }

  lemma {:induction false} VisitsFirst(ix: Index, gamma: Gamma, sites: seq<Site>, e: Edge)
    requires TwoLevels(ix) && sites != [] && GammaForSite(TwoClassWorld(ix, sites), false, gamma, 1, sites[0]) == Types({11})
    requires e in EdgesOut(ix, 1) && e.callee == 2
    ensures var visited := CallGraph.Nodes(CallGraph.WalkSteps(PrunedGraph(TwoClassWorld(ix, sites), false, gamma), 0, None));
            1 in visited && 21 in visited
  {
    var w := TwoClassWorld(ix, sites);
    var g := PrunedGraph(w, false, gamma);
    var i :| 0 <= i < |EdgesOut(ix, 1)| && EdgesOut(ix, 1)[i] == e;
    CallsOfEdge(ix, 0, 0);
    CallsOfEdge(ix, 1, i);
    CalleeContributes(w, false, gamma, 0, w.callees[0], 1, 1);
    CalleeOfOne(ix, gamma, sites, 21);
    CalleeContributes(w, false, gamma, 1, w.callees[1], 2, 21);
    KidIsVisited(g, 0, 0, 1);
    KidIsVisited(g, 0, 1, 21);
    CallGraph.WalkReachesExactly(g, 0);
  }

  /** 1's parameters hold what its one call passes. */
  lemma {:induction false} PositionsOfOne(ix: Index, i: nat)
    requires TwoLevels(ix)
    ensures var args := ArgsOf(ix, Edge(0, 1));
            var sets := BindParams(Enter(ix, START, 0).gamma, 0, 1, args, ParamCount(args)).sets;
            |sets| == ParamCount(args)
            && Lookup(Analysis(ix, 0).gamma, Key(1, Pos(i))) == if i < |sets| then Some(JoinOpt(None, sets[i])) else None
  {
    var args, before := ArgsOf(ix, Edge(0, 1)), Enter(ix, START, 0).gamma;
    var b := BindParams(before, 0, 1, args, ParamCount(args));
    TwoLevelRun(ix, Key(1, Pos(i)));
    SeedEdgesGrows(ix, map[], 0, EdgesOut(ix, 0));
    BindParamsGrows(before, 0, 1, args, ParamCount(args));
    SeedEdgesGrows(ix, b.gamma, 1, EdgesOut(ix, 1));
    assert Lookup(before, Key(1, Pos(i))) == Lookup(map[], Key(1, Pos(i))) == None;
  }

  /** A position with one row whose class is fixed by the row is bound to that class. */
  lemma {:induction false} FixedSet(gamma: Gamma, caller: Usr, callee: Usr, args: seq<CallArg>, n: nat, i: nat, a: CallArg)
    requires i < n && AtPosition(args, i) == [a] && a.typeUsr.Some?
    requires a.srcKind == Construct || (a.srcKind == Local && a.isValue)
    ensures |BindParams(gamma, caller, callee, args, n).sets| == n
    ensures BindParams(gamma, caller, callee, args, n).sets[i] == Types({a.typeUsr.value})
    decreases n
  {
    if i < n - 1 {
      FixedSet(gamma, caller, callee, args, n - 1, i, a);
    }
    OneMoreSet(gamma, caller, callee, args, n);
    ResolveOne(BindParams(gamma, caller, callee, args, n - 1).gamma, caller, a);
  }

  lemma {:induction false} ResolveOne(gamma: Gamma, caller: Usr, a: CallArg)
    requires a.typeUsr.Some? && (a.srcKind == Construct || (a.srcKind == Local && a.isValue))
    ensures ResolveAll(gamma, caller, [a]) == Types({a.typeUsr.value})
  {
    assert [a][..0] == [] && {} + {a.typeUsr.value} == {a.typeUsr.value};
  }

  // ---- The first site speaks for all ------------------------------------------------------------

  /** `void n(Base& p, Base& q) { p.f(); q.f(); }`, called with an A (class 11) and a B (class 12). */
  const TWO_RECEIVERS: Index :=
    Index(map[0 := [Edge(0, 1)], 1 := [Edge(1, 2)]],
          map[0 := [CallArg(0, Construct, Some(11), None, true), CallArg(1, Construct, Some(12), None, true)]])

  ghost predicate TwoReceivers(ix: Index) {
    && TwoLevels(ix) && EdgesOut(ix, 1) == [Edge(1, 2)] && ArgsOf(ix, Edge(1, 2)) == []
    && ArgsOf(ix, Edge(0, 1)) == [CallArg(0, Construct, Some(11), None, true), CallArg(1, Construct, Some(12), None, true)]
  }

  lemma {:induction false} TwoReceiversExist()
    ensures TwoReceivers(TWO_RECEIVERS)
  {
  }

  /** The receiver declared as `decl` with static type 10, a parameter at the position. */
  function Receiver(decl: Usr, position: nat): Site {
    Site(Local, Some(10), Some(decl), Some(position), false)
  }

  lemma {:induction false} PositionsOfTwo(args: seq<CallArg>)
    requires |args| == 2 && args[0].position == 0 && args[1].position == 1
    ensures AtPosition(args, 0) == [args[0]] && AtPosition(args, 1) == [args[1]] && ParamCount(args) == 2
  {
    assert args[..1] == [args[0]] && [args[0]][..0] == [];
    assert ParamCount([]) == 0 && ParamCount(args[..1]) == 1;
    assert AtPosition(args[..1], 0) == [] + [args[0]] && AtPosition(args[..1], 1) == [];
    assert [] + [args[1]] == [args[1]] && [] + [args[0]] == [args[0]];
  }

  lemma {:induction false} TwoReceiversBound(ix: Index, i: nat)
    requires TwoReceivers(ix) && i < 2
    ensures Lookup(Analysis(ix, 0).gamma, Key(1, Pos(i))) == Some(Types({11 + i}))
  {
    var args := ArgsOf(ix, Edge(0, 1));
    PositionsOfOne(ix, i);
    PositionsOfTwo(args);
    FixedSet(Enter(ix, START, 0).gamma, 0, 1, args, 2, i, args[i]);
    JoinsNothing({11 + i});
  }

  lemma {:induction false} JoinsNothing(classes: set<Usr>)
    ensures JoinOpt(None, Types(classes)) == Types(classes)
  {
    assert {} + classes == classes;
  }

  /** In a program of two levels a declaration key of 1 comes from 1's calls or from the one call of it. */
  lemma {:induction false} KeyOfOne(ix: Index, d: Usr)
    requires TwoLevels(ix)
    ensures Key(1, Decl(d)) in Analysis(ix, 0).gamma <==> RowsName(ArgsOf(ix, Edge(0, 1)), d) || Seeds(ix, 1, d)
  {
    var k := Key(1, Decl(d));
    TwoLevelRun(ix, k);
    SeedEdgesInside(ix, map[], 0, EdgesOut(ix, 0));
    assert Lookup(Enter(ix, START, 0).gamma, k) == Lookup(map[], k);
    BindKeys(ix, Enter(ix, START, 0), 0, Edge(0, 1), 1, d);
    SeedEdgesKeys(ix, Bind(ix, Enter(ix, START, 0), 0, Edge(0, 1)).gamma, 1, EdgesOut(ix, 1), 1, d);
    assert EdgesSeed(ix, EdgesOut(ix, 1), d) <==> Seeds(ix, 1, d);
  }

  /** Neither receiver is read through its declaration or its type. */
  lemma {:induction false} TwoReceiversRead(ix: Index, decl: Usr, i: nat)
    requires TwoReceivers(ix) && i < 2 && decl > 12
    ensures FallsToPosition(Analysis(ix, 0).gamma, 1, Receiver(decl, i), i)
  {
    KeyOfOne(ix, 10);
    KeyOfOne(ix, decl);
  }

  /**
   1 makes two virtual calls of 2, one on each of its parameters. They are one call edge, whose
   first site admits class 11 only; so the target of class 12, which the second site admits and
   the one caller passes there, is never visited.
   */
  lemma {:induction false} SecondSiteIsOverlooked(ix: Index, w: World)
    requires TwoReceivers(ix) && w == TwoClassWorld(ix, [Receiver(41, 0), Receiver(42, 1)])
    ensures var sites, gamma := SitesAt(w, 1, 2), Analysis(ix, 0).gamma;
            && GammaForSite(w, false, gamma, 1, sites[0]) == Types({11})
            && GammaForSite(w, false, gamma, 1, sites[1]) == Types({12})
    ensures var visited := CallGraph.Nodes(CallGraph.WalkSteps(PrunedGraph(w, false, Analysis(ix, 0).gamma), 0, None));
            1 in visited && 21 in visited && 22 !in visited
  {
    var sites := [Receiver(41, 0), Receiver(42, 1)];
    TwoReceiversBound(ix, 0);
    TwoReceiversBound(ix, 1);
    TwoReceiversRead(ix, 41, 0);
    TwoReceiversRead(ix, 42, 1);
    OnlyFirstTarget(ix, Analysis(ix, 0).gamma, sites, Edge(1, 2));
  }

  // ---- The static type of a forwarded parameter ----------------------------------------------------

  /** `void f(Base& p) { p.rank(); g(p); }`, called with a local of class 12; Base is 11 and p is 41. */
  const FORWARDED: Index :=
    Index(map[0 := [Edge(0, 1)], 1 := [Edge(1, 2), Edge(2, 3)]],
          map[0 := [CallArg(0, Local, Some(12), Some(31), true)], 2 := [CallArg(0, Local, Some(11), Some(41), false)]])

  ghost predicate Forwards(ix: Index) {
    && TwoLevels(ix) && EdgesOut(ix, 1) == [Edge(1, 2), Edge(2, 3)] && ArgsOf(ix, Edge(1, 2)) == []
    && ArgsOf(ix, Edge(0, 1)) == [CallArg(0, Local, Some(12), Some(31), true)]
    && ArgsOf(ix, Edge(2, 3)) == [CallArg(0, Local, Some(11), Some(41), false)]
  }

  lemma {:induction false} ForwardsExist()
    ensures Forwards(FORWARDED)
  {
  }

  const PARAMETER: Site := Site(Local, Some(11), Some(41), Some(0), false)

  lemma {:induction false} ForwardedIsSeeded(ix: Index)
    requires Forwards(ix)
    ensures Lookup(Analysis(ix, 0).gamma, Key(1, Decl(41))) == Some(Types({11}))
  {
    var k := Key(1, Decl(41));
    TwoLevelRun(ix, k);
    BindKeys(ix, Enter(ix, START, 0), 0, Edge(0, 1), 1, 41);
    SeedEdgesInside(ix, map[], 0, EdgesOut(ix, 0));
    assert Lookup(Enter(ix, START, 0).gamma, k) == Lookup(map[], k);
    SeededOnce(ix, Bind(ix, Enter(ix, START, 0), 0, Edge(0, 1)).gamma);
  }

  lemma {:induction false} SeededOnce(ix: Index, bound: Gamma)
    requires Forwards(ix) && Key(1, Decl(41)) !in bound
    ensures Lookup(SeedEdges(ix, bound, 1, EdgesOut(ix, 1)), Key(1, Decl(41))) == Some(Types({11}))
  {
    var edges, row := EdgesOut(ix, 1), CallArg(0, Local, Some(11), Some(41), false);
    assert edges[..1] == [edges[0]] && [edges[0]][..0] == [] && [row][..0] == [];
    assert SeedEdges(ix, bound, 1, edges[..1]) == bound;
    assert SeedEdges(ix, bound, 1, edges) == SeedArg(bound, 1, row);
    assert {} + {11} == {11};
  }

  lemma {:induction false} ForwardedIsPassed(ix: Index)
    requires Forwards(ix)
    ensures Passed(Analysis(ix, 0), 1, 0, 12)
  {
    var args, r := ArgsOf(ix, Edge(0, 1)), Analysis(ix, 0);
    PositionOfOneRow(args);
    PositionsOfOne(ix, 0);
    FixedSet(Enter(ix, START, 0).gamma, 0, 1, args, 1, 0, args[0]);
    JoinsNothing({12});
    AnalysisExact(ix, 0);
    PassedIff(r.events, 1, 0, 12);
  }

  lemma {:induction false} OneCallOfOne(ix: Index, root: Usr)
    requires TwoLevels(ix)
    ensures WithinLimit(ix, root, 1)
  {
    var into := EdgesInto(ix, ReachedFrom(ix, root), 1);
    forall x | x in into ensures x == (0, 0) {
      assert EdgesOut(ix, x.0)[x.1] in EdgesOut(ix, x.0);
    }
    assert into == {} || into == {(0, 0)};
  }

  /**
   1 calls 2 on its parameter and also forwards the parameter to 3. The row of that second call
   seeds the parameter's declaration with its static type 11, and the declaration is looked up
   before the position: so the target of class 12, the one class ever passed, is never visited,
   although 1 is called once only.
   */
  lemma {:induction false} ForwardingDropsATarget(ix: Index, w: World)
    requires Forwards(ix) && w == TwoClassWorld(ix, [PARAMETER])
    ensures Passed(Analysis(ix, 0), 1, 0, 12) && WithinLimit(ix, 0, 1)
    ensures PARAMETER.paramPos == Some(0) && !ReadByPosition(ix, 0, 1, PARAMETER, 0)
    ensures var visited := CallGraph.Nodes(CallGraph.WalkSteps(PrunedGraph(w, false, Analysis(ix, 0).gamma), 0, None));
            1 in visited && 21 in visited && 22 !in visited
  {
    ForwardedIsPassed(ix);
    ForwardedIsSeeded(ix);
    OneCallOfOne(ix, 0);
    ReadByPositionIff(ix, 0, 1, PARAMETER, 0);
    OnlyFirstTarget(ix, Analysis(ix, 0).gamma, [PARAMETER], Edge(1, 2));
  }
}
