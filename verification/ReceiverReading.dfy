/**
 What the type set of a receiver is read from: by value from the site, else from the first
 bound key of its declaration, its static type and its position, else from the site again or
 from the callers (`gamma_for_site`, project/indexer/model.py:1392-1439). Which key is bound
 is decided on the index, and the decision is carried to the pruned walk.
 */
module ReceiverReading {
  import opened Options
  import opened Reachability
  import opened Provenance
  import opened GammaEngine
  import opened GammaRuns
  import opened GammaKeys
  import opened GammaStatic
  import opened Devirtualization
  import opened PruneSoundness
  import CallGraph

  // ---- In one environment ------------------------------------------------------------------

  /** A member, global or call result held by value is of its static type. */
  lemma {:induction false} ValueIsItsType(w: World, closed: bool, gamma: Gamma, ctx: Usr, site: Site, t: Usr)
    requires site.isValue && site.typeUsr == Some(t)
    requires site.srcKind == Member || site.srcKind == Global || site.srcKind == CallResult
    ensures GammaForSite(w, closed, gamma, ctx, site) == Types({t})
  {
  }

  /** Any other receiver with a bound declaration is what that key holds, bound type and position or not. */
  lemma {:induction false} DeclarationComesFirst(w: World, closed: bool, gamma: Gamma, ctx: Usr, site: Site, d: Usr)
    requires !HeldByValue(site) && site.declUsr == Some(d) && Key(ctx, Decl(d)) in gamma
    ensures GammaForSite(w, closed, gamma, ctx, site) == gamma[Key(ctx, Decl(d))]
  {
  }

  lemma {:induction false} TypeComesSecond(w: World, closed: bool, gamma: Gamma, ctx: Usr, site: Site, t: Usr)
    requires !HeldByValue(site) && DeclUnbound(gamma, ctx, site.declUsr)
    requires site.typeUsr == Some(t) && Key(ctx, Decl(t)) in gamma
    ensures GammaForSite(w, closed, gamma, ctx, site) == gamma[Key(ctx, Decl(t))]
  {
  }

  lemma {:induction false} PositionComesThird(w: World, closed: bool, gamma: Gamma, ctx: Usr, site: Site, i: nat)
    requires FallsToPosition(gamma, ctx, site, i) && Key(ctx, Pos(i)) in gamma
    ensures GammaForSite(w, closed, gamma, ctx, site) == gamma[Key(ctx, Pos(i))]
  {
  }

  /** With no key bound, an object built on the spot is of its type, and a parameter is what the callers pass in a closed world. */
  lemma {:induction false} NothingBound(w: World, closed: bool, gamma: Gamma, ctx: Usr, site: Site)
    requires !HeldByValue(site) && DeclUnbound(gamma, ctx, site.declUsr) && DeclUnbound(gamma, ctx, site.typeUsr)
    requires site.paramPos.Some? ==> Key(ctx, Pos(site.paramPos.value)) !in gamma
    ensures var ts := GammaForSite(w, closed, gamma, ctx, site);
            && (site.srcKind == Construct && site.typeUsr.Some? ==> ts == Types({site.typeUsr.value}))
            && (site.srcKind == Local ==> ts == if closed && site.paramPos.Some? then ClosedWorld(w, gamma, ctx, site.paramPos.value) else Top)
            && (site.srcKind != Local && (site.srcKind != Construct || site.typeUsr.None?) ==> ts == Top)
  {
  }

  // ---- Which key is bound, on the index ------------------------------------------------------

  ghost predicate Binds(ix: Index, root: Usr, n: Usr, d: Option<Usr>) {
    d.Some? && BindsKey(ix, root, n, d.value)
  }

  /** A row of a reached call edge into n is at this position or beyond. */
  ghost predicate BindsPosition(ix: Index, root: Usr, n: Usr, i: nat) {
    exists c, e, a :: c in ReachedFrom(ix, root) && e in EdgesOut(ix, c) && e.callee == n && a in ArgsOf(ix, e) && i <= a.position
  }

  ghost predicate ReadsDeclaration(ix: Index, root: Usr, n: Usr, site: Site) {
    !HeldByValue(site) && Binds(ix, root, n, site.declUsr)
  }

  ghost predicate ReadsType(ix: Index, root: Usr, n: Usr, site: Site) {
    !HeldByValue(site) && !Binds(ix, root, n, site.declUsr) && Binds(ix, root, n, site.typeUsr)
  }

  ghost predicate ReadsPosition(ix: Index, root: Usr, n: Usr, site: Site) {
    && !HeldByValue(site) && !Binds(ix, root, n, site.declUsr) && !Binds(ix, root, n, site.typeUsr)
    && site.paramPos.Some? && BindsPosition(ix, root, n, site.paramPos.value)
  }

  /** A bound edge into n has a row at this position or beyond. */
  ghost predicate BoundReaches(ix: Index, bound: seq<(Usr, Edge)>, n: Usr, i: nat) {
    exists b :: b in bound && b.1.callee == n && i < ParamCount(ArgsOf(ix, b.1))
  }

  ghost predicate PositionsKnown(ix: Index, st: State) {
    forall n, i: nat :: Key(n, Pos(i)) in st.gamma <==> BoundReaches(ix, st.bound, n, i)
  }

  lemma {:induction false} EnterPositions(ix: Index, st: State, ctx: Usr)
    requires PositionsKnown(ix, st)
    ensures PositionsKnown(ix, Enter(ix, st, ctx))
  {
    SeedEdgesGrows(ix, st.gamma, ctx, EdgesOut(ix, ctx));
    forall n, i: nat ensures Key(n, Pos(i)) in Enter(ix, st, ctx).gamma <==> Key(n, Pos(i)) in st.gamma {
      assert Lookup(Enter(ix, st, ctx).gamma, Key(n, Pos(i))) == Lookup(st.gamma, Key(n, Pos(i)));
    }
  }

  lemma {:induction false} BindPositions(ix: Index, st: State, c: Usr, e: Edge)
    requires PositionsKnown(ix, st)
    ensures PositionsKnown(ix, Bind(ix, st, c, e))
  {
    var args, r := ArgsOf(ix, e), Bind(ix, st, c, e);
    BindParamsGrows(st.gamma, c, e.callee, args, ParamCount(args));
    forall n, i: nat ensures Key(n, Pos(i)) in r.gamma <==> BoundReaches(ix, r.bound, n, i) {
      assert Lookup(r.gamma, Key(n, Pos(i))).Some? <==> Lookup(st.gamma, Key(n, Pos(i))).Some? || (n == e.callee && i < ParamCount(args));
      OneMoreReaches(ix, st.bound, (c, e), n, i);
    }
  }

  lemma {:induction false} OneMoreReaches(ix: Index, bound: seq<(Usr, Edge)>, b: (Usr, Edge), n: Usr, i: nat)
    ensures BoundReaches(ix, bound + [b], n, i)
       <==> BoundReaches(ix, bound, n, i) || (b.1.callee == n && i < ParamCount(ArgsOf(ix, b.1)))
  {
    assert forall x :: x in bound + [b] <==> x in bound || x == b;
  }

  lemma {:induction false} StepPositions(ix: Index, before: State, after: State)
    requires Stepped(ix, before, after) && PositionsKnown(ix, before)
    ensures PositionsKnown(ix, after)
  {
    if Enters(ix, before, after) {
      var ctx :| ctx !in before.analysed && after == Enter(ix, before, ctx);
      EnterPositions(ix, before, ctx);
    } else if Handles(ix, before, after) {
      var c, e :| c in before.analysed && e in EdgesOut(ix, c) && after == Handle(ix, before, c, e);
      if Count(before, e.callee) < K_LIMIT {
        BindPositions(ix, before, c, e);
      }
    }
  }

  lemma {:induction false} RunPositions(ix: Index, run: seq<State>, last: State, k: nat)
    requires Growing(ix, run, START, last) && k < |run|
    ensures PositionsKnown(ix, run[k])
    decreases k
  {
    if k > 0 {
      RunPositions(ix, run, last, k - 1);
      StepPositions(ix, run[k - 1], run[k]);
    }
  }

  lemma {:induction false} BeyondIff(args: seq<CallArg>, i: nat)
    ensures i < ParamCount(args) <==> exists a :: a in args && i <= a.position
    decreases |args|
  {
    if args != [] {
      var front, last := args[..|args| - 1], args[|args| - 1];
      BeyondIff(front, i);
      assert args == front + [last];
    }
  }

  /** Within the limit the bound positions are decided by the index. */
  lemma {:induction false} PositionBoundIff(ix: Index, root: Usr, n: Usr, i: nat)
    requires WithinLimit(ix, root, n)
    ensures Key(n, Pos(i)) in Analysis(ix, root).gamma <==> BindsPosition(ix, root, n, i)
  {
    var r := Analysis(ix, root);
    RunOnlyGrows(ix, root);
    RunPositions(ix, Run(ix, root), r, |Run(ix, root)| - 1);
    if BoundReaches(ix, r.bound, n, i) {
      var b :| b in r.bound && b.1.callee == n && i < ParamCount(ArgsOf(ix, b.1));
      assert (b.0, b.1) == b;
      EdgeBoundIff(ix, root, b.0, b.1);
      BeyondIff(ArgsOf(ix, b.1), i);
    }
    forall c, e, a | c in ReachedFrom(ix, root) && e in EdgesOut(ix, c) && e.callee == n && a in ArgsOf(ix, e) && i <= a.position
      ensures BoundReaches(ix, r.bound, n, i)
    {
      EdgeBoundIff(ix, root, c, e);
      BeyondIff(ArgsOf(ix, e), i);
      assert (c, e).1.callee == n;
    }
  }

  // ---- The receiver's set after the analysis ---------------------------------------------------

  /** Within the limit the index decides what the finished environment is read through. */
  lemma {:induction false} ReceiverReads(ix: Index, root: Usr, w: World, closed: bool, n: Usr, site: Site)
    requires WithinLimit(ix, root, n)
    ensures var g := Analysis(ix, root).gamma;
            var ts := GammaForSite(w, closed, g, n, site);
            && (ReadsDeclaration(ix, root, n, site) ==> Lookup(g, Key(n, Decl(site.declUsr.value))) == Some(ts))
            && (ReadsType(ix, root, n, site) ==> Lookup(g, Key(n, Decl(site.typeUsr.value))) == Some(ts))
            && (ReadsPosition(ix, root, n, site) ==> Lookup(g, Key(n, Pos(site.paramPos.value))) == Some(ts))
  {
    if site.declUsr.Some? {
      KeyBoundByIndexIff(ix, root, n, site.declUsr.value);
    }
    if site.typeUsr.Some? {
      KeyBoundByIndexIff(ix, root, n, site.typeUsr.value);
    }
    if site.paramPos.Some? {
      PositionBoundIff(ix, root, n, site.paramPos.value);
    }
  }

  /** What the receiver can be, on the index: where every declaration d is the one thing s(d) in all rows. */
  ghost predicate IndexAdmits(ix: Index, root: Usr, s: Usr -> TypeSet, w: World, closed: bool, n: Usr, site: Site, k: Usr) {
    if HeldByValue(site) then site.typeUsr == Some(k)
    else if Binds(ix, root, n, site.declUsr) then Admits(s(site.declUsr.value), k)
    else if Binds(ix, root, n, site.typeUsr) then Admits(s(site.typeUsr.value), k)
    else if site.paramPos.Some? && BindsPosition(ix, root, n, site.paramPos.value) then Passes(ix, root, n, site.paramPos.value, k)
    else if site.srcKind == Construct && site.typeUsr.Some? then site.typeUsr == Some(k)
    else closed && site.srcKind == Local && site.paramPos.Some?
         ==> Admits(ClosedWorld(w, Analysis(ix, root).gamma, n, site.paramPos.value), k)
  }

  lemma {:induction false} ReceiverSetIff(ix: Index, root: Usr, s: Usr -> TypeSet, w: World, closed: bool, n: Usr, site: Site, k: Usr)
    requires Uniform(ix, s) && WithinLimit(ix, root, n)
    ensures Admits(GammaForSite(w, closed, Analysis(ix, root).gamma, n, site), k)
       <==> IndexAdmits(ix, root, s, w, closed, n, site, k)
  {
    var g := Analysis(ix, root).gamma;
    ReceiverReads(ix, root, w, closed, n, site);
    AnalysisStatic(ix, root, s);
    if ReadsPosition(ix, root, n, site) {
      EntriesAreStaticIff(ix, root, s, n, site.paramPos.value, k);
    } else if !HeldByValue(site) && !ReadsDeclaration(ix, root, n, site) && !ReadsType(ix, root, n, site) {
      NothingRead(ix, root, n, site);
      NothingBound(w, closed, g, n, site);
    }
  }

  lemma {:induction false} NothingRead(ix: Index, root: Usr, n: Usr, site: Site)
    requires WithinLimit(ix, root, n)
    requires !Binds(ix, root, n, site.declUsr) && !Binds(ix, root, n, site.typeUsr)
    requires site.paramPos.Some? ==> !BindsPosition(ix, root, n, site.paramPos.value)
    ensures var g := Analysis(ix, root).gamma;
            && DeclUnbound(g, n, site.declUsr) && DeclUnbound(g, n, site.typeUsr)
            && (site.paramPos.Some? ==> Key(n, Pos(site.paramPos.value)) !in g)
  {
    if site.declUsr.Some? {
      KeyBoundByIndexIff(ix, root, n, site.declUsr.value);
    }
    if site.typeUsr.Some? {
      KeyBoundByIndexIff(ix, root, n, site.typeUsr.value);
    }
    if site.paramPos.Some? {
      PositionBoundIff(ix, root, n, site.paramPos.value);
    }
  }

  // ---- Down to the decision and the walk ---------------------------------------------------------

  /** When candidates are dropped at a site, those kept are the ones selected by a class the receiver can be on the index. */
  lemma {:induction false} KeptOnIndexIff(ix: Index, root: Usr, s: Usr -> TypeSet, w: World, closed: bool, n: Usr, site: Site, d: Dispatch,
                                          c: Selection)
    requires Uniform(ix, s) && WithinLimit(ix, root, n) && c in d.candidates && c.selecting.Some?
    ensures var kept := Decide(w, closed, Analysis(ix, root).gamma, n, site, d);
            kept.Some? ==> (c in kept.value <==> IndexAdmits(ix, root, s, w, closed, n, site, c.selecting.value))
  {
    ReceiverSetIff(ix, root, s, w, closed, n, site, c.selecting.value);
    DecideKeepsFeasible(w, closed, Analysis(ix, root).gamma, n, site, d, c);
  }

  /** A receiver read through a declaration of which something unknown was passed keeps every target, whatever its type key holds. */
  lemma {:induction false} UnknownDeclarationKeepsAll(ix: Index, root: Usr, w: World, closed: bool, n: Usr, site: Site, d: Dispatch)
    requires WithinLimit(ix, root, n) && ReadsDeclaration(ix, root, n, site)
    requires Lookup(Analysis(ix, root).gamma, Key(n, Decl(site.declUsr.value))) == Some(Top)
    ensures Decide(w, closed, Analysis(ix, root).gamma, n, site, d) == None
  {
    ReceiverReads(ix, root, w, closed, n, site);
  }

  /** Every target selected by a class that the receiver at the first site can be on the index is visited. */
  lemma {:induction false} IndexTargetIsVisited(ix: Index, root: Usr, s: Usr -> TypeSet, w: World, closed: bool, n: Node, c: Node, t: Selection)
    requires Uniform(ix, s) && WithinLimit(ix, root, n)
    requires var g := PrunedGraph(w, closed, Analysis(ix, root).gamma);
             n == root || n in CallGraph.Nodes(CallGraph.WalkSteps(g, root, None))
    requires c in Succ(w.callees, n) && c in w.virtuals && c in w.dispatch && SitesAt(w, n, c) != []
    requires SelectionsAreTargets(w) && t in w.dispatch[c].candidates && t.selecting.Some?
    requires IndexAdmits(ix, root, s, w, closed, n, SitesAt(w, n, c)[0], t.selecting.value)
    ensures var g := PrunedGraph(w, closed, Analysis(ix, root).gamma);
            t.target == root || t.target in CallGraph.Nodes(CallGraph.WalkSteps(g, root, None))
  {
    var site := SitesAt(w, n, c)[0];
    ReceiverSetIff(ix, root, s, w, closed, n, site, t.selecting.value);
    AdmittedTargetIsVisited(w, closed, Analysis(ix, root).gamma, root, n, c, site, t);
  }
}
