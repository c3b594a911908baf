/**
 Which call edges a run of the propagation engine binds, and which declaration and type
 keys its final environment holds, decided by the call edges and argument rows of the index.
 */
module GammaKeys {
  import opened Options
  import opened Reachability
  import opened Provenance
  import opened GammaEngine
  import opened GammaRuns

  // ---- What a row seeds in its caller and names in its callee ---------------------------

  /** The key `_seed_locals` writes for a row, in the caller's own context. */
  function SeedOf(a: CallArg): Option<Usr> {
    if a.srcKind == Construct && a.typeUsr.Some? then a.typeUsr
    else if (a.srcKind == Local || a.srcKind == This) && a.declUsr.Some? && a.typeUsr.Some? then a.declUsr
    else None
  }

  /** The keys `_bind_and_visit` writes for a row in the callee's context. */
  predicate Names(a: CallArg, d: Usr) {
    a.declUsr == Some(d) || (a.srcKind == Construct && a.typeUsr == Some(d))
  }

  predicate RowsSeed(args: seq<CallArg>, d: Usr) {
    exists a :: a in args && SeedOf(a) == Some(d)
  }

  predicate RowsName(args: seq<CallArg>, d: Usr) {
    exists a :: a in args && Names(a, d)
  }

  /** Some row of a call made by n seeds d. */
  predicate Seeds(ix: Index, n: Usr, d: Usr) {
    exists e :: e in EdgesOut(ix, n) && RowsSeed(ArgsOf(ix, e), d)
  }

  predicate EdgesSeed(ix: Index, edges: seq<Edge>, d: Usr) {
    exists e :: e in edges && RowsSeed(ArgsOf(ix, e), d)
  }

  // ---- Which keys one step adds -----------------------------------------------------------

  lemma {:induction false} SeedArgsKeys(gamma: Gamma, ctx: Usr, args: seq<CallArg>, u: Usr, d: Usr)
    ensures Key(u, Decl(d)) in SeedArgs(gamma, ctx, args) <==> Key(u, Decl(d)) in gamma || (u == ctx && RowsSeed(args, d))
    decreases |args|
  {
    if args != [] {
      var front, last := args[..|args| - 1], args[|args| - 1];
      SeedArgsKeys(gamma, ctx, front, u, d);
      assert args == front + [last];
      assert RowsSeed(args, d) <==> RowsSeed(front, d) || SeedOf(last) == Some(d);
    }
  }

  lemma {:induction false} SeedEdgesKeys(ix: Index, gamma: Gamma, ctx: Usr, edges: seq<Edge>, u: Usr, d: Usr)
    ensures Key(u, Decl(d)) in SeedEdges(ix, gamma, ctx, edges)
       <==> Key(u, Decl(d)) in gamma || (u == ctx && EdgesSeed(ix, edges, d))
    decreases |edges|
  {
    if edges != [] {
      var front, last := edges[..|edges| - 1], edges[|edges| - 1];
      SeedEdgesKeys(ix, gamma, ctx, front, u, d);
      SeedArgsKeys(SeedEdges(ix, gamma, ctx, front), ctx, ArgsOf(ix, last), u, d);
      assert edges == front + [last];
    }
  }

  lemma {:induction false} BindDeclsKeys(gamma: Gamma, caller: Usr, callee: Usr, args: seq<CallArg>, u: Usr, d: Usr)
    ensures Key(u, Decl(d)) in BindDecls(gamma, caller, callee, args)
       <==> Key(u, Decl(d)) in gamma || (u == callee && RowsName(args, d))
    decreases |args|
  {
    if args != [] {
      var front, last := args[..|args| - 1], args[|args| - 1];
      BindDeclsKeys(gamma, caller, callee, front, u, d);
      assert args == front + [last];
      assert RowsName(args, d) <==> RowsName(front, d) || Names(last, d);
    }
  }

  lemma {:induction false} AtPositionHolds(args: seq<CallArg>, i: nat, a: CallArg)
    ensures a in AtPosition(args, i) <==> a in args && a.position == i
    decreases |args|
  {
    if args != [] {
      AtPositionHolds(args[..|args| - 1], i, a);
      assert args == args[..|args| - 1] + [args[|args| - 1]];
    }
  }

  lemma {:induction false} CountedPositions(args: seq<CallArg>, a: CallArg)
    requires a in args
    ensures a.position < ParamCount(args)
    decreases |args|
  {
    if a != args[|args| - 1] {
      assert args == args[..|args| - 1] + [args[|args| - 1]];
      CountedPositions(args[..|args| - 1], a);
    }
  }

  /** Binding the n-th position keeps the sets before it and adds its own. */
  lemma {:induction false} OneMoreSet(gamma: Gamma, caller: Usr, callee: Usr, args: seq<CallArg>, n: nat)
    requires n > 0
    ensures var before, after := BindParams(gamma, caller, callee, args, n - 1), BindParams(gamma, caller, callee, args, n);
            && |after.sets| == n && |before.sets| == n - 1 && after.sets[..n - 1] == before.sets
            && after.sets[n - 1] == ResolveAll(before.gamma, caller, AtPosition(args, n - 1))
  {
    BindParamsGrows(gamma, caller, callee, args, n - 1);
  }

  lemma {:induction false} PositionOfOneRow(args: seq<CallArg>)
    requires |args| == 1 && args[0].position == 0
    ensures ParamCount(args) == 1 && AtPosition(args, 0) == [args[0]]
  {
    assert args[..0] == [] && ParamCount([]) == 0 && AtPosition([], 0) == [];
    assert [] + [args[0]] == [args[0]];
  }

  /** Some row at one of the first n positions names d. */
  ghost predicate NamedBelow(args: seq<CallArg>, n: nat, d: Usr) {
    exists a :: a in args && a.position < n && Names(a, d)
  }

  lemma {:induction false} BindParamsKeys(gamma: Gamma, caller: Usr, callee: Usr, args: seq<CallArg>, n: nat, u: Usr, d: Usr)
    ensures Key(u, Decl(d)) in BindParams(gamma, caller, callee, args, n).gamma
       <==> Key(u, Decl(d)) in gamma || (u == callee && NamedBelow(args, n, d))
    decreases n
  {
    if n > 0 {
      BindParamsKeys(gamma, caller, callee, args, n - 1, u, d);
      var before := BindParams(gamma, caller, callee, args, n - 1);
      var here := AtPosition(args, n - 1);
      var ts := ResolveAll(before.gamma, caller, here);
      BindDeclsKeys(JoinAt(before.gamma, Key(callee, Pos(n - 1)), ts), caller, callee, here, u, d);
      NamedHere(args, n, d);
    }
  }

  lemma {:induction false} NamedHere(args: seq<CallArg>, n: nat, d: Usr)
    requires n > 0
    ensures NamedBelow(args, n, d) <==> NamedBelow(args, n - 1, d) || RowsName(AtPosition(args, n - 1), d)
  {
    forall a ensures a in AtPosition(args, n - 1) <==> a in args && a.position == n - 1 {
      AtPositionHolds(args, n - 1, a);
    }
  }

  lemma {:induction false} BindKeys(ix: Index, st: State, caller: Usr, e: Edge, u: Usr, d: Usr)
    ensures Key(u, Decl(d)) in Bind(ix, st, caller, e).gamma
       <==> Key(u, Decl(d)) in st.gamma || (u == e.callee && RowsName(ArgsOf(ix, e), d))
  {
    var args := ArgsOf(ix, e);
    BindParamsKeys(st.gamma, caller, e.callee, args, ParamCount(args), u, d);
    forall a | a in args ensures a.position < ParamCount(args) {
      CountedPositions(args, a);
    }
  }

  // ---- The invariant of a run --------------------------------------------------------------

  /** Some bound call edge into n has a row naming d. */
  ghost predicate BoundNames(ix: Index, bound: seq<(Usr, Edge)>, n: Usr, d: Usr) {
    exists b :: b in bound && b.1.callee == n && RowsName(ArgsOf(ix, b.1), d)
  }

  /** A declaration key is there exactly when an entered context seeded it or a bound edge named it. */
  ghost predicate KeysKnown(ix: Index, st: State) {
    forall n, d :: Key(n, Decl(d)) in st.gamma <==> (n in st.analysed && Seeds(ix, n, d)) || BoundNames(ix, st.bound, n, d)
  }

  /** Bound edges leave entered contexts. */
  ghost predicate BoundInside(ix: Index, st: State) {
    forall b :: b in st.bound ==> b.0 in st.analysed && b.1 in EdgesOut(ix, b.0)
  }

  ghost predicate Known(ix: Index, st: State) {
    KeysKnown(ix, st) && BoundInside(ix, st)
  }

  ghost predicate Processed(st: State, c: Usr, e: Edge) {
    (c, e) in st.bound || Skipped(e.callee) in st.events
  }

  ghost predicate Later(before: State, after: State) {
    && before.bound <= after.bound && before.analysed <= after.analysed && before.events <= after.events
  }

  /** The contexts entered in between have had all their call edges processed. */
  ghost predicate Finished(ix: Index, before: State, after: State) {
    forall c, e :: c in after.analysed && c !in before.analysed && e in EdgesOut(ix, c) ==> Processed(after, c, e)
  }

  lemma {:induction false} EnterKnown(ix: Index, st: State, ctx: Usr)
    requires Known(ix, st) && ctx !in st.analysed
    ensures Known(ix, Enter(ix, st, ctx))
  {
    var r := Enter(ix, st, ctx);
    forall n, d
      ensures Key(n, Decl(d)) in r.gamma <==> (n in r.analysed && Seeds(ix, n, d)) || BoundNames(ix, r.bound, n, d)
    {
      SeedEdgesKeys(ix, st.gamma, ctx, EdgesOut(ix, ctx), n, d);
      assert EdgesSeed(ix, EdgesOut(ix, ctx), d) <==> Seeds(ix, ctx, d);
    }
  }

  lemma {:induction false} BindKnown(ix: Index, st: State, caller: Usr, e: Edge)
    requires Known(ix, st) && caller in st.analysed && e in EdgesOut(ix, caller)
    ensures Known(ix, Bind(ix, st, caller, e))
  {
    var r := Bind(ix, st, caller, e);
    forall n, d
      ensures Key(n, Decl(d)) in r.gamma <==> (n in r.analysed && Seeds(ix, n, d)) || BoundNames(ix, r.bound, n, d)
    {
      BindKeys(ix, st, caller, e, n, d);
      OneMoreBound(ix, st.bound, (caller, e), n, d);
    }
  }

  lemma {:induction false} OneMoreBound(ix: Index, bound: seq<(Usr, Edge)>, b: (Usr, Edge), n: Usr, d: Usr)
    ensures BoundNames(ix, bound + [b], n, d)
       <==> BoundNames(ix, bound, n, d) || (b.1.callee == n && RowsName(ArgsOf(ix, b.1), d))
  {
    assert forall x :: x in bound + [b] <==> x in bound || x == b;
  }

  lemma {:induction false} VisitKnown(ix: Index, u: set<Usr>, st: State, ctx: Usr)
    requires Bounds(ix, u) && ctx in u && Known(ix, st)
    ensures var r := AfterVisit(ix, u, st, ctx);
            Known(ix, r) && Later(st, r) && Finished(ix, st, r) && ctx in r.analysed
    decreases u - st.analysed, 0, 0
  {
    if ctx !in st.analysed {
      assert ctx in u - st.analysed;
      EnterKnown(ix, st, ctx);
      EdgesKnown(ix, u, Enter(ix, st, ctx), ctx, 0);
    }
  }

  lemma {:induction false} EdgesKnown(ix: Index, u: set<Usr>, st: State, ctx: Usr, i: nat)
    requires Bounds(ix, u) && ctx in u && Known(ix, st) && ctx in st.analysed && i <= |EdgesOut(ix, ctx)|
    ensures var r := AfterEdges(ix, u, st, ctx, i);
            && Known(ix, r) && Later(st, r) && Finished(ix, st, r)
            && forall e :: e in EdgesOut(ix, ctx)[i..] ==> Processed(r, ctx, e)
    decreases u - st.analysed, 2, |EdgesOut(ix, ctx)| - i
  {
    if i < |EdgesOut(ix, ctx)| {
      var e := EdgesOut(ix, ctx)[i];
      var st1 := AfterCall(ix, u, st, ctx, e);
      assert u - st1.analysed <= u - st.analysed;
      CallKnown(ix, u, st, ctx, e);
      EdgesKnown(ix, u, st1, ctx, i + 1);
      assert EdgesOut(ix, ctx)[i..] == [e] + EdgesOut(ix, ctx)[i + 1..];
    }
  }

  lemma {:induction false} CallKnown(ix: Index, u: set<Usr>, st: State, caller: Usr, e: Edge)
    requires Bounds(ix, u) && e.callee in u && Known(ix, st) && caller in st.analysed && e in EdgesOut(ix, caller)
    ensures var r := AfterCall(ix, u, st, caller, e);
            Known(ix, r) && Later(st, r) && Finished(ix, st, r) && Processed(r, caller, e)
    decreases u - st.analysed, 1, 0
  {
    if Count(st, e.callee) < K_LIMIT {
      var st1 := Bind(ix, st, caller, e);
      assert st1.bound[|st.bound|] == (caller, e);
      BindKnown(ix, st, caller, e);
      VisitKnown(ix, u, st1, e.callee);
    } else {
      assert (st.events + [Skipped(e.callee)])[|st.events|] == Skipped(e.callee);
    }
  }

  lemma {:induction false} RunKnown(ix: Index, root: Usr)
    ensures Known(ix, Analysis(ix, root)) && Finished(ix, START, Analysis(ix, root))
    ensures forall c :: c in Analysis(ix, root).analysed <==> c in ReachedFrom(ix, root)
  {
    UniverseBounds(ix, root);
    VisitKnown(ix, Universe(ix, root), START, root);
    RunCoversReachable(ix, root);
    EnteredTally(ix, root);
  }

  // ---- Bound edges and bound keys, on the index ----------------------------------------------

  /** Within the limit, the bound edges into a callee are its call edges out of what the root reaches. */
  lemma {:induction false} EdgeBoundIff(ix: Index, root: Usr, c: Usr, e: Edge)
    requires WithinLimit(ix, root, e.callee)
    ensures (c, e) in Analysis(ix, root).bound <==> c in ReachedFrom(ix, root) && e in EdgesOut(ix, c)
  {
    RunKnown(ix, root);
    EdgeIgnoredIffOverLimit(ix, root, e.callee);
    if c in ReachedFrom(ix, root) && e in EdgesOut(ix, c) {
      assert Processed(Analysis(ix, root), c, e);
    }
  }

  /** Whatever the limit: a declaration or type key is bound exactly when n is reached and seeds it, or a bound edge into n names it. */
  lemma {:induction false} KeyBoundIff(ix: Index, root: Usr, n: Usr, d: Usr)
    ensures Key(n, Decl(d)) in Analysis(ix, root).gamma
       <==> (n in ReachedFrom(ix, root) && Seeds(ix, n, d)) || BoundNames(ix, Analysis(ix, root).bound, n, d)
  {
    RunKnown(ix, root);
  }

  /** n is reached and a row of one of its calls seeds d, or a row of a reached call edge into n names it. */
  ghost predicate BindsKey(ix: Index, root: Usr, n: Usr, d: Usr) {
    || (n in ReachedFrom(ix, root) && Seeds(ix, n, d))
    || exists c, e :: c in ReachedFrom(ix, root) && e in EdgesOut(ix, c) && e.callee == n && RowsName(ArgsOf(ix, e), d)
  }

  /** Within the limit the bound declaration and type keys are decided by the index alone. */
  lemma {:induction false} KeyBoundByIndexIff(ix: Index, root: Usr, n: Usr, d: Usr)
    requires WithinLimit(ix, root, n)
    ensures Key(n, Decl(d)) in Analysis(ix, root).gamma <==> BindsKey(ix, root, n, d)
  {
    var bound := Analysis(ix, root).bound;
    KeyBoundIff(ix, root, n, d);
    if BoundNames(ix, bound, n, d) {
      var b :| b in bound && b.1.callee == n && RowsName(ArgsOf(ix, b.1), d);
      assert (b.0, b.1) == b;
      EdgeBoundIff(ix, root, b.0, b.1);
    }
    forall c, e | c in ReachedFrom(ix, root) && e in EdgesOut(ix, c) && e.callee == n && RowsName(ArgsOf(ix, e), d)
      ensures BoundNames(ix, bound, n, d)
    {
      EdgeBoundIff(ix, root, c, e);
      assert (c, e).1.callee == n;
    }
  }

  // ---- Steps leave the keys of other contexts alone -----------------------------------------

  ghost predicate SameOutside(before: Gamma, after: Gamma, ctx: Usr) {
    forall k: Key :: k.ctx != ctx ==> Lookup(after, k) == Lookup(before, k)
  }

  lemma {:induction false} SeedArgsInside(gamma: Gamma, ctx: Usr, args: seq<CallArg>)
    ensures SameOutside(gamma, SeedArgs(gamma, ctx, args), ctx)
    decreases |args|
  {
    if args != [] {
      SeedArgsInside(gamma, ctx, args[..|args| - 1]);
    }
  }

  lemma {:induction false} SeedEdgesInside(ix: Index, gamma: Gamma, ctx: Usr, edges: seq<Edge>)
    ensures SameOutside(gamma, SeedEdges(ix, gamma, ctx, edges), ctx)
    decreases |edges|
  {
    if edges != [] {
      var front := SeedEdges(ix, gamma, ctx, edges[..|edges| - 1]);
      SeedEdgesInside(ix, gamma, ctx, edges[..|edges| - 1]);
      SeedArgsInside(front, ctx, ArgsOf(ix, edges[|edges| - 1]));
    }
  }

  lemma {:induction false} BindDeclsInside(gamma: Gamma, caller: Usr, callee: Usr, args: seq<CallArg>)
    ensures SameOutside(gamma, BindDecls(gamma, caller, callee, args), callee)
    decreases |args|
  {
    if args != [] {
      BindDeclsInside(gamma, caller, callee, args[..|args| - 1]);
    }
  }

  lemma {:induction false} BindParamsInside(gamma: Gamma, caller: Usr, callee: Usr, args: seq<CallArg>, n: nat)
    ensures SameOutside(gamma, BindParams(gamma, caller, callee, args, n).gamma, callee)
    decreases n
  {
    if n > 0 {
      BindParamsInside(gamma, caller, callee, args, n - 1);
      var before := BindParams(gamma, caller, callee, args, n - 1);
      var here := AtPosition(args, n - 1);
      BindDeclsInside(JoinAt(before.gamma, Key(callee, Pos(n - 1)), ResolveAll(before.gamma, caller, here)), caller, callee, here);
    }
  }
}
