/**
 What the propagation engine propagates when every declaration is one thing throughout: each
 argument row resolves to a set fixed by the row itself, whatever was bound before it, so
 that the positional entries are decided by the call edges alone and not by their order.
 */
module GammaStatic {
  import opened Options
  import opened Reachability
  import opened Provenance
  import opened GammaEngine
  import opened GammaRuns
  import opened GammaKeys

  /** What a row stands for by itself: the type of an object built, of a value, or of a seeded declaration; unknown otherwise. */
  function StaticOf(a: CallArg): TypeSet {
    if a.typeUsr.None? || a.srcKind == Literal || a.srcKind == Unknown then Top
    else if a.srcKind == Construct || a.isValue then Types({a.typeUsr.value})
    else if (a.srcKind == Local || a.srcKind == This) && a.declUsr.Some? then Types({a.typeUsr.value})
    else Top
  }

  /** The row is a use of its declaration, and an object it builds is of its own type, as `s` has them. */
  ghost predicate Agrees(a: CallArg, s: Usr -> TypeSet) {
    && (a.declUsr.Some? ==> s(a.declUsr.value) == StaticOf(a))
    && (a.srcKind == Construct && a.typeUsr.Some? ==> s(a.typeUsr.value) == Types({a.typeUsr.value}))
  }

  /** No two rows use a declaration as two different things. */
  ghost predicate Uniform(ix: Index, s: Usr -> TypeSet) {
    forall c, e, a :: e in EdgesOut(ix, c) && a in ArgsOf(ix, e) ==> Agrees(a, s)
  }

  ghost predicate AllAgree(args: seq<CallArg>, s: Usr -> TypeSet) {
    forall a :: a in args ==> Agrees(a, s)
  }

  /** Every bound declaration key holds what the declaration is. */
  ghost predicate StaticKeys(gamma: Gamma, s: Usr -> TypeSet) {
    forall n, d :: Key(n, Decl(d)) in gamma ==> gamma[Key(n, Decl(d))] == s(d)
  }

  /** What the rows seed in ctx is bound. */
  ghost predicate SeedsBound(gamma: Gamma, ctx: Usr, args: seq<CallArg>) {
    forall a :: a in args && SeedOf(a).Some? ==> Key(ctx, Decl(SeedOf(a).value)) in gamma
  }

  // ---- Rows resolve to what they stand for -----------------------------------------------

  lemma {:induction false} ResolveIsStatic(gamma: Gamma, ctx: Usr, a: CallArg, s: Usr -> TypeSet)
    requires StaticKeys(gamma, s) && Agrees(a, s)
    requires SeedOf(a).Some? ==> Key(ctx, Decl(SeedOf(a).value)) in gamma
    ensures ResolveSource(gamma, ctx, a) == StaticOf(a)
  {
  }

  function StaticAll(args: seq<CallArg>): TypeSet {
    if args == [] then Types({}) else Join(StaticAll(args[..|args| - 1]), StaticOf(args[|args| - 1]))
  }

  lemma {:induction false} ResolveAllIsStatic(gamma: Gamma, ctx: Usr, args: seq<CallArg>, s: Usr -> TypeSet)
    requires StaticKeys(gamma, s) && AllAgree(args, s) && SeedsBound(gamma, ctx, args)
    ensures ResolveAll(gamma, ctx, args) == StaticAll(args)
    decreases |args|
  {
    if args != [] {
      ResolveAllIsStatic(gamma, ctx, args[..|args| - 1], s);
      ResolveIsStatic(gamma, ctx, args[|args| - 1], s);
    }
  }

  /** A class is admitted by what the rows stand for together when one of them admits it. */
  lemma {:induction false} StaticAllIff(args: seq<CallArg>, k: Usr)
    ensures Admits(StaticAll(args), k) <==> exists a :: a in args && Admits(StaticOf(a), k)
    decreases |args|
  {
    if args != [] {
      var front, last := args[..|args| - 1], args[|args| - 1];
      StaticAllIff(front, k);
      assert args == front + [last];
    }
  }

  // ---- Seeding and binding keep the declaration keys what they are --------------------------

  lemma {:induction false} JoinStatic(gamma: Gamma, n: Usr, d: Usr, s: Usr -> TypeSet)
    requires StaticKeys(gamma, s)
    ensures StaticKeys(JoinAt(gamma, Key(n, Decl(d)), s(d)), s)
  {
    if s(d).Types? {
      assert s(d).classes + s(d).classes == s(d).classes && {} + s(d).classes == s(d).classes;
    }
  }

  lemma {:induction false} JoinPosition(gamma: Gamma, n: Usr, i: nat, ts: TypeSet, s: Usr -> TypeSet)
    requires StaticKeys(gamma, s)
    ensures StaticKeys(JoinAt(gamma, Key(n, Pos(i)), ts), s)
  {
  }

  lemma {:induction false} SeedArgStatic(gamma: Gamma, ctx: Usr, a: CallArg, s: Usr -> TypeSet)
    requires StaticKeys(gamma, s) && Agrees(a, s)
    ensures StaticKeys(SeedArg(gamma, ctx, a), s)
  {
    if SeedOf(a).Some? {
      JoinStatic(gamma, ctx, SeedOf(a).value, s);
    }
  }

  lemma {:induction false} SeedArgsStatic(gamma: Gamma, ctx: Usr, args: seq<CallArg>, s: Usr -> TypeSet)
    requires StaticKeys(gamma, s) && AllAgree(args, s)
    ensures StaticKeys(SeedArgs(gamma, ctx, args), s)
    decreases |args|
  {
    if args != [] {
      SeedArgsStatic(gamma, ctx, args[..|args| - 1], s);
      SeedArgStatic(SeedArgs(gamma, ctx, args[..|args| - 1]), ctx, args[|args| - 1], s);
    }
  }

  lemma {:induction false} SeedEdgesStatic(ix: Index, gamma: Gamma, ctx: Usr, edges: seq<Edge>, s: Usr -> TypeSet)
    requires StaticKeys(gamma, s) && forall e :: e in edges ==> AllAgree(ArgsOf(ix, e), s)
    ensures StaticKeys(SeedEdges(ix, gamma, ctx, edges), s)
    decreases |edges|
  {
    if edges != [] {
      SeedEdgesStatic(ix, gamma, ctx, edges[..|edges| - 1], s);
      SeedArgsStatic(SeedEdges(ix, gamma, ctx, edges[..|edges| - 1]), ctx, ArgsOf(ix, edges[|edges| - 1]), s);
    }
  }

  lemma {:induction false} BindDeclStatic(gamma: Gamma, caller: Usr, callee: Usr, a: CallArg, s: Usr -> TypeSet)
    requires StaticKeys(gamma, s) && Agrees(a, s)
    requires SeedOf(a).Some? ==> Key(caller, Decl(SeedOf(a).value)) in gamma
    ensures StaticKeys(BindDecl(gamma, caller, callee, a), s) && Grows(gamma, BindDecl(gamma, caller, callee, a))
  {
    ResolveIsStatic(gamma, caller, a, s);
    var g1 := if a.declUsr.Some? then JoinAt(gamma, Key(callee, Decl(a.declUsr.value)), StaticOf(a)) else gamma;
    if a.declUsr.Some? {
      JoinStatic(gamma, callee, a.declUsr.value, s);
    }
    if a.typeUsr.Some? && a.srcKind == Construct {
      JoinStatic(g1, callee, a.typeUsr.value, s);
    }
  }

  lemma {:induction false} BindDeclsStatic(gamma: Gamma, caller: Usr, callee: Usr, args: seq<CallArg>, s: Usr -> TypeSet)
    requires StaticKeys(gamma, s) && AllAgree(args, s) && SeedsBound(gamma, caller, args)
    ensures StaticKeys(BindDecls(gamma, caller, callee, args), s)
    decreases |args|
  {
    if args != [] {
      var front := args[..|args| - 1];
      BindDeclsStatic(gamma, caller, callee, front, s);
      BindDeclsGrows(gamma, caller, callee, front);
      BindDeclStatic(BindDecls(gamma, caller, callee, front), caller, callee, args[|args| - 1], s);
    }
  }

  /** Each position is bound to what the rows there stand for. */
  ghost predicate StaticSets(sets: seq<TypeSet>, args: seq<CallArg>) {
    forall i :: 0 <= i < |sets| ==> sets[i] == StaticAll(AtPosition(args, i))
  }

  lemma {:induction false} RowsAtPosition(gamma: Gamma, caller: Usr, args: seq<CallArg>, i: nat, s: Usr -> TypeSet)
    requires AllAgree(args, s) && SeedsBound(gamma, caller, args)
    ensures AllAgree(AtPosition(args, i), s) && SeedsBound(gamma, caller, AtPosition(args, i))
  {
    forall a | a in AtPosition(args, i) ensures a in args {
      AtPositionHolds(args, i, a);
    }
  }

  lemma {:induction false} BindParamsStatic(gamma: Gamma, caller: Usr, callee: Usr, args: seq<CallArg>, n: nat, s: Usr -> TypeSet)
    requires StaticKeys(gamma, s) && AllAgree(args, s) && SeedsBound(gamma, caller, args)
    ensures var b := BindParams(gamma, caller, callee, args, n); StaticKeys(b.gamma, s) && |b.sets| == n && StaticSets(b.sets, args)
    decreases n
  {
    if n > 0 {
      var before := BindParams(gamma, caller, callee, args, n - 1);
      BindParamsStatic(gamma, caller, callee, args, n - 1, s);
      SeedsStayBound(gamma, caller, callee, args, n - 1);
      BindPositionStatic(before.gamma, caller, callee, args, n - 1, s);
      OneMoreSet(gamma, caller, callee, args, n);
      OneMoreStatic(before.sets, BindParams(gamma, caller, callee, args, n).sets, args);
    }
  }

  lemma {:induction false} SeedsStayBound(gamma: Gamma, caller: Usr, callee: Usr, args: seq<CallArg>, n: nat)
    requires SeedsBound(gamma, caller, args)
    ensures SeedsBound(BindParams(gamma, caller, callee, args, n).gamma, caller, args)
  {
    BindParamsGrows(gamma, caller, callee, args, n);
  }

  lemma {:induction false} OneMoreStatic(before: seq<TypeSet>, after: seq<TypeSet>, args: seq<CallArg>)
    requires |after| == |before| + 1 && after[..|before|] == before && StaticSets(before, args)
    requires after[|before|] == StaticAll(AtPosition(args, |before|))
    ensures StaticSets(after, args)
  {
    forall i | 0 <= i < |after| ensures after[i] == StaticAll(AtPosition(args, i)) {
      if i < |before| {
        assert after[i] == before[i];
      }
    }
  }

  lemma {:induction false} BindPositionStatic(gamma: Gamma, caller: Usr, callee: Usr, args: seq<CallArg>, i: nat, s: Usr -> TypeSet)
    requires StaticKeys(gamma, s) && AllAgree(args, s) && SeedsBound(gamma, caller, args)
    ensures var here := AtPosition(args, i);
            var ts := ResolveAll(gamma, caller, here);
            && ts == StaticAll(here)
            && StaticKeys(BindDecls(JoinAt(gamma, Key(callee, Pos(i)), ts), caller, callee, here), s)
  {
    var here := AtPosition(args, i);
    RowsAtPosition(gamma, caller, args, i, s);
    ResolveAllIsStatic(gamma, caller, here, s);
    JoinPosition(gamma, callee, i, StaticAll(here), s);
    JoinAtGrows(gamma, Key(callee, Pos(i)), StaticAll(here));
    BindDeclsStatic(JoinAt(gamma, Key(callee, Pos(i)), StaticAll(here)), caller, callee, here, s);
  }

  // ---- The invariant of a run -------------------------------------------------------------

  /** Some bound call edge into n has a row at position i that stands for class k. */
  ghost predicate BoundPasses(ix: Index, bound: seq<(Usr, Edge)>, n: Usr, i: nat, k: Usr) {
    exists b, a :: b in bound && b.1.callee == n && RowPasses(ArgsOf(ix, b.1), a, i, k)
  }

  predicate RowPasses(args: seq<CallArg>, a: CallArg, i: nat, k: Usr) {
    a in args && a.position == i && Admits(StaticOf(a), k)
  }

  /** The positional entries admit what the rows of the bound edges stand for, and nothing else. */
  ghost predicate StaticEntries(ix: Index, st: State) {
    forall n, i: nat, k :: EntryAdmits(st.gamma, n, i, k) <==> BoundPasses(ix, st.bound, n, i, k)
  }

  lemma {:induction false} EnterStatic(ix: Index, st: State, ctx: Usr, s: Usr -> TypeSet)
    requires Uniform(ix, s) && StaticKeys(st.gamma, s) && StaticEntries(ix, st)
    ensures StaticKeys(Enter(ix, st, ctx).gamma, s) && StaticEntries(ix, Enter(ix, st, ctx))
  {
    SeedEdgesStatic(ix, st.gamma, ctx, EdgesOut(ix, ctx), s);
    SeedEdgesGrows(ix, st.gamma, ctx, EdgesOut(ix, ctx));
    forall n, i: nat, k
      ensures EntryAdmits(Enter(ix, st, ctx).gamma, n, i, k) <==> EntryAdmits(st.gamma, n, i, k)
    {
      assert Lookup(Enter(ix, st, ctx).gamma, Key(n, Pos(i))) == Lookup(st.gamma, Key(n, Pos(i)));
    }
  }

  lemma {:induction false} SeededRows(ix: Index, st: State, c: Usr, e: Edge)
    requires Known(ix, st) && c in st.analysed && e in EdgesOut(ix, c)
    ensures SeedsBound(st.gamma, c, ArgsOf(ix, e))
  {
    forall a | a in ArgsOf(ix, e) && SeedOf(a).Some? ensures Key(c, Decl(SeedOf(a).value)) in st.gamma {
      assert RowsSeed(ArgsOf(ix, e), SeedOf(a).value) && Seeds(ix, c, SeedOf(a).value);
    }
  }

  lemma {:induction false} BindStatic(ix: Index, st: State, c: Usr, e: Edge, s: Usr -> TypeSet)
    requires Uniform(ix, s) && StaticKeys(st.gamma, s) && StaticEntries(ix, st) && Known(ix, st)
    requires c in st.analysed && e in EdgesOut(ix, c)
    ensures StaticKeys(Bind(ix, st, c, e).gamma, s) && StaticEntries(ix, Bind(ix, st, c, e))
  {
    var args, r := ArgsOf(ix, e), Bind(ix, st, c, e);
    SeededRows(ix, st, c, e);
    BindParamsStatic(st.gamma, c, e.callee, args, ParamCount(args), s);
    forall n, i: nat, k
      ensures EntryAdmits(r.gamma, n, i, k) <==> BoundPasses(ix, r.bound, n, i, k)
    {
      BindEntry(ix, st, c, e, n, i, k);
      OneMorePasses(ix, st.bound, (c, e), n, i, k);
    }
  }

  lemma {:induction false} OneMorePasses(ix: Index, bound: seq<(Usr, Edge)>, b: (Usr, Edge), n: Usr, i: nat, k: Usr)
    ensures BoundPasses(ix, bound + [b], n, i, k)
       <==> BoundPasses(ix, bound, n, i, k) || (b.1.callee == n && exists a :: RowPasses(ArgsOf(ix, b.1), a, i, k))
  {
    assert forall x :: x in bound + [b] <==> x in bound || x == b;
  }

  lemma {:induction false} BindEntry(ix: Index, st: State, c: Usr, e: Edge, n: Usr, i: nat, k: Usr)
    requires var args := ArgsOf(ix, e);
             StaticSets(BindParams(st.gamma, c, e.callee, args, ParamCount(args)).sets, args)
    ensures EntryAdmits(Bind(ix, st, c, e).gamma, n, i, k)
       <==> EntryAdmits(st.gamma, n, i, k) || (e.callee == n && exists a :: RowPasses(ArgsOf(ix, e), a, i, k))
  {
    var args := ArgsOf(ix, e);
    var b := BindParams(st.gamma, c, e.callee, args, ParamCount(args));
    BindParamsGrows(st.gamma, c, e.callee, args, ParamCount(args));
    PositionPasses(args, i, k);
    var before := Lookup(st.gamma, Key(n, Pos(i)));
    assert Lookup(b.gamma, Key(n, Pos(i)))
        == if n == e.callee && i < |b.sets| then Some(JoinOpt(before, b.sets[i])) else before;
  }

  /** Beyond the last position nothing is passed. */
  lemma {:induction false} PositionPasses(args: seq<CallArg>, i: nat, k: Usr)
    ensures (i < ParamCount(args) && Admits(StaticAll(AtPosition(args, i)), k)) <==> exists a :: RowPasses(args, a, i, k)
  {
    var here := AtPosition(args, i);
    StaticAllIff(here, k);
    forall a ensures a in here <==> a in args && a.position == i {
      AtPositionHolds(args, i, a);
    }
    forall a | RowPasses(args, a, i, k) ensures i < ParamCount(args) && a in here {
      CountedPositions(args, a);
    }
    forall a | a in here && Admits(StaticOf(a), k) ensures RowPasses(args, a, i, k) && i < ParamCount(args) {
      CountedPositions(args, a);
    }
  }

  /** What holds in every state of a run. */
  ghost predicate StaticState(ix: Index, st: State, s: Usr -> TypeSet) {
    Known(ix, st) && StaticKeys(st.gamma, s) && StaticEntries(ix, st)
  }

  lemma {:induction false} StepStatic(ix: Index, before: State, after: State, s: Usr -> TypeSet)
    requires Uniform(ix, s) && Stepped(ix, before, after) && StaticState(ix, before, s)
    ensures StaticState(ix, after, s)
  {
    if Enters(ix, before, after) {
      var ctx :| ctx !in before.analysed && after == Enter(ix, before, ctx);
      EnterKnown(ix, before, ctx);
      EnterStatic(ix, before, ctx, s);
    } else if Handles(ix, before, after) {
      var c, e :| c in before.analysed && e in EdgesOut(ix, c) && after == Handle(ix, before, c, e);
      if Count(before, e.callee) < K_LIMIT {
        BindKnown(ix, before, c, e);
        BindStatic(ix, before, c, e, s);
      }
    }
  }

  lemma {:induction false} RunStatic(ix: Index, run: seq<State>, last: State, k: nat, s: Usr -> TypeSet)
    requires Uniform(ix, s) && Growing(ix, run, START, last) && k < |run|
    ensures StaticState(ix, run[k], s)
    decreases k
  {
    if k > 0 {
      RunStatic(ix, run, last, k - 1, s);
      StepStatic(ix, run[k - 1], run[k], s);
    }
  }

  lemma {:induction false} AnalysisStatic(ix: Index, root: Usr, s: Usr -> TypeSet)
    requires Uniform(ix, s)
    ensures StaticState(ix, Analysis(ix, root), s)
  {
    RunOnlyGrows(ix, root);
    RunStatic(ix, Run(ix, root), Analysis(ix, root), |Run(ix, root)| - 1, s);
  }

  // ---- What the analysis finds, on the index -----------------------------------------------

  /** Some call edge into n from what the root reaches has a row at position i that stands for class k. */
  ghost predicate Passes(ix: Index, root: Usr, n: Usr, i: nat, k: Usr) {
    exists c, e, a :: c in ReachedFrom(ix, root) && e in EdgesOut(ix, c) && e.callee == n && RowPasses(ArgsOf(ix, e), a, i, k)
  }

  /**
   Where every declaration is one thing in all rows, the final entries of n admit exactly the
   classes that the rows of its call edges stand for by themselves, whatever the order of
   the edges: no set is carried from one callable through a second into a third.
   */
  lemma {:induction false} EntriesAreStaticIff(ix: Index, root: Usr, s: Usr -> TypeSet, n: Usr, i: nat, k: Usr)
    requires Uniform(ix, s) && WithinLimit(ix, root, n)
    ensures EntryAdmits(Analysis(ix, root).gamma, n, i, k) <==> Passes(ix, root, n, i, k)
  {
    var bound := Analysis(ix, root).bound;
    AnalysisStatic(ix, root, s);
    if BoundPasses(ix, bound, n, i, k) {
      var b, a :| b in bound && b.1.callee == n && RowPasses(ArgsOf(ix, b.1), a, i, k);
      assert (b.0, b.1) == b;
      EdgeBoundIff(ix, root, b.0, b.1);
    }
    forall c, e, a | c in ReachedFrom(ix, root) && e in EdgesOut(ix, c) && e.callee == n && RowPasses(ArgsOf(ix, e), a, i, k)
      ensures BoundPasses(ix, bound, n, i, k)
    {
      EdgeBoundIff(ix, root, c, e);
      assert (c, e).1.callee == n;
    }
  }

  /** Then the result is a fixpoint: resolved once more in it, a row of a reached call is what it was, so its entry admits it. */
  lemma {:induction false} RowsStayBelowEntries(ix: Index, root: Usr, s: Usr -> TypeSet, c: Usr, e: Edge, a: CallArg)
    requires Uniform(ix, s) && c in ReachedFrom(ix, root) && e in EdgesOut(ix, c) && a in ArgsOf(ix, e)
    ensures ResolveSource(Analysis(ix, root).gamma, c, a) == StaticOf(a)
    ensures WithinLimit(ix, root, e.callee) ==>
              forall k :: Admits(StaticOf(a), k) ==> EntryAdmits(Analysis(ix, root).gamma, e.callee, a.position, k)
  {
    var r := Analysis(ix, root);
    AnalysisStatic(ix, root, s);
    RunKnown(ix, root);
    SeededRows(ix, r, c, e);
    ResolveIsStatic(r.gamma, c, a, s);
    if WithinLimit(ix, root, e.callee) {
      forall k | Admits(StaticOf(a), k) ensures EntryAdmits(r.gamma, e.callee, a.position, k) {
        assert RowPasses(ArgsOf(ix, e), a, a.position, k);
        EntriesAreStaticIff(ix, root, s, e.callee, a.position, k);
      }
    }
  }

  // ---- Rows that disagree --------------------------------------------------------------------

  /** A global object 41 of class 11, and a local 41 of no known type. */
  const AS_OBJECT: CallArg := CallArg(0, Global, Some(11), Some(41), true)
  const AS_LOCAL: CallArg := CallArg(0, Local, None, Some(41), false)

  /** 0 calls itself with the one and 1 with the other, in this order or in the other; 1 calls nothing. */
  ghost predicate Disagrees(ix: Index, selfFirst: bool) {
    && EdgesOut(ix, 0) == (if selfFirst then [Edge(0, 0), Edge(1, 1)] else [Edge(1, 1), Edge(0, 0)])
    && EdgesOut(ix, 1) == [] && ArgsOf(ix, Edge(0, 0)) == [AS_OBJECT] && ArgsOf(ix, Edge(1, 1)) == [AS_LOCAL]
  }

  lemma {:induction false} DisagreeingExist()
    ensures Disagrees(Index(map[0 := [Edge(0, 0), Edge(1, 1)]], map[0 := [AS_OBJECT], 1 := [AS_LOCAL]]), true)
    ensures Disagrees(Index(map[0 := [Edge(1, 1), Edge(0, 0)]], map[0 := [AS_OBJECT], 1 := [AS_LOCAL]]), false)
  {
  }

  /** Binding one row at position 0: the entry gains what the row resolves to, and so does its declaration. */
  lemma {:induction false} OneRowBinds(gamma: Gamma, caller: Usr, callee: Usr, a: CallArg)
    requires a.position == 0 && a.srcKind != Construct && a.declUsr.Some?
    ensures var b := BindParams(gamma, caller, callee, [a], ParamCount([a])).gamma;
            && Lookup(b, Key(callee, Pos(0))) == Some(JoinOpt(Lookup(gamma, Key(callee, Pos(0))), ResolveSource(gamma, caller, a)))
            && Lookup(b, Key(callee, Decl(a.declUsr.value)))
               == Some(JoinOpt(Lookup(gamma, Key(callee, Decl(a.declUsr.value))), ResolveSource(gamma, caller, a)))
  {
    var ts := ResolveSource(gamma, caller, a);
    OneRowBinding(gamma, caller, callee, a);
    assert ResolveSource(JoinAt(gamma, Key(callee, Pos(0)), ts), caller, a) == ts;
  }

  lemma {:induction false} OneRowBinding(gamma: Gamma, caller: Usr, callee: Usr, a: CallArg)
    requires a.position == 0
    ensures BindParams(gamma, caller, callee, [a], ParamCount([a])).gamma
         == BindDecl(JoinAt(gamma, Key(callee, Pos(0)), ResolveSource(gamma, caller, a)), caller, callee, a)
  {
    PositionOfOneRow([a]);
    ResolveOnly(gamma, caller, a);
    DeclsOfOne(JoinAt(gamma, Key(callee, Pos(0)), ResolveSource(gamma, caller, a)), caller, callee, a);
    assert BindParams(gamma, caller, callee, [a], 0) == Binding(gamma, []);
  }

  lemma {:induction false} DeclsOfOne(gamma: Gamma, caller: Usr, callee: Usr, a: CallArg)
    ensures BindDecls(gamma, caller, callee, [a]) == BindDecl(gamma, caller, callee, a)
  {
    assert [a][..0] == [];
  }

  lemma {:induction false} ResolveOnly(gamma: Gamma, caller: Usr, a: CallArg)
    ensures ResolveAll(gamma, caller, [a]) == ResolveSource(gamma, caller, a)
  {
    assert [a][..0] == [];
    var ts := ResolveSource(gamma, caller, a);
    assert ts.Types? ==> {} + ts.classes == ts.classes;
  }

  lemma {:induction false} CallsItself(ix: Index, u: set<Usr>, st: State)
    requires Bounds(ix, u) && 0 in u && 0 in st.analysed && Count(st, 0) < K_LIMIT
    ensures AfterCall(ix, u, st, 0, Edge(0, 0)) == Bind(ix, st, 0, Edge(0, 0))
  {
  }

  lemma {:induction false} CallsLeaf(ix: Index, u: set<Usr>, st: State)
    requires Bounds(ix, u) && 1 in u && EdgesOut(ix, 1) == [] && Count(st, 1) < K_LIMIT
    ensures var r := AfterCall(ix, u, st, 0, Edge(1, 1));
            && r.gamma == Bind(ix, st, 0, Edge(1, 1)).gamma && r.analysed == st.analysed + {1} && Count(r, 0) == Count(st, 0)
  {
    var st1 := Bind(ix, st, 0, Edge(1, 1));
    if 1 in st.analysed {
      assert st.analysed + {1} == st.analysed;
    } else {
      var st2 := Enter(ix, st1, 1);
      assert AfterEdges(ix, u, st2, 1, 0) == st2;
    }
  }

  /** Both calls, in either order. */
  lemma {:induction false} TwoCalls(ix: Index, u: set<Usr>, st: State, first: Edge, second: Edge)
    requires Bounds(ix, u) && 0 in u && first.callee in u && second.callee in u && EdgesOut(ix, 0) == [first, second]
    ensures AfterEdges(ix, u, st, 0, 0) == AfterCall(ix, u, AfterCall(ix, u, st, 0, first), 0, second)
  {
    var st1 := AfterCall(ix, u, st, 0, first);
    var st2 := AfterCall(ix, u, st1, 0, second);
    assert AfterEdges(ix, u, st2, 0, 2) == st2;
    assert AfterEdges(ix, u, st1, 0, 1) == st2;
  }

  lemma {:induction false} NothingSeeded(ix: Index, selfFirst: bool)
    requires Disagrees(ix, selfFirst)
    ensures Enter(ix, START, 0).gamma == map[]
  {
    var edges := EdgesOut(ix, 0);
    forall e | e in edges ensures SeedArgs(map[], 0, ArgsOf(ix, e)) == map[] {
      var a := ArgsOf(ix, e)[0];
      assert ArgsOf(ix, e) == [a] && [a][..0] == [];
      assert SeedArg(map[], 0, a) == map[];
    }
    assert edges[..1] == [edges[0]] && [edges[0]][..0] == [];
    assert SeedEdges(ix, map[], 0, edges[..1]) == map[];
  }

  lemma {:induction false} SelfFirst(ix: Index)
    requires Disagrees(ix, true)
    ensures Lookup(Analysis(ix, 0).gamma, Key(1, Pos(0))) == Some(Types({11}))
  {
    var u, st := Universe(ix, 0), Enter(ix, START, 0);
    UniverseBounds(ix, 0);
    assert EdgesOut(ix, 0)[1].callee == 1;
    NothingSeeded(ix, true);
    TwoCalls(ix, u, st, Edge(0, 0), Edge(1, 1));
    CallsItself(ix, u, st);
    var st1 := Bind(ix, st, 0, Edge(0, 0));
    CallsLeaf(ix, u, st1);
    OneRowBinds(st.gamma, 0, 0, AS_OBJECT);
    BindParamsInside(st.gamma, 0, 0, [AS_OBJECT], ParamCount([AS_OBJECT]));
    assert {} + {11} == {11};
    assert Lookup(st1.gamma, Key(0, Decl(41))) == Some(Types({11}));
    assert Lookup(st1.gamma, Key(1, Pos(0))) == Lookup(st.gamma, Key(1, Pos(0))) == None;
    OneRowBinds(st1.gamma, 0, 1, AS_LOCAL);
  }

  lemma {:induction false} SelfLast(ix: Index)
    requires Disagrees(ix, false)
    ensures Lookup(Analysis(ix, 0).gamma, Key(1, Pos(0))) == Some(Top)
  {
    var u, st := Universe(ix, 0), Enter(ix, START, 0);
    UniverseBounds(ix, 0);
    assert EdgesOut(ix, 0)[0].callee == 1;
    NothingSeeded(ix, false);
    TwoCalls(ix, u, st, Edge(1, 1), Edge(0, 0));
    CallsLeaf(ix, u, st);
    var st1 := AfterCall(ix, u, st, 0, Edge(1, 1));
    CallsItself(ix, u, st1);
    OneRowBinds(st.gamma, 0, 1, AS_LOCAL);
    BindParamsInside(st1.gamma, 0, 0, [AS_OBJECT], ParamCount([AS_OBJECT]));
    assert Lookup(Bind(ix, st1, 0, Edge(0, 0)).gamma, Key(1, Pos(0))) == Lookup(st1.gamma, Key(1, Pos(0)));
  }

  /** Two rows that use one declaration as two things: what 1 is passed depends on which of the two calls comes first. */
  lemma {:induction false} OrderDecides(ix: Index, jx: Index)
    requires Disagrees(ix, true) && Disagrees(jx, false)
    ensures Lookup(Analysis(ix, 0).gamma, Key(1, Pos(0))) == Some(Types({11}))
    ensures Lookup(Analysis(jx, 0).gamma, Key(1, Pos(0))) == Some(Top)
    ensures forall s :: !Uniform(ix, s) && !Uniform(jx, s)
  {
    SelfFirst(ix);
    SelfLast(jx);
    forall s ensures !Uniform(ix, s) && !Uniform(jx, s) {
      RowsDisagree(ix, true, s);
      RowsDisagree(jx, false, s);
    }
  }

  lemma {:induction false} RowsDisagree(ix: Index, selfFirst: bool, s: Usr -> TypeSet)
    requires Disagrees(ix, selfFirst)
    ensures !Uniform(ix, s)
  {
    var first, second := EdgesOut(ix, 0)[0], EdgesOut(ix, 0)[1];
    assert first in EdgesOut(ix, 0) && second in EdgesOut(ix, 0);
    assert AS_OBJECT in ArgsOf(ix, Edge(0, 0)) && AS_LOCAL in ArgsOf(ix, Edge(1, 1));
    assert !Agrees(AS_OBJECT, s) || !Agrees(AS_LOCAL, s);
  }
}
