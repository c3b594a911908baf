/**
 `_GammaEngine` (project/indexer/model.py): flow-insensitive propagation of
 argument types from a root callable into everything it calls. The engine is
 specified by a recursive state transformer; the class is proved to compute it,
 and the transformer is proved to terminate, to only ever grow the environment,
 and to hold exactly what the first K_LIMIT bindings of each callee resolved.
 */
module GammaEngine {
  import opened Options
  import opened Provenance

  const K_LIMIT: nat := 3

  datatype Edge = Edge(id: int, callee: Usr)

  /** What the index answers: outgoing `calls` edges of a callable and the argument rows of an edge. */
  datatype Index = Index(calls: map<Usr, seq<Edge>>, rows: map<int, seq<CallArg>>)

  function EdgesOut(ix: Index, fn: Usr): seq<Edge> {
    if fn in ix.calls then ix.calls[fn] else []
  }

  function ArgsOf(ix: Index, e: Edge): seq<CallArg> {
    if e.id in ix.rows then ix.rows[e.id] else []
  }

  /** The root and everything an edge points at: all contexts an analysis can enter. */
  function Universe(ix: Index, root: Usr): set<Usr> {
    {root} + set c, i | c in ix.calls && 0 <= i < |ix.calls[c]| :: ix.calls[c][i].callee
  }

  ghost predicate Bounds(ix: Index, u: set<Usr>) {
    forall c, i :: 0 <= i < |EdgesOut(ix, c)| ==> EdgesOut(ix, c)[i].callee in u
  }

  // ---- Seeding and binding, as functions of the environment ---------------------------

  /** `_seed_locals`, one argument row. */
  function SeedArg(gamma: Gamma, ctx: Usr, a: CallArg): Gamma {
    if a.srcKind == Construct && a.typeUsr.Some? then
      JoinAt(gamma, Key(ctx, Decl(a.typeUsr.value)), Types({a.typeUsr.value}))
    else if (a.srcKind == Local || a.srcKind == This) && a.declUsr.Some? && a.typeUsr.Some? then
      JoinAt(gamma, Key(ctx, Decl(a.declUsr.value)), Types({a.typeUsr.value}))
    else gamma
  }

  function SeedArgs(gamma: Gamma, ctx: Usr, args: seq<CallArg>): Gamma {
    if args == [] then gamma else SeedArg(SeedArgs(gamma, ctx, args[..|args| - 1]), ctx, args[|args| - 1])
  }

  function SeedEdges(ix: Index, gamma: Gamma, ctx: Usr, edges: seq<Edge>): Gamma {
    if edges == [] then gamma
    else SeedArgs(SeedEdges(ix, gamma, ctx, edges[..|edges| - 1]), ctx, ArgsOf(ix, edges[|edges| - 1]))
  }

  function AtPosition(args: seq<CallArg>, i: nat): seq<CallArg> {
    if args == [] then []
    else
      var front := AtPosition(args[..|args| - 1], i);
      if args[|args| - 1].position == i then front + [args[|args| - 1]] else front
  }

  /** One more than the largest position, 0 without arguments. */
  function ParamCount(args: seq<CallArg>): nat {
    if args == [] then 0
    else
      var front := ParamCount(args[..|args| - 1]);
      var n := args[|args| - 1].position + 1;
      if n > front then n else front
  }

  /** The join of what several arguments resolve to; any TOP makes it TOP. */
  function ResolveAll(gamma: Gamma, ctx: Usr, args: seq<CallArg>): TypeSet {
    if args == [] then Types({})
    else Join(ResolveAll(gamma, ctx, args[..|args| - 1]), ResolveSource(gamma, ctx, args[|args| - 1]))
  }

  /** The declaration and construction keys one argument seeds in the callee. */
  function BindDecl(gamma: Gamma, caller: Usr, callee: Usr, a: CallArg): Gamma {
    var ts := ResolveSource(gamma, caller, a);
    var g1 := if a.declUsr.Some? then JoinAt(gamma, Key(callee, Decl(a.declUsr.value)), ts) else gamma;
    if a.typeUsr.Some? && a.srcKind == Construct then
      JoinAt(g1, Key(callee, Decl(a.typeUsr.value)), Types({a.typeUsr.value}))
    else g1
  }

  function BindDecls(gamma: Gamma, caller: Usr, callee: Usr, args: seq<CallArg>): Gamma {
    if args == [] then gamma
    else BindDecl(BindDecls(gamma, caller, callee, args[..|args| - 1]), caller, callee, args[|args| - 1])
  }

  /** An environment together with the argument sets resolved so far, position by position. */
  datatype Binding = Binding(gamma: Gamma, sets: seq<TypeSet>)

  /** Bind the first n parameter positions of a call. */
  function BindParams(gamma: Gamma, caller: Usr, callee: Usr, args: seq<CallArg>, n: nat): Binding {
    if n == 0 then Binding(gamma, [])
    else
      var before := BindParams(gamma, caller, callee, args, n - 1);
      var here := AtPosition(args, n - 1);
      var ts := ResolveAll(before.gamma, caller, here);
      Binding(BindDecls(JoinAt(before.gamma, Key(callee, Pos(n - 1)), ts), caller, callee, here), before.sets + [ts])
  }

  // ---- The analysis as a state transformer ----------------------------------------------

  /** What became of one processed call edge: bound with these argument sets, or past the limit and ignored. */
  datatype Event = Bound(callee: Usr, sets: seq<TypeSet>) | Skipped(callee: Usr)

  /** The environment, the contexts met and the counters; the log of the run, and the call edges bound so far, in order, with their callers. */
  datatype State = State(gamma: Gamma, analysed: set<Usr>, count: map<Usr, nat>, events: seq<Event>, entered: seq<Usr>,
                         bound: seq<(Usr, Edge)>)

  const START: State := State(map[], {}, map[], [], [], [])

  function Count(st: State, u: Usr): nat {
    if u in st.count then st.count[u] else 0
  }

  ghost function Enter(ix: Index, st: State, ctx: Usr): State {
    st.(analysed := st.analysed + {ctx}, entered := st.entered + [ctx],
        gamma := SeedEdges(ix, st.gamma, ctx, EdgesOut(ix, ctx)))
  }

  ghost function Bind(ix: Index, st: State, caller: Usr, e: Edge): State {
    var args := ArgsOf(ix, e);
    var b := BindParams(st.gamma, caller, e.callee, args, ParamCount(args));
    st.(gamma := b.gamma, count := st.count[e.callee := Count(st, e.callee) + 1],
        events := st.events + [Bound(e.callee, b.sets)], bound := st.bound + [(caller, e)])
  }

  /** `_visit`: enter a context once, then process its call edges in order. */
  ghost function AfterVisit(ix: Index, u: set<Usr>, st: State, ctx: Usr): (r: State)
    requires Bounds(ix, u) && ctx in u
    ensures st.analysed <= r.analysed
    decreases u - st.analysed, 0, 0
  {
    if ctx in st.analysed then st
    else
      assert ctx in u - st.analysed;
      AfterEdges(ix, u, Enter(ix, st, ctx), ctx, 0)
  }

  ghost function AfterEdges(ix: Index, u: set<Usr>, st: State, ctx: Usr, i: nat): (r: State)
    requires Bounds(ix, u) && ctx in u
    ensures st.analysed <= r.analysed
    decreases u - st.analysed, 2, |EdgesOut(ix, ctx)| - i
  {
    if i >= |EdgesOut(ix, ctx)| then st
    else
      var st1 := AfterCall(ix, u, st, ctx, EdgesOut(ix, ctx)[i]);
      assert u - st1.analysed <= u - st.analysed;
      AfterEdges(ix, u, st1, ctx, i + 1)
  }

  /** `_bind_and_visit`: past K_LIMIT bindings of the callee, nothing at all happens. */
  ghost function AfterCall(ix: Index, u: set<Usr>, st: State, caller: Usr, e: Edge): (r: State)
    requires Bounds(ix, u) && e.callee in u
    ensures st.analysed <= r.analysed
    decreases u - st.analysed, 1, 0
  {
    if Count(st, e.callee) >= K_LIMIT then st.(events := st.events + [Skipped(e.callee)])
    else AfterVisit(ix, u, Bind(ix, st, caller, e), e.callee)
  }

  ghost function Analysis(ix: Index, root: Usr): State {
    UniverseBounds(ix, root);
    AfterVisit(ix, Universe(ix, root), START, root)
  }

  lemma {:induction false} UniverseBounds(ix: Index, root: Usr)
    ensures Bounds(ix, Universe(ix, root)) && root in Universe(ix, root)
  {
  }

  // ---- What the log of processed edges records --------------------------------------------

  /** How many of the processed edges into u were bound. */
  ghost function BoundCount(events: seq<Event>, u: Usr): nat {
    if events == [] then 0
    else
      var e := events[|events| - 1];
      BoundCount(events[..|events| - 1], u) + if e.Bound? && e.callee == u then 1 else 0
  }

  /** How many edges into u were processed at all. */
  ghost function EventCount(events: seq<Event>, u: Usr): nat {
    if events == [] then 0
    else EventCount(events[..|events| - 1], u) + if events[|events| - 1].callee == u then 1 else 0
  }

  /** The join of what the bound edges into u resolved at position i; None when no bound edge had that position. */
  ghost function PosJoin(events: seq<Event>, u: Usr, i: nat): Option<TypeSet> {
    if events == [] then None
    else
      var e, front := events[|events| - 1], PosJoin(events[..|events| - 1], u, i);
      if e.Bound? && e.callee == u && i < |e.sets| then Some(JoinOpt(front, e.sets[i])) else front
  }

  function JoinOpt(a: Option<TypeSet>, ts: TypeSet): TypeSet {
    Join(if a.Some? then a.value else Types({}), ts)
  }

  /** Each edge is bound while its callee has fewer than K_LIMIT bindings and ignored from then on. */
  ghost predicate LimitedLog(events: seq<Event>) {
    events == []
    || var e, front := events[|events| - 1], events[..|events| - 1];
       LimitedLog(front) && (e.Bound? <==> BoundCount(front, e.callee) < K_LIMIT)
  }

  ghost function EdgeTotal(ix: Index, entered: seq<Usr>): nat {
    if entered == [] then 0
    else EdgeTotal(ix, entered[..|entered| - 1]) + |EdgesOut(ix, entered[|entered| - 1])|
  }

  // ---- Seeding and binding never lose a class and touch positions only as logged ----------

  /** Same positional entries everywhere. */
  ghost predicate SamePositions(a: Gamma, b: Gamma) {
    forall u, i: nat :: Lookup(a, Key(u, Pos(i))) == Lookup(b, Key(u, Pos(i)))
  }

  lemma {:induction false} SeedArgsGrows(gamma: Gamma, ctx: Usr, args: seq<CallArg>)
    ensures Grows(gamma, SeedArgs(gamma, ctx, args)) && SamePositions(gamma, SeedArgs(gamma, ctx, args))
    decreases |args|
  {
    if args != [] {
      SeedArgsGrows(gamma, ctx, args[..|args| - 1]);
    }
  }

  lemma {:induction false} SeedEdgesGrows(ix: Index, gamma: Gamma, ctx: Usr, edges: seq<Edge>)
    ensures Grows(gamma, SeedEdges(ix, gamma, ctx, edges)) && SamePositions(gamma, SeedEdges(ix, gamma, ctx, edges))
    decreases |edges|
  {
    if edges != [] {
      var front := SeedEdges(ix, gamma, ctx, edges[..|edges| - 1]);
      SeedEdgesGrows(ix, gamma, ctx, edges[..|edges| - 1]);
      SeedArgsGrows(front, ctx, ArgsOf(ix, edges[|edges| - 1]));
    }
  }

  lemma {:induction false} BindDeclsGrows(gamma: Gamma, caller: Usr, callee: Usr, args: seq<CallArg>)
    ensures var r := BindDecls(gamma, caller, callee, args); Grows(gamma, r) && SamePositions(gamma, r)
    decreases |args|
  {
    if args != [] {
      BindDeclsGrows(gamma, caller, callee, args[..|args| - 1]);
    }
  }

  /** Positions of `callee` below n gain exactly the resolved sets; all other positions stay as they were. */
  ghost predicate PositionsBound(before: Gamma, after: Gamma, callee: Usr, sets: seq<TypeSet>) {
    forall u, i: nat :: Lookup(after, Key(u, Pos(i))) ==
                   if u == callee && i < |sets| then Some(JoinOpt(Lookup(before, Key(u, Pos(i))), sets[i]))
                   else Lookup(before, Key(u, Pos(i)))
  }

  lemma {:induction false} OneMorePosition(gamma: Gamma, mid: Gamma, after: Gamma, callee: Usr, sets: seq<TypeSet>, ts: TypeSet)
    requires PositionsBound(gamma, mid, callee, sets)
    requires SamePositions(JoinAt(mid, Key(callee, Pos(|sets|)), ts), after)
    ensures PositionsBound(gamma, after, callee, sets + [ts])
  {
    var n := |sets|;
    var joined := JoinAt(mid, Key(callee, Pos(n)), ts);
    forall u, i: nat
      ensures Lookup(after, Key(u, Pos(i)))
           == if u == callee && i < n + 1 then Some(JoinOpt(Lookup(gamma, Key(u, Pos(i))), (sets + [ts])[i]))
              else Lookup(gamma, Key(u, Pos(i)))
    {
      assert Lookup(after, Key(u, Pos(i))) == Lookup(joined, Key(u, Pos(i)));
      assert Lookup(mid, Key(u, Pos(i))) == if u == callee && i < n then Some(JoinOpt(Lookup(gamma, Key(u, Pos(i))), sets[i]))
                                            else Lookup(gamma, Key(u, Pos(i)));
    }
  }

  lemma {:induction false} BindParamsGrows(gamma: Gamma, caller: Usr, callee: Usr, args: seq<CallArg>, n: nat)
    ensures var b := BindParams(gamma, caller, callee, args, n);
            |b.sets| == n && Grows(gamma, b.gamma) && PositionsBound(gamma, b.gamma, callee, b.sets)
    decreases n
  {
    if n > 0 {
      BindParamsGrows(gamma, caller, callee, args, n - 1);
      var before := BindParams(gamma, caller, callee, args, n - 1);
      var here := AtPosition(args, n - 1);
      var ts := ResolveAll(before.gamma, caller, here);
      JoinAtGrows(before.gamma, Key(callee, Pos(n - 1)), ts);
      BindDeclsGrows(JoinAt(before.gamma, Key(callee, Pos(n - 1)), ts), caller, callee, here);
      OneMorePosition(gamma, before.gamma, BindParams(gamma, caller, callee, args, n).gamma, callee, before.sets, ts);
    }
  }

  // ---- The invariant of every run ----------------------------------------------------------

  ghost predicate NoRepeats(s: seq<Usr>) {
    forall i, j :: 0 <= i < j < |s| ==> s[i] != s[j]
  }

  ghost predicate Consistent(st: State) {
    && NoRepeats(st.entered) && (forall c :: c in st.analysed <==> c in st.entered)
    && LimitedLog(st.events)
    && (forall u :: Count(st, u) == BoundCount(st.events, u))
    && (forall u, i: nat :: Lookup(st.gamma, Key(u, Pos(i))) == PosJoin(st.events, u, i))
  }

  /** What one stretch of the analysis does to the state: logs grow, bindings only gain, each entered edge is processed. */
  ghost predicate Progressed(ix: Index, before: State, after: State, pending: nat) {
    && Grows(before.gamma, after.gamma)
    && before.events <= after.events
    && |after.events| + EdgeTotal(ix, before.entered) == |before.events| + EdgeTotal(ix, after.entered) + pending
  }

  lemma {:induction false} EnterConsistent(ix: Index, st: State, ctx: Usr)
    requires Consistent(st) && ctx !in st.analysed
    ensures Consistent(Enter(ix, st, ctx)) && Grows(st.gamma, Enter(ix, st, ctx).gamma)
    ensures EdgeTotal(ix, Enter(ix, st, ctx).entered) == EdgeTotal(ix, st.entered) + |EdgesOut(ix, ctx)|
  {
    SeedEdgesGrows(ix, st.gamma, ctx, EdgesOut(ix, ctx));
    assert (st.entered + [ctx])[..|st.entered|] == st.entered;
  }

  lemma {:induction false} LogAppend(events: seq<Event>, e: Event)
    requires LimitedLog(events) && (e.Bound? <==> BoundCount(events, e.callee) < K_LIMIT)
    ensures LimitedLog(events + [e])
    ensures forall u :: BoundCount(events + [e], u) == BoundCount(events, u) + if e.Bound? && e.callee == u then 1 else 0
    ensures forall u, i: nat :: PosJoin(events + [e], u, i) ==
                           if e.Bound? && e.callee == u && i < |e.sets| then Some(JoinOpt(PosJoin(events, u, i), e.sets[i]))
                           else PosJoin(events, u, i)
  {
    assert (events + [e])[..|events|] == events;
  }

  lemma {:induction false} BindConsistent(ix: Index, st: State, caller: Usr, e: Edge)
    requires Consistent(st) && Count(st, e.callee) < K_LIMIT
    ensures Consistent(Bind(ix, st, caller, e)) && Grows(st.gamma, Bind(ix, st, caller, e).gamma)
  {
    var args := ArgsOf(ix, e);
    BindParamsGrows(st.gamma, caller, e.callee, args, ParamCount(args));
    LogAppend(st.events, Bound(e.callee, BindParams(st.gamma, caller, e.callee, args, ParamCount(args)).sets));
  }

  lemma {:induction false} VisitConsistent(ix: Index, u: set<Usr>, st: State, ctx: Usr)
    requires Bounds(ix, u) && ctx in u && Consistent(st)
    ensures var r := AfterVisit(ix, u, st, ctx); Consistent(r) && Progressed(ix, st, r, 0)
    decreases u - st.analysed, 0, 0
  {
    if ctx !in st.analysed {
      assert ctx in u - st.analysed;
      var st1 := Enter(ix, st, ctx);
      EnterConsistent(ix, st, ctx);
      EdgesConsistent(ix, u, st1, ctx, 0);
      GrowsTrans(st.gamma, st1.gamma, AfterVisit(ix, u, st, ctx).gamma);
    }
  }

  lemma {:induction false} EdgesConsistent(ix: Index, u: set<Usr>, st: State, ctx: Usr, i: nat)
    requires Bounds(ix, u) && ctx in u && Consistent(st) && i <= |EdgesOut(ix, ctx)|
    ensures var r := AfterEdges(ix, u, st, ctx, i); Consistent(r) && Progressed(ix, st, r, |EdgesOut(ix, ctx)| - i)
    decreases u - st.analysed, 2, |EdgesOut(ix, ctx)| - i
  {
    if i < |EdgesOut(ix, ctx)| {
      var e := EdgesOut(ix, ctx)[i];
      var st1 := AfterCall(ix, u, st, ctx, e);
      assert u - st1.analysed <= u - st.analysed;
      CallConsistent(ix, u, st, ctx, e);
      EdgesConsistent(ix, u, st1, ctx, i + 1);
      GrowsTrans(st.gamma, st1.gamma, AfterEdges(ix, u, st1, ctx, i + 1).gamma);
    }
  }

  lemma {:induction false} CallConsistent(ix: Index, u: set<Usr>, st: State, caller: Usr, e: Edge)
    requires Bounds(ix, u) && e.callee in u && Consistent(st)
    ensures var r := AfterCall(ix, u, st, caller, e); Consistent(r) && Progressed(ix, st, r, 1)
    decreases u - st.analysed, 1, 0
  {
    if Count(st, e.callee) >= K_LIMIT {
      LogAppend(st.events, Skipped(e.callee));
    } else {
      var st1 := Bind(ix, st, caller, e);
      BindConsistent(ix, st, caller, e);
      VisitConsistent(ix, u, st1, e.callee);
      GrowsTrans(st.gamma, st1.gamma, AfterVisit(ix, u, st1, e.callee).gamma);
    }
  }

  // ---- What a finished analysis guarantees --------------------------------------------------

  /**
   Every run of the engine, whatever the call graph: each context is entered once,
   as many call edges are processed as leave the entered contexts, a callee is bound
   at most K_LIMIT times, and a positional entry is exactly the join of what its bound
   edges resolved. Which contexts and edges those are is settled in GammaRuns.
   */
  lemma {:induction false} AnalysisExact(ix: Index, root: Usr)
    ensures var r := Analysis(ix, root);
            && NoRepeats(r.entered) && root in r.entered
            && |r.events| == EdgeTotal(ix, r.entered)
            && LimitedLog(r.events) && (forall u :: BoundCount(r.events, u) <= K_LIMIT)
            && forall u, i: nat :: Lookup(r.gamma, Key(u, Pos(i))) == PosJoin(r.events, u, i)
  {
    var r := Analysis(ix, root);
    UniverseBounds(ix, root);
    VisitConsistent(ix, Universe(ix, root), START, root);
    forall u ensures BoundCount(r.events, u) <= K_LIMIT {
      BoundCountLimited(r.events, u);
    }
    assert root in r.analysed;
  }

  lemma {:induction false} BoundCountLimited(events: seq<Event>, u: Usr)
    requires LimitedLog(events)
    ensures BoundCount(events, u) <= K_LIMIT && BoundCount(events, u) <= EventCount(events, u)
    decreases |events|
  {
    if events != [] {
      BoundCountLimited(events[..|events| - 1], u);
    }
  }

  /** In the log, an edge into u is ignored exactly when more than K_LIMIT edges into u are processed. */
  lemma {:induction false} IgnoredIffOverLimit(events: seq<Event>, u: Usr)
    requires LimitedLog(events)
    ensures Skipped(u) in events <==> EventCount(events, u) > K_LIMIT
    ensures BoundCount(events, u) == if EventCount(events, u) <= K_LIMIT then EventCount(events, u) else K_LIMIT
    decreases |events|
  {
    if events != [] {
      var front, e := events[..|events| - 1], events[|events| - 1];
      IgnoredIffOverLimit(front, u);
      assert events == front + [e];
    }
  }

  /** A bound edge's argument sets are all admitted by the positional entries of its callee. */
  lemma {:induction false} BoundEdgeAdmitted(events: seq<Event>, k: nat, i: nat)
    requires k < |events| && events[k].Bound? && i < |events[k].sets|
    ensures var joined := PosJoin(events, events[k].callee, i);
            joined.Some? && Below(events[k].sets[i], joined.value)
    decreases |events|
  {
    if k < |events| - 1 {
      BoundEdgeAdmitted(events[..|events| - 1], k, i);
    }
  }

  /**
   If no more than K_LIMIT edges into u are processed, every one of them was bound
   and u's final positional entries admit everything those edges resolved.
   */
  lemma {:induction false} EntriesAdmitEveryEdge(ix: Index, root: Usr, u: Usr)
    requires EventCount(Analysis(ix, root).events, u) <= K_LIMIT
    ensures var r := Analysis(ix, root);
            forall k :: 0 <= k < |r.events| && r.events[k].callee == u ==>
              && r.events[k].Bound?
              && forall i :: 0 <= i < |r.events[k].sets| ==>
                   Key(u, Pos(i)) in r.gamma && Below(r.events[k].sets[i], r.gamma[Key(u, Pos(i))])
  {
    var r := Analysis(ix, root);
    AnalysisExact(ix, root);
    IgnoredIffOverLimit(r.events, u);
    forall k | 0 <= k < |r.events| && r.events[k].callee == u
      ensures r.events[k].Bound?
      ensures forall i :: 0 <= i < |r.events[k].sets| ==>
                Key(u, Pos(i)) in r.gamma && Below(r.events[k].sets[i], r.gamma[Key(u, Pos(i))])
    {
      assert r.events[k] in r.events;
      forall i | 0 <= i < |r.events[k].sets|
        ensures Key(u, Pos(i)) in r.gamma && Below(r.events[k].sets[i], r.gamma[Key(u, Pos(i))])
      {
        BoundEdgeAdmitted(r.events, k, i);
      }
    }
  }

  // ---- The engine as the source runs it --------------------------------------------------------

  class Engine {
    const ix: Index
    var gamma: Gamma
    var analysed: set<Usr>
    var ctxCount: map<Usr, nat>
    ghost var events: seq<Event>
    ghost var entered: seq<Usr>
    ghost var bound: seq<(Usr, Edge)>

    ghost function Current(): State
      reads this
    {
      State(gamma, analysed, ctxCount, events, entered, bound)
    }

    constructor (ix: Index)
      ensures this.ix == ix && Current() == START
    {
      this.ix := ix;
      gamma, analysed, ctxCount := map[], {}, map[];
      events, entered, bound := [], [], [];
    }

    /** `analyse`: seed the environment from the walk's root. */
    method Analyse(root: Usr)
      requires Current() == START
      modifies this
      ensures Current() == Analysis(ix, root)
    {
      UniverseBounds(ix, root);
      Visit(root, Universe(ix, root));
    }

    method Visit(ctx: Usr, ghost u: set<Usr>)
      requires Bounds(ix, u) && ctx in u
      modifies this
      ensures Current() == AfterVisit(ix, u, old(Current()), ctx)
      decreases u - analysed, 0
    {
      if ctx in analysed {
        return;
      }
      assert ctx in u - analysed;
      ghost var before := Current();
      analysed := analysed + {ctx};
      entered := entered + [ctx];
      SeedLocals(ctx);
      assert Current() == Enter(ix, before, ctx);
      var edges := EdgesOut(ix, ctx);
      for i := 0 to |edges|
        invariant before.analysed + {ctx} <= analysed
        invariant AfterEdges(ix, u, Current(), ctx, i) == AfterVisit(ix, u, before, ctx)
      {
        assert u - analysed < u - before.analysed;
        BindAndVisit(ctx, edges[i], u);
      }
    }

    /** `_seed_locals`: the statically known types of a callable's own arguments. */
    method SeedLocals(ctx: Usr)
      modifies this`gamma
      ensures gamma == SeedEdges(ix, old(gamma), ctx, EdgesOut(ix, ctx))
    {
      var edges := EdgesOut(ix, ctx);
      ghost var gamma0 := gamma;
      for i := 0 to |edges|
        invariant gamma == SeedEdges(ix, gamma0, ctx, edges[..i])
      {
        var args := ArgsOf(ix, edges[i]);
        ghost var gamma1 := gamma;
        for j := 0 to |args|
          invariant gamma == SeedArgs(gamma1, ctx, args[..j])
        {
          gamma := SeedArg(gamma, ctx, args[j]);
          assert args[..j + 1][..j] == args[..j];
        }
        assert args[..|args|] == args && edges[..i + 1][..i] == edges[..i];
      }
      assert edges[..|edges|] == edges;
    }

    /** `_bind_and_visit`: past the limit nothing; else bind the callee's parameters, count, and descend. */
    method BindAndVisit(caller: Usr, e: Edge, ghost u: set<Usr>)
      requires Bounds(ix, u) && e.callee in u
      modifies this
      ensures Current() == AfterCall(ix, u, old(Current()), caller, e)
      decreases u - analysed, 1
    {
      ghost var before := Current();
      var count := if e.callee in ctxCount then ctxCount[e.callee] else 0;
      if count >= K_LIMIT {
        events := events + [Skipped(e.callee)];
        return;
      }
      ghost var sets := BindParameters(caller, e.callee, ArgsOf(ix, e));
      ctxCount := ctxCount[e.callee := count + 1];
      events, bound := events + [Bound(e.callee, sets)], bound + [(caller, e)];
      assert Current() == Bind(ix, before, caller, e);
      Visit(e.callee, u);
    }

    /** All positions of an edge, from the first to the greatest. */
    method BindParameters(caller: Usr, callee: Usr, args: seq<CallArg>) returns (ghost sets: seq<TypeSet>)
      modifies this`gamma
      ensures BindParams(old(gamma), caller, callee, args, ParamCount(args)) == Binding(gamma, sets)
    {
      ghost var before := gamma;
      var byPos, n := GroupByPosition(args);
      sets := [];
      for i := 0 to n
        invariant BindParams(before, caller, callee, args, i) == Binding(gamma, sets)
      {
        var here := if i in byPos then byPos[i] else [];
        var ts := BindPosition(caller, callee, i, here);
        sets := sets + [ts];
      }
    }

    /** One parameter position: resolve its arguments until one is TOP, join the result, then seed declaration keys. */
    method BindPosition(caller: Usr, callee: Usr, i: nat, here: seq<CallArg>) returns (ts: TypeSet)
      modifies this`gamma
      ensures ts == ResolveAll(old(gamma), caller, here)
      ensures gamma == BindDecls(JoinAt(old(gamma), Key(callee, Pos(i)), ts), caller, callee, here)
    {
      ts := Types({});
      var k := 0;
      while k < |here| && !ts.Top?
        invariant k <= |here| && ts == ResolveAll(gamma, caller, here[..k])
      {
        var one := ResolveSource(gamma, caller, here[k]);
        assert here[..k + 1][..k] == here[..k];
        ts := if one.Top? then Top else Types(ts.classes + one.classes);
        k := k + 1;
      }
      if ts.Top? {
        TopStays(gamma, caller, here, k);
      }
      assert here[..|here|] == here;
      gamma := JoinAt(gamma, Key(callee, Pos(i)), ts);
      ghost var gamma1 := gamma;
      for j := 0 to |here|
        invariant gamma == BindDecls(gamma1, caller, callee, here[..j])
      {
        gamma := BindDecl(gamma, caller, callee, here[j]);
        assert here[..j + 1][..j] == here[..j];
      }
    }
  }

  lemma {:induction false} TopStays(gamma: Gamma, ctx: Usr, args: seq<CallArg>, k: nat)
    requires k <= |args| && ResolveAll(gamma, ctx, args[..k]) == Top
    ensures ResolveAll(gamma, ctx, args) == Top
    decreases |args|
  {
    if k == |args| {
      assert args[..k] == args;
    } else {
      assert args[..|args| - 1][..k] == args[..k];
      TopStays(gamma, ctx, args[..|args| - 1], k);
    }
  }

  /** The arguments of an edge grouped by position, and the number of positions to bind. */
  method GroupByPosition(args: seq<CallArg>) returns (byPos: map<nat, seq<CallArg>>, n: nat)
    ensures n == ParamCount(args)
    ensures forall i: nat :: (if i in byPos then byPos[i] else []) == AtPosition(args, i)
  {
    byPos, n := map[], 0;
    for k := 0 to |args|
      invariant n == ParamCount(args[..k])
      invariant forall i: nat :: (if i in byPos then byPos[i] else []) == AtPosition(args[..k], i)
    {
      var a := args[k];
      assert args[..k + 1][..k] == args[..k];
      byPos := byPos[a.position := (if a.position in byPos then byPos[a.position] else []) + [a]];
      n := if a.position + 1 > n then a.position + 1 else n;
    }
    assert args[..|args|] == args;
  }

  // ---- The limit is not a fallback to TOP --------------------------------------------------------

  /**
   Root 0 calls 1, 2, 3 and 4, each of those calls 5 with a freshly built object of
   its own class 11 .. 14, and 5 makes one call, of 6.
   */
  const FOUR_CALLERS: Index :=
    Index(map[0 := [Edge(0, 1), Edge(0, 2), Edge(0, 3), Edge(0, 4)],
              1 := [Edge(1, 5)], 2 := [Edge(2, 5)], 3 := [Edge(3, 5)], 4 := [Edge(4, 5)], 5 := [Edge(5, 6)]],
          map[1 := [Built(11)], 2 := [Built(12)], 3 := [Built(13)], 4 := [Built(14)]])

  function Built(class_: Usr): CallArg {
    CallArg(0, Construct, Some(class_), None, true)
  }

  /** The program above and nothing besides it. */
  ghost predicate FourCallers(ix: Index) {
    && EdgesOut(ix, 0) == [Edge(0, 1), Edge(0, 2), Edge(0, 3), Edge(0, 4)]
    && EdgesOut(ix, 5) == [Edge(5, 6)] && ArgsOf(ix, Edge(5, 6)) == []
    && (forall c :: ArgsOf(ix, Edge(0, c)) == [])
    && (forall c :: 1 <= c <= 4 ==> EdgesOut(ix, c) == [Edge(c, 5)] && ArgsOf(ix, Edge(c, 5)) == [Built(10 + c)])
    && forall c :: c < 0 || c > 5 ==> EdgesOut(ix, c) == []
  }

  lemma {:induction false} FourCallersExist()
    ensures FourCallers(FOUR_CALLERS)
  {
  }

  /** Binding one built object resolves exactly its class. */
  lemma {:induction false} BuiltBinds(gamma: Gamma, caller: Usr, callee: Usr, class_: Usr)
    ensures ParamCount([Built(class_)]) == 1
    ensures BindParams(gamma, caller, callee, [Built(class_)], 1).sets == [Types({class_})]
  {
    var args := [Built(class_)];
    assert args[..0] == [];
    assert AtPosition(args, 0) == args;
    assert ResolveAll(gamma, caller, args) == Types({class_});
  }

  /** The classes the first i callers contribute to parameter 0 of 5. */
  ghost function Gained(i: nat): set<Usr> {
    if i == 0 then {} else if i > K_LIMIT then Gained(i - 1) else Gained(i - 1) + {10 + i}
  }

  /** From st to r nothing happened to 5's parameter, and only contexts and counts named in `touched` changed. */
  ghost predicate Apart(st: State, r: State, touched: set<Usr>) {
    && PosJoin(r.events, 5, 0) == PosJoin(st.events, 5, 0)
    && (Skipped(5) in st.events ==> Skipped(5) in r.events)
    && r.analysed <= st.analysed + touched
    && forall x :: x !in touched ==> Count(r, x) == Count(st, x)
  }

  lemma {:induction false} AppendApart(st: State, r: State, e: Event, touched: set<Usr>)
    requires r.events == st.events + [e] && e.callee != 5 && r.analysed <= st.analysed + touched
    requires forall x :: x !in touched ==> Count(r, x) == Count(st, x)
    ensures Apart(st, r, touched)
  {
    PosJoinAppend(st.events, e);
  }

  /** 6 calls nothing, so its call by 5 binds and enters it at most. */
  lemma {:induction false} LastCall(ix: Index, u: set<Usr>, st: State)
    requires FourCallers(ix) && Bounds(ix, u) && 6 in u
    ensures Apart(st, AfterCall(ix, u, st, 5, Edge(5, 6)), {6})
  {
    if Count(st, 6) < K_LIMIT {
      var st1 := Bind(ix, st, 5, Edge(5, 6));
      AppendApart(st, st1, st1.events[|st.events|], {6});
      var st2 := Enter(ix, st1, 6);
      assert AfterEdges(ix, u, st2, 6, 0) == st2;
    } else {
      AppendApart(st, st.(events := st.events + [Skipped(6)]), Skipped(6), {6});
    }
  }

  lemma {:induction false} VisitCallee(ix: Index, u: set<Usr>, st: State)
    requires FourCallers(ix) && Bounds(ix, u) && 5 in u && 6 in u
    ensures Apart(st, AfterVisit(ix, u, st, 5), {5, 6}) && Count(AfterVisit(ix, u, st, 5), 5) == Count(st, 5)
  {
    if 5 !in st.analysed {
      var entered := Enter(ix, st, 5);
      LastCall(ix, u, entered);
      var st1 := AfterCall(ix, u, entered, 5, Edge(5, 6));
      assert AfterEdges(ix, u, st1, 5, 1) == st1;
      assert AfterEdges(ix, u, entered, 5, 0) == st1;
    }
  }

  /** What a call of 5 from caller c does to 5's parameter: c's class is added below the limit, ignored past it. */
  ghost predicate CalledFive(st: State, r: State, c: Usr) {
    if Count(st, 5) < K_LIMIT then
      && Count(r, 5) == Count(st, 5) + 1
      && PosJoin(r.events, 5, 0) == Some(JoinOpt(PosJoin(st.events, 5, 0), Types({10 + c})))
    else
      && Count(r, 5) == Count(st, 5) && Skipped(5) in r.events
      && PosJoin(r.events, 5, 0) == PosJoin(st.events, 5, 0)
  }

  lemma {:induction false} InnerCall(ix: Index, u: set<Usr>, st: State, c: Usr)
    requires FourCallers(ix) && Bounds(ix, u) && 1 <= c <= 4 && 5 in u && 6 in u
    ensures var r := AfterCall(ix, u, st, c, Edge(c, 5));
            && CalledFive(st, r, c) && r.analysed <= st.analysed + {5, 6}
            && (Skipped(5) in st.events ==> Skipped(5) in r.events)
            && forall x :: x != 5 && x != 6 ==> Count(r, x) == Count(st, x)
  {
    if Count(st, 5) < K_LIMIT {
      BuiltBinds(st.gamma, c, 5, 10 + c);
      var st1 := Bind(ix, st, c, Edge(c, 5));
      assert st1.events == st.events + [Bound(5, [Types({10 + c})])];
      assert Skipped(5) in st.events ==> Skipped(5) in st1.events;
      PosJoinAppend(st.events, Bound(5, [Types({10 + c})]));
      VisitCallee(ix, u, st1);
    } else {
      PosJoinAppend(st.events, Skipped(5));
    }
  }

  /** Processing one of the four callers binds it without arguments and then makes its call of 5. */
  lemma {:induction false} OuterCall(ix: Index, u: set<Usr>, st: State, c: Usr)
    requires FourCallers(ix) && Bounds(ix, u) && 1 <= c <= 4 && c in u && 5 in u && 6 in u
    requires c !in st.analysed && Count(st, c) == 0
    ensures var r := AfterCall(ix, u, st, 0, Edge(0, c));
            && CalledFive(st, r, c) && r.analysed <= st.analysed + {c, 5, 6}
            && (Skipped(5) in st.events ==> Skipped(5) in r.events)
            && forall x :: x !in {c, 5, 6} ==> Count(r, x) == Count(st, x)
  {
    var st1 := Bind(ix, st, 0, Edge(0, c));
    AppendApart(st, st1, st1.events[|st.events|], {c});
    var st2 := Enter(ix, st1, c);
    InnerCall(ix, u, st2, c);
    var st3 := AfterCall(ix, u, st2, c, Edge(c, 5));
    assert AfterEdges(ix, u, st3, c, 1) == st3;
    assert AfterEdges(ix, u, st2, c, 0) == st3;
  }

  /** What the first i callers have done to the state, as far as 5 and the later callers are concerned. */
  ghost predicate AfterCallers(st: State, i: nat) {
    && Count(st, 5) == (if i < K_LIMIT then i else K_LIMIT)
    && PosJoin(st.events, 5, 0) == (if i == 0 then None else Some(Types(Gained(i))))
    && (i > K_LIMIT ==> Skipped(5) in st.events)
    && forall c :: i < c <= 4 ==> c !in st.analysed && Count(st, c) == 0
  }

  lemma {:induction false} NextCaller(ix: Index, u: set<Usr>, st: State, i: nat)
    requires FourCallers(ix) && Bounds(ix, u) && i < 4 && {5, 6, i + 1} <= u && AfterCallers(st, i)
    ensures AfterCallers(AfterCall(ix, u, st, 0, Edge(0, i + 1)), i + 1)
  {
    OuterCall(ix, u, st, i + 1);
  }

  lemma {:induction false} RemainingCallers(ix: Index, u: set<Usr>, st: State, i: nat)
    requires FourCallers(ix) && Bounds(ix, u) && i <= 4 && {0, 1, 2, 3, 4, 5, 6} <= u && AfterCallers(st, i)
    ensures AfterCallers(AfterEdges(ix, u, st, 0, i), 4)
    decreases 4 - i
  {
    if i < 4 {
      assert EdgesOut(ix, 0)[i] == Edge(0, i + 1);
      NextCaller(ix, u, st, i);
      RemainingCallers(ix, u, AfterCall(ix, u, st, 0, Edge(0, i + 1)), i + 1);
    }
  }

  /**
   The fourth caller passes class 14, but its edge is ignored: parameter 0 of 5 ends
   up with classes 11, 12 and 13 only, not TOP as the K_LIMIT comment has it.
   */
  lemma {:induction false} LimitLosesAClass(ix: Index)
    requires FourCallers(ix)
    ensures var r := Analysis(ix, 0);
            Lookup(r.gamma, Key(5, Pos(0))) == Some(Types({11, 12, 13})) && Skipped(5) in r.events
  {
    var u := Universe(ix, 0);
    UniverseBounds(ix, 0);
    assert EdgesOut(ix, 0)[0].callee == 1 && EdgesOut(ix, 0)[1].callee == 2;
    assert EdgesOut(ix, 0)[2].callee == 3 && EdgesOut(ix, 0)[3].callee == 4;
    assert EdgesOut(ix, 1)[0].callee == 5 && EdgesOut(ix, 5)[0].callee == 6;
    RemainingCallers(ix, u, Enter(ix, START, 0), 0);
    AnalysisExact(ix, 0);
    assert Gained(4) == Gained(3) == {11, 12, 13};
  }

  lemma {:induction false} PosJoinAppend(events: seq<Event>, e: Event)
    ensures PosJoin(events + [e], 5, 0) ==
            if e.Bound? && e.callee == 5 && 0 < |e.sets| then Some(JoinOpt(PosJoin(events, 5, 0), e.sets[0]))
            else PosJoin(events, 5, 0)
  {
    assert (events + [e])[..|events|] == events;
  }
}
