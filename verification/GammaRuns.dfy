/**
 Whole runs of the propagation engine, in terms of the call edges it is given: the
 contexts it enters are those the root reaches, every call edge out of them is
 processed once, and what K_LIMIT drops is decided by counting call edges. Between
 any two states of a run no binding loses a class.
 */
module GammaRuns {
  import opened Options
  import opened Reachability
  import opened Provenance
  import opened GammaEngine

  // ---- The call graph of an index ---------------------------------------------------

  function Callees(edges: seq<Edge>): seq<Node> {
    seq(|edges|, i requires 0 <= i < |edges| => edges[i].callee)
  }

  function CallsOf(ix: Index): Graph {
    map c | c in ix.calls :: Callees(ix.calls[c])
  }

  lemma {:induction false} CallsOfEdge(ix: Index, c: Usr, i: nat)
    requires i < |EdgesOut(ix, c)|
    ensures EdgesOut(ix, c)[i].callee in Succ(CallsOf(ix), c)
  {
    assert Callees(ix.calls[c])[i] == EdgesOut(ix, c)[i].callee;
  }

  lemma {:induction false} EdgeOfCall(ix: Index, c: Usr, v: Usr) returns (i: nat)
    requires v in Succ(CallsOf(ix), c)
    ensures i < |EdgesOut(ix, c)| && EdgesOut(ix, c)[i].callee == v
  {
    assert v in Callees(ix.calls[c]);
    i :| i < |Callees(ix.calls[c])| && Callees(ix.calls[c])[i] == v;
  }

  /** The callables the root reaches along call edges, itself included. */
  ghost function ReachedFrom(ix: Index, root: Usr): set<Usr> {
    set c | c in Universe(ix, root) && Reachable(CallsOf(ix), root, c)
  }

  /** The call edges into u out of the callables in `from`, each named by its caller and its place in the caller's list. */
  ghost function EdgesInto(ix: Index, from: set<Usr>, u: Usr): set<(Usr, int)> {
    set c, i | c in from && 0 <= i < |EdgesOut(ix, c)| && EdgesOut(ix, c)[i].callee == u :: (c, i)
  }

  // ---- Counting call edges along a run --------------------------------------------------

  /** The edges into u from the i-th on. */
  ghost function CountInto(edges: seq<Edge>, i: nat, u: Usr): nat
    decreases |edges| - i
  {
    if i >= |edges| then 0 else (if edges[i].callee == u then 1 else 0) + CountInto(edges, i + 1, u)
  }

  /** The call edges into u out of a list of contexts. */
  ghost function TotalInto(ix: Index, entered: seq<Usr>, u: Usr): nat {
    if entered == [] then 0
    else TotalInto(ix, entered[..|entered| - 1], u) + CountInto(EdgesOut(ix, entered[|entered| - 1]), 0, u)
  }

  /** Processed edges into u and edges of entered contexts into u advance together, but for those pending from the i-th on. */
  ghost predicate Tallied(ix: Index, before: State, after: State, pending: seq<Edge>, i: nat) {
    forall u :: EventCount(after.events, u) + TotalInto(ix, before.entered, u)
             == EventCount(before.events, u) + TotalInto(ix, after.entered, u) + CountInto(pending, i, u)
  }

  /** Only reachable contexts have been entered, and the callee of every processed edge was entered or is next. */
  ghost predicate OnlyReached(ix: Index, root: Usr, st: State, next: set<Usr>) {
    && (forall c :: c in st.analysed ==> Reachable(CallsOf(ix), root, c))
    && forall e :: e in st.events ==> e.callee in st.analysed + next
  }

  lemma {:induction false} EventAppend(events: seq<Event>, e: Event, u: Usr)
    ensures EventCount(events + [e], u) == EventCount(events, u) + if e.callee == u then 1 else 0
  {
    assert (events + [e])[..|events|] == events;
  }

  lemma {:induction false} EventExists(events: seq<Event>, u: Usr)
    ensures EventCount(events, u) > 0 <==> exists e :: e in events && e.callee == u
    decreases |events|
  {
    if events != [] {
      EventExists(events[..|events| - 1], u);
      assert events == events[..|events| - 1] + [events[|events| - 1]];
    }
  }

  lemma {:induction false} EnterTallies(ix: Index, st: State, ctx: Usr)
    ensures forall u :: TotalInto(ix, Enter(ix, st, ctx).entered, u)
                     == TotalInto(ix, st.entered, u) + CountInto(EdgesOut(ix, ctx), 0, u)
  {
    assert (st.entered + [ctx])[..|st.entered|] == st.entered;
  }

  lemma {:induction false} VisitCovers(ix: Index, u: set<Usr>, root: Usr, st: State, ctx: Usr)
    requires Bounds(ix, u) && ctx in u && Consistent(st)
    requires OnlyReached(ix, root, st, {ctx}) && Reachable(CallsOf(ix), root, ctx)
    ensures var r := AfterVisit(ix, u, st, ctx);
            Tallied(ix, st, r, [], 0) && OnlyReached(ix, root, r, {}) && ctx in r.analysed
    decreases u - st.analysed, 0, 0
  {
    if ctx !in st.analysed {
      assert ctx in u - st.analysed;
      var st1 := Enter(ix, st, ctx);
      EnterConsistent(ix, st, ctx);
      EnterTallies(ix, st, ctx);
      EdgesCover(ix, u, root, st1, ctx, 0);
    }
  }

  lemma {:induction false} EdgesCover(ix: Index, u: set<Usr>, root: Usr, st: State, ctx: Usr, i: nat)
    requires Bounds(ix, u) && ctx in u && Consistent(st) && i <= |EdgesOut(ix, ctx)|
    requires OnlyReached(ix, root, st, {}) && Reachable(CallsOf(ix), root, ctx)
    ensures var r := AfterEdges(ix, u, st, ctx, i);
            Tallied(ix, st, r, EdgesOut(ix, ctx), i) && OnlyReached(ix, root, r, {})
    decreases u - st.analysed, 2, |EdgesOut(ix, ctx)| - i
  {
    if i < |EdgesOut(ix, ctx)| {
      var e := EdgesOut(ix, ctx)[i];
      var st1 := AfterCall(ix, u, st, ctx, e);
      assert u - st1.analysed <= u - st.analysed;
      CalleeReached(ix, root, ctx, i);
      CallCovers(ix, u, root, st, ctx, e);
      EdgesCover(ix, u, root, st1, ctx, i + 1);
      TallyEdge(ix, st, st1, AfterEdges(ix, u, st1, ctx, i + 1), EdgesOut(ix, ctx), i);
    }
  }

  lemma {:induction false} CalleeReached(ix: Index, root: Usr, ctx: Usr, i: nat)
    requires Reachable(CallsOf(ix), root, ctx) && i < |EdgesOut(ix, ctx)|
    ensures Reachable(CallsOf(ix), root, EdgesOut(ix, ctx)[i].callee)
  {
    CallsOfEdge(ix, ctx, i);
    var p :| PathBetween(CallsOf(ix), root, ctx, p);
    PathSnoc(CallsOf(ix), root, ctx, EdgesOut(ix, ctx)[i].callee, p);
  }

  lemma {:induction false} TallyEdge(ix: Index, st: State, st1: State, r: State, edges: seq<Edge>, i: nat)
    requires i < |edges| && Tallied(ix, st, st1, [edges[i]], 0) && Tallied(ix, st1, r, edges, i + 1)
    ensures Tallied(ix, st, r, edges, i)
  {
    CountOne(edges[i]);
  }

  /** An edge past the limit leads to a callee bound, and so entered, before. */
  lemma {:induction false} CallCovers(ix: Index, u: set<Usr>, root: Usr, st: State, caller: Usr, e: Edge)
    requires Bounds(ix, u) && e.callee in u && Consistent(st)
    requires OnlyReached(ix, root, st, {}) && Reachable(CallsOf(ix), root, e.callee)
    ensures var r := AfterCall(ix, u, st, caller, e);
            Consistent(r) && Tallied(ix, st, r, [e], 0) && OnlyReached(ix, root, r, {})
    decreases u - st.analysed, 1, 0
  {
    CallConsistent(ix, u, st, caller, e);
    if Count(st, e.callee) >= K_LIMIT {
      BoundCountLimited(st.events, e.callee);
      EventExists(st.events, e.callee);
      AppendTallies(ix, st, st.(events := st.events + [Skipped(e.callee)]), e, Skipped(e.callee));
    } else {
      var st1 := Bind(ix, st, caller, e);
      BindConsistent(ix, st, caller, e);
      AppendTallies(ix, st, st1, e, st1.events[|st.events|]);
      VisitCovers(ix, u, root, st1, e.callee);
    }
  }

  lemma {:induction false} CountOne(e: Edge)
    ensures forall u :: CountInto([e], 0, u) == if e.callee == u then 1 else 0
  {
    assert forall u :: CountInto([e], 1, u) == 0;
  }

  lemma {:induction false} AppendTallies(ix: Index, st: State, st1: State, e: Edge, event: Event)
    requires st1.events == st.events + [event] && event.callee == e.callee && st1.entered == st.entered
    ensures Tallied(ix, st, st1, [e], 0)
  {
    CountOne(e);
    forall u
      ensures EventCount(st1.events, u) + TotalInto(ix, st.entered, u)
           == EventCount(st.events, u) + TotalInto(ix, st1.entered, u) + CountInto([e], 0, u)
    {
      EventAppend(st.events, event, u);
    }
  }

  // ---- From lists of contexts to the set of them ----------------------------------------

  /** The places of a list, from the i-th on, that hold an edge into u, marked with the caller c. */
  ghost function Places(edges: seq<Edge>, i: nat, u: Usr, c: Usr): set<(Usr, int)> {
    set j | i <= j < |edges| && edges[j].callee == u :: (c, j)
  }

  lemma {:induction false} CountIsCardinality(edges: seq<Edge>, i: nat, u: Usr, c: Usr)
    ensures CountInto(edges, i, u) == |Places(edges, i, u, c)|
    decreases |edges| - i
  {
    if i >= |edges| {
      assert Places(edges, i, u, c) == {};
    } else {
      CountIsCardinality(edges, i + 1, u, c);
      assert Places(edges, i, u, c) == Places(edges, i + 1, u, c) + if edges[i].callee == u then {(c, i)} else {};
    }
  }

  lemma {:induction false} TotalIsCardinality(ix: Index, entered: seq<Usr>, from: set<Usr>, u: Usr)
    requires NoRepeats(entered) && forall c :: c in from <==> c in entered
    ensures TotalInto(ix, entered, u) == |EdgesInto(ix, from, u)|
    decreases |entered|
  {
    if entered == [] {
      assert EdgesInto(ix, from, u) == {};
    } else {
      var front, c := entered[..|entered| - 1], entered[|entered| - 1];
      assert entered == front + [c];
      TotalIsCardinality(ix, front, from - {c}, u);
      CountIsCardinality(EdgesOut(ix, c), 0, u, c);
      EdgesIntoSplit(ix, from, c, u);
    }
  }

  lemma {:induction false} EdgesIntoSplit(ix: Index, from: set<Usr>, c: Usr, u: Usr)
    requires c in from
    ensures |EdgesInto(ix, from, u)| == |EdgesInto(ix, from - {c}, u)| + |Places(EdgesOut(ix, c), 0, u, c)|
  {
    assert EdgesInto(ix, from, u) == EdgesInto(ix, from - {c}, u) + Places(EdgesOut(ix, c), 0, u, c);
    assert EdgesInto(ix, from - {c}, u) !! Places(EdgesOut(ix, c), 0, u, c);
  }

  // ---- What a finished run has covered -----------------------------------------------------

  /**
   Every run of the engine, whatever the call graph: the contexts entered are those
   the root reaches, each once, and every call edge out of them is processed once.
   */
  lemma {:induction false} RunCoversReachable(ix: Index, root: Usr)
    ensures var r := Analysis(ix, root);
            && NoRepeats(r.entered) && (forall c :: c in r.entered <==> c in ReachedFrom(ix, root))
            && forall u :: EventCount(r.events, u) == |EdgesInto(ix, ReachedFrom(ix, root), u)|
  {
    var r := Analysis(ix, root);
    EnteredTally(ix, root);
    forall c | c in r.entered ensures c in ReachedFrom(ix, root) {
      InUniverse(ix, root, c);
    }
    forall c | c in ReachedFrom(ix, root) ensures c in r.entered {
      var p :| PathBetween(CallsOf(ix), root, c, p);
      EnteredClosed(ix, root);
      ClosedHoldsPath(CallsOf(ix), r.analysed, root, c, p);
    }
    forall u ensures EventCount(r.events, u) == |EdgesInto(ix, ReachedFrom(ix, root), u)| {
      TotalIsCardinality(ix, r.entered, ReachedFrom(ix, root), u);
    }
  }

  lemma {:induction false} EnteredTally(ix: Index, root: Usr)
    ensures var r := Analysis(ix, root);
            && Consistent(r) && OnlyReached(ix, root, r, {}) && root in r.analysed
            && forall u :: EventCount(r.events, u) == TotalInto(ix, r.entered, u)
  {
    UniverseBounds(ix, root);
    assert PathBetween(CallsOf(ix), root, root, [root]);
    VisitConsistent(ix, Universe(ix, root), START, root);
    VisitCovers(ix, Universe(ix, root), root, START, root);
    assert Tallied(ix, START, Analysis(ix, root), [], 0);
  }

  lemma {:induction false} InUniverse(ix: Index, root: Usr, c: Usr)
    requires Reachable(CallsOf(ix), root, c)
    ensures c in Universe(ix, root)
  {
    var p :| PathBetween(CallsOf(ix), root, c, p);
    if |p| > 1 {
      var i := EdgeOfCall(ix, p[|p| - 2], c);
      assert p[|p| - 2] in ix.calls && ix.calls[p[|p| - 2]][i].callee == c;
    }
  }

  /** Every callee of an entered context is entered. */
  lemma {:induction false} EnteredClosed(ix: Index, root: Usr)
    ensures Closed(CallsOf(ix), Analysis(ix, root).analysed)
  {
    var r := Analysis(ix, root);
    EnteredTally(ix, root);
    forall c, v | c in r.analysed && v in Succ(CallsOf(ix), c) ensures v in r.analysed {
      var i := EdgeOfCall(ix, c, v);
      CountPositive(EdgesOut(ix, c), 0, i, v);
      TotalPositive(ix, r.entered, c, v);
      EventExists(r.events, v);
    }
  }

  lemma {:induction false} CountPositive(edges: seq<Edge>, i: nat, k: nat, u: Usr)
    requires i <= k < |edges| && edges[k].callee == u
    ensures CountInto(edges, i, u) > 0
    decreases |edges| - i
  {
    if i < k {
      CountPositive(edges, i + 1, k, u);
    }
  }

  lemma {:induction false} TotalPositive(ix: Index, entered: seq<Usr>, c: Usr, u: Usr)
    requires c in entered && CountInto(EdgesOut(ix, c), 0, u) > 0
    ensures TotalInto(ix, entered, u) > 0
    decreases |entered|
  {
    if entered[|entered| - 1] != c {
      assert entered == entered[..|entered| - 1] + [entered[|entered| - 1]];
      TotalPositive(ix, entered[..|entered| - 1], c, u);
    }
  }

  // ---- K_LIMIT in terms of call edges ----------------------------------------------------

  /** No more than K_LIMIT call edges lead into u from callables the root reaches. */
  ghost predicate WithinLimit(ix: Index, root: Usr, u: Usr) {
    |EdgesInto(ix, ReachedFrom(ix, root), u)| <= K_LIMIT
  }

  /** Some call edge into u is ignored exactly when more than K_LIMIT of them leave callables the root reaches. */
  lemma {:induction false} EdgeIgnoredIffOverLimit(ix: Index, root: Usr, u: Usr)
    ensures var r := Analysis(ix, root); Skipped(u) in r.events <==> !WithinLimit(ix, root, u)
    ensures var n := |EdgesInto(ix, ReachedFrom(ix, root), u)|;
            BoundCount(Analysis(ix, root).events, u) == if n <= K_LIMIT then n else K_LIMIT
  {
    RunCoversReachable(ix, root);
    AnalysisExact(ix, root);
    IgnoredIffOverLimit(Analysis(ix, root).events, u);
  }

  /** u's final positional entries admit everything the processed edges into u resolved. */
  ghost predicate AdmitsEveryEdge(r: State, u: Usr) {
    forall k :: 0 <= k < |r.events| && r.events[k].callee == u ==>
      && r.events[k].Bound?
      && forall i :: 0 <= i < |r.events[k].sets| ==>
           Key(u, Pos(i)) in r.gamma && Below(r.events[k].sets[i], r.gamma[Key(u, Pos(i))])
  }

  /**
   Every call edge into u from a callable the root reaches is bound, and u's final
   entries admit what all of them resolved, exactly when they number at most K_LIMIT.
   */
  lemma {:induction false} EveryEdgeAdmittedIff(ix: Index, root: Usr, u: Usr)
    ensures AdmitsEveryEdge(Analysis(ix, root), u) <==> WithinLimit(ix, root, u)
  {
    var r := Analysis(ix, root);
    RunCoversReachable(ix, root);
    EdgeIgnoredIffOverLimit(ix, root, u);
    if WithinLimit(ix, root, u) {
      EntriesAdmitEveryEdge(ix, root, u);
    } else {
      var k :| 0 <= k < |r.events| && r.events[k] == Skipped(u);
    }
  }

  // ---- Every intermediate state of a run ---------------------------------------------------

  /** The states a visit passes through, from the one it starts in to the one it leaves. */
  ghost function VisitTrace(ix: Index, u: set<Usr>, st: State, ctx: Usr): seq<State>
    requires Bounds(ix, u) && ctx in u
    decreases u - st.analysed, 0, 0
  {
    if ctx in st.analysed then [st]
    else
      assert ctx in u - st.analysed;
      [st] + EdgesTrace(ix, u, Enter(ix, st, ctx), ctx, 0)
  }

  ghost function EdgesTrace(ix: Index, u: set<Usr>, st: State, ctx: Usr, i: nat): seq<State>
    requires Bounds(ix, u) && ctx in u
    decreases u - st.analysed, 2, |EdgesOut(ix, ctx)| - i
  {
    if i >= |EdgesOut(ix, ctx)| then [st]
    else
      var st1 := AfterCall(ix, u, st, ctx, EdgesOut(ix, ctx)[i]);
      assert u - st1.analysed <= u - st.analysed;
      CallTrace(ix, u, st, ctx, EdgesOut(ix, ctx)[i]) + EdgesTrace(ix, u, st1, ctx, i + 1)
  }

  ghost function CallTrace(ix: Index, u: set<Usr>, st: State, caller: Usr, e: Edge): seq<State>
    requires Bounds(ix, u) && e.callee in u
    decreases u - st.analysed, 1, 0
  {
    if Count(st, e.callee) >= K_LIMIT then [st, st.(events := st.events + [Skipped(e.callee)])]
    else [st] + VisitTrace(ix, u, Bind(ix, st, caller, e), e.callee)
  }

  /** The state after an edge past the limit. */
  function Skip(st: State, e: Edge): State {
    st.(events := st.events + [Skipped(e.callee)])
  }

  /** What becomes of one call edge, before its callee is visited. */
  ghost function Handle(ix: Index, st: State, caller: Usr, e: Edge): State {
    if Count(st, e.callee) < K_LIMIT then Bind(ix, st, caller, e) else Skip(st, e)
  }

  ghost predicate Enters(ix: Index, a: State, b: State) {
    exists ctx :: ctx !in a.analysed && b == Enter(ix, a, ctx)
  }

  ghost predicate Handles(ix: Index, a: State, b: State) {
    exists c, e :: c in a.analysed && e in EdgesOut(ix, c) && b == Handle(ix, a, c, e)
  }

  /** b follows a by one act of the engine, or by none: enter a context, or handle a call edge of an entered one. */
  ghost predicate Stepped(ix: Index, a: State, b: State) {
    b == a || Enters(ix, a, b) || Handles(ix, a, b)
  }

  /** A run from a to b in acts of the engine, every state of which satisfies the invariant and only gains on all earlier ones. */
  ghost predicate Growing(ix: Index, run: seq<State>, a: State, b: State) {
    && run != [] && run[0] == a && run[|run| - 1] == b
    && (forall k :: 0 <= k < |run| ==> Consistent(run[k]))
    && (forall k, l :: 0 <= k <= l < |run| ==> Grows(run[k].gamma, run[l].gamma))
    && forall k :: 0 < k < |run| ==> Stepped(ix, run[k - 1], run[k])
  }

  lemma {:induction false} Joined(ix: Index, run: seq<State>, a: State, b: State, next: seq<State>, c: State, d: State)
    requires Growing(ix, run, a, b) && Growing(ix, next, c, d) && Grows(b.gamma, c.gamma) && Stepped(ix, b, c)
    ensures Growing(ix, run + next, a, d)
  {
    forall k, l | 0 <= k < |run| <= l < |run + next| ensures Grows((run + next)[k].gamma, (run + next)[l].gamma) {
      GrowsTrans(run[k].gamma, b.gamma, c.gamma);
      GrowsTrans(run[k].gamma, c.gamma, next[l - |run|].gamma);
    }
    forall k | 0 < k < |run + next| ensures Stepped(ix, (run + next)[k - 1], (run + next)[k]) {
      if k > |run| {
        assert (run + next)[k] == next[k - |run|] && (run + next)[k - 1] == next[k - |run| - 1];
      }
    }
  }

  lemma {:induction false} Single(ix: Index, st: State)
    requires Consistent(st)
    ensures Growing(ix, [st], st, st)
  {
  }

  lemma {:induction false} VisitGrows(ix: Index, u: set<Usr>, st: State, ctx: Usr)
    requires Bounds(ix, u) && ctx in u && Consistent(st)
    ensures Growing(ix, VisitTrace(ix, u, st, ctx), st, AfterVisit(ix, u, st, ctx))
    decreases u - st.analysed, 0, 0
  {
    Single(ix, st);
    if ctx !in st.analysed {
      assert ctx in u - st.analysed;
      var st1 := Enter(ix, st, ctx);
      EnterConsistent(ix, st, ctx);
      EdgesGrow(ix, u, st1, ctx, 0);
      assert Enters(ix, st, st1);
      Joined(ix, [st], st, st, EdgesTrace(ix, u, st1, ctx, 0), st1, AfterVisit(ix, u, st, ctx));
    }
  }

  lemma {:induction false} EdgesGrow(ix: Index, u: set<Usr>, st: State, ctx: Usr, i: nat)
    requires Bounds(ix, u) && ctx in u && Consistent(st) && ctx in st.analysed && i <= |EdgesOut(ix, ctx)|
    ensures Growing(ix, EdgesTrace(ix, u, st, ctx, i), st, AfterEdges(ix, u, st, ctx, i))
    decreases u - st.analysed, 2, |EdgesOut(ix, ctx)| - i
  {
    if i == |EdgesOut(ix, ctx)| {
      Single(ix, st);
    } else {
      var e := EdgesOut(ix, ctx)[i];
      var st1 := AfterCall(ix, u, st, ctx, e);
      assert u - st1.analysed <= u - st.analysed;
      CallGrows(ix, u, st, ctx, e);
      EdgesGrow(ix, u, st1, ctx, i + 1);
      Joined(ix, CallTrace(ix, u, st, ctx, e), st, st1, EdgesTrace(ix, u, st1, ctx, i + 1), st1, AfterEdges(ix, u, st, ctx, i));
    }
  }

  lemma {:induction false} CallGrows(ix: Index, u: set<Usr>, st: State, caller: Usr, e: Edge)
    requires Bounds(ix, u) && e.callee in u && Consistent(st) && caller in st.analysed && e in EdgesOut(ix, caller)
    ensures Growing(ix, CallTrace(ix, u, st, caller, e), st, AfterCall(ix, u, st, caller, e))
    ensures Consistent(AfterCall(ix, u, st, caller, e))
    decreases u - st.analysed, 1, 0
  {
    Single(ix, st);
    CallConsistent(ix, u, st, caller, e);
    assert Handles(ix, st, Handle(ix, st, caller, e));
    if Count(st, e.callee) >= K_LIMIT {
      var st1 := Skip(st, e);
      Single(ix, st1);
      Joined(ix, [st], st, st, [st1], st1, st1);
      assert [st] + [st1] == [st, st1];
    } else {
      var st1 := Bind(ix, st, caller, e);
      BindConsistent(ix, st, caller, e);
      VisitGrows(ix, u, st1, e.callee);
      Joined(ix, [st], st, st, VisitTrace(ix, u, st1, e.callee), st1, AfterVisit(ix, u, st1, e.callee));
    }
  }

  /** The states of a whole analysis, from the empty environment to its result. */
  ghost function Run(ix: Index, root: Usr): seq<State> {
    UniverseBounds(ix, root);
    VisitTrace(ix, Universe(ix, root), START, root)
  }

  /**
   Every run goes from the empty environment to its result by single acts of the engine;
   the invariant holds in every state, and from any state to any later one no bound key
   loses a class and none leaves TOP.
   */
  lemma {:induction false} RunOnlyGrows(ix: Index, root: Usr)
    ensures Growing(ix, Run(ix, root), START, Analysis(ix, root))
  {
    UniverseBounds(ix, root);
    VisitGrows(ix, Universe(ix, root), START, root);
  }
}
