/**
 What K_LIMIT keeps and what it loses, for all argument rows a call graph can carry: the
 objects constructed in the calls of a callable all reach its positional entries exactly
 when no more than K_LIMIT call edges lead into it from what the root reaches.
 */
module GammaLimit {
  import opened Options
  import opened Reachability
  import opened Provenance
  import opened GammaEngine
  import opened GammaRuns
  import opened GammaKeys

  /** The edge table has no id twice. */
  ghost predicate UniqueIds(ix: Index) {
    forall c, d, i, j :: 0 <= i < |EdgesOut(ix, c)| && 0 <= j < |EdgesOut(ix, d)| && SameId(ix, c, i, d, j) ==> c == d && i == j
  }

  predicate SameId(ix: Index, c: Usr, i: nat, d: Usr, j: nat)
    requires i < |EdgesOut(ix, c)| && j < |EdgesOut(ix, d)|
  {
    EdgesOut(ix, c)[i].id == EdgesOut(ix, d)[j].id
  }

  predicate IsConstruction(a: CallArg) {
    a.srcKind == Construct && a.typeUsr.Some?
  }

  /** Every object constructed in an argument of a call of u, out of what the root reaches, is admitted at its position. */
  ghost predicate AdmitsConstructed(ix: Index, root: Usr, u: Usr) {
    forall c, e, a :: c in ReachedFrom(ix, root) && e in EdgesOut(ix, c) && e.callee == u && a in ArgsOf(ix, e) && IsConstruction(a)
                 ==> EntryAdmits(Analysis(ix, root).gamma, u, a.position, a.typeUsr.value)
  }

  /** Reach and call edges are a matter of the calls, not of the argument rows. */
  lemma {:induction false} SameCalls(ix: Index, rows: map<int, seq<CallArg>>, root: Usr, u: Usr)
    ensures var jx := ix.(rows := rows);
            && ReachedFrom(jx, root) == ReachedFrom(ix, root)
            && EdgesInto(jx, ReachedFrom(jx, root), u) == EdgesInto(ix, ReachedFrom(ix, root), u)
            && (WithinLimit(jx, root, u) <==> WithinLimit(ix, root, u))
  {
    var jx := ix.(rows := rows);
    assert CallsOf(jx) == CallsOf(ix) && Universe(jx, root) == Universe(ix, root);
    assert ReachedFrom(jx, root) == ReachedFrom(ix, root);
    assert forall c :: EdgesOut(jx, c) == EdgesOut(ix, c);
    assert EdgesInto(jx, ReachedFrom(ix, root), u) == EdgesInto(ix, ReachedFrom(ix, root), u);
  }

  lemma {:induction false} StillUnique(ix: Index, rows: map<int, seq<CallArg>>)
    requires UniqueIds(ix)
    ensures UniqueIds(ix.(rows := rows))
  {
    var jx := ix.(rows := rows);
    assert forall c :: EdgesOut(jx, c) == EdgesOut(ix, c);
    forall c, d, i, j | 0 <= i < |EdgesOut(jx, c)| && 0 <= j < |EdgesOut(jx, d)| && SameId(jx, c, i, d, j)
      ensures c == d && i == j
    {
      assert SameId(ix, c, i, d, j);
    }
  }

  // ---- Bound constructions are admitted ----------------------------------------------------

  lemma {:induction false} ResolveAllAdmits(gamma: Gamma, ctx: Usr, args: seq<CallArg>, a: CallArg)
    requires a in args && IsConstruction(a)
    ensures Admits(ResolveAll(gamma, ctx, args), a.typeUsr.value)
    decreases |args|
  {
    if a != args[|args| - 1] {
      assert args == args[..|args| - 1] + [args[|args| - 1]];
      ResolveAllAdmits(gamma, ctx, args[..|args| - 1], a);
    }
  }

  lemma {:induction false} SetAdmits(gamma: Gamma, caller: Usr, callee: Usr, args: seq<CallArg>, n: nat, a: CallArg)
    requires a in args && a.position < n && IsConstruction(a)
    ensures |BindParams(gamma, caller, callee, args, n).sets| == n
    ensures Admits(BindParams(gamma, caller, callee, args, n).sets[a.position], a.typeUsr.value)
    decreases n
  {
    OneMoreSet(gamma, caller, callee, args, n);
    if a.position < n - 1 {
      SetAdmits(gamma, caller, callee, args, n - 1, a);
    } else {
      AtPositionHolds(args, n - 1, a);
      ResolveAllAdmits(BindParams(gamma, caller, callee, args, n - 1).gamma, caller, AtPosition(args, n - 1), a);
    }
  }

  /** The constructions of every bound edge are admitted. */
  ghost predicate BoundAdmitted(ix: Index, st: State) {
    forall b, a :: b in st.bound && a in ArgsOf(ix, b.1) && IsConstruction(a) ==>
                     EntryAdmits(st.gamma, b.1.callee, a.position, a.typeUsr.value)
  }

  lemma {:induction false} StillAdmits(before: Gamma, after: Gamma, u: Usr, i: nat, class_: Usr)
    requires Grows(before, after) && EntryAdmits(before, u, i, class_)
    ensures EntryAdmits(after, u, i, class_)
  {
  }

  lemma {:induction false} BindAdmits(ix: Index, st: State, c: Usr, e: Edge, a: CallArg)
    requires a in ArgsOf(ix, e) && IsConstruction(a)
    ensures EntryAdmits(Bind(ix, st, c, e).gamma, e.callee, a.position, a.typeUsr.value)
  {
    var args := ArgsOf(ix, e);
    CountedPositions(args, a);
    SetAdmits(st.gamma, c, e.callee, args, ParamCount(args), a);
    BindParamsGrows(st.gamma, c, e.callee, args, ParamCount(args));
    assert Lookup(Bind(ix, st, c, e).gamma, Key(e.callee, Pos(a.position))).Some?;
  }

  lemma {:induction false} StepAdmits(ix: Index, before: State, after: State)
    requires Stepped(ix, before, after) && Grows(before.gamma, after.gamma) && BoundAdmitted(ix, before)
    ensures BoundAdmitted(ix, after)
  {
    forall b, a | b in after.bound && a in ArgsOf(ix, b.1) && IsConstruction(a)
      ensures EntryAdmits(after.gamma, b.1.callee, a.position, a.typeUsr.value)
    {
      if b in before.bound {
        StillAdmits(before.gamma, after.gamma, b.1.callee, a.position, a.typeUsr.value);
      } else {
        assert Handles(ix, before, after);
        var c, e :| c in before.analysed && e in EdgesOut(ix, c) && after == Handle(ix, before, c, e);
        assert after.bound == before.bound + [(c, e)];
        BindAdmits(ix, before, c, e, a);
      }
    }
  }

  lemma {:induction false} RunAdmits(ix: Index, run: seq<State>, last: State, k: nat)
    requires Growing(ix, run, START, last) && k < |run|
    ensures BoundAdmitted(ix, run[k])
    decreases k
  {
    if k > 0 {
      RunAdmits(ix, run, last, k - 1);
      StepAdmits(ix, run[k - 1], run[k]);
    }
  }

  // ---- With a class of its own for every edge ------------------------------------------------

  function EdgeIds(ix: Index): set<int> {
    set c, i | c in ix.calls && 0 <= i < |ix.calls[c]| :: ix.calls[c][i].id
  }

  /** Every call constructs an object of a class of its own, named by the edge's id. */
  function OwnClasses(ix: Index): map<int, seq<CallArg>> {
    map id | id in EdgeIds(ix) :: [Built(id)]
  }

  lemma {:induction false} OwnClassRows(ix: Index, c: Usr, e: Edge)
    requires e in EdgesOut(ix, c)
    ensures ArgsOf(ix.(rows := OwnClasses(ix)), e) == [Built(e.id)]
  {
    var i :| 0 <= i < |EdgesOut(ix, c)| && EdgesOut(ix, c)[i] == e;
    assert ix.calls[c][i].id in EdgeIds(ix);
  }

  /** u's first entry holds only ids of bound edges into u. */
  ghost predicate OnlyBoundIds(st: State, u: Usr) {
    var entry := Lookup(st.gamma, Key(u, Pos(0)));
    entry.Some? ==> entry.value.Types?
                    && forall x :: x in entry.value.classes ==> exists b :: b in st.bound && b.1.callee == u && b.1.id == x
  }

  lemma {:induction false} OwnClassBinds(gamma: Gamma, caller: Usr, callee: Usr, id: int)
    ensures var b := BindParams(gamma, caller, callee, [Built(id)], ParamCount([Built(id)]));
            forall u :: Lookup(b.gamma, Key(u, Pos(0)))
                        == if u == callee then Some(JoinOpt(Lookup(gamma, Key(u, Pos(0))), Types({id})))
                           else Lookup(gamma, Key(u, Pos(0)))
  {
    BuiltBinds(gamma, caller, callee, id);
    BindParamsGrows(gamma, caller, callee, [Built(id)], 1);
  }

  lemma {:induction false} StepBindsIds(ix: Index, before: State, after: State, u: Usr)
    requires ix.rows == OwnClasses(ix) && Stepped(ix, before, after) && OnlyBoundIds(before, u)
    ensures OnlyBoundIds(after, u)
  {
    if Enters(ix, before, after) {
      var ctx :| ctx !in before.analysed && after == Enter(ix, before, ctx);
      SeedEdgesGrows(ix, before.gamma, ctx, EdgesOut(ix, ctx));
    } else if Handles(ix, before, after) {
      var c, e :| c in before.analysed && e in EdgesOut(ix, c) && after == Handle(ix, before, c, e);
      HandleBindsIds(ix, before, c, e, u);
    }
  }

  lemma {:induction false} HandleBindsIds(ix: Index, st: State, c: Usr, e: Edge, u: Usr)
    requires ix.rows == OwnClasses(ix) && e in EdgesOut(ix, c) && OnlyBoundIds(st, u)
    ensures OnlyBoundIds(Handle(ix, st, c, e), u)
  {
    if Count(st, e.callee) < K_LIMIT {
      var after := Bind(ix, st, c, e);
      OwnClassRows(ix, c, e);
      assert ix.(rows := OwnClasses(ix)) == ix;
      OwnClassBinds(st.gamma, c, e.callee, e.id);
      assert forall b :: b in after.bound <==> b in st.bound || b == (c, e);
      assert (c, e).1.id == e.id;
    }
  }

  lemma {:induction false} RunBindsIds(ix: Index, run: seq<State>, last: State, k: nat, u: Usr)
    requires ix.rows == OwnClasses(ix) && Growing(ix, run, START, last) && k < |run|
    ensures OnlyBoundIds(run[k], u)
    decreases k
  {
    if k > 0 {
      RunBindsIds(ix, run, last, k - 1, u);
      StepBindsIds(ix, run[k - 1], run[k], u);
    }
  }

  // ---- More call edges than bindings ----------------------------------------------------------

  ghost function BoundInto(bound: seq<(Usr, Edge)>, u: Usr): nat {
    if bound == [] then 0
    else BoundInto(bound[..|bound| - 1], u) + if bound[|bound| - 1].1.callee == u then 1 else 0
  }

  lemma {:induction false} StepCounts(ix: Index, before: State, after: State, u: Usr)
    requires Stepped(ix, before, after) && BoundInto(before.bound, u) == BoundCount(before.events, u)
    ensures BoundInto(after.bound, u) == BoundCount(after.events, u)
  {
    if Handles(ix, before, after) {
      var c, e :| c in before.analysed && e in EdgesOut(ix, c) && after == Handle(ix, before, c, e);
      HandleCounts(ix, before, c, e, u);
    }
  }

  lemma {:induction false} HandleCounts(ix: Index, st: State, c: Usr, e: Edge, u: Usr)
    requires BoundInto(st.bound, u) == BoundCount(st.events, u)
    ensures BoundInto(Handle(ix, st, c, e).bound, u) == BoundCount(Handle(ix, st, c, e).events, u)
  {
    if Count(st, e.callee) < K_LIMIT {
      var sets := BindParams(st.gamma, c, e.callee, ArgsOf(ix, e), ParamCount(ArgsOf(ix, e))).sets;
      OneMoreInto(st.bound, (c, e), u);
      OneMoreCounted(st.events, Bound(e.callee, sets), u);
    } else {
      OneMoreCounted(st.events, Skipped(e.callee), u);
    }
  }

  lemma {:induction false} OneMoreInto(bound: seq<(Usr, Edge)>, b: (Usr, Edge), u: Usr)
    ensures BoundInto(bound + [b], u) == BoundInto(bound, u) + if b.1.callee == u then 1 else 0
  {
    assert (bound + [b])[..|bound|] == bound;
  }

  lemma {:induction false} OneMoreCounted(events: seq<Event>, e: Event, u: Usr)
    ensures BoundCount(events + [e], u) == BoundCount(events, u) + if e.Bound? && e.callee == u then 1 else 0
  {
    assert (events + [e])[..|events|] == events;
  }

  lemma {:induction false} RunCounts(ix: Index, run: seq<State>, last: State, k: nat, u: Usr)
    requires Growing(ix, run, START, last) && k < |run|
    ensures BoundInto(run[k].bound, u) == BoundCount(run[k].events, u)
    decreases k
  {
    if k > 0 {
      RunCounts(ix, run, last, k - 1, u);
      StepCounts(ix, run[k - 1], run[k], u);
    }
  }

  /** The places in `places` hold call edges into u that were bound. */
  ghost predicate AllBound(ix: Index, bound: seq<(Usr, Edge)>, places: set<(Usr, int)>, u: Usr) {
    forall x :: x in places ==> 0 <= x.1 < |EdgesOut(ix, x.0)| && EdgesOut(ix, x.0)[x.1].callee == u
                                && (x.0, EdgesOut(ix, x.0)[x.1]) in bound
  }

  /** As many bindings as bound call edges. */
  lemma {:induction false} PlacesBelowBindings(ix: Index, bound: seq<(Usr, Edge)>, places: set<(Usr, int)>, u: Usr)
    requires UniqueIds(ix) && AllBound(ix, bound, places, u)
    ensures |places| <= BoundInto(bound, u)
    decreases |bound|
  {
    if bound == [] {
      assert places == {};
    } else {
      var front, last := bound[..|bound| - 1], bound[|bound| - 1];
      var here := set x | x in places && IsPlace(ix, x, last);
      WithoutLast(ix, bound, places, u);
      PlacesBelowBindings(ix, front, places - here, u);
      AtMostOne(ix, here, last);
      assert places == (places - here) + here;
    }
  }

  ghost predicate IsPlace(ix: Index, x: (Usr, int), b: (Usr, Edge)) {
    0 <= x.1 < |EdgesOut(ix, x.0)| && (x.0, EdgesOut(ix, x.0)[x.1]) == b
  }

  lemma {:induction false} WithoutLast(ix: Index, bound: seq<(Usr, Edge)>, places: set<(Usr, int)>, u: Usr)
    requires bound != [] && AllBound(ix, bound, places, u)
    ensures var last := bound[|bound| - 1];
            var here := set x | x in places && IsPlace(ix, x, last);
            AllBound(ix, bound[..|bound| - 1], places - here, u) && (last.1.callee != u ==> here == {})
  {
    var front, last := bound[..|bound| - 1], bound[|bound| - 1];
    assert forall b :: b in bound <==> b in front || b == last;
  }

  lemma {:induction false} AtMostOne(ix: Index, here: set<(Usr, int)>, b: (Usr, Edge))
    requires UniqueIds(ix)
    requires forall x :: x in here ==> IsPlace(ix, x, b)
    ensures |here| <= 1
  {
    if here != {} {
      var x: (Usr, int) :| x in here;
      forall y | y in here ensures y == x {
        assert SameId(ix, x.0, x.1, y.0, y.1);
      }
      assert here == {x};
    }
  }

  /** Beyond the limit some call edge into u is not bound. */
  lemma {:induction false} SomeEdgeUnbound(ix: Index, root: Usr, u: Usr) returns (c: Usr, e: Edge)
    requires UniqueIds(ix) && !WithinLimit(ix, root, u)
    ensures c in ReachedFrom(ix, root) && e in EdgesOut(ix, c) && e.callee == u && (c, e) !in Analysis(ix, root).bound
  {
    var bound, places := Analysis(ix, root).bound, EdgesInto(ix, ReachedFrom(ix, root), u);
    var run := Run(ix, root);
    RunOnlyGrows(ix, root);
    RunCounts(ix, run, Analysis(ix, root), |run| - 1, u);
    AnalysisExact(ix, root);
    NotAllBound(ix, bound, places, u);
    var x :| x in places && (x.0, EdgesOut(ix, x.0)[x.1]) !in bound;
    c, e := x.0, EdgesOut(ix, x.0)[x.1];
  }

  lemma {:induction false} NotAllBound(ix: Index, bound: seq<(Usr, Edge)>, places: set<(Usr, int)>, u: Usr)
    requires UniqueIds(ix) && |places| > BoundInto(bound, u)
    requires forall x :: x in places ==> 0 <= x.1 < |EdgesOut(ix, x.0)| && EdgesOut(ix, x.0)[x.1].callee == u
    ensures exists x :: x in places && (x.0, EdgesOut(ix, x.0)[x.1]) !in bound
  {
    if forall x :: x in places ==> (x.0, EdgesOut(ix, x.0)[x.1]) in bound {
      PlacesBelowBindings(ix, bound, places, u);
    }
  }

  // ---- The limit, for all rows ---------------------------------------------------------------------

  /**
   Whatever rows the call edges carry, the final entries of u admit every object constructed in
   a call of u, exactly when at most K_LIMIT call edges lead into u from what the root reaches.
   */
  lemma {:induction false} ConstructedAdmittedIff(ix: Index, root: Usr, u: Usr)
    requires UniqueIds(ix)
    ensures (forall rows :: AdmitsConstructed(ix.(rows := rows), root, u)) <==> WithinLimit(ix, root, u)
  {
    if WithinLimit(ix, root, u) {
      forall rows ensures AdmitsConstructed(ix.(rows := rows), root, u) {
        SameCalls(ix, rows, root, u);
        WithinAdmits(ix.(rows := rows), root, u);
      }
    } else {
      var jx := ix.(rows := OwnClasses(ix));
      SameCalls(ix, OwnClasses(ix), root, u);
      StillUnique(ix, OwnClasses(ix));
      BeyondLoses(jx, root, u);
    }
  }

  lemma {:induction false} WithinAdmits(ix: Index, root: Usr, u: Usr)
    requires WithinLimit(ix, root, u)
    ensures AdmitsConstructed(ix, root, u)
  {
    var run := Run(ix, root);
    RunOnlyGrows(ix, root);
    RunAdmits(ix, run, Analysis(ix, root), |run| - 1);
    forall c, e, a | c in ReachedFrom(ix, root) && e in EdgesOut(ix, c) && e.callee == u && a in ArgsOf(ix, e) && IsConstruction(a)
      ensures EntryAdmits(Analysis(ix, root).gamma, u, a.position, a.typeUsr.value)
    {
      EdgeBoundIff(ix, root, c, e);
      assert (c, e).1 == e;
    }
  }

  /** The class of an edge that is not bound is in no entry of its callee. */
  lemma {:induction false} BeyondLoses(ix: Index, root: Usr, u: Usr)
    requires UniqueIds(ix) && ix.rows == OwnClasses(ix) && !WithinLimit(ix, root, u)
    ensures !AdmitsConstructed(ix, root, u)
  {
    var r, run := Analysis(ix, root), Run(ix, root);
    var c, e := SomeEdgeUnbound(ix, root, u);
    RunOnlyGrows(ix, root);
    RunBindsIds(ix, run, r, |run| - 1, u);
    RunKnown(ix, root);
    assert ix.(rows := OwnClasses(ix)) == ix;
    OwnClassRows(ix, c, e);
    IdsOfEntry(r, u, e.id);
    forall b | b in r.bound ensures b.1.id != e.id {
      OtherId(ix, r, b, c, e);
    }
    assert Built(e.id) in ArgsOf(ix, e) && IsConstruction(Built(e.id));
  }

  lemma {:induction false} IdsOfEntry(r: State, u: Usr, id: int)
    requires OnlyBoundIds(r, u)
    ensures EntryAdmits(r.gamma, u, 0, id) ==> exists b :: b in r.bound && b.1.callee == u && b.1.id == id
  {
    if EntryAdmits(r.gamma, u, 0, id) {
      assert Lookup(r.gamma, Key(u, Pos(0))) == Some(r.gamma[Key(u, Pos(0))]);
      assert id in r.gamma[Key(u, Pos(0))].classes;
    }
  }

  lemma {:induction false} OtherId(ix: Index, r: State, b: (Usr, Edge), c: Usr, e: Edge)
    requires UniqueIds(ix) && BoundInside(ix, r) && b in r.bound && e in EdgesOut(ix, c) && (c, e) !in r.bound
    ensures b.1.id != e.id
  {
    if b.1.id == e.id {
      SameIdSameEdge(ix, b.0, b.1, c, e);
    }
  }

  lemma {:induction false} SameIdSameEdge(ix: Index, c: Usr, e: Edge, d: Usr, f: Edge)
    requires UniqueIds(ix) && e in EdgesOut(ix, c) && f in EdgesOut(ix, d) && e.id == f.id
    ensures c == d && e == f
  {
    var i :| 0 <= i < |EdgesOut(ix, c)| && EdgesOut(ix, c)[i] == e;
    var j :| 0 <= j < |EdgesOut(ix, d)| && EdgesOut(ix, d)[j] == f;
    assert SameId(ix, c, i, d, j);
  }
}
