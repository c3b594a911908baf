/**
 What a match query means on the graphs of the code base: every atom of its condition is a
 statement about attributes, call paths or inheritance, and the rows are the assignments of
 which the condition is true (cxq/executor.py:60-299, 425-541).
 */
module MatchMeaning {
  import opened CxqSyntax
  import opened MatchExecutor
  import opened Options
  import opened Reachability
  import Closures

  /** Who calls whom and who is called by whom, derived classes and bases. */
  datatype Code = Code(calls: Graph, callers: Graph, children: Graph, parents: Graph)

  /** Some call path leads from a to b; with `*` also from every entity to itself, with `+` never. */
  ghost predicate CallPath(g: Graph, a: Node, b: Node, star: bool) {
    if a == b then star else ReachableByEdges(g, a, b)
  }

  /** b descends from a along at least one edge; with `*` also from itself. */
  ghost predicate Descends(g: Graph, a: Node, b: Node, star: bool) {
    ReachableByEdges(g, a, b) || (star && a == b)
  }

  /** The closures the executor asks for are the ones it computes over these graphs. */
  ghost predicate Reads(cb: CodeBase, code: Code) {
    && (forall e, star, x :: x in Called(cb, e, star) <==> CallPath(code.calls, e, x, star))
    && (forall e, x :: x in Calling(cb, e) <==> ReachableByEdges(code.callers, e, x))
    && (forall e, star, x :: x in Descendants(cb, e, star) <==> Descends(code.children, e, x, star))
    && (forall e, star, x :: x in Ancestors(cb, e, star) <==> Descends(code.parents, e, x, star))
  }

  /** They are: what each closure function of the executor returns. */
  method ComputedClosures(code: Code, e: Node, star: bool, ghost down: Node -> nat, ghost up: Node -> nat)
    returns (called: set<Node>, calling: set<Node>, below: set<Node>, above: set<Node>)
    requires Closures.Falls(code.children, down) && Closures.Falls(code.parents, up)
    ensures forall x :: x in called <==> CallPath(code.calls, e, x, star)
    ensures forall x :: x in calling <==> ReachableByEdges(code.callers, e, x)
    ensures forall x :: x in below <==> Descends(code.children, e, x, star)
    ensures forall x :: x in above <==> Descends(code.parents, e, x, star)
  {
    called := Closures.CallsClosure(code.calls, e, star);
    calling := Closures.CallersClosure(code.callers, e, false);
    below := Closures.InheritsClosure(code.children, e, star, down);
    above := Closures.InheritsClosure(code.parents, e, star, up);
  }

  // ---- Atoms -------------------------------------------------------------------------------

  predicate IsCalls(op: string) {
    op == "calls+" || op == "calls*"
  }

  /** The operators that go down the inheritance graph, and whether an entity counts as its own descendant. */
  predicate IsInherits(op: string) {
    op == "inherits+" || op == "inherits*" || op == "implements+"
  }

  predicate IsStar(op: string) {
    op == "calls*" || op == "inherits*" || op == "implements+"
  }

  /** Its variables are bound, it is one of the operators, and some side that it can start from is a variable. */
  predicate ClosureDefined(p: Pred, row: Row)
    requires p.ClosurePred?
  {
    && (p.lhsIsVar ==> p.lhs in row) && (p.rhsIsVar ==> p.rhs in row) && (IsCalls(p.op) || IsInherits(p.op))
    && (p.lhsIsVar || (p.rhsIsVar && p.op != "implements+"))
  }

  /** The left side calls the right one; a quoted name stands for any entity it finds, or on the right for any so named. */
  ghost predicate CallsHolds(cb: CodeBase, g: Graph, p: Pred, row: Row)
    requires p.ClosurePred? && ClosureDefined(p, row)
  {
    if p.lhsIsVar && p.rhsIsVar then CallPath(g, row[p.lhs], row[p.rhs], IsStar(p.op))
    else if p.lhsIsVar then exists x :: CallPath(g, row[p.lhs], x, IsStar(p.op)) && cb.isNamed(x, p.rhs)
    else exists x :: x in cb.find(p.lhs) && CallPath(g, x, row[p.rhs], IsStar(p.op))
  }

  /** The left side descends from the right one, looked for from above, or for a quoted left side from below. */
  ghost predicate InheritsHolds(cb: CodeBase, code: Code, p: Pred, row: Row)
    requires p.ClosurePred? && ClosureDefined(p, row)
  {
    if p.lhsIsVar && p.rhsIsVar then Descends(code.children, row[p.rhs], row[p.lhs], IsStar(p.op))
    else if p.lhsIsVar then exists x :: x in cb.find(p.rhs) && Descends(code.children, x, row[p.lhs], IsStar(p.op))
    else exists x :: x in cb.find(p.lhs) && Descends(code.parents, x, row[p.rhs], IsStar(p.op))
  }

  ghost predicate ClosureHolds(cb: CodeBase, code: Code, p: Pred, row: Row)
    requires p.ClosurePred? && ClosureDefined(p, row)
  {
    if IsCalls(p.op) then CallsHolds(cb, code.calls, p, row) else InheritsHolds(cb, code, p, row)
  }

  lemma {:induction false} SomeHoldsIff(roots: seq<Entity>, expand: Entity -> set<Entity>, e: Entity)
    ensures SomeHolds(roots, expand, e) <==> exists x :: x in roots && e in expand(x)
  {
    if roots != [] {
      SomeHoldsIff(roots[1..], expand, e);
      assert forall x :: x in roots <==> x == roots[0] || x in roots[1..];
    }
  }

  lemma {:induction false} CallsAtom(cb: CodeBase, code: Code, p: Pred, row: Row)
    requires Reads(cb, code) && p.ClosurePred? && ClosureDefined(p, row) && IsCalls(p.op)
    ensures EvalCalls(cb, p, row, p.op == "calls*") == Some(CallsHolds(cb, code.calls, p, row))
  {
    var star := p.op == "calls*";
    if !p.lhsIsVar {
      SomeHoldsIff(cb.find(p.lhs), Calls(cb, star), row[p.rhs]);
      assert forall x :: Calls(cb, star)(x) == Called(cb, x, star);
    }
  }

  lemma {:induction false} InheritsAtom(cb: CodeBase, code: Code, p: Pred, row: Row, star: bool)
    requires Reads(cb, code) && p.ClosurePred? && ClosureDefined(p, row) && IsInherits(p.op) && star == IsStar(p.op)
    ensures EvalInherits(cb, p, row, star) == Some(InheritsHolds(cb, code, p, row))
  {
    if p.lhsIsVar && !p.rhsIsVar {
      SomeHoldsIff(cb.find(p.rhs), Descending(cb, star), row[p.lhs]);
      assert forall x :: Descending(cb, star)(x) == Descendants(cb, x, star);
    } else if !p.lhsIsVar {
      SomeHoldsIff(cb.find(p.lhs), Ascending(cb, star), row[p.rhs]);
      assert forall x :: Ascending(cb, star)(x) == Ancestors(cb, x, star);
    }
  }

  /** A closure atom is an error exactly when it is not defined, and else says what its paths say. */
  lemma {:induction false} ClosureAtomIs(cb: CodeBase, code: Code, p: Pred, row: Row)
    requires Reads(cb, code) && p.ClosurePred?
    ensures EvalClosure(cb, p, row) == if ClosureDefined(p, row) then Some(ClosureHolds(cb, code, p, row)) else None
  {
    if ClosureDefined(p, row) {
      if IsCalls(p.op) {
        CallsAtom(cb, code, p, row);
      } else {
        InheritsAtom(cb, code, p, row, IsStar(p.op));
      }
    }
  }

  /** Where bases are the converse of derived classes, both ways of looking find the same pairs. */
  lemma {:induction false} DescentIsConverse(code: Code, a: Node, b: Node, star: bool)
    requires Closures.Converse(code.children, code.parents)
    ensures Descends(code.parents, a, b, star) <==> Descends(code.children, b, a, star)
  {
    Closures.ClosuresAreConverse(code.children, code.parents, b, a, star);
  }

  /** The attribute exists, and its operator has the kind of value it needs. */
  predicate AttrDefined(cb: CodeBase, e: Entity, p: Pred)
    requires p.AttrPred?
  {
    var found := cb.attr(e, p.attr);
    found.Some? && (found.value.None? || (if p.value.Text? then p.op in {"=", "!=", "~"} else p.op == "in"))
  }

  /** An attribute without value differs from everything and satisfies nothing else. */
  predicate AttrHolds(cb: CodeBase, e: Entity, p: Pred)
    requires p.AttrPred? && AttrDefined(cb, e, p)
  {
    var text := cb.attr(e, p.attr).value;
    if p.op == "!=" then text.None? || text.value != p.value.text
    else text.Some? && if p.op == "=" then text.value == p.value.text
                       else if p.op == "in" then text.value in p.value.texts
                       else cb.searches(p.value.text, text.value)
  }

  lemma {:induction false} AttrAtomIs(cb: CodeBase, e: Entity, p: Pred)
    requires p.AttrPred?
    ensures AttrMatches(cb, e, p) == if AttrDefined(cb, e, p) then Some(AttrHolds(cb, e, p)) else None
  {
  }

  // ---- Conditions --------------------------------------------------------------------------

  /** The condition is true of the code; an atom that is not defined is not. */
  ghost predicate Satisfied(cb: CodeBase, code: Code, p: Pred, row: Row) {
    match p
    case AttrPred(name, _, _, _) => name in row && AttrDefined(cb, row[name], p) && AttrHolds(cb, row[name], p)
    case ClosurePred(_, _, _, _, _) => ClosureDefined(p, row) && ClosureHolds(cb, code, p, row)
    case NotPred(inner) => !Satisfied(cb, code, inner, row)
    case AndPred(l, r) => Satisfied(cb, code, l, row) && Satisfied(cb, code, r, row)
    case OrPred(l, r) => Satisfied(cb, code, l, row) || Satisfied(cb, code, r, row)
  }

  /** An atom that is looked at, from left to right and only while the matter is open, is not defined. */
  ghost predicate Undecided(cb: CodeBase, code: Code, p: Pred, row: Row) {
    match p
    case AttrPred(name, _, _, _) => name !in row || !AttrDefined(cb, row[name], p)
    case ClosurePred(_, _, _, _, _) => !ClosureDefined(p, row)
    case NotPred(inner) => Undecided(cb, code, inner, row)
    case AndPred(l, r) => Undecided(cb, code, l, row) || (Satisfied(cb, code, l, row) && Undecided(cb, code, r, row))
    case OrPred(l, r) => Undecided(cb, code, l, row) || (!Satisfied(cb, code, l, row) && Undecided(cb, code, r, row))
  }

  lemma {:induction false} ConditionIs(cb: CodeBase, code: Code, p: Pred, row: Row)
    requires Reads(cb, code)
    ensures (Fails(cb, p, row) <==> Undecided(cb, code, p, row)) && (Holds(cb, p, row) <==> Satisfied(cb, code, p, row))
  {
    match p
    case AttrPred(name, _, _, _) =>
      if name in row {
        AttrAtomIs(cb, row[name], p);
      }
    case ClosurePred(_, _, _, _, _) => ClosureAtomIs(cb, code, p, row);
    case NotPred(inner) => ConditionIs(cb, code, inner, row);
    case AndPred(l, r) =>
      ConditionIs(cb, code, l, row);
      ConditionIs(cb, code, r, row);
    case OrPred(l, r) =>
      ConditionIs(cb, code, l, row);
      ConditionIs(cb, code, r, row);
  }

  /**
   * With distinct variables, a match fails exactly when the condition is undecided of some
   * assignment, and otherwise its rows are the assignments that make it true of the code.
   */
  lemma {:induction false} MatchMeans(cb: CodeBase, code: Code, q: Query, r: Row)
    requires Reads(cb, code) && DistinctNames(NamesOf(q.bindings))
    ensures MatchRows(cb, q).None?
       <==> exists x :: IsAssignment(cb, q.bindings, x) && q.conditions.Some? && Undecided(cb, code, q.conditions.value, x)
    ensures MatchRows(cb, q).Some? ==> (r in MatchRows(cb, q).value
       <==> IsAssignment(cb, q.bindings, r) && (q.conditions.None? || Satisfied(cb, code, q.conditions.value, r)))
  {
    if q.conditions.Some? {
      forall x: Row
        ensures CheckFails(cb, q.conditions, x) <==> Undecided(cb, code, q.conditions.value, x)
        ensures Holds(cb, q.conditions.value, x) <==> Satisfied(cb, code, q.conditions.value, x)
      {
        ConditionIs(cb, code, q.conditions.value, x);
      }
    }
    MatchIsExact(cb, q, r);
  }

  // ---- Two queries ---------------------------------------------------------------------------

  /** A match of two variables with one condition. */
  function PairQuery(k: string, f: string, l: string, g: string, p: Pred, projections: seq<Projection>): Query {
    Query([MatchVar(k, f), MatchVar(l, g)], Some(p), projections)
  }

  lemma {:induction false} PairAssignments(cb: CodeBase, k: string, f: string, l: string, g: string, r: Row)
    requires f != g
    ensures var bindings := [MatchVar(k, f), MatchVar(l, g)];
            && DistinctNames(NamesOf(bindings))
            && (IsAssignment(cb, bindings, r) <==> r.Keys == {f, g} && r[f] in cb.ofKind(k) && r[g] in cb.ofKind(l))
  {
    var bindings := [MatchVar(k, f), MatchVar(l, g)];
    assert NamesOf(bindings) == [f, g];
    assert bindings[0] == MatchVar(k, f) && bindings[1] == MatchVar(l, g);
    if IsAssignment(cb, bindings, r) {
      assert bindings[0].name in r && bindings[1].name in r;
      assert forall n :: n in r ==> n in [f, g];
    }
  }

  /** The assignment has the kinds of the pair, and the closure atom holds of it. */
  ghost predicate IsPair(cb: CodeBase, code: Code, k: string, f: string, l: string, g: string, p: Pred, r: Row)
    requires p.ClosurePred?
  {
    r.Keys == {f, g} && r[f] in cb.ofKind(k) && r[g] in cb.ofKind(l) && ClosureDefined(p, r) && ClosureHolds(cb, code, p, r)
  }

  lemma {:induction false} PairMeans(cb: CodeBase, code: Code, k: string, f: string, l: string, g: string, op: string,
                                     projections: seq<Projection>, r: Row)
    requires Reads(cb, code) && f != g && (IsCalls(op) || IsInherits(op))
    ensures var p := ClosurePred(f, op, g, true, true);
            var rows := MatchRows(cb, PairQuery(k, f, l, g, p, projections));
            rows.Some? && (r in rows.value <==> IsPair(cb, code, k, f, l, g, p, r))
  {
    var p := ClosurePred(f, op, g, true, true);
    forall x: Row ensures IsAssignment(cb, [MatchVar(k, f), MatchVar(l, g)], x)
                     <==> x.Keys == {f, g} && x[f] in cb.ofKind(k) && x[g] in cb.ofKind(l) {
      PairAssignments(cb, k, f, l, g, x);
    }
    PairAssignments(cb, k, f, l, g, r);
    MatchMeans(cb, code, PairQuery(k, f, l, g, p, projections), r);
  }

  /**
   `match K f, L g where f calls+ g`: the pairs of those kinds, different from each other,
   with a call path from f to g; `calls*` adds the pairs of one.
   */
  lemma {:induction false} CallsQuery(cb: CodeBase, code: Code, k: string, f: string, l: string, g: string, op: string,
                                      projections: seq<Projection>, r: Row)
    requires Reads(cb, code) && f != g && IsCalls(op)
    ensures var rows := MatchRows(cb, PairQuery(k, f, l, g, ClosurePred(f, op, g, true, true), projections));
            rows.Some? && (r in rows.value <==>
              && r.Keys == {f, g} && r[f] in cb.ofKind(k) && r[g] in cb.ofKind(l)
              && if r[f] == r[g] then op == "calls*" else ReachableByEdges(code.calls, r[f], r[g]))
  {
    PairMeans(cb, code, k, f, l, g, op, projections, r);
  }

  /**
   `match K f, L g where f inherits+ g`: the pairs in which f is derived from g, directly or
   not; `inherits*` and `implements+` add the pairs of one.
   */
  lemma {:induction false} InheritsQuery(cb: CodeBase, code: Code, k: string, f: string, l: string, g: string, op: string,
                                         projections: seq<Projection>, r: Row)
    requires Reads(cb, code) && f != g && IsInherits(op)
    ensures var rows := MatchRows(cb, PairQuery(k, f, l, g, ClosurePred(f, op, g, true, true), projections));
            rows.Some? && (r in rows.value <==>
              && r.Keys == {f, g} && r[f] in cb.ofKind(k) && r[g] in cb.ofKind(l)
              && (ReachableByEdges(code.children, r[g], r[f]) || (op != "inherits+" && r[f] == r[g])))
  {
    PairMeans(cb, code, k, f, l, g, op, projections, r);
  }

  // ---- Rankings ------------------------------------------------------------------------------

  /** `callers+` counts who reaches the entity along calls. */
  lemma {:induction false} CallersMetric(cb: CodeBase, code: Code, e: Entity, s: set<Node>)
    requires Reads(cb, code) && forall n :: n in s <==> ReachableByEdges(code.callers, e, n)
    ensures Metric(cb, "callers+")(e) == |s|
  {
    forall n ensures n in Calling(cb, e) <==> n in s {
    }
    assert Calling(cb, e) == s;
  }

  /** `callees+` counts whom it reaches, itself never among them. */
  lemma {:induction false} CalleesMetric(cb: CodeBase, code: Code, e: Entity, s: set<Node>)
    requires Reads(cb, code) && forall n :: n in s <==> n != e && ReachableByEdges(code.calls, e, n)
    ensures Metric(cb, "callees+")(e) == |s|
  {
    forall n ensures n in Called(cb, e, false) <==> n in s {
    }
    assert Called(cb, e, false) == s;
  }

  /** The entities ranked are those some row gives the variable, each once. */
  lemma {:induction false} EntitiesAre(rows: seq<Row>, v: string)
    ensures forall e :: e in EntitiesOf(rows, v) <==> exists r :: r in rows && v in r && r[v] == e
    ensures forall i, j :: 0 <= i < j < |EntitiesOf(rows, v)| ==> EntitiesOf(rows, v)[i] != EntitiesOf(rows, v)[j]
  {
    if rows != [] {
      var front, last := rows[..|rows| - 1], rows[|rows| - 1];
      EntitiesAre(front, v);
      assert forall r :: r in rows <==> r in front || r == last;
      var es := EntitiesOf(front, v);
      assert forall e :: e in EntitiesOf(rows, v) <==> e in es || (v in last && last[v] == e);
    }
  }

  /** Some row gives the variable the value a, and no row up to that one gives it b. */
  ghost predicate MetBefore(rows: seq<Row>, v: string, a: Entity, b: Entity) {
    exists k :: 0 <= k < |rows| && Gives(rows[k], v, a) && forall j :: 0 <= j <= k ==> !Gives(rows[j], v, b)
  }

  predicate Gives(r: Row, v: string, e: Entity) {
    v in r && r[v] == e
  }

  lemma {:induction false} MetBeforeStays(front: seq<Row>, last: Row, v: string, a: Entity, b: Entity)
    requires MetBefore(front, v, a, b)
    ensures MetBefore(front + [last], v, a, b)
  {
    var rows := front + [last];
    var k :| 0 <= k < |front| && Gives(front[k], v, a) && forall j :: 0 <= j <= k ==> !Gives(front[j], v, b);
    assert Gives(rows[k], v, a) && forall j :: 0 <= j <= k ==> rows[j] == front[j];
  }

  lemma {:induction false} NewIsLast(front: seq<Row>, last: Row, v: string, a: Entity, b: Entity)
    requires a in EntitiesOf(front, v) && b !in EntitiesOf(front, v)
    ensures MetBefore(front + [last], v, a, b)
  {
    EntitiesAre(front, v);
    var r :| r in front && v in r && r[v] == a;
    var k :| 0 <= k < |front| && front[k] == r;
    assert Gives(front[k], v, a);
    forall j | 0 <= j <= k ensures !Gives(front[j], v, b) {
      assert front[j] in front;
    }
    MetBeforeStays(front, last, v, a, b);
  }

  /** They are listed in the order in which the rows first give them. */
  lemma {:induction false} EntitiesByFirstRow(rows: seq<Row>, v: string, i: nat, j: nat)
    requires i < j < |EntitiesOf(rows, v)|
    ensures MetBefore(rows, v, EntitiesOf(rows, v)[i], EntitiesOf(rows, v)[j])
    decreases |rows|
  {
    var front, last := rows[..|rows| - 1], rows[|rows| - 1];
    var es, before := EntitiesOf(rows, v), EntitiesOf(front, v);
    assert rows == front + [last];
    if j < |before| {
      EntitiesByFirstRow(front, v, i, j);
      MetBeforeStays(front, last, v, before[i], before[j]);
    } else {
      assert before[i] in before && es[i] == before[i];
      NewIsLast(front, last, v, es[i], es[j]);
    }
  }

  /** A ranking lists those entities with their scores, each at most once, and as many as the limit allows. */
  lemma {:induction false} RankIs(rows: seq<Row>, v: string, metric: Entity -> int, desc: bool, limit: Option<nat>)
    ensures var out, n := Rank(rows, v, metric, desc, limit), |EntitiesOf(rows, v)|;
            && |out| == (if limit.Some? && limit.value < n then limit.value else n)
            && ListsOnce(out, EntitiesOf(rows, v), metric)
  {
    var es := EntitiesOf(rows, v);
    EntitiesAre(rows, v);
    SortedLists(es, metric, desc);
    var sorted := Sort(Score(es, metric), desc);
    assert forall x :: x in Top(sorted, limit) ==> x in sorted;
  }

  /** Entries of these entities with their scores, none twice. */
  ghost predicate ListsOnce(xs: seq<Scored>, es: seq<Entity>, metric: Entity -> int) {
    && (forall x :: x in xs ==> x.entity in es && x.score == metric(x.entity))
    && forall i, j :: 0 <= i < j < |xs| ==> xs[i].entity != xs[j].entity
  }

  lemma {:induction false} SortedLists(es: seq<Entity>, metric: Entity -> int, desc: bool)
    requires forall i, j :: 0 <= i < j < |es| ==> es[i] != es[j]
    ensures var sorted := Sort(Score(es, metric), desc); |sorted| == |es| && ListsOnce(sorted, es, metric)
  {
    var scored := Score(es, metric);
    var sorted := Sort(scored, desc);
    SortIsStable(scored, desc, 0);
    assert |sorted| == |multiset(sorted)| == |scored|;
    forall x | x in sorted ensures x.entity in es && x.score == metric(x.entity) {
      assert x in multiset(sorted);
      var i :| 0 <= i < |scored| && scored[i] == x;
    }
    SortedOnce(scored, sorted);
  }

  /** A permutation of entries with distinct entities has distinct entities. */
  lemma {:induction false} SortedOnce(a: seq<Scored>, b: seq<Scored>)
    requires multiset(a) == multiset(b) && forall i, j :: 0 <= i < j < |a| ==> a[i].entity != a[j].entity
    ensures forall i, j :: 0 <= i < j < |b| ==> b[i].entity != b[j].entity
  {
    forall i, j | 0 <= i < j < |b| ensures b[i].entity != b[j].entity {
      if b[i].entity == b[j].entity {
        assert b[i] in multiset(b) && b[j] in multiset(b);
        assert b[i] in a && b[j] in a;
        var k :| 0 <= k < |a| && a[k] == b[i];
        var l :| 0 <= l < |a| && a[l] == b[j];
        assert k == l && b[i] == b[j];
        Twice(b, i, j);
        Once(a, k);
      }
    }
  }

  lemma {:induction false} Twice(b: seq<Scored>, i: nat, j: nat)
    requires i < j < |b| && b[i] == b[j]
    ensures multiset(b)[b[i]] >= 2
  {
    assert b == b[..j] + ([b[j]] + b[j + 1..]);
    assert b[..j][i] in multiset(b[..j]);
  }

  lemma {:induction false} Once(a: seq<Scored>, k: nat)
    requires k < |a| && forall i, j :: 0 <= i < j < |a| ==> a[i].entity != a[j].entity
    ensures multiset(a)[a[k]] == 1
  {
    assert a == a[..k] + ([a[k]] + a[k + 1..]);
    assert a[k] !in a[..k] && a[k] !in a[k + 1..];
    assert a[k] !in multiset(a[..k]) && a[k] !in multiset(a[k + 1..]);
  }
}
