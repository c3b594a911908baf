/**
 * Running match and rank queries (cxq/executor.py:221-338, 425-541): the predicate evaluator, the
 * enumeration of variable assignments over one shared row, and ranking.
 */
module MatchExecutor {
  import opened CxqSyntax
  import opened Options

  type Entity = int
  type Row = map<string, Entity>

  /**
   What the executor asks of the code base: entities, names, the text of an attribute (no
   text where it has no value, nothing where there is no such attribute), regular-expression
   search, the closures with or without the entity itself, and the lengths of the two lists
   of direct neighbours.
   */
  datatype CodeBase = CodeBase(
    ofKind: string -> seq<Entity>,
    find: string -> seq<Entity>,
    attr: (Entity, string) -> Option<Option<string>>,
    searches: (string, string) -> bool,
    isNamed: (Entity, string) -> bool,
    calls: (Entity, bool) -> set<Entity>,
    callers: (Entity, bool) -> set<Entity>,
    descendants: (Entity, bool) -> set<Entity>,
    ancestors: (Entity, bool) -> set<Entity>,
    directCalls: Entity -> nat,
    directCallers: Entity -> nat)

  // ---- Predicates; None is an ExecutorError --------------------------------------------

  /** `_attr_matches`. */
  function AttrMatches(cb: CodeBase, e: Entity, p: Pred): Option<bool>
    requires p.AttrPred?
  {
    var found := cb.attr(e, p.attr);
    if found.None? then None
    else if found.value.None? then Some(p.op == "!=")
    else
      var text := found.value.value;
      match p.value
      case Text(t) =>
        if p.op == "=" then Some(text == t)
        else if p.op == "!=" then Some(text != t)
        else if p.op == "~" then Some(cb.searches(t, text))
        else None
      case Texts(ts) => if p.op == "in" then Some(text in ts) else None
  }

  function Called(cb: CodeBase, e: Entity, reflexive: bool): set<Entity> {
    cb.calls(e, reflexive)
  }

  function Calling(cb: CodeBase, e: Entity): set<Entity> {
    cb.callers(e, false)
  }

  function Descendants(cb: CodeBase, e: Entity, reflexive: bool): set<Entity> {
    cb.descendants(e, reflexive)
  }

  function Ancestors(cb: CodeBase, e: Entity, reflexive: bool): set<Entity> {
    cb.ancestors(e, reflexive)
  }

  /** Whether the expansion of some root holds the entity. */
  predicate SomeHolds(roots: seq<Entity>, expand: Entity -> set<Entity>, e: Entity) {
    roots != [] && (e in expand(roots[0]) || SomeHolds(roots[1..], expand, e))
  }

  function EvalCalls(cb: CodeBase, p: Pred, row: Row, reflexive: bool): Option<bool>
    requires p.ClosurePred? && (p.lhsIsVar ==> p.lhs in row) && (p.rhsIsVar ==> p.rhs in row)
  {
    if p.lhsIsVar && p.rhsIsVar then Some(row[p.rhs] in Called(cb, row[p.lhs], reflexive))
    else if p.lhsIsVar then
      var reached := Called(cb, row[p.lhs], reflexive);
      Some(exists e :: e in reached && cb.isNamed(e, p.rhs))
    else if p.rhsIsVar then Some(SomeHolds(cb.find(p.lhs), Calls(cb, reflexive), row[p.rhs]))
    else None
  }

  function Calls(cb: CodeBase, reflexive: bool): Entity -> set<Entity> {
    e => Called(cb, e, reflexive)
  }

  function Ascending(cb: CodeBase, reflexive: bool): Entity -> set<Entity> {
    e => Ancestors(cb, e, reflexive)
  }

  function Descending(cb: CodeBase, reflexive: bool): Entity -> set<Entity> {
    e => Descendants(cb, e, reflexive)
  }

  function EvalInherits(cb: CodeBase, p: Pred, row: Row, reflexive: bool): Option<bool>
    requires p.ClosurePred? && (p.lhsIsVar ==> p.lhs in row) && (p.rhsIsVar ==> p.rhs in row)
  {
    if p.lhsIsVar && !p.rhsIsVar then Some(SomeHolds(cb.find(p.rhs), Descending(cb, reflexive), row[p.lhs]))
    else if !p.lhsIsVar && p.rhsIsVar then
      Some(SomeHolds(cb.find(p.lhs), Ascending(cb, reflexive), row[p.rhs]))
    else if p.lhsIsVar then Some(row[p.lhs] in Descendants(cb, row[p.rhs], reflexive))
    else None
  }

  function EvalClosure(cb: CodeBase, p: Pred, row: Row): Option<bool>
    requires p.ClosurePred?
  {
    if (p.lhsIsVar && p.lhs !in row) || (p.rhsIsVar && p.rhs !in row) then None
    else if p.op == "calls+" || p.op == "calls*" then EvalCalls(cb, p, row, p.op == "calls*")
    else if p.op == "inherits+" || p.op == "inherits*" then EvalInherits(cb, p, row, p.op == "inherits*")
    else if p.op == "implements+" && p.lhsIsVar then EvalInherits(cb, p, row, true)
    else None
  }

  /** `_eval_pred`: `and` and `or` look at their right side only when the left does not decide. */
  function EvalPred(cb: CodeBase, p: Pred, row: Row): Option<bool> {
    match p
    case AttrPred(name, _, _, _) => if name in row then AttrMatches(cb, row[name], p) else None
    case ClosurePred(_, _, _, _, _) => EvalClosure(cb, p, row)
    case NotPred(inner) =>
      var v := EvalPred(cb, inner, row);
      if v.None? then None else Some(!v.value)
    case AndPred(l, r) =>
      var v := EvalPred(cb, l, row);
      if v.None? || !v.value then v else EvalPred(cb, r, row)
    case OrPred(l, r) =>
      var v := EvalPred(cb, l, row);
      if v.None? || v.value then v else EvalPred(cb, r, row)
  }

  /** The predicate read as logic over its atoms. */
  predicate Holds(cb: CodeBase, p: Pred, row: Row) {
    match p
    case NotPred(inner) => !Holds(cb, inner, row)
    case AndPred(l, r) => Holds(cb, l, row) && Holds(cb, r, row)
    case OrPred(l, r) => Holds(cb, l, row) || Holds(cb, r, row)
    case _ => EvalPred(cb, p, row) == Some(true)
  }

  /** An atom that is looked at fails: the right side is looked at only when the left one leaves the matter open. */
  predicate Fails(cb: CodeBase, p: Pred, row: Row) {
    match p
    case NotPred(inner) => Fails(cb, inner, row)
    case AndPred(l, r) => Fails(cb, l, row) || (Holds(cb, l, row) && Fails(cb, r, row))
    case OrPred(l, r) => Fails(cb, l, row) || (!Holds(cb, l, row) && Fails(cb, r, row))
    case _ => EvalPred(cb, p, row).None?
  }

  lemma {:induction false} EvalIsLogic(cb: CodeBase, p: Pred, row: Row)
    ensures EvalPred(cb, p, row) == if Fails(cb, p, row) then None else Some(Holds(cb, p, row))
  {
    match p
    case NotPred(inner) => EvalIsLogic(cb, inner, row);
    case AndPred(l, r) =>
      EvalIsLogic(cb, l, row);
      EvalIsLogic(cb, r, row);
    case OrPred(l, r) =>
      EvalIsLogic(cb, l, row);
      EvalIsLogic(cb, r, row);
    case AttrPred(_, _, _, _) =>
      if EvalPred(cb, p, row).Some? {
        OneOfTwo(EvalPred(cb, p, row));
      }
    case ClosurePred(_, _, _, _, _) =>
      if EvalPred(cb, p, row).Some? {
        OneOfTwo(EvalPred(cb, p, row));
      }
  }

  lemma {:induction false} OneOfTwo(v: Option<bool>)
    requires v.Some?
    ensures v == Some(true) || v == Some(false)
  {
    var b := v.value;
    assert v == Some(b);
  }

  /** The closures with and without their own entity differ in that entity. */
  ghost predicate ClosuresReflect(cb: CodeBase) {
    forall e :: Descendants(cb, e, true) == Descendants(cb, e, false) + {e}
  }

  /** `implements+` is no `+` closure: it holds where `inherits+` does, and of every entity and itself. */
  lemma {:induction false} ImplementsIsReflexive(cb: CodeBase, lhs: string, rhs: string, rhsIsVar: bool, row: Row)
    requires ClosuresReflect(cb) && lhs in row && (rhsIsVar ==> rhs in row)
    ensures var inherits := EvalClosure(cb, ClosurePred(lhs, "inherits+", rhs, true, rhsIsVar), row);
            var same := if rhsIsVar then row[lhs] == row[rhs] else row[lhs] in cb.find(rhs);
            inherits.Some?
            && EvalClosure(cb, ClosurePred(lhs, "implements+", rhs, true, rhsIsVar), row) == Some(inherits.value || same)
  {
    if !rhsIsVar {
      HoldsReflexively(cb, cb.find(rhs), row[lhs]);
    }
  }

  lemma {:induction false} HoldsReflexively(cb: CodeBase, roots: seq<Entity>, e: Entity)
    requires ClosuresReflect(cb)
    ensures SomeHolds(roots, Descending(cb, true), e) <==> SomeHolds(roots, Descending(cb, false), e) || e in roots
  {
    if roots != [] {
      HoldsReflexively(cb, roots[1..], e);
      assert Descending(cb, true)(roots[0]) == Descendants(cb, roots[0], true);
      assert roots == [roots[0]] + roots[1..];
    }
  }

  // ---- Enumerating assignments -----------------------------------------------------------

  /** The rows reached from position `i` on, in the order the nested loops reach them. */
  function Leaves(names: seq<string>, lists: seq<seq<Entity>>, i: nat, row: Row): seq<Row>
    requires i <= |names| == |lists|
    decreases |names| - i, 0
  {
    if i == |names| then [row] else LeavesOf(names, lists, i, row, lists[i])
  }

  function LeavesOf(names: seq<string>, lists: seq<seq<Entity>>, i: nat, row: Row, es: seq<Entity>): seq<Row>
    requires i < |names| == |lists|
    decreases |names| - i - 1, |es| + 1
  {
    if es == [] then []
    else Leaves(names, lists, i + 1, row[names[i] := es[0]]) + LeavesOf(names, lists, i, row, es[1..])
  }

  function Check(cb: CodeBase, conditions: Option<Pred>, row: Row): Option<bool> {
    if conditions.None? then Some(true) else EvalPred(cb, conditions.value, row)
  }

  /** The rows that pass, or the first error. */
  function Selected(cb: CodeBase, conditions: Option<Pred>, rows: seq<Row>): Option<seq<Row>> {
    if rows == [] then Some([])
    else
      var v := Check(cb, conditions, rows[0]);
      if v.None? then None
      else
        var rest := Selected(cb, conditions, rows[1..]);
        if rest.None? || !v.value then rest else Some([rows[0]] + rest.value)
  }

  /** Rows that differ only in the variables still to be assigned. */
  ghost predicate SameSoFar(names: seq<string>, i: nat, a: Row, b: Row)
    requires i <= |names|
  {
    forall n :: n !in names[i..] ==> (n in a <==> n in b) && (n in a && n in b ==> a[n] == b[n])
  }

  /** What the shared row still holds from earlier turns of inner loops is overwritten before it is read. */
  lemma {:induction false} StaleIsIgnored(names: seq<string>, lists: seq<seq<Entity>>, i: nat, a: Row, b: Row)
    requires i <= |names| == |lists| && SameSoFar(names, i, a, b)
    ensures Leaves(names, lists, i, a) == Leaves(names, lists, i, b)
    decreases |names| - i, 0
  {
    if i == |names| {
      assert a == b;
    } else {
      StaleIsIgnoredOf(names, lists, i, a, b, lists[i]);
    }
  }

  lemma {:induction false} StaleIsIgnoredOf(names: seq<string>, lists: seq<seq<Entity>>, i: nat, a: Row, b: Row, es: seq<Entity>)
    requires i < |names| == |lists| && SameSoFar(names, i, a, b)
    ensures LeavesOf(names, lists, i, a, es) == LeavesOf(names, lists, i, b, es)
    decreases |names| - i - 1, |es| + 1
  {
    if es != [] {
      assert names[i..] == [names[i]] + names[i + 1..];
      assert SameSoFar(names, i + 1, a[names[i] := es[0]], b[names[i] := es[0]]);
      StaleIsIgnored(names, lists, i + 1, a[names[i] := es[0]], b[names[i] := es[0]]);
      StaleIsIgnoredOf(names, lists, i, a, b, es[1..]);
    }
  }

  /** `_cartesian`: one row, assigned in place, read at the leaves. */
  class Matcher {
    const cb: CodeBase
    const conditions: Option<Pred>
    const names: seq<string>
    const lists: seq<seq<Entity>>
    var row: Row
    var results: seq<Row>

    constructor (cb: CodeBase, conditions: Option<Pred>, names: seq<string>, lists: seq<seq<Entity>>)
      requires |names| == |lists|
      ensures this.cb == cb && this.conditions == conditions && this.names == names && this.lists == lists
      ensures row == map[] && results == []
    {
      this.cb := cb;
      this.conditions := conditions;
      this.names := names;
      this.lists := lists;
      row := map[];
      results := [];
    }

    /** The results once the given rows are checked on top of what is there; None after an error. */
    ghost function Extended(before: seq<Row>, rows: seq<Row>): Option<seq<Row>> {
      var more := Selected(cb, conditions, rows);
      if more.None? then None else Some(before + more.value)
    }

    ghost function Then(before: Option<seq<Row>>, rows: seq<Row>): Option<seq<Row>> {
      if before.None? then None else Extended(before.value, rows)
    }

    method Cartesian(i: nat) returns (ok: bool)
      requires i <= |names| == |lists|
      modifies this`row, this`results
      ensures Extended(old(results), Leaves(names, lists, i, old(row))) == if ok then Some(results) else None
      ensures SameSoFar(names, i, old(row), row)
      decreases |names| - i
    {
      if i == |names| {
        LastRow(results, row);
        var v := Check(cb, conditions, row);
        if v.Some? && v.value {
          results := results + [row];
        }
        return v.Some?;
      }
      ghost var start, before := row, results;
      for k := 0 to |lists[i]|
        invariant SameSoFar(names, i, start, row)
        invariant Extended(before, LeavesOf(names, lists, i, start, lists[i])) == Extended(results, LeavesOf(names, lists, i, start, lists[i][k..]))
      {
        var e := lists[i][k];
        OneMore(start, row, i, k, results);
        row := row[names[i] := e];
        assert names[i..] == [names[i]] + names[i + 1..];
        ok := Cartesian(i + 1);
        if !ok {
          return;
        }
      }
      assert results + [] == results;
      return true;
    }

    lemma {:induction false} LastRow(before: seq<Row>, r: Row)
      requires |names| == |lists|
      ensures Extended(before, Leaves(names, lists, |names|, r))
           == var v := Check(cb, conditions, r);
              if v.None? then None else Some(if v.value then before + [r] else before)
    {
      assert [r][1..] == [] && before + [] == before && [r] + [] == [r];
      assert Leaves(names, lists, |names|, r) == [r];
      var v := Check(cb, conditions, r);
      assert Selected(cb, conditions, [r]) == if v.None? then None else Some(if v.value then [r] else []);
    }

    lemma {:induction false} OneMore(start: Row, now: Row, i: nat, k: nat, done: seq<Row>)
      requires i < |names| == |lists| && k < |lists[i]| && SameSoFar(names, i, start, now)
      ensures Extended(done, LeavesOf(names, lists, i, start, lists[i][k..]))
           == Then(Extended(done, Leaves(names, lists, i + 1, now[names[i] := lists[i][k]])),
                   LeavesOf(names, lists, i, start, lists[i][k + 1..]))
    {
      var e := lists[i][k];
      assert lists[i][k..][1..] == lists[i][k + 1..];
      assert names[i..] == [names[i]] + names[i + 1..];
      StaleIsIgnored(names, lists, i + 1, start[names[i] := e], now[names[i] := e]);
      var first := Leaves(names, lists, i + 1, start[names[i] := e]);
      SelectedConcat(cb, conditions, first, LeavesOf(names, lists, i, start, lists[i][k + 1..]));
      var a, b := Selected(cb, conditions, first), Selected(cb, conditions, LeavesOf(names, lists, i, start, lists[i][k + 1..]));
      assert a.Some? && b.Some? ==> done + (a.value + b.value) == done + a.value + b.value;
    }
  }

  lemma {:induction false} SelectedConcat(cb: CodeBase, conditions: Option<Pred>, a: seq<Row>, b: seq<Row>)
    ensures var x, y := Selected(cb, conditions, a), Selected(cb, conditions, b);
            Selected(cb, conditions, a + b) == if x.None? || y.None? then None else Some(x.value + y.value)
  {
    if a == [] {
      assert a + b == b;
      var y := Selected(cb, conditions, b);
      assert y.Some? ==> [] + y.value == y.value;
    } else {
      assert (a + b)[1..] == a[1..] + b && (a + b)[0] == a[0];
      SelectedConcat(cb, conditions, a[1..], b);
      var v := Check(cb, conditions, a[0]);
      var x, y := Selected(cb, conditions, a[1..]), Selected(cb, conditions, b);
      if v.Some? && x.Some? && y.Some? {
        assert [a[0]] + (x.value + y.value) == [a[0]] + x.value + y.value;
      }
    }
  }

  // ---- What a match returns ----------------------------------------------------------------

  predicate DistinctNames(names: seq<string>) {
    forall i, j :: 0 <= i < j < |names| ==> names[i] != names[j]
  }

  /** `r` is `row` with every variable from `i` on assigned from its list. */
  ghost predicate Assigns(names: seq<string>, lists: seq<seq<Entity>>, i: nat, row: Row, r: Row)
    requires i <= |names| == |lists|
  {
    && SameSoFar(names, i, row, r)
    && forall j :: i <= j < |names| ==> names[j] in r && r[names[j]] in lists[j]
  }

  lemma {:induction false} LeavesAreAssignments(names: seq<string>, lists: seq<seq<Entity>>, i: nat, row: Row, r: Row)
    requires i <= |names| == |lists| && DistinctNames(names)
    ensures r in Leaves(names, lists, i, row) <==> Assigns(names, lists, i, row, r)
    decreases |names| - i, 0
  {
    if i == |names| {
      if Assigns(names, lists, i, row, r) {
        assert r == row;
      }
    } else {
      LeavesOfAreAssignments(names, lists, i, row, lists[i], r);
      if Assigns(names, lists, i, row, r) {
        AssignFirst(names, lists, i, row, r, r[names[i]]);
      }
      forall e | e in lists[i] && Assigns(names, lists, i + 1, row[names[i] := e], r)
        ensures Assigns(names, lists, i, row, r)
      {
        AssignFirst(names, lists, i, row, r, e);
      }
    }
  }

  lemma {:induction false} LeavesOfAreAssignments(names: seq<string>, lists: seq<seq<Entity>>, i: nat, row: Row,
                                                  es: seq<Entity>, r: Row)
    requires i < |names| == |lists| && DistinctNames(names)
    ensures r in LeavesOf(names, lists, i, row, es)
       <==> exists e :: e in es && Assigns(names, lists, i + 1, row[names[i] := e], r)
    decreases |names| - i - 1, |es| + 1
  {
    if es != [] {
      LeavesAreAssignments(names, lists, i + 1, row[names[i] := es[0]], r);
      LeavesOfAreAssignments(names, lists, i, row, es[1..], r);
      if r in LeavesOf(names, lists, i, row, es[1..]) {
        var e :| e in es[1..] && Assigns(names, lists, i + 1, row[names[i] := e], r);
        assert e in es;
      }
      assert r in Leaves(names, lists, i + 1, row[names[i] := es[0]]) ==> es[0] in es;
      assert forall e :: e in es <==> e == es[0] || e in es[1..];
    }
  }

  /** Assigning the variables from `i` on is assigning variable `i` and then the rest. */
  lemma {:induction false} AssignFirst(names: seq<string>, lists: seq<seq<Entity>>, i: nat, row: Row, r: Row, e: Entity)
    requires i < |names| == |lists| && DistinctNames(names) && e in lists[i]
    ensures Assigns(names, lists, i + 1, row[names[i] := e], r)
       <==> Assigns(names, lists, i, row, r) && names[i] in r && r[names[i]] == e
  {
    var v := names[i];
    assert names[i..] == [v] + names[i + 1..];
    assert v !in names[i + 1..];
    if Assigns(names, lists, i + 1, row[v := e], r) {
      assert v in row[v := e];
    }
  }

  /** The condition fails on the row. */
  predicate CheckFails(cb: CodeBase, conditions: Option<Pred>, row: Row) {
    conditions.Some? && Fails(cb, conditions.value, row)
  }

  lemma {:induction false} SelectedIsFilter(cb: CodeBase, conditions: Option<Pred>, rows: seq<Row>, r: Row)
    ensures var s := Selected(cb, conditions, rows);
            && (s.None? <==> exists x :: x in rows && CheckFails(cb, conditions, x))
            && (s.Some? ==> (r in s.value <==> r in rows && (conditions.None? || Holds(cb, conditions.value, r))))
  {
    if rows != [] {
      SelectedIsFilter(cb, conditions, rows[1..], r);
      if conditions.Some? {
        EvalIsLogic(cb, conditions.value, rows[0]);
      }
      assert Check(cb, conditions, rows[0]).None? <==> CheckFails(cb, conditions, rows[0]);
      assert forall x :: x in rows <==> x == rows[0] || x in rows[1..];
      assert rows[0] in rows;
      if exists x :: x in rows && CheckFails(cb, conditions, x) {
        var x :| x in rows && CheckFails(cb, conditions, x);
        assert x == rows[0] || x in rows[1..];
      }
    }
  }

  /** The candidates of a variable: those of the last binding that names it. */
  function Candidates(cb: CodeBase, bindings: seq<MatchVar>): map<string, seq<Entity>> {
    if bindings == [] then map[]
    else
      var last := bindings[|bindings| - 1];
      Candidates(cb, bindings[..|bindings| - 1])[last.name := cb.ofKind(last.kind)]
  }

  function NamesOf(bindings: seq<MatchVar>): (names: seq<string>)
    ensures |names| == |bindings| && forall i :: 0 <= i < |names| ==> names[i] == bindings[i].name
  {
    if bindings == [] then [] else NamesOf(bindings[..|bindings| - 1]) + [bindings[|bindings| - 1].name]
  }

  lemma {:induction false} CandidatesOf(cb: CodeBase, bindings: seq<MatchVar>, i: nat)
    requires i < |bindings|
    ensures bindings[i].name in Candidates(cb, bindings)
    ensures DistinctNames(NamesOf(bindings)) ==> Candidates(cb, bindings)[bindings[i].name] == cb.ofKind(bindings[i].kind)
  {
    var n := |bindings| - 1;
    if i < n {
      CandidatesOf(cb, bindings[..n], i);
      var names := NamesOf(bindings);
      assert DistinctNames(names) ==> names[i] != names[n];
      assert forall j :: 0 <= j < n ==> NamesOf(bindings[..n])[j] == names[j];
    }
  }

  function ListsOf(cb: CodeBase, bindings: seq<MatchVar>): (lists: seq<seq<Entity>>)
    ensures |lists| == |bindings|
  {
    seq(|bindings|, i requires 0 <= i < |bindings| =>
      CandidatesOf(cb, bindings, i);
      Candidates(cb, bindings)[bindings[i].name])
  }

  /** The rows a match query selects; None is an executor error. */
  function MatchRows(cb: CodeBase, q: Query): Option<seq<Row>> {
    Selected(cb, q.conditions, Leaves(NamesOf(q.bindings), ListsOf(cb, q.bindings), 0, map[]))
  }

  /** `_execute_match` up to projection. */
  method ExecuteMatch(cb: CodeBase, q: Query) returns (rows: Option<seq<Row>>)
    ensures rows == MatchRows(cb, q)
  {
    var m := new Matcher(cb, q.conditions, NamesOf(q.bindings), ListsOf(cb, q.bindings));
    var ok := m.Cartesian(0);
    var found := MatchRows(cb, q);
    assert found.Some? ==> [] + found.value == found.value;
    rows := if ok then Some(m.results) else None;
  }

  /** Every variable takes a value of its kind, and nothing else is in the row. */
  ghost predicate IsAssignment(cb: CodeBase, bindings: seq<MatchVar>, r: Row) {
    && (forall n :: n in r ==> n in NamesOf(bindings))
    && forall i :: 0 <= i < |bindings| ==> bindings[i].name in r && r[bindings[i].name] in cb.ofKind(bindings[i].kind)
  }

  /**
   * With distinct variables, a match fails exactly when the condition fails on some assignment
   * of entities of the named kinds, and otherwise returns those that satisfy it.
   */
  lemma {:induction false} MatchIsExact(cb: CodeBase, q: Query, r: Row)
    requires DistinctNames(NamesOf(q.bindings))
    ensures MatchRows(cb, q).None? <==> exists x :: IsAssignment(cb, q.bindings, x) && CheckFails(cb, q.conditions, x)
    ensures MatchRows(cb, q).Some? ==> (r in MatchRows(cb, q).value
       <==> IsAssignment(cb, q.bindings, r) && (q.conditions.None? || Holds(cb, q.conditions.value, r)))
  {
    var names, lists := NamesOf(q.bindings), ListsOf(cb, q.bindings);
    forall x
      ensures x in Leaves(names, lists, 0, map[]) <==> IsAssignment(cb, q.bindings, x)
    {
      LeavesAreAssignments(names, lists, 0, map[], x);
      AssignmentForm(cb, q.bindings, x);
    }
    SelectedIsFilter(cb, q.conditions, Leaves(names, lists, 0, map[]), r);
  }

  lemma {:induction false} AssignmentForm(cb: CodeBase, bindings: seq<MatchVar>, r: Row)
    requires DistinctNames(NamesOf(bindings))
    ensures Assigns(NamesOf(bindings), ListsOf(cb, bindings), 0, map[], r) <==> IsAssignment(cb, bindings, r)
  {
    var names := NamesOf(bindings);
    assert names[0..] == names;
    forall i | 0 <= i < |bindings|
      ensures ListsOf(cb, bindings)[i] == cb.ofKind(bindings[i].kind)
    {
      CandidatesOf(cb, bindings, i);
    }
  }

  /** The loops reach one row per combination, repeated variables or not. */
  function Product(lists: seq<seq<Entity>>, i: nat): nat
    requires i <= |lists|
    decreases |lists| - i
  {
    if i == |lists| then 1 else |lists[i]| * Product(lists, i + 1)
  }

  lemma {:induction false} LeavesCount(names: seq<string>, lists: seq<seq<Entity>>, i: nat, row: Row)
    requires i <= |names| == |lists|
    ensures |Leaves(names, lists, i, row)| == Product(lists, i)
    decreases |names| - i, 0
  {
    if i < |names| {
      LeavesOfCount(names, lists, i, row, lists[i]);
    }
  }

  lemma {:induction false} LeavesOfCount(names: seq<string>, lists: seq<seq<Entity>>, i: nat, row: Row, es: seq<Entity>)
    requires i < |names| == |lists|
    ensures |LeavesOf(names, lists, i, row, es)| == |es| * Product(lists, i + 1)
    decreases |names| - i - 1, |es| + 1
  {
    if es != [] {
      LeavesCount(names, lists, i + 1, row[names[i] := es[0]]);
      LeavesOfCount(names, lists, i, row, es[1..]);
      OneMoreTime(|es|, Product(lists, i + 1));
    }
  }

  lemma {:induction false} OneMoreTime(n: nat, p: nat)
    requires n > 0
    ensures n * p == p + (n - 1) * p
  {
  }

  lemma {:induction false} TakeOneAway(k: nat, n: nat, p: nat, j: nat)
    requires k < n && j < p
    ensures k * p + j < n * p
    ensures k > 0 ==> k * p + j - p == (k - 1) * p + j && p <= k * p + j
  {
    OneMoreTime(k + 1, p);
    if k > 0 {
      OneMoreTime(k, p);
    }
    Grows(k + 1, n, p);
  }

  lemma {:induction false} Grows(a: nat, b: nat, p: nat)
    requires a <= b
    ensures a * p <= b * p
  {
  }

  lemma {:induction false} LeavesOfAt(names: seq<string>, lists: seq<seq<Entity>>, i: nat, row: Row, es: seq<Entity>, k: nat, j: nat)
    requires i < |names| == |lists| && k < |es| && j < Product(lists, i + 1)
    ensures |LeavesOf(names, lists, i, row, es)| == |es| * Product(lists, i + 1)
    ensures k * Product(lists, i + 1) + j < |es| * Product(lists, i + 1)
    ensures |Leaves(names, lists, i + 1, row[names[i] := es[k]])| == Product(lists, i + 1)
    ensures LeavesOf(names, lists, i, row, es)[k * Product(lists, i + 1) + j]
         == Leaves(names, lists, i + 1, row[names[i] := es[k]])[j]
    decreases |es|
  {
    var p := Product(lists, i + 1);
    LeavesOfCount(names, lists, i, row, es);
    LeavesCount(names, lists, i + 1, row[names[i] := es[0]]);
    LeavesCount(names, lists, i + 1, row[names[i] := es[k]]);
    TakeOneAway(k, |es|, p, j);
    if k > 0 {
      LeavesOfAt(names, lists, i, row, es[1..], k - 1, j);
      assert es[1..][k - 1] == es[k];
    }
  }

  /**
   * The order of the rows: the first variable turns slowest. Position k times the size of the
   * rest, plus j, holds the j-th row of the rest with the variable at its k-th candidate.
   */
  lemma {:induction false} RowAt(names: seq<string>, lists: seq<seq<Entity>>, i: nat, row: Row, k: nat, j: nat)
    requires i < |names| == |lists| && k < |lists[i]| && j < Product(lists, i + 1)
    ensures |Leaves(names, lists, i, row)| == |lists[i]| * Product(lists, i + 1)
    ensures k * Product(lists, i + 1) + j < |lists[i]| * Product(lists, i + 1)
    ensures |Leaves(names, lists, i + 1, row[names[i] := lists[i][k]])| == Product(lists, i + 1)
    ensures Leaves(names, lists, i, row)[k * Product(lists, i + 1) + j]
         == Leaves(names, lists, i + 1, row[names[i] := lists[i][k]])[j]
    ensures Leaves(names, lists, |names|, row) == [row]
  {
    LeavesOfAt(names, lists, i, row, lists[i], k, j);
  }

  // ---- Ranking ------------------------------------------------------------------------------

  datatype Scored = Scored(entity: Entity, score: int)

  /** The distinct entities of a variable over the rows, in order of first appearance. */
  function EntitiesOf(rows: seq<Row>, v: string): seq<Entity> {
    if rows == [] then []
    else
      var es, last := EntitiesOf(rows[..|rows| - 1], v), rows[|rows| - 1];
      if v in last && last[v] !in es then es + [last[v]] else es
  }

  lemma {:induction false} OneMoreEntity(rows: seq<Row>, i: nat, v: string)
    requires i < |rows|
    ensures var es := EntitiesOf(rows[..i], v);
            EntitiesOf(rows[..i + 1], v) == if v in rows[i] && rows[i][v] !in es then es + [rows[i][v]] else es
  {
    assert rows[..i + 1][..i] == rows[..i];
  }

  predicate InOrder(a: Scored, b: Scored, desc: bool) {
    if desc then a.score >= b.score else a.score <= b.score
  }

  /** Into a sorted list, before the first element not strictly ahead of it: equals keep their order. */
  function Insert(x: Scored, ys: seq<Scored>, desc: bool): seq<Scored> {
    if ys == [] || InOrder(x, ys[0], desc) then [x] + ys else [ys[0]] + Insert(x, ys[1..], desc)
  }

  /** `scored.sort(key=..., reverse=desc)`. */
  function Sort(xs: seq<Scored>, desc: bool): seq<Scored> {
    if xs == [] then [] else Insert(xs[0], Sort(xs[1..], desc), desc)
  }

  function Score(es: seq<Entity>, metric: Entity -> int): seq<Scored> {
    seq(|es|, i requires 0 <= i < |es| => Scored(es[i], metric(es[i])))
  }

  function Top(xs: seq<Scored>, limit: Option<nat>): seq<Scored> {
    if limit.Some? && limit.value < |xs| then xs[..limit.value] else xs
  }

  /** `_compute_metric`: the size of a closure, or of a list of direct neighbours. */
  function Metric(cb: CodeBase, direction: string): Entity -> int {
    e => if direction == "callers+" then |Calling(cb, e)|
         else if direction == "callers" then cb.directCallers(e)
         else if direction == "callees+" then |Called(cb, e, false)|
         else if direction == "callees" then cb.directCalls(e)
         else 0
  }

  /** `execute_rank` over the rows of its inner match. */
  function Rank(rows: seq<Row>, v: string, metric: Entity -> int, desc: bool, limit: Option<nat>): seq<Scored> {
    Top(Sort(Score(EntitiesOf(rows, v), metric), desc), limit)
  }

  method ExecuteRank(cb: CodeBase, inner: Query, v: string, metric: RankMetric, desc: bool, limit: Option<nat>)
    returns (ranked: Option<seq<Scored>>)
    ensures var rows := MatchRows(cb, inner);
            ranked == if rows.None? then None else Some(Rank(rows.value, v, Metric(cb, metric.direction), desc, limit))
  {
    var rows := ExecuteMatch(cb, inner);
    if rows.None? {
      return None;
    }
    var list := rows.value;
    var entities: seq<Entity> := [];
    var seen: set<Entity> := {};
    for i := 0 to |list|
      invariant entities == EntitiesOf(list[..i], v)
      invariant forall e :: e in seen <==> e in entities
    {
      OneMoreEntity(list, i, v);
      if v in list[i] {
        var e: Entity := list[i][v];
        if e !in seen {
          seen := seen + {e};
          entities := entities + [e];
        }
      }
    }
    assert list[..|list|] == list;
    return Some(Top(Sort(Score(entities, Metric(cb, metric.direction)), desc), limit));
  }

  predicate Ordered(xs: seq<Scored>, desc: bool) {
    forall i, j :: 0 <= i < j < |xs| ==> InOrder(xs[i], xs[j], desc)
  }

  /** The elements of one score, in order. */
  function OfScore(xs: seq<Scored>, score: int): seq<Scored> {
    if xs == [] then [] else (if xs[0].score == score then [xs[0]] else []) + OfScore(xs[1..], score)
  }

  lemma {:induction false} InsertKeeps(x: Scored, ys: seq<Scored>, desc: bool, score: int)
    requires Ordered(ys, desc)
    ensures Ordered(Insert(x, ys, desc), desc) && multiset(Insert(x, ys, desc)) == multiset{x} + multiset(ys)
    ensures OfScore(Insert(x, ys, desc), score) == OfScore([x] + ys, score)
  {
    if ys == [] || InOrder(x, ys[0], desc) {
      InsertInFront(x, ys, desc);
    } else {
      InsertKeeps(x, ys[1..], desc, score);
      InsertBehind(x, ys, Insert(x, ys[1..], desc), desc, score);
    }
  }

  lemma {:induction false} InsertInFront(x: Scored, ys: seq<Scored>, desc: bool)
    requires Ordered(ys, desc) && (ys == [] || InOrder(x, ys[0], desc))
    ensures Ordered([x] + ys, desc)
  {
    var zs := [x] + ys;
    forall i, j | 0 <= i < j < |zs|
      ensures InOrder(zs[i], zs[j], desc)
    {
      if i == 0 && j > 1 {
        assert InOrder(ys[0], ys[j - 1], desc);
      }
    }
  }

  lemma {:induction false} InsertBehind(x: Scored, ys: seq<Scored>, zs: seq<Scored>, desc: bool, score: int)
    requires ys != [] && Ordered(ys, desc) && !InOrder(x, ys[0], desc)
    requires Ordered(zs, desc) && multiset(zs) == multiset{x} + multiset(ys[1..])
    requires OfScore(zs, score) == OfScore([x] + ys[1..], score)
    ensures Ordered([ys[0]] + zs, desc) && multiset([ys[0]] + zs) == multiset{x} + multiset(ys)
    ensures OfScore([ys[0]] + zs, score) == OfScore([x] + ys, score)
  {
    BehindIsOrdered(x, ys, zs, desc);
    BehindIsPermuted(x, ys, zs);
    BehindKeepsScore(x, ys[0], ys[1..], zs, desc, score);
    assert ys == [ys[0]] + ys[1..];
  }

  lemma {:induction false} BehindIsOrdered(x: Scored, ys: seq<Scored>, zs: seq<Scored>, desc: bool)
    requires ys != [] && Ordered(ys, desc) && !InOrder(x, ys[0], desc)
    requires Ordered(zs, desc) && multiset(zs) == multiset{x} + multiset(ys[1..])
    ensures Ordered([ys[0]] + zs, desc)
  {
    forall z | z in zs
      ensures InOrder(ys[0], z, desc)
    {
      assert z in multiset(zs);
      if z != x {
        var k :| 0 <= k < |ys[1..]| && ys[1..][k] == z;
        assert z == ys[k + 1];
      }
    }
  }

  lemma {:induction false} BehindIsPermuted(x: Scored, ys: seq<Scored>, zs: seq<Scored>)
    requires ys != [] && multiset(zs) == multiset{x} + multiset(ys[1..])
    ensures multiset([ys[0]] + zs) == multiset{x} + multiset(ys)
  {
    assert ys == [ys[0]] + ys[1..];
  }

  /** x goes behind y only when their scores differ. */
  lemma {:induction false} BehindKeepsScore(x: Scored, y: Scored, rest: seq<Scored>, zs: seq<Scored>, desc: bool, score: int)
    requires !InOrder(x, y, desc) && OfScore(zs, score) == OfScore([x] + rest, score)
    ensures OfScore([y] + zs, score) == OfScore([x] + ([y] + rest), score)
  {
    assert ([y] + zs)[1..] == zs && ([x] + ([y] + rest))[1..] == [y] + rest;
    assert ([y] + rest)[1..] == rest && ([x] + rest)[1..] == rest;
  }

  lemma {:induction false} SortIsStable(xs: seq<Scored>, desc: bool, score: int)
    ensures Ordered(Sort(xs, desc), desc) && multiset(Sort(xs, desc)) == multiset(xs)
    ensures OfScore(Sort(xs, desc), score) == OfScore(xs, score)
  {
    if xs != [] {
      var rest := Sort(xs[1..], desc);
      SortIsStable(xs[1..], desc, score);
      InsertKeeps(xs[0], rest, desc, score);
      assert xs == [xs[0]] + xs[1..] && ([xs[0]] + rest)[1..] == rest;
    }
  }

  lemma {:induction false} TopIsBest(sorted: seq<Scored>, desc: bool, limit: Option<nat>, x: Scored)
    requires Ordered(sorted, desc) && x in sorted
    ensures Ordered(Top(sorted, limit), desc)
    ensures x in Top(sorted, limit) || forall y :: y in Top(sorted, limit) ==> InOrder(y, x, desc)
  {
    var k :| 0 <= k < |sorted| && sorted[k] == x;
    var out := Top(sorted, limit);
    if k < |out| {
      assert out[k] == x;
    } else {
      forall y | y in out
        ensures InOrder(y, x, desc)
      {
        var j :| 0 <= j < |out| && out[j] == y;
        assert sorted[j] == y;
      }
    }
  }

  /** A ranking keeps the best: nothing left out by the limit is ahead of anything kept. */
  lemma {:induction false} RankKeepsBest(rows: seq<Row>, v: string, metric: Entity -> int, desc: bool, limit: Option<nat>, e: Entity)
    requires e in EntitiesOf(rows, v)
    ensures var out := Rank(rows, v, metric, desc, limit);
            && Ordered(out, desc)
            && (Scored(e, metric(e)) in out || forall x :: x in out ==> InOrder(x, Scored(e, metric(e)), desc))
  {
    var es := EntitiesOf(rows, v);
    var i :| 0 <= i < |es| && es[i] == e;
    var scored := Score(es, metric);
    SortIsStable(scored, desc, 0);
    assert scored[i] == Scored(e, metric(e)) && scored[i] in multiset(scored) && scored[i] in multiset(Sort(scored, desc));
    TopIsBest(Sort(scored, desc), desc, limit, Scored(e, metric(e)));
  }
}
