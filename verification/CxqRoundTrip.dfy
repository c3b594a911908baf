/**
 * Printing CXQ queries, and the two laws that tie the printer to the parser: a printed tree
 * parses back to itself, and whatever parses is a tree the printer accepts.
 */
module CxqRoundTrip {
  import opened CxqSyntax
  import opened CxqLexer
  import opened CxqGrammar
  import opened Options
  import opened Text

  // ---- The trees a text can denote -------------------------------------------------------

  /** A string a quoted token can carry: no quote at either end, and a quote style left to write it in. */
  predicate Literal(t: string) {
    Bare(t, IsQuote) && ('"' !in t || '\'' !in t)
  }

  /** A token that a predicate may start with. */
  predicate Subject(t: string) {
    IsToken(t) && t != "(" && t != "not"
  }

  predicate Side(t: string, isVar: bool) {
    if isVar then IsToken(t) && !StartsWithQuote(t) else Literal(t)
  }

  predicate WellFormedValue(op: string, v: Value) {
    match v
    case Text(t) => op in ["=", "!=", "~"] && Literal(t)
    case Texts(ts) => op == "in" && forall t :: t in ts ==> Literal(t)
  }

  predicate WellFormedPred(p: Pred) {
    match p
    case AttrPred(name, attr, op, value) => Subject(name) && IsToken(attr) && WellFormedValue(op, value)
    case ClosurePred(lhs, op, rhs, lhsIsVar, rhsIsVar) =>
      && op in CLOSURE_OPS && Side(lhs, lhsIsVar) && Side(rhs, rhsIsVar)
      && (lhsIsVar ==> lhs != "(" && lhs != "not")
    case NotPred(inner) => WellFormedPred(inner)
    case AndPred(l, r) => WellFormedPred(l) && WellFormedPred(r)
    case OrPred(l, r) => WellFormedPred(l) && WellFormedPred(r)
  }

  predicate WellFormedBinding(b: MatchVar) {
    b.kind in KIND_KEYWORDS && IsToken(b.kind) && IsToken(b.name) && b.name !in KEYWORDS
  }

  predicate WellFormedProj(p: Projection) {
    IsToken(p.name) && (!p.CountProj? ==> p.name != "count") && (p.AttrProj? ==> IsToken(p.attr))
  }

  predicate WellFormedQuery(q: Query) {
    && q.bindings != [] && (forall b :: b in q.bindings ==> WellFormedBinding(b))
    && (q.conditions.Some? ==> WellFormedPred(q.conditions.value))
    && q.projections != [] && (forall p :: p in q.projections ==> WellFormedProj(p))
  }

  predicate WellFormedMetric(m: RankMetric) {
    m.func == "count" && m.direction in METRIC_DIRS && IsToken(m.name)
  }

  predicate WellFormed(q: Parsed) {
    match q
    case MatchQuery(query) => WellFormedQuery(query)
    case RankQuery(inner, rankVar, metric, _, _) =>
      WellFormedQuery(inner) && IsToken(rankVar) && WellFormedMetric(metric)
    case PathQuery(fromName, toName, via) => Literal(fromName) && Literal(toName) && via in ["calls", "inherits"]
  }

  // ---- The printer: the tokens of a tree, followed by `rest` ------------------------------

  function Quote(t: string): string {
    if '"' in t then ['\''] + t + ['\''] else ['"'] + t + ['"']
  }

  function SideToken(t: string, isVar: bool): string {
    if isVar then t else Quote(t)
  }

  function Digits(n: nat): string {
    (if n < 10 then "" else Digits(n / 10)) + ['0' + (n % 10) as char]
  }

  function Items(ts: seq<string>, rest: seq<string>): seq<string> {
    if ts == [] then rest
    else if |ts| == 1 then [Quote(ts[0])] + rest
    else [Quote(ts[0])] + ([","] + Items(ts[1..], rest))
  }

  function Valued(v: Value, rest: seq<string>): seq<string> {
    match v
    case Text(t) => [Quote(t)] + rest
    case Texts(ts) => ["["] + Items(ts, ["]"] + rest)
  }

  /** How tightly a predicate binds: 0 for `or`, 1 for `and`, 2 for the rest. */
  function Level(p: Pred): nat {
    if p.OrPred? then 0 else if p.AndPred? then 1 else 2
  }

  /** A predicate where level `at` or tighter is wanted: parentheses only where needed. */
  function Pr(p: Pred, at: nat, rest: seq<string>): seq<string>
    decreases p, at
  {
    if Level(p) < at then ["("] + Pr(p, 0, [")"] + rest)
    else
      match p
      case OrPred(l, r) => Pr(l, 0, ["or"] + Pr(r, 1, rest))
      case AndPred(l, r) => Pr(l, 1, ["and"] + Pr(r, 2, rest))
      case NotPred(inner) => ["not"] + Pr(inner, 2, rest)
      case AttrPred(name, attr, op, value) => [name, ".", attr, op] + Valued(value, rest)
      case ClosurePred(lhs, op, rhs, lhsIsVar, rhsIsVar) =>
        [SideToken(lhs, lhsIsVar), op, SideToken(rhs, rhsIsVar)] + rest
  }

  function Bound(b: MatchVar, rest: seq<string>): seq<string> {
    [b.kind, b.name] + rest
  }

  function MatchVars(bs: seq<MatchVar>, rest: seq<string>): seq<string> {
    if bs == [] then rest else [","] + Bound(bs[0], MatchVars(bs[1..], rest))
  }

  function Projected(p: Projection, rest: seq<string>): seq<string> {
    match p
    case VarProj(name) => [name] + rest
    case AttrProj(name, attr) => [name, ".", attr] + rest
    case CountProj(name) => ["count", "(", name, ")"] + rest
  }

  function Projections(ps: seq<Projection>, rest: seq<string>): seq<string> {
    if ps == [] then rest else [","] + Projected(ps[0], Projections(ps[1..], rest))
  }

  function Condition(c: Option<Pred>, rest: seq<string>): seq<string> {
    if c.None? then rest else ["where"] + Pr(c.value, 0, rest)
  }

  function Matched(q: Query, rest: seq<string>): seq<string>
    requires q.bindings != [] && q.projections != []
  {
    var selected := ["select"] + Projected(q.projections[0], Projections(q.projections[1..], rest));
    ["match"] + Bound(q.bindings[0], MatchVars(q.bindings[1..], Condition(q.conditions, selected)))
  }

  function Directed(desc: bool, limit: Option<nat>): seq<string> {
    var tail := if limit.None? then [] else ["limit", Digits(limit.value)];
    if desc then ["desc"] + tail else tail
  }

  function Ranking(metric: RankMetric, desc: bool, limit: Option<nat>): seq<string> {
    ["by"] + ([metric.func, "(", metric.direction, metric.name, ")"] + Directed(desc, limit))
  }

  function Ends(fromName: string, toName: string, via: string): seq<string> {
    [fromName] + (["to"] + ([toName] + (["via"] + [via])))
  }

  /** A ranked query can be written `rank v in match ...` or `match ... rank v`. */
  function Print(q: Parsed, prefix: bool): seq<string>
    requires WellFormed(q)
  {
    match q
    case MatchQuery(query) => Matched(query, [])
    case RankQuery(inner, v, metric, desc, limit) =>
      var ranking := Ranking(metric, desc, limit);
      if prefix then ["rank", v, "in"] + Matched(inner, ranking) else Matched(inner, ["rank", v] + ranking)
    case PathQuery(fromName, toName, via) =>
      ["show", "path", "from"] + Ends(Quote(fromName), Quote(toName), via)
  }

  // ---- Single tokens back ----------------------------------------------------------------

  lemma {:induction false} WrappedIsToken(q: char, t: string)
    requires IsQuote(q) && q !in t
    ensures IsToken([q] + t + [q])
  {
    var s := [q] + t + [q];
    assert s[1..] == t + [q];
    RunIs(s[1..], Other(q), |t|);
  }

  lemma {:induction false} UnquoteQuote(t: string)
    requires Literal(t)
    ensures Unquote(Quote(t)) == t && StartsWithQuote(Quote(t)) && IsToken(Quote(t))
  {
    var q := if '"' in t then '\'' else '"';
    StripWrapped(q, t, IsQuote);
    WrappedIsToken(q, t);
  }

  lemma {:induction false} IntDigits(n: nat)
    ensures ParseInt(Digits(n)) == Some(n) && IsToken(Digits(n))
  {
    DigitsAreDigits(n);
    var s := Digits(n);
    RunIs(s, IsDigit, |s|);
    assert IsDigit(s[0]);
    assert |s| > 1 ==> s[..2][0] == s[0];
  }

  lemma {:induction false} DigitsAreDigits(n: nat)
    ensures Digits(n) != "" && forall k :: 0 <= k < |Digits(n)| ==> IsDigit(Digits(n)[k])
    ensures DecimalValue(Digits(n)) == n
  {
    var s := Digits(n);
    if n >= 10 {
      DigitsAreDigits(n / 10);
      assert s[..|s| - 1] == Digits(n / 10);
    } else {
      assert s[..|s| - 1] == "";
    }
  }

  // ---- Printed predicates parse back -----------------------------------------------------

  lemma {:induction false} QuotedBack(t: string, rest: seq<string>)
    requires Literal(t)
    ensures StringValue([Quote(t)] + rest) == Done(t, rest) && QuotedName([Quote(t)] + rest) == Done(t, rest)
    ensures Quote(t) != "]"
  {
    UnquoteQuote(t);
    assert ([Quote(t)] + rest)[1..] == rest;
  }

  lemma {:induction false} ItemBack(done: seq<string>, t: string, rest: seq<string>)
    requires Literal(t)
    ensures MoreItems(done, [Quote(t)] + rest) == MoreItems(done + [t], if Peeks(rest, ",") then rest[1..] else rest)
  {
    QuotedBack(t, rest);
  }

  lemma {:induction false} LastItemBack(done: seq<string>, t: string, rest: seq<string>)
    requires Literal(t)
    ensures MoreItems(done, [Quote(t)] + (["]"] + rest)) == Done(done + [t], ["]"] + rest)
  {
    ItemBack(done, t, ["]"] + rest);
  }

  lemma {:induction false} NextItemBack(done: seq<string>, t: string, more: seq<string>)
    requires Literal(t)
    ensures MoreItems(done, [Quote(t)] + ([","] + more)) == MoreItems(done + [t], more)
  {
    ItemBack(done, t, [","] + more);
    assert ([","] + more)[1..] == more;
  }

  lemma {:induction false} HeadThenTail<T>(done: seq<T>, ts: seq<T>)
    requires ts != []
    ensures done + [ts[0]] + ts[1..] == done + ts
  {
  }

  lemma {:induction false} ItemsBack(done: seq<string>, ts: seq<string>, rest: seq<string>)
    requires forall t :: t in ts ==> Literal(t)
    ensures MoreItems(done, Items(ts, ["]"] + rest)) == Done(done + ts, ["]"] + rest)
    decreases ts
  {
    if ts == [] {
      assert done + ts == done;
    } else {
      HeadThenTail(done, ts);
      var t, more := ts[0], ts[1..];
      if more == [] {
        LastItemBack(done, t, rest);
        assert done + [t] + more == done + [t];
      } else {
        NextItemBack(done, t, Items(more, ["]"] + rest));
        ItemsBack(done + [t], more, rest);
      }
    }
  }

  lemma {:induction false} SideBack(t: string, isVar: bool)
    requires Side(t, isVar)
    ensures var tok := SideToken(t, isVar);
            StartsWithQuote(tok) == !isVar && (if isVar then tok else Unquote(tok)) == t && IsToken(tok)
  {
    if !isVar {
      UnquoteQuote(t);
    }
  }

  lemma {:induction false} TextBack(name: string, attr: string, op: string, t: string, rest: seq<string>)
    requires op in ["=", "!=", "~"] && Literal(t)
    ensures Operand(name, attr, [op] + ([Quote(t)] + rest)) == Done(AttrPred(name, attr, op, Value.Text(t)), rest)
  {
    QuotedBack(t, rest);
    assert ([op] + ([Quote(t)] + rest))[1..] == [Quote(t)] + rest;
  }

  lemma {:induction false} ListBack(items: seq<string>, rest: seq<string>)
    requires forall t :: t in items ==> Literal(t)
    ensures ListValue(["["] + Items(items, ["]"] + rest)) == Done(items, rest)
  {
    var inside := Items(items, ["]"] + rest);
    ItemsBack([], items, rest);
    assert (["["] + inside)[1..] == inside && [] + items == items && (["]"] + rest)[1..] == rest;
  }

  lemma {:induction false} TextsBack(name: string, attr: string, items: seq<string>, rest: seq<string>)
    requires forall t :: t in items ==> Literal(t)
    ensures Operand(name, attr, ["in"] + (["["] + Items(items, ["]"] + rest)))
         == Done(AttrPred(name, attr, "in", Texts(items)), rest)
  {
    var list := ["["] + Items(items, ["]"] + rest);
    ListBack(items, rest);
    assert (["in"] + list)[1..] == list;
  }

  lemma {:induction false} AttrBack(p: Pred, rest: seq<string>)
    requires p.AttrPred? && WellFormedPred(p)
    ensures NotExpr(Pr(p, 2, rest)) == Done(p, rest)
  {
    var ts := Pr(p, 2, rest);
    var tail := [p.op] + Valued(p.value, rest);
    AttrDispatch(ts, tail);
    if p.value.Text? {
      TextBack(p.name, p.attr, p.op, p.value.text, rest);
    } else {
      TextsBack(p.name, p.attr, p.value.texts, rest);
    }
  }

  lemma {:induction false} AttrDispatch(ts: seq<string>, tail: seq<string>)
    requires |ts| > 3 && ts[0] != "(" && ts[0] != "not" && ts[1] == "." && ts[3..] == tail
    ensures NotExpr(ts) == Operand(ts[0], ts[2], tail)
  {
    assert ts[1..][1..][1..] == tail;
  }

  lemma {:induction false} ClosureDispatch(ts: seq<string>)
    requires |ts| > 1 && ts[0] != "(" && ts[0] != "not" && ts[1] in CLOSURE_OPS
    ensures NotExpr(ts) == ClosurePredicate(ts)
  {
  }

  lemma {:induction false} ClosureTokensBack(lhs: string, op: string, rhs: string, rest: seq<string>)
    ensures ClosurePredicate([lhs, op, rhs] + rest)
         == Done(ClosurePred(if StartsWithQuote(lhs) then Unquote(lhs) else lhs, op,
                             if StartsWithQuote(rhs) then Unquote(rhs) else rhs,
                             !StartsWithQuote(lhs), !StartsWithQuote(rhs)), rest)
  {
    assert ([lhs, op, rhs] + rest)[1..][1..][1..] == rest;
  }

  lemma {:induction false} ClosureBack(p: Pred, rest: seq<string>)
    requires p.ClosurePred? && WellFormedPred(p)
    ensures NotExpr(Pr(p, 2, rest)) == Done(p, rest)
  {
    var lhs, rhs := SideToken(p.lhs, p.lhsIsVar), SideToken(p.rhs, p.rhsIsVar);
    SideBack(p.lhs, p.lhsIsVar);
    SideBack(p.rhs, p.rhsIsVar);
    ClosureDispatch([lhs, p.op, rhs] + rest);
    ClosureTokensBack(lhs, p.op, rhs, rest);
  }

  /** Which of the three lemmas below a predicate of a given level unwinds first. */
  function Turns(p: Pred, at: nat): nat {
    var level := Level(p);
    if at == level then 0 else if at == level + 2 || at + 1 == level then 1 else 2
  }

  lemma {:induction false} OrTurn(left: Pred, right: Pred, ts: seq<string>, rest: seq<string>)
    requires AndExpr(ts) == AndLoop(right, rest) && !Peeks(rest, "and")
    ensures OrLoop(left, ["or"] + ts) == OrLoop(OrPred(left, right), rest)
  {
    assert (["or"] + ts)[1..] == ts;
  }

  lemma {:induction false} AndTurn(left: Pred, right: Pred, ts: seq<string>, rest: seq<string>)
    requires NotExpr(ts) == Done(right, rest)
    ensures AndLoop(left, ["and"] + ts) == AndLoop(AndPred(left, right), rest)
  {
    assert (["and"] + ts)[1..] == ts;
  }

  lemma {:induction false} OrBack(p: Pred, rest: seq<string>)
    requires WellFormedPred(p) && !Peeks(rest, "and")
    ensures OrExpr(Pr(p, 0, rest)) == OrLoop(p, rest)
    decreases p, Turns(p, 0)
  {
    if p.OrPred? {
      OrBack(p.left, ["or"] + Pr(p.right, 1, rest));
      AndBack(p.right, rest);
      OrTurn(p.left, p.right, Pr(p.right, 1, rest), rest);
    } else {
      AndBack(p, rest);
      assert Pr(p, 0, rest) == Pr(p, 1, rest);
    }
  }

  lemma {:induction false} AndBack(p: Pred, rest: seq<string>)
    requires WellFormedPred(p)
    ensures AndExpr(Pr(p, 1, rest)) == AndLoop(p, rest)
    decreases p, Turns(p, 1)
  {
    if p.AndPred? {
      AndBack(p.left, ["and"] + Pr(p.right, 2, rest));
      NotBack(p.right, rest);
      AndTurn(p.left, p.right, Pr(p.right, 2, rest), rest);
    } else {
      NotBack(p, rest);
      assert Pr(p, 1, rest) == Pr(p, 2, rest);
    }
  }

  lemma {:induction false} NotBack(p: Pred, rest: seq<string>)
    requires WellFormedPred(p)
    ensures NotExpr(Pr(p, 2, rest)) == Done(p, rest)
    decreases p, Turns(p, 2)
  {
    if p.OrPred? || p.AndPred? {
      OrBack(p, [")"] + rest);
      var ts := Pr(p, 2, rest);
      assert ts[1..] == Pr(p, 0, [")"] + rest);
      assert ([")"] + rest)[1..] == rest;
    } else if p.NotPred? {
      NotBack(p.pred, rest);
      assert Pr(p, 2, rest)[1..] == Pr(p.pred, 2, rest);
    } else {
      if p.AttrPred? {
        AttrBack(p, rest);
      } else {
        ClosureBack(p, rest);
      }
    }
  }

  // ---- Printed queries parse back --------------------------------------------------------

  lemma {:induction false} BindingBack(b: MatchVar, rest: seq<string>)
    requires WellFormedBinding(b)
    ensures Binding(Bound(b, rest)) == Done(b, rest)
  {
    assert Bound(b, rest)[2..] == rest;
  }

  lemma {:induction false} BindingsBack(done: seq<MatchVar>, bs: seq<MatchVar>, rest: seq<string>)
    requires forall b :: b in bs ==> WellFormedBinding(b)
    requires !Peeks(rest, ",")
    ensures MoreBindings(done, MatchVars(bs, rest)) == Done(done + bs, rest)
    decreases bs
  {
    if bs == [] {
      assert done + bs == done;
    } else {
      var more := MatchVars(bs[1..], rest);
      BindingBack(bs[0], more);
      OneMoreBinding(done, bs[0], more);
      BindingsBack(done + [bs[0]], bs[1..], rest);
      HeadThenTail(done, bs);
    }
  }

  lemma {:induction false} OneMoreBinding(done: seq<MatchVar>, b: MatchVar, more: seq<string>)
    requires WellFormedBinding(b) && Binding(Bound(b, more)) == Done(b, more)
    ensures MoreBindings(done, [","] + Bound(b, more)) == MoreBindings(done + [b], more)
  {
    assert ([","] + Bound(b, more))[1..] == Bound(b, more);
  }

  lemma {:induction false} ProjBack(p: Projection, rest: seq<string>)
    requires WellFormedProj(p) && !Peeks(rest, ".")
    ensures Proj(Projected(p, rest)) == Done(p, rest)
  {
    var ts := Projected(p, rest);
    if p.VarProj? {
      assert ts[1..] == rest;
    } else if p.AttrProj? {
      assert ts[1..][1..][1..] == rest;
    } else {
      assert ts[1..][1..][1..][1..] == rest;
    }
  }

  lemma {:induction false} ProjsBack(done: seq<Projection>, ps: seq<Projection>, rest: seq<string>)
    requires forall p :: p in ps ==> WellFormedProj(p)
    requires !Peeks(rest, ",") && !Peeks(rest, ".")
    ensures MoreProjs(done, Projections(ps, rest)) == Done(done + ps, rest)
    decreases ps
  {
    if ps == [] {
      assert done + ps == done;
    } else {
      var more := Projections(ps[1..], rest);
      ProjBack(ps[0], more);
      assert Projections(ps, rest)[1..] == Projected(ps[0], more);
      ProjsBack(done + [ps[0]], ps[1..], rest);
      HeadThenTail(done, ps);
    }
  }

  lemma {:induction false} ProjListBack(ps: seq<Projection>, rest: seq<string>)
    requires ps != [] && forall p :: p in ps ==> WellFormedProj(p)
    requires !Peeks(rest, ",") && !Peeks(rest, ".")
    ensures ProjList(Projected(ps[0], Projections(ps[1..], rest))) == Done(ps, rest)
  {
    ProjBack(ps[0], Projections(ps[1..], rest));
    ProjsBack([ps[0]], ps[1..], rest);
    assert [ps[0]] + ps[1..] == ps;
  }

  lemma {:induction false} WhereBack(c: Option<Pred>, rest: seq<string>)
    requires c.Some? ==> WellFormedPred(c.value)
    requires Peeks(rest, "select")
    ensures Where(Condition(c, rest)) == Done(c, rest)
  {
    if c.Some? {
      OrBack(c.value, rest);
      assert Condition(c, rest)[1..] == Pr(c.value, 0, rest);
    }
  }

  lemma {:induction false} BindingListBack(bs: seq<MatchVar>, rest: seq<string>)
    requires bs != [] && forall b :: b in bs ==> WellFormedBinding(b)
    requires !Peeks(rest, ",")
    ensures Bindings(Bound(bs[0], MatchVars(bs[1..], rest))) == Done(bs, rest)
  {
    BindingBack(bs[0], MatchVars(bs[1..], rest));
    BindingsBack([bs[0]], bs[1..], rest);
    assert [bs[0]] + bs[1..] == bs;
  }

  lemma {:induction false} MatchBack(q: Query, rest: seq<string>)
    requires WellFormedQuery(q) && !Peeks(rest, ",") && !Peeks(rest, ".")
    ensures Match(Matched(q, rest)) == Done(q, rest)
  {
    var projected := Projected(q.projections[0], Projections(q.projections[1..], rest));
    var selected := ["select"] + projected;
    var conditioned := Condition(q.conditions, selected);
    var bound := Bound(q.bindings[0], MatchVars(q.bindings[1..], conditioned));
    assert Matched(q, rest)[1..] == bound && selected[1..] == projected;
    BindingListBack(q.bindings, conditioned);
    WhereBack(q.conditions, selected);
    ProjListBack(q.projections, rest);
  }

  lemma {:induction false} MetricBack(m: RankMetric, rest: seq<string>)
    requires WellFormedMetric(m)
    ensures Metric([m.func, "(", m.direction, m.name, ")"] + rest) == Done(m, rest)
  {
    var ts := [m.func, "(", m.direction, m.name, ")"] + rest;
    assert ts[1..][1..][1..][1..][1..] == rest;
  }

  lemma {:induction false} LimitBack(limit: Option<nat>)
    ensures var tail := if limit.None? then [] else ["limit", Digits(limit.value)];
            Limit(tail) == Done(limit, []) && !Peeks(tail, "desc")
  {
    if limit.Some? {
      IntDigits(limit.value);
      assert ["limit", Digits(limit.value)][1..] == [Digits(limit.value)];
      assert [Digits(limit.value)][1..] == [];
    }
  }

  lemma {:induction false} DirectionBack(v: string, inner: Query, m: RankMetric, desc: bool, limit: Option<nat>)
    ensures Direction(v, inner, m, Directed(desc, limit)) == Done(RankQuery(inner, v, m, desc, limit), [])
  {
    var tail := if limit.None? then [] else ["limit", Digits(limit.value)];
    LimitBack(limit);
    assert desc ==> (["desc"] + tail)[1..] == tail;
  }

  lemma {:induction false} RankingBack(v: string, inner: Query, m: RankMetric, desc: bool, limit: Option<nat>)
    requires WellFormedMetric(m)
    ensures FinishRank(v, inner, Ranking(m, desc, limit)) == Done(RankQuery(inner, v, m, desc, limit), [])
  {
    var counted := [m.func, "(", m.direction, m.name, ")"] + Directed(desc, limit);
    MetricBack(m, Directed(desc, limit));
    DirectionBack(v, inner, m, desc, limit);
    assert (["by"] + counted)[1..] == counted;
  }

  lemma {:induction false} PathEndsBack(fromName: string, toName: string, via: string)
    requires WellFormed(PathQuery(fromName, toName, via))
    ensures PathEnds(Ends(Quote(fromName), Quote(toName), via)) == Done(PathQuery(fromName, toName, via), [])
  {
    var tail := ["via"] + [via];
    var afterFrom := ["to"] + ([Quote(toName)] + tail);
    QuotedBack(fromName, afterFrom);
    QuotedBack(toName, tail);
    assert afterFrom[1..] == [Quote(toName)] + tail && afterFrom[0] == "to";
    assert tail[1..] == [via] && [via][1..] == [] && tail[0] == "via";
  }

  lemma {:induction false} PathBack(ends: seq<string>)
    ensures AnyQuery(["show", "path", "from"] + ends) == PathEnds(ends)
  {
    var ts := ["show", "path", "from"] + ends;
    assert ts[1..] == ["path", "from"] + ends;
    assert ts[1..][1..] == ["from"] + ends;
    assert ts[1..][1..][1..] == ends;
    assert AnyQuery(ts) == ShowPath(ts);
  }

  lemma {:induction false} RankPrefixBack(inner: Query, v: string, m: RankMetric, desc: bool, limit: Option<nat>)
    requires WellFormedQuery(inner) && WellFormedMetric(m)
    ensures AnyQuery(["rank", v, "in"] + Matched(inner, Ranking(m, desc, limit)))
         == Done(RankQuery(inner, v, m, desc, limit), [])
  {
    var matched := Matched(inner, Ranking(m, desc, limit));
    var ts := ["rank", v, "in"] + matched;
    RankingBack(v, inner, m, desc, limit);
    MatchBack(inner, Ranking(m, desc, limit));
    assert ts[1..][1..][1..] == matched;
    assert AnyQuery(ts) == RankPrefix(ts);
  }

  lemma {:induction false} RankPostfixBack(inner: Query, v: string, m: RankMetric, desc: bool, limit: Option<nat>)
    requires WellFormedQuery(inner) && WellFormedMetric(m)
    ensures AnyQuery(Matched(inner, ["rank", v] + Ranking(m, desc, limit)))
         == Done(RankQuery(inner, v, m, desc, limit), [])
  {
    var more := ["rank", v] + Ranking(m, desc, limit);
    var ts := Matched(inner, more);
    RankingBack(v, inner, m, desc, limit);
    MatchBack(inner, more);
    assert more[1..][1..] == Ranking(m, desc, limit);
    assert AnyQuery(ts) == RankPostfix(inner, more);
  }

  /** Printed either way, a well-formed query parses back to itself. */
  lemma {:induction false} TokensRoundTrip(q: Parsed, prefix: bool)
    requires WellFormed(q)
    ensures ParseTokens(Print(q, prefix)) == Ok(q)
  {
    match q
    case MatchQuery(query) => MatchBack(query, []);
    case PathQuery(fromName, toName, via) =>
      PathBack(Ends(Quote(fromName), Quote(toName), via));
      PathEndsBack(fromName, toName, via);
    case RankQuery(inner, v, metric, desc, limit) =>
      if prefix {
        RankPrefixBack(inner, v, metric, desc, limit);
      } else {
        RankPostfixBack(inner, v, metric, desc, limit);
      }
  }
}
