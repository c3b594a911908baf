/**
 The concrete syntax of CXQ: queries as they are written, with redundant parentheses, values
 quoted either way or not at all, lists with or without commas, a comma after the bindings
 and rankings in front or behind. The parser accepts exactly the tokens of such trees, and
 gives what they mean (cxq/parser.py:243-518).
 */
module CxqConcrete {
  import opened CxqSyntax
  import opened CxqLexer
  import opened CxqGrammar
  import opened CxqRoundTrip
  import opened Options
  import opened Text

  // ---- Trees of tokens -----------------------------------------------------------------------

  /** A list item, and whether a comma follows it. */
  datatype Item = Item(token: string, comma: bool)

  datatype ValueSyntax = One(token: string) | Many(items: seq<Item>)

  datatype PredSyntax =
    | Attr(name: string, attr: string, op: string, value: ValueSyntax)
    | Closure(lhs: string, op: string, rhs: string)
    | Not(inner: PredSyntax)
    | And(left: PredSyntax, right: PredSyntax)
    | Or(left: PredSyntax, right: PredSyntax)
    | Parens(inner: PredSyntax)

  datatype MatchSyntax = MatchSyntax(bindings: seq<MatchVar>, comma: bool, condition: Option<PredSyntax>, projections: seq<Projection>)

  datatype QuerySyntax =
    | Select(query: MatchSyntax)
    | Ranked(query: MatchSyntax, inFront: bool, v: string, direction: string, name: string, desc: bool, limit: Option<string>)
    | Path(fromToken: string, toToken: string, via: string)

  // ---- What they mean --------------------------------------------------------------------------

  /** A quoted token stands for its text without the quotes at its ends, any other for itself. */
  function Content(token: string): string {
    if token != "" && IsQuote(token[0]) then Strip(token, IsQuote) else token
  }

  predicate IsVariable(token: string) {
    token == "" || !IsQuote(token[0])
  }

  function Contents(items: seq<Item>): seq<string> {
    if items == [] then [] else Contents(items[..|items| - 1]) + [Content(items[|items| - 1].token)]
  }

  function PredMeaning(c: PredSyntax): Pred {
    match c
    case Attr(name, attr, op, value) =>
      AttrPred(name, attr, op, if value.One? then Value.Text(Content(value.token)) else Texts(Contents(value.items)))
    case Closure(lhs, op, rhs) => ClosurePred(Content(lhs), op, Content(rhs), IsVariable(lhs), IsVariable(rhs))
    case Not(inner) => NotPred(PredMeaning(inner))
    case And(left, right) => AndPred(PredMeaning(left), PredMeaning(right))
    case Or(left, right) => OrPred(PredMeaning(left), PredMeaning(right))
    case Parens(inner) => PredMeaning(inner)
  }

  function MatchMeaning(c: MatchSyntax): Query {
    Query(c.bindings, if c.condition.Some? then Some(PredMeaning(c.condition.value)) else None, c.projections)
  }

  function Meaning(c: QuerySyntax): Parsed {
    match c
    case Select(query) => MatchQuery(MatchMeaning(query))
    case Ranked(query, _, v, direction, name, desc, limit) =>
      RankQuery(MatchMeaning(query), v, RankMetric("count", direction, name), desc, if limit.Some? then ParseInt(limit.value) else None)
    case Path(fromToken, toToken, via) => PathQuery(Content(fromToken), Content(toToken), via)
  }

  // ---- How they are written: their tokens, followed by `rest` -----------------------------------

  function WriteItems(items: seq<Item>, rest: seq<string>): seq<string> {
    if items == [] then rest
    else [items[0].token] + ((if items[0].comma then [","] else []) + WriteItems(items[1..], rest))
  }

  function WriteValue(v: ValueSyntax, rest: seq<string>): seq<string> {
    match v
    case One(token) => [token] + rest
    case Many(items) => ["["] + WriteItems(items, ["]"] + rest)
  }

  function Write(c: PredSyntax, rest: seq<string>): seq<string> {
    match c
    case Attr(name, attr, op, value) => [name, ".", attr, op] + WriteValue(value, rest)
    case Closure(lhs, op, rhs) => [lhs, op, rhs] + rest
    case Not(inner) => ["not"] + Write(inner, rest)
    case And(left, right) => Write(left, ["and"] + Write(right, rest))
    case Or(left, right) => Write(left, ["or"] + Write(right, rest))
    case Parens(inner) => ["("] + Write(inner, [")"] + rest)
  }

  function WriteCondition(c: Option<PredSyntax>, rest: seq<string>): seq<string> {
    if c.None? then rest else ["where"] + Write(c.value, rest)
  }

  function WriteMatch(c: MatchSyntax, rest: seq<string>): seq<string>
    requires c.bindings != [] && c.projections != []
  {
    var selected := ["select"] + Projected(c.projections[0], Projections(c.projections[1..], rest));
    var after := (if c.comma then [","] else []) + WriteCondition(c.condition, selected);
    ["match"] + Bound(c.bindings[0], MatchVars(c.bindings[1..], after))
  }

  function WriteLimit(limit: Option<string>): seq<string> {
    if limit.None? then [] else ["limit", limit.value]
  }

  function WriteRanking(direction: string, name: string, desc: bool, limit: Option<string>): seq<string> {
    ["by"] + (["count", "(", direction, name, ")"] + ((if desc then ["desc"] else []) + WriteLimit(limit)))
  }

  function WriteQuery(c: QuerySyntax): seq<string>
    requires IsQuery(c)
  {
    match c
    case Select(query) => WriteMatch(query, [])
    case Ranked(query, inFront, v, direction, name, desc, limit) =>
      var ranking := WriteRanking(direction, name, desc, limit);
      if inFront then ["rank", v, "in"] + WriteMatch(query, ranking) else WriteMatch(query, ["rank", v] + ranking)
    case Path(fromToken, toToken, via) => ["show", "path", "from"] + Ends(fromToken, toToken, via)
  }

  // ---- Which trees there are ---------------------------------------------------------------------

  /** An item is not the closing bracket; without a comma after it the next is no comma. */
  predicate AreItems(items: seq<Item>) {
    && (forall x :: x in items ==> x.token != "]")
    && forall i :: 0 < i < |items| && !items[i - 1].comma ==> items[i].token != ","
  }

  predicate IsValue(op: string, v: ValueSyntax) {
    match v
    case One(_) => op == "=" || op == "!=" || op == "~"
    case Many(items) => op == "in" && AreItems(items)
  }

  function LevelOf(c: PredSyntax): nat {
    if c.Or? then 0 else if c.And? then 1 else 2
  }

  /** `and` binds tighter than `or`, `not` tighter than both; both group to the left. */
  predicate IsPred(c: PredSyntax) {
    match c
    case Attr(name, _, op, value) => name != "(" && name != "not" && IsValue(op, value)
    case Closure(lhs, op, _) => lhs != "(" && lhs != "not" && op in CLOSURE_OPS
    case Not(inner) => IsPred(inner) && LevelOf(inner) == 2
    case And(left, right) => IsPred(left) && IsPred(right) && LevelOf(left) >= 1 && LevelOf(right) == 2
    case Or(left, right) => IsPred(left) && IsPred(right) && LevelOf(right) >= 1
    case Parens(inner) => IsPred(inner)
  }

  predicate IsBinding(b: MatchVar) {
    b.kind in KIND_KEYWORDS && b.name !in KEYWORDS
  }

  predicate IsProjection(p: Projection) {
    !p.CountProj? ==> p.name != "count"
  }

  predicate IsMatch(c: MatchSyntax) {
    && c.bindings != [] && (forall b :: b in c.bindings ==> IsBinding(b))
    && (c.condition.Some? ==> IsPred(c.condition.value))
    && c.projections != [] && forall p :: p in c.projections ==> IsProjection(p)
  }

  predicate IsQuery(c: QuerySyntax) {
    match c
    case Select(query) => IsMatch(query)
    case Ranked(query, _, _, direction, _, _, limit) =>
      IsMatch(query) && direction in METRIC_DIRS && (limit.Some? ==> ParseInt(limit.value).Some?)
    case Path(fromToken, toToken, via) => !IsVariable(fromToken) && !IsVariable(toToken) && (via == "calls" || via == "inherits")
  }

  // ---- Written conditions are read back -----------------------------------------------------------

  lemma {:induction false} ValueBack(token: string, rest: seq<string>)
    ensures StringValue([token] + rest) == Done(Content(token), rest)
  {
    assert ([token] + rest)[1..] == rest;
  }

  lemma {:induction false} ContentsFront(items: seq<Item>)
    requires items != []
    ensures Contents(items) == [Content(items[0].token)] + Contents(items[1..])
    decreases |items|
  {
    var front := items[..|items| - 1];
    if front != [] {
      ContentsFront(front);
      assert front[1..] == items[1..][..|items| - 2] && front[0] == items[0];
    } else {
      assert Contents(front) == [] && items[1..] == [];
    }
  }

  lemma {:induction false} TailAreItems(items: seq<Item>)
    requires items != [] && AreItems(items)
    ensures AreItems(items[1..])
  {
    forall i | 0 < i < |items[1..]| && !items[1..][i - 1].comma ensures items[1..][i].token != "," {
      assert items[1..][i - 1] == items[i] && items[1..][i] == items[i + 1];
    }
  }

  /** What follows an item starts with a comma exactly when the item has one. */
  lemma {:induction false} CommaOrNot(items: seq<Item>, rest: seq<string>)
    requires items != [] && AreItems(items)
    ensures var more := WriteItems(items[1..], ["]"] + rest);
            var after := (if items[0].comma then [","] else []) + more;
            (if Peeks(after, ",") then after[1..] else after) == more
  {
    var more := WriteItems(items[1..], ["]"] + rest);
    if items[0].comma {
      assert ([","] + more)[1..] == more;
    } else {
      assert [] + more == more;
      if |items| > 1 {
        assert items[1..][0] == items[1];
      }
    }
  }

  lemma {:induction false} ItemTurn(done: seq<string>, ts: seq<string>)
    requires ts != [] && ts[0] != "]"
    ensures MoreItems(done, ts) == MoreItems(done + [Content(ts[0])], if Peeks(ts[1..], ",") then ts[1..][1..] else ts[1..])
  {
  }

  lemma {:induction false} OneThenMore<T>(done: seq<T>, x: T, more: seq<T>)
    ensures done + [x] + more == done + ([x] + more)
  {
  }

  lemma {:induction false} WrittenItemTurn(done: seq<string>, items: seq<Item>, rest: seq<string>)
    requires items != [] && AreItems(items)
    ensures MoreItems(done, WriteItems(items, ["]"] + rest))
         == MoreItems(done + [Content(items[0].token)], WriteItems(items[1..], ["]"] + rest))
  {
    var ts := WriteItems(items, ["]"] + rest);
    assert ts[0] == items[0].token && ts[1..] == (if items[0].comma then [","] else []) + WriteItems(items[1..], ["]"] + rest);
    ItemTurn(done, ts);
    CommaOrNot(items, rest);
  }

  lemma {:induction false} WrittenItemsBack(done: seq<string>, items: seq<Item>, rest: seq<string>)
    requires AreItems(items)
    ensures MoreItems(done, WriteItems(items, ["]"] + rest)) == Done(done + Contents(items), ["]"] + rest)
    decreases |items|
  {
    if items == [] {
      assert done + Contents(items) == done;
    } else {
      WrittenItemTurn(done, items, rest);
      TailAreItems(items);
      WrittenItemsBack(done + [Content(items[0].token)], items[1..], rest);
      ContentsFront(items);
      OneThenMore(done, Content(items[0].token), Contents(items[1..]));
    }
  }

  lemma {:induction false} WrittenListBack(items: seq<Item>, rest: seq<string>)
    requires AreItems(items)
    ensures ListValue(["["] + WriteItems(items, ["]"] + rest)) == Done(Contents(items), rest)
  {
    var inside := WriteItems(items, ["]"] + rest);
    WrittenItemsBack([], items, rest);
    assert (["["] + inside)[1..] == inside && [] + Contents(items) == Contents(items) && (["]"] + rest)[1..] == rest;
  }

  lemma {:induction false} OperandBack(name: string, attr: string, op: string, v: ValueSyntax, rest: seq<string>)
    requires IsValue(op, v)
    ensures Operand(name, attr, [op] + WriteValue(v, rest))
         == Done(AttrPred(name, attr, op, if v.One? then Value.Text(Content(v.token)) else Texts(Contents(v.items))), rest)
  {
    var ts := [op] + WriteValue(v, rest);
    assert ts[1..] == WriteValue(v, rest);
    match v
    case One(token) => ValueBack(token, rest);
    case Many(items) => WrittenListBack(items, rest);
  }

  lemma {:induction false} WrittenAttrBack(c: PredSyntax, rest: seq<string>)
    requires c.Attr? && IsPred(c)
    ensures NotExpr(Write(c, rest)) == Done(PredMeaning(c), rest)
  {
    var tail := [c.op] + WriteValue(c.value, rest);
    assert Write(c, rest)[3..] == tail;
    AttrDispatch(Write(c, rest), tail);
    OperandBack(c.name, c.attr, c.op, c.value, rest);
  }

  lemma {:induction false} WrittenClosureBack(c: PredSyntax, rest: seq<string>)
    requires c.Closure? && IsPred(c)
    ensures NotExpr(Write(c, rest)) == Done(PredMeaning(c), rest)
  {
    ClosureDispatch([c.lhs, c.op, c.rhs] + rest);
    ClosureTokensBack(c.lhs, c.op, c.rhs, rest);
  }

  lemma {:induction false} WrittenOrBack(c: PredSyntax, rest: seq<string>)
    requires IsPred(c) && !Peeks(rest, "and")
    ensures OrExpr(Write(c, rest)) == OrLoop(PredMeaning(c), rest)
    decreases c, 2
  {
    if c.Or? {
      WrittenOrBack(c.left, ["or"] + Write(c.right, rest));
      WrittenAndBack(c.right, rest);
      OrTurn(PredMeaning(c.left), PredMeaning(c.right), Write(c.right, rest), rest);
    } else {
      WrittenAndBack(c, rest);
    }
  }

  lemma {:induction false} WrittenAndBack(c: PredSyntax, rest: seq<string>)
    requires IsPred(c) && LevelOf(c) >= 1
    ensures AndExpr(Write(c, rest)) == AndLoop(PredMeaning(c), rest)
    decreases c, 1
  {
    if c.And? {
      WrittenAndBack(c.left, ["and"] + Write(c.right, rest));
      WrittenNotBack(c.right, rest);
      AndTurn(PredMeaning(c.left), PredMeaning(c.right), Write(c.right, rest), rest);
    } else {
      WrittenNotBack(c, rest);
    }
  }

  lemma {:induction false} WrittenNotBack(c: PredSyntax, rest: seq<string>)
    requires IsPred(c) && LevelOf(c) == 2
    ensures NotExpr(Write(c, rest)) == Done(PredMeaning(c), rest)
    decreases c, 0
  {
    match c
    case Attr(_, _, _, _) => WrittenAttrBack(c, rest);
    case Closure(_, _, _) => WrittenClosureBack(c, rest);
    case Not(inner) =>
      WrittenNotBack(inner, rest);
      assert Write(c, rest)[1..] == Write(inner, rest);
    case Parens(inner) =>
      WrittenOrBack(inner, [")"] + rest);
      assert Write(c, rest)[1..] == Write(inner, [")"] + rest) && ([")"] + rest)[1..] == rest;
  }

  // ---- Written queries are read back ----------------------------------------------------------------

  lemma {:induction false} WrittenBindingBack(b: MatchVar, rest: seq<string>)
    requires IsBinding(b)
    ensures Binding(Bound(b, rest)) == Done(b, rest)
  {
    assert Bound(b, rest)[2..] == rest;
  }

  lemma {:induction false} NextBindingBack(done: seq<MatchVar>, b: MatchVar, more: seq<string>)
    requires IsBinding(b)
    ensures MoreBindings(done, [","] + Bound(b, more)) == MoreBindings(done + [b], more)
  {
    WrittenBindingBack(b, more);
    assert ([","] + Bound(b, more))[1..] == Bound(b, more);
  }

  lemma {:induction false} WrittenBindingsBack(done: seq<MatchVar>, bs: seq<MatchVar>, comma: bool, rest: seq<string>)
    requires forall b :: b in bs ==> IsBinding(b)
    requires Peeks(rest, "where") || Peeks(rest, "select")
    ensures MoreBindings(done, MatchVars(bs, (if comma then [","] else []) + rest)) == Done(done + bs, rest)
    decreases bs
  {
    var after := (if comma then [","] else []) + rest;
    if bs == [] {
      assert done + bs == done && (if comma then after[1..] else after) == rest;
    } else {
      NextBindingBack(done, bs[0], MatchVars(bs[1..], after));
      WrittenBindingsBack(done + [bs[0]], bs[1..], comma, rest);
      HeadThenTail(done, bs);
    }
  }

  lemma {:induction false} WrittenWhereBack(c: Option<PredSyntax>, rest: seq<string>)
    requires (c.Some? ==> IsPred(c.value)) && Peeks(rest, "select")
    ensures Where(WriteCondition(c, rest)) == Done(if c.Some? then Some(PredMeaning(c.value)) else None, rest)
  {
    if c.Some? {
      WrittenOrBack(c.value, rest);
      assert WriteCondition(c, rest)[1..] == Write(c.value, rest);
    }
  }

  lemma {:induction false} WrittenProjBack(p: Projection, rest: seq<string>)
    requires IsProjection(p) && !Peeks(rest, ".")
    ensures Proj(Projected(p, rest)) == Done(p, rest)
  {
    var ts := Projected(p, rest);
    if p.VarProj? {
      assert ts[1..] == rest;
    } else if p.AttrProj? {
      assert ts[1..][1..][1..] == rest;
    } else {
      assert ts[1..][1..][1..][1..] == rest;
    }
  }

  lemma {:induction false} WrittenProjsBack(done: seq<Projection>, ps: seq<Projection>, rest: seq<string>)
    requires (forall p :: p in ps ==> IsProjection(p)) && !Peeks(rest, ",") && !Peeks(rest, ".")
    ensures MoreProjs(done, Projections(ps, rest)) == Done(done + ps, rest)
    decreases ps
  {
    if ps == [] {
      assert done + ps == done;
    } else {
      var more := Projections(ps[1..], rest);
      WrittenProjBack(ps[0], more);
      assert Projections(ps, rest)[1..] == Projected(ps[0], more);
      WrittenProjsBack(done + [ps[0]], ps[1..], rest);
      HeadThenTail(done, ps);
    }
  }

  lemma {:induction false} WrittenBindingListBack(c: MatchSyntax, rest: seq<string>)
    requires IsMatch(c) && (Peeks(rest, "where") || Peeks(rest, "select"))
    ensures Bindings(Bound(c.bindings[0], MatchVars(c.bindings[1..], (if c.comma then [","] else []) + rest))) == Done(c.bindings, rest)
  {
    var more := MatchVars(c.bindings[1..], (if c.comma then [","] else []) + rest);
    WrittenBindingBack(c.bindings[0], more);
    assert Bindings(Bound(c.bindings[0], more)) == MoreBindings([c.bindings[0]], more);
    WrittenBindingsBack([c.bindings[0]], c.bindings[1..], c.comma, rest);
    assert [c.bindings[0]] + c.bindings[1..] == c.bindings;
  }

  lemma {:induction false} WrittenProjListBack(ps: seq<Projection>, rest: seq<string>)
    requires ps != [] && (forall p :: p in ps ==> IsProjection(p)) && !Peeks(rest, ",") && !Peeks(rest, ".")
    ensures ProjList(Projected(ps[0], Projections(ps[1..], rest))) == Done(ps, rest)
  {
    WrittenProjBack(ps[0], Projections(ps[1..], rest));
    WrittenProjsBack([ps[0]], ps[1..], rest);
    assert [ps[0]] + ps[1..] == ps;
  }

  lemma {:induction false} WrittenMatchBack(c: MatchSyntax, rest: seq<string>)
    requires IsMatch(c) && !Peeks(rest, ",") && !Peeks(rest, ".")
    ensures Match(WriteMatch(c, rest)) == Done(MatchMeaning(c), rest)
  {
    var projected := Projected(c.projections[0], Projections(c.projections[1..], rest));
    var selected := ["select"] + projected;
    var conditioned := WriteCondition(c.condition, selected);
    var bound := Bound(c.bindings[0], MatchVars(c.bindings[1..], (if c.comma then [","] else []) + conditioned));
    assert WriteMatch(c, rest)[1..] == bound && selected[1..] == projected;
    WrittenBindingListBack(c, conditioned);
    WrittenWhereBack(c.condition, selected);
    WrittenProjListBack(c.projections, rest);
  }

  lemma {:induction false} WrittenLimitBack(limit: Option<string>)
    requires limit.Some? ==> ParseInt(limit.value).Some?
    ensures Limit(WriteLimit(limit)) == Done(if limit.Some? then ParseInt(limit.value) else None, [])
  {
    if limit.Some? {
      assert ["limit", limit.value][1..] == [limit.value] && [limit.value][1..] == [];
    }
  }

  lemma {:induction false} WrittenDirectionBack(v: string, inner: Query, m: RankMetric, desc: bool, limit: Option<string>)
    requires limit.Some? ==> ParseInt(limit.value).Some?
    ensures Direction(v, inner, m, (if desc then ["desc"] else []) + WriteLimit(limit))
         == Done(RankQuery(inner, v, m, desc, if limit.Some? then ParseInt(limit.value) else None), [])
  {
    var directed := (if desc then ["desc"] else []) + WriteLimit(limit);
    WrittenLimitBack(limit);
    if desc {
      assert directed[1..] == WriteLimit(limit);
    } else {
      assert directed == WriteLimit(limit);
    }
  }

  lemma {:induction false} WrittenMetricBack(direction: string, name: string, rest: seq<string>)
    requires direction in METRIC_DIRS
    ensures Metric(["count", "(", direction, name, ")"] + rest) == Done(RankMetric("count", direction, name), rest)
  {
    var ts := ["count", "(", direction, name, ")"] + rest;
    assert ts[1..][1..][1..][1..][1..] == rest;
  }

  lemma {:induction false} WrittenRankingBack(v: string, inner: Query, direction: string, name: string, desc: bool, limit: Option<string>)
    requires direction in METRIC_DIRS && (limit.Some? ==> ParseInt(limit.value).Some?)
    ensures FinishRank(v, inner, WriteRanking(direction, name, desc, limit))
         == Done(RankQuery(inner, v, RankMetric("count", direction, name), desc, if limit.Some? then ParseInt(limit.value) else None), [])
  {
    var directed := (if desc then ["desc"] else []) + WriteLimit(limit);
    var counted := ["count", "(", direction, name, ")"] + directed;
    assert (["by"] + counted)[1..] == counted;
    WrittenMetricBack(direction, name, directed);
    WrittenDirectionBack(v, inner, RankMetric("count", direction, name), desc, limit);
  }

  lemma {:induction false} WrittenPathBack(a: string, b: string, via: string)
    requires !IsVariable(a) && !IsVariable(b) && (via == "calls" || via == "inherits")
    ensures PathEnds(Ends(a, b, via)) == Done(PathQuery(Content(a), Content(b), via), [])
  {
    var tail := ["via"] + [via];
    var afterFrom := ["to"] + ([b] + tail);
    assert ([a] + afterFrom)[1..] == afterFrom && afterFrom[1..] == [b] + tail && ([b] + tail)[1..] == tail;
    assert tail[1..] == [via] && [via][1..] == [];
  }

  lemma {:induction false} WrittenPrefixBack(c: QuerySyntax)
    requires c.Ranked? && IsQuery(c) && c.inFront
    ensures AnyQuery(WriteQuery(c)) == Done(Meaning(c), [])
  {
    var ranking := WriteRanking(c.direction, c.name, c.desc, c.limit);
    var matched := WriteMatch(c.query, ranking);
    WrittenRankingBack(c.v, MatchMeaning(c.query), c.direction, c.name, c.desc, c.limit);
    WrittenMatchBack(c.query, ranking);
    PrefixTurn(c.v, matched);
  }

  lemma {:induction false} PrefixTurn(v: string, matched: seq<string>)
    requires Match(matched).Done?
    ensures AnyQuery(["rank", v, "in"] + matched) == FinishRank(v, Match(matched).value, Match(matched).rest)
  {
    var ts := ["rank", v, "in"] + matched;
    assert ts[1..][1..][1..] == matched && ts[1..][0] == v;
    assert AnyQuery(ts) == RankPrefix(ts);
  }

  lemma {:induction false} WrittenPostfixBack(c: QuerySyntax)
    requires c.Ranked? && IsQuery(c) && !c.inFront
    ensures AnyQuery(WriteQuery(c)) == Done(Meaning(c), [])
  {
    var ranking := WriteRanking(c.direction, c.name, c.desc, c.limit);
    WrittenRankingBack(c.v, MatchMeaning(c.query), c.direction, c.name, c.desc, c.limit);
    WrittenMatchBack(c.query, ["rank", c.v] + ranking);
    PostfixTurn(WriteQuery(c), MatchMeaning(c.query), c.v, ranking);
  }

  lemma {:induction false} PostfixTurn(ts: seq<string>, inner: Query, v: string, ranking: seq<string>)
    requires Peeks(ts, "match") && Match(ts) == Done(inner, ["rank", v] + ranking)
    ensures AnyQuery(ts) == FinishRank(v, inner, ranking)
  {
    var more := ["rank", v] + ranking;
    assert more[1..][1..] == ranking && more[1..][0] == v;
    assert AnyQuery(ts) == RankPostfix(inner, more);
  }

  lemma {:induction false} WrittenRankBack(c: QuerySyntax)
    requires c.Ranked? && IsQuery(c)
    ensures AnyQuery(WriteQuery(c)) == Done(Meaning(c), [])
  {
    if c.inFront {
      WrittenPrefixBack(c);
    } else {
      WrittenPostfixBack(c);
    }
  }

  /** The tokens of a concrete query parse to what it means. */
  lemma {:induction false} WrittenBack(c: QuerySyntax)
    requires IsQuery(c)
    ensures ParseTokens(WriteQuery(c)) == Ok(Meaning(c))
  {
    match c
    case Select(query) => WrittenMatchBack(query, []);
    case Ranked(_, _, _, _, _, _, _) => WrittenRankBack(c);
    case Path(a, b, via) =>
      PathBack(Ends(a, b, via));
      WrittenPathBack(a, b, via);
  }

  // ---- Whatever is read was so written -----------------------------------------------------------------

  lemma {:induction false} ItemsRead(done: seq<string>, ts: seq<string>) returns (items: seq<Item>)
    requires MoreItems(done, ts).Done?
    ensures var r := MoreItems(done, ts);
            AreItems(items) && r.value == done + Contents(items) && WriteItems(items, r.rest) == ts
    decreases |ts|
  {
    if Peeks(ts, "]") {
      items := [];
      assert done + Contents(items) == done;
    } else {
      var after := if Peeks(ts[1..], ",") then ts[1..][1..] else ts[1..];
      ItemTurn(done, ts);
      var more := ItemsRead(done + [Content(ts[0])], after);
      items := [Item(ts[0], Peeks(ts[1..], ","))] + more;
      ItemsReadOn(ts, more, MoreItems(done, ts).rest);
      OneThenMore(done, Content(ts[0]), Contents(more));
    }
  }

  lemma {:induction false} ItemsReadOn(ts: seq<string>, more: seq<Item>, rest: seq<string>)
    requires ts != [] && ts[0] != "]" && AreItems(more)
    requires WriteItems(more, rest) == if Peeks(ts[1..], ",") then ts[1..][1..] else ts[1..]
    ensures var items := [Item(ts[0], Peeks(ts[1..], ","))] + more;
            AreItems(items) && Contents(items) == [Content(ts[0])] + Contents(more) && WriteItems(items, rest) == ts
  {
    var comma := Peeks(ts[1..], ",");
    var items := [Item(ts[0], comma)] + more;
    assert items[1..] == more && items[0] == Item(ts[0], comma);
    ContentsFront(items);
    if !comma && more != [] {
      assert more[0].token == ts[1..][0];
    }
    OneMoreItem(Item(ts[0], comma), more);
    assert WriteItems(items, rest) == [ts[0]] + ((if comma then [","] else []) + WriteItems(more, rest));
    CommaBack(ts);
  }

  lemma {:induction false} CommaBack(ts: seq<string>)
    requires ts != []
    ensures ts == [ts[0]] + (if Peeks(ts[1..], ",") then [","] + ts[1..][1..] else [] + ts[1..])
  {
  }

  lemma {:induction false} OneMoreItem(item: Item, more: seq<Item>)
    requires item.token != "]" && AreItems(more) && (!item.comma && more != [] ==> more[0].token != ",")
    ensures AreItems([item] + more)
  {
    var items := [item] + more;
    forall i | 0 < i < |items| && !items[i - 1].comma ensures items[i].token != "," {
      assert items[i] == more[i - 1];
      if i > 1 {
        assert items[i - 1] == more[i - 2];
      }
    }
  }

  lemma {:induction false} OperandRead(name: string, attr: string, ts: seq<string>) returns (op: string, v: ValueSyntax)
    requires Operand(name, attr, ts).Done?
    ensures IsValue(op, v) && [op] + WriteValue(v, Operand(name, attr, ts).rest) == ts
    ensures Operand(name, attr, ts).value
         == AttrPred(name, attr, op, if v.One? then Value.Text(Content(v.token)) else Texts(Contents(v.items)))
  {
    op := ts[0];
    var after := ts[1..];
    assert ts == [op] + after;
    if op == "in" {
      var items := ItemsRead([], after[1..]);
      v := Many(items);
      ListRead(after, items);
    } else {
      v := One(after[0]);
      assert after == [after[0]] + after[1..];
    }
  }

  lemma {:induction false} ListRead(ts: seq<string>, items: seq<Item>)
    requires ListValue(ts).Done?
    requires var r := MoreItems([], ts[1..]); r.Done? && r.value == [] + Contents(items) && WriteItems(items, r.rest) == ts[1..]
    ensures ListValue(ts).value == Contents(items) && WriteValue(Many(items), ListValue(ts).rest) == ts
  {
    var r := MoreItems([], ts[1..]);
    assert r.rest == ["]"] + r.rest[1..] && ts == ["["] + ts[1..] && [] + Contents(items) == Contents(items);
  }

  lemma {:induction false} AttrRead(ts: seq<string>) returns (c: PredSyntax)
    requires AttrPredicate(ts).Done? && ts[0] != "(" && ts[0] != "not"
    ensures IsPred(c) && LevelOf(c) == 2 && PredMeaning(c) == AttrPredicate(ts).value && Write(c, AttrPredicate(ts).rest) == ts
  {
    var name, attr, after := ts[0], ts[1..][1..][0], ts[1..][1..][1..];
    var op, v := OperandRead(name, attr, after);
    c := Attr(name, attr, op, v);
    assert ts == [name, ".", attr] + after;
    assert [name, ".", attr] + ([op] + WriteValue(v, AttrPredicate(ts).rest)) == [name, ".", attr, op] + WriteValue(v, AttrPredicate(ts).rest);
  }

  lemma {:induction false} ClosureRead(ts: seq<string>) returns (c: PredSyntax)
    requires ClosurePredicate(ts).Done? && ts[0] != "(" && ts[0] != "not" && ts[1] in CLOSURE_OPS
    ensures IsPred(c) && LevelOf(c) == 2 && PredMeaning(c) == ClosurePredicate(ts).value && Write(c, ClosurePredicate(ts).rest) == ts
  {
    var lhs, op, rhs := ts[0], ts[1..][0], ts[1..][1..][0];
    c := Closure(lhs, op, rhs);
    assert ts == [lhs, op, rhs] + ts[1..][1..][1..];
    ClosureTokensBack(lhs, op, rhs, ts[1..][1..][1..]);
  }

  lemma {:induction false} OrRead(ts: seq<string>) returns (c: PredSyntax)
    requires OrExpr(ts).Done?
    ensures IsPred(c) && PredMeaning(c) == OrExpr(ts).value && Write(c, OrExpr(ts).rest) == ts
    decreases |ts|, 5
  {
    var left := AndRead(ts);
    c := OrLoopRead(left, AndExpr(ts).rest);
  }

  lemma {:induction false} OrLoopRead(left: PredSyntax, ts: seq<string>) returns (c: PredSyntax)
    requires IsPred(left) && OrLoop(PredMeaning(left), ts).Done?
    ensures var r := OrLoop(PredMeaning(left), ts); IsPred(c) && PredMeaning(c) == r.value && Write(c, r.rest) == Write(left, ts)
    decreases |ts|, 0
  {
    if Peeks(ts, "or") {
      var right := AndRead(ts[1..]);
      JoinedWrites(left, right, ts, AndExpr(ts[1..]).rest);
      c := OrLoopRead(Or(left, right), AndExpr(ts[1..]).rest);
    } else {
      c := left;
    }
  }

  /** What is written for two operands is what is written for the left one before the operator and the right one. */
  lemma {:induction false} JoinedWrites(left: PredSyntax, right: PredSyntax, ts: seq<string>, rest: seq<string>)
    requires ts != [] && Write(right, rest) == ts[1..]
    ensures ts[0] == "or" ==> Write(Or(left, right), rest) == Write(left, ts)
    ensures ts[0] == "and" ==> Write(And(left, right), rest) == Write(left, ts)
  {
    assert ts == [ts[0]] + ts[1..];
  }

  lemma {:induction false} AndRead(ts: seq<string>) returns (c: PredSyntax)
    requires AndExpr(ts).Done?
    ensures IsPred(c) && LevelOf(c) >= 1 && PredMeaning(c) == AndExpr(ts).value && Write(c, AndExpr(ts).rest) == ts
    decreases |ts|, 4
  {
    var left := NotRead(ts);
    c := AndLoopRead(left, NotExpr(ts).rest);
  }

  lemma {:induction false} AndLoopRead(left: PredSyntax, ts: seq<string>) returns (c: PredSyntax)
    requires IsPred(left) && LevelOf(left) >= 1 && AndLoop(PredMeaning(left), ts).Done?
    ensures var r := AndLoop(PredMeaning(left), ts);
            IsPred(c) && LevelOf(c) >= 1 && PredMeaning(c) == r.value && Write(c, r.rest) == Write(left, ts)
    decreases |ts|, 0
  {
    if Peeks(ts, "and") {
      var right := NotRead(ts[1..]);
      JoinedWrites(left, right, ts, NotExpr(ts[1..]).rest);
      c := AndLoopRead(And(left, right), NotExpr(ts[1..]).rest);
    } else {
      c := left;
    }
  }

  lemma {:induction false} NotRead(ts: seq<string>) returns (c: PredSyntax)
    requires NotExpr(ts).Done?
    ensures IsPred(c) && LevelOf(c) == 2 && PredMeaning(c) == NotExpr(ts).value && Write(c, NotExpr(ts).rest) == ts
    decreases |ts|, 3
  {
    if Peeks(ts, "not") {
      var inner := NotRead(ts[1..]);
      c := Not(inner);
      assert ts == ["not"] + ts[1..];
    } else {
      c := PrimaryRead(ts);
    }
  }

  lemma {:induction false} PrimaryRead(ts: seq<string>) returns (c: PredSyntax)
    requires PrimaryPred(ts).Done? && !Peeks(ts, "not")
    ensures IsPred(c) && LevelOf(c) == 2 && PredMeaning(c) == PrimaryPred(ts).value && Write(c, PrimaryPred(ts).rest) == ts
    decreases |ts|, 2
  {
    if Peeks(ts, "(") {
      var inner := OrRead(ts[1..]);
      c := Parens(inner);
      var after := OrExpr(ts[1..]).rest;
      assert ts == ["("] + ts[1..] && after == [")"] + after[1..];
    } else if |ts| > 1 && ts[1] in CLOSURE_OPS {
      c := ClosureRead(ts);
    } else {
      c := AttrRead(ts);
    }
  }

  lemma {:induction false} MoreBindingsRead(done: seq<MatchVar>, ts: seq<string>) returns (bs: seq<MatchVar>, comma: bool)
    requires MoreBindings(done, ts).Done?
    ensures var r := MoreBindings(done, ts);
            && r.value == done + bs && (forall b :: b in bs ==> IsBinding(b))
            && MatchVars(bs, (if comma then [","] else []) + r.rest) == ts
    decreases |ts|
  {
    if !Peeks(ts, ",") {
      bs, comma := [], false;
      assert done + [] == done && [] + ts == ts;
    } else if |ts| > 1 && ts[1] in KIND_KEYWORDS {
      var b := MatchVar(ts[1], ts[2]);
      MoreBindingsTurn(done, ts);
      var more;
      more, comma := MoreBindingsRead(done + [b], ts[3..]);
      bs := [b] + more;
      OneThenMore(done, b, more);
      assert bs[1..] == more && bs[0] == b;
    } else {
      bs, comma := [], true;
      assert done + [] == done && ts == [","] + ts[1..];
    }
  }

  lemma {:induction false} MoreBindingsTurn(done: seq<MatchVar>, ts: seq<string>)
    requires Peeks(ts, ",") && |ts| > 1 && ts[1] in KIND_KEYWORDS && MoreBindings(done, ts).Done?
    ensures |ts| >= 3 && IsBinding(MatchVar(ts[1], ts[2])) && ts == [","] + Bound(MatchVar(ts[1], ts[2]), ts[3..])
    ensures MoreBindings(done, ts) == MoreBindings(done + [MatchVar(ts[1], ts[2])], ts[3..])
  {
    assert ts[1..][2..] == ts[3..];
  }

  lemma {:induction false} BindingsRead(ts: seq<string>) returns (bs: seq<MatchVar>, comma: bool)
    requires Bindings(ts).Done?
    ensures var r := Bindings(ts);
            && bs != [] && r.value == bs && (forall b :: b in bs ==> IsBinding(b))
            && Bound(bs[0], MatchVars(bs[1..], (if comma then [","] else []) + r.rest)) == ts
  {
    var b := MatchVar(ts[0], ts[1]);
    BindingTurn(ts);
    var more;
    more, comma := MoreBindingsRead([b], ts[2..]);
    bs := [b] + more;
    assert bs[1..] == more && bs[0] == b;
  }

  lemma {:induction false} BindingTurn(ts: seq<string>)
    requires Bindings(ts).Done?
    ensures |ts| >= 2 && IsBinding(MatchVar(ts[0], ts[1])) && Bindings(ts) == MoreBindings([MatchVar(ts[0], ts[1])], ts[2..])
    ensures ts == Bound(MatchVar(ts[0], ts[1]), ts[2..])
  {
  }

  lemma {:induction false} ProjRead(ts: seq<string>)
    requires Proj(ts).Done?
    ensures IsProjection(Proj(ts).value) && Projected(Proj(ts).value, Proj(ts).rest) == ts
  {
    if Peeks(ts, "count") {
      assert ts == ["count", "(", ts[1..][1..][0], ")"] + ts[1..][1..][1..][1..];
    } else if Peeks(ts[1..], ".") {
      assert ts == [ts[0], ".", ts[1..][1..][0]] + ts[1..][1..][1..];
    } else {
      assert ts == [ts[0]] + ts[1..];
    }
  }

  lemma {:induction false} MoreProjsRead(done: seq<Projection>, ts: seq<string>) returns (ps: seq<Projection>)
    requires MoreProjs(done, ts).Done?
    ensures var r := MoreProjs(done, ts);
            r.value == done + ps && (forall p :: p in ps ==> IsProjection(p)) && Projections(ps, r.rest) == ts
    decreases |ts|
  {
    if !Peeks(ts, ",") {
      ps := [];
      assert done + [] == done;
    } else {
      var p := Proj(ts[1..]);
      ProjRead(ts[1..]);
      ProjTurn(done, ts);
      var more := MoreProjsRead(done + [p.value], p.rest);
      ps := [p.value] + more;
      OneThenMore(done, p.value, more);
      assert ps[1..] == more && ps[0] == p.value;
    }
  }

  lemma {:induction false} ProjTurn(done: seq<Projection>, ts: seq<string>)
    requires Peeks(ts, ",") && Proj(ts[1..]).Done?
    ensures MoreProjs(done, ts) == MoreProjs(done + [Proj(ts[1..]).value], Proj(ts[1..]).rest) && ts == [","] + ts[1..]
  {
  }

  /** The projections behind `select`. */
  lemma {:induction false} ProjsRead(ts: seq<string>) returns (ps: seq<Projection>)
    requires ProjList(ts).Done?
    ensures ps != [] && ps == ProjList(ts).value && forall p :: p in ps ==> IsProjection(p)
    ensures Projected(ps[0], Projections(ps[1..], ProjList(ts).rest)) == ts
  {
    var first := Proj(ts);
    ProjRead(ts);
    var more := MoreProjsRead([first.value], first.rest);
    ps := [first.value] + more;
    assert ps[1..] == more;
  }

  /** What the production reads, part by part. */
  lemma {:induction false} MatchParts(ts: seq<string>)
    requires Match(ts).Done?
    ensures ts == ["match"] + ts[1..] && Bindings(ts[1..]).Done? && Where(Bindings(ts[1..]).rest).Done?
    ensures var w := Where(Bindings(ts[1..]).rest);
            && w.rest == ["select"] + w.rest[1..] && ProjList(w.rest[1..]).Done?
            && Match(ts) == Done(Query(Bindings(ts[1..]).value, w.value, ProjList(w.rest[1..]).value), ProjList(w.rest[1..]).rest)
  {
  }

  lemma {:induction false} MatchAssembled(c: MatchSyntax, rest: seq<string>, bindings: seq<string>, where_: seq<string>,
                                          select_: seq<string>, projs: seq<string>)
    requires c.bindings != [] && c.projections != []
    requires Bound(c.bindings[0], MatchVars(c.bindings[1..], (if c.comma then [","] else []) + where_)) == bindings
    requires WriteCondition(c.condition, select_) == where_ && select_ == ["select"] + projs
    requires Projected(c.projections[0], Projections(c.projections[1..], rest)) == projs
    ensures WriteMatch(c, rest) == ["match"] + bindings
  {
  }

  lemma {:induction false} MatchRead(ts: seq<string>) returns (c: MatchSyntax)
    requires Match(ts).Done?
    ensures IsMatch(c) && MatchMeaning(c) == Match(ts).value && WriteMatch(c, Match(ts).rest) == ts
  {
    MatchParts(ts);
    var bs, comma := BindingsRead(ts[1..]);
    var afterBindings := Bindings(ts[1..]).rest;
    var condition := WhereRead(afterBindings);
    var afterWhere := Where(afterBindings).rest;
    var ps := ProjsRead(afterWhere[1..]);
    c := MatchSyntax(bs, comma, condition, ps);
    MatchAssembled(c, Match(ts).rest, ts[1..], afterBindings, afterWhere, afterWhere[1..]);
  }

  lemma {:induction false} WhereRead(ts: seq<string>) returns (c: Option<PredSyntax>)
    requires Where(ts).Done?
    ensures var r := Where(ts);
            && (c.Some? ==> IsPred(c.value)) && r.value == (if c.Some? then Some(PredMeaning(c.value)) else None)
            && WriteCondition(c, r.rest) == ts
  {
    if Peeks(ts, "where") {
      var pred := OrRead(ts[1..]);
      c := Some(pred);
      assert ts == ["where"] + ts[1..];
    } else {
      c := None;
    }
  }

  lemma {:induction false} RankingRead(v: string, inner: Query, ts: seq<string>)
    returns (direction: string, name: string, desc: bool, limit: Option<string>)
    requires var r := FinishRank(v, inner, ts); r.Done? && r.rest == []
    ensures direction in METRIC_DIRS && (limit.Some? ==> ParseInt(limit.value).Some?)
    ensures WriteRanking(direction, name, desc, limit) == ts
    ensures FinishRank(v, inner, ts).value
         == RankQuery(inner, v, RankMetric("count", direction, name), desc, if limit.Some? then ParseInt(limit.value) else None)
  {
    var counted := ts[1..];
    direction, name := counted[1..][1..][0], counted[1..][1..][1..][0];
    var after := counted[1..][1..][1..][1..][1..];
    desc := Peeks(after, "desc");
    var last := if desc then after[1..] else after;
    limit := if Peeks(last, "limit") then Some(last[1..][0]) else None;
    MetricRead(counted);
    LimitRead(last);
    assert ts == ["by"] + counted;
    assert after == (if desc then ["desc"] else []) + last;
  }

  lemma {:induction false} MetricRead(ts: seq<string>)
    requires Metric(ts).Done?
    ensures |ts| >= 5 && var direction, name, after := ts[1..][1..][0], ts[1..][1..][1..][0], ts[1..][1..][1..][1..][1..];
            && direction in METRIC_DIRS && Metric(ts) == Done(RankMetric("count", direction, name), after)
            && ts == ["count", "(", direction, name, ")"] + after
  {
  }

  lemma {:induction false} LimitRead(ts: seq<string>)
    requires var r := Limit(ts); r.Done? && r.rest == []
    ensures var limit := if Peeks(ts, "limit") then Some(ts[1..][0]) else None;
            && (limit.Some? ==> ParseInt(limit.value).Some?)
            && Limit(ts).value == (if limit.Some? then ParseInt(limit.value) else None) && WriteLimit(limit) == ts
  {
  }

  lemma {:induction false} ShowRead(ts: seq<string>)
    requires ShowPath(ts).Done?
    ensures |ts| >= 3 && ts == ["show", "path", "from"] + ts[1..][1..][1..] && ShowPath(ts) == PathEnds(ts[1..][1..][1..])
  {
  }

  lemma {:induction false} PathRead(ts: seq<string>) returns (c: QuerySyntax)
    requires var r := ShowPath(ts); r.Done? && r.rest == []
    ensures IsQuery(c) && Meaning(c) == ShowPath(ts).value && WriteQuery(c) == ts
  {
    ShowRead(ts);
    var ends := ts[1..][1..][1..];
    EndsRead(ends);
    c := Path(ends[0], ends[1..][1..][0], ends[1..][1..][1..][1..][0]);
  }

  lemma {:induction false} EndsRead(ts: seq<string>)
    requires var r := PathEnds(ts); r.Done? && r.rest == []
    ensures |ts| == 5 && var a, b, via := ts[0], ts[1..][1..][0], ts[1..][1..][1..][1..][0];
            && !IsVariable(a) && !IsVariable(b) && (via == "calls" || via == "inherits")
            && PathEnds(ts).value == PathQuery(Content(a), Content(b), via) && ts == Ends(a, b, via)
  {
  }

  lemma {:induction false} PrefixRead(ts: seq<string>) returns (c: QuerySyntax)
    requires var r := RankPrefix(ts); r.Done? && r.rest == []
    ensures IsQuery(c) && Meaning(c) == RankPrefix(ts).value && WriteQuery(c) == ts
  {
    var v, after := ts[1..][0], ts[1..][1..][1..];
    var query := MatchRead(after);
    var direction, name, desc, limit := RankingRead(v, Match(after).value, Match(after).rest);
    c := Ranked(query, true, v, direction, name, desc, limit);
    assert ts == ["rank", v, "in"] + after;
  }

  lemma {:induction false} PostfixRead(ts: seq<string>) returns (c: QuerySyntax)
    requires Match(ts).Done? && Peeks(Match(ts).rest, "rank")
    requires var r := RankPostfix(Match(ts).value, Match(ts).rest); r.Done? && r.rest == []
    ensures IsQuery(c) && Meaning(c) == RankPostfix(Match(ts).value, Match(ts).rest).value && WriteQuery(c) == ts
  {
    var query := MatchRead(ts);
    var more := Match(ts).rest;
    var v, after := more[1..][0], more[1..][1..];
    var direction, name, desc, limit := RankingRead(v, Match(ts).value, after);
    c := Ranked(query, false, v, direction, name, desc, limit);
    assert more == ["rank", v] + after;
  }

  lemma {:induction false} QueryRead(ts: seq<string>) returns (c: QuerySyntax)
    requires ParseTokens(ts).Ok?
    ensures IsQuery(c) && Meaning(c) == ParseTokens(ts).value && WriteQuery(c) == ts
  {
    if Peeks(ts, "show") {
      c := PathRead(ts);
    } else if Peeks(ts, "rank") {
      c := PrefixRead(ts);
    } else if Peeks(Match(ts).rest, "rank") {
      c := PostfixRead(ts);
    } else {
      var query := MatchRead(ts);
      c := Select(query);
    }
  }

  // ---- The parser, exactly ---------------------------------------------------------------------------

  /** A list of tokens parses to a tree exactly when it is a way of writing a query that means that tree. */
  lemma {:induction false} ParsesIff(ts: seq<string>, q: Parsed)
    ensures ParseTokens(ts) == Ok(q) <==> exists c :: IsQuery(c) && WriteQuery(c) == ts && Meaning(c) == q
  {
    if ParseTokens(ts) == Ok(q) {
      var c := QueryRead(ts);
    }
    forall c | IsQuery(c) && WriteQuery(c) == ts && Meaning(c) == q ensures ParseTokens(ts) == Ok(q) {
      WrittenBack(c);
    }
  }

  /** A text parses to a tree exactly when its tokens are such a way of writing it. */
  lemma {:induction false} TextParsesIff(text: string, q: Parsed)
    ensures Parse(text) == Ok(q) <==> exists c :: IsQuery(c) && Lex(Trim(text)) == Ok(WriteQuery(c)) && Meaning(c) == q
  {
    if Lex(Trim(text)).Ok? {
      ParsesIff(Lex(Trim(text)).value, q);
    }
  }

  // ---- Numbers -----------------------------------------------------------------------------------------

  function Zeros(k: nat): string {
    if k == 0 then "" else "0" + Zeros(k - 1)
  }

  /** A limit is read as a number exactly when it is that number in decimal, behind any zeros. */
  lemma {:induction false} LimitIff(t: string, n: nat)
    ensures ParseInt(t) == Some(n) <==> exists k :: t == Zeros(k) + Digits(n)
  {
    if ParseInt(t) == Some(n) {
      var k := NumberRead(t, n);
    }
    forall k | t == Zeros(k) + Digits(n) ensures ParseInt(t) == Some(n) {
      NumberBack(k, n);
    }
  }

  lemma {:induction false} ZerosAreDigits(k: nat)
    ensures forall i :: 0 <= i < |Zeros(k)| ==> IsDigit(Zeros(k)[i])
  {
    if k > 0 {
      ZerosAreDigits(k - 1);
    }
  }

  lemma {:induction false} ZerosAddNothing(k: nat, s: string)
    requires forall i :: 0 <= i < |s| ==> IsDigit(s[i])
    ensures (forall i :: 0 <= i < |Zeros(k) + s| ==> IsDigit((Zeros(k) + s)[i])) && DecimalValue(Zeros(k) + s) == DecimalValue(s)
    decreases k, |s|
  {
    ZerosAreDigits(k);
    if s != "" {
      ZerosAddNothing(k, s[..|s| - 1]);
      assert (Zeros(k) + s)[..|Zeros(k) + s| - 1] == Zeros(k) + s[..|s| - 1];
    } else if k > 0 {
      ZerosAddNothing(k - 1, "0");
      ZerosEnd(k - 1);
      assert Zeros(k) + "" == Zeros(k - 1) + "0" && "0"[..0] == "";
    } else {
      assert "" + "" == "";
    }
  }

  lemma {:induction false} ZerosEnd(k: nat)
    ensures "0" + Zeros(k) == Zeros(k) + "0"
  {
    if k > 0 {
      ZerosEnd(k - 1);
      assert "0" + (Zeros(k - 1) + "0") == "0" + Zeros(k - 1) + "0";
    }
  }

  lemma {:induction false} NumberBack(k: nat, n: nat)
    ensures ParseInt(Zeros(k) + Digits(n)) == Some(n)
  {
    DigitsAreDigits(n);
    ZerosAddNothing(k, Digits(n));
    var t := Zeros(k) + Digits(n);
    RunIs(t, IsDigit, |t|);
  }

  lemma {:induction false} NumberRead(t: string, n: nat) returns (k: nat)
    requires t != "" && (forall i :: 0 <= i < |t| ==> IsDigit(t[i])) && DecimalValue(t) == n
    ensures t == Zeros(k) + Digits(n)
    decreases |t|
  {
    var front, c := t[..|t| - 1], t[|t| - 1];
    assert t == front + [c];
    if front == "" {
      k := 0;
      assert t == [c] && Zeros(0) + Digits(n) == Digits(n);
    } else {
      var m := DecimalValue(front);
      var j := NumberRead(front, m);
      if m == 0 {
        k := j + 1;
        ZerosEnd(j);
        assert Digits(0) == "0" && Digits(n) == [c];
      } else {
        k := j;
        assert n / 10 == m && Digits(n) == Digits(m) + [c];
        assert Zeros(j) + Digits(m) + [c] == Zeros(j) + (Digits(m) + [c]);
      }
    }
  }
}
