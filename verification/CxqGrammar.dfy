/**
 * What each production of the CXQ parser (cxq/parser.py:243-503) makes of the tokens that
 * are left: a tree and the tokens after it, or the failure it raises.
 */
module CxqGrammar {
  import opened CxqSyntax
  import opened CxqLexer
  import opened Options
  import opened Text

  datatype Outcome<+T> = Done(value: T, rest: seq<string>) | Failed(error: Failure) {
    predicate IsFailure() { Failed? }

    function PropagateFailure<U>(): Outcome<U>
      requires Failed?
    {
      Failed(error)
    }

    function Extract(): (T, seq<string>)
      requires Done?
    {
      (value, rest)
    }
  }

  // ---- Single tokens -------------------------------------------------------------------

  predicate Peeks(ts: seq<string>, word: string) {
    ts != [] && ts[0] == word
  }

  function Advance(ts: seq<string>): Outcome<string> {
    if ts == [] then Failed(IndexOutOfRange) else Done(ts[0], ts[1..])
  }

  function Expect(ts: seq<string>, word: string): Outcome<string> {
    if Peeks(ts, word) then Done(word, ts[1..]) else Failed(SyntaxError)
  }

  /** `strip("\"'")`: every leading and trailing quote character goes. */
  function Unquote(t: string): string {
    Strip(t, IsQuote)
  }

  function DigitValue(c: char): nat
    requires IsDigit(c)
  {
    c as int - '0' as int
  }

  function DecimalValue(s: string): nat
    requires forall k :: 0 <= k < |s| ==> IsDigit(s[k])
  {
    if s == "" then 0 else 10 * DecimalValue(s[..|s| - 1]) + DigitValue(s[|s| - 1])
  }

  /** `int(token)`, for the tokens the lexer produces. */
  function ParseInt(t: string): Option<nat> {
    if t != "" && Run(t, IsDigit) == |t| then Some(DecimalValue(t)) else None
  }

  // ---- Conditions ------------------------------------------------------------------------

  function StringValue(ts: seq<string>): (r: Outcome<string>)
    ensures r.Done? ==> |r.rest| < |ts|
  {
    var (tok, rest) :- Advance(ts);
    Done(if StartsWithQuote(tok) then Unquote(tok) else tok, rest)
  }

  function MoreItems(items: seq<string>, ts: seq<string>): (r: Outcome<seq<string>>)
    ensures r.Done? ==> |r.rest| <= |ts|
    decreases |ts|
  {
    if Peeks(ts, "]") then Done(items, ts)
    else
      var (item, rest) :- StringValue(ts);
      MoreItems(items + [item], if Peeks(rest, ",") then rest[1..] else rest)
  }

  function ListValue(ts: seq<string>): (r: Outcome<seq<string>>)
    ensures r.Done? ==> |r.rest| < |ts|
  {
    var (_, inside) :- Expect(ts, "[");
    var (items, rest) :- MoreItems([], inside);
    var (_, after) :- Expect(rest, "]");
    Done(items, after)
  }

  /** The operator of an attribute predicate and its value. */
  function Operand(name: string, attr: string, ts: seq<string>): (r: Outcome<Pred>)
    ensures r.Done? ==> |r.rest| < |ts|
  {
    if Peeks(ts, "=") || Peeks(ts, "!=") || Peeks(ts, "~") then
      var (value, rest) :- StringValue(ts[1..]);
      Done(AttrPred(name, attr, ts[0], Value.Text(value)), rest)
    else if Peeks(ts, "in") then
      var (values, rest) :- ListValue(ts[1..]);
      Done(AttrPred(name, attr, "in", Texts(values)), rest)
    else Failed(SyntaxError)
  }

  function AttrPredicate(ts: seq<string>): (r: Outcome<Pred>)
    ensures r.Done? ==> |r.rest| < |ts|
  {
    var (name, afterName) :- Advance(ts);
    var (_, afterDot) :- Expect(afterName, ".");
    var (attr, afterAttr) :- Advance(afterDot);
    Operand(name, attr, afterAttr)
  }

  function ClosurePredicate(ts: seq<string>): (r: Outcome<Pred>)
    ensures r.Done? ==> |r.rest| < |ts|
  {
    var (lhs, afterLhs) :- Advance(ts);
    var (op, afterOp) :- Advance(afterLhs);
    var (rhs, rest) :- Advance(afterOp);
    var lhsIsVar, rhsIsVar := !StartsWithQuote(lhs), !StartsWithQuote(rhs);
    Done(ClosurePred(if lhsIsVar then lhs else Unquote(lhs), op, if rhsIsVar then rhs else Unquote(rhs),
                     lhsIsVar, rhsIsVar), rest)
  }

  function OrExpr(ts: seq<string>): (r: Outcome<Pred>)
    ensures r.Done? ==> |r.rest| < |ts|
    decreases |ts|, 5
  {
    var (left, rest) :- AndExpr(ts);
    OrLoop(left, rest)
  }

  function OrLoop(left: Pred, ts: seq<string>): (r: Outcome<Pred>)
    ensures r.Done? ==> |r.rest| <= |ts|
    decreases |ts|, 0
  {
    if !Peeks(ts, "or") then Done(left, ts)
    else
      var (right, rest) :- AndExpr(ts[1..]);
      OrLoop(OrPred(left, right), rest)
  }

  function AndExpr(ts: seq<string>): (r: Outcome<Pred>)
    ensures r.Done? ==> |r.rest| < |ts|
    decreases |ts|, 4
  {
    var (left, rest) :- NotExpr(ts);
    AndLoop(left, rest)
  }

  function AndLoop(left: Pred, ts: seq<string>): (r: Outcome<Pred>)
    ensures r.Done? ==> |r.rest| <= |ts|
    decreases |ts|, 0
  {
    if !Peeks(ts, "and") then Done(left, ts)
    else
      var (right, rest) :- NotExpr(ts[1..]);
      AndLoop(AndPred(left, right), rest)
  }

  function NotExpr(ts: seq<string>): (r: Outcome<Pred>)
    ensures r.Done? ==> |r.rest| < |ts|
    decreases |ts|, 3
  {
    if Peeks(ts, "not") then
      var (inner, rest) :- NotExpr(ts[1..]);
      Done(NotPred(inner), rest)
    else PrimaryPred(ts)
  }

  function PrimaryPred(ts: seq<string>): (r: Outcome<Pred>)
    ensures r.Done? ==> |r.rest| < |ts|
    decreases |ts|, 2
  {
    if Peeks(ts, "(") then
      var (inner, afterInner) :- OrExpr(ts[1..]);
      var (_, rest) :- Expect(afterInner, ")");
      Done(inner, rest)
    else if |ts| > 1 && ts[1] in CLOSURE_OPS then ClosurePredicate(ts)
    else if |ts| > 2 && ts[1] == "." then AttrPredicate(ts)
    else Failed(SyntaxError)
  }

  // ---- Bindings and projections --------------------------------------------------------

  function Binding(ts: seq<string>): (r: Outcome<MatchVar>)
    ensures r.Done? ==> |r.rest| < |ts|
  {
    if ts == [] || ts[0] !in KIND_KEYWORDS then Failed(SyntaxError)
    else if |ts| == 1 || ts[1] in KEYWORDS then Failed(SyntaxError)
    else Done(MatchVar(ts[0], ts[1]), ts[2..])
  }

  /** A comma not followed by a kind is eaten, and ends the list. */
  function MoreBindings(bindings: seq<MatchVar>, ts: seq<string>): (r: Outcome<seq<MatchVar>>)
    ensures r.Done? ==> |r.rest| <= |ts|
    decreases |ts|
  {
    if !Peeks(ts, ",") then Done(bindings, ts)
    else if |ts| > 1 && ts[1] in KIND_KEYWORDS then
      var (binding, rest) :- Binding(ts[1..]);
      MoreBindings(bindings + [binding], rest)
    else Done(bindings, ts[1..])
  }

  function Bindings(ts: seq<string>): (r: Outcome<seq<MatchVar>>)
    ensures r.Done? ==> |r.rest| < |ts|
  {
    var (binding, rest) :- Binding(ts);
    MoreBindings([binding], rest)
  }

  function Proj(ts: seq<string>): (r: Outcome<Projection>)
    ensures r.Done? ==> |r.rest| < |ts|
  {
    if Peeks(ts, "count") then
      var (_, inside) :- Expect(ts[1..], "(");
      var (name, afterName) :- Advance(inside);
      var (_, rest) :- Expect(afterName, ")");
      Done(CountProj(name), rest)
    else
      var (name, afterName) :- Advance(ts);
      if Peeks(afterName, ".") then
        var (attr, rest) :- Advance(afterName[1..]);
        Done(AttrProj(name, attr), rest)
      else Done(VarProj(name), afterName)
  }

  function MoreProjs(projs: seq<Projection>, ts: seq<string>): (r: Outcome<seq<Projection>>)
    ensures r.Done? ==> |r.rest| <= |ts|
    decreases |ts|
  {
    if !Peeks(ts, ",") then Done(projs, ts)
    else
      var (proj, rest) :- Proj(ts[1..]);
      MoreProjs(projs + [proj], rest)
  }

  function ProjList(ts: seq<string>): (r: Outcome<seq<Projection>>)
    ensures r.Done? ==> |r.rest| < |ts|
  {
    var (proj, rest) :- Proj(ts);
    MoreProjs([proj], rest)
  }

  // ---- Whole queries ----------------------------------------------------------------------

  function Where(ts: seq<string>): (r: Outcome<Option<Pred>>)
    ensures r.Done? ==> |r.rest| <= |ts|
  {
    if !Peeks(ts, "where") then Done(None, ts)
    else
      var (pred, rest) :- OrExpr(ts[1..]);
      Done(Some(pred), rest)
  }

  function Match(ts: seq<string>): (r: Outcome<Query>)
    ensures r.Done? ==> |r.rest| < |ts|
  {
    var (_, afterMatch) :- Expect(ts, "match");
    var (bindings, afterBindings) :- Bindings(afterMatch);
    var (conditions, afterWhere) :- Where(afterBindings);
    var (_, afterSelect) :- Expect(afterWhere, "select");
    var (projs, rest) :- ProjList(afterSelect);
    Done(Query(bindings, conditions, projs), rest)
  }

  function Metric(ts: seq<string>): Outcome<RankMetric> {
    var (func, afterFunc) :- Advance(ts);
    if func != "count" then Failed(SyntaxError)
    else
      var (_, inside) :- Expect(afterFunc, "(");
      var (direction, afterDirection) :- Advance(inside);
      if direction !in METRIC_DIRS then Failed(SyntaxError)
      else
        var (name, afterName) :- Advance(afterDirection);
        var (_, rest) :- Expect(afterName, ")");
        Done(RankMetric(func, direction, name), rest)
  }

  function Limit(ts: seq<string>): Outcome<Option<nat>> {
    if !Peeks(ts, "limit") then Done(None, ts)
    else
      var (tok, rest) :- Advance(ts[1..]);
      var n := ParseInt(tok);
      if n.None? then Failed(SyntaxError) else Done(n, rest)
  }

  function Direction(rankVar: string, inner: Query, metric: RankMetric, ts: seq<string>): Outcome<Parsed> {
    var desc := Peeks(ts, "desc");
    var (limit, rest) :- Limit(if desc then ts[1..] else ts);
    Done(RankQuery(inner, rankVar, metric, desc, limit), rest)
  }

  function FinishRank(rankVar: string, inner: Query, ts: seq<string>): Outcome<Parsed> {
    var (_, afterBy) :- Expect(ts, "by");
    var (metric, afterMetric) :- Metric(afterBy);
    Direction(rankVar, inner, metric, afterMetric)
  }

  function RankPrefix(ts: seq<string>): Outcome<Parsed> {
    var (_, afterRank) :- Expect(ts, "rank");
    var (rankVar, afterVar) :- Advance(afterRank);
    var (_, afterIn) :- Expect(afterVar, "in");
    var (inner, rest) :- Match(afterIn);
    FinishRank(rankVar, inner, rest)
  }

  function RankPostfix(inner: Query, ts: seq<string>): Outcome<Parsed> {
    var (_, afterRank) :- Expect(ts, "rank");
    var (rankVar, rest) :- Advance(afterRank);
    FinishRank(rankVar, inner, rest)
  }

  /** A quoted name, as `show path` wants after `from` and `to`. */
  function QuotedName(ts: seq<string>): Outcome<string> {
    var (tok, rest) :- Advance(ts);
    if StartsWithQuote(tok) then Done(Unquote(tok), rest) else Failed(SyntaxError)
  }

  function PathEnds(ts: seq<string>): Outcome<Parsed> {
    var (fromName, afterFromName) :- QuotedName(ts);
    var (_, afterTo) :- Expect(afterFromName, "to");
    var (toName, afterToName) :- QuotedName(afterTo);
    var (_, afterVia) :- Expect(afterToName, "via");
    var (via, rest) :- Advance(afterVia);
    if via in ["calls", "inherits"] then Done(PathQuery(fromName, toName, via), rest) else Failed(SyntaxError)
  }

  function ShowPath(ts: seq<string>): Outcome<Parsed> {
    var (_, afterShow) :- Expect(ts, "show");
    var (_, afterPath) :- Expect(afterShow, "path");
    var (_, afterFrom) :- Expect(afterPath, "from");
    PathEnds(afterFrom)
  }

  function AnyQuery(ts: seq<string>): Outcome<Parsed> {
    if Peeks(ts, "show") then ShowPath(ts)
    else if Peeks(ts, "rank") then RankPrefix(ts)
    else
      var (query, rest) :- Match(ts);
      if Peeks(rest, "rank") then RankPostfix(query, rest) else Done(MatchQuery(query), rest)
  }

  /** `parse_query`: one query and no trailing tokens. */
  function ParseTokens(ts: seq<string>): Result<Parsed> {
    var r := AnyQuery(ts);
    if r.Failed? then Err(r.error) else if r.rest != [] then Err(SyntaxError) else Ok(r.value)
  }

  /** `parse`: strip, tokenise, parse. */
  function Parse(text: string): Result<Parsed> {
    var tokens :- Lex(Trim(text));
    ParseTokens(tokens)
  }
}
