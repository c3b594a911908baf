/**
 * From characters to trees and back: printed text parses to its tree, every text that parses
 * has a well-formed tree, and so printing a parsed query normalises its text.
 */
module CxqNormalForm {
  import opened CxqSyntax
  import opened CxqLexer
  import opened CxqGrammar
  import opened CxqRoundTrip
  import opened Options
  import opened Text

  // ---- Printed queries are made of tokens ------------------------------------------------

  predicate Alphabetic(w: string) {
    w != "" && forall k :: 0 <= k < |w| ==> IsAlpha(w[k])
  }

  /** A word that is letters, or letters and a suffix making a known operator, is one token. */
  lemma {:induction false} WordIsToken(w: string)
    requires Alphabetic(w)
    ensures IsToken(w)
  {
    RunIs(w, IsWordChar, |w|);
    assert |w| > 1 ==> w[..2][0] == w[0];
  }

  lemma {:induction false} OperatorIsToken(w: string, c: char)
    requires Alphabetic(w) && c in "+*" && w + [c] in SUFFIXED
    ensures IsToken(w + [c])
  {
    OperatorEnds(w, c);
    assert (w + [c])[0] == w[0];
    LetterStarts(w + [c]);
  }

  /** What starts with a letter is a token when its word reaches its end. */
  lemma {:induction false} LetterStarts(t: string)
    requires t != "" && IsAlpha(t[0]) && WordEnd(t) == |t|
    ensures IsToken(t)
  {
    assert |t| > 1 ==> t[..2][0] == t[0];
  }

  lemma {:induction false} OperatorEnds(w: string, c: char)
    requires Alphabetic(w) && c in "+*" && w + [c] in SUFFIXED
    ensures WordEnd(w + [c]) == |w| + 1
  {
    var t := w + [c];
    RunIs(t, IsWordChar, |w|);
    assert t[..|w| + 1] == t;
  }

  lemma {:induction false} ClosureOpsAreTokens(op: string)
    requires op in CLOSURE_OPS || op in METRIC_DIRS
    ensures IsToken(op)
  {
    if op == "callers" || op == "callees" {
      WordIsToken(op);
    } else {
      var w := op[..|op| - 1];
      assert op == w + [op[|op| - 1]];
      OperatorIsToken(w, op[|op| - 1]);
    }
  }

  /** The words the printer writes. */
  const WORDS: set<string> := {
    "match", "where", "select", "and", "or", "not", "in", "count", "show", "path", "from", "to", "via",
    "rank", "by", "desc", "limit", "calls", "inherits"}

  /** The words and marks the printer writes are tokens. */
  lemma {:induction false} FixedIsToken(w: string)
    requires w in WORDS || w == "!=" || (|w| == 1 && w[0] in "=~.,()[]")
    ensures IsToken(w)
  {
    if w in WORDS {
      WordIsToken(w);
    }
  }

  lemma {:induction false} Before(a: string, ts: seq<string>)
    requires IsToken(a) && Tokens(ts)
    ensures Tokens([a] + ts)
  {
  }

  lemma {:induction false} Fixed(a: string, ts: seq<string>)
    requires (a in WORDS || a == "!=" || (|a| == 1 && a[0] in "=~.,()[]")) && Tokens(ts)
    ensures Tokens([a] + ts)
  {
    FixedIsToken(a);
  }

  lemma {:induction false} ItemsTokens(ts: seq<string>, rest: seq<string>)
    requires Tokens(rest) && forall t :: t in ts ==> Literal(t)
    ensures Tokens(Items(ts, rest))
  {
    if ts != [] {
      UnquoteQuote(ts[0]);
      if |ts| > 1 {
        ItemsTokens(ts[1..], rest);
        FixedIsToken(",");
      }
    }
  }

  lemma {:induction false} ValueTokens(op: string, v: Value, rest: seq<string>)
    requires Tokens(rest) && WellFormedValue(op, v)
    ensures Tokens([op] + Valued(v, rest))
  {
    FixedIsToken(op);
    ValuedTokens(op, v, rest);
    Before(op, Valued(v, rest));
  }

  lemma {:induction false} ValuedTokens(op: string, v: Value, rest: seq<string>)
    requires Tokens(rest) && WellFormedValue(op, v)
    ensures Tokens(Valued(v, rest))
  {
    match v
    case Text(t) =>
      UnquoteQuote(t);
      Before(Quote(t), rest);
    case Texts(ts) =>
      Fixed("]", rest);
      ItemsTokens(ts, ["]"] + rest);
      Fixed("[", Items(ts, ["]"] + rest));
  }

  lemma {:induction false} PredTokens(p: Pred, at: nat, rest: seq<string>)
    requires WellFormedPred(p) && Tokens(rest) && at <= 2
    ensures Tokens(Pr(p, at, rest))
    decreases p, at
  {
    if Level(p) < at {
      Fixed(")", rest);
      PredTokens(p, 0, [")"] + rest);
      Fixed("(", Pr(p, 0, [")"] + rest));
    } else {
      match p
      case OrPred(l, r) =>
        PredTokens(r, 1, rest);
        Fixed("or", Pr(r, 1, rest));
        PredTokens(l, 0, ["or"] + Pr(r, 1, rest));
      case AndPred(l, r) =>
        PredTokens(r, 2, rest);
        Fixed("and", Pr(r, 2, rest));
        PredTokens(l, 1, ["and"] + Pr(r, 2, rest));
      case NotPred(inner) =>
        PredTokens(inner, 2, rest);
        Fixed("not", Pr(inner, 2, rest));
      case _ => AtomTokens(p, at, rest);
    }
  }

  lemma {:induction false} AtomTokens(p: Pred, at: nat, rest: seq<string>)
    requires (p.AttrPred? || p.ClosurePred?) && WellFormedPred(p) && Tokens(rest) && at <= 2
    ensures Tokens(Pr(p, at, rest))
  {
    match p
    case AttrPred(name, attr, op, value) =>
      ValueTokens(op, value, rest);
      AttrTokens(name, attr, [op] + Valued(value, rest));
      assert Pr(p, at, rest) == [name, ".", attr] + ([op] + Valued(value, rest));
    case ClosurePred(_, _, _, _, _) => ClosureTokens(p, at, rest);
  }

  lemma {:induction false} ClosureTokens(p: Pred, at: nat, rest: seq<string>)
    requires p.ClosurePred? && WellFormedPred(p) && Tokens(rest) && at <= 2
    ensures Tokens(Pr(p, at, rest))
  {
    SideIsToken(p.lhs, p.lhsIsVar);
    SideIsToken(p.rhs, p.rhsIsVar);
    ClosureOpsAreTokens(p.op);
    ThreeTokens(SideToken(p.lhs, p.lhsIsVar), p.op, SideToken(p.rhs, p.rhsIsVar), rest);
  }

  lemma {:induction false} SideIsToken(t: string, isVar: bool)
    requires Side(t, isVar)
    ensures IsToken(SideToken(t, isVar))
  {
    SideBack(t, isVar);
  }

  lemma {:induction false} ThreeTokens(a: string, b: string, c: string, rest: seq<string>)
    requires IsToken(a) && IsToken(b) && IsToken(c) && Tokens(rest)
    ensures Tokens([a, b, c] + rest)
  {
  }

  lemma {:induction false} AttrTokens(name: string, attr: string, tail: seq<string>)
    requires IsToken(name) && IsToken(attr) && Tokens(tail)
    ensures Tokens([name, ".", attr] + tail)
  {
    FixedIsToken(".");
  }

  lemma {:induction false} BindingsTokens(bs: seq<MatchVar>, rest: seq<string>)
    requires Tokens(rest) && forall b :: b in bs ==> WellFormedBinding(b)
    ensures Tokens(MatchVars(bs, rest))
  {
    if bs != [] {
      BindingsTokens(bs[1..], rest);
      FixedIsToken(",");
      assert WellFormedBinding(bs[0]);
    }
  }

  lemma {:induction false} ProjTokens(p: Projection, rest: seq<string>)
    requires Tokens(rest) && WellFormedProj(p)
    ensures Tokens(Projected(p, rest))
  {
    match p
    case VarProj(name) => Before(name, rest);
    case AttrProj(name, attr) => AttrTokens(name, attr, rest);
    case CountProj(name) => CountTokens(name, rest);
  }

  lemma {:induction false} CountTokens(name: string, rest: seq<string>)
    requires IsToken(name) && Tokens(rest)
    ensures Tokens(["count", "(", name, ")"] + rest)
  {
    FixedIsToken("count");
    FixedIsToken("(");
    FixedIsToken(")");
  }

  lemma {:induction false} ProjsTokens(ps: seq<Projection>, rest: seq<string>)
    requires Tokens(rest) && forall p :: p in ps ==> WellFormedProj(p)
    ensures Tokens(Projections(ps, rest))
  {
    if ps != [] {
      ProjsTokens(ps[1..], rest);
      ProjTokens(ps[0], Projections(ps[1..], rest));
      Fixed(",", Projected(ps[0], Projections(ps[1..], rest)));
    }
  }

  lemma {:induction false} SelectTokens(q: Query, rest: seq<string>)
    requires WellFormedQuery(q) && Tokens(rest)
    ensures Tokens(["select"] + Projected(q.projections[0], Projections(q.projections[1..], rest)))
  {
    var projs := Projections(q.projections[1..], rest);
    ProjsTokens(q.projections[1..], rest);
    ProjTokens(q.projections[0], projs);
    Fixed("select", Projected(q.projections[0], projs));
  }

  lemma {:induction false} ConditionTokens(conditions: Option<Pred>, rest: seq<string>)
    requires conditions.Some? ==> WellFormedPred(conditions.value)
    requires Tokens(rest)
    ensures Tokens(Condition(conditions, rest))
  {
    if conditions.Some? {
      PredTokens(conditions.value, 0, rest);
      Fixed("where", Pr(conditions.value, 0, rest));
    }
  }

  lemma {:induction false} MatchTokens(q: Query, rest: seq<string>)
    requires WellFormedQuery(q) && Tokens(rest)
    ensures Tokens(Matched(q, rest))
  {
    var selected := ["select"] + Projected(q.projections[0], Projections(q.projections[1..], rest));
    var others := MatchVars(q.bindings[1..], Condition(q.conditions, selected));
    SelectTokens(q, rest);
    ConditionTokens(q.conditions, selected);
    BindingsTokens(q.bindings[1..], Condition(q.conditions, selected));
    assert WellFormedBinding(q.bindings[0]);
    BindingTokens(q.bindings[0], others);
    Fixed("match", Bound(q.bindings[0], others));
  }

  lemma {:induction false} BindingTokens(b: MatchVar, rest: seq<string>)
    requires WellFormedBinding(b) && Tokens(rest)
    ensures Tokens(Bound(b, rest))
  {
  }

  lemma {:induction false} LimitTokens(desc: bool, limit: Option<nat>)
    ensures var tail := if limit.None? then [] else ["limit", Digits(limit.value)];
            Tokens(tail) && Tokens(["desc"] + tail)
  {
    if limit.Some? {
      IntDigits(limit.value);
      Before(Digits(limit.value), []);
      Fixed("limit", [Digits(limit.value)]);
    }
    Fixed("desc", if limit.None? then [] else ["limit", Digits(limit.value)]);
  }

  lemma {:induction false} MetricTokens(direction: string, name: string, rest: seq<string>)
    requires IsToken(direction) && IsToken(name) && Tokens(rest)
    ensures Tokens(["by", "count", "(", direction, name, ")"] + rest)
  {
    Fixed(")", rest);
    var counted := [direction, name] + ([")"] + rest);
    Fixed("(", counted);
    Fixed("count", ["("] + counted);
    Fixed("by", ["count"] + (["("] + counted));
    assert ["by", "count", "(", direction, name, ")"] + rest == ["by"] + (["count"] + (["("] + counted));
  }

  lemma {:induction false} RankingTokens(m: RankMetric, desc: bool, limit: Option<nat>)
    requires WellFormedMetric(m)
    ensures Tokens(Ranking(m, desc, limit))
  {
    var tail := if limit.None? then [] else ["limit", Digits(limit.value)];
    LimitTokens(desc, limit);
    ClosureOpsAreTokens(m.direction);
    MetricTokens(m.direction, m.name, if desc then ["desc"] + tail else tail);
  }

  lemma {:induction false} EndsTokens(a: string, b: string, via: string)
    requires IsToken(a) && IsToken(b) && IsToken(via)
    ensures Tokens(Ends(a, b, via))
  {
    Before(via, []);
    Fixed("via", [via]);
    Before(b, ["via"] + [via]);
    Fixed("to", [b] + (["via"] + [via]));
    Before(a, ["to"] + ([b] + (["via"] + [via])));
  }

  lemma {:induction false} PathTokens(ends: seq<string>)
    requires Tokens(ends)
    ensures Tokens(["show", "path", "from"] + ends)
  {
    Fixed("from", ends);
    Fixed("path", ["from"] + ends);
    Fixed("show", ["path"] + (["from"] + ends));
    assert ["show", "path", "from"] + ends == ["show"] + (["path"] + (["from"] + ends));
  }

  lemma {:induction false} PrintTokens(q: Parsed, prefix: bool)
    requires WellFormed(q)
    ensures Tokens(Print(q, prefix))
  {
    match q
    case MatchQuery(query) => MatchTokens(query, []);
    case PathQuery(fromName, toName, via) =>
      UnquoteQuote(fromName);
      UnquoteQuote(toName);
      FixedIsToken(via);
      EndsTokens(Quote(fromName), Quote(toName), via);
      PathTokens(Ends(Quote(fromName), Quote(toName), via));
    case RankQuery(inner, v, metric, desc, limit) =>
      var ranking := Ranking(metric, desc, limit);
      RankingTokens(metric, desc, limit);
      FixedIsToken("rank");
      FixedIsToken("in");
      MatchTokens(inner, ranking);
      MatchTokens(inner, ["rank", v] + ranking);
  }

  // ---- Text round trip -------------------------------------------------------------------

  function PrintText(q: Parsed, prefix: bool): string
    requires WellFormed(q)
  {
    Spaced(Print(q, prefix))
  }

  /** The text of a well-formed query, ranks written either way, parses to that query. */
  lemma {:induction false} TextRoundTrip(q: Parsed, prefix: bool)
    requires WellFormed(q)
    ensures Parse(PrintText(q, prefix)) == Ok(q)
  {
    var ts := Print(q, prefix);
    PrintTokens(q, prefix);
    LexSpaced(ts);
    SpacedIsBare(ts);
    StripIsBare(Spaced(ts), IsSpace);
    TokensRoundTrip(q, prefix);
  }

  // ---- Whatever parses is well-formed ----------------------------------------------------

  lemma {:induction false} UnquoteIsLiteral(t: string)
    requires IsToken(t) && StartsWithQuote(t)
    ensures Literal(Unquote(t))
  {
    StripIsBare(t, IsQuote);
    var u := Unquote(t);
    var a, b := Run(t, IsQuote), End(t, IsQuote);
    if u != "" {
      assert forall k :: 0 <= k < |u| ==> u[k] == t[1..][a - 1 + k] && a - 1 + k < |t| - 2;
      assert forall k :: 0 <= k < |u| ==> Other(t[0])(u[k]);
    }
  }

  lemma {:induction false} BareIsLiteral(t: string)
    requires IsToken(t) && !StartsWithQuote(t)
    ensures Literal(t)
  {
    UnquotedHasNoQuote(t);
  }

  lemma {:induction false} StringValueSound(ts: seq<string>)
    requires Tokens(ts) && StringValue(ts).Done?
    ensures Literal(StringValue(ts).value) && Tokens(StringValue(ts).rest)
  {
    if StartsWithQuote(ts[0]) {
      UnquoteIsLiteral(ts[0]);
    } else {
      BareIsLiteral(ts[0]);
    }
  }

  lemma {:induction false} ItemsSound(items: seq<string>, ts: seq<string>)
    requires Tokens(ts) && (forall t :: t in items ==> Literal(t)) && MoreItems(items, ts).Done?
    ensures var r := MoreItems(items, ts); Tokens(r.rest) && forall t :: t in r.value ==> Literal(t)
    decreases |ts|
  {
    if !Peeks(ts, "]") {
      StringValueSound(ts);
      var v := StringValue(ts);
      var more := if Peeks(v.rest, ",") then v.rest[1..] else v.rest;
      ItemsSound(items + [v.value], more);
    }
  }

  lemma {:induction false} OperandSound(name: string, attr: string, ts: seq<string>)
    requires Tokens(ts) && Operand(name, attr, ts).Done?
    ensures Tokens(Operand(name, attr, ts).rest)
    ensures var p := Operand(name, attr, ts).value;
            p.AttrPred? && p.name == name && p.attr == attr && WellFormedValue(p.op, p.value)
  {
    if Peeks(ts, "in") {
      ItemsSound([], ts[1..][1..]);
    } else {
      StringValueSound(ts[1..]);
    }
  }

  lemma {:induction false} AttrSound(ts: seq<string>)
    requires Tokens(ts) && !Peeks(ts, "(") && !Peeks(ts, "not") && AttrPredicate(ts).Done?
    ensures WellFormedPred(AttrPredicate(ts).value) && Tokens(AttrPredicate(ts).rest)
  {
    OperandSound(ts[0], ts[1..][1..][0], ts[1..][1..][1..]);
  }

  lemma {:induction false} SideSound(t: string)
    requires IsToken(t)
    ensures var isVar := !StartsWithQuote(t); Side(if isVar then t else Unquote(t), isVar)
  {
    if StartsWithQuote(t) {
      UnquoteIsLiteral(t);
    }
  }

  lemma {:induction false} ClosureSound(ts: seq<string>)
    requires Tokens(ts) && !Peeks(ts, "(") && !Peeks(ts, "not") && |ts| > 1 && ts[1] in CLOSURE_OPS
    requires ClosurePredicate(ts).Done?
    ensures WellFormedPred(ClosurePredicate(ts).value) && Tokens(ClosurePredicate(ts).rest)
  {
    SideSound(ts[0]);
    SideSound(ts[1..][1..][0]);
  }

  lemma {:induction false} OrSound(ts: seq<string>)
    requires Tokens(ts) && OrExpr(ts).Done?
    ensures WellFormedPred(OrExpr(ts).value) && Tokens(OrExpr(ts).rest)
    decreases |ts|, 5
  {
    AndSound(ts);
    OrLoopSound(AndExpr(ts).value, AndExpr(ts).rest);
  }

  lemma {:induction false} OrLoopSound(left: Pred, ts: seq<string>)
    requires WellFormedPred(left) && Tokens(ts) && OrLoop(left, ts).Done?
    ensures WellFormedPred(OrLoop(left, ts).value) && Tokens(OrLoop(left, ts).rest)
    decreases |ts|, 0
  {
    if Peeks(ts, "or") {
      AndSound(ts[1..]);
      var right := AndExpr(ts[1..]);
      OrLoopSound(OrPred(left, right.value), right.rest);
    }
  }

  lemma {:induction false} AndSound(ts: seq<string>)
    requires Tokens(ts) && AndExpr(ts).Done?
    ensures WellFormedPred(AndExpr(ts).value) && Tokens(AndExpr(ts).rest)
    decreases |ts|, 4
  {
    NotSound(ts);
    AndLoopSound(NotExpr(ts).value, NotExpr(ts).rest);
  }

  lemma {:induction false} AndLoopSound(left: Pred, ts: seq<string>)
    requires WellFormedPred(left) && Tokens(ts) && AndLoop(left, ts).Done?
    ensures WellFormedPred(AndLoop(left, ts).value) && Tokens(AndLoop(left, ts).rest)
    decreases |ts|, 0
  {
    if Peeks(ts, "and") {
      NotSound(ts[1..]);
      var right := NotExpr(ts[1..]);
      AndLoopSound(AndPred(left, right.value), right.rest);
    }
  }

  lemma {:induction false} NotSound(ts: seq<string>)
    requires Tokens(ts) && NotExpr(ts).Done?
    ensures WellFormedPred(NotExpr(ts).value) && Tokens(NotExpr(ts).rest)
    decreases |ts|, 3
  {
    if Peeks(ts, "not") {
      NotSound(ts[1..]);
    } else {
      PrimarySound(ts);
    }
  }

  lemma {:induction false} PrimarySound(ts: seq<string>)
    requires Tokens(ts) && !Peeks(ts, "not") && PrimaryPred(ts).Done?
    ensures WellFormedPred(PrimaryPred(ts).value) && Tokens(PrimaryPred(ts).rest)
    decreases |ts|, 2
  {
    if Peeks(ts, "(") {
      OrSound(ts[1..]);
    } else if |ts| > 1 && ts[1] in CLOSURE_OPS {
      ClosureSound(ts);
    } else {
      AttrSound(ts);
    }
  }

  lemma {:induction false} MoreBindingsSound(bs: seq<MatchVar>, ts: seq<string>)
    requires Tokens(ts) && (forall b :: b in bs ==> WellFormedBinding(b)) && MoreBindings(bs, ts).Done?
    ensures var r := MoreBindings(bs, ts);
            Tokens(r.rest) && bs <= r.value && forall b :: b in r.value ==> WellFormedBinding(b)
    decreases |ts|
  {
    if Peeks(ts, ",") && |ts| > 1 && ts[1] in KIND_KEYWORDS {
      var b := Binding(ts[1..]);
      MoreBindingsSound(bs + [b.value], b.rest);
    }
  }

  lemma {:induction false} ProjSound(ts: seq<string>)
    requires Tokens(ts) && Proj(ts).Done?
    ensures WellFormedProj(Proj(ts).value) && Tokens(Proj(ts).rest)
  {
  }

  lemma {:induction false} MoreProjsSound(ps: seq<Projection>, ts: seq<string>)
    requires Tokens(ts) && (forall p :: p in ps ==> WellFormedProj(p)) && MoreProjs(ps, ts).Done?
    ensures var r := MoreProjs(ps, ts);
            Tokens(r.rest) && ps <= r.value && forall p :: p in r.value ==> WellFormedProj(p)
    decreases |ts|
  {
    if Peeks(ts, ",") {
      ProjSound(ts[1..]);
      var p := Proj(ts[1..]);
      MoreProjsSound(ps + [p.value], p.rest);
    }
  }

  lemma {:induction false} BindingsSound(ts: seq<string>)
    requires Tokens(ts) && Bindings(ts).Done?
    ensures var r := Bindings(ts);
            Tokens(r.rest) && r.value != [] && forall b :: b in r.value ==> WellFormedBinding(b)
  {
    var first := Binding(ts);
    MoreBindingsSound([first.value], first.rest);
  }

  lemma {:induction false} ProjListSound(ts: seq<string>)
    requires Tokens(ts) && ProjList(ts).Done?
    ensures var r := ProjList(ts);
            Tokens(r.rest) && r.value != [] && forall p :: p in r.value ==> WellFormedProj(p)
  {
    ProjSound(ts);
    var first := Proj(ts);
    MoreProjsSound([first.value], first.rest);
  }

  lemma {:induction false} WhereSound(ts: seq<string>)
    requires Tokens(ts) && Where(ts).Done?
    ensures var r := Where(ts); Tokens(r.rest) && (r.value.Some? ==> WellFormedPred(r.value.value))
  {
    if Peeks(ts, "where") {
      OrSound(ts[1..]);
    }
  }

  lemma {:induction false} MatchSound(ts: seq<string>)
    requires Tokens(ts) && Match(ts).Done?
    ensures WellFormedQuery(Match(ts).value) && Tokens(Match(ts).rest)
  {
    BindingsSound(ts[1..]);
    var bindings := Bindings(ts[1..]);
    WhereSound(bindings.rest);
    var conditions := Where(bindings.rest);
    ProjListSound(conditions.rest[1..]);
  }

  lemma {:induction false} RankSound(v: string, inner: Query, ts: seq<string>)
    requires Tokens(ts) && WellFormedQuery(inner) && IsToken(v) && FinishRank(v, inner, ts).Done?
    ensures WellFormed(FinishRank(v, inner, ts).value)
  {
    MetricSound(ts[1..]);
  }

  lemma {:induction false} MetricSound(ts: seq<string>)
    requires Tokens(ts) && Metric(ts).Done?
    ensures WellFormedMetric(Metric(ts).value)
  {
  }

  lemma {:induction false} ShowPathSound(ts: seq<string>)
    requires Tokens(ts) && PathEnds(ts).Done?
    ensures WellFormed(PathEnds(ts).value)
  {
    UnquoteIsLiteral(ts[0]);
    UnquoteIsLiteral(ts[1..][1..][0]);
  }

  /** Whatever a list of lexed tokens parses to is well-formed. */
  lemma {:induction false} TokensSound(ts: seq<string>)
    requires Tokens(ts) && AnyQuery(ts).Done?
    ensures WellFormed(AnyQuery(ts).value)
  {
    if Peeks(ts, "show") {
      ShowPathSound(ts[1..][1..][1..]);
    } else if Peeks(ts, "rank") {
      var afterIn := ts[1..][1..][1..];
      MatchSound(afterIn);
      RankSound(ts[1..][0], Match(afterIn).value, Match(afterIn).rest);
    } else {
      MatchSound(ts);
      var m := Match(ts);
      if Peeks(m.rest, "rank") {
        RankSound(m.rest[1..][0], m.value, m.rest[1..][1..]);
      }
    }
  }

  /** The trees texts parse to are exactly the well-formed ones. */
  lemma {:induction false} ParsesExactlyWellFormed(q: Parsed)
    ensures WellFormed(q) <==> exists text :: Parse(text) == Ok(q)
  {
    if WellFormed(q) {
      TextRoundTrip(q, true);
    }
    forall text | Parse(text) == Ok(q)
      ensures WellFormed(q)
    {
      ParsedIsWellFormed(text);
    }
  }

  lemma {:induction false} ParsedIsWellFormed(text: string)
    requires Parse(text).Ok?
    ensures WellFormed(Parse(text).value)
  {
    LexGivesTokens(Trim(text));
    TokensSound(Lex(Trim(text)).value);
  }

  /** Parsing, printing and parsing again changes nothing. */
  lemma {:induction false} PrintingNormalises(text: string, prefix: bool)
    requires Parse(text).Ok?
    ensures WellFormed(Parse(text).value) && Parse(PrintText(Parse(text).value, prefix)) == Parse(text)
  {
    ParsedIsWellFormed(text);
    TextRoundTrip(Parse(text).value, prefix);
  }

  // ---- What the grammar promises and the code does not do ---------------------------------

  function BindingsOf(q: Parsed): seq<MatchVar> {
    match q
    case MatchQuery(query) => query.bindings
    case RankQuery(inner, _, _, _, _) => inner.bindings
    case PathQuery(_, _, _) => []
  }

  /** `function-template` and `class-template` are kinds no query can name: `-` is in no word. */
  lemma {:induction false} TemplateKindsAreUnreachable(text: string, b: MatchVar)
    requires Parse(text).Ok? && b in BindingsOf(Parse(text).value)
    ensures b.kind != "function-template" && b.kind != "class-template"
  {
    ParsedIsWellFormed(text);
    assert WellFormedBinding(b);
    TemplateIsNoToken(b.kind);
  }

  lemma {:induction false} TemplateIsNoToken(t: string)
    ensures t == "function-template" || t == "class-template" ==> !IsToken(t)
  {
    if t == "function-template" && IsToken(t) {
      KindHasNoDash(t, 8);
    }
    if t == "class-template" && IsToken(t) {
      KindHasNoDash(t, 5);
    }
  }

  lemma {:induction false} KindHasNoDash(t: string, n: nat)
    requires IsToken(t) && n < |t| - 1 && IsAlpha(t[0])
    ensures t[n] != '-'
  {
    assert n < Run(t, IsWordChar);
    assert IsWordChar(t[n]);
  }
}
