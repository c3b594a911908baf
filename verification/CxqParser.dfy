/**
 * The recursive-descent parser as the source runs it: an object that advances a position
 * over the tokens. Every production computes what `CxqGrammar` says of the tokens left.
 */
module CxqParser {
  import opened CxqSyntax
  import G = CxqGrammar
  import L = CxqLexer
  import opened Options
  import T = Text

  class Parser {
    const tokens: seq<string>
    var pos: nat

    constructor (tokens: seq<string>)
      ensures this.tokens == tokens && pos == 0
    {
      this.tokens := tokens;
      pos := 0;
    }

    ghost predicate Valid()
      reads this
    {
      pos <= |tokens|
    }

    ghost function Rest(): seq<string>
      requires Valid()
      reads this
    {
      tokens[pos..]
    }

    /** The result of a production and the tokens now left are those the grammar prescribes. */
    ghost predicate Agrees<T>(r: Result<T>, spec: G.Outcome<T>)
      reads this
    {
      Valid() && match spec case Done(v, rest) => r == Ok(v) && Rest() == rest case Failed(e) => r == Err(e)
    }

    // ---- Helpers -----------------------------------------------------------------------

    function Peek(): (t: Option<string>)
      requires Valid()
      reads this
      ensures forall w :: t == Some(w) <==> G.Peeks(Rest(), w)
    {
      if pos < |tokens| then Some(tokens[pos]) else None
    }

    function Ahead(n: nat): (t: Option<string>)
      requires Valid()
      reads this
      ensures t == if |Rest()| > n then Some(Rest()[n]) else None
    {
      if pos + n < |tokens| then Some(tokens[pos + n]) else None
    }

    method Advance() returns (r: Result<string>)
      requires Valid()
      modifies this`pos
      ensures Agrees(r, G.Advance(old(Rest())))
    {
      if pos >= |tokens| {
        return Err(IndexOutOfRange);
      }
      pos := pos + 1;
      return Ok(tokens[pos - 1]);
    }

    /** `_advance` where `_peek` has already seen a token. */
    method Skip()
      requires Valid() && Rest() != []
      modifies this`pos
      ensures Valid() && pos == old(pos) + 1 && Rest() == old(Rest())[1..]
    {
      pos := pos + 1;
    }

    method Expect(word: string) returns (r: Result<string>)
      requires Valid()
      modifies this`pos
      ensures Agrees(r, G.Expect(old(Rest()), word))
    {
      if Peek() != Some(word) {
        return Err(SyntaxError);
      }
      r := Advance();
    }

    // ---- Conditions ----------------------------------------------------------------------

    method ParseStringValue() returns (r: Result<string>)
      requires Valid()
      modifies this`pos
      ensures Agrees(r, G.StringValue(old(Rest())))
    {
      var tok :- Advance();
      return Ok(if L.StartsWithQuote(tok) then G.Unquote(tok) else tok);
    }

    method ParseListValue() returns (r: Result<seq<string>>)
      requires Valid()
      modifies this`pos
      ensures Agrees(r, G.ListValue(old(Rest())))
    {
      var _ :- Expect("[");
      var items: seq<string> := [];
      ghost var inside := Rest();
      while Peek() != Some("]")
        invariant Valid() && G.MoreItems(items, Rest()) == G.MoreItems([], inside)
        decreases |tokens| - pos
      {
        var item :- ParseStringValue();
        items := items + [item];
        if Peek() == Some(",") {
          Skip();
        }
      }
      Skip();
      return Ok(items);
    }

    method ParseAttrPred() returns (r: Result<Pred>)
      requires Valid()
      modifies this`pos
      ensures Agrees(r, G.AttrPredicate(old(Rest())))
    {
      var name :- Advance();
      var _ :- Expect(".");
      var attr :- Advance();
      r := ParseOperand(name, attr);
    }

    method ParseOperand(name: string, attr: string) returns (r: Result<Pred>)
      requires Valid()
      modifies this`pos
      ensures Agrees(r, G.Operand(name, attr, old(Rest())))
    {
      var op := Peek();
      if op == Some("=") || op == Some("!=") || op == Some("~") {
        Skip();
        var value :- ParseStringValue();
        return Ok(AttrPred(name, attr, op.value, Text(value)));
      }
      if op == Some("in") {
        Skip();
        var values :- ParseListValue();
        return Ok(AttrPred(name, attr, "in", Texts(values)));
      }
      return Err(SyntaxError);
    }

    method ParseClosurePred() returns (r: Result<Pred>)
      requires Valid()
      modifies this`pos
      ensures Agrees(r, G.ClosurePredicate(old(Rest())))
    {
      var lhs :- Advance();
      var op :- Advance();
      var rhs :- Advance();
      var lhsIsVar, rhsIsVar := !L.StartsWithQuote(lhs), !L.StartsWithQuote(rhs);
      return Ok(ClosurePred(if lhsIsVar then lhs else G.Unquote(lhs), op,
                            if rhsIsVar then rhs else G.Unquote(rhs), lhsIsVar, rhsIsVar));
    }

    method ParseOrExpr() returns (r: Result<Pred>)
      requires Valid()
      modifies this`pos
      ensures Agrees(r, G.OrExpr(old(Rest())))
      decreases |tokens| - pos, 4
    {
      var left :- ParseAndExpr();
      while Peek() == Some("or")
        invariant Valid() && old(pos) < pos && G.OrLoop(left, Rest()) == G.OrExpr(old(Rest()))
        decreases |tokens| - pos
      {
        Skip();
        var right :- ParseAndExpr();
        left := OrPred(left, right);
      }
      return Ok(left);
    }

    method ParseAndExpr() returns (r: Result<Pred>)
      requires Valid()
      modifies this`pos
      ensures Agrees(r, G.AndExpr(old(Rest())))
      decreases |tokens| - pos, 3
    {
      var left :- ParseNotExpr();
      while Peek() == Some("and")
        invariant Valid() && old(pos) < pos && G.AndLoop(left, Rest()) == G.AndExpr(old(Rest()))
        decreases |tokens| - pos
      {
        Skip();
        var right :- ParseNotExpr();
        left := AndPred(left, right);
      }
      return Ok(left);
    }

    method ParseNotExpr() returns (r: Result<Pred>)
      requires Valid()
      modifies this`pos
      ensures Agrees(r, G.NotExpr(old(Rest())))
      decreases |tokens| - pos, 2
    {
      if Peek() == Some("not") {
        Skip();
        var inner :- ParseNotExpr();
        return Ok(NotPred(inner));
      }
      r := ParsePrimaryPred();
    }

    method ParsePrimaryPred() returns (r: Result<Pred>)
      requires Valid()
      modifies this`pos
      ensures Agrees(r, G.PrimaryPred(old(Rest())))
      decreases |tokens| - pos, 1
    {
      if Peek() == Some("(") {
        Skip();
        var inner :- ParseOrExpr();
        var _ :- Expect(")");
        return Ok(inner);
      }
      var next, afterNext := Ahead(1), Ahead(2);
      if next.Some? && next.value in CLOSURE_OPS {
        r := ParseClosurePred();
      } else if next == Some(".") && afterNext.Some? {
        r := ParseAttrPred();
      } else {
        r := Err(SyntaxError);
      }
    }

    // ---- Bindings and projections ------------------------------------------------------

    method ParseOneBinding() returns (r: Result<MatchVar>)
      requires Valid()
      modifies this`pos
      ensures Agrees(r, G.Binding(old(Rest())))
    {
      var kind := Peek();
      if kind.None? || kind.value !in KIND_KEYWORDS {
        return Err(SyntaxError);
      }
      Skip();
      var name := Peek();
      if name.None? || name.value in KEYWORDS {
        return Err(SyntaxError);
      }
      Skip();
      return Ok(MatchVar(kind.value, name.value));
    }

    method ParseBindings() returns (r: Result<seq<MatchVar>>)
      requires Valid()
      modifies this`pos
      ensures Agrees(r, G.Bindings(old(Rest())))
    {
      var first :- ParseOneBinding();
      var bindings := [first];
      while Peek() == Some(",")
        invariant Valid() && G.MoreBindings(bindings, Rest()) == G.Bindings(old(Rest()))
        decreases |tokens| - pos
      {
        var kind := Ahead(1);
        Skip();
        if kind.None? || kind.value !in KIND_KEYWORDS {
          return Ok(bindings);
        }
        var binding :- ParseOneBinding();
        bindings := bindings + [binding];
      }
      return Ok(bindings);
    }

    method ParseOneProj() returns (r: Result<Projection>)
      requires Valid()
      modifies this`pos
      ensures Agrees(r, G.Proj(old(Rest())))
    {
      if Peek() == Some("count") {
        Skip();
        var _ :- Expect("(");
        var counted :- Advance();
        var _ :- Expect(")");
        return Ok(CountProj(counted));
      }
      var name :- Advance();
      if Peek() == Some(".") {
        Skip();
        var attr :- Advance();
        return Ok(AttrProj(name, attr));
      }
      return Ok(VarProj(name));
    }

    method ParseProjList() returns (r: Result<seq<Projection>>)
      requires Valid()
      modifies this`pos
      ensures Agrees(r, G.ProjList(old(Rest())))
    {
      var first :- ParseOneProj();
      var projs := [first];
      while Peek() == Some(",")
        invariant Valid() && G.MoreProjs(projs, Rest()) == G.ProjList(old(Rest()))
        decreases |tokens| - pos
      {
        Skip();
        var proj :- ParseOneProj();
        projs := projs + [proj];
      }
      return Ok(projs);
    }

    // ---- Whole queries --------------------------------------------------------------------

    method ParseMatchQuery() returns (r: Result<Query>)
      requires Valid()
      modifies this`pos
      ensures Agrees(r, G.Match(old(Rest())))
    {
      var _ :- Expect("match");
      var bindings :- ParseBindings();
      var conditions: Option<Pred> := None;
      if Peek() == Some("where") {
        Skip();
        var pred :- ParseOrExpr();
        conditions := Some(pred);
      }
      var _ :- Expect("select");
      var projs :- ParseProjList();
      return Ok(Query(bindings, conditions, projs));
    }

    method ParseMetric() returns (r: Result<RankMetric>)
      requires Valid()
      modifies this`pos
      ensures Agrees(r, G.Metric(old(Rest())))
    {
      var func :- Advance();
      if func != "count" {
        return Err(SyntaxError);
      }
      var _ :- Expect("(");
      var direction :- Advance();
      if direction !in METRIC_DIRS {
        return Err(SyntaxError);
      }
      var name :- Advance();
      var _ :- Expect(")");
      return Ok(RankMetric(func, direction, name));
    }

    method FinishRank(rankVar: string, inner: Query) returns (r: Result<Parsed>)
      requires Valid()
      modifies this`pos
      ensures Agrees(r, G.FinishRank(rankVar, inner, old(Rest())))
    {
      var _ :- Expect("by");
      var metric :- ParseMetric();
      var desc := Peek() == Some("desc");
      if desc {
        Skip();
      }
      var limit: Option<nat> := None;
      if Peek() == Some("limit") {
        Skip();
        var tok :- Advance();
        limit := G.ParseInt(tok);
        if limit.None? {
          return Err(SyntaxError);
        }
      }
      return Ok(RankQuery(inner, rankVar, metric, desc, limit));
    }

    method ParseRankPrefix() returns (r: Result<Parsed>)
      requires Valid()
      modifies this`pos
      ensures Agrees(r, G.RankPrefix(old(Rest())))
    {
      var _ :- Expect("rank");
      var rankVar :- Advance();
      var _ :- Expect("in");
      var inner :- ParseMatchQuery();
      r := FinishRank(rankVar, inner);
    }

    method ParseRankPostfix(inner: Query) returns (r: Result<Parsed>)
      requires Valid()
      modifies this`pos
      ensures Agrees(r, G.RankPostfix(inner, old(Rest())))
    {
      var _ :- Expect("rank");
      var rankVar :- Advance();
      r := FinishRank(rankVar, inner);
    }

    method ParseQuotedName() returns (r: Result<string>)
      requires Valid()
      modifies this`pos
      ensures Agrees(r, G.QuotedName(old(Rest())))
    {
      var tok :- Advance();
      return if L.StartsWithQuote(tok) then Ok(G.Unquote(tok)) else Err(SyntaxError);
    }

    method ParsePathQuery() returns (r: Result<Parsed>)
      requires Valid()
      modifies this`pos
      ensures Agrees(r, G.ShowPath(old(Rest())))
    {
      var _ :- Expect("show");
      var _ :- Expect("path");
      var _ :- Expect("from");
      var fromName :- ParseQuotedName();
      var _ :- Expect("to");
      var toName :- ParseQuotedName();
      var _ :- Expect("via");
      var via :- Advance();
      return if via in ["calls", "inherits"] then Ok(PathQuery(fromName, toName, via)) else Err(SyntaxError);
    }

    method ParseQuery() returns (r: Result<Parsed>)
      requires Valid() && pos == 0
      modifies this`pos
      ensures r == G.ParseTokens(tokens)
    {
      assert Rest() == tokens;
      var result: Parsed;
      if Peek() == Some("show") {
        result :- ParsePathQuery();
      } else if Peek() == Some("rank") {
        result :- ParseRankPrefix();
      } else {
        var query :- ParseMatchQuery();
        result := MatchQuery(query);
        if Peek() == Some("rank") {
          result :- ParseRankPostfix(query);
        }
      }
      return if pos < |tokens| then Err(SyntaxError) else Ok(result);
    }
  }

  /** `parse`: strip, tokenise, and run the parser over the tokens. */
  method Parse(text: string) returns (r: Result<Parsed>)
    ensures r == G.Parse(text)
  {
    var tokens :- L.Tokenize(T.Trim(text));
    var parser := new Parser(tokens);
    r := parser.ParseQuery();
  }
}
