/** The tree of a CXQ query, its keywords, and the two ways reading one can fail. */
module CxqSyntax {
  import opened Options

  datatype MatchVar = MatchVar(kind: string, name: string)

  datatype Value = Text(text: string) | Texts(texts: seq<string>)

  datatype Pred =
    | AttrPred(name: string, attr: string, op: string, value: Value)
    | ClosurePred(lhs: string, op: string, rhs: string, lhsIsVar: bool, rhsIsVar: bool)
    | NotPred(pred: Pred)
    | AndPred(left: Pred, right: Pred)
    | OrPred(left: Pred, right: Pred)

  datatype Projection = VarProj(name: string) | AttrProj(name: string, attr: string) | CountProj(name: string)

  datatype Query = Query(bindings: seq<MatchVar>, conditions: Option<Pred>, projections: seq<Projection>)

  datatype RankMetric = RankMetric(func: string, direction: string, name: string)

  datatype Parsed =
    | MatchQuery(query: Query)
    | RankQuery(inner: Query, rankVar: string, metric: RankMetric, desc: bool, limit: Option<nat>)
    | PathQuery(fromName: string, toName: string, via: string)

  const KEYWORDS: set<string> := {
    "match", "where", "select", "and", "or", "not", "in",
    "calls+", "calls*", "inherits+", "inherits*", "implements+",
    "function", "method", "class", "struct", "interface", "record", "namespace", "enum", "field", "count",
    "show", "path", "from", "to", "via", "rank", "by", "desc", "limit",
    "callers+", "callers", "callees+", "callees", "callable", "any"}

  const KIND_KEYWORDS: set<string> := {
    "function", "method", "class", "struct", "interface", "record", "namespace", "enum", "field",
    "callable", "any", "constructor", "destructor", "function-template", "class-template"}

  const CLOSURE_OPS: set<string> := {"calls+", "calls*", "inherits+", "inherits*", "implements+"}

  const METRIC_DIRS: set<string> := {"callers+", "callers", "callees+", "callees"}

  /** `ParseError`, and the `IndexError` of reading a token past the last one. */
  datatype Failure = SyntaxError | IndexOutOfRange

  datatype Result<+T> = Ok(value: T) | Err(error: Failure) {
    predicate IsFailure() { Err? }

    function PropagateFailure<U>(): Result<U>
      requires Err?
    {
      Err(error)
    }

    function Extract(): T
      requires Ok?
    {
      value
    }
  }
}
