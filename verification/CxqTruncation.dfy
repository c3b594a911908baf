/**
 * Which token lists the CXQ parser (cxq/parser.py:200-520) accepts, rejects with the parse
 * error its documentation names, or fails on with an index error. A machine that reads one
 * token at a time decides it: where the list stops tells the error, and every list that
 * raises the index error is the beginning of a query.
 */
module CxqTruncation {
  import opened CxqSyntax
  import G = CxqGrammar
  import L = CxqLexer
  import Text

  /** How far into a query the tokens read so far have come. */
  datatype Mode =
    | AtStart
    // `show path from ... to ... via ...`
    | AfterShow | AfterPath | AfterFrom | AfterFromName | AfterTo | AfterToName | AfterVia
    // `rank v in`, before a match query
    | AfterRank | AfterRankVar | AfterRankIn
    // `match kind name, ...`
    | AfterMatch | AfterKind | AfterBinding | AfterBindingComma
    // `where`: a predicate is due, or partly or wholly read
    | WantsPred | AfterSubject | AfterSubjectDot | AfterAttr | AfterAttrOp | AfterIn | InList | AfterItem
    | AfterClosureOp | AfterPred
    // `select`
    | WantsProj | AfterCount | InCount | AfterCountVar | AfterVar | AfterVarDot | AfterProj
    // `rank v`, after a match query, and `by count(callers f) desc limit n`
    | AfterLateRank | AfterLateRankVar | AfterBy | AfterMetric | InMetric | AfterDirection | AfterMetricVar
    | AfterRanking | AfterDesc | AfterLimit
    | AtEnd
    // no query starts like this
    | Dead

  /** The mode, whether the query began with `rank`, and how many parentheses of its condition are open. */
  datatype State = State(mode: Mode, prefix: bool, depth: nat)

  const START: State := State(AtStart, false, 0)

  function Go(s: State, ok: bool, mode: Mode): State {
    s.(mode := if ok then mode else Dead)
  }

  // ---- The machine ------------------------------------------------------------------------

  function StepPath(s: State, t: string): State {
    match s.mode
    case AfterShow => Go(s, t == "path", AfterPath)
    case AfterPath => Go(s, t == "from", AfterFrom)
    case AfterFrom => Go(s, L.StartsWithQuote(t), AfterFromName)
    case AfterFromName => Go(s, t == "to", AfterTo)
    case AfterTo => Go(s, L.StartsWithQuote(t), AfterToName)
    case AfterToName => Go(s, t == "via", AfterVia)
    case AfterVia => Go(s, t in ["calls", "inherits"], AtEnd)
    case _ => Go(s, false, Dead)
  }

  function StepMatch(s: State, t: string): State {
    match s.mode
    case AfterMatch => Go(s, t in KIND_KEYWORDS, AfterKind)
    case AfterKind => Go(s, t !in KEYWORDS, AfterBinding)
    case AfterBinding =>
      if t == "," then Go(s, true, AfterBindingComma)
      else if t == "where" then Go(s, true, WantsPred) else Go(s, t == "select", WantsProj)
    case AfterBindingComma =>
      if t in KIND_KEYWORDS then Go(s, true, AfterKind)
      else if t == "where" then Go(s, true, WantsPred) else Go(s, t == "select", WantsProj)
    case _ => Go(s, false, Dead)
  }

  function StepPred(s: State, t: string): State {
    match s.mode
    case WantsPred =>
      if t == "not" then s else if t == "(" then s.(depth := s.depth + 1) else Go(s, true, AfterSubject)
    case AfterSubject => if t in CLOSURE_OPS then Go(s, true, AfterClosureOp) else Go(s, t == ".", AfterSubjectDot)
    case AfterClosureOp => Go(s, true, AfterPred)
    case AfterSubjectDot => Go(s, true, AfterAttr)
    case AfterAttr => if t in ["=", "!=", "~"] then Go(s, true, AfterAttrOp) else Go(s, t == "in", AfterIn)
    case AfterAttrOp => Go(s, true, AfterPred)
    case AfterIn => Go(s, t == "[", InList)
    case InList => Go(s, true, if t == "]" then AfterPred else AfterItem)
    case AfterItem => Go(s, true, if t == "]" then AfterPred else if t == "," then InList else AfterItem)
    case AfterPred =>
      if t == "and" || t == "or" then Go(s, true, WantsPred)
      else if s.depth > 0 then if t == ")" then s.(depth := s.depth - 1) else Go(s, false, Dead)
      else Go(s, t == "select", WantsProj)
    case _ => Go(s, false, Dead)
  }

  function StepSelect(s: State, t: string): State {
    match s.mode
    case WantsProj => Go(s, true, if t == "count" then AfterCount else AfterVar)
    case AfterCount => Go(s, t == "(", InCount)
    case InCount => Go(s, true, AfterCountVar)
    case AfterCountVar => Go(s, t == ")", AfterProj)
    case AfterVar => if t == "." then Go(s, true, AfterVarDot) else AfterProjection(s, t)
    case AfterVarDot => Go(s, true, AfterProj)
    case AfterProj => AfterProjection(s, t)
    case _ => Go(s, false, Dead)
  }

  /** What may follow a projection: another, or the ranking in the place the query's form gives it. */
  function AfterProjection(s: State, t: string): State {
    if t == "," then Go(s, true, WantsProj)
    else if s.prefix then Go(s, t == "by", AfterBy) else Go(s, t == "rank", AfterLateRank)
  }

  function StepRank(s: State, t: string): State {
    match s.mode
    case AfterRank => Go(s, true, AfterRankVar)
    case AfterRankVar => Go(s, t == "in", AfterRankIn)
    case AfterRankIn => Go(s, t == "match", AfterMatch)
    case AfterLateRank => Go(s, true, AfterLateRankVar)
    case AfterLateRankVar => Go(s, t == "by", AfterBy)
    case AfterBy => Go(s, t == "count", AfterMetric)
    case AfterMetric => Go(s, t == "(", InMetric)
    case InMetric => Go(s, t in METRIC_DIRS, AfterDirection)
    case AfterDirection => Go(s, true, AfterMetricVar)
    case AfterMetricVar => Go(s, t == ")", AfterRanking)
    case AfterRanking => if t == "desc" then Go(s, true, AfterDesc) else Go(s, t == "limit", AfterLimit)
    case AfterDesc => Go(s, t == "limit", AfterLimit)
    case AfterLimit => Go(s, G.ParseInt(t).Some?, AtEnd)
    case _ => Go(s, false, Dead)
  }

  function Step(s: State, t: string): State {
    match s.mode
    case AtStart =>
      if t == "show" then Go(s, true, AfterShow)
      else if t == "rank" then State(AfterRank, true, s.depth) else Go(s, t == "match", AfterMatch)
    case AfterShow | AfterPath | AfterFrom | AfterFromName | AfterTo | AfterToName | AfterVia => StepPath(s, t)
    case AfterMatch | AfterKind | AfterBinding | AfterBindingComma => StepMatch(s, t)
    case WantsPred | AfterSubject | AfterSubjectDot | AfterAttr | AfterAttrOp | AfterIn | InList | AfterItem
       | AfterClosureOp | AfterPred => StepPred(s, t)
    case WantsProj | AfterCount | InCount | AfterCountVar | AfterVar | AfterVarDot | AfterProj => StepSelect(s, t)
    case AtEnd | Dead => Go(s, false, Dead)
    case _ => StepRank(s, t)
  }

  function Scan(s: State, ts: seq<string>): State
    decreases |ts|
  {
    if ts == [] then s else Scan(Step(s, ts[0]), ts[1..])
  }

  /** The places where the parser takes the next token without looking whether there is one. */
  predicate Unchecked(m: Mode) {
    || m == AfterFrom || m == AfterTo || m == AfterVia
    || m == AfterRank || m == AfterLateRank || m == AfterBy || m == InMetric || m == AfterDirection || m == AfterLimit
    || m == AfterClosureOp || m == AfterAttrOp || m == InList || m == AfterItem
    || m == WantsProj || m == InCount || m == AfterVarDot
  }

  /** A query may end here. */
  predicate Accepting(s: State) {
    || s.mode == AtEnd || s.mode == AfterRanking || s.mode == AfterDesc
    || ((s.mode == AfterVar || s.mode == AfterProj) && !s.prefix)
  }

  datatype Verdict = Accepts | Rejects(error: Failure)

  function VerdictAt(s: State): Verdict {
    if Accepting(s) then Accepts
    else if Unchecked(s.mode) then Rejects(IndexOutOfRange) else Rejects(SyntaxError)
  }

  function Judge(s: State, ts: seq<string>): Verdict {
    VerdictAt(Scan(s, ts))
  }

  // ---- The machine and the productions agree ------------------------------------------------

  type Judging = (State, seq<string>) -> Verdict

  /** Verdicts that keep to the steps of the machine. The productions are followed with no more known of them than this. */
  ghost predicate Lawful(judge: Judging) {
    && (forall s, ts {:trigger Step(s, ts[0])} :: ts != [] ==> judge(s, ts) == judge(Step(s, ts[0]), ts[1..]))
    && (forall s :: judge(s, []) == VerdictAt(s))
    && forall s: State, ts :: s.mode == Dead ==> judge(s, ts) == Rejects(SyntaxError)
  }

  lemma {:induction false} DeadStays(s: State, ts: seq<string>)
    requires s.mode == Dead
    ensures Scan(s, ts) == s
    decreases |ts|
  {
    if ts != [] {
      assert Step(s, ts[0]) == s;
      DeadStays(s, ts[1..]);
    }
  }

  lemma {:induction false} JudgeIsLawful()
    ensures Lawful(Judge)
  {
    forall s: State, ts | s.mode == Dead ensures Judge(s, ts) == Rejects(SyntaxError) {
      DeadStays(s, ts);
    }
  }

  /** One turn: the verdict at the end of the list, or that after the next token. */
  lemma {:induction false} Look(judge: Judging, s: State, ts: seq<string>)
    requires Lawful(judge)
    ensures judge(s, ts) == if ts == [] then VerdictAt(s) else judge(Step(s, ts[0]), ts[1..])
    ensures ts != [] && Step(s, ts[0]).mode == Dead ==> judge(s, ts) == Rejects(SyntaxError)
  {
  }

  /** A production that starts in s and, where it succeeds, leaves the machine in `next`. */
  ghost predicate Tracks<T>(judge: Judging, o: G.Outcome<T>, s: State, ts: seq<string>, next: State) {
    judge(s, ts) == match o case Done(_, rest) => judge(next, rest) case Failed(e) => Rejects(e)
  }

  // ---- Conditions ----------------------------------------------------------------------------

  lemma {:induction false} ItemsTrack(judge: Judging, items: seq<string>, s: State, ts: seq<string>)
    requires Lawful(judge)
    requires s.mode == InList || (s.mode == AfterItem && !G.Peeks(ts, ","))
    ensures var o := G.MoreItems(items, ts);
            judge(s, ts) == match o case Done(_, rest) => judge(s.(mode := InList), rest) case Failed(e) => Rejects(e)
    ensures G.MoreItems(items, ts).Done? ==> G.Peeks(G.MoreItems(items, ts).rest, "]")
    decreases |ts|
  {
    ItemTracks(judge, s, ts);
    if ts != [] && !G.Peeks(ts, "]") {
      var rest := ts[1..];
      var more := items + [G.StringValue(ts).value];
      if G.Peeks(rest, ",") {
        CommaTracks(judge, s.(mode := AfterItem), rest);
        ItemsTrack(judge, more, s.(mode := InList), rest[1..]);
      } else {
        ItemsTrack(judge, more, s.(mode := AfterItem), rest);
      }
    }
  }

  lemma {:induction false} CommaTracks(judge: Judging, s: State, ts: seq<string>)
    requires Lawful(judge)
    requires s.mode == AfterItem && G.Peeks(ts, ",")
    ensures judge(s, ts) == judge(s.(mode := InList), ts[1..])
  {
    Look(judge, s, ts);
  }

  lemma {:induction false} ItemTracks(judge: Judging, s: State, ts: seq<string>)
    requires Lawful(judge)
    requires s.mode == InList || (s.mode == AfterItem && !G.Peeks(ts, ","))
    ensures judge(s, ts) == if G.Peeks(ts, "]") then judge(s.(mode := InList), ts)
                            else if ts == [] then Rejects(IndexOutOfRange) else judge(s.(mode := AfterItem), ts[1..])
  {
    Look(judge, s, ts);
    if G.Peeks(ts, "]") {
      Look(judge, s.(mode := InList), ts);
    }
  }

  lemma {:induction false} ListTracks(judge: Judging, s: State, ts: seq<string>)
    requires Lawful(judge)
    requires s.mode == AfterIn
    ensures Tracks(judge, G.ListValue(ts), s, ts, s.(mode := AfterPred))
  {
    Look(judge, s, ts);
    if G.Peeks(ts, "[") {
      ItemsTrack(judge, [], s.(mode := InList), ts[1..]);
      var o := G.MoreItems([], ts[1..]);
      if o.Done? {
        ListEnds(judge, s.(mode := InList), o.rest);
      }
    }
  }

  lemma {:induction false} ListEnds(judge: Judging, s: State, ts: seq<string>)
    requires Lawful(judge)
    requires s.mode == InList && G.Peeks(ts, "]")
    ensures judge(s, ts) == judge(s.(mode := AfterPred), ts[1..])
  {
    Look(judge, s, ts);
  }

  lemma {:induction false} ValueTracks(judge: Judging, s: State, ts: seq<string>)
    requires Lawful(judge)
    requires s.mode == AfterAttrOp
    ensures Tracks(judge, G.StringValue(ts), s, ts, s.(mode := AfterPred))
  {
    Look(judge, s, ts);
  }

  lemma {:induction false} OperandTracks(judge: Judging, name: string, attr: string, s: State, ts: seq<string>)
    requires Lawful(judge)
    requires s.mode == AfterAttr
    ensures Tracks(judge, G.Operand(name, attr, ts), s, ts, s.(mode := AfterPred))
  {
    Look(judge, s, ts);
    if G.Peeks(ts, "=") || G.Peeks(ts, "!=") || G.Peeks(ts, "~") {
      ValueTracks(judge, s.(mode := AfterAttrOp), ts[1..]);
    } else if G.Peeks(ts, "in") {
      ListTracks(judge, s.(mode := AfterIn), ts[1..]);
    }
  }

  lemma {:induction false} AttrTracks(judge: Judging, s: State, ts: seq<string>)
    requires Lawful(judge)
    requires s.mode == AfterSubject && |ts| > 2 && ts[1] == "."
    ensures Tracks(judge, G.AttrPredicate(ts), s, ts[1..], s.(mode := AfterPred))
  {
    Look(judge, s, ts[1..]);
    Look(judge, s.(mode := AfterSubjectDot), ts[1..][1..]);
    OperandTracks(judge, ts[0], ts[1..][1..][0], s.(mode := AfterAttr), ts[1..][1..][1..]);
  }

  lemma {:induction false} ClosureTracks(judge: Judging, s: State, ts: seq<string>)
    requires Lawful(judge)
    requires s.mode == AfterSubject && |ts| > 1 && ts[1] in CLOSURE_OPS
    ensures Tracks(judge, G.ClosurePredicate(ts), s, ts[1..], s.(mode := AfterPred))
  {
    Look(judge, s, ts[1..]);
    RightSideTracks(judge, s.(mode := AfterClosureOp), ts[1..][1..]);
  }

  lemma {:induction false} RightSideTracks(judge: Judging, s: State, ts: seq<string>)
    requires Lawful(judge)
    requires s.mode == AfterClosureOp
    ensures judge(s, ts) == if ts == [] then Rejects(IndexOutOfRange) else judge(s.(mode := AfterPred), ts[1..])
  {
    Look(judge, s, ts);
  }

  lemma {:induction false} OrTracks(judge: Judging, s: State, ts: seq<string>)
    requires Lawful(judge)
    requires s.mode == WantsPred
    ensures var o := G.OrExpr(ts);
            Tracks(judge, o, s, ts, s.(mode := AfterPred)) && (o.Done? ==> !G.Peeks(o.rest, "or") && !G.Peeks(o.rest, "and"))
    decreases |ts|, 5
  {
    AndTracks(judge, s, ts);
    var o := G.AndExpr(ts);
    if o.Done? {
      OrLoopTracks(judge, o.value, s.(mode := AfterPred), o.rest);
    }
  }

  lemma {:induction false} OrLoopTracks(judge: Judging, left: Pred, s: State, ts: seq<string>)
    requires Lawful(judge)
    requires s.mode == AfterPred && !G.Peeks(ts, "and")
    ensures var o := G.OrLoop(left, ts);
            Tracks(judge, o, s, ts, s) && (o.Done? ==> !G.Peeks(o.rest, "or") && !G.Peeks(o.rest, "and"))
    decreases |ts|, 0
  {
    if G.Peeks(ts, "or") {
      Look(judge, s, ts);
      AndTracks(judge, s.(mode := WantsPred), ts[1..]);
      var o := G.AndExpr(ts[1..]);
      if o.Done? {
        OrLoopTracks(judge, OrPred(left, o.value), s, o.rest);
      }
    }
  }

  lemma {:induction false} AndTracks(judge: Judging, s: State, ts: seq<string>)
    requires Lawful(judge)
    requires s.mode == WantsPred
    ensures var o := G.AndExpr(ts); Tracks(judge, o, s, ts, s.(mode := AfterPred)) && (o.Done? ==> !G.Peeks(o.rest, "and"))
    decreases |ts|, 4
  {
    NotTracks(judge, s, ts);
    var o := G.NotExpr(ts);
    if o.Done? {
      AndLoopTracks(judge, o.value, s.(mode := AfterPred), o.rest);
    }
  }

  lemma {:induction false} AndLoopTracks(judge: Judging, left: Pred, s: State, ts: seq<string>)
    requires Lawful(judge)
    requires s.mode == AfterPred
    ensures var o := G.AndLoop(left, ts); Tracks(judge, o, s, ts, s) && (o.Done? ==> !G.Peeks(o.rest, "and"))
    decreases |ts|, 0
  {
    if G.Peeks(ts, "and") {
      Look(judge, s, ts);
      NotTracks(judge, s.(mode := WantsPred), ts[1..]);
      var o := G.NotExpr(ts[1..]);
      if o.Done? {
        AndLoopTracks(judge, AndPred(left, o.value), s, o.rest);
      }
    }
  }

  lemma {:induction false} NotTracks(judge: Judging, s: State, ts: seq<string>)
    requires Lawful(judge)
    requires s.mode == WantsPred
    ensures Tracks(judge, G.NotExpr(ts), s, ts, s.(mode := AfterPred))
    decreases |ts|, 3
  {
    if G.Peeks(ts, "not") {
      Look(judge, s, ts);
      NotTracks(judge, s, ts[1..]);
    } else {
      PrimaryTracks(judge, s, ts);
    }
  }

  lemma {:induction false} PrimaryTracks(judge: Judging, s: State, ts: seq<string>)
    requires Lawful(judge)
    requires s.mode == WantsPred && !G.Peeks(ts, "not")
    ensures Tracks(judge, G.PrimaryPred(ts), s, ts, s.(mode := AfterPred))
    decreases |ts|, 2
  {
    Look(judge, s, ts);
    if G.Peeks(ts, "(") {
      var inner := s.(depth := s.depth + 1);
      OrTracks(judge, inner, ts[1..]);
      var o := G.OrExpr(ts[1..]);
      if o.Done? {
        CloseTracks(judge, s, o.rest);
      }
    } else if ts != [] {
      SubjectTracks(judge, s.(mode := AfterSubject), ts);
    }
  }

  /** After the condition inside parentheses only the closing one can come. */
  lemma {:induction false} CloseTracks(judge: Judging, s: State, ts: seq<string>)
    requires Lawful(judge)
    requires !G.Peeks(ts, "or") && !G.Peeks(ts, "and")
    ensures Tracks(judge, G.Expect(ts, ")"), State(AfterPred, s.prefix, s.depth + 1), ts, s.(mode := AfterPred))
  {
    Look(judge, State(AfterPred, s.prefix, s.depth + 1), ts);
  }

  lemma {:induction false} SubjectTracks(judge: Judging, s: State, ts: seq<string>)
    requires Lawful(judge)
    requires s.mode == AfterSubject && ts != [] && ts[0] != "("
    ensures Tracks(judge, G.PrimaryPred(ts), s, ts[1..], s.(mode := AfterPred))
  {
    Look(judge, s, ts[1..]);
    if |ts| > 1 && ts[1] in CLOSURE_OPS {
      ClosureTracks(judge, s, ts);
    } else if |ts| > 2 && ts[1] == "." {
      AttrTracks(judge, s, ts);
    } else if |ts| > 1 && ts[1] == "." {
      Look(judge, s.(mode := AfterSubjectDot), ts[1..][1..]);
    }
  }

  // ---- Bindings, conditions and projections ---------------------------------------------------

  /** What is left of a match query once its bindings are read. */
  function AfterBindings(judge: Judging, s: State, ts: seq<string>): Verdict {
    if G.Peeks(ts, "where") then judge(s.(mode := WantsPred), ts[1..])
    else if G.Peeks(ts, "select") then judge(s.(mode := WantsProj), ts[1..]) else Rejects(SyntaxError)
  }

  lemma {:induction false} BindingTracks(judge: Judging, s: State, ts: seq<string>)
    requires Lawful(judge)
    requires s.mode == AfterMatch || (s.mode == AfterBindingComma && ts != [] && ts[0] in KIND_KEYWORDS)
    ensures Tracks(judge, G.Binding(ts), s, ts, s.(mode := AfterBinding))
  {
    Look(judge, s, ts);
    if ts != [] && ts[0] in KIND_KEYWORDS {
      Look(judge, s.(mode := AfterKind), ts[1..]);
      if |ts| > 1 && ts[1] !in KEYWORDS {
        assert ts[1..][1..] == ts[2..];
      }
    }
  }

  lemma {:induction false} MoreBindingsTrack(judge: Judging, bindings: seq<MatchVar>, s: State, ts: seq<string>)
    requires Lawful(judge)
    requires s.mode == AfterBinding
    ensures judge(s, ts) == match G.MoreBindings(bindings, ts)
                            case Done(_, rest) => AfterBindings(judge, s, rest) case Failed(e) => Rejects(e)
    decreases |ts|
  {
    Look(judge, s, ts);
    if G.Peeks(ts, ",") {
      var comma := s.(mode := AfterBindingComma);
      if |ts| > 1 && ts[1] in KIND_KEYWORDS {
        BindingTracks(judge, comma, ts[1..]);
        var o := G.Binding(ts[1..]);
        if o.Done? {
          MoreBindingsTrack(judge, bindings + [o.value], s, o.rest);
        }
      } else {
        EatenCommaTracks(judge, comma, ts[1..]);
      }
    }
  }

  lemma {:induction false} EatenCommaTracks(judge: Judging, s: State, ts: seq<string>)
    requires Lawful(judge)
    requires s.mode == AfterBindingComma && (ts != [] ==> ts[0] !in KIND_KEYWORDS)
    ensures judge(s, ts) == AfterBindings(judge, s, ts)
  {
    Look(judge, s, ts);
  }

  lemma {:induction false} WhereTracks(judge: Judging, s: State, ts: seq<string>)
    requires Lawful(judge)
    requires s.depth == 0
    ensures AfterBindings(judge, s, ts) == match G.Where(ts)
                                    case Done(_, rest) => (if G.Peeks(rest, "select") then judge(s.(mode := WantsProj), rest[1..])
                                                           else Rejects(SyntaxError))
                                    case Failed(e) => Rejects(e)
  {
    if G.Peeks(ts, "where") {
      OrTracks(judge, s.(mode := WantsPred), ts[1..]);
      var o := G.OrExpr(ts[1..]);
      if o.Done? {
        SelectTracks(judge, s.(mode := AfterPred), o.rest);
      }
    }
  }

  lemma {:induction false} SelectTracks(judge: Judging, s: State, ts: seq<string>)
    requires Lawful(judge)
    requires s.mode == AfterPred && s.depth == 0 && !G.Peeks(ts, "or") && !G.Peeks(ts, "and")
    ensures judge(s, ts) == if G.Peeks(ts, "select") then judge(s.(mode := WantsProj), ts[1..]) else Rejects(SyntaxError)
  {
    Look(judge, s, ts);
  }

  lemma {:induction false} ProjTracks(judge: Judging, s: State, ts: seq<string>)
    requires Lawful(judge)
    requires s.mode == WantsProj
    ensures Tracks(judge, G.Proj(ts), s, ts, s.(mode := AfterProj))
  {
    Look(judge, s, ts);
    if G.Peeks(ts, "count") {
      CountTracks(judge, s.(mode := AfterCount), ts);
    } else if ts != [] {
      VarTracks(judge, s.(mode := AfterVar), ts);
    }
  }

  lemma {:induction false} VarTracks(judge: Judging, s: State, ts: seq<string>)
    requires Lawful(judge)
    requires s.mode == AfterVar && ts != [] && !G.Peeks(ts, "count")
    ensures Tracks(judge, G.Proj(ts), s, ts[1..], s.(mode := AfterProj))
  {
    if G.Peeks(ts[1..], ".") {
      AttributeTracks(judge, s, ts[1..]);
    } else {
      NoAttribute(judge, s, ts[1..]);
    }
  }

  lemma {:induction false} AttributeTracks(judge: Judging, s: State, ts: seq<string>)
    requires Lawful(judge)
    requires s.mode == AfterVar && G.Peeks(ts, ".")
    ensures judge(s, ts) == if |ts| == 1 then Rejects(IndexOutOfRange) else judge(s.(mode := AfterProj), ts[1..][1..])
  {
    Look(judge, s, ts);
    Look(judge, s.(mode := AfterVarDot), ts[1..]);
  }

  /** A variable with no dot after it is a whole projection. */
  lemma {:induction false} NoAttribute(judge: Judging, s: State, ts: seq<string>)
    requires Lawful(judge)
    requires s.mode == AfterVar && !G.Peeks(ts, ".")
    ensures judge(s, ts) == judge(s.(mode := AfterProj), ts)
  {
    Look(judge, s, ts);
    Look(judge, s.(mode := AfterProj), ts);
  }

  lemma {:induction false} CountTracks(judge: Judging, s: State, ts: seq<string>)
    requires Lawful(judge)
    requires s.mode == AfterCount && G.Peeks(ts, "count")
    ensures Tracks(judge, G.Proj(ts), s, ts[1..], s.(mode := AfterProj))
  {
    var inside := ts[1..];
    Look(judge, s, inside);
    if G.Peeks(inside, "(") {
      CountVarTracks(judge, s.(mode := InCount), inside[1..]);
    }
  }

  lemma {:induction false} CountVarTracks(judge: Judging, s: State, ts: seq<string>)
    requires Lawful(judge)
    requires s.mode == InCount
    ensures judge(s, ts) == if ts == [] then Rejects(IndexOutOfRange)
                            else if G.Peeks(ts[1..], ")") then judge(s.(mode := AfterProj), ts[1..][1..])
                            else Rejects(SyntaxError)
  {
    Look(judge, s, ts);
    if ts != [] {
      Look(judge, s.(mode := AfterCountVar), ts[1..]);
    }
  }

  lemma {:induction false} MoreProjsTrack(judge: Judging, projs: seq<Projection>, s: State, ts: seq<string>)
    requires Lawful(judge)
    requires s.mode == AfterProj
    ensures var o := G.MoreProjs(projs, ts); Tracks(judge, o, s, ts, s) && (o.Done? ==> !G.Peeks(o.rest, ","))
    decreases |ts|
  {
    if G.Peeks(ts, ",") {
      NextProjTracks(judge, s, ts);
      var o := G.Proj(ts[1..]);
      if o.Done? {
        MoreProjsTrack(judge, projs + [o.value], s, o.rest);
      }
    }
  }

  lemma {:induction false} NextProjTracks(judge: Judging, s: State, ts: seq<string>)
    requires Lawful(judge)
    requires s.mode == AfterProj && G.Peeks(ts, ",")
    ensures Tracks(judge, G.Proj(ts[1..]), s, ts, s)
  {
    Look(judge, s, ts);
    ProjTracks(judge, s.(mode := WantsProj), ts[1..]);
  }

  lemma {:induction false} ProjListTracks(judge: Judging, s: State, ts: seq<string>)
    requires Lawful(judge)
    requires s.mode == WantsProj
    ensures var o := G.ProjList(ts); Tracks(judge, o, s, ts, s.(mode := AfterProj)) && (o.Done? ==> !G.Peeks(o.rest, ","))
  {
    ProjTracks(judge, s, ts);
    var o := G.Proj(ts);
    if o.Done? {
      MoreProjsTrack(judge, [o.value], s.(mode := AfterProj), o.rest);
    }
  }

  lemma {:induction false} BindingsTrack(judge: Judging, s: State, ts: seq<string>)
    requires Lawful(judge)
    requires s.mode == AfterMatch
    ensures judge(s, ts) == match G.Bindings(ts) case Done(_, rest) => AfterBindings(judge, s, rest) case Failed(e) => Rejects(e)
  {
    BindingTracks(judge, s, ts);
    var o := G.Binding(ts);
    if o.Done? {
      MoreBindingsTrack(judge, [o.value], s.(mode := AfterBinding), o.rest);
    }
  }

  /** A match query, from after its first word. */
  lemma {:induction false} MatchTracks(judge: Judging, s: State, ts: seq<string>)
    requires Lawful(judge)
    requires s.mode == AfterMatch && s.depth == 0 && G.Peeks(ts, "match")
    ensures var o := G.Match(ts);
            Tracks(judge, o, s, ts[1..], s.(mode := AfterProj)) && (o.Done? ==> !G.Peeks(o.rest, ","))
  {
    BindingsTrack(judge, s, ts[1..]);
    var bound := G.Bindings(ts[1..]);
    if bound.Done? {
      WhereTracks(judge, s, bound.rest);
      var o := G.Where(bound.rest);
      if o.Done? && G.Peeks(o.rest, "select") {
        ProjListTracks(judge, s.(mode := WantsProj), o.rest[1..]);
      }
    }
  }

  // ---- Rankings, paths and whole queries ----------------------------------------------------------

  /** The verdict on a whole list, given what the outermost production made of it. */
  function Whole<T>(o: G.Outcome<T>): Verdict {
    match o
    case Done(_, rest) => if rest == [] then Accepts else Rejects(SyntaxError)
    case Failed(e) => Rejects(e)
  }

  lemma {:induction false} AtEndTracks(judge: Judging, s: State, ts: seq<string>)
    requires Lawful(judge)
    requires s.mode == AtEnd
    ensures judge(s, ts) == if ts == [] then Accepts else Rejects(SyntaxError)
  {
    Look(judge, s, ts);
  }

  lemma {:induction false} MetricTracks(judge: Judging, s: State, ts: seq<string>)
    requires Lawful(judge)
    requires s.mode == AfterBy
    ensures Tracks(judge, G.Metric(ts), s, ts, s.(mode := AfterRanking))
  {
    Look(judge, s, ts);
    if G.Peeks(ts, "count") {
      OpenTracks(judge, s.(mode := AfterMetric), ts);
    }
  }

  lemma {:induction false} OpenTracks(judge: Judging, s: State, ts: seq<string>)
    requires Lawful(judge)
    requires s.mode == AfterMetric && G.Peeks(ts, "count")
    ensures Tracks(judge, G.Metric(ts), s, ts[1..], s.(mode := AfterRanking))
  {
    Look(judge, s, ts[1..]);
    if G.Peeks(ts[1..], "(") {
      InMetricTracks(judge, s.(mode := InMetric), ts, ts[1..][1..]);
    }
  }

  lemma {:induction false} InMetricTracks(judge: Judging, s: State, all: seq<string>, ts: seq<string>)
    requires Lawful(judge)
    requires s.mode == InMetric && G.Peeks(all, "count") && G.Peeks(all[1..], "(") && ts == all[1..][1..]
    ensures Tracks(judge, G.Metric(all), s, ts, s.(mode := AfterRanking))
  {
    Look(judge, s, ts);
    if ts != [] && ts[0] in METRIC_DIRS {
      MetricVarTracks(judge, s.(mode := AfterDirection), ts[1..]);
    }
  }

  lemma {:induction false} MetricVarTracks(judge: Judging, s: State, ts: seq<string>)
    requires Lawful(judge)
    requires s.mode == AfterDirection
    ensures judge(s, ts) == if ts == [] then Rejects(IndexOutOfRange)
                            else if G.Peeks(ts[1..], ")") then judge(s.(mode := AfterRanking), ts[1..][1..])
                            else Rejects(SyntaxError)
  {
    Look(judge, s, ts);
    if ts != [] {
      Look(judge, s.(mode := AfterMetricVar), ts[1..]);
    }
  }

  lemma {:induction false} LimitTracks(judge: Judging, s: State, ts: seq<string>)
    requires Lawful(judge)
    requires s.mode == AfterRanking || s.mode == AfterDesc
    requires s.mode == AfterRanking ==> !G.Peeks(ts, "desc")
    ensures judge(s, ts) == Whole(G.Limit(ts))
  {
    Look(judge, s, ts);
    if G.Peeks(ts, "limit") {
      NumberTracks(judge, s.(mode := AfterLimit), ts[1..]);
    }
  }

  lemma {:induction false} NumberTracks(judge: Judging, s: State, ts: seq<string>)
    requires Lawful(judge)
    requires s.mode == AfterLimit
    ensures judge(s, ts) == if ts == [] then Rejects(IndexOutOfRange)
                            else if G.ParseInt(ts[0]).Some? && |ts| == 1 then Accepts else Rejects(SyntaxError)
  {
    Look(judge, s, ts);
    if ts != [] {
      AtEndTracks(judge, s.(mode := AtEnd), ts[1..]);
    }
  }

  lemma {:induction false} DirectionTracks(judge: Judging, v: string, inner: Query, metric: RankMetric, s: State, ts: seq<string>)
    requires Lawful(judge)
    requires s.mode == AfterRanking
    ensures judge(s, ts) == Whole(G.Direction(v, inner, metric, ts))
  {
    if G.Peeks(ts, "desc") {
      Look(judge, s, ts);
      LimitTracks(judge, s.(mode := AfterDesc), ts[1..]);
    } else {
      LimitTracks(judge, s, ts);
    }
  }

  /** The ranking, from after its `by`. */
  lemma {:induction false} RankingTracks(judge: Judging, v: string, inner: Query, s: State, ts: seq<string>)
    requires Lawful(judge)
    requires s.mode == AfterBy && G.Peeks(ts, "by")
    ensures judge(s, ts[1..]) == Whole(G.FinishRank(v, inner, ts))
  {
    MetricTracks(judge, s, ts[1..]);
    var o := G.Metric(ts[1..]);
    if o.Done? {
      DirectionTracks(judge, v, inner, o.value, s.(mode := AfterRanking), o.rest);
    }
  }

  /** What follows the projections of a match query with no `rank` before it. */
  lemma {:induction false} PostfixTracks(judge: Judging, query: Query, s: State, ts: seq<string>)
    requires Lawful(judge)
    requires s.mode == AfterProj && !s.prefix && !G.Peeks(ts, ",")
    ensures judge(s, ts) == if G.Peeks(ts, "rank") then Whole(G.RankPostfix(query, ts))
                            else if ts == [] then Accepts else Rejects(SyntaxError)
  {
    Look(judge, s, ts);
    if G.Peeks(ts, "rank") {
      LateRankTracks(judge, query, s.(mode := AfterLateRank), ts);
    }
  }

  lemma {:induction false} LateRankTracks(judge: Judging, query: Query, s: State, ts: seq<string>)
    requires Lawful(judge)
    requires s.mode == AfterLateRank && G.Peeks(ts, "rank")
    ensures judge(s, ts[1..]) == Whole(G.RankPostfix(query, ts))
  {
    Look(judge, s, ts[1..]);
    if |ts| > 1 {
      ByTracks(judge, ts[1..][0], query, s.(mode := AfterLateRankVar), ts[1..][1..]);
    }
  }

  lemma {:induction false} PrefixTracks(judge: Judging, ts: seq<string>)
    requires Lawful(judge)
    requires G.Peeks(ts, "rank")
    ensures judge(State(AfterRank, true, 0), ts[1..]) == Whole(G.RankPrefix(ts))
  {
    Look(judge, State(AfterRank, true, 0), ts[1..]);
    if |ts| > 1 {
      InTracks(judge, ts[1..][0], ts[1..][1..]);
    }
  }

  lemma {:induction false} InTracks(judge: Judging, v: string, ts: seq<string>)
    requires Lawful(judge)
    ensures judge(State(AfterRankVar, true, 0), ts)
         == if G.Peeks(ts, "in") then judge(State(AfterRankIn, true, 0), ts[1..]) else Rejects(SyntaxError)
    ensures G.Peeks(ts, "in") ==> judge(State(AfterRankIn, true, 0), ts[1..]) == Ranked(v, ts[1..])
  {
    Look(judge, State(AfterRankVar, true, 0), ts);
    if G.Peeks(ts, "in") {
      RankedTracks(judge, v, ts[1..]);
    }
  }

  /** A match query and the ranking after it. */
  function Ranked(v: string, ts: seq<string>): Verdict {
    match G.Match(ts)
    case Done(q, rest) => Whole(G.FinishRank(v, q, rest))
    case Failed(e) => Rejects(e)
  }

  lemma {:induction false} RankedTracks(judge: Judging, v: string, ts: seq<string>)
    requires Lawful(judge)
    ensures judge(State(AfterRankIn, true, 0), ts) == Ranked(v, ts)
  {
    Look(judge, State(AfterRankIn, true, 0), ts);
    if G.Peeks(ts, "match") {
      MatchTracks(judge, State(AfterMatch, true, 0), ts);
      var o := G.Match(ts);
      if o.Done? {
        ByTracks(judge, v, o.value, State(AfterProj, true, 0), o.rest);
      }
    }
  }

  lemma {:induction false} ByTracks(judge: Judging, v: string, inner: Query, s: State, ts: seq<string>)
    requires Lawful(judge)
    requires s.mode == AfterLateRankVar || (s.mode == AfterProj && s.prefix && !G.Peeks(ts, ","))
    ensures judge(s, ts) == Whole(G.FinishRank(v, inner, ts))
  {
    Look(judge, s, ts);
    if G.Peeks(ts, "by") {
      RankingTracks(judge, v, inner, s.(mode := AfterBy), ts);
    }
  }

  lemma {:induction false} QuotedTracks(judge: Judging, s: State, ts: seq<string>, next: Mode)
    requires Lawful(judge)
    requires (s.mode == AfterFrom && next == AfterFromName) || (s.mode == AfterTo && next == AfterToName)
    ensures Tracks(judge, G.QuotedName(ts), s, ts, s.(mode := next))
  {
    Look(judge, s, ts);
  }

  lemma {:induction false} PathEndsTrack(judge: Judging, s: State, ts: seq<string>)
    requires Lawful(judge)
    requires s.mode == AfterFrom
    ensures judge(s, ts) == Whole(G.PathEnds(ts))
  {
    QuotedTracks(judge, s, ts, AfterFromName);
    var o := G.QuotedName(ts);
    if o.Done? {
      ToTracks(judge, s.(mode := AfterFromName), o.rest);
    }
  }

  lemma {:induction false} ToTracks(judge: Judging, s: State, ts: seq<string>)
    requires Lawful(judge)
    requires s.mode == AfterFromName
    ensures judge(s, ts) == if G.Peeks(ts, "to") then SecondEnd(ts[1..]) else Rejects(SyntaxError)
  {
    Look(judge, s, ts);
    if G.Peeks(ts, "to") {
      SecondEndTracks(judge, s.(mode := AfterTo), ts[1..]);
    }
  }

  /** The part of the path grammar that follows `to`. */
  function SecondEnd(ts: seq<string>): Verdict {
    match G.QuotedName(ts)
    case Failed(e) => Rejects(e)
    case Done(_, rest) =>
      if !G.Peeks(rest, "via") then Rejects(SyntaxError)
      else if |rest| == 1 then Rejects(IndexOutOfRange)
      else if rest[1] in ["calls", "inherits"] && |rest| == 2 then Accepts else Rejects(SyntaxError)
  }

  lemma {:induction false} SecondEndTracks(judge: Judging, s: State, ts: seq<string>)
    requires Lawful(judge)
    requires s.mode == AfterTo
    ensures judge(s, ts) == SecondEnd(ts)
  {
    QuotedTracks(judge, s, ts, AfterToName);
    var o := G.QuotedName(ts);
    if o.Done? {
      Look(judge, s.(mode := AfterToName), o.rest);
      if G.Peeks(o.rest, "via") {
        ViaTracks(judge, s.(mode := AfterVia), o.rest[1..]);
      }
    }
  }

  lemma {:induction false} ViaTracks(judge: Judging, s: State, ts: seq<string>)
    requires Lawful(judge)
    requires s.mode == AfterVia
    ensures judge(s, ts) == if ts == [] then Rejects(IndexOutOfRange)
                            else if ts[0] in ["calls", "inherits"] && |ts| == 1 then Accepts else Rejects(SyntaxError)
  {
    Look(judge, s, ts);
    if ts != [] {
      AtEndTracks(judge, s.(mode := AtEnd), ts[1..]);
    }
  }

  lemma {:induction false} ShowTracks(judge: Judging, ts: seq<string>)
    requires Lawful(judge)
    requires G.Peeks(ts, "show")
    ensures judge(START, ts) == Whole(G.ShowPath(ts))
  {
    Look(judge, START, ts);
    Look(judge, START.(mode := AfterShow), ts[1..]);
    if G.Peeks(ts[1..], "path") {
      Look(judge, START.(mode := AfterPath), ts[1..][1..]);
      if G.Peeks(ts[1..][1..], "from") {
        PathEndsTrack(judge, START.(mode := AfterFrom), ts[1..][1..][1..]);
      }
    }
  }

  lemma {:induction false} PlainTracks(judge: Judging, ts: seq<string>)
    requires Lawful(judge)
    requires !G.Peeks(ts, "show") && !G.Peeks(ts, "rank")
    ensures judge(START, ts) == Whole(G.AnyQuery(ts))
  {
    Look(judge, START, ts);
    if G.Peeks(ts, "match") {
      MatchTracks(judge, START.(mode := AfterMatch), ts);
      var o := G.Match(ts);
      if o.Done? {
        PostfixTracks(judge, o.value, START.(mode := AfterProj), o.rest);
      }
    }
  }

  lemma {:induction false} QueryTracks(judge: Judging, ts: seq<string>)
    requires Lawful(judge)
    ensures judge(START, ts) == Whole(G.AnyQuery(ts))
  {
    if G.Peeks(ts, "show") {
      ShowTracks(judge, ts);
    } else if G.Peeks(ts, "rank") {
      Look(judge, START, ts);
      PrefixTracks(judge, ts);
    } else {
      PlainTracks(judge, ts);
    }
  }

  // ---- What the parser makes of every token list --------------------------------------------------

  lemma {:induction false} ParsedVerdict(ts: seq<string>)
    ensures Whole(G.AnyQuery(ts)) == match G.ParseTokens(ts) case Ok(_) => Accepts case Err(e) => Rejects(e)
  {
  }

  /** Where the list stops decides what is made of it. */
  lemma {:induction false} StopDecides(ts: seq<string>)
    ensures G.ParseTokens(ts).Ok? <==> Accepting(Scan(START, ts))
    ensures G.ParseTokens(ts) == Err(IndexOutOfRange) <==> Unchecked(Scan(START, ts).mode)
  {
    JudgeIsLawful();
    QueryTracks(Judge, ts);
    ParsedVerdict(ts);
  }

  // ---- Which lists begin a query ------------------------------------------------------------------

  /** The least number of tokens still needed. */
  function ToGo(s: State): nat {
    var ranking := if s.prefix then 6 else 0;
    match s.mode
    case AtStart => 5 + ranking
    case AfterShow => 7
    case AfterPath => 6
    case AfterFrom => 5
    case AfterFromName => 4
    case AfterTo => 3
    case AfterToName => 2
    case AfterVia => 1
    case AfterRank => 7 + ranking
    case AfterRankVar => 6 + ranking
    case AfterRankIn => 5 + ranking
    case AfterMatch => 4 + ranking
    case AfterKind => 3 + ranking
    case AfterBinding | AfterBindingComma => 2 + ranking
    case WantsPred | AfterSubjectDot => 5 + s.depth + ranking
    case AfterSubject | AfterAttr | AfterIn => 4 + s.depth + ranking
    case AfterClosureOp | AfterAttrOp | InList | AfterItem => 3 + s.depth + ranking
    case AfterPred => 2 + s.depth + ranking
    case AfterCount => 3 + ranking
    case InCount => 2 + ranking
    case WantsProj | AfterCountVar | AfterVarDot => 1 + ranking
    case AfterVar | AfterProj => ranking
    case AfterLateRank => 7
    case AfterLateRankVar => 6
    case AfterBy => 5
    case AfterMetric => 4
    case InMetric => 3
    case AfterDirection => 2
    case AfterMetricVar | AfterLimit => 1
    case AfterRanking | AfterDesc | AtEnd | Dead => 0
  }

  /** A token that brings the end nearer. */
  function Onward(s: State): string {
    match s.mode
    case AtStart | AfterRankIn => "match"
    case AfterShow => "path"
    case AfterPath => "from"
    case AfterFromName => "to"
    case AfterToName => "via"
    case AfterFrom | AfterTo => "\"f\""
    case AfterVia => "calls"
    case AfterRankVar => "in"
    case AfterMatch => "function"
    case AfterBinding | AfterBindingComma => "select"
    case AfterSubject => "calls+"
    case AfterAttr => "="
    case AfterIn => "["
    case InList | AfterItem => "]"
    case AfterPred => if s.depth > 0 then ")" else "select"
    case AfterCount | AfterMetric => "("
    case AfterCountVar | AfterMetricVar => ")"
    case AfterVar | AfterProj | AfterLateRankVar => "by"
    case AfterBy => "count"
    case InMetric => "callers"
    case AfterLimit => "1"
    case _ => "f"
  }

  ghost predicate Nears(s: State) {
    Step(s, Onward(s)).mode != Dead && ToGo(Step(s, Onward(s))) < ToGo(s)
  }

  lemma {:induction false} OnwardPath(s: State)
    requires s.mode in {AfterShow, AfterPath, AfterFrom, AfterFromName, AfterTo, AfterToName, AfterVia}
    ensures Nears(s)
  {
  }

  lemma {:induction false} OnwardMatch(s: State)
    requires s.mode in {AtStart, AfterRank, AfterRankVar, AfterRankIn, AfterMatch, AfterKind, AfterBinding, AfterBindingComma}
    ensures Nears(s)
  {
    assert "f" !in KEYWORDS;
  }

  lemma {:induction false} OnwardPred(s: State)
    requires s.mode in {WantsPred, AfterSubject, AfterSubjectDot, AfterAttr, AfterAttrOp}
    ensures Nears(s)
  {
  }

  lemma {:induction false} OnwardTail(s: State)
    requires s.mode in {AfterIn, InList, AfterItem, AfterClosureOp, AfterPred}
    ensures Nears(s)
  {
  }

  lemma {:induction false} OnwardSelect(s: State)
    requires s.mode in {WantsProj, AfterCount, InCount, AfterCountVar, AfterVarDot}
    ensures Nears(s)
  {
  }

  lemma {:induction false} OnwardRanked(s: State)
    requires (s.mode == AfterVar || s.mode == AfterProj) && s.prefix
    ensures Nears(s)
  {
  }

  lemma {:induction false} OnwardRank(s: State)
    requires s.mode in {AfterLateRank, AfterLateRankVar, AfterBy, AfterMetric, InMetric, AfterDirection, AfterMetricVar}
    ensures Nears(s)
  {
  }

  lemma {:induction false} OnwardLimit(s: State)
    requires s.mode == AfterLimit
    ensures Nears(s)
  {
    OneIsANumber();
  }

  lemma {:induction false} OneIsANumber()
    ensures G.ParseInt("1").Some?
  {
    Text.RunIs("1", Text.IsDigit, 1);
  }

  lemma {:induction false} OnwardNears(s: State)
    requires s.mode != Dead && !Accepting(s)
    ensures Nears(s)
  {
    match s.mode
    case AfterShow | AfterPath | AfterFrom | AfterFromName | AfterTo | AfterToName | AfterVia => OnwardPath(s);
    case AtStart | AfterRank | AfterRankVar | AfterRankIn | AfterMatch | AfterKind | AfterBinding | AfterBindingComma =>
      OnwardMatch(s);
    case WantsPred | AfterSubject | AfterSubjectDot | AfterAttr | AfterAttrOp => OnwardPred(s);
    case AfterIn | InList | AfterItem | AfterClosureOp | AfterPred => OnwardTail(s);
    case WantsProj | AfterCount | InCount | AfterCountVar | AfterVarDot => OnwardSelect(s);
    case AfterVar | AfterProj => OnwardRanked(s);
    case AfterLimit => OnwardLimit(s);
    case _ => OnwardRank(s);
  }

  /** From wherever a query can still come about, some tokens complete it. */
  lemma {:induction false} Completes(s: State) returns (more: seq<string>)
    requires s.mode != Dead
    ensures Accepting(Scan(s, more))
    decreases ToGo(s)
  {
    if Accepting(s) {
      more := [];
    } else {
      OnwardNears(s);
      var rest := Completes(Step(s, Onward(s)));
      more := [Onward(s)] + rest;
      assert more[1..] == rest;
    }
  }

  lemma {:induction false} ScanAppend(s: State, a: seq<string>, b: seq<string>)
    ensures Scan(s, a + b) == Scan(Scan(s, a), b)
    decreases |a|
  {
    if a == [] {
      assert a + b == b;
    } else {
      assert (a + b)[1..] == a[1..] + b;
      ScanAppend(Step(s, a[0]), a[1..], b);
    }
  }

  /** Some tokens after these make an accepted query of them. */
  ghost predicate BeginsQuery(ts: seq<string>) {
    exists more :: G.ParseTokens(ts + more).Ok?
  }

  lemma {:induction false} BeginsQueryIff(ts: seq<string>)
    ensures BeginsQuery(ts) <==> Scan(START, ts).mode != Dead
  {
    if Scan(START, ts).mode != Dead {
      var more := Completes(Scan(START, ts));
      AcceptedWith(ts, more);
    }
    forall more | G.ParseTokens(ts + more).Ok? ensures Scan(START, ts).mode != Dead {
      AcceptedWith(ts, more);
      if Scan(START, ts).mode == Dead {
        DeadStays(Scan(START, ts), more);
      }
    }
  }

  lemma {:induction false} AcceptedWith(ts: seq<string>, more: seq<string>)
    ensures G.ParseTokens(ts + more).Ok? <==> Accepting(Scan(Scan(START, ts), more))
  {
    ScanAppend(START, ts, more);
    StopDecides(ts + more);
  }

  lemma {:induction false} ThreeWays(r: Result<Parsed>, s: State, begins: bool)
    requires (r.Ok? <==> Accepting(s)) && (r == Err(IndexOutOfRange) <==> Unchecked(s.mode)) && (begins <==> s.mode != Dead)
    ensures r == Err(IndexOutOfRange) ==> begins
    ensures r == Err(SyntaxError) <==> !begins || (!Unchecked(s.mode) && !Accepting(s))
  {
    match r
    case Ok(_) =>
    case Err(SyntaxError) =>
    case Err(IndexOutOfRange) =>
  }

  /**
   A token list raises the index error exactly when it stops where the next token is
   taken unchecked. Every such list begins a query. The parse error is raised by the
   lists that begin none and by the beginnings that stop anywhere else short of the end.
   */
  lemma {:induction false} IndexErrorIff(ts: seq<string>)
    ensures G.ParseTokens(ts) == Err(IndexOutOfRange) <==> Unchecked(Scan(START, ts).mode)
    ensures G.ParseTokens(ts) == Err(IndexOutOfRange) ==> BeginsQuery(ts)
    ensures G.ParseTokens(ts) == Err(SyntaxError)
            <==> !BeginsQuery(ts) || (!Unchecked(Scan(START, ts).mode) && !Accepting(Scan(START, ts)))
  {
    StopDecides(ts);
    BeginsQueryIff(ts);
    ThreeWays(G.ParseTokens(ts), Scan(START, ts), BeginsQuery(ts));
  }

  lemma {:induction false} LexErrorIsSyntax(s: string)
    requires L.Lex(s).Err?
    ensures L.Lex(s) == Err(SyntaxError)
    decreases |s|
  {
    if Text.IsSpace(s[0]) {
      LexErrorIsSyntax(s[1..]);
    } else if L.TokenEnd(s).Some? {
      LexErrorIsSyntax(s[L.TokenEnd(s).value..]);
    }
  }

  /** A text raises the index error exactly when it is made of tokens and these stop at an unchecked read. */
  lemma {:induction false} TextIndexErrorIff(text: string)
    ensures G.Parse(text) == Err(IndexOutOfRange)
       <==> var lexed := L.Lex(Text.Trim(text)); lexed.Ok? && Unchecked(Scan(START, lexed.value).mode)
  {
    var lexed := L.Lex(Text.Trim(text));
    if lexed.Ok? {
      StopDecides(lexed.value);
    } else {
      LexErrorIsSyntax(Text.Trim(text));
    }
  }

  /** Both errors do occur on beginnings of queries. */
  lemma {:induction false} BeginningsRaiseBoth()
    ensures G.ParseTokens(["show", "path", "from"]) == Err(IndexOutOfRange)
    ensures G.ParseTokens(["show", "path"]) == Err(SyntaxError) && BeginsQuery(["show", "path"])
  {
    ScanPath();
    IndexErrorIff(["show", "path", "from"]);
    IndexErrorIff(["show", "path"]);
    BeginsQueryIff(["show", "path"]);
  }

  lemma {:induction false} ScanPath()
    ensures Scan(START, ["show", "path"]).mode == AfterPath && Scan(START, ["show", "path", "from"]).mode == AfterFrom
  {
    var show, path := START.(mode := AfterShow), START.(mode := AfterPath);
    assert ["show", "path"][1..] == ["path"] && ["show", "path", "from"][1..] == ["path", "from"];
    assert ["path", "from"][1..] == ["from"] && ["path"][1..] == [] && ["from"][1..] == [];
    assert Step(START, "show") == show && Step(show, "path") == path && Step(path, "from").mode == AfterFrom;
  }
}
