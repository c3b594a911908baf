/**
 * When the symbolic evaluator gives a term and when it raises which error, read off the
 * syntax of the function, and what it does outside the subset in which its term is exact.
 */
module EvaluatorErrors {
  import opened Options
  import opened SymbolicEvaluator

  // ---- What stands in an expression ------------------------------------------------------

  /** No expression and no operator the evaluator has no case for. */
  predicate ReadableExpr(e: Expr) {
    match e
    case Wrapped(inner) => ReadableExpr(inner)
    case Unary(op, operand) => op != OtherUnary && ReadableExpr(operand)
    case Cond(c, a, b) => ReadableExpr(c) && ReadableExpr(a) && ReadableExpr(b)
    case Binary(_, lhs, rhs) => ReadableExpr(lhs) && ReadableExpr(rhs)
    case Assign(_, source) => ReadableExpr(source)
    case OtherExpr => false
    case _ => true
  }

  function ReadsOf(e: Expr): set<string> {
    match e
    case Wrapped(inner) => ReadsOf(inner)
    case Ref(n) => {n}
    case Unary(_, operand) => ReadsOf(operand)
    case Cond(c, a, b) => ReadsOf(c) + ReadsOf(a) + ReadsOf(b)
    case Binary(_, lhs, rhs) => ReadsOf(lhs) + ReadsOf(rhs)
    case Assign(_, source) => ReadsOf(source)
    case _ => {}
  }

  function WritesOf(e: Expr): set<string> {
    match e
    case Wrapped(inner) => WritesOf(inner)
    case Unary(_, operand) => WritesOf(operand)
    case Cond(c, a, b) => WritesOf(c) + WritesOf(a) + WritesOf(b)
    case Binary(_, lhs, rhs) => WritesOf(lhs) + WritesOf(rhs)
    case Assign(target, source) => WritesOf(source) + {Spelling(Unwrap(target))}
    case _ => {}
  }

  /** What the outcome of an expression says about it. */
  ghost predicate ExprOutcome(e: Expr, env: Env, r: Result<(Term, Env)>) {
    match r
    case Ok(v) => ReadableExpr(e) && v.1.Keys == env.Keys + WritesOf(e) && ReadsOf(e) <= env.Keys + WritesOf(e)
    case Err(KeyError(n)) => n in ReadsOf(e) && n !in env
    case Err(NotImplemented) => !ReadableExpr(e)
    case Err(NoReturn) => false
    case Err(SortMismatch) => true
  }

  lemma {:induction false} ExprOutcomes(e: Expr, env: Env)
    ensures ExprOutcome(e, env, SymExpr(e, env))
    decreases e, 1
  {
    match e
    case Wrapped(inner) => ExprOutcomes(inner, env);
    case Ref(_) =>
    case Lit(_) =>
    case OtherExpr =>
    case Unary(_, operand) => ExprOutcomes(operand, env);
    case Assign(_, source) => ExprOutcomes(source, env);
    case Binary(_, lhs, rhs) =>
      ExprOutcomes(rhs, env);
      var r := SymExpr(rhs, env);
      if r.Ok? {
        ExprOutcomes(lhs, r.value.1);
      }
    case Cond(c, a, b) => CondOutcomes(c, a, b, env);
  }

  lemma {:induction false} CondOutcomes(c: Expr, a: Expr, b: Expr, env: Env)
    ensures ExprOutcome(Cond(c, a, b), env, SymExpr(Cond(c, a, b), env))
    decreases Cond(c, a, b), 0
  {
    var e, rc := Cond(c, a, b), SymExpr(c, env);
    ExprOutcomes(c, env);
    if rc.Err? {
      assert SymExpr(e, env) == rc;
    } else {
      var ra := SymExpr(a, rc.value.1);
      ExprOutcomes(a, rc.value.1);
      if ra.Err? {
        assert SymExpr(e, env) == ra;
      } else {
        ExprOutcomes(b, ra.value.1);
        CondEnds(c, a, b, env, rc.value, ra.value);
      }
    }
  }

  /** Test and first branch have been evaluated. */
  lemma {:induction false} CondEnds(c: Expr, a: Expr, b: Expr, env: Env, vc: (Term, Env), va: (Term, Env))
    requires SymExpr(c, env) == Ok(vc) && ExprOutcome(c, env, Ok(vc))
    requires SymExpr(a, vc.1) == Ok(va) && ExprOutcome(a, vc.1, Ok(va))
    requires ExprOutcome(b, va.1, SymExpr(b, va.1))
    ensures ExprOutcome(Cond(c, a, b), env, SymExpr(Cond(c, a, b), env))
  {
    var rb := SymExpr(b, va.1);
    if rb.Err? {
      assert SymExpr(Cond(c, a, b), env) == rb;
    }
  }

  // ---- What stands in a statement --------------------------------------------------------

  predicate ReadableDecls(vars: seq<VarDecl>) {
    vars != [] ==> (vars[0].init.Some? ==> ReadableExpr(vars[0].init.value)) && ReadableDecls(vars[1..])
  }

  function DeclReads(vars: seq<VarDecl>): set<string> {
    if vars == [] then {} else (if vars[0].init.Some? then ReadsOf(vars[0].init.value) else {}) + DeclReads(vars[1..])
  }

  function DeclWrites(vars: seq<VarDecl>): set<string> {
    if vars == [] then {}
    else {vars[0].name} + (if vars[0].init.Some? then WritesOf(vars[0].init.value) else {}) + DeclWrites(vars[1..])
  }

  /** Blocks, declarations, `if`, `return`, and expression statements that are an operator or an assignment. */
  predicate Readable(s: Stmt) {
    match s
    case Compound(body) => forall t :: t in body ==> Readable(t)
    case DeclStmt(vars) => ReadableDecls(vars)
    case If(test, thenS, elseS) => ReadableExpr(test) && Readable(thenS) && (elseS.Some? ==> Readable(elseS.value))
    case Return(e) => ReadableExpr(e)
    case ExprStmt(e) => (e.Binary? || e.Assign?) && ReadableExpr(e)
    case OtherStmt => false
  }

  /** A `return` stands somewhere in the statement. */
  predicate HasReturn(s: Stmt) {
    match s
    case Compound(body) => exists t :: t in body && HasReturn(t)
    case If(_, thenS, elseS) => HasReturn(thenS) || (elseS.Some? && HasReturn(elseS.value))
    case Return(_) => true
    case _ => false
  }

  function Reads(s: Stmt): set<string> {
    match s
    case Compound(body) => set t, n | t in body && n in Reads(t) :: n
    case DeclStmt(vars) => DeclReads(vars)
    case If(test, thenS, elseS) => ReadsOf(test) + Reads(thenS) + if elseS.Some? then Reads(elseS.value) else {}
    case Return(e) => ReadsOf(e)
    case ExprStmt(e) => ReadsOf(e)
    case OtherStmt => {}
  }

  function Writes(s: Stmt): set<string> {
    match s
    case Compound(body) => set t, n | t in body && n in Writes(t) :: n
    case DeclStmt(vars) => DeclWrites(vars)
    case If(test, thenS, elseS) => WritesOf(test) + Writes(thenS) + if elseS.Some? then Writes(elseS.value) else {}
    case Return(e) => WritesOf(e)
    case ExprStmt(e) => WritesOf(e)
    case OtherStmt => {}
  }

  /** What the outcome of a piece of code says about it, given what stands in it. */
  ghost predicate Outcome(readable: bool, hasReturn: bool, read: set<string>, written: set<string>, st: Sym, r: Result<Sym>) {
    match r
    case Ok(v) =>
      && readable && (v.ret.Some? <==> st.ret.Some? || hasReturn)
      && v.env.Keys <= st.env.Keys + written && read <= st.env.Keys + written
    case Err(KeyError(n)) => n in read && n !in st.env
    case Err(NotImplemented) => !readable
    case Err(NoReturn) => false
    case Err(SortMismatch) => true
  }

  lemma {:induction false} DeclOutcomes(vars: seq<VarDecl>, st: Sym)
    ensures var r := SymDecls(vars, st.env);
            Outcome(ReadableDecls(vars), false, DeclReads(vars), DeclWrites(vars), st,
                    if r.Err? then Err(r.error) else Ok(st.(env := r.value)))
    decreases |vars|
  {
    if vars != [] {
      var v := vars[0];
      if v.init.None? {
        DeclOutcomes(vars[1..], st.(env := st.env[v.name := Var(UninitName(v.name))]));
      } else {
        ExprOutcomes(v.init.value, st.env);
        var r := SymExpr(v.init.value, st.env);
        if r.Ok? {
          DeclOutcomes(vars[1..], st.(env := r.value.1[v.name := r.value.0]));
        }
      }
    }
  }

  lemma {:induction false} StmtOutcomes(s: Stmt, st: Sym, same: (Term, Term) -> bool)
    ensures Outcome(Readable(s), HasReturn(s), Reads(s), Writes(s), st, SymStmt(s, st, same))
    decreases s, 2
  {
    match s
    case Compound(body) => StmtsOutcomes(body, st, same);
    case DeclStmt(vars) => DeclOutcomes(vars, st);
    case If(test, thenS, elseS) => IfOutcomes(test, thenS, elseS, st, same);
    case Return(e) => ExprOutcomes(e, st.env);
    case ExprStmt(e) => ExprOutcomes(e, st.env);
    case OtherStmt =>
  }

  lemma {:induction false} IfOutcomes(test: Expr, thenS: Stmt, elseS: Option<Stmt>, st: Sym, same: (Term, Term) -> bool)
    ensures var s := If(test, thenS, elseS);
            Outcome(Readable(s), HasReturn(s), Reads(s), Writes(s), st, SymStmt(s, st, same))
    decreases If(test, thenS, elseS), 1
  {
    var s, rc := If(test, thenS, elseS), SymExpr(test, st.env);
    ExprOutcomes(test, st.env);
    if rc.Err? {
      assert SymStmt(s, st, same) == Err(rc.error);
    } else {
      BranchOutcomes(test, thenS, elseS, rc.value, st, same);
    }
  }

  /** The branches of an `if` whose test has been evaluated. */
  lemma {:induction false} BranchOutcomes(test: Expr, thenS: Stmt, elseS: Option<Stmt>, v: (Term, Env), st: Sym,
                                          same: (Term, Term) -> bool)
    requires SymExpr(test, st.env) == Ok(v) && ExprOutcome(test, st.env, Ok(v))
    ensures var s := If(test, thenS, elseS);
            Outcome(Readable(s), HasReturn(s), Reads(s), Writes(s), st, SymStmt(s, st, same))
    decreases If(test, thenS, elseS), 0
  {
    var s, before := If(test, thenS, elseS), Sym(v.1, st.ret);
    var rt := SymStmt(thenS, before, same);
    StmtOutcomes(thenS, before, same);
    if rt.Err? {
      assert SymStmt(s, st, same) == rt;
    } else if elseS.Some? {
      var re := SymStmt(elseS.value, Sym(v.1, rt.value.ret), same);
      assert SymElse(elseS, Sym(v.1, rt.value.ret), same) == re;
      StmtOutcomes(elseS.value, Sym(v.1, rt.value.ret), same);
      if re.Err? {
        assert SymStmt(s, st, same) == re;
      }
    } else {
      assert SymElse(elseS, Sym(v.1, rt.value.ret), same) == Ok(Sym(v.1, rt.value.ret));
    }
  }

  lemma {:induction false} BodySplits(body: seq<Stmt>)
    requires body != []
    ensures Readable(Compound(body)) <==> Readable(body[0]) && Readable(Compound(body[1..]))
    ensures HasReturn(Compound(body)) <==> HasReturn(body[0]) || HasReturn(Compound(body[1..]))
    ensures Reads(Compound(body)) == Reads(body[0]) + Reads(Compound(body[1..]))
    ensures Writes(Compound(body)) == Writes(body[0]) + Writes(Compound(body[1..]))
  {
    assert forall t :: t in body <==> t == body[0] || t in body[1..];
  }

  lemma {:induction false} StmtsOutcomes(body: seq<Stmt>, st: Sym, same: (Term, Term) -> bool)
    ensures var s := Compound(body);
            Outcome(Readable(s), HasReturn(s), Reads(s), Writes(s), st, SymStmts(body, st, same))
    decreases body, 0
  {
    if body != [] {
      BodySplits(body);
      StmtOutcomes(body[0], st, same);
      var r := SymStmt(body[0], st, same);
      if r.Ok? {
        StmtsOutcomes(body[1..], r.value, same);
      }
    }
  }

  /**
   * Every outcome of a run says something of the function: a term needs a `return` and only
   * readable code whose names are parameters or set somewhere; a missing name is read and no
   * parameter; unreadable code is there when it is complained of; and without a `return` the
   * readable rest has been executed.
   */
  lemma {:induction false} RunOutcomes(fn: Function, same: (Term, Term) -> bool)
    ensures match SymRun(fn, same)
            case Ok(_) => Readable(fn.body) && HasReturn(fn.body) && Reads(fn.body) <= ParamEnv(fn.params).Keys + Writes(fn.body)
            case Err(KeyError(n)) => n in Reads(fn.body) && n !in fn.params
            case Err(NotImplemented) => !Readable(fn.body)
            case Err(NoReturn) => Readable(fn.body) && !HasReturn(fn.body)
            case Err(SortMismatch) => true
  {
    StmtOutcomes(fn.body, Sym(ParamEnv(fn.params), None), same);
  }

  // ---- Details of a run ------------------------------------------------------------------

  /** The right operand is read before what the left one assigns, and the left one after what the right one assigns. */
  lemma {:induction false} RightOperandFirst(op: BinOp, x: string, e: Expr, env: Env)
    requires x in env && SymExpr(e, env).Ok?
    requires OperandSorts(op, SortOf(SymExpr(e, env).value.0), SortOf(env[x]))
    requires OperandSorts(op, SortOf(SymExpr(e, env).value.0), SortOf(SymExpr(e, env).value.0))
    ensures var t := SymExpr(e, env).value.0;
            && SymExpr(Binary(op, Assign(Ref(x), e), Ref(x)), env).Ok?
            && SymExpr(Binary(op, Assign(Ref(x), e), Ref(x)), env).value.0 == Bin(op, t, env[x])
            && SymExpr(Binary(op, Ref(x), Assign(Ref(x), e)), env).Ok?
            && SymExpr(Binary(op, Ref(x), Assign(Ref(x), e)), env).value.0 == Bin(op, t, t)
  {
    assert SymExpr(Ref(x), env) == Ok((env[x], env));
    var r := SymExpr(e, env).value;
    var after := r.1[x := r.0];
    assert SymExpr(Assign(Ref(x), e), env) == Ok((r.0, after));
    assert SymExpr(Ref(x), after) == Ok((r.0, after));
  }

  /** The variable that stands for an uninitialised local is no parameter, and no other local's. */
  lemma {:induction false} UninitialisedIsApart(name: string, other: string, params: seq<string>)
    requires forall p :: p in params ==> '!' !in p
    ensures UninitName(name) !in params
    ensures UninitName(name) == UninitName(other) ==> name == other
  {
    var a, b := UninitName(name), UninitName(other);
    assert a[|name|] == '!';
    if a == b {
      assert name == a[..|name|] && other == b[..|other|];
    }
  }

  /** Which operators are built on which operands: integers for arithmetic and order, any two of one sort for equality, booleans for logic. */
  lemma {:induction false} BuiltIff(op: BinOp, a: Term, b: Term, c: Term)
    ensures BuildBin(op, a, b).Ok? <==>
              || (op in {Add, Sub, Mul, Div, Mod, Lt, Gt, Le, Ge} && SortOf(a) == IntSort && SortOf(b) == IntSort)
              || (op in {Eq, Ne} && SortOf(a) == SortOf(b))
              || (op in {And, Or} && SortOf(a) == BoolSort && SortOf(b) == BoolSort)
    ensures BuildIte(c, a, b).Ok? <==> SortOf(c) == BoolSort && SortOf(a) == SortOf(b)
    ensures BuildBin(op, a, b).Ok? ==> (SortOf(Bin(op, a, b)) == IntSort <==> op in {Add, Sub, Mul, Div, Mod})
    ensures BuildUnary(Minus, a).Ok? <==> SortOf(a) == IntSort
    ensures BuildUnary(Not, a).Ok? <==> SortOf(a) == BoolSort
    ensures BuildUnary(Plus, a) == Ok(a)
  {
  }

  /** An assignment stores under the name assigned to, and under the empty name when the target is none. */
  lemma {:induction false} StoredUnder(target: Expr, source: Expr, env: Env)
    requires SymExpr(source, env).Ok?
    ensures var r, after := SymExpr(source, env).value, SymExpr(Assign(target, source), env);
            && after.Ok? && after.value.0 == r.0
            && after.value.1 == r.1[if Unwrap(target).Ref? then Unwrap(target).name else "" := r.0]
  {
  }

  /** Where both branches leave all names as they were, so does the `if`, whatever the sort of its test. */
  lemma {:induction false} IdleIfStays(test: Expr, thenS: Stmt, elseS: Option<Stmt>, st: Sym, same: (Term, Term) -> bool)
    requires IsIdentity(same) && forall t :: same(t, t)
    requires SymExpr(test, st.env).Ok?
    requires SymStmt(thenS, Sym(SymExpr(test, st.env).value.1, st.ret), same) == Ok(Sym(SymExpr(test, st.env).value.1, st.ret))
    requires elseS.Some? ==>
               SymStmt(elseS.value, Sym(SymExpr(test, st.env).value.1, st.ret), same) == Ok(Sym(SymExpr(test, st.env).value.1, st.ret))
    ensures SymStmt(If(test, thenS, elseS), st, same) == Ok(Sym(SymExpr(test, st.env).value.1, st.ret))
  {
    var env := SymExpr(test, st.env).value.1;
    assert Merge(env, env, env, SymExpr(test, st.env).value.0, same) == env;
  }
}
