/**
 Running loop-free C: a reference interpreter with block scopes, lazy operands and
 early returns, and the static checks that delimit the programs on which
 the symbolic evaluator is compared with it.
 */
module LoopFreeC {
  import opened Options
  import opened SymbolicEvaluator

  type Store = map<string, Value>

  function Get(s: Store, n: string): Value {
    if n in s then s[n] else IntV(0)
  }

  // ---- Expressions ---------------------------------------------------------------------

  function ApplyUnary(m: Machine, op: UnOp, v: Value): Value {
    match op
    case Minus => IntV(m.neg(AsInt(v)))
    case Plus => v
    case Not => BoolV(!AsBool(v))
    case OtherUnary => v
  }

  /** Only the chosen arm of `?:` runs, `&&` and `||` stop early; C leaves the order of other operands open. */
  function RunExpr(m: Machine, e: Expr, s: Store): (Value, Store)
    decreases e
  {
    match e
    case Wrapped(inner) => RunExpr(m, inner, s)
    case Ref(n) => (Get(s, n), s)
    case Lit(v) => (IntV(m.lit(v)), s)
    case Unary(op, operand) =>
      var r := RunExpr(m, operand, s);
      (ApplyUnary(m, op, r.0), r.1)
    case Cond(c, a, b) =>
      var rc := RunExpr(m, c, s);
      if AsBool(rc.0) then RunExpr(m, a, rc.1) else RunExpr(m, b, rc.1)
    case Assign(target, source) =>
      var r := RunExpr(m, source, s);
      (r.0, r.1[Spelling(Unwrap(target)) := r.0])
    case Binary(op, lhs, rhs) =>
      if IsLogical(op) then
        var rl := RunExpr(m, lhs, s);
        if AsBool(rl.0) == (op == Or) then (BoolV(op == Or), rl.1)
        else
          var rr := RunExpr(m, rhs, rl.1);
          (BoolV(AsBool(rr.0)), rr.1)
      else
        var rr := RunExpr(m, rhs, s);
        var rl := RunExpr(m, lhs, rr.1);
        (Apply(m, op, rl.0, rr.0), rl.1)
    case OtherExpr => (IntV(0), s)
  }

  // ---- Statements ------------------------------------------------------------------------

  /** The store, and the value returned once a `return` has run. */
  datatype Outcome = Outcome(store: Store, returned: Option<Value>)

  function RunDecls(m: Machine, rho: string -> int, vars: seq<VarDecl>, s: Store): Store
    decreases |vars|
  {
    if vars == [] then s
    else
      var v := vars[0];
      if v.init.None? then RunDecls(m, rho, vars[1..], s[v.name := IntV(rho(UninitName(v.name)))])
      else
        var r := RunExpr(m, v.init.value, s);
        RunDecls(m, rho, vars[1..], r.1[v.name := r.0])
  }

  function DeclNames(vars: seq<VarDecl>): set<string> {
    set v | v in vars :: v.name
  }

  /** The names a block declares itself. */
  function BlockNames(body: seq<Stmt>): set<string> {
    if body == [] then {}
    else OwnNames(body[0]) + BlockNames(body[1..])
  }

  function OwnNames(st: Stmt): set<string> {
    if st.DeclStmt? then DeclNames(st.vars) else {}
  }

  /** Leaving a block: outer names keep their new values, except those the block hid; its own names are gone. */
  function Leave(outer: Store, inner: Store, hidden: set<string>): Store {
    map n | n in outer :: if n in hidden then outer[n] else Get(inner, n)
  }

  function RunStmt(m: Machine, rho: string -> int, st: Stmt, s: Store): Outcome
    decreases st, 0
  {
    match st
    case Compound(body) =>
      var r := RunStmts(m, rho, body, s);
      Outcome(Leave(s, r.store, BlockNames(body)), r.returned)
    case DeclStmt(vars) => Outcome(RunDecls(m, rho, vars, s), None)
    case If(test, thenS, elseS) =>
      var rc := RunExpr(m, test, s);
      if AsBool(rc.0) then RunBranch(m, rho, thenS, rc.1) else RunElse(m, rho, elseS, rc.1)
    case Return(e) =>
      var r := RunExpr(m, e, s);
      Outcome(r.1, Some(r.0))
    case ExprStmt(e) => Outcome(RunExpr(m, e, s).1, None)
    case OtherStmt => Outcome(s, None)
  }

  /** A branch of an `if` is a block of its own. */
  function RunBranch(m: Machine, rho: string -> int, st: Stmt, s: Store): Outcome
    decreases st, 1
  {
    var r := RunStmt(m, rho, st, s);
    Outcome(Leave(s, r.store, OwnNames(st)), r.returned)
  }

  function RunElse(m: Machine, rho: string -> int, elseS: Option<Stmt>, s: Store): Outcome
    decreases elseS
  {
    if elseS.Some? then RunBranch(m, rho, elseS.value, s) else Outcome(s, None)
  }

  /** Statements in order, until one returns. */
  function RunStmts(m: Machine, rho: string -> int, body: seq<Stmt>, s: Store): Outcome
    decreases body
  {
    if body == [] then Outcome(s, None)
    else
      var r := RunStmt(m, rho, body[0], s);
      if r.returned.Some? then r else RunStmts(m, rho, body[1..], r.store)
  }

  function InputStore(rho: string -> int, params: seq<string>): Store {
    map n | n in params :: IntV(rho(n))
  }

  /** The value a call returns on the inputs rho gives its parameters. */
  function RunFunction(m: Machine, rho: string -> int, fn: Function): Option<Value> {
    RunStmt(m, rho, fn.body, InputStore(rho, fn.params)).returned
  }

  // ---- The programs the evaluator is for -------------------------------------------------

  predicate Assigns(e: Expr)
    decreases e
  {
    match e
    case Wrapped(inner) => Assigns(inner)
    case Unary(_, operand) => Assigns(operand)
    case Cond(c, a, b) => Assigns(c) || Assigns(a) || Assigns(b)
    case Assign(_, _) => true
    case Binary(_, l, r) => Assigns(l) || Assigns(r)
    case _ => false
  }

  type Scope = map<string, Sort>

  function UnarySort(op: UnOp, s: Sort): Option<Sort> {
    match op
    case Minus => if s == IntSort then Some(IntSort) else None
    case Plus => Some(s)
    case Not => if s == BoolSort then Some(BoolSort) else None
    case OtherUnary => None
  }

  /** The sort of a well-sorted expression whose lazily evaluated operands assign nothing. */
  function CheckExpr(scope: Scope, e: Expr): Option<Sort>
    decreases e
  {
    match e
    case Wrapped(inner) => CheckExpr(scope, inner)
    case Ref(n) => if n in scope then Some(scope[n]) else None
    case Lit(_) => Some(IntSort)
    case Unary(op, operand) =>
      var s := CheckExpr(scope, operand);
      if s.None? then None else UnarySort(op, s.value)
    case Cond(c, a, b) =>
      var sa, sb := CheckExpr(scope, a), CheckExpr(scope, b);
      if CheckExpr(scope, c) == Some(BoolSort) && sa.Some? && sa == sb && !Assigns(e) then sa else None
    case Assign(target, source) =>
      var s := CheckExpr(scope, source);
      var t := Unwrap(target);
      if t.Ref? && t.name in scope && s == Some(scope[t.name]) then s else None
    case Binary(op, lhs, rhs) =>
      var sl, sr := CheckExpr(scope, lhs), CheckExpr(scope, rhs);
      if sl.None? || sr.None? || !OperandSorts(op, sl.value, sr.value) || (IsLogical(op) && Assigns(e)) then None
      else if IsArith(op) then Some(IntSort) else Some(BoolSort)
    case OtherExpr => None
  }

  /** Names in scope with their sorts, and every name declared so far anywhere in the function. */
  datatype Check = Check(scope: Scope, declared: set<string>)

  function CheckDecls(c: Check, vars: seq<VarDecl>): Option<Check>
    decreases |vars|
  {
    if vars == [] then Some(c)
    else
      var v := vars[0];
      var s := if v.init.None? then Some(IntSort) else CheckExpr(c.scope, v.init.value);
      if v.name in c.declared || s.None? then None
      else CheckDecls(Check(c.scope[v.name := s.value], c.declared + {v.name}), vars[1..])
  }

  /** No `return` inside, every name declared once in the whole function, conditions boolean, all operands well-sorted. */
  function CheckStmt(c: Check, st: Stmt): Option<Check>
    decreases st
  {
    match st
    case Compound(body) =>
      var r := CheckStmts(c, body);
      if r.None? then None else Some(Check(c.scope, r.value.declared))
    case DeclStmt(vars) => CheckDecls(c, vars)
    case If(test, thenS, elseS) =>
      var rt := CheckStmt(c, thenS);
      if CheckExpr(c.scope, test) != Some(BoolSort) || rt.None? then None
      else
        var re := CheckElse(Check(c.scope, rt.value.declared), elseS);
        if re.None? then None else Some(Check(c.scope, re.value.declared))
    case Return(_) => None
    case ExprStmt(e) => if (e.Binary? || e.Assign?) && CheckExpr(c.scope, e).Some? then Some(c) else None
    case OtherStmt => None
  }

  function CheckElse(c: Check, elseS: Option<Stmt>): Option<Check>
    decreases elseS
  {
    if elseS.Some? then CheckStmt(c, elseS.value) else Some(c)
  }

  function CheckStmts(c: Check, body: seq<Stmt>): Option<Check>
    decreases body
  {
    if body == [] then Some(c)
    else
      var r := CheckStmt(c, body[0]);
      if r.None? then None else CheckStmts(r.value, body[1..])
  }

  function ParamScope(params: seq<string>): Scope {
    map n | n in params :: IntSort
  }

  /** A function of the supported subset: checked statements, then one final `return`. */
  predicate Supported(fn: Function) {
    && fn.body.Compound? && fn.body.body != []
    && var last := fn.body.body[|fn.body.body| - 1];
       var c := CheckStmts(Check(ParamScope(fn.params), set n | n in fn.params), fn.body.body[..|fn.body.body| - 1]);
       last.Return? && c.Some? && CheckExpr(c.value.scope, last.result).Some?
  }

  // ---- Terms mean what runs compute ----------------------------------------------------------

  /** Every name in scope is bound in both worlds, with a term of its sort that denotes its value. */
  ghost predicate Agree(m: Machine, rho: string -> int, scope: Scope, env: Env, s: Store) {
    forall n :: n in scope ==>
      n in env && n in s && SortOf(env[n]) == scope[n] && Denote(m, rho, env[n]) == s[n] && HasSort(s[n], scope[n])
  }

  predicate HasSort(v: Value, s: Sort) {
    v.IntV? <==> s == IntSort
  }

  /** A term and a value produced for the same expression. */
  ghost predicate Matches(m: Machine, rho: string -> int, t: Term, v: Value, s: Sort) {
    SortOf(t) == s && HasSort(v, s) && Denote(m, rho, t) == v
  }

  lemma {:induction false} PureExprKeepsState(m: Machine, e: Expr, env: Env, s: Store)
    requires !Assigns(e)
    ensures RunExpr(m, e, s).1 == s
    ensures SymExpr(e, env).Ok? ==> SymExpr(e, env).value.1 == env
    decreases e
  {
    match e
    case Wrapped(inner) => PureExprKeepsState(m, inner, env, s);
    case Unary(_, operand) => PureExprKeepsState(m, operand, env, s);
    case Cond(c, a, b) =>
      PureExprKeepsState(m, c, env, s);
      PureExprKeepsState(m, a, env, s);
      PureExprKeepsState(m, b, env, s);
    case Binary(_, l, r) =>
      PureExprKeepsState(m, l, env, s);
      PureExprKeepsState(m, r, env, s);
    case _ =>
  }

  /** The expression evaluates symbolically, its term denotes the value it runs to, and both worlds stay in step. */
  ghost predicate Denotes(m: Machine, rho: string -> int, scope: Scope, e: Expr, env: Env, s: Store) {
    var sort, sym, run := CheckExpr(scope, e), SymExpr(e, env), RunExpr(m, e, s);
    && sort.Some? && sym.Ok?
    && Matches(m, rho, sym.value.0, run.0, sort.value)
    && Agree(m, rho, scope, sym.value.1, run.1)
  }

  lemma {:induction false} CondDenotes(m: Machine, rho: string -> int, scope: Scope, c: Expr, a: Expr, b: Expr, env: Env, s: Store)
    requires CheckExpr(scope, Cond(c, a, b)).Some? && Agree(m, rho, scope, env, s)
    requires Denotes(m, rho, scope, c, env, s) && Denotes(m, rho, scope, a, env, s) && Denotes(m, rho, scope, b, env, s)
    ensures Denotes(m, rho, scope, Cond(c, a, b), env, s)
  {
    PureExprKeepsState(m, c, env, s);
    PureExprKeepsState(m, a, env, s);
    PureExprKeepsState(m, b, env, s);
  }

  /** Both sides of a logical operator are free of assignments, so neither order nor skipping shows. */
  lemma {:induction false} LogicalDenotes(m: Machine, rho: string -> int, scope: Scope, op: BinOp, lhs: Expr, rhs: Expr, env: Env, s: Store)
    requires CheckExpr(scope, Binary(op, lhs, rhs)).Some? && IsLogical(op) && Agree(m, rho, scope, env, s)
    requires Denotes(m, rho, scope, lhs, env, s) && Denotes(m, rho, scope, rhs, env, s)
    ensures Denotes(m, rho, scope, Binary(op, lhs, rhs), env, s)
  {
    PureExprKeepsState(m, lhs, env, s);
    PureExprKeepsState(m, rhs, env, s);
  }

  lemma {:induction false} ArithmeticDenotes(m: Machine, rho: string -> int, scope: Scope, op: BinOp, lhs: Expr, rhs: Expr, env: Env, s: Store)
    requires CheckExpr(scope, Binary(op, lhs, rhs)).Some? && !IsLogical(op)
    requires Denotes(m, rho, scope, rhs, env, s)
    requires Denotes(m, rho, scope, lhs, SymExpr(rhs, env).value.1, RunExpr(m, rhs, s).1)
    ensures Denotes(m, rho, scope, Binary(op, lhs, rhs), env, s)
  {
  }

  /** A checked expression denotes, assignments included. */
  lemma {:induction false} ExprCorrect(m: Machine, rho: string -> int, scope: Scope, e: Expr, env: Env, s: Store)
    requires CheckExpr(scope, e).Some? && Agree(m, rho, scope, env, s)
    ensures Denotes(m, rho, scope, e, env, s)
    decreases e
  {
    match e
    case Wrapped(inner) => ExprCorrect(m, rho, scope, inner, env, s);
    case Ref(n) =>
    case Lit(v) =>
    case Unary(op, operand) => ExprCorrect(m, rho, scope, operand, env, s);
    case Cond(c, a, b) =>
      ExprCorrect(m, rho, scope, c, env, s);
      ExprCorrect(m, rho, scope, a, env, s);
      ExprCorrect(m, rho, scope, b, env, s);
      CondDenotes(m, rho, scope, c, a, b, env, s);
    case Assign(target, source) => ExprCorrect(m, rho, scope, source, env, s);
    case Binary(op, lhs, rhs) =>
      ExprCorrect(m, rho, scope, rhs, env, s);
      if IsLogical(op) {
        ExprCorrect(m, rho, scope, lhs, env, s);
        LogicalDenotes(m, rho, scope, op, lhs, rhs, env, s);
      } else {
        ExprCorrect(m, rho, scope, lhs, SymExpr(rhs, env).value.1, RunExpr(m, rhs, s).1);
        ArithmeticDenotes(m, rho, scope, op, lhs, rhs, env, s);
      }
  }

  // ---- The symbolic side alone: sorts, untouched names, no recorded return ------------------

  /** Everything in scope is bound at its sort, and nothing is bound that was never declared. */
  ghost predicate WellSorted(c: Check, env: Env) {
    && c.scope.Keys <= env.Keys <= c.declared
    && forall n :: n in c.scope ==> SortOf(env[n]) == c.scope[n]
  }

  /** Everything bound before is still bound, at the same sort, whether in scope or not. */
  ghost predicate SortsKept(before: Env, after: Env) {
    forall n :: n in before ==> n in after && SortOf(after[n]) == SortOf(before[n])
  }

  lemma {:induction false} ExprSorts(c: Check, e: Expr, env: Env)
    requires CheckExpr(c.scope, e).Some? && WellSorted(c, env)
    ensures var sym := SymExpr(e, env);
            && sym.Ok? && SortOf(sym.value.0) == CheckExpr(c.scope, e).value
            && WellSorted(c, sym.value.1) && sym.value.1.Keys == env.Keys && SortsKept(env, sym.value.1)
    decreases e
  {
    match e
    case Wrapped(inner) => ExprSorts(c, inner, env);
    case Ref(n) =>
    case Lit(v) =>
    case Unary(op, operand) => ExprSorts(c, operand, env);
    case Cond(test, a, b) =>
      ExprSorts(c, test, env);
      var env1 := SymExpr(test, env).value.1;
      ExprSorts(c, a, env1);
      ExprSorts(c, b, SymExpr(a, env1).value.1);
    case Assign(target, source) =>
      ExprSorts(c, source, env);
      AssignKeys(c, SymExpr(source, env).value.1, Unwrap(target).name, SymExpr(source, env).value.0);
    case Binary(op, lhs, rhs) =>
      ExprSorts(c, rhs, env);
      ExprSorts(c, lhs, SymExpr(rhs, env).value.1);
  }

  lemma {:induction false} AssignKeys(c: Check, env: Env, n: string, t: Term)
    requires WellSorted(c, env) && n in c.scope && SortOf(t) == c.scope[n]
    ensures WellSorted(c, env[n := t]) && env[n := t].Keys == env.Keys && SortsKept(env, env[n := t])
  {
    assert env[n := t].Keys == env.Keys + {n};
  }

  /** What a checked piece of code does to the bookkeeping: scopes and declarations only grow, by new names. */
  ghost predicate Grows(before: Check, after: Check, own: set<string>) {
    && before.scope.Keys <= after.scope.Keys
    && (forall n :: n in before.scope ==> after.scope[n] == before.scope[n])
    && before.declared <= after.declared
    && own !! before.declared
    && (forall n :: n in after.scope && n !in before.scope ==> n !in before.declared)
  }

  lemma {:induction false} DeclsSorts(c: Check, vars: seq<VarDecl>, env: Env)
    requires CheckDecls(c, vars).Some? && WellSorted(c, env)
    ensures var sym, c2 := SymDecls(vars, env), CheckDecls(c, vars).value;
            sym.Ok? && WellSorted(c2, sym.value) && SortsKept(env, sym.value) && Grows(c, c2, DeclNames(vars))
    decreases |vars|
  {
    if vars != [] {
      var v := vars[0];
      var t, env1 := Var(UninitName(v.name)), env;
      if v.init.Some? {
        ExprSorts(c, v.init.value, env);
        t, env1 := SymExpr(v.init.value, env).value.0, SymExpr(v.init.value, env).value.1;
      }
      var c1 := Check(c.scope[v.name := SortOf(t)], c.declared + {v.name});
      assert env1[v.name := t].Keys == env1.Keys + {v.name};
      DeclsSorts(c1, vars[1..], env1[v.name := t]);
      assert DeclNames(vars) == {v.name} + DeclNames(vars[1..]) by {
        assert vars == [v] + vars[1..];
      }
    }
  }

  lemma {:induction false} MergeSorts(env: Env, t: Env, e: Env, cond: Term, same: (Term, Term) -> bool)
    requires IsIdentity(same) && SortOf(cond) == BoolSort && SortsKept(env, t) && SortsKept(env, e)
    ensures Mergeable(env, t, e, cond, same)
    ensures SortsKept(env, Merge(env, t, e, cond, same)) && Merge(env, t, e, cond, same).Keys == env.Keys
  {
    assert Merge(env, t, e, cond, same).Keys == env.Keys;
  }

  /** A checked statement executes symbolically whatever branch is meant, records no return, and keeps all sorts. */
  ghost predicate StmtOk(before: Check, after: Check, st: Sym, r: Result<Sym>, own: set<string>) {
    && r.Ok? && r.value.ret == st.ret
    && WellSorted(after, r.value.env) && SortsKept(st.env, r.value.env)
    && Grows(before, after, own)
  }

  lemma {:induction false} StmtSorts(c: Check, st: Stmt, sym: Sym, same: (Term, Term) -> bool)
    requires CheckStmt(c, st).Some? && WellSorted(c, sym.env) && IsIdentity(same)
    ensures StmtOk(c, CheckStmt(c, st).value, sym, SymStmt(st, sym, same), OwnNames(st))
    decreases st, 1
  {
    match st
    case Compound(body) =>
      StmtsSorts(c, body, sym, same);
      WellSortedAfterBlock(c, CheckStmts(c, body).value, sym.env, SymStmts(body, sym, same).value.env);
    case DeclStmt(vars) => DeclsSorts(c, vars, sym.env);
    case If(test, thenS, elseS) => var p := IfSorts(c, test, thenS, elseS, sym, same);
    case ExprStmt(e) => ExprSorts(c, e, sym.env);
  }

  lemma {:induction false} WellSortedAfterBlock(c: Check, inner: Check, before: Env, after: Env)
    requires WellSorted(c, before) && after.Keys <= inner.declared && SortsKept(before, after)
    ensures WellSorted(Check(c.scope, inner.declared), after)
  {
  }

  /** The pieces of a symbolic `if`: condition term, environment before the branches, and both branch environments. */
  datatype Parts = Parts(cond: Term, env: Env, t: Env, e: Env)

  ghost predicate Splits(c: Check, test: Expr, thenS: Stmt, elseS: Option<Stmt>, sym: Sym, same: (Term, Term) -> bool,
                         p: Parts)
    requires CheckStmt(c, thenS).Some?
  {
    var before := Sym(p.env, sym.ret);
    && SymExpr(test, sym.env) == Ok((p.cond, p.env))
    && WellSorted(c, p.env) && WellSorted(Check(c.scope, CheckStmt(c, thenS).value.declared), p.env)
    && SymStmt(thenS, before, same) == Ok(Sym(p.t, sym.ret)) && SortsKept(p.env, p.t)
    && SymElse(elseS, before, same) == Ok(Sym(p.e, sym.ret)) && SortsKept(p.env, p.e)
    && SymStmt(If(test, thenS, elseS), sym, same) == Ok(Sym(Merge(p.env, p.t, p.e, p.cond, same), sym.ret))
  }

  lemma {:induction false} IfSorts(c: Check, test: Expr, thenS: Stmt, elseS: Option<Stmt>, sym: Sym,
                                   same: (Term, Term) -> bool) returns (p: Parts)
    requires CheckStmt(c, If(test, thenS, elseS)).Some? && WellSorted(c, sym.env) && IsIdentity(same)
    ensures Splits(c, test, thenS, elseS, sym, same, p)
    ensures StmtOk(c, CheckStmt(c, If(test, thenS, elseS)).value, sym, SymStmt(If(test, thenS, elseS), sym, same), {})
    decreases If(test, thenS, elseS), 0
  {
    ExprSorts(c, test, sym.env);
    var before := Sym(SymExpr(test, sym.env).value.1, sym.ret);
    var cond := SymExpr(test, sym.env).value.0;
    StmtSorts(c, thenS, before, same);
    var t := SymStmt(thenS, before, same).value;
    var c1 := Check(c.scope, CheckStmt(c, thenS).value.declared);
    ElseSorts(c1, elseS, before, same);
    var e := SymElse(elseS, before, same).value;
    MergeSorts(before.env, t.env, e.env, cond, same);
    WellSortedAfterBlock(c, CheckElse(c1, elseS).value, before.env, Merge(before.env, t.env, e.env, cond, same));
    p := Parts(cond, before.env, t.env, e.env);
  }

  lemma {:induction false} ElseSorts(c: Check, elseS: Option<Stmt>, sym: Sym, same: (Term, Term) -> bool)
    requires CheckElse(c, elseS).Some? && WellSorted(c, sym.env) && IsIdentity(same)
    ensures StmtOk(c, CheckElse(c, elseS).value, sym, SymElse(elseS, sym, same), {})
    decreases elseS, 0
  {
    if elseS.Some? {
      StmtSorts(c, elseS.value, sym, same);
    }
  }

  lemma {:induction false} StmtsSorts(c: Check, body: seq<Stmt>, sym: Sym, same: (Term, Term) -> bool)
    requires CheckStmts(c, body).Some? && WellSorted(c, sym.env) && IsIdentity(same)
    ensures StmtOk(c, CheckStmts(c, body).value, sym, SymStmts(body, sym, same), BlockNames(body))
    decreases body, 1
  {
    if body != [] {
      StmtSorts(c, body[0], sym, same);
      StmtsSorts(CheckStmt(c, body[0]).value, body[1..], SymStmt(body[0], sym, same).value, same);
    }
  }

  // ---- Statements: the merged environment means what the taken branch did ---------------------

  lemma {:induction false} DeclsCorrect(m: Machine, rho: string -> int, c: Check, vars: seq<VarDecl>, env: Env, s: Store)
    requires CheckDecls(c, vars).Some? && Agree(m, rho, c.scope, env, s)
    ensures var sym := SymDecls(vars, env);
            sym.Ok? && Agree(m, rho, CheckDecls(c, vars).value.scope, sym.value, RunDecls(m, rho, vars, s))
    decreases |vars|
  {
    if vars != [] {
      var v := vars[0];
      var t, env1, w, s1 := Var(UninitName(v.name)), env, IntV(rho(UninitName(v.name))), s;
      if v.init.Some? {
        ExprCorrect(m, rho, c.scope, v.init.value, env, s);
        t, env1 := SymExpr(v.init.value, env).value.0, SymExpr(v.init.value, env).value.1;
        w, s1 := RunExpr(m, v.init.value, s).0, RunExpr(m, v.init.value, s).1;
      }
      var c1 := Check(c.scope[v.name := SortOf(t)], c.declared + {v.name});
      DeclsCorrect(m, rho, c1, vars[1..], env1[v.name := t], s1[v.name := w]);
    }
  }

  /** The symbolic environment after a piece of code agrees with the store its run leaves, which did not return. */
  ghost predicate InStep(m: Machine, rho: string -> int, scope: Scope, sym: Result<Sym>, run: Outcome) {
    sym.Ok? && run.returned.None? && Agree(m, rho, scope, sym.value.env, run.store)
  }

  /** Leaving a block that hides nothing in scope keeps the agreement on the outer scope. */
  lemma {:induction false} LeaveAgrees(m: Machine, rho: string -> int, c: Check, inner: Scope, env: Env, outer: Store,
                                       store: Store, hidden: set<string>)
    requires Agree(m, rho, inner, env, store) && c.scope.Keys <= inner.Keys && c.scope.Keys <= outer.Keys
    requires forall n :: n in c.scope ==> inner[n] == c.scope[n]
    requires c.scope.Keys <= c.declared && hidden !! c.declared
    ensures Agree(m, rho, c.scope, env, Leave(outer, store, hidden))
  {
  }

  lemma {:induction false} StmtCorrect(m: Machine, rho: string -> int, c: Check, st: Stmt, sym: Sym, s: Store,
                                       same: (Term, Term) -> bool)
    requires CheckStmt(c, st).Some? && IsIdentity(same)
    requires WellSorted(c, sym.env) && Agree(m, rho, c.scope, sym.env, s)
    ensures InStep(m, rho, CheckStmt(c, st).value.scope, SymStmt(st, sym, same), RunStmt(m, rho, st, s))
    decreases st, 1
  {
    match st
    case Compound(body) =>
      StmtsSorts(c, body, sym, same);
      StmtsCorrect(m, rho, c, body, sym, s, same);
      LeaveAgrees(m, rho, c, CheckStmts(c, body).value.scope, SymStmts(body, sym, same).value.env, s,
                  RunStmts(m, rho, body, s).store, BlockNames(body));
    case DeclStmt(vars) => DeclsCorrect(m, rho, c, vars, sym.env, s);
    case If(test, thenS, elseS) => IfCorrect(m, rho, c, test, thenS, elseS, sym, s, same);
    case ExprStmt(e) => ExprCorrect(m, rho, c.scope, e, sym.env, s);
  }

  /** A branch that is taken agrees, on the names known before it, with the store after its block is left. */
  lemma {:induction false} BranchCorrect(m: Machine, rho: string -> int, c: Check, st: Stmt, before: Sym, s: Store,
                                         same: (Term, Term) -> bool)
    requires CheckStmt(c, st).Some? && IsIdentity(same)
    requires WellSorted(c, before.env) && Agree(m, rho, c.scope, before.env, s)
    ensures InStep(m, rho, c.scope, SymStmt(st, before, same), RunBranch(m, rho, st, s))
    decreases st, 2
  {
    StmtSorts(c, st, before, same);
    StmtCorrect(m, rho, c, st, before, s, same);
    LeaveAgrees(m, rho, c, CheckStmt(c, st).value.scope, SymStmt(st, before, same).value.env, s,
                RunStmt(m, rho, st, s).store, OwnNames(st));
  }

  lemma {:induction false} ElseCorrect(m: Machine, rho: string -> int, c: Check, elseS: Option<Stmt>, before: Sym,
                                       s: Store, same: (Term, Term) -> bool)
    requires CheckElse(c, elseS).Some? && IsIdentity(same)
    requires WellSorted(c, before.env) && Agree(m, rho, c.scope, before.env, s)
    ensures InStep(m, rho, c.scope, SymElse(elseS, before, same), RunElse(m, rho, elseS, s))
    decreases elseS, 0
  {
    if elseS.Some? {
      BranchCorrect(m, rho, c, elseS.value, before, s, same);
    }
  }

  /** Merging picks the terms of the branch the condition denotes. */
  lemma {:induction false} MergeAgrees(m: Machine, rho: string -> int, scope: Scope, p: Parts, s: Store,
                                       same: (Term, Term) -> bool)
    requires IsIdentity(same) && scope.Keys <= p.env.Keys && SortsKept(p.env, p.t) && SortsKept(p.env, p.e)
    requires forall n :: n in scope ==> SortOf(p.env[n]) == scope[n]
    requires Agree(m, rho, scope, if AsBool(Denote(m, rho, p.cond)) then p.t else p.e, s)
    ensures Agree(m, rho, scope, Merge(p.env, p.t, p.e, p.cond, same), s)
  {
  }

  /** The `if`: both branches ran symbolically, one ran for real, and merging keeps that one's values. */
  lemma {:induction false} IfCorrect(m: Machine, rho: string -> int, c: Check, test: Expr, thenS: Stmt, elseS: Option<Stmt>,
                                     sym: Sym, s: Store, same: (Term, Term) -> bool)
    requires CheckStmt(c, If(test, thenS, elseS)).Some? && IsIdentity(same)
    requires WellSorted(c, sym.env) && Agree(m, rho, c.scope, sym.env, s)
    ensures InStep(m, rho, c.scope, SymStmt(If(test, thenS, elseS), sym, same), RunStmt(m, rho, If(test, thenS, elseS), s))
    decreases If(test, thenS, elseS), 0
  {
    var p := IfSorts(c, test, thenS, elseS, sym, same);
    ExprCorrect(m, rho, c.scope, test, sym.env, s);
    var before, s1 := Sym(p.env, sym.ret), RunExpr(m, test, s).1;
    if AsBool(Denote(m, rho, p.cond)) {
      BranchCorrect(m, rho, c, thenS, before, s1, same);
      MergeAgrees(m, rho, c.scope, p, RunBranch(m, rho, thenS, s1).store, same);
    } else {
      ElseCorrect(m, rho, Check(c.scope, CheckStmt(c, thenS).value.declared), elseS, before, s1, same);
      MergeAgrees(m, rho, c.scope, p, RunElse(m, rho, elseS, s1).store, same);
    }
  }

  lemma {:induction false} StmtsCorrect(m: Machine, rho: string -> int, c: Check, body: seq<Stmt>, sym: Sym, s: Store,
                                        same: (Term, Term) -> bool)
    requires CheckStmts(c, body).Some? && IsIdentity(same)
    requires WellSorted(c, sym.env) && Agree(m, rho, c.scope, sym.env, s)
    ensures InStep(m, rho, CheckStmts(c, body).value.scope, SymStmts(body, sym, same), RunStmts(m, rho, body, s))
    decreases body, 1
  {
    if body != [] {
      StmtSorts(c, body[0], sym, same);
      StmtCorrect(m, rho, c, body[0], sym, s, same);
      StmtsCorrect(m, rho, CheckStmt(c, body[0]).value, body[1..], SymStmt(body[0], sym, same).value,
                   RunStmt(m, rho, body[0], s).store, same);
    }
  }

  // ---- The theorem -----------------------------------------------------------------------------

  lemma {:induction false} SymStmtsSnoc(body: seq<Stmt>, last: Stmt, sym: Sym, same: (Term, Term) -> bool)
    requires SymStmts(body, sym, same).Ok?
    ensures SymStmts(body + [last], sym, same) == SymStmt(last, SymStmts(body, sym, same).value, same)
    decreases |body|
  {
    if body == [] {
      assert [] + [last] == [last];
    } else {
      assert (body + [last])[1..] == body[1..] + [last];
      SymStmtsSnoc(body[1..], last, SymStmt(body[0], sym, same).value, same);
    }
  }

  lemma {:induction false} RunStmtsSnoc(m: Machine, rho: string -> int, body: seq<Stmt>, last: Stmt, s: Store)
    requires RunStmts(m, rho, body, s).returned.None?
    ensures RunStmts(m, rho, body + [last], s).returned == RunStmt(m, rho, last, RunStmts(m, rho, body, s).store).returned
    decreases |body|
  {
    if body == [] {
      assert [] + [last] == [last];
    } else {
      assert (body + [last])[1..] == body[1..] + [last];
      RunStmtsSnoc(m, rho, body[1..], last, RunStmt(m, rho, body[0], s).store);
    }
  }

  /**
   For every supported function the evaluator succeeds, and the one term it builds
   denotes, on any inputs and in any arithmetic, the value the function returns.
   */
  lemma {:induction false} TermMeansReturnValue(fn: Function, same: (Term, Term) -> bool, m: Machine, rho: string -> int)
    requires Supported(fn) && IsIdentity(same)
    ensures SymRun(fn, same).Ok?
    ensures RunFunction(m, rho, fn) == Some(Denote(m, rho, SymRun(fn, same).value))
  {
    var body, last := fn.body.body[..|fn.body.body| - 1], fn.body.body[|fn.body.body| - 1];
    assert fn.body.body == body + [last];
    var c := Check(ParamScope(fn.params), set n | n in fn.params);
    var sym, s := Sym(ParamEnv(fn.params), None), InputStore(rho, fn.params);
    assert WellSorted(c, sym.env) && Agree(m, rho, c.scope, sym.env, s);
    StmtsCorrect(m, rho, c, body, sym, s, same);
    var r := SymStmts(body, sym, same).value;
    ExprCorrect(m, rho, CheckStmts(c, body).value.scope, last.result, r.env, RunStmts(m, rho, body, s).store);
    SymStmtsSnoc(body, last, sym, same);
    RunStmtsSnoc(m, rho, body, last, s);
  }

  // ---- Outside the subset -------------------------------------------------------------------------

  function Negative(n: string): Expr {
    Binary(Lt, Ref(n), Lit(0))
  }

  /** int f(int x) { { int x = 1; } return x; } */
  const SHADOWING: Function :=
    Function(["x"], Compound([Compound([DeclStmt([VarDecl("x", Some(Lit(1)))])]), Return(Ref("x"))]))

  /** int f(int x) { x < 0 && (x = 1) > 0; return x; } */
  const LAZY_ASSIGNMENT: Function :=
    Function(["x"], Compound([ExprStmt(Binary(And, Negative("x"), Binary(Gt, Assign(Ref("x"), Lit(1)), Lit(0)))),
                              Return(Ref("x"))]))

  /** int f(int x) { if (x < 0) { return 1; } return 2; } */
  const EARLY_RETURN: Function :=
    Function(["x"], Compound([If(Negative("x"), Compound([Return(Lit(1))]), None), Return(Lit(2))]))

  /** A function `f(x)` of a statement a and a final return of e: how both sides run it, and when it is unsupported. */
  lemma {:induction false} SymTwo(fn: Function, a: Stmt, e: Expr, same: (Term, Term) -> bool, mid: Sym)
    requires fn == Function(["x"], Compound([a, Return(e)]))
    requires SymStmt(a, Sym(map["x" := Var("x")], None), same) == Ok(mid) && SymExpr(e, mid.env).Ok?
    ensures SymRun(fn, same) == Ok(SymExpr(e, mid.env).value.0)
  {
    var body, start := fn.body.body, Sym(map["x" := Var("x")], None);
    assert body[0] == a && body[1..] == [Return(e)];
    assert ParamEnv(["x"]) == start.env;
    SymOne(Return(e), mid, same);
    assert SymStmts(body, start, same) == SymStmts(body[1..], mid, same);
  }

  lemma {:induction false} SymOne(a: Stmt, st: Sym, same: (Term, Term) -> bool)
    ensures SymStmts([a], st, same) == SymStmt(a, st, same)
  {
    assert [a][1..] == [];
  }

  lemma {:induction false} RunTwo(fn: Function, a: Stmt, e: Expr, m: Machine, rho: string -> int, mid: Outcome)
    requires fn == Function(["x"], Compound([a, Return(e)]))
    requires RunStmt(m, rho, a, map["x" := IntV(rho("x"))]) == mid
    ensures RunFunction(m, rho, fn) ==
            if mid.returned.Some? then mid.returned else Some(RunExpr(m, e, mid.store).0)
  {
    var body := fn.body.body;
    assert body[0] == a && body[1..] == [Return(e)];
    assert InputStore(rho, ["x"]) == map["x" := IntV(rho("x"))];
    RunOne(Return(e), m, rho, mid.store);
    assert RunStmts(m, rho, body, InputStore(rho, ["x"]))
        == if mid.returned.Some? then mid else RunStmts(m, rho, body[1..], mid.store);
  }

  lemma {:induction false} RunOne(a: Stmt, m: Machine, rho: string -> int, s: Store)
    ensures RunStmts(m, rho, [a], s).returned == RunStmt(m, rho, a, s).returned
  {
    assert [a][1..] == [];
  }

  lemma {:induction false} UnsupportedTwo(fn: Function, a: Stmt, e: Expr)
    requires fn == Function(["x"], Compound([a, Return(e)]))
    requires CheckStmt(Check(map["x" := IntSort], {"x"}), a).None?
    ensures !Supported(fn)
  {
    assert fn.body.body[..1] == [a];
    assert ParamScope(["x"]) == map["x" := IntSort] && (set n | n in ["x"]) == {"x"};
  }

  /** An inner declaration overwrites the outer variable it hides. */
  lemma {:induction false} ShadowingFails(same: (Term, Term) -> bool, m: Machine, rho: string -> int)
    requires rho("x") != m.lit(1)
    ensures SymRun(SHADOWING, same) == Ok(Const(1)) && !Supported(SHADOWING)
    ensures RunFunction(m, rho, SHADOWING) == Some(IntV(rho("x"))) != Some(Denote(m, rho, Const(1)))
  {
    var decl := DeclStmt([VarDecl("x", Some(Lit(1)))]);
    var a, env := Compound([decl]), map["x" := Var("x")];
    var s: Store := map["x" := IntV(rho("x"))];
    SymOne(decl, Sym(env, None), same);
    assert SymDecls(decl.vars, env) == Ok(env["x" := Const(1)]);
    SymTwo(SHADOWING, a, Ref("x"), same, Sym(env["x" := Const(1)], None));
    RunOne(decl, m, rho, s);
    assert [decl][1..] == [] && decl.vars[0].name in DeclNames(decl.vars);
    RunTwo(SHADOWING, a, Ref("x"), m, rho, RunStmt(m, rho, a, s));
    assert CheckDecls(Check(map["x" := IntSort], {"x"}), decl.vars) == None;
    UnsupportedTwo(SHADOWING, a, Ref("x"));
  }

  /** Both operands of && are executed, so an assignment C would skip takes effect. */
  lemma {:induction false} LazyAssignmentFails(same: (Term, Term) -> bool, m: Machine, rho: string -> int)
    requires !m.compare(Lt, rho("x"), m.lit(0)) && rho("x") != m.lit(1)
    ensures SymRun(LAZY_ASSIGNMENT, same) == Ok(Const(1)) && !Supported(LAZY_ASSIGNMENT)
    ensures RunFunction(m, rho, LAZY_ASSIGNMENT) == Some(IntV(rho("x"))) != Some(Denote(m, rho, Const(1)))
  {
    LazySym(same);
    LazyUnsupported();
    LazyRun(m, rho);
  }

  lemma {:induction false} LazyRun(m: Machine, rho: string -> int)
    requires !m.compare(Lt, rho("x"), m.lit(0))
    ensures RunFunction(m, rho, LAZY_ASSIGNMENT) == Some(IntV(rho("x")))
  {
    var a := LAZY_ASSIGNMENT.body.body[0];
    var s: Store := map["x" := IntV(rho("x"))];
    LazySkips(m, rho, a.e.lhs, a.e.rhs, s);
    RunTwo(LAZY_ASSIGNMENT, a, Ref("x"), m, rho, Outcome(s, None));
  }

  /** The right operand of && is not run when the left one is false. */
  lemma {:induction false} LazySkips(m: Machine, rho: string -> int, lhs: Expr, rhs: Expr, s: Store)
    requires lhs == Negative("x") && s == map["x" := IntV(rho("x"))] && !m.compare(Lt, rho("x"), m.lit(0))
    ensures RunExpr(m, Binary(And, lhs, rhs), s) == (BoolV(false), s)
  {
    assert RunExpr(m, lhs, s) == (BoolV(false), s);
  }

  lemma {:induction false} LazySym(same: (Term, Term) -> bool)
    ensures SymRun(LAZY_ASSIGNMENT, same) == Ok(Const(1))
  {
    var e, env := Binary(And, Negative("x"), Binary(Gt, Assign(Ref("x"), Lit(1)), Lit(0))), map["x" := Var("x")];
    LazyOperands(e.lhs, e.rhs, env);
    LazyStmt(e, env, same);
    SymTwo(LAZY_ASSIGNMENT, ExprStmt(e), Ref("x"), same, Sym(env["x" := Const(1)], None));
  }

  lemma {:induction false} LazyStmt(e: Expr, env: Env, same: (Term, Term) -> bool)
    requires e.Binary? && SymExpr(e, env).Ok? && SymExpr(e, env).value.1 == env["x" := Const(1)]
    ensures SymStmt(ExprStmt(e), Sym(env, None), same) == Ok(Sym(env["x" := Const(1)], None))
  {
  }

  lemma {:induction false} LazyUnsupported()
    ensures !Supported(LAZY_ASSIGNMENT)
  {
    var e := Binary(And, Negative("x"), Binary(Gt, Assign(Ref("x"), Lit(1)), Lit(0)));
    assert Assigns(e.rhs) && Assigns(e);
    assert CheckExpr(map["x" := IntSort], e) == None;
    UnsupportedTwo(LAZY_ASSIGNMENT, ExprStmt(e), Ref("x"));
  }

  lemma {:induction false} LazyOperands(lhs: Expr, rhs: Expr, env: Env)
    requires lhs == Negative("x") && rhs == Binary(Gt, Assign(Ref("x"), Lit(1)), Lit(0))
    ensures var r := SymExpr(Binary(And, lhs, rhs), env); r.Ok? && r.value.1 == env["x" := Const(1)]
  {
    var env1: Env := env["x" := Const(1)];
    LazyRight(rhs, env);
    assert SymExpr(Ref("x"), env1) == Ok((Const(1), env1));
    assert SymExpr(lhs, env1) == Ok((Bin(Lt, Const(1), Const(0)), env1));
  }

  lemma {:induction false} LazyRight(rhs: Expr, env: Env)
    requires rhs == Binary(Gt, Assign(Ref("x"), Lit(1)), Lit(0))
    ensures SymExpr(rhs, env) == Ok((Bin(Gt, Const(1), Const(0)), env["x" := Const(1)]))
  {
    assert SymExpr(Lit(0), env) == Ok((Const(0), env));
    assert SymExpr(Assign(Ref("x"), Lit(1)), env) == Ok((Const(1), env["x" := Const(1)]));
  }

  /** A return inside a branch does not end the function: the last return executed wins. */
  lemma {:induction false} EarlyReturnFails(same: (Term, Term) -> bool, m: Machine, rho: string -> int)
    requires IsIdentity(same) && m.compare(Lt, rho("x"), m.lit(0)) && m.lit(1) != m.lit(2)
    ensures SymRun(EARLY_RETURN, same) == Ok(Const(2)) && !Supported(EARLY_RETURN)
    ensures RunFunction(m, rho, EARLY_RETURN) == Some(IntV(m.lit(1))) != Some(Denote(m, rho, Const(2)))
  {
    EarlySym(same);
    var a := EARLY_RETURN.body.body[0];
    var s: Store := map["x" := IntV(rho("x"))];
    RunOne(Return(Lit(1)), m, rho, s);
    assert RunExpr(m, a.test, s) == (BoolV(true), s);
    assert RunStmt(m, rho, a, s).returned == Some(IntV(m.lit(1)));
    RunTwo(EARLY_RETURN, a, Lit(2), m, rho, RunStmt(m, rho, a, s));
  }

  lemma {:induction false} EarlySym(same: (Term, Term) -> bool)
    requires IsIdentity(same)
    ensures SymRun(EARLY_RETURN, same) == Ok(Const(2)) && !Supported(EARLY_RETURN)
  {
    var a, env := EARLY_RETURN.body.body[0], map["x" := Var("x")];
    var inner := [Return(Lit(1))];
    SymOne(inner[0], Sym(env, None), same);
    assert SymExpr(a.test, env) == Ok((Bin(Lt, Var("x"), Const(0)), env));
    assert SymStmt(a.thenS, Sym(env, None), same) == Ok(Sym(env, Some(Const(1))));
    assert SymStmt(a, Sym(env, None), same).Ok?;
    SymTwo(EARLY_RETURN, a, Lit(2), same, SymStmt(a, Sym(env, None), same).value);
    assert CheckStmts(Check(map["x" := IntSort], {"x"}), inner) == None;
    UnsupportedTwo(EARLY_RETURN, a, Lit(2));
  }
}