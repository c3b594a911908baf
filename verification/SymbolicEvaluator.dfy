/**
 `SymbolicEvaluator` (scripts/z3_ast_prover.py): symbolic execution of loop-free C
 into one closed term, with environments copied at `if` and merged after it. The
 term is proved to mean what running the statements means, at every input and in
 every arithmetic.
 */
module SymbolicEvaluator {
  import opened Options

  // ---- C syntax as the evaluator sees it ---------------------------------------

  datatype BinOp = Add | Sub | Mul | Div | Mod | Lt | Gt | Le | Ge | Eq | Ne | And | Or
  datatype UnOp = Minus | Plus | Not | OtherUnary

  datatype Expr =
    | Ref(name: string)
    | Lit(value: int)
    | Unary(uop: UnOp, operand: Expr)
    | Cond(cond: Expr, thn: Expr, els: Expr)
    | Binary(op: BinOp, lhs: Expr, rhs: Expr)
    | Assign(target: Expr, source: Expr)
    | Wrapped(inner: Expr)
    | OtherExpr

  datatype VarDecl = VarDecl(name: string, init: Option<Expr>)

  datatype Stmt =
    | Compound(body: seq<Stmt>)
    | DeclStmt(vars: seq<VarDecl>)
    | If(test: Expr, thenS: Stmt, elseS: Option<Stmt>)
    | Return(result: Expr)
    | ExprStmt(e: Expr)
    | OtherStmt

  datatype Function = Function(params: seq<string>, body: Stmt)

  /** Skip implicit casts and parentheses. */
  function Unwrap(e: Expr): Expr {
    if e.Wrapped? then Unwrap(e.inner) else e
  }

  /** The spelling an assignment stores under; only a name has one. */
  function Spelling(e: Expr): string {
    if e.Ref? then e.name else ""
  }

  // ---- Solver terms ---------------------------------------------------------------

  datatype Sort = IntSort | BoolSort

  datatype Term =
    | Var(name: string)
    | Const(value: int)
    | Neg(arg: Term)
    | LogicalNot(arg: Term)
    | Ite(test: Term, a: Term, b: Term)
    | Bin(op: BinOp, l: Term, r: Term)

  predicate IsArith(op: BinOp) {
    op in {Add, Sub, Mul, Div, Mod}
  }

  predicate IsLogical(op: BinOp) {
    op == And || op == Or
  }

  function SortOf(t: Term): Sort {
    match t
    case Var(_) => IntSort
    case Const(_) => IntSort
    case Neg(_) => IntSort
    case LogicalNot(_) => BoolSort
    case Ite(_, a, _) => SortOf(a)
    case Bin(op, _, _) => if IsArith(op) then IntSort else BoolSort
  }

  /** Whether the solver builds `a op b`: integers for arithmetic and order, equal sorts for ==, booleans for logic. */
  predicate OperandSorts(op: BinOp, a: Sort, b: Sort) {
    if IsLogical(op) then a == BoolSort && b == BoolSort
    else if op == Eq || op == Ne then a == b
    else a == IntSort && b == IntSort
  }

  // ---- The arithmetic both sides share ----------------------------------------------

  datatype Value = IntV(i: int) | BoolV(b: bool)

  /** The meaning of literals and operators: mathematical or 32-bit integers, or any other. */
  datatype Machine = Machine(lit: int -> int, neg: int -> int, arith: (BinOp, int, int) -> int,
                             compare: (BinOp, int, int) -> bool)

  function AsInt(v: Value): int {
    if v.IntV? then v.i else 0
  }

  function AsBool(v: Value): bool {
    v.BoolV? && v.b
  }

  function Apply(m: Machine, op: BinOp, a: Value, b: Value): Value {
    if op == And then BoolV(AsBool(a) && AsBool(b))
    else if op == Or then BoolV(AsBool(a) || AsBool(b))
    else if IsArith(op) then IntV(m.arith(op, AsInt(a), AsInt(b)))
    else if a.BoolV? then BoolV(if op == Eq then a == b else a != b)
    else BoolV(m.compare(op, AsInt(a), AsInt(b)))
  }

  /** What a term denotes when its variables have the values rho gives them. */
  function Denote(m: Machine, rho: string -> int, t: Term): Value {
    match t
    case Var(n) => IntV(rho(n))
    case Const(v) => IntV(m.lit(v))
    case Neg(a) => IntV(m.neg(AsInt(Denote(m, rho, a))))
    case LogicalNot(a) => BoolV(!AsBool(Denote(m, rho, a)))
    case Ite(c, a, b) => if AsBool(Denote(m, rho, c)) then Denote(m, rho, a) else Denote(m, rho, b)
    case Bin(op, l, r) => Apply(m, op, Denote(m, rho, l), Denote(m, rho, r))
  }

  // ---- Symbolic execution as a function of the environment ----------------------------

  datatype Error = KeyError(name: string) | NotImplemented | SortMismatch | NoReturn

  datatype Result<+T> = Ok(value: T) | Err(error: Error)

  type Env = map<string, Term>

  /** Object identity of terms: all that is known of it is that identical objects are equal. */
  ghost predicate IsIdentity(same: (Term, Term) -> bool) {
    forall t, e :: same(t, e) ==> t == e
  }

  function UninitName(name: string): string {
    name + "!uninit"
  }

  function BuildBin(op: BinOp, a: Term, b: Term): Result<Term> {
    if OperandSorts(op, SortOf(a), SortOf(b)) then Ok(Bin(op, a, b)) else Err(SortMismatch)
  }

  function BuildIte(c: Term, a: Term, b: Term): Result<Term> {
    if SortOf(c) == BoolSort && SortOf(a) == SortOf(b) then Ok(Ite(c, a, b)) else Err(SortMismatch)
  }

  function BuildUnary(op: UnOp, t: Term): Result<Term> {
    match op
    case Minus => if SortOf(t) == IntSort then Ok(Neg(t)) else Err(SortMismatch)
    case Plus => Ok(t)
    case Not => if SortOf(t) == BoolSort then Ok(LogicalNot(t)) else Err(SortMismatch)
    case OtherUnary => Err(NotImplemented)
  }

  /** `eval_expr`: a term and the environment assignments leave behind; operands are evaluated right first. */
  function SymExpr(e: Expr, env: Env): (r: Result<(Term, Env)>)
    ensures r.Ok? ==> env.Keys <= r.value.1.Keys
    decreases e
  {
    match e
    case Wrapped(inner) => SymExpr(inner, env)
    case Ref(n) => if n in env then Ok((env[n], env)) else Err(KeyError(n))
    case Lit(v) => Ok((Const(v), env))
    case Unary(op, operand) =>
      var r := SymExpr(operand, env);
      if r.Err? then r
      else
        var t := BuildUnary(op, r.value.0);
        if t.Err? then Err(t.error) else Ok((t.value, r.value.1))
    case Cond(c, a, b) =>
      var rc := SymExpr(c, env);
      if rc.Err? then rc
      else
        var ra := SymExpr(a, rc.value.1);
        if ra.Err? then ra
        else
          var rb := SymExpr(b, ra.value.1);
          if rb.Err? then rb
          else
            var t := BuildIte(rc.value.0, ra.value.0, rb.value.0);
            if t.Err? then Err(t.error) else Ok((t.value, rb.value.1))
    case Assign(target, source) =>
      var r := SymExpr(source, env);
      if r.Err? then r else Ok((r.value.0, r.value.1[Spelling(Unwrap(target)) := r.value.0]))
    case Binary(op, lhs, rhs) =>
      var rr := SymExpr(rhs, env);
      if rr.Err? then rr
      else
        var rl := SymExpr(lhs, rr.value.1);
        if rl.Err? then rl
        else
          var t := BuildBin(op, rl.value.0, rr.value.0);
          if t.Err? then Err(t.error) else Ok((t.value, rl.value.1))
    case OtherExpr => Err(NotImplemented)
  }

  function SymDecls(vars: seq<VarDecl>, env: Env): (r: Result<Env>)
    ensures r.Ok? ==> env.Keys <= r.value.Keys
    decreases |vars|
  {
    if vars == [] then Ok(env)
    else
      var v := vars[0];
      if v.init.None? then SymDecls(vars[1..], env[v.name := Var(UninitName(v.name))])
      else
        var r := SymExpr(v.init.value, env);
        if r.Err? then Err(r.error) else SymDecls(vars[1..], r.value.1[v.name := r.value.0])
  }

  /** The two environments after an `if` agree in the sorts of every name known before it. */
  predicate Mergeable(env: Env, t: Env, e: Env, cond: Term, same: (Term, Term) -> bool)
    requires env.Keys <= t.Keys && env.Keys <= e.Keys
  {
    forall n :: n in env ==> same(t[n], e[n]) || BuildIte(cond, t[n], e[n]).Ok?
  }

  /** Each name known before the `if` becomes If(cond, then, else), or stays when both sides are the same object. */
  function Merge(env: Env, t: Env, e: Env, cond: Term, same: (Term, Term) -> bool): Env
    requires env.Keys <= t.Keys && env.Keys <= e.Keys
  {
    map n | n in env :: if same(t[n], e[n]) then t[n] else Ite(cond, t[n], e[n])
  }

  /** An environment and the term of the last `return` executed so far. */
  datatype Sym = Sym(env: Env, ret: Option<Term>)

  /** `exec_stmt`. A `return` only records its term; execution goes on after it. */
  function SymStmt(s: Stmt, st: Sym, same: (Term, Term) -> bool): (r: Result<Sym>)
    ensures r.Ok? ==> st.env.Keys <= r.value.env.Keys
    decreases s
  {
    match s
    case Compound(body) => SymStmts(body, st, same)
    case DeclStmt(vars) =>
      var r := SymDecls(vars, st.env);
      if r.Err? then Err(r.error) else Ok(st.(env := r.value))
    case If(test, thenS, elseS) =>
      var rc := SymExpr(test, st.env);
      if rc.Err? then Err(rc.error)
      else
        var before := Sym(rc.value.1, st.ret);
        var rt := SymStmt(thenS, before, same);
        if rt.Err? then rt
        else
          var re := SymElse(elseS, Sym(before.env, rt.value.ret), same);
          if re.Err? then re
          else if Mergeable(before.env, rt.value.env, re.value.env, rc.value.0, same) then
            Ok(Sym(Merge(before.env, rt.value.env, re.value.env, rc.value.0, same), re.value.ret))
          else Err(SortMismatch)
    case Return(e) =>
      var r := SymExpr(e, st.env);
      if r.Err? then Err(r.error) else Ok(Sym(r.value.1, Some(r.value.0)))
    case ExprStmt(e) =>
      if !e.Binary? && !e.Assign? then Err(NotImplemented)
      else
        var r := SymExpr(e, st.env);
        if r.Err? then Err(r.error) else Ok(st.(env := r.value.1))
    case OtherStmt => Err(NotImplemented)
  }

  function SymElse(elseS: Option<Stmt>, st: Sym, same: (Term, Term) -> bool): (r: Result<Sym>)
    ensures r.Ok? ==> st.env.Keys <= r.value.env.Keys
    decreases elseS
  {
    if elseS.Some? then SymStmt(elseS.value, st, same) else Ok(st)
  }

  function SymStmts(body: seq<Stmt>, st: Sym, same: (Term, Term) -> bool): (r: Result<Sym>)
    ensures r.Ok? ==> st.env.Keys <= r.value.env.Keys
    decreases body
  {
    if body == [] then Ok(st)
    else
      var r := SymStmt(body[0], st, same);
      if r.Err? then r else SymStmts(body[1..], r.value, same)
  }

  function ParamEnv(params: seq<string>): Env {
    map n | n in params :: Var(n)
  }

  /** `run`: the term of the return value. */
  function SymRun(fn: Function, same: (Term, Term) -> bool): Result<Term> {
    var r := SymStmt(fn.body, Sym(ParamEnv(fn.params), None), same);
    if r.Err? then Err(r.error) else if r.value.ret.None? then Err(NoReturn) else Ok(r.value.ret.value)
  }

  // ---- The evaluator as the source runs it ---------------------------------------------

  /** A dictionary of terms, updated in place by assignments and copied at branches. */
  class Environment {
    var vars: Env

    constructor (vars: Env)
      ensures this.vars == vars
    {
      this.vars := vars;
    }
  }

  class Evaluator {
    const same: (Term, Term) -> bool
    var ret: Option<Term>

    constructor (same: (Term, Term) -> bool)
      ensures this.same == same && ret == None
    {
      this.same := same;
      ret := None;
    }

    /** `run`: the parameters' variables and the term of the last executed `return`. */
    method Run(fn: Function) returns (r: Result<(Env, Term)>)
      requires ret == None
      modifies this
      ensures match SymRun(fn, same) case Ok(t) => r == Ok((ParamEnv(fn.params), t)) case Err(e) => r == Err(e)
    {
      var env := new Environment(ParamEnv(fn.params));
      var params := env.vars;
      var failed := ExecStmt(fn.body, env);
      if failed.Some? {
        return Err(failed.value);
      }
      if ret.None? {
        return Err(NoReturn);
      }
      return Ok((params, ret.value));
    }

    /** `exec_stmt`: None on success, with the environment and the recorded return updated in place. */
    method ExecStmt(s: Stmt, env: Environment) returns (failed: Option<Error>)
      modifies this, env
      ensures match SymStmt(s, Sym(old(env.vars), old(ret)), same)
              case Ok(v) => failed == None && env.vars == v.env && ret == v.ret
              case Err(e) => failed == Some(e)
      decreases s, 1
    {
      match s
      case Compound(body) =>
        ghost var before := Sym(env.vars, ret);
        for i := 0 to |body|
          invariant SymStmts(body[i..], Sym(env.vars, ret), same) == SymStmts(body, before, same)
        {
          assert body[i..][0] == body[i] && body[i..][1..] == body[i + 1..];
          failed := ExecStmt(body[i], env);
          if failed.Some? {
            return;
          }
        }
        failed := None;
      case DeclStmt(vars) =>
        failed := ExecDecls(vars, env);
      case If(test, thenS, elseS) =>
        failed := ExecIf(test, thenS, elseS, env);
      case Return(e) =>
        var r := EvalExpr(e, env);
        if r.Err? {
          return Some(r.error);
        }
        ret := Some(r.value);
        failed := None;
      case ExprStmt(e) =>
        if !e.Binary? && !e.Assign? {
          return Some(NotImplemented);
        }
        var r := EvalExpr(e, env);
        failed := if r.Err? then Some(r.error) else None;
      case OtherStmt =>
        failed := Some(NotImplemented);
    }

    method ExecDecls(vars: seq<VarDecl>, env: Environment) returns (failed: Option<Error>)
      modifies env
      ensures match SymDecls(vars, old(env.vars))
              case Ok(v) => failed == None && env.vars == v
              case Err(e) => failed == Some(e)
    {
      ghost var before := env.vars;
      for i := 0 to |vars|
        invariant SymDecls(vars[i..], env.vars) == SymDecls(vars, before)
      {
        assert vars[i..][0] == vars[i] && vars[i..][1..] == vars[i + 1..];
        var t := Var(UninitName(vars[i].name));
        if vars[i].init.Some? {
          var r := EvalExpr(vars[i].init.value, env);
          if r.Err? {
            return Some(r.error);
          }
          t := r.value;
        }
        env.vars := env.vars[vars[i].name := t];
      }
      failed := None;
    }

    /** An `if`: run each branch on its own copy of the environment, then merge name by name. */
    method ExecIf(test: Expr, thenS: Stmt, elseS: Option<Stmt>, env: Environment) returns (failed: Option<Error>)
      modifies this, env
      ensures match SymStmt(If(test, thenS, elseS), Sym(old(env.vars), old(ret)), same)
              case Ok(v) => failed == None && env.vars == v.env && ret == v.ret
              case Err(e) => failed == Some(e)
      decreases If(test, thenS, elseS), 0
    {
      var cond := EvalExpr(test, env);
      if cond.Err? {
        return Some(cond.error);
      }
      ghost var before := Sym(env.vars, ret);
      var thenEnv := new Environment(env.vars);
      failed := ExecStmt(thenS, thenEnv);
      if failed.Some? {
        return;
      }
      var elseEnv := new Environment(env.vars);
      assert SymStmt(thenS, before, same) == Ok(Sym(thenEnv.vars, ret)) && elseEnv.vars == before.env;
      ghost var middle := Sym(before.env, ret);
      if elseS.Some? {
        failed := ExecStmt(elseS.value, elseEnv);
        if failed.Some? {
          assert SymElse(elseS, middle, same).Err?;
          return;
        }
      }
      assert SymElse(elseS, middle, same) == Ok(Sym(elseEnv.vars, ret));
      failed := MergeInto(env, thenEnv.vars, elseEnv.vars, cond.value);
    }

    /** All names but those of `todo` are merged, and merging them did not fail. */
    ghost predicate MergedBut(todo: set<string>, before: Env, now: Env, t: Env, e: Env, cond: Term, same: (Term, Term) -> bool)
      requires before.Keys <= t.Keys && before.Keys <= e.Keys
    {
      && todo <= before.Keys == now.Keys
      && (forall n :: n in before && n !in todo ==>
            && (same(t[n], e[n]) || BuildIte(cond, t[n], e[n]).Ok?)
            && now[n] == if same(t[n], e[n]) then t[n] else Ite(cond, t[n], e[n]))
      && (forall n :: n in todo ==> now[n] == before[n])
    }

    method MergeInto(env: Environment, t: Env, e: Env, cond: Term) returns (failed: Option<Error>)
      requires env.vars.Keys <= t.Keys && env.vars.Keys <= e.Keys
      modifies env
      ensures if Mergeable(old(env.vars), t, e, cond, same)
              then failed == None && env.vars == Merge(old(env.vars), t, e, cond, same)
              else failed == Some(SortMismatch)
    {
      ghost var before := env.vars;
      var todo := env.vars.Keys;
      while todo != {}
        invariant MergedBut(todo, before, env.vars, t, e, cond, same)
      {
        var n :| n in todo;
        todo := todo - {n};
        if same(t[n], e[n]) {
          env.vars := env.vars[n := t[n]];
        } else {
          var ite := BuildIte(cond, t[n], e[n]);
          if ite.Err? {
            return Some(SortMismatch);
          }
          env.vars := env.vars[n := ite.value];
        }
      }
      failed := None;
    }

    /** `eval_expr`: the term of an expression; assignments update the environment on the way. */
    method EvalExpr(e: Expr, env: Environment) returns (r: Result<Term>)
      modifies env
      ensures match SymExpr(e, old(env.vars))
              case Ok(v) => r == Ok(v.0) && env.vars == v.1
              case Err(x) => r == Err(x)
      decreases e
    {
      match e
      case Wrapped(inner) => r := EvalExpr(inner, env);
      case Ref(n) => r := if n in env.vars then Ok(env.vars[n]) else Err(KeyError(n));
      case Lit(v) => r := Ok(Const(v));
      case Unary(op, operand) =>
        r := EvalExpr(operand, env);
        if r.Ok? {
          r := BuildUnary(op, r.value);
        }
      case Cond(c, a, b) =>
        var rc := EvalExpr(c, env);
        if rc.Err? {
          return rc;
        }
        var ra := EvalExpr(a, env);
        if ra.Err? {
          return ra;
        }
        var rb := EvalExpr(b, env);
        if rb.Err? {
          return rb;
        }
        r := BuildIte(rc.value, ra.value, rb.value);
      case Assign(target, source) =>
        r := EvalExpr(source, env);
        if r.Ok? {
          env.vars := env.vars[Spelling(Unwrap(target)) := r.value];
        }
      case Binary(op, lhs, rhs) =>
        var rr := EvalExpr(rhs, env);
        if rr.Err? {
          return rr;
        }
        var rl := EvalExpr(lhs, env);
        if rl.Err? {
          return rl;
        }
        r := BuildBin(op, rl.value, rr.value);
      case OtherExpr => r := Err(NotImplemented);
    }
  }
}
