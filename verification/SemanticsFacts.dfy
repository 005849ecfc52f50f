/**
 * Facts about the interpreter functions of `Semantics` beyond their
 * contracts: the value rules, short-circuit evaluation and the `and` defect
 * of the Java code, statement sequencing and halting, scope restoration
 * around blocks, and which programs can crash or run out of fuel.
 */
module SemanticsFacts {
  import opened Wrappers
  import opened Tokens
  import opened Ast
  import opened Environment
  import opened Semantics

  // ---------------------------------------------------------------------
  // Value rules

  /** `nil` and `false` are the only falsy values; `0` and `""` are truthy. */
  lemma TruthinessFacts(v: Value)
    ensures IsTruthy(v) <==> v != Nil && v != Bool(false)
    ensures IsTruthy(Num(0.0)) && IsTruthy(Str(""))
  {
  }

  /** `!=` yields the negation of what `==` yields, for every pair of values. */
  lemma NotEqualNegatesEqual(ne: Token, eq: Token, left: Value, right: Value)
    requires ne.kind == BANG_EQUAL && eq.kind == EQUAL_EQUAL
    ensures EvalBinary(ne, left, right).Success? && EvalBinary(eq, left, right).Success?
    ensures EvalBinary(ne, left, right).value == Bool(!EvalBinary(eq, left, right).value.b)
  {
  }

  // ---------------------------------------------------------------------
  // `and` and `or`

  /** The value of a `Logical` node whose left operand evaluated to `left`, under the intended rule. */
  function LogicalValue(op: TokenType, left: Value, right: Value): (r: Value)
    ensures op == AND && left.Bool? && right.Bool? ==> r == Bool(left.b && right.b)
    ensures op == OR && left.Bool? && right.Bool? ==> r == Bool(left.b || right.b)
  {
    if ShortCircuits(op, left) then left else right
  }

  /** The same under the test `visitLogicalExpr` performs. */
  function LogicalValueAsWritten(op: TokenType, left: Value, right: Value): (r: Value)
    ensures IsTruthy(left) ==> r == left
    ensures !IsTruthy(left) ==> r == right
  {
    if ShortCircuitsAsWritten(op, left) then left else right
  }

  /**
   * As written, `true and false` is `true`: a truthy left operand is
   * returned for `and` as for `or`. The intended rule gives `false`.
   */
  lemma AndAsWrittenIsWrong()
    ensures LogicalValueAsWritten(AND, Bool(true), Bool(false)) == Bool(true)
    ensures LogicalValue(AND, Bool(true), Bool(false)) == Bool(false)
  {
  }

  /** For `or` the code is right: the as-written rule and the intended one agree on every pair of values. */
  lemma OrAsWrittenIsIntended(left: Value, right: Value)
    ensures LogicalValueAsWritten(OR, left, right) == LogicalValue(OR, left, right)
  {
  }

  /** For `and` the two rules agree exactly when both operands are the same value. */
  lemma AndAsWrittenDiffers(left: Value, right: Value)
    ensures LogicalValueAsWritten(AND, left, right) == LogicalValue(AND, left, right) <==> left == right
  {
  }

  /** As written, the operator of a `Logical` node is never consulted: `a and b` evaluates exactly like `a or b`. */
  lemma AndEvaluatesLikeOr(left: Expr, and: Token, or: Token, right: Expr, env: Scopes)
    requires and.kind == AND && or.kind == OR
    ensures Eval(Logical(left, and, right), env) == Eval(Logical(left, or, right), env)
  {
  }

  /**
   * A truthy left operand is the result on its own: the right operand is
   * never evaluated, so neither its value nor its assignments nor its errors
   * make a difference.
   */
  lemma LogicalIgnoresRight(left: Expr, op: Token, right: Expr, other: Expr, env: Scopes)
    requires Eval(left, env).0.Success? && IsTruthy(Eval(left, env).0.value)
    ensures Eval(Logical(left, op, right), env) == Eval(left, env)
    ensures Eval(Logical(left, op, right), env) == Eval(Logical(left, op, other), env)
  {
  }

  /** A falsy left operand hands the node to the right operand, evaluated in the scopes the left one left behind. */
  lemma LogicalFallsThrough(left: Expr, op: Token, right: Expr, env: Scopes)
    requires Eval(left, env).0.Success? && !IsTruthy(Eval(left, env).0.value)
    ensures Eval(Logical(left, op, right), env) == Eval(right, Eval(left, env).1)
  {
  }

  /** An error in the left operand is the node's error, and the right operand is not evaluated. */
  lemma LogicalLeftError(left: Expr, op: Token, right: Expr, env: Scopes)
    requires Eval(left, env).0.Failure?
    ensures Eval(Logical(left, op, right), env) == Eval(left, env)
  {
  }

  /** When both operands evaluate, a `Logical` node yields `LogicalValueAsWritten` of their values. */
  lemma LogicalComputesAsWritten(left: Expr, op: Token, right: Expr, env: Scopes)
    requires Eval(left, env).0.Success? && Eval(right, Eval(left, env).1).0.Success?
    ensures Eval(Logical(left, op, right), env).0
         == Success(LogicalValueAsWritten(op.kind, Eval(left, env).0.value, Eval(right, Eval(left, env).1).0.value))
  {
  }

  /** On two literals, a `Logical` node yields `LogicalValueAsWritten` and changes no scope. */
  lemma LogicalOfLiterals(a: Value, op: Token, b: Value, env: Scopes)
    ensures Eval(Logical(Literal(a), op, Literal(b)), env) == (Success(LogicalValueAsWritten(op.kind, a, b)), env)
  {
  }

  /** `false and y` with `y` unbound evaluates `y`, so it raises the undefined-variable error. */
  lemma FalseAndUnboundRaises(and: Token, y: Token, env: Scopes)
    requires and.kind == AND && Lookup(env, y.lexeme).None?
    ensures Eval(Logical(Literal(Bool(false)), and, Variable(y)), env) == (Failure(Undefined(y)), env)
  {
  }

  // ---------------------------------------------------------------------
  // What unary, binary and assignment nodes compute

  /** A parenthesised expression has the value, and the effect, of the expression inside. */
  lemma GroupingEvaluates(e: Expr, env: Scopes)
    ensures Eval(Grouping(e), env) == Eval(e, env)
  {
  }

  /** `-e` and `!e`: the operand is evaluated first; an error in it is the result, otherwise the operator applies to its value. */
  lemma UnaryEvaluates(op: Token, right: Expr, env: Scopes)
    ensures var (v, env1) := Eval(right, env);
      Eval(Unary(op, right), env).1 == env1
      && (v.Failure? ==> Eval(Unary(op, right), env).0 == v)
      && (v.Success? ==> Eval(Unary(op, right), env).0 == EvalUnary(op, v.value))
  {
  }

  /**
   * A binary node evaluates its left operand first and its right operand in
   * the scopes the left one left behind; the first error is the result, and
   * an error on the left means the right operand never runs.
   */
  lemma BinaryEvaluatesLeftFirst(left: Expr, op: Token, right: Expr, env: Scopes)
    ensures var (l, env1) := Eval(left, env);
      var r := Eval(Binary(left, op, right), env);
      (l.Failure? ==> r == (l, env1))
      && (l.Success? ==>
            var (rv, env2) := Eval(right, env1);
            r.1 == env2 && (rv.Failure? ==> r.0 == rv) && (rv.Success? ==> r.0 == EvalBinary(op, l.value, rv.value)))
  {
  }

  /** The order is observable: with `x` bound to 1, `x + (x = 2)` yields 3 and `(x = 2) + x` yields 4. */
  lemma LeftOperandFirstExample(x: Token, plus: Token)
    requires x.lexeme == "x" && plus.kind == PLUS
    ensures var env := [map["x" := Num(1.0)]];
      var set2 := Grouping(Assign(x, Literal(Num(2.0))));
      Eval(Binary(Variable(x), plus, set2), env) == (Success(Num(3.0)), [map["x" := Num(2.0)]])
      && Eval(Binary(set2, plus, Variable(x)), env) == (Success(Num(4.0)), [map["x" := Num(2.0)]])
  {
    var env := [map["x" := Num(1.0)]];
    var env2 := [map["x" := Num(2.0)]];
    assert env[0]["x" := Num(2.0)] == env2[0];
    assert Lookup(env, "x") == Some(Num(1.0));
    assert Innermost(env, "x") == 0;
    assert env[0 := env[0]["x" := Num(2.0)]] == env2;
    assert Environment.Assign(env, x, Num(2.0)) == Success(env2);
    assert Eval(Literal(Num(2.0)), env) == (Success(Num(2.0)), env);
    assert VisitAssign(x, Literal(Num(2.0)), env) == (Success(Num(2.0)), env2);
    assert Eval(Assign(x, Literal(Num(2.0))), env) == (Success(Num(2.0)), env2);
    assert Eval(Grouping(Assign(x, Literal(Num(2.0)))), env) == (Success(Num(2.0)), env2);
    assert Eval(Variable(x), env) == (Success(Num(1.0)), env);
    assert Eval(Variable(x), env2) == (Success(Num(2.0)), env2);
  }

  /**
   * `x = e`: `e` is evaluated first and its error is the result; then the
   * innermost binding of `x`, and nothing else, is overwritten with the
   * value, which is the result; an unbound `x` is the undefined-variable error.
   */
  lemma AssignEvaluates(name: Token, value: Expr, env: Scopes)
    ensures var (v, env1) := Eval(value, env);
      var r := Eval(Assign(name, value), env);
      (v.Failure? ==> r == (v, env1))
      && (v.Success? && Lookup(env1, name.lexeme).None? ==> r == (Failure(Undefined(name)), env1))
      && (v.Success? && Lookup(env1, name.lexeme).Some? ==>
            var k := Innermost(env1, name.lexeme);
            0 <= k && r == (v, env1[k := env1[k][name.lexeme := v.value]]))
  {
  }

  // ---------------------------------------------------------------------
  // What a statement binds and prints

  /** `var name;` binds `nil` in the current scope, leaves every other name and the outer scopes alone, and prints nothing. */
  lemma VarWithoutInitializer(name: Token, st: State, dt: real -> string, fuel: nat)
    requires |st.env| > 0
    ensures var (o, st') := Exec(Var(name, None), st, dt, fuel);
      o == Normal && st'.out == st.out && Lookup(st'.env, name.lexeme) == Some(Nil)
      && st'.env[..|st.env| - 1] == st.env[..|st.env| - 1]
      && forall n :: n != name.lexeme ==> Lookup(st'.env, n) == Lookup(st.env, n)
  {
    forall n | n != name.lexeme
      ensures Lookup(Define(st.env, name.lexeme, Nil), n) == Lookup(st.env, n)
    {
      DefineLeavesOthers(st.env, name.lexeme, Nil, n);
    }
  }

  /**
   * `var name = e;` evaluates `e` and binds its value in the current scope,
   * leaving every other name as `e` left it; an error in `e` is raised and
   * nothing is bound. Nothing is printed.
   */
  lemma VarWithInitializer(name: Token, e: Expr, st: State, dt: real -> string, fuel: nat)
    requires |st.env| > 0
    ensures var (v, env1) := Eval(e, st.env);
      var (o, st') := Exec(Var(name, Some(e)), st, dt, fuel);
      st'.out == st.out
      && (v.Failure? ==> o == Raised(v.error) && st'.env == env1)
      && (v.Success? ==> o == Normal && Lookup(st'.env, name.lexeme) == Some(v.value)
                         && forall n :: n != name.lexeme ==> Lookup(st'.env, n) == Lookup(env1, n))
  {
    var (v, env1) := Eval(e, st.env);
    if v.Success? {
      forall n | n != name.lexeme
        ensures Lookup(Define(env1, name.lexeme, v.value), n) == Lookup(env1, n)
      {
        DefineLeavesOthers(env1, name.lexeme, v.value, n);
      }
    }
  }

  /** `print e;` appends the `stringify` of the value of `e` as one line; an error in `e` is raised and prints nothing. */
  lemma PrintWrites(e: Expr, st: State, dt: real -> string, fuel: nat)
    requires |st.env| > 0
    ensures var (v, env1) := Eval(e, st.env);
      var (o, st') := Exec(Print(e), st, dt, fuel);
      st'.env == env1
      && (v.Success? ==> o == Normal && st'.out == st.out + [Stringify(v.value, dt)])
      && (v.Failure? ==> o == Raised(v.error) && st'.out == st.out)
  {
  }

  /**
   * `if (c) t else e`: the condition is evaluated once; a truthy value runs
   * the then branch, a falsy one the else branch or nothing, both in the
   * scopes the condition left behind; an error in the condition is raised
   * and neither branch runs.
   */
  lemma IfRunsOneBranch(cond: Expr, t: Stmt, e: Option<Stmt>, st: State, dt: real -> string, fuel: nat)
    requires |st.env| > 0
    ensures var (v, env1) := Eval(cond, st.env);
      var r := Exec(If(cond, t, e), st, dt, fuel);
      (v.Failure? ==> r == (Raised(v.error), st.(env := env1)))
      && (v.Success? && IsTruthy(v.value) ==> r == Exec(t, st.(env := env1), dt, fuel))
      && (v.Success? && !IsTruthy(v.value) && e.Some? ==> r == Exec(e.value, st.(env := env1), dt, fuel))
      && (v.Success? && !IsTruthy(v.value) && e.None? ==> r == (Normal, st.(env := env1)))
  {
  }

  /**
   * An expression statement evaluates its expression once, keeps the scopes
   * that left behind and discards the value; an error in it is raised.
   */
  lemma ExpressionStatementRuns(e: Expr, st: State, dt: real -> string, fuel: nat)
    requires |st.env| > 0
    ensures var (v, env1) := Eval(e, st.env);
      Exec(Stmt.Expression(e), st, dt, fuel) == (Completion(v), st.(env := env1))
      && (v.Success? ==> Exec(Stmt.Expression(e), st, dt, fuel) == (Normal, st.(env := env1)))
  {
  }

  /**
   * `while (c) body`: each turn, with fuel left, evaluates the condition; an
   * error in it is raised and a falsy value ends the loop normally, both in
   * the scopes the condition left behind. A truthy value runs the body on one
   * unit less of fuel, and the loop goes round again only when the body ended
   * normally; any other outcome of the body ends the loop with it.
   */
  lemma WhileLoops(cond: Expr, body: Stmt, st: State, dt: real -> string, fuel: nat)
    requires |st.env| > 0
    ensures Exec(While(cond, body), st, dt, fuel) == ExecWhile(cond, body, st, dt, fuel)
    ensures fuel == 0 ==> ExecWhile(cond, body, st, dt, fuel) == (OutOfFuel, st)
    ensures fuel > 0 ==>
      var (v, env1) := Eval(cond, st.env);
      var r := ExecWhile(cond, body, st, dt, fuel);
      (v.Failure? ==> r == (Raised(v.error), st.(env := env1)))
      && (v.Success? && !IsTruthy(v.value) ==> r == (Normal, st.(env := env1)))
      && (v.Success? && IsTruthy(v.value) ==>
            var (o, st1) := Exec(body, st.(env := env1), dt, fuel - 1);
            r == if o.Normal? then ExecWhile(cond, body, st1, dt, fuel - 1) else (o, st1))
  {
  }

  // ---------------------------------------------------------------------
  // Sequencing and halting

  /** Running `a + b` from inside `b` is running `b`. */
  lemma {:induction false} ExecFromSuffix(a: seq<Option<Stmt>>, b: seq<Option<Stmt>>, j: nat, st: State, dt: real -> string, fuel: nat)
    requires j <= |b| && |st.env| > 0
    ensures ExecFrom(a + b, |a| + j, st, dt, fuel) == ExecFrom(b, j, st, dt, fuel)
    decreases |b| - j
  {
    if j < |b| {
      assert (a + b)[|a| + j] == b[j];
      if b[j].Some? {
        var (o, st1) := Exec(b[j].value, st, dt, fuel);
        if o.Normal? {
          ExecFromSuffix(a, b, j + 1, st1, dt, fuel);
        }
      }
    }
  }

  /**
   * Running `a + b` is running `a`, then `b` only if `a` ended normally:
   * the first statement that raises, crashes or runs out of fuel ends the run.
   */
  lemma {:induction false} ExecFromAppend(a: seq<Option<Stmt>>, b: seq<Option<Stmt>>, i: nat, st: State, dt: real -> string, fuel: nat)
    requires i <= |a| && |st.env| > 0
    ensures ExecFrom(a + b, i, st, dt, fuel) ==
      var (o, st1) := ExecFrom(a, i, st, dt, fuel);
      if o.Normal? then ExecFrom(b, 0, st1, dt, fuel) else (o, st1)
    decreases |a| - i
  {
    if i == |a| {
      ExecFromSuffix(a, b, 0, st, dt, fuel);
    } else {
      assert (a + b)[i] == a[i];
      if a[i].Some? {
        var (o, st1) := Exec(a[i].value, st, dt, fuel);
        if o.Normal? {
          ExecFromAppend(a, b, i + 1, st1, dt, fuel);
        }
      }
    }
  }

  /** Statements after one that raised a runtime error are never run. */
  lemma HaltsAtFirstError(a: seq<Option<Stmt>>, b: seq<Option<Stmt>>, st: State, dt: real -> string, fuel: nat)
    requires |st.env| > 0 && ExecFrom(a, 0, st, dt, fuel).0.Raised?
    ensures ExecFrom(a + b, 0, st, dt, fuel) == ExecFrom(a, 0, st, dt, fuel)
  {
    ExecFromAppend(a, b, 0, st, dt, fuel);
  }

  /**
   * Reading a name that no scope binds raises `Undefined` at its token, and
   * no later statement runs: `print y; rest` with `y` unbound prints nothing.
   */
  lemma UndefinedVariableHalts(y: Token, rest: seq<Option<Stmt>>, st: State, dt: real -> string, fuel: nat)
    requires |st.env| > 0 && forall i :: 0 <= i < |st.env| ==> y.lexeme !in st.env[i]
    ensures ExecFrom([Some(Print(Variable(y)))] + rest, 0, st, dt, fuel) == (Raised(Undefined(y)), st)
  {
    LookupIsInnermost(st.env, y.lexeme);
    HaltsAtFirstError([Some(Print(Variable(y)))], rest, st, dt, fuel);
  }

  // ---------------------------------------------------------------------
  // Scopes

  /** Evaluating an expression never adds or removes a name in any scope: only `assign` writes, and it needs the name bound. */
  lemma {:induction false} EvalKeepsNames(e: Expr, env: Scopes)
    ensures SameShape(env, Eval(e, env).1)
  {
    match e
    case Literal(_) =>
    case Variable(_) =>
    case Grouping(inner) =>
      EvalKeepsNames(inner, env);
    case Assign(name, value) =>
      EvalKeepsNames(value, env);
    case Unary(_, right) =>
      EvalKeepsNames(right, env);
    case Binary(left, _, right) =>
      EvalKeepsNames(left, env);
      EvalKeepsNames(right, Eval(left, env).1);
    case Logical(left, _, right) =>
      EvalKeepsNames(left, env);
      EvalKeepsNames(right, Eval(left, env).1);
  }

  /**
   * What a statement may do to the names of the chain: the depth stays, the
   * outer scopes keep exactly their names, and the innermost scope may gain
   * names (by `var`) but never loses one.
   */
  ghost predicate Grows(a: Scopes, b: Scopes) {
    |a| == |b| && |a| > 0
    && (forall i, name :: 0 <= i < |a| - 1 ==> (name in a[i] <==> name in b[i]))
    && a[|a| - 1].Keys <= b[|b| - 1].Keys
  }

  /** A statement only ever declares in the current scope; a block, which pops its scope, leaves every name as it was. */
  lemma {:induction false} ExecGrows(s: Stmt, st: State, dt: real -> string, fuel: nat)
    requires |st.env| > 0
    ensures Grows(st.env, Exec(s, st, dt, fuel).1.env)
    ensures s.Block? ==> SameShape(st.env, Exec(s, st, dt, fuel).1.env)
    decreases fuel, s, 1, 0
  {
    match s
    case Expression(e) =>
      EvalKeepsNames(e, st.env);
      ShapeGrows(st.env, Eval(e, st.env).1);
    case Print(e) =>
      EvalKeepsNames(e, st.env);
      ShapeGrows(st.env, Eval(e, st.env).1);
    case Var(name, init) =>
      if init.Some? {
        EvalKeepsNames(init.value, st.env);
        var env1 := Eval(init.value, st.env).1;
        ShapeGrows(st.env, env1);
        DefineGrows(env1, name.lexeme, Nil);
        if Eval(init.value, st.env).0.Success? {
          DefineGrows(env1, name.lexeme, Eval(init.value, st.env).0.value);
          ShapeThenGrows(st.env, env1, Define(env1, name.lexeme, Eval(init.value, st.env).0.value));
        }
      } else {
        DefineGrows(st.env, name.lexeme, Nil);
      }
    case Block(ss) =>
      BlockKeepsShape(ss, st, dt, fuel);
      ShapeGrows(st.env, Exec(s, st, dt, fuel).1.env);
    case If(c, t, e) =>
      EvalKeepsNames(c, st.env);
      var st1 := st.(env := Eval(c, st.env).1);
      ShapeGrows(st.env, st1.env);
      ExecGrows(t, st1, dt, fuel);
      ShapeThenGrows(st.env, st1.env, Exec(t, st1, dt, fuel).1.env);
      if e.Some? {
        ExecGrows(e.value, st1, dt, fuel);
        ShapeThenGrows(st.env, st1.env, Exec(e.value, st1, dt, fuel).1.env);
      }
    case While(c, body) =>
      ExecWhileGrows(c, body, st, dt, fuel);
  }

  lemma ShapeGrows(a: Scopes, b: Scopes)
    requires SameShape(a, b) && |a| > 0
    ensures Grows(a, b)
  {
  }

  lemma ShapeThenGrows(a: Scopes, b: Scopes, c: Scopes)
    requires SameShape(a, b) && Grows(b, c)
    ensures Grows(a, c)
  {
  }

  lemma GrowsTrans(a: Scopes, b: Scopes, c: Scopes)
    requires Grows(a, b) && Grows(b, c)
    ensures Grows(a, c)
  {
  }

  lemma DefineGrows(env: Scopes, name: string, v: Value)
    requires |env| > 0
    ensures Grows(env, Define(env, name, v))
  {
    var r := Define(env, name, v);
    assert forall i :: 0 <= i < |env| - 1 ==> r[i] == r[..|r| - 1][i] == env[..|env| - 1][i] == env[i];
  }

  /** A block runs its statements in a pushed scope and pops it, so every scope binds the names it bound before. */
  lemma {:induction false} BlockKeepsShape(ss: seq<Option<Stmt>>, st: State, dt: real -> string, fuel: nat)
    requires |st.env| > 0
    ensures SameShape(st.env, Exec(Block(ss), st, dt, fuel).1.env)
    decreases fuel, Block(ss), 0, |ss| + 1
  {
    var inner := st.(env := st.env + [map[]]);
    ExecFromGrows(ss, 0, inner, dt, fuel);
    var st1 := ExecFrom(ss, 0, inner, dt, fuel).1;
    assert forall i :: 0 <= i < |st.env| ==> inner.env[i] == st.env[i];
    assert forall i :: 0 <= i < |st.env| ==> st1.env[..|st1.env| - 1][i] == st1.env[i];
  }

  /** `ExecGrows` for the statements `ss[i..]`. */
  lemma {:induction false} ExecFromGrows(ss: seq<Option<Stmt>>, i: nat, st: State, dt: real -> string, fuel: nat)
    requires i <= |ss| && |st.env| > 0
    ensures Grows(st.env, ExecFrom(ss, i, st, dt, fuel).1.env)
    decreases fuel, Block(ss), 0, |ss| - i
  {
    if i < |ss| && ss[i].Some? {
      ExecGrows(ss[i].value, st, dt, fuel);
      var (o, st1) := Exec(ss[i].value, st, dt, fuel);
      if o.Normal? {
        ExecFromGrows(ss, i + 1, st1, dt, fuel);
      }
    }
  }

  /** `ExecGrows` for a `while` loop. */
  lemma {:induction false} ExecWhileGrows(c: Expr, body: Stmt, st: State, dt: real -> string, fuel: nat)
    requires |st.env| > 0
    ensures Grows(st.env, ExecWhile(c, body, st, dt, fuel).1.env)
    decreases fuel, While(c, body), 0, 0
  {
    if fuel > 0 {
      EvalKeepsNames(c, st.env);
      var (v, env1) := Eval(c, st.env);
      ShapeGrows(st.env, env1);
      if v.Success? && IsTruthy(v.value) {
        ExecGrows(body, st.(env := env1), dt, fuel - 1);
        var (o, st1) := Exec(body, st.(env := env1), dt, fuel - 1);
        ShapeThenGrows(st.env, env1, st1.env);
        if o.Normal? {
          ExecWhileGrows(c, body, st1, dt, fuel - 1);
          GrowsTrans(st.env, st1.env, ExecWhile(c, body, st1, dt, fuel - 1).1.env);
        }
      }
    }
  }

  /** The scopes a statement cannot touch: without an assignment, only the current scope may change, and a block changes nothing. */
  lemma {:induction false} ExecLeavesOuterScopes(s: Stmt, st: State, dt: real -> string, fuel: nat)
    requires |st.env| > 0 && !StmtAssigns(s)
    ensures Exec(s, st, dt, fuel).1.env[..|st.env| - 1] == st.env[..|st.env| - 1]
    ensures s.Block? ==> Exec(s, st, dt, fuel).1.env == st.env
    decreases fuel, s, 1, 0
  {
    match s
    case Expression(_) =>
    case Print(_) =>
    case Var(_, _) =>
    case Block(ss) =>
      var inner := st.(env := st.env + [map[]]);
      ExecFromLeavesOuterScopes(ss, 0, inner, dt, fuel);
      var st1 := ExecFrom(ss, 0, inner, dt, fuel).1;
      assert inner.env[..|st.env|] == st.env;
    case If(c, t, e) =>
      var st1 := st.(env := Eval(c, st.env).1);
      ExecLeavesOuterScopes(t, st1, dt, fuel);
      if e.Some? {
        ExecLeavesOuterScopes(e.value, st1, dt, fuel);
      }
    case While(c, body) =>
      ExecWhileLeavesOuterScopes(c, body, st, dt, fuel);
  }

  /** `ExecLeavesOuterScopes` for the statements `ss[i..]`. */
  lemma {:induction false} ExecFromLeavesOuterScopes(ss: seq<Option<Stmt>>, i: nat, st: State, dt: real -> string, fuel: nat)
    requires i <= |ss| && |st.env| > 0
    requires forall j :: i <= j < |ss| && ss[j].Some? ==> !StmtAssigns(ss[j].value)
    ensures ExecFrom(ss, i, st, dt, fuel).1.env[..|st.env| - 1] == st.env[..|st.env| - 1]
    decreases fuel, Block(ss), 0, |ss| - i
  {
    if i < |ss| && ss[i].Some? {
      ExecLeavesOuterScopes(ss[i].value, st, dt, fuel);
      var (o, st1) := Exec(ss[i].value, st, dt, fuel);
      if o.Normal? {
        ExecFromLeavesOuterScopes(ss, i + 1, st1, dt, fuel);
      }
    }
  }

  /** `ExecLeavesOuterScopes` for a `while` loop. */
  lemma {:induction false} ExecWhileLeavesOuterScopes(c: Expr, body: Stmt, st: State, dt: real -> string, fuel: nat)
    requires |st.env| > 0 && !ExprAssigns(c) && !StmtAssigns(body)
    ensures ExecWhile(c, body, st, dt, fuel).1.env[..|st.env| - 1] == st.env[..|st.env| - 1]
    decreases fuel, While(c, body), 0, 0
  {
    if fuel > 0 {
      var (v, env1) := Eval(c, st.env);
      if v.Success? && IsTruthy(v.value) {
        ExecLeavesOuterScopes(body, st.(env := env1), dt, fuel - 1);
        var (o, st1) := Exec(body, st.(env := env1), dt, fuel - 1);
        if o.Normal? {
          ExecWhileLeavesOuterScopes(c, body, st1, dt, fuel - 1);
        }
      }
    }
  }

  /**
   * `var x = 1; { var x = 2; print x; } print x;` prints `2` then `1`: the
   * inner `x` shadows the outer one and is gone when the block ends.
   */
  lemma ShadowingExample(x: Token, dt: real -> string, fuel: nat)
    requires x.lexeme == "x" && dt(1.0) == "1.0" && dt(2.0) == "2.0"
    ensures var program := [Some(Var(x, Some(Literal(Num(1.0))))),
                            Some(Block([Some(Var(x, Some(Literal(Num(2.0))))), Some(Print(Variable(x)))])),
                            Some(Print(Variable(x)))];
      ExecFrom(program, 0, State([map[]], []), dt, fuel) == (Normal, State([map["x" := Num(1.0)]], ["2", "1"]))
  {
    var inner := [Some(Var(x, Some(Literal(Num(2.0))))), Some(Print(Variable(x)))];
    var global := [map["x" := Num(1.0)]];
    assert StripPointZero("2.0") == "2" && StripPointZero("1.0") == "1";
    var pushed := global + [map["x" := Num(2.0)]];
    assert Define(global + [map[]], "x", Num(2.0)) == pushed;
    assert Exec(inner[0].value, State(global + [map[]], []), dt, fuel) == (Normal, State(pushed, []));
    assert Lookup(pushed, "x") == Some(Num(2.0));
    assert Stringify(Num(2.0), dt) == "2";
    assert Eval(Variable(x), pushed) == (Success(Num(2.0)), pushed);
    assert [] + [Stringify(Num(2.0), dt)] == ["2"];
    assert Exec(inner[1].value, State(pushed, []), dt, fuel) == (Normal, State(pushed, ["2"]));
    assert ExecFrom(inner, 2, State(pushed, ["2"]), dt, fuel) == (Normal, State(pushed, ["2"]));
    assert ExecFrom(inner, 0, State(global + [map[]], []), dt, fuel) == (Normal, State(pushed, ["2"]));
    assert pushed[..1] == global;
    assert Exec(Block(inner), State(global, []), dt, fuel) == (Normal, State(global, ["2"]));
    assert Define([map[]], "x", Num(1.0)) == global;
    assert Lookup(global, "x") == Some(Num(1.0));
    assert Stringify(Num(1.0), dt) == "1";
    var program := [Some(Var(x, Some(Literal(Num(1.0))))), Some(Block(inner)), Some(Print(Variable(x)))];
    assert Eval(Variable(x), global) == (Success(Num(1.0)), global);
    assert ["2"] + [Stringify(Num(1.0), dt)] == ["2", "1"];
    assert ExecFrom(program, 2, State(global, ["2"]), dt, fuel) == (Normal, State(global, ["2", "1"]));
    assert ExecFrom(program, 1, State(global, []), dt, fuel) == (Normal, State(global, ["2", "1"]));
  }

  /** `var x = 1; { x = 2; } print x;` prints `2`: assignment inside a block writes the outer binding. */
  lemma AssignInBlockExample(x: Token, dt: real -> string, fuel: nat)
    requires x.lexeme == "x" && dt(2.0) == "2.0"
    ensures var program := [Some(Var(x, Some(Literal(Num(1.0))))),
                            Some(Block([Some(Expression(Assign(x, Literal(Num(2.0)))))])),
                            Some(Print(Variable(x)))];
      ExecFrom(program, 0, State([map[]], []), dt, fuel) == (Normal, State([map["x" := Num(2.0)]], ["2"]))
  {
    var inner := [Some(Expression(Assign(x, Literal(Num(2.0)))))];
    var global := [map["x" := Num(1.0)]];
    var updated := [map["x" := Num(2.0)]];
    assert Define([map[]], "x", Num(1.0)) == global;
    assert x.lexeme in global[0];
    assert global[0][x.lexeme := Num(2.0)].Keys == {"x"};
    assert global[0][x.lexeme := Num(2.0)] == map["x" := Num(2.0)];
    assert global[0 := global[0][x.lexeme := Num(2.0)]] == updated;
    assert Environment.Assign(global, x, Num(2.0)) == Success(updated);
    assert (global + [map[]])[..1] == global;
    assert Environment.Assign(global + [map[]], x, Num(2.0)) == Success(updated + [map[]]);
    assert Eval(Assign(x, Literal(Num(2.0))), global + [map[]]) == (Success(Num(2.0)), updated + [map[]]);
    assert ExecFrom(inner, 1, State(updated + [map[]], []), dt, fuel) == (Normal, State(updated + [map[]], []));
    assert ExecFrom(inner, 0, State(global + [map[]], []), dt, fuel) == (Normal, State(updated + [map[]], []));
    assert (updated + [map[]])[..1] == updated;
    assert Exec(Block(inner), State(global, []), dt, fuel) == (Normal, State(updated, []));
    assert StripPointZero("2.0") == "2";
    assert Eval(Variable(x), updated) == (Success(Num(2.0)), updated);
    assert [] + [Stringify(Num(2.0), dt)] == ["2"];
    var program := [Some(Var(x, Some(Literal(Num(1.0))))), Some(Block(inner)), Some(Print(Variable(x)))];
    assert ExecFrom(program, 2, State(updated, []), dt, fuel) == (Normal, State(updated, ["2"]));
    assert ExecFrom(program, 1, State(global, []), dt, fuel) == (Normal, State(updated, ["2"]));
  }
}
