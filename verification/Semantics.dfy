/**
 * What Interpreter.java computes, as functions: the value rules (truthiness,
 * equality, operand checks, `stringify`), expression evaluation against a
 * chain of scopes, and statement execution with its output. The class
 * `Interpreter.Interpreter` runs the same steps imperatively and is proved to
 * agree with these functions.
 *
 * A thrown `RuntimeError` becomes a `Failure` (for expressions) or a `Raised`
 * outcome (for statements); executing a `null` statement, which throws a
 * `NullPointerException` in Java, becomes `Crashed`.
 */
module Semantics {
  import opened Wrappers
  import opened Tokens
  import opened Ast
  import opened Environment

  // ---------------------------------------------------------------------
  // Value rules

  /** `isTruthy`: `nil` and `false` are falsy, every other value is truthy. */
  function IsTruthy(v: Value): (r: bool)
    ensures r <==> v != Nil && v != Bool(false)
  {
    match v
    case Nil => false
    case Bool(b) => b
    case _ => true
  }

  /** Java's `equals` on a non-null value: same class and same contents. */
  predicate ObjectEquals(a: Value, b: Value)
    requires !a.Nil?
  {
    match a
    case Bool(x) => b.Bool? && b.b == x
    case Num(x) => b.Num? && b.n == x
    case Str(x) => b.Str? && b.s == x
  }

  /** `isEqual`: `null` equals only `null`; otherwise `left.equals(right)`. */
  function IsEqual(a: Value, b: Value): (r: bool)
    ensures r <==> a == b
  {
    if a.Nil? && b.Nil? then true
    else if a.Nil? then false
    else ObjectEquals(a, b)
  }

  /** `checkNumberOperand`: `None` when the check passes, else the error it throws. */
  function CheckNumberOperand(op: Token, operand: Value): (r: Option<RuntimeError>)
    ensures r.None? <==> operand.Num?
    ensures r.Some? ==> r.value == TypeError(op, "Operand must be number.")
  {
    if operand.Num? then None else Some(TypeError(op, "Operand must be number."))
  }

  /** `checkNumberOperands`. */
  function CheckNumberOperands(op: Token, left: Value, right: Value): (r: Option<RuntimeError>)
    ensures r.None? <==> left.Num? && right.Num?
    ensures r.Some? ==> r.value == TypeError(op, "Operands must be number.")
  {
    if left.Num? && right.Num? then None else Some(TypeError(op, "Operands must be number."))
  }

  /** The operators that demand two numbers. */
  const NumberOperators: set<TokenType> := {GREATER, GREATER_EQUAL, LESS, LESS_EQUAL, MINUS, STAR, SLASH}

  /**
   * Division of two numbers. IEEE division by zero (an infinity or NaN) has
   * no real-number counterpart; the model yields 0 there.
   */
  function Quotient(x: real, y: real): real {
    if y == 0.0 then 0.0 else x / y
  }

  /** The `switch` of `visitUnaryExpr`, once the operand is evaluated. */
  function EvalUnary(op: Token, right: Value): (r: Result<Value, RuntimeError>)
    ensures op.kind == BANG ==> r.Success? && r.value.Bool? && (r.value.b <==> !IsTruthy(right))
    ensures op.kind == MINUS ==> (r.Success? <==> right.Num?)
    ensures op.kind == MINUS && r.Failure? ==> r.error == TypeError(op, "Operand must be number.")
    ensures op.kind == MINUS && r.Success? ==> r.value.Num? && r.value.n + right.n == 0.0
  {
    match op.kind
    case BANG => Success(Bool(!IsTruthy(right)))
    case MINUS =>
      (match CheckNumberOperand(op, right)
       case Some(e) => Failure(e)
       case None => Success(Num(-right.n)))
    case _ => Success(Nil)
  }

  /** The `switch` of `visitBinaryExpr`, once both operands are evaluated. */
  function EvalBinary(op: Token, left: Value, right: Value): (r: Result<Value, RuntimeError>)
    ensures op.kind in NumberOperators ==> (r.Success? <==> left.Num? && right.Num?)
    ensures op.kind in NumberOperators && r.Failure? ==> r.error == TypeError(op, "Operands must be number.")
    ensures op.kind == PLUS ==> (r.Success? <==> (left.Num? && right.Num?) || (left.Str? && right.Str?))
    ensures op.kind == PLUS && left.Num? && right.Num? ==> r == Success(Num(left.n + right.n))
    ensures op.kind == PLUS && left.Str? && right.Str? ==> r == Success(Str(left.s + right.s))
    ensures op.kind == PLUS && r.Failure? ==> r.error == TypeError(op, "Operands must be both numbers or strings!")
    ensures op.kind == MINUS && left.Num? && right.Num? ==> r == Success(Num(left.n - right.n))
    ensures op.kind == STAR && left.Num? && right.Num? ==> r == Success(Num(left.n * right.n))
    ensures op.kind == SLASH && left.Num? && right.Num? ==> r == Success(Num(Quotient(left.n, right.n)))
    ensures op.kind == GREATER && left.Num? && right.Num? ==> r == Success(Bool(left.n > right.n))
    ensures op.kind == GREATER_EQUAL && left.Num? && right.Num? ==> r == Success(Bool(left.n >= right.n))
    ensures op.kind == LESS && left.Num? && right.Num? ==> r == Success(Bool(left.n < right.n))
    ensures op.kind == LESS_EQUAL && left.Num? && right.Num? ==> r == Success(Bool(left.n <= right.n))
    ensures op.kind == EQUAL_EQUAL ==> r == Success(Bool(left == right))
    ensures op.kind == BANG_EQUAL ==> r == Success(Bool(left != right))
  {
    match op.kind
    case GREATER =>
      (match CheckNumberOperands(op, left, right)
       case Some(e) => Failure(e)
       case None => Success(Bool(left.n > right.n)))
    case GREATER_EQUAL =>
      (match CheckNumberOperands(op, left, right)
       case Some(e) => Failure(e)
       case None => Success(Bool(left.n >= right.n)))
    case LESS =>
      (match CheckNumberOperands(op, left, right)
       case Some(e) => Failure(e)
       case None => Success(Bool(left.n < right.n)))
    case LESS_EQUAL =>
      (match CheckNumberOperands(op, left, right)
       case Some(e) => Failure(e)
       case None => Success(Bool(left.n <= right.n)))
    case MINUS =>
      (match CheckNumberOperands(op, left, right)
       case Some(e) => Failure(e)
       case None => Success(Num(left.n - right.n)))
    case STAR =>
      (match CheckNumberOperands(op, left, right)
       case Some(e) => Failure(e)
       case None => Success(Num(left.n * right.n)))
    case SLASH =>
      (match CheckNumberOperands(op, left, right)
       case Some(e) => Failure(e)
       case None => Success(Num(Quotient(left.n, right.n))))
    case PLUS =>
      if left.Num? && right.Num? then Success(Num(left.n + right.n))
      else if left.Str? && right.Str? then Success(Str(left.s + right.s))
      else Failure(TypeError(op, "Operands must be both numbers or strings!"))
    case BANG_EQUAL => Success(Bool(!IsEqual(left, right)))
    case EQUAL_EQUAL => Success(Bool(IsEqual(left, right)))
    case _ => Success(Nil)
  }

  /**
   * Whether a `Logical` node returns its left operand without evaluating
   * the right one: `or` stops on a truthy left operand, `and` on a falsy one.
   */
  predicate ShortCircuits(op: TokenType, left: Value) {
    if op == OR then IsTruthy(left) else !IsTruthy(left)
  }

  /**
   * The test `visitLogicalExpr` actually performs: both of its branches stop
   * on a truthy left operand, `and` included.
   */
  function ShortCircuitsAsWritten(op: TokenType, left: Value): (r: bool)
    ensures r <==> IsTruthy(left)
    ensures op == AND ==> (r <==> !ShortCircuits(op, left))
  {
    if op == OR then IsTruthy(left) else IsTruthy(left)
  }

  /** Whether `text` ends in `".0"`. */
  predicate EndsInPointZero(text: string) {
    |text| >= 2 && text[|text| - 2..] == ".0"
  }

  /** The `".0"` stripping of `stringify`. */
  function StripPointZero(text: string): (r: string)
    ensures EndsInPointZero(text) ==> r + ".0" == text
    ensures !EndsInPointZero(text) ==> r == text
  {
    if EndsInPointZero(text) then text[..|text| - 2] else text
  }

  /** `stringify`; `dt` stands for `Double.toString`. */
  function Stringify(v: Value, dt: real -> string): (r: string)
    ensures v.Nil? ==> r == "nil"
    ensures v.Num? && EndsInPointZero(dt(v.n)) ==> r + ".0" == dt(v.n)
    ensures v.Num? && !EndsInPointZero(dt(v.n)) ==> r == dt(v.n)
    ensures v.Bool? ==> r == (if v.b then "true" else "false")
    ensures v.Str? ==> r == v.s
  {
    match v
    case Nil => "nil"
    case Num(n) => StripPointZero(dt(n))
    case _ => ObjectText(v, dt)
  }

  // ---------------------------------------------------------------------
  // Expressions

  /**
   * `evaluate(expr)`: operands left to right, each seeing the scopes the
   * previous one left behind; the first error ends the evaluation. Only
   * assignment changes the scopes, and it never adds or removes a name.
   */
  function Eval(e: Expr, env: Scopes): (r: (Result<Value, RuntimeError>, Scopes))
    ensures |r.1| == |env|
    ensures !ExprAssigns(e) ==> r.1 == env
    ensures e.Literal? ==> r == (Success(e.literal), env)
    ensures e.Variable? ==> r == (Get(env, e.name), env)
    ensures e.Assign? && r.0.Success? ==> Lookup(r.1, e.name.lexeme) == Some(r.0.value)
    decreases e, 1
  {
    match e
    case Literal(v) => (Success(v), env)
    case Grouping(inner) => Eval(inner, env)
    case Variable(name) => (Get(env, name), env)
    case Assign(name, value) => VisitAssign(name, value, env)
    case Unary(op, right) => VisitUnary(op, right, env)
    case Binary(left, op, right) => VisitBinary(left, op, right, env)
    case Logical(left, op, right) => VisitLogical(left, op, right, env)
  }

  /** `visitAssignExpr`: the value is assigned to the innermost binding of the name and is the result. */
  function VisitAssign(name: Token, value: Expr, env: Scopes): (r: (Result<Value, RuntimeError>, Scopes))
    ensures |r.1| == |env|
    ensures r.0.Success? ==> Lookup(r.1, name.lexeme) == Some(r.0.value)
    ensures r.0.Success? ==> r.0 == Eval(value, env).0
    ensures Eval(value, env).0.Success? && Lookup(Eval(value, env).1, name.lexeme).None? ==>
      r == (Failure(Undefined(name)), Eval(value, env).1)
    decreases Assign(name, value), 0
  {
    var (v, env1) := Eval(value, env);
    if v.Failure? then (v, env1)
    else
      match Environment.Assign(env1, name, v.value)
      case Failure(err) => (Failure(err), env1)
      case Success(env2) => (v, env2)
  }

  /** `visitUnaryExpr`. */
  function VisitUnary(op: Token, right: Expr, env: Scopes): (r: (Result<Value, RuntimeError>, Scopes))
    ensures |r.1| == |env|
    ensures !ExprAssigns(right) ==> r.1 == env
    decreases Unary(op, right), 0
  {
    var (v, env1) := Eval(right, env);
    if v.Failure? then (v, env1) else (EvalUnary(op, v.value), env1)
  }

  /** `visitBinaryExpr`: both operands are evaluated, left first, before the operator applies. */
  function VisitBinary(left: Expr, op: Token, right: Expr, env: Scopes): (r: (Result<Value, RuntimeError>, Scopes))
    ensures |r.1| == |env|
    ensures !ExprAssigns(left) && !ExprAssigns(right) ==> r.1 == env
    decreases Binary(left, op, right), 0
  {
    var (l, env1) := Eval(left, env);
    if l.Failure? then (l, env1)
    else
      var (rv, env2) := Eval(right, env1);
      if rv.Failure? then (rv, env2) else (EvalBinary(op, l.value, rv.value), env2)
  }

  /**
   * `visitLogicalExpr` as written: the left operand is the result whenever it
   * is truthy, for `and` as for `or` (see `ShortCircuitsAsWritten`).
   */
  function VisitLogical(left: Expr, op: Token, right: Expr, env: Scopes): (r: (Result<Value, RuntimeError>, Scopes))
    ensures |r.1| == |env|
    ensures !ExprAssigns(left) && !ExprAssigns(right) ==> r.1 == env
    decreases Logical(left, op, right), 0
  {
    var (l, env1) := Eval(left, env);
    if l.Failure? then (l, env1)
    else if ShortCircuitsAsWritten(op.kind, l.value) then (l, env1)
    else Eval(right, env1)
  }

  // ---------------------------------------------------------------------
  // Statements

  /** How a statement ends: normally, with a `RuntimeError`, on a `null` statement, or out of fuel. */
  datatype Outcome = Normal | Raised(error: RuntimeError) | Crashed | OutOfFuel

  /** The interpreter's state: the scope chain and the lines printed so far. */
  datatype State = State(env: Scopes, out: seq<string>)

  /** The outcome of a statement whose expression evaluated to `v`. */
  function Completion(v: Result<Value, RuntimeError>): (o: Outcome)
    ensures o.Normal? <==> v.Success?
    ensures v.Failure? ==> o == Raised(v.error)
  {
    if v.Failure? then Raised(v.error) else Normal
  }

  /**
   * `execute(stmt)` with `fuel` bounding the number of `while` iterations.
   * The chain keeps its depth and printed lines are never taken back,
   * whatever the outcome; what each statement binds and prints is stated by
   * the lemmas of `SemanticsFacts`.
   */
  function Exec(s: Stmt, st: State, dt: real -> string, fuel: nat): (r: (Outcome, State))
    requires |st.env| > 0
    ensures |r.1.env| == |st.env| && st.out <= r.1.out
    ensures s.Var? && r.0.Normal? ==> s.name.lexeme in r.1.env[|r.1.env| - 1]
    ensures NullFree(s) ==> r.0 != Crashed
    ensures !HasWhile(s) ==> r.0 != OutOfFuel
    decreases fuel, s, 1, 0
  {
    match s
    case Expression(e) =>
      var (v, env1) := Eval(e, st.env);
      (Completion(v), st.(env := env1))
    case Print(e) =>
      var (v, env1) := Eval(e, st.env);
      if v.Failure? then (Raised(v.error), st.(env := env1))
      else (Normal, State(env1, st.out + [Stringify(v.value, dt)]))
    case Var(name, init) =>
      if init.None? then (Normal, st.(env := Define(st.env, name.lexeme, Nil)))
      else
        var (v, env1) := Eval(init.value, st.env);
        if v.Failure? then (Raised(v.error), st.(env := env1))
        else (Normal, st.(env := Define(env1, name.lexeme, v.value)))
    case Block(ss) =>
      var (o, st1) := ExecFrom(ss, 0, st.(env := st.env + [map[]]), dt, fuel);
      var env' := st1.env[..|st1.env| - 1];
      assert forall i :: 0 <= i < |env'| ==> env'[i] == st1.env[i] && st.env[i] == (st.env + [map[]])[i];
      (o, st1.(env := env'))
    case If(c, t, e) =>
      var (v, env1) := Eval(c, st.env);
      if v.Failure? then (Raised(v.error), st.(env := env1))
      else if IsTruthy(v.value) then Exec(t, st.(env := env1), dt, fuel)
      else if e.Some? then Exec(e.value, st.(env := env1), dt, fuel)
      else (Normal, st.(env := env1))
    case While(c, body) =>
      ExecWhile(c, body, st, dt, fuel)
  }

  /** The statements `ss[i..]` in order, stopping at the first that does not end normally. */
  function ExecFrom(ss: seq<Option<Stmt>>, i: nat, st: State, dt: real -> string, fuel: nat): (r: (Outcome, State))
    requires i <= |ss| && |st.env| > 0
    ensures |r.1.env| == |st.env| && st.out <= r.1.out
    ensures (forall j :: i <= j < |ss| ==> ss[j].Some? && NullFree(ss[j].value)) ==> r.0 != Crashed
    ensures (forall j :: i <= j < |ss| && ss[j].Some? ==> !HasWhile(ss[j].value)) ==> r.0 != OutOfFuel
    decreases fuel, Block(ss), 0, |ss| - i
  {
    if i == |ss| then (Normal, st)
    else if ss[i].None? then (Crashed, st)
    else
      var (o, st1) := Exec(ss[i].value, st, dt, fuel);
      if o.Normal? then ExecFrom(ss, i + 1, st1, dt, fuel) else (o, st1)
  }

  /** `visitWhileStmt`: each iteration costs one unit of fuel. */
  function ExecWhile(c: Expr, body: Stmt, st: State, dt: real -> string, fuel: nat): (r: (Outcome, State))
    requires |st.env| > 0
    ensures |r.1.env| == |st.env| && st.out <= r.1.out
    ensures NullFree(body) ==> r.0 != Crashed
    decreases fuel, While(c, body), 0, 0
  {
    if fuel == 0 then (OutOfFuel, st)
    else
      var (v, env1) := Eval(c, st.env);
      if v.Failure? then (Raised(v.error), st.(env := env1))
      else if !IsTruthy(v.value) then (Normal, st.(env := env1))
      else
        var (o, st1) := Exec(body, st.(env := env1), dt, fuel - 1);
        if o.Normal? then ExecWhile(c, body, st1, dt, fuel - 1) else (o, st1)
  }
}
