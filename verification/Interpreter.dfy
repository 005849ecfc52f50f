/**
 * The interpreter object: its current scope chain, the lines it has printed
 * and the runtime errors it has reported. Each visit method is proved to do
 * exactly what the corresponding function of `Semantics` says, so every fact
 * proved about those functions holds for this class.
 */
module Interpreter {
  import opened Wrappers
  import opened Tokens
  import opened Ast
  import opened Environment
  import opened Semantics

  class Interpreter {
    /** The chain of scopes, global first; the last one is the current `environment`. */
    var environment: Scopes
    /** What `System.out.println` has printed, one entry per line. */
    var output: seq<string>
    /** What `Lox.runtimeError` has been handed, in order. */
    var reported: seq<RuntimeError>
    /** Stands for `Double.toString`. */
    const dt: real -> string

    /** The state the `Semantics` functions run on. */
    function Now(): State
      reads this
    {
      State(environment, output)
    }

    /** A fresh interpreter: one empty global scope, nothing printed or reported. */
    constructor(dt: real -> string)
      ensures environment == [map[]] && output == [] && reported == [] && this.dt == dt
    {
      this.dt := dt;
      environment := [map[]];
      output := [];
      reported := [];
    }

    /**
     * `interpret`: run the statements in order; a runtime error stops the run
     * and is reported once. A crash or running out of fuel is returned.
     */
    method Interpret(ss: seq<Option<Stmt>>, fuel: nat) returns (o: Outcome)
      requires |environment| > 0
      modifies this
      ensures (o, Now()) == ExecFrom(ss, 0, old(Now()), dt, fuel)
      ensures reported == old(reported) + (if o.Raised? then [o.error] else [])
    {
      var i := 0;
      o := Normal;
      while i < |ss|
        invariant i <= |ss| && |environment| == |old(environment)|
        invariant ExecFrom(ss, 0, old(Now()), dt, fuel) == ExecFrom(ss, i, Now(), dt, fuel)
        invariant reported == old(reported) && o == Normal
      {
        if ss[i].None? {
          o := Crashed;
          return;
        }
        o := Execute(ss[i].value, fuel);
        if !o.Normal? {
          break;
        }
        i := i + 1;
      }
      if o.Raised? {
        reported := reported + [o.error];
      }
    }

    /** `evaluate(expr)`. */
    method Evaluate(e: Expr) returns (r: Result<Value, RuntimeError>)
      modifies this
      ensures (r, environment) == Eval(e, old(environment))
      ensures output == old(output) && reported == old(reported)
      decreases e
    {
      match e
      case Literal(v) =>
        r := Success(v);
      case Grouping(inner) =>
        r := Evaluate(inner);
      case Variable(name) =>
        r := Get(environment, name);
      case Assign(name, value) =>
        r := Evaluate(value);
        if r.Success? {
          match Environment.Assign(environment, name, r.value)
          case Failure(err) =>
            r := Failure(err);
          case Success(env) =>
            environment := env;
        }
      case Unary(op, right) =>
        r := Evaluate(right);
        if r.Success? {
          r := EvalUnary(op, r.value);
        }
      case Binary(left, op, right) =>
        var l := Evaluate(left);
        if l.Failure? {
          return l;
        }
        r := Evaluate(right);
        if r.Success? {
          r := EvalBinary(op, l.value, r.value);
        }
      case Logical(left, op, right) =>
        r := Evaluate(left);
        if r.Success? && !ShortCircuitsAsWritten(op.kind, r.value) {
          r := Evaluate(right);
        }
    }

    /** `execute(stmt)`: the statement visitors. */
    method Execute(s: Stmt, fuel: nat) returns (o: Outcome)
      requires |environment| > 0
      modifies this
      ensures (o, Now()) == Exec(s, old(Now()), dt, fuel)
      ensures reported == old(reported)
      decreases fuel, s, 1, 0
    {
      match s
      case Expression(e) =>
        var v := Evaluate(e);
        o := Completion(v);
      case Print(e) =>
        var v := Evaluate(e);
        if v.Failure? {
          o := Raised(v.error);
        } else {
          output := output + [Stringify(v.value, dt)];
          o := Normal;
        }
      case Var(name, init) =>
        var value := Nil;
        if init.Some? {
          var v := Evaluate(init.value);
          if v.Failure? {
            return Raised(v.error);
          }
          value := v.value;
        }
        environment := Define(environment, name.lexeme, value);
        o := Normal;
      case Block(ss) =>
        o := ExecuteBlock(ss, fuel);
      case If(c, thenBranch, elseBranch) =>
        var v := Evaluate(c);
        if v.Failure? {
          o := Raised(v.error);
        } else if IsTruthy(v.value) {
          o := Execute(thenBranch, fuel);
        } else if elseBranch.Some? {
          o := Execute(elseBranch.value, fuel);
        } else {
          o := Normal;
        }
      case While(c, body) =>
        o := ExecuteWhile(c, body, fuel);
    }

    /**
     * `visitBlockStmt` and `executeBlock`: push a fresh scope, run the
     * statements until one does not end normally, and pop the scope on
     * every way out.
     */
    method ExecuteBlock(ss: seq<Option<Stmt>>, fuel: nat) returns (o: Outcome)
      requires |environment| > 0
      modifies this
      ensures (o, Now()) == Exec(Block(ss), old(Now()), dt, fuel)
      ensures reported == old(reported)
      decreases fuel, Block(ss), 0, 0
    {
      environment := environment + [map[]];
      ghost var start := Now();
      var i := 0;
      o := Normal;
      while i < |ss|
        invariant i <= |ss| && |environment| == |start.env|
        invariant ExecFrom(ss, 0, start, dt, fuel) == ExecFrom(ss, i, Now(), dt, fuel)
        invariant reported == old(reported) && o == Normal
      {
        if ss[i].None? {
          o := Crashed;
          break;
        }
        o := Execute(ss[i].value, fuel);
        if !o.Normal? {
          break;
        }
        i := i + 1;
      }
      environment := environment[..|environment| - 1];
    }

    /** `visitWhileStmt`, with at most `fuel` iterations. */
    method ExecuteWhile(c: Expr, body: Stmt, fuel: nat) returns (o: Outcome)
      requires |environment| > 0
      modifies this
      ensures (o, Now()) == ExecWhile(c, body, old(Now()), dt, fuel)
      ensures reported == old(reported)
      decreases fuel, While(c, body), 0, 1
    {
      ghost var goal := ExecWhile(c, body, Now(), dt, fuel);
      var f: nat := fuel;
      while true
        invariant f <= fuel && |environment| > 0
        invariant goal == ExecWhile(c, body, Now(), dt, f)
        invariant reported == old(reported)
        decreases f
      {
        var again;
        o, again := Iteration(c, body, f);
        if !again {
          return;
        }
        f := f - 1;
      }
    }

    /**
     * One turn of the loop: out of fuel, or one test of the condition and,
     * when it holds, one run of the body. `again` says whether the loop goes on.
     */
    method Iteration(c: Expr, body: Stmt, f: nat) returns (o: Outcome, again: bool)
      requires |environment| > 0
      modifies this
      ensures |environment| > 0
      ensures again ==> f > 0 && ExecWhile(c, body, old(Now()), dt, f) == ExecWhile(c, body, Now(), dt, f - 1)
      ensures !again ==> (o, Now()) == ExecWhile(c, body, old(Now()), dt, f)
      ensures reported == old(reported)
      decreases f, While(c, body), 0, 0
    {
      if f == 0 {
        return OutOfFuel, false;
      }
      var v := Evaluate(c);
      assert Now() == old(Now()).(env := environment);
      if v.Failure? {
        return Raised(v.error), false;
      }
      if !IsTruthy(v.value) {
        return Normal, false;
      }
      o := Execute(body, f - 1);
      again := o.Normal?;
    }
  }
}
