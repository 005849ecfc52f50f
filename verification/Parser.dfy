/**
 * Parser.java as a class: the token list, the `current` index that only moves
 * forward, and the syntax errors reported to the diagnostic sink. Every method
 * is proved to do exactly what the function of the same name in `Grammar`
 * computes, so the facts proved there (cursor bounds, progress, tree shape,
 * recovery) hold of the class.
 */
module Parser {
  import opened Wrappers
  import opened Tokens
  import opened Ast
  import G = Grammar

  class Parser {
    const tokens: seq<Token>
    var current: nat
    var errors: seq<G.SyntaxError>

    ghost predicate Valid()
      reads this
    {
      G.ValidAt(tokens, G.Cursor(current, errors))
    }

    /** The parser's state as the `Grammar` functions see it. */
    ghost function At(): G.Cursor
      reads this
    {
      G.Cursor(current, errors)
    }

    constructor (tokens: seq<Token>)
      requires WellFormed(tokens)
      ensures Valid() && this.tokens == tokens && current == 0 && errors == []
    {
      this.tokens := tokens;
      current := 0;
      errors := [];
    }

    /** `parse()`. */
    method Parse() returns (statements: seq<Option<Stmt>>)
      requires Valid()
      modifies this
      ensures Valid() && (statements, At()) == G.ParseLoop(tokens, old(At()), [])
    {
      ghost var c0 := At();
      statements := [];
      while !G.IsAtEnd(tokens, current)
        invariant Valid() && NoneHasWhile(statements)
        invariant G.ParseLoop(tokens, At(), statements) == G.ParseLoop(tokens, c0, [])
        decreases |tokens| - current
      {
        var d := Declaration();
        statements := statements + [d];
      }
    }

    // -------------------------------------------------------------------
    // Expressions

    /** `expression()`. */
    method Expression() returns (r: G.Attempt<Expr>)
      requires Valid()
      modifies this
      ensures Valid() && (r, At()) == G.Expression(tokens, old(At()))
      decreases |tokens| - current, 20
    {
      r := Assignment();
    }

    /** `assignment()`. */
    method Assignment() returns (r: G.Attempt<Expr>)
      requires Valid()
      modifies this
      ensures Valid() && (r, At()) == G.Assignment(tokens, old(At()))
      decreases |tokens| - current, 19
    {
      var expr := Level(0);
      if expr.Thrown? {
        return G.Thrown;
      }
      r := AssignTarget(expr.value);
    }

    /** The optional `= value` of `assignment()` after its left-hand side. */
    method AssignTarget(left: Expr) returns (r: G.Attempt<Expr>)
      requires Valid() && G.Shaped(left) && G.Rank(left) >= 1
      modifies this
      ensures Valid() && (r, At()) == G.AssignTarget(tokens, old(At()), left)
      decreases |tokens| - current, 0
    {
      var isAssign := Match({EQUAL});
      if isAssign {
        var equals := G.Previous(tokens, current);
        var value := Assignment();
        if value.Thrown? {
          return G.Thrown;
        }
        if left.Variable? {
          return G.Done(Expr.Assign(left.name, value.value));
        }
        Error(equals, "Invalid assignment target.");
      }
      return G.Done(left);
    }

    /** `or()`, `and()`, `equality()`, `comparison()`, `term()`, `factor()` for `k` = 0 to 5. */
    method Level(k: nat) returns (r: G.Attempt<Expr>)
      requires Valid() && k < 6
      modifies this
      ensures Valid() && (r, At()) == G.Level(tokens, old(At()), k)
      decreases |tokens| - current, 18 - 2 * k
    {
      ghost var c0 := At();
      var left := Operand(k);
      if left.Thrown? {
        return G.Thrown;
      }
      var expr := left.value;
      while true
        invariant Valid() && G.Shaped(expr) && G.Rank(expr) >= k + 1
        invariant G.LevelLoop(tokens, At(), k, expr) == G.Level(tokens, c0, k)
        decreases |tokens| - current
      {
        var more := Match(G.Operators(k));
        if !more {
          return G.Done(expr);
        }
        var operator := G.Previous(tokens, current);
        var right := Operand(k);
        if right.Thrown? {
          return G.Thrown;
        }
        G.NodeShaped(k, expr, operator, right.value);
        expr := G.Node(k, expr, operator, right.value);
      }
    }

    /** The operand of level `k`: the next level down, `unary()` below `factor()`. */
    method Operand(k: nat) returns (r: G.Attempt<Expr>)
      requires Valid() && k < 6
      modifies this
      ensures Valid() && (r, At()) == G.Operand(tokens, old(At()), k)
      decreases |tokens| - current, 17 - 2 * k
    {
      if k == 5 {
        r := UnaryExpr();
      } else {
        r := Level(k + 1);
      }
    }

    /** `unary()`. */
    method UnaryExpr() returns (r: G.Attempt<Expr>)
      requires Valid()
      modifies this
      ensures Valid() && (r, At()) == G.UnaryExpr(tokens, old(At()))
      decreases |tokens| - current, 6
    {
      var isPrefix := Match({BANG, MINUS});
      if isPrefix {
        var operator := G.Previous(tokens, current);
        var right := UnaryExpr();
        if right.Thrown? {
          return G.Thrown;
        }
        return G.Done(Expr.Unary(operator, right.value));
      }
      r := Primary();
    }

    /** `primary()`. */
    method Primary() returns (r: G.Attempt<Expr>)
      requires Valid()
      modifies this
      ensures Valid() && (r, At()) == G.Primary(tokens, old(At()))
      decreases |tokens| - current, 5
    {
      var m := Match({FALSE});
      if m {
        return G.Done(Literal(Bool(false)));
      }
      m := Match({TRUE});
      if m {
        return G.Done(Literal(Bool(true)));
      }
      m := Match({NIL});
      if m {
        return G.Done(Literal(Nil));
      }
      m := Match({NUMBER, STRING});
      if m {
        return G.Done(Literal(G.Previous(tokens, current).literal));
      }
      m := Match({IDENTIFIER});
      if m {
        return G.Done(Variable(G.Previous(tokens, current)));
      }
      m := Match({LEFT_PAREN});
      if m {
        var inner := Expression();
        if inner.Thrown? {
          return G.Thrown;
        }
        var close := Consume(RIGHT_PAREN, "Expect ')' after expression.");
        if close.Thrown? {
          return G.Thrown;
        }
        return G.Done(Grouping(inner.value));
      }
      Error(G.Peek(tokens, current), "Expect expression");
      return G.Thrown;
    }

    // -------------------------------------------------------------------
    // Statements

    /** `declaration()`: a caught `ParseError` synchronizes and yields `null`. */
    method Declaration() returns (r: Option<Stmt>)
      requires Valid() && !G.IsAtEnd(tokens, current)
      modifies this
      ensures Valid() && (r, At()) == G.Declaration(tokens, old(At()))
      decreases |tokens| - current, 8
    {
      var isVar := Match({VAR});
      var s;
      if isVar {
        s := VarDeclaration();
      } else {
        s := Statement();
      }
      if s.Done? {
        return Some(s.value);
      }
      Synchronize();
      return None;
    }

    /** `varDeclaration()`. */
    method VarDeclaration() returns (r: G.Attempt<Stmt>)
      requires Valid()
      modifies this
      ensures Valid() && (r, At()) == G.VarDeclaration(tokens, old(At()))
      decreases |tokens| - current, 7
    {
      var name := Consume(IDENTIFIER, "Expect variable name");
      if name.Thrown? {
        return G.Thrown;
      }
      r := VarInitializer(name.value);
    }

    /** The optional initializer and the closing `;` of `varDeclaration()`. */
    method VarInitializer(name: Token) returns (r: G.Attempt<Stmt>)
      requires Valid()
      modifies this
      ensures Valid() && (r, At()) == G.VarInitializer(tokens, old(At()), name)
      decreases |tokens| - current, 7
    {
      var initializer := None;
      var hasInit := Match({EQUAL});
      if hasInit {
        var init := Expression();
        if init.Thrown? {
          return G.Thrown;
        }
        initializer := Some(init.value);
      }
      var semi := Consume(SEMICOLON, "Expect ';' after variable declaration.");
      if semi.Thrown? {
        return G.Thrown;
      }
      return G.Done(Var(name, initializer));
    }

    /** `statement()`. */
    method Statement() returns (r: G.Attempt<Stmt>)
      requires Valid()
      modifies this
      ensures Valid() && (r, At()) == G.Statement(tokens, old(At()))
      decreases |tokens| - current, 6
    {
      var m := Match({IF});
      if m {
        r := IfStatement();
        return;
      }
      m := Match({PRINT});
      if m {
        r := PrintStatement();
        return;
      }
      m := Match({LEFT_BRACE});
      if m {
        r := BlockStatement();
        return;
      }
      r := ExpressionStatement();
    }

    /** `ifStatement()`. */
    method IfStatement() returns (r: G.Attempt<Stmt>)
      requires Valid()
      modifies this
      ensures Valid() && (r, At()) == G.IfStatement(tokens, old(At()))
      decreases |tokens| - current, 5
    {
      var open := Consume(LEFT_PAREN, "Expect ( after if");
      if open.Thrown? {
        return G.Thrown;
      }
      var condition := Expression();
      if condition.Thrown? {
        return G.Thrown;
      }
      var close := Consume(RIGHT_PAREN, "Expect ) after condition");
      if close.Thrown? {
        return G.Thrown;
      }
      r := IfBranches(condition.value);
    }

    /** The then branch and the optional `else` branch of `ifStatement()`. */
    method IfBranches(condition: Expr) returns (r: G.Attempt<Stmt>)
      requires Valid()
      modifies this
      ensures Valid() && (r, At()) == G.IfBranches(tokens, old(At()), condition)
      decreases |tokens| - current, 7
    {
      var thenBranch := Statement();
      if thenBranch.Thrown? {
        return G.Thrown;
      }
      r := ElseBranch(condition, thenBranch.value);
    }

    /** The optional `else` branch of `ifStatement()`. */
    method ElseBranch(condition: Expr, thenBranch: Stmt) returns (r: G.Attempt<Stmt>)
      requires Valid() && !HasWhile(thenBranch)
      modifies this
      ensures Valid() && (r, At()) == G.ElseBranch(tokens, old(At()), condition, thenBranch)
      decreases |tokens| - current, 7
    {
      var elseBranch := None;
      var hasElse := Match({ELSE});
      if hasElse {
        var e := Statement();
        if e.Thrown? {
          return G.Thrown;
        }
        elseBranch := Some(e.value);
      }
      return G.Done(If(condition, thenBranch, elseBranch));
    }

    /** `printStatement()`. */
    method PrintStatement() returns (r: G.Attempt<Stmt>)
      requires Valid()
      modifies this
      ensures Valid() && (r, At()) == G.PrintStatement(tokens, old(At()))
    {
      var value := Expression();
      if value.Thrown? {
        return G.Thrown;
      }
      var semi := Consume(SEMICOLON, "Expect ; after value");
      if semi.Thrown? {
        return G.Thrown;
      }
      return G.Done(Print(value.value));
    }

    /** `expressionStatement()`. */
    method ExpressionStatement() returns (r: G.Attempt<Stmt>)
      requires Valid()
      modifies this
      ensures Valid() && (r, At()) == G.ExpressionStatement(tokens, old(At()))
    {
      var value := Expression();
      if value.Thrown? {
        return G.Thrown;
      }
      var semi := Consume(SEMICOLON, "Expect ; after value");
      if semi.Thrown? {
        return G.Thrown;
      }
      return G.Done(Stmt.Expression(value.value));
    }

    /** `blockStatement()`. */
    method BlockStatement() returns (r: G.Attempt<Stmt>)
      requires Valid()
      modifies this
      ensures Valid() && (r, At()) == G.BlockStatement(tokens, old(At()))
      decreases |tokens| - current, 10
    {
      ghost var c0 := At();
      var statements: seq<Option<Stmt>> := [];
      while !G.Check(tokens, current, RIGHT_BRACE) && !G.IsAtEnd(tokens, current)
        invariant Valid() && NoneHasWhile(statements)
        invariant G.BlockLoop(tokens, At(), statements) == G.BlockStatement(tokens, c0)
        decreases |tokens| - current
      {
        var d := Declaration();
        statements := statements + [d];
      }
      var close := Consume(RIGHT_BRACE, "Expect '}' after block.");
      if close.Thrown? {
        return G.Thrown;
      }
      return G.Done(Block(statements));
    }

    // -------------------------------------------------------------------
    // Cursor helpers

    /** `match(types...)`: tries each kind in turn. */
    method Match(kinds: set<TokenType>) returns (matched: bool)
      requires Valid()
      modifies this
      ensures Valid() && (matched, At()) == G.Match(tokens, old(At()), kinds)
    {
      var rest := kinds;
      while rest != {}
        invariant rest <= kinds
        invariant current == old(current) && errors == old(errors)
        invariant forall t :: t in kinds - rest ==> !G.Check(tokens, current, t)
        decreases rest
      {
        var t :| t in rest;
        if G.Check(tokens, current, t) {
          var _ := Advance();
          return true;
        }
        rest := rest - {t};
      }
      assert kinds - rest == kinds;
      return false;
    }

    /** `advance()`. */
    method Advance() returns (t: Token)
      requires Valid() && (current > 0 || !G.IsAtEnd(tokens, current))
      modifies this
      ensures Valid() && (t, At()) == G.Advance(tokens, old(At()))
    {
      if !G.IsAtEnd(tokens, current) {
        current := current + 1;
      }
      return G.Previous(tokens, current);
    }

    /** `consume(type, message)`. */
    method Consume(kind: TokenType, message: string) returns (r: G.Attempt<Token>)
      requires Valid()
      modifies this
      ensures Valid() && (r, At()) == G.Consume(tokens, old(At()), kind, message)
    {
      if G.Check(tokens, current, kind) {
        var t := Advance();
        return G.Done(t);
      }
      Error(G.Peek(tokens, current), message);
      return G.Thrown;
    }

    /** `error(token, message)`: the report to `Lox.error`; the caller decides whether to throw. */
    method Error(token: Token, message: string)
      requires Valid()
      modifies this
      ensures Valid() && At() == G.Report(old(At()), token, message)
    {
      errors := errors + [G.SyntaxError(token, message)];
    }

    /** `synchronize()`. */
    method Synchronize()
      requires Valid() && (current > 0 || !G.IsAtEnd(tokens, current))
      modifies this
      ensures Valid() && At() == G.Synchronize(tokens, old(At()))
    {
      ghost var c0 := At();
      var _ := Advance();
      while !G.IsAtEnd(tokens, current)
        invariant Valid() && current > 0
        invariant G.SyncLoop(tokens, At()) == G.Synchronize(tokens, c0)
        decreases |tokens| - current
      {
        if G.Previous(tokens, current).kind == SEMICOLON {
          return;
        }
        if G.Peek(tokens, current).kind in G.StatementStarts {
          return;
        }
        var _ := Advance();
      }
    }
  }
}
