/**
 * Facts about the parser functions of `Grammar` beyond their contracts:
 * how the binary levels fold (associativity and precedence), how assignment
 * nests to the right and reports a bad target, which tokens no expression
 * starts with, and how parsing recovers after a syntax error.
 */
module GrammarFacts {
  import opened Wrappers
  import opened Tokens
  import opened Ast
  import opened Grammar

  lemma NoMatch(ts: seq<Token>, c: Cursor, kinds: set<TokenType>)
    requires ValidAt(ts, c) && ts[c.pos].kind !in kinds
    ensures Match(ts, c, kinds) == (false, c)
  {
  }

  lemma YesMatch(ts: seq<Token>, c: Cursor, kinds: set<TokenType>)
    requires ValidAt(ts, c) && ts[c.pos].kind in kinds && ts[c.pos].kind != EOF
    ensures Match(ts, c, kinds) == (true, Cursor(c.pos + 1, c.errors))
  {
  }

  /** An identifier is a whole operand of level `k` when the next token is no operator of level `k` or tighter. */
  lemma {:induction false} LevelOfName(ts: seq<Token>, c: Cursor, k: nat)
    requires ValidAt(ts, c) && k < 6 && ts[c.pos].kind == IDENTIFIER
    requires c.pos + 1 < |ts| && OpRank(ts[c.pos + 1].kind) <= k
    ensures Level(ts, c, k) == (Done(Variable(ts[c.pos])), Cursor(c.pos + 1, c.errors))
    decreases 5 - k
  {
    var c1 := Cursor(c.pos + 1, c.errors);
    if k == 5 {
      assert UnaryExpr(ts, c) == (Done(Variable(ts[c.pos])), c1);
    } else {
      LevelOfName(ts, c, k + 1);
    }
    assert Operand(ts, c, k) == (Done(Variable(ts[c.pos])), c1);
    assert ts[c1.pos].kind !in Operators(k);
  }

  /** A finished operand of level `j` is also the whole result of every looser level `k`. */
  lemma {:induction false} LevelLift(ts: seq<Token>, c: Cursor, k: nat, j: nat, e: Expr, c1: Cursor)
    requires ValidAt(ts, c) && k <= j < 6
    requires Level(ts, c, j) == (Done(e), c1)
    requires c1.pos < |ts| && OpRank(ts[c1.pos].kind) == 0
    ensures Level(ts, c, k) == (Done(e), c1)
    decreases j - k
  {
    if k < j {
      LevelLift(ts, c, k + 1, j, e, c1);
      assert Operand(ts, c, k) == (Done(e), c1);
      assert ts[c1.pos].kind !in Operators(k);
    }
  }

  /** An identifier followed by no operator tighter than level `k` is a whole operand of level `k`. */
  lemma OperandOfName(ts: seq<Token>, c: Cursor, k: nat)
    requires ValidAt(ts, c) && k < 6 && ts[c.pos].kind == IDENTIFIER
    requires c.pos + 1 < |ts| && OpRank(ts[c.pos + 1].kind) <= k + 1
    ensures Operand(ts, c, k) == (Done(Variable(ts[c.pos])), Cursor(c.pos + 1, c.errors))
  {
    if k == 5 {
      assert UnaryExpr(ts, c) == (Done(Variable(ts[c.pos])), Cursor(c.pos + 1, c.errors));
    } else {
      LevelOfName(ts, c, k + 1);
    }
  }

  /** A turn of a level's loop whose operand is a name. */
  lemma NameTurn(ts: seq<Token>, c: Cursor, k: nat, left: Expr)
    requires ValidAt(ts, c) && k < 6 && Shaped(left) && Rank(left) >= k + 1 && c.pos + 2 < |ts|
    requires ts[c.pos].kind in Operators(k) && ts[c.pos + 1].kind == IDENTIFIER && OpRank(ts[c.pos + 2].kind) <= k + 1
    ensures LevelLoop(ts, c, k, left)
         == LevelLoop(ts, Cursor(c.pos + 2, c.errors), k, Node(k, left, ts[c.pos], Variable(ts[c.pos + 1])))
  {
    NodeShaped(k, left, ts[c.pos], Variable(ts[c.pos + 1]));
    OperandOfName(ts, Cursor(c.pos + 1, c.errors), k);
    LoopTurn(ts, c, k, left, Variable(ts[c.pos + 1]), Cursor(c.pos + 2, c.errors));
  }

  /** The last turn of a level's loop: an operator of the level, a name, and then nothing of level `k` or tighter. */
  lemma LastTurn(ts: seq<Token>, c: Cursor, k: nat, left: Expr)
    requires ValidAt(ts, c) && k < 6 && Shaped(left) && Rank(left) >= k + 1 && c.pos + 2 < |ts|
    requires ts[c.pos].kind in Operators(k) && ts[c.pos + 1].kind == IDENTIFIER && OpRank(ts[c.pos + 2].kind) <= k
    ensures LevelLoop(ts, c, k, left)
         == (Done(Node(k, left, ts[c.pos], Variable(ts[c.pos + 1]))), Cursor(c.pos + 2, c.errors))
  {
    var c2 := Cursor(c.pos + 2, c.errors);
    NodeShaped(k, left, ts[c.pos], Variable(ts[c.pos + 1]));
    NameTurn(ts, c, k, left);
    assert ts[c2.pos].kind !in Operators(k);
    NoMatch(ts, c2, Operators(k));
  }

  /** `a op b` with an operator of level `k`, followed by nothing of level `k` or tighter, is one node of level `k`. */
  lemma NameOpName(ts: seq<Token>, c: Cursor, k: nat)
    requires ValidAt(ts, c) && k < 6 && c.pos + 3 < |ts|
    requires ts[c.pos].kind == IDENTIFIER && ts[c.pos + 1].kind in Operators(k) && ts[c.pos + 2].kind == IDENTIFIER
    requires OpRank(ts[c.pos + 3].kind) <= k
    ensures Level(ts, c, k)
         == (Done(Node(k, Variable(ts[c.pos]), ts[c.pos + 1], Variable(ts[c.pos + 2]))), Cursor(c.pos + 3, c.errors))
  {
    assert OpRank(ts[c.pos + 1].kind) == k + 1;
    OperandOfName(ts, c, k);
    LastTurn(ts, Cursor(c.pos + 1, c.errors), k, Variable(ts[c.pos]));
  }

  /** An operator of level `k` under the cursor is matched by that level. */
  lemma OperatorMatches(ts: seq<Token>, c: Cursor, k: nat)
    requires ValidAt(ts, c) && k < 6 && ts[c.pos].kind in Operators(k)
    ensures Match(ts, c, Operators(k)) == (true, Cursor(c.pos + 1, c.errors))
  {
    assert OpRank(ts[c.pos].kind) == k + 1;
    YesMatch(ts, c, Operators(k));
  }

  /** One turn of a level's loop: an operator of the level, then an operand. */
  lemma LoopTurn(ts: seq<Token>, c: Cursor, k: nat, left: Expr, right: Expr, c2: Cursor)
    requires ValidAt(ts, c) && k < 6 && Shaped(left) && Rank(left) >= k + 1
    requires ts[c.pos].kind in Operators(k)
    requires c.pos + 1 < |ts| && Operand(ts, Cursor(c.pos + 1, c.errors), k) == (Done(right), c2)
    ensures LevelLoop(ts, c, k, left) == LevelLoop(ts, c2, k, Node(k, left, ts[c.pos], right))
  {
    OperatorMatches(ts, c, k);
    NodeShaped(k, left, ts[c.pos], right);
  }

  /** `x - y - z` (or with `+`) folds to the left: `(x - y) - z`. */
  lemma TermIsLeftAssociativeExample(ts: seq<Token>, errs: seq<SyntaxError>)
    requires |ts| == 6 && ts[5].kind == EOF
    requires ts[0].kind == IDENTIFIER && ts[2].kind == IDENTIFIER && ts[4].kind == IDENTIFIER
    requires (ts[1].kind == MINUS || ts[1].kind == PLUS) && (ts[3].kind == MINUS || ts[3].kind == PLUS)
    ensures Grammar.Expression(ts, Cursor(0, errs)) ==
      (Done(Binary(Binary(Variable(ts[0]), ts[1], Variable(ts[2])), ts[3], Variable(ts[4]))), Cursor(5, errs))
  {
    var x, y := Variable(ts[0]), Variable(ts[2]);
    var xy := Binary(x, ts[1], y);
    NameTurn(ts, Cursor(1, errs), 4, x);
    LastTurn(ts, Cursor(3, errs), 4, xy);
    assert Level(ts, Cursor(0, errs), 4) == (Done(Binary(xy, ts[3], Variable(ts[4]))), Cursor(5, errs)) by {
      OperandOfName(ts, Cursor(0, errs), 4);
    }
    LevelLift(ts, Cursor(0, errs), 0, 4, Binary(xy, ts[3], Variable(ts[4])), Cursor(5, errs));
  }

  /** `x + y * z`: the `*` node is the right child of the `+` node. */
  lemma FactorBindsTighterThanTermExample(ts: seq<Token>, errs: seq<SyntaxError>)
    requires |ts| == 6 && ts[5].kind == EOF
    requires ts[0].kind == IDENTIFIER && ts[2].kind == IDENTIFIER && ts[4].kind == IDENTIFIER
    requires ts[1].kind == PLUS && ts[3].kind == STAR
    ensures Grammar.Expression(ts, Cursor(0, errs)) ==
      (Done(Binary(Variable(ts[0]), ts[1], Binary(Variable(ts[2]), ts[3], Variable(ts[4])))), Cursor(5, errs))
  {
    var x, yz := Variable(ts[0]), Binary(Variable(ts[2]), ts[3], Variable(ts[4]));
    assert Operand(ts, Cursor(2, errs), 4) == (Done(yz), Cursor(5, errs)) by {
      NameOpName(ts, Cursor(2, errs), 5);
    }
    var sum := Binary(x, ts[1], yz);
    assert LevelLoop(ts, Cursor(1, errs), 4, x) == (Done(sum), Cursor(5, errs)) by {
      LoopTurn(ts, Cursor(1, errs), 4, x, yz, Cursor(5, errs));
      NoMatch(ts, Cursor(5, errs), Operators(4));
    }
    assert Level(ts, Cursor(0, errs), 4) == (Done(sum), Cursor(5, errs)) by {
      OperandOfName(ts, Cursor(0, errs), 4);
    }
    LevelLift(ts, Cursor(0, errs), 0, 4, sum, Cursor(5, errs));
  }

  /** `x or y and z`: `and` binds tighter, and both build `Logical` nodes. */
  lemma AndBindsTighterThanOrExample(ts: seq<Token>, errs: seq<SyntaxError>)
    requires |ts| == 6 && ts[5].kind == EOF
    requires ts[0].kind == IDENTIFIER && ts[2].kind == IDENTIFIER && ts[4].kind == IDENTIFIER
    requires ts[1].kind == OR && ts[3].kind == AND
    ensures Grammar.Expression(ts, Cursor(0, errs)) ==
      (Done(Logical(Variable(ts[0]), ts[1], Logical(Variable(ts[2]), ts[3], Variable(ts[4])))), Cursor(5, errs))
  {
    var x, yz := Variable(ts[0]), Logical(Variable(ts[2]), ts[3], Variable(ts[4]));
    assert Operand(ts, Cursor(2, errs), 0) == (Done(yz), Cursor(5, errs)) by {
      NameOpName(ts, Cursor(2, errs), 1);
    }
    assert Level(ts, Cursor(0, errs), 0) == (Done(Logical(x, ts[1], yz)), Cursor(5, errs)) by {
      OperandOfName(ts, Cursor(0, errs), 0);
      LoopTurn(ts, Cursor(1, errs), 0, x, yz, Cursor(5, errs));
      NoMatch(ts, Cursor(5, errs), Operators(0));
    }
  }

  /** `x = y = z` nests to the right: `x = (y = z)`. */
  lemma AssignmentIsRightAssociative(ts: seq<Token>, errs: seq<SyntaxError>)
    requires |ts| == 6 && ts[5].kind == EOF
    requires ts[0].kind == IDENTIFIER && ts[2].kind == IDENTIFIER && ts[4].kind == IDENTIFIER
    requires ts[1].kind == EQUAL && ts[3].kind == EQUAL
    ensures Grammar.Expression(ts, Cursor(0, errs)) ==
      (Done(Expr.Assign(ts[0], Expr.Assign(ts[2], Variable(ts[4])))), Cursor(5, errs))
  {
    assert Assignment(ts, Cursor(4, errs)) == (Done(Variable(ts[4])), Cursor(5, errs)) by {
      LevelOfName(ts, Cursor(4, errs), 0);
    }
    ValidTargetAssigns(ts, Cursor(2, errs), Variable(ts[4]), Cursor(5, errs));
    ValidTargetAssigns(ts, Cursor(0, errs), Expr.Assign(ts[2], Variable(ts[4])), Cursor(5, errs));
  }

  /**
   * For every input: when the left-hand side parsed by `or()` is not a
   * variable and is followed by `=`, the rest of `assignment()` parses the
   * value, reports "Invalid assignment target." once, at the `=`, throws
   * nothing, and returns the left-hand side.
   */
  lemma InvalidTargetIsReported(ts: seq<Token>, c: Cursor, left: Expr, value: Expr, c2: Cursor)
    requires ValidAt(ts, c) && Shaped(left) && Rank(left) >= 1 && !left.Variable? && ts[c.pos].kind == EQUAL
    requires Assignment(ts, Cursor(c.pos + 1, c.errors)) == (Done(value), c2)
    ensures AssignTarget(ts, c, left) == (Done(left), Cursor(c2.pos, c2.errors + [SyntaxError(ts[c.pos], "Invalid assignment target.")]))
  {
    YesMatch(ts, c, {EQUAL});
  }

  /**
   * For every input: a variable followed by `=` becomes an assignment to that
   * variable whose value is the whole `assignment()` that follows, so chained
   * assignments nest to the right.
   */
  lemma ValidTargetAssigns(ts: seq<Token>, c: Cursor, value: Expr, c3: Cursor)
    requires ValidAt(ts, c) && ts[c.pos].kind == IDENTIFIER
    requires c.pos + 2 < |ts| && ts[c.pos + 1].kind == EQUAL
    requires Assignment(ts, Cursor(c.pos + 2, c.errors)) == (Done(value), c3)
    ensures Assignment(ts, c) == (Done(Expr.Assign(ts[c.pos], value)), c3)
  {
    LevelOfName(ts, c, 0);
    YesMatch(ts, Cursor(c.pos + 1, c.errors), {EQUAL});
  }

  /**
   * `x + y = z`: the target is not a variable, so "Invalid assignment target."
   * is reported at the `=`, nothing is thrown, the value is parsed and dropped,
   * and the left-hand side is the result.
   */
  lemma InvalidAssignmentTarget(ts: seq<Token>, errs: seq<SyntaxError>)
    requires |ts| == 6 && ts[5].kind == EOF
    requires ts[0].kind == IDENTIFIER && ts[2].kind == IDENTIFIER && ts[4].kind == IDENTIFIER
    requires ts[1].kind == PLUS && ts[3].kind == EQUAL
    ensures Grammar.Expression(ts, Cursor(0, errs)) ==
      (Done(Binary(Variable(ts[0]), ts[1], Variable(ts[2]))),
       Cursor(5, errs + [SyntaxError(ts[3], "Invalid assignment target.")]))
  {
    var xy := Binary(Variable(ts[0]), ts[1], Variable(ts[2]));
    assert Level(ts, Cursor(0, errs), 0) == (Done(xy), Cursor(3, errs)) by {
      NameOpName(ts, Cursor(0, errs), 4);
      LevelLift(ts, Cursor(0, errs), 0, 4, xy, Cursor(3, errs));
    }
    assert Assignment(ts, Cursor(4, errs)) == (Done(Variable(ts[4])), Cursor(5, errs)) by {
      LevelOfName(ts, Cursor(4, errs), 0);
    }
    InvalidTargetIsReported(ts, Cursor(3, errs), xy, Variable(ts[4]), Cursor(5, errs));
  }

  /** The kinds of token an expression can start with. */
  const ExpressionStarts: set<TokenType> := {BANG, MINUS, FALSE, TRUE, NIL, NUMBER, STRING, IDENTIFIER, LEFT_PAREN}

  /**
   * `unary()` for every input: a `!` or `-` applies to the whole `unary()`
   * that follows it; any other token is left to `primary()`.
   */
  lemma UnaryDispatch(ts: seq<Token>, c: Cursor)
    requires ValidAt(ts, c)
    ensures ts[c.pos].kind in {BANG, MINUS} ==> c.pos + 1 < |ts|
    ensures ts[c.pos].kind in {BANG, MINUS} ==>
      var (right, c2) := UnaryExpr(ts, Cursor(c.pos + 1, c.errors));
      UnaryExpr(ts, c) == (if right.Thrown? then (Thrown, c2) else (Done(Expr.Unary(ts[c.pos], right.value)), c2))
    ensures ts[c.pos].kind !in {BANG, MINUS} ==> UnaryExpr(ts, c) == Primary(ts, c)
  {
    if ts[c.pos].kind in {BANG, MINUS} {
      YesMatch(ts, c, {BANG, MINUS});
    } else {
      NoMatch(ts, c, {BANG, MINUS});
    }
  }

  /**
   * `primary()` on a single-token operand: `false`, `true` and `nil` become
   * those values, a number or string token its own literal value, and a name
   * a variable; each consumes exactly that token.
   */
  lemma PrimaryOfToken(ts: seq<Token>, c: Cursor)
    requires ValidAt(ts, c)
    ensures ts[c.pos].kind == FALSE ==> Primary(ts, c) == (Done(Literal(Bool(false))), Cursor(c.pos + 1, c.errors))
    ensures ts[c.pos].kind == TRUE ==> Primary(ts, c) == (Done(Literal(Bool(true))), Cursor(c.pos + 1, c.errors))
    ensures ts[c.pos].kind == NIL ==> Primary(ts, c) == (Done(Literal(Nil)), Cursor(c.pos + 1, c.errors))
    ensures ts[c.pos].kind in {NUMBER, STRING} ==>
      Primary(ts, c) == (Done(Literal(ts[c.pos].literal)), Cursor(c.pos + 1, c.errors))
    ensures ts[c.pos].kind == IDENTIFIER ==> Primary(ts, c) == (Done(Variable(ts[c.pos])), Cursor(c.pos + 1, c.errors))
    ensures ts[c.pos].kind !in ExpressionStarts ==> Primary(ts, c) == (Thrown, Report(c, ts[c.pos], "Expect expression"))
  {
    var k := ts[c.pos].kind;
    if k == FALSE {
      YesMatch(ts, c, {FALSE});
    } else if k == TRUE {
      NoMatch(ts, c, {FALSE});
      YesMatch(ts, c, {TRUE});
    } else if k == NIL {
      NoMatch(ts, c, {FALSE});
      NoMatch(ts, c, {TRUE});
      YesMatch(ts, c, {NIL});
    } else if k in {NUMBER, STRING} {
      NoMatch(ts, c, {FALSE});
      NoMatch(ts, c, {TRUE});
      NoMatch(ts, c, {NIL});
      YesMatch(ts, c, {NUMBER, STRING});
    } else if k == IDENTIFIER {
      NoMatch(ts, c, {FALSE});
      NoMatch(ts, c, {TRUE});
      NoMatch(ts, c, {NIL});
      NoMatch(ts, c, {NUMBER, STRING});
      YesMatch(ts, c, {IDENTIFIER});
    }
  }

  /**
   * `primary()` on `(`: the group holds the whole `expression()` after the
   * parenthesis, and the `)` after it is consumed; when that `)` is missing,
   * "Expect ')' after expression." is reported at the token found instead.
   */
  lemma PrimaryGrouping(ts: seq<Token>, c: Cursor)
    requires ValidAt(ts, c) && ts[c.pos].kind == LEFT_PAREN
    ensures c.pos + 1 < |ts|
    ensures var (inner, c1) := Grammar.Expression(ts, Cursor(c.pos + 1, c.errors));
      (inner.Thrown? ==> Primary(ts, c) == (Thrown, c1))
      && (inner.Done? && Check(ts, c1.pos, RIGHT_PAREN) ==>
            Primary(ts, c) == (Done(Grouping(inner.value)), Cursor(c1.pos + 1, c1.errors)))
      && (inner.Done? && !Check(ts, c1.pos, RIGHT_PAREN) ==>
            Primary(ts, c) == (Thrown, Report(c1, ts[c1.pos], "Expect ')' after expression.")))
  {
    NoMatch(ts, c, {FALSE});
    NoMatch(ts, c, {TRUE});
    NoMatch(ts, c, {NIL});
    NoMatch(ts, c, {NUMBER, STRING});
    NoMatch(ts, c, {IDENTIFIER});
    YesMatch(ts, c, {LEFT_PAREN});
  }

  /** A token no expression starts with makes `unary()` throw "Expect expression" at that token. */
  lemma UnaryRejects(ts: seq<Token>, c: Cursor)
    requires ValidAt(ts, c) && ts[c.pos].kind !in ExpressionStarts
    ensures UnaryExpr(ts, c) == (Thrown, Report(c, ts[c.pos], "Expect expression"))
  {
  }

  /** The same error comes up unchanged through every binary level. */
  lemma {:induction false} LevelRejects(ts: seq<Token>, c: Cursor, k: nat)
    requires ValidAt(ts, c) && k < 6 && ts[c.pos].kind !in ExpressionStarts
    ensures Level(ts, c, k) == (Thrown, Report(c, ts[c.pos], "Expect expression"))
    decreases 5 - k
  {
    if k == 5 {
      UnaryRejects(ts, c);
    } else {
      LevelRejects(ts, c, k + 1);
    }
  }

  /** ... and through `assignment()`, so `expression()` throws it. */
  lemma ExpressionRejects(ts: seq<Token>, c: Cursor)
    requires ValidAt(ts, c) && ts[c.pos].kind !in ExpressionStarts
    ensures Grammar.Expression(ts, c) == (Thrown, Report(c, ts[c.pos], "Expect expression"))
  {
    LevelRejects(ts, c, 0);
  }

  /**
   * `; print x ;`: the stray `;` is reported once, the parser resynchronizes
   * just after it, the result keeps a `null` where the bad statement was, and
   * the `print` statement after it is parsed normally.
   */
  lemma RecoversAfterStraySemicolon(ts: seq<Token>)
    requires |ts| == 5 && ts[4].kind == EOF
    requires ts[0].kind == SEMICOLON && ts[1].kind == PRINT && ts[2].kind == IDENTIFIER && ts[3].kind == SEMICOLON
    ensures Parse(ts) == ([None, Some(Print(Variable(ts[2])))], Cursor(4, [SyntaxError(ts[0], "Expect expression")]))
  {
    var errs := [SyntaxError(ts[0], "Expect expression")];
    ExpressionRejects(ts, Cursor(0, []));
    assert Report(Cursor(0, []), ts[0], "Expect expression") == Cursor(0, errs);
    assert ExpressionStatement(ts, Cursor(0, [])) == (Thrown, Cursor(0, errs));
    assert Statement(ts, Cursor(0, [])) == (Thrown, Cursor(0, errs));
    assert Synchronize(ts, Cursor(0, errs)) == Cursor(1, errs);
    assert Declaration(ts, Cursor(0, [])) == (None, Cursor(1, errs));
    LevelOfName(ts, Cursor(2, errs), 0);
    assert Grammar.Expression(ts, Cursor(2, errs)) == (Done(Variable(ts[2])), Cursor(3, errs));
    assert Statement(ts, Cursor(1, errs)) == (Done(Print(Variable(ts[2]))), Cursor(4, errs));
    assert Declaration(ts, Cursor(1, errs)) == (Some(Print(Variable(ts[2]))), Cursor(4, errs));
    var none: seq<Option<Stmt>> := [None];
    assert [] + none == none;
    assert ParseLoop(ts, Cursor(0, []), []) == ParseLoop(ts, Cursor(1, errs), [None]);
    var out := [None, Some(Print(Variable(ts[2])))];
    assert [None] + [Some(Print(Variable(ts[2])))] == out;
    assert ParseLoop(ts, Cursor(4, errs), out) == (out, Cursor(4, errs));
    assert ParseLoop(ts, Cursor(1, errs), [None]) == ([None, Some(Print(Variable(ts[2])))], Cursor(4, errs));
  }

  // ---------------------------------------------------------------------
  // Statements, declarations and the program

  /** `statement()` picks its rule from the current token alone. */
  lemma StatementDispatch(ts: seq<Token>, c: Cursor)
    requires ValidAt(ts, c)
    ensures ts[c.pos].kind == IF ==> c.pos + 1 < |ts| && Statement(ts, c) == IfStatement(ts, Cursor(c.pos + 1, c.errors))
    ensures ts[c.pos].kind == PRINT ==> c.pos + 1 < |ts| && Statement(ts, c) == PrintStatement(ts, Cursor(c.pos + 1, c.errors))
    ensures ts[c.pos].kind == LEFT_BRACE ==> c.pos + 1 < |ts| && Statement(ts, c) == BlockStatement(ts, Cursor(c.pos + 1, c.errors))
    ensures ts[c.pos].kind !in {IF, PRINT, LEFT_BRACE} ==> Statement(ts, c) == ExpressionStatement(ts, c)
  {
    if ts[c.pos].kind == IF {
      YesMatch(ts, c, {IF});
    } else if ts[c.pos].kind == PRINT {
      NoMatch(ts, c, {IF});
      YesMatch(ts, c, {PRINT});
    } else if ts[c.pos].kind == LEFT_BRACE {
      NoMatch(ts, c, {IF});
      NoMatch(ts, c, {PRINT});
      YesMatch(ts, c, {LEFT_BRACE});
    } else {
      NoMatch(ts, c, {IF});
      NoMatch(ts, c, {PRINT});
      NoMatch(ts, c, {LEFT_BRACE});
    }
  }

  /**
   * `declaration()` on `var`: what `varDeclaration()` built after the keyword,
   * with the cursor it left, or, when it threw, `null` with the cursor where
   * `synchronize()` stops.
   */
  lemma DeclarationOfVar(ts: seq<Token>, c: Cursor)
    requires ValidAt(ts, c) && ts[c.pos].kind == VAR
    ensures c.pos + 1 < |ts|
    ensures var (s, c2) := VarDeclaration(ts, Cursor(c.pos + 1, c.errors));
      (s.Done? ==> Declaration(ts, c) == (Some(s.value), c2))
      && (s.Thrown? ==> 0 < c2.pos && Declaration(ts, c) == (None, Synchronize(ts, c2)))
  {
    YesMatch(ts, c, {VAR});
  }

  /**
   * `declaration()` on anything but `var`: what `statement()` built, with the
   * cursor it left, or, when it threw, `null` with the cursor where
   * `synchronize()` stops.
   */
  lemma DeclarationOfStatement(ts: seq<Token>, c: Cursor)
    requires ValidAt(ts, c) && !IsAtEnd(ts, c.pos) && ts[c.pos].kind != VAR
    ensures var (s, c2) := Statement(ts, c);
      (s.Done? ==> Declaration(ts, c) == (Some(s.value), c2))
      && (s.Thrown? ==> (0 < c2.pos || !IsAtEnd(ts, c2.pos)) && Declaration(ts, c) == (None, Synchronize(ts, c2)))
  {
    NoMatch(ts, c, {VAR});
  }

  lemma Concat<T>(a: seq<T>, b: seq<T>, c: seq<T>)
    ensures a + b + c == a + (b + c) && [] + b == b && a + [] == a
  {
  }

  /** One turn of the parse loop: the declaration at the cursor is appended and the loop goes on from where it stopped. */
  lemma ParseLoopTurn(ts: seq<Token>, c: Cursor, acc: seq<Option<Stmt>>)
    requires ValidAt(ts, c) && NoneHasWhile(acc) && !IsAtEnd(ts, c.pos)
    ensures NoneHasWhile(acc + [Declaration(ts, c).0])
    ensures ParseLoop(ts, c, acc) == ParseLoop(ts, Declaration(ts, c).1, acc + [Declaration(ts, c).0])
  {
  }

  /** The parse loop appends to whatever it was given: its own entries do not depend on `acc`. */
  lemma {:induction false} ParseLoopAppends(ts: seq<Token>, c: Cursor, acc: seq<Option<Stmt>>)
    requires ValidAt(ts, c) && NoneHasWhile(acc)
    ensures ParseLoop(ts, c, acc) == (acc + ParseLoop(ts, c, []).0, ParseLoop(ts, c, []).1)
    decreases |ts| - c.pos
  {
    if IsAtEnd(ts, c.pos) {
      Concat(acc, [], []);
    } else {
      var d := Declaration(ts, c);
      ParseLoopTurn(ts, c, acc);
      ParseLoopTurn(ts, c, []);
      ParseLoopAppends(ts, d.1, acc + [d.0]);
      ParseLoopAppends(ts, d.1, [d.0]);
      Concat(acc, [d.0], ParseLoop(ts, d.1, []).0);
    }
  }

  /**
   * `parse()` before EOF: the first entry is what `declaration()` yields
   * there (a statement, or `null` after a syntax error), followed by the
   * parse of the rest from where that declaration stopped.
   */
  lemma ParseUnrolls(ts: seq<Token>, c: Cursor)
    requires ValidAt(ts, c) && !IsAtEnd(ts, c.pos)
    ensures var (d, c1) := Declaration(ts, c);
      ParseLoop(ts, c, []) == ([d] + ParseLoop(ts, c1, []).0, ParseLoop(ts, c1, []).1)
  {
    var d := Declaration(ts, c);
    ParseLoopTurn(ts, c, []);
    Concat([], [d.0], []);
    ParseLoopAppends(ts, d.1, [d.0]);
  }

  /** One turn of the block loop before `}` and EOF: the declaration at the cursor is appended and the loop goes on from where it stopped. */
  lemma BlockLoopTurn(ts: seq<Token>, c: Cursor, acc: seq<Option<Stmt>>)
    requires ValidAt(ts, c) && NoneHasWhile(acc) && !Check(ts, c.pos, RIGHT_BRACE) && !IsAtEnd(ts, c.pos)
    ensures NoneHasWhile(acc + [Declaration(ts, c).0])
    ensures BlockLoop(ts, c, acc) == BlockLoop(ts, Declaration(ts, c).1, acc + [Declaration(ts, c).0])
  {
  }

  /** The block loop appends to whatever it was given: its own entries, and whether it throws, do not depend on `acc`. */
  lemma {:induction false} BlockLoopAppends(ts: seq<Token>, c: Cursor, acc: seq<Option<Stmt>>)
    requires ValidAt(ts, c) && NoneHasWhile(acc)
    ensures var r := BlockLoop(ts, c, []);
      BlockLoop(ts, c, acc).1 == r.1
      && (r.0.Thrown? ==> BlockLoop(ts, c, acc).0.Thrown?)
      && (r.0.Done? ==> BlockLoop(ts, c, acc).0 == Done(Block(acc + r.0.value.statements)))
    decreases |ts| - c.pos
  {
    if Check(ts, c.pos, RIGHT_BRACE) || IsAtEnd(ts, c.pos) {
      Concat(acc, [], []);
    } else {
      var d := Declaration(ts, c);
      BlockLoopTurn(ts, c, acc);
      BlockLoopTurn(ts, c, []);
      Concat([], [d.0], []);
      BlockLoopAppends(ts, d.1, acc + [d.0]);
      BlockLoopAppends(ts, d.1, [d.0]);
      var r1 := BlockLoop(ts, d.1, []);
      if r1.0.Done? {
        Concat(acc, [d.0], r1.0.value.statements);
      }
    }
  }

  /**
   * `blockStatement()` before `}` and EOF: the block's first entry is what
   * `declaration()` yields there, followed by the entries of the block
   * parsed from where that declaration stopped; a throw there is a throw here.
   */
  lemma BlockUnrolls(ts: seq<Token>, c: Cursor)
    requires ValidAt(ts, c) && !Check(ts, c.pos, RIGHT_BRACE) && !IsAtEnd(ts, c.pos)
    ensures var (d, c1) := Declaration(ts, c);
      var r := BlockStatement(ts, c1);
      BlockStatement(ts, c).1 == r.1
      && (r.0.Thrown? ==> BlockStatement(ts, c).0.Thrown?)
      && (r.0.Done? ==> BlockStatement(ts, c).0 == Done(Block([d] + r.0.value.statements)))
  {
    var d := Declaration(ts, c);
    BlockLoopTurn(ts, c, []);
    Concat([], [d.0], []);
    BlockLoopAppends(ts, d.1, [d.0]);
  }
}
