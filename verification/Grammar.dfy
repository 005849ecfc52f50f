/**
 * The recursive-descent parser of Parser.java as pure functions. Each
 * function takes the token list and a `Cursor` (the `current` index plus the
 * syntax errors reported so far) and returns what the Java method returns
 * together with the new cursor. `Thrown` is a `ParseError` on its way up.
 * The class `Parser.Parser` runs the same steps imperatively and is proved
 * to agree with these functions.
 */
module Grammar {
  import opened Wrappers
  import opened Tokens
  import opened Ast

  /** One report to the diagnostic sink (`Lox.error(token, message)`). */
  datatype SyntaxError = SyntaxError(token: Token, message: string)

  datatype Cursor = Cursor(pos: nat, errors: seq<SyntaxError>)

  datatype Attempt<+T> = Done(value: T) | Thrown

  predicate ValidAt(ts: seq<Token>, c: Cursor) {
    WellFormed(ts) && c.pos < |ts|
  }

  /**
   * What every parsing step guarantees: the cursor stays a valid index and
   * never moves back, reports are only ever appended, a successful step has
   * consumed at least one token, and a thrown `ParseError` has been reported.
   */
  predicate Step<T>(ts: seq<Token>, c: Cursor, c': Cursor, r: Attempt<T>) {
    ValidAt(ts, c') && c.pos <= c'.pos && c.errors <= c'.errors
    && (r.Done? ==> c.pos < c'.pos)
    && (r.Thrown? ==> |c.errors| < |c'.errors|)
  }

  // ---------------------------------------------------------------------
  // Cursor helpers: isAtEnd, peek, check, previous, advance, match, consume

  /** `isAtEnd()`: the current token is EOF; in a well-formed list the last token always is. */
  function IsAtEnd(ts: seq<Token>, pos: nat): (r: bool)
    requires pos < |ts|
    ensures r <==> ts[pos].kind == EOF
    ensures WellFormed(ts) && pos == |ts| - 1 ==> r
  {
    ts[pos].kind == EOF
  }

  /** `peek()`: the current token, which is EOF exactly at the end. */
  function Peek(ts: seq<Token>, pos: nat): (r: Token)
    requires pos < |ts|
    ensures r == ts[pos]
    ensures r.kind == EOF <==> IsAtEnd(ts, pos)
  {
    ts[pos]
  }

  /** `check(type)`: the current token has kind `kind`; never true at the end, so never for EOF itself. */
  function Check(ts: seq<Token>, pos: nat, kind: TokenType): (r: bool)
    requires pos < |ts|
    ensures kind == EOF ==> !r
    ensures kind != EOF ==> (r <==> ts[pos].kind == kind)
  {
    if IsAtEnd(ts, pos) then false else Peek(ts, pos).kind == kind
  }

  /** `previous()`: the token just consumed. */
  function Previous(ts: seq<Token>, pos: nat): (r: Token)
    requires 0 < pos <= |ts|
    ensures r == ts[pos - 1]
  {
    ts[pos - 1]
  }

  /** Before EOF the cursor is never on the last token, so it can move on. */
  lemma NotAtEndHasNext(ts: seq<Token>, pos: nat)
    requires WellFormed(ts) && pos < |ts| && !IsAtEnd(ts, pos)
    ensures pos + 1 < |ts|
  {
  }

  /**
   * `advance()`: step over the current token unless it is EOF, and return the
   * token just passed. At position 0 on EOF Java would index -1, so callers
   * never do that.
   */
  function Advance(ts: seq<Token>, c: Cursor): (r: (Token, Cursor))
    requires ValidAt(ts, c) && (c.pos > 0 || !IsAtEnd(ts, c.pos))
    ensures ValidAt(ts, r.1) && r.1.errors == c.errors
    ensures r.1.pos == (if IsAtEnd(ts, c.pos) then c.pos else c.pos + 1)
    ensures r.1.pos > 0 && r.0 == ts[r.1.pos - 1]
  {
    var p := if !IsAtEnd(ts, c.pos) then c.pos + 1 else c.pos;
    (Previous(ts, p), Cursor(p, c.errors))
  }

  /** `match(types...)`: consume the current token when its kind is one of `kinds`. */
  function Match(ts: seq<Token>, c: Cursor, kinds: set<TokenType>): (r: (bool, Cursor))
    requires ValidAt(ts, c)
    ensures ValidAt(ts, r.1) && r.1.errors == c.errors
    ensures r.0 <==> !IsAtEnd(ts, c.pos) && ts[c.pos].kind in kinds
    ensures r.1.pos == if r.0 then c.pos + 1 else c.pos
  {
    if !IsAtEnd(ts, c.pos) && Peek(ts, c.pos).kind in kinds then
      (true, Advance(ts, c).1)
    else
      (false, c)
  }

  /** `error(token, message)`: report to the sink; the caller throws. */
  function Report(c: Cursor, token: Token, message: string): (r: Cursor)
    ensures r.pos == c.pos && r.errors == c.errors + [SyntaxError(token, message)]
  {
    Cursor(c.pos, c.errors + [SyntaxError(token, message)])
  }

  /** `consume(type, message)`. */
  function Consume(ts: seq<Token>, c: Cursor, kind: TokenType, message: string): (r: (Attempt<Token>, Cursor))
    requires ValidAt(ts, c)
    ensures Step(ts, c, r.1, r.0)
    ensures r.0.Done? <==> Check(ts, c.pos, kind)
    ensures r.0.Done? ==> r.0.value == ts[c.pos] && r.0.value.kind == kind
                          && r.1 == Cursor(c.pos + 1, c.errors)
    ensures r.0.Thrown? ==> r.1 == Report(c, ts[c.pos], message)
  {
    if Check(ts, c.pos, kind) then
      var (t, c') := Advance(ts, c);
      (Done(t), c')
    else
      (Thrown, Report(c, Peek(ts, c.pos), message))
  }

  // ---------------------------------------------------------------------
  // Shape of the expression trees: precedence and associativity

  /** Binding strength of an operator; the six binary levels are 1 (`or`) to 6 (`*`, `/`). */
  function OpRank(kind: TokenType): nat {
    match kind
    case OR => 1
    case AND => 2
    case BANG_EQUAL => 3
    case EQUAL_EQUAL => 3
    case LESS => 4
    case LESS_EQUAL => 4
    case GREATER => 4
    case GREATER_EQUAL => 4
    case MINUS => 5
    case PLUS => 5
    case STAR => 6
    case SLASH => 6
    case _ => 0
  }

  /** Binding strength of a tree's root: assignment 0, binary levels 1-6, unary 7, atoms 8. */
  function Rank(e: Expr): nat {
    match e
    case Assign(_, _) => 0
    case Binary(_, op, _) => OpRank(op.kind)
    case Logical(_, op, _) => OpRank(op.kind)
    case Unary(_, _) => 7
    case _ => 8
  }

  /**
   * The trees the grammar can produce: `Logical` nodes carry `or`/`and`,
   * `Binary` nodes the other binary operators; an operand of a binary node
   * binds at least as tightly as the node on the left and strictly more
   * tightly on the right (so equal levels nest to the left), and a unary
   * operand is unary or atomic. Parentheses (`Grouping`) reset the rank.
   */
  predicate Shaped(e: Expr) {
    match e
    case Assign(_, value) => Shaped(value)
    case Binary(l, op, r) =>
      3 <= OpRank(op.kind) && Rank(l) >= OpRank(op.kind) && Rank(r) > OpRank(op.kind)
      && Shaped(l) && Shaped(r)
    case Logical(l, op, r) =>
      (op.kind == OR || op.kind == AND) && Rank(l) >= OpRank(op.kind) && Rank(r) > OpRank(op.kind)
      && Shaped(l) && Shaped(r)
    case Grouping(inner) => Shaped(inner)
    case Literal(_) => true
    case Unary(op, r) => (op.kind == BANG || op.kind == MINUS) && Rank(r) >= 7 && Shaped(r)
    case Variable(_) => true
  }

  /** The operators of binary level `k`: 0 or, 1 and, 2 equality, 3 comparison, 4 term, 5 factor. */
  function Operators(k: nat): (kinds: set<TokenType>)
    requires k < 6
    ensures forall t :: t in kinds <==> OpRank(t) == k + 1
  {
    if k == 0 then {OR}
    else if k == 1 then {AND}
    else if k == 2 then {BANG_EQUAL, EQUAL_EQUAL}
    else if k == 3 then {LESS, LESS_EQUAL, GREATER, GREATER_EQUAL}
    else if k == 4 then {MINUS, PLUS}
    else {STAR, SLASH}
  }

  /** The node a level builds: `Logical` for `or`/`and`, `Binary` otherwise. */
  function Node(k: nat, left: Expr, op: Token, right: Expr): Expr {
    if k <= 1 then Logical(left, op, right) else Binary(left, op, right)
  }

  /** A level's node over a left operand of its own level and a right operand of a tighter one is well shaped. */
  lemma NodeShaped(k: nat, left: Expr, op: Token, right: Expr)
    requires k < 6 && op.kind in Operators(k)
    requires Shaped(left) && Rank(left) >= k + 1 && Shaped(right) && Rank(right) >= k + 2
    ensures Shaped(Node(k, left, op, right)) && Rank(Node(k, left, op, right)) == k + 1
  {
  }

  // ---------------------------------------------------------------------
  // Expressions

  /** `expression()`. */
  function Expression(ts: seq<Token>, c: Cursor): (r: (Attempt<Expr>, Cursor))
    requires ValidAt(ts, c)
    ensures Step(ts, c, r.1, r.0)
    ensures r.0.Done? ==> Shaped(r.0.value)
    decreases |ts| - c.pos, 20
  {
    Assignment(ts, c)
  }

  /** `assignment()`: right-recursive; a target that is not a variable is reported, not thrown. */
  function Assignment(ts: seq<Token>, c: Cursor): (r: (Attempt<Expr>, Cursor))
    requires ValidAt(ts, c)
    ensures Step(ts, c, r.1, r.0)
    ensures r.0.Done? ==> Shaped(r.0.value)
    ensures r.0.Done? && r.0.value.Assign? ==>
      ts[c.pos].kind == IDENTIFIER && r.0.value.name == ts[c.pos] && ts[c.pos + 1].kind == EQUAL
    decreases |ts| - c.pos, 19
  {
    var (left, c1) := Level(ts, c, 0);
    if left.Thrown? then (Thrown, c1)
    else
      var r := AssignTarget(ts, c1, left.value);
      assert r.0.Done? && r.0.value.Assign? ==> left.value.Variable? && c1.pos == c.pos + 1;
      r
  }

  /**
   * The rest of `assignment()` once `or()` has parsed `left`: without `=` the
   * result is `left`; with `=` the value is a whole `assignment()`, and a
   * `left` that is not a variable is reported at the `=` and returned.
   */
  function AssignTarget(ts: seq<Token>, c: Cursor, left: Expr): (r: (Attempt<Expr>, Cursor))
    requires ValidAt(ts, c) && Shaped(left) && Rank(left) >= 1
    ensures ValidAt(ts, r.1) && c.pos <= r.1.pos && c.errors <= r.1.errors
    ensures r.0.Thrown? ==> |c.errors| < |r.1.errors|
    ensures r.0.Done? ==> Shaped(r.0.value)
    ensures ts[c.pos].kind != EQUAL ==> r == (Done(left), c)
    ensures r.0.Done? && r.0.value.Assign? ==>
      left.Variable? && r.0.value.name == left.name && ts[c.pos].kind == EQUAL
      && c.pos + 1 < |ts| && Assignment(ts, Cursor(c.pos + 1, c.errors)) == (Done(r.0.value.value), r.1)
    decreases |ts| - c.pos, 0
  {
    var (eq, c1) := Match(ts, c, {EQUAL});
    if !eq then (Done(left), c)
    else
      var equals := Previous(ts, c1.pos);
      var (value, c2) := Assignment(ts, c1);
      if value.Thrown? then (Thrown, c2)
      else if left.Variable? then (Done(Expr.Assign(left.name, value.value)), c2)
      else (Done(left), Report(c2, equals, "Invalid assignment target."))
  }

  /**
   * One binary level: `or()`, `and()`, `equality()`, `comparison()`,
   * `term()` or `factor()` for `k` = 0 to 5. The operand of level `k` is
   * level `k + 1`, and `unary()` below `factor()`.
   */
  function Level(ts: seq<Token>, c: Cursor, k: nat): (r: (Attempt<Expr>, Cursor))
    requires ValidAt(ts, c) && k < 6
    ensures Step(ts, c, r.1, r.0)
    ensures r.0.Done? ==> Shaped(r.0.value) && Rank(r.0.value) >= k + 1
    ensures r.0.Done? && r.0.value.Variable? ==>
      ts[c.pos].kind == IDENTIFIER && r.0.value.name == ts[c.pos] && r.1 == Cursor(c.pos + 1, c.errors)
    decreases |ts| - c.pos, 18 - 2 * k
  {
    var (left, c1) := Operand(ts, c, k);
    if left.Thrown? then (Thrown, c1)
    else LevelLoop(ts, c1, k, left.value)
  }

  /** The operand of level `k`: the next level, or `unary()` below `factor()`. */
  function Operand(ts: seq<Token>, c: Cursor, k: nat): (r: (Attempt<Expr>, Cursor))
    requires ValidAt(ts, c) && k < 6
    ensures Step(ts, c, r.1, r.0)
    ensures r.0.Done? ==> Shaped(r.0.value) && Rank(r.0.value) >= k + 2
    ensures r.0.Done? && r.0.value.Variable? ==>
      ts[c.pos].kind == IDENTIFIER && r.0.value.name == ts[c.pos] && r.1 == Cursor(c.pos + 1, c.errors)
    decreases |ts| - c.pos, 17 - 2 * k
  {
    if k == 5 then UnaryExpr(ts, c) else Level(ts, c, k + 1)
  }

  /** The `while (match(...))` loop of a binary level, folding to the left. */
  function LevelLoop(ts: seq<Token>, c: Cursor, k: nat, left: Expr): (r: (Attempt<Expr>, Cursor))
    requires ValidAt(ts, c) && k < 6
    requires Shaped(left) && Rank(left) >= k + 1
    ensures ValidAt(ts, r.1) && c.pos <= r.1.pos && c.errors <= r.1.errors
    ensures r.0.Thrown? ==> |c.errors| < |r.1.errors|
    ensures r.0.Done? ==> Shaped(r.0.value) && Rank(r.0.value) >= k + 1
    ensures r.0.Done? && r.0.value.Variable? ==> r.0.value == left && r.1 == c
    decreases |ts| - c.pos, 17 - 2 * k
  {
    var (more, c1) := Match(ts, c, Operators(k));
    if !more then (Done(left), c)
    else
      var op := Previous(ts, c1.pos);
      var (right, c2) := Operand(ts, c1, k);
      if right.Thrown? then (Thrown, c2)
      else
        NodeShaped(k, left, op, right.value);
        LevelLoop(ts, c2, k, Node(k, left, op, right.value))
  }

  /** `unary()`: prefix `!` and `-` nest to the right. */
  function UnaryExpr(ts: seq<Token>, c: Cursor): (r: (Attempt<Expr>, Cursor))
    requires ValidAt(ts, c)
    ensures Step(ts, c, r.1, r.0)
    ensures r.0.Done? ==> Shaped(r.0.value) && Rank(r.0.value) >= 7
    ensures r.0.Done? && r.0.value.Variable? ==>
      ts[c.pos].kind == IDENTIFIER && r.0.value.name == ts[c.pos] && r.1 == Cursor(c.pos + 1, c.errors)
    decreases |ts| - c.pos, 6
  {
    var (m, c1) := Match(ts, c, {BANG, MINUS});
    if m then
      var op := Previous(ts, c1.pos);
      var (right, c2) := UnaryExpr(ts, c1);
      if right.Thrown? then (Thrown, c2)
      else (Done(Expr.Unary(op, right.value)), c2)
    else
      Primary(ts, c)
  }

  /** `primary()`. */
  function Primary(ts: seq<Token>, c: Cursor): (r: (Attempt<Expr>, Cursor))
    requires ValidAt(ts, c)
    ensures Step(ts, c, r.1, r.0)
    ensures r.0.Done? ==> Shaped(r.0.value) && Rank(r.0.value) == 8
    ensures r.0.Done? && r.0.value.Variable? ==>
      ts[c.pos].kind == IDENTIFIER && r.0.value.name == ts[c.pos] && r.1 == Cursor(c.pos + 1, c.errors)
    decreases |ts| - c.pos, 5
  {
    var (isFalse, c1) := Match(ts, c, {FALSE});
    if isFalse then (Done(Literal(Bool(false))), c1)
    else
      var (isTrue, c2) := Match(ts, c, {TRUE});
      if isTrue then (Done(Literal(Bool(true))), c2)
      else
        var (isNil, c3) := Match(ts, c, {NIL});
        if isNil then (Done(Literal(Nil)), c3)
        else
          var (isLit, c4) := Match(ts, c, {NUMBER, STRING});
          if isLit then (Done(Literal(Previous(ts, c4.pos).literal)), c4)
          else
            var (isName, c5) := Match(ts, c, {IDENTIFIER});
            if isName then (Done(Variable(Previous(ts, c5.pos))), c5)
            else
              var (isParen, c6) := Match(ts, c, {LEFT_PAREN});
              if isParen then
                var (inner, c7) := Expression(ts, c6);
                if inner.Thrown? then (Thrown, c7)
                else
                  var (close, c8) := Consume(ts, c7, RIGHT_PAREN, "Expect ')' after expression.");
                  if close.Thrown? then (Thrown, c8)
                  else (Done(Grouping(inner.value)), c8)
              else
                (Thrown, Report(c, Peek(ts, c.pos), "Expect expression"))
  }

  // ---------------------------------------------------------------------
  // Error recovery

  /** The keywords `synchronize()` treats as the start of a new statement. */
  const StatementStarts: set<TokenType> := {CLASS, FUN, VAR, FOR, IF, WHILE, PRINT, RETURN}

  /** Where `synchronize()` may stop: at EOF, just after a `;`, or before a statement keyword. */
  predicate SyncPoint(ts: seq<Token>, pos: nat)
    requires pos < |ts|
  {
    IsAtEnd(ts, pos) || (0 < pos && (Previous(ts, pos).kind == SEMICOLON || Peek(ts, pos).kind in StatementStarts))
  }

  /**
   * `synchronize()`: always steps over one token (unless at EOF), then keeps
   * advancing and stops at the first synchronisation point. Reports nothing.
   */
  function Synchronize(ts: seq<Token>, c: Cursor): (r: Cursor)
    requires ValidAt(ts, c) && (c.pos > 0 || !IsAtEnd(ts, c.pos))
    ensures ValidAt(ts, r) && r.errors == c.errors
    ensures IsAtEnd(ts, c.pos) ==> r == c
    ensures !IsAtEnd(ts, c.pos) ==> c.pos < r.pos
    ensures SyncPoint(ts, r.pos)
    ensures forall p :: c.pos < p < r.pos ==> !SyncPoint(ts, p)
  {
    SyncLoop(ts, Advance(ts, c).1)
  }

  /** The `while (!isAtEnd())` loop of `synchronize()`. */
  function SyncLoop(ts: seq<Token>, c: Cursor): (r: Cursor)
    requires ValidAt(ts, c) && (c.pos > 0 || IsAtEnd(ts, c.pos))
    ensures ValidAt(ts, r) && r.errors == c.errors && c.pos <= r.pos
    ensures SyncPoint(ts, r.pos)
    ensures forall p :: c.pos <= p < r.pos ==> !SyncPoint(ts, p)
    decreases |ts| - c.pos
  {
    if IsAtEnd(ts, c.pos) then c
    else if Previous(ts, c.pos).kind == SEMICOLON then c
    else if Peek(ts, c.pos).kind in StatementStarts then c
    else SyncLoop(ts, Advance(ts, c).1)
  }

  // ---------------------------------------------------------------------
  // Statements

  /**
   * What every statement-level step guarantees besides `Step`: it never
   * builds a `While` node, and if it reported nothing its tree holds no `null`.
   */
  predicate StmtStep(c: Cursor, c': Cursor, r: Attempt<Stmt>) {
    r.Done? ==> !HasWhile(r.value) && (|c'.errors| == |c.errors| ==> NullFree(r.value))
  }

  /**
   * `declaration()`: a `var` declaration or a statement; on a `ParseError` it
   * synchronizes and yields `null` (`None`). Called only before EOF, it
   * always consumes at least one token.
   */
  function Declaration(ts: seq<Token>, c: Cursor): (r: (Option<Stmt>, Cursor))
    requires ValidAt(ts, c) && !IsAtEnd(ts, c.pos)
    ensures ValidAt(ts, r.1) && c.pos < r.1.pos && c.errors <= r.1.errors
    ensures r.0.None? ==> |c.errors| < |r.1.errors|
    ensures r.0.Some? ==> !HasWhile(r.0.value)
    ensures |r.1.errors| == |c.errors| ==> r.0.Some? && NullFree(r.0.value)
    ensures r.0.None? ==> SyncPoint(ts, r.1.pos)
    decreases |ts| - c.pos, 8
  {
    var (isVar, c1) := Match(ts, c, {VAR});
    var (s, c2) := if isVar then VarDeclaration(ts, c1) else Statement(ts, c);
    if s.Done? then (Some(s.value), c2)
    else (None, Synchronize(ts, c2))
  }

  /** `varDeclaration()`, after the `var` keyword: a name, an optional `= initializer`, then `;`. */
  function VarDeclaration(ts: seq<Token>, c: Cursor): (r: (Attempt<Stmt>, Cursor))
    requires ValidAt(ts, c)
    ensures Step(ts, c, r.1, r.0) && StmtStep(c, r.1, r.0)
    ensures r.0.Done? ==> r.0.value.Var? && r.0.value.name == ts[c.pos] && r.0.value.name.kind == IDENTIFIER
    ensures r.0.Done? ==> (r.0.value.initializer.Some? <==> ts[c.pos + 1].kind == EQUAL)
    decreases |ts| - c.pos, 7
  {
    var (name, c1) := Consume(ts, c, IDENTIFIER, "Expect variable name");
    if name.Thrown? then (Thrown, c1)
    else VarInitializer(ts, c1, name.value)
  }

  /** The rest of `varDeclaration()` after the name: an optional `= initializer`, then `;`. */
  function VarInitializer(ts: seq<Token>, c: Cursor, name: Token): (r: (Attempt<Stmt>, Cursor))
    requires ValidAt(ts, c)
    ensures Step(ts, c, r.1, r.0) && StmtStep(c, r.1, r.0)
    ensures r.0.Done? ==> r.0.value.Var? && r.0.value.name == name
    ensures r.0.Done? ==> (r.0.value.initializer.Some? <==> ts[c.pos].kind == EQUAL)
    ensures r.0.Done? && r.0.value.initializer.Some? ==>
      c.pos + 1 < |ts| && Expression(ts, Cursor(c.pos + 1, c.errors)).0 == Done(r.0.value.initializer.value)
    decreases |ts| - c.pos, 7
  {
    var (hasInit, c1) := Match(ts, c, {EQUAL});
    if hasInit then
      assert c1 == Cursor(c.pos + 1, c.errors);
      var (init, c2) := Expression(ts, c1);
      if init.Thrown? then (Thrown, c2)
      else VarEnd(ts, c2, name, Some(init.value))
    else
      VarEnd(ts, c1, name, None)
  }

  /** The closing `consume(SEMICOLON, ...)` of `varDeclaration()`. */
  function VarEnd(ts: seq<Token>, c: Cursor, name: Token, init: Option<Expr>): (r: (Attempt<Stmt>, Cursor))
    requires ValidAt(ts, c)
    ensures Step(ts, c, r.1, r.0)
    ensures r.0.Done? ==> r.0.value == Var(name, init)
  {
    var (semi, c1) := Consume(ts, c, SEMICOLON, "Expect ';' after variable declaration.");
    if semi.Thrown? then (Thrown, c1) else (Done(Var(name, init)), c1)
  }

  /** `statement()`: dispatch on `if`, `print` and `{`, else an expression statement. */
  function Statement(ts: seq<Token>, c: Cursor): (r: (Attempt<Stmt>, Cursor))
    requires ValidAt(ts, c)
    ensures Step(ts, c, r.1, r.0) && StmtStep(c, r.1, r.0)
    ensures r.0.Done? ==> (r.0.value.If? <==> ts[c.pos].kind == IF)
    ensures r.0.Done? ==> (r.0.value.Print? <==> ts[c.pos].kind == PRINT)
    ensures r.0.Done? ==> (r.0.value.Block? <==> ts[c.pos].kind == LEFT_BRACE)
    ensures r.0.Done? ==> (r.0.value.Expression? <==> ts[c.pos].kind !in {IF, PRINT, LEFT_BRACE})
    decreases |ts| - c.pos, 6
  {
    var (isIf, c1) := Match(ts, c, {IF});
    if isIf then IfStatement(ts, c1)
    else
      var (isPrint, c2) := Match(ts, c, {PRINT});
      if isPrint then PrintStatement(ts, c2)
      else
        var (isBlock, c3) := Match(ts, c, {LEFT_BRACE});
        if isBlock then BlockStatement(ts, c3)
        else ExpressionStatement(ts, c)
  }

  /** `ifStatement()`, after the `if` keyword; `else` binds to the nearest `if`. */
  function IfStatement(ts: seq<Token>, c: Cursor): (r: (Attempt<Stmt>, Cursor))
    requires ValidAt(ts, c)
    ensures Step(ts, c, r.1, r.0) && StmtStep(c, r.1, r.0)
    ensures r.0.Done? ==> r.0.value.If? && ts[c.pos].kind == LEFT_PAREN && c.pos + 1 < |ts|
    ensures r.0.Done? ==>
      var (cond, c2) := Expression(ts, Cursor(c.pos + 1, c.errors));
      cond == Done(r.0.value.condition) && ts[c2.pos].kind == RIGHT_PAREN
    decreases |ts| - c.pos, 5
  {
    var (open, c1) := Consume(ts, c, LEFT_PAREN, "Expect ( after if");
    if open.Thrown? then (Thrown, c1)
    else
      var (cond, c2) := Expression(ts, c1);
      if cond.Thrown? then (Thrown, c2)
      else
        var (close, c3) := Consume(ts, c2, RIGHT_PAREN, "Expect ) after condition");
        if close.Thrown? then (Thrown, c3)
        else IfBranches(ts, c3, cond.value)
  }

  /** The rest of `ifStatement()` after the condition: the then branch and an optional `else` branch. */
  function IfBranches(ts: seq<Token>, c: Cursor, cond: Expr): (r: (Attempt<Stmt>, Cursor))
    requires ValidAt(ts, c)
    ensures Step(ts, c, r.1, r.0) && StmtStep(c, r.1, r.0)
    ensures r.0.Done? ==> r.0.value.If? && r.0.value.condition == cond
    ensures r.0.Done? ==> Statement(ts, c).0 == Done(r.0.value.thenBranch)
    ensures r.0.Done? ==> (r.0.value.elseBranch.Some? <==> Check(ts, Statement(ts, c).1.pos, ELSE))
    ensures r.0.Done? && r.0.value.elseBranch.Some? ==>
      var c1 := Statement(ts, c).1;
      c1.pos + 1 < |ts| && Statement(ts, Cursor(c1.pos + 1, c1.errors)).0 == Done(r.0.value.elseBranch.value)
    decreases |ts| - c.pos, 7
  {
    var (thenBranch, c1) := Statement(ts, c);
    if thenBranch.Thrown? then (Thrown, c1)
    else ElseBranch(ts, c1, cond, thenBranch.value)
  }

  /** The optional `else` branch of `ifStatement()`, after the then branch. */
  function ElseBranch(ts: seq<Token>, c: Cursor, cond: Expr, thenBranch: Stmt): (r: (Attempt<Stmt>, Cursor))
    requires ValidAt(ts, c) && !HasWhile(thenBranch)
    ensures ValidAt(ts, r.1) && c.pos <= r.1.pos && c.errors <= r.1.errors
    ensures r.0.Thrown? ==> |c.errors| < |r.1.errors|
    ensures r.0.Done? ==> !HasWhile(r.0.value)
    ensures r.0.Done? && |r.1.errors| == |c.errors| && NullFree(thenBranch) ==> NullFree(r.0.value)
    ensures r.0.Done? ==> r.0.value.If? && r.0.value.condition == cond && r.0.value.thenBranch == thenBranch
    ensures !Check(ts, c.pos, ELSE) ==> r == (Done(If(cond, thenBranch, None)), c)
    ensures r.0.Done? && r.0.value.elseBranch.Some? ==>
      Check(ts, c.pos, ELSE) && c.pos + 1 < |ts|
      && Statement(ts, Cursor(c.pos + 1, c.errors)).0 == Done(r.0.value.elseBranch.value)
    decreases |ts| - c.pos, 7
  {
    var (hasElse, c1) := Match(ts, c, {ELSE});
    if !hasElse then (Done(If(cond, thenBranch, None)), c)
    else
      assert c1 == Cursor(c.pos + 1, c.errors);
      var (elseBranch, c2) := Statement(ts, c1);
      if elseBranch.Thrown? then (Thrown, c2)
      else (Done(If(cond, thenBranch, Some(elseBranch.value))), c2)
  }

  /** `printStatement()`, after the `print` keyword. */
  function PrintStatement(ts: seq<Token>, c: Cursor): (r: (Attempt<Stmt>, Cursor))
    requires ValidAt(ts, c)
    ensures Step(ts, c, r.1, r.0) && StmtStep(c, r.1, r.0)
    ensures r.0.Done? ==> r.0.value.Print?
    ensures var (e, c1) := Expression(ts, c);
      (r.0.Done? <==> e.Done? && Check(ts, c1.pos, SEMICOLON))
      && (r.0.Done? ==> r == (Done(Print(e.value)), Cursor(c1.pos + 1, c1.errors)))
      && (e.Done? && !Check(ts, c1.pos, SEMICOLON) ==> r.1 == Report(c1, ts[c1.pos], "Expect ; after value"))
  {
    var (value, c1) := Expression(ts, c);
    if value.Thrown? then (Thrown, c1)
    else
      var (semi, c2) := Consume(ts, c1, SEMICOLON, "Expect ; after value");
      if semi.Thrown? then (Thrown, c2) else (Done(Print(value.value)), c2)
  }

  /** `expressionStatement()`. */
  function ExpressionStatement(ts: seq<Token>, c: Cursor): (r: (Attempt<Stmt>, Cursor))
    requires ValidAt(ts, c)
    ensures Step(ts, c, r.1, r.0) && StmtStep(c, r.1, r.0)
    ensures r.0.Done? ==> r.0.value.Expression?
    ensures var (e, c1) := Expression(ts, c);
      (r.0.Done? <==> e.Done? && Check(ts, c1.pos, SEMICOLON))
      && (r.0.Done? ==> r == (Done(Stmt.Expression(e.value)), Cursor(c1.pos + 1, c1.errors)))
      && (e.Done? && !Check(ts, c1.pos, SEMICOLON) ==> r.1 == Report(c1, ts[c1.pos], "Expect ; after value"))
  {
    var (value, c1) := Expression(ts, c);
    if value.Thrown? then (Thrown, c1)
    else
      var (semi, c2) := Consume(ts, c1, SEMICOLON, "Expect ; after value");
      if semi.Thrown? then (Thrown, c2) else (Done(Stmt.Expression(value.value)), c2)
  }

  /** `blockStatement()`, after the `{`: declarations up to `}` or EOF, then `consume('}')`. */
  function BlockStatement(ts: seq<Token>, c: Cursor): (r: (Attempt<Stmt>, Cursor))
    requires ValidAt(ts, c)
    ensures Step(ts, c, r.1, r.0) && StmtStep(c, r.1, r.0)
    ensures r.0.Done? ==> r.0.value.Block?
    ensures Check(ts, c.pos, RIGHT_BRACE) ==> r == (Done(Block([])), Cursor(c.pos + 1, c.errors))
    ensures IsAtEnd(ts, c.pos) ==> r == (Thrown, Report(c, ts[c.pos], "Expect '}' after block."))
    ensures !Check(ts, c.pos, RIGHT_BRACE) && !IsAtEnd(ts, c.pos) && r.0.Done? ==>
      0 < |r.0.value.statements| && r.0.value.statements[0] == Declaration(ts, c).0
    decreases |ts| - c.pos, 10
  {
    var r := BlockLoop(ts, c, []);
    assert r.0.Done? ==> !HasWhile(r.0.value);
    r
  }

  /** The `while` loop of `blockStatement()`; `acc` holds the declarations so far. */
  function BlockLoop(ts: seq<Token>, c: Cursor, acc: seq<Option<Stmt>>): (r: (Attempt<Stmt>, Cursor))
    requires ValidAt(ts, c) && NoneHasWhile(acc)
    ensures ValidAt(ts, r.1) && c.pos <= r.1.pos && c.errors <= r.1.errors
    ensures r.0.Thrown? ==> |c.errors| < |r.1.errors|
    ensures r.0.Done? ==> c.pos < r.1.pos && r.0.value.Block? && acc <= r.0.value.statements
    ensures r.0.Done? ==> NoneHasWhile(r.0.value.statements)
    ensures r.0.Done? && |r.1.errors| == |c.errors| && AllNullFree(acc) ==> AllNullFree(r.0.value.statements)
    ensures Check(ts, c.pos, RIGHT_BRACE) ==> r == (Done(Block(acc)), Cursor(c.pos + 1, c.errors))
    ensures IsAtEnd(ts, c.pos) ==> r == (Thrown, Report(c, ts[c.pos], "Expect '}' after block."))
    ensures !Check(ts, c.pos, RIGHT_BRACE) && !IsAtEnd(ts, c.pos) && r.0.Done? ==>
      |acc| < |r.0.value.statements| && r.0.value.statements[|acc|] == Declaration(ts, c).0
    decreases |ts| - c.pos, 9
  {
    if !Check(ts, c.pos, RIGHT_BRACE) && !IsAtEnd(ts, c.pos) then
      var (d, c1) := Declaration(ts, c);
      assert NoneHasWhile(acc + [d]);
      assert |c1.errors| == |c.errors| && AllNullFree(acc) ==> AllNullFree(acc + [d]);
      BlockLoop(ts, c1, acc + [d])
    else
      var (close, c1) := Consume(ts, c, RIGHT_BRACE, "Expect '}' after block.");
      if close.Thrown? then (Thrown, c1) else (Done(Block(acc)), c1)
  }

  /** `parse()`: declarations until EOF; a failed declaration leaves a `null` entry. */
  function Parse(ts: seq<Token>): (r: (seq<Option<Stmt>>, Cursor))
    requires WellFormed(ts)
    ensures ValidAt(ts, r.1) && IsAtEnd(ts, r.1.pos)
    ensures NoneHasWhile(r.0)
    ensures r.1.errors == [] ==> AllNullFree(r.0)
    ensures IsAtEnd(ts, 0) ==> r == ([], Cursor(0, []))
    ensures !IsAtEnd(ts, 0) ==> |r.0| > 0 && r.0[0] == Declaration(ts, Cursor(0, [])).0
  {
    ParseLoop(ts, Cursor(0, []), [])
  }

  /** The `while (!isAtEnd())` loop of `parse()`. */
  function ParseLoop(ts: seq<Token>, c: Cursor, acc: seq<Option<Stmt>>): (r: (seq<Option<Stmt>>, Cursor))
    requires ValidAt(ts, c) && NoneHasWhile(acc)
    ensures ValidAt(ts, r.1) && IsAtEnd(ts, r.1.pos) && c.pos <= r.1.pos && c.errors <= r.1.errors
    ensures acc <= r.0 && NoneHasWhile(r.0)
    ensures |r.1.errors| == |c.errors| && AllNullFree(acc) ==> AllNullFree(r.0)
    ensures IsAtEnd(ts, c.pos) ==> r == (acc, c)
    ensures !IsAtEnd(ts, c.pos) ==> |acc| < |r.0| && r.0[|acc|] == Declaration(ts, c).0
    decreases |ts| - c.pos
  {
    if IsAtEnd(ts, c.pos) then (acc, c)
    else
      var (d, c1) := Declaration(ts, c);
      assert NoneHasWhile(acc + [d]);
      assert |c1.errors| == |c.errors| && AllNullFree(acc) ==> AllNullFree(acc + [d]);
      ParseLoop(ts, c1, acc + [d])
  }
}
