# jlox core in Dafny

This project models the core of a tree-walking interpreter for the Lox language, written in Java.
It covers three parts:

- the recursive-descent **parser**, which turns a token list into statements;
- the **interpreter**, which evaluates expressions and executes statements against a chain of scopes;
- the **AST printer**, which renders an expression as parenthesised prefix text.

Each part is modelled in the form the Java code has.

- **The parser.** `Parser` is a class with a cursor that only moves forward. The class `Parser.Parser` keeps its fields:
  - the token list;
  - `current`;
  - the diagnostics reported so far.

  Each parsing method is proved equal to a pure function of module `Grammar`. Those functions take the tokens and a `Cursor(pos, errors)` and return an `Attempt`: a `Done` tree, or `Thrown` for a `ParseError` in flight. The six binary levels `or()`, `and()`, `equality()`, `comparison()`, `term()` and `factor()` are one function `Level(k)` with `k` from 0 to 5. `GrammarFacts` proves facts about these functions:
  - precedence and associativity on concrete token shapes;
  - the "Expect expression" rejection;
  - the recovery by `synchronize()`.
- **The interpreter.** Its value rules and its evaluation are pure and live in `Semantics`: `isTruthy`, `isEqual`, the operand checks, `stringify`, and the expression and statement visitors. The scope chain is a sequence of maps with the global scope first (`Environment`). The class `Interpreter.Interpreter` runs statements step by step:
  - it updates its scope chain and its printed output in place;
  - it pushes and pops a scope around a block, with the pop done on every exit, as the `finally` does;
  - it stops `interpret` at the first runtime error.

  Each of its methods is proved equal to the `Semantics` functions. `SemanticsFacts` proves properties of those functions:
  - which names each scope binds after a statement;
  - which scopes a statement cannot touch;
  - halting at the first error;
  - short-circuiting.
- **The AST printer.** `AstPrinter` is pure functions over the expression tree.

`Lox` connects parser and interpreter: a token list that parses without a syntax error runs to completion or to a runtime error. It never crashes on a `null` statement and never loops.

Two behaviours of the code differ from what a Lox programmer expects. The model follows the code in both:

- **`and` short-circuits like `or`.** The conventional rule is that `and` returns a falsy left operand without evaluating the right one, and otherwise returns the right operand. `visitLogicalExpr` instead returns the left operand whenever it is truthy, for both operators, and otherwise evaluates the right one. The evaluator `Semantics.VisitLogical` runs this rule as written (`ShortCircuitsAsWritten`). `SemanticsFacts` proves:
  - `and` evaluates exactly like `or`;
  - `true and false` yields `true`.

  The conventional rule is kept as a reference definition, `SemanticsFacts.LogicalValue` (see Findings).
- **A failed declaration leaves a `null`.** When `declaration()` catches a parse error, it puts a `null` into the statement list, and the model keeps it as `None`. Executing that entry throws a `NullPointerException` in Java. The model calls that outcome `Crashed`, and `interpret` does not catch it.

Two inputs are parameters of the model:

- `Double.toString` is a parameter `dt: real -> string`.
- The bound on `while` iterations is a parameter `fuel`.

## Model

| member | source | states |
|---|---|---|
| Grammar.IsAtEnd | src/com/amitrai/lox/Parser.java:233-235 | true exactly on the EOF token, so always on the last token of a list that ends in EOF |
| Grammar.Peek | src/com/amitrai/lox/Parser.java:229-231 | the token at the cursor, whose kind is EOF exactly when at the end |
| Grammar.Check | src/com/amitrai/lox/Parser.java:224-227 | never true for EOF, since it answers false at the end; otherwise true exactly when the current token has the kind |
| Grammar.Previous | src/com/amitrai/lox/Parser.java:237-239 | the token just before the cursor |
| Grammar.Advance | src/com/amitrai/lox/Parser.java:217-222 | moves one token forward unless at EOF, and returns the token just passed |
| Grammar.Match | src/com/amitrai/lox/Parser.java:207-215 | matches exactly when not at EOF and the current kind is one of the kinds; then consumes one token, otherwise consumes nothing |
| Grammar.Report | src/com/amitrai/lox/Parser.java:246-249 | appends one diagnostic (token, message) and leaves the position unchanged |
| Grammar.Consume | src/com/amitrai/lox/Parser.java:241-244 | succeeds exactly when the current token has the expected kind and returns that token; otherwise it reports the message at the current token and throws |
| Grammar.NotAtEndHasNext | src/com/amitrai/lox/Parser.java:233-235 | in a token list ending in EOF, a position that is not at EOF has a successor |
| Grammar.Operators | src/com/amitrai/lox/Parser.java:49-112 | the kinds level `k` matches are exactly the operators of binding strength `k + 1` |
| Grammar.NodeShaped | src/com/amitrai/lox/Parser.java:49-112 | a level's node over an operand of its own level (left) and a tighter one (right) is well shaped at that level |
| Grammar.Expression | src/com/amitrai/lox/Parser.java:29-31 | never moves back, never drops a diagnostic, a throw always reports, and a result is a well-shaped tree |
| Grammar.Assignment | src/com/amitrai/lox/Parser.java:34-46 | never moves back, a throw always reports, a result is well shaped, and an assignment result names the identifier at the cursor, which is followed by `=` |
| Grammar.AssignTarget | src/com/amitrai/lox/Parser.java:36-45 | without `=` the result is the left-hand side, untouched; an assignment result needs a variable target followed by `=`, and its value is the whole `assignment()` after the `=` |
| Grammar.Level | src/com/amitrai/lox/Parser.java:49-112 | the result of level `k` is a well-shaped tree whose root binds no looser than level `k`; a bare variable result is the identifier at the cursor, and exactly that one token is consumed |
| Grammar.Operand | src/com/amitrai/lox/Parser.java:49-112 | the operand of level `k` binds strictly tighter than level `k`; a bare variable result is the one identifier at the cursor |
| Grammar.LevelLoop | src/com/amitrai/lox/Parser.java:51-55 | folding operators to the left keeps the tree well shaped at level `k`; a throw has reported; a variable result means no operator was folded and nothing was consumed |
| Grammar.UnaryExpr | src/com/amitrai/lox/Parser.java:115-122 | a result binds at unary strength or tighter; a bare variable result is the one identifier at the cursor; what it builds for each token is stated by `GrammarFacts.UnaryDispatch` |
| Grammar.Primary | src/com/amitrai/lox/Parser.java:125-144 | a result is an atom: a literal, a variable or a grouping; a variable is the identifier token at the cursor, and only it is consumed; what it builds for each token is stated by `GrammarFacts.PrimaryOfToken` and `GrammarFacts.PrimaryGrouping` |
| Grammar.Synchronize | src/com/amitrai/lox/Parser.java:251-271 | skips at least one token unless at EOF, stops at the first synchronisation point (EOF, just after `;`, or before a statement keyword), and skips no earlier one |
| Grammar.SyncLoop | src/com/amitrai/lox/Parser.java:254-270 | the loop stops at the first synchronisation point at or after the cursor |
| Grammar.Declaration | src/com/amitrai/lox/Parser.java:146-154 | always consumes a token; yields `null` only after reporting, and then stops at a synchronisation point; yields no `while`; with no new diagnostic the statement is free of `null` |
| Grammar.VarDeclaration | src/com/amitrai/lox/Parser.java:156-164 | a result is a `Var` statement named by the identifier token at the cursor, with an initializer exactly when the next token is `=` |
| Grammar.VarInitializer | src/com/amitrai/lox/Parser.java:158-163 | a result carries the given name; it has an initializer exactly when the cursor is on `=`, and that initializer is what `expression()` parses after the `=` |
| Grammar.VarEnd | src/com/amitrai/lox/Parser.java:162-163 | after `;` the result is exactly `Var(name, initializer)` |
| Grammar.Statement | src/com/amitrai/lox/Parser.java:167-172 | never moves back; a result is an `if`, `print` or block statement exactly when the current token is `if`, `print` or `{`, and an expression statement otherwise; it has no `while` and, when nothing was reported, no `null` |
| Grammar.IfStatement | src/com/amitrai/lox/Parser.java:174-184 | a result is an `If` whose condition is `expression()` parsed after the `(` at the cursor, and that condition is followed by `)` |
| Grammar.IfBranches | src/com/amitrai/lox/Parser.java:178-183 | a result is an `If` with the given condition; its then branch is `statement()` at the cursor; it has an else branch exactly when `else` follows the then branch, and that branch is `statement()` after the `else` |
| Grammar.ElseBranch | src/com/amitrai/lox/Parser.java:179-183 | a result is an `If` with the given condition and then branch; without `else` at the cursor it has no else branch and consumes nothing; an else branch is `statement()` after the `else` |
| Grammar.PrintStatement | src/com/amitrai/lox/Parser.java:186-190 | succeeds exactly when `expression()` succeeds and is followed by `;`; the result prints that expression and the cursor is just past the `;`; a missing `;` is reported at the token found instead |
| Grammar.ExpressionStatement | src/com/amitrai/lox/Parser.java:192-196 | the same, for an expression statement holding that expression |
| Grammar.BlockStatement | src/com/amitrai/lox/Parser.java:198-205 | a result is a `Block`; on `}` it is empty and consumes the `}`; at EOF it reports the missing `}` and throws; otherwise its first entry is `declaration()` at the cursor |
| Grammar.BlockLoop | src/com/amitrai/lox/Parser.java:200-204 | the declarations gathered so far are kept; on `}` they are the whole block; at EOF the missing `}` is reported; otherwise the next entry is `declaration()` at the cursor; no `while`, and no `null` when nothing was reported |
| Grammar.Parse | src/com/amitrai/lox/Parser.java:20-26 | parsing ends at EOF; an input that is only EOF gives no statements; otherwise the first entry is `declaration()` at the start; no statement contains a `while`; with no diagnostic the list contains no `null` |
| Grammar.ParseLoop | src/com/amitrai/lox/Parser.java:22-24 | the loop ends at EOF and keeps the statements gathered so far; at EOF they are the result; otherwise the next entry is `declaration()` at the cursor |
| Parser.Parser.constructor | src/com/amitrai/lox/Parser.java:16-18 | the parser starts at position 0 with no diagnostics |
| Parser.Parser.Parse | src/com/amitrai/lox/Parser.java:20-26 | the loop's result and final state equal `Grammar.ParseLoop` |
| Parser.Parser.Expression | src/com/amitrai/lox/Parser.java:29-31 | the result and the new cursor equal `Grammar.Expression` |
| Parser.Parser.Assignment | src/com/amitrai/lox/Parser.java:34-46 | the result and the new cursor equal `Grammar.Assignment` |
| Parser.Parser.AssignTarget | src/com/amitrai/lox/Parser.java:36-45 | equals `Grammar.AssignTarget` |
| Parser.Parser.Level | src/com/amitrai/lox/Parser.java:49-112 | the `while (match(...))` loop equals `Grammar.Level` |
| Parser.Parser.Operand | src/com/amitrai/lox/Parser.java:49-112 | equals `Grammar.Operand` |
| Parser.Parser.UnaryExpr | src/com/amitrai/lox/Parser.java:115-122 | equals `Grammar.UnaryExpr` |
| Parser.Parser.Primary | src/com/amitrai/lox/Parser.java:125-144 | equals `Grammar.Primary` |
| Parser.Parser.Declaration | src/com/amitrai/lox/Parser.java:146-154 | equals `Grammar.Declaration`; a caught error synchronises |
| Parser.Parser.VarDeclaration | src/com/amitrai/lox/Parser.java:156-164 | equals `Grammar.VarDeclaration` |
| Parser.Parser.VarInitializer | src/com/amitrai/lox/Parser.java:158-163 | equals `Grammar.VarInitializer` |
| Parser.Parser.Statement | src/com/amitrai/lox/Parser.java:167-172 | equals `Grammar.Statement` |
| Parser.Parser.IfStatement | src/com/amitrai/lox/Parser.java:174-184 | equals `Grammar.IfStatement` |
| Parser.Parser.IfBranches | src/com/amitrai/lox/Parser.java:178-183 | equals `Grammar.IfBranches` |
| Parser.Parser.ElseBranch | src/com/amitrai/lox/Parser.java:179-183 | equals `Grammar.ElseBranch` |
| Parser.Parser.PrintStatement | src/com/amitrai/lox/Parser.java:186-190 | equals `Grammar.PrintStatement` |
| Parser.Parser.ExpressionStatement | src/com/amitrai/lox/Parser.java:192-196 | equals `Grammar.ExpressionStatement` |
| Parser.Parser.BlockStatement | src/com/amitrai/lox/Parser.java:198-205 | the loop equals `Grammar.BlockStatement` |
| Parser.Parser.Match | src/com/amitrai/lox/Parser.java:207-215 | trying the kinds one at a time equals `Grammar.Match` |
| Parser.Parser.Advance | src/com/amitrai/lox/Parser.java:217-222 | equals `Grammar.Advance` |
| Parser.Parser.Consume | src/com/amitrai/lox/Parser.java:241-244 | equals `Grammar.Consume` |
| Parser.Parser.Error | src/com/amitrai/lox/Parser.java:246-249 | the cursor afterwards is `Grammar.Report` of the one before |
| Parser.Parser.Synchronize | src/com/amitrai/lox/Parser.java:251-271 | the loop equals `Grammar.Synchronize` |
| GrammarFacts.NoMatch | src/com/amitrai/lox/Parser.java:207-215 | a kind outside the set is not matched and nothing moves |
| GrammarFacts.YesMatch | src/com/amitrai/lox/Parser.java:207-215 | a kind in the set, before EOF, is matched and consumed |
| GrammarFacts.OperatorMatches | src/com/amitrai/lox/Parser.java:49-112 | an operator of level `k` is matched by that level's loop test |
| GrammarFacts.LevelOfName | src/com/amitrai/lox/Parser.java:49-112 | an identifier followed by no operator of level `k` or tighter is the whole result of level `k` |
| GrammarFacts.OperandOfName | src/com/amitrai/lox/Parser.java:49-112 | the same for the operand of level `k` |
| GrammarFacts.LevelLift | src/com/amitrai/lox/Parser.java:49-112 | a finished tighter level followed by no operator is also the result of every looser level |
| GrammarFacts.LoopTurn | src/com/amitrai/lox/Parser.java:51-55 | one loop turn consumes an operator and an operand and builds the left-nested node |
| GrammarFacts.NameTurn | src/com/amitrai/lox/Parser.java:51-55 | a loop turn whose operand is a name folds it in |
| GrammarFacts.LastTurn | src/com/amitrai/lox/Parser.java:51-56 | the last loop turn returns the folded node |
| GrammarFacts.NameOpName | src/com/amitrai/lox/Parser.java:49-112 | `a op b` with an operator of level `k` is one node of level `k` |
| GrammarFacts.TermIsLeftAssociativeExample | src/com/amitrai/lox/Parser.java:93-101 | `x a y b z` with `a`, `b` each `+` or `-` parses as `(x a y) b z`, folding to the left |
| GrammarFacts.FactorBindsTighterThanTermExample | src/com/amitrai/lox/Parser.java:93-112 | `x + y * z` parses as `x + (y * z)` |
| GrammarFacts.AndBindsTighterThanOrExample | src/com/amitrai/lox/Parser.java:49-68 | `x or y and z` parses as `x or (y and z)`, with `Logical` nodes |
| GrammarFacts.AssignmentIsRightAssociative | src/com/amitrai/lox/Parser.java:34-46 | `x = y = z` parses as `x = (y = z)` |
| GrammarFacts.ValidTargetAssigns | src/com/amitrai/lox/Parser.java:34-42 | for every input, an identifier followed by `=` parses as an assignment to it whose value is the whole `assignment()` that follows |
| GrammarFacts.InvalidTargetIsReported | src/com/amitrai/lox/Parser.java:36-45 | for every input, `=` after a target that is not a variable reports "Invalid assignment target." once at the `=`, throws nothing, and returns the target |
| GrammarFacts.InvalidAssignmentTarget | src/com/amitrai/lox/Parser.java:39-45 | `x + y = z` reports "Invalid assignment target." without throwing and keeps the left side |
| GrammarFacts.UnaryDispatch | src/com/amitrai/lox/Parser.java:114-121 | on `!` or `-` the result is a unary node of that operator over the `unary()` that follows, or that operand's error; on any other token it is exactly `primary()` |
| GrammarFacts.PrimaryOfToken | src/com/amitrai/lox/Parser.java:125-143 | `false`, `true` and `nil` give those literal values, a number or string token its own literal, a name a variable; each consumes that one token; a token no expression starts with reports "Expect expression" and throws |
| GrammarFacts.PrimaryGrouping | src/com/amitrai/lox/Parser.java:138-142 | on `(` the group holds the `expression()` after it and the `)` that follows is consumed; a missing `)` reports "Expect ')' after expression." at the token found and throws; an error inside is passed on |
| GrammarFacts.UnaryRejects | src/com/amitrai/lox/Parser.java:115-143 | a token no expression starts with throws "Expect expression" at that token |
| GrammarFacts.LevelRejects | src/com/amitrai/lox/Parser.java:49-112 | that error passes unchanged through every binary level |
| GrammarFacts.ExpressionRejects | src/com/amitrai/lox/Parser.java:29-46 | and through `assignment()` and `expression()` |
| GrammarFacts.RecoversAfterStraySemicolon | src/com/amitrai/lox/Parser.java:146-154 | `; print x;` yields a `null` statement, then the print statement, with one diagnostic |
| GrammarFacts.StatementDispatch | src/com/amitrai/lox/Parser.java:167-172 | for every input, `statement()` is `ifStatement()`, `printStatement()` or `blockStatement()` after `if`, `print` or `{`, and `expressionStatement()` on any other token |
| GrammarFacts.DeclarationOfVar | src/com/amitrai/lox/Parser.java:146-154 | for every input starting with `var`, `declaration()` passes on what `varDeclaration()` built, or yields `null` and resumes where `synchronize()` stops when it threw |
| GrammarFacts.DeclarationOfStatement | src/com/amitrai/lox/Parser.java:146-154 | the same for any other token and `statement()` |
| GrammarFacts.ParseLoopTurn | src/com/amitrai/lox/Parser.java:22-24 | one turn of the loop appends `declaration()` at the cursor and goes on from where it stopped |
| GrammarFacts.ParseLoopAppends | src/com/amitrai/lox/Parser.java:20-26 | the entries the loop adds do not depend on those gathered before |
| GrammarFacts.ParseUnrolls | src/com/amitrai/lox/Parser.java:20-26 | before EOF, the statement list is `declaration()` at the cursor (`null` after a syntax error) followed by the list parsed from where it stopped |
| GrammarFacts.BlockLoopTurn | src/com/amitrai/lox/Parser.java:200-202 | one turn of the block loop appends `declaration()` at the cursor and goes on from where it stopped |
| GrammarFacts.BlockLoopAppends | src/com/amitrai/lox/Parser.java:198-205 | the entries the block loop adds, and whether it throws, do not depend on those gathered before |
| GrammarFacts.BlockUnrolls | src/com/amitrai/lox/Parser.java:198-205 | before `}` and EOF, a block is `declaration()` at the cursor followed by the entries of the block parsed from where it stopped |
| Environment.LookupIsInnermost | src/com/amitrai/lox/Interpreter.java:163-165 | lookup fails exactly when no scope binds the name; otherwise it finds the innermost binding |
| Environment.Innermost | src/com/amitrai/lox/Interpreter.java:163-172 | the index of the innermost scope binding a name: it binds the name, no later scope does, it is -1 exactly when no scope does, and lookup yields its binding |
| Environment.Define | src/com/amitrai/lox/Interpreter.java:153-160 | binds in the current scope only; every outer scope is unchanged |
| Environment.DefineLeavesOthers | src/com/amitrai/lox/Interpreter.java:158 | a definition leaves what every other name looks up to unchanged |
| Environment.Get | src/com/amitrai/lox/Interpreter.java:163-165 | fails with an undefined-variable error exactly when no scope binds the name, else yields the innermost binding |
| Environment.Assign | src/com/amitrai/lox/Interpreter.java:168-172 | succeeds exactly when the name is bound; the new chain is the old one with only the innermost binding of the name overwritten, so shadowed outer bindings keep their values; an unbound name gives the undefined-variable error |
| Semantics.IsTruthy | src/com/amitrai/lox/Interpreter.java:116-120 | `nil` and `false` are falsy and every other value is truthy |
| Semantics.IsEqual | src/com/amitrai/lox/Interpreter.java:122-126 | two values are equal exactly when they are the same value: `nil` equals only `nil` and kinds never mix |
| Semantics.CheckNumberOperand | src/com/amitrai/lox/Interpreter.java:128-131 | passes exactly on a number, else the error "Operand must be number." |
| Semantics.CheckNumberOperands | src/com/amitrai/lox/Interpreter.java:132-135 | passes exactly when both are numbers, else the error "Operands must be number." |
| Semantics.EvalUnary | src/com/amitrai/lox/Interpreter.java:87-97 | `!` negates truthiness; `-` succeeds exactly on a number and yields its negation |
| Semantics.EvalBinary | src/com/amitrai/lox/Interpreter.java:34-74 | comparisons and arithmetic succeed exactly on two numbers, with the value of each operator (`Quotient` for `/`), and otherwise fail with the operands message; `+` adds numbers or concatenates strings and otherwise fails with its message; `==`/`!=` are value equality and its negation |
| Semantics.ShortCircuitsAsWritten | src/com/amitrai/lox/Interpreter.java:205-209 | the test `visitLogicalExpr` performs is truthiness of the left operand whatever the operator, which for `and` is the opposite of the intended test |
| Tokens.ObjectText | src/com/amitrai/lox/Interpreter.java:145 | `true` and `false` print as those words, a string as itself, a number as `Double.toString` of it |
| Semantics.StripPointZero | src/com/amitrai/lox/Interpreter.java:139-142 | removes exactly a trailing `.0`, else leaves the text |
| Semantics.Stringify | src/com/amitrai/lox/Interpreter.java:136-146 | `nil` prints as `nil`, booleans as `true`/`false`, strings raw; a number prints as `Double.toString` with a trailing `.0` removed exactly when there is one |
| Semantics.Eval | src/com/amitrai/lox/Interpreter.java:77-84 | keeps the number of scopes; an expression without assignment changes no scope; literals and variables yield their value; a successful assignment leaves the name bound to the result |
| Semantics.VisitAssign | src/com/amitrai/lox/Interpreter.java:168-172 | a successful assignment yields the value of its right-hand side and leaves the name bound to it; an unbound name fails with the undefined-variable error after the right-hand side is evaluated; the error of the right-hand side and the new scopes are stated by `SemanticsFacts.AssignEvaluates` |
| Semantics.VisitUnary | src/com/amitrai/lox/Interpreter.java:87-97 | keeps the number of scopes; without assignment in the operand no scope changes; its value is stated by `SemanticsFacts.UnaryEvaluates` |
| Semantics.VisitBinary | src/com/amitrai/lox/Interpreter.java:34-37 | keeps the number of scopes, and changes none without assignment in either operand; its order and value are stated by `SemanticsFacts.BinaryEvaluatesLeftFirst` |
| Semantics.VisitLogical | src/com/amitrai/lox/Interpreter.java:203-211 | keeps the number of scopes, and changes none when neither operand assigns; the rule it runs is stated by the `Logical` lemmas of `SemanticsFacts` |
| Semantics.Completion | src/com/amitrai/lox/Interpreter.java:100-103 | a statement ends normally exactly when its expression evaluated, else with that error |
| Semantics.Exec | src/com/amitrai/lox/Interpreter.java:148-200 | keeps the number of scopes; printed lines are only appended; a completed `var` binds its name in the current scope; a statement free of `null` never crashes; one without `while` never runs out of fuel; the rule of each statement is a lemma of `SemanticsFacts` |
| Semantics.ExecFrom | src/com/amitrai/lox/Interpreter.java:184-186 | the same for a statement list run in order, stopping at the first abnormal outcome |
| Semantics.ExecWhile | src/com/amitrai/lox/Interpreter.java:214-219 | keeps the number of scopes, only appends printed lines, and never crashes when the body is free of `null`; the loop rule itself is stated by `SemanticsFacts.WhileLoops` |
| SemanticsFacts.TruthinessFacts | src/com/amitrai/lox/Interpreter.java:116-120 | `nil` and `false` are the only falsy values; `0` and `""` are truthy |
| SemanticsFacts.NotEqualNegatesEqual | src/com/amitrai/lox/Interpreter.java:68-71 | `!=` always yields the negation of `==` |
| SemanticsFacts.LogicalValue | src/com/amitrai/lox/Interpreter.java:203-211 | under the intended rule, `and`/`or` on booleans are conjunction and disjunction |
| SemanticsFacts.LogicalValueAsWritten | src/com/amitrai/lox/Interpreter.java:203-211 | as written: a truthy left operand is the result, else the right operand, for both operators |
| SemanticsFacts.AndAsWrittenIsWrong | src/com/amitrai/lox/Interpreter.java:207-209 | as written, `true and false` yields `true`; the intended rule yields `false` |
| SemanticsFacts.OrAsWrittenIsIntended | src/com/amitrai/lox/Interpreter.java:205-206 | for `or` the as-written and conventional rules agree on every pair of values |
| SemanticsFacts.AndAsWrittenDiffers | src/com/amitrai/lox/Interpreter.java:207-209 | for `and` the two rules agree exactly when both operands are the same value |
| SemanticsFacts.AndEvaluatesLikeOr | src/com/amitrai/lox/Interpreter.java:203-211 | as written, `a and b` evaluates exactly like `a or b`, in value, scopes and errors |
| SemanticsFacts.LogicalIgnoresRight | src/com/amitrai/lox/Interpreter.java:203-209 | a truthy left operand is the result, and the right operand, whatever it is, is never evaluated |
| SemanticsFacts.LogicalFallsThrough | src/com/amitrai/lox/Interpreter.java:210 | a falsy left operand hands the node to the right operand, evaluated in the scopes the left one left |
| SemanticsFacts.LogicalLeftError | src/com/amitrai/lox/Interpreter.java:204 | an error in the left operand is the node's error |
| SemanticsFacts.LogicalComputesAsWritten | src/com/amitrai/lox/Interpreter.java:203-211 | when both operands evaluate, the result is `LogicalValueAsWritten` of their values |
| SemanticsFacts.FalseAndUnboundRaises | src/com/amitrai/lox/Interpreter.java:203-211 | `false and y` with `y` unbound raises the undefined-variable error, because the right operand is evaluated |
| SemanticsFacts.LogicalOfLiterals | src/com/amitrai/lox/Interpreter.java:203-211 | on literals a logical node yields `LogicalValueAsWritten` and changes no scope |
| SemanticsFacts.GroupingEvaluates | src/com/amitrai/lox/Interpreter.java:77-79 | a parenthesised expression has the value and the effect on the scopes of the expression inside |
| SemanticsFacts.UnaryEvaluates | src/com/amitrai/lox/Interpreter.java:87-97 | the operand's error is the result; otherwise the result is `EvalUnary` of its value, in the scopes it left |
| SemanticsFacts.BinaryEvaluatesLeftFirst | src/com/amitrai/lox/Interpreter.java:34-74 | the left operand is evaluated first and its error ends the evaluation; the right one runs in the scopes the left left; its error is next; otherwise the result is `EvalBinary` of the two values |
| SemanticsFacts.LeftOperandFirstExample | src/com/amitrai/lox/Interpreter.java:34-37 | with `x` bound to 1, `x + (x = 2)` yields 3 and `(x = 2) + x` yields 4 |
| SemanticsFacts.AssignEvaluates | src/com/amitrai/lox/Interpreter.java:168-172 | the right-hand side's error is the result; an unbound name is the undefined-variable error; otherwise only the innermost binding of the name is overwritten and the value is the result |
| SemanticsFacts.VarWithoutInitializer | src/com/amitrai/lox/Interpreter.java:153-160 | `var x;` binds `nil` in the current scope, leaves every other name and every outer scope unchanged, and prints nothing |
| SemanticsFacts.VarWithInitializer | src/com/amitrai/lox/Interpreter.java:153-160 | `var x = e;` binds the value of `e` and leaves other names as `e` left them, or raises `e`'s error; it prints nothing |
| SemanticsFacts.PrintWrites | src/com/amitrai/lox/Interpreter.java:106-110 | `print e;` appends exactly one line, the `stringify` of the value of `e`, or raises `e`'s error and prints nothing |
| SemanticsFacts.ExpressionStatementRuns | src/com/amitrai/lox/Interpreter.java:100-103 | an expression statement evaluates its expression once, keeps the scopes it left, discards the value, and raises its error |
| SemanticsFacts.WhileLoops | src/com/amitrai/lox/Interpreter.java:214-219 | a `while` statement runs the loop; out of fuel it stops; otherwise the condition's error is raised, a falsy condition ends the loop normally, and a truthy one runs the body on one less fuel and goes round again exactly when the body ended normally, else ends with the body's outcome |
| SemanticsFacts.IfRunsOneBranch | src/com/amitrai/lox/Interpreter.java:193-200 | the condition's error is raised; a truthy condition runs the then branch, a falsy one the else branch or nothing, in the scopes the condition left |
| SemanticsFacts.ExecFromSuffix | src/com/amitrai/lox/Interpreter.java:184-186 | running a concatenation from inside its second part is running the second part |
| SemanticsFacts.ExecFromAppend | src/com/amitrai/lox/Interpreter.java:184-186 | running `a + b` is running `a`, then `b` only if `a` ended normally |
| SemanticsFacts.HaltsAtFirstError | src/com/amitrai/lox/Interpreter.java:23-31 | statements after one that raised a runtime error never run |
| SemanticsFacts.UndefinedVariableHalts | src/com/amitrai/lox/Interpreter.java:163-165 | printing an unbound name raises the undefined-variable error and changes nothing |
| SemanticsFacts.EvalKeepsNames | src/com/amitrai/lox/Interpreter.java:163-172 | evaluation never adds or removes a name in any scope |
| SemanticsFacts.ExecGrows | src/com/amitrai/lox/Interpreter.java:148-200 | a statement only adds names to the current scope; a block leaves every scope binding the same names |
| SemanticsFacts.BlockKeepsShape | src/com/amitrai/lox/Interpreter.java:175-190 | the pushed scope is popped on every exit, so each scope binds the names it bound before |
| SemanticsFacts.ExecFromGrows | src/com/amitrai/lox/Interpreter.java:184-186 | the same growth property for a statement list |
| SemanticsFacts.ExecWhileGrows | src/com/amitrai/lox/Interpreter.java:214-219 | the same for a `while` loop |
| SemanticsFacts.DefineGrows | src/com/amitrai/lox/Interpreter.java:158 | `define` only adds to the current scope |
| SemanticsFacts.ExecLeavesOuterScopes | src/com/amitrai/lox/Interpreter.java:148-200 | without assignments a statement leaves every outer scope unchanged, and a block changes no scope at all |
| SemanticsFacts.ExecFromLeavesOuterScopes | src/com/amitrai/lox/Interpreter.java:184-186 | the same for a statement list |
| SemanticsFacts.ExecWhileLeavesOuterScopes | src/com/amitrai/lox/Interpreter.java:214-219 | the same for a `while` loop |
| SemanticsFacts.ShadowingExample | src/com/amitrai/lox/Interpreter.java:175-190 | `var x = 1; { var x = 2; print x; } print x;` prints `2` then `1` |
| SemanticsFacts.AssignInBlockExample | src/com/amitrai/lox/Interpreter.java:168-190 | `var x = 1; { x = 2; } print x;` prints `2` |
| Interpreter.Interpreter.constructor | src/com/amitrai/lox/Interpreter.java:21 | starts with one empty global scope and nothing printed or reported |
| Interpreter.Interpreter.Interpret | src/com/amitrai/lox/Interpreter.java:23-31 | the loop's outcome and final state equal `Semantics.ExecFrom`; a runtime error is reported exactly once |
| Interpreter.Interpreter.Evaluate | src/com/amitrai/lox/Interpreter.java:112-114 | the result and new scopes equal `Semantics.Eval`; nothing is printed or reported |
| Interpreter.Interpreter.Execute | src/com/amitrai/lox/Interpreter.java:148-150 | outcome and new state equal `Semantics.Exec` |
| Interpreter.Interpreter.ExecuteBlock | src/com/amitrai/lox/Interpreter.java:180-190 | equals `Semantics.Exec` of the block, with the enclosing scopes restored however the block ends |
| Interpreter.Interpreter.ExecuteWhile | src/com/amitrai/lox/Interpreter.java:214-219 | the loop equals `Semantics.ExecWhile` |
| Interpreter.Interpreter.Iteration | src/com/amitrai/lox/Interpreter.java:215-216 | one iteration either finishes the loop as `ExecWhile` says or leaves a state from which `ExecWhile` with one less fuel gives the same result |
| Lox.ParsedProgramsRunToCompletion | src/com/amitrai/lox/Parser.java:20-26 | a program that parses without diagnostics never crashes and never runs out of fuel when interpreted |
| Lox.StraySemicolonProgramCrashes | src/com/amitrai/lox/Interpreter.java:23-31 | `; print x;` parses with one diagnostic, and running it crashes on the `null` statement before printing |
| AstPrinter.Print | src/com/amitrai/lox/ASTPrinter.java:13-65 | yields `null` exactly for variables, assignments and logical nodes; `nil` for a nil literal; a parenthesised text for the other nodes |
| AstPrinter.Appended | src/com/amitrai/lox/ASTPrinter.java:43 | a text is appended as itself, a `null` as the four letters `null` (see `AstPrinter.NestedStubExample`) |
| AstPrinter.TwoArgs | src/com/amitrai/lox/ASTPrinter.java:38-47 | two parts print as `(name a b)` |
| AstPrinter.Parenthesize | src/com/amitrai/lox/ASTPrinter.java:38-47 | `(`, the name, then `Args(parts)` (one space before each part), then `)`, with its length |
| AstPrinter.Args | src/com/amitrai/lox/ASTPrinter.java:41-44 | one space per part plus the parts' lengths |
| AstPrinter.ArgsAppend | src/com/amitrai/lox/ASTPrinter.java:41-44 | the parts are appended in argument order |
| AstPrinter.ArgsHoldsEachPart | src/com/amitrai/lox/ASTPrinter.java:41-44 | each part appears right after its own space, in order |
| AstPrinter.BinaryText | src/com/amitrai/lox/ASTPrinter.java:17-20 | a binary node prints as `(op left right)` |
| AstPrinter.GroupingText | src/com/amitrai/lox/ASTPrinter.java:22-25 | a grouping prints as `(group inner)` |
| AstPrinter.UnaryText | src/com/amitrai/lox/ASTPrinter.java:33-36 | a unary node prints as `(op operand)` |
| AstPrinter.LiteralText | src/com/amitrai/lox/ASTPrinter.java:27-31 | a non-nil literal prints as its value's `toString()`, without the `.0` stripping |
| AstPrinter.PrintBalanced | src/com/amitrai/lox/ASTPrinter.java:38-47 | when no lexeme or literal text contains a parenthesis, the output opens as many parentheses as it closes |
| AstPrinter.BalancedWrap | src/com/amitrai/lox/ASTPrinter.java:38-47 | wrapping balanced parts keeps the text balanced |
| AstPrinter.NegationExample | src/com/amitrai/lox/ASTPrinter.java:33-36 | `-123` prints as `(- 123.0)` |
| AstPrinter.GroupExample | src/com/amitrai/lox/ASTPrinter.java:22-25 | `(45.67)` prints as `(group 45.67)` |
| AstPrinter.SumExample | src/com/amitrai/lox/ASTPrinter.java:17-20 | `1 + 2` prints as `(+ 1.0 2.0)` |
| AstPrinter.NestedStubExample | src/com/amitrai/lox/ASTPrinter.java:49-53 | a variable nested in a grouping prints as `(group null)` |

## Left out

- Numbers are mathematical reals, not IEEE doubles. Rounding, infinities, NaN and `-0.0` are not modelled. `==` on numbers is real equality. `Double.equals` differs from it on exactly those values: NaN equals NaN, and `0.0` does not equal `-0.0`.
- Semantics.Quotient: division by zero yields `0` where Java yields an infinity or NaN.
- `Double.toString` and `toString()` are parameters (`dt`). The exact decimal text of a number is not modelled.
- Semantics.ExecWhile: a `while` loop runs at most `fuel` iterations and then ends with `OutOfFuel`. A loop that never terminates is not captured beyond that bound.
- Environment.java is not part of this model. `define`, `get` and `assign` are modelled from their uses in the interpreter. The undefined-variable error carries the name token but not its message text.
- Lox.java is not part of this model. Diagnostics go to a list (`errors` of the parser, `reported` of the interpreter) instead of `Lox.error` and `Lox.runtimeError`, and `hadError` is not modelled.
- The scanner, `Token.java`, `TokenType.java`, `Expr.java` and `Stmt.java` are not part of this model. The token and tree types are written out from the field lists in `GenerateAST.java`.
- The output of `System.out.println` is a list of lines in the interpreter's state.
- Semantics.Eval: its own contract states only depth, purity without assignment, the literal and variable cases, and the assignment result. The value of each other node is stated by lemmas of `SemanticsFacts`: `GroupingEvaluates`, `UnaryEvaluates`, `BinaryEvaluatesLeftFirst`, `AssignEvaluates` and the `Logical` lemmas. `SemanticsFacts.EvalKeepsNames` states that names are preserved.
- Semantics.VisitAssign: its own contract does not state the error of a failing right-hand side or the new scopes. `SemanticsFacts.AssignEvaluates` states both about `Eval` of an assignment. Keeping them out of the function's contract keeps small the proofs that unfold `Eval` inside loops.
- Semantics.VisitUnary: its own contract does not state its value. `SemanticsFacts.UnaryEvaluates` states it, for the same reason.
- Semantics.VisitBinary: its own contract states neither the order of evaluation nor the value. `SemanticsFacts.BinaryEvaluatesLeftFirst` states both, for the same reason.
- Semantics.Exec: its own contract states only depth, append-only output, the binding of `var`, and when it cannot crash or run out of fuel. What each kind of statement does is stated by lemmas of `SemanticsFacts`: `ExpressionStatementRuns`, `VarWithoutInitializer`, `VarWithInitializer`, `PrintWrites`, `IfRunsOneBranch`, `WhileLoops` and `ExecFromAppend`.
- Grammar.Match: takes a set of kinds rather than an ordered argument list. Since at most one kind can equal the current token's kind, the order of the tests does not change the result.
- AstPrinter.Parenthesize: takes the already rendered texts of the sub-expressions rather than the sub-expressions themselves. `AstPrinter.Print` renders them in argument order, as the loop does.
- A `null` where Java would hold it inside an expression (`new Literal(null)`) is the `Nil` value. A `null` statement is `None`.
- Java's call stack is unbounded here. A `StackOverflowError` on deeply nested input is not modelled.

## Findings

| source | as written | input that shows it | evidently intended | confidence | as-written member | corrected member |
|---|---|---|---|---|---|---|
| src/com/amitrai/lox/Interpreter.java:205-209 | both branches return the left operand when it is truthy, so `and` short-circuits like `or` | `true and false` yields `true` | `and` returns a falsy left operand and otherwise the right operand, so `true and false` yields `false`; the evaluator keeps the code's behaviour and the intended rule is the reference definition | not executed | SemanticsFacts.AndAsWrittenIsWrong | SemanticsFacts.LogicalValue |
