/**
 * The syntax trees the parser builds and the interpreter walks, one
 * constructor per node class of the generated `Expr` and `Stmt` hierarchies.
 * The visitor double dispatch of the Java code becomes `match`.
 */
module Ast {
  import opened Wrappers
  import opened Tokens

  datatype Expr =
    | Assign(name: Token, value: Expr)
    | Binary(left: Expr, operator: Token, right: Expr)
    | Logical(left: Expr, operator: Token, right: Expr)
    | Grouping(expression: Expr)
    | Literal(literal: Value)
    | Unary(operator: Token, right: Expr)
    | Variable(name: Token)

  /**
   * A `Block` keeps whatever `declaration()` returned, and that may be `null`
   * after a syntax error; an `If` may lack its else branch and a `Var` its
   * initializer.
   */
  datatype Stmt =
    | Block(statements: seq<Option<Stmt>>)
    | Expression(expression: Expr)
    | If(condition: Expr, thenBranch: Stmt, elseBranch: Option<Stmt>)
    | Print(expression: Expr)
    | Var(name: Token, initializer: Option<Expr>)
    | While(condition: Expr, body: Stmt)

  /** No `null` anywhere in the tree: what a parse without syntax errors yields. */
  predicate NullFree(s: Stmt) {
    match s
    case Block(ss) => forall i :: 0 <= i < |ss| ==> ss[i].Some? && NullFree(ss[i].value)
    case If(_, t, e) => NullFree(t) && (e.Some? ==> NullFree(e.value))
    case While(_, body) => NullFree(body)
    case _ => true
  }

  /** Whether a `While` node occurs anywhere in the tree. */
  predicate HasWhile(s: Stmt) {
    match s
    case Block(ss) => exists i :: 0 <= i < |ss| && ss[i].Some? && HasWhile(ss[i].value)
    case If(_, t, e) => HasWhile(t) || (e.Some? && HasWhile(e.value))
    case While(_, _) => true
    case _ => false
  }

  /** No element of a statement list contains a `While`. */
  predicate NoneHasWhile(ss: seq<Option<Stmt>>) {
    forall i :: 0 <= i < |ss| && ss[i].Some? ==> !HasWhile(ss[i].value)
  }

  /** Every element of a statement list is present and free of `null`. */
  predicate AllNullFree(ss: seq<Option<Stmt>>) {
    forall i :: 0 <= i < |ss| ==> ss[i].Some? && NullFree(ss[i].value)
  }

  /** Whether an assignment occurs anywhere in the expression. */
  predicate ExprAssigns(e: Expr) {
    match e
    case Assign(_, _) => true
    case Binary(l, _, r) => ExprAssigns(l) || ExprAssigns(r)
    case Logical(l, _, r) => ExprAssigns(l) || ExprAssigns(r)
    case Grouping(inner) => ExprAssigns(inner)
    case Unary(_, r) => ExprAssigns(r)
    case _ => false
  }

  /** Whether an assignment occurs anywhere in the statement. */
  predicate StmtAssigns(s: Stmt) {
    match s
    case Block(ss) => exists i :: 0 <= i < |ss| && ss[i].Some? && StmtAssigns(ss[i].value)
    case Expression(e) => ExprAssigns(e)
    case If(c, t, e) => ExprAssigns(c) || StmtAssigns(t) || (e.Some? && StmtAssigns(e.value))
    case Print(e) => ExprAssigns(e)
    case Var(_, init) => init.Some? && ExprAssigns(init.value)
    case While(c, body) => ExprAssigns(c) || StmtAssigns(body)
  }
}
