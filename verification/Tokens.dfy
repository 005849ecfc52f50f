/**
 * Runtime values and the tokens the scanner hands to the parser.
 * The scanner, Token.java and TokenType.java are not part of this model; the
 * token kinds below are the ones the parser and interpreter mention, plus the
 * punctuation and keywords a Lox scanner also produces.
 */
module Tokens {

  /** A Lox value: what Java holds as `null`, `Boolean`, `Double` or `String`. */
  datatype Value = Nil | Bool(b: bool) | Num(n: real) | Str(s: string)

  /**
   * Java's `toString()` of a non-null value. `dt` stands for `Double.toString`,
   * which lives in the JDK and is not modelled.
   */
  function ObjectText(v: Value, dt: real -> string): (r: string)
    requires !v.Nil?
    ensures v == Bool(true) ==> r == "true"
    ensures v == Bool(false) ==> r == "false"
    ensures v.Num? ==> r == dt(v.n)
    ensures v.Str? ==> r == v.s
  {
    match v
    case Bool(b) => if b then "true" else "false"
    case Num(n) => dt(n)
    case Str(s) => s
  }

  datatype TokenType =
    // single-character punctuation
    | LEFT_PAREN | RIGHT_PAREN | LEFT_BRACE | RIGHT_BRACE
    | COMMA | DOT | MINUS | PLUS | SEMICOLON | SLASH | STAR
    // one- or two-character operators
    | BANG | BANG_EQUAL | EQUAL | EQUAL_EQUAL
    | GREATER | GREATER_EQUAL | LESS | LESS_EQUAL
    // literals
    | IDENTIFIER | STRING | NUMBER
    // keywords
    | AND | CLASS | ELSE | FALSE | FUN | FOR | IF | NIL | OR
    | PRINT | RETURN | SUPER | THIS | TRUE | VAR | WHILE
    | EOF

  /** `literal` is the decoded value of a NUMBER or STRING token and `Nil` otherwise. */
  datatype Token = Token(kind: TokenType, lexeme: string, literal: Value, line: int)

  /** What the parser is given: a token list whose last token is EOF. */
  predicate WellFormed(ts: seq<Token>) {
    |ts| > 0 && ts[|ts| - 1].kind == EOF
  }
}
