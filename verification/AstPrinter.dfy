/**
 * The debugging printer that renders an expression tree as fully
 * parenthesised prefix text. Only the arithmetic nodes are implemented; the
 * `Variable`, `Assign` and `Logical` visits return `null`, which is `None`
 * here. Nested inside another node such a `null` is appended by
 * `StringBuilder`, which writes it as the four letters `null`.
 */
module AstPrinter {
  import opened Wrappers
  import opened Tokens
  import opened Ast

  /** `print(expr)`. `dt` stands for `Double.toString`. */
  function Print(e: Expr, dt: real -> string): (r: Option<string>)
    ensures r.None? <==> e.Variable? || e.Assign? || e.Logical?
    ensures e.Literal? && e.literal.Nil? ==> r == Some("nil")
    ensures (e.Binary? || e.Grouping? || e.Unary?) ==>
      r.Some? && |r.value| >= 2 && r.value[0] == '(' && r.value[|r.value| - 1] == ')'
  {
    match e
    case Binary(l, op, rt) => Some(Parenthesize(op.lexeme, [Appended(Print(l, dt)), Appended(Print(rt, dt))]))
    case Grouping(inner) => Some(Parenthesize("group", [Appended(Print(inner, dt))]))
    case Literal(v) => Some(if v.Nil? then "nil" else ObjectText(v, dt))
    case Unary(op, rt) => Some(Parenthesize(op.lexeme, [Appended(Print(rt, dt))]))
    case Variable(_) => None
    case Assign(_, _) => None
    case Logical(_, _, _) => None
  }

  /** What `StringBuilder.append` writes for a `String` that may be `null`. */
  function Appended(s: Option<string>): (r: string)
    ensures s.Some? ==> r == s.value
    ensures s.None? ==> r == "null"
  {
    if s.None? then "null" else s.value
  }

  /**
   * `paranthesize(name, exprs...)`, given the text of each sub-expression in
   * argument order: an opening parenthesis, the name, each part preceded by
   * one space, a closing parenthesis.
   */
  function Parenthesize(name: string, parts: seq<string>): (r: string)
    ensures |r| == |name| + 2 + |parts| + TotalLength(parts)
    ensures r[0] == '(' && r[1..|name| + 1] == name && r[|r| - 1] == ')'
    ensures r[|name| + 1..|r| - 1] == Args(parts)
  {
    var r := "(" + name + Args(parts) + ")";
    assert r[|name| + 1..|r| - 1] == Args(parts);
    r
  }

  /** The loop of `paranthesize`: a space before each part. */
  function Args(parts: seq<string>): (r: string)
    ensures |r| == |parts| + TotalLength(parts)
  {
    if |parts| == 0 then "" else " " + parts[0] + Args(parts[1..])
  }

  function TotalLength(parts: seq<string>): nat {
    if |parts| == 0 then 0 else |parts[0]| + TotalLength(parts[1..])
  }

  /** The loop appends in argument order: the text of a concatenation is the concatenation of the texts. */
  lemma {:induction false} ArgsAppend(a: seq<string>, b: seq<string>)
    ensures Args(a + b) == Args(a) + Args(b)
    decreases |a|
  {
    if |a| > 0 {
      assert (a + b)[0] == a[0] && (a + b)[1..] == a[1..] + b;
      ArgsAppend(a[1..], b);
    } else {
      assert a + b == b;
    }
  }

  /** Each part appears in the output right after its own space and in argument order. */
  lemma {:induction false} ArgsHoldsEachPart(parts: seq<string>, i: nat)
    requires i < |parts|
    ensures Args(parts) == Args(parts[..i]) + " " + parts[i] + Args(parts[i + 1..])
  {
    assert parts == parts[..i] + ([parts[i]] + parts[i + 1..]);
    ArgsAppend(parts[..i], [parts[i]] + parts[i + 1..]);
    assert ([parts[i]] + parts[i + 1..])[1..] == parts[i + 1..];
  }

  /** A binary node prints as its operator's lexeme followed by both operands. */
  lemma BinaryText(l: Expr, op: Token, rt: Expr, dt: real -> string)
    ensures Print(Binary(l, op, rt), dt)
         == Some("(" + op.lexeme + " " + Appended(Print(l, dt)) + " " + Appended(Print(rt, dt)) + ")")
  {
    var a, b := Appended(Print(l, dt)), Appended(Print(rt, dt));
    TwoArgs(op.lexeme, a, b);
    assert Print(Binary(l, op, rt), dt) == Some(Parenthesize(op.lexeme, [a, b]));
  }

  /** Two parts, each after its own space, inside `(name ...)`. */
  lemma TwoArgs(name: string, a: string, b: string)
    ensures Parenthesize(name, [a, b]) == "(" + name + " " + a + " " + b + ")"
  {
    OneArg(b);
    assert [a, b][1..] == [b];
    assert Args([a, b]) == " " + a + " " + b;
    assert Parenthesize(name, [a, b]) == "(" + name + Args([a, b]) + ")";
  }

  lemma OneArg(a: string)
    ensures Args([a]) == " " + a
  {
    assert [a][1..] == [];
    assert Args([a]) == " " + a + "";
  }

  /** A grouping prints as `group` followed by its inner expression. */
  lemma GroupingText(inner: Expr, dt: real -> string)
    ensures Print(Grouping(inner), dt) == Some("(group " + Appended(Print(inner, dt)) + ")")
  {
    var a := Appended(Print(inner, dt));
    OneArg(a);
    assert "(" + "group" == "(group";
    assert "(group" + " " == "(group ";
    assert "(" + "group" + Args([a]) + ")" == "(group " + a + ")";
  }

  /** A unary node prints as its operator's lexeme followed by its operand. */
  lemma UnaryText(op: Token, rt: Expr, dt: real -> string)
    ensures Print(Unary(op, rt), dt) == Some("(" + op.lexeme + " " + Appended(Print(rt, dt)) + ")")
  {
    var a := Appended(Print(rt, dt));
    OneArg(a);
    assert "(" + op.lexeme + Args([a]) + ")" == "(" + op.lexeme + " " + a + ")";
  }

  /** A non-nil literal prints as its value's `toString()`, without the `.0` stripping of `stringify`. */
  lemma LiteralText(v: Value, dt: real -> string)
    requires !v.Nil?
    ensures Print(Literal(v), dt) == Some(ObjectText(v, dt))
  {
  }

  /** Number of occurrences of `c` in `s`. */
  function Count(c: char, s: string): (n: nat)
    ensures n <= |s|
  {
    if |s| == 0 then 0 else (if s[0] == c then 1 else 0) + Count(c, s[1..])
  }

  lemma {:induction false} CountAppend(c: char, a: string, b: string)
    ensures Count(c, a + b) == Count(c, a) + Count(c, b)
    decreases |a|
  {
    if |a| > 0 {
      assert (a + b)[0] == a[0] && (a + b)[1..] == a[1..] + b;
      CountAppend(c, a[1..], b);
    } else {
      assert a + b == b;
    }
  }

  /** No operator lexeme and no literal text of the tree contains a parenthesis. */
  predicate ParenFree(e: Expr, dt: real -> string) {
    match e
    case Binary(l, op, rt) => NoParen(op.lexeme) && ParenFree(l, dt) && ParenFree(rt, dt)
    case Grouping(inner) => ParenFree(inner, dt)
    case Literal(v) => v.Nil? || NoParen(ObjectText(v, dt))
    case Unary(op, rt) => NoParen(op.lexeme) && ParenFree(rt, dt)
    case _ => true
  }

  predicate NoParen(s: string) {
    Count('(', s) == 0 && Count(')', s) == 0
  }

  /**
   * When no lexeme or literal text contains a parenthesis, the printed text
   * opens exactly as many parentheses as it closes: the only parentheses are
   * the ones `paranthesize` writes, in pairs.
   */
  lemma {:induction false} PrintBalanced(e: Expr, dt: real -> string)
    requires ParenFree(e, dt)
    ensures Count('(', Appended(Print(e, dt))) == Count(')', Appended(Print(e, dt)))
  {
    match e
    case Binary(l, op, rt) =>
      PrintBalanced(l, dt);
      PrintBalanced(rt, dt);
      var a, b := Appended(Print(l, dt)), Appended(Print(rt, dt));
      BalancedWrap(op.lexeme, [a, b]);
    case Grouping(inner) =>
      PrintBalanced(inner, dt);
      BalancedWrap("group", [Appended(Print(inner, dt))]);
    case Unary(op, rt) =>
      PrintBalanced(rt, dt);
      BalancedWrap(op.lexeme, [Appended(Print(rt, dt))]);
    case Literal(v) =>
      FixedTextsHaveNoParen();
    case Variable(_) =>
      FixedTextsHaveNoParen();
    case Assign(_, _) =>
      FixedTextsHaveNoParen();
    case Logical(_, _, _) =>
      FixedTextsHaveNoParen();
  }

  /** The two fixed texts the printer writes for values it cannot show otherwise. */
  lemma FixedTextsHaveNoParen()
    ensures NoParen("nil") && NoParen("null")
  {
    assert "nil"[1..] == "il" && "il"[1..] == "l";
    assert "null"[1..] == "ull" && "ull"[1..] == "ll" && "ll"[1..] == "l" && "l"[1..] == "";
  }

  /** Wrapping balanced parts under a parenthesis-free name keeps the text balanced. */
  lemma {:induction false} BalancedWrap(name: string, parts: seq<string>)
    requires NoParen(name)
    requires forall i :: 0 <= i < |parts| ==> Count('(', parts[i]) == Count(')', parts[i])
    ensures Count('(', Parenthesize(name, parts)) == Count(')', Parenthesize(name, parts))
  {
    BalancedArgs(parts);
    var open, close := Count('(', Args(parts)), Count(')', Args(parts));
    CountAppend('(', "(" + name, Args(parts));
    CountAppend(')', "(" + name, Args(parts));
    CountAppend('(', "(" + name + Args(parts), ")");
    CountAppend(')', "(" + name + Args(parts), ")");
    CountAppend('(', "(", name);
    CountAppend(')', "(", name);
    assert Count('(', "(") == 1 && Count(')', "(") == 0;
    assert Count('(', ")") == 0 && Count(')', ")") == 1;
  }

  lemma {:induction false} BalancedArgs(parts: seq<string>)
    requires forall i :: 0 <= i < |parts| ==> Count('(', parts[i]) == Count(')', parts[i])
    ensures Count('(', Args(parts)) == Count(')', Args(parts))
    decreases |parts|
  {
    if |parts| > 0 {
      BalancedArgs(parts[1..]);
      CountAppend('(', " " + parts[0], Args(parts[1..]));
      CountAppend(')', " " + parts[0], Args(parts[1..]));
      CountAppend('(', " ", parts[0]);
      CountAppend(')', " ", parts[0]);
    }
  }

  /** `-123` prints as `(- 123.0)`: the literal keeps the `.0` that `stringify` would strip. */
  lemma NegationExample(minus: Token, dt: real -> string)
    requires minus.lexeme == "-" && dt(123.0) == "123.0"
    ensures Print(Unary(minus, Literal(Num(123.0))), dt) == Some("(- 123.0)")
  {
    UnaryText(minus, Literal(Num(123.0)), dt);
    assert "(" + "-" + " " + "123.0" + ")" == "(- 123.0)";
  }

  /** `(45.67)` prints as `(group 45.67)`. */
  lemma GroupExample(dt: real -> string)
    requires dt(45.67) == "45.67"
    ensures Print(Grouping(Literal(Num(45.67))), dt) == Some("(group 45.67)")
  {
    GroupingText(Literal(Num(45.67)), dt);
    assert "(group " + "45.67" + ")" == "(group 45.67)";
  }

  /** `1 + 2` prints as `(+ 1.0 2.0)`. */
  lemma SumExample(plus: Token, dt: real -> string)
    requires plus.lexeme == "+" && dt(1.0) == "1.0" && dt(2.0) == "2.0"
    ensures Print(Binary(Literal(Num(1.0)), plus, Literal(Num(2.0))), dt) == Some("(+ 1.0 2.0)")
  {
    BinaryText(Literal(Num(1.0)), plus, Literal(Num(2.0)), dt);
    assert "(" + "+" + " " + "1.0" + " " + "2.0" + ")" == "(+ 1.0 2.0)";
  }

  /** A variable nested in a grouping prints as the text `null`. */
  lemma NestedStubExample(name: Token, dt: real -> string)
    ensures Print(Grouping(Variable(name)), dt) == Some("(group null)")
  {
    GroupingText(Variable(name), dt);
    assert "(group " + "null" + ")" == "(group null)";
  }
}
