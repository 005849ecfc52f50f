/**
 * The parser and the interpreter together: what the statement list that
 * `parse()` returns does when `interpret` runs it.
 */
module Lox {
  import opened Wrappers
  import opened Tokens
  import opened Ast
  import opened Grammar
  import opened Semantics
  import GrammarFacts

  /**
   * A token stream that parses without a syntax error yields statements that
   * neither crash on a `null` entry nor loop: running them ends normally or
   * with a runtime error, whatever the fuel.
   */
  lemma ParsedProgramsRunToCompletion(ts: seq<Token>, st: State, dt: real -> string, fuel: nat)
    requires WellFormed(ts) && |st.env| > 0 && Parse(ts).1.errors == []
    ensures var o := ExecFrom(Parse(ts).0, 0, st, dt, fuel).0; o.Normal? || o.Raised?
  {
    var ss := Parse(ts).0;
    assert forall j :: 0 <= j < |ss| ==> ss[j].Some? && NullFree(ss[j].value);
    assert forall j :: 0 <= j < |ss| && ss[j].Some? ==> !HasWhile(ss[j].value);
  }

  /**
   * After a syntax error the list holds a `null` where the bad statement
   * was: `; print x ;` parses to `[null, print x]`, and running that list
   * crashes on its first entry before printing anything.
   */
  lemma StraySemicolonProgramCrashes(ts: seq<Token>, st: State, dt: real -> string, fuel: nat)
    requires |ts| == 5 && ts[4].kind == EOF && |st.env| > 0
    requires ts[0].kind == SEMICOLON && ts[1].kind == PRINT && ts[2].kind == IDENTIFIER && ts[3].kind == SEMICOLON
    ensures |Parse(ts).1.errors| == 1
    ensures ExecFrom(Parse(ts).0, 0, st, dt, fuel) == (Crashed, st)
  {
    GrammarFacts.RecoversAfterStraySemicolon(ts);
  }
}
