/**
 * The chain of scopes the interpreter evaluates against. Environment.java is
 * not part of this model: `define`, `get` and `assign` are modelled from the
 * way the interpreter uses them. The chain is a sequence of scopes with the
 * global scope first and the innermost scope last; `new Environment(outer)`
 * pushes an empty scope, and restoring the saved environment pops it.
 */
module Environment {
  import opened Wrappers
  import opened Tokens

  /**
   * Java's `RuntimeError`: an operand check that failed at an operator token,
   * or a name that no scope of the chain binds.
   */
  datatype RuntimeError = TypeError(token: Token, message: string) | Undefined(name: Token)

  type Scope = map<string, Value>

  type Scopes = seq<Scope>

  /** Same number of scopes, and each scope binds the same names. */
  ghost predicate SameShape(a: Scopes, b: Scopes) {
    |a| == |b| && forall i, name :: 0 <= i < |a| ==> (name in a[i] <==> name in b[i])
  }

  /** The value of the innermost binding of `name`, searching from the innermost scope outwards. */
  function Lookup(env: Scopes, name: string): Option<Value>
    decreases |env|
  {
    if |env| == 0 then None
    else if name in env[|env| - 1] then Some(env[|env| - 1][name])
    else Lookup(env[..|env| - 1], name)
  }

  /**
   * `Lookup` finds nothing exactly when no scope binds the name, and
   * otherwise the binding of the innermost scope that binds it.
   */
  lemma {:induction false} LookupIsInnermost(env: Scopes, name: string)
    ensures Lookup(env, name).None? <==> forall i :: 0 <= i < |env| ==> name !in env[i]
    ensures Lookup(env, name).Some? ==>
      exists i :: 0 <= i < |env| && name in env[i] && Lookup(env, name).value == env[i][name]
                  && forall j :: i < j < |env| ==> name !in env[j]
    decreases |env|
  {
    if |env| == 0 {
    } else if name in env[|env| - 1] {
      var i := |env| - 1;
      assert name in env[i] && Lookup(env, name).value == env[i][name];
    } else {
      var outer := env[..|env| - 1];
      LookupIsInnermost(outer, name);
      assert forall i :: 0 <= i < |outer| ==> outer[i] == env[i];
      if Lookup(outer, name).Some? {
        var i :| 0 <= i < |outer| && name in outer[i] && Lookup(outer, name).value == outer[i][name]
                 && forall j :: i < j < |outer| ==> name !in outer[j];
        assert name in env[i] && Lookup(env, name).value == env[i][name];
        assert forall j :: i < j < |env| ==> name !in env[j];
      }
    }
  }

  /** The index of the innermost scope that binds `name`, or -1 when no scope does. */
  function Innermost(env: Scopes, name: string): (i: int)
    ensures -1 <= i < |env|
    ensures i == -1 <==> forall j :: 0 <= j < |env| ==> name !in env[j]
    ensures i >= 0 ==> name in env[i] && forall j :: i < j < |env| ==> name !in env[j]
    ensures i >= 0 <==> Lookup(env, name).Some?
    ensures i >= 0 ==> Lookup(env, name) == Some(env[i][name])
    decreases |env|
  {
    if |env| == 0 then -1
    else if name in env[|env| - 1] then |env| - 1
    else
      var outer := env[..|env| - 1];
      assert forall j :: 0 <= j < |outer| ==> outer[j] == env[j];
      Innermost(outer, name)
  }

  /** `define(name, value)`: bind in the innermost scope, overwriting a binding already there. */
  function Define(env: Scopes, name: string, v: Value): (r: Scopes)
    requires |env| > 0
    ensures |r| == |env| && r[..|r| - 1] == env[..|env| - 1]
    ensures r[|r| - 1].Keys == env[|env| - 1].Keys + {name}
    ensures Lookup(r, name) == Some(v)
  {
    var r := env[|env| - 1 := env[|env| - 1][name := v]];
    assert r[..|r| - 1] == env[..|env| - 1];
    r
  }

  /** A definition changes what no other name looks up to. */
  lemma DefineLeavesOthers(env: Scopes, name: string, v: Value, other: string)
    requires |env| > 0 && other != name
    ensures Lookup(Define(env, name, v), other) == Lookup(env, other)
  {
    var r := Define(env, name, v);
    assert r[..|r| - 1] == env[..|env| - 1];
  }

  /** `get(name)`: the innermost binding, or a runtime error naming the token. */
  function Get(env: Scopes, name: Token): (r: Result<Value, RuntimeError>)
    ensures r.Failure? <==> Lookup(env, name.lexeme).None?
    ensures r.Failure? ==> r.error == Undefined(name)
    ensures r.Success? ==> Lookup(env, name.lexeme) == Some(r.value)
  {
    match Lookup(env, name.lexeme)
    case None => Failure(Undefined(name))
    case Some(v) => Success(v)
  }

  /**
   * `assign(name, value)`: overwrite the innermost binding, and only that
   * one, so a shadowed binding further out keeps its value; a name that no
   * scope binds is a runtime error and nothing changes.
   */
  function Assign(env: Scopes, name: Token, v: Value): (r: Result<Scopes, RuntimeError>)
    ensures r.Success? <==> Lookup(env, name.lexeme).Some?
    ensures r.Failure? ==> r.error == Undefined(name)
    ensures r.Success? ==> SameShape(env, r.value) && Lookup(r.value, name.lexeme) == Some(v)
    ensures r.Success? ==> forall n :: n != name.lexeme ==> Lookup(r.value, n) == Lookup(env, n)
    ensures r.Success? ==>
      var k := Innermost(env, name.lexeme);
      0 <= k && r.value == env[k := env[k][name.lexeme := v]]
    decreases |env|
  {
    if |env| == 0 then Failure(Undefined(name))
    else
      var last := env[|env| - 1];
      if name.lexeme in last then
        var r := env[|env| - 1 := last[name.lexeme := v]];
        assert r[..|r| - 1] == env[..|env| - 1];
        Success(r)
      else
        var outer := env[..|env| - 1];
        match Assign(outer, name, v)
        case Failure(e) => Failure(e)
        case Success(outer') =>
          var r := outer' + [last];
          assert r[..|r| - 1] == outer';
          var k := Innermost(outer, name.lexeme);
          assert Innermost(env, name.lexeme) == k;
          assert r == env[k := env[k][name.lexeme := v]];
          Success(r)
  }
}
