// The C++ string expressions that the generator emits: how they are spelled, and what a compiler makes of
// the spelling. A sum of two string literals is not C++; a sum that starts with a std::string is.

module CppExpr {
  import opened Sequences
  import opened CppLiterals
  import opened MemberNames
  import opened Paths

  /** One operand: a variable, std::string("..."), a bare literal, or std::string(). */
  datatype Term = Name(name: string) | Wrapped(text: string) | Quoted(text: string) | Empty

  function Show(t: Term): string
  {
    match t
    case Name(name) => name
    case Wrapped(text) => "std::string(" + CppStr(text) + ")"
    case Quoted(text) => CppStr(text)
    case Empty => "std::string()"
  }

  function ShowAll(ts: seq<Term>): (r: seq<string>)
    ensures |r| == |ts|
    ensures forall k :: 0 <= k < |ts| ==> r[k] == Show(ts[k])
  {
    seq(|ts|, k requires 0 <= k < |ts| => Show(ts[k]))
  }

  function Spell(ts: seq<Term>): string
  {
    JoinWith(ShowAll(ts), " + ")
  }

  // ----- Reading an expression back from its spelling

  type Env = map<string, string>

  /** A std::string value, or a string literal, which is only a pointer. */
  datatype Operand = Str(s: string) | Lit(s: string)

  datatype TermRead = NoTerm | Got(operand: Operand, rest: string)

  function IdentEnd(s: string): (n: nat)
    ensures n <= |s|
  {
    if s == "" || !IsIdentChar(s[0]) then 0 else 1 + IdentEnd(s[1..])
  }

  const WRAP := "std::string("

  function ReadTerm(src: string, env: Env): (r: TermRead)
    ensures r.Got? ==> |r.rest| <= |src|
  {
    if StartsWith(src, WRAP) then
      var t := src[|WRAP|..];
      if StartsWith(t, ")") then Got(Str(""), t[1..])
      else
        match ReadLiteral(t)
        case Bad => NoTerm
        case Read(text, rest) => if StartsWith(rest, ")") then Got(Str(text), rest[1..]) else NoTerm
    else if StartsWith(src, "\"") then
      match ReadLiteral(src)
      case Bad => NoTerm
      case Read(text, rest) => Got(Lit(text), rest)
    else
      var n := IdentEnd(src);
      if src[..n] in env then Got(Str(env[src[..n]]), src[n..]) else NoTerm
  }

  datatype Result = Error | Value(text: string)

  /** The rest of a sum whose first operands have the value `acc`, as operator+ groups them. */
  function ReadSum(acc: Operand, src: string, env: Env): Result
    decreases |src|
  {
    if src == "" then (if acc.Str? then Value(acc.s) else Error)
    else if !StartsWith(src, " + ") then Error
    else
      match ReadTerm(src[3..], env)
      case NoTerm => Error
      case Got(v, rest) =>
        if acc.Lit? && v.Lit? then Error
        else ReadSum(Str(acc.s + v.s), rest, env)
  }

  /** The value of an emitted expression. */
  function Eval(src: string, env: Env): Result
  {
    match ReadTerm(src, env)
    case NoTerm => Error
    case Got(v, rest) => ReadSum(v, rest, env)
  }

  // ----- Spelling and reading agree

  /** What an operand contributes. */
  function TermValue(t: Term, env: Env): string
  {
    match t
    case Name(name) => if name in env then env[name] else ""
    case Wrapped(text) => text
    case Quoted(text) => text
    case Empty => ""
  }

  predicate Readable(t: Term, env: Env)
  {
    match t
    case Name(name) => IsIdentifier(name) && name in env
    case Wrapped(text) => NoNewline(text)
    case Quoted(text) => NoNewline(text)
    case Empty => true
  }

  function Sum(ts: seq<Term>, env: Env): string
  {
    if ts == [] then "" else TermValue(ts[0], env) + Sum(ts[1..], env)
  }

  lemma {:induction false} IdentEndIs(name: string, rest: string)
    requires forall k :: 0 <= k < |name| ==> IsIdentChar(name[k])
    requires rest != "" ==> rest[0] == ' '
    ensures IdentEnd(name + rest) == |name|
  {
    if name == "" {
      assert name + rest == rest;
    } else {
      assert (name + rest)[1..] == name[1..] + rest;
      IdentEndIs(name[1..], rest);
    }
  }

  /** An identifier followed by a space or by nothing cannot be mistaken for `std::string(`. */
  lemma NameIsNotWrap(name: string, rest: string)
    requires IsIdentShaped(name)
    requires rest != "" ==> rest[0] == ' '
    ensures !StartsWith(name + rest, WRAP) && !StartsWith(name + rest, "\"")
  {
    var s := name + rest;
    Differs(s, "\"", 0);
    if |name| > 3 {
      assert s[3] == name[3] && WRAP[3] == ':';
      Differs(s, WRAP, 3);
    } else if rest != "" {
      assert s[|name|] == ' ';
      assert WRAP[..4] == "std:";
      assert WRAP[|name|] == "std:"[|name|];
      Differs(s, WRAP, |name|);
    }
  }

  lemma ReadNameBack(name: string, rest: string, env: Env)
    requires IsIdentifier(name) && name in env
    requires rest != "" ==> rest[0] == ' '
    ensures ReadTerm(name + rest, env) == Got(Str(env[name]), rest)
  {
    NameIsNotWrap(name, rest);
    IdentEndIs(name, rest);
    assert (name + rest)[..|name|] == name && (name + rest)[|name|..] == rest;
  }

  lemma ReadWrappedBack(text: string, rest: string, env: Env)
    requires NoNewline(text)
    ensures ReadTerm(Show(Wrapped(text)) + rest, env) == Got(Str(text), rest)
  {
    hide ReadLiteral, NoNewline;
    var src := Show(Wrapped(text)) + rest;
    var t := CppStr(text) + (")" + rest);
    assert src == WRAP + t;
    assert src[..|WRAP|] == WRAP && src[|WRAP|..] == t;
    assert t[0] == '"';
    ReadOfCppStr(text, ")" + rest);
    assert (")" + rest)[..1] == ")" && (")" + rest)[1..] == rest;
  }

  lemma ReadQuotedBack(text: string, rest: string, env: Env)
    requires NoNewline(text)
    ensures ReadTerm(Show(Quoted(text)) + rest, env) == Got(Lit(text), rest)
  {
    hide ReadLiteral, NoNewline;
    var src := CppStr(text) + rest;
    assert src[0] == '"' && src[..1] == "\"";
    Differs(src, WRAP, 0);
    ReadOfCppStr(text, rest);
  }

  lemma ReadTermBack(t: Term, rest: string, env: Env)
    requires Readable(t, env)
    requires rest != "" ==> rest[0] == ' '
    ensures ReadTerm(Show(t) + rest, env)
         == Got(if t.Quoted? then Lit(TermValue(t, env)) else Str(TermValue(t, env)), rest)
    ensures Show(t) != ""
  {
    match t {
      case Name(name) => ReadNameBack(name, rest, env);
      case Wrapped(text) => ReadWrappedBack(text, rest, env);
      case Quoted(text) => ReadQuotedBack(text, rest, env);
      case Empty =>
        var src := "std::string()" + rest;
        var t := ")" + rest;
        assert src == WRAP + t;
        assert src[..|WRAP|] == WRAP && src[|WRAP|..] == t;
        assert t[..1] == ")" && t[1..] == rest;
    }
  }

  /** The spelling behind the first operand. */
  function SpellRest(ts: seq<Term>): string
  {
    if ts == [] then "" else " + " + Show(ts[0]) + SpellRest(ts[1..])
  }

  lemma {:induction false} SpellCons(t: Term, ts: seq<Term>)
    ensures Spell([t] + ts) == Show(t) + SpellRest(ts)
    decreases |ts|
  {
    hide Show;
    var all := ShowAll([t] + ts);
    if ts == [] {
      assert all == [Show(t)];
    } else {
      SpellCons(ts[0], ts[1..]);
      assert [ts[0]] + ts[1..] == ts;
      assert all[1..] == ShowAll(ts);
    }
  }

  lemma {:induction false} ReadSumBack(acc: string, ts: seq<Term>, env: Env)
    requires forall k :: 0 <= k < |ts| ==> Readable(ts[k], env)
    ensures ReadSum(Str(acc), SpellRest(ts), env) == Value(acc + Sum(ts, env))
    decreases |ts|
  {
    hide ReadTerm, Show, Readable, TermValue;
    if ts == [] {
      assert acc + "" == acc;
    } else {
      var src := SpellRest(ts);
      var rest := SpellRest(ts[1..]);
      assert src == " + " + (Show(ts[0]) + rest);
      assert src[..3] == " + " && src[3..] == Show(ts[0]) + rest;
      assert rest != "" ==> rest[0] == ' ';
      ReadTermBack(ts[0], rest, env);
      assert forall k :: 0 <= k < |ts| - 1 ==> ts[1..][k] == ts[k + 1];
      ReadSumBack(acc + TermValue(ts[0], env), ts[1..], env);
      assert acc + (TermValue(ts[0], env) + Sum(ts[1..], env)) == acc + TermValue(ts[0], env) + Sum(ts[1..], env);
    }
  }

  /** An expression that starts with a std::string evaluates to the concatenation of its operands. */
  lemma EvalOfSpell(ts: seq<Term>, env: Env)
    requires ts != [] && !ts[0].Quoted?
    requires forall k :: 0 <= k < |ts| ==> Readable(ts[k], env)
    ensures Eval(Spell(ts), env) == Value(Sum(ts, env))
  {
    hide ReadTerm, Show, Readable, TermValue;
    SpellCons(ts[0], ts[1..]);
    assert [ts[0]] + ts[1..] == ts;
    var rest := SpellRest(ts[1..]);
    assert rest != "" ==> rest[0] == ' ';
    ReadTermBack(ts[0], rest, env);
    assert forall k :: 0 <= k < |ts| - 1 ==> ts[1..][k] == ts[k + 1];
    ReadSumBack(TermValue(ts[0], env), ts[1..], env);
  }

  /** Two adjacent literals at the front do not compile: this is what the std::string(...) is for. */
  lemma LiteralPlusLiteral(a: string, b: string, ts: seq<Term>, env: Env)
    requires NoNewline(a) && NoNewline(b)
    ensures Eval(Spell([Quoted(a), Quoted(b)] + ts), env) == Error
  {
    hide ReadTerm, Show;
    var all := [Quoted(b)] + ts;
    assert [Quoted(a), Quoted(b)] + ts == [Quoted(a)] + all;
    SpellCons(Quoted(a), all);
    assert all[1..] == ts;
    var rest := SpellRest(ts);
    assert rest != "" ==> rest[0] == ' ';
    var src := SpellRest(all);
    assert src == " + " + (Show(Quoted(b)) + rest);
    assert src[..3] == " + " && src[3..] == Show(Quoted(b)) + rest;
    assert Readable(Quoted(a), env) && Readable(Quoted(b), env);
    ReadTermBack(Quoted(a), src, env);
    ReadTermBack(Quoted(b), rest, env);
  }
}
