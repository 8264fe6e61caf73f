// method_call_path and abs_cpp_path of generate_rest.py: an operation path becomes a C++ expression, and
// the expression evaluates to the path with its parameters filled in.

module PathCompiler {
  import opened Sequences
  import opened CppLiterals
  import opened MemberNames
  import opened Paths
  import opened CppExpr

  const BASE := "base_path_"

  // ----- Argument names

  function Inner(seg: string): string
    requires IsParam(seg)
  {
    seg[1..|seg| - 1]
  }

  /** arg_for: one parameter has a name of its own. */
  function ArgFor(brace: string): string
  {
    if brace == "e164_number" then "e164" else SnakeIdent(brace)
  }

  ghost function ArgSet(args: seq<string>): set<string>
  {
    set k | 0 <= k < |args| :: args[k]
  }

  /** The arguments of the parameters of `segs`, each made distinct from the ones before. */
  ghost function ArgNames(segs: seq<string>, args: seq<string>): (r: seq<string>)
    ensures args <= r
    ensures |r| == |args| + ParamCount(segs)
    decreases |segs|
  {
    if segs == [] then args
    else if IsParam(segs[0]) then ArgNames(segs[1..], args + [Fresh(ArgFor(Inner(segs[0])), '2', ArgSet(args))])
    else ArgNames(segs[1..], args)
  }

  ghost predicate GoodArgs(args: seq<string>)
  {
    && (forall k :: 0 <= k < |args| ==> IsIdentifier(args[k]))
    && (forall j, k :: 0 <= j < k < |args| ==> args[j] != args[k])
  }

  lemma ArgForIsIdentifier(brace: string)
    ensures IsIdentifier(ArgFor(brace))
  {
    SnakeIdentIsIdentifier(brace);
    if brace == "e164_number" {
      SnakeIdentIsIdentifier("e164");
      assert "e164" == SnakeIdent("e164") by { E164IsIdentifier(); }
    }
  }

  lemma E164IsIdentifier()
    ensures IsIdentifier("e164") && SnakeIdent("e164") == "e164"
  {
    assert "e164"[3] == '4';
    assert !IsKeyword("e164");
    SnakeIdentIsIdentifier("e164");
  }

  /** The arguments are distinct identifiers. */
  lemma {:induction false} ArgNamesAreGood(segs: seq<string>, args: seq<string>)
    requires GoodArgs(args)
    ensures GoodArgs(ArgNames(segs, args))
    decreases |segs|
  {
    hide IsIdentifier, ArgFor;
    if segs != [] {
      if IsParam(segs[0]) {
        var start := ArgFor(Inner(segs[0]));
        var arg := Fresh(start, '2', ArgSet(args));
        ArgForIsIdentifier(Inner(segs[0]));
        FreshIsIdentifier(start, '2', ArgSet(args));
        assert forall k :: 0 <= k < |args| ==> args[k] in ArgSet(args);
        ArgNamesAreGood(segs[1..], args + [arg]);
      } else {
        ArgNamesAreGood(segs[1..], args);
      }
    }
  }

  /** Some parameter is turned into the name of the member: {base_path_} itself, or {base-path-}, say. */
  ghost predicate NamesBase(segs: seq<string>)
  {
    exists k :: 0 <= k < |segs| && IsParam(segs[k]) && ArgFor(Inner(segs[k])) == BASE
  }

  /** A suffixed name ends in 2 and is never that of the member. */
  lemma FreshBase(start: string, used: set<string>)
    ensures Fresh(start, '2', used) == BASE <==> start == BASE && BASE !in used
  {
    var k := FreshIsLeast(start, '2', used);
    var r := Fresh(start, '2', used);
    if k > 0 {
      assert r[|r| - 1] == '2' && BASE[|BASE| - 1] == '_';
      assert start + Repeat('2', 0) == start;
    } else {
      assert start + Repeat('2', 0) == start;
    }
  }

  /** An argument gets the name of the member exactly if a parameter asks for it. */
  lemma {:induction false} BaseArgument(segs: seq<string>, args: seq<string>)
    ensures BASE in ArgSet(ArgNames(segs, args)) <==> BASE in ArgSet(args) || NamesBase(segs)
    decreases |segs|
  {
    hide ArgFor;
    if segs != [] {
      var rest := segs[1..];
      assert NamesBase(segs) <==> (IsParam(segs[0]) && ArgFor(Inner(segs[0])) == BASE) || NamesBase(rest) by {
        FirstNamesBase(segs);
      }
      if IsParam(segs[0]) {
        var start := ArgFor(Inner(segs[0]));
        var arg := Fresh(start, '2', ArgSet(args));
        FreshBase(start, ArgSet(args));
        BaseArgument(rest, args + [arg]);
        ArgSetSnoc(args, arg);
      } else {
        BaseArgument(rest, args);
      }
    }
  }

  lemma FirstNamesBase(segs: seq<string>)
    requires segs != []
    ensures NamesBase(segs) <==> (IsParam(segs[0]) && ArgFor(Inner(segs[0])) == BASE) || NamesBase(segs[1..])
  {
    hide ArgFor, IsParam, Inner;
    var rest := segs[1..];
    if NamesBase(rest) {
      var k :| 0 <= k < |rest| && IsParam(rest[k]) && ArgFor(Inner(rest[k])) == BASE;
      assert segs[k + 1] == rest[k];
    }
    if NamesBase(segs) {
      var k :| 0 <= k < |segs| && IsParam(segs[k]) && ArgFor(Inner(segs[k])) == BASE;
      assert k > 0 ==> rest[k - 1] == segs[k];
    }
  }

  lemma ArgSetSnoc(args: seq<string>, arg: string)
    ensures ArgSet(args + [arg]) == ArgSet(args) + {arg}
  {
    var all := args + [arg];
    assert all[|args|] == arg;
    assert forall k :: 0 <= k < |args| ==> all[k] == args[k];
  }

  // ----- The two forms of the expression

  /** base_path_ + "/" + segment + ... */
  function RelTerms(segs: seq<string>, args: seq<string>): seq<Term>
    requires |args| >= ParamCount(segs)
  {
    if segs == [] then []
    else if IsParam(segs[0]) then [Quoted("/"), Name(args[0])] + RelTerms(segs[1..], args[1..])
    else [Quoted("/"), Wrapped(segs[0])] + RelTerms(segs[1..], args)
  }

  datatype Piece = LitPiece(text: string) | VarPiece(name: string)

  /** full.find("}") from a brace on, or the length. */
  function CloseAt(s: string): (n: nat)
    ensures n <= |s|
    ensures n < |s| ==> s[n] == '}'
    ensures forall k :: 0 <= k < n ==> s[k] != '}'
  {
    if s == "" || s[0] == '}' then 0 else 1 + CloseAt(s[1..])
  }

  /** Every brace the scan opens is closed. */
  predicate Closes(s: string)
    decreases |s|
  {
    s != "" ==>
      if s[0] == '{' then CloseAt(s) < |s| && Closes(s[CloseAt(s) + 1..])
      else Closes(s[1..])
  }

  function FlushLit(lit: string): seq<Piece>
  {
    if lit == "" then [] else [LitPiece(lit)]
  }

  /** The scan of abs_cpp_path with the literal collected so far and the arguments left. */
  function Scan(s: string, lit: string, args: seq<string>): seq<Piece>
    requires Closes(s)
    decreases |s|
  {
    if s == "" then FlushLit(lit)
    else if s[0] == '{' then
      var rest := s[CloseAt(s) + 1..];
      if args == [] then FlushLit(lit) + Scan(rest, "", [])
      else FlushLit(lit) + [VarPiece(args[0])] + Scan(rest, "", args[1..])
    else Scan(s[1..], lit + [s[0]], args)
  }

  /** Only a leading literal is wrapped. */
  function PieceTerm(p: Piece, first: bool): Term
  {
    match p
    case LitPiece(text) => if first then Wrapped(text) else Quoted(text)
    case VarPiece(name) => Name(name)
  }

  function PieceTerms(ps: seq<Piece>): (ts: seq<Term>)
    ensures |ts| == |ps|
    ensures forall k :: 0 <= k < |ps| ==> ts[k] == PieceTerm(ps[k], k == 0)
  {
    seq(|ps|, k requires 0 <= k < |ps| => PieceTerm(ps[k], k == 0))
  }

  function AbsTerms(full: string, args: seq<string>): (ts: seq<Term>)
    requires Closes(full)
    ensures ts != []
  {
    var ps := Scan(full, "", args);
    if ps == [] then [Empty] else PieceTerms(ps)
  }

  datatype Compiled = Compiled(args: seq<string>, expr: string)

  /** What method_call_path returns. */
  ghost function Compile(server: string, coll: string, op: string): Compiled
    requires RelativeTail(server, coll, op).sibling ==> Closes(JoinPath(server, LStripSlash(op)))
  {
    var tail := RelativeTail(server, coll, op);
    var args := ArgNames(tail.segs, []);
    var terms := if tail.sibling then AbsTerms(JoinPath(server, LStripSlash(op)), args)
                 else [Name(BASE)] + RelTerms(tail.segs, args);
    Compiled(args, Spell(terms))
  }

  // ----- Meaning of the relative form

  /** The values the expression sees: the member base_path_, shadowed by the arguments. */
  ghost function Scope(full: string, args: seq<string>, vals: seq<string>): Env
    requires |vals| == |args|
    decreases |args|
  {
    if args == [] then map[BASE := full]
    else
      var n := |args| - 1;
      Scope(full, args[..n], vals[..n])[args[n] := vals[n]]
  }

  lemma {:induction false} ScopeBinds(full: string, args: seq<string>, vals: seq<string>)
    requires |vals| == |args| && GoodArgs(args)
    ensures var env := Scope(full, args, vals);
            && (forall k :: 0 <= k < |args| ==> args[k] in env && env[args[k]] == vals[k])
            && BASE in env
            && (BASE !in ArgSet(args) ==> env[BASE] == full)
    decreases |args|
  {
    hide IsIdentifier;
    if args != [] {
      var n := |args| - 1;
      ScopeBinds(full, args[..n], vals[..n]);
      assert args[n] in ArgSet(args);
      assert ArgSet(args[..n]) <= ArgSet(args);
      var env := Scope(full, args, vals);
      forall k | 0 <= k < |args| ensures args[k] in env && env[args[k]] == vals[k] {
        if k < n {
          assert args[..n][k] == args[k] && vals[..n][k] == vals[k];
        }
      }
    }
  }

  ghost predicate Binds(env: Env, args: seq<string>, vals: seq<string>)
  {
    |vals| == |args| && forall k :: 0 <= k < |args| ==> args[k] in env && env[args[k]] == vals[k]
  }

  /** "/" before every segment. */
  function Prefixed(segs: seq<string>): string
  {
    if segs == [] then "" else "/" + segs[0] + Prefixed(segs[1..])
  }

  lemma {:induction false} PrefixedIsJoin(segs: seq<string>)
    requires segs != []
    ensures Prefixed(segs) == "/" + Slashed(segs)
  {
    if |segs| > 1 {
      PrefixedIsJoin(segs[1..]);
      assert Slashed(segs) == segs[0] + "/" + Slashed(segs[1..]);
    } else {
      assert Prefixed(segs[1..]) == "";
    }
  }

  ghost predicate AllReadable(ts: seq<Term>, env: Env)
  {
    forall k :: 0 <= k < |ts| ==> Readable(ts[k], env)
  }

  ghost predicate NewlineFreeAll(segs: seq<string>)
  {
    forall k :: 0 <= k < |segs| ==> NoNewline(segs[k])
  }

  lemma NoTerms(env: Env)
    ensures Sum([], env) == "" && AllReadable([], env)
  {
  }

  lemma {:induction false} RelTermsMean(segs: seq<string>, args: seq<string>, vals: seq<string>, env: Env)
    requires |args| == ParamCount(segs) && Binds(env, args, vals) && GoodArgs(args)
    requires NewlineFreeAll(segs)
    ensures AllReadable(RelTerms(segs, args), env)
    ensures Sum(RelTerms(segs, args), env) == Prefixed(Fill(segs, vals))
    decreases |segs|
  {
    hide IsIdentifier, NoNewline, IsParam, Sum, AllReadable;
    if segs == [] {
      NoTerms(env);
    } else {
      assert forall k :: 0 <= k < |segs| - 1 ==> segs[1..][k] == segs[k + 1];
      var param := IsParam(segs[0]);
      var args', vals' := if param then args[1..] else args, if param then vals[1..] else vals;
      var t := if param then Name(args[0]) else Wrapped(segs[0]);
      assert forall k :: 0 <= k < |args'| ==> args'[k] == args[|args| - |args'| + k];
      RelTermsMean(segs[1..], args', vals', env);
      SlashTerm(t, RelTerms(segs[1..], args'), env);
      assert Prefixed(Fill(segs, vals)) == "/" + TermValue(t, env) + Prefixed(Fill(segs[1..], vals'));
    }
  }

  /** A slash and one more operand in front of a sum. */
  lemma SlashTerm(t: Term, rest: seq<Term>, env: Env)
    requires Readable(t, env) && AllReadable(rest, env)
    ensures AllReadable([Quoted("/"), t] + rest, env)
    ensures Sum([Quoted("/"), t] + rest, env) == "/" + TermValue(t, env) + Sum(rest, env)
  {
    hide NoNewline, IsIdentifier;
    SlashHasNoNewline();
    var ts := [Quoted("/"), t] + rest;
    assert ts[1..] == [t] + rest && ts[1..][1..] == rest;
    assert Sum(ts, env) == "/" + (TermValue(t, env) + Sum(rest, env));
    forall k | 0 <= k < |ts| ensures Readable(ts[k], env) {
      if k >= 2 {
        assert ts[k] == rest[k - 2];
      }
    }
  }

  lemma SlashHasNoNewline()
    ensures NoNewline("/")
  {
  }

  // ----- Meaning of the absolute form

  function PieceSum(ps: seq<Piece>, env: Env): string
  {
    if ps == [] then "" else TermValue(PieceTerm(ps[0], false), env) + PieceSum(ps[1..], env)
  }

  lemma {:induction false} PieceSumOfConcat(a: seq<Piece>, b: seq<Piece>, env: Env)
    ensures PieceSum(a + b, env) == PieceSum(a, env) + PieceSum(b, env)
  {
    if a == [] {
      assert a + b == b;
    } else {
      assert (a + b)[1..] == a[1..] + b;
      PieceSumOfConcat(a[1..], b, env);
    }
  }

  lemma {:induction false} TermsOfPieces(ps: seq<Piece>, ts: seq<Term>, env: Env)
    requires |ts| == |ps|
    requires forall k :: 0 <= k < |ps| ==> ts[k] == PieceTerm(ps[k], false) || ts[k] == PieceTerm(ps[k], true)
    ensures Sum(ts, env) == PieceSum(ps, env)
  {
    if ps != [] {
      TermsOfPieces(ps[1..], ts[1..], env);
    }
  }

  /** The first segment of a text that starts with a whole-segment brace. */
  lemma OpeningParam(s: string)
    requires s != "" && s[0] == '{' && WholeSegment(Segments(s)[0])
    ensures var n := CloseAt(s);
            && n < |s| && IsParam(Segments(s)[0])
            && Segments(s[n + 1..]) == [""] + Segments(s)[1..]
  {
    hide *;
    var seg := Segments(s)[0];
    FirstSegmentSplits(s);
    FirstSegmentNonEmpty(s);
    assert seg[0] == s[0];
    WholeParamCloses(s, seg);
    assert s[CloseAt(s) + 1..] == s[|seg|..];
  }

  lemma FirstSegmentNonEmpty(s: string)
    requires s != "" && s[0] != '/'
    ensures Segments(s)[0] != ""
  {
  }

  lemma WholeParamCloses(s: string, seg: string)
    requires seg <= s && seg != "" && seg[0] == '{' && WholeSegment(seg)
    ensures IsParam(seg) && CloseAt(s) == |seg| - 1
  {
    hide CloseAt;
    var n := |seg| - 1;
    assert !BraceFree(seg);
    forall k | 0 <= k < n ensures s[k] != '}' {
      assert s[k] == seg[k];
      if k > 0 {
        assert seg[k] == seg[1..n][k - 1];
      }
    }
    assert s[n] == seg[n];
    CloseAtIs(s, n);
  }

  lemma {:induction false} CloseAtIs(s: string, n: nat)
    requires n < |s| && s[n] == '}' && forall k :: 0 <= k < n ==> s[k] != '}'
    ensures CloseAt(s) == n
  {
    if n > 0 {
      CloseAtIs(s[1..], n - 1);
    }
  }

  /** The text is its first segment, followed by nothing or by a slash and the other segments. */
  lemma {:induction false} FirstSegmentSplits(s: string)
    ensures var seg := Segments(s)[0];
            && seg <= s
            && Segments(s[|seg|..]) == [""] + Segments(s)[1..]
  {
    if s != "" {
      if s[0] == '/' {
        assert s[0..] == s;
      } else {
        FirstSegmentSplits(s[1..]);
        var seg := Segments(s)[0];
        assert seg[1..] == Segments(s[1..])[0];
        assert s[1..][|seg| - 1..] == s[|seg|..];
        assert Segments(s)[1..] == Segments(s[1..])[1..];
      }
    }
  }

  /** One literal character of a path, slash or not. */
  lemma LiteralChar(s: string, vals: seq<string>)
    requires s != "" && s[0] != '{' && AllWhole(Segments(s))
    requires |vals| >= ParamCount(Segments(s))
    ensures AllWhole(Segments(s[1..]))
    ensures ParamCount(Segments(s[1..])) == ParamCount(Segments(s))
    ensures Meaning(s, vals) == [s[0]] + Meaning(s[1..], vals)
  {
    var segs, rest := Segments(s), Segments(s[1..]);
    if s[0] == '/' {
      assert segs == [""] + rest && segs[1..] == rest;
      assert forall k :: 0 <= k < |rest| ==> rest[k] == segs[k + 1];
      assert Fill(segs, vals) == [""] + Fill(rest, vals);
      assert Slashed([""] + Fill(rest, vals)) == "" + "/" + Slashed(([""] + Fill(rest, vals))[1..]);
      assert ([""] + Fill(rest, vals))[1..] == Fill(rest, vals);
    } else {
      LiteralHead(s, vals);
    }
  }

  lemma LiteralHead(s: string, vals: seq<string>)
    requires s != "" && s[0] != '{' && s[0] != '/' && AllWhole(Segments(s))
    requires |vals| >= ParamCount(Segments(s))
    ensures AllWhole(Segments(s[1..]))
    ensures ParamCount(Segments(s[1..])) == ParamCount(Segments(s))
    ensures Meaning(s, vals) == [s[0]] + Meaning(s[1..], vals)
  {
    var segs, rest := Segments(s), Segments(s[1..]);
    var h := rest[0];
    assert segs == [[s[0]] + h] + rest[1..] && segs[1..] == rest[1..];
    assert WholeSegment(segs[0]) && BraceFree(segs[0]);
    assert forall k :: 0 <= k < |h| ==> h[k] == segs[0][k + 1];
    assert BraceFree(h);
    assert forall k :: 1 <= k < |rest| ==> rest[k] == segs[k];
    var tail := Fill(rest[1..], vals);
    assert Fill(rest, vals) == [h] + tail;
    assert Fill(segs, vals) == [[s[0]] + h] + tail;
    assert ([h] + tail)[1..] == tail && ([[s[0]] + h] + tail)[1..] == tail;
    if tail != [] {
      assert Slashed([[s[0]] + h] + tail) == [s[0]] + h + "/" + Slashed(tail);
      assert Slashed([h] + tail) == h + "/" + Slashed(tail);
    }
  }

  /** One parameter of a path. */
  lemma ParamChar(s: string, vals: seq<string>)
    requires s != "" && s[0] == '{' && AllWhole(Segments(s))
    requires |vals| >= ParamCount(Segments(s))
    ensures CloseAt(s) < |s| && vals != []
    ensures var rest := s[CloseAt(s) + 1..];
            && AllWhole(Segments(rest))
            && ParamCount(Segments(rest)) == ParamCount(Segments(s)) - 1
            && Meaning(s, vals) == vals[0] + Meaning(rest, vals[1..])
  {
    OpeningParam(s);
    var segs := Segments(s);
    var rest := s[CloseAt(s) + 1..];
    var more := segs[1..];
    assert Segments(rest) == [""] + more && Segments(rest)[1..] == more;
    assert forall k :: 0 <= k < |more| ==> more[k] == segs[k + 1];
    var tail := Fill(more, vals[1..]);
    assert Fill(segs, vals) == [vals[0]] + tail;
    assert Fill([""] + more, vals[1..]) == [""] + tail;
    assert ([vals[0]] + tail)[1..] == tail && ([""] + tail)[1..] == tail;
    if tail != [] {
      assert Slashed([vals[0]] + tail) == vals[0] + "/" + Slashed(tail);
      assert Slashed([""] + tail) == "" + "/" + Slashed(tail);
    }
  }

  lemma {:induction false} WholeCloses(s: string)
    requires AllWhole(Segments(s))
    ensures Closes(s)
    decreases |s|
  {
    hide Segments, WholeSegment;
    if s != "" {
      var vals := seq(ParamCount(Segments(s)), k => "");
      if s[0] == '{' {
        ParamChar(s, vals);
        WholeCloses(s[CloseAt(s) + 1..]);
      } else {
        LiteralChar(s, vals);
        WholeCloses(s[1..]);
      }
    }
  }

  ghost predicate PiecesReadable(ps: seq<Piece>, env: Env)
  {
    forall k :: 0 <= k < |ps| ==> Readable(PieceTerm(ps[k], false), env)
  }

  lemma ArgsTail(args: seq<string>, vals: seq<string>, env: Env)
    requires Binds(env, args, vals) && GoodArgs(args) && vals != []
    ensures args != [] && Binds(env, args[1..], vals[1..]) && GoodArgs(args[1..])
    ensures args[0] in env && env[args[0]] == vals[0] && IsIdentifier(args[0])
  {
    hide IsIdentifier;
    assert forall k :: 0 <= k < |args| - 1 ==> args[1..][k] == args[k + 1] && vals[1..][k] == vals[k + 1];
  }

  lemma BindsLength(args: seq<string>, vals: seq<string>, env: Env)
    requires Binds(env, args, vals)
    ensures |args| == |vals|
  {
  }

  lemma RestOnOneLine(s: string, n: nat)
    requires NoNewline(s) && n <= |s|
    ensures NoNewline(s[n..])
  {
    assert forall k :: 0 <= k < |s| - n ==> s[n..][k] == s[n + k];
  }

  lemma LastPiece(lit: string, env: Env)
    requires NoNewline(lit)
    ensures PiecesReadable(FlushLit(lit), env) && PieceSum(FlushLit(lit), env) == lit
  {
    assert lit != "" ==> PieceSum([LitPiece(lit)], env) == lit + PieceSum([], env);
  }

  lemma OneLineMore(lit: string, s: string)
    requires NoNewline(lit) && NoNewline(s) && s != ""
    ensures NoNewline(lit + [s[0]])
  {
  }

  /** The scan cuts a path into pieces that say what the path means. */
  lemma {:induction false} ScanMeans(s: string, lit: string, args: seq<string>, vals: seq<string>, env: Env)
    requires AllWhole(Segments(s)) && Closes(s)
    requires |args| == ParamCount(Segments(s)) && Binds(env, args, vals) && GoodArgs(args)
    requires NoNewline(s) && NoNewline(lit)
    ensures PiecesReadable(Scan(s, lit, args), env)
    ensures PieceSum(Scan(s, lit, args), env) == lit + Meaning(s, vals)
    decreases |s|
  {
    hide IsIdentifier, AllWhole, Segments, ParamCount, Meaning, Binds, GoodArgs, NoNewline, PiecesReadable, PieceSum;
    BindsLength(args, vals, env);
    if s == "" {
      EmptyMeaning();
      LastPiece(lit, env);
      assert lit + "" == lit;
    } else if s[0] == '{' {
      ParamChar(s, vals);
      var rest := s[CloseAt(s) + 1..];
      ArgsTail(args, vals, env);
      RestOnOneLine(s, CloseAt(s) + 1);
      assert NoNewline("") by {
        RestOnOneLine(s, |s|);
        assert s[|s|..] == "";
      }
      ScanMeans(rest, "", args[1..], vals[1..], env);
      ParamPieces(lit, args[0], Scan(rest, "", args[1..]), env);
      assert lit + vals[0] + ("" + Meaning(rest, vals[1..])) == lit + (vals[0] + Meaning(rest, vals[1..]));
    } else {
      LiteralChar(s, vals);
      RestOnOneLine(s, 1);
      OneLineMore(lit, s);
      ScanMeans(s[1..], lit + [s[0]], args, vals, env);
      assert lit + [s[0]] + Meaning(s[1..], vals) == lit + ([s[0]] + Meaning(s[1..], vals));
    }
  }

  lemma EmptyMeaning()
    ensures Segments("") == [""] && ParamCount([""]) == 0
    ensures forall vals :: Meaning("", vals) == ""
  {
    assert Slashed([""]) == "";
  }

  lemma ParamPieces(lit: string, arg: string, rest: seq<Piece>, env: Env)
    requires arg in env && IsIdentifier(arg) && NoNewline(lit) && PiecesReadable(rest, env)
    ensures var ps := FlushLit(lit) + [VarPiece(arg)] + rest;
            PiecesReadable(ps, env) && PieceSum(ps, env) == lit + env[arg] + PieceSum(rest, env)
  {
    hide IsIdentifier, NoNewline;
    var ps := FlushLit(lit) + [VarPiece(arg)] + rest;
    PieceSumOfConcat(FlushLit(lit) + [VarPiece(arg)], rest, env);
    PieceSumOfConcat(FlushLit(lit), [VarPiece(arg)], env);
    assert PieceSum([VarPiece(arg)], env) == env[arg] + PieceSum([], env);
    assert lit != "" ==> PieceSum([LitPiece(lit)], env) == lit + PieceSum([], env);
    var n := |FlushLit(lit)|;
    forall k | 0 <= k < |ps| ensures Readable(PieceTerm(ps[k], false), env) {
      if k > n {
        assert ps[k] == rest[k - n - 1];
      }
    }
  }

  lemma AbsTermsMean(full: string, args: seq<string>, vals: seq<string>, env: Env)
    requires AllWhole(Segments(full)) && NoNewline(full) && Closes(full)
    requires |args| == ParamCount(Segments(full)) && Binds(env, args, vals) && GoodArgs(args)
    ensures Eval(Spell(AbsTerms(full, args)), env) == Value(Meaning(full, vals))
  {
    hide IsIdentifier, AllWhole, Segments, ParamCount, Meaning, Scan, Eval, Spell;
    ScanMeans(full, "", args, vals, env);
    assert "" + Meaning(full, vals) == Meaning(full, vals);
    var ps := Scan(full, "", args);
    var ts := AbsTerms(full, args);
    if ps == [] {
      assert Sum([Empty], env) == "" + Sum([], env);
    } else {
      TermsOfPieces(ps, ts, env);
      assert forall k :: 0 <= k < |ts| ==> Readable(PieceTerm(ps[k], false), env);
    }
    EvalOfSpell(ts, env);
  }

  // ----- The theorem

  /** Braces only around whole segments of the operation, and no newlines. */
  ghost predicate Compilable(server: string, coll: string, op: string)
  {
    && AllWhole(Segments(LStripSlash(op)))
    && BraceFree(server) && BraceFree(coll)
    && NoNewline(server) && NoNewline(coll) && NoNewline(op)
  }

  /** The segments of an operation behind the collection. */
  function Behind(server: string, coll: string, op: string): seq<string>
  {
    var full, absp := JoinPath(server, coll), JoinPath(server, op);
    if StartsWith(absp, full + "/") then Segments(absp[|full| + 1..]) else []
  }

  lemma {:induction false} LStripProps(s: string)
    ensures LStripSlash(LStripSlash(s)) == LStripSlash(s)
    ensures NoNewline(s) ==> NoNewline(LStripSlash(s))
    ensures BraceFree(s) ==> BraceFree(LStripSlash(s))
  {
    if s != "" && s[0] == '/' {
      assert forall k :: 0 <= k < |s| - 1 ==> s[1..][k] == s[k + 1];
      LStripProps(s[1..]);
    }
  }

  /** The joined path, and the path that is compiled if it is absolute: they differ for an operation of
      nothing but slashes. */
  lemma AbsolutePath(server: string, coll: string, op: string)
    requires Compilable(server, coll, op)
    ensures var absp, compiled := JoinPath(server, op), JoinPath(server, LStripSlash(op));
            && compiled == (if LStripSlash(op) == "" then server else absp)
            && NoNewline(absp) && AllWhole(Segments(absp)) && AllWhole(Segments(compiled))
            && ParamCount(Segments(absp)) == ParamCount(Segments(compiled))
            && (LStripSlash(op) == "" ==> ParamCount(Segments(absp)) == 0)
  {
    hide Segments, BraceFree, WholeSegment, NoNewline, ParamCount, RStripSlash;
    var front, tail := RStripSlash(server), LStripSlash(op);
    LStripProps(op);
    FrontIsBraceFree(server);
    BraceFreeHasNoParams(server);
    BraceFreeHasNoParams(front);
    SegmentsOfJoin(front, tail);
    ParamsOfConcat(Segments(front), Segments(tail));
    NoNewlineOfJoin(front, tail);
    EmptyMeaning();
  }

  lemma FrontIsBraceFree(server: string)
    ensures BraceFree(server) ==> BraceFree(RStripSlash(server))
    ensures NoNewline(server) ==> NoNewline(RStripSlash(server))
  {
    var front := RStripSlash(server);
    assert forall k :: 0 <= k < |front| ==> front[k] == server[k];
  }

  lemma SegmentsOfJoin(a: string, b: string)
    ensures Segments(a + "/" + b) == Segments(a) + Segments(b)
  {
    SplitOfConcat(a, b, '/');
    assert a + ['/'] + b == a + "/" + b;
  }

  lemma NoNewlineOfJoin(a: string, b: string)
    requires NoNewline(a) && NoNewline(b)
    ensures NoNewline(a + "/" + b)
  {
  }

  lemma {:induction false} SegmentsNewlineFree(s: string)
    requires NoNewline(s)
    ensures NewlineFreeAll(Segments(s))
  {
    if s != "" {
      assert forall k :: 0 <= k < |s| - 1 ==> s[1..][k] == s[k + 1];
      SegmentsNewlineFree(s[1..]);
      var rest := Segments(s[1..]);
      forall k | 0 <= k < |Segments(s)| ensures NoNewline(Segments(s)[k]) {
        if k > 0 {
          assert Segments(s)[k] == if s[0] == '/' then rest[k - 1] else rest[k];
        }
      }
    }
  }

  /** A relative path: the segments behind the collection, without the empty ones. */
  lemma RelativePath(server: string, coll: string, op: string)
    requires Compilable(server, coll, op) && !RelativeTail(server, coll, op).sibling
    ensures var full, absp := JoinPath(server, coll), JoinPath(server, op);
            var segs, behind := RelativeTail(server, coll, op).segs, Behind(server, coll, op);
            && BraceFree(full)
            && segs == NonEmpty(behind)
            && Segments(absp) == Segments(full) + behind
            && ParamCount(segs) == ParamCount(behind) == ParamCount(Segments(absp))
            && NewlineFreeAll(segs)
  {
    hide Segments, BraceFree, NoNewline, ParamCount, NonEmpty, NewlineFreeAll, LStripSlash, RStripSlash, AllWhole;
    var full, absp := JoinPath(server, coll), JoinPath(server, op);
    var behind := Behind(server, coll, op);
    AbsolutePath(server, coll, op);
    FullIsBraceFree(server, coll);
    BraceFreeHasNoParams(full);
    ParamsOfNonEmpty(behind);
    if StartsWith(absp, full + "/") {
      var tail := absp[|full| + 1..];
      assert absp == full + "/" + tail;
      SegmentsOfJoin(full, tail);
      ParamsOfConcat(Segments(full), behind);
      RestOnOneLine(absp, |full| + 1);
      SegmentsNewlineFree(tail);
      NonEmptyNewlineFree(behind);
    } else {
      assert absp == full && behind == [];
      assert Segments(full) + [] == Segments(full);
      NothingBehind();
    }
  }

  lemma FullIsBraceFree(server: string, coll: string)
    requires BraceFree(server) && BraceFree(coll)
    ensures BraceFree(JoinPath(server, coll))
  {
    FrontIsBraceFree(server);
    LStripProps(coll);
  }

  lemma NothingBehind()
    ensures NonEmpty([]) == [] && ParamCount([]) == 0 && NewlineFreeAll([])
  {
  }

  lemma {:induction false} NonEmptyNewlineFree(segs: seq<string>)
    requires NewlineFreeAll(segs)
    ensures NewlineFreeAll(NonEmpty(segs))
  {
    hide NoNewline;
    if segs != [] {
      assert forall k :: 0 <= k < |segs| - 1 ==> segs[1..][k] == segs[k + 1];
      NonEmptyNewlineFree(segs[1..]);
    }
  }

  /** The arguments of a compiled path: as many as the path has parameters, distinct identifiers. */
  lemma CompiledArgs(server: string, coll: string, op: string)
    requires Compilable(server, coll, op)
    ensures Closes(JoinPath(server, LStripSlash(op)))
    ensures var args := Compile(server, coll, op).args;
            && GoodArgs(args)
            && |args| == ParamCount(Segments(JoinPath(server, op)))
  {
    hide IsIdentifier, Segments, Spell, Eval;
    var absp := JoinPath(server, op);
    AbsolutePath(server, coll, op);
    WholeCloses(JoinPath(server, LStripSlash(op)));
    var tail := RelativeTail(server, coll, op);
    ArgNamesAreGood(tail.segs, []);
    if tail.sibling {
      LStripKeepsParams(absp);
      ParamsOfNonEmpty(Segments(LStripSlash(absp)));
    } else {
      RelativePath(server, coll, op);
    }
  }

  /** A relative path whose own parameter hides the member base_path_. */
  ghost predicate HidesBase(server: string, coll: string, op: string)
  {
    var tail := RelativeTail(server, coll, op);
    !tail.sibling && NamesBase(tail.segs)
  }

  lemma HidesBaseMeans(server: string, coll: string, op: string)
    ensures var tail := RelativeTail(server, coll, op);
            HidesBase(server, coll, op) <==> !tail.sibling && BASE in ArgSet(ArgNames(tail.segs, []))
  {
    hide NamesBase, ArgNames;
    BaseArgument(RelativeTail(server, coll, op).segs, []);
  }

  /** Slashes the expression does not keep: of an empty segment of a relative path; or those of an operation
      beside the base path that is nothing but slashes, where the path stays as the server has it. */
  ghost predicate DropsSlashes(server: string, coll: string, op: string)
  {
    if RelativeTail(server, coll, op).sibling then
      op != "" && LStripSlash(op) == "" && server != RStripSlash(server) + "/"
    else
      "" in Behind(server, coll, op)
  }

  /** The path that is compiled if it is absolute is the joined path, exactly if no slashes are dropped. */
  lemma AbsoluteIsCompiled(server: string, coll: string, op: string)
    requires RelativeTail(server, coll, op).sibling
    ensures JoinPath(server, LStripSlash(op)) == JoinPath(server, op) <==> !DropsSlashes(server, coll, op)
  {
    hide RelativeTail;
    var front := RStripSlash(server);
    assert front + "/" + "" == front + "/";
    LStripProps(op);
  }

  /**
   * The compiled expression evaluates to the joined path with every parameter replaced, in order, by the
   * value of its argument.
   */
  lemma CompiledMeans(server: string, coll: string, op: string, vals: seq<string>)
    requires Compilable(server, coll, op)
    requires |vals| == ParamCount(Segments(JoinPath(server, op)))
    requires !HidesBase(server, coll, op) && !DropsSlashes(server, coll, op)
    ensures (CompiledArgs(server, coll, op);
             var c := Compile(server, coll, op);
             Eval(c.expr, Scope(JoinPath(server, coll), c.args, vals)) == Value(Meaning(JoinPath(server, op), vals)))
  {
    hide IsIdentifier, Segments, Spell, Eval, Meaning, HidesBase;
    CompiledArgs(server, coll, op);
    HidesBaseMeans(server, coll, op);
    var full, absp := JoinPath(server, coll), JoinPath(server, op);
    var c := Compile(server, coll, op);
    var env := Scope(full, c.args, vals);
    ScopeBinds(full, c.args, vals);
    AbsolutePath(server, coll, op);
    if RelativeTail(server, coll, op).sibling {
      AbsoluteIsCompiled(server, coll, op);
      AbsTermsMean(absp, c.args, vals, env);
    } else {
      RelativeMeans(server, coll, op, c.args, vals, env);
    }
  }

  lemma RelativeMeans(server: string, coll: string, op: string, args: seq<string>, vals: seq<string>, env: Env)
    requires Compilable(server, coll, op) && !RelativeTail(server, coll, op).sibling
    requires GoodArgs(args) && Binds(env, args, vals) && BASE in env
    requires |args| == ParamCount(RelativeTail(server, coll, op).segs)
    requires |vals| == ParamCount(Segments(JoinPath(server, op)))
    ensures var segs := RelativeTail(server, coll, op).segs;
            Eval(Spell([Name(BASE)] + RelTerms(segs, args)), env) == Value(env[BASE] + Prefixed(Fill(segs, vals)))
    ensures env[BASE] == JoinPath(server, coll) && !DropsSlashes(server, coll, op) ==>
              env[BASE] + Prefixed(Fill(RelativeTail(server, coll, op).segs, vals))
              == Meaning(JoinPath(server, op), vals)
  {
    hide IsIdentifier, Segments, Spell, Eval;
    var full, absp := JoinPath(server, coll), JoinPath(server, op);
    var segs := RelativeTail(server, coll, op).segs;
    RelativePath(server, coll, op);
    RelTermsMean(segs, args, vals, env);
    var ts := [Name(BASE)] + RelTerms(segs, args);
    assert ts[1..] == RelTerms(segs, args);
    BaseIsIdentifier();
    assert AllReadable(ts, env) by {
      assert forall k :: 1 <= k < |ts| ==> ts[k] == RelTerms(segs, args)[k - 1];
    }
    EvalOfSpell(ts, env);
    assert Sum(ts, env) == env[BASE] + Prefixed(Fill(segs, vals));
    RelativeMeaning(full, absp, Behind(server, coll, op), vals);
    if "" !in Behind(server, coll, op) {
      NonEmptyAlready(Behind(server, coll, op));
    }
  }

  lemma BaseIsIdentifier()
    ensures IsIdentifier(BASE)
  {
    assert BASE == "base_path" + ['_'];
    assert IsIdentShaped("base_path");
    SuffixedIsIdentifier("base_path", '_');
  }

  lemma SlashedSegments(s: string)
    ensures Segments(s) != [] && Slashed(Segments(s)) == s
  {
    JoinOfSplit(s, '/');
  }

  lemma RelativeMeaning(full: string, absp: string, behind: seq<string>, vals: seq<string>)
    requires BraceFree(full) && |vals| == ParamCount(behind) == ParamCount(Segments(absp))
    requires Segments(absp) == Segments(full) + behind
    ensures Meaning(absp, vals) == full + Prefixed(Fill(behind, vals))
  {
    hide Segments, ParamCount;
    BraceFreeHasNoParams(full);
    SlashedSegments(full);
    FillOfConcat(Segments(full), behind, vals);
    if behind == [] {
      assert Segments(full) + [] == Segments(full);
      assert full + "" == full;
    } else {
      JoinOfConcat(Segments(full), Fill(behind, vals), "/");
      PrefixedIsJoin(Fill(behind, vals));
    }
  }

  /**
   * For every choice of arguments the expression means the path, exactly when no parameter of a relative
   * path asks for the name base_path_ and hides the member, and no slashes are dropped.
   */
  lemma CompiledMeansExactly(server: string, coll: string, op: string)
    requires Compilable(server, coll, op)
    ensures (CompiledArgs(server, coll, op);
             var c := Compile(server, coll, op);
             (forall vals :: |vals| == |c.args| ==>
                Eval(c.expr, Scope(JoinPath(server, coll), c.args, vals)) == Value(Meaning(JoinPath(server, op), vals)))
             <==> !HidesBase(server, coll, op) && !DropsSlashes(server, coll, op))
  {
    hide Eval, Meaning, Segments, IsIdentifier, HidesBase, DropsSlashes;
    CompiledArgs(server, coll, op);
    var c := Compile(server, coll, op);
    if !HidesBase(server, coll, op) && !DropsSlashes(server, coll, op) {
      forall vals | |vals| == |c.args|
        ensures Eval(c.expr, Scope(JoinPath(server, coll), c.args, vals)) == Value(Meaning(JoinPath(server, op), vals))
      {
        CompiledMeans(server, coll, op, vals);
      }
    } else if RelativeTail(server, coll, op).sibling {
      AbsoluteLoses(server, coll, op);
    } else {
      RelativeLoses(server, coll, op);
    }
  }

  /** A relative path that hides the member or drops slashes: some values give another path. */
  lemma RelativeLoses(server: string, coll: string, op: string)
    requires Compilable(server, coll, op) && !RelativeTail(server, coll, op).sibling
    requires HidesBase(server, coll, op) || DropsSlashes(server, coll, op)
    ensures (CompiledArgs(server, coll, op);
             var c := Compile(server, coll, op);
             exists vals :: |vals| == |c.args| &&
               Eval(c.expr, Scope(JoinPath(server, coll), c.args, vals)) != Value(Meaning(JoinPath(server, op), vals)))
  {
    hide Eval, Segments, IsIdentifier, Meaning, HidesBase, Prefixed, Fill, NonEmpty, ParamCount;
    CompiledArgs(server, coll, op);
    HidesBaseMeans(server, coll, op);
    RelativePath(server, coll, op);
    var c := Compile(server, coll, op);
    var full, absp := JoinPath(server, coll), JoinPath(server, op);
    var segs, behind := RelativeTail(server, coll, op).segs, Behind(server, coll, op);
    NonEmptyShorter(behind);
    var vals := seq(|c.args|, k => full + Repeat('x', |behind| - |segs| + 1));
    var env := Scope(full, c.args, vals);
    ScopeBinds(full, c.args, vals);
    RelativeMeans(server, coll, op, c.args, vals, env);
    RelativeMeaning(full, absp, behind, vals);
    DroppedLength(behind, vals);
    if HidesBase(server, coll, op) {
      var k :| 0 <= k < |c.args| && c.args[k] == BASE;
      assert env[BASE] == vals[k];
    }
    assert |env[BASE] + Prefixed(Fill(segs, vals))| != |full + Prefixed(Fill(behind, vals))|;
  }

  lemma {:induction false} NonEmptyShorter(segs: seq<string>)
    ensures |NonEmpty(segs)| <= |segs|
    ensures |NonEmpty(segs)| < |segs| <==> "" in segs
  {
    if segs != [] {
      NonEmptyShorter(segs[1..]);
      assert segs == [segs[0]] + segs[1..];
    }
  }

  /** Each empty segment that is left out leaves out a slash. */
  lemma {:induction false} DroppedLength(segs: seq<string>, vals: seq<string>)
    requires |vals| == ParamCount(segs)
    ensures |vals| == ParamCount(NonEmpty(segs))
    ensures |Prefixed(Fill(segs, vals))| == |Prefixed(Fill(NonEmpty(segs), vals))| + |segs| - |NonEmpty(segs)|
    decreases |segs|
  {
    ParamsOfNonEmpty(segs);
    if segs != [] {
      var vals' := if IsParam(segs[0]) then vals[1..] else vals;
      DroppedLength(segs[1..], vals');
      var rest := NonEmpty(segs[1..]);
      assert NonEmpty(segs) == if segs[0] == "" then rest else [segs[0]] + rest;
      assert segs[0] != "" ==> NonEmpty(segs)[1..] == rest;
    }
  }

  /** An operation of nothing but slashes beside the base path is not kept. */
  lemma AbsoluteLoses(server: string, coll: string, op: string)
    requires Compilable(server, coll, op) && RelativeTail(server, coll, op).sibling
    requires HidesBase(server, coll, op) || DropsSlashes(server, coll, op)
    ensures (CompiledArgs(server, coll, op);
             var c := Compile(server, coll, op);
             exists vals :: |vals| == |c.args| &&
               Eval(c.expr, Scope(JoinPath(server, coll), c.args, vals)) != Value(Meaning(JoinPath(server, op), vals)))
  {
    hide Eval, Segments, IsIdentifier, Meaning, ParamCount, NoNewline, AllWhole;
    CompiledArgs(server, coll, op);
    AbsolutePath(server, coll, op);
    AbsoluteIsCompiled(server, coll, op);
    var c := Compile(server, coll, op);
    var env := Scope(JoinPath(server, coll), c.args, []);
    ScopeBinds(JoinPath(server, coll), c.args, []);
    assert c.args == [];
    WholeCloses(server);
    AbsTermsMean(server, c.args, [], env);
    PlainMeaning(server);
    PlainMeaning(JoinPath(server, op));
  }

  lemma PlainMeaning(path: string)
    requires ParamCount(Segments(path)) == 0
    ensures Meaning(path, []) == path
  {
    hide Segments;
    var segs := Segments(path);
    SlashedSegments(path);
    FillOfConcat(segs, [], []);
    assert segs + [] == segs;
  }

  /** A parameter that hides the member changes the path, for some values. */
  lemma HiddenBase(server: string, coll: string, op: string)
    requires Compilable(server, coll, op) && HidesBase(server, coll, op)
    ensures (CompiledArgs(server, coll, op);
             var c := Compile(server, coll, op);
             exists vals :: |vals| == |c.args| &&
               Eval(c.expr, Scope(JoinPath(server, coll), c.args, vals)) != Value(Meaning(JoinPath(server, op), vals)))
  {
    RelativeLoses(server, coll, op);
  }

  /** There is such a path. */
  lemma BaseCanBeHidden()
    ensures Compilable("/api", "/things", "/things/{base_path_}")
    ensures HidesBase("/api", "/things", "/things/{base_path_}")
  {
    hide *;
    WitnessParts();
    BaseIsItsOwnName();
    BehindCollection("/api", "things", "{base_path_}");
    OneNamesBase("/api", "/things", "/things/{base_path_}", "{base_path_}");
  }

  /** A slash at the end of a relative path is dropped, and so is an operation that is a single slash. */
  lemma SlashCanBeDropped()
    ensures Compilable("/api", "/things", "/things/") && DropsSlashes("/api", "/things", "/things/")
    ensures Compilable("/api", "/things", "/") && DropsSlashes("/api", "/things", "/")
  {
    hide *;
    SlashParts();
    SlashBehind("/api", "things");
    SlashAlone("/api", "things");
  }

  lemma SlashParts()
    ensures ['/'] + "things" == "/things" && ['/'] + "things" + ['/'] == "/things/" && ['/'] == "/"
    ensures BraceFree("/api") && NoNewline("/api") && BraceFree("things") && NoNewline("things")
    ensures "/api"[3] != '/' && "things" != "" && Free("things", '/')
  {
  }

  lemma SlashBehind(server: string, name: string)
    requires server != "" && server[|server| - 1] != '/' && BraceFree(server) && NoNewline(server)
    requires name != "" && Free(name, '/') && BraceFree(name) && NoNewline(name)
    ensures var coll, op := ['/'] + name, ['/'] + name + ['/'];
            Compilable(server, coll, op) && DropsSlashes(server, coll, op)
  {
    hide SplitOn, LStripSlash;
    var coll, op := ['/'] + name, ['/'] + name + ['/'];
    assert name[0] != '/' && op == ['/'] + (name + ['/']);
    OneSlash(name);
    OneSlash(name + ['/']);
    NoSlashAtEnd(server);
    var full := server + "/" + name;
    assert JoinPath(server, coll) == full;
    assert JoinPath(server, op) == full + "/" + "" by {
      Regrouped(server, name, "");
      assert name + ['/'] + "" == name + ['/'];
    }
    OneParameter(full, "");
    SplitPlain(name, '/');
    SplitPlain("", '/');
    SplitOfConcat(name, "", '/');
    assert name + ['/'] + "" == name + ['/'];
    assert Segments(LStripSlash(op)) == [name, ""];
    assert AllWhole([name, ""]);
    assert Behind(server, coll, op) == [""];
    assert [""][0] == "";
  }

  lemma SlashAlone(server: string, name: string)
    requires server != "" && server[|server| - 1] != '/' && BraceFree(server) && NoNewline(server)
    requires name != "" && Free(name, '/') && BraceFree(name) && NoNewline(name)
    ensures Compilable(server, ['/'] + name, ['/']) && DropsSlashes(server, ['/'] + name, ['/'])
  {
    hide SplitOn, LStripSlash;
    OneSlash(name);
    NoSlashAtEnd(server);
    LoneSlash();
    SplitPlain("", '/');
    assert AllWhole([""]);
    var full, absp := JoinPath(server, ['/'] + name), JoinPath(server, ['/']);
    assert full == server + "/" + name && absp == server + "/" + "";
    assert |absp| < |full|;
  }

  lemma LoneSlash()
    ensures LStripSlash(['/']) == ""
  {
  }

  lemma WitnessParts()
    ensures ['/'] + "things" == "/things" && ['/'] + "things" + ['/'] + "{base_path_}" == "/things/{base_path_}"
    ensures BraceFree("/api") && NoNewline("/api") && BraceFree("things") && NoNewline("things")
    ensures Free("things", '/') && Free("{base_path_}", '/') && NoNewline("{base_path_}")
  {
  }

  lemma OneNamesBase(server: string, coll: string, op: string, seg: string)
    requires RelativeTail(server, coll, op) == Tail([seg], false)
    requires IsParam(seg) && ArgFor(Inner(seg)) == BASE
    ensures HidesBase(server, coll, op)
  {
    hide RelativeTail, IsParam, ArgFor, Inner;
    assert [seg][0] == seg;
  }

  /** A path of one parameter behind a collection of one segment is relative, and the parameter is its tail. */
  lemma BehindCollection(server: string, name: string, seg: string)
    requires server != "" && server[|server| - 1] != '/' && BraceFree(server) && NoNewline(server)
    requires name != "" && Free(name, '/') && BraceFree(name) && NoNewline(name)
    requires IsParam(seg) && WholeSegment(seg) && Free(seg, '/') && NoNewline(seg)
    ensures var coll, op := ['/'] + name, ['/'] + name + ['/'] + seg;
            Compilable(server, coll, op) && RelativeTail(server, coll, op) == Tail([seg], false)
  {
    hide SplitOn, LStripSlash, IsParam;
    var coll, op := ['/'] + name, ['/'] + name + ['/'] + seg;
    assert name[0] != '/';
    OneSlash(name);
    OneSlash(name + ['/'] + seg);
    assert op == ['/'] + (name + ['/'] + seg);
    var full := server + "/" + name;
    NoSlashAtEnd(server);
    assert JoinPath(server, coll) == full;
    assert JoinPath(server, op) == server + "/" + (name + ['/'] + seg);
    Regrouped(server, name, seg);
    OneParameter(full, seg);
    SplitPlain(name, '/');
    SplitPlain(seg, '/');
    SplitOfConcat(name, seg, '/');
    ParamNotEmpty(seg);
    var segs := Segments(LStripSlash(op));
    assert segs == [name, seg];
    assert AllWhole(segs);
    assert RelativeTail(server, coll, op) == Tail([seg], false);
  }

  lemma NoSlashAtEnd(s: string)
    requires s != "" && s[|s| - 1] != '/'
    ensures RStripSlash(s) == s
  {
  }

  lemma OneSlash(s: string)
    requires s != "" && s[0] != '/'
    ensures LStripSlash(['/'] + s) == s
  {
    assert (['/'] + s)[1..] == s;
    assert LStripSlash(s) == s;
  }

  lemma ParamNotEmpty(seg: string)
    requires IsParam(seg)
    ensures seg != "" && NonEmpty([seg]) == [seg]
  {
    assert [seg][1..] == [];
    assert NonEmpty([]) == [];
  }

  lemma Regrouped(a: string, b: string, c: string)
    ensures a + "/" + (b + ['/'] + c) == a + "/" + b + "/" + c
  {
  }

  lemma OneParameter(full: string, seg: string)
    ensures (full + "/" + seg)[..|full + "/"|] == full + "/"
    ensures (full + "/" + seg)[|full| + 1..] == seg
  {
  }

  lemma BaseIsItsOwnName()
    ensures IsParam("{base_path_}") && WholeSegment("{base_path_}") && ArgFor(Inner("{base_path_}")) == BASE
  {
    assert "{base_path_}"[1..11] == BASE;
    BaseIsIdentifier();
    SnakeIdentIsIdentifier(BASE);
  }
}
