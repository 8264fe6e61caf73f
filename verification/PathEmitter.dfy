// method_call_path and abs_cpp_path in the form generate_rest.py gives them: loops over lists of text.

module PathEmitter {
  import opened Sequences
  import opened Wrappers
  import opened CppLiterals
  import opened MemberNames
  import opened Paths
  import opened CppExpr
  import opened PathCompiler

  // ----- abs_cpp_path

  function ShowPiece(p: Piece): string
  {
    match p
    case LitPiece(text) => CppStr(text)
    case VarPiece(name) => name
  }

  function ShowPieces(ps: seq<Piece>): (r: seq<string>)
    ensures |r| == |ps|
    ensures forall k :: 0 <= k < |ps| ==> r[k] == ShowPiece(ps[k])
  {
    seq(|ps|, k requires 0 <= k < |ps| => ShowPiece(ps[k]))
  }

  /** The scan only mentions arguments it was given. */
  lemma {:induction false} ScanUsesArgs(s: string, lit: string, args: seq<string>, all: set<string>)
    requires Closes(s) && ArgSet(args) <= all
    ensures forall k :: 0 <= k < |Scan(s, lit, args)| ==>
              Scan(s, lit, args)[k].VarPiece? ==> Scan(s, lit, args)[k].name in all
    decreases |s|
  {
    if s == "" {
    } else if s[0] == '{' {
      var rest := s[CloseAt(s) + 1..];
      var args' := if args == [] then [] else args[1..];
      assert ArgSet(args') <= ArgSet(args) by {
        assert forall k :: 0 <= k < |args'| ==> args'[k] == args[k + 1];
      }
      ScanUsesArgs(rest, "", args', all);
      assert args != [] ==> args[0] in ArgSet(args);
    } else {
      ScanUsesArgs(s[1..], lit + [s[0]], args, all);
    }
  }

  /** A quoted literal is not the name of an argument. */
  lemma QuotedIsNoArgument(text: string, args: seq<string>)
    requires GoodArgs(args)
    ensures CppStr(text) !in args
  {
    hide IsKeyword;
    var quoted := CppStr(text);
    assert quoted[0] == '"';
    hide CppStr;
    forall k | 0 <= k < |args| ensures args[k] != quoted {
      assert IsIdentChar(args[k][0]);
    }
  }

  /** The text of what is still to be scanned. */
  ghost function Shown(s: string, lit: string, args: seq<string>): seq<string>
    requires Closes(s)
  {
    ShowPieces(Scan(s, lit, args))
  }

  lemma ShownLiteral(s: string, lit: string, args: seq<string>)
    requires s != "" && s[0] != '{' && Closes(s)
    ensures Closes(s[1..]) && Shown(s, lit, args) == Shown(s[1..], lit + [s[0]], args)
  {
  }

  lemma ShownEnd(lit: string, args: seq<string>)
    ensures Shown("", lit, args) == if lit == "" then [] else [CppStr(lit)]
  {
    hide CppStr;
  }

  lemma ShowConcat(a: seq<Piece>, b: seq<Piece>)
    ensures ShowPieces(a + b) == ShowPieces(a) + ShowPieces(b)
  {
    hide ShowPiece;
  }

  lemma ShowFlushed(lit: string)
    ensures ShowPieces(FlushLit(lit)) == if lit == "" then [] else [CppStr(lit)]
  {
    hide CppStr;
  }

  lemma ScanBrace(s: string, lit: string, args: seq<string>)
    requires s != "" && s[0] == '{' && Closes(s)
    ensures CloseAt(s) < |s| && Closes(s[CloseAt(s) + 1..])
    ensures Scan(s, lit, args)
         == FlushLit(lit) + (if args == [] then [] else [VarPiece(args[0])])
          + Scan(s[CloseAt(s) + 1..], "", if args == [] then [] else args[1..])
  {
    hide FlushLit, CloseAt;
  }

  lemma ShownBrace(s: string, lit: string, args: seq<string>)
    requires s != "" && s[0] == '{' && Closes(s)
    ensures CloseAt(s) < |s| && Closes(s[CloseAt(s) + 1..])
    ensures Shown(s, lit, args)
         == (if lit == "" then [] else [CppStr(lit)]) + (if args == [] then [] else [args[0]])
          + Shown(s[CloseAt(s) + 1..], "", if args == [] then [] else args[1..])
  {
    hide CppStr, CloseAt, ShowPieces, FlushLit, Scan, Closes;
    ScanBrace(s, lit, args);
    var vars := if args == [] then [] else [VarPiece(args[0])];
    var more := Scan(s[CloseAt(s) + 1..], "", if args == [] then [] else args[1..]);
    ShowFlushed(lit);
    ShowFirst(args);
    ShowConcat(FlushLit(lit), vars);
    ShowConcat(FlushLit(lit) + vars, more);
  }

  lemma ShowFirst(args: seq<string>)
    ensures var vars := if args == [] then [] else [VarPiece(args[0])];
            ShowPieces(vars) == if args == [] then [] else [args[0]]
  {
    if args != [] {
      ShowOne(args[0]);
    }
  }

  lemma ShowOne(name: string)
    ensures ShowPieces([VarPiece(name)]) == [name]
  {
  }

  // ----- When the scan ends

  /** Where the loop goes on: find gives -1 where no brace closes, and the loop starts over. */
  function Next(full: string, i: nat): (n: nat)
    requires i < |full|
    ensures n <= |full|
  {
    if full[i] != '{' then i + 1
    else
      var c := CloseAt(full[i..]);
      if c < |full| - i then i + c + 1 else 0
  }

  /** The loop ends within so many turns. */
  predicate Ends(full: string, i: nat, turns: nat)
    requires i <= |full|
    decreases turns
  {
    i == |full| || (turns > 0 && Ends(full, Next(full, i), turns - 1))
  }

  lemma NextCloses(full: string, i: nat)
    requires i < |full|
    ensures Closes(full[i..]) ==> Next(full, i) > i && Closes(full[Next(full, i)..])
    ensures !Closes(full) && !Closes(full[i..]) ==> !Closes(full[Next(full, i)..])
  {
    hide CloseAt;
    var rest := full[i..];
    var c := CloseAt(rest);
    if full[i] == '{' {
      if c < |rest| {
        assert rest[c + 1..] == full[i + c + 1..];
      } else {
        assert full[0..] == full;
      }
    } else {
      assert rest[1..] == full[i + 1..];
    }
  }

  lemma {:induction false} ClosedEnds(full: string, i: nat, turns: nat)
    requires i <= |full| && Closes(full[i..]) && turns >= |full| - i
    ensures Ends(full, i, turns)
    decreases |full| - i
  {
    hide Next, Closes;
    if i < |full| {
      NextCloses(full, i);
      ClosedEnds(full, Next(full, i), turns - 1);
    }
  }

  lemma {:induction false} UnclosedGoesOn(full: string, i: nat, turns: nat)
    requires i <= |full| && !Closes(full) && !Closes(full[i..])
    ensures !Ends(full, i, turns)
    decreases turns
  {
    hide Next;
    if i < |full| && turns > 0 {
      NextCloses(full, i);
      UnclosedGoesOn(full, Next(full, i), turns - 1);
    }
  }

  /** The scan ends if and only if every brace it opens is closed, and then within as many turns as there are
      characters. */
  lemma ScanEndsIffCloses(full: string)
    ensures (exists turns: nat :: Ends(full, 0, turns)) <==> Closes(full)
    ensures Closes(full) ==> Ends(full, 0, |full|)
  {
    hide Closes, Ends;
    assert full[0..] == full;
    if Closes(full) {
      ClosedEnds(full, 0, |full|);
    } else {
      forall turns: nat ensures !Ends(full, 0, turns) {
        UnclosedGoesOn(full, 0, turns);
      }
    }
  }

  /** A brace left open keeps the scan going for ever. */
  lemma OpenBraceGoesOn(turns: nat)
    ensures !Ends("/a/{id", 0, turns)
  {
    hide Ends;
    var full := "/a/{id";
    assert full[1..][1..][1..] == "{id" && CloseAt("{id") == 3;
    assert !Closes(full[1..][1..][1..]);
    assert !Closes(full);
    ScanEndsIffCloses(full);
  }

  lemma OneTurn(full: string, i: nat, turns: nat)
    requires i < |full|
    ensures Ends(full, i, turns) <==> turns > 0 && Ends(full, Next(full, i), turns - 1)
  {
    hide Next;
  }

  lemma NextIs(full: string, i: nat)
    requires i < |full|
    ensures var c := CloseAt(full[i..]);
            Next(full, i) == if full[i] != '{' then i + 1 else if c < |full| - i then i + c + 1 else 0
  {
  }

  /** If all braces close, what is out and what is to come make up the total. */
  ghost predicate Going(full: string, i: nat, out: seq<string>, lit: string, args: seq<string>, total: seq<string>)
    requires i <= |full|
  {
    Closes(full) ==> Closes(full[i..]) && out + Shown(full[i..], lit, args) == total
  }

  lemma GoingBrace(full: string, i: nat, out: seq<string>, lit: string, args: seq<string>, total: seq<string>)
    requires i < |full| && full[i] == '{' && Going(full, i, out, lit, args, total)
    ensures Going(full, Next(full, i),
                  out + ((if lit == "" then [] else [CppStr(lit)]) + (if args == [] then [] else [args[0]])),
                  "", if args == [] then [] else args[1..], total)
  {
    hide CppStr, CloseAt, Shown, Closes;
    if Closes(full) {
      var rest := full[i..];
      ShownBrace(rest, lit, args);
      assert rest[CloseAt(rest) + 1..] == full[i + CloseAt(rest) + 1..];
    }
  }

  lemma GoingLiteral(full: string, i: nat, out: seq<string>, lit: string, args: seq<string>, total: seq<string>)
    requires i < |full| && full[i] != '{' && Going(full, i, out, lit, args, total)
    ensures Going(full, Next(full, i), out, lit + [full[i]], args, total)
  {
    hide Shown, Closes, CloseAt;
    if Closes(full) {
      ShownLiteral(full[i..], lit, args);
      assert full[i..][1..] == full[i + 1..];
    }
  }

  lemma GoingEnds(full: string, out: seq<string>, lit: string, args: seq<string>, given: seq<string>)
    requires Closes(full) && Going(full, |full|, out, lit, args, Shown(full, "", given))
    ensures out + (if lit == "" then [] else [CppStr(lit)]) == ShowPieces(Scan(full, "", given))
  {
    hide CppStr, Scan, ShowPieces, Shown;
    ShownEnd(lit, args);
    assert full[|full|..] == "";
    ShownAll(full, given);
  }

  /** The first loop: literal runs and arguments, as text; nothing if it does not end within so many turns. */
  method ScanPath(full: string, idArgs: seq<string>, turns: nat) returns (r: Option<seq<string>>)
    ensures r.Some? <==> Ends(full, 0, turns)
    ensures r.Some? ==> Closes(full) && r.value == ShowPieces(Scan(full, "", idArgs))
  {
    hide CppStr, CloseAt, Scan, ShowPieces, Shown, Closes, Ends, Next, Going;
    ScanEndsIffCloses(full);
    var out: seq<string> := [];
    var literal := "";
    var ai, i, left := 0, 0, turns;
    ghost var total := if Closes(full) then Shown(full, "", idArgs) else [];
    assert idArgs[0..] == idArgs;
    GoingFirst(full, idArgs, total);
    while i < |full|
      invariant 0 <= i <= |full| && 0 <= ai <= |idArgs|
      invariant Ends(full, 0, turns) <==> Ends(full, i, left)
      invariant Going(full, i, out, literal, idArgs[ai..], total)
      decreases left
    {
      OneTurn(full, i, left);
      NextIs(full, i);
      if left == 0 {
        return None;
      }
      left := left - 1;
      if full[i] == '{' {
        GoingBrace(full, i, out, literal, idArgs[ai..], total);
        ghost var args := idArgs[ai..];
        ghost var more := (if literal == "" then [] else [CppStr(literal)]) + (if args == [] then [] else [args[0]]);
        ghost var before := out;
        var n := CloseAt(full[i..]);
        var j := if n < |full| - i then i + n else -1;
        if literal != "" {
          out := out + [CppStr(literal)];
          literal := "";
        }
        if ai < |idArgs| {
          assert args[0] == idArgs[ai] && args[1..] == idArgs[ai + 1..];
          out := out + [idArgs[ai]];
          ai := ai + 1;
        }
        assert out == before + more && idArgs[ai..] == if args == [] then [] else args[1..];
        i := j + 1;
        continue;
      }
      GoingLiteral(full, i, out, literal, idArgs[ai..], total);
      literal := literal + [full[i]];
      i := i + 1;
    }
    assert Ends(full, 0, turns) by { AtEnd(full, left); }
    GoingEnds(full, out, literal, idArgs[ai..], idArgs);
    if literal != "" {
      out := out + [CppStr(literal)];
    }
    r := Some(out);
  }

  lemma GoingFirst(full: string, args: seq<string>, total: seq<string>)
    requires Closes(full) ==> total == Shown(full, "", args)
    ensures Going(full, 0, [], "", args, total)
  {
    hide Shown, Closes;
    assert full[0..] == full;
  }

  lemma AtEnd(full: string, left: nat)
    ensures Ends(full, |full|, left)
  {
  }

  lemma ShownAll(full: string, args: seq<string>)
    requires Closes(full)
    ensures Shown(full, "", args) == ShowPieces(Scan(full, "", args))
  {
  }

  /** The second loop: only a leading literal is wrapped in std::string(...). */
  method AbsCppPath(full: string, idArgs: seq<string>, turns: nat) returns (r: Option<string>)
    requires GoodArgs(idArgs)
    ensures r.Some? <==> Ends(full, 0, turns)
    ensures r.Some? ==> Closes(full) && r.value == Spell(AbsTerms(full, idArgs))
  {
    hide CppStr, Scan, Closes;
    var scanned := ScanPath(full, idArgs, turns);
    if scanned.None? {
      return None;
    }
    var out := scanned.value;
    ghost var ps := Scan(full, "", idArgs);
    ScanUsesArgs(full, "", idArgs, ArgSet(idArgs));
    var parts: seq<string> := [];
    for k := 0 to |out|
      invariant |parts| == k
      invariant forall m :: 0 <= m < k ==> parts[m] == Show(PieceTerm(ps[m], m == 0))
    {
      var o := out[k];
      if ps[k].LitPiece? {
        QuotedIsNoArgument(ps[k].text, idArgs);
      } else {
        assert ps[k].name in ArgSet(idArgs);
      }
      if o in idArgs {
        parts := parts + [o];
      } else {
        parts := parts + [if k == 0 then "std::string(" + o + ")" else o];
      }
    }
    if parts != [] {
      assert parts == ShowAll(PieceTerms(ps));
      r := Some(JoinWith(parts, " + "));
    } else {
      r := Some("std::string()");
      assert ShowAll([Empty]) == ["std::string()"];
    }
  }

  // ----- method_call_path

  datatype RelPiece = LIT(text: string) | VAR(arg: string)

  function RelPieces(segs: seq<string>, args: seq<string>): (r: seq<RelPiece>)
    requires |args| >= ParamCount(segs)
    ensures |r| == |segs|
  {
    if segs == [] then []
    else if IsParam(segs[0]) then [VAR(args[0])] + RelPieces(segs[1..], args[1..])
    else [LIT(segs[0])] + RelPieces(segs[1..], args)
  }

  function PieceTail(ps: seq<RelPiece>): string
  {
    if ps == [] then ""
    else
      (match ps[0]
       case LIT(text) => " + \"/\" + std::string(" + CppStr(text) + ")"
       case VAR(arg) => " + \"/\" + " + arg) + PieceTail(ps[1..])
  }

  lemma SlashLiteral()
    ensures Show(Quoted("/")) == "\"/\""
  {
    assert Escape("/") == "/" + Escape("") by {
      assert "/"[1..] == "";
    }
    TwoReplacesAreOnePass("/");
  }

  lemma NoPieces()
    ensures PieceTail([]) == SpellRest([]) == ""
  {
  }

  lemma OnePiece(p: RelPiece, ps: seq<RelPiece>, t: Term)
    requires t == match p case LIT(text) => Wrapped(text) case VAR(arg) => Name(arg)
    ensures PieceTail([p] + ps) == " + \"/\"" + (" + " + Show(t) + PieceTail(ps))
  {
    hide CppStr;
    assert ([p] + ps)[1..] == ps;
    var rest := PieceTail(ps);
    if p.LIT? {
      var lit := CppStr(p.text);
      assert " + \"/\" + std::string(" + lit + ")" + rest == " + \"/\"" + (" + " + ("std::string(" + lit + ")") + rest);
    } else {
      assert " + \"/\" + " + p.arg + rest == " + \"/\"" + (" + " + p.arg + rest);
    }
  }

  lemma {:induction false} PieceTailSpells(segs: seq<string>, args: seq<string>)
    requires |args| >= ParamCount(segs)
    ensures PieceTail(RelPieces(segs, args)) == SpellRest(RelTerms(segs, args))
  {
    hide CppStr, IsParam, PieceTail, SpellRest, Show;
    if segs == [] {
      NoPieces();
    } else {
      var param := IsParam(segs[0]);
      var args' := if param then args[1..] else args;
      PieceTailSpells(segs[1..], args');
      var t := if param then Name(args[0]) else Wrapped(segs[0]);
      var rest := RelTerms(segs[1..], args');
      TwoTerms(t, rest);
      var ps := RelPieces(segs[1..], args');
      var p := if param then VAR(args[0]) else LIT(segs[0]);
      assert RelPieces(segs, args) == [p] + ps;
      OnePiece(p, ps, t);
      assert RelTerms(segs, args) == [Quoted("/"), t] + rest;
    }
  }

  lemma TwoTerms(t: Term, rest: seq<Term>)
    ensures SpellRest([Quoted("/"), t] + rest) == " + \"/\"" + (" + " + Show(t) + SpellRest(rest))
  {
    hide Show;
    SlashLiteral();
    var ts := [Quoted("/"), t] + rest;
    assert ts[1..] == [t] + rest && ts[1..][1..] == rest;
    assert SpellRest(ts[1..]) == " + " + Show(t) + SpellRest(rest);
    assert SpellRest(ts) == " + " + Show(Quoted("/")) + SpellRest(ts[1..]);
  }

  /** `while arg in id_args: arg += "2"` */
  method DistinctArg(start: string, idArgs: seq<string>) returns (arg: string)
    ensures arg == Fresh(start, '2', ArgSet(idArgs))
  {
    arg := start;
    while arg in idArgs
      invariant Fresh(arg, '2', ArgSet(idArgs)) == Fresh(start, '2', ArgSet(idArgs))
      decreases |Rivals(arg, ArgSet(idArgs))|
    {
      assert arg in ArgSet(idArgs);
      FewerRivals(arg, '2', ArgSet(idArgs));
      arg := arg + "2";
    }
  }

  /** The names so far belong to the final ones, and the pieces so far to all the pieces. */
  ghost predicate Naming(segs: seq<string>, names: seq<string>, pieces: seq<RelPiece>, final: seq<string>,
                         all: seq<RelPiece>)
  {
    && ArgNames(segs, names) == final
    && names <= final && |final| - |names| == ParamCount(segs)
    && pieces + RelPieces(segs, final[|names|..]) == all
  }

  lemma NamingBegins(segs: seq<string>)
    ensures Naming(segs, [], [], ArgNames(segs, []), RelPieces(segs, ArgNames(segs, [])))
  {
    hide IsParam, ArgFor, Fresh;
    var final := ArgNames(segs, []);
    assert final[0..] == final;
  }

  lemma NamingParam(segs: seq<string>, names: seq<string>, pieces: seq<RelPiece>, final: seq<string>,
                    all: seq<RelPiece>)
    requires segs != [] && IsParam(segs[0]) && Naming(segs, names, pieces, final, all)
    ensures var arg := Fresh(ArgFor(Inner(segs[0])), '2', ArgSet(names));
            Naming(segs[1..], names + [arg], pieces + [VAR(arg)], final, all)
  {
    hide IsParam, ArgFor, Fresh;
    var arg := Fresh(ArgFor(Inner(segs[0])), '2', ArgSet(names));
    var n := |names|;
    assert (names + [arg])[n] == arg;
    assert final[n] == arg && final[n..][1..] == final[n + 1..];
    assert pieces + ([VAR(arg)] + RelPieces(segs[1..], final[n + 1..]))
        == pieces + [VAR(arg)] + RelPieces(segs[1..], final[n + 1..]);
  }

  lemma NamingLiteral(segs: seq<string>, names: seq<string>, pieces: seq<RelPiece>, final: seq<string>,
                      all: seq<RelPiece>)
    requires segs != [] && !IsParam(segs[0]) && Naming(segs, names, pieces, final, all)
    ensures Naming(segs[1..], names, pieces + [LIT(segs[0])], final, all)
  {
    hide IsParam, ArgFor, Fresh;
    var rest := RelPieces(segs[1..], final[|names|..]);
    assert pieces + ([LIT(segs[0])] + rest) == pieces + [LIT(segs[0])] + rest;
  }

  lemma NamingEnds(names: seq<string>, pieces: seq<RelPiece>, final: seq<string>, all: seq<RelPiece>)
    requires Naming([], names, pieces, final, all)
    ensures names == final && pieces == all
  {
  }

  /** The loop over the segments. */
  method NameSegments(segs: seq<string>) returns (idArgs: seq<string>, pieces: seq<RelPiece>)
    ensures idArgs == ArgNames(segs, [])
    ensures pieces == RelPieces(segs, idArgs)
  {
    hide IsParam, ArgFor, Fresh, Naming, ArgNames, RelPieces;
    idArgs, pieces := [], [];
    ghost var final := ArgNames(segs, []);
    ghost var all := RelPieces(segs, final);
    NamingBegins(segs);
    assert segs[0..] == segs;
    for i := 0 to |segs|
      invariant Naming(segs[i..], idArgs, pieces, final, all)
    {
      var s := segs[i];
      assert segs[i..][1..] == segs[i + 1..];
      if IsParam(s) {
        NamingParam(segs[i..], idArgs, pieces, final, all);
        var arg := DistinctArg(ArgFor(Inner(s)), idArgs);
        idArgs := idArgs + [arg];
        pieces := pieces + [VAR(arg)];
      } else {
        NamingLiteral(segs[i..], idArgs, pieces, final, all);
        pieces := pieces + [LIT(s)];
      }
    }
    assert segs[|segs|..] == [];
    NamingEnds(idArgs, pieces, final, all);
  }

  /** The arguments and the expression; no expression if the scan of an absolute path does not end in time. */
  method MethodCallPath(server: string, coll: string, op: string, turns: nat)
    returns (idArgs: seq<string>, r: Option<string>)
    ensures idArgs == ArgNames(RelativeTail(server, coll, op).segs, [])
    ensures r.Some? <==>
              (RelativeTail(server, coll, op).sibling ==> Ends(JoinPath(server, LStripSlash(op)), 0, turns))
    ensures r.Some? ==>
              && (RelativeTail(server, coll, op).sibling ==> Closes(JoinPath(server, LStripSlash(op))))
              && Compile(server, coll, op) == Compiled(idArgs, r.value)
  {
    hide CppStr, Closes, Scan, Spell, RelativeTail, Ends;
    var tail := RelativeTail(server, coll, op);
    var pieces;
    idArgs, pieces := NameSegments(tail.segs);
    ArgNamesAreGood(tail.segs, []);
    if tail.sibling {
      var full := JoinPath(server, LStripSlash(op));
      r := AbsCppPath(full, idArgs, turns);
    } else {
      var expr := BASE;
      for i := 0 to |pieces|
        invariant expr + PieceTail(pieces[i..]) == BASE + PieceTail(pieces)
      {
        assert pieces[i..][1..] == pieces[i + 1..];
        match pieces[i] {
          case LIT(val) => expr := expr + (" + \"/\" + std::string(" + CppStr(val) + ")");
          case VAR(val) => expr := expr + (" + \"/\" + " + val);
        }
      }
      PieceTailSpells(tail.segs, idArgs);
      SpellCons(Name(BASE), RelTerms(tail.segs, idArgs));
      r := Some(expr);
    }
  }
}
