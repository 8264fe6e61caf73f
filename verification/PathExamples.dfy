// Two paths compiled all the way to the text that is emitted.

module PathExamples {
  import opened Sequences
  import opened Wrappers
  import opened CppLiterals
  import opened MemberNames
  import opened Paths
  import opened CppExpr
  import opened PathCompiler

  // ----- Literal text in a scan

  lemma {:induction false} ScanLiteral(lit: string, rest: string, before: string, args: seq<string>)
    requires Free(lit, '{') && Closes(rest)
    ensures Closes(lit + rest) && Scan(lit + rest, before, args) == Scan(rest, before + lit, args)
    decreases |lit|
  {
    var t := lit + rest;
    if lit == "" {
      assert t == rest && before + lit == before;
    } else {
      assert t[0] == lit[0] && t[1..] == lit[1..] + rest;
      ScanLiteral(lit[1..], rest, before + [lit[0]], args);
      assert before + [lit[0]] + lit[1..] == before + lit;
    }
  }

  lemma {:induction false} CloseAtIs(inner: string, rest: string)
    requires Free(inner, '}')
    ensures CloseAt(inner + "}" + rest) == |inner|
  {
    var t := inner + "}" + rest;
    if inner == "" {
      assert t[0] == '}';
    } else {
      assert t[1..] == inner[1..] + "}" + rest;
      CloseAtIs(inner[1..], rest);
    }
  }

  /** A literal and a parameter behind it: the literal is wrapped. */
  lemma LiteralThenParam(lit: string, inner: string, arg: string)
    requires lit != "" && Free(lit, '{') && Free(inner, '}')
    ensures Closes(lit + ("{" + inner + "}"))
    ensures AbsTerms(lit + ("{" + inner + "}"), [arg]) == [Wrapped(lit), Name(arg)]
  {
    var brace := "{" + inner + "}";
    CloseAtIs("{" + inner, "");
    assert "{" + inner + "}" + "" == brace;
    var c := CloseAt(brace);
    assert c == |inner| + 1 && brace[c + 1..] == "";
    assert Closes("");
    ScanLiteral(lit, brace, "", [arg]);
    assert "" + lit == lit;
    var vars := FlushLit(lit) + [VarPiece(arg)] + Scan("", "", [arg][1..]);
    assert Scan(brace, lit, [arg]) == vars;
    assert FlushLit(lit) == [LitPiece(lit)] && Scan("", "", [arg][1..]) == [];
    assert vars == [LitPiece(lit), VarPiece(arg)];
  }

  /** And so the text is: the literal as a string object, then the argument. */
  lemma LiteralThenParamText(lit: string, inner: string, arg: string)
    requires lit != "" && Free(lit, '{') && Free(inner, '}')
    ensures Closes(lit + ("{" + inner + "}"))
    ensures Spell(AbsTerms(lit + ("{" + inner + "}"), [arg])) == "std::string(" + CppStr(lit) + ") + " + arg
  {
    hide CppStr;
    LiteralThenParam(lit, inner, arg);
    TwoShown(Wrapped(lit), Name(arg));
  }

  lemma TwoShown(a: Term, b: Term)
    ensures Spell([a, b]) == Show(a) + " + " + Show(b)
  {
    hide Show;
    assert ShowAll([a, b]) == [Show(a), Show(b)];
    assert [Show(a), Show(b)][1..] == [Show(b)];
    assert JoinWith([Show(b)], " + ") == Show(b);
  }

  /** A literal without quotes or backslashes is itself between quotes. */
  lemma {:induction false} EscapeNothing(s: string)
    requires Free(s, '"') && Free(s, '\\')
    ensures Escape(s) == s
  {
    if s != "" {
      EscapeNothing(s[1..]);
      assert [s[0]] + s[1..] == s;
    }
  }

  lemma PlainCppStr(s: string)
    requires Free(s, '"') && Free(s, '\\')
    ensures CppStr(s) == "\"" + s + "\""
  {
    TwoReplacesAreOnePass(s);
    EscapeNothing(s);
  }

  /** Quotes and backslashes are escaped. */
  lemma EscapedText()
    ensures CppStr("a\"b\\c") == "\"a\\\"b\\\\c\""
  {
    var s := "a\"b\\c";
    TwoReplacesAreOnePass(s);
    assert s[1..] == "\"b\\c" && "\"b\\c"[1..] == "b\\c" && "b\\c"[1..] == "\\c" && "\\c"[1..] == "c" && "c"[1..] == "";
    assert Escape("c") == "c";
    assert Escape("\\c") == "\\\\c";
    assert Escape("b\\c") == "b\\\\c";
    assert Escape("\"b\\c") == "\\\"b\\\\c";
  }

  // ----- The two forms

  lemma IdArgument()
    ensures ArgNames(["{id}"], []) == ["id"] && ParamCount(["{id}"]) == 1
  {
    assert IsParam("{id}") && "{id}"[1..3] == "id";
    assert "id"[1] == 'd';
    PlainName();
    assert ArgSet([]) == {};
    assert Fresh("id", '2', {}) == "id";
    assert ["{id}"][1..] == [];
    assert [] + ["id"] == ["id"];
  }

  lemma PlainName()
    ensures ArgFor("id") == "id"
  {
    assert !IsKeyword("id");
    SnakeIdentIsIdentifier("id");
    assert |"id"| != |"e164_number"|;
  }

  /** Behind the collection: the member, a slash, the argument. */
  lemma RelativeText()
    ensures RelativeTail("/api", "/things", "/things/{id}") == Tail(["{id}"], false)
    ensures Compile("/api", "/things", "/things/{id}") == Compiled(["id"], "base_path_ + \"/\" + id")
  {
    hide RelativeTail, ArgNames, RelTerms, Spell;
    assert ['/'] + "things" == "/things" && ['/'] + "things" + ['/'] + "{id}" == "/things/{id}";
    RelativeParts();
    BehindCollection("/api", "things", "{id}");
    IdArgument();
    SpelledBehind();
  }

  lemma SpelledBehind()
    ensures Spell([Name(BASE)] + RelTerms(["{id}"], ["id"])) == "base_path_ + \"/\" + id"
  {
    hide CppStr, Spell;
    assert IsParam("{id}") && ["{id}"][1..] == [] && ["id"][1..] == [];
    assert RelTerms(["{id}"], ["id"]) == [Quoted("/"), Name("id")];
    assert [Name(BASE)] + [Quoted("/"), Name("id")] == [Name(BASE), Quoted("/"), Name("id")];
    ThreeShown(Name(BASE), Quoted("/"), Name("id"));
    PlainCppStr("/");
    assert "base_path_" + " + " + ("\"" + "/" + "\"") + " + " + "id" == "base_path_ + \"/\" + id";
  }

  lemma RelativeParts()
    ensures BraceFree("/api") && NoNewline("/api") && BraceFree("things") && NoNewline("things")
    ensures "/api"[3] != '/' && Free("things", '/') && IsParam("{id}") && WholeSegment("{id}")
    ensures Free("{id}", '/') && NoNewline("{id}")
  {
  }

  lemma ThreeShown(a: Term, b: Term, c: Term)
    ensures Spell([a, b, c]) == Show(a) + " + " + Show(b) + " + " + Show(c)
  {
    hide Show;
    TwoShown(b, c);
    var all := ShowAll([a, b, c]);
    assert all[1..] == ShowAll([b, c]);
    assert Show(a) + " + " + (Show(b) + " + " + Show(c)) == Show(a) + " + " + Show(b) + " + " + Show(c);
  }

  /** Beside the collection: the literal text as a string object, then the argument. */
  lemma AbsoluteText()
    ensures RelativeTail("/api", "/things", "/other/{id}") == Tail(["api", "other", "{id}"], true)
    ensures Closes(JoinPath("/api", LStripSlash("/other/{id}")))
    ensures Compile("/api", "/things", "/other/{id}") == Compiled(["id"], "std::string(\"/api/other/\") + id")
  {
    hide RelativeTail, ArgNames, CppStr, Scan, Closes, LStripSlash, RStripSlash, AbsTerms, Spell;
    SiblingTail();
    SiblingArguments();
    OneSlash("other/{id}");
    assert ['/'] + "other/{id}" == "/other/{id}";
    NoStrip("other/{id}");
    NoSlashAtEnd("/api");
    assert "/api" + "/" + "other/{id}" == "/api/other/" + ("{" + "id" + "}");
    OtherText();
  }

  lemma OtherText()
    ensures Closes("/api/other/" + ("{" + "id" + "}"))
    ensures Spell(AbsTerms("/api/other/" + ("{" + "id" + "}"), ["id"])) == "std::string(\"/api/other/\") + id"
  {
    hide CppStr, Closes, AbsTerms, Spell;
    LiteralThenParamText("/api/other/", "id", "id");
    PlainCppStr("/api/other/");
    assert "std::string(" + ("\"" + "/api/other/" + "\"") + ") + " + "id" == "std::string(\"/api/other/\") + id";
  }

  lemma NoStrip(s: string)
    requires s != "" && s[0] != '/'
    ensures LStripSlash(s) == s
  {
  }

  lemma SiblingArguments()
    ensures ArgNames(["api", "other", "{id}"], []) == ["id"]
  {
    hide ArgFor;
    IdArgument();
    var segs := ["api", "other", "{id}"];
    assert !IsParam("api") && !IsParam("other");
    assert segs[1..] == ["other", "{id}"] && segs[1..][1..] == ["{id}"];
    assert ArgNames(segs[1..], []) == ArgNames(["{id}"], []);
  }

  lemma SiblingTail()
    ensures RelativeTail("/api", "/things", "/other/{id}") == Tail(["api", "other", "{id}"], true)
  {
    hide SplitOn, LStripSlash, RStripSlash, StartsWith, NonEmpty;
    OneSlash("things");
    OneSlash("other/{id}");
    OneSlash("api/other/{id}");
    assert ['/'] + "things" == "/things" && ['/'] + "other/{id}" == "/other/{id}";
    assert ['/'] + "api/other/{id}" == "/api/other/{id}";
    NoSlashAtEnd("/api");
    var full, absp := JoinPath("/api", "/things"), JoinPath("/api", "/other/{id}");
    assert full == "/api/things" by { assert "/api" + "/" + "things" == "/api/things"; }
    assert absp == "/api/other/{id}" by { assert "/api" + "/" + "other/{id}" == "/api/other/{id}"; }
    assert (full + "/")[5] == 't' && absp[5] == 'o';
    Differs(absp, full + "/", 5);
    assert full[5] != absp[5];
    SiblingSegments();
    NonEmptyAlready(["api", "other", "{id}"]);
  }

  lemma SiblingSegments()
    ensures Segments("api/other/{id}") == ["api", "other", "{id}"]
  {
    hide SplitOn;
    SplitPlain("api", '/');
    SplitPlain("other", '/');
    SplitPlain("{id}", '/');
    SplitOfConcat("other", "{id}", '/');
    SplitOfConcat("api", "other/{id}", '/');
    assert "other" + ['/'] + "{id}" == "other/{id}" && "api" + ['/'] + "other/{id}" == "api/other/{id}";
    assert ["api"] + (["other"] + ["{id}"]) == ["api", "other", "{id}"];
  }

  // ----- Edges of the naming and of the two forms

  /** An operation is relative exactly if there is a collection and its path is the base path or goes on behind it
      with a slash. */
  lemma RelativeExactly(server: string, coll: string, op: string)
    ensures var full, absp := JoinPath(server, coll), JoinPath(server, op);
            !RelativeTail(server, coll, op).sibling <==>
              coll != "" && (absp == full || exists rest :: absp == full + "/" + rest)
  {
    hide JoinPath, NonEmpty, Segments;
    var full, absp := JoinPath(server, coll), JoinPath(server, op);
    if StartsWith(absp, full + "/") {
      assert absp == full + "/" + absp[|full| + 1..];
    }
    forall rest | absp == full + "/" + rest ensures StartsWith(absp, full + "/") {
      assert absp[..|full| + 1] == full + "/";
    }
  }

  /** The collection itself is the member alone. */
  lemma CollectionText(server: string, coll: string)
    requires coll != ""
    ensures RelativeTail(server, coll, coll) == Tail([], false)
    ensures Compile(server, coll, coll) == Compiled([], "base_path_")
  {
    hide JoinPath;
    var full := JoinPath(server, coll);
    assert !StartsWith(full, full + "/");
    assert RelTerms([], []) == [] && [Name(BASE)] + [] == [Name(BASE)];
    assert ShowAll([Name(BASE)]) == ["base_path_"];
  }

  /** A collection that is named in the markup is taken as it is; otherwise it is the anchor up to its first
      parameter. */
  lemma CollectionIs(anchor: string, named: string, before: string, rest: string)
    requires Free(before, '/') || Free(before, '{')
    ensures CollectionSegment(anchor, Some(named)) == named
    ensures CollectionSegment(before + "/{" + rest, None) == before
    ensures Free(before, '{') ==> CollectionSegment(before, None) == before
  {
    FirstParamIs(before, rest);
    assert (before + "/{" + rest)[..|before|] == before;
    if Free(before, '{') {
      NoParamIn(before);
      assert before[..|before|] == before;
    }
  }

  lemma {:induction false} FirstParamIs(before: string, rest: string)
    requires Free(before, '/') || Free(before, '{')
    ensures FirstParam(before + "/{" + rest) == |before|
  {
    var t := before + "/{" + rest;
    if before == "" {
      assert t[..2] == "/{";
    } else {
      assert t[1..] == before[1..] + "/{" + rest;
      assert t[0] == before[0] && (|before| > 1 ==> t[1] == before[1]) && (|before| == 1 ==> t[1] == '/');
      assert t[..2][1] == t[1] && "/{"[1] == '{' && "/{"[0] == '/';
      FirstParamIs(before[1..], rest);
    }
  }

  lemma {:induction false} NoParamIn(s: string)
    requires Free(s, '{')
    ensures FirstParam(s) == |s|
  {
    if s != "" {
      assert |s| > 1 ==> s[..2][1] == s[1] && "/{"[1] == '{';
      NoParamIn(s[1..]);
    }
  }

  /** One parameter has a name of its own, and one without a name is called field. */
  lemma SpecialNames()
    ensures ArgFor("e164_number") == "e164" && IsParam("{}") && ArgFor(Inner("{}")) == "field"
    ensures !IsParam("{") && !IsParam("}") && !IsParam("{a") && !IsParam("a}")
  {
    SnakeIdents();
    assert "{}"[1..1] == "";
  }
}
