// What the known templates and names of translate_cpp_type become, as text.

module TypeHeads {
  import opened Sequences
  import opened Whitespace
  import opened Wrappers
  import opened Qualifiers
  import opened TopLevelSplit
  import opened TypeTranslate

  /** Arguments that translate, each to its result, in order. */
  ghost predicate TranslateTo(args: seq<Type>, rs: seq<string>, tb: Table)
  {
    && |args| == |rs|
    && forall k :: 0 <= k < |args| ==> Nest(args[k], tb) && Translate(Spell(args[k]), tb) == Returned(rs[k])
  }

  lemma {:induction false} ResultsDenoted(args: seq<Type>, rs: seq<string>, tb: Table)
    requires TranslateTo(args, rs, tb)
    ensures DenotesAll(args, tb) == Returned(rs)
    decreases args
  {
    hide Nest, Translate, Spell, Denotes;
    if args != [] {
      TranslateOfNest(Spell(args[0]), args[0], tb);
      ResultsDenoted(args[1..], rs[1..], tb);
      assert rs == [rs[0]] + rs[1..];
    }
  }

  /** A template over such arguments, neither its head nor its full text aliased. */
  ghost predicate Instance(head: string, args: seq<Type>, rs: seq<string>, tb: Table)
  {
    && IsPath(head) && args != [] && TranslateTo(args, rs, tb)
    && head !in tb.aliases && InstanceText(head, args) !in tb.aliases
  }

  function InstanceText(head: string, args: seq<Type>): string
  {
    head + "<" + JoinWith(SpellAll(args), ", ") + ">"
  }

  lemma InstanceDenotes(head: string, args: seq<Type>, rs: seq<string>, tb: Table)
    requires Instance(head, args, rs, tb)
    requires ShapeOf(head).Some? ==> !ShapeOf(head).value.Callable?
    ensures Translate(InstanceText(head, args), tb) ==
              match ShapeOf(head)
              case None => if IsSdk(head) then Returned(tb.classRef(head)) else Raised
              case Some(shape) => Returned(Assemble(shape, rs))
  {
    hide IsPath, Translate, ShapeOf, IsSdk, Assemble;
    var ty := Inst([], head, args, "");
    ResultsDenoted(args, rs, tb);
    assert Core(ty) == InstanceText(head, args);
    assert Spell(ty) == "" + Core(ty) + "" == Core(ty);
    TranslateOfNest(Core(ty), ty, tb);
  }

  /** Maps keep key and value in order. */
  lemma Maps(head: string, args: seq<Type>, rs: seq<string>, tb: Table)
    requires Instance(head, args, rs, tb) && (head == "std::map" || head == "std::unordered_map")
    ensures Translate(InstanceText(head, args), tb)
         == Returned(if |rs| >= 2 then "dict<" + rs[0] + "," + rs[1] + ">" else "dict<string,any>")
  {
    hide Translate, Instance, InstanceText;
    InstanceDenotes(head, args, rs, tb);
    ResultCount(head, args, rs, tb);
  }

  lemma ResultCount(head: string, args: seq<Type>, rs: seq<string>, tb: Table)
    requires Instance(head, args, rs, tb)
    ensures |rs| == |args| > 0
  {
  }

  /** Sequences and sets become lists of their first argument. */
  lemma Lists(head: string, args: seq<Type>, rs: seq<string>, tb: Table)
    requires Instance(head, args, rs, tb)
    requires head in ["std::vector", "std::list", "std::deque", "std::array", "std::set", "std::unordered_set"]
    ensures rs != [] && Translate(InstanceText(head, args), tb) == Returned("list<" + rs[0] + ">")
  {
    hide Translate, Instance, InstanceText;
    InstanceDenotes(head, args, rs, tb);
    ResultCount(head, args, rs, tb);
  }

  lemma Optionals(head: string, args: seq<Type>, rs: seq<string>, tb: Table)
    requires Instance(head, args, rs, tb) && (head == "std::optional" || head == "boost::optional")
    ensures rs != [] && Translate(InstanceText(head, args), tb) == Returned("optional<" + rs[0] + ">")
  {
    hide Translate, Instance, InstanceText;
    InstanceDenotes(head, args, rs, tb);
    ResultCount(head, args, rs, tb);
  }

  /** A smart pointer is what it points to. */
  lemma Pointers(head: string, args: seq<Type>, rs: seq<string>, tb: Table)
    requires Instance(head, args, rs, tb)
    requires head == "std::shared_ptr" || head == "std::unique_ptr" || head == "std::weak_ptr"
    ensures rs != [] && Translate(InstanceText(head, args), tb) == Returned(rs[0])
  {
    hide Translate, Instance, InstanceText;
    InstanceDenotes(head, args, rs, tb);
    ResultCount(head, args, rs, tb);
  }

  /** Pairs, tuples and variants keep all their results in order. */
  lemma TuplesAndUnions(head: string, args: seq<Type>, rs: seq<string>, tb: Table)
    requires Instance(head, args, rs, tb) && (head == "std::pair" || head == "std::tuple" || head == "std::variant")
    ensures Translate(InstanceText(head, args), tb)
         == Returned((if head == "std::variant" then "union<" else "tuple<") + JoinWith(rs, ",") + ">")
  {
    hide Translate, Instance, InstanceText;
    InstanceDenotes(head, args, rs, tb);
  }

  const KNOWN: seq<string> := [
    "std::map", "std::unordered_map", "std::vector", "std::list", "std::deque", "std::array", "std::set",
    "std::unordered_set", "std::optional", "boost::optional", "std::shared_ptr", "std::unique_ptr", "std::weak_ptr",
    "std::pair", "std::tuple", "std::variant", "std::function"
  ]

  /** Any other template is a class of the SDK by its namespace, or an error. */
  lemma OtherTemplates(head: string, args: seq<Type>, rs: seq<string>, tb: Table)
    requires Instance(head, args, rs, tb) && head !in KNOWN
    ensures Translate(InstanceText(head, args), tb) ==
              if StartsWith(head, "signalwire::") || StartsWith(head, "SignalWire::") then Returned(tb.classRef(head))
              else Raised
  {
    hide Translate, Instance, InstanceText;
    UnknownShape(head);
    InstanceDenotes(head, args, rs, tb);
  }

  lemma UnknownShape(head: string)
    requires head !in KNOWN
    ensures ShapeOf(head).None?
  {
    assert forall k :: 0 <= k < |KNOWN| ==> head != KNOWN[k];
    assert head != KNOWN[0] && head != KNOWN[1] && head != KNOWN[2] && head != KNOWN[3] && head != KNOWN[4];
    assert head != KNOWN[5] && head != KNOWN[6] && head != KNOWN[7] && head != KNOWN[8] && head != KNOWN[9];
    assert head != KNOWN[10] && head != KNOWN[11] && head != KNOWN[12] && head != KNOWN[13] && head != KNOWN[14];
    assert head != KNOWN[15] && head != KNOWN[16];
  }

  /** An aliased template is its alias, if its arguments translate. */
  lemma AliasedTemplates(head: string, args: seq<Type>, rs: seq<string>, tb: Table)
    requires IsPath(head) && args != [] && TranslateTo(args, rs, tb)
    requires head in tb.aliases && InstanceText(head, args) !in tb.aliases
    ensures Translate(InstanceText(head, args), tb) == Returned(tb.aliases[head])
  {
    hide IsPath, Translate, ShapeOf, IsSdk, Assemble;
    var ty := Inst([], head, args, "");
    ResultsDenoted(args, rs, tb);
    assert Core(ty) == InstanceText(head, args);
    assert Spell(ty) == "" + Core(ty) + "" == Core(ty);
    TranslateOfNest(Core(ty), ty, tb);
  }

  // ----- Names

  /** A name that is no instantiation: its alias; or by its namespace a class of the SDK; or the alias of its last
      segment; or a class, if that starts with a capital; or an error. */
  lemma Names(lead: string, last: string, tb: Table)
    requires var name := if lead == "" then last else lead + "::" + last;
             Nest(Name([], name, ""), tb) && Free(last, ':')
    ensures var name := if lead == "" then last else lead + "::" + last;
            Translate(name, tb) ==
              if name in tb.aliases then Returned(tb.aliases[name])
              else if StartsWith(name, "signalwire::") || StartsWith(name, "SignalWire::") then
                Returned(tb.classRef(name))
              else if last in tb.aliases then Returned(tb.aliases[last])
              else if last != "" && 'A' <= last[0] <= 'Z' then Returned(tb.classRef(name))
              else Raised
  {
    hide Nest, Translate, LastSegment;
    var name := if lead == "" then last else lead + "::" + last;
    var ty := Name([], name, "");
    LastSegmentIs(lead, last);
    assert Spell(ty) == "" + name + "" == name;
    TranslateOfNest(name, ty, tb);
  }

  lemma NoType(tb: Table)
    ensures Translate("", tb) == Returned("any")
  {
  }

  // ----- std::function

  function Signature(ret: Type, args: seq<Type>): string
  {
    Spell(ret) + " (" + JoinWith(SpellAll(args), ", ") + ")"
  }

  /** A function type, if its signature passes for a type in the first place: its parameters in order, and then
      what it returns. */
  lemma Functions(ret: Type, args: seq<Type>, r: string, rs: seq<string>, tb: Table)
    requires Nest(ret, tb) && Free(Spell(ret), '(') && Translate(Spell(ret), tb) == Returned(r)
    requires TranslateTo(args, rs, tb)
    requires var sig := Signature(ret, args);
             && Nest(Name([], sig, ""), tb) && Known(Name([], sig, ""), tb)
             && "std::function" !in tb.aliases && "std::function<" + sig + ">" !in tb.aliases
    ensures Translate("std::function<" + Signature(ret, args) + ">", tb)
         == Returned("callable<list<" + JoinWith(rs, ",") + ">," + r + ">")
  {
    hide Nest, Translate, Known, TranslateCallable, Signature, IsPath;
    var sig := Signature(ret, args);
    var arg := Name([], sig, "");
    var ty := Inst([], "std::function", [arg], "");
    FunctionIsNest(arg, tb);
    DenotesIffKnown(arg, tb);
    NameUnqualified(sig, tb);
    FunctionText(sig);
    FunctionShape();
    TranslateOfNest("std::function<" + sig + ">", ty, tb);
    DenotesAlone(arg, tb);
    CallableOf(ret, args, r, rs, tb);
  }

  lemma NameUnqualified(name: string, tb: Table)
    requires Nest(Name([], name, ""), tb)
    ensures Unqualified(name)
  {
  }

  lemma DenotesAlone(arg: Type, tb: Table)
    ensures DenotesAll([arg], tb).Returned? <==> Denotes(arg, tb).Returned?
  {
    assert [arg][1..] == [];
  }

  lemma FunctionShape()
    ensures ShapeOf("std::function") == Some(Callable)
  {
  }

  lemma FunctionText(sig: string)
    ensures var ty := Inst([], "std::function", [Name([], sig, "")], "");
            Spell(ty) == Core(ty) == "std::function<" + sig + ">" && JoinWith(SpellAll(ty.args), ", ") == sig
  {
    var a := Name([], sig, "");
    assert Spell(a) == "" + sig + "" == sig && [a][1..] == [];
    assert SpellAll([a]) == [sig];
    assert JoinWith([sig], ", ") == sig;
  }

  lemma {:induction false} FirstParenIs(a: string, b: string)
    requires Free(a, '(')
    ensures FirstParen(a + "(" + b) == |a|
  {
    var t := a + "(" + b;
    if a == "" {
      assert t == ['('] + b;
    } else {
      assert t[1..] == a[1..] + "(" + b;
      FirstParenIs(a[1..], b);
    }
  }

  lemma CallableOf(ret: Type, args: seq<Type>, r: string, rs: seq<string>, tb: Table)
    requires Nest(ret, tb) && Free(Spell(ret), '(') && Translate(Spell(ret), tb) == Returned(r)
    requires TranslateTo(args, rs, tb) && Unqualified(Signature(ret, args))
    ensures TranslateCallable(Signature(ret, args), tb)
         == Returned("callable<list<" + JoinWith(rs, ",") + ">," + r + ">")
  {
    hide Nest, Translate, Spell, Unqualified, TranslateAll, SplitSig, Strip;
    var sig, front, inner := Signature(ret, args), Spell(ret) + " ", JoinWith(SpellAll(args), ", ");
    UnqualifiedStrips(sig);
    StripShorter(sig);
    assert sig == front + "(" + (inner + ")");
    FirstParenIs(front, inner + ")");
    var k := |front|;
    assert sig[..k] == front && sig[k + 1..|sig| - 1] == inner && sig[|sig| - 1] == ')';
    TranslateTrailing(Spell(ret), ret, tb);
    SplitSigShorter(inner);
    ParametersOf(args, rs, tb);
  }

  lemma UnqualifiedStrips(t: string)
    requires Unqualified(t)
    ensures Strip(t) == t
  {
    StripTrimmed(t);
  }

  /** The blank before the parameters makes no difference to the type that is returned. */
  lemma TranslateTrailing(t: string, ty: Type, tb: Table)
    requires Nest(ty, tb) && t == Spell(ty)
    ensures Translate(t + " ", tb) == Translate(t, tb)
  {
    hide Nest, Spell, StripQuals, Generic, FromName, TranslateAll, Strip, SplitSig;
    SpellStrips(ty, tb);
    SpellFacts(ty, tb);
    TrailingBlank(t);
    TranslateUnfolds(t, Core(ty), tb);
    TranslateUnfolds(t + " ", Core(ty), tb);
  }

  lemma TrailingBlank(t: string)
    requires Trimmed(t)
    ensures Strip(t + " ") == Strip(t)
  {
  }

  lemma ParametersOf(args: seq<Type>, rs: seq<string>, tb: Table)
    requires TranslateTo(args, rs, tb)
    ensures var inner := JoinWith(SpellAll(args), ", ");
            && (Strip(inner) == "" <==> args == [])
            && (args != [] ==> SplitSig(inner) == SpellAll(args))
            && (args != [] ==> (SplitSigShorter(inner); TranslateAll(SplitSig(inner), tb, |inner|) == Returned(rs)))
  {
    hide Nest, Translate, Spell, SplitSig, TranslateAll;
    var inner := JoinWith(SpellAll(args), ", ");
    if args != [] {
      InnerFacts(args, tb);
      SplitSigShorter(inner);
      TranslateAllOfNest(args, tb, |inner|);
      ResultsDenoted(args, rs, tb);
      NotBlank(args, tb);
    }
  }

  lemma {:induction false} RStripKeeps(s: string)
    requires s != "" && !IsSpace(s[0])
    ensures RStrip(s) != ""
    decreases |s|
  {
    if IsSpace(s[|s| - 1]) {
      RStripKeeps(s[..|s| - 1]);
    }
  }

  lemma StartsWithInk(s: string)
    requires s != "" && !IsSpace(s[0])
    ensures Strip(s) != ""
  {
    assert LStrip(s) == s;
    RStripKeeps(s);
  }

  lemma NotBlank(args: seq<Type>, tb: Table)
    requires args != [] && forall k :: 0 <= k < |args| ==> Nest(args[k], tb)
    ensures Strip(JoinWith(SpellAll(args), ", ")) != ""
  {
    hide Nest, Spell;
    SpellFacts(args[0], tb);
    StartsWithInk(JoinWith(SpellAll(args), ", "));
  }

  /** A function type that is no signature tells nothing. */
  lemma FunctionsOfNames(name: string, tb: Table)
    requires Nest(Name([], name, ""), tb) && Known(Name([], name, ""), tb)
    requires Free(name, '(') || name[|name| - 1] != ')'
    requires "std::function" !in tb.aliases && "std::function<" + name + ">" !in tb.aliases
    ensures Translate("std::function<" + name + ">", tb) == Returned("callable<list<any>,any>")
  {
    hide Nest, Translate, Known, TranslateCallable, IsPath;
    var arg := Name([], name, "");
    var ty := Inst([], "std::function", [arg], "");
    FunctionIsNest(arg, tb);
    DenotesIffKnown(arg, tb);
    NameUnqualified(name, tb);
    FunctionText(name);
    FunctionShape();
    TranslateOfNest("std::function<" + name + ">", ty, tb);
    DenotesAlone(arg, tb);
    NoSignature(name, tb);
  }

  lemma NoSignature(name: string, tb: Table)
    requires Unqualified(name) && (Free(name, '(') || name[|name| - 1] != ')')
    ensures TranslateCallable(name, tb) == Returned("callable<list<any>,any>")
  {
    hide Translate, TranslateAll, SplitSig;
    UnqualifiedStrips(name);
    if Free(name, '(') {
      NoParen(name);
    }
  }

  lemma {:induction false} NoParen(s: string)
    requires Free(s, '(')
    ensures FirstParen(s) == |s|
  {
    if s != "" {
      NoParen(s[1..]);
    }
  }

  /** A template with nothing but a blank between its brackets. */
  lemma EmptyTemplates(head: string, tb: Table)
    requires head in KNOWN && head !in tb.aliases && head + "< >" !in tb.aliases
    ensures Translate(head + "< >", tb) == Returned(
              if head in ["std::map", "std::unordered_map"] then "dict<string,any>"
              else if head in ["std::optional", "boost::optional"] then "optional<any>"
              else if head in ["std::shared_ptr", "std::unique_ptr", "std::weak_ptr"] then "any"
              else if head in ["std::pair", "std::tuple"] then "tuple<any>"
              else if head == "std::variant" then "union<any>"
              else if head == "std::function" then "callable<list<any>,any>"
              else "list<any>")
  {
    hide Translate, IsPath, Generic, StripQuals, TranslateAll, Unqualified, SplitSig, Assemble;
    KnownShape(head);
    KnownHead(head);
    var t := head + "<" + " " + ">";
    assert t == head + "< >";
    InstUnqualified(head, " ");
    assert Form([], t, "") == "" + t + "" == t;
    UnqualifiedStrips(t);
    QualifiersStrip([], t, "");
    GenericIs(head, " ");
    UnqualifiedNonEmpty(t);
    TranslateUnfolds(t, t, tb);
    BlankArguments(tb);
    AssembledAny();
    assert TranslateCallable(" ", tb) == Returned("callable<list<any>,any>");
  }

  lemma UnqualifiedNonEmpty(t: string)
    requires Unqualified(t)
    ensures t != ""
  {
  }

  lemma BlankArguments(tb: Table)
    ensures SplitSig(" ") == [""]
    ensures TranslateAll([""], tb, 1) == Returned(["any"])
  {
    assert " "[1..] == "";
    assert CutAt(AllKinds, " ", 0) == 1;
    assert Pieces(AllKinds, " ") == [" "];
    assert Strip(" ") == "";
    assert [""][1..] == [];
    assert Translate("", tb) == Returned("any") && TranslateAll([], tb, 1) == Returned([]);
    assert ["any"] + [] == ["any"];
  }

  lemma AssembledAny()
    ensures Assemble(ListLike, ["any"]) == "list<any>" && Assemble(MapLike, ["any"]) == "dict<string,any>"
    ensures Assemble(OptionalLike, ["any"]) == "optional<any>" && Assemble(Pointer, ["any"]) == "any"
    ensures Assemble(TupleLike, ["any"]) == "tuple<any>" && Assemble(UnionLike, ["any"]) == "union<any>"
  {
    assert JoinWith(["any"], ",") == "any";
    assert "list<" + "any" + ">" == "list<any>" && "optional<" + "any" + ">" == "optional<any>";
    assert "tuple<" + "any" + ">" == "tuple<any>" && "union<" + "any" + ">" == "union<any>";
  }

  lemma KnownShape(head: string)
    requires head in KNOWN
    ensures ShapeOf(head) == Some(
              if head in ["std::map", "std::unordered_map"] then MapLike
              else if head in ["std::optional", "boost::optional"] then OptionalLike
              else if head in ["std::shared_ptr", "std::unique_ptr", "std::weak_ptr"] then Pointer
              else if head in ["std::pair", "std::tuple"] then TupleLike
              else if head == "std::variant" then UnionLike
              else if head == "std::function" then Callable
              else ListLike)
  {
    var k :| 0 <= k < |KNOWN| && KNOWN[k] == head;
    assert |KNOWN| == 17;
  }

  // ----- Instances

  lemma NameIsNest(name: string, tb: Table)
    requires name in tb.aliases && Plain(name) && name != "" && name[0] != 'c' && name[0] != 'v'
    requires !IsSpace(name[0]) && !IsSpace(name[|name| - 1]) && !IsMark(name[|name| - 1])
    ensures Nest(Name([], name, ""), tb) && Spell(Name([], name, "")) == name
    ensures Translate(name, tb) == Returned(tb.aliases[name])
  {
    hide StartsWith, Translate, IsSpace, Plain;
    PlainClosed(name);
    assert (name + " ")[0] == name[0];
    forall q ensures !StartsWith(name + " ", Spelled(q)) {
      QualifierLetter(q);
      Differs(name + " ", Spelled(q), 0);
    }
    var ty := Name([], name, "");
    assert Spell(ty) == "" + name + "" == name;
    TranslateOfNest(name, ty, tb);
  }

  /** For instance, a map has its key before its value. */
  lemma MapOfStrings(tb: Table)
    requires tb.aliases == map["std::string" := "string", "int" := "int"]
    ensures Translate("std::map<std::string, int>", tb) == Returned("dict<string,int>")
  {
    hide Nest, Translate, Spell, IsPath, Instance, InstanceText;
    TwoHeads();
    TwoInstance("std::map", tb);
    Maps("std::map", [Name([], "std::string", ""), Name([], "int", "")], ["string", "int"], tb);
    assert "std::map" + "<std::string, int>" == "std::map<std::string, int>";
    assert "dict<" + "string" + "," + "int" + ">" == "dict<string,int>";
  }

  lemma PairOfStrings(tb: Table)
    requires tb.aliases == map["std::string" := "string", "int" := "int"]
    ensures Translate("std::pair<std::string, int>", tb) == Returned("tuple<string,int>")
  {
    hide Nest, Translate, Spell, IsPath, Instance, InstanceText;
    TwoHeads();
    TwoInstance("std::pair", tb);
    TuplesAndUnions("std::pair", [Name([], "std::string", ""), Name([], "int", "")], ["string", "int"], tb);
    TwoResults();
    assert "std::pair" + "<std::string, int>" == "std::pair<std::string, int>";
    assert "tuple<" + "string,int" + ">" == "tuple<string,int>";
  }

  lemma TwoResults()
    ensures JoinWith(["string", "int"], ",") == "string,int"
  {
    assert ["string", "int"][1..] == ["int"] && JoinWith(["int"], ",") == "int";
  }

  lemma TwoInstance(head: string, tb: Table)
    requires tb.aliases == map["std::string" := "string", "int" := "int"]
    requires IsPath(head) && (|head| == 8 || |head| == 9)
    ensures var args := [Name([], "std::string", ""), Name([], "int", "")];
            Instance(head, args, ["string", "int"], tb) && InstanceText(head, args) == head + "<std::string, int>"
  {
    hide Nest, Translate, Spell, IsPath, TranslateTo;
    var args := [Name([], "std::string", ""), Name([], "int", "")];
    TwoNames(tb);
    TwoArguments(args);
    var text := InstanceText(head, args);
    assert text == head + ("<" + "std::string, int" + ">") == head + "<std::string, int>";
    assert text[|text| - 1] == '>';
    assert |"std::string"| == 11 && |"int"| == 3 && "std::string"[10] == 'g' && "int"[2] == 't';
  }

  lemma TwoNames(tb: Table)
    requires tb.aliases == map["std::string" := "string", "int" := "int"]
    ensures TranslateTo([Name([], "std::string", ""), Name([], "int", "")], ["string", "int"], tb)
  {
    hide Nest, Translate, Spell;
    NameIsNest("std::string", tb);
    NameIsNest("int", tb);
  }

  lemma TwoArguments(args: seq<Type>)
    requires args == [Name([], "std::string", ""), Name([], "int", "")]
    ensures JoinWith(SpellAll(args), ", ") == "std::string, int"
  {
    assert Spell(args[0]) == "std::string" && Spell(args[1]) == "int";
    assert args[1..] == [args[1]] && [args[1]][1..] == [];
    assert SpellAll([args[1]]) == ["int"] && SpellAll(args) == ["std::string", "int"];
    assert ["std::string", "int"][1..] == ["int"];
    assert JoinWith(["int"], ", ") == "int";
  }

  lemma TwoHeads()
    ensures IsPath("std::map") && IsPath("std::pair")
  {
    assert ShapeOf("std::map").Some? && ShapeOf("std::pair").Some?;
    KnownHead("std::map");
    KnownHead("std::pair");
  }
}
