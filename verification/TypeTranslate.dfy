// translate_cpp_type of enumerate_signatures.py: from the spelling clang prints for a C++ type to the
// canonical spelling shared with the other languages.

module TypeTranslate {
  import opened Sequences
  import opened Whitespace
  import opened Wrappers
  import opened Qualifiers
  import opened TopLevelSplit

  /** The alias table, and _translate_sdk_class_ref for class names. */
  datatype Table = Table(aliases: map<string, string>, classRef: string -> string)

  // ----- The generic-instantiation pattern

  predicate IsPathStart(c: char)
  {
    'A' <= c <= 'Z' || 'a' <= c <= 'z' || c == '_' || c == ':'
  }

  predicate IsPathChar(c: char)
  {
    IsPathStart(c) || '0' <= c <= '9'
  }

  function PathEnd(t: string): (n: nat)
    ensures n <= |t|
    ensures n < |t| ==> !IsPathChar(t[n])
    ensures forall k :: 0 <= k < n ==> IsPathChar(t[k])
  {
    if t == "" || !IsPathChar(t[0]) then 0 else 1 + PathEnd(t[1..])
  }

  predicate OneLine(s: string)
  {
    forall k :: 0 <= k < |s| ==> s[k] != '\n'
  }

  /** Head and inside of `head<inside>`, or nothing. */
  function Generic(t: string): (r: Option<(string, string)>)
    ensures r.Some? ==> t == r.value.0 + "<" + r.value.1 + ">"
    ensures r.Some? ==> r.value.0 != "" && r.value.1 != "" && OneLine(r.value.1)
    ensures r.Some? ==> forall k :: 0 <= k < |r.value.0| ==> IsPathChar(r.value.0[k])
  {
    var n := PathEnd(t);
    if 0 < n < |t| - 2 && IsPathStart(t[0]) && t[n] == '<' && t[|t| - 1] == '>' && OneLine(t[n + 1..|t| - 1])
    then Some((t[..n], t[n + 1..|t| - 1]))
    else None
  }

  // ----- The known templates

  datatype Shape = ListLike | MapLike | OptionalLike | Pointer | Callable | TupleLike | UnionLike

  function ShapeOf(head: string): Option<Shape>
  {
    if head == "std::vector" || head == "std::list" || head == "std::deque" || head == "std::array" then Some(ListLike)
    else if head == "std::map" || head == "std::unordered_map" then Some(MapLike)
    else if head == "std::set" || head == "std::unordered_set" then Some(ListLike)
    else if head == "std::optional" || head == "boost::optional" then Some(OptionalLike)
    else if head == "std::shared_ptr" || head == "std::unique_ptr" || head == "std::weak_ptr" then Some(Pointer)
    else if head == "std::function" then Some(Callable)
    else if head == "std::pair" || head == "std::tuple" then Some(TupleLike)
    else if head == "std::variant" then Some(UnionLike)
    else None
  }

  /** What a known template becomes of its translated arguments; a callable is dealt with apart. */
  function Assemble(shape: Shape, args: seq<string>): string
  {
    match shape
    case ListLike => if args != [] then "list<" + args[0] + ">" else "list<any>"
    case MapLike => if |args| >= 2 then "dict<" + args[0] + "," + args[1] + ">" else "dict<string,any>"
    case OptionalLike => if args != [] then "optional<" + args[0] + ">" else "optional<any>"
    case Pointer => if args != [] then args[0] else "any"
    case Callable => "callable<list<any>,any>"
    case TupleLike => "tuple<" + JoinWith(args, ",") + ">"
    case UnionLike => "union<" + JoinWith(args, ",") + ">"
  }

  // ----- Names that are no instantiation

  predicate IsSdk(t: string)
  {
    StartsWith(t, "signalwire::") || StartsWith(t, "SignalWire::")
  }

  /** What follows the last "::". */
  function LastSegment(t: string): (r: string)
    decreases |t|
  {
    if t == "" then ""
    else if |t| >= 2 && t[|t| - 2..] == "::" then ""
    else LastSegment(t[..|t| - 1]) + [t[|t| - 1]]
  }

  predicate StartsUpper(s: string)
  {
    s != "" && 'A' <= s[0] <= 'Z'
  }

  function FromName(t: string, tb: Table): Outcome<string>
  {
    if IsSdk(t) then Returned(tb.classRef(t))
    else
      var last := LastSegment(t);
      if last in tb.aliases then Returned(tb.aliases[last])
      else if StartsUpper(last) then Returned(tb.classRef(t))
      else Raised
  }

  lemma {:induction false} NoSegments(b: string)
    requires Free(b, ':')
    ensures LastSegment(b) == b
    decreases |b|
  {
    if b != "" {
      var n := |b| - 1;
      assert |b| >= 2 ==> b[|b| - 2..][1] == b[n];
      assert b == b[..n] + [b[n]];
      NoSegments(b[..n]);
    }
  }

  /** The last segment is what stands behind the last "::", or all of it if there is none. */
  lemma {:induction false} LastSegmentIs(a: string, b: string)
    requires Free(b, ':')
    ensures LastSegment(b) == b && LastSegment(a + "::" + b) == b
    decreases |b|
  {
    NoSegments(b);
    var t := a + "::" + b;
    var n := |t| - 1;
    if b == "" {
      assert t[|t| - 2..] == "::";
    } else {
      var init, c := b[..|b| - 1], b[|b| - 1];
      assert b == init + [c];
      assert t[..n] == a + "::" + init && t[n] == c;
      assert t[|t| - 2..][1] == c;
      LastSegmentIs(a, init);
      assert LastSegment(t) == LastSegment(t[..n]) + [c];
    }
  }

  // ----- The translation

  lemma SplitSigShorter(s: string)
    ensures forall k :: 0 <= k < |SplitSig(s)| ==> |SplitSig(s)[k]| <= |s|
  {
    var ps := Pieces(AllKinds, s);
    forall k | 0 <= k < |ps| ensures |Strip(ps[k])| <= |s| {
      StripShorter(ps[k]);
    }
  }

  function Translate(t: string, tb: Table): Outcome<string>
    decreases |t|, 1, 0
  {
    if t == "" then Returned("any")
    else
      var core := StripQuals(Strip(t));
      if core in tb.aliases then Returned(tb.aliases[core])
      else
        StripShorter(t);
        match Generic(core)
        case None => FromName(core, tb)
        case Some((head, inner)) => TranslateGeneric(head, inner, tb, |t|)
  }

  /** The arguments are translated whatever the head is, so an unknown argument is an error even where
      the head is aliased. */
  function TranslateGeneric(head: string, inner: string, tb: Table, n: nat): Outcome<string>
    requires |inner| < n
    decreases n, 0, 0
  {
    SplitSigShorter(inner);
    var args := TranslateAll(SplitSig(inner), tb, |inner|);
    if args.Raised? then Raised
    else if head in tb.aliases then Returned(tb.aliases[head])
    else
      match ShapeOf(head)
      case None => if IsSdk(head) then Returned(tb.classRef(head)) else Raised
      case Some(shape) =>
        if shape.Callable? && args.value != [] then TranslateCallable(inner, tb)
        else Returned(Assemble(shape, args.value))
  }

  function TranslateAll(ts: seq<string>, tb: Table, n: nat): (r: Outcome<seq<string>>)
    requires forall k :: 0 <= k < |ts| ==> |ts[k]| <= n
    ensures r.Returned? ==> |r.value| == |ts|
    decreases n, 2, |ts|
  {
    if ts == [] then Returned([])
    else
      var first := Translate(ts[0], tb);
      var rest := TranslateAll(ts[1..], tb, n);
      if first.Raised? || rest.Raised? then Raised else Returned([first.value] + rest.value)
  }

  function FirstParen(s: string): (n: nat)
    ensures n <= |s|
    ensures n < |s| ==> s[n] == '('
  {
    if s == "" || s[0] == '(' then 0 else 1 + FirstParen(s[1..])
  }

  function TranslateCallable(inner: string, tb: Table): Outcome<string>
    decreases |inner|, 3, 0
  {
    StripShorter(inner);
    var raw := Strip(inner);
    var k := FirstParen(raw);
    if k < |raw| && raw[|raw| - 1] == ')' then
      var argsPart := raw[k + 1..|raw| - 1];
      var ret := Translate(raw[..k], tb);
      SplitSigShorter(argsPart);
      var args := if Strip(argsPart) != "" then TranslateAll(SplitSig(argsPart), tb, |argsPart|) else Returned([]);
      if ret.Raised? || args.Raised? then Raised
      else Returned("callable<list<" + JoinWith(args.value, ",") + ">," + ret.value + ">")
    else Returned("callable<list<any>,any>")
  }

  // ----- Nests of types and their spelling

  /** A type with the qualifiers before it and the marks after it: a name, or a template of types. */
  datatype Type =
    | Name(qs: seq<Qualifier>, name: string, marks: string)
    | Inst(qs: seq<Qualifier>, head: string, args: seq<Type>, marks: string)

  function Core(ty: Type): string
    decreases ty, 0
  {
    match ty
    case Name(_, name, _) => name
    case Inst(_, head, args, _) => head + "<" + JoinWith(SpellAll(args), ", ") + ">"
  }

  function Spell(ty: Type): string
    decreases ty, 1
  {
    Form(ty.qs, Core(ty), ty.marks)
  }

  function SpellAll(tys: seq<Type>): (r: seq<string>)
    ensures |r| == |tys|
    decreases tys
  {
    if tys == [] then [] else [Spell(tys[0])] + SpellAll(tys[1..])
  }

  /** What the nest stands for. */
  function Canon(ty: Type, tb: Table): string
  {
    match ty
    case Name(_, name, _) =>
      if name in tb.aliases then tb.aliases[name]
      else if !IsSdk(name) && LastSegment(name) in tb.aliases then tb.aliases[LastSegment(name)]
      else tb.classRef(name)
    case Inst(_, head, args, _) => if ShapeOf(head).Some? then Assemble(ShapeOf(head).value, CanonAll(args, tb)) else ""
  }

  function CanonAll(tys: seq<Type>, tb: Table): (r: seq<string>)
    ensures |r| == |tys|
    decreases tys
  {
    if tys == [] then [] else [Canon(tys[0], tb)] + CanonAll(tys[1..], tb)
  }

  /** Brackets close in order, down to `d` open ones at the start, and no comma stands outside them. */
  ghost predicate Safe(s: string, d: nat)
  {
    s == "" ||
    (&& (s[0] == ',' ==> d > 0)
     && d + Delta(AllKinds, s[0]) >= 0
     && Safe(s[1..], d + Delta(AllKinds, s[0])))
  }

  /** A name that can stand in a nest: aliased; or a path of identifiers to an SDK class, to something whose
      last segment is aliased, or to something whose last segment starts with a capital. */
  ghost predicate GoodName(name: string, tb: Table)
  {
    && Unqualified(name) && OneLine(name) && Safe(name, 0) && DepthAfter(AllKinds, name, 0) == 0
    && (name in tb.aliases
        || (&& (forall k :: 0 <= k < |name| ==> IsPathChar(name[k]))
            && (IsSdk(name) || LastSegment(name) in tb.aliases || StartsUpper(LastSegment(name)))))
  }

  /** A nest as it is spelled: names of any kind, known or not, that are no instantiations, and templates of any
      head over one or more nests. */
  ghost predicate Nest(ty: Type, tb: Table)
  {
    && Marks(ty.marks) && OneLine(ty.marks)
    && match ty
       case Name(_, name, _) => Unqualified(name) && Closed(name) && (name in tb.aliases || Generic(name).None?)
       case Inst(_, head, args, _) =>
         IsPath(head) && args != [] && forall k :: 0 <= k < |args| ==> Nest(args[k], tb)
  }

  /** What a nest is translated to, piece by piece. A std::function reads the text of its argument once more. */
  function Denotes(ty: Type, tb: Table): Outcome<string>
    decreases ty, 0
  {
    if Core(ty) in tb.aliases then Returned(tb.aliases[Core(ty)])
    else
      match ty
      case Name(_, name, _) => FromName(name, tb)
      case Inst(_, head, args, _) =>
        var rs := DenotesAll(args, tb);
        if rs.Raised? then Raised
        else if head in tb.aliases then Returned(tb.aliases[head])
        else
          match ShapeOf(head)
          case None => if IsSdk(head) then Returned(tb.classRef(head)) else Raised
          case Some(shape) =>
            if shape.Callable? && args != [] then TranslateCallable(JoinWith(SpellAll(args), ", "), tb)
            else Returned(Assemble(shape, rs.value))
  }

  function DenotesAll(tys: seq<Type>, tb: Table): (r: Outcome<seq<string>>)
    ensures r.Returned? ==> |r.value| == |tys|
    decreases tys
  {
    if tys == [] then Returned([])
    else
      var first, rest := Denotes(tys[0], tb), DenotesAll(tys[1..], tb);
      if first.Raised? || rest.Raised? then Raised else Returned([first.value] + rest.value)
  }

  /** A nest that is known all the way down: aliased, or of a known head over known nests. */
  predicate Known(ty: Type, tb: Table)
  {
    || Core(ty) in tb.aliases
    || match ty
       case Name(_, name, _) => IsSdk(name) || LastSegment(name) in tb.aliases || StartsUpper(LastSegment(name))
       case Inst(_, head, args, _) =>
         && (forall k :: 0 <= k < |args| ==> Known(args[k], tb))
         && (|| head in tb.aliases
             || (match ShapeOf(head)
                 case None => IsSdk(head)
                 case Some(shape) =>
                   shape.Callable? && args != [] ==>
                     TranslateCallable(JoinWith(SpellAll(args), ", "), tb).Returned?))
  }

  /** Known templates with enough arguments, none of them aliased as a template or in full. */
  ghost predicate Good(ty: Type, tb: Table)
  {
    && Marks(ty.marks) && OneLine(ty.marks)
    && match ty
       case Name(_, name, _) => GoodName(name, tb)
       case Inst(_, head, args, _) =>
         && ShapeOf(head).Some? && !ShapeOf(head).value.Callable?
         && head !in tb.aliases && Core(ty) !in tb.aliases
         && |args| >= (if ShapeOf(head).value.MapLike? then 2 else 1)
         && forall k :: 0 <= k < |args| ==> Good(args[k], tb)
  }

  // ----- Brackets of a spelling

  function Depth(s: string, d: int): int
  {
    DepthAfter(AllKinds, s, d)
  }

  lemma {:induction false} SafeFacts(s: string, d: nat)
    requires Safe(s, d)
    ensures CutAt(AllKinds, s, d) == |s| && Depth(s, d) >= 0
    ensures Safe(s, d + 1) && Depth(s, d + 1) == Depth(s, d) + 1
  {
    if s != "" {
      SafeFacts(s[1..], d + Delta(AllKinds, s[0]));
    }
  }

  lemma {:induction false} SafeConcat(a: string, b: string, d: nat)
    requires Safe(a, d) && Depth(a, d) >= 0 && Safe(b, Depth(a, d))
    ensures Safe(a + b, d) && Depth(a + b, d) == Depth(b, Depth(a, d))
  {
    if a == "" {
      assert a + b == b;
    } else {
      assert (a + b)[1..] == a[1..] + b;
      SafeConcat(a[1..], b, d + Delta(AllKinds, a[0]));
    }
  }

  ghost predicate Plain(s: string)
  {
    forall k :: 0 <= k < |s| ==> s[k] != ',' && s[k] != '\n' && Delta(AllKinds, s[k]) == 0
  }

  lemma {:induction false} PlainSafe(s: string, d: nat)
    requires Plain(s)
    ensures Safe(s, d) && Depth(s, d) == d && OneLine(s)
  {
    if s != "" {
      PlainSafe(s[1..], d);
    }
  }

  /** Brackets closed, on one line: what may stand between brackets, and at the top if no comma does. */
  ghost predicate Closed(s: string)
  {
    Safe(s, 0) && Depth(s, 0) == 0 && OneLine(s)
  }

  lemma ClosedConcat(a: string, b: string)
    requires Closed(a) && Closed(b)
    ensures Closed(a + b)
  {
    hide Safe, Depth;
    SafeConcat(a, b, 0);
  }

  lemma PlainClosed(s: string)
    requires Plain(s)
    ensures Closed(s)
  {
    PlainSafe(s, 0);
  }

  lemma {:induction false} QualifiersPlain(qs: seq<Qualifier>)
    ensures Plain(SpelledAll(qs))
  {
    if qs != [] {
      QualifierPlain(qs[0]);
      QualifiersPlain(qs[1..]);
    }
  }

  lemma QualifierPlain(q: Qualifier)
    ensures Plain(Spelled(q))
  {
    match q
    case Const => assert Spelled(q) == ['c', 'o', 'n', 's', 't', ' '];
    case Volatile => assert Spelled(q) == ['v', 'o', 'l', 'a', 't', 'i', 'l', 'e', ' '];
    case Constexpr => assert Spelled(q) == ['c', 'o', 'n', 's', 't', 'e', 'x', 'p', 'r', ' '];
  }

  lemma MarksPlain(marks: string)
    requires Marks(marks) && OneLine(marks)
    ensures Plain(marks)
  {
    forall k | 0 <= k < |marks| ensures marks[k] != ',' && Delta(AllKinds, marks[k]) == 0 {
      assert IsMark(marks[k]);
    }
  }

  lemma FormClosed(qs: seq<Qualifier>, core: string, marks: string)
    requires Closed(core) && Marks(marks) && OneLine(marks)
    ensures Closed(Form(qs, core, marks))
  {
    hide Closed;
    QualifiersPlain(qs);
    PlainClosed(SpelledAll(qs));
    MarksPlain(marks);
    PlainClosed(marks);
    ClosedConcat(SpelledAll(qs), core);
    ClosedConcat(SpelledAll(qs) + core, marks);
  }

  ghost predicate AllClosed(items: seq<string>)
  {
    forall k :: 0 <= k < |items| ==> Closed(items[k])
  }

  /** Joined items close their brackets one level down, where the commas between them are safe. */
  lemma {:induction false} JoinSafe(items: seq<string>)
    requires AllClosed(items)
    ensures var s := JoinWith(items, ", ");
            Safe(s, 1) && Depth(s, 1) == 1 && OneLine(s)
  {
    hide Safe;
    if items == [] {
      NothingSafe();
    } else {
      assert Closed(items[0]);
      SafeFacts(items[0], 0);
      if |items| > 1 {
        JoinSafe(items[1..]);
        SeparatorSafe();
        SafeConcat(items[0], ", ", 1);
        SafeConcat(items[0] + ", ", JoinWith(items[1..], ", "), 1);
      }
    }
  }

  lemma NothingSafe()
    ensures Safe("", 1) && Depth("", 1) == 1
  {
  }

  lemma SeparatorSafe()
    ensures Safe(", ", 1) && Depth(", ", 1) == 1 && OneLine(", ")
  {
    assert ", "[1..] == " " && " "[1..] == "";
  }

  lemma BracketsSafe()
    ensures Safe("<", 0) && Depth("<", 0) == 1 && OneLine("<")
    ensures Safe(">", 1) && Depth(">", 1) == 0 && OneLine(">")
  {
    assert "<"[1..] == "" && ">"[1..] == "";
  }

  lemma InstClosed(head: string, items: seq<string>)
    requires Plain(head) && AllClosed(items)
    ensures Closed(head + "<" + JoinWith(items, ", ") + ">")
  {
    hide Safe, Depth, AllClosed;
    PlainSafe(head, 0);
    BracketsSafe();
    JoinSafe(items);
    var inner := JoinWith(items, ", ");
    SafeConcat(head, "<", 0);
    SafeConcat(head + "<", inner, 0);
    SafeConcat(head + "<" + inner, ">", 0);
  }

  // ----- Heads

  ghost predicate IsPath(head: string)
  {
    head != "" && IsPathStart(head[0]) && forall k :: 0 <= k < |head| ==> IsPathChar(head[k])
  }

  lemma KnownHead(head: string)
    requires ShapeOf(head).Some?
    ensures IsPath(head) && (head[0] == 's' || head[0] == 'b')
  {
    hide ShapeOf, IsPath;
    if ShapeOf(head).value.ListLike? {
      ListHead(head);
    } else if ShapeOf(head).value.Pointer? || ShapeOf(head).value.OptionalLike? {
      PointerHead(head);
    } else {
      OtherHead(head);
    }
  }

  lemma ListHead(head: string)
    requires ShapeOf(head).Some? && ShapeOf(head).value.ListLike?
    ensures IsPath(head) && head[0] == 's'
  {
  }

  lemma PointerHead(head: string)
    requires ShapeOf(head).Some? && (ShapeOf(head).value.Pointer? || ShapeOf(head).value.OptionalLike?)
    ensures IsPath(head) && (head[0] == 's' || head[0] == 'b')
  {
  }

  lemma OtherHead(head: string)
    requires ShapeOf(head).Some? && !ShapeOf(head).value.Pointer? && !ShapeOf(head).value.OptionalLike?
    requires !ShapeOf(head).value.ListLike?
    ensures IsPath(head) && head[0] == 's'
  {
  }

  lemma PathPlain(head: string)
    requires IsPath(head)
    ensures Plain(head)
  {
    forall k | 0 <= k < |head| ensures head[k] != ',' && head[k] != '\n' && Delta(AllKinds, head[k]) == 0 {
      assert IsPathChar(head[k]);
    }
  }

  lemma {:induction false} PathEndIs(head: string, rest: string)
    requires forall k :: 0 <= k < |head| ==> IsPathChar(head[k])
    requires rest != "" ==> !IsPathChar(rest[0])
    ensures PathEnd(head + rest) == |head|
  {
    hide IsPathChar;
    if head == "" {
      assert head + rest == rest;
    } else {
      assert (head + rest)[1..] == head[1..] + rest;
      PathEndIs(head[1..], rest);
    }
  }

  lemma GenericIs(head: string, inner: string)
    requires IsPath(head) && inner != "" && OneLine(inner)
    ensures Generic(head + "<" + inner + ">") == Some((head, inner))
  {
    hide IsPathStart;
    var t := head + "<" + inner + ">";
    assert t == head + ("<" + inner + ">");
    AngleIsNoPathChar();
    PathEndIs(head, "<" + inner + ">");
    assert t[0] == head[0];
    assert t[..|head|] == head && t[|head| + 1..|t| - 1] == inner;
  }

  lemma AngleIsNoPathChar()
    ensures !IsPathChar('<')
  {
  }

  /** No qualifier fits a path with a bracket behind it: the blank is missing. */
  lemma InstUnqualified(head: string, inner: string)
    requires IsPath(head)
    ensures Unqualified(head + "<" + inner + ">")
  {
    hide StartsWith, IsPathStart;
    var core := head + "<" + inner + ">";
    HeadFacts(head);
    assert core[0] == head[0] && core[|core| - 1] == '>';
    forall q ensures !StartsWith(core + " ", Spelled(q)) {
      var w := Spelled(q);
      BlankAtEnd(q);
      var k := if |head| < |w| - 1 then |head| else |w| - 1;
      assert (core + " ")[k] == if k < |head| then head[k] else '<';
      assert k == |w| - 1 && k < |head| ==> IsPathChar(head[k]);
      NoPathChar();
      Differs(core + " ", w, k);
    }
  }

  lemma NoPathChar()
    ensures !IsPathChar('<') && !IsPathChar(' ')
  {
  }

  lemma HeadFacts(head: string)
    requires IsPath(head)
    ensures head != "" && !IsSpace(head[0])
  {
  }

  lemma BlankAtEnd(q: Qualifier)
    ensures var w := Spelled(q);
            w[|w| - 1] == ' ' && forall k :: 0 <= k < |w| ==> w[k] != '<'
  {
    QualifierPlain(q);
    match q
    case Const => assert "const "[5] == ' ';
    case Volatile => assert "volatile "[8] == ' ';
    case Constexpr => assert "constexpr "[9] == ' ';
  }

  // ----- What is known of the spelling of a nest

  lemma {:induction false} CoreFacts(ty: Type, tb: Table)
    requires Nest(ty, tb)
    ensures Unqualified(Core(ty)) && Closed(Core(ty))
    decreases ty, 0
  {
    hide Unqualified, Closed, ShapeOf, Safe, Depth;
    match ty
    case Name(_, name, _) =>
    case Inst(_, head, args, _) =>
      PathPlain(head);
      SpellAllFacts(args, tb);
      InstUnqualified(head, JoinWith(SpellAll(args), ", "));
      InstClosed(head, SpellAll(args));
  }

  lemma {:induction false} SpellAllFacts(tys: seq<Type>, tb: Table)
    requires forall k :: 0 <= k < |tys| ==> Nest(tys[k], tb)
    ensures AllClosed(SpellAll(tys)) && AllTrimmed(SpellAll(tys))
    decreases tys
  {
    hide Unqualified, Closed, Nest, Trimmed;
    if tys != [] {
      SpellFacts(tys[0], tb);
      SpellAllFacts(tys[1..], tb);
    }
  }

  lemma {:induction false} SpellFacts(ty: Type, tb: Table)
    requires Nest(ty, tb)
    ensures Closed(Spell(ty)) && Trimmed(Spell(ty))
    decreases ty, 1
  {
    hide Unqualified, Closed, Core, Form;
    CoreFacts(ty, tb);
    FormClosed(ty.qs, Core(ty), ty.marks);
    FormEnds(ty.qs, Core(ty), ty.marks);
  }

  lemma {:induction false} ClosedSeparable(items: seq<string>)
    requires AllClosed(items)
    ensures Separable(AllKinds, items)
  {
    hide Safe, CutAt;
    if items != [] {
      assert Closed(items[0]);
      SafeFacts(items[0], 0);
      assert AllClosed(items[1..]);
      ClosedSeparable(items[1..]);
    }
  }

  // ----- The main theorem

  /** Translating the spelling of a nest gives what the nest denotes, at any depth and with any qualifiers
      anywhere; an unknown name anywhere, a size among them, is an error of the whole. */
  lemma {:induction false} TranslateOfNest(t: string, ty: Type, tb: Table)
    requires Nest(ty, tb) && t == Spell(ty)
    ensures Translate(t, tb) == Denotes(ty, tb)
    decreases ty, 1
  {
    hide Translate, TranslateGeneric, FromName, Generic, StripQuals, Strip, Spell, ShapeOf, Assemble, IsPath,
         TranslateCallable;
    SpellStrips(ty, tb);
    TranslateUnfolds(t, Core(ty), tb);
    if ty.Inst? && Core(ty) !in tb.aliases {
      InstCore(ty, tb);
      TranslateInst(ty, tb, |t|);
    }
  }

  lemma SpellStrips(ty: Type, tb: Table)
    requires Nest(ty, tb)
    ensures Spell(ty) != "" && StripQuals(Strip(Spell(ty))) == Core(ty)
  {
    hide Unqualified, Closed, Form, StripQuals, Strip;
    CoreFacts(ty, tb);
    FormEnds(ty.qs, Core(ty), ty.marks);
    QualifiersStrip(ty.qs, Core(ty), ty.marks);
  }

  lemma InstCore(ty: Type, tb: Table)
    requires Nest(ty, tb) && ty.Inst?
    ensures Generic(Core(ty)) == Some((ty.head, JoinWith(SpellAll(ty.args), ", ")))
    ensures |JoinWith(SpellAll(ty.args), ", ")| < |Core(ty)|
  {
    hide IsPath, Generic;
    InnerFacts(ty.args, tb);
    GenericIs(ty.head, JoinWith(SpellAll(ty.args), ", "));
  }

  lemma TranslateUnfolds(t: string, core: string, tb: Table)
    requires t != "" && StripQuals(Strip(t)) == core
    ensures |core| <= |t|
    ensures Translate(t, tb) ==
              if core in tb.aliases then Returned(tb.aliases[core])
              else if Generic(core).None? then FromName(core, tb)
              else TranslateGeneric(Generic(core).value.0, Generic(core).value.1, tb, |t|)
  {
    hide Strip, StripQuals, TranslateGeneric, FromName;
    StripShorter(t);
  }

  lemma TranslateName(name: string, tb: Table)
    requires GoodName(name, tb) && name !in tb.aliases
    ensures Generic(name).None? && FromName(name, tb) == Returned(Canon(Name([], name, ""), tb))
  {
    hide Safe, Unqualified, LastSegment;
    assert name + "" == name;
    PathEndIs(name, "");
  }

  lemma InnerFacts(args: seq<Type>, tb: Table)
    requires args != [] && forall k :: 0 <= k < |args| ==> Nest(args[k], tb)
    ensures var inner := JoinWith(SpellAll(args), ", ");
            inner != "" && OneLine(inner) && SplitSig(inner) == SpellAll(args)
  {
    hide Nest, Safe, SplitSig, SplitFmt, Separable;
    var items := SpellAll(args);
    SpellAllFacts(args, tb);
    JoinSafe(items);
    ClosedSeparable(items);
    SplittersUndoJoin(items);
    assert Trimmed(items[0]);
  }

  lemma {:induction false} TranslateInst(ty: Type, tb: Table, n: nat)
    requires Nest(ty, tb) && ty.Inst? && Core(ty) !in tb.aliases
    requires |JoinWith(SpellAll(ty.args), ", ")| < n
    ensures TranslateGeneric(ty.head, JoinWith(SpellAll(ty.args), ", "), tb, n) == Denotes(ty, tb)
    decreases ty, 0
  {
    hide ShapeOf, Assemble, SplitSig, TranslateAll, IsPath, TranslateCallable;
    var inner := JoinWith(SpellAll(ty.args), ", ");
    InnerFacts(ty.args, tb);
    SplitSigShorter(inner);
    TranslateAllOfNest(ty.args, tb, |inner|);
  }

  lemma {:induction false} TranslateAllOfNest(tys: seq<Type>, tb: Table, n: nat)
    requires forall k :: 0 <= k < |tys| ==> Nest(tys[k], tb)
    requires forall k :: 0 <= k < |tys| ==> |SpellAll(tys)[k]| <= n
    ensures TranslateAll(SpellAll(tys), tb, n) == DenotesAll(tys, tb)
    decreases tys
  {
    hide Nest, Translate, Spell, Denotes;
    if tys != [] {
      TranslateOfNest(Spell(tys[0]), tys[0], tb);
      var rest := SpellAll(tys[1..]);
      assert SpellAll(tys)[1..] == rest;
      assert forall k :: 0 <= k < |rest| ==> rest[k] == SpellAll(tys)[k + 1];
      TranslateAllOfNest(tys[1..], tb, n);
    }
  }

  // ----- Which nests translate

  /** A nest translates if and only if it is known all the way down. */
  lemma TranslatesIffKnown(ty: Type, tb: Table)
    requires Nest(ty, tb)
    ensures Translate(Spell(ty), tb).Returned? <==> Known(ty, tb)
  {
    hide Nest, Translate, Spell, Denotes, Known;
    TranslateOfNest(Spell(ty), ty, tb);
    DenotesIffKnown(ty, tb);
  }

  lemma {:induction false} DenotesIffKnown(ty: Type, tb: Table)
    ensures Denotes(ty, tb).Returned? <==> Known(ty, tb)
    decreases ty
  {
    hide Core, LastSegment, ShapeOf, IsSdk, TranslateCallable, Assemble;
    if ty.Inst? {
      DenotesAllIffKnown(ty.args, tb);
    }
  }

  lemma {:induction false} DenotesAllIffKnown(tys: seq<Type>, tb: Table)
    ensures DenotesAll(tys, tb).Returned? <==> forall k :: 0 <= k < |tys| ==> Known(tys[k], tb)
    decreases tys
  {
    hide Denotes, Known;
    if tys != [] {
      DenotesIffKnown(tys[0], tb);
      DenotesAllIffKnown(tys[1..], tb);
      assert tys == [tys[0]] + tys[1..];
    }
  }

  /** An argument that raises makes the instantiation raise, whatever the head, unless it is aliased in full. */
  lemma ArgumentRaises(ty: Type, tb: Table, k: nat)
    requires Nest(ty, tb) && ty.Inst? && k < |ty.args| && Core(ty) !in tb.aliases
    requires Translate(Spell(ty.args[k]), tb).Raised?
    ensures Translate(Spell(ty), tb).Raised?
  {
    hide Translate, Spell, ShapeOf, IsSdk, TranslateCallable;
    TranslatesIffKnown(ty.args[k], tb);
    TranslatesIffKnown(ty, tb);
  }

  ghost predicate IsSize(name: string)
  {
    name != "" && forall k :: 0 <= k < |name| ==> '0' <= name[k] <= '9'
  }

  lemma SizeIsName(size: string, tb: Table)
    requires IsSize(size)
    ensures Nest(Name([], size, ""), tb)
    ensures Known(Name([], size, ""), tb) <==> size in tb.aliases
  {
    hide StartsWith, IsSize, IsSdk, LastSegment, Unqualified, Closed;
    SizeUnqualified(size);
    SizeClosed(size);
    SizeNoClass(size);
  }

  lemma SizeUnqualified(size: string)
    requires IsSize(size)
    ensures Unqualified(size)
  {
    hide StartsWith;
    assert (size + " ")[0] == size[0];
    forall q ensures !StartsWith(size + " ", Spelled(q)) {
      QualifierLetter(q);
      Differs(size + " ", Spelled(q), 0);
    }
  }

  lemma SizeClosed(size: string)
    requires IsSize(size)
    ensures Closed(size) && Generic(size).None?
  {
    hide Closed;
    assert Plain(size);
    PlainClosed(size);
    assert size + "" == size;
    PathEndIs(size, "");
  }

  lemma SizeNoClass(size: string)
    requires IsSize(size)
    ensures !IsSdk(size) && LastSegment(size) == size && !StartsUpper(size)
  {
    hide StartsWith;
    NoSegments(size);
    assert "signalwire::"[0] == 's' && "SignalWire::"[0] == 'S';
    Differs(size, "signalwire::", 0);
    Differs(size, "SignalWire::", 0);
  }

  lemma QualifierLetter(q: Qualifier)
    ensures Spelled(q)[0] == 'c' || Spelled(q)[0] == 'v'
  {
  }

  /** An array as a compiler prints it, with its size, translates only where the whole of it is aliased, or the
      size is. */
  lemma SizedArray(elem: Type, size: string, tb: Table)
    requires Nest(elem, tb) && IsSize(size)
    ensures var ty := Inst([], "std::array", [elem, Name([], size, "")], "");
            Nest(ty, tb)
            && (Translate(Spell(ty), tb).Returned? <==>
                  Core(ty) in tb.aliases || (Known(elem, tb) && size in tb.aliases))
  {
    hide Translate, Spell, Core, IsSize, IsPath, Known;
    var leaf := Name([], size, "");
    var args := [elem, leaf];
    var ty := Inst([], "std::array", args, "");
    SizeIsName(size, tb);
    ArrayHead();
    assert Nest(ty, tb);
    TranslatesIffKnown(ty, tb);
    KnownArray(ty, tb);
    assert args[0] == elem && args[1] == leaf;
  }

  lemma ArrayHead()
    ensures IsPath("std::array") && ShapeOf("std::array") == Some(ListLike)
  {
    KnownHead("std::array");
  }

  lemma KnownArray(ty: Type, tb: Table)
    requires ty.Inst? && ty.head == "std::array"
    ensures Known(ty, tb) <==> Core(ty) in tb.aliases || forall k :: 0 <= k < |ty.args| ==> Known(ty.args[k], tb)
  {
    hide Core, IsSdk, TranslateCallable;
    ArrayHead();
  }

  /** For instance, with `int` aliased and nothing else, `std::array<int, 5>` raises. */
  lemma ArrayOfFiveRaises(tb: Table)
    requires tb.aliases == map["int" := "int"]
    ensures Translate("std::array<int, 5>", tb).Raised?
  {
    hide Translate, Known, Nest, Spell, Core;
    IntIsNest(tb);
    SpellFive();
    SizedArray(Name([], "int", ""), "5", tb);
    assert "std::array<int, 5>"[0] == 's';
  }

  lemma IntIsNest(tb: Table)
    requires "int" in tb.aliases
    ensures Nest(Name([], "int", ""), tb)
  {
    hide StartsWith;
    assert Plain("int");
    PlainClosed("int");
    assert ("int" + " ")[0] == 'i';
    forall q ensures !StartsWith("int" + " ", Spelled(q)) {
      QualifierLetter(q);
      Differs("int" + " ", Spelled(q), 0);
    }
  }

  lemma SpellFive()
    ensures var ty := Inst([], "std::array", [Name([], "int", ""), Name([], "5", "")], "");
            Spell(ty) == Core(ty) == "std::array<int, 5>"
  {
    var a, b := Name([], "int", ""), Name([], "5", "");
    assert Spell(a) == "int" && Spell(b) == "5";
    assert [a, b][1..] == [b] && [b][1..] == [];
    assert SpellAll([b]) == ["5"] && SpellAll([a, b]) == ["int", "5"];
    assert ["int", "5"][1..] == ["5"];
    assert JoinWith(["5"], ", ") == "5";
    assert JoinWith(["int", "5"], ", ") == "int, 5";
  }

  /** For instance, with `int` and `void` aliased, `std::function<void (int)>` raises: its argument is no type. */
  lemma FunctionRaises(tb: Table)
    requires tb.aliases == map["int" := "int", "void" := "void"]
    ensures Translate("std::function<void (int)>", tb).Raised?
  {
    hide Translate, Known, Nest, Spell, Core;
    var arg := Name([], "void (int)", "");
    var ty := Inst([], "std::function", [arg], "");
    SignatureIsNest(tb);
    FunctionIsNest(arg, tb);
    SpellFunction();
    assert "std::function<void (int)>"[0] == 's' && "std::function<void (int)>"[1] == 't';
    TranslatesIffKnown(ty, tb);
    UnknownArgument(ty, tb);
  }

  lemma UnknownArgument(ty: Type, tb: Table)
    requires ty.Inst? && Core(ty) !in tb.aliases && |ty.args| == 1 && !Known(ty.args[0], tb)
    ensures !Known(ty, tb)
  {
    hide Core, ShapeOf, IsSdk, TranslateCallable;
  }

  lemma FunctionIsNest(arg: Type, tb: Table)
    requires Nest(arg, tb)
    ensures Nest(Inst([], "std::function", [arg], ""), tb)
  {
    KnownHead("std::function");
  }

  lemma SignatureIsNest(tb: Table)
    requires tb.aliases == map["int" := "int", "void" := "void"]
    ensures var arg := Name([], "void (int)", "");
            Nest(arg, tb) && !Known(arg, tb)
  {
    hide Closed, Unqualified, IsSdk, StartsUpper, LastSegment, Generic;
    SignatureClosed();
    SignatureUnqualified();
    SignatureIsNoName();
    assert "void (int)"[4] == ' ' && "void (int)"[3] == 'd';
    assert |"void (int)"| == 10 && |"int"| == 3 && |"void"| == 4;
  }

  lemma SignatureIsNoName()
    ensures var name := "void (int)";
            Generic(name).None? && !IsSdk(name) && LastSegment(name) == name && !StartsUpper(name)
  {
    hide StartsWith, LastSegment;
    var name := "void (int)";
    NoSegments(name);
    assert name[0] == 'v' && "signalwire::"[0] == 's' && "SignalWire::"[0] == 'S';
    Differs(name, "signalwire::", 0);
    Differs(name, "SignalWire::", 0);
    assert name[|name| - 1] == ')';
  }

  lemma SignatureClosed()
    ensures Closed("void (int)")
  {
    hide Safe, Depth;
    assert "void" + " " + "(" + "int" + ")" == "void (int)";
    assert Plain("void") && Plain(" ") && Plain("int");
    PlainSafe("void", 0);
    PlainSafe(" ", 0);
    PlainSafe("int", 1);
    ParensSafe();
    SafeConcat("void", " ", 0);
    SafeConcat("void" + " ", "(", 0);
    SafeConcat("void" + " " + "(", "int", 0);
    SafeConcat("void" + " " + "(" + "int", ")", 0);
  }

  lemma ParensSafe()
    ensures Safe("(", 0) && Depth("(", 0) == 1
    ensures Safe(")", 1) && Depth(")", 1) == 0
  {
    assert "("[1..] == "" && ")"[1..] == "";
  }

  lemma SignatureUnqualified()
    ensures Unqualified("void (int)")
  {
    hide StartsWith;
    var t := "void (int)" + " ";
    assert t[0] == 'v' && t[2] == 'i';
    forall q ensures !StartsWith(t, Spelled(q)) {
      match q
      case Const => Differs(t, "const ", 0);
      case Volatile => Differs(t, "volatile ", 2);
      case Constexpr => Differs(t, "constexpr ", 0);
    }
  }

  lemma SpellFunction()
    ensures var ty := Inst([], "std::function", [Name([], "void (int)", "")], "");
            Spell(ty) == Core(ty) == "std::function<void (int)>"
  {
    var a := Name([], "void (int)", "");
    assert Spell(a) == "void (int)" && [a][1..] == [];
    assert SpellAll([a]) == ["void (int)"];
    assert JoinWith(["void (int)"], ", ") == "void (int)";
  }

  // ----- Nests of known templates

  /** In particular, a nest of known templates over known names is translated to its canonical form. */
  lemma TranslateOfSpell(t: string, ty: Type, tb: Table)
    requires Good(ty, tb) && t == Spell(ty)
    ensures Translate(t, tb) == Returned(Canon(ty, tb))
  {
    hide Good, Nest, Translate, Denotes, Canon, Spell;
    GoodDenotes(ty, tb);
    TranslateOfNest(t, ty, tb);
  }

  lemma {:induction false} GoodDenotes(ty: Type, tb: Table)
    requires Good(ty, tb)
    ensures Nest(ty, tb) && Denotes(ty, tb) == Returned(Canon(ty, tb))
    decreases ty, 1
  {
    hide ShapeOf, Assemble, IsPath, Unqualified, Closed, Core, LastSegment, FromName, Generic;
    match ty
    case Name(_, name, _) =>
      NameCore(ty);
      NameClosed(name, tb);
      if name !in tb.aliases {
        TranslateName(name, tb);
        assert Canon(ty, tb) == Canon(Name([], name, ""), tb);
      }
    case Inst(_, head, args, _) =>
      KnownHead(head);
      GoodAllDenote(args, tb);
  }

  lemma NameClosed(name: string, tb: Table)
    requires GoodName(name, tb)
    ensures Unqualified(name) && Closed(name)
  {
  }

  lemma NameCore(ty: Type)
    requires ty.Name?
    ensures Core(ty) == ty.name
  {
  }

  lemma {:induction false} GoodAllDenote(tys: seq<Type>, tb: Table)
    requires forall k :: 0 <= k < |tys| ==> Good(tys[k], tb)
    ensures forall k :: 0 <= k < |tys| ==> Nest(tys[k], tb)
    ensures DenotesAll(tys, tb) == Returned(CanonAll(tys, tb))
    decreases tys, 0
  {
    hide Good, Nest, Denotes, Canon;
    if tys != [] {
      GoodDenotes(tys[0], tb);
      GoodAllDenote(tys[1..], tb);
      assert tys == [tys[0]] + tys[1..];
    }
  }
}
