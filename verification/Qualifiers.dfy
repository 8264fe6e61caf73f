// The qualifier-stripping loop at the head of translate_cpp_type in enumerate_signatures.py.

module Qualifiers {
  import opened Sequences
  import opened Whitespace

  predicate Ends(t: string, q: string)
  {
    |q| <= |t| && t[|t| - |q|..] == q
  }

  function DropPrefix(t: string, p: string): (r: string)
    requires p != ""
    ensures r == t || |r| < |t|
  {
    if StartsWith(t, p) then Strip(t[|p|..]) else t
  }

  function DropSuffix(t: string, q: string): (r: string)
    requires q != ""
    ensures r == t || |r| < |t|
  {
    if Ends(t, q) then Strip(t[..|t| - |q|]) else t
  }

  function DropPrefixes(t: string): (r: string)
    ensures r == t || |r| < |t|
  {
    DropPrefix(DropPrefix(DropPrefix(t, "const "), "volatile "), "constexpr ")
  }

  function DropSuffixes(t: string): (r: string)
    ensures r == t || |r| < |t|
  {
    DropSuffix(DropSuffix(DropSuffix(t, "&&"), "&"), "*")
  }

  /** The loop: passes over all prefixes and suffixes until one changes nothing. */
  function StripQuals(t: string): (r: string)
    ensures |r| <= |t|
    decreases |t|
  {
    var u := DropSuffixes(DropPrefixes(t));
    if u == t then t else StripQuals(u)
  }

  method StripQualifiers(given: string) returns (t: string)
    ensures t == StripQuals(given)
  {
    hide DropPrefix, DropSuffix;
    t := given;
    while true
      invariant StripQuals(t) == StripQuals(given)
      decreases |t|
    {
      var newT := t;
      newT := DropPrefix(newT, "const ");
      newT := DropPrefix(newT, "volatile ");
      newT := DropPrefix(newT, "constexpr ");
      newT := DropSuffix(newT, "&&");
      newT := DropSuffix(newT, "&");
      newT := DropSuffix(newT, "*");
      assert newT == DropSuffixes(DropPrefixes(t));
      if newT == t {
        break;
      }
      t := newT;
    }
  }

  /** Where the loop stops: no prefix and no suffix is left. */
  predicate Bare(t: string)
  {
    && !StartsWith(t, "const ") && !StartsWith(t, "volatile ") && !StartsWith(t, "constexpr ")
    && !Ends(t, "&&") && !Ends(t, "&") && !Ends(t, "*")
  }

  lemma DropPrefixFixed(t: string, p: string)
    requires p != ""
    ensures DropPrefix(t, p) == t <==> !StartsWith(t, p)
  {
    if StartsWith(t, p) {
      assert |Strip(t[|p|..])| < |t|;
    }
  }

  lemma DropSuffixFixed(t: string, q: string)
    requires q != ""
    ensures DropSuffix(t, q) == t <==> !Ends(t, q)
  {
    if Ends(t, q) {
      assert |Strip(t[..|t| - |q|])| < |t|;
    }
  }

  lemma PassFixed(t: string)
    ensures DropSuffixes(DropPrefixes(t)) == t <==> Bare(t)
  {
    hide DropPrefix, DropSuffix, StartsWith, Ends;
    DropPrefixFixed(t, "const ");
    DropPrefixFixed(t, "volatile ");
    DropPrefixFixed(t, "constexpr ");
    DropSuffixFixed(t, "&&");
    DropSuffixFixed(t, "&");
    DropSuffixFixed(t, "*");
  }

  /** The result is bare, and bare text is left alone: `int *const`, whose const comes last, stays as it is. */
  lemma {:induction false} StripQualsIsBare(t: string)
    ensures Bare(StripQuals(t))
    ensures StripQuals(t) == t <==> Bare(t)
    decreases |t|
  {
    hide DropPrefixes, DropSuffixes, Bare;
    PassFixed(t);
    var u := DropSuffixes(DropPrefixes(t));
    if u != t {
      StripQualsIsBare(u);
    }
  }

  // ----- Qualified spellings

  datatype Qualifier = Const | Volatile | Constexpr

  function Spelled(q: Qualifier): (s: string)
    ensures s != "" && !IsSpace(s[0])
  {
    match q
    case Const => "const "
    case Volatile => "volatile "
    case Constexpr => "constexpr "
  }

  function SpelledAll(qs: seq<Qualifier>): string
  {
    if qs == [] then "" else Spelled(qs[0]) + SpelledAll(qs[1..])
  }

  predicate IsMark(c: char)
  {
    IsSpace(c) || c == '&' || c == '*'
  }

  ghost predicate OnlyMarks(s: string)
  {
    forall k :: 0 <= k < |s| ==> IsMark(s[k])
  }

  /** Reference and pointer marks and white space, not ending in white space. */
  ghost predicate Marks(s: string)
  {
    OnlyMarks(s) && (s != "" ==> !IsSpace(s[|s| - 1]))
  }

  /** What may follow a type: nothing, or text that starts with a mark and does not end in white space. */
  ghost predicate Tail(s: string)
  {
    s != "" ==> IsMark(s[0]) && !IsSpace(s[|s| - 1])
  }

  /** A spelling that carries no qualifier of its own at either end. */
  ghost predicate Unqualified(core: string)
  {
    && core != "" && !IsSpace(core[0]) && !IsSpace(core[|core| - 1]) && !IsMark(core[|core| - 1])
    && forall q :: !StartsWith(core + " ", Spelled(q))
  }

  function Form(qs: seq<Qualifier>, core: string, marks: string): string
  {
    SpelledAll(qs) + core + marks
  }

  lemma FormEnds(qs: seq<Qualifier>, core: string, marks: string)
    requires Unqualified(core) && (marks != "" ==> !IsSpace(marks[|marks| - 1]))
    ensures var t := Form(qs, core, marks);
            t != "" && !IsSpace(t[0]) && !IsSpace(t[|t| - 1]) && Strip(t) == t
  {
    hide StartsWith;
    var t := Form(qs, core, marks);
    if qs == [] {
      assert t[0] == core[0];
    } else {
      assert t[0] == Spelled(qs[0])[0];
    }
    if marks == "" {
      assert t[|t| - 1] == core[|core| - 1];
    } else {
      assert t[|t| - 1] == marks[|marks| - 1];
    }
    StripTrimmed(t);
  }

  /** The first qualifier decides which prefix fits. */
  lemma PrefixFits(q: Qualifier, rest: string, p: Qualifier)
    ensures StartsWith(Spelled(q) + rest, Spelled(p)) <==> p == q
    ensures (Spelled(q) + rest)[|Spelled(q)|..] == rest
  {
    var t := Spelled(q) + rest;
    if p == q {
      assert t[..|Spelled(q)|] == Spelled(q);
    } else {
      var k := if p == Volatile || q == Volatile then 0 else 5;
      assert t[k] == Spelled(q)[k] != Spelled(p)[k];
      Differs(t, Spelled(p), k);
    }
  }

  /** The core itself looks like no prefix, whatever marks start behind it. */
  lemma NoPrefixFits(core: string, marks: string, p: Qualifier)
    requires Unqualified(core) && (marks != "" ==> IsMark(marks[0]))
    ensures !StartsWith(core + marks, Spelled(p))
  {
    var t := core + marks;
    var w := Spelled(p);
    var k := |core|;
    assert !StartsWith(core + " ", w);
    if k >= |w| {
      assert t[..|w|] == (core + " ")[..|w|];
    } else if |t| >= |w| {
      LettersThenBlank(p, k);
      assert IsMark(marks[0]) && t[..|w|][k] == marks[0];
      if marks[0] == ' ' && k == |w| - 1 {
        assert t[..|w|] == core + " " == (core + " ")[..|w|];
      }
    }
  }

  lemma LettersThenBlank(p: Qualifier, k: nat)
    requires k < |Spelled(p)|
    ensures IsMark(Spelled(p)[k]) ==> k == |Spelled(p)| - 1 && Spelled(p)[k] == ' '
  {
    var w := Spelled(p);
    match p
    case Const => assert w == ['c', 'o', 'n', 's', 't', ' '];
    case Volatile => assert w == ['v', 'o', 'l', 'a', 't', 'i', 'l', 'e', ' '];
    case Constexpr => assert w == ['c', 'o', 'n', 's', 't', 'e', 'x', 'p', 'r', ' '];
  }

  lemma MarksEnds(marks: string)
    requires Marks(marks)
    ensures marks != "" ==> IsMark(marks[0]) && !IsSpace(marks[|marks| - 1])
  {
  }

  /** Dropping one prefix keeps the form; it drops the first qualifier exactly if that is the one. */
  lemma DropPrefixForm(qs: seq<Qualifier>, core: string, marks: string, p: Qualifier)
    requires Unqualified(core) && Marks(marks)
    ensures DropPrefix(Form(qs, core, marks), Spelled(p))
         == Form(if qs != [] && qs[0] == p then qs[1..] else qs, core, marks)
  {
    hide Strip, Unqualified, Marks, StartsWith, Spelled;
    var t := Form(qs, core, marks);
    MarksEnds(marks);
    if qs == [] {
      assert t == core + marks;
      NoPrefixFits(core, marks, p);
    } else {
      var rest := Form(qs[1..], core, marks);
      assert t == Spelled(qs[0]) + rest;
      PrefixFits(qs[0], rest, p);
      FormEnds(qs[1..], core, marks);
    }
  }

  function Less(qs: seq<Qualifier>, p: Qualifier): (r: seq<Qualifier>)
    ensures |r| <= |qs| && (|r| == |qs| ==> r == qs)
  {
    if qs != [] && qs[0] == p then qs[1..] else qs
  }

  /** One pass over the prefixes drops at least one qualifier if there is one. */
  lemma PrefixPass(qs: seq<Qualifier>, core: string, marks: string) returns (rest: seq<Qualifier>)
    requires Unqualified(core) && Marks(marks)
    ensures DropPrefixes(Form(qs, core, marks)) == Form(rest, core, marks)
    ensures |rest| <= |qs| && (qs != [] ==> |rest| < |qs|)
  {
    hide Form, DropPrefix, Unqualified, Marks;
    var q1 := Less(qs, Const);
    var q2 := Less(q1, Volatile);
    rest := Less(q2, Constexpr);
    DropPrefixForm(qs, core, marks, Const);
    DropPrefixForm(q1, core, marks, Volatile);
    DropPrefixForm(q2, core, marks, Constexpr);
  }

  /** Marks without the white space at their end. */
  function TrimMarks(s: string): (r: string)
    ensures |r| <= |s|
    decreases |s|
  {
    if s != "" && IsSpace(s[|s| - 1]) then TrimMarks(s[..|s| - 1]) else s
  }

  lemma {:induction false} TrimmedMarks(a: string, s: string)
    requires a != "" && !IsSpace(a[|a| - 1])
    requires OnlyMarks(s)
    ensures Marks(TrimMarks(s)) && RStrip(a + s) == a + TrimMarks(s)
    decreases |s|
  {
    var t := a + s;
    if s == "" {
      assert t == a;
    } else if IsSpace(s[|s| - 1]) {
      assert t[..|t| - 1] == a + s[..|s| - 1];
      TrimmedMarks(a, s[..|s| - 1]);
    }
  }

  function Shorter(marks: string, q: string): (r: string)
    requires q != ""
    ensures if Ends(marks, q) then |r| < |marks| else r == marks
  {
    if Ends(marks, q) then TrimMarks(marks[..|marks| - |q|]) else marks
  }

  predicate IsSuffix(q: string)
  {
    q == "&&" || q == "&" || q == "*"
  }

  /** Dropping a suffix of marks, with the blanks before it. */
  lemma DropSuffixOf(a: string, marks: string, q: string)
    requires a != "" && !IsSpace(a[0]) && !IsSpace(a[|a| - 1]) && !IsMark(a[|a| - 1])
    requires Marks(marks) && IsSuffix(q)
    ensures Marks(Shorter(marks, q)) && DropSuffix(a + marks, q) == a + Shorter(marks, q)
  {
    hide IsSpace, IsMark, Strip;
    EndsInMarks(a, marks, q);
    if Ends(marks, q) {
      var m := marks[..|marks| - |q|];
      assert (a + marks)[..|a + marks| - |q|] == a + m;
      TrimmedMarks(a, m);
      NoLeading(a, m);
    }
  }

  lemma NoLeading(a: string, m: string)
    requires a != "" && !IsSpace(a[0])
    ensures Strip(a + m) == RStrip(a + m)
  {
    hide IsSpace;
    assert (a + m)[0] == a[0];
    LeadingIs(a + m, 0);
  }

  lemma DropSuffixForm(qs: seq<Qualifier>, core: string, marks: string, q: string)
    requires Unqualified(core) && Marks(marks) && IsSuffix(q)
    ensures Marks(Shorter(marks, q))
    ensures DropSuffix(Form(qs, core, marks), q) == Form(qs, core, Shorter(marks, q))
  {
    hide Marks, Shorter, DropSuffix, IsSuffix, SpelledAll, Spelled;
    var a := SpelledAll(qs) + core;
    assert a[|a| - 1] == core[|core| - 1];
    assert a[0] == if qs == [] then core[0] else Spelled(qs[0])[0] by {
      SpelledStarts(qs, core);
    }
    DropSuffixOf(a, marks, q);
  }

  lemma SpelledStarts(qs: seq<Qualifier>, core: string)
    requires core != ""
    ensures (SpelledAll(qs) + core)[0] == if qs == [] then core[0] else Spelled(qs[0])[0]
  {
  }

  /** A suffix of marks sits inside the marks. */
  lemma EndsInMarks(a: string, marks: string, q: string)
    requires a != "" && !IsMark(a[|a| - 1]) && IsSuffix(q)
    ensures Ends(a + marks, q) <==> Ends(marks, q)
  {
    hide Ends, IsMark;
    if |q| <= |marks| {
      EndsWithin(a, marks, q);
    } else {
      TooLong(marks, q);
      if |q| <= |a + marks| {
        var k := |q| - |marks| - 1;
        SuffixMarks(q, k);
        assert (a + marks)[|a| - 1] == a[|a| - 1];
        DiffersBack(a + marks, q, k);
      } else {
        TooLong(a + marks, q);
      }
    }
  }

  lemma EndsWithin(a: string, marks: string, q: string)
    requires |q| <= |marks|
    ensures Ends(a + marks, q) == Ends(marks, q)
  {
    assert (a + marks)[|a + marks| - |q|..] == marks[|marks| - |q|..];
  }

  lemma TooLong(t: string, q: string)
    requires |t| < |q|
    ensures !Ends(t, q)
  {
  }

  lemma SuffixMarks(q: string, k: nat)
    requires IsSuffix(q) && k < |q|
    ensures IsMark(q[k])
  {
  }

  lemma DiffersBack(t: string, q: string, k: nat)
    requires k < |q| <= |t| && t[|t| - |q| + k] != q[k]
    ensures !Ends(t, q)
  {
    assert t[|t| - |q|..][k] == t[|t| - |q| + k];
  }

  /** One pass over the suffixes drops at least one mark if there is one. */
  lemma SuffixPass(qs: seq<Qualifier>, core: string, marks: string) returns (rest: string)
    requires Unqualified(core) && Marks(marks)
    ensures DropSuffixes(Form(qs, core, marks)) == Form(qs, core, rest)
    ensures Marks(rest) && |rest| <= |marks| && (marks != "" ==> |rest| < |marks|)
  {
    hide Form, DropSuffix, Unqualified, Shorter, Ends, Marks;
    var m1 := Shorter(marks, "&&");
    var m2 := Shorter(m1, "&");
    rest := Shorter(m2, "*");
    DropSuffixForm(qs, core, marks, "&&");
    DropSuffixForm(qs, core, m1, "&");
    DropSuffixForm(qs, core, m2, "*");
    if marks != "" {
      LastMark(marks);
    }
  }

  lemma LastMark(marks: string)
    requires Marks(marks) && marks != ""
    ensures Ends(marks, "&") || Ends(marks, "*")
  {
    var c := marks[|marks| - 1];
    assert IsMark(c);
    assert marks[|marks| - 1..] == [c];
  }

  /** Any qualifiers in front and any marks behind an unqualified spelling are stripped, and no more. */
  lemma {:induction false} QualifiersStrip(qs: seq<Qualifier>, core: string, marks: string)
    requires Unqualified(core) && Marks(marks)
    ensures StripQuals(Form(qs, core, marks)) == core
    decreases |qs| + |marks|
  {
    hide DropPrefixes, DropSuffixes, Unqualified;
    var t := Form(qs, core, marks);
    var qs1 := PrefixPass(qs, core, marks);
    var marks1 := SuffixPass(qs1, core, marks);
    if qs == [] && marks == "" {
      assert qs1 == [] && marks1 == "";
      assert t == core;
    } else {
      FormLength(qs, core, marks);
      FormLength(qs1, core, marks1);
      QualifiersStrip(qs1, core, marks1);
    }
  }

  lemma {:induction false} FormLength(qs: seq<Qualifier>, core: string, marks: string)
    ensures |Form(qs, core, marks)| == |SpelledAll(qs)| + |core| + |marks|
  {
  }

  // ----- Tails that are not all marks

  /** How much of a text is left when the marks at its end are taken off. */
  function InkEnd(s: string): (n: nat)
    ensures n <= |s|
    ensures OnlyMarks(s[n..])
    ensures n > 0 ==> !IsMark(s[n - 1])
    decreases |s|
  {
    if s == "" || !IsMark(s[|s| - 1]) then |s|
    else
      var n := InkEnd(s[..|s| - 1]);
      assert s[n..] == s[..|s| - 1][n..] + [s[|s| - 1]];
      n
  }

  /** The core with the part of the tail up to its last letter is unqualified as well. */
  lemma LongerCore(core: string, tail: string, n: nat)
    requires Unqualified(core) && Tail(tail) && 0 < n <= |tail| && !IsMark(tail[n - 1])
    ensures Unqualified(core + tail[..n])
  {
    hide StartsWith, IsSpace;
    var longer := core + tail[..n];
    assert longer[0] == core[0] && longer[|longer| - 1] == tail[n - 1];
    assert !IsSpace(tail[n - 1]);
    forall q ensures !StartsWith(longer + " ", Spelled(q)) {
      assert longer + " " == core + (tail[..n] + " ");
      assert (tail[..n] + " ")[0] == tail[0];
      NoPrefixFits(core, tail[..n] + " ", q);
    }
  }

  /** Stripping reaches the core exactly if nothing but marks and white space follows it: `const int &` is
      stripped to `int`, `const int *const` is not. */
  lemma StripsToCore(qs: seq<Qualifier>, core: string, tail: string)
    requires Unqualified(core) && Tail(tail)
    ensures StripQuals(Form(qs, core, tail)) == core <==> OnlyMarks(tail)
  {
    hide Unqualified, StripQuals, Spelled, IsMark, IsSpace;
    var n := InkEnd(tail);
    if n == 0 {
      assert tail[0..] == tail;
      QualifiersStrip(qs, core, tail);
    } else {
      LongerCore(core, tail, n);
      MarksBehind(tail, n);
      assert core + tail == core + tail[..n] + tail[n..];
      assert Form(qs, core, tail) == Form(qs, core + tail[..n], tail[n..]);
      QualifiersStrip(qs, core + tail[..n], tail[n..]);
      assert !IsMark(tail[n - 1]);
    }
  }

  lemma MarksBehind(tail: string, n: nat)
    requires Tail(tail) && n <= |tail| && OnlyMarks(tail[n..])
    ensures Marks(tail[n..])
  {
  }

  /** The const behind the star stays. */
  lemma ConstTailStays()
    ensures StripQuals("const int *const") == "int *const"
  {
    hide StripQuals;
    IntIsUnqualified();
    assert [Const][1..] == [];
    assert SpelledAll([Const]) == "const ";
    assert Form([Const], "int *const", "") == "const int *const";
    QualifiersStrip([Const], "int *const", "");
  }

  lemma IntIsUnqualified()
    ensures Unqualified("int *const")
  {
    forall q ensures !StartsWith("int *const" + " ", Spelled(q)) {
      Differs("int *const" + " ", Spelled(q), 0);
    }
  }
}
