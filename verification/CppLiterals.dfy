// String literals: cpp_str of generate_rest.py writes them, a C++ compiler reads them, and strip_strings of
// enumerate_surface.py masks them.

module CppLiterals {
  import opened Whitespace

  // ----- Writing

  /** s.replace(c, rep) for a one-character pattern. */
  function ReplaceChar(s: string, c: char, rep: string): string
  {
    if s == "" then "" else (if s[0] == c then rep else [s[0]]) + ReplaceChar(s[1..], c, rep)
  }

  /** The two replaces, backslashes first, between quotes. */
  function CppStr(s: string): string
  {
    "\"" + ReplaceChar(ReplaceChar(s, '\\', "\\\\"), '"', "\\\"") + "\""
  }

  function EscapeChar(c: char): string
  {
    if c == '\\' then "\\\\" else if c == '"' then "\\\"" else [c]
  }

  /** One pass over the text. */
  function Escape(s: string): string
  {
    if s == "" then "" else EscapeChar(s[0]) + Escape(s[1..])
  }

  lemma {:induction false} ReplaceOfConcat(a: string, b: string, c: char, rep: string)
    ensures ReplaceChar(a + b, c, rep) == ReplaceChar(a, c, rep) + ReplaceChar(b, c, rep)
  {
    if a == "" {
      assert a + b == b;
    } else {
      assert (a + b)[1..] == a[1..] + b;
      ReplaceOfConcat(a[1..], b, c, rep);
    }
  }

  lemma ReplaceInOne(c: char)
    ensures ReplaceChar([c], '"', "\\\"") == if c == '"' then "\\\"" else [c]
    ensures ReplaceChar("\\\\", '"', "\\\"") == "\\\\"
  {
    assert ['\\', '\\'][1..] == ['\\'] && ['\\'][1..] == [];
    assert ReplaceChar("\\", '"', "\\\"") == "\\";
  }

  /** Replacing backslashes and then quotes is one pass; the other order would escape the escapes. */
  lemma {:induction false} TwoReplacesAreOnePass(s: string)
    ensures CppStr(s) == "\"" + Escape(s) + "\""
    ensures ReplaceChar(ReplaceChar(s, '\\', "\\\\"), '"', "\\\"") == Escape(s)
  {
    if s != "" {
      var head := if s[0] == '\\' then "\\\\" else [s[0]];
      ReplaceOfConcat(head, ReplaceChar(s[1..], '\\', "\\\\"), '"', "\\\"");
      ReplaceInOne(s[0]);
      TwoReplacesAreOnePass(s[1..]);
    }
  }

  // ----- Reading

  datatype Read = Bad | Read(text: string, rest: string)

  /** A C++ reader behind the opening quote, for the two escapes that can occur here. */
  function ReadTail(s: string): (r: Read)
    ensures r.Read? ==> |r.rest| < |s|
  {
    if s == "" || s[0] == '\n' then Bad
    else if s[0] == '"' then Read("", s[1..])
    else if s[0] == '\\' then
      if |s| >= 2 && (s[1] == '\\' || s[1] == '"') then
        match ReadTail(s[2..])
        case Bad => Bad
        case Read(text, rest) => Read([s[1]] + text, rest)
      else Bad
    else
      match ReadTail(s[1..])
      case Bad => Bad
      case Read(text, rest) => Read([s[0]] + text, rest)
  }

  function ReadLiteral(s: string): Read
  {
    if s != "" && s[0] == '"' then ReadTail(s[1..]) else Bad
  }

  predicate NoNewline(s: string)
  {
    forall k :: 0 <= k < |s| ==> s[k] != '\n'
  }

  lemma {:induction false} ReadTailOfEscape(s: string, rest: string)
    ensures ReadTail(Escape(s) + "\"" + rest) == if NoNewline(s) then Read(s, rest) else Bad
  {
    var t := Escape(s) + "\"" + rest;
    if s == "" {
      assert t == ['"'] + rest;
      assert t[1..] == rest;
    } else {
      var e := EscapeChar(s[0]);
      var tail := Escape(s[1..]) + "\"" + rest;
      assert t == e + tail;
      ReadTailOfEscape(s[1..], rest);
      assert t[|e|..] == tail;
      assert NoNewline(s) <==> s[0] != '\n' && NoNewline(s[1..]) by {
        assert forall k :: 0 < k < |s| ==> s[k] == s[1..][k - 1];
        assert forall k :: 0 <= k < |s| - 1 ==> s[1..][k] == s[k + 1];
      }
      assert [s[0]] + s[1..] == s;
    }
  }

  /** Reading a written literal gives the text back, exactly for text without a line break. */
  lemma ReadOfCppStr(s: string, rest: string)
    ensures ReadLiteral(CppStr(s) + rest) == if NoNewline(s) then Read(s, rest) else Bad
  {
    TwoReplacesAreOnePass(s);
    var t := Escape(s) + "\"" + rest;
    assert CppStr(s) + rest == ['"'] + t;
    ReadTailOfEscape(s, rest);
  }

  // ----- Masking

  datatype Mode = Outside | Inside(quote: char)

  /** One pass: characters outside literals stay, the inside of a literal becomes spaces. */
  function Mask(s: string, mode: Mode): (r: string)
    ensures |r| == |s|
  {
    if s == "" then ""
    else
      match mode
      case Outside =>
        [s[0]] + Mask(s[1..], if s[0] == '"' || s[0] == '\'' then Inside(s[0]) else Outside)
      case Inside(q) =>
        if s[0] == '\\' && |s| > 1 then "  " + Mask(s[2..], mode)
        else if s[0] == q then [q] + Mask(s[1..], Outside)
        else " " + Mask(s[1..], mode)
  }

  /** strip_strings on one line. */
  function StripStrings(line: string): string
  {
    Mask(line, Outside)
  }

  /** The inner loop, the same for both kinds of quote. */
  method MaskLiteral(line: string, i0: nat, quote: char) returns (result: string, i: nat)
    requires i0 <= |line|
    ensures i0 <= i <= |line|
    ensures Mask(line[i0..], Inside(quote)) == result + Mask(line[i..], Outside)
  {
    hide Mask;
    result, i := "", i0;
    while i < |line|
      invariant i0 <= i <= |line|
      invariant Mask(line[i0..], Inside(quote)) == result + Mask(line[i..], Inside(quote))
    {
      var c := line[i];
      MaskInside(line[i..], quote);
      assert line[i..][1..] == line[i + 1..];
      if c == '\\' && i + 1 < |line| {
        assert line[i..][2..] == line[i + 2..];
        result := result + "  ";
        i := i + 2;
        continue;
      }
      if c == quote {
        result := result + [quote];
        i := i + 1;
        return;
      }
      result := result + " ";
      i := i + 1;
    }
    assert line[|line|..] == "";
    MaskNothing();
  }

  lemma MaskInside(s: string, q: char)
    requires s != ""
    ensures Mask(s, Inside(q)) ==
              if s[0] == '\\' && |s| > 1 then "  " + Mask(s[2..], Inside(q))
              else if s[0] == q then [q] + Mask(s[1..], Outside)
              else " " + Mask(s[1..], Inside(q))
  {
  }

  lemma MaskOutside(s: string)
    requires s != ""
    ensures Mask(s, Outside)
         == [s[0]] + Mask(s[1..], if s[0] == '"' || s[0] == '\'' then Inside(s[0]) else Outside)
  {
  }

  method StripStringsLine(line: string) returns (result: string)
    ensures result == StripStrings(line)
  {
    hide Mask;
    result := "";
    var i := 0;
    assert line[0..] == line;
    while i < |line|
      invariant 0 <= i <= |line|
      invariant Mask(line, Outside) == result + Mask(line[i..], Outside)
    {
      var c := line[i];
      MaskOutside(line[i..]);
      assert line[i..][1..] == line[i + 1..];
      result := result + [c];
      i := i + 1;
      if c == '"' || c == '\'' {
        var masked, j := MaskLiteral(line, i, c);
        result := result + masked;
        i := j;
      }
    }
    MaskNothing();
  }

  lemma MaskNothing()
    ensures forall mode :: Mask("", mode) == ""
  {
  }

  /** Masking twice masks no more than masking once. */
  lemma {:induction false} MaskIdempotent(s: string, mode: Mode)
    requires mode.Inside? ==> mode.quote == '"' || mode.quote == '\''
    ensures Mask(Mask(s, mode), mode) == Mask(s, mode)
    decreases |s|
  {
    if s != "" {
      var r := Mask(s, mode);
      match mode {
        case Outside =>
          var next := if s[0] == '"' || s[0] == '\'' then Inside(s[0]) else Outside;
          assert r[1..] == Mask(s[1..], next);
          MaskIdempotent(s[1..], next);
        case Inside(q) =>
          if s[0] == '\\' && |s| > 1 {
            assert r[1..] == " " + Mask(s[2..], mode);
            assert r[1..][1..] == Mask(s[2..], mode);
            MaskIdempotent(s[2..], mode);
            assert Mask(r, mode) == " " + (" " + Mask(Mask(s[2..], mode), mode));
          } else if s[0] == q {
            assert r[1..] == Mask(s[1..], Outside);
            MaskIdempotent(s[1..], Outside);
          } else {
            assert r[1..] == Mask(s[1..], mode);
            MaskIdempotent(s[1..], mode);
          }
      }
    }
  }

  /** The length of a line is kept, so columns stay where they were; and masking is idempotent. */
  lemma StripStringsIdempotent(line: string)
    ensures |StripStrings(line)| == |line|
    ensures StripStrings(StripStrings(line)) == StripStrings(line)
  {
    MaskIdempotent(line, Outside);
  }

  lemma MaskOfEscapedChar(c: char, tail: string)
    requires tail != ""
    ensures Mask(EscapeChar(c) + tail, Inside('"')) == Spaces(|EscapeChar(c)|) + Mask(tail, Inside('"'))
  {
    var e := EscapeChar(c);
    assert (e + tail)[|e|..] == tail;
  }

  lemma SpacesAdd(m: nat, n: nat)
    ensures Spaces(m + n) == Spaces(m) + Spaces(n)
  {
  }

  lemma {:induction false} MaskOfEscape(s: string, rest: string)
    ensures Mask(Escape(s) + "\"" + rest, Inside('"')) == Spaces(|Escape(s)|) + "\"" + Mask(rest, Outside)
  {
    hide Mask, EscapeChar;
    var t := Escape(s) + "\"" + rest;
    if s == "" {
      assert t == ['"'] + rest;
      assert t[1..] == rest;
      MaskInside(t, '"');
    } else {
      var e := EscapeChar(s[0]);
      var tail := Escape(s[1..]) + "\"" + rest;
      assert t == e + tail;
      MaskOfEscapedChar(s[0], tail);
      MaskOfEscape(s[1..], rest);
      SpacesAdd(|e|, |Escape(s[1..])|);
    }
  }

  lemma MaskOpens(t: string)
    ensures StripStrings(['"'] + t) == ['"'] + Mask(t, Inside('"'))
  {
    assert (['"'] + t)[1..] == t;
  }

  /** A literal written by cpp_str is masked to two quotes around spaces, and what follows it is unaffected. */
  lemma MaskOfCppStr(s: string, rest: string)
    ensures StripStrings(CppStr(s) + rest) == "\"" + Spaces(|CppStr(s)| - 2) + "\"" + StripStrings(rest)
  {
    TwoReplacesAreOnePass(s);
    MaskOfEscape(s, rest);
    hide Escape, Mask;
    var t := Escape(s) + "\"" + rest;
    assert CppStr(s) + rest == ['"'] + t;
    MaskOpens(t);
    assert |CppStr(s)| == |Escape(s)| + 2;
  }

  /** A line break ends the literal too early. */
  lemma LineBreakIsNotEscaped()
    ensures ReadLiteral(CppStr("\n")) == Bad
  {
    hide CppStr, ReadLiteral;
    assert CppStr("\n") + "" == CppStr("\n");
    assert "\n"[0] == '\n';
    ReadOfCppStr("\n", "");
  }
}
