// _reflow_comments of _cpp_fmt.py.

module ReflowComments {
  import opened Sequences
  import opened Whitespace
  import opened GreedyPack

  // ----- Comment lines: indent, // or ///, one space, text

  datatype Line = Code | Comment(indent: string, marker: string, body: string)

  /** A body is text that does not start with white space. */
  ghost predicate IsBody(b: string)
  {
    b != "" && !IsSpace(b[0])
  }

  /** The match of ^(\s*)(///?)( )(\S.*)$ on a line without a newline. */
  function Match(l: string): (m: Line)
  {
    var n := Leading(l);
    var t := l[n..];
    if |t| >= 5 && t[..4] == "/// " && !IsSpace(t[4]) then Comment(l[..n], "///", t[4..])
    else if |t| >= 4 && t[..3] == "// " && !IsSpace(t[3]) then Comment(l[..n], "//", t[3..])
    else Code
  }

  ghost predicate IsPrefix(indent: string, marker: string)
  {
    AllSpace(indent) && (marker == "//" || marker == "///")
  }

  lemma MatchSplits(l: string)
    requires Match(l).Comment?
    ensures var m := Match(l);
            IsPrefix(m.indent, m.marker) && IsBody(m.body) && l == m.indent + m.marker + " " + m.body
  {
    hide IsSpace, Leading;
    var n := Leading(l);
    var t := l[n..];
    var m := Match(l);
    if m.marker == "///" {
      SplitThrice(l, n, "/// ", 4);
      assert "///" + " " == "/// ";
    } else {
      SplitThrice(l, n, "// ", 3);
      assert "//" + " " == "// ";
    }
  }

  lemma SplitThrice(l: string, n: nat, p: string, k: nat)
    requires n + k <= |l| && |p| == k && l[n..][..k] == p
    ensures l == l[..n] + p + l[n..][k..]
  {
  }

  lemma MatchOf(indent: string, marker: string, body: string)
    requires IsPrefix(indent, marker) && IsBody(body)
    ensures Match(indent + marker + " " + body) == Comment(indent, marker, body)
  {
    var l := indent + marker + " " + body;
    var n := |indent|;
    assert l[..n] == indent;
    assert l[n] == '/';
    LeadingIs(l, n);
    assert l[n..] == marker + " " + body;
    if marker == "//" {
      assert l[n..][..3] == "// " && l[n..][3..] == body;
      assert l[n..][2] == ' ';
    } else {
      assert l[n..][..4] == "/// " && l[n..][4..] == body;
    }
  }

  // ----- Paragraphs as word lists

  /**
   * One output line for each input line, starting with the words carried over; what is left at the end
   * goes on further lines. `pre` is the width of the prefix.
   */
  function Para(pre: nat, bodies: seq<seq<string>>, carry: seq<string>): seq<seq<string>>
    requires forall k :: 0 <= k < |bodies| ==> bodies[k] != []
    decreases |bodies|
  {
    if bodies == [] then (if carry == [] then [] else Greedy(pre, pre, carry))
    else
      var avail := carry + bodies[0];
      var k := FirstLine(pre, avail);
      [avail[..k]] + Para(pre, bodies[1..], avail[k..])
  }

  ghost predicate AllAcceptable(pre: nat, lines: seq<seq<string>>)
  {
    forall i :: 0 <= i < |lines| ==> Acceptable(pre, lines[i])
  }

  /** The words stay in order, and every line fits or is a single word. */
  lemma {:induction false} ParaKeepsWords(pre: nat, bodies: seq<seq<string>>, carry: seq<string>)
    requires forall k :: 0 <= k < |bodies| ==> bodies[k] != []
    ensures Flat(Para(pre, bodies, carry)) == carry + Flat(bodies)
    ensures AllAcceptable(pre, Para(pre, bodies, carry))
    ensures |bodies| <= |Para(pre, bodies, carry)|
    decreases |bodies|
  {
    hide FirstLine, Text, Greedy, AllAcceptable, Acceptable, Flat;
    if bodies == [] {
      LeftOvers(pre, carry);
      assert carry + [] == carry;
    } else {
      var avail := carry + bodies[0];
      var k := FirstLine(pre, avail);
      ParaKeepsWords(pre, bodies[1..], avail[k..]);
      OneMoreLine(pre, avail, k, Para(pre, bodies[1..], avail[k..]), Flat(bodies[1..]));
      FlatCons(bodies[0], bodies[1..]);
      assert bodies == [bodies[0]] + bodies[1..];
      assert carry + (bodies[0] + Flat(bodies[1..])) == avail + Flat(bodies[1..]);
    }
  }

  /** The lines that take what is carried beyond the last input line. */
  lemma LeftOvers(pre: nat, carry: seq<string>)
    ensures var lines := if carry == [] then [] else Greedy(pre, pre, carry);
            Flat(lines) == carry && AllAcceptable(pre, lines)
    ensures Flat([]) == []
  {
    hide Text, Greedy;
    if carry != [] {
      GreedyIsSplit(pre, pre, carry);
    }
  }

  lemma FlatCons(line: seq<string>, lines: seq<seq<string>>)
    ensures Flat([line] + lines) == line + Flat(lines)
  {
    assert ([line] + lines)[1..] == lines;
  }

  /** A filled line in front of lines that carry on with the rest of the words. */
  lemma OneMoreLine(pre: nat, avail: seq<string>, k: nat, rest: seq<seq<string>>, later: seq<string>)
    requires avail != [] && k == FirstLine(pre, avail)
    requires AllAcceptable(pre, rest) && Flat(rest) == avail[k..] + later
    ensures AllAcceptable(pre, [avail[..k]] + rest) && Flat([avail[..k]] + rest) == avail + later
  {
    hide FirstLine, Acceptable, Flat;
    FirstLineIsExact(pre, avail, k);
    FlatCons(avail[..k], rest);
    assert avail[..k] + (avail[k..] + later) == avail + later;
  }

  /** Lines that already fit, or cannot, are left as they are. */
  lemma {:induction false} ParaStable(pre: nat, lines: seq<seq<string>>)
    requires AllAcceptable(pre, lines)
    ensures Para(pre, lines, []) == lines
    decreases |lines|
  {
    if lines != [] {
      var g := lines[0];
      assert [] + g == g;
      assert g[..|g|] == g && g[|g|..] == [];
      FirstLineIsExact(pre, g, |g|);
      ParaStable(pre, lines[1..]);
    }
  }

  // ----- Runs of lines

  /** How many lines at the front are comments with this indent and marker. */
  function RunLength(lines: seq<string>, indent: string, marker: string): (n: nat)
    ensures n <= |lines|
    decreases |lines|
  {
    if lines == [] then 0
    else
      var m := Match(lines[0]);
      if m.Comment? && m.indent == indent && m.marker == marker then 1 + RunLength(lines[1..], indent, marker)
      else 0
  }

  ghost predicate InRun(l: string, indent: string, marker: string)
  {
    Match(l).Comment? && Match(l).indent == indent && Match(l).marker == marker
  }

  ghost predicate IsRun(para: seq<string>, indent: string, marker: string)
  {
    forall k :: 0 <= k < |para| ==> InRun(para[k], indent, marker)
  }

  lemma {:induction false} RunLengthIs(para: seq<string>, rest: seq<string>, indent: string, marker: string)
    requires IsRun(para, indent, marker)
    requires rest != [] ==> !InRun(rest[0], indent, marker)
    ensures RunLength(para + rest, indent, marker) == |para|
    decreases |para|
  {
    if para == [] {
      assert para + rest == rest;
    } else {
      assert (para + rest)[0] == para[0] && (para + rest)[1..] == para[1..] + rest;
      RunLengthIs(para[1..], rest, indent, marker);
    }
  }

  lemma {:induction false} RunSplits(lines: seq<string>, indent: string, marker: string)
    ensures var j := RunLength(lines, indent, marker);
            IsRun(lines[..j], indent, marker) && (j < |lines| ==> !InRun(lines[j], indent, marker))
    decreases |lines|
  {
    if lines != [] && InRun(lines[0], indent, marker) {
      var j := RunLength(lines[1..], indent, marker);
      RunSplits(lines[1..], indent, marker);
      var para := lines[..j + 1];
      forall k | 0 <= k < |para| ensures InRun(para[k], indent, marker) {
        if k > 0 {
          assert para[k] == lines[1..][..j][k - 1];
        }
      }
    }
  }

  function Bodies(para: seq<string>): (bs: seq<seq<string>>)
    requires forall k :: 0 <= k < |para| ==> Match(para[k]).Comment?
    ensures |bs| == |para|
    ensures forall k :: 0 <= k < |para| ==> bs[k] == Words(Match(para[k]).body)
  {
    seq(|para|, k requires 0 <= k < |para| => Words(Match(para[k]).body))
  }

  lemma BodiesNonEmpty(para: seq<string>)
    requires forall k :: 0 <= k < |para| ==> Match(para[k]).Comment?
    ensures forall k :: 0 <= k < |para| ==> Bodies(para)[k] != []
  {
    forall k | 0 <= k < |para| ensures Bodies(para)[k] != [] {
      MatchSplits(para[k]);
    }
  }

  function Lines(prefix: string, groups: seq<seq<string>>): (ls: seq<string>)
    ensures |ls| == |groups|
    ensures forall k :: 0 <= k < |groups| ==> ls[k] == prefix + Text(groups[k])
  {
    seq(|groups|, k requires 0 <= k < |groups| => prefix + Text(groups[k]))
  }

  /** A paragraph is rewritten only if one of its lines is too long. */
  function ReflowRun(para: seq<string>, indent: string, marker: string): seq<string>
    requires forall k :: 0 <= k < |para| ==> Match(para[k]).Comment?
  {
    var prefix := indent + marker + " ";
    BodiesNonEmpty(para);
    if AllFit(para) then para else Lines(prefix, Para(|prefix|, Bodies(para), []))
  }

  function Reflow(lines: seq<string>): seq<string>
    decreases |lines|
  {
    if lines == [] then []
    else
      match Match(lines[0])
      case Code => [lines[0]] + Reflow(lines[1..])
      case Comment(indent, marker, _) =>
        var j := RunLength(lines, indent, marker);
        RunSplits(lines, indent, marker);
        assert forall k :: 0 <= k < j ==> Match(lines[..j][k]).Comment? by {
          forall k | 0 <= k < j ensures Match(lines[..j][k]).Comment? {
            assert InRun(lines[..j][k], indent, marker);
          }
        }
        ReflowRun(lines[..j], indent, marker) + Reflow(lines[j..])
  }

  // ----- One reflowed paragraph

  ghost predicate AreWords(ws: seq<string>)
  {
    forall k :: 0 <= k < |ws| ==> IsWord(ws[k])
  }

  lemma {:induction false} WordsOfText(ws: seq<string>)
    requires AreWords(ws)
    ensures Words(Text(ws)) == ws
    ensures ws != [] ==> IsBody(Text(ws))
  {
    if |ws| == 1 {
      assert ws[0] + "" == ws[0];
      WordsCons(ws[0], "");
    } else if |ws| > 1 {
      WordsOfText(ws[1..]);
      var rest := " " + Text(ws[1..]);
      assert Text(ws) == ws[0] + rest;
      WordsCons(ws[0], rest);
      assert rest[1..] == Text(ws[1..]);
    }
  }

  lemma {:induction false} WordsOfFlat(groups: seq<seq<string>>, i: nat, k: nat)
    requires AreWords(Flat(groups)) && i < |groups| && k < |groups[i]|
    ensures IsWord(groups[i][k])
  {
    if i == 0 {
      assert Flat(groups)[k] == groups[0][k];
    } else {
      assert AreWords(Flat(groups[1..])) by {
        forall j | 0 <= j < |Flat(groups[1..])| ensures IsWord(Flat(groups[1..])[j]) {
          assert Flat(groups)[|groups[0]| + j] == Flat(groups[1..])[j];
        }
      }
      WordsOfFlat(groups[1..], i - 1, k);
    }
  }

  lemma {:induction false} FlatOfWords(groups: seq<seq<string>>)
    requires forall i :: 0 <= i < |groups| ==> AreWords(groups[i])
    ensures AreWords(Flat(groups))
  {
    if groups != [] {
      FlatOfWords(groups[1..]);
    }
  }

  /** What the paragraph pass makes of a run, seen as groups of words. */
  lemma RunGroups(para: seq<string>, indent: string, marker: string) returns (groups: seq<seq<string>>)
    requires IsPrefix(indent, marker) && IsRun(para, indent, marker)
    requires !AllFit(para)
    ensures var pre := |indent + marker + " "|;
            && ReflowRun(para, indent, marker) == Lines(indent + marker + " ", groups)
            && AllAcceptable(pre, groups)
            && Flat(groups) == Flat(Bodies(para))
            && (forall i :: 0 <= i < |groups| ==> AreWords(groups[i]))
            && |para| <= |groups|
  {
    var pre := |indent + marker + " "|;
    BodiesNonEmpty(para);
    groups := Para(pre, Bodies(para), []);
    ParaKeepsWords(pre, Bodies(para), []);
    assert [] + Flat(Bodies(para)) == Flat(Bodies(para));
    FlatOfWords(Bodies(para));
    forall i | 0 <= i < |groups| ensures AreWords(groups[i]) {
      forall k | 0 <= k < |groups[i]| ensures IsWord(groups[i][k]) {
        WordsOfFlat(groups, i, k);
      }
    }
  }

  /** A rendered group reads back as a comment line of the same run with the same words. */
  lemma RenderedLine(indent: string, marker: string, g: seq<string>)
    requires IsPrefix(indent, marker) && g != [] && AreWords(g)
    ensures var l := indent + marker + " " + Text(g);
            InRun(l, indent, marker) && Words(Match(l).body) == g
  {
    WordsOfText(g);
    MatchOf(indent, marker, Text(g));
  }

  lemma ReflowedRun(para: seq<string>, indent: string, marker: string)
    requires IsPrefix(indent, marker) && IsRun(para, indent, marker)
    ensures var out := ReflowRun(para, indent, marker);
            && |para| <= |out|
            && IsRun(out, indent, marker)
            && Flat(Bodies(out)) == Flat(Bodies(para))
            && ReflowRun(out, indent, marker) == out
            && (forall i :: 0 <= i < |out| ==> |out[i]| <= COL || |Bodies(out)[i]| == 1)
  {
    hide Match, Text, Words, Para;
    var out := ReflowRun(para, indent, marker);
    if !AllFit(para) {
      var prefix := indent + marker + " ";
      var groups := RunGroups(para, indent, marker);
      forall i | 0 <= i < |out|
        ensures InRun(out[i], indent, marker) && Words(Match(out[i]).body) == groups[i]
      {
        RenderedLine(indent, marker, groups[i]);
      }
      assert Bodies(out) == groups;
      ParaStable(|prefix|, groups);
      forall i | 0 <= i < |out| ensures |out[i]| <= COL || |groups[i]| == 1 {
        assert Acceptable(|prefix|, groups[i]);
      }
    }
  }

  // ----- Whole files

  /** A line's role in the pass: which run it belongs to, if any. */
  lemma FirstKey(lines: seq<string>)
    requires lines != []
    ensures Reflow(lines) != []
    ensures Match(lines[0]).Code? ==> Reflow(lines)[0] == lines[0]
    ensures Match(lines[0]).Comment? ==>
              InRun(Reflow(lines)[0], Match(lines[0]).indent, Match(lines[0]).marker)
  {
    if Match(lines[0]).Comment? {
      var (indent, marker) := (Match(lines[0]).indent, Match(lines[0]).marker);
      var j := RunLength(lines, indent, marker);
      RunSplits(lines, indent, marker);
      MatchSplits(lines[0]);
      assert j > 0;
      ReflowedRun(lines[..j], indent, marker);
      assert InRun(ReflowRun(lines[..j], indent, marker)[0], indent, marker);
    }
  }

  /** What follows a run still does not belong to it after reflowing. */
  lemma NextRun(rest: seq<string>, indent: string, marker: string)
    requires rest != [] ==> !InRun(rest[0], indent, marker)
    ensures Reflow(rest) != [] ==> !InRun(Reflow(rest)[0], indent, marker)
  {
    if rest != [] {
      FirstKey(rest);
    }
  }

  /** The pass splits a file into its first run and the rest. */
  lemma ReflowOfRun(para: seq<string>, rest: seq<string>, indent: string, marker: string)
    requires para != [] && IsRun(para, indent, marker)
    requires rest != [] ==> !InRun(rest[0], indent, marker)
    ensures Reflow(para + rest) == ReflowRun(para, indent, marker) + Reflow(rest)
  {
    RunLengthIs(para, rest, indent, marker);
    assert (para + rest)[0] == para[0];
    assert InRun(para[0], indent, marker);
    assert (para + rest)[..|para|] == para && (para + rest)[|para|..] == rest;
  }

  /** Reflowing again changes nothing. */
  lemma {:induction false} ReflowIdempotent(lines: seq<string>)
    ensures Reflow(Reflow(lines)) == Reflow(lines)
    decreases |lines|
  {
    if lines == [] {
    } else if Match(lines[0]).Code? {
      ReflowIdempotent(lines[1..]);
      assert Reflow(lines)[1..] == Reflow(lines[1..]);
    } else {
      var (indent, marker) := (Match(lines[0]).indent, Match(lines[0]).marker);
      var j := RunLength(lines, indent, marker);
      RunSplits(lines, indent, marker);
      MatchSplits(lines[0]);
      assert j > 0;
      var out, rest := ReflowRun(lines[..j], indent, marker), lines[j..];
      ReflowedRun(lines[..j], indent, marker);
      NextRun(rest, indent, marker);
      ReflowIdempotent(rest);
      ReflowOfRun(out, Reflow(rest), indent, marker);
    }
  }

  /** The content of a file: its code lines, and the words of each comment paragraph. */
  datatype Item = CodeLine(text: string) | Paragraph(indent: string, marker: string, words: seq<string>)

  ghost function Content(lines: seq<string>): seq<Item>
    decreases |lines|
  {
    if lines == [] then []
    else if Match(lines[0]).Code? then [CodeLine(lines[0])] + Content(lines[1..])
    else
      var (indent, marker) := (Match(lines[0]).indent, Match(lines[0]).marker);
      var j := RunLength(lines, indent, marker);
      RunSplits(lines, indent, marker);
      RunIsComments(lines[..j], indent, marker);
      [Paragraph(indent, marker, Flat(Bodies(lines[..j])))] + Content(lines[j..])
  }

  lemma RunIsComments(para: seq<string>, indent: string, marker: string)
    requires IsRun(para, indent, marker)
    ensures forall k :: 0 <= k < |para| ==> Match(para[k]).Comment?
  {
    forall k | 0 <= k < |para| ensures Match(para[k]).Comment? {
      assert InRun(para[k], indent, marker);
    }
  }

  lemma ContentOfRun(para: seq<string>, rest: seq<string>, indent: string, marker: string)
    requires para != [] && IsRun(para, indent, marker)
    requires rest != [] ==> !InRun(rest[0], indent, marker)
    ensures (RunIsComments(para, indent, marker);
             Content(para + rest) == [Paragraph(indent, marker, Flat(Bodies(para)))] + Content(rest))
  {
    RunLengthIs(para, rest, indent, marker);
    assert (para + rest)[0] == para[0];
    assert InRun(para[0], indent, marker);
    assert (para + rest)[..|para|] == para && (para + rest)[|para|..] == rest;
  }

  /** Every code line stays, and every paragraph keeps its words in order. */
  lemma {:induction false} ReflowKeepsContent(lines: seq<string>)
    ensures Content(Reflow(lines)) == Content(lines)
    decreases |lines|
  {
    if lines == [] {
    } else if Match(lines[0]).Code? {
      ReflowKeepsContent(lines[1..]);
      assert Reflow(lines)[1..] == Reflow(lines[1..]);
    } else {
      var (indent, marker) := (Match(lines[0]).indent, Match(lines[0]).marker);
      var j := RunLength(lines, indent, marker);
      RunSplits(lines, indent, marker);
      MatchSplits(lines[0]);
      assert j > 0;
      var out, rest := ReflowRun(lines[..j], indent, marker), lines[j..];
      ReflowedRun(lines[..j], indent, marker);
      NextRun(rest, indent, marker);
      ReflowKeepsContent(rest);
      ContentOfRun(out, Reflow(rest), indent, marker);
    }
  }

  /** Afterwards every comment line fits the limit or holds a single word. */
  lemma {:induction false} ReflowedWidth(lines: seq<string>, i: nat)
    requires i < |Reflow(lines)| && Match(Reflow(lines)[i]).Comment?
    ensures |Reflow(lines)[i]| <= COL || |Words(Match(Reflow(lines)[i]).body)| == 1
    decreases |lines|
  {
    hide Match, ReflowRun;
    if Match(lines[0]).Code? {
      if i > 0 {
        assert Reflow(lines)[i] == Reflow(lines[1..])[i - 1];
        ReflowedWidth(lines[1..], i - 1);
      }
    } else {
      var (indent, marker) := (Match(lines[0]).indent, Match(lines[0]).marker);
      var j := RunLength(lines, indent, marker);
      RunSplits(lines, indent, marker);
      MatchSplits(lines[0]);
      var out := ReflowRun(lines[..j], indent, marker);
      ReflowedRun(lines[..j], indent, marker);
      if i < |out| {
        assert Reflow(lines)[i] == out[i];
      } else {
        assert Reflow(lines)[i] == Reflow(lines[j..])[i - |out|];
        ReflowedWidth(lines[j..], i - |out|);
      }
    }
  }

  // ----- The source's form: index loops over the lines

  lemma TextSnoc(ws: seq<string>, w: string)
    requires ws != []
    ensures Text(ws + [w]) == Text(ws) + " " + w
  {
    JoinOfConcat(ws, [w], " ");
  }

  lemma TakeMore(len: nat, ws: seq<string>)
    requires ws != [] && len + 1 + |ws[0]| <= COL
    ensures Take(len, ws) == 1 + Take(len + 1 + |ws[0]|, ws[1..])
  {
  }

  /** The loop that puts words on one line while they fit. */
  method FillLine(prefix: string, avail: seq<string>) returns (line: string, k: nat)
    requires avail != []
    ensures k == FirstLine(|prefix|, avail)
    ensures line == prefix + Text(avail[..k])
  {
    line := prefix + avail[0];
    k := 1;
    assert Text(avail[..1]) == avail[0];
    while k < |avail| && |line| + 1 + |avail[k]| <= COL
      invariant 1 <= k <= |avail|
      invariant line == prefix + Text(avail[..k])
      invariant k + Take(|line|, avail[k..]) == FirstLine(|prefix|, avail)
    {
      TakeMore(|line|, avail[k..]);
      assert avail[k..][1..] == avail[k + 1..];
      assert avail[..k + 1] == avail[..k] + [avail[k]];
      TextSnoc(avail[..k], avail[k]);
      line := line + " " + avail[k];
      k := k + 1;
    }
  }

  /** What the words carried so far and the bodies not read yet still have to become. */
  function ToCome(prefix: string, bodies: seq<seq<string>>, carry: seq<string>): seq<string>
    requires forall k :: 0 <= k < |bodies| ==> bodies[k] != []
  {
    Lines(prefix, Para(|prefix|, bodies, carry))
  }

  lemma ToComeEnds(prefix: string, bodies: seq<seq<string>>)
    requires forall k :: 0 <= k < |bodies| ==> bodies[k] != []
    ensures ToCome(prefix, bodies, []) == Lines(prefix, Para(|prefix|, bodies, []))
    ensures ToCome(prefix, [], []) == []
  {
  }

  lemma LinesCons(prefix: string, group: seq<string>, groups: seq<seq<string>>)
    ensures Lines(prefix, [group] + groups) == [prefix + Text(group)] + Lines(prefix, groups)
  {
    hide Text;
  }

  lemma NextLine(prefix: string, bodies: seq<seq<string>>, carry: seq<string>)
    requires bodies != [] && forall k :: 0 <= k < |bodies| ==> bodies[k] != []
    ensures var avail := carry + bodies[0];
            var k := FirstLine(|prefix|, avail);
            ToCome(prefix, bodies, carry) == [prefix + Text(avail[..k])] + ToCome(prefix, bodies[1..], avail[k..])
  {
    hide Lines, FirstLine;
    var avail := carry + bodies[0];
    var k := FirstLine(|prefix|, avail);
    LinesCons(prefix, avail[..k], Para(|prefix|, bodies[1..], avail[k..]));
  }

  lemma NextLineOfCarry(prefix: string, carry: seq<string>)
    requires carry != []
    ensures var k := FirstLine(|prefix|, carry);
            ToCome(prefix, [], carry) == [prefix + Text(carry[..k])] + ToCome(prefix, [], carry[k..])
  {
    hide Lines, FirstLine;
    var k := FirstLine(|prefix|, carry);
    assert carry[..|carry|] == carry;
    assert Para(|prefix|, [], carry) == [carry[..k]] + Para(|prefix|, [], carry[k..]);
    LinesCons(prefix, carry[..k], Para(|prefix|, [], carry[k..]));
  }

  /** The two loops over an over-long paragraph: its lines, then what is still carried. */
  method ReflowParagraph(para: seq<string>, prefix: string) returns (out: seq<string>)
    requires forall k :: 0 <= k < |para| ==> Match(para[k]).Comment?
    ensures (BodiesNonEmpty(para); out == Lines(prefix, Para(|prefix|, Bodies(para), [])))
  {
    hide Match, Words, Text, ToCome, FirstLine;
    BodiesNonEmpty(para);
    ghost var bodies := Bodies(para);
    ghost var total := ToCome(prefix, bodies, []);
    ToComeEnds(prefix, bodies);
    out := [];
    var carry: seq<string> := [];
    for i := 0 to |para|
      invariant out + ToCome(prefix, bodies[i..], carry) == total
    {
      NextLine(prefix, bodies[i..], carry);
      var avail := carry + Words(Match(para[i]).body);
      assert bodies[i] == Words(Match(para[i]).body) && bodies[i] != [];
      assert bodies[i..][1..] == bodies[i + 1..];
      var line, k := FillLine(prefix, avail);
      out := out + [line];
      carry := avail[k..];
    }
    while carry != []
      invariant out + ToCome(prefix, [], carry) == total
      decreases |carry|
    {
      NextLineOfCarry(prefix, carry);
      var line, k := FillLine(prefix, carry);
      out := out + [line];
      carry := carry[k..];
    }
  }

  /** The loop that collects a paragraph. */
  method CollectRun(lines: seq<string>, i: nat, indent: string, marker: string) returns (j: nat)
    requires i < |lines| && InRun(lines[i], indent, marker)
    ensures i < j <= |lines| && j - i == RunLength(lines[i..], indent, marker)
  {
    hide Match;
    j := i + 1;
    while j < |lines| && Match(lines[j]).Comment?
          && Match(lines[j]).indent == indent && Match(lines[j]).marker == marker
      invariant i < j <= |lines|
      invariant IsRun(lines[i..j], indent, marker)
    {
      assert lines[i..j + 1] == lines[i..j] + [lines[j]];
      j := j + 1;
    }
    assert lines[i..] == lines[i..j] + lines[j..];
    RunLengthIs(lines[i..j], lines[j..], indent, marker);
  }

  lemma ReflowNothing()
    ensures Reflow([]) == []
  {
  }

  lemma ReflowCode(lines: seq<string>)
    requires lines != [] && Match(lines[0]).Code?
    ensures Reflow(lines) == [lines[0]] + Reflow(lines[1..])
  {
    hide Match;
  }

  lemma ReflowNext(lines: seq<string>)
    requires lines != [] && Match(lines[0]).Comment?
    ensures var (indent, marker) := (Match(lines[0]).indent, Match(lines[0]).marker);
            var j := RunLength(lines, indent, marker);
            && 0 < j <= |lines| && (forall k :: 0 <= k < j ==> Match(lines[..j][k]).Comment?)
            && Reflow(lines) == ReflowRun(lines[..j], indent, marker) + Reflow(lines[j..])
  {
    hide Match, ReflowRun;
    var (indent, marker) := (Match(lines[0]).indent, Match(lines[0]).marker);
    RunSplits(lines, indent, marker);
    RunIsComments(lines[..RunLength(lines, indent, marker)], indent, marker);
  }

  method ReflowCommentLines(lines: seq<string>) returns (out: seq<string>)
    ensures out == Reflow(lines)
  {
    hide Match, ReflowRun, Reflow, RunLength;
    ReflowNothing();
    out := [];
    var i := 0;
    while i < |lines|
      invariant 0 <= i <= |lines|
      invariant out + Reflow(lines[i..]) == Reflow(lines)
    {
      var m := Match(lines[i]);
      if m.Code? {
        ReflowCode(lines[i..]);
        assert lines[i..][1..] == lines[i + 1..];
        out := out + [lines[i]];
        i := i + 1;
        continue;
      }
      var j := CollectRun(lines, i, m.indent, m.marker);
      var para := lines[i..j];
      assert lines[i..][..j - i] == para && lines[i..][j - i..] == lines[j..];
      ReflowNext(lines[i..]);
      var more := ReflowOneRun(para, m.indent, m.marker);
      out := out + more;
      i := j;
    }
    assert lines[i..] == [];
  }

  method ReflowOneRun(para: seq<string>, indent: string, marker: string) returns (out: seq<string>)
    requires forall k :: 0 <= k < |para| ==> Match(para[k]).Comment?
    ensures out == ReflowRun(para, indent, marker)
  {
    if AllFit(para) {
      out := para;
    } else {
      out := ReflowParagraph(para, indent + marker + " ");
    }
  }
}
