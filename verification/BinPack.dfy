// _binpack and _wrap_signature of _cpp_fmt.py.

module BinPack {
  import opened Sequences
  import opened GreedyPack
  import opened Whitespace

  // ----- Text

  /** The text without its white space. */
  function Ink(s: string): string
  {
    if s == "" then "" else (if IsSpace(s[0]) then "" else [s[0]]) + Ink(s[1..])
  }

  function InkAll(lines: seq<string>): string
  {
    if lines == [] then "" else Ink(lines[0]) + InkAll(lines[1..])
  }

  lemma {:induction false} InkOfConcat(a: string, b: string)
    ensures Ink(a + b) == Ink(a) + Ink(b)
  {
    if a == "" {
      assert a + b == b;
    } else {
      assert (a + b)[1..] == a[1..] + b;
      InkOfConcat(a[1..], b);
    }
  }

  lemma {:induction false} InkOfBlank(s: string)
    requires forall k :: 0 <= k < |s| ==> IsSpace(s[k])
    ensures Ink(s) == ""
  {
    if s != "" {
      InkOfBlank(s[1..]);
    }
  }

  lemma {:induction false} InkAllOfConcat(a: seq<string>, b: seq<string>)
    ensures InkAll(a + b) == InkAll(a) + InkAll(b)
  {
    if a == [] {
      assert a + b == b;
    } else {
      assert (a + b)[1..] == a[1..] + b;
      InkAllOfConcat(a[1..], b);
    }
  }

  /** Joining with blanks only adds white space. */
  lemma {:induction false} InkOfJoin(parts: seq<string>, sep: string)
    ensures Ink(sep) == "" ==> Ink(JoinWith(parts, sep)) == InkAll(parts)
  {
    if |parts| == 1 {
      assert InkAll(parts) == Ink(parts[0]) + "";
    } else if |parts| > 1 {
      InkOfConcat(parts[0], sep);
      InkOfConcat(parts[0] + sep, JoinWith(parts[1..], sep));
      InkOfJoin(parts[1..], sep);
    }
  }

  // ----- The pieces

  /** Every parameter with its comma; the tail goes with the last one. */
  function Pieces(params: seq<string>, tail: string): (ps: seq<string>)
    ensures |ps| == |params|
  {
    if params == [] then []
    else if |params| == 1 then [params[0] + tail]
    else [params[0] + ","] + Pieces(params[1..], tail)
  }

  lemma InkOfArguments(p: string, rest: seq<string>, tail: string)
    requires rest != []
    ensures Ink(JoinWith([p] + rest, ", ") + tail) == Ink(p + ",") + Ink(JoinWith(rest, ", ") + tail)
  {
    hide Ink;
    var after := JoinWith(rest, ", ") + tail;
    assert ([p] + rest)[1..] == rest;
    assert JoinWith([p] + rest, ", ") + tail == p + "," + (" " + after);
    InkOfConcat(p + ",", " " + after);
    InkOfConcat(" ", after);
    InkOfBlank(" ");
  }

  /** The pieces carry the text of the one-line form, spaces apart. */
  lemma {:induction false} PiecesInk(params: seq<string>, tail: string)
    requires params != []
    ensures InkAll(Pieces(params, tail)) == Ink(JoinWith(params, ", ") + tail)
  {
    hide Ink;
    if |params| == 1 {
      assert InkAll([params[0] + tail]) == Ink(params[0] + tail) + InkAll([]);
    } else {
      PiecesInk(params[1..], tail);
      assert params == [params[0]] + params[1..];
      InkOfArguments(params[0], params[1..], tail);
    }
  }

  // ----- Packing

  /** The text of packed lines: `first` opens the first line, `cont` the others. */
  function Render(first: string, cont: string, lines: seq<seq<string>>): (out: seq<string>)
    ensures |out| == |lines|
    decreases |lines|
  {
    if lines == [] then [] else [first + Text(lines[0])] + Render(cont, cont, lines[1..])
  }

  lemma {:induction false} RenderAt(first: string, cont: string, lines: seq<seq<string>>, i: nat)
    requires i < |lines|
    ensures Render(first, cont, lines)[i] == (if i == 0 then first else cont) + Text(lines[i])
    decreases |lines|
  {
    if i > 0 {
      RenderAt(cont, cont, lines[1..], i - 1);
    }
  }

  lemma {:induction false} RenderInk(first: string, cont: string, lines: seq<seq<string>>)
    requires lines != [] && Ink(cont) == ""
    ensures InkAll(Render(first, cont, lines)) == Ink(first) + InkAll(Flat(lines))
    decreases |lines|
  {
    hide Ink;
    InkOfConcat(first, Text(lines[0]));
    InkOfBlank(" ");
    InkOfJoin(lines[0], " ");
    InkAllOfConcat(lines[0], Flat(lines[1..]));
    if |lines| > 1 {
      RenderInk(cont, cont, lines[1..]);
    }
  }

  /** The lines from `opening` on. With no pieces there is only the opening. */
  function Body(opening: string, cont: string, pieces: seq<string>): (out: seq<string>)
    ensures out != []
  {
    if pieces == [] then [opening] else Render(opening, cont, Greedy(|opening|, |cont|, pieces))
  }

  /** The packed lines before the operator stage. */
  function Packed(first: string, params: seq<string>, tail: string, cont: string, inl: bool): (out: seq<string>)
    ensures out != []
  {
    if inl then Body(first, cont, Pieces(params, tail)) else [first] + Body(cont, cont, Pieces(params, tail))
  }

  // ----- The operator stage: break the last line at " + "

  /** cur.split(" + ") */
  function SplitPlus(s: string): (toks: seq<string>)
    ensures toks != []
  {
    if s == "" then [""]
    else if |s| >= 3 && s[..3] == " + " then [""] + SplitPlus(s[3..])
    else
      var rest := SplitPlus(s[1..]);
      [[s[0]] + rest[0]] + rest[1..]
  }

  lemma {:induction false} JoinOfSplitPlus(s: string)
    ensures JoinWith(SplitPlus(s), " + ") == s
  {
    if s == "" {
    } else if |s| >= 3 && s[..3] == " + " {
      JoinOfSplitPlus(s[3..]);
      assert SplitPlus(s)[1..] == SplitPlus(s[3..]);
      assert s == s[..3] + s[3..];
    } else {
      JoinOfSplitPlus(s[1..]);
      JoinAfter(s[0], SplitPlus(s[1..]));
      assert s == [s[0]] + s[1..];
    }
  }

  lemma JoinAfter(c: char, toks: seq<string>)
    requires toks != []
    ensures JoinWith([[c] + toks[0]] + toks[1..], " + ") == [c] + JoinWith(toks, " + ")
  {
    var longer := [[c] + toks[0]] + toks[1..];
    assert longer[0] == [c] + toks[0] && longer[1..] == toks[1..];
    if |toks| > 1 {
      var tail := JoinWith(toks[1..], " + ");
      assert JoinWith(longer, " + ") == [c] + toks[0] + " + " + tail;
      assert JoinWith(toks, " + ") == toks[0] + " + " + tail;
      hide JoinWith;
      assert [c] + toks[0] + " + " + tail == [c] + (toks[0] + " + " + tail);
    }
  }

  /** The columns kept free for a trailing " +" when more operands follow. */
  function Reserve(more: bool): nat
  {
    if more then 2 else 0
  }

  /** The loop of the operator stage: `cur` is the line being rebuilt, `toks` the operands to come. */
  function PlusLines(cur: string, toks: seq<string>, cont: string): (out: seq<string>)
    ensures out != []
    decreases |toks|
  {
    if toks == [] then [cur]
    else if |cur| + 3 + |toks[0]| + Reserve(|toks| > 1) > COL then
      [cur + " +"] + PlusLines(cont + toks[0], toks[1..], cont)
    else PlusLines(cur + " + " + toks[0], toks[1..], cont)
  }

  function PlusStage(cur: string, cont: string): seq<string>
  {
    var toks := SplitPlus(cur);
    if |cur| > COL && |toks| > 1 then PlusLines(toks[0], toks[1..], cont) else [cur]
  }

  lemma {:induction false} PlusLinesInk(cur: string, toks: seq<string>, cont: string)
    requires Ink(cont) == ""
    ensures InkAll(PlusLines(cur, toks, cont)) == Ink(if toks == [] then cur else cur + " + " + JoinWith(toks, " + "))
    decreases |toks|
  {
    hide Ink;
    if toks == [] {
      assert InkAll([cur]) == Ink(cur) + InkAll([]);
    } else {
      var t, rest := toks[0], toks[1..];
      var after := if rest == [] then t else t + " + " + JoinWith(rest, " + ");
      assert JoinWith(toks, " + ") == after;
      if |cur| + 3 + |t| + Reserve(|toks| > 1) > COL {
        PlusLinesInk(cont + t, rest, cont);
        var cut := if rest == [] then cont + t else cont + t + " + " + JoinWith(rest, " + ");
        assert cut == cont + after;
        InkOfConcat(cont, after);
        InkOfConcat(cur + " +", " " + after);
        InkOfConcat(" ", after);
        InkOfBlank(" ");
        assert cur + " + " + after == cur + " +" + (" " + after);
      } else {
        PlusLinesInk(cur + " + " + t, rest, cont);
        assert rest != [] ==> cur + " + " + t + " + " + JoinWith(rest, " + ") == cur + " + " + after;
      }
    }
  }

  lemma PlusStageInk(cur: string, cont: string)
    requires Ink(cont) == ""
    ensures InkAll(PlusStage(cur, cont)) == Ink(cur)
  {
    hide Ink;
    var toks := SplitPlus(cur);
    JoinOfSplitPlus(cur);
    if |cur| > COL && |toks| > 1 {
      PlusLinesInk(toks[0], toks[1..], cont);
    } else {
      assert InkAll([cur]) == Ink(cur) + "";
    }
  }

  /** Line `i` of a broken expression: its operands, and the operator that ends it unless it is the last. */
  function OperandLine(lead: string, lines: seq<seq<string>>, cont: string, i: nat): string
    requires i < |lines|
  {
    (if i == 0 then lead else cont) + JoinWith(lines[i], " + ") + (if i < |lines| - 1 then " +" else "")
  }

  /** `out` lays out the operand groups `lines`, and a line of several operands fits. */
  ghost predicate LaysOut(lead: string, lines: seq<seq<string>>, cont: string, out: seq<string>)
  {
    && |out| == |lines| && lines != []
    && (forall i :: 0 <= i < |lines| ==> lines[i] != [] && out[i] == OperandLine(lead, lines, cont, i))
    && (forall i :: 0 <= i < |lines| ==> |lines[i]| > 1 ==> |out[i]| <= COL)
  }

  lemma LaysOutCons(lead: string, g: seq<string>, lines: seq<seq<string>>, cont: string, out: seq<string>)
    requires g != [] && LaysOut(cont, lines, cont, out)
    requires |g| > 1 ==> |lead + JoinWith(g, " + ")| + 2 <= COL
    ensures LaysOut(lead, [g] + lines, cont, [lead + JoinWith(g, " + ") + " +"] + out)
  {
    hide JoinWith;
    var all := [g] + lines;
    forall i | 1 <= i < |all| ensures OperandLine(lead, all, cont, i) == out[i - 1] {
      assert all[i] == lines[i - 1];
    }
  }

  lemma JoinOne(t: string)
    ensures JoinWith([t], " + ") == t
  {
  }

  lemma JoinSnoc(g: seq<string>, t: string)
    requires g != []
    ensures JoinWith(g + [t], " + ") == JoinWith(g, " + ") + " + " + t
  {
    JoinOfConcat(g, [t], " + ");
  }

  /**
   * The operator stage splits the operands in order, and a line that still overflows holds one operand.
   * `g` is what stands on the current line behind `lead`.
   */
  lemma {:induction false} PlusLinesSplit(lead: string, g: seq<string>, toks: seq<string>, cont: string)
    returns (lines: seq<seq<string>>)
    requires g != []
    requires |g| > 1 ==> |lead + JoinWith(g, " + ")| + Reserve(toks != []) <= COL
    ensures Flat(lines) == g + toks
    ensures LaysOut(lead, lines, cont, PlusLines(lead + JoinWith(g, " + "), toks, cont))
    decreases |toks|
  {
    hide JoinWith;
    var cur := lead + JoinWith(g, " + ");
    if toks == [] {
      lines := [g];
      assert Flat([g]) == g + Flat([]);
      assert OperandLine(lead, [g], cont, 0) == cur;
    } else {
      var t, rest := toks[0], toks[1..];
      assert toks == [t] + rest;
      if |cur| + 3 + |t| + Reserve(|toks| > 1) > COL {
        JoinOne(t);
        var tail := PlusLinesSplit(cont, [t], rest, cont);
        lines := [g] + tail;
        assert lines[1..] == tail;
        LaysOutCons(lead, g, tail, cont, PlusLines(cont + t, rest, cont));
      } else {
        JoinSnoc(g, t);
        assert cur + " + " + t == lead + JoinWith(g + [t], " + ");
        lines := PlusLinesSplit(lead, g + [t], rest, cont);
        assert g + [t] + rest == g + toks;
      }
    }
  }

  /** After the operator stage only lines with a single operand are over the limit. */
  lemma PlusStageSplits(cur: string, cont: string) returns (lines: seq<seq<string>>)
    requires |cur| > COL && |SplitPlus(cur)| > 1
    ensures Flat(lines) == SplitPlus(cur)
    ensures LaysOut("", lines, cont, PlusStage(cur, cont))
  {
    var toks := SplitPlus(cur);
    lines := PlusLinesSplit("", [toks[0]], toks[1..], cont);
    JoinOne(toks[0]);
    assert "" + toks[0] == toks[0];
    assert [toks[0]] + toks[1..] == toks;
  }

  // ----- No other way of breaking at the operators takes fewer lines

  /** The columns that operands add behind a line, each after " + ". */
  function Width(ts: seq<string>): nat
  {
    if ts == [] then 0 else 3 + |ts[0]| + Width(ts[1..])
  }

  lemma {:induction false} JoinWidth(ts: seq<string>)
    requires ts != []
    ensures |JoinWith(ts, " + ")| == |ts[0]| + Width(ts[1..])
  {
    if |ts| > 1 {
      JoinWidth(ts[1..]);
    }
  }

  /** Operands `ts` may join a line of `len` columns, with room for a trailing " +" unless it is the last. */
  ghost predicate MayJoin(len: nat, ts: seq<string>, last: bool)
  {
    ts != [] ==> len + Width(ts) + Reserve(!last) <= COL
  }

  /** Every group fits on a line of its own behind `cont`, or is a single operand. */
  ghost predicate Fitting(cont: string, lines: seq<seq<string>>)
  {
    forall i :: 0 <= i < |lines| ==>
      lines[i] != [] && MayJoin(|cont| + |lines[i][0]|, lines[i][1..], i == |lines| - 1)
  }

  lemma FittingRest(cont: string, lines: seq<seq<string>>)
    requires lines != [] && Fitting(cont, lines)
    ensures lines[0] != [] && MayJoin(|cont| + |lines[0][0]|, lines[0][1..], lines[1..] == [])
    ensures Fitting(cont, lines[1..])
  {
    hide MayJoin;
    var rest := lines[1..];
    forall i | 0 <= i < |rest|
      ensures rest[i] != [] && MayJoin(|cont| + |rest[i][0]|, rest[i][1..], i == |rest| - 1)
    {
      assert rest[i] == lines[i + 1];
    }
  }

  /** The first operand of a joining group may join alone. */
  lemma JoinOnce(len: nat, ts: seq<string>, more: bool)
    requires ts != [] && MayJoin(len, ts, !more)
    ensures len + 3 + |ts[0]| + Reserve(|ts| > 1 || more) <= COL
    ensures MayJoin(len + 3 + |ts[0]|, ts[1..], !more)
  {
  }

  /**
   * The loop stays ahead of any other way: as long as it has used no more lines and its line is no longer, or
   * it has used fewer lines (`fewer`). The other way stands on a line of `len` columns, with the operands `r`
   * still to come on that line and the groups `more` on further ones.
   */
  lemma {:induction false} StaysAhead(cur: string, toks: seq<string>, cont: string, len: nat, r: seq<string>,
                                      more: seq<seq<string>>, fewer: bool)
    requires toks == r + Flat(more)
    requires MayJoin(len, r, more == []) && Fitting(cont, more)
    requires if fewer then |cont| <= len else |cur| <= len
    ensures |PlusLines(cur, toks, cont)| <= (if fewer then 2 else 1) + |more|
    decreases |toks|
  {
    hide MayJoin, Fitting;
    if more != [] {
      FittingRest(cont, more);
    }
    if toks != [] {
      var t, rest := toks[0], toks[1..];
      var breaks := |cur| + 3 + |t| + Reserve(|toks| > 1) > COL;
      var line := if breaks then cont + t else cur + " + " + t;
      if r != [] {
        assert rest == r[1..] + Flat(more);
        JoinOnce(len, r, more != []);
        assert |toks| > 1 <==> |r| > 1 || more != [] by { FlatNonEmpty(more, cont); }
        StaysAhead(line, rest, cont, len + 3 + |t|, r[1..], more, fewer && !breaks);
      } else {
        assert toks == Flat(more);
        var g := more[0];
        assert rest == g[1..] + Flat(more[1..]);
        StaysAhead(line, rest, cont, |cont| + |t|, g[1..], more[1..], !breaks);
      }
    }
  }

  lemma FlatNonEmpty(more: seq<seq<string>>, cont: string)
    requires Fitting(cont, more)
    ensures more != [] ==> Flat(more) != []
  {
  }

  lemma LaidOutFits(lines: seq<seq<string>>, cont: string, out: seq<string>, i: nat)
    requires LaysOut("", lines, cont, out) && i < |lines|
    ensures lines[i] != []
    ensures MayJoin((if i == 0 then 0 else |cont|) + |lines[i][0]|, lines[i][1..], i == |lines| - 1)
  {
    hide JoinWith, Width;
    JoinWidth(lines[i]);
  }

  /** No in-order way of setting the operands, with multi-operand lines that fit, takes fewer lines. */
  lemma PlusStageOptimal(cur: string, cont: string, lines: seq<seq<string>>, out: seq<string>)
    requires |cur| > COL && |SplitPlus(cur)| > 1
    requires Flat(lines) == SplitPlus(cur) && LaysOut("", lines, cont, out)
    ensures |PlusStage(cur, cont)| <= |lines|
  {
    hide LaysOut, MayJoin, SplitPlus;
    var toks := SplitPlus(cur);
    LaysOutSome(lines, cont, out);
    LaidOutFits(lines, cont, out, 0);
    var g, more := lines[0], lines[1..];
    forall i | 0 <= i < |more|
      ensures more[i] != [] && MayJoin(|cont| + |more[i][0]|, more[i][1..], i == |more| - 1)
    {
      LaidOutFits(lines, cont, out, i + 1);
      assert more[i] == lines[i + 1];
    }
    assert toks[1..] == g[1..] + Flat(more) && toks[0] == g[0];
    StaysAhead(toks[0], toks[1..], cont, |g[0]|, g[1..], more, false);
  }

  lemma LaysOutSome(lines: seq<seq<string>>, cont: string, out: seq<string>)
    requires LaysOut("", lines, cont, out)
    ensures lines != []
  {
  }

  // ----- _binpack

  function BinPacked(first: string, params: seq<string>, tail: string, cont: string, inl: bool): seq<string>
  {
    var out := Packed(first, params, tail, cont, inl);
    out[..|out| - 1] + PlusStage(out[|out| - 1], cont)
  }

  /** The lines to come when `cur` has been collected and `pieces` are left. */
  ghost function Open(cur: string, cont: string, pieces: seq<string>): seq<string>
  {
    var k := Take(|cur|, pieces);
    var line := if k == 0 then cur else cur + " " + Text(pieces[..k]);
    if k == |pieces| then [line] else [line] + Body(cont, cont, pieces[k..])
  }

  lemma TextCons(p: string, rest: seq<string>)
    ensures Text([p] + rest) == if rest == [] then p else p + " " + Text(rest)
  {
    assert ([p] + rest)[1..] == rest;
  }

  /** Starting a line with its first word is where the greedy split starts. */
  lemma OpenStart(opening: string, cont: string, pieces: seq<string>)
    requires pieces != []
    ensures Open(opening + pieces[0], cont, pieces[1..]) == Body(opening, cont, pieces)
  {
    hide Text, Take;
    var p, rest := pieces[0], pieces[1..];
    var k := Take(|opening + p|, rest);
    assert FirstLine(|opening|, pieces) == k + 1;
    assert pieces[..k + 1] == [p] + rest[..k];
    TextCons(p, rest[..k]);
    assert pieces[k + 1..] == rest[k..];
    var line := pieces[..k + 1];
    assert opening + Text(line) == if k == 0 then opening + p else opening + p + " " + Text(rest[..k]);
    if k == |rest| {
      assert line == pieces;
      assert Render(opening, cont, [pieces]) == [opening + Text(pieces)];
    } else {
      var tail := Greedy(|cont|, |cont|, pieces[k + 1..]);
      assert ([line] + tail)[1..] == tail;
    }
  }

  /** The piece fits and joins the current line. */
  lemma OpenJoins(cur: string, cont: string, pieces: seq<string>)
    requires pieces != [] && |cur| + 1 + |pieces[0]| <= COL
    ensures Open(cur, cont, pieces) == Open(cur + " " + pieces[0], cont, pieces[1..])
  {
    hide Body, Text;
    var p, rest := pieces[0], pieces[1..];
    var k := Take(|cur| + 1 + |p|, rest);
    assert Take(|cur|, pieces) == k + 1;
    assert pieces[..k + 1] == [p] + rest[..k];
    TextCons(p, rest[..k]);
    assert pieces[k + 1..] == rest[k..];
    assert k > 0 ==> cur + " " + Text(pieces[..k + 1]) == cur + " " + p + " " + Text(rest[..k]);
  }

  /** The piece does not fit and starts the next line. */
  lemma OpenBreaks(cur: string, cont: string, pieces: seq<string>)
    requires pieces != [] && |cur| + 1 + |pieces[0]| > COL
    ensures Open(cur, cont, pieces) == [cur] + Open(cont + pieces[0], cont, pieces[1..])
  {
    OpenStart(cont, cont, pieces);
    assert pieces[0..] == pieces;
  }

  lemma NothingToOpen(opening: string, cont: string)
    ensures Body(opening, cont, []) == [opening] && Open(opening, cont, []) == [opening]
  {
  }

  /** The packing loop; the line that is still open comes back apart. */
  method PackLoop(opening: string, cont: string, pieces: seq<string>) returns (out: seq<string>, cur: string)
    ensures out + [cur] == Body(opening, cont, pieces)
  {
    hide Open, Body;
    NothingToOpen(opening, cont);
    out, cur := [], opening;
    var started := false;
    for i := 0 to |pieces|
      invariant started <==> i > 0
      invariant !started ==> cur == opening && out == []
      invariant started ==> out + Open(cur, cont, pieces[i..]) == Body(opening, cont, pieces)
    {
      var pc := pieces[i];
      assert pieces[i..][1..] == pieces[i + 1..];
      if !started {
        OpenStart(opening, cont, pieces[i..]);
        assert pieces[0..] == pieces;
        cur := cur + pc;
        started := true;
      } else if |cur| + 1 + |pc| <= COL {
        OpenJoins(cur, cont, pieces[i..]);
        cur := cur + " " + pc;
      } else {
        OpenBreaks(cur, cont, pieces[i..]);
        out := out + [cur];
        cur := cont + pc;
      }
    }
    NothingToOpen(cur, cont);
  }

  /** The loop that breaks the last line at its operators. */
  method PlusLoop(cur: string, cont: string) returns (out: seq<string>)
    ensures out == PlusStage(cur, cont)
  {
    var toks := SplitPlus(cur);
    if |cur| > COL && |toks| > 1 {
      var rebuilt := toks[0];
      out := [];
      for idx := 1 to |toks|
        invariant out + PlusLines(rebuilt, toks[idx..], cont) == PlusStage(cur, cont)
      {
        var t := toks[idx];
        var reserve := if idx < |toks| - 1 then 2 else 0;
        assert toks[idx..][1..] == toks[idx + 1..];
        if |rebuilt| + 3 + |t| + reserve > COL {
          out := out + [rebuilt + " +"];
          rebuilt := cont + t;
        } else {
          rebuilt := rebuilt + " + " + t;
        }
      }
      out := out + [rebuilt];
    } else {
      out := [cur];
    }
  }

  method BinPackLines(first: string, params: seq<string>, tail: string, cont: string, inl: bool)
    returns (out: seq<string>)
    ensures out == BinPacked(first, params, tail, cont, inl)
  {
    hide Body, PlusStage, Pieces;
    var pieces := Pieces(params, tail);
    var cur: string;
    if inl {
      out, cur := PackLoop(first, cont, pieces);
    } else {
      out, cur := PackLoop(cont, cont, pieces);
      assert [first] + (out + [cur]) == [first] + out + [cur];
      out := [first] + out;
    }
    assert out + [cur] == Packed(first, params, tail, cont, inl);
    assert Packed(first, params, tail, cont, inl)[..|out|] == out;
    var last := PlusLoop(cur, cont);
    out := out + last;
  }

  // ----- What packing keeps and achieves

  /** The packed lines are a split of the pieces in which every line of several pieces fits. */
  lemma PackedIsSplit(first: string, params: seq<string>, tail: string, cont: string, inl: bool)
    returns (lines: seq<seq<string>>)
    requires params != []
    ensures IsSplit(if inl then |first| else |cont|, |cont|, Pieces(params, tail), lines)
    ensures Packed(first, params, tail, cont, inl)
         == if inl then Render(first, cont, lines) else [first] + Render(cont, cont, lines)
  {
    var pre := if inl then |first| else |cont|;
    lines := Greedy(pre, |cont|, Pieces(params, tail));
    GreedyIsSplit(pre, |cont|, Pieces(params, tail));
  }

  /** No other way to break the same pieces into fitting lines needs fewer lines. */
  lemma PackedIsOptimal(first: string, params: seq<string>, tail: string, cont: string, inl: bool,
                        lines: seq<seq<string>>)
    requires params != []
    requires IsSplit(if inl then |first| else |cont|, |cont|, Pieces(params, tail), lines)
    ensures |Packed(first, params, tail, cont, inl)| <= |lines| + (if inl then 0 else 1)
  {
    GreedyIsOptimal(if inl then |first| else |cont|, |cont|, Pieces(params, tail), lines);
  }

  lemma BodyInk(opening: string, cont: string, pieces: seq<string>)
    requires Ink(cont) == ""
    ensures InkAll(Body(opening, cont, pieces)) == Ink(opening) + InkAll(pieces)
  {
    hide Ink;
    if pieces == [] {
      assert InkAll([opening]) == Ink(opening) + InkAll([]);
    } else {
      var lines := Greedy(|opening|, |cont|, pieces);
      GreedyIsSplit(|opening|, |cont|, pieces);
      RenderInk(opening, cont, lines);
    }
  }

  lemma PackedInk(first: string, params: seq<string>, tail: string, cont: string, inl: bool)
    requires Ink(cont) == ""
    ensures InkAll(Packed(first, params, tail, cont, inl))
         == Ink(first) + (if params == [] then "" else Ink(JoinWith(params, ", ") + tail))
  {
    hide Ink, Body;
    var pieces := Pieces(params, tail);
    if params != [] {
      PiecesInk(params, tail);
    }
    BodyInk(if inl then first else cont, cont, pieces);
    assert ([first] + Body(cont, cont, pieces))[1..] == Body(cont, cont, pieces);
  }

  /**
   * Packing changes nothing but white space, except that an empty parameter list loses its tail; so it
   * keeps the text exactly when there is a parameter or the tail is blank.
   */
  lemma BinPackKeepsText(first: string, params: seq<string>, tail: string, cont: string, inl: bool)
    requires Ink(cont) == ""
    ensures InkAll(BinPacked(first, params, tail, cont, inl)) == Ink(first + (JoinWith(params, ", ") + tail))
       <==> params != [] || Ink(tail) == ""
  {
    hide Ink, Packed, PlusStage;
    var out := Packed(first, params, tail, cont, inl);
    var n := |out| - 1;
    PackedInk(first, params, tail, cont, inl);
    assert out == out[..n] + [out[n]];
    InkAllOfConcat(out[..n], [out[n]]);
    InkAllOfConcat(out[..n], PlusStage(out[n], cont));
    PlusStageInk(out[n], cont);
    assert InkAll([out[n]]) == Ink(out[n]) + InkAll([]);
    InkOfConcat(first, JoinWith(params, ", ") + tail);
    assert params == [] ==> JoinWith(params, ", ") + tail == tail;
  }

  // ----- _wrap_signature

  lemma {:induction false} InkOfRStrip(s: string)
    ensures Ink(RStrip(s)) == Ink(s)
    decreases |s|
  {
    if s != "" && IsSpace(s[|s| - 1]) {
      InkOfRStrip(s[..|s| - 1]);
      assert s == s[..|s| - 1] + [s[|s| - 1]];
      InkOfConcat(s[..|s| - 1], [s[|s| - 1]]);
      InkOfBlank([s[|s| - 1]]);
    }
  }

  function WrapSignature(indent: string, head: string, params: seq<string>, tail: string): seq<string>
  {
    var one := indent + head + JoinWith(params, ", ") + tail;
    if |one| <= COL then [one]
    else
      var modeA := BinPacked(indent + head, params, tail, Spaces(|indent + head|), true);
      if AllFit(modeA) then modeA
      else BinPacked(indent + RStrip(head), params, tail, Spaces(|indent| + 4), false)
  }

  method WrapSignatureLines(indent: string, head: string, params: seq<string>, tail: string)
    returns (out: seq<string>)
    ensures out == WrapSignature(indent, head, params, tail)
  {
    var one := indent + head + JoinWith(params, ", ") + tail;
    if |one| <= COL {
      return [one];
    }
    out := BinPackLines(indent + head, params, tail, Spaces(|indent + head|), true);
    if AllFit(out) {
      return;
    }
    out := BinPackLines(indent + RStrip(head), params, tail, Spaces(|indent| + 4), false);
  }

  /** Wrapping a declaration or call changes nothing but its white space, in all three modes. */
  lemma WrapKeepsText(indent: string, head: string, params: seq<string>, tail: string)
    requires params != [] || Ink(tail) == ""
    ensures InkAll(WrapSignature(indent, head, params, tail)) == Ink(indent + head + JoinWith(params, ", ") + tail)
  {
    hide Ink;
    var one := indent + head + JoinWith(params, ", ") + tail;
    var args := JoinWith(params, ", ") + tail;
    assert one == indent + head + args;
    assert InkAll([one]) == Ink(one) + InkAll([]);
    InkOfBlank(Spaces(|indent + head|));
    InkOfBlank(Spaces(|indent| + 4));
    BinPackKeepsText(indent + head, params, tail, Spaces(|indent + head|), true);
    BinPackKeepsText(indent + RStrip(head), params, tail, Spaces(|indent| + 4), false);
    InkOfConcat(indent + head, args);
    InkOfConcat(indent + RStrip(head), args);
    InkOfConcat(indent, head);
    InkOfConcat(indent, RStrip(head));
    InkOfRStrip(head);
  }

  // ----- What may stay over the limit

  /** The line is one of the items, behind one of the two leads, with or without a trailing operator. */
  ghost predicate HoldsOne(line: string, lead: string, cont: string, items: seq<string>)
  {
    exists k :: 0 <= k < |items| && OneOf(line, lead, cont, items[k])
  }

  ghost predicate OneOf(line: string, lead: string, cont: string, item: string)
  {
    line == lead + item || line == cont + item || line == lead + item + " +" || line == cont + item + " +"
  }

  /** A packed line over the limit holds one piece. */
  lemma OverlongPiece(opening: string, cont: string, pieces: seq<string>, i: nat)
    requires pieces != [] && i < |Body(opening, cont, pieces)|
    requires |Body(opening, cont, pieces)[i]| > COL
    ensures HoldsOne(Body(opening, cont, pieces)[i], opening, cont, pieces)
  {
    hide Greedy, Render, IsSplit;
    var lines := Greedy(|opening|, |cont|, pieces);
    GreedyIsSplit(|opening|, |cont|, pieces);
    RenderAt(opening, cont, lines, i);
    SplitLine(|opening|, |cont|, pieces, lines, i);
    var g := lines[i];
    var line := Body(opening, cont, pieces)[i];
    assert g == [g[0]];
    assert Text(g) == g[0];
    InFlat(lines, i);
    var k :| 0 <= k < |pieces| && pieces[k] == g[0];
    assert OneOf(line, opening, cont, pieces[k]);
  }

  lemma SplitLine(pre: nat, cont: nat, ws: seq<string>, lines: seq<seq<string>>, i: nat)
    requires IsSplit(pre, cont, ws, lines) && i < |lines|
    ensures Acceptable(if i == 0 then pre else cont, lines[i]) && Flat(lines) == ws
  {
  }

  lemma {:induction false} InFlat(lines: seq<seq<string>>, i: nat)
    requires i < |lines| && lines[i] != []
    ensures exists k :: 0 <= k < |Flat(lines)| && Flat(lines)[k] == lines[i][0]
  {
    if i == 0 {
      assert Flat(lines)[0] == lines[0][0];
    } else {
      InFlat(lines[1..], i - 1);
      var k :| 0 <= k < |Flat(lines[1..])| && Flat(lines[1..])[k] == lines[1..][i - 1][0];
      assert Flat(lines)[|lines[0]| + k] == lines[i][0];
    }
  }

  /** A line of the operator stage over the limit holds one operand. */
  lemma OverlongOperand(cur: string, cont: string, i: nat)
    requires |cur| > COL && |SplitPlus(cur)| > 1 && i < |PlusStage(cur, cont)| && |PlusStage(cur, cont)[i]| > COL
    ensures HoldsOne(PlusStage(cur, cont)[i], "", cont, SplitPlus(cur))
  {
    hide PlusStage, SplitPlus;
    var lines := PlusStageSplits(cur, cont);
    var line := PlusStage(cur, cont)[i];
    var g := lines[i];
    assert |g| == 1 && g == [g[0]];
    JoinOne(g[0]);
    InFlat(lines, i);
    var k :| 0 <= k < |SplitPlus(cur)| && SplitPlus(cur)[k] == g[0];
    assert line == OperandLine("", lines, cont, i);
    assert OneOf(line, "", cont, SplitPlus(cur)[k]);
  }

  /** A line of `_binpack` over the limit is the opening line of the second form, or holds one piece, or one
      operand of the last packed line. */
  lemma OverlongLine(first: string, params: seq<string>, tail: string, cont: string, inl: bool, i: nat)
    requires params != [] && i < |BinPacked(first, params, tail, cont, inl)|
    requires |BinPacked(first, params, tail, cont, inl)[i]| > COL
    ensures var line := BinPacked(first, params, tail, cont, inl)[i];
            var packed := Packed(first, params, tail, cont, inl);
            || (!inl && i == 0 && line == first)
            || HoldsOne(line, if inl then first else cont, cont, Pieces(params, tail))
            || HoldsOne(line, "", cont, SplitPlus(packed[|packed| - 1]))
  {
    hide Body, Pieces, PlusStage, HoldsOne, SplitPlus;
    var packed := Packed(first, params, tail, cont, inl);
    var pieces := Pieces(params, tail);
    var opening := if inl then first else cont;
    var n := |packed| - 1;
    var line := BinPacked(first, params, tail, cont, inl)[i];
    if i >= n && |packed[n]| > COL && |SplitPlus(packed[n])| > 1 {
      OverlongOperand(packed[n], cont, i - n);
    } else {
      PlainStage(packed[n], cont);
      assert line == packed[i];
      if inl || i > 0 {
        OverlongPiece(opening, cont, pieces, if inl then i else i - 1);
      }
    }
  }

  lemma PlainStage(cur: string, cont: string)
    ensures |cur| <= COL || |SplitPlus(cur)| <= 1 ==> PlusStage(cur, cont) == [cur]
  {
  }

  /** A wrapped signature has a line over the limit only where nothing could be broken: the line of the head,
      one parameter, or one operand. */
  lemma WrapOverlong(indent: string, head: string, params: seq<string>, tail: string, i: nat)
    requires params != [] && i < |WrapSignature(indent, head, params, tail)|
    requires |WrapSignature(indent, head, params, tail)[i]| > COL
    ensures var line := WrapSignature(indent, head, params, tail)[i];
            var cont := Spaces(|indent| + 4);
            var packed := Packed(indent + RStrip(head), params, tail, cont, false);
            || (i == 0 && line == indent + RStrip(head))
            || HoldsOne(line, cont, cont, Pieces(params, tail))
            || HoldsOne(line, "", cont, SplitPlus(packed[|packed| - 1]))
  {
    hide BinPacked, HoldsOne, SplitPlus, Pieces, Packed, RStrip;
    var cont := Spaces(|indent| + 4);
    OverlongLine(indent + RStrip(head), params, tail, cont, false, i);
  }

  /** Without parameters the tail is lost: `f(` and `);` come out as `f(`. */
  lemma EmptyListLosesTail()
    ensures InkAll(BinPacked("f(", [], ");", "  ", true)) != Ink("f(" + (JoinWith([], ", ") + ");"))
  {
    hide BinPacked, JoinWith;
    InkOfBlank("  ");
    assert Ink(");") == [')'] + Ink(");"[1..]);
    BinPackKeepsText("f(", [], ");", "  ", true);
  }
}
