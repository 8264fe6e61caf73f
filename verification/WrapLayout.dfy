// Which layout _wrap_signature of _cpp_fmt.py chooses, said by what fits into 100 columns.

module WrapLayout {
  import opened Sequences
  import opened Whitespace
  import opened GreedyPack
  import opened BinPack

  // ----- The pieces

  /** A piece of a parameter list: a parameter with its comma, or the last one with the tail. */
  function Piece(params: seq<string>, tail: string, k: nat): string
    requires k < |params|
  {
    params[k] + (if k < |params| - 1 then "," else tail)
  }

  lemma {:induction false} PiecesAre(params: seq<string>, tail: string, k: nat)
    requires k < |params|
    ensures Pieces(params, tail)[k] == Piece(params, tail, k)
  {
    if k > 0 {
      PiecesAre(params[1..], tail, k - 1);
      assert params[1..][k - 1] == params[k];
    }
  }

  /** On one line they are the list as it was. */
  lemma {:induction false} PiecesText(params: seq<string>, tail: string)
    requires params != []
    ensures Text(Pieces(params, tail)) == JoinWith(params, ", ") + tail
  {
    if |params| > 1 {
      var rest := Pieces(params[1..], tail);
      PiecesText(params[1..], tail);
      assert Pieces(params, tail)[1..] == rest;
      assert Text(Pieces(params, tail)) == params[0] + "," + " " + Text(rest);
      assert params[0] + "," + " " + (JoinWith(params[1..], ", ") + tail)
          == params[0] + ", " + JoinWith(params[1..], ", ") + tail;
    }
  }

  // ----- Lines of pieces

  /** Every piece fits on a line of its own behind `lead` columns. */
  ghost predicate AllSingle(lead: nat, pieces: seq<string>)
  {
    forall k :: 0 <= k < |pieces| ==> lead + |pieces[k]| <= 100
  }

  /** An in-order split of the pieces, every line of which fits behind `lead` columns. */
  ghost predicate FittingSplit(lead: nat, pieces: seq<string>, lines: seq<seq<string>>)
  {
    && Flat(lines) == pieces
    && forall i :: 0 <= i < |lines| ==> lines[i] != [] && lead + |Text(lines[i])| <= 100
  }

  lemma {:induction false} PieceWithin(line: seq<string>, k: nat)
    requires k < |line|
    ensures |line[k]| <= |Text(line)|
  {
    if |line| > 1 && k > 0 {
      PieceWithin(line[1..], k - 1);
    }
  }

  /** Where an element of the flat list stands. */
  lemma {:induction false} LineOf(lines: seq<seq<string>>, k: nat) returns (i: nat, j: nat)
    requires k < |Flat(lines)|
    ensures i < |lines| && j < |lines[i]| && lines[i][j] == Flat(lines)[k]
    ensures i == |lines| - 1 ==> k + |lines[i]| == |Flat(lines)| + j
  {
    if k < |lines[0]| {
      i, j := 0, k;
      if |lines| == 1 {
        assert Flat(lines) == lines[0] + Flat(lines[1..]) == lines[0];
      }
    } else {
      i, j := LineOf(lines[1..], k - |lines[0]|);
      i := i + 1;
    }
  }

  lemma SplitFitsSingle(lead: nat, pieces: seq<string>, lines: seq<seq<string>>)
    requires FittingSplit(lead, pieces, lines)
    ensures AllSingle(lead, pieces)
  {
    hide Text, Flat;
    forall k | 0 <= k < |pieces| ensures lead + |pieces[k]| <= 100 {
      var i, j := LineOf(lines, k);
      PieceWithin(lines[i], j);
    }
  }

  /** The greedy split fits if its pieces do. */
  lemma GreedyFits(lead: nat, pieces: seq<string>)
    requires pieces != [] && AllSingle(lead, pieces)
    ensures FittingSplit(lead, pieces, Greedy(lead, lead, pieces))
  {
    hide Greedy, Flat;
    var lines := Greedy(lead, lead, pieces);
    GreedyIsSplit(lead, lead, pieces);
    forall i | 0 <= i < |lines| ensures lines[i] != [] && lead + |Text(lines[i])| <= 100 {
      assert Acceptable(lead, lines[i]);
      if |lines[i]| == 1 {
        InFlat(lines, i);
        assert lines[i] == [lines[i][0]];
      }
    }
  }

  lemma FittingIsSplit(lead: nat, pieces: seq<string>, lines: seq<seq<string>>)
    requires pieces != [] && FittingSplit(lead, pieces, lines)
    ensures IsSplit(lead, lead, pieces, lines)
  {
  }

  // ----- Lines of operands

  /** The last line can be broken at its operators so that everything fits. */
  ghost predicate BreaksFit(cur: string, cont: string)
  {
    && |SplitPlus(cur)| > 1
    && exists groups :: FittingGroups(SplitPlus(cur), cont, groups)
  }

  ghost predicate FittingGroups(toks: seq<string>, cont: string, groups: seq<seq<string>>)
  {
    && groups != [] && Flat(groups) == toks
    && forall i :: 0 <= i < |groups| ==> groups[i] != [] && |OperandLine("", groups, cont, i)| <= 100
  }

  /** The groups fit behind `cont`, with room for an operator behind all but the last. */
  ghost predicate GroupsFit(cont: string, groups: seq<seq<string>>)
  {
    forall i :: 0 <= i < |groups| ==> GroupFits(|cont|, groups[i], i < |groups| - 1)
  }

  ghost predicate GroupFits(lead: nat, g: seq<string>, more: bool)
  {
    g != [] && lead + |g[0]| + Width(g[1..]) + Reserve(more) <= 100
  }

  lemma RestFit(cont: string, groups: seq<seq<string>>)
    requires groups != [] && GroupsFit(cont, groups)
    ensures GroupFits(|cont|, groups[0], |groups| > 1) && GroupsFit(cont, groups[1..])
  {
    hide GroupFits;
    assert forall i :: 0 <= i < |groups| - 1 ==> groups[1..][i] == groups[i + 1];
  }

  lemma SomeLeft(cont: string, groups: seq<seq<string>>)
    requires GroupsFit(cont, groups)
    ensures groups != [] <==> Flat(groups) != []
  {
  }

  /**
   * If there is another way whose lines all fit, the loop's lines all fit too. The other way stands on a line of
   * `len` columns, with the operands `r` still to come on it and the groups `more` on further lines.
   */
  lemma {:induction false} LoopFits(cur: string, toks: seq<string>, cont: string, len: nat, r: seq<string>,
                                    more: seq<seq<string>>)
    requires toks == r + Flat(more)
    requires len + Width(r) + Reserve(more != []) <= 100 && GroupsFit(cont, more)
    requires |cur| + Reserve(toks != []) <= 100 && (|cur| <= len || |cont| <= len)
    ensures AllFit(PlusLines(cur, toks, cont))
    decreases |toks|
  {
    hide GroupFits, GroupsFit;
    SomeLeft(cont, more);
    if toks != [] {
      var t, rest := toks[0], toks[1..];
      var breaks := |cur| + 3 + |t| + Reserve(|toks| > 1) > COL;
      var line := if breaks then cont + t else cur + " + " + t;
      if r != [] {
        assert rest == r[1..] + Flat(more);
        assert |toks| > 1 <==> |r| > 1 || more != [];
        LoopFits(line, rest, cont, len + 3 + |t|, r[1..], more);
      } else {
        RestFit(cont, more);
        FirstOfGroup(cont, more);
        var g := more[0];
        SomeLeft(cont, more[1..]);
        assert rest == g[1..] + Flat(more[1..]);
        LoopFits(line, rest, cont, |cont| + |t|, g[1..], more[1..]);
      }
    }
  }

  lemma FirstOfGroup(cont: string, more: seq<seq<string>>)
    requires more != [] && GroupFits(|cont|, more[0], |more| > 1)
    ensures more[0] != [] && Flat(more)[0] == more[0][0]
    ensures |cont| + |more[0][0]| + Width(more[0][1..]) + Reserve(|more| > 1) <= 100
  {
  }

  /** The lines of the operator stage fit if and only if the line did, or some way of breaking it does. */
  lemma PlusStageFits(cur: string, cont: string)
    ensures AllFit(PlusStage(cur, cont)) <==> |cur| <= 100 || BreaksFit(cur, cont)
  {
    hide SplitPlus, PlusLines;
    var toks := SplitPlus(cur);
    if |cur| > 100 && |toks| > 1 {
      if AllFit(PlusStage(cur, cont)) {
        var groups := PlusStageSplits(cur, cont);
        var out := PlusStage(cur, cont);
        forall i | 0 <= i < |groups| ensures groups[i] != [] && |OperandLine("", groups, cont, i)| <= 100 {
          assert |out[i]| <= COL;
        }
        assert FittingGroups(toks, cont, groups);
      }
      if BreaksFit(cur, cont) {
        var groups :| FittingGroups(toks, cont, groups);
        GroupsAreFitting(toks, cont, groups);
        LoopFits(toks[0], toks[1..], cont, |toks[0]|, groups[0][1..], groups[1..]);
      }
    } else {
      assert PlusStage(cur, cont) == [cur] && [cur][0] == cur;
    }
  }

  lemma GroupsAreFitting(toks: seq<string>, cont: string, groups: seq<seq<string>>)
    requires FittingGroups(toks, cont, groups) && |toks| > 1
    ensures groups[0] != [] && toks[0] == groups[0][0] && toks[1..] == groups[0][1..] + Flat(groups[1..])
    ensures |toks[0]| + Width(groups[0][1..]) + Reserve(groups[1..] != []) <= 100
    ensures GroupsFit(cont, groups[1..])
    ensures |toks[0]| + 2 <= 100
  {
    hide OperandLine, Width;
    OperandWidth(groups, cont, 0);
    var more := groups[1..];
    forall i | 0 <= i < |more| ensures GroupFits(|cont|, more[i], i < |more| - 1) {
      OperandWidth(groups, cont, i + 1);
    }
    WidthOfMore(groups[0][1..]);
  }

  lemma WidthOfMore(ts: seq<string>)
    ensures ts != [] ==> Width(ts) >= 3
  {
  }

  lemma OperandWidth(groups: seq<seq<string>>, cont: string, i: nat)
    requires i < |groups| && groups[i] != []
    ensures |OperandLine("", groups, cont, i)|
         == (if i == 0 then 0 else |cont|) + |groups[i][0]| + Width(groups[i][1..]) + Reserve(i < |groups| - 1)
  {
    JoinWidth(groups[i]);
  }

  // ----- The choice

  /** The layout under the parenthesis fits: every piece but the last on a line of its own, and the last too, or
      broken at its operators. */
  ghost predicate AlignedFits(open: string, params: seq<string>, tail: string)
    requires params != []
  {
    var col, n := |open|, |params| - 1;
    && (forall k :: 0 <= k < n ==> col + |Piece(params, tail, k)| <= 100)
    && (|| col + |Piece(params, tail, n)| <= 100
        || BreaksFit((if n == 0 then open else Spaces(col)) + Piece(params, tail, n), Spaces(col)))
  }

  lemma LastIsLast(lead: nat, pieces: seq<string>, lines: seq<seq<string>>)
    requires pieces != [] && IsSplit(lead, lead, pieces, lines)
    ensures var last := lines[|lines| - 1];
            && last != [] && last[|last| - 1] == pieces[|pieces| - 1]
            && (lead + |Text(last)| > 100 ==> last == [pieces[|pieces| - 1]])
            && (last == [pieces[|pieces| - 1]] && |lines| == 1 ==> |pieces| == 1)
            && (|pieces| == 1 ==> |lines| == 1)
  {
    hide Text;
    var m := |lines| - 1;
    assert Acceptable(lead, lines[m]);
    LastOfFlat(lines);
    assert |lines| == 1 ==> Flat(lines) == lines[0] + [] == lines[0];
    if |lines| > 1 {
      assert Acceptable(lead, lines[0]) && Acceptable(lead, lines[1]);
      assert Flat(lines) == lines[0] + (lines[1] + Flat(lines[1..][1..])) by {
        assert lines[1..][0] == lines[1];
      }
    }
  }

  lemma {:induction false} LastOfFlat(lines: seq<seq<string>>)
    requires lines != [] && lines[|lines| - 1] != []
    ensures var last := lines[|lines| - 1];
            Flat(lines) != [] && Flat(lines)[|Flat(lines)| - 1] == last[|last| - 1]
  {
    if |lines| > 1 {
      LastOfFlat(lines[1..]);
    } else {
      assert Flat(lines) == lines[0] + [];
    }
  }

  /** All packed lines but the last fit, and the last fits or is broken into lines that do, exactly if the pieces
      do so one by one. */
  lemma AlignedExactly(open: string, params: seq<string>, tail: string)
    requires params != []
    ensures AllFit(BinPacked(open, params, tail, Spaces(|open|), true)) <==> AlignedFits(open, params, tail)
  {
    hide Pieces, Greedy, PlusStage, BreaksFit, Render, Text, IsSplit, AllFit;
    var col, cont, n := |open|, Spaces(|open|), |params| - 1;
    var pieces := Pieces(params, tail);
    var lines := Greedy(col, col, pieces);
    var m := |lines| - 1;
    GreedyIsSplit(col, col, pieces);
    LastIsLast(col, pieces, lines);
    PiecesAre(params, tail, n);
    var packed := Render(open, cont, lines);
    var last := packed[m];
    RenderAt(open, cont, lines, m);
    TextOfOne(pieces[n]);
    PlusStageFits(last, cont);
    AllFitConcat(packed[..m], PlusStage(last, cont));
    assert BinPacked(open, params, tail, cont, true) == packed[..m] + PlusStage(last, cont);
    if AllFit(packed[..m]) && AllFit(PlusStage(last, cont)) {
      FittingPieces(open, cont, pieces, lines);
      forall k | 0 <= k < n ensures col + |Piece(params, tail, k)| <= 100 {
        PiecesAre(params, tail, k);
      }
      LastWithin(lines[m]);
    }
    if AlignedFits(open, params, tail) {
      forall k | 0 <= k < n ensures col + |pieces[k]| <= 100 {
        PiecesAre(params, tail, k);
      }
      FrontFits(open, cont, pieces, lines);
      if |last| > 100 {
        assert lines[m] == [pieces[n]];
      }
    }
  }

  lemma TextOfOne(p: string)
    ensures Text([p]) == p
  {
  }

  lemma LastWithin(line: seq<string>)
    requires line != []
    ensures |line[|line| - 1]| <= |Text(line)|
  {
    PieceWithin(line, |line| - 1);
  }

  lemma AllFitConcat(a: seq<string>, b: seq<string>)
    ensures AllFit(a + b) <==> AllFit(a) && AllFit(b)
  {
    assert forall k :: 0 <= k < |a| ==> (a + b)[k] == a[k];
    assert forall k :: 0 <= k < |b| ==> (a + b)[|a| + k] == b[k];
  }

  /** If all lines but the last fit, all pieces but the last do. */
  lemma FittingPieces(open: string, cont: string, pieces: seq<string>, lines: seq<seq<string>>)
    requires pieces != [] && |open| == |cont| && IsSplit(|open|, |open|, pieces, lines)
    requires AllFit(Render(open, cont, lines)[..|lines| - 1])
    ensures forall k :: 0 <= k < |pieces| - 1 ==> |open| + |pieces[k]| <= 100
  {
    hide Render, Text;
    LastIsLast(|open|, pieces, lines);
    forall k | 0 <= k < |pieces| - 1 ensures |open| + |pieces[k]| <= 100 {
      var i, j := LineOf(lines, k);
      RenderAt(open, cont, lines, i);
      PieceWithin(lines[i], j);
      if i < |lines| - 1 {
        assert |Render(open, cont, lines)[..|lines| - 1][i]| <= COL;
      } else {
        assert |lines[i]| == |pieces| + j - k > 1;
      }
    }
  }

  /** If all pieces but the last fit, all lines but the last do. */
  lemma FrontFits(open: string, cont: string, pieces: seq<string>, lines: seq<seq<string>>)
    requires pieces != [] && |open| == |cont| && IsSplit(|open|, |open|, pieces, lines)
    requires forall k :: 0 <= k < |pieces| - 1 ==> |open| + |pieces[k]| <= 100
    ensures AllFit(Render(open, cont, lines)[..|lines| - 1])
  {
    hide Render, Text, Flat, Acceptable;
    var front := Render(open, cont, lines)[..|lines| - 1];
    forall i | 0 <= i < |front| ensures |front[i]| <= COL {
      RenderAt(open, cont, lines, i);
      EarlierLineFits(|open|, pieces, lines, i);
    }
  }

  lemma EarlierLineFits(lead: nat, pieces: seq<string>, lines: seq<seq<string>>, i: nat)
    requires pieces != [] && IsSplit(lead, lead, pieces, lines) && i < |lines| - 1
    requires forall k :: 0 <= k < |pieces| - 1 ==> lead + |pieces[k]| <= 100
    ensures lead + |Text(lines[i])| <= 100
  {
    hide Text, Flat;
    assert Acceptable(lead, lines[i]) && Acceptable(lead, lines[|lines| - 1]);
    if |lines[i]| == 1 {
      TextOfOne(lines[i][0]);
      assert lines[i] == [lines[i][0]];
      NotLastInFlat(lines, i);
    }
  }

  /** What stands on an earlier line is not the last piece. */
  lemma {:induction false} NotLastInFlat(lines: seq<seq<string>>, i: nat)
    requires i < |lines| - 1 && lines[i] != [] && lines[|lines| - 1] != []
    ensures exists k :: 0 <= k < |Flat(lines)| - 1 && Flat(lines)[k] == lines[i][0]
  {
    if i == 0 {
      LastOfFlat(lines[1..]);
      assert Flat(lines)[0] == lines[0][0];
    } else {
      NotLastInFlat(lines[1..], i - 1);
      var k :| 0 <= k < |Flat(lines[1..])| - 1 && Flat(lines[1..])[k] == lines[1..][i - 1][0];
      assert Flat(lines)[|lines[0]| + k] == lines[i][0];
    }
  }

  /** The lines of a split, as they are set: the first behind `open`, the others behind blanks. */
  ghost predicate SetAs(out: seq<string>, open: string, cont: string, lines: seq<seq<string>>)
  {
    && |out| == |lines|
    && forall i :: 0 <= i < |out| ==> out[i] == (if i == 0 then open else cont) + Text(lines[i])
  }

  lemma RenderSets(open: string, cont: string, lines: seq<seq<string>>)
    ensures SetAs(Render(open, cont, lines), open, cont, lines)
  {
    hide Text;
    forall i | 0 <= i < |lines| ensures Render(open, cont, lines)[i] == (if i == 0 then open else cont) + Text(lines[i])
    {
      RenderAt(open, cont, lines, i);
    }
  }

  /** A signature of at most 100 columns stays on one line. */
  lemma OneLine(indent: string, head: string, params: seq<string>, tail: string)
    ensures var one := indent + head + JoinWith(params, ", ") + tail;
            |one| <= 100 ==> WrapSignature(indent, head, params, tail) == [one]
  {
  }

  /** A longer one, if some split of its pieces fits under the parenthesis: it is set so, in no more lines than
      any such split has. */
  lemma UnderTheParenthesis(indent: string, head: string, params: seq<string>, tail: string,
                            other: seq<seq<string>>)
    returns (lines: seq<seq<string>>)
    requires params != [] && |indent + head + JoinWith(params, ", ") + tail| > 100
    requires FittingSplit(|indent + head|, Pieces(params, tail), other)
    ensures FittingSplit(|indent + head|, Pieces(params, tail), lines) && |lines| <= |other|
    ensures SetAs(WrapSignature(indent, head, params, tail), indent + head, Spaces(|indent + head|), lines)
    ensures AllFit(WrapSignature(indent, head, params, tail))
  {
    hide Pieces, Render, PlusStage, AllFit, Text, FittingSplit, Greedy, BreaksFit, IsSplit, RStrip;
    var open, pieces := indent + head, Pieces(params, tail);
    var col, cont := |open|, Spaces(|open|);
    SplitFitsSingle(col, pieces, other);
    GreedyFits(col, pieces);
    FittingIsSplit(col, pieces, other);
    GreedyIsOptimal(col, col, pieces, other);
    lines := Greedy(col, col, pieces);
    RenderSets(open, cont, lines);
    var packed := Render(open, cont, lines);
    var m := |lines| - 1;
    LastLineFits(col, pieces, lines, open, cont);
    PlainStage(packed[m], cont);
    assert packed[..m] + [packed[m]] == packed;
    assert BinPacked(open, params, tail, cont, true) == packed;
    SinglesAreAligned(open, params, tail);
    AlignedExactly(open, params, tail);
  }

  lemma LastLineFits(col: nat, pieces: seq<string>, lines: seq<seq<string>>, open: string, cont: string)
    requires FittingSplit(col, pieces, lines) && lines != [] && |open| == |cont| == col
    ensures |Render(open, cont, lines)[|lines| - 1]| <= COL
  {
    hide Text, Render;
    RenderAt(open, cont, lines, |lines| - 1);
  }

  lemma SinglesAreAligned(open: string, params: seq<string>, tail: string)
    requires params != [] && AllSingle(|open|, Pieces(params, tail))
    ensures AlignedFits(open, params, tail)
  {
    hide BreaksFit, Pieces;
    forall k | 0 <= k < |params| ensures |open| + |Piece(params, tail, k)| <= 100 {
      PiecesAre(params, tail, k);
    }
  }

  /** Otherwise, if the last piece fits there only when it is broken at its operators: so, too. The pieces before
      it are set as above, and the operands of its line follow in groups. */
  lemma BrokenUnderTheParenthesis(indent: string, head: string, params: seq<string>, tail: string)
    returns (lines: seq<seq<string>>, groups: seq<seq<string>>)
    requires params != [] && |indent + head + JoinWith(params, ", ") + tail| > 100
    requires var open := indent + head;
             AlignedFits(open, params, tail) && |open| + |Piece(params, tail, |params| - 1)| > 100
    ensures var open := indent + head;
            var cont, n := Spaces(|open|), |params| - 1;
            var out := WrapSignature(indent, head, params, tail);
            var last := (if n == 0 then open else cont) + Piece(params, tail, n);
            && AllFit(out) && |out| == |lines| + |groups|
            && FittingSplit(|open|, Pieces(params, tail)[..n], lines) && SetAs(out[..|lines|], open, cont, lines)
            && FittingGroups(SplitPlus(last), cont, groups)
            && forall i :: 0 <= i < |groups| ==> out[|lines| + i] == OperandLine("", groups, cont, i)
  {
    hide Pieces, Render, PlusStage, AllFit, Text, Greedy, BreaksFit, IsSplit, RStrip, SplitPlus, OperandLine, Flat,
         FittingGroups, SetAs, AlignedFits;
    var open, pieces := indent + head, Pieces(params, tail);
    var col, cont, n := |open|, Spaces(|open|), |params| - 1;
    AlignedExactly(open, params, tail);
    var all := Greedy(col, col, pieces);
    GreedyIsSplit(col, col, pieces);
    LastIsLast(col, pieces, all);
    PiecesAre(params, tail, n);
    LastWithin(all[|all| - 1]);
    TextOfOne(pieces[n]);
    var m := |all| - 1;
    var packed := Render(open, cont, all);
    RenderAt(open, cont, all, m);
    lines := all[..m];
    var last := packed[m];
    var rows := PlusStage(last, cont);
    assert BinPacked(open, params, tail, cont, true) == packed[..m] + rows;
    AllFitConcat(packed[..m], rows);
    groups := BrokenGroups(last, cont);
    FrontSplit(open, cont, pieces, all);
    FrontSet(open, cont, all);
  }

  /** Of a line that is too long but breaks into lines that fit: its groups. */
  lemma BrokenGroups(last: string, cont: string) returns (groups: seq<seq<string>>)
    requires |last| > 100 && AllFit(PlusStage(last, cont))
    ensures FittingGroups(SplitPlus(last), cont, groups) && |PlusStage(last, cont)| == |groups|
    ensures forall i :: 0 <= i < |groups| ==> PlusStage(last, cont)[i] == OperandLine("", groups, cont, i)
  {
    hide SplitPlus, PlusLines;
    PlusStageFits(last, cont);
    groups := PlusStageSplits(last, cont);
    var out := PlusStage(last, cont);
    forall i | 0 <= i < |groups| ensures groups[i] != [] && |OperandLine("", groups, cont, i)| <= 100 {
      assert |out[i]| <= COL;
    }
  }

  lemma {:induction false} FlatFront(lines: seq<seq<string>>)
    requires lines != []
    ensures Flat(lines) == Flat(lines[..|lines| - 1]) + lines[|lines| - 1]
  {
    var m := |lines| - 1;
    if m == 0 {
      assert Flat(lines) == lines[0] + [] == [] + lines[0];
    } else {
      FlatFront(lines[1..]);
      assert lines[..m][1..] == lines[1..][..m - 1];
      assert Flat(lines[..m]) == lines[0] + Flat(lines[1..][..m - 1]);
    }
  }

  /** Without its last line, a split whose last piece stands alone splits the pieces before it. */
  lemma FrontSplit(open: string, cont: string, pieces: seq<string>, all: seq<seq<string>>)
    requires |open| == |cont| && pieces != [] && IsSplit(|open|, |open|, pieces, all)
    requires all[|all| - 1] == [pieces[|pieces| - 1]]
    requires AllFit(Render(open, cont, all)[..|all| - 1])
    ensures FittingSplit(|open|, pieces[..|pieces| - 1], all[..|all| - 1])
  {
    hide Text, Render;
    var m := |all| - 1;
    FlatFront(all);
    assert pieces == Flat(all[..m]) + [pieces[|pieces| - 1]];
    forall i | 0 <= i < m ensures all[i] != [] && |open| + |Text(all[i])| <= 100 {
      assert Acceptable(|open|, all[i]);
      RenderAt(open, cont, all, i);
      assert |Render(open, cont, all)[..m][i]| <= COL;
    }
  }

  lemma FrontSet(open: string, cont: string, all: seq<seq<string>>)
    requires all != []
    ensures SetAs(Render(open, cont, all)[..|all| - 1], open, cont, all[..|all| - 1])
  {
    hide Text, Render;
    RenderSets(open, cont, all);
  }

  lemma GreedyIsBest(lead: nat, pieces: seq<string>)
    requires pieces != []
    ensures var lines := Greedy(lead, lead, pieces);
            IsSplit(lead, lead, pieces, lines)
            && forall other :: IsSplit(lead, lead, pieces, other) ==> |lines| <= |other|
  {
    hide Greedy, IsSplit;
    GreedyIsSplit(lead, lead, pieces);
    forall other | IsSplit(lead, lead, pieces, other) ensures |Greedy(lead, lead, pieces)| <= |other| {
      GreedyIsOptimal(lead, lead, pieces, other);
    }
  }

  /** In all other cases the head stands alone, and the pieces follow behind four more blanks than the indent, in
      as few lines as any split whose lines of several pieces fit; the last of them is broken at its operators
      where that helps. */
  lemma OnTheContinuation(indent: string, head: string, params: seq<string>, tail: string)
    returns (lines: seq<seq<string>>, packed: seq<string>)
    requires params != [] && |indent + head + JoinWith(params, ", ") + tail| > 100
    requires !AlignedFits(indent + head, params, tail)
    ensures var cont := Spaces(|indent| + 4);
            && IsSplit(|cont|, |cont|, Pieces(params, tail), lines) && SetAs(packed, cont, cont, lines)
            && (forall other :: IsSplit(|cont|, |cont|, Pieces(params, tail), other) ==> |lines| <= |other|)
            && WrapSignature(indent, head, params, tail)
               == [indent + RStrip(head)] + packed[..|lines| - 1] + PlusStage(packed[|lines| - 1], cont)
  {
    hide Pieces, Render, PlusStage, AllFit, Text, Greedy, BreaksFit, IsSplit, RStrip, AlignedFits, SetAs;
    AlignedExactly(indent + head, params, tail);
    var cont, pieces := Spaces(|indent| + 4), Pieces(params, tail);
    lines := Greedy(|cont|, |cont|, pieces);
    packed := Render(cont, cont, lines);
    RenderSets(cont, cont, lines);
    GreedyIsBest(|cont|, pieces);
    ContinuationLines(indent + RStrip(head), params, tail, cont);
  }

  lemma ContinuationLines(first: string, params: seq<string>, tail: string, cont: string)
    requires params != []
    ensures var packed := Render(cont, cont, Greedy(|cont|, |cont|, Pieces(params, tail)));
            && packed != []
            && BinPacked(first, params, tail, cont, false)
               == [first] + packed[..|packed| - 1] + PlusStage(packed[|packed| - 1], cont)
  {
    hide Pieces, Render, PlusStage, Greedy;
    var packed := Render(cont, cont, Greedy(|cont|, |cont|, Pieces(params, tail)));
    var all := [first] + packed;
    assert all[..|all| - 1] == [first] + packed[..|packed| - 1];
  }

  /** Without parameters: the head alone, or the head and a line of blanks. */
  lemma WithoutParameters(indent: string, head: string, tail: string)
    requires |indent + head + tail| > 100
    ensures var open := indent + head;
            WrapSignature(indent, head, [], tail) ==
              if |open| <= 100 then [open]
              else if BreaksFit(open, Spaces(|open|)) then PlusStage(open, Spaces(|open|))
              else [indent + RStrip(head)] + PlusStage(Spaces(|indent| + 4), Spaces(|indent| + 4))
  {
    hide PlusStage, BreaksFit, RStrip, AllFit;
    var open := indent + head;
    assert open + "" == open;
    PlusStageFits(open, Spaces(|open|));
    PlainStage(open, Spaces(|open|));
    assert BinPacked(open, [], tail, Spaces(|open|), true) == PlusStage(open, Spaces(|open|)) by {
      assert [open][..0] + PlusStage(open, Spaces(|open|)) == PlusStage(open, Spaces(|open|));
    }
    var first, cont := indent + RStrip(head), Spaces(|indent| + 4);
    assert ([first] + [cont])[..1] == [first];
    assert BinPacked(first, [], tail, cont, false) == [first] + PlusStage(cont, cont);
    assert indent + head + JoinWith([], ", ") + tail == indent + head + tail;
  }

  /** For instance, three parameters of 36 columns go under the parenthesis, two on the first line. */
  lemma ThreeParameters(a: string, b: string, c: string)
    requires |a| == 36 && |b| == 36 && |c| == 36
    ensures WrapSignature("  ", "json create(", [a, b, c], ") const {")
         == ["  json create(" + (a + "," + " " + (b + ",")), Spaces(14) + (c + ") const {")]
  {
    hide Pieces, PlusStage;
    var open, params, tail := "  json create(", [a, b, c], ") const {";
    assert "  " + "json create(" == open && |open| == 14 && |tail| == 9;
    ThreePieces(a, b, c, tail);
    var x, y, z := a + ",", b + ",", c + tail;
    TwoThenOne(x, y, z);
    assert Render(open, Spaces(14), [[x, y], [z]]) == [open + Text([x, y]), Spaces(14) + Text([z])] by {
      assert [[x, y], [z]][1..] == [[z]] && [[z]][1..] == [];
    }
    TextOfOne(z);
    assert [x, y][1..] == [y];
    TextOfOne(y);
    assert Text([x, y]) == x + " " + y;
    var packed := [open + (x + " " + y), Spaces(14) + z];
    PlainStage(packed[1], Spaces(14));
    assert BinPacked(open, params, tail, Spaces(14), true) == packed[..1] + [packed[1]] == packed;
    assert params[1..] == [b, c] && [b, c][1..] == [c];
    assert |"  " + "json create(" + JoinWith(params, ", ") + tail| > 100 by {
      PiecesText(params, tail);
      ThreeWide(x, y, z);
    }
  }

  lemma ThreePieces(a: string, b: string, c: string, tail: string)
    ensures Pieces([a, b, c], tail) == [a + ",", b + ",", c + tail]
  {
    var params := [a, b, c];
    assert params[1..] == [b, c] && [b, c][1..] == [c];
    assert Pieces([c], tail) == [c + tail];
    assert Pieces([b, c], tail) == [b + ","] + [c + tail];
  }

  lemma ThreeWide(x: string, y: string, z: string)
    ensures |Text([x, y, z])| == |x| + |y| + |z| + 2
  {
    assert [x, y, z][1..] == [y, z] && [y, z][1..] == [z];
    TextOfOne(z);
    assert Text([y, z]) == y + " " + Text([z]);
    assert Text([x, y, z]) == x + " " + Text([y, z]);
  }

  lemma TwoThenOne(x: string, y: string, z: string)
    requires |x| == |y| == 37 && |z| == 45
    ensures Greedy(14, 14, [x, y, z]) == [[x, y], [z]]
  {
    var ws := [x, y, z];
    assert ws[1..] == [y, z] && [y, z][1..] == [z];
    assert Take(14 + 37 + 38, [z]) == 0;
    assert FirstLine(14, ws) == 2 && ws[..2] == [x, y] && ws[2..] == [z];
    assert FirstLine(14, [z]) == 1;
  }
}
