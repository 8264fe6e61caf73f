// _align_trailing_comments of _cpp_fmt.py, and the two comment passes one after the other.

module AlignComments {
  import opened Whitespace
  import opened ReflowComments

  // ----- Code and trailing comment of one line

  /** The end of the code when a comment starts at `q`: the spaces before `q` are left out. */
  function CodeEnd(l: string, q: nat): (e: nat)
    requires q <= |l|
    ensures e <= q
    ensures forall k :: e <= k < q ==> l[k] == ' '
    ensures e > 0 ==> l[e - 1] != ' '
  {
    if q > 0 && l[q - 1] == ' ' then CodeEnd(l, q - 1) else q
  }

  /** A trailing comment can start at `q`: two slashes, two or more spaces before, code before that. */
  predicate TrailAt(l: string, q: nat)
  {
    && q + 2 <= |l| && l[q] == '/' && l[q + 1] == '/'
    && var e := CodeEnd(l, q);
       e + 2 <= q && e > 0 && !IsSpace(l[e - 1])
  }

  /** The last such place below `q`, or -1: the regular expression is greedy. */
  function LastTrail(l: string, q: nat): (r: int)
    ensures -1 <= r < q
    ensures r >= 0 ==> TrailAt(l, r)
    ensures forall k :: 0 <= k < q && r < k ==> !TrailAt(l, k)
  {
    if q == 0 then -1
    else if TrailAt(l, q - 1) then q - 1
    else LastTrail(l, q - 1)
  }

  /** ln.lstrip().startswith("//") */
  predicate StartsComment(l: string)
  {
    var n := Leading(l);
    n + 2 <= |l| && l[n] == '/' && l[n + 1] == '/'
  }

  datatype Row = Row(code: string, comment: string)

  function SplitRow(l: string): Row
  {
    var q := LastTrail(l, |l|);
    if q >= 0 && !StartsComment(l) then Row(l[..CodeEnd(l, q)], l[q..]) else Row(l, "")
  }

  // ----- One run

  predicate Blank(l: string)
  {
    Leading(l) == |l|
  }

  /** Two past the widest code among the rows that have a comment. */
  function Column(run: seq<string>): nat
    decreases |run|
  {
    if run == [] then 0
    else
      var r, c := SplitRow(run[0]), Column(run[1..]);
      if r.comment != "" && |r.code| + 2 > c then |r.code| + 2 else c
  }

  function PadRow(r: Row, col: nat): string
  {
    if r.comment == "" then r.code
    else r.code + Spaces(if col > |r.code| then col - |r.code| else 0) + r.comment
  }

  function Flush(run: seq<string>, col: nat): (out: seq<string>)
    ensures |out| == |run|
    ensures forall k :: 0 <= k < |run| ==> out[k] == PadRow(SplitRow(run[k]), col)
  {
    seq(|run|, k requires 0 <= k < |run| => PadRow(SplitRow(run[k]), col))
  }

  function RunEnd(lines: seq<string>): (n: nat)
    ensures n <= |lines|
    ensures forall k :: 0 <= k < n ==> !Blank(lines[k])
    ensures n < |lines| ==> Blank(lines[n])
    decreases |lines|
  {
    if lines == [] || Blank(lines[0]) then 0 else 1 + RunEnd(lines[1..])
  }

  function Align(lines: seq<string>): (out: seq<string>)
    ensures |out| == |lines|
    decreases |lines|
  {
    if lines == [] then []
    else if Blank(lines[0]) then [lines[0]] + Align(lines[1..])
    else
      var n := RunEnd(lines);
      Flush(lines[..n], Column(lines[..n])) + Align(lines[n..])
  }

  // ----- A padded row splits the way it did before

  lemma ColumnCovers(run: seq<string>, k: nat)
    requires k < |run|
    ensures SplitRow(run[k]).comment != "" ==> |SplitRow(run[k]).code| + 2 <= Column(run)
    decreases |run|
  {
    hide SplitRow;
    if k > 0 {
      ColumnCovers(run[1..], k - 1);
    }
  }

  lemma {:induction false} CodeEndIs(l: string, q: nat, e: nat)
    requires e <= q <= |l|
    requires forall k :: e <= k < q ==> l[k] == ' '
    requires e > 0 ==> l[e - 1] != ' '
    ensures CodeEnd(l, q) == e
  {
    if e < q {
      CodeEndIs(l, q - 1, e);
    }
  }

  /** A trailing comment found at `q` of `code + blanks + comment`, inside the comment, was there before. */
  lemma TrailInside(l: string, q: nat, l': string, q': nat, k: nat)
    requires q <= |l| && q' <= |l'| && l[q..] == l'[q'..] && q < |l| && l[q] != ' '
    requires q' < k && TrailAt(l', k)
    ensures TrailAt(l, k - q' + q)
  {
    var d := CodeEnd(l', k);
    assert l'[q'] == l'[q'..][0] == l[q..][0] == l[q];
    assert d > q' by {
      assert l'[q'] != ' ';
    }
    var m := k - q' + q;
    forall i | d - 1 <= i < |l'| ensures l'[i] == l[i - q' + q] {
      assert l'[i] == l'[q'..][i - q'] == l[q..][i - q'];
    }
    CodeEndIs(l, m, d - q' + q);
  }

  /** Text that a trailing comment can be cut off: code that ends in ink, two or more blanks, two slashes. */
  ghost predicate HasTrail(l: string, code: string, blanks: nat, comment: string)
  {
    && l == code + Spaces(blanks) + comment
    && code != "" && !IsSpace(code[|code| - 1]) && blanks >= 2
    && |comment| >= 2 && comment[0] == '/' && comment[1] == '/'
  }

  /** A line is cut if and only if it can be and is no comment as a whole; and then at the last place where it
      can be. */
  lemma SplitRowExact(l: string)
    ensures SplitRow(l).comment != "" <==>
              !StartsComment(l) && exists code, blanks, comment :: HasTrail(l, code, blanks, comment)
    ensures SplitRow(l).comment == "" ==> SplitRow(l).code == l
    ensures SplitRow(l).comment != "" ==>
              var r := SplitRow(l);
              && (exists blanks :: HasTrail(l, r.code, blanks, r.comment))
              && forall code, blanks, comment :: HasTrail(l, code, blanks, comment) ==> |r.comment| <= |comment|
  {
    hide IsSpace, StartsComment;
    var q := LastTrail(l, |l|);
    if q >= 0 {
      var e := CodeEnd(l, q);
      assert Spaces(q - e) == l[e..q];
      assert l == l[..e] + l[e..q] + l[q..];
      assert HasTrail(l, l[..e], q - e, l[q..]);
    }
    forall code, blanks, comment | HasTrail(l, code, blanks, comment)
      ensures q >= 0 && |l| - q <= |comment|
    {
      TrailIsTrail(l, code, blanks, comment);
    }
  }

  lemma TrailIsTrail(l: string, code: string, blanks: nat, comment: string)
    requires HasTrail(l, code, blanks, comment)
    ensures TrailAt(l, |code| + blanks)
  {
    hide IsSpace;
    var q := |code| + blanks;
    assert l[q] == comment[0] && l[q + 1] == comment[1];
    assert l[|code| - 1] == code[|code| - 1];
    assert IsSpace(' ') by { SpaceIsSpace(); }
    CodeEndIs(l, q, |code|);
  }

  /** For instance: two blanks before the slashes are enough, one is not. */
  lemma TwoBlanksCut()
    ensures SplitRow("x;  // a") == Row("x;", "// a") && SplitRow("x; // a") == Row("x; // a", "")
  {
    hide SplitRow, HasTrail, StartsComment;
    InkFirst("x;  // a");
    InkFirst("x; // a");
    SplitRowExact("x;  // a");
    SplitRowExact("x; // a");
    TwoBlanksThere();
    var r := SplitRow("x;  // a");
    var blanks :| HasTrail("x;  // a", r.code, blanks, r.comment);
    TwoBlanks(r.code, blanks, r.comment);
    OneBlank();
  }

  lemma TwoBlanksThere()
    ensures HasTrail("x;  // a", "x;", 2, "// a")
  {
    assert "x;" + Spaces(2) + "// a" == "x;  // a";
  }

  lemma InkFirst(l: string)
    requires l == "x;  // a" || l == "x; // a"
    ensures !StartsComment(l)
  {
    assert l[0] == 'x' && !IsSpace('x');
    assert Leading(l) == 0;
  }

  lemma TrailParts(l: string, code: string, blanks: nat, comment: string)
    requires HasTrail(l, code, blanks, comment)
    ensures var q := |code| + blanks;
            && q + 2 <= |l| && l[q] == '/' && l[q + 1] == '/' && l[q - 1] == ' ' && l[q - 2] == ' '
            && !IsSpace(l[|code| - 1]) && code == l[..|code|] && comment == l[q..]
            && forall k :: |code| <= k < q ==> l[k] == ' '
  {
    hide IsSpace;
    var q := |code| + blanks;
    assert l[q] == comment[0] && l[q + 1] == comment[1];
    assert forall k :: |code| <= k < q ==> l[k] == Spaces(blanks)[k - |code|];
    assert l[|code| - 1] == code[|code| - 1];
  }

  lemma TwoBlanks(code: string, blanks: nat, comment: string)
    requires HasTrail("x;  // a", code, blanks, comment)
    ensures code == "x;" && comment == "// a"
  {
    hide HasTrail;
    var l := "x;  // a";
    TrailParts(l, code, blanks, comment);
    assert |code| + blanks == 4;
    assert l[1] == ';' && |code| == 2;
    assert l[..2] == "x;" && l[4..] == "// a";
  }

  lemma OneBlank()
    ensures forall code, blanks, comment :: !HasTrail("x; // a", code, blanks, comment)
  {
    hide HasTrail;
    forall code, blanks, comment ensures !HasTrail("x; // a", code, blanks, comment) {
      if HasTrail("x; // a", code, blanks, comment) {
        TrailParts("x; // a", code, blanks, comment);
        assert false;
      }
    }
  }

  lemma PaddedSplits(l: string, n: nat)
    requires SplitRow(l).comment != "" && n >= 2
    ensures var r := SplitRow(l);
            SplitRow(r.code + Spaces(n) + r.comment) == r && !StartsComment(r.code + Spaces(n) + r.comment)
  {
    hide IsSpace;
    var r := SplitRow(l);
    var q := LastTrail(l, |l|);
    var e := CodeEnd(l, q);
    var l' := r.code + Spaces(n) + r.comment;
    var q' := e + n;
    assert l'[q'..] == l[q..];
    assert l'[q'] == l[q..][0] && l'[q' + 1] == l[q..][1];
    assert l'[e - 1] == l[e - 1];
    assert IsSpace(' ') by { SpaceIsSpace(); }
    CodeEndIs(l', q', e);
    assert TrailAt(l', q');
    NotACommentLine(l, e, l');
    var p := LastTrail(l', |l'|);
    if p > q' {
      TrailInside(l, q, l', q', p);
      assert false;
    }
    assert p == q';
    assert l'[..e] == r.code;
  }

  lemma SpaceIsSpace()
    ensures IsSpace(' ') && !IsSpace('/')
  {
  }

  /** Two lines that share their code, followed by a space, both fail to be comment lines. */
  lemma NotACommentLine(l: string, e: nat, l': string)
    requires 0 < e < |l| && e < |l'| && l[..e] == l'[..e]
    requires !IsSpace(l[e - 1]) && l'[e] == ' '
    requires !StartsComment(l)
    ensures !StartsComment(l')
  {
    hide IsSpace;
    var n := Leading(l);
    LeadingBefore(l, e);
    assert l'[n] == l'[..e][n] == l[n];
    forall k | 0 <= k < n ensures IsSpace(l'[..n][k]) {
      assert l'[..n][k] == l'[..e][k] == l[..e][k] == l[..n][k];
    }
    LeadingIs(l', n);
    if n + 1 < e {
      assert l'[n + 1] == l'[..e][n + 1] == l[n + 1];
    }
  }

  lemma {:induction false} LeadingBefore(l: string, e: nat)
    requires 0 < e <= |l| && !IsSpace(l[e - 1])
    ensures Leading(l) < e
  {
    hide IsSpace;
    if e > 1 && IsSpace(l[0]) {
      LeadingBefore(l[1..], e - 1);
    }
  }

  lemma PaddedNotBlank(l: string, n: nat)
    requires SplitRow(l).comment != ""
    ensures !Blank(l) && !Blank(SplitRow(l).code + Spaces(n) + SplitRow(l).comment)
  {
    hide IsSpace;
    var r := SplitRow(l);
    var q := LastTrail(l, |l|);
    var e := CodeEnd(l, q);
    var l' := r.code + Spaces(n) + r.comment;
    assert l'[e - 1] == l[e - 1];
    LeadingBefore(l, e);
    LeadingBefore(l', e);
  }

  /** The same code and the same comment, and the same line if it is a comment line. */
  ghost predicate SameRow(x: string, y: string)
  {
    && SplitRow(x) == SplitRow(y)
    && (Blank(x) <==> Blank(y))
    && (x == y || (!StartsComment(x) && !StartsComment(y)))
  }

  /** What padding does to one row of a run whose column covers it. */
  lemma PadRowKeeps(l: string, col: nat)
    requires SplitRow(l).comment != "" ==> |SplitRow(l).code| + 2 <= col
    ensures var l' := PadRow(SplitRow(l), col);
            SplitRow(l') == SplitRow(l) && (Blank(l') <==> Blank(l)) && SameRow(l', l)
  {
    var r := SplitRow(l);
    if r.comment != "" {
      PaddedSplits(l, col - |r.code|);
      PaddedNotBlank(l, col - |r.code|);
    }
  }

  // ----- Whole files

  /** Alignment changes neither the code nor the comment of any line. */
  ghost predicate SameRows(a: seq<string>, b: seq<string>)
  {
    |a| == |b| && forall k :: 0 <= k < |a| ==> SameRow(a[k], b[k])
  }

  lemma FlushSameRows(run: seq<string>)
    ensures SameRows(Flush(run, Column(run)), run)
  {
    hide SplitRow, PadRow, SameRow, Column;
    forall k | 0 <= k < |run| ensures SameRow(PadRow(SplitRow(run[k]), Column(run)), run[k]) {
      ColumnCovers(run, k);
      PadRowKeeps(run[k], Column(run));
    }
  }

  lemma SameRowsConcat(a: seq<string>, b: seq<string>, c: seq<string>, d: seq<string>)
    requires SameRows(a, b) && SameRows(c, d)
    ensures SameRows(a + c, b + d)
  {
    hide SameRow;
  }

  lemma {:induction false} AlignSameRows(lines: seq<string>)
    ensures SameRows(Align(lines), lines)
    decreases |lines|
  {
    hide SplitRow, Blank, SameRow, Column, Flush;
    if lines == [] {
    } else if Blank(lines[0]) {
      AlignSameRows(lines[1..]);
      SameRowRefl(lines[0]);
      SameRowsConcat([lines[0]], [lines[0]], Align(lines[1..]), lines[1..]);
      assert lines == [lines[0]] + lines[1..];
    } else {
      var n := RunEnd(lines);
      FlushSameRows(lines[..n]);
      AlignSameRows(lines[n..]);
      SameRowsConcat(Flush(lines[..n], Column(lines[..n])), lines[..n], Align(lines[n..]), lines[n..]);
      assert lines == lines[..n] + lines[n..];
    }
  }

  lemma SameRowRefl(l: string)
    ensures SameRow(l, l)
  {
  }

  lemma {:induction false} SameColumn(a: seq<string>, b: seq<string>)
    requires |a| == |b| && forall k :: 0 <= k < |a| ==> SplitRow(a[k]) == SplitRow(b[k])
    ensures Column(a) == Column(b)
    decreases |a|
  {
    hide SplitRow;
    if a != [] {
      SameColumn(a[1..], b[1..]);
    }
  }

  lemma {:induction false} SameRunEnd(a: seq<string>, b: seq<string>)
    requires |a| == |b| && forall k :: 0 <= k < |a| ==> (Blank(a[k]) <==> Blank(b[k]))
    ensures RunEnd(a) == RunEnd(b)
    decreases |a|
  {
    hide Blank;
    if a != [] {
      SameRunEnd(a[1..], b[1..]);
    }
  }

  /** The result depends on the rows only. */
  lemma {:induction false} AlignOfSameRows(a: seq<string>, b: seq<string>)
    requires SameRows(a, b)
    requires forall k :: 0 <= k < |a| && Blank(a[k]) ==> a[k] == b[k]
    ensures Align(a) == Align(b)
    decreases |a|
  {
    hide SplitRow, Blank, StartsComment, Column, PadRow;
    if a == [] {
    } else if Blank(a[0]) {
      AlignOfSameRows(a[1..], b[1..]);
    } else {
      SameRunEnd(a, b);
      var n := RunEnd(a);
      assert n > 0;
      SameColumn(a[..n], b[..n]);
      assert Flush(a[..n], Column(a[..n])) == Flush(b[..n], Column(b[..n]));
      AlignOfSameRows(a[n..], b[n..]);
    }
  }

  lemma {:induction false} BlankLinesStay(lines: seq<string>, k: nat)
    requires k < |lines| && Blank(lines[k])
    ensures Align(lines)[k] == lines[k]
    decreases |lines|
  {
    hide SplitRow, Blank, Column;
    if Blank(lines[0]) {
      if k > 0 {
        BlankLinesStay(lines[1..], k - 1);
      }
    } else {
      var n := RunEnd(lines);
      assert n > 0 && k >= n;
      BlankLinesStay(lines[n..], k - n);
    }
  }

  /** Aligning again changes nothing. */
  lemma AlignIdempotent(lines: seq<string>)
    ensures Align(Align(lines)) == Align(lines)
  {
    hide SplitRow, Blank, StartsComment, Align;
    AlignSameRows(lines);
    forall k | 0 <= k < |lines| && Blank(Align(lines)[k]) ensures Align(lines)[k] == lines[k] {
      BlankLinesStay(lines, k);
    }
    AlignOfSameRows(Align(lines), lines);
  }

  /** Within a run every trailing comment ends up in one column, two past the widest commented code. */
  lemma CommentsLineUp(run: seq<string>, k: nat)
    requires k < |run| && SplitRow(run[k]).comment != ""
    ensures var r := SplitRow(run[k]);
            var out := Flush(run, Column(run))[k];
            |r.code| + 2 <= Column(run) && out == r.code + Spaces(Column(run) - |r.code|) + r.comment
    ensures exists i :: 0 <= i < |run| && SplitRow(run[i]).comment != "" && |SplitRow(run[i]).code| + 2 == Column(run)
  {
    hide SplitRow, Column;
    ColumnCovers(run, k);
    ColumnIsAttained(run);
  }

  lemma {:induction false} ColumnIsAttained(run: seq<string>)
    requires Column(run) > 0
    ensures exists i :: 0 <= i < |run| && SplitRow(run[i]).comment != "" && |SplitRow(run[i]).code| + 2 == Column(run)
    decreases |run|
  {
    hide SplitRow;
    var r := SplitRow(run[0]);
    if r.comment != "" && |r.code| + 2 > Column(run[1..]) {
    } else {
      ColumnIsAttained(run[1..]);
      var i :| 0 <= i < |run[1..]| && SplitRow(run[1..][i]).comment != ""
        && |SplitRow(run[1..][i]).code| + 2 == Column(run[1..]);
      assert run[i + 1] == run[1..][i];
    }
  }

  // ----- Both passes, as format_generated_cpp ends

  function LastPasses(lines: seq<string>): seq<string>
  {
    Align(Reflow(lines))
  }

  lemma NotCommentThenCode(l: string)
    ensures !StartsComment(l) ==> Match(l).Code?
  {
  }

  /** Lines with the same comment structure: code may differ, comments may not. */
  ghost predicate SameComments(a: seq<string>, b: seq<string>)
  {
    && |a| == |b|
    && forall k :: 0 <= k < |a| ==> a[k] == b[k] || (Match(a[k]).Code? && Match(b[k]).Code?)
  }

  /** Whether the reflow pass leaves a file alone is decided by its comment lines. */
  lemma {:induction false} StableBySameComments(a: seq<string>, b: seq<string>)
    requires SameComments(a, b)
    requires Reflow(a) == a
    ensures Reflow(b) == b
    decreases |a|
  {
    hide Match, ReflowRun;
    if a == [] {
    } else if Match(a[0]).Code? {
      assert Match(b[0]).Code?;
      assert Reflow(a[1..]) == Reflow(a)[1..];
      StableBySameComments(a[1..], b[1..]);
    } else {
      StableRun(a, b);
    }
  }

  /** A file that opens with a comment: its first run, and what follows. */
  lemma FirstRun(lines: seq<string>) returns (indent: string, marker: string, j: nat)
    requires lines != [] && Match(lines[0]).Comment?
    ensures IsPrefix(indent, marker) && 0 < j <= |lines| && IsRun(lines[..j], indent, marker)
    ensures j < |lines| ==> !InRun(lines[j], indent, marker)
    ensures (RunIsComments(lines[..j], indent, marker);
             Reflow(lines) == ReflowRun(lines[..j], indent, marker) + Reflow(lines[j..]))
  {
    hide Match, ReflowRun;
    indent, marker := Match(lines[0]).indent, Match(lines[0]).marker;
    j := RunLength(lines, indent, marker);
    RunSplits(lines, indent, marker);
    RunIsComments(lines[..j], indent, marker);
    MatchSplits(lines[0]);
  }

  lemma StableRun(a: seq<string>, b: seq<string>)
    requires SameComments(a, b) && a != [] && Match(a[0]).Comment?
    requires Reflow(a) == a
    ensures Reflow(b) == b
    decreases |a|, 0
  {
    hide Match, ReflowRun, Reflow;
    var indent, marker, j := FirstRun(a);
    RunIsComments(a[..j], indent, marker);
    ReflowedRun(a[..j], indent, marker);
    // the run cannot have grown, because the rest would then be shorter than its own reflow
    ReflowNeverShrinks(a[j..]);
    var out := ReflowRun(a[..j], indent, marker);
    assert |out| == j && out == a[..j] && Reflow(a[j..]) == a[j..];
    StableBySameComments(a[j..], b[j..]);
    forall k | 0 <= k < j ensures a[k] == b[k] {
      assert Match(a[..j][k]).Comment?;
    }
    assert a[..j] == b[..j];
    assert b == a[..j] + b[j..];
    ReflowOfRun(a[..j], b[j..], indent, marker);
  }

  lemma {:induction false} ReflowNeverShrinks(lines: seq<string>)
    ensures |lines| <= |Reflow(lines)|
    decreases |lines|
  {
    hide Match, ReflowRun;
    if lines == [] {
    } else if Match(lines[0]).Code? {
      ReflowNeverShrinks(lines[1..]);
    } else {
      var (indent, marker) := (Match(lines[0]).indent, Match(lines[0]).marker);
      var j := RunLength(lines, indent, marker);
      RunSplits(lines, indent, marker);
      MatchSplits(lines[0]);
      assert j > 0;
      ReflowedRun(lines[..j], indent, marker);
      ReflowNeverShrinks(lines[j..]);
    }
  }

  /** Aligning does not disturb what the reflow pass has settled. */
  lemma AlignKeepsReflow(lines: seq<string>)
    requires Reflow(lines) == lines
    ensures Reflow(Align(lines)) == Align(lines)
  {
    hide SplitRow, Blank, StartsComment, Match;
    AlignSameRows(lines);
    var out := Align(lines);
    forall k | 0 <= k < |lines| ensures out[k] == lines[k] || (Match(out[k]).Code? && Match(lines[k]).Code?) {
      NotCommentThenCode(out[k]);
      NotCommentThenCode(lines[k]);
    }
    StableBySameComments(lines, out);
  }

  /** Running the two passes again changes nothing. */
  lemma LastPassesIdempotent(lines: seq<string>)
    ensures LastPasses(LastPasses(lines)) == LastPasses(lines)
  {
    ReflowIdempotent(lines);
    AlignKeepsReflow(Reflow(lines));
    AlignIdempotent(Reflow(lines));
  }

  // ----- The source's form: rows collected in `run` and written out by a nested function

  method FlushRun(rows: seq<Row>, ghost run: seq<string>) returns (out: seq<string>)
    requires |rows| == |run| && forall k :: 0 <= k < |run| ==> rows[k] == SplitRow(run[k])
    ensures out == Flush(run, Column(run))
  {
    hide SplitRow;
    var col := 0;
    var i := |rows|;
    while i > 0
      invariant 0 <= i <= |rows|
      invariant col == Column(run[i..])
    {
      i := i - 1;
      assert run[i..][1..] == run[i + 1..];
      if rows[i].comment != "" && |rows[i].code| + 2 > col {
        col := |rows[i].code| + 2;
      }
    }
    assert run[0..] == run;
    out := [];
    for j := 0 to |rows|
      invariant out == Flush(run, col)[..j]
    {
      out := out + [PadRow(rows[j], col)];
    }
  }

  /** A run that ends at a blank line or at the end of the file is flushed as a whole. */
  lemma AlignOfRun(run: seq<string>, rest: seq<string>)
    requires forall k :: 0 <= k < |run| ==> !Blank(run[k])
    requires rest != [] ==> Blank(rest[0])
    ensures Align(run + rest) == Flush(run, Column(run)) + Align(rest)
  {
    hide SplitRow, Blank, Column;
    if run == [] {
      assert run + rest == rest;
    } else {
      RunEndIs(run + rest, |run|);
      assert (run + rest)[..|run|] == run && (run + rest)[|run|..] == rest;
    }
  }

  lemma AlignNothing()
    ensures Align([]) == []
  {
  }

  lemma AlignBlank(l: string, rest: seq<string>)
    requires Blank(l)
    ensures Align([l] + rest) == [l] + Align(rest)
  {
    assert ([l] + rest)[1..] == rest;
  }

  /** A run and the blank line behind it are dealt with. */
  lemma AlignRunAndBlank(run: seq<string>, l: string, rest: seq<string>)
    requires forall k :: 0 <= k < |run| ==> !Blank(run[k])
    requires Blank(l)
    ensures Align(run + ([l] + rest)) == Flush(run, Column(run)) + [l] + Align([] + rest)
  {
    hide Blank, Align, Flush, Column;
    AlignOfRun(run, [l] + rest);
    AlignBlank(l, rest);
    assert [] + rest == rest;
    assert Flush(run, Column(run)) + ([l] + Align(rest)) == Flush(run, Column(run)) + [l] + Align(rest);
  }

  method AlignTrailingComments(lines: seq<string>) returns (out: seq<string>)
    ensures out == Align(lines)
  {
    hide SplitRow, Blank, Column, Flush, Align;
    out := [];
    var rows: seq<Row> := [];
    ghost var run: seq<string> := [];
    assert run + lines[0..] == lines;
    AlignNothing();
    for i := 0 to |lines|
      invariant |rows| == |run|
      invariant forall k :: 0 <= k < |run| ==> rows[k] == SplitRow(run[k]) && !Blank(run[k])
      invariant out + Align(run + lines[i..]) == Align(lines)
    {
      assert lines[i..] == [lines[i]] + lines[i + 1..];
      if Blank(lines[i]) {
        AlignRunAndBlank(run, lines[i], lines[i + 1..]);
        var flushed := FlushRun(rows, run);
        out := out + flushed;
        out := out + [lines[i]];
        rows, run := [], [];
      } else {
        rows := rows + [SplitRow(lines[i])];
        run := run + [lines[i]];
        assert run[..|run| - 1] + [lines[i]] == run;
        assert run + lines[i + 1..] == run[..|run| - 1] + lines[i..];
      }
    }
    assert run + lines[|lines|..] == run + [];
    AlignOfRun(run, []);
    var flushed := FlushRun(rows, run);
    out := out + flushed;
  }

  lemma {:induction false} RunEndIs(lines: seq<string>, n: nat)
    requires n <= |lines| && forall k :: 0 <= k < n ==> !Blank(lines[k])
    requires n < |lines| ==> Blank(lines[n])
    ensures RunEnd(lines) == n
    decreases |lines|
  {
    hide Blank;
    if n > 0 {
      RunEndIs(lines[1..], n - 1);
    }
  }
}
