// The two splitters at top-level commas: _split_toplevel of _cpp_fmt.py and split_top_commas of
// enumerate_signatures.py. They differ in the brackets they know and in what they do at the end.

module TopLevelSplit {
  import opened Sequences
  import opened Whitespace

  /** "<(" and ">)", or "<({[" and ">)}]". */
  datatype Brackets = Angles | AllKinds

  function Delta(b: Brackets, c: char): int
  {
    if c == '<' || c == '(' then 1
    else if c == '>' || c == ')' then -1
    else if b.AllKinds? && (c == '{' || c == '[') then 1
    else if b.AllKinds? && (c == '}' || c == ']') then -1
    else 0
  }

  /** The position of the first comma at depth zero, starting from depth `d`, or the length. */
  function CutAt(b: Brackets, s: string, d: int): (k: nat)
    ensures k <= |s|
    ensures k < |s| ==> s[k] == ','
  {
    if s == "" then 0
    else if s[0] == ',' && d == 0 then 0
    else 1 + CutAt(b, s[1..], d + Delta(b, s[0]))
  }

  function DepthAfter(b: Brackets, s: string, d: int): int
  {
    if s == "" then d else DepthAfter(b, s[1..], d + Delta(b, s[0]))
  }

  /** The pieces between top-level commas, as they are. */
  function Pieces(b: Brackets, s: string): (ps: seq<string>)
    ensures ps != []
    ensures forall k :: 0 <= k < |ps| ==> |ps[k]| <= |s|
    decreases |s|
  {
    var k := CutAt(b, s, 0);
    if k == |s| then [s] else [s[..k]] + Pieces(b, s[k + 1..])
  }

  function StripAll(ps: seq<string>): (r: seq<string>)
    ensures |r| == |ps|
    ensures forall k :: 0 <= k < |ps| ==> r[k] == Strip(ps[k])
  {
    seq(|ps|, k requires 0 <= k < |ps| => Strip(ps[k]))
  }

  /** _split_toplevel: the last piece is kept unless it is blank. */
  function SplitFmt(s: string): seq<string>
  {
    var ps := Pieces(Angles, s);
    var n := |ps| - 1;
    StripAll(ps[..n]) + if Strip(ps[n]) != "" then [Strip(ps[n])] else []
  }

  /** split_top_commas: the last piece is kept unless it is empty. */
  function SplitSig(s: string): seq<string>
  {
    var ps := Pieces(AllKinds, s);
    var n := |ps| - 1;
    StripAll(ps[..n]) + if ps[n] != "" then [Strip(ps[n])] else []
  }

  // ----- The source's form

  lemma CutGrows(b: Brackets, s: string, d: int)
    requires s != "" && !(s[0] == ',' && d == 0)
    ensures CutAt(b, s, d) == 1 + CutAt(b, s[1..], d + Delta(b, s[0]))
  {
  }

  /** What is still to be cut, with `cur` collected at depth `d`. */
  ghost function Open(b: Brackets, cur: string, s: string, d: int): seq<string>
  {
    var k := CutAt(b, s, d);
    if k == |s| then [cur + s] else [cur + s[..k]] + Pieces(b, s[k + 1..])
  }

  lemma OpenGrows(b: Brackets, cur: string, s: string, d: int)
    requires s != "" && !(s[0] == ',' && d == 0)
    ensures Open(b, cur, s, d) == Open(b, cur + [s[0]], s[1..], d + Delta(b, s[0]))
  {
    hide Pieces;
    CutGrows(b, s, d);
    var k := CutAt(b, s, d);
    assert cur + s == cur + [s[0]] + s[1..];
    if k < |s| {
      assert cur + s[..k] == cur + [s[0]] + s[1..][..k - 1];
      assert s[k + 1..] == s[1..][k..];
    }
  }

  lemma OpenCuts(b: Brackets, cur: string, s: string)
    requires s != "" && s[0] == ','
    ensures Open(b, cur, s, 0) == [cur] + Open(b, "", s[1..], 0)
  {
    OpenStart(b, s[1..]);
    assert cur + s[..0] == cur;
  }

  lemma OpenStart(b: Brackets, s: string)
    ensures Open(b, "", s, 0) == Pieces(b, s)
  {
    hide CutAt;
    var k := CutAt(b, s, 0);
    if k == |s| {
      assert "" + s == s;
    } else {
      assert "" + s[..k] == s[..k];
    }
  }

  /** The loop both splitters run; the piece still open comes back apart. */
  method CutLoop(b: Brackets, s: string) returns (out: seq<string>, cur: string)
    ensures var ps := Pieces(b, s);
            out == StripAll(ps[..|ps| - 1]) && cur == ps[|ps| - 1]
  {
    hide Open, Delta, Strip, Pieces, StripAll;
    out, cur := [], "";
    var depth := 0;
    ghost var raw: seq<string> := [];
    OpenStart(b, s);
    assert s[0..] == s;
    for i := 0 to |s|
      invariant raw + Open(b, cur, s[i..], depth) == Pieces(b, s)
      invariant out == StripAll(raw)
    {
      var ch := s[i];
      assert s[i..][1..] == s[i + 1..];
      if ch == ',' && depth == 0 {
        OpenCuts(b, cur, s[i..]);
        StripAllSnoc(raw, cur);
        raw := raw + [cur];
        out := out + [Strip(cur)];
        cur := "";
      } else {
        OpenGrows(b, cur, s[i..], depth);
        cur := cur + [ch];
        depth := depth + Delta(b, ch);
      }
    }
    OpenEnd(b, cur, depth);
    assert (raw + [cur])[..|raw|] == raw;
  }

  lemma StripAllSnoc(ps: seq<string>, p: string)
    ensures StripAll(ps + [p]) == StripAll(ps) + [Strip(p)]
  {
    hide Strip;
  }

  lemma OpenEnd(b: Brackets, cur: string, d: int)
    ensures Open(b, cur, "", d) == [cur]
  {
    assert cur + "" == cur;
  }

  method SplitTopLevel(s: string) returns (out: seq<string>)
    ensures out == SplitFmt(s)
  {
    var cur;
    out, cur := CutLoop(Angles, s);
    if Strip(cur) != "" {
      out := out + [Strip(cur)];
    }
  }

  method SplitTopCommas(s: string) returns (parts: seq<string>)
    ensures parts == SplitSig(s)
  {
    var buf;
    parts, buf := CutLoop(AllKinds, s);
    if buf != "" {
      parts := parts + [Strip(buf)];
    }
  }

  // ----- Splitting what was joined

  ghost predicate Trimmed(s: string)
  {
    s != "" && !IsSpace(s[0]) && !IsSpace(s[|s| - 1])
  }

  /** No comma of the item stands at depth zero. */
  ghost predicate NoTopComma(b: Brackets, s: string)
  {
    CutAt(b, s, 0) == |s|
  }

  /** The list can be told apart again: no top-level commas, and every item but the last is balanced. */
  ghost predicate Separable(b: Brackets, items: seq<string>)
  {
    items != [] ==>
      && NoTopComma(b, items[0])
      && (|items| > 1 ==> DepthAfter(b, items[0], 0) == 0 && Separable(b, items[1..]))
  }

  /** Where the first cut falls in `a + rest`. */
  lemma {:induction false} CutOfConcat(b: Brackets, a: string, rest: string, d: int)
    ensures CutAt(b, a + rest, d)
         == if CutAt(b, a, d) < |a| then CutAt(b, a, d) else |a| + CutAt(b, rest, DepthAfter(b, a, d))
  {
    hide Delta;
    if a == "" {
      assert a + rest == rest;
    } else {
      assert (a + rest)[1..] == a[1..] + rest;
      CutOfConcat(b, a[1..], rest, d + Delta(b, a[0]));
    }
  }

  lemma StripOfTrimmed(lead: string, s: string)
    requires AllSpace(lead) && Trimmed(s)
    ensures Strip(lead + s) == s
  {
    hide IsSpace;
    var t := lead + s;
    assert t[..|lead|] == lead;
    LeadingIs(t, |lead|);
    assert t[|lead|..] == s;
  }

  /** A piece that reaches past the item does not strip down to it. */
  lemma StripLonger(lead: string, s: string, more: string)
    requires AllSpace(lead) && Trimmed(s) && more != "" && more[0] == ','
    ensures |Strip(lead + s + more)| > |s|
  {
    hide IsSpace;
    var t := lead + s + more;
    assert t[..|lead|] == lead;
    assert t[|lead|] == s[0];
    LeadingIs(t, |lead|);
    var u := s + more;
    assert t[|lead|..] == u;
    CommaIsInk();
    RStripKeeps(u, |s|);
  }

  lemma CommaIsInk()
    ensures !IsSpace(',')
  {
  }

  lemma {:induction false} RStripKeeps(u: string, k: nat)
    requires k < |u| && !IsSpace(u[k])
    ensures |RStrip(u)| > k
    decreases |u|
  {
    hide IsSpace;
    if IsSpace(u[|u| - 1]) {
      RStripKeeps(u[..|u| - 1], k);
    }
  }

  lemma StripShorter(s: string)
    ensures |Strip(s)| <= |s|
  {
  }

  ghost predicate AllTrimmed(items: seq<string>)
  {
    forall k :: 0 <= k < |items| ==> Trimmed(items[k])
  }

  ghost predicate IsLead(lead: string)
  {
    lead == "" || lead == " "
  }

  lemma LeadFacts(b: Brackets, lead: string)
    requires IsLead(lead)
    ensures AllSpace(lead) && CutAt(b, lead, 0) == |lead| && DepthAfter(b, lead, 0) == 0
  {
    if lead == " " {
      assert lead[1..] == "";
    }
  }

  /** The first cut of a joined list: within the first item, right behind it, or further on. */
  lemma FirstCut(b: Brackets, lead: string, item: string, rest: string)
    requires IsLead(lead)
    ensures var k := CutAt(b, lead + item + rest, 0);
            && (NoTopComma(b, item) ==> k == |lead + item| + CutAt(b, rest, DepthAfter(b, item, 0)))
            && (!NoTopComma(b, item) ==> k < |lead + item|)
  {
    hide CutAt, DepthAfter, IsLead, Delta;
    LeadFacts(b, lead);
    assert lead + item + rest == lead + (item + rest);
    CutOfConcat(b, lead, item + rest, 0);
    CutOfConcat(b, item, rest, 0);
  }

  lemma CommaCut(b: Brackets, after: string, d: int)
    ensures CutAt(b, ", " + after, d) == 0 <==> d == 0
  {
  }

  lemma OnePiece(b: Brackets, lead: string, item: string)
    requires IsLead(lead) && Trimmed(item)
    ensures StripAll(Pieces(b, lead + item)) == [item] <==> NoTopComma(b, item)
  {
    hide CutAt, DepthAfter, Strip, Trimmed;
    var s := lead + item;
    LeadFacts(b, lead);
    assert s + "" == s;
    FirstCut(b, lead, item, "");
    EmptyCut(b, DepthAfter(b, item, 0));
    if NoTopComma(b, item) {
      StripOfTrimmed(lead, item);
    } else {
      FirstPieceShort(b, lead, item, "");
    }
  }

  lemma PiecesCut(b: Brackets, s: string)
    requires CutAt(b, s, 0) < |s|
    ensures Pieces(b, s) == [s[..CutAt(b, s, 0)]] + Pieces(b, s[CutAt(b, s, 0) + 1..])
  {
    hide CutAt;
  }

  lemma PiecesBehind(b: Brackets, lead: string, item: string, after: string)
    requires CutAt(b, lead + item + (", " + after), 0) == |lead + item|
    ensures Pieces(b, lead + item + (", " + after)) == [lead + item] + Pieces(b, " " + after)
  {
    hide CutAt, Pieces;
    var s := lead + item + (", " + after);
    assert s[..|lead + item|] == lead + item;
    assert s[|lead + item| + 1..] == " " + after;
    PiecesCut(b, s);
  }

  /** The cut falls right behind the first item: the rest is cut on its own. */
  lemma FirstPieceExact(b: Brackets, lead: string, item: string, after: string, tail: seq<string>)
    requires IsLead(lead) && Trimmed(item)
    requires CutAt(b, lead + item + (", " + after), 0) == |lead + item|
    ensures StripAll(Pieces(b, lead + item + (", " + after))) == [item] + tail
       <==> StripAll(Pieces(b, " " + after)) == tail
  {
    hide CutAt, Strip, Trimmed, Pieces, StripAll, IsLead;
    LeadFacts(b, lead);
    PiecesBehind(b, lead, item, after);
    var ps := Pieces(b, " " + after);
    StripOfTrimmed(lead, item);
    StripAllCons(lead + item, ps);
    assert ([item] + StripAll(ps))[1..] == StripAll(ps);
    assert ([item] + tail)[1..] == tail;
  }

  lemma StripAllCons(p: string, ps: seq<string>)
    ensures StripAll([p] + ps) == [Strip(p)] + StripAll(ps)
  {
    hide Strip;
  }

  /** Cutting a joined list gives its items back, space for space, exactly if the list is separable. */
  lemma {:induction false} PiecesOfJoin(b: Brackets, lead: string, items: seq<string>)
    requires IsLead(lead) && items != [] && AllTrimmed(items)
    ensures StripAll(Pieces(b, lead + JoinWith(items, ", "))) == items <==> Separable(b, items)
    decreases |items|
  {
    hide CutAt, DepthAfter, Strip, Trimmed, StripAll, Pieces, IsLead;
    var item := items[0];
    assert Trimmed(item);
    if |items| == 1 {
      assert items == [item];
      OnePiece(b, lead, item);
    } else {
      var after := JoinWith(items[1..], ", ");
      var rest := ", " + after;
      assert lead + JoinWith(items, ", ") == lead + item + rest;
      FirstCut(b, lead, item, rest);
      CommaCut(b, after, DepthAfter(b, item, 0));
      var k := CutAt(b, lead + item + rest, 0);
      if k < |lead + item| {
        FirstPieceShort(b, lead, item, rest);
      } else if k == |lead + item| {
        SpaceIsLead();
        assert AllTrimmed(items[1..]);
        PiecesOfJoin(b, " ", items[1..]);
        assert items == [item] + items[1..];
        FirstPieceExact(b, lead, item, after, items[1..]);
      } else {
        FirstPieceLong(b, lead, item, rest);
      }
    }
  }

  lemma SpaceIsLead()
    ensures IsLead(" ")
  {
  }

  lemma EmptyCut(b: Brackets, d: int)
    ensures CutAt(b, "", d) == 0
  {
  }

  /** A cut inside the first item: the first piece is not that item. */
  lemma FirstPieceShort(b: Brackets, lead: string, item: string, rest: string)
    requires IsLead(lead) && Trimmed(item)
    requires CutAt(b, lead + item + rest, 0) < |lead + item|
    ensures Strip(Pieces(b, lead + item + rest)[0]) != item
  {
    hide CutAt, Strip;
    var s := lead + item + rest;
    var k := CutAt(b, s, 0);
    var piece := s[..k];
    assert Pieces(b, s)[0] == piece;
    LeadFacts(b, lead);
    StripShorter(piece);
    if |lead| == 1 && k == |item| {
      PieceWithLead(lead, item, rest, k);
    }
  }

  /** One column short and one blank at the front: stripping cannot give the item either. */
  lemma PieceWithLead(lead: string, item: string, rest: string, k: nat)
    requires lead == " " && item != "" && k == |item| && k < |lead + item|
    ensures |Strip((lead + item + rest)[..k])| < |item|
  {
    var piece := (lead + item + rest)[..k];
    assert piece[0] == ' ';
    assert Leading(piece) > 0;
  }

  /** A cut beyond the first item: again the first piece is not that item. */
  lemma FirstPieceLong(b: Brackets, lead: string, item: string, rest: string)
    requires IsLead(lead) && Trimmed(item)
    requires rest != "" && rest[0] == ','
    requires CutAt(b, lead + item + rest, 0) > |lead + item|
    ensures Strip(Pieces(b, lead + item + rest)[0]) != item
  {
    hide CutAt, Strip;
    var s := lead + item + rest;
    var k := CutAt(b, s, 0);
    var n := |lead + item|;
    LeadFacts(b, lead);
    assert s[..k] == lead + item + rest[..k - n];
    assert Pieces(b, s)[0] == s[..k];
    StripLonger(lead, item, rest[..k - n]);
  }

  /** Nor do the pieces without the last one ever spell the list. */
  lemma {:induction false} AllButLast(b: Brackets, lead: string, items: seq<string>)
    requires IsLead(lead) && items != [] && AllTrimmed(items)
    ensures var ps := Pieces(b, lead + JoinWith(items, ", "));
            StripAll(ps[..|ps| - 1]) != items
    decreases |items|
  {
    hide CutAt, DepthAfter, Strip, Trimmed, StripAll, Pieces, IsLead;
    var item := items[0];
    assert Trimmed(item);
    var after := JoinWith(items[1..], ", ");
    var rest := if |items| == 1 then "" else ", " + after;
    var s := lead + item + rest;
    assert lead + JoinWith(items, ", ") == s;
    var k := CutAt(b, s, 0);
    var ps := Pieces(b, s);
    if |ps| > 1 {
      assert Strip(ps[0]) == StripAll(ps[..|ps| - 1])[0];
    }
    if k < |lead + item| {
      FirstPieceShort(b, lead, item, rest);
    } else if |items| == 1 {
      NoCut(b, s);
    } else if k == |lead + item| {
      SpaceIsLead();
      assert AllTrimmed(items[1..]);
      AllButLast(b, " ", items[1..]);
      assert items == [item] + items[1..];
      FirstPieceDropped(b, lead, item, after, items[1..]);
    } else {
      FirstPieceLong(b, lead, item, rest);
    }
  }

  lemma NoCut(b: Brackets, s: string)
    requires CutAt(b, s, 0) == |s|
    ensures |Pieces(b, s)| == 1
  {
  }

  lemma FirstPieceDropped(b: Brackets, lead: string, item: string, after: string, tail: seq<string>)
    requires IsLead(lead) && Trimmed(item)
    requires CutAt(b, lead + item + (", " + after), 0) == |lead + item|
    requires var qs := Pieces(b, " " + after); StripAll(qs[..|qs| - 1]) != tail
    ensures var ps := Pieces(b, lead + item + (", " + after));
            StripAll(ps[..|ps| - 1]) != [item] + tail
  {
    hide CutAt, Strip, Trimmed, Pieces, StripAll, IsLead;
    LeadFacts(b, lead);
    PiecesBehind(b, lead, item, after);
    StripOfTrimmed(lead, item);
    var qs := Pieces(b, " " + after);
    var ps := Pieces(b, lead + item + (", " + after));
    assert ps[..|ps| - 1] == [lead + item] + qs[..|qs| - 1];
    StripAllCons(lead + item, qs[..|qs| - 1]);
    assert ([Strip(lead + item)] + StripAll(qs[..|qs| - 1]))[1..] == StripAll(qs[..|qs| - 1]);
    assert ([item] + tail)[1..] == tail;
  }

  /** Both splitters undo ", ".join on a list of trimmed items exactly if the list is separable. */
  lemma SplittersUndoJoin(items: seq<string>)
    requires AllTrimmed(items)
    ensures SplitFmt(JoinWith(items, ", ")) == items <==> Separable(Angles, items)
    ensures SplitSig(JoinWith(items, ", ")) == items <==> Separable(AllKinds, items)
  {
    hide Separable, Trimmed, Strip, Pieces;
    if items == [] {
      NothingToSplit();
    } else {
      var s := JoinWith(items, ", ");
      assert "" + s == s;
      JoinedOrNot(Angles, items, s);
      JoinedOrNot(AllKinds, items, s);
      StripNothing();
    }
  }

  lemma StripNothing()
    ensures Strip("") == ""
  {
  }

  lemma NothingToSplit()
    ensures SplitFmt("") == [] && SplitSig("") == [] && JoinWith([], ", ") == ""
    ensures Separable(Angles, []) && Separable(AllKinds, [])
  {
    assert Pieces(Angles, "") == [""] && Pieces(AllKinds, "") == [""];
  }

  /** With the last piece kept the list comes back exactly if it is separable; without it never. */
  lemma JoinedOrNot(b: Brackets, items: seq<string>, s: string)
    requires items != [] && AllTrimmed(items) && s == JoinWith(items, ", ")
    ensures var ps := Pieces(b, s);
            var front := StripAll(ps[..|ps| - 1]);
            && (front + [Strip(ps[|ps| - 1])] == items <==> Separable(b, items))
            && front != items
            && (Separable(b, items) ==> Strip(ps[|ps| - 1]) != "")
  {
    hide Separable, Strip, Pieces, StripAll;
    assert "" + s == s;
    PiecesOfJoin(b, "", items);
    AllButLast(b, "", items);
    var ps := Pieces(b, s);
    assert ps == ps[..|ps| - 1] + [ps[|ps| - 1]];
    StripAllSnoc(ps[..|ps| - 1], ps[|ps| - 1]);
    assert Trimmed(items[|items| - 1]);
  }

  // ----- Which brackets protect a comma

  ghost predicate Unmarked(s: string)
  {
    s != "" && !IsSpace(s[0]) && !IsSpace(s[|s| - 1])
    && forall k :: 0 <= k < |s| ==>
         s[k] != ',' && s[k] != '<' && s[k] != '>' && s[k] != '(' && s[k] != ')'
         && s[k] != '{' && s[k] != '}' && s[k] != '[' && s[k] != ']'
  }

  lemma {:induction false} UnmarkedText(b: Brackets, s: string, d: int)
    requires forall k :: 0 <= k < |s| ==>
               s[k] != ',' && s[k] != '<' && s[k] != '>' && s[k] != '(' && s[k] != ')'
               && s[k] != '{' && s[k] != '}' && s[k] != '[' && s[k] != ']'
    ensures CutAt(b, s, d) == |s| && DepthAfter(b, s, d) == d
  {
    if s != "" {
      UnmarkedText(b, s[1..], d);
    }
  }

  lemma {:induction false} DepthOfConcat(b: Brackets, a: string, rest: string, d: int)
    ensures DepthAfter(b, a + rest, d) == DepthAfter(b, rest, DepthAfter(b, a, d))
  {
    if a == "" {
      assert a + rest == rest;
    } else {
      assert (a + rest)[1..] == a[1..] + rest;
      DepthOfConcat(b, a[1..], rest, d + Delta(b, a[0]));
    }
  }

  /** A pair of brackets around two texts and the comma between them. */
  function Around(open: char, x: string, y: string, close: char): string
  {
    [open] + x + ", " + y + [close]
  }

  lemma OneChar(b: Brackets, c: char, d: int)
    ensures DepthAfter(b, [c], d) == d + Delta(b, c)
    ensures c != ',' ==> CutAt(b, [c], d) == 1
  {
    assert [c][1..] == "";
  }

  lemma CommaInside(b: Brackets, d: int)
    requires d != 0
    ensures CutAt(b, ", ", d) == 2 && DepthAfter(b, ", ", d) == d
  {
    assert ", "[1..] == " " && " "[1..] == "";
    assert Delta(b, ',') == 0 && Delta(b, ' ') == 0;
    assert CutAt(b, " ", d) == 1 && DepthAfter(b, " ", d) == d;
  }

  lemma BracketsProtect(b: Brackets, open: char, x: string, y: string, close: char)
    requires Unmarked(x) && Unmarked(y) && open != ',' && close != ','
    requires Delta(b, open) == 1 && Delta(b, close) == -1
    ensures CutAt(b, Around(open, x, y, close), 0) == |Around(open, x, y, close)|
    ensures DepthAfter(b, Around(open, x, y, close), 0) == 0
  {
    hide Delta, CutAt, DepthAfter, Unmarked;
    var t1 := [open] + x;
    var t2 := t1 + ", ";
    var t3 := t2 + y;
    OneChar(b, open, 0);
    OneChar(b, close, 1);
    UnmarkedItem(b, x, 1);
    UnmarkedItem(b, y, 1);
    CommaInside(b, 1);
    CutOfConcat(b, [open], x, 0);
    DepthOfConcat(b, [open], x, 0);
    CutOfConcat(b, t1, ", ", 0);
    DepthOfConcat(b, t1, ", ", 0);
    CutOfConcat(b, t2, y, 0);
    DepthOfConcat(b, t2, y, 0);
    CutOfConcat(b, t3, [close], 0);
    DepthOfConcat(b, t3, [close], 0);
    assert Around(open, x, y, close) == t3 + [close];
  }

  lemma UnmarkedItem(b: Brackets, s: string, d: int)
    requires Unmarked(s)
    ensures CutAt(b, s, d) == |s| && DepthAfter(b, s, d) == d && Trimmed(s)
  {
    UnmarkedText(b, s, d);
  }

  /** One splitter knows angle brackets and parentheses, the other curly and square ones too. */
  lemma KnownBrackets(b: Brackets)
    ensures Delta(b, '<') == 1 == Delta(b, '(') && Delta(b, '>') == -1 == Delta(b, ')')
    ensures Delta(AllKinds, '{') == 1 == Delta(AllKinds, '[') && Delta(AllKinds, '}') == -1 == Delta(AllKinds, ']')
    ensures Delta(Angles, '{') == 0 == Delta(Angles, '[') && Delta(Angles, '}') == 0 == Delta(Angles, ']')
  {
  }

  /** A comma between brackets does not cut: for one splitter those of two kinds, for the other of four. */
  lemma CommaBetweenBrackets(x: string, y: string, z: string)
    requires Unmarked(x) && Unmarked(y) && Unmarked(z)
    ensures SplitFmt(Around('<', x, y, '>') + ", " + z) == [Around('<', x, y, '>'), z]
    ensures SplitFmt(Around('(', x, y, ')') + ", " + z) == [Around('(', x, y, ')'), z]
    ensures SplitFmt(Around('{', x, y, '}') + ", " + z) == [['{'] + x, y + ['}'], z]
    ensures SplitFmt(Around('[', x, y, ']') + ", " + z) == [['['] + x, y + [']'], z]
    ensures SplitSig(Around('<', x, y, '>') + ", " + z) == [Around('<', x, y, '>'), z]
    ensures SplitSig(Around('(', x, y, ')') + ", " + z) == [Around('(', x, y, ')'), z]
    ensures SplitSig(Around('{', x, y, '}') + ", " + z) == [Around('{', x, y, '}'), z]
    ensures SplitSig(Around('[', x, y, ']') + ", " + z) == [Around('[', x, y, ']'), z]
  {
    hide SplitFmt, SplitSig, Delta, Unmarked, Around;
    KnownBrackets(Angles);
    KnownBrackets(AllKinds);
    PairSplits('<', x, y, '>', z);
    PairSplits('(', x, y, ')', z);
    PairSplits('{', x, y, '}', z);
    PairSplits('[', x, y, ']', z);
  }

  lemma PairSplits(open: char, x: string, y: string, close: char, z: string)
    requires Unmarked(x) && Unmarked(y) && Unmarked(z)
    requires open in {'<', '(', '{', '['} && close in {'>', ')', '}', ']'}
    requires Delta(AllKinds, open) == 1 && Delta(AllKinds, close) == -1
    requires Delta(Angles, open) == -Delta(Angles, close) && Delta(Angles, open) in {0, 1}
    ensures SplitSig(Around(open, x, y, close) + ", " + z) == [Around(open, x, y, close), z]
    ensures SplitFmt(Around(open, x, y, close) + ", " + z)
         == if Delta(Angles, open) == 1 then [Around(open, x, y, close), z] else [[open] + x, y + [close], z]
  {
    hide SplitFmt, SplitSig, Delta, Unmarked, Around;
    TwoSplit(AllKinds, open, x, y, close, z);
    if Delta(Angles, open) == 1 {
      TwoSplit(Angles, open, x, y, close, z);
    } else {
      ThreeSplit(open, x, y, close, z);
    }
  }

  lemma JoinTwo(a: string, b: string)
    ensures JoinWith([a, b], ", ") == a + ", " + b
  {
    assert [a, b][1..] == [b];
    assert JoinWith([b], ", ") == b;
  }

  lemma TwoSplit(b: Brackets, open: char, x: string, y: string, close: char, z: string)
    requires Unmarked(x) && Unmarked(y) && Unmarked(z)
    requires open in {'<', '(', '{', '['} && close in {'>', ')', '}', ']'}
    requires Delta(b, open) == 1 && Delta(b, close) == -1
    ensures b == AllKinds ==> SplitSig(Around(open, x, y, close) + ", " + z) == [Around(open, x, y, close), z]
    ensures b == Angles ==> SplitFmt(Around(open, x, y, close) + ", " + z) == [Around(open, x, y, close), z]
  {
    hide SplitFmt, SplitSig, Delta, Unmarked, CutAt, DepthAfter;
    var items := [Around(open, x, y, close), z];
    BracketsProtect(b, open, x, y, close);
    UnmarkedItem(b, z, 0);
    assert items[1..] == [z];
    assert Separable(b, [z]);
    assert Separable(b, items);
    assert items[0][0] == open && items[0][|items[0]| - 1] == close;
    assert !IsSpace(open) && !IsSpace(close);
    JoinTwo(items[0], z);
    SplittersUndoJoin(items);
  }

  lemma ThreeSplit(open: char, x: string, y: string, close: char, z: string)
    requires Unmarked(x) && Unmarked(y) && Unmarked(z)
    requires open in {'<', '(', '{', '['} && close in {'>', ')', '}', ']'}
    requires Delta(Angles, open) == 0 == Delta(Angles, close)
    ensures SplitFmt(Around(open, x, y, close) + ", " + z) == [[open] + x, y + [close], z]
  {
    hide SplitFmt, SplitSig, Delta, Unmarked, CutAt, DepthAfter;
    var a, c := [open] + x, y + [close];
    var items := [a, c, z];
    OneChar(Angles, open, 0);
    OneChar(Angles, close, 0);
    UnmarkedItem(Angles, x, 0);
    UnmarkedItem(Angles, y, 0);
    UnmarkedItem(Angles, z, 0);
    CutOfConcat(Angles, [open], x, 0);
    DepthOfConcat(Angles, [open], x, 0);
    CutOfConcat(Angles, y, [close], 0);
    DepthOfConcat(Angles, y, [close], 0);
    assert items[1..] == [c, z] && [c, z][1..] == [z];
    assert Separable(Angles, [z]);
    assert Separable(Angles, [c, z]);
    assert Separable(Angles, items);
    assert a[|a| - 1] == x[|x| - 1] && c[0] == y[0];
    assert !IsSpace(open) && !IsSpace(close);
    JoinTwo(c, z);
    assert JoinWith(items, ", ") == a + ", " + JoinWith([c, z], ", ");
    assert a + ", " + (c + ", " + z) == Around(open, x, y, close) + ", " + z;
    SplittersUndoJoin(items);
  }

  /** What stands behind the last comma: one splitter drops it if it is blank, the other only if there is nothing. */
  lemma BehindTheLastComma()
    ensures SplitFmt("a, ") == ["a"] && SplitSig("a, ") == ["a", ""]
    ensures SplitFmt("a,") == ["a"] && SplitSig("a,") == ["a"]
  {
    hide Pieces, Strip;
    CutA(Angles);
    CutA(AllKinds);
    StripA();
    assert ["a", " "][..1] == ["a"] && ["a", ""][..1] == ["a"];
    assert StripAll(["a"]) == ["a"];
  }

  lemma StripA()
    ensures Strip("a") == "a" && Strip(" ") == "" && Strip("") == ""
  {
  }

  lemma CutA(b: Brackets)
    ensures Pieces(b, "a, ") == ["a", " "] && Pieces(b, "a,") == ["a", ""]
  {
    assert "a, "[1..] == ", " && "a,"[1..] == ",";
    assert Delta(b, 'a') == 0;
    assert CutAt(b, ", ", 0) == 0 && CutAt(b, ",", 0) == 0;
    assert CutAt(b, "a, ", 0) == 1 && CutAt(b, "a,", 0) == 1;
    assert "a, "[2..] == " " && "a,"[2..] == "" && "a, "[..1] == "a" && "a,"[..1] == "a";
    assert " "[1..] == "";
    assert CutAt(b, " ", 0) == 1 && Pieces(b, " ") == [" "] && Pieces(b, "") == [""];
  }
}
