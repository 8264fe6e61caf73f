// The step that _binpack and _reflow_comments share: put words on a line while they fit. The greedy
// split of a word list uses as few lines as any order-preserving split can.

module GreedyPack {
  import opened Sequences

  /** The column limit. */
  const COL := 100

  /** No line is over the limit. */
  predicate AllFit(lines: seq<string>)
  {
    forall k :: 0 <= k < |lines| ==> |lines[k]| <= COL
  }

  /** How many of `ws` still fit, each after one space, on a line that is `len` columns long. */
  function Take(len: nat, ws: seq<string>): (k: nat)
    ensures k <= |ws|
    decreases |ws|
  {
    if ws == [] || len + 1 + |ws[0]| > COL then 0
    else 1 + Take(len + 1 + |ws[0]|, ws[1..])
  }

  /** The size of the first line: one word whatever its length, then what fits. */
  function FirstLine(pre: nat, ws: seq<string>): (k: nat)
    requires ws != []
    ensures 1 <= k <= |ws|
  {
    1 + Take(pre + |ws[0]|, ws[1..])
  }

  /** The greedy split, with `pre` columns taken on the first line and `cont` on the others. */
  function Greedy(pre: nat, cont: nat, ws: seq<string>): (lines: seq<seq<string>>)
    requires ws != []
    ensures lines != []
    decreases |ws|
  {
    var k := FirstLine(pre, ws);
    if k == |ws| then [ws] else [ws[..k]] + Greedy(cont, cont, ws[k..])
  }

  function Text(line: seq<string>): string
  {
    JoinWith(line, " ")
  }

  function Flat(lines: seq<seq<string>>): seq<string>
  {
    if lines == [] then [] else lines[0] + Flat(lines[1..])
  }

  /** A line is acceptable if it fits or cannot be broken. */
  ghost predicate Acceptable(pre: nat, line: seq<string>)
  {
    line != [] && (|line| > 1 ==> pre + |Text(line)| <= COL)
  }

  /** `lines` splits `ws` in order into acceptable lines. */
  ghost predicate IsSplit(pre: nat, cont: nat, ws: seq<string>, lines: seq<seq<string>>)
  {
    && lines != []
    && Flat(lines) == ws
    && Acceptable(pre, lines[0])
    && forall i :: 1 <= i < |lines| ==> Acceptable(cont, lines[i])
  }

  // ----- Lengths

  /** The columns that `ws` add behind a line. */
  function Extra(ws: seq<string>): nat
  {
    if ws == [] then 0 else 1 + |ws[0]| + Extra(ws[1..])
  }

  lemma {:induction false} TextLength(ws: seq<string>)
    requires ws != []
    ensures |Text(ws)| == |ws[0]| + Extra(ws[1..])
  {
    if |ws| > 1 {
      TextLength(ws[1..]);
    }
  }

  lemma {:induction false} ExtraOfSuffix(ws: seq<string>, j: nat)
    requires j <= |ws|
    ensures Extra(ws[j..]) <= Extra(ws)
  {
    if j > 0 {
      assert ws[1..][j - 1..] == ws[j..];
      ExtraOfSuffix(ws[1..], j - 1);
    }
  }

  /** What is taken fits, and nothing more would. */
  lemma {:induction false} TakeIsExact(len: nat, ws: seq<string>, m: nat)
    requires m <= |ws|
    ensures m > 0 ==> (m <= Take(len, ws) <==> len + Extra(ws[..m]) <= COL)
    decreases |ws|
  {
    if m > 0 {
      assert ws[..m][1..] == ws[1..][..m - 1];
      TakeIsExact(len + 1 + |ws[0]|, ws[1..], m - 1);
      if m == 1 {
        assert ws[1..][..0] == [];
      }
    }
  }

  /** The first line takes `m` words or more exactly if `m` words are acceptable. */
  lemma FirstLineIsExact(pre: nat, ws: seq<string>, m: nat)
    requires 1 <= m <= |ws|
    ensures m <= FirstLine(pre, ws) <==> Acceptable(pre, ws[..m])
  {
    TextLength(ws[..m]);
    assert ws[..m][1..] == ws[1..][..m - 1];
    TakeIsExact(pre + |ws[0]|, ws[1..], m - 1);
  }

  // ----- Validity and optimality

  lemma {:induction false} GreedyIsSplit(pre: nat, cont: nat, ws: seq<string>)
    requires ws != []
    ensures IsSplit(pre, cont, ws, Greedy(pre, cont, ws))
    decreases |ws|
  {
    var k := FirstLine(pre, ws);
    FirstLineIsExact(pre, ws, k);
    if k == |ws| {
      assert ws[..k] == ws;
      assert Flat([ws]) == ws + Flat([]);
    } else {
      GreedyIsSplit(cont, cont, ws[k..]);
      var rest := Greedy(cont, cont, ws[k..]);
      var lines := [ws[..k]] + rest;
      assert lines[1..] == rest;
      assert ws == ws[..k] + ws[k..];
      forall i | 1 <= i < |lines| ensures Acceptable(cont, lines[i]) {
        assert lines[i] == rest[i - 1];
      }
    }
  }

  /** Dropping words from the front never costs a line. */
  lemma {:induction false} FewerWordsFewerLines(cont: nat, ws: seq<string>, j: nat)
    requires j < |ws|
    ensures |Greedy(cont, cont, ws[j..])| <= |Greedy(cont, cont, ws)|
    decreases |ws|
  {
    var k := FirstLine(cont, ws);
    if j == 0 {
      assert ws[0..] == ws;
    } else if k == |ws| {
      SuffixFits(cont, ws, j, k);
      assert ws[j..][..k - j] == ws[j..];
    } else if j >= k {
      assert ws[k..][j - k..] == ws[j..];
      FewerWordsFewerLines(cont, ws[k..], j - k);
    } else {
      SuffixFits(cont, ws, j, k);
      var k' := FirstLine(cont, ws[j..]);
      if j + k' < |ws| {
        assert ws[j..][k'..] == ws[j + k'..];
        assert ws[k..][j + k' - k..] == ws[j + k'..];
        FewerWordsFewerLines(cont, ws[k..], j + k' - k);
      }
    }
  }

  /** A first line shortened at the front still reaches as far. */
  lemma SuffixFits(cont: nat, ws: seq<string>, j: nat, k: nat)
    requires ws != [] && 0 < j < k == FirstLine(cont, ws)
    ensures j + FirstLine(cont, ws[j..]) >= k
  {
    FirstLineIsExact(cont, ws, k);
    var part := ws[..k];
    TextLength(part);
    TextLength(part[j..]);
    assert part[1..][j - 1..] == part[j..];
    ExtraOfSuffix(part[1..], j - 1);
    assert ws[j..][..k - j] == part[j..];
    FirstLineIsExact(cont, ws[j..], k - j);
  }

  /** No order-preserving split into acceptable lines has fewer lines than the greedy one. */
  lemma {:induction false} GreedyIsOptimal(pre: nat, cont: nat, ws: seq<string>, lines: seq<seq<string>>)
    requires ws != [] && IsSplit(pre, cont, ws, lines)
    ensures |Greedy(pre, cont, ws)| <= |lines|
    decreases |ws|
  {
    var m := |lines[0]|;
    var k := FirstLine(pre, ws);
    assert ws[..m] == lines[0];
    FirstLineIsExact(pre, ws, m);
    if k < |ws| {
      var rest := lines[1..];
      assert ws[m..] == Flat(rest);
      assert rest != [];
      forall i | 0 <= i < |rest| ensures Acceptable(cont, rest[i]) {
        assert rest[i] == lines[i + 1];
      }
      assert IsSplit(cont, cont, ws[m..], rest);
      GreedyIsOptimal(cont, cont, ws[m..], rest);
      assert ws[m..][k - m..] == ws[k..];
      FewerWordsFewerLines(cont, ws[m..], k - m);
    }
  }
}
