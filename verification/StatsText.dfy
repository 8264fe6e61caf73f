// The text of a counter file of clang_tidy_cache.py: two decimal numbers and a newline.

module StatsText {
  import opened Sequences
  import opened Whitespace
  import opened Wrappers

  function Dec(n: nat): (s: string)
    ensures s != ""
  {
    (if n < 10 then "" else Dec(n / 10)) + [Digit(n % 10)]
  }

  function Digit(k: nat): (c: char)
    requires k < 10
    ensures '0' <= c <= '9' && c as int - '0' as int == k
  {
    '0' + k as char
  }

  predicate IsNumber(s: string)
  {
    s != "" && forall k :: 0 <= k < |s| ==> '0' <= s[k] <= '9'
  }

  function Value(s: string): nat
    requires forall k :: 0 <= k < |s| ==> '0' <= s[k] <= '9'
  {
    if s == "" then 0 else 10 * Value(s[..|s| - 1]) + (s[|s| - 1] as int - '0' as int)
  }

  function Text(hits: nat, misses: nat): string
  {
    Dec(hits) + " " + Dec(misses) + "\n"
  }

  /** read_from_file: anything but two words counts as zeros; a word that is no number is a ValueError. */
  function ReadText(s: string): Outcome<(nat, nat)>
  {
    var ws := Words(s);
    if |ws| != 2 then Returned((0, 0))
    else if IsNumber(ws[0]) && IsNumber(ws[1]) then Returned((Value(ws[0]), Value(ws[1])))
    else Raised
  }

  lemma NumberGrows(s: string, k: nat)
    requires k < 10 && (s == "" || IsNumber(s))
    ensures IsNumber(s + [Digit(k)])
    ensures Value(s + [Digit(k)]) == 10 * Value(s) + k
  {
    var t := s + [Digit(k)];
    assert t[..|t| - 1] == s;
  }

  lemma {:induction false} DecIsNumber(n: nat)
    ensures IsNumber(Dec(n))
    ensures Value(Dec(n)) == n
  {
    hide IsNumber, Value, Digit;
    if n < 10 {
      NumberGrows("", n);
      NoDigits();
      assert "" + [Digit(n)] == [Digit(n)];
    } else {
      DecIsNumber(n / 10);
      NumberGrows(Dec(n / 10), n % 10);
    }
  }

  lemma NoDigits()
    ensures Value("") == 0
  {
  }

  lemma NumberIsWord(s: string)
    requires IsNumber(s)
    ensures IsWord(s)
  {
  }

  lemma SpacesBehind(w: string, blank: char, rest: string)
    requires IsWord(w) && IsSpace(blank)
    ensures Words(w + [blank] + rest) == [w] + Words(rest)
  {
    hide IsSpace;
    assert w + [blank] + rest == w + ([blank] + rest);
    WordsCons(w, [blank] + rest);
    assert ([blank] + rest)[1..] == rest;
  }

  /** Reading what was written gives the numbers back. */
  lemma ReadOfText(hits: nat, misses: nat)
    ensures ReadText(Text(hits, misses)) == Returned((hits, misses))
  {
    hide Dec, IsNumber, Value, Words;
    DecIsNumber(hits);
    DecIsNumber(misses);
    NumberIsWord(Dec(hits));
    NumberIsWord(Dec(misses));
    var tail := Dec(misses) + "\n";
    assert Text(hits, misses) == Dec(hits) + [' '] + tail;
    Blanks();
    SpacesBehind(Dec(hits), ' ', tail);
    assert tail == Dec(misses) + ['\n'] + "";
    SpacesBehind(Dec(misses), '\n', "");
    NoWords();
  }

  lemma Blanks()
    ensures IsSpace(' ') && IsSpace('\n')
  {
  }

  lemma NoWords()
    ensures Words("") == [] && ReadText("") == Returned((0, 0))
  {
  }

  lemma {:induction false} DecGrows(m: nat, n: nat)
    requires m <= n
    ensures |Dec(m)| <= |Dec(n)|
  {
    if m >= 10 {
      DecGrows(m / 10, n / 10);
    }
  }

  /** Counters only grow, so new text covers the old and the truncation after it removes nothing. */
  lemma NewTextCovers(h: nat, m: nat, h': nat, m': nat)
    requires h <= h' && m <= m'
    ensures Overlay(Text(h, m), Text(h', m')) == Text(h', m')
  {
    DecGrows(h, h');
    DecGrows(m, m');
  }
}
