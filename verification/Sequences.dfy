// Splitting, joining and overwriting of sequences, shared by several components.

module Sequences {

  /** Python's s.split(sep) for a one-element separator: never empty, empty pieces kept. */
  function SplitOn<T(==)>(s: seq<T>, sep: T): (parts: seq<seq<T>>)
    ensures |parts| >= 1
  {
    if s == [] then [[]]
    else if s[0] == sep then [[]] + SplitOn(s[1..], sep)
    else
      var rest := SplitOn(s[1..], sep);
      [[s[0]] + rest[0]] + rest[1..]
  }

  /** Python's sep.join(parts). */
  function JoinWith<T>(parts: seq<seq<T>>, sep: seq<T>): seq<T>
  {
    if parts == [] then []
    else if |parts| == 1 then parts[0]
    else parts[0] + sep + JoinWith(parts[1..], sep)
  }

  /** Glue `cur` to the front of the first piece. */
  function Prepend<T>(cur: seq<T>, parts: seq<seq<T>>): seq<seq<T>>
    requires parts != []
  {
    [cur + parts[0]] + parts[1..]
  }

  // What one turn of a splitting loop does, with `cur` the piece collected so far.

  lemma SplitEnds<T>(cur: seq<T>, sep: T)
    ensures Prepend(cur, SplitOn([], sep)) == [cur]
  {
    assert cur + [] == cur;
  }

  lemma SplitCuts<T>(cur: seq<T>, s: seq<T>, sep: T)
    requires s != [] && s[0] == sep
    ensures Prepend(cur, SplitOn(s, sep)) == [cur] + Prepend([], SplitOn(s[1..], sep))
  {
    assert cur + [] == cur;
    var rest := SplitOn(s[1..], sep);
    assert [] + rest[0] == rest[0];
    assert SplitOn(s, sep)[1..] == rest;
    assert Prepend([], rest) == rest;
  }

  lemma SplitGrows<T>(cur: seq<T>, s: seq<T>, sep: T)
    requires s != [] && s[0] != sep
    ensures Prepend(cur, SplitOn(s, sep)) == Prepend(cur + [s[0]], SplitOn(s[1..], sep))
  {
    var rest := SplitOn(s[1..], sep);
    assert SplitOn(s, sep) == Prepend([s[0]], rest);
    hide SplitOn;
    PrependTwice(cur, [s[0]], rest);
  }

  lemma PrependTwice<T>(cur: seq<T>, more: seq<T>, parts: seq<seq<T>>)
    requires parts != []
    ensures Prepend(cur, Prepend(more, parts)) == Prepend(cur + more, parts)
  {
    assert cur + (more + parts[0]) == cur + more + parts[0];
    assert Prepend(more, parts)[1..] == parts[1..];
  }

  lemma PrependNothing<T>(parts: seq<seq<T>>)
    requires parts != []
    ensures Prepend([], parts) == parts
  {
    assert [] + parts[0] == parts[0];
  }

  ghost predicate Free<T>(s: seq<T>, x: T)
  {
    forall k :: 0 <= k < |s| ==> s[k] != x
  }

  lemma {:induction false} SplitPlain<T>(s: seq<T>, sep: T)
    requires Free(s, sep)
    ensures SplitOn(s, sep) == [s]
  {
    if s != [] {
      SplitPlain(s[1..], sep);
      assert s == [s[0]] + s[1..];
    }
  }

  lemma {:induction false} SplitOfConcat<T>(a: seq<T>, b: seq<T>, sep: T)
    ensures SplitOn(a + [sep] + b, sep) == SplitOn(a, sep) + SplitOn(b, sep)
  {
    var s := a + [sep] + b;
    if a == [] {
      assert s[1..] == b;
    } else {
      assert s[1..] == a[1..] + [sep] + b;
      SplitOfConcat(a[1..], b, sep);
    }
  }

  /** Joining pieces and splitting again gives the pieces back, provided the separator is in none of them. */
  lemma {:induction false} SplitOfJoin<T>(parts: seq<seq<T>>, sep: T)
    requires parts != []
    requires forall k :: 0 <= k < |parts| ==> Free(parts[k], sep)
    ensures SplitOn(JoinWith(parts, [sep]), sep) == parts
  {
    SplitPlain(parts[0], sep);
    if |parts| > 1 {
      SplitOfConcat(parts[0], JoinWith(parts[1..], [sep]), sep);
      SplitOfJoin(parts[1..], sep);
    }
  }

  lemma {:induction false} JoinOfSplit<T>(s: seq<T>, sep: T)
    ensures JoinWith(SplitOn(s, sep), [sep]) == s
    ensures forall k :: 0 <= k < |SplitOn(s, sep)| ==> Free(SplitOn(s, sep)[k], sep)
  {
    if s != [] {
      JoinOfSplit(s[1..], sep);
      var rest := SplitOn(s[1..], sep);
      var parts := SplitOn(s, sep);
      if s[0] == sep {
        assert parts[1..] == rest;
      } else if |rest| > 1 {
        assert parts[1..] == rest[1..];
        assert s == [s[0]] + s[1..];
      }
    }
  }

  lemma {:induction false} JoinOfConcat<T>(a: seq<seq<T>>, b: seq<seq<T>>, sep: seq<T>)
    requires a != [] && b != []
    ensures JoinWith(a + b, sep) == JoinWith(a, sep) + sep + JoinWith(b, sep)
  {
    if |a| > 1 {
      assert (a + b)[1..] == a[1..] + b;
      JoinOfConcat(a[1..], b, sep);
    } else {
      assert (a + b)[1..] == b;
    }
  }

  /** A file after `v` is written at its start: what lies behind the end of `v` stays. */
  function Overlay<T>(file: seq<T>, v: seq<T>): seq<T>
  {
    if |v| < |file| then v + file[|v|..] else v
  }

  predicate StartsWith(s: string, p: string)
  {
    |p| <= |s| && s[..|p|] == p
  }

  lemma Differs(s: string, p: string, k: nat)
    requires k < |s| && k < |p| && s[k] != p[k]
    ensures !StartsWith(s, p)
  {
    if |p| <= |s| {
      assert s[..|p|][k] == s[k];
    }
  }
}
