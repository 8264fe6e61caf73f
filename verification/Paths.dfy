// Path composition of generate_rest.py: join_path, collection_segment, relative_tail, and what an
// operation path means once its {parameters} have values.

module Paths {
  import opened Sequences
  import opened Wrappers

  function LStripSlash(s: string): (r: string)
    ensures r != "" ==> r[0] != '/'
  {
    if s != "" && s[0] == '/' then LStripSlash(s[1..]) else s
  }

  function RStripSlash(s: string): (r: string)
    ensures r <= s
    decreases |s|
  {
    if s != "" && s[|s| - 1] == '/' then RStripSlash(s[..|s| - 1]) else s
  }

  function JoinPath(a: string, b: string): string
  {
    if b == "" then a else RStripSlash(a) + "/" + LStripSlash(b)
  }

  function Segments(path: string): (segs: seq<string>)
    ensures segs != []
  {
    SplitOn(path, '/')
  }

  function Slashed(segs: seq<string>): string
  {
    JoinWith(segs, "/")
  }

  function NonEmpty(segs: seq<string>): seq<string>
  {
    if segs == [] then [] else (if segs[0] == "" then [] else [segs[0]]) + NonEmpty(segs[1..])
  }

  datatype Tail = Tail(segs: seq<string>, sibling: bool)

  /** The segments an operation adds to the base path, or all of them if it lives beside the base path. */
  function RelativeTail(server: string, coll: string, op: string): Tail
  {
    var full := JoinPath(server, coll);
    var absp := JoinPath(server, op);
    if coll != "" && StartsWith(absp, full + "/") then Tail(NonEmpty(Segments(absp[|full| + 1..])), false)
    else if coll != "" && absp == full then Tail([], false)
    else Tail(NonEmpty(Segments(LStripSlash(absp))), true)
  }

  // ----- Parameters

  predicate IsParam(seg: string)
  {
    |seg| >= 2 && seg[0] == '{' && seg[|seg| - 1] == '}'
  }

  predicate BraceFree(s: string)
  {
    forall k :: 0 <= k < |s| ==> s[k] != '{' && s[k] != '}'
  }

  /** A literal without braces, or one pair of braces around the whole segment. */
  predicate WholeSegment(seg: string)
  {
    BraceFree(seg) || (IsParam(seg) && BraceFree(seg[1..|seg| - 1]))
  }

  predicate AllWhole(segs: seq<string>)
  {
    forall k :: 0 <= k < |segs| ==> WholeSegment(segs[k])
  }

  function ParamCount(segs: seq<string>): (n: nat)
    ensures n <= |segs|
  {
    if segs == [] then 0 else (if IsParam(segs[0]) then 1 else 0) + ParamCount(segs[1..])
  }

  /** The segments with their parameters replaced by values, in order. */
  function Fill(segs: seq<string>, vals: seq<string>): (r: seq<string>)
    requires |vals| >= ParamCount(segs)
    ensures |r| == |segs|
  {
    if segs == [] then []
    else if IsParam(segs[0]) then [vals[0]] + Fill(segs[1..], vals[1..])
    else [segs[0]] + Fill(segs[1..], vals)
  }

  /** What a path stands for. */
  function Meaning(path: string, vals: seq<string>): string
    requires |vals| >= ParamCount(Segments(path))
  {
    Slashed(Fill(Segments(path), vals))
  }

  lemma {:induction false} ParamsOfConcat(a: seq<string>, b: seq<string>)
    ensures ParamCount(a + b) == ParamCount(a) + ParamCount(b)
  {
    if a == [] {
      assert a + b == b;
    } else {
      assert (a + b)[1..] == a[1..] + b;
      ParamsOfConcat(a[1..], b);
    }
  }

  /** Literal segments in front are left alone. */
  lemma {:induction false} FillOfConcat(a: seq<string>, b: seq<string>, vals: seq<string>)
    requires ParamCount(a) == 0 && |vals| >= ParamCount(b)
    ensures ParamCount(a + b) == ParamCount(b)
    ensures Fill(a + b, vals) == a + Fill(b, vals)
  {
    hide IsParam;
    ParamsOfConcat(a, b);
    if a == [] {
      assert a + b == b;
      assert [] + Fill(b, vals) == Fill(b, vals);
    } else {
      var s := a + b;
      FillOfConcat(a[1..], b, vals);
      assert s[0] == a[0] && s[1..] == a[1..] + b;
      assert Fill(s, vals) == [a[0]] + Fill(s[1..], vals);
      assert [a[0]] + (a[1..] + Fill(b, vals)) == a + Fill(b, vals);
    }
  }

  lemma {:induction false} ParamsOfNonEmpty(segs: seq<string>)
    ensures ParamCount(NonEmpty(segs)) == ParamCount(segs)
  {
    if segs != [] {
      ParamsOfNonEmpty(segs[1..]);
      var rest := NonEmpty(segs[1..]);
      if segs[0] == "" {
        assert NonEmpty(segs) == rest;
      } else {
        assert NonEmpty(segs)[1..] == rest;
      }
    }
  }

  lemma {:induction false} NonEmptyAlready(segs: seq<string>)
    requires forall k :: 0 <= k < |segs| ==> segs[k] != ""
    ensures NonEmpty(segs) == segs
  {
    if segs != [] {
      NonEmptyAlready(segs[1..]);
    }
  }

  lemma {:induction false} BraceFreeHasNoParams(s: string)
    requires BraceFree(s)
    ensures ParamCount(Segments(s)) == 0 && AllWhole(Segments(s))
  {
    PiecesBraceFree(s);
    NoParams(Segments(s));
  }

  lemma {:induction false} PiecesBraceFree(s: string)
    requires BraceFree(s)
    ensures forall k :: 0 <= k < |Segments(s)| ==> BraceFree(Segments(s)[k])
  {
    if s != "" {
      PiecesBraceFree(s[1..]);
      var rest := Segments(s[1..]);
      forall k | 0 <= k < |Segments(s)| ensures BraceFree(Segments(s)[k]) {
        if k > 0 {
          assert Segments(s)[k] == if s[0] == '/' then rest[k - 1] else rest[k];
        }
      }
    }
  }

  lemma {:induction false} NoParams(segs: seq<string>)
    requires forall k :: 0 <= k < |segs| ==> BraceFree(segs[k])
    ensures ParamCount(segs) == 0
  {
    if segs != [] {
      NoParams(segs[1..]);
    }
  }

  /** Leading slashes only add empty segments. */
  lemma {:induction false} LStripKeepsParams(s: string)
    ensures ParamCount(Segments(LStripSlash(s))) == ParamCount(Segments(s))
    ensures NonEmpty(Segments(LStripSlash(s))) == NonEmpty(Segments(s))
    ensures AllWhole(Segments(s)) ==> AllWhole(Segments(LStripSlash(s)))
  {
    if s != "" && s[0] == '/' {
      LStripKeepsParams(s[1..]);
      assert Segments(s)[1..] == Segments(s[1..]);
      if AllWhole(Segments(s)) {
        forall k | 0 <= k < |Segments(s[1..])| ensures WholeSegment(Segments(s[1..])[k]) {
          assert Segments(s[1..])[k] == Segments(s)[k + 1];
        }
      }
    }
  }

  // ----- collection_segment

  /** The position of the first "/{", or the length. */
  function FirstParam(s: string): (n: nat)
    ensures n <= |s|
  {
    if s == "" || StartsWith(s, "/{") then 0 else 1 + FirstParam(s[1..])
  }

  /** The collection named in the markup, or else the anchor up to its first parameter. */
  function CollectionSegment(anchor: string, markup: Option<string>): string
  {
    if markup.Some? then markup.value else anchor[..FirstParam(anchor)]
  }

  /** A derived collection holds no braces if the anchor has them around whole segments only. */
  lemma DerivedCollectionBraceFree(anchor: string)
    requires AllWhole(Segments(anchor)) && !StartsWith(anchor, "{")
    ensures BraceFree(CollectionSegment(anchor, None))
  {
    BeforeFirstParam(anchor);
  }

  lemma {:induction false} BeforeFirstParam(s: string)
    requires AllWhole(Segments(s)) && BraceFree(Segments(s)[0])
    ensures BraceFree(s[..FirstParam(s)])
  {
    if s != "" && !StartsWith(s, "/{") {
      var rest := Segments(s[1..]);
      var n := FirstParam(s[1..]);
      if s[0] == '/' {
        assert forall k :: 0 <= k < |rest| ==> rest[k] == Segments(s)[k + 1];
        assert WholeSegment(rest[0]);
        FirstCharOfSegment(s[1..]);
        assert s[1..] != "" ==> s[..2] == ['/', s[1]];
      } else {
        assert Segments(s)[0] == [s[0]] + rest[0];
        assert forall k :: 0 <= k < |rest[0]| ==> rest[0][k] == Segments(s)[0][k + 1];
        assert Segments(s)[0][0] == s[0];
        assert forall k :: 1 <= k < |rest| ==> rest[k] == Segments(s)[k];
      }
      BeforeFirstParam(s[1..]);
      assert s[..n + 1] == [s[0]] + s[1..][..n];
    }
  }

  lemma FirstCharOfSegment(s: string)
    ensures Segments(s)[0] != "" ==> s != "" && Segments(s)[0][0] == s[0]
  {
  }
}
