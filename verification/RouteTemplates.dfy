// templatize of route_registry.cpp, and the whole way round: compile a path, call it with the sentinel for
// every argument, and turn the recorded request back into the path.

module RouteTemplates {
  import opened Sequences
  import opened Paths
  import opened CppExpr
  import opened PathCompiler

  const SENTINEL := "__ID__"

  /** path.substr(0, path.find('?')) */
  function BeforeQuery(path: string): (p: string)
    ensures p <= path
  {
    if path == "" || path[0] == '?' then "" else [path[0]] + BeforeQuery(path[1..])
  }

  function TemplateSegment(seg: string): string
  {
    if seg == SENTINEL then "{id}" else seg
  }

  function TemplateSegments(segs: seq<string>): (r: seq<string>)
    ensures |r| == |segs|
    ensures forall k :: 0 <= k < |segs| ==> r[k] == TemplateSegment(segs[k])
  {
    seq(|segs|, k requires 0 <= k < |segs| => TemplateSegment(segs[k]))
  }

  function Templatize(path: string): string
  {
    Slashed(TemplateSegments(Segments(BeforeQuery(path))))
  }

  // ----- The source's form

  /** p.find('/', start), or the length. */
  method FindSlash(p: string, start: nat) returns (slash: nat)
    requires start <= |p|
    ensures start <= slash <= |p|
    ensures slash < |p| ==> p[slash] == '/'
    ensures Free(p[start..slash], '/')
  {
    slash := start;
    while slash < |p| && p[slash] != '/'
      invariant start <= slash <= |p|
      invariant forall k :: start <= k < slash ==> p[k] != '/'
    {
      slash := slash + 1;
    }
  }

  lemma TemplateFirst(seg: string, rest: string)
    requires Free(seg, '/')
    ensures Slashed(TemplateSegments(Segments(seg + "/" + rest)))
         == TemplateSegment(seg) + "/" + Slashed(TemplateSegments(Segments(rest)))
  {
    SplitPlain(seg, '/');
    SplitOfConcat(seg, rest, '/');
    assert seg + ['/'] + rest == seg + "/" + rest;
    var ts := TemplateSegments(Segments(rest));
    assert TemplateSegments([seg] + Segments(rest)) == [TemplateSegment(seg)] + ts;
    assert ([TemplateSegment(seg)] + ts)[1..] == ts;
  }

  lemma TemplateLast(seg: string)
    requires Free(seg, '/')
    ensures Slashed(TemplateSegments(Segments(seg))) == TemplateSegment(seg)
  {
    SplitPlain(seg, '/');
  }

  method TemplatizePath(path: string) returns (out: string)
    ensures out == Templatize(path)
  {
    hide TemplateSegments, Segments, Slashed, BeforeQuery;
    var p := BeforeQuery(path);
    out := "";
    var start := 0;
    assert p[0..] == p;
    while start <= |p|
      invariant 0 <= start <= |p|
      invariant out + Slashed(TemplateSegments(Segments(p[start..]))) == Templatize(path)
      decreases |p| - start
    {
      var slash := FindSlash(p, start);
      var seg := p[start..slash];
      if slash == |p| {
        assert seg == p[start..];
        TemplateLast(seg);
        out := out + TemplateSegment(seg);
        break;
      }
      assert p[start..] == seg + (['/'] + p[slash + 1..]);
      assert p[start..] == seg + "/" + p[slash + 1..];
      TemplateFirst(seg, p[slash + 1..]);
      out := out + TemplateSegment(seg) + "/";
      start := slash + 1;
    }
  }

  // ----- Recovering the path

  /** The path with every parameter called id. */
  function Renamed(path: string): string
  {
    Slashed(RenamedSegments(Segments(path)))
  }

  function RenamedSegments(segs: seq<string>): (r: seq<string>)
    ensures |r| == |segs|
  {
    seq(|segs|, k requires 0 <= k < |segs| => if IsParam(segs[k]) then "{id}" else segs[k])
  }

  function Sentinels(n: nat): (vals: seq<string>)
    ensures |vals| == n
    ensures forall k :: 0 <= k < n ==> vals[k] == SENTINEL
  {
    seq(n, k => SENTINEL)
  }

  lemma {:induction false} FillWithSentinels(segs: seq<string>, vals: seq<string>)
    requires |vals| >= ParamCount(segs) && forall k :: 0 <= k < |vals| ==> vals[k] == SENTINEL
    ensures forall k :: 0 <= k < |segs| ==> Fill(segs, vals)[k] == if IsParam(segs[k]) then SENTINEL else segs[k]
    decreases |segs|
  {
    hide IsParam;
    if segs != [] {
      var vals' := if IsParam(segs[0]) then vals[1..] else vals;
      FillWithSentinels(segs[1..], vals');
      forall k | 1 <= k < |segs| ensures Fill(segs, vals)[k] == if IsParam(segs[k]) then SENTINEL else segs[k] {
        assert Fill(segs, vals)[k] == Fill(segs[1..], vals')[k - 1];
        assert segs[1..][k - 1] == segs[k];
      }
    }
  }

  lemma SentinelSegments(path: string)
    ensures var vals := Sentinels(ParamCount(Segments(path)));
            && Segments(Meaning(path, vals)) == Fill(Segments(path), vals)
  {
    var segs := Segments(path);
    var vals := Sentinels(ParamCount(segs));
    JoinOfSplit(path, '/');
    FillWithSentinels(segs, vals);
    SentinelIsPlain();
    SplitOfJoin(Fill(segs, vals), '/');
  }

  lemma SentinelIsPlain()
    ensures Free(SENTINEL, '/') && Free(SENTINEL, '?') && !IsParam(SENTINEL)
  {
  }

  lemma {:induction false} NoQuery(p: string)
    requires Free(p, '?')
    ensures BeforeQuery(p) == p
  {
    if p != "" {
      NoQuery(p[1..]);
    }
  }

  lemma {:induction false} JoinFree(segs: seq<string>, c: char)
    requires c != '/' && forall k :: 0 <= k < |segs| ==> Free(segs[k], c)
    ensures Free(Slashed(segs), c)
  {
    if |segs| > 1 {
      JoinFree(segs[1..], c);
    }
  }

  lemma {:induction false} PiecesFree(s: string, c: char)
    requires Free(s, c)
    ensures forall k :: 0 <= k < |Segments(s)| ==> Free(Segments(s)[k], c)
  {
    if s != "" {
      PiecesFree(s[1..], c);
      var rest := Segments(s[1..]);
      forall k | 0 <= k < |Segments(s)| ensures Free(Segments(s)[k], c) {
        if k > 0 {
          assert Segments(s)[k] == if s[0] == '/' then rest[k - 1] else rest[k];
        }
      }
    }
  }

  ghost predicate HasLiteralSentinel(path: string)
  {
    exists k :: 0 <= k < |Segments(path)| && Segments(path)[k] == SENTINEL
  }

  /**
   * Filling a path with sentinels and templatizing it gives the path back with its parameters renamed,
   * exactly when no segment of the path is itself the sentinel.
   */
  lemma TemplateOfFilled(path: string)
    requires Free(path, '?')
    ensures Templatize(Meaning(path, Sentinels(ParamCount(Segments(path))))) == Renamed(path)
       <==> !HasLiteralSentinel(path)
  {
    hide Segments, IsParam;
    var segs := Segments(path);
    var vals := Sentinels(ParamCount(segs));
    var filled := Fill(segs, vals);
    SentinelSegments(path);
    FillWithSentinels(segs, vals);
    SentinelIsPlain();
    PiecesFree(path, '?');
    forall k | 0 <= k < |filled| ensures Free(filled[k], '?') {
      assert filled[k] == SENTINEL || filled[k] == segs[k];
    }
    JoinFree(filled, '?');
    NoQuery(Meaning(path, vals));
    var got, want := TemplateSegments(filled), RenamedSegments(segs);
    assert Templatize(Meaning(path, vals)) == Slashed(got);
    SegmentsAreSlashFree(path);
    PlainTemplates(path, got, want);
    if HasLiteralSentinel(path) {
      var k :| 0 <= k < |segs| && segs[k] == SENTINEL;
      assert got[k] == "{id}" && want[k] == SENTINEL;
      assert got != want;
    } else {
      assert got == want;
    }
  }

  lemma SegmentsAreSlashFree(path: string)
    ensures forall k :: 0 <= k < |Segments(path)| ==> Free(Segments(path)[k], '/')
  {
    JoinOfSplit(path, '/');
  }

  /** Two slash-free segment lists that join to the same path are the same. */
  lemma PlainTemplates(path: string, got: seq<string>, want: seq<string>)
    requires got != [] && want != []
    requires forall k :: 0 <= k < |Segments(path)| ==> Free(Segments(path)[k], '/')
    requires |got| == |want| == |Segments(path)|
    requires forall k :: 0 <= k < |got| ==> got[k] == "{id}" || got[k] == Segments(path)[k]
    requires forall k :: 0 <= k < |want| ==> want[k] == "{id}" || want[k] == Segments(path)[k]
    ensures Slashed(got) == Slashed(want) ==> got == want
  {
    hide Segments;
    assert Free("{id}", '/');
    SplitOfJoin(got, '/');
    SplitOfJoin(want, '/');
  }

  lemma {:induction false} BeforeQueryIs(p: string, query: string)
    requires Free(p, '?')
    ensures BeforeQuery(p + "?" + query) == p
  {
    var t := p + "?" + query;
    if p == "" {
      assert t[0] == '?';
    } else {
      assert t[1..] == p[1..] + "?" + query;
      BeforeQueryIs(p[1..], query);
    }
  }

  /** The query of a request makes no difference to its template. */
  lemma QueryIsDropped(path: string, query: string)
    requires Free(path, '?')
    ensures Templatize(path + "?" + query) == Templatize(path)
  {
    hide Segments, TemplateSegments;
    BeforeQueryIs(path, query);
    NoQuery(path);
  }

  // ----- With the base path hidden

  /** Templating what starts with a sentinel starts with a brace. */
  lemma SentinelFirst(rest: string)
    requires Free(rest, '?')
    ensures var r := Templatize(SENTINEL + "/" + rest);
            r != "" && r[0] == '{'
  {
    hide Segments, TemplateSegments;
    SentinelIsPlain();
    var text := SENTINEL + "/" + rest;
    assert Free(text, '?');
    NoQuery(text);
    TemplateFirst(SENTINEL, rest);
  }

  /** A renamed path whose first segment has no braces does not start with one. */
  lemma RenamedStart(path: string, first: string)
    requires |Segments(path)| > 1 && Segments(path)[0] == first && BraceFree(first)
    ensures var r := Renamed(path);
            r != "" && r[0] != '{'
  {
    hide Segments;
    var segs := RenamedSegments(Segments(path));
    assert !IsParam(first);
    assert segs[0] == first;
    assert Slashed(segs) == first + "/" + Slashed(segs[1..]);
  }

  lemma FirstOfBraceFree(full: string)
    requires BraceFree(full)
    ensures BraceFree(Segments(full)[0])
  {
    PiecesFree(full, '{');
    PiecesFree(full, '}');
  }

  /** Where a parameter hides the member, the request starts with the sentinel and is not the path. */
  lemma HiddenRouteLost(server: string, coll: string, op: string)
    requires Compilable(server, coll, op) && Free(JoinPath(server, op), '?') && HidesBase(server, coll, op)
    ensures (CompiledArgs(server, coll, op);
             var c := Compile(server, coll, op);
             var r := Eval(c.expr, Scope(JoinPath(server, coll), c.args, Sentinels(|c.args|)));
             r.Value? && Templatize(r.text) != Renamed(JoinPath(server, op)))
  {
    hide Eval, Segments, HidesBase, Fill, Templatize, Renamed, RelTerms, ArgNames, RelativeTail, Behind;
    CompiledArgs(server, coll, op);
    HidesBaseMeans(server, coll, op);
    var c := Compile(server, coll, op);
    var full, absp := JoinPath(server, coll), JoinPath(server, op);
    var segs := RelativeTail(server, coll, op).segs;
    var vals := Sentinels(|c.args|);
    var env := Scope(full, c.args, vals);
    ScopeBinds(full, c.args, vals);
    var k :| 0 <= k < |c.args| && c.args[k] == BASE;
    assert env[BASE] == SENTINEL;
    RelativeMeans(server, coll, op, c.args, vals, env);
    RelativePath(server, coll, op);
    HasParam(segs);
    FilledIsPlain(full, absp, Behind(server, coll, op), vals);
    LostText(full, absp, segs, vals);
  }

  lemma HasParam(segs: seq<string>)
    ensures ParamCount(segs) > 0 ==> segs != []
  {
  }

  lemma {:induction false} NonEmptyAmong(segs: seq<string>)
    ensures forall k :: 0 <= k < |NonEmpty(segs)| ==> NonEmpty(segs)[k] in segs
  {
    if segs != [] {
      NonEmptyAmong(segs[1..]);
      assert segs == [segs[0]] + segs[1..];
    }
  }

  /** The segments behind a collection, filled in, hold neither a query nor slashes. */
  lemma FilledIsPlain(full: string, absp: string, behind: seq<string>, vals: seq<string>)
    requires Free(absp, '?') && Segments(absp) == Segments(full) + behind
    requires |vals| == ParamCount(NonEmpty(behind)) && forall k :: 0 <= k < |vals| ==> vals[k] == SENTINEL
    ensures var filled := Fill(NonEmpty(behind), vals);
            forall k :: 0 <= k < |filled| ==> Free(filled[k], '?') && Free(filled[k], '/')
  {
    hide Segments, NonEmpty, IsParam;
    var segs := NonEmpty(behind);
    var filled := Fill(segs, vals);
    FillWithSentinels(segs, vals);
    SentinelIsPlain();
    PiecesFree(absp, '?');
    SegmentsAreSlashFree(absp);
    NonEmptyAmong(behind);
    forall k | 0 <= k < |filled| ensures Free(filled[k], '?') && Free(filled[k], '/') {
      assert segs[k] in behind;
      var i :| 0 <= i < |behind| && behind[i] == segs[k];
      assert behind[i] == Segments(absp)[|Segments(full)| + i];
      assert filled[k] == SENTINEL || filled[k] == segs[k];
    }
  }

  lemma LostText(full: string, absp: string, segs: seq<string>, vals: seq<string>)
    requires BraceFree(full) && segs != [] && |Segments(absp)| > |Segments(full)|
    requires Segments(absp)[..|Segments(full)|] == Segments(full)
    requires |vals| == ParamCount(segs)
    requires forall k :: 0 <= k < |segs| ==> Free(Fill(segs, vals)[k], '?')
    ensures Templatize(SENTINEL + Prefixed(Fill(segs, vals))) != Renamed(absp)
  {
    hide Segments, IsParam, Templatize, Renamed, Prefixed, Fill;
    var filled := Fill(segs, vals);
    JoinFree(filled, '?');
    PrefixedIsJoin(filled);
    assert SENTINEL + ("/" + Slashed(filled)) == SENTINEL + "/" + Slashed(filled);
    SentinelFirst(Slashed(filled));
    FirstOfBraceFree(full);
    RenamedStart(absp, Segments(full)[0]);
  }

  // ----- With slashes dropped

  /** Templating and renaming keep the number of segments. */
  lemma CountsDiffer(text: string, path: string)
    requires Free(text, '?') && |Segments(text)| != |Segments(path)|
    ensures Templatize(text) != Renamed(path)
  {
    hide Segments;
    NoQuery(text);
    SegmentsAreSlashFree(text);
    SegmentsAreSlashFree(path);
    var got, want := TemplateSegments(Segments(text)), RenamedSegments(Segments(path));
    assert Free("{id}", '/');
    SplitOfJoin(got, '/');
    SplitOfJoin(want, '/');
  }

  /** Where slashes are dropped, the request has fewer segments than the path, or more. */
  lemma ShorterRouteLost(server: string, coll: string, op: string)
    requires Compilable(server, coll, op) && Free(JoinPath(server, op), '?')
    requires !HidesBase(server, coll, op) && DropsSlashes(server, coll, op)
    ensures (CompiledArgs(server, coll, op);
             var c := Compile(server, coll, op);
             var r := Eval(c.expr, Scope(JoinPath(server, coll), c.args, Sentinels(|c.args|)));
             r.Value? && Templatize(r.text) != Renamed(JoinPath(server, op)))
  {
    hide Eval, Segments, HidesBase, DropsSlashes;
    if RelativeTail(server, coll, op).sibling {
      AbsoluteShorter(server, coll, op);
    } else {
      RelativeShorter(server, coll, op);
    }
  }

  lemma RelativeShorter(server: string, coll: string, op: string)
    requires Compilable(server, coll, op) && Free(JoinPath(server, op), '?')
    requires !RelativeTail(server, coll, op).sibling
    requires !HidesBase(server, coll, op) && DropsSlashes(server, coll, op)
    ensures (CompiledArgs(server, coll, op);
             var c := Compile(server, coll, op);
             var r := Eval(c.expr, Scope(JoinPath(server, coll), c.args, Sentinels(|c.args|)));
             r.Value? && Templatize(r.text) != Renamed(JoinPath(server, op)))
  {
    hide Eval, Segments, HidesBase, Fill, Templatize, Renamed, RelTerms, ArgNames, Behind, NonEmpty;
    CompiledArgs(server, coll, op);
    HidesBaseMeans(server, coll, op);
    RelativePath(server, coll, op);
    var c := Compile(server, coll, op);
    var full, absp := JoinPath(server, coll), JoinPath(server, op);
    var behind := Behind(server, coll, op);
    var vals := Sentinels(|c.args|);
    var env := Scope(full, c.args, vals);
    ScopeBinds(full, c.args, vals);
    RelativeMeans(server, coll, op, c.args, vals, env);
    NonEmptyShorter(behind);
    FilledIsPlain(full, absp, behind, vals);
    PiecesFree(absp, '?');
    ExtendedCount(full, absp, Fill(NonEmpty(behind), vals));
    CountsDiffer(full + Prefixed(Fill(NonEmpty(behind), vals)), absp);
  }

  lemma SegmentsOfSlashed(segs: seq<string>)
    requires segs != [] && forall k :: 0 <= k < |segs| ==> Free(segs[k], '/')
    ensures Segments(Slashed(segs)) == segs
  {
    SplitOfJoin(segs, '/');
  }

  /** The segments of a path with more of them behind it. */
  lemma ExtendedCount(full: string, absp: string, more: seq<string>)
    requires Free(absp, '?') && |Segments(absp)| >= |Segments(full)|
    requires Segments(absp)[..|Segments(full)|] == Segments(full)
    requires forall k :: 0 <= k < |more| ==> Free(more[k], '?') && Free(more[k], '/')
    ensures |Segments(full + Prefixed(more))| == |Segments(full)| + |more|
    ensures Free(full + Prefixed(more), '?')
  {
    hide Segments;
    PiecesFree(absp, '?');
    assert forall k :: 0 <= k < |Segments(full)| ==> Segments(full)[k] == Segments(absp)[k];
    JoinFree(Segments(full), '?');
    SlashedSegments(full);
    if more == [] {
      assert full + Prefixed(more) == full;
    } else {
      PrefixedIsJoin(more);
      JoinFree(more, '?');
      SegmentsOfSlashed(more);
      SegmentsOfJoin(full, Slashed(more));
      assert full + ("/" + Slashed(more)) == full + "/" + Slashed(more);
      assert Free("/", '?');
    }
  }

  lemma AbsoluteShorter(server: string, coll: string, op: string)
    requires Compilable(server, coll, op) && Free(JoinPath(server, op), '?')
    requires RelativeTail(server, coll, op).sibling && DropsSlashes(server, coll, op)
    ensures (CompiledArgs(server, coll, op);
             var c := Compile(server, coll, op);
             var r := Eval(c.expr, Scope(JoinPath(server, coll), c.args, Sentinels(|c.args|)));
             r.Value? && Templatize(r.text) != Renamed(JoinPath(server, op)))
  {
    hide Eval, Segments, Meaning, ParamCount, AllWhole, Templatize, Renamed;
    CompiledArgs(server, coll, op);
    AbsolutePath(server, coll, op);
    AbsoluteIsCompiled(server, coll, op);
    var c := Compile(server, coll, op);
    var env := Scope(JoinPath(server, coll), c.args, []);
    ScopeBinds(JoinPath(server, coll), c.args, []);
    assert c.args == [] && Sentinels(0) == [];
    WholeCloses(server);
    AbsTermsMean(server, c.args, [], env);
    PlainMeaning(server);
    SlashesCount(server);
    assert RStripSlash(server) + "/" + "" == RStripSlash(server) + "/" == JoinPath(server, op);
    CountsDiffer(server, JoinPath(server, op));
  }

  /** The server path and the path with one slash behind it, where they differ, differ in their segments. */
  lemma SlashesCount(server: string)
    requires server != RStripSlash(server) + "/"
    ensures |Segments(server)| != |Segments(RStripSlash(server) + "/")|
    ensures Free(RStripSlash(server) + "/", '?') ==> Free(server, '?')
  {
    hide Segments;
    var front := RStripSlash(server);
    OneMoreSlash(front);
    assert forall k :: 0 <= k < |front| ==> (front + "/")[k] == front[k];
    MoreSlashes(server);
    if server != front {
      var shorter := server[..|server| - 1];
      assert RStripSlash(shorter) == front;
      assert server == shorter + "/";
      OneMoreSlash(shorter);
      MoreSlashes(shorter);
    }
  }

  lemma OneMoreSlash(s: string)
    ensures |Segments(s + "/")| == |Segments(s)| + 1
  {
    assert s + "/" + "" == s + "/";
    SegmentsOfJoin(s, "");
    assert Segments("") == [""];
  }

  lemma {:induction false} MoreSlashes(server: string)
    ensures |Segments(server)| >= |Segments(RStripSlash(server))|
    ensures server != RStripSlash(server) ==> |Segments(server)| > |Segments(RStripSlash(server))|
    ensures Free(RStripSlash(server), '?') ==> Free(server, '?')
    decreases |server|
  {
    hide Segments;
    if server != "" && server[|server| - 1] == '/' {
      var shorter := server[..|server| - 1];
      MoreSlashes(shorter);
      assert server == shorter + "/";
      OneMoreSlash(shorter);
    }
  }

  /**
   * End to end: compile an operation path, evaluate the expression with the sentinel for every argument, and
   * templatize the request. The joined path comes back with every parameter renamed {id} if and only if no
   * literal segment is the sentinel, no parameter hides the member base_path_, and no slashes are dropped.
   */
  lemma RouteRecovered(server: string, coll: string, op: string)
    requires Compilable(server, coll, op) && Free(JoinPath(server, op), '?')
    ensures (CompiledArgs(server, coll, op);
             var c := Compile(server, coll, op);
             var r := Eval(c.expr, Scope(JoinPath(server, coll), c.args, Sentinels(|c.args|)));
             r.Value? && (Templatize(r.text) == Renamed(JoinPath(server, op)) <==>
                            !HasLiteralSentinel(JoinPath(server, op))
                            && !HidesBase(server, coll, op) && !DropsSlashes(server, coll, op)))
  {
    hide Eval, Segments, Meaning, Templatize, HidesBase, HasLiteralSentinel, DropsSlashes;
    CompiledArgs(server, coll, op);
    var absp := JoinPath(server, op);
    if HidesBase(server, coll, op) {
      HiddenRouteLost(server, coll, op);
    } else if DropsSlashes(server, coll, op) {
      ShorterRouteLost(server, coll, op);
    } else {
      CompiledMeans(server, coll, op, Sentinels(ParamCount(Segments(absp))));
      TemplateOfFilled(absp);
    }
  }

  /** A literal segment spelled like the sentinel is lost. */
  lemma LiteralSentinelIsRenamed()
    ensures Templatize("__ID__") == "{id}" && Renamed("__ID__") == "__ID__"
  {
    SentinelIsPlain();
    NoQuery("__ID__");
    SplitPlain("__ID__", '/');
    assert TemplateSegments(["__ID__"]) == ["{id}"] && RenamedSegments(["__ID__"]) == ["__ID__"];
  }
}
