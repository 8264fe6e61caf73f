// _flatten_union of generate_swml_verbs.py: the same union with no memory of visited names. It relies on
// Python's recursion limit to stop on a cycle, so the walk takes the recursion depth that is left.

module FlattenUnion {
  import opened Sequences
  import opened Schemas
  import SchemaFields
  import opened Wrappers

  // ----- The result: an insertion-ordered dict

  type Dict = seq<(string, Schema)>

  function Get(d: Dict, k: string): Option<Schema>
  {
    if d == [] then None
    else if d[0].0 == k then Some(d[0].1)
    else Get(d[1..], k)
  }

  /** dict.setdefault */
  function SetDefault(d: Dict, k: string, v: Schema): Dict
  {
    if Get(d, k).Some? then d else d + [(k, v)]
  }

  function SetDefaults(d: Dict, props: seq<(string, Schema)>): Dict
    decreases |props|
  {
    if props == [] then d
    else SetDefaults(SetDefault(d, props[0].0, props[0].1), props[1..])
  }

  ghost predicate DistinctKeys(d: Dict)
  {
    forall i, j :: 0 <= i < j < |d| ==> d[i].0 != d[j].0
  }

  lemma {:induction false} GetFinds(d: Dict, k: string)
    ensures Get(d, k).Some? <==> exists i :: 0 <= i < |d| && d[i].0 == k
    ensures Get(d, k).Some? <==> k in Names(d)
  {
    if d != [] {
      GetFinds(d[1..], k);
      if i :| 0 <= i < |d| && d[i].0 == k && i > 0 {
        assert d[1..][i - 1].0 == k;
      }
      if i :| 0 <= i < |d[1..]| && d[1..][i].0 == k {
        assert d[i + 1].0 == k;
      }
    }
  }

  lemma {:induction false} GetOfConcat(a: Dict, b: Dict, k: string)
    ensures Get(a + b, k) == if Get(a, k).Some? then Get(a, k) else Get(b, k)
  {
    if a == [] {
      assert a + b == b;
    } else {
      assert (a + b)[1..] == a[1..] + b;
      GetOfConcat(a[1..], b, k);
    }
  }

  /** Filling in defaults keeps what is there and adds the first of each new key, in order. */
  lemma {:induction false} SetDefaultsAdds(d: Dict, props: seq<(string, Schema)>, k: string)
    ensures d <= SetDefaults(d, props)
    ensures DistinctKeys(d) ==> DistinctKeys(SetDefaults(d, props))
    ensures Get(SetDefaults(d, props), k) == if Get(d, k).Some? then Get(d, k) else Get(props, k)
    decreases |props|
  {
    if props != [] {
      var (k0, v0) := props[0];
      var d' := SetDefault(d, k0, v0);
      GetFinds(d, k0);
      GetOfConcat(d, [(k0, v0)], k);
      assert Get([(k0, v0)], k) == if k0 == k then Some(v0) else None;
      SetDefaultsAdds(d', props[1..], k);
    }
  }

  // ----- The walk, with `depth` stack frames left; None is a RecursionError

  function Target(t: Table, ref: string): Schema
  {
    if Leaf(ref) in t then t[Leaf(ref)] else Null
  }

  function Walk(t: Table, n: Schema, out: Dict, depth: nat): Option<Dict>
    decreases depth, 0
  {
    if depth == 0 then None
    else if n.Null? then Some(out)
    else if n.ref != "" then Walk(t, Target(t, n.ref), out, depth - 1)
    else
      match WalkAll(t, n.allOf, out, depth - 1)
      case None => None
      case Some(a) =>
        match WalkAll(t, n.oneOf, SetDefaults(a, n.props), depth - 1)
        case None => None
        case Some(b) => WalkAll(t, n.anyOf, b, depth - 1)
  }

  function WalkAll(t: Table, bs: seq<Schema>, out: Dict, depth: nat): Option<Dict>
    decreases depth, |bs| + 1
  {
    if bs == [] then Some(out)
    else
      match Walk(t, bs[0], out, depth)
      case None => None
      case Some(o) => WalkAll(t, bs[1..], o, depth)
  }

  // ----- The source's form: a nested function that fills a captured dict

  class Flattener {
    var out: Dict

    constructor ()
      ensures out == []
    {
      out := [];
    }

    method AddProperties(props: seq<(string, Schema)>)
      modifies this
      ensures out == SetDefaults(old(out), props)
    {
      for i := 0 to |props|
        invariant SetDefaults(out, props[i..]) == SetDefaults(old(out), props)
      {
        assert props[i..][1..] == props[i + 1..];
        out := SetDefault(out, props[i].0, props[i].1);
      }
    }

    method Visit(t: Table, n: Schema, depth: nat) returns (ok: bool)
      modifies this
      ensures ok <==> Walk(t, n, old(out), depth).Some?
      ensures ok ==> out == Walk(t, n, old(out), depth).value
      decreases depth, 0
    {
      if depth == 0 {
        return false;
      }
      if n.Null? {
        return true;
      }
      if n.ref != "" {
        ok := Visit(t, Target(t, n.ref), depth - 1);
        return;
      }
      ok := VisitAll(t, n.allOf, depth - 1);
      if !ok {
        return;
      }
      AddProperties(n.props);
      ok := VisitAll(t, n.oneOf, depth - 1);
      if !ok {
        return;
      }
      ok := VisitAll(t, n.anyOf, depth - 1);
    }

    method VisitAll(t: Table, bs: seq<Schema>, depth: nat) returns (ok: bool)
      modifies this
      ensures ok <==> WalkAll(t, bs, old(out), depth).Some?
      ensures ok ==> out == WalkAll(t, bs, old(out), depth).value
      decreases depth, |bs| + 1
    {
      ok := true;
      for i := 0 to |bs|
        invariant WalkAll(t, bs[i..], out, depth) == WalkAll(t, bs, old(out), depth)
      {
        assert bs[i..][0] == bs[i] && bs[i..][1..] == bs[i + 1..];
        ok := Visit(t, bs[i], depth);
        if !ok {
          return;
        }
      }
    }
  }

  method Flatten(t: Table, n: Schema, depth: nat) returns (r: Option<Dict>)
    ensures r == Walk(t, n, [], depth)
  {
    var f := new Flattener();
    var ok := f.Visit(t, n, depth);
    r := if ok then Some(f.out) else None;
  }

  // ----- More stack never changes an answer

  lemma {:induction false} DeeperSame(t: Table, n: Schema, out: Dict, depth: nat, depth': nat)
    requires depth <= depth' && Walk(t, n, out, depth).Some?
    ensures Walk(t, n, out, depth') == Walk(t, n, out, depth)
    decreases depth, 0
  {
    if n.Null? {
    } else if n.ref != "" {
      DeeperSame(t, Target(t, n.ref), out, depth - 1, depth' - 1);
    } else {
      DeeperSameAll(t, n.allOf, out, depth - 1, depth' - 1);
      var a := WalkAll(t, n.allOf, out, depth - 1).value;
      DeeperSameAll(t, n.oneOf, SetDefaults(a, n.props), depth - 1, depth' - 1);
      var b := WalkAll(t, n.oneOf, SetDefaults(a, n.props), depth - 1).value;
      DeeperSameAll(t, n.anyOf, b, depth - 1, depth' - 1);
    }
  }

  lemma {:induction false} DeeperSameAll(t: Table, bs: seq<Schema>, out: Dict, depth: nat, depth': nat)
    requires depth <= depth' && WalkAll(t, bs, out, depth).Some?
    ensures WalkAll(t, bs, out, depth') == WalkAll(t, bs, out, depth)
    decreases depth, |bs| + 1
  {
    if bs != [] {
      DeeperSame(t, bs[0], out, depth, depth');
      DeeperSameAll(t, bs[1..], Walk(t, bs[0], out, depth).value, depth, depth');
    }
  }

  // ----- Which keys: exactly the ones schema_fields reports

  /** A completed walk adds the properties declared in the schema or in a name reachable from it. */
  ghost predicate AddsDeclared(t: Table, props: set<string>, refs: set<string>, out: Dict, r: Dict)
  {
    forall k :: k in Names(r) <==> k in Names(out) || Declared(EveryRef, t, props, refs, k)
  }

  lemma AddsCompose(t: Table, p1: set<string>, f1: set<string>, p2: set<string>, f2: set<string>,
                    out: Dict, r1: Dict, r2: Dict)
    requires AddsDeclared(t, p1, f1, out, r1)
    requires AddsDeclared(t, p2, f2, r1, r2)
    ensures AddsDeclared(t, p1 + p2, f1 + f2, out, r2)
  {
    forall n
      ensures Reachable(EveryRef, t, f1 + f2, n) <==> Reachable(EveryRef, t, f1, n) || Reachable(EveryRef, t, f2, n)
    {
      ReachableUnion(EveryRef, t, f1, f2, n);
    }
  }

  lemma DefaultsAdd(t: Table, out: Dict, props: seq<(string, Schema)>)
    ensures AddsDeclared(t, Names(props), {}, out, SetDefaults(out, props))
  {
    var r := SetDefaults(out, props);
    forall k ensures k in Names(r) <==> k in Names(out) || Declared(EveryRef, t, Names(props), {}, k) {
      SetDefaultsAdds(out, props, k);
      GetFinds(r, k);
      GetFinds(out, k);
      GetFinds(props, k);
    }
  }

  lemma {:induction false} WalkAddsDeclared(t: Table, n: Schema, out: Dict, depth: nat)
    requires Walk(t, n, out, depth).Some?
    ensures AddsDeclared(t, DirectProps(n), DirectRefs(EveryRef, n), out, Walk(t, n, out, depth).value)
    decreases depth, 0
  {
    if n.Null? {
    } else if n.ref != "" {
      var target := Target(t, n.ref);
      WalkAddsDeclared(t, target, out, depth - 1);
      FollowedReference(t, Leaf(n.ref), out, Walk(t, target, out, depth - 1).value);
    } else {
      var a := WalkAll(t, n.allOf, out, depth - 1).value;
      var a' := SetDefaults(a, n.props);
      var b := WalkAll(t, n.oneOf, a', depth - 1).value;
      var c := WalkAll(t, n.anyOf, b, depth - 1).value;
      WalkAllAddsDeclared(t, n.allOf, out, depth - 1);
      DefaultsAdd(t, a, n.props);
      WalkAllAddsDeclared(t, n.oneOf, a', depth - 1);
      WalkAllAddsDeclared(t, n.anyOf, b, depth - 1);
      FourParts(t, n, out, a, a', b, c);
    }
  }

  lemma FourParts(t: Table, n: Schema, out: Dict, a: Dict, a': Dict, b: Dict, c: Dict)
    requires n.Node? && n.ref == ""
    requires AddsDeclared(t, DirectPropsAll(n.allOf), DirectRefsAll(EveryRef, n.allOf), out, a)
    requires AddsDeclared(t, Names(n.props), {}, a, a')
    requires AddsDeclared(t, DirectPropsAll(n.oneOf), DirectRefsAll(EveryRef, n.oneOf), a', b)
    requires AddsDeclared(t, DirectPropsAll(n.anyOf), DirectRefsAll(EveryRef, n.anyOf), b, c)
    ensures AddsDeclared(t, DirectProps(n), DirectRefs(EveryRef, n), out, c)
  {
    hide AddsDeclared, Names;
    var pa, pb, pc := DirectPropsAll(n.allOf), DirectPropsAll(n.oneOf), DirectPropsAll(n.anyOf);
    var fa := DirectRefsAll(EveryRef, n.allOf);
    var fb, fc := DirectRefsAll(EveryRef, n.oneOf), DirectRefsAll(EveryRef, n.anyOf);
    var own := Names(n.props);
    AddsCompose(t, pa, fa, own, {}, out, a, a');
    AddsCompose(t, pa + own, fa + {}, pb, fb, out, a', b);
    AddsCompose(t, pa + own + pb, fa + {} + fb, pc, fc, out, b, c);
    assert pa + own + pb + pc == DirectProps(n);
    assert fa + {} + fb + fc == DirectRefs(EveryRef, n);
  }

  lemma FollowedReference(t: Table, leaf: string, out: Dict, r: Dict)
    requires var target := if leaf in t then t[leaf] else Null;
             AddsDeclared(t, DirectProps(target), DirectRefs(EveryRef, target), out, r)
    ensures AddsDeclared(t, {}, {leaf}, out, r)
  {
    forall n
      ensures Reachable(EveryRef, t, {leaf}, n) <==> n == leaf || Reachable(EveryRef, t, RefsOf(EveryRef, t, leaf), n)
    {
      ReachableFromOne(EveryRef, t, leaf, n);
    }
  }

  lemma {:induction false} WalkAllAddsDeclared(t: Table, bs: seq<Schema>, out: Dict, depth: nat)
    requires WalkAll(t, bs, out, depth).Some?
    ensures AddsDeclared(t, DirectPropsAll(bs), DirectRefsAll(EveryRef, bs), out, WalkAll(t, bs, out, depth).value)
    decreases depth, |bs| + 1
  {
    if bs != [] {
      var o := Walk(t, bs[0], out, depth).value;
      WalkAddsDeclared(t, bs[0], out, depth);
      WalkAllAddsDeclared(t, bs[1..], o, depth);
      AddsCompose(t, DirectProps(bs[0]), DirectRefs(EveryRef, bs[0]),
                  DirectPropsAll(bs[1..]), DirectRefsAll(EveryRef, bs[1..]),
                  out, o, WalkAll(t, bs[1..], o, depth).value);
    }
  }

  /** Every reference in a schema starts with #/. */
  predicate AllLocal(s: Schema)
    decreases s, 1
  {
    s.Node? ==>
      && (s.ref != "" ==> IsLocal(s.ref))
      && AllLocalIn(s.allOf) && AllLocalIn(s.anyOf) && AllLocalIn(s.oneOf)
  }

  predicate AllLocalIn(bs: seq<Schema>)
    decreases bs, 0
  {
    bs != [] ==> AllLocal(bs[0]) && AllLocalIn(bs[1..])
  }

  lemma {:induction false} LocalRefsAreAll(s: Schema)
    requires AllLocal(s)
    ensures DirectRefs(LocalRefs, s) == DirectRefs(EveryRef, s)
    decreases s, 1
  {
    if s.Node? {
      LocalRefsAreAllIn(s.allOf);
      LocalRefsAreAllIn(s.anyOf);
      LocalRefsAreAllIn(s.oneOf);
    }
  }

  lemma {:induction false} LocalRefsAreAllIn(bs: seq<Schema>)
    requires AllLocalIn(bs)
    ensures DirectRefsAll(LocalRefs, bs) == DirectRefsAll(EveryRef, bs)
    decreases bs, 0
  {
    if bs != [] {
      LocalRefsAreAll(bs[0]);
      LocalRefsAreAllIn(bs[1..]);
    }
  }

  /** On tables whose references are all local, the two walks collect the same names. */
  lemma SameNamesAsSchemaFields(t: Table, n: Schema, depth: nat)
    requires AllLocal(n) && forall m :: m in t ==> AllLocal(t[m])
    requires Walk(t, n, [], depth).Some?
    ensures Names(Walk(t, n, [], depth).value) == SchemaFields.Fields(t, n, {}).out
  {
    WalkAddsDeclared(t, n, [], depth);
    SchemaFields.FieldsAreExact(t, n);
    LocalRefsAreAll(n);
    forall m ensures RefsOf(LocalRefs, t, m) == RefsOf(EveryRef, t, m) {
      if m in t {
        LocalRefsAreAll(t[m]);
      }
    }
    var from := DirectRefs(EveryRef, n);
    forall m ensures Reachable(LocalRefs, t, from, m) <==> Reachable(EveryRef, t, from, m) {
      SamePaths(t, from, m);
    }
  }

  lemma SamePaths(t: Table, from: set<string>, m: string)
    requires forall k :: RefsOf(LocalRefs, t, k) == RefsOf(EveryRef, t, k)
    ensures Reachable(LocalRefs, t, from, m) <==> Reachable(EveryRef, t, from, m)
  {
    if Reachable(LocalRefs, t, from, m) {
      var path :| IsPath(LocalRefs, t, from, path) && path[|path| - 1] == m;
      assert IsPath(EveryRef, t, from, path);
    }
    if Reachable(EveryRef, t, from, m) {
      var path :| IsPath(EveryRef, t, from, path) && path[|path| - 1] == m;
      assert IsPath(LocalRefs, t, from, path);
    }
  }

  // ----- Which value: the first declaration in walk order

  datatype Search = Found(value: Schema) | Absent | TooDeep

  /** Looking for one key: allOf branches first, then the schema's own properties, then oneOf, then anyOf. */
  function FirstDeclaration(t: Table, n: Schema, k: string, depth: nat): Search
    decreases depth, 0
  {
    if depth == 0 then TooDeep
    else if n.Null? then Absent
    else if n.ref != "" then FirstDeclaration(t, Target(t, n.ref), k, depth - 1)
    else
      var a := FirstAmong(t, n.allOf, k, depth - 1);
      if !a.Absent? then a
      else if Get(n.props, k).Some? then Found(Get(n.props, k).value)
      else
        var b := FirstAmong(t, n.oneOf, k, depth - 1);
        if !b.Absent? then b else FirstAmong(t, n.anyOf, k, depth - 1)
  }

  function FirstAmong(t: Table, bs: seq<Schema>, k: string, depth: nat): Search
    decreases depth, |bs| + 1
  {
    if bs == [] then Absent
    else
      var h := FirstDeclaration(t, bs[0], k, depth);
      if !h.Absent? then h else FirstAmong(t, bs[1..], k, depth)
  }

  function AsOption(s: Search): Option<Schema>
  {
    if s.Found? then Some(s.value) else None
  }

  /** A completed walk keeps the entries it found and gives every other key its first declaration. */
  lemma {:induction false} FirstDeclarationWins(t: Table, n: Schema, out: Dict, depth: nat, k: string)
    requires Walk(t, n, out, depth).Some?
    ensures var r := Walk(t, n, out, depth).value;
            && out <= r && (DistinctKeys(out) ==> DistinctKeys(r))
            && !FirstDeclaration(t, n, k, depth).TooDeep?
            && Get(r, k) == if Get(out, k).Some? then Get(out, k) else AsOption(FirstDeclaration(t, n, k, depth))
    decreases depth, 0
  {
    if n.Null? {
    } else if n.ref != "" {
      FirstDeclarationWins(t, Target(t, n.ref), out, depth - 1, k);
    } else {
      hide WalkAll, FirstAmong, SetDefaults, Get, DistinctKeys;
      var a := WalkAll(t, n.allOf, out, depth - 1).value;
      var a' := SetDefaults(a, n.props);
      var b := WalkAll(t, n.oneOf, a', depth - 1).value;
      FirstAmongWins(t, n.allOf, out, depth - 1, k);
      SetDefaultsAdds(a, n.props, k);
      FirstAmongWins(t, n.oneOf, a', depth - 1, k);
      FirstAmongWins(t, n.anyOf, b, depth - 1, k);
    }
  }

  lemma {:induction false} FirstAmongWins(t: Table, bs: seq<Schema>, out: Dict, depth: nat, k: string)
    requires WalkAll(t, bs, out, depth).Some?
    ensures var r := WalkAll(t, bs, out, depth).value;
            && out <= r && (DistinctKeys(out) ==> DistinctKeys(r))
            && !FirstAmong(t, bs, k, depth).TooDeep?
            && Get(r, k) == if Get(out, k).Some? then Get(out, k) else AsOption(FirstAmong(t, bs, k, depth))
    decreases depth, |bs| + 1
  {
    if bs != [] {
      FirstDeclarationWins(t, bs[0], out, depth, k);
      FirstAmongWins(t, bs[1..], Walk(t, bs[0], out, depth).value, depth, k);
    }
  }

  // ----- When it terminates: exactly when no cycle can be reached

  ghost predicate OnCycle(t: Table, n: string)
  {
    Reachable(EveryRef, t, RefsOf(EveryRef, t, n), n)
  }

  /** No name reachable from `refs` can be reached from itself. */
  ghost predicate CycleFree(t: Table, refs: set<string>)
  {
    forall n :: Reachable(EveryRef, t, refs, n) ==> !OnCycle(t, n)
  }

  lemma CycleFreeUnion(t: Table, a: set<string>, b: set<string>)
    ensures CycleFree(t, a + b) <==> CycleFree(t, a) && CycleFree(t, b)
  {
    forall n
      ensures Reachable(EveryRef, t, a + b, n) <==> Reachable(EveryRef, t, a, n) || Reachable(EveryRef, t, b, n)
    {
      ReachableUnion(EveryRef, t, a, b, n);
    }
  }

  /** A name from which a cycle can be reached refers on to another such name. */
  lemma CycleFreeName(t: Table, leaf: string)
    ensures CycleFree(t, {leaf}) <==> CycleFree(t, RefsOf(EveryRef, t, leaf))
  {
    forall n
      ensures Reachable(EveryRef, t, {leaf}, n) <==> n == leaf || Reachable(EveryRef, t, RefsOf(EveryRef, t, leaf), n)
    {
      ReachableFromOne(EveryRef, t, leaf, n);
    }
  }

  lemma TargetRefs(t: Table, n: Schema)
    requires n.Node? && n.ref != ""
    ensures DirectRefs(EveryRef, n) == {Leaf(n.ref)}
    ensures DirectRefs(EveryRef, Target(t, n.ref)) == RefsOf(EveryRef, t, Leaf(n.ref))
  {
  }

  lemma {:induction false} CompletedMeansCycleFree(t: Table, n: Schema, out: Dict, depth: nat)
    requires Walk(t, n, out, depth).Some?
    ensures CycleFree(t, DirectRefs(EveryRef, n))
    decreases depth, 0
  {
    if n.Null? {
    } else if n.ref != "" {
      CompletedMeansCycleFree(t, Target(t, n.ref), out, depth - 1);
      TargetRefs(t, n);
      CycleFreeName(t, Leaf(n.ref));
    } else {
      var a := WalkAll(t, n.allOf, out, depth - 1).value;
      var a' := SetDefaults(a, n.props);
      CompletedAllMeansCycleFree(t, n.allOf, out, depth - 1);
      CompletedAllMeansCycleFree(t, n.oneOf, a', depth - 1);
      CompletedAllMeansCycleFree(t, n.anyOf, WalkAll(t, n.oneOf, a', depth - 1).value, depth - 1);
      CycleFreeCombinators(t, n);
    }
  }

  lemma CycleFreeCombinators(t: Table, n: Schema)
    requires n.Node? && n.ref == ""
    ensures CycleFree(t, DirectRefs(EveryRef, n)) <==>
            && CycleFree(t, DirectRefsAll(EveryRef, n.allOf))
            && CycleFree(t, DirectRefsAll(EveryRef, n.anyOf))
            && CycleFree(t, DirectRefsAll(EveryRef, n.oneOf))
  {
    hide CycleFree;
    var fa := DirectRefsAll(EveryRef, n.allOf);
    var fb, fc := DirectRefsAll(EveryRef, n.anyOf), DirectRefsAll(EveryRef, n.oneOf);
    CycleFreeUnion(t, fa, fb);
    CycleFreeUnion(t, fa + fb, fc);
  }

  lemma {:induction false} CompletedAllMeansCycleFree(t: Table, bs: seq<Schema>, out: Dict, depth: nat)
    requires WalkAll(t, bs, out, depth).Some?
    ensures CycleFree(t, DirectRefsAll(EveryRef, bs))
    decreases depth, |bs| + 1
  {
    if bs != [] {
      CompletedMeansCycleFree(t, bs[0], out, depth);
      CompletedAllMeansCycleFree(t, bs[1..], Walk(t, bs[0], out, depth).value, depth);
      CycleFreeUnion(t, DirectRefs(EveryRef, bs[0]), DirectRefsAll(EveryRef, bs[1..]));
    }
  }

  /** The names of the table that can still be reached: the part of the measure that a reference shrinks. */
  ghost function ReachSet(t: Table, refs: set<string>): set<string>
  {
    set n | n in t && Reachable(EveryRef, t, refs, n)
  }

  lemma ReachSetMono(t: Table, a: set<string>, b: set<string>)
    requires a <= b
    ensures ReachSet(t, a) <= ReachSet(t, b)
    ensures |ReachSet(t, a)| <= |ReachSet(t, b)|
  {
    forall n | Reachable(EveryRef, t, a, n) ensures Reachable(EveryRef, t, b, n) {
      ReachableMono(EveryRef, t, a, b, n);
    }
    SubsetCardinality(ReachSet(t, a), ReachSet(t, b));
  }

  lemma ReachSetShrinks(t: Table, leaf: string)
    requires leaf in t && CycleFree(t, {leaf})
    ensures |ReachSet(t, RefsOf(EveryRef, t, leaf))| < |ReachSet(t, {leaf})|
  {
    var inner, outer := ReachSet(t, RefsOf(EveryRef, t, leaf)), ReachSet(t, {leaf});
    forall n
      ensures Reachable(EveryRef, t, {leaf}, n) <==> n == leaf || Reachable(EveryRef, t, RefsOf(EveryRef, t, leaf), n)
    {
      ReachableFromOne(EveryRef, t, leaf, n);
    }
    assert !OnCycle(t, leaf);
    assert inner <= outer - {leaf};
    SubsetCardinality(inner, outer - {leaf});
  }

  lemma CombinatorsComplete(t: Table, n: Schema, out: Dict, da: nat, db: nat, dc: nat)
    requires n.Node? && n.ref == ""
    requires forall d :: WalkAll(t, n.allOf, d, da).Some?
    requires forall d :: WalkAll(t, n.oneOf, d, db).Some?
    requires forall d :: WalkAll(t, n.anyOf, d, dc).Some?
    ensures Walk(t, n, out, da + db + dc + 1).Some?
  {
    var depth := da + db + dc;
    DeeperSameAll(t, n.allOf, out, da, depth);
    var a' := SetDefaults(WalkAll(t, n.allOf, out, da).value, n.props);
    DeeperSameAll(t, n.oneOf, a', db, depth);
    DeeperSameAll(t, n.anyOf, WalkAll(t, n.oneOf, a', db).value, dc, depth);
  }

  /** With no cycle in reach there is a depth that suffices, whatever the dict holds already. */
  lemma {:induction false} CycleFreeCompletes(t: Table, n: Schema) returns (depth: nat)
    requires CycleFree(t, DirectRefs(EveryRef, n))
    ensures forall out :: Walk(t, n, out, depth).Some?
    decreases |ReachSet(t, DirectRefs(EveryRef, n))|, Size(n), 0
  {
    hide CycleFree, ReachSet, WalkAll, Leaf;
    if n.Null? {
      depth := 1;
    } else if n.ref != "" {
      var leaf := Leaf(n.ref);
      TargetRefs(t, n);
      CycleFreeName(t, leaf);
      if leaf in t {
        ReachSetShrinks(t, leaf);
        var d := CycleFreeCompletes(t, t[leaf]);
        depth := d + 1;
      } else {
        depth := 2;
      }
    } else {
      CycleFreeCombinators(t, n);
      ReachSetMono(t, DirectRefsAll(EveryRef, n.allOf), DirectRefs(EveryRef, n));
      ReachSetMono(t, DirectRefsAll(EveryRef, n.oneOf), DirectRefs(EveryRef, n));
      ReachSetMono(t, DirectRefsAll(EveryRef, n.anyOf), DirectRefs(EveryRef, n));
      var da := CycleFreeCompletesAll(t, n.allOf);
      var db := CycleFreeCompletesAll(t, n.oneOf);
      var dc := CycleFreeCompletesAll(t, n.anyOf);
      depth := da + db + dc + 1;
      forall out ensures Walk(t, n, out, depth).Some? {
        CombinatorsComplete(t, n, out, da, db, dc);
      }
    }
  }

  lemma {:induction false} CycleFreeCompletesAll(t: Table, bs: seq<Schema>) returns (depth: nat)
    requires CycleFree(t, DirectRefsAll(EveryRef, bs))
    ensures forall out :: WalkAll(t, bs, out, depth).Some?
    decreases |ReachSet(t, DirectRefsAll(EveryRef, bs))|, SizeAll(bs), 1
  {
    if bs == [] {
      depth := 0;
    } else {
      CycleFreeUnion(t, DirectRefs(EveryRef, bs[0]), DirectRefsAll(EveryRef, bs[1..]));
      ReachSetMono(t, DirectRefs(EveryRef, bs[0]), DirectRefsAll(EveryRef, bs));
      ReachSetMono(t, DirectRefsAll(EveryRef, bs[1..]), DirectRefsAll(EveryRef, bs));
      var d0 := CycleFreeCompletes(t, bs[0]);
      var d1 := CycleFreeCompletesAll(t, bs[1..]);
      depth := d0 + d1;
      forall out ensures WalkAll(t, bs, out, depth).Some? {
        DeeperSame(t, bs[0], out, d0, depth);
        DeeperSameAll(t, bs[1..], Walk(t, bs[0], out, d0).value, d1, depth);
      }
    }
  }

  /**
   * The unmemoised walk comes to an end, given enough stack, exactly on the schemas from which no name that
   * refers back to itself can be reached. schema_fields ends on all of them.
   */
  lemma CompletesIffCycleFree(t: Table, n: Schema)
    ensures (exists depth :: Walk(t, n, [], depth).Some?) <==> CycleFree(t, DirectRefs(EveryRef, n))
  {
    if depth :| Walk(t, n, [], depth).Some? {
      CompletedMeansCycleFree(t, n, [], depth);
    }
    if CycleFree(t, DirectRefs(EveryRef, n)) {
      var depth := CycleFreeCompletes(t, n);
      assert Walk(t, n, [], depth).Some?;
    }
  }

  /** A schema that refers to itself overflows any stack. */
  lemma SelfReferenceOverflows()
    ensures var node := Node("A", [], [], [], []);
            forall depth: nat :: Walk(map["A" := node], node, [], depth).None?
  {
    hide Leaf;
    var node := Node("A", [], [], [], []);
    var t := map["A" := node];
    LeafOfName();
    assert RefsOf(EveryRef, t, "A") == {"A"};
    ReachableHere(EveryRef, t, {"A"}, "A");
    assert OnCycle(t, "A");
    CompletesIffCycleFree(t, node);
  }

  /** A reference of either kind leads to the schema of that name. */
  lemma WalkOfReference(t: Table, lead: string, name: string, out: Dict, depth: nat)
    requires Free(name, '/') && name in t && depth > 0
    ensures Walk(t, Node(lead + "/" + name, [], [], [], []), out, depth) == Walk(t, t[name], out, depth - 1)
  {
    hide Leaf;
    LeafIs(lead, name);
  }

  /** A schema that declares the one name x. */
  function Declares(v: Schema): Schema
  {
    Node("", [("x", v)], [], [], [])
  }

  /** Where one name is declared many times, the parts of the whole come first, then its own properties, then
      oneOf, then anyOf. */
  lemma DeclarationOrder(t: Table, a: Schema, b: Schema, c: Schema, d: Schema)
    ensures Walk(t, Node("", [("x", b)], [Declares(a)], [Declares(d)], [Declares(c)]), [], 2) == Some([("x", a)])
    ensures Walk(t, Node("", [("x", b)], [], [Declares(d)], [Declares(c)]), [], 2) == Some([("x", b)])
    ensures Walk(t, Node("", [], [], [Declares(d)], [Declares(c)]), [], 2) == Some([("x", c)])
    ensures Walk(t, Node("", [], [], [Declares(d)], []), [], 2) == Some([("x", d)])
  {
    hide WalkAll, Declares, SetDefaults;
    forall v: Schema, w: Schema
      ensures WalkAll(t, [Declares(v)], [], 1) == Some([("x", v)])
      ensures WalkAll(t, [Declares(v)], [("x", w)], 1) == Some([("x", w)])
      ensures SetDefaults([], [("x", v)]) == [("x", v)] && SetDefaults([("x", w)], [("x", v)]) == [("x", w)]
    {
      WalkDeclares(t, v, []);
      WalkDeclares(t, v, [("x", w)]);
      SetOne([], v);
      SetOne([("x", w)], v);
      assert SetDefault([], "x", v) == [("x", v)] && SetDefault([("x", w)], "x", v) == [("x", w)];
    }
    NothingToWalk(t, [], 1);
    NothingToWalk(t, [("x", a)], 1);
    NothingToWalk(t, [("x", c)], 1);
  }

  lemma SetOne(out: Dict, v: Schema)
    ensures SetDefaults(out, [("x", v)]) == SetDefault(out, "x", v)
    ensures SetDefaults(out, []) == out
  {
    assert [("x", v)][1..] == [];
  }

  lemma NothingToWalk(t: Table, out: Dict, depth: nat)
    ensures WalkAll(t, [], out, depth) == Some(out) && SetDefaults(out, []) == out
  {
  }

  lemma WalkDeclares(t: Table, v: Schema, out: Dict)
    ensures WalkAll(t, [Declares(v)], out, 1) == Some(SetDefault(out, "x", v))
  {
    SetOne(out, v);
    assert [Declares(v)][1..] == [];
    assert Walk(t, Declares(v), out, 1) == Some(SetDefault(out, "x", v));
  }

  lemma LeafOfName()
    ensures Leaf("A") == "A"
  {
    SplitPlain("A", '/');
  }
}
