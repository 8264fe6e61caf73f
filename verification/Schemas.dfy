// The schema tables that the generators walk: trees of combinators whose leaves may name other schemas.

module Schemas {
  import opened Sequences

  /** One JSON-schema node. `Null` is a missing schema; an empty `ref` is an absent `$ref`. */
  datatype Schema =
    | Null
    | Node(ref: string, props: seq<(string, Schema)>, allOf: seq<Schema>, anyOf: seq<Schema>, oneOf: seq<Schema>)

  type Table = map<string, Schema>

  function Size(s: Schema): (n: nat)
    ensures n >= 1
    decreases s, 1
  {
    match s
    case Null => 1
    case Node(_, _, allOf, anyOf, oneOf) => 1 + SizeAll(allOf) + SizeAll(anyOf) + SizeAll(oneOf)
  }

  function SizeAll(bs: seq<Schema>): nat
    decreases bs, 0
  {
    if bs == [] then 0 else Size(bs[0]) + SizeAll(bs[1..])
  }

  /** ref.rsplit("/", 1)[-1] */
  function Leaf(ref: string): string
  {
    var parts := SplitOn(ref, '/');
    parts[|parts| - 1]
  }

  /** The target of a reference is the name behind its last slash, or the whole of it if there is none. */
  lemma LeafIs(a: string, b: string)
    requires Free(b, '/')
    ensures Leaf(a + "/" + b) == b && Leaf(b) == b
  {
    SplitPlain(b, '/');
    SplitOfConcat(a, b, '/');
    assert a + ['/'] + b == a + "/" + b;
  }

  predicate IsLocal(ref: string)
  {
    |ref| >= 2 && ref[..2] == "#/"
  }

  function Names(props: seq<(string, Schema)>): set<string>
  {
    set k | 0 <= k < |props| :: props[k].0
  }

  /** Which references a walk follows: schema_fields those that start with #/, _flatten_union all. */
  datatype Follow = LocalRefs | EveryRef

  // ----- What a schema declares itself, without following a reference

  function DirectProps(s: Schema): set<string>
    decreases s, 1
  {
    if s.Null? || s.ref != "" then {}
    else Names(s.props) + DirectPropsAll(s.allOf) + DirectPropsAll(s.anyOf) + DirectPropsAll(s.oneOf)
  }

  function DirectPropsAll(bs: seq<Schema>): set<string>
    decreases bs, 0
  {
    if bs == [] then {} else DirectProps(bs[0]) + DirectPropsAll(bs[1..])
  }

  /** The names a schema refers to. */
  function DirectRefs(f: Follow, s: Schema): set<string>
    decreases s, 1
  {
    if s.Null? then {}
    else if s.ref != "" then (if f.EveryRef? || IsLocal(s.ref) then {Leaf(s.ref)} else {})
    else DirectRefsAll(f, s.allOf) + DirectRefsAll(f, s.anyOf) + DirectRefsAll(f, s.oneOf)
  }

  function DirectRefsAll(f: Follow, bs: seq<Schema>): set<string>
    decreases bs, 0
  {
    if bs == [] then {} else DirectRefs(f, bs[0]) + DirectRefsAll(f, bs[1..])
  }

  function RefsOf(f: Follow, t: Table, n: string): set<string>
  {
    if n in t then DirectRefs(f, t[n]) else {}
  }

  function PropsOf(t: Table, names: set<string>): set<string>
  {
    set n, p | n in names && n in t && p in DirectProps(t[n]) :: p
  }

  // ----- Reachability through references

  ghost predicate IsPath(f: Follow, t: Table, from: set<string>, path: seq<string>)
  {
    && path != []
    && path[0] in from
    && forall i :: 0 <= i < |path| - 1 ==> path[i + 1] in RefsOf(f, t, path[i])
  }

  ghost predicate Reachable(f: Follow, t: Table, from: set<string>, n: string)
  {
    exists path :: IsPath(f, t, from, path) && path[|path| - 1] == n
  }

  /** The property names a reader of the schema document would collect for `s`. */
  ghost predicate HasField(f: Follow, t: Table, s: Schema, p: string)
  {
    Declared(f, t, DirectProps(s), DirectRefs(f, s), p)
  }

  ghost predicate Declared(f: Follow, t: Table, props: set<string>, refs: set<string>, p: string)
  {
    || p in props
    || exists n :: Reachable(f, t, refs, n) && n in t && p in DirectProps(t[n])
  }

  lemma ReachableHere(f: Follow, t: Table, from: set<string>, n: string)
    requires n in from
    ensures Reachable(f, t, from, n)
  {
    assert IsPath(f, t, from, [n]);
  }

  lemma ReachableUnion(f: Follow, t: Table, a: set<string>, b: set<string>, n: string)
    ensures Reachable(f, t, a + b, n) <==> Reachable(f, t, a, n) || Reachable(f, t, b, n)
  {
    if Reachable(f, t, a + b, n) {
      var path :| IsPath(f, t, a + b, path) && path[|path| - 1] == n;
      assert IsPath(f, t, a, path) || IsPath(f, t, b, path);
    }
    if Reachable(f, t, a, n) {
      ReachableMono(f, t, a, a + b, n);
    }
    if Reachable(f, t, b, n) {
      ReachableMono(f, t, b, a + b, n);
    }
  }

  /** A path from one name either ends there or goes on from what that name refers to. */
  lemma ReachableFromOne(f: Follow, t: Table, m: string, n: string)
    ensures Reachable(f, t, {m}, n) <==> n == m || Reachable(f, t, RefsOf(f, t, m), n)
  {
    ReachableHere(f, t, {m}, m);
    if Reachable(f, t, {m}, n) && n != m {
      var path :| IsPath(f, t, {m}, path) && path[|path| - 1] == n;
      assert path[0 + 1] in RefsOf(f, t, path[0]);
      forall i | 0 <= i < |path| - 2 ensures path[1..][i + 1] in RefsOf(f, t, path[1..][i]) {
        assert path[i + 1 + 1] in RefsOf(f, t, path[i + 1]);
      }
      assert IsPath(f, t, RefsOf(f, t, m), path[1..]);
    }
    if Reachable(f, t, RefsOf(f, t, m), n) {
      ReachableVia(f, t, {m}, m, n);
    }
  }

  lemma ReachableMono(f: Follow, t: Table, from: set<string>, from': set<string>, n: string)
    requires from <= from' && Reachable(f, t, from, n)
    ensures Reachable(f, t, from', n)
  {
    var path :| IsPath(f, t, from, path) && path[|path| - 1] == n;
    assert IsPath(f, t, from', path);
  }

  lemma PathsJoin(f: Follow, t: Table, from: set<string>, p: seq<string>, q: seq<string>)
    requires IsPath(f, t, from, p) && IsPath(f, t, RefsOf(f, t, p[|p| - 1]), q)
    ensures IsPath(f, t, from, p + q)
  {
    hide RefsOf;
    var r := p + q;
    forall i | 0 < i < |r| ensures r[i] in RefsOf(f, t, r[i - 1]) {
      if i < |p| {
        assert r[i] == p[i] && r[i - 1] == p[i - 1];
      } else if i == |p| {
        assert r[i] == q[0] && r[i - 1] == p[|p| - 1];
      } else {
        assert r[i] == q[i - |p|] && r[i - 1] == q[i - |p| - 1];
      }
    }
  }

  /** From one of the names in `mid`, all of them reachable, nothing new can be reached. */
  lemma ReachableVia(f: Follow, t: Table, from: set<string>, m: string, n: string)
    requires Reachable(f, t, from, m) && Reachable(f, t, RefsOf(f, t, m), n)
    ensures Reachable(f, t, from, n)
  {
    var p :| IsPath(f, t, from, p) && p[|p| - 1] == m;
    var q :| IsPath(f, t, RefsOf(f, t, m), q) && q[|q| - 1] == n;
    PathsJoin(f, t, from, p, q);
  }

  /** A set that holds the start and is closed under references holds everything reachable. */
  lemma ClosedHoldsReachable(f: Follow, t: Table, from: set<string>, closed: set<string>, n: string)
    requires from <= closed
    requires forall m :: m in closed ==> RefsOf(f, t, m) <= closed
    requires Reachable(f, t, from, n)
    ensures n in closed
  {
    var path :| IsPath(f, t, from, path) && path[|path| - 1] == n;
    PathStaysIn(f, t, from, closed, path, |path| - 1);
  }

  lemma {:induction false} PathStaysIn(f: Follow, t: Table, from: set<string>, closed: set<string>,
                                       path: seq<string>, i: nat)
    requires from <= closed
    requires forall m :: m in closed ==> RefsOf(f, t, m) <= closed
    requires IsPath(f, t, from, path) && i < |path|
    ensures path[i] in closed
  {
    if i > 0 {
      PathStaysIn(f, t, from, closed, path, i - 1);
      assert path[i - 1 + 1] in RefsOf(f, t, path[i - 1]);
    }
  }
}
