// schema_fields of generate_rest.py: a depth-first walk that shares one mutable `seen` set between
// sibling branches.

module SchemaFields {
  import opened Wrappers
  import opened Sequences
  import opened Schemas

  datatype Walked = Walked(out: set<string>, seen: set<string>)

  /** How many names of the table are still to be marked. */
  function Unseen(t: Table, seen: set<string>): nat
  {
    |t.Keys - seen|
  }

  lemma FewerUnseen(t: Table, seen: set<string>, seen': set<string>)
    requires seen <= seen'
    ensures Unseen(t, seen') <= Unseen(t, seen)
  {
    SubsetCardinality(t.Keys - seen', t.Keys - seen);
  }

  lemma OneLessUnseen(t: Table, seen: set<string>, n: string)
    requires n in t && n !in seen
    ensures Unseen(t, seen + {n}) < Unseen(t, seen)
  {
    assert t.Keys - (seen + {n}) == (t.Keys - seen) - {n};
  }

  /** The walk with the `seen` set passed in and out. It ends on every table, cyclic or not. */
  function Fields(t: Table, s: Schema, seen: set<string>): (r: Walked)
    ensures seen <= r.seen
    decreases Unseen(t, seen), Size(s), 0
  {
    if s.Null? then Walked({}, seen)
    else if s.ref != "" then
      var leaf := Leaf(s.ref);
      if !IsLocal(s.ref) || leaf in seen then Walked({}, seen)
      else if leaf !in t then Walked({}, seen + {leaf})
      else
        OneLessUnseen(t, seen, leaf);
        Fields(t, t[leaf], seen + {leaf})
    else
      var a := FieldsAll(t, s.allOf, seen);
      FewerUnseen(t, seen, a.seen);
      var b := FieldsAll(t, s.anyOf, a.seen);
      FewerUnseen(t, seen, b.seen);
      var c := FieldsAll(t, s.oneOf, b.seen);
      Walked(Names(s.props) + a.out + b.out + c.out, c.seen)
  }

  function FieldsAll(t: Table, bs: seq<Schema>, seen: set<string>): (r: Walked)
    ensures seen <= r.seen
    decreases Unseen(t, seen), SizeAll(bs), 1
  {
    if bs == [] then Walked({}, seen)
    else
      var h := Fields(t, bs[0], seen);
      FewerUnseen(t, seen, h.seen);
      var r := FieldsAll(t, bs[1..], h.seen);
      Walked(h.out + r.out, r.seen)
  }

  // ----- The source's form: one set object mutated by the whole recursion

  class SeenSet {
    var names: set<string>

    constructor ()
      ensures names == {}
    {
      names := {};
    }

    method Add(n: string)
      modifies this
      ensures names == old(names) + {n}
    {
      names := names + {n};
    }
  }

  method WalkSchema(t: Table, s: Schema, seen: SeenSet) returns (out: set<string>)
    modifies seen
    ensures out == Fields(t, s, old(seen.names)).out
    ensures seen.names == Fields(t, s, old(seen.names)).seen
    decreases Unseen(t, seen.names), Size(s), 0
  {
    hide Unseen, Leaf;
    if s.Null? {
      return {};
    }
    if s.ref != "" {
      if !IsLocal(s.ref) {
        return {};
      }
      var leaf := Leaf(s.ref);
      if leaf in seen.names {
        return {};
      }
      if leaf in t {
        OneLessUnseen(t, seen.names, leaf);
      }
      seen.Add(leaf);
      if leaf !in t {
        return {};
      }
      out := WalkSchema(t, t[leaf], seen);
      return;
    }
    out := Names(s.props);
    var more := WalkBranches(t, s.allOf, seen);
    out := out + more;
    FewerUnseen(t, old(seen.names), seen.names);
    more := WalkBranches(t, s.anyOf, seen);
    out := out + more;
    FewerUnseen(t, old(seen.names), seen.names);
    more := WalkBranches(t, s.oneOf, seen);
    out := out + more;
  }

  lemma {:induction false} SizeOfElement(bs: seq<Schema>, i: nat)
    requires i < |bs|
    ensures Size(bs[i]) <= SizeAll(bs)
  {
    if i > 0 {
      SizeOfElement(bs[1..], i - 1);
    }
  }

  /** The inner loop over the branches of one combinator. */
  method WalkBranches(t: Table, bs: seq<Schema>, seen: SeenSet) returns (out: set<string>)
    modifies seen
    ensures out == FieldsAll(t, bs, old(seen.names)).out
    ensures seen.names == FieldsAll(t, bs, old(seen.names)).seen
    decreases Unseen(t, seen.names), SizeAll(bs), 1
  {
    hide Unseen, Fields;
    out := {};
    ghost var start := seen.names;
    for i := 0 to |bs|
      invariant start <= seen.names
      invariant out + FieldsAll(t, bs[i..], seen.names).out == FieldsAll(t, bs, start).out
      invariant FieldsAll(t, bs[i..], seen.names).seen == FieldsAll(t, bs, start).seen
    {
      assert bs[i..][0] == bs[i] && bs[i..][1..] == bs[i + 1..];
      SizeOfElement(bs, i);
      FewerUnseen(t, start, seen.names);
      var more := WalkSchema(t, bs[i], seen);
      out := out + more;
    }
  }

  method SchemaFieldsOf(t: Table, s: Schema) returns (out: set<string>)
    ensures forall p :: p in out <==> HasField(LocalRefs, t, s, p)
  {
    var seen := new SeenSet();
    out := WalkSchema(t, s, seen);
    FieldsAreExact(t, s);
  }

  // ----- What the walk leaves behind

  /**
   * A walk from `seen` collects the properties of the schema itself and of every name it newly marks; and
   * among what it marked or found marked there is no reference left unmarked.
   */
  ghost predicate WalkedExactly(t: Table, props: set<string>, refs: set<string>, seen: set<string>, r: Walked)
  {
    && seen <= r.seen
    && r.out == props + PropsOf(t, r.seen - seen)
    && refs <= r.seen
    && (forall n :: n in r.seen - seen ==> RefsOf(LocalRefs, t, n) <= r.seen)
    && (forall n :: n in r.seen - seen ==> Reachable(LocalRefs, t, refs, n))
  }

  /** Two walks in a row, the second starting from the marks of the first. */
  lemma WalksCompose(t: Table, seen: set<string>, p1: set<string>, f1: set<string>, r1: Walked,
                     p2: set<string>, f2: set<string>, r2: Walked)
    requires WalkedExactly(t, p1, f1, seen, r1)
    requires WalkedExactly(t, p2, f2, r1.seen, r2)
    ensures WalkedExactly(t, p1 + p2, f1 + f2, seen, Walked(r1.out + r2.out, r2.seen))
  {
    assert r2.seen - seen == (r1.seen - seen) + (r2.seen - r1.seen);
    assert PropsOf(t, r2.seen - seen) == PropsOf(t, r1.seen - seen) + PropsOf(t, r2.seen - r1.seen);
    forall n | n in r2.seen - seen ensures Reachable(LocalRefs, t, f1 + f2, n) {
      if n in r1.seen {
        ReachableMono(LocalRefs, t, f1, f1 + f2, n);
      } else {
        ReachableMono(LocalRefs, t, f2, f1 + f2, n);
      }
    }
  }

  lemma OwnProperties(t: Table, own: set<string>, seen: set<string>)
    ensures WalkedExactly(t, own, {}, seen, Walked(own, seen))
  {
    assert seen - seen == {};
    assert PropsOf(t, {}) == {};
  }

  lemma {:induction false} FieldsWalkExactly(t: Table, s: Schema, seen: set<string>)
    ensures WalkedExactly(t, DirectProps(s), DirectRefs(LocalRefs, s), seen, Fields(t, s, seen))
    decreases Unseen(t, seen), Size(s), 0
  {
    OwnProperties(t, {}, seen);
    if s.Null? {
    } else if s.ref != "" {
      var leaf := Leaf(s.ref);
      if IsLocal(s.ref) && leaf !in seen {
        if leaf in t {
          OneLessUnseen(t, seen, leaf);
          FieldsWalkExactly(t, t[leaf], seen + {leaf});
          FollowReference(t, leaf, seen, Fields(t, t[leaf], seen + {leaf}));
        } else {
          DanglingReference(t, leaf, seen);
        }
      }
    } else {
      var a := FieldsAll(t, s.allOf, seen);
      FieldsAllWalkExactly(t, s.allOf, seen);
      FewerUnseen(t, seen, a.seen);
      var b := FieldsAll(t, s.anyOf, a.seen);
      FieldsAllWalkExactly(t, s.anyOf, a.seen);
      FewerUnseen(t, seen, b.seen);
      var c := FieldsAll(t, s.oneOf, b.seen);
      FieldsAllWalkExactly(t, s.oneOf, b.seen);
      ThreeCombinators(t, s, seen, a, b, c);
    }
  }

  lemma ThreeCombinators(t: Table, s: Schema, seen: set<string>, a: Walked, b: Walked, c: Walked)
    requires s.Node? && s.ref == ""
    requires WalkedExactly(t, DirectPropsAll(s.allOf), DirectRefsAll(LocalRefs, s.allOf), seen, a)
    requires WalkedExactly(t, DirectPropsAll(s.anyOf), DirectRefsAll(LocalRefs, s.anyOf), a.seen, b)
    requires WalkedExactly(t, DirectPropsAll(s.oneOf), DirectRefsAll(LocalRefs, s.oneOf), b.seen, c)
    ensures WalkedExactly(t, DirectProps(s), DirectRefs(LocalRefs, s), seen,
                          Walked(Names(s.props) + a.out + b.out + c.out, c.seen))
  {
    hide WalkedExactly, Names;
    var own := Names(s.props);
    var pa, pb, pc := DirectPropsAll(s.allOf), DirectPropsAll(s.anyOf), DirectPropsAll(s.oneOf);
    var fa := DirectRefsAll(LocalRefs, s.allOf);
    var fb, fc := DirectRefsAll(LocalRefs, s.anyOf), DirectRefsAll(LocalRefs, s.oneOf);
    OwnProperties(t, own, seen);
    WalksCompose(t, seen, own, {}, Walked(own, seen), pa, fa, a);
    WalksCompose(t, seen, own + pa, {} + fa, Walked(own + a.out, a.seen), pb, fb, b);
    WalksCompose(t, seen, own + pa + pb, {} + fa + fb, Walked(own + a.out + b.out, b.seen), pc, fc, c);
    assert {} + fa == fa;
  }

  /** Marking a name and then walking its schema is a walk for the reference itself. */
  lemma FollowReference(t: Table, leaf: string, seen: set<string>, r: Walked)
    requires leaf !in seen && leaf in t
    requires WalkedExactly(t, DirectProps(t[leaf]), DirectRefs(LocalRefs, t[leaf]), seen + {leaf}, r)
    ensures WalkedExactly(t, {}, {leaf}, seen, r)
  {
    var seen' := seen + {leaf};
    ReachableHere(LocalRefs, t, {leaf}, leaf);
    assert r.seen - seen == (r.seen - seen') + {leaf};
    assert PropsOf(t, r.seen - seen) == PropsOf(t, r.seen - seen') + DirectProps(t[leaf]);
    forall n | n in r.seen - seen' ensures Reachable(LocalRefs, t, {leaf}, n) {
      ReachableVia(LocalRefs, t, {leaf}, leaf, n);
    }
  }

  lemma DanglingReference(t: Table, leaf: string, seen: set<string>)
    requires leaf !in seen && leaf !in t
    ensures WalkedExactly(t, {}, {leaf}, seen, Walked({}, seen + {leaf}))
  {
    ReachableHere(LocalRefs, t, {leaf}, leaf);
    assert seen + {leaf} - seen == {leaf};
    assert PropsOf(t, {leaf}) == {};
  }

  lemma {:induction false} FieldsAllWalkExactly(t: Table, bs: seq<Schema>, seen: set<string>)
    ensures WalkedExactly(t, DirectPropsAll(bs), DirectRefsAll(LocalRefs, bs), seen, FieldsAll(t, bs, seen))
    decreases Unseen(t, seen), SizeAll(bs), 1
  {
    if bs == [] {
      OwnProperties(t, {}, seen);
    } else {
      var h := Fields(t, bs[0], seen);
      FieldsWalkExactly(t, bs[0], seen);
      FewerUnseen(t, seen, h.seen);
      FieldsAllWalkExactly(t, bs[1..], h.seen);
      WalksCompose(t, seen, DirectProps(bs[0]), DirectRefs(LocalRefs, bs[0]), h,
                   DirectPropsAll(bs[1..]), DirectRefsAll(LocalRefs, bs[1..]), FieldsAll(t, bs[1..], h.seen));
    }
  }

  /**
   * At top level the result is exactly the property names reachable through $ref, allOf, anyOf and oneOf,
   * and the names marked are exactly the ones reachable.
   */
  lemma FieldsAreExact(t: Table, s: Schema)
    ensures forall p :: p in Fields(t, s, {}).out <==> HasField(LocalRefs, t, s, p)
    ensures forall n :: n in Fields(t, s, {}).seen <==> Reachable(LocalRefs, t, DirectRefs(LocalRefs, s), n)
  {
    var r := Fields(t, s, {});
    FieldsWalkExactly(t, s, {});
    assert r.seen - {} == r.seen;
    forall n | Reachable(LocalRefs, t, DirectRefs(LocalRefs, s), n) ensures n in r.seen {
      ClosedHoldsReachable(LocalRefs, t, DirectRefs(LocalRefs, s), r.seen, n);
    }
  }

  // ----- What a reference gives

  /** A reference into the document, such as #/components/schemas/Pet, gives what is reachable from the schema of
      that name, and nothing if there is none. */
  lemma FieldsOfReference(t: Table, lead: string, name: string)
    requires Free(name, '/') && lead != "" && lead[0] == '#' && (|lead| > 1 ==> lead[1] == '/')
    ensures var out := Fields(t, Node(lead + "/" + name, [], [], [], []), {}).out;
            if name in t then forall p :: p in out <==> HasField(LocalRefs, t, t[name], p) else out == {}
  {
    hide Leaf, DirectProps, Reachable;
    var ref := lead + "/" + name;
    var s := Node(ref, [], [], [], []);
    LeafIs(lead, name);
    assert ref[0] == '#' && ref[1] == '/';
    if name in t {
      FieldsAreExact(t, s);
      assert DirectRefs(LocalRefs, s) == {name};
      forall n ensures Reachable(LocalRefs, t, {name}, n) <==>
                         n == name || Reachable(LocalRefs, t, DirectRefs(LocalRefs, t[name]), n)
      {
        ReachableFromOne(LocalRefs, t, name, n);
      }
      NothingDeclared(s);
    }
  }

  lemma NothingDeclared(s: Schema)
    requires s.Node? && s.ref != ""
    ensures DirectProps(s) == {}
  {
  }

  /** A reference to another document gives nothing. */
  lemma FieldsOfForeignReference(t: Table, ref: string)
    requires ref != "" && !(|ref| > 1 && ref[0] == '#' && ref[1] == '/')
    ensures Fields(t, Node(ref, [], [], [], []), {}).out == {}
  {
  }

  /** For instance, a pet and the animal it is. */
  lemma PetFields()
    ensures var animal := Node("", [("legs", Null)], [], [], []);
            var pet := Node("", [("name", Null)], [Node("#/components/schemas/Animal", [], [], [], [])], [], []);
            Fields(map["Pet" := pet, "Animal" := animal], Node("#/components/schemas/Pet", [], [], [], []), {}).out
            == {"name", "legs"}
  {
    hide Leaf;
    LeafIs("#/components/schemas", "Pet");
    LeafIs("#/components/schemas", "Animal");
    assert "#/components/schemas" + "/" + "Pet" == "#/components/schemas/Pet";
    assert "#/components/schemas" + "/" + "Animal" == "#/components/schemas/Animal";
    var animal := Node("", [("legs", Null)], [], [], []);
    var link := Node("#/components/schemas/Animal", [], [], [], []);
    var pet := Node("", [("name", Null)], [link], [], []);
    var t := map["Pet" := pet, "Animal" := animal];
    assert "Pet"[0] != "Animal"[0];
    FieldsOfOne(t, "legs", [], {"Pet", "Animal"});
    FieldsOfOne(t, "name", [link], {"Pet"});
    assert {"Pet"} + {"Animal"} == {"Pet", "Animal"};
    assert Fields(t, link, {"Pet"}) == Walked({"legs"}, {"Pet", "Animal"});
    assert [link][1..] == [];
    assert FieldsAll(t, [link], {"Pet"}).out == {"legs"};
    assert {} + {"Pet"} == {"Pet"};
  }

  lemma FieldsOfOne(t: Table, name: string, allOf: seq<Schema>, seen: set<string>)
    ensures Fields(t, Node("", [(name, Null)], allOf, [], []), seen)
         == Walked({name} + FieldsAll(t, allOf, seen).out, FieldsAll(t, allOf, seen).seen)
  {
    assert [(name, Null)][0].0 == name;
    assert Names([(name, Null)]) == {name};
  }
}
