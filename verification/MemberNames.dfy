// snake_ident of generate_rest.py, and the loop of emit_methodless_struct that names the members.

module MemberNames {
  import opened Wrappers

  // ----- Fresh names by repeated suffixing

  function Repeat(c: char, k: nat): (s: string)
    ensures |s| == k
  {
    seq(k, i => c)
  }

  /** The names in `used` that are at least as long as `ident`: each suffixing leaves fewer of them. */
  function Rivals(ident: string, used: set<string>): set<string>
  {
    set u | u in used && |u| >= |ident|
  }

  lemma FewerRivals(ident: string, c: char, used: set<string>)
    requires ident in used
    ensures |Rivals(ident + [c], used)| < |Rivals(ident, used)|
  {
    assert ident in Rivals(ident, used);
    assert Rivals(ident + [c], used) <= Rivals(ident, used) - {ident};
    SubsetCardinality(Rivals(ident + [c], used), Rivals(ident, used) - {ident});
  }

  /** `while ident in used: ident += c` */
  function Fresh(ident: string, c: char, used: set<string>): (r: string)
    ensures r !in used
    ensures ident <= r
    decreases |Rivals(ident, used)|
  {
    if ident in used then
      FewerRivals(ident, c, used);
      Fresh(ident + [c], c, used)
    else ident
  }

  /** The result is the shortest unused one among ident, ident + c, ident + cc, ... */
  lemma {:induction false} FreshIsLeast(ident: string, c: char, used: set<string>) returns (k: nat)
    ensures Fresh(ident, c, used) == ident + Repeat(c, k)
    ensures forall j: nat :: j < k ==> ident + Repeat(c, j) in used
    decreases |Rivals(ident, used)|
  {
    if ident in used {
      FewerRivals(ident, c, used);
      var m := FreshIsLeast(ident + [c], c, used);
      k := m + 1;
      assert ident + [c] + Repeat(c, m) == ident + Repeat(c, m + 1);
      forall j: nat | j < k ensures ident + Repeat(c, j) in used {
        if j == 0 {
          assert ident + Repeat(c, 0) == ident;
        } else {
          assert ident + [c] + Repeat(c, j - 1) == ident + Repeat(c, j);
        }
      }
    } else {
      k := 0;
      assert ident + Repeat(c, 0) == ident;
    }
  }

  // ----- Identifiers

  predicate IsKeyword(s: string)
  {
    || s in {"alignas", "alignof", "and", "and_eq", "asm", "auto", "bitand", "bitor"}
    || s in {"bool", "break", "case", "catch", "char", "char8_t", "char16_t", "char32_t"}
    || s in {"class", "compl", "concept", "const", "consteval", "constexpr", "constinit"}
    || s in {"const_cast", "continue", "co_await", "co_return", "co_yield", "decltype"}
    || s in {"default", "delete", "do", "double", "dynamic_cast", "else", "enum"}
    || s in {"explicit", "export", "extern", "false", "float", "for", "friend", "goto"}
    || s in {"if", "inline", "int", "long", "mutable", "namespace", "new", "noexcept"}
    || s in {"not", "not_eq", "nullptr", "operator", "or", "or_eq", "private"}
    || s in {"protected", "public", "register", "reinterpret_cast", "requires", "return"}
    || s in {"short", "signed", "sizeof", "static", "static_assert", "static_cast"}
    || s in {"struct", "switch", "template", "this", "thread_local", "throw", "true"}
    || s in {"try", "typedef", "typeid", "typename", "union", "unsigned", "using"}
    || s in {"virtual", "void", "volatile", "wchar_t", "while", "xor", "xor_eq"}
  }

  predicate IsDigit(c: char)
  {
    '0' <= c <= '9'
  }

  predicate IsIdentChar(c: char)
  {
    'A' <= c <= 'Z' || 'a' <= c <= 'z' || IsDigit(c) || c == '_'
  }

  predicate IsIdentShaped(s: string)
  {
    s != "" && !IsDigit(s[0]) && forall k :: 0 <= k < |s| ==> IsIdentChar(s[k])
  }

  /** A C++ identifier that is not a keyword. */
  predicate IsIdentifier(s: string)
  {
    IsIdentShaped(s) && !IsKeyword(s)
  }

  /** re.sub(r"[^A-Za-z0-9_]", "_", s) */
  function FoldChars(s: string): (r: string)
    ensures |r| == |s|
    ensures forall k :: 0 <= k < |r| ==> IsIdentChar(r[k])
    ensures (forall k :: 0 <= k < |s| ==> IsIdentChar(s[k])) ==> r == s
  {
    seq(|s|, k requires 0 <= k < |s| => if IsIdentChar(s[k]) then s[k] else '_')
  }

  function SnakeIdent(field: string): string
  {
    var s0 := FoldChars(field);
    var s1 := if s0 == "" then "field" else s0;
    var s2 := if IsDigit(s1[0]) then "_" + s1 else s1;
    if IsKeyword(s2) then s2 + "_" else s2
  }

  lemma KeywordEnds(s: string)
    requires IsKeyword(s)
    ensures s != "" && s[|s| - 1] != '_' && s[|s| - 1] != '2'
  {
  }

  /** A suffix of `_` or `2` keeps an identifier an identifier: no keyword ends that way. */
  lemma SuffixedIsIdentifier(s: string, c: char)
    requires IsIdentShaped(s) && (c == '_' || c == '2')
    ensures IsIdentifier(s + [c])
  {
    hide IsKeyword;
    if IsKeyword(s + [c]) {
      KeywordEnds(s + [c]);
    }
  }

  /** Every wire key folds to an identifier, and a key that is one already is kept. */
  lemma SnakeIdentIsIdentifier(field: string)
    ensures IsIdentifier(SnakeIdent(field))
    ensures IsIdentifier(field) ==> SnakeIdent(field) == field
  {
    hide IsKeyword;
    var s0 := FoldChars(field);
    var s1 := if s0 == "" then "field" else s0;
    var s2 := if IsDigit(s1[0]) then "_" + s1 else s1;
    assert IsIdentShaped(s2);
    SuffixedIsIdentifier(s2, '_');
  }

  /** `r` is `s` with an underscore for every character that is no letter, digit or underscore. */
  ghost predicate Folded(s: string, r: string)
  {
    && |r| == |s|
    && forall k :: 0 <= k < |s| ==>
         r[k] == (if 'a' <= s[k] <= 'z' || 'A' <= s[k] <= 'Z' || '0' <= s[k] <= '9' || s[k] == '_' then s[k] else '_')
  }

  /** A name is the key folded, or `field` for an empty key, with an underscore before a digit at the front, and one
      behind a keyword. */
  lemma SnakeIdentIs(field: string, folded: string)
    requires Folded(field, folded)
    ensures var base := if field == "" then "field" else folded;
            var lead := if '0' <= base[0] <= '9' then "_" + base else base;
            SnakeIdent(field) == if IsKeyword(lead) then lead + "_" else lead
  {
    hide IsKeyword;
    assert FoldChars(field) == folded;
  }

  /** For instance. */
  lemma SnakeIdents()
    ensures SnakeIdent("default") == "default_" && SnakeIdent("x-y") == "x_y"
    ensures SnakeIdent("2fa") == "_2fa" && SnakeIdent("") == "field"
  {
    hide IsKeyword, SnakeIdent;
    KeywordOrNot();
    SnakeIdentIs("default", "default");
    SnakeIdentIs("x-y", "x_y");
    SnakeIdentIs("2fa", "2fa");
    SnakeIdentIs("", "");
    assert "_" + "2fa" == "_2fa" && "default" + "_" == "default_";
    assert "2fa"[0] == '2' && "default"[0] == 'd' && "x_y"[0] == 'x' && "field"[0] == 'f';
  }

  lemma KeywordOrNot()
    ensures IsKeyword("default") && !IsKeyword("x_y") && !IsKeyword("_2fa") && !IsKeyword("field")
  {
  }

  lemma {:induction false} FreshIsIdentifier(ident: string, c: char, used: set<string>)
    requires IsIdentifier(ident) && (c == '_' || c == '2')
    ensures IsIdentifier(Fresh(ident, c, used))
    decreases |Rivals(ident, used)|
  {
    hide IsKeyword;
    if ident in used {
      FewerRivals(ident, c, used);
      SuffixedIsIdentifier(ident, c);
      FreshIsIdentifier(ident + [c], c, used);
    }
  }

  // ----- The naming loop

  ghost function Elements(s: seq<string>): set<string>
  {
    set k | 0 <= k < |s| :: s[k]
  }

  lemma ElementsSnoc(s: seq<string>, x: string)
    ensures Elements(s + [x]) == Elements(s) + {x}
  {
    forall u | u in Elements(s) + {x} ensures u in Elements(s + [x]) {
      if u == x {
        assert (s + [x])[|s|] == x;
      } else {
        var k :| 0 <= k < |s| && s[k] == u;
        assert (s + [x])[k] == u;
      }
    }
  }

  /** The member name of key `i`: the first free one, given the names before it and `extras`. */
  ghost predicate NamedInTurn(keys: seq<string>, idents: seq<string>)
  {
    && |idents| == |keys|
    && forall i :: 0 <= i < |keys| ==>
         idents[i] == Fresh(SnakeIdent(keys[i]), '_', Elements(idents[..i]) + {"extras"})
  }

  method NameMembers(keys: seq<string>) returns (idents: seq<string>)
    ensures NamedInTurn(keys, idents)
  {
    hide SnakeIdent, Fresh;
    idents := [];
    assert keys[..0] == [];
    var used: set<string> := {};
    for i := 0 to |keys|
      invariant |idents| == i && used == Elements(idents)
      invariant NamedInTurn(keys[..i], idents)
    {
      var ident := Suffixed(SnakeIdent(keys[i]), used);
      ghost var before := idents;
      ElementsSnoc(before, ident);
      idents := idents + [ident];
      used := used + {ident};
      assert idents[..i] == before;
      forall j | 0 <= j < i + 1
        ensures idents[j] == Fresh(SnakeIdent(keys[..i + 1][j]), '_', Elements(idents[..j]) + {"extras"})
      {
        if j < i {
          assert idents[..j] == before[..j] && keys[..i + 1][j] == keys[..i][j];
        }
      }
    }
    assert keys[..|keys|] == keys;
  }

  /** `while ident in used or ident == "extras": ident += "_"` */
  method Suffixed(start: string, used: set<string>) returns (ident: string)
    ensures ident == Fresh(start, '_', used + {"extras"})
  {
    ident := start;
    while ident in used || ident == "extras"
      invariant Fresh(ident, '_', used + {"extras"}) == Fresh(start, '_', used + {"extras"})
      decreases |Rivals(ident, used + {"extras"})|
    {
      FewerRivals(ident, '_', used + {"extras"});
      ident := ident + "_";
    }
  }

  /** The names are distinct identifiers, none of them a keyword or `extras`. */
  lemma MembersAreDistinct(keys: seq<string>, idents: seq<string>)
    requires NamedInTurn(keys, idents)
    ensures forall i :: 0 <= i < |idents| ==> IsIdentifier(idents[i]) && idents[i] != "extras"
    ensures forall i, j :: 0 <= i < j < |idents| ==> idents[i] != idents[j]
  {
    hide SnakeIdent, IsKeyword;
    forall i | 0 <= i < |idents| ensures IsIdentifier(idents[i]) && idents[i] != "extras" {
      SnakeIdentIsIdentifier(keys[i]);
      FreshIsIdentifier(SnakeIdent(keys[i]), '_', Elements(idents[..i]) + {"extras"});
    }
    forall i, j | 0 <= i < j < |idents| ensures idents[i] != idents[j] {
      assert idents[..j][i] in Elements(idents[..j]);
    }
  }

  /** A key that is an identifier keeps its name unless an earlier member, or `extras`, has taken it. */
  lemma KeptName(keys: seq<string>, idents: seq<string>, i: nat)
    requires NamedInTurn(keys, idents) && i < |keys| && IsIdentifier(keys[i])
    ensures idents[i] == keys[i] <==> keys[i] != "extras" && keys[i] !in Elements(idents[..i])
  {
    hide SnakeIdent, IsKeyword;
    SnakeIdentIsIdentifier(keys[i]);
  }
}
