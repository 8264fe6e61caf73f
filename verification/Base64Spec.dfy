// The Base64 encodings of RFC 4648, sections 4 and 5, as one block-of-three definition over two
// alphabets, and the canonical strings of section 3.5. Nothing here mentions an accumulator.

module Base64Spec {

  type Byte = x: int | 0 <= x < 256
  type Sextet = x: int | 0 <= x < 64

  datatype Alphabet = Standard | UrlSafe

  function Symbol(al: Alphabet, v: Sextet): (c: char)
    ensures c != '='
  {
    if v < 26 then 'A' + v as char
    else if v < 52 then 'a' + (v - 26) as char
    else if v < 62 then '0' + (v - 52) as char
    else if v == 62 then (if al.Standard? then '+' else '-')
    else if al.Standard? then '/' else '_'
  }

  /** The sextet a character stands for, or -1 for a character outside the alphabet. */
  function Value(al: Alphabet, c: char): (v: int)
    ensures -1 <= v < 64
    ensures v != -1 ==> Symbol(al, v) == c
    ensures c == '=' ==> v == -1
  {
    if 'A' <= c <= 'Z' then c as int - 'A' as int
    else if 'a' <= c <= 'z' then c as int - 'a' as int + 26
    else if '0' <= c <= '9' then c as int - '0' as int + 52
    else if c == Symbol(al, 62) then 62
    else if c == Symbol(al, 63) then 63
    else -1
  }

  lemma SymbolHasItsValue(al: Alphabet, v: Sextet)
    ensures Value(al, Symbol(al, v)) == v
  {
  }

  // ----- Bytes and sextets

  // The four sextets of three bytes: 6 bits; 2 and 4; 4 and 2; 6.

  function S0(a: int): Sextet
    requires 0 <= a < 256
  {
    a / 4
  }

  function S1(a: int, b: int): Sextet
    requires 0 <= a < 256 && 0 <= b < 256
  {
    a % 4 * 16 + b / 16
  }

  function S2(b: int, c: int): Sextet
    requires 0 <= b < 256 && 0 <= c < 256
  {
    b % 16 * 4 + c / 64
  }

  function S3(c: int): Sextet
    requires 0 <= c < 256
  {
    c % 64
  }

  // The three bytes of four sextets: 6 bits and 2; 4 and 4; 2 and 6.

  function B0(v0: int, v1: int): Byte
    requires 0 <= v0 < 64 && 0 <= v1 < 64
  {
    v0 * 4 + v1 / 16
  }

  function B1(v1: int, v2: int): Byte
    requires 0 <= v1 < 64 && 0 <= v2 < 64
  {
    v1 % 16 * 16 + v2 / 4
  }

  function B2(v2: int, v3: int): Byte
    requires 0 <= v2 < 64 && 0 <= v3 < 64
  {
    v2 % 4 * 64 + v3
  }

  lemma BytesBack(a: int, b: int, c: int)
    requires 0 <= a < 256 && 0 <= b < 256 && 0 <= c < 256
    ensures B0(S0(a), S1(a, b)) == a
    ensures B1(S1(a, b), S2(b, c)) == b
    ensures B2(S2(b, c), S3(c)) == c
  {
  }

  lemma SextetsBack(v0: int, v1: int, v2: int, v3: int)
    requires 0 <= v0 < 64 && 0 <= v1 < 64 && 0 <= v2 < 64 && 0 <= v3 < 64
    ensures S0(B0(v0, v1)) == v0
    ensures S1(B0(v0, v1), B1(v1, v2)) == v1
    ensures S2(B1(v1, v2), B2(v2, v3)) == v2
    ensures S3(B2(v2, v3)) == v3
  {
    assert (v0 * 4 + v1 / 16) / 4 == v0;
    assert (v0 * 4 + v1 / 16) % 4 == v1 / 16;
    assert (v1 % 16 * 16 + v2 / 4) / 16 == v1 % 16;
    assert (v1 % 16 * 16 + v2 / 4) % 16 == v2 / 4;
    assert (v2 % 4 * 64 + v3) / 64 == v2 % 4;
    assert (v2 % 4 * 64 + v3) % 64 == v3;
  }

  /** Three bytes become four sextets; a last group of one or two is filled up with zero bits. */
  function Sextets(x: seq<Byte>): seq<Sextet>
  {
    if |x| == 0 then []
    else if |x| == 1 then [S0(x[0]), S1(x[0], 0)]
    else if |x| == 2 then [S0(x[0]), S1(x[0], x[1]), S2(x[1], 0)]
    else [S0(x[0]), S1(x[0], x[1]), S2(x[1], x[2]), S3(x[2])] + Sextets(x[3..])
  }

  /** The bytes that a run of sextets carries; left-over bits are dropped. */
  function Bytes(v: seq<Sextet>): seq<Byte>
  {
    if |v| < 2 then []
    else if |v| == 2 then [B0(v[0], v[1])]
    else if |v| == 3 then [B0(v[0], v[1]), B1(v[1], v[2])]
    else [B0(v[0], v[1]), B1(v[1], v[2]), B2(v[2], v[3])] + Bytes(v[4..])
  }

  /** No bit of the last sextet is left unused by the bytes. */
  ghost predicate NoStrayBits(v: seq<Sextet>)
  {
    && |v| % 4 != 1
    && (|v| % 4 == 2 ==> v[|v| - 1] % 16 == 0)
    && (|v| % 4 == 3 ==> v[|v| - 1] % 4 == 0)
  }

  lemma {:induction false} BytesOfSextets(x: seq<Byte>)
    ensures Bytes(Sextets(x)) == x
  {
    hide S0, S1, S2, S3, B0, B1, B2;
    if |x| > 0 {
      BytesBack(x[0], if |x| > 1 then x[1] else 0, if |x| > 2 then x[2] else 0);
    }
    if |x| >= 3 {
      BytesOfSextets(x[3..]);
      assert Sextets(x)[4..] == Sextets(x[3..]);
    }
  }

  lemma {:induction false} SextetsOfBytes(v: seq<Sextet>)
    requires NoStrayBits(v)
    ensures Sextets(Bytes(v)) == v
  {
    if |v| == 0 {
    } else if |v| < 4 {
      SextetsOfShortBytes(v);
    } else {
      hide Sextets, Bytes;
      SextetsOfBytes(v[4..]);
      SextetsOfFour(v);
      assert v == v[..4] + v[4..];
    }
  }

  lemma SextetsOfFour(v: seq<Sextet>)
    requires |v| >= 4
    ensures Sextets(Bytes(v)) == v[..4] + Sextets(Bytes(v[4..]))
  {
    hide Sextets, Bytes, S0, S1, S2, S3, B0, B1, B2;
    var a, b, c := B0(v[0], v[1]), B1(v[1], v[2]), B2(v[2], v[3]);
    var rest := Bytes(v[4..]);
    BytesOfFour(v);
    SextetsOfThree(a, b, c, rest);
    FourBack(v[0], v[1], v[2], v[3]);
    FirstFour(v);
  }

  lemma FirstFour(v: seq<Sextet>)
    requires |v| >= 4
    ensures v[..4] == [v[0], v[1], v[2], v[3]]
  {
  }

  lemma FourBack(v0: Sextet, v1: Sextet, v2: Sextet, v3: Sextet)
    ensures var a, b, c := B0(v0, v1), B1(v1, v2), B2(v2, v3);
            [S0(a), S1(a, b), S2(b, c), S3(c)] == [v0, v1, v2, v3]
  {
    hide S0, S1, S2, S3, B0, B1, B2;
    SextetsBack(v0, v1, v2, v3);
  }

  lemma BytesOfFour(v: seq<Sextet>)
    requires |v| >= 4
    ensures Bytes(v) == [B0(v[0], v[1]), B1(v[1], v[2]), B2(v[2], v[3])] + Bytes(v[4..])
  {
    hide B0, B1, B2;
  }

  lemma SextetsOfThree(a: Byte, b: Byte, c: Byte, rest: seq<Byte>)
    ensures Sextets([a, b, c] + rest) == [S0(a), S1(a, b), S2(b, c), S3(c)] + Sextets(rest)
  {
    hide S0, S1, S2, S3;
    assert ([a, b, c] + rest)[3..] == rest;
  }

  /** With no stray bits, the byte that would come after a short last group is zero. */
  lemma NoStrayByte(v: int)
    requires 0 <= v < 64
    ensures v % 16 == 0 ==> B1(v, 0) == 0
    ensures v % 4 == 0 ==> B2(v, 0) == 0
  {
  }

  lemma SextetsOfShortBytes(v: seq<Sextet>)
    requires NoStrayBits(v) && 0 < |v| < 4
    ensures Sextets(Bytes(v)) == v
  {
    hide S0, S1, S2, S3, B0, B1, B2;
    NoStrayByte(v[|v| - 1]);
    SextetsBack(v[0], v[1], if |v| == 3 then v[2] else 0, 0);
  }

  lemma ZeroFill(a: int)
    requires 0 <= a < 256
    ensures S1(a, 0) % 16 == 0 && S2(a, 0) % 4 == 0
  {
  }

  lemma {:induction false} SextetsHaveNoStrayBits(x: seq<Byte>)
    ensures NoStrayBits(Sextets(x))
  {
    hide S0, S1, S2, S3;
    if |x| >= 3 {
      SextetsHaveNoStrayBits(x[3..]);
    } else if |x| > 0 {
      ZeroFill(x[|x| - 1]);
    }
  }

  lemma Thirds(n: nat)
    ensures (n + 3 + 2) / 3 == (n + 2) / 3 + 1
  {
  }

  lemma {:induction false} SextetCount(x: seq<Byte>)
    ensures |Sextets(x)| == |x| + (|x| + 2) / 3
  {
    hide S0, S1, S2, S3;
    if |x| >= 3 {
      SextetCount(x[3..]);
      Thirds(|x| - 3);
    }
  }

  // Three bytes, and four sextets, as one 24-bit number.
  function Word3(a: int, b: int, c: int): int
  {
    a * 0x1_0000 + b * 0x100 + c
  }

  function Word4(v0: int, v1: int, v2: int, v3: int): int
  {
    v0 * 0x4_0000 + v1 * 0x1000 + v2 * 0x40 + v3
  }

  /** The bits of a byte string, read as one big-endian number that continues `acc`. */
  function ByteNumber(acc: int, x: seq<Byte>): int
    decreases |x|
  {
    if x == [] then acc
    else
      var b: int := x[0];
      ByteNumber(acc * 256 + b, x[1..])
  }

  function SextetNumber(acc: int, v: seq<Sextet>): int
    decreases |v|
  {
    if v == [] then acc
    else
      var d: int := v[0];
      SextetNumber(acc * 64 + d, v[1..])
  }

  lemma WordOfSextets(a: int, b: int, c: int)
    requires 0 <= a < 256 && 0 <= b < 256 && 0 <= c < 256
    ensures Word4(S0(a), S1(a, b), S2(b, c), S3(c)) == Word3(a, b, c)
  {
  }

  lemma ThreeBytes(acc: int, x: seq<Byte>)
    requires |x| >= 3
    ensures ByteNumber(acc, x) == ByteNumber(acc * 0x100_0000 + Word3(x[0], x[1], x[2]), x[3..])
  {
    assert x[1..][1..] == x[2..] && x[2..][1..] == x[3..];
    assert ByteNumber(acc * 256 + x[0], x[1..]) == ByteNumber((acc * 256 + x[0]) * 256 + x[1], x[2..]);
  }

  lemma FourSextets(acc: int, v: seq<Sextet>)
    requires |v| >= 4
    ensures SextetNumber(acc, v) == SextetNumber(acc * 0x100_0000 + Word4(v[0], v[1], v[2], v[3]), v[4..])
  {
    var v0: int, v1: int, v2: int := v[0], v[1], v[2];
    assert v[1..][1..] == v[2..] && v[2..][1..] == v[3..] && v[3..][1..] == v[4..];
    assert SextetNumber(acc * 64 + v0, v[1..]) == SextetNumber((acc * 64 + v0) * 64 + v1, v[2..]);
    assert SextetNumber((acc * 64 + v0) * 64 + v1, v[2..])
        == SextetNumber(((acc * 64 + v0) * 64 + v1) * 64 + v2, v[3..]);
  }

  /**
   * Section 4: the sextets are the bits of the input in order, with zero bits added on the right up to a
   * whole number of sextets (four after one left-over byte, two after two).
   */
  lemma {:induction false} SextetsSpellTheBits(acc: int, x: seq<Byte>)
    ensures SextetNumber(acc, Sextets(x))
         == ByteNumber(acc, x) * (if |x| % 3 == 0 then 1 else if |x| % 3 == 1 then 16 else 4)
    decreases |x|
  {
    hide S0, S1, S2, S3, Word3, Word4;
    var v := Sextets(x);
    if |x| == 0 {
    } else if |x| < 3 {
      SpellShort(acc, x);
    } else {
      WordOfSextets(x[0], x[1], x[2]);
      assert v[4..] == Sextets(x[3..]);
      ThreeBytes(acc, x);
      FourSextets(acc, v);
      SextetsSpellTheBits(acc * 0x100_0000 + Word3(x[0], x[1], x[2]), x[3..]);
    }
  }

  lemma SpellShort(acc: int, x: seq<Byte>)
    requires 1 <= |x| <= 2
    ensures SextetNumber(acc, Sextets(x)) == ByteNumber(acc, x) * (if |x| == 1 then 16 else 4)
  {
    hide S0, S1, S2;
    var v := Sextets(x);
    var a: int := x[0];
    assert SextetNumber(acc, v) == SextetNumber(acc * 64 + v[0], v[1..]);
    if |x| == 1 {
      ZeroFilled(a, 0);
      assert v[1..] == [v[1]] && v[1..][1..] == [] && x[1..] == [];
      assert SextetNumber(acc * 64 + v[0], [v[1]]) == (acc * 64 + v[0]) * 64 + v[1];
    } else {
      ZeroFilled(a, x[1]);
      assert v[1..][1..] == [v[2]] && v[1..][1..][1..] == [] && x[1..][1..] == [];
      assert ByteNumber(acc * 256 + a, x[1..]) == (acc * 256 + a) * 256 + x[1];
      assert SextetNumber(acc * 64 + v[0], v[1..]) == SextetNumber((acc * 64 + v[0]) * 64 + v[1], [v[2]]);
      assert SextetNumber((acc * 64 + v[0]) * 64 + v[1], [v[2]]) == ((acc * 64 + v[0]) * 64 + v[1]) * 64 + v[2];
    }
  }

  lemma ZeroFilled(a: int, b: int)
    requires 0 <= a < 256 && 0 <= b < 256
    ensures S0(a) * 64 + S1(a, 0) == a * 16
    ensures (S0(a) * 64 + S1(a, b)) * 64 + S2(b, 0) == (a * 256 + b) * 4
  {
  }

  // ----- Text

  function Symbols(al: Alphabet, v: seq<Sextet>): (s: string)
    ensures |s| == |v|
  {
    seq(|v|, i requires 0 <= i < |v| => Symbol(al, v[i]))
  }

  /** Equals signs up to a multiple of four. */
  function Padding(n: nat): (s: string)
    ensures (n + |s|) % 4 == 0 && |s| < 4
    ensures forall k :: 0 <= k < |s| ==> s[k] == '='
  {
    if n % 4 == 0 then "" else if n % 4 == 3 then "=" else if n % 4 == 2 then "==" else "==="
  }

  function Padded(al: Alphabet, v: seq<Sextet>): string
  {
    Symbols(al, v) + Padding(|v|)
  }

  function Encode(al: Alphabet, x: seq<Byte>): string
  {
    Padded(al, Sextets(x))
  }

  /** The sextets of the longest prefix of `s` that lies in the alphabet. */
  function PrefixValues(al: Alphabet, s: string): seq<Sextet>
  {
    if s == "" || Value(al, s[0]) == -1 then []
    else [Value(al, s[0])] + PrefixValues(al, s[1..])
  }

  lemma {:induction false} ValuesOfSymbols(al: Alphabet, v: seq<Sextet>, rest: string)
    ensures PrefixValues(al, Symbols(al, v) + rest) == v + PrefixValues(al, rest)
  {
    var s := Symbols(al, v) + rest;
    if v == [] {
      assert s == rest;
    } else {
      SymbolHasItsValue(al, v[0]);
      assert s[1..] == Symbols(al, v[1..]) + rest;
      ValuesOfSymbols(al, v[1..], rest);
    }
  }

  lemma PaddedCount(n: nat)
    ensures n + (n + 2) / 3 + |Padding(n + (n + 2) / 3)| == 4 * ((n + 2) / 3)
  {
    var k, r := n / 3, n % 3;
    assert n == 3 * k + r;
    assert (n + 2) / 3 == if r == 0 then k else k + 1;
  }

  /** Section 4: four characters for every three bytes begun. */
  lemma EncodedLength(al: Alphabet, x: seq<Byte>)
    ensures |Encode(al, x)| == 4 * ((|x| + 2) / 3)
  {
    SextetCount(x);
    PaddedCount(|x|);
  }

  /** Reading back what was encoded, for every byte string. */
  lemma BytesOfEncode(al: Alphabet, x: seq<Byte>)
    ensures PrefixValues(al, Encode(al, x)) == Sextets(x)
    ensures Bytes(PrefixValues(al, Encode(al, x))) == x
  {
    ValuesOfSymbols(al, Sextets(x), Padding(|Sextets(x)|));
    BytesOfSextets(x);
  }

  // ----- Canonical strings (section 3.5)

  /** `s` is a whole number of quartets: symbols, then `pad` equals signs, with no stray bits. */
  ghost predicate CanonicalWith(al: Alphabet, s: string, pad: nat)
  {
    && |s| % 4 == 0 && pad <= 2 && pad <= |s|
    && (forall k :: 0 <= k < |s| - pad ==> Value(al, s[k]) != -1)
    && (forall k :: |s| - pad <= k < |s| ==> s[k] == '=')
    && (pad == 1 ==> Value(al, s[|s| - 2]) % 4 == 0)
    && (pad == 2 ==> Value(al, s[|s| - 3]) % 16 == 0)
  }

  ghost predicate Canonical(al: Alphabet, s: string)
  {
    CanonicalWith(al, s, 0) || CanonicalWith(al, s, 1) || CanonicalWith(al, s, 2)
  }

  lemma SymbolsOfValues(al: Alphabet, s: string, v: seq<Sextet>)
    requires |s| == |v|
    requires forall k :: 0 <= k < |s| ==> Value(al, s[k]) == v[k]
    ensures Symbols(al, v) == s
  {
  }

  lemma PrefixStops(al: Alphabet, s: string)
    requires s == "" || s[0] == '='
    ensures PrefixValues(al, s) == []
  {
  }

  lemma CanonicalIsPaddedWith(al: Alphabet, s: string, pad: nat) returns (v: seq<Sextet>)
    requires CanonicalWith(al, s, pad)
    ensures v == PrefixValues(al, s)
    ensures NoStrayBits(v)
    ensures s == Padded(al, v)
  {
    hide Value, Symbols, PrefixValues;
    var n := |s| - pad;
    v := seq(n, k requires 0 <= k < n => Value(al, s[k]));
    assert s == s[..n] + s[n..];
    SymbolsOfValues(al, s[..n], v);
    PrefixStops(al, s[n..]);
    ValuesOfSymbols(al, v, s[n..]);
    assert v + [] == v;
    assert s[n..] == Padding(n);
  }

  lemma CanonicalIsPadded(al: Alphabet, s: string)
    requires Canonical(al, s)
    ensures NoStrayBits(PrefixValues(al, s))
    ensures s == Padded(al, PrefixValues(al, s))
  {
    var pads := if CanonicalWith(al, s, 0) then 0 else if CanonicalWith(al, s, 1) then 1 else 2;
    var _ := CanonicalIsPaddedWith(al, s, pads);
  }

  lemma EncodeIsCanonical(al: Alphabet, x: seq<Byte>)
    ensures Canonical(al, Encode(al, x))
  {
    var v := Sextets(x);
    var s := Encode(al, x);
    SextetsHaveNoStrayBits(x);
    forall k | 0 <= k < |v| ensures Value(al, s[k]) == v[k] {
      SymbolHasItsValue(al, v[k]);
    }
    assert CanonicalWith(al, s, |s| - |v|);
  }

  /** The canonical strings are exactly the ones that some byte string encodes to. */
  lemma CanonicalRoundTrip(al: Alphabet, s: string)
    ensures Encode(al, Bytes(PrefixValues(al, s))) == s <==> Canonical(al, s)
  {
    if Canonical(al, s) {
      CanonicalIsPadded(al, s);
      SextetsOfBytes(PrefixValues(al, s));
    }
    EncodeIsCanonical(al, Bytes(PrefixValues(al, s)));
  }

  // ----- The two alphabets

  function ToUrlSafe(c: char): char
  {
    if c == '+' then '-' else if c == '/' then '_' else c
  }

  function ToUrlSafeText(s: string): string
  {
    seq(|s|, i requires 0 <= i < |s| => ToUrlSafe(s[i]))
  }

  lemma AlphabetsAgreeUpToSubstitution(x: seq<Byte>)
    ensures Encode(UrlSafe, x) == ToUrlSafeText(Encode(Standard, x))
  {
  }
}
