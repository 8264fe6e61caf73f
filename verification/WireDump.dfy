// base64url_encode, the b64url_decode lambda and the token fields of wire_dump.cpp.

module WireDump {
  import opened Base64Spec
  import opened CommonBase64
  import opened Sequences

  // ----- base64url_encode: blocks of three bytes in a 24-bit word

  /** The symbol `k` places from the right of a 24-bit word. */
  function Digit(n: int, k: int): Sextet
    requires 0 <= k < 4
  {
    (if k == 3 then n / 0x4_0000 else if k == 2 then n / 0x1000 else if k == 1 then n / 0x40 else n) % 64
  }

  lemma Split4096(q: int, r: int)
    requires 0 <= r < 4096
    ensures (4096 * q + r) / 4096 == q
  {
  }

  lemma Split262144(q: int, r: int)
    requires 0 <= r < 0x4_0000
    ensures (0x4_0000 * q + r) / 0x4_0000 == q
  {
  }

  lemma WordDigits(a: int, b: int, c: int)
    requires 0 <= a < 256 && 0 <= b < 256 && 0 <= c < 256
    ensures Digit(Word3(a, b, c), 3) == S0(a)
    ensures Digit(Word3(a, b, c), 2) == S1(a, b)
    ensures Digit(Word3(a, b, c), 1) == S2(b, c)
    ensures Digit(Word3(a, b, c), 0) == S3(c)
  {
    Split262144(a / 4, a % 4 * 0x1_0000 + b * 0x100 + c);
    Split64(0, a / 4);
    Split4096(a * 16 + b / 16, b % 16 * 0x100 + c);
    Split64(a / 4, a % 4 * 16 + b / 16);
    Split64(a * 1024 + b * 4 + c / 64, c % 64);
    Split64(a * 16 + b / 16, b % 16 * 4 + c / 64);
  }

  lemma SymbolsOfFour(a: Sextet, b: Sextet, c: Sextet, d: Sextet)
    ensures Symbols(UrlSafe, [a, b, c, d])
         == [Symbol(UrlSafe, a), Symbol(UrlSafe, b), Symbol(UrlSafe, c), Symbol(UrlSafe, d)]
  {
  }

  lemma FullBlock(x: seq<Byte>, n: int)
    requires |x| >= 3 && n == Word3(x[0], x[1], x[2])
    ensures Symbols(UrlSafe, Sextets(x))
         == [Symbol(UrlSafe, Digit(n, 3)), Symbol(UrlSafe, Digit(n, 2)),
             Symbol(UrlSafe, Digit(n, 1)), Symbol(UrlSafe, Digit(n, 0))] + Symbols(UrlSafe, Sextets(x[3..]))
  {
    hide Word3, Digit, S0, S1, S2, S3, Symbol, Symbols;
    WordDigits(x[0], x[1], x[2]);
    SymbolsOfFour(S0(x[0]), S1(x[0], x[1]), S2(x[1], x[2]), S3(x[2]));
    var block: seq<Sextet> := [S0(x[0]), S1(x[0], x[1]), S2(x[1], x[2]), S3(x[2])];
    SymbolsConcat(UrlSafe, block, Sextets(x[3..]));
  }

  lemma LastBlock(x: seq<Byte>)
    requires |x| < 3
    ensures |x| == 1 ==>
              var n := Word3(x[0], 0, 0);
              Encode(UrlSafe, x) == [Symbol(UrlSafe, Digit(n, 3)), Symbol(UrlSafe, Digit(n, 2)), '=', '=']
    ensures |x| == 2 ==>
              var n := Word3(x[0], x[1], 0);
              Encode(UrlSafe, x)
              == [Symbol(UrlSafe, Digit(n, 3)), Symbol(UrlSafe, Digit(n, 2)), Symbol(UrlSafe, Digit(n, 1)), '=']
    ensures |x| == 0 ==> Encode(UrlSafe, x) == ""
  {
    hide Digit, S0, S1, S2, S3, Symbol;
    if |x| > 0 {
      WordDigits(x[0], if |x| == 2 then x[1] else 0, 0);
    }
  }

  lemma PaddingSkipsQuartets(n: nat)
    ensures Padding(n + 4) == Padding(n)
  {
  }

  method Base64UrlEncode(input: seq<Byte>) returns (out: string)
    ensures out == Encode(UrlSafe, input)
  {
    hide Digit, Symbol, Symbols, Sextets, Padding;
    out := "";
    var i := 0;
    while i + 2 < |input|
      invariant 0 <= i <= |input|
      invariant out + Encode(UrlSafe, input[i..]) == Encode(UrlSafe, input)
    {
      var n := Word3(input[i], input[i + 1], input[i + 2]);
      FullBlock(input[i..], n);
      assert input[i..][3..] == input[i + 3..];
      PaddingSkipsQuartets(|Sextets(input[i + 3..])|);
      assert |Sextets(input[i..])| == 4 + |Sextets(input[i + 3..])|;
      out := out + [Symbol(UrlSafe, Digit(n, 3)), Symbol(UrlSafe, Digit(n, 2)),
                    Symbol(UrlSafe, Digit(n, 1)), Symbol(UrlSafe, Digit(n, 0))];
      i := i + 3;
    }
    var rem := |input| - i;
    LastBlock(input[i..]);
    if rem == 1 {
      var n := Word3(input[i], 0, 0);
      out := out + [Symbol(UrlSafe, Digit(n, 3)), Symbol(UrlSafe, Digit(n, 2)), '=', '='];
    } else if rem == 2 {
      var n := Word3(input[i], input[i + 1], 0);
      out := out + [Symbol(UrlSafe, Digit(n, 3)), Symbol(UrlSafe, Digit(n, 2)), Symbol(UrlSafe, Digit(n, 1)), '='];
    }
  }

  // ----- b64url_decode: stops at '=', skips foreign characters, uint32_t accumulator

  /** The sextets that count: up to the first '=', foreign characters left out. */
  function KeptValues(s: string): seq<Sextet>
  {
    if s == "" || s[0] == '=' then []
    else if Value(UrlSafe, s[0]) < 0 then KeptValues(s[1..])
    else [Value(UrlSafe, s[0])] + KeptValues(s[1..])
  }

  function DecodeUrl(s: string): seq<Byte>
  {
    Bytes(KeptValues(s))
  }

  /** Reduction to uint32_t. */
  function Unsigned(v: int): (r: int)
    ensures 0 <= r < TWO_32
  {
    v % TWO_32
  }

  lemma UnsignedDropsMultiples(v: int) returns (q: int)
    ensures v == Unsigned(v) + TWO_32 * q
  {
    q := v / TWO_32;
  }

  lemma UnsignedIsUnique(r: int, q: int)
    requires 0 <= r < TWO_32
    ensures Unsigned(r + TWO_32 * q) == r
  {
  }

  /** `(buf << 6) | v`: the six low bits of the shifted word are zero, so the OR is a sum. */
  lemma UnsignedShiftIn(wide: int, v: Sextet)
    ensures Unsigned(Unsigned(wide) * 64) + v == Unsigned(wide * 64 + v)
    ensures Unsigned(Unsigned(wide) * 64) % 64 == 0
  {
    var q := UnsignedDropsMultiples(wide);
    var b := Unsigned(wide);
    var p := UnsignedDropsMultiples(b * 64);
    var r := Unsigned(b * 64);
    Split64(b - 0x400_0000 * p, 0);
    assert r == 64 * (r / 64);
    assert wide * 64 + v == r + v + TWO_32 * (p + 64 * q);
    UnsignedIsUnique(r + v, p + 64 * q);
  }

  lemma UnsignedTopByte(wide: int, bits: int)
    requires bits in {0, 2, 4}
    ensures TopByte(Unsigned(wide), bits) == TopByte(wide, bits)
  {
    var q := UnsignedDropsMultiples(wide);
    ShiftOfMultiple(Unsigned(wide), q, bits);
  }

  /** One character of the loop on an accumulator that never overflows. */
  lemma KeptTurn(s: string, wide: int, bits: int)
    requires bits in {0, 2, 4, 6}
    ensures DecodeFrom(Unbounded, KeptValues(s), wide, bits - 8)
         == if s == "" || s[0] == '=' then []
            else if Value(UrlSafe, s[0]) < 0 then DecodeFrom(Unbounded, KeptValues(s[1..]), wide, bits - 8)
            else
              var wide' := wide * 64 + Value(UrlSafe, s[0]);
              if bits >= 2 then [TopByte(wide', bits - 2)] + DecodeFrom(Unbounded, KeptValues(s[1..]), wide', bits - 10)
              else DecodeFrom(Unbounded, KeptValues(s[1..]), wide', bits - 2)
  {
    hide TopByte, Value;
    if s != "" && s[0] != '=' && Value(UrlSafe, s[0]) >= 0 {
      var v := KeptValues(s);
      assert v[0] == Value(UrlSafe, s[0]) && v[1..] == KeptValues(s[1..]);
    }
  }

  lemma UrlDecodeStart(s: string)
    ensures DecodeFrom(Unbounded, KeptValues(s), 0, -8) == DecodeUrl(s)
    ensures Unsigned(0) == 0
  {
    DecoderMeetsSpec(KeptValues(s), 0);
    UnsignedIsUnique(0, 0);
  }

  method Base64UrlDecode(s: string) returns (decoded: seq<Byte>)
    ensures decoded == DecodeUrl(s)
  {
    hide TopByte, Value, KeptValues, DecodeFrom, Bytes, Unsigned, DecodeUrl;
    decoded := [];
    var buf, bits := 0, 0;
    ghost var wide := 0;
    UrlDecodeStart(s);
    for i := 0 to |s|
      invariant bits in {0, 2, 4, 6}
      invariant buf == Unsigned(wide)
      invariant decoded + DecodeFrom(Unbounded, KeptValues(s[i..]), wide, bits - 8) == DecodeUrl(s)
    {
      KeptTurn(s[i..], wide, bits);
      assert s[i..][1..] == s[i + 1..];
      if s[i] == '=' {
        break;
      }
      var v := Value(UrlSafe, s[i]);
      if v < 0 {
        continue;
      }
      UnsignedShiftIn(wide, v);
      buf := Unsigned(buf * 64) + v;
      wide := wide * 64 + v;
      bits := bits + 6;
      if bits >= 8 {
        bits := bits - 8;
        UnsignedTopByte(wide, bits);
        decoded := decoded + [TopByte(buf, bits)];
      }
    }
    KeptTurn("", wide, bits);
  }

  lemma {:induction false} KeptOfPrefix(s: string, n: nat)
    requires n <= |s|
    requires forall k :: 0 <= k < n ==> Value(UrlSafe, s[k]) != -1
    requires n == |s| || s[n] == '='
    ensures KeptValues(s) == PrefixValues(UrlSafe, s)
  {
    if n > 0 {
      KeptOfPrefix(s[1..], n - 1);
    }
  }

  lemma KeptOfCanonical(s: string)
    requires Canonical(UrlSafe, s)
    ensures KeptValues(s) == PrefixValues(UrlSafe, s)
  {
    KeptOfPrefix(s, |s| - (if CanonicalWith(UrlSafe, s, 0) then 0 else if CanonicalWith(UrlSafe, s, 1) then 1 else 2));
  }

  /** The URL-safe decoder undoes the block encoder on every byte string. */
  lemma UrlRoundTrip(x: seq<Byte>)
    ensures DecodeUrl(Encode(UrlSafe, x)) == x
  {
    EncodeIsCanonical(UrlSafe, x);
    KeptOfCanonical(Encode(UrlSafe, x));
    BytesOfEncode(UrlSafe, x);
  }

  /** Across the two files: what the streaming encoder wrote, with its two symbols substituted, is read back
      by the URL-safe decoder. */
  lemma CrossRoundTrip(x: seq<Byte>)
    ensures DecodeUrl(ToUrlSafeText(Encode(Standard, x))) == x
  {
    AlphabetsAgreeUpToSubstitution(x);
    UrlRoundTrip(x);
  }

  /** The encoder undoes the decoder on the canonical strings and on no others. */
  lemma UrlReverseRoundTrip(s: string)
    ensures Encode(UrlSafe, DecodeUrl(s)) == s <==> Canonical(UrlSafe, s)
  {
    if Canonical(UrlSafe, s) {
      KeptOfCanonical(s);
      CanonicalRoundTrip(UrlSafe, s);
    }
    EncodeIsCanonical(UrlSafe, DecodeUrl(s));
  }

  /** A foreign character is invisible to this decoder; the one in common.hpp stops there. */
  lemma {:induction false} ForeignCharacter(a: string, c: char, b: string)
    requires forall k :: 0 <= k < |a| ==> Value(UrlSafe, a[k]) != -1
    requires Value(UrlSafe, c) == -1 && c != '='
    ensures KeptValues(a + [c] + b) == KeptValues(a + b)
  {
    if a == "" {
      assert ([c] + b)[1..] == b;
      assert a + [c] + b == [c] + b && a + b == b;
    } else {
      assert (a + [c] + b)[1..] == a[1..] + [c] + b && (a + b)[1..] == a[1..] + b;
      ForeignCharacter(a[1..], c, b);
    }
  }

  lemma {:induction false} ForeignCharacterStops(a: string, c: char, b: string)
    requires Value(Standard, c) == -1
    ensures PrefixValues(Standard, a + [c] + b) == PrefixValues(Standard, a)
  {
    if a == "" {
      assert a + [c] + b == [c] + b;
    } else {
      assert (a + [c] + b)[1..] == a[1..] + [c] + b;
      ForeignCharacterStops(a[1..], c, b);
    }
  }

  // ----- Tokens

  const DOT: Byte := 46

  /** call_id.fn.expiry.nonce.sig, then base64url. */
  function OracleToken(callId: seq<Byte>, fn: seq<Byte>, expiry: seq<Byte>, nonce: seq<Byte>, sig: seq<Byte>): string
  {
    Encode(UrlSafe, callId + [DOT] + fn + [DOT] + expiry + [DOT] + nonce + [DOT] + sig)
  }

  /** The loop that cuts the decoded token at dots. */
  method TokenFields(raw: seq<Byte>) returns (parts: seq<seq<Byte>>)
    ensures parts == SplitOn(raw, DOT)
  {
    parts := [];
    var cur: seq<Byte> := [];
    PrependNothing(SplitOn(raw, DOT));
    for i := 0 to |raw|
      invariant parts + Prepend(cur, SplitOn(raw[i..], DOT)) == SplitOn(raw, DOT)
    {
      assert raw[i..][1..] == raw[i + 1..];
      if raw[i] == DOT {
        SplitCuts(cur, raw[i..], DOT);
        parts := parts + [cur];
        cur := [];
      } else {
        SplitGrows(cur, raw[i..], DOT);
        cur := cur + [raw[i]];
      }
    }
    SplitEnds(cur, DOT);
    parts := parts + [cur];
  }

  lemma {:induction false} FieldCount(s: seq<Byte>)
    ensures |SplitOn(s, DOT)| == 1 <==> Free(s, DOT)
  {
    if s != [] {
      FieldCount(s[1..]);
      assert Free(s, DOT) <==> s[0] != DOT && Free(s[1..], DOT) by {
        assert forall k :: 0 <= k < |s| - 1 ==> s[1..][k] == s[k + 1];
        assert forall k :: 0 < k < |s| ==> s[k] == s[1..][k - 1];
      }
    }
  }

  /**
   * Decoding a token and cutting it at dots gives five fields exactly when neither the call id nor the
   * function name holds a dot (the other three never do), and then they are the five that went in.
   */
  lemma TokenInterop(callId: seq<Byte>, fn: seq<Byte>, expiry: seq<Byte>, nonce: seq<Byte>, sig: seq<Byte>)
    requires Free(expiry, DOT) && Free(nonce, DOT) && Free(sig, DOT)
    ensures var fields := SplitOn(DecodeUrl(OracleToken(callId, fn, expiry, nonce, sig)), DOT);
            && (|fields| == 5 <==> Free(callId, DOT) && Free(fn, DOT))
            && (|fields| == 5 ==> fields == [callId, fn, expiry, nonce, sig])
  {
    hide SplitOn;
    var r3 := nonce + [DOT] + sig;
    var r2 := expiry + [DOT] + r3;
    var r1 := fn + [DOT] + r2;
    var raw := callId + [DOT] + r1;
    assert raw == callId + [DOT] + fn + [DOT] + expiry + [DOT] + nonce + [DOT] + sig;
    UrlRoundTrip(raw);
    SplitOfConcat(callId, r1, DOT);
    SplitOfConcat(fn, r2, DOT);
    SplitOfConcat(expiry, r3, DOT);
    SplitOfConcat(nonce, sig, DOT);
    SplitPlain(expiry, DOT);
    SplitPlain(nonce, DOT);
    SplitPlain(sig, DOT);
    FieldCount(callId);
    FieldCount(fn);
    if Free(callId, DOT) && Free(fn, DOT) {
      SplitPlain(callId, DOT);
      SplitPlain(fn, DOT);
    }
  }

  /** A call id such as "a.b" breaks the token up. */
  lemma DottedCallId()
    ensures |SplitOn(DecodeUrl(OracleToken([97, DOT, 98], [102], [49], [48], [48])), DOT)| != 5
  {
    hide OracleToken, DecodeUrl, SplitOn;
    var id: seq<Byte> := [97, DOT, 98];
    assert id[1] == DOT;
    TokenInterop(id, [102], [49], [48], [48]);
  }
}
