// base64_encode and base64_decode of common.hpp: streaming loops over a 32-bit accumulator that never
// masks the bits it has already used.

module CommonBase64 {
  import opened Base64Spec

  // ----- 32-bit arithmetic

  const TWO_32 := 0x1_0000_0000
  const TWO_31 := 0x8000_0000

  /** A C++20 int: shifting left keeps the low 32 bits and reads them as two's complement. */
  function Wrap32(v: int): (r: int)
    ensures -TWO_31 <= r < TWO_31
  {
    (v + TWO_31) % TWO_32 - TWO_31
  }

  datatype Width = Int32 | Unbounded

  function Fit(w: Width, v: int): int
  {
    if w.Int32? then Wrap32(v) else v
  }

  function Pow2(k: nat): (r: nat)
    ensures r > 0
  {
    if k == 0 then 1 else 2 * Pow2(k - 1)
  }

  lemma Powers()
    ensures Pow2(0) == 1 && Pow2(2) == 4 && Pow2(4) == 16 && Pow2(6) == 64 && Pow2(8) == 256
  {
    assert Pow2(1) == 2 && Pow2(3) == 8 && Pow2(5) == 32 && Pow2(7) == 128;
  }

  /** Arithmetic shift right: it rounds towards minus infinity. */
  function Shr(v: int, k: nat): int
  {
    v / Pow2(k)
  }

  /** `v & 0x3F` and `v & 0xFF`: the low bits, of a negative number too. */
  function Low6(v: int): Sextet
  {
    Powers();
    v % Pow2(6)
  }

  function Low8(v: int): Byte
  {
    Powers();
    v % Pow2(8)
  }

  /** The four shift amounts that occur, as divisions. */
  predicate IsShift(k: int)
  {
    k == 0 || k == 2 || k == 4 || k == 6
  }

  lemma ShiftsAreDivisions(v: int)
    ensures Shr(v, 0) == v && Shr(v, 2) == v / 4 && Shr(v, 4) == v / 16 && Shr(v, 6) == v / 64
  {
    Powers();
  }

  lemma LowBits(v: int)
    ensures Low6(v) == v % 64 && Low8(v) == v % 256
  {
    Powers();
  }

  lemma WrapDropsMultiples(v: int) returns (q: int)
    ensures v == Wrap32(v) + TWO_32 * q
  {
    q := (v + TWO_31) / TWO_32;
  }

  lemma Split4(q: int, r: int)
    requires 0 <= r < 4
    ensures (4 * q + r) / 4 == q && (4 * q + r) % 4 == r
  {
  }

  lemma Split16(q: int, r: int)
    requires 0 <= r < 16
    ensures (16 * q + r) / 16 == q && (16 * q + r) % 16 == r
  {
  }

  lemma Split64(q: int, r: int)
    requires 0 <= r < 64
    ensures (64 * q + r) / 64 == q && (64 * q + r) % 64 == r
  {
  }

  lemma Split256(q: int, r: int)
    requires 0 <= r < 256
    ensures (256 * q + r) / 256 == q && (256 * q + r) % 256 == r
  {
  }

  lemma ShiftOfMultiple(v: int, q: int, k: int)
    requires IsShift(k)
    ensures Low8(Shr(v + TWO_32 * q, k)) == Low8(Shr(v, k))
  {
    hide Shr, Low8;
    var w := v + TWO_32 * q;
    ShiftsAreDivisions(v);
    ShiftsAreDivisions(w);
    var m := if k == 0 then 0x100_0000 * q else if k == 2 then 0x40_0000 * q
             else if k == 4 then 0x10_0000 * q else 0x4_0000 * q;
    if k == 2 {
      Split4(v / 4 + 256 * m, v % 4);
    } else if k == 4 {
      Split16(v / 16 + 256 * m, v % 16);
    } else if k == 6 {
      Split64(v / 64 + 256 * m, v % 64);
    }
    LowBits(Shr(w, k));
    LowBits(Shr(v, k));
    assert Shr(w, k) == Shr(v, k) + 256 * m;
    Split256(Shr(v, k) / 256 + m, Shr(v, k) % 256);
  }

  /** The low bits of a shifted accumulator do not see the bits that fell off at the top. */
  lemma ShiftedLowBits(wide: int, k: int)
    requires IsShift(k)
    ensures Low8(Shr(Wrap32(wide), k)) == Low8(Shr(wide, k))
    ensures Low6(Shr(Wrap32(wide), k)) == Low6(Shr(wide, k))
  {
    hide Shr, Low6, Low8, Wrap32;
    var q := WrapDropsMultiples(wide);
    ShiftOfMultiple(Wrap32(wide), q, k);
    LowSixOfLowEight(Shr(Wrap32(wide), k));
    LowSixOfLowEight(Shr(wide, k));
  }

  lemma LowSixOfLowEight(v: int)
    ensures Low8(v) % 64 == Low6(v)
  {
    hide Low6, Low8;
    LowBits(v);
  }

  lemma WrapIsUnique(r: int, q: int)
    requires -TWO_31 <= r < TWO_31
    ensures Wrap32(r + TWO_32 * q) == r
  {
  }

  /** `v << 6` and `v << 8` before any bits are lost. */
  function Scale(v: int, k: int): int
    requires k == 6 || k == 8
  {
    if k == 6 then v * 64 else v * 256
  }

  lemma WrappedMultiple(v: int, k: int)
    requires k == 6 || k == 8
    ensures Wrap32(Scale(v, k)) % Scale(1, k) == 0
  {
    var p := WrapDropsMultiples(Scale(v, k));
    if k == 6 {
      Split64(v - 0x400_0000 * p, 0);
    } else {
      Split256(v - 0x100_0000 * p, 0);
    }
  }

  /** Adding `low` to a shifted value fills zero bits, so the sum cannot leave the int range. */
  lemma NoOverflow(r: int, k: int, low: int)
    requires k == 6 || k == 8
    requires 0 <= low < Scale(1, k)
    requires -TWO_31 <= r < TWO_31 && r % Scale(1, k) == 0
    ensures r + low < TWO_31
  {
    if k == 6 {
      assert r == 64 * (r / 64);
    } else {
      assert r == 256 * (r / 256);
    }
  }

  /** Shifting in low bits commutes with wrapping, and the addition never leaves the int range. */
  lemma ShiftInCommutes(wide: int, k: int, low: int)
    requires k == 6 || k == 8
    requires 0 <= low < Scale(1, k)
    ensures Wrap32(Scale(Wrap32(wide), k)) + low == Wrap32(Scale(wide, k) + low)
  {
    var v := Wrap32(wide);
    var q := WrapDropsMultiples(wide);
    var p := WrapDropsMultiples(Scale(v, k));
    var r := Wrap32(Scale(v, k));
    WrappedMultiple(v, k);
    NoOverflow(r, k, low);
    if k == 6 {
      assert wide * 64 + low == r + low + TWO_32 * (p + 64 * q);
      WrapIsUnique(r + low, p + 64 * q);
    } else {
      assert wide * 256 + low == r + low + TWO_32 * (p + 256 * q);
      WrapIsUnique(r + low, p + 256 * q);
    }
  }

  /** Adding after wrapping is wrapping after adding, so the addition itself never overflows. */
  lemma SumOfShifted(val: int, k: int, low: int)
    requires k == 6 || k == 8
    requires 0 <= low < Scale(1, k)
    ensures Wrap32(Scale(val, k)) + low == Wrap32(Scale(val, k) + low)
  {
    var r := Wrap32(Scale(val, k));
    var p := WrapDropsMultiples(Scale(val, k));
    WrappedMultiple(val, k);
    NoOverflow(r, k, low);
    WrapIsUnique(r + low, p);
  }

  /** `(val << k) + low` in a given width: the exact sum, reduced to that width. */
  function ShiftIn(w: Width, val: int, k: int, low: int): (r: int)
    requires k == 6 || k == 8
    requires 0 <= low < Scale(1, k)
    ensures r == Fit(w, Scale(val, k) + low)
    ensures w.Int32? ==> -TWO_31 <= r < TWO_31
  {
    SumOfShifted(val, k, low);
    Fit(w, Scale(val, k)) + low
  }

  lemma ShiftInWraps(wide: int, k: int, low: int)
    requires k == 6 || k == 8
    requires 0 <= low < Scale(1, k)
    ensures ShiftIn(Int32, Wrap32(wide), k, low) == Wrap32(ShiftIn(Unbounded, wide, k, low))
  {
    ShiftInCommutes(wide, k, low);
  }

  /** The sextet that holds the bits left over after the last byte. */
  function LeftOver(w: Width, val: int, valb: int): Sextet
    requires valb in {-4, -2}
  {
    Low6(Shr(ShiftIn(w, val, 8, 0), valb + 8))
  }

  // ----- base64_encode

  /** The inner loop: push the sextet at `valb`, six bits lower each time, while bits are pending. */
  function Emitted(val: int, valb: int): seq<Sextet>
    requires valb in {-6, -4, -2, 0, 2, 4, 6}
    decreases valb + 6
  {
    if valb < 0 then [] else [Low6(Shr(val, valb))] + Emitted(val, valb - 6)
  }

  function PendingAfter(valb: int): (r: int)
    requires valb in {2, 4, 6}
    ensures r in {-6, -4, -2}
  {
    if valb == 6 then -6 else valb - 6
  }

  /** The sextets still to come, from any accumulator state at the head of the loop. */
  function EncodeFrom(w: Width, x: seq<Byte>, val: int, valb: int): seq<Sextet>
    requires valb in {-6, -4, -2}
  {
    if x == [] then
      if valb > -6 then [LeftOver(w, val, valb)] else []
    else
      var val' := ShiftIn(w, val, 8, x[0]);
      Emitted(val', valb + 8) + EncodeFrom(w, x[1..], val', PendingAfter(valb + 8))
  }

  lemma EmittedIgnoresTheTop(wide: int, valb: int)
    requires valb in {2, 4, 6}
    ensures Emitted(Wrap32(wide), valb) == Emitted(wide, valb)
  {
    ShiftedLowBits(wide, valb);
    if valb == 6 {
      ShiftedLowBits(wide, 0);
      assert Emitted(wide, 6) == [Low6(Shr(wide, 6))] + Emitted(wide, 0);
      assert Emitted(Wrap32(wide), 6) == [Low6(Shr(Wrap32(wide), 6))] + Emitted(Wrap32(wide), 0);
    }
  }

  /** Running the encoder on 32 bits or on an accumulator that never overflows gives the same output. */
  lemma {:induction false} EncoderWidthsAgree(x: seq<Byte>, wide: int, valb: int)
    requires valb in {-6, -4, -2}
    ensures EncodeFrom(Int32, x, Wrap32(wide), valb) == EncodeFrom(Unbounded, x, wide, valb)
  {
    hide ShiftIn, Wrap32, Emitted;
    if x == [] {
      ShiftInWraps(wide, 8, 0);
      if valb > -6 {
        ShiftedLowBits(ShiftIn(Unbounded, wide, 8, 0), valb + 8);
      }
    } else {
      var wide' := ShiftIn(Unbounded, wide, 8, x[0]);
      ShiftInWraps(wide, 8, x[0]);
      EmittedIgnoresTheTop(wide', valb + 8);
      EncoderWidthsAgree(x[1..], wide', PendingAfter(valb + 8));
    }
  }

  /** What the next sextets look like when byte `c` follows byte `p` in the accumulator. */
  lemma ByteShifts(hi: int, p: int, c: int)
    requires 0 <= p < 256 && 0 <= c < 256
    ensures (hi * 256 + c) / 4 % 64 == S0(c)
    ensures ((hi * 256 + p) * 256 + c) / 16 % 64 == S1(p, c)
    ensures ((hi * 256 + p) * 256 + c) / 64 % 64 == S2(p, c)
    ensures ((hi * 256 + p) * 256 + c) % 64 == S3(c)
  {
    Split4(hi * 64 + c / 4, c % 4);
    Split64(hi, c / 4);
    Split16(hi * 4096 + p * 16 + c / 16, c % 16);
    Split64(hi * 64 + p / 4, p % 4 * 16 + c / 16);
    Split64(hi * 1024 + p * 4 + c / 64, c % 64);
    Split64(hi * 16 + p / 16, p % 16 * 4 + c / 64);
  }

  lemma EmittedSextets(v: int)
    ensures Emitted(v, 2) == [v / 4 % 64]
    ensures Emitted(v, 4) == [v / 16 % 64]
    ensures Emitted(v, 6) == [v / 64 % 64, v % 64]
  {
    assert Emitted(v, -4) == [] && Emitted(v, -2) == [] && Emitted(v, -6) == [];
    assert Emitted(v, 0) == [v % 64];
  }

  lemma EncodePhase0(x: seq<Byte>, hi: int)
    ensures EncodeFrom(Unbounded, x, hi, -6)
         == if x == [] then []
            else [S0(x[0])] + EncodeFrom(Unbounded, x[1..], hi * 256 + x[0], -4)
  {
    hide Emitted, S0, S1, S2, S3;
    if x != [] {
      EmittedSextets(hi * 256 + x[0]);
      ByteShifts(hi, 0, x[0]);
    }
  }

  lemma EncodePhase1(x: seq<Byte>, hi: int, p: int)
    requires 0 <= p < 256
    ensures EncodeFrom(Unbounded, x, hi * 256 + p, -4)
         == if x == [] then [S1(p, 0)]
            else [S1(p, x[0])] + EncodeFrom(Unbounded, x[1..], (hi * 256 + p) * 256 + x[0], -2)
  {
    hide Emitted, S0, S1, S2, S3;
    var c := if x == [] then 0 else x[0];
    EmittedSextets((hi * 256 + p) * 256 + c);
    ByteShifts(hi, p, c);
  }

  lemma EncodePhase2(x: seq<Byte>, hi: int, p: int)
    requires 0 <= p < 256
    ensures EncodeFrom(Unbounded, x, hi * 256 + p, -2)
         == if x == [] then [S2(p, 0)]
            else [S2(p, x[0]), S3(x[0])] + EncodeFrom(Unbounded, x[1..], (hi * 256 + p) * 256 + x[0], -6)
  {
    hide Emitted, S0, S1, S2, S3;
    var c := if x == [] then 0 else x[0];
    EmittedSextets((hi * 256 + p) * 256 + c);
    ByteShifts(hi, p, c);
  }

  lemma EncodeThree(x: seq<Byte>, hi: int)
    requires |x| >= 3
    ensures EncodeFrom(Unbounded, x, hi, -6)
         == [S0(x[0]), S1(x[0], x[1]), S2(x[1], x[2]), S3(x[2])]
          + EncodeFrom(Unbounded, x[3..], ((hi * 256 + x[0]) * 256 + x[1]) * 256 + x[2], -6)
  {
    hide EncodeFrom, S0, S1, S2, S3;
    EncodePhase0(x, hi);
    EncodePhase1(x[1..], hi, x[0]);
    assert x[1..][1..] == x[2..] && x[2..][1..] == x[3..];
    EncodePhase2(x[2..], hi * 256 + x[0], x[1]);
  }

  /** The accumulator loop computes the block definition, whatever the accumulator held before. */
  lemma {:induction false} EncoderMeetsSpec(x: seq<Byte>, hi: int)
    ensures EncodeFrom(Unbounded, x, hi, -6) == Sextets(x)
  {
    hide EncodeFrom, S0, S1, S2, S3;
    if |x| < 3 {
      EncodePhase0(x, hi);
      if x != [] {
        EncodePhase1(x[1..], hi, x[0]);
        if |x| == 2 {
          assert x[1..][1..] == [];
          EncodePhase2([], hi * 256 + x[0], x[1]);
        }
      }
    } else {
      EncodeThree(x, hi);
      EncoderMeetsSpec(x[3..], ((hi * 256 + x[0]) * 256 + x[1]) * 256 + x[2]);
    }
  }

  lemma SymbolsConcat(al: Alphabet, u: seq<Sextet>, v: seq<Sextet>)
    ensures Symbols(al, u + v) == Symbols(al, u) + Symbols(al, v)
  {
  }

  lemma EncodeTurn(w: Width, x: seq<Byte>, val: int, valb: int, val': int)
    requires x != [] && valb in {-6, -4, -2} && val' == ShiftIn(w, val, 8, x[0])
    ensures Symbols(Standard, EncodeFrom(w, x, val, valb))
         == Symbols(Standard, Emitted(val', valb + 8))
          + Symbols(Standard, EncodeFrom(w, x[1..], val', PendingAfter(valb + 8)))
  {
    SymbolsConcat(Standard, Emitted(val', valb + 8), EncodeFrom(w, x[1..], val', PendingAfter(valb + 8)));
  }

  lemma EncodeEnd(val: int, valb: int)
    requires valb in {-6, -4, -2}
    ensures Symbols(Standard, EncodeFrom(Int32, [], val, valb))
         == if valb > -6 then [Symbol(Standard, LeftOver(Int32, val, valb))] else ""
  {
  }

  /** The inner loop of base64_encode. */
  method PushPending(out0: string, val: int, valb0: int) returns (out: string, valb: int)
    requires valb0 in {2, 4, 6}
    ensures out == out0 + Symbols(Standard, Emitted(val, valb0))
    ensures valb == PendingAfter(valb0)
  {
    out, valb := out0, valb0;
    while valb >= 0
      invariant valb in {2, 4, 6, 0, -6, -4, -2}
      invariant valb0 == 6 ==> valb in {6, 0, -6}
      invariant valb0 < 6 ==> valb == valb0 || valb == valb0 - 6
      invariant out + Symbols(Standard, Emitted(val, valb)) == out0 + Symbols(Standard, Emitted(val, valb0))
    {
      var v := Low6(Shr(val, valb));
      SymbolsConcat(Standard, [v], Emitted(val, valb - 6));
      assert Symbols(Standard, [v]) == [Symbol(Standard, v)];
      out := out + [Symbol(Standard, v)];
      valb := valb - 6;
    }
  }

  /** The closing loop of base64_encode. */
  method PadToQuartets(out0: string) returns (out: string)
    ensures out == out0 + Padding(|out0|)
  {
    out := out0;
    while |out| % 4 != 0
      invariant out + Padding(|out|) == out0 + Padding(|out0|)
      decreases |Padding(|out|)|
    {
      assert Padding(|out|) == "=" + Padding(|out| + 1);
      out := out + "=";
    }
  }

  method Base64Encode(input: seq<Byte>) returns (out: string)
    ensures out == Encode(Standard, input)
  {
    hide Shr, Emitted, Sextets, LeftOver, EncodeFrom, ShiftIn, Symbols, Symbol;
    out := "";
    var val, valb := 0, -6;
    EncoderWidthsAgree(input, 0, -6);
    EncoderMeetsSpec(input, 0);
    ghost var symbols := Symbols(Standard, Sextets(input));
    for i := 0 to |input|
      invariant valb in {-6, -4, -2}
      invariant -TWO_31 <= val < TWO_31
      invariant out + Symbols(Standard, EncodeFrom(Int32, input[i..], val, valb)) == symbols
    {
      assert input[i..][1..] == input[i + 1..];
      EncodeTurn(Int32, input[i..], val, valb, ShiftIn(Int32, val, 8, input[i]));
      val := ShiftIn(Int32, val, 8, input[i]);
      out, valb := PushPending(out, val, valb + 8);
    }
    EncodeEnd(val, valb);
    if valb > -6 {
      out := out + [Symbol(Standard, LeftOver(Int32, val, valb))];
    }
    assert out == symbols;
    out := PadToQuartets(out);
  }

  // ----- base64_decode

  /** The byte at the top of the pending bits. */
  function TopByte(val: int, valb: int): Byte
    requires valb in {0, 2, 4}
  {
    Low8(Shr(val, valb))
  }

  /** The bytes still to come, from any accumulator state at the head of the loop. */
  function DecodeFrom(w: Width, v: seq<Sextet>, val: int, valb: int): seq<Byte>
    requires valb in {-8, -6, -4, -2}
  {
    if v == [] then []
    else
      var val' := ShiftIn(w, val, 6, v[0]);
      if valb + 6 >= 0 then
        [TopByte(val', valb + 6)] + DecodeFrom(w, v[1..], val', valb - 2)
      else
        DecodeFrom(w, v[1..], val', valb + 6)
  }

  lemma {:induction false} DecoderWidthsAgree(v: seq<Sextet>, wide: int, valb: int)
    requires valb in {-8, -6, -4, -2}
    ensures DecodeFrom(Int32, v, Wrap32(wide), valb) == DecodeFrom(Unbounded, v, wide, valb)
  {
    hide ShiftIn, Wrap32, Shr;
    if v != [] {
      var wide' := ShiftIn(Unbounded, wide, 6, v[0]);
      ShiftInWraps(wide, 6, v[0]);
      if valb + 6 >= 0 {
        ShiftedLowBits(wide', valb + 6);
        DecoderWidthsAgree(v[1..], wide', valb - 2);
      } else {
        DecoderWidthsAgree(v[1..], wide', valb + 6);
      }
    }
  }

  /** What the next byte looks like when sextet `c` follows sextet `p` in the accumulator. */
  lemma SextetShifts(hi: int, p: int, c: int)
    requires 0 <= p < 64 && 0 <= c < 64
    ensures ((hi * 64 + p) * 64 + c) / 16 % 256 == B0(p, c)
    ensures ((hi * 64 + p) * 64 + c) / 4 % 256 == B1(p, c)
    ensures ((hi * 64 + p) * 64 + c) % 256 == B2(p, c)
  {
    Split16(hi * 256 + p * 4 + c / 16, c % 16);
    Split256(hi, p * 4 + c / 16);
    Split4(hi * 1024 + p * 16 + c / 4, c % 4);
    Split256(hi * 4 + p / 16, p % 16 * 16 + c / 4);
    Split256(hi * 16 + p / 4, p % 4 * 64 + c);
  }

  lemma DecodePhase0(v: seq<Sextet>, hi: int)
    ensures DecodeFrom(Unbounded, v, hi, -8)
         == if v == [] then [] else DecodeFrom(Unbounded, v[1..], hi * 64 + v[0], -2)
  {
  }

  /** The loop turns that push the first, second and third byte of a group. */
  lemma DecodePhase1(v: seq<Sextet>, hi: int, p: int)
    requires 0 <= p < 64
    ensures DecodeFrom(Unbounded, v, hi * 64 + p, -2)
         == if v == [] then []
            else [B0(p, v[0])] + DecodeFrom(Unbounded, v[1..], (hi * 64 + p) * 64 + v[0], -4)
  {
    hide B0, B1, B2;
    SextetShifts(hi, p, if v == [] then 0 else v[0]);
  }

  lemma DecodePhase2(v: seq<Sextet>, hi: int, p: int)
    requires 0 <= p < 64
    ensures DecodeFrom(Unbounded, v, hi * 64 + p, -4)
         == if v == [] then []
            else [B1(p, v[0])] + DecodeFrom(Unbounded, v[1..], (hi * 64 + p) * 64 + v[0], -6)
  {
    hide B0, B1, B2;
    SextetShifts(hi, p, if v == [] then 0 else v[0]);
  }

  lemma DecodePhase3(v: seq<Sextet>, hi: int, p: int)
    requires 0 <= p < 64
    ensures DecodeFrom(Unbounded, v, hi * 64 + p, -6)
         == if v == [] then []
            else [B2(p, v[0])] + DecodeFrom(Unbounded, v[1..], (hi * 64 + p) * 64 + v[0], -8)
  {
    hide B0, B1, B2;
    SextetShifts(hi, p, if v == [] then 0 else v[0]);
  }

  lemma DecodeShort(v: seq<Sextet>, hi: int)
    requires |v| < 4
    ensures DecodeFrom(Unbounded, v, hi, -8) == Bytes(v)
  {
    hide DecodeFrom, B0, B1, B2;
    DecodePhase0(v, hi);
    if v != [] {
      DecodePhase1(v[1..], hi, v[0]);
      if |v| > 1 {
        assert v[1..][1..] == v[2..];
        DecodePhase2(v[2..], hi * 64 + v[0], v[1]);
        if |v| > 2 {
          assert v[2..][1..] == [];
          DecodePhase3([], (hi * 64 + v[0]) * 64 + v[1], v[2]);
        }
      }
    }
  }

  /** The accumulator loop computes the block definition, whatever the accumulator held before. */
  lemma {:induction false} DecoderMeetsSpec(v: seq<Sextet>, hi: int)
    ensures DecodeFrom(Unbounded, v, hi, -8) == Bytes(v)
  {
    hide DecodeFrom, B0, B1, B2;
    if |v| < 4 {
      DecodeShort(v, hi);
    } else {
      assert v[1..][1..] == v[2..] && v[2..][1..] == v[3..] && v[3..][1..] == v[4..];
      DecodePhase0(v, hi);
      DecodePhase1(v[1..], hi, v[0]);
      DecodePhase2(v[2..], hi * 64 + v[0], v[1]);
      DecodePhase3(v[3..], (hi * 64 + v[0]) * 64 + v[1], v[2]);
      DecoderMeetsSpec(v[4..], (((hi * 64 + v[0]) * 64 + v[1]) * 64 + v[2]) * 64 + v[3]);
    }
  }

  /** What base64_decode returns: the bytes of the longest alphabet prefix. */
  function Decode(s: string): seq<Byte>
  {
    Bytes(PrefixValues(Standard, s))
  }

  /** One character read, or none left. */
  lemma DecodeTurn(s: string, val: int, valb: int)
    requires valb in {-8, -6, -4, -2}
    ensures DecodeFrom(Int32, PrefixValues(Standard, s), val, valb)
         == if s == "" || Value(Standard, s[0]) == -1 then []
            else
              var val' := ShiftIn(Int32, val, 6, Value(Standard, s[0]));
              var rest := PrefixValues(Standard, s[1..]);
              if valb + 6 >= 0 then [TopByte(val', valb + 6)] + DecodeFrom(Int32, rest, val', valb - 2)
              else DecodeFrom(Int32, rest, val', valb + 6)
  {
    hide ShiftIn, TopByte;
    if s != "" && Value(Standard, s[0]) != -1 {
      var v := PrefixValues(Standard, s);
      assert v[0] == Value(Standard, s[0]) && v[1..] == PrefixValues(Standard, s[1..]);
    }
  }

  lemma DecodeStart(s: string)
    ensures DecodeFrom(Int32, PrefixValues(Standard, s), 0, -8) == Decode(s)
  {
    DecoderWidthsAgree(PrefixValues(Standard, s), 0, -8);
    DecoderMeetsSpec(PrefixValues(Standard, s), 0);
  }

  /** What is out and what is still to come are the whole, after a turn as before. */
  lemma DecodeGoesOn(out: seq<Byte>, s: string, val: int, valb: int, whole: seq<Byte>)
    requires valb in {-8, -6, -4, -2} && s != "" && Value(Standard, s[0]) != -1
    requires out + DecodeFrom(Int32, PrefixValues(Standard, s), val, valb) == whole
    ensures var val' := ShiftIn(Int32, val, 6, Value(Standard, s[0]));
            var rest := PrefixValues(Standard, s[1..]);
            whole == if valb + 6 >= 0 then (out + [TopByte(val', valb + 6)]) + DecodeFrom(Int32, rest, val', valb - 2)
                     else out + DecodeFrom(Int32, rest, val', valb + 6)
  {
    hide ShiftIn, TopByte, Value, PrefixValues, DecodeFrom;
    DecodeTurn(s, val, valb);
  }

  lemma DecodeStops(out: seq<Byte>, s: string, val: int, valb: int, whole: seq<Byte>)
    requires valb in {-8, -6, -4, -2} && (s == "" || Value(Standard, s[0]) == -1)
    requires out + DecodeFrom(Int32, PrefixValues(Standard, s), val, valb) == whole
    ensures out == whole
  {
    hide ShiftIn, TopByte, Value, PrefixValues, DecodeFrom;
    DecodeTurn(s, val, valb);
  }

  method Base64Decode(input: string) returns (out: seq<Byte>)
    ensures out == Decode(input)
  {
    hide ShiftIn, TopByte, Value, PrefixValues, DecodeFrom, Decode;
    out := [];
    var val, valb := 0, -8;
    DecodeStart(input);
    ghost var rest := input;
    for i := 0 to |input|
      invariant valb in {-8, -6, -4, -2}
      invariant rest == input[i..]
      invariant out + DecodeFrom(Int32, PrefixValues(Standard, rest), val, valb) == Decode(input)
    {
      var v := Value(Standard, input[i]);
      if v == -1 {
        break;
      }
      DecodeGoesOn(out, rest, val, valb, Decode(input));
      rest := rest[1..];
      val := ShiftIn(Int32, val, 6, v);
      valb := valb + 6;
      if valb >= 0 {
        out := out + [TopByte(val, valb)];
        valb := valb - 8;
      }
    }
    DecodeStops(out, rest, val, valb, Decode(input));
  }

  // ----- Round trips

  /** Decoding undoes encoding on every byte string. */
  lemma RoundTrip(x: seq<Byte>)
    ensures Decode(Encode(Standard, x)) == x
  {
    BytesOfEncode(Standard, x);
  }

  /** Encoding undoes decoding on the canonical strings of RFC 4648, section 3.5, and on no others. */
  lemma ReverseRoundTrip(s: string)
    ensures Encode(Standard, Decode(s)) == s <==> Canonical(Standard, s)
    ensures Canonical(Standard, s) <==> exists x :: Encode(Standard, x) == s
  {
    CanonicalRoundTrip(Standard, s);
    if x :| Encode(Standard, x) == s {
      EncodeIsCanonical(Standard, x);
    }
  }

  /** For instance, two letters without their padding, or with stray bits, are read as the same byte. */
  lemma SloppyTextIsRead()
    ensures Decode("QQ") == [65] && Decode("QR==") == [65] && Encode(Standard, [65]) == "QQ=="
  {
    hide B0, B1, B2, S0, S1;
    assert "QQ"[1..] == "Q" && "Q"[1..] == "";
    assert "QR=="[1..] == "R==" && "R=="[1..] == "==";
    assert PrefixValues(Standard, "Q") == [16] && PrefixValues(Standard, "R==") == [17];
    assert PrefixValues(Standard, "QQ") == [16] + [16] && PrefixValues(Standard, "QR==") == [16] + [17];
    OneByte();
  }

  lemma OneByte()
    ensures Bytes([16, 16]) == [65] && Bytes([16, 17]) == [65] && Encode(Standard, [65]) == "QQ=="
  {
    assert Sextets([65]) == [16, 16];
    assert Symbols(Standard, [16, 16]) == "QQ";
  }

  // ----- The decoder's table, sixteen entries at a time

  function TableRow(k: nat): (r: seq<int>)
    requires k < 16
    ensures |r| == 16
  {
    match k
    case 2 => [-1, -1, -1, -1, -1, -1, -1, -1, -1, -1, -1, 62, -1, -1, -1, 63]
    case 3 => [52, 53, 54, 55, 56, 57, 58, 59, 60, 61, -1, -1, -1, -1, -1, -1]
    case 4 => [-1, 0, 1, 2, 3, 4, 5, 6, 7, 8, 9, 10, 11, 12, 13, 14]
    case 5 => [15, 16, 17, 18, 19, 20, 21, 22, 23, 24, 25, -1, -1, -1, -1, -1]
    case 6 => [-1, 26, 27, 28, 29, 30, 31, 32, 33, 34, 35, 36, 37, 38, 39, 40]
    case 7 => [41, 42, 43, 44, 45, 46, 47, 48, 49, 50, 51, -1, -1, -1, -1, -1]
    case _ => [-1, -1, -1, -1, -1, -1, -1, -1, -1, -1, -1, -1, -1, -1, -1, -1]
  }

  /** Every one of the 256 entries is the value of its character, or -1. */
  lemma TableIsValue(c: nat)
    requires c < 256
    ensures TableRow(c / 16)[c % 16] == Value(Standard, c as char)
  {
    hide TableRow, Value;
    var k, j := c / 16, c % 16;
    assert c == 16 * k + j;
    if k < 6 {
      LowRows(k, j);
    } else {
      HighRows(k, j);
    }
  }

  lemma LowRows(k: nat, j: nat)
    requires k < 6 && j < 16
    ensures TableRow(k)[j] == Value(Standard, (16 * k + j) as char)
  {
  }

  lemma HighRows(k: nat, j: nat)
    requires 6 <= k < 16 && j < 16
    ensures TableRow(k)[j] == Value(Standard, (16 * k + j) as char)
  {
  }
}
