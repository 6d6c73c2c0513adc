/** Byte and machine-word helpers shared by the codecs: little-endian byte strings,
    the GCC bit-count builtins, and byte strings laid out inside a larger one. */
module Bits {
  type u8 = bv8
  type u64 = bv64

  datatype Option<+T> = None | Some(value: T)

  // ----- One byte of a 64-bit word

  function Low(x: u64): u8 { (x & 0xFF) as u8 }

  function Hi(x: u64): u64 { x >> 8 }

  function Glue(b: u8, rest: u64): u64 { (b as u64) | (rest << 8) }

  function Up8(x: u64): u64 { x << 8 }

  function Or(x: u64, y: u64): u64 { x | y }

  lemma GlueLowHi(x: u64)
    ensures Glue(Low(x), Hi(x)) == x
  {}

  /** A number below 256 survives the trip through a byte. */
  lemma ByteBack(n: nat)
    requires n < 256
    ensures (n as u8) as nat == n
  {
    assert n % 256 == n;
  }

  // ----- Little-endian byte strings

  /** The `n` low bytes of `x`, least significant first. */
  function ToBytes(x: u64, n: nat): (s: seq<u8>)
    ensures |s| == n
  {
    if n == 0 then [] else [Low(x)] + ToBytes(Hi(x), n - 1)
  }

  function FromBytes(s: seq<u8>): u64 {
    if s == [] then 0 else Glue(s[0], FromBytes(s[1..]))
  }

  /** Byte `i` is that of bits `8 * i` and up. */
  lemma {:induction false} ToBytesAt(x: u64, n: nat, i: nat)
    requires i < n
    ensures ToBytes(x, n)[i] == Low(DropBytes(x, i))
    decreases n
  {
    if i > 0 {
      ToBytesAt(Hi(x), n - 1, i - 1);
    }
  }

  /** Number of significant bytes. */
  function Width(x: u64): nat {
    if x == 0 then 0 else 1 + Width(Hi(x))
  }

  lemma WidthAtMost8(x: u64)
    ensures Width(x) <= 8
  {
    var x1 := Hi(x); var x2 := Hi(x1); var x3 := Hi(x2); var x4 := Hi(x3);
    var x5 := Hi(x4); var x6 := Hi(x5); var x7 := Hi(x6); var x8 := Hi(x7);
    assert x8 == 0;
    assert Width(x7) <= 1;
    assert Width(x6) <= 2;
    assert Width(x5) <= 3;
    assert Width(x4) <= 4;
    assert Width(x3) <= 5;
    assert Width(x2) <= 6;
    assert Width(x1) <= 7;
  }

  lemma {:induction false} BytesRoundTrip(x: u64, n: nat)
    requires Width(x) <= n
    ensures FromBytes(ToBytes(x, n)) == x
  {
    if n > 0 {
      BytesRoundTrip(Hi(x), n - 1);
      var s := ToBytes(x, n);
      assert s[0] == Low(x) && s[1..] == ToBytes(Hi(x), n - 1);
      GlueLowHi(x);
    }
  }

  /** `acc | byte << 8*k`. */
  function OrByte(acc: u64, b: u8, k: nat): u64 { Or(acc, PadBytes(b as u64, k)) }

  /** Appending the next byte read, as the decoding loops do with `acc |= byte << 8*i`. */
  lemma {:induction false} FromBytesSnoc(s: seq<u8>, b: u8)
    ensures FromBytes(s + [b]) == OrByte(FromBytes(s), b, |s|)
  {
    hide Glue, OrByte;
    OrByteNone(b);
    if s == [] {
      assert s + [b] == [b] && [b][1..] == [];
      assert FromBytes([b]) == Glue(b, 0);
    } else {
      var t := s[1..];
      FromBytesSnoc(t, b);
      assert (s + [b])[0] == s[0] && (s + [b])[1..] == t + [b];
      OrByteUp(s[0], FromBytes(t), b, |t|);
    }
  }

  lemma OrByteNone(b: u8)
    ensures Glue(b, 0) == OrByte(0, b, 0)
  {}

  lemma OrByteUp(a: u8, r: u64, b: u8, k: nat)
    ensures Glue(a, OrByte(r, b, k)) == OrByte(Glue(a, r), b, k + 1)
  {
    hide Glue, Or, Up8;
    GlueOr(a, r, PadBytes(b as u64, k));
  }

  lemma GlueOr(a: u8, r: u64, p: u64)
    ensures Glue(a, Or(r, p)) == Or(Glue(a, r), Up8(p))
  {}

  // ----- __builtin_clzll and __builtin_ctzll, and what the code derives from them

  function Half(x: u64): u64 { x >> 1 }

  function Half4(x: u64): u64 { Half(Half(Half(Half(x)))) }

  predicate Odd(x: u64) { x & 1 == 1 }

  function BitLength(x: u64): nat {
    if x == 0 then 0 else 1 + BitLength(Half(x))
  }

  lemma BitLength4(x: u64)
    ensures BitLength(x) <= 4 + BitLength(Half4(x))
    ensures Half4(x) != 0 ==> BitLength(x) == 4 + BitLength(Half4(x))
  {
    hide BitLength, Half;
    var x1 := Half(x); var x2 := Half(x1); var x3 := Half(x2);
    BitLength1(x);
    BitLength1(x1);
    BitLength1(x2);
    BitLength1(x3);
  }

  lemma BitLength1(x: u64)
    ensures BitLength(x) <= 1 + BitLength(Half(x))
    ensures Half(x) != 0 ==> x != 0 && BitLength(x) == 1 + BitLength(Half(x))
  {}

  lemma Half8(x: u64)
    ensures Half4(Half4(x)) == Hi(x)
  {}

  lemma BitLengthByte(x: u64)
    requires 0 < x < 0x100
    ensures 1 <= BitLength(x) <= 8
  {
    BitLength4(x);
    BitLength4(Half4(x));
    assert Half4(Half4(x)) == 0;
  }

  lemma BitLengthHi(x: u64)
    requires x >= 0x100
    ensures BitLength(x) == 8 + BitLength(Hi(x))
  {
    Half8(x);
    BitLength4(x);
    BitLength4(Half4(x));
    assert Half4(x) != 0 && Hi(x) != 0;
  }

  lemma {:induction false} BitLengthVsWidth(x: u64)
    requires x != 0
    ensures 8 * (Width(x) - 1) < BitLength(x) <= 8 * Width(x)
    decreases x
  {
    if x < 0x100 {
      BitLengthByte(x);
      assert Hi(x) == 0;
    } else {
      BitLengthHi(x);
      assert Hi(x) != 0 && Hi(x) < x;
      BitLengthVsWidth(Hi(x));
    }
  }

  /** Leading zero bits; GCC leaves the result for zero undefined and the code never asks. */
  function Clz(x: u64): (n: nat)
    requires x != 0
    ensures n < 64
  {
    BitLengthVsWidth(x);
    WidthAtMost8(x);
    64 - BitLength(x)
  }

  /** `8 - clz/8`, with a zero value counted as 64 leading zeros. */
  function ByteLength(x: u64): nat {
    8 - (if x == 0 then 64 else Clz(x)) / 8
  }

  lemma ByteLengthIsWidth(x: u64)
    ensures ByteLength(x) == Width(x) <= 8
  {
    WidthAtMost8(x);
    if x != 0 {
      BitLengthVsWidth(x);
    }
  }

  /** Trailing zero bits. */
  function Ctz(x: u64): nat
    requires x != 0
  {
    if Odd(x) then 0 else 1 + Ctz(Half(x))
  }

  /** Number of low bytes that are zero. */
  function ZeroBytes(x: u64): nat
    requires x != 0
  {
    if Low(x) != 0 then 0 else 1 + ZeroBytes(Hi(x))
  }

  lemma Ctz4(x: u64)
    requires x != 0
    ensures x & 0xF != 0 ==> Ctz(x) < 4
    ensures x & 0xF == 0 ==> Half4(x) != 0 && Ctz(x) == 4 + Ctz(Half4(x))
  {
    var x1 := Half(x);
    if !Odd(x) {
      assert x1 != 0;
      var x2 := Half(x1);
      if !Odd(x1) {
        assert x2 != 0;
        assert Ctz(x) == 2 + Ctz(x2);
        var x3 := Half(x2);
        if !Odd(x2) {
          assert x3 != 0;
          assert Odd(x3) <==> x & 0xF != 0;
        } else {
          assert x & 0xF != 0;
        }
      } else {
        assert x & 0xF != 0;
      }
    } else {
      assert x & 0xF != 0;
    }
  }

  lemma CtzByte(x: u64)
    requires x != 0 && Low(x) != 0
    ensures Ctz(x) < 8
  {
    Ctz4(x);
    if x & 0xF == 0 {
      assert Half4(x) & 0xF != 0;
      Ctz4(Half4(x));
    }
  }

  lemma CtzHi(x: u64)
    requires x != 0 && Low(x) == 0
    ensures Hi(x) != 0 && Ctz(x) == 8 + Ctz(Hi(x))
  {
    assert x & 0xF == 0;
    Ctz4(x);
    assert Half4(x) & 0xF == 0;
    Ctz4(Half4(x));
    Half8(x);
  }

  lemma {:induction false} CtzVsZeroBytes(x: u64)
    requires x != 0
    ensures Ctz(x) / 8 == ZeroBytes(x)
    decreases x
  {
    if Low(x) != 0 {
      CtzByte(x);
    } else {
      CtzHi(x);
      assert Hi(x) < x;
      CtzVsZeroBytes(Hi(x));
    }
  }

  lemma {:induction false} ZeroBytesBelowWidth(x: u64)
    requires x != 0
    ensures ZeroBytes(x) < Width(x) <= 8
    decreases x
  {
    WidthAtMost8(x);
    if Low(x) == 0 {
      assert Hi(x) != 0 && Hi(x) < x;
      ZeroBytesBelowWidth(Hi(x));
    }
  }

  // ----- Shifts by whole bytes

  /** `x >> 8*t`. */
  function DropBytes(x: u64, t: nat): u64 {
    if t == 0 then x else DropBytes(Hi(x), t - 1)
  }

  /** `x << 8*t`. */
  function PadBytes(x: u64, t: nat): u64 {
    if t == 0 then x else Up8(PadBytes(x, t - 1))
  }

  lemma {:induction false} DropFromZero(t: nat)
    ensures DropBytes(0, t) == 0
  {
    if t > 0 {
      assert Hi(0) == 0;
      DropFromZero(t - 1);
    }
  }

  lemma {:induction false} DropMore(x: u64, m: nat, n: nat)
    requires m <= n && DropBytes(x, m) == 0
    ensures DropBytes(x, n) == 0
    decreases m
  {
    hide Hi;
    if m == 0 {
      DropFromZero(n);
    } else {
      DropMore(Hi(x), m - 1, n - 1);
    }
  }

  lemma SevenBytes(x: u64)
    requires DropBytes(x, 7) == 0
    ensures x < 0x100_0000_0000_0000
  {
    var x2 := Hi(Hi(x)); var x4 := Hi(Hi(x2)); var x6 := Hi(Hi(x4));
    assert DropBytes(x, 7) == DropBytes(x2, 5);
    assert DropBytes(x2, 5) == DropBytes(x4, 3);
    assert DropBytes(x4, 3) == DropBytes(x6, 1);
    assert DropBytes(x6, 1) == DropBytes(Hi(x6), 0);
    assert Hi(x6) == 0;
  }

  lemma LowHiGlue(b: u8, rest: u64)
    ensures Low(Glue(b, rest)) == b
    ensures rest < 0x100_0000_0000_0000 ==> Hi(Glue(b, rest)) == rest
  {}

  /** `n` bytes make a value of `n` bytes. */
  lemma {:induction false} FromBytesFits(s: seq<u8>)
    requires |s| <= 8
    ensures DropBytes(FromBytes(s), |s|) == 0
    ensures |s| <= 7 ==> FromBytes(s) < 0x100_0000_0000_0000
  {
    hide Glue, Hi;
    if s != [] {
      var r := FromBytes(s[1..]);
      FromBytesFits(s[1..]);
      LowHiGlue(s[0], r);
      assert DropBytes(FromBytes(s), |s|) == DropBytes(r, |s| - 1);
    }
    if |s| <= 7 {
      DropMore(FromBytes(s), |s|, 7);
      SevenBytes(FromBytes(s));
    }
  }

  lemma ShiftBack(x: u64)
    requires x != 0 && Low(x) == 0
    ensures Hi(x) != 0 && Up8(Hi(x)) == x
  {}

  lemma {:induction false} DropThenPad(x: u64, t: nat)
    requires x != 0 && t <= ZeroBytes(x)
    ensures PadBytes(DropBytes(x, t), t) == x
    decreases t
  {
    if t > 0 {
      ShiftBack(x);
      DropThenPad(Hi(x), t - 1);
    }
  }

  lemma {:induction false} DropBytesWidth(x: u64, t: nat)
    ensures Width(DropBytes(x, t)) <= if t <= Width(x) then Width(x) - t else 0
    decreases t
  {
    if t > 0 {
      if x == 0 { assert Hi(x) == 0; }
      DropBytesWidth(Hi(x), t - 1);
    }
  }

  // ----- Byte strings at a position of a longer one

  ghost predicate At(b: seq<u8>, pos: nat, x: seq<u8>) {
    pos + |x| <= |b| && b[pos..pos + |x|] == x
  }

  lemma AtConcat(b: seq<u8>, pos: nat, x: seq<u8>, y: seq<u8>)
    ensures At(b, pos, x + y) <==> At(b, pos, x) && At(b, pos + |x|, y)
  {
    if pos + |x| + |y| <= |b| {
      assert b[pos..pos + |x| + |y|] == b[pos..pos + |x|] + b[pos + |x|..pos + |x| + |y|];
    }
    if At(b, pos, x + y) {
      assert (x + y)[..|x|] == x && (x + y)[|x|..] == y;
      assert b[pos..pos + |x|] == b[pos..pos + |x| + |y|][..|x|];
      assert b[pos + |x|..pos + |x| + |y|] == b[pos..pos + |x| + |y|][|x|..];
    }
  }
}
