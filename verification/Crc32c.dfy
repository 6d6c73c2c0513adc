/** CRC-32C (the iSCSI digest, section 12.1 of RFC 3720): the bit-serial definition, its linearity over
    GF(2), and what that gives for bytes, words and appended zeros. */
module Crc32c {
  type u8 = bv8
  type u32 = bv32

  /** The polynomial in reversed bit order. */
  const POLY: u32 := 0x82f63b78

  const ONES: u32 := 0xffffffff

  function Xor(x: u32, y: u32): u32 { x ^ y }

  function Half(x: u32): u32 { x >> 1 }

  predicate Odd(x: u32) { x & 1 == 1 }

  function Pick(x: u32, row: u32): u32 { if Odd(x) then row else 0 }

  /** One bit of zero message. */
  function Bit(c: u32): u32 { if Odd(c) then Xor(Half(c), POLY) else Half(c) }

  /** `n` bits of zero message. */
  function Bits(n: nat, c: u32): u32 {
    if n == 0 then c else Bits(n - 1, Bit(c))
  }

  function Widen(b: u8): u32 { b as u32 }

  function Low8(c: u32): u8 { (c & 0xff) as u8 }

  function High24(c: u32): u32 { c >> 8 }

  function XorByte(x: u8, y: u8): u8 { x ^ y }

  /** One message byte. */
  function Byte(c: u32, b: u8): u32 { Bits(8, Xor(c, Widen(b))) }

  /** The state after a message, without the final complement. */
  function Raw(c: u32, s: seq<u8>): u32
    decreases |s|
  {
    if s == [] then c else Raw(Byte(c, s[0]), s[1..])
  }

  /** CRC-32C of `s` continued from `crc`. */
  function Crc(crc: u32, s: seq<u8>): u32 { Xor(Raw(Xor(crc, ONES), s), ONES) }

  // ----- Algebra of Xor

  lemma XorZero(x: u32)
    ensures Xor(x, 0) == x && Xor(0, x) == x && Xor(x, x) == 0
  {}

  lemma XorAssocRaw(a: u32, b: u32, c: u32)
    ensures Xor(a ^ b, c) == Xor(a, b ^ c)
  {}

  lemma XorAssoc(a: u32, b: u32, c: u32)
    ensures Xor(Xor(a, b), c) == Xor(a, Xor(b, c))
  {
    XorAssocRaw(a, b, c);
  }

  lemma XorComm(a: u32, b: u32)
    ensures Xor(a, b) == Xor(b, a)
  {}

  lemma XorSwap(a: u32, b: u32, c: u32, d: u32)
    ensures Xor(Xor(a, b), Xor(c, d)) == Xor(Xor(a, c), Xor(b, d))
  {
    hide Xor;
    XorAssoc(a, b, Xor(c, d));
    XorAssoc(b, c, d);
    XorComm(b, c);
    XorAssoc(c, b, d);
    XorAssoc(a, c, Xor(b, d));
  }

  // ----- Linearity of the state

  lemma HalfXor(x: u32, y: u32)
    ensures Half(Xor(x, y)) == Xor(Half(x), Half(y))
  {}

  lemma OddXor(x: u32, y: u32)
    ensures Odd(Xor(x, y)) <==> Odd(x) != Odd(y)
  {}

  lemma PickXor(x: u32, y: u32, row: u32)
    ensures Pick(Xor(x, y), row) == Xor(Pick(x, row), Pick(y, row))
  {
    hide Xor, Odd;
    OddXor(x, y);
    XorZero(row);
    XorZero(0);
  }

  lemma BitIsPick(c: u32)
    ensures Bit(c) == Xor(Half(c), Pick(c, POLY))
  {
    hide Xor, Odd, Half;
    XorZero(Half(c));
  }

  lemma BitLinear(x: u32, y: u32)
    ensures Bit(Xor(x, y)) == Xor(Bit(x), Bit(y))
  {
    hide Bit, Xor, Half, Pick;
    BitIsPick(x);
    BitIsPick(y);
    BitIsPick(Xor(x, y));
    HalfXor(x, y);
    PickXor(x, y, POLY);
    XorSwap(Half(x), Half(y), Pick(x, POLY), Pick(y, POLY));
  }

  lemma {:induction false} BitsLinear(n: nat, x: u32, y: u32)
    ensures Bits(n, Xor(x, y)) == Xor(Bits(n, x), Bits(n, y))
  {
    hide Bit, Xor;
    if n > 0 {
      BitLinear(x, y);
      BitsLinear(n - 1, Bit(x), Bit(y));
    }
  }

  lemma {:induction false} BitsAdd(m: nat, n: nat, c: u32)
    ensures Bits(m + n, c) == Bits(n, Bits(m, c))
  {
    hide Bit;
    if m > 0 {
      BitsAdd(m - 1, n, Bit(c));
    }
  }

  /** A change of the initial state passes through a message as through as many zeros. */
  lemma {:induction false} RawLinear(c: u32, d: u32, s: seq<u8>)
    ensures Raw(Xor(c, d), s) == Xor(Raw(c, s), Bits(8 * |s|, d))
    decreases |s|
  {
    hide Bits, Xor;
    if s == [] {
      BitsNone(d);
    } else {
      var w := Widen(s[0]);
      assert Byte(Xor(c, d), s[0]) == Xor(Byte(c, s[0]), Bits(8, d)) by {
        XorAssoc(c, d, w);
        XorComm(d, w);
        XorAssoc(c, w, d);
        BitsLinear(8, Xor(c, w), d);
      }
      RawLinear(Byte(c, s[0]), Bits(8, d), s[1..]);
      BitsAdd(8, 8 * (|s| - 1), d);
    }
  }

  lemma BitsNone(c: u32)
    ensures Bits(0, c) == c
  {}

  /** Consecutive pieces with the state carried over make the whole. */
  lemma {:induction false} RawConcat(c: u32, s: seq<u8>, t: seq<u8>)
    ensures Raw(c, s + t) == Raw(Raw(c, s), t)
    decreases |s|
  {
    hide Byte;
    if s == [] {
      assert s + t == t;
    } else {
      assert (s + t)[0] == s[0] && (s + t)[1..] == s[1..] + t;
      RawConcat(Byte(c, s[0]), s[1..], t);
    }
  }

  /** Running the checksum over consecutive pieces, each seeded with the previous result, is the
      checksum of the concatenation. */
  lemma CrcConcat(crc: u32, s: seq<u8>, t: seq<u8>)
    ensures Crc(crc, s + t) == Crc(Crc(crc, s), t)
  {
    hide Raw;
    RawConcat(Xor(crc, ONES), s, t);
  }

  /** Appending zeros to a checksum and adding that of another message run from zero joins the two. */
  lemma RawJoin(c: u32, s: seq<u8>, t: seq<u8>)
    ensures Raw(c, s + t) == Xor(Bits(8 * |t|, Raw(c, s)), Raw(0, t))
  {
    hide Raw, Bits, Xor;
    RawConcat(c, s, t);
    var r := Raw(c, s);
    RawLinear(0, r, t);
    XorZero(r);
    XorComm(Raw(0, t), Bits(8 * |t|, r));
  }

  // ----- Bytes

  function Up(y: u32): u32 { y << 1 }

  function Up8(y: u32): u32 { y << 8 }

  lemma BitUp(y: u32)
    requires y < 0x80000000
    ensures Bit(Up(y)) == y
  {}

  lemma ByteSplit(c: u32)
    ensures c == Xor(Widen(Low8(c)), Up8(High24(c)))
  {}

  lemma UpFits(y: u32)
    requires y < 0x1000000
    ensures var y1 := Up(y); var y2 := Up(y1); var y3 := Up(y2); var y4 := Up(y3);
            var y5 := Up(y4); var y6 := Up(y5); var y7 := Up(y6);
            && y < 0x80000000 && y1 < 0x80000000 && y2 < 0x80000000 && y3 < 0x80000000
            && y4 < 0x80000000 && y5 < 0x80000000 && y6 < 0x80000000 && y7 < 0x80000000 && Up(y7) == Up8(y)
  {}

  lemma BitsOfShifted(y: u32)
    requires y < 0x1000000
    ensures Bits(8, Up8(y)) == y
  {
    hide Bit, Up, Up8;
    UpFits(y);
    var y1 := Up(y); var y2 := Up(y1); var y3 := Up(y2); var y4 := Up(y3);
    var y5 := Up(y4); var y6 := Up(y5); var y7 := Up(y6); var y8 := Up(y7);
    BitUp(y7); BitUp(y6); BitUp(y5); BitUp(y4); BitUp(y3); BitUp(y2); BitUp(y1); BitUp(y);
    assert Bits(8, y8) == Bits(6, y6);
    assert Bits(6, y6) == Bits(4, y4);
    assert Bits(4, y4) == Bits(2, y2);
    assert Bits(2, y2) == Bits(0, y);
  }

  lemma High24Small(c: u32)
    ensures High24(c) < 0x1000000
  {}

  /** Eight zero bits: the low byte goes through the register, the others move down. */
  lemma Bits8Split(c: u32)
    ensures Bits(8, c) == Xor(Bits(8, Widen(Low8(c))), High24(c))
  {
    hide Bits, Xor, Low8, High24, Widen, Up8;
    ByteSplit(c);
    High24Small(c);
    BitsOfShifted(High24(c));
    BitsLinear(8, Widen(Low8(c)), Up8(High24(c)));
  }

  lemma WidenXor(x: u8, y: u8)
    ensures Widen(XorByte(x, y)) == Xor(Widen(x), Widen(y))
  {}

  lemma Low8Xor(c: u32, d: u32, b: u8)
    ensures Xor(Xor(d, c), Widen(b)) == Xor(Xor(d, Widen(XorByte(b, Low8(c)))), Up8(High24(c)))
  {
    hide Xor, Widen, Low8, High24, Up8, XorByte;
    var w, l, h := Widen(b), Widen(Low8(c)), Up8(High24(c));
    ByteSplit(c);
    WidenXor(b, Low8(c));
    XorAssoc(d, c, w);
    XorComm(c, w);
    XorAssoc(w, l, h);
    XorAssoc(d, Xor(w, l), h);
  }

  /** A state byte is as good as a message byte. */
  lemma ByteMix(d: u32, c: u32, b: u8)
    ensures Byte(Xor(d, c), b) == Xor(Byte(d, XorByte(b, Low8(c))), High24(c))
  {
    hide Bits, Xor, Low8, High24, Widen, XorByte, Up8;
    Low8Xor(c, d, b);
    High24Small(c);
    BitsOfShifted(High24(c));
    BitsLinear(8, Xor(d, Widen(XorByte(b, Low8(c)))), Up8(High24(c)));
  }

  /** `s` with the bytes of `c` mixed into its first bytes. */
  function MixIn(s: seq<u8>, c: u32, n: nat): (t: seq<u8>)
    requires n <= |s|
    ensures |t| == |s|
    decreases n
  {
    if n == 0 then s else [XorByte(s[0], Low8(c))] + MixIn(s[1..], High24(c), n - 1)
  }

  function DropBytes(c: u32, n: nat): u32
    decreases n
  {
    if n == 0 then c else DropBytes(High24(c), n - 1)
  }

  lemma {:induction false} RawMixIn(d: u32, c: u32, s: seq<u8>, n: nat)
    requires n <= |s| && DropBytes(c, n) == 0
    ensures Raw(Xor(d, c), s) == Raw(d, MixIn(s, c, n))
    decreases n
  {
    hide Byte, Xor, Low8, High24, XorByte;
    if n == 0 {
      XorZero(d);
    } else {
      ByteMix(d, c, s[0]);
      var t := MixIn(s, c, n);
      assert t[0] == XorByte(s[0], Low8(c)) && t[1..] == MixIn(s[1..], High24(c), n - 1);
      RawMixIn(Byte(d, t[0]), High24(c), s[1..], n - 1);
    }
  }

  lemma FourBytes(c: u32)
    ensures DropBytes(c, 4) == 0
  {
    assert High24(High24(High24(High24(c)))) == 0;
    hide High24;
    assert DropBytes(c, 4) == DropBytes(High24(High24(c)), 2);
  }

  /** The bytes of `s`, each run through the zeros that follow it, added up. */
  function XorSum(s: seq<u8>): u32
    decreases |s|
  {
    if s == [] then 0 else Xor(Bits(8 * |s|, Widen(s[0])), XorSum(s[1..]))
  }

  lemma {:induction false} RawIsXorSum(s: seq<u8>)
    ensures Raw(0, s) == XorSum(s)
    decreases |s|
  {
    hide Bits, Xor;
    if s != [] {
      var w := Widen(s[0]);
      XorZero(w);
      var b := Bits(8, w);
      assert Byte(0, s[0]) == b;
      RawIsXorSum(s[1..]);
      XorZero(b);
      RawLinear(0, b, s[1..]);
      BitsAdd(8, 8 * (|s| - 1), w);
      XorComm(Raw(0, s[1..]), Bits(8 * (|s| - 1), b));
    }
  }

  // ----- The bit-serial definition

  function LowBit(w: u32): u32 { w & 1 }

  function HalfN(w: u32, n: nat): u32 {
    if n == 0 then w else HalfN(Half(w), n - 1)
  }

  /** The `n` low bits of `w` fed one at a time, least significant first. */
  function FeedBits(c: u32, w: u32, n: nat): u32
    decreases n
  {
    if n == 0 then c else FeedBits(Bit(Xor(c, LowBit(w))), Half(w), n - 1)
  }

  function Serial(c: u32, s: seq<u8>): u32
    decreases |s|
  {
    if s == [] then c else Serial(FeedBits(c, Widen(s[0]), 8), s[1..])
  }

  lemma LowBitSplit(w: u32)
    ensures w == Xor(LowBit(w), Up(Half(w))) && Half(w) < 0x80000000
  {}

  lemma {:induction false} FeedIsBits(c: u32, w: u32, n: nat)
    requires HalfN(w, n) == 0
    ensures FeedBits(c, w, n) == Bits(n, Xor(c, w))
    decreases n
  {
    hide Bit, Xor, Half, LowBit, Up;
    if n == 0 {
      XorZero(c);
    } else {
      var c1 := Xor(c, LowBit(w));
      LowBitSplit(w);
      XorAssoc(c, LowBit(w), Up(Half(w)));
      BitLinear(c1, Up(Half(w)));
      BitUp(Half(w));
      FeedIsBits(Bit(c1), Half(w), n - 1);
    }
  }

  lemma EightBits(b: u8)
    ensures HalfN(Widen(b), 8) == 0
  {
    var w := Widen(b);
    var w2 := Half(Half(w)); var w4 := Half(Half(w2)); var w6 := Half(Half(w4)); var w8 := Half(Half(w6));
    assert w8 == 0;
    hide Half;
    assert HalfN(w, 8) == HalfN(w2, 6);
    assert HalfN(w2, 6) == HalfN(w4, 4);
    assert HalfN(w4, 4) == HalfN(w6, 2);
    assert HalfN(w6, 2) == HalfN(w8, 0);
  }

  /** Bytes at a time or bits at a time, the state is the same. */
  lemma {:induction false} SerialIsRaw(c: u32, s: seq<u8>)
    ensures Serial(c, s) == Raw(c, s)
    decreases |s|
  {
    hide FeedBits, Bits, Xor, Widen;
    if s != [] {
      EightBits(s[0]);
      FeedIsBits(c, Widen(s[0]), 8);
      SerialIsRaw(Byte(c, s[0]), s[1..]);
    }
  }
}
