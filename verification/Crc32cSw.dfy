/** The table-driven software form (`crc32c_init_sw`, `crc32c_sw`). */
module Crc32cSw {
  import B = Bits
  import opened Crc32c

  type u64 = bv64

  // ----- Tables

  /** The entry for byte `i` in table `k`: `i` followed by `k` zero bytes. */
  function Entry(k: nat, i: u32): u32 { Bits(8 * (k + 1), i) }

  function Ix(x: u32): (n: nat)
    requires x < 256
    ensures n < 256
  {
    x as nat
  }

  lemma IxInjective(x: u32, y: u32)
    requires x < 256 && y < 256 && Ix(x) == Ix(y)
    ensures x == y
  {
    assert (x as nat) as u32 == x && (y as nat) as u32 == y;
  }

  /** Table `k` is filled for the bytes below `n`. */
  ghost predicate RowDone(t: array2<u32>, k: nat, n: u32)
    requires t.Length0 == 8 && t.Length1 == 256 && k < 8
    reads t
  {
    forall i: u32 :: i < n && i < 256 ==> t[k, Ix(i)] == Entry(k, i)
  }

  ghost predicate Tables(t: array2<u32>)
    reads t
  {
    t.Length0 == 8 && t.Length1 == 256 && forall k :: 0 <= k < 8 ==> RowDone(t, k, 256)
  }

  lemma Bits8(c: u32)
    ensures Bit(Bit(Bit(Bit(Bit(Bit(Bit(Bit(c)))))))) == Bits(8, c)
  {
    hide Bit;
    var c2 := Bit(Bit(c)); var c4 := Bit(Bit(c2)); var c6 := Bit(Bit(c4));
    assert Bits(8, c) == Bits(6, c2);
    assert Bits(6, c2) == Bits(4, c4);
    assert Bits(4, c4) == Bits(2, c6);
    assert Bits(2, c6) == Bits(0, Bit(Bit(c6)));
  }

  lemma Below(i: u32, n: u32)
    requires n < 256
    ensures n < n + 1 <= 256 && (i < n + 1 <==> i < n || i == n)
  {}

  /** A lookup and a shift make one zero byte. */
  lemma Lookup(t: array2<u32>, c: u32)
    requires t.Length0 == 8 && t.Length1 == 256 && RowDone(t, 0, 256)
    ensures Widen(Low8(c)) < 256
    ensures Xor(t[0, Ix(Widen(Low8(c)))], High24(c)) == Bits(8, c)
  {
    LowIsSmall(c);
    hide Bits, Xor, Low8, High24, Widen;
    assert t[0, Ix(Widen(Low8(c)))] == Entry(0, Widen(Low8(c)));
    Bits8Split(c);
  }

  lemma LowIsSmall(c: u32)
    ensures Widen(Low8(c)) < 256
  {}

  method InitSw() returns (t: array2<u32>)
    ensures fresh(t) && Tables(t)
  {
    t := new u32[8, 256];
    InitFirst(t);
    hide Bits;
    var n: u32 := 0;
    while n < 256
      invariant n <= 256 && RowDone(t, 0, 256) && ColumnsDone(t, n)
      decreases 256 - n
    {
      label before:
      InitColumn(t, n);
      forall k, i: u32 | 1 <= k < 8 && i < n + 1 && i < 256 ensures t[k, Ix(i)] == Entry(k, i) {
        Below(i, n);
        if i != n {
          assert t[k, Ix(i)] == old@before(t[k, Ix(i)]);
        }
      }
      Below(n, n);
      n := n + 1;
    }
  }

  /** Tables 1 to 7 are filled for the bytes below `n`. */
  ghost predicate ColumnsDone(t: array2<u32>, n: u32)
    requires t.Length0 == 8 && t.Length1 == 256
    reads t
  {
    forall k, i: u32 :: 1 <= k < 8 && i < n && i < 256 ==> t[k, Ix(i)] == Entry(k, i)
  }

  method InitFirst(t: array2<u32>)
    requires t.Length0 == 8 && t.Length1 == 256
    modifies t
    ensures RowDone(t, 0, 256)
  {
    hide Bits, Bit;
    var n: u32 := 0;
    while n < 256
      invariant n <= 256 && RowDone(t, 0, n)
      decreases 256 - n
    {
      var crc := n;
      crc := Bit(crc);
      crc := Bit(crc);
      crc := Bit(crc);
      crc := Bit(crc);
      crc := Bit(crc);
      crc := Bit(crc);
      crc := Bit(crc);
      crc := Bit(crc);
      Bits8(n);
      label before:
      t[0, Ix(n)] := crc;
      forall i: u32 | i < n + 1 && i < 256 ensures t[0, Ix(i)] == Entry(0, i) {
        Below(i, n);
        if i != n {
          if Ix(i) == Ix(n) { IxInjective(i, n); }
          assert t[0, Ix(i)] == old@before(t[0, Ix(i)]);
        }
      }
      Below(n, n);
      n := n + 1;
    }
  }

  /** Tables 1 to 7 for byte `n`. */
  method InitColumn(t: array2<u32>, n: u32)
    requires t.Length0 == 8 && t.Length1 == 256 && n < 256 && RowDone(t, 0, 256)
    modifies t
    ensures RowDone(t, 0, 256)
    ensures forall k :: 1 <= k < 8 ==> t[k, Ix(n)] == Entry(k, n)
    ensures forall k, i: u32 :: 1 <= k < 8 && i < 256 && i != n ==> t[k, Ix(i)] == old(t[k, Ix(i)])
  {
    hide Bits, Xor, Low8, High24, Widen;
    var crc := t[0, Ix(n)];
    var k := 1;
    while k < 8
      invariant 1 <= k <= 8 && crc == Entry(k - 1, n)
      invariant forall i :: 0 <= i < 256 ==> t[0, i] == old(t[0, i])
      invariant forall j :: 1 <= j < k ==> t[j, Ix(n)] == Entry(j, n)
      invariant forall j, i :: 1 <= j < 8 && 0 <= i < 256 && i != Ix(n) ==> t[j, i] == old(t[j, i])
    {
      Lookup(t, crc);
      BitsAdd(8 * k, 8, n);
      crc := Xor(t[0, Ix(Widen(Low8(crc)))], High24(crc));
      t[k, Ix(n)] := crc;
      k := k + 1;
    }
    forall j, i: u32 | 1 <= j < 8 && i < 256 && i != n ensures t[j, Ix(i)] == old(t[j, Ix(i)]) {
      if Ix(i) == Ix(n) { IxInjective(i, n); }
    }
  }

  // ----- The checksum

  /** The byte-at-a-time step of the leading and trailing loops. */
  method ByteStep(t: array2<u32>, crc: u32, b: u8) returns (r: u32)
    requires Tables(t)
    ensures r == Byte(crc, b)
  {
    hide Bits, Xor, Low8, High24, Widen;
    var x := Xor(crc, Widen(b));
    assert RowDone(t, 0, 256);
    Lookup(t, x);
    HighOfMixed(crc, b);
    r := Xor(t[0, Ix(Widen(Low8(x)))], High24(crc));
  }

  lemma HighOfMixed(c: u32, b: u8)
    ensures High24(Xor(c, Widen(b))) == High24(c)
  {}

  /** The 64-bit register: state in its low half. */
  function Extend(c: u32): u64 { c as u64 }

  function Xor64(x: u64, y: u64): u64 { x ^ y }

  /** Byte `k` of the register, as the slicing step extracts it with `(crc >> 8*k) & 0xff`. */
  function Slice(x: u64, k: nat): u8 { B.Low(B.DropBytes(x, k)) }

  lemma SliceStep(c: u32, w: u64)
    ensures B.Low(Xor64(Extend(c), w)) == XorByte(B.Low(w), Low8(c))
    ensures B.Hi(Xor64(Extend(c), w)) == Xor64(Extend(High24(c)), B.Hi(w))
  {}

  /** The register's bytes are the message bytes with the state mixed into the first ones. */
  lemma {:induction false} SlicesAreMixed(c: u32, s: seq<u8>, n: nat, k: nat)
    requires n <= |s| <= 8 && k < |s| && DropBytes(c, n) == 0
    ensures Slice(Xor64(Extend(c), B.FromBytes(s)), k) == MixIn(s, c, n)[k]
    decreases |s|
  {
    hide B.Low, B.Hi, B.Glue, Xor64, Extend, High24, Low8, XorByte;
    var r := B.FromBytes(s[1..]);
    B.LowHiGlue(s[0], r);
    B.FromBytesFits(s[1..]);
    SliceStep(c, B.FromBytes(s));
    MixByte(c, s[0]);
    if k > 0 {
      if n == 0 {
        MixByte(c, s[0]);
        SlicesAreMixed(High24(c), s[1..], 0, k - 1);
      } else {
        SlicesAreMixed(High24(c), s[1..], n - 1, k - 1);
      }
    }
  }

  lemma MixByte(c: u32, b: u8)
    ensures c == 0 ==> XorByte(b, Low8(c)) == b && High24(c) == 0
  {}

  /** Eight bytes by eight lookups. */
  method SliceBy8(t: array2<u32>, crc: u32, s: seq<u8>) returns (r: u32)
    requires Tables(t) && |s| == 8
    ensures r == Raw(crc, s)
  {
    hide Raw, Bits, Xor, Slice, Xor64, Extend, Entry, Tables, RowDone;
    var x := Xor64(Extend(crc), B.FromBytes(s));
    var t7 := LookupAt(t, 7, Slice(x, 0));
    var t6 := LookupAt(t, 6, Slice(x, 1));
    var t5 := LookupAt(t, 5, Slice(x, 2));
    var t4 := LookupAt(t, 4, Slice(x, 3));
    var t3 := LookupAt(t, 3, Slice(x, 4));
    var t2 := LookupAt(t, 2, Slice(x, 5));
    var t1 := LookupAt(t, 1, Slice(x, 6));
    var t0 := LookupAt(t, 0, Slice(x, 7));
    r := Xor(Xor(Xor(Xor(Xor(Xor(Xor(t7, t6), t5), t4), t3), t2), t1), t0);
    EightSlices(crc, s);
  }

  method LookupAt(t: array2<u32>, k: nat, i: u8) returns (r: u32)
    requires Tables(t) && k < 8
    ensures r == Entry(k, Widen(i))
  {
    hide Bits;
    WidenSmall(i);
    assert RowDone(t, k, 256);
    r := t[k, Ix(Widen(i))];
  }

  lemma WidenSmall(i: u8)
    ensures Widen(i) < 256
  {}

  /** The eight lookups add up to the state after the eight bytes. */
  lemma EightSlices(c: u32, s: seq<u8>)
    requires |s| == 8
    ensures var x := Xor64(Extend(c), B.FromBytes(s));
            Xor(Xor(Xor(Xor(Xor(Xor(Xor(Entry(7, Widen(Slice(x, 0))), Entry(6, Widen(Slice(x, 1)))),
                Entry(5, Widen(Slice(x, 2)))), Entry(4, Widen(Slice(x, 3)))), Entry(3, Widen(Slice(x, 4)))),
                Entry(2, Widen(Slice(x, 5)))), Entry(1, Widen(Slice(x, 6)))), Entry(0, Widen(Slice(x, 7))))
            == Raw(c, s)
  {
    hide Raw, Bits, Xor, Slice, Xor64, Extend, MixIn, Widen;
    FourBytes(c);
    XorZero(c);
    RawMixIn(0, c, s, 4);
    var m := MixIn(s, c, 4);
    RawIsXorSum(m);
    XorSum8(m);
    forall k | 0 <= k < 8 ensures Slice(Xor64(Extend(c), B.FromBytes(s)), k) == m[k] {
      SlicesAreMixed(c, s, 4, k);
    }
  }

  lemma XorSum8(m: seq<u8>)
    requires |m| == 8
    ensures XorSum(m) ==
            Xor(Xor(Xor(Xor(Xor(Xor(Xor(Entry(7, Widen(m[0])), Entry(6, Widen(m[1]))), Entry(5, Widen(m[2]))),
                Entry(4, Widen(m[3]))), Entry(3, Widen(m[4]))), Entry(2, Widen(m[5]))), Entry(1, Widen(m[6]))),
                Entry(0, Widen(m[7])))
  {
    hide Bits, Xor, Widen;
    var e7, e6, e5, e4 := Entry(7, Widen(m[0])), Entry(6, Widen(m[1])), Entry(5, Widen(m[2])), Entry(4, Widen(m[3]));
    var e3, e2, e1, e0 := Entry(3, Widen(m[4])), Entry(2, Widen(m[5])), Entry(1, Widen(m[6])), Entry(0, Widen(m[7]));
    assert m[1..][1..] == m[2..] && m[2..][1..] == m[3..] && m[3..][1..] == m[4..] && m[4..][1..] == m[5..];
    assert m[5..][1..] == m[6..] && m[6..][1..] == m[7..] && m[7..][1..] == [];
    XorZero(e0);
    assert XorSum(m[7..]) == e0;
    assert XorSum(m[6..]) == Xor(e1, e0);
    assert XorSum(m[5..]) == Xor(e2, XorSum(m[6..]));
    assert XorSum(m[4..]) == Xor(e3, XorSum(m[5..]));
    assert XorSum(m[3..]) == Xor(e4, XorSum(m[4..]));
    assert XorSum(m[2..]) == Xor(e5, XorSum(m[3..]));
    assert XorSum(m[1..]) == Xor(e6, XorSum(m[2..]));
    assert XorSum(m) == Xor(e7, XorSum(m[1..]));
    Reassociate(e7, e6, XorSum(m[2..]));
    var s2 := Xor(e7, e6);
    XorAssoc(s2, e5, XorSum(m[3..]));
    var s3 := Xor(s2, e5);
    XorAssoc(s3, e4, XorSum(m[4..]));
    var s4 := Xor(s3, e4);
    XorAssoc(s4, e3, XorSum(m[5..]));
    var s5 := Xor(s4, e3);
    XorAssoc(s5, e2, XorSum(m[6..]));
    XorAssoc(Xor(s5, e2), e1, e0);
  }

  lemma Reassociate(a: u32, b: u32, c: u32)
    ensures Xor(a, Xor(b, c)) == Xor(Xor(a, b), c)
  {
    hide Xor;
    XorAssoc(a, b, c);
  }

  /** `crc32c_sw`, for a buffer that starts at any address. */
  method Sw(crci: u32, buf: seq<u8>, address: nat) returns (r: u32)
    ensures r == Crc(crci, buf)
  {
    hide Raw, Byte, Tables;
    var t := InitSw();
    var crc := Xor(crci, ONES);
    ghost var c0 := crc;
    var next: nat, len: nat := 0, |buf|;
    RawNone(c0);
    assert buf[..0] == [];
    while len > 0 && (address + next) % 8 != 0
      invariant next + len == |buf| && Tables(t)
      invariant crc == Raw(c0, buf[..next])
    {
      RawSnoc(c0, buf, next, 1);
      RawOne(crc, buf[next]);
      assert buf[next..next + 1] == [buf[next]];
      crc := ByteStep(t, crc, buf[next]);
      next, len := next + 1, len - 1;
    }
    while len >= 8
      invariant next + len == |buf| && Tables(t)
      invariant crc == Raw(c0, buf[..next])
    {
      RawSnoc(c0, buf, next, 8);
      crc := SliceBy8(t, crc, buf[next..next + 8]);
      next, len := next + 8, len - 8;
    }
    while len > 0
      invariant next + len == |buf| && Tables(t)
      invariant crc == Raw(c0, buf[..next])
    {
      RawSnoc(c0, buf, next, 1);
      RawOne(crc, buf[next]);
      assert buf[next..next + 1] == [buf[next]];
      crc := ByteStep(t, crc, buf[next]);
      next, len := next + 1, len - 1;
    }
    assert buf[..next] == buf;
    r := Xor(crc, ONES);
  }

  lemma RawNone(c: u32)
    ensures Raw(c, []) == c
  {}

  lemma RawOne(c: u32, b: u8)
    ensures Raw(c, [b]) == Byte(c, b)
  {
    hide Byte;
    assert [b][1..] == [];
    assert Raw(Byte(c, b), []) == Byte(c, b);
  }

  lemma RawSnoc(c: u32, s: seq<u8>, i: nat, n: nat)
    requires i + n <= |s|
    ensures Raw(c, s[..i + n]) == Raw(Raw(c, s[..i]), s[i..i + n])
  {
    hide Raw;
    RawConcat(c, s[..i], s[i..i + n]);
    assert s[..i + n] == s[..i] + s[i..i + n];
  }
}
