/** The three-lane form built on the `crc32` instruction, and the GF(2) matrices that join its lanes
    (`gf2_matrix_times`, `gf2_matrix_square`, `crc32c_zeros_op`, `crc32c_zeros`, `crc32c_shift`,
    `crc32c_hw`). */
module Crc32cHw {
  import opened Crc32c
  import opened Crc32cSw

  // ----- Matrices over GF(2)

  /** Rows `k` on of a 32-row matrix applied to the bits of `v`. */
  function Dot(mat: seq<u32>, k: nat, v: u32): u32
    requires |mat| == 32 && k <= 32
    decreases 32 - k
  {
    if k == 32 then 0 else Xor(Pick(v, mat[k]), Dot(mat, k + 1, Half(v)))
  }

  lemma {:induction false} DotLinear(mat: seq<u32>, k: nat, x: u32, y: u32)
    requires |mat| == 32 && k <= 32
    ensures Dot(mat, k, Xor(x, y)) == Xor(Dot(mat, k, x), Dot(mat, k, y))
    decreases 32 - k
  {
    hide Xor, Pick, Half;
    if k == 32 {
      XorZero(0);
    } else {
      PickXor(x, y, mat[k]);
      HalfXor(x, y);
      DotLinear(mat, k + 1, Half(x), Half(y));
      XorSwap(Pick(x, mat[k]), Pick(y, mat[k]), Dot(mat, k + 1, Half(x)), Dot(mat, k + 1, Half(y)));
    }
  }

  lemma {:induction false} DotZero(mat: seq<u32>, k: nat)
    requires |mat| == 32 && k <= 32
    ensures Dot(mat, k, 0) == 0
    decreases 32 - k
  {
    hide Xor;
    if k < 32 {
      ZeroBits();
      DotZero(mat, k + 1);
      XorZero(0);
    }
  }

  lemma ZeroBits()
    ensures Half(0) == 0 && !Odd(0)
  {}

  /** `mat` does to a state what `n` zero bits do. */
  ghost predicate Represents(mat: seq<u32>, n: nat) {
    |mat| == 32 && forall v: u32 :: Dot(mat, 0, v) == Bits(n, v)
  }

  lemma DotPick(mat: seq<u32>, v: u32, row: u32)
    requires |mat| == 32
    ensures Dot(mat, 0, Pick(v, row)) == Pick(v, Dot(mat, 0, row))
  {
    hide Dot, Odd;
    DotZero(mat, 0);
  }

  /** Applying the rows of the square is applying the matrix twice. */
  lemma {:induction false} DotSquare(mat: seq<u32>, square: seq<u32>, k: nat, v: u32)
    requires |mat| == |square| == 32 && k <= 32
    requires forall i :: 0 <= i < 32 ==> square[i] == Dot(mat, 0, mat[i])
    ensures Dot(square, k, v) == Dot(mat, 0, Dot(mat, k, v))
    decreases 32 - k
  {
    hide Xor, Pick, Half;
    if k == 32 {
      DotZero(mat, 0);
    } else {
      DotSquare(mat, square, k + 1, Half(v));
      DotPick(mat, v, mat[k]);
      DotLinear(mat, 0, Pick(v, mat[k]), Dot(mat, k + 1, Half(v)));
    }
  }

  /** Squaring doubles the number of zeros. */
  lemma SquareDoubles(mat: seq<u32>, square: seq<u32>, n: nat)
    requires Represents(mat, n) && |square| == 32
    requires forall i :: 0 <= i < 32 ==> square[i] == Dot(mat, 0, mat[i])
    ensures Represents(square, 2 * n)
  {
    hide Dot, Bits;
    forall v: u32 ensures Dot(square, 0, v) == Bits(2 * n, v) {
      DotSquare(mat, square, 0, v);
      BitsAdd(n, n, v);
    }
  }

  /** `gf2_matrix_times`: stops as soon as no bits are left. */
  method Times(mat: array<u32>, v: u32) returns (sum: u32)
    requires mat.Length == 32
    ensures sum == Dot(mat[..], 0, v)
  {
    hide Xor, Half, Odd, Dot, HalfN;
    sum := 0;
    var vec, k := v, 0;
    XorZero(Dot(mat[..], 0, v));
    HalfNone(v);
    while vec != 0
      invariant k <= 32 && vec == HalfN(v, k)
      invariant Xor(sum, Dot(mat[..], k, vec)) == Dot(mat[..], 0, v)
      decreases 32 - k
    {
      NoBitsPast32(v, k);
      DotStep(mat[..], k, vec);
      HalfStep(v, k);
      XorAssoc(sum, Pick(vec, mat[k]), Dot(mat[..], k + 1, Half(vec)));
      XorZero(sum);
      if Odd(vec) {
        sum := Xor(sum, mat[k]);
      }
      vec := Half(vec);
      k := k + 1;
    }
    DotZero(mat[..], k);
    XorZero(sum);
  }

  lemma HalfNone(v: u32)
    ensures HalfN(v, 0) == v
  {}

  lemma DotStep(mat: seq<u32>, k: nat, v: u32)
    requires |mat| == 32 && k < 32
    ensures Dot(mat, k, v) == Xor(Pick(v, mat[k]), Dot(mat, k + 1, Half(v)))
  {}

  lemma {:induction false} HalfStep(v: u32, k: nat)
    ensures HalfN(v, k + 1) == Half(HalfN(v, k))
    decreases k
  {
    hide Half;
    if k > 0 {
      HalfStep(Half(v), k - 1);
    }
  }

  lemma HalfFour(v: u32, n: nat)
    ensures HalfN(v, n + 4) == HalfN(Half(Half(Half(Half(v)))), n)
  {
    hide Half;
    var w := Half(Half(v));
    assert HalfN(v, n + 4) == HalfN(w, n + 2);
  }

  lemma FourSteps(v: u32)
    ensures Half(Half(Half(Half(v)))) == v >> 4
  {}

  lemma {:induction false} HalfAll(v: u32)
    ensures HalfN(v, 32) == 0
  {
    var v1 := v >> 4; var v2 := v1 >> 4; var v3 := v2 >> 4; var v4 := v3 >> 4;
    var v5 := v4 >> 4; var v6 := v5 >> 4; var v7 := v6 >> 4;
    assert v7 >> 4 == 0;
    hide Half;
    HalfFour(v, 28); FourSteps(v);
    HalfFour(v1, 24); FourSteps(v1);
    HalfFour(v2, 20); FourSteps(v2);
    HalfFour(v3, 16); FourSteps(v3);
    HalfFour(v4, 12); FourSteps(v4);
    HalfFour(v5, 8); FourSteps(v5);
    HalfFour(v6, 4); FourSteps(v6);
    HalfFour(v7, 0); FourSteps(v7);
    HalfNone(v7 >> 4);
  }

  lemma NoBitsPast32(v: u32, k: nat)
    requires k <= 32 && HalfN(v, k) != 0
    ensures k < 32
  {
    HalfAll(v);
  }

  /** `gf2_matrix_square`. */
  method Square(square: array<u32>, mat: array<u32>, ghost bits: nat)
    requires square.Length == mat.Length == 32 && square != mat
    requires Represents(mat[..], bits)
    modifies square
    ensures Represents(square[..], 2 * bits)
    ensures mat[..] == old(mat[..])
  {
    hide Represents, Dot;
    ghost var m := mat[..];
    var n := 0;
    while n < 32
      invariant 0 <= n <= 32 && mat[..] == m
      invariant forall i :: 0 <= i < n ==> square[i] == Dot(m, 0, m[i])
    {
      square[n] := Times(mat, mat[n]);
      n := n + 1;
    }
    SquareDoubles(m, square[..], bits);
  }

  // ----- The operator for appended zeros

  function UpN(w: u32, j: nat): u32 {
    if j == 0 then w else Up(UpN(w, j - 1))
  }

  lemma UpXor(x: u32, y: u32)
    ensures Up(Xor(x, y)) == Xor(Up(x), Up(y))
  {}

  lemma {:induction false} UpNXor(x: u32, y: u32, j: nat)
    ensures UpN(Xor(x, y), j) == Xor(UpN(x, j), UpN(y, j))
  {
    hide Up, Xor;
    if j > 0 {
      UpNXor(x, y, j - 1);
      UpXor(UpN(x, j - 1), UpN(y, j - 1));
    }
  }

  lemma {:induction false} UpNUp(w: u32, j: nat)
    ensures UpN(Up(w), j) == UpN(w, j + 1)
  {
    hide Up;
    if j > 0 {
      UpNUp(w, j - 1);
    }
  }

  lemma {:induction false} UpNZero(j: nat)
    ensures UpN(0, j) == 0
  {
    if j > 0 {
      UpNZero(j - 1);
      assert Up(0) == 0;
    }
  }

  lemma LowBitIsPick(w: u32)
    ensures LowBit(w) == Pick(w, 1)
  {}

  lemma UpNPick(w: u32, j: nat)
    ensures UpN(Pick(w, 1), j) == Pick(w, UpN(1, j))
  {
    hide UpN, Odd;
    UpNZero(j);
  }

  /** The rows `1 << (i - 1)` move every bit down by one. */
  lemma {:induction false} ShiftRows(mat: seq<u32>, k: nat, v: u32)
    requires |mat| == 32 && 1 <= k <= 32
    requires forall i :: 1 <= i < 32 ==> mat[i] == UpN(1, i - 1)
    ensures Dot(mat, k, HalfN(v, k)) == UpN(HalfN(v, k), k - 1)
    decreases 32 - k
  {
    hide Xor, Pick, Half, HalfN, Up, UpN, LowBit;
    var w := HalfN(v, k);
    if k == 32 {
      HalfAll(v);
      UpNZero(31);
    } else {
      HalfStep(v, k);
      ShiftRows(mat, k + 1, v);
      LowBitSplit(w);
      LowBitIsPick(w);
      UpNXor(Pick(w, 1), Up(Half(w)), k - 1);
      UpNPick(w, k - 1);
      UpNUp(Half(w), k - 1);
    }
  }

  lemma OneBitOperator(mat: seq<u32>)
    requires |mat| == 32 && mat[0] == POLY
    requires forall i :: 1 <= i < 32 ==> mat[i] == UpN(1, i - 1)
    ensures Represents(mat, 1)
  {
    forall v: u32 ensures Dot(mat, 0, v) == Bits(1, v) {
      hide Xor, Pick, Half, Up, UpN;
      HalfNone(v);
      HalfStep(v, 0);
      ShiftRows(mat, 1, v);
      assert UpN(Half(v), 0) == Half(v) by { UpNNone(Half(v)); }
      BitIsPick(v);
      XorComm(Half(v), Pick(v, POLY));
      assert Bits(1, v) == Bits(0, Bit(v));
    }
  }

  lemma UpNNone(w: u32)
    ensures UpN(w, 0) == w
  {}

  /** The largest power of two that is at most `len`; 1 for 0. */
  function Floor2(len: nat): nat {
    if len < 2 then 1 else 2 * Floor2(len / 2)
  }

  predicate IsPow2(n: nat) {
    n == 1 || (n > 1 && n % 2 == 0 && IsPow2(n / 2))
  }

  lemma {:induction false} Floor2Meaning(len: nat)
    ensures IsPow2(Floor2(len))
    ensures len > 0 ==> Floor2(len) <= len < 2 * Floor2(len)
    ensures IsPow2(len) ==> Floor2(len) == len
  {
    if len >= 2 {
      Floor2Meaning(len / 2);
    }
  }

  /** `2 * bits * Floor2(len)`, as the squaring loop reaches it. */
  function Scaled(bits: nat, len: nat): nat
    decreases len
  {
    if len < 2 then 2 * bits else Scaled(2 * bits, len / 2)
  }

  lemma {:induction false} ScaledMeaning(bits: nat, len: nat)
    ensures Scaled(bits, len) == 2 * bits * Floor2(len)
    decreases len
  {
    if len >= 2 {
      ScaledMeaning(2 * bits, len / 2);
      var f := Floor2(len / 2);
      assert 2 * (2 * bits) * f == 2 * bits * (2 * f);
    }
  }

  /** `crc32c_zeros_op`, for every `len`: the operator for the largest power of two in it. */
  method ZerosOp(even: array<u32>, length: nat)
    requires even.Length == 32
    modifies even
    ensures Represents(even[..], 8 * Floor2(length))
  {
    hide Represents, Floor2;
    var odd := OneBit();
    Square(even, odd, 1);
    Square(odd, even, 2);
    var len := length;
    ghost var bits: nat := 4;
    ScaledMeaning(4, length);
    while true
      invariant Represents(odd[..], bits) && Scaled(bits, len) == 8 * Floor2(length)
      decreases len
    {
      Square(even, odd, bits);
      len := len / 2;
      if len == 0 {
        return;
      }
      Square(odd, even, 2 * bits);
      bits := 4 * bits;
      len := len / 2;
      if len == 0 {
        break;
      }
    }
    var n := 0;
    while n < 32
      invariant 0 <= n <= 32 && Represents(odd[..], bits)
      invariant forall i :: 0 <= i < n ==> even[i] == odd[i]
    {
      even[n] := odd[n];
      n := n + 1;
    }
    assert even[..] == odd[..];
  }

  /** The operator for one zero bit. */
  method OneBit() returns (odd: array<u32>)
    ensures fresh(odd) && odd.Length == 32 && Represents(odd[..], 1)
  {
    hide Represents, UpN, Up;
    odd := new u32[32];
    odd[0] := POLY;
    var row: u32 := 1;
    var n := 1;
    UpNNone(1);
    while n < 32
      invariant 1 <= n <= 32 && odd[0] == POLY && row == UpN(1, n - 1)
      invariant forall i :: 1 <= i < n ==> odd[i] == UpN(1, i - 1)
    {
      odd[n] := row;
      UpStep(n - 1);
      row := Up(row);
      n := n + 1;
    }
    OneBitOperator(odd[..]);
  }

  lemma UpStep(j: nat)
    ensures UpN(1, j + 1) == Up(UpN(1, j))
  {}

  // ----- Lookup tables for it

  function Byte0(c: u32): u32 { Widen(Low8(c)) }

  /** Byte `i` moved up by `j` bytes. */
  function Place(j: nat, i: u32): u32 {
    if j == 0 then i else if j == 1 then Up8(i) else if j == 2 then Up8(Up8(i)) else Up8(Up8(Up8(i)))
  }

  /** Table `j` holds the operator's value on each byte below `n`, in place `j`. */
  ghost predicate ZeroRow(z: array2<u32>, j: nat, bits: nat, n: u32)
    requires z.Length0 == 4 && z.Length1 == 256 && j < 4
    reads z
  {
    forall i: u32 :: i < n && i < 256 ==> z[j, Ix(i)] == Bits(bits, Place(j, i))
  }

  ghost predicate ZeroRows(z: array2<u32>, bits: nat, n: u32)
    requires z.Length0 == 4 && z.Length1 == 256
    reads z
  {
    ZeroRow(z, 0, bits, n) && ZeroRow(z, 1, bits, n) && ZeroRow(z, 2, bits, n) && ZeroRow(z, 3, bits, n)
  }

  ghost predicate ZeroTables(z: array2<u32>, bits: nat)
    reads z
  {
    z.Length0 == 4 && z.Length1 == 256 && ZeroRows(z, bits, 256)
  }

  /** `crc32c_zeros`. */
  method Zeros(length: nat) returns (z: array2<u32>)
    ensures fresh(z) && ZeroTables(z, 8 * Floor2(length))
  {
    hide Bits, Up8, Dot, Floor2, ZeroRow;
    z := new u32[4, 256];
    var op := new u32[32];
    ZerosOp(op, length);
    ghost var bits := 8 * Floor2(length);
    var n: u32 := 0;
    NoRow(z, bits);
    while n < 256
      invariant n <= 256 && Represents(op[..], bits) && ZeroRows(z, bits, n)
      decreases 256 - n
    {
      Below(n, n);
      SetCell(z, 0, bits, op, n);
      SetCell(z, 1, bits, op, n);
      SetCell(z, 2, bits, op, n);
      SetCell(z, 3, bits, op, n);
      n := n + 1;
    }
  }

  lemma NoRow(z: array2<u32>, bits: nat)
    requires z.Length0 == 4 && z.Length1 == 256
    ensures ZeroRows(z, bits, 0)
  {}

  /** One entry: the operator applied to `n << 8*j`. */
  method SetCell(z: array2<u32>, j: nat, ghost bits: nat, op: array<u32>, n: u32)
    requires z.Length0 == 4 && z.Length1 == 256 && op.Length == 32 && n < 256 && j < 4
    requires Represents(op[..], bits) && ZeroRow(z, j, bits, n)
    modifies z
    ensures ZeroRow(z, j, bits, n + 1)
    ensures forall k, m: u32 :: 0 <= k < 4 && k != j && old(ZeroRow(z, k, bits, m)) ==> ZeroRow(z, k, bits, m)
  {
    hide Bits, Place, Dot;
    var r := Times(op, Place(j, n));
    z[j, Ix(n)] := r;
    forall i: u32 | i < n + 1 && i < 256 ensures z[j, Ix(i)] == Bits(bits, Place(j, i)) {
      Below(i, n);
      if i != n {
        if Ix(i) == Ix(n) { IxInjective(i, n); }
        assert z[j, Ix(i)] == old(z[j, Ix(i)]);
      }
    }
  }

  lemma Up8Xor(x: u32, y: u32)
    ensures Up8(Xor(x, y)) == Xor(Up8(x), Up8(y))
  {}

  lemma TopByte(c: u32)
    ensures High24(High24(High24(c))) == Byte0(High24(High24(High24(c))))
  {}

  /** A state is the sum of its bytes in place. */
  lemma ByteSum(c: u32)
    ensures var h1 := High24(c); var h2 := High24(h1); var h3 := High24(h2);
            c == Xor(Xor(Xor(Byte0(c), Up8(Byte0(h1))), Up8(Up8(Byte0(h2)))), Up8(Up8(Up8(Byte0(h3)))))
  {
    hide Xor, Up8, High24, Low8, Widen, Byte0;
    var h1 := High24(c); var h2 := High24(h1); var h3 := High24(h2);
    Byte0Split(c);
    Byte0Split(h1);
    Byte0Split(h2);
    TopByte(c);
    Up8Xor(Byte0(h2), Up8(h3));
    Up8Xor(Byte0(h1), Up8(h2));
    Up8Xor(Up8(Byte0(h2)), Up8(Up8(h3)));
    XorAssoc(Byte0(c), Up8(Byte0(h1)), Up8(Up8(h2)));
    XorAssoc(Xor(Byte0(c), Up8(Byte0(h1))), Up8(Up8(Byte0(h2))), Up8(Up8(Up8(h3))));
  }

  lemma Byte0Split(c: u32)
    ensures c == Xor(Byte0(c), Up8(High24(c)))
  {
    hide Xor, Up8, High24, Low8, Widen;
    ByteSplit(c);
  }

  /** `crc32c_shift`: four lookups apply the operator. */
  method Shift(z: array2<u32>, crc: u32, ghost bits: nat) returns (r: u32)
    requires ZeroTables(z, bits)
    ensures r == Bits(bits, crc)
  {
    hide Xor, Up8, High24, Low8, Widen, Bits;
    var h1 := High24(crc);
    var h2 := High24(h1);
    var h3 := High24(h2);
    LowIsSmall(crc);
    LowIsSmall(h1);
    LowIsSmall(h2);
    LowIsSmall(h3);
    r := Xor(Xor(Xor(z[0, Ix(Byte0(crc))], z[1, Ix(Byte0(h1))]), z[2, Ix(Byte0(h2))]), z[3, Ix(Byte0(h3))]);
    ByteSum(crc);
    var x0, x1, x2, x3 := Byte0(crc), Up8(Byte0(h1)), Up8(Up8(Byte0(h2))), Up8(Up8(Up8(Byte0(h3))));
    BitsLinear(bits, x0, x1);
    BitsLinear(bits, Xor(x0, x1), x2);
    BitsLinear(bits, Xor(Xor(x0, x1), x2), x3);
  }

  // ----- Three lanes

  lemma SliceOfSlice(s: seq<u8>, lo: nat, hi: nat, i: nat, n: nat)
    requires lo + i + n <= hi <= |s|
    ensures s[lo..hi][i..i + n] == s[lo + i..lo + i + n]
  {
    var x, y := s[lo..hi][i..i + n], s[lo + i..lo + i + n];
    forall k | 0 <= k < n ensures x[k] == y[k] {
      assert x[k] == s[lo..hi][i + k] == s[lo + (i + k)];
    }
    assert x == y;
  }

  /** `3 * size` bytes as three independent runs of `size`, joined by appending `size` zeros twice. */
  method ThreeLanes(z: array2<u32>, crc: u32, s: seq<u8>, size: nat) returns (r: u32)
    requires size > 0 && size % 8 == 0 && |s| == 3 * size && ZeroTables(z, 8 * size)
    ensures r == Raw(crc, s)
  {
    hide Raw, Xor, Bits, ZeroTables;
    var crc0, crc1: u32, crc2: u32 := crc, 0, 0;
    ghost var a, b, c := s[0..size], s[size..2 * size], s[2 * size..3 * size];
    var i := 0;
    RawNone(crc);
    RawNone(0);
    assert a[..0] == [] && b[..0] == [] && c[..0] == [];
    while i < size
      invariant 0 <= i <= size && i % 8 == 0
      invariant crc0 == Raw(crc, a[..i]) && crc1 == Raw(0, b[..i]) && crc2 == Raw(0, c[..i])
    {
      RawSnoc(crc, a, i, 8);
      RawSnoc(0, b, i, 8);
      RawSnoc(0, c, i, 8);
      SliceOfSlice(s, 0, size, i, 8);
      SliceOfSlice(s, size, 2 * size, i, 8);
      SliceOfSlice(s, 2 * size, 3 * size, i, 8);
      crc0 := Crc32q(crc0, s[i..i + 8]);
      crc1 := Crc32q(crc1, s[size + i..size + i + 8]);
      crc2 := Crc32q(crc2, s[2 * size + i..2 * size + i + 8]);
      i := i + 8;
    }
    assert a[..i] == a && b[..i] == b && c[..i] == c;
    var t := Shift(z, crc0, 8 * size);
    crc0 := Xor(t, crc1);
    RawJoin(crc, a, b);
    t := Shift(z, crc0, 8 * size);
    crc0 := Xor(t, crc2);
    RawJoin(crc, a + b, c);
    assert s == a + b + c;
    r := crc0;
  }

  /** The `crc32q` instruction: eight bytewise steps. */
  function Crc32q(crc: u32, s: seq<u8>): u32
    requires |s| == 8
  {
    Raw(crc, s)
  }

  const LONG := 8192
  const SHORT := 256

  lemma LanesArePowers()
    ensures Floor2(LONG) == LONG && Floor2(SHORT) == SHORT
  {
    assert Floor2(4) == 4;
    assert Floor2(16) == 16;
    assert Floor2(64) == 64;
    assert Floor2(256) == 256;
    assert Floor2(1024) == 1024;
    assert Floor2(4096) == 4096;
  }

  /** `crc32c_hw`, for a buffer that starts at any address. */
  method Hw(crc: u32, buf: seq<u8>, address: nat) returns (r: u32)
    ensures r == Crc(crc, buf)
  {
    hide Raw, Byte, ZeroTables, Floor2;
    var long := Zeros(LONG);
    var short := Zeros(SHORT);
    LanesArePowers();
    var crc0 := Xor(crc, ONES);
    ghost var c0 := crc0;
    var next: nat, len: nat := 0, |buf|;
    RawNone(c0);
    assert buf[..0] == [];
    while len > 0 && (address + next) % 8 != 0
      invariant next + len == |buf| && ZeroTables(long, 8 * LONG) && ZeroTables(short, 8 * SHORT)
      invariant crc0 == Raw(c0, buf[..next])
    {
      RawSnoc(c0, buf, next, 1);
      RawOne(crc0, buf[next]);
      assert buf[next..next + 1] == [buf[next]];
      crc0 := Byte(crc0, buf[next]);
      next, len := next + 1, len - 1;
    }
    while len >= LONG * 3
      invariant next + len == |buf| && ZeroTables(long, 8 * LONG) && ZeroTables(short, 8 * SHORT)
      invariant crc0 == Raw(c0, buf[..next])
    {
      RawSnoc(c0, buf, next, LONG * 3);
      crc0 := ThreeLanes(long, crc0, buf[next..next + LONG * 3], LONG);
      next, len := next + LONG * 3, len - LONG * 3;
    }
    while len >= SHORT * 3
      invariant next + len == |buf| && ZeroTables(long, 8 * LONG) && ZeroTables(short, 8 * SHORT)
      invariant crc0 == Raw(c0, buf[..next])
    {
      RawSnoc(c0, buf, next, SHORT * 3);
      crc0 := ThreeLanes(short, crc0, buf[next..next + SHORT * 3], SHORT);
      next, len := next + SHORT * 3, len - SHORT * 3;
    }
    var end := next + (len - len % 8);
    while next < end
      invariant next <= end && (end - next) % 8 == 0 && end + len % 8 == |buf|
      invariant crc0 == Raw(c0, buf[..next])
    {
      RawSnoc(c0, buf, next, 8);
      crc0 := Crc32q(crc0, buf[next..next + 8]);
      next := next + 8;
    }
    len := len % 8;
    while len > 0
      invariant next + len == |buf|
      invariant crc0 == Raw(c0, buf[..next])
    {
      RawSnoc(c0, buf, next, 1);
      RawOne(crc0, buf[next]);
      assert buf[next..next + 1] == [buf[next]];
      crc0 := Byte(crc0, buf[next]);
      next, len := next + 1, len - 1;
    }
    assert buf[..next] == buf;
    r := Xor(crc0, ONES);
  }
}
