/** Base 128 integers: unsigned LEB128, section 7.6 of DWARF Version 5. */
module Leb128 {
  import opened Bits

  function Low7(v: u64): u8 { (v & 0x7F) as u8 }

  function Rest7(v: u64): u64 { v >> 7 }

  function Up7(x: u64): u64 { x << 7 }

  function Digit(b: u8): u64 { (b & 0x7F) as u64 }

  predicate More(b: u8) { b & 0x80 != 0 }

  /** The bytes written for `v`: seven bits each, low bits first, top bit set on all but the last. */
  function Put(v: u64): (s: seq<u8>)
    ensures |s| > 0
    decreases v
  {
    if Rest7(v) == 0 then [Low7(v)] else [Low7(v) | 0x80] + Put(Rest7(v))
  }

  lemma PutStep(v: u64)
    ensures Rest7(v) != 0 ==> Put(v) == [Low7(v) | 0x80] + Put(Rest7(v))
    ensures Rest7(v) == 0 ==> Put(v) == [Low7(v)]
  {}

  /** `x << 7*k`; bits pushed past the word are lost. */
  function Pad7(x: u64, k: nat): u64 {
    if k == 0 then x else Up7(Pad7(x, k - 1))
  }

  /** The reading loop from `p` on, with `k` digits already in `acc`: the value and the position
      after it, or `None` when the region ends first. */
  function Scan(b: seq<u8>, p: nat, acc: u64, k: nat): (r: Option<(u64, nat)>)
    requires p <= |b|
    ensures r.Some? ==> p < r.value.1 <= |b|
    decreases |b| - p
  {
    if p == |b| then None
    else
      var acc' := Or(acc, Pad7(Digit(b[p]), k));
      if More(b[p]) then Scan(b, p + 1, acc', k + 1) else Some((acc', p + 1))
  }

  function Get(b: seq<u8>, p: nat): (r: Option<(u64, nat)>)
    requires p <= |b|
    ensures r.Some? ==> p < r.value.1 <= |b|
  {
    Scan(b, p, 0, 0)
  }

  lemma {:induction false} Pad7Or(x: u64, y: u64, k: nat)
    ensures Pad7(Or(x, y), k) == Or(Pad7(x, k), Pad7(y, k))
  {
    if k > 0 {
      Pad7Or(x, y, k - 1);
      ShlOr(Pad7(x, k - 1), Pad7(y, k - 1));
    }
  }

  lemma ShlOr(x: u64, y: u64)
    ensures Up7(Or(x, y)) == Or(Up7(x), Up7(y))
  {}

  lemma {:induction false} Pad7Shift(x: u64, k: nat)
    ensures Pad7(Up7(x), k) == Pad7(x, k + 1)
  {
    if k > 0 {
      Pad7Shift(x, k - 1);
    }
  }

  lemma DigitOfLow7(v: u64)
    ensures !More(Low7(v)) && More(Low7(v) | 0x80)
    ensures Digit(Low7(v)) == Digit(Low7(v) | 0x80)
    ensures v == Or(Digit(Low7(v)), Up7(Rest7(v)))
    ensures Rest7(v) == 0 ==> v == Digit(Low7(v))
  {}

  lemma OrAssoc(x: u64, y: u64, z: u64)
    ensures Or(Or(x, y), z) == Or(x, Or(y, z))
  {}

  /** The loop undoes `Put`, wherever the bytes lie and whatever follows them. */
  lemma {:induction false} ScanPut(b: seq<u8>, p: nat, v: u64, acc: u64, k: nat)
    requires At(b, p, Put(v))
    ensures Scan(b, p, acc, k) == Some((Or(acc, Pad7(v, k)), p + |Put(v)|))
    decreases v
  {
    DigitOfLow7(v);
    if Rest7(v) == 0 {
      assert b[p] == b[p..p + 1][0] == Low7(v);
    } else {
      var head := [Low7(v) | 0x80];
      AtConcat(b, p, head, Put(Rest7(v)));
      assert b[p] == b[p..p + 1][0] == head[0];
      var d := Digit(Low7(v));
      var acc' := Or(acc, Pad7(d, k));
      ScanPut(b, p + 1, Rest7(v), acc', k + 1);
      Pad7Or(d, Up7(Rest7(v)), k);
      Pad7Shift(Rest7(v), k);
      OrAssoc(acc, Pad7(d, k), Pad7(Rest7(v), k + 1));
    }
  }

  lemma GetPut(b: seq<u8>, p: nat, v: u64)
    requires At(b, p, Put(v))
    ensures Get(b, p) == Some((v, p + |Put(v)|))
  {
    ScanPut(b, p, v, 0, 0);
    assert Or(0, v) == v;
  }

  lemma PutAtMost10(v: u64)
    ensures |Put(v)| <= 10
  {
    var v1 := Rest7(v); var v2 := Rest7(v1); var v3 := Rest7(v2); var v4 := Rest7(v3);
    var v5 := Rest7(v4); var v6 := Rest7(v5); var v7 := Rest7(v6); var v8 := Rest7(v7);
    var v9 := Rest7(v8);
    assert Rest7(v9) == 0;
    assert |Put(v9)| <= 1;
    assert |Put(v8)| <= 2;
    assert |Put(v7)| <= 3;
    assert |Put(v6)| <= 4;
    assert |Put(v5)| <= 5;
    assert |Put(v4)| <= 6;
    assert |Put(v3)| <= 7;
    assert |Put(v2)| <= 8;
    assert |Put(v1)| <= 9;
  }

  /** The examples of section 7.6 of DWARF Version 5. */
  lemma Examples()
    ensures Put(2) == [2] && Put(127) == [0x7F] && Put(128) == [0x80, 1] && Put(129) == [0x81, 1]
    ensures Put(12857) == [0xB9, 0x64]
  {
    assert Rest7(2) == 0 && Rest7(127) == 0 && Rest7(128) == 1 && Rest7(129) == 1 && Rest7(12857) == 100;
    assert Rest7(1) == 0 && Rest7(100) == 0;
    assert Put(1) == [1] && Put(100) == [0x64];
  }

  /** `v >> 7*n`. */
  function Drop7(v: u64, n: nat): u64 {
    if n == 0 then v else Drop7(Rest7(v), n - 1)
  }

  lemma {:induction false} Drop7Zero(n: nat)
    ensures Drop7(0, n) == 0
  {
    if n > 0 {
      assert Rest7(0) == 0;
      Drop7Zero(n - 1);
    }
  }

  /** The fewest groups of seven bits that hold the number are written. */
  lemma {:induction false} PutShortest(v: u64, n: nat)
    requires n > 0
    ensures |Put(v)| <= n <==> Drop7(v, n) == 0
    decreases n
  {
    hide Low7;
    if Rest7(v) == 0 {
      Drop7Zero(n - 1);
    } else if n > 1 {
      PutShortest(Rest7(v), n - 1);
    }
  }
}
