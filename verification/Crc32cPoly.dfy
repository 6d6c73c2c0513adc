/** Polynomials over GF(2), as the sets of their exponents, and the register of the digest as a remainder by the
    generator of section 12.1 of RFC 3720. */
module Crc32cPoly {
  import opened Crc32c

  type Poly = set<nat>

  function Add(p: Poly, q: Poly): Poly { (p - q) + (q - p) }

  /** `p` times x to the `k`. */
  function Shift(p: Poly, k: nat): Poly {
    set e | e in p :: e + k
  }

  /** The exponents of the generator. */
  function Generator(): Poly { {32, 28, 27, 26, 25, 23, 22, 20, 19, 18, 14, 13, 11, 10, 9, 8, 6, 0} }

  ghost predicate Below(p: Poly, n: nat) {
    forall e <- p :: e < n
  }

  // ----- Multiples of the generator

  lemma {:induction false} Highest(p: Poly) returns (m: nat)
    requires p != {}
    ensures m in p && Below(p, m + 1)
    decreases |p|
  {
    hide Below;
    m :| m in p;
    var (x, rest) := (m, p - {m});
    if rest == {} {
      BelowAlso(rest, x, 0);
    } else {
      var n := Highest(rest);
      m := if m < n then n else m;
      BelowAlso(rest, x, n + 1);
    }
    assert p == rest + {x};
  }

  lemma BelowAlso(p: Poly, x: nat, n: nat)
    requires p == {} || Below(p, n)
    ensures Below(p + {x}, if x < n then n else x + 1)
  {}

  lemma HasMax(p: Poly)
    requires p != {}
    ensures exists m :: m in p && Below(p, m + 1)
  {
    var m := Highest(p);
  }

  ghost function Degree(p: Poly): (m: nat)
    requires p != {}
    ensures m in p && Below(p, m + 1)
  {
    HasMax(p);
    var m :| m in p && Below(p, m + 1);
    m
  }

  /** `q` times the generator. */
  ghost function Multiple(q: Poly): Poly {
    if q == {} then {} else Add(Shift(Generator(), Degree(q)), Multiple(q - {Degree(q)}))
  }

  /** `r` is what is left of `p` after division by the generator. */
  ghost predicate IsRemainder(p: Poly, r: Poly) {
    Below(r, 32) && exists q :: p == Add(Multiple(q), r)
  }

  lemma DegreeIs(p: Poly, m: nat)
    requires m in p && Below(p, m + 1)
    ensures Degree(p) == m
  {}

  lemma AddComm(p: Poly, q: Poly)
    ensures Add(p, q) == Add(q, p)
  {}

  lemma AddAssoc(p: Poly, q: Poly, r: Poly)
    ensures Add(Add(p, q), r) == Add(p, Add(q, r))
  {}

  lemma AddSelf(p: Poly)
    ensures Add(p, p) == {} && Add(p, {}) == p && Add({}, p) == p
  {}

  lemma AddSwap(a: Poly, b: Poly, c: Poly, d: Poly)
    ensures Add(Add(a, b), Add(c, d)) == Add(Add(a, c), Add(b, d))
  {
    hide Add;
    AddAssoc(a, b, Add(c, d));
    AddAssoc(b, c, d);
    AddComm(b, c);
    AddAssoc(c, b, d);
    AddAssoc(a, c, Add(b, d));
  }

  lemma ShiftAdd(p: Poly, q: Poly, k: nat)
    ensures Shift(Add(p, q), k) == Add(Shift(p, k), Shift(q, k))
  {
    var (l, r) := (Shift(Add(p, q), k), Add(Shift(p, k), Shift(q, k)));
    forall e | e in l ensures e in r {
      assert e - k in Add(p, q);
    }
    forall e | e in r ensures e in l {
      assert e >= k && (e - k in p || e - k in q);
      assert (e - k) + k == e;
    }
  }

  lemma ShiftTwice(p: Poly, j: nat, k: nat)
    ensures Shift(Shift(p, j), k) == Shift(p, j + k)
  {
    forall e | e in Shift(p, j + k) ensures e in Shift(Shift(p, j), k) {
      var f :| f in p && f + (j + k) == e;
      assert f + j in Shift(p, j) && (f + j) + k == e;
    }
  }

  lemma {:induction false} MultipleBelow(q: Poly, n: nat)
    requires Below(q, n)
    ensures Below(Multiple(q), n + 32)
    decreases |q|
  {
    if q != {} {
      var m := Degree(q);
      MultipleBelow(q - {m}, n);
      forall e <- Multiple(q) ensures e < n + 32 {
        if e in Shift(Generator(), m) {
          var g :| g in Generator() && g + m == e;
          assert g <= 32;
        }
      }
    }
  }

  /** A multiple has the degree of its factor and of the generator together. */
  lemma MultipleDegree(q: Poly)
    requires q != {}
    ensures Degree(q) + 32 in Multiple(q) && Below(Multiple(q), Degree(q) + 33)
  {
    hide Degree;
    var m := Degree(q);
    DegreeTop(q);
    MultipleBelow(q - {m}, m);
    MultipleBelow(q, m + 1);
    assert 32 in Generator() && 32 + m in Shift(Generator(), m);
    MultipleStep(q);
  }

  lemma DegreeTop(p: Poly)
    requires p != {}
    ensures Degree(p) in p && Below(p, Degree(p) + 1)
  {}

  lemma MultipleStep(q: Poly)
    requires q != {}
    ensures Multiple(q) == Add(Shift(Generator(), Degree(q)), Multiple(q - {Degree(q)}))
  {}

  lemma MultipleTop(q: Poly, m: nat)
    requires m in q && Below(q, m + 1)
    ensures Multiple(q) == Add(Shift(Generator(), m), Multiple(q - {m}))
  {
    hide Shift, Add;
    DegreeIs(q, m);
    MultipleStep(q);
  }

  lemma AddWithout(p: Poly, q: Poly, m: nat)
    requires m in p
    ensures m in q ==> Add(p, q) == Add(p - {m}, q - {m})
    ensures m !in q ==> m in Add(p, q) && Add(p, q) - {m} == Add(p - {m}, q) && q - {m} == q
  {}

  lemma AddTop(p: Poly, q: Poly, m: nat)
    requires m in p && m !in q && Below(p, m + 1) && Below(q, m + 1)
    ensures Multiple(Add(p, q)) == Add(Shift(Generator(), m), Multiple(Add(p - {m}, q)))
  {
    hide Multiple, Shift, Generator;
    AddWithout(p, q, m);
    MultipleTop(Add(p, q), m);
  }

  lemma {:induction false} MultipleAdd(p: Poly, q: Poly)
    ensures Multiple(Add(p, q)) == Add(Multiple(p), Multiple(q))
    decreases |p| + |q|, 1
  {
    hide Multiple, Shift, Generator, Add, Degree;
    if p + q == {} {
      assert p == {} && q == {} by {
        assert p <= p + q && q <= p + q;
      }
      MultipleNone();
      AddSelf({});
    } else {
      DegreeTop(p + q);
      var m := Degree(p + q);
      BothBelow(p, q, m + 1);
      if m in p {
        AddFrom(p, q, m);
      } else {
        AddFrom(q, p, m);
        AddComm(p, q);
        AddComm(Multiple(p), Multiple(q));
      }
    }
  }

  lemma BothBelow(p: Poly, q: Poly, n: nat)
    requires Below(p + q, n)
    ensures Below(p, n) && Below(q, n)
  {
    assert forall e <- p :: e in p + q;
    assert forall e <- q :: e in p + q;
  }

  lemma {:induction false} AddFrom(p: Poly, q: Poly, m: nat)
    requires m in p && Below(p, m + 1) && Below(q, m + 1)
    ensures Multiple(Add(p, q)) == Add(Multiple(p), Multiple(q))
    decreases |p| + |q|, 0
  {
    hide Multiple, Shift, Generator, Add;
    var g := Shift(Generator(), m);
    var (a, b) := (p - {m}, q - {m});
    MultipleAdd(a, b);
    MultipleTop(p, m);
    AddWithout(p, q, m);
    if m in q {
      MultipleTop(q, m);
      AddSwap(g, Multiple(a), g, Multiple(b));
      AddSelf(g);
      AddSelf(Add(Multiple(a), Multiple(b)));
    } else {
      AddTop(p, q, m);
      AddAssoc(g, Multiple(a), Multiple(q));
    }
  }

  lemma MultipleNone()
    ensures Multiple({}) == {}
  {}

  lemma ShiftWithout(q: Poly, m: nat)
    requires m in q && Below(q, m + 1)
    ensures m + 1 in Shift(q, 1) && Shift(q, 1) - {m + 1} == Shift(q - {m}, 1)
    ensures Below(Shift(q, 1), m + 2)
  {
    forall e | e in Shift(q, 1) - {m + 1} ensures e in Shift(q - {m}, 1) {
      var f :| f in q && f + 1 == e;
      assert f in q - {m};
    }
  }

  lemma ShiftNone()
    ensures Shift({}, 1) == {}
  {}

  lemma {:induction false} MultipleShift(q: Poly)
    ensures Multiple(Shift(q, 1)) == Shift(Multiple(q), 1)
    decreases |q|
  {
    hide Multiple, Generator, Add, Shift;
    if q == {} {
      MultipleNone();
      ShiftNone();
    } else {
      DegreeTop(q);
      var m := Degree(q);
      MultipleStep(q);
      ShiftWithout(q, m);
      MultipleTop(Shift(q, 1), m + 1);
      MultipleShift(q - {m});
      ShiftAdd(Shift(Generator(), m), Multiple(q - {m}), 1);
      ShiftTwice(Generator(), m, 1);
    }
  }

  /** There is only one remainder. */
  lemma RemainderUnique(p: Poly, r: Poly, s: Poly)
    requires IsRemainder(p, r) && IsRemainder(p, s)
    ensures r == s
  {
    hide Multiple;
    var a :| p == Add(Multiple(a), r);
    var b :| p == Add(Multiple(b), s);
    MultipleAdd(a, b);
    assert Multiple(Add(a, b)) == Add(r, s);
    NothingSmall(Add(a, b));
  }

  lemma NothingSmall(q: Poly)
    ensures Below(Multiple(q), 32) ==> Multiple(q) == {}
  {
    hide Multiple, Degree;
    if q == {} {
      MultipleNone();
    } else {
      MultipleDegree(q);
    }
  }

  /** The next coefficient of a number that is being divided, and the remainder with it. */
  lemma RemainderNext(p: Poly, r: Poly, top: Poly)
    requires IsRemainder(p, r) && top <= {32}
    ensures var next := Add(Shift(r, 1), top);
            IsRemainder(Add(Shift(p, 1), top), if 32 in next then Add(next, Generator()) else next)
  {
    hide Multiple, Generator, Shift, Add;
    var q :| p == Add(Multiple(q), r);
    var next := Add(Shift(r, 1), top);
    var q1 := Shift(q, 1);
    MultipleShift(q);
    ShiftAdd(Multiple(q), r, 1);
    AddAssoc(Multiple(q1), Shift(r, 1), top);
    assert Add(Shift(p, 1), top) == Add(Multiple(q1), next);
    NextBelow(r, top);
    if 32 in next {
      MultipleOne();
      MultipleAdd(q1, {0});
      AddSwap(Multiple(q1), Generator(), next, Generator());
      AddSelf(Generator());
      AddSelf(Add(Multiple(q1), next));
      assert Add(Shift(p, 1), top) == Add(Multiple(Add(q1, {0})), Add(next, Generator()));
    }
  }

  lemma NextBelow(r: Poly, top: Poly)
    requires Below(r, 32) && top <= {32}
    ensures var next := Add(Shift(r, 1), top);
            Below(next, 33) && if 32 in next then Below(Add(next, Generator()), 32) else Below(next, 32)
  {}

  lemma MultipleOne()
    ensures Multiple({0}) == Generator()
  {
    hide Multiple;
    MultipleTop({0}, 0);
    assert {0} - {0} == {};
    MultipleNone();
    assert Shift(Generator(), 0) == Generator() by {
      forall e | e in Generator() ensures e in Shift(Generator(), 0) {
        assert e + 0 == e;
      }
    }
    AddSelf(Generator());
  }

  // ----- The register

  predicate BitAt(c: u32, k: nat) { Odd(HalfN(c, k)) }

  /** The coefficients in the register: bit `k` is that of x to the 31 - `k`. */
  function Register(c: u32): Poly {
    set k | 0 <= k < 32 && BitAt(c, k) :: 31 - k
  }

  lemma RegisterHas(c: u32, e: nat)
    ensures e in Register(c) <==> e < 32 && BitAt(c, 31 - e)
  {
    hide BitAt;
    if e < 32 && BitAt(c, 31 - e) {
      assert 31 - (31 - e) == e;
    }
  }

  lemma {:induction false} BitOfXor(x: u32, y: u32, k: nat)
    ensures BitAt(Xor(x, y), k) <==> BitAt(x, k) != BitAt(y, k)
    decreases k
  {
    hide Xor, Half, Odd;
    if k == 0 {
      OddXor(x, y);
    } else {
      HalfXor(x, y);
      BitOfXor(Half(x), Half(y), k - 1);
    }
  }

  lemma RegisterXor(x: u32, y: u32)
    ensures Register(Xor(x, y)) == Add(Register(x), Register(y))
  {
    hide BitAt, Register, Xor;
    forall e: nat ensures e in Register(Xor(x, y)) <==> e in Add(Register(x), Register(y)) {
      RegisterHas(Xor(x, y), e);
      RegisterHas(x, e);
      RegisterHas(y, e);
      if e < 32 {
        BitOfXor(x, y, 31 - e);
      }
    }
  }

  lemma {:induction false} HalfLater(c: u32, k: nat)
    ensures HalfN(Half(c), k) == HalfN(c, k + 1) && Half(HalfN(c, k)) == HalfN(c, k + 1)
    decreases k
  {
    hide Half;
    if k > 0 {
      HalfLater(Half(c), k - 1);
    }
  }

  lemma NoHigher(c: u32)
    ensures !BitAt(c, 32) && HalfN(c, 32) == 0
  {
    var c4 := Half(Half(Half(Half(c)))); var c8 := Half(Half(Half(Half(c4))));
    var c12 := Half(Half(Half(Half(c8)))); var c16 := Half(Half(Half(Half(c12))));
    var c20 := Half(Half(Half(Half(c16)))); var c24 := Half(Half(Half(Half(c20))));
    var c28 := Half(Half(Half(Half(c24)))); var c32 := Half(Half(Half(Half(c28))));
    assert c32 == 0;
    hide Half;
    Half4(c, 28); Half4(c4, 24); Half4(c8, 20); Half4(c12, 16); Half4(c16, 12); Half4(c20, 8); Half4(c24, 4);
    Half4(c28, 0);
  }

  lemma Half4(c: u32, n: nat)
    ensures HalfN(c, n + 4) == HalfN(Half(Half(Half(Half(c)))), n)
  {
    hide Half;
    assert HalfN(c, n + 4) == HalfN(Half(Half(c)), n + 2);
  }

  /** A register moved down is the polynomial times x, without what was moved out. */
  lemma RegisterHalf(c: u32)
    ensures Register(Half(c)) == Shift(Register(c), 1) - {32}
    ensures 32 in Shift(Register(c), 1) <==> Odd(c)
  {
    hide BitAt, Register, Half, Odd;
    forall e: nat ensures e in Register(Half(c)) <==> e in Shift(Register(c), 1) - {32} {
      RegisterHas(Half(c), e);
      if e > 0 {
        RegisterHas(c, e - 1);
        assert e in Shift(Register(c), 1) <==> e - 1 in Register(c);
        if e < 32 {
          BitLater(c, 31 - e);
        }
      } else {
        BitLater(c, 31);
        NoHigher(c);
      }
    }
    RegisterHas(c, 31);
    FirstBit(c);
    assert 32 in Shift(Register(c), 1) <==> 31 in Register(c);
  }

  lemma BitLater(c: u32, k: nat)
    ensures BitAt(Half(c), k) == BitAt(c, k + 1)
  {
    hide Half, Odd, HalfN;
    HalfLater(c, k);
  }

  lemma FirstBit(c: u32)
    ensures BitAt(c, 0) <==> Odd(c)
  {}

  /** The constant of the source is the generator in the order of the register. */
  lemma PolyIsGenerator()
    ensures Register(POLY) == Generator() - {32}
  {
    hide BitAt, Register;
    forall e: nat ensures e in Register(POLY) <==> e in Generator() - {32} {
      RegisterHas(POLY, e);
      if e < 32 {
        PolyBit(31 - e);
      }
    }
  }

  lemma FourBits(c: u32, k: nat)
    requires k < 4
    ensures BitAt(c, k) == Odd(if k == 0 then c else if k == 1 then Half(c) else if k == 2 then Half(Half(c))
                               else Half(Half(Half(c))))
  {
    hide Half, Odd;
    if k == 1 {
      assert HalfN(Half(c), 0) == Half(c);
    } else if k == 2 {
      assert HalfN(Half(Half(c)), 0) == Half(Half(c));
      assert HalfN(Half(c), 1) == Half(Half(c));
    } else if k == 3 {
      assert HalfN(Half(Half(Half(c))), 0) == Half(Half(Half(c)));
      assert HalfN(Half(Half(c)), 1) == Half(Half(Half(c)));
      assert HalfN(Half(c), 2) == HalfN(Half(Half(c)), 1);
    }
  }

  /** Bit `4 * n + k` of the constant. */
  lemma NibbleBit(n: nat, k: nat)
    requires n < 8 && k < 4
    ensures BitAt(Nibbles(n), k) <==> 31 - (4 * n + k) in Generator()
  {
    hide BitAt;
    FourBits(Nibbles(n), k);
  }

  lemma {:induction false} NibblesAre(n: nat, k: nat)
    requires n < 8
    ensures BitAt(POLY, 4 * n + k) == BitAt(Nibbles(n), k)
  {
    hide Odd;
    if n > 0 {
      NibblesAre(n - 1, k + 4);
      assert Nibbles(n) == Half(Half(Half(Half(Nibbles(n - 1)))));
      hide Half;
      Half4(Nibbles(n - 1), k);
    }
  }

  /** The constant without its lowest `4 * n` bits. */
  function Nibbles(n: nat): u32 {
    if n == 0 then 0x82f63b78
    else if n == 1 then 0x82f63b7
    else if n == 2 then 0x82f63b
    else if n == 3 then 0x82f63
    else if n == 4 then 0x82f6
    else if n == 5 then 0x82f
    else if n == 6 then 0x82
    else 0x8
  }

  lemma PolyBit(k: nat)
    requires k < 32
    ensures BitAt(POLY, k) <==> 31 - k in Generator()
  {
    hide BitAt, Generator, Nibbles;
    NibblesAre(k / 4, k % 4);
    NibbleBit(k / 4, k % 4);
  }

  /** One step of the register is one step of the division. */
  lemma RegisterBit(c: u32)
    ensures var next := Shift(Register(c), 1);
            Register(Bit(c)) == if 32 in next then Add(next, Generator()) else next
  {
    hide Register, Half, Odd, Xor, Generator, Shift;
    RegisterHalf(c);
    if Odd(c) {
      PolyIsGenerator();
      RegisterXor(Half(c), POLY);
      HasTop();
    }
  }

  lemma HasTop()
    ensures 32 in Generator()
  {}

  // ----- Messages

  function Coefficient(bit: bool, e: nat): Poly { if bit then {e} else {} }

  /** The first bit has the highest exponent. */
  function Message(bits: seq<bool>): Poly
    decreases |bits|
  {
    if bits == [] then {} else Add(Coefficient(bits[0], |bits| - 1), Message(bits[1..]))
  }

  lemma {:induction false} MessageHas(bits: seq<bool>, e: nat)
    ensures e in Message(bits) <==> e < |bits| && bits[|bits| - 1 - e]
    decreases |bits|
  {
    if bits != [] {
      MessageHas(bits[1..], e);
    }
  }

  function Fed(bit: bool): u32 { if bit then 1 else 0 }

  /** A message given to the register bit by bit. */
  function Feed(c: u32, bits: seq<bool>): u32
    decreases |bits|
  {
    if bits == [] then c else Feed(Bit(Xor(c, Fed(bits[0]))), bits[1..])
  }

  lemma FedBit(bit: bool)
    ensures Shift(Register(Fed(bit)), 1) == Coefficient(bit, 32)
  {
    hide Register, BitAt, Shift;
    RegisterHalf(Fed(bit));
    assert Half(Fed(bit)) == 0 && (Odd(Fed(bit)) <==> bit);
    forall e: nat ensures e !in Register(0) {
      RegisterHas(0, e);
      if e < 32 {
        ZeroBit(31 - e);
      }
    }
    assert Register(0) == {};
  }

  lemma {:induction false} ZeroBit(k: nat)
    ensures !BitAt(0, k)
    decreases k
  {
    if k > 0 {
      assert Half(0) == 0;
      ZeroBit(k - 1);
    }
  }

  /** One bit of message. */
  lemma RegisterFed(p: Poly, c: u32, bit: bool)
    requires IsRemainder(p, Register(c))
    ensures IsRemainder(Add(Shift(p, 1), Coefficient(bit, 32)), Register(Bit(Xor(c, Fed(bit)))))
  {
    hide Register, Bit, Xor, Shift, IsRemainder, Generator, Add;
    RegisterBit(Xor(c, Fed(bit)));
    RegisterXor(c, Fed(bit));
    ShiftAdd(Register(c), Register(Fed(bit)), 1);
    FedBit(bit);
    RemainderNext(p, Register(c), Coefficient(bit, 32));
  }

  /** The dividend: what was there, moved up by the length of the message, and the message times x to the 32. */
  function Dividend(p: Poly, bits: seq<bool>): Poly {
    Add(Shift(p, |bits|), Shift(Message(bits), 32))
  }

  lemma DividendNext(p: Poly, bits: seq<bool>)
    requires bits != []
    ensures Dividend(Add(Shift(p, 1), Coefficient(bits[0], 32)), bits[1..]) == Dividend(p, bits)
  {
    hide Add, Shift;
    var n := |bits| - 1;
    var m := Coefficient(bits[0], 32);
    ShiftAdd(Shift(p, 1), m, n);
    ShiftTwice(p, 1, n);
    ShiftAdd(Coefficient(bits[0], n), Message(bits[1..]), 32);
    ShiftCoefficient(bits[0], n, 32);
    ShiftCoefficient(bits[0], 32, n);
    AddAssoc(Shift(p, n + 1), Shift(m, n), Shift(Message(bits[1..]), 32));
  }

  lemma ShiftCoefficient(bit: bool, e: nat, k: nat)
    ensures Shift(Coefficient(bit, e), k) == Coefficient(bit, e + k)
  {}

  lemma {:induction false} FeedDivides(p: Poly, c: u32, bits: seq<bool>)
    requires IsRemainder(p, Register(c))
    ensures IsRemainder(Dividend(p, bits), Register(Feed(c, bits)))
    decreases |bits|
  {
    hide Register, Bit, Xor, Shift, IsRemainder, Dividend, Add;
    if bits == [] {
      DividendNone(p);
    } else {
      RegisterFed(p, c, bits[0]);
      DividendNext(p, bits);
      FeedDivides(Add(Shift(p, 1), Coefficient(bits[0], 32)), Bit(Xor(c, Fed(bits[0]))), bits[1..]);
    }
  }

  lemma DividendNone(p: Poly)
    ensures Dividend(p, []) == p
  {
    assert Shift(p, 0) == p by {
      assert forall e <- p :: e + 0 == e;
    }
  }

  // ----- Bytes

  /** Bits of a byte, the least significant first. */
  function ByteBits(b: u8): (r: seq<bool>)
    ensures |r| == 8
  {
    seq(8, k requires 0 <= k < 8 => BitAt(Widen(b), k))
  }

  function StringBits(s: seq<u8>): (r: seq<bool>)
    ensures |r| == 8 * |s|
    decreases |s|
  {
    if s == [] then [] else ByteBits(s[0]) + StringBits(s[1..])
  }

  function LowBits(w: u32, n: nat): (r: seq<bool>)
    ensures |r| == n
    decreases n
  {
    if n == 0 then [] else [Odd(w)] + LowBits(Half(w), n - 1)
  }

  lemma {:induction false} LowBitsAre(w: u32, n: nat)
    ensures forall k :: 0 <= k < n ==> LowBits(w, n)[k] == BitAt(w, k)
    decreases n
  {
    hide Odd, Half;
    if n > 0 {
      LowBitsAre(Half(w), n - 1);
    }
  }

  lemma LowFed(w: u32)
    ensures LowBit(w) == Fed(Odd(w))
  {}

  lemma {:induction false} FeedBitsIsFeed(c: u32, w: u32, n: nat)
    ensures FeedBits(c, w, n) == Feed(c, LowBits(w, n))
    decreases n
  {
    hide Odd, Half, Bit, Xor, LowBit, Fed;
    if n > 0 {
      LowFed(w);
      assert LowBits(w, n)[1..] == LowBits(Half(w), n - 1);
      FeedBitsIsFeed(Bit(Xor(c, LowBit(w))), Half(w), n - 1);
    }
  }

  lemma {:induction false} FeedConcat(c: u32, x: seq<bool>, y: seq<bool>)
    ensures Feed(c, x + y) == Feed(Feed(c, x), y)
    decreases |x|
  {
    hide Bit, Xor, Fed;
    if x == [] {
      assert x + y == y;
    } else {
      assert (x + y)[1..] == x[1..] + y;
      FeedConcat(Bit(Xor(c, Fed(x[0]))), x[1..], y);
    }
  }

  lemma {:induction false} SerialIsFeed(c: u32, s: seq<u8>)
    ensures Serial(c, s) == Feed(c, StringBits(s))
    decreases |s|
  {
    hide FeedBits, Feed, BitAt, Widen;
    if s == [] {
      FeedNone(c);
    } else {
      var w := Widen(s[0]);
      FeedBitsIsFeed(c, w, 8);
      LowBitsAre(w, 8);
      assert LowBits(w, 8) == ByteBits(s[0]);
      FeedConcat(c, ByteBits(s[0]), StringBits(s[1..]));
      SerialIsFeed(FeedBits(c, w, 8), s[1..]);
    }
  }

  lemma FeedNone(c: u32)
    ensures Feed(c, []) == c
  {}

  lemma SelfRemainder(c: u32)
    ensures IsRemainder(Register(c), Register(c))
  {
    hide Multiple, BitAt;
    MultipleNone();
    AddSelf(Register(c));
  }

  /** Main theorem: the register is the remainder of the message, times x to the 32, and of what the register held
      before, moved up by the length of the message. */
  lemma RegisterIsRemainder(c: u32, s: seq<u8>)
    ensures IsRemainder(Dividend(Register(c), StringBits(s)), Register(Raw(c, s)))
  {
    hide IsRemainder, Dividend, Register, Raw, Feed, Serial;
    SelfRemainder(c);
    FeedDivides(Register(c), c, StringBits(s));
    SerialIsFeed(c, s);
    SerialIsRaw(c, s);
  }

  lemma {:induction false} NoBits(c: u32, n: nat)
    requires HalfN(c, n) == 0 && forall k :: 0 <= k < n ==> !BitAt(c, k)
    ensures c == 0
    decreases n
  {
    if n > 0 {
      assert !BitAt(c, 0);
      forall k | 0 <= k < n - 1 ensures !BitAt(Half(c), k) {
        BitLater(c, k);
        assert !BitAt(c, k + 1);
      }
      NoBits(Half(c), n - 1);
    }
  }

  lemma RegisterInjective(x: u32, y: u32)
    requires Register(x) == Register(y)
    ensures x == y
  {
    hide Register, BitAt, HalfN;
    var z := Xor(x, y);
    RegisterXor(x, y);
    AddSelf(Register(x));
    NoHigher(z);
    forall k | 0 <= k < 32 ensures !BitAt(z, k) {
      RegisterHas(z, 31 - k);
    }
    NoBits(z, 32);
  }

  /** The polynomial with all coefficients up to x to the 31. */
  function AllBelow32(): Poly { Message(seq(32, _ => true)) }

  lemma AllOnes()
    ensures Register(ONES) == AllBelow32()
  {
    hide Register, BitAt, Message;
    forall e: nat ensures e in Register(ONES) <==> e in AllBelow32() {
      RegisterHas(ONES, e);
      MessageHas(seq(32, _ => true), e);
      if e < 32 {
        OnesBit(31 - e);
      }
    }
  }

  lemma {:induction false} OnesBit(k: nat)
    requires k < 32
    ensures BitAt(ONES, k)
  {
    hide BitAt, OnesFrom;
    OnesFromAre(k / 4, k % 4);
    OnesNibble(k / 4, k % 4);
  }

  lemma OnesNibble(n: nat, k: nat)
    requires n < 8 && k < 4
    ensures BitAt(OnesFrom(n), k)
  {
    hide BitAt;
    FourBits(OnesFrom(n), k);
  }

  lemma {:induction false} OnesFromAre(n: nat, k: nat)
    requires n < 8
    ensures BitAt(ONES, 4 * n + k) == BitAt(OnesFrom(n), k)
  {
    hide Odd;
    if n > 0 {
      OnesFromAre(n - 1, k + 4);
      assert OnesFrom(n) == Half(Half(Half(Half(OnesFrom(n - 1)))));
      hide Half;
      Half4(OnesFrom(n - 1), k);
    }
  }

  function OnesFrom(n: nat): u32 {
    if n == 0 then 0xffffffff
    else if n == 1 then 0xfffffff
    else if n == 2 then 0xffffff
    else if n == 3 then 0xfffff
    else if n == 4 then 0xffff
    else if n == 5 then 0xfff
    else if n == 6 then 0xff
    else 0xf
  }

  /** The digest is the only word whose complement is the remainder of the message times x to the 32, with its first 32
      bits complemented. */
  lemma DigestExact(s: seq<u8>, digest: u32)
    ensures Crc(0, s) == digest <==>
            IsRemainder(Dividend(AllBelow32(), StringBits(s)), Register(Xor(digest, ONES)))
  {
    hide IsRemainder, Dividend, Register, Raw, StringBits;
    AllOnes();
    XorZero(ONES);
    RegisterIsRemainder(ONES, s);
    var r := Raw(ONES, s);
    TwiceXor(r, ONES);
    TwiceXor(digest, ONES);
    if IsRemainder(Dividend(Register(ONES), StringBits(s)), Register(Xor(digest, ONES))) {
      RemainderUnique(Dividend(Register(ONES), StringBits(s)), Register(r), Register(Xor(digest, ONES)));
      RegisterInjective(r, Xor(digest, ONES));
    }
  }

  lemma TwiceXor(x: u32, y: u32)
    ensures Xor(Xor(x, y), y) == x
  {}

  // ----- Known digests

  function Eight(c: u32): u32 { Bit(Bit(Bit(Bit(Bit(Bit(Bit(Bit(c)))))))) }

  lemma EightIsBits(c: u32)
    ensures Bits(8, c) == Eight(c)
  {
    hide Bit;
    var c2 := Bit(Bit(c)); var c4 := Bit(Bit(c2)); var c6 := Bit(Bit(c4)); var c8 := Bit(Bit(c6));
    assert Bits(8, c) == Bits(6, c2);
    assert Bits(6, c2) == Bits(4, c4);
    assert Bits(4, c4) == Bits(2, c6);
    assert Bits(2, c6) == Bits(0, c8);
  }

  lemma {:induction false} RawZeros(n: nat, c: u32)
    ensures Raw(c, seq(n, _ => 0)) == Bits(8 * n, c)
  {
    hide Bits, Xor;
    if n == 0 {
      BitsNone(c);
    } else {
      assert seq(n, _ => 0 as u8)[1..] == seq(n - 1, _ => 0 as u8);
      XorZero(c);
      assert Byte(c, 0) == Bits(8, c);
      RawZeros(n - 1, Bits(8, c));
      BitsAdd(8, 8 * (n - 1), c);
    }
  }

  lemma NextEight(n: nat, c: u32, d: u32)
    requires Bits(n, ONES) == c && Eight(c) == d
    ensures Bits(n + 8, ONES) == d
  {
    hide Bits, Eight;
    BitsAdd(n, 8, ONES);
    EightIsBits(c);
  }

  lemma Ones64()
    ensures Bits(64, ONES) == 0x73d74d75
  {
    hide Bits;
    BitsNone(ONES);
    NextEight(0, ONES, 0xad82acae);
    NextEight(8, 0xad82acae, 0xe9e882d);
    NextEight(16, 0xe9e882d, 0x9f9b5c85);
    NextEight(24, 0x9f9b5c85, 0xb798b438);
    NextEight(32, 0xb798b438, 0xba8d89ca);
    NextEight(40, 0xba8d89ca, 0xa8d58375);
    NextEight(48, 0xa8d58375, 0x44c19592);
    NextEight(56, 0x44c19592, 0x73d74d75);
  }

  lemma Ones128()
    ensures Bits(128, ONES) == 0xbd8f6515
  {
    hide Bits;
    Ones64();
    NextEight(64, 0x73d74d75, 0x441a975c);
    NextEight(72, 0x441a975c, 0x1c220f94);
    NextEight(80, 0x1c220f94, 0x552e4907);
    NextEight(88, 0x552e4907, 0xd49f4aa2);
    NextEight(96, 0xd49f4aa2, 0x43a45a1b);
    NextEight(104, 0x43a45a1b, 0x8994c80e);
    NextEight(112, 0x8994c80e, 0xacf12bef);
    NextEight(120, 0xacf12bef, 0xbd8f6515);
  }

  lemma Ones192()
    ensures Bits(192, ONES) == 0x7b041311
  {
    hide Bits;
    Ones128();
    NextEight(128, 0xbd8f6515, 0x25125c16);
    NextEight(136, 0x25125c16, 0x36da32db);
    NextEight(144, 0x36da32db, 0x4a6c90a2);
    NextEight(152, 0x4a6c90a2, 0x433aa9c1);
    NextEight(160, 0x433aa9c1, 0x31a59f6e);
    NextEight(168, 0x31a59f6e, 0xcd8f89da);
    NextEight(176, 0xcd8f89da, 0xb8fc461a);
    NextEight(184, 0xb8fc461a, 0x7b041311);
  }

  lemma Ones256()
    ensures Bits(256, ONES) == 0x756ec955
  {
    hide Bits;
    Ones192();
    NextEight(192, 0x7b041311, 0xe24e407f);
    NextEight(200, 0xe24e407f, 0x2f692669);
    NextEight(208, 0x2f692669, 0x195b2188);
    NextEight(216, 0x195b2188, 0x8363896);
    NextEight(224, 0x8363896, 0xb4012dc7);
    NextEight(232, 0xb4012dc7, 0x17f34302);
    NextEight(240, 0x17f34302, 0xe12c83b4);
    NextEight(248, 0xe12c83b4, 0x756ec955);
  }

  /** 32 bytes of zeros (section B.4 of RFC 3720). */
  lemma DigestOfZeros()
    ensures Crc(0, seq(32, _ => 0)) == 0x8a9136aa
  {
    hide Raw, Bits;
    RawZeros(32, ONES);
    Ones256();
    assert Xor(0, ONES) == ONES;
  }
}
