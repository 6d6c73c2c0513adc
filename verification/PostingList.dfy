/** Compressed posting lists: differences of ids, each as a base-128 number (`CompressedPList`). */
module PostingList {
  import opened Bits
  import Leb128

  function Minus(a: u64, b: u64): u64 { a - b }

  function Plus(a: u64, b: u64): u64 { a + b }

  lemma PlusMinus(a: u64, b: u64)
    ensures Plus(b, Minus(a, b)) == a
  {
    assert Plus(b, a - b) == a;
  }

  function Last(xs: seq<u64>, prev: u64): u64 {
    if xs == [] then prev else xs[|xs| - 1]
  }

  /** The bytes of a list that follows `prev`. */
  function Encode(xs: seq<u64>, prev: u64): seq<u8> {
    if xs == [] then [] else Leb128.Put(Minus(xs[0], prev)) + Encode(xs[1..], xs[0])
  }

  lemma {:induction false} EncodeMore(xs: seq<u64>, x: u64, prev: u64)
    ensures Encode(xs + [x], prev) == Encode(xs, prev) + Leb128.Put(Minus(x, Last(xs, prev)))
    decreases |xs|
  {
    hide Leb128.Put, Minus;
    if xs == [] {
      EncodeStep(x, [], prev);
      assert [x] + [] == [x];
    } else {
      EncodeMore(xs[1..], x, xs[0]);
      EncodeStep(xs[0], xs[1..] + [x], prev);
      EncodeStep(xs[0], xs[1..], prev);
      assert xs + [x] == [xs[0]] + (xs[1..] + [x]) && xs == [xs[0]] + xs[1..];
      assert Last(xs[1..], xs[0]) == Last(xs, prev);
    }
  }

  lemma EncodeStep(x: u64, xs: seq<u64>, prev: u64)
    ensures Encode([x] + xs, prev) == Leb128.Put(Minus(x, prev)) + Encode(xs, x)
  {
    assert ([x] + xs)[1..] == xs;
  }

  /** Each id is less than 128 above the one before it. */
  ghost predicate Near(xs: seq<u64>, prev: u64)
    decreases |xs|
  {
    xs == [] || (Minus(xs[0], prev) < 128 && Near(xs[1..], xs[0]))
  }

  /** Such ids take one byte each. */
  lemma {:induction false} SmallGaps(xs: seq<u64>, prev: u64)
    requires Near(xs, prev)
    ensures |Encode(xs, prev)| == |xs|
    decreases |xs|
  {
    hide Minus, Leb128.Put;
    if xs != [] {
      OneByte(Minus(xs[0], prev));
      SmallGaps(xs[1..], xs[0]);
    }
  }

  lemma OneByte(d: u64)
    requires d < 128
    ensures |Leb128.Put(d)| == 1
  {
    assert Leb128.Rest7(d) == 0;
  }

  /** The loop that writes a base-128 number. */
  method PutNumber(value: u64, bytes: seq<u8>) returns (r: seq<u8>)
    ensures r == bytes + Leb128.Put(value)
  {
    hide Leb128.Low7, Leb128.Rest7, Leb128.Put;
    var v := value;
    r := bytes;
    while true
      invariant r + Leb128.Put(v) == bytes + Leb128.Put(value)
      decreases v
    {
      var p := Leb128.Low7(v);
      var rest := Leb128.Rest7(v);
      Leb128.PutStep(v);
      Shrinks(v);
      if rest != 0 {
        assert r + Leb128.Put(v) == r + [p | 0x80] + Leb128.Put(rest);
        r := r + [p | 0x80];
        v := rest;
      } else {
        r := r + [p];
        return;
      }
    }
  }

  lemma Shrinks(v: u64)
    ensures Leb128.Rest7(v) != 0 ==> Leb128.Rest7(v) < v
  {}

  /** The loop that reads one; `None` when the bytes end first. */
  method GetNumber(bytes: seq<u8>, from: nat) returns (r: Option<(u64, nat)>)
    requires from <= |bytes|
    ensures r == Leb128.Get(bytes, from)
  {
    hide Leb128.Digit, Leb128.More, Leb128.Pad7, Or;
    var acc: u64, p, k := 0, from, 0;
    while p < |bytes|
      invariant p <= |bytes| && Leb128.Get(bytes, from) == Leb128.Scan(bytes, p, acc, k)
    {
      acc := Or(acc, Leb128.Pad7(Leb128.Digit(bytes[p]), k));
      p := p + 1;
      if !Leb128.More(bytes[p - 1]) {
        return Some((acc, p));
      }
      k := k + 1;
    }
    return None;
  }

  class CompressedPList {
    var buffer: seq<u8>
    var prev: u64
    var cardinality: nat

    ghost var items: seq<u64>

    ghost predicate Valid()
      reads this
    {
      buffer == Encode(items, 0) && prev == Last(items, 0) && cardinality == |items|
    }

    constructor ()
      ensures Valid() && items == []
    {
      buffer, prev, cardinality, items := [], 0, 0, [];
    }

    method Add(x: u64)
      requires Valid()
      modifies this
      ensures Valid() && items == old(items) + [x]
    {
      hide Encode;
      EncodeMore(items, x, 0);
      buffer := PutNumber(Minus(x, prev), buffer);
      prev := x;
      cardinality := cardinality + 1;
      items := items + [x];
    }

    /** A copy has the same content; its delta base starts anew, so it is only read. */
    method Extract() returns (bytes: seq<u8>, count: nat)
      requires Valid()
      ensures bytes == Encode(items, 0) && count == |items|
    {
      return buffer, cardinality;
    }
  }

  /** Reads a list front to back. */
  class PListIterator {
    const bytes: seq<u8>
    const count: nat
    var at: nat
    var prev: u64
    var pos: nat
    var curr: u64

    ghost const items: seq<u64>

    ghost predicate Valid()
      reads this
    {
      && bytes == Encode(items, 0) && count == |items| && pos <= count
      && (pos < count ==>
            at <= |bytes| && curr == prev == items[pos] && bytes[at..] == Encode(items[pos + 1..], items[pos]))
    }

    constructor (buffer: seq<u8>, cardinality: nat, ghost xs: seq<u64>)
      requires buffer == Encode(xs, 0) && cardinality == |xs|
      ensures Valid() && items == xs && pos == 0
    {
      bytes, count, items := buffer, cardinality, xs;
      at, prev, pos, curr := 0, 0, 0, 0;
      new;
      if pos < count {
        assert bytes[0..] == bytes && xs[0..] == xs;
        Read(0);
      }
    }

    /** The next difference; a read error cannot happen. */
    method Read(ghost i: nat)
      requires bytes == Encode(items, 0) && count == |items| && i < count && pos == i
      requires at <= |bytes| && bytes[at..] == Encode(items[i..], prev)
      modifies this`at, this`prev, this`curr
      ensures Valid()
    {
      hide Leb128.Put, Leb128.Get, Minus, Plus;
      ghost var d := Minus(items[i], prev);
      assert items[i..][0] == items[i] && items[i..][1..] == items[i + 1..];
      Here(bytes, at, Leb128.Put(d), Encode(items[i + 1..], items[i]));
      Leb128.GetPut(bytes, at, d);
      var next := GetNumber(bytes, at);
      PlusMinus(items[i], prev);
      at := next.value.1;
      curr := Plus(prev, next.value.0);
      prev := curr;
    }

    method Advance()
      requires Valid() && pos < count
      modifies this`at, this`prev, this`curr, this`pos
      ensures Valid() && pos == old(pos) + 1
    {
      pos := pos + 1;
      if pos < count {
        Read(pos);
      }
    }
  }

  /** Iterating over a list gives back what was added. */
  method Decode(bytes: seq<u8>, count: nat, ghost xs: seq<u64>) returns (r: seq<u64>)
    requires bytes == Encode(xs, 0) && count == |xs|
    ensures r == xs
  {
    hide Encode;
    r := [];
    var it := new PListIterator(bytes, count, xs);
    while it.pos < it.count
      invariant fresh(it) && it.Valid() && it.items == xs && it.count == |xs| && r == xs[..it.pos]
      decreases it.count - it.pos
    {
      r := r + [it.curr];
      it.Advance();
    }
  }

  lemma Here(b: seq<u8>, at: nat, x: seq<u8>, rest: seq<u8>)
    requires at <= |b| && b[at..] == x + rest
    ensures At(b, at, x) && at + |x| <= |b| && b[at + |x|..] == rest
  {
    assert b[at..][..|x|] == x && b[at..][|x|..] == rest;
    assert b[at + |x|..] == b[at..][|x|..];
    assert b[at..at + |x|] == b[at..][..|x|];
  }
}
