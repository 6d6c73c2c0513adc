/** The stream writers of `compression.h`, updating one shared byte cursor in place. */
module StreamWriters {
  import opened Bits
  import Leb128
  import VByte
  import DeltaDelta
  import Fcm

  /** What an append does to a buffer: all of `bytes` behind `p0`, or nothing when they do not fit.
      Bytes before `p0` are kept; bytes behind the cursor are scratch. */
  ghost predicate Appended(b0: seq<u8>, p0: nat, b1: seq<u8>, p1: nat, ok: bool, bytes: seq<u8>) {
    && |b1| == |b0| && p0 <= |b0|
    && (ok <==> p0 + |bytes| <= |b0|)
    && p1 == (if ok then p0 + |bytes| else p0)
    && b1[..p0] == b0[..p0]
    && (ok ==> b1[p0..p1] == bytes)
  }

  lemma AppendedTwice(b0: seq<u8>, p0: nat, b1: seq<u8>, p1: nat, b2: seq<u8>, p2: nat, x: seq<u8>, y: seq<u8>)
    requires Appended(b0, p0, b1, p1, true, x) && Appended(b1, p1, b2, p2, true, y)
    ensures Appended(b0, p0, b2, p2, true, x + y)
  {
    assert b2[..p0] == b2[..p1][..p0];
    assert b2[p0..p1] == b2[..p1][p0..];
    assert b2[p0..p2] == b2[p0..p1] + b2[p1..p2];
  }

  lemma ToBytesStep(x: u64, n: nat)
    requires n > 0
    ensures ToBytes(x, n) == [Low(x)] + ToBytes(Hi(x), n - 1)
  {}

  class VByteStreamWriter {
    const buf: array<u8>
    var pos: nat

    ghost predicate Valid()
      reads this
    {
      pos <= buf.Length
    }

    constructor (buf: array<u8>)
      ensures Valid() && this.buf == buf && pos == 0
    {
      this.buf := buf;
      pos := 0;
    }

    function SpaceLeft(): nat
      requires Valid()
      reads this
    {
      buf.Length - pos
    }

    /** The store loops `*pos_++ = static_cast<u8>(x); x >>= 8`. */
    method PutBytes(x: u64, n: nat)
      requires Valid() && n <= SpaceLeft()
      modifies this`pos, buf
      ensures Valid() && Appended(old(buf[..]), old(pos), buf[..], pos, true, ToBytes(x, n))
    {
      hide Low, Hi, ToBytes;
      var v := x;
      var i := 0;
      ghost var p0 := pos;
      assert buf[p0..p0] + ToBytes(x, n) == ToBytes(x, n);
      while i < n
        invariant 0 <= i <= n && pos == p0 + i <= buf.Length
        invariant buf[..p0] == old(buf[..p0])
        invariant buf[p0..pos] + ToBytes(v, n - i) == ToBytes(x, n)
      {
        ghost var before := buf[p0..pos];
        ToBytesStep(v, n - i);
        buf[pos] := Low(v);
        assert buf[p0..pos + 1] == before + [Low(v)];
        pos, v, i := pos + 1, Hi(v), i + 1;
      }
      assert ToBytes(v, 0) == [];
    }

    /** `put_raw`: an uncompressed little-endian value of `n` bytes. */
    method PutRaw(x: u64, n: nat) returns (ok: bool)
      requires Valid()
      modifies this`pos, buf
      ensures Valid() && Appended(old(buf[..]), old(pos), buf[..], pos, ok, ToBytes(x, n))
    {
      if SpaceLeft() < n {
        return false;
      }
      PutBytes(x, n);
      return true;
    }

    method PutByte(x: u8) returns (ok: bool)
      requires Valid()
      modifies this`pos, buf
      ensures Valid() && Appended(old(buf[..]), old(pos), buf[..], pos, ok, [x])
    {
      if SpaceLeft() == 0 {
        return false;
      }
      buf[pos] := x;
      pos := pos + 1;
      return true;
    }

    /** `encode`: a control byte and the significant bytes of both values. */
    method Encode(fst: u64, snd: u64) returns (ok: bool)
      requires Valid()
      modifies this`pos, buf
      ensures Valid() && Appended(old(buf[..]), old(pos), buf[..], pos, ok, VByte.Pair(fst, snd))
    {
      ByteLengthIsWidth(fst);
      ByteLengthIsWidth(snd);
      var fstctrl, sndctrl := ByteLength(fst), ByteLength(snd);
      if SpaceLeft() < 1 + fstctrl + sndctrl {
        return false;
      }
      ok := PutByte(VByte.Ctrl(fstctrl, sndctrl));
      ghost var b1, p1 := buf[..], pos;
      PutBytes(fst, fstctrl);
      AppendedTwice(old(buf[..]), old(pos), b1, p1, buf[..], pos, [VByte.Ctrl(fstctrl, sndctrl)],
                    ToBytes(fst, fstctrl));
      ghost var b2, p2 := buf[..], pos;
      PutBytes(snd, sndctrl);
      AppendedTwice(old(buf[..]), old(pos), b2, p2, buf[..], pos,
                    [VByte.Ctrl(fstctrl, sndctrl)] + ToBytes(fst, fstctrl), ToBytes(snd, sndctrl));
    }

    /** `put_base128`: on overflow the cursor stays, whatever was stored behind it. */
    method PutBase128(value: u64) returns (ok: bool)
      requires Valid()
      modifies this`pos, buf
      ensures Valid() && Appended(old(buf[..]), old(pos), buf[..], pos, ok, Leb128.Put(value))
    {
      hide Leb128.Put, Leb128.Low7, Leb128.Rest7;
      var v, p := value, pos;
      while true
        invariant pos == old(pos) <= p <= buf.Length
        invariant buf[..pos] == old(buf[..pos])
        invariant buf[pos..p] + Leb128.Put(v) == Leb128.Put(value)
        decreases buf.Length - p
      {
        if p == buf.Length {
          return false;
        }
        ghost var before := buf[pos..p];
        Leb128.PutStep(v);
        var b := Leb128.Low7(v);
        var rest := Leb128.Rest7(v);
        if rest != 0 {
          buf[p] := b | 0x80;
          assert buf[pos..p + 1] == before + [b | 0x80];
          p, v := p + 1, rest;
        } else {
          buf[p] := b;
          assert buf[pos..p + 1] == before + [b];
          pos := p + 1;
          return true;
        }
      }
    }

    /** `tput`: a chunk of values, or nothing. */
    method TPut(xs: seq<u64>) returns (ok: bool)
      requires Valid() && |xs| % 2 == 0
      modifies this`pos, buf
      ensures Valid() && Appended(old(buf[..]), old(pos), buf[..], pos, ok, VByte.Chunk(xs))
    {
      hide VByte.Pairs;
      var takeShortcut := true;
      var i := 0;
      while i < |xs|
        invariant 0 <= i <= |xs|
        invariant takeShortcut && forall j :: 0 <= j < i ==> xs[j] == 0
      {
        if xs[i] != 0 {
          takeShortcut := false;
          break;
        }
        i := i + 1;
      }
      if takeShortcut {
        ok := PutByte(VByte.SHORTCUT);
      } else {
        ok := PutPairs(xs);
      }
    }

    /** The pairs of a chunk that takes no shortcut; a pair that does not fit takes the others back. */
    method PutPairs(xs: seq<u64>) returns (ok: bool)
      requires Valid() && |xs| % 2 == 0
      modifies this`pos, buf
      ensures Valid() && Appended(old(buf[..]), old(pos), buf[..], pos, ok, VByte.Pairs(xs))
    {
      hide VByte.Pair, VByte.Pairs;
      var oldpos := pos;
      var i := 0;
      PairsNone(xs);
      while i < |xs|
        invariant 0 <= i <= |xs| && i % 2 == 0 && Valid()
        invariant Appended(old(buf[..]), old(pos), buf[..], pos, true, VByte.Pairs(xs[..i]))
      {
        ghost var b1, p1 := buf[..], pos;
        PairsSnoc(xs, i);
        ok := Encode(xs[i], xs[i + 1]);
        if !ok {
          PairsMonotone(xs, i + 2);
          pos := oldpos;
          assert buf[..oldpos] == buf[..p1][..oldpos] == b1[..oldpos];
          return;
        }
        AppendedTwice(old(buf[..]), old(pos), b1, p1, buf[..], pos, VByte.Pairs(xs[..i]), VByte.Pair(xs[i], xs[i + 1]));
        i := i + 2;
      }
      assert xs[..i] == xs;
      ok := true;
    }
  }

  lemma PairsNone(xs: seq<u64>)
    ensures VByte.Pairs(xs[..0]) == []
  {}

  lemma {:induction false} PairsConcat(xs: seq<u64>, ys: seq<u64>)
    requires |xs| % 2 == 0 && |ys| % 2 == 0
    ensures VByte.Pairs(xs + ys) == VByte.Pairs(xs) + VByte.Pairs(ys)
    decreases |xs|
  {
    hide VByte.Pair;
    if xs == [] {
      assert xs + ys == ys;
    } else {
      assert (xs + ys)[2..] == xs[2..] + ys;
      PairsConcat(xs[2..], ys);
    }
  }

  lemma PairsSnoc(xs: seq<u64>, i: nat)
    requires i % 2 == 0 && i + 2 <= |xs|
    ensures VByte.Pairs(xs[..i + 2]) == VByte.Pairs(xs[..i]) + VByte.Pair(xs[i], xs[i + 1])
  {
    hide VByte.Pair;
    var two := [xs[i], xs[i + 1]];
    assert xs[..i + 2] == xs[..i] + two;
    PairsConcat(xs[..i], two);
    assert two[2..] == [];
    assert VByte.Pairs(two) == VByte.Pair(xs[i], xs[i + 1]) + VByte.Pairs([]);
  }

  lemma PairsMonotone(xs: seq<u64>, i: nat)
    requires i % 2 == 0 && i <= |xs| && |xs| % 2 == 0
    ensures |VByte.Pairs(xs[..i])| <= |VByte.Pairs(xs)|
  {
    hide VByte.Pair;
    assert xs == xs[..i] + xs[i..];
    PairsConcat(xs[..i], xs[i..]);
  }

  // ----- Writers that may leave part of their output behind when they fail

  /** As `Appended`, except that a failing write may have moved the cursor. */
  ghost predicate Tried(b0: seq<u8>, p0: nat, b1: seq<u8>, p1: nat, ok: bool, bytes: seq<u8>) {
    && |b1| == |b0| && p0 <= p1 <= |b1|
    && (ok <==> p0 + |bytes| <= |b0|)
    && b1[..p0] == b0[..p0]
    && (ok ==> p1 == p0 + |bytes| && b1[p0..p1] == bytes)
  }

  lemma TriedThen(b0: seq<u8>, p0: nat, b1: seq<u8>, p1: nat, x: seq<u8>,
                  b2: seq<u8>, p2: nat, ok: bool, y: seq<u8>)
    requires Tried(b0, p0, b1, p1, true, x) && Tried(b1, p1, b2, p2, ok, y)
    ensures Tried(b0, p0, b2, p2, ok, x + y)
  {
    assert b2[..p0] == b2[..p1][..p0] == b0[..p0];
    if ok {
      assert b2[p0..p1] == b2[..p1][p0..] == x;
      assert b2[p0..p2] == b2[p0..p1] + b2[p1..p2];
    }
  }

  lemma {:induction false} DeltaAt(prev: u64, ts: seq<u64>, i: nat)
    requires i < |ts|
    ensures DeltaDelta.Deltas(prev, ts)[i] == DeltaDelta.Minus(ts[i], if i == 0 then prev else ts[i - 1])
    decreases i
  {
    hide DeltaDelta.Minus;
    if i > 0 {
      DeltaAt(ts[0], ts[1..], i - 1);
    }
  }

  lemma {:induction false} MinSnoc(m: u64, xs: seq<u64>, x: u64)
    ensures DeltaDelta.MinOf(m, xs + [x]) ==
            DeltaDelta.Lesser(x, DeltaDelta.MinOf(m, xs))
    decreases |xs|
  {
    hide DeltaDelta.Lesser;
    if xs == [] {
      assert [x][1..] == [];
    } else {
      assert (xs + [x])[0] == xs[0] && (xs + [x])[1..] == xs[1..] + [x];
      MinSnoc(DeltaDelta.Lesser(xs[0], m), xs[1..], x);
    }
  }

  lemma {:induction false} ResidueAt(xs: seq<u64>, m: u64, i: nat)
    requires i < |xs|
    ensures DeltaDelta.Residues(xs, m)[i] == DeltaDelta.Minus(xs[i], m)
    decreases i
  {
    hide DeltaDelta.Minus;
    if i > 0 {
      ResidueAt(xs[1..], m, i - 1);
    }
  }

  class DeltaDeltaStreamWriter {
    const stream: VByteStreamWriter
    var prev: u64

    constructor (stream: VByteStreamWriter)
      ensures this.stream == stream && prev == 0
    {
      this.stream := stream;
      prev := 0;
    }

    /** The deltas of `ts` and their minimum, moving `prev` on. */
    method Difference(ts: seq<u64>) returns (out: seq<u64>, min: u64)
      requires |ts| == 16
      modifies this`prev
      ensures prev == ts[15]
      ensures out == DeltaDelta.Deltas(old(prev), ts) && min == DeltaDelta.ChunkMin(old(prev), ts)
    {
      hide DeltaDelta.Minus, DeltaDelta.Deltas, DeltaDelta.MinOf, DeltaDelta.Lesser;
      ghost var ds := DeltaDelta.Deltas(prev, ts);
      var first := DeltaDelta.Minus(ts[0], prev);
      min := first;
      out := [];
      var i := 0;
      MinOfNone(first);
      while i < 16
        invariant 0 <= i <= 16 && out == ds[..i]
        invariant prev == if i == 0 then old(prev) else ts[i - 1]
        invariant min == DeltaDelta.MinOf(first, ds[..i])
      {
        var result := DeltaDelta.Minus(ts[i], prev);
        DeltaAt(old(prev), ts, i);
        MinSnoc(first, ds[..i], ds[i]);
        assert ds[..i + 1] == ds[..i] + [ds[i]];
        out := out + [result];
        prev := ts[i];
        min := DeltaDelta.Lesser(result, min);
        i := i + 1;
      }
      assert ds[..16] == ds;
    }

    /** `tput`: the minimum, then the deltas above it. */
    method TPut(ts: seq<u64>) returns (ok: bool)
      requires |ts| == 16 && stream.Valid()
      modifies this`prev, stream`pos, stream.buf
      ensures stream.Valid() && prev == ts[15]
      ensures Tried(old(stream.buf[..]), old(stream.pos), stream.buf[..], stream.pos, ok,
                    DeltaDelta.Chunk(old(prev), ts))
    {
      hide DeltaDelta.Deltas, DeltaDelta.ChunkMin, DeltaDelta.Minus, DeltaDelta.Residues, VByte.Chunk, Leb128.Put;
      var out, min := Difference(ts);
      ok := stream.PutBase128(min);
      if !ok {
        return;
      }
      ghost var b1, p1 := stream.buf[..], stream.pos;
      var i := 0;
      ghost var ds := out;
      while i < 16
        invariant 0 <= i <= 16 && |out| == 16
        invariant forall j :: 0 <= j < i ==> out[j] == DeltaDelta.Residues(ds, min)[j]
        invariant forall j :: i <= j < 16 ==> out[j] == ds[j]
        modifies {}
      {
        ResidueAt(ds, min, i);
        out := out[i := DeltaDelta.Minus(out[i], min)];
        i := i + 1;
      }
      assert out == DeltaDelta.ChunkResidues(old(prev), ts);
      ok := stream.TPut(out);
      TriedThen(old(stream.buf[..]), old(stream.pos), b1, p1, Leb128.Put(min), stream.buf[..], stream.pos, ok,
                VByte.Chunk(out));
    }
  }

  lemma MinOfNone(m: u64)
    ensures DeltaDelta.MinOf(m, []) == m
  {}

  class DfcmPredictor {
    const table: array<u64>
    var lastHash: bv7
    var lastValue: u64

    constructor ()
      ensures fresh(table) && table.Length == Fcm.PREDICTOR_N
      ensures State() == Fcm.Fresh()
    {
      table := new u64[Fcm.PREDICTOR_N](_ => 0);
      lastHash := 0;
      lastValue := 0;
      new;
      assert table[..] == Fcm.Fresh().table;
    }

    ghost function State(): Fcm.Predictor
      requires table.Length == Fcm.PREDICTOR_N
      reads this, table
    {
      Fcm.PredictorState(table[..], lastHash, lastValue)
    }

    method PredictNext() returns (value: u64)
      requires table.Length == Fcm.PREDICTOR_N
      ensures value == Fcm.Predict(State()) == Fcm.Plus(table[lastHash as nat], lastValue)
    {
      hide Fcm.Plus;
      value := Fcm.Plus(table[lastHash as nat], lastValue);
    }

    method Update(value: u64)
      requires table.Length == Fcm.PREDICTOR_N
      modifies this, table
      ensures State() == Fcm.Update(old(State()), value)
    {
      hide Fcm.Minus, Fcm.NextHash;
      var delta := Fcm.Minus(value, lastValue);
      table[lastHash as nat] := delta;
      lastHash := Fcm.NextHash(lastHash, delta);
      lastValue := value;
    }
  }

  lemma {:induction false} DiffsSnoc(p: Fcm.Predictor, values: seq<u64>, i: nat)
    requires i < |values|
    ensures Fcm.Diffs(p, values)[i] == Fcm.Xor(values[i], Fcm.Predict(Fcm.UpdateAll(p, values[..i])))
    ensures Fcm.UpdateAll(p, values[..i + 1]) == Fcm.Update(Fcm.UpdateAll(p, values[..i]), values[i])
    decreases i
  {
    hide Fcm.Xor, Fcm.Predict, Fcm.Update;
    var p1 := Fcm.Update(p, values[0]);
    if i == 0 {
      assert values[..1][1..] == [] && values[..0] == [];
      assert Fcm.UpdateAll(p1, []) == p1;
    } else {
      DiffsSnoc(p1, values[1..], i - 1);
      assert values[..i + 1][1..] == values[1..][..i];
      assert values[..i][1..] == values[1..][..i - 1];
    }
  }

  lemma OrZero(x: u64, y: u64)
    ensures x | y == 0 <==> x == 0 && y == 0
  {}

  /** Part of `all` is in the buffer behind `p0`, and `rest` of it is still to come. */
  ghost predicate Midway(b0: seq<u8>, p0: nat, b1: seq<u8>, p1: nat, rest: seq<u8>, all: seq<u8>) {
    |b1| == |b0| && p0 <= p1 <= |b1| && b1[..p0] == b0[..p0] && b1[p0..p1] + rest == all
  }

  lemma MidwayThen(b0: seq<u8>, p0: nat, b1: seq<u8>, p1: nat, b2: seq<u8>, p2: nat, ok: bool,
                   x: seq<u8>, rest: seq<u8>, all: seq<u8>)
    requires Midway(b0, p0, b1, p1, x + rest, all) && Tried(b1, p1, b2, p2, ok, x)
    ensures ok ==> Midway(b0, p0, b2, p2, rest, all)
    ensures ok && rest == [] ==> Tried(b0, p0, b2, p2, true, all)
    ensures !ok ==> Tried(b0, p0, b2, p2, false, all)
  {
    assert b2[..p0] == b2[..p1][..p0] == b0[..p0];
    if ok {
      assert b2[p0..p1] == b2[..p1][p0..] == b1[p0..p1];
      assert b2[p0..p2] == b1[p0..p1] + x;
      assert b2[p0..p2] + rest == b1[p0..p1] + (x + rest);
      if rest == [] {
        assert b2[p0..p2] + rest == b2[p0..p2];
      }
    }
  }

  class FcmStreamWriter {
    const stream: VByteStreamWriter
    const predictor: DfcmPredictor

    ghost predicate Valid()
      reads stream
    {
      && stream.Valid()
      && predictor.table.Length == Fcm.PREDICTOR_N
      && stream.buf != (predictor.table as object)
    }

    constructor (stream: VByteStreamWriter)
      requires stream.Valid()
      ensures Valid() && this.stream == stream
      ensures fresh(predictor) && fresh(predictor.table) && predictor.State() == Fcm.Fresh()
    {
      this.stream := stream;
      predictor := new DfcmPredictor();
    }
  
    /** `encode_value`; cases 7 to 5 of the switch fall through to 4, cases 3 and 2 to 1. */
    method EncodeValue(diff: u64, flag: nat) returns (ok: bool)
      requires Valid() && flag < 16
      modifies stream`pos, stream.buf
      ensures Valid()
      ensures Tried(old(stream.buf[..]), old(stream.pos), stream.buf[..], stream.pos, ok, Fcm.ValueBytes(diff, flag))
    {
      hide DropBytes, ToBytes, Low, Hi;
      var nbytes := Fcm.BytesOf(flag);
      var d := DropBytes(diff, Fcm.ShiftOf(flag));
      if nbytes == 8 {
        ok := stream.PutRaw(d, 8);
        return;
      }
      if nbytes >= 4 {
        ok := CasesFrom7(d, nbytes);
      } else {
        ok := CasesFrom3(d, nbytes);
      }
    }

    method CasesFrom7(value: u64, nbytes: nat) returns (ok: bool)
      requires Valid() && 4 <= nbytes <= 7
      modifies stream`pos, stream.buf
      ensures Valid()
      ensures Tried(old(stream.buf[..]), old(stream.pos), stream.buf[..], stream.pos, ok, ToBytes(value, nbytes))
    {
      hide ToBytes, Hi, Low;
      ghost var b0, p0, all := stream.buf[..], stream.pos, ToBytes(value, nbytes);
      var d, left := value, nbytes;
      assert b0[p0..p0] + all == all;
      assert Midway(b0, p0, stream.buf[..], stream.pos, ToBytes(d, left), all);
      hide Tried, Midway, Appended;
      if left == 7 {
        ok, d := PutLow(d, left, b0, p0, all);
        if !ok { return; }
        left := 6;
      }
      if left == 6 {
        ok, d := PutLow(d, left, b0, p0, all);
        if !ok { return; }
        left := 5;
      }
      if left == 5 {
        ok, d := PutLow(d, left, b0, p0, all);
        if !ok { return; }
      }
      ghost var b1, p1 := stream.buf[..], stream.pos;
      ok := stream.PutRaw(d, 4);
      AppendedIsTried(b1, p1, stream.buf[..], stream.pos, ok, ToBytes(d, 4));
      assert ToBytes(d, 4) + [] == ToBytes(d, 4);
      MidwayThen(b0, p0, b1, p1, stream.buf[..], stream.pos, ok, ToBytes(d, 4), [], all);
    }

    method CasesFrom3(value: u64, nbytes: nat) returns (ok: bool)
      requires Valid() && 1 <= nbytes <= 3
      modifies stream`pos, stream.buf
      ensures Valid()
      ensures Tried(old(stream.buf[..]), old(stream.pos), stream.buf[..], stream.pos, ok, ToBytes(value, nbytes))
    {
      hide ToBytes, Hi, Low;
      ghost var b0, p0, all := stream.buf[..], stream.pos, ToBytes(value, nbytes);
      var d, left := value, nbytes;
      assert b0[p0..p0] + all == all;
      assert Midway(b0, p0, stream.buf[..], stream.pos, ToBytes(d, left), all);
      hide Tried, Midway, Appended;
      if left == 3 {
        ok, d := PutLow(d, left, b0, p0, all);
        if !ok { return; }
        left := 2;
      }
      if left == 2 {
        ok, d := PutLow(d, left, b0, p0, all);
        if !ok { return; }
      }
      ok, d := PutLow(d, 1, b0, p0, all);
    }

    /** One step of that switch: the low byte of what is left, then a shift. */
    method PutLow(d: u64, left: nat, ghost b0: seq<u8>, ghost p0: nat, ghost all: seq<u8>) returns (ok: bool, rest: u64)
      requires Valid() && 0 < left
      requires Midway(b0, p0, stream.buf[..], stream.pos, ToBytes(d, left), all)
      modifies stream`pos, stream.buf
      ensures Valid() && rest == Hi(d)
      ensures ok ==> Midway(b0, p0, stream.buf[..], stream.pos, ToBytes(rest, left - 1), all)
      ensures ok && left == 1 ==> Tried(b0, p0, stream.buf[..], stream.pos, true, all)
      ensures !ok ==> Tried(b0, p0, stream.buf[..], stream.pos, false, all)
    {
      hide Low, Hi, ToBytes, Midway, Tried;
      ghost var b1, p1 := stream.buf[..], stream.pos;
      ok := stream.PutByte(Low(d));
      rest := Hi(d);
      ToBytesStep(d, left);
      AppendedIsTried(b1, p1, stream.buf[..], stream.pos, ok, [Low(d)]);
      MidwayThen(b0, p0, b1, p1, stream.buf[..], stream.pos, ok, [Low(d)], ToBytes(rest, left - 1), all);
      assert left == 1 ==> ToBytes(rest, left - 1) == [];
    }

    /** `encode`: the difference to the prediction and its flag, moving the predictor on. */
    method EncodeDiff(value: u64) returns (diff: u64, flag: nat)
      requires Valid()
      modifies predictor, predictor.table
      ensures diff == Fcm.Xor(value, Fcm.Predict(old(predictor.State()))) && flag == Fcm.Flag(diff)
      ensures predictor.State() == Fcm.Update(old(predictor.State()), value)
    {
      hide Fcm.Predict, Fcm.Update, Fcm.Xor;
      var predicted := predictor.PredictNext();
      predictor.Update(value);
      diff := Fcm.Xor(value, predicted);
      if diff == 0 {
        flag := 0xF;
        return;
      }
      CtzVsZeroBytes(diff);
      ZeroBytesBelowWidth(diff);
      var trailing := Ctz(diff) / 8;
      var leading := Clz(diff) / 8;
      if trailing > leading {
        flag := 8 + (8 - trailing - 1);
      } else {
        flag := 8 - leading - 1;
      }
    }

    /** The differences and flags of a chunk. */
    method EncodeAll(values: seq<u64>) returns (diffs: seq<u64>, flags: seq<nat>)
      requires Valid()
      modifies predictor, predictor.table
      ensures predictor.State() == Fcm.UpdateAll(old(predictor.State()), values)
      ensures diffs == Fcm.Diffs(old(predictor.State()), values)
      ensures |flags| == |diffs| && forall i :: 0 <= i < |diffs| ==> flags[i] == Fcm.Flag(diffs[i])
    {
      hide Fcm.Predict, Fcm.Update, Fcm.UpdateAll, Fcm.Xor, Fcm.Diffs, Fcm.Flag;
      ghost var p := predictor.State();
      ghost var ds := Fcm.Diffs(p, values);
      diffs, flags := [], [];
      UpdateNone(p);
      assert values[..0] == [];
      var i := 0;
      while i < |values|
        invariant 0 <= i <= |values| && diffs == ds[..i] && |flags| == i
        invariant predictor.State() == Fcm.UpdateAll(p, values[..i])
        invariant forall j :: 0 <= j < i ==> flags[j] == Fcm.Flag(diffs[j])
      {
        DiffsSnoc(p, values, i);
        var diff, flag := EncodeDiff(values[i]);
        diffs, flags := diffs + [diff], flags + [flag];
        i := i + 1;
      }
      assert values[..i] == values && ds[..i] == ds;
    }

    /** A flag byte and the stored bytes of two differences. */
    method PutPair(x: u64, f: nat, y: u64, g: nat) returns (ok: bool)
      requires Valid() && f == Fcm.StoredFlag(x) && g == Fcm.StoredFlag(y)
      modifies stream`pos, stream.buf
      ensures Valid()
      ensures Tried(old(stream.buf[..]), old(stream.pos), stream.buf[..], stream.pos, ok, Fcm.Pair(x, y))
    {
      hide Fcm.StoredFlag, Fcm.Flags, Fcm.ValueBytes;
      ghost var b0, p0 := stream.buf[..], stream.pos;
      ghost var head, fst, snd := [Fcm.Flags(f, g)], Fcm.ValueBytes(x, f), Fcm.ValueBytes(y, g);
      ok := stream.PutByte(Fcm.Flags(f, g));
      if !ok { return; }
      ghost var b1, p1 := stream.buf[..], stream.pos;
      ok := EncodeValue(x, f);
      ghost var b2, p2 := stream.buf[..], stream.pos;
      TriedThen(b0, p0, b1, p1, head, b2, p2, ok, fst);
      if !ok { return; }
      ok := EncodeValue(y, g);
      TriedThen(b0, p0, b2, p2, head + fst, stream.buf[..], stream.pos, ok, snd);
    }

    /** `tput`: a chunk of values. */
    method TPut(values: seq<u64>) returns (ok: bool)
      requires Valid() && |values| == 16
      modifies stream`pos, stream.buf, predictor, predictor.table
      ensures Valid()
      ensures predictor.State() == Fcm.UpdateAll(old(predictor.State()), values)
      ensures Tried(old(stream.buf[..]), old(stream.pos), stream.buf[..], stream.pos, ok,
                    Fcm.Chunk(old(predictor.State()), values))
    {
      hide Fcm.UpdateAll, Fcm.Diffs, Fcm.Flag, Fcm.Pairs;
      var diffs, flags := EncodeAll(values);
      assert stream.buf[..] == old(stream.buf[..]);
      var sum: u64 := 0;
      var i := 0;
      while i < 16
        invariant 0 <= i <= 16
        invariant sum == 0 <==> forall j :: 0 <= j < i ==> diffs[j] == 0
        modifies {}
      {
        OrZero(sum, diffs[i]);
        sum := sum | diffs[i];
        i := i + 1;
      }
      if sum == 0 {
        ok := stream.PutByte(Fcm.SHORTCUT);
      } else {
        ok := PutPairs(diffs, flags);
      }
    }

    method PutPairs(diffs: seq<u64>, flags: seq<nat>) returns (ok: bool)
      requires Valid() && |diffs| == |flags| && |diffs| % 2 == 0
      requires forall i :: 0 <= i < |diffs| ==> flags[i] == Fcm.Flag(diffs[i])
      modifies stream`pos, stream.buf
      ensures Valid()
      ensures Tried(old(stream.buf[..]), old(stream.pos), stream.buf[..], stream.pos, ok, Fcm.Pairs(diffs))
    {
      hide Fcm.Pair, Fcm.Pairs, Fcm.Flag;
      var i := 0;
      FcmPairsNone(diffs);
      ghost var b0, p0 := stream.buf[..], stream.pos;
      while i < |diffs|
        invariant 0 <= i <= |diffs| && i % 2 == 0 && Valid()
        invariant Tried(b0, p0, stream.buf[..], stream.pos, true, Fcm.Pairs(diffs[..i]))
      {
        ghost var b1, p1 := stream.buf[..], stream.pos;
        FcmPairsSnoc(diffs, i);
        var f := if flags[i] == 0xF then 0 else flags[i];
        var g := if flags[i + 1] == 0xF then 0 else flags[i + 1];
        ok := PutPair(diffs[i], f, diffs[i + 1], g);
        TriedThen(b0, p0, b1, p1, Fcm.Pairs(diffs[..i]), stream.buf[..], stream.pos, ok,
                  Fcm.Pair(diffs[i], diffs[i + 1]));
        if !ok {
          FcmPairsMonotone(diffs, i + 2);
          return;
        }
        i := i + 2;
      }
      assert diffs[..i] == diffs;
      ok := true;
    }
  }

  lemma AppendedIsTried(b0: seq<u8>, p0: nat, b1: seq<u8>, p1: nat, ok: bool, bytes: seq<u8>)
    requires Appended(b0, p0, b1, p1, ok, bytes)
    ensures Tried(b0, p0, b1, p1, ok, bytes)
  {}

  lemma UpdateNone(p: Fcm.Predictor)
    ensures Fcm.UpdateAll(p, []) == p
  {}

  lemma FcmPairsNone(ds: seq<u64>)
    ensures Fcm.Pairs(ds[..0]) == []
  {}

  lemma {:induction false} FcmPairsConcat(xs: seq<u64>, ys: seq<u64>)
    requires |xs| % 2 == 0 && |ys| % 2 == 0
    ensures Fcm.Pairs(xs + ys) == Fcm.Pairs(xs) + Fcm.Pairs(ys)
    decreases |xs|
  {
    hide Fcm.Pair;
    if xs == [] {
      assert xs + ys == ys;
    } else {
      assert (xs + ys)[2..] == xs[2..] + ys;
      FcmPairsConcat(xs[2..], ys);
    }
  }

  lemma FcmPairsSnoc(ds: seq<u64>, i: nat)
    requires i % 2 == 0 && i + 2 <= |ds|
    ensures Fcm.Pairs(ds[..i + 2]) == Fcm.Pairs(ds[..i]) + Fcm.Pair(ds[i], ds[i + 1])
  {
    hide Fcm.Pair;
    var two := [ds[i], ds[i + 1]];
    assert ds[..i + 2] == ds[..i] + two;
    FcmPairsConcat(ds[..i], two);
    assert two[2..] == [];
    assert Fcm.Pairs(two) == Fcm.Pair(ds[i], ds[i + 1]) + Fcm.Pairs([]);
  }

  lemma FcmPairsMonotone(ds: seq<u64>, i: nat)
    requires i % 2 == 0 && i <= |ds| && |ds| % 2 == 0
    ensures |Fcm.Pairs(ds[..i])| <= |Fcm.Pairs(ds)|
  {
    hide Fcm.Pair;
    assert ds == ds[..i] + ds[i..];
    FcmPairsConcat(ds[..i], ds[i..]);
  }
}
