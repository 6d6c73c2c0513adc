/** What the codec makes of regular series: timestamps and values that rise evenly. */
module Regular {
  import opened Bits
  import Leb128
  import VByte
  import DeltaDelta
  import Fcm
  import opened BlockFormat
  import opened DataBlock

  // ----- The predictor

  /** Only the last two differences enter the hash: the lower one with its bits 50 to 56, the one before with its bits
      50 and 51. */
  lemma HashOfTwo(h: bv7, a: u64, b: u64)
    ensures Fcm.NextHash(Fcm.NextHash(h, a), b) == ((((a >> 50) & 3) << 5) ^ ((b >> 50) & 127)) as bv7
  {}

  /** The predictor has settled: another step by `d` is predicted and changes nothing but the last value. */
  ghost predicate Steady(p: Fcm.Predictor, d: u64) {
    p.table[p.lastHash as nat] == d && Fcm.NextHash(p.lastHash, d) == p.lastHash
  }

  function Stepped(p: Fcm.Predictor, d: u64): Fcm.Predictor {
    Fcm.Update(p, Fcm.Plus(p.lastValue, d))
  }

  lemma PlusMinus(x: u64, d: u64)
    ensures Fcm.Minus(Fcm.Plus(x, d), x) == d
  {
    PlusMinusRaw(x, d);
    MinusSum(x, d);
  }

  lemma PlusMinusRaw(x: u64, d: u64)
    ensures x + d - x == d
  {}

  lemma MinusSum(x: u64, d: u64)
    ensures Fcm.Minus(x + d, x) == x + d - x
  {}

  lemma SteppedIs(p: Fcm.Predictor, d: u64)
    ensures Stepped(p, d) == Fcm.PredictorState(p.table[p.lastHash as nat := d], Fcm.NextHash(p.lastHash, d),
                                                Fcm.Plus(p.lastValue, d))
  {
    hide Fcm.Minus, Fcm.Plus, Fcm.NextHash;
    PlusMinus(p.lastValue, d);
  }

  lemma HashSettles(h: bv7, d: u64)
    ensures var h2 := Fcm.NextHash(Fcm.NextHash(h, d), d); Fcm.NextHash(h2, d) == h2
  {}

  /** Three equal steps, from any state, and the next one is predicted. */
  lemma ThreeSteps(p: Fcm.Predictor, d: u64)
    ensures var q := Stepped(Stepped(Stepped(p, d), d), d);
            Steady(q, d) && Fcm.Predict(q) == Fcm.Plus(q.lastValue, d)
  {
    hide Stepped, Fcm.NextHash;
    var (p1, p2) := (Stepped(p, d), Stepped(Stepped(p, d), d));
    SteppedIs(p, d);
    SteppedIs(p1, d);
    SteppedIs(p2, d);
    HashSettles(p.lastHash, d);
    PlusComm(d, Stepped(p2, d).lastValue);
  }

  lemma PlusComm(x: u64, y: u64)
    ensures Fcm.Plus(x, y) == Fcm.Plus(y, x)
  {}

  lemma SteadyPredicts(p: Fcm.Predictor, d: u64)
    requires Steady(p, d)
    ensures Fcm.Predict(p) == Fcm.Plus(p.lastValue, d)
    ensures Stepped(p, d) == p.(lastValue := Fcm.Plus(p.lastValue, d)) && Steady(Stepped(p, d), d)
  {
    hide Stepped, Fcm.NextHash;
    SteppedIs(p, d);
    PlusComm(d, p.lastValue);
    assert p.table[p.lastHash as nat := d] == p.table;
  }

  /** Each value is the one before, the first one `v`, plus `d`. */
  ghost predicate Rising(v: u64, d: u64, xs: seq<u64>)
    decreases |xs|
  {
    xs == [] || (xs[0] == Fcm.Plus(v, d) && Rising(xs[0], d, xs[1..]))
  }

  lemma RisingRest(v: u64, d: u64, xs: seq<u64>)
    requires Rising(v, d, xs) && xs != []
    ensures xs[0] == Fcm.Plus(v, d) && Rising(xs[0], d, xs[1..])
  {
    hide Fcm.Plus;
  }

  lemma SameIsZero(x: u64)
    ensures Fcm.Xor(x, x) == 0
  {}

  lemma {:induction false} SteadyDiffs(p: Fcm.Predictor, d: u64, xs: seq<u64>)
    requires Steady(p, d) && Rising(p.lastValue, d, xs)
    ensures Fcm.AllZero(Fcm.Diffs(p, xs)) && Steady(Fcm.UpdateAll(p, xs), d)
    ensures Fcm.UpdateAll(p, xs).lastValue == if xs == [] then p.lastValue else xs[|xs| - 1]
    decreases |xs|
  {
    hide Steady, Fcm.Update, Fcm.Predict, Fcm.Xor, Fcm.Plus, Rising;
    if xs != [] {
      RisingRest(p.lastValue, d, xs);
      SteadyPredicts(p, d);
      SameIsZero(xs[0]);
      assert Stepped(p, d) == Fcm.Update(p, xs[0]);
      SteadyDiffs(Fcm.Update(p, xs[0]), d, xs[1..]);
    }
  }

  /** A chunk that goes on evenly is one byte. */
  lemma SteadyChunk(p: Fcm.Predictor, d: u64, xs: seq<u64>)
    requires Steady(p, d) && Rising(p.lastValue, d, xs) && |xs| == 16
    ensures Fcm.Chunk(p, xs) == [0xFF]
  {
    hide Steady, Fcm.Diffs, Rising, Fcm.Pairs;
    SteadyDiffs(p, d, xs);
  }

  /** At least four values with even steps between them leave a settled predictor, whatever came before. */
  lemma Settles(p: Fcm.Predictor, d: u64, xs: seq<u64>)
    requires |xs| >= 4 && Rising(xs[0], d, xs[1..])
    ensures Steady(Fcm.UpdateAll(p, xs), d) && Fcm.UpdateAll(p, xs).lastValue == xs[|xs| - 1]
  {
    hide Steady, Rising, Fcm.Plus, Fcm.UpdateAll, Fcm.Predict, Fcm.Update;
    var q := Fcm.Update(p, xs[0]);
    LastIs(p, xs[0]);
    AllStep(p, xs);
    var a := xs[1..];
    var b := a[1..];
    var c := b[1..];
    RisingRest(xs[0], d, a);
    RisingRest(a[0], d, b);
    RisingRest(b[0], d, c);
    AllStep(q, a);
    AllStep(Stepped(q, d), b);
    AllStep(Stepped(Stepped(q, d), d), c);
    LastIs(q, a[0]);
    LastIs(Stepped(q, d), b[0]);
    var r := Stepped(Stepped(Stepped(q, d), d), d);
    LastIs(Stepped(Stepped(q, d), d), c[0]);
    ThreeSteps(q, d);
    SteadyDiffs(r, d, c[1..]);
  }

  lemma LastIs(p: Fcm.Predictor, v: u64)
    ensures Fcm.Update(p, v).lastValue == v
  {}

  lemma AllStep(p: Fcm.Predictor, xs: seq<u64>)
    requires xs != []
    ensures Fcm.UpdateAll(p, xs) == Fcm.UpdateAll(Fcm.Update(p, xs[0]), xs[1..])
  {}

  // ----- Timestamps

  ghost predicate AllAre(xs: seq<u64>, x: u64) {
    forall i :: 0 <= i < |xs| ==> xs[i] == x
  }

  lemma StampDelta(x: u64, d: u64)
    ensures DeltaDelta.Minus(Fcm.Plus(x, d), x) == d
  {
    PlusMinusRaw(x, d);
    StampSum(x, d);
  }

  lemma StampSum(x: u64, d: u64)
    ensures DeltaDelta.Minus(x + d, x) == x + d - x
  {}

  lemma {:induction false} EvenDeltas(prev: u64, d: u64, ts: seq<u64>)
    requires Rising(prev, d, ts)
    ensures AllAre(DeltaDelta.Deltas(prev, ts), d)
    decreases |ts|
  {
    hide DeltaDelta.Minus, Fcm.Plus;
    if ts != [] {
      StampDelta(prev, d);
      EvenDeltas(ts[0], d, ts[1..]);
    }
  }

  lemma {:induction false} EvenMin(d: u64, ds: seq<u64>)
    requires AllAre(ds, d)
    ensures DeltaDelta.MinOf(d, ds) == d && VByte.AllZero(DeltaDelta.Residues(ds, d))
    decreases |ds|
  {
    hide DeltaDelta.Minus;
    if ds != [] {
      NoDelta(d);
      EvenMin(d, ds[1..]);
    }
  }

  lemma NoDelta(d: u64)
    ensures DeltaDelta.Minus(d, d) == 0 && DeltaDelta.Lesser(d, d) == d
  {}

  /** A chunk with equal differences is the difference and one byte. */
  lemma EvenStamps(prev: u64, d: u64, ts: seq<u64>)
    requires Rising(prev, d, ts) && |ts| == 16
    ensures DeltaDelta.Chunk(prev, ts) == Leb128.Put(d) + [0xFF]
  {
    hide DeltaDelta.Minus, Fcm.Plus, Leb128.Put, VByte.Pairs, Rising, DeltaDelta.MinOf, DeltaDelta.Residues;
    var ds := DeltaDelta.Deltas(prev, ts);
    EvenDeltas(prev, d, ts);
    FirstDelta(prev, ts);
    EvenMin(d, ds);
  }

  lemma FirstDelta(prev: u64, ts: seq<u64>)
    requires ts != []
    ensures DeltaDelta.Deltas(prev, ts)[0] == DeltaDelta.Minus(ts[0], prev)
  {}

  // ----- Series

  ghost predicate Follows(xs: seq<u64>, i: nat, d: u64)
    requires 0 < i < |xs|
  {
    xs[i] == Fcm.Plus(xs[i - 1], d)
  }

  ghost predicate Even(xs: seq<u64>, d: u64) {
    forall i :: 0 < i < |xs| ==> Follows(xs, i, d)
  }

  /** Timestamps rise by `dt` from point to point, values by `dv`. */
  ghost predicate IsRegular(items: seq<Point>, dt: u64, dv: u64) {
    Even(Stamps(items), dt) && Even(Values(items), dv)
  }

  lemma {:induction false} EvenRises(xs: seq<u64>, d: u64, lo: nat, hi: nat)
    requires Even(xs, d) && 0 < lo <= hi <= |xs|
    ensures Rising(xs[lo - 1], d, xs[lo..hi])
    decreases hi - lo
  {
    hide Fcm.Plus;
    if lo < hi {
      assert Follows(xs, lo, d);
      EvenRises(xs, d, lo + 1, hi);
      assert xs[lo..hi][1..] == xs[lo + 1..hi];
    }
  }

  lemma RunIs(items: seq<Point>, k: nat)
    requires 16 * k + 16 <= |items|
    ensures Stamps(Run(items, k)) == Stamps(items)[16 * k..16 * k + 16]
    ensures Values(Run(items, k)) == Values(items)[16 * k..16 * k + 16]
  {}

  /** After a run of a regular series: the last point, and a settled predictor. */
  ghost predicate Settled(e: Encoded, items: seq<Point>, k: nat, dv: u64)
    requires 0 < k && 16 * k <= |items|
  {
    e.prev == items[16 * k - 1].ts && e.pred.lastValue == items[16 * k - 1].value && Steady(e.pred, dv)
  }

  lemma EvenChunk(e: Encoded, c: seq<Point>, dt: u64, dv: u64)
    requires |c| == 16 && Steady(e.pred, dv)
    requires Rising(e.prev, dt, Stamps(c)) && Rising(e.pred.lastValue, dv, Values(c))
    ensures ChunkBytes(e, c) == Leb128.Put(dt) + [0xFF, 0xFF]
    ensures var next := AddChunk(e, c);
            next.prev == c[15].ts && next.pred.lastValue == c[15].value && Steady(next.pred, dv)
  {
    hide Leb128.Put, Rising, Steady, Fcm.UpdateAll, DeltaDelta.Chunk, Fcm.Chunk;
    EvenStamps(e.prev, dt, Stamps(c));
    SteadyChunk(e.pred, dv, Values(c));
    SteadyDiffs(e.pred, dv, Values(c));
    assert Leb128.Put(dt) + [0xFF] + [0xFF] == Leb128.Put(dt) + [0xFF, 0xFF];
  }

  lemma RunRises(items: seq<Point>, dt: u64, dv: u64, k: nat)
    requires 0 < k && 16 * k + 16 <= |items| && IsRegular(items, dt, dv)
    ensures Rising(items[16 * k - 1].ts, dt, Stamps(Run(items, k)))
    ensures Rising(items[16 * k - 1].value, dv, Values(Run(items, k)))
    ensures Run(items, k)[15] == items[16 * k + 15]
  {
    hide Rising, Even, Stamps, Values;
    RunIs(items, k);
    StampsAt(items, 16 * k - 1);
    EvenRises(Stamps(items), dt, 16 * k, 16 * k + 16);
    EvenRises(Values(items), dv, 16 * k, 16 * k + 16);
  }

  /** Every chunk but the first is the difference of the timestamps and two bytes. */
  lemma RegularChunk(items: seq<Point>, dt: u64, dv: u64, k: nat)
    requires 0 < k && 16 * k + 16 <= |items| && IsRegular(items, dt, dv) && Settled(Encode(items, k), items, k, dv)
    ensures ChunkBytes(Encode(items, k), Run(items, k)) == Leb128.Put(dt) + [0xFF, 0xFF]
    ensures Settled(Encode(items, k + 1), items, k + 1, dv)
  {
    hide Leb128.Put, Rising, Steady, AddChunk, ChunkBytes, IsRegular, Stamps, Values, Run;
    var (e, c) := (Encode(items, k), Run(items, k));
    assert Encode(items, k + 1) == AddChunk(e, c);
    hide Encode;
    RunRises(items, dt, dv, k);
    EvenChunk(e, c, dt, dv);
  }

  lemma StampsAt(items: seq<Point>, i: nat)
    requires i < |items|
    ensures |Stamps(items)| == |Values(items)| == |items|
    ensures Stamps(items)[i] == items[i].ts && Values(items)[i] == items[i].value
  {}

  lemma FirstChunk(items: seq<Point>, dt: u64, dv: u64)
    requires 16 <= |items| && IsRegular(items, dt, dv)
    ensures Settled(Encode(items, 1), items, 1, dv)
  {
    hide Steady, AddChunk, IsRegular, Run;
    var c := Run(items, 0);
    assert Encode(items, 1) == AddChunk(Encode(items, 0), c);
    hide Encode;
    FirstRises(items, dt, dv);
    Begins(Encode(items, 0), c, dv);
  }

  lemma FirstRises(items: seq<Point>, dt: u64, dv: u64)
    requires 16 <= |items| && IsRegular(items, dt, dv)
    ensures var vs := Values(Run(items, 0)); Rising(vs[0], dv, vs[1..]) && Run(items, 0)[15] == items[15]
  {
    hide Rising, Even, Stamps, Values;
    RunIs(items, 0);
    StampsAt(items, 0);
    EvenRises(Values(items), dv, 1, 16);
    assert Values(Run(items, 0))[1..] == Values(items)[1..16];
  }

  lemma Begins(e: Encoded, c: seq<Point>, dv: u64)
    requires |c| == 16 && Rising(Values(c)[0], dv, Values(c)[1..])
    ensures var next := AddChunk(e, c);
            next.prev == c[15].ts && next.pred.lastValue == c[15].value && Steady(next.pred, dv)
  {
    hide Rising, Steady, Fcm.UpdateAll, ChunkBytes;
    Settles(e.pred, dv, Values(c));
  }

  /** The length of the compressed part of a regular series. */
  lemma {:induction false} RegularLength(items: seq<Point>, dt: u64, dv: u64, k: nat)
    requires 0 < k && 16 * k <= |items| && IsRegular(items, dt, dv)
    ensures Settled(Encode(items, k), items, k, dv)
    ensures |Encode(items, k).bytes| == |Encode(items, 1).bytes| + (k - 1) * (|Leb128.Put(dt)| + 2)
  {
    hide Settled, IsRegular, ChunkBytes, Leb128.Put, Run, Fcm.UpdateAll;
    FirstChunk(items, dt, dv);
    if k > 1 {
      RegularLength(items, dt, dv, k - 1);
      RegularChunk(items, dt, dv, k - 1);
      assert Encode(items, k) == AddChunk(Encode(items, k - 1), Run(items, k - 1));
      var n := |Leb128.Put(dt)| + 2;
      assert (k - 2) * n + n == (k - 1) * n;
    }
  }

  /** So many chunks fit into a block, if the first one has `first` bytes and every other one `next`. */
  function Chunks(size: nat, first: nat, next: nat): nat
    requires next > 0
  {
    if size < 318 then 0 else if size < 318 + first then 1 else 2 + (size - 318 - first) / next
  }

  function Less(m: nat, n: nat): nat { if m < n then m else n }

  lemma TimesMore(j: nat, k: nat, n: nat)
    requires j <= k
    ensures j * n <= k * n
  {}

  lemma DivFits(room: nat, n: nat, j: nat)
    requires n > 0
    ensures j <= room / n <==> j * n <= room
  {
    var q := room / n;
    assert q * n <= room < (q + 1) * n;
    if j <= q {
      TimesMore(j, q, n);
    } else {
      TimesMore(q + 1, j, n);
    }
  }

  lemma ChunksFit(size: nat, first: nat, next: nat, k: nat)
    requires next > 0 && k > 0
    ensures k < Chunks(size, first, next) <==> size >= 318 + first + (k - 1) * next
  {
    TimesMore(0, k - 1, next);
    if size >= 318 + first {
      DivFits(size - 318 - first, next, k - 1);
    }
  }

  lemma {:induction false} RegularCount(size: nat, items: seq<Point>, dt: u64, dv: u64, k: nat)
    requires |items| >= 16 && IsRegular(items, dt, dv)
    requires var n := Chunks(size, |Encode(items, 1).bytes|, |Leb128.Put(dt)| + 2); k <= Less(|items| / 16, n)
    ensures var n := Chunks(size, |Encode(items, 1).bytes|, |Leb128.Put(dt)| + 2);
            ChunkCount(size, items, k) == Less(|items| / 16, n)
    decreases |items| - 16 * k
  {
    hide IsRegular, Encode, Leb128.Put, Chunks;
    var (first, next) := (|Encode(items, 1).bytes|, |Leb128.Put(dt)| + 2);
    if k == 0 {
      FirstFits(size, items, next);
    } else {
      RegularLength(items, dt, dv, k);
      ChunksFit(size, first, next, k);
    }
    if k < Less(|items| / 16, Chunks(size, first, next)) {
      RegularCount(size, items, dt, dv, k + 1);
    }
  }

  lemma FirstFits(size: nat, items: seq<Point>, next: nat)
    requires |items| >= 16 && next > 0
    ensures Chunks(size, |Encode(items, 1).bytes|, next) > 0 <==> size - MainEnd(items, 0) >= MARGIN
  {
    hide AddChunk, Fcm.Fresh;
  }

  /** How many points of a regular series a block takes: the chunks that fit, and a point for every 16 bytes behind
      them. */
  lemma RegularCapacity(size: nat, items: seq<Point>, dt: u64, dv: u64)
    requires size >= 14 && |items| >= 16 && IsRegular(items, dt, dv)
    ensures
      var (first, next) := (|Encode(items, 1).bytes|, |Leb128.Put(dt)| + 2);
      var n := Chunks(size, first, next);
      var used := if n == 0 then 0 else first + (n - 1) * next;
      && ChunkCount(size, items) == Less(|items| / 16, n)
      && (|items| >= 16 * n + 19 ==> Capacity(size, items) == 16 * n + (size - 14 - used) / 16)
  {
    hide IsRegular, Encode, Leb128.Put, Chunks, ChunkCount;
    var (first, next) := (|Encode(items, 1).bytes|, |Leb128.Put(dt)| + 2);
    var n := Chunks(size, first, next);
    RegularCount(size, items, dt, dv, 0);
    if |items| >= 16 * n + 19 {
      if n == 0 {
        FirstFits(size, items, next);
        NoBytes(items);
      } else {
        RegularLength(items, dt, dv, n);
        ChunksFit(size, first, next, n);
      }
    }
  }

  lemma NoBytes(items: seq<Point>)
    ensures Encode(items, 0).bytes == []
  {
    hide Fcm.Fresh;
  }

  // ----- Every value 1.0, a point at every tick

  /** The pattern of 1.0. */
  const ONE: u64 := 0x3FF0_0000_0000_0000

  predicate TwoTop(x: u64) {
    x & 0xFFFF_FFFF_FFFF == 0 && Low(x >> 48) != 0 && x >> 56 != 0
  }

  lemma TopHalves(x: u64)
    requires TwoTop(x)
    ensures var x2 := Hi(Hi(x)); var x4 := Hi(Hi(x2)); var x6 := Hi(Hi(x4));
            && x6 == x >> 48 && Low(x6) != 0 && Hi(x6) != 0 && Hi(Hi(x6)) == 0
            && x != 0 && x2 != 0 && x4 != 0 && x6 != 0
            && Low(x) == 0 && Low(Hi(x)) == 0 && Low(x2) == 0 && Low(Hi(x2)) == 0 && Low(x4) == 0 && Low(Hi(x4)) == 0
            && Hi(x) != 0 && Hi(x2) != 0 && Hi(x4) != 0
  {}

  lemma TwoTopBytes(x: u64)
    requires TwoTop(x)
    ensures x != 0 && ZeroBytes(x) == 6 && Width(x) == 8 && DropBytes(x, 6) == x >> 48
  {
    hide Hi, Low, TwoTop;
    TopHalves(x);
    var x2 := Hi(Hi(x)); var x4 := Hi(Hi(x2)); var x6 := Hi(Hi(x4));
    assert ZeroBytes(x4) == 2 + ZeroBytes(x6) && ZeroBytes(x2) == 2 + ZeroBytes(x4);
    assert Width(Hi(Hi(x6))) == 0;
    assert Width(x6) == 2 + Width(Hi(Hi(x6)));
    assert Width(x4) == 2 + Width(x6) && Width(x2) == 2 + Width(x4);
    assert DropBytes(x4, 2) == DropBytes(x6, 0);
    assert DropBytes(x2, 4) == DropBytes(x4, 2);
    assert DropBytes(x, 6) == DropBytes(x2, 4);
  }

  lemma TopFlag(x: u64)
    requires TwoTop(x)
    ensures Fcm.StoredFlag(x) == 9 && Fcm.ValueBytes(x, 9) == [Low(x >> 48), Low(Hi(x >> 48))]
  {
    hide Low, Hi, TwoTop;
    TwoTopBytes(x);
    CtzVsZeroBytes(x);
    ByteLengthIsWidth(x);
    assert Fcm.BytesOf(9) == 2 && Fcm.ShiftOf(9) == 6;
    var y := x >> 48;
    assert ToBytes(Hi(y), 1) == [Low(Hi(y))];
    assert ToBytes(y, 2) == [Low(y), Low(Hi(y))];
  }

  /** The first value is new, the third is taken for another rise, and from the fourth on all are predicted. */
  lemma OneDiffs(xs: seq<u64>)
    requires |xs| == 16 && AllAre(xs, ONE)
    ensures Fcm.Diffs(Fcm.Fresh(), xs) == [ONE, 0, 0x4010_0000_0000_0000] + seq(13, _ => 0)
  {
    var p := Fcm.Fresh();
    var (p1, p2) := (Fcm.Update(p, ONE), Fcm.Update(Fcm.Update(p, ONE), ONE));
    var p3 := Fcm.Update(p2, ONE);
    OneHashes();
    assert p1 == Fcm.PredictorState(p.table[0 := ONE], 124, ONE);
    assert p2 == Fcm.PredictorState(p1.table[124 := 0], 0, ONE);
    assert p3 == Fcm.PredictorState(p2.table[0 := 0], 0, ONE);
    var (a, b, c) := (xs[1..], xs[1..][1..], xs[1..][1..][1..]);
    assert Steady(p3, 0);
    ConstantRises(c);
    SteadyDiffs(p3, 0, c);
    DiffsStep(p, xs);
    DiffsStep(p1, a);
    DiffsStep(p2, b);
  }

  lemma OneHashes()
    ensures Fcm.NextHash(0, ONE) == 124 && Fcm.NextHash(124, 0) == 0 && Fcm.NextHash(0, 0) == 0
    ensures Fcm.Minus(ONE, 0) == ONE && Fcm.Minus(ONE, ONE) == 0 && Fcm.Plus(0, 0) == 0 && Fcm.Plus(0, ONE) == ONE
    ensures Fcm.Xor(ONE, 0) == ONE && Fcm.Xor(ONE, ONE) == 0
    ensures Fcm.Xor(ONE, Fcm.Plus(ONE, ONE)) == 0x4010_0000_0000_0000
  {}

  lemma DiffsStep(p: Fcm.Predictor, xs: seq<u64>)
    requires xs != []
    ensures Fcm.Diffs(p, xs) == [Fcm.Xor(xs[0], Fcm.Predict(p))] + Fcm.Diffs(Fcm.Update(p, xs[0]), xs[1..])
  {}

  lemma {:induction false} ConstantRises(xs: seq<u64>)
    requires AllAre(xs, ONE)
    ensures Rising(ONE, 0, xs)
    decreases |xs|
  {
    assert Fcm.Plus(ONE, 0) == ONE;
    if xs != [] {
      ConstantRises(xs[1..]);
    }
  }

  lemma ZeroPair()
    ensures Fcm.Pair(0, 0) == [0, 0, 0]
  {
    assert Fcm.StoredFlag(0) == 0;
    ZeroValue();
    assert Fcm.Flags(0, 0) == 0;
  }

  lemma ZeroValue()
    ensures Fcm.StoredFlag(0) == 0 && Fcm.ValueBytes(0, 0) == [0]
  {
    assert Low(0) == 0 && Fcm.BytesOf(0) == 1 && Fcm.ShiftOf(0) == 0;
    assert ToBytes(0, 1) == [Low(0)] + ToBytes(Hi(0), 0);
  }

  lemma {:induction false} ZeroPairs(n: nat)
    ensures Fcm.Pairs(seq(2 * n, _ => 0)) == seq(3 * n, _ => 0)
  {
    hide Fcm.Pair;
    if n > 0 {
      var ds := seq(2 * n, _ => 0 as u64);
      assert ds[2..] == seq(2 * (n - 1), _ => 0 as u64);
      ZeroPair();
      ZeroPairs(n - 1);
    }
  }

  lemma TopPair(x: u64)
    requires TwoTop(x)
    ensures Fcm.Pair(x, 0) == [0x90, Low(x >> 48), Low(Hi(x >> 48)), 0]
  {
    hide Fcm.StoredFlag, Fcm.ValueBytes, Low, Hi;
    TopFlag(x);
    ZeroValue();
    assert Fcm.Flags(9, 0) == 0x90;
  }

  /** The bytes of a first chunk of ones. */
  lemma OneChunk(xs: seq<u64>)
    requires |xs| == 16 && AllAre(xs, ONE)
    ensures Fcm.Chunk(Fcm.Fresh(), xs) == [0x90, 0xF0, 0x3F, 0, 0x90, 0x10, 0x40, 0] + seq(18, _ => 0)
  {
    hide Fcm.Pair, Fcm.Fresh, Fcm.Diffs;
    var three := 0x4010_0000_0000_0000 as u64;
    OneDiffs(xs);
    var ds := Fcm.Diffs(Fcm.Fresh(), xs);
    assert ds[0] == ONE != 0;
    TopPair(ONE);
    TopPair(three);
    OneBytes();
    assert ds[2..][2..] == seq(2 * 6, _ => 0 as u64);
    ZeroPairs(6);
    assert Fcm.Pairs(ds[2..]) == Fcm.Pair(three, 0) + Fcm.Pairs(ds[2..][2..]);
  }

  lemma OneBytes()
    ensures Low(ONE >> 48) == 0xF0 && Low(Hi(ONE >> 48)) == 0x3F
    ensures Low((0x4010_0000_0000_0000 as u64) >> 48) == 0x10 && Low(Hi((0x4010_0000_0000_0000 as u64) >> 48)) == 0x40
    ensures TwoTop(ONE) && TwoTop(0x4010_0000_0000_0000)
  {}

  lemma {:induction false} EvenZero(xs: seq<u64>, n: nat)
    requires Even(xs, 0) && n < |xs|
    ensures xs[n] == xs[0]
  {
    if n > 0 {
      EvenZero(xs, n - 1);
      assert Follows(xs, n, 0);
      assert Fcm.Plus(xs[n - 1], 0) == xs[n - 1];
    }
  }

  /** The first chunk of such a series, byte for byte, and what a block of 4096 bytes takes of it. */
  lemma TickingOnes(items: seq<Point>)
    requires |items| >= 16 && IsRegular(items, 1, 0) && items[0] == Point(1, ONE)
    ensures Encode(items, 1).bytes == [1, 0xFF, 0x90, 0xF0, 0x3F, 0, 0x90, 0x10, 0x40, 0] + seq(18, _ => 0)
    ensures ChunkCount(4096, items) == Less(|items| / 16, 1252)
    ensures |items| >= 20051 ==> Capacity(4096, items) == 20050
  {
    hide IsRegular, Encode, ChunkCount, Capacity;
    OneLayout(items);
    assert Leb128.Put(1) == [1];
    RegularCapacity(4096, items, 1, 0);
    assert Chunks(4096, 28, 3) == 1252;
  }

  lemma OneLayout(items: seq<Point>)
    requires |items| >= 16 && IsRegular(items, 1, 0) && items[0] == Point(1, ONE)
    ensures Encode(items, 1).bytes == [1, 0xFF, 0x90, 0xF0, 0x3F, 0, 0x90, 0x10, 0x40, 0] + seq(18, _ => 0)
  {
    hide Rising, Fcm.UpdateAll, DeltaDelta.Chunk, Fcm.Chunk, Stamps, Values, Fcm.Fresh, IsRegular, Run, AllAre;
    var c := Run(items, 0);
    assert Encode(items, 0) == Encoded([], 0, Fcm.Fresh());
    assert Encode(items, 1) == AddChunk(Encode(items, 0), c);
    OneRun(items);
    EvenStamps(0, 1, Stamps(c));
    assert Leb128.Put(1) == [1];
    hide Leb128.Put;
    OneChunk(Values(c));
    OneBytesJoin();
  }

  lemma OneBytesJoin()
    ensures ([1] + [0xFF]) + ([0x90, 0xF0, 0x3F, 0, 0x90, 0x10, 0x40, 0] + seq(18, _ => 0)) ==
            [1, 0xFF, 0x90, 0xF0, 0x3F, 0, 0x90, 0x10, 0x40, 0] + seq(18, _ => 0 as u8)
  {}

  lemma OneRun(items: seq<Point>)
    requires |items| >= 16 && IsRegular(items, 1, 0) && items[0] == Point(1, ONE)
    ensures Rising(0, 1, Stamps(Run(items, 0))) && AllAre(Values(Run(items, 0)), ONE)
  {
    hide Rising, Even, Stamps, Values;
    var c := Run(items, 0);
    RunIs(items, 0);
    StampsAt(items, 0);
    EvenRises(Stamps(items), 1, 1, 16);
    assert Stamps(c)[1..] == Stamps(items)[1..16];
    FromZero(Stamps(c));
    forall i | 0 <= i < 16 ensures Values(c)[i] == ONE {
      EvenZero(Values(items), i);
    }
  }

  lemma FromZero(ts: seq<u64>)
    requires ts != [] && ts[0] == 1 && Rising(1, 1, ts[1..])
    ensures Rising(0, 1, ts)
  {
    assert Fcm.Plus(0, 1) == 1;
  }
}
