/** Doubles, as 64-bit patterns: DFCM prediction, XOR with the prediction, and a nibble flag per
    value that says which bytes of the difference are stored
    (`DfcmPredictor`, `FcmStreamWriter` and `FcmStreamReader`). */
module Fcm {
  import opened Bits

  const CHUNK_SIZE := 16
  const PREDICTOR_N := 128
  const SHORTCUT: u8 := 0xFF

  // ----- The predictor

  datatype PredictorState = PredictorState(table: seq<u64>, lastHash: bv7, lastValue: u64)

  type Predictor = p: PredictorState | |p.table| == PREDICTOR_N
    witness PredictorState(seq(PREDICTOR_N, _ => 0), 0, 0)

  function Fresh(): Predictor {
    PredictorState(seq(PREDICTOR_N, _ => 0), 0, 0)
  }

  function Plus(x: u64, y: u64): u64 { x + y }

  function Minus(x: u64, y: u64): u64 { x - y }

  function Predict(p: Predictor): u64 {
    Plus(p.table[p.lastHash as nat], p.lastValue)
  }

  function NextHash(h: bv7, delta: u64): bv7 {
    ((((h as u64) << 5) ^ (delta >> 50)) & 127) as bv7
  }

  function Update(p: Predictor, value: u64): Predictor {
    var delta := Minus(value, p.lastValue);
    PredictorState(p.table[p.lastHash as nat := delta], NextHash(p.lastHash, delta), value)
  }

  function UpdateAll(p: Predictor, values: seq<u64>): Predictor
    decreases |values|
  {
    if values == [] then p else UpdateAll(Update(p, values[0]), values[1..])
  }

  // ----- One value

  function Xor(x: u64, y: u64): u64 { x ^ y }

  lemma XorCancels(x: u64, p: u64)
    ensures Xor(p, Xor(x, p)) == x
  {}

  /** `FcmStreamWriter::encode`: 0xF for a zero difference; otherwise one less than the number of
      bytes kept, plus 8 when it is the high bytes that are kept. */
  function Flag(diff: u64): (f: nat)
    ensures f <= 15 && (f == 15 <==> diff == 0)
  {
    if diff == 0 then 15
    else
      CtzVsZeroBytes(diff);
      ZeroBytesBelowWidth(diff);
      var trailing := Ctz(diff) / 8;
      var leading := Clz(diff) / 8;
      if trailing > leading then 8 + (8 - trailing - 1) else 8 - leading - 1
  }

  /** The flag stored: a zero difference is written as one zero byte. */
  function StoredFlag(diff: u64): (f: nat)
    ensures f < 15
  {
    if Flag(diff) == 0xF then 0 else Flag(diff)
  }

  function BytesOf(flag: nat): nat { flag % 8 + 1 }

  function ShiftOf(flag: nat): nat { (8 - BytesOf(flag)) * (flag / 8) }

  function ValueBytes(diff: u64, flag: nat): (s: seq<u8>)
    ensures |s| == BytesOf(flag)
  {
    ToBytes(DropBytes(diff, ShiftOf(flag)), BytesOf(flag))
  }

  function ValueOf(s: seq<u8>, flag: nat): u64 {
    PadBytes(FromBytes(s), ShiftOf(flag))
  }

  /** The bytes a flag keeps determine the difference. */
  lemma ValueRoundTrip(diff: u64)
    ensures ValueOf(ValueBytes(diff, StoredFlag(diff)), StoredFlag(diff)) == diff
  {
    var f := StoredFlag(diff);
    if diff == 0 {
      BytesRoundTrip(0, 1);
    } else {
      CtzVsZeroBytes(diff);
      ZeroBytesBelowWidth(diff);
      ByteLengthIsWidth(diff);
      var trailing := Ctz(diff) / 8;
      var leading := Clz(diff) / 8;
      if trailing > leading {
        assert BytesOf(f) == 8 - trailing && ShiftOf(f) == trailing;
        DropBytesWidth(diff, trailing);
        BytesRoundTrip(DropBytes(diff, trailing), 8 - trailing);
        DropThenPad(diff, trailing);
      } else {
        assert BytesOf(f) == 8 - leading == Width(diff) && ShiftOf(f) == 0;
        BytesRoundTrip(diff, BytesOf(f));
      }
    }
  }

  // ----- What the writer lays down

  function Diffs(p: Predictor, values: seq<u64>): (ds: seq<u64>)
    ensures |ds| == |values|
    decreases |values|
  {
    if values == [] then []
    else [Xor(values[0], Predict(p))] + Diffs(Update(p, values[0]), values[1..])
  }

  function Flags(fst: nat, snd: nat): u8
    requires fst < 15 && snd < 15
  {
    ((fst as u8) << 4) | (snd as u8)
  }

  function FirstFlag(flags: u8): nat { (flags >> 4) as nat }

  function SecondFlag(flags: u8): nat { (flags & 0xF) as nat }

  /** An ordinary flag byte splits back into its flags and is never the shortcut. */
  lemma FlagsSplit(fst: nat, snd: nat)
    requires fst < 15 && snd < 15
    ensures FirstFlag(Flags(fst, snd)) == fst && SecondFlag(Flags(fst, snd)) == snd
    ensures Flags(fst, snd) != SHORTCUT
  {}

  function Pair(x: u64, y: u64): seq<u8> {
    var (f, g) := (StoredFlag(x), StoredFlag(y));
    [Flags(f, g)] + ValueBytes(x, f) + ValueBytes(y, g)
  }

  function Pairs(ds: seq<u64>): seq<u8>
    requires |ds| % 2 == 0
  {
    if ds == [] then [] else Pair(ds[0], ds[1]) + Pairs(ds[2..])
  }

  predicate AllZero(ds: seq<u64>) {
    forall i :: 0 <= i < |ds| ==> ds[i] == 0
  }

  function DiffChunk(ds: seq<u64>): seq<u8>
    requires |ds| % 2 == 0
  {
    if AllZero(ds) then [SHORTCUT] else Pairs(ds)
  }

  function Chunk(p: Predictor, values: seq<u64>): seq<u8>
    requires |values| == CHUNK_SIZE
  {
    DiffChunk(Diffs(p, values))
  }

  /** The bytes of a difference that are kept: all but its zero bytes at one end, where there are more; at least one. */
  function Kept(diff: u64): int {
    if diff == 0 then 1 else if ZeroBytes(diff) > 8 - Width(diff) then 8 - ZeroBytes(diff) else Width(diff)
  }

  lemma KeptBytes(diff: u64)
    ensures BytesOf(StoredFlag(diff)) == Kept(diff)
  {
    hide Width, ZeroBytes, Clz, Ctz;
    if diff != 0 {
      CtzVsZeroBytes(diff);
      ZeroBytesBelowWidth(diff);
      ByteLengthIsWidth(diff);
    }
  }

  /** A pair takes its flag byte and the bytes kept of both differences. */
  lemma PairLength(x: u64, y: u64)
    ensures |Pair(x, y)| == 1 + Kept(x) + Kept(y)
  {
    hide Kept, StoredFlag;
    KeptBytes(x);
    KeptBytes(y);
  }

  lemma {:induction false} PairsBound(ds: seq<u64>)
    requires |ds| % 2 == 0
    ensures 3 * |ds| <= 2 * |Pairs(ds)| <= 17 * |ds|
  {
    if ds != [] {
      PairsBound(ds[2..]);
    }
  }

  lemma ChunkBound(p: Predictor, values: seq<u64>)
    requires |values| == CHUNK_SIZE
    ensures 1 <= |Chunk(p, values)| <= 136
  {
    PairsBound(Diffs(p, values));
  }

  // ----- The reader

  datatype State = State(pred: Predictor, flags: u8, iter: nat, zeroes: nat)

  predicate Idle(s: State) {
    s.iter % 2 == 0 && s.zeroes == 0
  }

  /** The next difference and the position after it, or `None` where the reader aborts. */
  function NextDiff(b: seq<u8>, s: State, pos: nat): Option<(u64, State, nat)> {
    if s.iter % 2 == 0 && s.zeroes == 0 then
      if pos >= |b| then None
      else
        var s' := s.(flags := b[pos], iter := s.iter + 1);
        if b[pos] == SHORTCUT then Some((0, s'.(zeroes := CHUNK_SIZE - 1), pos + 1))
        else ReadDiff(b, s', pos + 1, FirstFlag(s'.flags))
    else if s.zeroes > 0 then
      Some((0, s.(iter := s.iter + 1, zeroes := s.zeroes - 1), pos))
    else
      ReadDiff(b, s.(iter := s.iter + 1), pos, SecondFlag(s.flags))
  }

  function ReadDiff(b: seq<u8>, s: State, pos: nat, flag: nat): Option<(u64, State, nat)> {
    var n := BytesOf(flag);
    if pos + n <= |b| then Some((ValueOf(b[pos..pos + n], flag), s, pos + n)) else None
  }

  function Next(b: seq<u8>, s: State, pos: nat): Option<(u64, State, nat)> {
    match NextDiff(b, s, pos)
    case None => None
    case Some((diff, s', pos')) =>
      var value := Xor(Predict(s.pred), diff);
      Some((value, s'.(pred := Update(s.pred, value)), pos'))
  }

  ghost predicate Reads(b: seq<u8>, s: State, pos: nat, values: seq<u64>, s': State, pos': nat)
    decreases |values|
  {
    if values == [] then s' == s && pos' == pos
    else
      var r := Next(b, s, pos);
      r.Some? && r.value.0 == values[0] && Reads(b, r.value.1, r.value.2, values[1..], s', pos')
  }

  /** As `Reads`, on differences, leaving the predictor alone. */
  ghost predicate ReadsDiffs(b: seq<u8>, s: State, pos: nat, ds: seq<u64>, s': State, pos': nat)
    decreases |ds|
  {
    if ds == [] then s' == s && pos' == pos
    else
      var r := NextDiff(b, s, pos);
      r.Some? && r.value.0 == ds[0] && ReadsDiffs(b, r.value.1, r.value.2, ds[1..], s', pos')
  }

  lemma {:induction false} ReadsDiffsAppend(b: seq<u8>, s: State, pos: nat, xs: seq<u64>, s1: State, pos1: nat,
                                            ys: seq<u64>, s2: State, pos2: nat)
    requires ReadsDiffs(b, s, pos, xs, s1, pos1) && ReadsDiffs(b, s1, pos1, ys, s2, pos2)
    ensures ReadsDiffs(b, s, pos, xs + ys, s2, pos2)
    decreases |xs|
  {
    hide NextDiff;
    if xs == [] {
      assert xs + ys == ys;
    } else {
      var r := NextDiff(b, s, pos).value;
      ReadsDiffsAppend(b, r.1, r.2, xs[1..], s1, pos1, ys, s2, pos2);
      assert (xs + ys)[0] == xs[0] && (xs + ys)[1..] == xs[1..] + ys;
    }
  }

  lemma PairParts(b: seq<u8>, pos: nat, x: u64, y: u64)
    requires At(b, pos, Pair(x, y))
    ensures pos < |b| && b[pos] == Flags(StoredFlag(x), StoredFlag(y))
    ensures At(b, pos + 1, ValueBytes(x, StoredFlag(x)))
    ensures At(b, pos + 1 + BytesOf(StoredFlag(x)), ValueBytes(y, StoredFlag(y)))
  {
    hide StoredFlag, ValueBytes, Flags;
    var (f, g) := (StoredFlag(x), StoredFlag(y));
    AtConcat(b, pos, [Flags(f, g)] + ValueBytes(x, f), ValueBytes(y, g));
    AtConcat(b, pos, [Flags(f, g)], ValueBytes(x, f));
    assert b[pos] == b[pos..pos + 1][0] == Flags(f, g);
  }

  function AfterPair(s: State, x: u64, y: u64): State {
    s.(flags := Flags(StoredFlag(x), StoredFlag(y)), iter := s.iter + 2)
  }

  lemma ReadsPair(b: seq<u8>, s: State, pos: nat, x: u64, y: u64)
    requires Idle(s) && At(b, pos, Pair(x, y))
    ensures ReadsDiffs(b, s, pos, [x, y], AfterPair(s, x, y), pos + |Pair(x, y)|)
  {
    hide StoredFlag, ValueBytes, ValueOf, Flags, FirstFlag, SecondFlag;
    var (f, g) := (StoredFlag(x), StoredFlag(y));
    FlagsSplit(f, g);
    PairParts(b, pos, x, y);
    ValueRoundTrip(x);
    ValueRoundTrip(y);
    var s1 := s.(flags := Flags(f, g), iter := s.iter + 1);
    var pos1 := pos + 1 + BytesOf(f);
    assert NextDiff(b, s, pos) == Some((x, s1, pos1));
    assert NextDiff(b, s1, pos1) == Some((y, AfterPair(s, x, y), pos1 + BytesOf(g)));
    assert [x, y][1..] == [y] && [y][1..] == [];
    assert ReadsDiffs(b, s1, pos1, [y], AfterPair(s, x, y), pos1 + BytesOf(g));
  }

  function AfterPairs(s: State, ds: seq<u64>): (s': State)
    requires |ds| % 2 == 0
    ensures Idle(s) ==> Idle(s')
    ensures s'.pred == s.pred
    decreases |ds|
  {
    if ds == [] then s else AfterPairs(AfterPair(s, ds[0], ds[1]), ds[2..])
  }

  lemma {:induction false} ReadsPairs(b: seq<u8>, s: State, pos: nat, ds: seq<u64>)
    requires |ds| % 2 == 0 && Idle(s) && At(b, pos, Pairs(ds))
    ensures ReadsDiffs(b, s, pos, ds, AfterPairs(s, ds), pos + |Pairs(ds)|)
    decreases |ds|
  {
    hide NextDiff, Pair, StoredFlag, Flags;
    if ds != [] {
      var s1 := AfterPair(s, ds[0], ds[1]);
      var pos1 := pos + |Pair(ds[0], ds[1])|;
      AtConcat(b, pos, Pair(ds[0], ds[1]), Pairs(ds[2..]));
      ReadsPair(b, s, pos, ds[0], ds[1]);
      ReadsPairs(b, s1, pos1, ds[2..]);
      ReadsDiffsAppend(b, s, pos, [ds[0], ds[1]], s1, pos1,
                       ds[2..], AfterPairs(s1, ds[2..]), pos1 + |Pairs(ds[2..])|);
      assert [ds[0], ds[1]] + ds[2..] == ds;
    }
  }

  lemma {:induction false} ReadsZeros(b: seq<u8>, s: State, pos: nat, ds: seq<u64>)
    requires s.zeroes >= |ds| && AllZero(ds)
    ensures ReadsDiffs(b, s, pos, ds, s.(iter := s.iter + |ds|, zeroes := s.zeroes - |ds|), pos)
    decreases |ds|
  {
    if ds != [] {
      ReadsZeros(b, s.(iter := s.iter + 1, zeroes := s.zeroes - 1), pos, ds[1..]);
    }
  }

  function AfterDiffs(s: State, ds: seq<u64>): (s': State)
    requires |ds| == CHUNK_SIZE
    ensures Idle(s) ==> Idle(s')
    ensures s'.pred == s.pred
  {
    if AllZero(ds) then s.(flags := SHORTCUT, iter := s.iter + 16, zeroes := 0) else AfterPairs(s, ds)
  }

  lemma ReadsDiffChunk(b: seq<u8>, s: State, pos: nat, ds: seq<u64>)
    requires |ds| == CHUNK_SIZE && Idle(s) && At(b, pos, DiffChunk(ds))
    ensures ReadsDiffs(b, s, pos, ds, AfterDiffs(s, ds), pos + |DiffChunk(ds)|)
  {
    hide Pair, StoredFlag, Flags, ValueOf, FirstFlag, SecondFlag;
    if AllZero(ds) {
      assert b[pos] == b[pos..pos + 1][0] == SHORTCUT;
      var s1 := s.(flags := SHORTCUT, iter := s.iter + 1, zeroes := 15);
      assert NextDiff(b, s, pos) == Some((0, s1, pos + 1));
      ReadsZeros(b, s1, pos + 1, ds[1..]);
    } else {
      ReadsPairs(b, s, pos, ds);
    }
  }

  lemma NextDiffIgnoresPredictor(b: seq<u8>, s: State, pos: nat, p: Predictor)
    ensures NextDiff(b, s.(pred := p), pos) ==
            match NextDiff(b, s, pos)
            case None => None
            case Some((d, s', pos')) => Some((d, s'.(pred := p), pos'))
  {
    hide ValueOf, FirstFlag, SecondFlag;
  }

  /** Reading the differences of `values` reads `values`, with the predictor updated as the writer's was. */
  lemma {:induction false} ReadsFromDiffs(b: seq<u8>, s: State, pos: nat, values: seq<u64>, p: Predictor, s': State,
                                          pos': nat)
    requires ReadsDiffs(b, s, pos, Diffs(p, values), s', pos')
    ensures Reads(b, s.(pred := p), pos, values, s'.(pred := UpdateAll(p, values)), pos')
    decreases |values|
  {
    hide NextDiff, Predict, Update, Xor;
    if values != [] {
      var r := NextDiff(b, s, pos).value;
      NextDiffIgnoresPredictor(b, s, pos, p);
      XorCancels(values[0], Predict(p));
      assert Diffs(p, values)[1..] == Diffs(Update(p, values[0]), values[1..]);
      ReadsFromDiffs(b, r.1, r.2, values[1..], Update(p, values[0]), s', pos');
    }
  }

  function AfterChunk(s: State, values: seq<u64>): (s': State)
    requires |values| == CHUNK_SIZE
    ensures Idle(s) ==> Idle(s')
    ensures s'.pred == UpdateAll(s.pred, values)
  {
    AfterDiffs(s, Diffs(s.pred, values)).(pred := UpdateAll(s.pred, values))
  }

  /** Reading a chunk with the predictor it was written with gives its values back bit for bit and
      ends with the writer's predictor at the writer's position. */
  lemma ReadsChunk(b: seq<u8>, s: State, pos: nat, values: seq<u64>)
    requires |values| == CHUNK_SIZE && Idle(s) && At(b, pos, Chunk(s.pred, values))
    ensures Reads(b, s, pos, values, AfterChunk(s, values), pos + |Chunk(s.pred, values)|)
  {
    hide NextDiff, Next, Diffs, DiffChunk, AfterDiffs, ReadsDiffs, Reads;
    var ds := Diffs(s.pred, values);
    ReadsDiffChunk(b, s, pos, ds);
    ReadsFromDiffs(b, s, pos, values, s.pred, AfterDiffs(s, ds), pos + |DiffChunk(ds)|);
    assert s.(pred := s.pred) == s;
  }
}
