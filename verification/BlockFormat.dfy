/** Layout of a data block (header, compressed chunks, uncompressed tail), the state machine of
    `DataBlockReader`, and the proof that it reads a well-formed block back. */
module BlockFormat {
  import opened Bits
  import VByte
  import DeltaDelta
  import Fcm

  const HEADER_SIZE := 14

  datatype Point = Point(ts: u64, value: u64)

  function Stamps(items: seq<Point>): (ts: seq<u64>)
    ensures |ts| == |items|
    ensures forall i :: 0 <= i < |items| ==> ts[i] == items[i].ts
  {
    seq(|items|, i requires 0 <= i < |items| => items[i].ts)
  }

  function Values(items: seq<Point>): (vs: seq<u64>)
    ensures |vs| == |items|
    ensures forall i :: 0 <= i < |items| ==> vs[i] == items[i].value
  {
    seq(|items|, i requires 0 <= i < |items| => items[i].value)
  }

  // ----- Layout

  /** The `k`-th run of 16 points. */
  function Run(items: seq<Point>, k: nat): (c: seq<Point>)
    requires 16 * k + 16 <= |items|
    ensures |c| == 16
  {
    items[16 * k..16 * k + 16]
  }

  datatype Encoded = Encoded(bytes: seq<u8>, prev: u64, pred: Fcm.Predictor)

  function ChunkBytes(e: Encoded, c: seq<Point>): seq<u8>
    requires |c| == 16
  {
    DeltaDelta.Chunk(e.prev, Stamps(c)) + Fcm.Chunk(e.pred, Values(c))
  }

  function AddChunk(e: Encoded, c: seq<Point>): Encoded
    requires |c| == 16
  {
    Encoded(e.bytes + ChunkBytes(e, c), c[15].ts, Fcm.UpdateAll(e.pred, Values(c)))
  }

  /** The first `k` runs compressed, and the codec states the writer is left with. */
  function Encode(items: seq<Point>, k: nat): Encoded
    requires 16 * k <= |items|
  {
    if k == 0 then Encoded([], 0, Fcm.Fresh()) else AddChunk(Encode(items, k - 1), Run(items, k - 1))
  }

  function Raw(items: seq<Point>): (s: seq<u8>)
    ensures |s| == 16 * |items|
  {
    if items == [] then [] else RawPoint(items[0]) + Raw(items[1..])
  }

  function RawPoint(p: Point): (s: seq<u8>)
    ensures |s| == 16
  {
    ToBytes(p.ts, 8) + ToBytes(p.value, 8)
  }

  function U16(b: seq<u8>, p: nat): (n: nat)
    requires p + 2 <= |b|
    ensures n < 0x10000
  {
    b[p] as nat + 256 * (b[p + 1] as nat)
  }

  /** Number of chunks, and of points, that the header announces. */
  function Chunks(b: seq<u8>): nat
    requires |b| >= HEADER_SIZE
  {
    U16(b, 2)
  }

  function TotalSize(b: seq<u8>): nat
    requires |b| >= HEADER_SIZE
  {
    U16(b, 4) + U16(b, 2) * 16
  }

  /** Block `b` stores `items`. */
  ghost predicate Holds(b: seq<u8>, items: seq<Point>) {
    && |b| >= HEADER_SIZE
    && TotalSize(b) == |items|
    && At(b, HEADER_SIZE, Encode(items, Chunks(b)).bytes)
    && At(b, HEADER_SIZE + |Encode(items, Chunks(b)).bytes|, Raw(items[16 * Chunks(b)..]))
  }

  lemma ChunkBytesBound(e: Encoded, c: seq<Point>)
    requires |c| == 16
    ensures 3 <= |ChunkBytes(e, c)| <= 146 + 136
  {
    hide DeltaDelta.Chunk, Fcm.Chunk;
    DeltaDelta.ChunkBound(e.prev, Stamps(c));
    Fcm.ChunkBound(e.pred, Values(c));
  }

  lemma {:induction false} EncodeBound(items: seq<Point>, k: nat)
    requires 16 * k <= |items|
    ensures 3 * k <= |Encode(items, k).bytes| <= 282 * k
  {
    hide ChunkBytes, Fcm.UpdateAll;
    if k > 0 {
      EncodeBound(items, k - 1);
      ChunkBytesBound(Encode(items, k - 1), Run(items, k - 1));
    }
  }

  lemma RunPrefix(items: seq<Point>, more: seq<Point>, k: nat)
    requires 16 * k + 16 <= |items| <= |more| && more[..|items|] == items
    ensures Run(more, k) == Run(items, k)
  {
    assert more[16 * k..16 * k + 16] == more[..|items|][16 * k..16 * k + 16];
  }

  /** Only the first `k` runs matter. */
  lemma {:induction false} EncodePrefix(items: seq<Point>, more: seq<Point>, k: nat)
    requires 16 * k <= |items| <= |more| && more[..|items|] == items
    ensures Encode(more, k) == Encode(items, k)
  {
    hide AddChunk, Run;
    if k > 0 {
      EncodePrefix(items, more, k - 1);
      RunPrefix(items, more, k - 1);
    }
  }

  /** Run `j` sits right behind the encoding of the first `j` runs. */
  lemma {:induction false} ChunkInside(b: seq<u8>, items: seq<Point>, j: nat, k: nat)
    requires j < k && 16 * k <= |items|
    requires At(b, HEADER_SIZE, Encode(items, k).bytes)
    ensures At(b, HEADER_SIZE + |Encode(items, j).bytes|, ChunkBytes(Encode(items, j), Run(items, j)))
  {
    hide ChunkBytes, Fcm.UpdateAll, Run;
    var e := Encode(items, k - 1);
    AtConcat(b, HEADER_SIZE, e.bytes, ChunkBytes(e, Run(items, k - 1)));
    if j < k - 1 {
      ChunkInside(b, items, j, k - 1);
    }
  }

  // ----- The reader

  datatype Reader = Reader(v: VByte.State, d: DeltaDelta.State, f: Fcm.State, buffer: seq<u64>, index: nat)

  function Start(): Reader {
    Reader(VByte.State(HEADER_SIZE, 0, 0, 0), DeltaDelta.State(0, 0, 0), Fcm.State(Fcm.Fresh(), 0, 0, 0),
           seq(16, _ => 0), 0)
  }

  datatype Status = Ok(point: Point) | NoData | Fatal

  function ReadStamps(b: seq<u8>, d: DeltaDelta.State, s: VByte.State, n: nat)
    : (r: Option<(seq<u64>, DeltaDelta.State, VByte.State)>)
    ensures r.Some? ==> |r.value.0| == n
    decreases n
  {
    if n == 0 then Some(([], d, s))
    else match DeltaDelta.Next(b, d, s)
      case None => None
      case Some((t, d1, s1)) =>
        match ReadStamps(b, d1, s1, n - 1)
        case None => None
        case Some((ts, d2, s2)) => Some(([t] + ts, d2, s2))
  }

  function ReadRaw(b: seq<u8>, pos: nat): Option<u64> {
    if pos + 8 <= |b| then Some(FromBytes(b[pos..pos + 8])) else None
  }

  /** `DataBlockReader::next`; `Fatal` where a stream reader aborts. */
  function Next(b: seq<u8>, r: Reader): (Status, Reader)
    requires |b| >= HEADER_SIZE && |r.buffer| == 16
  {
    if r.index < 16 * Chunks(b) then
      if r.index % 16 != 0 then NextValue(b, r)
      else
        match ReadStamps(b, r.d, r.v, 16)
        case None => (Fatal, r)
        case Some((ts, d, v)) => NextValue(b, r.(d := d, v := v, buffer := ts))
    else if r.index < TotalSize(b) then
      NextRaw(b, r)
    else
      (NoData, r)
  }

  function NextValue(b: seq<u8>, r: Reader): (Status, Reader)
    requires |r.buffer| == 16
  {
    match Fcm.Next(b, r.f, r.v.pos)
    case None => (Fatal, r)
    case Some((x, f, pos)) =>
      (Ok(Point(r.buffer[r.index % 16], x)), r.(f := f, v := r.v.(pos := pos), index := r.index + 1))
  }

  function NextRaw(b: seq<u8>, r: Reader): (Status, Reader) {
    var t, x := ReadRaw(b, r.v.pos), ReadRaw(b, r.v.pos + 8);
    if t.None? || x.None? then (Fatal, r)
    else (Ok(Point(t.value, x.value)), r.(v := r.v.(pos := r.v.pos + 16), index := r.index + 1))
  }

  lemma {:induction false} StampsRead(b: seq<u8>, d: DeltaDelta.State, s: VByte.State, ts: seq<u64>,
                                      d': DeltaDelta.State, s': VByte.State)
    requires DeltaDelta.Reads(b, d, s, ts, d', s')
    ensures ReadStamps(b, d, s, |ts|) == Some((ts, d', s'))
    decreases |ts|
  {
    hide DeltaDelta.Next;
    if ts != [] {
      var r := DeltaDelta.Next(b, d, s).value;
      StampsRead(b, r.1, r.2, ts[1..], d', s');
      assert [ts[0]] + ts[1..] == ts;
    }
  }

  // ----- Reading a well-formed block

  /** At the boundary before run `k`: the codec states and the position are the writer's. */
  ghost predicate AtChunk(items: seq<Point>, k: nat, r: Reader)
    requires 16 * k <= |items|
  {
    && VByte.Idle(r.v) && Fcm.Idle(r.f) && r.d.counter % 16 == 0
    && r.d.prev == Encode(items, k).prev
    && r.f.pred == Encode(items, k).pred
    && r.v.pos == HEADER_SIZE + |Encode(items, k).bytes|
  }

  /** In run `k` with `j` of its values read: the timestamps are buffered, and reading the remaining
      values leads to the boundary `goal` behind the run. */
  ghost predicate InChunk(b: seq<u8>, items: seq<Point>, k: nat, j: nat, r: Reader, goal: Reader)
    requires j <= 16 && 16 * k + 16 <= |items|
  {
    && r.buffer == Stamps(Run(items, k))
    && Fcm.Reads(b, r.f, r.v.pos, Values(Run(items, k))[j..], goal.f, goal.v.pos)
    && goal == r.(f := goal.f, v := r.v.(pos := goal.v.pos), index := goal.index)
    && AtChunk(items, k + 1, goal)
  }

  /** The reader after `r.index` successful reads of the block. */
  ghost predicate Tracks(b: seq<u8>, items: seq<Point>, r: Reader, goal: Reader) {
    && Holds(b, items) && |r.buffer| == 16 && r.index <= |items|
    && if r.index >= 16 * Chunks(b) then
         r.v.pos == HEADER_SIZE + |Encode(items, Chunks(b)).bytes| + 16 * (r.index - 16 * Chunks(b))
       else
         RunBelow(r.index, Chunks(b));
         if r.index % 16 == 0 then AtChunk(items, r.index / 16, r)
         else InChunk(b, items, r.index / 16, r.index % 16, r, goal)
  }

  lemma RunBelow(i: nat, n: nat)
    requires i < 16 * n
    ensures 16 * (i / 16) + 16 <= 16 * n
  {}

  lemma TracksStart(b: seq<u8>, items: seq<Point>)
    requires Holds(b, items)
    ensures Tracks(b, items, Start(), Start())
  {
    hide U16, Raw, InChunk;
  }

  /** The boundary behind the run `c` that starts at `r`. */
  ghost function Boundary(r: Reader, c: seq<Point>): Reader
    requires |c| == 16
  {
    var (d, v) := DeltaDelta.AfterChunk(r.d, r.v, Stamps(c));
    Reader(v.(pos := v.pos + |Fcm.Chunk(r.f.pred, Values(c))|), d, Fcm.AfterChunk(r.f, Values(c)), Stamps(c), r.index)
  }

  lemma EnterStamps(b: seq<u8>, items: seq<Point>, k: nat, n: nat, r: Reader)
    requires k < n && 16 * n <= |items| && At(b, HEADER_SIZE, Encode(items, n).bytes)
    requires AtChunk(items, k, r)
    ensures var c := Run(items, k);
            var s := DeltaDelta.AfterChunk(r.d, r.v, Stamps(c));
            && ReadStamps(b, r.d, r.v, 16) == Some((Stamps(c), s.0, s.1))
            && At(b, s.1.pos, Fcm.Chunk(r.f.pred, Values(c)))
            && s.1.pos + |Fcm.Chunk(r.f.pred, Values(c))| == HEADER_SIZE + |Encode(items, k + 1).bytes|
  {
    hide DeltaDelta.Chunk, Fcm.Chunk, DeltaDelta.Reads, ReadStamps, Fcm.UpdateAll, DeltaDelta.AfterChunk;
    var c := Run(items, k);
    var e := Encode(items, k);
    ChunkInside(b, items, k, n);
    AtConcat(b, r.v.pos, DeltaDelta.Chunk(e.prev, Stamps(c)), Fcm.Chunk(e.pred, Values(c)));
    DeltaDelta.ReadsChunk(b, r.d, r.v, Stamps(c));
    var s := DeltaDelta.AfterChunk(r.d, r.v, Stamps(c));
    StampsRead(b, r.d, r.v, Stamps(c), s.0, s.1);
    assert Encode(items, k + 1) == AddChunk(e, c);
  }

  lemma EncodeStep(items: seq<Point>, k: nat)
    requires 16 * k + 16 <= |items|
    ensures Encode(items, k + 1).prev == Run(items, k)[15].ts
    ensures Encode(items, k + 1).pred == Fcm.UpdateAll(Encode(items, k).pred, Values(Run(items, k)))
  {
    hide ChunkBytes, Fcm.UpdateAll;
  }

  /** Reading the timestamps of a run puts the reader in it. */
  lemma EnterChunk(b: seq<u8>, items: seq<Point>, k: nat, n: nat, r: Reader)
    requires k < n && 16 * n <= |items| && At(b, HEADER_SIZE, Encode(items, n).bytes)
    requires AtChunk(items, k, r)
    ensures var c := Run(items, k);
            var s := DeltaDelta.AfterChunk(r.d, r.v, Stamps(c));
            && ReadStamps(b, r.d, r.v, 16) == Some((Stamps(c), s.0, s.1))
            && InChunk(b, items, k, 0, r.(d := s.0, v := s.1, buffer := Stamps(c)), Boundary(r, c))
  {
    hide DeltaDelta.Chunk, Fcm.Chunk, ReadStamps, Fcm.Reads, Fcm.UpdateAll, Fcm.AfterChunk, DeltaDelta.AfterChunk;
    hide Encode, Run;
    EnterStamps(b, items, k, n, r);
    var c := Run(items, k);
    var s := DeltaDelta.AfterChunk(r.d, r.v, Stamps(c));
    Fcm.ReadsChunk(b, r.f, s.1.pos, Values(c));
    EncodeStep(items, k);
    assert Values(c)[0..] == Values(c);
  }

  /** One value of a run. */
  lemma ValueStep(b: seq<u8>, items: seq<Point>, k: nat, j: nat, r: Reader, goal: Reader)
    requires j < 16 && 16 * k + 16 <= |items| && r.index == 16 * k + j
    requires InChunk(b, items, k, j, r, goal)
    ensures var (status, r') := NextValue(b, r);
            && status == Ok(items[r.index]) && r'.index == r.index + 1
            && InChunk(b, items, k, j + 1, r', goal)
  {
    hide Fcm.Next, AtChunk;
    var vs := Values(Run(items, k));
    assert vs[j..][0] == items[r.index].value && vs[j..][1..] == vs[j + 1..];
    assert r.index % 16 == j;
  }

  lemma LeaveChunk(b: seq<u8>, items: seq<Point>, k: nat, r: Reader, goal: Reader)
    requires 16 * k + 16 <= |items| && InChunk(b, items, k, 16, r, goal)
    ensures AtChunk(items, k + 1, r)
  {
    assert Values(Run(items, k))[16..] == [];
  }

  lemma {:induction false} RawInside(b: seq<u8>, pos: nat, items: seq<Point>, i: nat)
    requires At(b, pos, Raw(items)) && i < |items|
    ensures At(b, pos + 16 * i, RawPoint(items[i]))
    decreases i
  {
    hide RawPoint;
    AtConcat(b, pos, RawPoint(items[0]), Raw(items[1..]));
    if i > 0 {
      RawInside(b, pos + 16, items[1..], i - 1);
    }
  }

  lemma RawBack(b: seq<u8>, pos: nat, p: Point)
    requires At(b, pos, RawPoint(p))
    ensures ReadRaw(b, pos) == Some(p.ts) && ReadRaw(b, pos + 8) == Some(p.value)
  {
    AtConcat(b, pos, ToBytes(p.ts, 8), ToBytes(p.value, 8));
    WidthAtMost8(p.ts);
    WidthAtMost8(p.value);
    BytesRoundTrip(p.ts, 8);
    BytesRoundTrip(p.value, 8);
  }

  lemma HoldsParts(b: seq<u8>, items: seq<Point>)
    requires Holds(b, items)
    ensures |b| >= HEADER_SIZE && 16 * Chunks(b) <= TotalSize(b) == |items|
    ensures At(b, HEADER_SIZE, Encode(items, Chunks(b)).bytes)
  {
    hide Encode, Raw, At, U16;
  }

  /** One read inside run `k`. */
  lemma ReadInChunk(b: seq<u8>, items: seq<Point>, k: nat, j: nat, r: Reader, goal: Reader) returns (goal': Reader)
    requires |b| >= HEADER_SIZE && |r.buffer| == 16 && k < Chunks(b) && 16 * Chunks(b) <= |items|
    requires At(b, HEADER_SIZE, Encode(items, Chunks(b)).bytes)
    requires j < 16 && r.index == 16 * k + j
    requires if j == 0 then AtChunk(items, k, r) else InChunk(b, items, k, j, r, goal)
    ensures Next(b, r).0 == Ok(items[r.index]) && Next(b, r).1.index == r.index + 1 && |Next(b, r).1.buffer| == 16
    ensures if j == 15 then AtChunk(items, k + 1, Next(b, r).1) else InChunk(b, items, k, j + 1, Next(b, r).1, goal')
  {
    hide ReadStamps, NextValue, Encode, DeltaDelta.AfterChunk, Fcm.AfterChunk, AtChunk, InChunk, Chunks, Boundary;
    hide Run, Stamps, At;
    assert r.index % 16 == j;
    goal' := goal;
    var r1 := r;
    if j == 0 {
      EnterChunk(b, items, k, Chunks(b), r);
      var c := Run(items, k);
      var s := DeltaDelta.AfterChunk(r.d, r.v, Stamps(c));
      r1 := r.(d := s.0, v := s.1, buffer := Stamps(c));
      goal' := Boundary(r, c);
    }
    ValueStep(b, items, k, j, r1, goal');
    var r' := NextValue(b, r1).1;
    assert Next(b, r).1 == r';
    InChunkBuffer(b, items, k, j + 1, r', goal');
    if j == 15 {
      LeaveChunk(b, items, k, r', goal');
    }
  }

  lemma NextInMain(b: seq<u8>, items: seq<Point>, r: Reader, goal: Reader) returns (goal': Reader)
    requires Tracks(b, items, r, goal) && r.index < 16 * Chunks(b)
    ensures Next(b, r).0 == Ok(items[r.index]) && Next(b, r).1.index == r.index + 1
    ensures Tracks(b, items, Next(b, r).1, goal')
  {
    hide Next, Encode, AtChunk, InChunk, Holds, At, Chunks;
    HoldsParts(b, items);
    var k, j := r.index / 16, r.index % 16;
    goal' := ReadInChunk(b, items, k, j, r, goal);
    if j == 15 {
      AtChunkPos(items, k + 1, Next(b, r).1);
    }
  }

  lemma InChunkBuffer(b: seq<u8>, items: seq<Point>, k: nat, j: nat, r: Reader, goal: Reader)
    requires j <= 16 && 16 * k + 16 <= |items| && InChunk(b, items, k, j, r, goal)
    ensures |r.buffer| == 16
  {}

  lemma AtChunkPos(items: seq<Point>, k: nat, r: Reader)
    requires 16 * k <= |items| && AtChunk(items, k, r)
    ensures r.v.pos == HEADER_SIZE + |Encode(items, k).bytes|
  {}

  lemma NextInTail(b: seq<u8>, items: seq<Point>, r: Reader, goal: Reader)
    requires Tracks(b, items, r, goal) && 16 * Chunks(b) <= r.index < |items|
    ensures Next(b, r).0 == Ok(items[r.index]) && Next(b, r).1.index == r.index + 1
    ensures Tracks(b, items, Next(b, r).1, goal)
  {
    hide ReadRaw, Encode, U16, Raw, RawPoint, AtChunk, InChunk;
    var main := 16 * Chunks(b);
    RawInside(b, HEADER_SIZE + |Encode(items, Chunks(b)).bytes|, items[main..], r.index - main);
    RawBack(b, r.v.pos, items[r.index]);
  }

  // ----- Whole blocks

  /** The points read until the first `NoData` or `Fatal`, at most `n`, and the status that ended it. */
  function ReadAll(b: seq<u8>, r: Reader, n: nat): (seq<Point>, Status)
    requires |b| >= HEADER_SIZE && |r.buffer| == 16
    decreases n
  {
    var (status, r') := Next(b, r);
    if n == 0 || !status.Ok? then ([], status)
    else
      var (ps, last) := ReadAll(b, r', n - 1);
      ([status.point] + ps, last)
  }

  lemma TracksBasics(b: seq<u8>, items: seq<Point>, r: Reader, goal: Reader)
    requires Tracks(b, items, r, goal)
    ensures |r.buffer| == 16 && |b| >= HEADER_SIZE && r.index <= |items|
    ensures r.index == |items| ==> Next(b, r) == (NoData, r)
  {
    hide Encode, AtChunk, InChunk;
  }

  lemma ReadAllEnd(b: seq<u8>, r: Reader)
    requires |b| >= HEADER_SIZE && |r.buffer| == 16
    ensures ReadAll(b, r, 0) == ([], Next(b, r).0)
  {
    hide Next;
  }

  lemma ReadAllStep(b: seq<u8>, r: Reader, n: nat)
    requires |b| >= HEADER_SIZE && |r.buffer| == 16 && n > 0 && Next(b, r).0.Ok? && |Next(b, r).1.buffer| == 16
    ensures var (ps, last) := ReadAll(b, Next(b, r).1, n - 1);
            ReadAll(b, r, n) == ([Next(b, r).0.point] + ps, last)
  {
    hide Next;
  }

  lemma {:induction false} ReadAllTracks(b: seq<u8>, items: seq<Point>, r: Reader, goal: Reader)
    requires Tracks(b, items, r, goal)
    ensures |r.buffer| == 16 && |b| >= HEADER_SIZE && r.index <= |items|
    ensures ReadAll(b, r, |items| - r.index) == (items[r.index..], NoData)
    decreases |items| - r.index
  {
    hide Next, Tracks, Chunks, ReadAll;
    TracksBasics(b, items, r, goal);
    ReadAllEnd(b, r);
    if r.index < |items| {
      var goal' := goal;
      if r.index < 16 * Chunks(b) {
        goal' := NextInMain(b, items, r, goal);
      } else {
        NextInTail(b, items, r, goal);
      }
      var r' := Next(b, r).1;
      ReadAllTracks(b, items, r', goal');
      ReadAllStep(b, r, |items| - r.index);
      assert [items[r.index]] + items[r.index + 1..] == items[r.index..];
    }
  }

  /** A block that stores `items` reads back as exactly `items`, in order, followed by `NoData`. */
  lemma HoldsReadsBack(b: seq<u8>, items: seq<Point>)
    requires Holds(b, items)
    ensures ReadAll(b, Start(), |items|) == (items, NoData)
  {
    hide ReadAll, Tracks, Holds;
    TracksStart(b, items);
    ReadAllTracks(b, items, Start(), Start());
    assert items[0..] == items;
  }
}
