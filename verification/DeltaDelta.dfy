/** Timestamps: delta, then minus the chunk minimum, then VByte
    (`DeltaDeltaStreamWriter<16, u64>` and `DeltaDeltaStreamReader<16, u64>`). */
module DeltaDelta {
  import opened Bits
  import Leb128
  import VByte

  // ----- What the writer lays down

  function Minus(x: u64, y: u64): u64 { x - y }

  /** Differences to the previous timestamp; they wrap when time runs backwards. */
  function Deltas(prev: u64, ts: seq<u64>): (ds: seq<u64>)
    ensures |ds| == |ts|
    decreases |ts|
  {
    if ts == [] then [] else [Minus(ts[0], prev)] + Deltas(ts[0], ts[1..])
  }

  function Lesser(x: u64, y: u64): u64 { if x as nat < y as nat then x else y }

  function MinOf(m: u64, xs: seq<u64>): u64
    decreases |xs|
  {
    if xs == [] then m else MinOf(Lesser(xs[0], m), xs[1..])
  }

  function Residues(xs: seq<u64>, m: u64): (ys: seq<u64>)
    ensures |ys| == |xs|
  {
    if xs == [] then [] else [Minus(xs[0], m)] + Residues(xs[1..], m)
  }

  function ChunkMin(prev: u64, ts: seq<u64>): u64
    requires |ts| == 16
  {
    MinOf(Minus(ts[0], prev), Deltas(prev, ts))
  }

  function ChunkResidues(prev: u64, ts: seq<u64>): (ys: seq<u64>)
    requires |ts| == 16
    ensures |ys| == 16
  {
    Residues(Deltas(prev, ts), ChunkMin(prev, ts))
  }

  function Chunk(prev: u64, ts: seq<u64>): seq<u8>
    requires |ts| == 16
  {
    Leb128.Put(ChunkMin(prev, ts)) + VByte.Chunk(ChunkResidues(prev, ts))
  }

  predicate AtMost(x: u64, y: u64) { x as nat <= y as nat }

  lemma LesserIs(x: u64, y: u64)
    ensures AtMost(Lesser(x, y), x) && AtMost(Lesser(x, y), y) && (Lesser(x, y) == x || Lesser(x, y) == y)
    ensures AtMost(x, x)
  {}

  lemma AtMostBoth(x: u64, y: u64, z: u64)
    requires AtMost(x, y) && AtMost(y, z)
    ensures AtMost(x, z)
  {}

  lemma {:induction false} LeastOf(m: u64, xs: seq<u64>)
    ensures AtMost(MinOf(m, xs), m) && forall i :: 0 <= i < |xs| ==> AtMost(MinOf(m, xs), xs[i])
    ensures MinOf(m, xs) == m || MinOf(m, xs) in xs
    decreases |xs|
  {
    hide AtMost, Lesser;
    LesserIs(m, m);
    if xs != [] {
      var l := Lesser(xs[0], m);
      LesserIs(xs[0], m);
      LeastOf(l, xs[1..]);
      AtMostBoth(MinOf(m, xs), l, m);
      AtMostBoth(MinOf(m, xs), l, xs[0]);
      forall i | 0 <= i < |xs| ensures AtMost(MinOf(m, xs), xs[i]) {
        if i > 0 {
          assert xs[i] == xs[1..][i - 1];
        }
      }
    }
  }

  /** What is taken off every difference of a chunk is the least of them. */
  lemma ChunkMinIsLeast(prev: u64, ts: seq<u64>)
    requires |ts| == 16
    ensures var (m, ds) := (ChunkMin(prev, ts), Deltas(prev, ts));
            m in ds && forall i :: 0 <= i < |ds| ==> AtMost(m, ds[i])
  {
    hide Minus, MinOf, AtMost, Lesser;
    LeastOf(Minus(ts[0], prev), Deltas(prev, ts));
    assert Deltas(prev, ts)[0] == Minus(ts[0], prev);
  }

  lemma ChunkBound(prev: u64, ts: seq<u64>)
    requires |ts| == 16
    ensures 2 <= |Chunk(prev, ts)| <= 146
  {
    Leb128.PutAtMost10(ChunkMin(prev, ts));
    VByte.ChunkBound(ChunkResidues(prev, ts));
  }

  // ----- The reader

  datatype State = State(prev: u64, min: u64, counter: nat)

  function Value(prev: u64, delta: u64, min: u64): u64 { prev + delta + min }

  lemma ValueCancels(prev: u64, t: u64, min: u64)
    ensures Value(prev, t - prev - min, min) == t
  {}

  lemma MinusMinus(prev: u64, t: u64, min: u64)
    ensures Minus(t - prev, min) == t - prev - min
  {}

  lemma ValueOfResidue(prev: u64, t: u64, min: u64)
    ensures Value(prev, Minus(Minus(t, prev), min), min) == t
  {
    ValueCancels(prev, t, min);
    MinusMinus(prev, t, min);
  }

  function Step(b: seq<u8>, d: State, s: VByte.State): Option<(u64, State, VByte.State)> {
    match VByte.Next(b, s)
    case None => None
    case Some((delta, s')) =>
      var v := Value(d.prev, delta, d.min);
      Some((v, State(v, d.min, d.counter + 1), s'))
  }

  function Next(b: seq<u8>, d: State, s: VByte.State): Option<(u64, State, VByte.State)> {
    if d.counter % 16 != 0 then Step(b, d, s)
    else if s.pos > |b| then None
    else match Leb128.Get(b, s.pos)
      case None => None
      case Some((m, p)) => Step(b, d.(min := m), s.(pos := p))
  }

  /** Reading on from `(d, s)` yields exactly `ts` and leaves the readers in `(d', s')`. */
  ghost predicate Reads(b: seq<u8>, d: State, s: VByte.State, ts: seq<u64>, d': State, s': VByte.State)
    decreases |ts|
  {
    if ts == [] then d' == d && s' == s
    else
      var r := Next(b, d, s);
      r.Some? && r.value.0 == ts[0] && Reads(b, r.value.1, r.value.2, ts[1..], d', s')
  }

  lemma ResidueHead(prev: u64, ts: seq<u64>, m: u64)
    requires ts != []
    ensures Residues(Deltas(prev, ts), m)[0] == Minus(Minus(ts[0], prev), m)
    ensures Residues(Deltas(prev, ts), m)[1..] == Residues(Deltas(ts[0], ts[1..]), m)
  {
    hide Minus;
    assert Deltas(prev, ts)[1..] == Deltas(ts[0], ts[1..]);
  }

  lemma {:induction false} ReadsRest(b: seq<u8>, d: State, s: VByte.State, ts: seq<u64>, s': VByte.State)
    requires ts != [] ==> 0 < d.counter % 16 && d.counter % 16 + |ts| <= 16
    requires VByte.Reads(b, s, Residues(Deltas(d.prev, ts), d.min), s')
    ensures Reads(b, d, s, ts, State(if ts == [] then d.prev else ts[|ts| - 1], d.min, d.counter + |ts|), s')
    decreases |ts|
  {
    hide VByte.Next, Minus, Value, Deltas, Residues;
    if ts != [] {
      var s1 := VByte.Next(b, s).value.1;
      ResidueHead(d.prev, ts, d.min);
      ValueOfResidue(d.prev, ts[0], d.min);
      var d1 := State(ts[0], d.min, d.counter + 1);
      assert Next(b, d, s) == Some((ts[0], d1, s1));
      ReadsRest(b, d1, s1, ts[1..], s');
    }
  }

  function AfterChunk(d: State, s: VByte.State, ts: seq<u64>): (r: (State, VByte.State))
    requires |ts| == 16
    ensures r.0.prev == ts[15] && r.0.counter == d.counter + 16
    ensures VByte.Idle(s) ==> VByte.Idle(r.1)
    ensures r.1.pos == s.pos + |Chunk(d.prev, ts)|
  {
    var m := ChunkMin(d.prev, ts);
    var s1 := s.(pos := s.pos + |Leb128.Put(m)|);
    (State(ts[15], m, d.counter + 16), VByte.AfterChunk(s1, ChunkResidues(d.prev, ts)))
  }

  /** Reading a chunk from the `prev` it was written with gives its timestamps back, however they
      are ordered, and ends both readers where the writer ended. */
  lemma ReadsChunk(b: seq<u8>, d: State, s: VByte.State, ts: seq<u64>)
    requires |ts| == 16 && d.counter % 16 == 0 && VByte.Idle(s)
    requires At(b, s.pos, Chunk(d.prev, ts))
    ensures Reads(b, d, s, ts, AfterChunk(d, s, ts).0, AfterChunk(d, s, ts).1)
  {
    hide VByte.Next, VByte.Chunk, VByte.Reads, Reads, Leb128.Get, Leb128.Put, ChunkMin;
    var m := ChunkMin(d.prev, ts);
    var xs := ChunkResidues(d.prev, ts);
    AtConcat(b, s.pos, Leb128.Put(m), VByte.Chunk(xs));
    Leb128.GetPut(b, s.pos, m);
    var s1 := s.(pos := s.pos + |Leb128.Put(m)|);
    VByte.ReadsChunk(b, s1, xs);
    ReadsAfterMin(b, d, s, s1, ts, m, VByte.AfterChunk(s1, xs));
  }

  lemma ReadsAfterMin(b: seq<u8>, d: State, s: VByte.State, s1: VByte.State, ts: seq<u64>, m: u64, s': VByte.State)
    requires |ts| == 16 && d.counter % 16 == 0 && s.pos <= |b|
    requires Leb128.Get(b, s.pos) == Some((m, s1.pos)) && s1 == s.(pos := s1.pos)
    requires VByte.Reads(b, s1, Residues(Deltas(d.prev, ts), m), s')
    ensures Reads(b, d, s, ts, State(ts[15], m, d.counter + 16), s')
  {
    hide VByte.Next, Leb128.Get, Minus, Value, Deltas, Residues, Next, VByte.Reads, Reads, Step;
    ResidueHead(d.prev, ts, m);
    VByte.ReadsHead(b, s1, Residues(Deltas(d.prev, ts), m), s');
    var s2 := VByte.Next(b, s1).value.1;
    ValueOfResidue(d.prev, ts[0], m);
    var d1 := State(ts[0], m, d.counter + 1);
    NextAfterMin(b, d, s, s1, m);
    ReadsFifteen(b, d, d1, s2, ts[1..], s');
    ReadsCons(b, d, s, ts, State(ts[15], m, d.counter + 16), s');
  }

  lemma ReadsFifteen(b: seq<u8>, d: State, d1: State, s: VByte.State, rest: seq<u64>, s': VByte.State)
    requires |rest| == 15 && d.counter % 16 == 0 && d1.counter == d.counter + 1
    requires VByte.Reads(b, s, Residues(Deltas(d1.prev, rest), d1.min), s')
    ensures Reads(b, d1, s, rest, State(rest[14], d1.min, d.counter + 16), s')
  {
    hide VByte.Reads, Deltas, Residues, Reads;
    assert d1.counter % 16 == 1;
    ReadsRest(b, d1, s, rest, s');
  }

  lemma NextAfterMin(b: seq<u8>, d: State, s: VByte.State, s1: VByte.State, m: u64)
    requires d.counter % 16 == 0 && s.pos <= |b|
    requires Leb128.Get(b, s.pos) == Some((m, s1.pos)) && s1 == s.(pos := s1.pos) && VByte.Next(b, s1).Some?
    ensures var (delta, s2) := VByte.Next(b, s1).value;
            var v := Value(d.prev, delta, m);
            Next(b, d, s) == Some((v, State(v, m, d.counter + 1), s2))
  {
    hide VByte.Next, Leb128.Get, Value;
  }

  lemma ReadsCons(b: seq<u8>, d: State, s: VByte.State, ts: seq<u64>, d': State, s': VByte.State)
    requires ts != [] && Next(b, d, s).Some? && Next(b, d, s).value.0 == ts[0]
    requires Reads(b, Next(b, d, s).value.1, Next(b, d, s).value.2, ts[1..], d', s')
    ensures Reads(b, d, s, ts, d', s')
  {
    hide Next;
  }
}
