/** The paired VByte layout and the state machine that reads it back
    (`VByteStreamWriter` and `VByteStreamReader`). */
module VByte {
  import opened Bits

  const CHUNK_SIZE := 16

  const SHORTCUT: u8 := 0xFF

  // ----- What the writer lays down

  /** Control byte: byte count of the first value in the low nibble, of the second in the high one. */
  function Ctrl(fst: nat, snd: nat): u8
    requires fst <= 8 && snd <= 8
  {
    (fst as u8) | ((snd as u8) << 4)
  }

  function LowNibble(c: u8): nat { (c & 0xF) as nat }

  function HighNibble(c: u8): nat { (c >> 4) as nat }

  /** An ordinary control byte splits back into its counts and never looks like a shortcut. */
  lemma CtrlNibbles(fst: nat, snd: nat)
    requires fst <= 8 && snd <= 8
    ensures LowNibble(Ctrl(fst, snd)) == fst && HighNibble(Ctrl(fst, snd)) == snd
    ensures Ctrl(fst, snd) != SHORTCUT
  {}

  lemma ShortcutNibbles()
    ensures HighNibble(SHORTCUT) == 15
  {}

  function Pair(x: u64, y: u64): seq<u8> {
    ByteLengthIsWidth(x);
    ByteLengthIsWidth(y);
    [Ctrl(ByteLength(x), ByteLength(y))] + ToBytes(x, ByteLength(x)) + ToBytes(y, ByteLength(y))
  }

  function Pairs(xs: seq<u64>): seq<u8>
    requires |xs| % 2 == 0
  {
    if xs == [] then [] else Pair(xs[0], xs[1]) + Pairs(xs[2..])
  }

  predicate AllZero(xs: seq<u64>) {
    forall i :: 0 <= i < |xs| ==> xs[i] == 0
  }

  function Chunk(xs: seq<u64>): seq<u8>
    requires |xs| % 2 == 0
  {
    if AllZero(xs) then [SHORTCUT] else Pairs(xs)
  }

  lemma PairExample()
    ensures Pair(0x0102, 5) == [0x12, 0x02, 0x01, 0x05]
  {
    assert Hi(0x0102) == 1 && Hi(1) == 0 && Hi(5) == 0 && Low(0x0102) == 2 && Low(1) == 1 && Low(5) == 5;
    assert Width(1) == 1 && Width(0x0102) == 2 && Width(5) == 1;
    ByteLengthIsWidth(0x0102);
    ByteLengthIsWidth(5);
    assert Ctrl(2, 1) == 0x12;
    assert ToBytes(1, 1) == [1] && ToBytes(0x0102, 2) == [2, 1] && ToBytes(5, 1) == [5];
  }

  /** A pair takes its control byte and the significant bytes of both numbers. */
  lemma PairLength(x: u64, y: u64)
    ensures |Pair(x, y)| == 1 + Width(x) + Width(y)
  {
    ByteLengthIsWidth(x);
    ByteLengthIsWidth(y);
  }

  lemma {:induction false} PairsBound(xs: seq<u64>)
    requires |xs| % 2 == 0
    ensures |xs| <= 2 * |Pairs(xs)| <= 17 * |xs|
  {
    if xs != [] {
      ByteLengthIsWidth(xs[0]);
      ByteLengthIsWidth(xs[1]);
      PairsBound(xs[2..]);
    }
  }

  lemma ChunkBound(xs: seq<u64>)
    requires |xs| == CHUNK_SIZE
    ensures 1 <= |Chunk(xs)| <= 136
  {
    PairsBound(xs);
  }

  // ----- The reader

  datatype State = State(pos: nat, cnt: nat, ctrl: u8, scut: nat)

  /** Between chunks: an even count and no shortcut elements left to hand out. */
  predicate Idle(s: State) {
    s.cnt % 2 == 0 && s.scut == 0
  }

  function ReadBytes(b: seq<u8>, s: State, n: nat): Option<(u64, State)> {
    if s.pos + n <= |b| then Some((FromBytes(b[s.pos..s.pos + n]), s.(pos := s.pos + n))) else None
  }

  /** One value, or `None` where the reader aborts with "out of bounds". */
  function Next(b: seq<u8>, s: State): Option<(u64, State)> {
    if s.ctrl == SHORTCUT && s.scut > 0 then
      Some((0, s.(cnt := s.cnt + 1, scut := s.scut - 1)))
    else if s.cnt % 2 == 0 then
      if s.pos >= |b| then None
      else
        var s' := State(s.pos + 1, s.cnt + 1, b[s.pos], s.scut);
        if HighNibble(s'.ctrl) == 0xF then Some((0, s'.(scut := CHUNK_SIZE - 1)))
        else ReadBytes(b, s', LowNibble(s'.ctrl))
    else
      ReadBytes(b, s.(cnt := s.cnt + 1), HighNibble(s.ctrl))
  }

  /** Reading on from `s` yields exactly `xs` and leaves the reader in `s'`. */
  ghost predicate Reads(b: seq<u8>, s: State, xs: seq<u64>, s': State)
    decreases |xs|
  {
    if xs == [] then s' == s
    else
      var r := Next(b, s);
      r.Some? && r.value.0 == xs[0] && Reads(b, r.value.1, xs[1..], s')
  }

  lemma ReadsHead(b: seq<u8>, s: State, xs: seq<u64>, s': State)
    requires Reads(b, s, xs, s') && xs != []
    ensures var r := Next(b, s); r.Some? && r.value.0 == xs[0] && Reads(b, r.value.1, xs[1..], s')
  {
    hide Next;
  }

  lemma {:induction false} ReadsAppend(b: seq<u8>, s: State, xs: seq<u64>, s1: State, ys: seq<u64>, s2: State)
    requires Reads(b, s, xs, s1) && Reads(b, s1, ys, s2)
    ensures Reads(b, s, xs + ys, s2)
    decreases |xs|
  {
    if xs == [] {
      assert xs + ys == ys;
    } else {
      ReadsAppend(b, Next(b, s).value.1, xs[1..], s1, ys, s2);
      assert (xs + ys)[0] == xs[0] && (xs + ys)[1..] == xs[1..] + ys;
    }
  }

  lemma ReadBytesBack(b: seq<u8>, s: State, x: u64)
    requires At(b, s.pos, ToBytes(x, ByteLength(x)))
    ensures ReadBytes(b, s, ByteLength(x)) == Some((x, s.(pos := s.pos + ByteLength(x))))
  {
    ByteLengthIsWidth(x);
    BytesRoundTrip(x, ByteLength(x));
  }

  lemma PairParts(b: seq<u8>, pos: nat, x: u64, y: u64)
    requires At(b, pos, Pair(x, y))
    ensures ByteLength(x) <= 8 && ByteLength(y) <= 8
    ensures pos < |b| && b[pos] == Ctrl(ByteLength(x), ByteLength(y))
    ensures At(b, pos + 1, ToBytes(x, ByteLength(x)))
    ensures At(b, pos + 1 + ByteLength(x), ToBytes(y, ByteLength(y)))
  {
    hide ByteLength, ToBytes, Ctrl, Width;
    ByteLengthIsWidth(x);
    ByteLengthIsWidth(y);
    var m, n := ByteLength(x), ByteLength(y);
    var c := Ctrl(m, n);
    AtConcat(b, pos, [c] + ToBytes(x, m), ToBytes(y, n));
    AtConcat(b, pos, [c], ToBytes(x, m));
    assert b[pos] == b[pos..pos + 1][0] == c;
  }

  lemma PairFirst(b: seq<u8>, s: State, x: u64, y: u64)
    requires Idle(s) && At(b, s.pos, Pair(x, y))
    ensures ByteLength(x) <= 8 && ByteLength(y) <= 8
    ensures Next(b, s) ==
            Some((x, State(s.pos + 1 + ByteLength(x), s.cnt + 1, Ctrl(ByteLength(x), ByteLength(y)), 0)))
  {
    PairParts(b, s.pos, x, y);
    CtrlNibbles(ByteLength(x), ByteLength(y));
    ReadBytesBack(b, State(s.pos + 1, s.cnt + 1, b[s.pos], 0), x);
  }

  lemma PairSecond(b: seq<u8>, s: State, x: u64, y: u64)
    requires s.cnt % 2 == 1 && s.scut == 0
    requires ByteLength(x) <= 8 && ByteLength(y) <= 8 && s.ctrl == Ctrl(ByteLength(x), ByteLength(y))
    requires At(b, s.pos, ToBytes(y, ByteLength(y)))
    ensures Next(b, s) == Some((y, s.(pos := s.pos + ByteLength(y), cnt := s.cnt + 1)))
  {
    CtrlNibbles(ByteLength(x), ByteLength(y));
    ReadBytesBack(b, s.(cnt := s.cnt + 1), y);
  }

  /** Where a chunk's pairs leave the reader. */
  function AfterPair(s: State, x: u64, y: u64): State {
    ByteLengthIsWidth(x);
    ByteLengthIsWidth(y);
    State(s.pos + |Pair(x, y)|, s.cnt + 2, Ctrl(ByteLength(x), ByteLength(y)), 0)
  }

  lemma ReadsPair(b: seq<u8>, s: State, x: u64, y: u64)
    requires Idle(s) && At(b, s.pos, Pair(x, y))
    ensures Reads(b, s, [x, y], AfterPair(s, x, y))
  {
    hide Next, Ctrl, ByteLength, ToBytes;
    PairFirst(b, s, x, y);
    PairParts(b, s.pos, x, y);
    var s1 := State(s.pos + 1 + ByteLength(x), s.cnt + 1, Ctrl(ByteLength(x), ByteLength(y)), 0);
    PairSecond(b, s1, x, y);
    assert [x, y][1..] == [y] && [y][1..] == [];
    assert Reads(b, AfterPair(s, x, y), [], AfterPair(s, x, y));
    assert Reads(b, s1, [y], AfterPair(s, x, y));
  }

  function AfterPairs(s: State, xs: seq<u64>): (s': State)
    requires |xs| % 2 == 0
    ensures Idle(s) ==> Idle(s')
    ensures s'.pos == s.pos + |Pairs(xs)|
    decreases |xs|
  {
    if xs == [] then s else AfterPairs(AfterPair(s, xs[0], xs[1]), xs[2..])
  }

  lemma {:induction false} ReadsPairs(b: seq<u8>, s: State, xs: seq<u64>)
    requires |xs| % 2 == 0 && Idle(s) && At(b, s.pos, Pairs(xs))
    ensures Reads(b, s, xs, AfterPairs(s, xs))
    decreases |xs|
  {
    hide Next, Ctrl, ByteLength, Pair;
    if xs != [] {
      var s1 := AfterPair(s, xs[0], xs[1]);
      AtConcat(b, s.pos, Pair(xs[0], xs[1]), Pairs(xs[2..]));
      ReadsPair(b, s, xs[0], xs[1]);
      ReadsPairs(b, s1, xs[2..]);
      ReadsAppend(b, s, [xs[0], xs[1]], s1, xs[2..], AfterPairs(s1, xs[2..]));
      assert [xs[0], xs[1]] + xs[2..] == xs;
    }
  }

  lemma {:induction false} ReadsZeros(b: seq<u8>, s: State, xs: seq<u64>)
    requires s.ctrl == SHORTCUT && s.scut >= |xs| && AllZero(xs)
    ensures Reads(b, s, xs, s.(cnt := s.cnt + |xs|, scut := s.scut - |xs|))
    decreases |xs|
  {
    if xs != [] {
      ReadsZeros(b, s.(cnt := s.cnt + 1, scut := s.scut - 1), xs[1..]);
    }
  }

  function AfterChunk(s: State, xs: seq<u64>): (s': State)
    requires |xs| == CHUNK_SIZE
    ensures Idle(s) ==> Idle(s')
    ensures s'.pos == s.pos + |Chunk(xs)|
  {
    if AllZero(xs) then State(s.pos + 1, s.cnt + 16, SHORTCUT, 0) else AfterPairs(s, xs)
  }

  /** Reading a chunk gives its values back, ends where the chunk ends, and is idle again. */
  lemma ReadsChunk(b: seq<u8>, s: State, xs: seq<u64>)
    requires |xs| == CHUNK_SIZE && Idle(s) && At(b, s.pos, Chunk(xs))
    ensures Reads(b, s, xs, AfterChunk(s, xs))
  {
    hide Ctrl, ByteLength, Pair, FromBytes;
    if AllZero(xs) {
      assert b[s.pos] == b[s.pos..s.pos + 1][0] == SHORTCUT;
      ShortcutNibbles();
      var s1 := State(s.pos + 1, s.cnt + 1, SHORTCUT, 15);
      assert Next(b, s) == Some((0, s1));
      ReadsZeros(b, s1, xs[1..]);
    } else {
      ReadsPairs(b, s, xs);
    }
  }
}
