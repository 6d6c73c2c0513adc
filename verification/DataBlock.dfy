/** `DataBlockWriter`: two stateful codecs appending to one bounded block, with an uncompressed tail. */
module DataBlock {
  import opened Bits
  import DeltaDelta
  import Fcm
  import opened BlockFormat
  import opened StreamWriters

  const VERSION: u64 := 101

  /** `MARGIN`: 10 * 16 + 9 * 16. */
  const MARGIN := 304

  lemma {:induction false} RawConcat(xs: seq<Point>, ys: seq<Point>)
    ensures Raw(xs + ys) == Raw(xs) + Raw(ys)
    decreases |xs|
  {
    hide RawPoint;
    if xs == [] {
      assert xs + ys == ys;
    } else {
      assert (xs + ys)[0] == xs[0] && (xs + ys)[1..] == xs[1..] + ys;
      RawConcat(xs[1..], ys);
    }
  }

  lemma RawSnoc(xs: seq<Point>, p: Point)
    ensures Raw(xs + [p]) == Raw(xs) + RawPoint(p)
  {
    hide RawPoint;
    RawConcat(xs, [p]);
    assert [p][1..] == [];
    assert Raw([p]) == RawPoint(p) + Raw([]);
  }

  lemma AtKept(b0: seq<u8>, b1: seq<u8>, pos: nat, x: seq<u8>, end: nat)
    requires At(b0, pos, x) && pos + |x| <= end <= |b0| == |b1| && b1[..end] == b0[..end]
    ensures At(b1, pos, x)
  {
    assert b1[pos..pos + |x|] == b1[..end][pos..pos + |x|];
    assert b0[pos..pos + |x|] == b0[..end][pos..pos + |x|];
  }

  /** The compressed part of the block, with the codec states that go with it. */
  ghost predicate Compressed(b: seq<u8>, items: seq<Point>, k: nat, prev: u64, pred: Fcm.Predictor)
    requires 16 * k <= |items|
  {
    At(b, HEADER_SIZE, Encode(items, k).bytes) && prev == Encode(items, k).prev && pred == Encode(items, k).pred
  }

  ghost function MainEnd(items: seq<Point>, k: nat): nat
    requires 16 * k <= |items|
  {
    HEADER_SIZE + |Encode(items, k).bytes|
  }

  /** Chunk `k` gets written: its points arrive, and there is room for it when the first of them does. */
  ghost predicate ChunkFits(size: nat, items: seq<Point>, k: nat) {
    16 * k + 16 <= |items| && size - MainEnd(items, k) >= MARGIN
  }

  /** How many chunks a block of `size` bytes takes from `items`, from chunk `k` on. */
  ghost function ChunkCount(size: nat, items: seq<Point>, k: nat := 0): (n: nat)
    requires 16 * k <= |items|
    ensures 16 * n <= |items|
    decreases |items| - 16 * k
  {
    if ChunkFits(size, items, k) then ChunkCount(size, items, k + 1) else k
  }

  /** How many of `items` a block of `size` bytes takes: chunks first, then 16 bytes for each point. */
  ghost function Capacity(size: nat, items: seq<Point>): int {
    var k := ChunkCount(size, items);
    var free := size - MainEnd(items, k);
    if free >= MARGIN || 16 * k + free / 16 >= |items| then |items| else 16 * k + free / 16
  }

  /** There was room for the last of `k` chunks. */
  ghost predicate Paid(size: nat, items: seq<Point>, k: nat)
    requires 16 * k <= |items|
  {
    k > 0 ==> size - MainEnd(items, k - 1) >= MARGIN
  }

  lemma PaidMore(size: nat, items: seq<Point>, more: seq<Point>, k: nat)
    requires 16 * k <= |items| <= |more| && more[..|items|] == items && Paid(size, items, k)
    ensures Paid(size, more, k)
  {
    hide Encode;
    if k > 0 {
      EncodePrefix(items, more, k - 1);
    }
  }

  lemma {:induction false} MainEndGrows(items: seq<Point>, j: nat, k: nat)
    requires j <= k && 16 * k <= |items|
    ensures MainEnd(items, j) + 3 * (k - j) <= MainEnd(items, k)
    decreases k - j
  {
    hide ChunkBytes, Fcm.UpdateAll;
    if j < k {
      MainEndGrows(items, j, k - 1);
      ChunkBytesBound(Encode(items, k - 1), Run(items, k - 1));
    }
  }

  lemma {:induction false} CountReaches(size: nat, items: seq<Point>, j: nat, k: nat)
    requires j <= k && 16 * k <= |items| && Paid(size, items, k)
    ensures ChunkCount(size, items, j) == ChunkCount(size, items, k)
    decreases k - j
  {
    hide MainEnd;
    if j < k {
      MainEndGrows(items, j, k - 1);
      CountReaches(size, items, j + 1, k);
    }
  }

  /** Collecting run `k`: the points of the open run sit in the write buffers. */
  ghost predicate Filling(b: seq<u8>, pos: nat, items: seq<Point>, k: nat, tsBuf: seq<u64>, valBuf: seq<u64>)
    requires |b| >= HEADER_SIZE && |tsBuf| == |valBuf| == 16
  {
    && 16 * k <= |items| < 16 * k + 16
    && U16(b, 4) == 0
    && pos == MainEnd(items, k)
    && (forall i :: 0 <= i < |items| - 16 * k ==>
          tsBuf[i] == items[16 * k + i].ts && valBuf[i] == items[16 * k + i].value)
    && (|items| > 16 * k ==> |b| - pos >= MARGIN)
  }

  /** Out of room for a chunk: points go uncompressed behind the chunks. A point whose value did not
      fit behind its timestamp leaves too little room for any other. */
  ghost predicate Tailing(b: seq<u8>, pos: nat, items: seq<Point>, k: nat)
    requires |b| >= HEADER_SIZE
  {
    && 16 * k <= |items|
    && U16(b, 4) == |items| - 16 * k
    && At(b, MainEnd(items, k), Raw(items[16 * k..]))
    && var end := MainEnd(items, k) + 16 * (|items| - 16 * k);
       |b| - MainEnd(items, k) < MARGIN && (pos == end || (pos == end + 8 && |b| - pos < 8))
  }

  ghost predicate Core(b: seq<u8>, pos: nat, k: nat, items: seq<Point>, prev: u64, pred: Fcm.Predictor,
                       tsBuf: seq<u64>, valBuf: seq<u64>)
  {
    && HEADER_SIZE <= pos <= |b| && |tsBuf| == |valBuf| == 16
    && 16 * k <= |items|
    && U16(b, 2) == k % 0x10000
    && Compressed(b, items, k, prev, pred)
    && (Filling(b, pos, items, k, tsBuf, valBuf) || Tailing(b, pos, items, k))
  }

  /** The writer's invariant: `w` points went to chunks and write buffers, `U16(b, 4)` to the tail. */
  ghost predicate Inv(b: seq<u8>, pos: nat, w: nat, items: seq<Point>, prev: u64, pred: Fcm.Predictor,
                      tsBuf: seq<u64>, valBuf: seq<u64>)
  {
    && Core(b, pos, w / 16, items, prev, pred, tsBuf, valBuf) && |items| == w + U16(b, 4)
    && Paid(|b|, items, w / 16)
  }

  /** A full run in the write buffers, not yet flushed. */
  ghost predicate Full(b: seq<u8>, pos: nat, k: nat, items: seq<Point>, prev: u64, pred: Fcm.Predictor,
                       tsBuf: seq<u64>, valBuf: seq<u64>)
  {
    && HEADER_SIZE <= pos <= |b| && |b| - pos >= MARGIN
    && |items| == 16 * k + 16
    && U16(b, 2) == k % 0x10000 && U16(b, 4) == 0
    && Compressed(b, items, k, prev, pred)
    && pos == MainEnd(items, k)
    && tsBuf == Stamps(Run(items, k)) && valBuf == Values(Run(items, k))
  }

  lemma InvStart(b: seq<u8>, tsBuf: seq<u64>, valBuf: seq<u64>)
    requires |b| >= HEADER_SIZE && |tsBuf| == |valBuf| == 16 && U16(b, 2) == 0 && U16(b, 4) == 0
    ensures Inv(b, HEADER_SIZE, 0, [], 0, Fcm.Fresh(), tsBuf, valBuf)
  {
    hide U16, Fcm.Fresh, Tailing;
    assert Encode([], 0) == Encoded([], 0, Fcm.Fresh());
  }

  /** With room for a chunk the writer is filling a run. */
  lemma RoomMeansFilling(b: seq<u8>, pos: nat, k: nat, items: seq<Point>, prev: u64, pred: Fcm.Predictor,
                         tsBuf: seq<u64>, valBuf: seq<u64>)
    requires Core(b, pos, k, items, prev, pred, tsBuf, valBuf) && |b| - pos >= MARGIN
    ensures Filling(b, pos, items, k, tsBuf, valBuf)
  {
    hide Encode, U16;
  }

  /** Without it the writer is in the tail, with nothing in the write buffers. */
  lemma NoRoomMeansTailing(b: seq<u8>, pos: nat, k: nat, items: seq<Point>, prev: u64, pred: Fcm.Predictor,
                           tsBuf: seq<u64>, valBuf: seq<u64>)
    requires Core(b, pos, k, items, prev, pred, tsBuf, valBuf) && |b| - pos < MARGIN
    ensures Tailing(b, pos, items, k)
  {
    hide Encode, U16;
    if Filling(b, pos, items, k, tsBuf, valBuf) {
      assert items[16 * k..] == [];
    }
  }

  lemma BufferedPoint(k: nat, j: nat, items: seq<Point>, tsBuf: seq<u64>, valBuf: seq<u64>, p: Point)
    requires |tsBuf| == |valBuf| == 16 && j < 16 && |items| == 16 * k + j
    requires forall i :: 0 <= i < j ==> tsBuf[i] == items[16 * k + i].ts && valBuf[i] == items[16 * k + i].value
    ensures var (ts, vs, more) := (tsBuf[j := p.ts], valBuf[j := p.value], items + [p]);
            && (forall i :: 0 <= i < |more| - 16 * k ==>
                  ts[i] == more[16 * k + i].ts && vs[i] == more[16 * k + i].value)
            && (j == 15 ==> ts == Stamps(Run(more, k)) && vs == Values(Run(more, k)))
  {}

  lemma BufferCore(b: seq<u8>, pos: nat, k: nat, j: nat, items: seq<Point>, prev: u64, pred: Fcm.Predictor,
                   tsBuf: seq<u64>, valBuf: seq<u64>, p: Point)
    requires Core(b, pos, k, items, prev, pred, tsBuf, valBuf) && |b| - pos >= MARGIN
    requires j < 16 && |items| == 16 * k + j
    ensures var (ts, vs) := (tsBuf[j := p.ts], valBuf[j := p.value]);
            if j == 15 then Full(b, pos, k, items + [p], prev, pred, ts, vs)
            else Core(b, pos, k, items + [p], prev, pred, ts, vs)
    ensures U16(b, 4) == 0
  {
    hide Encode, U16, Tailing, Stamps, Values, Run, At;
    RoomMeansFilling(b, pos, k, items, prev, pred, tsBuf, valBuf);
    EncodePrefix(items, items + [p], k);
    BufferedPoint(k, j, items, tsBuf, valBuf, p);
    if j != 15 {
      assert Filling(b, pos, items + [p], k, tsBuf[j := p.ts], valBuf[j := p.value]);
    }
  }

  lemma BufferStep(b: seq<u8>, pos: nat, w: nat, items: seq<Point>, prev: u64, pred: Fcm.Predictor,
                   tsBuf: seq<u64>, valBuf: seq<u64>, p: Point)
    requires Inv(b, pos, w, items, prev, pred, tsBuf, valBuf) && |b| - pos >= MARGIN
    ensures |tsBuf| == |valBuf| == 16
    ensures var (ts, vs) := (tsBuf[w % 16 := p.ts], valBuf[w % 16 := p.value]);
            if (w + 1) % 16 == 0 then Full(b, pos, w / 16, items + [p], prev, pred, ts, vs)
            else Inv(b, pos, w + 1, items + [p], prev, pred, ts, vs)
  {
    hide Encode, U16, Full, Compressed, Tailing, Paid;
    RoomMeansFilling(b, pos, w / 16, items, prev, pred, tsBuf, valBuf);
    PaidMore(|b|, items, items + [p], w / 16);
    var (k, j) := (w / 16, w % 16);
    assert U16(b, 4) == 0 && |items| == 16 * k + j;
    hide Core, Filling;
    BufferCore(b, pos, k, j, items, prev, pred, tsBuf, valBuf, p);
    assert j != 15 ==> (w + 1) / 16 == k;
  }

  /** Flushing a full run extends the compressed part. */
  lemma FlushStep(b0: seq<u8>, p0: nat, b1: seq<u8>, p1: nat, b2: seq<u8>, p2: nat, b3: seq<u8>, k: nat,
                  items: seq<Point>, prev: u64, pred: Fcm.Predictor, tsBuf: seq<u64>, valBuf: seq<u64>)
    requires Full(b0, p0, k, items, prev, pred, tsBuf, valBuf)
    requires Tried(b0, p0, b1, p1, true, DeltaDelta.Chunk(prev, tsBuf))
    requires Tried(b1, p1, b2, p2, true, Fcm.Chunk(pred, valBuf))
    requires SetCount(b2, b3, 2, U16(b2, 2) + 1)
    ensures Inv(b3, p2, 16 * k + 16, items, tsBuf[15], Fcm.UpdateAll(pred, valBuf), tsBuf, valBuf)
  {
    hide DeltaDelta.Chunk, Fcm.Chunk, Fcm.UpdateAll, U16, Stamps, Values;
    var c := Run(items, k);
    TriedThen(b0, p0, b1, p1, DeltaDelta.Chunk(prev, tsBuf), b2, p2, true, Fcm.Chunk(pred, valBuf));
    var e := Encode(items, k);
    assert Encode(items, k + 1) == AddChunk(e, c);
    AtKept(b0, b2, HEADER_SIZE, e.bytes, p0);
    AtConcat(b2, HEADER_SIZE, e.bytes, ChunkBytes(e, c));
    HeaderKept(b0, b2, p0);
    SetCountKeeps(b2, b3, 2, U16(b2, 2) + 1, HEADER_SIZE, Encode(items, k + 1).bytes);
    assert Stamps(c)[15] == c[15].ts;
    assert (16 * k + 16) / 16 == k + 1;
    assert Filling(b3, p2, items, k + 1, tsBuf, valBuf);
  }

  /** A 16-bit header field at `offset` set to `n`, modulo 65536, and nothing else changed. */
  ghost predicate SetCount(b0: seq<u8>, b1: seq<u8>, offset: nat, n: nat) {
    && (offset == 2 || offset == 4) && |b0| == |b1| >= HEADER_SIZE
    && U16(b1, offset) == n % 0x10000
    && (forall i :: 0 <= i < |b0| && i != offset && i != offset + 1 ==> b1[i] == b0[i])
  }

  lemma SetCountKeeps(b0: seq<u8>, b1: seq<u8>, offset: nat, n: nat, pos: nat, x: seq<u8>)
    requires SetCount(b0, b1, offset, n)
    ensures U16(b1, 6 - offset) == U16(b0, 6 - offset)
    ensures pos >= HEADER_SIZE && At(b0, pos, x) ==> At(b1, pos, x)
  {
    if pos >= HEADER_SIZE && At(b0, pos, x) {
      assert b1[pos..pos + |x|] == b0[pos..pos + |x|];
    }
  }

  lemma TwoSet(b: seq<u8>, offset: nat, n: nat, lo: nat, hi: nat)
    requires (offset == 2 || offset == 4) && |b| >= HEADER_SIZE
    requires lo < 256 && hi < 256 && lo + 256 * hi == n % 0x10000
    ensures var r := b[offset := lo as u8][offset + 1 := hi as u8]; SetCount(b, r, offset, n) && SameName(b, r)
  {
    hide U16;
    U16Of(b[offset := lo as u8][offset + 1 := hi as u8], offset, lo, hi);
  }

  lemma TwoDigits(n: nat)
    ensures n % 256 + 256 * (n / 256 % 256) == n % 0x10000
  {
    var (q, r) := (n / 256, n % 256);
    var (h, s) := (q / 256, q % 256);
    LowPart(n, h, 256 * s + r);
  }

  lemma LowPart(n: nat, h: nat, x: nat)
    requires n == 0x10000 * h + x && x < 0x10000
    ensures n % 0x10000 == x
  {}

  /** Version and series id, the parts of the header written once. */
  ghost predicate Named(b: seq<u8>, id: u64) {
    At(b, 0, ToBytes(VERSION, 2)) && At(b, 6, ToBytes(id, 8))
  }

  ghost predicate SameName(b0: seq<u8>, b1: seq<u8>) {
    |b0| == |b1| >= HEADER_SIZE && b1[..2] == b0[..2] && b1[6..HEADER_SIZE] == b0[6..HEADER_SIZE]
  }

  lemma NameKept(b0: seq<u8>, b1: seq<u8>, end: nat)
    requires HEADER_SIZE <= end <= |b0| == |b1| && b1[..end] == b0[..end]
    ensures SameName(b0, b1)
  {
    assert forall i :: 0 <= i < end ==> b1[i] == b1[..end][i] && b0[i] == b0[..end][i];
  }

  lemma SameNameTwice(b0: seq<u8>, b1: seq<u8>, b2: seq<u8>)
    requires SameName(b0, b1) && SameName(b1, b2)
    ensures SameName(b0, b2)
  {}

  lemma SameNameSelf(b: seq<u8>)
    requires |b| >= HEADER_SIZE
    ensures SameName(b, b)
  {}

  lemma SameNameNamed(b0: seq<u8>, b1: seq<u8>, id: u64)
    requires SameName(b0, b1) && Named(b0, id)
    ensures Named(b1, id)
  {
    assert b1[0..2] == b1[..2] && b0[0..2] == b0[..2];
  }

  lemma MainEndBound(items: seq<Point>, k: nat)
    requires 16 * k <= |items|
    ensures MainEnd(items, k) >= HEADER_SIZE
  {}

  lemma HeaderKept(b0: seq<u8>, b1: seq<u8>, end: nat)
    requires HEADER_SIZE <= end <= |b0| == |b1| && b1[..end] == b0[..end]
    ensures U16(b1, 2) == U16(b0, 2) && U16(b1, 4) == U16(b0, 4)
  {
    assert forall i :: 0 <= i < HEADER_SIZE ==> b0[i] == b0[..end][i] && b1[i] == b1[..end][i];
  }

  lemma TailBytes(b0: seq<u8>, p0: nat, b1: seq<u8>, items: seq<Point>, k: nat, p: Point)
    requires HEADER_SIZE <= p0 && 16 * k <= |items| && At(b0, MainEnd(items, k), Raw(items[16 * k..]))
    requires p0 == MainEnd(items, k) + 16 * (|items| - 16 * k)
    requires Appended(b0, p0, b1, p0 + 16, true, RawPoint(p))
    ensures At(b1, MainEnd(items, k), Raw((items + [p])[16 * k..]))
  {
    hide Encode, RawPoint, Raw;
    var m := MainEnd(items, k);
    assert (items + [p])[16 * k..] == items[16 * k..] + [p];
    RawSnoc(items[16 * k..], p);
    AtKept(b0, b1, m, Raw(items[16 * k..]), p0);
    AtConcat(b1, m, Raw(items[16 * k..]), RawPoint(p));
  }

  /** A point written behind the tail extends it, once the tail count is raised. */
  lemma TailCore(b0: seq<u8>, p0: nat, b1: seq<u8>, b2: seq<u8>, k: nat, items: seq<Point>, prev: u64,
                 pred: Fcm.Predictor, p: Point)
    requires HEADER_SIZE <= p0 <= |b0| && 16 * k <= |items| && U16(b0, 2) == k % 0x10000
    requires Compressed(b0, items, k, prev, pred) && Tailing(b0, p0, items, k) && |b0| - p0 >= 16
    requires Appended(b0, p0, b1, p0 + 16, true, RawPoint(p)) && SetCount(b1, b2, 4, U16(b1, 4) + 1)
    ensures U16(b2, 2) == U16(b0, 2) && U16(b2, 4) == U16(b0, 4) + 1
    ensures Compressed(b2, items + [p], k, prev, pred) && Tailing(b2, p0 + 16, items + [p], k)
  {
    hide Encode, RawPoint, Raw, U16;
    var more := items + [p];
    TailBytes(b0, p0, b1, items, k, p);
    EncodePrefix(items, more, k);
    AtKept(b0, b1, HEADER_SIZE, Encode(items, k).bytes, p0);
    HeaderKept(b0, b1, p0);
    SetCountKeeps(b1, b2, 4, U16(b1, 4) + 1, HEADER_SIZE, Encode(items, k).bytes);
    SetCountKeeps(b1, b2, 4, U16(b1, 4) + 1, MainEnd(items, k), Raw(more[16 * k..]));
    hide At;
  }

  lemma TailStep(b0: seq<u8>, p0: nat, b1: seq<u8>, b2: seq<u8>, w: nat, items: seq<Point>, prev: u64,
                 pred: Fcm.Predictor, tsBuf: seq<u64>, valBuf: seq<u64>, p: Point)
    requires Inv(b0, p0, w, items, prev, pred, tsBuf, valBuf) && 16 <= |b0| - p0 < MARGIN
    requires Appended(b0, p0, b1, p0 + 16, true, RawPoint(p)) && SetCount(b1, b2, 4, U16(b1, 4) + 1)
    ensures Inv(b2, p0 + 16, w, items + [p], prev, pred, tsBuf, valBuf)
  {
    hide RawPoint, U16, Filling, Tailing, Compressed, Paid;
    NoRoomMeansTailing(b0, p0, w / 16, items, prev, pred, tsBuf, valBuf);
    PaidMore(|b0|, items, items + [p], w / 16);
    TailCore(b0, p0, b1, b2, w / 16, items, prev, pred, p);
  }

  /** A point that did not fit changes nothing that counts. */
  lemma TailFull(b0: seq<u8>, p0: nat, b1: seq<u8>, p1: nat, w: nat, items: seq<Point>, prev: u64,
                 pred: Fcm.Predictor, tsBuf: seq<u64>, valBuf: seq<u64>)
    requires Inv(b0, p0, w, items, prev, pred, tsBuf, valBuf) && |b0| - p0 < 16
    requires |b1| == |b0| && b1[..p0] == b0[..p0]
    requires p1 == if |b0| - p0 < 8 then p0 else p0 + 8
    ensures Inv(b1, p1, w, items, prev, pred, tsBuf, valBuf)
  {
    hide Encode, Raw, U16, Filling;
    NoRoomMeansTailing(b0, p0, w / 16, items, prev, pred, tsBuf, valBuf);
    HeaderKept(b0, b1, p0);
    var k := w / 16;
    AtKept(b0, b1, HEADER_SIZE, Encode(items, k).bytes, p0);
    AtKept(b0, b1, MainEnd(items, k), Raw(items[16 * k..]), p0);
    assert Tailing(b1, p1, items, k);
  }

  lemma U16Of(b: seq<u8>, offset: nat, lo: nat, hi: nat)
    requires offset + 2 <= |b| && lo < 256 && hi < 256 && b[offset] == lo as u8 && b[offset + 1] == hi as u8
    ensures U16(b, offset) == lo + 256 * hi
  {
    ByteBack(lo);
    ByteBack(hi);
  }

  class DataBlockWriter {
    const stream: VByteStreamWriter
    const tsStream: DeltaDeltaStreamWriter
    const valStream: FcmStreamWriter
    const tsBuf: array<u64>
    const valBuf: array<u64>
    var writeIndex: nat
    /** The points whose `Put` returned true. */
    ghost var accepted: seq<Point>

    ghost predicate Shape()
      reads this, stream
    {
      && tsStream.stream == stream && valStream.stream == stream && valStream.Valid()
      && stream.buf.Length >= HEADER_SIZE
      && tsBuf.Length == valBuf.Length == 16
      && tsBuf != valBuf
      && tsBuf != valStream.predictor.table && valBuf != valStream.predictor.table
    }

    ghost predicate Valid()
      reads this, stream, stream.buf, tsStream, valStream.predictor, valStream.predictor.table, tsBuf, valBuf
    {
      && Shape()
      && Inv(stream.buf[..], stream.pos, writeIndex, accepted, tsStream.prev, valStream.predictor.State(),
             tsBuf[..], valBuf[..])
    }

    /** A header field of two bytes; stores wrap modulo 65536 as `u16` does. */
    method SetU16(offset: nat, n: nat)
      requires (offset == 2 || offset == 4) && stream.buf.Length >= HEADER_SIZE
      modifies stream.buf
      ensures SetCount(old(stream.buf[..]), stream.buf[..], offset, n) && SameName(old(stream.buf[..]), stream.buf[..])
    {
      hide SetCount, SameName;
      ghost var before := stream.buf[..];
      var lo, hi := n % 256, n / 256 % 256;
      stream.buf[offset] := lo as u8;
      stream.buf[offset + 1] := hi as u8;
      assert stream.buf[..] == before[offset := lo as u8][offset + 1 := hi as u8];
      TwoDigits(n);
      TwoSet(before, offset, n, lo, hi);
    }

    method GetU16(offset: nat) returns (n: nat)
      requires offset + 2 <= stream.buf.Length
      ensures n == U16(stream.buf[..], offset)
    {
      n := stream.buf[offset] as nat + 256 * (stream.buf[offset + 1] as nat);
    }

    constructor (id: u64, buf: array<u8>)
      requires buf.Length >= HEADER_SIZE
      modifies buf
      ensures Valid() && stream.buf == buf && accepted == [] && Named(buf[..], id)
      ensures fresh(stream) && fresh(tsStream) && fresh(valStream.predictor) && fresh(valStream.predictor.table)
      ensures fresh(tsBuf) && fresh(valBuf)
    {
      var s := new VByteStreamWriter(buf);
      stream := s;
      tsStream := new DeltaDeltaStreamWriter(s);
      valStream := new FcmStreamWriter(s);
      tsBuf := new u64[16](_ => 0);
      valBuf := new u64[16](_ => 0);
      writeIndex := 0;
      accepted := [];
      new;
      hide Inv, Fcm.Fresh, U16;
      WriteHeader(id);
      InvStart(stream.buf[..], tsBuf[..], valBuf[..]);
    }

    /** Version, chunk count, tail size and series id. */
    method WriteHeader(id: u64)
      requires stream.Valid() && stream.pos == 0 && stream.buf.Length >= HEADER_SIZE
      modifies stream`pos, stream.buf
      ensures stream.Valid() && stream.pos == HEADER_SIZE
      ensures U16(stream.buf[..], 2) == 0 && U16(stream.buf[..], 4) == 0 && Named(stream.buf[..], id)
    {
      hide ToBytes, U16;
      var ok := stream.PutRaw(VERSION, 2);
      assert stream.buf[0..2] == ToBytes(VERSION, 2);
      stream.pos := stream.pos + 4;
      ghost var b0 := stream.buf[..];
      ok := stream.PutRaw(id, 8);
      assert stream.buf[..][0..2] == stream.buf[..][..6][0..2] == b0[0..2];
      SetU16(4, 0);
      ghost var b := stream.buf[..];
      SetU16(2, 0);
      assert stream.buf[..][0..2] == b0[0..2];
      SetCountKeeps(b, stream.buf[..], 2, 0, 0, []);
    }

    function RoomForChunk(): bool
      requires Shape()
      reads this, stream
    {
      stream.SpaceLeft() >= MARGIN
    }

    /** `get_write_index`: the number of points accepted so far. */
    method GetWriteIndex() returns (n: nat)
      requires Valid()
      ensures n == |accepted|
    {
      hide U16, Core;
      var ntail := GetU16(4);
      n := ntail + writeIndex;
    }

    /** `put`. The branch of the source for a chunk that was lost never runs: `RoomForChunk` leaves at
        least 304 bytes and a chunk takes at most 146 + 136. */
    method Put(ts: u64, value: u64) returns (ok: bool)
      requires Valid()
      modifies this, stream`pos, stream.buf, tsStream, valStream.predictor, valStream.predictor.table, tsBuf, valBuf
      ensures Valid()
      ensures ok <==> old(stream.SpaceLeft()) >= 16
      ensures accepted == if ok then old(accepted) + [Point(ts, value)] else old(accepted)
      ensures stream.pos >= old(stream.pos) && SameName(old(stream.buf[..]), stream.buf[..])
    {
      hide Inv, Full;
      if RoomForChunk() {
        ghost var p := Point(ts, value);
        BufferStep(stream.buf[..], stream.pos, writeIndex, accepted, tsStream.prev, valStream.predictor.State(),
                   tsBuf[..], valBuf[..], p);
        InvSizes(stream.buf[..], stream.pos, writeIndex, accepted, tsStream.prev, valStream.predictor.State(),
                 tsBuf[..], valBuf[..]);
        tsBuf[writeIndex % 16] := ts;
        valBuf[writeIndex % 16] := value;
        writeIndex := writeIndex + 1;
        accepted := accepted + [p];
        if writeIndex % 16 == 0 {
          FlushChunk();
        }
        ok := true;
      } else {
        ok := PutTail(ts, value);
      }
    }

    method FlushChunk()
      requires Shape() && writeIndex > 0 && writeIndex % 16 == 0
      requires Full(stream.buf[..], stream.pos, writeIndex / 16 - 1, accepted, tsStream.prev,
                    valStream.predictor.State(), tsBuf[..], valBuf[..])
      modifies stream`pos, stream.buf, tsStream, valStream.predictor, valStream.predictor.table
      ensures Valid() && stream.pos >= old(stream.pos) && SameName(old(stream.buf[..]), stream.buf[..])
    {
      hide Inv, U16, DeltaDelta.Chunk, Fcm.Chunk, Fcm.UpdateAll, Compressed, MainEnd, SameName;
      ghost var k := writeIndex / 16 - 1;
      ghost var b0, p0, prev, pred := stream.buf[..], stream.pos, tsStream.prev, valStream.predictor.State();
      DeltaDelta.ChunkBound(prev, tsBuf[..]);
      Fcm.ChunkBound(pred, valBuf[..]);
      var ok := tsStream.TPut(tsBuf[..]);
      assert ok;
      ghost var b1, p1 := stream.buf[..], stream.pos;
      ok := valStream.TPut(valBuf[..]);
      assert ok;
      ghost var b2, p2 := stream.buf[..], stream.pos;
      assert b2[..p0] == b2[..p1][..p0] == b0[..p0];
      NameKept(b0, b2, p0);
      var nchunks := GetU16(2);
      SetU16(2, nchunks + 1);
      SameNameTwice(b0, b2, stream.buf[..]);
      FlushStep(b0, p0, b1, p1, b2, p2, stream.buf[..], k, accepted, prev, pred, tsBuf[..], valBuf[..]);
    }

    /** A point without compression; the timestamp may go in without its value, and then no put
        succeeds again. */
    method PutTail(ts: u64, value: u64) returns (ok: bool)
      requires Valid() && !RoomForChunk()
      modifies this`accepted, stream`pos, stream.buf
      ensures Valid()
      ensures ok <==> old(stream.SpaceLeft()) >= 16
      ensures accepted == if ok then old(accepted) + [Point(ts, value)] else old(accepted)
      ensures stream.pos >= old(stream.pos) && SameName(old(stream.buf[..]), stream.buf[..])
    {
      hide Inv, ToBytes, U16, SameName;
      ghost var b0, p0, p := stream.buf[..], stream.pos, Point(ts, value);
      ghost var prev, pred := tsStream.prev, valStream.predictor.State();
      InvSizes(b0, p0, writeIndex, accepted, prev, pred, tsBuf[..], valBuf[..]);
      ok := stream.PutRaw(ts, 8);
      if ok {
        ghost var b1, p1 := stream.buf[..], stream.pos;
        ok := stream.PutRaw(value, 8);
        if ok {
          ghost var b2 := stream.buf[..];
          AppendedTwice(b0, p0, b1, p1, b2, stream.pos, ToBytes(ts, 8), ToBytes(value, 8));
          NameKept(b0, b2, p0);
          var ntail := GetU16(4);
          SetU16(4, ntail + 1);
          SameNameTwice(b0, b2, stream.buf[..]);
          TailStep(b0, p0, b2, stream.buf[..], writeIndex, accepted, prev, pred, tsBuf[..], valBuf[..], p);
          accepted := accepted + [p];
          return;
        }
        assert stream.buf[..p0] == stream.buf[..p1][..p0] == b0[..p0];
      }
      NameKept(b0, stream.buf[..], p0);
      TailFull(b0, p0, stream.buf[..], stream.pos, writeIndex, accepted, prev, pred, tsBuf[..], valBuf[..]);
    }

    /** `commit`: an open run goes to the tail, and the chunk count to the header. Its "data loss" and
        FATAL branches never run. The block then stores exactly the accepted points unless the chunk
        count wrapped. */
    method Commit() returns (size: nat)
      requires Valid()
      modifies this, stream`pos, stream.buf
      ensures accepted == old(accepted) && size == stream.pos
      ensures Done(stream.buf[..], accepted, old(writeIndex) / 16)
      ensures old(writeIndex) / 16 == ChunkCount(stream.buf.Length, accepted)
      ensures U16(stream.buf[..], 4) + writeIndex == |accepted|
      ensures SameName(old(stream.buf[..]), stream.buf[..])
    {
      hide Inv, Done, U16, MainEnd, Flushed, SameName, ChunkCount;
      CountOfInv(stream.buf[..], stream.pos, writeIndex, accepted, tsStream.prev, valStream.predictor.State(),
                 tsBuf[..], valBuf[..]);
      ghost var b0 := stream.buf[..];
      SameNameSelf(b0);
      var nchunks := writeIndex / 16;
      var buftail := writeIndex % 16;
      InvCases(stream.buf[..], stream.pos, writeIndex, accepted, tsStream.prev, valStream.predictor.State(),
               tsBuf[..], valBuf[..]);
      if buftail != 0 {
        FlushedCount(stream.buf[..], accepted, nchunks, 0);
        var ntail := GetU16(4);
        assert ntail == 0;  // else the source aborts: write buffer is not empty but can't be flushed
        FlushOpenRun(nchunks, buftail);
      }
      FlushedCount(stream.buf[..], accepted, nchunks, |accepted| - 16 * nchunks);
      ghost var b := stream.buf[..];
      SetU16(2, nchunks);
      SameNameTwice(b0, b, stream.buf[..]);
      SetCountKeeps(b, stream.buf[..], 2, nchunks, 0, []);
      DoneAfterCount(b, stream.buf[..], accepted, nchunks);
      size := stream.pos;
    }

    /** The points of the open run, uncompressed. */
    method FlushOpenRun(nchunks: nat, buftail: nat)
      requires Shape() && buftail < 16 && writeIndex == |accepted| == 16 * nchunks + buftail
      requires Flushed(stream.buf[..], accepted, nchunks, 0)
      requires stream.pos == MainEnd(accepted, nchunks) && stream.SpaceLeft() >= MARGIN
      requires forall i :: 0 <= i < buftail ==>
                 tsBuf[i] == accepted[nchunks * 16 + i].ts && valBuf[i] == accepted[nchunks * 16 + i].value
      modifies this`writeIndex, stream`pos, stream.buf
      ensures Shape() && writeIndex == 16 * nchunks
      ensures Flushed(stream.buf[..], accepted, nchunks, buftail) && SameName(old(stream.buf[..]), stream.buf[..])
    {
      hide U16, MainEnd, Flushed, SameName;
      MainEndBound(accepted, nchunks);
      var ix := 0;
      ghost var b0 := stream.buf[..];
      SameNameSelf(b0);
      while ix < buftail
        invariant 0 <= ix <= buftail && writeIndex == 16 * nchunks + buftail - ix
        invariant Shape() && stream.pos == MainEnd(accepted, nchunks) + 16 * ix
        invariant Flushed(stream.buf[..], accepted, nchunks, ix) && SameName(b0, stream.buf[..])
      {
        ghost var b1 := stream.buf[..];
        FlushOne(nchunks, ix);
        SameNameTwice(b0, b1, stream.buf[..]);
        writeIndex := writeIndex - 1;
        ix := ix + 1;
      }
    }

    method FlushOne(nchunks: nat, ix: nat)
      requires Shape() && ix < 16 && 16 * nchunks + ix < |accepted|
      requires Flushed(stream.buf[..], accepted, nchunks, ix)
      requires stream.pos == MainEnd(accepted, nchunks) + 16 * ix && stream.SpaceLeft() >= 16
      requires tsBuf[ix] == accepted[16 * nchunks + ix].ts && valBuf[ix] == accepted[16 * nchunks + ix].value
      modifies stream`pos, stream.buf
      ensures Shape() && stream.pos == old(stream.pos) + 16
      ensures Flushed(stream.buf[..], accepted, nchunks, ix + 1) && SameName(old(stream.buf[..]), stream.buf[..])
    {
      hide U16, MainEnd, Flushed, ToBytes, SameName;
      MainEndBound(accepted, nchunks);
      ghost var b1, p1, p := stream.buf[..], stream.pos, accepted[16 * nchunks + ix];
      var ok := stream.PutRaw(tsBuf[ix], 8);
      ghost var b2, p2 := stream.buf[..], stream.pos;
      assert ok;
      ok := stream.PutRaw(valBuf[ix], 8);
      assert ok;
      ghost var b3 := stream.buf[..];
      AppendedTwice(b1, p1, b2, p2, b3, stream.pos, ToBytes(p.ts, 8), ToBytes(p.value, 8));
      NameKept(b1, b3, p1);
      var ntail := GetU16(4);
      SetU16(4, ntail + 1);
      SameNameTwice(b1, b3, stream.buf[..]);
      FlushPoint(b1, p1, b3, stream.buf[..], accepted, nchunks, ix);
    }
  }

  /** The compressed part, and the first `ix` points of the open run flushed behind it. */
  ghost predicate Flushed(b: seq<u8>, items: seq<Point>, k: nat, ix: nat) {
    && |b| >= HEADER_SIZE && 16 * k + ix <= |items|
    && At(b, HEADER_SIZE, Encode(items, k).bytes)
    && At(b, MainEnd(items, k), Raw(items[16 * k..16 * k + ix]))
    && U16(b, 4) == ix
  }

  /** A finished block: `k` chunks, the rest in the tail, the counts in the header. */
  ghost predicate Done(b: seq<u8>, items: seq<Point>, k: nat) {
    && 16 * k <= |items| && Flushed(b, items, k, |items| - 16 * k)
    && U16(b, 2) == k % 0x10000
  }

  lemma RawNone(b: seq<u8>, pos: nat, items: seq<Point>, i: nat)
    requires pos <= |b| && i <= |items|
    ensures At(b, pos, Raw(items[i..i]))
  {}

  lemma InvSizes(b: seq<u8>, pos: nat, w: nat, items: seq<Point>, prev: u64, pred: Fcm.Predictor,
                 tsBuf: seq<u64>, valBuf: seq<u64>)
    requires Inv(b, pos, w, items, prev, pred, tsBuf, valBuf)
    ensures HEADER_SIZE <= pos <= |b| && |tsBuf| == |valBuf| == 16
    ensures 16 * (w / 16) <= |items| && |items| == w + U16(b, 4)
  {
    hide U16, Compressed, Filling, Tailing;
  }

  lemma TailDone(b: seq<u8>, pos: nat, k: nat, items: seq<Point>, prev: u64, pred: Fcm.Predictor)
    requires |b| >= HEADER_SIZE && 16 * k <= |items| && Compressed(b, items, k, prev, pred) && Tailing(b, pos, items, k)
    ensures Flushed(b, items, k, |items| - 16 * k)
  {
    hide Encode, Raw, U16;
    assert items[16 * k..16 * k + (|items| - 16 * k)] == items[16 * k..];
  }

  /** What `Inv` says at the start of `Commit`: either nothing is buffered and the block is complete but
      for its chunk count, or the open run is in the write buffers with room to spare behind the chunks. */
  lemma InvCases(b: seq<u8>, pos: nat, w: nat, items: seq<Point>, prev: u64, pred: Fcm.Predictor,
                 tsBuf: seq<u64>, valBuf: seq<u64>)
    requires Inv(b, pos, w, items, prev, pred, tsBuf, valBuf)
    ensures |tsBuf| == |valBuf| == 16 && |items| >= w
    ensures w % 16 == 0 ==> Flushed(b, items, w / 16, |items| - w)
    ensures w % 16 != 0 ==>
              && Flushed(b, items, w / 16, 0) && |items| == w
              && pos == MainEnd(items, w / 16) && |b| - pos >= MARGIN
              && forall i :: 0 <= i < w % 16 ==>
                   tsBuf[i] == items[w / 16 * 16 + i].ts && valBuf[i] == items[w / 16 * 16 + i].value
  {
    hide Encode, U16, At, Raw;
    var k := w / 16;
    if Tailing(b, pos, items, k) {
      assert w == 16 * k;
      TailDone(b, pos, k, items, prev, pred);
    } else {
      RawNone(b, pos, items, 16 * k);
    }
  }

  /** One point of the open run flushed. */
  lemma FlushPoint(b0: seq<u8>, p0: nat, b1: seq<u8>, b2: seq<u8>, items: seq<Point>, k: nat, ix: nat)
    requires Flushed(b0, items, k, ix) && 16 * k + ix < |items| && ix < 16 && p0 == MainEnd(items, k) + 16 * ix
    requires Appended(b0, p0, b1, p0 + 16, true, RawPoint(items[16 * k + ix]))
    requires SetCount(b1, b2, 4, U16(b1, 4) + 1)
    ensures Flushed(b2, items, k, ix + 1)
  {
    hide Encode, RawPoint, Raw, U16;
    var (part, p, m) := (items[16 * k..16 * k + ix], items[16 * k + ix], MainEnd(items, k));
    var more := items[16 * k..16 * k + (ix + 1)];
    assert more == part + [p];
    RawSnoc(part, p);
    AtKept(b0, b1, HEADER_SIZE, Encode(items, k).bytes, p0);
    AtKept(b0, b1, m, Raw(part), p0);
    AtConcat(b1, m, Raw(part), RawPoint(p));
    HeaderKept(b0, b1, p0);
    SetCountKeeps(b1, b2, 4, U16(b1, 4) + 1, HEADER_SIZE, Encode(items, k).bytes);
    SetCountKeeps(b1, b2, 4, U16(b1, 4) + 1, m, Raw(more));
  }

  lemma DoneAfterCount(b0: seq<u8>, b1: seq<u8>, items: seq<Point>, k: nat)
    requires 16 * k <= |items| && Flushed(b0, items, k, |items| - 16 * k) && SetCount(b0, b1, 2, k)
    ensures Done(b1, items, k)
  {
    hide Encode, Raw, U16;
    SetCountKeeps(b0, b1, 2, k, HEADER_SIZE, Encode(items, k).bytes);
    SetCountKeeps(b0, b1, 2, k, MainEnd(items, k), Raw(items[16 * k..16 * k + (|items| - 16 * k)]));
  }

  lemma FlushedCount(b: seq<u8>, items: seq<Point>, k: nat, ix: nat)
    requires Flushed(b, items, k, ix)
    ensures |b| >= HEADER_SIZE && U16(b, 4) == ix
  {}

  // ----- Writer against reader

  lemma DoneHolds(b: seq<u8>, items: seq<Point>, k: nat)
    requires Done(b, items, k) && k <= 0xFFFF
    ensures Holds(b, items)
  {
    hide Encode, Raw, U16;
    assert items[16 * k..16 * k + (|items| - 16 * k)] == items[16 * k..];
    assert Chunks(b) == k;
  }

  /** The reader never hands out more points than the header announces. */
  lemma {:induction false} ReadAllBounded(b: seq<u8>, r: Reader, n: nat)
    requires |b| >= HEADER_SIZE && |r.buffer| == 16 && r.index <= TotalSize(b)
    ensures |ReadAll(b, r, n).0| <= TotalSize(b) - r.index
    decreases n
  {
    hide ReadStamps, Fcm.Next, ReadRaw, U16;
    if n > 0 && Next(b, r).0.Ok? {
      ReadAllBounded(b, Next(b, r).1, n - 1);
    }
  }

  /** Main theorem on finished blocks: the reader returns exactly the accepted points, in order and bit
      for bit, and then `NoData`, if and only if the chunk count fits its 16-bit field. */
  lemma ReadBack(b: seq<u8>, items: seq<Point>, k: nat)
    requires Done(b, items, k)
    ensures |b| >= HEADER_SIZE
    ensures ReadAll(b, Start(), |items|) == (items, NoData) <==> k <= 0xFFFF
    ensures TotalSize(b) == |items| <==> k <= 0xFFFF
  {
    hide Encode, Raw, At, ReadAll;
    if k <= 0xFFFF {
      DoneHolds(b, items, k);
      HoldsReadsBack(b, items);
    } else {
      assert TotalSize(b) < |items|;
      ReadAllBounded(b, Start(), |items|);
    }
  }

  // ----- How many points and chunks a block takes

  lemma InvEnds(b: seq<u8>, pos: nat, w: nat, items: seq<Point>, prev: u64, pred: Fcm.Predictor,
                tsBuf: seq<u64>, valBuf: seq<u64>)
    requires Inv(b, pos, w, items, prev, pred, tsBuf, valBuf)
    ensures 16 * (w / 16) <= |items| && Paid(|b|, items, w / 16) && MainEnd(items, w / 16) <= pos <= |b|
    ensures |b| - MainEnd(items, w / 16) < MARGIN || |items| < 16 * (w / 16) + 16
    ensures |b| - MainEnd(items, w / 16) < MARGIN ==> 16 * (|items| - 16 * (w / 16)) <= |b| - MainEnd(items, w / 16)
    ensures |b| - pos < 16 ==> (|b| - MainEnd(items, w / 16)) / 16 == |items| - 16 * (w / 16)
  {
    hide Encode, U16, At, Raw, Compressed, Paid;
    var k := w / 16;
    if |b| - pos < 16 {
      NoRoomMeansTailing(b, pos, k, items, prev, pred, tsBuf, valBuf);
    }
  }

  /** The writer has written exactly the chunks that fit. */
  lemma CountOfInv(b: seq<u8>, pos: nat, w: nat, items: seq<Point>, prev: u64, pred: Fcm.Predictor,
                   tsBuf: seq<u64>, valBuf: seq<u64>)
    requires Inv(b, pos, w, items, prev, pred, tsBuf, valBuf)
    ensures w / 16 == ChunkCount(|b|, items)
  {
    hide Inv, MainEnd, Paid;
    InvEnds(b, pos, w, items, prev, pred, tsBuf, valBuf);
    CountReaches(|b|, items, 0, w / 16);
  }

  /** A writer that took a prefix of `input`, and is full if it did not take everything, took as many
      points and chunks as fit. */
  lemma CapacityOfInv(b: seq<u8>, pos: nat, w: nat, input: seq<Point>, n: nat, prev: u64, pred: Fcm.Predictor,
                      tsBuf: seq<u64>, valBuf: seq<u64>)
    requires n <= |input| && Inv(b, pos, w, input[..n], prev, pred, tsBuf, valBuf)
    requires n < |input| ==> |b| - pos < 16
    ensures w / 16 == ChunkCount(|b|, input) && n == Capacity(|b|, input)
  {
    hide Inv, Paid, Encode;
    var k := w / 16;
    InvEnds(b, pos, w, input[..n], prev, pred, tsBuf, valBuf);
    PaidMore(|b|, input[..n], input, k);
    EncodePrefix(input[..n], input, k);
    CountReaches(|b|, input, 0, k);
    hide ChunkCount;
  }

  /** No input makes a block of at most 196922 bytes take more than 65535 chunks: the last of 65536 would
      have to start behind 65535 others of at least three bytes, with the margin free. */
  lemma {:induction false} SmallBlocksFit(size: nat, items: seq<Point>, k: nat)
    requires size <= 196922 && k <= 0xFFFF && 16 * k <= |items|
    ensures ChunkCount(size, items, k) <= 0xFFFF
    decreases 0xFFFF - k
  {
    hide MainEnd;
    if ChunkFits(size, items, k) {
      MainEndGrows(items, 0, k);
      NoChunksYet(items);
      SmallBlocksFit(size, items, k + 1);
    }
  }

  lemma NoChunksYet(items: seq<Point>)
    ensures MainEnd(items, 0) == HEADER_SIZE
  {
    hide Fcm.Fresh;
  }
}
