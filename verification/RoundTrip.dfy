/** Writer and reader together, over whole runs. */
module RoundTrip {
  import opened Bits
  import Leb128
  import DeltaDelta
  import Fcm
  import opened BlockFormat
  import opened DataBlock
  import opened StreamReaders

  /** Any sequence of puts: those that succeed are the first `Capacity` ones. */
  method PutAll(w: DataBlockWriter, input: seq<Point>, ghost id: u64) returns (oks: seq<bool>, ghost count: nat)
    requires w.Valid() && w.accepted == [] && Named(w.stream.buf[..], id)
    modifies w, w.stream`pos, w.stream.buf, w.tsStream, w.valStream.predictor, w.valStream.predictor.table
    modifies w.tsBuf, w.valBuf
    ensures w.Valid() && count <= |input| && w.accepted == input[..count] && Named(w.stream.buf[..], id)
    ensures |oks| == |input| && forall i :: 0 <= i < |input| ==> (oks[i] <==> i < count)
    ensures count == Capacity(w.stream.buf.Length, input)
    ensures w.writeIndex / 16 == ChunkCount(w.stream.buf.Length, input)
  {
    hide Inv, Named, SameName, ChunkCount, Capacity;
    oks, count := [], 0;
    var i := 0;
    while i < |input|
      invariant 0 <= i <= |input| && |oks| == i && count <= i
      invariant forall j :: 0 <= j < i ==> (oks[j] <==> j < count)
      invariant w.Valid() && w.accepted == input[..count] && Named(w.stream.buf[..], id)
      invariant count < i ==> w.stream.SpaceLeft() < 16
    {
      ghost var before := w.stream.buf[..];
      var ok := w.Put(input[i].ts, input[i].value);
      SameNameNamed(before, w.stream.buf[..], id);
      if ok {
        assert input[..i + 1] == input[..i] + [input[i]];
        count := count + 1;
      }
      oks := oks + [ok];
      i := i + 1;
    }
    CapacityOfInv(w.stream.buf[..], w.stream.pos, w.writeIndex, input, count, w.tsStream.prev,
                  w.valStream.predictor.State(), w.tsBuf[..], w.valBuf[..]);
  }

  /** Any sequence of puts into a block of any size, then commit, then a reader over the same bytes. The
      reader returns exactly the points whose put succeeded, in order and bit for bit, and then `NoData`, if
      and only if these points and this size make at most 65535 chunks. The header then announces that many
      points, as `get_write_index` said before. */
  method WriteThenRead(id: u64, size: nat, input: seq<Point>)
    returns (oks: seq<bool>, count: nat, b: seq<u8>, out: seq<Point>, last: Status)
    requires size >= HEADER_SIZE
    ensures |oks| == |input| && |b| == size && Named(b, id)
    ensures count == Capacity(size, input) <= |input|
    ensures forall i :: 0 <= i < |input| ==> (oks[i] <==> i < count)
    ensures Done(b, input[..count], ChunkCount(size, input)) && (out, last) == ReadAll(b, Start(), count)
    ensures ChunkCount(size, input) <= 0xFFFF <==> out == input[..count] && last == NoData
    ensures ChunkCount(size, input) <= 0xFFFF <==> TotalSize(b) == count
    ensures size <= 196922 ==> out == input[..count] && last == NoData
  {
    hide Inv, Done, ReadAll, U16, Named, SameName, ChunkCount, Capacity, TotalSize;
    var buf := new u8[size](_ => 0);
    var w := new DataBlockWriter(id, buf);
    ghost var taken;
    oks, taken := PutAll(w, input, id);
    count := w.GetWriteIndex();
    ghost var before := buf[..];
    var bytes := w.Commit();
    b := buf[..];
    SameNameNamed(before, b, id);
    ReadBack(b, input[..count], ChunkCount(size, input));
    if size <= 196922 {
      SmallBlocksFit(size, input, 0);
    }
    out, last := Drain(buf, count);
  }

  /** A reader stepped until it stops returning points, at most `n` times. */
  method Drain(buf: array<u8>, n: nat) returns (out: seq<Point>, last: Status)
    requires buf.Length >= HEADER_SIZE
    ensures (out, last) == ReadAll(buf[..], Start(), n)
  {
    hide BlockFormat.Next;
    var r := new DataBlockReader(buf);
    ghost var b := buf[..];
    out := [];
    assert out + ReadAll(b, Start(), n).0 == ReadAll(b, Start(), n).0;
    var i := 0;
    while true
      invariant 0 <= i <= n && r.Valid() && r.stream.buf == buf && buf[..] == b
      invariant fresh(r) && fresh(r.stream) && fresh(r.tsStream) && fresh(r.valStream)
      invariant fresh(r.valStream.predictor) && fresh(r.valStream.predictor.table)
      invariant ReadAll(b, Start(), n) == (out + ReadAll(b, r.View(), n - i).0, ReadAll(b, r.View(), n - i).1)
      decreases n - i
    {
      ghost var v := r.View();
      last := r.Next();
      if i == n || !last.Ok? {
        assert out + [] == out;
        return;
      }
      ghost var rest := ReadAll(b, BlockFormat.Next(b, v).1, n - i - 1);
      assert out + ([last.point] + rest.0) == (out + [last.point]) + rest.0;
      out := out + [last.point];
      i := i + 1;
    }
  }

  // ----- The chunk count can wrap in a block that is large enough

  predicate AllOrigin(items: seq<Point>) {
    forall i :: 0 <= i < |items| ==> items[i] == Point(0, 0)
  }

  predicate Zeros(xs: seq<u64>) {
    forall i :: 0 <= i < |xs| ==> xs[i] == 0
  }

  lemma {:induction false} ZeroDeltas(ts: seq<u64>)
    requires Zeros(ts)
    ensures Zeros(DeltaDelta.Deltas(0, ts)) && DeltaDelta.MinOf(0, ts) == 0 && Zeros(DeltaDelta.Residues(ts, 0))
    decreases |ts|
  {
    if ts != [] {
      ZeroDeltas(ts[1..]);
    }
  }

  lemma ZeroStamps(ts: seq<u64>)
    requires |ts| == 16 && Zeros(ts)
    ensures |DeltaDelta.Chunk(0, ts)| == 2
  {
    ZeroDeltas(ts);
    var ds := DeltaDelta.Deltas(0, ts);
    ZeroDeltas(ds);
    assert DeltaDelta.ChunkMin(0, ts) == 0;
    assert Leb128.Put(0) == [0];
  }

  lemma FreshStays()
    ensures Fcm.Xor(0, Fcm.Predict(Fcm.Fresh())) == 0 && Fcm.Update(Fcm.Fresh(), 0) == Fcm.Fresh()
  {
    var p := Fcm.Fresh();
    assert Fcm.Minus(0, 0) == 0 && Fcm.Plus(0, 0) == 0 && Fcm.NextHash(0, 0) == 0;
    assert p.table[0 := 0] == p.table;
  }

  lemma {:induction false} ZeroValues(vs: seq<u64>)
    requires Zeros(vs)
    ensures Zeros(Fcm.Diffs(Fcm.Fresh(), vs)) && Fcm.UpdateAll(Fcm.Fresh(), vs) == Fcm.Fresh()
    decreases |vs|
  {
    hide Fcm.Fresh, Fcm.Update, Fcm.Predict, Fcm.Xor;
    FreshStays();
    if vs != [] {
      ZeroValues(vs[1..]);
    }
  }

  lemma OriginRun(items: seq<Point>, k: nat)
    requires AllOrigin(items) && 16 * k + 16 <= |items|
    ensures AllOrigin(Run(items, k)) && Run(items, k)[15].ts == 0
  {}

  lemma {:induction false} OriginEncoding(items: seq<Point>, k: nat)
    requires AllOrigin(items) && 16 * k <= |items|
    ensures |Encode(items, k).bytes| == 3 * k && Encode(items, k).prev == 0 && Encode(items, k).pred == Fcm.Fresh()
  {
    hide DeltaDelta.Chunk, Fcm.Fresh, Fcm.Diffs, Fcm.UpdateAll, Run, Fcm.Pairs;
    if k > 0 {
      OriginEncoding(items, k - 1);
      var c := Run(items, k - 1);
      OriginRun(items, k - 1);
      ZeroStamps(Stamps(c));
      ZeroValues(Values(c));
    }
  }

  /** Points that make a block of at least 196923 bytes take 65536 chunks. */
  function ManyZeros(): (items: seq<Point>)
    ensures |items| == 0x100000 && AllOrigin(items)
  {
    seq(0x100000, _ => Point(0, 0))
  }

  lemma {:induction false} ZerosFit(size: nat, items: seq<Point>, k: nat)
    requires size >= 196923 && AllOrigin(items) && |items| == 0x100000 && k <= 0x10000
    ensures ChunkCount(size, items, k) == 0x10000
    decreases 0x10000 - k
  {
    hide Encode, AllOrigin;
    OriginEncoding(items, k);
    if k < 0x10000 {
      ZerosFit(size, items, k + 1);
    }
  }

  /** Every input makes at most 65535 chunks, and so reads back, if and only if the block has at most 196922 bytes. */
  lemma EveryInputFits(size: nat)
    ensures (forall input :: ChunkCount(size, input) <= 0xFFFF) <==> size <= 196922
  {
    hide ChunkCount, AllOrigin;
    if size <= 196922 {
      forall input ensures ChunkCount(size, input) <= 0xFFFF {
        SmallBlocksFit(size, input, 0);
      }
    } else {
      ZerosFit(size, ManyZeros(), 0);
    }
  }

  lemma ZerosAllFit(size: nat)
    requires size >= 196923
    ensures ChunkCount(size, ManyZeros()) == 0x10000 && Capacity(size, ManyZeros()) == 0x100000
  {
    hide ChunkCount, AllOrigin, Encode, ManyZeros;
    ZerosFit(size, ManyZeros(), 0);
    OriginEncoding(ManyZeros(), 0x10000);
  }

  /** In every larger block there is an input whose puts all succeed and of which nothing reads back: the
      chunk count wraps to 0. */
  method ChunkCountWraps(size: nat) returns (oks: seq<bool>, b: seq<u8>, out: seq<Point>)
    requires size >= 196923
    ensures |oks| == 0x100000 && forall i :: 0 <= i < |oks| ==> oks[i]
    ensures |b| == size && Done(b, ManyZeros(), 0x10000) && out == []
  {
    hide Done, ReadAll, U16, AllOrigin, ManyZeros, ChunkCount, Capacity, TotalSize, Start, Named;
    var items := ManyZeros();
    ZerosAllFit(size);
    var count, last;
    oks, count, b, out, last := WriteThenRead(0, size, items);
    assert items[..|items|] == items;
    WrappedIsEmpty(b, items);
  }

  lemma WrappedIsEmpty(b: seq<u8>, items: seq<Point>)
    requires Done(b, items, 0x10000) && |items| == 0x100000
    ensures |b| >= HEADER_SIZE && ReadAll(b, Start(), |items|).0 == []
  {
    hide Encode, Raw, At, ReadAll, U16;
    ReadAllBounded(b, Start(), |items|);
  }
}
