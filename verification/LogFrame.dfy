/** One frame of the write-ahead log: a table of data points, or a slotted page of names or recovery arrays. */
module LogFrame {
  import opened Bits
  import opened Numbers

  /** What was appended to the log. */
  datatype Row =
    | PointRow(id: u64, timestamp: u64, value: u64)
    | NameRow(id: u64, name: seq<u8>)
    | RecoveryRow(id: u64, words: seq<u64>)

  datatype FrameType = EMPTY | DATA_ENTRY | SNAME_ENTRY | RECOVERY_ENTRY

  /** The header fields and the bytes behind the header. */
  datatype Frame = Frame(kind: FrameType, number: nat, size: nat, data: seq<u8>)

  const DATA_SIZE := 8168
  const NUM_TUPLES := 340
  const SIZE_THRESHOLD := 64

  function Blank(kind: FrameType): Frame {
    Frame(kind, 0, 0, seq(DATA_SIZE, _ => 0))
  }

  // ----- Bytes in place

  function Splice(b: seq<u8>, off: nat, x: seq<u8>): (r: seq<u8>)
    requires off + |x| <= |b|
    ensures |r| == |b|
  {
    b[..off] + x + b[off + |x|..]
  }

  /** A store changes its own range and no other. */
  lemma SpliceAt(b: seq<u8>, off: nat, x: seq<u8>, lo: nat, hi: nat)
    requires off + |x| <= |b| && lo <= hi <= |b|
    ensures hi <= off || off + |x| <= lo ==> Splice(b, off, x)[lo..hi] == b[lo..hi]
    ensures lo == off && hi == off + |x| ==> Splice(b, off, x)[lo..hi] == x
  {}

  function Word(b: seq<u8>, off: nat): u64
    requires off + 8 <= |b|
  {
    FromBytes(b[off..off + 8])
  }

  lemma WordBack(x: u64)
    ensures FromBytes(ToBytes(x, 8)) == x
  {
    WidthAtMost8(x);
    BytesRoundTrip(x, 8);
  }

  function Bytes4(n: nat): (s: seq<u8>)
    ensures |s| == 4
  {
    NumberBytes(n, 4)
  }

  function Number4(s: seq<u8>): nat { Number(s) }

  lemma Number4Back(n: nat)
    requires n < 0x1_0000_0000
    ensures Number4(Bytes4(n)) == n
  {
    assert Limit(4) == 0x1_0000_0000;
    NumberBack(n, 4);
  }

  // ----- Data points

  predicate Sized(f: Frame) { |f.data| == DATA_SIZE }

  function PointAt(f: Frame, i: nat): Row
    requires Sized(f) && i < NUM_TUPLES
  {
    PointRow(Word(f.data, 8 * i), Word(f.data, 2720 + 8 * i), Word(f.data, 5440 + 8 * i))
  }

  function PutPoint(f: Frame, id: u64, timestamp: u64, value: u64): (r: Frame)
    requires Sized(f) && f.size < NUM_TUPLES
    ensures Sized(r) && r.size == f.size + 1
  {
    var d1 := Splice(f.data, 8 * f.size, ToBytes(id, 8));
    var d2 := Splice(d1, 2720 + 8 * f.size, ToBytes(timestamp, 8));
    f.(size := f.size + 1, data := Splice(d2, 5440 + 8 * f.size, ToBytes(value, 8)))
  }

  lemma PutPointAt(f: Frame, id: u64, timestamp: u64, value: u64, i: nat)
    requires Sized(f) && f.size < NUM_TUPLES && i <= f.size
    ensures PointAt(PutPoint(f, id, timestamp, value), i) ==
      if i == f.size then PointRow(id, timestamp, value) else PointAt(f, i)
  {
    hide Splice, FromBytes, ToBytes, Word;
    var a, b, c := 8 * f.size, 2720 + 8 * f.size, 5440 + 8 * f.size;
    var x, y, z := ToBytes(id, 8), ToBytes(timestamp, 8), ToBytes(value, 8);
    var d1 := Splice(f.data, a, x);
    var d2 := Splice(d1, b, y);
    WordBack(id);
    WordBack(timestamp);
    WordBack(value);
    ApartFrom(f.data, a, x, i);
    ApartFrom(d1, b, y, i);
    ApartFrom(d2, c, z, i);
  }

  lemma WordApart(b: seq<u8>, off: nat, x: seq<u8>, at: nat)
    requires off + |x| <= |b| && |x| == 8 && at + 8 <= |b|
    ensures at + 8 <= off || off + 8 <= at ==> Word(Splice(b, off, x), at) == Word(b, at)
    ensures at == off ==> Word(Splice(b, off, x), at) == FromBytes(x)
  {
    hide FromBytes, Splice;
    SpliceAt(b, off, x, at, at + 8);
  }

  /** What a store does to the three columns of row `i`. */
  lemma ApartFrom(b: seq<u8>, off: nat, x: seq<u8>, i: nat)
    requires |b| == DATA_SIZE && i < NUM_TUPLES && |x| == 8 && off + 8 <= DATA_SIZE
    ensures
      var r := Splice(b, off, x);
      && (8 * i + 8 <= off || off + 8 <= 8 * i ==> Word(r, 8 * i) == Word(b, 8 * i))
      && (2728 + 8 * i <= off || off + 8 <= 2720 + 8 * i ==> Word(r, 2720 + 8 * i) == Word(b, 2720 + 8 * i))
      && (5448 + 8 * i <= off || off + 8 <= 5440 + 8 * i ==> Word(r, 5440 + 8 * i) == Word(b, 5440 + 8 * i))
      && Word(r, off) == FromBytes(x)
  {
    hide FromBytes, Splice, Word;
    WordApart(b, off, x, 8 * i);
    WordApart(b, off, x, 2720 + 8 * i);
    WordApart(b, off, x, 5440 + 8 * i);
    WordApart(b, off, x, off);
  }

  // ----- Slotted pages: payload from the front, descriptors from the back

  function Slot(i: nat): int { DATA_SIZE - 16 * i - 8 }

  function Len(f: Frame, i: nat): nat
    requires Sized(f) && 16 * (i + 1) <= DATA_SIZE
  {
    Number4(f.data[Slot(i)..Slot(i) + 4])
  }

  function Off(f: Frame, i: nat): nat
    requires Sized(f) && 16 * (i + 1) <= DATA_SIZE
  {
    Number4(f.data[Slot(i) + 4..Slot(i) + 8])
  }

  function BlobId(f: Frame, i: nat): u64
    requires Sized(f) && 16 * (i + 1) <= DATA_SIZE
  {
    Word(f.data, Slot(i) - 8)
  }

  /** Where the payload ends. */
  function End(f: Frame): nat
    requires Sized(f) && 16 * f.size <= DATA_SIZE
  {
    if f.size == 0 then 0 else Off(f, f.size - 1) + Len(f, f.size - 1)
  }

  /** The payloads follow each other without gaps, and stay clear of the descriptors. */
  ghost predicate Packed(f: Frame) {
    && Sized(f)
    && 16 * f.size <= DATA_SIZE
    && (forall i :: 0 <= i < f.size ==> Follows(f, i))
    && End(f) + 16 * f.size <= DATA_SIZE
  }

  ghost predicate Follows(f: Frame, i: nat)
    requires Sized(f) && 16 * (i + 1) <= DATA_SIZE
  {
    Off(f, i) == if i == 0 then 0 else Off(f, i - 1) + Len(f, i - 1)
  }

  lemma {:induction false} BelowEnd(f: Frame, i: nat)
    requires Packed(f) && i < f.size
    ensures Off(f, i) + Len(f, i) <= End(f)
    decreases f.size - i
  {
    hide Off, Len;
    if i < f.size - 1 {
      BelowEnd(f, i + 1);
      assert Follows(f, i + 1);
    }
  }

  function Blob(f: Frame, i: nat): seq<u8>
    requires Sized(f) && 16 * (i + 1) <= DATA_SIZE && Off(f, i) + Len(f, i) <= DATA_SIZE
  {
    f.data[Off(f, i)..Off(f, i) + Len(f, i)]
  }

  /** A payload of `n` bytes and its descriptor fit between what is there. */
  predicate Room(f: Frame, n: nat) {
    Sized(f) && 16 * (f.size + 1) <= DATA_SIZE && End(f) + n + 16 * (f.size + 1) <= DATA_SIZE
  }

  function PutBlob(f: Frame, id: u64, payload: seq<u8>): (r: Frame)
    requires Room(f, |payload|)
    ensures Sized(r) && r.size == f.size + 1 && r.kind == f.kind
  {
    var d1 := Splice(f.data, End(f), payload);
    var d2 := Splice(d1, Slot(f.size), Bytes4(|payload|) + Bytes4(End(f)));
    f.(size := f.size + 1, data := Splice(d2, Slot(f.size) - 8, ToBytes(id, 8)))
  }

  /** The new descriptor. */
  lemma PutBlobNew(f: Frame, id: u64, payload: seq<u8>)
    requires Room(f, |payload|)
    ensures
      var r := PutBlob(f, id, payload);
      && Off(r, f.size) == End(f) && Len(r, f.size) == |payload| && BlobId(r, f.size) == id
      && Blob(r, f.size) == payload
  {
    hide FromBytes, ToBytes, Splice, Number4, Bytes4;
    var w, s := End(f), Slot(f.size);
    var desc := Bytes4(|payload|) + Bytes4(w);
    var d1 := Splice(f.data, w, payload);
    var d2 := Splice(d1, s, desc);
    var d3 := Splice(d2, s - 8, ToBytes(id, 8));
    SpliceAt(f.data, w, payload, w, w + |payload|);
    SpliceAt(d1, s, desc, w, w + |payload|);
    SpliceAt(d2, s - 8, ToBytes(id, 8), w, w + |payload|);
    SpliceAt(d1, s, desc, s, s + 8);
    SpliceAt(d2, s - 8, ToBytes(id, 8), s, s + 8);
    SpliceAt(d2, s - 8, ToBytes(id, 8), s - 8, s);
    assert d3[s..s + 8] == desc;
    assert d3[s..s + 4] == desc[..4] == Bytes4(|payload|) && d3[s + 4..s + 8] == desc[4..] == Bytes4(w);
    Number4Back(|payload|);
    Number4Back(w);
    WordBack(id);
  }

  /** The earlier descriptors and payloads are untouched. */
  lemma PutBlobOld(f: Frame, id: u64, payload: seq<u8>, i: nat)
    requires Packed(f) && Room(f, |payload|) && i < f.size
    ensures
      var r := PutBlob(f, id, payload);
      && Off(r, i) == Off(f, i) && Len(r, i) == Len(f, i) && BlobId(r, i) == BlobId(f, i)
      && Off(f, i) + Len(f, i) <= End(f) && Blob(r, i) == Blob(f, i)
  {
    hide PutBlob, Number4, FromBytes;
    BelowEnd(f, i);
    KeptBelow(f, id, payload, Off(f, i), Off(f, i) + Len(f, i));
    KeptAbove(f, id, payload, Slot(i), Slot(i) + 4);
    KeptAbove(f, id, payload, Slot(i) + 4, Slot(i) + 8);
    KeptAbove(f, id, payload, Slot(i) - 8, Slot(i));
  }

  lemma KeptBelow(f: Frame, id: u64, payload: seq<u8>, lo: nat, hi: nat)
    requires Room(f, |payload|) && lo <= hi <= End(f)
    ensures PutBlob(f, id, payload).data[lo..hi] == f.data[lo..hi]
  {
    hide Splice, Bytes4, FromBytes, ToBytes, Number4;
    var w, s := End(f), Slot(f.size);
    var desc := Bytes4(|payload|) + Bytes4(w);
    var d1 := Splice(f.data, w, payload);
    var d2 := Splice(d1, s, desc);
    SpliceAt(f.data, w, payload, lo, hi);
    SpliceAt(d1, s, desc, lo, hi);
    SpliceAt(d2, s - 8, ToBytes(id, 8), lo, hi);
  }

  lemma KeptAbove(f: Frame, id: u64, payload: seq<u8>, lo: nat, hi: nat)
    requires Room(f, |payload|) && Slot(f.size) + 8 <= lo <= hi <= DATA_SIZE
    ensures PutBlob(f, id, payload).data[lo..hi] == f.data[lo..hi]
  {
    hide Splice, Bytes4, FromBytes, ToBytes, Number4;
    var w, s := End(f), Slot(f.size);
    var desc := Bytes4(|payload|) + Bytes4(w);
    var d1 := Splice(f.data, w, payload);
    var d2 := Splice(d1, s, desc);
    SpliceAt(f.data, w, payload, lo, hi);
    SpliceAt(d1, s, desc, lo, hi);
    SpliceAt(d2, s - 8, ToBytes(id, 8), lo, hi);
  }

  lemma PutBlobPacked(f: Frame, id: u64, payload: seq<u8>)
    requires Packed(f) && Room(f, |payload|)
    ensures Packed(PutBlob(f, id, payload)) && End(PutBlob(f, id, payload)) == End(f) + |payload|
  {
    hide PutBlob, Off, Len, Blob, BlobId;
    var r := PutBlob(f, id, payload);
    PutBlobNew(f, id, payload);
    forall i | 0 <= i < r.size ensures Follows(r, i) {
      if i < f.size {
        assert Follows(f, i);
        PutBlobOld(f, id, payload, i);
        if i > 0 {
          PutBlobOld(f, id, payload, i - 1);
        }
      } else if i > 0 {
        PutBlobOld(f, id, payload, i - 1);
      }
    }
  }

  // ----- Space

  /** The free space the writer computes: sixteen bytes less than there is, once the page is not empty. */
  function SpaceLeft(f: Frame): nat
    requires Sized(f) && 16 * f.size <= DATA_SIZE
  {
    if f.size == 0 then DATA_SIZE - 16
    else
      var used := End(f) + 16 * f.size + 16;
      if DATA_SIZE - 16 < used then 0 else DATA_SIZE - 16 - used
  }

  predicate CanWrite(f: Frame, len: nat)
    requires Sized(f) && 16 * f.size <= DATA_SIZE
  {
    len <= SpaceLeft(f)
  }

  /** A page kept for further writing has room for the threshold. */
  ghost predicate Loose(f: Frame) {
    Packed(f) && (f.size > 0 ==> CanWrite(f, SIZE_THRESHOLD))
  }

  lemma LooseRoom(f: Frame, len: nat)
    requires Loose(f) && CanWrite(f, len)
    ensures Room(f, len)
  {}

  // ----- Reading

  function Words(b: seq<u8>): seq<u64> {
    if |b| < 8 then [] else [FromBytes(b[..8])] + Words(b[8..])
  }

  function WordBytes(ws: seq<u64>): (b: seq<u8>)
    ensures |b| == 8 * |ws|
  {
    if ws == [] then [] else ToBytes(ws[0], 8) + WordBytes(ws[1..])
  }

  lemma {:induction false} WordsBack(ws: seq<u64>)
    ensures Words(WordBytes(ws)) == ws
  {
    hide FromBytes, ToBytes;
    if ws != [] {
      var b := WordBytes(ws);
      assert b[..8] == ToBytes(ws[0], 8) && b[8..] == WordBytes(ws[1..]);
      WordBack(ws[0]);
      WordsBack(ws[1..]);
    }
  }

  function BlobRow(kind: FrameType, id: u64, payload: seq<u8>): Row {
    if kind == SNAME_ENTRY then NameRow(id, payload) else RecoveryRow(id, Words(payload))
  }

  /** A frame as the writer leaves it. */
  ghost predicate FrameGood(f: Frame) {
    match f.kind
    case EMPTY => Sized(f) && f.size == 0
    case DATA_ENTRY => Sized(f) && f.size <= NUM_TUPLES
    case _ => Packed(f)
  }

  function RowAt(f: Frame, i: nat): Row
    requires FrameGood(f) && i < f.size
  {
    if f.kind == DATA_ENTRY then PointAt(f, i)
    else
      BelowEnd(f, i);
      BlobRow(f.kind, BlobId(f, i), Blob(f, i))
  }

  /** The rows of a frame, in order. */
  ghost function Rows(f: Frame): seq<Row>
    requires FrameGood(f)
  {
    seq(f.size, i requires 0 <= i < f.size => RowAt(f, i))
  }

  lemma PointAdded(f: Frame, id: u64, timestamp: u64, value: u64)
    requires FrameGood(f) && f.kind == DATA_ENTRY && f.size < NUM_TUPLES
    ensures FrameGood(PutPoint(f, id, timestamp, value))
    ensures Rows(PutPoint(f, id, timestamp, value)) == Rows(f) + [PointRow(id, timestamp, value)]
  {
    hide PointAt;
    var r := PutPoint(f, id, timestamp, value);
    forall i | 0 <= i < r.size ensures Rows(r)[i] == (Rows(f) + [PointRow(id, timestamp, value)])[i] {
      PutPointAt(f, id, timestamp, value, i);
    }
  }

  lemma BlobAdded(f: Frame, id: u64, payload: seq<u8>)
    requires FrameGood(f) && (f.kind == SNAME_ENTRY || f.kind == RECOVERY_ENTRY) && Room(f, |payload|)
    ensures FrameGood(PutBlob(f, id, payload))
    ensures Rows(PutBlob(f, id, payload)) == Rows(f) + [BlobRow(f.kind, id, payload)]
  {
    hide PutBlob, Off, Len, Blob, BlobId, Packed;
    var r := PutBlob(f, id, payload);
    PutBlobPacked(f, id, payload);
    PutBlobNew(f, id, payload);
    forall i | 0 <= i < r.size ensures Rows(r)[i] == (Rows(f) + [BlobRow(f.kind, id, payload)])[i] {
      if i < f.size {
        PutBlobOld(f, id, payload, i);
      }
    }
  }

  ghost predicate AllGood(fs: seq<Frame>) {
    forall i :: 0 <= i < |fs| ==> FrameGood(fs[i])
  }

  ghost function RowsAll(fs: seq<Frame>): seq<Row>
    requires AllGood(fs)
  {
    if fs == [] then [] else RowsAll(fs[..|fs| - 1]) + Rows(fs[|fs| - 1])
  }

  lemma BlankGood(kind: FrameType)
    ensures FrameGood(Blank(kind)) && Rows(Blank(kind)) == []
    ensures kind == SNAME_ENTRY || kind == RECOVERY_ENTRY ==>
              Loose(Blank(kind)) && forall n: nat :: n <= DATA_SIZE - 16 ==> CanWrite(Blank(kind), n)
  {}
}
