/** Frames without rows: recovery takes one for the end of its stream, and so loses what was written behind it. */
module LogSlips {
  import opened Bits
  import opened LogFrame

  predicate NoneEmpty(fs: seq<Frame>) {
    forall i :: 0 <= i < |fs| ==> fs[i].size > 0
  }

  /** The frames before the first one without rows: `choose_next` takes such a frame for the end of its stream. */
  function Trim(fs: seq<Frame>): seq<Frame> {
    if fs == [] || fs[0].size == 0 then [] else [fs[0]] + Trim(fs[1..])
  }

  lemma {:induction false} TrimNothing(fs: seq<Frame>)
    requires NoneEmpty(fs)
    ensures Trim(fs) == fs
  {
    if fs != [] {
      TrimNothing(fs[1..]);
    }
  }

  lemma GoodConcat(a: seq<Frame>, b: seq<Frame>)
    requires AllGood(a) && AllGood(b)
    ensures AllGood(a + b) && (b != [] ==> AllGood(b[..|b| - 1]) && FrameGood(b[|b| - 1]))
  {
    hide FrameGood;
  }

  lemma {:induction false} RowsConcat(a: seq<Frame>, b: seq<Frame>)
    requires AllGood(a) && AllGood(b)
    ensures AllGood(a + b) && RowsAll(a + b) == RowsAll(a) + RowsAll(b)
    decreases |b|
  {
    hide FrameGood, Rows, AllGood;
    GoodConcat(a, b);
    if b == [] {
      assert a + b == a;
    } else {
      var n := |b| - 1;
      RowsConcat(a, b[..n]);
      assert (a + b)[..|a| + n] == a + b[..n];
    }
  }

  /** Reading on behind a part without empty frames; an empty frame ends everything. */
  lemma {:induction false} TrimConcat(a: seq<Frame>, b: seq<Frame>)
    ensures Trim(a + b) == if NoneEmpty(a) then a + Trim(b) else Trim(a)
    decreases |a|
  {
    if a == [] {
      assert a + b == b;
    } else {
      assert (a + b)[1..] == a[1..] + b;
      if a[0].size != 0 {
        TrimConcat(a[1..], b);
        TailNoneEmpty(a);
        if NoneEmpty(a) {
          assert [a[0]] + (a[1..] + Trim(b)) == a + Trim(b);
        }
      }
    }
  }

  lemma TailNoneEmpty(fs: seq<Frame>)
    requires fs != [] && fs[0].size != 0
    ensures NoneEmpty(fs) <==> NoneEmpty(fs[1..])
  {
    if NoneEmpty(fs[1..]) {
      forall i | 0 <= i < |fs| ensures fs[i].size > 0 {
        if i > 0 {
          assert fs[1..][i - 1] == fs[i];
        }
      }
    }
  }

  lemma {:induction false} TrimGood(fs: seq<Frame>)
    requires AllGood(fs)
    ensures AllGood(Trim(fs)) && NoneEmpty(Trim(fs))
  {
    hide FrameGood;
    if fs != [] && fs[0].size != 0 {
      TrimGood(fs[1..]);
    }
  }

  /** What recovery gives back of the rows in a file: all of them, or only the first so many, once a frame without rows
      was written behind these. */
  ghost predicate Slipped(written: seq<Frame>, history: seq<Row>, slip: Option<nat>) {
    && AllGood(written) && AllGood(Trim(written))
    && (slip.None? <==> NoneEmpty(written))
    && (slip.Some? ==> slip.value <= |history| && RowsAll(Trim(written)) == history[..slip.value])
  }

  /** What is behind an empty frame is lost already. */
  lemma SlippedMore(written: seq<Frame>, history: seq<Row>, slip: Option<nat>, row: Row)
    requires Slipped(written, history, slip)
    ensures Slipped(written, history + [row], slip)
  {
    hide AllGood, RowsAll, NoneEmpty;
    if slip.Some? {
      assert (history + [row])[..slip.value] == history[..slip.value];
    }
  }

  /** A frame without rows is the first slip, if there was none before. */
  function NextSlip(slip: Option<nat>, size: nat, rows: nat): Option<nat> {
    if slip.None? && size == 0 then Some(rows) else slip
  }

  lemma SlippedWrite(written: seq<Frame>, history: seq<Row>, slip: Option<nat>, f: Frame)
    requires Slipped(written, history, slip) && FrameGood(f)
    requires f.size == 0 ==> RowsAll(written) == history
    ensures Slipped(written + [f], history, NextSlip(slip, f.size, |history|))
  {
    hide FrameGood, RowsAll, Rows;
    TrimConcat(written, [f]);
    assert (written + [f])[|written|] == f;
    assert [f][1..] == [];
    assert forall i :: 0 <= i < |written| ==> (written + [f])[i] == written[i];
    TrimGood(written + [f]);
    if slip.None? {
      TrimNothing(written);
      assert history[..|history|] == history;
      assert written + [] == written;
    }
  }

  /** Recovery of a file is complete if and only if there was no slip with rows behind it. */
  lemma SlippedMeaning(written: seq<Frame>, history: seq<Row>, slip: Option<nat>)
    requires Slipped(written, history, slip) && RowsAll(written) == history
    requires slip.Some? ==> slip.value < |history|
    ensures RowsAll(Trim(written)) == (if slip.Some? then history[..slip.value] else history)
    ensures RowsAll(Trim(written)) == history <==> slip.None?
  {
    if slip.None? {
      TrimNothing(written);
    }
  }

  // ----- Which runs leave a frame without rows behind

  /** What a volume is told: a row, or to write what is buffered. */
  datatype Op = Put(row: Row) | Flush

  /** The frame being filled: its kind, its rows, and the payload bytes in a page of names or recovery arrays. */
  datatype Page = Page(kind: FrameType, size: nat, used: nat)

  function KindOf(row: Row): FrameType {
    match row
    case PointRow(_, _, _) => DATA_ENTRY
    case NameRow(_, _) => SNAME_ENTRY
    case RecoveryRow(_, _) => RECOVERY_ENTRY
  }

  function LengthOf(row: Row): nat {
    match row
    case PointRow(_, _, _) => 0
    case NameRow(_, name) => |name|
    case RecoveryRow(_, words) => 8 * |words|
  }

  /** Whether a payload of so many bytes still goes into the page. */
  predicate Takes(p: Page, len: nat) {
    var used := if p.size == 0 then 0 else p.used + 16 * p.size + 16;
    len <= if DATA_SIZE - 16 < used then 0 else DATA_SIZE - 16 - used
  }

  /** The page once it has the kind of the next row. */
  function Opened(p: Page, kind: FrameType): Page {
    if p.kind == kind then p else Page(kind, 0, 0)
  }

  function WithPoint(p: Page): Page {
    if p.size + 1 == NUM_TUPLES then Page(EMPTY, 0, 0) else Page(p.kind, p.size + 1, 0)
  }

  function WithBlob(p: Page, len: nat): Page {
    var q := if Takes(p, len) then p else Page(p.kind, 0, 0);
    var r := Page(q.kind, q.size + 1, q.used + len);
    if Takes(r, SIZE_THRESHOLD) then r else Page(p.kind, 0, 0)
  }

  function NextPage(p: Page, op: Op): Page {
    match op
    case Put(row) =>
      var q := Opened(p, KindOf(row));
      if row.PointRow? then WithPoint(q) else WithBlob(q, LengthOf(row))
    case Flush => if p.size == 0 then p else Page(EMPTY, 0, 0)
  }

  function PageAfter(ops: seq<Op>): Page {
    if ops == [] then Page(EMPTY, 0, 0) else NextPage(PageAfter(ops[..|ops| - 1]), ops[|ops| - 1])
  }

  function RowsOf(ops: seq<Op>): seq<Row> {
    if ops == [] then []
    else
      var (before, op) := (ops[..|ops| - 1], ops[|ops| - 1]);
      if op.Put? then RowsOf(before) + [op.row] else RowsOf(before)
  }

  /** A row of another kind meets a page that was started and has no rows. */
  predicate Meets(p: Page, kind: FrameType) {
    p.kind != EMPTY && p.kind != kind && p.size == 0
  }

  /** How many rows come before the first one that meets such a page, if one does. */
  function SlipOf(ops: seq<Op>): Option<nat> {
    if ops == [] then None
    else
      var (before, op) := (ops[..|ops| - 1], ops[|ops| - 1]);
      if op.Put? && Meets(PageAfter(before), KindOf(op.row)) then NextSlip(SlipOf(before), 0, |RowsOf(before)|)
      else SlipOf(before)
  }

  lemma RunMore(ops: seq<Op>, op: Op)
    ensures PageAfter(ops + [op]) == NextPage(PageAfter(ops), op)
    ensures RowsOf(ops + [op]) == if op.Put? then RowsOf(ops) + [op.row] else RowsOf(ops)
    ensures SlipOf(ops + [op]) ==
            if op.Put? && Meets(PageAfter(ops), KindOf(op.row)) then NextSlip(SlipOf(ops), 0, |RowsOf(ops)|)
            else SlipOf(ops)
  {
    hide NextPage, Meets, NextSlip;
    assert (ops + [op])[..|ops|] == ops;
  }

  /** The frame is filled as far as the page says. */
  ghost predicate IsPage(f: Frame, p: Page) {
    && f.kind == p.kind && f.size == p.size && Sized(f)
    && (f.kind == SNAME_ENTRY || f.kind == RECOVERY_ENTRY ==> 16 * f.size <= DATA_SIZE && End(f) == p.used)
  }

  lemma BlankPage(kind: FrameType)
    ensures IsPage(Blank(kind), Page(kind, 0, 0))
  {}

  lemma PageTakes(f: Frame, p: Page, len: nat)
    requires IsPage(f, p) && (f.kind == SNAME_ENTRY || f.kind == RECOVERY_ENTRY)
    ensures CanWrite(f, len) <==> Takes(p, len)
  {}

  lemma PointPage(f: Frame, p: Page, id: u64, timestamp: u64, value: u64)
    requires IsPage(f, p) && f.kind == DATA_ENTRY && f.size < NUM_TUPLES
    ensures IsPage(PutPoint(f, id, timestamp, value), Page(p.kind, p.size + 1, 0))
  {}

  lemma BlobPage(f: Frame, p: Page, id: u64, payload: seq<u8>)
    requires IsPage(f, p) && (f.kind == SNAME_ENTRY || f.kind == RECOVERY_ENTRY) && Room(f, |payload|)
    ensures IsPage(PutBlob(f, id, payload), Page(p.kind, p.size + 1, p.used + |payload|))
  {
    hide PutBlob, Off, Len, Blob, BlobId;
    PutBlobNew(f, id, payload);
  }
}
