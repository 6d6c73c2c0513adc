/** One volume of the write-ahead log and the sequence numbers its frames get (`LZ4Volume`, `LogSequencer`). */
module LogVolume {
  import opened Bits
  import opened LogFrame
  import opened LogSlips
  import LogSteps
  import opened Numbers

  datatype Status = Ok | Overflow

  class LogSequencer {
    var counter: nat

    constructor ()
      ensures counter == 0
    {
      counter := 0;
    }

    method Next() returns (n: nat)
      modifies this
      ensures n == old(counter) && counter == n + 1
    {
      n := counter;
      counter := counter + 1;
    }
  }

  /** The ids that have a data point among the rows. */
  function PointIds(rows: seq<Row>): set<u64> {
    set r | r in rows && r.PointRow? :: r.id
  }

  /** Frames as they lie in the file: readable, numbered upwards, all below the next number. */
  ghost predicate FileGood(written: seq<Frame>, counter: nat) {
    && AllGood(written)
    && (forall i :: 0 <= i < |written| ==> written[i].number < counter)
    && (forall i, j :: 0 <= i < j < |written| ==> written[i].number < written[j].number)
  }

  /** Frames were added to the file, numbered from `counter` on. */
  ghost predicate Extends(before: seq<Frame>, after: seq<Frame>, counter: nat) {
    before <= after && forall i :: |before| <= i < |after| ==> after[i].number >= counter
  }

  /** The frame being filled: never full, and a page always has room for the threshold. */
  ghost predicate Fillable(f: Frame) {
    && FrameGood(f)
    && (f.kind == DATA_ENTRY ==> f.size < NUM_TUPLES)
    && (f.kind == SNAME_ENTRY || f.kind == RECOVERY_ENTRY ==> Loose(f))
  }

  /** The file and the current frame hold exactly the appended rows. */
  ghost predicate VolumeGood(written: seq<Frame>, current: Frame, counter: nat, history: seq<Row>, bitmap: set<u64>) {
    && FileGood(written, counter)
    && Fillable(current)
    && RowsAll(written) + Rows(current) == history
    && bitmap == PointIds(history)
  }

  lemma FileGrows(written: seq<Frame>, f: Frame, counter: nat)
    requires FileGood(written, counter) && FrameGood(f) && f.number == counter
    ensures FileGood(written + [f], counter + 1) && RowsAll(written + [f]) == RowsAll(written) + Rows(f)
  {
    hide FrameGood, Rows;
    assert (written + [f])[..|written|] == written;
  }

  lemma Renumbered(f: Frame, n: nat)
    requires FrameGood(f)
    ensures FrameGood(f.(number := n)) && Rows(f.(number := n)) == Rows(f)
  {
    hide Number, FromBytes, Words;
    var g := f.(number := n);
    if f.kind == SNAME_ENTRY || f.kind == RECOVERY_ENTRY {
      assert forall i :: 0 <= i < f.size ==> Follows(g, i) == Follows(f, i);
    }
    assert Rows(g) == Rows(f);
  }

  /** Writing the current frame moves its rows to the file. */
  lemma Flushed(written: seq<Frame>, f: Frame, counter: nat, history: seq<Row>, bitmap: set<u64>, kind: FrameType)
    requires FileGood(written, counter) && FrameGood(f) && RowsAll(written) + Rows(f) == history
    requires bitmap == PointIds(history)
    ensures FrameGood(f.(number := counter)) && FileGood(written + [f.(number := counter)], counter + 1)
    ensures RowsAll(written + [f.(number := counter)]) == history
    ensures VolumeGood(written + [f.(number := counter)], Blank(kind), counter + 1, history, bitmap)
  {
    hide FrameGood, Rows, RowsAll, PointIds, Loose, FileGood;
    Renumbered(f, counter);
    FileGrows(written, f.(number := counter), counter);
    BlankGood(kind);
    assert history + [] == history;
    BlankFillable(kind);
  }

  lemma BlankFillable(kind: FrameType)
    ensures Fillable(Blank(kind))
  {
    BlankGood(kind);
  }

  lemma PointIdsMore(rows: seq<Row>, r: Row)
    ensures PointIds(rows + [r]) == if r.PointRow? then PointIds(rows) + {r.id} else PointIds(rows)
  {
    assert forall x :: x in rows + [r] <==> x in rows || x == r;
    if r.PointRow? {
      assert r in rows + [r];
    }
  }

  lemma Typed(f: Frame, kind: FrameType)
    requires Fillable(f) && f.kind == EMPTY
    ensures Fillable(f.(kind := kind)) && Rows(f.(kind := kind)) == Rows(f) == []
  {
    var g := f.(kind := kind);
    assert Rows(g) == [] == Rows(f);
  }

  class LZ4Volume {
    const sequencer: LogSequencer
    const maxFileSize: nat
    /** How many bytes the compressor makes of the last of these frames. */
    const packed: seq<Frame> -> nat
    var frames: seq<Frame>
    var pos: nat
    var fileSize: nat
    var bitmap: set<u64>
    var written: seq<Frame>
    var isOpen: bool

    /** The rows appended, and how many of them come before the first frame written without rows, if there is one. */
    ghost var history: seq<Row>
    ghost var slip: Option<nat>
    /** The run so far. */
    ghost var log: seq<Op>

    /** The volume as a value. */
    ghost function View(): LogSteps.Disk
      reads this, sequencer
    {
      LogSteps.Disk(if pos < |frames| then frames[pos] else Blank(EMPTY), fileSize, written, sequencer.counter)
    }

    ghost function Value(): LogSteps.Volume
      reads this
    {
      LogSteps.Volume(if pos < |frames| then frames[pos] else Blank(EMPTY), fileSize, written, log)
    }

    ghost predicate Sound()
      reads this, sequencer
    {
      && |frames| == 2 && pos < 2 && Slipped(written, history, slip)
      && if isOpen then VolumeGood(written, frames[pos], sequencer.counter, history, bitmap)
         else FileGood(written, sequencer.counter) && RowsAll(written) == history && bitmap == PointIds(history)
    }

    /** Between appends there is a row behind every frame written without rows, and the run says which page is being
        filled and whether there was a slip. */
    ghost predicate Valid()
      reads this, sequencer
    {
      && Sound() && (slip.Some? ==> slip.value < |history|)
      && history == RowsOf(log) && slip == SlipOf(log)
      && (isOpen ==> IsPage(frames[pos], PageAfter(log)))
    }

    /** Other volumes may take numbers in between. */
    twostate lemma Later()
      requires old(Valid()) && unchanged(this) && old(sequencer.counter) <= sequencer.counter
      ensures Valid()
    {
      hide FileGood, VolumeGood, Slipped, RowsAll, PointIds;
      if isOpen {
        VolumeGoodLater(written, frames[pos], old(sequencer.counter), sequencer.counter, history, bitmap);
      } else {
        FileGoodLater(written, old(sequencer.counter), sequencer.counter);
      }
    }

    constructor (s: LogSequencer, limit: nat, lz4: seq<Frame> -> nat)
      ensures Valid() && isOpen && sequencer == s && maxFileSize == limit && history == [] && written == []
      ensures slip == None && log == [] && packed == lz4
      ensures View() == LogSteps.Disk(Blank(EMPTY), 0, [], s.counter)
    {
      sequencer, maxFileSize, packed := s, limit, lz4;
      frames, pos, fileSize, bitmap, written, isOpen := [Blank(EMPTY), Blank(EMPTY)], 0, 0, {}, [], true;
      history, slip, log := [], None, [];
      BlankGood(EMPTY);
    }

    /** Writes the current frame under the next sequence number. */
    method Write()
      requires |frames| == 2 && pos < 2
      modifies this`frames, this`written, this`fileSize, sequencer
      ensures sequencer.counter == old(sequencer.counter) + 1
      ensures written == old(written) + [old(frames[pos]).(number := old(sequencer.counter))]
      ensures frames == old(frames)[pos := old(frames[pos]).(number := old(sequencer.counter))]
      ensures View() == LogSteps.Wrote(old(View()), packed)
    {
      var n := sequencer.Next();
      frames := frames[pos := frames[pos].(number := n)];
      written := written + [frames[pos]];
      fileSize := fileSize + 4 + packed(written);
    }

    /** Turns to the other frame and clears it. */
    method Turn(kind: FrameType)
      requires |frames| == 2 && pos < 2
      modifies this`frames, this`pos
      ensures |frames| == 2 && pos == 1 - old(pos) && View() == old(View()).(page := Blank(kind))
    {
      pos := (pos + 1) % 2;
      frames := frames[pos := Blank(EMPTY)];
      frames := frames[pos := frames[pos].(kind := kind)];
    }

    method FlushCurrentFrame(kind: FrameType)
      requires |frames| == 2 && pos < 2 && isOpen && FileGood(written, sequencer.counter) && FrameGood(frames[pos])
      requires RowsAll(written) + Rows(frames[pos]) == history && bitmap == PointIds(history)
      requires Slipped(written, history, slip)
      modifies this`frames, this`pos, this`written, this`fileSize, this`slip, sequencer
      ensures Sound() && frames[pos] == Blank(kind) && sequencer.counter == old(sequencer.counter) + 1
      ensures written == old(written) + [old(frames[pos]).(number := old(sequencer.counter))]
      ensures slip == NextSlip(old(slip), old(frames[pos].size), |history|)
      ensures View() == LogSteps.FlushTo(old(View()), kind, packed)
    {
      hide FrameGood, Rows, RowsAll, PointIds, FileGood, VolumeGood, Slipped;
      Flushed(written, frames[pos], sequencer.counter, history, bitmap, kind);
      FileFacts(written, sequencer.counter);
      WriteSlip(written, history, slip, frames[pos], sequencer.counter);
      slip := NextSlip(slip, frames[pos].size, |history|);
      Write();
      Turn(kind);
    }

    method RequireFrameType(kind: FrameType)
      requires Valid() && isOpen && kind != EMPTY
      modifies this`frames, this`pos, this`written, this`fileSize, this`slip, sequencer
      ensures Sound() && frames[pos].kind == kind
      ensures Extends(old(written), written, old(sequencer.counter)) && sequencer.counter >= old(sequencer.counter)
      ensures slip == if Meets(PageAfter(log), kind) then NextSlip(old(slip), 0, |history|) else old(slip)
      ensures IsPage(frames[pos], Opened(PageAfter(log), kind))
      ensures View() == LogSteps.Require(old(View()), kind, packed)
    {
      hide FrameGood, Rows, RowsAll, PointIds, FileGood, Fillable, Slipped, PageAfter, End, RowsOf, SlipOf;
      FillableGood(frames[pos]);
      BlankPage(kind);
      if frames[pos].kind == EMPTY {
        Typed(frames[pos], kind);
        TypedPage(frames[pos], kind);
        frames := frames[pos := frames[pos].(kind := kind)];
      } else if frames[pos].kind != kind {
        FlushCurrentFrame(kind);
      }
    }

    method Append(id: u64, timestamp: u64, value: u64) returns (status: Status)
      requires Valid() && isOpen
      modifies this, sequencer
      ensures Valid() && isOpen && history == old(history) + [PointRow(id, timestamp, value)]
      ensures Extends(old(written), written, old(sequencer.counter)) && sequencer.counter >= old(sequencer.counter)
      ensures log == old(log) + [Put(PointRow(id, timestamp, value))]
      ensures View() == LogSteps.StepPoint(old(View()), id, timestamp, value, packed)
      ensures status == if fileSize >= maxFileSize then Overflow else Ok
    {
      hide FrameGood, Rows, RowsAll, PointIds, FileGood, Fillable, Slipped, PageAfter, IsPage, RowsOf, SlipOf;
      hide LogSteps.Require, LogSteps.PlacePoint, LogSteps.Wrote;
      RequireFrameType(DATA_ENTRY);
      ghost var row, page := PointRow(id, timestamp, value), Opened(PageAfter(log), DATA_ENTRY);
      RunMore(log, Put(row));
      log := log + [Put(row)];
      AddPoint(id, timestamp, value, page);
      BlankPage(EMPTY);
      if frames[pos].size == NUM_TUPLES {
        Flushed(written, frames[pos], sequencer.counter, history, bitmap, EMPTY);
        FileFacts(written, sequencer.counter);
        WriteSlip(written, history, slip, frames[pos], sequencer.counter);
        Write();
        Turn(EMPTY);
      }
      status := if fileSize >= maxFileSize then Overflow else Ok;
    }

    /** Puts a point into the table. */
    method AddPoint(id: u64, timestamp: u64, value: u64, ghost page: Page)
      requires Sound() && isOpen && frames[pos].kind == DATA_ENTRY && IsPage(frames[pos], page)
      modifies this`frames, this`history, this`bitmap
      ensures |frames| == 2 && history == old(history) + [PointRow(id, timestamp, value)]
      ensures FrameGood(frames[pos]) && frames[pos].kind == DATA_ENTRY && frames[pos].size == page.size + 1
      ensures FileGood(written, sequencer.counter) && RowsAll(written) + Rows(frames[pos]) == history
      ensures bitmap == PointIds(history) && Slipped(written, history, slip)
      ensures IsPage(frames[pos], Page(page.kind, page.size + 1, 0)) && page.size < NUM_TUPLES
      ensures frames[pos].size < NUM_TUPLES ==> Fillable(frames[pos])
      ensures View() == old(View()).(page := LogSteps.PlacePoint(old(View()).page, id, timestamp, value))
    {
      hide FrameGood, Rows, RowsAll, PointIds, FileGood, Fillable, Slipped, IsPage;
      ghost var row := PointRow(id, timestamp, value);
      PointStep(frames[pos], id, timestamp, value);
      PageSame(frames[pos], page);
      PointPage(frames[pos], page, id, timestamp, value);
      PointIdsMore(history, row);
      FileFacts(written, sequencer.counter);
      assert history + [row] == RowsAll(written) + (Rows(frames[pos]) + [row]);
      SlippedMore(written, history, slip, row);
      bitmap := bitmap + {id};
      frames := frames[pos := PutPoint(frames[pos], id, timestamp, value)];
      history := history + [row];
    }

    /** Appends a name or the bytes of a recovery array. */
    method AppendBlob(kind: FrameType, id: u64, payload: seq<u8>) returns (status: Status)
      requires Valid() && isOpen && (kind == SNAME_ENTRY || kind == RECOVERY_ENTRY)
      requires |payload| <= DATA_SIZE - 16 && (kind == RECOVERY_ENTRY ==> |payload| % 8 == 0)
      modifies this, sequencer
      ensures Valid() && isOpen && history == old(history) + [BlobRow(kind, id, payload)]
      ensures Extends(old(written), written, old(sequencer.counter)) && sequencer.counter >= old(sequencer.counter)
      ensures log == old(log) + [Put(BlobRow(kind, id, payload))]
      ensures View() == LogSteps.StepBlob(old(View()), kind, id, payload, packed)
      ensures status == if fileSize >= maxFileSize then Overflow else Ok
    {
      hide FrameGood, Rows, RowsAll, PointIds, FileGood, Fillable, CanWrite, BlobRow, PutBlob, Room, End, Slipped;
      hide PageAfter, IsPage, RowsOf, SlipOf, Takes, KindOf, LengthOf;
      hide LogSteps.Require, LogSteps.MakeRoomFor, LogSteps.PlaceBlob;
      RequireFrameType(kind);
      ghost var row, page := BlobRow(kind, id, payload), Opened(PageAfter(log), kind);
      RunMore(log, Put(row));
      RowFacts(kind, id, payload);
      page := MakeRoom(kind, |payload|, page);
      log := log + [Put(row)];
      AddBlob(kind, id, payload, page);
      SealPage(kind, Page(page.kind, page.size + 1, page.used + |payload|));
      status := if fileSize >= maxFileSize then Overflow else Ok;
    }

    /** A page that takes so many bytes. */
    method MakeRoom(kind: FrameType, len: nat, ghost page: Page) returns (ghost now: Page)
      requires Sound() && isOpen && (kind == SNAME_ENTRY || kind == RECOVERY_ENTRY) && len <= DATA_SIZE - 16
      requires frames[pos].kind == kind && IsPage(frames[pos], page)
      modifies this`frames, this`pos, this`written, this`fileSize, this`slip, sequencer
      ensures Sound() && frames[pos].kind == kind && slip == old(slip)
      ensures Extends(old(written), written, old(sequencer.counter)) && sequencer.counter >= old(sequencer.counter)
      ensures now == (if Takes(page, len) then page else Page(kind, 0, 0)) && IsPage(frames[pos], now)
      ensures Sized(frames[pos]) && 16 * frames[pos].size <= DATA_SIZE && CanWrite(frames[pos], len)
      ensures View() == LogSteps.MakeRoomFor(old(View()), kind, len, packed)
    {
      hide FrameGood, Rows, RowsAll, PointIds, FileGood, Fillable, CanWrite, Slipped, Takes, IsPage, End;
      now := page;
      PageSized(frames[pos]);
      PageTakes(frames[pos], page, len);
      if !CanWrite(frames[pos], len) {
        EmptyTakes(frames[pos], len);
        FillableGood(frames[pos]);
        FlushCurrentFrame(kind);
        BlankPage(kind);
        BlankGood(kind);
        PageSized(frames[pos]);
        now := Page(kind, 0, 0);
      }
    }

    /** Puts a payload that fits into the page. */
    method AddBlob(kind: FrameType, id: u64, payload: seq<u8>, ghost page: Page)
      requires Sound() && isOpen && (kind == SNAME_ENTRY || kind == RECOVERY_ENTRY) && frames[pos].kind == kind
      requires IsPage(frames[pos], page) && CanWrite(frames[pos], |payload|)
      modifies this`frames, this`history
      ensures |frames| == 2 && history == old(history) + [BlobRow(kind, id, payload)]
      ensures FrameGood(frames[pos]) && frames[pos].kind == kind && frames[pos].size > 0
      ensures FileGood(written, sequencer.counter) && RowsAll(written) + Rows(frames[pos]) == history
      ensures bitmap == PointIds(history) && Slipped(written, history, slip)
      ensures IsPage(frames[pos], Page(page.kind, page.size + 1, page.used + |payload|))
      ensures Sized(frames[pos]) && 16 * frames[pos].size <= DATA_SIZE
      ensures CanWrite(frames[pos], SIZE_THRESHOLD) ==> Fillable(frames[pos])
      ensures View() == old(View()).(page := LogSteps.PlaceBlob(old(View()).page, id, payload))
    {
      hide FrameGood, Rows, RowsAll, PointIds, FileGood, Fillable, CanWrite, BlobRow, PutBlob, Room, End, Slipped;
      hide IsPage;
      ghost var row := BlobRow(kind, id, payload);
      PageSized(frames[pos]);
      BlobStep(frames[pos], id, payload);
      BlobPage(frames[pos], page, id, payload);
      PointIdsMore(history, row);
      FileFacts(written, sequencer.counter);
      assert history + [row] == RowsAll(written) + (Rows(frames[pos]) + [row]);
      NotPoint(kind, id, payload);
      SlippedMore(written, history, slip, row);
      frames := frames[pos := PutBlob(frames[pos], id, payload)];
      history := history + [row];
    }

    /** Writes a page without room for the threshold. */
    method SealPage(kind: FrameType, ghost page: Page)
      requires |frames| == 2 && pos < 2 && isOpen && FileGood(written, sequencer.counter) && FrameGood(frames[pos])
      requires RowsAll(written) + Rows(frames[pos]) == history && bitmap == PointIds(history)
      requires Slipped(written, history, slip) && IsPage(frames[pos], page)
      requires frames[pos].kind == kind && frames[pos].size > 0 && (kind == SNAME_ENTRY || kind == RECOVERY_ENTRY)
      requires Sized(frames[pos]) && 16 * frames[pos].size <= DATA_SIZE
      requires CanWrite(frames[pos], SIZE_THRESHOLD) ==> Fillable(frames[pos])
      modifies this`frames, this`pos, this`written, this`fileSize, this`slip, sequencer
      ensures Sound() && slip == old(slip)
      ensures Extends(old(written), written, old(sequencer.counter)) && sequencer.counter >= old(sequencer.counter)
      ensures IsPage(frames[pos], if Takes(page, SIZE_THRESHOLD) then page else Page(kind, 0, 0))
      ensures View() == LogSteps.MakeRoomFor(old(View()), kind, SIZE_THRESHOLD, packed)
    {
      hide FrameGood, Rows, RowsAll, PointIds, FileGood, Fillable, CanWrite, Slipped, IsPage, Takes, LogSteps.FlushTo;
      BlankPage(kind);
      PageTakes(frames[pos], page, SIZE_THRESHOLD);
      if !CanWrite(frames[pos], SIZE_THRESHOLD) {
        FlushCurrentFrame(kind);
      }
    }

    method AppendName(id: u64, name: seq<u8>) returns (status: Status)
      requires Valid() && isOpen && |name| <= DATA_SIZE - 16
      modifies this, sequencer
      ensures Valid() && isOpen && history == old(history) + [NameRow(id, name)]
      ensures Extends(old(written), written, old(sequencer.counter)) && sequencer.counter >= old(sequencer.counter)
      ensures log == old(log) + [Put(NameRow(id, name))]
      ensures View() == LogSteps.Step(old(View()), Put(NameRow(id, name)), packed)
      ensures status == if fileSize >= maxFileSize then Overflow else Ok
    {
      hide Valid, LogSteps.StepBlob, Extends, Words;
      status := AppendBlob(SNAME_ENTRY, id, name);
    }

    method AppendRecovery(id: u64, words: seq<u64>) returns (status: Status)
      requires Valid() && isOpen && 8 * |words| <= DATA_SIZE - 16
      modifies this, sequencer
      ensures Valid() && isOpen && history == old(history) + [RecoveryRow(id, words)]
      ensures log == old(log) + [Put(RecoveryRow(id, words))]
      ensures View() == LogSteps.Step(old(View()), Put(RecoveryRow(id, words)), packed)
      ensures Extends(old(written), written, old(sequencer.counter)) && sequencer.counter >= old(sequencer.counter)
      ensures status == if fileSize >= maxFileSize then Overflow else Ok
    {
      hide Valid, LogSteps.StepBlob, Extends, Words, WordBytes;
      WordsBack(words);
      status := AppendBlob(RECOVERY_ENTRY, id, WordBytes(words));
    }

    /** Writes what is buffered, if anything. */
    method Flush() returns (status: Status)
      requires Valid() && isOpen
      modifies this`frames, this`pos, this`written, this`fileSize, this`log, sequencer
      ensures Valid() && RowsAll(written) == history && slip == old(slip) && log == old(log) + [Op.Flush]
      ensures Extends(old(written), written, old(sequencer.counter)) && sequencer.counter >= old(sequencer.counter)
      ensures status == if old(View().page.size) != 0 && fileSize >= maxFileSize then Overflow else Ok
      ensures View() == LogSteps.Step(old(View()), Op.Flush, packed)
    {
      hide FrameGood, PointIds, FileGood, Fillable, RowsAll, Slipped, PageAfter, RowsOf, SlipOf, End;
      FillableGood(frames[pos]);
      RunMore(log, Op.Flush);
      BlankPage(EMPTY);
      log := log + [Op.Flush];
      if frames[pos].size != 0 {
        Flushed(written, frames[pos], sequencer.counter, history, bitmap, EMPTY);
        FileFacts(written, sequencer.counter);
        WriteSlip(written, history, slip, frames[pos], sequencer.counter);
        Write();
        Turn(EMPTY);
        if fileSize >= maxFileSize {
          return Overflow;
        }
      } else {
        assert Rows(frames[pos]) == [];
      }
      return Ok;
    }

    /** Closing loses no buffered row. Recovery of the file then gives back every row if and only if the run made no
        slip, that is, no row met a page of another kind that was started and had no rows; otherwise it gives back the
        rows before the first such row. */
    method Close()
      requires Valid() && isOpen
      modifies this`frames, this`written, this`fileSize, this`isOpen, sequencer
      ensures Valid() && !isOpen && RowsAll(written) == history
      ensures written == old(written) + if old(frames[pos].size) == 0 then []
        else [old(frames[pos]).(number := old(sequencer.counter))]
      ensures Extends(old(written), written, old(sequencer.counter)) && sequencer.counter >= old(sequencer.counter)
      ensures history == RowsOf(log) && AllGood(Trim(written))
      ensures RowsAll(Trim(written)) == history <==> SlipOf(log).None?
      ensures View() == LogSteps.Closing(old(View()), packed)
      ensures RowsAll(Trim(written)) == if SlipOf(log).Some? then history[..SlipOf(log).value] else history
    {
      hide FrameGood, PointIds, FileGood, Fillable, RowsAll, Slipped, PageAfter, RowsOf, SlipOf, End;
      FillableGood(frames[pos]);
      if frames[pos].size != 0 {
        Flushed(written, frames[pos], sequencer.counter, history, bitmap, EMPTY);
        FileFacts(written, sequencer.counter);
        WriteSlip(written, history, slip, frames[pos], sequencer.counter);
        Write();
      } else {
        assert Rows(frames[pos]) == [];
      }
      isOpen := false;
      FileFacts(written, sequencer.counter);
      SlippedFacts(written, history, slip);
      SlippedMeaning(written, history, slip);
    }
  }

  /** A page without rows takes any payload that a page can take. */
  lemma EmptyTakes(f: Frame, n: nat)
    requires Fillable(f) && (f.kind == SNAME_ENTRY || f.kind == RECOVERY_ENTRY) && n <= DATA_SIZE - 16
    requires Sized(f) && 16 * f.size <= DATA_SIZE && !CanWrite(f, n)
    ensures f.size > 0
  {}

  lemma WriteSlip(written: seq<Frame>, history: seq<Row>, slip: Option<nat>, f: Frame, n: nat)
    requires Slipped(written, history, slip) && FrameGood(f) && AllGood(written)
    requires RowsAll(written) + Rows(f) == history
    ensures Slipped(written + [f.(number := n)], history, NextSlip(slip, f.size, |history|))
  {
    hide FrameGood, RowsAll, Slipped;
    Renumbered(f, n);
    if f.size == 0 {
      assert Rows(f) == [];
    }
    SlippedWrite(written, history, slip, f.(number := n));
  }

  lemma SlippedFacts(written: seq<Frame>, history: seq<Row>, slip: Option<nat>)
    requires Slipped(written, history, slip)
    ensures AllGood(Trim(written))
  {}

  lemma FileFacts(written: seq<Frame>, counter: nat)
    requires FileGood(written, counter)
    ensures AllGood(written)
  {}

  lemma FillableGood(f: Frame)
    requires Fillable(f)
    ensures FrameGood(f)
  {}

  lemma PageSized(f: Frame)
    requires Fillable(f) && (f.kind == SNAME_ENTRY || f.kind == RECOVERY_ENTRY)
    ensures Sized(f) && 16 * f.size <= DATA_SIZE && FrameGood(f)
  {}

  lemma PageSame(f: Frame, p: Page)
    requires IsPage(f, p)
    ensures f.kind == p.kind && f.size == p.size
  {}

  lemma TypedPage(f: Frame, kind: FrameType)
    requires FrameGood(f) && f.kind == EMPTY
    ensures IsPage(f.(kind := kind), Page(kind, 0, 0))
  {}

  lemma {:induction false} WordsLength(b: seq<u8>)
    requires |b| % 8 == 0
    ensures 8 * |Words(b)| == |b|
    decreases |b|
  {
    hide FromBytes;
    if |b| >= 8 {
      WordsLength(b[8..]);
    }
  }

  lemma RowFacts(kind: FrameType, id: u64, payload: seq<u8>)
    requires (kind == SNAME_ENTRY || kind == RECOVERY_ENTRY) && (kind == RECOVERY_ENTRY ==> |payload| % 8 == 0)
    ensures var row := BlobRow(kind, id, payload); !row.PointRow? && KindOf(row) == kind && LengthOf(row) == |payload|
  {
    hide Words;
    if kind == RECOVERY_ENTRY {
      WordsLength(payload);
    }
  }

  lemma NotPoint(kind: FrameType, id: u64, payload: seq<u8>)
    ensures !BlobRow(kind, id, payload).PointRow?
  {}

  lemma PointStep(f: Frame, id: u64, timestamp: u64, value: u64)
    requires Fillable(f) && f.kind == DATA_ENTRY
    ensures Sized(f) && f.size < NUM_TUPLES
    ensures
      var g := PutPoint(f, id, timestamp, value);
      FrameGood(g) && FrameGood(f) && g.kind == DATA_ENTRY && Rows(g) == Rows(f) + [PointRow(id, timestamp, value)] &&
      (g.size < NUM_TUPLES ==> Fillable(g))
  {
    PointAdded(f, id, timestamp, value);
  }

  lemma BlobStep(f: Frame, id: u64, payload: seq<u8>)
    requires Fillable(f) && (f.kind == SNAME_ENTRY || f.kind == RECOVERY_ENTRY)
    requires Sized(f) && 16 * f.size <= DATA_SIZE && CanWrite(f, |payload|)
    ensures Room(f, |payload|)
    ensures
      var g := PutBlob(f, id, payload);
      FrameGood(g) && FrameGood(f) && g.kind == f.kind && Rows(g) == Rows(f) + [BlobRow(f.kind, id, payload)] &&
      16 * g.size <= DATA_SIZE && (CanWrite(g, SIZE_THRESHOLD) ==> Fillable(g))
  {
    hide PutBlob, End;
    LooseRoom(f, |payload|);
    BlobAdded(f, id, payload);
    PutBlobPacked(f, id, payload);
  }

  lemma FileGoodLater(written: seq<Frame>, counter: nat, later: nat)
    requires FileGood(written, counter) && counter <= later
    ensures FileGood(written, later)
  {}

  lemma VolumeGoodLater(written: seq<Frame>, current: Frame, counter: nat, later: nat, history: seq<Row>,
                        bitmap: set<u64>)
    requires VolumeGood(written, current, counter, history, bitmap) && counter <= later
    ensures VolumeGood(written, current, later, history, bitmap)
  {
    hide Fillable, FrameGood;
    FileGoodLater(written, counter, later);
  }
}
