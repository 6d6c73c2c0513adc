/** What the logs keep of the commands they were given. */
module LogKept {
  import opened Bits
  import opened LogFrame
  import opened LogSlips
  import opened LogSteps
  import opened InputLogs

  ghost predicate IsSuffix<T>(x: seq<T>, y: seq<T>) {
    |x| <= |y| && x == y[|y| - |x|..]
  }

  /** The size of a file with these frames. */
  ghost function SizeOf(fs: seq<Frame>, lz4: Packer): nat {
    if fs == [] then 0 else SizeOf(fs[..|fs| - 1], lz4) + 4 + lz4(fs)
  }

  /** The volumes keep the end of `ops`, cut into their runs. All of it is kept while there are fewer volumes than
      allowed, and every volume but the newest is full. */
  ghost predicate Keeps(volumes: seq<Volume>, ops: seq<Op>, c: Config) {
    && 1 <= |volumes| <= c.count
    && IsSuffix(Joined(RunsIn(volumes)), ops)
    && (|volumes| < c.count ==> Joined(RunsIn(volumes)) == ops)
    && (forall k :: 0 <= k < |volumes| ==> volumes[k].fileSize == SizeOf(volumes[k].written, c.lz4))
    && (forall k :: 1 <= k < |volumes| ==> volumes[k].fileSize >= c.limit)
  }

  // ----- Sizes

  ghost predicate SizeRight(d: Disk, lz4: Packer) {
    d.fileSize == SizeOf(d.written, lz4)
  }

  lemma WroteSize(d: Disk, lz4: Packer)
    requires SizeRight(d, lz4)
    ensures SizeRight(Wrote(d, lz4), lz4) && Wrote(d, lz4).fileSize >= d.fileSize
  {
    var f := d.page.(number := d.counter);
    assert (d.written + [f])[..|d.written|] == d.written;
  }

  lemma FlushSize(d: Disk, kind: FrameType, lz4: Packer)
    requires SizeRight(d, lz4)
    ensures SizeRight(FlushTo(d, kind, lz4), lz4)
  {
    WroteSize(d, lz4);
  }

  lemma RequireSize(d: Disk, kind: FrameType, lz4: Packer)
    requires SizeRight(d, lz4)
    ensures SizeRight(Require(d, kind, lz4), lz4)
  {
    FlushSize(d, kind, lz4);
  }

  lemma RoomSize(d: Disk, kind: FrameType, len: nat, lz4: Packer)
    requires SizeRight(d, lz4)
    ensures SizeRight(MakeRoomFor(d, kind, len, lz4), lz4)
  {
    hide RoomFor;
    FlushSize(d, kind, lz4);
  }

  lemma BlobSize(d: Disk, kind: FrameType, id: u64, payload: seq<u8>, lz4: Packer)
    requires SizeRight(d, lz4)
    ensures SizeRight(StepBlob(d, kind, id, payload, lz4), lz4)
  {
    hide Require, MakeRoomFor, PlaceBlob;
    RequireSize(d, kind, lz4);
    var w := MakeRoomFor(Require(d, kind, lz4), kind, |payload|, lz4);
    RoomSize(Require(d, kind, lz4), kind, |payload|, lz4);
    RoomSize(w.(page := PlaceBlob(w.page, id, payload)), kind, SIZE_THRESHOLD, lz4);
  }

  lemma StepSize(d: Disk, op: Op, lz4: Packer)
    requires SizeRight(d, lz4)
    ensures SizeRight(Step(d, op, lz4), lz4)
  {
    hide Require, StepBlob, PlacePoint, WordBytes;
    match op {
      case Put(PointRow(id, timestamp, value)) =>
        var w := Require(d, DATA_ENTRY, lz4);
        RequireSize(d, DATA_ENTRY, lz4);
        FlushSize(w.(page := PlacePoint(w.page, id, timestamp, value)), EMPTY, lz4);
      case Put(NameRow(id, name)) =>
        BlobSize(d, SNAME_ENTRY, id, name, lz4);
      case Put(RecoveryRow(id, words)) =>
        BlobSize(d, RECOVERY_ENTRY, id, WordBytes(words), lz4);
      case Flush =>
        FlushSize(d, EMPTY, lz4);
    }
  }

  // ----- One log

  lemma RunsCons(v: Volume, rest: seq<Volume>)
    ensures Joined(RunsIn([v] + rest)) == Joined(RunsIn(rest)) + v.run
  {
    hide Joined;
    assert RunsIn([v] + rest) == [v.run] + RunsIn(rest);
    JoinedCons(v.run, RunsIn(rest));
  }

  /** The newest volume goes on. */
  lemma FrontReplaced(volumes: seq<Volume>, w: Volume, ops: seq<Op>, more: seq<Op>, c: Config)
    requires Keeps(volumes, ops, c) && w.run == volumes[0].run + more && w.fileSize == SizeOf(w.written, c.lz4)
    ensures Keeps(volumes[0 := w], ops + more, c)
  {
    hide SizeOf, RunsIn, IsSuffix, Joined;
    RunsFront(volumes);
    RunsFront(volumes[0 := w]);
    assert volumes[0 := w][1..] == volumes[1..];
    SuffixMore(Joined(RunsIn(volumes)), ops, more);
    assert Joined(RunsIn(volumes[0 := w])) == Joined(RunsIn(volumes)) + more;
  }

  lemma RunsFront(volumes: seq<Volume>)
    requires volumes != []
    ensures Joined(RunsIn(volumes)) == Joined(RunsIn(volumes[1..])) + volumes[0].run
  {
    assert RunsIn(volumes)[1..] == RunsIn(volumes[1..]);
  }

  lemma SuffixMore(x: seq<Op>, y: seq<Op>, more: seq<Op>)
    requires IsSuffix(x, y)
    ensures IsSuffix(x + more, y + more)
  {}

  lemma FrontKeeps(l: Log, ops: seq<Op>, op: Op, c: Config)
    requires Keeps(l.volumes, ops, c)
    ensures l.volumes != [] && Keeps(FrontStep(l, op, c.lz4).volumes, ops + [op], c)
  {
    hide Keeps, Step, SizeOf;
    KeepsFront(l.volumes, ops, c);
    var v := l.volumes[0];
    StepSize(DiskOf(v, l.counter), op, c.lz4);
    FrontReplaced(l.volumes, VolumeOf(Step(DiskOf(v, l.counter), op, c.lz4), v.run + [op]), ops, [op], c);
  }

  lemma CloseKeeps(l: Log, ops: seq<Op>, c: Config)
    requires Keeps(l.volumes, ops, c)
    ensures l.volumes != [] && Keeps(CloseFront(l, c.lz4).volumes, ops, c)
    ensures CloseFront(l, c.lz4).volumes[0].fileSize >= l.volumes[0].fileSize
  {
    hide Keeps, Wrote, SizeOf;
    KeepsFront(l.volumes, ops, c);
    var v := l.volumes[0];
    WroteSize(DiskOf(v, l.counter), c.lz4);
    assert v.run + [] == v.run && ops + [] == ops;
    FrontReplaced(l.volumes, VolumeOf(Closing(DiskOf(v, l.counter), c.lz4), v.run), ops, [], c);
  }

  lemma KeepsFront(volumes: seq<Volume>, ops: seq<Op>, c: Config)
    requires Keeps(volumes, ops, c)
    ensures volumes != [] && volumes[0].fileSize == SizeOf(volumes[0].written, c.lz4)
  {}

  lemma DropKeeps(volumes: seq<Volume>, ops: seq<Op>, c: Config)
    requires Keeps(volumes, ops, c) && |volumes| > 1
    ensures Keeps(volumes[..|volumes| - 1], ops, c.(count := |volumes| - 1))
  {
    hide Joined, SizeOf;
    var (n, rs) := (|volumes| - 1, RunsIn(volumes));
    JoinedLast(rs);
    assert RunsIn(volumes[..n]) == rs[..n];
  }

  lemma FreshKeeps(volumes: seq<Volume>, ops: seq<Op>, c: Config, d: Config)
    requires Keeps(volumes, ops, c) && volumes[0].fileSize >= c.limit && d.limit == c.limit && d.lz4 == c.lz4
    requires |volumes| < d.count && (d.count <= c.count || d.count == |volumes| + 1)
    ensures Keeps([FreshVolume()] + volumes, ops, d)
  {
    hide Joined;
    RunsCons(FreshVolume(), volumes);
  }

  /** Rotation after an overflow. */
  lemma RotateKeeps(l: Log, ops: seq<Op>, c: Config)
    requires Keeps(l.volumes, ops, c) && l.volumes[0].fileSize >= c.limit
    ensures Keeps(Rotated(l, c).volumes, ops, c)
  {
    hide Keeps, CloseFront;
    KeepsCount(l.volumes, ops, c);
    if |l.volumes| < c.count {
      CloseKeeps(l, ops, c);
      FreshKeeps(CloseFront(l, c.lz4).volumes, ops, c, c);
    } else if |l.volumes| > 1 {
      var less := l.(volumes := l.volumes[..|l.volumes| - 1]);
      var d := c.(count := |l.volumes| - 1);
      DropKeeps(l.volumes, ops, c);
      CloseKeeps(less, ops, d);
      FreshKeeps(CloseFront(less, c.lz4).volumes, ops, d, c);
    } else {
      OnlyFresh(ops, c);
    }
  }

  lemma KeepsCount(volumes: seq<Volume>, ops: seq<Op>, c: Config)
    requires Keeps(volumes, ops, c)
    ensures 1 <= |volumes| <= c.count
  {}

  lemma OnlyFresh(ops: seq<Op>, c: Config)
    requires c.count == 1
    ensures Keeps([FreshVolume()] + [], ops, c)
  {
    RunsCons(FreshVolume(), []);
    assert RunsIn([]) == [];
  }

  lemma LogStepKeeps(l: Log, ops: seq<Op>, op: Op, c: Config)
    requires Keeps(l.volumes, ops, c)
    ensures Keeps(LogStep(l, op, c).volumes, ops + [op], c)
  {
    hide Keeps, Rotated, Step;
    KeepsCount(l.volumes, ops, c);
    FrontKeeps(l, ops, op, c);
    if FrontOverflows(l, op, c) {
      RotateKeeps(FrontStep(l, op, c.lz4), ops + [op], c);
    }
  }

  // ----- All shards

  lemma NothingYet(n: nat, c: Config, i: nat)
    requires i < n && c.count > 0
    ensures Keeps(After(n, c, []).logs[i], OpsFor([], n, i), c)
  {
    RunsCons(FreshVolume(), []);
    assert [FreshVolume()] + [] == [FreshVolume()] && RunsIn([]) == [];
  }

  /** Every shard keeps the end of what was sent to it. */
  lemma {:induction false} KeepsEnd(n: nat, c: Config, commands: seq<Command>, i: nat)
    requires i < n && c.count > 0
    ensures Keeps(After(n, c, commands).logs[i], OpsFor(commands, n, i), c)
  {
    hide Keeps, LogStep, OpIn;
    if commands == [] {
      NothingYet(n, c, i);
    } else {
      var (before, last) := (commands[..|commands| - 1], commands[|commands| - 1]);
      var s := After(n, c, before);
      KeepsEnd(n, c, before, i);
      if last.shard % n == i {
        LogStepKeeps(Log(s.logs[i], s.counter), OpsFor(before, n, i), OpIn(last), c);
      } else {
        assert OpsFor(before, n, i) + [] == OpsFor(before, n, i);
      }
    }
  }

  /** The runs of the volumes that every shard keeps. */
  ghost function KeptRuns(n: nat, c: Config, commands: seq<Command>): (r: seq<seq<seq<Op>>>)
    requires n > 0
    ensures |r| == n && forall i :: 0 <= i < n ==> r[i] == RunsIn(After(n, c, commands).logs[i])
  {
    seq(n, i requires 0 <= i < n => RunsIn(After(n, c, commands).logs[i]))
  }

  // ----- While nothing was dropped

  lemma {:induction false} RowsConcatOps(a: seq<Op>, b: seq<Op>)
    ensures RowsOf(a + b) == RowsOf(a) + RowsOf(b)
    decreases |b|
  {
    if b == [] {
      assert a + b == a;
    } else {
      var n := |b| - 1;
      assert (a + b)[..|a| + n] == a + b[..n];
      RowsConcatOps(a, b[..n]);
    }
  }

  lemma {:induction false} KeptIsJoined(runs: seq<seq<Op>>)
    ensures KeptRows(runs) == RowsOf(Joined(runs))
  {
    hide RowsOf;
    if runs == [] {
      assert RowsEach(runs) == [];
      NoRowsYet();
    } else {
      KeptIsJoined(runs[1..]);
      assert RowsEach(runs)[1..] == RowsEach(runs[1..]);
      RowsConcatOps(Joined(runs[1..]), runs[0]);
    }
  }

  lemma NoRowsYet()
    ensures RowsOf([]) == []
  {}

  /** A shard with fewer volumes than allowed keeps every row sent to it. */
  lemma KeepsAll(n: nat, c: Config, commands: seq<Command>, i: nat)
    requires i < n && |After(n, c, commands).logs[i]| < c.count
    ensures KeptRows(KeptRuns(n, c, commands)[i]) == RowsOf(OpsFor(commands, n, i))
  {
    hide After, OpsFor, Joined, RowsOf, KeptRows;
    KeepsEnd(n, c, commands, i);
    KeptIsJoined(KeptRuns(n, c, commands)[i]);
  }
}
