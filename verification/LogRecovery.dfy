/** What recovery gives back of what was logged. */
module LogRecovery {
  import opened Bits
  import opened LogFrame
  import opened LogSlips
  import LogVolume
  import InputLogs
  import LogSteps
  import LogKept
  import LogShards
  import opened ShardMerge

  // ----- There is one global order, whatever the buffer sizes

  lemma FindSmallest(ahead: seq<seq<Frame>>) returns (ix: nat)
    requires exists i :: 0 <= i < |ahead| && ahead[i] != []
    ensures Smallest(ahead, ix)
  {
    ix :| 0 <= ix < |ahead| && ahead[ix] != [];
    var i := 0;
    while i < |ahead|
      invariant i <= |ahead| && ix < |ahead| && ahead[ix] != []
      invariant forall j :: 0 <= j < i && ahead[j] != [] ==> ahead[ix][0].number <= ahead[j][0].number
    {
      if ahead[i] != [] && ahead[i][0].number < ahead[ix][0].number {
        ix := i;
      }
      i := i + 1;
    }
  }

  ghost predicate EachGood(all: seq<seq<Frame>>) {
    forall i :: 0 <= i < |all| ==> AllGood(all[i])
  }

  /** The rows of each stream. */
  ghost function RowsEach(all: seq<seq<Frame>>): (r: seq<seq<Row>>)
    requires EachGood(all)
    ensures |r| == |all| && forall i :: 0 <= i < |all| ==> r[i] == RowsAll(all[i])
  {
    seq(|all|, i requires 0 <= i < |all| => RowsAll(all[i]))
  }

  lemma MergeableGood(all: seq<seq<Frame>>)
    requires Mergeable(all)
    ensures EachGood(all)
  {}

  /** A frame taken from its stream takes its rows with it. */
  lemma RowsLess(ahead: seq<seq<Frame>>, ix: nat)
    requires ix < |ahead| && ahead[ix] != [] && EachGood(ahead)
    ensures EachGood(ahead[ix := ahead[ix][1..]])
    ensures Bag(RowsEach(ahead)) == multiset(Rows(ahead[ix][0])) + Bag(RowsEach(ahead[ix := ahead[ix][1..]]))
  {
    hide FrameGood, RowsAll, Rows, Bag;
    var f, tail := ahead[ix][0], ahead[ix][1..];
    RowsConcat([f], tail);
    assert [f] + tail == ahead[ix];
    RowsOne(f);
    assert RowsEach(ahead[ix := tail]) == RowsEach(ahead)[ix := RowsAll(tail)];
    BagSplit(RowsEach(ahead), ix, RowsAll(tail));
    Regroup(Bag(RowsEach(ahead)), multiset(Rows(f)), multiset(RowsAll(tail)));
  }

  lemma RowsOne(f: Frame)
    requires FrameGood(f)
    ensures AllGood([f]) && RowsAll([f]) == Rows(f)
  {
    assert [f][..0] == [];
  }

  lemma Regroup(all: multiset<Row>, a: multiset<Row>, b: multiset<Row>)
    requires a + b <= all
    ensures all == a + (all - (a + b) + b)
  {}

  lemma {:induction false} OrderFrom(all: seq<seq<Frame>>, ahead: seq<seq<Frame>>, done: seq<Frame>)
    returns (order: seq<Frame>)
    requires Merging(all, ahead, done)
    ensures InOrder(order, all) && EachGood(ahead)
    ensures multiset(RowsAll(order)) == multiset(RowsAll(done)) + Bag(RowsEach(ahead))
    decreases Count(ahead)
  {
    hide Mergeable, AllGood, RowsAll, RowsEach, Smallest;
    MergingFacts(all, ahead, done);
    MergeableGood(ahead);
    if ix :| 0 <= ix < |ahead| && ahead[ix] != [] {
      var s := FindSmallest(ahead);
      SmallestIs(ahead, s);
      Advance(all, ahead, done, s);
      CountLess(ahead, s);
      RowsLess(ahead, s);
      order := OrderFrom(all, ahead[s := ahead[s][1..]], done + [ahead[s][0]]);
    } else {
      BagEmpty(ahead);
      NoRowsLeft(ahead);
      order := done;
    }
  }

  lemma SmallestIs(ahead: seq<seq<Frame>>, ix: nat)
    requires Smallest(ahead, ix)
    ensures ix < |ahead| && ahead[ix] != []
  {}

  lemma NoRowsLeft(ahead: seq<seq<Frame>>)
    requires EachGood(ahead) && forall i :: 0 <= i < |ahead| ==> ahead[i] == []
    ensures Bag(RowsEach(ahead)) == multiset{}
  {
    BagEmpty(RowsEach(ahead));
  }

  /** There is a global order, and its rows are the rows of the streams. */
  lemma OrderExists(all: seq<seq<Frame>>) returns (order: seq<Frame>)
    requires Mergeable(all)
    ensures InOrder(order, all) && EachGood(all)
    ensures multiset(RowsAll(order)) == Bag(RowsEach(all))
  {
    hide Mergeable;
    order := OrderFrom(all, all, []);
  }

  /** Two readings to the end give the same rows, however the buffers were sized. */
  lemma SameOutput(all: seq<seq<Frame>>, a: seq<Row>, b: seq<Row>)
    requires Mergeable(Trimmed(all)) && IsAll(a, Trimmed(all)) && IsAll(b, Trimmed(all))
    ensures a == b
  {
    hide Mergeable, InOrder;
    var order := OrderExists(Trimmed(all));
  }

  // ----- Frames without rows

  /** The writer does leave such a frame behind: a long name fills its page, the next page is started as a page of
      names, and a data point then flushes it empty. The data point is written, but recovery stops before it. */
  method LostPoint(name: seq<u8>, value: u64) returns (volume: LogVolume.LZ4Volume)
    requires |name| == 8100
    ensures volume.history == [NameRow(1, name), PointRow(2, 3, value)]
    ensures AllGood(volume.written) && RowsAll(volume.written) == volume.history
    ensures AllGood(Trim(volume.written)) && RowsAll(Trim(volume.written)) == [NameRow(1, name)]
  {
    hide LogVolume.LZ4Volume.Valid, SlipOf, RowsOf, RowsAll, Trim, LogVolume.Extends, LogVolume.LZ4Volume.View;
    hide LogSteps.Step, LogSteps.StepPoint, LogSteps.Closing;
    var sequencer := new LogVolume.LogSequencer();
    volume := new LogVolume.LZ4Volume(sequencer, 0x1_0000_0000, _ => 100);
    var s1 := volume.AppendName(1, name);
    var s2 := volume.Append(2, 3, value);
    LostRun(name, value, volume.log);
    volume.Close();
    VolumeFile(volume);
    assert volume.history[..1] == [NameRow(1, name)];
  }

  lemma LostRun(name: seq<u8>, value: u64, run: seq<Op>)
    requires |name| == 8100 && run == [Put(NameRow(1, name)), Put(PointRow(2, 3, value))]
    ensures SlipOf(run) == Some(1)
  {
    var one := [Put(NameRow(1, name))];
    RunMore([], one[0]);
    assert [] + [one[0]] == one && run == one + [run[1]];
    RunMore(one, run[1]);
  }

  lemma VolumeFile(v: LogVolume.LZ4Volume)
    requires v.Valid() && !v.isOpen
    ensures AllGood(v.written)
  {}

  // ----- Log, rotate, recover

  lemma {:induction false} BagCount<T>(ss: seq<seq<T>>)
    ensures |Bag(ss)| == Count(ss)
    decreases |ss|
  {
    if ss != [] {
      BagCount(ss[..|ss| - 1]);
    }
  }

  /** Beginnings have as many elements as the wholes exactly when they are the wholes. */
  lemma {:induction false} CountPrefix<T>(xs: seq<seq<T>>, ys: seq<seq<T>>)
    requires |xs| == |ys| && forall i :: 0 <= i < |xs| ==> xs[i] <= ys[i]
    ensures Count(xs) <= Count(ys) && (Count(xs) == Count(ys) <==> xs == ys)
    decreases |xs|
  {
    if xs != [] {
      var n := |xs| - 1;
      CountPrefix(xs[..n], ys[..n]);
      assert xs == xs[..n] + [xs[n]] && ys == ys[..n] + [ys[n]];
      assert |xs[n]| == |ys[n]| ==> xs[n] == ys[n];
    }
  }

  /** All of a log that several streams wrote. */
  method ReadAll(all: seq<seq<Frame>>, size: nat) returns (rows: seq<Row>)
    requires Mergeable(Trimmed(all)) && size > 0
    ensures IsAll(rows, Trimmed(all))
  {
    hide Mergeable, Trimmed, InOrder, ShardedInputLog.Valid;
    ghost var order := OrderExists(Trimmed(all));
    OrderGood(order, Trimmed(all));
    var reader := new ShardedInputLog(all);
    rows := [];
    while true
      invariant reader.Valid() && reader.all == all && fresh(reader) && rows == reader.given
      invariant rows == [] || rows <= RowsAll(order)
      decreases |RowsAll(order)| - |rows|
    {
      var status, more := reader.ReadNext(size);
      rows := rows + more;
      if status == NoData {
        return;
      }
    }
  }

  /** What a reader finds of `n` shards that were given these commands and then closed. */
  ghost function Files(n: nat, c: LogSteps.Config, commands: seq<LogSteps.Command>): (all: seq<seq<Frame>>)
    requires n > 0
    ensures |all| == n
  {
    LogShards.FilesOf(LogSteps.CloseUpTo(LogSteps.After(n, c, commands), n, c.lz4).logs)
  }

  /** Main theorem on the log: any commands to any number of shards, each rotating through any number of volumes; then
      close, and read everything back. The files and the runs that are kept are functions of the commands and the
      settings; a shard keeps the end of what was sent to it, and all of it while it has fewer volumes than allowed.
      What comes back are rows in the order of the frames over all shards, of each shard a beginning of the rows kept;
      everything that is kept comes back if and only if no run of a kept volume makes a slip. */
  method LogAndRecover(n: nat, c: LogSteps.Config, commands: seq<LogSteps.Command>, size: nat)
    returns (rows: seq<Row>, all: seq<seq<Frame>>)
    requires n > 0 && c.count > 0 && size > 0
    requires forall k :: 0 <= k < |commands| ==> LogSteps.Fits(commands[k])
    ensures all == Files(n, c, commands)
    ensures forall i :: 0 <= i < n ==>
              LogKept.Keeps(LogSteps.After(n, c, commands).logs[i], LogSteps.OpsFor(commands, n, i), c)
    ensures forall i :: 0 <= i < n ==> InputLogs.GivesBack(all[i], LogKept.KeptRuns(n, c, commands)[i])
    ensures Mergeable(Trimmed(all)) && IsAll(rows, Trimmed(all))
    ensures var runs := LogKept.KeptRuns(n, c, commands);
            multiset(rows) == Bag(KeptEach(runs)) <==> forall i :: 0 <= i < n ==> InputLogs.NoSlip(runs[i])
  {
    hide LogShards.ShardedLog.Valid, InputLogs.GivesBack, Mergeable, IsAll, Bag, Trimmed, LogShards.StreamsGood;
    hide KeptEach, LogKept.Keeps, LogSteps.After, LogKept.KeptRuns, LogSteps.OpsFor, LogSteps.CloseUpTo;
    var shards := WriteAll(n, c, commands);
    ghost var runs := LogKept.KeptRuns(n, c, commands);
    all := shards.Close();
    LogShards.StreamsMergeable(all, shards.sequencer.counter);
    rows := ReadAll(all, size);
    Complete(all, runs, rows);
    forall i | 0 <= i < n
      ensures LogKept.Keeps(LogSteps.After(n, c, commands).logs[i], LogSteps.OpsFor(commands, n, i), c)
    {
      LogKept.KeepsEnd(n, c, commands, i);
    }
  }

  /** The rows kept of each shard. */
  ghost function KeptEach(runs: seq<seq<seq<Op>>>): (r: seq<seq<Row>>)
    ensures |r| == |runs| && forall i :: 0 <= i < |runs| ==> r[i] == InputLogs.KeptRows(runs[i])
  {
    seq(|runs|, i requires 0 <= i < |runs| => InputLogs.KeptRows(runs[i]))
  }

  /** The commands carried out. */
  method WriteAll(n: nat, c: LogSteps.Config, commands: seq<LogSteps.Command>) returns (shards: LogShards.ShardedLog)
    requires n > 0 && c.count > 0 && forall k :: 0 <= k < |commands| ==> LogSteps.Fits(commands[k])
    ensures shards.Valid() && fresh(shards.sequencer) && fresh(LogShards.AllVolumes(shards.logs))
    ensures |shards.logs| == n && shards.settings == c && shards.View() == LogSteps.After(n, c, commands)
    ensures forall i :: 0 <= i < n ==> shards.logs[i].Runs() == LogKept.KeptRuns(n, c, commands)[i]
  {
    hide LogShards.ShardedLog.Valid, LogSteps.ShardStep, InputLogs.InputLog.Runs, LogShards.ShardedLog.View;
    shards := new LogShards.ShardedLog(n, c.count, c.limit, c.lz4);
    for k := 0 to |commands|
      invariant shards.Valid() && |shards.logs| == n && shards.settings == c
      invariant fresh(shards.logs) && fresh(shards.sequencer) && fresh(LogShards.AllVolumes(shards.logs))
      invariant shards.View() == LogSteps.After(n, c, commands[..k])
    {
      shards.Execute(commands[k]);
      assert commands[..k + 1][..k] == commands[..k];
    }
    assert commands[..|commands|] == commands;
    forall i | 0 <= i < n ensures shards.logs[i].Runs() == LogKept.KeptRuns(n, c, commands)[i] {
      RunsAre(shards, i);
    }
  }

  lemma RunsAre(shards: LogShards.ShardedLog, i: nat)
    requires i < |shards.logs|
    ensures shards.logs[i].Runs() == InputLogs.RunsIn(shards.View().logs[i])
  {}

  /** Everything that is kept comes back exactly when no run slipped. */
  lemma Complete(all: seq<seq<Frame>>, runs: seq<seq<seq<Op>>>, rows: seq<Row>)
    requires |all| == |runs| && Mergeable(Trimmed(all)) && IsAll(rows, Trimmed(all))
    requires forall i :: 0 <= i < |all| ==> InputLogs.GivesBack(all[i], runs[i])
    ensures multiset(rows) == Bag(KeptEach(runs)) <==> forall i :: 0 <= i < |all| ==> InputLogs.NoSlip(runs[i])
  {
    hide Mergeable, InOrder, Bag, RowsAll, Trim, AllGood, InputLogs.NoSlip, InputLogs.KeptRows;
    var cut := Trimmed(all);
    var order := OrderExists(cut);
    var back := RowsEach(cut);
    CountPrefix(back, KeptEach(runs));
    BagCount(back);
    BagCount(KeptEach(runs));
  }

  /** A single data point sent to one shard, with room in its volume, comes back. */
  method OnePoint(c: LogSteps.Config, id: u64, timestamp: u64, value: u64, size: nat) returns (rows: seq<Row>)
    requires c.count > 0 && c.limit > 0 && size > 0
    ensures rows == [PointRow(id, timestamp, value)]
  {
    hide InputLogs.GivesBack, Mergeable, IsAll, Bag, Trimmed, LogKept.Keeps, KeptEach, LogKept.KeptRuns, LogSteps.After;
    var command := LogSteps.Point(0, id, timestamp, value);
    var all;
    rows, all := LogAndRecover(1, c, [command], size);
    OnePointKept(c, command);
    assert multiset(rows) == multiset{PointRow(id, timestamp, value)};
    assert |rows| == |multiset(rows)| == 1;
    assert rows[0] in multiset(rows);
  }

  lemma OnePointKept(c: LogSteps.Config, command: LogSteps.Command)
    requires c.limit > 0 && command.Point? && command.shard == 0
    ensures LogKept.KeptRuns(1, c, [command]) == [[[LogSteps.OpIn(command)]]]
    ensures InputLogs.NoSlip([[LogSteps.OpIn(command)]])
    ensures var row := PointRow(command.id, command.timestamp, command.value);
            Bag(KeptEach([[[LogSteps.OpIn(command)]]])) == multiset{row}
  {
    hide LogSteps.Step, LogSteps.FreshVolume;
    var op := LogSteps.OpIn(command);
    var l := LogSteps.Log([LogSteps.FreshVolume()], 0);
    PointStays(c, command.id, command.timestamp, command.value);
    assert [command][..0] == [];
    assert LogSteps.After(1, c, [command]).logs[0] == LogSteps.FrontStep(l, op, c.lz4).volumes;
    FreshRun();
    assert LogSteps.FrontStep(l, op, c.lz4).volumes[0].run == [] + [op] == [op];
    assert InputLogs.RunsIn(LogSteps.FrontStep(l, op, c.lz4).volumes) == [[op]];
    OneRow(op);
  }

  lemma FreshRun()
    ensures LogSteps.FreshVolume() == LogSteps.Volume(Blank(EMPTY), 0, [], [])
  {}

  lemma OneRow(op: Op)
    requires op.Put?
    ensures InputLogs.NoSlip([[op]]) && Bag(KeptEach([[[op]]])) == multiset{op.row}
  {
    assert [op][..0] == [];
    assert RowsOf([op]) == [op.row];
    InputLogs.JoinedCons([op.row], []);
    assert InputLogs.RowsEach([[op]]) == [[op.row]] + [];
    assert KeptEach([[[op]]]) == [[op.row]] && [[op.row]][..0] == [];
  }

  lemma PointStays(c: LogSteps.Config, id: u64, timestamp: u64, value: u64)
    ensures var d := LogSteps.DiskOf(LogSteps.FreshVolume(), 0);
            LogSteps.Step(d, Put(PointRow(id, timestamp, value)), c.lz4).fileSize == 0
  {
    hide PutPoint;
  }
}
