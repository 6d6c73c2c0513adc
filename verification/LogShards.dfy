/** The writer's side of the sharded log: several logs that take their numbers from one sequencer. */
module LogShards {
  import opened Bits
  import opened LogFrame
  import opened LogSlips
  import opened LogVolume
  import opened InputLogs
  import opened LogSteps
  import ShardMerge

  // ----- Frames of several logs

  /** Frames of different logs have different numbers. */
  ghost predicate Apart(all: seq<seq<Frame>>) {
    forall i, j, k, l :: 0 <= i < |all| && 0 <= j < |all| && i != j && 0 <= k < |all[i]| && 0 <= l < |all[j]| ==>
      all[i][k].number != all[j][l].number
  }

  ghost predicate StreamsGood(all: seq<seq<Frame>>, counter: nat) {
    (forall i :: 0 <= i < |all| ==> FileGood(all[i], counter)) && Apart(all)
  }

  lemma ApartFrom(all: seq<seq<Frame>>, i: nat, now: seq<Frame>, counter: nat, j: nat, k: nat, l: nat)
    requires StreamsGood(all, counter) && i < |all| && NewOnes(all[i], now, counter)
    requires j < |all| && j != i && k < |now| && l < |all[j]|
    ensures now[k].number != all[j][l].number
  {
    hide AllGood;
    assert FileGood(all[j], counter);
    if now[k] in all[i] {
      var m :| 0 <= m < |all[i]| && all[i][m] == now[k];
      assert all[i][m].number != all[j][l].number;
    }
  }

  /** One log goes on: its new frames have numbers that no other log has. */
  lemma StreamStep(all: seq<seq<Frame>>, i: nat, now: seq<Frame>, counter: nat, later: nat)
    requires StreamsGood(all, counter) && i < |all| && FileGood(now, later) && NewOnes(all[i], now, counter)
    requires counter <= later
    ensures StreamsGood(all[i := now], later)
  {
    hide FileGood, NewOnes;
    var next := all[i := now];
    forall j | 0 <= j < |next| ensures FileGood(next[j], later) {
      if j != i {
        FileGoodLater(all[j], counter, later);
      }
    }
    forall a, b, k, l | 0 <= a < |next| && 0 <= b < |next| && a != b && 0 <= k < |next[a]| && 0 <= l < |next[b]|
      ensures next[a][k].number != next[b][l].number
    {
      if a == i {
        ApartFrom(all, i, now, counter, b, k, l);
      } else if b == i {
        ApartFrom(all, i, now, counter, a, l, k);
      } else {
        assert all[a][k].number != all[b][l].number;
      }
    }
  }

  lemma {:induction false} TrimIsPrefix(fs: seq<Frame>)
    ensures Trim(fs) <= fs
  {
    if fs != [] && fs[0].size != 0 {
      TrimIsPrefix(fs[1..]);
    }
  }

  /** What the reader relies on holds of what the writers make. */
  lemma StreamsMergeable(all: seq<seq<Frame>>, counter: nat)
    requires StreamsGood(all, counter)
    ensures ShardMerge.Mergeable(ShardMerge.Trimmed(all))
  {
    hide FrameGood, Trim;
    var cut := ShardMerge.Trimmed(all);
    forall i | 0 <= i < |cut|
      ensures cut[i] <= all[i] && ShardMerge.Ascending(cut[i]) && AllGood(cut[i]) && NoneEmpty(cut[i])
    {
      assert FileGood(all[i], counter);
      TrimIsPrefix(all[i]);
      TrimGood(all[i]);
    }
    forall i, j, k, l | 0 <= i < j < |cut| && 0 <= k < |cut[i]| && 0 <= l < |cut[j]|
      ensures cut[i][k].number != cut[j][l].number
    {
      assert cut[i][k] == all[i][k] && cut[j][l] == all[j][l];
    }
  }

  // ----- Commands

  method Feed(log: InputLog, c: Command) returns (status: Status)
    requires log.Valid() && !log.due && Fits(c)
    modifies log`reported, log`due, log.volumes[0], log.sequencer
    ensures log.Valid() && (log.due <==> status == Overflow) && old(log.View()).volumes != []
    ensures log.View() == FrontStep(old(log.View()), OpIn(c), log.packed)
    ensures log.due <==> FrontOverflows(old(log.View()), OpIn(c), log.Settings())
    ensures NewOnes(old(log.Frames()), log.Frames(), old(log.sequencer.counter))
    ensures log.sequencer.counter >= old(log.sequencer.counter)
  {
    hide InputLog.Valid, NewOnes, InputLog.Frames, FrontStep, FrontOverflows;
    Front(log);
    var stale;
    match c {
      case Point(_, id, timestamp, value) =>
        status, stale := log.Append(id, timestamp, value);
      case Name(_, id, name) =>
        status, stale := log.AppendName(id, name);
      case Recovery(_, id, words) =>
        status, stale := log.AppendRecovery(id, words);
      case FlushShard(_) =>
        status, stale := log.Flush();
    }
  }

  /** One command on one log; after an overflow the log is rotated. */
  method Run(log: InputLog, c: Command)
    requires log.Valid() && !log.due && Fits(c)
    modifies log, log.volumes[0], log.sequencer
    ensures log.Valid() && !log.due && old(log.View()).volumes != []
    ensures log.View() == LogStep(old(log.View()), OpIn(c), log.Settings())
    ensures NewOnes(old(log.Frames()), log.Frames(), old(log.sequencer.counter))
    ensures log.sequencer.counter >= old(log.sequencer.counter)
    ensures forall k :: 0 <= k < |log.volumes| ==> log.volumes[k] in old(log.volumes) || fresh(log.volumes[k])
  {
    hide InputLog.Valid, NewOnes, InputLog.Frames, FrontStep, FrontOverflows, Rotated;
    ghost var frames, counter, vs := log.Frames(), log.sequencer.counter, log.volumes;
    Front(log);
    var status := Feed(log, c);
    if status == Overflow {
      ghost var more, now := log.Frames(), log.sequencer.counter;
      log.Rotate();
      NewOnesTwice(frames, more, log.Frames(), counter, now);
      forall k | 0 <= k < |log.volumes| ensures log.volumes[k] in vs || fresh(log.volumes[k]) {
        if k > 0 {
          assert log.volumes[1..][k - 1] == log.volumes[k] == vs[k - 1];
        }
      }
    }
  }

  // ----- The shards

  ghost function AllVolumes(logs: seq<InputLog>): set<LZ4Volume>
    reads logs
  {
    set i, k | 0 <= i < |logs| && 0 <= k < |logs[i].volumes| :: logs[i].volumes[k]
  }

  ghost function FramesOf(logs: seq<InputLog>): (r: seq<seq<Frame>>)
    reads logs, AllVolumes(logs)
    ensures |r| == |logs|
  {
    seq(|logs|, i requires 0 <= i < |logs| reads logs, AllVolumes(logs) => logs[i].Frames())
  }

  ghost function VolumesOf(logs: seq<InputLog>): (r: seq<seq<Volume>>)
    reads logs, AllVolumes(logs)
    ensures |r| == |logs|
  {
    seq(|logs|, i requires 0 <= i < |logs| reads logs, AllVolumes(logs) => ValuesOf(logs[i].volumes))
  }

  ghost predicate NoShared(vs: seq<LZ4Volume>, ws: seq<LZ4Volume>) {
    forall k, l :: 0 <= k < |vs| && 0 <= l < |ws| ==> vs[k] != ws[l]
  }

  /** Different logs with different volumes that share the sequencer. */
  ghost predicate Separate(sequencer: LogSequencer, logs: seq<InputLog>)
    reads logs
  {
    && (forall i :: 0 <= i < |logs| ==> logs[i].sequencer == sequencer)
    && (forall i, j :: 0 <= i < j < |logs| ==> logs[i] != logs[j])
    && (forall i, j :: 0 <= i < |logs| && 0 <= j < |logs| && i != j ==> NoShared(logs[i].volumes, logs[j].volumes))
  }

  method MakeLogs(s: LogSequencer, n: nat, count: nat, size: nat, lz4: seq<Frame> -> nat) returns (ls: seq<InputLog>)
    requires count > 0
    ensures |ls| == n && fresh(ls) && Separate(s, ls)
    ensures forall i, k :: 0 <= i < n && 0 <= k < |ls[i].volumes| ==> fresh(ls[i].volumes[k])
    ensures forall i :: 0 <= i < n ==> ls[i].Valid() && !ls[i].due && ls[i].Frames() == []
    ensures forall i :: 0 <= i < n ==>
              ls[i].Settings() == Config(count, size, lz4) && ls[i].View().volumes == [FreshVolume()]
  {
    hide InputLog.Valid, InputLog.Frames, InputLog.Bitmaps, FreshVolume, InputLog.View, InputLog.Settings;
    ls := [];
    while |ls| < n
      invariant |ls| <= n && fresh(ls) && Separate(s, ls)
      invariant forall i, k :: 0 <= i < |ls| && 0 <= k < |ls[i].volumes| ==> fresh(ls[i].volumes[k])
      invariant forall i :: 0 <= i < |ls| ==> ls[i].Valid() && !ls[i].due && ls[i].Frames() == []
      invariant forall i :: 0 <= i < |ls| ==>
                  ls[i].Settings() == Config(count, size, lz4) && ls[i].View().volumes == [FreshVolume()]
      decreases n - |ls|
    {
      var log := new InputLog(s, count, size, lz4);
      ls := ls + [log];
    }
  }

  class ShardedLog {
    const sequencer: LogSequencer
    const logs: seq<InputLog>

    ghost const settings: Config

    /** The shards as a value. */
    ghost function View(): (s: Shards)
      reads this, logs, AllVolumes(logs), sequencer
      ensures |s.logs| == |logs|
    {
      Shards(VolumesOf(logs), sequencer.counter)
    }

    ghost predicate Valid()
      reads this, logs, AllVolumes(logs), sequencer
    {
      && |logs| > 0 && Separate(sequencer, logs)
      && (forall i :: 0 <= i < |logs| ==> logs[i].Valid() && !logs[i].due && logs[i].Settings() == settings)
      && StreamsGood(FramesOf(logs), sequencer.counter)
    }

    lemma Begun()
      requires Valid()
      ensures Started(View()) && View().counter == sequencer.counter
      ensures forall i :: 0 <= i < |logs| ==> View().logs[i] == ValuesOf(logs[i].volumes)
    {
      hide StreamsGood, FileGood, LZ4Volume.Valid;
      forall i | 0 <= i < |logs| ensures View().logs[i] != [] {
        Front(logs[i]);
      }
    }

    constructor (n: nat, count: nat, size: nat, lz4: seq<Frame> -> nat)
      requires n > 0 && count > 0
      ensures Valid() && |logs| == n && fresh(sequencer) && fresh(logs)
      ensures forall i, k :: 0 <= i < n && 0 <= k < |logs[i].volumes| ==> fresh(logs[i].volumes[k])
      ensures settings == Config(count, size, lz4) && View() == After(n, settings, [])
    {
      hide InputLog.Valid, InputLog.Frames, FileGood, Apart, InputLog.Bitmaps, FreshVolume;
      var s := new LogSequencer();
      var ls := MakeLogs(s, n, count, size, lz4);
      sequencer, logs, settings := s, ls, Config(count, size, lz4);
      new;
      NoFrames(FramesOf(logs), s.counter);
      assert VolumesOf(logs) == seq(n, _ => [FreshVolume()]);
    }

    /** A change to one log leaves the others as they were. */
    twostate lemma Others(ix: nat)
      requires old(Valid()) && ix < |logs| && old(sequencer.counter) <= sequencer.counter
      requires forall j :: 0 <= j < |logs| && j != ix ==> unchanged(logs[j])
      requires forall j, k :: 0 <= j < |logs| && j != ix && 0 <= k < |logs[j].volumes| ==> unchanged(logs[j].volumes[k])
      ensures forall j :: 0 <= j < |logs| && j != ix ==> logs[j].AsBefore()
    {
      hide InputLog.Valid, InputLog.Frames, StreamsGood, InputLog.View;
      forall j | 0 <= j < |logs| && j != ix ensures logs[j].AsBefore() {
        logs[j].Later();
      }
    }

    /** One log went on: what that means for all of them. */
    twostate lemma OneAdvanced(ix: nat)
      requires old(Valid()) && ix < |logs| && old(sequencer.counter) <= sequencer.counter
      requires logs[ix].Valid() && logs[ix].sequencer == sequencer
      requires NewOnes(old(logs[ix].Frames()), logs[ix].Frames(), old(sequencer.counter))
      requires forall j :: 0 <= j < |logs| && j != ix ==> logs[j].AsBefore()
      ensures StreamsGood(FramesOf(logs), sequencer.counter)
      ensures VolumesOf(logs) == old(VolumesOf(logs))[ix := ValuesOf(logs[ix].volumes)]
    {
      hide InputLog.Valid, NewOnes, StreamsGood, InputLog.Frames, FileGood, ValuesOf;
      Front(logs[ix]);
      StreamStep(old(FramesOf(logs)), ix, logs[ix].Frames(), old(sequencer.counter), sequencer.counter);
      assert FramesOf(logs) == old(FramesOf(logs))[ix := logs[ix].Frames()];
    }

    /** A command for one shard. */
    method Execute(c: Command)
      requires Valid() && Fits(c)
      modifies logs, AllVolumes(logs), sequencer
      ensures Valid() && fresh(AllVolumes(logs) - old(AllVolumes(logs)))
      ensures Started(old(View())) && View() == ShardStep(old(View()), c, settings)
    {
      hide InputLog.Valid, NewOnes, StreamsGood, InputLog.Frames, OpIn, Fits, FileGood, LogStep, InputLog.View;
      hide ValuesOf;
      Begun();
      var ix := c.shard % |logs|;
      Front(logs[ix]);
      ViewIs(logs[ix]);
      Run(logs[ix], c);
      ViewIs(logs[ix]);
      Others(ix);
      OneAdvanced(ix);
    }

    /** Closing one log. */
    twostate lemma NextAsBefore(i: nat)
      requires i < |logs| && Separate(sequencer, logs) && old(sequencer.counter) <= sequencer.counter
      requires forall j :: i < j < |logs| ==> old(logs[j].Valid()) && unchanged(logs[j])
      requires forall j, k :: i < j < |logs| && 0 <= k < |logs[j].volumes| ==> unchanged(logs[j].volumes[k])
      ensures forall j :: i < j < |logs| ==> logs[j].AsBefore()
    {
      hide InputLog.Valid, InputLog.Frames, InputLog.View;
      forall j | i < j < |logs| ensures logs[j].AsBefore() {
        logs[j].Later();
      }
    }

    /** Closes all logs; what a reader then finds. */
    method Close() returns (all: seq<seq<Frame>>)
      requires Valid()
      modifies AllVolumes(logs), sequencer
      ensures |all| == |logs| && StreamsGood(all, sequencer.counter)
      ensures forall i :: 0 <= i < |logs| ==> GivesBack(all[i], old(logs[i].Runs()))
      ensures Started(old(View())) && all == FilesOf(CloseUpTo(old(View()), |logs|, settings.lz4).logs)
    {
      hide InputLog.Valid, InputLog.Frames, InputLog.Runs, InputLog.View, NewOnes, StreamsGood, GivesBack;
      hide CloseUpTo, FilesOf, ClosedAs, UpTo, FileGood, ValuesOf, InputLog.Settings, Started, VolumesOf, View;
      all := [];
      ghost var mixed, s := FramesOf(logs), View();
      Begun();
      NoneClosed(s, settings.lz4);
      for i := 0 to |logs|
        invariant |all| == i && |mixed| == |logs| && mixed[..i] == all && StreamsGood(mixed, sequencer.counter)
        invariant forall j :: i <= j < |logs| ==> mixed[j] == old(logs[j].Frames())
        invariant forall j :: i <= j < |logs| ==> logs[j].AsBefore()
        invariant forall j :: 0 <= j < i ==> GivesBack(all[j], old(logs[j].Runs()))
        invariant UpTo(s, i, settings.lz4, all, sequencer.counter)
      {
        ghost var counter := sequencer.counter;
        Front(logs[i]);
        var frames := CloseOne(i, s, all);
        StreamStep(mixed, i, frames, counter, sequencer.counter);
        mixed := mixed[i := frames];
        all := all + [frames];
      }
      assert mixed[..|logs|] == mixed;
      AllClosed(s, settings.lz4, all, sequencer.counter);
    }

    method CloseOne(i: nat, ghost s: Shards, ghost all: seq<seq<Frame>>) returns (frames: seq<Frame>)
      requires i < |logs| && Separate(sequencer, logs) && forall j :: i <= j < |logs| ==> logs[j].Valid()
      requires |logs[i].volumes| > 0 && logs[i].Settings() == settings && |s.logs| == |logs|
      requires UpTo(s, i, settings.lz4, all, sequencer.counter) && s.logs[i] == ValuesOf(logs[i].volumes)
      modifies logs[i].volumes[0], sequencer
      ensures FileGood(frames, sequencer.counter) && sequencer.counter >= old(sequencer.counter)
      ensures NewOnes(old(logs[i].Frames()), frames, old(sequencer.counter))
      ensures GivesBack(frames, old(logs[i].Runs()))
      ensures UpTo(s, i + 1, settings.lz4, all + [frames], sequencer.counter)
      ensures forall j :: i < j < |logs| ==> logs[j].AsBefore()
    {
      hide InputLog.Valid, InputLog.Frames, InputLog.Runs, NewOnes, GivesBack, FileGood, ClosedAs, InputLog.View;
      hide UpTo, ValuesOf;
      ghost var counter := sequencer.counter;
      ViewIs(logs[i]);
      frames := logs[i].Close();
      NextClosed(s, i, settings.lz4, all, counter, frames, sequencer.counter);
      NextAsBefore(i);
    }
  }

  /** The frames of every log, oldest first. */
  ghost function FilesOf(logs: seq<seq<Volume>>): (r: seq<seq<Frame>>)
    ensures |r| == |logs|
  {
    seq(|logs|, i requires 0 <= i < |logs| => Joined(FilesIn(logs[i])))
  }

  /** The first `i` logs are closed, with these frames and the next number. */
  ghost predicate UpTo(s: Shards, i: nat, lz4: Packer, all: seq<seq<Frame>>, counter: nat) {
    && Started(s) && |all| == i <= |s.logs|
    && all == FilesOf(CloseUpTo(s, i, lz4).logs)[..i] && counter == CloseUpTo(s, i, lz4).counter
  }

  lemma NoneClosed(s: Shards, lz4: Packer)
    requires Started(s)
    ensures UpTo(s, 0, lz4, [], s.counter)
  {}

  lemma NextClosed(s: Shards, i: nat, lz4: Packer, all: seq<seq<Frame>>, counter: nat, frames: seq<Frame>, next: nat)
    requires UpTo(s, i, lz4, all, counter) && i < |s.logs|
    requires ClosedAs(frames, next, Log(s.logs[i], counter), lz4)
    ensures UpTo(s, i + 1, lz4, all + [frames], next)
  {
    hide CloseFront, Joined;
    var c := CloseUpTo(s, i, lz4);
    assert CloseUpTo(s, i + 1, lz4) == CloseShard(c, i, lz4);
    assert forall j :: 0 <= j < i ==> CloseShard(c, i, lz4).logs[j] == c.logs[j];
  }

  lemma AllClosed(s: Shards, lz4: Packer, all: seq<seq<Frame>>, counter: nat)
    requires UpTo(s, |s.logs|, lz4, all, counter)
    ensures all == FilesOf(CloseUpTo(s, |s.logs|, lz4).logs)
  {}

  lemma NoFrames(all: seq<seq<Frame>>, counter: nat)
    requires forall i :: 0 <= i < |all| ==> all[i] == []
    ensures StreamsGood(all, counter)
  {}

  lemma ViewIs(log: InputLog)
    ensures log.View() == Log(ValuesOf(log.volumes), log.sequencer.counter)
  {}

  lemma Front(log: InputLog)
    requires log.Valid()
    ensures |log.volumes| > 0 && FileGood(log.Frames(), log.sequencer.counter)
  {}
}
