/** The writer's side of the write-ahead log of one stream: a bounded queue of volumes, newest first (`InputLog`). */
module InputLogs {
  import opened Bits
  import opened LogFrame
  import opened LogSlips
  import opened LogVolume
  import LogSteps

  function UnionOf(bs: seq<set<u64>>): set<u64> {
    if bs == [] then {} else UnionOf(bs[..|bs| - 1]) + bs[|bs| - 1]
  }

  lemma {:induction false} UnionCons(b: set<u64>, bs: seq<set<u64>>)
    ensures UnionOf([b] + bs) == b + UnionOf(bs)
    decreases |bs|
  {
    if bs == [] {
      assert [b] + bs == [b] && [b][..0] == [];
    } else {
      var n := |bs| - 1;
      assert ([b] + bs)[..n + 1] == [b] + bs[..n];
      UnionCons(b, bs[..n]);
    }
  }

  /** What a caller who rotates after every overflow can rely on: an id that lost data points in a removed volume was
      reported, or still has data points in a volume that is kept. */
  lemma {:induction false} UnionHas(bs: seq<set<u64>>, id: u64)
    ensures id in UnionOf(bs) <==> exists k :: 0 <= k < |bs| && id in bs[k]
  {
    if bs != [] {
      var n := |bs| - 1;
      UnionHas(bs[..n], id);
      if id in UnionOf(bs[..n]) {
        var k :| 0 <= k < n && id in bs[..n][k];
        assert id in bs[k];
      }
      if k :| 0 <= k < |bs| && id in bs[k] {
        assert k < n ==> id in bs[..n][k];
      }
    }
  }

  /** A data point of this series was appended in the run. */
  ghost predicate HasPoint(run: seq<Op>, id: u64) {
    exists i :: 0 <= i < |run| && run[i].Put? && run[i].row.PointRow? && run[i].row.id == id
  }

  /** The ids with data points in the run of the oldest volume and in no other. */
  ghost predicate OnlyOldest(ids: set<u64>, runs: seq<seq<Op>>) {
    && runs != []
    && forall id :: id in ids <==>
         HasPoint(runs[|runs| - 1], id) && forall k :: 0 <= k < |runs| - 1 ==> !HasPoint(runs[k], id)
  }

  lemma {:induction false} RowsHave(run: seq<Op>, row: Row)
    ensures row in RowsOf(run) <==> Put(row) in run
  {
    if run != [] {
      var n := |run| - 1;
      RowsHave(run[..n], row);
      assert run == run[..n] + [run[n]];
    }
  }

  lemma PointIdsHave(run: seq<Op>, id: u64)
    ensures id in PointIds(RowsOf(run)) <==> HasPoint(run, id)
  {
    hide RowsOf;
    if r :| r in RowsOf(run) && r.PointRow? && r.id == id {
      RowsHave(run, r);
      var i :| 0 <= i < |run| && run[i] == Put(r);
    }
    if i :| 0 <= i < |run| && run[i].Put? && run[i].row.PointRow? && run[i].row.id == id {
      RowsHave(run, run[i].row);
    }
  }

  lemma BitmapIs(v: LZ4Volume, id: u64)
    requires v.Valid()
    ensures id in v.bitmap <==> HasPoint(v.log, id)
  {
    hide RowsOf, FileGood, HasPoint, PointIds, RowsAll, Slipped;
    PointIdsHave(v.log, id);
  }

  ghost predicate Accounted(evicted: set<u64>, reported: set<u64>, bitmaps: seq<set<u64>>) {
    evicted <= reported + UnionOf(bitmaps)
  }

  lemma AccountedGrows(evicted: set<u64>, reported: set<u64>, old0: set<u64>, new0: set<u64>, rest: seq<set<u64>>)
    requires Accounted(evicted, reported, [old0] + rest) && old0 <= new0
    ensures Accounted(evicted, reported, [new0] + rest)
  {
    UnionCons(old0, rest);
    UnionCons(new0, rest);
  }

  lemma AccountedFresh(evicted: set<u64>, reported: set<u64>, b: set<u64>, rest: seq<set<u64>>)
    requires Accounted(evicted, reported, rest)
    ensures Accounted(evicted, reported, [b] + rest)
  {
    UnionCons(b, rest);
  }

  ghost function BitmapsOf(vs: seq<LZ4Volume>): (r: seq<set<u64>>)
    reads vs
    ensures |r| == |vs|
  {
    seq(|vs|, i requires 0 <= i < |vs| reads vs => vs[i].bitmap)
  }

  // ----- The frames and rows of all volumes, oldest first

  ghost function WrittenOf(vs: seq<LZ4Volume>): (r: seq<seq<Frame>>)
    reads vs
    ensures |r| == |vs|
  {
    seq(|vs|, i requires 0 <= i < |vs| reads vs => vs[i].written)
  }

  ghost function LogsOf(vs: seq<LZ4Volume>): (r: seq<seq<Op>>)
    reads vs
    ensures |r| == |vs|
  {
    seq(|vs|, i requires 0 <= i < |vs| reads vs => vs[i].log)
  }

  ghost function ValuesOf(vs: seq<LZ4Volume>): (r: seq<LogSteps.Volume>)
    reads vs
    ensures |r| == |vs|
  {
    seq(|vs|, i requires 0 <= i < |vs| reads vs => vs[i].Value())
  }

  ghost function FilesIn(vs: seq<LogSteps.Volume>): (r: seq<seq<Frame>>)
    ensures |r| == |vs|
  {
    seq(|vs|, i requires 0 <= i < |vs| => vs[i].written)
  }

  ghost function RunsIn(vs: seq<LogSteps.Volume>): (r: seq<seq<Op>>)
    ensures |r| == |vs|
  {
    seq(|vs|, i requires 0 <= i < |vs| => vs[i].run)
  }

  /** Newest first in, oldest first out. */
  ghost function Joined<T>(xs: seq<seq<T>>): seq<T> {
    if xs == [] then [] else Joined(xs[1..]) + xs[0]
  }

  lemma JoinedCons<T>(x: seq<T>, rest: seq<seq<T>>)
    ensures Joined([x] + rest) == Joined(rest) + x
  {
    assert ([x] + rest)[1..] == rest;
  }

  lemma {:induction false} JoinedLast<T>(xs: seq<seq<T>>)
    requires xs != []
    ensures Joined(xs) == xs[|xs| - 1] + Joined(xs[..|xs| - 1])
  {
    if |xs| == 1 {
      assert xs[1..] == [] && xs[..0] == [];
    } else {
      JoinedLast(xs[1..]);
      assert xs[1..][..|xs| - 2] == xs[..|xs| - 1][1..];
    }
  }

  lemma FileExtends(fs: seq<Frame>, w: seq<Frame>, w': seq<Frame>, counter: nat, later: nat)
    requires FileGood(fs + w, counter) && FileGood(w', later) && Extends(w, w', counter) && counter <= later
    ensures FileGood(fs + w', later) && fs + w' == (fs + w) + w'[|w|..]
  {
    hide FrameGood;
    var all := fs + w';
    assert w' == w + w'[|w|..];
    assert all == (fs + w) + w'[|w|..];
    var n := |fs| + |w|;
    forall i | n <= i < |all| ensures all[i] == w'[i - |fs|] && all[i].number >= counter {}
    assert forall i :: 0 <= i < n ==> all[i] == (fs + w)[i];
  }

  lemma FileSuffix(a: seq<Frame>, b: seq<Frame>, counter: nat)
    requires FileGood(a + b, counter)
    ensures FileGood(b, counter)
  {
    hide FrameGood;
    assert forall i :: 0 <= i < |b| ==> b[i] == (a + b)[|a| + i];
  }

  /** Frames that were not there before have numbers from `counter` on. */
  ghost predicate NewOnes(before: seq<Frame>, after: seq<Frame>, counter: nat) {
    forall i :: 0 <= i < |after| ==> after[i] in before || after[i].number >= counter
  }

  lemma ExtendedNew(fs: seq<Frame>, w: seq<Frame>, w': seq<Frame>, counter: nat)
    requires Extends(w, w', counter)
    ensures NewOnes(fs + w, fs + w', counter)
  {
    var after := fs + w';
    forall i | 0 <= i < |after| ensures after[i] in fs + w || after[i].number >= counter {
      if i < |fs| + |w| {
        assert after[i] == (fs + w)[i];
      } else {
        assert after[i] == w'[i - |fs|];
      }
    }
  }

  lemma NewOnesTwice(a: seq<Frame>, b: seq<Frame>, c: seq<Frame>, n: nat, m: nat)
    requires NewOnes(a, b, n) && NewOnes(b, c, m) && n <= m
    ensures NewOnes(a, c, n)
  {
    forall i | 0 <= i < |c| ensures c[i] in a || c[i].number >= n {
      if c[i] in b {
        var j :| 0 <= j < |b| && b[j] == c[i];
      }
    }
  }

  lemma NewOnesSuffix(a: seq<Frame>, b: seq<Frame>, counter: nat)
    ensures NewOnes(a + b, b, counter) && NewOnes(b, b, counter)
  {}

  // ----- What recovery gives back of several volumes

  /** The rows and the slips of the runs of the volumes. */
  ghost function RowsEach(runs: seq<seq<Op>>): (r: seq<seq<Row>>)
    ensures |r| == |runs| && forall k :: 0 <= k < |runs| ==> r[k] == RowsOf(runs[k])
  {
    seq(|runs|, k requires 0 <= k < |runs| => RowsOf(runs[k]))
  }

  ghost function SlipsEach(runs: seq<seq<Op>>): (r: seq<Option<nat>>)
    ensures |r| == |runs| && forall k :: 0 <= k < |runs| ==> r[k] == SlipOf(runs[k])
  {
    seq(|runs|, k requires 0 <= k < |runs| => SlipOf(runs[k]))
  }

  /** All rows of these runs, oldest first. */
  ghost function KeptRows(runs: seq<seq<Op>>): seq<Row> {
    Joined(RowsEach(runs))
  }

  /** No row of these runs met a started page of another kind without rows. */
  ghost predicate NoSlip(runs: seq<seq<Op>>) {
    forall k :: 0 <= k < |runs| ==> SlipOf(runs[k]).None?
  }

  ghost predicate NoSlips(ss: seq<Option<nat>>) {
    forall k :: 0 <= k < |ss| ==> ss[k].None?
  }

  /** What recovery gives back of the rows of these runs: a beginning, and everything if and only if none slipped. */
  ghost predicate GivesBack(frames: seq<Frame>, runs: seq<seq<Op>>) {
    && AllGood(frames) && RowsAll(frames) == KeptRows(runs) && AllGood(Trim(frames))
    && RowsAll(Trim(frames)) <= KeptRows(runs) && (RowsAll(Trim(frames)) == KeptRows(runs) <==> NoSlip(runs))
  }

  /** Closed volumes, with their rows and slips. */
  ghost predicate Recoverable(ws: seq<seq<Frame>>, hs: seq<seq<Row>>, ss: seq<Option<nat>>) {
    && |ws| == |hs| == |ss|
    && forall k :: 0 <= k < |ws| ==>
         && Slipped(ws[k], hs[k], ss[k]) && RowsAll(ws[k]) == hs[k]
         && (ss[k].Some? ==> ss[k].value < |hs[k]|)
  }

  lemma RestRecoverable(ws: seq<seq<Frame>>, hs: seq<seq<Row>>, ss: seq<Option<nat>>)
    requires Recoverable(ws, hs, ss) && ws != []
    ensures Recoverable(ws[1..], hs[1..], ss[1..])
    ensures NoSlips(ss) <==> ss[0].None? && NoSlips(ss[1..])
  {
    hide Slipped, RowsAll;
    if ss[0].None? && NoSlips(ss[1..]) {
      forall k | 0 <= k < |ss| ensures ss[k].None? {
        if k > 0 {
          assert ss[1..][k - 1] == ss[k];
        }
      }
    }
  }

  /** Recovery gives back a beginning of the rows of all volumes, and all of them if and only if no volume slipped. */
  lemma {:induction false} JoinedRecovered(ws: seq<seq<Frame>>, hs: seq<seq<Row>>, ss: seq<Option<nat>>)
    requires Recoverable(ws, hs, ss)
    ensures AllGood(Joined(ws)) && RowsAll(Joined(ws)) == Joined(hs) && AllGood(Trim(Joined(ws)))
    ensures NoneEmpty(Joined(ws)) <==> NoSlips(ss)
    ensures RowsAll(Trim(Joined(ws))) <= Joined(hs) && (RowsAll(Trim(Joined(ws))) == Joined(hs) <==> NoSlips(ss))
    decreases |ws|
  {
    hide AllGood, RowsAll, Trim, NoneEmpty, NoSlips;
    if ws == [] {
      NothingWritten();
      assert ss == [];
    } else {
      RestRecoverable(ws, hs, ss);
      JoinedRecovered(ws[1..], hs[1..], ss[1..]);
      OneMore(Joined(ws[1..]), Joined(hs[1..]), ws[0], hs[0], ss[0]);
    }
  }

  lemma NothingWritten()
    ensures AllGood([]) && RowsAll([]) == [] && Trim([]) == [] && NoneEmpty([]) && NoSlips([])
  {}

  lemma OneMore(fs: seq<Frame>, rows: seq<Row>, w: seq<Frame>, h: seq<Row>, s: Option<nat>)
    requires AllGood(fs) && RowsAll(fs) == rows && AllGood(Trim(fs))
    requires RowsAll(Trim(fs)) <= rows && (RowsAll(Trim(fs)) == rows <==> NoneEmpty(fs))
    requires Slipped(w, h, s) && RowsAll(w) == h && (s.Some? ==> s.value < |h|)
    ensures AllGood(fs + w) && RowsAll(fs + w) == rows + h && AllGood(Trim(fs + w))
    ensures NoneEmpty(fs + w) <==> NoneEmpty(fs) && s.None?
    ensures RowsAll(Trim(fs + w)) <= rows + h && (RowsAll(Trim(fs + w)) == rows + h <==> NoneEmpty(fs + w))
  {
    hide AllGood, RowsAll;
    SlippedMeaning(w, h, s);
    RowsConcat(fs, w);
    TrimConcat(fs, w);
    assert forall i :: 0 <= i < |fs| ==> (fs + w)[i] == fs[i];
    assert forall i :: 0 <= i < |w| ==> (fs + w)[|fs| + i] == w[i];
    if NoneEmpty(fs) {
      TrimNothing(fs);
      RowsConcat(fs, Trim(w));
    }
  }

  /** Different volumes that share the sequencer, of which only the front one is open. */
  ghost predicate Queue(sequencer: LogSequencer, vs: seq<LZ4Volume>)
    reads vs, sequencer
  {
    && (forall i :: 0 <= i < |vs| ==> vs[i].sequencer == sequencer && vs[i].Valid())
    && (forall i :: 0 <= i < |vs| ==> (vs[i].isOpen <==> i == 0))
    && (forall i, j :: 0 <= i < j < |vs| ==> vs[i] != vs[j])
  }

  class InputLog {
    const sequencer: LogSequencer
    const maxVolumes: nat
    const volumeSize: nat
    const packed: seq<Frame> -> nat
    var volumes: seq<LZ4Volume>

    /** The ids with data points in removed volumes, the ids reported as stale, and whether a rotation is due. */
    ghost var evicted: set<u64>
    ghost var reported: set<u64>
    ghost var due: bool

    /** The log as a value. */
    ghost function View(): LogSteps.Log
      reads this`volumes, volumes, sequencer
    {
      LogSteps.Log(ValuesOf(volumes), sequencer.counter)
    }

    ghost function Settings(): LogSteps.Config {
      LogSteps.Config(maxVolumes, volumeSize, packed)
    }

    /** The frames and the runs of the volumes that are kept. */
    ghost function Frames(): seq<Frame>
      reads this`volumes, volumes
    {
      Joined(WrittenOf(volumes))
    }

    ghost function Runs(): seq<seq<Op>>
      reads this`volumes, volumes
    {
      LogsOf(volumes)
    }

    ghost function Bitmaps(): (r: seq<set<u64>>)
      reads this`volumes, volumes
      ensures |r| == |volumes|
    {
      BitmapsOf(volumes)
    }

    ghost predicate Shape()
      reads this`volumes, volumes, sequencer
    {
      && maxVolumes >= 1 && 1 <= |volumes| <= maxVolumes && Queue(sequencer, volumes)
      && FileGood(Frames(), sequencer.counter)
      && forall i :: 0 <= i < |volumes| ==> volumes[i].packed == packed && volumes[i].maxFileSize == volumeSize
    }

    ghost predicate Valid()
      reads this, volumes, sequencer
    {
      && Shape()
      && Accounted(evicted, reported, Bitmaps())
      && (due && |volumes| == maxVolumes ==>
            volumes[|volumes| - 1].bitmap <= reported + UnionOf(Bitmaps()[..|volumes| - 1]))
    }

    constructor (s: LogSequencer, count: nat, size: nat, lz4: seq<Frame> -> nat)
      requires count >= 1
      ensures Valid() && fresh(volumes) && |volumes| == 1 && maxVolumes == count && sequencer == s
      ensures evicted == reported == {} && !due && volumes[0].history == [] && Frames() == []
      ensures View() == LogSteps.Log([LogSteps.FreshVolume()], s.counter)
      ensures Settings() == LogSteps.Config(count, size, lz4)
    {
      hide LZ4Volume.Valid, Joined, Slipped;
      sequencer, maxVolumes, volumeSize, packed := s, count, size, lz4;
      evicted, reported, due := {}, {}, false;
      var v := new LZ4Volume(s, size, lz4);
      volumes := [v];
      new;
      assert WrittenOf(volumes) == [[]] + [];
      JoinedNone<Frame>();
      assert FileGood([], s.counter);
    }

    /** The ids that only the oldest volume has. */
    method DetectStaleIds() returns (stale: set<u64>)
      requires Shape()
      ensures stale == volumes[|volumes| - 1].bitmap - UnionOf(Bitmaps()[..|volumes| - 1])
      ensures OnlyOldest(stale, Runs())
    {
      hide LZ4Volume.Valid, Joined, FileGood, OnlyOldest;
      var sum: set<u64> := {};
      for i := 0 to |volumes| - 1
        invariant sum == UnionOf(Bitmaps()[..i])
      {
        assert Bitmaps()[..i + 1][..i] == Bitmaps()[..i];
        sum := sum + volumes[i].bitmap;
      }
      stale := volumes[|volumes| - 1].bitmap - sum;
      StaleExact(stale);
    }

    lemma StaleExact(stale: set<u64>)
      requires Shape() && stale == volumes[|volumes| - 1].bitmap - UnionOf(Bitmaps()[..|volumes| - 1])
      ensures OnlyOldest(stale, Runs())
    {
      hide LZ4Volume.Sound, Joined, FileGood, UnionOf, HasPoint, RowsOf;
      var last := |volumes| - 1;
      forall id
        ensures id in stale <==> HasPoint(Runs()[last], id) && forall k :: 0 <= k < last ==> !HasPoint(Runs()[k], id)
      {
        UnionHas(Bitmaps()[..last], id);
        forall k | 0 <= k <= last ensures id in volumes[k].bitmap <==> HasPoint(Runs()[k], id) {
          BitmapIs(volumes[k], id);
        }
        assert forall k :: 0 <= k < last ==> Bitmaps()[..last][k] == volumes[k].bitmap;
      }
    }

    /** The part the three kinds of append and the flush share: report stale ids on overflow. */
    method Report(status: Status) returns (stale: set<u64>)
      requires Shape() && Accounted(evicted, reported, Bitmaps()) && !due
      modifies this`reported, this`due
      ensures Valid() && volumes == old(volumes) && (due <==> status == Overflow)
      ensures reported == old(reported) + stale
      ensures stale == if status == Overflow && |volumes| == maxVolumes
        then volumes[|volumes| - 1].bitmap - UnionOf(Bitmaps()[..|volumes| - 1]) else {}
      ensures status == Overflow && |volumes| == maxVolumes ==> OnlyOldest(stale, Runs())
    {
      hide LZ4Volume.Valid, UnionOf, FileGood, Joined, OnlyOldest;
      stale := {};
      if status == Overflow && |volumes| == maxVolumes {
        stale := DetectStaleIds();
      }
      reported := reported + stale;
      due := status == Overflow;
    }

    /** After a change to the front volume the others are as they were. */
    twostate predicate OnlyFront()
      reads this`volumes, this`evicted, volumes, sequencer
    {
      && old(Shape()) && volumes == old(volumes) && old(sequencer.counter) <= sequencer.counter
      && volumes[0].Valid() && volumes[0].isOpen && volumes[0].sequencer == sequencer
      && Extends(old(volumes[0].written), volumes[0].written, old(sequencer.counter))
      && forall i :: 1 <= i < |volumes| ==> unchanged(volumes[i])
    }

    twostate lemma FrontQueue()
      requires OnlyFront()
      ensures Queue(sequencer, volumes)
    {
      hide FileGood, LZ4Volume.Sound, Joined;
      forall i | 1 <= i < |volumes| ensures volumes[i].Valid() {
        volumes[i].Later();
      }
    }

    twostate lemma FrontFrames()
      requires OnlyFront()
      ensures FileGood(Frames(), sequencer.counter) && NewOnes(old(Frames()), Frames(), old(sequencer.counter))
    {
      hide FileGood, Joined, Queue, Extends, NewOnes;
      ghost var rest := WrittenOf(volumes)[1..];
      ghost var w, w' := old(volumes[0].written), volumes[0].written;
      assert old(WrittenOf(volumes))[1..] == rest;
      assert old(WrittenOf(volumes)) == [w] + rest && WrittenOf(volumes) == [w'] + rest;
      JoinedCons(w, rest);
      JoinedCons(w', rest);
      VolumeFile(volumes[0]);
      FileExtends(Joined(rest), w, w', old(sequencer.counter), sequencer.counter);
      ExtendedNew(Joined(rest), w, w', old(sequencer.counter));
    }

    twostate lemma FrontView(op: Op)
      requires OnlyFront() && volumes[0].log == old(volumes[0].log) + [op]
      requires volumes[0].View() == LogSteps.Step(old(volumes[0].View()), op, packed)
      ensures View() == LogSteps.FrontStep(old(View()), op, packed)
    {
      hide FileGood, Joined, Queue, LZ4Volume.Valid, LogSteps.Step;
      assert forall i :: 1 <= i < |volumes| ==> ValuesOf(volumes)[i] == old(ValuesOf(volumes))[i];
      assert old(ValuesOf(volumes))[0] == old(volumes[0].Value());
    }

    twostate lemma FrontBitmaps()
      requires OnlyFront() && evicted == old(evicted) && reported == old(reported)
      requires old(Accounted(evicted, reported, Bitmaps())) && old(volumes[0].bitmap) <= volumes[0].bitmap
      ensures Accounted(evicted, reported, Bitmaps())
    {
      hide FileGood, Joined, Queue, LZ4Volume.Valid, UnionOf, Accounted;
      ghost var rest := Bitmaps()[1..];
      assert old(Bitmaps())[1..] == rest;
      assert old(Bitmaps()) == [old(volumes[0].bitmap)] + rest;
      assert Bitmaps() == [volumes[0].bitmap] + rest;
      AccountedGrows(evicted, reported, old(volumes[0].bitmap), volumes[0].bitmap, rest);
    }

    twostate lemma IdsGrow()
      requires OnlyFront() && old(volumes[0].history) <= volumes[0].history
      ensures old(volumes[0].bitmap) <= volumes[0].bitmap
    {
      hide FileGood, Joined, Slipped, RowsAll;
      assert old(volumes[0].Valid());
    }

    twostate lemma FrontChanged(op: Op)
      requires OnlyFront() && evicted == old(evicted) && reported == old(reported)
      requires old(Accounted(evicted, reported, Bitmaps()))
      requires old(volumes[0].history) <= volumes[0].history
      requires volumes[0].log == old(volumes[0].log) + [op]
      requires volumes[0].View() == LogSteps.Step(old(volumes[0].View()), op, packed)
      ensures Shape() && Accounted(evicted, reported, Bitmaps())
      ensures View() == LogSteps.FrontStep(old(View()), op, packed)
      ensures NewOnes(old(Frames()), Frames(), old(sequencer.counter))
    {
      hide FileGood, Joined, Accounted, UnionOf, NewOnes, Queue, LogSteps.Step, LogSteps.FrontStep;
      FrontQueue();
      FrontFrames();
      FrontView(op);
      IdsGrow();
      FrontBitmaps();
    }

    method Append(id: u64, timestamp: u64, value: u64) returns (status: Status, stale: set<u64>)
      requires Valid() && !due
      modifies this`reported, this`due, volumes[0], sequencer
      ensures Valid() && (due <==> status == Overflow) && reported == old(reported) + stale
      ensures volumes[0].history == old(volumes[0].history) + [PointRow(id, timestamp, value)]
      ensures View() == LogSteps.FrontStep(old(View()), Put(PointRow(id, timestamp, value)), packed)
      ensures due <==> LogSteps.FrontOverflows(old(View()), Put(PointRow(id, timestamp, value)), Settings())
      ensures sequencer.counter >= old(sequencer.counter)
      ensures NewOnes(old(Frames()), Frames(), old(sequencer.counter))
      ensures stale == if status == Overflow && |volumes| == maxVolumes
        then volumes[|volumes| - 1].bitmap - UnionOf(Bitmaps()[..|volumes| - 1]) else {}
      ensures status == Overflow && |volumes| == maxVolumes ==> OnlyOldest(stale, Runs())
    {
      hide FileGood, LZ4Volume.Valid, Joined, Accounted, UnionOf, NewOnes, Extends, OnlyOldest;
      status := volumes[0].Append(id, timestamp, value);
      FrontChanged(Put(PointRow(id, timestamp, value)));
      stale := Report(status);
    }

    method AppendName(id: u64, name: seq<u8>) returns (status: Status, stale: set<u64>)
      requires Valid() && !due && |name| <= DATA_SIZE - 16
      modifies this`reported, this`due, volumes[0], sequencer
      ensures Valid() && (due <==> status == Overflow) && reported == old(reported) + stale
      ensures volumes[0].history == old(volumes[0].history) + [NameRow(id, name)]
      ensures View() == LogSteps.FrontStep(old(View()), Put(NameRow(id, name)), packed)
      ensures due <==> LogSteps.FrontOverflows(old(View()), Put(NameRow(id, name)), Settings())
      ensures sequencer.counter >= old(sequencer.counter)
      ensures NewOnes(old(Frames()), Frames(), old(sequencer.counter))
      ensures stale == if status == Overflow && |volumes| == maxVolumes
        then volumes[|volumes| - 1].bitmap - UnionOf(Bitmaps()[..|volumes| - 1]) else {}
      ensures status == Overflow && |volumes| == maxVolumes ==> OnlyOldest(stale, Runs())
    {
      hide FileGood, LZ4Volume.Valid, Joined, Accounted, UnionOf, NewOnes, Extends, OnlyOldest;
      status := volumes[0].AppendName(id, name);
      FrontChanged(Put(NameRow(id, name)));
      stale := Report(status);
    }

    method AppendRecovery(id: u64, words: seq<u64>) returns (status: Status, stale: set<u64>)
      requires Valid() && !due && 8 * |words| <= DATA_SIZE - 16
      modifies this`reported, this`due, volumes[0], sequencer
      ensures Valid() && (due <==> status == Overflow) && reported == old(reported) + stale
      ensures volumes[0].history == old(volumes[0].history) + [RecoveryRow(id, words)]
      ensures View() == LogSteps.FrontStep(old(View()), Put(RecoveryRow(id, words)), packed)
      ensures due <==> LogSteps.FrontOverflows(old(View()), Put(RecoveryRow(id, words)), Settings())
      ensures sequencer.counter >= old(sequencer.counter)
      ensures NewOnes(old(Frames()), Frames(), old(sequencer.counter))
      ensures stale == if status == Overflow && |volumes| == maxVolumes
        then volumes[|volumes| - 1].bitmap - UnionOf(Bitmaps()[..|volumes| - 1]) else {}
      ensures status == Overflow && |volumes| == maxVolumes ==> OnlyOldest(stale, Runs())
    {
      hide FileGood, LZ4Volume.Valid, Joined, Accounted, UnionOf, NewOnes, Extends, OnlyOldest;
      status := volumes[0].AppendRecovery(id, words);
      FrontChanged(Put(RecoveryRow(id, words)));
      stale := Report(status);
    }

    method Flush() returns (status: Status, stale: set<u64>)
      requires Valid() && !due
      modifies this`reported, this`due, volumes[0], sequencer
      ensures Valid() && (due <==> status == Overflow) && reported == old(reported) + stale
      ensures volumes[0].history == old(volumes[0].history) == RowsAll(volumes[0].written)
      ensures View() == LogSteps.FrontStep(old(View()), Op.Flush, packed)
      ensures due <==> LogSteps.FrontOverflows(old(View()), Op.Flush, Settings())
      ensures sequencer.counter >= old(sequencer.counter)
      ensures NewOnes(old(Frames()), Frames(), old(sequencer.counter))
      ensures stale == if status == Overflow && |volumes| == maxVolumes
        then volumes[|volumes| - 1].bitmap - UnionOf(Bitmaps()[..|volumes| - 1]) else {}
      ensures status == Overflow && |volumes| == maxVolumes ==> OnlyOldest(stale, Runs())
    {
      hide FileGood, LZ4Volume.Valid, Joined, Accounted, UnionOf, NewOnes, Extends, OnlyOldest;
      status := volumes[0].Flush();
      FrontChanged(Op.Flush);
      stale := Report(status);
    }

    /** Drops the oldest volume when there are too many, starts a new one and closes the one before it. */
    method Rotate()
      requires Valid() && due
      modifies this, volumes[0], sequencer
      ensures Valid() && !due && reported == old(reported)
      ensures |volumes| == if old(|volumes|) < maxVolumes then old(|volumes|) + 1 else maxVolumes
      ensures fresh(volumes[0]) && volumes[0].history == []
      ensures volumes[1..] == old(volumes)[..|volumes| - 1]
      ensures evicted == old(evicted) + (if old(|volumes|) < maxVolumes then {} else old(volumes[|volumes| - 1].bitmap))
      ensures |volumes| > 1 ==> RowsAll(volumes[1].written) == volumes[1].history == old(volumes[0].history)
      ensures NewOnes(old(Frames()), Frames(), old(sequencer.counter)) && sequencer.counter >= old(sequencer.counter)
      ensures Runs() == [[]] + old(Runs())[..|volumes| - 1]
      ensures View() == LogSteps.Rotated(old(View()), Settings())
    {
      hide FileGood, RowsAll, LZ4Volume.Valid, UnionOf, Accounted, Queue, BitmapsOf, Joined, NewOnes;
      hide LogSteps.Rotated, WithFresh, ValuesOf, WrittenOf, LogsOf;
      RotatedIs(View(), Settings());
      ViewSize();
      ghost var counter, frames := sequencer.counter, Frames();
      NewOnesSuffix([], frames, counter);
      if |volumes| >= maxVolumes {
        RemoveLastVolume();
      }
      ghost var less := Frames();
      AddVolume();
      NewOnesTwice(frames, less, Frames(), counter, counter);
      due := false;
    }

    lemma ViewSize()
      ensures |View().volumes| == |volumes|
    {}

    method RemoveLastVolume()
      requires Valid() && due && |volumes| == maxVolumes
      modifies this`volumes, this`evicted
      ensures volumes == old(volumes)[..|old(volumes)| - 1] && Queue(sequencer, volumes)
      ensures evicted == old(evicted) + old(volumes[|volumes| - 1].bitmap)
      ensures Accounted(evicted, reported, Bitmaps())
      ensures FileGood(Frames(), sequencer.counter) && NewOnes(old(Frames()), Frames(), sequencer.counter)
      ensures View() == old(View()).(volumes := old(View()).volumes[..|old(volumes)| - 1])
      ensures Runs() == old(Runs())[..|old(volumes)| - 1]
    {
      hide LZ4Volume.Valid, UnionOf, Accounted, FileGood, Joined, NewOnes;
      ghost var bs, ws, vs := Bitmaps(), WrittenOf(volumes), ValuesOf(volumes);
      evicted := evicted + volumes[|volumes| - 1].bitmap;
      Evict(old(evicted), reported, bs);
      JoinedLast(ws);
      FileSuffix(ws[|ws| - 1], Joined(ws[..|ws| - 1]), sequencer.counter);
      NewOnesSuffix(ws[|ws| - 1], Joined(ws[..|ws| - 1]), sequencer.counter);
      volumes := volumes[..|volumes| - 1];
      assert Bitmaps() == bs[..|bs| - 1] && WrittenOf(volumes) == ws[..|ws| - 1] && ValuesOf(volumes) == vs[..|vs| - 1];
      assert LogsOf(volumes) == old(LogsOf(volumes))[..|vs| - 1];
    }

    /** Starts a new front volume and closes the one before it. */
    method AddVolume()
      requires maxVolumes >= 1 && |volumes| < maxVolumes && Queue(sequencer, volumes)
      requires Accounted(evicted, reported, Bitmaps()) && FileGood(Frames(), sequencer.counter)
      requires forall i :: 0 <= i < |volumes| ==> volumes[i].packed == packed && volumes[i].maxFileSize == volumeSize
      modifies this`volumes, (if |volumes| > 0 then {volumes[0]} else {}), sequencer
      ensures |volumes| == |old(volumes)| + 1 && volumes[1..] == old(volumes)
      ensures fresh(volumes[0]) && volumes[0].history == []
      ensures Shape() && Accounted(evicted, reported, Bitmaps()) && Runs() == [[]] + old(Runs())
      ensures View() == WithFresh(old(View()), packed)
      ensures NewOnes(old(Frames()), Frames(), old(sequencer.counter)) && sequencer.counter >= old(sequencer.counter)
      ensures |volumes| > 1 ==> AllGood(volumes[1].written)
      ensures |volumes| > 1 ==> RowsAll(volumes[1].written) == volumes[1].history
      ensures |volumes| > 1 ==> volumes[1].history == old(if |volumes| > 0 then volumes[0].history else [])
    {
      hide FileGood, LZ4Volume.Sound, UnionOf, Accounted, Joined, NewOnes, RowsAll, PageAfter, SlipOf, RowsOf, IsPage;
      hide LogSteps.Closing, Extends, LZ4Volume.Valid, ValuesOf, WrittenOf, LogsOf, BitmapsOf, FrontClosed;
      var v := new LZ4Volume(sequencer, volumeSize, packed);
      ghost var before := volumes;
      volumes := [v] + volumes;
      label Added:
      if |volumes| > 1 {
        volumes[1].Close();
        VolumeRows(volumes[1]);
      }
      v.Later@Added();
      Closed(before);
      AddedInFront(before, v);
    }

    /** The volume that was in front is closed, the others are as they were. */
    twostate predicate OnlyClosed(before: seq<LZ4Volume>)
      reads this, before, sequencer
    {
      && before == old(volumes) && old(Queue(sequencer, volumes)) && old(FileGood(Frames(), sequencer.counter))
      && old(sequencer.counter) <= sequencer.counter
      && (before != [] ==>
            && before[0].Valid() && !before[0].isOpen && before[0].log == old(before[0].log)
            && before[0].bitmap == old(before[0].bitmap)
            && Extends(old(before[0].written), before[0].written, old(sequencer.counter)))
      && (before == [] ==> old(sequencer.counter) == sequencer.counter)
      && (before != [] ==> before[0].View() == LogSteps.Closing(old(before[0].View()), packed))
      && (before != [] ==> before[0].sequencer == sequencer)
      && forall i :: 1 <= i < |before| ==> unchanged(before[i])
    }

    twostate lemma Closed(before: seq<LZ4Volume>)
      requires OnlyClosed(before)
      ensures forall i :: 0 <= i < |before| ==> before[i].Valid() && !before[i].isOpen
      ensures LogsOf(before) == old(LogsOf(volumes)) && BitmapsOf(before) == old(BitmapsOf(volumes))
      ensures FileGood(Joined(WrittenOf(before)), sequencer.counter)
      ensures NewOnes(old(Frames()), Joined(WrittenOf(before)), old(sequencer.counter))
      ensures LogSteps.Log(ValuesOf(before), sequencer.counter) == FrontClosed(old(View()), packed)
    {
      hide FileGood, LZ4Volume.Sound, Joined, Extends, NewOnes;
      forall i | 1 <= i < |before| ensures before[i].Valid() {
        before[i].Later();
      }
      if before == [] {
        FileGoodLater(Joined(WrittenOf(before)), old(sequencer.counter), sequencer.counter);
        assert WrittenOf(before) == old(WrittenOf(volumes));
        NewOnesSuffix([], old(Frames()), old(sequencer.counter));
      } else {
        ghost var rest := WrittenOf(before)[1..];
        ghost var w, w' := old(before[0].written), before[0].written;
        assert old(WrittenOf(volumes))[1..] == rest;
        assert old(WrittenOf(volumes)) == [w] + rest && WrittenOf(before) == [w'] + rest;
        JoinedCons(w, rest);
        JoinedCons(w', rest);
        VolumeFile(before[0]);
        FileExtends(Joined(rest), w, w', old(sequencer.counter), sequencer.counter);
        ExtendedNew(Joined(rest), w, w', old(sequencer.counter));
      }
    }

    /** A new volume in front of closed ones. */
    lemma AddedInFront(before: seq<LZ4Volume>, v: LZ4Volume)
      requires volumes == [v] + before && v !in before
      requires v.sequencer == sequencer && v.Valid() && v.isOpen && v.log == [] && v.written == []
      requires forall i :: 0 <= i < |before| ==>
                before[i].sequencer == sequencer && before[i].Valid() && !before[i].isOpen
      requires forall i, j :: 0 <= i < j < |before| ==> before[i] != before[j]
      requires Accounted(evicted, reported, BitmapsOf(before))
      ensures Queue(sequencer, volumes) && Frames() == Joined(WrittenOf(before)) && Runs() == [[]] + LogsOf(before)
      ensures Accounted(evicted, reported, Bitmaps()) && ValuesOf(volumes) == [v.Value()] + ValuesOf(before)
    {
      hide FileGood, LZ4Volume.Sound, Joined, Accounted, UnionOf;
      assert WrittenOf(volumes) == [v.written] + WrittenOf(before);
      assert LogsOf(volumes) == [v.log] + LogsOf(before);
      assert Bitmaps() == [v.bitmap] + BitmapsOf(before);
      JoinedCons(v.written, WrittenOf(before));
      AccountedFresh(evicted, reported, v.bitmap, BitmapsOf(before));
    }

    /** The log is as it was, but for the numbers taken by others. */
    twostate predicate AsBefore()
      reads this, volumes, sequencer
    {
      && Valid() && Frames() == old(Frames())
      && ValuesOf(volumes) == old(ValuesOf(volumes)) && Runs() == old(Runs())
    }

    /** Other logs may take numbers in between. */
    twostate lemma Later()
      requires old(Valid()) && unchanged(this) && old(sequencer.counter) <= sequencer.counter
      requires forall i :: 0 <= i < |volumes| ==> unchanged(volumes[i])
      ensures AsBefore()
    {
      hide FileGood, LZ4Volume.Sound, Joined, UnionOf;
      forall i | 0 <= i < |volumes| ensures volumes[i].Valid() {
        volumes[i].Later();
      }
      assert WrittenOf(volumes) == old(WrittenOf(volumes)) && ValuesOf(volumes) == old(ValuesOf(volumes));
      assert BitmapsOf(volumes) == old(BitmapsOf(volumes)) && LogsOf(volumes) == old(LogsOf(volumes));
      FileGoodLater(Frames(), old(sequencer.counter), sequencer.counter);
    }

    /** What recovery makes of the files of closed volumes. */
    static lemma ClosedRecovered(vs: seq<LZ4Volume>)
      requires forall k :: 0 <= k < |vs| ==> vs[k].Valid() && !vs[k].isOpen
      ensures GivesBack(Joined(WrittenOf(vs)), LogsOf(vs))
    {
      hide LZ4Volume.Sound, Joined, Slipped, RowsAll, Trim, SlipOf, RowsOf;
      ghost var runs := LogsOf(vs);
      forall k | 0 <= k < |vs|
        ensures Slipped(vs[k].written, RowsOf(runs[k]), SlipOf(runs[k])) && AllGood(vs[k].written)
        ensures RowsAll(vs[k].written) == RowsOf(runs[k])
        ensures SlipOf(runs[k]).Some? ==> SlipOf(runs[k]).value < |RowsOf(runs[k])|
      {
        VolumeSlipped(vs[k]);
        VolumeRows(vs[k]);
      }
      JoinedRecovered(WrittenOf(vs), RowsEach(runs), SlipsEach(runs));
    }

    /** Closes the log; what a reader then finds. */
    method Close() returns (frames: seq<Frame>)
      requires Valid()
      modifies volumes[0], sequencer
      ensures FileGood(frames, sequencer.counter) && sequencer.counter >= old(sequencer.counter)
      ensures NewOnes(old(Frames()), frames, old(sequencer.counter)) && GivesBack(frames, old(Runs()))
      ensures ClosedAs(frames, sequencer.counter, old(View()), packed)
    {
      hide FileGood, LZ4Volume.Sound, Joined, UnionOf, NewOnes, Slipped, RowsAll, Trim, SlipOf, RowsOf;
      hide LogSteps.Closing, Extends;
      ghost var vs := volumes;
      volumes[0].Close();
      Closed(vs);
      ClosedRecovered(vs);
      assert WrittenOf(vs) == FilesIn(ValuesOf(vs));
      frames := Collect();
    }

    method Collect() returns (frames: seq<Frame>)
      ensures frames == Frames()
    {
      frames := [];
      var i := |volumes|;
      assert WrittenOf(volumes)[|volumes|..] == [];
      while i > 0
        invariant 0 <= i <= |volumes| && frames == Joined(WrittenOf(volumes)[i..])
      {
        i := i - 1;
        frames := frames + volumes[i].written;
        assert WrittenOf(volumes)[i..][1..] == WrittenOf(volumes)[i + 1..];
      }
      assert WrittenOf(volumes)[0..] == WrittenOf(volumes);
    }
  }

  /** The front volume, if there is one, closed. */
  ghost function FrontClosed(l: LogSteps.Log, lz4: LogSteps.Packer): LogSteps.Log {
    if l.volumes == [] then l else LogSteps.CloseFront(l, lz4)
  }

  lemma RotatedIs(l: LogSteps.Log, c: LogSteps.Config)
    ensures l.volumes != [] ==>
              LogSteps.Rotated(l, c) ==
              WithFresh(if |l.volumes| >= c.count then l.(volumes := l.volumes[..|l.volumes| - 1]) else l, c.lz4)
  {}

  /** The frames of a closed log, and the next number. */
  ghost predicate ClosedAs(frames: seq<Frame>, counter: nat, l: LogSteps.Log, lz4: LogSteps.Packer) {
    frames == Joined(FilesIn(FrontClosed(l, lz4).volumes)) && counter == FrontClosed(l, lz4).counter
  }

  ghost function WithFresh(l: LogSteps.Log, lz4: LogSteps.Packer): LogSteps.Log {
    var c := FrontClosed(l, lz4);
    c.(volumes := [LogSteps.FreshVolume()] + c.volumes)
  }

  lemma Evict(evicted: set<u64>, reported: set<u64>, bs: seq<set<u64>>)
    requires |bs| > 0 && Accounted(evicted, reported, bs) && bs[|bs| - 1] <= reported + UnionOf(bs[..|bs| - 1])
    ensures Accounted(evicted + bs[|bs| - 1], reported, bs[..|bs| - 1])
  {}

  lemma JoinedNone<T>()
    ensures Joined<T>([[]] + []) == []
  {
    JoinedCons<T>([], []);
  }

  lemma VolumeFile(v: LZ4Volume)
    requires v.Valid()
    ensures FileGood(v.written, v.sequencer.counter)
  {}

  lemma VolumeRows(v: LZ4Volume)
    requires v.Valid() && !v.isOpen
    ensures AllGood(v.written) && RowsAll(v.written) == v.history
  {}

  lemma VolumeSlipped(v: LZ4Volume)
    requires v.Valid()
    ensures Slipped(v.written, v.history, v.slip) && (v.slip.Some? ==> v.slip.value < |v.history|)
  {}
}
