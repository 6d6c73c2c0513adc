/** Recovery: the frames of all streams merged by sequence number (`ShardedInputLog`). */
module ShardMerge {
  import opened Bits
  import opened LogFrame
  import opened LogSlips

  datatype Status = Ok | NoData | BadData

  /** The frame a stream is at, and how many of its rows were given out. */
  datatype Buffer = Buffer(pos: nat, status: Status, frame: Frame)

  predicate Live(b: Buffer) { b.status == Ok && b.frame.size != 0 }

  // ----- Frames in order

  predicate Ascending(fs: seq<Frame>) {
    forall i, j :: 0 <= i < j < |fs| ==> fs[i].number < fs[j].number
  }

  ghost function Bag<T>(ss: seq<seq<T>>): multiset<T> {
    if ss == [] then multiset{} else Bag(ss[..|ss| - 1]) + multiset(ss[|ss| - 1])
  }

  /** What the reader relies on: frames the writer made, none of them empty, numbered upwards without repetition. */
  ghost predicate Mergeable(all: seq<seq<Frame>>) {
    && (forall i :: 0 <= i < |all| ==> Ascending(all[i]) && AllGood(all[i]) && NoneEmpty(all[i]))
    && (forall i, j, k, l :: 0 <= i < j < |all| && 0 <= k < |all[i]| && 0 <= l < |all[j]| ==>
          all[i][k].number != all[j][l].number)
  }

  /** The global order of the frames. */
  ghost predicate InOrder(order: seq<Frame>, all: seq<seq<Frame>>) {
    Ascending(order) && AllGood(order) && multiset(order) == Bag(all)
  }

  lemma {:induction false} BagSplit<T>(ss: seq<seq<T>>, i: nat, s: seq<T>)
    requires i < |ss|
    ensures multiset(ss[i]) <= Bag(ss) && Bag(ss[i := s]) == Bag(ss) - multiset(ss[i]) + multiset(s)
    decreases |ss|
  {
    var n := |ss| - 1;
    if i == n {
      assert ss[i := s][..n] == ss[..n];
    } else {
      BagSplit(ss[..n], i, s);
      assert ss[i := s][..n] == ss[..n][i := s];
    }
  }

  lemma {:induction false} BagMember(ss: seq<seq<Frame>>, f: Frame) returns (i: nat)
    requires f in Bag(ss)
    ensures i < |ss| && f in ss[i]
    decreases |ss|
  {
    var n := |ss| - 1;
    if f in ss[n] {
      i := n;
    } else {
      i := BagMember(ss[..n], f);
    }
  }

  lemma NextOne(last: Frame, rest: multiset<Frame>, tail: seq<Frame>)
    requires Ascending(tail) && multiset(tail) == multiset{last} + rest
    requires forall f :: f in rest ==> last.number < f.number
    ensures |tail| > 0 && tail[0] == last
  {
    assert last in multiset(tail);
    var k :| 0 <= k < |tail| && tail[k] == last;
    var first := tail[0];
    assert first in multiset(tail);
    assert first == last || first in rest;
  }

  ghost predicate Before(done: seq<Frame>, rest: multiset<Frame>) {
    forall f, i :: f in rest && 0 <= i < |done| ==> done[i].number < f.number
  }

  lemma BeforeShorter(done: seq<Frame>, rest: multiset<Frame>)
    requires |done| > 0 && Ascending(done) && Before(done, rest)
    ensures
      var n := |done| - 1;
      && Ascending(done[..n]) && Before(done[..n], multiset{done[n]} + rest)
      && multiset(done) + rest == multiset(done[..n]) + (multiset{done[n]} + rest)
  {
    var n := |done| - 1;
    assert done == done[..n] + [done[n]];
  }

  /** Everything in `done` comes before everything in `rest`: it is the beginning of any ordering of both. */
  lemma {:induction false} FirstOnes(done: seq<Frame>, rest: multiset<Frame>, order: seq<Frame>)
    requires Ascending(done) && Ascending(order) && multiset(order) == multiset(done) + rest && Before(done, rest)
    ensures |done| <= |order| && order[..|done|] == done
    decreases |done|
  {
    if done == [] {
    } else {
      var n := |done| - 1;
      var more := multiset{done[n]} + rest;
      BeforeShorter(done, rest);
      FirstOnes(done[..n], more, order);
      TailBag(done[..n], more, order);
      NextOne(done[n], rest, order[n..]);
      assert order[..n + 1] == order[..n] + [order[n]];
      assert done == done[..n] + [done[n]];
    }
  }

  lemma TailBag(head: seq<Frame>, rest: multiset<Frame>, order: seq<Frame>)
    requires |head| <= |order| && order[..|head|] == head && multiset(order) == multiset(head) + rest
    ensures multiset(order[|head|..]) == rest
  {
    assert order == head + order[|head|..];
    Cancel(multiset(head), multiset(order[|head|..]), rest);
  }

  lemma Cancel<T>(a: multiset<T>, b: multiset<T>, c: multiset<T>)
    requires a + b == a + c
    ensures b == c
  {
    forall x ensures b[x] == c[x] {
      assert (a + b)[x] == a[x] + b[x] && (a + c)[x] == a[x] + c[x];
    }
  }

  // ----- The merge

  /** `done` are the frames given out, in order; `ahead` are the frames to come, stream by stream. */
  ghost predicate Merging(all: seq<seq<Frame>>, ahead: seq<seq<Frame>>, done: seq<Frame>) {
    && Mergeable(ahead)
    && multiset(done) + Bag(ahead) == Bag(all)
    && Ascending(done) && AllGood(done)
    && Before(done, Bag(ahead))
  }

  /** The stream whose next frame has the smallest number. */
  ghost predicate Smallest(ahead: seq<seq<Frame>>, ix: nat) {
    && ix < |ahead| && ahead[ix] != []
    && forall i :: 0 <= i < |ahead| && ahead[i] != [] ==> ahead[ix][0].number <= ahead[i][0].number
  }

  /** The smallest frame comes before everything else that is left. */
  lemma SmallestBefore(ahead: seq<seq<Frame>>, ix: nat, f: Frame)
    requires Mergeable(ahead) && Smallest(ahead, ix) && f in Bag(ahead[ix := ahead[ix][1..]])
    ensures ahead[ix][0].number < f.number
  {
    hide AllGood, NoneEmpty;
    var i := BagMember(ahead[ix := ahead[ix][1..]], f);
    if i == ix {
      var k :| 0 <= k < |ahead[ix]| - 1 && ahead[ix][1..][k] == f;
      assert ahead[ix][k + 1] == f;
    } else {
      var k :| 0 <= k < |ahead[i]| && ahead[i][k] == f;
      assert ahead[i][0].number <= f.number;
      assert ahead[ix][0].number != ahead[i][k].number;
    }
  }

  lemma MergeableLess(ahead: seq<seq<Frame>>, ix: nat)
    requires Mergeable(ahead) && ix < |ahead| && ahead[ix] != []
    ensures Mergeable(ahead[ix := ahead[ix][1..]])
  {
    hide FrameGood;
    var less := ahead[ix := ahead[ix][1..]];
    forall i | 0 <= i < |less| ensures Ascending(less[i]) && AllGood(less[i]) && NoneEmpty(less[i]) {
      assert Ascending(ahead[i]) && AllGood(ahead[i]) && NoneEmpty(ahead[i]);
    }
    forall i, j, k, l | 0 <= i < j < |less| && 0 <= k < |less[i]| && 0 <= l < |less[j]|
      ensures less[i][k].number != less[j][l].number
    {
      var k2 := if i == ix then k + 1 else k;
      var l2 := if j == ix then l + 1 else l;
      assert ahead[i][k2].number != ahead[j][l2].number;
    }
  }

  /** Giving out the smallest frame. */
  lemma Advance(all: seq<seq<Frame>>, ahead: seq<seq<Frame>>, done: seq<Frame>, ix: nat)
    requires Merging(all, ahead, done) && Smallest(ahead, ix)
    ensures Merging(all, ahead[ix := ahead[ix][1..]], done + [ahead[ix][0]])
    ensures RowsAll(done + [ahead[ix][0]]) == RowsAll(done) + Rows(ahead[ix][0])
  {
    hide FrameGood, Mergeable, Rows, Smallest, Bag, Before, Ascending;
    HeadGood(ahead, ix);
    var f, less := ahead[ix][0], ahead[ix := ahead[ix][1..]];
    MergeableLess(ahead, ix);
    BagLess(ahead, ix);
    forall g: Frame | g in Bag(less) ensures f.number < g.number {
      SmallestBefore(ahead, ix, g);
    }
    BeforeMore(done, f, Bag(less));
    assert (done + [f])[..|done|] == done;
    assert multiset(done + [f]) + Bag(less) == multiset(done) + (multiset{f} + Bag(less));
  }

  lemma BagLess(ahead: seq<seq<Frame>>, ix: nat)
    requires ix < |ahead| && ahead[ix] != []
    ensures Bag(ahead) == multiset{ahead[ix][0]} + Bag(ahead[ix := ahead[ix][1..]])
  {
    hide Bag;
    var f, tail := ahead[ix][0], ahead[ix][1..];
    BagSplit(ahead, ix, tail);
    assert ahead[ix] == [f] + tail;
    TakeOne(Bag(ahead), multiset(ahead[ix]), multiset(tail), f);
    assert Bag(ahead[ix := tail]) == Bag(ahead) - multiset(ahead[ix]) + multiset(tail);
  }

  lemma BeforeMore(done: seq<Frame>, f: Frame, rest: multiset<Frame>)
    requires Ascending(done) && Before(done, multiset{f} + rest) && forall g :: g in rest ==> f.number < g.number
    ensures Ascending(done + [f]) && Before(done + [f], rest)
  {
    assert f in multiset{f} + rest;
    forall g, i | g in rest && 0 <= i < |done| ensures done[i].number < g.number {
      assert g in multiset{f} + rest;
    }
  }

  lemma HeadGood(ahead: seq<seq<Frame>>, ix: nat)
    requires Mergeable(ahead) && Smallest(ahead, ix)
    ensures ix < |ahead| && ahead[ix] != [] && FrameGood(ahead[ix][0]) && ahead[ix][0].size > 0
  {}

  lemma TakeOne(all: multiset<Frame>, part: multiset<Frame>, less: multiset<Frame>, f: Frame)
    requires part <= all && part == multiset{f} + less
    ensures all == multiset{f} + (all - part + less)
  {}

  /** What was given out so far is the beginning of the rows in global order. */
  lemma GivenIsPrefix(all: seq<seq<Frame>>, ahead: seq<seq<Frame>>, done: seq<Frame>, order: seq<Frame>)
    requires Merging(all, ahead, done) && InOrder(order, all)
    ensures |done| <= |order| && order[..|done|] == done && RowsAll(done) <= RowsAll(order)
  {
    hide FrameGood, Mergeable;
    FirstOnes(done, Bag(ahead), order);
    RowsPrefix(order, |done|);
  }

  lemma {:induction false} RowsPrefix(fs: seq<Frame>, k: nat)
    requires AllGood(fs) && k <= |fs|
    ensures AllGood(fs[..k]) && RowsAll(fs[..k]) <= RowsAll(fs)
    decreases |fs|
  {
    hide FrameGood, Rows;
    if k < |fs| {
      var n := |fs| - 1;
      RowsPrefix(fs[..n], k);
      assert fs[..n][..k] == fs[..k];
    } else {
      assert fs[..k] == fs;
    }
  }

  lemma {:induction false} BagEmpty<T>(ss: seq<seq<T>>)
    requires forall i :: 0 <= i < |ss| ==> ss[i] == []
    ensures Bag(ss) == multiset{}
    decreases |ss|
  {
    if ss != [] {
      BagEmpty(ss[..|ss| - 1]);
    }
  }

  /** With nothing left, everything was given out. */
  lemma Finished(all: seq<seq<Frame>>, ahead: seq<seq<Frame>>, done: seq<Frame>, order: seq<Frame>)
    requires Merging(all, ahead, done) && InOrder(order, all) && forall i :: 0 <= i < |ahead| ==> ahead[i] == []
    ensures done == order
  {
    BagEmpty(ahead);
    GivenIsPrefix(all, ahead, done, order);
    assert multiset(order) == multiset(done);
    assert |multiset(order)| == |order| && |multiset(done)| == |done|;
  }

  // ----- The reader

  function Trimmed(ss: seq<seq<Frame>>): (r: seq<seq<Frame>>)
    ensures |r| == |ss| && forall i :: 0 <= i < |r| ==> r[i] == Trim(ss[i])
  {
    seq(|ss|, i requires 0 <= i < |ss| => Trim(ss[i]))
  }

  function NextOf(b: Buffer, stream: seq<Frame>): seq<Frame> {
    if b.status == Ok then [b.frame] + stream else stream
  }

  /** The frames to come, including those in the buffers. */
  function Ahead(queue: seq<Buffer>, streams: seq<seq<Frame>>): (r: seq<seq<Frame>>)
    requires |queue| == |streams|
    ensures |r| == |queue| && forall i :: 0 <= i < |r| ==> r[i] == Trim(NextOf(queue[i], streams[i]))
  {
    seq(|queue|, i requires 0 <= i < |queue| => Trim(NextOf(queue[i], streams[i])))
  }

  ghost predicate Reading(all: seq<seq<Frame>>, streams: seq<seq<Frame>>, queue: seq<Buffer>, ix: int,
                          done: seq<Frame>)
  {
    && |queue| == |streams| && -1 <= ix < |queue|
    && Merging(all, Ahead(queue, streams), done)
    && (forall i :: 0 <= i < |queue| && queue[i].status != Ok ==> streams[i] == [])
    && (forall i :: 0 <= i < |queue| && i != ix ==> queue[i].pos == 0)
    && (ix >= 0 ==> Smallest(Ahead(queue, streams), ix) && Live(queue[ix]) && queue[ix].pos <= queue[ix].frame.size)
  }

  /** The rows given out of the current frame. */
  ghost function Partly(queue: seq<Buffer>, ix: int): seq<Row>
    requires ix < |queue| && (ix >= 0 ==> FrameGood(queue[ix].frame) && queue[ix].pos <= queue[ix].frame.size)
  {
    if ix < 0 then [] else Rows(queue[ix].frame)[..queue[ix].pos]
  }

  lemma CurrentGood(all: seq<seq<Frame>>, streams: seq<seq<Frame>>, queue: seq<Buffer>, ix: int, done: seq<Frame>)
    requires Reading(all, streams, queue, ix, done) && ix >= 0
    ensures ix < |queue| && queue[ix].pos <= queue[ix].frame.size && 0 < queue[ix].frame.size
    ensures FrameGood(queue[ix].frame) && queue[ix].frame.kind != EMPTY
  {
    hide Merging;
    MergingFacts(all, Ahead(queue, streams), done);
    HeadGood(Ahead(queue, streams), ix);
    AheadAt(all, streams, queue, ix, done, ix);
  }

  lemma MergingFacts(all: seq<seq<Frame>>, ahead: seq<seq<Frame>>, done: seq<Frame>)
    requires Merging(all, ahead, done)
    ensures Mergeable(ahead) && AllGood(done)
  {}

  /** The number of frames to come. */
  function Count<T>(ss: seq<seq<T>>): nat {
    if ss == [] then 0 else Count(ss[..|ss| - 1]) + |ss[|ss| - 1]|
  }

  lemma {:induction false} CountLess<T>(ss: seq<seq<T>>, i: nat)
    requires i < |ss| && ss[i] != []
    ensures Count(ss[i := ss[i][1..]]) == Count(ss) - 1
    decreases |ss|
  {
    var n := |ss| - 1;
    if i == n {
      assert ss[i := ss[i][1..]][..n] == ss[..n];
    } else {
      CountLess(ss[..n], i);
      assert ss[i := ss[i][1..]][..n] == ss[..n][i := ss[..n][i][1..]];
    }
  }

  lemma AheadAt(all: seq<seq<Frame>>, streams: seq<seq<Frame>>, queue: seq<Buffer>, ix: int, done: seq<Frame>, i: nat)
    requires Reading(all, streams, queue, ix, done) && i < |queue|
    ensures Ahead(queue, streams)[i] == [] <==> !Live(queue[i])
    ensures Live(queue[i]) ==> Ahead(queue, streams)[i][0] == queue[i].frame
  {
    hide Merging, Smallest;
    if queue[i].status == Ok {
      assert NextOf(queue[i], streams[i])[0] == queue[i].frame;
    }
  }

  /** The buffer chosen by its number is at the smallest frame of all. */
  lemma Choosing(all: seq<seq<Frame>>, streams: seq<seq<Frame>>, queue: seq<Buffer>, res: nat, done: seq<Frame>)
    requires Reading(all, streams, queue, -1, done) && res < |queue| && Live(queue[res])
    requires forall i :: 0 <= i < |queue| && Live(queue[i]) ==> queue[res].frame.number <= queue[i].frame.number
    ensures Reading(all, streams, queue, res, done) && FrameGood(queue[res].frame) && queue[res].pos == 0
  {
    hide Merging;
    var ahead: seq<seq<Frame>> := Ahead(queue, streams);
    AheadAt(all, streams, queue, -1, done, res);
    forall i | 0 <= i < |ahead| && ahead[i] != [] ensures ahead[res][0].number <= ahead[i][0].number {
      AheadAt(all, streams, queue, -1, done, i);
    }
    MergingFacts(all, ahead, done);
    HeadGood(ahead, res);
  }

  lemma NoneLeft(all: seq<seq<Frame>>, streams: seq<seq<Frame>>, queue: seq<Buffer>, done: seq<Frame>,
                 order: seq<Frame>)
    requires Reading(all, streams, queue, -1, done) && forall i :: 0 <= i < |queue| ==> !Live(queue[i])
    requires InOrder(order, all)
    ensures done == order
  {
    hide Merging, InOrder;
    var ahead: seq<seq<Frame>> := Ahead(queue, streams);
    forall i | 0 <= i < |ahead| ensures ahead[i] == [] {
      AheadAt(all, streams, queue, -1, done, i);
    }
    Finished(all, ahead, done, order);
  }

  lemma AheadLess(streams: seq<seq<Frame>>, queue: seq<Buffer>, ix: nat, b: Buffer, rest: seq<Frame>)
    requires ix < |queue| == |streams| && Live(queue[ix]) && NextOf(b, rest) == streams[ix]
    ensures Ahead(queue, streams)[ix] == [queue[ix].frame] + Trim(streams[ix])
    ensures Ahead(queue[ix := b], streams[ix := rest]) == Ahead(queue, streams)[ix := Ahead(queue, streams)[ix][1..]]
  {
    var next := NextOf(queue[ix], streams[ix]);
    assert next[0] == queue[ix].frame && next[1..] == streams[ix];
  }

  /** A frame that was given out completely is replaced by the next one of its stream. */
  lemma Refilled(all: seq<seq<Frame>>, streams: seq<seq<Frame>>, queue: seq<Buffer>, ix: nat, done: seq<Frame>,
                 b: Buffer, rest: seq<Frame>)
    requires Reading(all, streams, queue, ix, done)
    requires NextOf(b, rest) == streams[ix] && b.pos == 0 && (b.status != Ok ==> rest == [])
    ensures Reading(all, streams[ix := rest], queue[ix := b], -1, done + [queue[ix].frame])
    ensures Count(Ahead(queue[ix := b], streams[ix := rest])) < Count(Ahead(queue, streams))
    ensures AllGood(done + [queue[ix].frame])
    ensures AllGood(done) && FrameGood(queue[ix].frame)
    ensures RowsAll(done + [queue[ix].frame]) == RowsAll(done) + Rows(queue[ix].frame)
  {
    hide Merging, Smallest, Rows, RowsAll, FrameGood, Count, Ahead, AllGood;
    var ahead, f := Ahead(queue, streams), queue[ix].frame;
    MergingFacts(all, ahead, done);
    HeadGood(ahead, ix);
    Advance(all, ahead, done, ix);
    AheadLess(streams, queue, ix, b, rest);
    CountLess(ahead, ix);
    MergingFacts(all, ahead[ix := ahead[ix][1..]], done + [f]);
  }

  lemma Partial(all: seq<seq<Frame>>, streams: seq<seq<Frame>>, queue: seq<Buffer>, ix: int, done: seq<Frame>,
                order: seq<Frame>)
    requires Reading(all, streams, queue, ix, done) && InOrder(order, all)
    ensures AllGood(done) && (ix >= 0 ==> FrameGood(queue[ix].frame))
    ensures RowsAll(done) + Partly(queue, ix) <= RowsAll(order)
  {
    hide Merging, InOrder, Smallest, RowsAll, FrameGood;
    var ahead: seq<seq<Frame>> := Ahead(queue, streams);
    MergingFacts(all, ahead, done);
    GivenIsPrefix(all, ahead, done, order);
    if ix >= 0 {
      CurrentGood(all, streams, queue, ix, done);
      HeadGood(ahead, ix);
      Advance(all, ahead, done, ix);
      GivenIsPrefix(all, ahead[ix := ahead[ix][1..]], done + [queue[ix].frame], order);
    }
  }

  /** The rows of one frame from `pos` on. */
  method CopyRows(f: Frame, pos: nat, n: nat) returns (rows: seq<Row>)
    requires FrameGood(f) && pos + n <= f.size
    ensures rows == Rows(f)[pos..pos + n]
  {
    hide FrameGood, RowAt;
    rows := [];
    for i := 0 to n
      invariant rows == Rows(f)[pos..pos + i]
    {
      rows := rows + [RowAt(f, pos + i)];
    }
  }

  /** The rows are the beginning of, or all of, the rows of the frames in global order. */
  ghost predicate IsPrefix(given: seq<Row>, all: seq<seq<Frame>>) {
    forall order :: InOrder(order, all) ==> given <= RowsAll(order)
  }

  ghost predicate IsAll(given: seq<Row>, all: seq<seq<Frame>>) {
    forall order :: InOrder(order, all) ==> given == RowsAll(order)
  }

  class ShardedInputLog {
    /** The frames each stream still has to deliver. */
    var streams: seq<seq<Frame>>
    var queue: seq<Buffer>
    var started: bool
    var bufferIx: int

    ghost const all: seq<seq<Frame>>
    ghost var done: seq<Frame>
    ghost var given: seq<Row>

    ghost predicate Valid()
      reads this
    {
      Mergeable(Trimmed(all)) &&
      if !started then streams == all && done == [] && given == []
      else
        && Reading(Trimmed(all), streams, queue, bufferIx, done)
        && AllGood(done) && (bufferIx >= 0 ==> FrameGood(queue[bufferIx].frame))
        && given == RowsAll(done) + Partly(queue, bufferIx)
    }

    constructor (frames: seq<seq<Frame>>)
      requires Mergeable(Trimmed(frames))
      ensures Valid() && all == frames && given == []
    {
      streams, queue, started, bufferIx := frames, [], false, -1;
      all, done, given := frames, [], [];
    }

    /** The next frame of a stream, or that there is none. */
    method ReadNextFrame(i: nat) returns (b: Buffer)
      requires i < |streams|
      modifies this`streams
      ensures |streams| == |old(streams)| && streams == old(streams)[i := streams[i]] && b.pos == 0
      ensures NextOf(b, streams[i]) == old(streams)[i] && (b.status != Ok ==> streams[i] == [])
    {
      if streams[i] == [] {
        b := Buffer(0, NoData, Blank(EMPTY));
      } else {
        b := Buffer(0, Ok, streams[i][0]);
        streams := streams[i := streams[i][1..]];
      }
    }

    method InitReadBuffers()
      requires Valid() && !started
      modifies this`streams, this`queue, this`started, this`bufferIx
      ensures Valid() && started && bufferIx == -1 && |queue| == |streams|
    {
      hide Mergeable, FrameGood;
      queue := [];
      for i := 0 to |streams|
        invariant |streams| == |all| && |queue| == i
        invariant forall j :: 0 <= j < i ==> NextOf(queue[j], streams[j]) == all[j] && queue[j].pos == 0
        invariant forall j :: 0 <= j < i ==> queue[j].status != Ok ==> streams[j] == []
        invariant forall j :: i <= j < |all| ==> streams[j] == all[j]
        modifies this`streams, this`queue
      {
        var b := ReadNextFrame(i);
        queue := queue + [b];
      }
      assert Ahead(queue, streams) == Trimmed(all);
      started, bufferIx := true, -1;
    }

    /** The live buffer with the smallest sequence number, the first one of several; -1 if no buffer is live. */
    method ChooseNext() returns (res: int)
      ensures -1 <= res < |queue|
      ensures res < 0 ==> forall i :: 0 <= i < |queue| ==> !Live(queue[i])
      ensures res >= 0 ==> Live(queue[res])
      ensures res >= 0 ==> forall i :: 0 <= i < |queue| && Live(queue[i]) ==>
                queue[res].frame.number <= queue[i].frame.number
      ensures res >= 0 ==> forall i :: 0 <= i < res && Live(queue[i]) ==>
                queue[res].frame.number < queue[i].frame.number
    {
      var start := 0;
      while start < |queue| && !Live(queue[start])
        invariant start <= |queue| && forall i :: 0 <= i < start ==> !Live(queue[i])
      {
        start := start + 1;
      }
      if start == |queue| {
        return -1;
      }
      res := start;
      for ix := start + 1 to |queue|
        invariant start <= res < ix && Live(queue[res])
        invariant forall i :: 0 <= i < ix && Live(queue[i]) ==> queue[res].frame.number <= queue[i].frame.number
        invariant forall i :: 0 <= i < res && Live(queue[i]) ==> queue[res].frame.number < queue[i].frame.number
      {
        if Live(queue[ix]) && queue[ix].frame.number < queue[res].frame.number {
          res := ix;
        }
      }
    }

    /** Moves to the next frame by number; the rows of the finished one are complete. */
    method NextBuffer() returns (more: bool)
      requires Valid() && started && (bufferIx >= 0 ==> queue[bufferIx].pos == queue[bufferIx].frame.size)
      modifies this`streams, this`queue, this`bufferIx, this`done
      ensures Valid() && started && given == old(given) && (more <==> bufferIx >= 0) && |queue| == |streams|
      ensures more ==> bufferIx < |queue| && queue[bufferIx].pos <= queue[bufferIx].frame.size
      ensures |old(queue)| == |old(streams)|
      ensures old(bufferIx) >= 0 ==> Count(Ahead(queue, streams)) < old(Count(Ahead(queue, streams)))
      ensures old(bufferIx) < 0 ==> Count(Ahead(queue, streams)) == old(Count(Ahead(queue, streams)))
      ensures !more ==> IsAll(given, Trimmed(all))
    {
      hide Mergeable, Merging, FrameGood, RowsAll, Rows, InOrder, Count, AllGood, Smallest;
      if bufferIx >= 0 {
        ghost var q, ss, f := queue, streams, queue[bufferIx].frame;
        var b := ReadNextFrame(bufferIx);
        Refilled(Trimmed(all), ss, q, bufferIx, done, b, streams[bufferIx]);
        queue := queue[bufferIx := b];
        AllRows(f);
        done := done + [f];
        bufferIx := -1;
        assert given == RowsAll(done) + Partly(queue, bufferIx);
      }
      var res := ChooseNext();
      if res >= 0 {
        Choosing(Trimmed(all), streams, queue, res, done);
        assert Rows(queue[res].frame)[..0] == [];
      } else {
        forall order | InOrder(order, Trimmed(all)) ensures AllGood(order) && given == RowsAll(order) {
          NoneLeft(Trimmed(all), streams, queue, done, order);
        }
      }
      bufferIx := res;
      more := res >= 0;
    }

    /** Gives out rows of the current frame, at most `room` of them. */
    method GiveRows(room: nat) returns (some: seq<Row>)
      requires Valid() && started && bufferIx >= 0 && room > 0 && queue[bufferIx].pos < queue[bufferIx].frame.size
      modifies this`queue, this`given
      ensures Valid() && |queue| == |old(queue)| == |streams| && 0 < |some| <= room && given == old(given) + some
      ensures bufferIx < |queue| && queue[bufferIx].pos <= queue[bufferIx].frame.size
      ensures Ahead(queue, streams) == old(Ahead(queue, streams))
    {
      hide Mergeable, Merging, FrameGood, RowsAll, Rows, AllGood, Smallest, Ahead;
      var b := queue[bufferIx];
      var toRead := if b.frame.size - b.pos < room then b.frame.size - b.pos else room;
      some := CopyRows(b.frame, b.pos, toRead);
      AllRows(b.frame);
      MoreRows(Trimmed(all), streams, queue, bufferIx, done, toRead);
      given := given + some;
      queue := queue[bufferIx := b.(pos := b.pos + toRead)];
    }

    /** Starts reading, if need be, and makes sure that some frame is current. */
    method Prepare() returns (more: bool)
      requires Valid()
      modifies this`streams, this`queue, this`started, this`bufferIx, this`done
      ensures Valid() && started && given == old(given) && (more <==> bufferIx >= 0)
      ensures !more ==> IsAll(given, Trimmed(all))
    {
      hide Valid, Trimmed, IsAll, Count, Ahead;
      if !started {
        InitReadBuffers();
      }
      Bounds();
      more := true;
      if bufferIx < 0 {
        more := NextBuffer();
      }
    }

    /** Fills up to `room` rows from the current frame on. */
    method Fill(total: nat) returns (status: Status, rows: seq<Row>)
      requires Valid() && started && bufferIx >= 0
      modifies this`streams, this`queue, this`bufferIx, this`done, this`given
      ensures Valid() && started && given == old(given) + rows && |rows| <= total
      ensures status == Ok || status == NoData
      ensures status == Ok ==> |rows| == total
      ensures status == NoData ==> IsAll(given, Trimmed(all))
    {
      hide Valid, Trimmed, IsAll, Count, Ahead;
      var room: nat := total;
      status, rows := Ok, [];
      Bounds();
      while bufferIx >= 0 && room > 0
        invariant status == Ok && Valid() && started && |queue| == |streams| && 0 <= bufferIx < |queue|
        invariant queue[bufferIx].pos <= queue[bufferIx].frame.size
        invariant given == old(given) + rows && |rows| + room == total
        decreases Count(Ahead(queue, streams)), room
      {
        if queue[bufferIx].pos < queue[bufferIx].frame.size {
          var some := GiveRows(room);
          assert old(given) + rows + some == old(given) + (rows + some);
          rows := rows + some;
          room := room - |some|;
        } else {
          var more := NextBuffer();
          if !more {
            status := NoData;
            break;
          }
        }
      }
    }

    /** Fills a buffer of `size` rows; says when there are no more. */
    method ReadNext(size: nat) returns (status: Status, rows: seq<Row>)
      requires Valid()
      modifies this`streams, this`queue, this`started, this`bufferIx, this`done, this`given
      ensures Valid() && given == old(given) + rows
      ensures status == Ok || status == NoData
      ensures status == Ok ==> |rows| == if size <= 0xFFFF_FFFF then size else 0xFFFF_FFFF
      ensures IsPrefix(given, Trimmed(all))
      ensures status == NoData ==> IsAll(given, Trimmed(all))
    {
      hide Valid, Trimmed, IsPrefix, IsAll;
      var room := if size <= 0xFFFF_FFFF then size else 0xFFFF_FFFF;
      var more := Prepare();
      if more {
        status, rows := Fill(room);
      } else {
        status, rows := NoData, [];
      }
      GivenSoFar();
    }

    lemma Bounds()
      requires Valid() && started
      ensures -1 <= bufferIx < |queue| == |streams|
      ensures bufferIx >= 0 ==> queue[bufferIx].pos <= queue[bufferIx].frame.size
    {}

    lemma GivenSoFar()
      requires Valid() && started
      ensures IsPrefix(given, Trimmed(all))
    {
      hide Mergeable, Reading, InOrder, AllGood, FrameGood, RowsAll;
      forall order | InOrder(order, Trimmed(all)) ensures AllGood(order) && given <= RowsAll(order) {
        OrderGood(order, Trimmed(all));
        Partial(Trimmed(all), streams, queue, bufferIx, done, order);
      }
    }
  }

  lemma OrderGood(order: seq<Frame>, all: seq<seq<Frame>>)
    requires InOrder(order, all)
    ensures AllGood(order)
  {}

  lemma AllRows(f: Frame)
    requires FrameGood(f)
    ensures |Rows(f)| == f.size && Rows(f)[..f.size] == Rows(f)
  {}

  lemma MoreRows(all: seq<seq<Frame>>, streams: seq<seq<Frame>>, queue: seq<Buffer>, ix: nat, done: seq<Frame>, n: nat)
    requires Reading(all, streams, queue, ix, done) && FrameGood(queue[ix].frame)
    requires queue[ix].pos + n <= queue[ix].frame.size
    ensures
      var b := queue[ix];
      var q := queue[ix := b.(pos := b.pos + n)];
      && Reading(all, streams, q, ix, done) && Ahead(q, streams) == Ahead(queue, streams)
      && Partly(q, ix) == Partly(queue, ix) + Rows(b.frame)[b.pos..b.pos + n]
  {
    hide Merging, Smallest, FrameGood, RowAt, Trim;
    var q := queue[ix := queue[ix].(pos := queue[ix].pos + n)];
    assert Ahead(q, streams) == Ahead(queue, streams);
  }
}
