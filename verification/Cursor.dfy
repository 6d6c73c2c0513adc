/** The bounded queue between the query thread and the client (`ConcurrentCursor`), one locked section at a time. */
module Cursor {
  import opened Bits
  import opened Numbers

  const BUFFER_SIZE := 0x4000
  const QUEUE_MAX := 0x20
  const SAMPLE_SIZE := 40
  /** Where a sample holds its own size, as two bytes. */
  const SIZE_FIELD := 32
  /** Behind the last byte of a buffer the size field of a short sample can lie this far. */
  const BEYOND := 34

  type Bytes = seq<u8>

  function SizeAt(b: Bytes, pos: nat): nat
    requires pos + SIZE_FIELD + 2 <= |b|
  {
    Number(b[pos + SIZE_FIELD..pos + SIZE_FIELD + 2])
  }

  // ----- Copying samples, from any bytes

  /** One iteration of the copy loop of `samplecpy`: where the position goes, or that the loop ends. */
  function CopyStep(mem: Bytes, from: nat, size: nat, done: nat): Option<nat>
    requires from + size + BEYOND <= |mem|
  {
    if done >= size then None
    else
      var sz := SizeAt(mem, from + done);
      if size - done < sz then None else Some(done + sz)
  }

  /** The position after `n` iterations, as long as the loop goes on. */
  function Iterate(mem: Bytes, from: nat, size: nat, n: nat): (r: Option<nat>)
    requires from + size + BEYOND <= |mem|
  {
    if n == 0 then Some(0)
    else
      match Iterate(mem, from, size, n - 1)
      case None => None
      case Some(done) => CopyStep(mem, from, size, done)
  }

  datatype Copied = Copied(bytes: nat) | Forever

  /** What `samplecpy` returns; a sample of size zero stops it from moving on. */
  function Copy(mem: Bytes, from: nat, size: nat, done: nat): (r: Copied)
    requires from + size + BEYOND <= |mem| && done <= size
    ensures r.Copied? ==> done <= r.bytes <= size
    decreases size - done
  {
    match CopyStep(mem, from, size, done)
    case None => Copied(done)
    case Some(next) => if next == done then Forever else Copy(mem, from, size, next)
  }

  lemma {:induction false} StaysThere(mem: Bytes, from: nat, size: nat, n: nat, more: nat)
    requires from + size + BEYOND <= |mem| && Iterate(mem, from, size, n).Some?
    requires CopyStep(mem, from, size, Iterate(mem, from, size, n).value) == Iterate(mem, from, size, n)
    ensures Iterate(mem, from, size, n + more) == Iterate(mem, from, size, n)
    decreases more
  {
    hide CopyStep;
    if more > 0 {
      StaysThere(mem, from, size, n, more - 1);
    }
  }

  lemma {:induction false} EarlierGoesOn(mem: Bytes, from: nat, size: nat, n: nat, m: nat)
    requires from + size + BEYOND <= |mem| && m <= n && Iterate(mem, from, size, n).Some?
    ensures Iterate(mem, from, size, m).Some?
    decreases n
  {
    hide CopyStep;
    if m < n {
      EarlierGoesOn(mem, from, size, n - 1, m);
    }
  }

  lemma {:induction false} CopyFrom(mem: Bytes, from: nat, size: nat, n: nat, done: nat) returns (end: nat)
    requires from + size + BEYOND <= |mem| && done <= size && Iterate(mem, from, size, n) == Some(done)
    ensures end >= n && Iterate(mem, from, size, end).Some? && var last := Iterate(mem, from, size, end).value;
            match Copy(mem, from, size, done)
            case Copied(bytes) => bytes == last && Iterate(mem, from, size, end + 1).None?
            case Forever => CopyStep(mem, from, size, last) == Some(last)
    decreases size - done
  {
    var next := CopyStep(mem, from, size, done);
    assert Iterate(mem, from, size, n + 1) == next;
    if next.None? || next.value == done {
      end := n;
    } else {
      end := CopyFrom(mem, from, size, n + 1, next.value);
    }
  }

  /** `Copy` is what the loop does: it never ends exactly where `Copy` says so, and otherwise it ends there. */
  lemma CopyIsLoop(mem: Bytes, from: nat, size: nat)
    requires from + size + BEYOND <= |mem|
    ensures Copy(mem, from, size, 0).Forever? <==> forall n: nat :: Iterate(mem, from, size, n).Some?
    ensures Copy(mem, from, size, 0).Copied? ==>
              exists n: nat :: && Iterate(mem, from, size, n) == Some(Copy(mem, from, size, 0).bytes)
                               && Iterate(mem, from, size, n + 1).None?
  {
    hide Copy, CopyStep, Iterate;
    IterateStart(mem, from, size);
    var end := CopyFrom(mem, from, size, 0, 0);
    if Copy(mem, from, size, 0).Forever? {
      forall n: nat ensures Iterate(mem, from, size, n).Some? {
        if n >= end {
          StaysThere(mem, from, size, end, n - end);
        } else {
          EarlierGoesOn(mem, from, size, end, n);
        }
      }
    }
  }

  lemma IterateStart(mem: Bytes, from: nat, size: nat)
    requires from + size + BEYOND <= |mem|
    ensures Iterate(mem, from, size, 0) == Some(0)
  {}

  // ----- The steps of producer and consumer, for samples of any size

  datatype Buffer = Buffer(buf: Bytes, rdpos: nat, wrpos: nat)

  function MakeEmpty(): Buffer {
    Buffer(seq(BUFFER_SIZE, _ => 0), 0, 0)
  }

  predicate BufferShape(b: Buffer) {
    |b.buf| == BUFFER_SIZE && b.rdpos <= b.wrpos <= BUFFER_SIZE
  }

  predicate QueueShape(queue: seq<Buffer>) {
    |queue| <= QUEUE_MAX && forall i :: 0 <= i < |queue| ==> BufferShape(queue[i])
  }

  function Store(b: Buffer, s: Bytes): Buffer
    requires b.wrpos + |s| <= |b.buf|
  {
    Buffer(b.buf[..b.wrpos] + s + b.buf[b.wrpos + |s|..], b.rdpos, b.wrpos + |s|)
  }

  /** The queue with room for so many bytes in its last buffer, or with as many buffers as are allowed. */
  function MakeRoom(queue: seq<Buffer>, bytes: nat): (q: seq<Buffer>)
    requires QueueShape(queue)
    ensures QueueShape(q) && q != [] && queue <= q
    ensures q[|q| - 1].wrpos + bytes > BUFFER_SIZE ==> |q| == QUEUE_MAX
    decreases QUEUE_MAX - |queue|
  {
    if queue == [] || (queue[|queue| - 1].wrpos + bytes > BUFFER_SIZE && |queue| < QUEUE_MAX)
    then MakeRoom(queue + [MakeEmpty()], bytes)
    else queue
  }

  predicate IsSample(s: Bytes) {
    |s| >= SAMPLE_SIZE && SizeAt(s, 0) <= |s|
  }

  /** The locked section of `put`: the queue afterwards, and whether the sample is in it or the producer waits. */
  function PutInto(queue: seq<Buffer>, sample: Bytes): (r: (seq<Buffer>, bool))
    requires QueueShape(queue) && IsSample(sample)
    ensures QueueShape(r.0) && r.0 != []
  {
    var bytes := SizeAt(sample, 0);
    var q := MakeRoom(queue, bytes);
    var n := |q| - 1;
    if q[n].wrpos + bytes > BUFFER_SIZE then (q, false) else (q[n := Store(q[n], sample[..bytes])], true)
  }

  /** The queue after `n` bytes of its front buffer were read: an emptied buffer is dropped. */
  function Taken(queue: seq<Buffer>, n: nat): (q: seq<Buffer>)
    requires QueueShape(queue) && queue != [] && queue[0].rdpos + n <= queue[0].wrpos
    ensures QueueShape(q)
  {
    var front := queue[0].(rdpos := queue[0].rdpos + n);
    if front.rdpos == front.wrpos then queue[1..] else [front] + queue[1..]
  }

  /** `read` returned, waits for the producer, or hangs in the copy loop with the lock held. */
  datatype Reading = Returned(bytes: Bytes, queue: seq<Buffer>)
                   | Waiting(bytes: Bytes, queue: seq<Buffer>)
                   | Hung(bytes: Bytes, queue: seq<Buffer>)

  function FrontCopy(front: Buffer, room: nat, beyond: Bytes): (r: Copied)
    requires BufferShape(front) && |beyond| == BEYOND
    ensures r.Copied? ==> r.bytes <= room && front.rdpos + r.bytes <= front.wrpos
  {
    var available := front.wrpos - front.rdpos;
    Copy(front.buf + beyond, front.rdpos, if room < available then room else available, 0)
  }

  /** `read` from here on, with `room` bytes free in the buffer of the client and `got` already in it; `beyond` is the
      memory behind the buffers. */
  function ReadFrom(queue: seq<Buffer>, done: bool, room: nat, beyond: Bytes, got: Bytes): (r: Reading)
    requires QueueShape(queue) && |beyond| == BEYOND
    ensures QueueShape(r.queue)
    decreases room
  {
    if queue == [] then
      if done then Returned(got, queue) else Waiting(got, queue)
    else
      var front := queue[0];
      match FrontCopy(front, room, beyond)
      case Forever => Hung(got, queue)
      case Copied(n) =>
        if n == 0 then Returned(got, queue)
        else
          var more := got + front.buf[front.rdpos..front.rdpos + n];
          if room - n < SAMPLE_SIZE then Returned(more, Taken(queue, n))
          else ReadFrom(Taken(queue, n), done, room - n, beyond, more)
  }

  // ----- Runs

  datatype Op = Put(sample: Bytes) | Read(room: nat, beyond: Bytes) | Complete | IsDone

  predicate OpOk(op: Op) {
    match op
    case Put(sample) => IsSample(sample)
    case Read(_, beyond) => |beyond| == BEYOND
    case Complete => true
    case IsDone => true
  }

  /** The queue and the flag, with the samples put, the bytes handed to the client, and whether a read hangs. */
  datatype State = State(queue: seq<Buffer>, done: bool, accepted: seq<Bytes>, given: Bytes, hung: bool)

  function Step(st: State, op: Op): (r: State)
    requires QueueShape(st.queue) && OpOk(op)
    ensures QueueShape(r.queue)
  {
    if st.hung then st
    else
      match op
      case Put(sample) =>
        var (q, stored) := PutInto(st.queue, sample);
        st.(queue := q, accepted := if stored then st.accepted + [sample[..SizeAt(sample, 0)]] else st.accepted)
      case Read(room, beyond) =>
        var r := ReadFrom(st.queue, st.done, room, beyond, []);
        st.(queue := r.queue, given := st.given + r.bytes, hung := r.Hung?)
      case Complete => st.(done := true)
      case IsDone => st
  }

  predicate OpsOk(ops: seq<Op>) {
    forall i :: 0 <= i < |ops| ==> OpOk(ops[i])
  }

  function After(ops: seq<Op>): (st: State)
    requires OpsOk(ops)
    ensures QueueShape(st.queue)
  {
    if ops == [] then State([], false, [], [], false)
    else Step(After(ops[..|ops| - 1]), ops[|ops| - 1])
  }

  ghost function Cat(ss: seq<Bytes>): Bytes {
    if ss == [] then [] else ss[0] + Cat(ss[1..])
  }

  lemma {:induction false} CatConcat(a: seq<Bytes>, b: seq<Bytes>)
    ensures Cat(a + b) == Cat(a) + Cat(b)
  {
    if a == [] {
      assert a + b == b;
    } else {
      assert (a + b)[1..] == a[1..] + b;
      CatConcat(a[1..], b);
    }
  }

  lemma CatOne(s: Bytes)
    ensures Cat([s]) == s
  {
    assert [s][1..] == [];
  }

  // ----- What every run keeps, for samples of any size

  /** The bytes in the queue. */
  ghost function Stored(queue: seq<Buffer>): Bytes
    requires QueueShape(queue)
  {
    if queue == [] then [] else queue[0].buf[queue[0].rdpos..queue[0].wrpos] + Stored(queue[1..])
  }

  lemma {:induction false} StoredSnoc(queue: seq<Buffer>, b: Buffer)
    requires QueueShape(queue + [b])
    ensures QueueShape(queue) && BufferShape(b)
    ensures Stored(queue + [b]) == Stored(queue) + b.buf[b.rdpos..b.wrpos]
    decreases |queue|
  {
    assert forall i :: 0 <= i < |queue| ==> queue[i] == (queue + [b])[i];
    assert b == (queue + [b])[|queue|];
    if queue != [] {
      assert (queue + [b])[1..] == queue[1..] + [b];
      StoredSnoc(queue[1..], b);
    }
  }

  lemma {:induction false} RoomStored(queue: seq<Buffer>, bytes: nat)
    requires QueueShape(queue)
    ensures Stored(MakeRoom(queue, bytes)) == Stored(queue)
    decreases QUEUE_MAX - |queue|
  {
    hide Stored;
    if queue == [] || (queue[|queue| - 1].wrpos + bytes > BUFFER_SIZE && |queue| < QUEUE_MAX) {
      StoredSnoc(queue, MakeEmpty());
      RoomStored(queue + [MakeEmpty()], bytes);
    }
  }

  lemma StoreAdds(b: Buffer, s: Bytes)
    requires BufferShape(b) && b.wrpos + |s| <= BUFFER_SIZE
    ensures var r := Store(b, s); BufferShape(r) && r.buf[r.rdpos..r.wrpos] == b.buf[b.rdpos..b.wrpos] + s
  {}

  lemma TopGrown(q: seq<Buffer>, s: Bytes)
    requires QueueShape(q) && q != [] && q[|q| - 1].wrpos + |s| <= BUFFER_SIZE
    ensures var r := q[|q| - 1 := Store(q[|q| - 1], s)]; QueueShape(r) && Stored(r) == Stored(q) + s
  {
    hide Stored, Store;
    var n := |q| - 1;
    var (b, r) := (q[n], Store(q[n], s));
    StoreAdds(b, s);
    assert q == q[..n] + [b] && q[n := r] == q[..n] + [r];
    StoredSnoc(q[..n], b);
    StoredSnoc(q[..n], r);
  }

  lemma PutStored(queue: seq<Buffer>, sample: Bytes)
    requires QueueShape(queue) && IsSample(sample)
    ensures var (q, stored) := PutInto(queue, sample);
            Stored(q) == Stored(queue) + if stored then sample[..SizeAt(sample, 0)] else []
  {
    hide Stored, SizeAt, MakeRoom, Store, BufferShape;
    var bytes := SizeAt(sample, 0);
    var q := MakeRoom(queue, bytes);
    RoomStored(queue, bytes);
    if q[|q| - 1].wrpos + bytes <= BUFFER_SIZE {
      TopGrown(q, sample[..bytes]);
    }
  }

  lemma StoredCons(b: Buffer, rest: seq<Buffer>)
    requires QueueShape([b] + rest)
    ensures QueueShape(rest) && BufferShape(b) && Stored([b] + rest) == b.buf[b.rdpos..b.wrpos] + Stored(rest)
  {
    hide BufferShape;
    assert ([b] + rest)[0] == b && ([b] + rest)[1..] == rest;
  }

  lemma FrontShape(b: Buffer, n: nat)
    requires BufferShape(b) && b.rdpos + n <= b.wrpos
    ensures b.wrpos <= |b.buf| && BufferShape(b.(rdpos := b.rdpos + n))
  {}

  lemma TakenStored(queue: seq<Buffer>, n: nat)
    requires QueueShape(queue) && queue != [] && queue[0].rdpos + n <= queue[0].wrpos
    ensures Stored(queue) == queue[0].buf[queue[0].rdpos..queue[0].rdpos + n] + Stored(Taken(queue, n))
  {
    hide Stored, BufferShape, Taken;
    var (b, later) := (queue[0], queue[1..]);
    var front := b.(rdpos := b.rdpos + n);
    assert queue == [b] + later;
    StoredCons(b, later);
    FrontShape(b, n);
    CutJoin(b.buf, b.rdpos, n, b.wrpos - (b.rdpos + n));
    var (x, y) := (b.buf[b.rdpos..b.rdpos + n], b.buf[b.rdpos + n..b.wrpos]);
    TakenIs(queue, n);
    if front.rdpos < front.wrpos {
      StoredCons(front, later);
      assert (x + y) + Stored(later) == x + (y + Stored(later));
    } else {
      assert x + y == x;
    }
  }

  lemma TakenIs(queue: seq<Buffer>, n: nat)
    requires QueueShape(queue) && queue != [] && queue[0].rdpos + n <= queue[0].wrpos
    ensures var front := queue[0].(rdpos := queue[0].rdpos + n);
            && QueueShape([front] + queue[1..])
            && Taken(queue, n) == if front.rdpos == front.wrpos then queue[1..] else [front] + queue[1..]
  {}

  lemma {:induction false} ReadStored(queue: seq<Buffer>, done: bool, room: nat, beyond: Bytes, got: Bytes)
    requires QueueShape(queue) && |beyond| == BEYOND
    ensures var r := ReadFrom(queue, done, room, beyond, got); r.bytes + Stored(r.queue) == got + Stored(queue)
    decreases room
  {
    hide Stored, FrontCopy, Taken;
    if queue != [] && FrontCopy(queue[0], room, beyond).Copied? {
      var n := FrontCopy(queue[0], room, beyond).bytes;
      TakenStored(queue, n);
      if n > 0 && room - n >= SAMPLE_SIZE {
        ReadStored(Taken(queue, n), done, room - n, beyond,
                   got + queue[0].buf[queue[0].rdpos..queue[0].rdpos + n]);
      }
    }
  }

  /** Whatever the sizes: the bytes delivered followed by the bytes in the queue are the bytes accepted, in at most
      `QUEUE_MAX` buffers with their positions in order. */
  lemma {:induction false} BytesConserved(ops: seq<Op>)
    requires OpsOk(ops)
    ensures var st := After(ops); QueueShape(st.queue) && st.given + Stored(st.queue) == Cat(st.accepted)
  {
    hide Stored, Cat, PutInto, ReadFrom, SizeAt;
    if ops == [] {
      NothingStored();
    } else {
      var (st, op) := (After(ops[..|ops| - 1]), ops[|ops| - 1]);
      BytesConserved(ops[..|ops| - 1]);
      if op.Put? {
        PutStored(st.queue, op.sample);
        var s := op.sample[..SizeAt(op.sample, 0)];
        CatConcat(st.accepted, [s]);
        CatOne(s);
      } else if op.Read? {
        ReadStored(st.queue, st.done, op.room, op.beyond, []);
        var r := ReadFrom(st.queue, st.done, op.room, op.beyond, []);
        assert (st.given + r.bytes) + Stored(r.queue) == st.given + (r.bytes + Stored(r.queue));
      }
    }
  }

  lemma NothingStored()
    ensures Stored([]) == Cat([]) == []
  {}

  // ----- What a producer may expect

  /** `s` was written behind what the buffer held. */
  ghost predicate Written(b: Buffer, b': Buffer, s: Bytes)
    requires BufferShape(b) && BufferShape(b')
  {
    && b'.rdpos == b.rdpos && b'.wrpos == b.wrpos + |s| && b'.buf[b.wrpos..b'.wrpos] == s
    && b'.buf[..b.wrpos] == b.buf[..b.wrpos] && b'.buf[b'.wrpos..] == b.buf[b'.wrpos..]
  }

  /** The last buffer has room for `s`. */
  predicate LastTakes(queue: seq<Buffer>, s: Bytes) {
    queue != [] && queue[|queue| - 1].wrpos + |s| <= BUFFER_SIZE
  }

  /** A sample of at most the size of a buffer is stored exactly if the last buffer has room for it or another buffer is
      allowed: in the last buffer if it has room, otherwise at the start of a new one. If it is not stored the queue
      stays. A larger sample is never stored, and all buffers that are allowed are opened for it. */
  ghost predicate PutGood(queue: seq<Buffer>, after: seq<Buffer>, s: Bytes, stored: bool)
    requires QueueShape(queue) && QueueShape(after)
  {
    && (stored <==> |s| <= BUFFER_SIZE && (LastTakes(queue, s) || |queue| < QUEUE_MAX))
    && (if !stored then
          queue <= after && |after| == if |s| > BUFFER_SIZE then QUEUE_MAX else |queue|
        else if LastTakes(queue, s) then
          var n := |queue| - 1;
          |after| == |queue| && after[..n] == queue[..n] && Written(queue[n], after[n], s)
        else
          |after| == |queue| + 1 && after[..|queue|] == queue && Written(MakeEmpty(), after[|queue|], s))
  }

  lemma {:induction false} NeverRoom(queue: seq<Buffer>, bytes: nat)
    requires QueueShape(queue) && bytes > BUFFER_SIZE
    ensures |MakeRoom(queue, bytes)| == QUEUE_MAX
    decreases QUEUE_MAX - |queue|
  {
    if |queue| < QUEUE_MAX {
      NeverRoom(queue + [MakeEmpty()], bytes);
    }
  }

  lemma RoomExact(queue: seq<Buffer>, s: Bytes)
    requires QueueShape(queue) && |s| <= BUFFER_SIZE
    ensures MakeRoom(queue, |s|) ==
            if LastTakes(queue, s) || |queue| == QUEUE_MAX then queue else queue + [MakeEmpty()]
  {
    if !LastTakes(queue, s) && |queue| < QUEUE_MAX {
      var q := queue + [MakeEmpty()];
      assert MakeRoom(queue, |s|) == MakeRoom(q, |s|) == q;
    }
  }

  lemma StoreWrites(b: Buffer, s: Bytes)
    requires BufferShape(b) && b.wrpos + |s| <= BUFFER_SIZE
    ensures BufferShape(Store(b, s)) && Written(b, Store(b, s), s)
  {}

  /** `put` on any queue, for a sample of any size. */
  lemma PutExact(queue: seq<Buffer>, sample: Bytes)
    requires QueueShape(queue) && IsSample(sample)
    ensures var (q, stored) := PutInto(queue, sample); PutGood(queue, q, sample[..SizeAt(sample, 0)], stored)
  {
    hide SizeAt, MakeRoom, Store, Written, BufferShape, MakeEmpty;
    var s := sample[..SizeAt(sample, 0)];
    if |s| > BUFFER_SIZE {
      NeverRoom(queue, |s|);
    } else {
      RoomExact(queue, s);
      EmptyShape();
      var q := MakeRoom(queue, |s|);
      if q[|q| - 1].wrpos + |s| <= BUFFER_SIZE {
        StoreWrites(q[|q| - 1], s);
      }
    }
  }

  lemma EmptyShape()
    ensures BufferShape(MakeEmpty()) && MakeEmpty().wrpos == 0
  {}

  /** No buffer has room for so many bytes, and no more buffer that would have is allowed. */
  predicate NoRoom(queue: seq<Buffer>, bytes: nat) {
    bytes > 16384 || (|queue| == 32 && queue[31].wrpos + bytes > 16384)
  }

  lemma NoRoomExact(queue: seq<Buffer>, sample: Bytes)
    requires QueueShape(queue) && IsSample(sample)
    ensures PutInto(queue, sample).1 <==> !NoRoom(queue, SizeAt(sample, 0))
  {
    hide SizeAt, PutInto, BufferShape;
    PutExact(queue, sample);
  }

  // ----- How much fits

  ghost function Puts(samples: seq<Bytes>): (ops: seq<Op>)
    ensures |ops| == |samples|
  {
    seq(|samples|, i requires 0 <= i < |samples| => Put(samples[i]))
  }

  ghost predicate AllSized(samples: seq<Bytes>, size: nat) {
    forall i :: 0 <= i < |samples| ==> IsSample(samples[i]) && SizeAt(samples[i], 0) == size
  }

  lemma PutsOk(samples: seq<Bytes>, size: nat)
    requires AllSized(samples, size)
    ensures OpsOk(Puts(samples))
  {
    hide SizeAt;
  }

  /** So many samples of one size go into a buffer. */
  function PerBuffer(size: nat): nat
    requires size > 0
  {
    BUFFER_SIZE / size
  }

  /** `full` buffers are full, one more has `some` samples, and that is everything put so far. */
  ghost predicate Filled(st: State, size: nat, full: nat, some: nat)
    requires size > 0
  {
    && !st.hung && |st.accepted| == full * PerBuffer(size) + some && 0 < some <= PerBuffer(size)
    && |st.queue| == full + 1 <= QUEUE_MAX && st.queue[full].wrpos == some * size
  }

  lemma SizesFit(size: nat, some: nat)
    requires 0 < size <= BUFFER_SIZE && some <= PerBuffer(size)
    ensures some < PerBuffer(size) <==> some * size + size <= BUFFER_SIZE
  {
    var per := PerBuffer(size);
    assert per * size <= BUFFER_SIZE < (per + 1) * size;
    if some < per {
      assert (some + 1) * size <= per * size;
    }
  }

  lemma FilledMore(st: State, size: nat, full: nat, some: nat, sample: Bytes)
    requires QueueShape(st.queue) && 0 < size <= BUFFER_SIZE && Filled(st, size, full, some)
    requires IsSample(sample) && SizeAt(sample, 0) == size
    ensures var next := Step(st, Put(sample));
            if some < PerBuffer(size) then
              Filled(next, size, full, some + 1) && next.accepted == st.accepted + [sample[..size]]
            else if full + 1 < QUEUE_MAX then
              Filled(next, size, full + 1, 1) && next.accepted == st.accepted + [sample[..size]]
            else
              Filled(next, size, full, some) && next.accepted == st.accepted
  {
    hide SizeAt, PutInto, MakeEmpty;
    PutExact(st.queue, sample);
    EmptyShape();
    SizesFit(size, some);
    SizesFit(size, 0);
    assert (full + 1) * PerBuffer(size) == full * PerBuffer(size) + PerBuffer(size);
  }

  lemma FilledOne(size: nat, sample: Bytes)
    requires 0 < size <= BUFFER_SIZE && IsSample(sample) && SizeAt(sample, 0) == size
    ensures var next := Step(After([]), Put(sample)); Filled(next, size, 0, 1) && next.accepted == [sample[..size]]
  {
    hide SizeAt, PutInto, MakeEmpty;
    PutExact([], sample);
    EmptyShape();
    SizesFit(size, 0);
  }

  /** The first samples, as they are stored. */
  ghost function Firsts(samples: seq<Bytes>, size: nat, n: nat): (r: seq<Bytes>)
    requires AllSized(samples, size) && n <= |samples|
    ensures |r| == n
  {
    seq(n, i requires 0 <= i < n => samples[i][..size])
  }

  ghost function Fewer(m: nat, n: nat): nat { if m < n then m else n }

  lemma {:induction false} Filling(samples: seq<Bytes>, size: nat) returns (full: nat, some: nat)
    requires 0 < size <= BUFFER_SIZE && AllSized(samples, size) && samples != []
    ensures OpsOk(Puts(samples)) && Filled(After(Puts(samples)), size, full, some)
    ensures var n := Fewer(|samples|, QUEUE_MAX * PerBuffer(size));
            After(Puts(samples)).accepted == Firsts(samples, size, n)
    decreases |samples|
  {
    hide SizeAt, IsSample, Step, Filled;
    PutsOk(samples, size);
    var n := |samples| - 1;
    assert Puts(samples)[..n] == Puts(samples[..n]);
    if n == 0 {
      full, some := 0, 1;
      FilledOne(size, samples[0]);
      SizesFit(size, 0);
      assert Puts(samples[..0]) == [];
    } else {
      full, some := Filling(samples[..n], size);
      var st := After(Puts(samples[..n]));
      FilledMore(st, size, full, some, samples[n]);
      FilledCount(st, size, full, some);
      if some < PerBuffer(size) {
        some := some + 1;
      } else if full + 1 < QUEUE_MAX {
        full, some := full + 1, 1;
      }
    }
  }

  lemma FilledCount(st: State, size: nat, full: nat, some: nat)
    requires 0 < size <= BUFFER_SIZE && Filled(st, size, full, some)
    ensures some == PerBuffer(size) && full + 1 == QUEUE_MAX <==> |st.accepted| >= QUEUE_MAX * PerBuffer(size)
    ensures some <= PerBuffer(size) && full + 1 <= QUEUE_MAX
  {
    hide PerBuffer;
    AllFull(PerBuffer(size), full, some);
  }

  lemma AllFull(per: nat, full: nat, some: nat)
    requires 0 < some <= per && full + 1 <= QUEUE_MAX
    ensures some == per && full + 1 == QUEUE_MAX <==> full * per + some >= QUEUE_MAX * per
  {
    if full + 1 < QUEUE_MAX {
      MoreBuffers(per, full + 1, QUEUE_MAX - 1);
    }
  }

  lemma MoreBuffers(per: nat, m: nat, n: nat)
    requires m <= n
    ensures m * per <= n * per
  {}

  /** Without a reader the cursor takes exactly as many samples of one size as fit into its buffers, in order; the first
      put that is too many waits. */
  lemma CapacityExact(samples: seq<Bytes>, size: nat)
    requires 0 < size <= BUFFER_SIZE && AllSized(samples, size)
    ensures OpsOk(Puts(samples))
    ensures var n := Fewer(|samples|, 32 * (16384 / size));
            After(Puts(samples)).accepted == Firsts(samples, size, n)
  {
    PutsOk(samples, size);
    if samples != [] {
      var full, some := Filling(samples, size);
    }
  }

  // ----- What a client may expect

  /** The client has the first `n` samples, complete, and nothing else. */
  ghost predicate Delivered(st: State, n: nat) {
    n <= |st.accepted| && st.given == Cat(st.accepted[..n])
  }

  /** A read waits only with everything delivered and more to come. It returns only when there is no more to come, the
      next sample does not fit, or less than the size of a sample structure is free. */
  ghost predicate StopsRightly(st: State, n: nat, free: int, waits: bool)
    requires n <= |st.accepted|
  {
    if waits then n == |st.accepted| && !st.done
    else free < 40 || (if n == |st.accepted| then st.done else |st.accepted[n]| > free)
  }

  /** A put stores its sample exactly if there is room; a read ends, on a sample boundary, and not too early; the cursor
      is done exactly when it is complete and everything was delivered. */
  ghost predicate StepGood(st: State, op: Op)
    requires QueueShape(st.queue) && OpOk(op)
  {
    match op
    case Put(sample) =>
      var (next, s) := (Step(st, op), sample[..SizeAt(sample, 0)]);
      || st.hung
      || (next.accepted == st.accepted && PutGood(st.queue, next.queue, s, false))
      || (next.accepted == st.accepted + [s] && PutGood(st.queue, next.queue, s, true))
    case Read(room, beyond) =>
      var r := ReadFrom(st.queue, st.done, room, beyond, []);
      && !st.hung && !r.Hung?
      && exists n: nat :: Delivered(Step(st, op), n) && StopsRightly(Step(st, op), n, room - |r.bytes|, r.Waiting?)
    case Complete => true
    case IsDone => st.done ==> (st.queue == [] <==> st.given == Cat(st.accepted))
  }

  ghost predicate RunGood(ops: seq<Op>)
    requires OpsOk(ops)
  {
    ops == [] || (RunGood(ops[..|ops| - 1]) && StepGood(After(ops[..|ops| - 1]), ops[|ops| - 1]))
  }

  /** Every sample put has one of these sizes. */
  ghost predicate Sized(ops: seq<Op>, sizes: set<nat>) {
    forall i :: 0 <= i < |ops| ==> OpOk(ops[i]) && (ops[i].Put? ==> SizeAt(ops[i].sample, 0) in sizes)
  }

  // ----- Samples that contain their size field

  /** A stored sample contains its size field, and fits into a buffer. */
  ghost predicate SampleGood(s: Bytes) {
    SIZE_FIELD + 2 <= |s| <= BUFFER_SIZE && SizeAt(s, 0) == |s|
  }

  ghost predicate AllSamples(ss: seq<Bytes>) {
    forall i :: 0 <= i < |ss| ==> SampleGood(ss[i])
  }

  /** The buffer holds these samples between its two positions. */
  ghost predicate Holds(b: Buffer, ss: seq<Bytes>) {
    BufferShape(b) && b.buf[b.rdpos..b.wrpos] == Cat(ss) && AllSamples(ss)
  }

  ghost function Flatten(sss: seq<seq<Bytes>>): seq<Bytes> {
    if sss == [] then [] else sss[0] + Flatten(sss[1..])
  }

  lemma {:induction false} FlattenSnoc(sss: seq<seq<Bytes>>, ss: seq<Bytes>)
    ensures Flatten(sss + [ss]) == Flatten(sss) + ss
  {
    if sss == [] {
      assert [ss][1..] == [];
    } else {
      assert (sss + [ss])[1..] == sss[1..] + [ss];
      FlattenSnoc(sss[1..], ss);
    }
  }

  /** Every queued buffer holds its samples, at least one. */
  ghost predicate QueueHolds(queue: seq<Buffer>, sss: seq<seq<Bytes>>) {
    && |queue| == |sss| <= QUEUE_MAX
    && forall i :: 0 <= i < |queue| ==> Holds(queue[i], sss[i]) && sss[i] != []
  }

  lemma Inner(b: Bytes, lo: nat, hi: nat, i: nat, j: nat)
    requires lo <= hi <= |b| && i <= j <= hi - lo
    ensures b[lo..hi][i..j] == b[lo + i..lo + j]
  {
    forall k | 0 <= k < j - i ensures b[lo..hi][i..j][k] == b[lo + i..lo + j][k] {
      assert b[lo..hi][i + k] == b[lo + i + k];
    }
  }

  /** The first sample behind `pos` tells its size. */
  lemma SizeFound(b: Bytes, pos: nat, ss: seq<Bytes>, end: nat)
    requires pos <= end <= |b| && b[pos..end] == Cat(ss) && ss != [] && SampleGood(ss[0])
    ensures pos + |ss[0]| <= end && SizeAt(b, pos) == |ss[0]| && b[pos..pos + |ss[0]|] == ss[0]
    ensures b[pos + |ss[0]|..end] == Cat(ss[1..])
  {
    hide Number;
    var s := ss[0];
    var all := b[pos..end];
    assert all == s + Cat(ss[1..]);
    assert all[..|s|] == s && all[|s|..] == Cat(ss[1..]);
    assert b[pos..pos + |s|] == all[..|s|];
    assert b[pos + |s|..end] == all[|s|..];
    Inner(b, pos, pos + |s|, SIZE_FIELD, SIZE_FIELD + 2);
    assert b[pos + SIZE_FIELD..pos + SIZE_FIELD + 2] == s[SIZE_FIELD..SIZE_FIELD + 2];
  }

  /** The copy loop takes whole samples as long as they fit. */
  lemma {:induction false} CopyWhole(mem: Bytes, from: nat, size: nat, done: nat, end: nat, ss: seq<Bytes>)
    returns (k: nat)
    requires from + size <= end && end + BEYOND <= |mem| && done <= size
    requires mem[from + done..end] == Cat(ss) && AllSamples(ss)
    ensures k <= |ss| && Copy(mem, from, size, done) == Copied(done + |Cat(ss[..k])|)
    ensures k < |ss| ==> done + |Cat(ss[..k])| + |ss[k]| > size
    ensures from + done + |Cat(ss[..k])| <= end && mem[from + done + |Cat(ss[..k])|..end] == Cat(ss[k..])
    ensures mem[from + done..from + done + |Cat(ss[..k])|] == Cat(ss[..k])
    decreases size - done
  {
    hide SampleGood, SizeAt, Cat;
    k := 0;
    NoSamples();
    assert ss[0..] == ss && ss[..0] == [];
    if done < size {
      assert ss != [];
      SizeFound(mem, from + done, ss, end);
      Big(ss[0]);
      if |ss[0]| <= size - done {
        var k' := CopyWhole(mem, from, size, done + |ss[0]|, end, ss[1..]);
        k := k' + 1;
        FirstApart(ss, k);
        CutJoin(mem, from + done, |ss[0]|, |Cat(ss[1..][..k'])|);
      }
    } else if ss != [] {
      Big(ss[0]);
    }
  }

  lemma FirstApart(ss: seq<Bytes>, k: nat)
    requires 0 < k <= |ss|
    ensures Cat(ss[..k]) == ss[0] + Cat(ss[1..][..k - 1]) && ss[1..][k - 1..] == ss[k..]
    ensures k < |ss| ==> ss[1..][k - 1] == ss[k]
  {
    assert ss[..k][1..] == ss[1..][..k - 1];
  }

  lemma CutJoin(b: Bytes, pos: nat, m: nat, n: nat)
    requires pos + m + n <= |b|
    ensures b[pos..pos + m + n] == b[pos..pos + m] + b[pos + m..pos + m + n]
  {}

  lemma Big(s: Bytes)
    requires SampleGood(s)
    ensures SIZE_FIELD + 2 <= |s| <= BUFFER_SIZE
  {}

  lemma StoreHolds(b: Buffer, ss: seq<Bytes>, s: Bytes)
    requires Holds(b, ss) && SampleGood(s) && b.wrpos + |s| <= BUFFER_SIZE
    ensures Holds(Store(b, s), ss + [s])
  {
    hide SampleGood;
    var r := Store(b, s);
    CatConcat(ss, [s]);
    CatOne(s);
    assert r.buf[b.rdpos..b.wrpos] == b.buf[b.rdpos..b.wrpos];
    assert r.buf[r.rdpos..r.wrpos] == b.buf[b.rdpos..b.wrpos] + s;
  }

  lemma EmptyHolds()
    ensures Holds(MakeEmpty(), [])
  {}

  /** A queue whose last buffer may still be empty. */
  ghost predicate QueueOpen(queue: seq<Buffer>, sss: seq<seq<Bytes>>) {
    && 0 < |queue| == |sss| <= QUEUE_MAX
    && forall i :: 0 <= i < |queue| ==> Holds(queue[i], sss[i]) && (i < |queue| - 1 ==> sss[i] != [])
  }

  lemma TopStored(q: seq<Buffer>, sss: seq<seq<Bytes>>, s: Bytes)
    requires QueueOpen(q, sss) && SampleGood(s) && q[|q| - 1].wrpos + |s| <= BUFFER_SIZE
    ensures
      var n := |q| - 1;
      && q[n].wrpos + |s| <= |q[n].buf|
      && QueueHolds(q[n := Store(q[n], s)], sss[n := sss[n] + [s]])
      && Flatten(sss[n := sss[n] + [s]]) == Flatten(sss) + [s]
  {
    hide SampleGood, Cat, AllSamples, Flatten;
    var n := |q| - 1;
    StoreHolds(q[n], sss[n], s);
    assert sss == sss[..n] + [sss[n]];
    FlattenSnoc(sss[..n], sss[n]);
    assert sss[n := sss[n] + [s]] == sss[..n] + [sss[n] + [s]];
    FlattenSnoc(sss[..n], sss[n] + [s]);
  }

  ghost function Left(sss: seq<seq<Bytes>>, k: nat): seq<seq<Bytes>>
    requires sss != [] && k <= |sss[0]|
  {
    if k == |sss[0]| then sss[1..] else [sss[0][k..]] + sss[1..]
  }

  lemma FrontRead(queue: seq<Buffer>, sss: seq<seq<Bytes>>, k: nat, n: nat)
    requires QueueHolds(queue, sss) && queue != [] && k <= |sss[0]| && n == |Cat(sss[0][..k])|
    requires QueueShape(queue) && queue[0].rdpos + n <= queue[0].wrpos
    requires queue[0].buf[queue[0].rdpos + n..queue[0].wrpos] == Cat(sss[0][k..])
    ensures QueueHolds(Taken(queue, n), Left(sss, k))
    ensures Flatten(sss) == sss[0][..k] + Flatten(Left(sss, k))
  {
    hide Holds, Flatten, Cat, AllSamples;
    assert Holds(queue[0], sss[0]);
    PartRead(queue[0], sss[0], k, n);
    LeftFlat(sss, k);
  }

  lemma PartRead(b: Buffer, ss: seq<Bytes>, k: nat, n: nat)
    requires Holds(b, ss) && k <= |ss| && b.rdpos + n <= b.wrpos && b.buf[b.rdpos + n..b.wrpos] == Cat(ss[k..])
    ensures Holds(b.(rdpos := b.rdpos + n), ss[k..])
    ensures b.rdpos + n == b.wrpos <==> k == |ss|
  {
    hide SampleGood, Cat;
    CatEmpty(ss[k..]);
  }

  lemma LeftFlat(sss: seq<seq<Bytes>>, k: nat)
    requires sss != [] && k <= |sss[0]|
    ensures Flatten(sss) == sss[0][..k] + Flatten(Left(sss, k))
  {
    hide Flatten;
    var ss := sss[0];
    assert sss == [ss] + sss[1..];
    FlattenCons(ss, sss[1..]);
    FlattenCons(ss[k..], sss[1..]);
    assert ss == ss[..k] + ss[k..];
    assert ss + Flatten(sss[1..]) == ss[..k] + (ss[k..] + Flatten(sss[1..]));
  }

  lemma FlattenCons(ss: seq<Bytes>, rest: seq<seq<Bytes>>)
    ensures Flatten([ss] + rest) == ss + Flatten(rest)
  {
    assert ([ss] + rest)[1..] == rest;
  }

  lemma CatEmpty(ss: seq<Bytes>)
    requires AllSamples(ss)
    ensures Cat(ss) == [] <==> ss == []
  {}

  /** Making room adds at most one buffer, and none if the producer has to wait. */
  lemma RoomHolds(queue: seq<Buffer>, sss: seq<seq<Bytes>>, bytes: nat) returns (open: seq<seq<Bytes>>)
    requires QueueHolds(queue, sss) && QueueShape(queue) && bytes <= BUFFER_SIZE
    ensures var q := MakeRoom(queue, bytes);
            if q[|q| - 1].wrpos + bytes > BUFFER_SIZE then q == queue
            else QueueOpen(q, open) && Flatten(open) == Flatten(sss)
  {
    hide Holds, Flatten;
    if queue == [] || (queue[|queue| - 1].wrpos + bytes > BUFFER_SIZE && |queue| < QUEUE_MAX) {
      open := sss + [[]];
      EmptyHolds();
      FlattenSnoc(sss, []);
      assert MakeRoom(queue, bytes) == MakeRoom(queue + [MakeEmpty()], bytes) == queue + [MakeEmpty()];
    } else {
      open := sss;
    }
  }

  lemma PutHolds(queue: seq<Buffer>, sss: seq<seq<Bytes>>, sample: Bytes) returns (sss': seq<seq<Bytes>>)
    requires QueueHolds(queue, sss) && QueueShape(queue) && IsSample(sample)
    requires SIZE_FIELD + 2 <= SizeAt(sample, 0) <= BUFFER_SIZE
    ensures var (q, stored) := PutInto(queue, sample);
            && QueueHolds(q, sss')
            && Flatten(sss') == if stored then Flatten(sss) + [sample[..SizeAt(sample, 0)]] else Flatten(sss)
  {
    hide SizeAt, SampleGood, QueueHolds, QueueOpen, Flatten, Store, MakeRoom;
    var bytes := SizeAt(sample, 0);
    var s := sample[..bytes];
    var q := MakeRoom(queue, bytes);
    var open := RoomHolds(queue, sss, bytes);
    if q[|q| - 1].wrpos + bytes > BUFFER_SIZE {
      sss' := sss;
    } else {
      SizeKept(sample, bytes);
      OpenSize(q, open);
      TopStored(q, open, s);
      sss' := open[|q| - 1 := open[|q| - 1] + [s]];
    }
  }

  lemma OpenSize(q: seq<Buffer>, sss: seq<seq<Bytes>>)
    requires QueueOpen(q, sss)
    ensures 0 < |q| == |sss|
  {}

  lemma SizeKept(sample: Bytes, bytes: nat)
    requires SIZE_FIELD + 2 <= bytes <= BUFFER_SIZE && bytes <= |sample| && SizeAt(sample, 0) == bytes
    ensures SampleGood(sample[..bytes])
  {
    assert sample[..bytes][SIZE_FIELD..SIZE_FIELD + 2] == sample[SIZE_FIELD..SIZE_FIELD + 2];
  }

  lemma FrontFacts(queue: seq<Buffer>, sss: seq<seq<Bytes>>)
    requires QueueHolds(queue, sss)
    ensures QueueShape(queue) && |sss| == |queue|
    ensures queue != [] ==> Holds(queue[0], sss[0]) && sss[0] != []
  {}

  /** One copy from the front buffer: some whole samples, none only if the first does not fit. */
  lemma FrontWhole(front: Buffer, ss: seq<Bytes>, room: nat, beyond: Bytes) returns (k: nat)
    requires Holds(front, ss) && ss != [] && |beyond| == BEYOND
    ensures k <= |ss| && FrontCopy(front, room, beyond) == Copied(|Cat(ss[..k])|)
    ensures front.buf[front.rdpos..front.rdpos + |Cat(ss[..k])|] == Cat(ss[..k])
    ensures front.buf[front.rdpos + |Cat(ss[..k])|..front.wrpos] == Cat(ss[k..])
    ensures |Cat(ss[..k])| == 0 <==> k == 0
    ensures k == 0 ==> |ss[0]| > room
  {
    hide SampleGood, Cat, Copy;
    var available := front.wrpos - front.rdpos;
    var n := if room < available then room else available;
    var mem := front.buf + beyond;
    assert mem[front.rdpos + 0..front.wrpos] == front.buf[front.rdpos..front.wrpos];
    k := CopyWhole(mem, front.rdpos, n, 0, front.wrpos, ss);
    var m := |Cat(ss[..k])|;
    assert mem[front.rdpos..front.rdpos + m] == front.buf[front.rdpos..front.rdpos + m];
    assert mem[front.rdpos + m..front.wrpos] == front.buf[front.rdpos + m..front.wrpos];
    CatEmpty(ss[..k]);
    if k == 0 {
      FirstInside(ss);
    }
  }

  lemma FirstInside(ss: seq<Bytes>)
    requires ss != []
    ensures Cat(ss[..0]) == [] && |ss[0]| <= |Cat(ss)|
  {}

  /** A read of whole samples: which it delivers, what is left, and why it stops. */
  lemma {:induction false} ReadHolds(queue: seq<Buffer>, sss: seq<seq<Bytes>>, done: bool, room: nat, beyond: Bytes,
                                     got: Bytes)
    returns (out: seq<Bytes>, left: seq<seq<Bytes>>)
    requires QueueHolds(queue, sss) && QueueShape(queue) && |beyond| == BEYOND
    ensures var r := ReadFrom(queue, done, room, beyond, got);
            && !r.Hung? && r.bytes == got + Cat(out) && QueueHolds(r.queue, left)
            && Flatten(sss) == out + Flatten(left)
            && (r.Waiting? ==> left == [] && !done)
            && (r.Returned? ==>
                  || room - |Cat(out)| < SAMPLE_SIZE
                  || (if left == [] then done else left[0] != [] && |left[0][0]| > room - |Cat(out)|))
    decreases room
  {
    hide Holds, Flatten, Cat, Taken, Left, FrontCopy, QueueHolds;
    FrontFacts(queue, sss);
    out, left := [], sss;
    NoSamples();
    if queue != [] {
      var k := FrontWhole(queue[0], sss[0], room, beyond);
      var some := sss[0][..k];
      var n := |Cat(some)|;
      if k > 0 {
        FrontRead(queue, sss, k, n);
        var rest := Left(sss, k);
        if room - n < SAMPLE_SIZE {
          out, left := some, rest;
        } else {
          var out', left' := ReadHolds(Taken(queue, n), rest, done, room - n, beyond, got + Cat(some));
          CatConcat(some, out');
          out, left := some + out', left';
        }
      }
    }
  }

  lemma NoSamples()
    ensures Cat([]) == [] && Flatten([]) == []
  {}

  // ----- Good runs

  /** The first `n` samples were delivered, the others are in the queue. */
  ghost predicate Inv(st: State, n: nat, sss: seq<seq<Bytes>>) {
    && QueueHolds(st.queue, sss) && !st.hung
    && Delivered(st, n) && st.accepted[n..] == Flatten(sss)
  }

  lemma PutKeeps(st: State, n: nat, sss: seq<seq<Bytes>>, sample: Bytes) returns (sss': seq<seq<Bytes>>)
    requires QueueShape(st.queue) && Inv(st, n, sss) && IsSample(sample)
    requires SIZE_FIELD + 2 <= SizeAt(sample, 0) <= BUFFER_SIZE
    ensures Inv(Step(st, Put(sample)), n, sss')
  {
    hide QueueHolds, Flatten, Cat, SizeAt, PutInto;
    sss' := PutHolds(st.queue, sss, sample);
    var s := sample[..SizeAt(sample, 0)];
    assert (st.accepted + [s])[n..] == st.accepted[n..] + [s];
    assert (st.accepted + [s])[..n] == st.accepted[..n];
  }

  lemma PutIsGood(st: State, sample: Bytes)
    requires QueueShape(st.queue) && IsSample(sample)
    ensures StepGood(st, Put(sample))
  {
    hide SizeAt, PutInto, PutGood;
    PutExact(st.queue, sample);
  }

  lemma {:induction false} HeadOfFlat(sss: seq<seq<Bytes>>)
    requires sss != [] && sss[0] != []
    ensures Flatten(sss) != [] && Flatten(sss)[0] == sss[0][0]
  {}

  lemma ReadKeeps(st: State, n: nat, sss: seq<seq<Bytes>>, room: nat, beyond: Bytes)
    returns (n': nat, sss': seq<seq<Bytes>>)
    requires QueueShape(st.queue) && Inv(st, n, sss) && |beyond| == BEYOND
    ensures StepGood(st, Read(room, beyond)) && Inv(Step(st, Read(room, beyond)), n', sss')
  {
    hide QueueHolds, Flatten, Cat, ReadFrom;
    var out, left := ReadHolds(st.queue, sss, st.done, room, beyond, []);
    var (r, st') := (ReadFrom(st.queue, st.done, room, beyond, []), Step(st, Read(room, beyond)));
    n', sss' := n + |out|, left;
    assert st.accepted[n..] == out + Flatten(left);
    NextOnes(st.accepted, n, out, Flatten(left));
    CatConcat(st.accepted[..n], out);
    assert Delivered(st', n');
    FrontFacts(r.queue, left);
    if left != [] {
      HeadOfFlat(left);
    } else {
      NoSamples();
    }
    assert StopsRightly(st', n', room - |r.bytes|, r.Waiting?);
  }

  lemma NextOnes(all: seq<Bytes>, n: nat, out: seq<Bytes>, rest: seq<Bytes>)
    requires n <= |all| && all[n..] == out + rest
    ensures n + |out| <= |all| && all[..n + |out|] == all[..n] + out && all[n + |out|..] == rest
    ensures rest != [] ==> n + |out| < |all| && all[n + |out|] == rest[0]
    ensures rest == [] ==> n + |out| == |all|
  {
    assert |all| - n == |out| + |rest|;
    assert all[n..][..|out|] == out && all[n..][|out|..] == rest;
    assert all[n + |out|..] == all[n..][|out|..];
  }

  lemma DoneGood(st: State, n: nat, sss: seq<seq<Bytes>>)
    requires QueueShape(st.queue) && Inv(st, n, sss)
    ensures st.queue == [] <==> st.given == Cat(st.accepted)
  {
    hide Flatten, Cat, SampleGood;
    NoSamples();
    assert st.accepted == st.accepted[..n] + st.accepted[n..];
    CatConcat(st.accepted[..n], st.accepted[n..]);
    if sss != [] {
      assert Holds(st.queue[0], sss[0]) && sss[0] != [];
      FlatNotEmpty(sss);
    }
  }

  lemma FlatNotEmpty(sss: seq<seq<Bytes>>)
    requires sss != [] && sss[0] != [] && AllSamples(sss[0])
    ensures Cat(Flatten(sss)) != []
  {
    hide Cat, SampleGood;
    CatConcat(sss[0], Flatten(sss[1..]));
    CatEmpty(sss[0]);
  }

  ghost predicate BigSizes(sizes: set<nat>) {
    forall s <- sizes :: 34 <= s <= 16384
  }

  /** With samples of 34 bytes to the size of a buffer every run is good. */
  lemma {:induction false} BigRunsGood(ops: seq<Op>, sizes: set<nat>) returns (n: nat, sss: seq<seq<Bytes>>)
    requires Sized(ops, sizes) && BigSizes(sizes)
    ensures OpsOk(ops) && RunGood(ops) && Inv(After(ops), n, sss)
  {
    hide Inv, Step, StepGood, SizeAt, IsSample;
    n, sss := 0, [];
    if ops == [] {
      InvStart();
    } else {
      var (before, op) := (ops[..|ops| - 1], ops[|ops| - 1]);
      n, sss := BigRunsGood(before, sizes);
      n, sss := OpKeeps(After(before), n, sss, op);
    }
  }

  lemma InvStart()
    ensures Inv(After([]), 0, [])
  {}

  lemma OpKeeps(st: State, n: nat, sss: seq<seq<Bytes>>, op: Op) returns (n': nat, sss': seq<seq<Bytes>>)
    requires QueueShape(st.queue) && Inv(st, n, sss) && OpOk(op)
    requires op.Put? ==> SIZE_FIELD + 2 <= SizeAt(op.sample, 0) <= BUFFER_SIZE
    ensures StepGood(st, op) && Inv(Step(st, op), n', sss')
  {
    hide QueueHolds, QueueShape, SizeAt, PutInto, ReadFrom;
    n', sss' := n, sss;
    if op.Put? {
      PutIsGood(st, op.sample);
      sss' := PutKeeps(st, n, sss, op.sample);
    } else if op.Read? {
      n', sss' := ReadKeeps(st, n, sss, op.room, op.beyond);
    } else if op.IsDone? {
      DoneGood(st, n, sss);
    }
  }

  // ----- Samples that are too short or too long

  lemma TwoBytes(b: Bytes, pos: nat)
    requires pos + SIZE_FIELD + 2 <= |b|
    ensures SizeAt(b, pos) == Digit(b[pos + SIZE_FIELD]) + 256 * Digit(b[pos + SIZE_FIELD + 1])
  {
    hide Digit;
    var two := b[pos + SIZE_FIELD..pos + SIZE_FIELD + 2];
    assert two[1..][1..] == [];
    assert Number(two[1..]) == Digit(two[1]);
  }

  lemma ZeroByte()
    ensures Digit(0) == 0 && forall b :: Digit(b) == 0 ==> b == 0
  {}

  /** A sample of at most 32 bytes does not contain its size. In a fresh buffer the copy loop finds size zero, and every
      iteration leaves the position where it was. */
  lemma ShortSampleStuck(sample: Bytes, size: nat, beyond: Bytes, n: nat)
    requires 0 < size <= |sample| <= SIZE_FIELD && |beyond| == BEYOND
    ensures var mem := Store(MakeEmpty(), sample).buf + beyond;
            Iterate(mem, 0, size, n) == Some(0) && Copy(mem, 0, size, 0) == Forever
  {
    hide SizeAt, Digit;
    var mem := Store(MakeEmpty(), sample).buf + beyond;
    TwoBytes(mem, 0);
    ZeroByte();
    assert CopyStep(mem, 0, size, 0) == Some(0);
    StaysThere(mem, 0, size, 0, n);
  }

  /** One byte more stores half of the size; the first byte of the next sample is taken for the other half, so that
      the loop takes exactly the sample if and only if that byte is zero. */
  lemma HalfSizeStored(sample: Bytes, next: Bytes, size: nat, beyond: Bytes)
    requires |sample| == SIZE_FIELD + 1 && sample[SIZE_FIELD] == 33 && 0 < |next| <= BUFFER_SIZE - 33
    requires 33 <= size <= 33 + |next| && |beyond| == BEYOND
    ensures var mem := Store(Store(MakeEmpty(), sample), next).buf + beyond;
            var sz := 33 + 256 * Digit(next[0]);
            && CopyStep(mem, 0, size, 0) == (if sz <= size then Some(sz) else None)
            && (CopyStep(mem, 0, size, 0) == Some(33) <==> next[0] == 0)
  {
    hide SizeAt, Digit;
    var mem := Store(Store(MakeEmpty(), sample), next).buf + beyond;
    assert mem[SIZE_FIELD] == 33 && mem[SIZE_FIELD + 1] == next[0];
    TwoBytes(mem, 0);
    DigitBack(33);
    assert ByteOf(33) == 33;
    ZeroByte();
  }

  /** A sample with this size and first byte. */
  function SampleOf(size: nat, first: u8): (s: Bytes)
    requires size < 0x10000
    ensures |s| >= SAMPLE_SIZE && |s| >= size && s[0] == first
    ensures s[SIZE_FIELD] == ByteOf(size % 256) && s[SIZE_FIELD + 1] == ByteOf(size / 256)
  {
    [first] + seq(31, _ => 0) + [ByteOf(size % 256), ByteOf(size / 256)] + seq(size + 6, _ => 0)
  }

  lemma SampleOfSize(size: nat, first: u8)
    requires size < 0x10000
    ensures IsSample(SampleOf(size, first)) && SizeAt(SampleOf(size, first), 0) == size
  {
    hide SizeAt, SampleOf, ByteOf, Digit;
    TwoBytes(SampleOf(size, first), 0);
    DigitBack(size % 256);
    DigitBack(size / 256);
  }

  /** Two operations that cannot both be good: a sample leaves a buffer in the queue from which nothing comes. */
  lemma LeavesBuffer(size: nat) returns (ops: seq<Op>)
    requires size == 0 || BUFFER_SIZE < size < 0x10000
    ensures Sized(ops, {size}) && OpsOk(ops) && !RunGood(ops)
  {
    hide SizeAt, SampleOf, PutInto, MakeEmpty;
    var sample := SampleOf(size, 0);
    SampleOfSize(size, 0);
    ops := [Put(sample), Complete, IsDone];
    var st := After(ops[..2]);
    assert ops[..2] == [Put(sample), Complete] && ops[..2][..1] == [Put(sample)] && [Put(sample)][..0] == [];
    NothingTaken(sample);
    assert st.queue != [] && st.given == [] == Cat(st.accepted);
  }

  lemma NothingTaken(sample: Bytes)
    requires IsSample(sample) && (SizeAt(sample, 0) == 0 || SizeAt(sample, 0) > BUFFER_SIZE)
    ensures Cat(After([Put(sample)]).accepted) == [] && After([Put(sample)]).queue != []
    ensures !After([Put(sample)]).hung && After([Put(sample)]).given == []
  {
  }

  lemma FreshPut(sample: Bytes)
    requires IsSample(sample) && SizeAt(sample, 0) <= BUFFER_SIZE
    ensures var s := sample[..SizeAt(sample, 0)];
            After([Put(sample)]) == State([Store(MakeEmpty(), s)], false, [s], [], false)
  {
    hide SizeAt, Store;
    assert [Put(sample)][..0] == [];
    assert MakeRoom([], SizeAt(sample, 0)) == [MakeEmpty()];
  }

  /** One sample of at most 32 bytes, and the read never ends. */
  lemma HangsClient(size: nat) returns (ops: seq<Op>)
    requires 0 < size <= SIZE_FIELD
    ensures Sized(ops, {size}) && OpsOk(ops) && !RunGood(ops)
  {
    hide SizeAt, SampleOf, Step, Store, Copy;
    var (sample, beyond) := (SampleOf(size, 0), seq(BEYOND, _ => 0));
    SampleOfSize(size, 0);
    ops := [Put(sample), Read(size, beyond)];
    assert ops[..1] == [Put(sample)];
    FreshPut(sample);
    ShortSampleStuck(sample[..size], size, beyond, 0);
    var st := After(ops[..1]);
    StoreShape(MakeEmpty(), sample[..size]);
    assert FrontCopy(st.queue[0], size, beyond) == Forever;
    assert !StepGood(st, ops[1]);
  }

  lemma StoreShape(b: Buffer, s: Bytes)
    requires BufferShape(b) && b.wrpos + |s| <= BUFFER_SIZE
    ensures Store(b, s).rdpos == b.rdpos && Store(b, s).wrpos == b.wrpos + |s| && BufferShape(Store(b, s))
  {}

  lemma SecondPut(one: Bytes, two: Bytes)
    requires IsSample(one) && IsSample(two) && SizeAt(one, 0) + SizeAt(two, 0) <= BUFFER_SIZE
    ensures var (s, t) := (one[..SizeAt(one, 0)], two[..SizeAt(two, 0)]);
            After([Put(one), Put(two)]) == State([Store(Store(MakeEmpty(), s), t)], false, [s, t], [], false)
  {
    hide SizeAt, Store;
    FreshPut(one);
    var s := one[..SizeAt(one, 0)];
    var b := Store(MakeEmpty(), s);
    StoreShape(MakeEmpty(), s);
    assert [Put(one), Put(two)][..1] == [Put(one)];
    assert MakeRoom([b], SizeAt(two, 0)) == [b];
  }

  /** Two samples of 33 bytes, the second starting with a byte that is not zero: a read with room for both returns
      nothing. */
  lemma StarvesClient() returns (ops: seq<Op>)
    ensures Sized(ops, {33}) && OpsOk(ops) && !RunGood(ops)
  {
    hide SizeAt, SampleOf, Step, Store, Digit, After, MakeEmpty, Number;
    var (sample, beyond) := (SampleOf(33, 1), seq(BEYOND, _ => 0));
    SampleOfSize(33, 1);
    ops := [Put(sample), Put(sample), Read(66, beyond)];
    assert ops[..2] == [Put(sample), Put(sample)];
    SecondPut(sample, sample);
    var st := After(ops[..2]);
    var s := sample[..33];
    StoreTwice(s, s);
    assert s[SIZE_FIELD] == 33 && ByteOf(33) == 33;
    HalfSizeStored(s, s, 66, beyond);
    ZeroByte();
    var front := st.queue[0];
    assert CopyStep(front.buf + beyond, 0, 66, 0) == None;
    assert FrontCopy(front, 66, beyond) == Copied(0);
    assert ReadFrom(st.queue, st.done, 66, beyond, []) == Returned([], st.queue);
    NothingCame(st, 66, beyond);
  }

  lemma StoreTwice(s: Bytes, t: Bytes)
    requires |s| + |t| <= BUFFER_SIZE
    ensures var b := Store(MakeEmpty(), s);
            && b.wrpos == |s| && |b.buf| == BUFFER_SIZE
            && BufferShape(Store(b, t)) && Store(b, t).rdpos == 0 && Store(b, t).wrpos == |s| + |t|
  {}

  lemma NothingCame(st: State, room: nat, beyond: Bytes)
    requires QueueShape(st.queue) && |beyond| == BEYOND && room >= SAMPLE_SIZE && !st.done
    requires ReadFrom(st.queue, st.done, room, beyond, []) == Returned([], st.queue)
    requires st.given == [] && |st.accepted| == 2 && 0 < |st.accepted[0]| <= room
    ensures !StepGood(st, Read(room, beyond))
  {
    hide ReadFrom;
    var st' := Step(st, Read(room, beyond));
    assert forall n :: 0 < n <= |st.accepted| ==> Cat(st.accepted[..n]) != [];
    assert forall n: nat :: Delivered(st', n) ==> n == 0;
  }

  lemma {:induction false} BadSize(size: nat) returns (ops: seq<Op>)
    requires size < 0x10000 && !(SIZE_FIELD + 2 <= size <= BUFFER_SIZE)
    ensures Sized(ops, {size}) && OpsOk(ops) && !RunGood(ops)
  {
    hide RunGood, Sized, OpsOk;
    if size == 0 || size > BUFFER_SIZE {
      ops := LeavesBuffer(size);
    } else if size <= SIZE_FIELD {
      ops := HangsClient(size);
    } else {
      ops := StarvesClient();
    }
  }

  lemma SizedMore(ops: seq<Op>, some: set<nat>, all: set<nat>)
    requires Sized(ops, some) && some <= all
    ensures Sized(ops, all)
  {}

  /** Main theorem: whatever sizes of 16 bits the samples may have, every run delivers whole samples in order, ends
      every read, and is done when everything was delivered, if and only if no sample can be shorter than 34 bytes or
      longer than a buffer. */
  lemma SizesExact(sizes: set<nat>)
    requires forall s <- sizes :: s < 0x10000
    ensures (forall ops :: Sized(ops, sizes) ==> OpsOk(ops) && RunGood(ops)) <==> BigSizes(sizes)
  {
    hide Sized, RunGood, OpsOk;
    if BigSizes(sizes) {
      forall ops | Sized(ops, sizes) ensures OpsOk(ops) && RunGood(ops) {
        var n, sss := BigRunsGood(ops, sizes);
      }
    } else {
      var s :| s in sizes && !(SIZE_FIELD + 2 <= s <= BUFFER_SIZE);
      var ops := BadSize(s);
      SizedMore(ops, {s}, sizes);
    }
  }

  // ----- The cursor itself

  datatype PutResult = Accepted | Refused | Blocked

  class ConcurrentCursor {
    var queue: seq<Buffer>
    var done: bool

    /** The locked sections so far. */
    ghost var log: seq<Op>

    /** Queue and flag are those of the run so far, and no read hangs. */
    ghost predicate Valid()
      reads this
    {
      && OpsOk(log)
      && queue == After(log).queue && done == After(log).done && !After(log).hung
    }

    constructor ()
      ensures Valid() && log == []
    {
      queue, done, log := [], false, [];
    }

    /** `put`: refused without the lock once the cursor is complete. */
    method Put(sample: Bytes) returns (r: PutResult)
      requires Valid() && IsSample(sample)
      modifies this
      ensures Valid() && (r == Refused <==> old(done))
      ensures log == if r == Refused then old(log) else old(log) + [Op.Put(sample)]
      ensures r == Accepted ==> After(log).accepted == After(old(log)).accepted + [sample[..SizeAt(sample, 0)]]
      ensures r != Accepted ==> After(log).accepted == After(old(log)).accepted
      ensures QueueShape(queue) && QueueShape(old(queue))
      ensures r == Blocked <==> !old(done) && NoRoom(old(queue), SizeAt(sample, 0))
      ensures r != Refused ==> PutGood(old(queue), queue, sample[..SizeAt(sample, 0)], r == Accepted)
    {
      hide SizeAt, PutInto, After, PutGood, NoRoom;
      AfterShape(log);
      r := Refused;
      if !done {
        r := PutLocked(sample);
      }
    }

    /** Its locked section, also entered again by a producer that was `Blocked`. */
    method PutLocked(sample: Bytes) returns (r: PutResult)
      requires Valid() && IsSample(sample)
      modifies this`queue, this`log
      ensures Valid() && r != Refused && log == old(log) + [Op.Put(sample)]
      ensures r == Accepted ==> After(log).accepted == After(old(log)).accepted + [sample[..SizeAt(sample, 0)]]
      ensures r != Accepted ==> After(log).accepted == After(old(log)).accepted
      ensures QueueShape(queue) && QueueShape(old(queue))
      ensures r == Blocked <==> NoRoom(old(queue), SizeAt(sample, 0))
      ensures PutGood(old(queue), queue, sample[..SizeAt(sample, 0)], r == Accepted)
    {
      hide SizeAt, MakeRoom, Store, After, OpsOk, PutGood, NoRoom;
      AfterShape(log);
      AfterSnoc(log, Op.Put(sample));
      var bytes := SizeAt(sample, 0);
      var q := queue;
      while q == [] || (q[|q| - 1].wrpos + bytes > BUFFER_SIZE && |q| < QUEUE_MAX)
        invariant QueueShape(q) && MakeRoom(q, bytes) == MakeRoom(queue, bytes)
        modifies {}
        decreases QUEUE_MAX - |q|
      {
        RoomStep(q, bytes);
        q := q + [MakeEmpty()];
      }
      RoomStep(q, bytes);
      if q[|q| - 1].wrpos + bytes > BUFFER_SIZE {
        queue, r := q, Blocked;
      } else {
        queue, r := q[|q| - 1 := Store(q[|q| - 1], sample[..bytes])], Accepted;
      }
      log := log + [Op.Put(sample)];
      PutExact(old(queue), sample);
      NoRoomExact(old(queue), sample);
    }

    /** The client reads until its buffer is full, the next sample does not fit, or there is nothing more. */
    method Read(room: nat, beyond: Bytes) returns (r: Reading)
      requires Valid() && |beyond| == BEYOND
      modifies this`queue, this`log
      ensures log == old(log) + [Op.Read(room, beyond)] && OpsOk(log)
      ensures r == ReadFrom(old(queue), done, room, beyond, [])
      ensures !r.Hung? ==> Valid()
    {
      hide FrontCopy, Taken, After, OpsOk;
      AfterShape(log);
      AfterSnoc(log, Op.Read(room, beyond));
      log := log + [Op.Read(room, beyond)];
      var free := room;
      var got: Bytes := [];
      while true
        invariant QueueShape(queue) && free >= 0
        invariant ReadFrom(queue, done, free, beyond, got) == ReadFrom(old(queue), done, room, beyond, [])
        modifies this`queue
        decreases free
      {
        if queue == [] {
          return if done then Returned(got, queue) else Waiting(got, queue);
        }
        var front := queue[0];
        var copied := CopyFront(front, free, beyond);
        if copied.Forever? {
          return Hung(got, queue);
        }
        var n := copied.bytes;
        if n == 0 {
          return Returned(got, queue);
        }
        got := got + front.buf[front.rdpos..front.rdpos + n];
        queue := Taken(queue, n);
        free := free - n;
        if free < SAMPLE_SIZE {
          return Returned(got, queue);
        }
      }
    }

    method IsDone() returns (yes: bool)
      requires Valid()
      ensures yes <==> done && queue == []
      ensures yes ==> After(log).given == Cat(After(log).accepted)
    {
      yes := done && queue == [];
      BytesConserved(log);
    }

    method Complete()
      requires Valid()
      modifies this`done, this`log
      ensures Valid() && done && log == old(log) + [Op.Complete]
    {
      AfterSnoc(log, Op.Complete);
      done, log := true, log + [Op.Complete];
    }
  }

  /** The copy loop; `Forever` where it would go on without moving. */
  method SampleCpy(mem: Bytes, from: nat, size: nat) returns (r: Copied)
    requires from + size + BEYOND <= |mem|
    ensures r == Copy(mem, from, size, 0)
  {
    hide SizeAt;
    var done := 0;
    while done < size
      invariant done <= size && Copy(mem, from, size, done) == Copy(mem, from, size, 0)
    {
      var sz := SizeAt(mem, from + done);
      if size - done < sz {
        break;
      }
      if sz == 0 {
        return Forever;
      }
      done := done + sz;
    }
    r := Copied(done);
  }

  method CopyFront(front: Buffer, room: nat, beyond: Bytes) returns (r: Copied)
    requires BufferShape(front) && |beyond| == BEYOND
    ensures r == FrontCopy(front, room, beyond)
  {
    var available := front.wrpos - front.rdpos;
    r := SampleCpy(front.buf + beyond, front.rdpos, if room < available then room else available);
  }

  lemma RoomStep(q: seq<Buffer>, bytes: nat)
    requires QueueShape(q)
    ensures MakeRoom(q, bytes) ==
            if q == [] || (q[|q| - 1].wrpos + bytes > BUFFER_SIZE && |q| < QUEUE_MAX) then
              MakeRoom(q + [MakeEmpty()], bytes)
            else q
  {}

  lemma AfterShape(ops: seq<Op>)
    requires OpsOk(ops)
    ensures QueueShape(After(ops).queue)
  {}

  lemma AfterSnoc(ops: seq<Op>, op: Op)
    requires OpsOk(ops) && OpOk(op)
    ensures OpsOk(ops + [op]) && After(ops + [op]) == Step(After(ops), op)
  {
    assert (ops + [op])[..|ops|] == ops;
  }
}
