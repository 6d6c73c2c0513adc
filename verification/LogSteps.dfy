/** The log as a value: what every row and every flush does to pages, files, volumes and sequence numbers. */
module LogSteps {
  import opened Bits
  import opened LogFrame
  import opened LogSlips

  /** How many bytes the compressor makes of the last of these frames. */
  type Packer = seq<Frame> -> nat

  // ----- One volume

  /** The frame being filled, the file, and the next sequence number. */
  datatype Disk = Disk(page: Frame, fileSize: nat, written: seq<Frame>, counter: nat)

  /** The frame goes to the file under the next number. */
  function Wrote(d: Disk, lz4: Packer): Disk {
    var f := d.page.(number := d.counter);
    var fs := d.written + [f];
    Disk(f, d.fileSize + 4 + lz4(fs), fs, d.counter + 1)
  }

  function FlushTo(d: Disk, kind: FrameType, lz4: Packer): Disk {
    Wrote(d, lz4).(page := Blank(kind))
  }

  function Require(d: Disk, kind: FrameType, lz4: Packer): Disk {
    if d.page.kind == EMPTY then d.(page := d.page.(kind := kind))
    else if d.page.kind != kind then FlushTo(d, kind, lz4)
    else d
  }

  predicate RoomFor(p: Frame, len: nat) {
    Sized(p) && 16 * p.size <= DATA_SIZE && CanWrite(p, len)
  }

  function PlacePoint(p: Frame, id: u64, timestamp: u64, value: u64): Frame {
    if Sized(p) && p.size < NUM_TUPLES then PutPoint(p, id, timestamp, value) else p
  }

  function PlaceBlob(p: Frame, id: u64, payload: seq<u8>): Frame {
    if Room(p, |payload|) then PutBlob(p, id, payload) else p
  }

  function StepPoint(d: Disk, id: u64, timestamp: u64, value: u64, lz4: Packer): Disk {
    var w := Require(d, DATA_ENTRY, lz4);
    var x := w.(page := PlacePoint(w.page, id, timestamp, value));
    if x.page.size == NUM_TUPLES then FlushTo(x, EMPTY, lz4) else x
  }

  /** A page that takes so many bytes. */
  function MakeRoomFor(d: Disk, kind: FrameType, len: nat, lz4: Packer): Disk {
    if RoomFor(d.page, len) then d else FlushTo(d, kind, lz4)
  }

  function StepBlob(d: Disk, kind: FrameType, id: u64, payload: seq<u8>, lz4: Packer): Disk {
    var w := MakeRoomFor(Require(d, kind, lz4), kind, |payload|, lz4);
    var x := w.(page := PlaceBlob(w.page, id, payload));
    MakeRoomFor(x, kind, SIZE_THRESHOLD, lz4)
  }

  function Step(d: Disk, op: Op, lz4: Packer): Disk {
    match op
    case Put(PointRow(id, timestamp, value)) => StepPoint(d, id, timestamp, value, lz4)
    case Put(NameRow(id, name)) => StepBlob(d, SNAME_ENTRY, id, name, lz4)
    case Put(RecoveryRow(id, words)) => StepBlob(d, RECOVERY_ENTRY, id, WordBytes(words), lz4)
    case Flush => if d.page.size != 0 then FlushTo(d, EMPTY, lz4) else d
  }

  /** The file has reached its limit; a flush that writes nothing does not look. */
  predicate Overflows(d: Disk, op: Op, lz4: Packer, limit: nat) {
    (op.Flush? ==> d.page.size != 0) && Step(d, op, lz4).fileSize >= limit
  }

  function Closing(d: Disk, lz4: Packer): Disk {
    if d.page.size != 0 then Wrote(d, lz4) else d
  }

  // ----- One log

  /** A volume of a log: the frame being filled, the file, and its run. */
  datatype Volume = Volume(page: Frame, fileSize: nat, written: seq<Frame>, run: seq<Op>)

  function FreshVolume(): Volume { Volume(Blank(EMPTY), 0, [], []) }

  function DiskOf(v: Volume, counter: nat): Disk { Disk(v.page, v.fileSize, v.written, counter) }

  function VolumeOf(d: Disk, run: seq<Op>): Volume { Volume(d.page, d.fileSize, d.written, run) }

  /** How many volumes a log keeps, when a volume is full, and the compressor. */
  datatype Config = Config(count: nat, limit: nat, lz4: Packer)

  /** The volumes of a log, the newest first, and the next sequence number. */
  datatype Log = Log(volumes: seq<Volume>, counter: nat)

  function FrontStep(l: Log, op: Op, lz4: Packer): (r: Log)
    requires l.volumes != []
    ensures |r.volumes| == |l.volumes|
  {
    var v := l.volumes[0];
    var d := Step(DiskOf(v, l.counter), op, lz4);
    Log(l.volumes[0 := VolumeOf(d, v.run + [op])], d.counter)
  }

  function CloseFront(l: Log, lz4: Packer): (r: Log)
    requires l.volumes != []
    ensures |r.volumes| == |l.volumes|
  {
    var v := l.volumes[0];
    var d := Closing(DiskOf(v, l.counter), lz4);
    Log(l.volumes[0 := VolumeOf(d, v.run)], d.counter)
  }

  /** The oldest volume goes if there are too many; a new one comes, and the one before it is closed. */
  function Rotated(l: Log, c: Config): (r: Log)
    requires l.volumes != []
    ensures r.volumes != []
  {
    var kept := if |l.volumes| >= c.count then l.(volumes := l.volumes[..|l.volumes| - 1]) else l;
    var closed := if kept.volumes == [] then kept else CloseFront(kept, c.lz4);
    closed.(volumes := [FreshVolume()] + closed.volumes)
  }

  predicate FrontOverflows(l: Log, op: Op, c: Config)
    requires l.volumes != []
  {
    Overflows(DiskOf(l.volumes[0], l.counter), op, c.lz4, c.limit)
  }

  /** What a log is told; it is rotated when its front volume overflows. */
  function LogStep(l: Log, op: Op, c: Config): (r: Log)
    requires l.volumes != []
    ensures r.volumes != []
  {
    var next := FrontStep(l, op, c.lz4);
    if FrontOverflows(l, op, c) then Rotated(next, c) else next
  }

  // ----- Several logs with one sequencer

  datatype Command =
    | Point(shard: nat, id: u64, timestamp: u64, value: u64)
    | Name(shard: nat, id: u64, name: seq<u8>)
    | Recovery(shard: nat, id: u64, words: seq<u64>)
    | FlushShard(shard: nat)

  /** Payloads that a page can take. */
  predicate Fits(c: Command) {
    && (c.Name? ==> |c.name| <= DATA_SIZE - 16)
    && (c.Recovery? ==> 8 * |c.words| <= DATA_SIZE - 16)
  }

  function OpIn(c: Command): Op {
    match c
    case Point(_, id, timestamp, value) => Put(PointRow(id, timestamp, value))
    case Name(_, id, name) => Put(NameRow(id, name))
    case Recovery(_, id, words) => Put(RecoveryRow(id, words))
    case FlushShard(_) => Op.Flush
  }

  /** What is sent to shard `i` of `n`, in order. */
  function OpsFor(commands: seq<Command>, n: nat, i: nat): seq<Op>
    requires n > 0
  {
    if commands == [] then []
    else
      var (before, c) := (commands[..|commands| - 1], commands[|commands| - 1]);
      OpsFor(before, n, i) + if c.shard % n == i then [OpIn(c)] else []
  }

  /** The volumes of every log, and the next sequence number. */
  datatype Shards = Shards(logs: seq<seq<Volume>>, counter: nat)

  predicate Started(s: Shards) {
    |s.logs| > 0 && forall i :: 0 <= i < |s.logs| ==> s.logs[i] != []
  }

  function ShardStep(s: Shards, command: Command, c: Config): (r: Shards)
    requires Started(s)
    ensures Started(r) && |r.logs| == |s.logs|
  {
    var i := command.shard % |s.logs|;
    var l := LogStep(Log(s.logs[i], s.counter), OpIn(command), c);
    Shards(s.logs[i := l.volumes], l.counter)
  }

  /** `n` fresh shards after these commands. */
  function After(n: nat, c: Config, commands: seq<Command>): (s: Shards)
    requires n > 0
    ensures Started(s) && |s.logs| == n
  {
    if commands == [] then Shards(seq(n, _ => [FreshVolume()]), 0)
    else ShardStep(After(n, c, commands[..|commands| - 1]), commands[|commands| - 1], c)
  }

  function CloseShard(s: Shards, i: nat, lz4: Packer): (r: Shards)
    requires Started(s) && i < |s.logs|
    ensures Started(r) && |r.logs| == |s.logs|
  {
    var l := CloseFront(Log(s.logs[i], s.counter), lz4);
    Shards(s.logs[i := l.volumes], l.counter)
  }

  /** The first `i` logs closed, one after the other. */
  function CloseUpTo(s: Shards, i: nat, lz4: Packer): (r: Shards)
    requires Started(s) && i <= |s.logs|
    ensures Started(r) && |r.logs| == |s.logs|
    ensures forall j :: i <= j < |s.logs| ==> r.logs[j] == s.logs[j]
  {
    if i == 0 then s else CloseShard(CloseUpTo(s, i - 1, lz4), i - 1, lz4)
  }
}
