/** The stream readers of `compression.h` and `DataBlockReader`, stepping one shared byte cursor.
    `None` and `Fatal` stand for `LOG(FATAL)`, after which the process is gone. */
module StreamReaders {
  import opened Bits
  import Leb128
  import VByte
  import DeltaDelta
  import Fcm
  import opened BlockFormat
  import opened StreamWriters

  class VByteStreamReader {
    const buf: array<u8>
    var pos: nat
    var cnt: nat
    var ctrl: u8
    var scut: nat

    constructor (buf: array<u8>, begin: nat)
      ensures this.buf == buf && State() == VByte.State(begin, 0, 0, 0)
    {
      this.buf := buf;
      pos, cnt, ctrl, scut := begin, 0, 0, 0;
    }

    ghost function State(): VByte.State
      reads this
    {
      VByte.State(pos, cnt, ctrl, scut)
    }

    /** The loop `acc |= byte << i; pos_++` over `n` bytes. */
    method ReadBytes(n: nat) returns (acc: u64)
      requires pos + n <= buf.Length
      modifies this`pos
      ensures pos == old(pos) + n && acc == FromBytes(buf[old(pos)..pos])
    {
      hide FromBytes, OrByte;
      acc := 0;
      var i := 0;
      ghost var p := pos;
      FromBytesNone(buf[..], p);
      while i < n
        invariant 0 <= i <= n && pos == p + i
        invariant acc == FromBytes(buf[p..pos])
      {
        FromBytesSnoc(buf[p..pos], buf[pos]);
        assert buf[p..pos + 1] == buf[p..pos] + [buf[pos]];
        acc := OrByte(acc, buf[pos], i);
        pos := pos + 1;
        i := i + 1;
      }
    }

    /** `read_raw` of `n` bytes. */
    method ReadRaw(n: nat) returns (r: Option<u64>)
      modifies this`pos
      ensures r == if old(pos) + n <= buf.Length then Some(FromBytes(buf[old(pos)..old(pos) + n])) else None
      ensures pos == if r.Some? then old(pos) + n else old(pos)
    {
      if buf.Length < pos + n {
        return None;
      }
      var x := ReadBytes(n);
      r := Some(x);
    }

    method ReadByte() returns (r: Option<u8>)
      modifies this`pos
      ensures r == if old(pos) < buf.Length then Some(buf[old(pos)]) else None
      ensures pos == if r.Some? then old(pos) + 1 else old(pos)
    {
      if pos >= buf.Length {
        return None;
      }
      r := Some(buf[pos]);
      pos := pos + 1;
    }

    method Next() returns (r: Option<u64>)
      modifies this
      ensures var spec := VByte.Next(buf[..], old(State()));
              r == (if spec.Some? then Some(spec.value.0) else None) && (r.Some? ==> State() == spec.value.1)
    {
      hide FromBytes, VByte.LowNibble, VByte.HighNibble;
      if ctrl == VByte.SHORTCUT && scut > 0 {
        scut, cnt := scut - 1, cnt + 1;
        return Some(0);
      }
      var bytelen := 0;
      cnt := cnt + 1;
      if cnt % 2 == 1 {
        var c := ReadByte();
        if c.None? {
          return None;
        }
        ctrl := c.value;
        bytelen := VByte.LowNibble(ctrl);
        if VByte.HighNibble(ctrl) == 0xF {
          scut := VByte.CHUNK_SIZE - 1;
          return Some(0);
        }
      } else {
        bytelen := VByte.HighNibble(ctrl);
      }
      r := ReadRaw(bytelen);
      assert r.Some? ==> buf[..][pos - bytelen..pos] == buf[pos - bytelen..pos];
    }

    method NextBase128() returns (r: Option<u64>)
      requires pos <= buf.Length
      modifies this`pos
      ensures var spec := Leb128.Get(buf[..], old(pos));
              r == (if spec.Some? then Some(spec.value.0) else None) && (r.Some? ==> pos == spec.value.1)
    {
      hide Leb128.Digit, Leb128.More, Leb128.Pad7, Or;
      var acc: u64, p, k := 0, pos, 0;
      while p < buf.Length
        invariant pos == old(pos) && p <= buf.Length
        invariant Leb128.Get(buf[..], pos) == Leb128.Scan(buf[..], p, acc, k)
      {
        acc := Or(acc, Leb128.Pad7(Leb128.Digit(buf[p]), k));
        p := p + 1;
        if !Leb128.More(buf[p - 1]) {
          pos := p;
          return Some(acc);
        }
        k := k + 1;
      }
      return None;
    }
  }

  lemma FromBytesNone(b: seq<u8>, p: nat)
    requires p <= |b|
    ensures FromBytes(b[p..p]) == 0
  {}

  class DeltaDeltaStreamReader {
    const stream: VByteStreamReader
    var prev: u64
    var min: u64
    var counter: nat

    constructor (stream: VByteStreamReader)
      ensures this.stream == stream && State() == DeltaDelta.State(0, 0, 0)
    {
      this.stream := stream;
      prev, min, counter := 0, 0, 0;
    }

    ghost function State(): DeltaDelta.State
      reads this
    {
      DeltaDelta.State(prev, min, counter)
    }

    method Next() returns (r: Option<u64>)
      modifies this, stream
      ensures var spec := DeltaDelta.Next(stream.buf[..], old(State()), old(stream.State()));
              r == (if spec.Some? then Some(spec.value.0) else None)
              && (r.Some? ==> State() == spec.value.1 && stream.State() == spec.value.2)
    {
      hide VByte.Next, Leb128.Get, DeltaDelta.Value;
      if counter % 16 == 0 {
        if stream.pos > stream.buf.Length {
          return None;
        }
        var m := stream.NextBase128();
        if m.None? {
          return None;
        }
        min := m.value;
      }
      counter := counter + 1;
      var delta := stream.Next();
      if delta.None? {
        return None;
      }
      prev := DeltaDelta.Value(prev, delta.value, min);
      r := Some(prev);
    }
  }

  class FcmStreamReader {
    const stream: VByteStreamReader
    const predictor: DfcmPredictor
    var flags: u8
    var iter: nat
    var zeroes: nat

    constructor (stream: VByteStreamReader)
      ensures this.stream == stream && fresh(predictor) && fresh(predictor.table)
      ensures predictor.table.Length == Fcm.PREDICTOR_N && State() == Fcm.State(Fcm.Fresh(), 0, 0, 0)
    {
      this.stream := stream;
      predictor := new DfcmPredictor();
      flags, iter, zeroes := 0, 0, 0;
    }

    ghost function State(): Fcm.State
      requires predictor.table.Length == Fcm.PREDICTOR_N
      reads this, predictor, predictor.table
    {
      Fcm.State(predictor.State(), flags, iter, zeroes)
    }

    method DecodeValue(flag: nat) returns (r: Option<u64>)
      modifies stream`pos
      ensures var n := Fcm.BytesOf(flag);
              && r == (if old(stream.pos) + n <= stream.buf.Length
                       then Some(Fcm.ValueOf(stream.buf[old(stream.pos)..old(stream.pos) + n], flag)) else None)
              && (r.Some? ==> stream.pos == old(stream.pos) + n)
    {
      hide FromBytes, PadBytes;
      var n := Fcm.BytesOf(flag);
      var x := stream.ReadRaw(n);
      if x.None? {
        return None;
      }
      r := Some(PadBytes(x.value, Fcm.ShiftOf(flag)));
    }

    method NextDiff() returns (r: Option<u64>)
      requires predictor.table.Length == Fcm.PREDICTOR_N
      modifies this, stream
      ensures predictor.State() == old(predictor.State())
      ensures var spec := Fcm.NextDiff(stream.buf[..], old(State()), old(stream.pos));
              r == (if spec.Some? then Some(spec.value.0) else None)
              && (r.Some? ==> State() == spec.value.1 && stream.pos == spec.value.2)
      ensures stream.State() == old(stream.State()).(pos := stream.pos)
    {
      hide Fcm.ValueOf, Fcm.BytesOf, Fcm.FirstFlag, Fcm.SecondFlag;
      var flag := 0;
      iter := iter + 1;
      if iter % 2 == 1 && zeroes == 0 {
        var c := stream.ReadByte();
        if c.None? {
          return None;
        }
        flags := c.value;
        if flags == Fcm.SHORTCUT {
          zeroes := 16;
        }
        flag := Fcm.FirstFlag(flags);
      } else {
        flag := Fcm.SecondFlag(flags);
      }
      if zeroes == 0 {
        ghost var p := stream.pos;
        r := DecodeValue(flag);
        assert r.Some? ==> stream.buf[..][p..stream.pos] == stream.buf[p..stream.pos];
      } else {
        r := Some(0);
        zeroes := zeroes - 1;
      }
    }

    method Next() returns (r: Option<u64>)
      requires predictor.table.Length == Fcm.PREDICTOR_N
      modifies this, stream, predictor, predictor.table
      ensures var spec := Fcm.Next(old(stream.buf[..]), old(State()), old(stream.pos));
              r == (if spec.Some? then Some(spec.value.0) else None)
              && (r.Some? ==> State() == spec.value.1 && stream.pos == spec.value.2)
      ensures stream.State() == old(stream.State()).(pos := stream.pos)
    {
      hide Fcm.NextDiff, Fcm.Predict, Fcm.Update, Fcm.Xor;
      var diff := NextDiff();
      if diff.None? {
        return None;
      }
      var predicted := predictor.PredictNext();
      var bits := Fcm.Xor(predicted, diff.value);
      predictor.Update(bits);
      r := Some(bits);
    }
  }

  class DataBlockReader {
    const stream: VByteStreamReader
    const tsStream: DeltaDeltaStreamReader
    const valStream: FcmStreamReader
    var buffer: seq<u64>
    var index: nat

    ghost predicate Valid()
      reads this
    {
      && tsStream.stream == stream && valStream.stream == stream
      && valStream.predictor.table.Length == Fcm.PREDICTOR_N
      && stream.buf.Length >= HEADER_SIZE && |buffer| == 16
      && stream.buf != (valStream.predictor.table as object)
    }

    ghost function View(): Reader
      requires Valid()
      reads this, stream, tsStream, valStream, valStream.predictor, valStream.predictor.table
    {
      Reader(stream.State(), tsStream.State(), valStream.State(), buffer, index)
    }

    constructor (buf: array<u8>)
      requires buf.Length >= HEADER_SIZE
      ensures Valid() && stream.buf == buf && View() == Start()
      ensures fresh(stream) && fresh(tsStream) && fresh(valStream)
      ensures fresh(valStream.predictor) && fresh(valStream.predictor.table)
    {
      var s := new VByteStreamReader(buf, HEADER_SIZE);
      stream := s;
      tsStream := new DeltaDeltaStreamReader(s);
      valStream := new FcmStreamReader(s);
      buffer := seq(16, _ => 0);
      index := 0;
    }

    method GetU16(offset: nat) returns (n: nat)
      requires offset + 2 <= stream.buf.Length
      ensures n == U16(stream.buf[..], offset)
    {
      n := stream.buf[offset] as nat + 256 * (stream.buf[offset + 1] as nat);
    }

    /** The loop that refills the timestamp buffer. */
    method ReadStampsInto() returns (ok: bool)
      requires Valid()
      modifies this`buffer, stream, tsStream
      ensures Valid()
      ensures var spec := ReadStamps(stream.buf[..], old(tsStream.State()), old(stream.State()), 16);
              ok == spec.Some? &&
              (ok ==> buffer == spec.value.0 && tsStream.State() == spec.value.1 && stream.State() == spec.value.2)
    {
      hide DeltaDelta.Next;
      ghost var b, d0, s0 := stream.buf[..], tsStream.State(), stream.State();
      var ts := [];
      var i := 0;
      assert forall rest: seq<u64> :: ts + rest == rest;
      while i < 16
        invariant 0 <= i <= 16 && |ts| == i && |buffer| == 16 && Valid() && stream.buf[..] == b
        invariant ReadStamps(b, d0, s0, 16) ==
                  match ReadStamps(b, tsStream.State(), stream.State(), 16 - i)
                  case None => None
                  case Some((rest, d, s)) => Some((ts + rest, d, s))
      {
        var t := tsStream.Next();
        if t.None? {
          return false;
        }
        assert forall rest :: ts + ([t.value] + rest) == (ts + [t.value]) + rest;
        ts := ts + [t.value];
        i := i + 1;
      }
      buffer := ts;
      assert ts + [] == ts;
      ok := true;
    }

    /** `next`. */
    method Next() returns (r: Status)
      requires Valid()
      modifies this, stream, tsStream, valStream, valStream.predictor, valStream.predictor.table
      ensures Valid() && stream.buf[..] == old(stream.buf[..])
      ensures r == BlockFormat.Next(stream.buf[..], old(View())).0
      ensures !r.Fatal? ==> View() == BlockFormat.Next(stream.buf[..], old(View())).1
    {
      hide ReadStamps, NextValue, NextRaw, U16;
      var nchunks := GetU16(2);
      var ntail := GetU16(4);
      if index < nchunks * 16 {
        if index % 16 == 0 {
          var ok := ReadStampsInto();
          if !ok {
            return Fatal;
          }
        }
        r := ValueAt(index % 16);
      } else if index < ntail + nchunks * 16 {
        r := RawPair();
      } else {
        r := NoData;
      }
    }

    method ValueAt(k: nat) returns (r: Status)
      requires Valid() && k == index % 16
      modifies this`index, stream, valStream, valStream.predictor, valStream.predictor.table
      ensures Valid() && stream.buf[..] == old(stream.buf[..])
      ensures r == NextValue(stream.buf[..], old(View())).0
      ensures !r.Fatal? ==> View() == NextValue(stream.buf[..], old(View())).1
    {
      hide Fcm.Next;
      index := index + 1;
      var value := valStream.Next();
      if value.None? {
        return Fatal;
      }
      return Ok(Point(buffer[k], value.value));
    }

    method RawPair() returns (r: Status)
      requires Valid()
      modifies this`index, stream`pos
      ensures Valid() && stream.buf[..] == old(stream.buf[..])
      ensures r == NextRaw(stream.buf[..], old(View())).0
      ensures !r.Fatal? ==> View() == NextRaw(stream.buf[..], old(View())).1
    {
      hide FromBytes;
      index := index + 1;
      ghost var p := stream.pos;
      var ts := stream.ReadRaw(8);
      if ts.None? {
        return Fatal;
      }
      var value := stream.ReadRaw(8);
      if value.None? {
        return Fatal;
      }
      assert stream.buf[..][p..p + 8] == stream.buf[p..p + 8];
      assert stream.buf[..][p + 8..p + 16] == stream.buf[p + 8..p + 16];
      return Ok(Point(ts.value, value.value));
    }
  }
}
