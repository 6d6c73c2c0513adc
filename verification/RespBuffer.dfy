/** The growing read buffer of the RESP parser (`ReadBuffer`) and the element readers over it (`RESPStream`). */
module RespBuffer {
  import opened Bits
  import opened Resp

  /** What a reading method returns: the element, the request for more bytes, or an error. */
  datatype Element<+T> = Got(value: T) | Wait | Malformed

  /** The method found what the specification says, and stands behind it. */
  ghost predicate Found<T(!new)>(e: Element<T>, r: Parsed<T>, pos: nat) {
    match r
    case Done(value, next) => e == Got(value) && pos == next
    case Again => e == Wait
    case Bad => e == Malformed
  }

  class ReadBuffer {
    const bufferSize: nat
    var buffer: Bytes
    var rpos: nat
    var wpos: nat
    var cons: nat
    var lent: nat

    /** Everything received, and where the buffer begins in it. */
    ghost var stream: Bytes
    ghost var base: nat

    ghost predicate Valid()
      reads this
    {
      && cons <= rpos <= wpos <= |buffer| && 4 * bufferSize <= |buffer| && bufferSize > 0
      && base + wpos == |stream| && stream[base..] == buffer[..wpos]
    }

    ghost function Pos(): nat
      reads this
    {
      base + rpos
    }

    ghost function Consumed(): nat
      reads this
    {
      base + cons
    }

    constructor (size: nat)
      requires size > 0
      ensures Valid() && bufferSize == size && stream == [] && Pos() == Consumed() == 0 && lent == 0
    {
      bufferSize := size;
      buffer := seq(size * 4, _ => 0);
      rpos, wpos, cons, lent := 0, 0, 0, 0;
      stream, base := [], 0;
    }

    /** The next byte; at the end of the buffer the parser throws. */
    method Get() returns (c: Option<int>)
      requires Valid()
      modifies this`rpos
      ensures Valid()
      ensures old(Pos()) == |stream| ==> c == None && Pos() == old(Pos())
      ensures old(Pos()) < |stream| ==> c == Some(stream[old(Pos())]) && Pos() == old(Pos()) + 1
    {
      if rpos == wpos {
        return None;
      }
      assert stream[base..][rpos] == buffer[rpos];
      c := Some(buffer[rpos]);
      rpos := rpos + 1;
    }

    /** The type of the next element. */
    function NextKind(): (k: Kind)
      reads this
      requires Valid()
      ensures Pos() <= |stream| && k == NextType(stream, Pos())
    {
      assert rpos < wpos ==> stream[base..][rpos] == buffer[rpos];
      if rpos == wpos then AGAIN
      else if buffer[rpos] == '+' as int then STRING
      else if buffer[rpos] == ':' as int then INTEGER
      else if buffer[rpos] == '$' as int then BULK_STR
      else if buffer[rpos] == '*' as int then ARRAY
      else if buffer[rpos] == '-' as int then ERROR
      else NONE
    }

    /** Copies a line; without a line feed within the quota, minus the number of bytes looked at. */
    method ReadLine(quota: nat) returns (line: Bytes, res: int)
      requires Valid() && quota > 0
      modifies this`rpos
      ensures Valid() && old(Pos()) <= |stream|
      ensures
        match Line(stream, old(Pos()), quota)
        case Done(l, next) => res == |l| && line == l && Pos() == next
        case Again => 0 - quota < res <= 0 && Pos() == old(Pos())
        case Bad => res == 0 - quota && Pos() == old(Pos())
    {
      hide Line;
      ghost var received := buffer[..wpos];
      assert received == stream[base..];
      LineShift(stream, base, rpos, quota);
      line, res := FindLine(buffer, rpos, wpos, quota);
      if res > 0 {
        rpos := rpos + res;
      }
    }

    /** Gives the parser back what it read since the last complete element. */
    method Discard()
      requires Valid()
      modifies this`rpos
      ensures Valid() && Pos() == Consumed()
    {
      rpos := cons;
    }

    method Consume()
      requires Valid()
      modifies this`cons
      ensures Valid() && Consumed() == Pos()
    {
      cons := rpos;
    }

    /** Makes room for a chunk, by moving the unconsumed bytes to the front or by doubling the buffer. */
    method Pull()
      requires Valid() && lent == 0
      modifies this`buffer, this`rpos, this`wpos, this`cons, this`lent, this`base
      ensures Valid() && lent == 1
      ensures |buffer| - wpos >= bufferSize
      ensures Pos() == old(Pos()) && Consumed() == old(Consumed())
      ensures buffer[cons..wpos] == old(buffer[cons..wpos])
    {
      lent := lent + 1;
      var room := |buffer| - wpos;
      if room < bufferSize {
        if cons + room > bufferSize {
          ghost var was := buffer;
          buffer := buffer[cons..] + buffer[|buffer| - cons..];
          base := base + cons;
          wpos, rpos, cons := wpos - cons, rpos - cons, 0;
          assert stream[base..] == stream[old(base)..][old(cons)..];
          assert buffer[..wpos] == was[old(cons)..old(wpos)];
        } else {
          buffer := buffer + seq(|buffer|, _ => 0);
        }
      }
    }

    /** A chunk that was written into the pulled buffer. */
    method Push(chunk: Bytes)
      requires Valid() && lent == 1 && |chunk| <= |buffer| - wpos
      modifies this`buffer, this`wpos, this`lent, this`stream
      ensures Valid() && lent == 0 && stream == old(stream) + chunk
    {
      lent := lent - 1;
      buffer := buffer[..wpos] + chunk + buffer[wpos + |chunk|..];
      wpos := wpos + |chunk|;
      stream := stream + chunk;
      assert stream[base..] == old(stream[base..]) + chunk;
    }
  }

  /** The copying loop of `read_line`. */
  method FindLine(buffer: Bytes, rpos: nat, wpos: nat, quota: nat) returns (line: Bytes, res: int)
    requires rpos <= wpos <= |buffer| && quota > 0
    ensures LineFound(Line(buffer[..wpos], rpos, quota), rpos, quota, line, res)
  {
    hide Line, Behind;
    var available := wpos - rpos;
    var toRead := if quota < available then quota else available;
    line := [];
    ghost var b := buffer[..wpos];
    BehindNothing(Line(b, rpos, quota));
    for i := 0 to toRead
      invariant |line| == i && Line(b, rpos, quota) == Behind(line, Line(b, rpos + i, quota - i))
    {
      var c := buffer[rpos + i];
      LineStep(b, rpos + i, quota - i);
      if c == LF {
        BehindDone(line, [LF], rpos + i + 1);
        return line + [c], i + 1;
      }
      BehindTwo(line, c, Line(b, rpos + i + 1, quota - i - 1));
      line := line + [c];
    }
    LineEnd(b, rpos + toRead, quota - toRead);
    BehindNone(line);
    return line, 0 - toRead;
  }

  /** How `read_line` reports a line, a missing rest, or a line that is too long. */
  ghost predicate LineFound(r: Parsed<Bytes>, from: nat, quota: nat, line: Bytes, res: int) {
    match r
    case Done(l, next) => res == |l| > 0 && line == l && next == from + res
    case Again => 0 - quota < res <= 0
    case Bad => res == 0 - quota
  }

  lemma BehindDone(before: Bytes, line: Bytes, next: nat)
    ensures Behind(before, Done(line, next)) == Done(before + line, next)
  {}

  lemma BehindNone(before: Bytes)
    ensures Behind(before, Again) == Again && Behind(before, Bad) == Bad
  {}

  /** Positions count from the beginning of the buffer or of the stream. */
  lemma {:induction false} LineShift(stream: Bytes, base: nat, p: nat, quota: nat)
    requires base + p <= |stream|
    ensures
      match Line(stream[base..], p, quota)
      case Done(line, next) => Line(stream, base + p, quota) == Done(line, base + next)
      case Again => Line(stream, base + p, quota) == Again
      case Bad => Line(stream, base + p, quota) == Bad
    decreases quota
  {
    hide Line;
    var b := stream[base..];
    if quota == 0 || base + p == |stream| {
      LineEnd(b, p, quota);
      LineEnd(stream, base + p, quota);
    } else {
      assert b[p] == stream[base + p];
      LineStep(b, p, quota);
      LineStep(stream, base + p, quota);
      LineShift(stream, base, p + 1, quota - 1);
    }
  }

  ghost function Behind(before: Bytes, r: Parsed<Bytes>): Parsed<Bytes> {
    match r case Done(line, next) => Done(before + line, next) case Again => Again case Bad => Bad
  }

  lemma BehindNothing(r: Parsed<Bytes>)
    ensures Behind([], r) == r
  {
    if r.Done? {
      assert [] + r.value == r.value;
    }
  }

  lemma BehindTwo(before: Bytes, c: int, r: Parsed<Bytes>)
    ensures Behind(before, Behind([c], r)) == Behind(before + [c], r)
  {
    if r.Done? {
      assert before + ([c] + r.value) == before + [c] + r.value;
    }
  }

  lemma LineStep(b: Bytes, p: nat, quota: nat)
    requires p < |b| && quota > 0
    ensures Line(b, p, quota) == if b[p] == LF then Done([LF], p + 1) else Behind([b[p]], Line(b, p + 1, quota - 1))
  {}

  lemma LineEnd(b: Bytes, p: nat, quota: nat)
    requires p <= |b| && (quota == 0 || p == |b|)
    ensures Line(b, p, quota) == if quota == 0 then Bad else Again
  {}

  // ----- Elements

  /** The body of an integer: its digits, checked against 64 bits. */
  method ReadIntBody(buf: ReadBuffer) returns (r: Element<nat>)
    requires buf.Valid()
    modifies buf`rpos
    ensures buf.Valid() && old(buf.Pos()) <= |buf.stream|
    ensures Found(r, IntBody(buf.stream, old(buf.Pos())), buf.Pos())
  {
    hide Line, Digits;
    var line, res := buf.ReadLine(MAX_DIGITS);
    if res <= 0 {
      if res == 0 - MAX_DIGITS {
        return Malformed;
      }
      return Wait;
    }
    ghost var next := buf.Pos();
    var result := 0;
    var i := 0;
    while i < res
      invariant 0 <= i <= |line| == res && result >= 0 && buf.Valid() && buf.Pos() == next
      invariant Digits(line, 0, 0) == Digits(line, i, result)
      decreases res - i
    {
      var c := line[i];
      DigitStep(line, i, result);
      if 0x30 <= c <= 0x39 {
        if result > MAX_U64 / 10 {
          return Malformed;
        }
        result := result * 10;
        if result > MAX_U64 - (c - 0x30) {
          return Malformed;
        }
        result := result + (c - 0x30);
      } else if c == LF {
        return Got(result);
      } else if c == CR {
        i := i + 1;
        if i < res && line[i] == LF {
          return Got(result);
        }
        return Malformed;
      } else {
        return Malformed;
      }
      i := i + 1;
    }
    DigitsEnd(line, result);
    return Malformed;
  }

  lemma DigitStep(line: Bytes, i: nat, result: nat)
    requires i < |line|
    ensures
      var c := line[i];
      Digits(line, i, result) ==
        if 0x30 <= c <= 0x39 then
          if result > MAX_U64 / 10 || result * 10 > MAX_U64 - (c - 0x30) then Bad
          else Digits(line, i + 1, result * 10 + (c - 0x30))
        else if c == LF then Done(result, i + 1)
        else if c == CR && i + 1 < |line| && line[i + 1] == LF then Done(result, i + 2)
        else Bad
  {}

  lemma DigitsEnd(line: Bytes, result: nat)
    ensures Digits(line, |line|, result) == Bad
  {}

  /** An integer or an array size. */
  method ReadMarked(buf: ReadBuffer, marker: char) returns (r: Element<nat>)
    requires buf.Valid()
    modifies buf`rpos
    ensures buf.Valid() && old(buf.Pos()) <= |buf.stream|
    ensures Found(r, Marked(buf.stream, old(buf.Pos()), marker), buf.Pos())
  {
    hide IntBody;
    var c := buf.Get();
    if c == None {
      return Wait;
    }
    if c.value != marker as int {
      return Malformed;
    }
    r := ReadIntBody(buf);
  }

  method ReadText(buf: ReadBuffer, size: nat) returns (r: Element<Bytes>)
    requires buf.Valid() && size > 0
    modifies buf`rpos
    ensures buf.Valid() && old(buf.Pos()) <= |buf.stream|
    ensures Found(r, ReadString(buf.stream, old(buf.Pos()), size), buf.Pos())
  {
    hide Line;
    var c := buf.Get();
    if c == None {
      return Wait;
    }
    if c.value != '+' as int {
      return Malformed;
    }
    var quota := if size < STRING_LENGTH_MAX then size else STRING_LENGTH_MAX;
    var line, res := buf.ReadLine(quota);
    if res > 0 {
      if line[res - 1] == LF {
        res := res - 1;
        if res > 0 && line[res - 1] == CR {
          res := res - 1;
        }
      }
      return Got(line[..res]);
    }
    if res == 0 - quota {
      return Malformed;
    }
    return Wait;
  }
}
