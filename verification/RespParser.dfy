/** The RESP protocol parser: dictionary, messages, and the loop over both (`RESPProtocolParser`). */
module RespParser {
  import opened Bits
  import opened Resp
  import opened RespBuffer
  import opened RespChunks

  /** Passes on a request for more bytes or an error. */
  function Stopped<T, U>(e: Element<T>): Element<U>
    requires !e.Got?
  {
    if e.Wait? then Wait else Malformed
  }

  class RESPProtocolParser {
    const rdbuf: ReadBuffer
    const server: Server
    var idmap: Dict

    constructor (s: Server, size: nat)
      requires size > 0
      ensures fresh(rdbuf) && rdbuf.Valid() && rdbuf.stream == [] && rdbuf.Consumed() == rdbuf.Pos() == 0
      ensures rdbuf.lent == 0
      ensures server == s && idmap == map[] && rdbuf.bufferSize == size
    {
      server, idmap := s, map[];
      rdbuf := new ReadBuffer(size);
    }

    /** Looks a name up; a row never has more than the maximum of values. */
    method ParseIds() returns (r: Element<seq<nat>>)
      requires rdbuf.Valid()
      modifies rdbuf`rpos
      ensures rdbuf.Valid() && old(rdbuf.Pos()) <= |rdbuf.stream|
      ensures Found(r, Resp.ParseIds(server, rdbuf.stream, old(rdbuf.Pos()), idmap), rdbuf.Pos())
    {
      hide ReadString, Marked, NextType;
      var kind := rdbuf.NextKind();
      if kind == AGAIN {
        return Wait;
      } else if kind == STRING {
        var name := ReadText(rdbuf, STRING_LENGTH_MAX);
        if !name.Got? {
          return Stopped(name);
        }
        var row := server.lookup(name.value);
        return if row == [] then Malformed else Got(Row(row));
      } else if kind == INTEGER {
        var uid := ReadMarked(rdbuf, ':');
        if !uid.Got? {
          return Stopped(uid);
        }
        return if uid.value !in idmap || idmap[uid.value] == [] then Malformed else Got(Row(idmap[uid.value]));
      } else {
        return Malformed;
      }
    }

    method ParseTimestamp() returns (r: Element<nat>)
      requires rdbuf.Valid()
      modifies rdbuf`rpos
      ensures rdbuf.Valid() && old(rdbuf.Pos()) <= |rdbuf.stream|
      ensures Found(r, Resp.ParseTimestamp(server, rdbuf.stream, old(rdbuf.Pos())), rdbuf.Pos())
    {
      hide ReadString, Marked, NextType;
      var kind := rdbuf.NextKind();
      if kind == AGAIN {
        return Wait;
      } else if kind == INTEGER {
        r := ReadMarked(rdbuf, ':');
      } else if kind == STRING {
        var text := ReadText(rdbuf, 28);
        if !text.Got? {
          return Stopped(text);
        }
        var time := server.time(text.value);
        return if time == None then Malformed else Got(time.value);
      } else {
        return Malformed;
      }
    }

    method ParseText(id: nat) returns (r: Element<Cell>)
      requires rdbuf.Valid()
      modifies rdbuf`rpos
      ensures rdbuf.Valid() && old(rdbuf.Pos()) <= |rdbuf.stream|
      ensures Found(r, TextCell(server, rdbuf.stream, old(rdbuf.Pos()), id), rdbuf.Pos())
    {
      hide ReadString;
      var text := ReadText(rdbuf, if IsSeries(id) then 64 else STRING_LENGTH_MAX);
      if !text.Got? {
        return Stopped(text);
      }
      if !IsSeries(id) {
        return Got(Event(text.value));
      }
      var x := server.number(text.value);
      return if x == None then Malformed else Got(Float(x.value));
    }

    method ParseInt(id: nat) returns (r: Element<Cell>)
      requires rdbuf.Valid()
      modifies rdbuf`rpos
      ensures rdbuf.Valid() && old(rdbuf.Pos()) <= |rdbuf.stream|
      ensures Found(r, IntCell(rdbuf.stream, old(rdbuf.Pos()), id), rdbuf.Pos())
    {
      hide Marked;
      var n := ReadMarked(rdbuf, ':');
      if !n.Got? {
        return Stopped(n);
      }
      return Got(if IsSeries(id) then Whole(n.value) else Stale);
    }

    method ParseCell(id: nat) returns (r: Element<Cell>)
      requires rdbuf.Valid()
      modifies rdbuf`rpos
      ensures rdbuf.Valid() && old(rdbuf.Pos()) <= |rdbuf.stream|
      ensures Found(r, RowCell(server, rdbuf.stream, old(rdbuf.Pos()), id), rdbuf.Pos())
    {
      hide TextCell, IntCell, NextType;
      var kind := rdbuf.NextKind();
      if kind == AGAIN {
        return Wait;
      } else if kind == STRING {
        r := ParseText(id);
      } else if kind == INTEGER && IsSeries(id) {
        r := ParseInt(id);
      } else {
        return Malformed;
      }
    }

    /** The elements of an array of values. */
    method ParseCells(ids: seq<nat>) returns (r: Element<seq<Cell>>)
      requires rdbuf.Valid()
      modifies rdbuf`rpos
      ensures rdbuf.Valid() && old(rdbuf.Pos()) <= |rdbuf.stream|
      ensures Found(r, RowCells(server, rdbuf.stream, old(rdbuf.Pos()), ids), rdbuf.Pos())
    {
      hide RowCell, RowCells;
      var cells := [];
      ghost var spec := RowCells(server, rdbuf.stream, rdbuf.Pos(), ids);
      assert ids[0..] == ids;
      CellsNothing(spec);
      for i := 0 to |ids|
        invariant rdbuf.Valid()
        invariant spec == CellsBehind(cells, RowCells(server, rdbuf.stream, rdbuf.Pos(), ids[i..]))
      {
        CellsStep(server, rdbuf.stream, rdbuf.Pos(), ids, i);
        var c := ParseCell(ids[i]);
        if !c.Got? {
          return Stopped(c);
        }
        CellsTwo(cells, c.value, RowCells(server, rdbuf.stream, rdbuf.Pos(), ids[i + 1..]));
        cells := cells + [c.value];
      }
      CellsEnd(server, rdbuf.stream, rdbuf.Pos());
      assert ids[|ids|..] == [] && cells + [] == cells;
      return Got(cells);
    }

    method ParseValues(ids: seq<nat>) returns (r: Element<seq<Cell>>)
      requires rdbuf.Valid()
      modifies rdbuf`rpos
      ensures rdbuf.Valid() && old(rdbuf.Pos()) <= |rdbuf.stream|
      ensures Found(r, Resp.ParseValues(server, rdbuf.stream, old(rdbuf.Pos()), ids), rdbuf.Pos())
    {
      hide TextCell, IntCell, NextType, Marked, RowCells;
      var kind := rdbuf.NextKind();
      if kind == AGAIN {
        return Wait;
      } else if kind == INTEGER || kind == STRING {
        if |ids| != 1 {
          return Malformed;
        }
        var c;
        if kind == INTEGER {
          c := ParseInt(ids[0]);
        } else {
          c := ParseText(ids[0]);
        }
        return if c.Got? then Got([c.value]) else Stopped(c);
      } else if kind == ARRAY {
        var size := ReadMarked(rdbuf, '*');
        if !size.Got? {
          return Stopped(size);
        }
        if size.value % 0x1_0000_0000 != |ids| {
          return Malformed;
        }
        r := ParseCells(ids);
      } else {
        return Malformed;
      }
    }

    // ----- The dictionary

    /** The first definition of a number stands. */
    method UpdateDict(uid: nat, row: seq<nat>)
      modifies this`idmap
      ensures idmap == Define(old(idmap), uid, row)
    {
      if uid in idmap {
        return;
      }
      idmap := idmap[uid := row];
    }

    /** A name and its number. */
    method ParseDefinition() returns (r: Element<(nat, seq<nat>)>)
      requires rdbuf.Valid()
      modifies rdbuf`rpos
      ensures rdbuf.Valid() && old(rdbuf.Pos()) <= |rdbuf.stream|
      ensures Found(r, Definition(server, rdbuf.stream, old(rdbuf.Pos())), rdbuf.Pos())
    {
      hide ReadString, Marked, NextType;
      var kind := rdbuf.NextKind();
      if kind == AGAIN {
        return Wait;
      } else if kind != STRING {
        return Malformed;
      }
      var name := ReadText(rdbuf, STRING_LENGTH_MAX);
      if !name.Got? {
        return Stopped(name);
      }
      var row := server.lookup(name.value);
      if row == [] {
        return Malformed;
      }
      kind := rdbuf.NextKind();
      if kind == AGAIN {
        return Wait;
      } else if kind != INTEGER {
        return Malformed;
      }
      var uid := ReadMarked(rdbuf, ':');
      return if uid.Got? then Got((uid.value, Row(row))) else Stopped(uid);
    }

    /** The elements of a dictionary array; what is read is defined at once. */
    method ParseDefinitions(n: nat) returns (r: Element<()>)
      requires rdbuf.Valid()
      modifies rdbuf`rpos, this`idmap
      ensures rdbuf.Valid() && old(rdbuf.Pos()) <= |rdbuf.stream|
      ensures
        var spec := Definitions(server, rdbuf.stream, old(rdbuf.Pos()), n, old(idmap));
        idmap == spec.0 && Found(r, spec.1, rdbuf.Pos())
    {
      hide Definition, Definitions, Define;
      ghost var spec := Definitions(server, rdbuf.stream, rdbuf.Pos(), n, idmap);
      var i := 0;
      while i < n
        invariant rdbuf.Valid()
        invariant spec == Definitions(server, rdbuf.stream, rdbuf.Pos(), if n < i then 0 else n - i, idmap)
        decreases n - i
      {
        DefinitionsStep(server, rdbuf.stream, rdbuf.Pos(), n - i, idmap);
        var d := ParseDefinition();
        if !d.Got? {
          return Stopped(d);
        }
        UpdateDict(d.value.0, d.value.1);
        i := i + 2;
      }
      DefinitionsEnd(server, rdbuf.stream, rdbuf.Pos(), idmap);
      return Got(());
    }

    method ParseDictionary() returns (r: Element<()>)
      requires rdbuf.Valid()
      modifies rdbuf`rpos, this`idmap
      ensures rdbuf.Valid() && old(rdbuf.Pos()) <= |rdbuf.stream|
      ensures
        var spec := Dictionary(server, rdbuf.stream, old(rdbuf.Pos()), old(idmap));
        idmap == spec.0 && Found(r, spec.1, rdbuf.Pos())
    {
      hide Marked, Definitions;
      var n := ReadMarked(rdbuf, '*');
      if !n.Got? {
        return Stopped(n);
      }
      if n.value % 2 != 0 {
        return Malformed;
      }
      r := ParseDefinitions(n.value);
    }

    /** Dictionaries at the beginning of a chunk. */
    method ParseDict() returns (end: DictEnd)
      requires rdbuf.Valid() && rdbuf.Pos() == rdbuf.Consumed()
      modifies rdbuf`rpos, rdbuf`cons, this`idmap
      ensures rdbuf.Valid() && old(rdbuf.Pos()) <= |rdbuf.stream|
      ensures (end, State(rdbuf.Consumed(), idmap)) == Dicts(server, rdbuf.stream, old(rdbuf.Pos()), old(idmap))
      ensures end != Fail ==> rdbuf.Pos() == rdbuf.Consumed()
    {
      hide Dictionary, Dicts, NextType;
      ghost var spec := Dicts(server, rdbuf.stream, rdbuf.Pos(), idmap);
      while true
        invariant rdbuf.Valid() && rdbuf.Pos() == rdbuf.Consumed()
        invariant spec == Dicts(server, rdbuf.stream, rdbuf.Pos(), idmap)
        decreases |rdbuf.stream| - rdbuf.Pos()
      {
        DictsStep(server, rdbuf.stream, rdbuf.Pos(), idmap);
        var kind := rdbuf.NextKind();
        if kind == AGAIN {
          rdbuf.Discard();
          return More;
        } else if kind == ARRAY {
          var d := ParseDictionary();
          if d.Wait? {
            rdbuf.Discard();
            return More;
          } else if d.Malformed? {
            return Fail;
          }
          rdbuf.Consume();
        } else {
          rdbuf.Discard();
          return Stop;
        }
      }
    }

    // ----- Messages

    method ParsePdu() returns (r: Element<seq<Sample>>)
      requires rdbuf.Valid()
      modifies rdbuf`rpos
      ensures rdbuf.Valid() && old(rdbuf.Pos()) <= |rdbuf.stream|
      ensures Found(r, Pdu(server, rdbuf.stream, old(rdbuf.Pos()), idmap), rdbuf.Pos())
    {
      hide Resp.ParseIds, Resp.ParseTimestamp, Resp.ParseValues;
      var ids := ParseIds();
      if !ids.Got? {
        return Stopped(ids);
      }
      var time := ParseTimestamp();
      if !time.Got? {
        return Stopped(time);
      }
      var cells := ParseValues(ids.value);
      if !cells.Got? {
        return Stopped(cells);
      }
      return Got(Samples(ids.value, time.value, cells.value));
    }

    /** One run over what was received; the samples it hands to the database, and whether it throws. */
    method Worker() returns (samples: seq<Sample>, failed: bool)
      requires rdbuf.Valid() && rdbuf.Pos() == rdbuf.Consumed()
      modifies rdbuf`rpos, rdbuf`cons, this`idmap
      ensures rdbuf.Valid() && old(rdbuf.Consumed()) <= |rdbuf.stream|
      ensures Outcome(samples, State(rdbuf.Consumed(), idmap), failed) ==
        RespChunks.Worker(server, rdbuf.stream, State(old(rdbuf.Consumed()), old(idmap)))
      ensures !failed ==> rdbuf.Pos() == rdbuf.Consumed()
    {
      hide Dicts, Pdu, Pdus;
      samples, failed := [], false;
      var end := ParseDict();
      if end != Stop {
        return [], end == Fail;
      }
      ghost var spec := Pdus(server, rdbuf.stream, rdbuf.Pos(), idmap);
      PdusNothing(spec);
      while true
        invariant rdbuf.Valid() && rdbuf.Pos() == rdbuf.Consumed() && !failed
        invariant spec == PdusBehind(samples, Pdus(server, rdbuf.stream, rdbuf.Pos(), idmap))
        modifies rdbuf`rpos, rdbuf`cons
        decreases |rdbuf.stream| - rdbuf.Pos()
      {
        PdusStep(server, rdbuf.stream, rdbuf.Pos(), idmap);
        var m := ParsePdu();
        if m.Wait? {
          rdbuf.Discard();
          assert samples + [] == samples;
          return;
        } else if m.Malformed? {
          assert samples + [] == samples;
          failed := true;
          return;
        }
        rdbuf.Consume();
        PdusTwo(samples, m.value, Pdus(server, rdbuf.stream, rdbuf.Pos(), idmap));
        samples := samples + m.value;
      }
    }

    /** A chunk arrives. */
    method ParseNext(chunk: Bytes) returns (samples: seq<Sample>, failed: bool)
      requires rdbuf.Valid() && rdbuf.Pos() == rdbuf.Consumed() && rdbuf.lent == 1
      requires |chunk| <= |rdbuf.buffer| - rdbuf.wpos
      modifies rdbuf, this`idmap
      ensures rdbuf.Valid() && rdbuf.stream == old(rdbuf.stream) + chunk && rdbuf.lent == 0
      ensures old(rdbuf.Consumed()) <= |rdbuf.stream|
      ensures Outcome(samples, State(rdbuf.Consumed(), idmap), failed) ==
        RespChunks.Worker(server, rdbuf.stream, State(old(rdbuf.Consumed()), old(idmap)))
      ensures !failed ==> rdbuf.Pos() == rdbuf.Consumed()
    {
      hide RespChunks.Worker;
      rdbuf.Push(chunk);
      samples, failed := Worker();
    }
  }

  /** What follows the reading of one definition. */
  ghost function AfterDefinition(s: Server, b: Bytes, n: nat, dict: Dict, r: Parsed<(nat, seq<nat>)>)
    : (Dict, Parsed<()>)
    requires n > 0 && (r.Done? ==> r.next <= |b|)
  {
    if r.Done? then Definitions(s, b, r.next, if n < 2 then 0 else n - 2, Define(dict, r.value.0, r.value.1))
    else (dict, if r.Again? then Again else Bad)
  }

  lemma DefinitionsStep(s: Server, b: Bytes, p: nat, n: nat, dict: Dict)
    requires p <= |b| && n > 0
    ensures Definitions(s, b, p, n, dict) == AfterDefinition(s, b, n, dict, Definition(s, b, p))
  {}

  lemma DefinitionsEnd(s: Server, b: Bytes, p: nat, dict: Dict)
    requires p <= |b|
    ensures Definitions(s, b, p, 0, dict) == (dict, Done((), p))
  {}

  /** What follows the reading of a dictionary array. */
  ghost function AfterDictionary(s: Server, b: Bytes, c: nat, r: (Dict, Parsed<()>)): (DictEnd, State)
    requires c <= |b| && (r.1.Done? ==> c < r.1.next <= |b|)
  {
    if r.1.Done? then Dicts(s, b, r.1.next, r.0) else (if r.1.Again? then More else Fail, State(c, r.0))
  }

  lemma DictsStep(s: Server, b: Bytes, c: nat, dict: Dict)
    requires c <= |b|
    ensures NextType(b, c) == AGAIN ==> Dicts(s, b, c, dict) == (More, State(c, dict))
    ensures NextType(b, c) == ARRAY ==> Dicts(s, b, c, dict) == AfterDictionary(s, b, c, Dictionary(s, b, c, dict))
    ensures NextType(b, c) != AGAIN && NextType(b, c) != ARRAY ==> Dicts(s, b, c, dict) == (Stop, State(c, dict))
  {}

  ghost function PdusBehind(before: seq<Sample>, r: Outcome): Outcome {
    r.(samples := before + r.samples)
  }

  lemma PdusNothing(r: Outcome)
    ensures PdusBehind([], r) == r
  {
    assert [] + r.samples == r.samples;
  }

  lemma PdusTwo(a: seq<Sample>, b: seq<Sample>, r: Outcome)
    ensures PdusBehind(a, PdusBehind(b, r)) == PdusBehind(a + b, r)
  {
    assert a + (b + r.samples) == a + b + r.samples;
  }

  /** What follows the reading of one message. */
  ghost function AfterPdu(s: Server, b: Bytes, c: nat, dict: Dict, r: Parsed<seq<Sample>>): Outcome
    requires c <= |b| && (r.Done? ==> c < r.next <= |b|)
  {
    if r.Done? then PdusBehind(r.value, Pdus(s, b, r.next, dict)) else Outcome([], State(c, dict), r.Bad?)
  }

  lemma PdusStep(s: Server, b: Bytes, c: nat, dict: Dict)
    requires c <= |b|
    ensures Pdus(s, b, c, dict) == AfterPdu(s, b, c, dict, Pdu(s, b, c, dict))
  {}

  ghost function CellsBehind(before: seq<Cell>, r: Parsed<seq<Cell>>): Parsed<seq<Cell>> {
    match r case Done(cells, next) => Done(before + cells, next) case Again => Again case Bad => Bad
  }

  lemma CellsNothing(r: Parsed<seq<Cell>>)
    ensures CellsBehind([], r) == r
  {
    if r.Done? {
      assert [] + r.value == r.value;
    }
  }

  lemma CellsTwo(before: seq<Cell>, c: Cell, r: Parsed<seq<Cell>>)
    ensures CellsBehind(before, CellsBehind([c], r)) == CellsBehind(before + [c], r)
  {
    if r.Done? {
      assert before + ([c] + r.value) == before + [c] + r.value;
    }
  }

  ghost function AfterCell(s: Server, b: Bytes, ids: seq<nat>, r: Parsed<Cell>): Parsed<seq<Cell>>
    requires r.Done? ==> r.next <= |b|
  {
    if r.Done? then CellsBehind([r.value], RowCells(s, b, r.next, ids)) else if r.Again? then Again else Bad
  }

  lemma CellsStep(s: Server, b: Bytes, p: nat, ids: seq<nat>, i: nat)
    requires p <= |b| && i < |ids|
    ensures RowCells(s, b, p, ids[i..]) == AfterCell(s, b, ids[i + 1..], RowCell(s, b, p, ids[i]))
  {
    assert ids[i..][0] == ids[i] && ids[i..][1..] == ids[i + 1..];
  }

  lemma CellsEnd(s: Server, b: Bytes, p: nat)
    requires p <= |b|
    ensures RowCells(s, b, p, []) == Done([], p)
  {}

  // ----- A whole connection

  ghost function Flat(chunks: seq<Bytes>): Bytes {
    if chunks == [] then [] else Flat(chunks[..|chunks| - 1]) + chunks[|chunks| - 1]
  }

  /** How much was received after each chunk. */
  ghost function Ends(chunks: seq<Bytes>): (r: seq<nat>)
    ensures |r| == |chunks|
  {
    seq(|chunks|, i requires 0 <= i < |chunks| => |Flat(chunks[..i + 1])|)
  }

  lemma {:induction false} FlatPrefix(chunks: seq<Bytes>, i: nat)
    requires i <= |chunks|
    ensures |Flat(chunks[..i])| <= |Flat(chunks)| && Flat(chunks)[..|Flat(chunks[..i])|] == Flat(chunks[..i])
    decreases |chunks|
  {
    if i < |chunks| {
      var n := |chunks| - 1;
      FlatPrefix(chunks[..n], i);
      assert chunks[..n][..i] == chunks[..i];
    } else {
      assert chunks[..i] == chunks;
    }
  }

  lemma EndsRise(chunks: seq<Bytes>, i: nat, j: nat)
    requires i <= j < |chunks|
    ensures Ends(chunks)[i] <= Ends(chunks)[j] <= |Flat(chunks)|
  {
    hide Flat;
    var upTo := chunks[..j + 1];
    FlatPrefix(chunks, j + 1);
    FlatPrefix(upTo, i + 1);
    assert upTo[..i + 1] == chunks[..i + 1];
  }

  lemma EndsGrow(chunks: seq<Bytes>)
    requires chunks != []
    ensures Growing(Flat(chunks), Ends(chunks)) && Ends(chunks)[|chunks| - 1] == |Flat(chunks)|
  {
    hide Flat, Ends;
    var ends := Ends(chunks);
    forall i, j | 0 <= i <= j < |ends| ensures ends[i] <= ends[j] <= |Flat(chunks)| {
      EndsRise(chunks, i, j);
    }
    LastEnd(chunks);
  }

  lemma LastEnd(chunks: seq<Bytes>)
    requires chunks != []
    ensures Ends(chunks)[|chunks| - 1] == |Flat(chunks)|
  {
    assert chunks[..|chunks|] == chunks;
  }

  lemma ChunkedStep(s: Server, b: Bytes, ends: seq<nat>, i: nat, st: State)
    requires Growing(b, ends) && i < |ends| && st.cons <= ends[i]
    ensures Growing(b, ends[i..]) && Growing(b, ends[i + 1..])
    ensures
      var r := Worker(s, b[..ends[i]], st);
      Chunked(s, b, ends[i..], st) ==
      if r.failed then r else PdusBehind(r.samples, Chunked(s, b, ends[i + 1..], r.state))
  {
    hide Worker;
    assert ends[i..][0] == ends[i] && ends[i..][1..] == ends[i + 1..];
  }

  lemma ChunkedEnd(s: Server, b: Bytes, st: State)
    ensures Chunked(s, b, [], st) == Outcome([], st, false)
  {}

  /** A connection that delivers the stream in chunks of at most the buffer size. It writes what the stream in one piece
      would have written, and throws if that would have, unless a late array can be read as a dictionary. */
  method Serve(server: Server, size: nat, chunks: seq<Bytes>) returns (samples: seq<Sample>, failed: bool)
    requires size > 0 && chunks != [] && forall i :: 0 <= i < |chunks| ==> |chunks[i]| <= size
    ensures Cutting(Flat(chunks), State(0, map[]), Ends(chunks))
    ensures var r := Chunked(server, Flat(chunks), Ends(chunks), State(0, map[]));
            samples == r.samples && failed == r.failed
    ensures var (b, start) := (Flat(chunks), State(0, map[]));
            NoLateArray(server, b, start) || LateFails(server, b, start) ==>
              samples == Worker(server, b, start).samples && failed == Worker(server, b, start).failed
  {
    hide Worker, Chunked, NoLateArray, LateFails, Flat;
    var parser := new RESPProtocolParser(server, size);
    samples, failed := [], false;
    ghost var b, ends, start := Flat(chunks), Ends(chunks), State(0, map[]);
    EndsGrow(chunks);
    if NoLateArray(server, b, start) {
      ChunksDoNotMatter(server, b, ends, start);
    } else if LateFails(server, b, start) {
      LateCuttings(server, b, ends, start);
    }
    ghost var spec := Chunked(server, b, ends, start);
    assert ends[0..] == ends && chunks[..0] == [];
    FlatNone();
    PdusNothing(spec);
    for i := 0 to |chunks|
      invariant fresh(parser) && fresh(parser.rdbuf) && parser.server == server && parser.rdbuf.bufferSize == size
      invariant parser.rdbuf.Valid() && parser.rdbuf.lent == 0 && parser.rdbuf.Pos() == parser.rdbuf.Consumed()
      invariant parser.rdbuf.stream == Flat(chunks[..i]) && parser.rdbuf.Consumed() <= |parser.rdbuf.stream|
      invariant !failed && Growing(b, ends[i..]) && (i < |chunks| ==> parser.rdbuf.Consumed() <= ends[i])
      invariant spec == PdusBehind(samples, Chunked(server, b, ends[i..], State(parser.rdbuf.Consumed(), parser.idmap)))
    {
      ghost var st := State(parser.rdbuf.Consumed(), parser.idmap);
      parser.rdbuf.Pull();
      var more;
      FlatStep(chunks, i);
      ChunkedStep(server, b, ends, i, st);
      FlatPrefix(chunks, i + 1);
      more, failed := parser.ParseNext(chunks[i]);
      if failed {
        samples := samples + more;
        return;
      }
      PdusTwo(samples, more, Chunked(server, b, ends[i + 1..], State(parser.rdbuf.Consumed(), parser.idmap)));
      samples := samples + more;
      if i + 1 < |chunks| {
        FlatStep(chunks, i + 1);
      }
    }
    assert ends[|chunks|..] == [];
    ChunkedEnd(server, b, State(parser.rdbuf.Consumed(), parser.idmap));
    assert samples + [] == samples;
  }

  lemma FlatNone()
    ensures Flat([]) == []
  {}

  lemma FlatStep(chunks: seq<Bytes>, i: nat)
    requires i < |chunks|
    ensures Flat(chunks[..i + 1]) == Flat(chunks[..i]) + chunks[i] && Ends(chunks)[i] == |Flat(chunks[..i + 1])|
  {
    assert chunks[..i + 1][..i] == chunks[..i];
  }
}
