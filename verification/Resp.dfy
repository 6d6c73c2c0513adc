/** What the RESP reader makes of the bytes it has so far: an element, the request for more bytes, or an error. */
module Resp {
  import opened Bits

  type Bytes = seq<int>

  /** A parsed value and the position behind it; not enough bytes; or malformed input. */
  datatype Parsed<+T> = Done(value: T, next: nat) | Again | Bad

  datatype Kind = STRING | INTEGER | ARRAY | BULK_STR | ERROR | NONE | AGAIN

  const LF := 10
  const CR := 13
  const MAX_DIGITS := 22
  const STRING_LENGTH_MAX := 1024
  const MAX_U64 := 0xFFFF_FFFF_FFFF_FFFF

  /** `next_type`: what the next byte announces. */
  function NextType(b: Bytes, p: nat): Kind
    requires p <= |b|
  {
    if p == |b| then AGAIN
    else if b[p] == '+' as int then STRING
    else if b[p] == ':' as int then INTEGER
    else if b[p] == '$' as int then BULK_STR
    else if b[p] == '*' as int then ARRAY
    else if b[p] == '-' as int then ERROR
    else NONE
  }

  /** A line of at most `quota` bytes, with its line feed. */
  function Line(b: Bytes, p: nat, quota: nat): (r: Parsed<Bytes>)
    requires p <= |b|
    ensures r.Done? ==> p < r.next <= |b| && |r.value| == r.next - p <= quota && r.value == b[p..r.next]
    ensures r.Done? ==> r.value[|r.value| - 1] == LF
    decreases quota
  {
    if quota == 0 then Bad
    else if p == |b| then Again
    else if b[p] == LF then Done([LF], p + 1)
    else
      match Line(b, p + 1, quota - 1)
      case Done(rest, next) => Done([b[p]] + rest, next)
      case Again => Again
      case Bad => Bad
  }

  /** The digits of a line up to its end; `None` for a stray byte or more than 64 bits. */
  function Digits(line: Bytes, i: nat, result: nat): (r: Parsed<nat>)
    requires i <= |line|
    ensures !r.Again?
    decreases |line| - i
  {
    if i == |line| then Bad
    else
      var c := line[i];
      if 0x30 <= c <= 0x39 then
        if result > MAX_U64 / 10 || result * 10 > MAX_U64 - (c - 0x30) then Bad
        else Digits(line, i + 1, result * 10 + (c - 0x30))
      else if c == LF then Done(result, i + 1)
      else if c == CR && i + 1 < |line| && line[i + 1] == LF then Done(result, i + 2)
      else Bad
  }

  function IntBody(b: Bytes, p: nat): (r: Parsed<nat>)
    requires p <= |b|
    ensures r.Done? ==> p < r.next <= |b|
  {
    match Line(b, p, MAX_DIGITS)
    case Done(line, next) =>
      (match Digits(line, 0, 0)
       case Done(n, _) => Done(n, next)
       case _ => Bad)
    case Again => Again
    case Bad => Bad
  }

  /** An integer or array size: the marker byte, then the digits. */
  function Marked(b: Bytes, p: nat, marker: char): (r: Parsed<nat>)
    requires p <= |b|
    ensures r.Done? ==> p < r.next <= |b|
  {
    if p == |b| then Again else if b[p] != marker as int then Bad else IntBody(b, p + 1)
  }

  /** A line without its end. */
  function Stripped(line: Bytes): Bytes {
    if line != [] && line[|line| - 1] == LF then
      if |line| > 1 && line[|line| - 2] == CR then line[..|line| - 2] else line[..|line| - 1]
    else line
  }

  function ReadString(b: Bytes, p: nat, size: nat): (r: Parsed<Bytes>)
    requires p <= |b|
    ensures r.Done? ==> p < r.next <= |b|
  {
    if p == |b| then Again
    else if b[p] != '+' as int then Bad
    else
      match Line(b, p + 1, if size < STRING_LENGTH_MAX then size else STRING_LENGTH_MAX)
      case Done(line, next) => Done(Stripped(line), next)
      case Again => Again
      case Bad => Bad
  }

  // ----- Messages

  /** One value of a row: a number, the number behind a text, an event, or the event text left in place by an earlier
      message (an integer sent to an event series). */
  datatype Cell = Whole(n: nat) | Float(x: int) | Event(text: Bytes) | Stale

  datatype Sample = Sample(id: nat, timestamp: nat, cell: Cell)

  /** The parts of the server the parser asks: names to ids, timestamps, floating point texts. */
  datatype Server = Server(lookup: Bytes -> seq<nat>, time: Bytes -> Option<nat>, number: Bytes -> Option<int>)

  type Dict = map<nat, seq<nat>>

  const MAX_ROW := 0x100

  /** At most so many ids of a row. */
  function Row(ids: seq<nat>): seq<nat> {
    if |ids| <= MAX_ROW then ids else ids[..MAX_ROW]
  }

  predicate IsSeries(id: nat) { 0 < id < 0x8000_0000_0000_0000 }

  /** `parse_ids`: a compound name, or a number from the dictionary. */
  function ParseIds(s: Server, b: Bytes, p: nat, dict: Dict): (r: Parsed<seq<nat>>)
    requires p <= |b|
    ensures r.Done? ==> p < r.next <= |b| && r.value != []
  {
    match NextType(b, p)
    case AGAIN => Again
    case STRING =>
      (match ReadString(b, p, STRING_LENGTH_MAX)
       case Done(name, next) => if s.lookup(name) == [] then Bad else Done(Row(s.lookup(name)), next)
       case Again => Again
       case Bad => Bad)
    case INTEGER =>
      (match Marked(b, p, ':')
       case Done(uid, next) => if uid !in dict || dict[uid] == [] then Bad else Done(Row(dict[uid]), next)
       case Again => Again
       case Bad => Bad)
    case _ => Bad
  }

  function ParseTimestamp(s: Server, b: Bytes, p: nat): (r: Parsed<nat>)
    requires p <= |b|
    ensures r.Done? ==> p < r.next <= |b|
  {
    match NextType(b, p)
    case AGAIN => Again
    case INTEGER => Marked(b, p, ':')
    case STRING =>
      (match ReadString(b, p, 28)
       case Done(text, next) => (match s.time(text) case Some(t) => Done(t, next) case None => Bad)
       case Again => Again
       case Bad => Bad)
    case _ => Bad
  }

  /** A text value: a floating point number for a series, the text itself for an event. */
  function TextCell(s: Server, b: Bytes, p: nat, id: nat): (r: Parsed<Cell>)
    requires p <= |b|
    ensures r.Done? ==> p < r.next <= |b|
  {
    if IsSeries(id) then
      match ReadString(b, p, 64)
      case Done(text, next) => (match s.number(text) case Some(x) => Done(Float(x), next) case None => Bad)
      case Again => Again
      case Bad => Bad
    else
      match ReadString(b, p, STRING_LENGTH_MAX)
      case Done(text, next) => Done(Event(text), next)
      case Again => Again
      case Bad => Bad
  }

  function IntCell(b: Bytes, p: nat, id: nat): (r: Parsed<Cell>)
    requires p <= |b|
    ensures r.Done? ==> p < r.next <= |b|
  {
    match Marked(b, p, ':')
    case Done(n, next) => Done(if IsSeries(id) then Whole(n) else Stale, next)
    case Again => Again
    case Bad => Bad
  }

  /** One element of an array of values. */
  function RowCell(s: Server, b: Bytes, p: nat, id: nat): (r: Parsed<Cell>)
    requires p <= |b|
    ensures r.Done? ==> p < r.next <= |b|
  {
    match NextType(b, p)
    case AGAIN => Again
    case STRING => TextCell(s, b, p, id)
    case INTEGER => if IsSeries(id) then IntCell(b, p, id) else Bad
    case _ => Bad
  }

  function RowCells(s: Server, b: Bytes, p: nat, ids: seq<nat>): (r: Parsed<seq<Cell>>)
    requires p <= |b|
    ensures r.Done? ==> p <= r.next <= |b| && |r.value| == |ids|
    decreases |ids|
  {
    if ids == [] then Done([], p)
    else
      match RowCell(s, b, p, ids[0])
      case Done(cell, next) =>
        (match RowCells(s, b, next, ids[1..])
         case Done(rest, last) => Done([cell] + rest, last)
         case Again => Again
         case Bad => Bad)
      case Again => Again
      case Bad => Bad
  }

  /** `parse_values`: one value, or an array with a value for every id; the array size is cut to 32 bits. */
  function ParseValues(s: Server, b: Bytes, p: nat, ids: seq<nat>): (r: Parsed<seq<Cell>>)
    requires p <= |b|
    ensures r.Done? ==> p < r.next <= |b| && |r.value| == |ids|
  {
    match NextType(b, p)
    case AGAIN => Again
    case INTEGER =>
      if |ids| != 1 then Bad
      else (match IntCell(b, p, ids[0]) case Done(c, next) => Done([c], next) case Again => Again case Bad => Bad)
    case STRING =>
      if |ids| != 1 then Bad
      else (match TextCell(s, b, p, ids[0]) case Done(c, next) => Done([c], next) case Again => Again case Bad => Bad)
    case ARRAY =>
      (match Marked(b, p, '*')
       case Done(size, next) => if size % 0x1_0000_0000 != |ids| then Bad else RowCells(s, b, next, ids)
       case Again => Again
       case Bad => Bad)
    case _ => Bad
  }

  function Samples(ids: seq<nat>, timestamp: nat, cells: seq<Cell>): seq<Sample>
    requires |ids| == |cells|
  {
    seq(|ids|, i requires 0 <= i < |ids| => Sample(ids[i], timestamp, cells[i]))
  }

  /** One message: ids, timestamp, values. */
  function Pdu(s: Server, b: Bytes, p: nat, dict: Dict): (r: Parsed<seq<Sample>>)
    requires p <= |b|
    ensures r.Done? ==> p < r.next <= |b|
  {
    match ParseIds(s, b, p, dict)
    case Done(ids, q) =>
      (match ParseTimestamp(s, b, q)
       case Done(t, u) =>
         (match ParseValues(s, b, u, ids)
          case Done(cells, next) => Done(Samples(ids, t, cells), next)
          case Again => Again
          case Bad => Bad)
       case Again => Again
       case Bad => Bad)
    case Again => Again
    case Bad => Bad
  }

  // ----- Dictionaries

  /** The first definition of a number stands. */
  function Define(dict: Dict, uid: nat, row: seq<nat>): Dict {
    if uid in dict then dict else dict[uid := row]
  }

  /** One entry of a dictionary: a name and its number. */
  function Definition(s: Server, b: Bytes, p: nat): (r: Parsed<(nat, seq<nat>)>)
    requires p <= |b|
    ensures r.Done? ==> p < r.next <= |b|
  {
    match NextType(b, p)
    case AGAIN => Again
    case STRING =>
      (match ReadString(b, p, STRING_LENGTH_MAX)
       case Done(name, q) =>
         if s.lookup(name) == [] then Bad
         else if NextType(b, q) == AGAIN then Again
         else if NextType(b, q) != INTEGER then Bad
         else
           (match Marked(b, q, ':')
            case Done(uid, next) => Done((uid, Row(s.lookup(name))), next)
            case Again => Again
            case Bad => Bad)
       case Again => Again
       case Bad => Bad)
    case _ => Bad
  }

  /** `n` more elements of a dictionary; what was read so far is defined even when the rest is missing. */
  function Definitions(s: Server, b: Bytes, p: nat, n: nat, dict: Dict): (r: (Dict, Parsed<()>))
    requires p <= |b|
    ensures r.1.Done? ==> p <= r.1.next <= |b|
    decreases n
  {
    if n == 0 then (dict, Done((), p))
    else
      match Definition(s, b, p)
      case Done(d, next) => Definitions(s, b, next, if n < 2 then 0 else n - 2, Define(dict, d.0, d.1))
      case Again => (dict, Again)
      case Bad => (dict, Bad)
  }

  /** An array at the beginning of the stream. */
  function Dictionary(s: Server, b: Bytes, p: nat, dict: Dict): (r: (Dict, Parsed<()>))
    requires p <= |b|
    ensures r.1.Done? ==> p < r.1.next <= |b|
  {
    match Marked(b, p, '*')
    case Done(n, next) => if n % 2 != 0 then (dict, Bad) else Definitions(s, b, next, n, dict)
    case Again => (dict, Again)
    case Bad => (dict, Bad)
  }
}
