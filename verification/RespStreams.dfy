/** Whole streams: dictionaries, then messages, and what is written for them. */
module RespStreams {
  import opened Bits
  import opened Resp
  import opened RespChunks
  import opened RespGrammar
  import RespParser

  // ----- Writing messages

  function Numeral(n: nat): (x: Bytes)
    ensures x != []
  {
    if n < 10 then ['0' as int + n] else Numeral(n / 10) + ['0' as int + n % 10]
  }

  function NumberBytes(marker: char, n: nat): Bytes {
    [marker as int] + Numeral(n) + [CR, LF]
  }

  function TextBytes(text: Bytes): Bytes {
    ['+' as int] + text + [CR, LF]
  }

  lemma {:induction false} DecimalSnoc(x: Bytes, c: int)
    requires AllDigits(x) && 0x30 <= c <= 0x39
    ensures AllDigits(x + [c]) && Decimal(x + [c]) == 10 * Decimal(x) + (c - 0x30)
    decreases |x|
  {
    var y := x + [c];
    if x == [] {
      assert y[1..] == [];
      assert Power(0) == 1;
    } else {
      assert y[1..] == x[1..] + [c] && y[0] == x[0];
      DecimalSnoc(x[1..], c);
      PowerStep(|x| - 1);
      TenTimes(x[0] - 0x30, Power(|x| - 1));
    }
  }

  lemma TenTimes(c: nat, p: nat)
    ensures c * (10 * p) == 10 * (c * p)
  {}

  lemma {:induction false} NumeralBack(n: nat)
    ensures AllDigits(Numeral(n)) && Decimal(Numeral(n)) == n
  {
    hide Decimal;
    if n < 10 {
      var c := '0' as int + n;
      DecimalSnoc([], c);
      assert [] + [c] == [c];
      NoDigits();
    } else {
      NumeralBack(n / 10);
      DecimalSnoc(Numeral(n / 10), '0' as int + n % 10);
    }
  }

  lemma NoDigits()
    ensures Decimal([]) == 0
  {}

  lemma {:induction false} NumeralLength(n: nat, k: nat)
    requires n < Power(k) && k > 0
    ensures |Numeral(n)| <= k
    decreases k
  {
    if n >= 10 && k > 1 {
      NumeralLength(n / 10, k - 1);
    }
  }

  lemma TwentyDigits(n: nat)
    requires n <= 0xFFFF_FFFF_FFFF_FFFF
    ensures |Numeral(n)| <= 20
  {
    assert Power(4) == 10000 by {
      assert Power(2) == 100;
    }
    assert Power(8) == 1_0000_0000 by {
      assert Power(6) == 100_0000;
    }
    assert Power(12) == 1_0000_0000_0000 by {
      assert Power(10) == 100_0000_0000;
    }
    assert Power(16) == 1_0000_0000_0000_0000 by {
      assert Power(14) == 100_0000_0000_0000;
    }
    assert Power(20) == 1_0000_0000_0000_0000_0000 by {
      assert Power(18) == 100_0000_0000_0000_0000;
    }
    NumeralLength(n, 20);
  }

  lemma NumberWritten(marker: char, n: nat)
    requires n <= 0xFFFF_FFFF_FFFF_FFFF
    ensures IsNumber(NumberBytes(marker, n), marker, n)
  {
    var (x, text) := (NumberBytes(marker, n), Numeral(n));
    NumeralBack(n);
    TwentyDigits(n);
    assert x[1..] == text + [CR, LF];
    assert IsNumeral(x[1..], text, n);
  }

  lemma TextWritten(text: Bytes, size: nat)
    requires LF !in text && |text| + 2 <= size <= 1024
    ensures IsText(TextBytes(text), text, size)
  {
    assert TextBytes(text)[1..] == text + [CR, LF];
  }

  /** Values that can be sent to a series or an event. */
  predicate Sendable(id: nat, cell: Cell) {
    if 0 < id < 0x8000_0000_0000_0000 then cell.Whole? && cell.n <= 0xFFFF_FFFF_FFFF_FFFF
    else cell.Event? && LF !in cell.text && |cell.text| <= 1022
  }

  function CellBytes(cell: Cell): Bytes {
    match cell
    case Whole(n) => NumberBytes(':', n)
    case Event(text) => TextBytes(text)
    case _ => []
  }

  function CellsBytes(cells: seq<Cell>): Bytes {
    if cells == [] then [] else CellBytes(cells[0]) + CellsBytes(cells[1..])
  }

  /** A message with an array of values. */
  function MessageBytes(name: Bytes, t: nat, cells: seq<Cell>): Bytes {
    TextBytes(name) + NumberBytes(':', t) + (NumberBytes('*', |cells|) + CellsBytes(cells))
  }

  lemma {:induction false} CellsWritten(s: Server, ids: seq<nat>, cells: seq<Cell>)
    requires |ids| == |cells| && forall i :: 0 <= i < |ids| ==> Sendable(ids[i], cells[i])
    ensures IsCells(s, CellsBytes(cells), ids, cells)
    decreases |ids|
  {
    hide NumberBytes, TextBytes, IsNumber, IsText;
    if ids != [] {
      var (x, rest) := (CellBytes(cells[0]), CellsBytes(cells[1..]));
      assert Sendable(ids[0], cells[0]);
      CellsWritten(s, ids[1..], cells[1..]);
      if cells[0].Whole? {
        NumberWritten(':', cells[0].n);
        NumberNotEmpty(x, ':', cells[0].n);
      } else {
        TextWritten(cells[0].text, 1024);
        TextMarker(x, cells[0].text, 1024);
      }
      var (all, k) := (x + rest, |x|);
      assert all[..k] == x && all[k..] == rest;
      assert 0 < k <= |all| && IsValue(s, all[..k], ids[0], cells[0]);
    }
  }

  ghost predicate SamplesOf(samples: seq<Sample>, ids: seq<nat>, t: nat, cells: seq<Cell>) {
    && |samples| == |ids| == |cells|
    && forall i :: 0 <= i < |samples| ==> samples[i] == Sample(ids[i], t, cells[i])
  }

  lemma MessageWritten(s: Server, dict: Dict, name: Bytes, t: nat, cells: seq<Cell>, samples: seq<Sample>)
    requires LF !in name && |name| <= 1022 && t <= 0xFFFF_FFFF_FFFF_FFFF
    requires 0 < |cells| <= 256 && SamplesOf(samples, s.lookup(name), t, cells)
    requires forall i :: 0 <= i < |cells| ==> Sendable(s.lookup(name)[i], cells[i])
    ensures IsMessage(s, dict, MessageBytes(name, t, cells), samples)
  {
    hide NumberBytes, TextBytes, IsNumber, IsText, IsCells, CellsBytes, Sendable;
    var ids := s.lookup(name);
    var (x, y, z) := (TextBytes(name), NumberBytes(':', t), NumberBytes('*', |cells|));
    var w := CellsBytes(cells);
    TextWritten(name, 1024);
    NumberWritten(':', t);
    NumberWritten('*', |cells|);
    CellsWritten(s, ids, cells);
    var row := z + w;
    assert row[..|z|] == z && row[|z|..] == w;
    assert IsRow(s, row, |z|, |cells|, ids, cells);
    assert Limited(ids, ids);
    var all := x + y + row;
    assert all[..|x|] == x && all[|x|..|x| + |y|] == y && all[|x| + |y|..] == row;
    assert MadeOf(s, dict, all, samples, Parts(|x|, |x| + |y|, ids, t, cells));
  }

  /** What was sent for a row of up to 256 series and events is written to them: every value to its id, in order, under
      the timestamp sent. */
  lemma MessageRoundTrip(s: Server, dict: Dict, name: Bytes, t: nat, cells: seq<Cell>, samples: seq<Sample>,
                         before: Bytes, more: Bytes)
    requires LF !in name && |name| <= 1022 && t <= 0xFFFF_FFFF_FFFF_FFFF
    requires 0 < |cells| <= 256 && SamplesOf(samples, s.lookup(name), t, cells)
    requires forall i :: 0 <= i < |cells| ==> Sendable(s.lookup(name)[i], cells[i])
    ensures var x := MessageBytes(name, t, cells);
            Pdu(s, before + x + more, |before|, dict) == Done(samples, |before + x|)
  {
    hide MessageBytes, IsMessage, Pdu, Sendable;
    var x := MessageBytes(name, t, cells);
    var b := before + x + more;
    MessageWritten(s, dict, name, t, cells, samples);
    assert b[|before|..|before + x|] == x;
    MessageNotEmpty(name, t, cells);
    PduExact(s, b, |before|, dict, samples, |before + x|);
  }

  lemma MessageNotEmpty(name: Bytes, t: nat, cells: seq<Cell>)
    ensures MessageBytes(name, t, cells) != []
  {}

  // ----- Writing dictionaries

  function EntryBytes(name: Bytes, uid: nat): Bytes {
    TextBytes(name) + NumberBytes(':', uid)
  }

  function EntriesBytes(names: seq<(Bytes, nat)>): Bytes {
    if names == [] then [] else EntryBytes(names[0].0, names[0].1) + EntriesBytes(names[1..])
  }

  function DictionaryBytes(names: seq<(Bytes, nat)>): Bytes {
    NumberBytes('*', 2 * |names|) + EntriesBytes(names)
  }

  /** Names of up to 256 known series, and numbers for them. */
  predicate Definable(s: Server, name: (Bytes, nat)) {
    LF !in name.0 && |name.0| <= 1022 && name.1 <= 0xFFFF_FFFF_FFFF_FFFF && 0 < |s.lookup(name.0)| <= 256
  }

  function EntriesOf(s: Server, names: seq<(Bytes, nat)>): (es: seq<Entry>)
    ensures |es| == |names|
  {
    seq(|names|, i requires 0 <= i < |names| => (names[i].1, s.lookup(names[i].0)))
  }

  lemma EntryWritten(s: Server, name: (Bytes, nat))
    requires Definable(s, name)
    ensures IsDefinition(s, EntryBytes(name.0, name.1), (name.1, s.lookup(name.0)))
    ensures EntryBytes(name.0, name.1) != []
  {
    hide NumberBytes, TextBytes, IsNumber, IsText;
    var (x, y) := (TextBytes(name.0), NumberBytes(':', name.1));
    TextWritten(name.0, 1024);
    TextMarker(x, name.0, 1024);
    NumberWritten(':', name.1);
    assert (x + y)[..|x|] == x && (x + y)[|x|..] == y;
    assert IsEntry(s, x + y, (name.1, s.lookup(name.0)), |x|, name.0);
  }

  lemma {:induction false} EntriesWritten(s: Server, names: seq<(Bytes, nat)>)
    requires forall i :: 0 <= i < |names| ==> Definable(s, names[i])
    ensures AreDefinitions(s, EntriesBytes(names), EntriesOf(s, names))
    decreases |names|
  {
    hide EntryBytes, IsDefinition, Definable;
    if names != [] {
      var (x, rest) := (EntryBytes(names[0].0, names[0].1), EntriesBytes(names[1..]));
      var es := EntriesOf(s, names);
      EntryWritten(s, names[0]);
      EntriesWritten(s, names[1..]);
      assert es[1..] == EntriesOf(s, names[1..]);
      assert (x + rest)[..|x|] == x && (x + rest)[|x|..] == rest;
      DefinitionsCons(s, x + rest, es, |x|);
    }
  }

  /** A dictionary that is sent defines its numbers: each stands for the series of its name, unless it was defined
      before. */
  lemma DictionaryRoundTrip(s: Server, dict: Dict, names: seq<(Bytes, nat)>, before: Bytes, more: Bytes)
    requires |names| <= 0x7FFF_FFFF_FFFF_FFFF && forall i :: 0 <= i < |names| ==> Definable(s, names[i])
    ensures
      var x := DictionaryBytes(names);
      var (d, r) := Dictionary(s, before + x + more, |before|, dict);
      r == Done((), |before + x|) && Defines(dict, EntriesOf(s, names), d)
  {
    hide EntriesBytes, AreDefinitions, IsNumber, Defines, Definable, Dictionary, NumberBytes;
    var (x, y) := (NumberBytes('*', 2 * |names|), EntriesBytes(names));
    var (b, es) := (before + DictionaryBytes(names) + more, EntriesOf(s, names));
    NumberWritten('*', 2 * |names|);
    NumberNotEmpty(x, '*', 2 * |names|);
    EntriesWritten(s, names);
    assert (x + y)[..|x|] == x && (x + y)[|x|..] == y;
    assert IsDictionary(s, x + y, es, |x|);
    assert b[|before|..|before + (x + y)|] == x + y;
    DictionaryRead(s, b, |before|, dict, |before + (x + y)|, es, |x|);
    AllDefined(dict, es);
  }

  // ----- Streams

  ghost predicate AreMessages(s: Server, dict: Dict, x: Bytes, rows: seq<seq<Sample>>)
    decreases |rows|
  {
    if rows == [] then x == []
    else exists k :: 0 < k <= |x| && IsMessage(s, dict, x[..k], rows[0]) && AreMessages(s, dict, x[k..], rows[1..])
  }

  ghost predicate AreDictionaries(s: Server, x: Bytes, ess: seq<seq<Entry>>)
    decreases |ess|
  {
    if ess == [] then x == []
    else exists k, j :: 0 < k <= |x| && IsDictionary(s, x[..k], ess[0], j) && AreDictionaries(s, x[k..], ess[1..])
  }

  ghost function DefineEach(dict: Dict, ess: seq<seq<Entry>>): Dict
    decreases |ess|
  {
    if ess == [] then dict else DefineEach(DefineAll(dict, ess[0]), ess[1..])
  }

  ghost function Joined(rows: seq<seq<Sample>>): seq<Sample> {
    if rows == [] then [] else rows[0] + Joined(rows[1..])
  }

  /** Dictionaries up to `end`, then messages. */
  ghost predicate IsStream(s: Server, b: Bytes, end: nat, ess: seq<seq<Entry>>, rows: seq<seq<Sample>>) {
    && end <= |b| && AreDictionaries(s, b[..end], ess)
    && AreMessages(s, DefineEach(map[], ess), b[end..], rows)
  }

  lemma MessageMarker(s: Server, dict: Dict, x: Bytes, samples: seq<Sample>)
    requires IsMessage(s, dict, x, samples)
    ensures x != [] && (x[0] == '+' as int || x[0] == ':' as int)
  {
    hide IsTime, IsValues, IsLine, IsNumeral;
    var m :| MadeOf(s, dict, x, samples, m);
    assert x[..m.key] != [] && x[..m.key][0] == x[0];
  }

  lemma {:induction false} MessagesRead(s: Server, b: Bytes, c: nat, dict: Dict, rows: seq<seq<Sample>>)
    requires c <= |b| && AreMessages(s, dict, b[c..], rows)
    ensures Pdus(s, b, c, dict) == Outcome(Joined(rows), State(|b|, dict), false) && !Late(s, b, c, dict)
    decreases |rows|
  {
    hide Pdu, IsMessage;
    if rows == [] {
      NothingThere(s, b, c, dict);
    } else {
      var x := b[c..];
      var k :| 0 < k <= |x| && IsMessage(s, dict, x[..k], rows[0]) && AreMessages(s, dict, x[k..], rows[1..]);
      assert x[..k] == b[c..c + k] && x[k..] == b[c + k..];
      PduExact(s, b, c, dict, rows[0], c + k);
      MessagesRead(s, b, c + k, dict, rows[1..]);
      MessageMarker(s, dict, x[..k], rows[0]);
      assert x[..k][0] == b[c];
    }
  }

  lemma {:induction false} DictionariesRead(s: Server, b: Bytes, c: nat, dict: Dict, end: nat, ess: seq<seq<Entry>>)
    requires c <= end <= |b| && AreDictionaries(s, b[c..end], ess) && (end < |b| ==> b[end] != '*' as int)
    ensures Dicts(s, b, c, dict) == (if end == |b| then More else Stop, State(end, DefineEach(dict, ess)))
    decreases |ess|
  {
    hide Dictionary, IsDictionary, DefineAll;
    if ess != [] {
      var x := b[c..end];
      var k, j :| 0 < k <= |x| && IsDictionary(s, x[..k], ess[0], j) && AreDictionaries(s, x[k..], ess[1..]);
      assert x[..k] == b[c..c + k] && x[k..] == b[c + k..end];
      DictionaryRead(s, b, c, dict, c + k, ess[0], j);
      DictionaryMarker(s, x[..k], ess[0], j);
      assert x[..k][0] == b[c];
      DictionariesRead(s, b, c + k, DefineAll(dict, ess[0]), end, ess[1..]);
    }
  }

  lemma DictionaryMarker(s: Server, x: Bytes, es: seq<Entry>, k: nat)
    requires IsDictionary(s, x, es, k)
    ensures x != [] && x[0] == '*' as int
  {
    hide IsNumber;
    NumberNotEmpty(x[..k], '*', 2 * |es|);
    assert x[..k][0] == x[0];
  }

  /** A stream of dictionaries and then messages, read from the beginning: what the messages say is written, and
      everything is consumed. */
  lemma StreamRead(s: Server, b: Bytes, end: nat, ess: seq<seq<Entry>>, rows: seq<seq<Sample>>)
    requires IsStream(s, b, end, ess, rows)
    ensures var start := State(0, map[]);
            && Worker(s, b, start) == Outcome(Joined(rows), State(|b|, DefineEach(map[], ess)), false)
            && NoLateArray(s, b, start)
  {
    hide AreDictionaries, Pdus, Dicts, Late, DefineEach;
    var d := DefineEach(map[], ess);
    assert b[0..end] == b[..end];
    MessagesRead(s, b, end, d, rows);
    FirstNotArray(s, d, b, end, rows);
    DictionariesRead(s, b, 0, map[], end, ess);
    if end == |b| {
      assert rows == [] by {
        NoBytesNoRows(s, d, b[end..], rows);
      }
    }
  }

  lemma NoBytesNoRows(s: Server, dict: Dict, x: Bytes, rows: seq<seq<Sample>>)
    requires AreMessages(s, dict, x, rows)
    ensures x == [] <==> rows == []
  {}

  lemma FirstNotArray(s: Server, dict: Dict, b: Bytes, end: nat, rows: seq<seq<Sample>>)
    requires end <= |b| && AreMessages(s, dict, b[end..], rows)
    ensures end < |b| ==> b[end] != '*' as int
  {
    hide IsMessage;
    if rows != [] {
      var x := b[end..];
      var k :| 0 < k <= |x| && IsMessage(s, dict, x[..k], rows[0]) && AreMessages(s, dict, x[k..], rows[1..]);
      MessageMarker(s, dict, x[..k], rows[0]);
      assert x[..k][0] == b[end];
    }
  }

  lemma {:induction false} DictionariesFound(s: Server, b: Bytes, c: nat, dict: Dict) returns (ess: seq<seq<Entry>>)
    requires c <= |b| && Dicts(s, b, c, dict).0 != Fail
    requires Dicts(s, b, c, dict).0 == More ==> Dicts(s, b, c, dict).1.cons == |b|
    ensures var end := Dicts(s, b, c, dict).1;
            AreDictionaries(s, b[c..end.cons], ess) && end.dict == DefineEach(dict, ess)
    decreases |b| - c
  {
    hide Dictionary, IsDictionary, DefineAll, AreDictionaries;
    ess := [];
    NoDictionaries(s);
    if c < |b| && NextType(b, c) == ARRAY {
      var (d, r) := Dictionary(s, b, c, dict);
      DictionaryFound(s, b, c, dict);
      var es, k :| IsDictionary(s, b[c..r.next], es, k) && d == DefineAll(dict, es);
      var rest := DictionariesFound(s, b, r.next, d);
      ess := [es] + rest;
      var end := Dicts(s, b, c, dict).1.cons;
      Parted(b, c, r.next, end);
      assert ess[1..] == rest;
      DictionariesCons(s, b[c..end], ess, r.next - c, k);
    } else {
      assert b[c..c] == [];
    }
  }

  lemma NoDictionaries(s: Server)
    ensures AreDictionaries(s, [], [])
  {}

  lemma DictionariesCons(s: Server, x: Bytes, ess: seq<seq<Entry>>, k: nat, j: nat)
    requires ess != [] && 0 < k <= |x| && IsDictionary(s, x[..k], ess[0], j) && AreDictionaries(s, x[k..], ess[1..])
    ensures AreDictionaries(s, x, ess)
  {}

  lemma {:induction false} MessagesFound(s: Server, b: Bytes, c: nat, dict: Dict) returns (rows: seq<seq<Sample>>)
    requires c <= |b| && !Pdus(s, b, c, dict).failed && Pdus(s, b, c, dict).state.cons == |b|
    ensures AreMessages(s, dict, b[c..], rows) && Pdus(s, b, c, dict).samples == Joined(rows)
    decreases |b| - c
  {
    hide Pdu, IsMessage;
    rows := [];
    var r := Pdu(s, b, c, dict);
    if r.Done? {
      PduExact(s, b, c, dict, r.value, r.next);
      var rest := MessagesFound(s, b, r.next, dict);
      rows := [r.value] + rest;
      var (x, k) := (b[c..], r.next - c);
      assert x[..k] == b[c..r.next] && x[k..] == b[r.next..];
      assert rows[1..] == rest;
      assert 0 < k <= |x| && IsMessage(s, dict, x[..k], rows[0]);
    }
  }

  lemma StreamFound(s: Server, b: Bytes) returns (end: nat, ess: seq<seq<Entry>>, rows: seq<seq<Sample>>)
    requires var r := Worker(s, b, State(0, map[])); !r.failed && r.state.cons == |b|
    ensures IsStream(s, b, end, ess, rows)
    ensures Worker(s, b, State(0, map[])) == Outcome(Joined(rows), State(|b|, DefineEach(map[], ess)), false)
  {
    hide Dicts, Pdus, AreDictionaries, AreMessages, DefineEach, Joined;
    var (stop, next) := Dicts(s, b, 0, map[]);
    ess := DictionariesFound(s, b, 0, map[]);
    end, rows := next.cons, [];
    assert b[0..end] == b[..end];
    if stop == Stop {
      rows := MessagesFound(s, b, end, next.dict);
    } else {
      assert b[end..] == [];
    }
    NothingLeft(s, next.dict);
  }

  lemma NothingLeft(s: Server, dict: Dict)
    ensures AreMessages(s, dict, [], []) && Joined([]) == []
  {}

  /** Main theorem on streams: one that is consumed without an error is dictionaries and then messages, and what was
      written is what these say; and every such stream is consumed without an error. */
  lemma StreamExact(s: Server, b: Bytes, samples: seq<Sample>, d: Dict)
    ensures Worker(s, b, State(0, map[])) == Outcome(samples, State(|b|, d), false) <==>
            exists end, ess, rows :: IsStream(s, b, end, ess, rows) && samples == Joined(rows) &&
                                     d == DefineEach(map[], ess)
  {
    hide Worker, IsStream, Joined, DefineEach, NoLateArray;
    if Worker(s, b, State(0, map[])) == Outcome(samples, State(|b|, d), false) {
      var end, ess, rows := StreamFound(s, b);
    }
    forall end: nat, ess, rows | IsStream(s, b, end, ess, rows)
      ensures Worker(s, b, State(0, map[])) == Outcome(Joined(rows), State(|b|, DefineEach(map[], ess)), false)
    {
      StreamRead(s, b, end, ess, rows);
    }
  }

  // ----- How long the parser waits

  lemma {:induction false} LineWaits(b: Bytes, p: nat, quota: nat)
    requires p <= |b|
    ensures Line(b, p, quota) == Again ==> |b| - p < quota
    decreases quota
  {
    if quota > 0 && p < |b| {
      LineWaits(b, p + 1, quota - 1);
    }
  }

  lemma StringWaits(b: Bytes, p: nat, size: nat)
    requires p <= |b|
    ensures ReadString(b, p, size) == Again ==> |b| - p < 1 + size && |b| - p < 1025
    ensures ReadString(b, p, size).Done? ==> ReadString(b, p, size).next <= p + 1 + size
    ensures ReadString(b, p, size).Done? ==> ReadString(b, p, size).next <= p + 1025
  {
    hide Line, Stripped;
    if p < |b| {
      LineWaits(b, p + 1, if size < STRING_LENGTH_MAX then size else STRING_LENGTH_MAX);
    }
  }

  lemma MarkedWaits(b: Bytes, p: nat, marker: char)
    requires p <= |b|
    ensures Marked(b, p, marker) == Again ==> |b| - p < 23
    ensures Marked(b, p, marker).Done? ==> Marked(b, p, marker).next <= p + 23
  {
    hide Line, Digits;
    if p < |b| {
      LineWaits(b, p + 1, MAX_DIGITS);
    }
  }

  lemma CellWaits(s: Server, b: Bytes, p: nat, id: nat)
    requires p <= |b|
    ensures RowCell(s, b, p, id) == Again ==> |b| - p < 1025
    ensures RowCell(s, b, p, id).Done? ==> RowCell(s, b, p, id).next <= p + 1025
  {
    hide ReadString, Marked;
    StringWaits(b, p, 64);
    StringWaits(b, p, 1024);
    MarkedWaits(b, p, ':');
  }

  lemma {:induction false} CellsWait(s: Server, b: Bytes, p: nat, ids: seq<nat>)
    requires p <= |b|
    ensures RowCells(s, b, p, ids) == Again ==> |b| - p < 1025 * |ids|
    decreases |ids|
  {
    hide RowCell;
    if ids != [] {
      CellWaits(s, b, p, ids[0]);
      var r := RowCell(s, b, p, ids[0]);
      if r.Done? {
        CellsWait(s, b, r.next, ids[1..]);
      }
    }
  }

  lemma ValuesWait(s: Server, b: Bytes, p: nat, ids: seq<nat>)
    requires p <= |b| && 0 < |ids| <= 256
    ensures ParseValues(s, b, p, ids) == Again ==> |b| - p < 23 + 1025 * 256
  {
    hide ReadString, Marked, RowCells;
    StringWaits(b, p, 64);
    StringWaits(b, p, 1024);
    MarkedWaits(b, p, ':');
    MarkedWaits(b, p, '*');
    var r := Marked(b, p, '*');
    if r.Done? {
      CellsWait(s, b, r.next, ids);
    }
  }

  /** The parser never waits for more than the longest message: with so many bytes received it has a message or
      throws. */
  lemma WaitsBounded(s: Server, b: Bytes, p: nat, dict: Dict)
    requires p <= |b|
    ensures Pdu(s, b, p, dict) == Again ==> |b| - p < 1025 + 29 + 23 + 1025 * 256
  {
    hide ReadString, Marked, ParseValues;
    StringWaits(b, p, 1024);
    MarkedWaits(b, p, ':');
    var ids := ParseIds(s, b, p, dict);
    if ids.Done? {
      StringWaits(b, ids.next, 28);
      MarkedWaits(b, ids.next, ':');
      var t := ParseTimestamp(s, b, ids.next);
      if t.Done? {
        ValuesWait(s, b, t.next, ids.value);
      }
    }
  }

  /** A connection over which such a stream comes, in any chunks. */
  method ServeStream(server: Server, size: nat, chunks: seq<Bytes>, ghost end: nat, ghost ess: seq<seq<Entry>>,
                     ghost rows: seq<seq<Sample>>)
    returns (samples: seq<Sample>, failed: bool)
    requires size > 0 && chunks != [] && forall i :: 0 <= i < |chunks| ==> |chunks[i]| <= size
    requires IsStream(server, RespParser.Flat(chunks), end, ess, rows)
    ensures samples == Joined(rows) && !failed
  {
    hide Worker, NoLateArray, Chunked, IsStream, Joined;
    StreamRead(server, RespParser.Flat(chunks), end, ess, rows);
    samples, failed := RespParser.Serve(server, size, chunks);
  }
}
