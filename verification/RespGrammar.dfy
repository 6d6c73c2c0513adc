/** The bytes of elements, messages and dictionaries, and that the reader accepts exactly these. */
module RespGrammar {
  import opened Bits
  import opened Resp

  // ----- Lines

  /** A line with this text: a line feed ends it, alone or behind a carriage return. */
  ghost predicate IsLine(x: Bytes, text: Bytes) {
    && LF !in text
    && (x == text + [CR, LF] || (x == text + [LF] && (text == [] || text[|text| - 1] != CR)))
  }

  /** Bytes up to the first line feed. */
  ghost predicate Ends(x: Bytes) {
    x != [] && x[|x| - 1] == LF && LF !in x[..|x| - 1]
  }

  lemma {:induction false} LineExact(b: Bytes, p: nat, quota: nat, x: Bytes, next: nat)
    requires p <= |b|
    ensures Line(b, p, quota) == Done(x, next) <==>
            p <= next <= |b| && x == b[p..next] && Ends(x) && |x| <= quota
    decreases quota
  {
    hide Ends;
    if p < next <= |b| && quota > 0 {
      assert b[p..next] == [b[p]] + b[p + 1..next];
      if b[p] == LF {
        EndsAtOnce(b[p + 1..next]);
      } else {
        EndsLater(b[p], b[p + 1..next]);
        LineExact(b, p + 1, quota - 1, b[p + 1..next], next);
      }
    } else if next == p <= |b| {
      assert b[p..next] == [];
      NotNothing();
    }
  }

  lemma NotNothing()
    ensures !Ends([])
  {}

  lemma EndsAtOnce(x: Bytes)
    ensures Ends([LF] + x) <==> x == []
  {
    var y := [LF] + x;
    assert |y| > 1 ==> y[..|y| - 1][0] == LF;
  }

  lemma EndsLater(c: int, x: Bytes)
    requires c != LF
    ensures Ends([c] + x) <==> Ends(x)
  {
    var y := [c] + x;
    if x != [] {
      assert y[..|y| - 1] == [c] + x[..|x| - 1];
    }
  }

  lemma StrippedExact(x: Bytes, text: Bytes)
    requires Ends(x)
    ensures Stripped(x) == text <==> IsLine(x, text)
  {
    var n := |x|;
    if n > 1 && x[n - 2] == CR {
      assert x == x[..n - 2] + [CR, LF];
      assert LF !in x[..n - 2] by {
        assert x[..n - 2] <= x[..n - 1];
      }
    } else {
      assert x == x[..n - 1] + [LF];
    }
  }

  lemma LineEnds(x: Bytes, text: Bytes)
    requires IsLine(x, text)
    ensures Ends(x)
  {
    if x == text + [CR, LF] {
      assert x[..|x| - 1] == text + [CR];
    } else {
      assert x[..|x| - 1] == text;
    }
  }

  // ----- Texts

  /** A text element whose line has at most `size` bytes. */
  ghost predicate IsText(x: Bytes, text: Bytes, size: nat) {
    x != [] && x[0] == '+' as int && |x| - 1 <= size && |x| - 1 <= 1024 && IsLine(x[1..], text)
  }

  lemma StringExact(b: Bytes, p: nat, size: nat, text: Bytes, next: nat)
    requires p <= |b|
    ensures ReadString(b, p, size) == Done(text, next) <==> p < next <= |b| && IsText(b[p..next], text, size)
  {
    hide Line, Stripped, IsLine;
    if p < |b| && b[p] == '+' as int {
      var quota := if size < STRING_LENGTH_MAX then size else STRING_LENGTH_MAX;
      if p < next <= |b| {
        var x := b[p + 1..next];
        assert b[p..next] == [b[p]] + x;
        LineExact(b, p + 1, quota, x, next);
        if Ends(x) {
          StrippedExact(x, text);
        }
        if IsLine(x, text) {
          LineEnds(x, text);
        }
      }
    }
  }

  // ----- Numbers

  predicate AllDigits(text: Bytes) {
    forall i :: 0 <= i < |text| ==> '0' as int <= text[i] <= '9' as int
  }

  function Power(n: nat): (r: nat)
    ensures r > 0
  {
    if n == 0 then 1 else 10 * Power(n - 1)
  }

  /** The number with these decimal digits. */
  function Decimal(text: Bytes): nat
    requires AllDigits(text)
    decreases |text|
  {
    if text == [] then 0 else (text[0] - '0' as int) * Power(|text| - 1) + Decimal(text[1..])
  }

  ghost predicate IsNumeral(x: Bytes, text: Bytes, n: nat) {
    IsLine(x, text) && AllDigits(text) && n == Decimal(text) <= 0xFFFF_FFFF_FFFF_FFFF
  }

  /** A number behind its marker, in decimal digits. */
  ghost predicate IsNumber(x: Bytes, marker: char, n: nat) {
    x != [] && x[0] == marker as int && |x| <= 23 && exists text :: IsNumeral(x[1..], text, n)
  }

  /** What the digits add up to, with `result` read before them. */
  function Total(result: nat, text: Bytes): nat
    requires AllDigits(text)
  {
    result * Power(|text|) + Decimal(text)
  }

  lemma TotalStep(result: nat, text: Bytes)
    requires AllDigits(text) && text != []
    ensures Total(result, text) == Total(result * 10 + (text[0] - 0x30), text[1..])
    ensures Total(result, text) >= result * 10 + (text[0] - 0x30)
  {
    hide Power;
    var (c, p) := (text[0] - 0x30, Power(|text| - 1));
    PowerStep(|text| - 1);
    Regroup(result, c, p);
    AtLeast(result * 10 + c, p);
  }

  lemma PowerStep(n: nat)
    ensures Power(n + 1) == 10 * Power(n)
  {}

  lemma Regroup(r: nat, c: nat, p: nat)
    ensures r * (10 * p) + c * p == (r * 10 + c) * p
  {}

  lemma AtLeast(x: nat, p: nat)
    requires p > 0
    ensures x * p >= x
  {}

  lemma Overflows(result: nat, c: nat)
    requires c <= 9
    ensures (result > MAX_U64 / 10 || result * 10 > MAX_U64 - c) <==> result * 10 + c > MAX_U64
  {}

  /** The digits of a line from `i` on. */
  lemma {:induction false} DigitsExact(line: Bytes, text: Bytes, i: nat, result: nat)
    requires IsLine(line, text) && i <= |text| && result <= MAX_U64
    ensures
      var r := Digits(line, i, result);
      if AllDigits(text[i..]) && Total(result, text[i..]) <= MAX_U64
      then r == Done(Total(result, text[i..]), |line|) else r == Bad
    decreases |text| - i
  {
    hide Total;
    var rest := text[i..];
    if i == |text| {
      TotalNone(result);
    } else {
      var c := text[i] - 0x30;
      assert line[i] == text[i] == rest[0] != LF && rest[1..] == text[i + 1..];
      if 0 <= c <= 9 {
        Overflows(result, c);
        if AllDigits(text[i + 1..]) {
          assert rest == [rest[0]] + text[i + 1..];
          TotalStep(result, rest);
        }
        if result * 10 + c <= MAX_U64 {
          DigitsExact(line, text, i + 1, result * 10 + c);
        }
      } else if text[i] == CR {
        NotTheEnd(line, text, i);
      }
    }
  }

  lemma TotalNone(result: nat)
    ensures Total(result, []) == result
  {}

  lemma NotTheEnd(line: Bytes, text: Bytes, i: nat)
    requires IsLine(line, text) && i < |text| && text[i] == CR
    ensures !(i + 1 < |line| && line[i + 1] == LF)
  {
    if i + 1 < |text| {
      assert line[i + 1] == text[i + 1];
    }
  }

  lemma TextUnique(x: Bytes, text: Bytes, other: Bytes)
    requires IsLine(x, text) && IsLine(x, other)
    ensures text == other
  {
    LineEnds(x, text);
    StrippedExact(x, text);
    StrippedExact(x, other);
  }

  lemma NumeralExact(x: Bytes, n: nat)
    requires Ends(x)
    ensures (exists end :: Digits(x, 0, 0) == Done(n, end)) <==> exists text :: IsNumeral(x, text, n)
    ensures Digits(x, 0, 0).Done? ==> Digits(x, 0, 0).next == |x|
  {
    hide Digits, IsLine, Stripped, Ends;
    var text := Stripped(x);
    StrippedExact(x, text);
    DigitsExact(x, text, 0, 0);
    assert text[0..] == text;
    if AllDigits(text) {
      assert Total(0, text) == Decimal(text);
    }
    forall other | IsNumeral(x, other, n) ensures other == text {
      TextUnique(x, text, other);
    }
    if Digits(x, 0, 0) == Done(n, |x|) {
      assert IsNumeral(x, text, n);
    }
  }

  lemma NumberExact(b: Bytes, p: nat, marker: char, n: nat, next: nat)
    requires p <= |b|
    ensures Marked(b, p, marker) == Done(n, next) <==> p < next <= |b| && IsNumber(b[p..next], marker, n)
  {
    hide Line, Digits, IsNumeral;
    if p < |b| && b[p] == marker as int {
      if p < next <= |b| {
        var x := b[p + 1..next];
        assert b[p..next] == [b[p]] + x && b[p..next][1..] == x;
        LineExact(b, p + 1, MAX_DIGITS, x, next);
        if Ends(x) {
          NumeralExact(x, n);
        } else {
          forall text | IsNumeral(x, text, n) ensures false {
            NumeralEnds(x, text, n);
          }
        }
      }
    }
  }

  lemma NumeralEnds(x: Bytes, text: Bytes, n: nat)
    requires IsNumeral(x, text, n)
    ensures Ends(x)
  {
    LineEnds(x, text);
  }

  // ----- Messages

  /** The first 256 of some ids, or all of them if there are fewer. */
  ghost predicate Limited(ids: seq<nat>, all: seq<nat>) {
    ids != [] && ids <= all && |ids| == if |all| < 256 then |all| else 256
  }

  /** The element that names a row: a series name, or a number from the dictionary. */
  ghost predicate IsKey(s: Server, dict: Dict, x: Bytes, ids: seq<nat>) {
    || (exists name :: IsText(x, name, 1024) && Limited(ids, s.lookup(name)))
    || (exists uid :: IsNumber(x, ':', uid) && uid in dict && Limited(ids, dict[uid]))
  }

  ghost predicate IsTime(s: Server, x: Bytes, t: nat) {
    IsNumber(x, ':', t) || exists text :: IsText(x, text, 28) && s.time(text) == Some(t)
  }

  /** A value of a row: a number or a text with a number for a series, any text for an event. */
  ghost predicate IsValue(s: Server, x: Bytes, id: nat, cell: Cell) {
    if 0 < id < 0x8000_0000_0000_0000 then
      || (cell.Whole? && IsNumber(x, ':', cell.n))
      || (cell.Float? && exists text :: IsText(x, text, 64) && s.number(text) == Some(cell.x))
    else cell.Event? && IsText(x, cell.text, 1024)
  }

  /** A value that is not in an array; an event series takes a number too, and nothing comes of it. */
  ghost predicate IsSingle(s: Server, x: Bytes, id: nat, cell: Cell) {
    IsValue(s, x, id, cell) || (!(0 < id < 0x8000_0000_0000_0000) && cell.Stale? && exists n :: IsNumber(x, ':', n))
  }

  ghost predicate IsCells(s: Server, x: Bytes, ids: seq<nat>, cells: seq<Cell>)
    decreases |ids|
  {
    && |ids| == |cells|
    && if ids == [] then x == []
       else exists k :: && 0 < k <= |x| && IsValue(s, x[..k], ids[0], cells[0])
                        && IsCells(s, x[k..], ids[1..], cells[1..])
  }

  /** An array with as many values as there are ids; only 32 bits of its size count. */
  ghost predicate IsRow(s: Server, x: Bytes, k: nat, size: nat, ids: seq<nat>, cells: seq<Cell>) {
    k <= |x| && IsNumber(x[..k], '*', size) && size % 0x1_0000_0000 == |ids| && IsCells(s, x[k..], ids, cells)
  }

  ghost predicate IsValues(s: Server, x: Bytes, ids: seq<nat>, cells: seq<Cell>) {
    || (|ids| == |cells| == 1 && IsSingle(s, x, ids[0], cells[0]))
    || exists k, size :: IsRow(s, x, k, size, ids, cells)
  }

  datatype Parts = Parts(key: nat, time: nat, ids: seq<nat>, t: nat, cells: seq<Cell>)

  /** A message: key, timestamp, values. It makes a sample for every id, with the value in the same place. */
  ghost predicate MadeOf(s: Server, dict: Dict, x: Bytes, samples: seq<Sample>, m: Parts) {
    && m.key <= m.time <= |x|
    && IsKey(s, dict, x[..m.key], m.ids) && IsTime(s, x[m.key..m.time], m.t) && IsValues(s, x[m.time..], m.ids, m.cells)
    && |samples| == |m.ids| == |m.cells|
    && forall i :: 0 <= i < |samples| ==> samples[i] == Sample(m.ids[i], m.t, m.cells[i])
  }

  ghost predicate IsMessage(s: Server, dict: Dict, x: Bytes, samples: seq<Sample>) {
    exists m :: MadeOf(s, dict, x, samples, m)
  }

  lemma MarkerAt(b: Bytes, p: nat, next: nat)
    requires p < next <= |b|
    ensures b[p..next] != [] && b[p..next][0] == b[p]
  {}

  lemma RowLimited(ids: seq<nat>, all: seq<nat>)
    ensures all != [] && ids == Row(all) <==> Limited(ids, all)
  {}

  lemma KeyExact(s: Server, b: Bytes, p: nat, dict: Dict, ids: seq<nat>, next: nat)
    requires p <= |b|
    ensures ParseIds(s, b, p, dict) == Done(ids, next) <==> p < next <= |b| && IsKey(s, dict, b[p..next], ids)
  {
    hide ReadString, Marked, IsLine, IsNumeral, Row, Limited;
    if p < next <= |b| {
      var x := b[p..next];
      MarkerAt(b, p, next);
      forall name ensures ReadString(b, p, 1024) == Done(name, next) <==> IsText(x, name, 1024) {
        StringExact(b, p, 1024, name, next);
      }
      forall uid: nat ensures Marked(b, p, ':') == Done(uid, next) <==> IsNumber(x, ':', uid) {
        NumberExact(b, p, ':', uid, next);
      }
      forall all ensures all != [] && ids == Row(all) <==> Limited(ids, all) {
        RowLimited(ids, all);
      }
    }
  }

  lemma TimeExact(s: Server, b: Bytes, p: nat, t: nat, next: nat)
    requires p <= |b|
    ensures ParseTimestamp(s, b, p) == Done(t, next) <==> p < next <= |b| && IsTime(s, b[p..next], t)
  {
    hide ReadString, Marked, IsLine, IsNumeral;
    if p < next <= |b| {
      var x := b[p..next];
      MarkerAt(b, p, next);
      forall text ensures ReadString(b, p, 28) == Done(text, next) <==> IsText(x, text, 28) {
        StringExact(b, p, 28, text, next);
      }
      NumberExact(b, p, ':', t, next);
    }
  }

  lemma ValueExact(s: Server, b: Bytes, p: nat, id: nat, cell: Cell, next: nat)
    requires p <= |b|
    ensures RowCell(s, b, p, id) == Done(cell, next) <==> p < next <= |b| && IsValue(s, b[p..next], id, cell)
  {
    hide ReadString, Marked, IsLine, IsNumeral;
    if p < next <= |b| {
      var x := b[p..next];
      MarkerAt(b, p, next);
      forall text ensures ReadString(b, p, 64) == Done(text, next) <==> IsText(x, text, 64) {
        StringExact(b, p, 64, text, next);
      }
      forall text ensures ReadString(b, p, 1024) == Done(text, next) <==> IsText(x, text, 1024) {
        StringExact(b, p, 1024, text, next);
      }
      forall n: nat ensures Marked(b, p, ':') == Done(n, next) <==> IsNumber(x, ':', n) {
        NumberExact(b, p, ':', n, next);
      }
    }
  }

  lemma Parted(b: Bytes, p: nat, q: nat, next: nat)
    requires p <= q <= next <= |b|
    ensures b[p..next][..q - p] == b[p..q] && b[p..next][q - p..] == b[q..next]
  {}

  lemma {:induction false} CellsExact(s: Server, b: Bytes, p: nat, ids: seq<nat>, cells: seq<Cell>, next: nat)
    requires p <= |b|
    ensures RowCells(s, b, p, ids) == Done(cells, next) <==>
            p <= next <= |b| && IsCells(s, b[p..next], ids, cells)
    decreases |ids|
  {
    hide RowCell, IsValue;
    if ids == [] {
      assert p <= next <= |b| && b[p..next] == [] ==> next == p;
    } else {
      if RowCells(s, b, p, ids) == Done(cells, next) {
        var r := RowCell(s, b, p, ids[0]);
        assert cells == [r.value] + cells[1..];
        ValueExact(s, b, p, ids[0], r.value, r.next);
        CellsExact(s, b, r.next, ids[1..], cells[1..], next);
        Parted(b, p, r.next, next);
        assert IsCells(s, b[p..next], ids, cells) by {
          var k := r.next - p;
          assert 0 < k <= |b[p..next]| && IsValue(s, b[p..next][..k], ids[0], cells[0]);
          assert IsCells(s, b[p..next][k..], ids[1..], cells[1..]);
        }
      }
      if p <= next <= |b| && IsCells(s, b[p..next], ids, cells) {
        var x := b[p..next];
        var k :| 0 < k <= |x| && IsValue(s, x[..k], ids[0], cells[0]) && IsCells(s, x[k..], ids[1..], cells[1..]);
        Parted(b, p, p + k, next);
        ValueExact(s, b, p, ids[0], cells[0], p + k);
        CellsExact(s, b, p + k, ids[1..], cells[1..], next);
        assert cells == [cells[0]] + cells[1..];
      }
    }
  }

  lemma SingleExact(s: Server, b: Bytes, p: nat, id: nat, cell: Cell, next: nat)
    requires p <= |b|
    ensures (if NextType(b, p) == INTEGER then IntCell(b, p, id) == Done(cell, next)
             else NextType(b, p) == STRING && TextCell(s, b, p, id) == Done(cell, next)) <==>
            p < next <= |b| && IsSingle(s, b[p..next], id, cell)
  {
    hide ReadString, Marked, IsLine, IsNumeral;
    if p < next <= |b| {
      var x := b[p..next];
      MarkerAt(b, p, next);
      forall text ensures ReadString(b, p, 64) == Done(text, next) <==> IsText(x, text, 64) {
        StringExact(b, p, 64, text, next);
      }
      forall text ensures ReadString(b, p, 1024) == Done(text, next) <==> IsText(x, text, 1024) {
        StringExact(b, p, 1024, text, next);
      }
      forall n: nat ensures Marked(b, p, ':') == Done(n, next) <==> IsNumber(x, ':', n) {
        NumberExact(b, p, ':', n, next);
      }
    }
  }

  lemma RowExact(s: Server, b: Bytes, p: nat, ids: seq<nat>, cells: seq<Cell>, next: nat)
    requires p <= |b|
    ensures (Marked(b, p, '*').Done? && Marked(b, p, '*').value % 0x1_0000_0000 == |ids| &&
             RowCells(s, b, Marked(b, p, '*').next, ids) == Done(cells, next)) <==>
            p < next <= |b| && exists k, size :: IsRow(s, b[p..next], k, size, ids, cells)
  {
    hide Marked, RowCells, IsRow;
    var r := Marked(b, p, '*');
    if r.Done? && r.value % 0x1_0000_0000 == |ids| && RowCells(s, b, r.next, ids) == Done(cells, next) {
      RowFound(s, b, p, ids, cells, next);
    }
    if p < next <= |b| {
      forall k: nat, size: nat | IsRow(s, b[p..next], k, size, ids, cells)
        ensures r == Done(size, p + k) && size % 0x1_0000_0000 == |ids| &&
                RowCells(s, b, p + k, ids) == Done(cells, next)
      {
        RowRead(s, b, p, ids, cells, next, k, size);
      }
    }
  }

  lemma RowFound(s: Server, b: Bytes, p: nat, ids: seq<nat>, cells: seq<Cell>, next: nat)
    requires p <= |b|
    requires Marked(b, p, '*').Done? && Marked(b, p, '*').value % 0x1_0000_0000 == |ids|
    requires RowCells(s, b, Marked(b, p, '*').next, ids) == Done(cells, next)
    ensures p < next <= |b| && IsRow(s, b[p..next], Marked(b, p, '*').next - p, Marked(b, p, '*').value, ids, cells)
  {
    hide Marked, RowCells, IsNumber, IsCells;
    var r := Marked(b, p, '*');
    NumberExact(b, p, '*', r.value, r.next);
    CellsExact(s, b, r.next, ids, cells, next);
    Parted(b, p, r.next, next);
  }

  lemma RowRead(s: Server, b: Bytes, p: nat, ids: seq<nat>, cells: seq<Cell>, next: nat, k: nat, size: nat)
    requires p < next <= |b| && IsRow(s, b[p..next], k, size, ids, cells)
    ensures Marked(b, p, '*') == Done(size, p + k) && size % 0x1_0000_0000 == |ids|
    ensures RowCells(s, b, p + k, ids) == Done(cells, next)
  {
    hide Marked, RowCells, IsNumber, IsCells;
    Parted(b, p, p + k, next);
    NumberNotEmpty(b[p..next][..k], '*', size);
    NumberExact(b, p, '*', size, p + k);
    CellsExact(s, b, p + k, ids, cells, next);
  }

  lemma NumberNotEmpty(x: Bytes, marker: char, n: nat)
    requires IsNumber(x, marker, n)
    ensures x != [] && x[0] == marker as int
  {}

  lemma ValuesExact(s: Server, b: Bytes, p: nat, ids: seq<nat>, cells: seq<Cell>, next: nat)
    requires p <= |b|
    ensures ParseValues(s, b, p, ids) == Done(cells, next) <==> p < next <= |b| && IsValues(s, b[p..next], ids, cells)
  {
    hide IntCell, TextCell, Marked, RowCells, IsSingle, IsRow;
    RowExact(s, b, p, ids, cells, next);
    if |ids| == 1 && |cells| == 1 {
      SingleExact(s, b, p, ids[0], cells[0], next);
      assert cells == [cells[0]];
    }
    if p < next <= |b| {
      MarkerAt(b, p, next);
      forall k: nat, size: nat | IsRow(s, b[p..next], k, size, ids, cells) ensures b[p] == '*' as int {
        RowMarker(s, b[p..next], k, size, ids, cells);
      }
    }
  }

  lemma RowMarker(s: Server, x: Bytes, k: nat, size: nat, ids: seq<nat>, cells: seq<Cell>)
    requires IsRow(s, x, k, size, ids, cells)
    ensures x != [] && x[0] == '*' as int
  {
    NumberNotEmpty(x[..k], '*', size);
    assert x[..k][0] == x[0];
  }

  /** The reader takes a message, with these samples, exactly where the bytes of one are. */
  lemma PduExact(s: Server, b: Bytes, p: nat, dict: Dict, samples: seq<Sample>, next: nat)
    requires p <= |b|
    ensures Pdu(s, b, p, dict) == Done(samples, next) <==> p < next <= |b| && IsMessage(s, dict, b[p..next], samples)
  {
    hide ParseIds, ParseTimestamp, ParseValues, IsKey, IsTime, IsValues;
    if Pdu(s, b, p, dict) == Done(samples, next) {
      var ids := ParseIds(s, b, p, dict);
      var t := ParseTimestamp(s, b, ids.next);
      var cells := ParseValues(s, b, t.next, ids.value);
      KeyExact(s, b, p, dict, ids.value, ids.next);
      TimeExact(s, b, ids.next, t.value, t.next);
      ValuesExact(s, b, t.next, ids.value, cells.value, next);
      ThreeParts(b, p, ids.next, t.next, next);
      assert MadeOf(s, dict, b[p..next], samples, Parts(ids.next - p, t.next - p, ids.value, t.value, cells.value));
    }
    if p < next <= |b| {
      forall m | MadeOf(s, dict, b[p..next], samples, m) ensures Pdu(s, b, p, dict) == Done(samples, next) {
        MessageRead(s, b, p, dict, samples, next, m);
      }
    }
  }

  lemma ThreeParts(b: Bytes, p: nat, q: nat, r: nat, next: nat)
    requires p <= q <= r <= next <= |b|
    ensures b[p..next][..q - p] == b[p..q] && b[p..next][q - p..r - p] == b[q..r] && b[p..next][r - p..] == b[r..next]
  {
    Slice(b, p, next, q - p, r - p);
    Parted(b, p, r, next);
  }

  lemma Slice(b: Bytes, lo: nat, hi: nat, i: nat, j: nat)
    requires lo <= hi <= |b| && i <= j <= hi - lo
    ensures b[lo..hi][i..j] == b[lo + i..lo + j]
  {
    forall k | 0 <= k < j - i ensures b[lo..hi][i..j][k] == b[lo + i..lo + j][k] {
      assert b[lo..hi][i + k] == b[lo + i + k];
    }
  }

  lemma MessageRead(s: Server, b: Bytes, p: nat, dict: Dict, samples: seq<Sample>, next: nat, m: Parts)
    requires p < next <= |b| && MadeOf(s, dict, b[p..next], samples, m)
    ensures Pdu(s, b, p, dict) == Done(samples, next)
  {
    hide ParseIds, ParseTimestamp, ParseValues, IsKey, IsTime, IsValues;
    var (q, r) := (p + m.key, p + m.time);
    ThreeParts(b, p, q, r, next);
    NotEmpty(s, dict, b[p..q], b[q..r], b[r..next], m);
    KeyExact(s, b, p, dict, m.ids, q);
    TimeExact(s, b, q, m.t, r);
    ValuesExact(s, b, r, m.ids, m.cells, next);
    assert Samples(m.ids, m.t, m.cells) == samples;
  }

  lemma NotEmpty(s: Server, dict: Dict, x: Bytes, y: Bytes, z: Bytes, m: Parts)
    requires IsKey(s, dict, x, m.ids) && IsTime(s, y, m.t) && IsValues(s, z, m.ids, m.cells)
    ensures x != [] && y != [] && z != []
  {
    hide IsLine, IsNumeral, IsCells;
    forall k: nat, size: nat | IsRow(s, z, k, size, m.ids, m.cells) ensures z != [] {
      RowMarker(s, z, k, size, m.ids, m.cells);
    }
  }

  // ----- Dictionaries

  /** A number and the row it stands for. */
  type Entry = (nat, seq<nat>)

  /** One definition: a series name, then its number. */
  ghost predicate IsEntry(s: Server, x: Bytes, e: Entry, k: nat, name: Bytes) {
    k <= |x| && IsText(x[..k], name, 1024) && Limited(e.1, s.lookup(name)) && IsNumber(x[k..], ':', e.0)
  }

  ghost predicate IsDefinition(s: Server, x: Bytes, e: Entry) {
    exists k, name :: IsEntry(s, x, e, k, name)
  }

  ghost predicate AreDefinitions(s: Server, x: Bytes, es: seq<Entry>)
    decreases |es|
  {
    if es == [] then x == []
    else exists k :: 0 < k <= |x| && IsDefinition(s, x[..k], es[0]) && AreDefinitions(s, x[k..], es[1..])
  }

  /** An array of definitions: its size counts names and numbers. */
  ghost predicate IsDictionary(s: Server, x: Bytes, es: seq<Entry>, k: nat) {
    k <= |x| && IsNumber(x[..k], '*', 2 * |es|) && AreDefinitions(s, x[k..], es)
  }

  /** The numbers of `es` are defined where they were not, by the first entry that has them. */
  ghost predicate Defines(dict: Dict, es: seq<Entry>, d: Dict) {
    && (forall n :: n in d <==> n in dict || exists i :: 0 <= i < |es| && es[i].0 == n)
    && (forall n :: n in dict ==> n in d && d[n] == dict[n])
    && (forall i :: 0 <= i < |es| && es[i].0 !in dict && (forall j :: 0 <= j < i ==> es[j].0 != es[i].0) ==>
          es[i].0 in d && d[es[i].0] == es[i].1)
  }

  ghost function DefineAll(dict: Dict, es: seq<Entry>): Dict
    decreases |es|
  {
    if es == [] then dict else DefineAll(Define(dict, es[0].0, es[0].1), es[1..])
  }

  lemma {:induction false} AllDefined(dict: Dict, es: seq<Entry>)
    ensures Defines(dict, es, DefineAll(dict, es))
    decreases |es|
  {
    if es != [] {
      var (d, rest) := (Define(dict, es[0].0, es[0].1), es[1..]);
      AllDefined(d, rest);
      DefinesFirst(dict, es, DefineAll(d, rest));
    }
  }

  lemma DefinesFirst(dict: Dict, es: seq<Entry>, r: Dict)
    requires es != [] && Defines(Define(dict, es[0].0, es[0].1), es[1..], r)
    ensures Defines(dict, es, r)
  {
    var (d, rest) := (Define(dict, es[0].0, es[0].1), es[1..]);
    forall n ensures n in r <==> n in dict || exists i :: 0 <= i < |es| && es[i].0 == n {
      NamedAmong(es, n);
    }
    forall i | 0 <= i < |es| && es[i].0 !in dict && (forall j :: 0 <= j < i ==> es[j].0 != es[i].0)
      ensures es[i].0 in r && r[es[i].0] == es[i].1
    {
      if i > 0 {
        assert es[0].0 != es[i].0 && rest[i - 1] == es[i];
        assert forall j :: 0 <= j < i - 1 ==> rest[j].0 == es[j + 1].0;
      }
    }
  }

  lemma NamedAmong(es: seq<Entry>, n: nat)
    requires es != []
    ensures (exists i :: 0 <= i < |es| && es[i].0 == n) <==>
            es[0].0 == n || exists i :: 0 <= i < |es[1..]| && es[1..][i].0 == n
  {
    if i :| 0 <= i < |es| && es[i].0 == n {
      assert i > 0 ==> es[1..][i - 1].0 == n;
    }
    if i :| 0 <= i < |es[1..]| && es[1..][i].0 == n {
      assert es[i + 1].0 == n;
    }
  }

  lemma DefinitionFound(s: Server, b: Bytes, p: nat, e: Entry, next: nat)
    requires p <= |b| && Definition(s, b, p) == Done(e, next)
    ensures p < next <= |b| && IsDefinition(s, b[p..next], e)
  {
    hide ReadString, Marked, IsText, IsNumber, Limited, Row;
    var r := ReadString(b, p, 1024);
    StringExact(b, p, 1024, r.value, r.next);
    NumberExact(b, r.next, ':', e.0, next);
    RowLimited(e.1, s.lookup(r.value));
    Parted(b, p, r.next, next);
    assert IsEntry(s, b[p..next], e, r.next - p, r.value);
  }

  lemma TextMarker(x: Bytes, text: Bytes, size: nat)
    requires IsText(x, text, size)
    ensures x != [] && x[0] == '+' as int
  {}

  lemma DefinitionRead(s: Server, b: Bytes, p: nat, e: Entry, next: nat, k: nat, name: Bytes)
    requires p <= next <= |b| && IsEntry(s, b[p..next], e, k, name)
    ensures p < next && Definition(s, b, p) == Done(e, next)
  {
    hide ReadString, Marked, IsText, IsNumber, Limited, Row;
    var q := p + k;
    Parted(b, p, q, next);
    TextMarker(b[p..q], name, 1024);
    NumberNotEmpty(b[q..next], ':', e.0);
    MarkerAt(b, p, q);
    MarkerAt(b, q, next);
    StringExact(b, p, 1024, name, q);
    NumberExact(b, q, ':', e.0, next);
    RowLimited(e.1, s.lookup(name));
  }

  lemma DefinitionExact(s: Server, b: Bytes, p: nat, e: Entry, next: nat)
    requires p <= |b|
    ensures Definition(s, b, p) == Done(e, next) <==> p < next <= |b| && IsDefinition(s, b[p..next], e)
  {
    hide Definition, IsEntry;
    if Definition(s, b, p) == Done(e, next) {
      DefinitionFound(s, b, p, e, next);
    }
    if p <= next <= |b| {
      forall k: nat, name | IsEntry(s, b[p..next], e, k, name)
        ensures p < next && Definition(s, b, p) == Done(e, next)
      {
        DefinitionRead(s, b, p, e, next, k, name);
      }
    }
  }

  lemma {:induction false} DefinitionsFound(s: Server, b: Bytes, p: nat, n: nat, dict: Dict) returns (es: seq<Entry>)
    requires p <= |b| && n % 2 == 0 && Definitions(s, b, p, n, dict).1.Done?
    ensures var (d, r) := Definitions(s, b, p, n, dict);
            |es| == n / 2 && d == DefineAll(dict, es) && AreDefinitions(s, b[p..r.next], es)
    decreases n
  {
    hide Definition, IsDefinition;
    es := [];
    if n > 0 {
      var e := Definition(s, b, p);
      var rest := DefinitionsFound(s, b, e.next, n - 2, Define(dict, e.value.0, e.value.1));
      es := [e.value] + rest;
      var next := Definitions(s, b, p, n, dict).1.next;
      DefinitionExact(s, b, p, e.value, e.next);
      Parted(b, p, e.next, next);
      assert es[1..] == rest;
      DefinitionsCons(s, b[p..next], es, e.next - p);
    }
  }

  lemma DefinitionsCons(s: Server, x: Bytes, es: seq<Entry>, k: nat)
    requires es != [] && 0 < k <= |x| && IsDefinition(s, x[..k], es[0]) && AreDefinitions(s, x[k..], es[1..])
    ensures AreDefinitions(s, x, es)
  {}

  lemma {:induction false} DefinitionsRead(s: Server, b: Bytes, p: nat, dict: Dict, es: seq<Entry>, next: nat)
    requires p <= next <= |b| && AreDefinitions(s, b[p..next], es)
    ensures Definitions(s, b, p, 2 * |es|, dict) == (DefineAll(dict, es), Done((), next))
    decreases |es|
  {
    hide Definition, IsDefinition, Define;
    if es != [] {
      var x := b[p..next];
      var k :| 0 < k <= |x| && IsDefinition(s, x[..k], es[0]) && AreDefinitions(s, x[k..], es[1..]);
      Parted(b, p, p + k, next);
      DefinitionExact(s, b, p, es[0], p + k);
      DefinitionsRead(s, b, p + k, Define(dict, es[0].0, es[0].1), es[1..], next);
    }
  }

  /** The reader takes a dictionary exactly where the bytes of one are, and defines what it says. */
  lemma DictionaryExact(s: Server, b: Bytes, p: nat, dict: Dict, d: Dict, next: nat)
    requires p <= |b|
    ensures Dictionary(s, b, p, dict) == (d, Done((), next)) <==>
            p < next <= |b| && exists es, k :: IsDictionary(s, b[p..next], es, k) && d == DefineAll(dict, es)
  {
    hide Marked, Definitions, IsDictionary, DefineAll;
    if Dictionary(s, b, p, dict) == (d, Done((), next)) {
      DictionaryFound(s, b, p, dict);
    }
    if p < next <= |b| {
      forall es, k: nat | IsDictionary(s, b[p..next], es, k)
        ensures Dictionary(s, b, p, dict) == (DefineAll(dict, es), Done((), next))
      {
        DictionaryRead(s, b, p, dict, next, es, k);
      }
    }
  }

  lemma DictionaryFound(s: Server, b: Bytes, p: nat, dict: Dict)
    requires p <= |b| && Dictionary(s, b, p, dict).1.Done?
    ensures var (d, r) := Dictionary(s, b, p, dict);
            exists es, k :: IsDictionary(s, b[p..r.next], es, k) && d == DefineAll(dict, es)
  {
    hide Marked, Definitions, IsNumber, AreDefinitions, DefineAll;
    var (r, next) := (Marked(b, p, '*'), Dictionary(s, b, p, dict).1.next);
    NumberExact(b, p, '*', r.value, r.next);
    var es := DefinitionsFound(s, b, r.next, r.value, dict);
    Parted(b, p, r.next, next);
    assert IsDictionary(s, b[p..next], es, r.next - p);
  }

  lemma DictionaryRead(s: Server, b: Bytes, p: nat, dict: Dict, next: nat, es: seq<Entry>, k: nat)
    requires p < next <= |b| && IsDictionary(s, b[p..next], es, k)
    ensures Dictionary(s, b, p, dict) == (DefineAll(dict, es), Done((), next))
  {
    hide Marked, Definitions, IsNumber, AreDefinitions, DefineAll, Dictionary;
    var (n, q) := (2 * |es|, p + k);
    Parted(b, p, q, next);
    NumberNotEmpty(b[p..q], '*', n);
    NumberExact(b, p, '*', n, q);
    DefinitionsRead(s, b, q, dict, es, next);
    DictionaryStep(s, b, p, dict, |es|, q);
  }

  lemma DictionaryStep(s: Server, b: Bytes, p: nat, dict: Dict, m: nat, q: nat)
    requires p <= |b| && Marked(b, p, '*') == Done(2 * m, q)
    ensures Dictionary(s, b, p, dict) == Definitions(s, b, q, 2 * m, dict)
  {
    hide Marked, Definitions;
  }
}
