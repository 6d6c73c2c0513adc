/** More bytes never change what was already decided: an element read stays read, an error stays an error. */
module RespStable {
  import opened Bits
  import opened Resp

  lemma TypeStable(a: Bytes, b: Bytes, p: nat)
    requires a <= b && p <= |a|
    ensures NextType(a, p) == AGAIN || NextType(b, p) == NextType(a, p)
    ensures NextType(a, p) == AGAIN <==> p == |a|
  {}

  lemma {:induction false} LineStable(a: Bytes, b: Bytes, p: nat, quota: nat)
    requires a <= b && p <= |a|
    ensures Line(a, p, quota).Again? || Line(b, p, quota) == Line(a, p, quota)
    decreases quota
  {
    if quota > 0 && p < |a| {
      LineStable(a, b, p + 1, quota - 1);
    }
  }

  lemma IntStable(a: Bytes, b: Bytes, p: nat)
    requires a <= b && p <= |a|
    ensures IntBody(a, p).Again? || IntBody(b, p) == IntBody(a, p)
  {
    hide Line, Digits;
    LineStable(a, b, p, MAX_DIGITS);
  }

  lemma MarkedStable(a: Bytes, b: Bytes, p: nat, marker: char)
    requires a <= b && p <= |a|
    ensures Marked(a, p, marker).Again? || Marked(b, p, marker) == Marked(a, p, marker)
  {
    hide IntBody;
    if p < |a| {
      IntStable(a, b, p + 1);
    }
  }

  lemma StringStable(a: Bytes, b: Bytes, p: nat, size: nat)
    requires a <= b && p <= |a|
    ensures ReadString(a, p, size).Again? || ReadString(b, p, size) == ReadString(a, p, size)
  {
    hide Line, Stripped;
    if p < |a| {
      LineStable(a, b, p + 1, if size < STRING_LENGTH_MAX then size else STRING_LENGTH_MAX);
    }
  }

  lemma IdsStable(s: Server, a: Bytes, b: Bytes, p: nat, dict: Dict)
    requires a <= b && p <= |a|
    ensures ParseIds(s, a, p, dict).Again? || ParseIds(s, b, p, dict) == ParseIds(s, a, p, dict)
  {
    hide ReadString, Marked, NextType;
    TypeStable(a, b, p);
    StringStable(a, b, p, STRING_LENGTH_MAX);
    MarkedStable(a, b, p, ':');
  }

  lemma TimestampStable(s: Server, a: Bytes, b: Bytes, p: nat)
    requires a <= b && p <= |a|
    ensures ParseTimestamp(s, a, p).Again? || ParseTimestamp(s, b, p) == ParseTimestamp(s, a, p)
  {
    hide ReadString, Marked, NextType;
    TypeStable(a, b, p);
    StringStable(a, b, p, 28);
    MarkedStable(a, b, p, ':');
  }

  lemma TextStable(s: Server, a: Bytes, b: Bytes, p: nat, id: nat)
    requires a <= b && p <= |a|
    ensures TextCell(s, a, p, id).Again? || TextCell(s, b, p, id) == TextCell(s, a, p, id)
  {
    hide ReadString;
    StringStable(a, b, p, 64);
    StringStable(a, b, p, STRING_LENGTH_MAX);
  }

  lemma IntCellStable(a: Bytes, b: Bytes, p: nat, id: nat)
    requires a <= b && p <= |a|
    ensures IntCell(a, p, id).Again? || IntCell(b, p, id) == IntCell(a, p, id)
  {
    hide Marked;
    MarkedStable(a, b, p, ':');
  }

  lemma CellStable(s: Server, a: Bytes, b: Bytes, p: nat, id: nat)
    requires a <= b && p <= |a|
    ensures RowCell(s, a, p, id).Again? || RowCell(s, b, p, id) == RowCell(s, a, p, id)
  {
    hide TextCell, IntCell, NextType;
    TypeStable(a, b, p);
    TextStable(s, a, b, p, id);
    IntCellStable(a, b, p, id);
  }

  lemma {:induction false} CellsStable(s: Server, a: Bytes, b: Bytes, p: nat, ids: seq<nat>)
    requires a <= b && p <= |a|
    ensures RowCells(s, a, p, ids).Again? || RowCells(s, b, p, ids) == RowCells(s, a, p, ids)
    decreases |ids|
  {
    hide RowCell;
    if ids != [] {
      CellStable(s, a, b, p, ids[0]);
      var r := RowCell(s, a, p, ids[0]);
      if r.Done? {
        CellsStable(s, a, b, r.next, ids[1..]);
      }
    }
  }

  lemma ValuesStable(s: Server, a: Bytes, b: Bytes, p: nat, ids: seq<nat>)
    requires a <= b && p <= |a|
    ensures ParseValues(s, a, p, ids).Again? || ParseValues(s, b, p, ids) == ParseValues(s, a, p, ids)
  {
    hide TextCell, IntCell, NextType, Marked, RowCells;
    TypeStable(a, b, p);
    if |ids| == 1 {
      TextStable(s, a, b, p, ids[0]);
      IntCellStable(a, b, p, ids[0]);
    }
    MarkedStable(a, b, p, '*');
    var r := Marked(a, p, '*');
    if r.Done? {
      CellsStable(s, a, b, r.next, ids);
    }
  }

  /** A message. */
  lemma PduStable(s: Server, a: Bytes, b: Bytes, p: nat, dict: Dict)
    requires a <= b && p <= |a|
    ensures Pdu(s, a, p, dict).Again? || Pdu(s, b, p, dict) == Pdu(s, a, p, dict)
  {
    hide ParseIds, ParseTimestamp, ParseValues;
    IdsStable(s, a, b, p, dict);
    var ids := ParseIds(s, a, p, dict);
    if ids.Done? {
      TimestampStable(s, a, b, ids.next);
      var t := ParseTimestamp(s, a, ids.next);
      if t.Done? {
        ValuesStable(s, a, b, t.next, ids.value);
      }
    }
  }

  lemma DefinitionStable(s: Server, a: Bytes, b: Bytes, p: nat)
    requires a <= b && p <= |a|
    ensures Definition(s, a, p).Again? || Definition(s, b, p) == Definition(s, a, p)
  {
    hide ReadString, NextType, Marked;
    TypeStable(a, b, p);
    StringStable(a, b, p, STRING_LENGTH_MAX);
    var r := ReadString(a, p, STRING_LENGTH_MAX);
    if r.Done? {
      TypeStable(a, b, r.next);
      MarkedStable(a, b, r.next, ':');
    }
  }

  /** A dictionary; and one that was cut off can be read again from its beginning: what it had defined stands. */
  lemma {:induction false} DefinitionsStable(s: Server, a: Bytes, b: Bytes, p: nat, n: nat, dict: Dict)
    requires a <= b && p <= |a|
    ensures
      var (d, r) := Definitions(s, a, p, n, dict);
      if r.Again? then Definitions(s, b, p, n, d) == Definitions(s, b, p, n, dict)
      else Definitions(s, b, p, n, dict) == (d, r)
    decreases n
  {
    hide Definition;
    if n > 0 {
      DefinitionStable(s, a, b, p);
      var r := Definition(s, a, p);
      if r.Done? {
        var m := if n < 2 then 0 else n - 2;
        var next := Define(dict, r.value.0, r.value.1);
        DefinitionsStable(s, a, b, r.next, m, next);
        var (d, q) := Definitions(s, a, r.next, m, next);
        if q.Again? {
          Defined(s, a, r.next, m, next, r.value.0);
          DefineAgain(dict, d, r.value.0, r.value.1);
        }
      }
    }
  }

  /** What is defined stays defined, as it is. */
  lemma {:induction false} Defined(s: Server, b: Bytes, p: nat, n: nat, dict: Dict, uid: nat)
    requires p <= |b| && uid in dict
    ensures uid in Definitions(s, b, p, n, dict).0
    decreases n
  {
    if n > 0 {
      var r := Definition(s, b, p);
      if r.Done? {
        Defined(s, b, r.next, if n < 2 then 0 else n - 2, Define(dict, r.value.0, r.value.1), uid);
      }
    }
  }

  lemma DefineAgain(dict: Dict, d: Dict, uid: nat, row: seq<nat>)
    requires uid in d
    ensures Define(d, uid, row) == d && uid in Define(dict, uid, row)
  {}

  lemma DictionaryStable(s: Server, a: Bytes, b: Bytes, p: nat, dict: Dict)
    requires a <= b && p <= |a|
    ensures
      var (d, r) := Dictionary(s, a, p, dict);
      if r.Again? then Dictionary(s, b, p, d) == Dictionary(s, b, p, dict)
      else Dictionary(s, b, p, dict) == (d, r)
  {
    hide Marked, Definitions;
    MarkedStable(a, b, p, '*');
    var r := Marked(a, p, '*');
    if r.Done? && r.value % 2 == 0 {
      DefinitionsStable(s, a, b, r.next, r.value, dict);
    }
  }

  // ----- Nothing behind an element is needed to read it

  lemma {:induction false} LineLocal(a: Bytes, b: Bytes, p: nat, quota: nat)
    requires a <= b && p <= |a| && Line(b, p, quota).Done? && Line(b, p, quota).next <= |a|
    ensures Line(a, p, quota) == Line(b, p, quota)
    decreases quota
  {
    if p < |a| && b[p] != LF {
      LineLocal(a, b, p + 1, quota - 1);
    }
  }

  lemma MarkedLocal(a: Bytes, b: Bytes, p: nat, marker: char)
    requires a <= b && p <= |a| && Marked(b, p, marker).Done? && Marked(b, p, marker).next <= |a|
    ensures Marked(a, p, marker) == Marked(b, p, marker)
  {
    hide Line, Digits;
    LineLocal(a, b, p + 1, MAX_DIGITS);
  }

  lemma StringLocal(a: Bytes, b: Bytes, p: nat, size: nat)
    requires a <= b && p <= |a| && ReadString(b, p, size).Done? && ReadString(b, p, size).next <= |a|
    ensures ReadString(a, p, size) == ReadString(b, p, size)
  {
    hide Line, Stripped;
    LineLocal(a, b, p + 1, if size < STRING_LENGTH_MAX then size else STRING_LENGTH_MAX);
  }

  lemma TypeLocal(a: Bytes, b: Bytes, p: nat)
    requires a <= b && p < |a|
    ensures NextType(a, p) == NextType(b, p)
  {}

  lemma IdsLocal(s: Server, a: Bytes, b: Bytes, p: nat, dict: Dict)
    requires a <= b && p <= |a| && ParseIds(s, b, p, dict).Done? && ParseIds(s, b, p, dict).next <= |a|
    ensures ParseIds(s, a, p, dict) == ParseIds(s, b, p, dict)
  {
    hide ReadString, Marked, NextType;
    TypeLocal(a, b, p);
    if NextType(b, p) == STRING {
      StringLocal(a, b, p, STRING_LENGTH_MAX);
    } else {
      MarkedLocal(a, b, p, ':');
    }
  }

  lemma TimestampLocal(s: Server, a: Bytes, b: Bytes, p: nat)
    requires a <= b && p <= |a| && ParseTimestamp(s, b, p).Done? && ParseTimestamp(s, b, p).next <= |a|
    ensures ParseTimestamp(s, a, p) == ParseTimestamp(s, b, p)
  {
    hide ReadString, Marked, NextType;
    TypeLocal(a, b, p);
    if NextType(b, p) == STRING {
      StringLocal(a, b, p, 28);
    } else {
      MarkedLocal(a, b, p, ':');
    }
  }

  lemma TextLocal(s: Server, a: Bytes, b: Bytes, p: nat, id: nat)
    requires a <= b && p <= |a| && TextCell(s, b, p, id).Done? && TextCell(s, b, p, id).next <= |a|
    ensures TextCell(s, a, p, id) == TextCell(s, b, p, id)
  {
    hide ReadString;
    StringLocal(a, b, p, if IsSeries(id) then 64 else STRING_LENGTH_MAX);
  }

  lemma IntCellLocal(a: Bytes, b: Bytes, p: nat, id: nat)
    requires a <= b && p <= |a| && IntCell(b, p, id).Done? && IntCell(b, p, id).next <= |a|
    ensures IntCell(a, p, id) == IntCell(b, p, id)
  {
    hide Marked;
    MarkedLocal(a, b, p, ':');
  }

  lemma CellLocal(s: Server, a: Bytes, b: Bytes, p: nat, id: nat)
    requires a <= b && p <= |a| && RowCell(s, b, p, id).Done? && RowCell(s, b, p, id).next <= |a|
    ensures RowCell(s, a, p, id) == RowCell(s, b, p, id)
  {
    hide TextCell, IntCell, NextType;
    TypeLocal(a, b, p);
    if NextType(b, p) == STRING {
      TextLocal(s, a, b, p, id);
    } else {
      IntCellLocal(a, b, p, id);
    }
  }

  lemma {:induction false} CellsLocal(s: Server, a: Bytes, b: Bytes, p: nat, ids: seq<nat>)
    requires a <= b && p <= |a| && RowCells(s, b, p, ids).Done? && RowCells(s, b, p, ids).next <= |a|
    ensures RowCells(s, a, p, ids) == RowCells(s, b, p, ids)
    decreases |ids|
  {
    hide RowCell;
    if ids != [] {
      CellLocal(s, a, b, p, ids[0]);
      CellsLocal(s, a, b, RowCell(s, b, p, ids[0]).next, ids[1..]);
    }
  }

  lemma ValuesLocal(s: Server, a: Bytes, b: Bytes, p: nat, ids: seq<nat>)
    requires a <= b && p <= |a| && ParseValues(s, b, p, ids).Done? && ParseValues(s, b, p, ids).next <= |a|
    ensures ParseValues(s, a, p, ids) == ParseValues(s, b, p, ids)
  {
    hide TextCell, IntCell, NextType, Marked, RowCells;
    TypeLocal(a, b, p);
    if NextType(b, p) == STRING {
      TextLocal(s, a, b, p, ids[0]);
    } else if NextType(b, p) == INTEGER {
      IntCellLocal(a, b, p, ids[0]);
    } else if NextType(b, p) == ARRAY {
      CellsLocal(s, a, b, Marked(b, p, '*').next, ids);
      MarkedLocal(a, b, p, '*');
    }
  }

  lemma PduLocal(s: Server, a: Bytes, b: Bytes, p: nat, dict: Dict)
    requires a <= b && p <= |a| && Pdu(s, b, p, dict).Done? && Pdu(s, b, p, dict).next <= |a|
    ensures Pdu(s, a, p, dict) == Pdu(s, b, p, dict)
  {
    hide ParseIds, ParseTimestamp, ParseValues;
    var ids := ParseIds(s, b, p, dict);
    var t := ParseTimestamp(s, b, ids.next);
    var v := ParseValues(s, b, t.next, ids.value);
    IdsLocal(s, a, b, p, dict);
    TimestampLocal(s, a, b, ids.next);
    ValuesLocal(s, a, b, t.next, ids.value);
  }

  lemma DefinitionLocal(s: Server, a: Bytes, b: Bytes, p: nat)
    requires a <= b && p <= |a| && Definition(s, b, p).Done? && Definition(s, b, p).next <= |a|
    ensures Definition(s, a, p) == Definition(s, b, p)
  {
    hide ReadString, Marked, NextType;
    var name := ReadString(b, p, STRING_LENGTH_MAX);
    TypeLocal(a, b, p);
    StringLocal(a, b, p, STRING_LENGTH_MAX);
    TypeLocal(a, b, name.next);
    MarkedLocal(a, b, name.next, ':');
  }

  lemma {:induction false} DefinitionsLocal(s: Server, a: Bytes, b: Bytes, p: nat, n: nat, dict: Dict)
    requires a <= b && p <= |a|
    requires Definitions(s, b, p, n, dict).1.Done? && Definitions(s, b, p, n, dict).1.next <= |a|
    ensures Definitions(s, a, p, n, dict) == Definitions(s, b, p, n, dict)
    decreases n
  {
    hide Definition;
    if n > 0 {
      var d := Definition(s, b, p);
      DefinitionLocal(s, a, b, p);
      DefinitionsLocal(s, a, b, d.next, if n < 2 then 0 else n - 2, Define(dict, d.value.0, d.value.1));
    }
  }

  /** A dictionary is read without the bytes behind it. */
  lemma DictionaryLocal(s: Server, a: Bytes, b: Bytes, p: nat, dict: Dict)
    requires a <= b && p <= |a| && Dictionary(s, b, p, dict).1.Done? && Dictionary(s, b, p, dict).1.next <= |a|
    ensures Dictionary(s, a, p, dict) == Dictionary(s, b, p, dict)
  {
    hide Marked, Definitions;
    var size := Marked(b, p, '*');
    MarkedLocal(a, b, p, '*');
    DefinitionsLocal(s, a, b, size.next, size.value, dict);
  }
}
