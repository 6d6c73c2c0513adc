/** The bytes of a frame, and how many rows go into one. */
module LogPages {
  import opened Bits
  import opened LogFrame
  import opened LogSlips

  // ----- Layout

  /** Data points lie in three columns of 340 words. */
  lemma PointLayout(f: Frame, id: u64, timestamp: u64, value: u64)
    requires |f.data| == 8168 && f.size < 340
    ensures
      var (k, d) := (f.size, PutPoint(f, id, timestamp, value).data);
      && d[8 * k..8 * k + 8] == ToBytes(id, 8)
      && d[2720 + 8 * k..2728 + 8 * k] == ToBytes(timestamp, 8)
      && d[5440 + 8 * k..5448 + 8 * k] == ToBytes(value, 8)
  {
    hide Splice, ToBytes;
    var k := f.size;
    var (x, y, z) := (ToBytes(id, 8), ToBytes(timestamp, 8), ToBytes(value, 8));
    var d1 := Splice(f.data, 8 * k, x);
    var d2 := Splice(d1, 2720 + 8 * k, y);
    SpliceAt(f.data, 8 * k, x, 8 * k, 8 * k + 8);
    SpliceAt(d1, 2720 + 8 * k, y, 8 * k, 8 * k + 8);
    SpliceAt(d1, 2720 + 8 * k, y, 2720 + 8 * k, 2728 + 8 * k);
    SpliceAt(d2, 5440 + 8 * k, z, 8 * k, 8 * k + 8);
    SpliceAt(d2, 5440 + 8 * k, z, 2720 + 8 * k, 2728 + 8 * k);
    SpliceAt(d2, 5440 + 8 * k, z, 5440 + 8 * k, 5448 + 8 * k);
  }

  /** A payload lies behind those before it; its id, length and offset lie in 16 bytes before those of the others, at
      the end of the page. */
  lemma BlobLayout(f: Frame, id: u64, payload: seq<u8>)
    requires Room(f, |payload|)
    ensures
      var (w, s, d) := (End(f), 8168 - 16 * f.size, PutBlob(f, id, payload).data);
      && d[w..w + |payload|] == payload
      && d[s - 16..s - 8] == ToBytes(id, 8)
      && d[s - 8..s - 4] == Bytes4(|payload|) && d[s - 4..s] == Bytes4(w)
  {
    hide ToBytes, Splice, Number4, Bytes4;
    var (w, s) := (End(f), Slot(f.size));
    var (desc, x) := (Bytes4(|payload|) + Bytes4(w), ToBytes(id, 8));
    var d1 := Splice(f.data, w, payload);
    var d2 := Splice(d1, s, desc);
    var d3 := Splice(d2, s - 8, x);
    SpliceAt(f.data, w, payload, w, w + |payload|);
    SpliceAt(d1, s, desc, w, w + |payload|);
    SpliceAt(d2, s - 8, x, w, w + |payload|);
    SpliceAt(d1, s, desc, s, s + 8);
    SpliceAt(d2, s - 8, x, s, s + 8);
    SpliceAt(d2, s - 8, x, s - 8, s);
    Halves(d3, s, Bytes4(|payload|), Bytes4(w));
  }

  lemma Halves(d: seq<u8>, s: nat, x: seq<u8>, y: seq<u8>)
    requires s + 8 <= |d| && |x| == |y| == 4 && d[s..s + 8] == x + y
    ensures d[s..s + 4] == x && d[s + 4..s + 8] == y
  {
    assert d[s..s + 4] == d[s..s + 8][..4] == (x + y)[..4];
    assert d[s + 4..s + 8] == d[s..s + 8][4..] == (x + y)[4..];
  }

  // ----- How many data points go into a frame

  predicate AllPoints(ops: seq<Op>) {
    forall i :: 0 <= i < |ops| ==> ops[i].Put? && ops[i].row.PointRow?
  }

  /** Every 340 data points make a frame. */
  lemma {:induction false} PointsFill(ops: seq<Op>)
    requires AllPoints(ops)
    ensures PageAfter(ops) ==
            if |ops| % 340 == 0 then Page(EMPTY, 0, 0) else Page(DATA_ENTRY, |ops| % 340, 0)
  {
    hide AllPoints;
    if ops != [] {
      var n := |ops| - 1;
      PointsBefore(ops);
      PointsFill(ops[..n]);
      NextPoint(n);
    }
  }

  lemma PointsBefore(ops: seq<Op>)
    requires AllPoints(ops) && ops != []
    ensures AllPoints(ops[..|ops| - 1]) && ops[|ops| - 1].Put? && ops[|ops| - 1].row.PointRow?
  {}

  lemma NextPoint(n: nat)
    ensures (n + 1) % 340 == if n % 340 == 339 then 0 else n % 340 + 1
  {}

  // ----- How many names go into a page

  predicate AllNames(ops: seq<Op>, len: nat) {
    forall i :: 0 <= i < |ops| ==> ops[i].Put? && ops[i].row.NameRow? && |ops[i].row.name| == len
  }

  /** Names of one length in a page: as many as fit with 16 bytes each and 16 to spare, until fewer than 64 bytes are
      free. */
  function PerPage(len: nat): nat {
    var (fit, close) := (8152 / (len + 16), 8072 / (len + 16) + 1);
    if fit < 1 then 1 else if fit < close then fit else close
  }

  /** The page is written with its last name, and not when the next one comes. */
  predicate Closes(len: nat) {
    PerPage(len) * (len + 16) > 8072
  }

  lemma TimesMore(j: nat, k: nat, n: nat)
    requires j <= k
    ensures j * n <= k * n
  {}

  lemma DivFits(room: nat, n: nat, j: nat)
    requires n > 0
    ensures j <= room / n <==> j * n <= room
  {
    var q := room / n;
    assert q * n <= room < (q + 1) * n;
    if j <= q {
      TimesMore(j, q, n);
    } else {
      TimesMore(q + 1, j, n);
    }
  }

  /** What a page with `j` names can still take. */
  lemma PageRoom(len: nat, j: nat)
    requires len <= 8152 && 0 < j <= PerPage(len)
    ensures j < PerPage(len) ==> j * (len + 16) <= 8072 && (j + 1) * (len + 16) <= 8152
    ensures j == PerPage(len) && !Closes(len) ==> (j + 1) * (len + 16) > 8152
  {
    var w := len + 16;
    DivFits(8152, w, j);
    DivFits(8152, w, j + 1);
    DivFits(8072, w, j);
  }

  lemma TakesMore(p: Page, len: nat, j: nat, more: nat)
    requires p.size == j > 0 && p.used == j * len && (more > 0 || j * (len + 16) + 16 <= 8152)
    ensures Takes(p, more) <==> j * (len + 16) + 16 + more <= 8152
  {
    assert j * (len + 16) == j * len + 16 * j;
  }

  /** A page takes another name until it has all that fit. */
  lemma TakesName(p: Page, len: nat, s: nat)
    requires len <= 8152 && s <= PerPage(len) && (Closes(len) ==> s < PerPage(len))
    requires p == Page(SNAME_ENTRY, s, s * len)
    ensures Takes(p, len) <==> s < PerPage(len)
  {
    hide Takes, PerPage;
    PerPagePositive(len);
    if s > 0 {
      PageRoom(len, s);
      assert (s + 1) * (len + 16) == s * (len + 16) + (len + 16);
      TakesMore(p, len, s, len);
    } else {
      TakesFirst(p, len);
    }
  }

  /** A page stays open unless it closes with its last name. */
  lemma StaysOpen(r: Page, len: nat, s: nat)
    requires len <= 8152 && 0 < s <= PerPage(len) && r == Page(SNAME_ENTRY, s, s * len)
    ensures Takes(r, SIZE_THRESHOLD) <==> !(Closes(len) && s == PerPage(len))
  {
    hide Takes, PerPage;
    PageRoom(len, s);
    TakesMore(r, len, s, SIZE_THRESHOLD);
  }

  /** How many names are in the page after one more. */
  function Following(len: nat, s: nat): nat {
    var next := if s < PerPage(len) then s + 1 else 1;
    if Closes(len) && next == PerPage(len) then 0 else next
  }

  /** A page with `s` names of one length. */
  function NamesPage(len: nat, s: nat): Page { Page(SNAME_ENTRY, s, s * len) }

  lemma NameAdded(len: nat, s: nat)
    requires len <= 8152 && s <= PerPage(len) && (Closes(len) ==> s < PerPage(len))
    ensures WithBlob(NamesPage(len, s), len) == NamesPage(len, Following(len, s))
  {
    hide Takes, PerPage, Closes;
    PerPagePositive(len);
    TakesName(NamesPage(len, s), len, s);
    var next := if s < PerPage(len) then s + 1 else 1;
    assert (s + 1) * len == s * len + len;
    StaysOpen(NamesPage(len, next), len, next);
  }

  lemma PerPagePositive(len: nat)
    ensures PerPage(len) > 0
  {}

  lemma TakesFirst(p: Page, len: nat)
    requires p.size == 0 && len <= 8152
    ensures Takes(p, len)
  {}

  /** Names of one length: `full` pages written, and `some` names in the page being filled. */
  lemma {:induction false} NamesFill(ops: seq<Op>, len: nat) returns (full: nat, some: nat)
    requires len <= 8152 && AllNames(ops, len) && ops != []
    ensures |ops| == full * PerPage(len) + some
    ensures if Closes(len) then some < PerPage(len) else 0 < some <= PerPage(len)
    ensures PageAfter(ops) == NamesPage(len, some)
  {
    hide Takes, PerPage, Closes, WithBlob;
    var n := |ops| - 1;
    assert ops[n].Put? && ops[n].row.NameRow? && |ops[n].row.name| == len;
    PerPagePositive(len);
    var per := PerPage(len);
    full, some := 0, 0;
    if n > 0 {
      full, some := NamesFill(ops[..n], len);
    }
    assert Opened(PageAfter(ops[..n]), SNAME_ENTRY) == NamesPage(len, some);
    NameAdded(len, some);
    assert (full + 1) * per == full * per + per;
    if some == per {
      full, some := full + 1, 0;
    }
    some := some + 1;
    if Closes(len) && some == per {
      full, some := full + 1, 0;
    }
  }
}
