/** The series index: which stored names have a given metric (`Index`, `InvertedIndex`, `IndexQueryResults`). */
module SeriesIndex {
  import opened Bits
  import opened PostingList
  import opened StringPools

  const SPACE: u8 := 32
  const TAB: u8 := 9

  // ----- Names

  function SkipSpace(s: Text, p: nat): (r: nat)
    requires p <= |s|
    ensures p <= r <= |s|
    decreases |s| - p
  {
    if p < |s| && (s[p] == SPACE || s[p] == TAB) then SkipSpace(s, p + 1) else p
  }

  function UpToSpace(s: Text, p: nat): (r: nat)
    requires p <= |s|
    ensures p <= r <= |s| && SPACE !in s[p..r] && (r < |s| ==> s[r] == SPACE)
    decreases |s| - p
  {
    if p < |s| && s[p] != SPACE then UpToSpace(s, p + 1) else p
  }

  /** The metric a name starts with (`skip_metric_name`). */
  function MetricOf(s: Text): Text {
    var p := SkipSpace(s, 0);
    s[p..UpToSpace(s, p)]
  }

  /** `MetricName::check`. */
  predicate Check(metric: Text, s: Text) {
    MetricOf(s) != [] && MetricOf(s) == metric
  }

  /** A name in canonical form: metric, a space, tags; no zero bytes. */
  datatype Canonical = Canonical(metric: Text, tags: Text)

  function Name(c: Canonical): Text { c.metric + [SPACE] + c.tags }

  predicate CanonicalGood(c: Canonical) {
    && c.metric != [] && SPACE !in c.metric && c.metric[0] != TAB
    && NoNul(Name(c))
  }

  lemma MetricOfName(c: Canonical)
    requires CanonicalGood(c)
    ensures MetricOf(Name(c)) == c.metric
  {
    var s := Name(c);
    assert s[0] == c.metric[0] && c.metric[0] in c.metric;
    assert SkipSpace(s, 0) == 0;
    FirstSpace(s, |c.metric|, 0);
    assert s[0..|c.metric|] == c.metric;
  }

  lemma {:induction false} FirstSpace(s: Text, n: nat, p: nat)
    requires p <= n < |s| && s[n] == SPACE && SPACE !in s[p..n]
    ensures UpToSpace(s, p) == n
    decreases n - p
  {
    if p < n {
      assert s[p] in s[p..n];
      assert forall x :: x in s[p + 1..n] ==> x in s[p..n];
      FirstSpace(s, n, p + 1);
    }
  }

  // ----- Ids in posting lists

  const LIMIT := 0x1_0000_0000_0000_0000

  function ToWord(n: nat): u64
    requires n < LIMIT
  {
    n as u64
  }

  function ToId(w: u64): (n: nat)
    ensures n < LIMIT
  {
    w as nat
  }

  lemma IdBack(n: nat)
    requires n < LIMIT
    ensures ToId(ToWord(n)) == n
  {
    assert n % LIMIT == n;
  }

  datatype Series = Series(id: nat, name: Text, metric: Text)

  /** Series as they are in the index: the metric is that of the name, ids rise and fit a word. */
  ghost predicate SeriesGood(series: seq<Series>) {
    && (forall i :: 0 <= i < |series| ==> SeriesOk(series[i]))
    && (forall i, j :: 0 <= i < j < |series| ==> series[i].id < series[j].id)
  }

  ghost predicate SeriesOk(s: Series) {
    0 < s.id < LIMIT && NoNul(s.name) && s.metric != [] && MetricOf(s.name) == s.metric
  }

  lemma SeriesShorter(series: seq<Series>)
    requires SeriesGood(series) && series != []
    ensures SeriesGood(series[..|series| - 1]) && SeriesOk(series[|series| - 1])
  {}

  /** The ids of the series with this hash, and with this metric, in the order they were added. */
  ghost function Hashed(series: seq<Series>, hash: Text -> nat, h: nat): seq<u64>
    requires SeriesGood(series)
  {
    if series == [] then []
    else
      SeriesShorter(series);
      var s := series[|series| - 1];
      Hashed(series[..|series| - 1], hash, h) + if hash(s.metric) == h then [ToWord(s.id)] else []
  }

  ghost function WithMetric(series: seq<Series>, metric: Text): seq<u64>
    requires SeriesGood(series)
  {
    if series == [] then []
    else
      SeriesShorter(series);
      var s := series[|series| - 1];
      WithMetric(series[..|series| - 1], metric) + if s.metric == metric then [ToWord(s.id)] else []
  }

  ghost function IdSet(ids: seq<u64>): set<nat> {
    set w | w in ids :: ToId(w)
  }

  ghost function MetricIds(series: seq<Series>, metric: Text): set<nat> {
    set s | s in series && s.metric == metric :: s.id
  }

  ghost predicate Rising(ids: seq<u64>) {
    forall i, j :: 0 <= i < j < |ids| ==> ToId(ids[i]) < ToId(ids[j])
  }

  lemma IdSetMore(ids: seq<u64>, w: u64)
    ensures IdSet(ids + [w]) == IdSet(ids) + {ToId(w)}
  {
    hide ToId;
    assert forall x :: x in ids + [w] <==> x in ids || x == w;
  }

  lemma MetricIdsMore(series: seq<Series>, s: Series, metric: Text)
    ensures MetricIds(series + [s], metric) == MetricIds(series, metric) + if s.metric == metric then {s.id} else {}
  {
    assert forall x :: x in series + [s] <==> x in series || x == s;
  }

  /** Exactly the series with the metric, each once, ids rising. */
  lemma {:induction false} WithMetricExact(series: seq<Series>, metric: Text)
    requires SeriesGood(series)
    ensures Rising(WithMetric(series, metric)) && IdSet(WithMetric(series, metric)) == MetricIds(series, metric)
    decreases |series|
  {
    hide ToId, ToWord, SeriesOk;
    if series == [] {
      assert IdSet([]) == {} == MetricIds([], metric);
    } else {
      var n := |series| - 1;
      SeriesShorter(series);
      WithMetricExact(series[..n], metric);
      LastBack(series);
      var before, s := WithMetric(series[..n], metric), series[n];
      assert series == series[..n] + [s];
      MetricIdsMore(series[..n], s, metric);
      if s.metric == metric {
        IdSetMore(before, ToWord(s.id));
        forall i | 0 <= i < |before| ensures ToId(before[i]) < s.id {
          assert before[i] in before;
          assert ToId(before[i]) in MetricIds(series[..n], metric);
          var t :| t in series[..n] && t.metric == metric && t.id == ToId(before[i]);
        }
      }
    }
  }

  lemma LastBack(series: seq<Series>)
    requires SeriesGood(series) && series != []
    ensures series[|series| - 1].id < LIMIT && ToId(ToWord(series[|series| - 1].id)) == series[|series| - 1].id
  {
    IdBack(series[|series| - 1].id);
  }

  // ----- Filtering

  /** The names behind `Hashed`. */
  ghost function HashedNames(series: seq<Series>, hash: Text -> nat, h: nat): seq<Text>
    requires SeriesGood(series)
  {
    if series == [] then []
    else
      SeriesShorter(series);
      var s := series[|series| - 1];
      HashedNames(series[..|series| - 1], hash, h) + if hash(s.metric) == h then [s.name] else []
  }

  /** The ids whose name passes the check. */
  ghost function Kept(xs: seq<u64>, names: seq<Text>, metric: Text): seq<u64>
    requires |xs| == |names|
  {
    if xs == [] then []
    else
      var n := |xs| - 1;
      Kept(xs[..n], names[..n], metric) + if Check(metric, names[n]) then [xs[n]] else []
  }

  lemma KeptMore(xs: seq<u64>, names: seq<Text>, metric: Text, x: u64, name: Text)
    requires |xs| == |names|
    ensures Kept(xs + [x], names + [name], metric) == Kept(xs, names, metric) + if Check(metric, name) then [x] else []
  {
    assert (xs + [x])[..|xs|] == xs && (names + [name])[..|xs|] == names;
  }

  /** Filtering by name takes out what only shares the hash. */
  lemma {:induction false} FilterIsExact(series: seq<Series>, hash: Text -> nat, metric: Text)
    requires SeriesGood(series)
    ensures
      var xs, names := Hashed(series, hash, hash(metric)), HashedNames(series, hash, hash(metric));
      |xs| == |names| && Kept(xs, names, metric) == WithMetric(series, metric)
    decreases |series|
  {
    hide ToWord, MetricOf;
    if series != [] {
      var n := |series| - 1;
      SeriesShorter(series);
      FilterIsExact(series[..n], hash, metric);
      var s, h := series[n], hash(metric);
      if hash(s.metric) == h {
        KeptMore(Hashed(series[..n], hash, h), HashedNames(series[..n], hash, h), metric, ToWord(s.id), s.name);
      } else {
        assert Hashed(series, hash, h) == Hashed(series[..n], hash, h);
        assert HashedNames(series, hash, h) == HashedNames(series[..n], hash, h);
      }
    }
  }

  /** The pool has these names under these ids. */
  ghost predicate NamedBy(pool: seq<Text>, xs: seq<u64>, names: seq<Text>) {
    |xs| == |names| && forall i :: 0 <= i < |xs| ==> NameIs(pool, ToId(xs[i]), names[i])
  }

  ghost predicate NameIs(pool: seq<Text>, id: nat, name: Text) {
    id / MAX_BIN_SIZE != 0 && StrIn(pool, id) == Some(name)
  }

  lemma {:induction false} HashedNamed(pool: seq<Text>, series: seq<Series>, hash: Text -> nat, h: nat)
    requires SeriesGood(series) && forall i :: 0 <= i < |series| ==> NameIs(pool, series[i].id, series[i].name)
    ensures NamedBy(pool, Hashed(series, hash, h), HashedNames(series, hash, h))
    decreases |series|
  {
    hide ToWord, ToId, NameIs, SeriesOk;
    if series != [] {
      var n := |series| - 1;
      SeriesShorter(series);
      LastBack(series);
      HashedNamed(pool, series[..n], hash, h);
    }
  }

  /** A query result: the bytes of a posting list. */
  datatype Results = Results(bytes: seq<u8>, count: nat)

  /** The step both passes make: one more id, with its name. */
  lemma KeptNext(pool: seq<Text>, xs: seq<u64>, names: seq<Text>, metric: Text, i: nat)
    requires NamedBy(pool, xs, names) && i < |xs|
    ensures ToId(xs[i]) / MAX_BIN_SIZE != 0 && StrIn(pool, ToId(xs[i])) == Some(names[i])
    ensures Kept(xs[..i + 1], names[..i + 1], metric) ==
      Kept(xs[..i], names[..i], metric) + if Check(metric, names[i]) then [xs[i]] else []
  {
    hide StrIn, ToId, Check;
    assert NameIs(pool, ToId(xs[i]), names[i]);
    assert xs[..i + 1] == xs[..i] + [xs[i]] && names[..i + 1] == names[..i] + [names[i]];
    KeptMore(xs[..i], names[..i], metric, xs[i], names[i]);
  }

  /** Looks for a name that fails the check. */
  method AnyFails(pool: StringPool, list: Results, metric: Text, ghost xs: seq<u64>, ghost names: seq<Text>)
    returns (rewrite: bool)
    requires list.bytes == Encode(xs, 0) && list.count == |xs| && NamedBy(pool.pool, xs, names)
    ensures !rewrite ==> Kept(xs, names, metric) == xs
  {
    hide Encode, ToId, Check, StrIn, NamedBy, Kept;
    NamedSize(pool.pool, xs, names);
    var it := new PListIterator(list.bytes, list.count, xs);
    KeptNone(metric);
    assert xs[..0] == [] && names[..0] == [];
    while it.pos < it.count
      invariant fresh(it) && it.Valid() && it.items == xs && it.count == |xs|
      invariant Kept(xs[..it.pos], names[..it.pos], metric) == xs[..it.pos]
      decreases it.count - it.pos
    {
      KeptNext(pool.pool, xs, names, metric, it.pos);
      var text := pool.Str(ToId(it.curr));
      if !Check(metric, text.value) {
        return true;
      }
      assert xs[..it.pos + 1] == xs[..it.pos] + [xs[it.pos]];
      it.Advance();
    }
    assert xs[..|xs|] == xs && names[..|xs|] == names;
    return false;
  }

  /** Builds the list without the failing names. */
  method Rewritten(pool: StringPool, list: Results, metric: Text, ghost xs: seq<u64>, ghost names: seq<Text>)
    returns (r: Results)
    requires list.bytes == Encode(xs, 0) && list.count == |xs| && NamedBy(pool.pool, xs, names)
    ensures |names| == |xs| && r.bytes == Encode(Kept(xs, names, metric), 0) && r.count == |Kept(xs, names, metric)|
  {
    hide Encode, ToId, Check, StrIn, NamedBy, Kept;
    NamedSize(pool.pool, xs, names);
    var out := new CompressedPList();
    var it := new PListIterator(list.bytes, list.count, xs);
    KeptNone(metric);
    assert xs[..0] == [] && names[..0] == [];
    while it.pos < it.count
      invariant fresh(it) && fresh(out) && it.Valid() && out.Valid() && it.items == xs && it.count == |xs|
      invariant out.items == Kept(xs[..it.pos], names[..it.pos], metric)
      decreases it.count - it.pos
    {
      KeptNext(pool.pool, xs, names, metric, it.pos);
      var text := pool.Str(ToId(it.curr));
      if Check(metric, text.value) {
        out.Add(it.curr);
      }
      it.Advance();
    }
    assert xs[..|xs|] == xs && names[..|xs|] == names;
    var bytes, count := out.Extract();
    r := Results(bytes, count);
  }

  lemma NamedSize(pool: seq<Text>, xs: seq<u64>, names: seq<Text>)
    requires NamedBy(pool, xs, names)
    ensures |xs| == |names|
  {}

  lemma KeptNone(metric: Text)
    ensures Kept([], [], metric) == []
  {}

  /** `filter` with one metric: a first pass looks for a name that fails, a second one builds the list without those. */
  method Filter(pool: StringPool, list: Results, metric: Text, ghost xs: seq<u64>, ghost names: seq<Text>)
    returns (r: Results)
    requires list.bytes == Encode(xs, 0) && list.count == |xs| && NamedBy(pool.pool, xs, names)
    ensures |names| == |xs| && r.bytes == Encode(Kept(xs, names, metric), 0) && r.count == |Kept(xs, names, metric)|
  {
    hide Encode, Kept, NamedBy;
    NamedSize(pool.pool, xs, names);
    r := list;
    var rewrite := AnyFails(pool, list, metric, xs, names);
    if rewrite {
      r := Rewritten(pool, list, metric, xs, names);
    }
  }

  // ----- The index

  class InvertedIndex {
    var table: map<nat, CompressedPList>

    /** The lists, and the key each one belongs to. */
    ghost var lists: set<CompressedPList>
    ghost var owner: map<CompressedPList, nat>

    ghost predicate Valid()
      reads this, lists
    {
      forall k :: k in table ==> Owned(table[k], k)
    }

    ghost predicate Owned(list: CompressedPList, key: nat)
      reads this, lists
    {
      list in lists && list.Valid() && list in owner && owner[list] == key
    }

    ghost function Items(key: nat): seq<u64>
      reads this, lists
    {
      if key in table && table[key] in lists then table[key].items else []
    }

    constructor ()
      ensures Valid() && table == map[] && lists == {}
    {
      table, lists, owner := map[], {}, map[];
    }

    method Add(key: nat, value: u64)
      requires Valid()
      modifies this, lists
      ensures Valid() && fresh(lists - old(lists))
      ensures forall k :: Items(k) == old(Items(k)) + if k == key then [value] else []
    {
      hide Encode;
      var list;
      if key !in table {
        list := new CompressedPList();
        table := table[key := list];
        lists, owner := lists + {list}, owner[list := key];
      } else {
        list := table[key];
        assert Owned(list, key);
      }
      list.Add(value);
      forall k | k in table && k != key ensures Owned(table[k], k) && table[k].items == old(table[k].items) {
        assert old(Owned(table[k], k));
      }
    }

    /** A copy of the list under a key, empty if there is none. */
    method Extract(key: nat) returns (r: Results)
      requires Valid()
      ensures r.bytes == Encode(Items(key), 0) && r.count == |Items(key)|
    {
      if key !in table {
        return Results([], 0);
      }
      assert Owned(table[key], key);
      var bytes, count := table[key].Extract();
      r := Results(bytes, count);
    }
  }

  datatype Status = Ok | BadData

  /** The pool holds the names of the series under their ids, in order. */
  ghost predicate Listed(stored: seq<Stored>, series: seq<Series>) {
    |stored| == |series| && forall i :: 0 <= i < |series| ==> stored[i] == Stored(series[i].id, series[i].name)
  }

  /** The table maps exactly the names of the series to their ids. */
  ghost predicate Tabled(table: map<Text, nat>, series: seq<Series>) {
    && (forall i :: 0 <= i < |series| ==> series[i].name in table && table[series[i].name] == series[i].id)
    && (forall name :: name in table ==> exists i :: 0 <= i < |series| && series[i].name == name)
  }

  lemma ListedMore(stored: seq<Stored>, series: seq<Series>, s: Series, table: map<Text, nat>)
    requires Listed(stored, series) && Tabled(table, series) && s.name !in table
    ensures Listed(stored + [Stored(s.id, s.name)], series + [s])
    ensures Tabled(table[s.name := s.id], series + [s])
  {
    var more := series + [s];
    var t := table[s.name := s.id];
    forall name | name in t ensures exists i :: 0 <= i < |more| && more[i].name == name {
      if name == s.name {
        assert more[|series|].name == name;
      } else {
        var i :| 0 <= i < |series| && series[i].name == name;
        assert more[i].name == name;
      }
    }
  }

  lemma ListedBelow(stored: seq<Stored>, series: seq<Series>, id: nat)
    requires Listed(stored, series) && forall i :: 0 <= i < |stored| ==> stored[i].id < id
    ensures forall i :: 0 <= i < |series| ==> series[i].id < id
  {
    forall i | 0 <= i < |series| ensures series[i].id < id {
      assert stored[i].id == series[i].id;
    }
  }

  class Index {
    const hash: Text -> nat
    const canonical: Text -> Option<Canonical>
    const pool: StringPool
    const metrics: InvertedIndex
    var table: map<Text, nat>

    ghost var series: seq<Series>

    ghost predicate Valid()
      reads this, pool, metrics, metrics.lists
    {
      && (forall s :: canonical(s).Some? ==> CanonicalGood(canonical(s).value))
      && pool.Valid() && metrics.Valid()
      && SeriesGood(series)
      && Listed(pool.stored, series)
      && Tabled(table, series)
      && (forall h :: metrics.Items(h) == Hashed(series, hash, h))
    }

    constructor (h: Text -> nat, canon: Text -> Option<Canonical>)
      requires forall s :: canon(s).Some? ==> CanonicalGood(canon(s).value)
      ensures Valid() && series == [] && fresh(pool) && fresh(metrics) && hash == h && canonical == canon
    {
      hash, canonical := h, canon;
      pool := new StringPool();
      metrics := new InvertedIndex();
      table, series := map[], [];
    }

    /** Adds a name, unless it is there already; the next id is larger than all before. */
    method Append(text: Text) returns (status: Status)
      requires Valid() && |pool.pool| <= 0xFFFF_FFF0
      modifies this, pool, metrics, metrics.lists
      ensures Valid() && fresh(metrics.lists - old(metrics.lists))
      ensures status == Ok <==> canonical(text).Some?
      ensures status != Ok || Name(canonical(text).value) in old(table) ==> series == old(series)
      ensures status == Ok && Name(canonical(text).value) !in old(table) ==>
        |series| == |old(series)| + 1 && series[..|old(series)|] == old(series) &&
        series[|old(series)|].name == Name(canonical(text).value) &&
        series[|old(series)|].metric == canonical(text).value.metric
    {
      hide Hashed, PoolGood, Listed, Tabled, SeriesGood, CanonicalGood, InvertedIndex.Valid;
      var c := canonical(text);
      if c == None {
        return BadData;
      }
      var name := Name(c.value);
      if name in table {
        return Ok;
      }
      AddName(name, c.value);
      return Ok;
    }

    /** Stores a new name and lists its id under the hash of its metric. */
    method AddName(name: Text, ghost c: Canonical)
      requires Valid() && |pool.pool| <= 0xFFFF_FFF0 && CanonicalGood(c) && name == Name(c) && name !in table
      modifies this, pool, metrics, metrics.lists
      ensures Valid() && fresh(metrics.lists - old(metrics.lists))
      ensures |series| == |old(series)| + 1 && series[..|old(series)|] == old(series)
      ensures series[|old(series)|].name == name && series[|old(series)|].metric == c.metric
    {
      hide Encode, Hashed, PoolGood, MetricOf, Listed, Tabled, SeriesGood, CanonicalGood, InvertedIndex.Valid;
      MetricOfName(c);
      CanonicalFacts(c);
      ghost var stored := pool.stored;
      var id := pool.Add(name);
      assert id != 0;
      IdFits(id, |pool.pool|);
      table := table[name := id];
      var metric := MetricOf(name);
      assert metric != [];
      ghost var s := Series(id, name, metric);
      ListedBelow(stored, series, id);
      ListedMore(stored, series, s, old(table));
      SeriesAdded(series, s);
      metrics.Add(hash(metric), ToWord(id));
      forall h
        ensures Hashed(series + [s], hash, h) ==
                Hashed(series, hash, h) + if hash(metric) == h then [ToWord(id)] else []
      {
        HashedMore(series, s, hash, h);
      }
      series := series + [s];
      assert series[|old(series)|] == s;
    }

    /** The posting list under the hash of the metric, collisions included. */
    method MetricQuery(metric: Text) returns (r: Results)
      requires Valid()
      ensures r.bytes == Encode(Hashed(series, hash, hash(metric)), 0)
      ensures r.count == |Hashed(series, hash, hash(metric))|
    {
      r := metrics.Extract(hash(metric));
    }

    /** `metric_query(m).filter(m)`: exactly the series with the metric, whatever the hash does. */
    method Find(metric: Text) returns (r: Results)
      requires Valid()
      ensures r.bytes == Encode(WithMetric(series, metric), 0) && r.count == |WithMetric(series, metric)|
    {
      hide Encode, CompressedPList.Valid;
      r := MetricQuery(metric);
      AllNamed();
      HashedNamed(pool.pool, series, hash, hash(metric));
      FilterIsExact(series, hash, metric);
      r := Filter(pool, r, metric, Hashed(series, hash, hash(metric)), HashedNames(series, hash, hash(metric)));
    }

    /** The ids that the filtered query decodes to: those of the stored series with the metric, rising, each once. */
    method FindIds(metric: Text) returns (ids: seq<u64>)
      requires Valid()
      ensures Rising(ids) && IdSet(ids) == MetricIds(series, metric)
    {
      hide Encode, WithMetric, Rising, IdSet, MetricIds;
      var r := Find(metric);
      WithMetricExact(series, metric);
      ids := Decode(r.bytes, r.count, WithMetric(series, metric));
    }

    lemma AllNamed()
      requires Valid()
      ensures forall i :: 0 <= i < |series| ==> NameIs(pool.pool, series[i].id, series[i].name)
    {
      hide CanonicalGood, CompressedPList.Valid, UpToNul;
      forall i | 0 <= i < |series| ensures NameIs(pool.pool, series[i].id, series[i].name) {
        assert SeriesOk(series[i]);
        pool.StrOfStored(i);
      }
    }
  }

  lemma CanonicalFacts(c: Canonical)
    requires CanonicalGood(c)
    ensures c.metric != [] && NoNul(Name(c))
  {}

  lemma IdFits(id: nat, bins: nat)
    requires id / MAX_BIN_SIZE <= bins <= 0xFFFF_FFF2
    ensures id < LIMIT
  {}

  lemma SeriesAdded(series: seq<Series>, s: Series)
    requires SeriesGood(series) && SeriesOk(s) && forall i :: 0 <= i < |series| ==> series[i].id < s.id
    ensures SeriesGood(series + [s])
  {
    hide SeriesOk;
  }

  lemma HashedMore(series: seq<Series>, s: Series, hash: Text -> nat, h: nat)
    requires SeriesGood(series + [s]) && SeriesGood(series) && s.id < LIMIT
    ensures Hashed(series + [s], hash, h) ==
            Hashed(series, hash, h) + if hash(s.metric) == h then [ToWord(s.id)] else []
  {
    assert (series + [s])[..|series|] == series;
  }
}
