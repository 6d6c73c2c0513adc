/** Strings with a terminating zero, packed into bins and addressed by bin and offset (`StringPool`). */
module StringPools {
  import opened Bits

  type Text = seq<u8>

  const MAX_BIN_SIZE := 0x100_0000

  /** A stored string and its address. */
  datatype Stored = Stored(id: nat, text: Text)

  predicate NoNul(s: Text) { forall i :: 0 <= i < |s| ==> s[i] != 0 }

  /** What a reader of a zero-terminated string sees. */
  function UpToNul(s: Text): (r: Text)
    ensures NoNul(r) && r <= s
  {
    if s == [] || s[0] == 0 then [] else [s[0]] + UpToNul(s[1..])
  }

  lemma {:induction false} Terminated(s: Text, rest: Text)
    ensures UpToNul(s + [0] + rest) == UpToNul(s)
    ensures UpToNul(s) == s <==> NoNul(s)
  {
    if s == [] {
      assert (s + [0] + rest)[0] == 0;
    } else {
      assert (s + [0] + rest)[0] == s[0] && (s + [0] + rest)[1..] == s[1..] + [0] + rest;
      Terminated(s[1..], rest);
      if NoNul(s) {
        assert s[0] != 0 && NoNul(s[1..]);
      }
    }
  }

  function MakeId(bin: nat, offset: nat): (id: nat)
    requires offset < MAX_BIN_SIZE
    ensures id / MAX_BIN_SIZE == bin && id % MAX_BIN_SIZE == offset
  {
    bin * MAX_BIN_SIZE + offset
  }

  /** The string lies at its address, with its zero behind it. */
  ghost predicate Placed(pool: seq<Text>, s: Stored) {
    var ix, off := s.id / MAX_BIN_SIZE, s.id % MAX_BIN_SIZE;
    && 1 <= ix <= |pool|
    && off + |s.text| < |pool[ix - 1]|
    && pool[ix - 1][off..off + |s.text| + 1] == s.text + [0]
  }

  ghost predicate PoolGood(pool: seq<Text>, stored: seq<Stored>) {
    && (forall i :: 0 <= i < |stored| ==> Placed(pool, stored[i]))
    && (forall i, j :: 0 <= i < j < |stored| ==> stored[i].id < stored[j].id)
  }

  /** The bins after a string was stored: in the last bin, or in a new one when it does not fit. */
  function Extended(pool: seq<Text>, s: Text): (seq<Text>, nat)
    requires pool != []
  {
    var n := |pool| - 1;
    if |pool[n]| + |s| + 1 > MAX_BIN_SIZE then (pool + [s + [0]], MakeId(|pool| + 1, 0))
    else (pool[n := pool[n] + s + [0]], MakeId(|pool|, |pool[n]|))
  }

  /** A string and its zero go into the last bin, if they fit into 16 MB with what is there, or else into a new one; the
      id is the number of the bin, counted from one, and the offset. */
  ghost predicate Packs(pool: seq<Text>, after: seq<Text>, s: Text, id: nat)
    requires pool != []
  {
    var (n, last) := (|pool|, pool[|pool| - 1]);
    if |last| + |s| + 1 <= 0x100_0000 then
      after == pool[n - 1 := last + s + [0]] && id == n * 0x100_0000 + |last|
    else
      after == pool + [s + [0]] && id == (n + 1) * 0x100_0000
  }

  lemma ExtendedPacks(pool: seq<Text>, s: Text)
    requires pool != []
    ensures Packs(pool, Extended(pool, s).0, s, Extended(pool, s).1)
  {}

  lemma PlacedStays(pool: seq<Text>, s: Text, old0: Stored)
    requires pool != [] && Placed(pool, old0)
    ensures Placed(Extended(pool, s).0, old0) && old0.id < Extended(pool, s).1
  {
    var ix, off := old0.id / MAX_BIN_SIZE, old0.id % MAX_BIN_SIZE;
    var next := Extended(pool, s).0;
    assert next[ix - 1][..|pool[ix - 1]|] == pool[ix - 1];
    assert next[ix - 1][off..off + |old0.text| + 1] == pool[ix - 1][off..off + |old0.text| + 1];
    IdOrder(old0.id, Extended(pool, s).1);
  }

  lemma IdOrder(a: nat, b: nat)
    requires || a / MAX_BIN_SIZE < b / MAX_BIN_SIZE
             || (a / MAX_BIN_SIZE == b / MAX_BIN_SIZE && a % MAX_BIN_SIZE < b % MAX_BIN_SIZE)
    ensures a < b
  {}

  lemma PlacedNew(pool: seq<Text>, s: Text)
    requires pool != []
    ensures Placed(Extended(pool, s).0, Stored(Extended(pool, s).1, s))
  {
    var n := |pool| - 1;
    if |pool[n]| + |s| + 1 <= MAX_BIN_SIZE {
      var bin := pool[n] + s + [0];
      assert bin[|pool[n]|..|pool[n]| + |s| + 1] == s + [0];
    } else {
      assert (s + [0])[0..|s| + 1] == s + [0];
    }
  }

  /** The string at an address, up to its first zero; `None` for an address outside the pool. */
  function StrIn(pool: seq<Text>, bits: nat): Option<Text>
    requires bits / MAX_BIN_SIZE != 0
  {
    var ix, offset := bits / MAX_BIN_SIZE, bits % MAX_BIN_SIZE;
    if ix <= |pool| && offset < |pool[ix - 1]| then Some(UpToNul(pool[ix - 1][offset..])) else None
  }

  class StringPool {
    var pool: seq<Text>
    var counter: nat

    ghost var stored: seq<Stored>

    ghost predicate Valid()
      reads this
    {
      PoolGood(pool, stored) && counter == |stored|
    }

    constructor ()
      ensures Valid() && stored == [] && pool == []
    {
      pool, counter, stored := [], 0, [];
    }

    /** Stores a string; its id is larger than every id before. The empty string is not stored and gets 0. */
    method Add(s: Text) returns (id: nat)
      requires Valid()
      modifies this
      ensures Valid()
      ensures s == [] ==> id == 0 && stored == old(stored)
      ensures s != [] ==> id > 0 && stored == old(stored) + [Stored(id, s)]
      ensures s != [] ==> forall i :: 0 <= i < |old(stored)| ==> old(stored)[i].id < id
      ensures |old(pool)| <= |pool| <= |old(pool)| + 2 && id / MAX_BIN_SIZE <= |pool|
      ensures s != [] ==> Packs(if old(pool) == [] then [[]] else old(pool), pool, s, id)
    {
      hide Placed, Packs;
      if pool == [] {
        NothingPlaced(stored);
        pool := [[]];
      }
      if s == [] {
        return 0;
      }
      ghost var before := pool;
      var index := |pool|;
      if |pool[|pool| - 1]| + |s| + 1 > MAX_BIN_SIZE {
        pool := pool + [[]];
        index := |pool|;
      }
      var offset := |pool[index - 1]|;
      var bin := pool[index - 1];
      for i := 0 to |s|
        invariant bin == pool[index - 1] + s[..i]
        modifies {}
      {
        bin := bin + [s[i]];
      }
      bin := bin + [0];
      pool := pool[index - 1 := bin];
      id := MakeId(index, offset);
      counter := counter + 1;
      assert s[..|s|] == s;
      if index > |before| {
        assert bin == s + [0];
        assert pool == before + [s + [0]];
      }
      assert pool == Extended(before, s).0;
      assert id == Extended(before, s).1;
      PlacedNew(before, s);
      ExtendedPacks(before, s);
      forall i | 0 <= i < |stored| ensures Placed(pool, stored[i]) && stored[i].id < id {
        PlacedStays(before, s, stored[i]);
      }
      stored := stored + [Stored(id, s)];
    }

    function Str(bits: nat): Option<Text>
      reads this
      requires bits / MAX_BIN_SIZE != 0
    {
      StrIn(pool, bits)
    }

    /** A stored string is found again exactly as far as it is free of zeros. */
    lemma StrOfStored(i: nat)
      requires Valid() && i < |stored|
      ensures stored[i].id / MAX_BIN_SIZE != 0
      ensures Str(stored[i].id) == Some(UpToNul(stored[i].text))
      ensures Str(stored[i].id) == Some(stored[i].text) <==> NoNul(stored[i].text)
    {
      var s := stored[i];
      assert Placed(pool, s);
      var bin, off := pool[s.id / MAX_BIN_SIZE - 1], s.id % MAX_BIN_SIZE;
      var rest := bin[off + |s.text| + 1..];
      assert bin[off..] == bin[off..off + |s.text| + 1] + rest;
      assert bin[off..] == s.text + [0] + rest;
      Terminated(s.text, rest);
    }
  }

  lemma NothingPlaced(stored: seq<Stored>)
    requires PoolGood([], stored)
    ensures stored == []
  {
    if stored != [] {
      NotPlaced(stored[0]);
    }
  }

  lemma NotPlaced(s: Stored)
    ensures !Placed([], s)
  {}
}
