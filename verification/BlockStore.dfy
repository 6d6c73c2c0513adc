/** The fixed-size block store: a ring of volumes addressed by generation and block (`FixedSizeFileStorage`). */
module BlockStore {
  import opened Bits

  type Block = seq<u8>

  const U32 := 0x1_0000_0000

  /** A file of blocks and its write position; a reset only moves the position. */
  datatype Volume = Volume(file: seq<Block>, pos: nat)

  /** The entry of a volume in the metadata. */
  datatype Meta = Meta(generation: nat, nblocks: nat)

  datatype Status = Ok | Overflow | Unavailable | BadArg

  /** A block that was stored, and the address returned for it. */
  datatype Stored = Stored(addr: nat, block: Block)

  // ----- Addresses

  function ExtractGen(addr: nat): nat { addr / U32 }

  function ExtractVol(addr: nat): nat { addr % U32 }

  function MakeLogic(gen: nat, block: nat): (addr: nat)
    requires block < U32
    ensures ExtractGen(addr) == gen && ExtractVol(addr) == block
  {
    gen * U32 + block
  }

  lemma AddressOrder(g1: nat, b1: nat, g2: nat, b2: nat)
    requires b1 < U32 && b2 < U32
    ensures MakeLogic(g1, b1) < MakeLogic(g2, b2) <==> g1 < g2 || (g1 == g2 && b1 < b2)
  {}

  // ----- The ring

  /** Volume `i` after `round` full turns with `cur` in use; volumes without capacity never change. */
  ghost predicate VolumeInTurn(n: nat, i: nat, cur: nat, round: nat, v: Volume, m: Meta)
    requires n > 0
  {
    && m.nblocks == v.pos <= |v.file| < U32
    && m.generation % n == i
    && if |v.file| == 0 then m.generation == i
       else if i < cur then m.generation == i + n * round && m.nblocks == |v.file|
       else if i == cur then m.generation == i + n * round
       else if round == 0 then m.generation == i && m.nblocks == 0
       else m.generation == i + n * (round - 1) && m.nblocks == |v.file|
  }

  ghost predicate Ring(volumes: seq<Volume>, meta: seq<Meta>, cur: nat, round: nat) {
    && |meta| == |volumes| > cur
    && forall i :: 0 <= i < |volumes| ==> VolumeInTurn(|volumes|, i, cur, round, volumes[i], meta[i])
  }

  /** A stored block: still there under its address, or its volume has a later generation. */
  ghost predicate Kept(volumes: seq<Volume>, meta: seq<Meta>, s: Stored)
    requires |meta| == |volumes| > 0
  {
    var g, b := ExtractGen(s.addr), ExtractVol(s.addr);
    var v := g % |volumes|;
    || meta[v].generation > g
    || (meta[v].generation == g && b < meta[v].nblocks && b < |volumes[v].file| && volumes[v].file[b] == s.block)
  }

  /** Every live slot is the slot of a stored block. */
  ghost predicate Covered(meta: seq<Meta>, log: seq<Stored>) {
    forall v, b :: 0 <= v < |meta| && 0 <= b < meta[v].nblocks < U32 ==> InLog(log, MakeLogic(meta[v].generation, b))
  }

  ghost predicate InLog(log: seq<Stored>, addr: nat) {
    exists k :: 0 <= k < |log| && log[k].addr == addr
  }

  /** All addresses so far lie below the slot that is written next. */
  ghost predicate LogBelow(log: seq<Stored>, gen: nat, block: nat) {
    forall k :: 0 <= k < |log| ==>
      || ExtractGen(log[k].addr) < gen
      || (ExtractGen(log[k].addr) == gen && ExtractVol(log[k].addr) < block)
  }

  ghost predicate LogRising(log: seq<Stored>) {
    forall j, k :: 0 <= j < k < |log| ==> log[j].addr < log[k].addr
  }

  ghost predicate StoreGood(volumes: seq<Volume>, meta: seq<Meta>, cur: nat, round: nat, log: seq<Stored>) {
    && Ring(volumes, meta, cur, round)
    && (forall k :: 0 <= k < |log| ==> Kept(volumes, meta, log[k]))
    && Covered(meta, log)
    && LogBelow(log, cur + |volumes| * round, meta[cur].nblocks)
    && LogRising(log)
  }

  /** The number of full turns after moving on from `cur`. */
  function NextRound(n: nat, cur: nat, round: nat): nat { if cur + 1 == n then round + 1 else round }

  /** The next volume in the ring. */
  function Next(n: nat, cur: nat): (r: nat)
    requires cur < n
    ensures r == if cur + 1 == n then 0 else cur + 1
  {
    (cur + 1) % n
  }

  lemma NextSlot(n: nat, cur: nat, round: nat)
    requires cur < n
    ensures Next(n, cur) + n * NextRound(n, cur, round) == cur + n * round + 1
  {
    if cur + 1 == n {
      assert n * (round + 1) == n * round + n;
    }
  }

  lemma GenMod(n: nat, i: nat, k: nat)
    requires i < n
    ensures (i + n * k) % n == i
  {
    ModMore(n, i, k);
  }

  lemma {:induction false} ModMore(n: nat, i: nat, k: nat)
    requires i < n
    ensures (i + n * k) % n == i
    decreases k
  {
    if k > 0 {
      ModMore(n, i, k - 1);
      assert i + n * k == (i + n * (k - 1)) + n;
      AddMod(n, i + n * (k - 1));
    }
  }

  lemma AddMod(n: nat, x: nat)
    requires n > 0
    ensures (x + n) % n == x % n
  {
    var q := x / n;
    Succ(q, n);
    DivUnique(n, x + n, q + 1, x % n);
  }

  lemma DivUnique(n: nat, x: nat, q: nat, r: nat)
    requires n > 0 && x == q * n + r && r < n
    ensures x % n == r
  {
    var q2, r2 := x / n, x % n;
    assert x == q2 * n + r2;
    if q2 < q {
      MulStep(q2, q, n);
    } else if q < q2 {
      MulStep(q, q2, n);
    }
  }

  lemma {:induction false} MulStep(a: nat, b: nat, n: nat)
    requires a < b
    ensures a * n + n <= b * n
    decreases b
  {
    Succ(b - 1, n);
    if a < b - 1 {
      MulStep(a, b - 1, n);
    }
  }

  lemma Succ(b: nat, n: nat)
    ensures (b + 1) * n == b * n + n
  {}

  // ----- Steps

  function Recycled(v: Volume, m: Meta, n: nat): (Volume, Meta) {
    if m.nblocks != 0 then (v.(pos := 0), Meta(m.generation + n, 0)) else (v, m)
  }

  /** Moving on from a full volume keeps the ring in turn. */
  lemma RingTurns(volumes: seq<Volume>, meta: seq<Meta>, cur: nat, round: nat)
    requires Ring(volumes, meta, cur, round) && meta[cur].nblocks == |volumes[cur].file|
    ensures
      var n := |volumes|;
      var next := Next(n, cur);
      var (v, m) := Recycled(volumes[next], meta[next], n);
      Ring(volumes[next := v], meta[next := m], next, NextRound(n, cur, round))
  {
    var n := |volumes|;
    var next := Next(n, cur);
    NextSlot(n, cur, round);
    var (v, m) := Recycled(volumes[next], meta[next], n);
    var vs, ms, r := volumes[next := v], meta[next := m], NextRound(n, cur, round);
    forall i | 0 <= i < n ensures VolumeInTurn(n, i, next, r, vs[i], ms[i]) {
      assert VolumeInTurn(n, i, cur, round, volumes[i], meta[i]);
      if i == next {
        AddMod(n, meta[i].generation);
        TurnGeneration(n, i, round);
      }
    }
  }

  lemma TurnGeneration(n: nat, i: nat, round: nat)
    ensures i + n * round + n == i + n * (round + 1)
    ensures round > 0 ==> i + n * (round - 1) + n == i + n * round
  {}

  lemma Transition(volumes: seq<Volume>, meta: seq<Meta>, cur: nat, round: nat, log: seq<Stored>)
    requires StoreGood(volumes, meta, cur, round, log) && meta[cur].nblocks == |volumes[cur].file|
    ensures
      var n := |volumes|;
      var next := Next(n, cur);
      var (v, m) := Recycled(volumes[next], meta[next], n);
      StoreGood(volumes[next := v], meta[next := m], next, NextRound(n, cur, round), log)
  {
    hide VolumeInTurn;
    var n := |volumes|;
    var next := Next(n, cur);
    NextSlot(n, cur, round);
    RingTurns(volumes, meta, cur, round);
    var (v, m) := Recycled(volumes[next], meta[next], n);
    var vs, ms := volumes[next := v], meta[next := m];
    forall k | 0 <= k < |log| ensures Kept(vs, ms, log[k]) {
      assert Kept(volumes, meta, log[k]);
    }
  }

  lemma InLogMore(log: seq<Stored>, s: Stored, addr: nat)
    requires InLog(log, addr) || addr == s.addr
    ensures InLog(log + [s], addr)
  {
    if InLog(log, addr) {
      var k :| 0 <= k < |log| && log[k].addr == addr;
      assert (log + [s])[k].addr == addr;
    } else {
      assert (log + [s])[|log|] == s;
    }
  }

  /** The volume in use takes one more block. */
  lemma Appended(volumes: seq<Volume>, meta: seq<Meta>, cur: nat, round: nat, log: seq<Stored>, block: Block)
    requires StoreGood(volumes, meta, cur, round, log) && volumes[cur].pos < |volumes[cur].file|
    ensures volumes[cur].pos < U32 && meta[cur].generation == cur + |volumes| * round
    ensures
      var v := volumes[cur];
      var vs := volumes[cur := Volume(v.file[v.pos := block], v.pos + 1)];
      var ms := meta[cur := meta[cur].(nblocks := v.pos + 1)];
      StoreGood(vs, ms, cur, round, log + [Stored(MakeLogic(meta[cur].generation, v.pos), block)])
  {
    hide ExtractGen, ExtractVol, MakeLogic;
    var n, v := |volumes|, volumes[cur];
    var vs := volumes[cur := Volume(v.file[v.pos := block], v.pos + 1)];
    var ms := meta[cur := meta[cur].(nblocks := v.pos + 1)];
    assert VolumeInTurn(n, cur, cur, round, v, meta[cur]);
    var s := Stored(MakeLogic(meta[cur].generation, v.pos), block);
    forall i | 0 <= i < n ensures VolumeInTurn(n, i, cur, round, vs[i], ms[i]) {
      assert VolumeInTurn(n, i, cur, round, volumes[i], meta[i]);
    }
    assert Kept(vs, ms, s);
    forall k | 0 <= k < |log| ensures Kept(vs, ms, log[k]) && log[k].addr < s.addr {
      assert Kept(volumes, meta, log[k]);
      SplitAddress(log[k].addr);
      AddressOrder(ExtractGen(log[k].addr), ExtractVol(log[k].addr), meta[cur].generation, v.pos);
    }
    forall w, b | 0 <= w < |ms| && 0 <= b < ms[w].nblocks < U32
      ensures InLog(log + [s], MakeLogic(ms[w].generation, b))
    {
      if w != cur || b < v.pos {
        assert InLog(log, MakeLogic(meta[w].generation, b));
      }
      InLogMore(log, s, MakeLogic(ms[w].generation, b));
    }
  }

  lemma SplitAddress(addr: nat)
    ensures ExtractVol(addr) < U32 && MakeLogic(ExtractGen(addr), ExtractVol(addr)) == addr
  {}

  lemma CurrentInTurn(volumes: seq<Volume>, meta: seq<Meta>, cur: nat, round: nat, log: seq<Stored>)
    requires StoreGood(volumes, meta, cur, round, log)
    ensures cur < |meta| == |volumes| && meta[cur].nblocks == volumes[cur].pos <= |volumes[cur].file| < U32
  {
    hide Kept, Covered, LogBelow, LogRising;
    assert VolumeInTurn(|volumes|, cur, cur, round, volumes[cur], meta[cur]);
  }

  // ----- The store as a value, and its runs

  /** The store, with the turns of the ring, the blocks stored so far, and whether the generation counter wrapped. */
  datatype State = State(volumes: seq<Volume>, meta: seq<Meta>, cur: nat, gen: nat,
                         round: nat, log: seq<Stored>, wrapped: bool)

  predicate Shape(s: State) {
    && |s.meta| == |s.volumes| > s.cur && s.gen < U32
    && forall i :: 0 <= i < |s.volumes| ==>
         s.volumes[i].pos <= |s.volumes[i].file| < U32 && s.meta[i].generation < U32
  }

  /** Until the counter wraps, the ring is in turn and every stored block is there or recycled. */
  ghost predicate Sound(s: State) {
    && Shape(s)
    && (!s.wrapped ==> StoreGood(s.volumes, s.meta, s.cur, s.round, s.log) && s.gen == s.meta[s.cur].generation)
  }

  predicate IsFull(s: State)
    requires Shape(s)
  {
    s.volumes[s.cur].pos >= |s.volumes[s.cur].file|
  }

  /** `handle_volume_transition`. */
  function Turn(s: State): (r: State)
    requires Shape(s)
    ensures Shape(r) && SameVolumes(s, r) && r.log == s.log && (s.wrapped ==> r.wrapped)
    ensures r.cur == Next(|s.volumes|, s.cur)
  {
    var n := |s.volumes|;
    var next := Next(n, s.cur);
    var m := s.meta[next];
    var t := s.(cur := next, gen := m.generation, round := NextRound(n, s.cur, s.round));
    if m.nblocks == 0 then t
    else
      var g := (m.generation + n) % U32;
      t.(volumes := s.volumes[next := s.volumes[next].(pos := 0)], meta := s.meta[next := Meta(g, 0)], gen := g,
         wrapped := s.wrapped || m.generation + n >= U32)
  }

  predicate SameVolumes(s: State, r: State) {
    |r.volumes| == |s.volumes| && forall i :: 0 <= i < |s.volumes| ==> |r.volumes[i].file| == |s.volumes[i].file|
  }

  /** A block written at the position of the volume in use. */
  function Place(s: State, data: Block): (r: State)
    requires Shape(s) && !IsFull(s)
    ensures Shape(r) && SameVolumes(s, r) && r.cur == s.cur && r.gen == s.gen && r.wrapped == s.wrapped
  {
    var v := s.volumes[s.cur];
    s.(volumes := s.volumes[s.cur := Volume(v.file[v.pos := data], v.pos + 1)],
       meta := s.meta[s.cur := s.meta[s.cur].(nblocks := v.pos + 1)],
       log := s.log + [Stored(MakeLogic(s.gen, v.pos), data)])
  }

  /** `append_block`: the store afterwards; it may still be full, and then nothing was stored. */
  function AppendTo(s: State, data: Block): (r: State)
    requires Shape(s)
    ensures Shape(r) && SameVolumes(s, r) && (s.wrapped ==> r.wrapped)
  {
    var t := if IsFull(s) then Turn(s) else s;
    if IsFull(t) then t else Place(t, data)
  }

  /** The first volume with room from `i` on, or volume 0 if there is none. */
  function FirstRoom(files: seq<seq<Block>>, i: nat): (k: nat)
    requires i <= |files| && forall j :: 0 <= j < i ==> |files[j]| == 0
    ensures files != [] ==> k < |files|
    ensures k > 0 ==> k < |files| && |files[k]| > 0
    ensures k <= |files| && forall j :: 0 <= j < k ==> |files[j]| == 0
    ensures forall j :: 0 <= j < |files| && |files[j]| > 0 ==> |files[k]| > 0
    decreases |files| - i
  {
    if i == |files| then 0 else if |files[i]| > 0 then i else FirstRoom(files, i + 1)
  }

  /** A fresh store: volume `i` is empty and has generation `i`; the first one with room is in use. */
  function Fresh(files: seq<seq<Block>>): (s: State)
    requires 0 < |files| <= U32 && forall i :: 0 <= i < |files| ==> |files[i]| < U32
    ensures Shape(s)
  {
    var k := FirstRoom(files, 0);
    State(seq(|files|, i requires 0 <= i < |files| => Volume(files[i], 0)),
          seq(|files|, i requires 0 <= i < |files| => Meta(i, 0)), k, k, 0, [], false)
  }

  predicate FilesOk(files: seq<seq<Block>>) {
    0 < |files| <= U32 && forall i :: 0 <= i < |files| ==> |files[i]| < U32
  }

  /** A fresh store after these appends. */
  function After(files: seq<seq<Block>>, blocks: seq<Block>): (s: State)
    requires FilesOk(files)
    ensures Shape(s)
  {
    if blocks == [] then Fresh(files) else AppendTo(After(files, blocks[..|blocks| - 1]), blocks[|blocks| - 1])
  }

  lemma AfterSnoc(files: seq<seq<Block>>, blocks: seq<Block>, b: Block)
    requires FilesOk(files)
    ensures After(files, blocks + [b]) == AppendTo(After(files, blocks), b)
  {
    assert (blocks + [b])[..|blocks|] == blocks;
  }

  lemma FreshSound(files: seq<seq<Block>>)
    requires FilesOk(files)
    ensures Sound(Fresh(files))
  {
    var s := Fresh(files);
    forall i | 0 <= i < |files| ensures VolumeInTurn(|files|, i, s.cur, 0, s.volumes[i], s.meta[i]) {
      GenMod(|files|, i, 0);
    }
  }

  lemma TurnWithoutWrap(s: State)
    requires Shape(s) && !Turn(s).wrapped
    ensures var n := |s.volumes|;
            var next := Next(n, s.cur);
            var (v, m) := Recycled(s.volumes[next], s.meta[next], n);
            Turn(s) == State(s.volumes[next := v], s.meta[next := m], next, m.generation, NextRound(n, s.cur, s.round),
                             s.log, false)
  {
    var next := Next(|s.volumes|, s.cur);
    assert s.volumes[next := s.volumes[next]] == s.volumes && s.meta[next := s.meta[next]] == s.meta;
  }

  lemma TurnSound(s: State)
    requires Sound(s) && IsFull(s)
    ensures Sound(Turn(s))
    ensures !Turn(s).wrapped ==> forall i :: 0 <= i < |s.meta| ==> Turn(s).meta[i].generation >= s.meta[i].generation
    ensures !Turn(s).wrapped ==> Turn(s).volumes[Turn(s).cur].pos == 0
  {
    hide StoreGood, Turn, Next;
    if !Turn(s).wrapped {
      TurnWithoutWrap(s);
      CurrentInTurn(s.volumes, s.meta, s.cur, s.round, s.log);
      InTurn(s, Next(|s.volumes|, s.cur));
      Transition(s.volumes, s.meta, s.cur, s.round, s.log);
    }
  }

  lemma PlaceSound(s: State, data: Block)
    requires Sound(s) && !IsFull(s)
    ensures Sound(Place(s, data))
  {
    hide StoreGood, MakeLogic;
    if !s.wrapped {
      Appended(s.volumes, s.meta, s.cur, s.round, s.log, data);
    }
  }

  lemma AppendSound(s: State, data: Block)
    requires Sound(s)
    ensures Sound(AppendTo(s, data))
  {
    hide StoreGood, Turn, Place;
    var t := if IsFull(s) then Turn(s) else s;
    if IsFull(s) {
      TurnSound(s);
    }
    if !IsFull(t) {
      PlaceSound(t, data);
    }
  }

  lemma {:induction false} RunSound(files: seq<seq<Block>>, blocks: seq<Block>)
    requires FilesOk(files)
    ensures Sound(After(files, blocks))
  {
    hide Sound, Fresh, AppendTo, FilesOk;
    if blocks == [] {
      FreshSound(files);
    } else {
      RunSound(files, blocks[..|blocks| - 1]);
      AppendSound(After(files, blocks[..|blocks| - 1]), blocks[|blocks| - 1]);
    }
  }

  lemma Rising(volumes: seq<Volume>, meta: seq<Meta>, cur: nat, round: nat, log: seq<Stored>)
    requires StoreGood(volumes, meta, cur, round, log)
    ensures LogRising(log)
  {}

  class FixedSizeFileStorage {
    var volumes: seq<Volume>
    var meta: seq<Meta>
    var currentVolume: nat
    var currentGen: nat

    /** Turns of the ring, the blocks stored so far, and whether the generation counter has wrapped. */
    ghost var round: nat
    ghost var log: seq<Stored>
    ghost var wrapped: bool

    ghost function View(): State
      reads this
    {
      State(volumes, meta, currentVolume, currentGen, round, log, wrapped)
    }

    ghost predicate Valid()
      reads this
    {
      Sound(View())
    }

    /** A fresh store; the first volume with room is in use. */
    constructor (files: seq<seq<Block>>)
      requires FilesOk(files)
      ensures Valid() && View() == Fresh(files)
      ensures currentVolume < |files| && forall j :: 0 <= j < currentVolume ==> |files[j]| == 0
      ensures forall j :: 0 <= j < |files| && |files[j]| > 0 ==> |files[currentVolume]| > 0
    {
      volumes := seq(|files|, i requires 0 <= i < |files| => Volume(files[i], 0));
      meta := seq(|files|, i requires 0 <= i < |files| => Meta(i, 0));
      var k := 0;
      while k < |files| && |files[k]| == 0
        invariant k <= |files| && (forall j :: 0 <= j < k ==> |files[j]| == 0)
        invariant FirstRoom(files, k) == FirstRoom(files, 0)
      {
        k := k + 1;
      }
      k := if k == |files| then 0 else k;
      currentVolume, currentGen := k, k;
      round, log, wrapped := 0, [], false;
      new;
      assert View() == Fresh(files);
      FreshSound(files);
    }

    method HandleVolumeTransition()
      requires Valid() && IsFull(View())
      modifies this
      ensures Valid() && View() == Turn(old(View()))
      ensures !wrapped ==> forall i :: 0 <= i < |volumes| ==> meta[i].generation >= old(meta)[i].generation
      ensures !wrapped ==> volumes[currentVolume].pos == 0
      ensures !wrapped && |volumes[currentVolume].file| > 0 && |volumes[old(currentVolume)].file| > 0 ==>
                currentGen == old(currentGen) + 1
    {
      hide Sound, Next;
      TurnFacts(View());
      round := NextRound(|volumes|, currentVolume, round);
      currentVolume := Next(|volumes|, currentVolume);
      currentGen := meta[currentVolume].generation;
      var nblocks := meta[currentVolume].nblocks;
      if nblocks != 0 {
        wrapped := wrapped || currentGen + |volumes| >= U32;
        currentGen := (currentGen + |volumes|) % U32;
        meta := meta[currentVolume := Meta(currentGen, nblocks)];
        meta := meta[currentVolume := Meta(currentGen, 0)];
        assert meta == old(meta)[currentVolume := Meta(currentGen, 0)];
        volumes := volumes[currentVolume := volumes[currentVolume].(pos := 0)];
      }
    }

    /** Stores a block; the address is above all addresses given out before. */
    method AppendBlock(data: Block) returns (status: Status, addr: nat)
      requires Valid()
      modifies this
      ensures Valid() && View() == AppendTo(old(View()), data)
      ensures status == (if log == old(log) then Overflow else Ok)
      ensures status == Ok ==> log == old(log) + [Stored(addr, data)]
      ensures !wrapped && status == Overflow ==> |volumes[currentVolume].file| == 0
      ensures !wrapped && status == Ok ==> forall k :: 0 <= k < |old(log)| ==> old(log)[k].addr < addr
      ensures !wrapped ==> |meta| == |old(meta)| && forall i :: 0 <= i < |meta| ==>
                meta[i].generation >= old(meta)[i].generation
      ensures !wrapped ==> forall a: nat :: old(Gone(meta, a)) ==> Gone(meta, a)
    {
      hide StoreGood, Turn, Place;
      status, addr := Ok, 0;
      if volumes[currentVolume].pos >= |volumes[currentVolume].file| {
        HandleVolumeTransition();
        if volumes[currentVolume].pos >= |volumes[currentVolume].file| {
          return Overflow, 0;
        }
      }
      addr := Put(data);
    }

    /** Writes at the position of the volume in use. */
    method Put(data: Block) returns (addr: nat)
      requires Valid() && !IsFull(View())
      modifies this`volumes, this`meta, this`log
      ensures Valid() && View() == Place(old(View()), data) && log == old(log) + [Stored(addr, data)]
      ensures |meta| == |old(meta)| && forall i :: 0 <= i < |meta| ==> meta[i].generation == old(meta)[i].generation
      ensures !wrapped ==> forall k :: 0 <= k < |old(log)| ==> old(log)[k].addr < addr
    {
      hide StoreGood, MakeLogic;
      PlaceSound(View(), data);
      var v := volumes[currentVolume];
      volumes := volumes[currentVolume := Volume(v.file[v.pos := data], v.pos + 1)];
      meta := meta[currentVolume := meta[currentVolume].(nblocks := v.pos + 1)];
      addr := MakeLogic(currentGen, v.pos);
      log := log + [Stored(addr, data)];
      if !wrapped {
        Rising(volumes, meta, currentVolume, round, log);
        assert log[|old(log)|].addr == addr;
        assert forall k :: 0 <= k < |old(log)| ==> log[k] == old(log)[k];
      }
    }

    /** An address exists exactly when a block was stored under it and its volume was not recycled since. */
    method Exists(addr: nat) returns (yes: bool)
      requires Valid()
      ensures !wrapped ==> (yes <==> InLog(log, addr) && !Gone(meta, addr))
    {
      hide StoreGood, MakeLogic, ExtractGen, ExtractVol;
      var gen, vol := ExtractGen(addr), ExtractVol(addr);
      var volix := gen % |volumes|;
      if !wrapped {
        Lookup(volumes, meta, currentVolume, round, log, addr);
      }
      yes := meta[volix].generation == gen && vol < meta[volix].nblocks;
    }

    /** A stored block is read back until its volume is recycled; then, and for any other address, it is unavailable. */
    method ReadIovecBlock(addr: nat) returns (status: Status, block: Block)
      requires Valid()
      ensures !wrapped ==> forall k :: 0 <= k < |log| && log[k].addr == addr ==>
        if Gone(meta, addr) then status == Unavailable else status == Ok && block == log[k].block
      ensures !wrapped && !InLog(log, addr) ==> status == Unavailable
    {
      hide StoreGood, MakeLogic, ExtractGen, ExtractVol;
      var gen, vol := ExtractGen(addr), ExtractVol(addr);
      var volix := gen % |volumes|;
      if !wrapped {
        Lookup(volumes, meta, currentVolume, round, log, addr);
      }
      if meta[volix].generation != gen || vol >= meta[volix].nblocks {
        return Unavailable, [];
      }
      if vol >= volumes[volix].pos {
        return BadArg, [];
      }
      return Ok, volumes[volix].file[vol];
    }
  }

  /** The volume of the address has a later generation. */
  ghost predicate Gone(meta: seq<Meta>, addr: nat) {
    |meta| > 0 && meta[ExtractGen(addr) % |meta|].generation > ExtractGen(addr)
  }

  lemma Lookup(volumes: seq<Volume>, meta: seq<Meta>, cur: nat, round: nat, log: seq<Stored>, addr: nat)
    requires StoreGood(volumes, meta, cur, round, log)
    ensures
      var gen, vol := ExtractGen(addr), ExtractVol(addr);
      var v := gen % |volumes|;
      && |meta| == |volumes|
      && meta[v].nblocks == volumes[v].pos <= |volumes[v].file|
      && (meta[v].generation == gen && vol < meta[v].nblocks <==> InLog(log, addr) && !Gone(meta, addr))
      && forall k :: 0 <= k < |log| && log[k].addr == addr && !Gone(meta, addr) ==>
           vol < |volumes[v].file| && volumes[v].file[vol] == log[k].block
  {
    hide LogBelow, LogRising, ExtractGen, ExtractVol, MakeLogic;
    var gen, vol := ExtractGen(addr), ExtractVol(addr);
    var v := gen % |volumes|;
    assert VolumeInTurn(|volumes|, v, cur, round, volumes[v], meta[v]);
    SplitAddress(addr);
    forall k | 0 <= k < |log| && log[k].addr == addr ensures Kept(volumes, meta, log[k]) {
    }
    if meta[v].generation == gen && vol < meta[v].nblocks {
      assert InLog(log, MakeLogic(meta[v].generation, vol));
    }
  }

  // ----- When the generation rises by one

  /** In every run, every transition before the counter wraps raises the generation by exactly one. */
  ghost predicate RisesByOne(files: seq<seq<Block>>)
    requires FilesOk(files)
  {
    forall blocks, b :: RoseByOne(files, blocks, b)
  }

  ghost predicate RoseByOne(files: seq<seq<Block>>, blocks: seq<Block>, b: Block)
    requires FilesOk(files)
  {
    var s := After(files, blocks);
    IsFull(s) && !After(files, blocks + [b]).wrapped ==> After(files, blocks + [b]).gen == s.gen + 1
  }

  /** Every volume has capacity, except those that the counter wraps before reaching a second time. */
  predicate Capacious(files: seq<seq<Block>>) {
    forall i :: 0 <= i < |files| ==> |files[i]| > 0 || |files| + i > U32
  }

  ghost predicate OfFiles(s: State, files: seq<seq<Block>>) {
    |s.volumes| == |files| && forall i :: 0 <= i < |files| ==> |s.volumes[i].file| == |files[i]|
  }

  lemma {:induction false} RunFiles(files: seq<seq<Block>>, blocks: seq<Block>)
    requires FilesOk(files)
    ensures OfFiles(After(files, blocks), files)
  {
    hide AppendTo, FilesOk;
    if blocks != [] {
      RunFiles(files, blocks[..|blocks| - 1]);
    }
  }

  /** The state of a volume as the turn of the ring has it. */
  lemma InTurn(s: State, i: nat)
    requires Sound(s) && !s.wrapped && i < |s.volumes|
    ensures VolumeInTurn(|s.volumes|, i, s.cur, s.round, s.volumes[i], s.meta[i])
  {
    hide VolumeInTurn, Kept, Covered, LogBelow, LogRising;
  }

  /** A transition into a volume with capacity, or in the first turn, leads to the next slot of the ring. */
  lemma TurnGen(s: State)
    requires Sound(s) && IsFull(s) && !Turn(s).wrapped
    requires |s.volumes[Next(|s.volumes|, s.cur)].file| > 0 || (s.round == 0 && s.cur + 1 < |s.volumes|)
    ensures Turn(s).gen == s.cur + |s.volumes| * s.round + 1
  {
    hide StoreGood, Turn;
    var n := |s.volumes|;
    var next := Next(n, s.cur);
    TurnWithoutWrap(s);
    TurnSound(s);
    InTurn(s, next);
    InTurn(Turn(s), next);
    NextSlot(n, s.cur, s.round);
  }

  /** In the first turn, or with capacity, the volume in use has the generation of its slot. */
  lemma CurGen(s: State)
    requires Sound(s) && !s.wrapped
    requires |s.volumes[s.cur].file| > 0 || s.round == 0
    ensures s.gen == s.cur + |s.volumes| * s.round
  {
    hide StoreGood;
    InTurn(s, s.cur);
  }

  lemma TurnFacts(s: State)
    requires Sound(s) && IsFull(s)
    ensures Shape(s) && Sound(Turn(s))
    ensures !Turn(s).wrapped ==> Turn(s).volumes[Turn(s).cur].pos == 0
    ensures !Turn(s).wrapped ==> forall i :: 0 <= i < |s.meta| ==> Turn(s).meta[i].generation >= s.meta[i].generation
    ensures !Turn(s).wrapped && |s.volumes[Turn(s).cur].file| > 0 && |s.volumes[s.cur].file| > 0 ==>
              Turn(s).gen == s.gen + 1
  {
    hide StoreGood, Turn;
    TurnSound(s);
    if !Turn(s).wrapped && |s.volumes[Turn(s).cur].file| > 0 && |s.volumes[s.cur].file| > 0 {
      TurnGen(s);
      CurGen(s);
    }
  }

  /** Beyond the first turn the volume in use has capacity. */
  ghost predicate Second(s: State)
    requires Shape(s)
  {
    s.round > 0 ==> |s.volumes[s.cur].file| > 0
  }

  /** With `Capacious` files a transition before the wrap leads to the next slot, and never into a volume without
      capacity beyond the first turn. */
  lemma CapaciousTurn(files: seq<seq<Block>>, s: State)
    requires FilesOk(files) && Capacious(files) && OfFiles(s, files) && Sound(s) && Second(s)
    requires IsFull(s) && !Turn(s).wrapped
    ensures Second(Turn(s)) && Turn(s).gen == s.gen + 1
  {
    hide StoreGood, Turn;
    var n := |files|;
    var next := Next(n, s.cur);
    TurnWithoutWrap(s);
    CurGen(s);
    NextSlot(n, s.cur, s.round);
    if s.round > 0 && next != 0 {
      SlotBelow(n, s.cur, s.round);
      assert |files[next]| > 0;
    }
    TurnGen(s);
  }

  lemma SlotBelow(n: nat, cur: nat, round: nat)
    requires round > 0 && cur + n * round < U32
    ensures cur + n < U32
  {
    MulStep(0, round, n);
  }

  lemma {:induction false} CapaciousRun(files: seq<seq<Block>>, blocks: seq<Block>)
    requires FilesOk(files) && Capacious(files) && !After(files, blocks).wrapped
    ensures Second(After(files, blocks))
  {
    hide Turn, Place, Sound, Capacious;
    if blocks != [] {
      var before := blocks[..|blocks| - 1];
      var s := After(files, before);
      CapaciousRun(files, before);
      RunFiles(files, before);
      RunSound(files, before);
      if IsFull(s) {
        CapaciousTurn(files, s);
      }
      var t := if IsFull(s) then Turn(s) else s;
      if !IsFull(t) {
        PlaceRound(t, blocks[|blocks| - 1]);
      }
    }
  }

  lemma PlaceRound(s: State, b: Block)
    requires Shape(s) && !IsFull(s)
    ensures Place(s, b).round == s.round && Place(s, b).cur == s.cur
    ensures |Place(s, b).volumes[s.cur].file| == |s.volumes[s.cur].file|
  {}

  lemma CapaciousRises(files: seq<seq<Block>>, blocks: seq<Block>, b: Block)
    requires FilesOk(files) && Capacious(files)
    ensures RoseByOne(files, blocks, b)
  {
    hide Turn, Place, Sound, Capacious, After;
    var s := After(files, blocks);
    AfterSnoc(files, blocks, b);
    if IsFull(s) && !AppendTo(s, b).wrapped {
      CapaciousRun(files, blocks);
      RunFiles(files, blocks);
      RunSound(files, blocks);
      CapaciousTurn(files, s);
    }
  }

  // ----- A run in which it does not

  /** The run goes on until the volume in use is full. */
  lemma {:induction false} Fill(files: seq<seq<Block>>, blocks: seq<Block>, b: Block) returns (more: seq<Block>)
    requires FilesOk(files)
    ensures var (s, r) := (After(files, blocks), After(files, more));
            IsFull(r) && r.cur == s.cur && r.round == s.round && r.wrapped == s.wrapped
    decreases var s := After(files, blocks); |s.volumes[s.cur].file| - s.volumes[s.cur].pos
  {
    hide After, FilesOk, Turn;
    more := blocks;
    var s := After(files, blocks);
    if !IsFull(s) {
      AfterSnoc(files, blocks, b);
      more := Fill(files, blocks + [b], b);
    }
  }

  /** A run that has made `turns` transitions, before the counter wraps, and is about to make the next; no volume
      before `z` is without capacity. */
  lemma {:induction false} Reach(files: seq<seq<Block>>, z: nat, turns: nat, b: Block) returns (blocks: seq<Block>)
    requires FilesOk(files) && z < |files| && |files| + z <= U32 && FirstRoom(files, 0) <= turns < |files| + z
    requires forall i :: 0 <= i < z ==> |files[i]| > 0
    ensures var s := After(files, blocks);
            IsFull(s) && !s.wrapped && s.cur + |files| * s.round == turns
  {
    hide After, Turn, Place, Sound;
    if turns == FirstRoom(files, 0) {
      AfterNone(files);
      blocks := Fill(files, [], b);
    } else {
      var before := Reach(files, z, turns - 1, b);
      var s := After(files, before);
      RunFiles(files, before);
      RunSound(files, before);
      NoWrap(files, z, s);
      AfterSnoc(files, before, b);
      var t := Turn(s);
      NextSlot(|files|, s.cur, s.round);
      TurnRound(s);
      if !IsFull(t) {
        PlaceRound(t, b);
      }
      blocks := Fill(files, before + [b], b);
    }
  }

  lemma AfterNone(files: seq<seq<Block>>)
    requires FilesOk(files)
    ensures After(files, []) == Fresh(files)
  {}

  lemma TurnRound(s: State)
    requires Shape(s)
    ensures Turn(s).cur == Next(|s.volumes|, s.cur) && Turn(s).round == NextRound(|s.volumes|, s.cur, s.round)
  {}

  /** The next slot still has 32 bits. */
  lemma NoWrap(files: seq<seq<Block>>, z: nat, s: State)
    requires FilesOk(files) && z < |files| && |files| + z <= U32 && OfFiles(s, files)
    requires Sound(s) && !s.wrapped && s.cur + |files| * s.round + 1 < |files| + z
    ensures !Turn(s).wrapped
  {
    hide StoreGood;
    var n := |files|;
    var next := Next(n, s.cur);
    InTurn(s, next);
    NextSlot(n, s.cur, s.round);
    TurnGeneration(n, next, s.round);
  }

  /** The transition into a volume without capacity, the second time. */
  lemma TurnFails(files: seq<seq<Block>>, z: nat, s: State)
    requires FilesOk(files) && z < |files| && OfFiles(s, files) && |files[z]| == 0
    requires z > 0 ==> |files[z - 1]| > 0
    requires Sound(s) && !s.wrapped && s.cur + |files| * s.round + 1 == |files| + z
    ensures Turn(s).cur == z && !Turn(s).wrapped && Turn(s).gen == z && s.gen != z - 1
  {
    hide StoreGood;
    var n := |files|;
    SecondSlot(n, s.cur, s.round, z);
    InTurn(s, z);
    CurGen(s);
  }

  lemma SecondSlot(n: nat, cur: nat, round: nat, z: nat)
    requires cur < n && z < n && cur + n * round + 1 == n + z
    ensures Next(n, cur) == z && (if z == 0 then round == 0 && cur == n - 1 else round == 1 && cur == z - 1)
  {
    if round >= 2 {
      MulStep(1, round, n);
    }
  }

  lemma FailingRun(files: seq<seq<Block>>, z: nat, b: Block) returns (blocks: seq<Block>)
    requires FilesOk(files) && z < |files| && |files| + z <= U32 && |files[z]| == 0
    requires forall i :: 0 <= i < z ==> |files[i]| > 0
    ensures !RoseByOne(files, blocks, b)
  {
    hide After, Turn, Place, Sound;
    assert FirstRoom(files, 0) <= |files| + z - 1;
    blocks := Reach(files, z, |files| + z - 1, b);
    var s := After(files, blocks);
    RunFiles(files, blocks);
    RunSound(files, blocks);
    TurnFails(files, z, s);
    AfterSnoc(files, blocks, b);
    assert IsFull(Turn(s));
  }

  lemma {:induction false} FirstEmpty(files: seq<seq<Block>>, i: nat) returns (z: nat)
    requires i < |files| && |files[i]| == 0
    ensures z <= i && |files[z]| == 0 && forall j :: 0 <= j < z ==> |files[j]| > 0
  {
    z := i;
    if exists j :: 0 <= j < i && |files[j]| == 0 {
      var j :| 0 <= j < i && |files[j]| == 0;
      z := FirstEmpty(files, j);
    }
  }

  /** Main theorem on generations, which decides at creation: every transition of every run before the wrap raises the
      generation by exactly one if and only if the files are `Capacious`. With at most 2^31 volumes that means that
      every volume has capacity. */
  lemma GenerationExact(files: seq<seq<Block>>)
    requires FilesOk(files)
    ensures RisesByOne(files) <==> Capacious(files)
    ensures |files| <= 0x8000_0000 ==> (Capacious(files) <==> forall i :: 0 <= i < |files| ==> |files[i]| > 0)
  {
    hide RoseByOne, FilesOk;
    if Capacious(files) {
      forall blocks, b ensures RoseByOne(files, blocks, b) {
        CapaciousRises(files, blocks, b);
      }
    } else {
      var i :| 0 <= i < |files| && |files[i]| == 0 && |files| + i <= U32;
      var z := FirstEmpty(files, i);
      var blocks := FailingRun(files, z, []);
    }
  }

  /** Volumes of one and no blocks after the `k`-th append. */
  function SmallRing(b: Block, k: nat): State {
    var vs := [Volume([b], 1), Volume([], 0)];
    if k == 0 then State([Volume([b], 0), Volume([], 0)], [Meta(0, 0), Meta(1, 0)], 0, 0, 0, [], false)
    else if k == 1 then State(vs, [Meta(0, 1), Meta(1, 0)], 0, 0, 0, [Stored(0, b)], false)
    else if k == 2 then State(vs, [Meta(0, 1), Meta(1, 0)], 1, 1, 0, [Stored(0, b)], false)
    else if k == 3 then
      State(vs, [Meta(2, 1), Meta(1, 0)], 0, 2, 1, [Stored(0, b), Stored(2 * U32, b)], false)
    else State(vs, [Meta(2, 1), Meta(1, 0)], 1, 1, 1, [Stored(0, b), Stored(2 * U32, b)], false)
  }

  lemma FirstTwo(b: Block)
    ensures Fresh([[b], []]) == SmallRing(b, 0) && AppendTo(SmallRing(b, 0), b) == SmallRing(b, 1)
    ensures AppendTo(SmallRing(b, 1), b) == SmallRing(b, 2)
  {
    var s := SmallRing(b, 0);
    assert Fresh([[b], []]).volumes == s.volumes && Fresh([[b], []]).meta == s.meta;
    assert [b][0 := b] == [b];
    assert Place(s, b).volumes == SmallRing(b, 1).volumes && Place(s, b).meta == SmallRing(b, 1).meta;
    assert Place(s, b).log == SmallRing(b, 1).log;
  }

  lemma ThirdAppend(b: Block)
    ensures AppendTo(SmallRing(b, 2), b) == SmallRing(b, 3)
  {
    var s := Turn(SmallRing(b, 2));
    assert s.volumes == [Volume([b], 0), Volume([], 0)] && s.meta == [Meta(2, 0), Meta(1, 0)];
    assert [b][0 := b] == [b];
    assert Place(s, b).volumes == SmallRing(b, 3).volumes && Place(s, b).meta == SmallRing(b, 3).meta;
    assert Place(s, b).log == SmallRing(b, 3).log;
  }

  lemma FourthAppend(b: Block)
    ensures AppendTo(SmallRing(b, 3), b) == SmallRing(b, 4)
  {}

  /** Four appends to volumes of one and no blocks: the last transition takes the generation from 2 to 1. */
  lemma GenerationFalls(b: Block)
    ensures
      var files := [[b], []];
      && After(files, [b, b, b]).gen == 2 && IsFull(After(files, [b, b, b]))
      && After(files, [b, b, b, b]).gen == 1 && !After(files, [b, b, b, b]).wrapped
  {
    hide After, AppendTo, Fresh;
    var files := [[b], []];
    AfterNone(files);
    FirstTwo(b);
    ThirdAppend(b);
    FourthAppend(b);
    AfterSnoc(files, [], b);
    AfterSnoc(files, [b], b);
    AfterSnoc(files, [b, b], b);
    AfterSnoc(files, [b, b, b], b);
    assert [] + [b] == [b] && [b] + [b] == [b, b] && [b, b] + [b] == [b, b, b] && [b, b, b] + [b] == [b, b, b, b];
  }
}
