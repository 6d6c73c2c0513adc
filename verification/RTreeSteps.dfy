/** What the single steps of an insertion do to a good tree. */
module RTreeSteps {
  import opened RTreeGeometry
  import opened RTreeShape
  import opened RTreePath

  /** Stores behind the last live entry, over what an earlier split left there. */
  function PutEntry(n: Block, e: Entry): (r: Block)
    requires n.Leaf? && n.size <= |n.entries|
    ensures r.Leaf? && r.level == n.level && r.size == n.size + 1 <= |r.entries|
    ensures r.entries[..r.size] == n.entries[..n.size] + [e]
    ensures |r.entries| >= |n.entries| && forall i :: n.size < i < |n.entries| ==> r.entries[i] == n.entries[i]
  {
    n.(size := n.size + 1, entries := if n.size < |n.entries| then n.entries[n.size := e] else n.entries + [e])
  }

  function PutSlot(n: Block, s: Slot): (r: Block)
    requires n.Index? && n.size <= |n.slots|
    ensures r.Index? && r.level == n.level && r.size == n.size + 1 <= |r.slots|
    ensures r.slots[..r.size] == n.slots[..n.size] + [s]
    ensures |r.slots| >= |n.slots| && forall i :: n.size < i < |n.slots| ==> r.slots[i] == n.slots[i]
  {
    n.(size := n.size + 1, slots := if n.size < |n.slots| then n.slots[n.size := s] else n.slots + [s])
  }

  predicate HoldsEntries(n: Block, level: nat, es: seq<Entry>) {
    n.Leaf? && n.level == level && n.size == |es| <= |n.entries| && n.entries[..n.size] == es
  }

  predicate HoldsSlots(n: Block, level: nat, ss: seq<Slot>) {
    n.Index? && n.level == level && n.size == |ss| <= |n.slots| && n.slots[..n.size] == ss
  }

  /** What a split leaves behind: the entries at `l` here, those at `r` in the new block, the new one in either. */
  ghost predicate LeafSplit(c: Limits, es: seq<Entry>, e: Entry,
                            l: seq<nat>, r: seq<nat>, here: bool, a: Block, b: Block) {
    && Shares(l, r, |es|) && a.level == b.level == 0
    && LeafGood(c, a, Pick(es, l) + if here then [e] else [])
    && LeafGood(c, b, Pick(es, r) + if here then [] else [e])
  }

  ghost predicate IndexSplit(c: Limits, ss: seq<Slot>, s: Slot,
                             l: seq<nat>, r: seq<nat>, here: bool, a: Block, b: Block, level: nat) {
    && Shares(l, r, |ss|)
    && IndexSized(c, a) && HoldsSlots(a, level, Pick(ss, l) + if here then [s] else [])
    && IndexSized(c, b) && HoldsSlots(b, level, Pick(ss, r) + if here then [] else [s])
  }

  lemma LeafIsFull(c: Limits, n: Block, es: seq<Entry>)
    requires LeafGood(c, n, es) && n.level == 0
    ensures HoldsEntries(n, 0, es) && n.Leaf? && n.size == |es| <= |n.entries| && n.entries[..n.size] == es
  {}

  lemma SlotsLive(n: Block, level: nat, ss: seq<Slot>)
    requires HoldsSlots(n, level, ss)
    ensures n.Index? && n.size == |ss| <= |n.slots| && n.slots[..n.size] == ss && n.level == level
  {}

  /** Either half can take one more entry. */
  lemma LeafHalves(c: Limits, es: seq<Entry>, e: Entry, l: seq<nat>, r: seq<nat>, a: Block, b: Block)
    requires Shares(l, r, |es|) && |l| > 0 && |r| > 0 && |es| == c.leaf && |e.point| == c.dims
    requires forall i :: 0 <= i < |es| ==> |es[i].point| == c.dims
    requires HoldsEntries(a, 0, Pick(es, l)) && HoldsEntries(b, 0, Pick(es, r))
    ensures a.Leaf? && a.size <= |a.entries| && a.size < c.leaf
    ensures b.Leaf? && b.size <= |b.entries| && b.size < c.leaf
    ensures LeafSplit(c, es, e, l, r, true, PutEntry(a, e), b) && LeafSplit(c, es, e, l, r, false, a, PutEntry(b, e))
  {
    hide PutEntry;
    assert Pick(es, l) + [] == Pick(es, l) && Pick(es, r) + [] == Pick(es, r);
  }

  lemma IndexHalves(c: Limits, ss: seq<Slot>, s: Slot, l: seq<nat>, r: seq<nat>, a: Block, b: Block, level: nat)
    requires Shares(l, r, |ss|) && |l| > 0 && |r| > 0 && |ss| == c.index
    requires HoldsSlots(a, level, Pick(ss, l)) && HoldsSlots(b, level, Pick(ss, r))
    ensures a.Index? && a.size <= |a.slots| && a.size < c.index
    ensures b.Index? && b.size <= |b.slots| && b.size < c.index
    ensures IndexSplit(c, ss, s, l, r, true, PutSlot(a, s), b, level)
    ensures IndexSplit(c, ss, s, l, r, false, a, PutSlot(b, s), level)
  {
    hide PutSlot;
    assert Pick(ss, l) + [] == Pick(ss, l) && Pick(ss, r) + [] == Pick(ss, r);
  }

  lemma LeafSplitFilled(c: Limits, es: seq<Entry>, e: Entry,
                        l: seq<nat>, r: seq<nat>, here: bool, a: Block, b: Block)
    requires LeafSplit(c, es, e, l, r, here, a, b)
    ensures Filled(a) && (a.Leaf? ==> |a.entries[0].point| == c.dims)
    ensures Filled(b) && (b.Leaf? ==> |b.entries[0].point| == c.dims)
  {
    assert a.entries[..a.size][0] == a.entries[0] && b.entries[..b.size][0] == b.entries[0];
  }

  lemma IndexSplitFilled(c: Limits, ss: seq<Slot>, s: Slot,
                         l: seq<nat>, r: seq<nat>, here: bool, a: Block, b: Block, level: nat)
    requires IndexSplit(c, ss, s, l, r, here, a, b, level)
    ensures a.Index? && Filled(a) && b.Index? && Filled(b)
  {}

  lemma SharesFacts(l: seq<nat>, r: seq<nat>, n: nat)
    requires Shares(l, r, n)
    ensures Increasing(l) && Increasing(r) && Below(l, n) && Below(r, n) && |l| + |r| == n
  {}

  /** The blocks and child positions recorded while descending are those of the frames. */
  ghost predicate Recorded(paths: seq<(nat, int)>, fs: seq<Frame>) {
    && |fs| <= |paths|
    && (forall j :: 0 <= j < |fs| ==> paths[j].0 == fs[j].id)
    && (forall j :: 0 < j < |fs| ==> paths[j].1 == |fs[j - 1].left|)
  }

  ghost predicate OnPath(paths: seq<(nat, int)>, fs: seq<Frame>, index: int) {
    Recorded(paths, fs) && |fs| > 0 && index == |fs[|fs| - 1].left|
  }

  lemma FrameFacts(c: Limits, m: Blocks, f: Frame, h: nat, hole: nat)
    requires FrameGood(c, m, f, h, hole)
    ensures f.id in m && m[f.id].Index? && |f.left| < m[f.id].size <= |m[f.id].slots|
    ensures m[f.id].slots[|f.left|].child == hole
    ensures m[f.id].level == h && h > 0
  {}

  lemma GoodFacts(c: Limits, m: Blocks, t: Tree, h: nat)
    requires Good(c, m, t, h)
    ensures t.id in m && m[t.id].level == h && Filled(m[t.id])
    ensures m[t.id].Leaf? ==> |m[t.id].entries[0].point| == c.dims
    ensures m[t.id].Leaf? <==> h == 0
    ensures t.TLeaf? <==> h == 0
  {
    if t.TLeaf? {
      assert t.entries[0] == m[t.id].entries[0];
    }
  }

  lemma PathIdsPop(fs: seq<Frame>, ids: multiset<nat>)
    requires |fs| > 0 && Distinct(PathIds(fs) + ids)
    ensures
      var n := |fs| - 1;
      && PathIds(fs) == PathIds(fs[..n]) + FrameIds(fs[n])
      && Distinct(FrameIds(fs[n]) + ids) && Distinct(PathIds(fs[..n]) + (FrameIds(fs[n]) + ids))
      && fs[n].id !in PathIds(fs[..n])
  {
    hide FrameIds, Distinct;
    var n := |fs| - 1;
    assert PathIds(fs) + ids == PathIds(fs[..n]) + (FrameIds(fs[n]) + ids);
    DistinctPart(PathIds(fs[..n]), FrameIds(fs[n]) + ids);
    FrameHasId(fs[n]);
    DistinctApart(PathIds(fs[..n]), FrameIds(fs[n]) + ids, fs[n].id);
  }

  lemma FrameHasId(f: Frame)
    ensures f.id in FrameIds(f)
  {}

  lemma DistinctPart(a: multiset<nat>, b: multiset<nat>)
    requires Distinct(a + b)
    ensures Distinct(a) && Distinct(b)
  {
    forall x ensures a[x] <= 1 && b[x] <= 1 {
      assert (a + b)[x] == a[x] + b[x];
    }
  }

  lemma DistinctApart(a: multiset<nat>, b: multiset<nat>, x: nat)
    requires Distinct(a + b) && x in b
    ensures x !in a
  {
    assert (a + b)[x] == a[x] + b[x];
  }

  lemma SetIsSameExcept(m: Blocks, f: Frame, n: Block)
    requires f.id in m
    ensures SameExcept(m, m[f.id := n], FrameIds(f))
  {}

  lemma SameExceptBoth(m: Blocks, m1: Blocks, m2: Blocks, a: multiset<nat>, b: multiset<nat>)
    requires SameExcept(m, m1, a) && SameExcept(m1, m2, b)
    ensures SameExcept(m, m2, b + a)
  {}

  lemma Reopen(c: Limits, m: Blocks, f: Frame, sub: Tree, h: nat)
    requires Good(c, m, Plug(f, sub), h)
    ensures h > 0 && FrameGood(c, m, f, h, sub.id) && HoleExact(c, m, f, sub.id) && Good(c, m, sub, h - 1)
  {
    hide FrameGood, HoleExact, SlotsGood;
    var t, i := Plug(f, sub), |f.left|;
    Open(c, m, t, h, i);
    assert t.kids[..i] == f.left && t.kids[i + 1..] == f.right && t.kids[i] == sub;
  }

  lemma PathPushFirst(c: Limits, m: Blocks, f: Frame, top: nat, hole: nat)
    requires top > 0 && FrameGood(c, m, f, top, hole) && HoleExact(c, m, f, hole)
    ensures PathGood(c, m, [f], top, hole, true)
  {}

  lemma LastFrame(c: Limits, m: Blocks, fs: seq<Frame>, sub: Tree, top: nat)
    requires |fs| > 0 && PathGood(c, m, fs, top, sub.id, false) && Good(c, m, sub, top - |fs|)
    ensures
      var f := fs[|fs| - 1];
      && |fs| <= top
      && f.id in m && m[f.id].Index? && |f.left| < |m[f.id].slots| && m[f.id].slots[|f.left|].child == sub.id
      && sub.id in m && Filled(m[sub.id]) && (m[sub.id].Leaf? ==> |m[sub.id].entries[0].point| == c.dims)
  {
    hide Good, PathGood, FrameGood;
    var f := fs[|fs| - 1];
    PathShort(c, m, fs, top, sub.id, false);
    PathPop(c, m, fs, top, sub.id, false);
    FrameFacts(c, m, f, top - (|fs| - 1), sub.id);
    GoodFacts(c, m, sub, top - |fs|);
  }

  /** After the last rectangle is stored, the same situation holds one level up. */
  lemma RepairLast(c: Limits, m: Blocks, fs: seq<Frame>, sub: Tree, top: nat)
    requires |fs| > 0 && PathGood(c, m, fs, top, sub.id, false) && Good(c, m, sub, top - |fs|)
    requires Distinct(PathIds(fs) + Ids(sub))
    ensures
      var n := |fs| - 1;
      var f := fs[n];
      && f.id in m && m[f.id].Index? && |f.left| < |m[f.id].slots| && sub.id in m && Filled(m[sub.id])
      && var m2 := m[f.id := SetRect(m[f.id], |f.left|, BoxOf(c.dims, m[sub.id]))];
      && SameExcept(m, m2, FrameIds(f))
      && PathGood(c, m2, fs[..n], top, Plug(f, sub).id, false) && Good(c, m2, Plug(f, sub), top - n)
      && Distinct(PathIds(fs[..n]) + Ids(Plug(f, sub)))
  {
    hide Good, PathGood, FrameGood, HoleExact, BoxOf, Ids, PathIds, FrameIds, Distinct, Same, SameExcept, SetRect;
    LastFrame(c, m, fs, sub, top);
    var n := |fs| - 1;
    var f := fs[n];
    var m2 := m[f.id := SetRect(m[f.id], |f.left|, BoxOf(c.dims, m[sub.id]))];
    PathPop(c, m, fs, top, sub.id, false);
    PathIdsPop(fs, Ids(sub));
    Repair(c, m, f, sub, top - n);
    Close(c, m2, f, sub, top - n);
    PlugParts(f, sub);
    SameElsewhere(m, f.id, m2[f.id], PathIds(fs[..n]));
    PathKept(c, m, m2, fs[..n], top, f.id, false);
    SetIsSameExcept(m, f, m2[f.id]);
  }

  /** Once the levels above are repaired, the whole path is. */
  lemma RepairedPath(c: Limits, m: Blocks, m2: Blocks, m3: Blocks, fs: seq<Frame>, sub: Tree, top: nat)
    requires 0 < |fs| <= top
    requires
      var n := |fs| - 1;
      var f := fs[n];
      && SameExcept(m, m2, FrameIds(f))
      && Good(c, m3, Plug(f, sub), top - n)
      && if n == 0 then m3 == m2 else
        SameExcept(m2, m3, PathIds(fs[..n])) && PathGood(c, m3, fs[..n], top, Plug(f, sub).id, true)
    ensures PathGood(c, m3, fs, top, sub.id, true) && Good(c, m3, sub, top - |fs|)
    ensures SameExcept(m, m3, PathIds(fs))
  {
    hide Good, PathGood, FrameGood, HoleExact, FrameIds, SameExcept;
    var n := |fs| - 1;
    var f := fs[n];
    Reopen(c, m3, f, sub, top - n);
    assert fs == fs[..n] + [f];
    if n == 0 {
      assert fs == [f] && PathIds(fs) == FrameIds(f);
      PathPushFirst(c, m3, f, top, sub.id);
    } else {
      PathPush(c, m3, fs[..n], f, top, sub.id, true);
      SameExceptBoth(m, m2, m3, FrameIds(f), PathIds(fs[..n]));
    }
  }

  // ----- Descending

  lemma Descend(c: Limits, m: Blocks, fs: seq<Frame>, sub: Tree, top: nat, i: nat)
    requires |fs| < top && PathGood(c, m, fs, top, sub.id, true) && Good(c, m, sub, top - |fs|)
    requires sub.TNode? && i < |sub.kids|
    ensures
      var f, kid := FrameAt(sub, i), sub.kids[i];
      && PathGood(c, m, fs + [f], top, kid.id, true) && Good(c, m, kid, top - |fs| - 1)
      && PathIds(fs + [f]) + Ids(kid) == PathIds(fs) + Ids(sub)
      && PathHeld(fs + [f]) + Held(kid) == PathHeld(fs) + Held(sub)
  {
    hide Good, PathGood, FrameGood, HoleExact, Ids, Held, PathIds, PathHeld, FrameIds, FrameHeld;
    Open(c, m, sub, top - |fs|, i);
    PathPush(c, m, fs, FrameAt(sub, i), top, sub.kids[i].id, true);
  }

  /** The slots of an index block and the subtrees below it. */
  lemma KidsOf(c: Limits, m: Blocks, t: Tree, h: nat)
    requires Good(c, m, t, h) && h > 0
    ensures t.TNode? && IndexSized(c, m[t.id]) && m[t.id].level == h && |t.kids| == m[t.id].size
    ensures SlotsGood(c, m, m[t.id].slots[..m[t.id].size], t.kids, h - 1)
    ensures forall i :: 0 <= i < |t.kids| ==> m[t.id].slots[i].child == t.kids[i].id
  {
    hide Good;
    IsNode(c, m, t, h);
    var ss := m[t.id].slots[..m[t.id].size];
    forall i | 0 <= i < |t.kids| ensures m[t.id].slots[i].child == t.kids[i].id {
      assert SlotGood(c, m, ss[i], t.kids[i], h - 1);
    }
  }

  lemma IsNode(c: Limits, m: Blocks, t: Tree, h: nat)
    requires Good(c, m, t, h) && h > 0
    ensures t.TNode? && IndexSized(c, m[t.id]) && m[t.id].level == h
    ensures SlotsGood(c, m, m[t.id].slots[..m[t.id].size], t.kids, h - 1)
  {}

  // ----- Building index blocks

  /** A block with these slots stands for a node with these children. */
  lemma NodeGood(c: Limits, m: Blocks, m2: Blocks, id: nat, ss: seq<Slot>, kids: seq<Tree>, h: nat)
    requires SlotsGood(c, m, ss, kids, h) && Same(m, m2, IdsAll(kids))
    requires id in m2 && IndexSized(c, m2[id]) && HoldsSlots(m2[id], h + 1, ss)
    ensures Good(c, m2, TNode(id, kids), h + 1)
  {
    SlotsFrame(c, m, m2, ss, kids, h);
  }

  lemma SlotsPick(c: Limits, m: Blocks, ss: seq<Slot>, kids: seq<Tree>, h: nat, ix: seq<nat>)
    requires SlotsGood(c, m, ss, kids, h) && Below(ix, |kids|)
    ensures SlotsGood(c, m, Pick(ss, ix), Pick(kids, ix), h)
  {
    hide SlotGood;
  }

  lemma SlotsAppend(c: Limits, m: Blocks, ss: seq<Slot>, kids: seq<Tree>, h: nat, s: Slot, kid: Tree)
    requires SlotsGood(c, m, ss, kids, h) && SlotGood(c, m, s, kid, h)
    ensures SlotsGood(c, m, ss + [s], kids + [kid], h)
    ensures IdsAll(kids + [kid]) == IdsAll(kids) + Ids(kid) && HeldAll(kids + [kid]) == HeldAll(kids) + Held(kid)
  {
    hide SlotGood, Ids, Held;
    AllConcat(kids, [kid]);
    AllOne(kid);
  }

  // ----- The states an insertion goes through

  ghost predicate KeysAre(m: Blocks, ids: multiset<nat>) {
    forall x :: x in m <==> x in ids
  }

  ghost function AllIds(fs: seq<Frame>, sub: Tree, extra: seq<Tree>): multiset<nat> {
    PathIds(fs) + Ids(sub) + IdsAll(extra)
  }

  ghost function AllHeld(fs: seq<Frame>, sub: Tree, extra: seq<Tree>): multiset<Entry> {
    PathHeld(fs) + Held(sub) + HeldAll(extra)
  }

  /** A path, the subtree at its end, and split-off subtrees of the same height that still wait for a parent. */
  ghost predicate Pending(c: Limits, m: Blocks, fs: seq<Frame>, top: nat, sub: Tree, extra: seq<Tree>, exact: bool) {
    && |fs| <= top
    && PathGood(c, m, fs, top, sub.id, exact)
    && Good(c, m, sub, top - |fs|)
    && AllGood(c, m, extra, top - |fs|)
    && Distinct(AllIds(fs, sub, extra))
    && KeysAre(m, AllIds(fs, sub, extra))
  }

  ghost predicate AllGood(c: Limits, m: Blocks, ts: seq<Tree>, h: nat) {
    forall i :: 0 <= i < |ts| ==> Good(c, m, ts[i], h)
  }

  lemma PendingFacts(c: Limits, m: Blocks, fs: seq<Frame>, top: nat, sub: Tree, extra: seq<Tree>, exact: bool)
    requires Pending(c, m, fs, top, sub, extra, exact)
    ensures |fs| <= top && PathGood(c, m, fs, top, sub.id, exact) && Good(c, m, sub, top - |fs|)
    ensures AllGood(c, m, extra, top - |fs|) && Distinct(PathIds(fs) + Ids(sub))
    ensures Distinct(AllIds(fs, sub, extra)) && KeysAre(m, AllIds(fs, sub, extra))
  {
    DistinctPart(PathIds(fs) + Ids(sub), IdsAll(extra));
  }

  /** Repairing the path leaves the waiting subtrees alone. */
  lemma PendingRepaired(c: Limits, m: Blocks, m2: Blocks, fs: seq<Frame>, top: nat, sub: Tree, extra: seq<Tree>)
    requires Pending(c, m, fs, top, sub, extra, false)
    requires PathGood(c, m2, fs, top, sub.id, true) && Good(c, m2, sub, top - |fs|)
    requires SameExcept(m, m2, PathIds(fs))
    ensures Pending(c, m2, fs, top, sub, extra, true)
    ensures m2[sub.id] == m[sub.id] && forall i :: 0 <= i < |extra| ==>
              extra[i].id in m2 && m2[extra[i].id] == m[extra[i].id]
  {
    hide PathGood, Good, Ids, IdsAll, PathIds, Pending, AllIds, Distinct, Same, SameExcept, KeysAre;
    PendingFacts(c, m, fs, top, sub, extra, false);
    forall i | 0 <= i < |extra|
      ensures Good(c, m2, extra[i], top - |fs|) && m2[extra[i].id] == m[extra[i].id]
    {
      AllMember(extra, i);
      assert Good(c, m, extra[i], top - |fs|);
      SameAwayFrom(m, m2, fs, sub, extra, Ids(extra[i]));
      GoodFrame(c, m, m2, extra[i], top - |fs|);
    }
    SameAwaySub(m, m2, fs, sub, extra);
    GoodFrame(c, m, m2, sub, top - |fs|);
    SameKeys(m, m2, PathIds(fs), AllIds(fs, sub, extra));
    PendingFrom(c, m2, fs, top, sub, extra, true);
  }

  lemma PendingFrom(c: Limits, m: Blocks, fs: seq<Frame>, top: nat, sub: Tree, extra: seq<Tree>, exact: bool)
    requires |fs| <= top && PathGood(c, m, fs, top, sub.id, exact) && Good(c, m, sub, top - |fs|)
    requires AllGood(c, m, extra, top - |fs|)
    requires Distinct(AllIds(fs, sub, extra)) && KeysAre(m, AllIds(fs, sub, extra))
    ensures Pending(c, m, fs, top, sub, extra, exact)
  {}

  lemma SameKeys(m: Blocks, m2: Blocks, except: multiset<nat>, ids: multiset<nat>)
    requires SameExcept(m, m2, except) && KeysAre(m, ids)
    ensures KeysAre(m2, ids)
  {}

  lemma SameAwayFrom(m: Blocks, m2: Blocks, fs: seq<Frame>, sub: Tree, extra: seq<Tree>, ids: multiset<nat>)
    requires Distinct(AllIds(fs, sub, extra)) && SameExcept(m, m2, PathIds(fs)) && ids <= IdsAll(extra)
    ensures Same(m, m2, ids)
  {
    hide PathIds, Ids, IdsAll;
    forall x | x in ids && x in m ensures x in m2 && m2[x] == m[x] {
      assert AllIds(fs, sub, extra)[x] == PathIds(fs)[x] + Ids(sub)[x] + IdsAll(extra)[x];
    }
  }

  lemma SameAwaySub(m: Blocks, m2: Blocks, fs: seq<Frame>, sub: Tree, extra: seq<Tree>)
    requires Distinct(AllIds(fs, sub, extra)) && SameExcept(m, m2, PathIds(fs))
    ensures Same(m, m2, Ids(sub))
  {
    hide PathIds, Ids, IdsAll;
    forall x | x in Ids(sub) && x in m ensures x in m2 && m2[x] == m[x] {
      assert AllIds(fs, sub, extra)[x] == PathIds(fs)[x] + Ids(sub)[x] + IdsAll(extra)[x];
    }
  }

  /** With nothing left waiting, the path closes to the new tree. */
  lemma Finish(c: Limits, m: Blocks, fs: seq<Frame>, top: nat, sub: Tree)
    requires Pending(c, m, fs, top, sub, [], true)
    ensures Good(c, m, PlugAll(fs, sub), top)
    ensures Distinct(Ids(PlugAll(fs, sub))) && KeysAre(m, Ids(PlugAll(fs, sub)))
    ensures Held(PlugAll(fs, sub)) == AllHeld(fs, sub, [])
  {
    hide PathGood, Good, Ids, Held, PathIds, PathHeld, Pending, Distinct, KeysAre, PlugAll;
    PendingFacts(c, m, fs, top, sub, [], true);
    CloseAll(c, m, fs, sub, top);
    AllNone();
    assert AllIds(fs, sub, []) == PathIds(fs) + Ids(sub);
  }

  // ----- Steps at the leaf

  lemma SameTwo(m: Blocks, x: nat, a: Block, y: nat, b: Block, ids: multiset<nat>)
    requires x !in ids && y !in m
    ensures Same(m, m[x := a][y := b], ids)
  {}

  lemma KeysSet(m: Blocks, x: nat, a: Block, ids: multiset<nat>)
    requires KeysAre(m, ids) && x in ids
    ensures KeysAre(m[x := a], ids)
  {}

  lemma KeysAdd(m: Blocks, y: nat, b: Block, ids: multiset<nat>)
    requires KeysAre(m, ids) && y !in m && Distinct(ids)
    ensures KeysAre(m[y := b], ids + multiset{y}) && Distinct(ids + multiset{y})
  {
    forall x ensures (ids + multiset{y})[x] <= 1 {
      assert ids[x] <= 1 && ids[y] == 0;
    }
  }

  lemma LeafGrown(c: Limits, m: Blocks, fs: seq<Frame>, top: nat, leaf: Tree, n: Block, es: seq<Entry>)
    requires Pending(c, m, fs, top, leaf, [], true) && |fs| == top && leaf.TLeaf?
    requires LeafGood(c, n, es) && n.level == 0
    ensures Pending(c, m[leaf.id := n], fs, top, TLeaf(leaf.id, es), [], false)
  {
    hide PathGood, PathIds, Distinct, KeysAre, Same;
    var m2, leaf2 := m[leaf.id := n], TLeaf(leaf.id, es);
    assert AllIds(fs, leaf2, []) == AllIds(fs, leaf, []) == PathIds(fs) + multiset{leaf.id};
    DistinctApart(PathIds(fs), multiset{leaf.id}, leaf.id);
    SameElsewhere(m, leaf.id, n, PathIds(fs));
    PathKept(c, m, m2, fs, top, leaf.id, true);
    KeysSet(m, leaf.id, n, AllIds(fs, leaf, []));
  }

  lemma LeafDivided(c: Limits, m: Blocks, fs: seq<Frame>, top: nat, leaf: Tree, p: nat, e: Entry,
                    l: seq<nat>, r: seq<nat>, here: bool, a: Block, b: Block)
    returns (near: Tree, far: Tree)
    requires Pending(c, m, fs, top, leaf, [], true) && |fs| == top && leaf.TLeaf? && p !in m
    requires LeafSplit(c, leaf.entries, e, l, r, here, a, b)
    ensures near.id == leaf.id && far.id == p
    ensures Pending(c, m[leaf.id := a][p := b], fs, top, near, [far], false)
    ensures Held(near) + Held(far) == Held(leaf) + multiset{e}
  {
    hide PathGood, PathIds, Distinct, KeysAre, Same, LeafGood, Shares;
    var es := leaf.entries;
    SharesMultiset(l, r, es);
    near := TLeaf(leaf.id, Pick(es, l) + if here then [e] else []);
    far := TLeaf(p, Pick(es, r) + if here then [] else [e]);
    var m2 := m[leaf.id := a][p := b];
    assert IdsAll([far]) == multiset{p} by { AllOne(far); }
    assert AllIds(fs, leaf, []) == PathIds(fs) + multiset{leaf.id};
    assert AllIds(fs, near, [far]) == AllIds(fs, leaf, []) + multiset{p};
    DistinctApart(PathIds(fs), multiset{leaf.id}, leaf.id);
    SameTwo(m, leaf.id, a, p, b, PathIds(fs));
    PathKept(c, m, m2, fs, top, leaf.id, true);
    KeysSet(m, leaf.id, a, AllIds(fs, leaf, []));
    LeafInMap(c, m, leaf, top - |fs|);
    KeysAdd(m[leaf.id := a], p, b, AllIds(fs, leaf, []));
    assert leaf.id != p;
  }

  lemma LeafInMap(c: Limits, m: Blocks, t: Tree, h: nat)
    requires Good(c, m, t, h)
    ensures t.id in m
  {}

  // ----- Steps at an index block

  /** The block above the split: its slots with the waiting one, and the addresses around it. */
  ghost predicate Above(c: Limits, m: Blocks, fs: seq<Frame>, top: nat, id: nat, kids: seq<Tree>, orphan: Tree,
                        s: Slot)
  {
    && |fs| < top && PathGood(c, m, fs, top, id, true)
    && id in m && IndexSized(c, m[id]) && m[id].level == top - |fs|
    && SlotsGood(c, m, m[id].slots[..m[id].size], kids, top - |fs| - 1)
    && SlotGood(c, m, s, orphan, top - |fs| - 1)
    && Distinct(PathIds(fs) + multiset{id} + IdsAll(kids) + Ids(orphan))
    && KeysAre(m, PathIds(fs) + multiset{id} + IdsAll(kids) + Ids(orphan))
  }

  lemma StepUp(c: Limits, m: Blocks, fs: seq<Frame>, top: nat, sub: Tree, orphan: Tree)
    requires |fs| > 0 && Pending(c, m, fs, top, sub, [orphan], true)
    ensures orphan.id in m && Filled(m[orphan.id])
    ensures
      var n := |fs| - 1;
      var t := Plug(fs[n], sub);
      && Above(c, m, fs[..n], top, t.id, t.kids, orphan, Slot(BoxOf(c.dims, m[orphan.id]), orphan.id))
      && AllHeld(fs, sub, [orphan]) == PathHeld(fs[..n]) + HeldAll(t.kids) + Held(orphan)
  {
    hide PathGood, Good, Ids, IdsAll, HeldAll, PathIds, Distinct, KeysAre, FrameGood, HoleExact, FrameIds, FrameHeld;
    hide BoxOf;
    PendingFacts(c, m, fs, top, sub, [orphan], true);
    assert Good(c, m, [orphan][0], top - |fs|);
    var n := |fs| - 1;
    var f, t := fs[n], Plug(fs[n], sub);
    PathPop(c, m, fs, top, sub.id, true);
    Close(c, m, f, sub, top - n);
    KidsOf(c, m, t, top - n);
    PlugParts(f, sub);
    AllOne(orphan);
    NodeParts(t);
    PathParts(fs);
    SumAgain(PathIds(fs[..n]), FrameIds(f), Ids(sub), multiset{t.id}, IdsAll(t.kids), Ids(orphan));
  }

  lemma SumAgain(path: multiset<nat>, frame: multiset<nat>, sub: multiset<nat>,
                 id: multiset<nat>, kids: multiset<nat>, orphan: multiset<nat>)
    requires frame + sub == id + kids
    ensures path + frame + sub + orphan == path + id + kids + orphan
  {
    assert path + frame + sub == path + (frame + sub);
    assert path + id + kids == path + (id + kids);
  }

  lemma NodeParts(t: Tree)
    requires t.TNode?
    ensures Ids(t) == multiset{t.id} + IdsAll(t.kids) && Held(t) == HeldAll(t.kids)
  {}

  lemma PathParts(fs: seq<Frame>)
    requires |fs| > 0
    ensures PathIds(fs) == PathIds(fs[..|fs| - 1]) + FrameIds(fs[|fs| - 1])
    ensures PathHeld(fs) == PathHeld(fs[..|fs| - 1]) + FrameHeld(fs[|fs| - 1])
  {}

  lemma AboveApart(c: Limits, m: Blocks, fs: seq<Frame>, top: nat, id: nat, kids: seq<Tree>, orphan: Tree, s: Slot)
    requires Above(c, m, fs, top, id, kids, orphan, s)
    ensures id !in PathIds(fs) && id !in IdsAll(kids) && id !in Ids(orphan)
  {
    hide PathGood, SlotsGood, SlotGood, PathIds, IdsAll, Ids;
    var a, b, d := PathIds(fs), IdsAll(kids), Ids(orphan);
    assert (a + multiset{id} + b + d)[id] == a[id] + 1 + b[id] + d[id];
  }

  /** The block has room: it takes the waiting subtree. */
  lemma Absorbed(c: Limits, m: Blocks, fs: seq<Frame>, top: nat, id: nat, kids: seq<Tree>, orphan: Tree, s: Slot,
                 n: Block)
    requires Above(c, m, fs, top, id, kids, orphan, s)
    requires IndexSized(c, n) && HoldsSlots(n, top - |fs|, m[id].slots[..m[id].size] + [s])
    ensures Pending(c, m[id := n], fs, top, TNode(id, kids + [orphan]), [], false)
    ensures Held(TNode(id, kids + [orphan])) == HeldAll(kids) + Held(orphan)
  {
    hide PathGood, SlotsGood, SlotGood, PathIds, IdsAll, Ids, HeldAll, Held, Distinct, KeysAre, Good, Same;
    var h := top - |fs| - 1;
    var ss, m2, t := m[id].slots[..m[id].size] + [s], m[id := n], TNode(id, kids + [orphan]);
    AboveApart(c, m, fs, top, id, kids, orphan, s);
    SlotsAppend(c, m, m[id].slots[..m[id].size], kids, h, s, orphan);
    SameElsewhere(m, id, n, IdsAll(t.kids));
    NodeGood(c, m, m2, id, ss, t.kids, h);
    SameElsewhere(m, id, n, PathIds(fs));
    PathKept(c, m, m2, fs, top, id, true);
    NodeParts(t);
    AllNone();
    assert AllIds(fs, t, []) == PathIds(fs) + multiset{id} + IdsAll(kids) + Ids(orphan);
    KeysSet(m, id, n, AllIds(fs, t, []));
  }

  /** The block is full: it is split, and the new half waits in turn. */
  lemma IndexDivided(c: Limits, m: Blocks, fs: seq<Frame>, top: nat, id: nat, kids: seq<Tree>, orphan: Tree, s: Slot,
                     p: nat, l: seq<nat>, r: seq<nat>, here: bool, a: Block, b: Block)
    returns (near: Tree, far: Tree)
    requires Above(c, m, fs, top, id, kids, orphan, s) && p !in m
    requires IndexSplit(c, m[id].slots[..m[id].size], s, l, r, here, a, b, top - |fs|)
    ensures near.id == id && far.id == p
    ensures Pending(c, m[id := a][p := b], fs, top, near, [far], false)
    ensures Held(near) + Held(far) == HeldAll(kids) + Held(orphan)
  {
    hide PathGood, SlotsGood, SlotGood, PathIds, IdsAll, Ids, HeldAll, Held, Distinct, KeysAre, Good, Same, Shares,
      HoldsSlots, Below;
    var h := top - |fs| - 1;
    var m2, ss := m[id := a][p := b], m[id].slots[..m[id].size];
    AboveApart(c, m, fs, top, id, kids, orphan, s);
    SlotsLength(c, m, ss, kids, h);
    SharesAll(l, r, kids);
    SlotsPick(c, m, ss, kids, h, l);
    SlotsPick(c, m, ss, kids, h, r);
    SlotsAppend(c, m, Pick(ss, l), Pick(kids, l), h, s, orphan);
    SlotsAppend(c, m, Pick(ss, r), Pick(kids, r), h, s, orphan);
    assert Pick(ss, l) + [] == Pick(ss, l) && Pick(ss, r) + [] == Pick(ss, r);
    near := TNode(id, if here then Pick(kids, l) + [orphan] else Pick(kids, l));
    far := TNode(p, if here then Pick(kids, r) else Pick(kids, r) + [orphan]);
    NodeParts(near);
    NodeParts(far);
    AllOne(far);
    assert IdsAll(near.kids) + IdsAll(far.kids) == IdsAll(kids) + Ids(orphan);
    SameTwo(m, id, a, p, b, IdsAll(near.kids));
    SameTwo(m, id, a, p, b, IdsAll(far.kids));
    NodeGood(c, m, m2, id, if here then Pick(ss, l) + [s] else Pick(ss, l), near.kids, h);
    NodeGood(c, m, m2, p, if here then Pick(ss, r) else Pick(ss, r) + [s], far.kids, h);
    SameTwo(m, id, a, p, b, PathIds(fs));
    PathKept(c, m, m2, fs, top, id, true);
    var ids := PathIds(fs) + multiset{id} + IdsAll(kids) + Ids(orphan);
    assert AllIds(fs, near, [far]) == ids + multiset{p};
    KeysSet(m, id, a, ids);
    KeysAdd(m[id := a], p, b, ids);
  }

  lemma SlotsLength(c: Limits, m: Blocks, ss: seq<Slot>, kids: seq<Tree>, h: nat)
    requires SlotsGood(c, m, ss, kids, h)
    ensures |ss| == |kids|
  {}

  /** No block is left above: a new root takes both halves. */
  lemma RootGrown(c: Limits, m: Blocks, top: nat, sub: Tree, orphan: Tree, p: nat, n: Block)
    requires Pending(c, m, [], top, sub, [orphan], true) && p !in m && c.index >= 2
    ensures orphan.id in m && Filled(m[orphan.id]) && sub.id in m && Filled(m[sub.id])
    ensures
      HoldsSlots(n, top + 1, [Slot(BoxOf(c.dims, m[sub.id]), sub.id), Slot(BoxOf(c.dims, m[orphan.id]), orphan.id)]) ==>
        Pending(c, m[p := n], [], top + 1, TNode(p, [sub, orphan]), [], true)
    ensures Held(TNode(p, [sub, orphan])) == Held(sub) + Held(orphan)
  {
    hide SlotsGood, PathIds, IdsAll, Ids, HeldAll, Held, Distinct, KeysAre, Good, Same, BoxOf;
    var t := TNode(p, [sub, orphan]);
    PendingFacts(c, m, [], top, sub, [orphan], true);
    assert Good(c, m, [orphan][0], top);
    AllOne(orphan);
    AllOne(sub);
    NodeParts(t);
    AllNone();
    PathNone();
    AllConcat([sub], [orphan]);
    assert t.kids == [sub] + [orphan];
    var s1, s2 := Slot(BoxOf(c.dims, m[sub.id]), sub.id), Slot(BoxOf(c.dims, m[orphan.id]), orphan.id);
    assert SlotsGood(c, m, [s1, s2], t.kids, top) by {
      SlotsTwo(c, m, s1, s2, sub, orphan, top);
    }
    assert AllIds([], t, []) == AllIds([], sub, [orphan]) + multiset{p};
    KeysAdd(m, p, n, AllIds([], sub, [orphan]));
    if HoldsSlots(n, top + 1, [s1, s2]) {
      SameNew(m, p, n, IdsAll(t.kids));
      NodeGood(c, m, m[p := n], p, [s1, s2], t.kids, top);
      assert PathGood(c, m[p := n], [], top + 1, p, true);
      PendingFrom(c, m[p := n], [], top + 1, t, [], true);
    }
  }

  lemma SlotsTwo(c: Limits, m: Blocks, s1: Slot, s2: Slot, t1: Tree, t2: Tree, h: nat)
    requires SlotGood(c, m, s1, t1, h) && SlotGood(c, m, s2, t2, h)
    ensures SlotsGood(c, m, [s1, s2], [t1, t2], h)
  {
    hide SlotGood;
  }

  lemma SameNew(m: Blocks, p: nat, n: Block, ids: multiset<nat>)
    requires p !in m
    ensures Same(m, m[p := n], ids)
  {}

  lemma PathNone()
    ensures PathIds([]) == multiset{} && PathHeld([]) == multiset{}
  {}

  /** The address of the block at the top. */
  ghost function TopId(fs: seq<Frame>, sub: Tree): nat {
    if fs == [] then sub.id else fs[0].id
  }

  lemma {:induction false} PlugAllId(fs: seq<Frame>, sub: Tree)
    ensures PlugAll(fs, sub).id == TopId(fs, sub)
    decreases |fs|
  {
    if fs != [] {
      PlugAllId(fs[..|fs| - 1], Plug(fs[|fs| - 1], sub));
    }
  }

  /** A whole tree is a path of no frames. */
  lemma Begin(c: Limits, m: Blocks, t: Tree, h: nat)
    requires Good(c, m, t, h) && Distinct(Ids(t)) && KeysAre(m, Ids(t))
    ensures Pending(c, m, [], h, t, [], true) && AllHeld([], t, []) == Held(t)
  {
    hide Good, Ids, Held, Distinct, KeysAre;
    assert AllIds([], t, []) == Ids(t);
  }

  lemma Lower(c: Limits, m: Blocks, fs: seq<Frame>, sub: Tree, top: nat, i: nat)
    requires |fs| < top && Pending(c, m, fs, top, sub, [], true) && sub.TNode? && i < |sub.kids|
    ensures Pending(c, m, fs + [FrameAt(sub, i)], top, sub.kids[i], [], true)
    ensures AllHeld(fs + [FrameAt(sub, i)], sub.kids[i], []) == AllHeld(fs, sub, [])
  {
    hide PathGood, Good, Ids, Held, PathIds, PathHeld, IdsAll, HeldAll, Distinct, KeysAre;
    Descend(c, m, fs, sub, top, i);
  }

  lemma NoFrames(c: Limits, m: Blocks, top: nat, hole: nat)
    ensures PathGood(c, m, [], top, hole, true) && SameExcept(m, m, PathIds([]))
  {}

  lemma PendingIds(c: Limits, m: Blocks, fs: seq<Frame>, top: nat, sub: Tree, extra: seq<Tree>, exact: bool)
    requires Pending(c, m, fs, top, sub, extra, exact)
    ensures |fs| <= top && sub.id in m && Filled(m[sub.id]) && m[sub.id].level == top - |fs|
    ensures forall i :: 0 <= i < |extra| ==> extra[i].id in m && Filled(m[extra[i].id])
  {
    forall i | 0 <= i < |extra| ensures extra[i].id in m && Filled(m[extra[i].id]) {
      assert Good(c, m, extra[i], top - |fs|);
    }
  }

  lemma PendingNode(c: Limits, m: Blocks, fs: seq<Frame>, top: nat, sub: Tree)
    requires Pending(c, m, fs, top, sub, [], true) && |fs| < top
    ensures sub.id in m && m[sub.id].Index? && Filled(m[sub.id]) && m[sub.id].level == top - |fs|
    ensures sub.TNode? && |sub.kids| == m[sub.id].size
    ensures forall i :: 0 <= i < |sub.kids| ==> m[sub.id].slots[i].child == sub.kids[i].id
  {
    hide Good, Distinct, KeysAre;
    KidsOf(c, m, sub, top - |fs|);
  }

  lemma PendingLeaf(c: Limits, m: Blocks, fs: seq<Frame>, top: nat, sub: Tree)
    requires Pending(c, m, fs, top, sub, [], true) && |fs| == top
    ensures sub.TLeaf? && sub.id in m && LeafGood(c, m[sub.id], sub.entries) && m[sub.id].level == 0
  {
    hide Distinct, KeysAre;
  }

  lemma HeldOne(fs: seq<Frame>, sub: Tree)
    ensures AllHeld(fs, sub, []) == PathHeld(fs) + Held(sub)
  {}

  lemma HeldTwo(fs: seq<Frame>, sub: Tree, orphan: Tree)
    ensures AllHeld(fs, sub, [orphan]) == PathHeld(fs) + (Held(sub) + Held(orphan))
  {
    AllOne(orphan);
  }

  lemma PlugShape(f: Frame, sub: Tree)
    ensures Plug(f, sub).TNode? && Plug(f, sub).id == f.id
  {}

  lemma AboveFacts(c: Limits, m: Blocks, fs: seq<Frame>, top: nat, id: nat, kids: seq<Tree>, orphan: Tree, s: Slot)
    requires Above(c, m, fs, top, id, kids, orphan, s)
    ensures id in m && m[id].Index? && 1 <= m[id].size <= |m[id].slots| && m[id].size <= c.index
    ensures |fs| < top && m[id].level == top - |fs|
    ensures HoldsSlots(m[id], m[id].level, m[id].slots[..m[id].size])
  {}

  lemma OneMoreSlot(c: Limits, n: Block, s: Slot)
    requires n.Index? && 1 <= n.size <= |n.slots| && n.size < c.index
    ensures IndexSized(c, PutSlot(n, s)) && HoldsSlots(PutSlot(n, s), n.level, n.slots[..n.size] + [s])
  {
    hide PutSlot;
  }

  lemma LeafRoom(c: Limits, n: Block, es: seq<Entry>, e: Entry)
    requires LeafGood(c, n, es) && |e.point| == c.dims && n.level == 0
    ensures n.Leaf? && n.size == |es| <= |n.entries| && |es| <= c.leaf
    ensures |es| < c.leaf ==> LeafGood(c, PutEntry(n, e), es + [e]) && PutEntry(n, e).level == 0
  {
    hide PutEntry;
  }

  lemma HeldLeaf(t: Tree)
    requires t.TLeaf?
    ensures Held(t) == multiset(t.entries)
  {}

  lemma FirstTree(c: Limits, m: Blocks, leaf: nat, top: nat, e: Entry)
    requires c.leaf >= 1 && c.index >= 1 && |e.point| == c.dims && leaf != top
    requires m == map[leaf := Leaf(0, 1, [e]), top := Index(1, 1, [Slot(PointRect(e.point), leaf)])]
    ensures
      var t := TNode(top, [TLeaf(leaf, [e])]);
      Good(c, m, t, 1) && Distinct(Ids(t)) && KeysAre(m, Ids(t)) && Held(t) == multiset{e}
  {
    var kid := TLeaf(leaf, [e]);
    AllOne(kid);
    assert m[leaf].entries[..1] == [e];
    assert LeafGood(c, m[leaf], [e]);
    assert BoxOf(c.dims, m[leaf]) == PointRect(e.point);
    assert SlotGood(c, m, Slot(PointRect(e.point), leaf), kid, 0);
  }
}
