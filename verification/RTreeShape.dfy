/** What a block of the R-tree holds, and the tree that a set of blocks represents. */
module RTreeShape {
  import opened RTreeGeometry

  datatype Entry = Entry(point: Point, payload: int)

  datatype Slot = Slot(rect: Rect, child: nat)

  /** One block: `size` counts the live entries, what lies behind them is left over from before a split. */
  datatype Block =
    | Leaf(level: nat, size: nat, entries: seq<Entry>)
    | Index(level: nat, size: nat, slots: seq<Slot>)

  type Blocks = map<nat, Block>

  /** The template parameters: dimensions, and the capacities that follow from the block size. */
  datatype Limits = Limits(dims: nat, leaf: nat, index: nat)

  predicate Filled(n: Block) {
    if n.Leaf? then 1 <= n.size <= |n.entries| else 1 <= n.size <= |n.slots|
  }

  // ----- Bounding boxes

  function BoxOfEntries(d: nat, es: seq<Entry>): Rect
    requires |es| > 0
  {
    var last := PointRect(es[|es| - 1].point);
    if |es| == 1 then last else Union(d, BoxOfEntries(d, es[..|es| - 1]), last)
  }

  function BoxOfSlots(d: nat, ss: seq<Slot>): Rect
    requires |ss| > 0
  {
    var last := ss[|ss| - 1].rect;
    if |ss| == 1 then last else Union(d, BoxOfSlots(d, ss[..|ss| - 1]), last)
  }

  function BoxOf(d: nat, n: Block): Rect
    requires Filled(n)
  {
    if n.Leaf? then BoxOfEntries(d, n.entries[..n.size]) else BoxOfSlots(d, n.slots[..n.size])
  }

  /** The rectangle is the smallest one: it holds every point, and each side touches one. */
  ghost predicate IsBox(d: nat, r: Rect, es: multiset<Entry>) {
    && (forall e :: e in es ==> Inside(d, r, e.point))
    && (forall i: nat :: i < d ==> TouchesMin(r, es, i) && TouchesMax(r, es, i))
  }

  ghost predicate TouchesMin(r: Rect, es: multiset<Entry>, i: nat) {
    exists e :: e in es && At(e.point, i) == At(r.min, i)
  }

  ghost predicate TouchesMax(r: Rect, es: multiset<Entry>, i: nat) {
    exists e :: e in es && At(e.point, i) == At(r.max, i)
  }

  lemma UnionIsBox(d: nat, r: Rect, s: Rect, es: multiset<Entry>, fs: multiset<Entry>)
    requires IsBox(d, r, es) && IsBox(d, s, fs)
    ensures IsBox(d, Union(d, r, s), es + fs)
  {
    var u, all := Union(d, r, s), es + fs;
    forall e | e in all ensures Inside(d, u, e.point) {
      assert e in es || e in fs;
      InsideUnion(d, r, s, e.point);
    }
    forall i: nat | i < d ensures TouchesMin(u, all, i) && TouchesMax(u, all, i) {
      UnionAt(d, r, s, i);
      assert TouchesMin(r, es, i) && TouchesMax(r, es, i) && TouchesMin(s, fs, i) && TouchesMax(s, fs, i);
      var a, b :| a in es && At(a.point, i) == At(r.min, i) && b in fs && At(b.point, i) == At(s.min, i);
      assert a in all && b in all;
      var c, e :| c in es && At(c.point, i) == At(r.max, i) && e in fs && At(e.point, i) == At(s.max, i);
      assert c in all && e in all;
    }
  }

  lemma {:induction false} EntriesBox(d: nat, es: seq<Entry>)
    requires |es| > 0
    ensures IsBox(d, BoxOfEntries(d, es), multiset(es))
  {
    var n := |es| - 1;
    var last := [es[n]];
    assert IsBox(d, PointRect(es[n].point), multiset(last)) by {
      assert es[n] in multiset(last);
    }
    if n == 0 {
      assert es == last;
    } else {
      EntriesBox(d, es[..n]);
      UnionIsBox(d, BoxOfEntries(d, es[..n]), PointRect(es[n].point), multiset(es[..n]), multiset(last));
      assert es == es[..n] + last;
    }
  }

  // ----- The tree the blocks stand for

  /** The shape of a subtree, with the addresses of its blocks and the points of its leaves. */
  datatype Tree =
    | TLeaf(id: nat, entries: seq<Entry>)
    | TNode(id: nat, kids: seq<Tree>)

  ghost function Ids(t: Tree): multiset<nat> {
    match t
    case TLeaf(id, _) => multiset{id}
    case TNode(id, kids) => multiset{id} + IdsAll(kids)
  }

  ghost function IdsAll(ts: seq<Tree>): multiset<nat> {
    if ts == [] then multiset{} else Ids(ts[0]) + IdsAll(ts[1..])
  }

  ghost function Held(t: Tree): multiset<Entry> {
    match t
    case TLeaf(_, es) => multiset(es)
    case TNode(_, kids) => HeldAll(kids)
  }

  ghost function HeldAll(ts: seq<Tree>): multiset<Entry> {
    if ts == [] then multiset{} else Held(ts[0]) + HeldAll(ts[1..])
  }

  lemma {:induction false} AllConcat(a: seq<Tree>, b: seq<Tree>)
    ensures IdsAll(a + b) == IdsAll(a) + IdsAll(b)
    ensures HeldAll(a + b) == HeldAll(a) + HeldAll(b)
  {
    if a == [] {
      assert a + b == b;
    } else {
      assert (a + b)[1..] == a[1..] + b;
      AllConcat(a[1..], b);
    }
  }

  lemma AllOne(t: Tree)
    ensures IdsAll([t]) == Ids(t) && HeldAll([t]) == Held(t)
  {
    assert [t][1..] == [];
  }

  lemma {:induction false} AllMember(ts: seq<Tree>, i: nat)
    requires i < |ts|
    ensures Ids(ts[i]) <= IdsAll(ts) && Held(ts[i]) <= HeldAll(ts)
    ensures IdsAll(ts) == IdsAll(ts[..i]) + Ids(ts[i]) + IdsAll(ts[i + 1..])
    ensures HeldAll(ts) == HeldAll(ts[..i]) + Held(ts[i]) + HeldAll(ts[i + 1..])
  {
    assert ts == ts[..i] + ([ts[i]] + ts[i + 1..]);
    AllConcat(ts[..i], [ts[i]] + ts[i + 1..]);
    AllConcat([ts[i]], ts[i + 1..]);
    AllOne(ts[i]);
  }

  /** Slots and subtrees go together: right child, and the exact bounding box of it. */
  ghost predicate SlotsGood(c: Limits, m: Blocks, ss: seq<Slot>, kids: seq<Tree>, h: nat)
    decreases h, 2
  {
    |ss| == |kids| && forall i :: 0 <= i < |kids| ==> SlotGood(c, m, ss[i], kids[i], h)
  }

  ghost predicate SlotGood(c: Limits, m: Blocks, s: Slot, kid: Tree, h: nat)
    decreases h, 1
  {
    s.child == kid.id && Good(c, m, kid, h) && s.rect == BoxOf(c.dims, m[kid.id])
  }

  /** The blocks `m` hold the subtree `t`, whose leaves all lie `h` levels down. */
  ghost predicate Good(c: Limits, m: Blocks, t: Tree, h: nat)
    ensures Good(c, m, t, h) ==> t.id in m && Filled(m[t.id])
    decreases h, 0
  {
    t.id in m && m[t.id].level == h &&
    match t
    case TLeaf(id, es) => h == 0 && LeafGood(c, m[id], es)
    case TNode(id, kids) => h > 0 && IndexSized(c, m[id]) && SlotsGood(c, m, m[id].slots[..m[id].size], kids, h - 1)
  }

  ghost predicate LeafGood(c: Limits, n: Block, es: seq<Entry>) {
    n.Leaf? && Filled(n) && n.size <= c.leaf && n.entries[..n.size] == es &&
    forall i :: 0 <= i < |es| ==> |es[i].point| == c.dims
  }

  ghost predicate IndexSized(c: Limits, n: Block) {
    n.Index? && Filled(n) && n.size <= c.index
  }

  /** Every block of the subtree reads the same in `m2`. */
  ghost predicate Same(m: Blocks, m2: Blocks, ids: multiset<nat>) {
    forall x :: x in ids && x in m ==> x in m2 && m2[x] == m[x]
  }

  lemma {:induction false} GoodFrame(c: Limits, m: Blocks, m2: Blocks, t: Tree, h: nat)
    requires Good(c, m, t, h) && Same(m, m2, Ids(t))
    ensures Good(c, m2, t, h) && m2[t.id] == m[t.id]
    decreases h, 0
  {
    assert t.id in Ids(t);
    if t.TNode? {
      SlotsFrame(c, m, m2, m[t.id].slots[..m[t.id].size], t.kids, h - 1);
    }
  }

  lemma {:induction false} SlotsFrame(c: Limits, m: Blocks, m2: Blocks, ss: seq<Slot>, kids: seq<Tree>, h: nat)
    requires SlotsGood(c, m, ss, kids, h) && Same(m, m2, IdsAll(kids))
    ensures SlotsGood(c, m2, ss, kids, h)
    decreases h, 1
  {
    forall i | 0 <= i < |kids| ensures SlotGood(c, m2, ss[i], kids[i], h) {
      assert SlotGood(c, m, ss[i], kids[i], h);
      AllMember(kids, i);
      GoodFrame(c, m, m2, kids[i], h);
    }
  }

  /** A rectangle stored for a subtree is exactly the bounding box of the points in it. */
  lemma {:induction false} GoodBox(c: Limits, m: Blocks, t: Tree, h: nat)
    requires Good(c, m, t, h)
    ensures IsBox(c.dims, BoxOf(c.dims, m[t.id]), Held(t))
    decreases h, 0
  {
    if t.TLeaf? {
      EntriesBox(c.dims, t.entries);
    } else {
      SlotsBox(c, m, m[t.id].slots[..m[t.id].size], t.kids, h - 1);
    }
  }

  lemma {:induction false} SlotsBox(c: Limits, m: Blocks, ss: seq<Slot>, kids: seq<Tree>, h: nat)
    requires SlotsGood(c, m, ss, kids, h) && |ss| > 0
    ensures IsBox(c.dims, BoxOfSlots(c.dims, ss), HeldAll(kids))
    decreases h, 1, |ss|
  {
    hide IsBox, Good;
    var n := |ss| - 1;
    assert SlotGood(c, m, ss[n], kids[n], h);
    GoodBox(c, m, kids[n], h);
    AllOne(kids[n]);
    if n == 0 {
      assert kids == [kids[0]];
    } else {
      assert SlotsGood(c, m, ss[..n], kids[..n], h) by {
        forall i | 0 <= i < n ensures SlotGood(c, m, ss[..n][i], kids[..n][i], h) {
          assert SlotGood(c, m, ss[i], kids[i], h);
        }
      }
      SlotsBox(c, m, ss[..n], kids[..n], h);
      UnionIsBox(c.dims, BoxOfSlots(c.dims, ss[..n]), ss[n].rect, HeldAll(kids[..n]), Held(kids[n]));
      assert kids == kids[..n] + [kids[n]];
      AllConcat(kids[..n], [kids[n]]);
    }
  }

  /** All leaves lie exactly `h` levels down. */
  ghost predicate Balanced(t: Tree, h: nat) {
    if t.TLeaf? then h == 0 else h > 0 && forall i :: 0 <= i < |t.kids| ==> Balanced(t.kids[i], h - 1)
  }

  /** The tree is balanced with the stored levels, and no block is empty or over its capacity. */
  lemma {:induction false} GoodShape(c: Limits, m: Blocks, t: Tree, h: nat)
    requires Good(c, m, t, h)
    ensures Balanced(t, h) && m[t.id].level == h
    ensures forall x :: x in Ids(t) ==> x in m && 1 <= m[x].size <= (if m[x].Leaf? then c.leaf else c.index)
    decreases h, 0
  {
    if t.TNode? {
      var ss := m[t.id].slots[..m[t.id].size];
      forall i | 0 <= i < |t.kids| ensures Balanced(t.kids[i], h - 1) {
        assert SlotGood(c, m, ss[i], t.kids[i], h - 1);
        GoodShape(c, m, t.kids[i], h - 1);
      }
      AllShapes(c, m, ss, t.kids, h - 1);
    }
  }

  lemma {:induction false} AllShapes(c: Limits, m: Blocks, ss: seq<Slot>, kids: seq<Tree>, h: nat)
    requires SlotsGood(c, m, ss, kids, h)
    ensures forall x :: x in IdsAll(kids) ==> x in m && 1 <= m[x].size <= (if m[x].Leaf? then c.leaf else c.index)
    decreases h, 1, |kids|
  {
    hide Good;
    if kids != [] {
      assert SlotGood(c, m, ss[0], kids[0], h);
      GoodShape(c, m, kids[0], h);
      forall i | 0 <= i < |kids| - 1 ensures SlotGood(c, m, ss[1..][i], kids[1..][i], h) {
        assert SlotGood(c, m, ss[i + 1], kids[i + 1], h);
      }
      AllShapes(c, m, ss[1..], kids[1..], h);
    }
  }
}
