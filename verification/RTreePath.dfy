/** A path from the root to a subtree: what hangs left and right of it, and how the tree is put together again. */
module RTreePath {
  import opened RTreeGeometry
  import opened RTreeShape

  /** An index block on the path, with the subtrees before and after the one the path goes through. */
  datatype Frame = Frame(id: nat, left: seq<Tree>, right: seq<Tree>)

  ghost function Plug(f: Frame, sub: Tree): Tree {
    TNode(f.id, f.left + [sub] + f.right)
  }

  ghost function FrameIds(f: Frame): multiset<nat> {
    multiset{f.id} + IdsAll(f.left) + IdsAll(f.right)
  }

  ghost function FrameHeld(f: Frame): multiset<Entry> {
    HeldAll(f.left) + HeldAll(f.right)
  }

  lemma PlugParts(f: Frame, sub: Tree)
    ensures Ids(Plug(f, sub)) == FrameIds(f) + Ids(sub)
    ensures Held(Plug(f, sub)) == FrameHeld(f) + Held(sub)
  {
    AllConcat(f.left + [sub], f.right);
    AllConcat(f.left, [sub]);
    AllOne(sub);
  }

  /** The block of the frame is in order, except that the rectangle of `hole` may be out of date. */
  ghost predicate FrameGood(c: Limits, m: Blocks, f: Frame, h: nat, hole: nat) {
    h > 0 && f.id in m && m[f.id].level == h && FrameSlots(c, m, m[f.id], f, h - 1, hole)
  }

  ghost predicate FrameSlots(c: Limits, m: Blocks, n: Block, f: Frame, h: nat, hole: nat) {
    && IndexSized(c, n)
    && n.size == |f.left| + 1 + |f.right|
    && SlotsGood(c, m, n.slots[..|f.left|], f.left, h)
    && SlotsGood(c, m, n.slots[|f.left| + 1..n.size], f.right, h)
    && n.slots[|f.left|].child == hole
  }

  /** The rectangle stored for `hole` is its bounding box. */
  ghost predicate HoleExact(c: Limits, m: Blocks, f: Frame, hole: nat) {
    && f.id in m && m[f.id].Index? && |f.left| < |m[f.id].slots|
    && hole in m && Filled(m[hole])
    && m[f.id].slots[|f.left|].rect == BoxOf(c.dims, m[hole])
  }

  /** The frame of child `i`. */
  ghost function FrameAt(t: Tree, i: nat): Frame
    requires t.TNode? && i < |t.kids|
  {
    Frame(t.id, t.kids[..i], t.kids[i + 1..])
  }

  lemma Open(c: Limits, m: Blocks, t: Tree, h: nat, i: nat)
    requires Good(c, m, t, h) && t.TNode? && i < |t.kids|
    ensures Plug(FrameAt(t, i), t.kids[i]) == t
    ensures FrameGood(c, m, FrameAt(t, i), h, t.kids[i].id) && HoleExact(c, m, FrameAt(t, i), t.kids[i].id)
    ensures Good(c, m, t.kids[i], h - 1)
    ensures Ids(t) == FrameIds(FrameAt(t, i)) + Ids(t.kids[i])
    ensures Held(t) == FrameHeld(FrameAt(t, i)) + Held(t.kids[i])
  {
    var f, n := FrameAt(t, i), m[t.id];
    assert t.kids == f.left + [t.kids[i]] + f.right;
    PlugParts(f, t.kids[i]);
    var ss := n.slots[..n.size];
    assert SlotGood(c, m, ss[i], t.kids[i], h - 1);
    assert SlotsGood(c, m, n.slots[..i], f.left, h - 1) by {
      forall j | 0 <= j < i ensures SlotGood(c, m, n.slots[..i][j], f.left[j], h - 1) {
        assert SlotGood(c, m, ss[j], t.kids[j], h - 1);
      }
    }
    assert SlotsGood(c, m, n.slots[i + 1..n.size], f.right, h - 1) by {
      forall j | 0 <= j < |f.right| ensures SlotGood(c, m, n.slots[i + 1..n.size][j], f.right[j], h - 1) {
        assert SlotGood(c, m, ss[i + 1 + j], t.kids[i + 1 + j], h - 1);
      }
    }
  }

  lemma Close(c: Limits, m: Blocks, f: Frame, sub: Tree, h: nat)
    requires FrameGood(c, m, f, h, sub.id) && HoleExact(c, m, f, sub.id) && Good(c, m, sub, h - 1)
    ensures Good(c, m, Plug(f, sub), h)
  {
    var n, kids, a := m[f.id], Plug(f, sub).kids, |f.left|;
    var ss := n.slots[..n.size];
    forall i | 0 <= i < |kids| ensures SlotGood(c, m, ss[i], kids[i], h - 1) {
      if i < a {
        assert SlotGood(c, m, n.slots[..a][i], f.left[i], h - 1);
      } else if i > a {
        assert SlotGood(c, m, n.slots[a + 1..n.size][i - a - 1], f.right[i - a - 1], h - 1);
      }
    }
    assert SlotsGood(c, m, ss, kids, h - 1);
  }

  lemma SameParts(m: Blocks, m2: Blocks, f: Frame)
    requires Same(m, m2, FrameIds(f))
    ensures Same(m, m2, IdsAll(f.left)) && Same(m, m2, IdsAll(f.right))
    ensures f.id in m ==> f.id in m2 && m2[f.id] == m[f.id]
  {
    hide IdsAll;
    assert f.id in FrameIds(f);
    assert forall x :: x in IdsAll(f.left) || x in IdsAll(f.right) ==> x in FrameIds(f);
  }

  lemma FrameKept(c: Limits, m: Blocks, m2: Blocks, f: Frame, h: nat, hole: nat)
    requires FrameGood(c, m, f, h, hole) && Same(m, m2, FrameIds(f))
    ensures FrameGood(c, m2, f, h, hole) && m2[f.id] == m[f.id]
  {
    hide SlotsGood, IdsAll, Same;
    SameParts(m, m2, f);
    SlotsFrame(c, m, m2, m[f.id].slots[..|f.left|], f.left, h - 1);
    SlotsFrame(c, m, m2, m[f.id].slots[|f.left| + 1..m[f.id].size], f.right, h - 1);
  }

  /** No block is used twice. */
  ghost predicate Distinct(ids: multiset<nat>) {
    forall x :: ids[x] <= 1
  }

  ghost predicate SameExcept(m: Blocks, m2: Blocks, ids: multiset<nat>) {
    m2.Keys == m.Keys && forall x :: x in m && x !in ids ==> m2[x] == m[x]
  }

  function SetRect(n: Block, i: nat, r: Rect): Block
    requires n.Index? && i < |n.slots|
  {
    n.(slots := n.slots[i := n.slots[i].(rect := r)])
  }

  lemma SameElsewhere(m: Blocks, x: nat, n: Block, ids: multiset<nat>)
    requires x !in ids
    ensures Same(m, m[x := n], ids)
  {}

  lemma DistinctFrame(f: Frame, ids: multiset<nat>)
    requires Distinct(FrameIds(f) + ids)
    ensures f.id !in ids && f.id !in IdsAll(f.left) && f.id !in IdsAll(f.right)
  {
    hide IdsAll;
    var a, b, x := IdsAll(f.left), IdsAll(f.right), f.id;
    assert (multiset{x} + a + b + ids)[x] == 1 + a[x] + b[x] + ids[x];
  }

  /** Storing the current bounding box of the child repairs the block. */
  lemma Repair(c: Limits, m: Blocks, f: Frame, sub: Tree, h: nat)
    requires FrameGood(c, m, f, h, sub.id) && Good(c, m, sub, h - 1)
    requires Distinct(FrameIds(f) + Ids(sub))
    ensures
      var n := SetRect(m[f.id], |f.left|, BoxOf(c.dims, m[sub.id]));
      var m2 := m[f.id := n];
      Good(c, m2, sub, h - 1) && FrameGood(c, m2, f, h, sub.id) && HoleExact(c, m2, f, sub.id)
  {
    hide Good, SlotsGood, Ids, IdsAll, Same, FrameIds, Distinct, BoxOf;
    var n := SetRect(m[f.id], |f.left|, BoxOf(c.dims, m[sub.id]));
    var m2 := m[f.id := n];
    DistinctFrame(f, Ids(sub));
    SameElsewhere(m, f.id, n, Ids(sub));
    SameElsewhere(m, f.id, n, IdsAll(f.left));
    SameElsewhere(m, f.id, n, IdsAll(f.right));
    GoodFrame(c, m, m2, sub, h - 1);
    SlotsFrame(c, m, m2, m[f.id].slots[..|f.left|], f.left, h - 1);
    SlotsFrame(c, m, m2, m[f.id].slots[|f.left| + 1..m[f.id].size], f.right, h - 1);
    assert n.slots[..|f.left|] == m[f.id].slots[..|f.left|];
    assert n.slots[|f.left| + 1..n.size] == m[f.id].slots[|f.left| + 1..m[f.id].size];
  }

  // ----- Whole paths

  ghost function PathIds(fs: seq<Frame>): multiset<nat> {
    if fs == [] then multiset{} else PathIds(fs[..|fs| - 1]) + FrameIds(fs[|fs| - 1])
  }

  ghost function PathHeld(fs: seq<Frame>): multiset<Entry> {
    if fs == [] then multiset{} else PathHeld(fs[..|fs| - 1]) + FrameHeld(fs[|fs| - 1])
  }

  ghost function HoleOf(fs: seq<Frame>, j: nat, hole: nat): nat
    requires j < |fs|
  {
    if j + 1 < |fs| then fs[j + 1].id else hole
  }

  /** All frames of a path that starts `top` levels above the leaves; `exact` when no rectangle on it is out of date. */
  ghost predicate PathGood(c: Limits, m: Blocks, fs: seq<Frame>, top: nat, hole: nat, exact: bool) {
    |fs| <= top &&
    forall j :: 0 <= j < |fs| ==>
      FrameGood(c, m, fs[j], top - j, HoleOf(fs, j, hole)) && (exact ==> HoleExact(c, m, fs[j], HoleOf(fs, j, hole)))
  }

  ghost function PlugAll(fs: seq<Frame>, sub: Tree): Tree {
    if fs == [] then sub else PlugAll(fs[..|fs| - 1], Plug(fs[|fs| - 1], sub))
  }

  lemma PathShort(c: Limits, m: Blocks, fs: seq<Frame>, top: nat, hole: nat, exact: bool)
    requires PathGood(c, m, fs, top, hole, exact)
    ensures |fs| <= top
  {}

  lemma PathPop(c: Limits, m: Blocks, fs: seq<Frame>, top: nat, hole: nat, exact: bool)
    requires PathGood(c, m, fs, top, hole, exact) && |fs| > 0
    ensures PathGood(c, m, fs[..|fs| - 1], top, fs[|fs| - 1].id, exact)
    ensures FrameGood(c, m, fs[|fs| - 1], top - (|fs| - 1), hole)
    ensures exact ==> HoleExact(c, m, fs[|fs| - 1], hole)
  {
    hide FrameGood, HoleExact;
    var n := |fs| - 1;
    assert HoleOf(fs, n, hole) == hole;
    var gs := fs[..n];
    forall j | 0 <= j < n
      ensures FrameGood(c, m, gs[j], top - j, HoleOf(gs, j, fs[n].id))
      ensures exact ==> HoleExact(c, m, gs[j], HoleOf(gs, j, fs[n].id))
    {
      assert HoleOf(gs, j, fs[n].id) == HoleOf(fs, j, hole);
    }
  }

  lemma PathPush(c: Limits, m: Blocks, fs: seq<Frame>, f: Frame, top: nat, hole: nat, exact: bool)
    requires PathGood(c, m, fs, top, f.id, exact) && |fs| < top
    requires FrameGood(c, m, f, top - |fs|, hole) && (exact ==> HoleExact(c, m, f, hole))
    ensures PathGood(c, m, fs + [f], top, hole, exact)
    ensures PathIds(fs + [f]) == PathIds(fs) + FrameIds(f) && PathHeld(fs + [f]) == PathHeld(fs) + FrameHeld(f)
  {
    hide FrameGood, HoleExact;
    var gs := fs + [f];
    assert gs[..|fs|] == fs;
    forall j | 0 <= j < |gs|
      ensures FrameGood(c, m, gs[j], top - j, HoleOf(gs, j, hole))
      ensures exact ==> HoleExact(c, m, gs[j], HoleOf(gs, j, hole))
    {
      if j < |fs| {
        assert HoleOf(gs, j, hole) == HoleOf(fs, j, f.id);
      }
    }
  }

  lemma {:induction false} PathMember(fs: seq<Frame>, j: nat)
    requires j < |fs|
    ensures FrameIds(fs[j]) <= PathIds(fs)
    decreases |fs|
  {
    if j < |fs| - 1 {
      PathMember(fs[..|fs| - 1], j);
    }
  }

  lemma PathKept(c: Limits, m: Blocks, m2: Blocks, fs: seq<Frame>, top: nat, hole: nat, exact: bool)
    requires PathGood(c, m, fs, top, hole, exact) && Same(m, m2, PathIds(fs))
    ensures PathGood(c, m2, fs, top, hole, false)
  {
    hide FrameGood, HoleExact, FrameIds, PathIds;
    forall j | 0 <= j < |fs| ensures FrameGood(c, m2, fs[j], top - j, HoleOf(fs, j, hole)) {
      PathMember(fs, j);
      FrameKept(c, m, m2, fs[j], top - j, HoleOf(fs, j, hole));
    }
  }

  /** A path without stale rectangles closes to a good tree. */
  lemma {:induction false} CloseAll(c: Limits, m: Blocks, fs: seq<Frame>, sub: Tree, top: nat)
    requires PathGood(c, m, fs, top, sub.id, true) && Good(c, m, sub, top - |fs|)
    ensures Good(c, m, PlugAll(fs, sub), top)
    ensures Ids(PlugAll(fs, sub)) == PathIds(fs) + Ids(sub)
    ensures Held(PlugAll(fs, sub)) == PathHeld(fs) + Held(sub)
    decreases |fs|
  {
    hide Good, FrameGood, HoleExact, PathGood, Ids, Held, FrameIds, FrameHeld;
    if |fs| > 0 {
      var n := |fs| - 1;
      PathPop(c, m, fs, top, sub.id, true);
      PathShort(c, m, fs, top, sub.id, true);
      Close(c, m, fs[n], sub, top - n);
      PlugParts(fs[n], sub);
      CloseAll(c, m, fs[..n], Plug(fs[n], sub), top);
    }
  }

  // ----- Splitting

  predicate Below(ix: seq<nat>, n: nat) {
    forall k :: 0 <= k < |ix| ==> ix[k] < n
  }

  /** The elements at the given places. */
  function Pick<T>(s: seq<T>, ix: seq<nat>): (r: seq<T>)
    requires Below(ix, |s|)
    ensures |r| == |ix| && forall k :: 0 <= k < |ix| ==> r[k] == s[ix[k]]
  {
    seq(|ix|, k requires 0 <= k < |ix| => s[ix[k]])
  }

  lemma PickSnoc<T>(s: seq<T>, l: seq<nat>)
    requires |s| > 0 && Below(l, |s| - 1)
    ensures Below(l, |s|) && Pick(s, l) == Pick(s[..|s| - 1], l)
    ensures Below(l + [|s| - 1], |s|) && Pick(s, l + [|s| - 1]) == Pick(s[..|s| - 1], l) + [s[|s| - 1]]
  {}

  predicate Increasing(ix: seq<nat>) {
    forall j, k :: 0 <= j < k < |ix| ==> ix[j] < ix[k]
  }

  lemma {:induction false} IncreasingAhead(ix: seq<nat>, k: nat)
    requires Increasing(ix) && k < |ix|
    ensures k <= ix[k]
    decreases k
  {
    if k > 0 {
      IncreasingAhead(ix, k - 1);
    }
  }

  /** `l` and `r` share out the places below `n`: each occurs once, in one of the two. */
  ghost predicate Shares(l: seq<nat>, r: seq<nat>, n: nat) {
    && Increasing(l) && Increasing(r)
    && Below(l, n) && Below(r, n)
    && |l| + |r| == n
    && forall i: nat :: i < n ==> (i in l) != (i in r)
  }

  lemma SharesSwap(l: seq<nat>, r: seq<nat>, n: nat)
    requires Shares(l, r, n)
    ensures Shares(r, l, n)
  {}

  /** The largest place is the last of the half that has it. */
  lemma DropLast(l: seq<nat>, r: seq<nat>, n: nat) returns (l2: seq<nat>)
    requires Shares(l, r, n + 1) && n in l
    ensures l == l2 + [n] && Shares(l2, r, n)
  {
    var k := |l| - 1;
    var j :| 0 <= j < |l| && l[j] == n;
    assert l[k] < n + 1;
    assert j == k;
    l2 := l[..k];
    assert l == l2 + [n];
    assert n !in r;
    forall i: nat | i < n ensures (i in l2) != (i in r) {
      assert (i in l) != (i in r);
    }
    forall i | 0 <= i < |r| ensures r[i] < n {
      assert r[i] in r;
    }
  }

  lemma SharesBelow(l: seq<nat>, r: seq<nat>, n: nat)
    requires Shares(l, r, n)
    ensures Below(l, n) && Below(r, n)
    ensures n > 0 ==> n - 1 in l || n - 1 in r
  {}

  /** What is picked for both halves is, together, everything. */
  lemma {:induction false} SharesAll(l: seq<nat>, r: seq<nat>, kids: seq<Tree>)
    requires Shares(l, r, |kids|)
    ensures Below(l, |kids|) && Below(r, |kids|)
    ensures IdsAll(Pick(kids, l)) + IdsAll(Pick(kids, r)) == IdsAll(kids)
    ensures HeldAll(Pick(kids, l)) + HeldAll(Pick(kids, r)) == HeldAll(kids)
    decreases |kids|
  {
    hide Ids, Held, Shares, Below, IdsAll, HeldAll;
    SharesBelow(l, r, |kids|);
    if |kids| == 0 {
      NothingToShare(l, r);
      assert kids == Pick(kids, l) == Pick(kids, r) == [];
      AllNone();
    } else {
      var n := |kids| - 1;
      if n in l {
        var l2 := DropLast(l, r, n);
        SharesAll(l2, r, kids[..n]);
        PickOneMore(kids, l2);
        PickSnoc(kids, r);
      } else {
        SharesSwap(l, r, n + 1);
        var r2 := DropLast(r, l, n);
        SharesSwap(r2, l, n);
        SharesAll(l, r2, kids[..n]);
        PickOneMore(kids, r2);
        PickSnoc(kids, l);
      }
    }
  }

  lemma {:induction false} SharesMultiset<T>(l: seq<nat>, r: seq<nat>, s: seq<T>)
    requires Shares(l, r, |s|)
    ensures Below(l, |s|) && Below(r, |s|)
    ensures multiset(Pick(s, l)) + multiset(Pick(s, r)) == multiset(s)
    decreases |s|
  {
    hide Shares, Below;
    SharesBelow(l, r, |s|);
    if |s| == 0 {
      NothingToShare(l, r);
    } else {
      var n := |s| - 1;
      assert s == s[..n] + [s[n]];
      if n in l {
        var l2 := DropLast(l, r, n);
        SharesMultiset(l2, r, s[..n]);
        PickSnoc(s, l2);
        PickSnoc(s, r);
      } else {
        SharesSwap(l, r, n + 1);
        var r2 := DropLast(r, l, n);
        SharesSwap(r2, l, n);
        SharesMultiset(l, r2, s[..n]);
        PickSnoc(s, r2);
        PickSnoc(s, l);
      }
    }
  }

  lemma NothingToShare(l: seq<nat>, r: seq<nat>)
    requires Shares(l, r, 0)
    ensures l == r == []
  {}

  lemma AllNone()
    ensures IdsAll([]) == multiset{} && HeldAll([]) == multiset{}
  {}

  lemma PickOneMore(kids: seq<Tree>, l: seq<nat>)
    requires |kids| > 0 && Below(l, |kids| - 1)
    ensures Below(l + [|kids| - 1], |kids|)
    ensures
      var n := |kids| - 1;
      && IdsAll(Pick(kids, l + [n])) == IdsAll(Pick(kids[..n], l)) + Ids(kids[n])
      && IdsAll(kids) == IdsAll(kids[..n]) + Ids(kids[n])
      && HeldAll(Pick(kids, l + [n])) == HeldAll(Pick(kids[..n], l)) + Held(kids[n])
      && HeldAll(kids) == HeldAll(kids[..n]) + Held(kids[n])
  {
    hide Ids, Held, IdsAll, HeldAll, Below;
    var n := |kids| - 1;
    assert kids == kids[..n] + [kids[n]];
    PickSnoc(kids, l);
    AllConcat(kids[..n], [kids[n]]);
    AllConcat(Pick(kids[..n], l), [kids[n]]);
    AllOne(kids[n]);
  }
}
