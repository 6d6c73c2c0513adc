/** The R-tree: insertion with splits, range query and nearest neighbours (`rtree.h`). */
module RTrees {
  import opened RTreeGeometry
  import opened RTreeShape
  import opened RTreePath
  import opened RTreeBlocks
  import opened RTreeSteps

  class RTree {
    const c: Limits
    const farthest: real
    var root: nat
    var nodes: Blocks
    var next: nat

    ghost var tree: Tree
    ghost var height: nat

    ghost predicate Valid()
      reads this
    {
      && c.leaf >= 2 && c.index >= 2 && next > 0
      && (forall x :: x in nodes ==> 0 < x < next)
      && (root != 0 ==>
            && root == tree.id && height > 0 && Good(c, nodes, tree, height)
            && Distinct(Ids(tree)) && KeysAre(nodes, Ids(tree)))
      && (root == 0 ==> nodes == map[])
    }

    /** The stored points with their payloads. */
    ghost function Contents(): multiset<Entry>
      reads this
    {
      if root == 0 then multiset{} else Held(tree)
    }

    // ----- Blocks

    method MakeLeaf() returns (ptr: nat)
      modifies this`nodes, this`next
      ensures ptr == old(next) && next == old(next) + 1
      ensures nodes == old(nodes)[ptr := Leaf(0, 0, [])]
    {
      ptr := next;
      next := next + 1;
      nodes := nodes[ptr := Leaf(0, 0, [])];
    }

    method MakeIndex(level: nat) returns (ptr: nat)
      modifies this`nodes, this`next
      ensures ptr == old(next) && next == old(next) + 1
      ensures nodes == old(nodes)[ptr := Index(level, 0, [])]
    {
      ptr := next;
      next := next + 1;
      nodes := nodes[ptr := Index(level, 0, [])];
    }

    method LeafInsert(ptr: nat, e: Entry) returns (ok: bool)
      requires ptr in nodes && nodes[ptr].Leaf? && nodes[ptr].size <= |nodes[ptr].entries|
      modifies this`nodes
      ensures ok <==> old(nodes[ptr].size) < c.leaf
      ensures nodes == if ok then old(nodes)[ptr := PutEntry(old(nodes[ptr]), e)] else old(nodes)
    {
      ok := nodes[ptr].size < c.leaf;
      if ok {
        nodes := nodes[ptr := PutEntry(nodes[ptr], e)];
      }
    }

    method IndexInsert(ptr: nat, s: Slot) returns (ok: bool)
      requires ptr in nodes && nodes[ptr].Index? && nodes[ptr].size <= |nodes[ptr].slots|
      modifies this`nodes
      ensures ok <==> old(nodes[ptr].size) < c.index
      ensures nodes == if ok then old(nodes)[ptr := PutSlot(old(nodes[ptr]), s)] else old(nodes)
    {
      ok := nodes[ptr].size < c.index;
      if ok {
        nodes := nodes[ptr := PutSlot(nodes[ptr], s)];
      }
    }

    // ----- Splits

    /** Copies the entries at `ix` into an empty block. */
    method CopyLeaf(from: nat, to: nat, ix: seq<nat>)
      requires from in nodes && nodes[from].Leaf? && Below(ix, |nodes[from].entries|) && |ix| <= c.leaf
      requires from != to && to in nodes && nodes[to] == Leaf(0, 0, [])
      modifies this`nodes
      ensures to in nodes && nodes == old(nodes)[to := nodes[to]]
      ensures nodes[to].Leaf? && nodes[to].level == 0 && nodes[to].size == |ix| <= |nodes[to].entries|
      ensures nodes[to].entries[..|ix|] == Pick(old(nodes)[from].entries, ix)
    {
      ghost var es := nodes[from].entries;
      for k := 0 to |ix|
        invariant to in nodes && nodes == old(nodes)[to := nodes[to]]
        invariant nodes[to].Leaf? && nodes[to].level == 0 && nodes[to].size == k <= |nodes[to].entries|
        invariant nodes[to].entries[..k] == Pick(es, ix)[..k]
      {
        var ok := LeafInsert(to, nodes[from].entries[ix[k]]);
        assert ok;
        assert Pick(es, ix)[..k + 1] == Pick(es, ix)[..k] + [es[ix[k]]];
      }
      assert Pick(es, ix)[..|ix|] == Pick(es, ix);
    }

    /** Moves the entries at `ix` to the front of the same block, over the ones before them. */
    method CompactLeaf(ptr: nat, ix: seq<nat>, ghost es: seq<Entry>)
      requires ptr in nodes && nodes[ptr].Leaf? && nodes[ptr].size == 0
      requires |es| <= |nodes[ptr].entries| && nodes[ptr].entries[..|es|] == es
      requires Below(ix, |es|) && Increasing(ix) && |ix| <= c.leaf
      modifies this`nodes
      ensures ptr in nodes && nodes == old(nodes)[ptr := nodes[ptr]]
      ensures nodes[ptr].Leaf? && nodes[ptr].level == old(nodes[ptr].level)
      ensures nodes[ptr].size == |ix| <= |nodes[ptr].entries| && nodes[ptr].entries[..|ix|] == Pick(es, ix)
    {
      for k := 0 to |ix|
        invariant ptr in nodes && nodes == old(nodes)[ptr := nodes[ptr]]
        invariant nodes[ptr].Leaf? && nodes[ptr].level == old(nodes[ptr].level)
        invariant nodes[ptr].size == k && |es| <= |nodes[ptr].entries| && k <= |nodes[ptr].entries|
        invariant nodes[ptr].entries[..k] == Pick(es, ix)[..k]
        invariant forall j :: k <= j < |es| ==> nodes[ptr].entries[j] == es[j]
      {
        IncreasingAhead(ix, k);
        var ok := LeafInsert(ptr, nodes[ptr].entries[ix[k]]);
        assert ok;
        assert Pick(es, ix)[..k + 1] == Pick(es, ix)[..k] + [es[ix[k]]];
      }
      assert Pick(es, ix)[..|ix|] == Pick(es, ix);
    }

    method CopyIndex(from: nat, to: nat, ix: seq<nat>)
      requires from in nodes && nodes[from].Index? && Below(ix, |nodes[from].slots|) && |ix| <= c.index
      requires from != to && to in nodes && nodes[to].Index? && nodes[to].size == 0
      modifies this`nodes
      ensures to in nodes && nodes == old(nodes)[to := nodes[to]]
      ensures nodes[to].Index? && nodes[to].level == old(nodes[to].level) && nodes[to].size == |ix| <= |nodes[to].slots|
      ensures nodes[to].slots[..|ix|] == Pick(old(nodes)[from].slots, ix)
    {
      ghost var ss := nodes[from].slots;
      for k := 0 to |ix|
        invariant to in nodes && nodes == old(nodes)[to := nodes[to]]
        invariant nodes[to].Index? && nodes[to].level == old(nodes[to].level)
        invariant nodes[to].size == k <= |nodes[to].slots|
        invariant nodes[to].slots[..k] == Pick(ss, ix)[..k]
      {
        var ok := IndexInsert(to, nodes[from].slots[ix[k]]);
        assert ok;
        assert Pick(ss, ix)[..k + 1] == Pick(ss, ix)[..k] + [ss[ix[k]]];
      }
      assert Pick(ss, ix)[..|ix|] == Pick(ss, ix);
    }

    method CompactIndex(ptr: nat, ix: seq<nat>, ghost ss: seq<Slot>)
      requires ptr in nodes && nodes[ptr].Index? && nodes[ptr].size == 0
      requires |ss| <= |nodes[ptr].slots| && nodes[ptr].slots[..|ss|] == ss
      requires Below(ix, |ss|) && Increasing(ix) && |ix| <= c.index
      modifies this`nodes
      ensures ptr in nodes && nodes == old(nodes)[ptr := nodes[ptr]]
      ensures nodes[ptr].Index? && nodes[ptr].level == old(nodes[ptr].level)
      ensures nodes[ptr].size == |ix| <= |nodes[ptr].slots| && nodes[ptr].slots[..|ix|] == Pick(ss, ix)
    {
      for k := 0 to |ix|
        invariant ptr in nodes && nodes == old(nodes)[ptr := nodes[ptr]]
        invariant nodes[ptr].Index? && nodes[ptr].level == old(nodes[ptr].level)
        invariant nodes[ptr].size == k && |ss| <= |nodes[ptr].slots| && k <= |nodes[ptr].slots|
        invariant nodes[ptr].slots[..k] == Pick(ss, ix)[..k]
        invariant forall j :: k <= j < |ss| ==> nodes[ptr].slots[j] == ss[j]
      {
        IncreasingAhead(ix, k);
        var ok := IndexInsert(ptr, nodes[ptr].slots[ix[k]]);
        assert ok;
        assert Pick(ss, ix)[..k + 1] == Pick(ss, ix)[..k] + [ss[ix[k]]];
      }
      assert Pick(ss, ix)[..|ix|] == Pick(ss, ix);
    }

    /** Deals the entries of a full block out to the block itself and to a new one. */
    method DistributeLeaf(ptr: nat, l: seq<nat>, r: seq<nat>, ghost es: seq<Entry>) returns (newPtr: nat)
      requires ptr in nodes && HoldsEntries(nodes[ptr], 0, es) && next !in nodes
      requires Increasing(l) && Below(l, |es|) && Below(r, |es|) && |l| <= c.leaf && |r| <= c.leaf
      modifies this`nodes, this`next
      ensures newPtr == old(next) && next == old(next) + 1
      ensures ptr in nodes && newPtr in nodes && nodes == old(nodes)[ptr := nodes[ptr]][newPtr := nodes[newPtr]]
      ensures HoldsEntries(nodes[ptr], 0, Pick(es, l)) && HoldsEntries(nodes[newPtr], 0, Pick(es, r))
    {
      assert Pick(nodes[ptr].entries, r) == Pick(es, r);
      newPtr := MakeLeaf();
      CopyLeaf(ptr, newPtr, r);
      nodes := nodes[ptr := Leaf(nodes[ptr].level, 0, nodes[ptr].entries)];
      CompactLeaf(ptr, l, es);
    }

    /** Splits a full leaf. No insertion into a half can fail: each half is at least one short of full. */
    method SplitLeaf(ptr: nat, e: Entry, ghost es: seq<Entry>)
      returns (rect: Rect, newRect: Rect, newPtr: nat, ghost l: seq<nat>, ghost r: seq<nat>, ghost here: bool)
      requires ptr in nodes && LeafGood(c, nodes[ptr], es) && nodes[ptr].level == 0
      requires |es| == c.leaf >= 2 && |e.point| == c.dims && next !in nodes
      modifies this`nodes, this`next
      ensures newPtr == old(next) && next == old(next) + 1
      ensures ptr in nodes && newPtr in nodes && nodes == old(nodes)[ptr := nodes[ptr]][newPtr := nodes[newPtr]]
      ensures LeafSplit(c, es, e, l, r, here, nodes[ptr], nodes[newPtr])
      ensures rect == BoxOf(c.dims, nodes[ptr]) && newRect == BoxOf(c.dims, nodes[newPtr])
    {
      hide Shares, BoxOf, DistPP, Clustered, PutEntry, HoldsEntries, LeafSplit, Increasing, Below;
      LeafIsFull(c, nodes[ptr], es);
      var all := nodes[ptr].entries[..nodes[ptr].size];
      var d := c.dims;
      var a, b, lc, rc := LeafClusters(d, all);
      ClusteredSeeds(|all|, EntryGap(d, all), a, b, lc, rc);
      SharesFacts(lc, rc, |all|);
      var toL, toR := DistPP(d, all[a].point, e.point), DistPP(d, all[b].point, e.point);
      l, r, here := lc, rc, toL < toR;
      newPtr := DistributeLeaf(ptr, lc, rc, all);
      LeafHalves(c, all, e, l, r, nodes[ptr], nodes[newPtr]);
      if toL < toR {
        var ok := LeafInsert(ptr, e);
        assert ok;
      } else {
        var ok := LeafInsert(newPtr, e);
        assert ok;
      }
      LeafSplitFilled(c, es, e, l, r, here, nodes[ptr], nodes[newPtr]);
      newRect := GetRect(d, nodes[newPtr]);
      rect := GetRect(d, nodes[ptr]);
    }

    /** Deals the entries of a full block out to the block itself and to a new one. */
    method DistributeIndex(ptr: nat, l: seq<nat>, r: seq<nat>, ghost ss: seq<Slot>) returns (newPtr: nat)
      requires ptr in nodes && HoldsSlots(nodes[ptr], nodes[ptr].level, ss) && next !in nodes
      requires Increasing(l) && Below(l, |ss|) && Below(r, |ss|) && |l| <= c.index && |r| <= c.index
      modifies this`nodes, this`next
      ensures newPtr == old(next) && next == old(next) + 1
      ensures ptr in nodes && newPtr in nodes && nodes == old(nodes)[ptr := nodes[ptr]][newPtr := nodes[newPtr]]
      ensures HoldsSlots(nodes[ptr], old(nodes[ptr].level), Pick(ss, l))
      ensures HoldsSlots(nodes[newPtr], old(nodes[ptr].level), Pick(ss, r))
    {
      assert Pick(nodes[ptr].slots, r) == Pick(ss, r);
      newPtr := MakeIndex(nodes[ptr].level);
      CopyIndex(ptr, newPtr, r);
      nodes := nodes[ptr := Index(nodes[ptr].level, 0, nodes[ptr].slots)];
      CompactIndex(ptr, l, ss);
    }

    method SplitIndex(ptr: nat, s: Slot, ghost ss: seq<Slot>)
      returns (rect: Rect, newRect: Rect, newPtr: nat, ghost l: seq<nat>, ghost r: seq<nat>, ghost here: bool)
      requires ptr in nodes && HoldsSlots(nodes[ptr], nodes[ptr].level, ss)
      requires |ss| == c.index >= 2 && next !in nodes
      modifies this`nodes, this`next
      ensures newPtr == old(next) && next == old(next) + 1
      ensures ptr in nodes && newPtr in nodes && nodes == old(nodes)[ptr := nodes[ptr]][newPtr := nodes[newPtr]]
      ensures IndexSplit(c, ss, s, l, r, here, nodes[ptr], nodes[newPtr], old(nodes[ptr].level))
      ensures rect == BoxOf(c.dims, nodes[ptr]) && newRect == BoxOf(c.dims, nodes[newPtr])
    {
      hide Shares, BoxOf, DistRR, Clustered, PutSlot, HoldsSlots, IndexSplit, Increasing, Below;
      SlotsLive(nodes[ptr], nodes[ptr].level, ss);
      var all := nodes[ptr].slots[..nodes[ptr].size];
      var d := c.dims;
      var a, b, lc, rc := IndexClusters(d, all);
      ClusteredSeeds(|all|, SlotGap(d, all), a, b, lc, rc);
      SharesFacts(lc, rc, |all|);
      var toL, toR := DistRR(d, all[a].rect, s.rect), DistRR(d, all[b].rect, s.rect);
      l, r, here := lc, rc, toL < toR;
      newPtr := DistributeIndex(ptr, lc, rc, all);
      IndexHalves(c, all, s, l, r, nodes[ptr], nodes[newPtr], old(nodes[ptr].level));
      if toL < toR {
        var ok := IndexInsert(ptr, s);
        assert ok;
      } else {
        var ok := IndexInsert(newPtr, s);
        assert ok;
      }
      IndexSplitFilled(c, ss, s, l, r, here, nodes[ptr], nodes[newPtr], old(nodes[ptr].level));
      newRect := GetRect(d, nodes[newPtr]);
      rect := GetRect(d, nodes[ptr]);
    }

    // ----- Paths

    /** The child whose rectangle is nearest to the point, the first one of several; the first child if none is nearer
        than the largest number. */
    method ChooseSubnode(n: Block, point: Point) returns (index: nat)
      requires n.Index? && Filled(n)
      ensures index < n.size
      ensures (exists i :: 0 <= i < n.size && DistRP(c.dims, n.slots[i].rect, point) < farthest) ==>
        forall i :: 0 <= i < n.size ==>
          DistRP(c.dims, n.slots[index].rect, point) <= DistRP(c.dims, n.slots[i].rect, point)
      ensures forall i :: 0 <= i < index ==>
        DistRP(c.dims, n.slots[index].rect, point) < DistRP(c.dims, n.slots[i].rect, point)
    {
      hide DistRP;
      var least := farthest;
      index := 0;
      for i := 0 to n.size
        invariant index < n.size && (index > 0 ==> index < i)
        invariant least == farthest || least == DistRP(c.dims, n.slots[index].rect, point)
        invariant least <= farthest
        invariant forall j :: 0 <= j < i ==> least <= DistRP(c.dims, n.slots[j].rect, point)
        invariant index > 0 ==> least == DistRP(c.dims, n.slots[index].rect, point)
        invariant forall j :: 0 <= j < index ==> least < DistRP(c.dims, n.slots[j].rect, point)
      {
        var distance := DistRP(c.dims, n.slots[i].rect, point);
        if distance < least {
          least, index := distance, i;
        }
      }
    }

    /** Stores the current bounding boxes along a path, from position `pos` up to the root. */
    method UpdateRect(paths: seq<(nat, int)>, index: int, pos: nat, ghost fs: seq<Frame>, ghost sub: Tree,
                      ghost top: nat)
      requires |fs| == pos + 1 && OnPath(paths, fs, index)
      requires PathGood(c, nodes, fs, top, sub.id, false) && Good(c, nodes, sub, top - |fs|)
      requires Distinct(PathIds(fs) + Ids(sub))
      modifies this`nodes
      ensures PathGood(c, nodes, fs, top, sub.id, true) && Good(c, nodes, sub, top - |fs|)
      ensures SameExcept(old(nodes), nodes, PathIds(fs))
      decreases pos
    {
      hide Good, PathGood, BoxOf, Ids, PathIds, FrameIds, Distinct, SameExcept, Plug, SetRect;
      ghost var f, m := fs[pos], nodes;
      LastFrame(c, m, fs, sub, top);
      var ptr := paths[pos].0;
      var child := nodes[ptr].slots[index].child;
      var rect := GetRect(c.dims, nodes[child]);
      nodes := nodes[ptr := SetRect(nodes[ptr], index, rect)];
      RepairLast(c, m, fs, sub, top);
      ghost var m2 := nodes;
      if pos != 0 {
        UpdateRect(paths, paths[pos].1, pos - 1, fs[..pos], Plug(f, sub), top);
      }
      RepairedPath(c, m, m2, nodes, fs, sub, top);
    }

    method UpdateRects(paths: seq<(nat, int)>, index: int,
                       ghost fs: seq<Frame>, ghost sub: Tree, ghost extra: seq<Tree>, ghost top: nat)
      requires |fs| == |paths| && (|fs| > 0 ==> OnPath(paths, fs, index))
      requires Pending(c, nodes, fs, top, sub, extra, false)
      modifies this`nodes
      ensures Pending(c, nodes, fs, top, sub, extra, true) && nodes.Keys == old(nodes).Keys
      ensures sub.id in nodes && nodes[sub.id] == old(nodes)[sub.id]
      ensures forall i :: 0 <= i < |extra| ==> extra[i].id in nodes && nodes[extra[i].id] == old(nodes)[extra[i].id]
    {
      hide Pending, PathGood, Good, Distinct, PathIds, Ids;
      ghost var m := nodes;
      PendingFacts(c, m, fs, top, sub, extra, false);
      if |paths| != 0 {
        UpdateRect(paths, index, |paths| - 1, fs, sub, top);
      } else {
        NoFrames(c, m, top, sub.id);
        assert fs == [];
      }
      PendingRepaired(c, m, nodes, fs, top, sub, extra);
      PendingIds(c, nodes, fs, top, sub, extra, true);
    }

    /** Descends to a leaf, recording blocks and child positions. */
    method ChoosePaths(point: Point) returns (paths: seq<(nat, int)>, ghost fs: seq<Frame>, ghost leaf: Tree)
      requires root != 0 && Valid()
      ensures |fs| == height && |paths| == height + 1 && leaf.TLeaf? && fs != [] && fs[0].id == root
      ensures OnPath(paths, fs, paths[height].1) && paths[height].0 == leaf.id
      ensures Pending(c, nodes, fs, height, leaf, [], true) && AllHeld(fs, leaf, []) == Held(tree)
    {
      hide Pending, Good, Distinct, KeysAre, AllHeld;
      Begin(c, nodes, tree, height);
      paths, fs, leaf := [(root, -1)], [], tree;
      while true
        invariant |paths| == |fs| + 1 && |fs| < height && Recorded(paths, fs) && paths[|fs|].0 == leaf.id
        invariant fs != [] ==> fs[0].id == root && OnPath(paths, fs, paths[|fs|].1)
        invariant fs == [] ==> leaf.id == root
        invariant Pending(c, nodes, fs, height, leaf, [], true) && AllHeld(fs, leaf, []) == Held(tree)
        decreases height - |fs|
      {
        var ptr := paths[|paths| - 1].0;
        PendingNode(c, nodes, fs, height, leaf);
        var index := ChooseSubnode(nodes[ptr], point);
        paths := paths + [(nodes[ptr].slots[index].child, index)];
        Lower(c, nodes, fs, leaf, height, index);
        fs := fs + [FrameAt(leaf, index)];
        leaf := leaf.kids[index];
        if nodes[ptr].level == 1 {
          break;
        }
      }
      PendingLeaf(c, nodes, fs, height, leaf);
    }

    /** Makes the repaired path the tree. */
    ghost method Adopt(fs: seq<Frame>, sub: Tree, top: nat)
      requires c.leaf >= 2 && c.index >= 2 && next > 0 && (forall x :: x in nodes ==> 0 < x < next)
      requires Pending(c, nodes, fs, top, sub, [], true) && root == TopId(fs, sub) && top > 0
      modifies this`tree, this`height
      ensures Valid() && root != 0 && height == top && Contents() == AllHeld(fs, sub, [])
    {
      hide Pending, Good, Distinct, PlugAll, Held, Ids;
      Finish(c, nodes, fs, top, sub);
      PlugAllId(fs, sub);
      LeafInMap(c, nodes, PlugAll(fs, sub), top);
      tree := PlugAll(fs, sub);
      height := top;
    }

    /** Splits a full index block and repairs the path above it. */
    method SplitUp(paths: seq<(nat, int)>, at: (nat, int), s: Slot,
                   ghost fs: seq<Frame>, ghost id: nat, ghost kids: seq<Tree>, ghost orphan: Tree)
      returns (rect: Rect, newRect: Rect, newPtr: nat, ghost near: Tree, ghost far: Tree)
      requires c.index >= 2 && (forall x :: x in nodes ==> x < next)
      requires |fs| == |paths| && (|fs| > 0 ==> OnPath(paths, fs, at.1)) && at.0 == id
      requires Above(c, nodes, fs, height, id, kids, orphan, s) && nodes[id].size == c.index
      modifies this`nodes, this`next
      ensures next == old(next) + 1 && nodes.Keys == old(nodes).Keys + {old(next)}
      ensures Pending(c, nodes, fs, height, near, [far], true) && near.id == id
      ensures near.id in nodes && Filled(nodes[near.id]) && far.id in nodes && Filled(nodes[far.id])
      ensures rect == BoxOf(c.dims, nodes[near.id]) && newRect == BoxOf(c.dims, nodes[far.id]) && newPtr == far.id
      ensures Held(near) + Held(far) == HeldAll(kids) + Held(orphan)
    {
      hide Pending, Above, IndexSplit, BoxOf, Held, HeldAll, Filled, OnPath, IndexSized;
      ghost var m := nodes;
      AboveFacts(c, m, fs, height, id, kids, orphan, s);
      ghost var l, r, here;
      rect, newRect, newPtr, l, r, here := SplitIndex(at.0, s, m[id].slots[..m[id].size]);
      near, far := IndexDivided(c, m, fs, height, id, kids, orphan, s, newPtr, l, r, here, nodes[id], nodes[newPtr]);
      UpdateRects(paths, at.1, fs, near, [far], height);
      PendingIds(c, nodes, fs, height, near, [far], true);
      assert [far][0] == far;
    }

    /** Takes a split-off subtree up the path: into the first block with room, or under a new root. */
    method InsertUp(paths: seq<(nat, int)>, rect0: Rect, newRect0: Rect, newPtr0: nat,
                    ghost fs0: seq<Frame>, ghost near0: Tree, ghost far0: Tree)
      requires c.leaf >= 2 && c.index >= 2 && next > 0 && (forall x :: x in nodes ==> 0 < x < next)
      requires |fs0| == |paths| == height && Recorded(paths, fs0)
      requires Pending(c, nodes, fs0, height, near0, [far0], true)
      requires near0.id in nodes && Filled(nodes[near0.id]) && far0.id in nodes && Filled(nodes[far0.id])
      requires rect0 == BoxOf(c.dims, nodes[near0.id]) && newRect0 == BoxOf(c.dims, nodes[far0.id])
      requires newPtr0 == far0.id
      requires root == TopId(fs0, near0)
      modifies this
      ensures Valid() && root != 0 && Contents() == AllHeld(fs0, near0, [far0])
      ensures old(height) <= height <= old(height) + 1
    {
      hide Pending, Good, Distinct, BoxOf, AllHeld, Held, HeldAll, PathHeld, PutSlot, Above, Plug, IndexSplit;
      hide IndexSized, Filled;
      var rest, rect, newRect, newPtr := paths, rect0, newRect0, newPtr0;
      var level := 0;
      ghost var fs, near, far := fs0, near0, far0;
      while rest != []
        invariant c.leaf >= 2 && c.index >= 2 && next > 0 && (forall x :: x in nodes ==> 0 < x < next)
        invariant |fs| == |rest| <= height == old(height) && Recorded(rest, fs) && level == height - |fs|
        invariant Pending(c, nodes, fs, height, near, [far], true)
        invariant near.id in nodes && Filled(nodes[near.id]) && far.id in nodes && Filled(nodes[far.id])
        invariant rect == BoxOf(c.dims, nodes[near.id]) && newRect == BoxOf(c.dims, nodes[far.id]) && newPtr == far.id
        invariant root == TopId(fs, near)
        invariant AllHeld(fs, near, [far]) == AllHeld(fs0, near0, [far0])
        decreases |rest|
      {
        var at := rest[|rest| - 1];
        rest := rest[..|rest| - 1];
        ghost var f := fs[|fs| - 1];
        ghost var t := Plug(f, near);
        ghost var m := nodes;
        var s := Slot(newRect, newPtr);
        PlugShape(f, near);
        StepUp(c, m, fs, height, near, far);
        fs := fs[..|fs| - 1];
        AboveFacts(c, m, fs, height, t.id, t.kids, far, s);
        var ok := IndexInsert(at.0, s);
        if ok {
          OneMoreSlot(c, m[t.id], s);
          Absorbed(c, m, fs, height, t.id, t.kids, far, s, nodes[t.id]);
          HeldOne(fs, TNode(t.id, t.kids + [far]));
          UpdateRects(rest, at.1, fs, TNode(t.id, t.kids + [far]), [], height);
          Adopt(fs, TNode(t.id, t.kids + [far]), height);
          return;
        }
        level := nodes[at.0].level;
        rect, newRect, newPtr, near, far := SplitUp(rest, at, s, fs, t.id, t.kids, far);
        HeldTwo(fs, near, far);
      }
      assert fs == [];
      GrowRoot(rect, newRect, newPtr, level, near, far);
    }

    /** A new root over the two halves of the old one. */
    method GrowRoot(rect: Rect, newRect: Rect, newPtr: nat, level: nat, ghost near: Tree, ghost far: Tree)
      requires c.leaf >= 2 && c.index >= 2 && next > 0 && (forall x :: x in nodes ==> 0 < x < next)
      requires Pending(c, nodes, [], height, near, [far], true) && level == height
      requires near.id in nodes && Filled(nodes[near.id]) && far.id in nodes && Filled(nodes[far.id])
      requires rect == BoxOf(c.dims, nodes[near.id]) && newRect == BoxOf(c.dims, nodes[far.id])
      requires newPtr == far.id && root == near.id
      modifies this
      ensures Valid() && root != 0 && height == old(height) + 1 && Contents() == AllHeld([], near, [far])
    {
      hide Pending, Good, Distinct, BoxOf, AllHeld, Held, HeldAll, PathHeld;
      ghost var m := nodes;
      var newRoot := MakeIndex(level + 1);
      var ok := IndexInsert(newRoot, Slot(rect, root));
      assert ok;
      ok := IndexInsert(newRoot, Slot(newRect, newPtr));
      assert ok;
      root := newRoot;
      assert nodes == m[newRoot := nodes[newRoot]];
      RootGrown(c, m, height, near, far, newRoot, nodes[newRoot]);
      HeldTwo([], near, far);
      HeldOne([], TNode(newRoot, [near, far]));
      Adopt([], TNode(newRoot, [near, far]), height + 1);
    }

    /** Inserts at the end of a path chosen by `ChoosePaths`. */
    method InsertAt(paths: seq<(nat, int)>, e: Entry, ghost fs: seq<Frame>, ghost leaf: Tree)
      requires Valid() && root != 0 && |e.point| == c.dims
      requires |fs| == height && |paths| == height + 1 && leaf.TLeaf? && fs != [] && fs[0].id == root
      requires OnPath(paths, fs, paths[height].1) && paths[height].0 == leaf.id
      requires Pending(c, nodes, fs, height, leaf, [], true) && AllHeld(fs, leaf, []) == Held(tree)
      modifies this
      ensures Valid() && root != 0 && Contents() == old(Contents()) + multiset{e}
      ensures old(height) <= height <= old(height) + 1
    {
      hide Pending, Good, Distinct, BoxOf, AllHeld, HeldAll, PathHeld, PutEntry, LeafSplit, Ids, KeysAre, Held;
      hide Filled, LeafGood;
      ghost var m := nodes;
      var at, rest := paths[|paths| - 1], paths[..|paths| - 1];
      PendingLeaf(c, m, fs, height, leaf);
      LeafIsFull(c, m[leaf.id], leaf.entries);
      LeafRoom(c, m[leaf.id], leaf.entries, e);
      HeldOne(fs, leaf);
      HeldLeaf(leaf);
      var ok := LeafInsert(at.0, e);
      if ok {
        ghost var leaf2 := TLeaf(leaf.id, leaf.entries + [e]);
        LeafGrown(c, m, fs, height, leaf, nodes[leaf.id], leaf2.entries);
        UpdateRects(rest, at.1, fs, leaf2, [], height);
        HeldOne(fs, leaf2);
        HeldLeaf(leaf2);
        Adopt(fs, leaf2, height);
        return;
      }
      var rect, newRect, newPtr;
      ghost var l, r, here;
      rect, newRect, newPtr, l, r, here := SplitLeaf(at.0, e, leaf.entries);
      ghost var near, far := LeafDivided(c, m, fs, height, leaf, newPtr, e, l, r, here, nodes[leaf.id], nodes[newPtr]);
      UpdateRects(rest, at.1, fs, near, [far], height);
      HeldTwo(fs, near, far);
      assert [far][0] == far;
      PendingIds(c, nodes, fs, height, near, [far], true);
      InsertUp(rest, rect, newRect, newPtr, fs, near, far);
    }

    constructor (limits: Limits, largest: real)
      requires limits.leaf >= 2 && limits.index >= 2
      ensures Valid() && c == limits && farthest == largest && root == 0 && Contents() == multiset{}
    {
      c, farthest := limits, largest;
      root, nodes, next := 0, map[], 1;
      tree, height := TLeaf(0, []), 0;
    }

    method Insert(point: Point, payload: int)
      requires Valid() && |point| == c.dims
      modifies this
      ensures Valid() && root != 0 && Contents() == old(Contents()) + multiset{Entry(point, payload)}
    {
      hide Pending, Good, Distinct, AllHeld, Held, KeysAre, Ids;
      var e := Entry(point, payload);
      if root == 0 {
        var leaf := MakeLeaf();
        var ok := LeafInsert(leaf, e);
        assert ok;
        var top := MakeIndex(1);
        ok := IndexInsert(top, Slot(PointRect(point), leaf));
        assert ok;
        root := top;
        assert nodes[leaf] == Leaf(0, 1, [e]) && nodes[top] == Index(1, 1, [Slot(PointRect(point), leaf)]);
        FirstTree(c, nodes, leaf, top, e);
        tree, height := TNode(top, [TLeaf(leaf, [e])]), 1;
      } else {
        var paths;
        ghost var fs, leaf;
        paths, fs, leaf := ChoosePaths(point);
        InsertAt(paths, e, fs, leaf);
      }
    }
  }
}
