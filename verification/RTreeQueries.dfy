/** Range query and nearest neighbours over a tree built by insertions. */
module RTreeQueries {
  import opened RTreeGeometry
  import opened RTreeShape
  import opened RTreePath
  import opened RTreeBlocks
  import opened RTreeSteps
  import opened RTrees

  /** How many entries and blocks a subtree has: what the query loops use up. */
  ghost function Weight(t: Tree): nat {
    match t
    case TLeaf(_, es) => 1 + |es|
    case TNode(_, kids) => 1 + WeightAll(kids)
  }

  ghost function WeightAll(ts: seq<Tree>): nat {
    if ts == [] then 0 else Weight(ts[0]) + WeightAll(ts[1..])
  }

  lemma {:induction false} WeightConcat(a: seq<Tree>, b: seq<Tree>)
    ensures WeightAll(a + b) == WeightAll(a) + WeightAll(b)
  {
    if a == [] {
      assert a + b == b;
    } else {
      assert (a + b)[1..] == a[1..] + b;
      WeightConcat(a[1..], b);
    }
  }

  lemma WeightOne(t: Tree)
    ensures WeightAll([t]) == Weight(t) > 0
  {
    assert [t][1..] == [];
  }

  // ----- Range query

  /** Inside the rectangle the two hold the same entries, equally often. */
  ghost predicate SameWithin(d: nat, rect: Rect, a: multiset<Entry>, b: multiset<Entry>) {
    forall e: Entry :: Inside(d, rect, e.point) ==> a[e] == b[e]
  }

  /** A subtree whose box does not meet the rectangle holds nothing inside it. */
  lemma Pruned(c: Limits, m: Blocks, t: Tree, h: nat, rect: Rect)
    requires Good(c, m, t, h) && !Overlap(c.dims, BoxOf(c.dims, m[t.id]), rect)
    ensures forall e :: e in Held(t) ==> !Inside(c.dims, rect, e.point)
  {
    hide Good, Inside, Overlap, Held;
    GoodBox(c, m, t, h);
    forall e | e in Held(t) ensures !Inside(c.dims, rect, e.point) {
      if Inside(c.dims, rect, e.point) {
        CommonPointOverlaps(c.dims, BoxOf(c.dims, m[t.id]), rect, e.point);
      }
    }
  }

  /** The queue holds the addresses of these subtrees. */
  ghost predicate Queued(c: Limits, m: Blocks, q: seq<nat>, ts: seq<Tree>, leaves: bool) {
    |q| == |ts| && forall i :: 0 <= i < |q| ==> OnQueue(c, m, q[i], ts[i], leaves)
  }

  ghost predicate OnQueue(c: Limits, m: Blocks, id: nat, t: Tree, leaf: bool) {
    t.id == id && id in m && Good(c, m, t, m[id].level) && (leaf <==> m[id].level == 0)
  }

  /** The children that meet the rectangle, in order; together they hold all that is inside. */
  method Matching(c: Limits, m: Blocks, id: nat, rect: Rect, ghost t: Tree) returns (q: seq<nat>, ghost ts: seq<Tree>)
    requires OnQueue(c, m, id, t, false)
    ensures Queued(c, m, q, ts, m[id].level == 1)
    ensures WeightAll(ts) < Weight(t) && SameWithin(c.dims, rect, HeldAll(ts), Held(t))
  {
    hide Good, Overlap, OnQueue, SameWithin, HeldAll, WeightAll, BoxOf, Inside;
    q, ts := [], [];
    QueueFacts(c, m, id, t);
    SameNothing(c.dims, rect);
    for i := 0 to m[id].size
      invariant Queued(c, m, q, ts, m[id].level == 1)
      invariant WeightAll(ts) <= WeightAll(t.kids[..i]) && SameWithin(c.dims, rect, HeldAll(ts), HeldAll(t.kids[..i]))
    {
      var s := m[id].slots[i];
      KidFacts(c, m, id, t, i);
      var meets := IntersectRect(c.dims, s.rect, rect);
      ghost var kid := t.kids[i];
      assert t.kids[..i + 1] == t.kids[..i] + [kid];
      OneMoreKid(c, rect, ts, t.kids[..i], kid);
      if meets {
        q, ts := q + [s.child], ts + [kid];
      } else {
        Pruned(c, m, kid, m[id].level - 1, rect);
        OneLessKid(c, rect, ts, t.kids[..i], kid);
      }
    }
    assert t.kids[..|t.kids|] == t.kids;
    NodeParts(t);
  }

  lemma QueueFacts(c: Limits, m: Blocks, id: nat, t: Tree)
    requires OnQueue(c, m, id, t, false)
    ensures id in m && t.TNode? && m[id].Index? && m[id].size == |t.kids| <= |m[id].slots| && m[id].level > 0
    ensures Weight(t) == 1 + WeightAll(t.kids) && WeightAll([]) == 0
  {
    hide Good;
    KidsOf(c, m, t, m[id].level);
  }

  lemma KidFacts(c: Limits, m: Blocks, id: nat, t: Tree, i: nat)
    requires OnQueue(c, m, id, t, false) && t.TNode? && i < |t.kids| && id in m && m[id].Index? && i < |m[id].slots|
    ensures m[id].level > 0 && Good(c, m, t.kids[i], m[id].level - 1)
    ensures OnQueue(c, m, m[id].slots[i].child, t.kids[i], m[id].level == 1)
    ensures m[id].slots[i].child == t.kids[i].id && m[id].slots[i].rect == BoxOf(c.dims, m[t.kids[i].id])
  {
    hide Good, BoxOf;
    KidsOf(c, m, t, m[id].level);
    assert SlotGood(c, m, m[id].slots[..m[id].size][i], t.kids[i], m[id].level - 1);
    GoodFacts(c, m, t.kids[i], m[id].level - 1);
  }

  lemma SameNothing(d: nat, rect: Rect)
    ensures SameWithin(d, rect, HeldAll([]), HeldAll([]))
  {}

  lemma OneMoreKid(c: Limits, rect: Rect, ts: seq<Tree>, kids: seq<Tree>, kid: Tree)
    requires SameWithin(c.dims, rect, HeldAll(ts), HeldAll(kids)) && WeightAll(ts) <= WeightAll(kids)
    ensures SameWithin(c.dims, rect, HeldAll(ts + [kid]), HeldAll(kids + [kid]))
    ensures WeightAll(ts + [kid]) <= WeightAll(kids + [kid]) && WeightAll(ts) <= WeightAll(kids + [kid])
  {
    hide Inside, Held, HeldAll, WeightAll, Weight;
    AllConcat(ts, [kid]);
    AllConcat(kids, [kid]);
    WeightConcat(ts, [kid]);
    WeightConcat(kids, [kid]);
    WeightOne(kid);
  }

  lemma OneLessKid(c: Limits, rect: Rect, ts: seq<Tree>, kids: seq<Tree>, kid: Tree)
    requires SameWithin(c.dims, rect, HeldAll(ts), HeldAll(kids))
    requires forall e :: e in Held(kid) ==> !Inside(c.dims, rect, e.point)
    ensures SameWithin(c.dims, rect, HeldAll(ts), HeldAll(kids + [kid]))
  {
    hide Inside, Held, HeldAll;
    AllConcat(kids, [kid]);
    AllOne(kid);
  }

  function Payloads(es: seq<Entry>): (r: seq<int>)
    ensures |r| == |es| && forall i :: 0 <= i < |es| ==> r[i] == es[i].payload
  {
    seq(|es|, i requires 0 <= i < |es| => es[i].payload)
  }

  /** `hits` is what `all` holds inside the rectangle. */
  ghost predicate Filtered(d: nat, rect: Rect, hits: multiset<Entry>, all: multiset<Entry>) {
    forall e :: hits[e] == if Inside(d, rect, e.point) then all[e] else 0
  }

  /** Appends the payloads of the points of a leaf that lie inside. */
  method ScanLeaf(c: Limits, n: Block, rect: Rect, before: seq<int>) returns (result: seq<int>, ghost hits: seq<Entry>)
    requires n.Leaf? && n.size <= |n.entries|
    ensures result == before + Payloads(hits) && Filtered(c.dims, rect, multiset(hits), multiset(n.entries[..n.size]))
  {
    hide Inside;
    result, hits := before, [];
    for i := 0 to n.size
      invariant result == before + Payloads(hits) && Filtered(c.dims, rect, multiset(hits), multiset(n.entries[..i]))
    {
      var e := n.entries[i];
      assert n.entries[..i + 1] == n.entries[..i] + [e];
      var inside := IntersectPoint(c.dims, rect, e.point);
      if inside {
        result := result + [e.payload];
        assert Payloads(hits + [e]) == Payloads(hits) + [e.payload];
        hits := hits + [e];
      }
    }
  }

  /** Breadth first from the root: the leaves that can hold a point inside the rectangle. */
  method FindLeaves(tree: RTree, rect: Rect) returns (leafs: seq<nat>, ghost ls: seq<Tree>)
    requires tree.Valid() && tree.root != 0
    ensures Queued(tree.c, tree.nodes, leafs, ls, true)
    ensures SameWithin(tree.c.dims, rect, HeldAll(ls), Held(tree.tree))
  {
    hide Good, Inside, OnQueue, SameWithin, HeldAll, Held, WeightAll, Weight, Distinct, KeysAre, Ids;
    var c, m := tree.c, tree.nodes;
    var q := [tree.root];
    ghost var ts := [tree.tree];
    leafs, ls := [], [];
    StartQueue(c, m, tree.root, tree.tree, tree.height, rect);
    while q != []
      invariant Queued(c, m, q, ts, false) && Queued(c, m, leafs, ls, true)
      invariant SameWithin(c.dims, rect, HeldAll(ls) + HeldAll(ts), Held(tree.tree))
      decreases WeightAll(ts)
    {
      var id := q[0];
      ghost var t := ts[0];
      q := q[1..];
      QueueFacts(c, m, id, t);
      var found;
      ghost var more;
      found, more := Matching(c, m, id, rect, t);
      NextQueue(c, rect, ts, ls, more, Held(tree.tree));
      if m[id].level != 1 {
        q, ts := q + found, ts[1..] + more;
      } else {
        leafs, ls, ts := leafs + found, ls + more, ts[1..];
      }
    }
    assert ts == [];
    AllNone();
    assert HeldAll(ls) + HeldAll(ts) == HeldAll(ls);
  }

  method RangeQuery(tree: RTree, rect: Rect, before: seq<int>) returns (result: seq<int>, ghost hits: seq<Entry>)
    requires tree.Valid() && tree.root != 0
    ensures result == before + Payloads(hits)
    ensures Filtered(tree.c.dims, rect, multiset(hits), tree.Contents())
  {
    hide Good, Inside, Filtered, OnQueue, SameWithin, HeldAll, Held, Distinct, KeysAre, Ids;
    var c, m := tree.c, tree.nodes;
    var leafs;
    ghost var ls;
    leafs, ls := FindLeaves(tree, rect);
    result, hits := before, [];
    FilteredNone(c.dims, rect);
    for i := 0 to |leafs|
      invariant result == before + Payloads(hits) && Filtered(c.dims, rect, multiset(hits), HeldAll(ls[..i]))
    {
      LeafFacts(c, m, leafs[i], ls[i]);
      ghost var some;
      result, some := ScanLeaf(c, m[leafs[i]], rect, result);
      assert ls[..i + 1] == ls[..i] + [ls[i]];
      FilteredMore(c.dims, rect, hits, some, ls[..i], ls[i]);
      assert Payloads(hits + some) == Payloads(hits) + Payloads(some);
      hits := hits + some;
    }
    assert ls[..|ls|] == ls;
    FilteredAll(c.dims, rect, multiset(hits), HeldAll(ls), Held(tree.tree));
  }

  lemma StartQueue(c: Limits, m: Blocks, root: nat, t: Tree, h: nat, rect: Rect)
    requires root == t.id && h > 0 && Good(c, m, t, h)
    ensures Queued(c, m, [root], [t], false)
    ensures SameWithin(c.dims, rect, HeldAll([]) + HeldAll([t]), Held(t))
  {
    hide Good, Inside, Held;
    GoodFacts(c, m, t, h);
    AllOne(t);
  }

  lemma NextQueue(c: Limits, rect: Rect, ts: seq<Tree>, ls: seq<Tree>, more: seq<Tree>, all: multiset<Entry>)
    requires |ts| > 0 && SameWithin(c.dims, rect, HeldAll(ls) + HeldAll(ts), all)
    requires SameWithin(c.dims, rect, HeldAll(more), Held(ts[0])) && WeightAll(more) < Weight(ts[0])
    ensures SameWithin(c.dims, rect, HeldAll(ls) + HeldAll(ts[1..] + more), all)
    ensures SameWithin(c.dims, rect, HeldAll(ls + more) + HeldAll(ts[1..]), all)
    ensures WeightAll(ts[1..] + more) < WeightAll(ts) && WeightAll(ts[1..]) < WeightAll(ts)
  {
    hide Inside, Held, Weight;
    AllConcat(ts[1..], more);
    AllConcat(ls, more);
    WeightConcat(ts[1..], more);
  }

  lemma LeafFacts(c: Limits, m: Blocks, id: nat, t: Tree)
    requires OnQueue(c, m, id, t, true)
    ensures id in m && m[id].Leaf? && m[id].size <= |m[id].entries| && Held(t) == multiset(m[id].entries[..m[id].size])
  {}

  lemma FilteredNone(d: nat, rect: Rect)
    ensures Filtered(d, rect, multiset([]), HeldAll([]))
  {}

  lemma FilteredMore(d: nat, rect: Rect, hits: seq<Entry>, some: seq<Entry>, ts: seq<Tree>, t: Tree)
    requires Filtered(d, rect, multiset(hits), HeldAll(ts)) && Filtered(d, rect, multiset(some), Held(t))
    ensures Filtered(d, rect, multiset(hits + some), HeldAll(ts + [t]))
  {
    hide Inside, Held, HeldAll;
    AllConcat(ts, [t]);
    AllOne(t);
    assert multiset(hits + some) == multiset(hits) + multiset(some);
  }

  lemma FilteredAll(d: nat, rect: Rect, hits: multiset<Entry>, held: multiset<Entry>, all: multiset<Entry>)
    requires Filtered(d, rect, hits, held) && SameWithin(d, rect, held, all)
    ensures Filtered(d, rect, hits, all)
  {}

  // ----- Nearest neighbours

  datatype Kind = Item | LeafKind | IndexKind

  /** An element of the priority queue: squared distance, what it is, and payload or address. */
  datatype Elem = Elem(dist: real, kind: Kind, data: int)

  function Rank(k: Kind): nat {
    match k case Item => 0 case LeafKind => 1 case IndexKind => 2
  }

  /** The order of the tuples. */
  predicate Less(a: Elem, b: Elem) {
    a.dist < b.dist || (a.dist == b.dist && (Rank(a.kind) < Rank(b.kind) || (a.kind == b.kind && a.data < b.data)))
  }

  /** The position of a smallest element. */
  method Top(pq: seq<Elem>) returns (j: nat)
    requires |pq| > 0
    ensures j < |pq| && forall i :: 0 <= i < |pq| ==> !Less(pq[i], pq[j])
  {
    j := 0;
    for i := 1 to |pq|
      invariant j < |pq| && forall k :: 0 <= k < i ==> !Less(pq[k], pq[j])
    {
      if Less(pq[i], pq[j]) {
        j := i;
      }
    }
  }

  /** What an element of the queue stands for. */
  datatype Stand = One(entry: Entry) | Sub(tree: Tree)

  ghost function StandHeld(g: Stand): multiset<Entry> {
    match g case One(e) => multiset{e} case Sub(t) => Held(t)
  }

  ghost function StandAll(gs: seq<Stand>): multiset<Entry> {
    if gs == [] then multiset{} else StandHeld(gs[0]) + StandAll(gs[1..])
  }

  ghost function StandWeight(gs: seq<Stand>): nat {
    if gs == [] then 0 else (match gs[0] case One(_) => 1 case Sub(t) => Weight(t)) + StandWeight(gs[1..])
  }

  lemma {:induction false} StandConcat(a: seq<Stand>, b: seq<Stand>)
    ensures StandAll(a + b) == StandAll(a) + StandAll(b) && StandWeight(a + b) == StandWeight(a) + StandWeight(b)
  {
    if a == [] {
      assert a + b == b;
    } else {
      assert (a + b)[1..] == a[1..] + b;
      StandConcat(a[1..], b);
    }
  }

  lemma StandSingle(g: Stand)
    ensures StandAll([g]) == StandHeld(g)
    ensures StandWeight([g]) == (match g case One(_) => 1 case Sub(t) => Weight(t)) > 0
  {
    assert [g][1..] == [];
  }

  function Dist(d: nat, e: Entry, p: Point): real { DistPP(d, e.point, p) }

  /** Every one of these entries is at least as far as `x`. */
  ghost predicate AtLeast(d: nat, x: real, es: multiset<Entry>, p: Point) {
    forall e :: e in es ==> x <= Dist(d, e, p)
  }

  ghost predicate Stands(c: Limits, m: Blocks, p: Point, x: Elem, g: Stand) {
    match g
    case One(e) => x == Elem(Dist(c.dims, e, p), Item, e.payload)
    case Sub(t) =>
      x.data == t.id && t.id in m && Good(c, m, t, m[t.id].level) && AtLeast(c.dims, x.dist, Held(t), p) &&
      x.kind == if m[t.id].level == 0 then LeafKind else IndexKind
  }

  ghost predicate StandsAll(c: Limits, m: Blocks, p: Point, xs: seq<Elem>, gs: seq<Stand>) {
    |xs| == |gs| && forall i :: 0 <= i < |xs| ==> Stands(c, m, p, xs[i], gs[i])
  }

  lemma StandLower(c: Limits, m: Blocks, p: Point, x: Elem, g: Stand)
    requires Stands(c, m, p, x, g)
    ensures AtLeast(c.dims, x.dist, StandHeld(g), p)
  {}

  /** No key is smaller than `x`, so no entry behind the keys is nearer. */
  lemma {:induction false} LowerAll(c: Limits, m: Blocks, p: Point, x: real, xs: seq<Elem>, gs: seq<Stand>)
    requires StandsAll(c, m, p, xs, gs) && forall i :: 0 <= i < |xs| ==> x <= xs[i].dist
    ensures AtLeast(c.dims, x, StandAll(gs), p)
    decreases |gs|
  {
    hide Stands, Dist;
    if gs != [] {
      StandLower(c, m, p, xs[0], gs[0]);
      LowerAll(c, m, p, x, xs[1..], gs[1..]);
    }
  }

  /** Expanding a leaf: its entries become items. */
  method ExpandLeaf(c: Limits, m: Blocks, id: nat, p: Point, ghost t: Tree)
    returns (xs: seq<Elem>, ghost gs: seq<Stand>)
    requires OnQueue(c, m, id, t, true)
    ensures StandsAll(c, m, p, xs, gs) && StandAll(gs) == Held(t) && StandWeight(gs) < Weight(t)
  {
    hide Good, DistPP, StandAll, StandWeight;
    LeafFacts(c, m, id, t);
    LeafWeight(c, m, id, t);
    xs, gs := [], [];
    ghost var es := m[id].entries[..m[id].size];
    NoStands();
    for i := 0 to m[id].size
      invariant StandsAll(c, m, p, xs, gs) && StandAll(gs) == multiset(es[..i]) && StandWeight(gs) == i
    {
      var e := m[id].entries[i];
      assert es[..i + 1] == es[..i] + [e];
      StandConcat(gs, [One(e)]);
      StandSingle(One(e));
      xs, gs := xs + [Elem(Dist(c.dims, e, p), Item, e.payload)], gs + [One(e)];
    }
    assert es[..|es|] == es;
  }

  lemma NoStands()
    ensures StandAll([]) == multiset{} && StandWeight([]) == 0
  {}

  lemma LeafWeight(c: Limits, m: Blocks, id: nat, t: Tree)
    requires OnQueue(c, m, id, t, true)
    ensures Weight(t) == 1 + m[id].size
  {}

  /** Expanding an index block: its children are queued with the distance to their rectangles. */
  method ExpandIndex(c: Limits, m: Blocks, id: nat, p: Point, ghost t: Tree)
    returns (xs: seq<Elem>, ghost gs: seq<Stand>)
    requires OnQueue(c, m, id, t, false)
    ensures StandsAll(c, m, p, xs, gs) && StandAll(gs) == Held(t) && StandWeight(gs) < Weight(t)
  {
    hide Good, DistRP, StandAll, StandWeight, OnQueue, HeldAll, WeightAll, BoxOf, AtLeast, Held, Weight;
    QueueFacts(c, m, id, t);
    xs, gs := [], [];
    NoStands();
    AllNone();
    for i := 0 to m[id].size
      invariant StandsAll(c, m, p, xs, gs) && StandAll(gs) == HeldAll(t.kids[..i])
      invariant StandWeight(gs) == WeightAll(t.kids[..i])
    {
      var s := m[id].slots[i];
      ghost var kid := t.kids[i];
      KidFacts(c, m, id, t, i);
      KidLower(c, m, kid, m[id].level - 1, p);
      assert t.kids[..i + 1] == t.kids[..i] + [kid];
      StandConcat(gs, [Sub(kid)]);
      StandSingle(Sub(kid));
      AllConcat(t.kids[..i], [kid]);
      AllOne(kid);
      WeightConcat(t.kids[..i], [kid]);
      WeightOne(kid);
      var x := Elem(DistRP(c.dims, s.rect, p), if m[id].level == 1 then LeafKind else IndexKind, s.child);
      xs, gs := xs + [x], gs + [Sub(kid)];
    }
    assert t.kids[..|t.kids|] == t.kids;
    NodeParts(t);
  }

  lemma KidLower(c: Limits, m: Blocks, kid: Tree, h: nat, p: Point)
    requires Good(c, m, kid, h)
    ensures AtLeast(c.dims, DistRP(c.dims, BoxOf(c.dims, m[kid.id]), p), Held(kid), p) && m[kid.id].level == h
  {
    hide Inside, DistRP, Held;
    GoodFacts(c, m, kid, h);
    GoodBox(c, m, kid, h);
    forall e | e in Held(kid) ensures DistRP(c.dims, BoxOf(c.dims, m[kid.id]), p) <= Dist(c.dims, e, p) {
      RectLowerBound(c.dims, BoxOf(c.dims, m[kid.id]), e.point, p);
    }
  }

  ghost predicate Nearest(d: nat, p: Point, chosen: seq<Entry>, rest: multiset<Entry>) {
    && (forall i, j :: 0 <= i < j < |chosen| ==> Dist(d, chosen[i], p) <= Dist(d, chosen[j], p))
    && (forall i :: 0 <= i < |chosen| ==> AtLeast(d, Dist(d, chosen[i], p), rest, p))
  }

  function Removed<T>(s: seq<T>, j: nat): seq<T>
    requires j < |s|
  {
    s[..j] + s[j + 1..]
  }

  lemma Popped(c: Limits, m: Blocks, p: Point, pq: seq<Elem>, gs: seq<Stand>, j: nat)
    requires StandsAll(c, m, p, pq, gs) && j < |pq| == |gs| && forall i :: 0 <= i < |pq| ==> !Less(pq[i], pq[j])
    ensures |Removed(gs, j)| == |Removed(pq, j)|
    ensures StandsAll(c, m, p, Removed(pq, j), Removed(gs, j)) && Stands(c, m, p, pq[j], gs[j])
    ensures StandAll(gs) == StandAll(Removed(gs, j)) + StandHeld(gs[j])
    ensures StandWeight(gs) == StandWeight(Removed(gs, j)) + StandWeight([gs[j]])
    ensures AtLeast(c.dims, pq[j].dist, StandAll(Removed(gs, j)), p)
  {
    hide Stands, StandAll, StandWeight, StandHeld, AtLeast;
    assert gs == gs[..j] + ([gs[j]] + gs[j + 1..]);
    StandConcat(gs[..j], [gs[j]] + gs[j + 1..]);
    StandConcat([gs[j]], gs[j + 1..]);
    StandConcat(gs[..j], gs[j + 1..]);
    StandSingle(gs[j]);
    LowerAll(c, m, p, pq[j].dist, Removed(pq, j), Removed(gs, j));
  }

  lemma Expanded(c: Limits, m: Blocks, p: Point, pq: seq<Elem>, gs: seq<Stand>, j: nat, xs: seq<Elem>, more: seq<Stand>)
    requires StandsAll(c, m, p, pq, gs) && j < |pq| == |gs| && forall i :: 0 <= i < |pq| ==> !Less(pq[i], pq[j])
    requires StandsAll(c, m, p, xs, more) && StandAll(more) == StandHeld(gs[j])
    requires StandWeight(more) < StandWeight([gs[j]])
    ensures |Removed(pq, j) + xs| == |Removed(gs, j) + more|
    ensures StandsAll(c, m, p, Removed(pq, j) + xs, Removed(gs, j) + more)
    ensures StandAll(Removed(gs, j) + more) == StandAll(gs) && StandWeight(Removed(gs, j) + more) < StandWeight(gs)
  {
    hide Stands, StandAll, StandWeight, StandHeld, AtLeast, Removed;
    Popped(c, m, p, pq, gs, j);
    StandConcat(Removed(gs, j), more);
  }

  /** One more item: it is at least as far as those before, and nothing left is nearer. */
  lemma Chosen(d: nat, p: Point, chosen: seq<Entry>, e: Entry, rest: multiset<Entry>)
    requires Nearest(d, p, chosen, rest + multiset{e}) && AtLeast(d, Dist(d, e, p), rest, p)
    ensures Nearest(d, p, chosen + [e], rest)
  {
    hide Dist;
    assert e in rest + multiset{e};
    forall i | 0 <= i < |chosen|
      ensures AtLeast(d, Dist(d, chosen[i], p), rest, p) && Dist(d, chosen[i], p) <= Dist(d, e, p)
    {
      assert AtLeast(d, Dist(d, chosen[i], p), rest + multiset{e}, p);
      forall x | x in rest ensures Dist(d, chosen[i], p) <= Dist(d, x, p) {
        assert x in rest + multiset{e};
      }
    }
  }

  /** What a block on the queue is replaced by. */
  method Expand(c: Limits, m: Blocks, x: Elem, p: Point, ghost t: Tree) returns (xs: seq<Elem>, ghost gs: seq<Stand>)
    requires x.kind != Item && x.data >= 0 && OnQueue(c, m, x.data, t, x.kind == LeafKind)
    ensures StandsAll(c, m, p, xs, gs) && StandAll(gs) == Held(t) && StandWeight(gs) < Weight(t)
  {
    hide OnQueue, StandsAll, StandAll, StandWeight, Held, Weight;
    if x.kind == LeafKind {
      xs, gs := ExpandLeaf(c, m, x.data, p, t);
    } else {
      xs, gs := ExpandIndex(c, m, x.data, p, t);
    }
  }

  lemma TakeItem(c: Limits, m: Blocks, p: Point, pq: seq<Elem>, gs: seq<Stand>, j: nat, chosen: seq<Entry>,
                 all: multiset<Entry>)
    requires StandsAll(c, m, p, pq, gs) && j < |pq| == |gs| && forall i :: 0 <= i < |pq| ==> !Less(pq[i], pq[j])
    requires pq[j].kind == Item && multiset(chosen) + StandAll(gs) == all && Nearest(c.dims, p, chosen, StandAll(gs))
    ensures gs[j].One? && Nearest(c.dims, p, chosen + [gs[j].entry], StandAll(Removed(gs, j)))
    ensures multiset(chosen + [gs[j].entry]) + StandAll(Removed(gs, j)) == all
  {
    hide Stands, StandsAll, StandAll, StandWeight, StandHeld, AtLeast, Nearest, Dist, Removed, Less, OnQueue, Held;
    Popped(c, m, p, pq, gs, j);
    StandFacts(c, m, p, pq[j], gs[j]);
    var (e, rest) := (gs[j].entry, StandAll(Removed(gs, j)));
    Chosen(c.dims, p, chosen, e, rest);
    assert multiset(chosen + [e]) == multiset(chosen) + multiset{e};
  }

  /** Best-first search: the nearest points first, as many as there are or as asked for, and at least one. */
  method KnnQuery(tree: RTree, point: Point, k: nat, before: seq<int>)
    returns (result: seq<int>, ghost chosen: seq<Entry>, ghost rest: multiset<Entry>)
    requires tree.Valid() && tree.root != 0
    ensures result == before + Payloads(chosen)
    ensures multiset(chosen) + rest == tree.Contents()
    ensures Nearest(tree.c.dims, point, chosen, rest)
    ensures rest == multiset{} || |result| == if k <= |before| then |before| + 1 else k
    ensures |result| <= if k <= |before| then |before| + 1 else k
    ensures before == [] && k > 0 ==> |result| == if k < |tree.Contents()| then k else |tree.Contents()|
  {
    hide Good, Stands, StandsAll, StandAll, StandWeight, StandHeld, AtLeast, Nearest, Held, Distinct, KeysAre, Ids;
    hide Dist, Removed, Less, OnQueue, Payloads;
    var c, m := tree.c, tree.nodes;
    ghost var all := tree.Contents();
    var pq := [Elem(0.0, IndexKind, tree.root)];
    ghost var gs := [Sub(tree.tree)];
    KnnStart(c, m, point, tree.tree, tree.height);
    NothingChosen(c.dims, point, all);
    result, chosen := before, [];
    rest := all;
    while pq != []
      invariant |pq| == |gs| && StandsAll(c, m, point, pq, gs) && rest == StandAll(gs) && multiset(chosen) + rest == all
      invariant Nearest(c.dims, point, chosen, rest) && result == before + Payloads(chosen)
      invariant |chosen| > 0 ==> |result| < k
      decreases StandWeight(gs)
    {
      var j := Top(pq);
      var x := pq[j];
      ghost var g := gs[j];
      Popped(c, m, point, pq, gs, j);
      StandFacts(c, m, point, x, g);
      StandSingle(g);
      match x.kind
      case Item =>
        TakeItem(c, m, point, pq, gs, j, chosen, all);
        result := result + [x.data];
        PayloadsMore(chosen, g.entry);
        pq, gs, chosen := Removed(pq, j), Removed(gs, j), chosen + [g.entry];
        rest := StandAll(gs);
        Counted(chosen, rest, all);
        if |result| >= k {
          return;
        }
      case _ =>
        var xs;
        ghost var more;
        xs, more := Expand(c, m, x, point, g.tree);
        Expanded(c, m, point, pq, gs, j, xs, more);
        pq, gs := Removed(pq, j) + xs, Removed(gs, j) + more;
    }
    assert gs == [];
    NoStands();
    Counted(chosen, rest, all);
  }

  lemma Counted(chosen: seq<Entry>, rest: multiset<Entry>, all: multiset<Entry>)
    requires multiset(chosen) + rest == all
    ensures |chosen| + |rest| == |all|
  {
    assert |multiset(chosen)| == |chosen|;
  }

  lemma PayloadsMore(es: seq<Entry>, e: Entry)
    ensures Payloads(es + [e]) == Payloads(es) + [e.payload] && |Payloads(es)| == |es|
  {}

  lemma NothingChosen(d: nat, p: Point, rest: multiset<Entry>)
    ensures Nearest(d, p, [], rest) && Payloads([]) == []
  {}

  lemma KnnStart(c: Limits, m: Blocks, p: Point, t: Tree, h: nat)
    requires Good(c, m, t, h) && h > 0
    ensures StandsAll(c, m, p, [Elem(0.0, IndexKind, t.id)], [Sub(t)]) && StandAll([Sub(t)]) == Held(t)
  {
    hide Good, Held;
    GoodFacts(c, m, t, h);
    StandSingle(Sub(t));
  }

  lemma StandFacts(c: Limits, m: Blocks, p: Point, x: Elem, g: Stand)
    requires Stands(c, m, p, x, g)
    ensures x.kind == Item ==>
              && g.One? && x.dist == Dist(c.dims, g.entry, p) && x.data == g.entry.payload
              && StandHeld(g) == multiset{g.entry}
    ensures x.kind != Item ==> g.Sub? && x.data == g.tree.id && StandHeld(g) == Held(g.tree)
    ensures x.kind != Item ==> OnQueue(c, m, x.data, g.tree, x.kind == LeafKind)
  {
    hide Good, AtLeast, Held;
  }

  /** End to end: whatever was inserted, both queries answer as a linear scan of it would. */
  method InsertThenQuery(limits: Limits, largest: real, es: seq<Entry>, rect: Rect, point: Point, k: nat)
    returns (inside: seq<int>, near: seq<int>, ghost hits: seq<Entry>, ghost chosen: seq<Entry>,
             ghost rest: multiset<Entry>)
    requires limits.leaf >= 2 && limits.index >= 2 && |es| > 0 && k > 0
    requires forall i :: 0 <= i < |es| ==> |es[i].point| == limits.dims
    ensures inside == Payloads(hits) && Filtered(limits.dims, rect, multiset(hits), multiset(es))
    ensures near == Payloads(chosen) && multiset(chosen) + rest == multiset(es)
    ensures Nearest(limits.dims, point, chosen, rest) && |near| == if k < |es| then k else |es|
  {
    hide Filtered, Nearest;
    var tree := new RTree(limits, largest);
    for i := 0 to |es|
      invariant fresh(tree) && tree.c == limits && tree.Valid() && (i > 0 ==> tree.root != 0)
      invariant tree.Contents() == multiset(es[..i])
    {
      tree.Insert(es[i].point, es[i].payload);
      assert es[..i + 1] == es[..i] + [es[i]];
    }
    assert es[..|es|] == es;
    inside, hits := RangeQuery(tree, rect, []);
    near, chosen, rest := KnnQuery(tree, point, k, []);
  }
}
