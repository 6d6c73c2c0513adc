/** The block-level operations: insertion into a block, bounding boxes, and the split of a full block. */
module RTreeBlocks {
  import opened RTreeGeometry
  import opened RTreeShape
  import opened RTreePath

  // ----- Bounding boxes

  /** Widens a rectangle coordinate by coordinate. */
  method Widen(d: nat, r: Rect, s: Rect) returns (u: Rect)
    ensures u == Union(d, r, s)
  {
    var lo: Point, hi: Point := [], [];
    for j := 0 to d
      invariant |lo| == |hi| == j
      invariant forall i :: 0 <= i < j ==> lo[i] == Min(At(r.min, i), At(s.min, i))
      invariant forall i :: 0 <= i < j ==> hi[i] == Max(At(r.max, i), At(s.max, i))
    {
      lo := lo + [if At(r.min, j) < At(s.min, j) then At(r.min, j) else At(s.min, j)];
      hi := hi + [if At(r.max, j) < At(s.max, j) then At(s.max, j) else At(r.max, j)];
    }
    u := Rect(lo, hi);
    assert u.min == Union(d, r, s).min && u.max == Union(d, r, s).max;
  }

  lemma UnionSelf(d: nat, p: Point)
    requires |p| == d
    ensures Union(d, PointRect(p), PointRect(p)) == PointRect(p)
  {
    assert Union(d, PointRect(p), PointRect(p)).min == p;
    assert Union(d, PointRect(p), PointRect(p)).max == p;
  }

  /** `GetRect` of a leaf or of an index block. */
  method GetRect(d: nat, n: Block) returns (rect: Rect)
    requires Filled(n) && (n.Leaf? ==> |n.entries[0].point| == d)
    ensures rect == BoxOf(d, n)
  {
    hide Union;
    if n.Leaf? {
      rect := PointRect(n.entries[0].point);
      for i := 0 to n.size
        invariant rect == if i == 0 then PointRect(n.entries[0].point) else BoxOfEntries(d, n.entries[..i])
      {
        UnionSelf(d, n.entries[0].point);
        rect := Widen(d, rect, PointRect(n.entries[i].point));
        assert n.entries[..i + 1][..i] == n.entries[..i];
      }
    } else {
      rect := n.slots[0].rect;
      for i := 1 to n.size
        invariant rect == BoxOfSlots(d, n.slots[..i])
      {
        rect := Widen(d, rect, n.slots[i].rect);
        assert n.slots[..i + 1][..i] == n.slots[..i];
      }
    }
  }

  // ----- Splitting a full block

  ghost predicate Gap(gap: (nat, nat) -> real) {
    forall i, j :: gap(i, j) >= 0.0
  }

  /** The two seeds of a split: the first pair at the largest distance. */
  method FarthestPair(n: nat, gap: (nat, nat) -> real) returns (l: nat, r: nat)
    requires n >= 2 && Gap(gap)
    ensures l < r < n
    ensures forall i: nat, j: nat :: i < j < n ==> gap(i, j) <= gap(l, r)
    ensures forall i: nat, j: nat :: i < j < n && (i < l || (i == l && j < r)) ==> gap(i, j) < gap(l, r)
  {
    var most := -1.0;
    l, r := 0, 1;
    for i := 0 to n
      invariant l < r < n && (if i == 0 then most == -1.0 else l < i && most == gap(l, r))
      invariant forall a: nat, b: nat :: a < i && a < b < n ==> gap(a, b) <= most
      invariant i > 0 ==> forall a: nat, b: nat :: a < b < n && (a < l || (a == l && b < r)) ==> gap(a, b) < most
    {
      for j := i + 1 to n
        invariant l < r < n
        invariant if i == 0 && j == 1 then most == -1.0 else most == gap(l, r) && (l < i || (l == i && r < j))
        invariant forall a: nat, b: nat :: a < b < n && (a < i || (a == i && b < j)) ==> gap(a, b) <= most
        invariant i > 0 || j > 1 ==>
          forall a: nat, b: nat :: a < b < n && (a < l || (a == l && b < r)) ==> gap(a, b) < most
      {
        if most < gap(i, j) {
          most, l, r := gap(i, j), i, j;
        }
      }
    }
  }

  /** The entries dealt to the two seeds, and which one gets the next tie. */
  datatype Deal = Deal(left: seq<nat>, right: seq<nat>, leftNext: bool)

  /** The first `n` entries go to the nearer seed, ties in turn. */
  function DealUpTo(toL: nat -> real, toR: nat -> real, n: nat): Deal {
    if n == 0 then Deal([], [], true)
    else DealOne(toL, toR, n - 1, DealUpTo(toL, toR, n - 1))
  }

  function DealOne(toL: nat -> real, toR: nat -> real, i: nat, d: Deal): Deal {
    if toL(i) < toR(i) then d.(left := d.left + [i])
    else if toL(i) > toR(i) then d.(right := d.right + [i])
    else if d.leftNext then Deal(d.left + [i], d.right, false)
    else Deal(d.left, d.right + [i], true)
  }

  lemma {:induction false} DealShares(toL: nat -> real, toR: nat -> real, n: nat)
    ensures Shares(DealUpTo(toL, toR, n).left, DealUpTo(toL, toR, n).right, n)
  {
    hide DealUpTo, Shares;
    if n == 0 {
      DealNone(toL, toR);
      SharesNone();
    } else {
      var d := DealUpTo(toL, toR, n - 1);
      DealShares(toL, toR, n - 1);
      SharesMore(d.left, d.right, n - 1);
      DealMore(toL, toR, n - 1);
    }
  }

  lemma DealNone(toL: nat -> real, toR: nat -> real)
    ensures DealUpTo(toL, toR, 0) == Deal([], [], true)
  {}

  lemma DealMore(toL: nat -> real, toR: nat -> real, i: nat)
    ensures DealUpTo(toL, toR, i + 1) == DealOne(toL, toR, i, DealUpTo(toL, toR, i))
  {}

  lemma SharesNone()
    ensures Shares([], [], 0)
  {}

  lemma SharesMore(l: seq<nat>, r: seq<nat>, n: nat)
    requires Shares(l, r, n)
    ensures Shares(l + [n], r, n + 1) && Shares(l, r + [n], n + 1)
  {
    assert n !in l && n !in r;
  }

  /** How many of the entries are equally far from both seeds. */
  function Ties(toL: nat -> real, toR: nat -> real, s: seq<nat>): nat {
    if s == [] then 0
    else Ties(toL, toR, s[..|s| - 1]) + if toL(s[|s| - 1]) == toR(s[|s| - 1]) then 1 else 0
  }

  lemma TiesMore(toL: nat -> real, toR: nat -> real, s: seq<nat>, i: nat)
    ensures Ties(toL, toR, s + [i]) == Ties(toL, toR, s) + if toL(i) == toR(i) then 1 else 0
  {
    assert (s + [i])[..|s|] == s;
  }

  /** Nobody is dealt to the farther seed, and the ties are split evenly, the first one left. */
  ghost predicate Fair(toL: nat -> real, toR: nat -> real, d: Deal) {
    && (forall k :: 0 <= k < |d.left| ==> toL(d.left[k]) <= toR(d.left[k]))
    && (forall k :: 0 <= k < |d.right| ==> toL(d.right[k]) >= toR(d.right[k]))
    && Ties(toL, toR, d.left) - Ties(toL, toR, d.right) == if d.leftNext then 0 else 1
  }

  lemma {:induction false} DealFair(toL: nat -> real, toR: nat -> real, n: nat)
    ensures Fair(toL, toR, DealUpTo(toL, toR, n))
  {
    hide DealUpTo, Ties;
    if n == 0 {
      DealNone(toL, toR);
      NoTies(toL, toR);
    } else {
      DealFair(toL, toR, n - 1);
      DealMore(toL, toR, n - 1);
      TiesMore(toL, toR, DealUpTo(toL, toR, n - 1).left, n - 1);
      TiesMore(toL, toR, DealUpTo(toL, toR, n - 1).right, n - 1);
    }
  }

  lemma NoTies(toL: nat -> real, toR: nat -> real)
    ensures Ties(toL, toR, []) == 0
  {}

  /** An empty side takes the last entry of the other one. */
  function Evened(d: Deal): Deal {
    if d.left == [] && d.right != [] then
      Deal([d.right[|d.right| - 1]], d.right[..|d.right| - 1], d.leftNext)
    else if d.left != [] && d.right == [] then
      Deal(d.left[..|d.left| - 1], [d.left[|d.left| - 1]], d.leftNext)
    else d
  }

  lemma EvenedShares(d: Deal, n: nat)
    requires Shares(d.left, d.right, n) && n >= 2
    ensures Shares(Evened(d).left, Evened(d).right, n)
    ensures |Evened(d).left| > 0 && |Evened(d).right| > 0
  {
    var e := Evened(d);
    forall i: nat | i < n ensures (i in e.left) != (i in e.right) {
      assert (i in d.left) != (i in d.right);
    }
  }

  method Clusters(n: nat, toL: nat -> real, toR: nat -> real) returns (l: seq<nat>, r: seq<nat>)
    requires n >= 2
    ensures l == Evened(DealUpTo(toL, toR, n)).left && r == Evened(DealUpTo(toL, toR, n)).right
    ensures Shares(l, r, n) && |l| > 0 && |r| > 0
  {
    var leftNext := true;
    l, r := [], [];
    for i := 0 to n
      invariant Deal(l, r, leftNext) == DealUpTo(toL, toR, i)
    {
      if toL(i) < toR(i) {
        l := l + [i];
      } else if toL(i) > toR(i) {
        r := r + [i];
      } else {
        if leftNext {
          l := l + [i];
        } else {
          r := r + [i];
        }
        leftNext := !leftNext;
      }
    }
    DealShares(toL, toR, n);
    EvenedShares(DealUpTo(toL, toR, n), n);
    if l == [] {
      l, r := [r[|r| - 1]], r[..|r| - 1];
    } else if r == [] {
      l, r := l[..|l| - 1], [l[|l| - 1]];
    }
  }

  /** The seeds are the farthest pair, and everyone is dealt to the nearer of them. */
  ghost predicate Clustered(n: nat, gap: (nat, nat) -> real, a: nat, b: nat, l: seq<nat>, r: seq<nat>) {
    && a < b < n
    && (forall i: nat, j: nat :: i < j < n ==> gap(i, j) <= gap(a, b))
    && l == Evened(DealUpTo((i: nat) => gap(a, i), (i: nat) => gap(b, i), n)).left
    && r == Evened(DealUpTo((i: nat) => gap(a, i), (i: nat) => gap(b, i), n)).right
  }

  method ShareOut(n: nat, gap: (nat, nat) -> real) returns (a: nat, b: nat, l: seq<nat>, r: seq<nat>)
    requires n >= 2 && Gap(gap)
    ensures Clustered(n, gap, a, b, l, r) && Shares(l, r, n) && |l| > 0 && |r| > 0
  {
    hide Shares;
    a, b := FarthestPair(n, gap);
    l, r := Clusters(n, (i: nat) => gap(a, i), (i: nat) => gap(b, i));
  }

  function EntryGap(d: nat, es: seq<Entry>): (nat, nat) -> real {
    (i: nat, j: nat) => if i < |es| && j < |es| then DistPP(d, es[i].point, es[j].point) else 0.0
  }

  function SlotGap(d: nat, ss: seq<Slot>): (nat, nat) -> real {
    (i: nat, j: nat) => if i < |ss| && j < |ss| then DistRR(d, ss[i].rect, ss[j].rect) else 0.0
  }

  method LeafClusters(d: nat, es: seq<Entry>) returns (a: nat, b: nat, l: seq<nat>, r: seq<nat>)
    requires |es| >= 2
    ensures Clustered(|es|, EntryGap(d, es), a, b, l, r) && Shares(l, r, |es|) && |l| > 0 && |r| > 0
  {
    hide DistPP;
    a, b, l, r := ShareOut(|es|, EntryGap(d, es));
  }

  method IndexClusters(d: nat, ss: seq<Slot>) returns (a: nat, b: nat, l: seq<nat>, r: seq<nat>)
    requires |ss| >= 2
    ensures Clustered(|ss|, SlotGap(d, ss), a, b, l, r) && Shares(l, r, |ss|) && |l| > 0 && |r| > 0
  {
    hide DistRR;
    a, b, l, r := ShareOut(|ss|, SlotGap(d, ss));
  }

  lemma ClusteredSeeds(n: nat, gap: (nat, nat) -> real, a: nat, b: nat, l: seq<nat>, r: seq<nat>)
    requires Clustered(n, gap, a, b, l, r)
    ensures a < b < n
  {}
}
