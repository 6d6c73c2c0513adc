/** Points, rectangles and squared Euclidean distances in `d` dimensions, over exact numbers
    (`XPoint`, `XRect`, `Intersect`, `Union`, `EuclideanDistance`). */
module RTreeGeometry {
  type Point = seq<real>

  datatype Rect = Rect(min: Point, max: Point)

  /** Coordinate `i`. */
  function At(p: Point, i: nat): real {
    if i < |p| then p[i] else 0.0
  }

  function Min(x: real, y: real): real { if x < y then x else y }

  function Max(x: real, y: real): real { if x < y then y else x }

  function Sq(x: real): real { x * x }

  // ----- Containment

  predicate Inside(d: nat, r: Rect, p: Point) {
    forall i :: 0 <= i < d ==> At(r.min, i) <= At(p, i) <= At(r.max, i)
  }

  /** The loop of `Intersect(rect, point)`. */
  method IntersectPoint(d: nat, r: Rect, p: Point) returns (yes: bool)
    ensures yes <==> Inside(d, r, p)
  {
    for i := 0 to d
      invariant forall j :: 0 <= j < i ==> At(r.min, j) <= At(p, j) <= At(r.max, j)
    {
      if At(r.min, i) > At(p, i) {
        return false;
      }
      if At(r.max, i) < At(p, i) {
        return false;
      }
    }
    return true;
  }

  predicate Overlap(d: nat, r: Rect, s: Rect) {
    forall i :: 0 <= i < d ==> At(r.max, i) >= At(s.min, i) && At(r.min, i) <= At(s.max, i)
  }

  /** The loop of `Intersect(rect1, rect2)`. */
  method IntersectRect(d: nat, r: Rect, s: Rect) returns (yes: bool)
    ensures yes <==> Overlap(d, r, s)
  {
    for i := 0 to d
      invariant forall j :: 0 <= j < i ==> At(r.max, j) >= At(s.min, j) && At(r.min, j) <= At(s.max, j)
    {
      if At(r.max, i) < At(s.min, i) {
        return false;
      }
      if At(r.min, i) > At(s.max, i) {
        return false;
      }
    }
    return true;
  }

  /** Rectangles without a common point cannot be missed by `Overlap`. */
  lemma CommonPointOverlaps(d: nat, r: Rect, s: Rect, p: Point)
    requires Inside(d, r, p) && Inside(d, s, p)
    ensures Overlap(d, r, s)
  {
    forall i | 0 <= i < d ensures At(r.max, i) >= At(s.min, i) && At(r.min, i) <= At(s.max, i) {
      assert At(r.min, i) <= At(p, i) <= At(r.max, i);
      assert At(s.min, i) <= At(p, i) <= At(s.max, i);
    }
  }

  // ----- Union

  function Union(d: nat, r: Rect, s: Rect): Rect {
    Rect(seq(d, i requires i >= 0 => Min(At(r.min, i), At(s.min, i))),
         seq(d, i requires i >= 0 => Max(At(r.max, i), At(s.max, i))))
  }

  function PointRect(p: Point): Rect { Rect(p, p) }

  lemma UnionAt(d: nat, r: Rect, s: Rect, i: nat)
    requires i < d
    ensures At(Union(d, r, s).min, i) == Min(At(r.min, i), At(s.min, i))
    ensures At(Union(d, r, s).max, i) == Max(At(r.max, i), At(s.max, i))
  {}

  lemma InsideUnion(d: nat, r: Rect, s: Rect, p: Point)
    requires Inside(d, r, p) || Inside(d, s, p)
    ensures Inside(d, Union(d, r, s), p)
  {
    forall i | 0 <= i < d ensures At(Union(d, r, s).min, i) <= At(p, i) <= At(Union(d, r, s).max, i) {
      UnionAt(d, r, s, i);
      if Inside(d, r, p) {
        assert At(r.min, i) <= At(p, i) <= At(r.max, i);
      } else {
        assert At(s.min, i) <= At(p, i) <= At(s.max, i);
      }
    }
  }

  // ----- Squared distances

  function DistPP(d: nat, p: Point, q: Point): (r: real)
    ensures r >= 0.0
  {
    if d == 0 then 0.0
    else
      SqNonNegative(At(p, d - 1) - At(q, d - 1));
      DistPP(d - 1, p, q) + Sq(At(p, d - 1) - At(q, d - 1))
  }

  /** How far `x` lies outside the interval. */
  function Gap(lo: real, hi: real, x: real): real {
    if x > hi then x - hi else if x < lo then lo - x else 0.0
  }

  function DistRP(d: nat, r: Rect, p: Point): (x: real)
    ensures x >= 0.0
  {
    if d == 0 then 0.0
    else
      var g := Gap(At(r.min, d - 1), At(r.max, d - 1), At(p, d - 1));
      SqNonNegative(g);
      DistRP(d - 1, r, p) + Sq(g)
  }

  function GapRR(lo1: real, hi1: real, lo2: real, hi2: real): real {
    if lo1 > hi2 then lo1 - hi2 else if hi1 < lo2 then lo2 - hi1 else 0.0
  }

  function DistRR(d: nat, r: Rect, s: Rect): (x: real)
    ensures x >= 0.0
  {
    if d == 0 then 0.0
    else
      var g := GapRR(At(r.min, d - 1), At(r.max, d - 1), At(s.min, d - 1), At(s.max, d - 1));
      SqNonNegative(g);
      DistRR(d - 1, r, s) + Sq(g)
  }

  lemma SqNonNegative(x: real)
    ensures Sq(x) >= 0.0
  {}

  lemma SqMonotone(x: real, y: real)
    requires 0.0 <= x && (x <= y || x <= -y)
    ensures Sq(x) <= Sq(y)
  {
    hide Sq;
    if x <= y {
      SqUp(x, y);
    } else {
      SqUp(x, -y);
      SqSign(y);
    }
  }

  lemma SqUp(x: real, y: real)
    requires 0.0 <= x <= y
    ensures Sq(x) <= Sq(y)
  {
    Scaled(x, y, x);
    Scaled(x, y, y);
  }

  lemma SqSign(x: real)
    ensures Sq(-x) == Sq(x)
  {}

  lemma Scaled(x: real, y: real, c: real)
    requires x <= y && 0.0 <= c
    ensures x * c <= y * c && c * x <= c * y
  {}

  /** The distance to a rectangle is a lower bound of the distance to every point inside it. */
  lemma {:induction false} RectLowerBound(d: nat, r: Rect, q: Point, p: Point)
    requires Inside(d, r, q)
    ensures DistRP(d, r, p) <= DistPP(d, q, p)
  {
    if d > 0 {
      assert Inside(d - 1, r, q);
      RectLowerBound(d - 1, r, q, p);
      var i := d - 1;
      assert At(r.min, i) <= At(q, i) <= At(r.max, i);
      var g := Gap(At(r.min, i), At(r.max, i), At(p, i));
      SqMonotone(g, At(q, i) - At(p, i));
    }
  }

  // ----- What the distances are

  /** Moving one coordinate changes the distance by the difference of the squares of its offsets. */
  lemma {:induction false} DistMoved(d: nat, p: Point, q: Point, i: nat, x: real)
    requires i < |p|
    ensures DistPP(d, p[i := x], q) == if i >= d then DistPP(d, p, q) else
              DistPP(d, p, q) - (p[i] - At(q, i)) * (p[i] - At(q, i)) + (x - At(q, i)) * (x - At(q, i))
  {
    if d > 0 {
      DistMoved(d - 1, p, q, i, x);
    }
  }

  lemma {:induction false} DistZero(d: nat, p: Point, q: Point)
    ensures DistPP(d, p, q) == 0.0 <==> forall i :: 0 <= i < d ==> At(p, i) == At(q, i)
  {
    if d > 0 {
      DistZero(d - 1, p, q);
      SqZero(At(p, d - 1) - At(q, d - 1));
      SqNonNegative(At(p, d - 1) - At(q, d - 1));
    }
  }

  lemma SqZero(x: real)
    ensures Sq(x) == 0.0 <==> x == 0.0
  {
    hide Sq;
    if x < 0.0 {
      SqPositive(-x);
      SqSign(x);
    } else if x > 0.0 {
      SqPositive(x);
    } else {
      SqOfZero();
    }
  }

  lemma SqOfZero()
    ensures Sq(0.0) == 0.0
  {}

  lemma SqPositive(x: real)
    requires x > 0.0
    ensures Sq(x) > 0.0
  {
    var y := x * x;
    assert y / x == x;
  }

  lemma {:induction false} DistSymmetric(d: nat, p: Point, q: Point)
    ensures DistPP(d, p, q) == DistPP(d, q, p)
  {
    hide Sq;
    if d > 0 {
      DistSymmetric(d - 1, p, q);
      var x := At(p, d - 1) - At(q, d - 1);
      SqSign(x);
      assert At(q, d - 1) - At(p, d - 1) == -x;
    }
  }

  ghost predicate Proper(d: nat, r: Rect) {
    forall i :: 0 <= i < d ==> At(r.min, i) <= At(r.max, i)
  }

  /** The number of the interval nearest to `x`. */
  function Clamp(lo: real, hi: real, x: real): real {
    if x < lo then lo else if x > hi then hi else x
  }

  /** The point of the rectangle nearest to `p`. */
  function Nearby(d: nat, r: Rect, p: Point): (q: Point)
    ensures |q| == d
  {
    seq(d, i requires 0 <= i < d => Clamp(At(r.min, i), At(r.max, i), At(p, i)))
  }

  lemma {:induction false} SameOffsets(d: nat, r: Rect, p: Point, q: Point)
    requires forall i :: 0 <= i < d ==>
      (At(q, i) - At(p, i)) * (At(q, i) - At(p, i)) == Sq(Gap(At(r.min, i), At(r.max, i), At(p, i)))
    ensures DistPP(d, q, p) == DistRP(d, r, p)
  {
    if d > 0 {
      SameOffsets(d - 1, r, p, q);
    }
  }

  /** The distance to a rectangle is that to one of its points, and to no point of it is it smaller. */
  lemma RectDistance(d: nat, r: Rect, p: Point)
    requires Proper(d, r)
    ensures Inside(d, r, Nearby(d, r, p)) && DistPP(d, Nearby(d, r, p), p) == DistRP(d, r, p)
    ensures forall q :: Inside(d, r, q) ==> DistRP(d, r, p) <= DistPP(d, q, p)
  {
    hide DistPP, DistRP;
    var q := Nearby(d, r, p);
    SameOffsets(d, r, p, q);
    forall q | Inside(d, r, q) ensures DistRP(d, r, p) <= DistPP(d, q, p) {
      RectLowerBound(d, r, q, p);
    }
  }

  /** A point of `r` and a point of `s` nearest to each other. */
  function NearOf(d: nat, r: Rect, s: Rect): (p: Point)
    ensures |p| == d
  {
    seq(d, i requires 0 <= i < d => Clamp(At(r.min, i), At(r.max, i), At(s.min, i)))
  }

  lemma {:induction false} SameGaps(d: nat, r: Rect, s: Rect, p: Point)
    requires forall i :: 0 <= i < d ==>
      Gap(At(s.min, i), At(s.max, i), At(p, i)) == GapRR(At(r.min, i), At(r.max, i), At(s.min, i), At(s.max, i))
    ensures DistRP(d, s, p) == DistRR(d, r, s)
  {
    if d > 0 {
      SameGaps(d - 1, r, s, p);
    }
  }

  lemma {:induction false} RectsLowerBound(d: nat, r: Rect, s: Rect, p: Point, q: Point)
    requires Inside(d, r, p) && Inside(d, s, q)
    ensures DistRR(d, r, s) <= DistPP(d, p, q)
  {
    if d > 0 {
      assert Inside(d - 1, r, p) && Inside(d - 1, s, q);
      RectsLowerBound(d - 1, r, s, p, q);
      var i := d - 1;
      assert At(r.min, i) <= At(p, i) <= At(r.max, i) && At(s.min, i) <= At(q, i) <= At(s.max, i);
      SqMonotone(GapRR(At(r.min, i), At(r.max, i), At(s.min, i), At(s.max, i)), At(p, i) - At(q, i));
    }
  }

  /** The distance of two rectangles is that of two of their points, and no two are nearer. */
  lemma RectsDistance(d: nat, r: Rect, s: Rect)
    requires Proper(d, r) && Proper(d, s)
    ensures var p := NearOf(d, r, s); var q := Nearby(d, s, p);
            Inside(d, r, p) && Inside(d, s, q) && DistPP(d, q, p) == DistRR(d, r, s)
    ensures forall p, q :: Inside(d, r, p) && Inside(d, s, q) ==> DistRR(d, r, s) <= DistPP(d, p, q)
  {
    hide DistPP, DistRP, DistRR;
    var p := NearOf(d, r, s);
    SameGaps(d, r, s, p);
    RectDistance(d, s, p);
    forall p, q | Inside(d, r, p) && Inside(d, s, q) ensures DistRR(d, r, s) <= DistPP(d, p, q) {
      RectsLowerBound(d, r, s, p, q);
    }
  }
}
