/** The integer point-in-triangle test of day 6. */
module Triangles {

  /** A grid point `(x, y)`. */
  datatype Point = Point(x: int, y: int)

  /** `sign(p1, p2, p3)`: the cross product of `p1 - p3` and `p2 - p3`,
      twice the signed area of the triangle `p1 p2 p3`. */
  function Sign(p1: Point, p2: Point, p3: Point): int {
    (p1.x - p3.x) * (p2.y - p3.y) - (p2.x - p3.x) * (p1.y - p3.y)
  }

  /** `pointInTriangle`: the point is not strictly on both sides of the three edges. */
  predicate PointInTriangle(pt: Point, t1: Point, t2: Point, t3: Point) {
    var d1 := Sign(pt, t1, t2);
    var d2 := Sign(pt, t2, t3);
    var d3 := Sign(pt, t3, t1);
    var hasNeg := d1 < 0 || d2 < 0 || d3 < 0;
    var hasPos := d1 > 0 || d2 > 0 || d3 > 0;
    !(hasNeg && hasPos)
  }

  /** The three edge orientations of `pt` against the triangle, in the source's order. */
  function Orientations(pt: Point, t1: Point, t2: Point, t3: Point): (int, int, int) {
    (Sign(pt, t1, t2), Sign(pt, t2, t3), Sign(pt, t3, t1))
  }

  /** Swapping the first two arguments negates the sign. */
  lemma {:induction false} SignSwap(p1: Point, p2: Point, p3: Point)
    ensures Sign(p2, p1, p3) == -Sign(p1, p2, p3)
  {
  }

  /** Rotating the arguments leaves the sign unchanged (it is a signed area). */
  lemma {:induction false} SignRotate(p1: Point, p2: Point, p3: Point)
    ensures Sign(p2, p3, p1) == Sign(p1, p2, p3)
  {
    assert (p2.x - p1.x) * (p3.y - p1.y) - (p3.x - p1.x) * (p2.y - p1.y)
        == (p1.x - p3.x) * (p2.y - p3.y) - (p2.x - p3.x) * (p1.y - p3.y);
  }

  /** When the third point equals one of the first two, the sign is zero. */
  lemma {:induction false} SignDegenerate(p1: Point, p2: Point, p3: Point)
    requires p1 == p3 || p2 == p3
    ensures Sign(p1, p2, p3) == 0
  {
  }

  /** Inside exactly when all three orientations are non-negative or all are non-positive:
      the point lies on the same closed side of every edge. */
  lemma {:induction false} InsideIffSameSide(pt: Point, t1: Point, t2: Point, t3: Point)
    ensures var (d1, d2, d3) := Orientations(pt, t1, t2, t3);
      PointInTriangle(pt, t1, t2, t3) <==>
        (d1 >= 0 && d2 >= 0 && d3 >= 0) || (d1 <= 0 && d2 <= 0 && d3 <= 0)
  {
  }

  /** Each vertex counts as inside its own triangle: two of its orientations vanish. */
  lemma {:induction false} VertexInside(t1: Point, t2: Point, t3: Point)
    ensures PointInTriangle(t1, t1, t2, t3)
    ensures PointInTriangle(t2, t1, t2, t3)
    ensures PointInTriangle(t3, t1, t2, t3)
  {
    SignDegenerate(t1, t2, t1);
    SignRotate(t3, t1, t1);
    SignDegenerate(t2, t3, t2);
    SignRotate(t1, t2, t2);
    SignDegenerate(t3, t1, t3);
    SignRotate(t2, t3, t3);
  }

  /** The explicit vertex check before `pointInTriangle` in the area loop never changes the verdict. */
  predicate InTriangleChecked(pt: Point, t1: Point, t2: Point, t3: Point) {
    pt == t1 || pt == t2 || pt == t3 || PointInTriangle(pt, t1, t2, t3)
  }

  lemma {:induction false} VertexCheckRedundant(pt: Point, t1: Point, t2: Point, t3: Point)
    ensures InTriangleChecked(pt, t1, t2, t3) == PointInTriangle(pt, t1, t2, t3)
  {
    VertexInside(t1, t2, t3);
  }

  /** A triangle whose three vertices coincide contains every point. */
  lemma {:induction false} DegenerateContainsAll(pt: Point, t: Point)
    ensures PointInTriangle(pt, t, t, t)
  {
    SignDegenerate(pt, t, t);
  }

  /** The verdict does not depend on the order in which the vertices are listed. */
  lemma {:induction false} RotationInvariant(pt: Point, t1: Point, t2: Point, t3: Point)
    ensures PointInTriangle(pt, t2, t3, t1) == PointInTriangle(pt, t1, t2, t3)
  {
  }

  lemma {:induction false} ReflectionInvariant(pt: Point, t1: Point, t2: Point, t3: Point)
    ensures PointInTriangle(pt, t1, t3, t2) == PointInTriangle(pt, t1, t2, t3)
  {
    SignAlternate(pt, t1, t3);
    SignAlternate(pt, t3, t2);
    SignAlternate(pt, t2, t1);
  }

  /** Swapping the last two arguments negates the sign. */
  lemma {:induction false} SignAlternate(p1: Point, p2: Point, p3: Point)
    ensures Sign(p1, p3, p2) == -Sign(p1, p2, p3)
  {
    assert (p1.x - p2.x) * (p3.y - p2.y) - (p3.x - p2.x) * (p1.y - p2.y)
        == -((p1.x - p3.x) * (p2.y - p3.y) - (p2.x - p3.x) * (p1.y - p3.y));
  }

  /** A point well outside the unit triangle is rejected, one on its hypotenuse is accepted. */
  lemma {:induction false} Examples()
    ensures !PointInTriangle(Point(5, 5), Point(0, 0), Point(1, 0), Point(0, 1))
    ensures PointInTriangle(Point(1, 1), Point(0, 0), Point(2, 0), Point(0, 2))
  {
  }
}
