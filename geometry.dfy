/** 2D vectors, the orientation test, segment and polygon intersection, and
    rescaling of object contours for the display density. Coordinates are
    modelled as mathematical reals. */
module Geometry {

  datatype Vector = Vector(x: real, y: real)

  function Add(a: Vector, b: Vector): Vector
  {
    Vector(a.x + b.x, a.y + b.y)
  }

  function Sub(a: Vector, b: Vector): Vector
  {
    Vector(a.x - b.x, a.y - b.y)
  }

  /** `operator*`; `operator*=` assigns the same value in place. */
  function Scale(a: Vector, f: real): Vector
  {
    Vector(a.x * f, a.y * f)
  }

  function Div(a: Vector, f: real): Vector
    requires f != 0.0
  {
    Vector(a.x / f, a.y / f)
  }

  /** Subtraction undoes addition and vice versa. */
  lemma AddSubInverse(a: Vector, b: Vector)
    ensures Sub(Add(a, b), b) == a && Add(Sub(a, b), b) == a
  {
  }

  /** Division by a nonzero factor undoes scaling and vice versa. */
  lemma ScaleDivInverse(a: Vector, f: real)
    requires f != 0.0
    ensures Div(Scale(a, f), f) == a && Scale(Div(a, f), f) == a
  {
  }

  function Abs(v: real): (r: real)
    ensures r >= 0.0 && (r == v || r == -v)
  {
    if v < 0.0 then -v else v
  }

  /** The twice-signed area of the triangle (a, b, c), in the orientation the
      orientation test uses. */
  function Cross(a: Vector, b: Vector, c: Vector): real
  {
    (b.y - a.y) * (c.x - a.x) - (c.y - a.y) * (b.x - a.x)
  }

  /** The orientation test: the slope of AB is greater than the slope of AC. */
  predicate Clockwise(a: Vector, b: Vector, c: Vector)
  {
    (b.y - a.y) * (c.x - a.x) > (c.y - a.y) * (b.x - a.x)
  }

  lemma ClockwiseIsPositiveCross(a: Vector, b: Vector, c: Vector)
    ensures Clockwise(a, b, c) <==> Cross(a, b, c) > 0.0
  {
  }

  /** Rotating the triple leaves the cross product, hence the orientation, unchanged. */
  lemma CrossRotate(a: Vector, b: Vector, c: Vector)
    ensures Cross(a, b, c) == Cross(b, c, a)
  {
    calc {
      Cross(a, b, c);
      (b.y - a.y) * (c.x - a.x) - (c.y - a.y) * (b.x - a.x);
      b.y * c.x - b.y * a.x - a.y * c.x + a.y * a.x - c.y * b.x + c.y * a.x + a.y * b.x - a.y * a.x;
      (c.y - b.y) * (a.x - b.x) - (a.y - b.y) * (c.x - b.x);
      Cross(b, c, a);
    }
  }

  lemma ClockwiseRotate(a: Vector, b: Vector, c: Vector)
    ensures Clockwise(a, b, c) == Clockwise(b, c, a)
  {
    CrossRotate(a, b, c);
  }

  /** Collinear points are never reported as clockwise, in any order. */
  lemma CollinearNotClockwise(a: Vector, b: Vector, c: Vector)
    requires Cross(a, b, c) == 0.0
    ensures !Clockwise(a, b, c) && !Clockwise(b, c, a) && !Clockwise(c, a, b)
  {
    CrossRotate(a, b, c);
    CrossRotate(b, c, a);
  }

  /** Segment AB meets segment CD: each segment's end points lie on opposite
      sides of the other segment's line. */
  predicate SegmentsIntersect(a: Vector, b: Vector, c: Vector, d: Vector)
  {
    Clockwise(a, c, d) != Clockwise(b, c, d) && Clockwise(a, b, c) != Clockwise(a, b, d)
  }

  lemma SegmentsIntersectSymmetric(a: Vector, b: Vector, c: Vector, d: Vector)
    ensures SegmentsIntersect(a, b, c, d) == SegmentsIntersect(c, d, a, b)
  {
    ClockwiseRotate(a, c, d);
    ClockwiseRotate(b, c, d);
    ClockwiseRotate(c, a, b);
    ClockwiseRotate(d, a, b);
  }

  /** A polygon in object-local coordinates (closed implicitly: the last vertex
      joins the first) and the half sides of its outer rectangle. */
  datatype Contour = Contour(vertices: seq<Vector>, halfOfSides: Vector)

  /** Every vertex lies within the outer rectangle. */
  ghost predicate WithinHalfExtents(c: Contour)
  {
    forall i :: 0 <= i < |c.vertices| ==>
      Abs(c.vertices[i].x) <= c.halfOfSides.x && Abs(c.vertices[i].y) <= c.halfOfSides.y
  }

  /** Index of the vertex that follows vertex i, wrapping round to 0. */
  function Next(i: nat, n: nat): (k: nat)
    requires i < n
    ensures k < n && (k == i + 1 || (k == 0 && i == n - 1))
  {
    if i + 1 < n then i + 1 else 0
  }

  /** Edge i of lhs, shifted by -distance into rhs's frame, crosses edge j of rhs. */
  predicate EdgesCross(lhs: Contour, rhs: Contour, distance: Vector, i: nat, j: nat)
    requires i < |lhs.vertices| && j < |rhs.vertices|
  {
    var a := Sub(lhs.vertices[i], distance);
    var b := Sub(lhs.vertices[Next(i, |lhs.vertices|)], distance);
    var c := rhs.vertices[j];
    var d := rhs.vertices[Next(j, |rhs.vertices|)];
    SegmentsIntersect(a, b, c, d)
  }

  /** The outer rectangles are separated on x or on y. */
  predicate SafeDistance(lhs: Contour, rhs: Contour, distance: Vector)
  {
    Abs(distance.x) > lhs.halfOfSides.x + rhs.halfOfSides.x ||
    Abs(distance.y) > lhs.halfOfSides.y + rhs.halfOfSides.y
  }

  /** Polygon collision of two contours placed at the given centers: the
      broad-phase rectangle test passes and some pair of edges cross. */
  predicate Intersects(lhs: Contour, rhs: Contour, lhsCenter: Vector, rhsCenter: Vector)
  {
    var distance := Sub(rhsCenter, lhsCenter);
    !SafeDistance(lhs, rhs, distance) &&
    exists i, j :: 0 <= i < |lhs.vertices| && 0 <= j < |rhs.vertices| &&
      EdgesCross(lhs, rhs, distance, i, j)
  }

  /** The collision search: rectangle rejection, then every edge pair in order,
      stopping at the first pair that crosses. */
  method ContourIntersect(lhs: Contour, rhs: Contour, lhsCenter: Vector, rhsCenter: Vector)
    returns (hit: bool)
    ensures hit == Intersects(lhs, rhs, lhsCenter, rhsCenter)
  {
    var distance := Sub(rhsCenter, lhsCenter);
    if Abs(distance.x) > lhs.halfOfSides.x + rhs.halfOfSides.x {
      return false;
    }
    if Abs(distance.y) > lhs.halfOfSides.y + rhs.halfOfSides.y {
      return false;
    }
    var i := 0;
    while i < |lhs.vertices|
      invariant 0 <= i <= |lhs.vertices|
      invariant forall i', j' :: 0 <= i' < i && 0 <= j' < |rhs.vertices| ==>
        !EdgesCross(lhs, rhs, distance, i', j')
    {
      var j := 0;
      while j < |rhs.vertices|
        invariant 0 <= j <= |rhs.vertices|
        invariant forall j' :: 0 <= j' < j ==> !EdgesCross(lhs, rhs, distance, i, j')
      {
        if EdgesCross(lhs, rhs, distance, i, j) {
          return true;
        }
        j := j + 1;
      }
      i := i + 1;
    }
    return false;
  }

  /** Broad-phase soundness: separated outer rectangles never collide. */
  lemma SeparatedBoxesDoNotIntersect(lhs: Contour, rhs: Contour, lhsCenter: Vector, rhsCenter: Vector)
    requires Abs(rhsCenter.x - lhsCenter.x) > lhs.halfOfSides.x + rhs.halfOfSides.x ||
             Abs(rhsCenter.y - lhsCenter.y) > lhs.halfOfSides.y + rhs.halfOfSides.y
    ensures !Intersects(lhs, rhs, lhsCenter, rhsCenter)
  {
  }

  /** The result depends on the centers only through their difference. */
  lemma IntersectsTranslationInvariant(lhs: Contour, rhs: Contour, lhsCenter: Vector, rhsCenter: Vector, t: Vector)
    ensures Intersects(lhs, rhs, Add(lhsCenter, t), Add(rhsCenter, t)) == Intersects(lhs, rhs, lhsCenter, rhsCenter)
  {
    assert Sub(Add(rhsCenter, t), Add(lhsCenter, t)) == Sub(rhsCenter, lhsCenter);
  }

  /** The contour after `update_for_dpi(f)`: every vertex and the half sides
      multiplied by f, vertex count and order kept. */
  function ScaleContour(c: Contour, f: real): (r: Contour)
  {
    Contour(ScaleAll(c.vertices, f), Scale(c.halfOfSides, f))
  }

  function ScaleAll(vs: seq<Vector>, f: real): (r: seq<Vector>)
  {
    seq(|vs|, k requires 0 <= k < |vs| => Scale(vs[k], f))
  }

  lemma ScaleContourShape(c: Contour, f: real)
    ensures |ScaleContour(c, f).vertices| == |c.vertices|
    ensures forall k :: 0 <= k < |c.vertices| ==> ScaleContour(c, f).vertices[k] == Scale(c.vertices[k], f)
    ensures ScaleContour(c, f).halfOfSides == Vector(c.halfOfSides.x * f, c.halfOfSides.y * f)
  {
  }

  lemma AbsScale(v: real, f: real)
    requires f >= 0.0
    ensures Abs(v * f) == Abs(v) * f
  {
  }

  lemma MulMonotone(u: real, v: real, f: real)
    requires u <= v && f >= 0.0
    ensures u * f <= v * f
  {
  }

  /** A nonnegative rescale keeps the half sides a bounding rectangle. */
  lemma ScaleKeepsHalfExtents(c: Contour, f: real)
    requires f >= 0.0
    requires WithinHalfExtents(c)
    ensures WithinHalfExtents(ScaleContour(c, f))
  {
    var s := ScaleContour(c, f);
    forall i | 0 <= i < |s.vertices|
      ensures Abs(s.vertices[i].x) <= s.halfOfSides.x && Abs(s.vertices[i].y) <= s.halfOfSides.y
    {
      AbsScale(c.vertices[i].x, f);
      AbsScale(c.vertices[i].y, f);
      MulMonotone(Abs(c.vertices[i].x), c.halfOfSides.x, f);
      MulMonotone(Abs(c.vertices[i].y), c.halfOfSides.y, f);
    }
  }

  lemma MulPair(f: real, u: real, v: real)
    ensures (f * u) * (f * v) == f * (f * (u * v))
  {
  }

  lemma CrossScale(a: Vector, b: Vector, c: Vector, f: real)
    ensures Cross(Scale(a, f), Scale(b, f), Scale(c, f)) == f * (f * Cross(a, b, c))
  {
    assert b.y * f - a.y * f == f * (b.y - a.y);
    assert c.x * f - a.x * f == f * (c.x - a.x);
    assert c.y * f - a.y * f == f * (c.y - a.y);
    assert b.x * f - a.x * f == f * (b.x - a.x);
    MulPair(f, b.y - a.y, c.x - a.x);
    MulPair(f, c.y - a.y, b.x - a.x);
  }

  lemma ProductSign(k: real, x: real)
    requires k > 0.0
    ensures x > 0.0 ==> k * x > 0.0
    ensures x <= 0.0 ==> k * x <= 0.0
  {
  }

  lemma PositiveSquareFactor(f: real, x: real, y: real)
    requires f > 0.0 && y == f * (f * x)
    ensures y > 0.0 <==> x > 0.0
  {
    ProductSign(f, x);
    ProductSign(f, f * x);
  }

  /** A positive uniform rescale does not change the orientation of a triple. */
  lemma ClockwiseScaleInvariant(a: Vector, b: Vector, c: Vector, f: real)
    requires f > 0.0
    ensures Clockwise(Scale(a, f), Scale(b, f), Scale(c, f)) == Clockwise(a, b, c)
  {
    var x, y := Cross(a, b, c), Cross(Scale(a, f), Scale(b, f), Scale(c, f));
    CrossScale(a, b, c, f);
    ClockwiseIsPositiveCross(a, b, c);
    ClockwiseIsPositiveCross(Scale(a, f), Scale(b, f), Scale(c, f));
    PositiveSquareFactor(f, x, y);
  }

  /** The vertex storage of a sprite's contour, rescaled in place once the
      display density is known. */
  class ObjectContour {
    var vertices: seq<Vector>
    var halfOfSides: Vector

    constructor (c: Contour)
      ensures Shape() == c
    {
      vertices := c.vertices;
      halfOfSides := c.halfOfSides;
    }

    function Shape(): Contour
      reads this
    {
      Contour(vertices, halfOfSides)
    }

    /** Multiplies every vertex, then the half sides, by the scale factor. */
    method UpdateForDpi(scaleFactor: real)
      modifies this
      ensures Shape() == ScaleContour(old(Shape()), scaleFactor)
    {
      var i := 0;
      while i < |vertices|
        invariant 0 <= i <= |vertices| == |old(vertices)|
        invariant vertices[..i] == ScaleAll(old(vertices), scaleFactor)[..i]
        invariant vertices[i..] == old(vertices)[i..]
        invariant halfOfSides == old(halfOfSides)
      {
        vertices := vertices[i := Scale(vertices[i], scaleFactor)];
        i := i + 1;
      }
      halfOfSides := Scale(halfOfSides, scaleFactor);
      assert vertices == vertices[..i];
    }
  }

  // Fixtures: two squares with vertices (+-10, +-10) and half sides (10, 10).

  function Square(): Contour
  {
    Contour([Vector(-10.0, -10.0), Vector(10.0, -10.0), Vector(10.0, 10.0), Vector(-10.0, 10.0)],
            Vector(10.0, 10.0))
  }

  /** Offset by (5, 5) the squares' edges cross properly, so they collide. */
  lemma DiagonalOffsetSquaresIntersect()
    ensures Intersects(Square(), Square(), Vector(0.0, 0.0), Vector(5.0, 5.0))
  {
    var d := Sub(Vector(5.0, 5.0), Vector(0.0, 0.0));
    assert EdgesCross(Square(), Square(), d, 1, 0);
  }

  /** Offset by 25 on x the rectangles are already separated. */
  lemma DistantSquaresDoNotIntersect()
    ensures !Intersects(Square(), Square(), Vector(0.0, 0.0), Vector(25.0, 0.0))
  {
  }

  /** Edge pair (i, j) of the two squares offset by (5, 0): the shifted edge
      of the left square never properly crosses an edge of the right one. */
  lemma HorizontalOffsetEdgePair(i: nat, j: nat)
    requires i < 4 && j < 4
    ensures !EdgesCross(Square(), Square(), Vector(5.0, 0.0), i, j)
  {
    var v := [Vector(-15.0, -10.0), Vector(5.0, -10.0), Vector(5.0, 10.0), Vector(-15.0, 10.0)];
    var w := Square().vertices;
    assert forall k :: 0 <= k < 4 ==> Sub(w[k], Vector(5.0, 0.0)) == v[k];
    var a, b, c, d := v[i], v[Next(i, 4)], w[j], w[Next(j, 4)];
    if i == 0 {
      assert a == Vector(-15.0, -10.0) && b == Vector(5.0, -10.0);
    } else if i == 1 {
      assert a == Vector(5.0, -10.0) && b == Vector(5.0, 10.0);
    } else if i == 2 {
      assert a == Vector(5.0, 10.0) && b == Vector(-15.0, 10.0);
    } else {
      assert a == Vector(-15.0, 10.0) && b == Vector(-15.0, -10.0);
    }
    EdgeMissesSquare(a, b, j);
  }

  /** One edge of the left square shifted by (5, 0), walked in contour order,
      meets edge j of the right square only at end points or along a line. */
  lemma EdgeMissesSquare(a: Vector, b: Vector, j: nat)
    requires j < 4
    requires (a == Vector(-15.0, -10.0) && b == Vector(5.0, -10.0)) ||
             (a == Vector(5.0, -10.0) && b == Vector(5.0, 10.0)) ||
             (a == Vector(5.0, 10.0) && b == Vector(-15.0, 10.0)) ||
             (a == Vector(-15.0, 10.0) && b == Vector(-15.0, -10.0))
    ensures !SegmentsIntersect(a, b, Square().vertices[j], Square().vertices[Next(j, 4)])
  {
    var w := Square().vertices;
    if j == 0 {
      assert w[0] == Vector(-10.0, -10.0) && w[1] == Vector(10.0, -10.0);
    } else if j == 1 {
      assert w[1] == Vector(10.0, -10.0) && w[2] == Vector(10.0, 10.0);
    } else if j == 2 {
      assert w[2] == Vector(10.0, 10.0) && w[3] == Vector(-10.0, 10.0);
    } else {
      assert w[3] == Vector(-10.0, 10.0) && w[0] == Vector(-10.0, -10.0);
    }
  }

  /** Offset only on x, the squares meet in collinear edges and at end points
      only; the strict orientation test reports no crossing. */
  lemma HorizontalOffsetSquaresDoNotIntersect()
    ensures !Intersects(Square(), Square(), Vector(0.0, 0.0), Vector(5.0, 0.0))
  {
    var d := Sub(Vector(5.0, 0.0), Vector(0.0, 0.0));
    assert d == Vector(5.0, 0.0);
    forall i, j | 0 <= i < 4 && 0 <= j < 4
      ensures !EdgesCross(Square(), Square(), d, i, j)
    {
      HorizontalOffsetEdgePair(i, j);
    }
  }
}
