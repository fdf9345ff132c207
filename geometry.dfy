/**
 * Points, vectors and axis-aligned rectangles, with the open-interval
 * intersection test and the per-axis push vectors used to separate the
 * player from a wall. Coordinates are reals; IEEE-754 rounding is not modelled.
 */
module Geometry {

  /** A displacement or velocity. All operations return a new vector. */
  datatype Vector = Vector(X: real, Y: real) {

    function Add(other: Vector): Vector {
      Vector(X + other.X, Y + other.Y)
    }

    function Neg(): Vector {
      Vector(-X, -Y)
    }

    function LengthSquared(): real {
      X * X + Y * Y
    }

    function Multiply(m: real): Vector {
      Vector(X * m, Y * m)
    }
  }

  const Zero := Vector(0.0, 0.0)

  /** An absolute position; `geometry.Point` of the source (point.go is not part of this model). */
  datatype Point = Point(X: real, Y: real) {
    function Add(v: Vector): Point {
      Point(X + v.X, Y + v.Y)
    }
  }

  /** The minimum separation the push vectors ignore: `Length() < 1e-6`, compared squared. */
  const Epsilon: real := 0.000001

  datatype Rectangle = Rectangle(LeftX: real, TopY: real, RightX: real, BottomY: real) {

    /** Every side moved outward by `delta`. */
    function Extended(delta: real): Rectangle {
      Rectangle(LeftX - delta, TopY - delta, RightX + delta, BottomY + delta)
    }

    function AddVector(v: Vector): Rectangle {
      Rectangle(LeftX + v.X, TopY + v.Y, RightX + v.X, BottomY + v.Y)
    }

    /** The offset between the top-left corners. */
    function Sub(other: Rectangle): Vector {
      Vector(LeftX - other.LeftX, TopY - other.TopY)
    }

    /** Open-interval overlap: rectangles sharing only an edge or a corner do not intersect. */
    predicate Intersects(b: Rectangle) {
      RightX > b.LeftX && b.RightX > LeftX && BottomY > b.TopY && b.BottomY > TopY
    }

    /** The horizontal displacement that moves `b` out of this rectangle. */
    function PushVectorX(b: Rectangle): Vector {
      PushVector(b, Vector(RightX - b.LeftX, 0.0), Vector(LeftX - b.RightX, 0.0),
                 Vector(RightX - b.RightX, LeftX - b.LeftX))
    }

    /** The vertical displacement that moves `b` out of this rectangle. */
    function PushVectorY(b: Rectangle): Vector {
      PushVector(b, Vector(0.0, BottomY - b.TopY), Vector(0.0, TopY - b.BottomY),
                 Vector(BottomY - b.BottomY, TopY - b.TopY))
    }

    /**
     * `pushVector` of the source: zero when the rectangles do not intersect or
     * when `check` is shorter than the epsilon; otherwise the shorter of the two
     * candidates, the first one on a tie.
     */
    function PushVector(b: Rectangle, v0: Vector, v1: Vector, check: Vector): Vector {
      if !Intersects(b) || check.LengthSquared() < Epsilon * Epsilon then Zero
      else if v1.LengthSquared() < v0.LengthSquared() then v1
      else v0
    }
  }

  predicate WellFormed(r: Rectangle) {
    r.LeftX <= r.RightX && r.TopY <= r.BottomY
  }

  /** A rectangle with positive area. */
  predicate NonEmpty(r: Rectangle) {
    r.LeftX < r.RightX && r.TopY < r.BottomY
  }

  predicate StrictlyInside(p: Point, r: Rectangle) {
    r.LeftX < p.X < r.RightX && r.TopY < p.Y < r.BottomY
  }

  // ---- Vector algebra -------------------------------------------------------

  lemma AddCommutes(v: Vector, w: Vector)
    ensures v.Add(w) == w.Add(v)
    ensures v.Add(Zero) == v && Zero.Add(v) == v
  {
  }

  lemma NegInvolution(v: Vector)
    ensures v.Neg().Neg() == v
    ensures v.Add(v.Neg()) == Zero
  {
  }

  /** A squared length is never negative, and the zero vector has length zero. */
  lemma LengthSquaredNonNegative(v: Vector)
    ensures v.LengthSquared() >= 0.0
    ensures Zero.LengthSquared() == 0.0
  {
    SquareNonNegative(v.X);
    SquareNonNegative(v.Y);
  }

  lemma SquareNonNegative(x: real)
    ensures x * x >= 0.0
  {
    if x < 0.0 {
      assert x * x == (-x) * (-x);
    }
  }

  lemma MultiplyProperties(v: Vector, m: real)
    ensures v.Multiply(1.0) == v
    ensures v.Multiply(-1.0) == v.Neg()
    ensures v.Multiply(m).LengthSquared() == m * m * v.LengthSquared()
  {
    calc {
      v.Multiply(m).LengthSquared();
      (v.X * m) * (v.X * m) + (v.Y * m) * (v.Y * m);
      { assert (v.X * m) * (v.X * m) == m * m * (v.X * v.X);
        assert (v.Y * m) * (v.Y * m) == m * m * (v.Y * v.Y); }
      m * m * (v.X * v.X) + m * m * (v.Y * v.Y);
      m * m * v.LengthSquared();
    }
  }

  // ---- Rectangles ----------------------------------------------------------

  lemma IntersectsSymmetric(a: Rectangle, b: Rectangle)
    ensures a.Intersects(b) <==> b.Intersects(a)
  {
  }

  /** Sharing an edge (or only a corner) is not an intersection. */
  lemma TouchingIsNotIntersecting(a: Rectangle, b: Rectangle)
    requires a.RightX == b.LeftX || a.LeftX == b.RightX || a.BottomY == b.TopY || a.TopY == b.BottomY
    ensures !a.Intersects(b)
  {
  }

  /** Intersection of rectangles with area means they have a common interior point. */
  lemma IntersectsIffCommonInteriorPoint(a: Rectangle, b: Rectangle)
    requires NonEmpty(a) && NonEmpty(b)
    ensures a.Intersects(b) <==> exists p :: StrictlyInside(p, a) && StrictlyInside(p, b)
  {
    if a.Intersects(b) {
      var l := if a.LeftX < b.LeftX then b.LeftX else a.LeftX;
      var r := if a.RightX < b.RightX then a.RightX else b.RightX;
      var t := if a.TopY < b.TopY then b.TopY else a.TopY;
      var u := if a.BottomY < b.BottomY then a.BottomY else b.BottomY;
      var p := Point((l + r) / 2.0, (t + u) / 2.0);
      assert StrictlyInside(p, a) && StrictlyInside(p, b);
    }
  }

  lemma ExtendedMovesEverySide(a: Rectangle, d: real)
    ensures a.Extended(d).RightX - a.Extended(d).LeftX == (a.RightX - a.LeftX) + 2.0 * d
    ensures a.Extended(d).BottomY - a.Extended(d).TopY == (a.BottomY - a.TopY) + 2.0 * d
    ensures d >= 0.0 && WellFormed(a) ==> WellFormed(a.Extended(d))
  {
  }

  /** Growing a rectangle never loses an intersection. */
  lemma ExtendedKeepsIntersections(a: Rectangle, c: Rectangle, d: real)
    requires d >= 0.0
    requires a.Intersects(c)
    ensures a.Extended(d).Intersects(c)
  {
  }

  lemma AddVectorIsTranslation(a: Rectangle, v: Vector)
    ensures a.AddVector(v).RightX - a.AddVector(v).LeftX == a.RightX - a.LeftX
    ensures a.AddVector(v).BottomY - a.AddVector(v).TopY == a.BottomY - a.TopY
    ensures a.AddVector(v).Sub(a) == v
    ensures a.AddVector(v).AddVector(v.Neg()) == a
  {
  }

  lemma PushVectorZeroCases(a: Rectangle, b: Rectangle)
    ensures !a.Intersects(b) ==> a.PushVectorX(b) == Zero && a.PushVectorY(b) == Zero
    ensures Vector(a.RightX - b.RightX, a.LeftX - b.LeftX).LengthSquared() < Epsilon * Epsilon ==>
              a.PushVectorX(b) == Zero
    ensures Vector(a.BottomY - b.BottomY, a.TopY - b.TopY).LengthSquared() < Epsilon * Epsilon ==>
              a.PushVectorY(b) == Zero
  {
  }

  /** The X push is horizontal and picks the shorter candidate, the first on a tie. */
  lemma PushVectorXChoice(a: Rectangle, b: Rectangle)
    ensures a.PushVectorX(b).Y == 0.0
    ensures a.PushVectorX(b) != Zero ==>
      var right, left := a.RightX - b.LeftX, a.LeftX - b.RightX;
      a.PushVectorX(b).X == (if left * left < right * right then left else right)
  {
  }

  /** The Y push is vertical and picks the shorter candidate, the first on a tie. */
  lemma PushVectorYChoice(a: Rectangle, b: Rectangle)
    ensures a.PushVectorY(b).X == 0.0
    ensures a.PushVectorY(b) != Zero ==>
      var down, up := a.BottomY - b.TopY, a.TopY - b.BottomY;
      a.PushVectorY(b).Y == (if up * up < down * down then up else down)
  {
  }

  /** A non-zero push separates: `b` moved by it no longer intersects `a`. */
  lemma PushVectorSeparates(a: Rectangle, b: Rectangle)
    ensures a.PushVectorX(b) != Zero ==> !a.Intersects(b.AddVector(a.PushVectorX(b)))
    ensures a.PushVectorY(b) != Zero ==> !a.Intersects(b.AddVector(a.PushVectorY(b)))
  {
  }

  /**
   * The push is minimal along its axis: every horizontal displacement strictly
   * between the two candidates leaves `b` intersecting `a`.
   */
  lemma PushVectorXMinimal(a: Rectangle, b: Rectangle, t: real)
    requires a.Intersects(b)
    requires a.LeftX - b.RightX < t < a.RightX - b.LeftX
    ensures a.Intersects(b.AddVector(Vector(t, 0.0)))
  {
  }

  lemma PushVectorYMinimal(a: Rectangle, b: Rectangle, t: real)
    requires a.Intersects(b)
    requires a.TopY - b.BottomY < t < a.BottomY - b.TopY
    ensures a.Intersects(b.AddVector(Vector(0.0, t)))
  {
  }

  /** For intersecting rectangles the two candidates point in opposite directions. */
  lemma PushCandidatesOpposite(a: Rectangle, b: Rectangle)
    requires a.Intersects(b)
    ensures a.RightX - b.LeftX > 0.0 && a.LeftX - b.RightX < 0.0
    ensures a.BottomY - b.TopY > 0.0 && a.TopY - b.BottomY < 0.0
  {
  }
}
