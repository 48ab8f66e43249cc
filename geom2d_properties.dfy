/** Properties of the plane geometry model that relate several operations:
    round trips, perpendicularity, uniqueness of projections and intersections,
    the tolerance rule of the intersection, and worked examples: crossing axes,
    nearly parallel lines, a degenerate line, the points (0, 0) and (3, 4). */
module Geom2DProperties {
  import opened Wrappers
  import opened Geom2D

  // ---------------------------------------------------------------------
  // Vector2D

  /** Two quarter turns negate a vector. */
  lemma PerpToTwiceNegates(v: Vector2D)
    ensures v.PerpTo().PerpTo() == Vector2D(-v.x, -v.y)
  {
  }

  /** The dot product is symmetric, linear in its first argument, and
      positive definite: v . v is never negative and is zero only for the
      zero vector. */
  lemma DotIsInnerProduct(u: Vector2D, v: Vector2D, w: Vector2D, s: real)
    ensures u.Dot(v) == v.Dot(u)
    ensures u.Add(v).Dot(w) == u.Dot(w) + v.Dot(w)
    ensures u.Scale(s).Dot(w) == s * u.Dot(w)
    ensures 0.0 <= v.Dot(v)
    ensures v.Dot(v) == 0.0 <==> v == Vector2D(0.0, 0.0)
  {
    SumOfSquaresNonNegative(v.x, v.y);
    if v.Dot(v) == 0.0 {
      SumOfSquaresZero(v.x, v.y);
    }
  }

  /** Subtraction undoes addition and the other way round. */
  lemma AddSubInverse(u: Vector2D, v: Vector2D)
    ensures u.Add(v).Sub(v) == u
    ensures u.Sub(v).Add(v) == u
  {
  }

  /** `scalar * v` and `v * scalar` are the same vector, the scalar times each coordinate. */
  lemma ScaleBothOrders(v: Vector2D, s: real)
    ensures v.ScaleLeft(s) == v.Scale(s)
    ensures v.ScaleLeft(s) == Vector2D(s * v.x, s * v.y)
  {
  }

  /** Converting a point to a vector and back, or a vector to a point and back,
      changes nothing. */
  lemma VectorPointRoundTrip(p: Point2D, v: Vector2D)
    ensures p.Vector().Point() == p
    ensures v.Point().Vector() == v
  {
  }

  /** The unit vector has length exactly one. */
  lemma UnitHasLengthOne(v: Vector2D, sqrt: real -> real)
    requires IsSqrt(sqrt)
    requires v.Unit(sqrt).Some?
    ensures v.Unit(sqrt).value.Length(sqrt) == 1.0
  {
    var u := v.Unit(sqrt).value;
    SqrtIsRoot(sqrt, u.x * u.x + u.y * u.y, 1.0);
  }

  /** Normalising a unit vector gives it back unchanged. */
  lemma UnitIsIdempotent(v: Vector2D, sqrt: real -> real)
    requires IsSqrt(sqrt)
    requires v.Unit(sqrt).Some?
    ensures v.Unit(sqrt).value.Unit(sqrt) == v.Unit(sqrt)
  {
    var u := v.Unit(sqrt).value;
    UnitHasLengthOne(v, sqrt);
    assert u.Unit(sqrt).value.Scale(1.0) == u;
  }

  // ---------------------------------------------------------------------
  // Point2D

  /** `distanceTo` as written never looks at the y-coordinates: points that
      share their x-coordinate are at distance zero, whatever their y. */
  lemma DistanceToIgnoresY(p: Point2D, q: Point2D, sqrt: real -> real)
    requires IsSqrt(sqrt)
    ensures p.DistanceTo(q, sqrt) == Point2D(p.x, 0.0).DistanceTo(Point2D(q.x, 0.0), sqrt)
    ensures p.x == q.x ==> p.DistanceTo(q, sqrt) == 0.0
  {
    SquareRootsAgree(p.DistanceTo(q, sqrt), Point2D(p.x, 0.0).DistanceTo(Point2D(q.x, 0.0), sqrt));
    if p.x == q.x {
      SquareRootsAgree(p.DistanceTo(q, sqrt), 0.0);
    }
  }

  /** The points (0, 0) and (3, 4): `distanceTo` as written does not give 5,
      the corrected `Distance` does. */
  lemma DistanceToCounterexample(sqrt: real -> real)
    requires IsSqrt(sqrt)
    ensures Point2D(0.0, 0.0).DistanceTo(Point2D(3.0, 4.0), sqrt) != 5.0
    ensures Point2D(0.0, 0.0).Distance(Point2D(3.0, 4.0), sqrt) == 5.0
  {
    var r := Point2D(0.0, 0.0).DistanceTo(Point2D(3.0, 4.0), sqrt);
    assert r * r == 18.0;
    SqrtIsRoot(sqrt, 25.0, 5.0);
  }

  /** The corrected distance is symmetric. */
  lemma DistanceSymmetric(p: Point2D, q: Point2D, sqrt: real -> real)
    requires IsSqrt(sqrt)
    ensures p.Distance(q, sqrt) == q.Distance(p, sqrt)
  {
    SquareRootsAgree(p.Distance(q, sqrt), q.Distance(p, sqrt));
  }

  /** A vector of the line's direction that is also perpendicular to it is zero. */
  lemma ParallelAndPerpendicularIsZero(e: Vector2D, d: Vector2D)
    requires d != Vector2D(0.0, 0.0)
    requires e.Cross(d) == 0.0 && e.Dot(d) == 0.0
    ensures e == Vector2D(0.0, 0.0)
  {
    var n := d.Dot(d);
    assert 0.0 < n by {
      if n == 0.0 {
        SumOfSquaresZero(d.x, d.y);
      }
      SumOfSquaresNonNegative(d.x, d.y);
    }
    assert e.x * n == d.x * e.Dot(d) + d.y * e.Cross(d);
    assert e.y * n == d.y * e.Dot(d) - d.x * e.Cross(d);
    if e.x != 0.0 {
      MulNonZero(e.x, n);
    }
    if e.y != 0.0 {
      MulNonZero(e.y, n);
    }
  }

  /** The projection is the one point of the line whose offset from p is
      perpendicular to the line. */
  lemma ProjectionIsUnique(p: Point2D, l: Line2D, sqrt: real -> real, q: Point2D)
    requires IsSqrt(sqrt)
    requires p.ProjectionOn(l, sqrt).Ok?
    ensures l.Contains(q) && p.Vector().Sub(q.Vector()).Dot(l.Delta()) == 0.0
        <==> q == p.ProjectionOn(l, sqrt).value
  {
    var r := p.ProjectionOn(l, sqrt).value;
    var d := l.Delta();
    if l.Contains(q) && p.Vector().Sub(q.Vector()).Dot(d) == 0.0 {
      var e := r.Vector().Sub(q.Vector());
      assert e.Cross(d) == r.Vector().Sub(l.p0.Vector()).Cross(d) - q.Vector().Sub(l.p0.Vector()).Cross(d);
      assert e.Dot(d) == p.Vector().Sub(q.Vector()).Dot(d) - p.Vector().Sub(r.Vector()).Dot(d);
      assert d != Vector2D(0.0, 0.0) by {
        assert l.p0 != l.p1;
      }
      ParallelAndPerpendicularIsZero(e, d);
    }
  }

  /** Projecting a projection changes nothing. */
  lemma ProjectionIsIdempotent(p: Point2D, l: Line2D, sqrt: real -> real)
    requires IsSqrt(sqrt)
    requires p.ProjectionOn(l, sqrt).Ok?
    ensures p.ProjectionOn(l, sqrt).value.ProjectionOn(l, sqrt) == p.ProjectionOn(l, sqrt)
  {
    var r := p.ProjectionOn(l, sqrt).value;
    var rr := r.ProjectionOn(l, sqrt).value;
    assert r.Vector().Sub(r.Vector()).Dot(l.Delta()) == 0.0;
    ProjectionIsUnique(r, l, sqrt, r);
  }

  // ---------------------------------------------------------------------
  // Line2D

  /** `point(t)` moves along the line at a constant rate: the step between the
      points at s and at t is (s - t) times the end-to-end vector. */
  lemma PointIsAffine(l: Line2D, s: real, t: real)
    ensures l.Point(s).Vector().Sub(l.Point(t).Vector()) == l.Delta().Scale(s - t)
  {
  }

  /** On a line with distinct end points, different parameters give different points. */
  lemma PointIsInjective(l: Line2D, s: real, t: real)
    requires l.p0 != l.p1
    requires l.Point(s) == l.Point(t)
    ensures s == t
  {
    PointIsAffine(l, s, t);
  }

  /** A present parameter is the only one at which its line meets the other:
      t1 is the one s with `other.Contains(self.point(s))`, and t2 likewise. */
  lemma IntersectionParametersAreUnique(l1: Line2D, l2: Line2D, sqrt: real -> real, s: real)
    requires IsSqrt(sqrt)
    requires l1.IntersectionParameters(l2, sqrt).Ok?
    ensures
      var ps := l1.IntersectionParameters(l2, sqrt).value;
      ps.t1.Some? ==> (l2.Contains(l1.Point(s)) <==> s == ps.t1.value)
    ensures
      var ps := l1.IntersectionParameters(l2, sqrt).value;
      ps.t2.Some? ==> (l1.Contains(l2.Point(s)) <==> s == ps.t2.value)
  {
    var ps := l1.IntersectionParameters(l2, sqrt).value;
    if ps.t1.Some? && l2.Contains(l1.Point(s)) {
      CommonPointIsUnique(l1, l2, l1.Point(s), l1.Point(ps.t1.value));
      PointIsInjective(l1, s, ps.t1.value);
    }
    if ps.t2.Some? && l1.Contains(l2.Point(s)) {
      CommonPointIsUnique(l1, l2, l2.Point(s), l2.Point(ps.t2.value));
      PointIsInjective(l2, s, ps.t2.value);
    }
  }

  /** When exactly one parameter is absent, it belongs to the shorter line: the
      denominator for t1 is the cross product divided by the other line's
      length, so t1 is absent while t2 is present only if this line is the
      shorter one, and the other way round. */
  lemma AbsentParameterBelongsToShorterLine(l1: Line2D, l2: Line2D, sqrt: real -> real)
    requires IsSqrt(sqrt)
    requires l1.IntersectionParameters(l2, sqrt).Ok?
    ensures
      var ps := l1.IntersectionParameters(l2, sqrt).value;
      ps.t1.None? && ps.t2.Some? ==> l1.Length(sqrt) < l2.Length(sqrt)
    ensures
      var ps := l1.IntersectionParameters(l2, sqrt).value;
      ps.t2.None? && ps.t1.Some? ==> l2.Length(sqrt) < l1.Length(sqrt)
  {
  }

  /** Two lines that are not parallel share at most one point. */
  lemma CommonPointIsUnique(l1: Line2D, l2: Line2D, p: Point2D, q: Point2D)
    requires l1.Delta().Cross(l2.Delta()) != 0.0
    requires l1.Contains(p) && l2.Contains(p)
    requires l1.Contains(q) && l2.Contains(q)
    ensures p == q
  {
  }

  /** When both parameters are present they name the same point:
      self.point(t1) == other.point(t2). */
  lemma ParametersMeet(l1: Line2D, l2: Line2D, sqrt: real -> real)
    requires IsSqrt(sqrt)
    requires l1.IntersectionParameters(l2, sqrt).Ok?
    requires l1.IntersectionParameters(l2, sqrt).value.t1.Some?
    requires l1.IntersectionParameters(l2, sqrt).value.t2.Some?
    ensures
      var ps := l1.IntersectionParameters(l2, sqrt).value;
      l1.Point(ps.t1.value) == l2.Point(ps.t2.value)
  {
    var ps := l1.IntersectionParameters(l2, sqrt).value;
    CommonPointIsUnique(l1, l2, l1.Point(ps.t1.value), l2.Point(ps.t2.value));
  }

  /** The intersection point is decided by the first parameter alone: absent
      means `ParallelLines`, present means the first line's point there. */
  lemma IntersectionPointFollowsFirstParameter(l1: Line2D, l2: Line2D, sqrt: real -> real)
    requires IsSqrt(sqrt)
    requires l1.IntersectionParameters(l2, sqrt).Ok?
    ensures
      var t1 := l1.IntersectionParameters(l2, sqrt).value.t1;
      l1.IntersectionPoint(l2, sqrt) == if t1.None? then Err(ParallelLines) else Ok(l1.Point(t1.value))
  {
    var t1 := l1.IntersectionParameters(l2, sqrt).value.t1;
    if t1.Some? {
      CommonPointIsUnique(l1, l2, l1.IntersectionPoint(l2, sqrt).value, l1.Point(t1.value));
    }
  }

  /** The intersection point is the only point the two lines share. */
  lemma IntersectionPointIsUniqueCommonPoint(l1: Line2D, l2: Line2D, sqrt: real -> real, q: Point2D)
    requires IsSqrt(sqrt)
    requires l1.IntersectionPoint(l2, sqrt).Ok?
    ensures l1.Contains(q) && l2.Contains(q) <==> q == l1.IntersectionPoint(l2, sqrt).value
  {
    var p := l1.IntersectionPoint(l2, sqrt).value;
    if l1.Contains(q) && l2.Contains(q) {
      CommonPointIsUnique(l1, l2, p, q);
    }
  }

  /** Exactly parallel lines (zero cross product of their directions) get
      neither parameter, and no intersection point. */
  lemma ParallelLinesHaveNoParameters(l1: Line2D, l2: Line2D, sqrt: real -> real)
    requires IsSqrt(sqrt)
    requires l1.p0 != l1.p1 && l2.p0 != l2.p1
    requires l1.Delta().Cross(l2.Delta()) == 0.0
    ensures l1.IntersectionParameters(l2, sqrt) == Ok(Parameters(None, None))
    ensures l1.IntersectionPoint(l2, sqrt) == Err(ParallelLines)
  {
    assert 0.0 < l1.Length(sqrt) && 0.0 < l2.Length(sqrt);
  }

  /** A line's length is the one non-negative number whose square is its
      direction vector's squared length. */
  lemma LengthIsRootOfDelta(l: Line2D, sqrt: real -> real, len: real)
    requires IsSqrt(sqrt)
    requires 0.0 <= len && len * len == l.Delta().Dot(l.Delta())
    ensures l.Length(sqrt) == len
  {
    SquareRootsAgree(l.Length(sqrt), len);
  }

  // The two families of examples below are stated for symbolic coordinates,
  // and each is assembled from small steps that look at one fact at a time.

  /** Direction vectors of the line through (0, 0) and (a, 0) and the line
      through (0, 0) and (k, 1). */
  lemma SlantDeltas(l1: Line2D, l2: Line2D, a: real, k: real)
    requires l1 == Line2D(Point2D(0.0, 0.0), Point2D(a, 0.0))
    requires l2 == Line2D(Point2D(0.0, 0.0), Point2D(k, 1.0))
    ensures l1.Delta() == Vector2D(a, 0.0) && l2.Delta() == Vector2D(k, 1.0)
    ensures l1.Delta().Dot(l1.Delta()) == a * a && l2.Delta().Dot(l2.Delta()) == k * k + 1.0
    ensures l1.Delta().Cross(l2.Delta()) == a
    ensures l1.Contains(Point2D(0.0, 0.0)) && l2.Contains(Point2D(0.0, 0.0))
  {
  }

  /** A segment of squared length k * k + 1, with k at least 10^12, is longer than 10^12. */
  lemma SlantIsLong(len: real, k: real)
    requires 1e12 <= k && 0.0 <= len && len * len == k * k + 1.0
    ensures 1e12 < len
  {
    if len <= 1e12 {
      calc {
        1e24;
      <= { MulMonotone(1e12, 1e12, k); MulMonotone(k, 1e12, k); }
        k * k;
      <
        len * len;
      <= { MulMonotone(len, len, 1e12); }
        len * 1e12;
      <= { MulMonotone(1e12, len, 1e12); }
        1e24;
      }
    }
  }

  /** The only parameter at which the slanted line meets the horizontal one is 0. */
  lemma SlantMeetsAtZero(l1: Line2D, l2: Line2D, a: real, k: real, t: real)
    requires 0.0 < a
    requires l1 == Line2D(Point2D(0.0, 0.0), Point2D(a, 0.0))
    requires l2 == Line2D(Point2D(0.0, 0.0), Point2D(k, 1.0))
    requires l1.Contains(l2.Point(t))
    ensures t == 0.0
  {
    var p := l2.Point(t);
    assert p == Point2D(t * k, t);
    assert p.Vector().Sub(l1.p0.Vector()).Cross(l1.Delta()) == -(t * a);
    if t != 0.0 {
      MulNonZero(t, a);
    }
  }

  /** The tolerance rule on the slanted pair: t1 is absent, t2 is present. */
  lemma SlantParametersPresence(l1: Line2D, l2: Line2D, a: real, sqrt: real -> real)
    requires IsSqrt(sqrt)
    requires 0.0 < a <= 1.0
    requires l1.p0 != l1.p1 && l2.p0 != l2.p1
    requires l1.Delta().Cross(l2.Delta()) == a
    requires l1.Length(sqrt) == a && 1e12 < l2.Length(sqrt)
    ensures l1.IntersectionParameters(l2, sqrt).Ok?
    ensures l1.IntersectionParameters(l2, sqrt).value.t1.None?
    ensures l1.IntersectionParameters(l2, sqrt).value.t2.Some?
  {
  }

  /** The two parameters are decided independently. The line through (0, 0)
      and (a, 0), with 0 < a <= 1, and the line through (0, 0) and (k, 1), with
      k at least 10^12, both pass through the origin and are not parallel, yet
      t1 is absent (so there is no intersection point) while t2 is present. */
  lemma OneParameterMayBeAbsent(l1: Line2D, l2: Line2D, a: real, k: real, sqrt: real -> real)
    requires IsSqrt(sqrt)
    requires 0.0 < a <= 1.0 && 1e12 <= k
    requires l1 == Line2D(Point2D(0.0, 0.0), Point2D(a, 0.0))
    requires l2 == Line2D(Point2D(0.0, 0.0), Point2D(k, 1.0))
    ensures l1.Contains(Point2D(0.0, 0.0)) && l2.Contains(Point2D(0.0, 0.0))
    ensures l1.Delta().Cross(l2.Delta()) != 0.0
    ensures l1.IntersectionParameters(l2, sqrt) == Ok(Parameters(None, Some(0.0)))
    ensures l1.IntersectionPoint(l2, sqrt) == Err(ParallelLines)
  {
    SlantDeltas(l1, l2, a, k);
    LengthIsRootOfDelta(l1, sqrt, a);
    SlantIsLong(l2.Length(sqrt), k);
    SlantParametersPresence(l1, l2, a, sqrt);
    var ps := l1.IntersectionParameters(l2, sqrt).value;
    SlantMeetsAtZero(l1, l2, a, k, ps.t2.value);
    IntersectionPointFollowsFirstParameter(l1, l2, sqrt);
  }

  /** Direction vectors of the line through (0, 0) and (a, 0) and the line
      through (0, -b) and (0, b). */
  lemma AxesDeltas(l1: Line2D, l2: Line2D, a: real, b: real)
    requires l1 == Line2D(Point2D(0.0, 0.0), Point2D(a, 0.0))
    requires l2 == Line2D(Point2D(0.0, -b), Point2D(0.0, b))
    ensures l1.Delta() == Vector2D(a, 0.0) && l2.Delta() == Vector2D(0.0, 2.0 * b)
    ensures l1.Delta().Dot(l1.Delta()) == a * a
    ensures l2.Delta().Dot(l2.Delta()) == (2.0 * b) * (2.0 * b)
    ensures l1.Delta().Cross(l2.Delta()) == a * (2.0 * b)
  {
  }

  /** The only parameter at which the horizontal axis segment meets the
      vertical one is 0. */
  lemma AxesFirstParameter(l1: Line2D, l2: Line2D, a: real, b: real, t: real)
    requires 0.0 < a && 0.0 < b
    requires l1 == Line2D(Point2D(0.0, 0.0), Point2D(a, 0.0))
    requires l2 == Line2D(Point2D(0.0, -b), Point2D(0.0, b))
    requires l2.Contains(l1.Point(t))
    ensures t == 0.0
  {
    var p := l1.Point(t);
    assert p == Point2D(t * a, 0.0);
    assert p.Vector().Sub(l2.p0.Vector()).Cross(l2.Delta()) == (t * a) * (2.0 * b);
    if t != 0.0 {
      MulNonZero(t, a);
      MulNonZero(t * a, 2.0 * b);
    }
  }

  /** The only parameter at which the vertical axis segment meets the
      horizontal one is 1/2, its midpoint. */
  lemma AxesSecondParameter(l1: Line2D, l2: Line2D, a: real, b: real, t: real)
    requires 0.0 < a && 0.0 < b
    requires l1 == Line2D(Point2D(0.0, 0.0), Point2D(a, 0.0))
    requires l2 == Line2D(Point2D(0.0, -b), Point2D(0.0, b))
    requires l1.Contains(l2.Point(t))
    ensures t == 0.5
  {
    var p := l2.Point(t);
    assert p == Point2D(0.0, -b + t * (2.0 * b));
    assert p.Vector().Sub(l1.p0.Vector()).Cross(l1.Delta()) == -((-b + t * (2.0 * b)) * a);
    if -b + t * (2.0 * b) != 0.0 {
      MulNonZero(-b + t * (2.0 * b), a);
    }
    assert b * (2.0 * t - 1.0) == 0.0;
    if 2.0 * t - 1.0 != 0.0 {
      MulNonZero(b, 2.0 * t - 1.0);
    }
  }

  /** The tolerance rule on the axis pair: both parameters are present. */
  lemma AxesParametersPresent(l1: Line2D, l2: Line2D, a: real, b: real, sqrt: real -> real)
    requires IsSqrt(sqrt)
    requires Tolerance <= a && Tolerance <= b
    requires l1.p0 != l1.p1 && l2.p0 != l2.p1
    requires l1.Delta().Cross(l2.Delta()) == a * (2.0 * b)
    requires l1.Length(sqrt) == a && l2.Length(sqrt) == 2.0 * b
    ensures l1.IntersectionParameters(l2, sqrt).Ok?
    ensures l1.IntersectionParameters(l2, sqrt).value.t1.Some?
    ensures l1.IntersectionParameters(l2, sqrt).value.t2.Some?
  {
    AxesAboveTolerance(a, b);
  }

  /** With a and b no smaller than the tolerance, the cross product a * 2b is
      not below the tolerance times either length. */
  lemma AxesAboveTolerance(a: real, b: real)
    requires Tolerance <= a && Tolerance <= b
    ensures !(Abs(a * (2.0 * b)) < Tolerance * (2.0 * b))
    ensures !(Abs(a * (2.0 * b)) < Tolerance * a)
  {
  }

  /** The segment from (0, 0) to (a, 0) and the segment from (0, -b) to (0, b),
      for a and b no smaller than the tolerance, meet at the origin: at the
      start of the first and the midpoint of the second. */
  lemma CrossingAxesMeetAtOrigin(l1: Line2D, l2: Line2D, a: real, b: real, sqrt: real -> real)
    requires IsSqrt(sqrt)
    requires Tolerance <= a && Tolerance <= b
    requires l1 == Line2D(Point2D(0.0, 0.0), Point2D(a, 0.0))
    requires l2 == Line2D(Point2D(0.0, -b), Point2D(0.0, b))
    ensures l1.IntersectionParameters(l2, sqrt) == Ok(Parameters(Some(0.0), Some(0.5)))
    ensures l1.IntersectionPoint(l2, sqrt) == Ok(Point2D(0.0, 0.0))
  {
    AxesDeltas(l1, l2, a, b);
    LengthIsRootOfDelta(l1, sqrt, a);
    LengthIsRootOfDelta(l2, sqrt, 2.0 * b);
    AxesParametersPresent(l1, l2, a, b, sqrt);
    var ps := l1.IntersectionParameters(l2, sqrt).value;
    AxesFirstParameter(l1, l2, a, b, ps.t1.value);
    AxesSecondParameter(l1, l2, a, b, ps.t2.value);
    IntersectionPointFollowsFirstParameter(l1, l2, sqrt);
  }

  /** A line whose endpoints coincide has no direction, and projection onto it
      and intersection with it fail with `DegenerateDirection`. */
  lemma DegenerateLineFails(p: Point2D, q: Point2D, other: Line2D, sqrt: real -> real)
    requires IsSqrt(sqrt)
    ensures Line2D(p, p).Direction(sqrt) == None
    ensures q.ProjectionOn(Line2D(p, p), sqrt) == Err(DegenerateDirection)
    ensures Line2D(p, p).IntersectionParameters(other, sqrt) == Err(DegenerateDirection)
    ensures other.IntersectionPoint(Line2D(p, p), sqrt) == Err(DegenerateDirection)
  {
  }
}
