/** Points, free vectors and lines in the plane (geom2D.py).
    Coordinates are exact reals; the square root the source takes from its
    math library is a parameter `sqrt` of which only `IsSqrt` is known. */
module Geom2D {
  import opened Wrappers

  /** Threshold below which an intersection denominator counts as zero. */
  const Tolerance: real := 1e-12

  /** The failures the source runs into, as explicit outcomes:
      a zero-length direction (its `None.perpTo()` / `None.x` crashes) and
      a missing first intersection parameter (its arithmetic on `None`). */
  datatype GeomError = DegenerateDirection | ParallelLines

  function Abs(a: real): real {
    if a < 0.0 then -a else a
  }

  /** What the library square root promises on non-negative arguments. */
  ghost predicate IsSqrt(sqrt: real -> real) {
    forall a: real :: 0.0 <= a ==> 0.0 <= sqrt(a) && sqrt(a) * sqrt(a) == a
  }

  // ---------------------------------------------------------------------
  // Arithmetic facts used below

  /** Multiplying by a non-negative factor keeps the order. */
  lemma MulMonotone(k: real, a: real, b: real)
    requires 0.0 <= k && a <= b
    ensures k * a <= k * b
  {
  }

  /** Multiplying by a positive factor keeps the strict order. */
  lemma MulStrictlyMonotone(k: real, a: real, b: real)
    requires 0.0 < k && a < b
    ensures k * a < k * b
  {
  }

  lemma SquareNonNegative(a: real)
    ensures 0.0 <= a * a
  {
  }

  lemma SquarePositive(a: real)
    requires a != 0.0
    ensures 0.0 < a * a
  {
  }

  lemma SumOfSquaresNonNegative(a: real, b: real)
    ensures 0.0 <= a * a + b * b
  {
  }

  /** A sum of two squares vanishes only when both terms do. */
  lemma SumOfSquaresZero(a: real, b: real)
    requires a * a + b * b == 0.0
    ensures a == 0.0 && b == 0.0
  {
    if a != 0.0 {
      calc {
        0.0;
      < { SquarePositive(a); }
        a * a;
      <= { SquareNonNegative(b); }
        a * a + b * b;
      == 0.0;
      }
    }
    if b != 0.0 {
      calc {
        0.0;
      < { SquarePositive(b); }
        b * b;
      <= { SquareNonNegative(a); }
        a * a + b * b;
      == 0.0;
      }
    }
  }

  /** Squaring is strictly increasing on the non-negative reals. */
  lemma SquareStrictlyMonotone(a: real, b: real)
    requires 0.0 <= a < b
    ensures a * a < b * b
  {
    calc {
      a * a;
    <= { MulMonotone(a, a, b); }
      a * b;
    == b * a;
    < { MulStrictlyMonotone(b, a, b); }
      b * b;
    }
  }

  /** Non-negative reals with equal squares are equal. */
  lemma SquareRootsAgree(r: real, s: real)
    requires 0.0 <= r && 0.0 <= s && r * r == s * s
    ensures r == s
  {
    if r < s {
      SquareStrictlyMonotone(r, s);
    } else if s < r {
      SquareStrictlyMonotone(s, r);
    }
  }

  /** The root of a sum of two squares is a non-negative root, zero only
      when both terms are. */
  lemma NormOfSumOfSquares(sqrt: real -> real, a: real, b: real)
    requires IsSqrt(sqrt)
    ensures 0.0 <= sqrt(a * a + b * b)
    ensures sqrt(a * a + b * b) * sqrt(a * a + b * b) == a * a + b * b
    ensures sqrt(a * a + b * b) == 0.0 <==> a == 0.0 && b == 0.0
  {
    SumOfSquaresNonNegative(a, b);
    var r := sqrt(a * a + b * b);
    if r == 0.0 {
      assert r * r == 0.0;
      SumOfSquaresZero(a, b);
    }
    if a == 0.0 && b == 0.0 && r != 0.0 {
      calc {
        0.0;
      < { SquarePositive(r); }
        r * r;
      == a * a + b * b;
      == 0.0;
      }
    }
  }

  /** The library square root is the unique non-negative root. */
  lemma SqrtIsRoot(sqrt: real -> real, a: real, r: real)
    requires IsSqrt(sqrt)
    requires 0.0 <= r && r * r == a
    ensures sqrt(a) == r
  {
    SquareRootsAgree(sqrt(a), r);
  }

  /** Scaling v down by l, where l * l is v's squared length, gives a vector
      of squared length one that scales back up to v. */
  lemma ScaledDownIsUnit(v: Vector2D, l: real)
    requires 0.0 < l && l * l == v.Dot(v)
    ensures Vector2D(v.x / l, v.y / l).Dot(Vector2D(v.x / l, v.y / l)) == 1.0
    ensures Vector2D(v.x / l, v.y / l).Scale(l) == v
  {
    var u := Vector2D(v.x / l, v.y / l);
    assert u.x * l == v.x && u.y * l == v.y;
    calc {
      u.Dot(u) * (l * l);
      (u.x * l) * (u.x * l) + (u.y * l) * (u.y * l);
      v.Dot(v);
      l * l;
    }
  }

  // ---------------------------------------------------------------------
  // Vector2D (geom2D.py:31-92), pure operations

  /** A free displacement in the plane. */
  datatype Vector2D = Vector2D(x: real, y: real) {

    /** `__add__` */
    function Add(other: Vector2D): Vector2D {
      Vector2D(x + other.x, y + other.y)
    }

    /** `__sub__` */
    function Sub(other: Vector2D): Vector2D {
      Vector2D(x - other.x, y - other.y)
    }

    /** `__mul__`: vector times scalar. */
    function Scale(scalar: real): Vector2D {
      Vector2D(x * scalar, y * scalar)
    }

    /** `__rmul__`: scalar times vector, delegated to `__mul__`. */
    function ScaleLeft(scalar: real): Vector2D {
      Scale(scalar)
    }

    function Dot(v2: Vector2D): real {
      x * v2.x + y * v2.y
    }

    /** The z-component of the cross product (not in the source; used to state results). */
    function Cross(v2: Vector2D): real {
      x * v2.y - y * v2.x
    }

    /** Quarter turn with the source's fixed sign: perpendicular to this vector,
        of the same length, and clockwise from it (negative cross product). */
    function PerpTo(): (r: Vector2D)
      ensures r.Dot(this) == 0.0
      ensures r.Dot(r) == Dot(this)
      ensures Cross(r) == -Dot(this)
    {
      Vector2D(y, -x)
    }

    /** Euclidean norm: the non-negative root of the squared length, zero only for the zero vector. */
    function Length(sqrt: real -> real): (r: real)
      requires IsSqrt(sqrt)
      ensures 0.0 <= r && r * r == Dot(this)
      ensures r == 0.0 <==> x == 0.0 && y == 0.0
    {
      NormOfSumOfSquares(sqrt, x, y);
      sqrt(x * x + y * y)
    }

    /** Unit vector in the same direction; absent exactly when the length is zero
        (an exact comparison, no tolerance). */
    function Unit(sqrt: real -> real): (r: Option<Vector2D>)
      requires IsSqrt(sqrt)
      ensures r.None? <==> x == 0.0 && y == 0.0
      ensures r.Some? ==> r.value.Dot(r.value) == 1.0 && r.value.Scale(Length(sqrt)) == this
    {
      var length := Length(sqrt);
      if length == 0.0 then
        None
      else
        Some(ScaledDown(length))
    }

    function ScaledDown(l: real): (u: Vector2D)
      requires 0.0 < l && l * l == Dot(this)
      ensures u.Dot(u) == 1.0 && u.Scale(l) == this
    {
      ScaledDownIsUnit(this, l);
      Vector2D(x / l, y / l)
    }

    /** Reinterprets the displacement as a location. */
    function Point(): Point2D {
      Point2D(x, y)
    }
  }

  // ---------------------------------------------------------------------
  // Point2D (geom2D.py:7-28)

  /** An anchored location in the plane. */
  datatype Point2D = Point2D(x: real, y: real) {

    /** `distanceTo` as written: both squared terms use the x-difference, so the
        result is the root of twice the squared x-difference and ignores y. */
    function DistanceTo(point: Point2D, sqrt: real -> real): (r: real)
      requires IsSqrt(sqrt)
      ensures 0.0 <= r && r * r == 2.0 * ((x - point.x) * (x - point.x))
    {
      SumOfSquaresNonNegative(x - point.x, x - point.x);
      sqrt((x - point.x) * (x - point.x) + (x - point.x) * (x - point.x))
    }

    /** `distanceTo` as evidently intended: the Euclidean distance, zero exactly
        between equal points. */
    function Distance(point: Point2D, sqrt: real -> real): (r: real)
      requires IsSqrt(sqrt)
      ensures 0.0 <= r && r * r == (x - point.x) * (x - point.x) + (y - point.y) * (y - point.y)
      ensures r == 0.0 <==> this == point
    {
      Vector().Sub(point.Vector()).Length(sqrt)
    }

    /** Orthogonal projection onto the line through `line2D`'s endpoints.
        The source dereferences the line's direction, which is `None` for a
        zero-length line; that crash is the `DegenerateDirection` error. */
    function ProjectionOn(line2D: Line2D, sqrt: real -> real): (r: Result<Point2D, GeomError>)
      requires IsSqrt(sqrt)
      ensures r.Err? <==> line2D.p0 == line2D.p1
      ensures r.Err? ==> r.error == DegenerateDirection
      ensures r.Ok? ==> line2D.Contains(r.value)
      ensures r.Ok? ==> Vector().Sub(r.value.Vector()).Dot(line2D.Delta()) == 0.0
    {
      var pv := Vector();
      var p0v := line2D.p0.Vector();
      var p0p := pv.Sub(p0v);
      match line2D.Direction(sqrt)
      case None => Err(DegenerateDirection)
      case Some(uline) =>
        var vproj := p0v.Add(uline.ScaleLeft(p0p.Dot(uline)));
        ProjectionIsOrthogonal(p0v, p0p, line2D.Delta(), uline, line2D.Length(sqrt));
        Ok(vproj.Point())
    }

    /** Reinterprets the location as a displacement from the origin. */
    function Vector(): Vector2D {
      Vector2D(x, y)
    }
  }

  /** The projection formula p0 + (p0p . u) u, with u = d / l a unit vector,
      lands on the line and leaves an offset perpendicular to d. */
  lemma ProjectionIsOrthogonal(p0v: Vector2D, p0p: Vector2D, d: Vector2D, u: Vector2D, l: real)
    requires 0.0 < l && u.Scale(l) == d && u.Dot(u) == 1.0
    ensures p0v.Add(u.ScaleLeft(p0p.Dot(u))).Sub(p0v).Cross(d) == 0.0
    ensures p0v.Add(p0p).Sub(p0v.Add(u.ScaleLeft(p0p.Dot(u)))).Dot(d) == 0.0
  {
  }

  // ---------------------------------------------------------------------
  // Line2D (geom2D.py:95-158)

  /** The pair `(t1, t2)` of `intersectionParameters`, each possibly absent. */
  datatype Parameters = Parameters(t1: Option<real>, t2: Option<real>)

  /** The infinite line through two endpoints (not required to differ). */
  datatype Line2D = Line2D(p0: Point2D, p1: Point2D) {

    /** p1 - p0 as a vector (the source's `v11 - v10`). */
    function Delta(): Vector2D {
      p1.Vector().Sub(p0.Vector())
    }

    /** p lies on the line through p0 and p1 (for a zero-length line, every p). */
    predicate Contains(p: Point2D) {
      p.Vector().Sub(p0.Vector()).Cross(Delta()) == 0.0
    }

    /** The distance between the endpoints, computed from both coordinates. */
    function Length(sqrt: real -> real): (r: real)
      requires IsSqrt(sqrt)
      ensures 0.0 <= r && r * r == Delta().Dot(Delta())
      ensures r == p0.Distance(p1, sqrt)
    {
      SumOfSquaresNonNegative(p1.x - p0.x, p1.y - p0.y);
      var r := sqrt((p1.x - p0.x) * (p1.x - p0.x) + (p1.y - p0.y) * (p1.y - p0.y));
      SquareRootsAgree(r, p0.Distance(p1, sqrt));
      r
    }

    /** Unit vector from p0 toward p1; absent exactly when the endpoints coincide. */
    function Direction(sqrt: real -> real): (r: Option<Vector2D>)
      requires IsSqrt(sqrt)
      ensures r.None? <==> p0 == p1
      ensures r.Some? ==> r.value.Dot(r.value) == 1.0 && r.value.Scale(Length(sqrt)) == Delta()
    {
      var v := Vector2D(p1.x - p0.x, p1.y - p0.y);
      SquareRootsAgree(v.Length(sqrt), Length(sqrt));
      v.Unit(sqrt)
    }

    /** The point at parameter t of p0 + t (p1 - p0): on the line for every t,
        p0 at t = 0 and p1 at t = 1. */
    function Point(t: real): (r: Point2D)
      ensures Contains(r)
      ensures t == 0.0 ==> r == p0
      ensures t == 1.0 ==> r == p1
    {
      var v := p0.Vector().Add(p1.Vector().Sub(p0.Vector()).ScaleLeft(t));
      var d := Delta();
      assert v.Point().Vector().Sub(p0.Vector()) == d.Scale(t);
      assert d.Scale(t).Cross(d) == t * (d.x * d.y - d.y * d.x);
      v.Point()
    }

    /** Parameters t1, t2 of the common point p0 + t1 d1 == other.p0 + t2 d2
        (d1, d2 the two lines' p1 - p0), found by dotting with the perpendicular
        of the other line's unit direction. Each is absent when its denominator
        is below `Tolerance` in magnitude, decided independently: t1 when
        |d1 x d2| < Tolerance * |d2|, t2 when |d1 x d2| < Tolerance * |d1|.
        A present t1 gives a point of `other`, a present t2 a point of this line.
        A zero-length line makes the source crash on `None.perpTo()`: the
        `DegenerateDirection` error. */
    function IntersectionParameters(other: Line2D, sqrt: real -> real): (r: Result<Parameters, GeomError>)
      requires IsSqrt(sqrt)
      ensures r.Err? <==> p0 == p1 || other.p0 == other.p1
      ensures r.Err? ==> r.error == DegenerateDirection
      ensures r.Ok? ==>
        (r.value.t1.None? <==> Abs(Delta().Cross(other.Delta())) < Tolerance * other.Length(sqrt))
      ensures r.Ok? ==>
        (r.value.t2.None? <==> Abs(Delta().Cross(other.Delta())) < Tolerance * Length(sqrt))
      ensures r.Ok? && r.value.t1.Some? ==> other.Contains(Point(r.value.t1.value))
      ensures r.Ok? && r.value.t2.Some? ==> Contains(other.Point(r.value.t2.value))
      ensures r.Ok? && (r.value.t1.Some? || r.value.t2.Some?) ==> Delta().Cross(other.Delta()) != 0.0
    {
      match (Direction(sqrt), other.Direction(sqrt))
      case (None, _) => Err(DegenerateDirection)
      case (_, None) => Err(DegenerateDirection)
      case (Some(u1), Some(u2)) =>
        var u1Perp := u1.PerpTo();
        var u2Perp := u2.PerpTo();
        var v10 := p0.Vector();
        var v11 := p1.Vector();
        var v20 := other.p0.Vector();
        var v21 := other.p1.Vector();
        var denom1 := v11.Sub(v10).Dot(u2Perp);
        var t1 := if Abs(denom1) < Tolerance then None else Some(v20.Sub(v10).Dot(u2Perp) / denom1);
        var denom2 := v21.Sub(v20).Dot(u1Perp);
        var t2 := if Abs(denom2) < Tolerance then None else Some(v10.Sub(v20).Dot(u1Perp) / denom2);
        ParameterMeetsOtherLine(this, other, sqrt, u2);
        ParameterMeetsOtherLine(other, this, sqrt, u1);
        assert other.Delta().Cross(Delta()) == -Delta().Cross(other.Delta());
        Ok(Parameters(t1, t2))
    }

    /** The point at the first intersection parameter, on both lines. When that
        parameter is absent the source fails on arithmetic with `None`: the
        `ParallelLines` error; a zero-length line gives `DegenerateDirection`. */
    function IntersectionPoint(other: Line2D, sqrt: real -> real): (r: Result<Point2D, GeomError>)
      requires IsSqrt(sqrt)
      ensures r.Err? <==>
        p0 == p1 || other.p0 == other.p1 ||
        Abs(Delta().Cross(other.Delta())) < Tolerance * other.Length(sqrt)
      ensures r.Err? ==>
        r.error == if p0 == p1 || other.p0 == other.p1 then DegenerateDirection else ParallelLines
      ensures r.Ok? ==> Delta().Cross(other.Delta()) != 0.0
      ensures r.Ok? ==> Contains(r.value) && other.Contains(r.value)
    {
      match IntersectionParameters(other, sqrt)
      case Err(e) => Err(e)
      case Ok(Parameters(None, _)) => Err(ParallelLines)
      case Ok(Parameters(Some(t1), _)) =>
        var pv := p0.Vector().Add(p1.Vector().Sub(p0.Vector()).ScaleLeft(t1));
        assert pv.Point() == Point(t1);
        Ok(pv.Point())
    }
  }

  /** Polynomial identity: the cross product with u scaled by l is l times the
      dot product with u's perpendicular. */
  lemma CrossWithScaled(a: Vector2D, u: Vector2D, l: real)
    ensures a.Cross(u.Scale(l)) == l * a.Dot(u.PerpTo())
  {
  }

  lemma MulNonZero(a: real, b: real)
    requires a != 0.0 && b != 0.0
    ensures a * b != 0.0
  {
  }

  /** For l > 0: |k| < Tolerance exactly when |l * k| < Tolerance * l. */
  lemma AbsScaledBelow(k: real, l: real)
    requires 0.0 < l
    ensures Abs(k) < Tolerance <==> Abs(l * k) < Tolerance * l
  {
  }

  /** The source's parameter for line `l` against line `o` with unit direction
      `uo`: its denominator is below `Tolerance` exactly when
      |d x do| < Tolerance * |do|, and when it is not zero the parameter it
      gives is a point of `o`. */
  lemma ParameterMeetsOtherLine(l: Line2D, o: Line2D, sqrt: real -> real, uo: Vector2D)
    requires IsSqrt(sqrt)
    requires o.Direction(sqrt) == Some(uo)
    ensures Abs(l.Delta().Dot(uo.PerpTo())) < Tolerance
        <==> Abs(l.Delta().Cross(o.Delta())) < Tolerance * o.Length(sqrt)
    ensures l.Delta().Dot(uo.PerpTo()) != 0.0 ==>
      l.Delta().Cross(o.Delta()) != 0.0 &&
      o.Contains(l.Point(o.p0.Vector().Sub(l.p0.Vector()).Dot(uo.PerpTo()) / l.Delta().Dot(uo.PerpTo())))
  {
    var len := o.Length(sqrt);
    assert uo.Scale(len) == o.Delta();
    assert 0.0 < len;
    DenominatorBelowTolerance(l.Delta(), uo, len, o.Delta());
    if l.Delta().Dot(uo.PerpTo()) != 0.0 {
      CrossNonZero(l.Delta(), uo, len, o.Delta());
      SolvedParameterOnLine(l, o, uo, len);
    }
  }

  /** With od = len * uo and len > 0: d . uo' is below `Tolerance` exactly when
      |d x od| is below `Tolerance * len`. */
  lemma DenominatorBelowTolerance(d: Vector2D, uo: Vector2D, len: real, od: Vector2D)
    requires 0.0 < len && uo.Scale(len) == od
    ensures Abs(d.Dot(uo.PerpTo())) < Tolerance <==> Abs(d.Cross(od)) < Tolerance * len
  {
    CrossWithScaled(d, uo, len);
    AbsScaledBelow(d.Dot(uo.PerpTo()), len);
  }

  /** With od = len * uo and len > 0, a non-zero d . uo' gives a non-zero d x od. */
  lemma CrossNonZero(d: Vector2D, uo: Vector2D, len: real, od: Vector2D)
    requires 0.0 < len && uo.Scale(len) == od
    requires d.Dot(uo.PerpTo()) != 0.0
    ensures d.Cross(od) != 0.0
  {
    CrossWithScaled(d, uo, len);
    MulNonZero(len, d.Dot(uo.PerpTo()));
  }

  /** The parameter num / denom, with num = (o.p0 - l.p0) . uo' and
      denom = d . uo' (uo' the perpendicular of o's direction uo), gives a
      point of `o`. */
  lemma SolvedParameterOnLine(l: Line2D, o: Line2D, uo: Vector2D, len: real)
    requires uo.Scale(len) == o.Delta()
    requires l.Delta().Dot(uo.PerpTo()) != 0.0
    ensures o.Contains(l.Point(o.p0.Vector().Sub(l.p0.Vector()).Dot(uo.PerpTo()) / l.Delta().Dot(uo.PerpTo())))
  {
  }

  // ---------------------------------------------------------------------
  // Vector2D (geom2D.py:31-92), in-place operations

  /** A Vector2D object whose coordinates are overwritten by `normalize` and
      the augmented assignments. */
  class MutableVector2D {
    var x: real
    var y: real

    /** The value the object currently holds. */
    function Value(): Vector2D
      reads this
    {
      Vector2D(x, y)
    }

    constructor (x: real, y: real)
      ensures Value() == Vector2D(x, y)
    {
      this.x := x;
      this.y := y;
    }

    /** Scales the object to unit length and returns it; on a zero-length
        vector returns `None` and leaves it unchanged. Agrees with `Unit`. */
    method Normalize(sqrt: real -> real) returns (r: Option<MutableVector2D>)
      requires IsSqrt(sqrt)
      modifies this
      ensures old(Value()).Unit(sqrt).None? ==> r == None && Value() == old(Value())
      ensures old(Value()).Unit(sqrt).Some? ==>
        r == Some(this) && Value() == old(Value()).Unit(sqrt).value && Value().Dot(Value()) == 1.0
    {
      var length := Value().Length(sqrt);
      if length > 0.0 {
        x := x / length;
        y := y / length;
        r := Some(this);
      } else {
        r := None;
      }
    }

    /** `__iadd__`: adds `other` componentwise (`other` may be this object)
        and returns `None`, not the object. */
    method IAdd(other: MutableVector2D) returns (r: Option<MutableVector2D>)
      modifies this
      ensures Value() == old(Value()).Add(old(other.Value()))
      ensures r == None
    {
      x := x + other.x;
      y := y + other.y;
      r := None;
    }

    /** `__isub__`: subtracts `other` componentwise (`other` may be this object)
        and returns `None`. */
    method ISub(other: MutableVector2D) returns (r: Option<MutableVector2D>)
      modifies this
      ensures Value() == old(Value()).Sub(old(other.Value()))
      ensures r == None
    {
      x := x - other.x;
      y := y - other.y;
      r := None;
    }

    /** `__imul__`: scales both coordinates and returns `None`. */
    method IMul(scalar: real) returns (r: Option<MutableVector2D>)
      modifies this
      ensures Value() == old(Value()).Scale(scalar)
      ensures r == None
    {
      x := x * scalar;
      y := y * scalar;
      r := None;
    }
  }
}
