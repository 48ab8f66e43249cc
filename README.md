# geom2D in Dafny

A model of `geom2D.py`, a small plane-geometry module with three kinds of value:

- points (`Point2D`);
- free vectors (`Vector2D`);
- lines given by two end points (`Line2D`).

The operations it models are these:

- vector arithmetic, the dot product and the quarter turn (`perpTo`);
- vector length and the unit vector;
- conversion between points and vectors;
- point-to-point distance;
- orthogonal projection of a point onto a line;
- a line's length and direction;
- the point at a parameter along a line;
- the two intersection parameters of a pair of lines, and their intersection point.

## Layout

- `wrappers.dfy` (module `Wrappers`) holds `Option`, standing for Python's `None` results, and `Result`, standing for the run-time errors the source runs into.
- `geom2d.dfy` (module `Geom2D`) holds the model itself.
  - `Vector2D`, `Point2D` and `Line2D` are datatypes with member functions: every method these datatypes model returns a new value (a number or a new object) and mutates nothing.
  - The in-place vector operators (`normalize`, `+=`, `-=`, `*=`) update the receiver's fields. They are methods of the class `MutableVector2D`.
  - The arithmetic lemmas the geometric proofs rest on also live here.
- `geom2d_properties.dfy` (module `Geom2DProperties`) holds the lemmas that relate operations to each other, including worked examples: crossing axes, exactly and nearly parallel lines, a degenerate line, and the points (0, 0) and (3, 4).

## Modelling decisions

- Coordinates are exact reals. The model has no floating-point rounding.
- The library square root is a parameter `sqrt: real -> real`. Every operation that needs it requires `IsSqrt(sqrt)`, which says the result is the non-negative root of a non-negative argument.
- The source's crashes become explicit failures. A zero-length direction makes the source call `perpTo` or read `.x` on `None`; in the model that is `Err(DegenerateDirection)`. A missing first intersection parameter makes `intersectionPoint` do arithmetic on `None`; in the model that is `Err(ParallelLines)`.
- `intersectionParameters` computes its two parameters with the same branches as the source: unit directions, their quarter turns, a denominator compared against `Tolerance` = 1e-12, then a quotient. Its contract restates the tolerance rule in terms of the lines themselves:
  - t1 is absent exactly when |d1 × d2| < 1e-12 · |d2|;
  - t2 is absent exactly when |d1 × d2| < 1e-12 · |d1|.

  Here d1 and d2 are the two lines' end-to-end vectors. A present parameter names the exact point where the lines cross.
- The two parameters are not decided together. Up to sign, the denominator for t1 is d1 × d2 divided by |d2|, which is |d1| · sin θ, with θ the angle between the lines. The denominator for t2 is d1 × d2 divided by |d1|, which is |d2| · sin θ.
  - For exactly parallel lines both parameters are absent (`Geom2DProperties.ParallelLinesHaveNoParameters`).
  - Exactly one is absent when min(|d1|, |d2|) · |sin θ| < 1e-12 ≤ max(|d1|, |d2|) · |sin θ|. That takes the shorter segment's length times |sin θ| to fall below 1e-12: a very short segment, nearly parallel lines, or both (for example lengths 1e-11 and 1 at 5°).
  - The absent one then belongs to the shorter line (`Geom2DProperties.AbsentParameterBelongsToShorterLine`).
  - An instance is `Geom2DProperties.OneParameterMayBeAbsent`: two segments that meet at the origin, less than 1e-12 rad apart.
- Python's `v += w`, `v -= w` and `v *= s` rebind `v` to the operator's return value. The source's `__iadd__`, `__isub__` and `__imul__` return `None`, so the model's `IAdd`, `ISub` and `IMul` update the object and return `None`.

## Model

| member | source | states |
|---|---|---|
| Geom2D.Vector2D.PerpTo | geom2D.py:49-50 | the quarter turn is perpendicular to the vector, has the same squared length, and its cross product with the vector is minus the squared length |
| Geom2D.Vector2D.Length | geom2D.py:36-37 | the length is non-negative, its square is v . v, and it is zero exactly for the zero vector |
| Geom2D.Vector2D.Unit | geom2D.py:42-47 | absent exactly when both coordinates are zero; otherwise a vector of squared length 1 that, scaled by the length, gives back the vector |
| Geom2D.Vector2D.ScaledDown | geom2D.py:47 | dividing by a positive l with l * l = v . v gives a vector of squared length 1 that scales back to v |
| Geom2D.Point2D.DistanceTo | geom2D.py:12-14 | as written: the square of the result is 2 (x - x')^2, whatever the y-coordinates |
| Geom2D.Point2D.Distance | geom2D.py:12-14 | corrected: the square of the result is dx^2 + dy^2, and it is zero exactly when the points coincide |
| Geom2D.Point2D.ProjectionOn | geom2D.py:16-22 | fails with DegenerateDirection exactly when the line's end points coincide; otherwise the result lies on the line and the offset from the point to it is perpendicular to the line |
| Geom2D.Line2D.Length | geom2D.py:101-103 | non-negative, its square is the squared end-to-end vector, and it equals the corrected distance between the end points |
| Geom2D.Line2D.Direction | geom2D.py:105-107 | absent exactly when the end points coincide; otherwise a vector of squared length 1 that, scaled by the line's length, is the end-to-end vector |
| Geom2D.Line2D.Point | geom2D.py:152-155 | the point at any parameter lies on the line; parameter 0 gives p0 and parameter 1 gives p1 |
| Geom2DProperties.PointIsAffine | geom2D.py:152-155 | the step between the points at s and at t is (s - t) times the end-to-end vector |
| Geom2DProperties.PointIsInjective | geom2D.py:152-155 | on a line with distinct end points, equal points come from equal parameters |
| Geom2D.Line2D.IntersectionParameters | geom2D.py:116-150 | fails with DegenerateDirection exactly when either line is degenerate; t1 (t2) is absent exactly when the cross product of the end-to-end vectors is below the tolerance times the other (this) line's length; a present t1 gives a point of this line that lies on the other line, and a present t2 the other way round; a present parameter implies the lines are not parallel |
| Geom2D.Line2D.IntersectionPoint | geom2D.py:109-114 | fails exactly when a line is degenerate (DegenerateDirection) or t1 is absent by the tolerance rule (ParallelLines); a result lies on both lines, which are then not parallel |
| Geom2D.MutableVector2D.constructor | geom2D.py:32-34 | the new object holds the given coordinates |
| Geom2D.MutableVector2D.Normalize | geom2D.py:52-59 | on a zero vector: returns None and changes nothing; otherwise: returns the object itself, now holding the unit vector of its old value |
| Geom2D.MutableVector2D.IAdd | geom2D.py:79-81 | the object holds its old value plus the other's old value (also when both are the same object); returns None |
| Geom2D.MutableVector2D.ISub | geom2D.py:83-85 | the object holds its old value minus the other's old value; returns None |
| Geom2D.MutableVector2D.IMul | geom2D.py:87-89 | the object holds its old value scaled by the scalar; returns None |
| Geom2D.ProjectionIsOrthogonal | geom2D.py:21 | p0 + (p0p . u) u lies on the line through p0 along d = l u, and p0 + p0p minus it is perpendicular to d |
| Geom2D.ParameterMeetsOtherLine | geom2D.py:138-142 | the denominator (d1 . u2Perp) is below the tolerance exactly when the cross product of the end-to-end vectors is below the tolerance times the other line's length; otherwise the quotient names a point of this line on the other line |
| Geom2D.SolvedParameterOnLine | geom2D.py:142 | the quotient of (p0' - p0) . w by d1 . w, with w perpendicular to the other line, is a parameter at which this line meets the other |
| Geom2D.NormOfSumOfSquares | geom2D.py:37 | sqrt(a^2 + b^2) is a non-negative root and is zero exactly when a = b = 0 |
| Geom2D.Vector2D.Add | geom2D.py:67-68 | no contract of its own; Geom2DProperties.AddSubInverse states that Sub undoes it, and Geom2DProperties.DotIsInnerProduct that the dot product is additive over it |
| Geom2D.Vector2D.Sub | geom2D.py:70-71 | no contract of its own; Geom2DProperties.AddSubInverse states that Add undoes it |
| Geom2D.Vector2D.Scale | geom2D.py:73-74 | no contract of its own; Geom2DProperties.ScaleBothOrders states it scales each coordinate, and Geom2DProperties.DotIsInnerProduct that it scales dot products |
| Geom2D.Vector2D.ScaleLeft | geom2D.py:76-77 | no contract of its own; Geom2DProperties.ScaleBothOrders states that it equals Scale |
| Geom2D.Vector2D.Dot | geom2D.py:64-65 | no contract of its own; Geom2DProperties.DotIsInnerProduct states it is symmetric, linear and positive definite |
| Geom2D.Vector2D.Point | geom2D.py:61-62 | no contract of its own; Geom2DProperties.VectorPointRoundTrip states it is inverse to Point2D.Vector |
| Geom2D.Point2D.Vector | geom2D.py:24-25 | no contract of its own; Geom2DProperties.VectorPointRoundTrip states it is inverse to Vector2D.Point |
| Geom2DProperties.DotIsInnerProduct | geom2D.py:64-65 | the dot product is symmetric, additive and homogeneous in its first argument, and v . v is non-negative and zero only for the zero vector |
| Geom2DProperties.PerpToTwiceNegates | geom2D.py:49-50 | two quarter turns give the negated vector |
| Geom2DProperties.AddSubInverse | geom2D.py:67-71 | subtraction undoes addition and addition undoes subtraction |
| Geom2DProperties.ScaleBothOrders | geom2D.py:73-77 | scalar * v and v * scalar are the same vector, each coordinate times the scalar |
| Geom2DProperties.VectorPointRoundTrip | geom2D.py:24-25 | point to vector to point, and vector to point to vector, are identities |
| Geom2DProperties.UnitHasLengthOne | geom2D.py:42-47 | a present unit vector has length exactly 1 |
| Geom2DProperties.UnitIsIdempotent | geom2D.py:42-47 | the unit vector of a unit vector is itself |
| Geom2DProperties.DistanceToIgnoresY | geom2D.py:12-14 | as written, distanceTo depends only on the x-coordinates and is 0 for points with equal x |
| Geom2DProperties.DistanceToCounterexample | geom2D.py:12-14 | for (0, 0) and (3, 4), distanceTo as written is not 5, while the corrected distance is 5 |
| Geom2DProperties.DistanceSymmetric | geom2D.py:12-14 | the corrected distance is symmetric |
| Geom2DProperties.ParallelAndPerpendicularIsZero | geom2D.py:16-22 | a vector both parallel and perpendicular to a non-zero direction is zero |
| Geom2DProperties.ProjectionIsUnique | geom2D.py:16-22 | the projection is the one point of the line whose offset from the point is perpendicular to the line |
| Geom2DProperties.ProjectionIsIdempotent | geom2D.py:16-22 | projecting the projection gives it back |
| Geom2DProperties.CommonPointIsUnique | geom2D.py:116-126 | two lines whose end-to-end vectors have a non-zero cross product share at most one point |
| Geom2DProperties.IntersectionParametersAreUnique | geom2D.py:116-150 | a present t1 is the only parameter at which this line's point lies on the other line; likewise for t2 |
| Geom2DProperties.AbsentParameterBelongsToShorterLine | geom2D.py:138-148 | if t1 is absent and t2 present, this line is strictly shorter than the other, and the other way round |
| Geom2DProperties.ParametersMeet | geom2D.py:116-150 | when both parameters are present, self.point(t1) equals other.point(t2) |
| Geom2DProperties.IntersectionPointFollowsFirstParameter | geom2D.py:109-114 | the intersection point is ParallelLines when t1 is absent and the first line's point at t1 otherwise |
| Geom2DProperties.IntersectionPointIsUniqueCommonPoint | geom2D.py:109-114 | the intersection point is exactly the set of points both lines contain |
| Geom2DProperties.ParallelLinesHaveNoParameters | geom2D.py:138-148 | non-degenerate lines with zero cross product get neither parameter and their intersection point fails with ParallelLines |
| Geom2DProperties.LengthIsRootOfDelta | geom2D.py:101-103 | a line's length is the non-negative root of its squared end-to-end vector |
| Geom2DProperties.SlantMeetsAtZero | geom2D.py:152-155 | the segment to (k, 1) meets the segment to (a, 0) only at parameter 0 |
| Geom2DProperties.SlantParametersPresence | geom2D.py:138-148 | with cross product a <= 1, first length a and second length above 10^12, t1 is absent and t2 is present |
| Geom2DProperties.OneParameterMayBeAbsent | geom2D.py:138-150 | the segments from the origin to (a, 0) and to (k, 1) meet at the origin, yet get t1 absent and t2 = 0, so intersectionPoint fails with ParallelLines |
| Geom2DProperties.AxesFirstParameter | geom2D.py:152-155 | the segment from (0, 0) to (a, 0) meets the segment from (0, -b) to (0, b) only at parameter 0 |
| Geom2DProperties.AxesSecondParameter | geom2D.py:152-155 | the segment from (0, -b) to (0, b) meets the segment from (0, 0) to (a, 0) only at parameter 1/2 |
| Geom2DProperties.AxesParametersPresent | geom2D.py:138-148 | with those lengths and that cross product, both parameters are present |
| Geom2DProperties.CrossingAxesMeetAtOrigin | geom2D.py:109-155 | the segments from (0, 0) to (a, 0) and from (0, -b) to (0, b) get parameters 0 and 1/2 and meet at the origin |
| Geom2DProperties.DegenerateLineFails | geom2D.py:105-107 | a line with coincident end points has no direction, and projection onto it and intersection with it fail with DegenerateDirection |

## Left out

- `Vector2D.angle` is not modelled: it is an `atan2`, and the model has no trigonometry.
- The `__str__` methods are not modelled: they only format text.
- Floating-point rounding is not modelled. Coordinates are exact reals, so "within tolerance" statements become exact equalities. The one tolerance the code applies, to the intersection denominators, is modelled exactly.
- `math.sqrt` is not implemented. It is a parameter of which only the root property is known.
- The constructors of `Point2D`, `Vector2D` and `Line2D` are the datatype constructors. Only the mutable vector has a constructor of its own.
- Geom2D.Line2D.IntersectionParameters: the contract states where present parameters meet the other line. It does not restate the quotients. `Geom2DProperties.IntersectionParametersAreUnique` shows that this determines each present value. `Geom2DProperties.CrossingAxesMeetAtOrigin` and `Geom2DProperties.OneParameterMayBeAbsent` compute the values on examples.
- Geom2D.MutableVector2D.Normalize: the method scales when `length > 0` and takes the zero-vector branch otherwise, as the source does. `Unit` takes the zero-vector branch when `length == 0`. A length is never negative, so for exact reals the two tests agree.

## Findings

| source | as written | input that shows it | evidently intended | confidence | as-written member | corrected member |
|---|---|---|---|---|---|---|
| geom2D.py:12-14 | distanceTo squares the x-difference twice and never reads y, so it returns sqrt(2 (x - x')^2) | (0, 0) and (3, 4): as written sqrt(18), which is not 5 | the Euclidean distance sqrt((x - x')^2 + (y - y')^2), here 5 | high (not executed) | Geom2D.Point2D.DistanceTo, Geom2DProperties.DistanceToCounterexample | Geom2D.Point2D.Distance, Geom2DProperties.DistanceSymmetric |
