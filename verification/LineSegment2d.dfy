/** Line segments (linesegment2d.h). */
module LineSegments {
  import opened Reals
  import opened Planar
  import opened RectSegment
  import opened NormalPosition

  const K_MATH_EPSILON := 0.0000000001

  datatype LineSegment2d = LineSegment2d(start: Vec2d, end: Vec2d, unitDirection: Vec2d, length: real)

  predicate Valid(l: LineSegment2d) {
    0.0 <= l.length && l.length * l.length == SqrLength(Sub(l.end, l.start)) &&
    l.unitDirection == (if l.length <= K_MATH_EPSILON then Vec2d(0.0, 0.0)
                        else Vec2d((l.end.x - l.start.x) / l.length, (l.end.y - l.start.y) / l.length))
  }

  /** The constructor (linesegment2d.h:26-39), without the heading, which needs `atan2`. */
  function Segment(sqrt: real -> real, start: Vec2d, end: Vec2d): (l: LineSegment2d)
    requires IsSqrt(sqrt)
    ensures l.start == start && l.end == end && Valid(l)
  {
    var dx, dy := end.x - start.x, end.y - start.y;
    var length := Hypot(sqrt, dx, dy);
    var unitDirection := if length <= K_MATH_EPSILON then Vec2d(0.0, 0.0) else Vec2d(dx / length, dy / length);
    HypotSquare(sqrt, Sub(end, start));
    LineSegment2d(start, end, unitDirection, length)
  }

  function ProjectOntoUnit(l: LineSegment2d, point: Vec2d): real {
    var v := Sub(point, l.start);
    InnerProd(v.x, v.y, l.unitDirection.x, l.unitDirection.y)
  }

  /** linesegment2d.h:76-90 */
  function FindNearestPoint(l: LineSegment2d, point: Vec2d): Vec2d {
    if l.length <= K_MATH_EPSILON then
      l.start
    else
      var proj := ProjectOntoUnit(l, point);
      if proj <= 0.0 then l.start
      else if proj >= l.length then l.end
      else Add(l.start, Scale(l.unitDirection, proj))
  }

  /** The distance component of DistanceTo (linesegment2d.h:112-116). */
  function DistanceTo(sqrt: real -> real, l: LineSegment2d, point: Vec2d): real {
    var nearest := FindNearestPoint(l, point);
    Hypot(sqrt, nearest.x - point.x, nearest.y - point.y)
  }

  lemma Factor(v: Vec2d, u: Vec2d, d: Vec2d, k: real)
    requires u.x * k == d.x && u.y * k == d.y
    ensures InnerProd(v.x, v.y, u.x, u.y) * k == InnerProd(v.x, v.y, d.x, d.y)
  {
    assert (v.x * u.x) * k == v.x * (u.x * k);
    assert (v.y * u.y) * k == v.y * (u.y * k);
  }

  /**
   * The projection divided by the length is the projection on the unrescaled direction divided by the squared
   * length.
   */
  lemma ProjectionScales(l: LineSegment2d, point: Vec2d)
    requires Valid(l) && K_MATH_EPSILON < l.length
    ensures var v, d := Sub(point, l.start), Sub(l.end, l.start);
            ProjectOntoUnit(l, point) * l.length == InnerProd(v.x, v.y, d.x, d.y)
    ensures Scale(l.unitDirection, l.length) == Sub(l.end, l.start)
  {
    var v, d, u := Sub(point, l.start), Sub(l.end, l.start), l.unitDirection;
    Quotient(d.x, l.length);
    Quotient(d.y, l.length);
    Factor(v, u, d, l.length);
  }

  lemma SquareOfLength(l: LineSegment2d)
    requires Valid(l)
    ensures 0.0 <= l.length && l.length * l.length == SqrLength(Sub(l.end, l.start))
  {
  }

  lemma BeyondEnd(a: Vec2d, b: Vec2d, q: Vec2d)
    ensures Dot(Sub(b, q), Sub(b, a)) == SqrLength(Sub(b, a)) - Dot(Sub(q, a), Sub(b, a))
  {
    hide Dot, SqrLength;
    assert Sub(b, q) == Sub(Sub(b, a), Sub(q, a));
    DotSub(Sub(b, a), Sub(q, a), Sub(b, a));
    DotSelf(Sub(b, a));
  }

  lemma Associate(t: real, k: real, p: real)
    requires t * k == p
    ensures t * (k * k) == p * k
  {
  }

  lemma Rescale(u: Vec2d, k: real, t: real, p: real)
    requires t * k == p
    ensures Scale(u, p) == Scale(Scale(u, k), t)
  {
    assert u.x * (t * k) == (u.x * k) * t;
    assert u.y * (t * k) == (u.y * k) * t;
  }

  lemma InnerNearest(l: LineSegment2d, point: Vec2d, t: real, proj: real)
    requires Valid(l) && K_MATH_EPSILON < l.length && proj == ProjectOntoUnit(l, point) && t * l.length == proj
    ensures Add(l.start, Scale(l.unitDirection, proj)) == At(l.start, l.end, t)
    ensures Dot(Sub(At(l.start, l.end, t), point), Sub(l.end, l.start)) == 0.0
  {
    hide At, InnerProd, SqrLength, Dot, Valid, ProjectOntoUnit;
    var u, d := l.unitDirection, Sub(l.end, l.start);
    ProjectionScales(l, point);
    SquareOfLength(l);
    Rescale(u, l.length, t, proj);
    AtVector(l.start, l.end, t);
    SubDot(point, l.start, d);
    Associate(t, l.length, proj);
    InnerFoot(point, l.start, l.end, t);
  }

  /** The nearest point is a foot of the query point on the segment. */
  lemma NearestIsFoot(l: LineSegment2d, point: Vec2d) returns (t: real)
    requires Valid(l) && K_MATH_EPSILON < l.length
    ensures FindNearestPoint(l, point) == At(l.start, l.end, t)
    ensures Foot(l.start, l.end, t, Sub(At(l.start, l.end, t), point))
  {
    hide At, InnerProd, SqrLength, Valid, Dot, Scale, ProjectOntoUnit;
    var v, d, proj := Sub(point, l.start), Sub(l.end, l.start), ProjectOntoUnit(l, point);
    var inner := InnerProd(v.x, v.y, d.x, d.y);
    ProjectionScales(l, point);
    AtEnds(l.start, l.end);
    SubDot(l.start, point, d);
    SubDot(point, l.start, d);
    MulSign(proj, l.length);
    if proj <= 0.0 {
      t := 0.0;
    } else if proj >= l.length {
      t := 1.0;
      MulSign(proj - l.length, l.length);
      BeyondEnd(l.start, l.end, point);
      SquareOfLength(l);
      assert (proj - l.length) * l.length == inner - l.length * l.length;
    } else {
      t := proj / l.length;
      Fraction(proj, l.length);
      InnerNearest(l, point, t, proj);
    }
  }

  /** The points are no farther apart than `d`. */
  predicate WithinDistance(p: Vec2d, q: Vec2d, d: real) {
    0.0 <= d && Dist2(p, q) <= d * d
  }

  lemma SquareWider(x: real, y: real)
    requires 0.0 <= x <= y
    ensures x * x <= y * y
  {
    ProductMonotone(x, x, y, y);
  }

  lemma ScaledCoordinate(x: real, k: real)
    ensures (x * k) * (x * k) == (k * k) * (x * x)
  {
  }

  lemma ScaledSquare(d: Vec2d, k: real)
    ensures SqrLength(Scale(d, k)) == (k * k) * SqrLength(d)
  {
    ScaledCoordinate(d.x, k);
    ScaledCoordinate(d.y, k);
    assert (k * k) * (d.x * d.x + d.y * d.y) == (k * k) * (d.x * d.x) + (k * k) * (d.y * d.y);
  }

  lemma Shrink(k: real, x: real)
    requires k <= 1.0 && 0.0 <= x
    ensures k * x <= x
  {
    MulSign(1.0 - k, x);
  }

  /** The start of a segment is farther from a point than any other of its points by at most the length. */
  lemma StartNotFar(a: Vec2d, b: Vec2d, length: real, t: real, q: Vec2d, y: real)
    requires 0.0 <= length && length * length == SqrLength(Sub(b, a))
    requires 0.0 <= t <= 1.0 && WithinDistance(At(a, b, t), q, y)
    ensures WithinDistance(a, q, y + length)
  {
    hide At, SqrLength, Scale;
    var p := At(a, b, t);
    AtDifference(a, b, 0.0, t);
    AtEnds(a, b);
    ScaledSquare(Sub(b, a), 0.0 - t);
    SquareWider(t, 1.0);
    AbsSquare(0.0 - t);
    AbsSquare(t);
    Shrink(t * t, length * length);
    Triangle(Sub(p, q), Sub(a, p), y, length);
    assert Add(Sub(p, q), Sub(a, p)) == Sub(a, q);
  }

  lemma Displaced(p: Vec2d, p': Vec2d, q: Vec2d)
    ensures Dist2(p, q) == SqrLength(Sub(p, q)) && Dist2(p', q) == SqrLength(Add(Sub(p, q), Sub(p', p)))
  {
    hide SqrLength;
    assert Sub(p', q) == Add(Sub(p, q), Sub(p', p));
  }

  lemma FootIsNearest(a: Vec2d, b: Vec2d, t: real, q: Vec2d)
    requires Foot(a, b, t, Sub(At(a, b, t), q))
    ensures forall t': real :: 0.0 <= t' <= 1.0 ==> Dist2(At(a, b, t), q) <= Dist2(At(a, b, t'), q)
  {
    hide At, Dot, Dist2, Sub;
    var n := Sub(At(a, b, t), q);
    forall t': real | 0.0 <= t' <= 1.0
      ensures Dist2(At(a, b, t), q) <= Dist2(At(a, b, t'), q)
    {
      FootBound(a, b, t, n, t');
      Lengthens(n, Sub(At(a, b, t'), At(a, b, t)));
      Displaced(At(a, b, t), At(a, b, t'), q);
    }
  }

  /**
   * FindNearestPoint returns a point of the segment that no other point of it is nearer than, and for a segment no
   * longer than kMathEpsilon its start, which is farther than any other point by no more than that.
   */
  lemma NearestPoint(l: LineSegment2d, point: Vec2d) returns (t: real)
    requires Valid(l)
    ensures 0.0 <= t <= 1.0 && FindNearestPoint(l, point) == At(l.start, l.end, t)
    ensures K_MATH_EPSILON < l.length ==> forall t': real :: 0.0 <= t' <= 1.0 ==>
              Dist2(At(l.start, l.end, t), point) <= Dist2(At(l.start, l.end, t'), point)
    ensures l.length <= K_MATH_EPSILON ==> t == 0.0 && forall t': real, y: real ::
              0.0 <= t' <= 1.0 && WithinDistance(At(l.start, l.end, t'), point, y) ==>
              WithinDistance(l.start, point, y + K_MATH_EPSILON)
  {
    hide At, Dist2;
    AtEnds(l.start, l.end);
    if l.length <= K_MATH_EPSILON {
      t := 0.0;
      SquareOfLength(l);
      forall t': real, y: real | 0.0 <= t' <= 1.0 && WithinDistance(At(l.start, l.end, t'), point, y)
        ensures WithinDistance(l.start, point, y + K_MATH_EPSILON)
      {
        StartNotFar(l.start, l.end, l.length, t', point, y);
        SquareWider(y + l.length, y + K_MATH_EPSILON);
      }
    } else {
      t := NearestIsFoot(l, point);
      FootIsNearest(l.start, l.end, t, point);
    }
  }

  lemma OppositeSquare(x: real, x': real)
    requires x' == -x
    ensures x * x == x' * x'
  {
  }

  lemma HypotOpposite(sqrt: real -> real, x: real, y: real, x': real, y': real)
    requires x' == -x && y' == -y
    ensures Hypot(sqrt, x, y) == Hypot(sqrt, x', y')
  {
    OppositeSquare(x, x');
    OppositeSquare(y, y');
  }

  lemma NoInner(x: real, y: real)
    ensures InnerProd(x, y, 0.0, 0.0) == 0.0
  {
  }

  lemma ZeroLength(d: Vec2d)
    requires SqrLength(d) == 0.0
    ensures d == Vec2d(0.0, 0.0)
  {
    NonpositiveSquare(d.x);
    NonpositiveSquare(d.y);
  }

  /** Both distances from a segment of length zero are those from its start. */
  lemma PointDistances(sqrt: real -> real, l: LineSegment2d, point: Vec2d)
    requires IsSqrt(sqrt) && Valid(l) && l.length == 0.0
    ensures PtSegDistance(sqrt, point, l.start, l.end, l.length) == DistanceTo(sqrt, l, point)
  {
    hide IsSqrt, InnerProd, Hypot, SqrLength;
    var r := Sub(point, l.start);
    ZeroLength(Sub(l.end, l.start));
    NoInner(r.x, r.y);
    HypotOpposite(sqrt, r.x, r.y, l.start.x - point.x, l.start.y - point.y);
  }

  lemma StartDistance(sqrt: real -> real, l: LineSegment2d, point: Vec2d)
    requires IsSqrt(sqrt) && Valid(l) && l.length <= K_MATH_EPSILON
    ensures 0.0 <= DistanceTo(sqrt, l, point)
    ensures DistanceTo(sqrt, l, point) * DistanceTo(sqrt, l, point) == Dist2(l.start, point)
  {
    hide Hypot, IsSqrt;
    HypotSquare(sqrt, Sub(l.start, point));
  }

  lemma SameRoot(x: real, y: real)
    requires 0.0 <= x && 0.0 <= y && x * x == y * y
    ensures x == y
  {
    assert (y - x) * (y + x) == 0.0;
    MulSign(y - x, y + x);
    MulSign(x - y, y + x);
  }

  /**
   * The box code's own point-segment distance agrees with that of LineSegment2d; for a segment no longer than
   * kMathEpsilon the latter is larger by no more than the length.
   */
  lemma PtSegDistanceAgrees(sqrt: real -> real, l: LineSegment2d, point: Vec2d)
    requires IsSqrt(sqrt) && Valid(l)
    ensures var d := PtSegDistance(sqrt, point, l.start, l.end, l.length);
            if K_MATH_EPSILON < l.length then DistanceTo(sqrt, l, point) == d
            else d <= DistanceTo(sqrt, l, point) <= d + l.length
  {
    hide At, SqrLength, Dot, PtSegDistance, FindNearestPoint, IsSqrt, Hypot;
    SquareOfLength(l);
    if l.length == 0.0 {
      PointDistances(sqrt, l, point);
    } else {
      var d, e := PtSegDistance(sqrt, point, l.start, l.end, l.length), DistanceTo(sqrt, l, point);
      var s := PtSegFoot(sqrt, point, l.start, l.end, l.length);
      FootIsNearest(l.start, l.end, s, point);
      if K_MATH_EPSILON < l.length {
        var t := NearestIsFoot(l, point);
        FootIsNearest(l.start, l.end, t, point);
        HypotSquare(sqrt, Sub(At(l.start, l.end, t), point));
        SameRoot(d, e);
      } else {
        StartDistance(sqrt, l, point);
        StartNotFar(l.start, l.end, l.length, s, point, d);
        AtEnds(l.start, l.end);
        SquareBelow(d, e);
        SquareBelow(e, d + l.length);
      }
    }
  }
}
