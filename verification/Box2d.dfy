/** The rectangular bounding box and its distance and overlap queries (box2d.h). */
module Boxes {
  import opened Reals
  import opened Planar
  import opened RectSegment
  import opened NormalPosition
  import opened LineSegments
  import opened Rectangles
  import opened ExtentsModel
  import Table = CaseTable
  import Overlap = OverlapTest
  import opened Wrappers

  /** The four corners in the order of InitCorners. */
  function Corners(r: Rect): seq<Vec2d> {
    [Corner(r, 0), Corner(r, 1), Corner(r, 2), Corner(r, 3)]
  }

  lemma UnitHeading(sin: real -> real, cos: real -> real, x: real)
    requires IsTrig(sin, cos)
    ensures cos(x) * cos(x) + sin(x) * sin(x) == 1.0
  {
  }

  // ----- Extents -----

  lemma WidenCovers(e: Extents, r: Rect)
    ensures CoversCorners(WidenAll(e, Corners(r)), r)
  {
    hide Corner, Within;
    var ps := Corners(r);
    WidenAllLeast(e, ps, ps[0]);
    forall i: nat | i < 4
      ensures Within(WidenAll(e, ps), Corner(r, i))
    {
      assert Corner(r, i) == ps[i];
    }
  }

  lemma EarlyExitSound(e: Extents, r: Rect, e': Extents, r': Rect)
    requires Proper(r) && Proper(r') && CoversCorners(e, r) && CoversCorners(e', r')
    ensures SharePoint(r, r') ==> !(e'.maxX < e.minX || e'.minX > e.maxX || e'.maxY < e.minY || e'.minY > e.maxY)
  {
    hide Contains, CoversCorners, Proper;
    if SharePoint(r, r') {
      var p: Vec2d :| Contains(r, p) && Contains(r', p);
      CoversRect(e, r, p);
      CoversRect(e', r', p);
    }
  }

  ghost predicate TouchesSegment(r: Rect, l: LineSegment2d) {
    exists t: real :: 0.0 <= t <= 1.0 && Contains(r, At(l.start, l.end, t))
  }

  /** The extents of the segment meet those of the box. */
  predicate MeetsExtents(e: Extents, l: LineSegment2d) {
    e.minX <= Max(l.start.x, l.end.x) && Min(l.start.x, l.end.x) <= e.maxX &&
    e.minY <= Max(l.start.y, l.end.y) && Min(l.start.y, l.end.y) <= e.maxY
  }

  lemma OutsideExtents(e: Extents, r: Rect, l: LineSegment2d)
    requires Proper(r) && CoversCorners(e, r) && !MeetsExtents(e, l)
    ensures !TouchesSegment(r, l)
  {
    hide Contains, CoversCorners, Proper, At;
    if TouchesSegment(r, l) {
      var t: real :| 0.0 <= t <= 1.0 && Contains(r, At(l.start, l.end, t));
      CoversRect(e, r, At(l.start, l.end, t));
      AtBounds(l.start, l.end, t);
    }
  }

  lemma TouchingDistance(r: Rect, l: LineSegment2d, d: real)
    requires IsSegmentDistance(r, l.start, l.end, d)
    ensures TouchesSegment(r, l) ==> d == 0.0
  {
    hide Contains, At, Dist2;
    if TouchesSegment(r, l) {
      var t: real :| 0.0 <= t <= 1.0 && Contains(r, At(l.start, l.end, t));
      DistNonnegative(At(l.start, l.end, t), At(l.start, l.end, t));
      assert d * d <= 0.0;
      NonpositiveSquare(d);
    }
  }

  lemma SegmentDistanceUnique(r: Rect, a: Vec2d, b: Vec2d, d: real, d': real)
    requires IsSegmentDistance(r, a, b, d) && IsSegmentDistance(r, a, b, d')
    ensures d == d'
  {
    hide Contains, At, Dist2;
    SameRoot(d, d');
  }

  // ----- Points and segments -----

  /** The point of the rectangle nearest to `q`. */
  function Nearest(hx: real, hy: real, q: Vec2d): Vec2d {
    Vec2d(if hx < q.x then hx else if q.x < -hx then -hx else q.x,
          if hy < q.y then hy else if q.y < -hy then -hy else q.y)
  }

  lemma AtPoint(q: Vec2d, t: real)
    ensures At(q, q, t) == q
  {
  }

  lemma NearestSquare(n: Vec2d, d: real, dx: real, dy: real)
    requires n.x * n.x == (if dx <= 0.0 then 0.0 else dx * dx) && n.y * n.y == (if dy <= 0.0 then 0.0 else dy * dy)
    requires if dx <= 0.0 then d == Max(0.0, dy) else if dy <= 0.0 then d == dx
             else d * d == SqrLength(Vec2d(dx, dy))
    ensures d * d == SqrLength(n)
  {
  }

  lemma NoDirection(n: Vec2d)
    ensures Dot(n, Vec2d(0.0, 0.0)) == 0.0
  {
  }

  lemma OffsetSquare(h: real, x: real, n: real, d: real)
    requires 0.0 <= h && d == Abs(x) - h && n == x - (if h < x then h else if x < -h then -h else x)
    ensures n * n == if d <= 0.0 then 0.0 else d * d
  {
    NegSquare(d);
  }

  lemma NearestCertificate(hx: real, hy: real, q: Vec2d, d: real, dx: real, dy: real)
    requires 0.0 <= hx && 0.0 <= hy && dx == Abs(q.x) - hx && dy == Abs(q.y) - hy
    requires if dx <= 0.0 then d == Max(0.0, dy) else if dy <= 0.0 then d == dx
             else 0.0 <= d && d * d == SqrLength(Vec2d(dx, dy))
    ensures var p := Nearest(hx, hy, q);
            0.0 <= d && d * d == Dist2(q, p) && Support(hx, hy, p, Sub(q, p)) && Foot(q, q, 0.0, Sub(q, p))
  {
    hide Dot, SqrLength;
    var n := Sub(q, Nearest(hx, hy, q));
    OffsetSquare(hx, q.x, n.x, dx);
    OffsetSquare(hy, q.y, n.y, dy);
    NearestSquare(n, d, dx, dy);
    assert Sub(q, q) == Vec2d(0.0, 0.0);
    NoDirection(n);
  }

  /** box2d.h:174-186 computes the distance of a point. */
  lemma PointDistance(sqrt: real -> real, r: Rect, point: Vec2d)
    requires IsSqrt(sqrt) && Proper(r)
    ensures var local := ToLocal(r, point);
            var dx, dy := Abs(local.x) - r.hl, Abs(local.y) - r.hw;
            IsSegmentDistance(r, point, point,
                              if dx <= 0.0 then Max(0.0, dy) else if dy <= 0.0 then dx else Hypot(sqrt, dx, dy))
  {
    hide IsDistance, IsSegmentDistance, IsSqrt, Hypot, ToLocal, Unit;
    var q := ToLocal(r, point);
    var p := Nearest(r.hl, r.hw, q);
    var dx, dy := Abs(q.x) - r.hl, Abs(q.y) - r.hw;
    var d := if dx <= 0.0 then Max(0.0, dy) else if dy <= 0.0 then dx else Hypot(sqrt, dx, dy);
    HypotSquare(sqrt, Vec2d(dx, dy));
    NearestCertificate(r.hl, r.hw, q, d, dx, dy);
    AtPoint(q, 0.0);
    Certificate(r.hl, r.hw, q, q, 0.0, p, d);
    FromLocalFrame(r, point, point, d);
  }

  lemma LocalMeasured(r: Rect, l: LineSegment2d)
    requires Unit(r) && LineSegments.Valid(l)
    ensures l.length * l.length == SqrLength(Sub(ToLocal(r, l.end), ToLocal(r, l.start)))
  {
    hide Unit, ToLocal;
    LocalDistance(r, l.end, l.start);
  }

  // ----- Box against box -----

  function Edge(sqrt: real -> real, r: Rect, i: nat): LineSegment2d
    requires IsSqrt(sqrt) && i < 4
  {
    Segment(sqrt, Corner(r, i), Corner(r, Next(i)))
  }

  predicate LongEdge(sqrt: real -> real, r: Rect, i: nat)
    requires IsSqrt(sqrt) && i < 4
  {
    K_MATH_EPSILON < Edge(sqrt, r, i).length
  }

  ghost predicate LongEdges(sqrt: real -> real, r: Rect)
    requires IsSqrt(sqrt)
  {
    forall i: nat :: i < 4 ==> LongEdge(sqrt, r, i)
  }

  /** What is computed for edge `i` of `r'`: the distance of the edge, or of its start if it is short. */
  ghost predicate EdgeDistance(sqrt: real -> real, r: Rect, r': Rect, i: nat, d: real)
    requires IsSqrt(sqrt) && i < 4
  {
    IsSegmentDistance(r, Corner(r', i), if LongEdge(sqrt, r', i) then Corner(r', Next(i)) else Corner(r', i), d)
  }

  function Less(d: real, tolerance: real): (m: real)
    ensures 0.0 <= m
  {
    Max(0.0, d - tolerance)
  }

  /** `m` is the least of what is computed for the first `n` edges of `r'`. */
  ghost predicate LeastOfEdges(sqrt: real -> real, r: Rect, r': Rect, n: nat, m: real)
    requires IsSqrt(sqrt) && n <= 4
  {
    0.0 <= m &&
    (exists i: nat :: i < n && EdgeDistance(sqrt, r, r', i, m)) &&
    forall i: nat :: i < n ==> EdgeAway(r, r', i, if LongEdge(sqrt, r', i) then m else Less(m, K_MATH_EPSILON))
  }

  /** `d` is the distance of some pair of points of two rectangles, and no pair is closer by more than the tolerance. */
  ghost predicate NearRectDistance(r: Rect, r': Rect, d: real, tolerance: real) {
    0.0 <= d &&
    (exists p: Vec2d, q: Vec2d :: Contains(r, p) && Contains(r', q) && Dist2(q, p) == d * d) &&
    forall p: Vec2d, q: Vec2d :: Contains(r, p) && Contains(r', q) ==>
      Less(d, tolerance) * Less(d, tolerance) <= Dist2(q, p)
  }

  lemma EdgeIs(sqrt: real -> real, r: Rect, i: nat, l: LineSegment2d)
    requires IsSqrt(sqrt) && i < 4 && l == Segment(sqrt, Corner(r, i), Corner(r, Next(i)))
    ensures l == Edge(sqrt, r, i)
  {
  }

  lemma CloserAway(r: Rect, r': Rect, i: nat, m: real, m': real)
    requires i < 4 && 0.0 <= m' <= m && EdgeAway(r, r', i, m)
    ensures EdgeAway(r, r', i, m')
  {
    hide Corner, At, Dist2, Contains;
    SquareWider(m', m);
  }

  lemma RootOf(sqrt: real -> real, x: real)
    requires IsSqrt(sqrt) && 0.0 <= x
    ensures 0.0 <= sqrt(x) && sqrt(x) * sqrt(x) == x
  {
  }

  /** No point of a short segment is nearer than its start by more than kMathEpsilon. */
  lemma ShortEdgeAway(sqrt: real -> real, l: LineSegment2d, t: real, p: Vec2d, e: real)
    requires IsSqrt(sqrt) && LineSegments.Valid(l) && l.length <= K_MATH_EPSILON && 0.0 <= t <= 1.0
    requires 0.0 <= e && e * e <= Dist2(l.start, p)
    ensures Less(e, K_MATH_EPSILON) * Less(e, K_MATH_EPSILON) <= Dist2(At(l.start, l.end, t), p)
  {
    hide At, Dist2, LineSegments.Valid, IsSqrt;
    var q := At(l.start, l.end, t);
    DistNonnegative(q, p);
    var y := sqrt(Dist2(q, p));
    RootOf(sqrt, Dist2(q, p));
    SquareOfLength(l);
    StartNotFar(l.start, l.end, l.length, t, p, y);
    SquareBelow(e, y + l.length);
    SquareWider(Less(e, K_MATH_EPSILON), y);
  }

  lemma DistanceAway(sqrt: real -> real, r: Rect, r': Rect, i: nat, e: real)
    requires IsSqrt(sqrt) && i < 4 && EdgeDistance(sqrt, r, r', i, e)
    ensures 0.0 <= e && EdgeAway(r, r', i, if LongEdge(sqrt, r', i) then e else Less(e, K_MATH_EPSILON))
  {
    hide Corner, At, Dist2, Contains;
    var a, b := Corner(r', i), Corner(r', Next(i));
    if !LongEdge(sqrt, r', i) {
      forall t: real, p: Vec2d | 0.0 <= t <= 1.0 && Contains(r, p)
        ensures Less(e, K_MATH_EPSILON) * Less(e, K_MATH_EPSILON) <= Dist2(At(a, b, t), p)
      {
        AtPoint(a, 0.0);
        assert e * e <= Dist2(At(a, a, 0.0), p);
        ShortEdgeAway(sqrt, Edge(sqrt, r', i), t, p, e);
      }
    }
  }

  lemma ExtendLeast(sqrt: real -> real, r: Rect, r': Rect, n: nat, distance: Option<real>, e: real)
    requires IsSqrt(sqrt) && n < 4
    requires (distance.Some? <==> 0 < n) && (distance.Some? ==> LeastOfEdges(sqrt, r, r', n, distance.value))
    requires EdgeDistance(sqrt, r, r', n, e)
    ensures LeastOfEdges(sqrt, r, r', n + 1, if distance.None? then e else Min(distance.value, e))
  {
    hide Corner, EdgeAway, EdgeDistance, LongEdge, IsSqrt;
    var m := if distance.None? then e else Min(distance.value, e);
    DistanceAway(sqrt, r, r', n, e);
    forall i: nat | i < n + 1
      ensures EdgeAway(r, r', i, if LongEdge(sqrt, r', i) then m else Less(m, K_MATH_EPSILON))
    {
      var m' := if i < n then distance.value else e;
      if LongEdge(sqrt, r', i) {
        CloserAway(r, r', i, m', m);
      } else {
        CloserAway(r, r', i, Less(m', K_MATH_EPSILON), Less(m, K_MATH_EPSILON));
      }
    }
  }

  lemma NearSelf(r: Rect, p: Vec2d)
    ensures NearInFrame(r, p, p, K_MATH_EPSILON)
  {
    assert Sub(p, p) == Vec2d(0.0, 0.0);
    NoDirection(Vec2d(r.c, r.s));
    NoDirection(Vec2d(-r.s, r.c));
  }

  lemma NotContained(r: Rect, p: Vec2d)
    requires !NearlyContains(r, p, K_MATH_EPSILON)
    ensures !Contains(r, p)
  {
    hide Contains, NearInFrame;
    NearSelf(r, p);
  }

  /** Corner 0 of `r'` is in `r` up to the tolerance. */
  ghost predicate HoldsCorner(r: Rect, r': Rect) {
    NearlyContains(r, Corner(r', 0), K_MATH_EPSILON)
  }

  /** Some points of the rectangles differ by at most the tolerance along and across the heading of one of them. */
  ghost predicate AlmostTouch(r: Rect, r': Rect, tolerance: real) {
    exists p: Vec2d, q: Vec2d ::
      Contains(r, p) && Contains(r', q) && (NearInFrame(r, q, p, tolerance) || NearInFrame(r', p, q, tolerance))
  }

  lemma HeldTouches(r: Rect, r': Rect)
    requires Proper(r') && HoldsCorner(r, r')
    ensures AlmostTouch(r, r', K_MATH_EPSILON)
  {
    hide Contains, Corner, NearInFrame;
    CornerContained(r', 0);
    var p: Vec2d :| Contains(r, p) && NearInFrame(r, Corner(r', 0), p, K_MATH_EPSILON);
  }

  lemma TouchBothWays(r: Rect, r': Rect)
    requires AlmostTouch(r, r', K_MATH_EPSILON)
    ensures AlmostTouch(r', r, K_MATH_EPSILON)
  {
    hide Contains, NearInFrame;
  }

  lemma Coincide(p: Vec2d, q: Vec2d)
    requires Dist2(q, p) == 0.0
    ensures q == p
  {
    hide SqrLength;
    ZeroLength(Sub(q, p));
  }

  lemma AttainedPair(r: Rect, r': Rect, d: real) returns (p: Vec2d, q: Vec2d)
    requires NearRectDistance(r, r', d, K_MATH_EPSILON)
    ensures Contains(r, p) && Contains(r', q) && Dist2(q, p) == d * d
  {
    hide Contains, Dist2, Less;
    p, q :| Contains(r, p) && Contains(r', q) && Dist2(q, p) == d * d;
  }

  lemma ZeroTouches(r: Rect, r': Rect, d: real)
    requires NearRectDistance(r, r', d, K_MATH_EPSILON)
    ensures d == 0.0 ==> AlmostTouch(r, r', K_MATH_EPSILON)
  {
    hide Contains, Dist2, NearInFrame, NearRectDistance;
    if d == 0.0 {
      var p, q := AttainedPair(r, r', d);
      Coincide(p, q);
      NearSelf(r, q);
    }
  }

  lemma SharedPointZero(r: Rect, r': Rect, d: real)
    requires IsRectDistance(r, r', d)
    ensures SharePoint(r, r') ==> d == 0.0
  {
    hide Contains, Dist2;
    if SharePoint(r, r') {
      var p: Vec2d :| Contains(r, p) && Contains(r', p);
      DistNonnegative(p, p);
      NonpositiveSquare(d);
    }
  }

  /** The least of what is computed is the distance of two points. */
  lemma LeastAttained(sqrt: real -> real, r: Rect, r': Rect, m: real)
    requires IsSqrt(sqrt) && Proper(r) && Proper(r') && LeastOfEdges(sqrt, r, r', 4, m)
    ensures exists p: Vec2d, q: Vec2d :: Contains(r, p) && Contains(r', q) && Dist2(q, p) == m * m
  {
    hide Corner, At, Dist2, Contains, Proper, EdgeAway, LongEdge, IsSqrt;
    var i: nat :| i < 4 && EdgeDistance(sqrt, r, r', i, m);
    var a, b := Corner(r', i), if LongEdge(sqrt, r', i) then Corner(r', Next(i)) else Corner(r', i);
    var t: real, p: Vec2d :| 0.0 <= t <= 1.0 && Contains(r, p) && Dist2(At(a, b, t), p) == m * m;
    if LongEdge(sqrt, r', i) {
      EdgeContained(r', i, t);
    } else {
      AtPoint(a, t);
      CornerContained(r', i);
    }
  }

  lemma AllEdgesApart(sqrt: real -> real, r: Rect, r': Rect, m: real)
    requires IsSqrt(sqrt) && LeastOfEdges(sqrt, r, r', 4, m)
    ensures EdgesApart(r, r', Less(m, K_MATH_EPSILON)) && (LongEdges(sqrt, r') ==> EdgesApart(r, r', m))
  {
    hide EdgeAway, EdgeDistance, LongEdge, IsSqrt;
    forall i: nat | i < 4
      ensures EdgeAway(r, r', i, Less(m, K_MATH_EPSILON))
    {
      CloserAway(r, r', i, if LongEdge(sqrt, r', i) then m else Less(m, K_MATH_EPSILON), Less(m, K_MATH_EPSILON));
    }
    if LongEdges(sqrt, r') {
      forall i: nat | i < 4
        ensures EdgeAway(r, r', i, m)
      {
        assert LongEdge(sqrt, r', i);
      }
    }
  }

  lemma LeastIsNearRectDistance(sqrt: real -> real, r: Rect, r': Rect, m: real)
    requires IsSqrt(sqrt) && Proper(r) && Proper(r') && LeastOfEdges(sqrt, r, r', 4, m) && !Contains(r', Corner(r, 0))
    ensures NearRectDistance(r, r', m, K_MATH_EPSILON)
  {
    hide Corner, Dist2, Contains, Proper, IsSqrt, EdgesApart, EdgeDistance, EdgeAway;
    AllEdgesApart(sqrt, r, r', m);
    EdgesDecide(r, r', Less(m, K_MATH_EPSILON));
    LeastAttained(sqrt, r, r', m);
  }

  lemma LeastIsRectDistance(sqrt: real -> real, r: Rect, r': Rect, m: real)
    requires IsSqrt(sqrt) && Proper(r) && Proper(r') && LeastOfEdges(sqrt, r, r', 4, m) && !Contains(r', Corner(r, 0))
    requires LongEdges(sqrt, r')
    ensures IsRectDistance(r, r', m)
  {
    hide Corner, Dist2, Contains, Proper, IsSqrt, EdgesApart, EdgeDistance, EdgeAway;
    AllEdgesApart(sqrt, r, r', m);
    EdgesDecide(r, r', m);
    LeastAttained(sqrt, r, r', m);
  }

  // ----- Box2d -----

  class Box2d {
    var center: Vec2d
    var length: real
    var width: real
    var halfLength: real
    var halfWidth: real
    var heading: real
    var cosHeading: real
    var sinHeading: real
    var maxX: real
    var minX: real
    var maxY: real
    var minY: real
    const corners: array<Vec2d>

    /** The rectangle the box stands for. */
    function Rectangle(): Rect
      reads this
    {
      Rect(center, cosHeading, sinHeading, halfLength, halfWidth)
    }

    function Cached(): Extents
      reads this
    {
      Extents(maxX, minX, maxY, minY)
    }

    /** The cached corners are the rectangle's corners, and the cached extents cover them. */
    ghost predicate Valid()
      reads this, corners
    {
      corners.Length == 4 &&
      halfLength == 0.5 * length && halfWidth == 0.5 * width &&
      Unit(Rectangle()) &&
      corners[..] == Corners(Rectangle()) &&
      CoversCorners(Cached(), Rectangle())
    }

    /** box2d.h:47-63; all extents start at zero. */
    constructor (center: Vec2d, heading: real, length: real, width: real, sin: real -> real, cos: real -> real)
      requires IsTrig(sin, cos)
      ensures Valid() && fresh(corners)
      ensures Rectangle() == Rect(center, cos(heading), sin(heading), 0.5 * length, 0.5 * width)
      ensures this.heading == heading && this.length == length && this.width == width
      ensures Cached() == WidenAll(Extents(0.0, 0.0, 0.0, 0.0), Corners(Rectangle()))
    {
      hide Corner, CoversCorners, IsTrig;
      UnitHeading(sin, cos, heading);
      this.center, this.heading, this.length, this.width := center, heading, length, width;
      halfLength, halfWidth := 0.5 * length, 0.5 * width;
      cosHeading, sinHeading := cos(heading), sin(heading);
      maxX, minX, maxY, minY := 0.0, 0.0, 0.0, 0.0;
      corners := new Vec2d[4](_ => Vec2d(0.0, 0.0));
      new;
      InitCorners();
    }

    /** box2d.h:425-437 */
    method InitCorners()
      requires corners.Length == 4
      modifies this`maxX, this`minX, this`maxY, this`minY, corners
      ensures corners[..] == Corners(Rectangle())
      ensures Cached() == WidenAll(old(Cached()), corners[..])
      ensures CoversCorners(Cached(), Rectangle())
    {
      hide Local2Global, CoversCorners;
      corners[0] := Add(center, Local2Global(cosHeading, sinHeading, Vec2d(halfLength, -halfWidth)));
      corners[1] := Add(center, Local2Global(cosHeading, sinHeading, Vec2d(halfLength, halfWidth)));
      corners[2] := Add(center, Local2Global(cosHeading, sinHeading, Vec2d(-halfLength, halfWidth)));
      corners[3] := Add(center, Local2Global(cosHeading, sinHeading, Vec2d(-halfLength, -halfWidth)));
      ghost var r, before, ps := Rectangle(), Cached(), corners[..];
      assert ps == Corners(r);
      for i := 0 to 4
        invariant corners[..] == ps && Rectangle() == r
        invariant Cached() == WidenAll(before, ps[..i])
      {
        maxX := Max(corners[i].x, maxX);
        minX := Min(corners[i].x, minX);
        maxY := Max(corners[i].y, maxY);
        minY := Min(corners[i].y, minY);
        assert ps[..i + 1][..i] == ps[..i];
      }
      assert ps[..4] == ps;
      WidenCovers(before, r);
    }

    /** box2d.h:93-101 */
    method UpdateBox2d(egoX: real, egoY: real, egoTheta: real, sin: real -> real, cos: real -> real)
      requires Valid() && IsTrig(sin, cos)
      modifies this`center, this`heading, this`cosHeading, this`sinHeading
      modifies this`maxX, this`minX, this`maxY, this`minY, corners
      ensures Valid() && heading == egoTheta
      ensures Rectangle() == Rect(Vec2d(egoX, egoY), cos(egoTheta), sin(egoTheta), halfLength, halfWidth)
      ensures Cached() == WidenAll(old(Cached()), Corners(Rectangle()))
    {
      hide Corner, CoversCorners, IsTrig;
      UnitHeading(sin, cos, egoTheta);
      center := Vec2d(egoX, egoY);
      heading := egoTheta;
      cosHeading := cos(heading);
      sinHeading := sin(heading);
      InitCorners();
    }

    /** box2d.h:379-385; `normalize` stands for Normalizeheadingangle. */
    method RotateFromCenter(rotateAngle: real, normalize: real -> real, sin: real -> real, cos: real -> real)
      requires Valid() && IsTrig(sin, cos)
      modifies this`heading, this`cosHeading, this`sinHeading
      modifies this`maxX, this`minX, this`maxY, this`minY, corners
      ensures Valid() && heading == normalize(old(heading) + rotateAngle)
      ensures Rectangle() == Rect(center, cos(heading), sin(heading), halfLength, halfWidth)
      ensures Cached() == WidenAll(old(Cached()), Corners(Rectangle()))
    {
      hide Corner, CoversCorners, IsTrig, WidenAll;
      heading := normalize(heading + rotateAngle);
      UnitHeading(sin, cos, heading);
      cosHeading := cos(heading);
      sinHeading := sin(heading);
      InitCorners();
    }

    /** box2d.h:388-391 */
    method Shift(shiftVec: Vec2d)
      requires Valid()
      modifies this`center, this`maxX, this`minX, this`maxY, this`minY, corners
      ensures Valid() && Rectangle() == old(Rectangle()).(center := Add(old(center), shiftVec))
      ensures Cached() == WidenAll(old(Cached()), Corners(Rectangle()))
    {
      center := Add(center, shiftVec);
      InitCorners();
    }

    /** box2d.h:397-401 */
    method LongitudinalExtend(extensionLength: real)
      requires Valid()
      modifies this`length, this`halfLength, this`maxX, this`minX, this`maxY, this`minY, corners
      ensures Valid() && length == old(length) + extensionLength
      ensures Rectangle() == old(Rectangle()).(hl := 0.5 * length)
      ensures Cached() == WidenAll(old(Cached()), Corners(Rectangle()))
    {
      length := length + extensionLength;
      halfLength := 0.5 * length;
      InitCorners();
    }

    /** box2d.h:403-407 */
    method LateralExtend(extensionWidth: real)
      requires Valid()
      modifies this`width, this`halfWidth, this`maxX, this`minX, this`maxY, this`minY, corners
      ensures Valid() && width == old(width) + extensionWidth
      ensures Rectangle() == old(Rectangle()).(hw := 0.5 * width)
      ensures Cached() == WidenAll(old(Cached()), Corners(Rectangle()))
    {
      width := width + extensionWidth;
      halfWidth := 0.5 * width;
      InitCorners();
    }

    /** box2d.h:147-155 */
    predicate IsPointIn(point: Vec2d)
      requires Proper(Rectangle())
      reads this
      ensures IsPointIn(point) <==> NearlyContains(Rectangle(), point, K_MATH_EPSILON)
    {
      NearlyContainsExactly(Rectangle(), point, K_MATH_EPSILON);
      var local := Global2Local(cosHeading, sinHeading, Sub(point, center));
      Abs(local.x) <= halfLength + K_MATH_EPSILON && Abs(local.y) <= halfWidth + K_MATH_EPSILON
    }

    /** The distance from the box to a point (box2d.h:174-186). */
    function DistanceToPoint(sqrt: real -> real, point: Vec2d): (d: real)
      requires IsSqrt(sqrt) && Proper(Rectangle())
      reads this
      ensures IsSegmentDistance(Rectangle(), point, point, d)
    {
      var local := Global2Local(cosHeading, sinHeading, Sub(point, center));
      var dx := Abs(local.x) - halfLength;
      var dy := Abs(local.y) - halfWidth;
      PointDistance(sqrt, Rectangle(), point);
      if dx <= 0.0 then Max(0.0, dy)
      else if dy <= 0.0 then dx
      else Hypot(sqrt, dx, dy)
    }

    /** The distance from the box to a segment (box2d.h:189-284). */
    method DistanceToSegment(sqrt: real -> real, l: LineSegment2d) returns (d: real)
      requires IsSqrt(sqrt) && Proper(Rectangle()) && LineSegments.Valid(l)
      ensures K_MATH_EPSILON < l.length ==> IsSegmentDistance(Rectangle(), l.start, l.end, d)
      ensures l.length <= K_MATH_EPSILON ==> IsSegmentDistance(Rectangle(), l.start, l.start, d)
    {
      hide IsSqrt, IsDistance, IsSegmentDistance, LineSegments.Valid, Global2Local, Unit, SqrLength;
      if l.length <= K_MATH_EPSILON {
        return DistanceToPoint(sqrt, l.start);
      }
      var a := Global2Local(cosHeading, sinHeading, Sub(l.start, center));
      var b := Global2Local(cosHeading, sinHeading, Sub(l.end, center));
      LocalMeasured(Rectangle(), l);
      d := Table.LocalDistance(sqrt, halfLength, halfWidth, a, b, l.length);
      FromLocalFrame(Rectangle(), l.start, l.end, d);
    }

    /** The distance between two boxes (box2d.h:287-306); None stands for the initial infinity. */
    method DistanceToBox(sqrt: real -> real, other: Box2d) returns (d: real)
      requires IsSqrt(sqrt) && Valid() && other.Valid() && Proper(Rectangle()) && Proper(other.Rectangle())
      ensures LongEdges(sqrt, other.Rectangle()) && SharePoint(Rectangle(), other.Rectangle()) ==> d == 0.0
      ensures LongEdges(sqrt, other.Rectangle()) && d > 0.0 ==> IsRectDistance(Rectangle(), other.Rectangle(), d)
      ensures HoldsCorner(Rectangle(), other.Rectangle()) || HoldsCorner(other.Rectangle(), Rectangle()) ==> d == 0.0
      ensures !HoldsCorner(Rectangle(), other.Rectangle()) && !HoldsCorner(other.Rectangle(), Rectangle()) ==>
                NearRectDistance(Rectangle(), other.Rectangle(), d, K_MATH_EPSILON) &&
                (LongEdges(sqrt, other.Rectangle()) ==> IsRectDistance(Rectangle(), other.Rectangle(), d))
      ensures d == 0.0 ==> AlmostTouch(Rectangle(), other.Rectangle(), K_MATH_EPSILON)
    {
      hide NearlyContains, NearInFrame, AlmostTouch, IsSqrt, IsSegmentDistance, IsRectDistance, NearRectDistance,
           Edge, Corner, Proper, CoversCorners;
      ghost var r, r' := Rectangle(), other.Rectangle();
      if IsPointIn(other.corners[0]) {
        HeldTouches(r, r');
        return 0.0;
      }
      if other.IsPointIn(corners[0]) {
        HeldTouches(r', r);
        TouchBothWays(r', r);
        return 0.0;
      }
      var distance: Option<real> := None;
      for i := 0 to 3
        invariant (distance.Some? <==> 0 < i) && (distance.Some? ==> LeastOfEdges(sqrt, r, r', i, distance.value))
      {
        var l := Segment(sqrt, other.corners[i], other.corners[i + 1]);
        EdgeIs(sqrt, r', i, l);
        var e := DistanceToSegment(sqrt, l);
        ExtendLeast(sqrt, r, r', i, distance, e);
        distance := Some(if distance.None? then e else Min(distance.value, e));
      }
      var l := Segment(sqrt, other.corners[3], other.corners[0]);
      EdgeIs(sqrt, r', 3, l);
      var e := DistanceToSegment(sqrt, l);
      ExtendLeast(sqrt, r, r', 3, distance, e);
      d := Min(distance.value, e);
      NotContained(r', Corner(r, 0));
      LeastIsNearRectDistance(sqrt, r, r', d);
      ZeroTouches(r, r', d);
      if LongEdges(sqrt, r') {
        LeastIsRectDistance(sqrt, r, r', d);
        SharedPointZero(r, r', d);
      }
    }

    /** Whether the box overlaps a segment, up to kMathEpsilon (box2d.h:313-324). */
    method HasOverlapSegment(sqrt: real -> real, l: LineSegment2d) returns (overlap: bool)
      requires IsSqrt(sqrt) && Valid() && Proper(Rectangle()) && LineSegments.Valid(l)
      ensures K_MATH_EPSILON < l.length ==>
                forall d: real :: IsSegmentDistance(Rectangle(), l.start, l.end, d) ==>
                  (overlap <==> MeetsExtents(Cached(), l) && d <= K_MATH_EPSILON)
      ensures K_MATH_EPSILON < l.length && TouchesSegment(Rectangle(), l) ==> overlap
      ensures K_MATH_EPSILON < l.length && overlap ==>
                exists d: real :: d <= K_MATH_EPSILON && IsSegmentDistance(Rectangle(), l.start, l.end, d)
      ensures l.length <= K_MATH_EPSILON ==> overlap == NearlyContains(Rectangle(), l.start, K_MATH_EPSILON)
    {
      hide NearlyContains, IsSqrt, IsSegmentDistance, Contains, At, Proper;
      if l.length <= K_MATH_EPSILON {
        return IsPointIn(l.start);
      }
      if Max(l.start.x, l.end.x) < minX || Min(l.start.x, l.end.x) > maxX ||
         Max(l.start.y, l.end.y) < minY || Min(l.start.y, l.end.y) > maxY {
        OutsideExtents(Cached(), Rectangle(), l);
        return false;
      }
      var d := DistanceToSegment(sqrt, l);
      TouchingDistance(Rectangle(), l, d);
      forall d': real | IsSegmentDistance(Rectangle(), l.start, l.end, d')
        ensures d' == d
      {
        SegmentDistanceUnique(Rectangle(), l.start, l.end, d, d');
      }
      return d <= K_MATH_EPSILON;
    }

    /** Whether two boxes overlap (box2d.h:331-367): exact, in spite of the early exit on cached extents. */
    predicate HasOverlap(other: Box2d)
      requires Valid() && other.Valid() && Proper(Rectangle()) && Proper(other.Rectangle())
      reads this, corners, other, other.corners
      ensures HasOverlap(other) <==> SharePoint(Rectangle(), other.Rectangle())
    {
      EarlyExitSound(Cached(), Rectangle(), other.Cached(), other.Rectangle());
      Overlap.AxesOverlapExact(Rectangle(), other.Rectangle());
      if other.maxX < minX || other.minX > maxX || other.maxY < minY || other.minY > maxY then
        false
      else
        Overlap.AxesOverlap(Rectangle(), other.Rectangle())
    }
  }
}
