/** Rectangles of any position and heading: the abstract value of a Box2d, and the geometry its queries rely on. */
module Rectangles {
  import opened Reals
  import opened Planar
  import opened RectSegment
  import opened NormalPosition

  /** A rectangle with heading (c, s) and half sizes `hl` along and `hw` across it. */
  datatype Rect = Rect(center: Vec2d, c: real, s: real, hl: real, hw: real)

  /** box2d.h:439-443 */
  function Local2Global(c: real, s: real, p: Vec2d): Vec2d {
    Vec2d(p.x * c - p.y * s, p.x * s + p.y * c)
  }

  /** box2d.h:445-449 */
  function Global2Local(c: real, s: real, p: Vec2d): Vec2d {
    Vec2d(p.x * c + p.y * s, -p.x * s + p.y * c)
  }

  function ToLocal(r: Rect, p: Vec2d): Vec2d {
    Global2Local(r.c, r.s, Sub(p, r.center))
  }

  function ToGlobal(r: Rect, p: Vec2d): Vec2d {
    Add(r.center, Local2Global(r.c, r.s, p))
  }

  predicate Unit(r: Rect) {
    r.c * r.c + r.s * r.s == 1.0
  }

  predicate Proper(r: Rect) {
    Unit(r) && 0.0 <= r.hl && 0.0 <= r.hw
  }

  predicate Contains(r: Rect, p: Vec2d) {
    InRect(r.hl, r.hw, ToLocal(r, p))
  }

  ghost predicate SharePoint(r: Rect, r': Rect) {
    exists p: Vec2d :: Contains(r, p) && Contains(r', p)
  }

  /** `d` is the least distance between a point of the rectangle and a point of the segment. */
  ghost predicate IsSegmentDistance(r: Rect, a: Vec2d, b: Vec2d, d: real) {
    0.0 <= d &&
    (exists t: real, p: Vec2d :: 0.0 <= t <= 1.0 && Contains(r, p) && Dist2(At(a, b, t), p) == d * d) &&
    (forall t: real, p: Vec2d :: 0.0 <= t <= 1.0 && Contains(r, p) ==> d * d <= Dist2(At(a, b, t), p))
  }

  /** `d` is the least distance between points of two rectangles. */
  ghost predicate IsRectDistance(r: Rect, r': Rect, d: real) {
    0.0 <= d &&
    (exists p: Vec2d, q: Vec2d :: Contains(r, p) && Contains(r', q) && Dist2(q, p) == d * d) &&
    (forall p: Vec2d, q: Vec2d :: Contains(r, p) && Contains(r', q) ==> d * d <= Dist2(q, p))
  }

  // ----- Frames -----

  lemma TurnBack(c: real, s: real, x: real, y: real)
    requires c * c + s * s == 1.0
    ensures (x * c - y * s) * c + (x * s + y * c) * s == x
    ensures -(x * c - y * s) * s + (x * s + y * c) * c == y
    ensures (x * c + y * s) * c - (-x * s + y * c) * s == x
    ensures (x * c + y * s) * s + (-x * s + y * c) * c == y
  {
    assert (x * c - y * s) * c + (x * s + y * c) * s == x * (c * c + s * s);
    assert -(x * c - y * s) * s + (x * s + y * c) * c == y * (c * c + s * s);
    assert (x * c + y * s) * c - (-x * s + y * c) * s == x * (c * c + s * s);
    assert (x * c + y * s) * s + (-x * s + y * c) * c == y * (c * c + s * s);
  }

  lemma RoundTrip(c: real, s: real, p: Vec2d)
    requires c * c + s * s == 1.0
    ensures Global2Local(c, s, Local2Global(c, s, p)) == p
    ensures Local2Global(c, s, Global2Local(c, s, p)) == p
  {
    TurnBack(c, s, p.x, p.y);
  }

  /** Passing to the local frame and back changes nothing. */
  lemma FramesInverse(r: Rect, p: Vec2d)
    requires Unit(r)
    ensures ToGlobal(r, ToLocal(r, p)) == p && ToLocal(r, ToGlobal(r, p)) == p
  {
    hide Local2Global, Global2Local;
    RoundTrip(r.c, r.s, Sub(p, r.center));
    RoundTrip(r.c, r.s, p);
    assert Add(r.center, Sub(p, r.center)) == p;
    assert Sub(ToGlobal(r, p), r.center) == Local2Global(r.c, r.s, p);
  }

  // ----- The rectangle in terms of its heading -----

  /** The point at `along` in the direction of the heading and `across` to its left, from the centre. */
  function AlongHeading(r: Rect, along: real, across: real): Vec2d {
    Add(r.center, Add(Scale(Vec2d(r.c, r.s), along), Scale(Vec2d(-r.s, r.c), across)))
  }

  lemma GlobalIsAlongHeading(r: Rect, p: Vec2d)
    ensures ToGlobal(r, p) == AlongHeading(r, p.x, p.y)
  {
  }

  /** A rectangle holds the points that are at most its half sizes along and across its heading. */
  lemma ContainsMeans(r: Rect, p: Vec2d)
    requires Unit(r)
    ensures Contains(r, p) <==>
            exists along: real, across: real ::
              -r.hl <= along <= r.hl && -r.hw <= across <= r.hw && p == AlongHeading(r, along, across)
  {
    hide ToLocal, ToGlobal, AlongHeading;
    FramesInverse(r, p);
    GlobalIsAlongHeading(r, ToLocal(r, p));
    forall along: real, across: real | p == AlongHeading(r, along, across)
      ensures ToLocal(r, p) == Vec2d(along, across)
    {
      FramesInverse(r, Vec2d(along, across));
      GlobalIsAlongHeading(r, Vec2d(along, across));
    }
  }

  /** The points differ by at most the tolerance along the heading and across it. */
  predicate NearInFrame(r: Rect, p: Vec2d, q: Vec2d, tolerance: real) {
    Abs(Dot(Sub(p, q), Vec2d(r.c, r.s))) <= tolerance && Abs(Dot(Sub(p, q), Vec2d(-r.s, r.c))) <= tolerance
  }

  ghost predicate NearlyContains(r: Rect, p: Vec2d, tolerance: real) {
    exists q: Vec2d :: Contains(r, q) && NearInFrame(r, p, q, tolerance)
  }

  lemma RotationLinear(c: real, s: real, p: Vec2d, q: Vec2d)
    ensures Global2Local(c, s, Sub(p, q)) == Sub(Global2Local(c, s, p), Global2Local(c, s, q))
  {
  }

  lemma LocalDifference(r: Rect, p: Vec2d, q: Vec2d)
    ensures Sub(ToLocal(r, p), ToLocal(r, q)) == Global2Local(r.c, r.s, Sub(p, q))
  {
    hide Global2Local;
    RotationLinear(r.c, r.s, Sub(p, r.center), Sub(q, r.center));
    assert Sub(Sub(p, r.center), Sub(q, r.center)) == Sub(p, q);
  }

  lemma NearInLocalFrame(r: Rect, p: Vec2d, q: Vec2d, tolerance: real)
    ensures NearInFrame(r, p, q, tolerance) <==>
            Abs(ToLocal(r, p).x - ToLocal(r, q).x) <= tolerance && Abs(ToLocal(r, p).y - ToLocal(r, q).y) <= tolerance
  {
    hide ToLocal;
    LocalDifference(r, p, q);
  }

  /** The coordinate of a strip of half width `h` nearest to `x`. */
  function Clamped(h: real, x: real): real {
    if h < x then h else if x < -h then -h else x
  }

  /** Enlarging the half sizes by the tolerance takes in the points that are that near. */
  lemma NearlyContainsExactly(r: Rect, p: Vec2d, tolerance: real)
    requires Proper(r) && 0.0 <= tolerance
    ensures NearlyContains(r, p, tolerance) <==>
            Abs(ToLocal(r, p).x) <= r.hl + tolerance && Abs(ToLocal(r, p).y) <= r.hw + tolerance
  {
    hide ToLocal, ToGlobal, NearInFrame;
    var local := ToLocal(r, p);
    var near := Vec2d(Clamped(r.hl, local.x), Clamped(r.hw, local.y));
    FramesInverse(r, near);
    NearInLocalFrame(r, p, ToGlobal(r, near), tolerance);
    assert Contains(r, ToGlobal(r, near));
    if NearlyContains(r, p, tolerance) {
      var q: Vec2d :| Contains(r, q) && NearInFrame(r, p, q, tolerance);
      NearInLocalFrame(r, p, q, tolerance);
    }
  }

  lemma RotationKeepsLength(c: real, s: real, p: Vec2d)
    requires c * c + s * s == 1.0
    ensures SqrLength(Global2Local(c, s, p)) == SqrLength(p)
  {
    Lagrange(p.x, p.y, c, s);
    assert Global2Local(c, s, p).y == -(p.x * s - c * p.y);
    NegSquare(p.x * s - c * p.y);
    assert SqrLength(p) * (c * c + s * s) == SqrLength(p);
  }

  /** Distances are the same in both frames. */
  lemma LocalDistance(r: Rect, p: Vec2d, q: Vec2d)
    requires Unit(r)
    ensures Dist2(ToLocal(r, p), ToLocal(r, q)) == Dist2(p, q)
  {
    hide Global2Local, SqrLength, ToLocal;
    LocalDifference(r, p, q);
    RotationKeepsLength(r.c, r.s, Sub(p, q));
  }

  lemma RotationMoves(c: real, s: real, p: Vec2d, d: Vec2d, t: real)
    ensures Global2Local(c, s, Add(p, Scale(d, t))) == Add(Global2Local(c, s, p), Scale(Global2Local(c, s, d), t))
  {
    assert (d.x * t) * c == (d.x * c) * t && (d.y * t) * s == (d.y * s) * t;
    assert (d.x * t) * s == (d.x * s) * t && (d.y * t) * c == (d.y * c) * t;
  }

  /** The local frame maps segments to segments. */
  lemma LocalAt(r: Rect, a: Vec2d, b: Vec2d, t: real)
    ensures ToLocal(r, At(a, b, t)) == At(ToLocal(r, a), ToLocal(r, b), t)
  {
    hide At, Global2Local, Scale;
    AtVector(a, b, t);
    AtVector(ToLocal(r, a), ToLocal(r, b), t);
    LocalDifference(r, b, a);
    RotationMoves(r.c, r.s, Sub(a, r.center), Sub(b, a), t);
    assert Sub(Add(a, Scale(Sub(b, a), t)), r.center) == Add(Sub(a, r.center), Scale(Sub(b, a), t));
  }

  /** A distance found in the local frame is the distance. */
  lemma FromLocalFrame(r: Rect, a: Vec2d, b: Vec2d, d: real)
    requires Unit(r) && IsDistance(r.hl, r.hw, ToLocal(r, a), ToLocal(r, b), d)
    ensures IsSegmentDistance(r, a, b, d)
  {
    hide At, Dist2, ToLocal, ToGlobal, InRect;
    forall t: real, p: Vec2d
      ensures Dist2(At(a, b, t), p) == Dist2(At(ToLocal(r, a), ToLocal(r, b), t), ToLocal(r, p))
    {
      LocalDistance(r, At(a, b, t), p);
      LocalAt(r, a, b, t);
    }
    var t: real, q: Vec2d :|
      0.0 <= t <= 1.0 && InRect(r.hl, r.hw, q) && Dist2(At(ToLocal(r, a), ToLocal(r, b), t), q) == d * d;
    FramesInverse(r, q);
    assert Contains(r, ToGlobal(r, q));
    forall t: real, p: Vec2d | 0.0 <= t <= 1.0 && Contains(r, p)
      ensures d * d <= Dist2(At(a, b, t), p)
    {
      assert InRect(r.hl, r.hw, ToLocal(r, p));
    }
  }

  /** A rectangle is convex. */
  lemma Convex(r: Rect, p: Vec2d, q: Vec2d, t: real)
    requires Contains(r, p) && Contains(r, q) && 0.0 <= t <= 1.0
    ensures Contains(r, At(p, q, t))
  {
    hide At, ToLocal;
    LocalAt(r, p, q, t);
    AtBounds(ToLocal(r, p), ToLocal(r, q), t);
  }

  // ----- Corners and edges -----

  /** The corners in the order of InitCorners (box2d.h:425-429), in the local frame. */
  function LocalCorner(r: Rect, i: nat): Vec2d
    requires i < 4
  {
    if i == 0 then Vec2d(r.hl, -r.hw)
    else if i == 1 then Vec2d(r.hl, r.hw)
    else if i == 2 then Vec2d(-r.hl, r.hw)
    else Vec2d(-r.hl, -r.hw)
  }

  function Corner(r: Rect, i: nat): Vec2d
    requires i < 4
  {
    ToGlobal(r, LocalCorner(r, i))
  }

  function Next(i: nat): (j: nat)
    requires i < 4
    ensures j < 4
  {
    if i == 3 then 0 else i + 1
  }

  lemma CornerContained(r: Rect, i: nat)
    requires Proper(r) && i < 4
    ensures Contains(r, Corner(r, i)) && ToLocal(r, Corner(r, i)) == LocalCorner(r, i)
  {
    hide ToLocal, ToGlobal;
    FramesInverse(r, LocalCorner(r, i));
  }

  /** `p` is the point at `t` of the edge from corner `i` to the next corner. */
  predicate OnEdge(r: Rect, i: nat, t: real, p: Vec2d) {
    i < 4 && 0.0 <= t <= 1.0 && p == At(Corner(r, i), Corner(r, Next(i)), t)
  }

  predicate OnBoundary(hx: real, hy: real, p: Vec2d) {
    InRect(hx, hy, p) && (Abs(p.x) == hx || Abs(p.y) == hy)
  }

  /** The side towards which `x` leaves the strip of half width `h`. */
  function Side(h: real, x: real): real {
    if x < 0.0 then -h else h
  }

  lemma LerpZero(x: real, y: real)
    ensures Lerp(x, y, 0.0) == x
  {
  }

  lemma Monotone(x: real, y: real, s: real, t: real)
    requires s <= t
    ensures x <= y ==> Lerp(x, y, s) <= Lerp(x, y, t)
    ensures y <= x ==> Lerp(x, y, t) <= Lerp(x, y, s)
  {
    hide Lerp;
    LerpDifference(x, y, t, s);
    MulSign(y - x, t - s);
  }

  lemma Exit(hx: real, hy: real, p: Vec2d, q: Vec2d) returns (u: real)
    requires InRect(hx, hy, p) && !InRect(hx, hy, q)
    ensures 0.0 <= u <= 1.0 && OnBoundary(hx, hy, At(p, q, u))
  {
    hide Lerp;
    if Abs(q.x) <= hx {
      u := Reach(p.y, q.y, Side(hy, q.y));
      AtBounds(p, q, u);
    } else if Abs(q.y) <= hy {
      u := Reach(p.x, q.x, Side(hx, q.x));
      AtBounds(p, q, u);
    } else {
      var ux := Reach(p.x, q.x, Side(hx, q.x));
      var uy := Reach(p.y, q.y, Side(hy, q.y));
      u := Min(ux, uy);
      Monotone(p.x, q.x, 0.0, u);
      Monotone(p.x, q.x, u, ux);
      Monotone(p.y, q.y, 0.0, u);
      Monotone(p.y, q.y, u, uy);
      LerpZero(p.x, q.x);
      LerpZero(p.y, q.y);
    }
  }

  lemma LerpSame(x: real, t: real)
    ensures Lerp(x, x, t) == x
  {
  }

  lemma BoundaryEdge(r: Rect, p: Vec2d) returns (i: nat, t: real)
    requires Proper(r) && OnBoundary(r.hl, r.hw, p)
    ensures i < 4 && 0.0 <= t <= 1.0 && p == At(LocalCorner(r, i), LocalCorner(r, Next(i)), t)
  {
    hide Lerp;
    i := if p.x == r.hl then 0 else if p.y == r.hw then 1 else if p.x == -r.hl then 2 else 3;
    if i == 0 || i == 2 {
      t := Reach(LocalCorner(r, i).y, LocalCorner(r, Next(i)).y, p.y);
    } else {
      t := Reach(LocalCorner(r, i).x, LocalCorner(r, Next(i)).x, p.x);
    }
    LerpSame(p.x, t);
    LerpSame(p.y, t);
  }

  lemma EdgeToGlobal(r: Rect, i: nat, t: real, p: Vec2d)
    requires Proper(r) && i < 4 && 0.0 <= t <= 1.0
    requires ToLocal(r, p) == At(LocalCorner(r, i), LocalCorner(r, Next(i)), t)
    ensures OnEdge(r, i, t, p)
  {
    hide At, ToLocal, ToGlobal;
    CornerContained(r, i);
    CornerContained(r, Next(i));
    var q := At(Corner(r, i), Corner(r, Next(i)), t);
    LocalAt(r, Corner(r, i), Corner(r, Next(i)), t);
    FramesInverse(r, p);
    FramesInverse(r, q);
  }

  /** A segment that leaves the rectangle crosses one of its edges. */
  lemma LeavesThroughEdge(r: Rect, p: Vec2d, q: Vec2d) returns (u: real, i: nat, t: real)
    requires Proper(r) && Contains(r, p) && !Contains(r, q)
    ensures 0.0 <= u <= 1.0 && OnEdge(r, i, t, At(p, q, u))
  {
    hide At, ToLocal, ToGlobal;
    u := Exit(r.hl, r.hw, ToLocal(r, p), ToLocal(r, q));
    LocalAt(r, p, q, u);
    i, t := BoundaryEdge(r, ToLocal(r, At(p, q, u)));
    EdgeToGlobal(r, i, t, At(p, q, u));
  }

  lemma EdgeContained(r: Rect, i: nat, t: real)
    requires Proper(r) && i < 4 && 0.0 <= t <= 1.0
    ensures Contains(r, At(Corner(r, i), Corner(r, Next(i)), t))
  {
    hide Contains, At;
    CornerContained(r, i);
    CornerContained(r, Next(i));
    Convex(r, Corner(r, i), Corner(r, Next(i)), t);
  }

  /** No point of edge `i` of `r'` is closer than `m` to `r`. */
  ghost predicate EdgeAway(r: Rect, r': Rect, i: nat, m: real)
    requires i < 4
  {
    forall t: real, p: Vec2d :: 0.0 <= t <= 1.0 && Contains(r, p) ==>
      m * m <= Dist2(At(Corner(r', i), Corner(r', Next(i)), t), p)
  }

  /** The edges of `r'` keep at least distance `m` from `r`. */
  ghost predicate EdgesApart(r: Rect, r': Rect, m: real) {
    forall i: nat :: i < 4 ==> EdgeAway(r, r', i, m)
  }

  lemma ShorterSquare(x: real, k: real, y: real)
    requires -1.0 <= k <= 0.0 && y == x * k
    ensures y * y <= x * x
  {
    assert y * y == (x * x) * (k * k);
    assert k * k <= 1.0 by {
      MulSign(1.0 + k, 1.0 - k);
    }
    MulSign(x * x, 1.0 - k * k);
  }

  lemma ShorterScale(d: Vec2d, k: real)
    requires -1.0 <= k <= 0.0
    ensures SqrLength(Scale(d, k)) <= SqrLength(d)
  {
    var e := Scale(d, k);
    ShorterSquare(d.x, k, e.x);
    ShorterSquare(d.y, k, e.y);
  }

  lemma PartWay(q: Vec2d, p: Vec2d, u: real)
    requires 0.0 <= u <= 1.0
    ensures Dist2(At(q, p, u), p) <= Dist2(q, p)
  {
    hide SqrLength, At, Scale;
    AtDifference(q, p, u, 1.0);
    AtEnds(q, p);
    ShorterScale(Sub(p, q), u - 1.0);
    SubSquare(p, q);
  }

  /**
   * Two rectangles, neither of which contains corner 0 of the other, are as far apart as
   * the edges of the second are from the first (box2d.h:287-306).
   */
  lemma EdgesDecide(r: Rect, r': Rect, m: real)
    requires Proper(r) && Proper(r') && EdgesApart(r, r', m)
    requires !Contains(r', Corner(r, 0))
    ensures forall p: Vec2d, q: Vec2d :: Contains(r, p) && Contains(r', q) ==> m * m <= Dist2(q, p)
  {
    hide At, Dist2, Contains, Corner;
    forall p: Vec2d, q: Vec2d | Contains(r, p) && Contains(r', q)
      ensures m * m <= Dist2(q, p)
    {
      if Contains(r', p) {
        CornerContained(r, 0);
        var u, i, t := LeavesThroughEdge(r', p, Corner(r, 0));
        Convex(r, p, Corner(r, 0), u);
        DistNonnegative(At(p, Corner(r, 0), u), At(p, Corner(r, 0), u));
        DistNonnegative(q, p);
        assert EdgeAway(r, r', i, m);
        assert m * m <= Dist2(At(Corner(r', i), Corner(r', Next(i)), t), At(p, Corner(r, 0), u));
      } else {
        var u, i, t := LeavesThroughEdge(r', q, p);
        assert EdgeAway(r, r', i, m);
        assert m * m <= Dist2(At(Corner(r', i), Corner(r', Next(i)), t), p);
        PartWay(q, p, u);
      }
    }
  }
}
