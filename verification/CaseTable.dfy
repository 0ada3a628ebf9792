/** The ten-way case table of the box-segment distance (box2d.h:233-279). */
module CaseTable {
  import opened Reals
  import opened Planar
  import opened RectSegment
  import opened NormalPosition

  /** What the C++ code knows of a segment handed to PtSegDistance. */
  ghost predicate Measured(sqrt: real -> real, a: Vec2d, b: Vec2d, length: real) {
    IsSqrt(sqrt) && 0.0 < length && length * length == SqrLength(Sub(b, a))
  }

  /** The distance from corner `c` is the distance from the rectangle, once its foot has a supporting direction. */
  lemma CornerDistance(sqrt: real -> real, hx: real, hy: real, c: Vec2d, a: Vec2d, b: Vec2d, length: real)
    requires Measured(sqrt, a, b, length)
    requires forall t: real :: Foot(a, b, t, Sub(At(a, b, t), c)) ==> Support(hx, hy, c, Sub(At(a, b, t), c))
    ensures IsDistance(hx, hy, a, b, PtSegDistance(sqrt, c, a, b, length))
  {
    hide Foot, Support, At, PtSegDistance, IsDistance, SqrLength;
    var t := PtSegFoot(sqrt, c, a, b, length);
    Certificate(hx, hy, a, b, t, c, PtSegDistance(sqrt, c, a, b, length));
  }

  lemma UpperRightSupport(hx: real, hy: real, a: Vec2d, b: Vec2d, t: real)
    requires 0.0 <= hx && 0.0 <= hy && hx <= a.x && hx <= b.x
    requires || (hy <= a.y && hy <= b.y)
             || (a.x <= b.x && hy <= a.y && b.y <= a.y)
             || (b.x <= a.x && hy <= b.y && a.y <= b.y)
    requires Foot(a, b, t, Sub(At(a, b, t), Vec2d(hx, hy)))
    ensures Support(hx, hy, Vec2d(hx, hy), Sub(At(a, b, t), Vec2d(hx, hy)))
  {
    hide Lerp;
    AtBounds(a, b, t);
    AtEnds(a, b);
    var n, d := Sub(At(a, b, t), Vec2d(hx, hy)), Sub(b, a);
    if n.y < 0.0 {
      if a.x <= b.x && hy <= a.y {
        Descending(t, n.x, n.y, d.x, d.y);
      } else {
        Descending(1.0 - t, n.x, n.y, -d.x, -d.y);
      }
    }
  }

  /** The segment stays on the right of the rectangle and is closest to its upper right corner. */
  lemma UpperRight(sqrt: real -> real, hx: real, hy: real, a: Vec2d, b: Vec2d, length: real)
    requires Measured(sqrt, a, b, length) && 0.0 <= hx && 0.0 <= hy
    requires hx <= a.x && hx <= b.x
    requires || (hy <= a.y && hy <= b.y)
             || (a.x <= b.x && hy <= a.y && b.y <= a.y)
             || (b.x <= a.x && hy <= b.y && a.y <= b.y)
    ensures IsDistance(hx, hy, a, b, PtSegDistance(sqrt, Vec2d(hx, hy), a, b, length))
  {
    hide IsDistance, PtSegDistance;
    var c := Vec2d(hx, hy);
    forall t: real | Foot(a, b, t, Sub(At(a, b, t), c))
      ensures Support(hx, hy, c, Sub(At(a, b, t), c))
    {
      UpperRightSupport(hx, hy, a, b, t);
    }
    CornerDistance(sqrt, hx, hy, c, a, b, length);
  }

  lemma LowerRightSupport(hx: real, hy: real, a: Vec2d, b: Vec2d, t: real)
    requires 0.0 <= hx && 0.0 <= hy && hx <= b.x <= a.x && b.y <= -hy && b.y <= a.y
    requires Foot(a, b, t, Sub(At(a, b, t), Vec2d(hx, -hy)))
    ensures Support(hx, hy, Vec2d(hx, -hy), Sub(At(a, b, t), Vec2d(hx, -hy)))
  {
    hide Lerp;
    AtBounds(a, b, t);
    AtEnds(a, b);
    var n, d := Sub(At(a, b, t), Vec2d(hx, -hy)), Sub(b, a);
    if 0.0 < n.y {
      Descending(1.0 - t, n.x, -n.y, -d.x, d.y);
    }
  }

  /** The segment comes closer to the right side while it descends, and ends below it. */
  lemma LowerRight(sqrt: real -> real, hx: real, hy: real, a: Vec2d, b: Vec2d, length: real)
    requires Measured(sqrt, a, b, length) && 0.0 <= hx && 0.0 <= hy
    requires hx <= b.x <= a.x && b.y <= -hy && b.y <= a.y
    ensures IsDistance(hx, hy, a, b, PtSegDistance(sqrt, Vec2d(hx, -hy), a, b, length))
  {
    hide IsDistance, PtSegDistance;
    var c := Vec2d(hx, -hy);
    forall t: real | Foot(a, b, t, Sub(At(a, b, t), c))
      ensures Support(hx, hy, c, Sub(At(a, b, t), c))
    {
      LowerRightSupport(hx, hy, a, b, t);
    }
    CornerDistance(sqrt, hx, hy, c, a, b, length);
  }

  /** The segment runs from above the right side to below the rectangle and passes corner (hx, -hy) on its right. */
  lemma PassesLowerRight(sqrt: real -> real, hx: real, hy: real, a: Vec2d, b: Vec2d, length: real)
    requires Measured(sqrt, a, b, length) && 0.0 <= hx && 0.0 <= hy
    requires hx <= a.x && -hy <= a.y && b.x <= hx && b.y <= -hy
    requires CrossProd(b.x - a.x, b.y - a.y, hx - a.x, -hy - a.y) <= 0.0
    ensures IsDistance(hx, hy, a, b, PtSegDistance(sqrt, Vec2d(hx, -hy), a, b, length))
  {
    hide IsDistance, PtSegDistance, CrossProd;
    var c := Vec2d(hx, -hy);
    forall t: real | Foot(a, b, t, Sub(At(a, b, t), c))
      ensures Support(hx, hy, c, Sub(At(a, b, t), c))
    {
      CrossShift(a, b, c, t);
      var n, d := Sub(At(a, b, t), c), Sub(b, a);
      BeyondCorner(t, a.x - hx, a.y + hy, n.x, n.y, d.x, d.y);
    }
    CornerDistance(sqrt, hx, hy, c, a, b, length);
  }

  lemma Mirror(nx: real, ny: real, dx: real, dy: real, t: real)
    ensures CrossProd(dx, -dy, nx, -ny) == -CrossProd(dx, dy, nx, ny)
    ensures CrossProd(dy, dx, ny, nx) == -CrossProd(dx, dy, nx, ny)
    ensures InnerProd(nx, -ny, dx, -dy) == InnerProd(nx, ny, dx, dy)
    ensures InnerProd(ny, nx, dy, dx) == InnerProd(nx, ny, dx, dy)
    ensures -(t * dy) == t * (-dy)
  {
  }

  /**
   * The segment runs from below the top on the right to above the rectangle and passes corner (hx, hy) on its
   * right.
   */
  lemma PassesUpperRight(sqrt: real -> real, hx: real, hy: real, a: Vec2d, b: Vec2d, length: real)
    requires Measured(sqrt, a, b, length) && 0.0 <= hx && 0.0 <= hy
    requires hx <= a.x && a.y <= hy && b.x <= hx && hy <= b.y
    requires 0.0 <= CrossProd(b.x - a.x, b.y - a.y, hx - a.x, hy - a.y)
    ensures IsDistance(hx, hy, a, b, PtSegDistance(sqrt, Vec2d(hx, hy), a, b, length))
  {
    hide IsDistance, PtSegDistance, CrossProd, InnerProd;
    var c := Vec2d(hx, hy);
    forall t: real | Foot(a, b, t, Sub(At(a, b, t), c))
      ensures Support(hx, hy, c, Sub(At(a, b, t), c))
    {
      CrossShift(a, b, c, t);
      var n, d := Sub(At(a, b, t), c), Sub(b, a);
      Mirror(n.x, n.y, d.x, d.y, t);
      BeyondCorner(t, a.x - hx, hy - a.y, n.x, -n.y, d.x, -d.y);
    }
    CornerDistance(sqrt, hx, hy, c, a, b, length);
  }

  /** The segment runs from right of the rectangle's left side to left of it and passes corner (-hx, hy) above. */
  lemma PassesUpperLeft(sqrt: real -> real, hx: real, hy: real, a: Vec2d, b: Vec2d, length: real)
    requires Measured(sqrt, a, b, length) && 0.0 <= hx && 0.0 <= hy
    requires -hx <= a.x && hy <= a.y && b.x <= -hx && b.y <= hy
    requires 0.0 <= CrossProd(b.x - a.x, b.y - a.y, -hx - a.x, hy - a.y)
    ensures IsDistance(hx, hy, a, b, PtSegDistance(sqrt, Vec2d(-hx, hy), a, b, length))
  {
    hide IsDistance, PtSegDistance, CrossProd, InnerProd;
    var c := Vec2d(-hx, hy);
    forall t: real | Foot(a, b, t, Sub(At(a, b, t), c))
      ensures Support(hx, hy, c, Sub(At(a, b, t), c))
    {
      CrossShift(a, b, c, t);
      var n, d := Sub(At(a, b, t), c), Sub(b, a);
      Mirror(n.x, n.y, d.x, d.y, t);
      BeyondCorner(t, a.y - hy, a.x + hx, n.y, n.x, d.y, d.x);
    }
    CornerDistance(sqrt, hx, hy, c, a, b, length);
  }

  // ----- Side cases: the closest point of the rectangle is on its right side -----

  lemma Horizontal(q: Vec2d, x: real, d: Vec2d)
    ensures Dist2(q, Vec2d(x, q.y)) == (q.x - x) * (q.x - x)
    ensures Dot(Sub(q, Vec2d(x, q.y)), d) == (q.x - x) * d.x
  {
  }

  /**
   * The end (`t` = 1) or start (`t` = 0) of the segment beside the right side is closest if the segment moves away
   * from it.
   */
  lemma BesideRight(hx: real, hy: real, a: Vec2d, b: Vec2d, t: real)
    requires 0.0 <= hx && (t == 0.0 || t == 1.0) && hx <= At(a, b, t).x && -hy <= At(a, b, t).y <= hy
    requires if t == 0.0 then a.x <= b.x else b.x <= a.x
    ensures IsDistance(hx, hy, a, b, At(a, b, t).x - hx)
  {
    hide IsDistance, At, Dist2, Dot;
    AtEnds(a, b);
    var q := At(a, b, t);
    Horizontal(q, hx, Sub(b, a));
    MulSign(q.x - hx, b.x - a.x);
    Certificate(hx, hy, a, b, t, Vec2d(hx, q.y), q.x - hx);
  }

  // ----- Touching cases -----

  /** Where the segment is level with `c`, and on which side of `c` it is there. */
  lemma ReachY(a: Vec2d, b: Vec2d, c: Vec2d) returns (t: real)
    requires b.y <= c.y <= a.y && b.y < a.y
    ensures 0.0 <= t <= 1.0 && At(a, b, t).y == c.y
    ensures var cross := CrossProd(b.x - a.x, b.y - a.y, c.x - a.x, c.y - a.y);
            (0.0 <= cross ==> At(a, b, t).x <= c.x) && (0.0 < cross ==> At(a, b, t).x < c.x)
  {
    t := Reach(a.y, b.y, c.y);
    CrossOffsetY(a, b, c, t);
    OffsetSign(At(a, b, t).x - c.x, b.y - a.y, CrossProd(b.x - a.x, b.y - a.y, c.x - a.x, c.y - a.y));
  }

  /** From right of the rectangle to its lower side: the segment enters if it passes corner (hx, -hy) on the left. */
  lemma EntersBottom(hx: real, hy: real, a: Vec2d, b: Vec2d)
    requires 0.0 <= hx && 0.0 <= hy && hx <= a.x && hy <= a.y && -hx <= b.x <= hx && b.y <= -hy
    requires 0.0 <= CrossProd(b.x - a.x, b.y - a.y, hx - a.x, -hy - a.y)
    ensures IsDistance(hx, hy, a, b, 0.0)
  {
    hide IsDistance, At, CrossProd;
    if a.y == b.y {
      AtEnds(a, b);
      Touching(hx, hy, a, b, 1.0);
    } else {
      var t := ReachY(a, b, Vec2d(hx, -hy));
      AtBounds(a, b, t);
      Touching(hx, hy, a, b, t);
    }
  }

  lemma ReachX(a: Vec2d, b: Vec2d, c: Vec2d) returns (t: real)
    requires b.x <= c.x <= a.x && b.x < a.x
    ensures 0.0 <= t <= 1.0 && At(a, b, t).x == c.x
    ensures CrossProd(b.x - a.x, b.y - a.y, c.x - a.x, c.y - a.y) <= 0.0 ==> At(a, b, t).y <= c.y
  {
    t := Reach(a.x, b.x, c.x);
    CrossOffsetX(a, b, c, t);
    OffsetSign(At(a, b, t).y - c.y, b.x - a.x, -CrossProd(b.x - a.x, b.y - a.y, c.x - a.x, c.y - a.y));
  }

  /** From right of the rectangle to above it: the segment enters if it passes corner (hx, hy) below. */
  lemma EntersRight(hx: real, hy: real, a: Vec2d, b: Vec2d)
    requires 0.0 <= hx && 0.0 <= hy && hx <= a.x && -hy <= a.y <= hy && b.x <= hx && hy <= b.y
    requires b.x < a.x && CrossProd(b.x - a.x, b.y - a.y, hx - a.x, hy - a.y) <= 0.0
    ensures IsDistance(hx, hy, a, b, 0.0)
  {
    hide IsDistance, At, CrossProd;
    var t := ReachX(a, b, Vec2d(hx, hy));
    AtBounds(a, b, t);
    Touching(hx, hy, a, b, t);
  }

  lemma EarlierScalar(dx: real, dy: real, k: real)
    requires dx <= 0.0 && dy <= 0.0
    ensures 0.0 < Scale(Vec2d(dx, dy), k).x ==> 0.0 <= Scale(Vec2d(dx, dy), k).y
  {
    MulSign(dx, k);
    MulSign(dy, k);
  }

  lemma Earlier(a: Vec2d, b: Vec2d, s: real, t: real)
    requires b.x <= a.x && b.y <= a.y && At(a, b, t).x < At(a, b, s).x
    ensures At(a, b, t).y <= At(a, b, s).y
  {
    hide At, Scale;
    AtDifference(a, b, s, t);
    EarlierScalar(b.x - a.x, b.y - a.y, s - t);
  }

  /** From above on the right to below on the left, between the corners (hx, -hy) and (-hx, hy). */
  lemma CrossesDiagonal(hx: real, hy: real, a: Vec2d, b: Vec2d)
    requires 0.0 <= hx && 0.0 <= hy && hx <= a.x && hy <= a.y && b.x <= -hx && b.y <= -hy && b.y < a.y
    requires 0.0 < CrossProd(b.x - a.x, b.y - a.y, hx - a.x, -hy - a.y)
    requires CrossProd(b.x - a.x, b.y - a.y, -hx - a.x, hy - a.y) <= 0.0
    ensures IsDistance(hx, hy, a, b, 0.0)
  {
    hide IsDistance, At, CrossProd;
    var t := ReachY(a, b, Vec2d(hx, -hy));
    if -hx <= At(a, b, t).x {
      Touching(hx, hy, a, b, t);
    } else {
      AtBounds(a, b, t);
      var s := ReachX(a, b, Vec2d(-hx, hy));
      Earlier(a, b, s, t);
      Touching(hx, hy, a, b, s);
    }
  }

  lemma Slanted(a: Vec2d, b: Vec2d, hx: real, hy: real)
    requires 0.0 <= hy && hy <= a.y && b.y <= -hy && 0.0 < CrossProd(b.x - a.x, b.y - a.y, hx - a.x, -hy - a.y)
    ensures b.y < a.y
  {
  }

  // ----- The table -----

  /** `g` says on which side of the strip of half width `h` the coordinate `x` lies. */
  predicate InZone(g: int, x: real, h: real) {
    (g == 1 && h <= x) || (g == -1 && x <= -h) || (g == 0 && -h < x < h)
  }

  ghost predicate Normal(hx: real, hy: real, gx1: int, gy1: int, gx2: int, gy2: int, a: Vec2d, b: Vec2d) {
    0.0 <= hx && 0.0 <= hy &&
    InZone(gx1, a.x, hx) && InZone(gy1, a.y, hy) && InZone(gx2, b.x, hx) && InZone(gy2, b.y, hy) &&
    !(gx2 == 0 && gy2 == 0) &&
    gx1 == 1 && ((gy1 == 1 && gy2 <= gx2) || (gy1 == 0 && 0 <= gy2))
  }

  /** The switch for a segment that starts beyond the corner (hx, hy) (box2d.h:233-261). */
  method FromCorner(sqrt: real -> real, hx: real, hy: real, gx2: int, gy2: int, a: Vec2d, b: Vec2d, length: real)
    returns (d: real)
    requires Measured(sqrt, a, b, length) && Normal(hx, hy, 1, 1, gx2, gy2, a, b)
    ensures IsDistance(hx, hy, a, b, d)
  {
    hide IsDistance, PtSegDistance, IsSqrt, SqrLength, CrossProd, Lerp;
    AtEnds(a, b);
    var region := gx2 * 3 + gy2;
    if region == 4 {
      d := PtSegDistance(sqrt, Vec2d(hx, hy), a, b, length);
      UpperRight(sqrt, hx, hy, a, b, length);
    } else if region == 3 {
      if a.x > b.x {
        d := b.x - hx;
        BesideRight(hx, hy, a, b, 1.0);
      } else {
        d := PtSegDistance(sqrt, Vec2d(hx, hy), a, b, length);
        UpperRight(sqrt, hx, hy, a, b, length);
      }
    } else if region == 2 {
      if a.x > b.x {
        d := PtSegDistance(sqrt, Vec2d(hx, -hy), a, b, length);
        LowerRight(sqrt, hx, hy, a, b, length);
      } else {
        d := PtSegDistance(sqrt, Vec2d(hx, hy), a, b, length);
        UpperRight(sqrt, hx, hy, a, b, length);
      }
    } else if region == -1 {
      if CrossProd(b.x - a.x, b.y - a.y, hx - a.x, -hy - a.y) >= 0.0 {
        d := 0.0;
        EntersBottom(hx, hy, a, b);
      } else {
        d := PtSegDistance(sqrt, Vec2d(hx, -hy), a, b, length);
        PassesLowerRight(sqrt, hx, hy, a, b, length);
      }
    } else if region == -4 {
      if CrossProd(b.x - a.x, b.y - a.y, hx - a.x, -hy - a.y) <= 0.0 {
        d := PtSegDistance(sqrt, Vec2d(hx, -hy), a, b, length);
        PassesLowerRight(sqrt, hx, hy, a, b, length);
      } else if CrossProd(b.x - a.x, b.y - a.y, -hx - a.x, hy - a.y) <= 0.0 {
        d := 0.0;
        Slanted(a, b, hx, hy);
        CrossesDiagonal(hx, hy, a, b);
      } else {
        d := PtSegDistance(sqrt, Vec2d(-hx, hy), a, b, length);
        PassesUpperLeft(sqrt, hx, hy, a, b, length);
      }
    } else {
      assert false;
      d := 0.0;
    }
  }

  /** The switch for a segment that starts beside the right side (box2d.h:262-279). */
  method FromSide(sqrt: real -> real, hx: real, hy: real, gx2: int, gy2: int, a: Vec2d, b: Vec2d, length: real)
    returns (d: real)
    requires Measured(sqrt, a, b, length) && Normal(hx, hy, 1, 0, gx2, gy2, a, b)
    ensures IsDistance(hx, hy, a, b, d)
  {
    hide IsDistance, PtSegDistance, IsSqrt, SqrLength, CrossProd, Lerp;
    AtEnds(a, b);
    var region := gx2 * 3 + gy2;
    if region == 4 {
      if a.x < b.x {
        d := a.x - hx;
        BesideRight(hx, hy, a, b, 0.0);
      } else {
        d := PtSegDistance(sqrt, Vec2d(hx, hy), a, b, length);
        UpperRight(sqrt, hx, hy, a, b, length);
      }
    } else if region == 3 {
      d := Min(a.x, b.x) - hx;
      BesideRight(hx, hy, a, b, if b.x < a.x then 1.0 else 0.0);
    } else if region == 1 || region == -2 {
      if CrossProd(b.x - a.x, b.y - a.y, hx - a.x, hy - a.y) <= 0.0 {
        d := 0.0;
        if a.x == b.x {
          Touching(hx, hy, a, b, 0.0);
        } else {
          EntersRight(hx, hy, a, b);
        }
      } else {
        d := PtSegDistance(sqrt, Vec2d(hx, hy), a, b, length);
        PassesUpperRight(sqrt, hx, hy, a, b, length);
      }
    } else if region == -3 {
      d := 0.0;
      var t := Reach(a.x, b.x, hx);
      AtBounds(a, b, t);
      Touching(hx, hy, a, b, t);
    } else {
      assert false;
      d := 0.0;
    }
  }

  // ----- Bringing the segment into normal position -----

  /** box2d.h:199-200: the side of the strip on which a coordinate lies. */
  function Zone(x: real, h: real): (g: int)
    requires 0.0 <= h
    ensures InZone(g, x, h)
  {
    if x >= h then 1 else if x <= -h then -1 else 0
  }

  /** Reflections and transposition keep the length of a segment. */
  lemma SameLength(a: Vec2d, b: Vec2d)
    ensures SqrLength(Sub(FlipX(b), FlipX(a))) == SqrLength(Sub(b, a))
    ensures SqrLength(Sub(FlipY(b), FlipY(a))) == SqrLength(Sub(b, a))
    ensures SqrLength(Sub(Transpose(b), Transpose(a))) == SqrLength(Sub(b, a))
  {
    assert FlipX(b).x - FlipX(a).x == -(b.x - a.x) && FlipY(b).y - FlipY(a).y == -(b.y - a.y);
    NegSquare(b.x - a.x);
    NegSquare(b.y - a.y);
  }

  lemma InsideTouches(hx: real, hy: real, a: Vec2d, b: Vec2d)
    ensures InRect(hx, hy, a) || InRect(hx, hy, b) ==> IsDistance(hx, hy, a, b, 0.0)
  {
    hide IsDistance, At;
    AtEnds(a, b);
    if InRect(hx, hy, a) {
      Touching(hx, hy, a, b, 0.0);
    } else if InRect(hx, hy, b) {
      Touching(hx, hy, a, b, 1.0);
    }
  }

  /** The distance of a segment from a rectangle in the rectangle's frame (box2d.h:193-283). */
  method LocalDistance(sqrt: real -> real, hx: real, hy: real, a: Vec2d, b: Vec2d, length: real) returns (d: real)
    requires Measured(sqrt, a, b, length) && 0.0 <= hx && 0.0 <= hy
    ensures IsDistance(hx, hy, a, b, d)
  {
    hide IsDistance, IsSqrt, SqrLength, Sub;
    var boxX, boxY := hx, hy;
    var x1, y1 := a.x, a.y;
    var gx1, gy1 := Zone(x1, boxX), Zone(y1, boxY);
    InsideTouches(hx, hy, a, b);
    if gx1 == 0 && gy1 == 0 {
      return 0.0;
    }
    var x2, y2 := b.x, b.y;
    var gx2, gy2 := Zone(x2, boxX), Zone(y2, boxY);
    if gx2 == 0 && gy2 == 0 {
      return 0.0;
    }

    ghost var flippedX := gx1 < 0 || (gx1 == 0 && gx2 < 0);
    SameLength(a, b);
    if gx1 < 0 || (gx1 == 0 && gx2 < 0) {
      x1, gx1 := -x1, -gx1;
      x2, gx2 := -x2, -gx2;
    }
    ghost var a1, b1 := Vec2d(x1, y1), Vec2d(x2, y2);
    ghost var flippedY := gy1 < 0 || (gy1 == 0 && gy2 < 0);
    SameLength(a1, b1);
    if gy1 < 0 || (gy1 == 0 && gy2 < 0) {
      y1, gy1 := -y1, -gy1;
      y2, gy2 := -y2, -gy2;
    }
    ghost var a2, b2 := Vec2d(x1, y1), Vec2d(x2, y2);
    ghost var swapped := gx1 < gy1 || (gx1 == gy1 && gx2 < gy2);
    SameLength(a2, b2);
    if gx1 < gy1 || (gx1 == gy1 && gx2 < gy2) {
      x1, y1 := y1, x1;
      gx1, gy1 := gy1, gx1;
      x2, y2 := y2, x2;
      gx2, gy2 := gy2, gx2;
      boxX, boxY := boxY, boxX;
    }

    if gx1 == 1 && gy1 == 1 {
      d := FromCorner(sqrt, boxX, boxY, gx2, gy2, Vec2d(x1, y1), Vec2d(x2, y2), length);
    } else {
      d := FromSide(sqrt, boxX, boxY, gx2, gy2, Vec2d(x1, y1), Vec2d(x2, y2), length);
    }

    if swapped {
      TransposeSymmetry(hx, hy, a2, b2, d);
    }
    if flippedY {
      FlipYSymmetry(hx, hy, a1, b1, d);
    }
    if flippedX {
      FlipXSymmetry(hx, hy, a, b, d);
    }
  }
}
