/**
 * The case table of the box-segment distance (box2d.h:189-284, 451-469), for a segment
 * already flipped and transposed into normal position.
 */
module NormalPosition {
  import opened Reals
  import opened Planar
  import opened RectSegment

  /** The distance of a point from a segment of the given length (box2d.h:451-469). */
  function PtSegDistance(sqrt: real -> real, query: Vec2d, a: Vec2d, b: Vec2d, length: real): real {
    var x0, y0 := query.x - a.x, query.y - a.y;
    var dx, dy := b.x - a.x, b.y - a.y;
    var proj := InnerProd(x0, y0, dx, dy);
    if proj <= 0.0 then
      Hypot(sqrt, x0, y0)
    else if proj >= length * length then
      Hypot(sqrt, x0 - dx, y0 - dy)
    else
      Abs(CrossProd(x0, y0, dx, dy)) / length
  }

  lemma Lagrange(x: real, y: real, u: real, v: real)
    ensures (x * x + y * y) * (u * u + v * v) == (x * u + y * v) * (x * u + y * v) + (x * v - u * y) * (x * v - u * y)
  {
  }

  lemma CauchyVec(n: Vec2d, g: Vec2d)
    ensures Dot(n, g) * Dot(n, g) <= SqrLength(n) * SqrLength(g) && 0.0 <= SqrLength(n) && 0.0 <= SqrLength(g)
  {
    var dot, cross := n.x * g.x + n.y * g.y, n.x * g.y - g.x * n.y;
    Lagrange(n.x, n.y, g.x, g.y);
    assert 0.0 <= cross * cross;
  }

  lemma ProductMonotone(a: real, b: real, x: real, y: real)
    requires 0.0 <= a <= x && 0.0 <= b <= y
    ensures a * b <= x * y
  {
    MulSign(x - a, y);
    MulSign(a, y - b);
    assert x * y - a * b == (x - a) * y + a * (y - b);
  }

  lemma SquareBelow(x: real, y: real)
    requires 0.0 <= y && x * x <= y * y
    ensures x <= y
  {
    MulSign(x - y, x + y);
    assert (x - y) * (x + y) == x * x - y * y;
  }

  lemma SumSquare(x: real, y: real)
    ensures (x + y) * (x + y) == x * x + 2.0 * (x * y) + y * y
  {
  }

  lemma AddSquare(n: Vec2d, g: Vec2d)
    ensures SqrLength(Add(n, g)) == SqrLength(n) + 2.0 * Dot(n, g) + SqrLength(g)
  {
    SumSquare(n.x, g.x);
    SumSquare(n.y, g.y);
  }

  lemma ProductSquare(k: real, y: real, p: real)
    requires k * y == p
    ensures (k * k) * (y * y) == p * p
  {
    assert (k * k) * (y * y) == (k * y) * (k * y);
  }

  /** The triangle inequality. */
  lemma Triangle(n: Vec2d, g: Vec2d, x: real, y: real)
    requires 0.0 <= x && 0.0 <= y && SqrLength(n) <= x * x && SqrLength(g) <= y * y
    ensures SqrLength(Add(n, g)) <= (x + y) * (x + y)
  {
    hide SqrLength, Dot;
    var dot, cross := Dot(n, g), CrossProd(n.x, n.y, g.x, g.y);
    CauchyVec(n, g);
    ProductMonotone(SqrLength(n), SqrLength(g), x * x, y * y);
    ProductSquare(x, y, x * y);
    MulSign(x, y);
    SquareBelow(dot, x * y);
    AddSquare(n, g);
    assert (x + y) * (x + y) == x * x + 2.0 * (x * y) + y * y;
  }

  lemma DotSub(n: Vec2d, m: Vec2d, d: Vec2d)
    ensures Dot(Sub(n, m), d) == Dot(n, d) - Dot(m, d)
  {
  }

  lemma SubSquare(p: Vec2d, q: Vec2d)
    ensures SqrLength(Sub(p, q)) == SqrLength(Sub(q, p))
  {
    NegSquare(p.x - q.x);
    NegSquare(p.y - q.y);
  }

  lemma AtEnds(a: Vec2d, b: Vec2d)
    ensures At(a, b, 0.0) == a && At(a, b, 1.0) == b
  {
  }

  lemma AbsSquare(x: real)
    ensures Abs(x) * Abs(x) == x * x
  {
  }

  lemma CancelSquare(x: real, z: real, y: real, p: real)
    requires y != 0.0 && x * (y * y) == p && z * (y * y) == p
    ensures x == z
  {
    assert ((x - z) * y) * y == 0.0;
    assert (x - z) * y == 0.0;
  }

  lemma RootUnique(k: real, x: real, y: real, z: real)
    requires 0.0 < y && k * y == Abs(x) && z * (y * y) == x * x
    ensures k * k == z
  {
    AbsSquare(x);
    ProductSquare(k, y, Abs(x));
    CancelSquare(k * k, z, y, x * x);
  }

  lemma QuotientSquare(x: real, y: real, z: real)
    requires 0.0 < y && z * (y * y) == x * x
    ensures 0.0 <= Abs(x) / y && Abs(x) / y * (Abs(x) / y) == z
  {
    Quotient(Abs(x), y);
    MulSign(Abs(x) / y, y);
    RootUnique(Abs(x) / y, x, y, z);
  }

  lemma SubDot(p: Vec2d, q: Vec2d, d: Vec2d)
    ensures Dot(Sub(p, q), d) == -Dot(Sub(q, p), d)
    ensures Dot(Sub(p, q), d) == InnerProd(p.x - q.x, p.y - q.y, d.x, d.y)
  {
  }

  lemma DotSelf(d: Vec2d)
    ensures Dot(d, d) == SqrLength(d)
  {
  }

  lemma HypotSquare(sqrt: real -> real, p: Vec2d)
    requires IsSqrt(sqrt)
    ensures 0.0 <= Hypot(sqrt, p.x, p.y) && Hypot(sqrt, p.x, p.y) * Hypot(sqrt, p.x, p.y) == SqrLength(p)
  {
    var s := p.x * p.x + p.y * p.y;
    assert 0.0 <= s;
  }

  lemma Fraction(x: real, y: real)
    requires 0.0 < x < y
    ensures 0.0 < x / y < 1.0 && x / y * y == x
  {
    Quotient(x, y);
    MulSign(x / y, y);
    MulSign(1.0 - x / y, y);
  }

  lemma SelfScale(d: Vec2d, k: real)
    ensures Dot(Scale(d, k), d) == k * SqrLength(d)
  {
    assert (d.x * k) * d.x == k * (d.x * d.x);
    assert (d.y * k) * d.y == k * (d.y * d.y);
  }

  lemma VecLagrange(n: Vec2d, d: Vec2d)
    requires Dot(n, d) == 0.0
    ensures SqrLength(n) * SqrLength(d) == CrossProd(n.x, n.y, d.x, d.y) * CrossProd(n.x, n.y, d.x, d.y)
  {
    Lagrange(n.x, n.y, d.x, d.y);
  }

  lemma CrossFoot(r: Vec2d, d: Vec2d, k: real)
    ensures var n := Sub(Scale(d, k), r);
            CrossProd(n.x, n.y, d.x, d.y) * CrossProd(n.x, n.y, d.x, d.y)
            == CrossProd(r.x, r.y, d.x, d.y) * CrossProd(r.x, r.y, d.x, d.y)
  {
    var n := Sub(Scale(d, k), r);
    assert (d.x * k) * d.y == d.x * (d.y * k);
    assert CrossProd(n.x, n.y, d.x, d.y) == -CrossProd(r.x, r.y, d.x, d.y);
    NegSquare(CrossProd(r.x, r.y, d.x, d.y));
  }

  lemma InnerFoot(q: Vec2d, a: Vec2d, b: Vec2d, t0: real)
    requires t0 * SqrLength(Sub(b, a)) == Dot(Sub(q, a), Sub(b, a))
    ensures var n, d := Sub(At(a, b, t0), q), Sub(b, a);
            Dot(n, d) == 0.0 &&
            SqrLength(n) * SqrLength(d) ==
            CrossProd(q.x - a.x, q.y - a.y, d.x, d.y) * CrossProd(q.x - a.x, q.y - a.y, d.x, d.y)
  {
    hide At, SqrLength, Dot, CrossProd;
    var n, r, d := Sub(At(a, b, t0), q), Sub(q, a), Sub(b, a);
    AtDifference(a, b, t0, 0.0);
    AtEnds(a, b);
    assert n == Sub(Scale(d, t0), r);
    DotSub(Scale(d, t0), r, d);
    SelfScale(d, t0);
    VecLagrange(n, d);
    CrossFoot(r, d, t0);
  }

  /** PtSegDistance measures the distance to the foot of the query point on the segment. */
  lemma PtSegFoot(sqrt: real -> real, q: Vec2d, a: Vec2d, b: Vec2d, length: real) returns (t0: real)
    requires IsSqrt(sqrt) && 0.0 < length && length * length == SqrLength(Sub(b, a))
    ensures Foot(a, b, t0, Sub(At(a, b, t0), q))
    ensures var d := PtSegDistance(sqrt, q, a, b, length); 0.0 <= d && d * d == SqrLength(Sub(At(a, b, t0), q))
  {
    hide At, SqrLength, InnerProd, CrossProd;
    var r, d := Sub(q, a), Sub(b, a);
    var proj := InnerProd(r.x, r.y, d.x, d.y);
    AtEnds(a, b);
    DotSelf(d);
    if proj <= 0.0 {
      t0 := 0.0;
      SubDot(q, a, d);
      SubSquare(q, a);
      HypotSquare(sqrt, r);
    } else if proj >= length * length {
      t0 := 1.0;
      assert Sub(r, d) == Sub(q, b);
      DotSub(r, d, d);
      SubDot(q, b, d);
      SubSquare(q, b);
      HypotSquare(sqrt, Sub(r, d));
    } else {
      t0 := proj / (length * length);
      MulSign(length, length);
      Fraction(proj, length * length);
      InnerFoot(q, a, b, t0);
      QuotientSquare(CrossProd(r.x, r.y, d.x, d.y), length, SqrLength(Sub(At(a, b, t0), q)));
    }
  }

  // ----- Corner cases: the closest point of the rectangle is a corner -----

  /**
   * The segment moves away from the rectangle in x (`0 <= dx`) while it descends in y (`dy < 0`).
   * Then it is not yet below the corner where it is closest to that corner.
   */
  lemma Descending(t0: real, nx: real, ny: real, dx: real, dy: real)
    requires 0.0 <= nx && 0.0 <= dx && dy < 0.0
    requires 0.0 < t0 ==> InnerProd(nx, ny, dx, dy) <= 0.0
    requires t0 <= 0.0 ==> 0.0 <= ny
    ensures 0.0 <= ny
  {
    MulSign(nx, dx);
    MulSign(ny, dy);
  }

  /**
   * A segment that crosses from the first to the third quadrant and passes below the origin is closest to it in
   * the fourth.
   */
  lemma BeyondCorner(t0: real, ax: real, ay: real, nx: real, ny: real, dx: real, dy: real)
    requires 0.0 <= t0 <= 1.0 && 0.0 <= ax && 0.0 <= ay && ax + dx <= 0.0 && ay + dy <= 0.0
    requires nx == ax + t0 * dx && ny == ay + t0 * dy
    requires 0.0 <= CrossProd(dx, dy, nx, ny)
    requires 0.0 < t0 ==> InnerProd(nx, ny, dx, dy) <= 0.0
    requires t0 < 1.0 ==> 0.0 <= InnerProd(nx, ny, dx, dy)
    ensures ny <= 0.0 <= nx
  {
    MulSign(nx, dx);
    MulSign(ny, dy);
    MulSign(dx, ny);
    MulSign(nx, dy);
  }

  lemma Offset(ax: real, dx: real, cx: real, ay: real, dy: real, cy: real, t: real)
    requires t * dy == cy - ay
    ensures (ax + t * dx - cx) * dy == dx * (cy - ay) - (cx - ax) * dy
  {
    assert (t * dx) * dy == dx * (t * dy);
    assert (ax + t * dx - cx) * dy == (t * dx) * dy - (cx - ax) * dy;
  }

  /** How far the segment misses `c` where it has the height of `c`. */
  lemma CrossOffsetY(a: Vec2d, b: Vec2d, c: Vec2d, t: real)
    requires t * (b.y - a.y) == c.y - a.y
    ensures (At(a, b, t).x - c.x) * (b.y - a.y) == CrossProd(b.x - a.x, b.y - a.y, c.x - a.x, c.y - a.y)
  {
    Offset(a.x, b.x - a.x, c.x, a.y, b.y - a.y, c.y, t);
  }

  /** How far the segment misses `c` where it has the abscissa of `c`. */
  lemma CrossOffsetX(a: Vec2d, b: Vec2d, c: Vec2d, t: real)
    requires t * (b.x - a.x) == c.x - a.x
    ensures (At(a, b, t).y - c.y) * (b.x - a.x) == -CrossProd(b.x - a.x, b.y - a.y, c.x - a.x, c.y - a.y)
  {
    Offset(a.y, b.y - a.y, c.y, a.x, b.x - a.x, c.x, t);
  }

  lemma ShiftScalar(ax: real, ay: real, dx: real, dy: real, t: real)
    ensures dx * (ay + t * dy) - (ax + t * dx) * dy == dx * ay - ax * dy
  {
    assert dx * (t * dy) == (t * dx) * dy;
  }

  /** Turning `cross(d, c - a)` into `cross(d, n)` for a point of the segment displaced by `n` from `c`. */
  lemma CrossShift(a: Vec2d, b: Vec2d, c: Vec2d, t: real)
    ensures var n := Sub(At(a, b, t), c);
            CrossProd(b.x - a.x, b.y - a.y, n.x, n.y) == -CrossProd(b.x - a.x, b.y - a.y, c.x - a.x, c.y - a.y)
  {
    ShiftScalar(a.x - c.x, a.y - c.y, b.x - a.x, b.y - a.y, t);
  }

  /** The sign of the miss, for a segment that descends towards the level of `c`. */
  lemma OffsetSign(miss: real, d: real, cross: real)
    requires miss * d == cross && d < 0.0
    ensures 0.0 <= cross ==> miss <= 0.0
    ensures 0.0 < cross ==> miss < 0.0
    ensures cross <= 0.0 ==> 0.0 <= miss
  {
    MulSign(miss, d);
  }

  lemma UnitRange(t: real, d: real, e: real)
    requires t * d == e && (0.0 <= e <= d || d <= e <= 0.0) && d != 0.0
    ensures 0.0 <= t <= 1.0
  {
    MulSign(t, d);
    MulSign(1.0 - t, d);
    assert (1.0 - t) * d == d - e;
  }

  /** The segment reaches the level `h` between `x` and `y`. */
  lemma Reach(x: real, y: real, h: real) returns (t: real)
    requires x <= h <= y || y <= h <= x
    ensures 0.0 <= t <= 1.0 && t * (y - x) == h - x && Lerp(x, y, t) == h
  {
    if x == y {
      t := 0.0;
    } else {
      t := (h - x) / (y - x);
      Quotient(h - x, y - x);
      UnitRange(t, y - x, h - x);
    }
  }
}
