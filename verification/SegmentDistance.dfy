/** Vectors of the plane, with the operations of Vec2d.h and math_utils.h that the geometry uses. */
module Planar {
  import opened Reals

  datatype Vec2d = Vec2d(x: real, y: real)

  function Add(p: Vec2d, q: Vec2d): Vec2d {
    Vec2d(p.x + q.x, p.y + q.y)
  }

  function Sub(p: Vec2d, q: Vec2d): Vec2d {
    Vec2d(p.x - q.x, p.y - q.y)
  }

  function Scale(p: Vec2d, k: real): Vec2d {
    Vec2d(p.x * k, p.y * k)
  }

  function CrossProd(x0: real, y0: real, x1: real, y1: real): real {
    x0 * y1 - x1 * y0
  }

  function InnerProd(x0: real, y0: real, x1: real, y1: real): real {
    x0 * x1 + y0 * y1
  }

  function Dot(p: Vec2d, q: Vec2d): real {
    InnerProd(p.x, p.y, q.x, q.y)
  }

  function SqrLength(p: Vec2d): real {
    p.x * p.x + p.y * p.y
  }

  function Dist2(p: Vec2d, q: Vec2d): real {
    SqrLength(Sub(p, q))
  }

  function Lerp(x: real, y: real, t: real): real {
    x + t * (y - x)
  }

  /** The point of the segment from `a` to `b` at parameter `t`. */
  function At(a: Vec2d, b: Vec2d, t: real): Vec2d {
    Vec2d(Lerp(a.x, b.x, t), Lerp(a.y, b.y, t))
  }

  function Hypot(sqrt: real -> real, x: real, y: real): real {
    sqrt(x * x + y * y)
  }

  lemma Between(x: real, y: real, t: real)
    requires 0.0 <= t <= 1.0
    ensures x <= y ==> x <= Lerp(x, y, t) <= y
    ensures y <= x ==> y <= Lerp(x, y, t) <= x
  {
    MulSign(t, y - x);
    MulSign(1.0 - t, y - x);
    assert Lerp(x, y, t) == y - (1.0 - t) * (y - x);
  }

  /** A point of a segment lies between its end points in each coordinate. */
  lemma AtBounds(a: Vec2d, b: Vec2d, t: real)
    requires 0.0 <= t <= 1.0
    ensures a.x <= b.x ==> a.x <= At(a, b, t).x <= b.x
    ensures b.x <= a.x ==> b.x <= At(a, b, t).x <= a.x
    ensures a.y <= b.y ==> a.y <= At(a, b, t).y <= b.y
    ensures b.y <= a.y ==> b.y <= At(a, b, t).y <= a.y
  {
    hide Lerp;
    Between(a.x, b.x, t);
    Between(a.y, b.y, t);
  }

  lemma AtVector(a: Vec2d, b: Vec2d, t: real)
    ensures At(a, b, t) == Add(a, Scale(Sub(b, a), t))
  {
  }

  lemma LerpDifference(x: real, y: real, s: real, t: real)
    ensures Lerp(x, y, s) - Lerp(x, y, t) == (y - x) * (s - t)
  {
  }

  lemma AtDifference(a: Vec2d, b: Vec2d, s: real, t: real)
    ensures Sub(At(a, b, s), At(a, b, t)) == Scale(Sub(b, a), s - t)
  {
    LerpDifference(a.x, b.x, s, t);
    LerpDifference(a.y, b.y, s, t);
  }

  lemma DotScale(n: Vec2d, d: Vec2d, k: real)
    ensures Dot(n, Scale(d, k)) == Dot(n, d) * k
  {
    assert n.x * (d.x * k) == (n.x * d.x) * k;
    assert n.y * (d.y * k) == (n.y * d.y) * k;
  }

  lemma DotAdd(n: Vec2d, e: Vec2d, f: Vec2d)
    ensures Dot(n, Add(e, f)) == Dot(n, e) + Dot(n, f)
  {
  }

  /** Moving along `g`, which does not oppose `n`, does not shorten `n`. */
  lemma Lengthens(n: Vec2d, g: Vec2d)
    requires 0.0 <= Dot(n, g)
    ensures SqrLength(n) <= SqrLength(Add(n, g))
  {
    assert (n.x + g.x) * (n.x + g.x) == n.x * n.x + 2.0 * (n.x * g.x) + g.x * g.x;
    assert (n.y + g.y) * (n.y + g.y) == n.y * n.y + 2.0 * (n.y * g.y) + g.y * g.y;
  }
}

/**
 * The distance between an origin-centred, axis-parallel rectangle and a segment:
 * its meaning, a certificate that proves a claimed value exact, and the symmetries
 * the box code uses to bring a segment into normal position.
 */
module RectSegment {
  import opened Reals
  import opened Planar

  predicate InRect(hx: real, hy: real, p: Vec2d) {
    -hx <= p.x <= hx && -hy <= p.y <= hy
  }

  /** `d` is attained by some pair of points, one of the segment and one of the rectangle. */
  ghost predicate Attained(hx: real, hy: real, a: Vec2d, b: Vec2d, d: real) {
    exists t: real, p: Vec2d ::
      0.0 <= t <= 1.0 && InRect(hx, hy, p) && Dist2(At(a, b, t), p) == d * d
  }

  /** No pair of points, one of the segment and one of the rectangle, is closer than `d`. */
  ghost predicate LowerBound(hx: real, hy: real, a: Vec2d, b: Vec2d, d: real) {
    forall t: real, p: Vec2d ::
      0.0 <= t <= 1.0 && InRect(hx, hy, p) ==> d * d <= Dist2(At(a, b, t), p)
  }

  ghost predicate IsDistance(hx: real, hy: real, a: Vec2d, b: Vec2d, d: real) {
    0.0 <= d && Attained(hx, hy, a, b, d) && LowerBound(hx, hy, a, b, d)
  }

  // ----- Certificate -----

  /** Within the segment, no move away from parameter `t0` shortens `n`. */
  predicate Foot(a: Vec2d, b: Vec2d, t0: real, n: Vec2d) {
    0.0 <= t0 <= 1.0 &&
    (0.0 < t0 ==> Dot(n, Sub(b, a)) <= 0.0) &&
    (t0 < 1.0 ==> 0.0 <= Dot(n, Sub(b, a)))
  }

  /** `p0` is a point of the rectangle that lies furthest in direction `n`. */
  predicate Support(hx: real, hy: real, p0: Vec2d, n: Vec2d) {
    InRect(hx, hy, p0) &&
    (0.0 < n.x ==> p0.x == hx) && (n.x < 0.0 ==> p0.x == -hx) &&
    (0.0 < n.y ==> p0.y == hy) && (n.y < 0.0 ==> p0.y == -hy)
  }

  lemma Detour(q0: Vec2d, p0: Vec2d, q: Vec2d, p: Vec2d)
    ensures Dist2(q0, p0) == SqrLength(Sub(q0, p0))
    ensures Dist2(q, p) == SqrLength(Add(Sub(q0, p0), Add(Sub(q, q0), Sub(p0, p))))
  {
    hide SqrLength;
    assert Sub(q, p) == Add(Sub(q0, p0), Add(Sub(q, q0), Sub(p0, p)));
  }

  lemma FootBound(a: Vec2d, b: Vec2d, t0: real, n: Vec2d, t: real)
    requires Foot(a, b, t0, n) && 0.0 <= t <= 1.0
    ensures 0.0 <= Dot(n, Sub(At(a, b, t), At(a, b, t0)))
  {
    hide At, Sub, Dot, Scale;
    AtDifference(a, b, t, t0);
    DotScale(n, Sub(b, a), t - t0);
    MulSign(Dot(n, Sub(b, a)), t - t0);
  }

  lemma SupportBound(hx: real, hy: real, p0: Vec2d, n: Vec2d, p: Vec2d)
    requires Support(hx, hy, p0, n) && InRect(hx, hy, p)
    ensures 0.0 <= Dot(n, Sub(p0, p))
  {
    MulSign(n.x, p0.x - p.x);
    MulSign(n.y, p0.y - p.y);
  }

  lemma NotCloser(hx: real, hy: real, a: Vec2d, b: Vec2d, t0: real, p0: Vec2d, t: real, p: Vec2d)
    requires Foot(a, b, t0, Sub(At(a, b, t0), p0))
    requires Support(hx, hy, p0, Sub(At(a, b, t0), p0))
    requires 0.0 <= t <= 1.0 && InRect(hx, hy, p)
    ensures Dist2(At(a, b, t0), p0) <= Dist2(At(a, b, t), p)
  {
    hide *;
    var n, e, f := Sub(At(a, b, t0), p0), Sub(At(a, b, t), At(a, b, t0)), Sub(p0, p);
    FootBound(a, b, t0, n, t);
    SupportBound(hx, hy, p0, n, p);
    DotAdd(n, e, f);
    Lengthens(n, Add(e, f));
    Detour(At(a, b, t0), p0, At(a, b, t), p);
  }

  /** A pair of points whose difference is a foot of the segment and a support of the rectangle is a closest pair. */
  lemma Certificate(hx: real, hy: real, a: Vec2d, b: Vec2d, t0: real, p0: Vec2d, d: real)
    requires 0.0 <= d && d * d == Dist2(At(a, b, t0), p0)
    requires Foot(a, b, t0, Sub(At(a, b, t0), p0))
    requires Support(hx, hy, p0, Sub(At(a, b, t0), p0))
    ensures IsDistance(hx, hy, a, b, d)
  {
    hide At, Dist2, Sub, Dot;
    forall t: real, p: Vec2d | 0.0 <= t <= 1.0 && InRect(hx, hy, p)
      ensures d * d <= Dist2(At(a, b, t), p)
    {
      NotCloser(hx, hy, a, b, t0, p0, t, p);
    }
  }

  lemma DistNonnegative(p: Vec2d, q: Vec2d)
    ensures 0.0 <= Dist2(p, q) && Dist2(p, p) == 0.0
  {
  }

  /** A segment that meets the rectangle is at distance zero. */
  lemma Touching(hx: real, hy: real, a: Vec2d, b: Vec2d, t: real)
    requires 0.0 <= t <= 1.0 && InRect(hx, hy, At(a, b, t))
    ensures IsDistance(hx, hy, a, b, 0.0)
  {
    hide At, Dist2;
    DistNonnegative(At(a, b, t), At(a, b, t));
    forall s: real, p: Vec2d ensures 0.0 <= Dist2(At(a, b, s), p) {
      DistNonnegative(At(a, b, s), p);
    }
  }

  // ----- Symmetries -----

  function FlipX(p: Vec2d): Vec2d {
    Vec2d(-p.x, p.y)
  }

  function FlipY(p: Vec2d): Vec2d {
    Vec2d(p.x, -p.y)
  }

  function Transpose(p: Vec2d): Vec2d {
    Vec2d(p.y, p.x)
  }

  lemma NegSquare(x: real)
    ensures (-x) * (-x) == x * x
  {
  }

  lemma FlipXDist(a: Vec2d, b: Vec2d, t: real, p: Vec2d)
    ensures Dist2(At(FlipX(a), FlipX(b), t), FlipX(p)) == Dist2(At(a, b, t), p)
  {
    var q, q' := At(a, b, t), At(FlipX(a), FlipX(b), t);
    assert q' == FlipX(q);
    NegSquare(q.x - p.x);
  }

  lemma FlipXSymmetry(hx: real, hy: real, a: Vec2d, b: Vec2d, d: real)
    requires IsDistance(hx, hy, FlipX(a), FlipX(b), d)
    ensures IsDistance(hx, hy, a, b, d)
  {
    hide At, Dist2;
    forall t: real, p: Vec2d
      ensures Dist2(At(FlipX(a), FlipX(b), t), FlipX(p)) == Dist2(At(a, b, t), p)
    {
      FlipXDist(a, b, t, p);
    }
    var t: real, p: Vec2d :| 0.0 <= t <= 1.0 && InRect(hx, hy, p) && Dist2(At(FlipX(a), FlipX(b), t), p) == d * d;
    assert FlipX(FlipX(p)) == p && InRect(hx, hy, FlipX(p));
    forall t: real, p: Vec2d | 0.0 <= t <= 1.0 && InRect(hx, hy, p)
      ensures d * d <= Dist2(At(a, b, t), p)
    {
      assert InRect(hx, hy, FlipX(p));
    }
  }

  lemma TransposeDist(a: Vec2d, b: Vec2d, t: real, p: Vec2d)
    ensures Dist2(At(Transpose(a), Transpose(b), t), Transpose(p)) == Dist2(At(a, b, t), p)
  {
    hide Lerp;
  }

  lemma TransposeSymmetry(hx: real, hy: real, a: Vec2d, b: Vec2d, d: real)
    requires IsDistance(hy, hx, Transpose(a), Transpose(b), d)
    ensures IsDistance(hx, hy, a, b, d)
  {
    hide At, Dist2;
    forall t: real, p: Vec2d
      ensures Dist2(At(Transpose(a), Transpose(b), t), Transpose(p)) == Dist2(At(a, b, t), p)
    {
      TransposeDist(a, b, t, p);
    }
    var t: real, p: Vec2d :|
      0.0 <= t <= 1.0 && InRect(hy, hx, p) && Dist2(At(Transpose(a), Transpose(b), t), p) == d * d;
    assert Transpose(Transpose(p)) == p && InRect(hx, hy, Transpose(p));
    forall t: real, p: Vec2d | 0.0 <= t <= 1.0 && InRect(hx, hy, p)
      ensures d * d <= Dist2(At(a, b, t), p)
    {
      assert InRect(hy, hx, Transpose(p));
    }
  }

  lemma FlipYSymmetry(hx: real, hy: real, a: Vec2d, b: Vec2d, d: real)
    requires IsDistance(hx, hy, FlipY(a), FlipY(b), d)
    ensures IsDistance(hx, hy, a, b, d)
  {
    hide IsDistance;
    var a', b' := Transpose(a), Transpose(b);
    assert Transpose(FlipX(a')) == FlipY(a) && Transpose(FlipX(b')) == FlipY(b);
    TransposeSymmetry(hy, hx, FlipX(a'), FlipX(b'), d);
    FlipXSymmetry(hy, hx, a', b', d);
    TransposeSymmetry(hx, hy, a, b, d);
  }
}
