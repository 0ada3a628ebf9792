/**
 * Smallest balls with some points inside and others on the boundary: the facts that make the
 * move-to-front recursion (Miniball.hpp:312-340) compute what it is for.
 */
module SmallestBalls {
  import opened Reals
  import opened Vectors
  import opened MiniballChain
  import opened MiniballCertificate

  /** A negative squared radius stands for the empty ball of the start. */
  datatype Ball = Ball(centre: Vec, r2: real)

  /** How far a point lies outside: negative inside, zero on the boundary. */
  function Power(b: Ball, p: Vec): real
    requires |p| == |b.centre|
  {
    Dist2(p, b.centre) - b.r2
  }

  /** The ball contains the points of `inside` and has those of `on` on its boundary. */
  ghost predicate Fits(d: nat, b: Ball, inside: set<Vec>, on: set<Vec>) {
    |b.centre| == d && -1.0 <= b.r2 &&
    (forall p :: p in inside ==> |p| == d && Power(b, p) <= 0.0) &&
    (forall p :: p in on ==> |p| == d && Power(b, p) == 0.0)
  }

  /** It is a smallest one of that kind. */
  ghost predicate Least(d: nat, b: Ball, inside: set<Vec>, on: set<Vec>) {
    Fits(d, b, inside, on) && forall b': Ball :: Fits(d, b', inside, on) ==> b.r2 <= b'.r2
  }

  ghost predicate Feasible(d: nat, inside: set<Vec>, on: set<Vec>) {
    exists b: Ball :: Fits(d, b, inside, on)
  }

  // ----- Balls between two balls -----

  /** The ball at `t` on the way from `b0` to `b1`. */
  function Between(b0: Ball, b1: Ball, t: real): Ball
    requires |b0.centre| == |b1.centre|
  {
    Ball(Add(Scale(b0.centre, 1.0 - t), Scale(b1.centre, t)),
         (1.0 - t) * b0.r2 + t * b1.r2 - (1.0 - t) * t * Dist2(b0.centre, b1.centre))
  }

  lemma WeightedScalar(a: real, b: real, c: real, s: real, t: real)
    requires s + t == 1.0
    ensures (s * s) * a + 2.0 * (s * (t * b)) + (t * t) * c == s * a + t * c - s * t * (a - 2.0 * b + c)
  {
    assert s == 1.0 - t;
  }

  lemma WeightedSquare(x: Vec, y: Vec, s: real, t: real)
    requires |x| == |y| && s + t == 1.0
    ensures Sqr(Add(Scale(x, s), Scale(y, t))) == s * Sqr(x) + t * Sqr(y) - s * t * Sqr(Sub(x, y))
  {
    hide Dot, Sqr;
    SqrAdd(Scale(x, s), Scale(y, t));
    SqrScale(x, s);
    SqrScale(y, t);
    DotScale(x, s, Scale(y, t));
    DotScale(y, t, x);
    SqrSub(x, y);
    WeightedScalar(Sqr(x), Dot(x, y), Sqr(y), s, t);
  }

  lemma SplitPower(s: real, t: real, x: real, r: real, y: real, q: real, e: real)
    ensures s * x + t * y - e - (s * r + t * q - e) == s * (x - r) + t * (y - q)
  {
  }

  lemma WeightedCoordinate(p: real, x: real, y: real, t: real)
    ensures p - (x * (1.0 - t) + y * t) == (p - x) * (1.0 - t) + (p - y) * t
  {
  }

  lemma DistanceSymmetric(x: Vec, y: Vec)
    requires |x| == |y|
    ensures Dist2(x, y) == Dist2(y, x)
  {
    hide Dot;
    SqrSub(x, y);
    SqrSub(y, x);
    DotComm(x, y);
  }

  /** The power of a point changes linearly on the way. */
  lemma PowerBetween(b0: Ball, b1: Ball, t: real, p: Vec)
    requires |b0.centre| == |b1.centre| == |p|
    ensures Power(Between(b0, b1, t), p) == (1.0 - t) * Power(b0, p) + t * Power(b1, p)
  {
    hide Sqr;
    var x, y := Sub(p, b0.centre), Sub(p, b1.centre);
    WeightedSquare(x, y, 1.0 - t, t);
    var c := Between(b0, b1, t).centre;
    forall i | 0 <= i < |p|
      ensures Sub(p, c)[i] == Add(Scale(x, 1.0 - t), Scale(y, t))[i]
    {
      WeightedCoordinate(p[i], b0.centre[i], b1.centre[i], t);
    }
    assert Sub(p, c) == Add(Scale(x, 1.0 - t), Scale(y, t));
    assert Sub(x, y) == Sub(b1.centre, b0.centre);
    DistanceSymmetric(b0.centre, b1.centre);
    SplitPower(1.0 - t, t, Sqr(x), b0.r2, Sqr(y), b1.r2, (1.0 - t) * t * Dist2(b0.centre, b1.centre));
  }

  lemma Mixed(t: real, x: real, y: real)
    requires 0.0 <= t <= 1.0 && x <= 0.0 && y <= 0.0
    ensures (1.0 - t) * x + t * y <= 0.0
  {
    MulSign(1.0 - t, x);
    MulSign(t, y);
  }

  lemma BetweenSize(b0: Ball, b1: Ball, t: real)
    requires |b0.centre| == |b1.centre|
    ensures |Between(b0, b1, t).centre| == |b0.centre|
  {
  }

  /** If both balls fit, those between them do, unless they are empty. */
  lemma BetweenFits(d: nat, b0: Ball, b1: Ball, t: real, inside: set<Vec>, on: set<Vec>)
    requires Fits(d, b0, inside, on) && Fits(d, b1, inside, on) && 0.0 <= t <= 1.0
    requires -1.0 <= Between(b0, b1, t).r2
    ensures Fits(d, Between(b0, b1, t), inside, on)
  {
    hide Power, Between;
    var b := Between(b0, b1, t);
    assert |b.centre| == d by { BetweenSize(b0, b1, t); }
    forall p | p in inside || p in on
      ensures |p| == d && (p in inside ==> Power(b, p) <= 0.0) && (p in on ==> Power(b, p) == 0.0)
    {
      PowerBetween(b0, b1, t, p);
      if p in inside {
        Mixed(t, Power(b0, p), Power(b1, p));
      }
    }
  }

  /** A ball with a point inside has a radius. */
  lemma RadiusNonnegative(b: Ball, p: Vec)
    requires |p| == |b.centre| && Power(b, p) <= 0.0
    ensures 0.0 <= b.r2
  {
    DistanceZero(p, b.centre);
  }

  lemma BetweenRadius(b0: Ball, b1: Ball, t: real, m: real)
    requires |b0.centre| == |b1.centre| && 0.0 <= t <= 1.0 && b0.r2 <= m && b1.r2 <= m
    ensures Between(b0, b1, t).r2 <= m - (1.0 - t) * t * Dist2(b0.centre, b1.centre)
    ensures Between(b0, b1, t).r2 <= m
  {
    hide Dist2;
    DistanceZero(b0.centre, b1.centre);
    MulSign(1.0 - t, t);
    MulSign((1.0 - t) * t, Dist2(b0.centre, b1.centre));
    Mixed(t, b0.r2 - m, b1.r2 - m);
    SplitPower(1.0 - t, t, b0.r2, m, b1.r2, m, 0.0);
  }

  // ----- One more point -----

  lemma Portion(t: real, e0: real, e1: real)
    requires 0.0 < e0 && e1 <= 0.0 && t * (e0 - e1) == e0
    ensures 0.0 <= t <= 1.0 && (1.0 - t) * e0 + t * e1 == 0.0
  {
    MulSign(t, e0 - e1);
    MulSign(1.0 - t, e0 - e1);
    assert (1.0 - t) * (e0 - e1) == -e1;
  }

  /** If one ball leaves `p` outside and another does not, there is one between them with `p` on its boundary. */
  lemma Touching(d: nat, b0: Ball, b1: Ball, inside: set<Vec>, on: set<Vec>, p: Vec) returns (b: Ball)
    requires Fits(d, b0, inside, on) && Fits(d, b1, inside, on) && |p| == d
    requires 0.0 < Power(b0, p) && Power(b1, p) <= 0.0
    ensures Fits(d, b, inside, on + {p}) && b.r2 <= Max(b0.r2, b1.r2)
  {
    hide Power, Between;
    var e0, e1 := Power(b0, p), Power(b1, p);
    var t := e0 / (e0 - e1);
    Quotient(e0, e0 - e1);
    Portion(t, e0, e1);
    b := Between(b0, b1, t);
    PowerBetween(b0, b1, t, p);
    BetweenSize(b0, b1, t);
    RadiusNonnegative(b, p);
    BetweenFits(d, b0, b1, t, inside, on);
    BetweenRadius(b0, b1, t, Max(b0.r2, b1.r2));
  }

  /** Two smallest balls of the same kind, with some point, are the same. */
  lemma LeastUnique(d: nat, b: Ball, b': Ball, inside: set<Vec>, on: set<Vec>, p: Vec)
    requires Least(d, b, inside, on) && Fits(d, b', inside, on) && b'.r2 <= b.r2 && p in inside + on
    ensures b' == b
  {
    hide Power, Between, Dist2;
    var m := Between(b, b', 0.5);
    PowerBetween(b, b', 0.5, p);
    BetweenSize(b, b', 0.5);
    RadiusNonnegative(m, p);
    BetweenFits(d, b, b', 0.5, inside, on);
    BetweenRadius(b, b', 0.5, b.r2);
    DistanceZero(b.centre, b'.centre);
  }

  lemma LeastRadius(d: nat, b: Ball, b': Ball, inside: set<Vec>, on: set<Vec>)
    requires Least(d, b, inside, on) && Least(d, b', inside, on)
    ensures b.r2 == b'.r2
  {
    hide Fits;
  }

  lemma SmallestEmpty(d: nat, b: Ball, inside: set<Vec>, on: set<Vec>)
    requires Least(d, b, inside, on) && inside + on == {}
    ensures b.r2 == -1.0
  {
    var empty := Ball(Zero(d), -1.0);
    assert Fits(d, empty, inside, on) by {
      assert forall p :: p in inside || p in on ==> p in inside + on;
    }
  }

  /** A point outside the smallest ball is on the boundary of the next one, which is larger. */
  lemma LeastGrows(d: nat, b0: Ball, b: Ball, inside: set<Vec>, on: set<Vec>, p: Vec)
    requires Least(d, b0, inside, on) && |p| == d && 0.0 < Power(b0, p) && Least(d, b, inside, on + {p})
    ensures Least(d, b, inside + {p}, on) && b0.r2 < b.r2
  {
    hide Power;
    assert p in on + {p};
    RadiusNonnegative(b, p);
    if b.r2 <= b0.r2 {
      if q :| q in inside + on {
        LeastUnique(d, b0, b, inside, on, q);
      } else {
        SmallestEmpty(d, b0, inside, on);
      }
    }
    forall b1: Ball | Fits(d, b1, inside + {p}, on)
      ensures b.r2 <= b1.r2
    {
      assert p in inside + {p};
      var b' := Touching(d, b0, b1, inside, on, p);
      assert b0.r2 <= b1.r2;
    }
  }

  /**
   * The same for a part `support` of the points, if the new ball is smallest for it with `p` on the
   * boundary: then it is so with `p` merely inside.
   */
  lemma SupportGrows(d: nat, b0: Ball, b: Ball, inside: set<Vec>, support: set<Vec>, on: set<Vec>, p: Vec)
    requires Least(d, b0, inside, on) && |p| == d && 0.0 < Power(b0, p) && Least(d, b, inside, on + {p})
    requires support <= inside && Least(d, b, support, on + {p})
    ensures Least(d, b, support + {p}, on)
  {
    hide Power;
    LeastGrows(d, b0, b, inside, on, p);
    assert p in on + {p};
    forall b1: Ball | Fits(d, b1, support + {p}, on)
      ensures b.r2 <= b1.r2
    {
      assert p in support + {p};
      var b' := Touching(d, b0, b1, support, on, p);
    }
  }

  /** A point already inside changes nothing. */
  lemma LeastKeeps(d: nat, b: Ball, inside: set<Vec>, on: set<Vec>, p: Vec)
    requires Least(d, b, inside, on) && |p| == d && Power(b, p) <= 0.0
    ensures Least(d, b, inside + {p}, on)
  {
    hide Power;
    forall b1: Ball | Fits(d, b1, inside + {p}, on)
      ensures b.r2 <= b1.r2
    {
      assert Fits(d, b1, inside, on);
    }
  }

  /** If the points can be enclosed with `p`, then also with `p` on the boundary when the smallest ball misses it. */
  lemma StaysFeasible(d: nat, b0: Ball, inside: set<Vec>, on: set<Vec>, p: Vec)
    requires Fits(d, b0, inside, on) && |p| == d && 0.0 < Power(b0, p) && Feasible(d, inside + {p}, on)
    ensures Feasible(d, inside, on + {p})
  {
    hide Power;
    var b1: Ball :| Fits(d, b1, inside + {p}, on);
    assert p in inside + {p};
    var b := Touching(d, b0, b1, inside, on, p);
  }

  lemma FeasibleSubset(d: nat, part: set<Vec>, inside: set<Vec>, on: set<Vec>)
    requires part <= inside && Feasible(d, inside, on)
    ensures Feasible(d, part, on)
  {
    hide Power;
    var b: Ball :| Fits(d, b, inside, on);
    assert Fits(d, b, part, on);
  }

  /** Every finite set of points can be enclosed. */
  lemma {:induction false} Enclosable(d: nat, inside: set<Vec>)
    requires forall p :: p in inside ==> |p| == d
    ensures Feasible(d, inside, {})
  {
    hide Dist2;
    if inside == {} {
      assert Fits(d, Ball(Zero(d), -1.0), inside, {});
    } else {
      var p :| p in inside;
      Enclosable(d, inside - {p});
      var b: Ball :| Fits(d, b, inside - {p}, {});
      assert Fits(d, Ball(b.centre, Max(b.r2, Dist2(p, b.centre))), inside, {});
    }
  }

  // ----- Where a chain starts, and where it ends -----

  lemma {:induction false} MeanOf(d: nat, q: seq<Vec>, l: seq<real>, n: nat, c: Vec, r2: real)
    requires n <= |q| && n <= |l| && |c| == d
    requires forall i :: 0 <= i < n ==> |q[i]| == d && Dist2(q[i], c) == r2
    ensures MeanDist2(d, q, l, n, c) == Sum(l, 0, n) * r2
  {
    hide Dist2;
    if n > 0 {
      MeanOf(d, q, l, n - 1, c, r2);
    }
  }

  /** Every ball through the points of a chain is larger by the distance of its centre. */
  lemma ThroughChain(d: nat, q: seq<Vec>, rows: seq<Row>, n: nat, c: Vec, r2: real)
    requires Chain(d, q, rows, n) && 1 <= n && |c| == d && forall i :: 0 <= i < n ==> Dist2(q[i], c) == r2
    ensures r2 == rows[n - 1].r2 + Dist2(rows[n - 1].c, c)
  {
    hide Dot, Dist2, Coefficients, RowOk;
    var l, centre := Coefficients(rows, n), rows[n - 1].c;
    AffineCombination(d, q, rows, n);
    forall i | 0 <= i < n
      ensures Dist2(q[i], centre) == rows[n - 1].r2
    {
      Equidistant(d, q, rows, n, i, n - 1);
    }
    MeanOf(d, q, l, n, c, r2);
    MeanExpansion(d, q, l, n, centre, c, rows[n - 1].r2);
  }

  lemma PointOffset(d: nat, q: seq<Vec>, rows: seq<Row>, n: nat, c: Vec, r2: real, i: nat)
    requires Chain(d, q, rows, n) && i < n && |c| == d && Dist2(q[i], c) == r2
    requires r2 == rows[n - 1].r2 + Dist2(rows[n - 1].c, c)
    ensures Dot(Sub(q[i], rows[n - 1].c), Sub(c, rows[n - 1].c)) == 0.0
  {
    hide Dot, RowOk;
    var x, w := Sub(q[i], rows[n - 1].c), Sub(c, rows[n - 1].c);
    Equidistant(d, q, rows, n, i, n - 1);
    assert Sub(q[i], c) == Sub(x, w);
    SqrSub(x, w);
    DistanceSymmetric(rows[n - 1].c, c);
  }

  /** The displacement of such a centre is orthogonal to all vectors of the chain. */
  lemma {:induction false} CentreOffset(d: nat, q: seq<Vec>, rows: seq<Row>, n: nat, c: Vec, r2: real, k: nat)
    requires Chain(d, q, rows, n) && 1 <= k < n && |c| == d && forall i :: 0 <= i < n ==> Dist2(q[i], c) == r2
    ensures Dot(rows[k].v, Sub(c, rows[n - 1].c)) == 0.0
  {
    hide Dot, Residual, Dist2;
    var w := Sub(c, rows[n - 1].c);
    forall i | 1 <= i < k
      ensures Dot(rows[i].v, w) == 0.0
    {
      CentreOffset(d, q, rows, n, c, r2, i);
    }
    assert RowOk(d, q, rows, k);
    ResidualDot(d, rows, rows[k].a, Sub(q[k], q[0]), k, w);
    ThroughChain(d, q, rows, n, c, r2);
    PointOffset(d, q, rows, n, c, r2, k);
    PointOffset(d, q, rows, n, c, r2, 0);
    assert Sub(q[k], q[0]) == Sub(Sub(q[k], rows[n - 1].c), Sub(q[0], rows[n - 1].c));
    DotSub(Sub(q[k], rows[n - 1].c), Sub(q[0], rows[n - 1].c), w);
  }

  ghost function SetOf(q: seq<Vec>): set<Vec> {
    set p | p in q
  }

  lemma ThroughAll(d: nat, b: Ball, inside: set<Vec>, q: seq<Vec>)
    requires Fits(d, b, inside, SetOf(q))
    ensures |b.centre| == d && forall i :: 0 <= i < |q| ==> |q[i]| == d && Dist2(q[i], b.centre) == b.r2
  {
    hide Dist2;
    forall i | 0 <= i < |q|
      ensures |q[i]| == d && Dist2(q[i], b.centre) == b.r2
    {
      assert q[i] in SetOf(q);
    }
  }

  /** The ball of a chain passes through its points. */
  lemma ChainFits(d: nat, q: seq<Vec>, rows: seq<Row>, n: nat)
    requires Chain(d, q, rows, n) && |q| == n && 1 <= n
    ensures Fits(d, Ball(rows[n - 1].c, rows[n - 1].r2), {}, SetOf(q))
  {
    hide Dist2, RowOk;
    RadiusMonotone(d, q, rows, n, 0, n - 1);
    forall p | p in SetOf(q)
      ensures |p| == d && Dist2(p, rows[n - 1].c) == rows[n - 1].r2
    {
      var i :| 0 <= i < n && q[i] == p;
      Equidistant(d, q, rows, n, i, n - 1);
    }
  }

  lemma CentreSize(d: nat, q: seq<Vec>, rows: seq<Row>, n: nat)
    requires Chain(d, q, rows, n) && 1 <= n
    ensures n <= |rows| && |rows[n - 1].c| == d
  {
  }

  /** It is the smallest one that does. */
  lemma ChainLeast(d: nat, q: seq<Vec>, rows: seq<Row>, n: nat)
    requires Chain(d, q, rows, n) && |q| == n && 1 <= n
    ensures Least(d, Ball(rows[n - 1].c, rows[n - 1].r2), {}, SetOf(q))
  {
    CentreSize(d, q, rows, n);
    hide Chain, Dist2, Fits;
    ChainFits(d, q, rows, n);
    forall b: Ball | Fits(d, b, {}, SetOf(q))
      ensures rows[n - 1].r2 <= b.r2
    {
      ThroughAll(d, b, {}, q);
      ThroughChain(d, q, rows, n, b.centre, b.r2);
      DistanceZero(rows[n - 1].c, b.centre);
    }
  }
}
