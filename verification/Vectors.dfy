/** Vectors of any dimension, as sequences of reals. */
module Vectors {
  import opened Reals

  type Vec = seq<real>

  /** The inner product of the first `n` coordinates. */
  function DotN(u: Vec, v: Vec, n: nat): real
    requires n <= |u| && n <= |v|
  {
    if n == 0 then 0.0 else DotN(u, v, n - 1) + u[n - 1] * v[n - 1]
  }

  function Dot(u: Vec, v: Vec): real
    requires |u| == |v|
  {
    DotN(u, v, |u|)
  }

  function Sqr(u: Vec): real {
    Dot(u, u)
  }

  function Add(u: Vec, v: Vec): (w: Vec)
    requires |u| == |v|
    ensures |w| == |u|
  {
    seq(|u|, i requires 0 <= i < |u| => u[i] + v[i])
  }

  function Sub(u: Vec, v: Vec): (w: Vec)
    requires |u| == |v|
    ensures |w| == |u|
  {
    seq(|u|, i requires 0 <= i < |u| => u[i] - v[i])
  }

  function Scale(u: Vec, k: real): (w: Vec)
    ensures |w| == |u|
  {
    seq(|u|, i requires 0 <= i < |u| => u[i] * k)
  }

  function Dist2(u: Vec, v: Vec): real
    requires |u| == |v|
  {
    Sqr(Sub(u, v))
  }

  function Zero(d: nat): (w: Vec)
    ensures |w| == d
  {
    seq(d, i => 0.0)
  }

  /** Row `i` of the identity. */
  function UnitVector(n: nat, i: nat): (e: Vec)
    ensures |e| == n
  {
    seq(n, j => if j == i then 1.0 else 0.0)
  }

  // ----- Bilinearity -----

  /** It picks coordinate `i`. */
  lemma {:induction false} DotUnit(x: Vec, i: nat, n: nat)
    requires i < |x| && n <= |x|
    ensures DotN(UnitVector(|x|, i), x, n) == if i < n then x[i] else 0.0
  {
    if n > 0 {
      DotUnit(x, i, n - 1);
    }
  }

  lemma UnitDot(x: Vec, i: nat)
    requires i < |x|
    ensures Dot(UnitVector(|x|, i), x) == x[i]
  {
    DotUnit(x, i, |x|);
  }

  lemma {:induction false} DotNComm(u: Vec, v: Vec, n: nat)
    requires n <= |u| && n <= |v|
    ensures DotN(u, v, n) == DotN(v, u, n)
  {
    if n > 0 {
      DotNComm(u, v, n - 1);
    }
  }

  lemma DotComm(u: Vec, v: Vec)
    requires |u| == |v|
    ensures Dot(u, v) == Dot(v, u)
  {
    DotNComm(u, v, |u|);
  }

  /** The first `n` coordinates of `w` are those of `u + k * v`. */
  ghost predicate IsSum(w: Vec, u: Vec, v: Vec, k: real, n: nat) {
    n <= |w| && n <= |u| && n <= |v| && forall i :: 0 <= i < n ==> w[i] == u[i] + k * v[i]
  }

  lemma LinearStep(p: real, q: real, u: real, v: real, x: real, k: real)
    ensures p + k * q + (u + k * v) * x == (p + u * x) + k * (q + v * x)
  {
    assert (k * v) * x == k * (v * x);
  }

  lemma {:induction false} DotNLinear(w: Vec, u: Vec, v: Vec, k: real, x: Vec, n: nat)
    requires IsSum(w, u, v, k, n) && n <= |x|
    ensures DotN(w, x, n) == DotN(u, x, n) + k * DotN(v, x, n)
  {
    if n > 0 {
      DotNLinear(w, u, v, k, x, n - 1);
      LinearStep(DotN(u, x, n - 1), DotN(v, x, n - 1), u[n - 1], v[n - 1], x[n - 1], k);
    }
  }

  lemma DotAdd(u: Vec, v: Vec, x: Vec)
    requires |u| == |v| == |x|
    ensures Dot(Add(u, v), x) == Dot(u, x) + Dot(v, x)
    ensures Dot(x, Add(u, v)) == Dot(x, u) + Dot(x, v)
  {
    DotNLinear(Add(u, v), u, v, 1.0, x, |x|);
    DotComm(Add(u, v), x);
    DotComm(u, x);
    DotComm(v, x);
  }

  lemma DotSub(u: Vec, v: Vec, x: Vec)
    requires |u| == |v| == |x|
    ensures Dot(Sub(u, v), x) == Dot(u, x) - Dot(v, x)
    ensures Dot(x, Sub(u, v)) == Dot(x, u) - Dot(x, v)
  {
    DotNLinear(Sub(u, v), u, v, -1.0, x, |x|);
    DotComm(Sub(u, v), x);
    DotComm(u, x);
    DotComm(v, x);
  }

  lemma {:induction false} DotZeroLeft(o: Vec, x: Vec, n: nat)
    requires n <= |o| && n <= |x| && forall i :: 0 <= i < n ==> o[i] == 0.0
    ensures DotN(o, x, n) == 0.0
  {
    if n > 0 {
      DotZeroLeft(o, x, n - 1);
    }
  }

  lemma DotScale(u: Vec, k: real, x: Vec)
    requires |u| == |x|
    ensures Dot(Scale(u, k), x) == k * Dot(u, x)
    ensures Dot(x, Scale(u, k)) == k * Dot(x, u)
  {
    DotZeroLeft(Zero(|x|), x, |x|);
    assert IsSum(Scale(u, k), Zero(|x|), u, k, |x|);
    DotNLinear(Scale(u, k), Zero(|x|), u, k, x, |x|);
    DotComm(Scale(u, k), x);
    DotComm(u, x);
  }

  // ----- Squared lengths -----

  lemma {:induction false} SqrNNonnegative(u: Vec, n: nat)
    requires n <= |u|
    ensures 0.0 <= DotN(u, u, n)
    ensures DotN(u, u, n) == 0.0 ==> forall i :: 0 <= i < n ==> u[i] == 0.0
  {
    if n > 0 {
      SqrNNonnegative(u, n - 1);
      assert 0.0 <= u[n - 1] * u[n - 1];
      if DotN(u, u, n) == 0.0 {
        NonpositiveSquare(u[n - 1]);
      }
    }
  }

  lemma SqrNonnegative(u: Vec)
    ensures 0.0 <= Sqr(u)
    ensures Sqr(u) == 0.0 ==> u == Zero(|u|)
  {
    SqrNNonnegative(u, |u|);
  }

  lemma SqrAdd(u: Vec, v: Vec)
    requires |u| == |v|
    ensures Sqr(Add(u, v)) == Sqr(u) + 2.0 * Dot(u, v) + Sqr(v)
  {
    DotAdd(u, v, Add(u, v));
    DotAdd(u, v, u);
    DotAdd(u, v, v);
    DotComm(u, v);
  }

  lemma SqrSub(u: Vec, v: Vec)
    requires |u| == |v|
    ensures Sqr(Sub(u, v)) == Sqr(u) - 2.0 * Dot(u, v) + Sqr(v)
  {
    DotSub(u, v, Sub(u, v));
    DotSub(u, v, u);
    DotSub(u, v, v);
    DotComm(u, v);
  }

  lemma SqrScale(u: Vec, k: real)
    ensures Sqr(Scale(u, k)) == (k * k) * Sqr(u)
  {
    DotScale(u, k, Scale(u, k));
    DotScale(u, k, u);
    assert k * (k * Sqr(u)) == (k * k) * Sqr(u);
  }

  /** Points at squared distance zero coincide. */
  lemma DistanceZero(u: Vec, v: Vec)
    requires |u| == |v|
    ensures 0.0 <= Dist2(u, v)
    ensures Dist2(u, v) == 0.0 <==> u == v
  {
    SqrNonnegative(Sub(u, v));
    if Dist2(u, v) == 0.0 {
      forall i | 0 <= i < |u|
        ensures u[i] == v[i]
      {
        assert Sub(u, v)[i] == Zero(|u|)[i];
      }
    }
    if u == v {
      DotZeroLeft(Sub(u, v), Sub(u, v), |u|);
    }
  }

  // ----- Combinations -----

  /** The combination of x with coefficients g, as a vector. */
  function Comb(d: nat, x: seq<Vec>, g: seq<real>, n: nat): (c: Vec)
    requires n <= |x| && n <= |g| && forall i :: 0 <= i < n ==> |x[i]| == d
    ensures |c| == d
  {
    if n == 0 then Zero(d) else Add(Comb(d, x, g, n - 1), Scale(x[n - 1], g[n - 1]))
  }

  /** The inner products of the first `n` vectors with `y`. */
  function Products(d: nat, x: seq<Vec>, y: Vec, n: nat): (p: Vec)
    requires n <= |x| && |y| == d && forall i :: 0 <= i < n ==> |x[i]| == d
    ensures |p| == n
  {
    seq(n, i requires 0 <= i < n => Dot(x[i], y))
  }

  /** The inner product with a combination is the combination of the inner products. */
  lemma {:induction false} CombDot(d: nat, x: seq<Vec>, g: seq<real>, n: nat, y: Vec)
    requires n <= |x| && n <= |g| && |y| == d && forall i :: 0 <= i < |x| ==> |x[i]| == d
    ensures Dot(Comb(d, x, g, n), y) == DotN(g, Products(d, x, y, |x|), n)
  {
    if n == 0 {
      DotZeroLeft(Zero(d), y, d);
    } else {
      hide Dot;
      CombDot(d, x, g, n - 1, y);
      DotAdd(Comb(d, x, g, n - 1), Scale(x[n - 1], g[n - 1]), y);
      DotScale(x[n - 1], g[n - 1], y);
    }
  }
}
