/** There are at most `d` pairwise orthogonal nonzero vectors of dimension `d`, so a chain has at most d + 1 points. */
module Dimension {
  import opened Reals
  import opened Vectors
  import opened MiniballChain
  import opened SmallestBalls

  ghost predicate Independent(d: nat, x: seq<Vec>) {
    (forall i :: 0 <= i < |x| ==> |x[i]| == d && 0.0 < Sqr(x[i])) &&
    forall i, j :: 0 <= i < j < |x| ==> Dot(x[i], x[j]) == 0.0
  }

  // ----- Bessel's inequality for unit vectors -----

  /** The part of a vector's squared length that coordinate `j` contributes. */
  function Share(v: Vec, j: nat): real
    requires j < |v| && 0.0 < Sqr(v)
  {
    v[j] * v[j] / Sqr(v)
  }

  /** Unit vector `j` minus its components along the first `n` vectors. */
  ghost function Remainder(d: nat, x: seq<Vec>, j: nat, n: nat): (r: Vec)
    requires Independent(d, x) && n <= |x| && j < d
    ensures |r| == d
  {
    if n == 0 then UnitVector(d, j)
    else Sub(Remainder(d, x, j, n - 1), Scale(x[n - 1], x[n - 1][j] / Sqr(x[n - 1])))
  }

  ghost function Shares(d: nat, x: seq<Vec>, j: nat, n: nat): real
    requires Independent(d, x) && n <= |x| && j < d
  {
    if n == 0 then 0.0 else Shares(d, x, j, n - 1) + Share(x[n - 1], j)
  }

  lemma {:induction false} RemainderDot(d: nat, x: seq<Vec>, j: nat, n: nat, k: nat)
    requires Independent(d, x) && n <= k < |x| && j < d
    ensures Dot(Remainder(d, x, j, n), x[k]) == x[k][j]
  {
    hide Dot;
    if n == 0 {
      UnitDot(x[k], j);
    } else {
      var c := x[n - 1][j] / Sqr(x[n - 1]);
      RemainderDot(d, x, j, n - 1, k);
      DotSub(Remainder(d, x, j, n - 1), Scale(x[n - 1], c), x[k]);
      DotScale(x[n - 1], c, x[k]);
    }
  }

  lemma SameQuotient(x: real, y: real, s: real)
    requires 0.0 < s && x * s == y * s
    ensures x == y
  {
    assert (x - y) * s == 0.0;
    MulSign(x - y, s);
  }

  lemma Removed(p: real, s: real, c: real)
    requires 0.0 < s && c == p / s
    ensures -2.0 * (c * p) + (c * c) * s == -(p * p / s)
  {
    Quotient(p, s);
    Quotient(p * p, s);
    assert c * s == p;
    assert (c * c) * s == c * (c * s);
    assert (c * p) * s == p * p;
    SameQuotient(c * p, p * p / s, s);
  }

  lemma RemovedShare(v: Vec, j: nat, c: real)
    requires j < |v| && 0.0 < Sqr(v) && c == v[j] / Sqr(v)
    ensures -2.0 * (c * v[j]) + (c * c) * Sqr(v) == -Share(v, j)
  {
    hide Sqr;
    Removed(v[j], Sqr(v), c);
  }

  lemma {:induction false} RemainderSquare(d: nat, x: seq<Vec>, j: nat, n: nat)
    requires Independent(d, x) && n <= |x| && j < d
    ensures Sqr(Remainder(d, x, j, n)) == 1.0 - Shares(d, x, j, n)
  {
    hide Dot;
    if n == 0 {
      UnitDot(UnitVector(d, j), j);
    } else {
      var r, v := Remainder(d, x, j, n - 1), x[n - 1];
      var c := v[j] / Sqr(v);
      RemainderSquare(d, x, j, n - 1);
      RemainderDot(d, x, j, n - 1, n - 1);
      SqrSub(r, Scale(v, c));
      DotScale(v, c, r);
      SqrScale(v, c);
      RemovedShare(v, j, c);
      hide Sqr, Share;
      assert Remainder(d, x, j, n) == Sub(r, Scale(v, c));
      assert Sqr(Remainder(d, x, j, n)) == Sqr(r) + (-2.0 * (c * v[j]) + (c * c) * Sqr(v));
    }
  }

  lemma SharesBounded(d: nat, x: seq<Vec>, j: nat)
    requires Independent(d, x) && j < d
    ensures Shares(d, x, j, |x|) <= 1.0
  {
    RemainderSquare(d, x, j, |x|);
    SqrNonnegative(Remainder(d, x, j, |x|));
  }

  // ----- Counting the shares by rows and by columns -----

  /** The shares of the first `m` coordinates in the first `n` vectors. */
  ghost function Total(d: nat, x: seq<Vec>, n: nat, m: nat): real
    requires Independent(d, x) && n <= |x| && m <= d
  {
    if m == 0 then 0.0 else Total(d, x, n, m - 1) + Shares(d, x, m - 1, n)
  }

  lemma {:induction false} TotalOfNone(d: nat, x: seq<Vec>, m: nat)
    requires Independent(d, x) && m <= d
    ensures Total(d, x, 0, m) == 0.0
  {
    if m > 0 {
      TotalOfNone(d, x, m - 1);
    }
  }

  lemma SumTimes(a: real, b: real, s: real)
    ensures (a + b) * s == a * s + b * s
  {
  }

  lemma AddQuotients(x: real, y: real, s: real)
    requires 0.0 < s
    ensures (x + y) / s == x / s + y / s
  {
    Quotient(x, s);
    Quotient(y, s);
    Quotient(x + y, s);
    SumTimes(x / s, y / s, s);
    SameQuotient((x + y) / s, x / s + y / s, s);
  }

  lemma {:induction false} TotalSplit(d: nat, x: seq<Vec>, n: nat, m: nat)
    requires Independent(d, x) && 1 <= n <= |x| && m <= d
    ensures Total(d, x, n, m) == Total(d, x, n - 1, m) + DotN(x[n - 1], x[n - 1], m) / Sqr(x[n - 1])
  {
    hide Dot;
    if m > 0 {
      var v := x[n - 1];
      TotalSplit(d, x, n, m - 1);
      AddQuotients(DotN(v, v, m - 1), v[m - 1] * v[m - 1], Sqr(v));
    }
  }

  /** Each vector counts one. */
  lemma {:induction false} TotalByVector(d: nat, x: seq<Vec>, n: nat)
    requires Independent(d, x) && n <= |x|
    ensures Total(d, x, n, d) == n as real
  {
    if n == 0 {
      TotalOfNone(d, x, d);
    } else {
      hide Total;
      TotalByVector(d, x, n - 1);
      TotalSplit(d, x, n, d);
    }
  }

  /** Each coordinate counts at most one. */
  lemma {:induction false} TotalByCoordinate(d: nat, x: seq<Vec>, m: nat)
    requires Independent(d, x) && m <= d
    ensures Total(d, x, |x|, m) <= m as real
  {
    if m > 0 {
      TotalByCoordinate(d, x, m - 1);
      SharesBounded(d, x, m - 1);
    }
  }

  lemma AtMostDimension(d: nat, x: seq<Vec>)
    requires Independent(d, x)
    ensures |x| <= d
  {
    TotalByVector(d, x, |x|);
    TotalByCoordinate(d, x, d);
  }

  // ----- Chains -----

  lemma ChainIndependent(d: nat, q: seq<Vec>, rows: seq<Row>, n: nat) returns (x: seq<Vec>)
    requires Chain(d, q, rows, n) && 1 <= n
    ensures |x| == n - 1 && Independent(d, x) && forall i :: 0 <= i < n - 1 ==> x[i] == rows[i + 1].v
  {
    hide Dot, Residual;
    ChainOrthogonal(d, q, rows, n);
    x := seq(n - 1, i requires 0 <= i < n - 1 => rows[i + 1].v);
    forall i | 0 <= i < |x|
      ensures |x[i]| == d && 0.0 < Sqr(x[i])
    {
      assert RowOk(d, q, rows, i + 1);
    }
  }

  /** No chain has more than d + 1 points. */
  lemma ChainLength(d: nat, q: seq<Vec>, rows: seq<Row>, n: nat)
    requires Chain(d, q, rows, n)
    ensures n <= d + 1
  {
    if 1 <= n {
      var x := ChainIndependent(d, q, rows, n);
      AtMostDimension(d, x);
    }
  }

  lemma DistanceIsSquare(x: Vec, y: Vec)
    requires |x| == |y|
    ensures Dist2(x, y) == Sqr(Sub(x, y))
  {
  }

  lemma LastShaped(d: nat, q: seq<Vec>, rows: seq<Row>)
    requires Chain(d, q, rows, d + 1)
    ensures d < |rows| && |rows[d].c| == d
  {
  }

  /** Through d + 1 points of a chain there is one ball only. */
  lemma FullChain(d: nat, q: seq<Vec>, rows: seq<Row>, c: Vec, r2: real)
    requires Chain(d, q, rows, d + 1) && |c| == d && forall i :: 0 <= i < d + 1 ==> Dist2(q[i], c) == r2
    ensures c == rows[d].c && r2 == rows[d].r2
  {
    LastShaped(d, q, rows);
    hide Dot, Dist2, Chain;
    var w := Sub(c, rows[d].c);
    var x := ChainIndependent(d, q, rows, d + 1);
    forall i | 0 <= i < d
      ensures Dot(x[i], w) == 0.0
    {
      CentreOffset(d, q, rows, d + 1, c, r2, i + 1);
    }
    SqrNonnegative(w);
    if 0.0 < Sqr(w) {
      assert Independent(d, x + [w]);
      AtMostDimension(d, x + [w]);
      assert false;
    }
    ThroughChain(d, q, rows, d + 1, c, r2);
    DistanceSymmetric(c, rows[d].c);
    DistanceIsSquare(c, rows[d].c);
    DistanceZero(c, rows[d].c);
  }

  /** So it is the smallest around any points that some ball through them encloses. */
  lemma FullLeast(d: nat, q: seq<Vec>, rows: seq<Row>, inside: set<Vec>)
    requires Chain(d, q, rows, d + 1) && |q| == d + 1 && Feasible(d, inside, SetOf(q))
    ensures Least(d, Ball(rows[d].c, rows[d].r2), inside, SetOf(q))
  {
    CentreSize(d, q, rows, d + 1);
    hide Chain, Dist2, Fits;
    forall b: Ball | Fits(d, b, inside, SetOf(q))
      ensures b == Ball(rows[d].c, rows[d].r2)
    {
      ThroughAll(d, b, inside, q);
      FullChain(d, q, rows, b.centre, b.r2);
    }
  }
}
