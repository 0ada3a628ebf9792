/**
 * The chain of balls that successful pushes build (Miniball.hpp:419-472), as values:
 * row k belongs to the k-th pushed point, and holds its Gram-Schmidt vector, coefficients,
 * and the centre and squared radius of the ball through the first k + 1 points.
 */
module MiniballChain {
  import opened Reals
  import opened Vectors

  datatype Row = Row(v: Vec, a: seq<real>, z: real, f: real, c: Vec, r2: real)

  ghost predicate Shaped(d: nat, q: seq<Vec>, rows: seq<Row>, n: nat) {
    n <= |q| && n <= |rows| &&
    forall k :: 0 <= k < n ==> |q[k]| == d && |rows[k].v| == d && |rows[k].c| == d && |rows[k].a| == k
  }

  /** `w` minus its components along the vectors of rows 1 to n - 1. */
  function Residual(d: nat, rows: seq<Row>, a: seq<real>, w: Vec, n: nat): (r: Vec)
    requires n <= |rows| && n <= |a| && |w| == d && forall k :: 0 <= k < n ==> |rows[k].v| == d
    ensures |r| == d
  {
    if n <= 1 then w else Sub(Residual(d, rows, a, w, n - 1), Scale(rows[n - 1].v, a[n - 1]))
  }

  /** By how much `p` lies outside the ball of row `k`. */
  function Excess(p: Vec, row: Row): real
    requires |p| == |row.c|
  {
    Dist2(p, row.c) - row.r2
  }

  /** a_{k,i}: the coefficient of `w` along a vector `v` with z = 2|v|^2 (Miniball.hpp:437-441). */
  function Along(v: Vec, w: Vec, z: real): real
    requires |v| == |w| && z != 0.0
  {
    Dot(v, w) * (2.0 / z)
  }

  function Step(e: real, z: real): real
    requires z != 0.0
  {
    e / z
  }

  function NextRadius(r2: real, e: real, f: real): real {
    r2 + e * f / 2.0
  }

  /** `row` is what a successful push of `p` computes from rows 0 to k - 1, where `o` was pushed first. */
  ghost predicate NewRow(d: nat, rows: seq<Row>, k: nat, o: Vec, p: Vec, row: Row)
    requires 1 <= k <= |rows| && |o| == |p| == |row.v| == d && |row.a| == k
    requires forall i :: 0 <= i < k ==> |rows[i].v| == d && |rows[i].c| == d
  {
    var w := Sub(p, o);
    var e := Excess(p, rows[k - 1]);
    (forall i :: 1 <= i < k ==> rows[i].z != 0.0 && row.a[i] == Along(rows[i].v, w, rows[i].z)) &&
    row.v == Residual(d, rows, row.a, w, k) &&
    0.0 < row.z && row.z == 2.0 * Sqr(row.v) &&
    row.f == Step(e, row.z) &&
    row.c == Add(rows[k - 1].c, Scale(row.v, row.f)) &&
    row.r2 == NextRadius(rows[k - 1].r2, e, row.f)
  }

  /** Row `k` is what a successful push of q[k] computes from the rows below it. */
  ghost predicate RowOk(d: nat, q: seq<Vec>, rows: seq<Row>, k: nat)
    requires Shaped(d, q, rows, k + 1)
  {
    if k == 0 then rows[0].c == q[0] && rows[0].r2 == 0.0
    else NewRow(d, rows, k, q[0], q[k], rows[k])
  }

  /** The first `n` rows are those of a chain of successful pushes of the first `n` points. */
  ghost predicate Chain(d: nat, q: seq<Vec>, rows: seq<Row>, n: nat) {
    Shaped(d, q, rows, n) && forall k :: 0 <= k < n ==> RowOk(d, q, rows, k)
  }

  ghost predicate Orthogonal(d: nat, rows: seq<Row>, n: nat)
    requires n <= |rows| && forall k :: 0 <= k < n ==> |rows[k].v| == d
  {
    forall i, j :: 1 <= i < j < n ==> Dot(rows[i].v, rows[j].v) == 0.0
  }

  // ----- Orthogonality -----

  /** Removing components along vectors orthogonal to `x` does not change the inner product with `x`. */
  lemma {:induction false} ResidualDot(d: nat, rows: seq<Row>, a: seq<real>, w: Vec, n: nat, x: Vec)
    requires n <= |rows| && n <= |a| && |w| == d && |x| == d && forall k :: 0 <= k < n ==> |rows[k].v| == d
    requires forall i :: 1 <= i < n ==> Dot(rows[i].v, x) == 0.0
    ensures Dot(Residual(d, rows, a, w, n), x) == Dot(w, x)
  {
    if n > 1 {
      hide Dot;
      ResidualDot(d, rows, a, w, n - 1, x);
      DotSub(Residual(d, rows, a, w, n - 1), Scale(rows[n - 1].v, a[n - 1]), x);
      DotScale(rows[n - 1].v, a[n - 1], x);
    }
  }

  /** If `x` is one of the vectors, its own component is removed. */
  lemma {:induction false} ResidualDotOwn(d: nat, rows: seq<Row>, a: seq<real>, w: Vec, n: nat, j: nat)
    requires n <= |rows| && n <= |a| && |w| == d && 1 <= j < n && forall k :: 0 <= k < n ==> |rows[k].v| == d
    requires forall i :: 1 <= i < n && i != j ==> Dot(rows[i].v, rows[j].v) == 0.0
    ensures Dot(Residual(d, rows, a, w, n), rows[j].v) == Dot(w, rows[j].v) - a[j] * Sqr(rows[j].v)
  {
    var x, y, k, before := rows[j].v, rows[n - 1].v, a[n - 1], Residual(d, rows, a, w, n - 1);
    assert Residual(d, rows, a, w, n) == Sub(before, Scale(y, k));
    hide Dot, Residual;
    DotSub(before, Scale(y, k), x);
    DotScale(y, k, x);
    if n - 1 == j {
      ResidualDot(d, rows, a, w, n - 1, x);
    } else {
      ResidualDotOwn(d, rows, a, w, n - 1, j);
    }
  }

  lemma Inverse(coefficient: real, p: real, r: real, s: real)
    requires coefficient == p * r && r * (2.0 * s) == 2.0
    ensures coefficient * s == p
  {
    assert r * s == 1.0;
    assert coefficient * s == p * (r * s);
  }

  lemma OwnComponent(coefficient: real, p: real, s: real, z: real)
    requires 0.0 < z && z == 2.0 * s && coefficient == p * (2.0 / z)
    ensures coefficient * s == p
  {
    Quotient(2.0, z);
    Inverse(coefficient, p, 2.0 / z, s);
  }

  lemma NewRowOrthogonal(d: nat, q: seq<Vec>, rows: seq<Row>, k: nat, j: nat)
    requires 1 <= j < k && Chain(d, q, rows, k + 1) && Orthogonal(d, rows, k)
    ensures Dot(rows[j].v, rows[k].v) == 0.0
  {
    hide Dot, Residual;
    var w, x := Sub(q[k], q[0]), rows[j].v;
    forall i | 1 <= i < k && i != j
      ensures Dot(rows[i].v, rows[j].v) == 0.0
    {
      DotComm(rows[i].v, rows[j].v);
    }
    assert RowOk(d, q, rows, k) && RowOk(d, q, rows, j);
    ResidualDotOwn(d, rows, rows[k].a, w, k, j);
    DotComm(x, w);
    DotComm(x, rows[k].v);
    OwnComponent(rows[k].a[j], Dot(x, w), Sqr(x), rows[j].z);
  }

  /** Every chain has pairwise orthogonal vectors. */
  lemma {:induction false} ChainOrthogonal(d: nat, q: seq<Vec>, rows: seq<Row>, n: nat)
    requires Chain(d, q, rows, n)
    ensures Orthogonal(d, rows, n)
  {
    hide Dot, Residual;
    if n > 1 {
      ChainOrthogonal(d, q, rows, n - 1);
      var k := n - 1;
      forall j | 1 <= j < k
        ensures Dot(rows[j].v, rows[k].v) == 0.0
      {
        NewRowOrthogonal(d, q, rows, k, j);
      }
    }
  }

  // ----- The pushed points and the centres lie in the span of the vectors -----

  lemma ZeroDot(p: Vec, x: Vec)
    requires |p| == |x|
    ensures Dot(Sub(p, p), x) == 0.0
  {
    DotZeroLeft(Sub(p, p), x, |x|);
  }

  /** A later vector is orthogonal to the displacement of every earlier point. */
  lemma PointOrthogonal(d: nat, q: seq<Vec>, rows: seq<Row>, n: nat, i: nat, k: nat)
    requires Chain(d, q, rows, n) && i < k < n
    ensures Dot(Sub(q[i], q[0]), rows[k].v) == 0.0
  {
    hide Dot, Residual;
    ChainOrthogonal(d, q, rows, n);
    if i == 0 {
      ZeroDot(q[0], rows[k].v);
    } else {
      assert RowOk(d, q, rows, i);
      ResidualDot(d, rows, rows[i].a, Sub(q[i], q[0]), i, rows[k].v);
    }
  }

  /** A vector's inner product with its own point's displacement is its squared length. */
  lemma PointOwn(d: nat, q: seq<Vec>, rows: seq<Row>, n: nat, k: nat)
    requires Chain(d, q, rows, n) && 1 <= k < n
    ensures Dot(Sub(q[k], q[0]), rows[k].v) == Sqr(rows[k].v)
  {
    hide Dot, Residual;
    ChainOrthogonal(d, q, rows, n);
    assert RowOk(d, q, rows, k);
    ResidualDot(d, rows, rows[k].a, Sub(q[k], q[0]), k, rows[k].v);
  }

  lemma {:induction false} CentreOrthogonal(d: nat, q: seq<Vec>, rows: seq<Row>, n: nat, m: nat, k: nat)
    requires Chain(d, q, rows, n) && m < k < n
    ensures Dot(Sub(rows[m].c, q[0]), rows[k].v) == 0.0
  {
    hide Dot, Residual;
    assert RowOk(d, q, rows, m);
    if m == 0 {
      ZeroDot(q[0], rows[k].v);
    } else {
      var v, c, f := rows[m].v, rows[m - 1].c, rows[m].f;
      CentreOrthogonal(d, q, rows, n, m - 1, k);
      ChainOrthogonal(d, q, rows, n);
      assert Sub(rows[m].c, q[0]) == Add(Sub(c, q[0]), Scale(v, f));
      DotAdd(Sub(c, q[0]), Scale(v, f), rows[k].v);
      DotScale(v, f, rows[k].v);
    }
  }

  lemma RelativeDot(p: Vec, c: Vec, o: Vec, x: Vec)
    requires |p| == |c| == |o| == |x|
    ensures Dot(Sub(p, c), x) == Dot(Sub(p, o), x) - Dot(Sub(c, o), x)
  {
    hide Dot;
    assert Sub(p, c) == Sub(Sub(p, o), Sub(c, o));
    DotSub(Sub(p, o), Sub(c, o), x);
  }

  // ----- The ball of a row passes through the points pushed so far -----

  lemma MovedCentre(p: Vec, c: Vec, v: Vec, f: real)
    requires |p| == |c| == |v|
    ensures Dist2(p, Add(c, Scale(v, f))) == Dist2(p, c) - 2.0 * (f * Dot(Sub(p, c), v)) + (f * f) * Sqr(v)
  {
    hide Dot, Sqr;
    assert Sub(p, Add(c, Scale(v, f))) == Sub(Sub(p, c), Scale(v, f));
    SqrSub(Sub(p, c), Scale(v, f));
    DotScale(v, f, Sub(p, c));
    SqrScale(v, f);
  }

  lemma NewRadius(f: real, z: real, e: real, s: real)
    requires z == 2.0 * s && f * z == e
    ensures (f * f) * s == e * f / 2.0 && 2.0 * (f * s) == e
  {
    assert (f * f) * s == f * (f * z) / 2.0;
    assert 2.0 * (f * s) == f * z;
  }

  lemma {:induction false} Equidistant(d: nat, q: seq<Vec>, rows: seq<Row>, n: nat, i: nat, k: nat)
    requires Chain(d, q, rows, n) && i <= k < n
    ensures Dist2(q[i], rows[k].c) == rows[k].r2
  {
    hide Dot, Residual, Dist2;
    assert RowOk(d, q, rows, k);
    if k == 0 {
      DistanceZero(q[0], q[0]);
    } else {
      var v, c, f, e := rows[k].v, rows[k - 1].c, rows[k].f, Excess(q[k], rows[k - 1]);
      RelativeDot(q[i], c, q[0], v);
      CentreOrthogonal(d, q, rows, n, k - 1, k);
      MovedCentre(q[i], c, v, f);
      Quotient(e, rows[k].z);
      if i < k {
        PointOrthogonal(d, q, rows, n, i, k);
        Equidistant(d, q, rows, n, i, k - 1);
        assert Dist2(q[i], c) == rows[k - 1].r2;
        NewRadius(f, rows[k].z, e, Sqr(v));
      } else {
        PointOwn(d, q, rows, n, k);
        NewRadius(f, rows[k].z, e, Sqr(v));
      }
    }
  }

  // ----- Radii -----

  lemma Growth(e: real, z: real, f: real)
    requires 0.0 < z && f == e / z
    ensures 0.0 <= e * f / 2.0
    ensures e != 0.0 ==> 0.0 < e * f / 2.0
  {
    Quotient(e, z);
    MulSign(f, z);
    MulSign(e, f);
  }

  /** Squared radii never decrease along a chain; they increase where the new point was off the sphere. */
  lemma {:induction false} RadiusMonotone(d: nat, q: seq<Vec>, rows: seq<Row>, n: nat, m: nat, k: nat)
    requires Chain(d, q, rows, n) && m <= k < n
    ensures 0.0 <= rows[m].r2 <= rows[k].r2
    ensures m < k && Excess(q[k], rows[k - 1]) != 0.0 ==> rows[m].r2 < rows[k].r2
  {
    hide Dot, Residual, Dist2, Excess;
    assert RowOk(d, q, rows, k);
    if m < k {
      RadiusMonotone(d, q, rows, n, m, k - 1);
      Growth(Excess(q[k], rows[k - 1]), rows[k].z, rows[k].f);
    } else if k > 0 {
      RadiusMonotone(d, q, rows, n, k - 1, k - 1);
      Growth(Excess(q[k], rows[k - 1]), rows[k].z, rows[k].f);
    }
  }

  /** Two different points already span a ball of positive radius. */
  lemma SecondRadiusPositive(d: nat, q: seq<Vec>, rows: seq<Row>, n: nat)
    requires Chain(d, q, rows, n) && 2 <= n
    ensures 0.0 < rows[n - 1].r2
  {
    hide Dot;
    assert RowOk(d, q, rows, 0) && RowOk(d, q, rows, 1);
    assert Excess(q[1], rows[0]) == Sqr(Sub(q[1], q[0]));
    RadiusMonotone(d, q, rows, n, 0, 1);
    RadiusMonotone(d, q, rows, n, 1, n - 1);
  }

  // ----- Chains depend only on their own rows -----

  lemma {:induction false} ResidualCong(d: nat, rows: seq<Row>, rows': seq<Row>, a: seq<real>, w: Vec, n: nat)
    requires n <= |rows| && n <= |rows'| && n <= |a| && |w| == d
    requires forall k :: 0 <= k < n ==> |rows[k].v| == d && rows[k] == rows'[k]
    ensures Residual(d, rows, a, w, n) == Residual(d, rows', a, w, n)
  {
    if n > 1 {
      ResidualCong(d, rows, rows', a, w, n - 1);
    }
  }

  lemma NewRowCong(d: nat, rows: seq<Row>, rows': seq<Row>, k: nat, o: Vec, p: Vec, row: Row)
    requires 1 <= k <= |rows| && k <= |rows'| && |o| == |p| == |row.v| == d && |row.a| == k
    requires forall i :: 0 <= i < k ==> |rows[i].v| == d && |rows[i].c| == d && rows[i] == rows'[i]
    requires NewRow(d, rows, k, o, p, row)
    ensures NewRow(d, rows', k, o, p, row)
  {
    hide Residual, Along, Step, NextRadius, Excess, Sqr;
    ResidualCong(d, rows, rows', row.a, Sub(p, o), k);
  }

  lemma ChainCong(d: nat, q: seq<Vec>, rows: seq<Row>, q': seq<Vec>, rows': seq<Row>, n: nat)
    requires Chain(d, q, rows, n) && n <= |q'| && n <= |rows'|
    requires forall k :: 0 <= k < n ==> q[k] == q'[k] && rows[k] == rows'[k]
    ensures Chain(d, q', rows', n)
  {
    hide NewRow;
    forall k | 0 <= k < n
      ensures RowOk(d, q', rows', k)
    {
      assert RowOk(d, q, rows, k);
      if 0 < k {
        NewRowCong(d, rows, rows', k, q[0], q[k], rows[k]);
      }
    }
  }

  /** Adding the row of a successful push extends a chain. */
  lemma ChainExtends(d: nat, q: seq<Vec>, rows: seq<Row>, q': seq<Vec>, rows': seq<Row>, n: nat)
    requires Chain(d, q, rows, n) && |q'| == n + 1 && |rows'| == n + 1
    requires forall k :: 0 <= k < n ==> q[k] == q'[k] && rows[k] == rows'[k]
    requires |q'[n]| == d && |rows'[n].v| == d && |rows'[n].c| == d && |rows'[n].a| == n
    requires Shaped(d, q', rows', n + 1) ==> RowOk(d, q', rows', n)
    ensures Chain(d, q', rows', n + 1)
  {
    hide RowOk;
    ChainCong(d, q, rows, q', rows', n);
  }
}
