/**
 * The optimality certificate of a chain: back substitution (Miniball.hpp:475-490) expresses the
 * centre as an affine combination of the pushed points, and if no coefficient is negative, no
 * smaller ball encloses them.
 */
module MiniballCertificate {
  import opened Reals
  import opened Vectors
  import opened MiniballChain

  // ----- Back substitution -----

  /** The value of l[i] after rows n - 1 down to `m` have been substituted. */
  function Partial(rows: seq<Row>, n: nat, i: nat, m: nat): real
    requires i < m <= n <= |rows| && forall k :: 0 <= k < n ==> |rows[k].a| == k
    decreases n - m, 1
  {
    if m == n then rows[i].f else Partial(rows, n, i, m + 1) - rows[m].a[i] * Coefficient(rows, n, m)
  }

  /** The coefficient of point `i` >= 1. */
  function Coefficient(rows: seq<Row>, n: nat, i: nat): real
    requires i < n <= |rows| && forall k :: 0 <= k < n ==> |rows[k].a| == k
    decreases n - i - 1, 2
  {
    Partial(rows, n, i, i + 1)
  }

  /** What is left of 1 after subtracting the coefficients of points n - 1 down to `m`. */
  function Rest(rows: seq<Row>, n: nat, m: nat): real
    requires 1 <= m <= n <= |rows| && forall k :: 0 <= k < n ==> |rows[k].a| == k
    decreases n - m
  {
    if m == n then 1.0 else Rest(rows, n, m + 1) - Coefficient(rows, n, m)
  }

  /** The coefficients of all points of the chain. */
  function Coefficients(rows: seq<Row>, n: nat): (l: seq<real>)
    requires 1 <= n <= |rows| && forall k :: 0 <= k < n ==> |rows[k].a| == k
    ensures |l| == n
  {
    seq(n, i requires 0 <= i < n => if i == 0 then Rest(rows, n, 1) else Coefficient(rows, n, i))
  }

  lemma PartialAt(rows: seq<Row>, n: nat, i: nat, m: nat)
    requires i < m <= n <= |rows| && forall k :: 0 <= k < n ==> |rows[k].a| == k
    ensures m == n ==> Partial(rows, n, i, m) == rows[i].f
    ensures m < n ==> Partial(rows, n, i, m) == Partial(rows, n, i, m + 1) - rows[m].a[i] * Coefficient(rows, n, m)
    ensures m == i + 1 ==> Coefficient(rows, n, i) == Partial(rows, n, i, m)
  {
  }

  lemma CoefficientAt(rows: seq<Row>, n: nat, i: nat)
    requires 1 <= i < n <= |rows| && forall k :: 0 <= k < n ==> |rows[k].a| == k
    ensures Coefficients(rows, n)[i] == Coefficient(rows, n, i)
  {
    hide Coefficient;
  }

  // ----- Sums -----

  function Sum(l: seq<real>, lo: nat, hi: nat): real
    requires lo <= hi <= |l|
  {
    if lo == hi then 0.0 else Sum(l, lo, hi - 1) + l[hi - 1]
  }

  /** Coordinate `t` of the combination of x[lo..hi] with coefficients `g`. */
  function SumAt(x: seq<Vec>, g: seq<real>, lo: nat, hi: nat, t: nat): real
    requires lo <= hi <= |x| && hi <= |g| && forall i :: lo <= i < hi ==> t < |x[i]|
  {
    if lo == hi then 0.0 else SumAt(x, g, lo, hi - 1, t) + g[hi - 1] * x[hi - 1][t]
  }

  function VectorsOf(rows: seq<Row>): (v: seq<Vec>)
    ensures |v| == |rows| && forall i :: 0 <= i < |v| ==> v[i] == rows[i].v
  {
    seq(|rows|, i requires 0 <= i < |rows| => rows[i].v)
  }

  /** The displacements of the points from the first. */
  function Displacements(d: nat, q: seq<Vec>, n: nat): (w: seq<Vec>)
    requires n <= |q| && forall i :: 0 <= i < n ==> |q[i]| == d
    ensures |w| == n && forall i :: 0 <= i < n ==> w[i] == Sub(q[i], q[0])
  {
    seq(n, i requires 0 <= i < n => Sub(q[i], q[0]))
  }

  lemma {:induction false} SumAtLinear(x: seq<Vec>, g: seq<real>, h: seq<real>, a: seq<real>, k: real, lo: nat,
                                       hi: nat, t: nat)
    requires lo <= hi <= |x| && hi <= |g| && hi <= |h| && hi <= |a| && forall i :: lo <= i < hi ==> t < |x[i]|
    requires forall i :: lo <= i < hi ==> h[i] == g[i] - a[i] * k
    ensures SumAt(x, h, lo, hi, t) == SumAt(x, g, lo, hi, t) - k * SumAt(x, a, lo, hi, t)
  {
    if lo < hi {
      SumAtLinear(x, g, h, a, k, lo, hi - 1, t);
      var i := hi - 1;
      assert (g[i] - a[i] * k) * x[i][t] == g[i] * x[i][t] - k * (a[i] * x[i][t]);
    }
  }

  lemma {:induction false} SumAtSplit(x: seq<Vec>, g: seq<real>, lo: nat, hi: nat, t: nat)
    requires lo < hi <= |x| && hi <= |g| && forall i :: lo <= i < hi ==> t < |x[i]|
    ensures SumAt(x, g, lo, hi, t) == g[lo] * x[lo][t] + SumAt(x, g, lo + 1, hi, t)
  {
    if lo + 1 < hi {
      SumAtSplit(x, g, lo, hi - 1, t);
    }
  }

  lemma {:induction false} SumSplit(l: seq<real>, lo: nat, hi: nat)
    requires lo < hi <= |l|
    ensures Sum(l, lo, hi) == l[lo] + Sum(l, lo + 1, hi)
  {
    if lo + 1 < hi {
      SumSplit(l, lo, hi - 1);
    }
  }

  // ----- The centre as a combination of the points -----

  lemma {:induction false} ResidualAt(d: nat, rows: seq<Row>, a: seq<real>, w: Vec, n: nat, t: nat)
    requires 1 <= n <= |rows| && n <= |a| && |w| == d && t < d && forall k :: 0 <= k < n ==> |rows[k].v| == d
    ensures Residual(d, rows, a, w, n)[t] == w[t] - SumAt(VectorsOf(rows), a, 1, n, t)
  {
    if n > 1 {
      ResidualAt(d, rows, a, w, n - 1, t);
    }
  }

  /** The centre is the first point plus the combination of the vectors with coefficients f. */
  lemma {:induction false} CentreAt(d: nat, q: seq<Vec>, rows: seq<Row>, f: seq<real>, n: nat, m: nat, t: nat)
    requires Chain(d, q, rows, n) && 1 <= m <= n && t < d
    requires |f| == n && forall i :: 0 <= i < n ==> f[i] == rows[i].f
    ensures rows[m - 1].c[t] - q[0][t] == SumAt(VectorsOf(rows), f, 1, m, t)
  {
    hide Residual, Dot;
    assert RowOk(d, q, rows, m - 1);
    if m > 1 {
      CentreAt(d, q, rows, f, n, m - 1, t);
    }
  }

  /** The values of l[1..m] after substitution down to row `m`. */
  function Partials(rows: seq<Row>, n: nat, m: nat): (g: seq<real>)
    requires 1 <= m <= n <= |rows| && forall k :: 0 <= k < n ==> |rows[k].a| == k
    ensures |g| == m
  {
    seq(m, i requires 0 <= i < m => Partial(rows, n, i, m))
  }

  lemma RowVectorAt(d: nat, q: seq<Vec>, rows: seq<Row>, n: nat, m: nat, t: nat)
    requires Chain(d, q, rows, n) && 1 <= m < n && t < d
    ensures rows[m].v[t] == Displacements(d, q, n)[m][t] - SumAt(VectorsOf(rows), rows[m].a, 1, m, t)
  {
    hide Dot, Residual, SumAt;
    assert RowOk(d, q, rows, m);
    ResidualAt(d, rows, rows[m].a, Sub(q[m], q[0]), m, t);
  }

  lemma PartialStep(rows: seq<Row>, n: nat, m: nat)
    requires 1 <= m < n <= |rows| && forall k :: 0 <= k < n ==> |rows[k].a| == k
    ensures forall i :: 0 <= i < m ==>
              Partials(rows, n, m)[i] == Partials(rows, n, m + 1)[i] - rows[m].a[i] * Coefficient(rows, n, m)
    ensures Partials(rows, n, m + 1)[m] == Coefficient(rows, n, m)
  {
  }

  lemma Substitute(k: real, v: real, w: real, s: real)
    requires v == w - s
    ensures k * v == k * w - k * s
  {
  }

  /** Replacing the multiple of row `m`'s vector by a multiple of its point. */
  lemma SubstituteRow(d: nat, q: seq<Vec>, rows: seq<Row>, n: nat, m: nat, t: nat)
    requires Chain(d, q, rows, n) && 1 <= m < n && t < d
    ensures SumAt(VectorsOf(rows), Partials(rows, n, m + 1), 1, m + 1, t)
         == SumAt(VectorsOf(rows), Partials(rows, n, m), 1, m, t)
            + Coefficient(rows, n, m) * Displacements(d, q, n)[m][t]
  {
    hide RowOk, Coefficient, Partials;
    var v, w, k := VectorsOf(rows), Displacements(d, q, n), Coefficient(rows, n, m);
    var g, h := Partials(rows, n, m + 1), Partials(rows, n, m);
    PartialStep(rows, n, m);
    SumAtLinear(v, g, h, rows[m].a, k, 1, m, t);
    RowVectorAt(d, q, rows, n, m, t);
    Substitute(k, v[m][t], w[m][t], SumAt(v, rows[m].a, 1, m, t));
  }

  lemma SubstitutionStart(d: nat, q: seq<Vec>, rows: seq<Row>, n: nat, t: nat)
    requires Chain(d, q, rows, n) && 1 <= n && t < d
    ensures SumAt(Displacements(d, q, n), Coefficients(rows, n), n, n, t) == 0.0
    ensures SumAt(VectorsOf(rows), Partials(rows, n, n), 1, n, t) == rows[n - 1].c[t] - q[0][t]
  {
    hide RowOk;
    CentreAt(d, q, rows, Partials(rows, n, n), n, n, t);
  }

  /** Substitution keeps the combination: coefficients from `m` on multiply points, those below multiply vectors. */
  lemma {:induction false} SubstitutionInvariant(d: nat, q: seq<Vec>, rows: seq<Row>, n: nat, m: nat, t: nat)
    requires Chain(d, q, rows, n) && 1 <= m <= n && t < d
    ensures SumAt(Displacements(d, q, n), Coefficients(rows, n), m, n, t)
            + SumAt(VectorsOf(rows), Partials(rows, n, m), 1, m, t)
            == rows[n - 1].c[t] - q[0][t]
    decreases n - m
  {
    hide RowOk, SumAt, Partials, Coefficient, Coefficients, Displacements, VectorsOf;
    if m == n {
      SubstitutionStart(d, q, rows, n, t);
    } else {
      SubstitutionInvariant(d, q, rows, n, m + 1, t);
      SumAtSplit(Displacements(d, q, n), Coefficients(rows, n), m, n, t);
      SubstituteRow(d, q, rows, n, m, t);
      CoefficientAt(rows, n, m);
    }
  }

  lemma {:induction false} RestIsRemainder(rows: seq<Row>, n: nat, m: nat)
    requires 1 <= m <= n <= |rows| && forall k :: 0 <= k < n ==> |rows[k].a| == k
    ensures Rest(rows, n, m) == 1.0 - Sum(Coefficients(rows, n), m, n)
    decreases n - m
  {
    if m < n {
      RestIsRemainder(rows, n, m + 1);
      SumSplit(Coefficients(rows, n), m, n);
    }
  }

  lemma {:induction false} CombAt(d: nat, x: seq<Vec>, g: seq<real>, n: nat, t: nat)
    requires n <= |x| && n <= |g| && t < d && forall i :: 0 <= i < n ==> |x[i]| == d
    ensures Comb(d, x, g, n)[t] == SumAt(x, g, 0, n, t)
  {
    if n > 0 {
      CombAt(d, x, g, n - 1, t);
    }
  }

  lemma {:induction false} DisplacedSum(d: nat, q: seq<Vec>, l: seq<real>, n: nat, m: nat, t: nat)
    requires n <= |q| && m <= n <= |l| && t < d && forall i :: 0 <= i < n ==> |q[i]| == d
    requires 0 < n
    ensures SumAt(Displacements(d, q, n), l, 0, m, t) == SumAt(q, l, 0, m, t) - Sum(l, 0, m) * q[0][t]
  {
    if m > 0 {
      DisplacedSum(d, q, l, n, m - 1, t);
      var i := m - 1;
      assert l[i] * (q[i][t] - q[0][t]) == l[i] * q[i][t] - l[i] * q[0][t];
      assert (Sum(l, 0, i) + l[i]) * q[0][t] == Sum(l, 0, i) * q[0][t] + l[i] * q[0][t];
    }
  }

  /** Back substitution expresses the centre as an affine combination of the pushed points. */
  lemma AffineCombination(d: nat, q: seq<Vec>, rows: seq<Row>, n: nat)
    requires Chain(d, q, rows, n) && 1 <= n
    ensures Sum(Coefficients(rows, n), 0, n) == 1.0
    ensures Comb(d, q, Coefficients(rows, n), n) == rows[n - 1].c
  {
    var l, w := Coefficients(rows, n), Displacements(d, q, n);
    RestIsRemainder(rows, n, 1);
    SumSplit(l, 0, n);
    forall t | 0 <= t < d
      ensures Comb(d, q, l, n)[t] == rows[n - 1].c[t]
    {
      CombAt(d, q, l, n, t);
      SubstitutionInvariant(d, q, rows, n, 1, t);
      DisplacedSum(d, q, l, n, n, t);
      SumAtSplit(w, l, 0, n, t);
      assert w[0][t] == 0.0;
    }
  }

  // ----- Optimality -----

  /** The weighted mean squared distance of the points from `c`. */
  function MeanDist2(d: nat, q: seq<Vec>, l: seq<real>, n: nat, c: Vec): real
    requires n <= |q| && n <= |l| && |c| == d && forall i :: 0 <= i < n ==> |q[i]| == d
  {
    if n == 0 then 0.0 else MeanDist2(d, q, l, n - 1, c) + l[n - 1] * Dist2(q[n - 1], c)
  }

  lemma ZeroProduct(e: Vec)
    ensures Dot(Zero(|e|), e) == 0.0
  {
    DotZeroLeft(Zero(|e|), e, |e|);
  }

  lemma Distribute(k: real, s: real, m: real, p: real)
    ensures s * m + k * (m + 2.0 * p) == (s + k) * m + 2.0 * (k * p)
  {
  }

  lemma PointExpansion(p: Vec, c: Vec, c': Vec)
    requires |p| == |c| == |c'|
    ensures Dist2(p, c') == Dist2(p, c) + Dist2(c, c') - 2.0 * Dot(c, Sub(c, c')) + 2.0 * Dot(p, Sub(c, c'))
  {
    hide Dot, Sqr;
    assert Sub(p, c') == Add(Sub(p, c), Sub(c, c'));
    SqrAdd(Sub(p, c), Sub(c, c'));
    DotSub(p, c, Sub(c, c'));
  }

  lemma {:induction false} MeanExpansion(d: nat, q: seq<Vec>, l: seq<real>, n: nat, c: Vec, c': Vec, r2: real)
    requires n <= |q| && n <= |l| && |c| == |c'| == d && forall i :: 0 <= i < n ==> |q[i]| == d && Dist2(q[i], c) == r2
    ensures MeanDist2(d, q, l, n, c')
            == Sum(l, 0, n) * (r2 + Dist2(c, c') - 2.0 * Dot(c, Sub(c, c'))) + 2.0 * Dot(Comb(d, q, l, n), Sub(c, c'))
  {
    hide Dot, Dist2;
    var e := Sub(c, c');
    if n == 0 {
      DotZeroLeft(Zero(d), e, d);
      ZeroProduct(e);
    } else {
      var i := n - 1;
      MeanExpansion(d, q, l, i, c, c', r2);
      DotAdd(Comb(d, q, l, i), Scale(q[i], l[i]), e);
      DotScale(q[i], l[i], e);
      PointExpansion(q[i], c, c');
      Distribute(l[i], Sum(l, 0, i), r2 + Dist2(c, c') - 2.0 * Dot(c, e), Dot(q[i], e));
    }
  }

  lemma {:induction false} MeanBound(d: nat, q: seq<Vec>, l: seq<real>, n: nat, c: Vec, r2: real)
    requires n <= |q| && n <= |l| && |c| == d
    requires forall i :: 0 <= i < n ==> |q[i]| == d && Dist2(q[i], c) <= r2 && 0.0 <= l[i]
    ensures MeanDist2(d, q, l, n, c) <= Sum(l, 0, n) * r2
  {
    hide Dist2;
    if n > 0 {
      MeanBound(d, q, l, n - 1, c, r2);
      MulSign(l[n - 1], r2 - Dist2(q[n - 1], c));
    }
  }

  /**
   * With nonnegative coefficients, the ball of the chain is the unique smallest ball that
   * encloses the pushed points: any other enclosing ball has a larger radius.
   */
  lemma SmallestBall(d: nat, q: seq<Vec>, rows: seq<Row>, n: nat, c: Vec, r2: real)
    requires Chain(d, q, rows, n) && 1 <= n && |c| == d
    requires forall i :: 0 <= i < n ==> 0.0 <= Coefficients(rows, n)[i]
    requires forall i :: 0 <= i < n ==> Dist2(q[i], c) <= r2
    ensures rows[n - 1].r2 + Dist2(rows[n - 1].c, c) <= r2
    ensures r2 <= rows[n - 1].r2 ==> c == rows[n - 1].c
  {
    hide Dot, Dist2, Coefficients, RowOk;
    var l, centre := Coefficients(rows, n), rows[n - 1].c;
    AffineCombination(d, q, rows, n);
    forall i | 0 <= i < n
      ensures Dist2(q[i], centre) == rows[n - 1].r2
    {
      Equidistant(d, q, rows, n, i, n - 1);
    }
    MeanBound(d, q, l, n, c, r2);
    MeanExpansion(d, q, l, n, centre, c, rows[n - 1].r2);
    DistanceZero(centre, c);
  }
}
