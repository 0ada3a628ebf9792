/** The smallest-enclosing-ball computation (Miniball.hpp), over exact reals. */
module Miniballs {
  import opened Reals
  import opened Vectors
  import opened MiniballChain
  import opened MiniballCertificate
  import opened SmallestBalls
  import opened Dimension
  import opened NumberSets
  import opened MoveToFront

  /** The square of the double machine epsilon (Miniball.hpp:421). */
  const EPS := 1.0 / 20282409603651670423947251286016.0

  /** Ten times the double machine epsilon (Miniball.hpp:195). */
  const TOL := 10.0 / 4503599627370496.0

  function RowOf(m: array2<real>, k: nat): (r: Vec)
    requires k < m.Length0
    reads m
    ensures |r| == m.Length1
  {
    seq(m.Length1, j requires 0 <= j < m.Length1 reads m => m[k, j])
  }

  lemma FirstRowOk(d: nat, q: seq<Vec>, rows: seq<Row>)
    requires Shaped(d, q, rows, 1) && rows[0].c == q[0] && rows[0].r2 == 0.0
    ensures RowOk(d, q, rows, 0)
  {
  }

  lemma MakeNewRow(d: nat, rows: seq<Row>, k: nat, o: Vec, p: Vec, row: Row)
    requires 1 <= k == |rows| && |o| == |p| == |row.v| == d && |row.a| == k
    requires forall i :: 0 <= i < k ==> |rows[i].v| == d && |rows[i].c| == d
    requires forall i :: 1 <= i < k ==> rows[i].z != 0.0 && row.a[i] == Along(rows[i].v, Sub(p, o), rows[i].z)
    requires row.v == Residual(d, rows, row.a, Sub(p, o), k)
    requires 0.0 < row.z && row.z == 2.0 * Sqr(row.v)
    requires row.f == Step(Dist2(p, rows[k - 1].c) - rows[k - 1].r2, row.z)
    requires row.c == Add(rows[k - 1].c, Scale(row.v, row.f))
    requires row.r2 == NextRadius(rows[k - 1].r2, Dist2(p, rows[k - 1].c) - rows[k - 1].r2, row.f)
    ensures NewRow(d, rows, k, o, p, row)
  {
    hide Along, Step, NextRadius, Residual, Sqr, Dist2;
  }

  lemma NewRowOk(d: nat, q: seq<Vec>, rows: seq<Row>, q': seq<Vec>, rows': seq<Row>, n: nat)
    requires Shaped(d, q, rows, n) && Shaped(d, q', rows', n + 1) && 1 <= n
    requires forall k :: 0 <= k < n ==> q[k] == q'[k] && rows[k] == rows'[k]
    requires NewRow(d, rows, n, q[0], q'[n], rows'[n])
    ensures RowOk(d, q', rows', n)
  {
    hide NewRow;
    NewRowCong(d, rows, rows', n, q[0], q'[n], rows'[n]);
  }

  class Miniball {
    const d: nat
    const points: seq<Vec>

    /** The list L, as indices of points; an iterator is a position in it. */
    var L: seq<nat>
    var supportEnd: nat
    var fsize: nat
    var ssize: nat
    /** current_c is a pointer to a row of `c`: this is the row. */
    var currentC: nat
    var currentSqrR: real
    const c: array2<real>
    const v: array2<real>
    const a: array2<real>
    const sqrR: array<real>
    const z: array<real>
    const f: array<real>
    const q0: array<real>

    /** The points of the last chain of successful pushes. */
    ghost var chain: seq<nat>
    /** How many rows of that chain no rejected push has overwritten. */
    ghost var intact: nat
    /** Whether any push has been rejected so far. */
    ghost var rejected: bool

    ghost predicate Shape() {
      (forall i :: 0 <= i < |points| ==> |points[i]| == d) &&
      c.Length0 == d + 1 && c.Length1 == d && v.Length0 == d + 1 && v.Length1 == d &&
      a.Length0 == d + 1 && a.Length1 == d &&
      sqrR.Length == d + 1 && z.Length == d + 1 && f.Length == d + 1 && q0.Length == d &&
      c != v && c != a && v != a &&
      sqrR != z && sqrR != f && sqrR != q0 && z != f && z != q0 && f != q0
    }

    ghost function RowAt(k: nat): Row
      requires Shape() && k <= d
      reads c, v, a, sqrR, z, f
    {
      Row(RowOf(v, k), seq(k, i requires 0 <= i < k reads a => if i == 0 then 0.0 else a[k, i]),
          z[k], f[k], RowOf(c, k), sqrR[k])
    }

    ghost function Rows(n: nat): (rows: seq<Row>)
      requires Shape() && n <= d + 1
      reads c, v, a, sqrR, z, f
      ensures |rows| == n && forall k :: 0 <= k < n ==> rows[k] == RowAt(k)
    {
      seq(n, k requires 0 <= k < n reads c, v, a, sqrR, z, f => RowAt(k))
    }

    /** The points of a chain of indices. */
    ghost function Chosen(indices: seq<nat>): (q: seq<Vec>)
      requires forall i :: 0 <= i < |indices| ==> indices[i] < |points|
      ensures |q| == |indices| && forall i :: 0 <= i < |q| ==> q[i] == points[indices[i]]
    {
      seq(|indices|, i requires 0 <= i < |indices| => points[indices[i]])
    }

    /** The current ball passes through every point of the chain. */
    ghost predicate BallOk()
      requires Shape() && ssize <= d + 1 && |chain| == ssize
      requires forall i :: 0 <= i < |chain| ==> chain[i] < |points|
      reads this`ssize, this`chain, this`currentC, this`currentSqrR, c, sqrR
    {
      (ssize == 0 ==> currentC == 0 && currentSqrR == -1.0) &&
      (0 < ssize ==>
        currentC == ssize - 1 && currentSqrR == sqrR[ssize - 1] && 0.0 <= currentSqrR &&
        (forall i :: 0 <= i < ssize ==> Dist2(points[chain[i]], RowOf(c, ssize - 1)) == currentSqrR) &&
        (forall i :: 0 <= i < ssize ==> 0.0 <= sqrR[i] <= currentSqrR)) &&
      (2 <= ssize ==> 0.0 < currentSqrR)
    }

    ghost predicate Valid()
      reads this, c, v, a, sqrR, z, f, q0
    {
      Shape() &&
      (forall i :: 0 <= i < |L| ==> L[i] < |points|) && supportEnd <= |L| &&
      fsize <= intact <= ssize <= d + 1 && |chain| == ssize &&
      (forall i :: 0 <= i < |chain| ==> chain[i] < |points|) &&
      (0 < ssize ==> q0[..] == points[chain[0]]) &&
      Chain(d, Chosen(chain), Rows(intact), intact) &&
      BallOk()
    }

    /** The state before the first pivot (Miniball.hpp:175-201). */
    constructor (d: nat, points: seq<Vec>)
      requires forall i :: 0 <= i < |points| ==> |points[i]| == d
      ensures AtRest() && !rejected && ssize == 0 && this.d == d && this.points == points && L == []
      ensures fresh(c) && fresh(v) && fresh(a) && fresh(sqrR) && fresh(z) && fresh(f) && fresh(q0)
    {
      this.d, this.points := d, points;
      L, supportEnd, fsize, ssize, currentC, currentSqrR := [], 0, 0, 0, 0, -1.0;
      c := new real[d + 1, d]((i, j) => 0.0);
      v := new real[d + 1, d]((i, j) => 0.0);
      a := new real[d + 1, d]((i, j) => 0.0);
      sqrR := new real[d + 1](i => 0.0);
      z := new real[d + 1](i => 0.0);
      f := new real[d + 1](i => 0.0);
      q0 := new real[d](i => 0.0);
      chain, intact, rejected := [], 0, false;
      new;
      hide AtRest;
      StartAtRest();
    }

    /** By how much a point lies outside the current ball. */
    ghost function ExcessOf(p: Vec): real
      requires Shape() && |p| == d && currentC <= d
      reads this, c
    {
      Dist2(p, RowOf(c, currentC)) - currentSqrR
    }

    lemma CurrentRow()
      requires Valid()
      ensures currentC <= d
    {
    }

    /** Miniball.hpp:402-411 */
    method Excess(pit: nat) returns (e: real)
      requires Valid() && pit < |points|
      ensures e == ExcessOf(points[pit])
    {
      hide Chain, BallOk;
      var p := points[pit];
      assert currentC <= d by { CurrentRow(); }
      ghost var w := Sub(p, RowOf(c, currentC));
      e := -currentSqrR;
      for k := 0 to d
        invariant e == DotN(w, w, k) - currentSqrR
      {
        e := e + (p[k] - c[currentC, k]) * (p[k] - c[currentC, k]);
      }
    }

    // ----- Rows below the one being built stay as they are -----

    twostate lemma RowsUnchanged(n: nat)
      requires Shape() && n <= d + 1
      requires forall k, j :: 0 <= k < n && 0 <= j < d ==> v[k, j] == old(v[k, j]) && c[k, j] == old(c[k, j])
      requires forall k, j :: 0 <= k < n && 0 <= j < d ==> a[k, j] == old(a[k, j])
      requires forall k :: 0 <= k < n ==> z[k] == old(z[k]) && f[k] == old(f[k]) && sqrR[k] == old(sqrR[k])
      ensures Rows(n) == old(Rows(n))
    {
      forall k | 0 <= k < n
        ensures RowAt(k) == old(RowAt(k))
      {
        assert RowOf(v, k) == old(RowOf(v, k)) && RowOf(c, k) == old(RowOf(c, k));
        assert RowAt(k).a == old(RowAt(k).a);
      }
    }

    // ----- The loops of push (Miniball.hpp:426-451) -----

    method SetDisplacement(p: Vec)
      requires Shape() && |p| == d && fsize <= d
      modifies v
      ensures RowOf(v, fsize) == Sub(p, q0[..])
      ensures forall k, j :: 0 <= k <= d && 0 <= j < d && k != fsize ==> v[k, j] == old(v[k, j])
    {
      for i := 0 to d
        invariant forall j :: 0 <= j < i ==> v[fsize, j] == p[j] - q0[j]
        invariant forall k, j :: 0 <= k <= d && 0 <= j < d && k != fsize ==> v[k, j] == old(v[k, j])
      {
        v[fsize, i] := p[i] - q0[i];
      }
    }

    method InnerProduct(i: nat)
      requires Shape() && 1 <= i < fsize <= d
      modifies a
      ensures a[fsize, i] == Dot(RowOf(v, i), RowOf(v, fsize))
      ensures forall k, j :: 0 <= k <= d && 0 <= j < d && !(k == fsize && j == i) ==> a[k, j] == old(a[k, j])
    {
      ghost var x, y := RowOf(v, i), RowOf(v, fsize);
      a[fsize, i] := 0.0;
      for j := 0 to d
        invariant a[fsize, i] == DotN(x, y, j)
        invariant forall k, j :: 0 <= k <= d && 0 <= j < d && !(k == fsize && j == i) ==> a[k, j] == old(a[k, j])
      {
        a[fsize, i] := a[fsize, i] + v[i, j] * v[fsize, j];
      }
    }

    method SetCoefficients()
      requires Shape() && 1 <= fsize <= d && forall i :: 1 <= i < fsize ==> z[i] != 0.0
      modifies a
      ensures forall i :: 1 <= i < fsize ==> a[fsize, i] == Along(RowOf(v, i), RowOf(v, fsize), z[i])
      ensures forall k, j :: 0 <= k <= d && 0 <= j < d && k != fsize ==> a[k, j] == old(a[k, j])
    {
      hide Dot;
      for i := 1 to fsize
        invariant forall h :: 1 <= h < i ==> a[fsize, h] == Along(RowOf(v, h), RowOf(v, fsize), z[h])
        invariant forall k, j :: 0 <= k <= d && 0 <= j < d && k != fsize ==> a[k, j] == old(a[k, j])
      {
        InnerProduct(i);
        a[fsize, i] := a[fsize, i] * (2.0 / z[i]);
      }
    }

    method SubtractRow(i: nat)
      requires Shape() && 1 <= i < fsize <= d
      modifies v
      ensures forall j :: 0 <= j < d ==> v[fsize, j] == old(v[fsize, j]) - a[fsize, i] * old(v[i, j])
      ensures forall k, j :: 0 <= k <= d && 0 <= j < d && k != fsize ==> v[k, j] == old(v[k, j])
    {
      for j := 0 to d
        invariant forall h :: 0 <= h < j ==> v[fsize, h] == old(v[fsize, h]) - a[fsize, i] * old(v[i, h])
        invariant forall h :: j <= h < d ==> v[fsize, h] == old(v[fsize, h])
        invariant forall k, h :: 0 <= k <= d && 0 <= h < d && k != fsize ==> v[k, h] == old(v[k, h])
      {
        v[fsize, j] := v[fsize, j] - a[fsize, i] * v[i, j];
      }
    }

    method SubtractComponents(ghost rows: seq<Row>, ghost w: Vec, ghost coefficients: seq<real>)
      requires Shape() && 1 <= fsize <= d && |rows| == fsize && |coefficients| == fsize && |w| == d
      requires forall i :: 0 <= i < fsize ==> |rows[i].v| == d && rows[i].v == RowOf(v, i)
      requires forall i :: 1 <= i < fsize ==> coefficients[i] == a[fsize, i]
      requires RowOf(v, fsize) == w
      modifies v
      ensures RowOf(v, fsize) == Residual(d, rows, coefficients, w, fsize)
      ensures forall k, j :: 0 <= k <= d && 0 <= j < d && k != fsize ==> v[k, j] == old(v[k, j])
    {
      for i := 1 to fsize
        invariant RowOf(v, fsize) == Residual(d, rows, coefficients, w, i)
        invariant forall k, j :: 0 <= k <= d && 0 <= j < d && k != fsize ==> v[k, j] == old(v[k, j])
      {
        ghost var before := RowOf(v, fsize);
        SubtractRow(i);
        forall j | 0 <= j < d
          ensures RowOf(v, fsize)[j] == Sub(before, Scale(rows[i].v, coefficients[i]))[j]
        {
          assert rows[i].v[j] == v[i, j];
        }
      }
    }

    method SetZ()
      requires Shape() && fsize <= d
      modifies z
      ensures z[fsize] == 2.0 * Sqr(RowOf(v, fsize))
      ensures forall k :: 0 <= k <= d && k != fsize ==> z[k] == old(z[k])
    {
      ghost var x := RowOf(v, fsize);
      z[fsize] := 0.0;
      for j := 0 to d
        invariant z[fsize] == DotN(x, x, j)
        invariant forall k :: 0 <= k <= d && k != fsize ==> z[k] == old(z[k])
      {
        z[fsize] := z[fsize] + v[fsize, j] * v[fsize, j];
      }
      z[fsize] := z[fsize] * 2.0;
    }

    lemma MovedRow(x: Vec, y: Vec, k: real, r: Vec)
      requires |x| == |y| == |r| && forall j :: 0 <= j < |r| ==> r[j] == x[j] + k * y[j]
      ensures r == Add(x, Scale(y, k))
    {
      assert forall j :: 0 <= j < |r| ==> r[j] == Add(x, Scale(y, k))[j];
    }

    /** Miniball.hpp:458-466 */
    method UpdateBall(p: Vec)
      requires Shape() && |p| == d && 1 <= fsize <= d && z[fsize] != 0.0
      modifies f, c, sqrR
      ensures var e := Dist2(p, old(RowOf(c, fsize - 1))) - old(sqrR[fsize - 1]);
              f[fsize] == Step(e, z[fsize]) &&
              RowOf(c, fsize) == Add(old(RowOf(c, fsize - 1)), Scale(RowOf(v, fsize), f[fsize])) &&
              sqrR[fsize] == NextRadius(old(sqrR[fsize - 1]), e, f[fsize])
      ensures forall k, j :: 0 <= k <= d && 0 <= j < d && k != fsize ==> c[k, j] == old(c[k, j])
      ensures forall k :: 0 <= k <= d && k != fsize ==> f[k] == old(f[k]) && sqrR[k] == old(sqrR[k])
    {
      var e := -sqrR[fsize - 1];
      ghost var x := Sub(p, RowOf(c, fsize - 1));
      for i := 0 to d
        invariant e == DotN(x, x, i) - sqrR[fsize - 1]
      {
        e := e + (p[i] - c[fsize - 1, i]) * (p[i] - c[fsize - 1, i]);
      }
      f[fsize] := e / z[fsize];
      assert e == Dist2(p, old(RowOf(c, fsize - 1))) - old(sqrR[fsize - 1]);
      for i := 0 to d
        modifies c
        invariant forall j :: 0 <= j < i ==> c[fsize, j] == old(c[fsize - 1, j]) + f[fsize] * v[fsize, j]
        invariant forall k, j :: 0 <= k <= d && 0 <= j < d && k != fsize ==> c[k, j] == old(c[k, j])
      {
        c[fsize, i] := c[fsize - 1, i] + f[fsize] * v[fsize, i];
      }
      assert RowOf(c, fsize) == Add(old(RowOf(c, fsize - 1)), Scale(RowOf(v, fsize), f[fsize])) by {
        MovedRow(old(RowOf(c, fsize - 1)), RowOf(v, fsize), f[fsize], RowOf(c, fsize));
      }
      sqrR[fsize] := sqrR[fsize - 1] + e * f[fsize] / 2.0;
    }

    // ----- push and pop -----

    ghost function NewCoefficients(p: Vec): (r: seq<real>)
      requires Shape() && |p| == d && 1 <= fsize <= d
      requires forall i :: 1 <= i < fsize ==> z[i] != 0.0
      reads this, v, z, q0
      ensures |r| == fsize
    {
      seq(fsize, i requires 0 <= i < fsize <= d && Shape() && |p| == d &&
        (1 <= i ==> z[i] != 0.0) reads this, v, z, q0 =>
        if i == 0 then 0.0 else Along(RowOf(v, i), Sub(p, q0[..]), z[i]))
    }

    /** The vector of the row that a push of `p` computes. */
    ghost function NewVector(p: Vec): (r: Vec)
      requires Shape() && |p| == d && 1 <= fsize <= d
      requires forall i :: 1 <= i < fsize ==> z[i] != 0.0
      reads this, c, v, a, sqrR, z, f, q0
    {
      Residual(d, Rows(fsize), NewCoefficients(p), Sub(p, q0[..]), fsize)
    }

    lemma SameVectors(rows: seq<Row>)
      requires Shape() && |rows| == fsize <= d
      requires forall i :: 0 <= i < fsize ==> |rows[i].v| == d && forall j :: 0 <= j < d ==> rows[i].v[j] == v[i, j]
      ensures forall i :: 0 <= i < fsize ==> rows[i].v == RowOf(v, i)
    {
    }

    /** The loops of push before the rejection test (Miniball.hpp:431-451). */
    method Orthogonalise(p: Vec)
      requires Shape() && |p| == d && 1 <= fsize <= d && forall i :: 1 <= i < fsize ==> z[i] != 0.0
      modifies v, a, z
      ensures RowOf(v, fsize) == old(NewVector(p)) && RowAt(fsize).a == old(NewCoefficients(p))
      ensures z[fsize] == 2.0 * Sqr(RowOf(v, fsize))
      ensures forall k, j :: 0 <= k <= d && 0 <= j < d && k != fsize ==>
        v[k, j] == old(v[k, j]) && a[k, j] == old(a[k, j])
      ensures forall k :: 0 <= k <= d && k != fsize ==> z[k] == old(z[k])
    {
      hide Dot, Residual;
      ghost var rows, w, coefficients := Rows(fsize), Sub(p, q0[..]), NewCoefficients(p);
      SetDisplacement(p);
      SameVectors(rows);
      SetCoefficients();
      SubtractComponents(rows, w, coefficients);
      SetZ();
    }

    lemma FirstVector(p: Vec)
      requires Shape() && |p| == d && fsize == 1 <= d
      ensures NewVector(p) == Sub(p, q0[..])
    {
    }

    /** A push that is not rejected has a nonzero vector: the point lies outside the current ball. */
    lemma VectorNonzero(p: Vec)
      requires Valid() && |p| == d && 1 <= fsize <= d && currentC <= d && (0.0 < currentSqrR || 0.0 < ExcessOf(p))
      requires forall i :: 1 <= i < fsize ==> z[i] != 0.0
      ensures 2.0 * Sqr(NewVector(p)) >= EPS * currentSqrR ==> 0.0 < 2.0 * Sqr(NewVector(p))
    {
      hide Dot, Residual;
      if currentSqrR <= 0.0 {
        var q, rows := Chosen(chain), Rows(intact);
        assert Chain(d, q, rows, intact) && RowOk(d, q, rows, 0);
        assert NewVector(p) == Sub(p, q0[..]) by { FirstVector(p); }
      }
    }

    lemma ChainNonzero()
      requires Valid() && fsize <= d
      ensures forall i :: 1 <= i < fsize ==> z[i] != 0.0
    {
      hide Dot, Residual;
      forall i | 1 <= i < fsize
        ensures z[i] != 0.0
      {
        assert RowOk(d, Chosen(chain), Rows(intact), i);
      }
    }

    /** The ball of an intact chain passes through its points. */
    lemma IntactBall()
      requires Shape() && 1 <= ssize <= d + 1 && |chain| == ssize && currentC == ssize - 1 &&
        currentSqrR == sqrR[ssize - 1]
      requires forall i :: 0 <= i < |chain| ==> chain[i] < |points|
      requires Chain(d, Chosen(chain), Rows(ssize), ssize)
      ensures BallOk()
    {
      hide Dot, Residual, Dist2, RowOk;
      var q, rows := Chosen(chain), Rows(ssize);
      forall i | 0 <= i < ssize
        ensures Dist2(points[chain[i]], RowOf(c, ssize - 1)) == currentSqrR && 0.0 <= sqrR[i] <= currentSqrR
      {
        Equidistant(d, q, rows, ssize, i, ssize - 1);
        RadiusMonotone(d, q, rows, ssize, i, ssize - 1);
        assert rows[i].r2 == sqrR[i] && rows[ssize - 1].c == RowOf(c, ssize - 1);
      }
      if 2 <= ssize {
        SecondRadiusPositive(d, q, rows, ssize);
      }
    }

    method FirstPush(p: Vec)
      requires Shape() && |p| == d && fsize == 0
      modifies c, sqrR, q0
      ensures q0[..] == p && RowOf(c, 0) == p && sqrR[0] == 0.0
    {
      for i := 0 to d
        modifies q0
        invariant forall j :: 0 <= j < i ==> q0[j] == p[j]
      {
        q0[i] := p[i];
      }
      for i := 0 to d
        modifies c
        invariant forall j :: 0 <= j < i ==> c[0, j] == p[j]
      {
        c[0, i] := q0[i];
      }
      sqrR[0] := 0.0;
    }

    /** The second branch of push (Miniball.hpp:431-467): the new row, or a rejection if its vector is too short. */
    method TryRow(p: Vec) returns (ok: bool)
      requires Valid() && |p| == d && 1 <= fsize <= d && currentC <= d && (0.0 < currentSqrR || 0.0 < ExcessOf(p))
      requires forall i :: 1 <= i < fsize ==> z[i] != 0.0
      modifies c, v, a, sqrR, z, f
      ensures forall k, j :: 0 <= k <= d && 0 <= j < d && k != fsize ==>
        v[k, j] == old(v[k, j]) && a[k, j] == old(a[k, j])
      ensures forall k, j :: 0 <= k <= d && 0 <= j < d && (k != fsize || !ok) ==> c[k, j] == old(c[k, j])
      ensures forall k :: 0 <= k <= d && k != fsize ==> z[k] == old(z[k]) && f[k] == old(f[k])
      ensures forall k :: 0 <= k <= d && (k != fsize || !ok) ==> sqrR[k] == old(sqrR[k])
      ensures ok == (2.0 * Sqr(old(NewVector(p))) >= EPS * currentSqrR)
      ensures ok ==> |RowAt(fsize).v| == d && NewRow(d, old(Rows(fsize)), fsize, old(q0[..]), p, RowAt(fsize))
    {
      hide Dot, Residual, Dist2, Along, Step, NextRadius, Sqr, Chain, BallOk;
      ghost var coefficients, vector := NewCoefficients(p), NewVector(p);
      VectorNonzero(p);
      Orthogonalise(p);
      if z[fsize] < EPS * currentSqrR {
        return false;
      }
      assert RowOf(c, fsize - 1) == old(RowOf(c, fsize - 1));
      ghost var row := RowAt(fsize);
      UpdateBall(p);
      assert RowAt(fsize).a == row.a == coefficients;
      assert RowAt(fsize).v == row.v == vector;
      MakeNewRow(d, old(Rows(fsize)), fsize, old(q0[..]), p, RowAt(fsize));
      return true;
    }

    /** The end of push (Miniball.hpp:468-471). */
    method Accept(pit: nat)
      requires Shape() && fsize <= d && fsize <= |chain|
      modifies this`fsize, this`ssize, this`currentC, this`currentSqrR, this`chain, this`intact
      ensures currentC == old(fsize) && currentSqrR == sqrR[old(fsize)]
      ensures fsize == ssize == intact == old(fsize) + 1 && chain == old(chain)[..old(fsize)] + [pit]
    {
      currentC := fsize;
      currentSqrR := sqrR[fsize];
      chain := chain[..fsize] + [pit];
      fsize := fsize + 1;
      ssize := fsize;
      intact := fsize;
    }

    lemma ValidAfterPush(q: seq<Vec>, rows: seq<Row>, n: nat)
      requires Shape() && (forall i :: 0 <= i < |L| ==> L[i] < |points|) && supportEnd <= |L|
      requires fsize == ssize == intact == |chain| == n + 1 <= d + 1
      requires currentC == n && currentSqrR == sqrR[n]
      requires forall i :: 0 <= i < |chain| ==> chain[i] < |points|
      requires q0[..] == points[chain[0]]
      requires Chain(d, q, rows, n) && |q| >= n && |rows| == n
      requires forall k :: 0 <= k < n ==> q[k] == points[chain[k]] && rows[k] == RowAt(k)
      requires RowOk(d, Chosen(chain), Rows(n + 1), n)
      ensures Valid()
    {
      hide Dot, Residual, Dist2, RowOk;
      ChainExtends(d, q, rows, Chosen(chain), Rows(n + 1), n);
      IntactBall();
    }

    method PushFirst(pit: nat)
      requires Valid() && pit < |points| && fsize == 0
      modifies this`fsize, this`ssize, this`currentC, this`currentSqrR, this`chain, this`intact
      modifies c, sqrR, q0
      ensures Valid() && fsize == ssize == intact == 1 && chain == [pit]
    {
      hide Dot, Residual, Dist2;
      FirstPush(points[pit]);
      Accept(pit);
      FirstRowOk(d, Chosen(chain), Rows(1));
      ValidAfterPush([], [], 0);
    }

    method AcceptNext(pit: nat, ghost q: seq<Vec>, ghost rows: seq<Row>)
      requires Shape() && (forall i :: 0 <= i < |L| ==> L[i] < |points|) && supportEnd <= |L|
      requires pit < |points| && 1 <= fsize <= d && fsize <= |chain| && |rows| == fsize && fsize <= |q|
      requires (forall i :: 0 <= i < |chain| ==> chain[i] < |points|) && q0[..] == points[chain[0]]
      requires forall k :: 0 <= k < fsize ==> q[k] == points[chain[k]]
      requires rows == Rows(fsize) && Chain(d, q, rows, fsize)
      requires |RowAt(fsize).v| == d && NewRow(d, rows, fsize, q[0], points[pit], RowAt(fsize))
      modifies this`fsize, this`ssize, this`currentC, this`currentSqrR, this`chain, this`intact
      ensures Valid()
      ensures fsize == ssize == intact == old(fsize) + 1 && chain == old(chain)[..old(fsize)] + [pit]
    {
      hide Dist2, RowOk, NewRow, BallOk;
      ghost var n := fsize;
      Accept(pit);
      NewRowOk(d, q, rows, Chosen(chain), Rows(n + 1), n);
      ValidAfterPush(q, rows, n);
    }

    /** A rejected push leaves the ball. */
    twostate lemma BallUnchanged()
      requires Shape() && ssize <= d + 1 && |chain| == ssize
      requires ssize == old(ssize) && chain == old(chain) && currentC == old(currentC) &&
        currentSqrR == old(currentSqrR)
      requires forall i :: 0 <= i < |chain| ==> chain[i] < |points|
      requires forall k, j :: 0 <= k <= d && 0 <= j < d ==> c[k, j] == old(c[k, j])
      requires forall k :: 0 <= k <= d ==> sqrR[k] == old(sqrR[k])
      requires old(BallOk())
      ensures BallOk()
    {
      hide Dist2;
      if 0 < ssize {
        assert RowOf(c, ssize - 1) == old(RowOf(c, ssize - 1));
      }
    }

    /** The test by which a push is accepted (Miniball.hpp:453-456). */
    ghost predicate LongEnough(p: Vec)
      reads this, c, v, a, sqrR, z, f, q0
    {
      Shape() && |p| == d && 1 <= fsize <= d && (forall i :: 1 <= i < fsize ==> z[i] != 0.0) &&
      2.0 * Sqr(NewVector(p)) >= EPS * currentSqrR
    }

    /** A rejected push leaves only the rows below its own intact. */
    method Reject(ghost q: seq<Vec>, ghost rows: seq<Row>)
      requires Shape() && (forall i :: 0 <= i < |L| ==> L[i] < |points|) && supportEnd <= |L|
      requires 1 <= fsize <= ssize == |chain| <= d + 1 && (forall i :: 0 <= i < |chain| ==> chain[i] < |points|)
      requires q0[..] == points[chain[0]] && BallOk()
      requires q == Chosen(chain) && rows == Rows(fsize) && Chain(d, q, rows, fsize)
      modifies this`intact, this`rejected
      ensures Valid() && rejected && intact == fsize
    {
      hide Chain, BallOk;
      intact := fsize;
      rejected := true;
    }

    method PushNext(pit: nat) returns (ok: bool)
      requires Valid() && pit < |points| && 1 <= fsize <= d && currentC <= d
      requires 0.0 < currentSqrR || 0.0 < ExcessOf(points[pit])
      modifies this`fsize, this`ssize, this`currentC, this`currentSqrR, this`chain, this`intact
      modifies this`rejected, c, v, a, sqrR, z, f
      ensures Valid() && ok == old(LongEnough(points[pit])) && rejected == (old(rejected) || !ok)
      ensures ok ==> fsize == ssize == intact == old(fsize) + 1 && chain == old(chain)[..old(fsize)] + [pit]
      ensures ok ==> Rows(old(fsize)) == old(Rows(fsize))
      ensures !ok ==> fsize == old(fsize) && ssize == old(ssize) && chain == old(chain) &&
                      currentC == old(currentC) && currentSqrR == old(currentSqrR) && intact == fsize
      ensures !ok ==> (forall k, j :: 0 <= k <= d && 0 <= j < d ==> c[k, j] == old(c[k, j])) &&
                      (forall k :: 0 <= k <= d ==> sqrR[k] == old(sqrR[k]))
    {
      hide Dist2, RowOk, NewRow, BallOk, Sqr, NewVector;
      ghost var n, q, rows := fsize, Chosen(chain), Rows(fsize);
      ChainCong(d, q, Rows(intact), q, rows, n);
      ChainNonzero();
      ok := TryRow(points[pit]);
      RowsUnchanged(n);
      if !ok {
        BallUnchanged();
        Reject(q, rows);
      } else {
        AcceptNext(pit, q, rows);
      }
    }

    /**
     * Miniball.hpp:419-472. At most d + 1 points are pushed, and never the only point of the
     * ball again, for which the code would divide by zero.
     */
    method Push(pit: nat) returns (ok: bool)
      requires Valid() && pit < |points| && fsize <= d && currentC <= d
      requires 0 < fsize ==> 0.0 < currentSqrR || 0.0 < ExcessOf(points[pit])
      modifies this`fsize, this`ssize, this`currentC, this`currentSqrR, this`chain, this`intact
      modifies this`rejected, c, v, a, sqrR, z, f, q0
      ensures Valid() && ok == (old(fsize) == 0 || old(LongEnough(points[pit])))
      ensures rejected == (old(rejected) || !ok)
      ensures ok ==> fsize == ssize == intact == old(fsize) + 1 && chain == old(chain)[..old(fsize)] + [pit]
      ensures ok ==> Rows(old(fsize)) == old(Rows(fsize))
      ensures !ok ==> 0 < fsize == old(fsize) && ssize == old(ssize) && chain == old(chain) &&
                      currentC == old(currentC) && currentSqrR == old(currentSqrR) && intact == fsize
      ensures !ok ==> (forall k, j :: 0 <= k <= d && 0 <= j < d ==> c[k, j] == old(c[k, j])) &&
                      (forall k :: 0 <= k <= d ==> sqrR[k] == old(sqrR[k]))
    {
      if fsize == 0 {
        PushFirst(pit);
        return true;
      }
      ok := PushNext(pit);
    }

    /** Miniball.hpp:414-416 */
    method Pop()
      requires Valid() && 0 < fsize
      modifies this`fsize
      ensures Valid() && fsize == old(fsize) - 1
    {
      hide Dist2, Chain;
      fsize := fsize - 1;
    }

    /** Where splicing the element at `j` to the front takes an iterator at `i`: iterators stay with their elements. */
    static function Spliced(i: nat, j: nat): nat {
      if i < j then i + 1 else if i == j then 0 else i
    }

    /** Miniball.hpp:342-346 */
    method MtfMoveToFront(j: nat)
      requires Valid() && supportEnd <= j < |L|
      modifies this`L, this`supportEnd
      ensures Valid() && L == ToFront(old(L), j)
      ensures supportEnd == old(supportEnd) + 1
    {
      hide Dist2, Chain;
      if supportEnd == j {
        supportEnd := supportEnd + 1;
      }
      L := [L[j]] + L[..j] + L[j + 1..];
      supportEnd := Spliced(supportEnd, j);
    }

    /** What the list algorithm needs to know of a valid state. */
    lemma Bounds()
      requires Valid()
      ensures Shape() && forall i :: 0 <= i < |L| ==> L[i] < |points|
      ensures forall i :: 0 <= i < |points| ==> |points[i]| == d
      ensures supportEnd <= |L| && fsize <= ssize == |chain| <= d + 1 && currentC <= d
      ensures c.Length0 == d + 1 && c.Length1 == d && sqrR.Length == d + 1
      ensures -1.0 <= currentSqrR && (ssize == 0 ==> currentSqrR == -1.0)
    {
      hide Dist2, Chain;
    }

    method ResetSupportEnd()
      requires Valid()
      modifies this`supportEnd
      ensures Valid() && supportEnd == 0
    {
      hide Dist2, Chain;
      supportEnd := 0;
    }

    // ----- What the list algorithm computes -----

    ghost function Current(): (b: Ball)
      requires Shape() && currentC <= d
      reads this`currentC, this`currentSqrR, c
      ensures |b.centre| == d && b.r2 == currentSqrR
    {
      Ball(RowOf(c, currentC), currentSqrR)
    }

    ghost predicate InRange(indices: seq<nat>) {
      (forall i :: 0 <= i < |indices| ==> indices[i] < |points|) && forall i :: 0 <= i < |points| ==> |points[i]| == d
    }

    ghost function PointsOf(indices: seq<nat>): set<Vec>
      requires InRange(indices)
    {
      set i | i in indices :: points[i]
    }

    /** The current ball is a smallest one that contains the points of `inside` and passes through those of `on`. */
    ghost predicate Solves(inside: seq<nat>, on: seq<nat>)
      reads this`currentC, this`currentSqrR, c
    {
      Shape() && currentC <= d && InRange(inside) && InRange(on) &&
      Least(d, Current(), PointsOf(inside), PointsOf(on))
    }

    /** There is a ball that contains the points of `inside` and passes through those of `on`. */
    ghost predicate Solvable(inside: seq<nat>, on: seq<nat>) {
      InRange(inside) && InRange(on) && Feasible(d, PointsOf(inside), PointsOf(on))
    }

    /** What holds of the first `i` elements once they have been visited, unless a push was rejected. */
    ghost predicate Visited(given: seq<nat>, on: seq<nat>, i: nat)
      reads this`L, this`supportEnd, this`rejected, this`currentC, this`currentSqrR, c
    {
      i <= |L| && supportEnd <= |L| &&
      (!rejected && Solvable(given, on) ==> Solves(L[..i], on) && Solves(L[..supportEnd], on))
    }

    lemma PointsPermuted(s: seq<nat>, t: seq<nat>)
      requires InRange(s) && multiset(s) == multiset(t)
      ensures InRange(t) && PointsOf(s) == PointsOf(t)
    {
      assert forall i :: i in s <==> i in multiset(s);
      assert forall i :: i in t <==> i in multiset(t);
      forall k | 0 <= k < |t|
        ensures t[k] < |points|
      {
        assert t[k] in multiset(t);
      }
    }

    lemma PointsAdded(s: seq<nat>, i: nat, t: seq<nat>)
      requires InRange(s) && i < |points| && multiset(t) == multiset(s) + multiset{i}
      ensures InRange(t) && PointsOf(t) == PointsOf(s) + {points[i]}
    {
      assert multiset(s + [i]) == multiset(t);
      PointsPermuted(s + [i], t);
    }

    lemma EmptySolves()
      requires Shape() && currentC <= d && currentSqrR == -1.0
      ensures Solves([], [])
    {
    }

    lemma ChosenSet(indices: seq<nat>)
      requires InRange(indices)
      ensures PointsOf(indices) == SetOf(Chosen(indices)) && PointsOf([]) == {}
    {
      var q := Chosen(indices);
      forall p | p in PointsOf(indices)
        ensures p in SetOf(q)
      {
        var i :| 0 <= i < |indices| && points[indices[i]] == p;
        assert q[i] == p;
      }
    }

    /** Right after a push, the rows are those of the whole chain, and the ball is the last one. */
    lemma ChainNow()
      requires Valid() && fsize == ssize
      ensures Shape() && ssize == |chain| <= d + 1 && currentC <= d && InRange(chain) && InRange([])
      ensures Chain(d, Chosen(chain), Rows(ssize), ssize)
      ensures 0 < ssize ==> Current() == Ball(Rows(ssize)[ssize - 1].c, Rows(ssize)[ssize - 1].r2)
      ensures ssize == 0 ==> currentSqrR == -1.0
    {
      hide RowOk, Dist2;
    }

    /** Then the ball is the smallest through the pushed points. */
    lemma ChainSolves()
      requires Valid() && fsize == ssize
      ensures Solves([], chain)
    {
      hide Valid, Chain, Least, Rows;
      ChainNow();
      if ssize == 0 {
        EmptySolves();
      } else {
        ChainLeast(d, Chosen(chain), Rows(ssize), ssize);
        ChosenSet(chain);
      }
    }

    /** Through d + 1 pushed points there is no other ball. */
    lemma FullSolves(inside: seq<nat>)
      requires Valid() && fsize == ssize == d + 1 && Solvable(inside, chain)
      ensures Solves(inside, chain)
    {
      hide Valid, Chain, Least, Rows;
      ChainNow();
      ChosenSet(chain);
      FullLeast(d, Chosen(chain), Rows(ssize), PointsOf(inside));
    }

    /** Every ball through the points of a chain is at least as large as the one the chain has computed. */
    lemma RadiusKept(before: seq<nat>, rows: seq<Row>)
      requires Valid() && before <= chain && Shape() && InRange(before)
      requires Chain(d, Chosen(before), rows, |before|)
      ensures before != [] ==> rows[|before| - 1].r2 <= currentSqrR
    {
      hide RowOk, Dist2;
      if before != [] {
        var q, n, o := Chosen(before), |before|, RowOf(c, currentC);
        assert chain[..n] == before;
        forall i | 0 <= i < n
          ensures Dist2(q[i], o) == currentSqrR
        {
          assert chain[i] == before[i];
        }
        ThroughChain(d, q, rows, n, o, currentSqrR);
        DistanceZero(rows[n - 1].c, o);
      }
    }

    /** A point that is not outside needs no visit. */
    lemma SkipSolves(inside: seq<nat>, on: seq<nat>, i: nat, inside': seq<nat>)
      requires Solves(inside, on) && i < |points| && ExcessOf(points[i]) <= 0.0
      requires multiset(inside') == multiset(inside) + multiset{i}
      ensures Solves(inside', on)
    {
      hide Least, Dist2;
      PointsAdded(inside, i, inside');
      LeastKeeps(d, Current(), PointsOf(inside), PointsOf(on), points[i]);
    }

    lemma VisitedNone(given: seq<nat>)
      requires Valid() && fsize == ssize && supportEnd == 0
      ensures Visited(given, chain, 0)
    {
      hide Valid, Solves;
      ChainSolves();
      assert L[..0] == [];
    }

    lemma VisitedFull(given: seq<nat>)
      requires Valid() && fsize == ssize == d + 1 && Visited(given, chain, 0) && supportEnd == 0
      ensures !rejected && Solvable(given, chain) ==> Solves(given, chain) && Solves(L[..supportEnd], chain)
    {
      hide Valid, Solves, Solvable;
      if Solvable(given, chain) {
        FullSolves(given);
      }
    }

    lemma VisitedInside(given: seq<nat>, on: seq<nat>, j: nat)
      requires j < |L| && L[j] < |points| && Visited(given, on, j)
      requires Shape() && currentC <= d && |points[L[j]]| == d && ExcessOf(points[L[j]]) <= 0.0
      ensures Visited(given, on, j + 1)
    {
      hide Solves, Solvable, ExcessOf;
      assert L[..j + 1] == L[..j] + [L[j]];
      if !rejected && Solvable(given, on) {
        SkipSolves(L[..j], on, L[j], L[..j + 1]);
      }
    }

    lemma SolvesPermuted(inside: seq<nat>, inside': seq<nat>, on: seq<nat>)
      requires Solves(inside, on) && multiset(inside) == multiset(inside')
      ensures Solves(inside', on)
    {
      PointsPermuted(inside, inside');
    }

    lemma VisitedAll(before: seq<nat>, on: seq<nat>, n: nat)
      requires Permuted(before, L, n) && Visited(before[..n], on, n)
      ensures !rejected && Solvable(before[..n], on) ==> Solves(before[..n], on) && Solves(L[..supportEnd], on)
    {
      hide Solves, Solvable;
      var given := before[..n];
      if !rejected && Solvable(given, on) {
        SolvesPermuted(L[..n], given, on);
      }
    }

    /** What can be enclosed altogether can be enclosed in part. */
    lemma VisitedPart(before: seq<nat>, list: seq<nat>, i: nat, n: nat, on: seq<nat>)
      requires i <= n && Permuted(before, list, n)
      ensures Solvable(before[..n], on) ==> Solvable(list[..i], on)
    {
      hide Feasible;
      var given := before[..n];
      if Solvable(given, on) {
        assert list[..i] == list[..n][..i];
        PointsPermuted(given, list[..n]);
        FeasibleSubset(d, PointsOf(list[..i]), PointsOf(list[..n]), PointsOf(on));
      }
    }

    lemma VisitedVacuous(given: seq<nat>, on: seq<nat>, i: nat)
      requires rejected && i <= |L| && supportEnd <= |L|
      ensures Visited(given, on, i)
    {
    }

    /** `b` is smallest for the visited elements, misses `i`, and with `i` on the boundary there is a ball too. */
    ghost predicate Missed(b: Ball, inside: seq<nat>, on: seq<nat>, i: nat) {
      i < |points| && |b.centre| == d && |points[i]| == d && 0.0 < Power(b, points[i]) &&
      InRange(inside) && InRange(on) && Least(d, b, PointsOf(inside), PointsOf(on)) && Solvable(inside, on + [i])
    }

    /** The ball before the push. */
    lemma ForceSolvable(j: nat, on: seq<nat>, given: seq<nat>) returns (b: Ball)
      requires Valid() && j < |L| && L[j] < |points| && Shape() && currentC <= d && 0.0 < ExcessOf(points[L[j]])
      requires Visited(given, on, j) && (Solvable(given, on) ==> Solvable(L[..j + 1], on))
      ensures b.r2 == currentSqrR
      ensures !rejected && Solvable(given, on) ==> Missed(b, L[..j], on, L[j])
    {
      hide Dist2, Chain, BallOk;
      b := Current();
      if !rejected && Solvable(given, on) {
        assert L[..j + 1] == L[..j] + [L[j]];
        PointsAdded(L[..j], L[j], L[..j + 1]);
        PointsAdded(on, L[j], on + [L[j]]);
        StaysFeasible(d, b, PointsOf(L[..j]), PointsOf(on), points[L[j]]);
      }
    }

    /** The smallest ball with the visited point on its boundary is the smallest with it inside. */
    lemma ForcedSolves(b: Ball, inside: seq<nat>, support: seq<nat>, on: seq<nat>, i: nat)
      requires Missed(b, inside, on, i)
      requires Solves(inside, on + [i]) && Solves(support, on + [i]) && multiset(support) <= multiset(inside)
      ensures Solves(inside + [i], on) && Solves(support + [i], on) && b.r2 < currentSqrR
    {
      hide Least, Power;
      PointsAdded(inside, i, inside + [i]);
      PointsAdded(support, i, support + [i]);
      PointsAdded(on, i, on + [i]);
      assert PointsOf(support) <= PointsOf(inside) by {
        assert forall k :: k in support ==> k in multiset(support) && k in multiset(inside);
      }
      LeastGrows(d, b, Current(), PointsOf(inside), PointsOf(on), points[i]);
      SupportGrows(d, b, Current(), PointsOf(inside), PointsOf(support), PointsOf(on), points[i]);
    }

    /** After the recursive call turned `list` into `s` and the element has been moved to the front. */
    lemma ForcedVisited(b: Ball, list: seq<nat>, s: seq<nat>, j: nat, on: seq<nat>, given: seq<nat>)
      requires 0 < supportEnd <= j + 1 <= |list| == |s| && Permuted(list, s, j) && L == ToFront(s, j)
      requires !rejected && Solvable(given, on) ==> Missed(b, list[..j], on, list[j])
      requires !rejected && Solvable(list[..j], on + [list[j]]) ==>
        Solves(list[..j], on + [list[j]]) && Solves(s[..supportEnd - 1], on + [list[j]])
      ensures Visited(given, on, j + 1)
    {
      hide Solves, Solvable, Permuted;
      VisitedParts(list, s, j, supportEnd - 1);
      if !rejected && Solvable(given, on) {
        ForcedSolves(b, list[..j], s[..supportEnd - 1], on, list[j]);
        SolvesPermuted(list[..j] + [list[j]], L[..j + 1], on);
        SolvesPermuted(s[..supportEnd - 1] + [list[j]], L[..supportEnd], on);
      }
    }

    /**
     * One accepted visit of the loop (Miniball.hpp:332-337): force the element at `j`, recurse, move it to the
     * front.
     */
    method Force(j: nat, ghost given: seq<nat>)
      requires Valid() && fsize <= d && j < |L| && L[j] < |points| && currentC <= d
      requires Shape() && 0.0 < ExcessOf(points[L[j]])
      requires fsize <= |chain| && supportEnd <= j && Supports(L, supportEnd, chain, fsize)
      requires Visited(given, chain[..fsize], j)
      requires Solvable(given, chain[..fsize]) ==> Solvable(L[..j + 1], chain[..fsize])
      modifies this`L, this`supportEnd, this`fsize, this`ssize, this`currentC, this`currentSqrR, this`chain, this`intact
      modifies this`rejected, c, v, a, sqrR, z, f, q0
      ensures Valid() && fsize == old(fsize) && old(chain[..fsize]) <= chain
      ensures |L| == |old(L)| && Permuted(old(L), L, j + 1)
      ensures supportEnd <= j + 1 && Supports(L, supportEnd, chain, fsize)
      ensures old(rejected) ==> rejected
      ensures Visited(given, old(chain[..fsize]), j + 1)
      decreases d + 1 - fsize, 0
    {
      hide Valid, Shape, ExcessOf, LongEnough, Rows, Solves, Solvable, Missed, Visited, Permuted, Supports, ToFront;
      ghost var list, forced := L, chain[..fsize];
      ghost var b := ForceSolvable(j, forced, given);
      var pushed := Push(L[j]);
      if pushed {
        MtfMb(j);
        ghost var s := L;
        Forced(list, s, j, supportEnd, forced, chain);
        Pop();
        MtfMoveToFront(j);
        ForcedVisited(b, list, s, j, forced, given);
      } else {
        PermutedSame(list, j + 1);
        VisitedVacuous(given, forced, j + 1);
      }
    }

    /**
     * Algorithm mtf_mb (Miniball.hpp:312-340) on the first `n` list elements, with the first
     * fsize points of the chain forced. It terminates, permutes only the elements it was given,
     * keeps the forced points, never shrinks the ball, and leaves the points it added to the
     * chain at the front of the list. Unless a push is rejected, the ball is then the smallest
     * one that contains the given elements and passes through the forced points, if there is
     * any, and so it is for the support alone.
     */
    method MtfMb(n: nat)
      requires Valid() && fsize == ssize && n <= |L|
      modifies this`L, this`supportEnd, this`fsize, this`ssize, this`currentC, this`currentSqrR, this`chain, this`intact
      modifies this`rejected, c, v, a, sqrR, z, f, q0
      ensures Valid() && fsize == old(fsize) && old(chain) <= chain
      ensures |L| == |old(L)| && Permuted(old(L), L, n) && supportEnd <= n && Supports(L, supportEnd, chain, fsize)
      ensures old(currentSqrR) <= currentSqrR
      ensures old(rejected) ==> rejected
      ensures !rejected && Solvable(old(L[..n]), old(chain)) ==>
                Solves(old(L[..n]), old(chain)) && Solves(L[..supportEnd], old(chain))
      decreases d + 1 - fsize, 1
    {
      hide Valid, Shape, Visited, Solvable, Chain, Rows, Permuted, Supports;
      ChainNow();
      ResetSupportEnd();
      ghost var given, forced, rows := L[..n], chain, Rows(ssize);
      VisitedNone(given);
      PermutedSame(L, n);
      NoSupport(L, chain);
      if fsize == d + 1 {
        VisitedFull(given);
        return;
      }
      var i := 0;
      while i != n
        invariant i <= n && Valid() && fsize == old(fsize) && forced <= chain
        invariant |L| == |old(L)| && Permuted(old(L), L, n) && supportEnd <= i && Supports(L, supportEnd, chain, fsize)
        invariant old(rejected) ==> rejected
        invariant Visited(given, forced, i)
        decreases n - i
      {
        Bounds();
        assert chain[..fsize] == forced;
        var j := i;
        i := i + 1;
        var e := Excess(L[j]);
        ghost var list := L;
        if e > 0.0 {
          VisitedPart(old(L), list, i, n, forced);
          Force(j, given);
          PermutedWider(list, L, i, n);
          PermutedTwice(old(L), list, L, n);
        } else {
          VisitedInside(given, forced, j);
        }
      }
      Bounds();
      VisitedAll(old(L), forced, n);
      RadiusKept(forced, rows);
    }

    // ----- The pivoting driver -----

    /** Miniball.hpp:396-399; the list gets a new first element, and iterators keep theirs. */
    method PivotMoveToFront(j: nat)
      requires Valid() && j < |points|
      modifies this`L, this`supportEnd
      ensures Valid() && L == [j] + old(L)
      ensures supportEnd == if old(supportEnd) + 1 == d + 2 then old(supportEnd) else old(supportEnd) + 1
      ensures old(supportEnd) == ssize - 1 ==> supportEnd == old(supportEnd) + 1
    {
      hide Dist2, Chain, BallOk;
      L := [j] + L;
      supportEnd := supportEnd + 1;
      if supportEnd == d + 2 {
        supportEnd := supportEnd - 1;
      }
    }

    /**
     * Between iterations nothing is forced, and the support prefix of the list holds the points of the chain. Unless a
     * push has been rejected, the ball is the smallest one around them.
     */
    ghost predicate AtRest()
      reads this, c, v, a, sqrR, z, f, q0
    {
      Valid() && fsize == 0 && Supports(L, supportEnd, chain, 0) &&
      (!rejected ==> Solves(L[..supportEnd], []))
    }

    /** The first loop of the iteration (Miniball.hpp:364-375): a point of greatest excess. */
    method FindPivot() returns (pivot: nat, maxE: real)
      requires Valid() && 0 < |points|
      ensures Shape() && currentC <= d && pivot < |points| && 0.0 <= maxE
      ensures forall i :: 0 <= i < |points| ==> ExcessOf(points[i]) <= maxE
      ensures maxE == 0.0 || maxE == ExcessOf(points[pivot])
    {
      hide Valid, ExcessOf;
      Bounds();
      pivot, maxE := 0, 0.0;
      for k := 0 to |points|
        invariant pivot < |points| && 0.0 <= maxE
        invariant forall i :: 0 <= i < k ==> ExcessOf(points[i]) <= maxE
        invariant maxE == 0.0 || maxE == ExcessOf(points[pivot])
      {
        var e := Excess(k);
        if e > maxE {
          pivot, maxE := k, e;
        }
      }
    }

    /** No input point is outside by more than the tolerance. */
    ghost predicate Covers()
      requires Shape() && currentC <= d
      reads this, c
    {
      0.0 <= currentSqrR && forall i :: 0 <= i < |points| ==> ExcessOf(points[i]) <= currentSqrR * TOL
    }

    lemma SupportOnSphere()
      requires AtRest() && Shape() && currentC <= d
      ensures forall k :: k in L[..supportEnd] ==> k < |points| && ExcessOf(points[k]) == 0.0
    {
      hide Chain, Solves, Dist2;
      forall k | k in L[..supportEnd]
        ensures k < |points| && ExcessOf(points[k]) == 0.0
      {
        assert k in multiset(L[..supportEnd]) && k in multiset(chain);
        var i :| 0 <= i < |chain| && chain[i] == k;
      }
    }

    lemma PivotOutside(pivot: nat, maxE: real)
      requires AtRest() && pivot < |points| && Shape() && currentC <= d
      requires forall i :: 0 <= i < |points| ==> ExcessOf(points[i]) <= maxE
      requires maxE == 0.0 || maxE == ExcessOf(points[pivot])
      requires currentSqrR < 0.0 || maxE > currentSqrR * TOL
      ensures 0.0 < ExcessOf(points[pivot]) && pivot !in L[..supportEnd]
    {
      hide Chain, Solves, Dist2, BallOk;
      if currentSqrR < 0.0 {
        DistanceZero(points[0], RowOf(c, currentC));
        assert ExcessOf(points[0]) <= maxE;
      } else {
        MulSign(currentSqrR, TOL);
      }
      SupportOnSphere();
    }

    /** What the recursive call and its consequences need to know of the ball before the pivot is pushed. */
    lemma OutsideRest(pivot: nat, b: Ball, inside: seq<nat>)
      requires AtRest() && pivot < |points| && Shape() && currentC <= d && 0.0 < ExcessOf(points[pivot])
      requires b == Current() && inside == L[..supportEnd]
      ensures !rejected ==> Missed(b, inside, [], pivot) && Solvable(inside, [pivot])
      ensures b.r2 == currentSqrR
    {
      hide Dist2, Chain, BallOk;
      if !rejected {
        PointsAdded(inside, pivot, inside + [pivot]);
        assert PointsOf([]) == {} && PointsOf([pivot]) == {} + {points[pivot]};
        Enclosable(d, PointsOf(inside + [pivot]));
        StaysFeasible(d, b, PointsOf(inside), {}, points[pivot]);
        assert [] + [pivot] == [pivot];
      }
    }

    lemma RestKnown()
      requires AtRest()
      ensures Valid() && fsize == 0 && Shape() && currentC <= d && supportEnd <= |L| && ssize == supportEnd
    {
      hide Chain, Dist2, Solves;
    }

    /** The state is at rest again, with the pivot in front of what the recursive call has left. */
    lemma RestAgain(pivot: nat, b: Ball, inside: seq<nat>, list: seq<nat>, s: seq<nat>)
      requires Valid() && fsize == 0 && 0 < supportEnd <= |inside| + 1 && inside <= list
      requires L == [pivot] + s && [pivot] <= chain && Permuted(list, s, |inside|)
      requires Supports(s, supportEnd - 1, chain, 1)
      requires !rejected ==> Missed(b, inside, [], pivot)
      requires !rejected ==> Solves(inside, [pivot]) && Solves(s[..supportEnd - 1], [pivot])
      ensures AtRest() && chain[0] == pivot && (!rejected ==> b.r2 < currentSqrR)
    {
      hide Valid, Solves, Missed;
      var support := s[..supportEnd - 1];
      PivotInFront(s, pivot, supportEnd - 1, chain);
      if !rejected {
        assert [pivot] == [] + [pivot];
        Prefix(s, supportEnd - 1, |inside|);
        assert list[..|inside|] == inside;
        ForcedSolves(b, inside, support, [], pivot);
        SolvesPermuted(support + [pivot], L[..supportEnd], []);
      }
    }

    /** Miniball.hpp:381-385; the decrement in PivotMoveToFront is not taken. */
    method ForcePivot(pivot: nat)
      requires AtRest() && pivot < |points| && currentC <= d
      requires Shape() && |points[pivot]| == d && 0.0 < ExcessOf(points[pivot])
      modifies this`L, this`supportEnd, this`fsize, this`ssize, this`currentC, this`currentSqrR, this`chain, this`intact
      modifies this`rejected, c, v, a, sqrR, z, f, q0
      ensures AtRest() && 0 < ssize && chain[0] == pivot
      ensures old(rejected) ==> rejected
      ensures rejected || old(currentSqrR) < currentSqrR
    {
      hide Valid, Shape, AtRest, Solves, Solvable, ExcessOf, LongEnough, Missed, Rows, Permuted;
      RestKnown();
      ghost var b, list, inside := Current(), L, L[..supportEnd];
      OutsideRest(pivot, b, inside);
      var pushed := Push(pivot);
      Bounds();
      assert chain == [pivot] && list[..|inside|] == inside;
      MtfMb(supportEnd);
      ghost var s := L;
      Bounds();
      assert !rejected ==> Solves(inside, [pivot]) && Solves(s[..supportEnd], [pivot]);
      Pop();
      PivotMoveToFront(pivot);
      RestAgain(pivot, b, inside, list, s);
    }

    lemma RadiusKnown()
      requires Valid()
      ensures ssize == 0 <==> currentSqrR < 0.0
    {
      hide Dist2, Chain;
    }

    /**
     * One iteration of the driver loop (Miniball.hpp:361-391). If no point is outside by more than the tolerance,
     * nothing changes, and otherwise the ball grows unless a push is rejected. The pivot is never in the support.
     */
    method PivotStep() returns (maxE: real)
      requires AtRest() && 0 < |points|
      modifies this`L, this`supportEnd, this`fsize, this`ssize, this`currentC, this`currentSqrR, this`chain, this`intact
      modifies this`rejected, c, v, a, sqrR, z, f, q0
      ensures AtRest() && 0 < ssize
      ensures Shape() && currentC <= d && old(currentC) <= d
      ensures forall i :: 0 <= i < |points| ==> old(ExcessOf(points[i])) <= maxE
      ensures maxE == 0.0 || exists i :: 0 <= i < |points| && maxE == old(ExcessOf(points[i]))
      ensures old(Covers()) ==>
                Covers() && Current() == old(Current()) && chain == old(chain) && rejected == old(rejected)
      ensures !old(Covers()) ==> rejected || old(currentSqrR) < currentSqrR
      ensures old(rejected) ==> rejected
    {
      hide Valid, ExcessOf, Solves;
      Bounds();
      RadiusKnown();
      var pivot;
      pivot, maxE := FindPivot();
      if currentSqrR < 0.0 || maxE > currentSqrR * TOL {
        PivotOutside(pivot, maxE);
        assert !Covers();
        if pivot !in L[..supportEnd] {
          ForcePivot(pivot);
        }
      }
      Bounds();
      RadiusKnown();
    }

    ghost function PointsIn(s: set<nat>): set<Vec> {
      set i | i in s && i < |points| :: points[i]
    }

    /** Every one of these supports has a smallest ball smaller than `r2`. */
    ghost predicate Seen(seen: set<set<nat>>, r2: real) {
      seen <= Subsets(|points|) &&
      forall s :: s in seen ==> exists b: Ball :: Least(d, b, PointsIn(s), {}) && b.r2 < r2
    }

    ghost function Support(): set<nat>
      requires supportEnd <= |L|
      reads this`L, this`supportEnd
    {
      set i | i in L[..supportEnd]
    }

    /** A support whose ball is larger than those of all seen ones is new. */
    lemma SeenMore(seen: set<set<nat>>, s: set<nat>, b: Ball, r2: real)
      requires Seen(seen, b.r2) && Least(d, b, PointsIn(s), {}) && s in Subsets(|points|) && b.r2 < r2
      ensures s !in seen && Seen(seen + {s}, r2)
    {
      hide Least, Subsets, PointsIn;
      if s in seen {
        var b': Ball :| Least(d, b', PointsIn(s), {}) && b'.r2 < b.r2;
        LeastRadius(d, b, b', PointsIn(s), {});
      }
      forall s' | s' in seen
        ensures exists b': Ball :: Least(d, b', PointsIn(s'), {}) && b'.r2 < r2
      {
        var b': Ball :| Least(d, b', PointsIn(s'), {}) && b'.r2 < b.r2;
      }
    }

    lemma SupportSubset()
      requires AtRest() && supportEnd <= |L|
      ensures Support() in Subsets(|points|)
    {
      hide Chain, BallOk, Solves;
      InSubsets(Support(), |points|);
    }

    lemma SupportLeast()
      requires AtRest() && !rejected && supportEnd <= |L|
      ensures Shape() && currentC <= d && Least(d, Current(), PointsIn(Support()), {})
    {
      hide Chain, BallOk, Least;
      assert PointsIn(Support()) == PointsOf(L[..supportEnd]) && PointsOf([]) == {};
    }

    /** The current support has not been seen before. */
    lemma SupportNew(seen: set<set<nat>>)
      requires AtRest() && supportEnd <= |L|
      ensures !rejected && Seen(seen, currentSqrR) ==>
                |seen + {Support()}| == |seen| + 1 &&
                forall r2: real :: currentSqrR < r2 ==> Seen(seen + {Support()}, r2)
    {
      hide AtRest, Seen, Least, Support, Shape;
      if !rejected && Seen(seen, currentSqrR) {
        SupportLeast();
        SupportSubset();
        SeenMore(seen, Support(), Current(), currentSqrR + 1.0);
        forall r2: real | currentSqrR < r2
          ensures Seen(seen + {Support()}, r2)
        {
          SeenMore(seen, Support(), Current(), r2);
        }
      }
    }

    lemma NoneSeen()
      ensures Seen({}, currentSqrR)
    {
    }

    lemma SeenBounded(seen: set<set<nat>>)
      requires Seen(seen, currentSqrR)
      ensures |seen| <= Power2(|points|)
    {
      SubsetCount(seen, Subsets(|points|));
      SubsetsCount(|points|);
    }

    lemma StartAtRest()
      requires Shape() && L == [] && supportEnd == fsize == ssize == currentC == 0 && currentSqrR == -1.0
      requires chain == [] && intact == 0
      ensures AtRest()
    {
      EmptySolves();
    }

    // ----- The quality of the result -----

    /** The inner loop of the back substitution (Miniball.hpp:481-482). */
    method Substitute(l: array<real>, i: nat)
      requires Valid() && 0 < i < ssize <= d + 1 == l.Length && Shape() && l !in {f, z, sqrR}
      requires forall k :: i < k < ssize ==> l[k] == Coefficient(Rows(ssize), ssize, k)
      modifies l
      ensures l[i] == Coefficient(Rows(ssize), ssize, i)
      ensures forall h :: 0 <= h < l.Length && h != i ==> l[h] == old(l[h])
    {
      hide Valid, Partial, Coefficient;
      ghost var rows, n := Rows(ssize), ssize;
      l[i] := f[i];
      var k := ssize - 1;
      PartialAt(rows, n, i, n);
      while k > i
        invariant i <= k < n && l[i] == Partial(rows, n, i, k + 1)
        invariant forall h :: 0 <= h < l.Length && h != i ==> l[h] == old(l[h])
      {
        PartialAt(rows, n, i, k);
        l[i] := l[i] - a[k, i] * l[k];
        k := k - 1;
      }
      PartialAt(rows, n, i, i + 1);
    }

    /**
     * Miniball.hpp:475-490. The result is 0 if no coefficient of the centre is negative, and
     * otherwise the absolute value of the least coefficient.
     */
    method Suboptimality() returns (r: real)
      requires Valid() && 1 <= ssize
      ensures Shape() && ssize <= d + 1
      ensures 0.0 <= r && forall i :: 0 <= i < ssize ==> -r <= Coefficients(Rows(ssize), ssize)[i]
      ensures 0.0 < r ==> exists i :: 0 <= i < ssize && Coefficients(Rows(ssize), ssize)[i] == -r
    {
      hide Valid, Coefficient, Partial;
      Bounds();
      ghost var rows := Rows(ssize);
      ghost var n, cs, least := ssize, Coefficients(rows, ssize), 0;
      var l := new real[d + 1];
      var minL := 0.0;
      l[0] := 1.0;
      var i := ssize - 1;
      while i > 0
        invariant 0 <= i < n && l[0] == Rest(rows, n, i + 1)
        invariant forall k :: i < k < n ==> l[k] == Coefficient(rows, n, k)
        invariant minL <= 0.0 && forall k :: i < k < n ==> minL <= cs[k]
        invariant minL < 0.0 ==> i < least < n && cs[least] == minL
      {
        Substitute(l, i);
        if l[i] < minL {
          minL := l[i];
          least := i;
        }
        l[0] := l[0] - l[i];
        i := i - 1;
      }
      if l[0] < minL {
        minL := l[0];
        least := 0;
      }
      r := if minL < 0.0 then -minL else 0.0;
      assert 0.0 < r ==> cs[least] == -r;
    }

    /** The ball with centre `o` and squared radius `r2` contains every input point. */
    ghost predicate Encloses(o: Vec, r2: real) {
      |o| == d && forall i :: 0 <= i < |points| ==> |points[i]| == d && Dist2(points[i], o) <= r2
    }

    ghost function Centre(): (o: Vec)
      requires Shape() && currentC <= d
      reads this`currentC, c
    {
      RowOf(c, currentC)
    }

    /**
     * No enclosing ball is smaller than the current one, and its centre is off by no more than the excess of its
     * radius.
     */
    ghost predicate NoneSmaller()
      requires Shape() && currentC <= d
      reads this`currentC, this`currentSqrR, c
    {
      forall o: Vec, r2: real :: Encloses(o, r2) ==> currentSqrR + Dist2(Centre(), o) <= r2
    }

    /** An intact chain without negative coefficients bounds every enclosing ball from below. */
    lemma LowerBound()
      requires Valid() && 1 <= ssize == intact
      requires Shape() && ssize <= d + 1 && currentC <= d
      requires forall i :: 0 <= i < ssize ==> 0.0 <= Coefficients(Rows(ssize), ssize)[i]
      ensures NoneSmaller()
    {
      hide Dist2, RowOk, Coefficients;
      var q, rows := Chosen(chain), Rows(ssize);
      forall o: Vec, r2: real | Encloses(o, r2)
        ensures currentSqrR + Dist2(Centre(), o) <= r2
      {
        SmallestBall(d, q, rows, ssize, o, r2);
      }
    }

    /**
     * The certificate: with an intact chain, no negative coefficient and no input point outside,
     * the current ball is the unique smallest ball enclosing all input points.
     */
    lemma UniqueSmallest()
      requires Valid() && 1 <= ssize == intact
      requires Shape() && ssize <= d + 1 && currentC <= d
      requires forall i :: 0 <= i < ssize ==> 0.0 <= Coefficients(Rows(ssize), ssize)[i]
      requires forall i :: 0 <= i < |points| ==> ExcessOf(points[i]) <= 0.0
      ensures Encloses(Centre(), currentSqrR)
      ensures forall o: Vec, r2: real :: Encloses(o, r2) ==> currentSqrR <= r2 && (r2 == currentSqrR ==> o == Centre())
    {
      hide Dist2, Coefficients, Valid;
      LowerBound();
      forall o: Vec, r2: real | Encloses(o, r2)
        ensures currentSqrR <= r2 && (r2 == currentSqrR ==> o == Centre())
      {
        DistanceZero(Centre(), o);
      }
    }

    /** No coefficient of the centre is negative. */
    ghost predicate Convex()
      requires Shape() && 1 <= ssize <= d + 1
      reads this, c, v, a, sqrR, z, f
    {
      forall i :: 0 <= i < ssize ==> 0.0 <= Coefficients(Rows(ssize), ssize)[i]
    }

    lemma RatioOf(e: real, r2: real, error: real)
      requires 0.0 <= e && 0.0 < r2 && error == e / r2
      ensures error * r2 == e && 0.0 <= error && (0.0 < error <==> 0.0 < e)
    {
      Quotient(e, r2);
      MulSign(error, r2);
    }

    /**
     * Miniball.hpp:278-297. The error is the greatest excess of an input point, or zero, relative to the
     * squared radius; no support point has any.
     */
    method RelativeError() returns (error: real, subopt: real)
      requires AtRest() && 1 <= ssize
      ensures Shape() && ssize <= d + 1 && currentC <= d
      ensures 0.0 <= subopt && forall i :: 0 <= i < ssize ==> -subopt <= Coefficients(Rows(ssize), ssize)[i]
      ensures 0.0 < subopt ==> exists i :: 0 <= i < ssize && Coefficients(Rows(ssize), ssize)[i] == -subopt
      ensures currentSqrR == 0.0 ==> error == 0.0
      ensures currentSqrR != 0.0 ==> forall i :: 0 <= i < |points| ==> ExcessOf(points[i]) <= error * currentSqrR
      ensures 0.0 <= error
      ensures 0.0 < error ==> exists i :: 0 <= i < |points| && ExcessOf(points[i]) == error * currentSqrR
    {
      hide Valid, ExcessOf, Coefficients, Solves;
      Bounds();
      RadiusKnown();
      SupportOnSphere();
      var maxE := 0.0;
      for it := 0 to supportEnd
        invariant maxE == 0.0
      {
        assert L[it] in L[..supportEnd];
        var e := Excess(L[it]);
        e := Abs(e);
        if e > maxE {
          maxE := e;
        }
      }
      for k := 0 to |points|
        invariant 0.0 <= maxE && forall i :: 0 <= i < k ==> ExcessOf(points[i]) <= maxE
        invariant 0.0 < maxE ==> exists i :: 0 <= i < k && ExcessOf(points[i]) == maxE
      {
        var e := Excess(k);
        if e > maxE {
          maxE := e;
        }
      }
      subopt := Suboptimality();
      error := if currentSqrR == 0.0 then 0.0 else maxE / currentSqrR;
      if currentSqrR != 0.0 {
        RatioOf(maxE, currentSqrR, error);
      }
    }

    lemma ScaleDifference(x: real, y: real, k: real)
      ensures (x - y) * k == x * k - y * k
    {
    }

    lemma ScaleBound(error: real, r2: real)
      requires 0.0 < r2
      ensures error <= TOL <==> error * r2 <= TOL * r2
    {
      MulSign(TOL - error, r2);
      ScaleDifference(TOL, error, r2);
    }

    /**
     * Miniball.hpp:300-304. The answer is positive exactly if the ball, unless it is a point, leaves no input point out
     * by more than the tolerance, and no coefficient is negative. Then, for an intact chain of positive radius, the
     * ball is smallest up to the tolerance: none smaller encloses the input, and enlarging the squared radius by the
     * tolerance encloses all of it.
     */
    method IsValid() returns (ok: bool)
      requires AtRest() && 1 <= ssize
      ensures Shape() && currentC <= d && ssize <= d + 1
      ensures ok <==> (currentSqrR == 0.0 || Covers()) && Convex()
      ensures ok && intact == ssize && 0.0 < currentSqrR ==>
                NoneSmaller() && Encloses(Centre(), currentSqrR + TOL * currentSqrR)
    {
      hide Valid, Dist2, Coefficients, NoneSmaller, Solves;
      Bounds();
      RadiusKnown();
      var error, subopt := RelativeError();
      ok := error <= TOL && subopt == 0.0;
      if currentSqrR != 0.0 {
        ScaleBound(error, currentSqrR);
      }
      if ok && intact == ssize && 0.0 < currentSqrR {
        LowerBound();
      }
    }

    /** A ball smallest for the support is no larger than any around all points. */
    lemma SmallestOfAll()
      requires AtRest() && !rejected && 0 < |points|
      ensures forall o: Vec, r2: real :: Encloses(o, r2) ==> currentSqrR <= r2
    {
      hide Chain, BallOk, Dist2;
      forall o: Vec, r2: real | Encloses(o, r2)
        ensures currentSqrR <= r2
      {
        var b := Ball(o, r2);
        RadiusNonnegative(b, points[0]);
        assert Fits(d, b, PointsOf(L[..supportEnd]), PointsOf([]));
      }
    }

    /**
     * The driver (Miniball.hpp:348-394), for at most `limit` iterations. Unless a push is rejected, it ends by itself
     * after no more iterations than there are subsets of the points, and two; then the ball is no larger than any
     * ball around all points and leaves none of them out by more than the tolerance.
     */
    method PivotMb(limit: nat) returns (iterations: nat)
      requires AtRest() && 0 < |points| && 0 < limit
      modifies this`L, this`supportEnd, this`fsize, this`ssize, this`currentC, this`currentSqrR, this`chain, this`intact
      modifies this`rejected, c, v, a, sqrR, z, f, q0
      ensures AtRest() && 0 < ssize && iterations <= limit && Shape() && currentC <= d
      ensures !rejected ==> iterations <= Power2(|points|) + 2
      ensures !rejected && Power2(|points|) + 2 <= limit ==>
                Covers() && forall o: Vec, r2: real :: Encloses(o, r2) ==> currentSqrR <= r2
    {
      hide Shape, Covers, AtRest, Seen, Power2;
      ghost var seen: set<set<nat>> := {};
      var loopsWithoutProgress := 0;
      iterations := 0;
      RestKnown();
      NoneSeen();
      while iterations < limit && loopsWithoutProgress < 2
        invariant AtRest() && iterations <= limit && (0 < iterations ==> 0 < ssize)
        invariant Shape() && currentC <= d && supportEnd <= |L|
        invariant loopsWithoutProgress <= 2 && (iterations == 0 ==> loopsWithoutProgress == 0)
        invariant !rejected ==> Seen(seen, currentSqrR) && iterations <= |seen| + loopsWithoutProgress
        invariant !rejected && 0 < loopsWithoutProgress ==> Covers()
        decreases limit - iterations
      {
        var oldSqrR := currentSqrR;
        ghost var more := seen + {Support()};
        SupportNew(seen);
        var maxE := PivotStep();
        RestKnown();
        if oldSqrR < currentSqrR {
          loopsWithoutProgress := 0;
          seen := more;
        } else {
          loopsWithoutProgress := loopsWithoutProgress + 1;
        }
        iterations := iterations + 1;
      }
      if !rejected {
        SeenBounded(seen);
        SmallestOfAll();
      }
    }
  }
}
