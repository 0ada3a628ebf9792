/** The quadratic program of one allocation step, and what sparse arrays denote. */
module QuadraticPrograms {
  import opened Vectors

  const N: nat := 3

  /** Infinite bounds are values of their own. */
  datatype Bound = MinusInfinity | Finite(value: real) | PlusInfinity

  predicate Between(lower: Bound, x: real, upper: Bound) {
    (match lower
     case MinusInfinity => true
     case Finite(v) => v <= x
     case PlusInfinity => false) &&
    (match upper
     case MinusInfinity => false
     case Finite(v) => x <= v
     case PlusInfinity => true)
  }

  function HalfSquares(diagonal: Vec, x: Vec, n: nat): real
    requires n <= |diagonal| && n <= |x|
  {
    if n == 0 then 0.0 else HalfSquares(diagonal, x, n - 1) + 0.5 * diagonal[n - 1] * x[n - 1] * x[n - 1]
  }

  /** The data of one step: `m` increments of thrust, `m` of angle, three slacks. Diagonal matrices are vectors. */
  datatype Data = Data(
    m: nat, bAlpha: seq<Vec>, dBalphaU: seq<Vec>, b: Vec,
    lowerDeltaU: Vec, upperDeltaU: Vec, lowerDeltaAlpha: Vec, upperDeltaAlpha: Vec,
    gDeltaU: Vec, dRho: Vec, qDeltaU: Vec, omega: Vec, q: Vec)
  {
    predicate Sized() {
      |bAlpha| == |dBalphaU| == |b| == |q| == N &&
      (forall j :: 0 <= j < N ==> |bAlpha[j]| == |dBalphaU[j]| == m) &&
      |lowerDeltaU| == |upperDeltaU| == |lowerDeltaAlpha| == |upperDeltaAlpha| == m &&
      |gDeltaU| == |dRho| == |qDeltaU| == |omega| == m
    }

    function Variables(): nat {
      2 * m + N
    }

    /** A row of [B, dB, I]. */
    function Row(j: nat): (row: Vec)
      requires Sized() && j < N
      ensures |row| == Variables()
    {
      bAlpha[j] + dBalphaU[j] + UnitVector(N, j)
    }

    function Quadratic(): (diagonal: Vec)
      requires Sized()
      ensures |diagonal| == Variables()
    {
      qDeltaU + omega + q
    }

    function Linear(): (g: Vec)
      requires Sized()
      ensures |g| == Variables()
    {
      gDeltaU + dRho + Zero(N)
    }

    /** B du + dB dalpha + s == b, within the bounds on du and dalpha. */
    ghost predicate Feasible(x: Vec) {
      Sized() && |x| == Variables() &&
      (forall j :: 0 <= j < N ==> Dot(Row(j), x) == b[j]) &&
      (forall i :: 0 <= i < m ==> lowerDeltaU[i] <= x[i] <= upperDeltaU[i]) &&
      forall i :: 0 <= i < m ==> lowerDeltaAlpha[i] <= x[m + i] <= upperDeltaAlpha[i]
    }

    /** x' diag x / 2 + g' x */
    function Cost(x: Vec): real
      requires Sized() && |x| == Variables()
    {
      HalfSquares(Quadratic(), x, Variables()) + Dot(Linear(), x)
    }
  }

  // ----- Sparse columns -----

  /** The entry in `row` of a column stored at positions `first` to `last`. */
  function Stored(rows: seq<int>, values: Vec, first: int, last: int, row: int): real
    requires 0 <= first && last <= |rows| == |values|
    decreases last - first
  {
    if last <= first then 0.0
    else (if rows[first] == row then values[first] else 0.0) + Stored(rows, values, first + 1, last, row)
  }

  /** Columns that occupy positions starts[c] to ends[c]. */
  predicate Columns(starts: seq<int>, ends: seq<int>, rows: seq<int>, values: Vec, columns: nat) {
    |rows| == |values| && columns <= |starts| && columns <= |ends| &&
    forall c :: 0 <= c < columns ==> 0 <= starts[c] && ends[c] <= |rows|
  }

  /** One row of the matrix so stored. */
  function StoredRow(starts: seq<int>, ends: seq<int>, rows: seq<int>, values: Vec, columns: nat, row: int): (r: Vec)
    requires Columns(starts, ends, rows, values, columns)
    ensures |r| == columns
  {
    seq(columns, c requires 0 <= c < columns => Stored(rows, values, starts[c], ends[c], row))
  }

  /** Compressed columns: starts that grow to the number of entries, rows that grow within each column. */
  predicate WellFormed(starts: seq<int>, rows: seq<int>, columns: nat, height: nat) {
    |starts| == columns + 1 && starts[0] == 0 && starts[columns] == |rows| &&
    (forall c, c' :: 0 <= c <= c' <= columns ==> starts[c] <= starts[c']) &&
    (forall p :: 0 <= p < |rows| ==> 0 <= rows[p] < height) &&
    forall c, p, p' :: 0 <= c < columns && 0 <= starts[c] <= p < p' < starts[c + 1] <= |rows| ==> rows[p] < rows[p']
  }

  /** Three entries from `first` on hold column `c` of a matrix. */
  predicate Triple(values: Vec, first: nat, matrix: seq<Vec>, c: nat) {
    |matrix| == N && c < |matrix[0]| && c < |matrix[1]| && c < |matrix[2]| && first + 3 <= |values| &&
    values[first] == matrix[0][c] && values[first + 1] == matrix[1][c] && values[first + 2] == matrix[2][c]
  }

  /** Three consecutive rows fill a column. */
  lemma StoredThree(rows: seq<int>, values: Vec, first: nat, row: nat)
    requires first + 3 <= |rows| == |values| && row < N
    requires rows[first] == 0 && rows[first + 1] == 1 && rows[first + 2] == 2
    ensures Stored(rows, values, first, first + 3, row) == values[first + row]
  {
    assert Stored(rows, values, first + 3, first + 3, row) == 0.0;
    assert Stored(rows, values, first + 2, first + 3, row) == if row == 2 then values[first + 2] else 0.0;
  }

  /** Three consecutive rows and one below them. */
  lemma StoredFour(rows: seq<int>, values: Vec, first: nat, below: int, row: int)
    requires first + 4 <= |rows| == |values| && below >= 3 && values[first + 3] == 1.0
    requires rows[first] == 0 && rows[first + 1] == 1 && rows[first + 2] == 2 && rows[first + 3] == below
    ensures Stored(rows, values, first, first + 4, row)
         == if 0 <= row < 3 then values[first + row] else if row == below then 1.0 else 0.0
  {
    assert Stored(rows, values, first + 4, first + 4, row) == 0.0;
    assert Stored(rows, values, first + 3, first + 4, row) == if row == below then 1.0 else 0.0;
    assert Stored(rows, values, first + 2, first + 4, row)
        == if row == 2 then values[first + 2] else if row == below then 1.0 else 0.0;
  }

  lemma StoredOne(rows: seq<int>, values: Vec, first: nat, row: int)
    requires first + 1 <= |rows| == |values|
    ensures Stored(rows, values, first, first + 1, row) == if rows[first] == row then values[first] else 0.0
  {
    assert Stored(rows, values, first + 1, first + 1, row) == 0.0;
  }

  lemma StoredTwo(rows: seq<int>, values: Vec, first: nat, row: int)
    requires first + 2 <= |rows| == |values| && rows[first] != rows[first + 1]
    ensures Stored(rows, values, first, first + 2, row)
         == if rows[first] == row then values[first] else if rows[first + 1] == row then values[first + 1] else 0.0
  {
    StoredOne(rows, values, first + 1, row);
  }

  // ----- The slacks -----

  /** The last three columns add the slack of the row. */
  lemma SlackTail(row: Vec, x: Vec, n: nat, j: nat)
    requires |row| == |x| == n + N && j < N && row[n..] == UnitVector(N, j)
    ensures Dot(row, x) == DotN(row, x, n) + x[n + j]
  {
    assert row[n] == row[n..][0] && row[n + 1] == row[n..][1] && row[n + 2] == row[n..][2];
    assert DotN(row, x, n + 1) == DotN(row, x, n) + row[n] * x[n];
    assert DotN(row, x, n + 2) == DotN(row, x, n + 1) + row[n + 1] * x[n + 1];
    assert DotN(row, x, n + 3) == DotN(row, x, n + 2) + row[n + 2] * x[n + 2];
  }

  lemma {:induction false} SamePrefix(row: Vec, x: Vec, y: Vec, n: nat)
    requires n <= |row| && n <= |x| && n <= |y| && x[..n] == y[..n]
    ensures DotN(row, x, n) == DotN(row, y, n)
  {
    if n > 0 {
      assert x[..n - 1] == x[..n][..n - 1] && x[n - 1] == x[..n][n - 1] && y[n - 1] == y[..n][n - 1];
      SamePrefix(row, x, y, n - 1);
    }
  }

  /** Whatever the increments, within bounds, slacks complete them: the program never fails for want of a solution. */
  lemma SlacksComplete(d: Data, du: Vec, dalpha: Vec) returns (s: Vec)
    requires d.Sized() && |du| == |dalpha| == d.m
    requires forall i :: 0 <= i < d.m ==> d.lowerDeltaU[i] <= du[i] <= d.upperDeltaU[i]
    requires forall i :: 0 <= i < d.m ==> d.lowerDeltaAlpha[i] <= dalpha[i] <= d.upperDeltaAlpha[i]
    ensures |s| == N && d.Feasible(du + dalpha + s)
  {
    var z := du + dalpha + Zero(N);
    s := seq(N, j requires 0 <= j < N => d.b[j] - DotN(d.Row(j), z, 2 * d.m));
    var x := du + dalpha + s;
    forall j: nat | j < N
      ensures Dot(d.Row(j), x) == d.b[j]
    {
      assert z[..2 * d.m] == x[..2 * d.m];
      SamePrefix(d.Row(j), z, x, 2 * d.m);
      SlackTail(d.Row(j), x, 2 * d.m, j);
    }
  }

  // ----- What the program means for the increments and slacks -----

  lemma {:induction false} SameDot(a: Vec, x: Vec, a': Vec, x': Vec, n: nat)
    requires n <= |a| && n <= |x| && n <= |a'| && n <= |x'|
    requires forall i :: 0 <= i < n ==> a[i] == a'[i] && x[i] == x'[i]
    ensures DotN(a, x, n) == DotN(a', x', n)
  {
    if n > 0 {
      SameDot(a, x, a', x', n - 1);
    }
  }

  lemma DotFront(a: Vec, b: Vec, x: Vec, y: Vec)
    requires |a| == |x| && |b| == |y|
    ensures DotN(a + b, x + y, |a|) == Dot(a, x)
  {
    SameDot(a + b, x + y, a, x, |a|);
  }

  lemma {:induction false} DotSplit(a: Vec, b: Vec, x: Vec, y: Vec, n: nat)
    requires |a| == |x| && |b| == |y| && n <= |b|
    ensures DotN(a + b, x + y, |a| + n) == Dot(a, x) + DotN(b, y, n)
  {
    hide Dot;
    if n == 0 {
      DotFront(a, b, x, y);
    } else {
      DotSplit(a, b, x, y, n - 1);
    }
  }

  lemma DotParts(a: Vec, b: Vec, c: Vec, x: Vec, y: Vec, z: Vec)
    requires |a| == |x| && |b| == |y| && |c| == |z|
    ensures Dot(a + b + c, x + y + z) == Dot(a, x) + Dot(b, y) + Dot(c, z)
  {
    DotSplit(a, b, x, y, |b|);
    DotSplit(a + b, c, x + y, z, |c|);
  }

  lemma {:induction false} SameSquares(a: Vec, x: Vec, a': Vec, x': Vec, n: nat)
    requires n <= |a| && n <= |x| && n <= |a'| && n <= |x'|
    requires forall i :: 0 <= i < n ==> a[i] == a'[i] && x[i] == x'[i]
    ensures HalfSquares(a, x, n) == HalfSquares(a', x', n)
  {
    if n > 0 {
      SameSquares(a, x, a', x', n - 1);
    }
  }

  lemma {:induction false} SquaresSplit(a: Vec, b: Vec, x: Vec, y: Vec, n: nat)
    requires |a| == |x| && |b| == |y| && n <= |b|
    ensures HalfSquares(a + b, x + y, |a| + n) == HalfSquares(a, x, |a|) + HalfSquares(b, y, n)
  {
    if n == 0 {
      SameSquares(a + b, x + y, a, x, |a|);
    } else {
      SquaresSplit(a, b, x, y, n - 1);
    }
  }

  /** For each of surge, sway and yaw: what the increments and the slack bring together is what is asked for. */
  lemma FeasibleMeans(d: Data, du: Vec, dalpha: Vec, s: Vec)
    requires d.Sized() && |du| == |dalpha| == d.m && |s| == N
    ensures d.Feasible(du + dalpha + s) <==>
            (forall j :: 0 <= j < N ==> Dot(d.bAlpha[j], du) + Dot(d.dBalphaU[j], dalpha) + s[j] == d.b[j]) &&
            (forall i :: 0 <= i < d.m ==> d.lowerDeltaU[i] <= du[i] <= d.upperDeltaU[i]) &&
            forall i :: 0 <= i < d.m ==> d.lowerDeltaAlpha[i] <= dalpha[i] <= d.upperDeltaAlpha[i]
  {
    var x := du + dalpha + s;
    forall j: nat | j < N
      ensures Dot(d.Row(j), x) == Dot(d.bAlpha[j], du) + Dot(d.dBalphaU[j], dalpha) + s[j]
    {
      DotParts(d.bAlpha[j], d.dBalphaU[j], UnitVector(N, j), du, dalpha, s);
      UnitDot(s, j);
    }
    hide Dot;
    assert forall i :: 0 <= i < d.m ==> x[i] == du[i] && x[d.m + i] == dalpha[i];
  }

  /** All the squares of a point. */
  function Squares(diagonal: Vec, x: Vec): real
    requires |diagonal| == |x|
  {
    HalfSquares(diagonal, x, |x|)
  }

  lemma SquaresAdd(a: Vec, b: Vec, x: Vec, y: Vec)
    requires |a| == |x| && |b| == |y|
    ensures Squares(a + b, x + y) == Squares(a, x) + Squares(b, y)
  {
    hide HalfSquares;
    SquaresSplit(a, b, x, y, |b|);
  }

  lemma NoLinear(s: Vec)
    requires |s| == N
    ensures Dot(Zero(N), s) == 0.0
  {
    DotZeroLeft(Zero(N), s, N);
  }

  lemma CostIs(d: Data, x: Vec)
    requires d.Sized() && |x| == d.Variables()
    ensures d.Cost(x) == Squares(d.qDeltaU + d.omega + d.q, x) + Dot(d.gDeltaU + d.dRho + Zero(N), x)
  {
    hide Dot, HalfSquares;
  }

  /** The increments are charged by their weights and linear terms, the slacks by their penalty. */
  lemma CostMeans(d: Data, du: Vec, dalpha: Vec, s: Vec)
    requires d.Sized() && |du| == |dalpha| == d.m && |s| == N
    ensures d.Cost(du + dalpha + s)
         == Squares(d.qDeltaU, du) + Squares(d.omega, dalpha) + Squares(d.q, s)
            + Dot(d.gDeltaU, du) + Dot(d.dRho, dalpha)
  {
    CostIs(d, du + dalpha + s);
    hide Dot, Squares, HalfSquares;
    SquaresAdd(d.qDeltaU, d.omega, du, dalpha);
    SquaresAdd(d.qDeltaU + d.omega, d.q, du + dalpha, s);
    DotParts(d.gDeltaU, d.dRho, Zero(N), du, dalpha, s);
    NoLinear(s);
  }
}
