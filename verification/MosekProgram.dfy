/** The program as the column arrays and variable bounds handed to Mosek (thrustallocation.h). */
module MosekPrograms {
  import opened Vectors
  import opened QuadraticPrograms

  datatype BoundKey = Fixed | Ranged | Free

  /** The contents of the arrays. */
  datatype Task = Task(
    aptrb: seq<int>, aptre: seq<int>, asub: seq<int>, aval: Vec,
    bkc: seq<BoundKey>, blc: Vec, buc: Vec, bkx: seq<BoundKey>, blx: Vec, bux: Vec,
    g: Vec, qsubi: seq<int>, qsubj: seq<int>, qval: Vec)

  // ----- What the arrays denote to the solver -----

  predicate Respects(key: BoundKey, lower: real, x: real, upper: real) {
    match key
    case Fixed => x == lower == upper
    case Ranged => lower <= x <= upper
    case Free => true
  }

  predicate Shaped(t: Task, variables: nat) {
    Columns(t.aptrb, t.aptre, t.asub, t.aval, variables) &&
    |t.bkc| == |t.blc| == |t.buc| == N && |t.bkx| == |t.blx| == |t.bux| == variables &&
    |t.g| == |t.qsubi| == |t.qsubj| == |t.qval| == variables &&
    forall k :: 0 <= k < variables ==> 0 <= t.qsubi[k] < variables && 0 <= t.qsubj[k] < variables
  }

  ghost predicate Feasible(t: Task, x: Vec) {
    Shaped(t, |x|) &&
    (forall j :: 0 <= j < N ==>
      Respects(t.bkc[j], t.blc[j], Dot(StoredRow(t.aptrb, t.aptre, t.asub, t.aval, |x|, j), x), t.buc[j])) &&
    forall k :: 0 <= k < |x| ==> Respects(t.bkx[k], t.blx[k], x[k], t.bux[k])
  }

  /** x' Q x / 2 for the first `n` entries of a lower triangle: those off the diagonal stand for two. */
  function LowerTriangle(t: Task, x: Vec, n: nat): real
    requires Shaped(t, |x|) && n <= |x|
  {
    if n == 0 then 0.0
    else
      var i, j := t.qsubi[n - 1], t.qsubj[n - 1];
      LowerTriangle(t, x, n - 1) + (if i == j then 0.5 else 1.0) * t.qval[n - 1] * x[i] * x[j]
  }

  function Cost(t: Task, x: Vec): real
    requires Shaped(t, |x|)
  {
    LowerTriangle(t, x, |x|) + Dot(t.g, x)
  }

  // ----- What the arrays hold -----

  /** Column `c` of increments names the three rows. */
  predicate FullColumn(asub: seq<int>, c: nat) {
    3 * c + 3 <= |asub| && asub[3 * c] == 0 && asub[3 * c + 1] == 1 && asub[3 * c + 2] == 2
  }

  /** Column `c` of a matrix, in the columns from `base` on. */
  predicate Holds(aval: Vec, base: nat, matrix: seq<Vec>, c: nat) {
    Triple(aval, 3 * (base + c), matrix, c)
  }

  predicate Pointers(aptrb: seq<int>, aptre: seq<int>, asub: seq<int>, m: nat) {
    |aptrb| == |aptre| == 2 * m + N && |asub| == 6 * m + N &&
    (forall c :: 0 <= c < 2 * m ==> aptrb[c] == 3 * c && aptre[c] == 3 * c + 3) &&
    (forall c :: 2 * m <= c < 2 * m + N ==> aptrb[c] == 6 * m + (c - 2 * m) && aptre[c] == 6 * m + (c - 2 * m) + 1) &&
    (forall c :: 0 <= c < 2 * m ==> FullColumn(asub, c)) &&
    forall p :: 6 * m <= p < 6 * m + N ==> asub[p] == p - 6 * m
  }

  predicate SlackEntries(aval: Vec, m: nat) {
    |aval| == 6 * m + N && forall p :: 6 * m <= p < 6 * m + N ==> aval[p] == 1.0
  }

  predicate Keys(bkc: seq<BoundKey>, bkx: seq<BoundKey>, m: nat) {
    |bkc| == N && |bkx| == 2 * m + N && (forall j :: 0 <= j < N ==> bkc[j] == Fixed) &&
    (forall k :: 0 <= k < 2 * m ==> bkx[k] == Ranged) && forall k :: 2 * m <= k < 2 * m + N ==> bkx[k] == Free
  }

  predicate Diagonal(qsubi: seq<int>, qsubj: seq<int>, m: nat) {
    |qsubi| == |qsubj| == 2 * m + N && forall k :: 0 <= k < 2 * m + N ==> qsubi[k] == qsubj[k] == k
  }

  predicate FixedCost(g: Vec, qval: Vec, m: nat, omega: Vec, q: Vec) {
    |g| == |qval| == 2 * m + N && |omega| == m && |q| == N &&
    (forall k :: 2 * m <= k < 2 * m + N ==> g[k] == 0.0 && qval[k] == q[k - 2 * m]) &&
    forall k :: m <= k < 2 * m ==> qval[k] == omega[k - m]
  }

  /** What initializemosekvariables leaves and no update touches. */
  predicate Initialized(t: Task, m: nat, omega: Vec, q: Vec) {
    Pointers(t.aptrb, t.aptre, t.asub, m) && SlackEntries(t.aval, m) && Keys(t.bkc, t.bkx, m) &&
    Diagonal(t.qsubi, t.qsubj, m) && FixedCost(t.g, t.qval, m, omega, q) &&
    |t.blc| == |t.buc| == N && |t.blx| == |t.bux| == 2 * m + N
  }

  predicate Entries(aval: Vec, d: Data)
    requires d.Sized()
  {
    |aval| == 6 * d.m + N &&
    (forall i :: 0 <= i < d.m ==> Holds(aval, 0, d.bAlpha, i)) &&
    forall i :: 0 <= i < d.m ==> Holds(aval, d.m, d.dBalphaU, i)
  }

  /** The first `i` entries of either half of a vector have been written. */
  predicate Halves(v: Vec, first: Vec, second: Vec, m: nat, i: nat) {
    i <= m == |first| == |second| && 2 * m <= |v| &&
    (forall k :: 0 <= k < i ==> v[k] == first[k]) && forall k :: m <= k < m + i ==> v[k] == second[k - m]
  }

  /** What updateMosekparameters writes. */
  predicate Updated(t: Task, d: Data) {
    d.Sized() && Entries(t.aval, d) && t.blc == t.buc == d.b &&
    |t.blx| == |t.bux| == |t.g| == |t.qval| == 2 * d.m + N &&
    Halves(t.blx, d.lowerDeltaU, d.lowerDeltaAlpha, d.m, d.m) &&
      Halves(t.bux, d.upperDeltaU, d.upperDeltaAlpha, d.m, d.m) &&
    Halves(t.g, d.gDeltaU, d.dRho, d.m, d.m) && t.qval[..d.m] == d.qDeltaU
  }

  /** The arrays hold the program of `d`. */
  predicate Encodes(t: Task, d: Data) {
    Initialized(t, d.m, d.omega, d.q) && Updated(t, d)
  }

  // ----- What is held is what is meant -----

  lemma ColumnEntry(t: Task, d: Data, j: nat, c: nat)
    requires Encodes(t, d) && j < N && c < 2 * d.m + N
    ensures Stored(t.asub, t.aval, t.aptrb[c], t.aptre[c], j) == d.Row(j)[c]
  {
    if c < 2 * d.m {
      assert FullColumn(t.asub, c);
      StoredThree(t.asub, t.aval, 3 * c, j);
      if c < d.m {
        assert Holds(t.aval, 0, d.bAlpha, c);
      } else {
        assert Holds(t.aval, d.m, d.dBalphaU, c - d.m);
      }
    } else {
      StoredOne(t.asub, t.aval, t.aptrb[c], j);
    }
  }

  lemma EncodedShape(t: Task, d: Data)
    requires Encodes(t, d)
    ensures Shaped(t, 2 * d.m + N)
  {
  }

  lemma EncodedRow(t: Task, d: Data, j: nat)
    requires Encodes(t, d) && j < N
    ensures Shaped(t, 2 * d.m + N)
    ensures StoredRow(t.aptrb, t.aptre, t.asub, t.aval, 2 * d.m + N, j) == d.Row(j)
  {
    EncodedShape(t, d);
    forall c: nat | c < 2 * d.m + N
      ensures Stored(t.asub, t.aval, t.aptrb[c], t.aptre[c], j) == d.Row(j)[c]
    {
      ColumnEntry(t, d, j, c);
    }
  }

  lemma EncodedBounds(t: Task, d: Data, x: Vec)
    requires Encodes(t, d) && |x| == 2 * d.m + N
    ensures (forall k :: 0 <= k < |x| ==> Respects(t.bkx[k], t.blx[k], x[k], t.bux[k]))
       <==> (forall i :: 0 <= i < d.m ==> d.lowerDeltaU[i] <= x[i] <= d.upperDeltaU[i]) &&
            (forall i :: 0 <= i < d.m ==> d.lowerDeltaAlpha[i] <= x[d.m + i] <= d.upperDeltaAlpha[i])
  {
    assert forall i :: 0 <= i < d.m ==> t.blx[d.m + i] == d.lowerDeltaAlpha[i];
    assert forall i :: 0 <= i < d.m ==> t.bux[d.m + i] == d.upperDeltaAlpha[i];
    assert forall k :: d.m <= k < 2 * d.m ==> x[k] == x[d.m + (k - d.m)];
  }

  lemma EncodedConstraints(t: Task, d: Data)
    requires Encodes(t, d)
    ensures d.Sized() && |t.bkc| == N && t.blc == t.buc == d.b && forall j :: 0 <= j < N ==> t.bkc[j] == Fixed
  {
  }

  /** The arrays admit exactly the solutions of the program. */
  lemma EncodingFeasible(t: Task, d: Data, x: Vec)
    requires Encodes(t, d) && |x| == d.Variables()
    ensures Feasible(t, x) <==> d.Feasible(x)
  {
    hide Encodes, StoredRow, Columns;
    EncodedBounds(t, d, x);
    EncodedShape(t, d);
    EncodedConstraints(t, d);
    forall j: nat | j < N
      ensures StoredRow(t.aptrb, t.aptre, t.asub, t.aval, |x|, j) == d.Row(j)
    {
      EncodedRow(t, d, j);
    }
  }

  lemma EncodedCost(t: Task, d: Data)
    requires Encodes(t, d)
    ensures t.g == d.Linear() && t.qval == d.Quadratic()
  {
    assert forall i :: 0 <= i < d.m ==> t.qval[i] == t.qval[..d.m][i];
    forall k | 0 <= k < 2 * d.m + N
      ensures t.g[k] == d.Linear()[k] && t.qval[k] == d.Quadratic()[k]
    {
    }
  }

  lemma {:induction false} DiagonalTriangle(t: Task, diagonal: Vec, x: Vec, n: nat)
    requires Shaped(t, |x|) && n <= |x| && t.qval == diagonal
    requires forall k :: 0 <= k < |x| ==> t.qsubi[k] == t.qsubj[k] == k
    ensures LowerTriangle(t, x, n) == HalfSquares(diagonal, x, n)
  {
    if n > 0 {
      DiagonalTriangle(t, diagonal, x, n - 1);
    }
  }

  /** The arrays charge every point what the program charges. */
  lemma EncodingCost(t: Task, d: Data, x: Vec)
    requires Encodes(t, d) && |x| == d.Variables()
    ensures Shaped(t, |x|) && Cost(t, x) == d.Cost(x)
  {
    EncodedShape(t, d);
    EncodedCost(t, d);
    DiagonalTriangle(t, d.Quadratic(), x, |x|);
  }

  // ----- The class -----

  lemma CostKept(g: Vec, qval: Vec, g': Vec, qval': Vec, m: nat, omega: Vec, q: Vec)
    requires FixedCost(g, qval, m, omega, q) && |g'| == |g| && |qval'| == |qval|
    requires g'[2 * m..] == g[2 * m..] && qval'[m..] == qval[m..]
    ensures FixedCost(g', qval', m, omega, q)
  {
    assert forall k :: 2 * m <= k < 2 * m + N ==> g'[k] == g'[2 * m..][k - 2 * m] && g[k] == g[2 * m..][k - 2 * m];
    assert forall k :: m <= k < 2 * m + N ==> qval'[k] == qval'[m..][k - m] && qval[k] == qval[m..][k - m];
  }

  class MosekProgram {
    const m: nat
    const aptrb: array<int>
    const aptre: array<int>
    const asub: array<int>
    const aval: array<real>
    const bkc: array<BoundKey>
    const blc: array<real>
    const buc: array<real>
    const bkx: array<BoundKey>
    const blx: array<real>
    const bux: array<real>
    const g: array<real>
    const qsubi: array<int>
    const qsubj: array<int>
    const qval: array<real>

    ghost predicate Valid() {
      aptrb.Length == aptre.Length == 2 * m + N && asub.Length == aval.Length == 6 * m + N &&
      bkc.Length == blc.Length == buc.Length == N && bkx.Length == blx.Length == bux.Length == 2 * m + N &&
      g.Length == qsubi.Length == qsubj.Length == qval.Length == 2 * m + N &&
      aptrb != aptre && aptrb != asub && aptrb != qsubi && aptrb != qsubj && aptre != asub && aptre != qsubi &&
      aptre != qsubj && asub != qsubi && asub != qsubj && qsubi != qsubj && bkc != bkx &&
      aval != blc && aval != buc && aval != blx && aval != bux && aval != g && aval != qval &&
      blc != buc && blc != blx && blc != bux && blc != g && blc != qval && buc != blx && buc != bux && buc != g &&
      buc != qval && blx != bux && blx != g && blx != qval && bux != g && bux != qval && g != qval
    }

    function Contents(): Task
      reads aptrb, aptre, asub, aval, bkc, blc, buc, bkx, blx, bux, g, qsubi, qsubj, qval
    {
      Task(aptrb[..], aptre[..], asub[..], aval[..], bkc[..], blc[..], buc[..], bkx[..], blx[..], bux[..],
           g[..], qsubi[..], qsubj[..], qval[..])
    }

    constructor (m: nat, omega: Vec, q: Vec, infinity: real)
      requires |omega| == m && |q| == N
      ensures this.m == m && Valid() && Initialized(Contents(), m, omega, q)
    {
      this.m := m;
      aptrb, aptre, asub, aval := new int[2 * m + N], new int[2 * m + N], new int[6 * m + N], new real[6 * m + N];
      bkc, blc, buc := new BoundKey[N], new real[N], new real[N];
      bkx, blx, bux := new BoundKey[2 * m + N], new real[2 * m + N], new real[2 * m + N];
      g, qsubi, qsubj, qval := new real[2 * m + N], new int[2 * m + N], new int[2 * m + N], new real[2 * m + N];
      new;
      hide Keys, Pointers, SlackEntries, Diagonal, FixedCost;
      InitializeBounds(infinity);
      InitializeColumns();
      InitializeObjective(omega, q);
    }

    method InitializeBounds(infinity: real)
      requires Valid()
      modifies bkc, blc, buc, bkx, blx, bux
      ensures Keys(bkc[..], bkx[..], m)
    {
      for i := 0 to 2 * m
        invariant forall k :: 0 <= k < i ==> bkx[k] == Ranged
      {
        bkx[i], blx[i], bux[i] := Ranged, 0.0, 0.0;
      }
      for j := 0 to N
        invariant forall k :: 0 <= k < 2 * m ==> bkx[k] == Ranged
        invariant forall k :: 2 * m <= k < 2 * m + j ==> bkx[k] == Free
        invariant forall k :: 0 <= k < j ==> bkc[k] == Fixed
      {
        bkx[j + 2 * m], blx[j + 2 * m], bux[j + 2 * m] := Free, -infinity, infinity;
        bkc[j], blc[j], buc[j] := Fixed, 0.0, 0.0;
      }
    }

    method InitializeColumn(i: nat)
      requires Valid() && i < 2 * m
      modifies asub, aval
      ensures forall c :: 0 <= c < i && old(FullColumn(asub[..], c)) ==> FullColumn(asub[..], c)
      ensures FullColumn(asub[..], i)
    {
      for j := 0 to 3
        invariant forall p :: 0 <= p < 3 * i ==> asub[p] == old(asub[p])
        invariant forall p :: 3 * i <= p < 3 * i + j ==> asub[p] == p - 3 * i
      {
        asub[3 * i + j], aval[3 * i + j] := j, 0.0;
      }
    }

    /** The columns of the increments. */
    method InitializeIncrements()
      requires Valid()
      modifies aptrb, aptre, asub, aval
      ensures forall c :: 0 <= c < 2 * m ==> aptrb[c] == 3 * c && aptre[c] == 3 * c + 3 && FullColumn(asub[..], c)
    {
      for i := 0 to 2 * m
        invariant forall c :: 0 <= c < i ==> aptrb[c] == 3 * c && aptre[c] == 3 * c + 3
        invariant forall c :: 0 <= c < i ==> FullColumn(asub[..], c)
      {
        aptrb[i], aptre[i] := 3 * i, 3 * i + 3;
        InitializeColumn(i);
      }
    }

    /** The columns of the slacks. */
    method InitializeSlacks()
      requires Valid()
      modifies aptrb, aptre, asub, aval
      ensures forall c :: 0 <= c < 2 * m ==> aptrb[c] == old(aptrb[c]) && aptre[c] == old(aptre[c])
      ensures forall p :: 0 <= p < 6 * m ==> asub[p] == old(asub[p])
      ensures forall c :: 2 * m <= c < 2 * m + N ==>
        aptrb[c] == 6 * m + (c - 2 * m) && aptre[c] == 6 * m + (c - 2 * m) + 1
      ensures forall p :: 6 * m <= p < 6 * m + N ==> asub[p] == p - 6 * m && aval[p] == 1.0
    {
      for j := 0 to N
        invariant forall c :: 0 <= c < 2 * m ==> aptrb[c] == old(aptrb[c]) && aptre[c] == old(aptre[c])
        invariant forall c :: 2 * m <= c < 2 * m + j ==>
          aptrb[c] == 6 * m + (c - 2 * m) && aptre[c] == 6 * m + (c - 2 * m) + 1
        invariant forall p :: 0 <= p < 6 * m ==> asub[p] == old(asub[p])
        invariant forall p :: 6 * m <= p < 6 * m + j ==> asub[p] == p - 6 * m && aval[p] == 1.0
      {
        aptrb[j + 2 * m], aptre[j + 2 * m] := 6 * m + j, 6 * m + j + 1;
        asub[j + 6 * m], aval[j + 6 * m] := j, 1.0;
      }
    }

    method InitializeColumns()
      requires Valid()
      modifies aptrb, aptre, asub, aval
      ensures Pointers(aptrb[..], aptre[..], asub[..], m) && SlackEntries(aval[..], m)
    {
      InitializeIncrements();
      ghost var rows := asub[..];
      InitializeSlacks();
      forall c: nat | c < 2 * m
        ensures FullColumn(asub[..], c)
      {
        assert FullColumn(rows, c);
      }
    }

    method InitializeObjective(omega: Vec, q: Vec)
      requires Valid() && |omega| == m && |q| == N
      modifies g, qsubi, qsubj, qval
      ensures Diagonal(qsubi[..], qsubj[..], m) && FixedCost(g[..], qval[..], m, omega, q)
    {
      for i := 0 to 2 * m + N
        invariant forall k :: 0 <= k < i ==> qsubi[k] == qsubj[k] == k && g[k] == 0.0
      {
        qsubi[i], qsubj[i], g[i] := i, i, 0.0;
      }
      for i := 0 to m
        invariant forall k :: m <= k < m + i ==> qval[k] == omega[k - m]
        modifies qval
      {
        qval[i], qval[i + m] := 0.0, omega[i];
      }
      for j := 0 to N
        invariant forall k :: m <= k < 2 * m ==> qval[k] == omega[k - m]
        invariant forall k :: 2 * m <= k < 2 * m + j ==> qval[k] == q[k - 2 * m]
        modifies qval
      {
        qval[j + 2 * m] := q[j];
      }
    }

    /** Column `c` of a matrix, into the columns from `base` on. */
    method WriteColumn(base: nat, matrix: seq<Vec>, c: nat)
      requires Valid() && base + c < 2 * m && |matrix| == N && forall j :: 0 <= j < N ==> |matrix[j]| == m
      requires c < m
      modifies aval
      ensures Holds(aval[..], base, matrix, c)
      ensures forall base': nat, matrix', c': nat {:trigger Holds(aval[..], base', matrix', c')} ::
        base' + c' != base + c && old(Holds(aval[..], base', matrix', c')) ==> Holds(aval[..], base', matrix', c')
      ensures aval[6 * m..] == old(aval[6 * m..])
    {
      ghost var first := 3 * (base + c);
      for j := 0 to N
        invariant forall p :: 0 <= p < first || first + 3 <= p < aval.Length ==> aval[p] == old(aval[p])
        invariant forall p :: first <= p < first + j ==> aval[p] == matrix[p - first][c]
      {
        aval[N * (base + c) + j] := matrix[j][c];
      }
    }

    method UpdateEntries(d: Data)
      requires Valid() && d.Sized() && d.m == m
      modifies aval
      ensures Entries(aval[..], d)
      ensures aval[6 * m..] == old(aval[6 * m..])
    {
      for i := 0 to m
        invariant forall k :: 0 <= k < i ==> Holds(aval[..], 0, d.bAlpha, k)
        invariant forall k :: 0 <= k < i ==> Holds(aval[..], m, d.dBalphaU, k)
        invariant aval[6 * m..] == old(aval[6 * m..])
      {
        WriteColumn(0, d.bAlpha, i);
        WriteColumn(m, d.dBalphaU, i);
      }
    }

    method UpdateConstraints(d: Data)
      requires Valid() && d.Sized() && d.m == m
      modifies blc, buc
      ensures blc[..] == buc[..] == d.b
    {
      for i := 0 to N
        invariant blc[..i] == buc[..i] == d.b[..i]
      {
        blc[i], buc[i] := d.b[i], d.b[i];
      }
    }

    /** Entry `i` of either half. */
    method WriteHalves(a: array<real>, first: Vec, second: Vec, i: nat)
      requires i < m == |first| == |second| && a.Length == 2 * m + N && Halves(a[..], first, second, m, i)
      modifies a
      ensures Halves(a[..], first, second, m, i + 1)
      ensures a[2 * m..] == old(a[2 * m..])
    {
      a[i] := first[i];
      a[m + i] := second[i];
    }

    method UpdateVariables(d: Data)
      requires Valid() && d.Sized() && d.m == m && FixedCost(g[..], qval[..], m, d.omega, d.q)
      modifies blx, bux, g, qval
      ensures Halves(blx[..], d.lowerDeltaU, d.lowerDeltaAlpha, m, m)
      ensures Halves(bux[..], d.upperDeltaU, d.upperDeltaAlpha, m, m)
      ensures Halves(g[..], d.gDeltaU, d.dRho, m, m) && qval[..m] == d.qDeltaU
      ensures FixedCost(g[..], qval[..], m, d.omega, d.q)
    {
      hide FixedCost;
      ghost var g0, qval0 := g[..], qval[..];
      for i := 0 to m
        invariant Halves(blx[..], d.lowerDeltaU, d.lowerDeltaAlpha, m, i)
        invariant Halves(bux[..], d.upperDeltaU, d.upperDeltaAlpha, m, i)
        invariant Halves(g[..], d.gDeltaU, d.dRho, m, i) && g[2 * m..] == g0[2 * m..]
        invariant qval[..i] == d.qDeltaU[..i] && qval[m..] == qval0[m..]
      {
        hide Halves;
        WriteHalves(blx, d.lowerDeltaU, d.lowerDeltaAlpha, i);
        WriteHalves(bux, d.upperDeltaU, d.upperDeltaAlpha, i);
        WriteHalves(g, d.gDeltaU, d.dRho, i);
        qval[i] := d.qDeltaU[i];
      }
      CostKept(g0, qval0, g[..], qval[..], m, d.omega, d.q);
    }

    method UpdateMosekParameters(d: Data)
      requires Valid() && d.Sized() && d.m == m && Initialized(Contents(), m, d.omega, d.q)
      modifies aval, blc, buc, blx, bux, g, qval
      ensures Encodes(Contents(), d)
    {
      UpdateEntries(d);
      UpdateConstraints(d);
      UpdateVariables(d);
    }
  }
}
