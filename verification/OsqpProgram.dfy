/** The same program as compressed columns with row bounds, handed to OSQP (thrustallocation_osqp.h). */
module OsqpPrograms {
  import opened Vectors
  import opened QuadraticPrograms

  /** The contents of the arrays. */
  datatype Work = Work(
    px: Vec, pi: seq<int>, pp: seq<int>, q: Vec, ax: Vec, ai: seq<int>, ap: seq<int>, l: seq<Bound>, u: seq<Bound>)

  // ----- What the arrays denote to the solver -----

  /** `n` variables and `rows` bounded rows. */
  predicate Shaped(t: Work, n: nat, rows: nat) {
    WellFormed(t.ap, t.ai, n, rows) && |t.ax| == |t.ai| && WellFormed(t.pp, t.pi, n, n) && |t.px| == |t.pi| &&
    |t.q| == n && |t.l| == |t.u| == rows
  }

  /** A row of the constraint matrix. */
  function Row(t: Work, n: nat, rows: nat, r: nat): (row: Vec)
    requires Shaped(t, n, rows)
    ensures |row| == n
  {
    StoredRow(t.ap, t.ap[1..], t.ai, t.ax, n, r)
  }

  ghost predicate Feasible(t: Work, rows: nat, x: Vec) {
    Shaped(t, |x|, rows) && forall r: nat :: r < rows ==> Between(t.l[r], Dot(Row(t, |x|, rows, r), x), t.u[r])
  }

  /** Column `c` of an upper triangle in x' P x / 2: entries off the diagonal stand for two. */
  function UpperColumn(t: Work, x: Vec, rows: nat, c: nat, first: int, last: int): real
    requires Shaped(t, |x|, rows) && c < |x| && 0 <= first && last <= |t.pi|
    decreases last - first
  {
    if last <= first then 0.0
    else (if t.pi[first] == c then 0.5 else 1.0) * t.px[first] * x[t.pi[first]] * x[c]
         + UpperColumn(t, x, rows, c, first + 1, last)
  }

  function UpperTriangle(t: Work, x: Vec, rows: nat, n: nat): real
    requires Shaped(t, |x|, rows) && n <= |x|
  {
    if n == 0 then 0.0
    else
      UpperTriangle(t, x, rows, n - 1) + UpperColumn(t, x, rows, n - 1, t.pp[n - 1], t.pp[n])
  }

  function Cost(t: Work, rows: nat, x: Vec): real
    requires Shaped(t, |x|, rows)
  {
    UpperTriangle(t, x, rows, |x|) + Dot(t.q, x)
  }

  // ----- What the arrays hold -----

  /** Column `c` of increments names the three rows of the equations and its own bound. */
  predicate FullColumn(ai: seq<int>, c: nat) {
    4 * c + 4 <= |ai| && ai[4 * c] == 0 && ai[4 * c + 1] == 1 && ai[4 * c + 2] == 2 && ai[4 * c + 3] == c + 3
  }

  /** Column `i` of the slacks names its equation and its bound. */
  predicate SlackColumn(ai: seq<int>, m: nat, i: nat) {
    8 * m + 2 * i + 2 <= |ai| && ai[8 * m + 2 * i] == i && ai[8 * m + 2 * i + 1] == 2 * m + 3 + i
  }

  predicate Pointers(ap: seq<int>, ai: seq<int>, m: nat) {
    |ap| == 2 * m + N + 1 && |ai| == 8 * m + 2 * N &&
    (forall c :: 0 <= c <= 2 * m ==> ap[c] == 4 * c) &&
    (forall c :: 2 * m <= c <= 2 * m + N ==> ap[c] == 8 * m + 2 * (c - 2 * m)) &&
    (forall c :: 0 <= c < 2 * m ==> FullColumn(ai, c)) &&
    forall i :: 0 <= i < N ==> SlackColumn(ai, m, i)
  }

  predicate OwnBound(ax: Vec, c: nat) {
    4 * c + 4 <= |ax| && ax[4 * c + 3] == 1.0
  }

  predicate Units(ax: Vec, m: nat) {
    |ax| == 8 * m + 2 * N &&
    (forall c :: 0 <= c < 2 * m ==> OwnBound(ax, c)) && forall p :: 8 * m <= p < 8 * m + 2 * N ==> ax[p] == 1.0
  }

  predicate Diagonal(pi: seq<int>, pp: seq<int>, m: nat) {
    |pi| == 2 * m + N && |pp| == 2 * m + N + 1 &&
    (forall k :: 0 <= k < 2 * m + N ==> pi[k] == k) && forall k :: 0 <= k <= 2 * m + N ==> pp[k] == k
  }

  predicate FixedCost(cost: Vec, px: Vec, m: nat, omega: Vec, q: Vec) {
    |cost| == |px| == 2 * m + N && |omega| == m && |q| == N &&
    (forall k :: 2 * m <= k < 2 * m + N ==> cost[k] == 0.0 && px[k] == q[k - 2 * m]) &&
    forall k :: m <= k < 2 * m ==> px[k] == omega[k - m]
  }

  predicate FreeSlacks(l: seq<Bound>, u: seq<Bound>, m: nat) {
    |l| == |u| == 2 * (m + N) &&
    forall r :: 2 * m + N <= r < 2 * (m + N) ==> l[r] == MinusInfinity && u[r] == PlusInfinity
  }

  /** What initializeOSQPVariables leaves and no update touches. */
  predicate Initialized(t: Work, m: nat, omega: Vec, q: Vec) {
    Pointers(t.ap, t.ai, m) && Units(t.ax, m) && Diagonal(t.pi, t.pp, m) && FixedCost(t.q, t.px, m, omega, q) &&
    FreeSlacks(t.l, t.u, m)
  }

  /** Column `c` of a matrix, in the columns from `base` on. */
  predicate Holds(ax: Vec, base: nat, matrix: seq<Vec>, c: nat) {
    Triple(ax, 4 * (base + c), matrix, c)
  }

  predicate Entries(ax: Vec, d: Data)
    requires d.Sized()
  {
    (forall i :: 0 <= i < d.m ==> Holds(ax, 0, d.bAlpha, i)) &&
    forall i :: 0 <= i < d.m ==> Holds(ax, d.m, d.dBalphaU, i)
  }

  /** The first `i` bounds of either kind of increment have been written, and the equations before them. */
  predicate Bounds(v: seq<Bound>, b: Vec, first: Vec, second: Vec, m: nat, i: nat) {
    i <= m == |first| == |second| && |b| == N && |v| == 2 * (m + N) &&
    (forall k :: 0 <= k < N ==> v[k] == Finite(b[k])) &&
    (forall k :: N <= k < N + i ==> v[k] == Finite(first[k - N])) &&
    forall k :: N + m <= k < N + m + i ==> v[k] == Finite(second[k - N - m])
  }

  /** The first `i` entries of either half of the linear cost, and of the quadratic cost. */
  predicate Costs(cost: Vec, px: Vec, d: Data, i: nat)
    requires d.Sized()
  {
    i <= d.m && |cost| == |px| == 2 * d.m + N &&
    (forall k :: 0 <= k < i ==> cost[k] == d.gDeltaU[k] && px[k] == d.qDeltaU[k]) &&
    forall k :: d.m <= k < d.m + i ==> cost[k] == d.dRho[k - d.m]
  }

  /** What updateOSQPparameters writes. */
  predicate Updated(t: Work, d: Data) {
    d.Sized() && Entries(t.ax, d) && Costs(t.q, t.px, d, d.m) &&
    Bounds(t.l, d.b, d.lowerDeltaU, d.lowerDeltaAlpha, d.m, d.m) &&
    Bounds(t.u, d.b, d.upperDeltaU, d.upperDeltaAlpha, d.m, d.m)
  }

  /** The arrays hold the program of `d`. */
  predicate Encodes(t: Work, d: Data) {
    Initialized(t, d.m, d.omega, d.q) && Updated(t, d)
  }

  // ----- What is held is what is meant -----

  lemma StartsGrow(ap: seq<int>, ai: seq<int>, m: nat, c: int, c': int)
    requires Pointers(ap, ai, m) && 0 <= c <= c' <= 2 * m + N
    ensures ap[c] <= ap[c']
  {
  }

  lemma RowInRange(ap: seq<int>, ai: seq<int>, m: nat, p: int)
    requires Pointers(ap, ai, m) && 0 <= p < |ai|
    ensures 0 <= ai[p] < 2 * (m + N)
  {
    if p < 8 * m {
      var c := p / 4;
      assert FullColumn(ai, c) && 4 * c <= p < 4 * c + 4;
    } else {
      var i := (p - 8 * m) / 2;
      assert SlackColumn(ai, m, i) && 8 * m + 2 * i <= p < 8 * m + 2 * i + 2;
    }
  }

  lemma RowsGrow(ap: seq<int>, ai: seq<int>, m: nat, c: int, p: int, p': int)
    requires Pointers(ap, ai, m) && 0 <= c < 2 * m + N && 0 <= ap[c] <= p < p' < ap[c + 1] <= |ai|
    ensures ai[p] < ai[p']
  {
    if c < 2 * m {
      assert FullColumn(ai, c) && ap[c] == 4 * c && ap[c + 1] == 4 * (c + 1);
    } else {
      assert SlackColumn(ai, m, c - 2 * m);
    }
  }

  lemma PointersWellFormed(ap: seq<int>, ai: seq<int>, m: nat)
    requires Pointers(ap, ai, m)
    ensures WellFormed(ap, ai, 2 * m + N, 2 * (m + N))
  {
    assert ap[0] == 0 && ap[2 * m + N] == |ai|;
    hide Pointers;
    forall c, c' | 0 <= c <= c' <= 2 * m + N
      ensures ap[c] <= ap[c']
    {
      StartsGrow(ap, ai, m, c, c');
    }
    forall p | 0 <= p < |ai|
      ensures 0 <= ai[p] < 2 * (m + N)
    {
      RowInRange(ap, ai, m, p);
    }
    forall c, p, p' | 0 <= c < 2 * m + N && 0 <= ap[c] <= p < p' < ap[c + 1] <= |ai|
      ensures ai[p] < ai[p']
    {
      RowsGrow(ap, ai, m, c, p, p');
    }
  }

  lemma DiagonalWellFormed(pi: seq<int>, pp: seq<int>, m: nat)
    requires Diagonal(pi, pp, m)
    ensures WellFormed(pp, pi, 2 * m + N, 2 * m + N)
  {
  }

  lemma EncodedSizes(t: Work, d: Data)
    requires Encodes(t, d)
    ensures |t.ax| == |t.ai| && |t.px| == |t.pi| && |t.q| == 2 * d.m + N && |t.l| == |t.u| == 2 * (d.m + N)
  {
  }

  /** The compressed columns are well formed. */
  lemma EncodedShape(t: Work, d: Data)
    requires Encodes(t, d)
    ensures Shaped(t, 2 * d.m + N, 2 * (d.m + N))
  {
    hide Pointers, Diagonal, WellFormed;
    PointersWellFormed(t.ap, t.ai, d.m);
    DiagonalWellFormed(t.pi, t.pp, d.m);
    EncodedSizes(t, d);
  }

  /** The matrix [[B, dB, I], [I, 0], [0, I]]. */
  function Expected(d: Data, r: nat): (row: Vec)
    requires d.Sized() && r < 2 * (d.m + N)
    ensures |row| == d.Variables()
  {
    if r < N then d.Row(r) else UnitVector(d.Variables(), r - N)
  }

  lemma ColumnEntry(t: Work, d: Data, r: nat, c: nat)
    requires Encodes(t, d) && r < 2 * (d.m + N) && c < 2 * d.m + N
    ensures Stored(t.ai, t.ax, t.ap[c], t.ap[c + 1], r) == Expected(d, r)[c]
  {
    if c < 2 * d.m {
      assert FullColumn(t.ai, c) && OwnBound(t.ax, c);
      StoredFour(t.ai, t.ax, 4 * c, c + 3, r);
      if c < d.m {
        assert Holds(t.ax, 0, d.bAlpha, c);
      } else {
        assert Holds(t.ax, d.m, d.dBalphaU, c - d.m);
      }
    } else {
      assert SlackColumn(t.ai, d.m, c - 2 * d.m);
      StoredTwo(t.ai, t.ax, t.ap[c], r);
    }
  }

  lemma EncodedRow(t: Work, d: Data, r: nat)
    requires Encodes(t, d) && r < 2 * (d.m + N)
    ensures Shaped(t, d.Variables(), 2 * (d.m + N)) && Row(t, d.Variables(), 2 * (d.m + N), r) == Expected(d, r)
  {
    EncodedShape(t, d);
    forall c: nat | c < d.Variables()
      ensures Stored(t.ai, t.ax, t.ap[c], t.ap[c + 1], r) == Expected(d, r)[c]
    {
      ColumnEntry(t, d, r, c);
    }
  }

  lemma EncodedBounds(t: Work, d: Data, r: nat, k: nat, x: Vec)
    requires Encodes(t, d) && r < 2 * (d.m + N) && |x| == d.Variables() && k + N == r
    ensures Between(t.l[r], x[k], t.u[r])
       <==> (k < d.m ==> d.lowerDeltaU[k] <= x[k] <= d.upperDeltaU[k]) &&
            (d.m <= k < 2 * d.m ==> d.lowerDeltaAlpha[k - d.m] <= x[k] <= d.upperDeltaAlpha[k - d.m])
  {
  }

  lemma EncodedEquations(t: Work, d: Data, j: nat, v: real)
    requires Encodes(t, d) && j < N
    ensures Between(t.l[j], v, t.u[j]) <==> v == d.b[j]
  {
  }

  /** Row `r` of the arrays says of `x` what the program says. */
  ghost predicate RowMeans(d: Data, r: nat, x: Vec)
    requires d.Sized() && |x| == d.Variables() && r < 2 * (d.m + N)
  {
    if r < N then Dot(d.Row(r), x) == d.b[r]
    else
      var k := r - N;
      (k < d.m ==> d.lowerDeltaU[k] <= x[k] <= d.upperDeltaU[k]) &&
      (d.m <= k < 2 * d.m ==> d.lowerDeltaAlpha[k - d.m] <= x[k] <= d.upperDeltaAlpha[k - d.m])
  }

  lemma RowsMeanFeasible(d: Data, x: Vec)
    requires d.Sized() && |x| == d.Variables()
    ensures d.Feasible(x) <==> forall r: nat :: r < 2 * (d.m + N) ==> RowMeans(d, r, x)
  {
    if forall r: nat :: r < 2 * (d.m + N) ==> RowMeans(d, r, x) {
      forall j | 0 <= j < N
        ensures Dot(d.Row(j), x) == d.b[j]
      {
        assert RowMeans(d, j, x);
      }
      forall i | 0 <= i < d.m
        ensures d.lowerDeltaU[i] <= x[i] <= d.upperDeltaU[i]
        ensures d.lowerDeltaAlpha[i] <= x[d.m + i] <= d.upperDeltaAlpha[i]
      {
        assert RowMeans(d, N + i, x) && RowMeans(d, N + d.m + i, x);
      }
    }
    if d.Feasible(x) {
      forall r: nat | r < 2 * (d.m + N)
        ensures RowMeans(d, r, x)
      {
        if N + d.m <= r < N + 2 * d.m {
          var i := r - N - d.m;
          assert d.lowerDeltaAlpha[i] <= x[d.m + i] <= d.upperDeltaAlpha[i];
        }
      }
    }
  }

  lemma RowMeant(t: Work, d: Data, r: nat, x: Vec)
    requires Encodes(t, d) && r < 2 * (d.m + N) && |x| == d.Variables() && Shaped(t, |x|, 2 * (d.m + N))
    ensures |t.l| == |t.u| == 2 * (d.m + N)
    ensures Between(t.l[r], Dot(Row(t, |x|, 2 * (d.m + N), r), x), t.u[r]) <==> RowMeans(d, r, x)
  {
    EncodedRow(t, d, r);
    if r < N {
      EncodedEquations(t, d, r, Dot(d.Row(r), x));
    } else {
      DotUnit(x, r - N, d.Variables());
      EncodedBounds(t, d, r, r - N, x);
    }
  }

  lemma EncodedData(t: Work, d: Data)
    requires Encodes(t, d)
    ensures d.Sized() && |t.l| == |t.u| == 2 * (d.m + N)
  {
  }

  /** The arrays admit exactly the solutions of the program. */
  lemma EncodingFeasible(t: Work, d: Data, x: Vec)
    requires Encodes(t, d) && |x| == d.Variables()
    ensures Feasible(t, 2 * (d.m + N), x) <==> d.Feasible(x)
  {
    hide Encodes, Row, RowMeans, Shaped;
    EncodedShape(t, d);
    EncodedData(t, d);
    RowsMeanFeasible(d, x);
    forall r: nat | r < 2 * (d.m + N)
      ensures Between(t.l[r], Dot(Row(t, |x|, 2 * (d.m + N), r), x), t.u[r]) <==> RowMeans(d, r, x)
    {
      RowMeant(t, d, r, x);
    }
  }

  lemma EncodedCost(t: Work, d: Data)
    requires Encodes(t, d)
    ensures t.q == d.Linear() && t.px == d.Quadratic()
  {
    forall k | 0 <= k < 2 * d.m + N
      ensures t.q[k] == d.Linear()[k] && t.px[k] == d.Quadratic()[k]
    {
    }
  }

  lemma DiagonalColumn(t: Work, x: Vec, rows: nat, c: nat)
    requires Shaped(t, |x|, rows) && c < |x| <= |t.px| && t.pi[c] == c
    ensures UpperColumn(t, x, rows, c, c, c + 1) == 0.5 * t.px[c] * x[c] * x[c]
  {
    hide WellFormed;
    assert UpperColumn(t, x, rows, c, c + 1, c + 1) == 0.0;
  }

  lemma DiagonalNext(t: Work, x: Vec, rows: nat, m: nat, c: nat)
    requires Shaped(t, |x|, rows) && c < |x| == |t.px| == 2 * m + N && Diagonal(t.pi, t.pp, m)
    ensures UpperTriangle(t, x, rows, c + 1) == UpperTriangle(t, x, rows, c) + 0.5 * t.px[c] * x[c] * x[c]
  {
    hide WellFormed, UpperColumn;
    DiagonalColumn(t, x, rows, c);
    assert t.pp[c] == c && t.pp[c + 1] == c + 1;
  }

  lemma {:induction false} DiagonalTriangle(t: Work, x: Vec, rows: nat, m: nat, n: nat)
    requires Shaped(t, |x|, rows) && n <= |x| == |t.px| == 2 * m + N && Diagonal(t.pi, t.pp, m)
    ensures UpperTriangle(t, x, rows, n) == HalfSquares(t.px, x, n)
  {
    hide WellFormed, Diagonal;
    if n > 0 {
      hide UpperTriangle, Shaped;
      DiagonalNext(t, x, rows, m, n - 1);
      DiagonalTriangle(t, x, rows, m, n - 1);
    }
  }

  /** The arrays charge every point what the program charges. */
  lemma EncodingCost(t: Work, d: Data, x: Vec)
    requires Encodes(t, d) && |x| == d.Variables()
    ensures Shaped(t, |x|, 2 * (d.m + N)) && Cost(t, 2 * (d.m + N), x) == d.Cost(x)
  {
    hide WellFormed, UpperTriangle, HalfSquares, Updated;
    EncodedShape(t, d);
    EncodedCost(t, d);
    DiagonalTriangle(t, x, 2 * (d.m + N), d.m, |x|);
  }

  // ----- The class -----

  lemma SlacksKept(l: seq<Bound>, u: seq<Bound>, l': seq<Bound>, u': seq<Bound>, m: nat)
    requires FreeSlacks(l, u, m) && |l'| == |l| && |u'| == |u|
    requires l'[2 * m + N..] == l[2 * m + N..] && u'[2 * m + N..] == u[2 * m + N..]
    ensures FreeSlacks(l', u', m)
  {
    forall r | 2 * m + N <= r < 2 * (m + N)
      ensures l'[r] == l[r] && u'[r] == u[r]
    {
      assert l'[r] == l'[2 * m + N..][r - 2 * m - N] && l[r] == l[2 * m + N..][r - 2 * m - N];
      assert u'[r] == u'[2 * m + N..][r - 2 * m - N] && u[r] == u[2 * m + N..][r - 2 * m - N];
    }
  }

  class OsqpProgram {
    const m: nat
    const px: array<real>
    const pi: array<int>
    const pp: array<int>
    const q: array<real>
    const ax: array<real>
    const ai: array<int>
    const ap: array<int>
    const l: array<Bound>
    const u: array<Bound>

    ghost predicate Valid() {
      px.Length == pi.Length == q.Length == 2 * m + N && pp.Length == ap.Length == 2 * m + N + 1 &&
      ax.Length == ai.Length == 8 * m + 2 * N && l.Length == u.Length == 2 * (m + N) &&
      px != q && px != ax && q != ax && pi != pp && pi != ai && pi != ap && pp != ai && pp != ap && ai != ap && l != u
    }

    function Contents(): Work
      reads px, pi, pp, q, ax, ai, ap, l, u
    {
      Work(px[..], pi[..], pp[..], q[..], ax[..], ai[..], ap[..], l[..], u[..])
    }

    constructor (m: nat, omega: Vec, penalty: Vec)
      requires |omega| == m && |penalty| == N
      ensures this.m == m && Valid() && Initialized(Contents(), m, omega, penalty)
    {
      this.m := m;
      px, pi, q := new real[2 * m + N], new int[2 * m + N], new real[2 * m + N];
      pp, ap := new int[2 * m + N + 1], new int[2 * m + N + 1];
      ax, ai := new real[8 * m + 2 * N], new int[8 * m + 2 * N];
      l, u := new Bound[2 * (m + N)], new Bound[2 * (m + N)];
      new;
      hide Diagonal, FixedCost, Pointers, Units, FreeSlacks;
      InitializeObjective(omega, penalty);
      InitializeColumns();
      InitializeBounds();
    }

    method InitializeObjective(omega: Vec, penalty: Vec)
      requires Valid() && |omega| == m && |penalty| == N
      modifies px, pi, pp, q
      ensures Diagonal(pi[..], pp[..], m) && FixedCost(q[..], px[..], m, omega, penalty)
    {
      for i := 0 to 2 * m + N
        invariant forall k :: 0 <= k < i ==> pi[k] == pp[k] == k && q[k] == 0.0
      {
        pi[i], pp[i], q[i] := i, i, 0.0;
      }
      pp[2 * m + N] := 2 * m + N;
      for i := 0 to m
        modifies px
      {
        px[i] := 0.0;
      }
      for i := 0 to m
        invariant forall k :: m <= k < m + i ==> px[k] == omega[k - m]
        modifies px
      {
        px[i + m] := omega[i];
      }
      for i := 0 to N
        invariant forall k :: m <= k < 2 * m ==> px[k] == omega[k - m]
        invariant forall k :: 2 * m <= k < 2 * m + i ==> px[k] == penalty[k - 2 * m]
        modifies px
      {
        px[i + 2 * m] := penalty[i];
      }
    }

    method InitializeColumn(i: nat)
      requires Valid() && i < 2 * m
      modifies ax, ai
      ensures forall c :: 0 <= c < i && old(FullColumn(ai[..], c)) ==> FullColumn(ai[..], c)
      ensures forall c :: 0 <= c < i && old(OwnBound(ax[..], c)) ==> OwnBound(ax[..], c)
      ensures FullColumn(ai[..], i) && OwnBound(ax[..], i)
    {
      for j := 0 to 3
        invariant forall p :: 0 <= p < 4 * i ==> ai[p] == old(ai[p]) && ax[p] == old(ax[p])
        invariant forall p :: 4 * i <= p < 4 * i + j ==> ai[p] == p - 4 * i
      {
        ax[4 * i + j], ai[4 * i + j] := 0.0, j;
      }
      ax[4 * i + 3], ai[4 * i + 3] := 1.0, i + 3;
    }

    method InitializeSlack(i: nat)
      requires Valid() && i < N
      modifies ax, ai
      ensures forall k :: 0 <= k < i && old(SlackColumn(ai[..], m, k)) ==> SlackColumn(ai[..], m, k)
      ensures SlackColumn(ai[..], m, i)
      ensures forall p :: 0 <= p < 8 * m + 2 * i ==> ai[p] == old(ai[p]) && ax[p] == old(ax[p])
      ensures forall p :: 8 * m + 2 * i <= p < 8 * m + 2 * i + 2 ==> ax[p] == 1.0
    {
      ax[2 * i + 8 * m], ax[2 * i + 1 + 8 * m] := 1.0, 1.0;
      ai[2 * i + 8 * m], ai[2 * i + 1 + 8 * m] := i, 2 * m + 3 + i;
    }

    /** The columns of the increments. */
    method InitializeIncrements()
      requires Valid()
      modifies ax, ai, ap
      ensures forall c :: 0 <= c <= 2 * m ==> ap[c] == 4 * c
      ensures forall c :: 0 <= c < 2 * m ==> FullColumn(ai[..], c) && OwnBound(ax[..], c)
    {
      ap[0] := 0;
      for i := 0 to 2 * m
        invariant forall c :: 0 <= c <= i ==> ap[c] == 4 * c
        invariant forall c :: 0 <= c < i ==> FullColumn(ai[..], c) && OwnBound(ax[..], c)
      {
        ap[i + 1] := 4 * i + 4;
        InitializeColumn(i);
      }
    }

    /** The columns of the slacks. */
    method InitializeSlacks()
      requires Valid() && ap[2 * m] == 8 * m
      modifies ax, ai, ap
      ensures forall c :: 0 <= c <= 2 * m ==> ap[c] == old(ap[c])
      ensures forall c :: 2 * m <= c <= 2 * m + N ==> ap[c] == 8 * m + 2 * (c - 2 * m)
      ensures forall p :: 0 <= p < 8 * m ==> ai[p] == old(ai[p]) && ax[p] == old(ax[p])
      ensures forall k :: 0 <= k < N ==> SlackColumn(ai[..], m, k)
      ensures forall p :: 8 * m <= p < 8 * m + 2 * N ==> ax[p] == 1.0
    {
      for i := 0 to N
        invariant forall c :: 0 <= c <= 2 * m ==> ap[c] == old(ap[c])
        invariant forall c :: 2 * m <= c <= 2 * m + i ==> ap[c] == 8 * m + 2 * (c - 2 * m)
        invariant forall p :: 0 <= p < 8 * m ==> ai[p] == old(ai[p]) && ax[p] == old(ax[p])
        invariant forall k :: 0 <= k < i ==> SlackColumn(ai[..], m, k)
        invariant forall p :: 8 * m <= p < 8 * m + 2 * i ==> ax[p] == 1.0
      {
        ap[1 + 2 * m + i] := 8 * m + 2 + 2 * i;
        InitializeSlack(i);
      }
    }

    method InitializeColumns()
      requires Valid()
      modifies ax, ai, ap
      ensures Pointers(ap[..], ai[..], m) && Units(ax[..], m)
    {
      InitializeIncrements();
      ghost var rows, values := ai[..], ax[..];
      InitializeSlacks();
      forall c: nat | c < 2 * m
        ensures FullColumn(ai[..], c) && OwnBound(ax[..], c)
      {
        assert FullColumn(rows, c) && OwnBound(values, c);
      }
    }

    method InitializeBounds()
      requires Valid()
      modifies l, u
      ensures FreeSlacks(l[..], u[..], m)
    {
      for i := 0 to 2 * m + N {
        l[i], u[i] := Finite(0.0), Finite(0.0);
      }
      for i := 0 to N
        invariant forall r :: 2 * m + N <= r < 2 * m + N + i ==> l[r] == MinusInfinity && u[r] == PlusInfinity
      {
        l[i + 2 * m + N], u[i + 2 * m + N] := MinusInfinity, PlusInfinity;
      }
    }

    method UpdateObjective(d: Data)
      requires Valid() && d.Sized() && d.m == m && FixedCost(q[..], px[..], m, d.omega, d.q)
      modifies px, q
      ensures Costs(q[..], px[..], d, m) && FixedCost(q[..], px[..], m, d.omega, d.q)
    {
      for i := 0 to m
        invariant Costs(q[..], px[..], d, i) && FixedCost(q[..], px[..], m, d.omega, d.q)
      {
        q[i], q[i + m], px[i] := d.gDeltaU[i], d.dRho[i], d.qDeltaU[i];
      }
    }

    /** Column `c` of a matrix, into the columns from `base` on. */
    method WriteColumn(base: nat, matrix: seq<Vec>, c: nat)
      requires Valid() && base + c < 2 * m && |matrix| == N && forall j :: 0 <= j < N ==> |matrix[j]| == m
      requires c < m && Units(ax[..], m)
      modifies ax
      ensures Holds(ax[..], base, matrix, c) && Units(ax[..], m)
      ensures forall base': nat, matrix', c': nat {:trigger Holds(ax[..], base', matrix', c')} ::
        base' + c' != base + c && old(Holds(ax[..], base', matrix', c')) ==> Holds(ax[..], base', matrix', c')
    {
      ghost var first, values := 4 * (base + c), ax[..];
      for j := 0 to N
        invariant forall p :: 0 <= p < first || first + 3 <= p < ax.Length ==> ax[p] == values[p]
        invariant forall p :: first <= p < first + j ==> ax[p] == matrix[p - first][c]
      {
        ax[4 * (base + c) + j] := matrix[j][c];
      }
      forall k: nat | k < 2 * m
        ensures OwnBound(ax[..], k)
      {
        assert OwnBound(values, k);
      }
    }

    method UpdateEntries(d: Data)
      requires Valid() && d.Sized() && d.m == m && Units(ax[..], m)
      modifies ax
      ensures Entries(ax[..], d) && Units(ax[..], m)
    {
      hide Units;
      for i := 0 to m
        invariant forall k :: 0 <= k < i ==> Holds(ax[..], 0, d.bAlpha, k)
        invariant forall k :: 0 <= k < i ==> Holds(ax[..], m, d.dBalphaU, k)
        invariant Units(ax[..], m)
      {
        WriteColumn(0, d.bAlpha, i);
        WriteColumn(m, d.dBalphaU, i);
      }
    }

    /** The bounds of increment `i` of either kind. */
    method WriteBounds(a: array<Bound>, b: Vec, first: Vec, second: Vec, i: nat)
      requires i < m && Bounds(a[..], b, first, second, m, i)
      modifies a
      ensures Bounds(a[..], b, first, second, m, i + 1) && a[2 * m + N..] == old(a[2 * m + N..])
    {
      a[N + i] := Finite(first[i]);
      a[N + m + i] := Finite(second[i]);
    }

    method UpdateBounds(d: Data)
      requires Valid() && d.Sized() && d.m == m && FreeSlacks(l[..], u[..], m)
      modifies l, u
      ensures Bounds(l[..], d.b, d.lowerDeltaU, d.lowerDeltaAlpha, m, m)
      ensures Bounds(u[..], d.b, d.upperDeltaU, d.upperDeltaAlpha, m, m) && FreeSlacks(l[..], u[..], m)
    {
      ghost var l0, u0 := l[..], u[..];
      for i := 0 to N
        invariant forall k :: 0 <= k < i ==> l[k] == u[k] == Finite(d.b[k])
        invariant forall k :: 2 * m + N <= k < 2 * (m + N) ==> l[k] == l0[k] && u[k] == u0[k]
      {
        l[i], u[i] := Finite(d.b[i]), Finite(d.b[i]);
      }
      for i := 0 to m
        invariant Bounds(l[..], d.b, d.lowerDeltaU, d.lowerDeltaAlpha, m, i)
        invariant Bounds(u[..], d.b, d.upperDeltaU, d.upperDeltaAlpha, m, i)
        invariant l[2 * m + N..] == l0[2 * m + N..] && u[2 * m + N..] == u0[2 * m + N..]
      {
        hide Bounds;
        WriteBounds(l, d.b, d.lowerDeltaU, d.lowerDeltaAlpha, i);
        WriteBounds(u, d.b, d.upperDeltaU, d.upperDeltaAlpha, i);
      }
      SlacksKept(l0, u0, l[..], u[..], m);
    }

    method UpdateOsqpParameters(d: Data)
      requires Valid() && d.Sized() && d.m == m && Initialized(Contents(), m, d.omega, d.q)
      modifies px, q, ax, l, u
      ensures Encodes(Contents(), d)
    {
      hide Diagonal, Pointers, Units, Entries, FixedCost, FreeSlacks;
      UpdateObjective(d);
      UpdateEntries(d);
      UpdateBounds(d);
    }
  }
}
