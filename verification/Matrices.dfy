/** Matrices of any size, as sequences of rows, and their action on vectors. */
module Matrices {
  import opened Vectors

  type Matrix = seq<Vec>

  predicate IsMatrix(m: Matrix, r: nat, c: nat) {
    |m| == r && forall i :: 0 <= i < r ==> |m[i]| == c
  }

  function Apply(m: Matrix, x: Vec, r: nat, c: nat): (y: Vec)
    requires IsMatrix(m, r, c) && |x| == c
    ensures |y| == r
  {
    seq(r, i requires 0 <= i < r => Dot(m[i], x))
  }

  function Transpose(m: Matrix, r: nat, c: nat): (t: Matrix)
    requires IsMatrix(m, r, c)
    ensures IsMatrix(t, c, r)
    ensures forall i, j :: 0 <= i < r && 0 <= j < c ==> t[j][i] == m[i][j]
  {
    seq(c, j requires 0 <= j < c => seq(r, i requires 0 <= i < r => m[i][j]))
  }

  function Plus(a: Matrix, b: Matrix, r: nat, c: nat): (m: Matrix)
    requires IsMatrix(a, r, c) && IsMatrix(b, r, c)
    ensures IsMatrix(m, r, c)
  {
    seq(r, i requires 0 <= i < r => Add(a[i], b[i]))
  }

  function Minus(a: Matrix, b: Matrix, r: nat, c: nat): (m: Matrix)
    requires IsMatrix(a, r, c) && IsMatrix(b, r, c)
    ensures IsMatrix(m, r, c)
  {
    seq(r, i requires 0 <= i < r => Sub(a[i], b[i]))
  }

  /** The product of an r x k matrix with a k x c matrix. */
  function Times(a: Matrix, b: Matrix, r: nat, k: nat, c: nat): (m: Matrix)
    requires IsMatrix(a, r, k) && IsMatrix(b, k, c)
    ensures IsMatrix(m, r, c)
  {
    seq(r, i requires 0 <= i < r => Apply(Transpose(b, k, c), a[i], c, k))
  }

  function Identity(n: nat): (m: Matrix)
    ensures IsMatrix(m, n, n)
  {
    seq(n, i requires 0 <= i < n => UnitVector(n, i))
  }

  // ----- Action on vectors -----

  lemma ApplyIdentity(x: Vec)
    ensures Apply(Identity(|x|), x, |x|, |x|) == x
  {
    forall i | 0 <= i < |x|
      ensures Apply(Identity(|x|), x, |x|, |x|)[i] == x[i]
    {
      DotUnit(x, i, |x|);
    }
  }

  lemma {:induction false} CombColumn(m: Matrix, y: Vec, r: nat, c: nat, n: nat, j: nat)
    requires IsMatrix(m, r, c) && |y| == r && n <= r && j < c
    ensures DotN(Transpose(m, r, c)[j], y, n) == Comb(c, m, y, n)[j]
  {
    if n > 0 {
      CombColumn(m, y, r, c, n - 1, j);
    }
  }

  /** The transpose acts by combining rows. */
  lemma TransposeCombines(m: Matrix, y: Vec, r: nat, c: nat)
    requires IsMatrix(m, r, c) && |y| == r
    ensures Apply(Transpose(m, r, c), y, c, r) == Comb(c, m, y, r)
  {
    forall j | 0 <= j < c
      ensures Apply(Transpose(m, r, c), y, c, r)[j] == Comb(c, m, y, r)[j]
    {
      CombColumn(m, y, r, c, r, j);
    }
  }

  /** The transpose is the adjoint. */
  lemma Adjoint(m: Matrix, x: Vec, y: Vec, r: nat, c: nat)
    requires IsMatrix(m, r, c) && |x| == c && |y| == r
    ensures Dot(Apply(Transpose(m, r, c), y, c, r), x) == Dot(y, Apply(m, x, r, c))
  {
    TransposeCombines(m, y, r, c);
    CombDot(c, m, y, r, x);
    assert Products(c, m, x, r) == Apply(m, x, r, c);
  }

  /** The product acts as the composition. */
  lemma ApplyTimes(a: Matrix, b: Matrix, x: Vec, r: nat, k: nat, c: nat)
    requires IsMatrix(a, r, k) && IsMatrix(b, k, c) && |x| == c
    ensures Apply(Times(a, b, r, k, c), x, r, c) == Apply(a, Apply(b, x, k, c), r, k)
  {
    forall i | 0 <= i < r
      ensures Apply(Times(a, b, r, k, c), x, r, c)[i] == Apply(a, Apply(b, x, k, c), r, k)[i]
    {
      Adjoint(b, x, a[i], k, c);
    }
  }

  lemma ApplyPlus(a: Matrix, b: Matrix, x: Vec, r: nat, c: nat)
    requires IsMatrix(a, r, c) && IsMatrix(b, r, c) && |x| == c
    ensures Apply(Plus(a, b, r, c), x, r, c) == Add(Apply(a, x, r, c), Apply(b, x, r, c))
    ensures Apply(Minus(a, b, r, c), x, r, c) == Sub(Apply(a, x, r, c), Apply(b, x, r, c))
  {
    hide Dot;
    forall i | 0 <= i < r
      ensures Apply(Plus(a, b, r, c), x, r, c)[i] == Add(Apply(a, x, r, c), Apply(b, x, r, c))[i]
      ensures Apply(Minus(a, b, r, c), x, r, c)[i] == Sub(Apply(a, x, r, c), Apply(b, x, r, c))[i]
    {
      DotAdd(a[i], b[i], x);
      DotSub(a[i], b[i], x);
    }
  }

  lemma ApplyLinear(m: Matrix, x: Vec, y: Vec, r: nat, c: nat)
    requires IsMatrix(m, r, c) && |x| == |y| == c
    ensures Apply(m, Sub(x, y), r, c) == Sub(Apply(m, x, r, c), Apply(m, y, r, c))
  {
    hide Dot;
    forall i | 0 <= i < r
      ensures Apply(m, Sub(x, y), r, c)[i] == Sub(Apply(m, x, r, c), Apply(m, y, r, c))[i]
    {
      DotSub(x, y, m[i]);
    }
  }

  /** Entry (i, j) is the form at unit vectors. */
  lemma EntryAsForm(m: Matrix, r: nat, c: nat, i: nat, j: nat)
    requires IsMatrix(m, r, c) && i < r && j < c
    ensures m[i][j] == Dot(UnitVector(r, i), Apply(m, UnitVector(c, j), r, c))
  {
    DotUnit(Apply(m, UnitVector(c, j), r, c), i, r);
    DotComm(m[i], UnitVector(c, j));
    DotUnit(m[i], j, c);
  }

  // ----- Symmetric and positive semidefinite matrices -----

  function Form(m: Matrix, x: Vec, y: Vec, n: nat): real
    requires IsMatrix(m, n, n) && |x| == |y| == n
  {
    Dot(x, Apply(m, y, n, n))
  }

  predicate Symmetric(m: Matrix, n: nat)
    requires IsMatrix(m, n, n)
  {
    forall i, j :: 0 <= i < n && 0 <= j < n ==> m[i][j] == m[j][i]
  }

  /** Symmetric, and of nonnegative quadratic form. */
  ghost predicate PositiveSemidefinite(m: Matrix, n: nat) {
    IsMatrix(m, n, n) && Symmetric(m, n) && forall x: Vec :: |x| == n ==> 0.0 <= Form(m, x, x, n)
  }

  /** The Loewner order: the difference has a nonnegative quadratic form. */
  ghost predicate LoewnerAtMost(a: Matrix, b: Matrix, n: nat)
    requires IsMatrix(a, n, n) && IsMatrix(b, n, n)
  {
    forall x: Vec :: |x| == n ==> Form(a, x, x, n) <= Form(b, x, x, n)
  }

  lemma SymmetricForm(m: Matrix, x: Vec, y: Vec, n: nat)
    requires IsMatrix(m, n, n) && Symmetric(m, n) && |x| == |y| == n
    ensures Form(m, x, y, n) == Form(m, y, x, n)
  {
    assert Transpose(m, n, n) == m by {
      forall i | 0 <= i < n
        ensures Transpose(m, n, n)[i] == m[i]
      {
      }
    }
    Adjoint(m, y, x, n, n);
    DotComm(Apply(m, x, n, n), y);
  }

  lemma FormSymmetric(m: Matrix, n: nat)
    requires IsMatrix(m, n, n)
    requires forall x: Vec, y: Vec :: |x| == n && |y| == n ==> Form(m, x, y, n) == Form(m, y, x, n)
    ensures Symmetric(m, n)
  {
    forall i, j | 0 <= i < n && 0 <= j < n
      ensures m[i][j] == m[j][i]
    {
      EntryAsForm(m, n, n, i, j);
      EntryAsForm(m, n, n, j, i);
      assert Form(m, UnitVector(n, i), UnitVector(n, j), n) == Form(m, UnitVector(n, j), UnitVector(n, i), n);
    }
  }

  /** The form of a m a^T + q is that of m on a^T x, plus that of q. */
  lemma CongruenceForm(m: Matrix, a: Matrix, q: Matrix, x: Vec, y: Vec, r: nat, c: nat)
    requires IsMatrix(m, c, c) && IsMatrix(a, r, c) && IsMatrix(q, r, r) && |x| == |y| == r
    ensures var t := Transpose(a, r, c);
            Form(Plus(Times(Times(a, m, r, c, c), t, r, c, r), q, r, r), x, y, r)
            == Form(m, Apply(t, x, c, r), Apply(t, y, c, r), c) + Form(q, x, y, r)
  {
    hide Dot, Apply, Transpose, Plus, Times;
    var t := Transpose(a, r, c);
    var am := Times(a, m, r, c, c);
    var amt := Times(am, t, r, c, r);
    ApplyPlus(amt, q, y, r, r);
    ApplyTimes(am, t, y, r, c, r);
    ApplyTimes(a, m, Apply(t, y, c, r), r, c, c);
    DotAdd(Apply(amt, y, r, r), Apply(q, y, r, r), x);
    Adjoint(a, Apply(m, Apply(t, y, c, r), c, c), x, r, c);
  }

  /** Congruence and addition keep positive semidefiniteness. */
  lemma CongruencePositive(m: Matrix, a: Matrix, q: Matrix, r: nat, c: nat)
    requires PositiveSemidefinite(m, c) && IsMatrix(a, r, c) && PositiveSemidefinite(q, r)
    ensures PositiveSemidefinite(Plus(Times(Times(a, m, r, c, c), Transpose(a, r, c), r, c, r), q, r, r), r)
  {
    hide Form, Transpose, Plus, Times, Symmetric;
    var t := Transpose(a, r, c);
    var s := Plus(Times(Times(a, m, r, c, c), t, r, c, r), q, r, r);
    forall x: Vec, y: Vec | |x| == r && |y| == r
      ensures Form(s, x, y, r) == Form(s, y, x, r) && 0.0 <= Form(s, x, x, r)
    {
      CongruenceForm(m, a, q, x, y, r, c);
      CongruenceForm(m, a, q, y, x, r, c);
      CongruenceForm(m, a, q, x, x, r, c);
      SymmetricForm(m, Apply(t, x, c, r), Apply(t, y, c, r), c);
      SymmetricForm(q, x, y, r);
    }
    FormSymmetric(s, r);
  }

  /** Its entries: row i of a against row j of a, weighed by m, and the entry of q. */
  lemma CongruenceEntry(m: Matrix, a: Matrix, q: Matrix, r: nat, c: nat, i: nat, j: nat)
    requires IsMatrix(m, c, c) && IsMatrix(a, r, c) && IsMatrix(q, r, r) && i < r && j < r
    ensures Plus(Times(Times(a, m, r, c, c), Transpose(a, r, c), r, c, r), q, r, r)[i][j]
         == Dot(a[i], Apply(m, a[j], c, c)) + q[i][j]
  {
    hide Dot;
    var t, am := Transpose(a, r, c), Times(a, m, r, c, c);
    assert Transpose(t, c, r)[j] == a[j];
    assert Times(am, t, r, c, r)[i][j] == Dot(a[j], am[i]);
    Adjoint(m, a[j], a[i], c, c);
    DotComm(a[j], am[i]);
  }
}
