/** The linear Kalman filter (kalmanfilter.h), of any dimensions. */
module Kalman {
  import opened Vectors
  import opened Matrices

  // ----- The correction as a function of the covariance -----

  /** H P H^T + R, the innovation covariance. */
  function Innovation(p: Matrix, h: Matrix, r: Matrix, m: nat, n: nat): (s: Matrix)
    requires IsMatrix(p, n, n) && IsMatrix(h, m, n) && IsMatrix(r, m, m)
    ensures IsMatrix(s, m, m)
  {
    Plus(Times(Times(h, p, m, n, n), Transpose(h, m, n), m, n, m), r, m, m)
  }

  /** The gain for a given inverse of the innovation covariance (kalmanfilter.h:140). */
  function Gain(p: Matrix, h: Matrix, si: Matrix, m: nat, n: nat): (k: Matrix)
    requires IsMatrix(p, n, n) && IsMatrix(h, m, n) && IsMatrix(si, m, m)
    ensures IsMatrix(k, n, m)
  {
    Times(Times(p, Transpose(h, m, n), n, n, m), si, n, m, m)
  }

  /** (I - K H) P (kalmanfilter.h:143). */
  function Corrected(p: Matrix, h: Matrix, k: Matrix, m: nat, n: nat): (p': Matrix)
    requires IsMatrix(p, n, n) && IsMatrix(h, m, n) && IsMatrix(k, n, m)
    ensures IsMatrix(p', n, n)
  {
    Times(Minus(Identity(n), Times(k, h, n, m, n), n, n), p, n, n, n)
  }

  /** A P A^T + Q (kalmanfilter.h:126, 134). */
  function Predicted(p: Matrix, a: Matrix, q: Matrix, n: nat): (p': Matrix)
    requires IsMatrix(p, n, n) && IsMatrix(a, n, n) && IsMatrix(q, n, n)
    ensures IsMatrix(p', n, n)
  {
    Plus(Times(Times(a, p, n, n, n), Transpose(a, n, n), n, n, n), q, n, n)
  }

  /** Entry by entry, the predicted covariance is that of A x + w. */
  lemma PredictedEntry(p: Matrix, a: Matrix, q: Matrix, n: nat, i: nat, j: nat)
    requires IsMatrix(p, n, n) && IsMatrix(a, n, n) && IsMatrix(q, n, n) && i < n && j < n
    ensures Predicted(p, a, q, n)[i][j] == Dot(a[i], Apply(p, a[j], n, n)) + q[i][j]
  {
    hide Dot, Apply, Times, Plus;
    CongruenceEntry(p, a, q, n, n, i, j);
  }

  /** In the direction x it is the form of P at A^T x, and that of Q at x. */
  lemma PredictedForm(p: Matrix, a: Matrix, q: Matrix, x: Vec, n: nat)
    requires IsMatrix(p, n, n) && IsMatrix(a, n, n) && IsMatrix(q, n, n) && |x| == n
    ensures Form(Predicted(p, a, q, n), x, x, n) == Form(p, Comb(n, a, x, n), Comb(n, a, x, n), n) + Form(q, x, x, n)
  {
    hide Dot, Apply, Times, Plus, Form;
    CongruenceForm(p, a, q, x, x, n, n);
    TransposeCombines(a, x, n, n);
  }

  /** `p'` is the covariance of A x + w, entry by entry, if `p` is that of x and `q` that of w. */
  predicate IsPropagated(p: Matrix, a: Matrix, q: Matrix, p': Matrix, n: nat) {
    IsMatrix(p, n, n) && IsMatrix(a, n, n) && IsMatrix(q, n, n) && IsMatrix(p', n, n) &&
    forall i, j :: 0 <= i < n && 0 <= j < n ==> p'[i][j] == Dot(a[i], Apply(p, a[j], n, n)) + q[i][j]
  }

  lemma PredictedEntries(p: Matrix, a: Matrix, q: Matrix, n: nat)
    requires IsMatrix(p, n, n) && IsMatrix(a, n, n) && IsMatrix(q, n, n)
    ensures IsPropagated(p, a, q, Predicted(p, a, q, n), n)
  {
    hide Dot, Apply, Predicted;
    forall i, j | 0 <= i < n && 0 <= j < n
      ensures Predicted(p, a, q, n)[i][j] == Dot(a[i], Apply(p, a[j], n, n)) + q[i][j]
    {
      PredictedEntry(p, a, q, n, i, j);
    }
  }

  lemma PredictedPositive(p: Matrix, a: Matrix, q: Matrix, n: nat)
    requires PositiveSemidefinite(p, n) && IsMatrix(a, n, n) && PositiveSemidefinite(q, n)
    ensures PositiveSemidefinite(Predicted(p, a, q, n), n)
  {
    CongruencePositive(p, a, q, n, n);
  }

  lemma InnovationEntry(p: Matrix, h: Matrix, r: Matrix, m: nat, n: nat, i: nat, j: nat)
    requires IsMatrix(p, n, n) && IsMatrix(h, m, n) && IsMatrix(r, m, m) && i < m && j < m
    ensures Innovation(p, h, r, m, n)[i][j] == Dot(h[i], Apply(p, h[j], n, n)) + r[i][j]
  {
    hide Dot, Apply, Times, Plus;
    CongruenceEntry(p, h, r, m, n, i, j);
  }

  /** The Joseph form of the correction with an arbitrary gain: the covariance of the corrected estimate. */
  function Joseph(p: Matrix, h: Matrix, r: Matrix, k: Matrix, m: nat, n: nat): (p': Matrix)
    requires IsMatrix(p, n, n) && IsMatrix(h, m, n) && IsMatrix(r, m, m) && IsMatrix(k, n, m)
    ensures IsMatrix(p', n, n)
  {
    var e := Minus(Identity(n), Times(k, h, n, m, n), n, n);
    Plus(Times(Times(e, p, n, n, n), Transpose(e, n, n), n, n, n),
         Times(Times(k, r, n, m, m), Transpose(k, n, m), n, m, n), n, n)
  }

  predicate RightInverse(s: Matrix, si: Matrix, m: nat) {
    IsMatrix(s, m, m) && IsMatrix(si, m, m) && Times(s, si, m, m, m) == Identity(m)
  }

  // ----- The correction on vectors -----

  lemma InverseAction(s: Matrix, si: Matrix, x: Vec, m: nat)
    requires RightInverse(s, si, m) && |x| == m
    ensures Apply(s, Apply(si, x, m, m), m, m) == x
  {
    hide Apply, Times;
    ApplyTimes(s, si, x, m, m, m);
    ApplyIdentity(x);
  }

  /** A right inverse of a symmetric matrix has a symmetric form. */
  lemma InverseForm(s: Matrix, si: Matrix, x: Vec, y: Vec, m: nat)
    requires RightInverse(s, si, m) && Symmetric(s, m) && |x| == |y| == m
    ensures Dot(x, Apply(si, y, m, m)) == Dot(y, Apply(si, x, m, m))
  {
    hide Apply, Times, Symmetric, Dot;
    var u, v := Apply(si, x, m, m), Apply(si, y, m, m);
    InverseAction(s, si, x, m);
    InverseAction(s, si, y, m);
    SymmetricForm(s, u, v, m);
    DotComm(x, v);
    DotComm(y, u);
  }

  /** The innovation direction H P x. */
  function Seen(p: Matrix, h: Matrix, x: Vec, m: nat, n: nat): (u: Vec)
    requires IsMatrix(p, n, n) && IsMatrix(h, m, n) && |x| == n
    ensures |u| == m
  {
    Apply(h, Apply(p, x, n, n), m, n)
  }

  lemma GainAction(p: Matrix, h: Matrix, si: Matrix, u: Vec, m: nat, n: nat)
    requires IsMatrix(p, n, n) && IsMatrix(h, m, n) && IsMatrix(si, m, m) && |u| == m
    ensures Apply(Gain(p, h, si, m, n), u, n, m)
         == Apply(p, Apply(Transpose(h, m, n), Apply(si, u, m, m), n, m), n, n)
  {
    hide Apply, Times;
    ApplyTimes(Times(p, Transpose(h, m, n), n, n, m), si, u, n, m, m);
    ApplyTimes(p, Transpose(h, m, n), Apply(si, u, m, m), n, n, m);
  }

  lemma ResidualAction(k: Matrix, h: Matrix, x: Vec, m: nat, n: nat)
    requires IsMatrix(h, m, n) && IsMatrix(k, n, m) && |x| == n
    ensures Apply(Minus(Identity(n), Times(k, h, n, m, n), n, n), x, n, n)
         == Sub(x, Apply(k, Apply(h, x, m, n), n, m))
  {
    hide Apply, Times, Minus;
    ApplyPlus(Identity(n), Times(k, h, n, m, n), x, n, n);
    ApplyIdentity(x);
    ApplyTimes(k, h, x, n, m, n);
  }

  /** The form of the corrected covariance is that of P, less what the measurement sees. */
  lemma CorrectedForm(p: Matrix, h: Matrix, si: Matrix, x: Vec, y: Vec, m: nat, n: nat)
    requires IsMatrix(p, n, n) && Symmetric(p, n) && IsMatrix(h, m, n) && IsMatrix(si, m, m) && |x| == |y| == n
    ensures Form(Corrected(p, h, Gain(p, h, si, m, n), m, n), x, y, n)
         == Form(p, x, y, n) - Dot(Seen(p, h, x, m, n), Apply(si, Seen(p, h, y, m, n), m, m))
  {
    hide Apply, Times, Minus, Gain, Symmetric, Dot, Transpose;
    var k, u, w := Gain(p, h, si, m, n), Seen(p, h, y, m, n), Apply(si, Seen(p, h, y, m, n), m, m);
    var t := Transpose(h, m, n);
    ApplyTimes(Minus(Identity(n), Times(k, h, n, m, n), n, n), p, y, n, n, n);
    ResidualAction(k, h, Apply(p, y, n, n), m, n);
    GainAction(p, h, si, u, m, n);
    DotSub(Apply(p, y, n, n), Apply(k, u, n, m), x);
    SymmetricForm(p, x, Apply(t, w, n, m), n);
    Adjoint(h, Apply(p, x, n, n), w, m, n);
    DotComm(w, Seen(p, h, x, m, n));
  }

  /** What the measurement sees of x: the form of S at w = S^-1 H P x. */
  lemma SeenForm(p: Matrix, h: Matrix, r: Matrix, si: Matrix, x: Vec, m: nat, n: nat)
    requires IsMatrix(p, n, n) && IsMatrix(h, m, n) && IsMatrix(r, m, m) && |x| == n
    requires RightInverse(Innovation(p, h, r, m, n), si, m)
    ensures var w := Apply(si, Seen(p, h, x, m, n), m, m);
            Dot(Seen(p, h, x, m, n), w) == Form(Innovation(p, h, r, m, n), w, w, m)
  {
    hide Apply, Innovation, Dot, Times;
    var u := Seen(p, h, x, m, n);
    InverseAction(Innovation(p, h, r, m, n), si, u, m);
    DotComm(u, Apply(si, u, m, m));
  }

  lemma SeenAdjoint(p: Matrix, h: Matrix, x: Vec, v: Vec, m: nat, n: nat)
    requires IsMatrix(p, n, n) && IsMatrix(h, m, n) && |x| == n && |v| == m
    ensures Form(p, Apply(Transpose(h, m, n), v, n, m), x, n) == Dot(Seen(p, h, x, m, n), v)
  {
    hide Apply, Dot, Transpose;
    Adjoint(h, Apply(p, x, n, n), v, m, n);
    DotComm(v, Seen(p, h, x, m, n));
  }

  lemma ShiftedForm(p: Matrix, x: Vec, y: Vec, n: nat)
    requires IsMatrix(p, n, n) && Symmetric(p, n) && |x| == |y| == n
    ensures Form(p, Sub(x, y), Sub(x, y), n) == Form(p, x, x, n) - 2.0 * Form(p, y, x, n) + Form(p, y, y, n)
  {
    hide Apply, Dot, Symmetric;
    ApplyLinear(p, x, y, n, n);
    DotSub(Apply(p, x, n, n), Apply(p, y, n, n), Sub(x, y));
    DotSub(x, y, Apply(p, x, n, n));
    DotSub(x, y, Apply(p, y, n, n));
    SymmetricForm(p, x, y, n);
  }

  lemma TransposedEntry(k: Matrix, h: Matrix, x: Vec, y: Vec, m: nat, n: nat)
    requires IsMatrix(h, m, n) && IsMatrix(k, n, m) && |x| == |y| == n
    ensures Dot(Apply(Transpose(Minus(Identity(n), Times(k, h, n, m, n), n, n), n, n), x, n, n), y)
         == Dot(Sub(x, Apply(Transpose(h, m, n), Apply(Transpose(k, n, m), x, m, n), n, m)), y)
  {
    hide Apply, Dot, Transpose, Minus, Times;
    var v := Apply(Transpose(k, n, m), x, m, n);
    Adjoint(Minus(Identity(n), Times(k, h, n, m, n), n, n), y, x, n, n);
    ResidualAction(k, h, y, m, n);
    DotSub(y, Apply(k, Apply(h, y, m, n), n, m), x);
    Adjoint(k, Apply(h, y, m, n), x, n, m);
    Adjoint(h, y, v, m, n);
    DotSub(x, Apply(Transpose(h, m, n), v, n, m), y);
    DotComm(x, y);
  }

  lemma TransposedResidual(k: Matrix, h: Matrix, x: Vec, m: nat, n: nat)
    requires IsMatrix(h, m, n) && IsMatrix(k, n, m) && |x| == n
    ensures Apply(Transpose(Minus(Identity(n), Times(k, h, n, m, n), n, n), n, n), x, n, n)
         == Sub(x, Apply(Transpose(h, m, n), Apply(Transpose(k, n, m), x, m, n), n, m))
  {
    hide Apply, Dot;
    var e := Minus(Identity(n), Times(k, h, n, m, n), n, n);
    var left := Apply(Transpose(e, n, n), x, n, n);
    var right := Sub(x, Apply(Transpose(h, m, n), Apply(Transpose(k, n, m), x, m, n), n, m));
    forall i | 0 <= i < n
      ensures left[i] == right[i]
    {
      TransposedEntry(k, h, x, UnitVector(n, i), m, n);
      DotComm(UnitVector(n, i), left);
      DotComm(UnitVector(n, i), right);
      UnitDot(left, i);
      UnitDot(right, i);
    }
  }

  lemma ProductForm(r: Matrix, k: Matrix, x: Vec, y: Vec, n: nat, m: nat)
    requires IsMatrix(r, m, m) && IsMatrix(k, n, m) && |x| == |y| == n
    ensures var t := Transpose(k, n, m);
            Form(Times(Times(k, r, n, m, m), t, n, m, n), x, y, n)
            == Form(r, Apply(t, x, m, n), Apply(t, y, m, n), m)
  {
    hide Apply, Dot, Transpose, Times;
    var t := Transpose(k, n, m);
    var v := Apply(t, y, m, n);
    ApplyTimes(Times(k, r, n, m, m), t, y, n, m, n);
    ApplyTimes(k, r, v, n, m, m);
    Adjoint(k, Apply(r, v, m, m), x, n, m);
  }

  /** The form of the Joseph form with gain K, at x, with v = K^T x. */
  lemma JosephForm(p: Matrix, h: Matrix, r: Matrix, k: Matrix, x: Vec, m: nat, n: nat)
    requires IsMatrix(p, n, n) && Symmetric(p, n) && IsMatrix(h, m, n) && IsMatrix(r, m, m) && IsMatrix(k, n, m) &&
      |x| == n
    ensures var v := Apply(Transpose(k, n, m), x, m, n);
            Form(Joseph(p, h, r, k, m, n), x, x, n)
            == Form(p, x, x, n) - 2.0 * Dot(Seen(p, h, x, m, n), v) + Form(Innovation(p, h, r, m, n), v, v, m)
  {
    hide Apply, Times, Minus, Plus, Symmetric, Dot, Transpose, Form, Seen;
    var e := Minus(Identity(n), Times(k, h, n, m, n), n, n);
    var q := Times(Times(k, r, n, m, m), Transpose(k, n, m), n, m, n);
    var v, t := Apply(Transpose(k, n, m), x, m, n), Transpose(h, m, n);
    CongruenceForm(p, e, q, x, x, n, n);
    TransposedResidual(k, h, x, m, n);
    ProductForm(r, k, x, x, n, m);
    CongruenceForm(p, h, r, v, v, m, n);
    ShiftedForm(p, x, Apply(t, v, n, m), n);
    SeenAdjoint(p, h, x, v, m, n);
  }

  // ----- Main results on one correction -----

  lemma EntryForm(m: Matrix, n: nat, i: nat, j: nat)
    requires IsMatrix(m, n, n) && i < n && j < n
    ensures m[i][j] == Form(m, UnitVector(n, i), UnitVector(n, j), n)
  {
    EntryAsForm(m, n, n, i, j);
  }

  /** A symmetric matrix is determined by its quadratic form. */
  lemma DeterminedByForm(a: Matrix, b: Matrix, n: nat)
    requires IsMatrix(a, n, n) && IsMatrix(b, n, n) && Symmetric(a, n) && Symmetric(b, n)
    requires forall x: Vec :: |x| == n ==> Form(a, x, x, n) == Form(b, x, x, n)
    ensures a == b
  {
    hide Form, Symmetric;
    forall i | 0 <= i < n
      ensures a[i] == b[i]
    {
      forall j | 0 <= j < n
        ensures a[i][j] == b[i][j]
      {
        var x, y := UnitVector(n, i), UnitVector(n, j);
        ShiftedForm(a, y, x, n);
        ShiftedForm(b, y, x, n);
        EntryForm(a, n, i, j);
        EntryForm(b, n, i, j);
        assert Form(a, Sub(y, x), Sub(y, x), n) == Form(b, Sub(y, x), Sub(y, x), n);
      }
    }
  }

  lemma FormOfGain(p: Matrix, h: Matrix, x: Vec, w: Vec, m: nat, n: nat)
    requires PositiveSemidefinite(p, n) && IsMatrix(h, m, n) && |x| == n && |w| == m
    ensures Dot(x, Apply(p, Apply(Transpose(h, m, n), w, n, m), n, n)) == Dot(Seen(p, h, x, m, n), w)
  {
    hide Apply, Transpose, Dot, Symmetric;
    var y := Apply(Transpose(h, m, n), w, n, m);
    SymmetricForm(p, x, y, n);
    SeenAdjoint(p, h, x, w, m, n);
  }

  lemma InnovationPositive(p: Matrix, h: Matrix, r: Matrix, m: nat, n: nat)
    requires PositiveSemidefinite(p, n) && IsMatrix(h, m, n) && PositiveSemidefinite(r, m)
    ensures PositiveSemidefinite(Innovation(p, h, r, m, n), m)
  {
    CongruencePositive(p, h, r, m, n);
  }

  /** The transposed gain recovers S^-1 H P x. */
  lemma GainTransposed(p: Matrix, h: Matrix, r: Matrix, si: Matrix, x: Vec, m: nat, n: nat)
    requires PositiveSemidefinite(p, n) && IsMatrix(h, m, n) && PositiveSemidefinite(r, m) && |x| == n
    requires RightInverse(Innovation(p, h, r, m, n), si, m)
    ensures Apply(Transpose(Gain(p, h, si, m, n), n, m), x, m, n) == Apply(si, Seen(p, h, x, m, n), m, m)
  {
    hide Apply, Transpose, Gain, Dot, Form, Innovation, Times, Seen;
    var k := Gain(p, h, si, m, n);
    var left, right := Apply(Transpose(k, n, m), x, m, n), Apply(si, Seen(p, h, x, m, n), m, m);
    InnovationPositive(p, h, r, m, n);
    forall i | 0 <= i < m
      ensures left[i] == right[i]
    {
      var y := UnitVector(m, i);
      Adjoint(k, y, x, n, m);
      GainAction(p, h, si, y, m, n);
      FormOfGain(p, h, x, Apply(si, y, m, m), m, n);
      InverseForm(Innovation(p, h, r, m, n), si, Seen(p, h, x, m, n), y, m);
      UnitDot(left, i);
      UnitDot(right, i);
      DotComm(left, y);
    }
  }

  lemma CrossForm(s: Matrix, si: Matrix, u: Vec, v: Vec, m: nat)
    requires PositiveSemidefinite(s, m) && RightInverse(s, si, m) && |u| == |v| == m
    ensures Form(s, Apply(si, u, m, m), v, m) == Dot(u, v)
  {
    hide Apply, Dot, Symmetric;
    var w := Apply(si, u, m, m);
    SymmetricForm(s, w, v, m);
    InverseAction(s, si, u, m);
    DotComm(u, v);
  }

  /**
   * The Kalman gain is optimal: no gain yields an estimate of smaller covariance, in the Loewner
   * order; and with the Kalman gain the short form of the update attains the Joseph form.
   */
  lemma GainOptimal(p: Matrix, h: Matrix, r: Matrix, si: Matrix, k: Matrix, m: nat, n: nat)
    requires PositiveSemidefinite(p, n) && IsMatrix(h, m, n) && PositiveSemidefinite(r, m) && IsMatrix(k, n, m)
    requires RightInverse(Innovation(p, h, r, m, n), si, m)
    ensures LoewnerAtMost(Corrected(p, h, Gain(p, h, si, m, n), m, n), Joseph(p, h, r, k, m, n), n)
    ensures k == Gain(p, h, si, m, n) ==>
              forall x: Vec :: |x| == n ==>
                Form(Corrected(p, h, k, m, n), x, x, n) == Form(Joseph(p, h, r, k, m, n), x, x, n)
  {
    hide Form, Gain, Corrected, Joseph, Innovation, Apply, Transpose, Dot, Seen;
    var s, g := Innovation(p, h, r, m, n), Gain(p, h, si, m, n);
    InnovationPositive(p, h, r, m, n);
    forall x: Vec | |x| == n
      ensures Form(Corrected(p, h, g, m, n), x, x, n) <= Form(Joseph(p, h, r, k, m, n), x, x, n)
      ensures k == g ==> Form(Corrected(p, h, g, m, n), x, x, n) == Form(Joseph(p, h, r, k, m, n), x, x, n)
    {
      var u := Seen(p, h, x, m, n);
      var w, v := Apply(si, u, m, m), Apply(Transpose(k, n, m), x, m, n);
      CorrectedForm(p, h, si, x, x, m, n);
      JosephForm(p, h, r, k, x, m, n);
      SeenForm(p, h, r, si, x, m, n);
      GainTransposed(p, h, r, si, x, m, n);
      CrossForm(s, si, u, v, m);
      ShiftedForm(s, v, w, m);
      assert 0.0 <= Form(s, Sub(v, w), Sub(v, w), m);
    }
  }

  /** The Joseph form of a gain is positive semidefinite, whatever the gain. */
  lemma JosephNonnegative(p: Matrix, h: Matrix, r: Matrix, k: Matrix, x: Vec, m: nat, n: nat)
    requires PositiveSemidefinite(p, n) && IsMatrix(h, m, n) && PositiveSemidefinite(r, m) && IsMatrix(k, n, m) &&
      |x| == n
    ensures 0.0 <= Form(Joseph(p, h, r, k, m, n), x, x, n)
  {
    hide Form, Apply, Transpose, Times, Minus;
    var e := Minus(Identity(n), Times(k, h, n, m, n), n, n);
    var q := Times(Times(k, r, n, m, m), Transpose(k, n, m), n, m, n);
    CongruenceForm(p, e, q, x, x, n, n);
    ProductForm(r, k, x, x, n, m);
  }

  /** Correction keeps the covariance symmetric positive semidefinite, and never increases it. */
  lemma CorrectionSound(p: Matrix, h: Matrix, r: Matrix, si: Matrix, m: nat, n: nat)
    requires PositiveSemidefinite(p, n) && IsMatrix(h, m, n) && PositiveSemidefinite(r, m)
    requires RightInverse(Innovation(p, h, r, m, n), si, m)
    ensures var p' := Corrected(p, h, Gain(p, h, si, m, n), m, n);
            PositiveSemidefinite(p', n) && LoewnerAtMost(p', p, n)
  {
    hide Form, Gain, Corrected, Joseph, Innovation, Apply, Dot, Seen, Symmetric;
    var s, k := Innovation(p, h, r, m, n), Gain(p, h, si, m, n);
    var p' := Corrected(p, h, k, m, n);
    InnovationPositive(p, h, r, m, n);
    GainOptimal(p, h, r, si, k, m, n);
    forall x: Vec, y: Vec | |x| == n && |y| == n
      ensures Form(p', x, y, n) == Form(p', y, x, n)
      ensures 0.0 <= Form(p', x, x, n) <= Form(p, x, x, n)
    {
      CorrectedForm(p, h, si, x, y, m, n);
      CorrectedForm(p, h, si, y, x, m, n);
      CorrectedForm(p, h, si, x, x, m, n);
      SymmetricForm(p, x, y, n);
      InverseForm(s, si, Seen(p, h, x, m, n), Seen(p, h, y, m, n), m);
      JosephNonnegative(p, h, r, k, x, m, n);
      SeenForm(p, h, r, si, x, m, n);
    }
    FormSymmetric(p', n);
  }

  lemma ProductPositive(r: Matrix, k: Matrix, n: nat, m: nat)
    requires PositiveSemidefinite(r, m) && IsMatrix(k, n, m)
    ensures PositiveSemidefinite(Times(Times(k, r, n, m, m), Transpose(k, n, m), n, m, n), n)
  {
    hide Symmetric, Times, Transpose, Form, Apply;
    var z := Times(Times(k, r, n, m, m), Transpose(k, n, m), n, m, n);
    forall x: Vec, y: Vec | |x| == n && |y| == n
      ensures Form(z, x, y, n) == Form(z, y, x, n) && 0.0 <= Form(z, x, x, n)
    {
      ProductForm(r, k, x, x, n, m);
      ProductForm(r, k, x, y, n, m);
      ProductForm(r, k, y, x, n, m);
      SymmetricForm(r, Apply(Transpose(k, n, m), x, m, n), Apply(Transpose(k, n, m), y, m, n), m);
    }
    FormSymmetric(z, n);
  }

  lemma JosephSymmetric(p: Matrix, h: Matrix, r: Matrix, k: Matrix, m: nat, n: nat)
    requires PositiveSemidefinite(p, n) && IsMatrix(h, m, n) && PositiveSemidefinite(r, m) && IsMatrix(k, n, m)
    ensures Symmetric(Joseph(p, h, r, k, m, n), n)
  {
    hide Symmetric, Times, Transpose, Minus, Plus, Form;
    var e := Minus(Identity(n), Times(k, h, n, m, n), n, n);
    var z := Times(Times(k, r, n, m, m), Transpose(k, n, m), n, m, n);
    ProductPositive(r, k, n, m);
    CongruencePositive(p, e, z, n, n);
  }

  /** The short form of the update equals the Joseph form, as matrices. */
  lemma CorrectionIsJoseph(p: Matrix, h: Matrix, r: Matrix, si: Matrix, m: nat, n: nat)
    requires PositiveSemidefinite(p, n) && IsMatrix(h, m, n) && PositiveSemidefinite(r, m)
    requires RightInverse(Innovation(p, h, r, m, n), si, m)
    ensures var k := Gain(p, h, si, m, n);
            Corrected(p, h, k, m, n) == Joseph(p, h, r, k, m, n)
  {
    hide Form, Gain, Corrected, Innovation, Symmetric, Times, Plus, Transpose, Minus;
    var k := Gain(p, h, si, m, n);
    CorrectionSound(p, h, r, si, m, n);
    GainOptimal(p, h, r, si, k, m, n);
    JosephSymmetric(p, h, r, k, m, n);
    DeterminedByForm(Corrected(p, h, k, m, n), Joseph(p, h, r, k, m, n), n);
  }

  // ----- Runs -----

  /** What one call of linearkalman brings in: the system, the noise covariances, and the inverse it computes. */
  datatype Step = Step(a: Matrix, q: Matrix, r: Matrix, si: Matrix)

  ghost predicate StepOk(p: Matrix, h: Matrix, step: Step, m: nat, n: nat)
    requires IsMatrix(p, n, n) && IsMatrix(h, m, n)
  {
    IsMatrix(step.a, n, n) && PositiveSemidefinite(step.q, n) && PositiveSemidefinite(step.r, m) &&
    RightInverse(Innovation(Predicted(p, step.a, step.q, n), h, step.r, m, n), step.si, m)
  }

  /** The covariance after one prediction and correction. */
  ghost function Next(p: Matrix, h: Matrix, step: Step, m: nat, n: nat): (p': Matrix)
    requires IsMatrix(p, n, n) && IsMatrix(h, m, n) && StepOk(p, h, step, m, n)
    ensures IsMatrix(p', n, n)
  {
    var predicted := Predicted(p, step.a, step.q, n);
    Corrected(predicted, h, Gain(predicted, h, step.si, m, n), m, n)
  }

  /** Covariances p[0], p[1], ... of a run: each is the Next of the one before. */
  ghost predicate IsRun(p: seq<Matrix>, steps: seq<Step>, h: Matrix, m: nat, n: nat)
    requires IsMatrix(h, m, n)
  {
    |p| == |steps| + 1 &&
    (forall i :: 0 <= i < |p| ==> IsMatrix(p[i], n, n)) &&
    (forall i :: 0 <= i < |steps| ==> StepOk(p[i], h, steps[i], m, n) && p[i + 1] == Next(p[i], h, steps[i], m, n))
  }

  lemma StepPositive(p: Matrix, h: Matrix, step: Step, m: nat, n: nat)
    requires PositiveSemidefinite(p, n) && IsMatrix(h, m, n) && StepOk(p, h, step, m, n)
    ensures PositiveSemidefinite(Next(p, h, step, m, n), n)
    ensures LoewnerAtMost(Next(p, h, step, m, n), Predicted(p, step.a, step.q, n), n)
  {
    hide Innovation, Gain, Corrected, Form;
    PredictedPositive(p, step.a, step.q, n);
    CorrectionSound(Predicted(p, step.a, step.q, n), h, step.r, step.si, m, n);
  }

  /**
   * Along every run from a positive semidefinite covariance, with arbitrary systems and noises, all covariances
   * are.
   */
  lemma {:induction false} RunPositive(p: seq<Matrix>, steps: seq<Step>, h: Matrix, m: nat, n: nat, i: nat)
    requires IsMatrix(h, m, n) && IsRun(p, steps, h, m, n) && PositiveSemidefinite(p[0], n) && i <= |steps|
    ensures PositiveSemidefinite(p[i], n)
  {
    hide StepOk, Next, PositiveSemidefinite;
    if i > 0 {
      RunPositive(p, steps, h, m, n, i - 1);
      StepPositive(p[i - 1], h, steps[i - 1], m, n);
    }
  }

  lemma {:induction false} IdentityPositive(n: nat)
    ensures PositiveSemidefinite(Identity(n), n)
  {
    hide Dot;
    forall x: Vec | |x| == n
      ensures 0.0 <= Form(Identity(n), x, x, n)
    {
      ApplyIdentity(x);
      SqrNonnegative(x);
    }
  }

  // ----- The filter -----

  /** `inverse` inverts the innovation covariance. */
  ghost predicate Invertible(p: Matrix, h: Matrix, r: Matrix, inverse: Matrix -> Matrix, m: nat, n: nat) {
    IsMatrix(p, n, n) && IsMatrix(h, m, n) && IsMatrix(r, m, m) &&
    RightInverse(Innovation(p, h, r, m, n), inverse(Innovation(p, h, r, m, n)), m)
  }

  /** `k` and `p'` are the Kalman gain and the corrected covariance: the Joseph form, and no larger than `p`. */
  ghost predicate IsCorrection(p: Matrix, h: Matrix, r: Matrix, inverse: Matrix -> Matrix, k: Matrix, p': Matrix,
                               m: nat, n: nat) {
    Invertible(p, h, r, inverse, m, n) && IsMatrix(k, n, m) && IsMatrix(p', n, n) &&
    k == Gain(p, h, inverse(Innovation(p, h, r, m, n)), m, n) &&
    p' == Corrected(p, h, k, m, n) && p' == Joseph(p, h, r, k, m, n) && LoewnerAtMost(p', p, n)
  }

  /** `x'` is `x` moved by the gain times the innovation of the measurement `z`. */
  ghost predicate IsMoved(x: Vec, h: Matrix, k: Matrix, z: Vec, x': Vec, m: nat, n: nat) {
    IsMatrix(h, m, n) && IsMatrix(k, n, m) && |x| == n && |z| == m &&
    x' == Add(x, Apply(k, Sub(z, Apply(h, x, m, n)), n, m))
  }

  lemma ApplyOpposite(a: Matrix, x: Vec, y: Vec, r: nat, c: nat)
    requires IsMatrix(a, r, c) && |x| == |y| == c
    ensures forall i :: 0 <= i < r ==> Apply(a, Sub(x, y), r, c)[i] == -Apply(a, Sub(y, x), r, c)[i]
  {
    hide Apply;
    ApplyLinear(a, x, y, r, c);
    ApplyLinear(a, y, x, r, c);
  }

  /** What is left of the error of an estimate `x` of `truth` once `truth` has been measured without noise. */
  function ErrorLeft(h: Matrix, k: Matrix, e: Vec, m: nat, n: nat): (e': Vec)
    requires IsMatrix(h, m, n) && IsMatrix(k, n, m) && |e| == n
    ensures |e'| == n
  {
    Apply(Minus(Identity(n), Times(k, h, n, m, n), n, n), e, n, n)
  }

  /** A noiseless measurement turns the error e of the estimate into (I - K H) e. */
  lemma ErrorCorrected(x: Vec, h: Matrix, k: Matrix, truth: Vec, x': Vec, m: nat, n: nat)
    requires IsMatrix(h, m, n) && IsMatrix(k, n, m) && |truth| == n
    requires IsMoved(x, h, k, Apply(h, truth, m, n), x', m, n)
    ensures Sub(x', truth) == ErrorLeft(h, k, Sub(x, truth), m, n)
  {
    hide Apply, Minus, Times;
    var e, seen, measured := Sub(x, truth), Apply(h, x, m, n), Apply(h, truth, m, n);
    ResidualAction(k, h, e, m, n);
    ApplyLinear(h, x, truth, m, n);
    ApplyOpposite(k, measured, seen, n, m);
    forall i | 0 <= i < n
      ensures Sub(x', truth)[i] == Sub(e, Apply(k, Sub(seen, measured), n, m))[i]
    {
    }
  }

  /** The state of the system after a step without noise. */
  function Moved(a: Matrix, b: Matrix, x: Vec, u: Vec, n: nat, l: nat): (x': Vec)
    requires IsMatrix(a, n, n) && IsMatrix(b, n, l) && |x| == n && |u| == l
    ensures |x'| == n
  {
    Add(Apply(a, x, n, n), Apply(b, u, n, l))
  }

  /** If the system moves and is measured without noise, the error of the estimate goes through A and I - K H. */
  lemma StepError(a: Matrix, b: Matrix, x: Vec, truth: Vec, u: Vec, h: Matrix, k: Matrix, x': Vec, l: nat, m: nat,
                  n: nat)
    requires IsMatrix(a, n, n) && IsMatrix(b, n, l) && |x| == |truth| == n && |u| == l
    requires IsMatrix(h, m, n) && IsMatrix(k, n, m)
    requires IsMoved(Moved(a, b, x, u, n, l), h, k, Apply(h, Moved(a, b, truth, u, n, l), m, n), x', m, n)
    ensures Sub(x', Moved(a, b, truth, u, n, l)) == ErrorLeft(h, k, Apply(a, Sub(x, truth), n, n), m, n)
  {
    hide Apply, ErrorLeft, IsMoved;
    ErrorCorrected(Moved(a, b, x, u, n, l), h, k, Moved(a, b, truth, u, n, l), x', m, n);
    ApplyLinear(a, x, truth, n, n);
    assert Sub(Moved(a, b, x, u, n, l), Moved(a, b, truth, u, n, l)) == Apply(a, Sub(x, truth), n, n);
  }

  /** `p'` follows `p` in a run, by the step with system `a`, noises `q` and `r`, and the computed inverse. */
  ghost predicate IsStep(p: Matrix, h: Matrix, a: Matrix, q: Matrix, r: Matrix, inverse: Matrix -> Matrix,
                         p': Matrix, m: nat, n: nat) {
    IsMatrix(p, n, n) && IsMatrix(h, m, n) && IsMatrix(a, n, n) && IsMatrix(q, n, n) && IsMatrix(r, m, m) &&
    var step := Step(a, q, r, inverse(Innovation(Predicted(p, a, q, n), h, r, m, n)));
    StepOk(p, h, step, m, n) && p' == Next(p, h, step, m, n)
  }

  class KalmanFilter {
    const l: nat
    const m: nat
    const n: nat
    var A: Matrix
    var B: Matrix
    var H: Matrix
    var Q: Matrix
    var R: Matrix
    var P: Matrix
    var K: Matrix
    var X: Vec

    ghost predicate Valid()
      reads this
    {
      IsMatrix(A, n, n) && IsMatrix(B, n, l) && IsMatrix(H, m, n) && IsMatrix(K, n, m) && |X| == n &&
      IsMatrix(Q, n, n) && IsMatrix(R, m, m) && IsMatrix(P, n, n) &&
      PositiveSemidefinite(Q, n) && PositiveSemidefinite(R, m) && PositiveSemidefinite(P, n)
    }

    /** kalmanfilter.h:55-65 */
    constructor (l: nat, m: nat, n: nat, A: Matrix, B: Matrix, H: Matrix, Q: Matrix, R: Matrix)
      requires IsMatrix(A, n, n) && IsMatrix(B, n, l) && IsMatrix(H, m, n)
      requires PositiveSemidefinite(Q, n) && PositiveSemidefinite(R, m)
      ensures Valid() && this.l == l && this.m == m && this.n == n && P == Identity(n) && X == Zero(n)
      ensures this.A == A && this.B == B && this.H == H && this.Q == Q && this.R == R
    {
      hide Form, Symmetric;
      this.l, this.m, this.n := l, m, n;
      this.A, this.B, this.H, this.Q, this.R := A, B, H, Q, R;
      P := Identity(n);
      K := seq(n, i => Zero(m));
      X := Zero(n);
      IdentityPositive(n);
    }

    /** kalmanfilter.h:69-72 */
    method SetInitial(X0: Vec, P0: Matrix)
      requires Valid() && |X0| == n && PositiveSemidefinite(P0, n)
      modifies this`X, this`P
      ensures Valid() && X == X0 && P == P0
    {
      hide Form, Symmetric;
      X := X0;
      P := P0;
    }

    method SetQ(Q: Matrix)
      requires Valid() && PositiveSemidefinite(Q, n)
      modifies this`Q
      ensures Valid() && this.Q == Q
    {
      hide Form, Symmetric;
      this.Q := Q;
    }

    method SetR(R: Matrix)
      requires Valid() && PositiveSemidefinite(R, m)
      modifies this`R
      ensures Valid() && this.R == R
    {
      hide Form, Symmetric;
      this.R := R;
    }

    /** kalmanfilter.h:147-150 */
    method UpdateSystem(A: Matrix, B: Matrix)
      requires Valid() && IsMatrix(A, n, n) && IsMatrix(B, n, l)
      modifies this`A, this`B
      ensures Valid() && this.A == A && this.B == B
    {
      hide Form, Symmetric;
      this.A := A;
      this.B := B;
    }

    /** kalmanfilter.h:132-135 */
    method Predict(U: Vec)
      requires Valid() && |U| == l
      modifies this`X, this`P
      ensures Valid() && X == Moved(A, B, old(X), U, n, l) && P == Predicted(old(P), A, Q, n)
      ensures IsPropagated(old(P), A, Q, P, n)
    {
      hide Form, Symmetric, Predicted, IsPropagated, Dot, Apply;
      PredictedPositive(P, A, Q, n);
      PredictedEntries(P, A, Q, n);
      X := Add(Apply(A, X, n, n), Apply(B, U, n, l));
      P := Predicted(P, A, Q, n);
    }

    /** kalmanfilter.h:139-144; `inverse` stands for Eigen's matrix inverse. */
    method Correct(Z: Vec, inverse: Matrix -> Matrix)
      requires Valid() && |Z| == m && Invertible(P, H, R, inverse, m, n)
      modifies this`K, this`X, this`P
      ensures Valid() && IsCorrection(old(P), H, R, inverse, K, P, m, n)
      ensures IsMoved(old(X), H, K, Z, X, m, n)
    {
      hide Form, Symmetric, Apply, Joseph, PositiveSemidefinite, LoewnerAtMost, Innovation, Gain, Corrected, Times, Sub;
      ghost var si := inverse(Innovation(P, H, R, m, n));
      CorrectionSound(P, H, R, si, m, n);
      CorrectionIsJoseph(P, H, R, si, m, n);
      K := Gain(P, H, inverse(Innovation(P, H, R, m, n)), m, n);
      X := Add(X, Apply(K, Sub(Z, Apply(H, X, m, n)), n, m));
      P := Corrected(P, H, K, m, n);
    }

    /** kalmanfilter.h:75-80: one prediction and one correction, which is one step of a run. */
    method LinearKalman(A: Matrix, B: Matrix, formerU: Vec, Z: Vec, inverse: Matrix -> Matrix)
      requires Valid() && IsMatrix(A, n, n) && IsMatrix(B, n, l) && |formerU| == l && |Z| == m
      requires Invertible(Predicted(P, A, Q, n), H, R, inverse, m, n)
      modifies this`A, this`B, this`K, this`X, this`P
      ensures Valid() && this.A == A && this.B == B
      ensures IsStep(old(P), H, A, Q, R, inverse, P, m, n)
      ensures IsMoved(Moved(A, B, old(X), formerU, n, l), H, K, Z, X, m, n)
      ensures forall truth: Vec :: |truth| == n && Z == Apply(H, Moved(A, B, truth, formerU, n, l), m, n) ==>
                Sub(X, Moved(A, B, truth, formerU, n, l)) == ErrorLeft(H, K, Apply(A, Sub(old(X), truth), n, n), m, n)
    {
      hide Form, Symmetric, Moved, ErrorLeft, Apply, Innovation, Gain, Corrected, Predicted, Joseph,
           PositiveSemidefinite, IsMoved, RightInverse;
      UpdateSystem(A, B);
      ghost var x := X;
      Predict(formerU);
      Correct(Z, inverse);
      forall truth: Vec | |truth| == n && Z == Apply(H, Moved(A, B, truth, formerU, n, l), m, n)
        ensures Sub(X, Moved(A, B, truth, formerU, n, l)) == ErrorLeft(H, K, Apply(A, Sub(x, truth), n, n), m, n)
      {
        StepError(A, B, x, truth, formerU, H, K, X, l, m, n);
      }
    }
  }
}
