/** Long division over GF(2) by a shift register of any width. */
module LongDivision {
  import opened Gf2

  // ----- Long division, a bit at a time -----

  /** One step of crcInit's inner loop (crc.h:47-51): shift, and reduce if the top bit was set. */
  function StepBit(r: Bits, poly: Bits): (r': Bits)
    requires |r| == |poly| > 0
    ensures |r'| == |r|
  {
    var shifted := r[1..] + [false];
    if r[0] then Xor(shifted, poly) else shifted
  }

  function Steps(r: Bits, poly: Bits, k: nat): (r': Bits)
    requires |r| == |poly| > 0
    ensures |r'| == |r|
  {
    if k == 0 then r else StepBit(Steps(r, poly, k - 1), poly)
  }

  /** Message bits aligned with the top of a register of width `w`. */
  function Top(m: Bits, w: nat): (t: Bits)
    requires |m| <= w
    ensures |t| == w
  {
    m + Zeros(w - |m|)
  }

  /** A single message bit aligned with the top of the register. */
  function TopBit(b: bool, w: nat): (t: Bits)
    requires 0 < w
    ensures |t| == w
  {
    Top([b], w)
  }

  /** The register after the message bits `m`, taken one at a time. */
  function Feed(r: Bits, poly: Bits, m: Bits): (r': Bits)
    requires |r| == |poly| > 0
    ensures |r'| == |r|
  {
    if m == [] then r
    else StepBit(Xor(Feed(r, poly, m[..|m| - 1]), TopBit(m[|m| - 1], |r|)), poly)
  }

  // ----- Linearity -----

  lemma StepXor(a: Bits, b: Bits, poly: Bits)
    requires |a| == |b| == |poly| > 0
    ensures StepBit(Xor(a, b), poly) == Xor(StepBit(a, poly), StepBit(b, poly))
  {
    var left, right := StepBit(Xor(a, b), poly), Xor(StepBit(a, poly), StepBit(b, poly));
    assert forall i :: 0 <= i < |a| - 1 ==> Xor(a, b)[1..][i] == (a[i + 1] != b[i + 1]);
    assert forall i :: 0 <= i < |a| ==> left[i] == right[i];
  }

  lemma {:induction false} StepsXor(a: Bits, b: Bits, poly: Bits, k: nat)
    requires |a| == |b| == |poly| > 0
    ensures Steps(Xor(a, b), poly, k) == Xor(Steps(a, poly, k), Steps(b, poly, k))
  {
    if k > 0 {
      StepsXor(a, b, poly, k - 1);
      StepXor(Steps(a, poly, k - 1), Steps(b, poly, k - 1), poly);
    }
  }

  lemma TopXor(b: bool, b': bool, w: nat)
    requires 0 < w
    ensures TopBit(b != b', w) == Xor(TopBit(b, w), TopBit(b', w))
  {
  }

  lemma {:induction false} FeedXor(a: Bits, b: Bits, poly: Bits, m: Bits, m': Bits)
    requires |a| == |b| == |poly| > 0 && |m| == |m'|
    ensures Feed(Xor(a, b), poly, Xor(m, m')) == Xor(Feed(a, poly, m), Feed(b, poly, m'))
  {
    if m == [] {
      assert Xor(m, m') == [];
    } else {
      hide Xor, StepBit;
      var n := |m| - 1;
      var x, y := Feed(a, poly, m[..n]), Feed(b, poly, m'[..n]);
      LastXor(m, m');
      FeedXor(a, b, poly, m[..n], m'[..n]);
      TopXor(m[n], m'[n], |poly|);
      XorExchange(x, TopBit(m[n], |poly|), y, TopBit(m'[n], |poly|));
      StepXor(Xor(x, TopBit(m[n], |poly|)), Xor(y, TopBit(m'[n], |poly|)), poly);
    }
  }

  // ----- Feeding several bits at once -----

  lemma FeedLast(r: Bits, poly: Bits, m: Bits, b: bool)
    requires |r| == |poly| > 0
    ensures Feed(r, poly, m + [b]) == StepBit(Xor(Feed(r, poly, m), TopBit(b, |r|)), poly)
  {
    hide StepBit, Xor;
    assert (m + [b])[..|m|] == m;
  }

  lemma FeedConcatLast(r: Bits, poly: Bits, m: Bits, front: Bits, b: bool)
    requires |r| == |poly| > 0 && Feed(r, poly, m + front) == Feed(Feed(r, poly, m), poly, front)
    ensures Feed(r, poly, m + (front + [b])) == Feed(Feed(r, poly, m), poly, front + [b])
  {
    hide Feed, StepBit, Xor;
    FeedLast(r, poly, m + front, b);
    FeedLast(Feed(r, poly, m), poly, front, b);
    assert m + (front + [b]) == (m + front) + [b];
  }

  lemma {:induction false} FeedConcat(r: Bits, poly: Bits, m: Bits, m': Bits)
    requires |r| == |poly| > 0
    ensures Feed(r, poly, m + m') == Feed(Feed(r, poly, m), poly, m')
  {
    if m' == [] {
      assert m + m' == m;
    } else {
      hide Feed;
      var front, last := m'[..|m'| - 1], m'[|m'| - 1];
      FeedConcat(r, poly, m, front);
      FeedConcatLast(r, poly, m, front, last);
      assert m' == front + [last];
    }
  }

  /** A single bit, `n` places below the top. */
  function Delayed(b: bool, w: nat, n: nat): (d: Bits)
    requires n < w
    ensures |d| == w
  {
    Zeros(n) + [b] + Zeros(w - n - 1)
  }

  lemma SplitTop(m: Bits, w: nat)
    requires 0 < |m| <= w
    ensures Top(m, w) == Xor(Top(m[..|m| - 1], w), Delayed(m[|m| - 1], w, |m| - 1))
  {
  }

  lemma {:induction false} ShiftPart(rest: Bits, poly: Bits, k: nat, j: nat)
    requires k + |rest| == |poly| > 0 && j <= k
    ensures Steps(Zeros(k) + rest, poly, j) == Zeros(k - j) + rest + Zeros(j)
  {
    if j == 0 {
      assert Zeros(k) + rest == Zeros(k) + rest + Zeros(0);
    } else {
      ShiftPart(rest, poly, k, j - 1);
      var r := Zeros(k - j + 1) + rest + Zeros(j - 1);
      assert r[1..] + [false] == Zeros(k - j) + rest + Zeros(j);
    }
  }

  /** Leading zeros shift out without reduction. */
  lemma {:induction false} ShiftOut(rest: Bits, poly: Bits, k: nat)
    requires k + |rest| == |poly| > 0
    ensures Steps(Zeros(k) + rest, poly, k) == rest + Zeros(k)
  {
    ShiftPart(rest, poly, k, k);
    assert Zeros(0) + rest + Zeros(k) == rest + Zeros(k);
  }

  lemma DelayedBit(b: bool, poly: Bits, n: nat)
    requires n < |poly|
    ensures Steps(Delayed(b, |poly|, n), poly, n) == TopBit(b, |poly|)
  {
    ShiftOut([b] + Zeros(|poly| - n - 1), poly, n);
    assert Zeros(n) + ([b] + Zeros(|poly| - n - 1)) == Delayed(b, |poly|, n);
    assert [b] + Zeros(|poly| - n - 1) + Zeros(n) == TopBit(b, |poly|);
  }

  /** Up to a register's width of message bits can be injected before shifting. */
  lemma {:induction false} FeedIsSteps(r: Bits, poly: Bits, m: Bits)
    requires |m| <= |r| == |poly| && 0 < |r|
    ensures Feed(r, poly, m) == Steps(Xor(r, Top(m, |r|)), poly, |m|)
  {
    var w := |r|;
    if m == [] {
      assert Top(m, w) == Zeros(w);
      XorZero(r);
    } else {
      hide Xor, StepBit, Top;
      var n := |m| - 1;
      FeedIsSteps(r, poly, m[..n]);
      DelayedBit(m[n], poly, n);
      var x, y := Xor(r, Top(m[..n], w)), Delayed(m[n], w, n);
      StepsXor(x, y, poly, n);
      SplitTop(m, w);
      XorAssoc(r, Top(m[..n], w), y);
    }
  }

  // ----- The register is the remainder of polynomial division -----

  /** The generator x^W + poly. */
  function Generator(poly: Bits): (g: Bits)
    ensures |g| == |poly| + 1 && Monic(g)
  {
    [true] + poly
  }

  /** init x^n + M x^W, for a message M of n bits. */
  function Dividend(init: Bits, m: Bits): (n: Bits)
    ensures |n| == |init| + |m|
  {
    Xor(init + Zeros(|m|), m + Zeros(|init|))
  }

  lemma SnocSplit(m: Bits)
    requires m != []
    ensures m == Snoc(m[..|m| - 1], m[|m| - 1])
  {
  }

  lemma EmptyDividend(init: Bits, g: Bits)
    requires |g| == |init| + 1
    ensures Dividend(init, []) == Xor(Mul([], g), Padded(init, 0))
  {
    assert init + Zeros(0) == init && Zeros(0) + init == init && [] + Zeros(|init|) == Zeros(|init|);
    XorComm(init, Zeros(|init|));
  }

  lemma NextDividend(init: Bits, m: Bits, b: bool, t: Bits)
    requires 0 < |init| && t == Delayed(b, |m| + 1 + |init|, |m|)
    ensures Dividend(init, Snoc(m, b)) == Xor(TimesX(Dividend(init, m)), t)
  {
  }

  lemma ShiftedDividend(init: Bits, m: Bits, b: bool, p: Bits, z: Bits, t: Bits)
    requires 0 < |init| && |p| == |z| == |init| + |m| && Dividend(init, m) == Xor(p, z)
    requires t == Delayed(b, |m| + 1 + |init|, |m|)
    ensures Dividend(init, Snoc(m, b)) == Xor(TimesX(p), Xor(TimesX(z), t))
  {
    hide *;
    NextDividend(init, m, b, t);
    XorShift(p, z);
    XorAssoc(TimesX(p), TimesX(z), t);
  }

  function LeadingBit(r: Bits): bool
    requires r != []
  {
    r[0]
  }

  lemma NextFeed(init: Bits, poly: Bits, m: Bits, b: bool)
    requires |init| == |poly| > 0
    ensures Feed(init, poly, Snoc(m, b)) == StepBit(Xor(Feed(init, poly, m), TopBit(b, |init|)), poly)
  {
    assert Snoc(m, b)[..|m|] == m;
  }

  /** Bringing in one message bit and reducing by the generator. */
  lemma Reduce(r: Bits, poly: Bits, b: bool, c: bool, n: nat, z: Bits, t: Bits, term: Bits, r': Bits, e: Bits)
    requires |r| == |poly| > 0 && z == Padded(r, n) && t == Delayed(b, n + 1 + |r|, n) && c == (LeadingBit(r) != b)
    requires r' == StepBit(Xor(r, TopBit(b, |r|)), poly) && e == Padded(r', n + 1)
    requires term == Term(c, n, Generator(poly))
    ensures Xor(TimesX(z), t) == Xor(term, e)
  {
    var w := |r|;
    var s := Xor(r, TopBit(b, w));
    assert s[0] == c && forall i :: 1 <= i < w ==> s[i] == r[i];
    var left, right := Xor(TimesX(z), t), Xor(term, e);
    assert forall i :: 0 <= i < |left| ==> left[i] == right[i];
  }

  lemma QuotientBit(init: Bits, poly: Bits, m: Bits, b: bool, q: Bits, r: Bits) returns (q': Bits)
    requires |init| == |poly| == |r| > 0 && |q| == |m| && r == Feed(init, poly, m)
    requires Dividend(init, m) == Xor(Mul(q, Generator(poly)), Padded(r, |q|))
    ensures |q'| == |q| + 1
    ensures Dividend(init, Snoc(m, b)) == Xor(Mul(q', Generator(poly)), Padded(Feed(init, poly, Snoc(m, b)), |q'|))
  {
    hide *;
    var c, g, n := LeadingBit(r) != b, Generator(poly), |m| + 1;
    var p, z, e := Mul(q, g), Padded(r, |m|), Padded(Feed(init, poly, Snoc(m, b)), n);
    var t, term := Delayed(b, n + |init|, |m|), Term(c, |m|, g);
    q' := Snoc(q, c);
    ShiftedDividend(init, m, b, p, z, t);
    NextFeed(init, poly, m, b);
    Reduce(r, poly, b, c, |m|, z, t, term, StepBit(Xor(r, TopBit(b, |r|)), poly), e);
    MulAppend(q, c, g);
    XorAssoc(TimesX(p), term, e);
  }

  lemma QuotientOf(n: Bits, g: Bits, r: Bits) returns (q: Bits)
    requires IsRemainder(n, g, r)
    ensures |q| == |n| - |r| && n == Xor(Mul(q, g), Padded(r, |q|)) && |g| == |r| + 1
  {
    hide Xor, Mul, Padded;
    q :| |q| == |n| - |r| && n == Xor(Mul(q, g), Padded(r, |q|));
  }

  lemma RemainderBy(n: Bits, g: Bits, r: Bits, q: Bits)
    requires |g| == |r| + 1 && |n| == |q| + |r| && n == Xor(Mul(q, g), Padded(r, |q|))
    ensures IsRemainder(n, g, r)
  {
    hide Xor, Mul, Padded;
  }

  lemma DivisionStep(init: Bits, poly: Bits, m: Bits, b: bool)
    requires |init| == |poly| > 0
    requires IsRemainder(Dividend(init, m), Generator(poly), Feed(init, poly, m))
    ensures IsRemainder(Dividend(init, Snoc(m, b)), Generator(poly), Feed(init, poly, Snoc(m, b)))
  {
    hide Xor, Mul, Padded, Generator, Dividend, Feed, IsRemainder, Snoc;
    var q := QuotientOf(Dividend(init, m), Generator(poly), Feed(init, poly, m));
    var q' := QuotientBit(init, poly, m, b, q, Feed(init, poly, m));
    RemainderBy(Dividend(init, Snoc(m, b)), Generator(poly), Feed(init, poly, Snoc(m, b)), q');
  }

  /** The register after any message is the remainder of init x^n + M x^W modulo x^W + poly. */
  lemma {:induction false} FeedIsRemainder(init: Bits, poly: Bits, m: Bits)
    requires |init| == |poly| > 0
    ensures IsRemainder(Dividend(init, m), Generator(poly), Feed(init, poly, m))
  {
    if m == [] {
      EmptyDividend(init, Generator(poly));
    } else {
      hide *;
      var m', b := m[..|m| - 1], m[|m| - 1];
      SnocSplit(m);
      FeedIsRemainder(init, poly, m');
      DivisionStep(init, poly, m', b);
    }
  }

  // ----- Error detection -----

  /** The registers of two messages differ by what their difference leaves in a zero register. */
  lemma FeedDifference(init: Bits, poly: Bits, m: Bits, m': Bits)
    requires |init| == |poly| > 0 && |m| == |m'|
    ensures Xor(Feed(init, poly, m), Feed(init, poly, m')) == Feed(Zeros(|init|), poly, Xor(m, m'))
  {
    FeedXor(init, init, poly, m, m');
    XorZero(init);
  }

  lemma ZeroDividend(m: Bits, w: nat)
    ensures Dividend(Zeros(w), m) == m + Zeros(w)
  {
    ZerosTail(w, |m|);
    XorZero(m + Zeros(w));
  }

  /** An error is undetected exactly if the generator divides its polynomial times x^W. */
  lemma SameRegister(init: Bits, poly: Bits, m: Bits, m': Bits)
    requires |init| == |poly| > 0 && |m| == |m'|
    ensures Feed(init, poly, m) == Feed(init, poly, m')
       <==> IsRemainder(Xor(m, m') + Zeros(|init|), Generator(poly), Zeros(|init|))
  {
    hide Xor, StepBit, Mul, IsRemainder, Generator;
    var z, d := Zeros(|init|), Xor(m, m');
    FeedDifference(init, poly, m, m');
    XorZero(Feed(init, poly, m));
    XorCancel(Feed(init, poly, m), Feed(init, poly, m'));
    FeedIsRemainder(z, poly, d);
    ZeroDividend(d, |init|);
    if IsRemainder(d + z, Generator(poly), z) {
      RemainderUnique(d + z, Generator(poly), z, Feed(z, poly, d));
    }
  }

  lemma SetBit(r: Bits) returns (i: nat)
    requires r != Zeros(|r|)
    ensures i < |r| && r[i]
  {
    i :| i < |r| && r[i];
  }

  /** With an odd polynomial, a nonzero register stays nonzero. */
  lemma StepNonzero(r: Bits, poly: Bits)
    requires |r| == |poly| > 0 && poly[|poly| - 1] && r != Zeros(|r|)
    ensures StepBit(r, poly) != Zeros(|r|)
  {
    var s, w := StepBit(r, poly), |r|;
    var i := SetBit(r);
    if r[0] {
      assert s[w - 1] != Zeros(w)[w - 1];
    } else {
      assert s[i - 1] != Zeros(w)[i - 1];
    }
  }

  lemma {:induction false} StepsNonzero(r: Bits, poly: Bits, k: nat)
    requires |r| == |poly| > 0 && poly[|poly| - 1] && r != Zeros(|r|)
    ensures Steps(r, poly, k) != Zeros(|r|)
  {
    if k > 0 {
      StepsNonzero(r, poly, k - 1);
      StepNonzero(Steps(r, poly, k - 1), poly);
    }
  }

  lemma {:induction false} FeedZeros(r: Bits, poly: Bits, n: nat)
    requires |r| == |poly| > 0
    ensures Feed(r, poly, Zeros(n)) == Steps(r, poly, n)
  {
    if n > 0 {
      FeedZeros(r, poly, n - 1);
      assert Zeros(n)[..n - 1] == Zeros(n - 1);
      assert TopBit(false, |r|) == Zeros(|r|);
      XorZero(Steps(r, poly, n - 1));
    }
  }

  lemma {:induction false} StepsZero(poly: Bits, n: nat)
    requires 0 < |poly|
    ensures Steps(Zeros(|poly|), poly, n) == Zeros(|poly|)
  {
    if n > 0 {
      StepsZero(poly, n - 1);
      assert Zeros(|poly|)[1..] + [false] == Zeros(|poly|);
    }
  }

  lemma TopNonzero(m: Bits, w: nat)
    requires |m| <= w && m != Zeros(|m|)
    ensures Top(m, w) != Zeros(w)
  {
    var i := SetBit(m);
    assert Top(m, w)[i] != Zeros(w)[i];
  }

  /** Every error confined to W consecutive bits changes the register, if the polynomial is odd. */
  lemma BurstChangesRegister(init: Bits, poly: Bits, m: Bits, m': Bits, before: nat, burst: Bits, after: nat)
    requires |init| == |poly| > 0 && poly[|poly| - 1] && |m| == |m'|
    requires Xor(m, m') == Zeros(before) + burst + Zeros(after)
    requires |burst| <= |init| && burst != Zeros(|burst|)
    ensures Feed(init, poly, m) != Feed(init, poly, m')
  {
    hide Xor, StepBit;
    var z := Zeros(|init|);
    FeedDifference(init, poly, m, m');
    XorZero(Feed(init, poly, m));
    FeedConcat(z, poly, Zeros(before) + burst, Zeros(after));
    FeedConcat(z, poly, Zeros(before), burst);
    FeedZeros(z, poly, before);
    StepsZero(poly, before);
    FeedIsSteps(z, poly, burst);
    TopNonzero(burst, |init|);
    XorZero(Top(burst, |init|));
    StepsNonzero(Top(burst, |init|), poly, |burst|);
    FeedZeros(Feed(z, poly, burst), poly, after);
    StepsNonzero(Feed(z, poly, burst), poly, after);
  }

  lemma OddOne(b: bool)
    ensures Odd([b]) == b
  {
    assert [b][..0] == [];
  }

  /** With a polynomial of odd weight, the register keeps the parity of what has been fed. */
  lemma StepParity(r: Bits, poly: Bits)
    requires |r| == |poly| > 0 && Odd(poly)
    ensures Odd(StepBit(r, poly)) == Odd(r)
  {
    var shifted := r[1..] + [false];
    assert r == [r[0]] + r[1..];
    OddConcat([r[0]], r[1..]);
    OddConcat(r[1..], [false]);
    OddXor(shifted, poly);
    assert Odd([r[0]]) == r[0] && Odd([false]) == false by {
      OddOne(r[0]);
      OddOne(false);
    }
  }

  lemma OddTop(b: bool, w: nat)
    requires 0 < w
    ensures Odd(TopBit(b, w)) == b
  {
    OddConcat([b], Zeros(w - 1));
    OddZeros(w - 1);
    OddOne(b);
  }

  lemma {:induction false} FeedParity(r: Bits, poly: Bits, m: Bits)
    requires |r| == |poly| > 0 && Odd(poly)
    ensures Odd(Feed(r, poly, m)) == (Odd(r) != Odd(m))
  {
    if m != [] {
      hide StepBit, Xor, Top;
      var n := |m| - 1;
      FeedParity(r, poly, m[..n]);
      OddXor(Feed(r, poly, m[..n]), TopBit(m[n], |r|));
      OddTop(m[n], |r|);
      StepParity(Xor(Feed(r, poly, m[..n]), TopBit(m[n], |r|)), poly);
    }
  }

  /** With a polynomial of odd weight, every odd number of bit errors changes the register. */
  lemma OddChangesRegister(init: Bits, poly: Bits, m: Bits, m': Bits)
    requires |init| == |poly| > 0 && Odd(poly) && |m| == |m'| && Odd(Xor(m, m'))
    ensures Feed(init, poly, m) != Feed(init, poly, m')
  {
    FeedParity(init, poly, m);
    FeedParity(init, poly, m');
    OddXor(m, m');
  }

  lemma TopWhole(m: Bits)
    ensures Top(m, |m|) == m
  {
  }

  /**
   * Feeding the register itself, changed by `x`, leaves what `x` alone leaves: a residue independent of the
   * message.
   */
  lemma Residue(init: Bits, poly: Bits, m: Bits, x: Bits)
    requires |init| == |poly| == |x| > 0
    ensures Feed(init, poly, m + Xor(Feed(init, poly, m), x)) == Steps(x, poly, |poly|)
  {
    hide Xor, StepBit;
    var r := Feed(init, poly, m);
    FeedConcat(init, poly, m, Xor(r, x));
    FeedIsSteps(r, poly, Xor(r, x));
    TopWhole(Xor(r, x));
    XorCancel(r, x);
  }
}
