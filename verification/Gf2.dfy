/** Bit strings, most significant bit first, as polynomials over GF(2). */
module Gf2 {
  type Bits = seq<bool>

  function Zeros(n: nat): (z: Bits)
    ensures |z| == n
  {
    seq(n, i => false)
  }

  function Xor(a: Bits, b: Bits): (c: Bits)
    requires |a| == |b|
    ensures |c| == |a|
  {
    seq(|a|, i requires 0 <= i < |a| => a[i] != b[i])
  }

  lemma XorAssoc(a: Bits, b: Bits, c: Bits)
    requires |a| == |b| == |c|
    ensures Xor(Xor(a, b), c) == Xor(a, Xor(b, c))
  {
  }

  lemma XorComm(a: Bits, b: Bits)
    requires |a| == |b|
    ensures Xor(a, b) == Xor(b, a)
  {
  }

  lemma XorZero(a: Bits)
    ensures Xor(a, Zeros(|a|)) == a && Xor(Zeros(|a|), a) == a && Xor(a, a) == Zeros(|a|)
  {
  }

  /** Cancelling a common term. */
  lemma XorCancel(a: Bits, b: Bits)
    requires |a| == |b|
    ensures Xor(a, Xor(a, b)) == b && Xor(Xor(a, b), b) == a
    ensures Xor(a, b) == Zeros(|a|) ==> a == b
  {
    if Xor(a, b) == Zeros(|a|) {
      forall i | 0 <= i < |a|
        ensures a[i] == b[i]
      {
        assert !Xor(a, b)[i];
      }
    }
  }

  /** (a ^ b) ^ (c ^ d) == (a ^ c) ^ (b ^ d) */
  lemma XorExchange(a: Bits, b: Bits, c: Bits, d: Bits)
    requires |a| == |b| == |c| == |d|
    ensures Xor(Xor(a, b), Xor(c, d)) == Xor(Xor(a, c), Xor(b, d))
  {
  }

  // ----- Multiplication and division -----

  function Snoc(a: Bits, b: bool): (c: Bits)
    ensures |c| == |a| + 1
  {
    a + [b]
  }

  /** The product with x. */
  function TimesX(a: Bits): (p: Bits)
    ensures |p| == |a| + 1
  {
    a + [false]
  }

  /** `r` extended by `n` higher zero bits. */
  function Padded(r: Bits, n: nat): (p: Bits)
    ensures |p| == n + |r|
  {
    Zeros(n) + r
  }

  /** The partial product of the last quotient bit. */
  function Term(b: bool, n: nat, g: Bits): (t: Bits)
    ensures |t| == n + |g|
  {
    if b then Zeros(n) + g else Zeros(n + |g|)
  }

  /** The product with `g`, of degree |g| - 1. */
  function Mul(q: Bits, g: Bits): (p: Bits)
    requires 0 < |g|
    ensures |p| == |q| + |g| - 1
  {
    if q == [] then
      Zeros(|g| - 1)
    else
      var n := |q| - 1;
      Xor(TimesX(Mul(q[..n], g)), Term(q[n], n, g))
  }

  /** `r` is what remains of `n` modulo `g`: n == q g + r for some quotient q. */
  ghost predicate IsRemainder(n: Bits, g: Bits, r: Bits) {
    0 < |g| && |g| - 1 == |r| <= |n| &&
    exists q: Bits :: |q| == |n| - |r| && n == Xor(Mul(q, g), Padded(r, |q|))
  }

  lemma MulAppend(q: Bits, b: bool, g: Bits)
    requires 0 < |g|
    ensures Mul(Snoc(q, b), g) == Xor(TimesX(Mul(q, g)), Term(b, |q|, g))
  {
    assert (q + [b])[..|q|] == q;
  }

  lemma LastXor(q: Bits, q': Bits)
    requires |q| == |q'| && q != []
    ensures var n := |q| - 1;
            q == Snoc(q[..n], q[n]) && q' == Snoc(q'[..n], q'[n]) &&
            Xor(q, q') == Snoc(Xor(q[..n], q'[..n]), q[n] != q'[n])
  {
  }

  lemma XorShift(a: Bits, b: Bits)
    requires |a| == |b|
    ensures TimesX(Xor(a, b)) == Xor(TimesX(a), TimesX(b))
  {
  }

  lemma TermXor(b: bool, b': bool, n: nat, g: Bits)
    ensures Term(b != b', n, g) == Xor(Term(b, n, g), Term(b', n, g))
  {
  }

  lemma {:induction false} MulLinear(q: Bits, q': Bits, g: Bits)
    requires |q| == |q'| && 0 < |g|
    ensures Mul(Xor(q, q'), g) == Xor(Mul(q, g), Mul(q', g))
  {
    if q == [] {
      XorZero(Zeros(|g| - 1));
    } else {
      hide Xor, Term, TimesX;
      var n := |q| - 1;
      var a, b := Mul(q[..n], g), Mul(q'[..n], g);
      MulLinear(q[..n], q'[..n], g);
      LastXor(q, q');
      MulAppend(q[..n], q[n], g);
      MulAppend(q'[..n], q'[n], g);
      MulAppend(Xor(q[..n], q'[..n]), q[n] != q'[n], g);
      XorShift(a, b);
      TermXor(q[n], q'[n], n, g);
      XorExchange(TimesX(a), Term(q[n], n, g), TimesX(b), Term(q'[n], n, g));
    }
  }

  predicate Monic(g: Bits) {
    g != [] && g[0]
  }

  /** The `n` highest coefficients are zero. */
  predicate ClearTop(s: Bits, n: nat) {
    n <= |s| && forall i :: 0 <= i < n ==> !s[i]
  }

  /** The leading bits of a product with one more quotient bit. */
  lemma LeadingPart(p: Bits, b: bool, n: nat, g: Bits, s: Bits)
    requires 0 < |g| && Monic(g) && |p| + 1 == n + |g| && s == Xor(TimesX(p), Term(b, n, g))
    requires ClearTop(s, n + 1)
    ensures ClearTop(p, n)
    ensures p == Zeros(|p|) ==> !b && s == Zeros(|s|)
  {
    var t := Term(b, n, g);
    assert forall i :: 0 <= i < |s| ==> s[i] == (TimesX(p)[i] != t[i]);
    assert forall i :: 0 <= i < n ==> !t[i] && TimesX(p)[i] == p[i];
    if p == Zeros(|p|) {
      assert forall i :: 0 <= i < |s| ==> !TimesX(p)[i];
      assert t[n] == b;
    }
  }

  /** A multiple of `g` of degree below that of `g` is zero. */
  lemma {:induction false} SmallMultiple(q: Bits, g: Bits)
    requires 0 < |g| && Monic(g) && ClearTop(Mul(q, g), |q|)
    ensures q == Zeros(|q|) && Mul(q, g) == Zeros(|q| + |g| - 1)
  {
    if q != [] {
      hide Xor, TimesX, Term, ClearTop, Monic;
      var n := |q| - 1;
      LeadingPart(Mul(q[..n], g), q[n], n, g, Mul(q, g));
      SmallMultiple(q[..n], g);
      assert q == q[..n] + [q[n]];
    }
  }

  lemma SameTail(n: nat, r: Bits, r': Bits, d: Bits)
    requires |r| == |r'| && d == Zeros(n + |r|) && d == Xor(Padded(r, n), Padded(r', n))
    ensures r == r'
  {
    forall i | 0 <= i < |r|
      ensures r[i] == r'[i]
    {
      assert !Zeros(n + |r|)[n + i];
      assert d[n + i] == (Padded(r, n)[n + i] != Padded(r', n)[n + i]);
    }
  }

  lemma SameSum(a: Bits, b: Bits, c: Bits, d: Bits)
    requires |a| == |b| == |c| == |d| && Xor(a, b) == Xor(c, d)
    ensures Xor(a, c) == Xor(b, d)
  {
    forall i | 0 <= i < |a|
      ensures Xor(a, c)[i] == Xor(b, d)[i]
    {
      assert Xor(a, b)[i] == Xor(c, d)[i];
    }
  }

  lemma TopAndBottom(n: nat, r: Bits, r': Bits, d: Bits)
    requires |r| == |r'| && d == Xor(Padded(r, n), Padded(r', n))
    ensures ClearTop(d, n)
  {
  }

  lemma SameRemainder(q: Bits, q': Bits, g: Bits, r: Bits, r': Bits, p: Bits, p': Bits, e: Bits, e': Bits)
    requires |g| - 1 == |r| == |r'| && |q| == |q'| && Monic(g)
    requires p == Mul(q, g) && p' == Mul(q', g) && e == Padded(r, |q|) && e' == Padded(r', |q|)
    requires Xor(p, e) == Xor(p', e')
    ensures r == r'
  {
    hide *;
    var d := Xor(p, p');
    MulLinear(q, q', g);
    SameSum(p, e, p', e');
    TopAndBottom(|q|, r, r', d);
    SmallMultiple(Xor(q, q'), g);
    SameTail(|q|, r, r', d);
  }

  /** Quotient and remainder are unique. */
  lemma RemainderUnique(n: Bits, g: Bits, r: Bits, r': Bits)
    requires IsRemainder(n, g, r) && IsRemainder(n, g, r') && Monic(g)
    ensures r == r'
  {
    hide Xor, Zeros, Mul, Padded, ClearTop, Monic;
    var q: Bits :| |q| == |n| - |r| && n == Xor(Mul(q, g), Padded(r, |q|));
    var q': Bits :| |q'| == |n| - |r'| && n == Xor(Mul(q', g), Padded(r', |q'|));
    SameRemainder(q, q', g, r, r', Mul(q, g), Mul(q', g), Padded(r, |q|), Padded(r', |q|));
  }

  lemma ZerosTail(n: nat, k: nat)
    ensures Zeros(n + k)[n..] == Zeros(k) && Zeros(n + k) == Zeros(n) + Zeros(k)
  {
  }

  // ----- Parity -----

  /** Whether the number of set bits is odd. */
  function Odd(a: Bits): bool {
    if a == [] then false else Odd(a[..|a| - 1]) != a[|a| - 1]
  }

  lemma {:induction false} OddXor(a: Bits, b: Bits)
    requires |a| == |b|
    ensures Odd(Xor(a, b)) == (Odd(a) != Odd(b))
  {
    if a != [] {
      var n := |a| - 1;
      OddXor(a[..n], b[..n]);
      assert Xor(a, b)[..n] == Xor(a[..n], b[..n]);
    }
  }

  lemma {:induction false} OddConcat(a: Bits, b: Bits)
    ensures Odd(a + b) == (Odd(a) != Odd(b))
  {
    if b == [] {
      assert a + b == a;
    } else {
      var n := |b| - 1;
      OddConcat(a, b[..n]);
      assert (a + b)[..|a + b| - 1] == a + b[..n];
    }
  }

  lemma {:induction false} OddZeros(n: nat)
    ensures !Odd(Zeros(n))
  {
    if n > 0 {
      assert Zeros(n)[..n - 1] == Zeros(n - 1);
      OddZeros(n - 1);
    }
  }

  // ----- Numbers -----

  /** The `n` low bits of a number. */
  function ToBits(v: nat, n: nat): (b: Bits)
    ensures |b| == n
  {
    if n == 0 then [] else ToBits(v / 2, n - 1) + [v % 2 == 1]
  }

  function Value(b: Bits): nat {
    if b == [] then 0 else 2 * Value(b[..|b| - 1]) + if b[|b| - 1] then 1 else 0
  }

  function Pow2(n: nat): (p: nat)
    ensures 0 < p
  {
    if n == 0 then 1 else 2 * Pow2(n - 1)
  }

  lemma AtLeastOneMore(d: nat, q: nat, more: nat)
    ensures d * (q + 1 + more) >= d * q + d
  {
    assert d * (q + 1 + more) == d * q + d + d * more;
  }

  lemma NotBelow(d: nat, q: nat, rest: nat, q': nat, rest': nat)
    requires d * q + rest == d * q' + rest' && rest' < d
    ensures q <= q'
  {
    if q' < q {
      AtLeastOneMore(d, q', q - q' - 1);
    }
  }

  lemma QuotientIs(x: nat, d: nat, q: nat, rest: nat)
    requires x == d * q + rest && rest < d
    ensures x / d == q
  {
    NotBelow(d, q, rest, x / d, x % d);
    NotBelow(d, x / d, x % d, q, rest);
  }

  lemma Doubled(v: nat, half: nat, p: nat, q: nat, rest: nat)
    requires half == p * q + rest && v == 2 * half + v % 2
    ensures v == 2 * p * q + (2 * rest + v % 2)
  {
  }

  lemma Halves(v: nat, p: nat)
    requires 0 < p
    ensures v / 2 / p == v / (2 * p)
  {
    var half := v / 2;
    Doubled(v, half, p, half / p, half % p);
    QuotientIs(v, 2 * p, half / p, 2 * (half % p) + v % 2);
  }

  /** The bit of weight 2^(n - 1 - i) comes at place i. */
  lemma {:induction false} ToBitsAt(v: nat, n: nat, i: nat)
    requires i < n
    ensures ToBits(v, n)[i] <==> v / Pow2(n - 1 - i) % 2 == 1
  {
    if i < n - 1 {
      ToBitsAt(v / 2, n - 1, i);
      Halves(v, Pow2(n - 2 - i));
    }
  }

  lemma {:induction false} ValueBound(b: Bits)
    ensures Value(b) < Pow2(|b|)
  {
    if b != [] {
      ValueBound(b[..|b| - 1]);
    }
  }

  lemma {:induction false} ValueRoundTrip(b: Bits)
    ensures ToBits(Value(b), |b|) == b
  {
    if b != [] {
      ValueRoundTrip(b[..|b| - 1]);
      assert b == b[..|b| - 1] + [b[|b| - 1]];
    }
  }

  lemma {:induction false} ZeroBits(n: nat)
    ensures ToBits(0, n) == Zeros(n)
  {
    if n > 0 {
      ZeroBits(n - 1);
      assert Zeros(n - 1) + [false] == Zeros(n);
    }
  }

  /** A number below 2^k has only zeros above its `k` low bits. */
  lemma {:induction false} LeadingZeros(v: nat, k: nat, n: nat)
    requires v < Pow2(k) && k <= n
    ensures ToBits(v, n) == Zeros(n - k) + ToBits(v, k)
  {
    if k == 0 {
      ZeroBits(n);
      assert ToBits(v, n) == Zeros(n - k) + ToBits(v, k);
    } else {
      LeadingZeros(v / 2, k - 1, n - 1);
    }
  }
}
