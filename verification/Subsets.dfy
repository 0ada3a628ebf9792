/** How many sets of small numbers there are. */
module NumberSets {

  function Power2(n: nat): (p: nat) {
    if n == 0 then 1 else 2 * Power2(n - 1)
  }

  ghost function With(s: set<nat>, k: nat): set<nat> {
    s + {k}
  }

  ghost function AllWith(a: set<set<nat>>, k: nat): set<set<nat>> {
    set s | s in a :: With(s, k)
  }

  /** The sets of numbers below `n`. */
  ghost function Subsets(n: nat): set<set<nat>> {
    if n == 0 then {{}} else Subsets(n - 1) + AllWith(Subsets(n - 1), n - 1)
  }

  lemma {:induction false} InSubsets(s: set<nat>, n: nat)
    requires forall i :: i in s ==> i < n
    ensures s in Subsets(n)
  {
    if n == 0 {
      assert s == {};
    } else {
      var k := n - 1;
      InSubsets(s - {k}, k);
      if k in s {
        assert s == With(s - {k}, k);
      } else {
        assert s == s - {k};
      }
    }
  }

  lemma {:induction false} ImageCount(a: set<set<nat>>, k: nat)
    ensures |AllWith(a, k)| <= |a|
  {
    if a != {} {
      var x :| x in a;
      ImageCount(a - {x}, k);
      assert AllWith(a, k) == AllWith(a - {x}, k) + {With(x, k)};
    }
  }

  lemma UnionCount<T>(a: set<T>, b: set<T>)
    ensures |a + b| <= |a| + |b|
  {
    assert a + b == a + (b - a);
  }

  lemma SubsetsNone()
    ensures |Subsets(0)| == 1
  {
  }

  lemma SubsetsStep(n: nat)
    requires 0 < n
    ensures |Subsets(n)| <= 2 * |Subsets(n - 1)|
  {
    hide AllWith;
    ImageCount(Subsets(n - 1), n - 1);
    UnionCount(Subsets(n - 1), AllWith(Subsets(n - 1), n - 1));
  }

  lemma {:induction false} SubsetsCount(n: nat)
    ensures |Subsets(n)| <= Power2(n)
  {
    hide Subsets;
    if n == 0 {
      SubsetsNone();
    } else {
      SubsetsCount(n - 1);
      SubsetsStep(n);
    }
  }

  lemma {:induction false} SubsetCount<T>(a: set<T>, b: set<T>)
    requires a <= b
    ensures |a| <= |b|
  {
    if a != {} {
      var x :| x in a;
      SubsetCount(a - {x}, b - {x});
    }
  }
}
