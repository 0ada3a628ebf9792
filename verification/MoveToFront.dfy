/** The list of the move-to-front recursion: permuted prefixes, and the support at its front (Miniball.hpp:312-346). */
module MoveToFront {

  /** Only the first `n` elements of `s` have been rearranged. */
  predicate Permuted(s: seq<nat>, t: seq<nat>, n: nat) {
    n <= |s| == |t| && t[n..] == s[n..] && multiset(t[..n]) == multiset(s[..n])
  }

  /** The first `e` elements of the list are those of the chain after its first `n`. */
  predicate Supports(list: seq<nat>, e: nat, chain: seq<nat>, n: nat) {
    e <= |list| && n + e == |chain| && multiset(list[..e]) == multiset(chain[n..])
  }

  /** The list with its element at `j` spliced to the front. */
  function ToFront(s: seq<nat>, j: nat): seq<nat>
    requires j < |s|
  {
    [s[j]] + s[..j] + s[j + 1..]
  }

  lemma PermutedSame(s: seq<nat>, n: nat)
    requires n <= |s|
    ensures Permuted(s, s, n)
  {
  }

  lemma PermutedWider(s: seq<nat>, t: seq<nat>, j: nat, n: nat)
    requires Permuted(s, t, j) && j <= n <= |s|
    ensures Permuted(s, t, n)
  {
    assert s[..n] == s[..j] + s[j..][..n - j] && t[..n] == t[..j] + t[j..][..n - j];
    assert s[n..] == s[j..][n - j..] && t[n..] == t[j..][n - j..];
  }

  lemma PermutedTwice(s: seq<nat>, t: seq<nat>, u: seq<nat>, n: nat)
    requires Permuted(s, t, n) && Permuted(t, u, n)
    ensures Permuted(s, u, n)
  {
  }

  lemma SameElement(s: seq<nat>, t: seq<nat>, j: nat)
    requires Permuted(s, t, j) && j < |s|
    ensures t[j] == s[j]
  {
    assert t[j] == t[j..][0] && s[j] == s[j..][0];
  }

  lemma ToFrontPermuted(s: seq<nat>, j: nat)
    requires j < |s|
    ensures Permuted(s, ToFront(s, j), j + 1)
  {
    var t := ToFront(s, j);
    assert t[..j + 1] == [s[j]] + s[..j];
    assert s[..j + 1] == s[..j] + [s[j]];
  }

  lemma NoSupport(list: seq<nat>, chain: seq<nat>)
    ensures Supports(list, 0, chain, |chain|)
  {
  }

  lemma Prefix(s: seq<nat>, e: nat, n: nat)
    requires e <= n <= |s|
    ensures multiset(s[..e]) <= multiset(s[..n])
  {
    assert s[..n] == s[..e] + s[e..n];
  }

  /** The effect of one visit on list and chain, from what the recursive call guarantees. */
  lemma Forced(list: seq<nat>, s: seq<nat>, j: nat, e: nat, forced: seq<nat>, chain: seq<nat>)
    requires Permuted(list, s, j) && e <= j < |list|
    requires forced + [list[j]] <= chain && Supports(s, e, chain, |forced| + 1)
    ensures forced <= chain && Permuted(list, ToFront(s, j), j + 1)
    ensures Supports(ToFront(s, j), e + 1, chain, |forced|)
  {
    var t, n := ToFront(s, j), |forced|;
    SameElement(list, s, j);
    PermutedWider(list, s, j, j + 1);
    ToFrontPermuted(s, j);
    PermutedTwice(list, s, t, j + 1);
    assert chain[n] == (forced + [list[j]])[n];
    assert chain[n..] == [list[j]] + chain[n + 1..];
    assert t[..e + 1] == [s[j]] + s[..e];
  }

  /** The multisets of the parts visited and supporting, before and after the element at `j` moves to the front. */
  lemma VisitedParts(list: seq<nat>, s: seq<nat>, j: nat, e: nat)
    requires Permuted(list, s, j) && e <= j < |list|
    ensures multiset(s[..e]) <= multiset(list[..j])
    ensures multiset(list[..j] + [list[j]]) == multiset(ToFront(s, j)[..j + 1])
    ensures multiset(s[..e] + [list[j]]) == multiset(ToFront(s, j)[..e + 1])
  {
    SameElement(list, s, j);
    Prefix(s, e, j);
    assert ToFront(s, j)[..j + 1] == [s[j]] + s[..j];
    assert ToFront(s, j)[..e + 1] == [s[j]] + s[..e];
  }

  /** The same when the pivot comes to the front from outside the list. */
  lemma PivotInFront(s: seq<nat>, pivot: nat, e: nat, chain: seq<nat>)
    requires [pivot] <= chain && Supports(s, e, chain, 1)
    ensures Supports([pivot] + s, e + 1, chain, 0) && chain[0] == pivot
    ensures ([pivot] + s)[..e + 1] == [pivot] + s[..e]
  {
    assert chain[0] == [pivot][0];
    assert chain[0..] == [pivot] + chain[1..];
    assert ([pivot] + s)[..e + 1] == [pivot] + s[..e];
  }
}
