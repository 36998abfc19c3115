/** Sequences without repetition, exchanges in them, and permutations. */
module Sequences {

  predicate AllDistinct<T(==)>(s: seq<T>) {
    forall i, j :: 0 <= i < j < |s| ==> s[i] != s[j]
  }

  predicate Permutes<T(==)>(s: seq<T>, t: seq<T>) {
    multiset(s) == multiset(t)
  }

  function Swapped<T>(s: seq<T>, i: nat, j: nat): (t: seq<T>)
    requires i < |s| && j < |s|
    ensures |t| == |s|
  {
    s[i := s[j]][j := s[i]]
  }

  lemma PermutesTrans<T>(a: seq<T>, b: seq<T>, c: seq<T>)
    requires Permutes(a, b) && Permutes(b, c)
    ensures Permutes(a, c)
  {
  }

  lemma Exchange<T>(a: seq<T>, x: T, b: seq<T>, y: T, c: seq<T>)
    ensures Permutes(a + [x] + b + [y] + c, a + [y] + b + [x] + c)
  {
  }

  lemma SwappedParts<T>(s: seq<T>, i: nat, j: nat)
    requires i < j < |s|
    ensures s == s[..i] + [s[i]] + s[i + 1..j] + [s[j]] + s[j + 1..]
    ensures Swapped(s, i, j) == s[..i] + [s[j]] + s[i + 1..j] + [s[i]] + s[j + 1..]
  {
  }

  /** An exchange is a permutation. */
  lemma SwapPermutes<T>(s: seq<T>, i: nat, j: nat)
    requires i <= j < |s|
    ensures Permutes(s, Swapped(s, i, j))
  {
    hide Permutes, Swapped;
    if i < j {
      SwappedParts(s, i, j);
      Exchange(s[..i], s[i], s[i + 1..j], s[j], s[j + 1..]);
    } else {
      SwappedSelf(s, i);
    }
  }

  lemma SwappedSelf<T>(s: seq<T>, i: nat)
    requires i < |s|
    ensures Swapped(s, i, i) == s && Permutes(s, s)
  {
  }
}
