/**
Sequences compared by key. The adapters accept a list when every expected entry finds exactly
one match, no match is used twice and the counts agree; these lemmas say that such checks
amount to equality up to order, and nothing less.
*/
module Pairing {

  predicate NoDup<T(==)>(s: seq<T>) {
    forall i, j :: 0 <= i < j < |s| ==> s[i] != s[j]
  }

  function Map<A, B>(f: A -> B, s: seq<A>): (r: seq<B>)
    ensures |r| == |s|
    ensures forall i :: 0 <= i < |s| ==> r[i] == f(s[i])
  {
    seq(|s|, i requires 0 <= i < |s| => f(s[i]))
  }

  /** `i` is the one position of `s` whose key is `k`. */
  predicate OnlyAt<F, K(==)>(s: seq<F>, key: F -> K, i: int, k: K) {
    0 <= i < |s| && key(s[i]) == k && forall j :: 0 <= j < |s| && key(s[j]) == k ==> j == i
  }

  /** `x` is the one entry of `s` that has its key. */
  predicate FindsOnly<F(==), K(==)>(s: seq<F>, key: F -> K, x: F) {
    exists i :: 0 <= i < |s| && OnlyAt(s, key, i, key(x)) && s[i] == x
  }

  lemma {:induction false} CountIsPositions<T>(s: seq<T>, x: T)
    ensures multiset(s)[x] <= 1 <==> forall i, j :: 0 <= i < j < |s| ==> s[i] != x || s[j] != x
    ensures multiset(s)[x] >= 1 <==> x in s
    decreases |s|
  {
    if s != [] {
      var t := s[..|s| - 1];
      assert s == t + [s[|s| - 1]];
      CountIsPositions(t, x);
    }
  }

  /** A sequence repeats nothing exactly when its multiset does not. */
  lemma NoDupCounts<T>(s: seq<T>)
    ensures NoDup(s) <==> forall x :: multiset(s)[x] <= 1
  {
    if NoDup(s) {
      forall x ensures multiset(s)[x] <= 1 { CountIsPositions(s, x); }
    }
    if forall x :: multiset(s)[x] <= 1 {
      forall i, j | 0 <= i < j < |s| ensures s[i] != s[j] { CountIsPositions(s, s[i]); }
    }
  }

  lemma SubsetSameSize<T>(a: multiset<T>, b: multiset<T>)
    requires a <= b && |a| == |b|
    ensures a == b
  {
    assert b == a + (b - a);
    assert |b - a| == 0;
  }

  /** A part with the right size and no repetition is the whole. */
  lemma CoveredIsPermuted<T>(a: seq<T>, e: seq<T>)
    requires |a| == |e| && NoDup(e)
    requires forall j :: 0 <= j < |e| ==> e[j] in a
    ensures multiset(a) == multiset(e)
  {
    forall x ensures multiset(e)[x] <= multiset(a)[x] {
      NoDupCounts(e);
      if x in e {
        CountIsPositions(a, x);
      }
    }
    SubsetSameSize(multiset(e), multiset(a));
  }

  /**
  With distinct expected keys, "each expected entry has exactly one match by key, and it is
  that entry" holds exactly when the two lists are permutations of each other.
  */
  lemma PairedByKey<F, K>(a: seq<F>, e: seq<F>, key: F -> K)
    requires |a| == |e| && NoDup(Map(key, e))
    ensures (forall j :: 0 <= j < |e| ==> FindsOnly(a, key, e[j])) <==> multiset(a) == multiset(e)
  {
    forall i, j | 0 <= i < j < |e| ensures e[i] != e[j] {
      assert Map(key, e)[i] != Map(key, e)[j];
    }
    if forall j :: 0 <= j < |e| ==> FindsOnly(a, key, e[j]) {
      CoveredIsPermuted(a, e);
    }
    if multiset(a) == multiset(e) {
      forall j | 0 <= j < |e| ensures FindsOnly(a, key, e[j]) {
        PermutedFindsOnly(a, e, key, j);
      }
    }
  }

  lemma PermutedFindsOnly<F, K>(a: seq<F>, e: seq<F>, key: F -> K, j: nat)
    requires multiset(a) == multiset(e) && NoDup(Map(key, e)) && j < |e|
    ensures FindsOnly(a, key, e[j])
  {
    forall i, k | 0 <= i < k < |e| ensures e[i] != e[k] {
      assert Map(key, e)[i] != Map(key, e)[k];
    }
    assert e[j] in multiset(a);
    var i :| 0 <= i < |a| && a[i] == e[j];
    NoDupCounts(e);
    NoDupCounts(a);
    forall k | 0 <= k < |a| && key(a[k]) == key(e[j]) ensures k == i {
      assert a[k] in multiset(e);
      var m :| 0 <= m < |e| && e[m] == a[k];
      assert Map(key, e)[m] == Map(key, e)[j];
      assert m == j;
    }
    assert OnlyAt(a, key, i, key(e[j]));
  }

  lemma MultisetOfUpdate<T>(s: seq<T>, i: nat, v: T)
    requires i < |s|
    ensures multiset(s[i := v]) == multiset(s) - multiset{s[i]} + multiset{v}
  {
    assert s == s[..i] + [s[i]] + s[i + 1..];
    assert s[i := v] == s[..i] + [v] + s[i + 1..];
  }

  /** List.FindAll by key: the matching positions, in order. */
  method FindAll<F, K(==)>(s: seq<F>, key: F -> K, k: K) returns (matches: seq<int>)
    ensures forall i :: i in matches <==> 0 <= i < |s| && key(s[i]) == k
    ensures NoDup(matches)
    ensures |matches| == 1 ==> OnlyAt(s, key, matches[0], k)
    ensures |matches| != 1 ==> forall i :: !OnlyAt(s, key, i, k)
  {
    matches := [];
    for n := 0 to |s|
      invariant forall i :: i in matches <==> 0 <= i < n && key(s[i]) == k
      invariant NoDup(matches)
    {
      if key(s[n]) == k {
        assert n !in matches;
        matches := matches + [n];
      }
    }
    if |matches| == 1 {
      assert matches[0] in matches;
    } else if |matches| > 1 {
      assert matches[0] in matches && matches[1] in matches && matches[0] != matches[1];
    }
  }

  /** How many entries equal `x`. */
  method CountOf<T(==)>(s: seq<T>, x: T) returns (count: nat)
    ensures count == multiset(s)[x]
  {
    count := 0;
    for n := 0 to |s|
      invariant count == multiset(s[..n])[x]
    {
      assert s[..n + 1] == s[..n] + [s[n]];
      if s[n] == x {
        count := count + 1;
      }
    }
    assert s[..|s|] == s;
  }
}
