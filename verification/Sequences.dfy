/** Sequences without repetitions. */
module Sequences {

  ghost predicate Same<T>(s: seq<T>, i: nat, j: nat) {
    i < |s| && j < |s| && s[i] == s[j]
  }

  ghost predicate Distinct<T>(s: seq<T>) {
    forall i: nat, j: nat :: Same(s, i, j) ==> i == j
  }

  lemma Others<T>(s: seq<T>, k: nat)
    requires Distinct(s) && k < |s|
    ensures forall i :: 0 <= i < |s| && i != k ==> s[i] != s[k]
  {
    forall i: nat | i < |s| && i != k
      ensures s[i] != s[k]
    {
      assert !Same(s, i, k);
    }
  }

  lemma DistinctSlice<T>(s: seq<T>, m: nat, n: nat)
    requires Distinct(s) && m <= n <= |s|
    ensures Distinct(s[m..n])
  {
    forall i: nat, j: nat | Same(s[m..n], i, j)
      ensures i == j
    {
      assert Same(s, m + i, m + j);
    }
  }

  lemma DistinctTail<T>(s: seq<T>)
    requires Distinct(s) && s != []
    ensures Distinct(s[1..]) && s[0] !in s[1..]
  {
    DistinctSlice(s, 1, |s|);
    assert s[1..|s|] == s[1..];
    Others(s, 0);
  }
}
