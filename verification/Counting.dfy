/** Counting the elements of a sequence that satisfy a predicate. */
module Counting {

  function Count<T>(s: seq<T>, p: T -> bool): nat {
    if s == [] then 0 else (if p(s[0]) then 1 else 0) + Count(s[1..], p)
  }

  function One(b: bool): nat { if b then 1 else 0 }

  lemma {:induction false} CountConcat<T>(a: seq<T>, b: seq<T>, p: T -> bool)
    ensures Count(a + b, p) == Count(a, p) + Count(b, p)
  {
    if a == [] {
      assert a + b == b;
    } else {
      assert (a + b)[1..] == a[1..] + b;
      CountConcat(a[1..], b, p);
    }
  }

  lemma CountSplit<T>(s: seq<T>, i: nat, p: T -> bool)
    requires i < |s|
    ensures Count(s, p) == Count(s[..i], p) + One(p(s[i])) + Count(s[i + 1..], p)
  {
    assert s == s[..i] + ([s[i]] + s[i + 1..]);
    CountConcat(s[..i], [s[i]] + s[i + 1..], p);
    CountConcat([s[i]], s[i + 1..], p);
  }

  lemma CountUpdate<T>(s: seq<T>, i: nat, x: T, p: T -> bool)
    requires i < |s|
    ensures Count(s[i := x], p) + One(p(s[i])) == Count(s, p) + One(p(x))
  {
    CountSplit(s, i, p);
    CountSplit(s[i := x], i, p);
    assert s[i := x][..i] == s[..i] && s[i := x][i + 1..] == s[i + 1..];
  }

  lemma CountErase<T>(s: seq<T>, i: nat, p: T -> bool)
    requires i < |s|
    ensures Count(s[..i] + s[i + 1..], p) + One(p(s[i])) == Count(s, p)
  {
    CountSplit(s, i, p);
    CountConcat(s[..i], s[i + 1..], p);
  }

  lemma CountInsert<T>(s: seq<T>, i: nat, x: T, p: T -> bool)
    requires i <= |s|
    ensures Count(s[..i] + [x] + s[i..], p) == Count(s, p) + One(p(x))
  {
    CountConcat(s[..i] + [x], s[i..], p);
    CountConcat(s[..i], [x], p);
    CountConcat(s[..i], s[i..], p);
    assert s == s[..i] + s[i..];
  }

  /** Two predicates that differ at most on `c` give counts that differ at most by
      the occurrences of `c`. */
  lemma {:induction false} CountDiffer<T>(s: seq<T>, p: T -> bool, q: T -> bool, c: T)
    requires forall x :: x in s && x != c ==> p(x) == q(x)
    ensures p(c) == q(c) ==> Count(s, q) == Count(s, p)
    ensures Count(s, q) <= Count(s, p) + multiset(s)[c]
  {
    if s == [] {
    } else {
      assert s == [s[0]] + s[1..];
      CountDiffer(s[1..], p, q, c);
    }
  }

  lemma CountPositive<T>(s: seq<T>, i: nat, p: T -> bool)
    requires i < |s| && p(s[i])
    ensures Count(s, p) >= 1
  {
    CountSplit(s, i, p);
  }

  lemma CountTwo<T>(s: seq<T>, i: nat, j: nat, p: T -> bool)
    requires i < j < |s| && p(s[i]) && p(s[j])
    ensures Count(s, p) >= 2
  {
    CountSplit(s, i, p);
    CountPositive(s[i + 1..], j - i - 1, p);
  }

  lemma {:induction false} CountZero<T>(s: seq<T>, p: T -> bool)
    requires forall i :: 0 <= i < |s| ==> !p(s[i])
    ensures Count(s, p) == 0
  {
    if s == [] {
    } else {
      CountZero(s[1..], p);
    }
  }
}
