/** The order in which the serial and reset queries page through a table:
    "order by asn, prefix, prefix_length, prefix_max_length", resumed after the last
    row sent. */
module RtrOrder {
  import opened Options
  import opened Sequences
  import opened RtrTables

  /** Byte strings compare lexicographically, a proper prefix first. */
  predicate BytesBelow(a: seq<nat>, b: seq<nat>) {
    b != [] && (a == [] || a[0] < b[0] || (a[0] == b[0] && BytesBelow(a[1..], b[1..])))
  }

  predicate Below(a: Roa, b: Roa) {
    || a.asn < b.asn
    || (a.asn == b.asn &&
        (|| BytesBelow(a.prefix, b.prefix)
         || (a.prefix == b.prefix &&
             (|| a.length < b.length
              || (a.length == b.length && a.maxLength < b.maxLength)))))
  }

  lemma {:induction false} BytesOrder(a: seq<nat>, b: seq<nat>, c: seq<nat>)
    ensures !BytesBelow(a, a)
    ensures BytesBelow(a, b) || BytesBelow(b, a) || a == b
    ensures BytesBelow(a, b) && BytesBelow(b, c) ==> BytesBelow(a, c)
  {
    if a == [] {
    } else {
      assert a == [a[0]] + a[1..];
      BytesOrder(a[1..], if b == [] then [] else b[1..], if c == [] then [] else c[1..]);
      if b != [] {
        assert b == [b[0]] + b[1..];
      }
    }
  }

  lemma BelowIsOrder(a: Roa, b: Roa, c: Roa)
    ensures !Below(a, a)
    ensures Below(a, b) || Below(b, a) || a == b
    ensures Below(a, b) && Below(b, c) ==> Below(a, c)
  {
    BytesOrder(a.prefix, b.prefix, c.prefix);
  }

  predicate IsMin(s: set<Roa>, m: Roa) {
    m in s && forall r :: r in s && r != m ==> Below(m, r)
  }

  lemma {:induction false} MinExists(s: set<Roa>)
    requires s != {}
    ensures exists m :: IsMin(s, m)
    decreases |s|
  {
    var x :| x in s;
    if s == {x} {
      assert IsMin(s, x);
    } else {
      var s' := s - {x};
      assert s == s' + {x};
      MinExists(s');
      var m :| IsMin(s', m);
      BelowIsOrder(x, m, m);
      if Below(x, m) {
        forall r | r in s && r != x ensures Below(x, r) {
          BelowIsOrder(x, m, r);
        }
        assert IsMin(s, x);
      } else {
        assert IsMin(s, m);
      }
    }
  }

  /** The rows in page order. */
  ghost function Sorted(s: set<Roa>): (q: seq<Roa>)
    ensures |q| == |s|
    ensures forall r :: r in q <==> r in s
    decreases |s|
  {
    if s == {} then []
    else
      MinExists(s);
      var m :| IsMin(s, m);
      [m] + Sorted(s - {m})
  }

  ghost predicate Ascending(q: seq<Roa>) {
    forall i, j :: 0 <= i < j < |q| ==> Below(q[i], q[j])
  }

  lemma {:induction false} SortedAscends(s: set<Roa>)
    ensures Ascending(Sorted(s)) && Distinct(Sorted(s))
    decreases |s|
  {
    if s == {} {
    } else {
      var q := Sorted(s);
      MinExists(s);
      var m := q[0];
      assert q[1..] == Sorted(s - {m});
      SortedAscends(s - {m});
      forall i, j | 0 <= i < j < |q| ensures Below(q[i], q[j]) {
        assert q[j] == q[1..][j - 1];
        assert q[j] in s - {m};
        if i > 0 { assert q[i] == q[1..][i - 1]; }
      }
    }
    AscendingIsDistinct(Sorted(s));
  }

  lemma AscendingIsDistinct(q: seq<Roa>)
    requires Ascending(q)
    ensures Distinct(q)
  {
    forall i: nat, j: nat | Same(q, i, j) ensures i == j {
      BelowIsOrder(q[i], q[i], q[i]);
    }
  }

  lemma AscendingUnique(p: seq<Roa>, q: seq<Roa>)
    requires Ascending(p) && Ascending(q) && forall r :: r in p <==> r in q
    ensures p == q
  {
    if |p| >= |q| {
      LongerUnique(p, q);
    } else {
      LongerUnique(q, p);
    }
  }

  lemma {:induction false} LongerUnique(p: seq<Roa>, q: seq<Roa>)
    requires |p| >= |q|
    requires Ascending(p) && Ascending(q) && forall r :: r in p <==> r in q
    ensures p == q
  {
    if p == [] {
    } else {
      assert p[0] in q && q != [] && q[0] in p;
      var i :| 0 <= i < |q| && q[i] == p[0];
      var j :| 0 <= j < |p| && p[j] == q[0];
      BelowIsOrder(p[0], q[0], p[0]);
      assert p[0] == q[0];
      forall r ensures r in p[1..] <==> r in q[1..] {
        if r in p[1..] {
          var k :| 0 <= k < |p[1..]| && p[1..][k] == r;
          assert r == p[k + 1] && Below(p[0], r);
          BelowIsOrder(r, r, r);
          assert r in q;
        }
        if r in q[1..] {
          var k :| 0 <= k < |q[1..]| && q[1..][k] == r;
          assert r == q[k + 1] && Below(q[0], r);
          BelowIsOrder(r, r, r);
          assert r in p;
        }
      }
      LongerUnique(p[1..], q[1..]);
      assert p == [p[0]] + p[1..] && q == [q[0]] + q[1..];
    }
  }

  /** The rows a SELECT resumed after row `k` sees. */
  function After(s: set<Roa>, k: Option<Roa>): set<Roa> {
    set r | r in s && (k.None? || Below(k.value, r))
  }

  function Min(a: nat, b: nat): nat { if a < b then a else b }

  /** One SELECT with its limit. */
  ghost function Page(s: set<Roa>, k: Option<Roa>, limit: nat): (q: seq<Roa>)
    ensures |q| <= limit
    ensures forall r :: r in q ==> r in s
  {
    var rest := Sorted(After(s, k));
    assert forall r :: r in rest[..Min(limit, |rest|)] ==> r in rest;
    rest[..Min(limit, |rest|)]
  }

  function Last(q: seq<Roa>, k: Option<Roa>): Option<Roa> {
    if q == [] then k else Some(q[|q| - 1])
  }

  lemma RestAfter(s: set<Roa>, k: Option<Roa>, rest: seq<Roa>, n: nat)
    requires 0 < n <= |rest| && Ascending(rest) && forall r :: r in rest <==> r in After(s, k)
    ensures Ascending(rest[n..]) && forall r :: r in rest[n..] <==> r in After(s, Some(rest[n - 1]))
  {
    var l := rest[n - 1];
    assert l in After(s, k);
    forall r | r in rest[n..] ensures r in After(s, Some(l)) {
      var i :| 0 <= i < |rest[n..]| && rest[n..][i] == r;
      assert r == rest[n + i] && Below(l, r) && r in rest;
    }
    forall r | r in After(s, Some(l)) ensures r in rest[n..] {
      if k.Some? { BelowIsOrder(k.value, l, r); }
      assert r in rest;
      var i :| 0 <= i < |rest| && rest[i] == r;
      BelowIsOrder(l, r, l);
      assert i >= n;
      assert r == rest[n..][i - n];
    }
  }

  lemma Append<T>(all: seq<T>, keys: seq<T>, page: seq<T>, left: seq<T>, rest: seq<T>)
    requires all == keys + left && left == page + rest
    ensures all == (keys + page) + rest
    ensures rest == [] ==> all == keys + page
  {
  }

  lemma TakeDrop<T>(s: seq<T>, n: nat)
    requires n <= |s|
    ensures s == s[..n] + s[n..]
  {
  }

  lemma RestIsSorted(s: set<Roa>, k: Option<Roa>, rest: seq<Roa>, n: nat, l: Roa)
    requires 0 < n <= |rest| && Ascending(rest) && (forall r :: r in rest <==> r in After(s, k)) && l == rest[n - 1]
    ensures rest[n..] == Sorted(After(s, Some(l)))
  {
    SortedAscends(After(s, Some(l)));
    RestAfter(s, k, rest, n);
    AscendingUnique(rest[n..], Sorted(After(s, Some(l))));
  }

  /** A page and what is seen after its last row make up what was left. */
  lemma PageAdvances(s: set<Roa>, k: Option<Roa>, limit: nat)
    ensures var page := Page(s, k, limit);
            Sorted(After(s, k)) == page + Sorted(After(s, Last(page, k)))
  {
    var rest, page := Sorted(After(s, k)), Page(s, k, limit);
    TakeDrop(rest, |page|);
    if page != [] {
      SortedAscends(After(s, k));
      RestIsSorted(s, k, rest, |page|, page[|page| - 1]);
    } else {
      Append(rest, [], [], rest, rest);
    }
  }

  lemma ShortPageIsLast(s: set<Roa>, k: Option<Roa>, limit: nat)
    requires |Page(s, k, limit)| < limit
    ensures After(s, Last(Page(s, k, limit), k)) == {}
    ensures Sorted(After(s, Last(Page(s, k, limit), k))) == []
  {
    var page := Page(s, k, limit);
    PageAdvances(s, k, limit);
    assert |page| == |Sorted(After(s, k))|;
    assert |Sorted(After(s, Last(page, k)))| == 0;
  }
}
