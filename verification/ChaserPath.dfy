/** The chaser's in-place rewriting of a URI behind its scheme (bin/rpki/chaser.c).  A C
    string is an array with the count of its characters. */
module ChaserPath {
  import opened Options
  import opened ChaserSegments

  // ----- remove_dot_dot -----

  /** "/.." stands at i and is a whole segment. */
  predicate DotsAt(p: string, i: nat) {
    && i + 3 <= |p| && p[i] == '/' && p[i + 1] == '.' && p[i + 2] == '.'
    && (i + 3 == |p| || p[i + 3] == '/')
  }

  lemma {:induction false} DotsSegment(p: string, m: nat) returns (i: nat)
    requires 1 <= m < |Split(p)| && Split(p)[m] == ".."
    ensures DotsAt(p, i)
  {
    var q := p[1..];
    if p[0] == '/' && m == 1 {
      FirstSegment(q);
      i := 0;
    } else {
      var j := DotsSegment(q, if p[0] == '/' then m - 1 else m);
      i := j + 1;
    }
  }

  lemma NoDotsBefore(p: string, lo: nat)
    requires DotsAt(p, lo) && forall j :: 0 <= j < lo ==> !DotsAt(p, j)
    ensures NoDots(Split(p[..lo])[1..])
  {
    var u := p[..lo];
    forall m | 1 <= m < |Split(u)|
      ensures Split(u)[m] != ".."
    {
      if Split(u)[m] == ".." {
        var j := DotsSegment(u, m);
        assert DotsAt(p, j);
      }
    }
  }

  lemma NoDotsAtAll(p: string)
    requires forall j :: 0 <= j < |p| ==> !DotsAt(p, j)
    ensures Resolve(Split(p)) == Some(Rooted(Split(p)))
  {
    forall m | 1 <= m < |Split(p)|
      ensures Split(p)[m] != ".."
    {
      if Split(p)[m] == ".." {
        var j := DotsSegment(p, m);
      }
    }
    ResolvePlain(Split(p));
  }

  /** The segments behind a ".." at lo. */
  function Behind(p: string, lo: nat): seq<string>
    requires DotsAt(p, lo)
  {
    if lo + 3 == |p| then [] else Split(p[lo + 4..])
  }

  lemma SplitAt(p: string, i: nat)
    requires i < |p| && p[i] == '/'
    ensures Split(p) == Split(p[..i]) + Split(p[i + 1..])
  {
    assert p == p[..i] + "/" + p[i + 1..];
    SplitConcat(p[..i], p[i + 1..]);
  }

  lemma SplitDots(v: string)
    requires |v| >= 2 && v[0] == '.' && v[1] == '.' && (|v| == 2 || v[2] == '/')
    ensures Split(v) == [".."] + if |v| == 2 then [] else Split(v[3..])
  {
    assert v[..2] == "..";
    SplitPlain(v[..2]);
    if |v| == 2 {
      assert v == v[..2];
    } else {
      SplitAt(v, 2);
    }
  }

  lemma SplitAtDots(p: string, lo: nat)
    requires DotsAt(p, lo)
    ensures Split(p) == Split(p[..lo]) + ([".."] + Behind(p, lo))
  {
    SplitAt(p, lo);
    SplitDots(p[lo + 1..]);
    if lo + 3 < |p| {
      assert p[lo + 1..][3..] == p[lo + 4..];
    }
  }

  lemma SplitAtCut(p: string, lo: nat, d: nat)
    requires DotsAt(p, lo) && d < lo && p[d] == '/' && '/' !in p[d + 1..lo]
    ensures Split(p[..lo]) == Split(p[..d]) + [p[d + 1..lo]]
    ensures Split(p[..d] + p[lo + 3..]) == Split(p[..d]) + Behind(p, lo)
  {
    SplitAt(p[..lo], d);
    assert p[..lo][..d] == p[..d] && p[..lo][d + 1..] == p[d + 1..lo];
    SplitPlain(p[d + 1..lo]);
    var q := p[..d] + p[lo + 3..];
    if lo + 3 == |p| {
      assert q == p[..d];
    } else {
      SplitAt(q, d);
      assert q[..d] == p[..d] && q[d + 1..] == p[lo + 4..];
    }
  }

  lemma AuthorityStays(p: string, d: nat)
    requires 0 < d <= |p|
    ensures Split(p[..d])[0] != "" || |Split(p[..d])| >= 2
  {
  }

  /** One round: the directory before the leftmost ".." goes with it. */
  lemma RoundKeepsResolved(p: string, lo: nat, d: nat)
    requires DotsAt(p, lo) && (forall j :: 0 <= j < lo ==> !DotsAt(p, j))
    requires 0 < d < lo && p[d] == '/' && '/' !in p[d + 1..lo]
    ensures Resolve(Split(p)) == Resolve(Split(p[..d] + p[lo + 3..]))
  {
    NoDotsBefore(p, lo);
    SplitAtDots(p, lo);
    SplitAtCut(p, lo, d);
    AuthorityStays(p, d);
    ResolveRemove(Split(p[..d]), p[d + 1..lo], Behind(p, lo));
  }

  /** Without a slash behind the first character there is no directory to remove. */
  lemma RoundUnderflows(p: string, lo: nat)
    requires DotsAt(p, lo) && forall i :: 0 < i < lo ==> p[i] != '/'
    ensures Resolve(Split(p)) == None
  {
    SplitAtDots(p, lo);
    if lo == 0 {
      assert Split(p[..lo]) == [""];
    } else if p[0] == '/' {
      SplitPlain(p[..lo][1..]);
      assert Split(p[..lo]) == ["", p[..lo][1..]];
      RootedConcat(Split(p[..lo]), [".."] + Behind(p, lo));
    } else {
      SplitPlain(p[..lo]);
    }
  }

  /** remove_dot_dot's search for the leftmost "..". */
  method FindDots(s: array<char>, len: nat) returns (found: bool, lo: nat)
    requires 2 <= len <= s.Length
    ensures found ==> DotsAt(s[..len], lo) && forall j :: 0 <= j < lo ==> !DotsAt(s[..len], j)
    ensures !found ==> forall j :: 0 <= j < len ==> !DotsAt(s[..len], j)
  {
    found, lo := false, 0;
    for i := 0 to len - 2
      invariant !found && forall j :: 0 <= j < i ==> !DotsAt(s[..len], j)
    {
      if s[i] == '/' && s[i + 1] == '.' && s[i + 2] == '.' {
        lo := i;
        if i + 3 == len || s[i + 3] == '/' {
          return true, lo;
        }
      }
    }
  }

  /** remove_dot_dot's search for the directory before it. */
  method FindDir(s: array<char>, lo: nat) returns (found: bool, d: nat)
    requires lo <= s.Length
    ensures found ==> 0 < d < lo && s[d] == '/' && '/' !in s[d + 1..lo]
    ensures !found ==> forall i :: 0 < i < lo ==> s[i] != '/'
  {
    found, d := false, 0;
    if lo >= 1 {
      var i := lo - 1;
      while i > 0
        invariant i < lo && forall k :: i < k < lo ==> s[k] != '/'
      {
        if s[i] == '/' {
          return true, i;
        }
        i := i - 1;
      }
    }
  }

  /** Removing s[lo..hi] in place. */
  method Cut(s: array<char>, len: nat, lo: nat, hi: nat) returns (n: nat)
    requires lo <= hi < len <= s.Length
    modifies s
    ensures n == len - (hi + 1 - lo) && s[..n] == old(s[..lo] + s[hi + 1..len])
  {
    var j := 0;
    for i := 0 to len
      invariant j == if i <= lo then i else if i <= hi then lo else i - (hi + 1 - lo)
      invariant forall k :: 0 <= k < j && k < lo ==> s[k] == old(s[k])
      invariant forall k :: lo <= k < j ==> s[k] == old(s[k + (hi + 1 - lo)])
      invariant forall k :: i <= k < len ==> s[k] == old(s[k])
    {
      if i < lo || i > hi {
        s[j] := s[i];
        j := j + 1;
      }
    }
    n := j;
    ghost var t := old(s[..lo] + s[hi + 1..len]);
    assert |t| == n && forall k :: 0 <= k < n ==> t[k] == s[k];
  }

  /** What remove_dot_dot leaves has fewer than two characters. */
  predicate TooShort(e: Option<seq<string>>)
    requires e.Some? ==> |e.value| >= 1
  {
    e.Some? && |Join(e.value)| < 2
  }

  lemma ShortHasNoDots(p: string)
    requires |p| < 2
    ensures Resolve(Split(p)) == Some(Rooted(Split(p)))
  {
    NoDotsAtAll(p);
  }

  datatype Round = Clean | Underflow | Removed

  /** One turn of remove_dot_dot's loop. */
  method RemoveFirst(s: array<char>, len: nat) returns (r: Round, n: nat)
    requires 2 <= len <= s.Length
    modifies s
    ensures 0 < n <= len && s[0] == old(s[0])
    ensures r.Removed? ==> n < len && Resolve(Split(s[..n])) == Resolve(Split(old(s[..len])))
    ensures !r.Removed? ==> n == len && s[..n] == old(s[..len])
    ensures r.Underflow? ==> Resolve(Split(s[..n])) == None
    ensures r.Clean? ==> Resolve(Split(s[..n])) == Some(Rooted(Split(s[..n])))
  {
    ghost var p := s[..len];
    var foundDots, lo := FindDots(s, len);
    if !foundDots {
      NoDotsAtAll(p);
      return Clean, len;
    }
    var foundDir, d := FindDir(s, lo);
    if !foundDir {
      RoundUnderflows(p, lo);
      return Underflow, len;
    }
    assert p[d + 1..lo] == s[d + 1..lo];
    RoundKeepsResolved(p, lo, d);
    assert s[..d] + s[lo + 3..len] == p[..d] + p[lo + 3..];
    n := Cut(s, len, d, lo + 2);
    assert s[..n] == p[..d] + p[lo + 3..];
    assert s[0] == s[..n][0] == p[0];
    r := Removed;
  }

  lemma ResolvedLength(p: string, segs: seq<string>, e: Option<seq<string>>)
    requires |segs| >= 1 && Join(segs) == p && e == Some(Rooted(segs))
    ensures TooShort(e) <==> |p| < 2
  {
  }

  /** remove_dot_dot: repeated removal of the leftmost ".." is the evaluation on a stack.
      The search reads beyond the string exactly if fewer than two characters are left. */
  method RemoveDotDot(s: array<char>, len: nat) returns (ret: int, n: nat, overrun: bool)
    requires len <= s.Length
    modifies s
    ensures n <= len && (n == len ==> s[..n] == old(s[..len])) && (len > 0 ==> n > 0 && s[0] == old(s[0]))
    ensures overrun <==> TooShort(Resolve(Split(old(s[..len]))))
    ensures !overrun ==>
              var e := Resolve(Split(old(s[..len])));
              if e.None? then ret == -2
              else Rooted(Split(s[..n])) == e.value && ret == if n < len then -1 else 0
  {
    ghost var e := Resolve(Split(s[..len]));
    n := len;
    // below 2, n - 2 wraps around
    while n >= 2
      invariant n <= len && (len > 0 ==> n > 0 && s[0] == old(s[0]))
      invariant Resolve(Split(s[..n])) == e
      invariant n == len ==> s[..n] == old(s[..len])
      decreases n
    {
      var r;
      r, n := RemoveFirst(s, n);
      if r.Underflow? {
        return -2, n, false;
      } else if r.Clean? {
        JoinSplit(s[..n]);
        ResolvedLength(s[..n], Split(s[..n]), e);
        return if n < len then -1 else 0, n, false;
      }
    }
    ShortHasNoDots(s[..n]);
    JoinSplit(s[..n]);
    ResolvedLength(s[..n], Split(s[..n]), e);
    ret, overrun := 0, true;
  }

  // ----- check_uri_chars -----

  predicate BadChar(c: char) {
    c < ' ' || '~' < c || c in " \"#$<>?\\^`{|}\n"
  }

  /** What the collapsing pass writes for the rest of the input, after `prev`. */
  function Squeeze(prev: char, q: string): string
    decreases |q|
  {
    if q == "" then ""
    else if q[0] == '/' && prev == '/' then Squeeze(prev, q[1..])
    else if q[0] == '.' && prev == '/' && (|q| == 1 || q[1] == '/') then Squeeze(prev, if |q| == 1 then "" else q[2..])
    else [q[0]] + Squeeze(q[0], q[1..])
  }

  lemma CollapsedFirst(c: char, r: seq<string>)
    requires |r| >= 1 && c != '/' && (c != '.' || r[0] != "")
    ensures Collapsed(Prepend(c, r)) == Tidy(Prepend(c, r))
  {
    var w := [c] + r[0];
    assert Prepend(c, r) == [w] + r[1..];
    assert w != "." by {
      assert w[0] == c && |w| == 1 + |r[0]|;
    }
    assert |r| > 1 ==> Tidy(Prepend(c, r)) == [w] + Tidy(Prepend(c, r)[1..]);
  }

  /** Inside a segment everything is kept up to the next slash. */
  lemma {:induction false} SqueezeInside(prev: char, q: string)
    requires prev != '/'
    ensures Split(Squeeze(prev, q)) == Collapsed(Split(q))
    decreases |q|, 1
  {
    if q == "" {
    } else {
      if q[0] == '/' {
        SqueezeBehindSlash(q[1..]);
      } else {
        SqueezeInside(q[0], q[1..]);
      }
    }
  }

  /** Behind a slash, empty and "." segments go. */
  lemma {:induction false} SqueezeBehindSlash(q: string)
    ensures Split(Squeeze('/', q)) == Tidy(Split(q))
    decreases |q|, 0
  {
    if q == "" {
    } else {
      if q[0] == '/' {
        SqueezeBehindSlash(q[1..]);
      } else if q == "." {
        SplitPlain(q);
      } else if q[0] == '.' && q[1] == '/' {
        SqueezeBehindSlash(q[2..]);
        SplitAt(q, 1);
        SplitPlain(q[..1]);
        assert q[..1] == ".";
      } else {
        SqueezeInside(q[0], q[1..]);
        CollapsedFirst(q[0], Split(q[1..]));
      }
    }
  }

  lemma SqueezeCollapses(p: string)
    requires p != ""
    ensures Split([p[0]] + Squeeze(p[0], p[1..])) == Collapsed(Split(p))
  {
    if p[0] == '/' {
      SqueezeBehindSlash(p[1..]);
    } else {
      SqueezeInside(p[0], p[1..]);
    }
  }

  predicate LoneDot(p: string, i: nat)
    requires i < |p|
  {
    p[i] == '.' && (i + 1 == |p| || p[i + 1] == '/')
  }

  predicate DotPair(p: string, k: nat) {
    k + 1 < |p| && p[k] == '.' && p[k + 1] == '.'
  }

  ghost predicate NoDotPair(p: string) {
    forall k: nat :: !DotPair(p, k)
  }

  lemma NoDotPairSnoc(p: string, c: char)
    requires p != ""
    ensures NoDotPair(p + [c]) <==> NoDotPair(p) && !(p[|p| - 1] == '.' && c == '.')
  {
    assert forall k: nat :: k + 1 < |p| ==> (DotPair(p + [c], k) <==> DotPair(p, k));
    assert DotPair(p + [c], |p| - 1) <==> p[|p| - 1] == '.' && c == '.';
  }

  lemma {:induction false} SqueezeShortens(prev: char, q: string)
    ensures |Squeeze(prev, q)| <= |q|
    ensures |Squeeze(prev, q)| == |q| ==> Squeeze(prev, q) == q
    decreases |q|
  {
    if q == "" {
    } else {
      if q[0] == '/' && prev == '/' {
        SqueezeShortens(prev, q[1..]);
      } else if q[0] == '.' && prev == '/' && (|q| == 1 || q[1] == '/') {
        SqueezeShortens(prev, if |q| == 1 then "" else q[2..]);
      } else {
        SqueezeShortens(q[0], q[1..]);
        assert [q[0]] + q[1..] == q;
      }
    }
  }

  predicate EndsWithDot(p: string) {
    |p| >= 2 && p[|p| - 2] == '/' && p[|p| - 1] == '.'
  }

  /** `out` was written for the characters of p before i, the last of them `prev`. */
  ghost predicate Squeezed(p: string, i: nat, out: string, prev: char, whole: string) {
    && 1 <= |out| <= i <= |p| && out[|out| - 1] == prev && (prev == '/' <==> p[i - 1] == '/')
    && Completes(p, i, out, prev, whole) && (i == |p| ==> !EndsWithDot(p))
  }

  ghost predicate Completes(p: string, i: nat, out: string, prev: char, whole: string) {
    i <= |p| && out + Squeeze(prev, p[i..]) == whole
  }

  lemma SqueezeDrop(p: string, i: nat, out: string, prev: char, whole: string)
    requires Squeezed(p, i, out, prev, whole) && i < |p| && prev == '/'
    requires p[i] == '/' || (LoneDot(p, i) && i + 1 < |p|)
    ensures Squeezed(p, if p[i] == '/' then i + 1 else i + 2, out, prev, whole)
  {
  }

  lemma SqueezeCopy(p: string, i: nat, out: string, prev: char, whole: string)
    requires Squeezed(p, i, out, prev, whole) && i < |p|
    requires prev == '/' ==> p[i] != '/' && !LoneDot(p, i)
    ensures Squeezed(p, i + 1, out + [p[i]], p[i], whole)
    ensures NoDotPair(out + [p[i]]) <==> NoDotPair(out) && !(prev == '.' && p[i] == '.')
  {
    NoDotPairSnoc(out, p[i]);
  }

  lemma SqueezeDone(p: string, out: string, prev: char, whole: string)
    requires p != "" && Squeezed(p, |p|, out, prev, whole) && whole == [p[0]] + Squeeze(p[0], p[1..])
    ensures out == whole && (|out| == |p| ==> out == p)
  {
    assert p[|p|..] == "";
    SqueezeShortens(p[0], p[1..]);
    assert [p[0]] + p[1..] == p;
  }

  /** The collapsing pass, in place with two indices.  It reads beyond the string exactly
      if the string is empty or ends with "/.". */
  method Collapse(s: array<char>, len: nat) returns (n: nat, dots: bool, overrun: bool)
    requires len <= s.Length
    modifies s
    ensures overrun <==> len == 0 || EndsWithDot(old(s[..len]))
    ensures !overrun ==>
              && 1 <= n <= len && (n == len ==> s[..n] == old(s[..len]))
              && s[..n] == [old(s[0])] + Squeeze(old(s[0]), old(s[..len])[1..])
              && (dots <==> !NoDotPair(s[..n]))
  {
    if len == 0 {
      return 0, false, true;
    }
    ghost var p := s[..len];
    ghost var out, whole := [p[0]], [p[0]] + Squeeze(p[0], p[1..]);
    var prev, i, j := s[0], 1, 1;
    dots, overrun := false, false;
    while i < len
      invariant Squeezed(p, i, out, prev, whole) && |out| == j && (dots <==> !NoDotPair(out))
      invariant forall k :: 0 <= k < j ==> s[k] == out[k]
      invariant forall k :: i <= k < len ==> s[k] == p[k]
    {
      var c := s[i];
      if c == '/' && prev == '/' {
        SqueezeDrop(p, i, out, prev, whole);
        i := i + 1;
      } else if c == '.' && prev == '/' && (i + 1 == len || s[i + 1] == '/') {
        if i + 1 == len {
          // the extra step goes over the end of the string
          return j, dots, true;
        }
        SqueezeDrop(p, i, out, prev, whole);
        i := i + 2;
      } else {
        if c == '.' && prev == '.' {
          dots := true;
        }
        SqueezeCopy(p, i, out, prev, whole);
        s[j] := c;
        out := out + [c];
        j, prev, i := j + 1, c, i + 1;
      }
    }
    n := j;
    assert s[..n] == out;
    SqueezeDone(p, out, prev, whole);
  }

  predicate Allowed(p: string) {
    forall c :: c in p ==> !BadChar(c)
  }

  method HasBadChar(s: array<char>, len: nat) returns (bad: bool)
    requires len <= s.Length
    ensures bad <==> !Allowed(s[..len])
  {
    for i := 0 to len
      invariant forall k :: 0 <= k < i ==> !BadChar(s[k])
    {
      if BadChar(s[i]) {
        assert s[..len][i] in s[..len];
        return true;
      }
    }
    return false;
  }

  lemma NoPairsNoDots(p: string)
    requires NoDotPair(p)
    ensures Resolve(Split(p)) == Some(Rooted(Split(p)))
  {
    assert forall j: nat :: DotsAt(p, j) ==> DotPair(p, j + 1);
    NoDotsAtAll(p);
  }

  /** The path after both passes; None if ".." would remove the authority. */
  function Cleaned(p: string): (r: Option<seq<string>>)
    ensures r.Some? ==> |r.value| >= 1
  {
    Resolve(Collapsed(Split(p)))
  }

  /** The path is empty or ends with "/.", or the removal of ".." leaves fewer than two
      characters of it. */
  predicate Overruns(p: string) {
    Allowed(p) && (p == "" || EndsWithDot(p) || (TooShort(Cleaned(p)) && |Join(Collapsed(Split(p)))| >= 2))
  }

  /** check_uri_chars.  It reads beyond the string exactly on paths of that kind. */
  method CheckUriChars(s: array<char>, len: nat) returns (ret: int, n: nat, overrun: bool)
    requires len <= s.Length
    modifies s
    ensures overrun <==> Overruns(old(s[..len]))
    ensures n <= len && (!overrun && ret != -2 ==> n > 0 && s[0] == old(s[..len])[0])
    ensures !overrun ==>
              var p := old(s[..len]);
              if !Allowed(p) || Cleaned(p).None? then ret == -2
              else && Rooted(Split(s[..n])) == Cleaned(p).value && ret == (if n < len then -1 else 0)
                   && (n == len ==> s[..n] == p)
  {
    n, overrun := len, false;
    var bad := HasBadChar(s, len);
    if bad {
      return -2, n, false;
    }
    ghost var p := s[..len];
    var dots;
    n, dots, overrun := Collapse(s, len);
    if overrun {
      return 0, len, true;
    }
    SqueezeCollapses(p);
    ghost var q := s[..n];
    JoinSplit(q);
    if dots {
      ret, n, overrun := RemoveDotDot(s, n);
      if overrun || ret == -2 {
        return;
      }
    } else {
      NoPairsNoDots(q);
    }
    ret := if n < len then -1 else 0;
  }

  // ----- check_trailing_slash -----

  /** The first slash from `i` on, or len. */
  method FindSlash(s: array<char>, i: nat, len: nat) returns (k: nat)
    requires len <= s.Length
    ensures if i <= len then i <= k <= len else k == i
    ensures k < len ==> s[k] == '/'
    ensures forall m :: i <= m < k && m < len ==> s[m] != '/'
  {
    k := i;
    while k < len && s[k] != '/'
      invariant i <= k && (i <= len ==> k <= len) && (i > len ==> k == i)
      invariant forall m :: i <= m < k ==> s[m] != '/'
    {
      k := k + 1;
    }
  }

  lemma SplitFirst(p: string, a: nat)
    requires a < |p| && p[a] == '/' && forall k :: 0 <= k < a ==> p[k] != '/'
    ensures Split(p) == [p[..a]] + Split(p[a + 1..])
  {
    SplitAt(p, a);
    SplitPlain(p[..a]);
  }

  lemma SplitSecond(p: string, a: nat, m: nat)
    requires a + 1 < m <= |p| && (m < |p| ==> p[m] == '/') && forall k :: a < k < m ==> p[k] != '/'
    ensures Split(p[a + 1..]) == [p[a + 1..m]] + if m < |p| then Split(p[m + 1..]) else []
  {
    var v, w := p[a + 1..], m - a - 1;
    assert v[..w] == p[a + 1..m];
    if m < |p| {
      assert v[w + 1..] == p[m + 1..];
      SplitFirst(v, w);
    } else {
      assert v == v[..w];
      SplitPlain(v[..w]);
    }
  }

  lemma {:induction false} LastSegment(p: string)
    ensures Split(p)[|Split(p)| - 1] == "" <==> p == "" || p[|p| - 1] == '/'
  {
    if p == "" {
    } else {
      LastSegment(p[1..]);
    }
  }

  lemma DropSlash(p: string)
    requires p != "" && p[|p| - 1] == '/'
    ensures Split(p) == Split(p[..|p| - 1]) + [""]
  {
    SplitAt(p, |p| - 1);
  }

  /** Behind the authority, only the last segment may be empty. */
  predicate NoGaps(segs: seq<string>) {
    forall m :: 1 <= m < |segs| - 1 ==> segs[m] != ""
  }

  lemma TrailNoAuthority(p: string)
    requires p != "" && (p[0] == '/' || '/' !in p)
    ensures Trail(Split(p)) == None
  {
    if p[0] == '/' {
      SplitFirst(p, 0);
    } else {
      SplitPlain(p);
    }
  }

  lemma TrailNoModule(p: string, a: nat)
    requires |p| == a + 1 && p[a] == '/' && forall k :: 0 <= k < a ==> p[k] != '/'
    ensures Trail(Split(p)) == None
  {
    SplitFirst(p, a);
    assert p[a + 1..] == "";
  }

  lemma TrailModule(p: string, a: nat)
    requires 0 < a < |p| - 1 && p[a] == '/' && forall k :: 0 <= k < |p| && k != a ==> p[k] != '/'
    ensures Trail(Split(p)) == if |p| + |RSYNC_SCHEME| + 1 > DB_URI_LEN then None else Some(Split(p + "/"))
  {
    JoinSplit(p);
    SplitFirst(p, a);
    SplitSecond(p, a, |p|);
    assert Split(p)[1] == p[a + 1..|p|] && |Split(p)[1]| > 0;
    SplitConcat(p, "");
    assert p + "/" + "" == p + "/";
  }

  lemma ThreeSegments(p: string, a: nat, m: nat) returns (rest: seq<string>)
    requires 0 < a && a + 1 < m < |p| && p[a] == '/' && p[m] == '/'
    requires forall k :: 0 <= k < m && k != a ==> p[k] != '/'
    ensures rest == Split(p[m + 1..]) && |Split(p)| == 2 + |rest|
    ensures Split(p)[0] == p[..a] != "" && Split(p)[1] == p[a + 1..m] != ""
  {
    SplitFirst(p, a);
    SplitSecond(p, a, m);
    rest := Split(p[m + 1..]);
  }

  lemma ShortRest(q: string)
    ensures |Split(q)| == 1 <==> '/' !in q
  {
    if '/' in q {
      var k :| 0 <= k < |q| && q[k] == '/';
      SplitAt(q, k);
    } else {
      SplitPlain(q);
    }
  }

  lemma TrailLong(segs: seq<string>, front: seq<string>)
    requires |segs| >= 3 && segs[0] != "" && segs == front + [""]
    ensures |segs| > 3 ==> Trail(segs) == Some(front)
    ensures |segs| == 3 ==> Trail(segs) == Some(segs)
  {
    assert segs[..|segs| - 1] == front;
  }

  lemma TrailShort(segs: seq<string>)
    requires |segs| >= 3 && segs[0] != "" && segs[|segs| - 1] != ""
    ensures Trail(segs) == Some(segs)
  {
  }

  lemma TrailPath(p: string, a: nat, m: nat)
    requires 0 < a && a + 1 < m < |p| && p[a] == '/' && p[m] == '/'
    requires forall k :: 0 <= k < m && k != a ==> p[k] != '/'
    ensures Trail(Split(p)) == Some(if m == |p| - 1 || p[|p| - 1] != '/' then Split(p) else Split(p[..|p| - 1]))
  {
    var rest := ThreeSegments(p, a, m);
    if p[|p| - 1] == '/' {
      RestAfterModule(p, m, rest);
      DropSlash(p);
      TrailLong(Split(p), Split(p[..|p| - 1]));
    } else {
      LastSegment(p);
      TrailShort(Split(p));
    }
  }

  lemma RestAfterModule(p: string, m: nat, rest: seq<string>)
    requires m < |p| && p[|p| - 1] == '/' && rest == Split(p[m + 1..])
    ensures |rest| == 1 <==> m == |p| - 1
  {
    ShortRest(p[m + 1..]);
    if m < |p| - 1 {
      assert p[m + 1..][|p| - m - 2] == '/';
    }
  }

  lemma Gap(p: string, a: nat)
    requires 0 < a < |p| - 1 && p[a] == '/' && p[a + 1] == '/' && forall k :: 0 <= k < a ==> p[k] != '/'
    ensures !NoGaps(Split(p))
  {
    SplitFirst(p, a);
    SplitFirst(p[a + 1..], 0);
    assert Split(p)[1] == "";
  }

  lemma NoGap(p: string, a: nat)
    requires 0 < a < |p| && p[a] == '/' && (forall k :: 0 <= k < a ==> p[k] != '/') && NoGaps(Split(p))
    ensures a < |p| - 1 ==> p[a + 1] != '/'
  {
    if a < |p| - 1 && p[a + 1] == '/' {
      Gap(p, a);
    }
  }

  /** How far the URI goes. */
  datatype Ends = NoAuthority | NoModule | ModuleOnly | ModuleEnds(at: nat)

  /** The authority ends at `a`, and the module where `e` says. */
  predicate Found(p: string, e: Ends, a: nat) {
    match e
    case NoAuthority => p != "" && (p[0] == '/' || '/' !in p)
    case NoModule => |p| == a + 1 && p[a] == '/' && forall k :: 0 <= k < a ==> p[k] != '/'
    case ModuleOnly => 0 < a < |p| - 1 && p[a] == '/' && forall k :: 0 <= k < |p| && k != a ==> p[k] != '/'
    case ModuleEnds(m) =>
      0 < a && a + 1 < m < |p| && p[a] == '/' && p[m] == '/' && forall k :: 0 <= k < m && k != a ==> p[k] != '/'
  }

  /** The string that check_trailing_slash leaves; None if it fails. */
  function Edited(p: string, e: Ends): Option<string>
    requires p != ""
  {
    match e
    case NoAuthority => None
    case NoModule => None
    case ModuleOnly => if |p| + |RSYNC_SCHEME| + 1 > DB_URI_LEN then None else Some(p + "/")
    case ModuleEnds(at) => Some(if at == |p| - 1 || p[|p| - 1] != '/' then p else p[..|p| - 1])
  }

  function SplitOf(q: Option<string>): Option<seq<string>> {
    if q.None? then None else Some(Split(q.value))
  }

  lemma EditedIsTrail(p: string, e: Ends, a: nat)
    requires p != "" && Found(p, e, a)
    ensures Trail(Split(p)) == SplitOf(Edited(p, e))
  {
    match e
    case NoAuthority => TrailNoAuthority(p);
    case NoModule => TrailNoModule(p, a);
    case ModuleOnly => TrailModule(p, a);
    case ModuleEnds(m) => TrailPath(p, a, m);
  }

  /** check_trailing_slash's search for the ends of the authority and the module. */
  method FindEnds(s: array<char>, len: nat) returns (e: Ends, ghost a: nat)
    requires 1 <= len <= s.Length && (s[0] == '/' || NoGaps(Split(s[..len])))
    ensures Found(s[..len], e, a)
  {
    ghost var p := s[..len];
    var i := FindSlash(s, 0, len);
    a := i;
    if i == 0 || i == len {
      return NoAuthority, a;
    }
    NoGap(p, i);
    var j := FindSlash(s, i + 2, len);
    if i == len - 1 {
      e := NoModule;
    } else if j >= len {
      e := ModuleOnly;
    } else {
      e := ModuleEnds(j);
    }
  }

  method EditEnd(s: array<char>, len: nat, e: Ends) returns (ret: int, n: nat)
    requires 1 <= len < s.Length
    modifies s
    ensures n <= len + 1
    ensures var q := Edited(old(s[..len]), e);
            if q.None? then ret == -2 || ret == -3
            else s[..n] == q.value && ret == (if n == len then 0 else -1) && (n == len ==> s[..n] == old(s[..len]))
  {
    ghost var p := s[..len];
    n := len;
    match e {
      case NoAuthority => ret := -2;
      case NoModule => ret := -2;
      case ModuleOnly =>
        if len + |RSYNC_SCHEME| + 1 > DB_URI_LEN {
          ret := -3;
        } else {
          s[len] := '/';
          ret, n := -1, len + 1;
          assert s[..n] == p + "/";
        }
      case ModuleEnds(at) =>
        if at == len - 1 || s[len - 1] != '/' {
          ret := 0;
        } else {
          ret, n := -1, len - 1;
          assert s[..n] == p[..len - 1];
        }
    }
  }

  /** check_trailing_slash, after "//" has been collapsed. */
  method CheckTrailingSlash(s: array<char>, len: nat) returns (ret: int, n: nat)
    requires 1 <= len < s.Length && (s[0] == '/' || NoGaps(Split(s[..len])))
    modifies s
    ensures n <= len + 1
    ensures var t := Trail(Split(old(s[..len])));
            if t.None? then ret == -2 || ret == -3
            else && Split(s[..n]) == t.value && ret == (if n == len then 0 else -1)
                 && (n == len ==> s[..n] == old(s[..len]))
  {
    var e, a := FindEnds(s, len);
    EditedIsTrail(s[..len], e, a);
    ret, n := EditEnd(s, len, e);
  }
}
