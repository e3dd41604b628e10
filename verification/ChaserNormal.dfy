/** The chaser's whole normalisation of one URI behind its scheme (bin/rpki/chaser.c):
    check_uri_chars, then check_trailing_slash. */
module ChaserNormal {
  import opened Options
  import opened ChaserSegments
  import opened ChaserPath

  /** The normalised path; None if the URI is dropped. */
  function NormalForm(p: string): Option<seq<string>> {
    if Allowed(p) then Normal(Split(p)) else None
  }

  lemma NoGapsLeft(segs: seq<string>)
    requires |segs| >= 1 && Eval(Collapsed(segs)).Some?
    ensures NoGaps(Eval(Collapsed(segs)).value)
  {
    EvalIsPlain(segs);
    var e := Eval(Collapsed(segs)).value;
    assert forall m :: 1 <= m < |e| ==> e[1..][m - 1] == e[m];
  }

  /** An empty authority has no normal form, whatever becomes of the rest. */
  lemma NoAuthorityNoForm(p: string)
    requires p == "" || p[0] == '/'
    ensures NormalForm(p) == None
  {
    EvalIsPlain(Split(p));
  }

  lemma CleanedIsEval(p: string)
    requires p != "" && p[0] != '/'
    ensures Cleaned(p) == Eval(Collapsed(Split(p)))
  {
    assert Split(p)[0] != "";
  }

  /** The same path without its being rooted. */
  lemma RootedIsSplit(q: string)
    requires q != "" && q[0] != '/'
    ensures Rooted(Split(q)) == Split(q)
  {
  }

  /** check_uri_chars and check_trailing_slash on a string with room for one more
      character. */
  method Normalise(s: array<char>, len: nat) returns (kept: bool, changed: bool, n: nat, overrun: bool)
    requires len < s.Length
    modifies s
    ensures overrun <==> Overruns(old(s[..len]))
    ensures n <= len + 1
    ensures !overrun ==>
              var t := NormalForm(old(s[..len]));
              if t.None? then !kept
              else kept && Split(s[..n]) == t.value && (!changed ==> s[..n] == old(s[..len]))
  {
    ghost var p := s[..len];
    kept, changed := false, false;
    var ret;
    ret, n, overrun := CheckUriChars(s, len);
    if overrun {
      return;
    }
    if p[0] == '/' {
      NoAuthorityNoForm(p);
    } else {
      CleanedIsEval(p);
    }
    if ret == -2 {
      return;
    }
    ghost var q := s[..n];
    assert q[0] == s[0];
    if s[0] == '/' {
      TrailNoAuthority(q);
    } else {
      RootedIsSplit(q);
      NoGapsLeft(Split(p));
    }
    changed := ret == -1;
    ret, n := CheckTrailingSlash(s, n);
    if ret == -2 || ret == -3 {
      return;
    }
    kept, changed := true, changed || ret == -1;
  }

  // ----- normalising twice -----

  predicate SlashFree(segs: seq<string>) {
    forall m :: 0 <= m < |segs| ==> '/' !in segs[m]
  }

  lemma {:induction false} SplitJoin(segs: seq<string>)
    requires |segs| >= 1 && SlashFree(segs)
    ensures Split(Join(segs)) == segs
  {
    SplitPlain(segs[0]);
    if |segs| == 1 {
    } else {
      SplitJoin(segs[1..]);
      SplitConcat(segs[0], Join(segs[1..]));
    }
  }

  lemma {:induction false} SplitIsSlashFree(p: string)
    ensures SlashFree(Split(p))
    ensures forall m :: 0 <= m < |Split(p)| ==> forall c :: c in Split(p)[m] ==> c in p
  {
    if p == "" {
    } else {
      SplitIsSlashFree(p[1..]);
    }
  }

  /** Every segment is an old one, or empty. */
  predicate Among(segs: seq<string>, from: seq<string>) {
    forall m :: 0 <= m < |segs| ==> segs[m] in from || segs[m] == ""
  }

  lemma {:induction false} TidyAmong(segs: seq<string>)
    requires |segs| >= 1
    ensures Among(Tidy(segs), segs)
  {
    if |segs| == 1 {
    } else {
      TidyAmong(segs[1..]);
    }
  }

  lemma {:induction false} StackAmong(done: seq<string>, todo: seq<string>, from: seq<string>)
    requires |done| >= 1 && Among(done, from) && Among(todo, from)
    ensures Stack(done, todo).Some? ==> Among(Stack(done, todo).value, from)
    decreases |todo|
  {
    if todo == [] {
    } else {
      if todo[0] != ".." {
        StackAmong(done + [todo[0]], todo[1..], from);
      } else if |done| > 1 {
        StackAmong(done[..|done| - 1], todo[1..], from);
      }
    }
  }

  lemma NormalAmong(segs: seq<string>)
    requires |segs| >= 1 && Normal(segs).Some?
    ensures |Normal(segs).value| >= 1 && Among(Normal(segs).value, segs)
  {
    var c := Collapsed(segs);
    if |segs| > 1 {
      TidyAmong(segs[1..]);
      assert c[1..] == Tidy(segs[1..]);
    }
    StackAmong([c[0]], c[1..], segs);
  }

  /** Characters of a joined path are slashes, or characters of a segment. */
  lemma {:induction false} CharsOfJoin(segs: seq<string>, c: char)
    requires |segs| >= 1 && c in Join(segs) && c != '/'
    ensures exists m :: 0 <= m < |segs| && c in segs[m]
  {
    if |segs| == 1 || c in segs[0] {
    } else {
      CharsOfJoin(segs[1..], c);
      var m :| 0 <= m < |segs| - 1 && c in segs[1..][m];
      assert c in segs[m + 1];
    }
  }

  lemma NormalHasGoodChars(p: string, t: seq<string>)
    requires NormalForm(p) == Some(t) && |t| >= 1 && Among(t, Split(p))
    ensures forall c :: c in Join(t) ==> !BadChar(c)
  {
    SplitIsSlashFree(p);
    forall c | c in Join(t)
      ensures !BadChar(c)
    {
      if c != '/' {
        CharsOfJoin(t, c);
      }
    }
  }

  /** Normalising is idempotent: a normalised path is kept as it is. */
  lemma Idempotent(p: string)
    requires NormalForm(p).Some?
    ensures |NormalForm(p).value| >= 1
    ensures Split(Join(NormalForm(p).value)) == NormalForm(p).value
    ensures NormalForm(Join(NormalForm(p).value)) == NormalForm(p)
  {
    var segs := Split(p);
    var t := Normal(segs).value;
    NormalAmong(segs);
    SplitIsSlashFree(p);
    assert SlashFree(t);
    SplitJoin(t);
    NormalTwice(segs);
    NormalHasGoodChars(p, t);
  }

  /** A normalised path can be normalised again without reading beyond it. */
  lemma NormalNeverOverruns(p: string)
    requires NormalForm(p).Some?
    ensures |NormalForm(p).value| >= 1 && !Overruns(Join(NormalForm(p).value))
  {
    var t := NormalForm(p).value;
    var q := Join(t);
    Idempotent(p);
    NormalIsPlain(Split(p));
    if EndsWithDot(q) {
      LastIsDot(q);
      assert t[1..][|t| - 2] == t[|t| - 1];
    }
    PlainIsNormal(t);
  }

  lemma LastIsDot(q: string)
    requires EndsWithDot(q)
    ensures Split(q)[|Split(q)| - 1] == "."
  {
    SplitAt(q, |q| - 2);
    assert q[|q| - 1..] == ".";
    SplitPlain(q[|q| - 1..]);
  }
}
