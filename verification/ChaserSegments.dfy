/** Paths as sequences of segments, and what the chaser's normalisation means on them
    (bin/rpki/chaser.c). */
module ChaserSegments {
  import opened Options

  /** One character in front of the segments. */
  function Prepend(c: char, segs: seq<string>): seq<string>
    requires |segs| >= 1
  {
    if c == '/' then [""] + segs else [[c] + segs[0]] + segs[1..]
  }

  function Split(p: string): (r: seq<string>)
    ensures |r| >= 1
  {
    if p == "" then [""]
    else
      Prepend(p[0], Split(p[1..]))
  }

  function Join(segs: seq<string>): string
    requires |segs| >= 1
  {
    if |segs| == 1 then segs[0] else segs[0] + "/" + Join(segs[1..])
  }

  lemma {:induction false} JoinSplit(p: string)
    ensures Join(Split(p)) == p
  {
    if p == "" {
    } else {
      JoinSplit(p[1..]);
      var rest := Split(p[1..]);
      if p[0] == '/' {
        assert Split(p)[1..] == rest;
      } else if |rest| == 1 {
        assert Split(p) == [[p[0]] + rest[0]];
      } else {
        assert Split(p)[1..] == rest[1..];
      }
    }
  }

  lemma PrependConcat(c: char, a: seq<string>, b: seq<string>)
    requires |a| >= 1
    ensures Prepend(c, a + b) == Prepend(c, a) + b
  {
    assert (a + b)[1..] == a[1..] + b;
  }

  lemma {:induction false} SplitConcat(u: string, v: string)
    ensures Split(u + "/" + v) == Split(u) + Split(v)
  {
    if u == "" {
      assert (u + "/" + v)[1..] == v;
    } else {
      SplitConcat(u[1..], v);
      assert u + "/" + v == [u[0]] + (u[1..] + "/" + v) && u == [u[0]] + u[1..];
      PrependConcat(u[0], Split(u[1..]), Split(v));
    }
  }

  lemma {:induction false} SplitPlain(p: string)
    requires '/' !in p
    ensures Split(p) == [p]
  {
    if p == "" {
    } else {
      SplitPlain(p[1..]);
      assert [p[0]] + p[1..] == p;
    }
  }

  lemma {:induction false} FirstSegment(p: string)
    ensures var w := Split(p)[0];
            w <= p && '/' !in w && (|w| == |p| || p[|w|] == '/')
  {
    if p == "" {
    } else {
      FirstSegment(p[1..]);
    }
  }

  // ----- ".." as a stack -----

  function Stack(done: seq<string>, todo: seq<string>): (r: Option<seq<string>>)
    requires |done| >= 1
    ensures r.Some? ==> |r.value| >= 1
    decreases |todo|
  {
    if todo == [] then Some(done)
    else if todo[0] != ".." then Stack(done + [todo[0]], todo[1..])
    else if |done| == 1 then None
    else Stack(done[..|done| - 1], todo[1..])
  }

  /** The authority stays at the bottom: taking it off is an error. */
  function Eval(segs: seq<string>): Option<seq<string>>
    requires |segs| >= 1
  {
    Stack([segs[0]], segs[1..])
  }

  predicate NoDots(segs: seq<string>) {
    forall m :: 0 <= m < |segs| ==> segs[m] != ".."
  }

  lemma {:induction false} StackPush(done: seq<string>, plain: seq<string>, more: seq<string>)
    requires |done| >= 1 && NoDots(plain)
    ensures Stack(done, plain + more) == Stack(done + plain, more)
    decreases |plain|
  {
    if plain == [] {
      assert plain + more == more && done + plain == done;
    } else {
      assert (plain + more)[1..] == plain[1..] + more;
      StackPush(done + [plain[0]], plain[1..], more);
      assert done + [plain[0]] + plain[1..] == done + plain;
    }
  }

  lemma EvalPlain(segs: seq<string>)
    requires |segs| >= 1 && NoDots(segs[1..])
    ensures Eval(segs) == Some(segs)
  {
    StackPush([segs[0]], segs[1..], []);
    assert segs[1..] + [] == segs[1..] && [segs[0]] + segs[1..] == segs;
  }

  /** Removing the leftmost ".." and the segment before it does not change the result. */
  lemma EvalRemove(x: seq<string>, b: string, y: seq<string>)
    requires |x| >= 1 && NoDots((x + [b])[1..])
    ensures Eval(x + [b] + ([".."] + y)) == Eval(x + y)
  {
    var u := x + [b];
    assert u[|x|] == b && u[1..][|x| - 1] == b;
    assert (u + ([".."] + y))[1..] == u[1..] + ([".."] + y);
    StackPush([x[0]], u[1..], [".."] + y);
    assert [x[0]] + u[1..] == u;
    assert ([".."] + y)[1..] == y && u[..|x|] == x;
    assert forall m :: 0 <= m < |x| - 1 ==> x[1..][m] == u[1..][m];
    assert (x + y)[1..] == x[1..] + y;
    StackPush([x[0]], x[1..], y);
    assert [x[0]] + x[1..] == x;
  }

  /** An empty authority is one with the segment behind it: the first character of the
      path is not looked at in the search for a slash. */
  function Rooted(segs: seq<string>): (r: seq<string>)
    requires |segs| >= 1
    ensures |r| >= 1 && Join(r) == Join(segs)
  {
    if segs[0] != "" || |segs| == 1 then segs
    else
      JoinMerged(segs);
      ["/" + segs[1]] + segs[2..]
  }

  lemma JoinMerged(segs: seq<string>)
    requires |segs| >= 2 && segs[0] == ""
    ensures Join(["/" + segs[1]] + segs[2..]) == Join(segs)
  {
    var r := ["/" + segs[1]] + segs[2..];
    assert r[1..] == segs[2..] == segs[1..][1..];
  }

  /** What remove_dot_dot makes of the segments. */
  function Resolve(segs: seq<string>): (r: Option<seq<string>>)
    requires |segs| >= 1
    ensures r.Some? ==> |r.value| >= 1
  {
    if segs[0] == "" && |segs| > 1 && segs[1] == ".." then None else Eval(Rooted(segs))
  }

  lemma RootedConcat(x: seq<string>, y: seq<string>)
    requires |x| >= 1 && (x[0] != "" || |x| >= 2)
    ensures Rooted(x + y) == Rooted(x) + y
  {
    if x[0] == "" {
      assert (x + y)[2..] == x[2..] + y;
    }
  }

  lemma ResolvePlain(segs: seq<string>)
    requires |segs| >= 1 && NoDots(segs[1..])
    ensures Resolve(segs) == Some(Rooted(segs))
  {
    var r := Rooted(segs);
    assert forall m :: 1 <= m < |segs| ==> segs[1..][m - 1] == segs[m];
    assert NoDots(r[1..]);
    EvalPlain(r);
  }

  /** Removing the leftmost ".." and the segment before it does not change that. */
  lemma ResolveRemove(x: seq<string>, b: string, y: seq<string>)
    requires |x| >= 1 && (x[0] != "" || |x| >= 2) && NoDots((x + [b])[1..])
    ensures Resolve(x + [b] + ([".."] + y)) == Resolve(x + y)
  {
    var u, r := x + [b], Rooted(x);
    assert forall m :: 1 <= m < |u| ==> u[1..][m - 1] == u[m];
    assert u + ([".."] + y) == x + ([b] + ([".."] + y));
    RootedConcat(x, [b] + ([".."] + y));
    RootedConcat(x, y);
    assert (r + [b])[1..] == if x[0] == "" then u[2..] else u[1..];
    EvalRemove(r, b, y);
    assert r + ([b] + ([".."] + y)) == r + [b] + ([".."] + y);
  }

  // ----- empty and "." segments -----

  /** Empty and "." segments go, but a path that ends with a slash keeps ending with one. */
  function Tidy(segs: seq<string>): (r: seq<string>)
    requires |segs| >= 1
    ensures |r| >= 1
  {
    if |segs| == 1 then (if segs[0] == "." then [""] else segs)
    else if segs[0] == "" || segs[0] == "." then Tidy(segs[1..])
    else [segs[0]] + Tidy(segs[1..])
  }

  /** The same behind the authority. */
  function Collapsed(segs: seq<string>): (r: seq<string>)
    requires |segs| >= 1
    ensures |r| >= 1
  {
    [segs[0]] + if |segs| == 1 then [] else Tidy(segs[1..])
  }

  // ----- the trailing slash -----

  const DB_URI_LEN := 1024
  const RSYNC_SCHEME := "rsync://"

  /** A module alone ends with a slash and a longer path does not; without an authority or
      a module, or when there is no room for the slash, the URI is dropped. */
  function Trail(segs: seq<string>): Option<seq<string>>
    requires |segs| >= 1
  {
    if |segs| == 1 || segs[0] == "" || (|segs| == 2 && segs[1] == "") then None
    else if |segs| == 2 then
      if |Join(segs)| + |RSYNC_SCHEME| + 1 > DB_URI_LEN then None else Some(segs + [""])
    else if |segs| > 3 && segs[|segs| - 1] == "" then Some(segs[..|segs| - 1])
    else Some(segs)
  }

  function Normal(segs: seq<string>): Option<seq<string>>
    requires |segs| >= 1
  {
    var e := Eval(Collapsed(segs));
    if e.None? then None else Trail(e.value)
  }

  // ----- normalising twice -----

  predicate Plain(w: string) {
    w != "" && w != "." && w != ".."
  }

  /** All segments are plain, except that the last may be empty. */
  predicate Plains(segs: seq<string>) {
    forall m :: 0 <= m < |segs| ==> Plain(segs[m]) || (m == |segs| - 1 && segs[m] == "")
  }

  /** The same before ".." is evaluated. */
  predicate Tidied(segs: seq<string>) {
    forall m :: 0 <= m < |segs| ==> segs[m] != "." && (m < |segs| - 1 ==> segs[m] != "")
  }

  lemma {:induction false} TidyIsTidied(segs: seq<string>)
    requires |segs| >= 1
    ensures Tidied(Tidy(segs))
  {
    if |segs| == 1 {
    } else {
      TidyIsTidied(segs[1..]);
    }
  }

  lemma {:induction false} TidyKeeps(segs: seq<string>)
    requires |segs| >= 1 && Tidied(segs)
    ensures Tidy(segs) == segs
  {
    if |segs| == 1 {
    } else {
      TidyKeeps(segs[1..]);
      assert [segs[0]] + segs[1..] == segs;
    }
  }

  /** Evaluation leaves plain segments; an empty one is left only at the end. */
  lemma {:induction false} StackPlain(done: seq<string>, todo: seq<string>)
    requires |done| >= 1 && Tidied(todo)
    requires forall m :: 1 <= m < |done| ==> Plain(done[m]) || (m == |done| - 1 && done[m] == "")
    requires todo != [] ==> forall m :: 1 <= m < |done| ==> Plain(done[m])
    ensures var r := Stack(done, todo); r.Some? ==> |r.value| >= 1 && r.value[0] == done[0] && Plains(r.value[1..])
    decreases |todo|
  {
    if todo == [] {
    } else {
      assert Tidied(todo[1..]);
      if todo[0] != ".." {
        StackPlain(done + [todo[0]], todo[1..]);
      } else if |done| > 1 {
        StackPlain(done[..|done| - 1], todo[1..]);
      }
    }
  }

  lemma EvalIsPlain(segs: seq<string>)
    requires |segs| >= 1
    ensures var e := Eval(Collapsed(segs)); e.Some? ==> |e.value| >= 1 && e.value[0] == segs[0] && Plains(e.value[1..])
  {
    var c := Collapsed(segs);
    if |segs| > 1 {
      TidyIsTidied(segs[1..]);
      assert c[1..] == Tidy(segs[1..]);
    }
    StackPlain([c[0]], c[1..]);
  }

  lemma PlainIsNormal(t: seq<string>)
    requires |t| >= 1 && Plains(t[1..])
    ensures Eval(Collapsed(t)) == Some(t)
  {
    if |t| > 1 {
      TidyKeeps(t[1..]);
    }
    assert Collapsed(t) == t;
    EvalPlain(t);
  }

  lemma NormalIsPlain(segs: seq<string>)
    requires |segs| >= 1 && Normal(segs).Some?
    ensures var t := Normal(segs).value; |t| >= 2 && t[0] == segs[0] != "" && Plains(t[1..])
  {
    EvalIsPlain(segs);
    var e := Eval(Collapsed(segs)).value;
    var t := Normal(segs).value;
    if |e| == 2 {
      assert Plain(e[1..][0]);
      assert t[1..] == [e[1], ""];
    } else if |e| > 3 && e[|e| - 1] == "" {
      assert forall m :: 0 <= m < |t| - 1 ==> t[1..][m] == e[1..][m];
    }
  }

  /** Normalising a normalised path changes nothing. */
  lemma NormalTwice(segs: seq<string>)
    requires |segs| >= 1 && Normal(segs).Some?
    ensures |Normal(segs).value| >= 1 && Normal(Normal(segs).value) == Normal(segs)
  {
    EvalIsPlain(segs);
    NormalIsPlain(segs);
    var e := Eval(Collapsed(segs)).value;
    var t := Normal(segs).value;
    PlainIsNormal(t);
    assert |t| > 3 ==> t[1..][|t| - 2] == t[|t| - 1];
    assert |e| > 3 && e[|e| - 1] == "" ==> e[1..][|e| - 3] == e[|e| - 2];
  }
}
