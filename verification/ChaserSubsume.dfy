/** The chaser's list of URIs (bin/rpki/chaser.c): after sorting, URIs under another one
    are struck out, and the list is compacted. */
module ChaserSubsume {
  import opened Options

  // ----- order and subsumption -----

  type Uri = s: string | s != "" witness "a"

  /** strcmp(a, b) <= 0. */
  predicate AtMost(a: string, b: string) {
    a == "" || (b != "" && (a[0] < b[0] || (a[0] == b[0] && AtMost(a[1..], b[1..]))))
  }

  /** is_subsumed: b is a, or a file or directory under it. */
  predicate Subsumed(a: Uri, b: Uri) {
    a <= b && (|a| == |b| || a[|a| - 1] == '/' || b[|a|] == '/')
  }

  ghost predicate Sorted(us: seq<Uri>) {
    forall i, j :: 0 <= i < j < |us| ==> AtMost(us[i], us[j])
  }

  /** Strings with a common prefix stand together. */
  lemma {:induction false} PrefixesTogether(a: string, c: string, b: string)
    requires AtMost(a, c) && AtMost(c, b) && a <= b
    ensures a <= c
  {
    if a == "" {
    } else {
      assert a[0] == b[0] && a[1..] <= b[1..];
      PrefixesTogether(a[1..], c[1..], b[1..]);
      assert a == [a[0]] + a[1..] && c == [c[0]] + c[1..];
    }
  }

  lemma {:induction false} Antisymmetric(a: string, b: string)
    requires AtMost(a, b) && AtMost(b, a)
    ensures a == b
  {
    if a == "" || b == "" {
    } else {
      Antisymmetric(a[1..], b[1..]);
      assert a == [a[0]] + a[1..] && b == [b[0]] + b[1..];
    }
  }

  /** Behind a common prefix the next characters decide. */
  lemma {:induction false} NextDecides(a: string, c: string, b: string)
    requires a <= c && a <= b && |a| < |c| && |a| < |b| && c[|a|] < b[|a|]
    ensures AtMost(c, b) && !AtMost(b, c)
  {
    if a == "" {
    } else {
      assert a[0] == c[0] && a[0] == b[0];
      NextDecides(a[1..], c[1..], b[1..]);
    }
  }

  // ----- striking out -----

  /** The index `lo` of the loop in main after the URIs up to k were looked at. */
  function Lo(us: seq<Uri>, k: nat): (lo: nat)
    requires k < |us|
    ensures lo <= k
  {
    if k == 0 then 0
    else
      var lo := Lo(us, k - 1);
      if Subsumed(us[lo], us[k]) then lo else k
  }

  predicate Kept(us: seq<Uri>, k: nat)
    requires k < |us|
  {
    Lo(us, k) == k
  }

  /** The kept URIs in their places. */
  function Entries(us: seq<Uri>): (r: seq<Option<Uri>>)
    ensures |r| == |us|
  {
    seq(|us|, k requires 0 <= k < |us| => if Kept(us, k) then Some(us[k]) else None)
  }

  /** What the loop leaves at each index, and the index `lo` behind it. */
  ghost predicate Strikes(us: seq<Uri>, left: seq<Option<Uri>>, los: seq<nat>) {
    && |left| == |us| == |los|
    && (us != [] ==> left[0] == Some(us[0]) && los[0] == 0)
    && forall k {:trigger left[k]} :: 0 < k < |us| ==>
         && los[k - 1] < k
         && var struck := Subsumed(us[los[k - 1]], us[k]);
            left[k] == (if struck then None else Some(us[k])) && los[k] == if struck then los[k - 1] else k
  }

  lemma EntriesStrike(us: seq<Uri>) returns (los: seq<nat>)
    ensures Strikes(us, Entries(us), los)
  {
    los := seq(|us|, k requires 0 <= k < |us| => Lo(us, k));
  }

  /** The loop that removes subsumed entries. */
  method StrikeOut(uris: array<Option<Uri>>, ghost us: seq<Uri>, ghost left: seq<Option<Uri>>, ghost los: seq<nat>)
    requires |us| == uris.Length && forall i :: 0 <= i < |us| ==> uris[i] == Some(us[i])
    requires Strikes(us, left, los)
    modifies uris
    ensures uris[..] == left
  {
    var lo, hi := 0, 1;
    while hi < uris.Length
      invariant 1 <= hi && (uris.Length > 0 ==> lo < hi <= uris.Length && lo == los[hi - 1] && uris[lo] == Some(us[lo]))
      invariant forall k :: 0 <= k < |us| ==> uris[k] == if k < hi then left[k] else Some(us[k])
    {
      assert left[hi] == if Subsumed(us[lo], us[hi]) then None else Some(us[hi]);
      if Subsumed(uris[lo].value, uris[hi].value) {
        uris[hi] := None;
      } else {
        lo := hi;
      }
      hi := hi + 1;
    }
  }

  method RemoveSubsumed(uris: array<Option<Uri>>, ghost us: seq<Uri>)
    requires |us| == uris.Length && forall i :: 0 <= i < |us| ==> uris[i] == Some(us[i])
    modifies uris
    ensures uris[..] == Entries(us)
  {
    ghost var los := EntriesStrike(us);
    StrikeOut(uris, us, Entries(us), los);
  }

  /** Every URI is subsumed by a kept one. */
  lemma {:induction false} EveryUriCovered(us: seq<Uri>, k: nat)
    requires Sorted(us) && k < |us|
    ensures Kept(us, Lo(us, k)) && Subsumed(us[Lo(us, k)], us[k])
  {
    if k == 0 {
    } else {
      EveryUriCovered(us, k - 1);
    }
  }

  lemma {:induction false} LoGrows(us: seq<Uri>, i: nat, k: nat)
    requires Sorted(us) && i <= k < |us|
    ensures Lo(us, i) <= Lo(us, k)
  {
    if i == k {
    } else {
      LoGrows(us, i, k - 1);
    }
  }

  /** Kept URIs are strictly increasing. */
  lemma KeptIncrease(us: seq<Uri>, i: nat, j: nat)
    requires Sorted(us) && i < j < |us| && Kept(us, i) && Kept(us, j)
    ensures AtMost(us[i], us[j]) && us[i] != us[j]
  {
    if us[i] == us[j] {
      LoGrows(us, i, j - 1);
      var lo := Lo(us, j - 1);
      assert i == lo || AtMost(us[i], us[lo]);
      Antisymmetric(us[lo], us[j]);
    }
  }

  /** While all that follow are under URI i, it stays the current one. */
  lemma {:induction false} Covers(us: seq<Uri>, i: nat, j: nat)
    requires Sorted(us) && i <= j < |us| && Kept(us, i)
    requires forall k :: i < k <= j ==> Subsumed(us[i], us[k])
    ensures Lo(us, j) == i
  {
    if i == j {
    } else {
      Covers(us, i, j - 1);
    }
  }

  /** Nothing kept lies under a kept URI that ends with a slash. */
  lemma NothingUnderSlash(us: seq<Uri>, i: nat, j: nat)
    requires Sorted(us) && i < |us| && j < |us| && i != j && Kept(us, i) && Kept(us, j)
    requires us[i][|us[i]| - 1] == '/'
    ensures !(us[i] <= us[j])
  {
    if us[i] <= us[j] {
      if i < j {
        forall k | i < k <= j
          ensures Subsumed(us[i], us[k])
        {
          if k < j {
            PrefixesTogether(us[i], us[k], us[j]);
          }
        }
        Covers(us, i, j);
      } else {
        PrefixIsAtMost(us[i], us[j]);
        Antisymmetric(us[i], us[j]);
        KeptIncrease(us, j, i);
      }
    }
  }

  lemma {:induction false} PrefixIsAtMost(a: string, b: string)
    requires a <= b
    ensures AtMost(a, b)
  {
    if a == "" {
    } else {
      PrefixIsAtMost(a[1..], b[1..]);
    }
  }

  // ----- when something under a kept URI is kept all the same -----

  ghost predicate KeptUnder(us: seq<Uri>, i: nat)
    requires i < |us|
  {
    exists j: nat :: j < |us| && j != i && Kept(us, j) && Subsumed(us[i], us[j])
  }

  /** Between URI i and one under it stands one that starts with it but is not under it. */
  predicate Between(us: seq<Uri>, i: nat, c: nat, b: nat) {
    i < c < b < |us| && us[i] <= us[c] && !Subsumed(us[i], us[c]) && Subsumed(us[i], us[b])
  }

  ghost predicate Interrupted(us: seq<Uri>, i: nat) {
    exists c: nat, b: nat :: Between(us, i, c, b)
  }

  lemma KeptUnderIsInterrupted(us: seq<Uri>, i: nat, j: nat)
    requires Sorted(us) && i < |us| && j < |us| && i != j && Kept(us, i) && Kept(us, j) && Subsumed(us[i], us[j])
    ensures Interrupted(us, i)
  {
    if j < i {
      PrefixIsAtMost(us[i], us[j]);
      Antisymmetric(us[i], us[j]);
      KeptIncrease(us, j, i);
    } else {
      if forall k :: i < k <= j ==> Subsumed(us[i], us[k]) {
        Covers(us, i, j);
      }
      var c :| i < c <= j && !Subsumed(us[i], us[c]);
      PrefixesTogether(us[i], us[c], us[j]);
      assert Between(us, i, c, j);
    }
  }

  /** A URI that sorts behind one starting with a but not under a, and is under a, goes on
      with a slash. */
  lemma GoesOnWithSlash(a: Uri, c: Uri, b: Uri)
    requires a <= c && !Subsumed(a, c) && Subsumed(a, b) && AtMost(c, b)
    ensures |a| < |b| && b[|a|] == '/' && |a| < |c| && c[|a|] < '/'
  {
    if |b| == |a| {
      PrefixIsAtMost(b, c);
      Antisymmetric(b, c);
    } else if c[|a|] > '/' {
      NextDecides(a, b, c);
    }
  }

  lemma SortsBefore(a: Uri, l: Uri, c: Uri)
    requires a <= l && a <= c && |a| < |l| && |a| < |c| && c[|a|] < '/' && AtMost(l, c)
    ensures l[|a|] != '/'
  {
    if l[|a|] == '/' {
      NextDecides(a, c, l);
    }
  }

  /** The first URI under i behind the interruption. */
  lemma FirstUnder(us: seq<Uri>, i: nat, c: nat, b: nat) returns (f: nat)
    requires Between(us, i, c, b)
    ensures c < f <= b && Subsumed(us[i], us[f]) && forall k :: c <= k < f ==> !Subsumed(us[i], us[k])
  {
    f := c + 1;
    while !Subsumed(us[i], us[f])
      invariant c < f <= b && forall k :: c <= k < f ==> !Subsumed(us[i], us[k])
      decreases b - f
    {
      f := f + 1;
    }
  }

  /** The URI that is current there starts with i, and goes on without a slash. */
  lemma CurrentGoesOn(us: seq<Uri>, i: nat, c: nat, f: nat)
    requires Sorted(us) && i < c < f < |us| && Kept(us, i) && us[i] <= us[c] && Subsumed(us[i], us[f])
    requires forall k :: c <= k < f ==> !Subsumed(us[i], us[k])
    ensures var lo := Lo(us, f - 1); i < lo && us[i] <= us[lo] && |us[i]| < |us[lo]| && us[lo][|us[i]|] != '/'
  {
    var lo, a := Lo(us, f - 1), us[i];
    EveryUriCovered(us, f - 1);
    LoGrows(us, i, f - 1);
    PrefixesTogether(a, us[lo], us[f]);
    GoesOnWithSlash(a, us[c], us[f]);
    if lo < c {
      KeptIncrease(us, i, lo);
      SortsBefore(a, us[lo], us[c]);
    }
  }

  lemma InterruptedIsKeptUnder(us: seq<Uri>, i: nat, c: nat, b: nat)
    requires Sorted(us) && i < |us| && Kept(us, i) && Between(us, i, c, b)
    ensures KeptUnder(us, i)
  {
    var f := FirstUnder(us, i, c, b);
    CurrentGoesOn(us, i, c, f);
    GoesOnWithSlash(us[i], us[c], us[f]);
    assert Kept(us, f);
  }

  /** Something under a kept URI is kept if and only if, in the sorted list, a URI that
      starts with it but is not under it stands before one that is. */
  lemma KeptUnderExactly(us: seq<Uri>, i: nat)
    requires Sorted(us) && i < |us| && Kept(us, i)
    ensures KeptUnder(us, i) <==> Interrupted(us, i)
  {
    if KeptUnder(us, i) {
      var j: nat :| j < |us| && j != i && Kept(us, j) && Subsumed(us[i], us[j]);
      KeptUnderIsInterrupted(us, i, j);
    }
    if Interrupted(us, i) {
      var c: nat, b: nat :| Between(us, i, c, b);
      InterruptedIsKeptUnder(us, i, c, b);
    }
  }

  /** It does happen. */
  lemma NotMinimal()
    ensures var us: seq<Uri> := ["a/b", "a/b-c", "a/b/d"];
            Sorted(us) && Kept(us, 0) && Kept(us, 1) && Kept(us, 2) && Subsumed(us[0], us[2])
  {
    var us: seq<Uri> := ["a/b", "a/b-c", "a/b/d"];
    PrefixIsAtMost(us[0], us[1]);
    PrefixIsAtMost(us[0], us[2]);
    NextDecides(us[0], us[1], us[2]);
    assert us[1][3] == '-' && us[2][3] == '/';
    assert Lo(us, 0) == 0 && Lo(us, 1) == 1;
    assert !Subsumed(us[1], us[2]);
  }

  // ----- compacting -----

  /** The entries that are left, in order. */
  function Present(s: seq<Option<Uri>>): seq<Uri> {
    if s == [] then []
    else if s[|s| - 1].None? then Present(s[..|s| - 1])
    else Present(s[..|s| - 1]) + [s[|s| - 1].value]
  }

  lemma {:induction false} PresentConcat(a: seq<Option<Uri>>, b: seq<Option<Uri>>)
    ensures Present(a + b) == Present(a) + Present(b)
    decreases |b|
  {
    if b == [] {
      assert a + b == a;
    } else {
      assert (a + b)[..|a + b| - 1] == a + b[..|b| - 1];
      PresentConcat(a, b[..|b| - 1]);
    }
  }

  lemma {:induction false} PresentNone(s: seq<Option<Uri>>)
    requires forall k :: 0 <= k < |s| ==> s[k].None?
    ensures Present(s) == []
  {
    if s == [] {
    } else {
      PresentNone(s[..|s| - 1]);
    }
  }

  lemma {:induction false} PresentAll(s: seq<Option<Uri>>)
    requires forall k :: 0 <= k < |s| ==> s[k].Some?
    ensures |Present(s)| == |s| && forall k :: 0 <= k < |s| ==> s[k] == Some(Present(s)[k])
  {
    if s == [] {
    } else {
      PresentAll(s[..|s| - 1]);
    }
  }

  /** Moving an entry to the front of a gap changes neither what is left nor its order. */
  lemma MoveKeepsPresent(s: seq<Option<Uri>>, lo: nat, hi: nat)
    requires lo < hi < |s| && s[hi].Some? && forall k :: lo <= k < hi ==> s[k].None?
    ensures Present(s[lo := s[hi]][hi := None]) == Present(s)
  {
    var gap, t := s[lo..hi], s[lo := s[hi]][hi := None];
    assert s == s[..lo] + (gap + [s[hi]]) + s[hi + 1..];
    assert t == s[..lo] + ([s[hi]] + gap) + s[hi + 1..];
    PresentNone(gap);
    PresentConcat(gap, [s[hi]]);
    PresentConcat([s[hi]], gap);
    PresentConcat(s[..lo], gap + [s[hi]]);
    PresentConcat(s[..lo], [s[hi]] + gap);
    PresentConcat(s[..lo] + (gap + [s[hi]]), s[hi + 1..]);
    PresentConcat(s[..lo] + ([s[hi]] + gap), s[hi + 1..]);
  }

  lemma Compacted(s: seq<Option<Uri>>, n: nat)
    requires n <= |s| && (forall k :: 0 <= k < n ==> s[k].Some?) && forall k :: n <= k < |s| ==> s[k].None?
    ensures |Present(s)| == n && forall k :: 0 <= k < n ==> s[k] == Some(Present(s)[k])
  {
    assert s == s[..n] + s[n..];
    PresentConcat(s[..n], s[n..]);
    PresentAll(s[..n]);
    PresentNone(s[n..]);
  }

  /** The two-index loop that compacts the list. */
  method Compact(uris: array<Option<Uri>>) returns (newMax: nat)
    modifies uris
    ensures newMax == |Present(old(uris[..]))| <= uris.Length
    ensures forall k :: 0 <= k < newMax ==> uris[k] == Some(Present(old(uris[..]))[k])
    ensures forall k :: newMax <= k < uris.Length ==> uris[k] == None
  {
    var lo, hi := 0, 0;
    newMax := uris.Length;
    while true
      invariant lo <= uris.Length && hi <= uris.Length && (hi > 0 ==> lo < hi)
      invariant forall k :: 0 <= k < lo ==> uris[k].Some?
      invariant forall k :: lo <= k < hi ==> uris[k].None?
      invariant Present(uris[..]) == Present(old(uris[..]))
      invariant hi == 0 ==> newMax == uris.Length
      decreases uris.Length - hi, uris.Length - lo
    {
      while lo < uris.Length && uris[lo].Some?
        invariant lo <= uris.Length && (hi > 0 ==> lo < hi)
        invariant forall k :: 0 <= k < lo ==> uris[k].Some?
      {
        lo := lo + 1;
      }
      if lo >= hi {
        hi := lo + 1;
      }
      while hi < uris.Length && uris[hi].None?
        invariant lo < hi && (lo < uris.Length ==> hi <= uris.Length)
        invariant forall k :: lo <= k < hi && k < uris.Length ==> uris[k].None?
      {
        hi := hi + 1;
      }
      if lo >= uris.Length {
        break;
      }
      if hi >= uris.Length {
        newMax := lo;
        break;
      }
      MoveKeepsPresent(uris[..], lo, hi);
      ghost var moved := uris[..][lo := uris[hi]][hi := None];
      uris[lo] := uris[hi];
      uris[hi] := None;
      assert uris[..] == moved;
      newMax := lo + 1;
      lo, hi := lo + 1, hi + 1;
    }
    Compacted(uris[..], newMax);
  }

  // ----- the printed list -----

  /** Where the entries that are left were. */
  lemma {:induction false} Places(s: seq<Option<Uri>>) returns (at: seq<nat>)
    ensures |at| == |Present(s)|
    ensures forall m :: 0 <= m < |at| ==> at[m] < |s| && s[at[m]] == Some(Present(s)[m])
    ensures forall i, j :: 0 <= i < j < |at| ==> at[i] < at[j]
    ensures forall k :: 0 <= k < |s| && s[k].Some? ==> k in at
  {
    if s == [] {
      at := [];
    } else {
      at := Places(s[..|s| - 1]);
      if s[|s| - 1].Some? {
        at := at + [|s| - 1];
      }
    }
  }

  /** The list holds the URIs at the places `at`. */
  ghost predicate ListedFrom(us: seq<Uri>, kept: seq<Uri>, at: seq<nat>) {
    && |at| == |kept|
    && (forall m :: 0 <= m < |at| ==> at[m] < |us| && kept[m] == us[at[m]] && Kept(us, at[m]))
    && (forall i, j :: 0 <= i < j < |at| ==> at[i] < at[j])
    && forall k :: 0 <= k < |us| && Kept(us, k) ==> k in at
  }

  lemma ListPlaces(us: seq<Uri>) returns (at: seq<nat>)
    ensures ListedFrom(us, Present(Entries(us)), at)
  {
    at := Places(Entries(us));
  }

  ghost predicate Covered(kept: seq<Uri>, u: Uri) {
    exists m :: 0 <= m < |kept| && Subsumed(kept[m], u)
  }

  /** Every URI is subsumed by one in the list. */
  lemma ListCovers(us: seq<Uri>, kept: seq<Uri>, at: seq<nat>, k: nat)
    requires Sorted(us) && ListedFrom(us, kept, at) && k < |us|
    ensures Covered(kept, us[k])
  {
    EveryUriCovered(us, k);
    assert Lo(us, k) in at;
    var m :| 0 <= m < |at| && at[m] == Lo(us, k);
    assert Subsumed(kept[m], us[k]);
  }

  /** The list is strictly increasing, and nothing in it is under an entry that ends with a
      slash. */
  lemma ListOrder(us: seq<Uri>, kept: seq<Uri>, at: seq<nat>, i: nat, j: nat)
    requires Sorted(us) && ListedFrom(us, kept, at) && i < |kept| && j < |kept| && i != j
    ensures i < j ==> AtMost(kept[i], kept[j]) && kept[i] != kept[j]
    ensures kept[i][|kept[i]| - 1] == '/' ==> !(kept[i] <= kept[j])
  {
    if i < j {
      KeptIncrease(us, at[i], at[j]);
    }
    if kept[i][|kept[i]| - 1] == '/' {
      NothingUnderSlash(us, at[i], at[j]);
    }
  }

  /** What the list promises: every URI is subsumed by one in the list, the list is drawn
      from the URIs and strictly increasing, and nothing in it is under an entry that ends
      with a slash. */
  ghost predicate GoodList(us: seq<Uri>, kept: seq<Uri>) {
    && (forall k :: 0 <= k < |us| ==> Covered(kept, us[k]))
    && (forall m :: 0 <= m < |kept| ==> kept[m] in us)
    && (forall i, j :: 0 <= i < j < |kept| ==> AtMost(kept[i], kept[j]) && kept[i] != kept[j])
    && (forall i, j :: 0 <= i < |kept| && 0 <= j < |kept| && i != j && kept[i][|kept[i]| - 1] == '/' ==>
          !(kept[i] <= kept[j]))
  }

  lemma ListIsGood(us: seq<Uri>)
    requires Sorted(us)
    ensures GoodList(us, Present(Entries(us)))
  {
    var kept := Present(Entries(us));
    var at := ListPlaces(us);
    forall k | 0 <= k < |us|
      ensures Covered(kept, us[k])
    {
      ListCovers(us, kept, at, k);
    }
    forall i, j | 0 <= i < |kept| && 0 <= j < |kept| && i != j
      ensures i < j ==> AtMost(kept[i], kept[j]) && kept[i] != kept[j]
      ensures kept[i][|kept[i]| - 1] == '/' ==> !(kept[i] <= kept[j])
    {
      ListOrder(us, kept, at, i, j);
    }
  }

  /** Compacting and printing. */
  method Print(uris: array<Option<Uri>>) returns (kept: seq<Uri>)
    modifies uris
    ensures kept == Present(old(uris[..]))
  {
    ghost var list := Present(uris[..]);
    var n := Compact(uris);
    kept := [];
    for i := 0 to n
      invariant kept == list[..i]
    {
      kept := kept + [uris[i].value];
    }
  }

  /** Both loops on the sorted URIs: what is printed. */
  method Subsume(us: seq<Uri>) returns (kept: seq<Uri>)
    ensures kept == Present(Entries(us))
    ensures Sorted(us) ==> GoodList(us, kept)
  {
    var uris := new Option<Uri>[|us|](i requires 0 <= i < |us| => Some(us[i]));
    RemoveSubsumed(uris, us);
    kept := Print(uris);
    if Sorted(us) {
      ListIsGood(us);
    }
  }
}
