/** Serial numbers are not used twice when they are given automatically
    (bin/rpki-rtr/rtr-update.c), until 2^32 rows have been inserted. */
module RtrNumbering {
  import opened Options
  import opened RtrTables
  import opened RtrUpdate

  /** No serial number was given on the command line. */
  predicate Automatic(i: Input) { i.Start? ==> i.next.None? }

  /** The statement is one of those between the check of the serial numbers and the
      end of the new row's making. */
  predicate IsMaking(at: Statement) {
    IsBeforeInsert(at) && !at.SDeleteIncompleteIncremental? && !at.SDeleteIncompleteFull? && !at.SCheckSerials?
  }

  /** The running update's serial number has not stood for a row before. */
  predicate NoReuse(s: State) {
    s.updater.Running? && IsMaking(s.updater.at) ==> s.updater.current !in s.hist.snap
  }

  // ----- consecutive numbers -----

  predicate IsNth(base: nat, k: nat, t: nat) { t == (base + k) % SERIAL_SPACE }

  predicate InRange(base: nat, n: nat, t: nat) {
    exists k: nat :: k < n && IsNth(base, k, t)
  }

  /** The numbers used so far are consecutive, and the newest row has the last one. */
  ghost predicate Consecutive(h: History, base: nat) {
    && (forall t: nat :: t in h.snap <==> InRange(base, |h.snap|, t))
    && (h.path == [] ==> h.snap == map[])
    && (h.path != [] ==> |h.snap| > 0 && IsNth(base, |h.snap| - 1, Latest(h.path)))
  }

  ghost predicate NumbersOk(s: State, base: nat) {
    && Ok(s) && Consecutive(s.hist, base)
    && (s.updater.Running? ==> s.updater.current == (s.updater.previous + 1) % SERIAL_SPACE)
  }

  lemma NextNth(base: nat, n: nat, latest: nat)
    requires n > 0 && IsNth(base, n - 1, latest)
    ensures IsNth(base, n, (latest + 1) % SERIAL_SPACE)
  {
  }

  lemma NthDiffer(a: nat, b: nat)
    requires a < b < a + SERIAL_SPACE
    ensures a % SERIAL_SPACE != b % SERIAL_SPACE
  {
    var p, q := a / SERIAL_SPACE, b / SERIAL_SPACE;
    assert a == SERIAL_SPACE * p + a % SERIAL_SPACE && b == SERIAL_SPACE * q + b % SERIAL_SPACE;
    assert b - a == SERIAL_SPACE * (q - p) + (b % SERIAL_SPACE - a % SERIAL_SPACE);
  }

  lemma NthIsNew(base: nat, n: nat, t: nat)
    requires n < SERIAL_SPACE && IsNth(base, n, t)
    ensures !InRange(base, n, t)
  {
    forall k: nat | k < n ensures !IsNth(base, k, t) {
      NthDiffer(base + k, base + n);
    }
  }

  /** The number of the row that a running update is making. */
  lemma CurrentIsNext(s: State, base: nat)
    requires NumbersOk(s, base) && s.updater.Running? && IsBeforeInsert(s.updater.at)
    ensures s.hist.path != [] ==> IsNth(base, |s.hist.snap|, s.updater.current)
  {
    if s.hist.path != [] {
      NextNth(base, |s.hist.snap|, Latest(s.hist.path));
    }
  }

  lemma NumbersAreNew(s: State, base: nat)
    requires NumbersOk(s, base) && |s.hist.snap| < SERIAL_SPACE
    ensures NoReuse(s)
  {
    if s.updater.Running? && IsMaking(s.updater.at) && s.hist.path != [] {
      CurrentIsNext(s, base);
      NthIsNew(base, |s.hist.snap|, s.updater.current);
    }
  }

  lemma RangeGrows(base: nat, n: nat, t: nat, u: nat)
    requires IsNth(base, n, t)
    ensures InRange(base, n + 1, u) <==> InRange(base, n, u) || u == t
  {
    if u == t {
      assert n < n + 1 && IsNth(base, n, u);
    }
    if InRange(base, n, u) {
      var k: nat :| k < n && IsNth(base, k, u);
      assert k < n + 1;
    }
  }

  lemma KeyAdded<V>(m: map<nat, V>, t: nat, v: V)
    requires t !in m
    ensures |m[t := v]| == |m| + 1
  {
    assert m[t := v].Keys == m.Keys + {t};
  }

  lemma InsertKeepsConsecutive(h: History, base: nat, t: nat) returns (base': nat)
    requires Consecutive(h, base) && t !in h.snap && t < SERIAL_SPACE
    requires h.path != [] ==> IsNth(base, |h.snap|, t)
    ensures Consecutive(h.(path := h.path + [t], snap := h.snap[t := h.taken]), base')
  {
    base' := if h.path == [] then t else base;
    var snap', n := h.snap[t := h.taken], |h.snap|;
    KeyAdded(h.snap, t, h.taken);
    forall u: nat ensures u in snap' <==> InRange(base', n + 1, u) {
      RangeGrows(base', n, t, u);
    }
    assert Latest(h.path + [t]) == t;
  }

  /** What a step can do to the path besides inserting a row. */
  lemma OtherStepKeepsLatest(s: State, i: Input)
    requires Ok(s) && Enabled(s, i) && !(i.Execute? && s.updater.at.SInsertUpdate?)
    ensures Step(s, i).hist.snap == s.hist.snap && (Step(s, i).hist.path == [] <==> s.hist.path == [])
    ensures s.hist.path != [] ==> Latest(Step(s, i).hist.path) == Latest(s.hist.path)
  {
    if i.Execute? && s.updater.at.SDeleteOldUpdate? {
      var k := SurvivorsEndWithLatest(s.db, s.hist.path, s.updater, i.cutoff);
    }
  }

  lemma SameLatestKeepsConsecutive(h: History, h': History, base: nat)
    requires Consecutive(h, base) && h'.snap == h.snap && (h'.path == [] <==> h.path == [])
    requires h.path != [] ==> Latest(h'.path) == Latest(h.path)
    ensures Consecutive(h', base)
  {
  }

  lemma NumberStaysNext(s: State, i: Input)
    requires Enabled(s, i) && Automatic(i)
    requires s.updater.Running? ==> s.updater.current == (s.updater.previous + 1) % SERIAL_SPACE
    ensures var u := Step(s, i).updater; u.Running? ==> u.current == (u.previous + 1) % SERIAL_SPACE
  {
  }

  lemma NumbersStep(s: State, i: Input, base: nat) returns (base': nat)
    requires NumbersOk(s, base) && Enabled(s, i) && Automatic(i) && |s.hist.snap| < SERIAL_SPACE
    ensures NumbersOk(Step(s, i), base')
  {
    StepKeepsOk(s, i);
    NumberStaysNext(s, i);
    if i.Execute? && s.updater.at.SInsertUpdate? {
      NumbersAreNew(s, base);
      CurrentIsNext(s, base);
      base' := InsertKeepsConsecutive(s.hist, base, s.updater.current);
    } else {
      base' := base;
      OtherStepKeepsLatest(s, i);
      SameLatestKeepsConsecutive(s.hist, Step(s, i).hist, base);
    }
  }

  lemma SnapGrows(s: State, i: Input)
    requires Enabled(s, i)
    ensures |s.hist.snap| <= |Step(s, i).hist.snap|
  {
    var h, h' := s.hist, Step(s, i).hist;
    if h'.snap != h.snap {
      assert h'.snap.Keys == h.snap.Keys + {s.updater.current};
    }
  }

  // ----- what a serial number stands for -----

  lemma StepKeepsSnap(s: State, i: Input, t: nat)
    requires Enabled(s, i) && NoReuse(s) && t in s.hist.snap
    ensures t in Step(s, i).hist.snap && Step(s, i).hist.snap[t] == s.hist.snap[t]
  {
  }

  // ----- every run -----

  predicate NextUpdate(s: State, i: Input, t: State) {
    Automatic(i) && Enabled(s, i) && t == Step(s, i)
  }

  /** Between two observations nothing happened, or one automatic step. */
  ghost predicate NextAt(us: seq<State>, n: nat) {
    n + 1 < |us| ==> us[n + 1] == us[n] || OneStep(us[n], us[n + 1])
  }

  ghost predicate OneStep(s: State, t: State) {
    exists i :: NextUpdate(s, i, t)
  }

  /** Observations of updates that start from empty tables and number their rows
      themselves, each cut short anywhere. */
  ghost predicate Updates(us: seq<State>) {
    us != [] && us[0] == Init() && forall n: nat :: NextAt(us, n)
  }

  lemma {:induction false} AutomaticRun(us: seq<State>, n: nat) returns (base: nat)
    requires Updates(us) && n < |us| && |us[n].hist.snap| < SERIAL_SPACE
    ensures NumbersOk(us[n], base)
  {
    if n == 0 {
      base := 0;
      InitOk();
    } else {
      assert NextAt(us, n - 1);
      if us[n] == us[n - 1] {
        base := AutomaticRun(us, n - 1);
      } else {
        var i :| NextUpdate(us[n - 1], i, us[n]);
        SnapGrows(us[n - 1], i);
        var base0 := AutomaticRun(us, n - 1);
        base := NumbersStep(us[n - 1], i, base0);
      }
    }
  }

  lemma InitOk()
    ensures NumbersOk(Init(), 0)
  {
  }

  /** Automatic numbering uses no number twice before 2^32 rows have been inserted. */
  lemma AutomaticIsNew(us: seq<State>, n: nat)
    requires Updates(us) && n < |us| && |us[n].hist.snap| < SERIAL_SPACE
    ensures Ok(us[n]) && NoReuse(us[n])
  {
    var base := AutomaticRun(us, n);
    NumbersAreNew(us[n], base);
  }

  lemma {:induction false} SnapOnlyGrows(us: seq<State>, m: nat, n: nat)
    requires Updates(us) && m <= n < |us|
    ensures |us[m].hist.snap| <= |us[n].hist.snap|
    decreases n
  {
    if m == n {
    } else {
      SnapOnlyGrows(us, m, n - 1);
      assert NextAt(us, n - 1);
      if us[n] != us[n - 1] {
        var i :| NextUpdate(us[n - 1], i, us[n]);
        SnapGrows(us[n - 1], i);
      }
    }
  }

  /** So what a serial number stands for never changes. */
  lemma {:induction false} SnapFixed(us: seq<State>, m: nat, n: nat, t: nat)
    requires Updates(us) && m <= n < |us| && |us[n].hist.snap| < SERIAL_SPACE && t in us[m].hist.snap
    ensures t in us[n].hist.snap && us[n].hist.snap[t] == us[m].hist.snap[t]
    decreases n
  {
    if m == n {
    } else {
      SnapOnlyGrows(us, n - 1, n);
      SnapFixed(us, m, n - 1, t);
      assert NextAt(us, n - 1);
      if us[n] != us[n - 1] {
        var i :| NextUpdate(us[n - 1], i, us[n]);
        AutomaticIsNew(us, n - 1);
        StepKeepsSnap(us[n - 1], i, t);
      }
    }
  }

  /** Every run of updates without numbers from the command line is of that kind. */
  lemma RunIsUpdates(states: seq<State>, inputs: seq<Input>)
    requires Run(states, inputs) && forall k :: 0 <= k < |inputs| ==> Automatic(inputs[k])
    ensures Updates(states)
  {
    forall n: nat ensures NextAt(states, n) {
      if n < |inputs| {
        assert StepAt(states, inputs, n);
        assert NextUpdate(states[n], inputs[n], states[n + 1]);
      }
    }
  }

  /** So in every such run no number is used twice and each stands for the same data for
      good, before 2^32 rows have been inserted. */
  lemma RunNumbersLast(states: seq<State>, inputs: seq<Input>, m: nat, n: nat, t: nat)
    requires Run(states, inputs) && forall k :: 0 <= k < |inputs| ==> Automatic(inputs[k])
    requires m <= n < |states| && |states[n].hist.snap| < SERIAL_SPACE
    ensures NoReuse(states[n])
    ensures t in states[m].hist.snap ==>
              t in states[n].hist.snap && states[n].hist.snap[t] == states[m].hist.snap[t]
  {
    RunIsUpdates(states, inputs);
    AutomaticIsNew(states, n);
    if t in states[m].hist.snap {
      SnapFixed(states, m, n, t);
    }
  }
}
