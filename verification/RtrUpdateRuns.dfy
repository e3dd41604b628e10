/** Whole update runs, for the examples: what the tables hold after each of them. */
module RtrUpdateRuns {
  import opened Counting
  import opened Options
  import opened RtrTables
  import opened RtrUpdate
  import opened RtrNumbering

  predicate IsStart(i: Input) { i.Start? }

  /** A stretch of a run that leads from s to t, with so many starts, perhaps all of them
      without a number from the command line. */
  ghost predicate Leads(states: seq<State>, inputs: seq<Input>, s: State, t: State, starts: nat, auto: bool) {
    && |states| == |inputs| + 1 && states[0] == s && states[|inputs|] == t
    && (forall n :: 0 <= n < |inputs| ==> StepAt(states, inputs, n))
    && Count(inputs, IsStart) == starts
    && (auto ==> forall n :: 0 <= n < |inputs| ==> Automatic(inputs[n]))
  }

  predicate Becomes(s: State, i: Input, t: State) { Enabled(s, i) && Step(s, i) == t }

  lemma Stand(s: State) returns (states: seq<State>, inputs: seq<Input>)
    ensures Leads(states, inputs, s, s, 0, true)
  {
    states, inputs := [s], [];
  }

  lemma Then(states: seq<State>, inputs: seq<Input>, s: State, t: State, starts: nat, auto: bool, i: Input, t': State)
    returns (states': seq<State>, inputs': seq<Input>)
    requires Leads(states, inputs, s, t, starts, auto) && Becomes(t, i, t')
    ensures Leads(states', inputs', s, t', starts + One(i.Start?), auto && Automatic(i))
  {
    states', inputs' := states + [t'], inputs + [i];
    CountConcat(inputs, [i], IsStart);
    forall n: nat | n < |inputs'| ensures StepAt(states', inputs', n) {
      assert n < |inputs| ==> StepAt(states, inputs, n);
    }
  }

  const GO: Input := Execute({}, 0, 0)

  // ----- the first run, which dies after it has inserted its row -----

  function First(rpki: set<Roa>): State {
    State(Db(map[1 := rpki], map[], map[1 := Row(None, 0, true)]), History([1], rpki, map[1 := rpki]), Idle)
  }

  function FirstAt(at: Statement): State {
    Init().(updater := Running(at, true, 0, 1, false))
  }

  function FirstCopied(rpki: set<Roa>, at: Statement): State {
    State(Db(map[1 := rpki], map[], map[]), History([], rpki, map[]), Running(at, true, 0, 1, false))
  }

  lemma FirstPrepares() returns (states: seq<State>, inputs: seq<Input>)
    ensures Leads(states, inputs, Init(), FirstAt(SInsertFull), 1, true)
  {
    var s := Init();
    assert DeleteIncompleteIncremental(s.db) == s.db && DeleteIncompleteFull(s.db) == s.db;
    states, inputs := Stand(s);
    states, inputs := Then(states, inputs, s, s, 0, true, Start(None, 0, None), FirstAt(SDeleteIncompleteIncremental));
    states, inputs := Then(states, inputs, s, FirstAt(SDeleteIncompleteIncremental), 1, true, GO,
                           FirstAt(SDeleteIncompleteFull));
    states, inputs := Then(states, inputs, s, FirstAt(SDeleteIncompleteFull), 1, true, GO, FirstAt(SCheckSerials));
    states, inputs := Then(states, inputs, s, FirstAt(SCheckSerials), 1, true, GO, FirstAt(SInsertFull));
  }

  lemma FirstRun(rpki: set<Roa>) returns (states: seq<State>, inputs: seq<Input>)
    ensures Leads(states, inputs, Init(), First(rpki), 1, true)
  {
    var s := Init();
    states, inputs := FirstPrepares();
    assert FullAt(s.db, 1) + rpki == rpki;
    states, inputs := Then(states, inputs, s, FirstAt(SInsertFull), 1, true, Execute(rpki, 0, 0),
                           FirstCopied(rpki, SHasChanges));
    states, inputs := Then(states, inputs, s, FirstCopied(rpki, SHasChanges), 1, true, GO,
                           FirstCopied(rpki, SInsertUpdate));
    var t := First(rpki).(updater := Running(SIgnoreOldFull, true, 0, 1, false));
    states, inputs := Then(states, inputs, s, FirstCopied(rpki, SInsertUpdate), 1, true, GO, t);
    states, inputs := Then(states, inputs, s, t, 1, true, Crash, First(rpki));
  }

  // ----- a later run, up to the point where it has copied its data -----

  /** Idle, with nothing left over from runs that died, and p the newest number. */
  predicate Tidy(s: State, p: nat) {
    && s.updater.Idle? && IsLatest(s.db, Some(p))
    && s.db.incremental.Keys <= s.db.updates.Keys && s.db.full.Keys <= s.db.updates.Keys
  }

  function Begun(s: State, next: Option<nat>, p: nat, c: nat, at: Statement): State {
    s.(updater := Running(at, false, p, c, next.Some?))
  }

  function Copied(s: State, next: Option<nat>, p: nat, c: nat, rpki: set<Roa>, at: Statement): State {
    State(s.db.(full := s.db.full[c := rpki], incremental := s.db.incremental[c := Diff(FullAt(s.db, p), rpki)]),
          s.hist.(taken := rpki), Running(at, false, p, c, next.Some?))
  }

  lemma NothingToDelete(s: State, p: nat)
    requires Tidy(s, p)
    ensures DeleteIncompleteIncremental(s.db) == s.db && DeleteIncompleteFull(s.db) == s.db
  {
    assert DeleteIncompleteIncremental(s.db).incremental == s.db.incremental;
    assert DeleteIncompleteFull(s.db).full == s.db.full;
  }

  lemma Prepares(s: State, next: Option<nat>, p: nat, c: nat) returns (states: seq<State>, inputs: seq<Input>)
    requires Tidy(s, p) && GoodSerials(s.db, p, c)
    requires c == if next.Some? then next.value else (p + 1) % SERIAL_SPACE
    ensures Leads(states, inputs, s, Begun(s, next, p, c, SInsertFull), 1, next.None?)
  {
    var auto := next.None?;
    NothingToDelete(s, p);
    states, inputs := Stand(s);
    states, inputs := Then(states, inputs, s, s, 0, true, Start(next, 0, Some(p)),
                           Begun(s, next, p, c, SDeleteIncompleteIncremental));
    states, inputs := Then(states, inputs, s, Begun(s, next, p, c, SDeleteIncompleteIncremental), 1, auto, GO,
                           Begun(s, next, p, c, SDeleteIncompleteFull));
    states, inputs := Then(states, inputs, s, Begun(s, next, p, c, SDeleteIncompleteFull), 1, auto, GO,
                           Begun(s, next, p, c, SCheckSerials));
    states, inputs := Then(states, inputs, s, Begun(s, next, p, c, SCheckSerials), 1, auto, GO,
                           Begun(s, next, p, c, SInsertFull));
  }

  /** The same with the full data copied and the announcements, if `half`. */
  function Half(s: State, next: Option<nat>, p: nat, c: nat, rpki: set<Roa>, half: bool): State {
    var full := s.db.full[c := rpki];
    var added := map r | r in rpki - FullAt(s.db, p) :: true;
    State(s.db.(full := full, incremental := if half then s.db.incremental[c := added] else s.db.incremental),
          s.hist.(taken := rpki),
          Running(if half then SInsertWithdrawals else SInsertAnnouncements, false, p, c, next.Some?))
  }

  lemma CopiesFull(s: State, next: Option<nat>, p: nat, c: nat, rpki: set<Roa>)
    requires c !in s.db.full
    ensures Becomes(Begun(s, next, p, c, SInsertFull), Execute(rpki, 0, 0), Half(s, next, p, c, rpki, false))
  {
    assert FullAt(s.db, c) + rpki == rpki;
  }

  lemma CopiesAnnouncements(s: State, next: Option<nat>, p: nat, c: nat, rpki: set<Roa>)
    requires c !in s.db.incremental && p != c
    ensures Becomes(Half(s, next, p, c, rpki, false), GO, Half(s, next, p, c, rpki, true))
  {
    var db := Half(s, next, p, c, rpki, false).db;
    assert FullAt(db, c) == rpki && FullAt(db, p) == FullAt(s.db, p);
    assert DeltaAt(db, c) == map[];
    var rows := map r | r in FullAt(db, c) - FullAt(db, p) :: true;
    assert map[] + rows == rows;
  }

  lemma CopiesWithdrawals(s: State, next: Option<nat>, p: nat, c: nat, rpki: set<Roa>)
    requires c !in s.db.incremental && p != c
    ensures Becomes(Half(s, next, p, c, rpki, true), GO, Copied(s, next, p, c, rpki, SHasChanges))
  {
    var db := Half(s, next, p, c, rpki, true).db;
    assert FullAt(db, c) == rpki && FullAt(db, p) == FullAt(s.db, p);
    var rows := map r | r in FullAt(db, p) - FullAt(db, c) :: false;
    assert DeltaAt(db, c) + rows == Diff(FullAt(s.db, p), rpki);
    assert db.incremental[c := Diff(FullAt(s.db, p), rpki)] == s.db.incremental[c := Diff(FullAt(s.db, p), rpki)];
  }

  lemma Copies(s: State, next: Option<nat>, p: nat, c: nat, rpki: set<Roa>)
    returns (states: seq<State>, inputs: seq<Input>)
    requires Tidy(s, p) && GoodSerials(s.db, p, c)
    requires c == if next.Some? then next.value else (p + 1) % SERIAL_SPACE
    ensures Leads(states, inputs, s, Copied(s, next, p, c, rpki, SHasChanges), 1, next.None?)
  {
    var auto := next.None?;
    states, inputs := Prepares(s, next, p, c);
    CopiesFull(s, next, p, c, rpki);
    states, inputs := Then(states, inputs, s, Begun(s, next, p, c, SInsertFull), 1, auto, Execute(rpki, 0, 0),
                           Half(s, next, p, c, rpki, false));
    CopiesAnnouncements(s, next, p, c, rpki);
    states, inputs := Then(states, inputs, s, Half(s, next, p, c, rpki, false), 1, auto, GO,
                           Half(s, next, p, c, rpki, true));
    CopiesWithdrawals(s, next, p, c, rpki);
    states, inputs := Then(states, inputs, s, Half(s, next, p, c, rpki, true), 1, auto, GO,
                           Copied(s, next, p, c, rpki, SHasChanges));
  }

  lemma Changed(a: set<Roa>, b: set<Roa>)
    requires a != b
    ensures Diff(a, b) != map[]
  {
    if Diff(a, b) == map[] {
      NoDiffIsEqual(a, b);
    }
  }

  // ----- ... and inserts its row -----

  function Inserted(s: State, next: Option<nat>, p: nat, c: nat, rpki: set<Roa>, now: int): State {
    var t := Copied(s, next, p, c, rpki, SIgnoreOldFull);
    t.(db := t.db.(updates := t.db.updates[c := Row(Some(p), now, true)]),
       hist := t.hist.(path := t.hist.path + [c], snap := t.hist.snap[c := rpki]))
  }

  lemma ReadyToInsert(s: State, next: Option<nat>, p: nat, c: nat, rpki: set<Roa>)
    returns (states: seq<State>, inputs: seq<Input>)
    requires Tidy(s, p) && GoodSerials(s.db, p, c) && (next.Some? || FullAt(s.db, p) != rpki)
    requires c == if next.Some? then next.value else (p + 1) % SERIAL_SPACE
    ensures Leads(states, inputs, s, Copied(s, next, p, c, rpki, SInsertUpdate), 1, next.None?)
  {
    states, inputs := Copies(s, next, p, c, rpki);
    if next.None? {
      Changed(FullAt(s.db, p), rpki);
    }
    states, inputs := Then(states, inputs, s, Copied(s, next, p, c, rpki, SHasChanges), 1, next.None?, GO,
                           Copied(s, next, p, c, rpki, SInsertUpdate));
  }

  lemma Inserts(s: State, next: Option<nat>, p: nat, c: nat, rpki: set<Roa>, now: int)
    requires ClockAdvanced(s.db, now)
    ensures Becomes(Copied(s, next, p, c, rpki, SInsertUpdate), Execute({}, now, 0), Inserted(s, next, p, c, rpki, now))
    ensures Becomes(Inserted(s, next, p, c, rpki, now), Crash, Inserted(s, next, p, c, rpki, now).(updater := Idle))
  {
  }

  // ----- ... or finds no changes and goes on to clean up -----

  function Unchanged(s: State, p: nat, c: nat, at: Statement): State {
    State(s.db.(incremental := s.db.incremental[c := map[]]), s.hist.(taken := FullAt(s.db, p)),
          Running(at, false, p, c, false))
  }

  lemma FindsNoChanges(s: State, p: nat, c: nat) returns (states: seq<State>, inputs: seq<Input>)
    requires Tidy(s, p) && GoodSerials(s.db, p, c) && c == (p + 1) % SERIAL_SPACE
    ensures Leads(states, inputs, s, Unchanged(s, p, c, SIgnoreOldFull), 1, true)
  {
    var rpki := FullAt(s.db, p);
    states, inputs := Copies(s, None, p, c, rpki);
    assert Diff(rpki, rpki) == map[];
    states, inputs := Then(states, inputs, s, Copied(s, None, p, c, rpki, SHasChanges), 1, true, GO,
                           Copied(s, None, p, c, rpki, SDeleteUselessFull));
    assert s.db.full[c := rpki] - {c} == s.db.full;
    states, inputs := Then(states, inputs, s, Copied(s, None, p, c, rpki, SDeleteUselessFull), 1, true, GO,
                           Unchanged(s, p, c, SIgnoreOldFull));
  }

  // ----- two runs -----

  /** Serial number 1 stands for d and serial number 2 for e. */
  function Second(d: set<Roa>, e: set<Roa>): State {
    State(Db(map[1 := d, 2 := e], map[2 := Diff(d, e)], map[1 := Row(None, 0, true), 2 := Row(Some(1), 1, true)]),
          History([1, 2], e, map[1 := d, 2 := e]), Idle)
  }

  lemma FirstIsTidy(d: set<Roa>)
    ensures Tidy(First(d), 1) && GoodSerials(First(d).db, 1, 2) && ClockAdvanced(First(d).db, 1)
    ensures FullAt(First(d).db, 1) == d
  {
  }

  lemma SecondIsTidy(d: set<Roa>, e: set<Roa>)
    ensures Tidy(Second(d, e), 2) && GoodSerials(Second(d, e).db, 2, 3)
    ensures FullAt(Second(d, e).db, 2) == e
    ensures Second(d, e) == Inserted(First(d), None, 1, 2, e, 1).(updater := Idle)
  {
    var s := Inserted(First(d), None, 1, 2, e, 1);
    assert s.db.full == map[1 := d, 2 := e] && s.db.incremental == map[2 := Diff(d, e)];
    assert s.db.updates == map[1 := Row(None, 0, true), 2 := Row(Some(1), 1, true)];
    assert s.hist.path == [1, 2] && s.hist.snap == map[1 := d, 2 := e];
  }

  /** A third run finds no changes; its clean-up has begun with the first number's data. */
  function Cleaning(d: set<Roa>, e: set<Roa>, full: map<nat, set<Roa>>, at: Statement): State {
    var t := Unchanged(Second(d, e), 2, 3, at);
    t.(db := t.db.(full := full, updates := map[1 := Row(None, 0, false), 2 := Row(Some(1), 1, true)]))
  }

  lemma CleansFull(d: set<Roa>, e: set<Roa>)
    ensures Becomes(Unchanged(Second(d, e), 2, 3, SIgnoreOldFull), GO,
                    Cleaning(d, e, map[1 := d, 2 := e], SDeleteOldFull))
    ensures Becomes(Cleaning(d, e, map[1 := d, 2 := e], SDeleteOldFull), GO,
                    Cleaning(d, e, map[2 := e], SDeleteOldUpdate))
  {
    var db := Unchanged(Second(d, e), 2, 3, SIgnoreOldFull).db;
    assert IgnoreOldFull(db, 3, 2).updates == map[1 := Row(None, 0, false), 2 := Row(Some(1), 1, true)];
    assert DeleteOldFull(db, 3, 2).full == map[2 := e];
  }

  lemma ThirdCleans(d: set<Roa>, e: set<Roa>) returns (states: seq<State>, inputs: seq<Input>)
    ensures Leads(states, inputs, Second(d, e), Cleaning(d, e, map[2 := e], SDeleteOldUpdate), 1, true)
  {
    var s := Second(d, e);
    SecondIsTidy(d, e);
    states, inputs := FindsNoChanges(s, 2, 3);
    CleansFull(d, e);
    states, inputs := Then(states, inputs, s, Unchanged(s, 2, 3, SIgnoreOldFull), 1, true, GO,
                           Cleaning(d, e, map[1 := d, 2 := e], SDeleteOldFull));
    states, inputs := Then(states, inputs, s, Cleaning(d, e, map[1 := d, 2 := e], SDeleteOldFull), 1, true, GO,
                           Cleaning(d, e, map[2 := e], SDeleteOldUpdate));
  }

  // ----- the end of the third run, and a fourth that uses number 1 again -----

  /** Number 1 has aged out. */
  function Aged(d: set<Roa>, e: set<Roa>): State {
    State(Db(map[2 := e], map[], map[2 := Row(None, 1, true)]), History([2], e, map[1 := d, 2 := e]), Idle)
  }

  function Ageing(d: set<Roa>, e: set<Roa>, prev: Option<nat>, at: Statement): State {
    State(Db(map[2 := e], map[2 := Diff(d, e), 3 := map[]], map[2 := Row(prev, 1, true)]),
          History([2], e, map[1 := d, 2 := e]), Running(at, false, 2, 3, false))
  }

  lemma CleansRows(d: set<Roa>, e: set<Roa>)
    ensures Becomes(Cleaning(d, e, map[2 := e], SDeleteOldUpdate), Execute({}, 0, 5),
                    Ageing(d, e, Some(1), SIgnoreOldIncremental))
  {
    var s := Cleaning(d, e, map[2 := e], SDeleteOldUpdate);
    assert DeleteOldUpdate(s.db, 5, 3, 2).updates == map[2 := Row(Some(1), 1, true)];
    assert [1, 2][1..] == [2];
    assert Surviving([1, 2], map[2 := Row(Some(1), 1, true)]) == Surviving([2], map[2 := Row(Some(1), 1, true)]) == [2];
    assert s.db.incremental == map[2 := Diff(d, e), 3 := map[]];
    assert FullAt(Second(d, e).db, 2) == e;
  }

  lemma CleansIncremental(d: set<Roa>, e: set<Roa>)
    ensures Becomes(Ageing(d, e, Some(1), SIgnoreOldIncremental), GO, Ageing(d, e, None, SDeleteOldIncremental))
    ensures Becomes(Ageing(d, e, None, SDeleteOldIncremental), GO, Aged(d, e))
  {
    var db := Ageing(d, e, Some(1), SIgnoreOldIncremental).db;
    assert IgnoreOldIncremental(db).updates == map[2 := Row(None, 1, true)];
    var db' := Ageing(d, e, None, SDeleteOldIncremental).db;
    assert DeleteOldIncremental(db').incremental == map[];
  }

  lemma ThirdRun(d: set<Roa>, e: set<Roa>) returns (states: seq<State>, inputs: seq<Input>)
    ensures Leads(states, inputs, Second(d, e), Aged(d, e), 1, true)
  {
    var s := Second(d, e);
    states, inputs := ThirdCleans(d, e);
    CleansRows(d, e);
    states, inputs := Then(states, inputs, s, Cleaning(d, e, map[2 := e], SDeleteOldUpdate), 1, true,
                           Execute({}, 0, 5), Ageing(d, e, Some(1), SIgnoreOldIncremental));
    CleansIncremental(d, e);
    states, inputs := Then(states, inputs, s, Ageing(d, e, Some(1), SIgnoreOldIncremental), 1, true, GO,
                           Ageing(d, e, None, SDeleteOldIncremental));
    states, inputs := Then(states, inputs, s, Ageing(d, e, None, SDeleteOldIncremental), 1, true, GO, Aged(d, e));
  }

  lemma SecondRun(d: set<Roa>, e: set<Roa>) returns (states: seq<State>, inputs: seq<Input>)
    requires d != e
    ensures Leads(states, inputs, First(d), Second(d, e), 1, true)
  {
    var s := First(d);
    var t := Inserted(s, None, 1, 2, e, 1);
    FirstIsTidy(d);
    SecondIsTidy(d, e);
    states, inputs := ReadyToInsert(s, None, 1, 2, e);
    Inserts(s, None, 1, 2, e, 1);
    states, inputs := Then(states, inputs, s, Copied(s, None, 1, 2, e, SInsertUpdate), 1, true, Execute({}, 1, 0), t);
    states, inputs := Then(states, inputs, s, t, 1, true, Crash, Second(d, e));
  }

  /** Number 1 stands for f now. */
  function Reused(d: set<Roa>, e: set<Roa>, f: set<Roa>): State {
    Inserted(Aged(d, e), Some(1), 2, 1, f, 2).(updater := Idle)
  }

  lemma FourthRun(d: set<Roa>, e: set<Roa>, f: set<Roa>) returns (states: seq<State>, inputs: seq<Input>)
    ensures Leads(states, inputs, Aged(d, e), Reused(d, e, f), 1, false)
  {
    var s := Aged(d, e);
    var t := Inserted(s, Some(1), 2, 1, f, 2);
    states, inputs := ReadyToInsert(s, Some(1), 2, 1, f);
    Inserts(s, Some(1), 2, 1, f, 2);
    states, inputs := Then(states, inputs, s, Copied(s, Some(1), 2, 1, f, SInsertUpdate), 1, false,
                           Execute({}, 2, 0), t);
    states, inputs := Then(states, inputs, s, t, 1, false, Crash, Reused(d, e, f));
  }
}
