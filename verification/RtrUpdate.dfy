/** rpki-rtr-update (bin/rpki-rtr/rtr-update.c): each SQL statement is one atomic
    step, and the program can die between any two of them. */
module RtrUpdate {
  import opened Options
  import opened Sequences
  import opened RtrTables

  const SERIAL_SPACE: nat := 0x1_0000_0000

  /** The statement a running update executes next, in program order. */
  datatype Statement =
    | SDeleteIncompleteIncremental
    | SDeleteIncompleteFull
    | SCheckSerials
    | SInsertFull
    | SInsertAnnouncements
    | SInsertWithdrawals
    | SHasChanges
    | SInsertUpdate
    | SDeleteUselessFull
    | SIgnoreOldFull
    | SDeleteOldFull
    | SDeleteOldUpdate
    | SIgnoreOldIncremental
    | SDeleteOldIncremental

  /** The program's variables; Idle when no update runs. */
  datatype Updater =
    | Idle
    | Running(at: Statement, first: bool, previous: nat, current: nat, force: bool)

  /** History, never read by the program: the serial numbers of the rows of rtr_update,
      oldest first; the valid ROAs the running update copied; and the ROAs that each
      serial number last stood for. */
  datatype History = History(path: seq<nat>, taken: set<Roa>, snap: map<nat, set<Roa>>)

  datatype State = State(db: Db, hist: History, updater: Updater)

  /** What the environment contributes to a step. */
  datatype Input =
    | Start(next: Option<nat>, random: nat, latest: Option<nat>) // argv[1], random(), latest serial
    | Execute(rpki: set<Roa>, now: int, cutoff: int)             // the valid ROAs and the clock
    | Crash

  function Init(): State {
    State(Db(map[], map[], map[]), History([], {}, map[]), Idle)
  }

  /** create_time is assumed to increase strictly from row to row. */
  predicate ClockAdvanced(db: Db, now: int) {
    forall t :: t in db.updates ==> db.updates[t].created < now
  }

  predicate Enabled(s: State, i: Input) {
    match i
    case Start(_, _, latest) => s.updater.Idle? && IsLatest(s.db, latest)
    case Execute(_, now, _) => s.updater.Running? && (s.updater.at.SInsertUpdate? ==> ClockAdvanced(s.db, now))
    case Crash => true
  }

  function Surviving(path: seq<nat>, updates: map<nat, Row>): seq<nat> {
    if path != [] && path[0] !in updates then Surviving(path[1..], updates) else path
  }

  /** The serial number that follows `previous`, unless one is given on the command line. */
  function Next(next: Option<nat>, previous: nat): nat {
    if next.Some? then next.value else (previous + 1) % SERIAL_SPACE
  }

  function Begin(next: Option<nat>, random: nat, latest: Option<nat>): Updater {
    var previous := if latest.Some? then latest.value else random;
    Running(SDeleteIncompleteIncremental, latest.None?, previous, Next(next, previous), next.Some?)
  }

  function Step(s: State, i: Input): State
    requires Enabled(s, i)
  {
    match i
    case Start(next, random, latest) => s.(updater := Begin(next, random, latest))
    case Crash => s.(updater := Idle)
    case Execute(rpki, now, cutoff) =>
      var u := s.updater;
      match u.at
      case SDeleteIncompleteIncremental =>
        s.(db := DeleteIncompleteIncremental(s.db), updater := u.(at := SDeleteIncompleteFull))
      case SDeleteIncompleteFull =>
        s.(db := DeleteIncompleteFull(s.db), updater := u.(at := SCheckSerials))
      case SCheckSerials =>
        s.(updater := if u.first || GoodSerials(s.db, u.previous, u.current) then u.(at := SInsertFull) else Idle)
      case SInsertFull =>
        s.(db := InsertFull(s.db, u.current, rpki), hist := s.hist.(taken := rpki),
           updater := u.(at := if u.first then SHasChanges else SInsertAnnouncements))
      case SInsertAnnouncements =>
        s.(db := InsertIncremental(s.db, u.current, true, u.previous, u.current),
           updater := u.(at := SInsertWithdrawals))
      case SInsertWithdrawals =>
        s.(db := InsertIncremental(s.db, u.current, false, u.current, u.previous),
           updater := u.(at := SHasChanges))
      case SHasChanges =>
        var changed := u.first || DeltaAt(s.db, u.current) != map[];
        s.(updater := u.(at := if changed || u.force then SInsertUpdate else SDeleteUselessFull))
      case SInsertUpdate =>
        s.(db := InsertUpdate(s.db, u.current, if u.first then None else Some(u.previous), now),
           hist := s.hist.(path := s.hist.path + [u.current], snap := s.hist.snap[u.current := s.hist.taken]),
           updater := u.(at := SIgnoreOldFull))
      case SDeleteUselessFull =>
        s.(db := DeleteUselessFull(s.db, u.current), updater := u.(at := SIgnoreOldFull))
      case SIgnoreOldFull =>
        s.(db := IgnoreOldFull(s.db, u.current, u.previous), updater := u.(at := SDeleteOldFull))
      case SDeleteOldFull =>
        s.(db := DeleteOldFull(s.db, u.current, u.previous), updater := u.(at := SDeleteOldUpdate))
      case SDeleteOldUpdate =>
        var db := DeleteOldUpdate(s.db, cutoff, u.current, u.previous);
        s.(db := db, hist := s.hist.(path := Surviving(s.hist.path, db.updates)),
           updater := u.(at := SIgnoreOldIncremental))
      case SIgnoreOldIncremental =>
        s.(db := IgnoreOldIncremental(s.db), updater := u.(at := SDeleteOldIncremental))
      case SDeleteOldIncremental =>
        s.(db := DeleteOldIncremental(s.db), updater := Idle)
  }

  predicate StepAt(states: seq<State>, inputs: seq<Input>, i: nat) {
    && i < |inputs| && i + 1 < |states|
    && Enabled(states[i], inputs[i]) && states[i + 1] == Step(states[i], inputs[i])
  }

  ghost predicate Run(states: seq<State>, inputs: seq<Input>) {
    && |states| == |inputs| + 1
    && states[0] == Init()
    && forall i :: 0 <= i < |inputs| ==> StepAt(states, inputs, i)
  }

  // ----- what holds at every statement boundary -----

  predicate Follows(updates: map<nat, Row>, path: seq<nat>, i: nat) {
    0 < i < |path| && path[i] in updates && updates[path[i]].prev == Some(path[i - 1])
  }

  predicate Earlier(updates: map<nat, Row>, path: seq<nat>, i: nat, j: nat) {
    && i < |path| && j < |path| && path[i] in updates && path[j] in updates
    && updates[path[i]].created < updates[path[j]].created
  }

  ghost predicate Ordered(updates: map<nat, Row>, path: seq<nat>) {
    forall i: nat, j: nat {:trigger Earlier(updates, path, i, j)} ::
      i < j < |path| ==> Earlier(updates, path, i, j)
  }

  /** The rows of rtr_update form one simple path under prev_serial_num, in creation
      order; the oldest row has no predecessor left. */
  ghost predicate PathOk(updates: map<nat, Row>, path: seq<nat>) {
    && Distinct(path)
    && (forall s :: s in path <==> s in updates)
    && (forall i {:trigger Follows(updates, path, i)} :: 0 < i < |path| ==> Follows(updates, path, i))
    && Ordered(updates, path)
    && (path != [] && updates[path[0]].prev.Some? ==> updates[path[0]].prev.value !in updates)
  }

  /** A row with has_full has its whole snapshot in rtr_full. */
  predicate FullOk(db: Db, snap: map<nat, set<Roa>>) {
    forall s :: s in db.updates ==> s in snap && (db.updates[s].hasFull ==> FullAt(db, s) == snap[s])
  }

  /** A row with a predecessor has exactly its changes in rtr_incremental. */
  predicate DeltasOk(db: Db, snap: map<nat, set<Roa>>) {
    forall s :: s in db.updates && s in snap && db.updates[s].prev.Some? ==>
      var p := db.updates[s].prev.value;
      p in snap && DeltaAt(db, s) == Diff(snap[p], snap[s])
  }

  ghost predicate DbOk(db: Db, h: History) {
    && PathOk(db.updates, h.path)
    && FullOk(db, h.snap)
    && DeltasOk(db, h.snap)
    && (h.path != [] ==> db.updates[Latest(h.path)].hasFull)
  }

  function Latest(path: seq<nat>): nat
    requires path != []
  {
    path[|path| - 1]
  }

  /** What a running update knows before it inserts its row. */
  ghost predicate BeforeInsert(db: Db, h: History, u: Updater)
    requires u.Running?
  {
    && u.first == (h.path == [])
    && (!u.first ==> u.previous == Latest(h.path))
    && match u.at
       case SDeleteIncompleteIncremental => true
       case SDeleteIncompleteFull => db.incremental.Keys <= db.updates.Keys
       case SCheckSerials => db.incremental.Keys <= db.updates.Keys && db.full.Keys <= db.updates.Keys
       case _ =>
         && u.current !in db.updates
         && (forall t :: t in db.updates ==> db.updates[t].prev != Some(u.current))
         && (!u.at.SInsertFull? ==> FullAt(db, u.current) == h.taken)
         && match u.at
            case SInsertFull => u.current !in db.incremental && u.current !in db.full
            case SInsertAnnouncements => !u.first && u.current !in db.incremental
            case SInsertWithdrawals =>
              !u.first && DeltaAt(db, u.current) == map r | r in FullAt(db, u.current) - FullAt(db, u.previous) :: true
            case SHasChanges =>
              !u.first ==> DeltaAt(db, u.current) == Diff(FullAt(db, u.previous), FullAt(db, u.current))
            case SInsertUpdate =>
              !u.first ==> DeltaAt(db, u.current) == Diff(FullAt(db, u.previous), FullAt(db, u.current))
            case _ => !u.first
  }

  predicate IsBeforeInsert(at: Statement) {
    || at.SDeleteIncompleteIncremental? || at.SDeleteIncompleteFull? || at.SCheckSerials? || at.SInsertFull?
    || at.SInsertAnnouncements? || at.SInsertWithdrawals? || at.SHasChanges? || at.SInsertUpdate?
    || at.SDeleteUselessFull?
  }

  /** The update's two serial numbers are the newest rows, or its own was not needed. */
  predicate NewestTwo(path: seq<nat>, u: Updater)
    requires u.Running?
  {
    && path != []
    && (|| (Latest(path) == u.current && (|path| >= 2 ==> path[|path| - 2] == u.previous))
        || (Latest(path) == u.previous && u.current !in path))
  }

  ghost predicate UpdaterOk(db: Db, h: History, u: Updater) {
    u.Running? ==>
      if IsBeforeInsert(u.at) then BeforeInsert(db, h, u)
      else
        && ((u.at.SIgnoreOldFull? || u.at.SDeleteOldFull? || u.at.SDeleteOldUpdate?) ==> NewestTwo(h.path, u))
        && (u.at.SDeleteOldFull? || u.at.SDeleteOldUpdate? ==>
              forall s :: s in db.updates && db.updates[s].hasFull ==> s == u.current || s == u.previous)
  }

  ghost predicate Ok(s: State) {
    DbOk(s.db, s.hist) && UpdaterOk(s.db, s.hist, s.updater)
  }

  // ----- the path -----

  lemma OrderIsDistinct(updates: map<nat, Row>, path: seq<nat>)
    requires Ordered(updates, path)
    ensures Distinct(path)
  {
    forall i: nat, j: nat | Same(path, i, j) ensures i == j {
      assert i < j ==> Earlier(updates, path, i, j);
      assert j < i ==> Earlier(updates, path, j, i);
    }
  }

  lemma LatestIsNewest(updates: map<nat, Row>, path: seq<nat>)
    requires PathOk(updates, path) && path != []
    ensures Latest(path) in updates
    ensures forall t :: t in updates && t != Latest(path) ==> updates[t].created < updates[Latest(path)].created
  {
    assert Latest(path) in path;
    forall t | t in updates && t != Latest(path) ensures updates[t].created < updates[Latest(path)].created {
      assert t in path;
      var k: nat :| k < |path| && path[k] == t;
      assert Earlier(updates, path, k, |path| - 1);
    }
  }

  lemma PathAppend(updates: map<nat, Row>, path: seq<nat>, s: nat, u: Row)
    requires PathOk(updates, path) && s !in updates
    requires path == [] ==> u.prev == None
    requires path != [] ==> u.prev == Some(Latest(path))
    requires forall t :: t in updates ==> updates[t].created < u.created
    requires forall t :: t in updates ==> updates[t].prev != Some(s)
    ensures PathOk(updates[s := u], path + [s])
  {
    var updates', path' := updates[s := u], path + [s];
    forall i | 0 < i < |path'| ensures Follows(updates', path', i) {
      if i < |path| {
        assert Follows(updates, path, i);
      }
    }
    forall i: nat, j: nat | i < j < |path'| ensures Earlier(updates', path', i, j) {
      assert path[i] in path;
      if j < |path| {
        assert Earlier(updates, path, i, j);
      }
    }
    OrderIsDistinct(updates', path');
  }

  lemma PathSame(updates: map<nat, Row>, updates': map<nat, Row>, path: seq<nat>)
    requires PathOk(updates, path) && updates'.Keys == updates.Keys
    requires forall t :: t in updates ==>
      && updates'[t].created == updates[t].created
      && (updates'[t].prev == updates[t].prev || (updates'[t].prev == None && updates[t].prev.value !in updates))
    ensures PathOk(updates', path)
  {
    forall i | 0 < i < |path| ensures Follows(updates', path, i) {
      assert Follows(updates, path, i) && path[i - 1] in path;
    }
    forall i: nat, j: nat | i < j < |path| ensures Earlier(updates', path, i, j) {
      assert Earlier(updates, path, i, j);
    }
  }

  lemma SuffixMembers(updates: map<nat, Row>, updates': map<nat, Row>, path: seq<nat>, k: nat)
    requires k <= |path| && (forall s :: s in path <==> s in updates)
    requires forall t :: t in updates' ==> t in updates
    requires forall j :: 0 <= j < |path| ==> (path[j] in updates' <==> k <= j)
    ensures forall t :: t in path[k..] <==> t in updates'
  {
    forall t | t in updates' ensures t in path[k..] {
      assert t in path;
      var j :| 0 <= j < |path| && path[j] == t;
      assert path[k..][j - k] == t;
    }
  }

  lemma SuffixLinks(updates: map<nat, Row>, updates': map<nat, Row>, path: seq<nat>, k: nat, i: nat)
    requires PathOk(updates, path) && 0 < i && k + i < |path|
    requires path[k + i] in updates' && updates'[path[k + i]] == updates[path[k + i]]
    ensures Follows(updates', path[k..], i)
  {
    assert Follows(updates, path, k + i);
  }

  lemma PathSuffix(updates: map<nat, Row>, updates': map<nat, Row>, path: seq<nat>, k: nat)
    requires PathOk(updates, path) && k <= |path|
    requires forall t :: t in updates' ==> t in updates && updates'[t] == updates[t]
    requires forall j :: 0 <= j < |path| ==> (path[j] in updates' <==> k <= j)
    ensures PathOk(updates', path[k..])
  {
    var path' := path[k..];
    SuffixMembers(updates, updates', path, k);
    forall i | 0 < i < |path'| ensures Follows(updates', path', i) {
      SuffixLinks(updates, updates', path, k, i);
    }
    forall i: nat, j: nat | i < j < |path'| ensures Earlier(updates', path', i, j) {
      assert Earlier(updates, path, k + i, k + j);
    }
    DistinctSlice(path, k, |path|);
    assert path[k..|path|] == path';
    if k > 0 && path' != [] {
      assert Follows(updates, path, k);
    }
  }

  // ----- each statement keeps it -----

  lemma StartKeepsOk(s: State, i: Input)
    requires Ok(s) && i.Start? && Enabled(s, i)
    ensures Ok(Step(s, i))
  {
    var path := s.hist.path;
    if path != [] {
      assert path[0] in s.db.updates && Latest(path) in path;
      assert i.latest.value in path;
      LatestIsNewest(s.db.updates, path);
    } else {
      assert s.db.updates == map[];
    }
  }

  /** Statements that leave rtr_update and the data of its rows alone. */
  lemma SameRowsKeepDb(db: Db, db': Db, h: History)
    requires DbOk(db, h) && db'.updates == db.updates
    requires forall t :: t in db.updates ==> DeltaAt(db', t) == DeltaAt(db, t) && FullAt(db', t) == FullAt(db, t)
    ensures DbOk(db', h)
  {
  }

  lemma DeleteIncompleteIncrementalKeepsDb(db: Db, h: History)
    requires DbOk(db, h)
    ensures DbOk(DeleteIncompleteIncremental(db), h)
    ensures DeleteIncompleteIncremental(db).incremental.Keys <= db.updates.Keys
  {
    SameRowsKeepDb(db, DeleteIncompleteIncremental(db), h);
  }

  lemma DeleteIncompleteFullKeepsDb(db: Db, h: History)
    requires DbOk(db, h)
    ensures DbOk(DeleteIncompleteFull(db), h)
    ensures DeleteIncompleteFull(db).full.Keys <= db.updates.Keys
  {
    SameRowsKeepDb(db, DeleteIncompleteFull(db), h);
  }

  lemma CheckSerialsKeepsOk(s: State, i: Input)
    requires Ok(s) && i.Execute? && Enabled(s, i) && s.updater.at.SCheckSerials?
    ensures Ok(Step(s, i))
  {
    if s.updater.first {
      assert forall t :: t in s.db.updates ==> t in s.hist.path;
    }
  }

  lemma InsertFullKeepsOk(s: State, i: Input)
    requires Ok(s) && i.Execute? && Enabled(s, i) && s.updater.at.SInsertFull?
    ensures Ok(Step(s, i))
  {
    SameRowsKeepDb(s.db, Step(s, i).db, s.hist);
  }

  lemma InsertIncrementalKeepsDb(db: Db, h: History, serial: nat, isAnnounce: bool, absent: nat, present: nat)
    requires DbOk(db, h) && serial !in db.updates
    ensures DbOk(InsertIncremental(db, serial, isAnnounce, absent, present), h)
  {
    SameRowsKeepDb(db, InsertIncremental(db, serial, isAnnounce, absent, present), h);
  }

  lemma InsertAnnouncementsKeepsOk(s: State, i: Input)
    requires Ok(s) && i.Execute? && Enabled(s, i) && s.updater.at.SInsertAnnouncements?
    ensures Ok(Step(s, i))
  {
    var s', u := Step(s, i), s.updater;
    InsertIncrementalKeepsDb(s.db, s.hist, u.current, true, u.previous, u.current);
    assert forall t :: FullAt(s'.db, t) == FullAt(s.db, t);
    assert DeltaAt(s'.db, u.current) == map r | r in FullAt(s.db, u.current) - FullAt(s.db, u.previous) :: true;
  }

  lemma InsertWithdrawalsKeepsOk(s: State, i: Input)
    requires Ok(s) && i.Execute? && Enabled(s, i) && s.updater.at.SInsertWithdrawals?
    ensures Ok(Step(s, i))
  {
    var s', u := Step(s, i), s.updater;
    InsertIncrementalKeepsDb(s.db, s.hist, u.current, false, u.current, u.previous);
    assert forall t :: FullAt(s'.db, t) == FullAt(s.db, t);
    assert DeltaAt(s'.db, u.current) == Diff(FullAt(s.db, u.previous), FullAt(s.db, u.current));
  }

  lemma InsertUpdateKeepsData(s: State, i: Input)
    requires Ok(s) && i.Execute? && Enabled(s, i) && s.updater.at.SInsertUpdate?
    ensures FullOk(Step(s, i).db, Step(s, i).hist.snap) && DeltasOk(Step(s, i).db, Step(s, i).hist.snap)
  {
    var s' := Step(s, i);
    var u := s.updater;
    assert forall t :: DeltaAt(s'.db, t) == DeltaAt(s.db, t) && FullAt(s'.db, t) == FullAt(s.db, t);
    if !u.first {
      assert u.previous in s.hist.path;
      assert FullAt(s.db, u.previous) == s.hist.snap[u.previous];
    }
  }

  lemma InsertUpdateKeepsPath(s: State, i: Input)
    requires Ok(s) && i.Execute? && Enabled(s, i) && s.updater.at.SInsertUpdate?
    ensures PathOk(Step(s, i).db.updates, Step(s, i).hist.path)
    ensures NewestTwo(Step(s, i).hist.path, Step(s, i).updater)
  {
    var s', u := Step(s, i), s.updater;
    PathAppend(s.db.updates, s.hist.path, u.current, s'.db.updates[u.current]);
    assert Latest(s'.hist.path) == u.current;
  }

  lemma InsertUpdateKeepsOk(s: State, i: Input)
    requires Ok(s) && i.Execute? && Enabled(s, i) && s.updater.at.SInsertUpdate?
    ensures Ok(Step(s, i))
  {
    InsertUpdateKeepsData(s, i);
    InsertUpdateKeepsPath(s, i);
  }

  lemma DeleteUselessFullKeepsOk(s: State, i: Input)
    requires Ok(s) && i.Execute? && Enabled(s, i) && s.updater.at.SDeleteUselessFull?
    ensures Ok(Step(s, i))
  {
    SameRowsKeepDb(s.db, Step(s, i).db, s.hist);
  }

  /** Statements that only clear has_full, or a predecessor that is gone. */
  lemma WeakerRowsKeepData(db: Db, updates': map<nat, Row>, snap: map<nat, set<Roa>>)
    requires FullOk(db, snap) && DeltasOk(db, snap)
    requires forall t :: t in updates' ==>
      && t in db.updates
      && (updates'[t].hasFull ==> db.updates[t].hasFull)
      && (updates'[t].prev.Some? ==> db.updates[t].prev == updates'[t].prev)
    ensures FullOk(db.(updates := updates'), snap) && DeltasOk(db.(updates := updates'), snap)
  {
    var db' := db.(updates := updates');
    assert forall t :: DeltaAt(db', t) == DeltaAt(db, t) && FullAt(db', t) == FullAt(db, t);
  }

  lemma IgnoreOldFullKeepsDb(db: Db, h: History, u: Updater)
    requires DbOk(db, h) && u.Running? && NewestTwo(h.path, u)
    ensures DbOk(IgnoreOldFull(db, u.current, u.previous), h)
  {
    var db' := IgnoreOldFull(db, u.current, u.previous);
    PathSame(db.updates, db'.updates, h.path);
    WeakerRowsKeepData(db, db'.updates, h.snap);
    assert Latest(h.path) in h.path;
  }

  lemma DeleteOldFullKeepsDb(db: Db, h: History, s1: nat, s2: nat)
    requires DbOk(db, h)
    requires forall t :: t in db.updates && db.updates[t].hasFull ==> t == s1 || t == s2
    ensures DbOk(DeleteOldFull(db, s1, s2), h)
  {
    var db' := DeleteOldFull(db, s1, s2);
    assert forall t :: DeltaAt(db', t) == DeltaAt(db, t);
  }

  lemma {:induction false} SurvivingIsSuffix(path: seq<nat>, updates: map<nat, Row>)
    ensures |Surviving(path, updates)| <= |path|
    ensures Surviving(path, updates) == path[|path| - |Surviving(path, updates)|..]
    ensures forall k :: 0 <= k < |path| - |Surviving(path, updates)| ==> path[k] !in updates
    ensures Surviving(path, updates) != [] ==> Surviving(path, updates)[0] in updates
  {
    if path == [] || path[0] in updates {
    } else {
      SurvivingIsSuffix(path[1..], updates);
    }
  }

  lemma YoungerSurvives(db: Db, path: seq<nat>, cutoff: int, u: Updater, k: nat, j: nat)
    requires u.Running? && PathOk(db.updates, path) && NewestTwo(path, u) && k < j < |path|
    requires path[k] in DeleteOldUpdate(db, cutoff, u.current, u.previous).updates
    ensures path[j] in DeleteOldUpdate(db, cutoff, u.current, u.previous).updates
  {
    assert Earlier(db.updates, path, k, j) && path[j] in path;
    assert !Same(path, k, |path| - 1);
    assert Same(path, k, |path| - 2) ==> k == |path| - 2;
  }

  /** The rows that outlive the clean-up are the newest ones. */
  lemma OldUpdatesAreInitial(db: Db, path: seq<nat>, cutoff: int, u: Updater, updates': map<nat, Row>) returns (k: nat)
    requires u.Running? && PathOk(db.updates, path) && NewestTwo(path, u)
    requires updates' == DeleteOldUpdate(db, cutoff, u.current, u.previous).updates
    ensures k < |path| && Surviving(path, updates') == path[k..]
    ensures forall j :: 0 <= j < |path| ==> (path[j] in updates' <==> k <= j)
  {
    SurvivingIsSuffix(path, updates');
    k := |path| - |Surviving(path, updates')|;
    assert Latest(path) in path && Latest(path) in updates';
    assert path[k..][0] == path[k];
    forall j: nat | k < j < |path| ensures path[j] in updates' {
      YoungerSurvives(db, path, cutoff, u, k, j);
    }
  }

  /** The clean-up removes an initial segment of the path. */
  lemma DeleteOldUpdateIsSuffix(db: Db, h: History, u: Updater, cutoff: int) returns (k: nat)
    requires DbOk(db, h) && u.Running? && NewestTwo(h.path, u)
    ensures var updates' := DeleteOldUpdate(db, cutoff, u.current, u.previous).updates;
            k < |h.path| && Surviving(h.path, updates') == h.path[k..] && PathOk(updates', h.path[k..])
  {
    var updates' := DeleteOldUpdate(db, cutoff, u.current, u.previous).updates;
    k := OldUpdatesAreInitial(db, h.path, cutoff, u, updates');
    PathSuffix(db.updates, updates', h.path, k);
  }

  lemma {:induction false} SurvivingEnds(path: seq<nat>, updates: map<nat, Row>) returns (k: nat)
    requires path != [] && Latest(path) in updates
    ensures k < |path| && Surviving(path, updates) == path[k..] && Latest(path[k..]) == Latest(path)
  {
    if path[0] in updates {
      k := 0;
    } else {
      var j := SurvivingEnds(path[1..], updates);
      k := j + 1;
      assert path[1..][j..] == path[k..];
    }
  }

  /** The newest row survives the removal of old rows. */
  lemma SurvivorsEndWithLatest(db: Db, path: seq<nat>, u: Updater, cutoff: int) returns (k: nat)
    requires u.Running? && NewestTwo(path, u) && forall s :: s in path ==> s in db.updates
    ensures var path' := Surviving(path, DeleteOldUpdate(db, cutoff, u.current, u.previous).updates);
            k < |path| && path' == path[k..] && Latest(path') == Latest(path)
  {
    assert Latest(path) in path;
    k := SurvivingEnds(path, DeleteOldUpdate(db, cutoff, u.current, u.previous).updates);
  }

  lemma DeleteOldUpdateKeepsDb(db: Db, h: History, u: Updater, cutoff: int)
    requires DbOk(db, h) && u.Running? && NewestTwo(h.path, u)
    ensures var db' := DeleteOldUpdate(db, cutoff, u.current, u.previous);
            DbOk(db', h.(path := Surviving(h.path, db'.updates)))
  {
    var db' := DeleteOldUpdate(db, cutoff, u.current, u.previous);
    var k := DeleteOldUpdateIsSuffix(db, h, u, cutoff);
    WeakerRowsKeepData(db, db'.updates, h.snap);
    assert Latest(h.path[k..]) == Latest(h.path);
    assert Latest(h.path[k..]) in h.path[k..];
  }

  lemma IgnoreOldIncrementalKeepsDb(db: Db, h: History)
    requires DbOk(db, h)
    ensures DbOk(IgnoreOldIncremental(db), h)
  {
    var db' := IgnoreOldIncremental(db);
    PathSame(db.updates, db'.updates, h.path);
    WeakerRowsKeepData(db, db'.updates, h.snap);
    if h.path != [] { assert Latest(h.path) in h.path; }
  }

  lemma DeleteOldIncrementalKeepsDb(db: Db, h: History)
    requires DbOk(db, h)
    ensures DbOk(DeleteOldIncremental(db), h)
  {
    var db' := DeleteOldIncremental(db);
    assert forall t :: FullAt(db', t) == FullAt(db, t);
  }

  lemma PrepareKeepsOk(s: State, i: Input)
    requires Ok(s) && i.Execute? && Enabled(s, i) && IsBeforeInsert(s.updater.at)
    ensures Ok(Step(s, i))
  {
    match s.updater.at
    case SDeleteIncompleteIncremental => DeleteIncompleteIncrementalKeepsDb(s.db, s.hist);
    case SDeleteIncompleteFull => DeleteIncompleteFullKeepsDb(s.db, s.hist);
    case SCheckSerials => CheckSerialsKeepsOk(s, i);
    case SInsertFull => InsertFullKeepsOk(s, i);
    case SInsertAnnouncements => InsertAnnouncementsKeepsOk(s, i);
    case SInsertWithdrawals => InsertWithdrawalsKeepsOk(s, i);
    case SHasChanges =>
    case SInsertUpdate => InsertUpdateKeepsOk(s, i);
    case SDeleteUselessFull => DeleteUselessFullKeepsOk(s, i);
  }

  lemma CleanUpFullKeepsOk(s: State, i: Input)
    requires Ok(s) && i.Execute? && Enabled(s, i)
    requires s.updater.at.SIgnoreOldFull? || s.updater.at.SDeleteOldFull?
    ensures Ok(Step(s, i))
  {
    var u := s.updater;
    if u.at.SIgnoreOldFull? {
      IgnoreOldFullKeepsDb(s.db, s.hist, u);
    } else {
      DeleteOldFullKeepsDb(s.db, s.hist, u.current, u.previous);
    }
  }

  lemma CleanUpUpdateKeepsOk(s: State, i: Input, s': State)
    requires DbOk(s.db, s.hist) && s.updater.Running? && NewestTwo(s.hist.path, s.updater)
    requires i.Execute? && Enabled(s, i) && s.updater.at.SDeleteOldUpdate? && s' == Step(s, i)
    ensures DbOk(s'.db, s'.hist) && s'.updater.Running? && s'.updater.at.SIgnoreOldIncremental?
  {
    DeleteOldUpdateKeepsDb(s.db, s.hist, s.updater, i.cutoff);
  }

  lemma CleanUpIncrementalKeepsOk(s: State, i: Input)
    requires Ok(s) && i.Execute? && Enabled(s, i)
    requires s.updater.at.SIgnoreOldIncremental? || s.updater.at.SDeleteOldIncremental?
    ensures Ok(Step(s, i))
  {
    if s.updater.at.SIgnoreOldIncremental? {
      IgnoreOldIncrementalKeepsDb(s.db, s.hist);
    } else {
      DeleteOldIncrementalKeepsDb(s.db, s.hist);
    }
  }

  lemma StepKeepsOk(s: State, i: Input)
    requires Ok(s) && Enabled(s, i)
    ensures Ok(Step(s, i))
  {
    match i
    case Crash =>
    case Start(_, _, _) => StartKeepsOk(s, i);
    case Execute(_, _, _) =>
      if IsBeforeInsert(s.updater.at) {
        PrepareKeepsOk(s, i);
      } else if s.updater.at.SDeleteOldUpdate? {
        CleanUpUpdateKeepsOk(s, i, Step(s, i));
      } else if s.updater.at.SIgnoreOldFull? || s.updater.at.SDeleteOldFull? {
        CleanUpFullKeepsOk(s, i);
      } else {
        CleanUpIncrementalKeepsOk(s, i);
      }
  }

  lemma {:induction false} RunOk(states: seq<State>, inputs: seq<Input>, i: nat)
    requires Run(states, inputs) && i < |states|
    ensures Ok(states[i])
  {
    if i == 0 {
    } else {
      RunOk(states, inputs, i - 1);
      assert StepAt(states, inputs, i - 1);
      StepKeepsOk(states[i - 1], inputs[i - 1]);
    }
  }
}
