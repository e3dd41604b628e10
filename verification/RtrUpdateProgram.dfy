/** rpki-rtr-update as a program that changes the tables statement by statement.
    `lives` is the number of writing statements after which the process dies.  The
    program is proved to take only steps of the state machine of RtrUpdate. */
module RtrUpdateProgram {
  import opened Options
  import opened RtrTables
  import opened RtrUpdate

  class Database {
    var db: Db
    // the run of the state machine so far
    ghost var states: seq<State>
    ghost var inputs: seq<Input>

    ghost predicate Valid()
      reads this
    {
      Run(states, inputs) && Now().db == db
    }

    ghost function Now(): State
      reads this
      requires |states| > 0
    {
      states[|states| - 1]
    }

    ghost function Updating(): Updater
      reads this
      requires |states| > 0
    {
      Now().updater
    }

    ghost function Hist(): History
      reads this
      requires |states| > 0
    {
      Now().hist
    }

    constructor ()
      ensures Valid() && states == [Init()]
    {
      db := Init().db;
      states := [Init()];
      inputs := [];
    }

    /** Records that the machine took the step the program is about to take. */
    ghost method Log(i: Input)
      requires Run(states, inputs) && Enabled(Now(), i)
      modifies this`states, this`inputs
      ensures Run(states, inputs) && states == old(states) + [Step(old(Now()), i)] && inputs == old(inputs) + [i]
    {
      Extend(states, inputs, i);
      states := states + [Step(Now(), i)];
      inputs := inputs + [i];
    }

    /** db_rtr_get_latest_sernum */
    method GetLatest() returns (latest: Option<nat>)
      ensures IsLatest(db, latest)
    {
      latest := None;
      var rest := db.updates.Keys;
      while rest != {}
        invariant rest <= db.updates.Keys
        invariant latest.None? ==> rest == db.updates.Keys
        invariant latest.Some? ==> latest.value in db.updates
        invariant forall t :: latest.Some? && t in db.updates && t !in rest ==>
                    db.updates[t].created <= db.updates[latest.value].created
        decreases rest
      {
        var t :| t in rest;
        if latest.None? || db.updates[latest.value].created < db.updates[t].created {
          latest := Some(t);
        }
        rest := rest - {t};
      }
      if latest.None? {
        assert db.updates.Keys == {};
        assert db.updates == map[];
      }
    }

    /** Reads the latest serial number and computes the next one. */
    method Open(next: Option<nat>, random: nat) returns (first: bool, previous: nat, current: nat)
      requires Valid() && Updating().Idle?
      modifies this
      ensures Valid() && Hist() == old(Hist()) && db == old(db) && old(states) <= states
      ensures Updating() == Running(SDeleteIncompleteIncremental, first, previous, current, next.Some?)
      ensures IsLatest(db, if first then None else Some(previous)) && (first ==> previous == random)
      ensures current == Next(next, previous)
      ensures next.None? && previous < SERIAL_SPACE ==>
                current == if previous == SERIAL_SPACE - 1 then 0 else previous + 1
    {
      var latest := GetLatest();
      first := latest.None?;
      previous := if latest.Some? then latest.value else random;
      // relies on unsigned wrap-around to zero
      current := Next(next, previous);
      Log(Start(next, random, latest));
    }

    /** The statements before the copy of the ROAs. */
    method Prepare(first: bool, previous: nat, current: nat, lives: nat) returns (goOn: bool)
      requires Valid() && Updating().Running? && Updating().at == SDeleteIncompleteIncremental
      requires Updating().first == first && Updating().previous == previous && Updating().current == current
      modifies this
      ensures Valid() && Hist() == old(Hist()) && db.updates == old(db.updates) && old(states) <= states
      ensures forall t :: t in db.updates ==>
                FullAt(db, t) == FullAt(old(db), t) && DeltaAt(db, t) == DeltaAt(old(db), t)
      ensures goOn ==> Updating() == old(Updating()).(at := SInsertFull)
      ensures goOn <==> lives >= 2 && (first || GoodSerials(db, previous, current))
      ensures lives >= 2 ==> db.incremental.Keys <= db.updates.Keys && db.full.Keys <= db.updates.Keys
    {
      if lives < 1 { return false; }
      db := DeleteIncompleteIncremental(db);
      Log(Execute({}, 0, 0));
      if lives < 2 { return false; }
      db := DeleteIncompleteFull(db);
      Log(Execute({}, 0, 0));
      goOn := first || GoodSerials(db, previous, current);
      Log(Execute({}, 0, 0));
    }

    /** db_rtr_insert_full */
    method CopyFull(first: bool, current: nat, rpki: set<Roa>, lives: nat) returns (goOn: bool)
      requires Valid() && Updating().Running? && Updating().at == SInsertFull
      requires Updating().first == first && Updating().current == current
      modifies this
      ensures Valid() && db.updates == old(db.updates) && old(states) <= states
      ensures Hist() == old(Hist()) || Hist() == old(Hist()).(taken := rpki)
      ensures goOn ==>
                && Updating() == old(Updating()).(at := if first then SHasChanges else SInsertAnnouncements)
                && Hist().taken == rpki
      ensures goOn <==> lives >= 3
    {
      if lives < 3 { return false; }
      db := InsertFull(db, current, rpki);
      Log(Execute(rpki, 0, 0));
      goOn := true;
    }

    /** db_rtr_insert_incremental */
    method CopyDelta(previous: nat, current: nat, lives: nat) returns (goOn: bool)
      requires Valid() && Updating().Running? && Updating().at == SInsertAnnouncements
      requires Updating().previous == previous && Updating().current == current
      modifies this
      ensures Valid() && db.updates == old(db.updates) && old(states) <= states && Hist() == old(Hist())
      ensures goOn ==> Updating() == old(Updating()).(at := SHasChanges)
      ensures goOn <==> lives >= 5
    {
      if lives < 4 { return false; }
      db := InsertIncremental(db, current, true, previous, current);
      Log(Execute({}, 0, 0));
      if lives < 5 { return false; }
      db := InsertIncremental(db, current, false, current, previous);
      Log(Execute({}, 0, 0));
      goOn := true;
    }

    /** Afterwards rtr_full has the ROAs and rtr_incremental what changed. */
    method Copy(first: bool, previous: nat, current: nat, rpki: set<Roa>, lives: nat) returns (goOn: bool)
      requires Valid() && Updating().Running? && Updating().at == SInsertFull
      requires Updating().first == first && Updating().previous == previous && Updating().current == current
      modifies this
      ensures Valid() && db.updates == old(db.updates) && old(states) <= states
      ensures Hist() == old(Hist()) || Hist() == old(Hist()).(taken := rpki)
      ensures goOn ==> Updating() == old(Updating()).(at := SHasChanges) && Hist().taken == rpki
      ensures goOn ==> FullAt(db, current) == rpki
      ensures goOn && !first ==> DeltaAt(db, current) == Diff(FullAt(db, previous), rpki)
      ensures goOn <==> lives >= if first then 3 else 5
    {
      goOn := CopyFull(first, current, rpki, lives);
      if goOn && !first { goOn := CopyDelta(previous, current, lives); }
      RunOk(states, inputs, |states| - 1);
    }

    /** Makes the new serial number available, or drops the useless copy. */
    method Publish(first: bool, previous: nat, current: nat, force: bool, now: int, lives: nat) returns (goOn: bool)
      requires Valid() && Updating().Running? && Updating().at == SHasChanges && ClockAdvanced(db, now)
      requires Updating().first == first && Updating().previous == previous
      requires Updating().current == current && Updating().force == force
      modifies this
      ensures Valid() && old(states) <= states
      ensures goOn ==> Updating() == old(Updating()).(at := SIgnoreOldFull) && Published(Hist(), old(Hist().taken))
      ensures goOn <==> lives >= 6
    {
      var changed := first || DeltaAt(db, current) != map[];
      Log(Execute({}, now, 0));
      if lives < 6 { return false; }
      if changed || force {
        db := InsertUpdate(db, current, if first then None else Some(previous), now);
      } else {
        db := DeleteUselessFull(db, current);
      }
      Log(Execute({}, now, 0));
      PublishedByRun(states, inputs, |states| - 3);
      goOn := true;
    }

    method CleanUpFull(previous: nat, current: nat, lives: nat) returns (goOn: bool)
      requires Valid() && Updating().Running? && Updating().at == SIgnoreOldFull
      requires Updating().previous == previous && Updating().current == current
      modifies this
      ensures Valid() && Hist() == old(Hist()) && old(states) <= states
      ensures goOn ==> Updating() == old(Updating()).(at := SDeleteOldUpdate)
      ensures goOn <==> lives >= 8
    {
      if lives < 7 { return false; }
      db := IgnoreOldFull(db, current, previous);
      Log(Execute({}, 0, 0));
      if lives < 8 { return false; }
      db := DeleteOldFull(db, current, previous);
      Log(Execute({}, 0, 0));
      goOn := true;
    }

    method CleanUpRows(previous: nat, current: nat, cutoff: int, lives: nat) returns (goOn: bool)
      requires Valid() && Updating().Running? && Updating().at == SDeleteOldUpdate
      requires Updating().previous == previous && Updating().current == current
      modifies this
      ensures Valid() && old(states) <= states
      ensures forall rpki :: Published(old(Hist()), rpki) ==> Published(Hist(), rpki)
      ensures goOn ==> Updating() == old(Updating()).(at := SIgnoreOldIncremental)
      ensures goOn <==> lives >= 9
    {
      if lives < 9 { return false; }
      db := DeleteOldUpdate(db, cutoff, current, previous);
      Log(Execute({}, 0, cutoff));
      StillPublished(states, inputs, |states| - 2);
      goOn := true;
    }

    method CleanUpIncremental(lives: nat) returns (goOn: bool)
      requires Valid() && Updating().Running? && Updating().at == SIgnoreOldIncremental
      modifies this
      ensures Valid() && Hist() == old(Hist()) && old(states) <= states
      ensures goOn <==> lives >= 11
    {
      if lives < 10 { return false; }
      db := IgnoreOldIncremental(db);
      Log(Execute({}, 0, 0));
      if lives < 11 { return false; }
      db := DeleteOldIncremental(db);
      Log(Execute({}, 0, 0));
      goOn := true;
    }

    method CleanUp(previous: nat, current: nat, cutoff: int, lives: nat) returns (goOn: bool)
      requires Valid() && Updating().Running? && Updating().at == SIgnoreOldFull
      requires Updating().previous == previous && Updating().current == current
      modifies this
      ensures Valid() && old(states) <= states
      ensures forall rpki :: Published(old(Hist()), rpki) ==> Published(Hist(), rpki)
      ensures goOn <==> lives >= 11
    {
      goOn := CleanUpFull(previous, current, lives);
      if goOn { goOn := CleanUpRows(previous, current, cutoff, lives); }
      if goOn { goOn := CleanUpIncremental(lives); }
    }

    /** The first part of main: the new data is there, but not in use. */
    method Make(next: Option<nat>, random: nat, rpki: set<Roa>, lives: nat)
      returns (goOn: bool, first: bool, previous: nat, current: nat)
      requires Valid() && Updating().Idle?
      modifies this
      ensures Valid() && db.updates == old(db.updates) && old(states) <= states
      ensures goOn ==> Updating() == Running(SHasChanges, first, previous, current, next.Some?) && Hist().taken == rpki
      ensures goOn <==> lives >= (if first then 3 else 5) && Accepts(old(db), next)
    {
      first, previous, current := Open(next, random);
      AcceptsLatest(states, inputs, next, if first then None else Some(previous));
      goOn := Prepare(first, previous, current, lives);
      if goOn { goOn := Copy(first, previous, current, rpki, lives); }
    }

    /** main.  A `next` given on the command line forces the update.  Whenever the
        process dies, the program has taken steps of the state machine only; a run that
        gets to its end leaves, under the newest serial number, exactly the ROAs it
        found valid.  It gets there if and only if it does not die and the tables accept
        the new serial number. */
    method Update(next: Option<nat>, random: nat, rpki: set<Roa>, now: int, cutoff: int, lives: nat)
      returns (finished: bool)
      requires Valid() && Updating().Idle? && ClockAdvanced(db, now)
      modifies this
      ensures Valid() && Updating().Idle? && old(states) <= states
      ensures finished ==> Published(Hist(), rpki)
      ensures finished <==> lives >= 11 && Accepts(old(db), next)
    {
      finished := false;
      var goOn, first, previous, current := Make(next, random, rpki, lives);
      if goOn { goOn := Publish(first, previous, current, next.Some?, now, lives); }
      if goOn { finished := CleanUp(previous, current, cutoff, lives); }
      Log(Crash);                     // the end of the process, expected or not
    }
  }

  lemma Extend(states: seq<State>, inputs: seq<Input>, i: Input)
    requires Run(states, inputs) && Enabled(states[|states| - 1], i)
    ensures Run(states + [Step(states[|states| - 1], i)], inputs + [i])
  {
    var states', inputs' := states + [Step(states[|states| - 1], i)], inputs + [i];
    forall k: nat | k < |inputs'| ensures StepAt(states', inputs', k) {
      assert k < |inputs| ==> StepAt(states, inputs, k);
    }
  }

  /** There is no row yet, or the new row would neither be there already nor close a circle
      nor follow a row that has a successor. */
  ghost predicate Accepts(db: Db, next: Option<nat>) {
    forall latest: nat :: IsLatest(db, Some(latest)) ==> GoodSerials(db, latest, Next(next, latest))
  }

  lemma AcceptsLatest(states: seq<State>, inputs: seq<Input>, next: Option<nat>, latest: Option<nat>)
    requires Run(states, inputs) && IsLatest(states[|states| - 1].db, latest)
    ensures var db := states[|states| - 1].db;
            Accepts(db, next) <==> latest.None? || GoodSerials(db, latest.value, Next(next, latest.value))
  {
    var s := states[|states| - 1];
    RunOk(states, inputs, |states| - 1);
    if s.hist.path != [] {
      LatestIsNewest(s.db.updates, s.hist.path);
    } else {
      assert forall t :: t in s.db.updates ==> t in s.hist.path;
    }
  }

  /** The newest serial number stands for exactly these ROAs. */
  predicate Published(h: History, rpki: set<Roa>) {
    h.path != [] && Latest(h.path) in h.snap && h.snap[Latest(h.path)] == rpki
  }

  /** An update without changes copied what the newest row already stands for. */
  lemma NoChanges(s: State)
    requires Ok(s) && s.updater.Running? && s.updater.at == SHasChanges
    requires !s.updater.first && DeltaAt(s.db, s.updater.current) == map[]
    ensures Published(s.hist, s.hist.taken)
  {
    NoDiffIsEqual(FullAt(s.db, s.updater.previous), FullAt(s.db, s.updater.current));
    assert Latest(s.hist.path) in s.hist.path;
  }

  lemma PublishedByRun(states: seq<State>, inputs: seq<Input>, n: nat)
    requires Run(states, inputs) && n + 2 < |states| && inputs[n].Execute? && inputs[n + 1].Execute?
    requires states[n].updater.Running? && states[n].updater.at == SHasChanges
    ensures Published(states[n + 2].hist, states[n].hist.taken)
  {
    var s := states[n];
    assert StepAt(states, inputs, n) && StepAt(states, inputs, n + 1);
    if states[n + 1].updater.at == SDeleteUselessFull {
      RunOk(states, inputs, n);
      NoChanges(s);
    }
  }

  lemma RowsKeptLatest(s: State, i: Input)
    requires s.updater.Running? && NewestTwo(s.hist.path, s.updater)
    requires forall t :: t in s.hist.path ==> t in s.db.updates
    requires i.Execute? && s.updater.at == SDeleteOldUpdate
    ensures s.hist.path != [] && Step(s, i).hist.path != []
    ensures Latest(Step(s, i).hist.path) == Latest(s.hist.path) && Step(s, i).hist.snap == s.hist.snap
  {
    var k := SurvivorsEndWithLatest(s.db, s.hist.path, s.updater, i.cutoff);
  }

  lemma StillPublished(states: seq<State>, inputs: seq<Input>, n: nat)
    requires Run(states, inputs) && n + 1 < |states| && inputs[n].Execute?
    requires states[n].updater.Running? && states[n].updater.at == SDeleteOldUpdate
    ensures forall rpki :: Published(states[n].hist, rpki) ==> Published(states[n + 1].hist, rpki)
  {
    RunOk(states, inputs, n);
    assert StepAt(states, inputs, n);
    RowsKeptLatest(states[n], inputs[n]);
  }
}
