/** A reset query that two update runs overlap, and that ends with End of Data without
    having sent all the data.  The first of the two runs is about to insert its row when
    the query begins and dies right after; the second finds no changes and gets as far as
    its clean-up. */
module RtrResetExample {
  import opened Counting
  import opened Options
  import opened RtrTables
  import opened RtrOrder
  import U = RtrUpdate
  import opened RtrNumbering
  import opened RtrSerialQuery
  import opened RtrResetQuery
  import R = RtrUpdateRuns

  /** A run from empty tables to s, all serial numbers given automatically. */
  ghost predicate Reaches(states: seq<ResetState>, inputs: seq<ResetInput>, maxRows: nat, s: ResetState) {
    ResetRun(states, inputs, maxRows) && AllAutomaticNumbers(inputs) && states[|inputs|] == s
  }

  lemma Extend(states: seq<ResetState>, inputs: seq<ResetInput>, maxRows: nat, s: ResetState, i: ResetInput)
    returns (states': seq<ResetState>, inputs': seq<ResetInput>)
    requires Reaches(states, inputs, maxRows, s) && CanReset(s, i) && (i.Updating? ==> Automatic(i.input))
    ensures Reaches(states', inputs', maxRows, ResetStep(s, i))
  {
    states' := states + [ResetStep(s, i)];
    inputs' := inputs + [i];
    forall n: nat | n < |inputs'| ensures ResetAt(states', inputs', n) {
      assert n < |inputs| ==> ResetAt(states, inputs, n);
    }
  }

  /** The first n steps of a stretch of updates, between two SELECTs. */
  lemma {:induction false} UpdateSteps(states: seq<ResetState>, inputs: seq<ResetInput>, maxRows: nat, q: Reset,
                                       us: seq<U.State>, steps: seq<U.Input>, s: U.State, t: U.State, starts: nat,
                                       n: nat)
    returns (states': seq<ResetState>, inputs': seq<ResetInput>)
    requires Reaches(states, inputs, maxRows, ResetState(s, q))
    requires R.Leads(us, steps, s, t, starts, true) && n <= |steps|
    ensures Reaches(states', inputs', maxRows,
                    ResetState(us[n], q.(overlaps := q.overlaps + Count(steps[..n], R.IsStart))))
  {
    if n == 0 {
      states', inputs' := states, inputs;
    } else {
      states', inputs' := UpdateSteps(states, inputs, maxRows, q, us, steps, s, t, starts, n - 1);
      assert U.StepAt(us, steps, n - 1);
      assert steps[..n] == steps[..n - 1] + [steps[n - 1]];
      CountConcat(steps[..n - 1], [steps[n - 1]], R.IsStart);
      states', inputs' := Extend(states', inputs', maxRows,
                                 ResetState(us[n - 1], q.(overlaps := q.overlaps + Count(steps[..n - 1], R.IsStart))),
                                 Updating(steps[n - 1]));
    }
  }

  lemma UpdateRun(states: seq<ResetState>, inputs: seq<ResetInput>, maxRows: nat, q: Reset,
                  us: seq<U.State>, steps: seq<U.Input>, s: U.State, t: U.State, starts: nat)
    returns (states': seq<ResetState>, inputs': seq<ResetInput>)
    requires Reaches(states, inputs, maxRows, ResetState(s, q)) && R.Leads(us, steps, s, t, starts, true)
    ensures Reaches(states', inputs', maxRows, ResetState(t, q.(overlaps := q.overlaps + starts)))
  {
    states', inputs' := UpdateSteps(states, inputs, maxRows, q, us, steps, s, t, starts, |steps|);
    assert steps[..|steps|] == steps;
  }

  /** Serial number 1 stands for d, and an update is about to insert e as number 2. */
  function Before(d: set<Roa>, e: set<Roa>): U.State {
    R.Copied(R.First(d), None, 1, 2, e, U.SInsertUpdate)
  }

  lemma ReachesBefore(maxRows: nat, d: set<Roa>, e: set<Roa>)
    returns (states: seq<ResetState>, inputs: seq<ResetInput>)
    requires maxRows >= 2 && d != e
    ensures Reaches(states, inputs, maxRows, ResetState(Before(d, e), NewReset(maxRows).(overlaps := 2)))
  {
    states, inputs := [ResetState(U.Init(), NewReset(maxRows))], [];
    var us, steps := R.FirstRun(d);
    states, inputs := UpdateRun(states, inputs, maxRows, NewReset(maxRows), us, steps, U.Init(), R.First(d), 1);
    R.FirstIsTidy(d);
    us, steps := R.ReadyToInsert(R.First(d), None, 1, 2, e);
    states, inputs := UpdateRun(states, inputs, maxRows, NewReset(maxRows).(overlaps := 1), us, steps, R.First(d),
                              Before(d, e), 1);
  }

  /** The query after its first page. */
  ghost function Waiting(maxRows: nat, d: set<Roa>, overlaps: nat): Reset
    requires maxRows >= 2
  {
    var page := Page(d, None, maxRows - 1);
    Reset(FetchFull(1, Last(page, None), maxRows), maxRows, page, overlaps)
  }

  lemma FullPage(maxRows: nat, d: set<Roa>)
    requires maxRows >= 2 && |d| >= maxRows
    ensures |Page(d, None, maxRows - 1)| == maxRows - 1
    ensures !Delivers(Page(d, None, maxRows - 1), d)
  {
    var page := Page(d, None, maxRows - 1);
    assert After(d, None) == d;
    PageAdvances(d, None, maxRows - 1);
    PartDelivers(d, page, Sorted(After(d, Last(page, None))));
    assert |d| == |page| + |Sorted(After(d, Last(page, None)))|;
  }

  lemma Chooses(maxRows: nat, d: set<Roa>, e: set<Roa>)
    requires maxRows >= 2
    ensures var u := Before(d, e);
            && IsLatest(u.db, Some(1))
            && ReadReset(u, NewReset(maxRows).(overlaps := 2), Some(1)) == Reset(AskHasFull(1), maxRows, [], 1)
            && ReadReset(u, Reset(AskHasFull(1), maxRows, [], 1), None)
               == Reset(FetchFull(1, None, maxRows - 1), maxRows, [], 1)
  {
  }

  lemma SendsPage(maxRows: nat, d: set<Roa>, db: Db)
    requires maxRows >= 2 && |d| >= maxRows && FullAt(db, 1) == d
    ensures ReadPage(db, Reset(FetchFull(1, None, maxRows - 1), maxRows, [], 1)) == Waiting(maxRows, d, 1)
  {
    FullPage(maxRows, d);
    assert [] + Page(d, None, maxRows - 1) == Page(d, None, maxRows - 1);
  }

  /** The query chooses serial number 1 and sends its first page. */
  lemma SendsFirstPage(maxRows: nat, d: set<Roa>, e: set<Roa>)
    returns (states: seq<ResetState>, inputs: seq<ResetInput>)
    requires maxRows >= 2 && |d| >= maxRows && d != e
    ensures Reaches(states, inputs, maxRows, ResetState(Before(d, e), Waiting(maxRows, d, 1)))
  {
    var u, q := Before(d, e), NewReset(maxRows).(overlaps := 2);
    var q1, q2 := Reset(AskHasFull(1), maxRows, [], 1), Reset(FetchFull(1, None, maxRows - 1), maxRows, [], 1);
    states, inputs := ReachesBefore(maxRows, d, e);
    Chooses(maxRows, d, e);
    assert FullAt(u.db, 1) == d;
    SendsPage(maxRows, d, u.db);
    states, inputs := Extend(states, inputs, maxRows, ResetState(u, q), Selecting(Some(1)));
    states, inputs := Extend(states, inputs, maxRows, ResetState(u, q1), Selecting(None));
    states, inputs := Extend(states, inputs, maxRows, ResetState(u, q2), Selecting(None));
  }

  /** One update inserts its row and dies, the next gets to its clean-up. */
  lemma LosesItsData(maxRows: nat, d: set<Roa>, e: set<Roa>)
    returns (states: seq<ResetState>, inputs: seq<ResetInput>, u: U.State)
    requires maxRows >= 2 && |d| >= maxRows && d != e
    ensures Reaches(states, inputs, maxRows, ResetState(u, Waiting(maxRows, d, 2)))
    ensures FullAt(u.db, 1) == {} && u.hist.snap == map[1 := d, 2 := e]
  {
    var q := Waiting(maxRows, d, 1);
    states, inputs := SendsFirstPage(maxRows, d, e);
    R.FirstIsTidy(d);
    R.SecondIsTidy(d, e);
    R.Inserts(R.First(d), None, 1, 2, e, 1);
    states, inputs := Extend(states, inputs, maxRows, ResetState(Before(d, e), q), Updating(U.Execute({}, 1, 0)));
    states, inputs := Extend(states, inputs, maxRows, ResetState(R.Inserted(R.First(d), None, 1, 2, e, 1), q),
                             Updating(U.Crash));
    u := R.Cleaning(d, e, map[2 := e], U.SDeleteOldUpdate);
    var us, steps := R.ThirdCleans(d, e);
    states, inputs := UpdateRun(states, inputs, maxRows, q, us, steps, R.Second(d, e), u, 1);
  }

  lemma SendsNothing(maxRows: nat, d: set<Roa>, u: U.State)
    requires maxRows >= 2 && FullAt(u.db, 1) == {}
    ensures ReadReset(u, Waiting(maxRows, d, 2), None) == Waiting(maxRows, d, 2).(pc := Done(EndOfData(1)))
  {
    var q := Waiting(maxRows, d, 2);
    assert After({}, q.pc.after) == {};
    assert Page({}, q.pc.after, maxRows) == [];
    assert q.rows + [] == q.rows;
  }

  /** For every number of rows in a response and all data that fills one: two updates can
      overlap a reset query so that it ends with End of Data, one page sent and the rest
      missing. */
  lemma TwoUpdatesTruncate(maxRows: nat, d: set<Roa>, e: set<Roa>)
    returns (states: seq<ResetState>, inputs: seq<ResetInput>)
    requires maxRows >= 2 && |d| >= maxRows && d != e
    ensures ResetRun(states, inputs, maxRows) && AllAutomaticNumbers(inputs)
    ensures var last := states[|states| - 1];
            && last.q.pc == Done(EndOfData(1)) && last.q.overlaps == 2 && |last.q.rows| == maxRows - 1
            && last.u.hist.snap == map[1 := d, 2 := e] && !Delivers(last.q.rows, d)
  {
    var u;
    states, inputs, u := LosesItsData(maxRows, d, e);
    SendsNothing(maxRows, d, u);
    FullPage(maxRows, d);
    states, inputs := Extend(states, inputs, maxRows, ResetState(u, Waiting(maxRows, d, 2)), Selecting(None));
  }
}
