/** A serial number that is given on the command line a second time misleads a router that
    still has the data of its first use. */
module RtrReuseExample {
  import opened Options
  import opened RtrTables
  import U = RtrUpdate
  import opened RtrSerialQuery
  import R = RtrUpdateRuns

  /** A run from empty tables to s; at k, number 1 stood for d and the query had not begun. */
  ghost predicate Reaches(states: seq<State>, inputs: seq<Input>, maxRows: nat, k: nat, d: set<Roa>, s: State) {
    && Run(states, inputs, 1, maxRows) && states[|inputs|] == s
    && k < |states| && states[k] == State(R.First(d), New(1, maxRows))
  }

  lemma Extend(states: seq<State>, inputs: seq<Input>, maxRows: nat, s: State, i: Input)
    returns (states': seq<State>, inputs': seq<Input>)
    requires Run(states, inputs, 1, maxRows) && states[|inputs|] == s && Enabled(s, i)
    ensures Run(states', inputs', 1, maxRows) && states < states' && states'[|inputs'|] == Step(s, i)
  {
    states' := states + [Step(s, i)];
    inputs' := inputs + [i];
    forall n: nat | n < |inputs'| ensures StepAt(states', inputs', n) {
      assert n < |inputs| ==> StepAt(states, inputs, n);
    }
  }

  /** The first n steps of a stretch of updates before the query begins. */
  lemma {:induction false} UpdateSteps(states: seq<State>, inputs: seq<Input>, maxRows: nat, us: seq<U.State>,
                                       steps: seq<U.Input>, s: U.State, t: U.State, starts: nat, auto: bool, n: nat)
    returns (states': seq<State>, inputs': seq<Input>)
    requires maxRows >= 2 && Run(states, inputs, 1, maxRows) && states[|inputs|] == State(s, New(1, maxRows))
    requires R.Leads(us, steps, s, t, starts, auto) && n <= |steps|
    ensures Run(states', inputs', 1, maxRows) && states <= states'
    ensures states'[|inputs'|] == State(us[n], New(1, maxRows))
  {
    if n == 0 {
      states', inputs' := states, inputs;
    } else {
      states', inputs' := UpdateSteps(states, inputs, maxRows, us, steps, s, t, starts, auto, n - 1);
      assert U.StepAt(us, steps, n - 1);
      states', inputs' := Extend(states', inputs', maxRows, State(us[n - 1], New(1, maxRows)), Update(steps[n - 1]));
    }
  }

  lemma HadFirst(maxRows: nat, d: set<Roa>) returns (states: seq<State>, inputs: seq<Input>, k: nat)
    requires maxRows >= 2
    ensures Reaches(states, inputs, maxRows, k, d, State(R.First(d), New(1, maxRows)))
  {
    states, inputs := [State(U.Init(), New(1, maxRows))], [];
    var us, steps := R.FirstRun(d);
    states, inputs := UpdateSteps(states, inputs, maxRows, us, steps, U.Init(), R.First(d), 1, true, |steps|);
    k := |inputs|;
  }

  lemma IsReused(maxRows: nat, d: set<Roa>, e: set<Roa>, f: set<Roa>)
    returns (states: seq<State>, inputs: seq<Input>, k: nat)
    requires maxRows >= 2 && d != e
    ensures Reaches(states, inputs, maxRows, k, d, State(R.Reused(d, e, f), New(1, maxRows)))
  {
    states, inputs, k := HadFirst(maxRows, d);
    var us, steps := R.SecondRun(d, e);
    states, inputs := UpdateSteps(states, inputs, maxRows, us, steps, R.First(d), R.Second(d, e), 1, true, |steps|);
    us, steps := R.ThirdRun(d, e);
    states, inputs := UpdateSteps(states, inputs, maxRows, us, steps, R.Second(d, e), R.Aged(d, e), 1, true, |steps|);
    us, steps := R.FourthRun(d, e, f);
    states, inputs := UpdateSteps(states, inputs, maxRows, us, steps, R.Aged(d, e), R.Reused(d, e, f), 1, false,
                                  |steps|);
  }

  lemma Answers(maxRows: nat, d: set<Roa>, e: set<Roa>, f: set<Roa>)
    requires maxRows >= 2
    ensures IsSuccessor(R.Reused(d, e, f).db, 1, None) && 1 in R.Reused(d, e, f).db.updates
    ensures 1 in R.Reused(d, e, f).hist.snap && R.Reused(d, e, f).hist.snap[1] == f
  {
  }

  /** The router got d as the data of serial number 1.  The number ages out, and an update
      is told to use it again, for f.  The router's next serial query ends at once with
      End of Data for serial number 1, and the router still has d. */
  lemma ReusedNumberMisleads(maxRows: nat, d: set<Roa>, e: set<Roa>, f: set<Roa>)
    returns (states: seq<State>, inputs: seq<Input>, k: nat)
    requires maxRows >= 2 && d != e && d != f
    ensures Run(states, inputs, 1, maxRows) && k < |states| && states[k].q == New(1, maxRows)
    ensures 1 in states[k].u.hist.snap && states[k].u.hist.snap[1] == d
    ensures var last := states[|states| - 1];
            && last.q.pc == Finished(EndOfData(1)) && 1 in last.u.hist.snap
            && Replay(states[k].u.hist.snap[1], last.q.rows) != Some(last.u.hist.snap[1])
  {
    var u, q := R.Reused(d, e, f), New(1, maxRows);
    states, inputs, k := IsReused(maxRows, d, e, f);
    Answers(maxRows, d, e, f);
    states, inputs := Extend(states, inputs, maxRows, State(u, q), Select(None));
    states, inputs := Extend(states, inputs, maxRows, State(u, q.(pc := AskCurrent)), Select(None));
  }
}
