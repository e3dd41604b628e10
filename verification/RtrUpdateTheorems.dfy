/** What holds between any two statements of any sequence of update runs, each cut
    short anywhere. */
module RtrUpdateTheorems {
  import opened Options
  import opened RtrTables
  import opened RtrOrder
  import opened RtrUpdate

  /** Crash safety: the newest row always has its full data; a row that claims full
      data has exactly the ROAs its serial number stands for; a row that has a
      predecessor has exactly the changes since it. */
  lemma CrashSafe(states: seq<State>, inputs: seq<Input>, n: nat, s: nat)
    requires Run(states, inputs) && n < |states| && s in states[n].db.updates
    ensures var db, h := states[n].db, states[n].hist;
            && s in h.snap
            && (IsLatest(db, Some(s)) ==> db.updates[s].hasFull)
            && (db.updates[s].hasFull ==> FullAt(db, s) == h.snap[s])
            && (db.updates[s].prev.Some? ==>
                  db.updates[s].prev.value in h.snap
                  && DeltaAt(db, s) == Diff(h.snap[db.updates[s].prev.value], h.snap[s]))
  {
    RunOk(states, inputs, n);
    var db, path := states[n].db, states[n].hist.path;
    assert s in path;
    assert Latest(path) in path;
    LatestIsNewest(db.updates, path);
  }

  /** What one step does to the rows of rtr_update, oldest first: nothing, one more
      at the end, or an initial segment less. */
  ghost predicate SamePathOrOneMoreOrSuffix(path: seq<nat>, path': seq<nat>) {
    || path' == path
    || (|path'| == |path| + 1 && path' == path + [path'[|path|]] && path'[|path|] !in path)
    || (exists k :: 0 <= k < |path| && path' == path[k..])
  }

  lemma SuffixStep(s: State, i: Input)
    requires s.updater.Running? && NewestTwo(s.hist.path, s.updater)
    requires forall t :: t in s.hist.path ==> t in s.db.updates
    requires i.Execute? && s.updater.at.SDeleteOldUpdate?
    ensures SamePathOrOneMoreOrSuffix(s.hist.path, Step(s, i).hist.path)
  {
    var k := SurvivorsEndWithLatest(s.db, s.hist.path, s.updater, i.cutoff);
  }

  lemma PathStep(s: State, i: Input)
    requires Ok(s) && Enabled(s, i)
    ensures SamePathOrOneMoreOrSuffix(s.hist.path, Step(s, i).hist.path)
  {
    if i.Execute? && s.updater.at.SDeleteOldUpdate? {
      SuffixStep(s, i);
    } else if i.Execute? && s.updater.at.SInsertUpdate? {
      assert s.updater.current !in s.hist.path;
    }
  }

  /** The rows form one simple path, and a step leaves the path alone, extends it by
      one row, or removes an initial segment of it. */
  lemma PathEvolves(states: seq<State>, inputs: seq<Input>, n: nat)
    requires Run(states, inputs) && n < |inputs|
    ensures var path, path' := states[n].hist.path, states[n + 1].hist.path;
            && PathOk(states[n].db.updates, path) && PathOk(states[n + 1].db.updates, path')
            && SamePathOrOneMoreOrSuffix(path, path')
  {
    RunOk(states, inputs, n);
    RunOk(states, inputs, n + 1);
    assert StepAt(states, inputs, n);
    PathStep(states[n], inputs[n]);
  }

  /** The incremental rows of the serial numbers after path[i] up to path[j], in the
      order in which a serial query sends them. */
  ghost function Chain(db: Db, path: seq<nat>, i: nat, j: nat): seq<(Roa, bool)>
    requires i <= j < |path|
  {
    if i == j then []
    else Chain(db, path, i, j - 1) + Link(db, path[j])
  }

  /** The incremental rows of one serial number. */
  ghost function Link(db: Db, serial: nat): seq<(Roa, bool)> {
    var d := DeltaAt(db, serial);
    Changes(d, Sorted(d.Keys))
  }

  /** The delta of one row leads from its predecessor's data to its own. */
  lemma LinkReplays(db: Db, h: History, j: nat)
    requires DbOk(db, h) && 0 < j < |h.path|
    ensures h.path[j - 1] in h.snap && h.path[j] in h.snap
    ensures Replay(h.snap[h.path[j - 1]], Link(db, h.path[j])) == Some(h.snap[h.path[j]])
  {
    var a, b := h.path[j - 1], h.path[j];
    assert Follows(db.updates, h.path, j) && a in h.path && b in h.path;
    SortedAscends(DeltaAt(db, b).Keys);
    ReplayDiff(h.snap[a], h.snap[b], Sorted(DeltaAt(db, b).Keys));
  }

  lemma {:induction false} ChainReplays(db: Db, h: History, i: nat, j: nat)
    requires DbOk(db, h) && i <= j < |h.path|
    ensures h.path[i] in h.snap && h.path[j] in h.snap
    ensures Replay(h.snap[h.path[i]], Chain(db, h.path, i, j)) == Some(h.snap[h.path[j]])
    decreases j
  {
    if i == j {
      assert h.path[i] in h.path;
    } else {
      ChainReplays(db, h, i, j - 1);
      LinkReplays(db, h, j);
      ReplayParts(h.snap[h.path[i]], Chain(db, h.path, i, j - 1), Link(db, h.path[j]));
    }
  }

  /** Every delta chain equals the full snapshot: between any two statements, for any
      two surviving serial numbers, the incremental rows between them lead from the
      data of the older to the data of the newer. */
  lemma EveryChainDelivers(states: seq<State>, inputs: seq<Input>, n: nat, i: nat, j: nat)
    requires Run(states, inputs) && n < |states| && i <= j < |states[n].hist.path|
    ensures var db, h := states[n].db, states[n].hist;
            && h.path[i] in h.snap && h.path[j] in h.snap
            && Replay(h.snap[h.path[i]], Chain(db, h.path, i, j)) == Some(h.snap[h.path[j]])
  {
    RunOk(states, inputs, n);
    ChainReplays(states[n].db, states[n].hist, i, j);
  }
}
