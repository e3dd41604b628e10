/** The serial query (db_rtr_serial_query_init and db_rtr_serial_query_get_next in
    lib/db/clients/rtr.c), one SELECT a step, while updates run, crash and start
    again between any two of its SELECTs. */
module RtrSerialQuery {
  import opened Options
  import opened RtrTables
  import opened RtrOrder
  import U = RtrUpdate
  import opened RtrNumbering

  /** How a response ends. */
  datatype End =
    | EndOfData(serial: nat)
    | CacheReset
    | NoData                          // Error Report with ERR_NO_DATA

  datatype Pc =
    | AskSuccessor                    // is the router's serial some row's predecessor?
    | AskCurrent                      // is it the newest row?
    | AskAny                          // are there rows at all?
    | Fetch(serial: nat, after: Option<Roa>, room: nat)
    | CheckRow(serial: nat)           // is the row still there, with a predecessor?
    | CheckNext(serial: nat)          // does another row follow it?
    | Finished(end: End)

  datatype Query = Query(
    pc: Pc,
    client: nat,                      // the router's serial number
    maxRows: nat,                     // DB_ROWS_PER_RESPONSE
    rows: seq<(Roa, bool)>,           // the prefix PDUs sent so far
    // history, never read by the query
    from: nat,                        // where the delta being sent starts
    settled: nat,                     // how many PDUs belong to earlier deltas
    keys: seq<Roa>)                   // the rows of this delta sent so far

  datatype State = State(u: U.State, q: Query)

  datatype Input =
    | Update(input: U.Input)
    | Select(found: Option<nat>)      // the serial number a SELECT on rtr_update returned

  predicate Enabled(s: State, i: Input) {
    match i
    case Update(input) => U.Enabled(s.u, input)
    case Select(found) =>
      s.q.maxRows >= 2 &&
      match s.q.pc
      case AskSuccessor => IsSuccessor(s.u.db, s.q.client, found)
      case CheckNext(serial) => IsSuccessor(s.u.db, serial, found)
      case Finished(_) => false
      case _ => true
  }

  ghost function Read(db: Db, q: Query, found: Option<nat>): Query
    requires !q.pc.Finished? && q.maxRows >= 2
  {
    match q.pc
    case AskSuccessor =>
      if found.Some? then
        // the Cache Response takes one of the maxRows PDUs of the first response
        q.(pc := Fetch(found.value, None, q.maxRows - 1), from := q.client)
      else q.(pc := AskCurrent)
    case AskCurrent =>
      if q.client in db.updates then q.(pc := Finished(EndOfData(q.client))) else q.(pc := AskAny)
    case AskAny => q.(pc := Finished(if db.updates == map[] then NoData else CacheReset))
    case Fetch(serial, after, room) =>
      var d := DeltaAt(db, serial);
      var page := Page(d.Keys, after, room);
      q.(pc := if |page| == room then Fetch(serial, Last(page, after), q.maxRows) else CheckRow(serial),
         rows := q.rows + Changes(d, page), keys := q.keys + page)
    case CheckRow(serial) =>
      if serial in db.updates && db.updates[serial].prev.Some? then q.(pc := CheckNext(serial))
      else q.(pc := Finished(NoData))
    case CheckNext(serial) =>
      if found.Some? then
        q.(pc := Fetch(found.value, None, q.maxRows), from := serial, settled := |q.rows|, keys := [])
      else q.(pc := Finished(EndOfData(serial)))
  }

  ghost function Step(s: State, i: Input): State
    requires Enabled(s, i)
  {
    match i
    case Update(input) => s.(u := U.Step(s.u, input))
    case Select(found) => s.(q := Read(s.u.db, s.q, found))
  }

  function New(client: nat, maxRows: nat): Query
    requires maxRows >= 2
  {
    Query(AskSuccessor, client, maxRows, [], client, 0, [])
  }

  ghost predicate StepAt(states: seq<State>, inputs: seq<Input>, i: nat) {
    && i < |inputs| && i + 1 < |states|
    && Enabled(states[i], inputs[i]) && states[i + 1] == Step(states[i], inputs[i])
  }

  /** A run from empty tables on.  The query's first SELECT can come at any time. */
  ghost predicate Run(states: seq<State>, inputs: seq<Input>, client: nat, maxRows: nat) {
    && |states| == |inputs| + 1 && maxRows >= 2
    && states[0] == State(U.Init(), New(client, maxRows))
    && forall i :: 0 <= i < |inputs| ==> StepAt(states, inputs, i)
  }

  /** No update of the run got its serial number from the command line. */
  predicate AllAutomatic(inputs: seq<Input>) {
    forall i :: 0 <= i < |inputs| && inputs[i].Update? ==> Automatic(inputs[i].input)
  }

  /** No update made a row with a number that had stood for a row before. */
  ghost predicate AllNew(states: seq<State>) {
    forall i :: 0 <= i < |states| ==> NoReuse(states[i].u)
  }

  // ----- serial numbers that are used again -----

  /** The serial number whose row the query reads or stands at. */
  function Number(q: Query): Option<nat> {
    match q.pc
    case Fetch(serial, _, _) => Some(serial)
    case CheckRow(serial) => Some(serial)
    case CheckNext(serial) => Some(serial)
    case Finished(end) => if end.EndOfData? then Some(end.serial) else None
    case _ => Some(q.client)
  }

  /** The query has chosen a row and has not yet read all of its delta. */
  predicate Reading(q: Query) { q.pc.Fetch? || q.pc.CheckRow? }

  /** An update makes a row with the number at which the query is. */
  predicate Renews(s: State, a: Input) {
    && a.Update? && a.input.Execute? && s.u.updater.Running? && s.u.updater.at.SInsertUpdate?
    && Number(s.q) == Some(s.u.updater.current)
  }

  predicate RenewsAt(states: seq<State>, inputs: seq<Input>, j: nat) {
    j < |states| && j < |inputs| && Renews(states[j], inputs[j])
  }

  /** No row was made again while its delta was being read. */
  ghost predicate Undisturbed(states: seq<State>, inputs: seq<Input>, k: nat, i: nat) {
    forall j: nat :: k <= j < i && RenewsAt(states, inputs, j) ==> !Reading(states[j].q)
  }

  ghost predicate NoneRenewed(states: seq<State>, inputs: seq<Input>, k: nat, i: nat) {
    forall j: nat :: k <= j < i ==> !RenewsAt(states, inputs, j)
  }

  ghost predicate LastRenewal(states: seq<State>, inputs: seq<Input>, j: nat, i: nat) {
    j < i && RenewsAt(states, inputs, j) && NoneRenewed(states, inputs, j + 1, i)
  }

  /** What the update at j took is what a router that had `start` has after the PDUs sent
      up to then; before the query began, that is `start` itself. */
  ghost predicate SameData(states: seq<State>, j: nat, start: set<Roa>) {
    j < |states| && Replay(start, states[j].q.rows) == Some(states[j].u.hist.taken)
  }

  /** From k to i no row was made again with the number at which the query was, or the
      last one for the same data. */
  ghost predicate Harmless(states: seq<State>, inputs: seq<Input>, k: nat, i: nat, start: set<Roa>) {
    forall j: nat :: k <= j && LastRenewal(states, inputs, j, i) ==> SameData(states, j, start)
  }

  // ----- the invariant -----

  /** The row is as it was when the query chose it. */
  predicate Valid(db: Db, serial: nat, from: nat) {
    serial in db.updates && db.updates[serial].prev == Some(from)
  }

  /** What CheckRow can see is only that some predecessor is left. */
  predicate Linked(db: Db, serial: nat) {
    serial in db.updates && db.updates[serial].prev.Some?
  }

  /** The PDUs of the delta in progress are the rows `keys` of the delta. */
  ghost predicate Sent(d: Delta, q: Query) {
    && q.settled <= |q.rows|
    && (forall r :: r in q.keys ==> r in d)
    && q.rows[q.settled..] == Changes(d, q.keys)
  }

  /** What was sent before this delta leads to `held` exactly if `exact`. */
  ghost predicate Base(q: Query, start: set<Roa>, held: set<Roa>, exact: bool) {
    q.settled <= |q.rows| && (Replay(start, q.rows[..q.settled]) == Some(held) <==> exact)
  }

  /** As long as the row has a predecessor, it is the row that the query chose, and its
      predecessor stands for `held`. */
  predicate Chosen(db: Db, snap: map<nat, set<Roa>>, q: Query, serial: nat, held: set<Roa>) {
    && serial in snap
    && (Linked(db, serial) ==> Valid(db, serial, q.from))
    && (Valid(db, serial, q.from) ==> q.from in snap && snap[q.from] == held)
  }

  /** What was sent leads from `start` to the data of t exactly if `exact`. */
  ghost predicate Leads(snap: map<nat, set<Roa>>, start: set<Roa>, rows: seq<(Roa, bool)>, t: nat, exact: bool) {
    t in snap && (Replay(start, rows) == Some(snap[t]) <==> exact)
  }

  ghost predicate QueryOk(db: Db, snap: map<nat, set<Roa>>, q: Query, start: set<Roa>, held: set<Roa>, exact: bool) {
    match q.pc
    case Fetch(serial, after, _) =>
      && Base(q, start, held, exact) && Chosen(db, snap, q, serial, held)
      && (Valid(db, serial, q.from) ==>
            var d := Diff(held, snap[serial]);
            Sent(d, q) && Sorted(d.Keys) == q.keys + Sorted(After(d.Keys, after)))
    case CheckRow(serial) =>
      && Base(q, start, held, exact) && Chosen(db, snap, q, serial, held)
      && (Valid(db, serial, q.from) ==>
            var d := Diff(held, snap[serial]);
            Sent(d, q) && q.keys == Sorted(d.Keys))
    case CheckNext(serial) => Leads(snap, start, q.rows, serial, exact)
    case Finished(end) => end.EndOfData? ==> Leads(snap, start, q.rows, end.serial, exact)
    case _ => q.rows == [] && q.settled == 0 && q.keys == [] && Leads(snap, start, [], q.client, exact)
  }

  // ----- updates do not disturb it -----

  /** What an update's step can do to a serial number that already stood for a row, if
      it does not make a row with it: remove the row, or cut it off from its predecessor. */
  lemma UpdateIsWeakening(s: U.State, i: U.Input, serial: nat)
    requires U.Enabled(s, i) && serial in s.hist.snap
    requires i.Execute? && s.updater.at.SInsertUpdate? ==> s.updater.current != serial
    ensures var s' := U.Step(s, i);
            && serial in s'.hist.snap && s'.hist.snap[serial] == s.hist.snap[serial]
            && (Linked(s'.db, serial) ==>
                  Linked(s.db, serial) && s'.db.updates[serial].prev == s.db.updates[serial].prev)
  {
  }

  /** The number of a row's predecessor is not used again while it has one. */
  lemma PredecessorStays(s: U.State, i: U.Input, serial: nat, from: nat)
    requires U.Ok(s) && U.Enabled(s, i) && Valid(s.db, serial, from) && from in s.hist.snap
    ensures var s' := U.Step(s, i); from in s'.hist.snap && s'.hist.snap[from] == s.hist.snap[from]
  {
  }

  lemma UpdateKeepsChosen(s: U.State, i: U.Input, q: Query, serial: nat, held: set<Roa>)
    requires U.Ok(s) && U.Enabled(s, i) && Chosen(s.db, s.hist.snap, q, serial, held)
    requires i.Execute? && s.updater.at.SInsertUpdate? ==> s.updater.current != serial
    ensures var s' := U.Step(s, i);
            && Chosen(s'.db, s'.hist.snap, q, serial, held) && s'.hist.snap[serial] == s.hist.snap[serial]
            && (Valid(s'.db, serial, q.from) ==> Valid(s.db, serial, q.from))
  {
    UpdateIsWeakening(s, i, serial);
    if Valid(s.db, serial, q.from) {
      PredecessorStays(s, i, serial, q.from);
    }
  }

  lemma UpdateKeepsQueryOk(s: State, i: U.Input, start: set<Roa>, held: set<Roa>, exact: bool)
    requires U.Ok(s.u) && U.Enabled(s.u, i) && !Renews(s, Update(i))
    requires QueryOk(s.u.db, s.u.hist.snap, s.q, start, held, exact)
    ensures QueryOk(U.Step(s.u, i).db, U.Step(s.u, i).hist.snap, s.q, start, held, exact)
  {
    match s.q.pc
    case Fetch(serial, _, _) => UpdateKeepsChosen(s.u, i, s.q, serial, held);
    case CheckRow(serial) => UpdateKeepsChosen(s.u, i, s.q, serial, held);
    case CheckNext(serial) => UpdateIsWeakening(s.u, i, serial);
    case Finished(end) => if end.EndOfData? { UpdateIsWeakening(s.u, i, end.serial); }
    case _ => UpdateIsWeakening(s.u, i, s.q.client);
  }

  /** A row made again where the query stands. */
  lemma RenewalDecides(s: State, i: U.Input, start: set<Roa>, held: set<Roa>, exact: bool)
    requires U.Enabled(s.u, i) && Renews(s, Update(i)) && !Reading(s.q)
    requires QueryOk(s.u.db, s.u.hist.snap, s.q, start, held, exact)
    ensures var s' := U.Step(s.u, i);
            QueryOk(s'.db, s'.hist.snap, s.q, start, held, Replay(start, s.q.rows) == Some(s.u.hist.taken))
  {
  }

  // ----- the query's own steps -----

  lemma SentMore(d: Delta, q: Query, page: seq<Roa>, q': Query)
    requires Sent(d, q) && forall r :: r in page ==> r in d
    requires q'.settled == q.settled && q'.keys == q.keys + page && q'.rows == q.rows + Changes(d, page)
    ensures Sent(d, q')
  {
    assert q'.rows[q'.settled..] == q.rows[q.settled..] + Changes(d, page);
    assert Changes(d, q.keys + page) == Changes(d, q.keys) + Changes(d, page);
  }

  /** A page of a row that is still valid. */
  lemma FetchValid(db: Db, d: Delta, q: Query, q': Query)
    requires q.pc.Fetch? && q.maxRows >= 2 && q' == Read(db, q, None) && DeltaAt(db, q.pc.serial) == d
    requires Sent(d, q) && Sorted(d.Keys) == q.keys + Sorted(After(d.Keys, q.pc.after))
    ensures Sent(d, q')
    ensures if q'.pc.Fetch? then Sorted(d.Keys) == q'.keys + Sorted(After(d.Keys, q'.pc.after))
            else q'.keys == Sorted(d.Keys)
  {
    var page := Page(d.Keys, q.pc.after, q.pc.room);
    var rest := Sorted(After(d.Keys, Last(page, q.pc.after)));
    SentMore(d, q, page, q');
    PageAdvances(d.Keys, q.pc.after, q.pc.room);
    Append(Sorted(d.Keys), q.keys, page, Sorted(After(d.Keys, q.pc.after)), rest);
    if |page| < q.pc.room {
      ShortPageIsLast(d.Keys, q.pc.after, q.pc.room);
    }
  }

  lemma FetchKeepsQueryOk(s: U.State, q: Query, start: set<Roa>, held: set<Roa>, exact: bool)
    requires U.DbOk(s.db, s.hist) && q.pc.Fetch? && q.maxRows >= 2
    requires QueryOk(s.db, s.hist.snap, q, start, held, exact)
    ensures QueryOk(s.db, s.hist.snap, Read(s.db, q, None), start, held, exact)
  {
    var q' := Read(s.db, q, None);
    assert q'.rows[..q'.settled] == q.rows[..q.settled];
    if Valid(s.db, q.pc.serial, q.from) {
      FetchValid(s.db, Diff(held, s.hist.snap[q.pc.serial]), q, q');
    }
  }

  /** All of a delta was sent, behind what leads to its beginning or to something else. */
  lemma RowSent(a: set<Roa>, b: set<Roa>, q: Query, start: set<Roa>)
    requires q.settled <= |q.rows| && Sent(Diff(a, b), q) && q.keys == Sorted(Diff(a, b).Keys)
    ensures Replay(start, q.rows) == Some(b) <==> Replay(start, q.rows[..q.settled]) == Some(a)
  {
    var before, behind := q.rows[..q.settled], q.rows[q.settled..];
    assert q.rows == before + behind;
    DeltaReplays(a, b, q.keys, behind);
    ReplayParts(start, before, behind);
    if Replay(start, before).Some? && Replay(start, q.rows) == Some(b) {
      ReplayInjective(a, Replay(start, before).value, behind);
    }
  }

  lemma DeltaReplays(a: set<Roa>, b: set<Roa>, keys: seq<Roa>, rows: seq<(Roa, bool)>)
    requires keys == Sorted(Diff(a, b).Keys) && rows == Changes(Diff(a, b), keys)
    ensures Replay(a, rows) == Some(b)
  {
    SortedAscends(Diff(a, b).Keys);
    ReplayDiff(a, b, keys);
  }

  lemma CheckRowKeepsQueryOk(s: U.State, q: Query, start: set<Roa>, held: set<Roa>, exact: bool)
    requires q.pc.CheckRow? && q.maxRows >= 2 && QueryOk(s.db, s.hist.snap, q, start, held, exact)
    ensures QueryOk(s.db, s.hist.snap, Read(s.db, q, None), start, held, exact)
  {
    var serial, snap := q.pc.serial, s.hist.snap;
    if Valid(s.db, serial, q.from) {
      RowSent(held, snap[serial], q, start);
    }
  }

  /** A SELECT keeps the invariant, with what the query's new row starts from. */
  lemma ReadKeepsQueryOk(s: U.State, q: Query, found: Option<nat>, start: set<Roa>, held: set<Roa>, exact: bool)
    returns (held': set<Roa>)
    requires U.DbOk(s.db, s.hist) && Enabled(State(s, q), Select(found))
    requires QueryOk(s.db, s.hist.snap, q, start, held, exact)
    ensures QueryOk(s.db, s.hist.snap, Read(s.db, q, found), start, held', exact)
  {
    var q' := Read(s.db, q, found);
    held' := held;
    match q.pc
    case Fetch(_, _, _) => FetchKeepsQueryOk(s, q, start, held, exact);
    case CheckRow(_) => CheckRowKeepsQueryOk(s, q, start, held, exact);
    case AskSuccessor =>
      if found.Some? {
        held' := s.hist.snap[q.client];
        BeginDelta(s, q', start, exact);
      }
    case CheckNext(serial) =>
      if found.Some? {
        held' := s.hist.snap[serial];
        BeginDelta(s, q', start, exact);
      }
    case _ =>
  }

  lemma BeginDelta(s: U.State, q: Query, start: set<Roa>, exact: bool)
    requires U.DbOk(s.db, s.hist) && q.pc.Fetch? && q.pc.after == None && Valid(s.db, q.pc.serial, q.from)
    requires q.settled == |q.rows| && q.keys == [] && Leads(s.hist.snap, start, q.rows, q.from, exact)
    ensures QueryOk(s.db, s.hist.snap, q, start, s.hist.snap[q.from], exact)
  {
    assert q.rows[..q.settled] == q.rows && q.rows[q.settled..] == [];
    var all := Diff(s.hist.snap[q.from], s.hist.snap[q.pc.serial]).Keys;
    assert After(all, None) == all;
    Append(Sorted(all), [], [], Sorted(all), Sorted(all));
  }

  // ----- every run -----

  lemma {:induction false} UpdatesOk(states: seq<State>, inputs: seq<Input>, client: nat, maxRows: nat, i: nat)
    requires Run(states, inputs, client, maxRows) && i < |states|
    ensures U.Ok(states[i].u)
  {
    if i == 0 {
    } else {
      UpdatesOk(states, inputs, client, maxRows, i - 1);
      assert StepAt(states, inputs, i - 1);
      if inputs[i - 1].Update? {
        U.StepKeepsOk(states[i - 1].u, inputs[i - 1].input);
      }
    }
  }

  lemma HarmlessStep(states: seq<State>, inputs: seq<Input>, k: nat, i: nat, start: set<Roa>)
    requires k <= i < |states|
    ensures RenewsAt(states, inputs, i) ==>
              (Harmless(states, inputs, k, i + 1, start) <==> SameData(states, i, start))
    ensures !RenewsAt(states, inputs, i) ==>
              (Harmless(states, inputs, k, i + 1, start) <==> Harmless(states, inputs, k, i, start))
  {
    if RenewsAt(states, inputs, i) {
      assert LastRenewal(states, inputs, i, i + 1);
    } else {
      forall j: nat ensures LastRenewal(states, inputs, j, i + 1) <==> LastRenewal(states, inputs, j, i) {
        assert NoneRenewed(states, inputs, j + 1, i) && j != i ==> NoneRenewed(states, inputs, j + 1, i + 1);
      }
    }
  }

  lemma StepKeepsQueryOk(s: State, a: Input, start: set<Roa>, held: set<Roa>, exact: bool) returns (held': set<Roa>)
    requires Enabled(s, a) && U.Ok(s.u) && QueryOk(s.u.db, s.u.hist.snap, s.q, start, held, exact)
    requires Renews(s, a) ==> !Reading(s.q)
    ensures var s', now := Step(s, a), if Renews(s, a) then Replay(start, s.q.rows) == Some(s.u.hist.taken) else exact;
            QueryOk(s'.u.db, s'.u.hist.snap, s'.q, start, held', now)
  {
    held' := held;
    match a
    case Update(input) =>
      if Renews(s, a) {
        RenewalDecides(s, input, start, held, exact);
      } else {
        UpdateKeepsQueryOk(s, input, start, held, exact);
      }
    case Select(found) => held' := ReadKeepsQueryOk(s.u, s.q, found, start, held, exact);
  }

  ghost predicate OkAt(states: seq<State>, inputs: seq<Input>, k: nat, i: nat, start: set<Roa>, held: set<Roa>) {
    && i < |states|
    && QueryOk(states[i].u.db, states[i].u.hist.snap, states[i].q, start, held, Harmless(states, inputs, k, i, start))
  }

  lemma StepKeepsOkAt(states: seq<State>, inputs: seq<Input>, k: nat, i: nat, start: set<Roa>, held: set<Roa>)
    returns (held': set<Roa>)
    requires k <= i && OkAt(states, inputs, k, i, start, held) && U.Ok(states[i].u) && StepAt(states, inputs, i)
    requires RenewsAt(states, inputs, i) ==> !Reading(states[i].q)
    ensures OkAt(states, inputs, k, i + 1, start, held')
  {
    HarmlessStep(states, inputs, k, i, start);
    held' := StepKeepsQueryOk(states[i], inputs[i], start, held, Harmless(states, inputs, k, i, start));
  }

  lemma BeginOkAt(states: seq<State>, inputs: seq<Input>, client: nat, maxRows: nat, k: nat)
    requires k < |states| && maxRows >= 2 && states[k].q == New(client, maxRows) && client in states[k].u.hist.snap
    ensures OkAt(states, inputs, k, k, states[k].u.hist.snap[client], {})
  {
    var start := states[k].u.hist.snap[client];
    assert Harmless(states, inputs, k, k, start);
    assert Leads(states[k].u.hist.snap, start, [], client, true);
  }

  lemma RunStep(states: seq<State>, inputs: seq<Input>, client: nat, maxRows: nat, i: nat)
    requires Run(states, inputs, client, maxRows) && i < |inputs|
    ensures U.Ok(states[i].u) && StepAt(states, inputs, i)
  {
    UpdatesOk(states, inputs, client, maxRows, i);
  }

  /** From the moment the router has its data on. */
  lemma {:induction false} RunOk(states: seq<State>, inputs: seq<Input>, client: nat, maxRows: nat, k: nat, i: nat)
    returns (held: set<Roa>)
    requires Run(states, inputs, client, maxRows) && Undisturbed(states, inputs, k, i) && k <= i < |states|
    requires states[k].q == New(client, maxRows) && client in states[k].u.hist.snap
    ensures OkAt(states, inputs, k, i, states[k].u.hist.snap[client], held)
    decreases i
  {
    if k == i {
      held := {};
      BeginOkAt(states, inputs, client, maxRows, k);
    } else {
      held := RunOk(states, inputs, client, maxRows, k, i - 1);
      RunStep(states, inputs, client, maxRows, i - 1);
      held := StepKeepsOkAt(states, inputs, k, i - 1, states[k].u.hist.snap[client], held);
    }
  }

  /** The router got the data of its serial number at k, before the query began, and at i
      the query has ended with End of Data for serial number t.  Replaying its prefix PDUs
      in order leads to exactly the data of t, with no announcement of something the
      router had and no withdrawal of something it lacked, if and only if the number at
      which the query was had not been used again, or the last time for the same data.
      Updates may run between any two SELECTs; only a row whose delta is just being read
      must not be made again. */
  lemma DeliversExactly(states: seq<State>, inputs: seq<Input>, client: nat, maxRows: nat, k: nat, i: nat)
    requires Run(states, inputs, client, maxRows) && Undisturbed(states, inputs, k, i) && k <= i < |states|
    requires states[k].q == New(client, maxRows) && client in states[k].u.hist.snap
    requires states[i].q.pc.Finished? && states[i].q.pc.end.EndOfData?
    ensures var start, snap, t := states[k].u.hist.snap[client], states[i].u.hist.snap, states[i].q.pc.end.serial;
            && t in snap
            && (Replay(start, states[i].q.rows) == Some(snap[t]) <==> Harmless(states, inputs, k, i, start))
  {
    var held := RunOk(states, inputs, client, maxRows, k, i);
  }

  /** When the numbers are used again only before the query begins, at m, it delivers
      exactly if the router's number then still stands for the router's data. */
  lemma EarlyReuseDelivers(states: seq<State>, inputs: seq<Input>, client: nat, maxRows: nat, k: nat, m: nat, i: nat)
    requires Run(states, inputs, client, maxRows) && k <= m <= i < |states| && NoneRenewed(states, inputs, m, i)
    requires client in states[k].u.hist.snap && client in states[m].u.hist.snap && states[m].q == New(client, maxRows)
    requires states[i].q.pc.Finished? && states[i].q.pc.end.EndOfData?
    ensures var start, snap, t := states[k].u.hist.snap[client], states[i].u.hist.snap, states[i].q.pc.end.serial;
            && t in snap
            && (Replay(start, states[i].q.rows) == Some(snap[t]) <==> states[m].u.hist.snap[client] == start)
  {
    DeliversExactly(states, inputs, client, maxRows, m, i);
    var start, rows := states[k].u.hist.snap[client], states[i].q.rows;
    if Replay(start, rows) == Some(states[i].u.hist.snap[states[i].q.pc.end.serial]) {
      ReplayInjective(start, states[m].u.hist.snap[client], rows);
    }
  }

  lemma {:induction false} NewIsNotRenewed(states: seq<State>, inputs: seq<Input>, client: nat, maxRows: nat,
                                           k: nat, i: nat)
    requires Run(states, inputs, client, maxRows) && AllNew(states) && k <= i < |states|
    requires states[k].q == New(client, maxRows) && client in states[k].u.hist.snap
    ensures NoneRenewed(states, inputs, k, i)
    decreases i
  {
    if k == i {
    } else {
      NewIsNotRenewed(states, inputs, client, maxRows, k, i - 1);
      var held := RunOk(states, inputs, client, maxRows, k, i - 1);
      assert NoReuse(states[i - 1].u);
    }
  }

  /** So the query delivers if no serial number was used twice. */
  lemma NewNumbersDeliver(states: seq<State>, inputs: seq<Input>, client: nat, maxRows: nat, k: nat, i: nat)
    requires Run(states, inputs, client, maxRows) && AllNew(states) && k <= i < |states|
    requires states[k].q == New(client, maxRows) && client in states[k].u.hist.snap
    requires states[i].q.pc.Finished? && states[i].q.pc.end.EndOfData?
    ensures var snap, t := states[i].u.hist.snap, states[i].q.pc.end.serial;
            t in snap && Replay(states[k].u.hist.snap[client], states[i].q.rows) == Some(snap[t])
  {
    NewIsNotRenewed(states, inputs, client, maxRows, k, i);
    DeliversExactly(states, inputs, client, maxRows, k, i);
  }

  // ----- automatic numbers -----

  function Tables(states: seq<State>): seq<U.State> {
    seq(|states|, i requires 0 <= i < |states| => states[i].u)
  }

  lemma TablesAreUpdates(states: seq<State>, inputs: seq<Input>, client: nat, maxRows: nat)
    requires Run(states, inputs, client, maxRows) && AllAutomatic(inputs)
    ensures Updates(Tables(states))
  {
    var us := Tables(states);
    forall n: nat ensures NextAt(us, n) {
      if n + 1 < |us| {
        assert StepAt(states, inputs, n);
        if inputs[n].Update? {
          assert NextUpdate(us[n], inputs[n].input, us[n + 1]);
        }
      }
    }
  }

  lemma AutomaticIsAllNew(states: seq<State>, inputs: seq<Input>, client: nat, maxRows: nat)
    requires Run(states, inputs, client, maxRows) && AllAutomatic(inputs)
    requires |states[|states| - 1].u.hist.snap| < U.SERIAL_SPACE
    ensures AllNew(states)
  {
    TablesAreUpdates(states, inputs, client, maxRows);
    forall i | 0 <= i < |states| ensures NoReuse(states[i].u) {
      SnapOnlyGrows(Tables(states), i, |states| - 1);
      AutomaticIsNew(Tables(states), i);
    }
  }

  /** That is so when the updates number their rows themselves, as long as there have
      been fewer than 2^32 of them. */
  lemma SerialQueryDelivers(states: seq<State>, inputs: seq<Input>, client: nat, maxRows: nat, k: nat)
    requires Run(states, inputs, client, maxRows) && AllAutomatic(inputs)
    requires |states[|states| - 1].u.hist.snap| < U.SERIAL_SPACE
    requires k < |states| && states[k].q == New(client, maxRows) && client in states[k].u.hist.snap
    requires states[|states| - 1].q.pc.Finished? && states[|states| - 1].q.pc.end.EndOfData?
    ensures var last := states[|states| - 1];
            var t := last.q.pc.end.serial;
            t in last.u.hist.snap && Replay(states[k].u.hist.snap[client], last.q.rows) == Some(last.u.hist.snap[t])
  {
    AutomaticIsAllNew(states, inputs, client, maxRows);
    NewNumbersDeliver(states, inputs, client, maxRows, k, |states| - 1);
  }
}
