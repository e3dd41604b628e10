/** The reset query (db_rtr_reset_query_init and db_rtr_reset_query_get_next in
    lib/db/clients/rtr.c), one SELECT a step, while updates run, crash and start
    again between any two of its SELECTs.  Unlike the serial query it never looks
    again at the row it chose. */
module RtrResetQuery {
  import opened Counting
  import opened Options
  import opened Sequences
  import opened RtrTables
  import opened RtrOrder
  import U = RtrUpdate
  import opened RtrNumbering
  import opened RtrSerialQuery

  datatype ResetPc =
    | AskLatest
    | AskHasFull(serial: nat)
    | FetchFull(serial: nat, after: Option<Roa>, room: nat)
    | Done(end: End)
    | Failed                          // the row was gone: db_rtr_reset_query_init returned -1

  datatype Reset = Reset(
    pc: ResetPc,
    maxRows: nat,                     // DB_ROWS_PER_RESPONSE
    rows: seq<Roa>,                   // the announcements sent so far
    overlaps: nat)                    // history: update runs that were alive during the query

  datatype ResetState = ResetState(u: U.State, q: Reset)

  datatype ResetInput =
    | Updating(input: U.Input)
    | Selecting(latest: Option<nat>)

  predicate CanReset(s: ResetState, i: ResetInput) {
    match i
    case Updating(input) => U.Enabled(s.u, input)
    case Selecting(latest) =>
      && s.q.maxRows >= 2 && !s.q.pc.Done? && !s.q.pc.Failed?
      && (s.q.pc.AskLatest? ==> IsLatest(s.u.db, latest))
  }

  ghost function ReadPage(db: Db, q: Reset): Reset
    requires q.pc.FetchFull?
  {
    var page := Page(FullAt(db, q.pc.serial), q.pc.after, q.pc.room);
    q.(pc := if |page| == q.pc.room then FetchFull(q.pc.serial, Last(page, q.pc.after), q.maxRows)
             else Done(EndOfData(q.pc.serial)),
       rows := q.rows + page)
  }

  ghost function ReadReset(u: U.State, q: Reset, latest: Option<nat>): Reset
    requires q.maxRows >= 2 && !q.pc.Done? && !q.pc.Failed?
  {
    match q.pc
    case AskLatest =>
      if latest.None? then q.(pc := Done(NoData))
      else q.(pc := AskHasFull(latest.value), overlaps := if u.updater.Running? then 1 else 0)
    case AskHasFull(serial) =>
      if serial !in u.db.updates then q.(pc := Failed)
      else if !u.db.updates[serial].hasFull then q.(pc := Done(NoData))
      // the Cache Response takes one of the maxRows PDUs of the first response
      else q.(pc := FetchFull(serial, None, q.maxRows - 1))
    case FetchFull(_, _, _) => ReadPage(u.db, q)
  }

  ghost function ResetStep(s: ResetState, i: ResetInput): ResetState
    requires CanReset(s, i)
  {
    match i
    case Updating(input) =>
      ResetState(U.Step(s.u, input), if input.Start? then s.q.(overlaps := s.q.overlaps + 1) else s.q)
    case Selecting(latest) => s.(q := ReadReset(s.u, s.q, latest))
  }

  function NewReset(maxRows: nat): Reset {
    Reset(AskLatest, maxRows, [], 0)
  }

  ghost predicate ResetAt(states: seq<ResetState>, inputs: seq<ResetInput>, i: nat) {
    && i < |inputs| && i + 1 < |states|
    && CanReset(states[i], inputs[i]) && states[i + 1] == ResetStep(states[i], inputs[i])
  }

  /** A run from empty tables on.  The query's first SELECT can come at any time. */
  ghost predicate ResetRun(states: seq<ResetState>, inputs: seq<ResetInput>, maxRows: nat) {
    && |states| == |inputs| + 1 && maxRows >= 2
    && states[0] == ResetState(U.Init(), NewReset(maxRows))
    && forall i :: 0 <= i < |inputs| ==> ResetAt(states, inputs, i)
  }

  /** No update made a row with a number that had stood for a row before. */
  ghost predicate AllNewNumbers(states: seq<ResetState>) {
    forall i :: 0 <= i < |states| ==> NoReuse(states[i].u)
  }

  lemma {:induction false} ResetUpdatesOk(states: seq<ResetState>, inputs: seq<ResetInput>, maxRows: nat, i: nat)
    requires ResetRun(states, inputs, maxRows) && i < |states|
    ensures U.Ok(states[i].u) && states[i].q.maxRows == maxRows
  {
    if i == 0 {
    } else {
      ResetUpdatesOk(states, inputs, maxRows, i - 1);
      assert ResetAt(states, inputs, i - 1);
      if inputs[i - 1].Updating? {
        U.StepKeepsOk(states[i - 1].u, inputs[i - 1].input);
      }
    }
  }

  // ----- what a router makes of the response -----

  function Announcements(rows: seq<Roa>): seq<(Roa, bool)> {
    seq(|rows|, i requires 0 <= i < |rows| => (rows[i], true))
  }

  /** A router that starts from nothing and replays the rows has exactly this data. */
  ghost predicate Delivers(rows: seq<Roa>, data: set<Roa>) {
    Replay({}, Announcements(rows)) == Some(data)
  }

  lemma {:induction false} ReplayAnnouncements(have: set<Roa>, rows: seq<Roa>)
    requires Distinct(rows) && forall r :: r in rows ==> r !in have
    ensures Replay(have, Announcements(rows)) == Some(have + set r | r in rows)
    decreases rows
  {
    if rows == [] {
      assert have + (set r | r in rows) == have;
    } else {
      assert Announcements(rows)[1..] == Announcements(rows[1..]);
      DistinctTail(rows);
      ReplayAnnouncements(have + {rows[0]}, rows[1..]);
      assert forall r :: r in rows <==> r == rows[0] || r in rows[1..];
      assert have + {rows[0]} + (set r | r in rows[1..]) == have + set r | r in rows;
    }
  }

  lemma SortedDelivers(data: set<Roa>)
    ensures Delivers(Sorted(data), data)
  {
    SortedAscends(data);
    ReplayAnnouncements({}, Sorted(data));
    assert (set r | r in Sorted(data)) == data;
  }

  /** The first rows of the data are all of it if and only if nothing is left. */
  lemma PartIsWhole(data: set<Roa>, q: seq<Roa>, rows: seq<Roa>, rest: seq<Roa>)
    requires Distinct(q) && (forall r :: r in q <==> r in data) && q == rows + rest
    ensures Distinct(rows) && ((set r | r in rows) == data <==> rest == [])
  {
    DistinctSlice(q, 0, |rows|);
    assert q[0..|rows|] == rows;
    if rest == [] {
      assert rows == q;
    } else {
      Others(q, |rows|);
      assert q[|rows|] in q && forall i :: 0 <= i < |rows| ==> rows[i] == q[i] != q[|rows|];
    }
  }

  lemma PartDelivers(data: set<Roa>, rows: seq<Roa>, rest: seq<Roa>)
    requires Sorted(data) == rows + rest
    ensures Delivers(rows, data) <==> rest == []
  {
    SortedAscends(data);
    PartIsWhole(data, Sorted(data), rows, rest);
    ReplayAnnouncements({}, rows);
    assert {} + (set r | r in rows) == set r | r in rows;
  }

  // ----- the data of a chosen serial number is whole or gone -----

  /** The data is there, and no clean-up that could drop its row has passed it over. */
  predicate Whole(u: U.State, t: nat) {
    && t in u.db.updates && t in u.hist.snap && FullAt(u.db, t) == u.hist.snap[t]
    && (u.updater.Running? && u.updater.at.SDeleteOldUpdate? ==> t == u.updater.current || t == u.updater.previous)
  }

  predicate Gone(u: U.State, t: nat) { t in u.hist.snap && FullAt(u.db, t) == {} }

  /** The update is about to delete the full data of all serial numbers but its own two,
      and t is not one of them. */
  predicate Cleans(u: U.State, i: U.Input, t: nat) {
    && i.Execute? && u.updater.Running? && u.updater.at.SDeleteOldFull?
    && t != u.updater.current && t != u.updater.previous
  }

  lemma MakingKeepsWhole(u: U.State, i: U.Input, t: nat)
    requires U.Enabled(u, i) && i.Execute? && U.IsBeforeInsert(u.updater.at)
    requires U.BeforeInsert(u.db, u.hist, u.updater) && Whole(u, t)
    ensures Whole(U.Step(u, i), t) && U.Step(u, i).hist.snap[t] == u.hist.snap[t]
  {
  }

  lemma UpdateKeepsWhole(u: U.State, i: U.Input, t: nat)
    requires U.Enabled(u, i) && U.UpdaterOk(u.db, u.hist, u.updater) && Whole(u, t) && !Cleans(u, i, t)
    ensures Whole(U.Step(u, i), t) && U.Step(u, i).hist.snap[t] == u.hist.snap[t]
  {
    if i.Execute? && U.IsBeforeInsert(u.updater.at) {
      MakingKeepsWhole(u, i, t);
    }
  }

  lemma CleanMakesGone(u: U.State, i: U.Input, t: nat)
    requires U.Enabled(u, i) && t in u.hist.snap && Cleans(u, i, t)
    ensures Gone(U.Step(u, i), t) && U.Step(u, i).hist.snap[t] == u.hist.snap[t]
  {
  }

  lemma UpdateKeepsGone(u: U.State, i: U.Input, t: nat)
    requires U.Enabled(u, i) && NoReuse(u) && Gone(u, t)
    ensures Gone(U.Step(u, i), t) && U.Step(u, i).hist.snap[t] == u.hist.snap[t]
  {
  }

  // ----- the schedule -----

  predicate IsSelect(i: ResetInput) { i.Selecting? }

  /** How many SELECTs the query has made before step n. */
  function SelectsBefore(inputs: seq<ResetInput>, n: nat): nat
    requires n <= |inputs|
  {
    Count(inputs[..n], IsSelect)
  }

  /** The rows in so many full pages, after the two SELECTs that choose the number. */
  function Covered(maxRows: nat, selects: nat): nat {
    if selects <= 2 || maxRows == 0 then 0 else (selects - 2) * maxRows - 1
  }

  /** Step n deletes the data of t while the query may still be reading it. */
  predicate DeletesAt(states: seq<ResetState>, inputs: seq<ResetInput>, t: nat, n: nat) {
    n < |inputs| && n < |states| && inputs[n].Updating? && Cleans(states[n].u, inputs[n].input, t)
    && SelectsBefore(inputs, n) >= 2
  }

  /** Whatever deletion came before step i came when all pages with data were read. */
  ghost predicate InTime(states: seq<ResetState>, inputs: seq<ResetInput>, t: nat, rows: nat, maxRows: nat, i: nat) {
    forall n: nat :: DeletesAt(states, inputs, t, n) && n < i ==> rows <= Covered(maxRows, SelectsBefore(inputs, n))
  }

  lemma NextSelects(inputs: seq<ResetInput>, n: nat)
    requires n < |inputs|
    ensures SelectsBefore(inputs, n + 1) == SelectsBefore(inputs, n) + One(inputs[n].Selecting?)
  {
    assert inputs[..n + 1] == inputs[..n] + [inputs[n]];
    CountConcat(inputs[..n], [inputs[n]], IsSelect);
  }

  lemma NextPageCovers(maxRows: nat, selects: nat, room: nat)
    requires maxRows >= 2 && selects >= 2 && room == if selects == 2 then maxRows - 1 else maxRows
    ensures Covered(maxRows, selects + 1) == Covered(maxRows, selects) + room
  {
    assert (selects - 1) * maxRows == (selects - 2) * maxRows + maxRows;
  }

  // ----- the invariant -----

  /** All pages so far were full, and read while the data was whole. */
  ghost predicate PagesOk(data: set<Roa>, q: Reset, selects: nat)
    requires q.pc.FetchFull?
  {
    && q.maxRows >= 2 && selects >= 2 && |q.rows| == Covered(q.maxRows, selects)
    && q.pc.room == (if selects == 2 then q.maxRows - 1 else q.maxRows)
    && Sorted(data) == q.rows + Sorted(After(data, q.pc.after))
  }

  /** No deletion yet. */
  ghost predicate Untouched(states: seq<ResetState>, inputs: seq<ResetInput>, t: nat, i: nat) {
    forall n: nat :: DeletesAt(states, inputs, t, n) ==> n >= i
  }

  /** There was a deletion, and no page was read since. */
  ghost predicate JustDeleted(states: seq<ResetState>, inputs: seq<ResetInput>, t: nat, i: nat)
    requires i <= |inputs|
  {
    && (exists n: nat :: DeletesAt(states, inputs, t, n) && n < i)
    && forall n: nat :: DeletesAt(states, inputs, t, n) && n < i ==>
         SelectsBefore(inputs, n) == SelectsBefore(inputs, i)
  }

  ghost predicate TouchedOk(states: seq<ResetState>, inputs: seq<ResetInput>, u: U.State, t: nat, i: nat)
    requires i <= |inputs|
  {
    (Whole(u, t) && Untouched(states, inputs, t, i)) || (Gone(u, t) && JustDeleted(states, inputs, t, i))
  }

  /** The response is complete if and only if the deletions came in time. */
  ghost predicate EndOk(states: seq<ResetState>, inputs: seq<ResetInput>, data: set<Roa>, t: nat, q: Reset, i: nat)
    requires i <= |inputs|
  {
    && (Delivers(q.rows, data) <==> InTime(states, inputs, t, |data|, q.maxRows, i))
    && (Delivers(q.rows, data) ==> |data| <= Covered(q.maxRows, SelectsBefore(inputs, i)))
  }

  ghost predicate ResetOk(states: seq<ResetState>, inputs: seq<ResetInput>, u: U.State, q: Reset, i: nat)
    requires i <= |inputs|
  {
    match q.pc
    case AskLatest => SelectsBefore(inputs, i) == 0 && q.rows == []
    case AskHasFull(_) => SelectsBefore(inputs, i) == 1 && q.rows == []
    case FetchFull(t, _, _) =>
      && t in u.hist.snap && PagesOk(u.hist.snap[t], q, SelectsBefore(inputs, i))
      && TouchedOk(states, inputs, u, t, i)
    case Done(end) =>
      end.EndOfData? ==>
        && end.serial in u.hist.snap
        && EndOk(states, inputs, u.hist.snap[end.serial], end.serial, q, i)
    case Failed => true
  }

  // ----- updates -----

  lemma UpdateKeepsTouched(states: seq<ResetState>, inputs: seq<ResetInput>, t: nat, i: nat, u: U.State)
    requires i < |inputs| && i < |states| && inputs[i].Updating? && states[i].u == u
    requires U.Enabled(u, inputs[i].input) && U.Ok(u) && NoReuse(u) && SelectsBefore(inputs, i) >= 2
    requires TouchedOk(states, inputs, u, t, i)
    ensures TouchedOk(states, inputs, U.Step(u, inputs[i].input), t, i + 1)
    ensures t in u.hist.snap && U.Step(u, inputs[i].input).hist.snap[t] == u.hist.snap[t]
  {
    NextSelects(inputs, i);
    if Gone(u, t) && JustDeleted(states, inputs, t, i) {
      UpdateKeepsGone(u, inputs[i].input, t);
    } else if Cleans(u, inputs[i].input, t) {
      assert DeletesAt(states, inputs, t, i);
      CleanMakesGone(u, inputs[i].input, t);
    } else {
      assert !DeletesAt(states, inputs, t, i);
      UpdateKeepsWhole(u, inputs[i].input, t);
    }
  }

  lemma UpdateKeepsEnd(states: seq<ResetState>, inputs: seq<ResetInput>, data: set<Roa>, t: nat, q: Reset, i: nat)
    requires i < |inputs| && inputs[i].Updating? && EndOk(states, inputs, data, t, q, i)
    ensures EndOk(states, inputs, data, t, q, i + 1)
  {
    NextSelects(inputs, i);
    if InTime(states, inputs, t, |data|, q.maxRows, i) {
      assert InTime(states, inputs, t, |data|, q.maxRows, i + 1);
    } else {
      var n: nat :| DeletesAt(states, inputs, t, n) && n < i && |data| > Covered(q.maxRows, SelectsBefore(inputs, n));
      assert n < i + 1;
    }
  }

  lemma UpdateKeepsResetOk(states: seq<ResetState>, inputs: seq<ResetInput>, i: nat, u: U.State, q: Reset)
    requires i < |inputs| && i < |states| && inputs[i].Updating? && states[i].u == u
    requires U.Enabled(u, inputs[i].input) && U.Ok(u) && NoReuse(u) && ResetOk(states, inputs, u, q, i)
    ensures ResetOk(states, inputs, U.Step(u, inputs[i].input), q, i + 1)
  {
    NextSelects(inputs, i);
    match q.pc
    case FetchFull(t, _, _) => UpdateKeepsTouched(states, inputs, t, i, u);
    case Done(end) =>
      if end.EndOfData? {
        StepKeepsSnap(u, inputs[i].input, end.serial);
        UpdateKeepsEnd(states, inputs, u.hist.snap[end.serial], end.serial, q, i);
      }
    case _ =>
  }

  // ----- the query's own steps -----

  /** The query goes on with full pages, or has sent everything. */
  ghost predicate ReadOn(data: set<Roa>, t: nat, q: Reset, selects: nat) {
    if q.pc.FetchFull? then q.pc.serial == t && PagesOk(data, q, selects)
    else q.pc == Done(EndOfData(t)) && q.rows == Sorted(data) && |data| <= Covered(q.maxRows, selects)
  }

  /** A page of data that is still whole. */
  lemma WholePage(data: set<Roa>, db: Db, q: Reset, q': Reset, selects: nat, selects': nat)
    requires q.pc.FetchFull? && PagesOk(data, q, selects) && FullAt(db, q.pc.serial) == data && q' == ReadPage(db, q)
    requires selects' == selects + 1
    ensures ReadOn(data, q.pc.serial, q', selects')
  {
    var after, room := q.pc.after, q.pc.room;
    var page := Page(data, after, room);
    NextPageCovers(q.maxRows, selects, room);
    PageAdvances(data, after, room);
    Append(Sorted(data), q.rows, page, Sorted(After(data, after)), Sorted(After(data, Last(page, after))));
    if |page| < room {
      ShortPageIsLast(data, after, room);
    }
  }

  /** A page after the data is gone. */
  lemma EmptyPage(data: set<Roa>, db: Db, q: Reset, selects: nat)
    requires q.pc.FetchFull? && PagesOk(data, q, selects) && FullAt(db, q.pc.serial) == {}
    ensures ReadPage(db, q) == q.(pc := Done(EndOfData(q.pc.serial)))
    ensures Delivers(q.rows, data) <==> |data| <= Covered(q.maxRows, selects)
  {
    assert After({}, q.pc.after) == {};
    assert Page({}, q.pc.after, q.pc.room) == [];
    assert q.rows + [] == q.rows;
    PartDelivers(data, q.rows, Sorted(After(data, q.pc.after)));
    assert |data| == |q.rows| + |Sorted(After(data, q.pc.after))|;
  }

  lemma WholeEndOk(states: seq<ResetState>, inputs: seq<ResetInput>, data: set<Roa>, t: nat, q: Reset, i: nat)
    requires i < |inputs| && inputs[i].Selecting? && q.rows == Sorted(data)
    requires |data| <= Covered(q.maxRows, SelectsBefore(inputs, i + 1))
    requires Untouched(states, inputs, t, i)
    ensures EndOk(states, inputs, data, t, q, i + 1)
  {
    SortedDelivers(data);
    assert !DeletesAt(states, inputs, t, i);
  }

  lemma MoreCovered(maxRows: nat, selects: nat)
    ensures Covered(maxRows, selects) <= Covered(maxRows, selects + 1)
  {
    if selects > 2 {
      assert (selects - 1) * maxRows == (selects - 2) * maxRows + maxRows;
    }
  }

  lemma GoneEndOk(states: seq<ResetState>, inputs: seq<ResetInput>, data: set<Roa>, t: nat, q: Reset, i: nat)
    requires i < |inputs| && inputs[i].Selecting?
    requires Delivers(q.rows, data) <==> |data| <= Covered(q.maxRows, SelectsBefore(inputs, i))
    requires JustDeleted(states, inputs, t, i)
    ensures EndOk(states, inputs, data, t, q, i + 1)
  {
    NextSelects(inputs, i);
    MoreCovered(q.maxRows, SelectsBefore(inputs, i));
    assert !DeletesAt(states, inputs, t, i);
    if Delivers(q.rows, data) {
      assert InTime(states, inputs, t, |data|, q.maxRows, i + 1);
    } else {
      var n: nat :| DeletesAt(states, inputs, t, n) && n < i;
      assert n < i + 1;
    }
  }

  lemma TouchedUntilRead(states: seq<ResetState>, inputs: seq<ResetInput>, u: U.State, t: nat, i: nat)
    requires i < |inputs| && inputs[i].Selecting? && Whole(u, t) && Untouched(states, inputs, t, i)
    ensures TouchedOk(states, inputs, u, t, i + 1)
  {
    assert !DeletesAt(states, inputs, t, i);
  }

  lemma AfterWholePage(states: seq<ResetState>, inputs: seq<ResetInput>, i: nat, u: U.State, t: nat, q': Reset)
    requires i < |inputs| && inputs[i].Selecting? && Whole(u, t) && Untouched(states, inputs, t, i)
    requires ReadOn(u.hist.snap[t], t, q', SelectsBefore(inputs, i + 1))
    ensures ResetOk(states, inputs, u, q', i + 1)
  {
    if q'.pc.FetchFull? {
      TouchedUntilRead(states, inputs, u, t, i);
    } else {
      WholeEndOk(states, inputs, u.hist.snap[t], t, q', i);
    }
  }

  lemma WholePageKeepsResetOk(states: seq<ResetState>, inputs: seq<ResetInput>, i: nat, u: U.State, q: Reset, q': Reset)
    requires i < |inputs| && inputs[i].Selecting? && q.pc.FetchFull? && q' == ReadPage(u.db, q)
    requires Whole(u, q.pc.serial) && Untouched(states, inputs, q.pc.serial, i)
    requires PagesOk(u.hist.snap[q.pc.serial], q, SelectsBefore(inputs, i))
    ensures ResetOk(states, inputs, u, q', i + 1)
  {
    NextSelects(inputs, i);
    WholePage(u.hist.snap[q.pc.serial], u.db, q, q', SelectsBefore(inputs, i), SelectsBefore(inputs, i + 1));
    AfterWholePage(states, inputs, i, u, q.pc.serial, q');
  }

  lemma EmptyPageKeepsResetOk(states: seq<ResetState>, inputs: seq<ResetInput>, i: nat, u: U.State, q: Reset, q': Reset)
    requires i < |inputs| && inputs[i].Selecting? && q.pc.FetchFull? && q' == ReadPage(u.db, q)
    requires Gone(u, q.pc.serial) && JustDeleted(states, inputs, q.pc.serial, i)
    requires PagesOk(u.hist.snap[q.pc.serial], q, SelectsBefore(inputs, i))
    ensures ResetOk(states, inputs, u, q', i + 1)
  {
    var t := q.pc.serial;
    var data := u.hist.snap[t];
    EmptyPage(data, u.db, q, SelectsBefore(inputs, i));
    GoneEndOk(states, inputs, data, t, q', i);
  }

  lemma PageKeepsResetOk(states: seq<ResetState>, inputs: seq<ResetInput>, i: nat, u: U.State, q: Reset, q': Reset)
    requires i < |inputs| && inputs[i].Selecting? && q.pc.FetchFull? && q' == ReadPage(u.db, q)
    requires ResetOk(states, inputs, u, q, i)
    ensures ResetOk(states, inputs, u, q', i + 1)
  {
    if Whole(u, q.pc.serial) && Untouched(states, inputs, q.pc.serial, i) {
      WholePageKeepsResetOk(states, inputs, i, u, q, q');
    } else {
      EmptyPageKeepsResetOk(states, inputs, i, u, q, q');
    }
  }

  lemma FirstPageOk(u: U.State, q: Reset, q': Reset, t: nat)
    requires U.Ok(u) && q.maxRows >= 2 && q.rows == [] && t in u.db.updates && u.db.updates[t].hasFull
    requires q' == q.(pc := FetchFull(t, None, q.maxRows - 1))
    ensures t in u.hist.snap && PagesOk(u.hist.snap[t], q', 2) && Whole(u, t)
  {
    var data := u.hist.snap[t];
    assert After(data, None) == data;
    assert [] + Sorted(data) == Sorted(data);
  }

  lemma NoDeletionYet(states: seq<ResetState>, inputs: seq<ResetInput>, t: nat, i: nat, n: nat)
    requires i <= |inputs| && SelectsBefore(inputs, i) < 2 && n <= i
    ensures !DeletesAt(states, inputs, t, n)
  {
    assert inputs[..i] == inputs[..n] + inputs[n..i];
    CountConcat(inputs[..n], inputs[n..i], IsSelect);
  }

  lemma ReadKeepsResetOk(states: seq<ResetState>, inputs: seq<ResetInput>, i: nat, u: U.State, q: Reset)
    requires i < |inputs| && inputs[i].Selecting? && CanReset(ResetState(u, q), inputs[i])
    requires U.Ok(u) && ResetOk(states, inputs, u, q, i)
    ensures ResetOk(states, inputs, u, ReadReset(u, q, inputs[i].latest), i + 1)
  {
    NextSelects(inputs, i);
    if q.pc.FetchFull? {
      PageKeepsResetOk(states, inputs, i, u, q, ReadPage(u.db, q));
    } else if q.pc.AskHasFull? && q.pc.serial in u.db.updates && u.db.updates[q.pc.serial].hasFull {
      var t := q.pc.serial;
      FirstPageOk(u, q, ReadReset(u, q, inputs[i].latest), t);
      forall n: nat | n <= i ensures !DeletesAt(states, inputs, t, n) {
        NoDeletionYet(states, inputs, t, i, n);
      }
    }
  }

  lemma StepKeepsResetOk(states: seq<ResetState>, inputs: seq<ResetInput>, i: nat)
    requires ResetAt(states, inputs, i) && U.Ok(states[i].u) && NoReuse(states[i].u)
    requires ResetOk(states, inputs, states[i].u, states[i].q, i)
    ensures ResetOk(states, inputs, states[i + 1].u, states[i + 1].q, i + 1)
  {
    var s := states[i];
    if inputs[i].Updating? {
      UpdateKeepsResetOk(states, inputs, i, s.u, s.q);
      OverlapsDoNotMatter(states, inputs, states[i + 1].u, s.q, states[i + 1].q, i + 1);
    } else {
      ReadKeepsResetOk(states, inputs, i, s.u, s.q);
    }
  }

  lemma {:induction false} ResetRunOk(states: seq<ResetState>, inputs: seq<ResetInput>, maxRows: nat, i: nat)
    requires ResetRun(states, inputs, maxRows) && AllNewNumbers(states) && i < |states|
    ensures ResetOk(states, inputs, states[i].u, states[i].q, i)
    decreases i, 0
  {
    if i == 0 {
      assert SelectsBefore(inputs, 0) == 0;
    } else {
      RunStepOk(states, inputs, maxRows, i - 1);
    }
  }

  lemma {:induction false} RunStepOk(states: seq<ResetState>, inputs: seq<ResetInput>, maxRows: nat, i: nat)
    requires ResetRun(states, inputs, maxRows) && AllNewNumbers(states) && i < |inputs|
    ensures ResetOk(states, inputs, states[i + 1].u, states[i + 1].q, i + 1)
    decreases i, 1
  {
    ResetRunOk(states, inputs, maxRows, i);
    ResetUpdatesOk(states, inputs, maxRows, i);
    assert ResetAt(states, inputs, i);
    StepKeepsResetOk(states, inputs, i);
  }

  lemma OverlapsDoNotMatter(states: seq<ResetState>, inputs: seq<ResetInput>, u: U.State, q: Reset, q': Reset, i: nat)
    requires i <= |inputs| && ResetOk(states, inputs, u, q, i) && q' == q.(overlaps := q'.overlaps)
    ensures ResetOk(states, inputs, u, q', i)
  {
  }

  // ----- when a reset response is complete -----

  /** A reset response that ends with End of Data delivers exactly the data of its serial
      number if and only if every clean-up that deletes this data after the query chose
      it comes when the pages read so far hold all of its rows; provided that no serial
      number was used twice. */
  lemma NewNumbersComplete(states: seq<ResetState>, inputs: seq<ResetInput>, maxRows: nat)
    requires ResetRun(states, inputs, maxRows) && AllNewNumbers(states)
    requires states[|states| - 1].q.pc.Done? && states[|states| - 1].q.pc.end.EndOfData?
    ensures var q, snap := states[|states| - 1].q, states[|states| - 1].u.hist.snap;
            var t := q.pc.end.serial;
            && t in snap
            && (Delivers(q.rows, snap[t]) <==>
                forall n: nat :: DeletesAt(states, inputs, t, n) ==>
                  |snap[t]| <= Covered(maxRows, SelectsBefore(inputs, n)))
  {
    var last := states[|states| - 1];
    ResetRunOk(states, inputs, maxRows, |inputs|);
    ResetUpdatesOk(states, inputs, maxRows, |inputs|);
    var t := last.q.pc.end.serial;
    assert InTime(states, inputs, t, |last.u.hist.snap[t]|, maxRows, |inputs|) <==>
           forall n: nat :: DeletesAt(states, inputs, t, n) ==>
             |last.u.hist.snap[t]| <= Covered(maxRows, SelectsBefore(inputs, n));
  }

  // ----- automatic numbers -----

  /** No update of the run got its serial number from the command line. */
  predicate AllAutomaticNumbers(inputs: seq<ResetInput>) {
    forall i :: 0 <= i < |inputs| && inputs[i].Updating? ==> Automatic(inputs[i].input)
  }

  function ResetTables(states: seq<ResetState>): seq<U.State> {
    seq(|states|, i requires 0 <= i < |states| => states[i].u)
  }

  lemma ResetTablesAreUpdates(states: seq<ResetState>, inputs: seq<ResetInput>, maxRows: nat)
    requires ResetRun(states, inputs, maxRows) && AllAutomaticNumbers(inputs)
    ensures Updates(ResetTables(states))
  {
    var us := ResetTables(states);
    forall n: nat ensures NextAt(us, n) {
      if n + 1 < |us| {
        assert ResetAt(states, inputs, n);
        if inputs[n].Updating? {
          assert NextUpdate(us[n], inputs[n].input, us[n + 1]);
        }
      }
    }
  }

  lemma AutomaticNumbersAreNew(states: seq<ResetState>, inputs: seq<ResetInput>, maxRows: nat)
    requires ResetRun(states, inputs, maxRows) && AllAutomaticNumbers(inputs)
    requires |states[|states| - 1].u.hist.snap| < U.SERIAL_SPACE
    ensures AllNewNumbers(states)
  {
    ResetTablesAreUpdates(states, inputs, maxRows);
    forall i | 0 <= i < |states| ensures NoReuse(states[i].u) {
      SnapOnlyGrows(ResetTables(states), i, |states| - 1);
      AutomaticIsNew(ResetTables(states), i);
    }
  }

  /** The same when the updates number their rows themselves, as long as there have been
      fewer than 2^32 of them. */
  lemma ResetCompleteExactly(states: seq<ResetState>, inputs: seq<ResetInput>, maxRows: nat)
    requires ResetRun(states, inputs, maxRows) && AllAutomaticNumbers(inputs)
    requires |states[|states| - 1].u.hist.snap| < U.SERIAL_SPACE
    requires states[|states| - 1].q.pc.Done? && states[|states| - 1].q.pc.end.EndOfData?
    ensures var q, snap := states[|states| - 1].q, states[|states| - 1].u.hist.snap;
            var t := q.pc.end.serial;
            && t in snap
            && (Delivers(q.rows, snap[t]) <==>
                forall n: nat :: DeletesAt(states, inputs, t, n) ==>
                  |snap[t]| <= Covered(maxRows, SelectsBefore(inputs, n)))
  {
    AutomaticNumbersAreNew(states, inputs, maxRows);
    NewNumbersComplete(states, inputs, maxRows);
  }

  // ----- one update run during the query does no harm -----

  /** While at most one update run has been alive, the chosen row keeps its data. */
  ghost predicate Kept(u: U.State, serial: nat, overlaps: nat) {
    overlaps <= 1 ==>
      && serial in u.db.updates && u.db.updates[serial].hasFull
      && (overlaps == 0 ==> u.updater.Idle? && u.hist.path != [] && U.Latest(u.hist.path) == serial)
      && (u.updater.Running? ==>
            if U.IsBeforeInsert(u.updater.at) then u.hist.path != [] && U.Latest(u.hist.path) == serial
            else
              u.updater.at.SIgnoreOldFull? || u.updater.at.SDeleteOldFull? || u.updater.at.SDeleteOldUpdate? ==>
                serial == u.updater.current || serial == u.updater.previous)
  }

  lemma PrepareKeepsKept(u: U.State, i: U.Input, serial: nat)
    requires i.Execute? && U.Enabled(u, i) && U.IsBeforeInsert(u.updater.at)
    requires U.BeforeInsert(u.db, u.hist, u.updater) && Kept(u, serial, 1)
    ensures Kept(U.Step(u, i), serial, 1)
  {
    if u.updater.at.SInsertUpdate? {
      assert U.Step(u, i).db.updates[serial].hasFull;
    }
  }

  lemma CleanUpKeepsKept(u: U.State, i: U.Input, serial: nat)
    requires i.Execute? && U.Enabled(u, i) && !U.IsBeforeInsert(u.updater.at) && Kept(u, serial, 1)
    ensures Kept(U.Step(u, i), serial, 1)
  {
  }

  lemma StartKeepsKept(u: U.State, i: U.Input, serial: nat, overlaps: nat)
    requires !i.Execute? && U.Enabled(u, i) && Kept(u, serial, overlaps)
    ensures Kept(U.Step(u, i), serial, if i.Start? then overlaps + 1 else overlaps)
  {
  }

  lemma UpdateKeepsKept(u: U.State, i: U.Input, serial: nat, overlaps: nat)
    requires U.Enabled(u, i) && U.Ok(u) && Kept(u, serial, overlaps)
    ensures Kept(U.Step(u, i), serial, if i.Start? then overlaps + 1 else overlaps)
  {
    if !i.Execute? {
      StartKeepsKept(u, i, serial, overlaps);
    } else if overlaps == 1 {
      if U.IsBeforeInsert(u.updater.at) {
        PrepareKeepsKept(u, i, serial);
      } else {
        CleanUpKeepsKept(u, i, serial);
      }
    }
  }

  lemma ChosenIsKept(u: U.State, latest: nat)
    requires U.Ok(u) && IsLatest(u.db, Some(latest))
    ensures Kept(u, latest, if u.updater.Running? then 1 else 0)
  {
    var path := u.hist.path;
    assert latest in path && U.Latest(path) in path;
    U.LatestIsNewest(u.db.updates, path);
  }

  ghost predicate KeptOk(u: U.State, q: Reset) {
    match q.pc
    case AskHasFull(serial) => Kept(u, serial, q.overlaps)
    case FetchFull(serial, _, _) => Kept(u, serial, q.overlaps)
    case Done(end) => end.EndOfData? ==> Kept(u, end.serial, q.overlaps)
    case _ => true
  }

  lemma KeptStep(s: ResetState, a: ResetInput)
    requires CanReset(s, a) && U.Ok(s.u) && KeptOk(s.u, s.q)
    ensures KeptOk(ResetStep(s, a).u, ResetStep(s, a).q)
  {
    var pc := s.q.pc;
    if a.Updating? {
      if pc.AskHasFull? || pc.FetchFull? {
        UpdateKeepsKept(s.u, a.input, pc.serial, s.q.overlaps);
      } else if pc.Done? && pc.end.EndOfData? {
        UpdateKeepsKept(s.u, a.input, pc.end.serial, s.q.overlaps);
      }
    } else if pc.AskLatest? && a.latest.Some? {
      ChosenIsKept(s.u, a.latest.value);
    }
  }

  lemma {:induction false} KeptThroughout(states: seq<ResetState>, inputs: seq<ResetInput>, maxRows: nat, i: nat)
    requires ResetRun(states, inputs, maxRows) && i < |states|
    ensures KeptOk(states[i].u, states[i].q)
  {
    if i == 0 {
    } else {
      KeptThroughout(states, inputs, maxRows, i - 1);
      ResetUpdatesOk(states, inputs, maxRows, i - 1);
      assert ResetAt(states, inputs, i - 1);
      KeptStep(states[i - 1], inputs[i - 1]);
    }
  }

  /** The query reads, or has read, the data of t. */
  predicate Reads(q: Reset, t: nat) {
    (q.pc.FetchFull? && q.pc.serial == t) || q.pc == Done(EndOfData(t))
  }

  /** Once chosen, the serial number stays, and overlapping updates are only added. */
  lemma {:induction false} ChosenBefore(states: seq<ResetState>, inputs: seq<ResetInput>, maxRows: nat, t: nat, m: nat)
    requires ResetRun(states, inputs, maxRows) && AllNewNumbers(states) && m <= |inputs|
    requires SelectsBefore(inputs, m) >= 2 && states[|inputs|].q.pc == Done(EndOfData(t))
    ensures Reads(states[m].q, t) && states[m].q.overlaps <= states[|inputs|].q.overlaps
    decreases |inputs| - m
  {
    if m == |inputs| {
    } else {
      NextSelects(inputs, m);
      ChosenBefore(states, inputs, maxRows, t, m + 1);
      assert ResetAt(states, inputs, m);
      ResetRunOk(states, inputs, maxRows, m);
    }
  }

  lemma OneUpdateDeletesNothing(states: seq<ResetState>, inputs: seq<ResetInput>, maxRows: nat, t: nat, n: nat)
    requires ResetRun(states, inputs, maxRows) && AllNewNumbers(states)
    requires states[|inputs|].q.pc == Done(EndOfData(t)) && states[|inputs|].q.overlaps <= 1
    ensures !DeletesAt(states, inputs, t, n)
  {
    if n < |inputs| && SelectsBefore(inputs, n) >= 2 {
      ChosenBefore(states, inputs, maxRows, t, n);
      KeptThroughout(states, inputs, maxRows, n);
    }
  }

  /** What a maintainer can arrange: if at most one update run is alive at any time during
      a reset query, its response is complete.  That is what keeping the last two full
      copies buys. */
  lemma ResetCompleteWithOneUpdate(states: seq<ResetState>, inputs: seq<ResetInput>, maxRows: nat)
    requires ResetRun(states, inputs, maxRows) && AllAutomaticNumbers(inputs)
    requires |states[|states| - 1].u.hist.snap| < U.SERIAL_SPACE
    requires states[|states| - 1].q.pc.Done? && states[|states| - 1].q.pc.end.EndOfData?
    requires states[|states| - 1].q.overlaps <= 1
    ensures var last := states[|states| - 1];
            var t := last.q.pc.end.serial;
            t in last.u.hist.snap && Delivers(last.q.rows, last.u.hist.snap[t])
  {
    AutomaticNumbersAreNew(states, inputs, maxRows);
    NewNumbersComplete(states, inputs, maxRows);
    var t := states[|states| - 1].q.pc.end.serial;
    forall n: nat ensures !DeletesAt(states, inputs, t, n) {
      OneUpdateDeletesNothing(states, inputs, maxRows, t, n);
    }
  }
}
