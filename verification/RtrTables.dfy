/** The rtr tables and the SQL statements of DB_CLIENT_RTR (lib/db/prep-stmt.c) as
    functions on their contents.

    rtr_full and rtr_incremental are grouped by their first key column serial_num;
    the rest of the key is a `Roa`, and rtr_incremental's one remaining column is
    is_announce. */
module RtrTables {
  import opened Options
  import opened Sequences

  /** The columns asn, prefix, prefix_length and prefix_max_length. */
  datatype Roa = Roa(asn: nat, prefix: seq<nat>, length: nat, maxLength: nat)

  datatype Row = Row(prev: Option<nat>, created: int, hasFull: bool)

  type Delta = map<Roa, bool>

  datatype Db = Db(full: map<nat, set<Roa>>, incremental: map<nat, Delta>, updates: map<nat, Row>)

  function FullAt(db: Db, serial: nat): set<Roa> {
    if serial in db.full then db.full[serial] else {}
  }

  function DeltaAt(db: Db, serial: nat): Delta {
    if serial in db.incremental then db.incremental[serial] else map[]
  }

  /** The changes that lead from one snapshot to the next; true announces. */
  function Diff(a: set<Roa>, b: set<Roa>): Delta {
    map r | r in (a - b) + (b - a) :: r in b
  }

  // ----- statements that read -----

  /** DB_PSTMT_RTR_GET_LATEST_SERNUM returned `latest`. */
  predicate IsLatest(db: Db, latest: Option<nat>) {
    match latest
    case None => db.updates == map[]
    case Some(s) => s in db.updates && forall t :: t in db.updates ==> db.updates[t].created <= db.updates[s].created
  }

  /** DB_PSTMT_RTR_READ_SER_NUM_AS_PREV returned `found`. */
  predicate IsSuccessor(db: Db, serial: nat, found: Option<nat>) {
    match found
    case None => forall t :: t in db.updates ==> db.updates[t].prev != Some(serial)
    case Some(t) => t in db.updates && db.updates[t].prev == Some(serial)
  }

  /** DB_PSTMT_RTR_DETECT_INCONSISTENT_STATE found nothing. */
  predicate GoodSerials(db: Db, previous: nat, current: nat) {
    forall t :: t in db.updates ==>
      t != current && db.updates[t].prev != Some(current) && db.updates[t].prev != Some(previous)
  }

  // ----- statements that write -----

  function DeleteIncompleteIncremental(db: Db): Db {
    db.(incremental := map s | s in db.incremental && s in db.updates :: db.incremental[s])
  }

  function DeleteIncompleteFull(db: Db): Db {
    db.(full := map s | s in db.full && s in db.updates :: db.full[s])
  }

  function InsertFull(db: Db, serial: nat, rpki: set<Roa>): Db {
    db.(full := db.full[serial := FullAt(db, serial) + rpki])
  }

  /** DB_PSTMT_RTR_INSERT_INCREMENTAL: the rows of `present` that `absent` lacks. */
  function InsertIncremental(db: Db, serial: nat, isAnnounce: bool, absent: nat, present: nat): Db {
    var rows := map r | r in FullAt(db, present) - FullAt(db, absent) :: isAnnounce;
    db.(incremental := db.incremental[serial := DeltaAt(db, serial) + rows])
  }

  function InsertUpdate(db: Db, serial: nat, prev: Option<nat>, now: int): Db {
    db.(updates := db.updates[serial := Row(prev, now, true)])
  }

  function DeleteUselessFull(db: Db, serial: nat): Db {
    db.(full := db.full - {serial})
  }

  function IgnoreOldFull(db: Db, s1: nat, s2: nat): Db {
    db.(updates := map s | s in db.updates ::
          if s != s1 && s != s2 then db.updates[s].(hasFull := false) else db.updates[s])
  }

  function DeleteOldFull(db: Db, s1: nat, s2: nat): Db {
    db.(full := map s | s in db.full && (s == s1 || s == s2) :: db.full[s])
  }

  function DeleteOldUpdate(db: Db, cutoff: int, s1: nat, s2: nat): Db {
    db.(updates := map s | s in db.updates && (db.updates[s].created >= cutoff || s == s1 || s == s2) :: db.updates[s])
  }

  function IgnoreOldIncremental(db: Db): Db {
    db.(updates := map s | s in db.updates ::
          var u := db.updates[s];
          if u.prev.Some? && u.prev.value in db.updates then u else u.(prev := None))
  }

  function DeleteOldIncremental(db: Db): Db {
    db.(incremental := map s | s in db.incremental && s in db.updates && db.updates[s].prev.Some? :: db.incremental[s])
  }

  // ----- the router's side -----

  /** What a router does with the prefix PDUs of a response: an announcement must be
      new and a withdrawal must be of something it has (sections 5.6, 5.7 and 10 of
      RFC 6810); None is the error the router would report. */
  function Replay(have: set<Roa>, changes: seq<(Roa, bool)>): Option<set<Roa>>
    decreases changes
  {
    if changes == [] then Some(have)
    else
      var (r, isAnnounce) := changes[0];
      if isAnnounce then
        if r in have then None else Replay(have + {r}, changes[1..])
      else
        if r in have then Replay(have - {r}, changes[1..]) else None
  }

  /** The rows of a delta in a given order of their keys. */
  function Changes(d: Delta, order: seq<Roa>): seq<(Roa, bool)>
    requires forall r :: r in order ==> r in d
  {
    seq(|order|, i requires 0 <= i < |order| => (order[i], d[order[i]]))
  }

  /** The changes can be replayed exactly if their two parts can, one after the other. */
  lemma {:induction false} ReplayParts(have: set<Roa>, xs: seq<(Roa, bool)>, ys: seq<(Roa, bool)>)
    ensures Replay(have, xs + ys) ==
            if Replay(have, xs).Some? then Replay(Replay(have, xs).value, ys) else None
    decreases xs
  {
    if xs == [] {
      assert xs + ys == ys;
    } else {
      assert (xs + ys)[1..] == xs[1..] + ys;
      var (r, isAnnounce) := xs[0];
      ReplayParts(if isAnnounce then have + {r} else have - {r}, xs[1..], ys);
    }
  }

  /** Two routers that end with the same data after the same changes began with the same. */
  lemma {:induction false} ReplayInjective(a: set<Roa>, b: set<Roa>, changes: seq<(Roa, bool)>)
    requires Replay(a, changes).Some? && Replay(a, changes) == Replay(b, changes)
    ensures a == b
    decreases changes
  {
    if changes == [] {
      assert a == b;
    } else {
      var (r, isAnnounce) := changes[0];
      if isAnnounce {
        ReplayInjective(a + {r}, b + {r}, changes[1..]);
        assert a == (a + {r}) - {r} && b == (b + {r}) - {r};
      } else {
        ReplayInjective(a - {r}, b - {r}, changes[1..]);
        assert a == (a - {r}) + {r} && b == (b - {r}) + {r};
      }
    }
  }

  lemma DiffAfterOne(a: set<Roa>, b: set<Roa>, r: Roa)
    requires r in Diff(a, b)
    ensures var d, d' := Diff(a, b), Diff(if r in b then a + {r} else a - {r}, b);
            forall q :: (q in d' <==> q in d && q != r) && (q in d' ==> d'[q] == d[q])
  {
  }

  lemma NoDiffIsEqual(a: set<Roa>, b: set<Roa>)
    requires forall r :: r !in Diff(a, b)
    ensures a == b
  {
    forall r ensures r in a <==> r in b {
      assert r !in Diff(a, b);
    }
  }

  lemma ChangesTail(d: Delta, d': Delta, order: seq<Roa>)
    requires order != [] && forall r :: r in order ==> r in d
    requires forall r :: r in order[1..] ==> r in d' && d'[r] == d[r]
    ensures Changes(d, order) == [(order[0], d[order[0]])] + Changes(d', order[1..])
  {
    forall i | 0 < i < |order|
      ensures Changes(d, order)[i] == Changes(d', order[1..])[i - 1]
    {
      assert order[i] == order[1..][i - 1];
    }
  }

  /** Replaying all of a difference, in any order, on the older snapshot gives the
      newer one, every announcement new and every withdrawal known at its turn. */
  lemma {:induction false} ReplayDiff(a: set<Roa>, b: set<Roa>, order: seq<Roa>)
    requires Distinct(order) && forall r :: r in order <==> r in Diff(a, b)
    ensures Replay(a, Changes(Diff(a, b), order)) == Some(b)
    decreases order
  {
    if order == [] {
      NoDiffIsEqual(a, b);
    } else {
      var r := order[0];
      assert r in Diff(a, b);
      var a' := if r in b then a + {r} else a - {r};
      DiffAfterOne(a, b, r);
      DistinctTail(order);
      assert forall q :: q in order <==> q == r || q in order[1..];
      ReplayDiff(a', b, order[1..]);
      ChangesTail(Diff(a, b), Diff(a', b), order);
    }
  }
}
