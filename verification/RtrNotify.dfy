/** When a connection sends Serial Notify (bin/rpki-rtr/connection.c): the connection
    thread's loop, its held cache state and the clock it compares with. */
module RtrNotify {
  import opened Options
  import opened RtrProtocol

  const HALF: nat := 0x8000_0000
  const NOTIFY_INTERVAL := 60
  const CACHE_STATE_INTERVAL := 10

  /** serial_number_greater. */
  predicate Greater(s1: Serial, s2: Serial) {
    s1 != s2 && ((s1 < s2 && s2 - s1 > HALF) || (s1 > s2 && s1 - s2 < HALF))
  }

  /** Section 3.2 of RFC 1982: s1 is greater if it lies less than half the circle
      ahead of s2; so never both ways round, and never for two opposite numbers. */
  lemma GreaterIsAhead(s1: Serial, s2: Serial)
    ensures Greater(s1, s2) <==> 0 < (s1 - s2) % SERIALS < HALF
    ensures Greater(s1, s2) ==> !Greater(s2, s1)
    ensures !Greater(s1, s2) && !Greater(s2, s1) <==> s1 == s2 || (s1 - s2) % SERIALS == HALF
  {
    if s1 < s2 {
      assert (s1 - s2) % SERIALS == s1 - s2 + SERIALS;
    }
  }

  datatype CacheState = CacheState(available: bool, session: nat, serial: Serial)

  /** The PDUs a database response can hold. */
  datatype Pdu =
    | CacheResponse(session: nat)
    | Prefix
    | EndOfData(session: nat, serial: Serial)
    | CacheReset
    | ErrorReport(fatal: bool)

  /** What goes out on the socket: a Notify with the time it is sent, a PDU of the
      response to the connection's n-th request, or one sent on the spot. */
  datatype Sent =
    | Notify(at: int, session: nat, serial: Serial)
    | OfResponse(request: nat, pdu: Pdu)
    | Direct(pdu: Pdu)

  datatype Input =
    | Nothing
    | Received(query: Query)
    | ReceivedReport                            // an Error Report
    | ReceivedOther                             // a PDU that only a cache may send
    | Response(pdus: seq<Pdu>, isDone: bool)    // waiting in the response queue

  /** One turn of connection_main_loop: its input, the readings of the clock in the
      order they are taken, and the global cache state at that moment. */
  datatype Turn = Turn(input: Input, checked: int, copied: int, notified: int, noted: int, global: CacheState)

  /** The clock does not go back during a turn. */
  predicate Ordered(t: Turn) {
    t.checked <= t.copied <= t.notified <= t.noted
  }

  // ----- what the router sees -----

  function Learned(h: Option<Serial>, serial: Serial): Option<Serial> {
    if h.None? || Greater(serial, h.value) then Some(serial) else h
  }

  /** What is held after one more PDU. */
  function HeldNext(before: Option<Serial>, x: Sent): Option<Serial> {
    if x.Notify? then Some(x.serial)
    else if x.OfResponse? && x.pdu.EndOfData? then Learned(before, x.pdu.serial)
    else before
  }

  /** The serial number a peer can tell the cache holds, from what it was sent. */
  function Held(h: Option<Serial>, sent: seq<Sent>): Option<Serial> {
    if sent == [] then h else HeldNext(Held(h, sent[..|sent| - 1]), sent[|sent| - 1])
  }

  predicate TooSoon(sent: seq<Sent>, i: nat, j: nat) {
    i < j < |sent| && sent[i].Notify? && sent[j].Notify? && sent[j].at < sent[i].at + NOTIFY_INTERVAL
  }

  /** Section 6.2 of RFC 6810: no more than one Notify a minute. */
  ghost predicate RateLimited(sent: seq<Sent>) {
    forall i: nat, j: nat :: !TooSoon(sent, i, j)
  }

  predicate Interrupts(sent: seq<Sent>, i: nat, k: nat, j: nat) {
    && i < k < j < |sent|
    && sent[i].OfResponse? && sent[k].Notify? && sent[j].OfResponse? && sent[i].request == sent[j].request
  }

  /** No Notify stands between two PDUs of one response. */
  ghost predicate Uninterrupted(sent: seq<Sent>) {
    forall i: nat, k: nat, j: nat :: !Interrupts(sent, i, k, j)
  }

  predicate RisesAt(h: Option<Serial>, sent: seq<Sent>, k: nat) {
    k < |sent| && sent[k].Notify? ==>
      var before := Held(h, sent[..k]);
      before.None? || Greater(sent[k].serial, before.value)
  }

  /** A Notify carries a serial number greater than the one held before, if any. */
  ghost predicate Rising(h: Option<Serial>, sent: seq<Sent>) {
    forall k: nat :: RisesAt(h, sent, k)
  }

  predicate OfSession(session: nat, x: Sent) {
    match x
    case Notify(_, s, _) => s == session
    case OfResponse(_, EndOfData(s, _)) => s == session
    case _ => true
  }

  predicate SessionAt(session: nat, sent: seq<Sent>, k: nat) {
    k < |sent| ==> OfSession(session, sent[k])
  }

  /** Every Notify and every End of Data is of the session. */
  ghost predicate OneSession(session: nat, sent: seq<Sent>) {
    forall k: nat :: SessionAt(session, sent, k)
  }

  lemma SessionSnoc(session: nat, sent: seq<Sent>, x: Sent)
    requires OneSession(session, sent) && OfSession(session, x)
    ensures OneSession(session, sent + [x])
  {
    forall k: nat ensures SessionAt(session, sent + [x], k) {
      assert SessionAt(session, sent, k);
    }
  }

  function HeldOf(c: CacheState): Option<Serial> {
    if c.available then Some(c.serial) else None
  }

  lemma HeldSnoc(h: Option<Serial>, sent: seq<Sent>, x: Sent)
    ensures Held(h, sent + [x]) == HeldNext(Held(h, sent), x)
  {
    assert (sent + [x])[..|sent|] == sent;
  }

  lemma RisingSnoc(h: Option<Serial>, sent: seq<Sent>, x: Sent)
    requires Rising(h, sent)
    requires x.Notify? ==> Held(h, sent).None? || Greater(x.serial, Held(h, sent).value)
    ensures Rising(h, sent + [x])
  {
    forall k: nat ensures RisesAt(h, sent + [x], k) {
      assert RisesAt(h, sent, k);
      if k <= |sent| {
        assert (sent + [x])[..k] == sent[..k];
      }
    }
    assert sent[..|sent|] == sent;
  }

  predicate BegunBefore(sent: seq<Sent>, i: nat, k: nat) {
    i < k < |sent| && sent[i].OfResponse? && sent[k].Notify?
  }

  /** Every response that was begun before some Notify is to an earlier request. */
  ghost predicate NotifiedBefore(sent: seq<Sent>, request: nat) {
    forall i: nat, k: nat :: BegunBefore(sent, i, k) ==> sent[i].request < request
  }

  predicate NumberedAt(sent: seq<Sent>, requests: nat, i: nat) {
    i < |sent| && sent[i].OfResponse? ==> sent[i].request <= requests
  }

  /** Requests are numbered in order. */
  ghost predicate Numbered(sent: seq<Sent>, requests: nat) {
    forall i: nat :: NumberedAt(sent, requests, i)
  }

  predicate NotifiedAt(sent: seq<Sent>, time: int, i: nat) {
    i < |sent| && sent[i].Notify? ==> sent[i].at + NOTIFY_INTERVAL <= time
  }

  ghost predicate NotifiedBy(sent: seq<Sent>, time: int) {
    forall i: nat :: NotifiedAt(sent, time, i)
  }

  lemma NumberedSnoc(sent: seq<Sent>, requests: nat, x: Sent)
    requires Numbered(sent, requests) && (x.OfResponse? ==> x.request <= requests)
    ensures Numbered(sent + [x], requests)
  {
    forall i: nat ensures NumberedAt(sent + [x], requests, i) {
      assert NumberedAt(sent, requests, i);
    }
  }

  lemma NotifiedSnoc(sent: seq<Sent>, time: int, later: int, x: Sent)
    requires NotifiedBy(sent, time) && time <= later && (x.Notify? ==> x.at + NOTIFY_INTERVAL <= later)
    ensures NotifiedBy(sent + [x], later)
  {
    forall i: nat ensures NotifiedAt(sent + [x], later, i) {
      assert NotifiedAt(sent, time, i);
    }
  }

  lemma NotifiedLater(sent: seq<Sent>, time: int, later: int)
    requires NotifiedBy(sent, time) && time <= later
    ensures NotifiedBy(sent, later)
  {
    forall i: nat ensures NotifiedAt(sent, later, i) {
      assert NotifiedAt(sent, time, i);
    }
  }

  /** A response begun so far is to a request made so far. */
  lemma NewRequest(sent: seq<Sent>, requests: nat, later: nat)
    requires Numbered(sent, requests) && requests < later
    ensures Numbered(sent, later) && NotifiedBefore(sent, later)
  {
    forall i: nat ensures NumberedAt(sent, later, i) {
      assert NumberedAt(sent, requests, i);
    }
    forall i: nat, k: nat | BegunBefore(sent, i, k) ensures sent[i].request < later {
      assert NumberedAt(sent, requests, i);
    }
  }

  lemma NotifySnoc(sent: seq<Sent>, x: Sent)
    requires RateLimited(sent) && Uninterrupted(sent) && x.Notify? && NotifiedBy(sent, x.at)
    ensures RateLimited(sent + [x]) && Uninterrupted(sent + [x])
  {
    forall i: nat, j: nat
      ensures !TooSoon(sent + [x], i, j)
    {
      assert !TooSoon(sent, i, j) && NotifiedAt(sent, x.at, i);
    }
    forall i: nat, k: nat, j: nat
      ensures !Interrupts(sent + [x], i, k, j)
    {
      assert !Interrupts(sent, i, k, j);
    }
  }

  lemma DirectSnoc(sent: seq<Sent>, pdu: Pdu, request: nat)
    requires RateLimited(sent) && Uninterrupted(sent)
    ensures RateLimited(sent + [Direct(pdu)]) && Uninterrupted(sent + [Direct(pdu)])
    ensures NotifiedBefore(sent, request) ==> NotifiedBefore(sent + [Direct(pdu)], request)
  {
    var after := sent + [Direct(pdu)];
    forall i: nat, j: nat
      ensures !TooSoon(after, i, j)
    {
      assert !TooSoon(sent, i, j);
    }
    forall i: nat, k: nat, j: nat
      ensures !Interrupts(after, i, k, j)
    {
      assert !Interrupts(sent, i, k, j);
    }
    assert forall i: nat, k: nat :: BegunBefore(after, i, k) ==> BegunBefore(sent, i, k);
  }

  lemma ResponseSnoc(sent: seq<Sent>, request: nat, pdu: Pdu)
    requires RateLimited(sent) && Uninterrupted(sent) && NotifiedBefore(sent, request)
    ensures RateLimited(sent + [OfResponse(request, pdu)])
    ensures Uninterrupted(sent + [OfResponse(request, pdu)])
    ensures NotifiedBefore(sent + [OfResponse(request, pdu)], request)
  {
    var after := sent + [OfResponse(request, pdu)];
    forall i: nat, j: nat
      ensures !TooSoon(after, i, j)
    {
      assert !TooSoon(sent, i, j);
    }
    assert forall i: nat, k: nat :: BegunBefore(after, i, k) ==> BegunBefore(sent, i, k);
    forall i: nat, k: nat, j: nat
      ensures !Interrupts(after, i, k, j)
    {
      assert !Interrupts(sent, i, k, j);
      assert k < j && Interrupts(after, i, k, j) ==> BegunBefore(sent, i, k);
    }
  }

  // ----- what the connection keeps -----

  /** The promises to the router. */
  ghost predicate Promises(initial: CacheState, sent: seq<Sent>) {
    RateLimited(sent) && Uninterrupted(sent) && Rising(HeldOf(initial), sent) && OneSession(initial.session, sent)
  }

  /** The held state is the one the router can infer. */
  ghost predicate InStep(initial: CacheState, local: CacheState, sent: seq<Sent>) {
    local.session == initial.session && HeldOf(local) == Held(HeldOf(initial), sent)
  }

  ghost predicate Fenced(mode: Mode, sent: seq<Sent>, requests: nat) {
    Numbered(sent, requests) && (mode.Responding? ==> NotifiedBefore(sent, requests))
  }

  ghost predicate Good(initial: CacheState, local: CacheState, mode: Mode, sent: seq<Sent>, requests: nat, next: int) {
    Promises(initial, sent) && InStep(initial, local, sent) && Fenced(mode, sent, requests) && NotifiedBy(sent, next)
  }

  /** update_local_cache_state on a PDU of a response, do_notify clear. */
  function Taken(local: CacheState, pdu: Pdu): CacheState {
    if pdu.EndOfData? && (!local.available || Greater(pdu.serial, local.serial)) then
      local.(serial := pdu.serial, available := true)
    else local
  }

  lemma DirectKeeps(initial: CacheState, local: CacheState, mode: Mode, sent: seq<Sent>, requests: nat, next: int,
                    pdu: Pdu)
    requires Good(initial, local, mode, sent, requests, next)
    ensures Good(initial, local, mode, sent + [Direct(pdu)], requests, next)
  {
    HeldSnoc(HeldOf(initial), sent, Direct(pdu));
    RisingSnoc(HeldOf(initial), sent, Direct(pdu));
    DirectSnoc(sent, pdu, requests);
    SessionSnoc(initial.session, sent, Direct(pdu));
    NumberedSnoc(sent, requests, Direct(pdu));
    NotifiedSnoc(sent, next, next, Direct(pdu));
  }

  lemma NotifyKeeps(initial: CacheState, local: CacheState, sent: seq<Sent>, requests: nat, notified: int, noted: int)
    requires local.available && local.session == initial.session
    requires Promises(initial, sent) && Numbered(sent, requests) && NotifiedBy(sent, notified) && notified <= noted
    requires Held(HeldOf(initial), sent).None? || Greater(local.serial, Held(HeldOf(initial), sent).value)
    ensures Good(initial, local, Ready, sent + [Notify(notified, local.session, local.serial)], requests,
                 noted + NOTIFY_INTERVAL)
  {
    var x := Notify(notified, local.session, local.serial);
    HeldSnoc(HeldOf(initial), sent, x);
    RisingSnoc(HeldOf(initial), sent, x);
    NotifySnoc(sent, x);
    SessionSnoc(initial.session, sent, x);
    NumberedSnoc(sent, requests, x);
    NotifiedSnoc(sent, notified, noted + NOTIFY_INTERVAL, x);
  }

  lemma TakenInStep(initial: CacheState, local: CacheState, sent: seq<Sent>, request: nat, pdu: Pdu)
    requires InStep(initial, local, sent)
    ensures InStep(initial, Taken(local, pdu), sent + [OfResponse(request, pdu)])
  {
    HeldSnoc(HeldOf(initial), sent, OfResponse(request, pdu));
  }

  lemma ResponseKeeps(initial: CacheState, local: CacheState, sent: seq<Sent>, requests: nat, next: int, pdu: Pdu)
    requires Good(initial, local, Responding, sent, requests, next)
    requires pdu.EndOfData? ==> pdu.session == local.session
    ensures Good(initial, Taken(local, pdu), Responding, sent + [OfResponse(requests, pdu)], requests, next)
  {
    var x := OfResponse(requests, pdu);
    TakenInStep(initial, local, sent, requests, pdu);
    RisingSnoc(HeldOf(initial), sent, x);
    ResponseSnoc(sent, requests, pdu);
    SessionSnoc(initial.session, sent, x);
    NumberedSnoc(sent, requests, x);
    NotifiedSnoc(sent, next, next, x);
  }

  // ----- what the connection sends -----

  /** The queries that are answered with Cache Reset until one becomes a request. */
  function Refused(session: nat, queries: seq<Query>): (n: nat)
    ensures n <= |queries|
  {
    if queries == [] || !WrongSession(session, queries[0]) then 0 else 1 + Refused(session, queries[1..])
  }

  function Resets(k: nat): seq<Sent> {
    seq(k, _ => Direct(CacheReset))
  }

  function Tagged(request: nat, pdus: seq<Pdu>): seq<Sent> {
    seq(|pdus|, i requires 0 <= i < |pdus| => OfResponse(request, pdus[i]))
  }

  /** How many PDUs go out before an End of Data of another session, if there is one. */
  function Sendable(session: nat, pdus: seq<Pdu>): (n: nat)
    ensures n <= |pdus|
  {
    if pdus == [] || (pdus[0].EndOfData? && pdus[0].session != session) then 0
    else 1 + Sendable(session, pdus[1..])
  }

  /** The queries still waiting when handle_response's loop ends. */
  function Left(session: nat, queries: seq<Query>): seq<Query> {
    var k := Refused(session, queries);
    if k < |queries| then queries[k + 1..] else []
  }

  /** The loop over waiting queries has refused k of them. */
  predicate Resumed(session: nat, waiting: seq<Query>, k: nat, mode: Mode, rest: seq<Query>) {
    && k <= |waiting|
    && if mode.Ready? then rest == waiting[k..] && Refused(session, waiting) == k + Refused(session, waiting[k..])
       else k < |waiting| && rest == waiting[k + 1..] && Refused(session, waiting) == k
  }

  lemma ResumeStep(session: nat, waiting: seq<Query>, k: nat)
    requires k < |waiting| && Resumed(session, waiting, k, Ready, waiting[k..])
    ensures waiting[k..][0] == waiting[k] && waiting[k..][1..] == waiting[k + 1..]
    ensures if WrongSession(session, waiting[k]) then Resumed(session, waiting, k + 1, Ready, waiting[k + 1..])
            else Resumed(session, waiting, k, Responding, waiting[k + 1..])
    ensures Resets(k + 1) == Resets(k) + [Direct(CacheReset)]
  {
  }

  /** The input ends the thread. */
  predicate Ends(session: nat, mode: Mode, input: Input) {
    || input.ReceivedReport? || input.ReceivedOther?
    || (input.Response? && mode.Responding?
        && (Sendable(session, input.pdus) < |input.pdus| || ErrorReport(true) in input.pdus))
  }

  /** What goes out for the input of a turn. */
  function Answer(session: nat, mode: Mode, toProcess: seq<Query>, requests: nat, input: Input): seq<Sent> {
    match input
    case Received(q) => if WrongSession(session, q) then [Direct(CacheReset)] else []
    case ReceivedOther => [Direct(ErrorReport(true))]
    case Response(pdus, isDone) =>
      if mode.Ready? then []
      else
        Tagged(requests, pdus[..Sendable(session, pdus)])
        + (if isDone && !Ends(session, mode, input) then Resets(Refused(session, toProcess)) else [])
    case _ => []
  }

  class Connection {
    var mode: Mode
    var local: CacheState
    var next: int               // next_cache_state_check_time
    var toProcess: seq<Query>
    var open: bool              // pthread_exit not called
    var sent: seq<Sent>
    var requests: nat           // requests made so far; history
    ghost const initial: CacheState

    ghost predicate Valid()
      reads this
    {
      Good(initial, local, mode, sent, requests, next)
    }

    /** initialize_run_state. */
    constructor (global: CacheState, now: int)
      ensures Valid() && open && sent == [] && mode == Ready && toProcess == []
      ensures local == global && initial == global && next == now + NOTIFY_INTERVAL
    {
      initial := global;
      local := global;
      next := now + NOTIFY_INTERVAL;
      mode, toProcess, open, sent, requests := Ready, [], true, [], 0;
    }

    method SendDirect(pdu: Pdu)
      requires Valid()
      modifies this`sent
      ensures Valid() && sent == old(sent) + [Direct(pdu)]
    {
      DirectKeeps(initial, local, mode, sent, requests, next, pdu);
      sent := sent + [Direct(pdu)];
      assert Good(initial, local, mode, sent, requests, next);
    }

    /** send_notify. */
    method SendNotify(notified: int, noted: int)
      requires local.available && local.session == initial.session && mode.Ready?
      requires Promises(initial, sent) && Fenced(mode, sent, requests)
      requires NotifiedBy(sent, notified) && notified <= noted
      requires Held(HeldOf(initial), sent).None? || Greater(local.serial, Held(HeldOf(initial), sent).value)
      modifies this`sent, this`next
      ensures Valid()
      ensures sent == old(sent) + [Notify(notified, local.session, local.serial)]
      ensures next == noted + NOTIFY_INTERVAL
    {
      NotifyKeeps(initial, local, sent, requests, notified, noted);
      sent := sent + [Notify(notified, local.session, local.serial)];
      next := noted + NOTIFY_INTERVAL;
    }

    /** check_global_cache_state: with update_local_cache_state, do_notify set. */
    method CheckGlobalCacheState(t: Turn)
      requires Valid() && open && mode.Ready?
      requires next <= t.checked && Ordered(t)
      modifies this`local, this`next, this`open, this`sent
      ensures Valid()
      ensures open == (t.global.session == local.session)
      ensures var newer := t.global.available && (!old(local.available) || Greater(t.global.serial, old(local.serial)));
              if open && newer then
                local == t.global && next == t.noted + NOTIFY_INTERVAL
                && sent == old(sent) + [Notify(t.notified, local.session, local.serial)]
              else
                local == old(local) && next == t.copied + CACHE_STATE_INTERVAL && sent == old(sent)
    {
      NotifiedLater(sent, next, t.notified);
      NotifiedLater(sent, next, t.copied + CACHE_STATE_INTERVAL);
      next := t.copied + CACHE_STATE_INTERVAL;
      if local.session != t.global.session {
        open := false;
        return;
      }
      if !t.global.available {
        return;
      }
      if !local.available || Greater(t.global.serial, local.serial) {
        local := local.(serial := t.global.serial, available := true);
        SendNotify(t.notified, t.noted);
      }
    }

    /** handle_response's step for one PDU. */
    method SendOfResponse(pdu: Pdu)
      requires Valid() && open && mode.Responding?
      modifies this`local, this`open, this`sent
      ensures Valid()
      ensures open == (pdu.EndOfData? ==> pdu.session == local.session)
      ensures local == if open then Taken(old(local), pdu) else old(local)
      ensures sent == if open then old(sent) + [OfResponse(requests, pdu)] else old(sent)
    {
      if pdu.EndOfData? && local.session != pdu.session {
        open := false;
        return;
      }
      ResponseKeeps(initial, local, sent, requests, next, pdu);
      if pdu.EndOfData? && (!local.available || Greater(pdu.serial, local.serial)) {
        local := local.(serial := pdu.serial, available := true);
      }
      sent := sent + [OfResponse(requests, pdu)];
    }

    /** handle_pdu on a query. */
    method HandleQuery(q: Query)
      requires Valid()
      modifies this`mode, this`toProcess, this`sent, this`requests
      ensures Valid()
      ensures if WrongSession(local.session, q) then
                sent == old(sent) + [Direct(CacheReset)] && mode == old(mode)
                && toProcess == old(toProcess) && requests == old(requests)
              else
                sent == old(sent) && mode == Responding
                && if old(mode).Responding? then toProcess == old(toProcess) + [q] && requests == old(requests)
                   else toProcess == old(toProcess) && requests == old(requests) + 1
    {
      if WrongSession(local.session, q) {
        SendDirect(CacheReset);
      } else if mode.Responding? {
        toProcess := toProcess + [q];
      } else {
        NewRequest(sent, requests, requests + 1);
        requests := requests + 1;
        mode := Responding;
      }
    }

    /** handle_response's loop over the PDUs. */
    method SendResponse(pdus: seq<Pdu>) returns (stop: bool)
      requires Valid() && open && mode.Responding?
      modifies this`local, this`open, this`sent
      ensures Valid() && local.session == old(local).session
      ensures var n := Sendable(local.session, pdus);
              && open == (n == |pdus|)
              && sent == old(sent) + Tagged(requests, pdus[..n])
      ensures open ==> stop == (ErrorReport(true) in pdus)
    {
      stop := false;
      for i := 0 to |pdus|
        invariant Valid() && open && local.session == old(local).session
        invariant sent == old(sent) + Tagged(requests, pdus[..i])
        invariant Sendable(local.session, pdus) == i + Sendable(local.session, pdus[i..])
        invariant stop == (ErrorReport(true) in pdus[..i])
      {
        if pdus[i].ErrorReport? && pdus[i].fatal {
          stop := true;
        }
        NextTagged(requests, pdus, i);
        SendOfResponse(pdus[i]);
        if !open {
          return;
        }
      }
      assert pdus[..|pdus|] == pdus;
    }

    /** handle_response's loop over the queries that had to wait. */
    method Resume()
      requires Valid() && mode.Ready?
      modifies this`mode, this`toProcess, this`sent, this`requests
      ensures Valid()
      ensures var waiting, k := old(toProcess), Refused(local.session, old(toProcess));
              && sent == old(sent) + Resets(k) && toProcess == Left(local.session, waiting)
              && if k < |waiting| then mode.Responding? && requests == old(requests) + 1
                 else mode.Ready? && requests == old(requests)
    {
      ghost var k := 0;
      while mode.Ready? && toProcess != []
        invariant Valid() && sent == old(sent) + Resets(k)
        invariant Resumed(local.session, old(toProcess), k, mode, toProcess)
        invariant requests == if mode.Ready? then old(requests) else old(requests) + 1
        decreases |toProcess|
      {
        var q := toProcess[0];
        ResumeStep(local.session, old(toProcess), k);
        toProcess := toProcess[1..];
        HandleQuery(q);
        if mode.Ready? {
          k := k + 1;
        }
      }
    }

    /** handle_response. */
    method HandleResponse(pdus: seq<Pdu>, isDone: bool)
      requires Valid() && open && mode.Responding?
      modifies this`mode, this`local, this`toProcess, this`open, this`sent, this`requests
      ensures Valid() && local.session == old(local).session
      ensures open == (Sendable(local.session, pdus) == |pdus| && ErrorReport(true) !in pdus)
      ensures var n := Sendable(local.session, pdus);
              sent == old(sent) + Tagged(old(requests), pdus[..n])
                      + (if open && isDone then Resets(Refused(local.session, old(toProcess))) else [])
      ensures open && !isDone ==> mode == Responding && toProcess == old(toProcess) && requests == old(requests)
      ensures open && isDone ==>
                var waiting := old(toProcess);
                && toProcess == Left(local.session, waiting)
                && if Refused(local.session, waiting) < |waiting|
                   then mode == Responding && requests == old(requests) + 1
                   else mode == Ready && requests == old(requests)
    {
      var stop := SendResponse(pdus);
      if !open {
        return;
      }
      assert pdus[..|pdus|] == pdus;
      if isDone {
        mode := Ready;
        if !stop {
          Resume();
        }
      }
      if stop {
        open := false;
      }
    }

    /** What the thread was woken for. */
    method HandleInput(input: Input)
      requires Valid() && open
      modifies this`mode, this`local, this`toProcess, this`open, this`sent, this`requests
      ensures Valid() && local.session == old(local).session
      ensures open == !Ends(local.session, old(mode), input)
      ensures sent == old(sent) + Answer(local.session, old(mode), old(toProcess), old(requests), input)
      ensures input.Nothing? || (input.Response? && old(mode).Ready?) ==>
                mode == old(mode) && local == old(local) && toProcess == old(toProcess) && requests == old(requests)
    {
      match input {
        case Nothing =>
        case Received(q) => HandleQuery(q);
        case ReceivedReport => open := false;
        case ReceivedOther =>
          SendDirect(ErrorReport(true));
          open := false;
        case Response(pdus, isDone) =>
          if mode.Responding? {
            HandleResponse(pdus, isDone);
          }
      }
    }

    /** connection_main_loop: the answer to the input, then a Notify if and only if the
        thread is alive, ready and due, and there is newer data of the same session than
        what the router can know of. */
    method MainLoop(t: Turn)
      requires Valid() && open && Ordered(t)
      modifies this
      ensures Valid() && local.session == old(local).session
      ensures var session := local.session;
              var out := old(sent) + Answer(session, old(mode), old(toProcess), old(requests), t.input);
              var held := Held(HeldOf(initial), out);
              sent == if !Ends(session, old(mode), t.input) && mode.Ready? && old(next) <= t.checked
                         && t.global.session == session && t.global.available
                         && (held.None? || Greater(t.global.serial, held.value))
                      then out + [Notify(t.notified, session, t.global.serial)]
                      else out
    {
      HandleInput(t.input);
      if open && mode.Ready? && next <= t.checked {
        CheckGlobalCacheState(t);
      }
    }
  }

  lemma NextTagged(request: nat, pdus: seq<Pdu>, i: nat)
    requires i < |pdus|
    ensures pdus[..i + 1] == pdus[..i] + [pdus[i]] && pdus[i..][1..] == pdus[i + 1..]
    ensures Tagged(request, pdus[..i + 1]) == Tagged(request, pdus[..i]) + [OfResponse(request, pdus[i])]
  {
  }

  /** connection_main: over every sequence of turns, what is sent keeps the promises. */
  method Serve(global: CacheState, now: int, turns: seq<Turn>) returns (sent: seq<Sent>)
    requires forall i :: 0 <= i < |turns| ==> Ordered(turns[i])
    ensures RateLimited(sent) && Uninterrupted(sent)
    ensures Rising(HeldOf(global), sent) && OneSession(global.session, sent)
  {
    var c := new Connection(global, now);
    var i := 0;
    while i < |turns| && c.open
      invariant 0 <= i <= |turns| && c.Valid() && fresh(c) && c.initial == global
    {
      c.MainLoop(turns[i]);
      i := i + 1;
    }
    sent := c.sent;
  }

  // ----- while the serial numbers stay within half the circle -----

  function Ahead(base: Serial, s: Serial): nat {
    (s - base) % SERIALS
  }

  predicate InWindow(base: Serial, h: Option<Serial>, sent: seq<Sent>) {
    && (h.Some? ==> Ahead(base, h.value) < HALF)
    && forall i :: 0 <= i < |sent| ==>
         && (sent[i].Notify? ==> Ahead(base, sent[i].serial) < HALF)
         && (sent[i].OfResponse? && sent[i].pdu.EndOfData? ==> Ahead(base, sent[i].pdu.serial) < HALF)
  }

  lemma GreaterInWindow(base: Serial, a: Serial, b: Serial)
    requires Ahead(base, a) < HALF && Ahead(base, b) < HALF
    ensures Greater(a, b) <==> Ahead(base, a) > Ahead(base, b)
  {
    assert Ahead(base, a) == if a >= base then a - base else a - base + SERIALS;
    assert Ahead(base, b) == if b >= base then b - base else b - base + SERIALS;
  }

  lemma {:induction false} HeldGrows(base: Serial, h: Option<Serial>, sent: seq<Sent>, i: nat, k: nat)
    requires InWindow(base, h, sent) && Rising(h, sent) && i < k <= |sent| && sent[i].Notify?
    ensures Held(h, sent[..k]).Some?
    ensures Ahead(base, sent[i].serial) <= Ahead(base, Held(h, sent[..k]).value) < HALF
  {
    assert sent[..k][..k - 1] == sent[..k - 1];
    assert RisesAt(h, sent, k - 1);
    if i == k - 1 {
    } else {
      HeldGrows(base, h, sent, i, k - 1);
      var before := Held(h, sent[..k - 1]).value;
      if sent[k - 1].Notify? {
        GreaterInWindow(base, sent[k - 1].serial, before);
      } else if sent[k - 1].OfResponse? && sent[k - 1].pdu.EndOfData? {
        GreaterInWindow(base, sent[k - 1].pdu.serial, before);
      }
    }
  }

  /** Then the Notifies of a connection carry greater and greater serial numbers. */
  lemma NotifiesIncrease(base: Serial, h: Option<Serial>, sent: seq<Sent>, i: nat, j: nat)
    requires InWindow(base, h, sent) && Rising(h, sent)
    requires i < j < |sent| && sent[i].Notify? && sent[j].Notify?
    ensures Greater(sent[j].serial, sent[i].serial)
  {
    HeldGrows(base, h, sent, i, j);
    assert RisesAt(h, sent, j);
    GreaterInWindow(base, sent[j].serial, Held(h, sent[..j]).value);
    GreaterInWindow(base, sent[j].serial, sent[i].serial);
  }
}
