/** What every run of the rpki-rtr daemon guarantees. */
module RtrServerTheorems {
  import opened Counting
  import opened RtrServer
  import opened RtrServerInvariant

  /** Nobody will wake a worker: all are in sem_wait, the semaphore is zero, and no
      thread stands between a change and its sem_post. */
  predicate NobodyWillWake(s: State) {
    && s.tokens == 0
    && (forall w :: 0 <= w < |s.workers| ==> s.workers[w].Asleep?)
    && (forall c :: 0 <= c < |s.cxns| ==> !CxnOwes(s.cxns[c]))
  }

  lemma SupplyGone(s: State)
    requires NobodyWillWake(s)
    ensures Supply(s) == 0 && Count(s.workers, ScannedOnly) == 0
    ensures forall c :: Count(s.workers, Holder(c)) == 0
  {
    CountZero(s.workers, Unscanned);
    CountZero(s.workers, WorkerOwes);
    CountZero(s.workers, ScannedOnly);
    CountZero(s.cxns, CxnOwes);
    forall c ensures Count(s.workers, Holder(c)) == 0 {
      CountZero(s.workers, Holder(c));
    }
  }

  /** No lost wake-up: if nobody will wake a worker, no request waits in the queue
      and no request in the bag could be serviced. */
  lemma NoLostWakeUp(states: seq<State>, actions: seq<Action>, i: nat)
    requires Run(states, actions) && i < |states| && NobodyWillWake(states[i])
    ensures states[i].queue == []
    ensures forall c :: c in states[i].bag ==>
              && c < |states[i].cxns| && !states[i].cxns[c].cancel
              && |states[i].cxns[c].responses| == RESPONSE_BUFFER_LENGTH
  {
    var s := states[i];
    RunInv(states, actions, i);
    SupplyGone(s);
    forall k | 0 <= k < |s.bag|
      ensures !Serviceable(s.cxns, s.bag[k]) && s.bag[k] < |s.cxns|
    {
      InBagLive(s, s.bag[k]);
      if Serviceable(s.cxns, s.bag[k]) {
        CountPositive(s.bag, k, IsServiceable(s.cxns));
      }
    }
    forall c | c in s.bag
      ensures c < |s.cxns| && !s.cxns[c].cancel && |s.cxns[c].responses| == RESPONSE_BUFFER_LENGTH
    {
      InBagOnce(s, c);
      assert BoundOk(s.cxns[c]);
    }
  }

  /** And no request is forgotten: if nobody will wake a worker, every request still
      to be answered has a full buffer of responses for its connection to read. */
  lemma NoForgottenRequest(states: seq<State>, actions: seq<Action>, i: nat, c: nat)
    requires Run(states, actions) && i < |states| && NobodyWillWake(states[i])
    requires c < |states[i].cxns| && Outstanding(states[i].cxns[c])
    ensures |states[i].cxns[c].responses| == RESPONSE_BUFFER_LENGTH
  {
    var s := states[i];
    RunInv(states, actions, i);
    SupplyGone(s);
    NoLostWakeUp(states, actions, i);
    assert References(s, c) == Live(s, c) == 1;
    assert multiset(s.bag)[c] == 1;
  }

  /** A responding connection's request is in exactly one place: either one of the
      queue, the bag and the workers has the one reference to it and its final
      response does not exist yet, or nobody serves it any more and exactly one final
      response is unread, behind all others. */
  lemma ExactlyOnePlace(states: seq<State>, actions: seq<Action>, i: nat, c: nat)
    requires Run(states, actions) && i < |states| && c < |states[i].cxns|
    requires states[i].cxns[c].mode.Responding? && !states[i].cxns[c].pc.Closed?
    ensures var s, x := states[i], states[i].cxns[c];
            || (References(s, c) == 1 && Outstanding(x) && NoFinal(Unread(x)))
            || (References(s, c) == 0 && !Outstanding(x) && OneFinalAtEnd(Unread(x)))
  {
    RunInv(states, actions, i);
    assert References(states[i], c) == Live(states[i], c);
    assert CxnOk(states[i].cxns[c]);
  }

  predicate IsFinalOf(r: Response, k: nat) { r.isDone && r.request == k }

  function FinalOf(k: nat): Response -> bool { (r: Response) => IsFinalOf(r, k) }

  lemma FinalsGrow(h: seq<Response>, front: seq<Response>, r: Response, k: nat)
    requires h == front + [r]
    ensures multiset(Finals(h))[k] == multiset(Finals(front))[k] + One(IsFinalOf(r, k))
  {
    assert h[..|front|] == front;
  }

  lemma CountGrows(h: seq<Response>, front: seq<Response>, r: Response, k: nat)
    requires h == front + [r]
    ensures Count(h, FinalOf(k)) == Count(front, FinalOf(k)) + One(IsFinalOf(r, k))
  {
    CountConcat(front, [r], FinalOf(k));
  }

  lemma {:induction false} FinalsCounted(h: seq<Response>, k: nat)
    ensures Count(h, FinalOf(k)) == multiset(Finals(h))[k]
  {
    if h == [] {
      assert Finals(h) == [];
    } else {
      var front, r := h[..|h| - 1], h[|h| - 1];
      FinalsCounted(front, k);
      FinalsGrow(h, front, r, k);
      CountGrows(h, front, r, k);
    }
  }

  lemma {:induction false} OneToCounted(n: nat, k: nat)
    ensures multiset(OneTo(n))[k] == One(1 <= k <= n)
  {
    if n > 0 {
      assert OneTo(n) == OneTo(n - 1) + [n];
      OneToCounted(n - 1, k);
    } else {
      assert OneTo(0) == [];
    }
  }

  /** The k-th request of a connection has exactly one final response once it is
      answered and none before, and no response of the request follows it. */
  lemma OneFinalResponseEach(states: seq<State>, actions: seq<Action>, i: nat, c: nat, k: nat)
    requires Run(states, actions) && i < |states| && c < |states[i].cxns|
    requires 1 <= k <= |states[i].cxns[c].submitted|
    ensures var x := states[i].cxns[c];
            && Count(Pushed(x), FinalOf(k)) == One(k < |x.submitted| || !Outstanding(x))
            && (forall a, b :: 0 <= a < b < |Pushed(x)| && IsFinalOf(Pushed(x)[a], k) ==>
                  Pushed(x)[b].request > k)
  {
    RunInv(states, actions, i);
    var x := states[i].cxns[c];
    assert HistoryOk(x);
    FinalsCounted(Pushed(x), k);
    OneToCounted(x.answered, k);
  }

  /** Back-pressure: three unread responses at most, one more once the connection
      has given up on the request. */
  lemma BackPressure(states: seq<State>, actions: seq<Action>, i: nat, c: nat)
    requires Run(states, actions) && i < |states| && c < |states[i].cxns|
    ensures var x := states[i].cxns[c];
            && (!x.cancel ==> |x.responses| <= RESPONSE_BUFFER_LENGTH)
            && |x.responses| <= RESPONSE_BUFFER_LENGTH + 1
  {
    RunInv(states, actions, i);
    assert BoundOk(states[i].cxns[c]);
  }

  /** Quiescence and order: a ready connection at the head of its loop has nothing
      queued in either direction; while it is served, the accepted queries are, in
      arrival order, those submitted followed by those waiting, and at most the last
      one submitted is unanswered. */
  lemma QueriesInOrder(states: seq<State>, actions: seq<Action>, i: nat, c: nat)
    requires Run(states, actions) && i < |states| && c < |states[i].cxns|
    ensures var x := states[i].cxns[c];
            && (InLoop(x) && x.mode.Ready? ==> x.toProcess == [] && x.responses == [])
            && (!InCleanup(x) ==> x.accepted == x.submitted + x.toProcess)
            && x.answered <= |x.submitted| <= x.answered + 1
  {
    RunInv(states, actions, i);
    assert CxnOk(states[i].cxns[c]);
    assert states[i].cxns[c].mode.Ready? ==> |Unread(states[i].cxns[c])| == 0;
  }

  /** add_db_request never meets a non-empty response queue, whether the query comes
      from the socket or from the to-process queue. */
  lemma NoErrorBranch(states: seq<State>, actions: seq<Action>, i: nat)
    requires Run(states, actions) && i < |actions| && actions[i].ByCxn?
    requires actions[i].step.Receive? || actions[i].step.Resume?
    ensures actions[i].c < |states[i + 1].cxns| && !states[i + 1].cxns[actions[i].c].pc.Cleanup?
  {
    RunInv(states, actions, i);
    assert StepAt(states, actions, i);
    var x := states[i].cxns[actions[i].c];
    assert CxnOk(x);
    assert x.mode.Ready? ==> |Unread(x)| == 0;
  }
}
