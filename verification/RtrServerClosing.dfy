/** When the memory of a connection can go.  A worker dereferences the request once more
    after it has pushed the final response: for the sem_post that announces it.  The
    connection can be gone by then, because its semaphore also counts what the control
    thread saw on the socket. */
module RtrServerClosing {
  import opened Counting
  import opened RtrProtocol
  import opened RtrServer
  import opened RtrServerInvariant

  // ----- the connection's semaphore -----

  predicate IsPoster(w: Worker, c: nat) { w.Posting? && w.c == c }

  function PosterTo(c: nat): Worker -> bool { (w: Worker) => IsPoster(w, c) }

  predicate HasToken(x: Cxn) { x.pc == Woken(true) || x.pc.DrainWoken? }

  /** Every post is either a response's or the socket's, and every token is still
      there, in the thread's hands, gone with a response or gone without one. */
  predicate Balanced(s: State, c: nat) {
    c < |s.cxns| ==>
      var x := s.cxns[c];
      x.signals + One(HasToken(x)) + x.spent + Count(s.workers, PosterTo(c)) == x.readable + |x.responses|
  }

  predicate SameBalance(x: Cxn, y: Cxn) {
    y.signals + One(HasToken(y)) + y.spent + x.readable + |x.responses|
    == x.signals + One(HasToken(x)) + x.spent + y.readable + |y.responses|
  }

  lemma QueryBalance(x: Cxn, y: Cxn, a: CxnStep)
    requires CxnEnabled(x, a) && y == CxnNext(x, a) && (a.Receive? || a.Resume?)
    ensures SameBalance(x, y)
  {
    assert y.signals == x.signals && y.readable == x.readable && y.responses == x.responses;
  }

  lemma PopBalance(x: Cxn, y: Cxn, a: CxnStep)
    requires CxnEnabled(x, a) && y == CxnNext(x, a) && PcOk(x) && (a.Pop? || a.Drain?)
    ensures SameBalance(x, y)
  {
  }

  lemma CxnStepBalance(x: Cxn, y: Cxn, a: CxnStep)
    requires CxnEnabled(x, a) && y == CxnNext(x, a) && PcOk(x)
    ensures SameBalance(x, y)
  {
    if a.Receive? || a.Resume? {
      QueryBalance(x, y, a);
    } else if a.Pop? || a.Drain? {
      PopBalance(x, y, a);
    } else {
      assert y.responses == x.responses;
    }
  }

  lemma WorkerChangeBalance(s: State, cxns': seq<Cxn>, w: nat, v: Worker, c: nat)
    requires Balanced(s, c) && w < |s.workers| && |cxns'| == |s.cxns|
    requires c < |s.cxns| ==>
               cxns'[c].signals + One(HasToken(cxns'[c])) + cxns'[c].spent + One(IsPoster(v, c))
               + s.cxns[c].readable + |s.cxns[c].responses|
               == s.cxns[c].signals + One(HasToken(s.cxns[c])) + s.cxns[c].spent + One(IsPoster(s.workers[w], c))
               + cxns'[c].readable + |cxns'[c].responses|
    ensures Balanced(s.(cxns := cxns', workers := s.workers[w := v]), c)
  {
    CountUpdate(s.workers, w, v, PosterTo(c));
  }

  lemma WorkerStepBalance(s: State, w: nat, a: WorkerStep, c: nat)
    requires Balanced(s, c) && w < |s.workers| && WorkerEnabled(s, w, a)
    ensures Balanced(WorkerNext(s, w, a), c)
  {
    var s' := WorkerNext(s, w, a);
    WorkerChangeBalance(s, s'.cxns, w, s'.workers[w], c);
    assert s'.workers == s.workers[w := s'.workers[w]];
  }

  lemma ConnectBalance(s: State, session: nat, c: nat)
    requires Balanced(s, c) && HoldersOk(s.cxns, s.workers)
    ensures Balanced(s.(cxns := s.cxns + [NewCxn(session)]), c)
  {
    if c == |s.cxns| {
      forall w | 0 <= w < |s.workers| ensures !IsPoster(s.workers[w], c) {
        assert HoldOk(s.cxns, s.workers[w]);
      }
      CountZero(s.workers, PosterTo(c));
    }
  }

  lemma StepBalance(s: State, a: Action, c: nat)
    requires Inv(s) && Enabled(s, a) && Balanced(s, c)
    ensures Balanced(Apply(s, a), c)
  {
    match a
    case Connect(session) => ConnectBalance(s, session, c);
    case Spawn => CountConcat(s.workers, [Asleep], PosterTo(c));
    case ByCxn(d, step) => CxnStepBalance(s.cxns[d], CxnNext(s.cxns[d], step), step);
    case ByWorker(w, does) => WorkerStepBalance(s, w, does, c);
  }

  /** The account of every connection's semaphore balances in every state of every run. */
  lemma {:induction false} RunBalanced(states: seq<State>, actions: seq<Action>, i: nat, c: nat)
    requires Run(states, actions) && i < |states|
    ensures Balanced(states[i], c)
  {
    if i == 0 {
    } else {
      RunBalanced(states, actions, i - 1, c);
      RunInv(states, actions, i - 1);
      assert StepAt(states, actions, i - 1);
      StepBalance(states[i - 1], actions[i - 1], c);
    }
  }

  // ----- the same account by the steps of the run -----

  function SignalTo(c: nat): Action -> bool { (a: Action) => a == ByCxn(c, Signal) }

  function WaitBy(c: nat): Action -> bool { (a: Action) => a == ByCxn(c, Wait) || a == ByCxn(c, WaitDraining) }

  function PopBy(c: nat): Action -> bool { (a: Action) => a == ByCxn(c, Pop) || a == ByCxn(c, Drain) }

  /** The posts that the control thread has made for a connection. */
  function Signals(actions: seq<Action>, c: nat): nat { Count(actions, SignalTo(c)) }

  /** The tokens that a connection has taken. */
  function Waits(actions: seq<Action>, c: nat): nat { Count(actions, WaitBy(c)) }

  /** The responses that a connection has taken. */
  function Pops(actions: seq<Action>, c: nat): nat { Count(actions, PopBy(c)) }

  predicate Counted(s: State, c: nat, signals: nat, waits: nat, pops: nat) {
    if c < |s.cxns| then
      s.cxns[c].readable == signals && s.cxns[c].spent + One(HasToken(s.cxns[c])) + pops == waits
    else signals == 0 && waits == 0 && pops == 0
  }

  lemma CxnStepCounted(x: Cxn, y: Cxn, a: CxnStep)
    requires CxnEnabled(x, a) && y == CxnNext(x, a) && PcOk(x)
    ensures y.readable == x.readable + One(a.Signal?)
    ensures y.spent + One(HasToken(y)) + One(a.Pop? || a.Drain?)
            == x.spent + One(HasToken(x)) + One(a.Wait? || a.WaitDraining?)
  {
    if a.Receive? || a.Resume? {
      assert y.readable == x.readable && !HasToken(y);
    }
  }

  lemma WorkerStepCounted(s: State, w: nat, a: WorkerStep, c: nat)
    requires w < |s.workers| && WorkerEnabled(s, w, a)
    ensures |WorkerNext(s, w, a).cxns| == |s.cxns|
    ensures c < |s.cxns| ==>
              var x, y := s.cxns[c], WorkerNext(s, w, a).cxns[c];
              y.readable == x.readable && y.spent == x.spent && HasToken(y) == HasToken(x)
  {
  }

  lemma StepCounted(s: State, a: Action, c: nat, signals: nat, waits: nat, pops: nat)
    requires Enabled(s, a) && CxnsOk(s.cxns) && Counted(s, c, signals, waits, pops)
    ensures Counted(Apply(s, a), c, signals + One(SignalTo(c)(a)), waits + One(WaitBy(c)(a)), pops + One(PopBy(c)(a)))
  {
    match a
    case ByCxn(d, step) =>
      CxnStepCounted(s.cxns[d], CxnNext(s.cxns[d], step), step);
    case ByWorker(w, does) => WorkerStepCounted(s, w, does, c);
    case _ =>
  }

  lemma {:induction false} RunCounted(states: seq<State>, actions: seq<Action>, i: nat, c: nat)
    requires Run(states, actions) && i < |states|
    ensures Counted(states[i], c, Signals(actions[..i], c), Waits(actions[..i], c), Pops(actions[..i], c))
  {
    if i == 0 {
    } else {
      var before, a := actions[..i - 1], actions[i - 1];
      RunCounted(states, actions, i - 1, c);
      RunInv(states, actions, i - 1);
      assert StepAt(states, actions, i - 1);
      StepCounted(states[i - 1], a, c, Signals(before, c), Waits(before, c), Pops(before, c));
      assert actions[..i] == before + [a];
      CountConcat(before, [a], SignalTo(c));
      CountConcat(before, [a], WaitBy(c));
      CountConcat(before, [a], PopBy(c));
    }
  }

  // ----- closed connections -----

  /** No thread will use the request or the semaphore of connection `c` again. */
  predicate Unreferenced(s: State, c: nat) {
    && c !in s.queue && c !in s.bag
    && forall w :: 0 <= w < |s.workers| ==> !Holds(s.workers[w], c) && !IsPoster(s.workers[w], c)
  }

  lemma ClosedIsNotOwned(s: State, c: nat)
    requires SingleOwner(s) && c < |s.cxns| && UnreadOk(s.cxns[c]) && s.cxns[c].pc.Closed?
    ensures c !in s.queue && c !in s.bag
    ensures forall w :: 0 <= w < |s.workers| ==> !Holds(s.workers[w], c)
  {
    assert References(s, c) == Live(s, c) == 0;
    forall w | 0 <= w < |s.workers| ensures !Holds(s.workers[w], c) {
      if Holds(s.workers[w], c) {
        CountPositive(s.workers, w, Holder(c));
      }
    }
  }

  lemma NoPosters(workers: seq<Worker>, c: nat)
    ensures Count(workers, PosterTo(c)) == 0 <==> forall w :: 0 <= w < |workers| ==> !IsPoster(workers[w], c)
  {
    if w :| 0 <= w < |workers| && IsPoster(workers[w], c) {
      CountPositive(workers, w, PosterTo(c));
    } else {
      CountZero(workers, PosterTo(c));
    }
  }

  /** Once cleanup has drained to the final response, neither the queue nor the bag nor
      the service of a worker refers to the request; and nothing does if and only if
      the posts for the socket and the responses taken are no more than the tokens taken
      and the tokens left. */
  lemma ClosedExactly(states: seq<State>, actions: seq<Action>, i: nat, c: nat)
    requires Run(states, actions) && i < |states|
    requires c < |states[i].cxns| && states[i].cxns[c].pc.Closed?
    ensures c !in states[i].queue && c !in states[i].bag
    ensures forall w :: 0 <= w < |states[i].workers| ==> !Holds(states[i].workers[w], c)
    ensures Unreferenced(states[i], c) <==>
            Signals(actions[..i], c) + Pops(actions[..i], c) <= Waits(actions[..i], c) + states[i].cxns[c].signals
  {
    var s := states[i];
    RunInv(states, actions, i);
    RunBalanced(states, actions, i, c);
    RunCounted(states, actions, i, c);
    assert CxnOk(s.cxns[c]);
    ClosedIsNotOwned(s, c);
    assert |Unread(s.cxns[c])| == 0;
    NoPosters(s.workers, c);
  }

  lemma StepKeepsClosed(s: State, a: Action, c: nat)
    requires Enabled(s, a) && c < |s.cxns| && s.cxns[c].pc.Closed?
    ensures c < |Apply(s, a).cxns| && Apply(s, a).cxns[c].pc.Closed?
  {
  }

  lemma NewPosterHeld(s: State, a: Action, v: nat, c: nat)
    requires Enabled(s, a) && v < |s.workers| && v < |Apply(s, a).workers|
    requires IsPoster(Apply(s, a).workers[v], c)
    ensures Holds(s.workers[v], c) || IsPoster(s.workers[v], c)
  {
    if a.ByWorker? && a.w == v {
      assert a.does.SendCancelled? || a.does.SendRows?;
    }
  }

  lemma StepKeepsUnreferenced(s: State, a: Action, c: nat)
    requires Enabled(s, a) && Inv(Apply(s, a)) && c < |s.cxns| && s.cxns[c].pc.Closed? && Unreferenced(s, c)
    ensures c < |Apply(s, a).cxns| && Apply(s, a).cxns[c].pc.Closed? && Unreferenced(Apply(s, a), c)
  {
    var s' := Apply(s, a);
    StepKeepsClosed(s, a, c);
    assert CxnOk(s'.cxns[c]);
    ClosedIsNotOwned(s', c);
    forall v | 0 <= v < |s'.workers| ensures !IsPoster(s'.workers[v], c) {
      if IsPoster(s'.workers[v], c) {
        assert v < |s.workers|;
        NewPosterHeld(s, a, v, c);
      }
    }
  }

  /** Then nothing refers to it ever after. */
  lemma {:induction false} UnreferencedForGood(states: seq<State>, actions: seq<Action>, i: nat, j: nat, c: nat)
    requires Run(states, actions) && i <= j < |states|
    requires c < |states[i].cxns| && states[i].cxns[c].pc.Closed? && Unreferenced(states[i], c)
    ensures c < |states[j].cxns| && states[j].cxns[c].pc.Closed? && Unreferenced(states[j], c)
    decreases j
  {
    if i == j {
    } else {
      UnreferencedForGood(states, actions, i, j - 1, c);
      RunInv(states, actions, j);
      assert StepAt(states, actions, j - 1);
      StepKeepsUnreferenced(states[j - 1], actions[j - 1], c);
    }
  }

  lemma QuietCxnStep(x: Cxn, a: CxnStep)
    requires CxnEnabled(x, a) && !a.Signal?
    ensures CxnNext(x, a).readable == x.readable && CxnNext(x, a).spent >= x.spent
  {
  }

  /** Since `x` no signal came, and no turn was taken back. */
  predicate QuietSince(x: Cxn, s: State, c: nat) {
    c < |s.cxns| && s.cxns[c].readable == x.readable && s.cxns[c].spent >= x.spent
  }

  lemma QuietStep(x: Cxn, s: State, a: Action, c: nat)
    requires QuietSince(x, s, c) && Enabled(s, a) && a != ByCxn(c, Signal)
    ensures QuietSince(x, Apply(s, a), c)
  {
    if a.ByCxn? && a.c == c {
      QuietCxnStep(s.cxns[c], a.step);
    }
  }

  lemma {:induction false} Quiet(x: Cxn, states: seq<State>, actions: seq<Action>, i: nat, j: nat, c: nat)
    requires Run(states, actions) && i <= j < |states| && QuietSince(x, states[i], c)
    requires forall k :: i <= k < j ==> actions[k] != ByCxn(c, Signal)
    ensures QuietSince(x, states[j], c)
    decreases j
  {
    if i == j {
    } else {
      Quiet(x, states, actions, i, j - 1, c);
      assert StepAt(states, actions, j - 1);
      QuietStep(x, states[j - 1], actions[j - 1], c);
    }
  }

  /** What a maintainer can arrange: if, when the drain begins, the posts for the socket and
      the responses taken are no more than the tokens taken, and the control thread
      posts no more, then nothing refers to the connection once it is closed. */
  lemma QuietDrainIsSafe(states: seq<State>, actions: seq<Action>, i: nat, j: nat, c: nat)
    requires Run(states, actions) && i <= j < |states| && c < |states[i].cxns| && states[i].cxns[c].pc.Draining?
    requires Signals(actions[..i], c) + Pops(actions[..i], c) <= Waits(actions[..i], c)
    requires forall k :: i <= k < j ==> actions[k] != ByCxn(c, Signal)
    requires c < |states[j].cxns| && states[j].cxns[c].pc.Closed?
    ensures Unreferenced(states[j], c)
  {
    RunCounted(states, actions, i, c);
    RunCounted(states, actions, j, c);
    Quiet(states[i].cxns[c], states, actions, i, j, c);
    ClosedExactly(states, actions, j, c);
  }

  // ----- a run in which the connection is closed too early -----

  lemma Extend(states: seq<State>, actions: seq<Action>, a: Action, t: State)
    returns (states': seq<State>, actions': seq<Action>)
    requires Run(states, actions) && Enabled(states[|states| - 1], a) && t == Apply(states[|states| - 1], a)
    ensures Run(states', actions') && |states'| > 0 && states'[|states'| - 1] == t
  {
    states' := states + [t];
    actions' := actions + [a];
    forall i: nat | i < |actions'| ensures StepAt(states', actions', i) {
      assert i < |actions| ==> StepAt(states, actions, i);
    }
  }

  /** One connection and one worker. */
  function Pair(x: Cxn, w: Worker, tokens: nat, queue: seq<nat>, lock: Lock): State {
    State([x], [w], tokens, queue, [], lock)
  }

  lemma ExtendCxn(states: seq<State>, actions: seq<Action>, x: Cxn, w: Worker, tokens: nat, step: CxnStep, y: Cxn)
    returns (states': seq<State>, actions': seq<Action>)
    requires Run(states, actions) && states[|states| - 1] == Pair(x, w, tokens, [], Free)
    requires CxnEnabled(x, step) && y == CxnNext(x, step)
    ensures Run(states', actions') && |states'| > 0
    ensures states'[|states'| - 1] == Pair(y, w, if Posts(x, step) then tokens + 1 else tokens,
                                           if Submits(x, y) then [0] else [], Free)
  {
    var s := states[|states| - 1];
    assert s.queue + [0] == [0];
    states', actions' := Extend(states, actions, ByCxn(0, step), WithCxn(s, 0, y, Submits(x, y), Posts(x, step)));
  }

  /** The connection has asked for all data. */
  function Asked(pc: CxnPc): Cxn {
    NewCxn(0).(pc := pc, mode := Responding, accepted := [ResetQuery], submitted := [ResetQuery],
               readable := 1, spent := 1)
  }

  lemma Asks(x: Cxn)
    requires x == NewCxn(0).(pc := Woken(true), readable := 1)
    ensures CxnNext(x, Receive(ResetQuery)) == Asked(OwesRequestPost)
  {
    assert x.accepted + [ResetQuery] == [ResetQuery] && x.submitted + [ResetQuery] == [ResetQuery];
  }

  lemma IsWoken() returns (states: seq<State>, actions: seq<Action>, x: Cxn)
    ensures Run(states, actions) && |states| > 0
    ensures x == NewCxn(0).(pc := Woken(true), readable := 1)
    ensures states[|states| - 1] == Pair(x, Asleep, 0, [], Free)
  {
    x := NewCxn(0);
    var y := x.(signals := 1, readable := 1);
    states, actions := [State([], [Asleep], 0, [], [], Free)], [];
    states, actions := Extend(states, actions, Connect(0), Pair(x, Asleep, 0, [], Free));
    states, actions := ExtendCxn(states, actions, x, Asleep, 0, Signal, y);
    x := y.(signals := 0, pc := Woken(true));
    states, actions := ExtendCxn(states, actions, y, Asleep, 0, Wait, x);
  }

  lemma IsQueued() returns (states: seq<State>, actions: seq<Action>)
    ensures Run(states, actions) && |states| > 0
    ensures states[|states| - 1] == Pair(Asked(OwesRequestPost), Asleep, 0, [0], Free)
  {
    var x;
    states, actions, x := IsWoken();
    Asks(x);
    states, actions := ExtendCxn(states, actions, x, Asleep, 0, Receive(ResetQuery), Asked(OwesRequestPost));
  }

  lemma IsFetched() returns (states: seq<State>, actions: seq<Action>)
    ensures Run(states, actions) && |states| > 0
    ensures states[|states| - 1] == Pair(Asked(Loop), Fetching(0), 0, [], Free)
  {
    var x := Asked(Loop);
    states, actions := IsQueued();
    states, actions := Extend(states, actions, ByCxn(0, PostRequest), Pair(x, Asleep, 1, [0], Free));
    states, actions := Extend(states, actions, ByWorker(0, Wake), Pair(x, Awake, 0, [0], Free));
    states, actions := Extend(states, actions, ByWorker(0, BeginScan), Pair(x, Scanning(0), 0, [0], Held(0)));
    states, actions := Extend(states, actions, ByWorker(0, EndScan), Pair(x, FoundNone, 0, [0], Free));
    states, actions := Extend(states, actions, ByWorker(0, TakeNew), Pair(x, Holding(0), 0, [], Free));
    states, actions := Extend(states, actions, ByWorker(0, Decide), Pair(x, Fetching(0), 0, [], Free));
  }

  /** The connection's record while it gives up. */
  function Ending(pc: CxnPc): Cxn {
    Asked(pc).(readable := 2, cancel := true)
  }

  /** The socket becomes readable again and the thread is cancelled. */
  lemma GivesUp() returns (states: seq<State>, actions: seq<Action>)
    ensures Run(states, actions) && |states| > 0
    ensures states[|states| - 1] == Pair(Ending(Draining).(signals := 1), Fetching(0), 1, [], Free)
  {
    states, actions := IsFetched();
    var x, y := Asked(Loop), Asked(Loop).(signals := 1, readable := 2);
    states, actions := ExtendCxn(states, actions, x, Fetching(0), 0, Signal, y);
    states, actions := ExtendCxn(states, actions, y, Fetching(0), 0, Exit, y.(pc := Cleanup));
    var z := Ending(OwesCancelPost).(signals := 1);
    states, actions := ExtendCxn(states, actions, y.(pc := Cleanup), Fetching(0), 0, Cancel, z);
    states, actions := ExtendCxn(states, actions, z, Fetching(0), 0, PostCancel, z.(pc := Draining));
  }

  lemma IsPushed() returns (states: seq<State>, actions: seq<Action>, x: Cxn)
    ensures Run(states, actions) && |states| > 0
    ensures x == Ending(Draining).(signals := 1, responses := [Response(1, true)], answered := 1)
    ensures states[|states| - 1] == Pair(x, Posting(0, true), 1, [], Free)
  {
    states, actions := GivesUp();
    x := Ending(Draining).(signals := 1);
    assert x.responses + [Response(1, true)] == [Response(1, true)];
    x := x.(responses := [Response(1, true)], answered := 1);
    states, actions := Extend(states, actions, ByWorker(0, SendRows(true)), Pair(x, Posting(0, true), 1, [], Free));
  }

  /** The thread takes the final response with the socket's token and is gone before the
      worker posts to its semaphore. */
  lemma ClosedTooEarly() returns (states: seq<State>, actions: seq<Action>)
    ensures Run(states, actions) && |states| > 0
    ensures var s := states[|states| - 1];
            && |s.cxns| == 1 && s.cxns[0].pc.Closed? && s.workers == [Posting(0, true)]
            && !Unreferenced(s, 0)
  {
    var x;
    states, actions, x := IsPushed();
    var y := x.(pc := DrainWoken, signals := 0);
    states, actions := ExtendCxn(states, actions, x, Posting(0, true), 1, WaitDraining, y);
    var z := y.(pc := Closed, responses := [], consumed := [Response(1, true)]);
    states, actions := ExtendCxn(states, actions, y, Posting(0, true), 1, Drain, z);
    assert IsPoster(states[|states| - 1].workers[0], 0);
  }
}
