/** The inductive invariant of the server's state machine, and what it rules out. */
module RtrServerInvariant {
  import opened Counting
  import opened RtrProtocol
  import opened RtrServer

  // ----- one connection -----

  /** All responses ever pushed for a connection, oldest first. */
  function Pushed(x: Cxn): seq<Response> { x.consumed + x.responses }

  /** The request numbers of the final responses in `h`, in order. */
  function Finals(h: seq<Response>): seq<nat> {
    if h == [] then []
    else
      var r := h[|h| - 1];
      Finals(h[..|h| - 1]) + (if r.isDone then [r.request] else [])
  }

  function OneTo(n: nat): seq<nat> { seq(n, i => i + 1) }

  /** A request was submitted and its final response is not pushed yet. */
  predicate Outstanding(x: Cxn) { x.answered < |x.submitted| }

  /** No response follows the final response of its own request. */
  predicate FinalIsLast(h: seq<Response>) {
    forall i, j :: 0 <= i < j < |h| ==>
      h[i].request <= h[j].request && (h[i].isDone ==> h[i].request < h[j].request)
  }

  predicate HistoryOk(x: Cxn) {
    var h := Pushed(x);
    && x.answered <= |x.submitted| <= x.answered + 1
    && Finals(h) == OneTo(x.answered)
    && FinalIsLast(h)
    && forall i :: 0 <= i < |h| ==>
         h[i].request <= |x.submitted| && (h[i].isDone ==> h[i].request <= x.answered)
  }

  /** The response in the thread's hands, then the queue. */
  function Unread(x: Cxn): seq<Response> {
    (if x.pc.GotResponse? || x.pc.Sending? then [x.pc.response] else []) + x.responses
  }

  predicate NoFinal(u: seq<Response>) {
    forall i :: 0 <= i < |u| ==> !u[i].isDone
  }

  predicate OneFinalAtEnd(u: seq<Response>) {
    u != [] && u[|u| - 1].isDone && NoFinal(u[..|u| - 1])
  }

  predicate InCleanup(x: Cxn) {
    x.pc.Cleanup? || GivingUp(x) || x.pc.Closed?
  }

  /** cleanup() waits for the final response. */
  predicate GivingUp(x: Cxn) {
    x.pc.OwesCancelPost? || x.pc.Draining? || x.pc.DrainWoken?
  }

  predicate InLoop(x: Cxn) { x.pc.Loop? || x.pc.Woken? }

  /** What is unread fits the request's progress. */
  predicate UnreadOk(x: Cxn) {
    && (x.mode.Ready? || x.pc.Closed? ==> Unread(x) == [] && !Outstanding(x))
    && (x.mode.Responding? && !x.pc.Closed? ==>
          if Outstanding(x) then NoFinal(Unread(x)) else OneFinalAtEnd(Unread(x)))
  }

  /** Where the thread can stand in each mode. */
  predicate PcOk(x: Cxn) {
    && (x.mode.Ready? ==> InLoop(x) || x.pc.Resuming? || x.pc.Cleanup? || x.pc.Closed?)
    && (x.pc.Resuming? || x.pc == Woken(false) ==> x.mode.Ready?)
    && (x.cancel ==> GivingUp(x) || x.pc.Closed?)
    && (GivingUp(x) ==> x.cancel && x.mode.Responding?)
  }

  predicate BoundOk(x: Cxn) {
    |x.responses| <= RESPONSE_BUFFER_LENGTH + One(x.cancel && !Outstanding(x))
  }

  predicate QueriesOk(x: Cxn) {
    && (forall i :: 0 <= i < |x.toProcess| ==> !WrongSession(x.session, x.toProcess[i]))
    && (!InCleanup(x) ==> x.accepted == x.submitted + x.toProcess)
    && (InLoop(x) && x.mode.Ready? ==> x.toProcess == [])
  }

  predicate CxnOk(x: Cxn) {
    HistoryOk(x) && UnreadOk(x) && PcOk(x) && BoundOk(x) && QueriesOk(x)
  }

  // ----- who refers to a request -----

  predicate Holds(w: Worker, c: nat) {
    (w.Holding? || w.Cancelling? || w.Fetching? || w.Returning? || (w.Posting? && !w.isDone)) && w.c == c
  }

  function Holder(c: nat): Worker -> bool { (w: Worker) => Holds(w, c) }

  /** How many references to connection `c`'s request the shared structures and the
      workers have between them. */
  function References(s: State, c: nat): nat {
    multiset(s.queue)[c] + multiset(s.bag)[c] + Count(s.workers, Holder(c))
  }

  function Live(s: State, c: nat): nat {
    One(c < |s.cxns| && Outstanding(s.cxns[c]))
  }

  ghost predicate SingleOwner(s: State) {
    forall c: nat {:trigger References(s, c)} :: References(s, c) == Live(s, c)
  }

  /** A submitted request that no worker has taken yet has no responses. */
  predicate QueueOk(cxns: seq<Cxn>, queue: seq<nat>) {
    forall c :: c in queue ==> c < |cxns| && cxns[c].responses == []
  }

  /** A worker that has a request knows how full its response queue can be. */
  predicate HoldOk(cxns: seq<Cxn>, w: Worker) {
    w.Holding? || w.Cancelling? || w.Fetching? || w.Posting? || w.Returning? ==>
      && w.c < |cxns|
      && var x := cxns[w.c];
         match w
         case Holding(_) => |x.responses| < RESPONSE_BUFFER_LENGTH || x.cancel
         case Fetching(_) => |x.responses| < RESPONSE_BUFFER_LENGTH
         case Cancelling(_) => x.cancel
         case _ => true
  }

  predicate HoldersOk(cxns: seq<Cxn>, workers: seq<Worker>) {
    forall w :: 0 <= w < |workers| ==> HoldOk(cxns, workers[w])
  }

  // ----- wake-ups -----

  predicate Unscanned(w: Worker) { w.Awake? || w.Scanning? || w.Sizing? }

  predicate ScannedOnly(w: Worker) { w.FoundNone? }

  predicate WorkerOwes(w: Worker) { w.OwesPost? }

  predicate CxnOwes(x: Cxn) {
    || x.pc.OwesRequestPost? || x.pc.OwesCancelPost?
    || (x.pc.GotResponse? && !x.pc.response.isDone)
  }

  function IsServiceable(cxns: seq<Cxn>): nat -> bool { (c: nat) => Serviceable(cxns, c) }

  function ServiceableCount(bag: seq<nat>, cxns: seq<Cxn>): nat { Count(bag, IsServiceable(cxns)) }

  /** Tokens, workers that will still look at the bag, and posts that will come. */
  function Supply(s: State): nat {
    s.tokens + Count(s.workers, Unscanned) + Count(s.workers, WorkerOwes) + Count(s.cxns, CxnOwes)
  }

  /** The bag entries a scanning worker has already dismissed and would take now. */
  function Missed(bag: seq<nat>, cxns: seq<Cxn>, w: Worker): nat {
    if w.Scanning? && w.next <= |bag| then ServiceableCount(bag[..w.next], cxns)
    else if w.Sizing? && w.at < |bag| then ServiceableCount(bag[..w.at], cxns) + One(Cancelled(cxns, bag[w.at]))
    else 0
  }

  predicate HasLock(w: Worker) { w.Scanning? || w.Sizing? }

  predicate LockOk(workers: seq<Worker>, lock: Lock) {
    && (lock.Held? ==> lock.w < |workers|)
    && (forall w :: 0 <= w < |workers| ==> (HasLock(workers[w]) <==> lock == Held(w)))
  }

  predicate ScanOk(s: State) {
    s.lock.Held? && s.lock.w < |s.workers| ==>
      var w := s.workers[s.lock.w];
      && (w.Scanning? ==> w.next <= |s.bag|)
      && (w.Sizing? ==> w.at < |s.bag|)
      && Supply(s) >= 1 + Missed(s.bag, s.cxns, w)
  }

  predicate WakeOk(s: State) {
    && Supply(s) >= ServiceableCount(s.bag, s.cxns)
    && Supply(s) + Count(s.workers, ScannedOnly) >= ServiceableCount(s.bag, s.cxns) + |s.queue|
  }

  predicate CxnsOk(cxns: seq<Cxn>) {
    forall c :: 0 <= c < |cxns| ==> CxnOk(cxns[c])
  }

  ghost predicate WorkOk(s: State) {
    && SingleOwner(s)
    && QueueOk(s.cxns, s.queue)
    && HoldersOk(s.cxns, s.workers)
    && LockOk(s.workers, s.lock)
    && ScanOk(s)
    && WakeOk(s)
  }

  ghost predicate Inv(s: State) {
    CxnsOk(s.cxns) && WorkOk(s)
  }

  // ----- CxnOk is kept -----

  lemma PushKeepsHistory(x: Cxn, isDone: bool)
    requires HistoryOk(x) && Outstanding(x)
    ensures HistoryOk(Push(x, isDone))
  {
    var y := Push(x, isDone);
    assert Pushed(y) == Pushed(x) + [Response(|x.submitted|, isDone)];
    assert OneTo(x.answered + 1) == OneTo(x.answered) + [x.answered + 1];
  }

  lemma FinalPushed(u: seq<Response>, r: Response)
    requires NoFinal(u)
    ensures if r.isDone then OneFinalAtEnd(u + [r]) else NoFinal(u + [r])
  {
    assert (u + [r])[..|u|] == u;
  }

  lemma PushKeepsUnread(x: Cxn, isDone: bool)
    requires x.answered <= |x.submitted| <= x.answered + 1 && UnreadOk(x) && Outstanding(x)
    ensures UnreadOk(Push(x, isDone))
  {
    var r := Response(|x.submitted|, isDone);
    assert Unread(Push(x, isDone)) == Unread(x) + [r];
    FinalPushed(Unread(x), r);
  }

  lemma PushKeepsCxnOk(x: Cxn, isDone: bool)
    requires CxnOk(x) && Outstanding(x)
    requires |x.responses| < RESPONSE_BUFFER_LENGTH || (x.cancel && isDone)
    ensures CxnOk(Push(x, isDone))
  {
    PushKeepsHistory(x, isDone);
    PushKeepsUnread(x, isDone);
  }

  lemma PostedKeepsCxnOk(x: Cxn)
    requires CxnOk(x)
    ensures CxnOk(Posted(x))
  {
    assert Pushed(Posted(x)) == Pushed(x) && Unread(Posted(x)) == Unread(x);
  }

  lemma Popped(consumed: seq<Response>, responses: seq<Response>)
    requires responses != []
    ensures (consumed + [responses[0]]) + responses[1..] == consumed + responses
  {
  }

  /** No connection's step adds to what was pushed. */
  lemma CxnStepKeepsPushed(x: Cxn, y: Cxn, a: CxnStep)
    requires CxnEnabled(x, a) && y == CxnNext(x, a)
    ensures Pushed(y) == Pushed(x) && y.answered == x.answered
  {
    if a.Pop? || a.Drain? {
      Popped(x.consumed, x.responses);
    } else {
      assert y.consumed == x.consumed && y.responses == x.responses;
    }
  }

  lemma SameHistory(x: Cxn, y: Cxn)
    requires HistoryOk(x) && Pushed(y) == Pushed(x) && y.answered == x.answered
    requires |x.submitted| <= |y.submitted| <= x.answered + 1
    ensures HistoryOk(y)
  {
  }

  lemma CxnStepKeepsHistory(x: Cxn, a: CxnStep)
    requires CxnEnabled(x, a) && HistoryOk(x) && UnreadOk(x) && PcOk(x)
    ensures HistoryOk(CxnNext(x, a))
  {
    CxnStepKeepsPushed(x, CxnNext(x, a), a);
    SameHistory(x, CxnNext(x, a));
  }

  lemma ReadOne(u: seq<Response>)
    requires u != []
    ensures NoFinal(u) ==> !u[0].isDone && NoFinal(u[1..])
    ensures OneFinalAtEnd(u) && !u[0].isDone ==> OneFinalAtEnd(u[1..])
    ensures OneFinalAtEnd(u) && u[0].isDone ==> u[1..] == []
  {
    if OneFinalAtEnd(u) && |u| > 1 {
      assert u[..|u| - 1][0] == u[0];
      assert u[1..][..|u| - 2] == u[..|u| - 1][1..];
    }
  }

  /** The steps that put an unread response away. */
  predicate Reads(x: Cxn, a: CxnStep) {
    a.Drain? || (x.pc.Sending? && (a.Sent? || a.Exit?))
  }

  lemma CxnStepUnread(x: Cxn, a: CxnStep)
    requires CxnEnabled(x, a) && PcOk(x)
    ensures Reads(x, a) ==> Unread(x) != [] && Unread(CxnNext(x, a)) == Unread(x)[1..]
    ensures !Reads(x, a) ==> Unread(CxnNext(x, a)) == Unread(x)
  {
    if a.Pop? || a.Drain? {
      assert x.responses == [x.responses[0]] + x.responses[1..];
    }
  }

  lemma ReadKeepsUnread(x: Cxn, y: Cxn, a: CxnStep)
    requires CxnEnabled(x, a) && y == CxnNext(x, a) && UnreadOk(x) && PcOk(x) && Reads(x, a)
    ensures UnreadOk(y)
  {
    CxnStepUnread(x, a);
    ReadOne(Unread(x));
    assert x.mode.Responding? && Outstanding(y) == Outstanding(x);
    assert (y.mode.Ready? || y.pc.Closed?) == Unread(x)[0].isDone;
  }

  lemma QueryKeepsUnread(x: Cxn, y: Cxn, a: CxnStep)
    requires CxnEnabled(x, a) && y == CxnNext(x, a) && UnreadOk(x) && PcOk(x) && x.answered <= |x.submitted|
    requires a.Receive? || a.Resume?
    ensures UnreadOk(y)
  {
    CxnStepUnread(x, a);
    assert x.mode.Ready? ==> |Unread(x)| == 0;
  }

  lemma OtherKeepsUnread(x: Cxn, y: Cxn, a: CxnStep)
    requires CxnEnabled(x, a) && y == CxnNext(x, a) && UnreadOk(x) && PcOk(x)
    requires !Reads(x, a) && !a.Receive? && !a.Resume?
    ensures UnreadOk(y)
  {
    CxnStepUnread(x, a);
    assert y.mode == x.mode && Outstanding(y) == Outstanding(x);
    assert y.pc.Closed? ==> x.mode.Ready? || x.pc.Closed?;
  }

  lemma CxnStepKeepsUnread(x: Cxn, y: Cxn, a: CxnStep)
    requires CxnEnabled(x, a) && y == CxnNext(x, a) && UnreadOk(x) && PcOk(x) && x.answered <= |x.submitted|
    ensures UnreadOk(y)
  {
    if Reads(x, a) {
      ReadKeepsUnread(x, y, a);
    } else if a.Receive? || a.Resume? {
      QueryKeepsUnread(x, y, a);
    } else {
      OtherKeepsUnread(x, y, a);
    }
  }

  lemma CxnStepKeepsPc(x: Cxn, a: CxnStep)
    requires CxnEnabled(x, a) && UnreadOk(x) && PcOk(x)
    ensures PcOk(CxnNext(x, a))
  {
    assert x.mode.Ready? ==> |Unread(x)| == 0;
  }

  lemma ResumeKeepsQueries(x: Cxn)
    requires x.pc.Resuming? && QueriesOk(x)
    ensures QueriesOk(ResumeOne(x))
  {
    if x.toProcess != [] {
      assert x.toProcess == [x.toProcess[0]] + x.toProcess[1..];
      assert x.submitted + x.toProcess == x.submitted + [x.toProcess[0]] + x.toProcess[1..];
    }
  }

  lemma ReceiveKeepsQueries(x: Cxn, q: Query)
    requires x.pc.Loop? && QueriesOk(x) && (x.mode.Ready? ==> x.responses == [])
    ensures QueriesOk(HandleQuery(x, q))
  {
    if x.mode.Responding? {
      assert x.accepted + [q] == x.submitted + (x.toProcess + [q]);
    }
  }

  lemma CxnStepKeepsQueries(x: Cxn, a: CxnStep)
    requires CxnEnabled(x, a) && UnreadOk(x) && PcOk(x) && QueriesOk(x)
    ensures QueriesOk(CxnNext(x, a))
  {
    assert x.mode.Ready? ==> |Unread(x)| == 0;
    if a.Receive? {
      ReceiveKeepsQueries(Spent(x).(pc := Loop), a.query);
    } else if a.Resume? {
      ResumeKeepsQueries(x);
    }
  }

  lemma CxnStepKeepsBound(x: Cxn, a: CxnStep)
    requires CxnEnabled(x, a) && UnreadOk(x) && PcOk(x) && BoundOk(x)
    ensures BoundOk(CxnNext(x, a))
  {
    assert x.mode.Ready? ==> |Unread(x)| == 0;
  }

  lemma CxnStepKeepsCxnOk(x: Cxn, a: CxnStep)
    requires CxnEnabled(x, a) && CxnOk(x)
    ensures CxnOk(CxnNext(x, a))
  {
    CxnStepKeepsHistory(x, a);
    CxnStepKeepsUnread(x, CxnNext(x, a), a);
    CxnStepKeepsPc(x, a);
    CxnStepKeepsBound(x, a);
    CxnStepKeepsQueries(x, a);
  }

  // ----- a connection's step -----

  predicate Takeable(x: Cxn) { x.cancel || |x.responses| < RESPONSE_BUFFER_LENGTH }

  /** The step makes the request something a scan would take. */
  predicate Gains(x: Cxn, y: Cxn) {
    (Takeable(y) && !Takeable(x)) || (y.cancel && !x.cancel)
  }

  /** What a connection's step can do to everything the workers see: each request
      submitted and each request made takeable while outstanding is paid for by a
      post that is made or owed. */
  predicate CxnEffect(x: Cxn, y: Cxn, submits: bool, posts: bool) {
    && (x.cancel ==> y.cancel) && |y.responses| <= |x.responses|
    && (if submits then !Outstanding(x) && Outstanding(y) && y.responses == []
        else Outstanding(y) == Outstanding(x))
    && (submits || (Outstanding(x) && Gains(x, y)) ==> One(posts) + One(CxnOwes(y)) == One(CxnOwes(x)) + 1)
    && One(posts) + One(CxnOwes(y)) >= One(CxnOwes(x))
  }

  lemma QueryEffect(x: Cxn, y: Cxn, a: CxnStep)
    requires CxnEnabled(x, a) && y == CxnNext(x, a) && UnreadOk(x) && PcOk(x) && x.answered <= |x.submitted|
    requires a.Receive? || a.Resume?
    ensures CxnEffect(x, y, Submits(x, y), false)
  {
    assert x.mode.Ready? ==> |Unread(x)| == 0;
  }

  lemma CxnStepEffect(x: Cxn, y: Cxn, a: CxnStep)
    requires CxnEnabled(x, a) && y == CxnNext(x, a) && UnreadOk(x) && PcOk(x) && x.answered <= |x.submitted|
    ensures CxnEffect(x, y, Submits(x, y), Posts(x, a))
  {
    if a.Receive? || a.Resume? {
      QueryEffect(x, y, a);
    } else {
      assert y.submitted == x.submitted && y.answered == x.answered;
      if a.Pop? {
        assert Unread(x) == x.responses && Unread(x)[0] == x.responses[0];
      }
    }
  }

  /** Only an outstanding request is in the bag, and only once. */
  lemma InBagOnce(s: State, c: nat)
    requires SingleOwner(s)
    ensures multiset(s.bag)[c] <= Live(s, c) <= 1
  {
    assert References(s, c) == Live(s, c);
  }

  lemma PrefixOccurrences(bag: seq<nat>, n: nat, c: nat)
    requires n <= |bag|
    ensures multiset(bag[..n])[c] <= multiset(bag)[c]
    ensures n < |bag| && bag[n] == c ==> multiset(bag[..n])[c] + 1 <= multiset(bag)[c]
  {
    assert bag == bag[..n] + bag[n..];
    if n < |bag| {
      assert bag[n..] == [bag[n]] + bag[n + 1..];
    }
  }

  /** Changing one connection's record changes how many entries of a bag prefix are
      serviceable by at most one, and not at all if the request is not in the bag. */
  lemma ServiceableChange(s: State, n: nat, c: nat, y: Cxn)
    requires SingleOwner(s) && c < |s.cxns| && n <= |s.bag|
    requires |y.responses| <= |s.cxns[c].responses| || !(c in s.bag)
    requires s.cxns[c].cancel ==> y.cancel
    ensures ServiceableCount(s.bag[..n], s.cxns[c := y])
            <= ServiceableCount(s.bag[..n], s.cxns)
               + One(Outstanding(s.cxns[c]) && Gains(s.cxns[c], y)
                     && (n < |s.bag| ==> s.bag[n] != c))
  {
    var b := s.bag[..n];
    var p, q := IsServiceable(s.cxns), IsServiceable(s.cxns[c := y]);
    InBagOnce(s, c);
    PrefixOccurrences(s.bag, n, c);
    assert forall d :: d in b && d != c ==> p(d) == q(d);
    CountDiffer(b, p, q, c);
  }

  lemma MissedChange(s: State, w: Worker, c: nat, y: Cxn)
    requires SingleOwner(s) && c < |s.cxns|
    requires |y.responses| <= |s.cxns[c].responses| || !(c in s.bag)
    requires s.cxns[c].cancel ==> y.cancel
    ensures Missed(s.bag, s.cxns[c := y], w)
            <= Missed(s.bag, s.cxns, w) + One(Outstanding(s.cxns[c]) && Gains(s.cxns[c], y))
  {
    if w.Scanning? && w.next <= |s.bag| {
      ServiceableChange(s, w.next, c, y);
    } else if w.Sizing? && w.at < |s.bag| {
      ServiceableChange(s, w.at, c, y);
      InBagOnce(s, c);
    }
  }

  lemma CxnChangeKeepsOwner(s: State, c: nat, y: Cxn, submits: bool, posts: bool)
    requires SingleOwner(s) && c < |s.cxns| && CxnEffect(s.cxns[c], y, submits, posts)
    ensures SingleOwner(WithCxn(s, c, y, submits, posts))
  {
    var s' := WithCxn(s, c, y, submits, posts);
    forall d: nat ensures References(s', d) == Live(s', d) {
      assert References(s, d) == Live(s, d);
    }
  }

  lemma CxnChangeKeepsWakeUps(s: State, c: nat, y: Cxn, submits: bool, posts: bool)
    requires SingleOwner(s) && ScanOk(s) && WakeOk(s)
    requires c < |s.cxns| && CxnEffect(s.cxns[c], y, submits, posts)
    ensures ScanOk(WithCxn(s, c, y, submits, posts)) && WakeOk(WithCxn(s, c, y, submits, posts))
  {
    CountUpdate(s.cxns, c, y, CxnOwes);
    ServiceableChange(s, |s.bag|, c, y);
    assert s.bag[..|s.bag|] == s.bag;
    if s.lock.Held? && s.lock.w < |s.workers| {
      MissedChange(s, s.workers[s.lock.w], c, y);
    }
  }

  /** A worker's view of a connection survives the connection's own steps. */
  lemma CxnChangeKeepsHolders(cxns: seq<Cxn>, workers: seq<Worker>, queue: seq<nat>, c: nat, y: Cxn)
    requires HoldersOk(cxns, workers) && QueueOk(cxns, queue)
    requires c < |cxns| && |y.responses| <= |cxns[c].responses| && (cxns[c].cancel ==> y.cancel)
    ensures HoldersOk(cxns[c := y], workers) && QueueOk(cxns[c := y], queue)
  {
  }

  lemma CxnChangeKeepsWorkOk(s: State, c: nat, y: Cxn, submits: bool, posts: bool)
    requires WorkOk(s) && c < |s.cxns| && CxnEffect(s.cxns[c], y, submits, posts)
    ensures WorkOk(WithCxn(s, c, y, submits, posts))
  {
    CxnChangeKeepsOwner(s, c, y, submits, posts);
    CxnChangeKeepsHolders(s.cxns, s.workers, s.queue, c, y);
    CxnChangeKeepsWakeUps(s, c, y, submits, posts);
  }

  // ----- a worker's step -----

  lemma WorkerCounts(ws: seq<Worker>, w: nat, v: Worker)
    requires w < |ws|
    ensures Count(ws[w := v], Unscanned) + One(Unscanned(ws[w])) == Count(ws, Unscanned) + One(Unscanned(v))
    ensures Count(ws[w := v], WorkerOwes) + One(WorkerOwes(ws[w])) == Count(ws, WorkerOwes) + One(WorkerOwes(v))
    ensures Count(ws[w := v], ScannedOnly) + One(ScannedOnly(ws[w])) == Count(ws, ScannedOnly) + One(ScannedOnly(v))
  {
    CountUpdate(ws, w, v, Unscanned);
    CountUpdate(ws, w, v, WorkerOwes);
    CountUpdate(ws, w, v, ScannedOnly);
  }

  /** For each request, what a worker's step adds to the queue, the bag and the
      worker's hands matches what it adds to the outstanding requests. */
  ghost predicate Moves(s: State, s': State, w: nat)
    requires w < |s.workers| && w < |s'.workers|
  {
    forall c: nat ::
      multiset(s'.queue)[c] + multiset(s'.bag)[c] + One(Holds(s'.workers[w], c)) + Live(s, c)
      == multiset(s.queue)[c] + multiset(s.bag)[c] + One(Holds(s.workers[w], c)) + Live(s', c)
  }

  lemma OwnerMoves(s: State, s': State, w: nat, v: Worker)
    requires SingleOwner(s) && w < |s.workers| && s'.workers == s.workers[w := v] && Moves(s, s', w)
    ensures SingleOwner(s')
  {
    forall c: nat ensures References(s', c) == Live(s', c) {
      assert References(s, c) == Live(s, c);
      CountUpdate(s.workers, w, v, Holder(c));
    }
  }

  /** A worker's request is outstanding and nobody else refers to it. */
  lemma HolderIsOnlyOwner(s: State, w: nat, c: nat)
    requires SingleOwner(s) && w < |s.workers| && Holds(s.workers[w], c)
    ensures c < |s.cxns| && Outstanding(s.cxns[c])
    ensures c !in s.queue && c !in s.bag
    ensures forall v :: 0 <= v < |s.workers| && v != w ==> !Holds(s.workers[v], c)
  {
    assert References(s, c) == Live(s, c);
    CountPositive(s.workers, w, Holder(c));
    forall v | 0 <= v < |s.workers| && v != w ensures !Holds(s.workers[v], c) {
      if Holds(s.workers[v], c) {
        CountTwo(s.workers, if v < w then v else w, if v < w then w else v, Holder(c));
      }
    }
  }

  lemma WorkerKeepsHolders(cxns: seq<Cxn>, workers: seq<Worker>, w: nat, v: Worker)
    requires HoldersOk(cxns, workers) && w < |workers| && HoldOk(cxns, v)
    ensures HoldersOk(cxns, workers[w := v])
  {
  }

  /** A step of a worker without the lock that leaves bag, queue and connections
      alone: what it costs in supply must not be missing. */
  lemma PlainStepKeepsWorkOk(s: State, w: nat, v: Worker, tokens: nat)
    requires WorkOk(s) && w < |s.workers| && !HasLock(s.workers[w]) && !HasLock(v) && HoldOk(s.cxns, v)
    requires forall c: nat :: Holds(v, c) == Holds(s.workers[w], c)
    requires tokens + One(Unscanned(v)) + One(WorkerOwes(v))
             == s.tokens + One(Unscanned(s.workers[w])) + One(WorkerOwes(s.workers[w]))
    requires ScannedOnly(s.workers[w]) ==> s.queue == []
    ensures WorkOk(s.(workers := s.workers[w := v], tokens := tokens))
  {
    var s' := s.(workers := s.workers[w := v], tokens := tokens);
    OwnerMoves(s, s', w, v);
    WorkerKeepsHolders(s.cxns, s.workers, w, v);
    WorkerCounts(s.workers, w, v);
  }

  lemma BeginScanKeepsWorkOk(s: State, w: nat)
    requires WorkOk(s) && w < |s.workers| && s.workers[w].Awake? && s.lock.Free?
    ensures WorkOk(s.(workers := s.workers[w := Scanning(0)], lock := Held(w)))
  {
    OwnerMoves(s, s.(workers := s.workers[w := Scanning(0)], lock := Held(w)), w, Scanning(0));
    WorkerKeepsHolders(s.cxns, s.workers, w, Scanning(0));
    WorkerCounts(s.workers, w, Scanning(0));
    CountPositive(s.workers, w, Unscanned);
  }

  lemma TakenKeepsOwner(s: State, w: nat, i: nat)
    requires SingleOwner(s) && w < |s.workers| && HasLock(s.workers[w]) && i < |s.bag|
    ensures SingleOwner(TakeFromBag(s, w, i))
  {
    assert s.bag == s.bag[..i] + [s.bag[i]] + s.bag[i + 1..];
    OwnerMoves(s, TakeFromBag(s, w, i), w, Holding(s.bag[i]));
  }

  lemma TakeFromBagKeepsWorkOk(s: State, w: nat, i: nat)
    requires WorkOk(s) && w < |s.workers| && i < |s.bag| && HasLock(s.workers[w])
    requires Serviceable(s.cxns, s.bag[i])
    ensures WorkOk(TakeFromBag(s, w, i))
  {
    TakenKeepsOwner(s, w, i);
    WorkerKeepsHolders(s.cxns, s.workers, w, Holding(s.bag[i]));
    WorkerCounts(s.workers, w, Holding(s.bag[i]));
    CountErase(s.bag, i, IsServiceable(s.cxns));
  }

  /** The scanning worker goes on; what it has dismissed must not count for more. */
  lemma ScanKeepsWorkOk(s: State, w: nat, v: Worker)
    requires WorkOk(s) && w < |s.workers| && HasLock(s.workers[w]) && HasLock(v)
    requires (v.Scanning? ==> v.next <= |s.bag|) && (v.Sizing? ==> v.at < |s.bag|)
    requires Missed(s.bag, s.cxns, v) == Missed(s.bag, s.cxns, s.workers[w])
    ensures WorkOk(s.(workers := s.workers[w := v]))
  {
    OwnerMoves(s, s.(workers := s.workers[w := v]), w, v);
    WorkerKeepsHolders(s.cxns, s.workers, w, v);
    WorkerCounts(s.workers, w, v);
  }

  lemma ReadCancelKeepsWorkOk(s: State, w: nat)
    requires WorkOk(s) && w < |s.workers| && WorkerEnabled(s, w, ReadCancel)
    ensures WorkOk(WorkerNext(s, w, ReadCancel))
  {
    var i := s.workers[w].next;
    if Cancelled(s.cxns, s.bag[i]) {
      TakeFromBagKeepsWorkOk(s, w, i);
    } else {
      ScanKeepsWorkOk(s, w, Sizing(i));
    }
  }

  lemma MissedPast(bag: seq<nat>, cxns: seq<Cxn>, i: nat)
    requires i < |bag| && (Serviceable(cxns, bag[i]) ==> Cancelled(cxns, bag[i]))
    ensures Missed(bag, cxns, Scanning(i + 1)) == Missed(bag, cxns, Sizing(i))
  {
    assert bag[..i + 1] == bag[..i] + [bag[i]];
    CountConcat<nat>(bag[..i], [bag[i]], IsServiceable(cxns));
  }

  lemma ReadSizeKeepsWorkOk(s: State, w: nat)
    requires WorkOk(s) && w < |s.workers| && WorkerEnabled(s, w, ReadSize)
    ensures WorkOk(WorkerNext(s, w, ReadSize))
  {
    var i := s.workers[w].at;
    var c := s.bag[i];
    if c < |s.cxns| && |s.cxns[c].responses| < RESPONSE_BUFFER_LENGTH {
      TakeFromBagKeepsWorkOk(s, w, i);
    } else {
      MissedPast(s.bag, s.cxns, i);
      ScanKeepsWorkOk(s, w, Scanning(i + 1));
    }
  }

  lemma EndScanKeepsWorkOk(s: State, w: nat)
    requires WorkOk(s) && w < |s.workers| && s.workers[w].Scanning? && s.workers[w].next >= |s.bag|
    ensures WorkOk(s.(workers := s.workers[w := FoundNone], lock := Free))
  {
    OwnerMoves(s, s.(workers := s.workers[w := FoundNone], lock := Free), w, FoundNone);
    WorkerKeepsHolders(s.cxns, s.workers, w, FoundNone);
    WorkerCounts(s.workers, w, FoundNone);
    assert s.bag[..|s.bag|] == s.bag;
  }

  lemma TakenKeepsQueue(s: State, w: nat, v: Worker)
    requires SingleOwner(s) && QueueOk(s.cxns, s.queue) && w < |s.workers| && s.workers[w].FoundNone?
    requires s.queue != [] && v == Holding(s.queue[0])
    ensures SingleOwner(s.(workers := s.workers[w := v], queue := s.queue[1..]))
    ensures QueueOk(s.cxns, s.queue[1..]) && HoldOk(s.cxns, v)
  {
    assert s.queue == [s.queue[0]] + s.queue[1..];
    assert forall c :: c in s.queue[1..] ==> c in s.queue;
    assert s.queue[0] in s.queue;
    OwnerMoves(s, s.(workers := s.workers[w := v], queue := s.queue[1..]), w, v);
  }

  lemma TakeNewKeepsWorkOk(s: State, w: nat)
    requires WorkOk(s) && w < |s.workers| && s.workers[w].FoundNone? && s.queue != []
    ensures WorkOk(s.(workers := s.workers[w := Holding(s.queue[0])], queue := s.queue[1..]))
  {
    var v := Holding(s.queue[0]);
    TakenKeepsQueue(s, w, v);
    WorkerKeepsHolders(s.cxns, s.workers, w, v);
    WorkerCounts(s.workers, w, v);
  }

  lemma InsertedKeepsOwner(s: State, w: nat, slot: nat)
    requires SingleOwner(s) && w < |s.workers| && s.workers[w].Returning? && slot <= |s.bag|
    ensures SingleOwner(s.(workers := s.workers[w := OwesPost],
                           bag := s.bag[..slot] + [s.workers[w].c] + s.bag[slot..]))
  {
    assert s.bag == s.bag[..slot] + s.bag[slot..];
    OwnerMoves(s, s.(workers := s.workers[w := OwesPost], bag := s.bag[..slot] + [s.workers[w].c] + s.bag[slot..]),
               w, OwesPost);
  }

  lemma PutBackKeepsWorkOk(s: State, w: nat, slot: nat)
    requires WorkOk(s) && w < |s.workers| && s.workers[w].Returning? && s.lock.Free? && slot <= |s.bag|
    ensures WorkOk(s.(workers := s.workers[w := OwesPost],
                      bag := s.bag[..slot] + [s.workers[w].c] + s.bag[slot..]))
  {
    InsertedKeepsOwner(s, w, slot);
    WorkerKeepsHolders(s.cxns, s.workers, w, OwesPost);
    WorkerCounts(s.workers, w, OwesPost);
    CountInsert(s.bag, slot, s.workers[w].c, IsServiceable(s.cxns));
  }

  // ----- send_response -----

  lemma SendKeepsOwner(s: State, w: nat, c: nat, isDone: bool)
    requires SingleOwner(s) && w < |s.workers| && Holds(s.workers[w], c) && c < |s.cxns|
    requires |s.cxns[c].submitted| <= s.cxns[c].answered + 1
    ensures SingleOwner(SendResponse(s, w, c, isDone))
  {
    var s' := SendResponse(s, w, c, isDone);
    HolderIsOnlyOwner(s, w, c);
    assert forall d: nat :: d != c ==> Live(s', d) == Live(s, d);
    OwnerMoves(s, s', w, Posting(c, isDone));
  }

  lemma SendKeepsHolders(s: State, w: nat, c: nat, isDone: bool)
    requires SingleOwner(s) && HoldersOk(s.cxns, s.workers) && QueueOk(s.cxns, s.queue)
    requires w < |s.workers| && Holds(s.workers[w], c) && c < |s.cxns|
    ensures var s' := SendResponse(s, w, c, isDone);
            QueueOk(s'.cxns, s'.queue) && HoldersOk(s'.cxns, s'.workers)
  {
    HolderIsOnlyOwner(s, w, c);
    var s' := SendResponse(s, w, c, isDone);
    forall v | 0 <= v < |s.workers| ensures HoldOk(s'.cxns, s'.workers[v]) {
      assert HoldOk(s.cxns, s.workers[v]);
    }
  }

  lemma SendKeepsWakeUps(s: State, w: nat, c: nat, isDone: bool)
    requires SingleOwner(s) && LockOk(s.workers, s.lock) && ScanOk(s) && WakeOk(s)
    requires w < |s.workers| && Holds(s.workers[w], c) && c < |s.cxns|
    ensures var s' := SendResponse(s, w, c, isDone);
            LockOk(s'.workers, s'.lock) && ScanOk(s') && WakeOk(s')
  {
    var y := Push(s.cxns[c], isDone);
    HolderIsOnlyOwner(s, w, c);
    WorkerCounts(s.workers, w, Posting(c, isDone));
    CountUpdate(s.cxns, c, y, CxnOwes);
    ServiceableChange(s, |s.bag|, c, y);
    assert s.bag[..|s.bag|] == s.bag;
    if s.lock.Held? {
      MissedChange(s, s.workers[s.lock.w], c, y);
    }
  }

  lemma SendKeepsWorkOk(s: State, w: nat, c: nat, isDone: bool)
    requires WorkOk(s) && w < |s.workers| && Holds(s.workers[w], c)
    requires c < |s.cxns| && |s.cxns[c].submitted| <= s.cxns[c].answered + 1
    ensures WorkOk(SendResponse(s, w, c, isDone))
  {
    SendKeepsOwner(s, w, c, isDone);
    SendKeepsHolders(s, w, c, isDone);
    SendKeepsWakeUps(s, w, c, isDone);
  }

  lemma PostResponseKeepsWorkOk(s: State, w: nat)
    requires WorkOk(s) && w < |s.workers| && WorkerEnabled(s, w, PostResponse)
    ensures WorkOk(WorkerNext(s, w, PostResponse))
  {
    var me := s.workers[w];
    var y := Posted(s.cxns[me.c]);
    CxnChangeKeepsWorkOk(s, me.c, y, false, false);
    PlainStepKeepsWorkOk(WithCxn(s, me.c, y, false, false), w, if me.isDone then Asleep else Returning(me.c), s.tokens);
  }

  // ----- every step, every run -----

  lemma InBagLive(s: State, c: nat)
    requires SingleOwner(s) && c in s.bag
    ensures c < |s.cxns|
  {
    assert References(s, c) == Live(s, c);
  }

  lemma SameServiceable(s: State, cxns': seq<Cxn>, b: seq<nat>)
    requires SingleOwner(s) && s.cxns <= cxns'
    requires forall c :: c in b ==> c in s.bag
    ensures ServiceableCount(b, cxns') == ServiceableCount(b, s.cxns)
  {
    forall c | c in b ensures c < |s.cxns| {
      InBagLive(s, c);
    }
    CountDiffer<nat>(b, IsServiceable(s.cxns), IsServiceable(cxns'), |cxns'|);
  }

  lemma SameMissed(s: State, cxns': seq<Cxn>, w: Worker)
    requires SingleOwner(s) && s.cxns <= cxns'
    ensures Missed(s.bag, cxns', w) == Missed(s.bag, s.cxns, w)
  {
    if w.Scanning? && w.next <= |s.bag| {
      SameServiceable(s, cxns', s.bag[..w.next]);
    } else if w.Sizing? && w.at < |s.bag| {
      SameServiceable(s, cxns', s.bag[..w.at]);
      InBagLive(s, s.bag[w.at]);
    }
  }

  lemma ConnectKeepsWorkOk(s: State, x: Cxn)
    requires WorkOk(s) && !Outstanding(x) && !CxnOwes(x)
    ensures WorkOk(s.(cxns := s.cxns + [x]))
  {
    var s' := s.(cxns := s.cxns + [x]);
    CountConcat(s.cxns, [x], CxnOwes);
    SameServiceable(s, s'.cxns, s.bag);
    if s.lock.Held? {
      SameMissed(s, s'.cxns, s.workers[s.lock.w]);
    }
    forall c: nat ensures References(s', c) == Live(s', c) {
      assert References(s, c) == Live(s, c);
    }
  }

  lemma SpawnKeepsWorkOk(s: State)
    requires WorkOk(s)
    ensures WorkOk(s.(workers := s.workers + [Asleep]))
  {
    var s' := s.(workers := s.workers + [Asleep]);
    CountConcat(s.workers, [Asleep], Unscanned);
    CountConcat(s.workers, [Asleep], WorkerOwes);
    CountConcat(s.workers, [Asleep], ScannedOnly);
    forall c: nat ensures References(s', c) == Live(s', c) {
      assert References(s, c) == Live(s, c);
      CountConcat(s.workers, [Asleep], Holder(c));
    }
  }

  lemma ScanStepKeepsWorkOk(s: State, w: nat, a: WorkerStep)
    requires WorkOk(s) && w < |s.workers| && WorkerEnabled(s, w, a)
    requires a.BeginScan? || a.ReadCancel? || a.ReadSize? || a.EndScan?
    ensures WorkOk(WorkerNext(s, w, a))
  {
    match a
    case BeginScan => BeginScanKeepsWorkOk(s, w);
    case ReadCancel => ReadCancelKeepsWorkOk(s, w);
    case ReadSize => ReadSizeKeepsWorkOk(s, w);
    case EndScan => EndScanKeepsWorkOk(s, w);
  }

  lemma SendStepKeepsWorkOk(s: State, w: nat, a: WorkerStep)
    requires WorkOk(s) && CxnsOk(s.cxns) && w < |s.workers| && WorkerEnabled(s, w, a)
    requires a.SendCancelled? || a.SendRows? || a.PostResponse? || a.PutBack?
    ensures WorkOk(WorkerNext(s, w, a))
  {
    match a
    case SendCancelled => SendKeepsWorkOk(s, w, s.workers[w].c, true);
    case SendRows(isDone) => SendKeepsWorkOk(s, w, s.workers[w].c, isDone);
    case PostResponse => PostResponseKeepsWorkOk(s, w);
    case PutBack(slot) => PutBackKeepsWorkOk(s, w, slot);
  }

  /** The steps that change one worker, and perhaps the semaphore, and nothing else. */
  lemma PlainNext(s: State, w: nat, a: WorkerStep) returns (v: Worker, tokens: nat)
    requires HoldersOk(s.cxns, s.workers) && w < |s.workers| && WorkerEnabled(s, w, a)
    requires a.Wake? || a.Decide? || a.PostWorker? || (a.TakeNew? && s.queue == [])
    ensures WorkerNext(s, w, a) == s.(workers := s.workers[w := v], tokens := tokens)
    ensures !HasLock(s.workers[w]) && !HasLock(v) && HoldOk(s.cxns, v)
    ensures forall c: nat :: Holds(v, c) == Holds(s.workers[w], c)
    ensures tokens + One(Unscanned(v)) + One(WorkerOwes(v))
            == s.tokens + One(Unscanned(s.workers[w])) + One(WorkerOwes(s.workers[w]))
    ensures ScannedOnly(s.workers[w]) ==> s.queue == []
  {
    assert HoldOk(s.cxns, s.workers[w]);
    v, tokens := WorkerNext(s, w, a).workers[w], WorkerNext(s, w, a).tokens;
  }

  lemma OtherStepKeepsWorkOk(s: State, w: nat, a: WorkerStep)
    requires WorkOk(s) && w < |s.workers| && WorkerEnabled(s, w, a)
    requires a.Wake? || a.TakeNew? || a.Decide? || a.PostWorker?
    ensures WorkOk(WorkerNext(s, w, a))
  {
    if a.TakeNew? && s.queue != [] {
      TakeNewKeepsWorkOk(s, w);
    } else {
      var v, tokens := PlainNext(s, w, a);
      PlainStepKeepsWorkOk(s, w, v, tokens);
    }
  }

  lemma WorkerStepKeepsWorkOk(s: State, w: nat, a: WorkerStep)
    requires WorkOk(s) && CxnsOk(s.cxns) && w < |s.workers| && WorkerEnabled(s, w, a)
    ensures WorkOk(WorkerNext(s, w, a))
  {
    if a.BeginScan? || a.ReadCancel? || a.ReadSize? || a.EndScan? {
      ScanStepKeepsWorkOk(s, w, a);
    } else if a.SendCancelled? || a.SendRows? || a.PostResponse? || a.PutBack? {
      SendStepKeepsWorkOk(s, w, a);
    } else {
      OtherStepKeepsWorkOk(s, w, a);
    }
  }

  lemma StepKeepsWorkOk(s: State, a: Action)
    requires WorkOk(s) && Enabled(s, a) && CxnsOk(s.cxns)
    ensures WorkOk(Apply(s, a))
  {
    match a
    case Connect(session) => ConnectKeepsWorkOk(s, NewCxn(session));
    case Spawn => SpawnKeepsWorkOk(s);
    case ByCxn(c, step) =>
      var x, y := s.cxns[c], CxnNext(s.cxns[c], step);
      CxnStepEffect(x, y, step);
      CxnChangeKeepsWorkOk(s, c, y, Submits(x, y), Posts(x, step));
    case ByWorker(w, does) => WorkerStepKeepsWorkOk(s, w, does);
  }

  lemma CxnsUpdate(cxns: seq<Cxn>, c: nat, y: Cxn)
    requires CxnsOk(cxns) && c < |cxns| && CxnOk(y)
    ensures CxnsOk(cxns[c := y])
  {
  }

  lemma SendKeepsCxnsOk(s: State, w: nat, c: nat, isDone: bool)
    requires CxnsOk(s.cxns) && SingleOwner(s) && HoldersOk(s.cxns, s.workers)
    requires w < |s.workers| && c < |s.cxns|
    requires s.workers[w] == Fetching(c) || (s.workers[w] == Cancelling(c) && isDone)
    ensures CxnsOk(SendResponse(s, w, c, isDone).cxns)
  {
    HolderIsOnlyOwner(s, w, c);
    assert HoldOk(s.cxns, s.workers[w]);
    PushKeepsCxnOk(s.cxns[c], isDone);
    CxnsUpdate(s.cxns, c, Push(s.cxns[c], isDone));
  }

  lemma WorkerStepKeepsCxnsOk(s: State, w: nat, a: WorkerStep)
    requires CxnsOk(s.cxns) && SingleOwner(s) && HoldersOk(s.cxns, s.workers)
    requires w < |s.workers| && WorkerEnabled(s, w, a)
    ensures CxnsOk(WorkerNext(s, w, a).cxns)
  {
    match a
    case SendCancelled => SendKeepsCxnsOk(s, w, s.workers[w].c, true);
    case SendRows(isDone) => SendKeepsCxnsOk(s, w, s.workers[w].c, isDone);
    case PostResponse =>
      PostedKeepsCxnOk(s.cxns[s.workers[w].c]);
      CxnsUpdate(s.cxns, s.workers[w].c, Posted(s.cxns[s.workers[w].c]));
    case _ =>
  }

  lemma NewCxnOk(session: nat)
    ensures CxnOk(NewCxn(session))
  {
  }

  lemma StepKeepsCxnsOk(s: State, a: Action)
    requires WorkOk(s) && Enabled(s, a) && CxnsOk(s.cxns)
    ensures CxnsOk(Apply(s, a).cxns)
  {
    match a
    case Connect(session) => NewCxnOk(session);
    case Spawn =>
    case ByCxn(c, step) =>
      CxnStepKeepsCxnOk(s.cxns[c], step);
      CxnsUpdate(s.cxns, c, CxnNext(s.cxns[c], step));
    case ByWorker(w, does) => WorkerStepKeepsCxnsOk(s, w, does);
  }

  lemma InitInv(s: State)
    requires Init(s)
    ensures Inv(s)
  {
    CountZero(s.workers, Unscanned);
    CountZero(s.workers, WorkerOwes);
    CountZero(s.workers, ScannedOnly);
    forall c: nat ensures References(s, c) == Live(s, c) {
      CountZero(s.workers, Holder(c));
    }
  }

  /** The invariant holds in every state of every run. */
  lemma {:induction false} RunInv(states: seq<State>, actions: seq<Action>, i: nat)
    requires Run(states, actions) && i < |states|
    ensures Inv(states[i])
  {
    if i == 0 {
      InitInv(states[0]);
    } else {
      RunInv(states, actions, i - 1);
      assert StepAt(states, actions, i - 1);
      StepKeepsCxnsOk(states[i - 1], actions[i - 1]);
      StepKeepsWorkOk(states[i - 1], actions[i - 1]);
    }
  }
}
