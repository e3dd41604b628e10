/** The rpki-rtr daemon's connection threads and database worker threads as one
    state machine (bin/rpki-rtr/connection.c, bin/rpki-rtr/db.c).

    A state holds any number of connections and any number of workers, the shared
    request queue, the bag of half-answered requests with its write lock, and the
    counting semaphore the workers sleep on.  An `Action` names one thread and one
    atomic step of that thread; `Enabled` says when it can happen and `Apply` what
    it does.  A request is identified with its connection, because a connection
    owns exactly one `struct db_request`.

    Each connection thread sleeps on a semaphore of its own.  Workers post it after
    they push a response, and the control thread (bin/rpki-rtr/connection_control.c)
    posts it whenever the socket is readable. */
module RtrServer {
  import opened RtrProtocol

  // DB_RESPONSE_BUFFER_LENGTH
  const RESPONSE_BUFFER_LENGTH: nat := 3

  /** `request` counts the connection's requests from 1; it is bookkeeping that the
      threads never read. */
  datatype Response = Response(request: nat, isDone: bool)

  /** Where a connection thread stands. */
  datatype CxnPc =
    | Loop                          // at the head of connection_main_loop, in sem_timedwait or sem_wait
    | Woken(byToken: bool)          // a turn of the loop has begun, with a token or by timeout
    | OwesRequestPost               // add_db_request pushed its request, sem_post still to come
    | GotResponse(response: Response) // popped a response, handle_response not begun
    | Sending(response: Response)   // handle_response is writing the PDUs
    | Resuming                      // handle_response works off the to-process queue
    | Cleanup                       // cleanup() entered, any held response released
    | OwesCancelPost                // cancel_request set, sem_post still to come
    | Draining                      // cleanup() is in sem_wait
    | DrainWoken                    // cleanup() got a token, queue not looked at yet
    | Closed

  datatype Cxn = Cxn(
    pc: CxnPc,
    mode: Mode,
    session: nat,
    cancel: bool,                   // request.cancel_request
    responses: seq<Response>,       // db_response_queue
    toProcess: seq<Query>,          // to_process_queue
    signals: nat,                   // the thread's semaphore
    // history, never read by the threads
    accepted: seq<Query>,           // queries that passed the session check, in arrival order
    submitted: seq<Query>,          // queries pushed on the request queue, in that order
    answered: nat,                  // requests whose final response was pushed
    consumed: seq<Response>,        // responses popped so far
    readable: nat,                  // posts by the control thread so far
    spent: nat)                     // tokens spent on turns that popped no response

  /** Where a worker thread stands. */
  datatype Worker =
    | Asleep                        // in sem_wait
    | Awake                         // got a token, bag not locked yet
    | Scanning(next: nat)           // holds the bag lock, about to read bag[next]'s cancel flag
    | Sizing(at: nat)               // holds the bag lock, bag[at] was not cancelled, size unread
    | FoundNone                     // scan over, nothing serviceable
    | Holding(c: nat)               // service_request entered
    | Cancelling(c: nat)            // saw cancel_request
    | Fetching(c: nat)              // saw no cancel_request, running the query
    | Posting(c: nat, isDone: bool) // response pushed, sem_post on the request's semaphore to come
    | Returning(c: nat)             // non-final response posted, request not yet in the bag
    | OwesPost                      // request back in the bag, sem_post still to come

  datatype Lock = Free | Held(w: nat)

  datatype State = State(
    cxns: seq<Cxn>,
    workers: seq<Worker>,
    tokens: nat,
    queue: seq<nat>,
    bag: seq<nat>,
    lock: Lock)

  /** The steps of a connection thread, and the control thread's post to it. */
  datatype CxnStep =
    | Signal                        // by the control thread: the socket is readable
    | Wait
    | TimeOut
    | Receive(query: Query)
    | PostRequest
    | Pop
    | Pass                          // a turn with no input and no response
    | PostPopped
    | Sent
    | Resume
    | Exit
    | Cancel
    | PostCancel
    | WaitDraining
    | Drain
    | PassDraining
    | Close

  /** The steps of a worker thread. */
  datatype WorkerStep =
    | Wake
    | BeginScan
    | ReadCancel
    | ReadSize
    | EndScan
    | TakeNew
    | Decide
    | SendCancelled
    | SendRows(isDone: bool)
    | PostResponse
    | PutBack(slot: nat)
    | PostWorker

  datatype Action =
    | Connect(session: nat)
    | Spawn
    | ByCxn(c: nat, step: CxnStep)
    | ByWorker(w: nat, does: WorkerStep)

  function NewCxn(session: nat): Cxn {
    Cxn(Loop, Ready, session, false, [], [], 0, [], [], 0, [], 0, 0)
  }

  // ----- connections -----

  /** The end of a turn that popped no response. */
  function Spent(x: Cxn): Cxn {
    if x.pc == Woken(true) then x.(spent := x.spent + 1) else x
  }

  /** add_db_request.  A non-empty response queue is the error branch that ends the
      thread. */
  function AddRequest(x: Cxn, q: Query): Cxn {
    if x.responses != [] then
      x.(pc := Cleanup)
    else
      x.(pc := OwesRequestPost, mode := Responding, cancel := false, submitted := x.submitted + [q])
  }

  /** handle_pdu on a query, at the end of a turn. */
  function HandleQuery(x: Cxn, q: Query): Cxn {
    if WrongSession(x.session, q) then x                // answered with a Cache Reset
    else if x.mode.Responding? then
      x.(toProcess := x.toProcess + [q], accepted := x.accepted + [q])
    else
      AddRequest(x.(accepted := x.accepted + [q]), q)
  }

  /** handle_response's loop over the to-process queue; a new request ends it. */
  function ResumeOne(x: Cxn): Cxn {
    if x.mode.Ready? && x.toProcess != [] then
      var y := x.(toProcess := x.toProcess[1..]);
      if WrongSession(x.session, x.toProcess[0]) then y else AddRequest(y, x.toProcess[0])
    else
      x.(pc := Loop)
  }

  predicate CxnEnabled(x: Cxn, a: CxnStep) {
    match a
    case Signal => true
    case Wait => x.pc.Loop? && x.signals > 0
    case TimeOut => x.pc.Loop? && x.mode.Ready?
    case Receive(_) => x.pc.Woken?
    case PostRequest => x.pc.OwesRequestPost?
    case Pop => x.pc.Woken? && x.mode.Responding? && x.responses != []
    case Pass => x.pc.Woken? && !(x.mode.Responding? && x.responses != [])
    case PostPopped => x.pc.GotResponse?
    case Sent => x.pc.Sending?
    case Resume => x.pc.Resuming?
    case Exit => x.pc.Loop? || x.pc.Woken? || x.pc.Sending? || x.pc.Resuming?
    case Cancel => x.pc.Cleanup? && x.mode.Responding?
    case PostCancel => x.pc.OwesCancelPost?
    case WaitDraining => x.pc.Draining? && x.signals > 0
    case Drain => x.pc.DrainWoken? && x.responses != []
    case PassDraining => x.pc.DrainWoken? && x.responses == []
    case Close => x.pc.Cleanup? && x.mode.Ready?
  }

  /** What a connection's step does to its own record. */
  function CxnNext(x: Cxn, a: CxnStep): Cxn
    requires CxnEnabled(x, a)
  {
    match a
    case Signal => x.(signals := x.signals + 1, readable := x.readable + 1)
    case Wait => x.(pc := Woken(true), signals := x.signals - 1)
    case TimeOut => x.(pc := Woken(false))
    case Receive(q) => HandleQuery(Spent(x).(pc := Loop), q)
    case PostRequest => x.(pc := Loop)
    case Pop =>
      x.(pc := GotResponse(x.responses[0]), responses := x.responses[1..],
         consumed := x.consumed + [x.responses[0]])
    case Pass => Spent(x).(pc := Loop)
    case PostPopped => x.(pc := Sending(x.pc.response))
    case Sent =>
      if x.pc.response.isDone then x.(pc := Resuming, mode := Ready) else x.(pc := Loop)
    case Resume => ResumeOne(x)
    case Exit =>
      Spent(x).(pc := Cleanup, mode := if x.pc.Sending? && x.pc.response.isDone then Ready else x.mode)
    case Cancel => x.(pc := OwesCancelPost, cancel := true)
    case PostCancel => x.(pc := Draining)
    case WaitDraining => x.(pc := DrainWoken, signals := x.signals - 1)
    case Drain =>
      x.(pc := if x.responses[0].isDone then Closed else Draining, responses := x.responses[1..],
         consumed := x.consumed + [x.responses[0]])
    case PassDraining => x.(pc := Draining, spent := x.spent + 1)
    case Close => x.(pc := Closed)
  }

  /** The step is a sem_post on the workers' semaphore. */
  predicate Posts(x: Cxn, a: CxnStep) {
    a.PostRequest? || a.PostCancel? || (a.PostPopped? && x.pc.GotResponse? && !x.pc.response.isDone)
  }

  /** The step pushes the connection's request on the request queue. */
  predicate Submits(x: Cxn, y: Cxn) { y.submitted != x.submitted }

  /** What the rest of the server sees of a connection's step. */
  function WithCxn(s: State, c: nat, y: Cxn, submits: bool, posts: bool): State
    requires c < |s.cxns|
  {
    s.(cxns := s.cxns[c := y],
       tokens := if posts then s.tokens + 1 else s.tokens,
       queue := if submits then s.queue + [c] else s.queue)
  }

  // ----- workers -----

  /** send_response: the push on the connection's response queue. */
  function Push(x: Cxn, isDone: bool): Cxn {
    x.(responses := x.responses + [Response(|x.submitted|, isDone)],
       answered := if isDone then x.answered + 1 else x.answered)
  }

  /** send_response: the sem_post on the connection's semaphore. */
  function Posted(x: Cxn): Cxn {
    x.(signals := x.signals + 1)
  }

  /** find_existing_request_to_service's test on one bag entry. */
  predicate Serviceable(cxns: seq<Cxn>, c: nat) {
    c < |cxns| && (cxns[c].cancel || |cxns[c].responses| < RESPONSE_BUFFER_LENGTH)
  }

  predicate Cancelled(cxns: seq<Cxn>, c: nat) {
    c < |cxns| && cxns[c].cancel
  }

  predicate WorkerEnabled(s: State, w: nat, a: WorkerStep)
    requires w < |s.workers|
  {
    var me := s.workers[w];
    match a
    case Wake => me.Asleep? && s.tokens > 0
    case BeginScan => me.Awake? && s.lock.Free?
    case ReadCancel => me.Scanning? && me.next < |s.bag|
    case ReadSize => me.Sizing? && me.at < |s.bag|
    case EndScan => me.Scanning? && me.next >= |s.bag|
    case TakeNew => me.FoundNone?
    case Decide => me.Holding? && me.c < |s.cxns|
    case SendCancelled => me.Cancelling? && me.c < |s.cxns|
    case SendRows(_) => me.Fetching? && me.c < |s.cxns|
    case PostResponse => me.Posting? && me.c < |s.cxns|
    case PutBack(slot) => me.Returning? && s.lock.Free? && slot <= |s.bag|
    case PostWorker => me.OwesPost?
  }

  /** Bag_erase at index `i`, followed by Bag_stop_iteration. */
  function TakeFromBag(s: State, w: nat, i: nat): State
    requires w < |s.workers| && i < |s.bag|
  {
    s.(workers := s.workers[w := Holding(s.bag[i])], bag := s.bag[..i] + s.bag[i + 1..], lock := Free)
  }

  function SendResponse(s: State, w: nat, c: nat, isDone: bool): State
    requires w < |s.workers| && c < |s.cxns|
  {
    s.(workers := s.workers[w := Posting(c, isDone)], cxns := s.cxns[c := Push(s.cxns[c], isDone)])
  }

  function WorkerNext(s: State, w: nat, a: WorkerStep): State
    requires w < |s.workers| && WorkerEnabled(s, w, a)
  {
    var me := s.workers[w];
    match a
    case Wake => s.(workers := s.workers[w := Awake], tokens := s.tokens - 1)
    case BeginScan => s.(workers := s.workers[w := Scanning(0)], lock := Held(w))
    case ReadCancel =>
      if Cancelled(s.cxns, s.bag[me.next]) then TakeFromBag(s, w, me.next)
      else s.(workers := s.workers[w := Sizing(me.next)])
    case ReadSize =>
      var c := s.bag[me.at];
      if c < |s.cxns| && |s.cxns[c].responses| < RESPONSE_BUFFER_LENGTH then TakeFromBag(s, w, me.at)
      else s.(workers := s.workers[w := Scanning(me.at + 1)])
    case EndScan => s.(workers := s.workers[w := FoundNone], lock := Free)
    case TakeNew =>
      if s.queue == [] then s.(workers := s.workers[w := Asleep])
      else s.(workers := s.workers[w := Holding(s.queue[0])], queue := s.queue[1..])
    case Decide =>
      s.(workers := s.workers[w := if s.cxns[me.c].cancel then Cancelling(me.c) else Fetching(me.c)])
    case SendCancelled => SendResponse(s, w, me.c, true)
    case SendRows(isDone) => SendResponse(s, w, me.c, isDone)
    case PostResponse =>
      WithCxn(s, me.c, Posted(s.cxns[me.c]), false, false)
        .(workers := s.workers[w := if me.isDone then Asleep else Returning(me.c)])
    case PutBack(slot) =>
      s.(workers := s.workers[w := OwesPost], bag := s.bag[..slot] + [me.c] + s.bag[slot..])
    case PostWorker => s.(workers := s.workers[w := Asleep], tokens := s.tokens + 1)
  }

  // ----- the machine -----

  predicate Enabled(s: State, a: Action) {
    match a
    case ByCxn(c, step) => c < |s.cxns| && CxnEnabled(s.cxns[c], step)
    case ByWorker(w, does) => w < |s.workers| && WorkerEnabled(s, w, does)
    case _ => true
  }

  function Apply(s: State, a: Action): State
    requires Enabled(s, a)
  {
    match a
    case Connect(session) => s.(cxns := s.cxns + [NewCxn(session)])
    case Spawn => s.(workers := s.workers + [Asleep])
    case ByCxn(c, step) =>
      var y := CxnNext(s.cxns[c], step);
      WithCxn(s, c, y, Submits(s.cxns[c], y), Posts(s.cxns[c], step))
    case ByWorker(w, does) => WorkerNext(s, w, does)
  }

  predicate Init(s: State) {
    && s.cxns == [] && s.queue == [] && s.bag == [] && s.tokens == 0 && s.lock == Free
    && forall w :: 0 <= w < |s.workers| ==> s.workers[w] == Asleep
  }

  predicate StepAt(states: seq<State>, actions: seq<Action>, i: nat) {
    && i < |actions| && i + 1 < |states|
    && Enabled(states[i], actions[i]) && states[i + 1] == Apply(states[i], actions[i])
  }

  /** A run: states[i + 1] follows from states[i] by actions[i]. */
  ghost predicate Run(states: seq<State>, actions: seq<Action>) {
    && |states| == |actions| + 1
    && Init(states[0])
    && forall i :: 0 <= i < |actions| ==> StepAt(states, actions, i)
  }
}
