/** Who owns connections, requests and handler contexts: src/server.c, src/server_connection.c,
    src/http_server.c and src/app/password_worker_http.c as one transition system. Memory is explicit: an
    object can be used while its id is in its map, and a use of a freed object has no successor state. */
module Lifetime {
  import opened Common

  type Id = nat

  // `started` counts the responses whose header buffer the connection has been given.
  datatype Conn = Conn(open: bool, request: Option<Id>, started: nat)

  datatype Req = Req(conn: Option<Id>, context: Option<Id>)

  datatype Ctx = Ctx(request: Id)

  datatype Queue = Database | Password

  // Every operation stands for the context whose handler submitted it.
  datatype Ops = Ops(
    dbWaiting: seq<Id>, dbRunning: seq<Id>, dbDone: seq<Id>,
    pwWaiting: seq<Id>, pwRunning: Option<Id>, pwDone: seq<Id>,
    cancelled: set<Id>, pwStopped: bool, dbStopped: bool)

  datatype Readiness = Error | Writable | Readable

  datatype Event = Listen | Signal | Completed(queue: Queue) | Client(conn: Id, ready: Readiness)

  // Where the main thread is. From Closing on it is in destroy_server.
  datatype Phase =
    | Idle
    | Batch(events: seq<Event>)
    | Draining(queue: Queue, events: seq<Event>)
    | Closing | JoiningPassword | LastPassword | JoiningDatabase | LastDatabase | Ended

  datatype State = State(
    conns: map<Id, Conn>, clients: seq<Id>, retired: seq<Id>,
    reqs: map<Id, Req>, ctxs: map<Id, Ctx>, ops: Ops,
    next: Id, freed: multiset<Id>, handled: nat, main: Phase)

  const NO_OPS := Ops([], [], [], [], None, [], {}, false, false)

  function Start(): State {
    State(map[], [], [], map[], map[], NO_OPS, 0, multiset{}, 0, Idle)
  }

  // ---------------------------------------------------------------- the functions of the server

  function Without(ids: seq<Id>, id: Id): seq<Id> {
    if ids == [] then [] else if ids[0] == id then ids[1..] else [ids[0]] + Without(ids[1..], id)
  }

  // http_request_dispose
  function DisposeRequest(s: State, r: Id): Option<State> {
    if r !in s.reqs then None else Some(s.(reqs := s.reqs - {r}, freed := s.freed + multiset{r}))
  }

  // remove_connection
  function RemoveConnection(s: State, c: Id): Option<State> {
    if c !in s.conns then None
    else if !s.conns[c].open then Some(s)
    else Detach(Retire(s, c), s.conns[c].request)
  }

  // Closed, out of the client list and in the list of connections to be freed.
  function Retire(s: State, c: Id): State
    requires c in s.conns
  {
    s.(conns := s.conns[c := s.conns[c].(open := false, request := None)],
       clients := Without(s.clients, c), retired := [c] + s.retired)
  }

  // The request loses its connection; without a context it is disposed of.
  function Detach(s: State, request: Option<Id>): Option<State> {
    match request
    case None => Some(s)
    case Some(r) =>
      if r !in s.reqs then None
      else
        var t := s.(reqs := s.reqs[r := s.reqs[r].(conn := None)]);
        if s.reqs[r].context.Some? then Some(t) else DisposeRequest(t, r)
  }

  // http_request_context_dispose
  function DisposeContext(s: State, x: Id): Option<State> {
    if x !in s.ctxs || s.ctxs[x].request !in s.reqs then None
    else
      var r := s.ctxs[x].request;
      var t := s.(reqs := s.reqs[r := s.reqs[r].(context := None)],
                  ctxs := s.ctxs - {x}, freed := s.freed + multiset{x});
      if s.reqs[r].conn.Some? then Some(t) else DisposeRequest(t, r)
  }

  // reap_connections
  function Reap(s: State): Option<State>
    decreases |s.retired|
  {
    if s.retired == [] then Some(s)
    else
      var c := s.retired[0];
      if c !in s.conns then None
      else Reap(s.(conns := s.conns - {c}, freed := s.freed + multiset{c}, retired := s.retired[1..]))
  }

  // What start_send_http_response meets; a send that blocks but cannot be watched counts as failed.
  datatype Answer = HeaderFailed | AllSent | Blocked | SendFailed

  // A second header buffer would leak the first, so it has no successor either.
  function StartSend(s: State, c: Id, answer: Answer): Option<State> {
    if c !in s.conns || !s.conns[c].open then None
    else if answer == HeaderFailed then RemoveConnection(s, c)
    else if s.conns[c].started > 0 then None
    else
      var t := s.(conns := s.conns[c := s.conns[c].(started := 1)]);
      if answer == Blocked then Some(t) else RemoveConnection(t, c)
  }

  // A handler completes or submits exactly one operation.
  datatype Result = Complete(answer: Answer) | Submit(queue: Queue)

  function Push(s: State, queue: Queue, x: Id): State {
    match queue
    case Database => s.(ops := s.ops.(dbWaiting := s.ops.dbWaiting + [x]))
    case Password => s.(ops := s.ops.(pwWaiting := s.ops.pwWaiting + [x]))
  }

  function Pop(s: State, queue: Queue): State
    requires Done(s.ops, queue) != []
  {
    match queue
    case Database => s.(ops := s.ops.(dbDone := s.ops.dbDone[1..]))
    case Password => s.(ops := s.ops.(pwDone := s.ops.pwDone[1..]))
  }

  function Done(ops: Ops, queue: Queue): seq<Id> {
    match queue
    case Database => ops.dbDone
    case Password => ops.pwDone
  }

  // A request arrives: no memory for it, no handler for it, or a handler for it.
  datatype Arrival = NoMemory | Rejected(answer: Answer) | Routed(result: Result)

  function NewRequest(s: State, c: Id): State
    requires c in s.conns
  {
    s.(conns := s.conns[c := s.conns[c].(request := Some(s.next))],
       reqs := s.reqs[s.next := Req(Some(c), None)], next := s.next + 1)
  }

  function NewContext(s: State, r: Id): State
    requires r in s.reqs
  {
    s.(reqs := s.reqs[r := s.reqs[r].(context := Some(s.next))],
       ctxs := s.ctxs[s.next := Ctx(r)], next := s.next + 1, handled := s.handled + 1)
  }

  // client_handler without a request so far, and http_server_handle_request
  function Arrive(s: State, c: Id, arrival: Arrival): Option<State>
    requires c in s.conns
  {
    match arrival
    case NoMemory => RemoveConnection(s, c)
    case Rejected(answer) => StartSend(NewRequest(s, c), c, answer)
    case Routed(result) =>
      var t := NewContext(NewRequest(s, c), s.next);
      match result
      case Submit(queue) => Some(Push(t, queue, s.next + 1))
      case Complete(answer) =>
        match DisposeContext(t, s.next + 1)
        case None => None
        case Some(u) => StartSend(u, c, answer)
  }

  // One turn of the loops in db_handler and password_worker_handler.
  function DrainOne(s: State, queue: Queue, result: Result): Option<State>
    requires Done(s.ops, queue) != []
  {
    var x, t := Done(s.ops, queue)[0], Pop(s, queue);
    if x !in s.ctxs || s.ctxs[x].request !in s.reqs then None
    else match s.reqs[s.ctxs[x].request].conn
      case None => DisposeContext(t, x)
      case Some(c) =>
        var u := if queue == Password && x in s.ops.cancelled then t else t.(handled := s.handled + 1);
        Continue(u, x, c, result)
  }

  // What the handler of a live connection leads to.
  function Continue(s: State, x: Id, c: Id, result: Result): Option<State> {
    match result
    case Submit(queue) => Some(Push(s, queue, x))
    case Complete(answer) =>
      match StartSend(s, c, answer)
      case None => None
      case Some(t) => DisposeContext(t, x)
  }

  // accept, `n` times
  function Accept(s: State, n: nat): State
    decreases n
  {
    if n == 0 then s
    else
      var t := s.(conns := s.conns[s.next := Conn(true, None, 0)], clients := [s.next] + s.clients, next := s.next + 1);
      Accept(t, n - 1)
  }

  // ---------------------------------------------------------------- steps

  // What the outside contributes to the handling of one event.
  datatype Happening = Accepted(n: nat) | Peeked(gone: bool) | Arrived(arrival: Arrival) | Sent(all: bool) | Nothing

  datatype Label =
    // serve
    | Wait(events: seq<Event>) | Quit | Handle(happening: Happening) | EndBatch | Drain(result: Result) | EndDrain
    // destroy_server
    | Close | StopPassword | PasswordJoined | StopDatabase | DatabaseJoined | Finish
    // the worker threads
    | PasswordTake | PasswordFinish | DatabaseTake | DatabaseFinish(i: nat)

  predicate ResultFits(s: State, queue: Queue, result: Result) {
    && (result == Submit(Password) ==> !s.ops.pwStopped && |s.ops.pwWaiting| < PASSWORD_QUEUE_CAPACITY)
    && (queue == Password && Done(s.ops, queue) != [] && Done(s.ops, queue)[0] in s.ops.cancelled ==> result.Complete?)
  }

  predicate HappeningFits(s: State, e: Event, happening: Happening) {
    match e
    case Listen => happening.Accepted?
    case Client(c, Readable) =>
      c in s.conns && s.conns[c].open ==>
        if s.conns[c].request.Some? then happening.Peeked?
        else
          && happening.Arrived?
          && (happening.arrival == Routed(Submit(Password)) ==>
              !s.ops.pwStopped && |s.ops.pwWaiting| < PASSWORD_QUEUE_CAPACITY)
    case Client(_, Writable) => happening.Sent?
    case _ => happening == Nothing
  }

  // epoll reports registered connections only: those that are open.
  predicate Registered(s: State, e: Event) {
    e.Client? ==> e.conn in s.conns && s.conns[e.conn].open
  }

  predicate Enabled(s: State, workers: nat, l: Label) {
    match l
    case Wait(events) => s.main == Idle && forall i :: 0 <= i < |events| ==> Registered(s, events[i])
    case Quit => s.main == Idle
    case Handle(h) => s.main.Batch? && s.main.events != [] && HappeningFits(s, s.main.events[0], h)
    case EndBatch => s.main == Batch([])
    case Drain(result) =>
      Drained(s.main).Some? && Done(s.ops, Drained(s.main).value) != [] && ResultFits(s, Drained(s.main).value, result)
    case EndDrain => s.main.Draining? && Done(s.ops, s.main.queue) == []
    case Close => s.main == Closing && s.clients != []
    case StopPassword => s.main == Closing && s.clients == []
    case PasswordJoined => s.main == JoiningPassword && s.ops.pwRunning.None?
    case StopDatabase => s.main == LastPassword && s.ops.pwDone == []
    case DatabaseJoined => s.main == JoiningDatabase && s.ops.dbWaiting == [] && s.ops.dbRunning == []
    case Finish => s.main == LastDatabase && s.ops.dbDone == []
    case PasswordTake => s.ops.pwRunning.None? && s.ops.pwWaiting != [] && !s.ops.pwStopped
    case PasswordFinish => s.ops.pwRunning.Some?
    case DatabaseTake => s.ops.dbWaiting != [] && |s.ops.dbRunning| < workers
    case DatabaseFinish(i) => i < |s.ops.dbRunning|
  }

  // The queue that is being drained.
  function Drained(main: Phase): Option<Queue> {
    match main
    case Draining(queue, _) => Some(queue)
    case LastPassword => Some(Password)
    case LastDatabase => Some(Database)
    case _ => None
  }

  function At(s: Option<State>, main: Phase): Option<State> {
    if s.None? then None else Some(s.value.(main := main))
  }

  // One event of the batch.
  function OnEvent(s: State, happening: Happening): Option<State>
    requires s.main.Batch? && s.main.events != [] && HappeningFits(s, s.main.events[0], happening)
  {
    var e, rest := s.main.events[0], s.main.events[1..];
    match e
    case Listen => At(Some(Accept(s, happening.n)), Batch(rest))
    case Signal => At(Reap(s), Closing)
    case Completed(queue) => Some(s.(main := Draining(queue, rest)))
    case Client(c, ready) => if c !in s.conns then None else At(OnClient(s, c, ready, happening), Batch(rest))
  }

  function OnClient(s: State, c: Id, ready: Readiness, happening: Happening): Option<State>
    requires c in s.conns && HappeningFits(s, Client(c, ready), happening)
  {
    if !s.conns[c].open then Some(s)
    else match ready
      case Error => RemoveConnection(s, c)
      case Writable => if happening.all then RemoveConnection(s, c) else Some(s)
      case Readable =>
        if s.conns[c].request.Some? then if happening.gone then RemoveConnection(s, c) else Some(s)
        else Arrive(s, c, happening.arrival)
  }

  // password_worker_stop: what waits is cancelled.
  function CancelWaiting(ops: Ops): Ops {
    ops.(pwWaiting := [], pwDone := ops.pwDone + ops.pwWaiting,
         cancelled := ops.cancelled + (set x | x in ops.pwWaiting), pwStopped := true)
  }

  function OnWorker(ops: Ops, l: Label): Ops
    requires l.PasswordTake? ==> ops.pwWaiting != []
    requires l.PasswordFinish? ==> ops.pwRunning.Some?
    requires l.DatabaseTake? ==> ops.dbWaiting != []
    requires l.DatabaseFinish? ==> l.i < |ops.dbRunning|
  {
    match l
    case PasswordTake => ops.(pwWaiting := ops.pwWaiting[1..], pwRunning := Some(ops.pwWaiting[0]))
    case PasswordFinish => ops.(pwRunning := None, pwDone := ops.pwDone + [ops.pwRunning.value])
    case DatabaseTake => ops.(dbWaiting := ops.dbWaiting[1..], dbRunning := ops.dbRunning + [ops.dbWaiting[0]])
    case DatabaseFinish(i) =>
      ops.(dbRunning := ops.dbRunning[..i] + ops.dbRunning[i + 1..], dbDone := ops.dbDone + [ops.dbRunning[i]])
    case _ => ops
  }

  /** The state after a step; None when the step uses memory it must not use. */
  function Apply(s: State, workers: nat, l: Label): Option<State>
    requires Enabled(s, workers, l)
  {
    match l
    case Wait(events) => Some(s.(main := Batch(events)))
    case Quit => Some(s.(main := Closing))
    case Handle(h) => OnEvent(s, h)
    case EndBatch => At(Reap(s), Idle)
    case Drain(result) => DrainOne(s, Drained(s.main).value, result)
    case EndDrain => Some(s.(main := Batch(s.main.events)))
    case Close => RemoveConnection(s, s.clients[0])
    case StopPassword => Some(s.(ops := CancelWaiting(s.ops), main := JoiningPassword))
    case PasswordJoined => Some(s.(main := LastPassword))
    case StopDatabase => Some(s.(ops := s.ops.(dbStopped := true), main := JoiningDatabase))
    case DatabaseJoined => Some(s.(main := LastDatabase))
    case Finish => At(Reap(s), Ended)
    case _ => Some(s.(ops := OnWorker(s.ops, l)))
  }

  // Each step is enabled when it is taken, as long as nothing goes wrong.
  predicate Possible(s: State, workers: nat, ls: seq<Label>)
    decreases |ls|
  {
    ls == [] ||
    (Enabled(s, workers, ls[0]) &&
     var t := Apply(s, workers, ls[0]);
     t.Some? ==> Possible(t.value, workers, ls[1..]))
  }

  // The end of a run; None as soon as a step goes wrong.
  function Run(s: State, workers: nat, ls: seq<Label>): Option<State>
    requires Possible(s, workers, ls)
    decreases |ls|
  {
    if ls == [] then Some(s)
    else match Apply(s, workers, ls[0])
      case None => None
      case Some(t) => Run(t, workers, ls[1..])
  }
}
