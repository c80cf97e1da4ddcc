/** Runs of the server: no step goes wrong, and destroy_server leaves nothing behind. */
module LifetimeRuns {
  import opened Common
  import opened Lifetime
  import opened LifetimeSafety

  lemma StartInv()
    ensures Inv(Start())
  {
    var s := Start();
    assert forall i: Id :: Copies(s, i) == 0;
    assert multiset(s.ctxs.Keys) == multiset{};
  }

  lemma ClientInv(s: State, c: Id, ready: Readiness, happening: Happening)
    requires Core(s, multiset{}, None) && c in s.conns && HappeningFits(s, Client(c, ready), happening)
    ensures OnClient(s, c, ready, happening).Some?
    ensures var t := OnClient(s, c, ready, happening).value;
      Core(t, multiset{}, None) && t.conns.Keys == s.conns.Keys && t.ops.pwStopped == s.ops.pwStopped
  {
    hide Core, RemoveConnection, Arrive;
    if s.conns[c].open {
      match ready
      case Readable =>
        if s.conns[c].request.None? {
          ArriveCore(s, c, happening.arrival);
        } else if happening.gone {
          RemoveCore(s, c, multiset{}, None);
          RemoveFrame(s, c);
        }
      case _ =>
        RemoveCore(s, c, multiset{}, None);
        RemoveFrame(s, c);
    }
  }

  // Where the main thread is does not matter to the objects.
  lemma MoveCore(s: State, main: Phase)
    requires Core(s, multiset{}, None)
    ensures Core(s.(main := main), multiset{}, None)
  {
    hide Lists, Pointers, IdsFit, Answers;
    SameObjects(s, s.(main := main), None);
  }

  lemma RestFits(s: State, events: seq<Event>)
    requires EventsFit(s, events) && events != []
    ensures EventsFit(s, events[1..])
  {
  }

  lemma EventInv(s: State, happening: Happening)
    requires Inv(s) && s.main.Batch? && s.main.events != [] && HappeningFits(s, s.main.events[0], happening)
    ensures OnEvent(s, happening).Some? && Inv(OnEvent(s, happening).value)
  {
    hide Core, RemoveConnection, Arrive, OnClient;
    var e, rest := s.main.events[0], s.main.events[1..];
    RestFits(s, s.main.events);
    match e
    case Listen =>
      AcceptCore(s, happening.n, multiset{});
      MoveCore(Accept(s, happening.n), Batch(rest));
    case Signal =>
      ReapCore(s, multiset{});
      MoveCore(Reap(s).value, Closing);
    case Completed(queue) => MoveCore(s, Draining(queue, rest));
    case Client(c, ready) =>
      ClientInv(s, c, ready, happening);
      MoveCore(OnClient(s, c, ready, happening).value, Batch(rest));
  }

  lemma OwnersAreClients(s: State)
    requires Core(s, multiset{}, None)
    ensures forall r :: r in s.reqs && s.reqs[r].conn.Some? ==> s.reqs[r].conn.value in s.clients
  {
  }

  // When all connections are closed, completions are only disposed of.
  lemma LastDrain(s: State, queue: Queue, result: Result)
    requires Core(s, multiset{}, None) && s.clients == [] && Done(s.ops, queue) != []
    requires DrainOne(s, queue, result).Some?
    ensures var t := DrainOne(s, queue, result).value;
      t.ops == Pop(s, queue).ops && t.handled == s.handled && t.clients == s.clients
  {
    var x := Done(s.ops, queue)[0];
    var r := s.ctxs[x].request;
    OwnersAreClients(s);
    DisposeFrame(Pop(s, queue), x);
  }

  lemma DrainInv(s: State, result: Result)
    requires Inv(s) && Drained(s.main).Some? && Done(s.ops, Drained(s.main).value) != []
    requires ResultFits(s, Drained(s.main).value, result)
    ensures DrainOne(s, Drained(s.main).value, result).Some?
    ensures Inv(DrainOne(s, Drained(s.main).value, result).value)
  {
    hide Core, DrainOne, ResultFits;
    var queue := Drained(s.main).value;
    DrainCore(s, queue, result);
    if !s.main.Draining? {
      LastDrain(s, queue, result);
    }
  }

  // The worker threads move operations from queue to queue.
  lemma TakePasswordOps(ops: Ops)
    requires ops.pwRunning.None? && ops.pwWaiting != []
    ensures OpIds(OnWorker(ops, PasswordTake)) == OpIds(ops)
  {
    assert ops.pwWaiting == [ops.pwWaiting[0]] + ops.pwWaiting[1..];
  }

  lemma FinishPasswordOps(ops: Ops)
    requires ops.pwRunning.Some?
    ensures OpIds(OnWorker(ops, PasswordFinish)) == OpIds(ops)
  {
  }

  lemma TakeDatabaseOps(ops: Ops)
    requires ops.dbWaiting != []
    ensures OpIds(OnWorker(ops, DatabaseTake)) == OpIds(ops)
  {
    assert ops.dbWaiting == [ops.dbWaiting[0]] + ops.dbWaiting[1..];
  }

  lemma FinishDatabaseOps(ops: Ops, i: nat)
    requires i < |ops.dbRunning|
    ensures OpIds(OnWorker(ops, DatabaseFinish(i))) == OpIds(ops)
  {
    hide OpIds;
    var next := OnWorker(ops, DatabaseFinish(i));
    var x := ops.dbRunning[i];
    RemoveAt(ops.dbRunning, i);
    assert multiset(next.dbDone) == multiset(ops.dbDone) + multiset{x};
    MovesOver(multiset(ops.dbRunning), multiset(next.dbRunning), multiset(ops.dbDone), x);
    SameIds(ops, next);
  }

  lemma MovesOver(from: multiset<Id>, rest: multiset<Id>, to: multiset<Id>, x: Id)
    requires from == rest + multiset{x}
    ensures rest + (to + multiset{x}) == from + to
  {
  }

  lemma SameIds(a: Ops, b: Ops)
    requires b == a.(dbRunning := b.dbRunning, dbDone := b.dbDone)
    requires multiset(b.dbRunning) + multiset(b.dbDone) == multiset(a.dbRunning) + multiset(a.dbDone)
    ensures OpIds(b) == OpIds(a)
  {
    DatabaseIds(a);
    DatabaseIds(b);
  }

  // What the database holds, apart.
  lemma DatabaseIds(ops: Ops)
    ensures OpIds(ops) == multiset(ops.dbRunning) + multiset(ops.dbDone) + OpIds(ops.(dbRunning := [], dbDone := []))
  {
  }

  predicate OfWorker(l: Label) {
    l.PasswordTake? || l.PasswordFinish? || l.DatabaseTake? || l.DatabaseFinish?
  }

  lemma WorkerOps(s: State, workers: nat, l: Label)
    requires Enabled(s, workers, l) && OfWorker(l)
    ensures OpIds(OnWorker(s.ops, l)) == OpIds(s.ops)
  {
    hide OpIds;
    match l
    case PasswordTake => TakePasswordOps(s.ops);
    case PasswordFinish => FinishPasswordOps(s.ops);
    case DatabaseTake => TakeDatabaseOps(s.ops);
    case DatabaseFinish(i) => FinishDatabaseOps(s.ops, i);
    case _ =>
  }

  lemma OpsCore(s: State, ops: Ops)
    requires Core(s, multiset{}, None) && OpIds(ops) == OpIds(s.ops)
    ensures Core(s.(ops := ops), multiset{}, None)
  {
    hide Lists, Pointers, IdsFit, Answers;
    SameObjects(s, s.(ops := ops), None);
  }

  lemma WorkerInv(s: State, workers: nat, l: Label)
    requires Inv(s) && Enabled(s, workers, l) && OfWorker(l)
    ensures Inv(s.(ops := OnWorker(s.ops, l)))
  {
    hide Core, OpIds;
    WorkerOps(s, workers, l);
    OpsCore(s, OnWorker(s.ops, l));
  }

  lemma InvClient(s: State, c: Id)
    requires Inv(s) && c in s.clients
    ensures c in s.conns && s.conns[c].open
  {
  }

  lemma CloseInv(s: State)
    requires Inv(s) && s.main == Closing && s.clients != []
    ensures RemoveConnection(s, s.clients[0]).Some? && Inv(RemoveConnection(s, s.clients[0]).value)
  {
    var c := s.clients[0];
    assert c in s.clients;
    RemoveCore(s, c, multiset{}, None);
    RemoveFrame(s, c);
  }

  lemma StopPasswordInv(s: State)
    requires Inv(s) && s.main == Closing && s.clients == []
    ensures Inv(s.(ops := CancelWaiting(s.ops), main := JoiningPassword))
  {
    assert OpIds(CancelWaiting(s.ops)) == OpIds(s.ops);
    OpsCore(s, CancelWaiting(s.ops));
    MoveCore(s.(ops := CancelWaiting(s.ops)), JoiningPassword);
  }

  // Without operations and connections nobody owns a request any more.
  lemma NothingLeft(t: State)
    requires Core(t, multiset{}, None) && OpIds(t.ops) == multiset{} && t.clients == [] && t.retired == []
    ensures t.conns == map[] && t.reqs == map[] && t.ctxs == map[]
  {
    assert multiset(t.ctxs.Keys) == multiset{};
    assert forall x :: x in t.ctxs <==> x in multiset(t.ctxs.Keys);
    assert t.ctxs == map[];
    assert forall c :: c in t.conns ==> c in t.clients || c in t.retired;
    assert t.conns == map[];
    OwnersAreClients(t);
    assert t.reqs == map[];
  }

  lemma FinishInv(s: State)
    requires Inv(s) && s.main == LastDatabase && s.ops.dbDone == []
    ensures At(Reap(s), Ended).Some? && Inv(At(Reap(s), Ended).value)
  {
    hide Core, Reap;
    ReapCore(s, multiset{});
    var t := Reap(s).value;
    assert OpIds(t.ops) == multiset{};
    NothingLeft(t);
    MoveCore(t, Ended);
  }

  lemma StopDatabaseInv(s: State)
    requires Inv(s) && s.main == LastPassword && s.ops.pwDone == []
    ensures Inv(s.(ops := s.ops.(dbStopped := true), main := JoiningDatabase))
  {
    var ops := s.ops.(dbStopped := true);
    assert OpIds(ops) == OpIds(s.ops);
    hide Core, OpIds;
    OpsCore(s, ops);
    MoveCore(s.(ops := ops), JoiningDatabase);
  }

  lemma DestroyInv(s: State, workers: nat, l: Label)
    requires Inv(s) && Enabled(s, workers, l)
    requires l.Quit? || l.PasswordJoined? || l.StopDatabase? || l.DatabaseJoined?
    ensures Apply(s, workers, l).Some? && Inv(Apply(s, workers, l).value)
  {
    hide Core, OpIds;
    if l.StopDatabase? {
      StopDatabaseInv(s);
    } else {
      MoveCore(s, if l.Quit? then Closing else if l.PasswordJoined? then LastPassword else LastDatabase);
    }
  }

  lemma LoopInv(s: State, workers: nat, l: Label)
    requires Inv(s) && Enabled(s, workers, l) && (l.Wait? || l.EndBatch? || l.EndDrain?)
    ensures Apply(s, workers, l).Some? && Inv(Apply(s, workers, l).value)
  {
    match l
    case Wait(events) => MoveCore(s, Batch(events));
    case EndDrain => MoveCore(s, Batch(s.main.events));
    case EndBatch =>
      ReapCore(s, multiset{});
      MoveCore(Reap(s).value, Idle);
  }

  /** Every step uses live objects only and keeps the invariant. */
  lemma StepInv(s: State, workers: nat, l: Label)
    requires Inv(s) && Enabled(s, workers, l)
    ensures Apply(s, workers, l).Some? && Inv(Apply(s, workers, l).value)
  {
    hide Inv, Reap, RemoveConnection, DrainOne, OnEvent, CancelWaiting;
    match l
    case Handle(happening) => EventInv(s, happening);
    case Drain(result) => DrainInv(s, result);
    case Close => CloseInv(s);
    case StopPassword => StopPasswordInv(s);
    case Finish => FinishInv(s);
    case PasswordTake | PasswordFinish | DatabaseTake | DatabaseFinish(_) => WorkerInv(s, workers, l);
    case Quit | PasswordJoined | StopDatabase | DatabaseJoined => DestroyInv(s, workers, l);
    case Wait(_) | EndBatch | EndDrain => LoopInv(s, workers, l);
  }

  // ---------------------------------------------------------------- whole runs

  lemma {:induction false} RunInv(s: State, workers: nat, ls: seq<Label>)
    requires Inv(s) && Possible(s, workers, ls)
    ensures Run(s, workers, ls).Some? && Inv(Run(s, workers, ls).value)
    decreases |ls|
  {
    if ls != [] {
      StepInv(s, workers, ls[0]);
      RunInv(Apply(s, workers, ls[0]).value, workers, ls[1..]);
    }
  }

  // These steps lead from one state to the other.
  predicate Reaches(s: State, workers: nat, ls: seq<Label>, t: State) {
    Possible(s, workers, ls) && Run(s, workers, ls) == Some(t)
  }

  lemma {:induction false} ReachesFurther(s: State, workers: nat, ls: seq<Label>, t: State, more: seq<Label>, u: State)
    requires Reaches(s, workers, ls, t) && Reaches(t, workers, more, u)
    ensures Reaches(s, workers, ls + more, u)
    decreases |ls|
  {
    if ls == [] {
      assert ls + more == more;
    } else {
      assert (ls + more)[0] == ls[0] && (ls + more)[1..] == ls[1..] + more;
      ReachesFurther(Apply(s, workers, ls[0]).value, workers, ls[1..], t, more, u);
    }
  }

  lemma ReachesNext(s: State, workers: nat, ls: seq<Label>, t: State, l: Label, u: State)
    requires Reaches(s, workers, ls, t) && Enabled(t, workers, l) && Apply(t, workers, l) == Some(u)
    ensures Reaches(s, workers, ls + [l], u)
  {
    assert [l][1..] == [];
    assert Possible(u, workers, []);
    ReachesFurther(s, workers, ls, t, [l], u);
  }

  predicate HasConnection(s: State, r: Id) {
    exists c :: c in s.conns && s.conns[c].request == Some(r)
  }

  predicate HasContext(s: State, r: Id) {
    exists x :: x in s.ctxs && s.ctxs[x].request == r
  }

  // A request lives exactly as long as its connection or its context refers to it.
  lemma LiveWhileOwned(s: State, r: Id)
    requires Inv(s)
    ensures r in s.reqs <==> HasConnection(s, r) || HasContext(s, r)
  {
  }

  /** No run of accepts, arrivals, disconnects, completions, partial writes, reaping and shutdown uses a freed
      object or frees one twice; a request is disposed of exactly when connection and context are both gone;
      the events of the current batch never point to freed connections; no connection has two responses. */
  lemma ServerRuns(workers: nat, ls: seq<Label>)
    requires Possible(Start(), workers, ls)
    ensures Run(Start(), workers, ls).Some?
    ensures var t := Run(Start(), workers, ls).value;
      && (forall i: Id :: i < t.next ==> Copies(t, i) == 1)
      && (forall r: Id :: r in t.reqs <==> HasConnection(t, r) || HasContext(t, r))
      && (t.main.Batch? ==> EventsFit(t, t.main.events))
      && (forall c :: c in t.conns ==> t.conns[c].started <= 1)
  {
    StartInv();
    RunInv(Start(), workers, ls);
    var t := Run(Start(), workers, ls).value;
    forall r: Id ensures r in t.reqs <==> HasConnection(t, r) || HasContext(t, r) {
      LiveWhileOwned(t, r);
    }
  }

  // ---------------------------------------------------------------- blocked responses

  predicate Sending(s: State, c: Id) {
    c in s.conns && s.conns[c].open && s.conns[c].started > 0
  }

  // The request whose response the second vector points into is there, and no handler context can dispose of it.
  predicate ResponseLive(s: State, c: Id)
    requires c in s.conns
  {
    var request := s.conns[c].request;
    request.Some? && request.value in s.reqs && s.reqs[request.value] == Req(Some(c), None)
  }

  /** In every reachable state, what a connection still has to send belongs to a live request. */
  lemma ResponsesLive(workers: nat, ls: seq<Label>)
    requires Possible(Start(), workers, ls)
    ensures Run(Start(), workers, ls).Some?
    ensures var t := Run(Start(), workers, ls).value; forall c :: Sending(t, c) ==> ResponseLive(t, c)
  {
    StartInv();
    RunInv(Start(), workers, ls);
    var t := Run(Start(), workers, ls).value;
    forall c | Sending(t, c) ensures ResponseLive(t, c) {
      SendingIsLive(t, c);
    }
  }

  lemma SendingIsLive(s: State, c: Id)
    requires Core(s, multiset{}, None) && Sending(s, c)
    ensures ResponseLive(s, c)
  {
    assert Answered(s, c);
  }

  // The connection is as it was, or closed.
  predicate Steady(s: State, t: State, c: Id)
    requires c in s.conns
  {
    c in t.conns && (t.conns[c].open ==> t.conns[c] == s.conns[c])
  }

  lemma RemoveSteady(s: State, d: Id, c: Id)
    requires c in s.conns && RemoveConnection(s, d).Some?
    ensures Steady(s, RemoveConnection(s, d).value, c)
  {
  }

  lemma SendSteady(s: State, d: Id, answer: Answer, c: Id)
    requires c in s.conns && c != d && StartSend(s, d, answer).Some?
    ensures Steady(s, StartSend(s, d, answer).value, c)
  {
    var t := s.(conns := if d in s.conns then s.conns[d := s.conns[d].(started := 1)] else s.conns);
    if RemoveConnection(s, d).Some? {
      RemoveSteady(s, d, c);
    }
    if RemoveConnection(t, d).Some? {
      RemoveSteady(t, d, c);
    }
    hide RemoveConnection;
  }

  lemma {:induction false} ReapSteady(s: State, c: Id)
    requires c in s.conns && c !in s.retired && Reap(s).Some?
    ensures Steady(s, Reap(s).value, c)
    decreases |s.retired|
  {
    if s.retired != [] {
      var d := s.retired[0];
      ReapSteady(s.(conns := s.conns - {d}, freed := s.freed + multiset{d}, retired := s.retired[1..]), c);
    }
  }

  lemma {:induction false} AcceptSteady(s: State, n: nat, c: Id)
    requires c in s.conns && c < s.next
    ensures Steady(s, Accept(s, n), c)
    decreases n
  {
    if n > 0 {
      var t := s.(conns := s.conns[s.next := Conn(true, None, 0)], clients := [s.next] + s.clients, next := s.next + 1);
      AcceptSteady(t, n - 1, c);
    }
  }

  lemma ArriveSteady(s: State, d: Id, arrival: Arrival, c: Id)
    requires c in s.conns && d in s.conns && c != d && Arrive(s, d, arrival).Some?
    ensures Steady(s, Arrive(s, d, arrival).value, c)
  {
    var request := NewRequest(s, d);
    var context := NewContext(request, s.next);
    hide StartSend, RemoveConnection;
    match arrival
    case NoMemory => RemoveSteady(s, d, c);
    case Rejected(answer) => SendSteady(request, d, answer, c);
    case Routed(Submit(queue)) =>
    case Routed(Complete(answer)) =>
      DisposeFrame(context, s.next + 1);
      SendSteady(DisposeContext(context, s.next + 1).value, d, answer, c);
  }

  lemma ClientSteady(s: State, d: Id, ready: Readiness, happening: Happening, c: Id)
    requires Inv(s) && Sending(s, c) && d in s.conns && HappeningFits(s, Client(d, ready), happening)
    requires OnClient(s, d, ready, happening).Some?
    ensures Steady(s, OnClient(s, d, ready, happening).value, c)
  {
    SendingIsLive(s, c);
    hide Inv, RemoveConnection, Arrive;
    if RemoveConnection(s, d).Some? {
      RemoveSteady(s, d, c);
    }
    if d != c && happening.Arrived? && Arrive(s, d, happening.arrival).Some? {
      ArriveSteady(s, d, happening.arrival, c);
    }
  }

  lemma EventSteady(s: State, happening: Happening, c: Id)
    requires Inv(s) && Sending(s, c)
    requires s.main.Batch? && s.main.events != [] && HappeningFits(s, s.main.events[0], happening)
    requires OnEvent(s, happening).Some?
    ensures Steady(s, OnEvent(s, happening).value, c)
  {
    assert Copies(s, c) > 0 && c !in s.retired;
    hide OnClient, Accept, Reap;
    match s.main.events[0]
    case Listen => AcceptSteady(s, happening.n, c);
    case Signal => ReapSteady(s, c);
    case Completed(_) =>
    case Client(d, ready) => ClientSteady(s, d, ready, happening, c);
  }

  lemma DisposedIsThere(s: State, x: Id)
    requires DisposeContext(s, x).Some?
    ensures x in s.ctxs
  {
  }

  // The completion in front is of another connection: that of `c` has been answered.
  lemma DrainedElsewhere(s: State, queue: Queue, c: Id)
    requires Inv(s) && Sending(s, c) && Done(s.ops, queue) != [] && Done(s.ops, queue)[0] in s.ctxs
    ensures c in s.conns
    ensures var r := s.ctxs[Done(s.ops, queue)[0]].request; r in s.reqs && s.reqs[r].conn != Some(c)
  {
    SendingIsLive(s, c);
  }

  lemma DrainSteady(s: State, result: Result, c: Id)
    requires Inv(s) && Sending(s, c) && Drained(s.main).Some? && Done(s.ops, Drained(s.main).value) != []
    requires DrainOne(s, Drained(s.main).value, result).Some?
    ensures Steady(s, DrainOne(s, Drained(s.main).value, result).value, c)
  {
    hide Inv, StartSend, DisposeContext, Sending;
    var queue := Drained(s.main).value;
    DrainedElsewhere(s, queue, c);
    var x, t := Done(s.ops, queue)[0], Pop(s, queue);
    var request := s.reqs[s.ctxs[x].request];
    if request.conn.None? {
      DisposeFrame(t, x);
    } else if result.Complete? {
      var u := t.(handled := if queue == Password && x in s.ops.cancelled then s.handled else s.handled + 1);
      SendSteady(u, request.conn.value, result.answer, c);
      var v := StartSend(u, request.conn.value, result.answer).value;
      DisposedIsThere(v, x);
      DisposeFrame(v, x);
    }
  }

  /** No step takes it away: as long as the connection is open, it keeps its request, and the request stays live. */
  lemma ResponseStays(s: State, workers: nat, l: Label, c: Id)
    requires Inv(s) && Enabled(s, workers, l) && Sending(s, c)
    ensures Apply(s, workers, l).Some?
    ensures var t := Apply(s, workers, l).value;
      Steady(s, t, c) && (t.conns[c].open ==> t.conns[c].request == s.conns[c].request && ResponseLive(t, c))
  {
    StepInv(s, workers, l);
    var t := Apply(s, workers, l).value;
    assert c !in s.retired;
    assert Steady(s, t, c) by {
      hide Inv, OnEvent, DrainOne, RemoveConnection, Reap;
      match l
      case Handle(happening) => EventSteady(s, happening, c);
      case Drain(result) => DrainSteady(s, result, c);
      case Close => RemoveSteady(s, s.clients[0], c);
      case EndBatch | Finish => ReapSteady(s, c);
      case _ =>
    }
    if t.conns[c].open {
      SendingIsLive(t, c);
    }
  }

  // ---------------------------------------------------------------- destroy_server

  predicate Destroying(main: Phase) {
    !main.Idle? && !main.Batch? && !main.Draining?
  }

  function Rank(main: Phase): nat {
    match main
    case Closing => 5
    case JoiningPassword => 4
    case LastPassword => 3
    case JoiningDatabase => 2
    case LastDatabase => 1
    case _ => 0
  }

  // An operation is worth one for every queue it has still to leave.
  function Work(ops: Ops): nat {
    3 * |ops.dbWaiting| + 2 * |ops.dbRunning| + |ops.dbDone|
    + 3 * |ops.pwWaiting| + (if ops.pwRunning.Some? then 2 else 0) + |ops.pwDone|
  }

  // How many steps destroy_server and the workers have left at most.
  function StepsLeft(s: State): nat {
    Rank(s.main) + |s.clients| + Work(s.ops)
  }

  lemma {:induction false} WithoutShorter(ids: seq<Id>, id: Id)
    requires id in ids
    ensures |Without(ids, id)| == |ids| - 1
  {
    if ids[0] != id {
      WithoutShorter(ids[1..], id);
    }
  }

  predicate Onward(s: State, t: State) {
    Destroying(t.main) && t.handled == s.handled && t.next == s.next && StepsLeft(t) < StepsLeft(s)
  }

  lemma CloseOnward(s: State)
    requires Inv(s) && s.main == Closing && s.clients != []
    ensures RemoveConnection(s, s.clients[0]).Some? && Onward(s, RemoveConnection(s, s.clients[0]).value)
  {
    hide Inv, RemoveConnection, Work;
    CloseInv(s);
    assert s.clients[0] in s.clients;
    InvClient(s, s.clients[0]);
    RemoveFrame(s, s.clients[0]);
    WithoutShorter(s.clients, s.clients[0]);
  }

  lemma DrainOnward(s: State, result: Result)
    requires Inv(s) && Destroying(s.main) && Drained(s.main).Some? && Done(s.ops, Drained(s.main).value) != []
    requires ResultFits(s, Drained(s.main).value, result)
    ensures DrainOne(s, Drained(s.main).value, result).Some?
    ensures Onward(s, DrainOne(s, Drained(s.main).value, result).value)
  {
    hide Core, ResultFits;
    DrainInv(s, result);
    LastDrain(s, Drained(s.main).value, result);
    DrainKeeps(s, Drained(s.main).value, result);
  }

  lemma DrainKeeps(s: State, queue: Queue, result: Result)
    requires Core(s, multiset{}, None) && s.clients == [] && Done(s.ops, queue) != []
    requires DrainOne(s, queue, result).Some?
    ensures DrainOne(s, queue, result).value.next == s.next && DrainOne(s, queue, result).value.main == s.main
  {
    OwnersAreClients(s);
    DisposeFrame(Pop(s, queue), Done(s.ops, queue)[0]);
  }

  lemma FinishOnward(s: State)
    requires Inv(s) && s.main == LastDatabase
    ensures At(Reap(s), Ended).Some? && Onward(s, At(Reap(s), Ended).value)
  {
    ReapCore(s, multiset{});
  }

  /** While the server is destroyed no handler runs, nothing is allocated, and every step is progress. */
  lemma DestroyStep(s: State, workers: nat, l: Label)
    requires Inv(s) && Destroying(s.main) && Enabled(s, workers, l)
    ensures Apply(s, workers, l).Some? && Onward(s, Apply(s, workers, l).value)
  {
    hide Inv, RemoveConnection, DrainOne, Reap;
    match l
    case Close => CloseOnward(s);
    case Drain(result) => DrainOnward(s, result);
    case Finish => FinishOnward(s);
    case _ =>
  }

  /** As long as destroy_server has not ended, the main thread or a worker can go on. */
  lemma DestroyNeverStuck(s: State, workers: nat) returns (l: Label)
    requires Inv(s) && Destroying(s.main) && s.main != Ended && workers > 0
    ensures Enabled(s, workers, l)
  {
    var answer := Complete(SendFailed);
    l := match s.main
      case Closing => if s.clients != [] then Close else StopPassword
      case JoiningPassword => if s.ops.pwRunning.Some? then PasswordFinish else PasswordJoined
      case LastPassword => if s.ops.pwDone != [] then Drain(answer) else StopDatabase
      case JoiningDatabase =>
        if s.ops.dbRunning != [] then DatabaseFinish(0)
        else if s.ops.dbWaiting != [] then DatabaseTake
        else DatabaseJoined
      case _ => if s.ops.dbDone != [] then Drain(answer) else Finish;
  }

  /** Whatever the interleaving, destroying a server that got into any reachable state ends, without a handler
      running, with every object freed exactly once. */
  lemma {:induction false} DestroyRuns(s: State, workers: nat, ls: seq<Label>)
    requires Inv(s) && Destroying(s.main) && Possible(s, workers, ls)
    ensures |ls| <= StepsLeft(s) && Run(s, workers, ls).Some?
    ensures var t := Run(s, workers, ls).value;
      && Inv(t) && Destroying(t.main) && t.handled == s.handled && t.next == s.next
      && (t.main == Ended ==>
            t.conns == map[] && t.reqs == map[] && t.ctxs == map[]
            && forall i: Id :: t.freed[i] == if i < s.next then 1 else 0)
    decreases |ls|
  {
    if ls != [] {
      DestroyStep(s, workers, ls[0]);
      StepInv(s, workers, ls[0]);
      DestroyRuns(Apply(s, workers, ls[0]).value, workers, ls[1..]);
    } else if s.main == Ended {
      forall i: Id ensures s.freed[i] == if i < s.next then 1 else 0 {
        assert Copies(s, i) == s.freed[i];
      }
    }
  }

  /** There is always a way to the end. */
  lemma {:induction false} DestroyCompletes(s: State, workers: nat) returns (ls: seq<Label>)
    requires Inv(s) && Destroying(s.main) && workers > 0
    ensures Possible(s, workers, ls) && Run(s, workers, ls).Some? && Run(s, workers, ls).value.main == Ended
    decreases StepsLeft(s)
  {
    if s.main == Ended {
      ls := [];
    } else {
      var l := DestroyNeverStuck(s, workers);
      DestroyStep(s, workers, l);
      StepInv(s, workers, l);
      var rest := DestroyCompletes(Apply(s, workers, l).value, workers);
      ls := [l] + rest;
      assert ls[1..] == rest;
    }
  }
}
