/** The server's objects as they lie in memory: connections in a doubly linked list and a retired list,
    requests and contexts with weak pointers to each other. An id is a pointer, a map is the memory of one
    kind of object, and freeing an object removes it. Every method does what the transition system says. */
module ServerHeap {
  import opened Common
  import opened Lifetime
  import opened LifetimeSafety
  import opened LifetimeEffects
  import opened LifetimeRuns
  import SendBuffer

  datatype Connection = Connection(
    open: bool, next: Option<Id>, previous: Option<Id>, retiredNext: Option<Id>, request: Option<Id>, started: nat)

  function ElementAt(list: seq<Id>, i: int): Option<Id> {
    if 0 <= i < |list| then Some(list[i]) else None
  }

  predicate Linked(conns: map<Id, Connection>, head: Option<Id>, list: seq<Id>) {
    && head == ElementAt(list, 0)
    && forall i :: 0 <= i < |list| ==>
         && list[i] in conns
         && conns[list[i]].next == ElementAt(list, i + 1)
         && conns[list[i]].previous == ElementAt(list, i - 1)
  }

  predicate Chained(conns: map<Id, Connection>, head: Option<Id>, list: seq<Id>) {
    && head == ElementAt(list, 0)
    && forall i :: 0 <= i < |list| ==> list[i] in conns && conns[list[i]].retiredNext == ElementAt(list, i + 1)
  }

  function ConnsOf(conns: map<Id, Connection>): map<Id, Conn> {
    map c | c in conns :: Conn(conns[c].open, conns[c].request, conns[c].started)
  }

  // Whether the connection is open after an arrival, and how many handlers have run by then.
  predicate AfterArrival(arrival: Arrival, open: bool, before: nat, after: nat) {
    match arrival
    case NoMemory => !open && after == before
    case Rejected(answer) => (open <==> answer == Blocked) && after == before
    case Routed(Complete(answer)) => (open <==> answer == Blocked) && after == before + 1
    case Routed(Submit(_)) => open && after == before + 1
  }

  class Server {
    var conns: map<Id, Connection>
    var clients: Option<Id>
    var retired: Option<Id>
    var reqs: map<Id, Req>
    var ctxs: map<Id, Ctx>
    var ops: Ops
    var nextId: Id
    ghost var freed: multiset<Id>
    ghost var handled: nat
    ghost var main: Phase
    ghost var clientList: seq<Id>
    ghost var retiredList: seq<Id>

    ghost predicate Valid()
      reads this
    {
      && NoDup(clientList) && NoDup(retiredList) && (forall c :: c in clientList ==> c !in retiredList)
      && Linked(conns, clients, clientList) && Chained(conns, retired, retiredList)
    }

    ghost function View(): State
      reads this
    {
      State(ConnsOf(conns), clientList, retiredList, reqs, ctxs, ops, nextId, freed, handled, main)
    }

    constructor ()
      ensures Valid() && View() == Start() && Inv(View())
    {
      conns, clients, retired, reqs, ctxs, ops, nextId := map[], None, None, map[], map[], NO_OPS, 0;
      freed, handled, main, clientList, retiredList := multiset{}, 0, Idle, [], [];
      new;
      StartInv();
    }

    // http_request_dispose
    method DisposeRequest(r: Id)
      requires Valid() && r in reqs
      modifies `reqs, `freed
      ensures Valid() && View() == Lifetime.DisposeRequest(old(View()), r).value
    {
      reqs := reqs - {r};
      freed := freed + multiset{r};
    }

    // remove_connection
    method RemoveConnection(c: Id)
      requires Valid() && c in conns && Lifetime.RemoveConnection(View(), c).Some?
      requires conns[c].open ==> c in clientList
      modifies `conns, `clients, `retired, `reqs, `freed, `clientList, `retiredList
      ensures Valid() && View() == Lifetime.RemoveConnection(old(View()), c).value
    {
      if !conns[c].open {
        return;
      }
      var request := conns[c].request;
      RetireConnection(c);
      if request.Some? {
        var r := request.value;
        reqs := reqs[r := reqs[r].(conn := None)];
        if reqs[r].context.None? {
          DisposeRequest(r);
        }
      }
    }

    // From the client list to the retired list.
    method RetireConnection(c: Id)
      requires Valid() && c in clientList && c in conns
      modifies `conns, `clients, `retired, `clientList, `retiredList
      ensures Valid() && View() == Retire(old(View()), c)
    {
      hide Linked, Chained, ConnsOf, Without;
      Unlink(c);
      WithoutDrops(old(clientList), c);
      ghost var unlinked := conns;
      conns := conns[c := conns[c].(request := None, retiredNext := retired)];
      ViewOfUpdate(unlinked, c, conns[c]);
      ViewOf(old(conns), c);
      RetiredFirst(unlinked, c, clients, clientList, retired, retiredList, conns);
      ghost var closed := unlinked[c];
      TwoUpdates(
        ConnsOf(old(conns)), c, Conn(false, closed.request, closed.started), Conn(false, None, closed.started));
      retired, retiredList := Some(c), [c] + retiredList;
    }

    // The descriptor is closed and the connection leaves the client list.
    method Unlink(c: Id)
      requires Valid() && c in clientList
      modifies `conns, `clients, `clientList
      ensures c in conns && conns[c] == old(conns[c]).(open := false)
      ensures ConnsOf(conns) == ConnsOf(old(conns))[c := Conn(false, old(conns[c].request), old(conns[c].started))]
      ensures clientList == Without(old(clientList), c)
      ensures Linked(conns, clients, clientList) && Chained(conns, retired, retiredList)
    {
      ghost var i: nat :| i < |clientList| && clientList[i] == c;
      ghost var before := conns;
      conns := conns[c := conns[c].(open := false)];
      var previous, next := conns[c].previous, conns[c].next;
      ghost var closed := conns;
      if previous.Some? {
        conns := conns[previous.value := conns[previous.value].(next := next)];
      } else {
        clients := next;
      }
      ghost var forward := conns;
      if next.Some? {
        conns := conns[next.value := conns[next.value].(previous := previous)];
      }
      assert forward == SetNext(closed, previous, next) && conns == SetPrevious(forward, next, previous);
      NeighboursOf(before, clientList, i);
      BypassKeeps(before, old(clients), clientList, i, closed, forward, conns, clients);
      BypassView(before, c, closed, forward, conns);
      BypassChain(before, c, retired, retiredList, closed, forward, conns);
      clientList := Without(clientList, c);
    }

    // http_request_context_dispose
    method DisposeContext(x: Id)
      requires Valid() && x in ctxs && ctxs[x].request in reqs
      modifies `reqs, `ctxs, `freed
      ensures Valid() && Lifetime.DisposeContext(old(View()), x) == Some(View())
    {
      hide Linked, Chained, ConnsOf, NoDup;
      var r := ctxs[x].request;
      reqs := reqs[r := reqs[r].(context := None)];
      if reqs[r].conn.None? {
        DisposeRequest(r);
      }
      ctxs := ctxs - {x};
      freed := freed + multiset{x};
      assert old(freed) + multiset{x} + multiset{r} == old(freed) + multiset{r} + multiset{x};
    }

    // reap_connections
    method Reap(ghost held: multiset<Id>)
      requires Valid() && Core(View(), held, None)
      modifies `conns, `retired, `freed, `retiredList
      ensures Valid() && Lifetime.Reap(old(View())) == Some(View()) && retiredList == []
    {
      hide Core;
      ReapCore(View(), held);
      while retired.Some?
        invariant Valid() && Core(View(), held, None)
        invariant Lifetime.Reap(View()) == Lifetime.Reap(old(View()))
        decreases |retiredList|
      {
        ghost var s := View();
        var c := retired.value;
        retired := conns[c].retiredNext;
        FreeConnection(c);
        ReapOne(s, held, View());
      }
    }

    // free(conn) for the connection that was first in the retired list
    method FreeConnection(c: Id)
      requires retiredList != [] && c == retiredList[0] && NoDup(clientList) && NoDup(retiredList)
      requires forall d :: d in clientList ==> d !in retiredList
      requires Linked(conns, clients, clientList) && Chained(conns, Some(c), retiredList)
      requires retired == conns[c].retiredNext
      modifies `conns, `freed, `retiredList
      ensures Valid()
      ensures View() == old(View().(
        conns := View().conns - {c}, freed := View().freed + multiset{c}, retired := retiredList[1..]))
    {
      hide Linked, Chained;
      FreeKeepsClients(conns, clients, clientList, c, retiredList);
      FreeKeepsRetired(conns, retiredList);
      ViewOfFree(conns, c);
      conns := conns - {c};
      freed := freed + multiset{c};
      retiredList := retiredList[1..];
    }

    // start_send_http_response
    method StartSend(c: Id, answer: Answer, ghost held: multiset<Id>)
      requires Valid() && Core(View(), held, Some(c)) && c in conns && conns[c].open && conns[c].started == 0
      modifies `conns, `clients, `retired, `reqs, `freed, `clientList, `retiredList
      ensures Valid() && Lifetime.StartSend(old(View()), c, answer) == Some(View())
    {
      ghost var s := View();
      SendCore(s, c, answer, held);
      assert c in clientList;
      if answer == HeaderFailed {
        RemoveConnection(c);
        return;
      }
      SetStarted(c);
      if answer == Blocked {
        return;
      }
      RemoveConnection(c);
    }

    /** start_send_http_response with its bytes: the header, and the body if there is one, go out as far as the socket
        takes them. The connection stays open exactly while there is something left to send, no write has failed and
        the socket is watched from now on. */
    method Respond(c: Id, header: Option<seq<byte>>, body: Option<seq<byte>>, writes: seq<SendBuffer.Write>,
                   watched: bool, ghost held: multiset<Id>) returns (response: Option<SendBuffer.Response>)
      requires Valid() && Core(View(), held, Some(c)) && c in conns && conns[c].open && conns[c].started == 0
      requires header != Some([])
      modifies `conns, `clients, `retired, `reqs, `freed, `clientList, `retiredList
      ensures Valid() && c in conns && (response.Some? <==> header.Some?)
      ensures exists answer :: Lifetime.StartSend(old(View()), c, answer) == Some(View())
      ensures response.None? ==> !conns[c].open && conns[c].started == 0
      ensures response.Some? ==>
        && response.value.Valid() && conns[c].started == 1
        && response.value.whole == header.value + (if body.None? then [] else body.value)
        && (conns[c].open <==>
              response.value.sent != response.value.whole && !SendBuffer.SendFails(writes) && watched)
    {
      hide Core, Lifetime.StartSend, Linked, Chained, ConnsOf, NoDup;
      ghost var s := View();
      NotInView(conns, c);
      ViewOf(conns, c);
      var answer: Answer;
      if header.None? {
        response, answer := None, HeaderFailed;
      } else {
        var r := new SendBuffer.Response(header.value, body);
        var outcome := r.Send(writes);
        response, answer := Some(r), AllSent;
        if outcome == SendBuffer.Partial {
          answer := if watched then Blocked else SendFailed;
        } else if outcome == SendBuffer.Error {
          answer := SendFailed;
        }
      }
      StartSend(c, answer, held);
      StartEffect(s, c, answer);
      NotInView(conns, c);
      ViewOf(conns, c);
    }

    // The connection owns the header buffer from now on.
    method SetStarted(c: Id)
      requires Valid() && c in conns
      modifies `conns
      ensures Valid() && View() == old(View().(conns := View().conns[c := View().conns[c].(started := 1)]))
      ensures c in conns && conns[c] == old(conns[c]).(started := 1)
    {
      ghost var before := conns;
      conns := conns[c := conns[c].(started := 1)];
      ViewOfUpdate(before, c, conns[c]);
    }

    // listen_handler for `n` connections that are waiting
    method Accept(n: nat, ghost held: multiset<Id>)
      requires Valid() && Core(View(), held, None)
      modifies `conns, `clients, `nextId, `clientList
      ensures Valid() && View() == Lifetime.Accept(old(View()), n)
      ensures |clientList| == |old(clientList)| + n && clientList[n..] == old(clientList)
      ensures forall i :: 0 <= i < n ==>
        && clientList[i] !in old(conns) && clientList[i] in conns
        && conns[clientList[i]].open && conns[clientList[i]].request.None? && conns[clientList[i]].started == 0
    {
      hide Core, Linked, Chained, ConnsOf;
      AcceptAdds(View(), n, held);
      var left: nat := n;
      while left > 0
        invariant Valid() && left <= n && Core(View(), held, None)
        invariant Lifetime.Accept(View(), left) == Lifetime.Accept(old(View()), n)
      {
        ghost var s := View();
        NextIsNew(s, held);
        NotInView(conns, nextId);
        AddClient();
        AcceptOne(s, held, View());
        left := left - 1;
      }
      forall i | 0 <= i < n
        ensures clientList[i] !in old(conns) && clientList[i] in conns
        ensures conns[clientList[i]].open && conns[clientList[i]].request.None? && conns[clientList[i]].started == 0
      {
        NotInView(old(conns), clientList[i]);
        NotInView(conns, clientList[i]);
        ViewOf(conns, clientList[i]);
      }
    }

    // A new connection at the front of the client list.
    method AddClient()
      requires Valid() && nextId !in conns && nextId !in retiredList
      modifies `conns, `clients, `nextId, `clientList
      ensures Valid() && View() == old(View().(
        conns := View().conns[nextId := Conn(true, None, 0)], clients := [nextId] + clientList, next := nextId + 1))
    {
      hide Linked, Chained, ConnsOf, NoDup;
      HeadThere(conns, clients, clientList);
      ghost var before := conns;
      conns := conns[nextId := Connection(true, clients, None, None, None, 0)];
      ViewOfUpdate(before, nextId, conns[nextId]);
      ghost var added := conns;
      if clients.Some? {
        var first := clients.value;
        conns := conns[first := conns[first].(previous := Some(nextId))];
      }
      SetPreviousView(added, clients, Some(nextId));
      AddFront(before, clients, clientList, nextId, conns);
      AddKeepsRetired(before, retired, retiredList, nextId, clients, conns);
      clients, clientList := Some(nextId), [nextId] + clientList;
      nextId := nextId + 1;
    }

    // malloc(sizeof(http_request_t)) for a connection
    method AllocateRequest(c: Id) returns (r: Id)
      requires Valid() && c in conns
      modifies `conns, `reqs, `nextId
      ensures Valid() && r == old(nextId) && View() == NewRequest(old(View()), c)
      ensures c in conns && conns[c] == old(conns[c]).(request := Some(r))
    {
      ghost var before := conns;
      r, nextId := nextId, nextId + 1;
      conns := conns[c := conns[c].(request := Some(r))];
      ViewOfUpdate(before, c, conns[c]);
      reqs := reqs[r := Req(Some(c), None)];
    }

    // malloc(sizeof(http_request_context_t)) for a request, whose first handler is then called
    method AllocateContext(r: Id) returns (x: Id)
      requires Valid() && r in reqs
      modifies `reqs, `ctxs, `nextId, `handled
      ensures Valid() && x == old(nextId) && View() == NewContext(old(View()), r)
    {
      hide Linked, Chained, ConnsOf, NoDup;
      x, nextId := nextId, nextId + 1;
      reqs := reqs[r := reqs[r].(context := Some(x))];
      ctxs := ctxs[x := Ctx(r)];
      handled := handled + 1;
    }

    // db_pool_exec_* or password_worker_submit
    method Submit(queue: Queue, x: Id)
      requires Valid()
      modifies `ops
      ensures Valid() && View() == Push(old(View()), queue, x)
    {
      match queue
      case Database => ops := ops.(dbWaiting := ops.dbWaiting + [x]);
      case Password => ops := ops.(pwWaiting := ops.pwWaiting + [x]);
    }

    // http_server_handle_request: the handler completes or submits one operation.
    method Route(c: Id, r: Id, result: Result)
      requires Valid() && Core(View(), multiset{}, Some(c)) && c in conns && conns[c].open && conns[c].started == 0
      requires conns[c].request == Some(r) && r in reqs && reqs[r] == Req(Some(c), None)
      modifies this
      ensures Valid()
      ensures match result
        case Submit(queue) => View() == Push(NewContext(old(View()), r), queue, old(nextId))
        case Complete(answer) =>
          && Lifetime.DisposeContext(NewContext(old(View()), r), old(nextId)).Some?
          && Lifetime.StartSend(Lifetime.DisposeContext(NewContext(old(View()), r), old(nextId)).value, c, answer)
             == Some(View())
    {
      hide Core;
      ghost var s := View();
      NewContextCore(s, c, r);
      var x := AllocateContext(r);
      ghost var t := View();
      match result
      case Submit(queue) => Submit(queue, x);
      case Complete(answer) =>
        DisposeCore(t, x, Some(c));
        DisposeFrame(t, x);
        DisposeContext(x);
        assert conns[c].open == t.conns[c].open && conns[c].started == t.conns[c].started;
        StartSend(c, answer, multiset{});
    }

    /** client_handler for a connection without a request: without memory it is closed; a request that is rejected or
        whose handler completes is answered, and the connection stays open exactly when the answer is blocked; a
        request whose handler submits waits in the queue it was submitted to. */
    method Arrive(c: Id, arrival: Arrival)
      requires Valid() && Core(View(), multiset{}, None) && c in conns && conns[c].open && conns[c].request.None?
      modifies this
      ensures Valid() && Lifetime.Arrive(old(View()), c, arrival) == Some(View())
      ensures c in conns && match arrival
        case NoMemory => !conns[c].open && handled == old(handled) && ops == old(ops)
        case Rejected(answer) =>
          && (conns[c].open <==> answer == Blocked) && conns[c].started == (if answer == HeaderFailed then 0 else 1)
          && handled == old(handled) && ops == old(ops)
        case Routed(Complete(answer)) =>
          && (conns[c].open <==> answer == Blocked) && conns[c].started == (if answer == HeaderFailed then 0 else 1)
          && handled == old(handled) + 1 && ops == old(ops)
        case Routed(Submit(queue)) =>
          && conns[c].open && conns[c].started == 0 && handled == old(handled) + 1
          && ops.dbWaiting == old(ops).dbWaiting + (if queue == Database then [old(nextId) + 1] else [])
          && ops.pwWaiting == old(ops).pwWaiting + (if queue == Password then [old(nextId) + 1] else [])
          && old(nextId) + 1 in ctxs && ctxs[old(nextId) + 1] == Ctx(old(nextId))
          && conns[c].request == Some(old(nextId))
    {
      hide Core, Lifetime.Arrive, Linked, Chained, ConnsOf, NoDup;
      ghost var s := View();
      NotInView(conns, c);
      ViewOf(conns, c);
      ReceiveRequest(c, arrival);
      ArriveEffect(s, c, arrival);
      NotInView(conns, c);
      ViewOf(conns, c);
    }

    method ReceiveRequest(c: Id, arrival: Arrival)
      requires Valid() && Core(View(), multiset{}, None) && c in conns && conns[c].open && conns[c].request.None?
      modifies this
      ensures Valid() && Lifetime.Arrive(old(View()), c, arrival) == Some(View())
    {
      ghost var s := View();
      if arrival == NoMemory {
        assert c in clientList;
        RemovePointers(s, c);
        RemoveConnection(c);
        return;
      }
      NewRequestCore(s, c);
      var r := AllocateRequest(c);
      match arrival
      case Rejected(answer) => StartSend(c, answer, multiset{});
      case Routed(result) => Route(c, r, result);
      case NoMemory =>
    }

    /** One client event of the batch, whose pointer may be to a connection that was closed in this batch. An error
        closes the connection, a writable socket closes it once everything is sent or a write has failed, and a
        readable one that has its request already closes it when anything has come or the peer has gone. */
    method HandleClient(c: Id, ready: Readiness, happening: Happening)
      requires Valid() && Core(View(), multiset{}, None) && c in conns
      requires HappeningFits(View(), Client(c, ready), happening)
      modifies this
      ensures Valid() && OnClient(old(View()), c, ready, happening) == Some(View())
      ensures c in conns && (!old(conns[c].open) ==> View() == old(View()))
      ensures old(conns[c].open) && ready == Error ==> !conns[c].open
      ensures old(conns[c].open) && ready == Writable ==>
        (conns[c].open <==> !happening.all) && (!happening.all ==> View() == old(View()))
      ensures old(conns[c].open && conns[c].request.Some?) && ready == Readable ==>
        (conns[c].open <==> !happening.gone) && (!happening.gone ==> View() == old(View()))
      ensures old(conns[c].open && conns[c].request.None?) && ready == Readable ==>
        && Lifetime.Arrive(old(View()), c, happening.arrival) == Some(View())
        && AfterArrival(happening.arrival, conns[c].open, old(handled), handled)
    {
      RemovePointers(View(), c);
      if !conns[c].open {
        return;
      }
      ghost var s := View();
      RemoveFrame(s, c);
      assert c in clientList;
      match ready
      case Error => RemoveConnection(c);
      case Writable =>
        if happening.all {
          RemoveConnection(c);
        }
      case Readable =>
        if conns[c].request.None? {
          Arrive(c, happening.arrival);
        } else if happening.gone {
          RemoveConnection(c);
        }
    }

    /** EPOLLOUT: the rest of the response goes out as far as the socket takes it. The connection is kept exactly
        while there is something left to send and no write has failed. */
    method SendMore(c: Id, response: SendBuffer.Response, writes: seq<SendBuffer.Write>)
      requires Valid() && Core(View(), multiset{}, None) && c in conns && conns[c].open && response.Valid()
      modifies this, response`iovIndex, response`sent, response.iov
      ensures Valid() && response.Valid() && c in conns
      ensures conns[c].open <==> response.sent != response.whole && !SendBuffer.SendFails(writes)
      ensures conns[c].open ==> View() == old(View())
    {
      var outcome := response.Send(writes);
      HandleClient(c, Writable, Sent(outcome != SendBuffer.Partial));
    }

    // The next completion: db_pool_get_latest_completed_task or password_worker_pop.
    method Take(queue: Queue) returns (x: Id)
      requires Valid() && Done(ops, queue) != []
      modifies `ops
      ensures Valid() && x == Done(old(ops), queue)[0] && View() == Pop(old(View()), queue)
      ensures queue == Database ==> old(ops.dbDone) == [x] + ops.dbDone && ops.pwDone == old(ops.pwDone)
      ensures queue == Password ==> old(ops.pwDone) == [x] + ops.pwDone && ops.dbDone == old(ops.dbDone)
    {
      x := Done(ops, queue)[0];
      match queue
      case Database => ops := ops.(dbDone := ops.dbDone[1..]);
      case Password => ops := ops.(pwDone := ops.pwDone[1..]);
    }

    /** One turn of db_handler or password_worker_handler, for the oldest completion. If its connection is gone, its
        context goes and no handler is called. Otherwise the handler is called, unless the job was cancelled, and either
        answers, which disposes of the context, or submits the next operation to the queue it wants. */
    method HandleCompletion(queue: Queue, result: Result)
      requires Valid() && Core(View(), multiset{}, None) && Done(ops, queue) != [] && ResultFits(View(), queue, result)
      modifies this
      ensures Valid() && DrainOne(old(View()), queue, result) == Some(View())
      ensures var x := Done(old(ops), queue)[0];
        && x in old(ctxs) && old(ctxs)[x].request in old(reqs)
        && match old(reqs)[old(ctxs)[x].request].conn
           case None => ConnsOf(conns) == ConnsOf(old(conns)) && ctxs == old(ctxs) - {x} && handled == old(handled)
           case Some(c) =>
             && c in conns && handled == old(handled) + (if queue == Password && x in old(ops).cancelled then 0 else 1)
             && match result
                case Complete(answer) =>
                  && (conns[c].open <==> answer == Blocked)
                  && conns[c].started == (if answer == HeaderFailed then 0 else 1) && ctxs == old(ctxs) - {x}
                case Submit(further) =>
                  && conns[c].open && conns[c].started == 0 && ctxs == old(ctxs)
                  && ops.dbWaiting == old(ops).dbWaiting + (if further == Database then [x] else [])
                  && ops.pwWaiting == old(ops).pwWaiting + (if further == Password then [x] else [])
    {
      hide Core, DrainOne, ResultFits, Linked, Chained, ConnsOf, NoDup;
      ghost var s, x := View(), Done(ops, queue)[0];
      PopCore(s, queue, s.handled);
      HasRequest(Pop(s, queue), x);
      TakeAndContinue(queue, result);
      match s.reqs[s.ctxs[x].request].conn {
        case None => OrphanEffect(s, queue, result);
        case Some(c) =>
          CompletionEffect(s, queue, result, c);
          NotInView(conns, c);
          ViewOf(conns, c);
      }
    }

    method TakeAndContinue(queue: Queue, result: Result)
      requires Valid() && Core(View(), multiset{}, None) && Done(ops, queue) != [] && ResultFits(View(), queue, result)
      modifies this
      ensures Valid() && DrainOne(old(View()), queue, result) == Some(View())
    {
      hide Core, Lifetime.DisposeContext, Lifetime.Continue, ResultFits, Linked, Chained, ConnsOf, NoDup;
      ghost var s := View();
      PopCore(s, queue, s.handled);
      HasRequest(Pop(s, queue), Done(ops, queue)[0]);
      var x := Take(queue);
      var conn := reqs[ctxs[x].request].conn;
      if conn.None? {
        DisposeContext(x);
        return;
      }
      if !(queue == Password && x in ops.cancelled) {
        handled := handled + 1;
      }
      PopCore(s, queue, handled);
      Continue(x, conn.value, result);
    }

    // The handler, or the answer for a cancelled job.
    method Continue(x: Id, c: Id, result: Result)
      requires Valid() && Core(View(), multiset{x}, None) && x in ctxs && ctxs[x].request in reqs
      requires reqs[ctxs[x].request].conn == Some(c)
      modifies this
      ensures Valid() && Lifetime.Continue(old(View()), x, c, result) == Some(View())
    {
      match result
      case Submit(queue) => Submit(queue, x);
      case Complete(answer) => Answer(x, c, answer);
    }

    // start_send_http_response, then http_request_context_dispose
    method Answer(x: Id, c: Id, answer: Answer)
      requires Valid() && Core(View(), multiset{x}, None) && x in ctxs && ctxs[x].request in reqs
      requires reqs[ctxs[x].request].conn == Some(c)
      modifies this
      ensures Valid() && Lifetime.StartSend(old(View()), c, answer).Some?
      ensures Lifetime.DisposeContext(Lifetime.StartSend(old(View()), c, answer).value, x) == Some(View())
    {
      ghost var s := View();
      CompleteCore(s, x, c, answer);
      AnswerStarts(s, x, c);
      StartSend(c, answer, multiset{x});
      HasRequestAfter(s, x, c, answer);
      DisposeContext(x);
    }

    // ---------------------------------------------------------------- the threads together

    // From here on `ls` are the steps of all threads that have led from `s` to the state of the server.

    // A worker thread takes an operation or finishes one.
    method LetWorker(workers: nat, l: Label, ghost s: State, ghost ls: seq<Label>) returns (ghost more: seq<Label>)
      requires Valid() && Inv(View()) && Reaches(s, workers, ls, View()) && Enabled(View(), workers, l) && OfWorker(l)
      modifies `ops
      ensures Valid() && Inv(View()) && more == ls + [l] && Reaches(s, workers, more, View())
      ensures Work(ops) < Work(old(ops))
    {
      hide Inv, OnWorker, Work, Reaches;
      ghost var t := View();
      WorkerInv(t, workers, l);
      LessWork(t, workers, l);
      ops := OnWorker(ops, l);
      ReachesNext(s, workers, ls, t, l, View());
      more := ls + [l];
    }

    /** Whatever the worker threads do, and for however long, before the main thread goes on. */
    method LetWorkers(workers: nat, ghost s: State, ghost ls: seq<Label>) returns (ghost more: seq<Label>)
      requires Valid() && Inv(View()) && Reaches(s, workers, ls, View())
      modifies `ops
      ensures Valid() && Inv(View()) && Reaches(s, workers, more, View())
      ensures Work(ops) <= Work(old(ops)) && forall l :: l in more ==> l in ls || OfWorker(l)
    {
      hide Inv, OnWorker, Work, Reaches;
      more := ls;
      while *
        invariant Valid() && Inv(View()) && Reaches(s, workers, more, View())
        invariant Work(ops) <= Work(old(ops)) && forall l :: l in more ==> l in ls || OfWorker(l)
        decreases Work(ops)
      {
        var l: Label;
        if {
          case ops.pwRunning.None? && ops.pwWaiting != [] && !ops.pwStopped => l := PasswordTake;
          case ops.pwRunning.Some? => l := PasswordFinish;
          case ops.dbWaiting != [] && |ops.dbRunning| < workers => l := DatabaseTake;
          case ops.dbRunning != [] =>
            var i: nat :| i < |ops.dbRunning|;
            l := DatabaseFinish(i);
          case true => break;
        }
        more := LetWorker(workers, l, s, more);
      }
    }

    /** db_handler and password_worker_handler: the loop over the completions, which goes on for those that the
        workers add meanwhile. The handlers want `wishes`; when these are used up they only answer. */
    method HandleCompletions(workers: nat, queue: Queue, wishes: seq<Result>, ghost s: State, ghost ls: seq<Label>)
      returns (ghost more: seq<Label>)
      requires Valid() && Inv(View()) && Reaches(s, workers, ls, View()) && Drained(main) == Some(queue)
      modifies this
      ensures Valid() && Inv(View()) && Reaches(s, workers, more, View()) && main == old(main) && Done(ops, queue) == []
      ensures forall l :: l in more ==> l in ls || OfWorker(l) || l.Drain?
    {
      hide Inv, DrainOne, ResultFits, Core, Work, Reaches, OfWorker;
      var k: nat := 0;
      more := LetWorkers(workers, s, ls);
      while Done(ops, queue) != []
        invariant Valid() && Inv(View()) && Reaches(s, workers, more, View()) && main == old(main) && k <= |wishes|
        invariant forall l :: l in more ==> l in ls || OfWorker(l) || l.Drain?
        decreases |wishes| - k, Work(ops)
      {
        var wish := Complete(AllSent);
        if k < |wishes| {
          wish, k := wishes[k], k + 1;
        }
        more := Turn(workers, queue, wish, s, more);
        more := LetWorkers(workers, s, more);
      }
    }

    method Turn(workers: nat, queue: Queue, wish: Result, ghost s: State, ghost ls: seq<Label>)
      returns (ghost more: seq<Label>)
      requires Valid() && Inv(View()) && Reaches(s, workers, ls, View())
      requires Drained(main) == Some(queue) && Done(ops, queue) != []
      modifies this
      ensures Valid() && Inv(View()) && Reaches(s, workers, more, View()) && main == old(main)
      ensures more == ls + [Drain(Fitting(old(ops), queue, wish))]
      ensures wish.Complete? ==> Work(ops) < Work(old(ops))
    {
      hide Inv, DrainOne, ResultFits, Core, Work, Reaches;
      ghost var t := View();
      var result := Fitting(ops, queue, wish);
      FittingFits(t, queue, wish);
      DrainInv(t, result);
      InvCore(t);
      DrainCore(t, queue, result);
      CompleteShrinks(t, queue, result);
      HandleCompletion(queue, result);
      ReachesNext(s, workers, ls, t, Drain(result), View());
      more := ls + [Drain(result)];
    }

    // ---------------------------------------------------------------- serve

    /** One event of a batch, whatever it meets outside. */
    method HandleEvent(workers: nat, o: Outside, ghost s: State, ghost ls: seq<Label>) returns (ghost more: seq<Label>)
      requires Valid() && Inv(View()) && Reaches(s, workers, ls, View())
      requires main.Batch? && main.events != [] && main.events[0] == o.event
      modifies this
      ensures Valid() && Inv(View()) && Reaches(s, workers, more, View())
      ensures main == if o.event == Signal then Closing else Batch(old(main.events)[1..])
      ensures o.event == Listen && o.happening.Accepted? ==> |clientList| == |old(clientList)| + o.happening.n
      ensures o.event.Client? ==> o.event.conn in old(conns) && o.event.conn in conns
      ensures o.event.Client? && old(conns)[o.event.conn].open ==>
        && (o.event.ready == Error ==> !conns[o.event.conn].open)
        && (o.event.ready == Writable && o.happening.Sent? ==> (conns[o.event.conn].open <==> !o.happening.all))
        && (o.event.ready == Readable && old(conns)[o.event.conn].request.Some? && o.happening.Peeked? ==>
              (conns[o.event.conn].open <==> !o.happening.gone))
        && (o.event.ready == Readable && old(conns)[o.event.conn].request.None? && o.happening.Arrived?
            && !(o.happening.arrival == Routed(Result.Submit(Password)) && PasswordRefused(old(ops))) ==>
              AfterArrival(o.happening.arrival, conns[o.event.conn].open, old(handled), handled))
    {
      hide Inv, Reaches, ConnsOf, Valid, HappeningFits, OnEvent;
      ghost var t, rest := View(), main.events[1..];
      EventConnection(t);
      var happening := Fits(conns, ops, o);
      HappeningFitting(conns, t, o);
      EventInv(t, happening);
      Meet(o.event, happening);
      ReachesNext(s, workers, ls, t, Handle(happening), View());
      more := ls + [Handle(happening)];
      if o.event.Completed? {
        more := HandleCompletions(workers, o.event.queue, o.wishes, s, more);
        more := EndDraining(workers, s, more);
      }
    }

    // The switch over the kinds of events.
    method Meet(e: Event, happening: Happening)
      requires Valid() && Inv(View()) && main.Batch? && main.events != [] && main.events[0] == e
      requires HappeningFits(View(), e, happening)
      modifies this
      ensures Valid() && OnEvent(old(View()), happening) == Some(View())
      ensures main == match e
        case Signal => Closing
        case Completed(queue) => Draining(queue, old(main.events)[1..])
        case _ => Batch(old(main.events)[1..])
      ensures e == Listen ==> |clientList| == |old(clientList)| + happening.n
      ensures e.Client? ==> e.conn in old(conns) && e.conn in conns
      ensures e.Client? && old(conns)[e.conn].open ==>
        && (e.ready == Error ==> !conns[e.conn].open)
        && (e.ready == Writable ==> (conns[e.conn].open <==> !happening.all))
        && (e.ready == Readable && old(conns)[e.conn].request.Some? ==> (conns[e.conn].open <==> !happening.gone))
        && (e.ready == Readable && old(conns)[e.conn].request.None? ==>
              AfterArrival(happening.arrival, conns[e.conn].open, old(handled), handled))
    {
      hide Core, Inv, OnClient, Lifetime.Accept, Lifetime.Reap, Linked, Chained, ConnsOf, NoDup, Lifetime.Arrive;
      ghost var t, rest := View(), main.events[1..];
      InvCore(t);
      EventConnection(t);
      if e.Client? {
        NotInView(conns, e.conn);
      }
      match e {
        case Listen =>
          Accept(happening.n, multiset{});
          main := Batch(rest);
        case Signal =>
          Reap(multiset{});
          main := Closing;
        case Completed(queue) => main := Draining(queue, rest);
        case Client(c, ready) =>
          HandleClient(c, ready, happening);
          main := Batch(rest);
      }
    }

    method EndDraining(workers: nat, ghost s: State, ghost ls: seq<Label>) returns (ghost more: seq<Label>)
      requires Valid() && Inv(View()) && Reaches(s, workers, ls, View()) && main.Draining?
      requires Done(ops, main.queue) == []
      modifies `main
      ensures Valid() && Inv(View()) && Reaches(s, workers, more, View()) && main == Batch(old(main.events))
    {
      hide Inv, Reaches;
      ghost var t := View();
      LoopInv(t, workers, EndDrain);
      main := Batch(main.events);
      ReachesNext(s, workers, ls, t, EndDrain, View());
      more := ls + [EndDrain];
    }

    /** The events of one epoll_wait, up to a signal, and reap_connections behind them; the workers go on meanwhile. */
    method HandleBatch(workers: nat, batch: seq<Outside>, ghost s: State, ghost ls: seq<Label>)
      returns (running: bool, ghost more: seq<Label>)
      requires Valid() && Inv(View()) && Reaches(s, workers, ls, View()) && main == Batch(EventsOf(batch))
      modifies this
      ensures Valid() && Inv(View()) && Reaches(s, workers, more, View())
      ensures main == if running then Idle else Closing
      ensures running <==> Signal !in EventsOf(batch)
    {
      hide Inv, Reaches, Valid;
      more := ls;
      assert batch[0..] == batch;
      for k := 0 to |batch|
        invariant Valid() && Inv(View()) && Reaches(s, workers, more, View()) && main == Batch(EventsOf(batch[k..]))
        invariant forall i :: 0 <= i < k ==> batch[i].event != Signal
      {
        FirstEvent(batch, k);
        more := HandleEvent(workers, batch[k], s, more);
        if batch[k].event == Signal {
          assert EventsOf(batch)[k] == Signal;
          return false, more;
        }
        more := LetWorkers(workers, s, more);
      }
      more := EndOfBatch(workers, s, more);
      running := true;
    }

    method EndOfBatch(workers: nat, ghost s: State, ghost ls: seq<Label>) returns (ghost more: seq<Label>)
      requires Valid() && Inv(View()) && Reaches(s, workers, ls, View()) && main == Batch([])
      modifies this
      ensures Valid() && Inv(View()) && Reaches(s, workers, more, View()) && main == Idle
    {
      hide Core, Inv, Lifetime.Reap, Reaches;
      ghost var t := View();
      InvCore(t);
      LoopInv(t, workers, EndBatch);
      Reap(multiset{});
      main := Idle;
      ReachesNext(s, workers, ls, t, EndBatch, View());
      more := ls + [EndBatch];
    }

    // epoll_wait reports events, of connections that are registered.
    method WaitForEvents(workers: nat, candidates: seq<Outside>, ghost s: State, ghost ls: seq<Label>)
      returns (batch: seq<Outside>, ghost more: seq<Label>)
      requires Valid() && Inv(View()) && Reaches(s, workers, ls, View()) && main == Idle
      modifies `main
      ensures Valid() && Inv(View()) && Reaches(s, workers, more, View()) && main == Batch(EventsOf(batch))
      ensures batch == Reported(conns, candidates)
      ensures forall o :: o in batch <==>
        o in candidates && (o.event.Client? ==> o.event.conn in conns && conns[o.event.conn].open)
    {
      hide Inv, Reaches, Linked, Chained, Reported, Registered, ConnsOf;
      ghost var t := View();
      batch := Reported(conns, candidates);
      ReportedExactly(conns, candidates);
      WaitEnabled(conns, t, workers, candidates);
      LoopInv(t, workers, Wait(EventsOf(batch)));
      main := Batch(EventsOf(batch));
      ReachesNext(s, workers, ls, t, Wait(EventsOf(batch)), View());
      more := ls + [Wait(EventsOf(batch))];
    }

    /** serve: batch after batch until a signal comes or epoll_wait fails. */
    method Serve(workers: nat, batches: seq<seq<Outside>>, ghost s: State, ghost ls: seq<Label>)
      returns (ghost more: seq<Label>)
      requires Valid() && Inv(View()) && Reaches(s, workers, ls, View()) && main == Idle
      modifies this
      ensures Valid() && Inv(View()) && Reaches(s, workers, more, View()) && main == Closing
    {
      hide Inv, Reaches, Valid, Reported;
      more := ls;
      for k := 0 to |batches|
        invariant Valid() && Inv(View()) && Reaches(s, workers, more, View()) && main == Idle
      {
        more := LetWorkers(workers, s, more);
        var batch, running;
        batch, more := WaitForEvents(workers, batches[k], s, more);
        more := LetWorkers(workers, s, more);
        running, more := HandleBatch(workers, batch, s, more);
        if !running {
          return;
        }
      }
      more := LeaveLoop(workers, s, more);
    }

    method LeaveLoop(workers: nat, ghost s: State, ghost ls: seq<Label>) returns (ghost more: seq<Label>)
      requires Valid() && Inv(View()) && Reaches(s, workers, ls, View()) && main == Idle
      modifies `main
      ensures Valid() && Inv(View()) && Reaches(s, workers, more, View()) && main == Closing
    {
      hide Inv, Reaches;
      ghost var t := View();
      DestroyInv(t, workers, Quit);
      main := Closing;
      ReachesNext(s, workers, ls, t, Quit, View());
      more := ls + [Quit];
    }

    /** A server from its start to its end, whatever happens outside and whenever the workers move: the linked lists go
        through a run of the transition system, at whose end every object has been freed exactly once. */
    static method ServeAndDestroy(workers: nat, batches: seq<seq<Outside>>)
      returns (server: Server, ghost ls: seq<Label>)
      requires workers > 0
      ensures server.Valid() && Reaches(Start(), workers, ls, server.View()) && server.main == Ended
      ensures server.conns == map[] && server.reqs == map[] && server.ctxs == map[]
      ensures forall i: Id :: server.freed[i] == if i < server.nextId then 1 else 0
    {
      server := new Server();
      assert Reaches(Start(), workers, [], Start());
      hide Inv, Reaches;
      ls := server.Serve(workers, batches, Start(), []);
      ghost var t := server.View();
      ghost var more := server.Destroy(workers);
      ReachesFurther(Start(), workers, ls, t, more, server.View());
      ls := ls + more;
    }

    // ---------------------------------------------------------------- destroy_server

    /** destroy_server with any number of workers: whatever they do between the steps of the main thread, this is a
        run of the transition system to its end. Nothing is left, every object has been freed exactly once, and no
        handler has run. */
    method Destroy(workers: nat) returns (ghost ls: seq<Label>)
      requires Valid() && Inv(View()) && main == Closing && workers > 0
      modifies this
      ensures Valid() && Reaches(old(View()), workers, ls, View()) && main == Ended
      ensures conns == map[] && reqs == map[] && ctxs == map[] && handled == old(handled) && nextId == old(nextId)
      ensures forall i: Id :: freed[i] == if i < nextId then 1 else 0
    {
      ghost var s := View();
      ls := RunDestroy(workers, s, []);
      hide Inv, Reaches, Valid;
      AllFreed(s, workers, ls, View());
      NoConns(conns);
    }

    method RunDestroy(workers: nat, ghost s: State, ghost begun: seq<Label>) returns (ghost ls: seq<Label>)
      requires Valid() && Inv(View()) && Reaches(s, workers, begun, View()) && main == Closing && workers > 0
      modifies this
      ensures Valid() && Inv(View()) && Reaches(s, workers, ls, View()) && main == Ended
    {
      hide Inv, Reaches, Valid, OfWorker, ConnsOf;
      ls := CloseAll(workers, s, begun);
      ls := StopPasswordWorker(workers, s, ls);
      ls := HandleCompletions(workers, Password, [], s, ls);
      ls := StopDatabasePool(workers, s, ls);
      ls := HandleCompletions(workers, Database, [], s, ls);
      ls := ReapLast(workers, s, ls);
    }

    // while (srv->clients) remove_connection(srv, srv->clients);
    method CloseAll(workers: nat, ghost s: State, ghost ls: seq<Label>) returns (ghost more: seq<Label>)
      requires Valid() && Inv(View()) && Reaches(s, workers, ls, View()) && main == Closing
      modifies this
      ensures Valid() && Inv(View()) && Reaches(s, workers, more, View()) && main == Closing && clientList == []
    {
      hide Inv, Reaches;
      more := LetWorkers(workers, s, ls);
      while clients.Some?
        invariant Valid() && Inv(View()) && Reaches(s, workers, more, View()) && main == Closing
        decreases |clientList|
      {
        more := CloseFirst(workers, s, more);
        more := LetWorkers(workers, s, more);
      }
    }

    method CloseFirst(workers: nat, ghost s: State, ghost ls: seq<Label>) returns (ghost more: seq<Label>)
      requires Valid() && Inv(View()) && Reaches(s, workers, ls, View()) && main == Closing && clients.Some?
      modifies this
      ensures Valid() && Inv(View()) && Reaches(s, workers, more, View()) && main == Closing
      ensures |clientList| == |old(clientList)| - 1
    {
      hide Inv, Reaches;
      ghost var t := View();
      CloseInv(t);
      assert clients.value == clientList[0] && clients.value in clientList;
      InvClient(t, clients.value);
      RemoveFrame(t, clients.value);
      WithoutShorter(clientList, clients.value);
      RemoveConnection(clients.value);
      ReachesNext(s, workers, ls, t, Close, View());
      more := ls + [Close];
    }

    // The main thread goes on to the next part of destroy_server.
    method MoveOn(workers: nat, l: Label, ghost s: State, ghost ls: seq<Label>) returns (ghost more: seq<Label>)
      requires Valid() && Inv(View()) && Reaches(s, workers, ls, View()) && Enabled(View(), workers, l)
      requires l.PasswordJoined? || l.StopDatabase? || l.DatabaseJoined?
      modifies `ops, `main
      ensures Valid() && Inv(View()) && Reaches(s, workers, more, View())
      ensures Apply(old(View()), workers, l) == Some(View())
    {
      hide Inv, Reaches;
      ghost var t := View();
      DestroyInv(t, workers, l);
      if l.StopDatabase? {
        ops := ops.(dbStopped := true);
        main := JoiningDatabase;
      } else {
        main := if l.PasswordJoined? then LastPassword else LastDatabase;
      }
      ReachesNext(s, workers, ls, t, l, View());
      more := ls + [l];
    }

    // The critical section of password_worker_stop.
    method CancelJobs(workers: nat, ghost s: State, ghost ls: seq<Label>) returns (ghost more: seq<Label>)
      requires Valid() && Inv(View()) && Reaches(s, workers, ls, View()) && main == Closing && clientList == []
      modifies `ops, `main
      ensures Valid() && Inv(View()) && Reaches(s, workers, more, View())
      ensures main == JoiningPassword && ops == CancelWaiting(old(ops))
      ensures ops.pwStopped && ops.pwWaiting == [] && ops.pwDone == old(ops.pwDone) + old(ops.pwWaiting)
      ensures forall x :: x in ops.cancelled <==> x in old(ops.cancelled) || x in old(ops.pwWaiting)
    {
      hide Inv, Reaches;
      ghost var t := View();
      StopPasswordInv(t);
      ops := CancelWaiting(ops);
      main := JoiningPassword;
      ReachesNext(s, workers, ls, t, StopPassword, View());
      more := ls + [StopPassword];
    }

    // password_worker_stop: what waits is cancelled, what runs is waited for.
    method StopPasswordWorker(workers: nat, ghost s: State, ghost ls: seq<Label>) returns (ghost more: seq<Label>)
      requires Valid() && Inv(View()) && Reaches(s, workers, ls, View()) && main == Closing && clientList == []
      modifies `ops, `main
      ensures Valid() && Inv(View()) && Reaches(s, workers, more, View()) && main == LastPassword
    {
      hide Inv, Reaches, Work;
      more := CancelJobs(workers, s, ls);
      more := LetWorkers(workers, s, more);
      while ops.pwRunning.Some?
        invariant Valid() && Inv(View()) && Reaches(s, workers, more, View()) && main == JoiningPassword
        decreases Work(ops)
      {
        more := LetWorker(workers, PasswordFinish, s, more);
        more := LetWorkers(workers, s, more);
      }
      more := MoveOn(workers, PasswordJoined, s, more);
    }

    // db_pool_stop: the workers go on until their queue is empty.
    method StopDatabasePool(workers: nat, ghost s: State, ghost ls: seq<Label>) returns (ghost more: seq<Label>)
      requires Valid() && Inv(View()) && Reaches(s, workers, ls, View()) && workers > 0
      requires main == LastPassword && ops.pwDone == []
      modifies `ops, `main
      ensures Valid() && Inv(View()) && Reaches(s, workers, more, View()) && main == LastDatabase
    {
      hide Inv, Reaches, Work;
      more := MoveOn(workers, StopDatabase, s, ls);
      more := LetWorkers(workers, s, more);
      while ops.dbRunning != [] || ops.dbWaiting != []
        invariant Valid() && Inv(View()) && Reaches(s, workers, more, View()) && main == JoiningDatabase
        decreases Work(ops)
      {
        more := LetWorker(workers, if ops.dbRunning != [] then DatabaseFinish(0) else DatabaseTake, s, more);
        more := LetWorkers(workers, s, more);
      }
      more := MoveOn(workers, DatabaseJoined, s, more);
    }

    // The connections that were closed last.
    method ReapLast(workers: nat, ghost s: State, ghost ls: seq<Label>) returns (ghost more: seq<Label>)
      requires Valid() && Inv(View()) && Reaches(s, workers, ls, View()) && main == LastDatabase && ops.dbDone == []
      modifies this
      ensures Valid() && Inv(View()) && Reaches(s, workers, more, View()) && main == Ended
    {
      hide Core, Inv, Lifetime.Reap, Reaches;
      ghost var t := View();
      InvCore(t);
      FinishInv(t);
      Reap(multiset{});
      main := Ended;
      ReachesNext(s, workers, ls, t, Finish, View());
      more := ls + [Finish];
    }
  }

  lemma LessWork(s: State, workers: nat, l: Label)
    requires Enabled(s, workers, l) && OfWorker(l)
    ensures Work(OnWorker(s.ops, l)) < Work(s.ops)
  {
  }

  // A turn without a further operation.
  lemma CompleteShrinks(s: State, queue: Queue, result: Result)
    requires Core(s, multiset{}, None) && Done(s.ops, queue) != [] && DrainOne(s, queue, result).Some?
    ensures result.Complete? ==> Work(DrainOne(s, queue, result).value.ops) < Work(s.ops)
  {
    hide Core, DrainOne;
    if result.Complete? {
      DrainOps(s, queue, result);
    }
  }

  lemma DrainOps(s: State, queue: Queue, result: Result)
    requires Done(s.ops, queue) != [] && DrainOne(s, queue, result).Some? && result.Complete?
    ensures DrainOne(s, queue, result).value.ops == Pop(s, queue).ops
  {
    hide Lifetime.Continue, Lifetime.DisposeContext;
    var x, t := Done(s.ops, queue)[0], Pop(s, queue);
    DisposeOnly(t, x);
    match s.reqs[s.ctxs[x].request].conn
    case None =>
    case Some(c) =>
      ContinueOps(t, x, c, result);
      ContinueOps(t.(handled := t.handled + 1), x, c, result);
  }

  lemma ContinueOps(s: State, x: Id, c: Id, result: Result)
    ensures result.Complete? && Lifetime.Continue(s, x, c, result).Some? ==>
      Lifetime.Continue(s, x, c, result).value.ops == s.ops
  {
    hide StartSend, Lifetime.DisposeContext;
    if result.Complete? && StartSend(s, c, result.answer).Some? {
      SendOnly(s, c, result.answer);
      DisposeOnly(StartSend(s, c, result.answer).value, x);
    }
  }

  // Neither touches the operations.
  lemma DisposeOnly(s: State, x: Id)
    ensures Lifetime.DisposeContext(s, x).Some? ==> Lifetime.DisposeContext(s, x).value.ops == s.ops
  {
  }

  lemma SendOnly(s: State, c: Id, answer: Answer)
    ensures StartSend(s, c, answer).Some? ==> StartSend(s, c, answer).value.ops == s.ops
  {
  }

  lemma NoConns(conns: map<Id, Connection>)
    requires ConnsOf(conns) == map[]
    ensures conns == map[]
  {
    assert ConnsOf(conns).Keys == conns.Keys;
  }

  // A server that has been destroyed has freed whatever it allocated.
  lemma AllFreed(s: State, workers: nat, ls: seq<Label>, t: State)
    requires Inv(s) && s.main == Closing && Reaches(s, workers, ls, t) && t.main == Ended
    ensures t.conns == map[] && t.reqs == map[] && t.ctxs == map[] && t.handled == s.handled && t.next == s.next
    ensures forall i: Id :: t.freed[i] == if i < s.next then 1 else 0
  {
    DestroyRuns(s, workers, ls);
  }

  // One reported event with what the outside contributes to it: what the handling of the event meets, and what the
  // handlers of completions want.
  datatype Outside = Outside(event: Event, happening: Happening, wishes: seq<Result>)

  function EventsOf(batch: seq<Outside>): (events: seq<Event>)
    ensures |events| == |batch|
  {
    seq(|batch|, i requires 0 <= i < |batch| => batch[i].event)
  }

  lemma FirstEvent(batch: seq<Outside>, k: nat)
    requires k < |batch|
    ensures var events := EventsOf(batch[k..]);
      events != [] && events[0] == batch[k].event && events[1..] == EventsOf(batch[k + 1..])
  {
  }

  // password_worker_submit refuses.
  predicate PasswordRefused(ops: Ops) {
    ops.pwStopped || |ops.pwWaiting| >= PASSWORD_QUEUE_CAPACITY
  }

  // Only what can happen at an event does: a wish of the wrong kind is replaced.
  function Fits(conns: map<Id, Connection>, ops: Ops, o: Outside): Happening {
    match o.event
    case Listen => if o.happening.Accepted? then o.happening else Accepted(0)
    case Client(c, Writable) => if o.happening.Sent? then o.happening else Sent(true)
    case Client(c, Readable) =>
      if c in conns && conns[c].request.Some? then if o.happening.Peeked? then o.happening else Peeked(true)
      else if !o.happening.Arrived? then Arrived(NoMemory)
      else if o.happening.arrival == Routed(Submit(Password)) && PasswordRefused(ops)
      then Arrived(Routed(Complete(AllSent)))
      else o.happening
    case _ => Nothing
  }

  lemma HappeningFitting(conns: map<Id, Connection>, s: State, o: Outside)
    requires s.conns == ConnsOf(conns)
    ensures HappeningFits(s, o.event, Fits(conns, s.ops, o))
  {
  }

  // The events that epoll can report.
  function Reported(conns: map<Id, Connection>, candidates: seq<Outside>): seq<Outside> {
    if candidates == [] then []
    else
      var e, rest := candidates[0].event, Reported(conns, candidates[1..]);
      if e.Client? && !(e.conn in conns && conns[e.conn].open) then rest else [candidates[0]] + rest
  }

  lemma {:induction false} ReportedExactly(conns: map<Id, Connection>, candidates: seq<Outside>)
    ensures forall o :: o in Reported(conns, candidates) <==>
      o in candidates && (o.event.Client? ==> o.event.conn in conns && conns[o.event.conn].open)
  {
    if candidates != [] {
      ReportedExactly(conns, candidates[1..]);
      assert candidates == [candidates[0]] + candidates[1..];
    }
  }

  lemma {:induction false} AllRegistered(conns: map<Id, Connection>, s: State, candidates: seq<Outside>)
    requires s.conns == ConnsOf(conns)
    ensures forall o :: o in Reported(conns, candidates) ==> Registered(s, o.event)
  {
    if candidates != [] {
      AllRegistered(conns, s, candidates[1..]);
    }
  }

  lemma WaitEnabled(conns: map<Id, Connection>, s: State, workers: nat, candidates: seq<Outside>)
    requires s.conns == ConnsOf(conns) && s.main == Idle
    ensures Enabled(s, workers, Wait(EventsOf(Reported(conns, candidates))))
  {
    hide ConnsOf, Registered, Reported;
    AllRegistered(conns, s, candidates);
    var batch := Reported(conns, candidates);
    assert forall i :: 0 <= i < |batch| ==> EventsOf(batch)[i] == batch[i].event && batch[i] in batch;
  }

  lemma EventConnection(s: State)
    requires Inv(s) && s.main.Batch? && s.main.events != []
    ensures s.main.events[0].Client? ==> s.main.events[0].conn in s.conns
  {
  }

  lemma NextIsNew(s: State, held: multiset<Id>)
    requires Core(s, held, None)
    ensures s.next !in s.conns && s.next !in s.retired
  {
    assert Copies(s, s.next) == 0;
  }

  lemma NotInView(conns: map<Id, Connection>, id: Id)
    ensures id in ConnsOf(conns) <==> id in conns
  {
  }

  // Retiring a connection that is in neither list any more.
  lemma RetiredFirst(conns: map<Id, Connection>, c: Id, clients: Option<Id>, clientList: seq<Id>,
                     retired: Option<Id>, retiredList: seq<Id>, after: map<Id, Connection>)
    requires Linked(conns, clients, clientList) && Chained(conns, retired, retiredList) && c !in retiredList
    requires c in conns && after == conns[c := conns[c].(request := None, retiredNext := retired)]
    ensures Linked(after, clients, clientList) && Chained(after, Some(c), [c] + retiredList)
  {
    var list := [c] + retiredList;
    forall i | 0 <= i < |list|
      ensures list[i] in after && after[list[i]].retiredNext == ElementAt(list, i + 1)
    {
      assert ElementAt(list, i + 1) == ElementAt(retiredList, i);
      assert i > 0 ==> list[i] == retiredList[i - 1];
    }
  }

  lemma HeadThere(conns: map<Id, Connection>, head: Option<Id>, list: seq<Id>)
    requires Linked(conns, head, list)
    ensures head.Some? ==> head.value in conns
  {
  }

  lemma InvCore(s: State)
    requires Inv(s)
    ensures Core(s, multiset{}, None)
  {
  }

  lemma AnswerStarts(s: State, x: Id, c: Id)
    requires Core(s, multiset{x}, None) && x in s.ctxs && s.ctxs[x].request in s.reqs
    requires s.reqs[s.ctxs[x].request].conn == Some(c)
    ensures Core(s, multiset{x}, Some(c)) && c in s.conns && s.conns[c].open && s.conns[c].started == 0
  {
    assert s.conns[c].open && Answered(s, c);
  }

  lemma HasRequestAfter(s: State, x: Id, c: Id, answer: Answer)
    requires Core(s, multiset{x}, Some(c)) && x in s.ctxs && c in s.conns && s.conns[c].open && s.conns[c].started == 0
    ensures StartSend(s, c, answer).Some?
    ensures var t := StartSend(s, c, answer).value;
      x in t.ctxs && t.ctxs[x].request in t.reqs
  {
    SendCore(s, c, answer, multiset{x});
  }

  // A handler that cannot submit what it wants to completes instead; a cancelled one only answers.
  function Fitting(ops: Ops, queue: Queue, wish: Result): Result {
    if wish == Submit(Password) && PasswordRefused(ops) then Complete(AllSent)
    else if wish.Submit? && queue == Password && ops.pwDone != [] && ops.pwDone[0] in ops.cancelled
    then Complete(AllSent)
    else wish
  }

  lemma FittingFits(s: State, queue: Queue, wish: Result)
    ensures ResultFits(s, queue, Fitting(s.ops, queue, wish))
  {
  }

  function SetNext(conns: map<Id, Connection>, p: Option<Id>, next: Option<Id>): map<Id, Connection> {
    if p.Some? && p.value in conns then conns[p.value := conns[p.value].(next := next)] else conns
  }

  function SetPrevious(conns: map<Id, Connection>, n: Option<Id>, previous: Option<Id>): map<Id, Connection> {
    if n.Some? && n.value in conns then conns[n.value := conns[n.value].(previous := previous)] else conns
  }

  // `closed` is `conns` with one connection closed, `after` the same without it in the list.
  ghost predicate Bypass(conns: map<Id, Connection>, c: Id, closed: map<Id, Connection>,
                         forward: map<Id, Connection>, after: map<Id, Connection>)
  {
    && c in conns && closed == conns[c := conns[c].(open := false)]
    && forward == SetNext(closed, conns[c].previous, conns[c].next)
    && after == SetPrevious(forward, conns[c].next, conns[c].previous)
  }

  lemma NeighboursOf(conns: map<Id, Connection>, list: seq<Id>, i: nat)
    requires NoDup(list) && i < |list| && Linked(conns, ElementAt(list, 0), list)
    ensures conns[list[i]].previous == ElementAt(list, i - 1) && conns[list[i]].next == ElementAt(list, i + 1)
    ensures ElementAt(list, i - 1) != Some(list[i]) && ElementAt(list, i + 1) != Some(list[i])
  {
  }

  lemma BypassView(conns: map<Id, Connection>, c: Id, closed: map<Id, Connection>,
                   forward: map<Id, Connection>, after: map<Id, Connection>)
    requires Bypass(conns, c, closed, forward, after)
    ensures ConnsOf(after) == ConnsOf(conns)[c := Conn(false, conns[c].request, conns[c].started)]
    ensures conns[c].previous != Some(c) && conns[c].next != Some(c) ==> after[c] == conns[c].(open := false)
  {
    hide ConnsOf;
    ViewOfUpdate(conns, c, closed[c]);
    SetNextView(closed, conns[c].previous, conns[c].next);
    SetPreviousView(forward, conns[c].next, conns[c].previous);
  }

  lemma BypassChain(conns: map<Id, Connection>, c: Id, head: Option<Id>, list: seq<Id>, closed: map<Id, Connection>,
                    forward: map<Id, Connection>, after: map<Id, Connection>)
    requires Chained(conns, head, list) && Bypass(conns, c, closed, forward, after)
    ensures Chained(after, head, list)
  {
    hide Chained, SetNext, SetPrevious;
    SetNextChain(closed, head, list, conns[c].previous, conns[c].next);
    ClosedChain(conns, head, list, c);
    SetPreviousChain(forward, head, list, conns[c].next, conns[c].previous);
  }

  // The retired list does not use the fields that change.
  lemma ClosedChain(conns: map<Id, Connection>, head: Option<Id>, list: seq<Id>, c: Id)
    requires Chained(conns, head, list) && c in conns
    ensures Chained(conns[c := conns[c].(open := false)], head, list)
  {
  }

  lemma SetNextChain(conns: map<Id, Connection>, head: Option<Id>, list: seq<Id>, p: Option<Id>, next: Option<Id>)
    ensures Chained(conns, head, list) ==> Chained(SetNext(conns, p, next), head, list)
  {
  }

  lemma SetPreviousChain(conns: map<Id, Connection>, head: Option<Id>, list: seq<Id>, n: Option<Id>, p: Option<Id>)
    ensures Chained(conns, head, list) ==> Chained(SetPrevious(conns, n, p), head, list)
  {
  }

  lemma BypassLinks(conns: map<Id, Connection>, c: Id, closed: map<Id, Connection>,
                    forward: map<Id, Connection>, after: map<Id, Connection>, p: Option<Id>, n: Option<Id>)
    requires Bypass(conns, c, closed, forward, after) && conns[c].previous == p && conns[c].next == n
    requires (p.Some? ==> p.value in conns) && (n.Some? ==> n.value in conns)
    ensures after.Keys == conns.Keys
    ensures forall d :: d in conns ==>
      && after[d].next == (if p == Some(d) then n else conns[d].next)
      && after[d].previous == (if n == Some(d) then p else conns[d].previous)
  {
    assert forall d :: d in conns ==> closed[d].next == conns[d].next && closed[d].previous == conns[d].previous;
    assert forall d :: d in conns ==>
      forward[d].next == (if p == Some(d) then n else conns[d].next) && forward[d].previous == conns[d].previous;
  }

  lemma BypassGoesAround(conns: map<Id, Connection>, head: Option<Id>, list: seq<Id>, i: nat,
                         closed: map<Id, Connection>,
                         forward: map<Id, Connection>, after: map<Id, Connection>)
    requires NoDup(list) && Linked(conns, head, list) && i < |list| && Bypass(conns, list[i], closed, forward, after)
    ensures GoesAround(conns, list, i, after) && list[i] in conns && head == ElementAt(list, 0)
    ensures conns[list[i]].previous == ElementAt(list, i - 1) && conns[list[i]].next == ElementAt(list, i + 1)
  {
    hide NoDup, Bypass;
    NeighboursOf(conns, list, i);
    var p, n := ElementAt(list, i - 1), ElementAt(list, i + 1);
    assert p.Some? ==> list[i - 1] in conns;
    assert n.Some? ==> list[i + 1] in conns;
    BypassLinks(conns, list[i], closed, forward, after, p, n);
  }

  lemma BypassKeeps(conns: map<Id, Connection>, head: Option<Id>, list: seq<Id>, i: nat, closed: map<Id, Connection>,
                    forward: map<Id, Connection>, after: map<Id, Connection>, newHead: Option<Id>)
    requires NoDup(list) && Linked(conns, head, list) && i < |list| && Bypass(conns, list[i], closed, forward, after)
    requires newHead == if conns[list[i]].previous.None? then conns[list[i]].next else head
    ensures Linked(after, newHead, Without(list, list[i]))
  {
    hide Linked, Without, Bypass, GoesAround, NoDup;
    BypassGoesAround(conns, head, list, i, closed, forward, after);
    UnlinkKeeps(conns, head, list, i, after, newHead);
  }

  lemma {:induction false} WithoutAt(list: seq<Id>, i: nat)
    requires NoDup(list) && i < |list|
    ensures Without(list, list[i]) == list[..i] + list[i + 1..]
  {
    if i > 0 {
      var rest := list[1..];
      assert list[0] != list[i] && rest[i - 1] == list[i];
      WithoutAt(rest, i - 1);
      assert list[..i] == [list[0]] + rest[..i - 1] && rest[i..] == list[i + 1..];
    }
  }

  lemma ViewOfUpdate(conns: map<Id, Connection>, c: Id, k: Connection)
    ensures ConnsOf(conns[c := k]) == ConnsOf(conns)[c := Conn(k.open, k.request, k.started)]
  {
  }

  lemma ViewOf(conns: map<Id, Connection>, c: Id)
    requires c in conns
    ensures c in ConnsOf(conns) && ConnsOf(conns)[c] == Conn(conns[c].open, conns[c].request, conns[c].started)
  {
  }

  lemma TwoUpdates(conns: map<Id, Conn>, c: Id, k: Conn, l: Conn)
    ensures conns[c := k][c := l] == conns[c := l]
  {
  }

  lemma SetNextView(conns: map<Id, Connection>, p: Option<Id>, next: Option<Id>)
    ensures ConnsOf(SetNext(conns, p, next)) == ConnsOf(conns) && SetNext(conns, p, next).Keys == conns.Keys
  {
  }

  lemma SetPreviousView(conns: map<Id, Connection>, n: Option<Id>, previous: Option<Id>)
    ensures ConnsOf(SetPrevious(conns, n, previous)) == ConnsOf(conns)
    ensures SetPrevious(conns, n, previous).Keys == conns.Keys
  {
  }

  lemma FreeKeepsClients(conns: map<Id, Connection>, head: Option<Id>, list: seq<Id>, c: Id, others: seq<Id>)
    requires Linked(conns, head, list) && c in others && forall d :: d in list ==> d !in others
    ensures Linked(conns - {c}, head, list)
  {
    assert forall i :: 0 <= i < |list| ==> list[i] in list && list[i] != c;
  }

  lemma FreeKeepsRetired(conns: map<Id, Connection>, list: seq<Id>)
    requires list != [] && NoDup(list) && Chained(conns, Some(list[0]), list)
    ensures list[0] in conns && Chained(conns - {list[0]}, conns[list[0]].retiredNext, list[1..])
    ensures NoDup(list[1..]) && list[0] in list && forall d :: d in list[1..] ==> d in list
  {
    assert forall i :: 0 < i < |list| ==> list[i] != list[0];
  }

  function Added(conns: map<Id, Connection>, head: Option<Id>, id: Id): map<Id, Connection> {
    var added := conns[id := Connection(true, head, None, None, None, 0)];
    if head.Some? && head.value in added then added[head.value := added[head.value].(previous := Some(id))] else added
  }

  lemma AddFront(conns: map<Id, Connection>, head: Option<Id>, list: seq<Id>, id: Id, after: map<Id, Connection>)
    requires NoDup(list) && Linked(conns, head, list) && id !in conns && after == Added(conns, head, id)
    ensures Linked(after, Some(id), [id] + list) && NoDup([id] + list)
  {
    var long := [id] + list;
    forall j: nat | j < |long| ensures LinkAt(after, long, j) {
      assert j > 0 ==> long[j] == list[j - 1] && long[j] != id;
      assert ElementAt(long, j + 1) == ElementAt(list, j);
      assert j > 0 ==> ElementAt(long, j - 1) == if j == 1 then Some(id) else ElementAt(list, j - 2);
    }
    LinkedOf(after, Some(id), long);
  }

  lemma AddKeepsRetired(conns: map<Id, Connection>, retired: Option<Id>, list: seq<Id>, id: Id, head: Option<Id>,
                        after: map<Id, Connection>)
    requires Chained(conns, retired, list) && id !in conns && after == Added(conns, head, id)
    ensures Chained(after, retired, list)
  {
  }

  lemma ViewOfFree(conns: map<Id, Connection>, c: Id)
    ensures ConnsOf(conns - {c}) == ConnsOf(conns) - {c}
  {
  }

  // The links in `after` go around element `i` of the list in both directions.
  ghost predicate GoesAround(conns: map<Id, Connection>, list: seq<Id>, i: nat, after: map<Id, Connection>) {
    && after.Keys == conns.Keys
    && forall d :: d in conns ==>
         && after[d].next == (if ElementAt(list, i - 1) == Some(d) then ElementAt(list, i + 1) else conns[d].next)
         && after[d].previous ==
              (if ElementAt(list, i + 1) == Some(d) then ElementAt(list, i - 1) else conns[d].previous)
  }

  // Going around an element takes it out of the list.
  lemma UnlinkKeeps(conns: map<Id, Connection>, head: Option<Id>, list: seq<Id>, i: nat,
                    after: map<Id, Connection>, newHead: Option<Id>)
    requires NoDup(list) && Linked(conns, head, list) && i < |list| && GoesAround(conns, list, i, after)
    requires newHead == if i == 0 then ElementAt(list, 1) else head
    ensures Linked(after, newHead, Without(list, list[i]))
  {
    WithoutAt(list, i);
    var short := list[..i] + list[i + 1..];
    assert newHead == ElementAt(short, 0);
    hide Linked, NoDup, GoesAround;
    forall j: nat | j < |short| ensures LinkAt(after, short, j) {
      LinkAround(conns, head, list, i, after, j);
    }
    LinkedOf(after, newHead, short);
  }

  predicate LinkAt(conns: map<Id, Connection>, list: seq<Id>, j: nat)
    requires j < |list|
  {
    && list[j] in conns
    && conns[list[j]].next == ElementAt(list, j + 1)
    && conns[list[j]].previous == ElementAt(list, j - 1)
  }

  lemma LinkedOf(conns: map<Id, Connection>, head: Option<Id>, list: seq<Id>)
    requires head == ElementAt(list, 0) && forall j: nat :: j < |list| ==> LinkAt(conns, list, j)
    ensures Linked(conns, head, list)
  {
    forall i | 0 <= i < |list|
      ensures list[i] in conns
      ensures conns[list[i]].next == ElementAt(list, i + 1) && conns[list[i]].previous == ElementAt(list, i - 1)
    {
      assert LinkAt(conns, list, i);
    }
  }

  lemma Shortened(list: seq<Id>, i: nat, j: nat, short: seq<Id>)
    requires i < |list| && j < |list| - 1 && short == list[..i] + list[i + 1..]
    ensures short[j] == list[if j < i then j else j + 1]
    ensures ElementAt(short, j + 1) == ElementAt(list, if j + 1 < i then j + 1 else j + 2)
    ensures ElementAt(short, j - 1) == ElementAt(list, if j - 1 < i then j - 1 else j)
  {
  }

  lemma OthersAt(list: seq<Id>, i: nat, k: nat)
    requires NoDup(list) && i < |list| && k < |list|
    ensures ElementAt(list, i - 1) == Some(list[k]) <==> k == i - 1
    ensures ElementAt(list, i + 1) == Some(list[k]) <==> k == i + 1
  {
  }

  lemma LinkAround(conns: map<Id, Connection>, head: Option<Id>, list: seq<Id>, i: nat, after: map<Id, Connection>,
                   j: nat)
    requires NoDup(list) && Linked(conns, head, list) && i < |list| && GoesAround(conns, list, i, after)
    requires j < |list| - 1
    ensures LinkAt(after, list[..i] + list[i + 1..], j)
  {
    var k := if j < i then j else j + 1;
    Shortened(list, i, j, list[..i] + list[i + 1..]);
    OthersAt(list, i, k);
    assert list[k] in conns;
    assert after[list[k]].next == if k == i - 1 then ElementAt(list, i + 1) else ElementAt(list, k + 1);
  }
}
