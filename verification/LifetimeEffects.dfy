/** What the operations of the server bring about for the connection at hand, said about the state before and the state
    after alone. */
module LifetimeEffects {
  import opened Common
  import opened Lifetime
  import opened LifetimeSafety

  // ---------------------------------------------------------------- new connections

  /** `n` accepts: `n` open connections in front of the others, which stay as they are. */
  lemma {:induction false} AcceptAdds(s: State, n: nat, held: multiset<Id>)
    requires Core(s, held, None)
    ensures var t := Accept(s, n);
      && |t.clients| == |s.clients| + n && t.clients[n..] == s.clients && t.next == s.next + n
      && (forall i :: 0 <= i < n ==>
            t.clients[i] in t.conns && t.clients[i] !in s.conns && t.conns[t.clients[i]] == Conn(true, None, 0))
      && (forall c :: c in s.conns ==> c in t.conns && t.conns[c] == s.conns[c])
      && t.reqs == s.reqs && t.ctxs == s.ctxs && t.ops == s.ops && t.retired == s.retired && t.freed == s.freed
    decreases n
  {
    hide Core;
    if n > 0 {
      var one :=
        s.(conns := s.conns[s.next := Conn(true, None, 0)], clients := [s.next] + s.clients, next := s.next + 1);
      AcceptOne(s, held, one);
      NewIsFree(s, held);
      AcceptAdds(one, n - 1, held);
      var t := Accept(one, n - 1);
      assert t.clients[n..] == t.clients[n - 1..][1..] == s.clients;
      assert t.clients[n - 1] == t.clients[n - 1..][0] == s.next;
    }
  }

  lemma NewIsFree(s: State, held: multiset<Id>)
    requires Core(s, held, None)
    ensures s.next !in s.conns
  {
    NextIsFree(s);
  }

  // ---------------------------------------------------------------- responses

  /** A response closes the connection unless the socket takes only a part of it and can be watched. */
  lemma StartEffect(s: State, c: Id, answer: Answer)
    requires c in s.conns && s.conns[c].open && s.conns[c].started == 0 && StartSend(s, c, answer).Some?
    ensures var t := StartSend(s, c, answer).value;
      && c in t.conns && (t.conns[c].open <==> answer == Blocked)
      && t.conns[c].started == (if answer == HeaderFailed then 0 else 1)
      && (forall d :: d in s.conns && d != c ==> d in t.conns && t.conns[d] == s.conns[d])
      && (t.conns[c].open ==> t.conns[c].request == s.conns[c].request && t.reqs == s.reqs)
      && t.ctxs == s.ctxs && t.ops == s.ops && t.handled == s.handled
  {
  }

  // ---------------------------------------------------------------- requests

  /** A request that is not accepted is answered without a handler. */
  lemma RejectedEffect(s: State, c: Id, answer: Answer)
    requires Core(s, multiset{}, None) && c in s.conns && s.conns[c].open && s.conns[c].request.None?
    requires Arrive(s, c, Rejected(answer)).Some?
    ensures var t := Arrive(s, c, Rejected(answer)).value;
      && c in t.conns && (t.conns[c].open <==> answer == Blocked)
      && t.conns[c].started == (if answer == HeaderFailed then 0 else 1)
      && (t.conns[c].open ==>
            t.conns[c].request == Some(s.next) && s.next in t.reqs && t.reqs[s.next] == Req(Some(c), None))
      && t.ctxs == s.ctxs && t.ops == s.ops && t.handled == s.handled
  {
    hide StartSend, Core;
    NewRequestCore(s, c);
    StartEffect(NewRequest(s, c), c, answer);
  }

  /** A request whose handler completes is answered, and its context is gone. */
  lemma CompletedEffect(s: State, c: Id, answer: Answer)
    requires Core(s, multiset{}, None) && c in s.conns && s.conns[c].open && s.conns[c].request.None?
    requires Arrive(s, c, Routed(Complete(answer))).Some?
    ensures var t := Arrive(s, c, Routed(Complete(answer))).value;
      && c in t.conns && (t.conns[c].open <==> answer == Blocked)
      && t.conns[c].started == (if answer == HeaderFailed then 0 else 1)
      && (t.conns[c].open ==>
            t.conns[c].request == Some(s.next) && s.next in t.reqs && t.reqs[s.next] == Req(Some(c), None))
      && t.ctxs == s.ctxs && t.ops == s.ops && t.handled == s.handled + 1
  {
    hide StartSend, Core;
    NewRequestCore(s, c);
    NotThere(s, c);
    var u := NewContext(NewRequest(s, c), s.next);
    var v := DisposeContext(u, s.next + 1).value;
    assert v.ctxs == s.ctxs && v.reqs[s.next] == Req(Some(c), None);
    StartEffect(v, c, answer);
  }

  lemma NotThere(s: State, c: Id)
    requires Core(s, multiset{}, None)
    ensures s.next + 1 !in s.ctxs
  {
    assert Copies(s, s.next + 1) == 0;
  }

  /** A request whose handler submits waits in that queue, with a context and without a response. */
  lemma SubmittedEffect(s: State, c: Id, queue: Queue)
    requires c in s.conns && s.conns[c].open && s.conns[c].request.None? && s.conns[c].started == 0
    ensures Arrive(s, c, Routed(Submit(queue))).Some?
    ensures var t := Arrive(s, c, Routed(Submit(queue))).value;
      && c in t.conns && t.conns[c] == Conn(true, Some(s.next), 0)
      && s.next in t.reqs && t.reqs[s.next] == Req(Some(c), Some(s.next + 1))
      && s.next + 1 in t.ctxs && t.ctxs[s.next + 1] == Ctx(s.next)
      && t.ops.dbWaiting == s.ops.dbWaiting + (if queue == Database then [s.next + 1] else [])
      && t.ops.pwWaiting == s.ops.pwWaiting + (if queue == Password then [s.next + 1] else [])
      && t.handled == s.handled + 1
  {
  }

  lemma NoMemoryEffect(s: State, c: Id)
    requires c in s.conns && Arrive(s, c, NoMemory).Some?
    ensures var t := Arrive(s, c, NoMemory).value;
      c in t.conns && !t.conns[c].open && t.ctxs == s.ctxs && t.ops == s.ops && t.handled == s.handled
  {
    RemoveFrame(s, c);
  }

  /** The four ends of an arrival. */
  lemma ArriveEffect(s: State, c: Id, arrival: Arrival)
    requires Core(s, multiset{}, None) && c in s.conns && s.conns[c].open && s.conns[c].request.None?
    requires Arrive(s, c, arrival).Some?
    ensures var t := Arrive(s, c, arrival).value;
      && c in t.conns
      && match arrival
         case NoMemory => !t.conns[c].open && t.handled == s.handled && t.ops == s.ops
         case Rejected(answer) =>
           && (t.conns[c].open <==> answer == Blocked)
           && t.conns[c].started == (if answer == HeaderFailed then 0 else 1)
           && t.handled == s.handled && t.ops == s.ops
         case Routed(Complete(answer)) =>
           && (t.conns[c].open <==> answer == Blocked)
           && t.conns[c].started == (if answer == HeaderFailed then 0 else 1)
           && t.handled == s.handled + 1 && t.ops == s.ops
         case Routed(Submit(queue)) =>
           && t.conns[c] == Conn(true, Some(s.next), 0) && t.handled == s.handled + 1
           && s.next + 1 in t.ctxs && t.ctxs[s.next + 1] == Ctx(s.next)
           && t.ops.dbWaiting == s.ops.dbWaiting + (if queue == Database then [s.next + 1] else [])
           && t.ops.pwWaiting == s.ops.pwWaiting + (if queue == Password then [s.next + 1] else [])
  {
    hide Arrive, Core;
    match arrival
    case NoMemory => NoMemoryEffect(s, c);
    case Rejected(answer) => RejectedEffect(s, c, answer);
    case Routed(Complete(answer)) => CompletedEffect(s, c, answer);
    case Routed(Submit(queue)) =>
      NotStarted(s, c);
      SubmittedEffect(s, c, queue);
  }

  lemma NotStarted(s: State, c: Id)
    requires Core(s, multiset{}, None) && c in s.conns && s.conns[c].open && s.conns[c].request.None?
    ensures s.conns[c].started == 0
  {
    assert Answered(s, c);
  }

  // ---------------------------------------------------------------- completions

  /** A completion whose connection is gone: its context goes, and nothing else happens. */
  lemma OrphanEffect(s: State, queue: Queue, result: Result)
    requires Core(s, multiset{}, None) && Done(s.ops, queue) != []
    requires Done(s.ops, queue)[0] in s.ctxs && s.ctxs[Done(s.ops, queue)[0]].request in s.reqs
    requires s.reqs[s.ctxs[Done(s.ops, queue)[0]].request].conn.None?
    ensures DrainOne(s, queue, result).Some?
    ensures var t, x := DrainOne(s, queue, result).value, Done(s.ops, queue)[0];
      && t.conns == s.conns && t.ctxs == s.ctxs - {x} && t.reqs == s.reqs - {s.ctxs[x].request}
      && t.handled == s.handled
  {
  }

  /** A completion whose connection is there: its handler answers or submits again; that of a cancelled job is not
      called, but the answer is given. */
  lemma CompletionEffect(s: State, queue: Queue, result: Result, c: Id)
    requires Core(s, multiset{}, None) && Done(s.ops, queue) != [] && ResultFits(s, queue, result)
    requires Done(s.ops, queue)[0] in s.ctxs && s.ctxs[Done(s.ops, queue)[0]].request in s.reqs
    requires s.reqs[s.ctxs[Done(s.ops, queue)[0]].request].conn == Some(c)
    ensures c in s.conns && s.conns[c].open && s.conns[c].started == 0 && DrainOne(s, queue, result).Some?
    ensures var t, x := DrainOne(s, queue, result).value, Done(s.ops, queue)[0];
      && c in t.conns
      && t.handled == s.handled + (if queue == Password && x in s.ops.cancelled then 0 else 1)
      && match result
         case Complete(answer) =>
           && (t.conns[c].open <==> answer == Blocked)
           && t.conns[c].started == (if answer == HeaderFailed then 0 else 1)
           && t.ctxs == s.ctxs - {x} && t.ops.dbWaiting == s.ops.dbWaiting && t.ops.pwWaiting == s.ops.pwWaiting
         case Submit(further) =>
           && t.conns == s.conns && t.ctxs == s.ctxs
           && t.ops.dbWaiting == s.ops.dbWaiting + (if further == Database then [x] else [])
           && t.ops.pwWaiting == s.ops.pwWaiting + (if further == Password then [x] else [])
  {
    hide Core, StartSend, DisposeContext, Continue, Pop, ResultFits;
    var x := Done(s.ops, queue)[0];
    AwaitsAnswer(s, x, c);
    DrainCore(s, queue, result);
    var u := Pop(s, queue).(handled := s.handled + if queue == Password && x in s.ops.cancelled then 0 else 1);
    PopKeeps(s, queue);
    ContinueEffect(u, x, c, result);
  }

  lemma AwaitsAnswer(s: State, x: Id, c: Id)
    requires Core(s, multiset{}, None) && x in s.ctxs && s.ctxs[x].request in s.reqs
    requires s.reqs[s.ctxs[x].request].conn == Some(c)
    ensures c in s.conns && s.conns[c].open && s.conns[c].started == 0
  {
    assert Answered(s, c);
  }

  lemma PopKeeps(s: State, queue: Queue)
    requires Done(s.ops, queue) != []
    ensures var t := Pop(s, queue);
      t == s.(ops := t.ops) && t.ops.dbWaiting == s.ops.dbWaiting && t.ops.pwWaiting == s.ops.pwWaiting
  {
  }

  lemma ContinueEffect(s: State, x: Id, c: Id, result: Result)
    requires c in s.conns && s.conns[c].open && s.conns[c].started == 0 && Continue(s, x, c, result).Some?
    ensures var t := Continue(s, x, c, result).value;
      && c in t.conns && t.handled == s.handled
      && match result
         case Complete(answer) =>
           && (t.conns[c].open <==> answer == Blocked)
           && t.conns[c].started == (if answer == HeaderFailed then 0 else 1)
           && t.ctxs == s.ctxs - {x} && t.ops == s.ops
         case Submit(further) =>
           && t.conns == s.conns && t.ctxs == s.ctxs
           && t.ops.dbWaiting == s.ops.dbWaiting + (if further == Database then [x] else [])
           && t.ops.pwWaiting == s.ops.pwWaiting + (if further == Password then [x] else [])
  {
    hide StartSend;
    match result
    case Submit(_) =>
    case Complete(answer) =>
      StartEffect(s, c, answer);
      DisposeFrame(StartSend(s, c, answer).value, x);
  }
}
