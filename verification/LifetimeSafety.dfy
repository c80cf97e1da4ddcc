/** Every run of the server uses live objects only, and frees each of them exactly once. */
module LifetimeSafety {
  import opened Common
  import opened Lifetime

  // ---------------------------------------------------------------- the invariant

  // The client list holds the open connections, the retired list the closed ones; none has had two responses.
  ghost predicate Lists(s: State) {
    && (forall c :: c in s.conns ==> s.conns[c].started <= 1)
    && NoDup(s.clients) && NoDup(s.retired)
    && (forall c :: c in s.clients <==> c in s.conns && s.conns[c].open)
    && (forall c :: c in s.retired <==> c in s.conns && !s.conns[c].open)
  }

  predicate ConnsToReqs(s: State) {
    forall c :: c in s.conns && s.conns[c].request.Some? ==>
      && s.conns[c].open && s.conns[c].request.value in s.reqs
      && s.reqs[s.conns[c].request.value].conn == Some(c)
  }

  predicate ReqsToConns(s: State) {
    forall r :: r in s.reqs && s.reqs[r].conn.Some? ==>
      s.reqs[r].conn.value in s.conns && s.conns[s.reqs[r].conn.value].request == Some(r)
  }

  predicate ReqsToCtxs(s: State) {
    forall r :: r in s.reqs && s.reqs[r].context.Some? ==>
      s.reqs[r].context.value in s.ctxs && s.ctxs[s.reqs[r].context.value].request == r
  }

  predicate CtxsToReqs(s: State) {
    forall x :: x in s.ctxs ==> s.ctxs[x].request in s.reqs && s.reqs[s.ctxs[x].request].context == Some(x)
  }

  // Weak references come in pairs, and a live request has at least one owner.
  predicate Pointers(s: State) {
    && ConnsToReqs(s) && ReqsToConns(s) && ReqsToCtxs(s) && CtxsToReqs(s)
    && (forall r :: r in s.reqs ==> s.reqs[r].conn.Some? || s.reqs[r].context.Some?)
  }

  // The contexts that some operation stands for.
  function OpIds(ops: Ops): multiset<Id> {
    multiset(ops.dbWaiting) + multiset(ops.dbRunning) + multiset(ops.dbDone)
    + multiset(ops.pwWaiting) + (if ops.pwRunning.Some? then multiset{ops.pwRunning.value} else multiset{})
    + multiset(ops.pwDone)
  }

  // Every context belongs to exactly one operation, or is in the hands of the main thread.
  predicate OpsFit(s: State, held: multiset<Id>) {
    OpIds(s.ops) + held == multiset(s.ctxs.Keys)
  }

  function Copies(s: State, i: Id): nat {
    s.freed[i] + (if i in s.conns then 1 else 0) + (if i in s.reqs then 1 else 0) + (if i in s.ctxs then 1 else 0)
  }

  // Whatever was allocated is live or has been freed once.
  ghost predicate IdsFit(s: State) {
    forall i: Id :: Copies(s, i) == if i < s.next then 1 else 0
  }

  // A response has been started exactly when the handlers are done with the request.
  predicate Answered(s: State, c: Id)
    requires c in s.conns
  {
    var request := s.conns[c].request;
    if request.None? then s.conns[c].started == 0
    else request.value in s.reqs && (s.reqs[request.value].context.None? <==> s.conns[c].started > 0)
  }

  // `busy` is the connection that the main thread is answering.
  predicate Answers(s: State, busy: Option<Id>) {
    forall c :: c in s.conns && s.conns[c].open && Some(c) != busy ==> Answered(s, c)
  }

  ghost predicate Core(s: State, held: multiset<Id>, busy: Option<Id>) {
    Lists(s) && Pointers(s) && OpsFit(s, held) && IdsFit(s) && Answers(s, busy)
  }

  // The events still to be handled may point to closed connections, but not to freed ones.
  predicate EventsFit(s: State, events: seq<Event>) {
    forall i :: 0 <= i < |events| && events[i].Client? ==> events[i].conn in s.conns
  }

  // How far destroy_server has come.
  predicate PhaseFits(s: State) {
    match s.main
    case Batch(events) => EventsFit(s, events) && !s.ops.pwStopped
    case Draining(_, events) => EventsFit(s, events) && !s.ops.pwStopped
    case Idle => s.retired == [] && !s.ops.pwStopped
    case Closing => !s.ops.pwStopped
    case JoiningPassword => s.clients == [] && NoPassword(s, true)
    case LastPassword => s.clients == [] && NoPassword(s, false)
    case JoiningDatabase => s.clients == [] && NoPassword(s, false) && s.ops.pwDone == []
    case LastDatabase =>
      s.clients == [] && NoPassword(s, false) && s.ops.pwDone == [] && s.ops.dbWaiting == [] && s.ops.dbRunning == []
    case Ended => s.ops.pwStopped && s.conns == map[] && s.reqs == map[] && s.ctxs == map[]
  }

  predicate NoPassword(s: State, mayRun: bool) {
    s.ops.pwStopped && s.ops.pwWaiting == [] && (mayRun || s.ops.pwRunning.None?)
  }

  ghost predicate Inv(s: State) {
    Core(s, multiset{}, None) && PhaseFits(s)
  }

  // ---------------------------------------------------------------- closing connections

  lemma {:induction false} WithoutDrops(ids: seq<Id>, id: Id)
    requires NoDup(ids)
    ensures NoDup(Without(ids, id))
    ensures forall i :: i in Without(ids, id) <==> i in ids && i != id
  {
    if ids != [] {
      var rest := ids[1..];
      assert ids == [ids[0]] + rest && ids[0] !in rest;
      WithoutDrops(rest, id);
    }
  }

  lemma RetireLists(s: State, c: Id)
    requires Lists(s) && c in s.conns && s.conns[c].open
    ensures Lists(Retire(s, c))
  {
    WithoutDrops(s.clients, c);
  }

  // Closing a connection whose request is known, or which has none.
  lemma RemovePointers(s: State, c: Id)
    requires Pointers(s) && c in s.conns
    ensures RemoveConnection(s, c).Some? && Pointers(RemoveConnection(s, c).value)
  {
    if s.conns[c].open {
      var request := s.conns[c].request;
      if request.None? {
        RetirePointers(s, c);
      } else {
        DetachPointers(s, c, request.value);
      }
    }
  }

  lemma RetirePointers(s: State, c: Id)
    requires Pointers(s) && c in s.conns && s.conns[c].request.None?
    ensures Pointers(Retire(s, c))
  {
  }

  lemma DetachShape(s: State, c: Id, r: Id)
    requires Pointers(s) && c in s.conns && s.conns[c].request == Some(r)
    ensures Detach(Retire(s, c), Some(r)).Some?
    ensures var t := Detach(Retire(s, c), Some(r)).value;
      && t.conns == s.conns[c := s.conns[c].(open := false, request := None)] && t.ctxs == s.ctxs
      && (forall q :: q in t.reqs && q != r ==> q in s.reqs && t.reqs[q] == s.reqs[q])
      && (forall q :: q in s.reqs && q != r ==> q in t.reqs)
      && (if s.reqs[r].context.Some? then r in t.reqs && t.reqs[r] == s.reqs[r].(conn := None) else r !in t.reqs)
  {
  }

  lemma DetachPointers(s: State, c: Id, r: Id)
    requires Pointers(s) && c in s.conns && s.conns[c].request == Some(r)
    ensures var t := Detach(Retire(s, c), Some(r)); t.Some? && Pointers(t.value)
  {
    hide Detach, Retire;
    DetachShape(s, c, r);
  }

  lemma RemoveIds(s: State, c: Id)
    requires Pointers(s) && IdsFit(s) && c in s.conns && RemoveConnection(s, c).Some?
    ensures IdsFit(RemoveConnection(s, c).value)
  {
    var t := RemoveConnection(s, c).value;
    forall i: Id ensures Copies(t, i) == if i < t.next then 1 else 0 {
      assert Copies(s, i) == if i < s.next then 1 else 0;
    }
  }

  lemma RemoveAnswers(s: State, c: Id, busy: Option<Id>)
    requires Pointers(s) && Answers(s, busy) && c in s.conns && RemoveConnection(s, c).Some?
    ensures Answers(RemoveConnection(s, c).value, busy)
    ensures Answers(RemoveConnection(s, c).value, if busy == Some(c) && s.conns[c].open then None else busy)
  {
    var t := RemoveConnection(s, c).value;
    forall d | d in t.conns && t.conns[d].open && Some(d) != busy ensures Answered(t, d) {
      assert Answered(s, d);
    }
  }

  // What closing a connection leaves alone.
  lemma RemoveFrame(s: State, c: Id)
    requires c in s.conns && RemoveConnection(s, c).Some?
    ensures var t := RemoveConnection(s, c).value;
      && t.conns.Keys == s.conns.Keys && t.ctxs == s.ctxs && t.ops == s.ops && t.main == s.main
      && t.next == s.next && t.handled == s.handled && !t.conns[c].open
      && t.clients == (if s.conns[c].open then Without(s.clients, c) else s.clients)
  {
  }

  lemma RemoveLists(s: State, c: Id)
    requires Lists(s) && c in s.conns && RemoveConnection(s, c).Some?
    ensures Lists(RemoveConnection(s, c).value)
  {
    if s.conns[c].open {
      RetireLists(s, c);
    }
  }

  lemma RemoveCore(s: State, c: Id, held: multiset<Id>, busy: Option<Id>)
    requires Core(s, held, busy) && c in s.conns
    ensures RemoveConnection(s, c).Some?
    ensures Core(RemoveConnection(s, c).value, held, if busy == Some(c) && s.conns[c].open then None else busy)
  {
    hide Lists, Pointers, IdsFit, Answers, RemoveConnection;
    RemovePointers(s, c);
    RemoveIds(s, c);
    RemoveAnswers(s, c, busy);
    RemoveFrame(s, c);
    RemoveLists(s, c);
  }

  // ---------------------------------------------------------------- contexts

  lemma DisposeShape(s: State, x: Id)
    requires Pointers(s) && x in s.ctxs
    ensures DisposeContext(s, x).Some?
    ensures var t, r := DisposeContext(s, x).value, s.ctxs[x].request;
      && t.conns == s.conns && t.ctxs == s.ctxs - {x}
      && (forall q :: q in t.reqs && q != r ==> q in s.reqs && t.reqs[q] == s.reqs[q])
      && (forall q :: q in s.reqs && q != r ==> q in t.reqs)
      && (if s.reqs[r].conn.Some? then r in t.reqs && t.reqs[r] == s.reqs[r].(context := None) else r !in t.reqs)
  {
  }

  lemma DisposePointers(s: State, x: Id)
    requires Pointers(s) && x in s.ctxs
    ensures DisposeContext(s, x).Some? && Pointers(DisposeContext(s, x).value)
  {
    hide DisposeContext;
    DisposeShape(s, x);
  }

  lemma DisposeIds(s: State, x: Id)
    requires Pointers(s) && IdsFit(s) && x in s.ctxs && DisposeContext(s, x).Some?
    ensures IdsFit(DisposeContext(s, x).value)
  {
    var t := DisposeContext(s, x).value;
    forall i: Id ensures Copies(t, i) == if i < t.next then 1 else 0 {
      assert Copies(s, i) == if i < s.next then 1 else 0;
    }
  }

  lemma DisposeOps(s: State, x: Id)
    requires OpsFit(s, multiset{x}) && x in s.ctxs && DisposeContext(s, x).Some?
    ensures OpsFit(DisposeContext(s, x).value, multiset{})
  {
    var t := DisposeContext(s, x).value;
    assert t.ctxs.Keys == s.ctxs.Keys - {x};
    assert multiset(s.ctxs.Keys) == multiset(t.ctxs.Keys) + multiset{x};
    Cancel(OpIds(s.ops), multiset(t.ctxs.Keys), x);
  }

  lemma Cancel(a: multiset<Id>, b: multiset<Id>, x: Id)
    requires a + multiset{x} == b + multiset{x}
    ensures a + multiset{} == b
  {
    assert (a + multiset{x}) - multiset{x} == a && (b + multiset{x}) - multiset{x} == b;
  }

  lemma DisposeFrame(s: State, x: Id)
    requires x in s.ctxs && DisposeContext(s, x).Some?
    ensures var t := DisposeContext(s, x).value;
      && t.conns == s.conns && t.clients == s.clients && t.retired == s.retired && t.ops == s.ops && t.main == s.main
      && t.next == s.next && t.handled == s.handled && t.ctxs == s.ctxs - {x}
  {
  }

  // The request's connection becomes the busy one, unless its response has been started already.
  lemma DisposeAnswers(s: State, x: Id, busy: Option<Id>)
    requires Pointers(s) && Answers(s, busy) && x in s.ctxs && DisposeContext(s, x).Some?
    requires busy == s.reqs[s.ctxs[x].request].conn || busy.None?
    ensures Answers(DisposeContext(s, x).value, s.reqs[s.ctxs[x].request].conn)
  {
    var r := s.ctxs[x].request;
    var t := DisposeContext(s, x).value;
    forall d | d in t.conns && t.conns[d].open && Some(d) != s.reqs[r].conn ensures Answered(t, d) {
      assert Answered(s, d);
      assert s.conns[d].request != Some(r);
    }
  }

  lemma DisposeCore(s: State, x: Id, busy: Option<Id>)
    requires Core(s, multiset{x}, busy) && x in s.ctxs
    requires busy == s.reqs[s.ctxs[x].request].conn || busy.None?
    ensures DisposeContext(s, x).Some?
    ensures Core(DisposeContext(s, x).value, multiset{}, s.reqs[s.ctxs[x].request].conn)
  {
    DisposePointers(s, x);
    DisposeIds(s, x);
    DisposeOps(s, x);
    DisposeFrame(s, x);
    DisposeAnswers(s, x, busy);
  }

  // Nothing is left to be said about a connection that is answered.
  lemma NotBusy(s: State, held: multiset<Id>, busy: Option<Id>)
    requires Core(s, held, busy)
    requires busy.Some? && busy.value in s.conns && s.conns[busy.value].open ==> Answered(s, busy.value)
    ensures Core(s, held, None)
  {
  }

  // ---------------------------------------------------------------- responses

  lemma StartCore(s: State, c: Id, held: multiset<Id>, t: State)
    requires Core(s, held, Some(c)) && c in s.conns && s.conns[c].open
    requires t == s.(conns := s.conns[c := s.conns[c].(started := 1)])
    ensures Core(t, held, Some(c))
  {
    forall i: Id ensures Copies(t, i) == if i < t.next then 1 else 0 {
      assert Copies(s, i) == if i < s.next then 1 else 0;
    }
    forall d | d in t.conns && t.conns[d].open && Some(d) != Some(c) ensures Answered(t, d) {
      assert Answered(s, d);
    }
  }

  /** A response is started on an open connection that has none, and then the connection is closed or blocked. */
  lemma SendCore(s: State, c: Id, answer: Answer, held: multiset<Id>)
    requires Core(s, held, Some(c)) && c in s.conns && s.conns[c].open && s.conns[c].started == 0
    ensures StartSend(s, c, answer).Some?
    ensures var t := StartSend(s, c, answer).value;
      && Core(t, held, if answer == Blocked then Some(c) else None)
      && SendFrame(s, t, c, answer)
  {
    if answer == HeaderFailed {
      RemoveCore(s, c, held, Some(c));
      RemoveFrame(s, c);
    } else {
      var t := s.(conns := s.conns[c := s.conns[c].(started := 1)]);
      StartCore(s, c, held, t);
      if answer != Blocked {
        RemoveCore(t, c, held, Some(c));
        RemoveFrame(t, c);
      }
    }
  }

  predicate SendFrame(s: State, t: State, c: Id, answer: Answer)
    requires c in s.conns
  {
    && t.conns.Keys == s.conns.Keys && t.ctxs == s.ctxs && t.ops == s.ops && t.main == s.main && t.handled == s.handled
    && (answer == Blocked ==> t.conns[c] == s.conns[c].(started := 1) && t.reqs == s.reqs)
    && (answer != Blocked ==> !t.conns[c].open)
  }

  // ---------------------------------------------------------------- reaping

  // A state without the first retired connection.
  predicate OneLess(s: State, t: State) {
    && s.retired != []
    && t ==
      s.(conns := s.conns - {s.retired[0]}, freed := s.freed + multiset{s.retired[0]}, retired := s.retired[1..])
  }

  lemma ReapLists(s: State, t: State)
    requires Lists(s) && OneLess(s, t)
    ensures s.retired[0] in s.conns && !s.conns[s.retired[0]].open && Lists(t)
    ensures forall d :: d in t.conns ==> d in s.conns && t.conns[d] == s.conns[d]
  {
    var c := s.retired[0];
    assert c in s.retired;
    assert s.retired == [c] + t.retired && c !in t.retired;
    assert forall d :: d in t.conns <==> d in s.conns && d != c;
  }

  lemma ReapPointers(s: State, t: State)
    requires Pointers(s) && OneLess(s, t) && s.retired[0] in s.conns && !s.conns[s.retired[0]].open
    ensures Pointers(t)
  {
  }

  lemma ReapIds(s: State, t: State)
    requires IdsFit(s) && OneLess(s, t) && s.retired[0] in s.conns
    ensures IdsFit(t)
  {
    forall i: Id ensures Copies(t, i) == if i < t.next then 1 else 0 {
      assert Copies(s, i) == if i < s.next then 1 else 0;
    }
  }

  lemma ReapAnswers(s: State, t: State)
    requires Answers(s, None) && OneLess(s, t)
    ensures Answers(t, None)
  {
    forall d | d in t.conns && t.conns[d].open ensures Answered(t, d) {
      assert Answered(s, d);
    }
  }

  lemma ReapOne(s: State, held: multiset<Id>, t: State)
    requires Core(s, held, None) && OneLess(s, t)
    ensures s.retired[0] in s.conns && Core(t, held, None)
  {
    hide Lists, Pointers, IdsFit, Answers;
    ReapLists(s, t);
    ReapPointers(s, t);
    ReapIds(s, t);
    ReapAnswers(s, t);
  }

  lemma {:induction false} ReapCore(s: State, held: multiset<Id>)
    requires Core(s, held, None)
    ensures Reap(s).Some?
    ensures var t := Reap(s).value;
      && Core(t, held, None) && t.retired == [] && t.clients == s.clients && t.ops == s.ops
      && t.handled == s.handled && t.main == s.main && t.ctxs == s.ctxs && t.reqs == s.reqs && t.next == s.next
    decreases |s.retired|
  {
    if s.retired != [] {
      var c := s.retired[0];
      var t := s.(conns := s.conns - {c}, freed := s.freed + multiset{c}, retired := s.retired[1..]);
      ReapOne(s, held, t);
      ReapCore(t, held);
    }
  }

  // ---------------------------------------------------------------- accepting

  lemma NextIsFree(s: State)
    requires IdsFit(s)
    ensures s.next !in s.conns && s.next !in s.reqs && s.next !in s.ctxs
  {
    assert Copies(s, s.next) == 0;
  }

  // A state with one more connection.
  predicate OneMore(s: State, t: State) {
    t == s.(conns := s.conns[s.next := Conn(true, None, 0)], clients := [s.next] + s.clients, next := s.next + 1)
  }

  lemma AcceptLists(s: State, t: State)
    requires Lists(s) && OneMore(s, t) && s.next !in s.conns
    ensures Lists(t)
  {
    assert forall c :: c in t.clients <==> c == s.next || c in s.clients;
  }

  lemma AcceptPointers(s: State, t: State)
    requires Pointers(s) && OneMore(s, t) && s.next !in s.conns
    ensures Pointers(t)
  {
  }

  lemma AcceptIds(s: State, t: State)
    requires IdsFit(s) && OneMore(s, t)
    ensures IdsFit(t)
  {
    forall i: Id ensures Copies(t, i) == if i < t.next then 1 else 0 {
      assert Copies(s, i) == if i < s.next then 1 else 0;
    }
  }

  lemma AcceptAnswers(s: State, t: State)
    requires Answers(s, None) && OneMore(s, t)
    ensures Answers(t, None)
  {
    forall d | d in t.conns && t.conns[d].open ensures Answered(t, d) {
      assert d != s.next ==> Answered(s, d);
    }
  }

  lemma AcceptOne(s: State, held: multiset<Id>, t: State)
    requires Core(s, held, None)
    requires OneMore(s, t)
    ensures Core(t, held, None)
  {
    hide Lists, Pointers, IdsFit, Answers;
    NextIsFree(s);
    AcceptLists(s, t);
    AcceptPointers(s, t);
    AcceptIds(s, t);
    AcceptAnswers(s, t);
  }

  lemma {:induction false} AcceptCore(s: State, n: nat, held: multiset<Id>)
    requires Core(s, held, None)
    ensures Core(Accept(s, n), held, None)
    ensures var t := Accept(s, n);
      t.ops == s.ops && t.handled == s.handled && t.main == s.main && s.conns.Keys <= t.conns.Keys
    decreases n
  {
    if n > 0 {
      var t := s.(conns := s.conns[s.next := Conn(true, None, 0)], clients := [s.next] + s.clients, next := s.next + 1);
      AcceptOne(s, held, t);
      AcceptCore(t, n - 1, held);
    }
  }

  // ---------------------------------------------------------------- arrivals

  lemma NewRequestIds(s: State, c: Id)
    requires IdsFit(s) && c in s.conns
    ensures IdsFit(NewRequest(s, c))
  {
    var t := NewRequest(s, c);
    assert Copies(s, s.next) == 0;
    forall i: Id ensures Copies(t, i) == if i < t.next then 1 else 0 {
      assert Copies(s, i) == if i < s.next then 1 else 0;
    }
  }

  lemma NewRequestPointers(s: State, c: Id)
    requires Pointers(s) && s.next !in s.reqs && c in s.conns && s.conns[c].open && s.conns[c].request.None?
    ensures Pointers(NewRequest(s, c))
  {
    assert forall r :: r in s.reqs ==> s.reqs[r].conn != Some(c);
  }

  lemma NewRequestAnswers(s: State, c: Id)
    requires Answers(s, None) && s.next !in s.reqs && c in s.conns && s.conns[c].open && s.conns[c].request.None?
    ensures Answers(NewRequest(s, c), Some(c)) && s.conns[c].started == 0
  {
    var t := NewRequest(s, c);
    assert Answered(s, c);
    forall d | d in t.conns && t.conns[d].open && d != c ensures Answered(t, d) {
      assert Answered(s, d);
    }
  }

  lemma NewRequestLists(s: State, c: Id)
    requires Lists(s) && c in s.conns
    ensures Lists(NewRequest(s, c)) && NewRequest(s, c).conns.Keys == s.conns.Keys
  {
  }

  lemma NewRequestCore(s: State, c: Id)
    requires Core(s, multiset{}, None) && c in s.conns && s.conns[c].open && s.conns[c].request.None?
    ensures var t := NewRequest(s, c);
      Core(t, multiset{}, Some(c)) && t.conns[c].open && t.conns[c].started == 0 && t.conns.Keys == s.conns.Keys
  {
    hide Lists, Pointers, IdsFit, Answers;
    NextIsFree(s);
    NewRequestIds(s, c);
    NewRequestPointers(s, c);
    NewRequestAnswers(s, c);
    NewRequestLists(s, c);
  }

  lemma NewContextIds(s: State, r: Id)
    requires IdsFit(s) && r in s.reqs
    ensures IdsFit(NewContext(s, r))
  {
    var t := NewContext(s, r);
    assert Copies(s, s.next) == 0;
    forall i: Id ensures Copies(t, i) == if i < t.next then 1 else 0 {
      assert Copies(s, i) == if i < s.next then 1 else 0;
    }
  }

  lemma NewContextPointers(s: State, r: Id)
    requires Pointers(s) && s.next !in s.ctxs && r in s.reqs && s.reqs[r].context.None?
    ensures Pointers(NewContext(s, r))
  {
  }

  lemma NewContextCore(s: State, c: Id, r: Id)
    requires Core(s, multiset{}, Some(c)) && r in s.reqs && s.reqs[r] == Req(Some(c), None)
    ensures Core(NewContext(s, r), multiset{s.next}, Some(c))
    ensures s.next in NewContext(s, r).ctxs && NewContext(s, r).ctxs[s.next].request == r
    ensures NewContext(s, r).reqs[r] == Req(Some(c), Some(s.next)) && NewContext(s, r).conns == s.conns
  {
    var t := NewContext(s, r);
    assert Copies(s, s.next) == 0;
    NewContextIds(s, r);
    NewContextPointers(s, r);
    assert t.ctxs.Keys == s.ctxs.Keys + {s.next};
    assert multiset(t.ctxs.Keys) == multiset(s.ctxs.Keys) + multiset{s.next};
    forall d | d in t.conns && t.conns[d].open && d != c ensures Answered(t, d) {
      assert Answered(s, d);
      assert s.conns[d].request != Some(r);
    }
  }

  // A context in the hands of the main thread goes into a queue.
  lemma PushOps(s: State, queue: Queue, x: Id)
    requires OpsFit(s, multiset{x})
    ensures OpsFit(Push(s, queue, x), multiset{})
  {
    assert OpIds(Push(s, queue, x).ops) == OpIds(s.ops) + multiset{x};
  }

  lemma PushCore(s: State, queue: Queue, x: Id, busy: Option<Id>)
    requires Core(s, multiset{x}, busy)
    ensures Core(Push(s, queue, x), multiset{}, busy)
  {
    hide Lists, Pointers, IdsFit, Answers, OpsFit;
    PushOps(s, queue, x);
    SameObjects(s, Push(s, queue, x), busy);
  }

  // What the invariant says about the objects does not depend on operations, counters or phases.
  lemma SameObjects(s: State, t: State, busy: Option<Id>)
    requires t == s.(ops := t.ops, handled := t.handled, main := t.main)
    ensures Lists(t) == Lists(s) && Pointers(t) == Pointers(s) && IdsFit(t) == IdsFit(s)
    ensures Answers(t, busy) == Answers(s, busy)
  {
    assert forall i: Id :: Copies(t, i) == Copies(s, i);
    assert forall d :: d in t.conns ==> Answered(t, d) == Answered(s, d);
  }

  // The response to a request whose handlers are done, or which never had one.
  lemma AnswerCore(s: State, c: Id, r: Id, answer: Answer)
    requires Core(s, multiset{}, Some(c)) && c in s.conns && s.conns[c].open && s.conns[c].started == 0
    requires s.conns[c].request == Some(r) && r in s.reqs && s.reqs[r].context.None?
    ensures StartSend(s, c, answer).Some?
    ensures var t := StartSend(s, c, answer).value;
      Core(t, multiset{}, None) && SendFrame(s, t, c, answer)
  {
    SendCore(s, c, answer, multiset{});
    if answer == Blocked {
      NotBusy(StartSend(s, c, answer).value, multiset{}, Some(c));
    }
  }

  lemma ArriveCore(s: State, c: Id, arrival: Arrival)
    requires Core(s, multiset{}, None) && c in s.conns && s.conns[c].open && s.conns[c].request.None?
    ensures Arrive(s, c, arrival).Some?
    ensures var t := Arrive(s, c, arrival).value;
      && Core(t, multiset{}, None) && t.conns.Keys == s.conns.Keys && t.main == s.main
      && t.ops.pwStopped == s.ops.pwStopped
  {
    match arrival
    case NoMemory =>
      RemoveCore(s, c, multiset{}, None);
      RemoveFrame(s, c);
    case Rejected(answer) =>
      NewRequestCore(s, c);
      AnswerCore(NewRequest(s, c), c, s.next, answer);
    case Routed(result) =>
      NewRequestCore(s, c);
      RouteCore(NewRequest(s, c), c, s.next, result);
  }

  lemma RouteCore(s: State, c: Id, r: Id, result: Result)
    requires Core(s, multiset{}, Some(c)) && c in s.conns && s.conns[c].open && s.conns[c].started == 0
    requires s.conns[c].request == Some(r) && r in s.reqs && s.reqs[r] == Req(Some(c), None)
    ensures var t, x := NewContext(s, r), s.next;
      match result
      case Submit(queue) => Core(Push(t, queue, x), multiset{}, None)
      case Complete(answer) =>
        && DisposeContext(t, x).Some?
        && var u := DisposeContext(t, x).value;
        && StartSend(u, c, answer).Some?
        && var v := StartSend(u, c, answer).value;
        && Core(v, multiset{}, None) && v.conns.Keys == s.conns.Keys && v.main == s.main && v.ops == s.ops
  {
    var t, x := NewContext(s, r), s.next;
    NewContextCore(s, c, r);
    match result
    case Submit(queue) =>
      NotBusy(t, multiset{x}, Some(c));
      PushCore(t, queue, x, None);
    case Complete(answer) =>
      DisposeCore(t, x, Some(c));
      DisposeFrame(t, x);
      AnswerCore(DisposeContext(t, x).value, c, r, answer);
  }

  // ---------------------------------------------------------------- completions

  lemma PopOps(s: State, queue: Queue)
    requires OpsFit(s, multiset{}) && Done(s.ops, queue) != []
    ensures OpsFit(Pop(s, queue), multiset{Done(s.ops, queue)[0]}) && Done(s.ops, queue)[0] in s.ctxs
  {
    var done := Done(s.ops, queue);
    assert done == [done[0]] + done[1..];
    assert OpIds(s.ops) == OpIds(Pop(s, queue).ops) + multiset{done[0]};
    assert done[0] in multiset(s.ctxs.Keys);
  }

  lemma PopCore(s: State, queue: Queue, handled: nat)
    requires Core(s, multiset{}, None) && Done(s.ops, queue) != []
    ensures var t := Pop(s, queue).(handled := handled);
      Core(t, multiset{Done(s.ops, queue)[0]}, None)
    ensures Done(s.ops, queue)[0] in s.ctxs
  {
    hide Lists, Pointers, IdsFit, Answers;
    PopOps(s, queue);
    SameObjects(s, Pop(s, queue).(handled := handled), None);
  }

  // The last handler has completed: the response is started, then the context goes.
  lemma CompleteCore(s: State, x: Id, c: Id, answer: Answer)
    requires Core(s, multiset{x}, None) && x in s.ctxs && s.ctxs[x].request in s.reqs
    requires s.reqs[s.ctxs[x].request].conn == Some(c)
    ensures StartSend(s, c, answer).Some? && DisposeContext(StartSend(s, c, answer).value, x).Some?
    ensures var t := DisposeContext(StartSend(s, c, answer).value, x).value;
      Core(t, multiset{}, None) && t.conns.Keys == s.conns.Keys && t.main == s.main && t.ops == s.ops
  {
    var r := s.ctxs[x].request;
    assert s.conns[c].open && Answered(s, c);
    SendCore(s, c, answer, multiset{x});
    var t := StartSend(s, c, answer).value;
    var busy := if answer == Blocked then Some(c) else None;
    assert t.reqs[r].conn == busy;
    DisposeCore(t, x, busy);
    DisposeFrame(t, x);
    var u := DisposeContext(t, x).value;
    if answer == Blocked {
      NotBusy(u, multiset{}, Some(c));
    }
  }

  lemma HasRequest(s: State, x: Id)
    requires Core(s, multiset{x}, None) && x in s.ctxs
    ensures s.ctxs[x].request in s.reqs
  {
  }

  lemma DrainCore(s: State, queue: Queue, result: Result)
    requires Core(s, multiset{}, None) && Done(s.ops, queue) != [] && ResultFits(s, queue, result)
    ensures DrainOne(s, queue, result).Some?
    ensures var t := DrainOne(s, queue, result).value;
      && Core(t, multiset{}, None) && t.conns.Keys == s.conns.Keys && t.main == s.main
      && t.ops.pwStopped == s.ops.pwStopped && Done(t.ops, queue) == Done(s.ops, queue)[1..]
  {
    hide Core, StartSend, DisposeContext;
    var x := Done(s.ops, queue)[0];
    PopCore(s, queue, s.handled);
    HasRequest(Pop(s, queue), x);
    var r := s.ctxs[x].request;
    if s.reqs[r].conn.None? {
      DisposeCore(Pop(s, queue), x, None);
      DisposeFrame(Pop(s, queue), x);
    } else {
      var handled := if queue == Password && x in s.ops.cancelled then s.handled else s.handled + 1;
      PopCore(s, queue, handled);
      var u := Pop(s, queue).(handled := handled);
      match result
      case Submit(further) => PushCore(u, further, x, None);
      case Complete(answer) => CompleteCore(u, x, s.reqs[r].conn.value, answer);
    }
  }
}
