/** The password worker of src/app/password_worker.c as a transition system: each critical section is one step,
    and the append to the done list and the notification behind it are separate steps. */
module PasswordWorker {
  import opened Common
  import opened Notification

  type Job = nat

  const CAPACITY: nat := PASSWORD_QUEUE_CAPACITY

  datatype Thread = Waiting | Running(job: Job) | Notifying | Exited

  // What password_worker_stop still has to do in the calling thread.
  datatype Stopper = NotStopping | AboutToNotify | Joining | Joined

  // `accepted`, `finished`, `cancelled` and `popped` are histories, oldest job first.
  datatype State = State(
    pending: seq<Job>, waiting: nat, done: seq<Job>, stopped: bool,
    thread: Thread, stopper: Stopper, bell: Bell,
    accepted: seq<Job>, finished: seq<Job>, cancelled: seq<Job>, popped: seq<Job>,
    overtaken: bool)

  function Start(): State {
    State([], 0, [], false, Waiting, NotStopping, SILENT, [], [], [], [], false)
  }

  datatype Submission = Queued | QueueFull | WorkerStopped | NoMemory

  // password_worker_submit, once the input has been found valid
  function SubmitResult(s: State, memory: bool): Submission {
    if s.stopped then WorkerStopped
    else if s.waiting == CAPACITY then QueueFull
    else if !memory then NoMemory
    else Queued
  }

  function Submit(s: State, job: Job, memory: bool): State {
    if SubmitResult(s, memory) != Queued then s
    else s.(pending := s.pending + [job], waiting := s.waiting + 1, accepted := s.accepted + [job])
  }

  // The critical section at the top of run_password_worker's loop.
  function Take(s: State): State
    requires s.thread == Waiting && (s.pending != [] || s.stopped) && s.waiting >= |s.pending|
  {
    if s.stopped then s.(thread := Exited)
    else s.(thread := Running(s.pending[0]), pending := s.pending[1..], waiting := s.waiting - 1)
  }

  // The critical section behind the work.
  function Finish(s: State): State
    requires s.thread.Running?
  {
    s.(thread := Notifying, done := s.done + [s.thread.job], finished := s.finished + [s.thread.job])
  }

  // The critical section of password_worker_stop.
  function Stop(s: State): State {
    s.(stopped := true, pending := [], waiting := 0,
       done := s.done + s.pending, cancelled := s.cancelled + s.pending,
       stopper := if s.pending != [] then AboutToNotify else Joining,
       overtaken := s.overtaken || (s.thread.Running? && s.pending != []))
  }

  function Pop(s: State): State
    requires s.done != []
  {
    s.(done := s.done[1..], popped := s.popped + [s.done[0]])
  }

  datatype Label =
    | Submitting(job: Job, memory: bool)
    | Taking | Finishing | ThreadNotifies
    | Stopping | StopNotifies | ThreadJoined
    | Reporting | Reading | Popping | Leaving | Drained

  // The main thread waits in pthread_join between Joining and Joined.
  predicate Blocked(s: State) {
    s.stopper == AboutToNotify || s.stopper == Joining
  }

  predicate Enabled(s: State, l: Label) {
    match l
    case Submitting(job, _) => !Blocked(s) && job !in s.accepted
    case Taking => s.thread == Waiting && (s.pending != [] || s.stopped) && s.waiting >= |s.pending|
    case Finishing => s.thread.Running?
    case ThreadNotifies => s.thread == Notifying
    case Stopping => !Blocked(s)
    case StopNotifies => s.stopper == AboutToNotify
    case ThreadJoined => s.stopper == Joining && s.thread == Exited
    case Reporting => !Blocked(s) && s.bell.edge && s.bell.reader == Away
    case Reading => !Blocked(s) && s.bell.reader == Called
    case Popping => !Blocked(s) && s.bell.reader == Draining && s.done != []
    case Leaving => !Blocked(s) && s.bell.reader == Draining && s.done == []
    // password_worker_handler after the stop, without an event
    case Drained => s.stopper == Joined && s.bell.reader == Away
  }

  function Apply(s: State, l: Label): State
    requires Enabled(s, l)
  {
    match l
    case Submitting(job, memory) => Submit(s, job, memory)
    case Taking => Take(s)
    case Finishing => Finish(s)
    case ThreadNotifies => s.(thread := Waiting, bell := Ring(s.bell))
    case Stopping => Stop(s)
    case StopNotifies => s.(stopper := Joining, bell := Ring(s.bell))
    case ThreadJoined => s.(stopper := Joined)
    case Reporting => s.(bell := Report(s.bell))
    case Reading => s.(bell := Read(s.bell))
    case Popping => Pop(s)
    case Leaving => s.(bell := Leave(s.bell))
    case Drained => s.(bell := s.bell.(reader := Called))
  }

  predicate Possible(s: State, ls: seq<Label>)
    decreases |ls|
  {
    ls == [] || (Enabled(s, ls[0]) && Possible(Apply(s, ls[0]), ls[1..]))
  }

  function Run(s: State, ls: seq<Label>): State
    requires Possible(s, ls)
    decreases |ls|
  {
    if ls == [] then s else Run(Apply(s, ls[0]), ls[1..])
  }

  // ---------------------------------------------------------------- the invariant

  function InHand(s: State): seq<Job> {
    if s.thread.Running? then [s.thread.job] else []
  }

  // Everything that was ever appended to the done list, in that order.
  function Appended(s: State): seq<Job> {
    s.popped + s.done
  }

  /** Accepted jobs, in the order of submission, are the finished ones, then at most one running, then those
      that wait or have been cancelled. */
  predicate InOrder(s: State) {
    && s.accepted == s.finished + (InHand(s) + (s.cancelled + s.pending))
    && (if s.stopped then s.pending == [] else s.cancelled == [])
    && NoDup(s.accepted)
  }

  predicate Counted(s: State) {
    s.waiting == |s.pending| <= CAPACITY
  }

  // Each finished or cancelled job has been appended once.
  predicate OnceDone(s: State) {
    multiset(Appended(s)) == multiset(s.finished) + multiset(s.cancelled)
  }

  function Ringers(s: State): nat {
    (if s.thread == Notifying then 1 else 0) + (if s.stopper == AboutToNotify then 1 else 0)
  }

  predicate StopFits(s: State) {
    && (s.stopper != NotStopping <==> s.stopped)
    && (s.thread == Exited ==> s.stopped)
    && (s.stopper == Joined ==> s.thread == Exited)
  }

  // The order of completion: cancelled jobs overtake one that was running when the stop came.
  predicate Order(s: State) {
    if !s.stopped then !s.overtaken && Appended(s) == s.finished
    else if !s.overtaken then Appended(s) == s.finished + s.cancelled && (s.cancelled != [] ==> !s.thread.Running?)
    else
      && s.cancelled != []
      && if s.thread.Running? then Appended(s) == s.finished + s.cancelled
         else
           var n := |s.finished| - 1;
           n >= 0 && Appended(s) == s.finished[..n] + (s.cancelled + [s.finished[n]])
  }

  predicate Inv(s: State) {
    && InOrder(s) && Counted(s) && OnceDone(s) && StopFits(s) && Order(s)
    && Heard(s.bell, |s.done|, Ringers(s))
  }

  // ---------------------------------------------------------------- every step keeps it

  lemma SubmitInv(s: State, job: Job, memory: bool)
    requires Inv(s) && job !in s.accepted
    ensures Inv(Submit(s, job, memory))
  {
    if SubmitResult(s, memory) == Queued {
      var t := Submit(s, job, memory);
      assert s.cancelled + t.pending == (s.cancelled + s.pending) + [job];
      Grouped(s.finished, InHand(s), s.cancelled + s.pending, job);
    }
  }

  lemma Grouped(a: seq<Job>, b: seq<Job>, c: seq<Job>, job: Job)
    ensures (a + (b + c)) + [job] == a + (b + (c + [job]))
  {
  }

  lemma TakePlaces(s: State)
    requires InOrder(s) && Order(s) && Enabled(s, Taking)
    ensures InOrder(Take(s)) && OnceDone(Take(s)) == OnceDone(s) && Order(Take(s))
  {
    var t := Take(s);
    assert Appended(t) == Appended(s);
    if !s.stopped {
      assert s.pending == [s.pending[0]] + s.pending[1..];
      assert InHand(s) + (s.cancelled + s.pending) == InHand(t) + (t.cancelled + t.pending);
    }
  }

  lemma TakeInv(s: State)
    requires Inv(s) && Enabled(s, Taking)
    ensures Inv(Take(s))
  {
    hide InOrder, OnceDone, Order;
    TakePlaces(s);
  }

  lemma FinishPlaces(s: State)
    requires InOrder(s) && OnceDone(s) && s.thread.Running?
    ensures InOrder(Finish(s)) && OnceDone(Finish(s))
  {
    var t, job := Finish(s), s.thread.job;
    assert s.finished + ([job] + (s.cancelled + s.pending)) == t.finished + ([] + (s.cancelled + s.pending));
    assert Appended(t) == Appended(s) + [job];
  }

  lemma FinishInv(s: State)
    requires Inv(s) && s.thread.Running?
    ensures Inv(Finish(s))
  {
    hide InOrder, OnceDone, Order;
    FinishPlaces(s);
    FinishOrder(s);
  }

  lemma FinishOrder(s: State)
    requires InOrder(s) && StopFits(s) && Order(s) && s.thread.Running?
    ensures Order(Finish(s))
  {
    var t, job := Finish(s), s.thread.job;
    assert Appended(t) == Appended(s) + [job];
    assert t.finished[..|t.finished| - 1] == s.finished;
    if s.overtaken {
      Associative(s.finished, s.cancelled, [job]);
    } else if s.stopped {
      assert s.cancelled == [];
      assert s.finished + [] == s.finished && t.finished + [] == t.finished;
    }
  }

  lemma StopPlaces(s: State)
    requires InOrder(s) && OnceDone(s)
    ensures InOrder(Stop(s)) && OnceDone(Stop(s))
  {
    var t := Stop(s);
    assert s.cancelled + s.pending == t.cancelled + t.pending;
    assert Appended(t) == Appended(s) + s.pending;
  }

  lemma StopInv(s: State)
    requires Inv(s) && !Blocked(s)
    ensures Inv(Stop(s))
  {
    hide InOrder, OnceDone, Order;
    StopPlaces(s);
    StopOrder(s);
  }

  lemma StopOrder(s: State)
    requires InOrder(s) && Order(s)
    ensures Order(Stop(s))
  {
    var t := Stop(s);
    assert Appended(t) == Appended(s) + s.pending;
    if s.stopped {
      assert s.done + [] == s.done && s.cancelled + [] == s.cancelled;
    } else {
      assert t.cancelled == s.pending;
    }
  }

  lemma PopInv(s: State)
    requires Inv(s) && s.done != [] && s.bell.reader == Draining
    ensures Inv(Pop(s))
  {
    hide InOrder, OnceDone, Order;
    SamePlaces(s, Pop(s));
  }

  // Handing back changes nothing else.
  lemma SamePlaces(s: State, t: State)
    requires t == s.(done := t.done, popped := t.popped) && Appended(t) == Appended(s)
    ensures InOrder(t) == InOrder(s) && OnceDone(t) == OnceDone(s) && Order(t) == Order(s)
  {
  }

  lemma NotifyInv(s: State, l: Label)
    requires Inv(s) && Enabled(s, l) && (l.ThreadNotifies? || l.StopNotifies?)
    ensures Inv(Apply(s, l))
  {
    var t := Apply(s, l);
    RingHeard(s.bell, |s.done|, Ringers(s));
    assert InHand(t) == InHand(s) && Appended(t) == Appended(s);
  }

  lemma ReaderInv(s: State, l: Label)
    requires Inv(s) && Enabled(s, l) && (l.Reporting? || l.Reading? || l.Leaving? || l.Drained? || l.ThreadJoined?)
    ensures Inv(Apply(s, l))
  {
    hide InOrder, OnceDone, Order;
    var t := Apply(s, l);
    ReadHeard(s.bell, |s.done|, Ringers(s));
    SameJobs(s, t);
  }

  // What the jobs' places depend on.
  lemma SameJobs(s: State, t: State)
    requires t == s.(bell := t.bell, stopper := t.stopper)
    ensures InOrder(t) == InOrder(s) && OnceDone(t) == OnceDone(s) && Order(t) == Order(s)
  {
    assert InHand(t) == InHand(s) && Appended(t) == Appended(s);
  }

  lemma StepInv(s: State, l: Label)
    requires Inv(s) && Enabled(s, l)
    ensures Inv(Apply(s, l))
  {
    hide Inv, Submit, Take, Finish, Stop, Pop;
    match l
    case Submitting(job, memory) => SubmitInv(s, job, memory);
    case Taking => TakeInv(s);
    case Finishing => FinishInv(s);
    case Stopping => StopInv(s);
    case Popping => PopInv(s);
    case ThreadNotifies | StopNotifies => NotifyInv(s, l);
    case Reporting | Reading | Leaving | Drained | ThreadJoined => ReaderInv(s, l);
  }

  lemma {:induction false} RunInv(s: State, ls: seq<Label>)
    requires Inv(s) && Possible(s, ls)
    ensures Inv(Run(s, ls))
    decreases |ls|
  {
    if ls != [] {
      StepInv(s, ls[0]);
      RunInv(Apply(s, ls[0]), ls[1..]);
    }
  }

  /** The job being worked on is in neither list, and has not been handed back. */
  lemma InHandOnly(s: State)
    requires Inv(s) && s.thread.Running?
    ensures var job := s.thread.job; job in s.accepted && job !in s.pending && job !in s.done && job !in s.popped
  {
    hide Order;
    var job, rest := s.thread.job, s.cancelled + s.pending;
    NoDupOnce(s.accepted, job);
    assert multiset(s.accepted) == multiset(s.finished) + (multiset{job} + multiset(rest));
    assert multiset(rest) == multiset(s.cancelled) + multiset(s.pending);
    assert multiset(Appended(s)) == multiset(s.popped) + multiset(s.done);
    assert multiset(s.accepted)[job] >=
      1 + multiset(s.finished)[job] + multiset(s.cancelled)[job] + multiset(s.pending)[job];
    assert multiset(Appended(s))[job] == 0;
  }

  /** Every run: no job is lost, run twice, or both run and cancelled; at most CAPACITY jobs wait; and no
      completion is stranded. */
  lemma EveryRun(ls: seq<Label>)
    requires Possible(Start(), ls)
    ensures var s := Run(Start(), ls);
      && s.accepted == s.finished + (InHand(s) + (s.cancelled + s.pending)) && NoDup(s.accepted)
      && (s.cancelled == [] || s.pending == [])
      && s.waiting == |s.pending| <= CAPACITY
      && multiset(s.popped + s.done) == multiset(s.finished) + multiset(s.cancelled)
      && Heard(s.bell, |s.done|, Ringers(s))
  {
    RunInv(Start(), ls);
  }

  /** A completed job never waits unnoticed: while one is in the done list, the worker or the stopping thread is about
      to notify, the descriptor will be reported, or the main thread has been called and is not yet done draining. */
  lemma NoneStranded(ls: seq<Label>)
    requires Possible(Start(), ls)
    ensures var s := Run(Start(), ls);
      s.done != [] ==> s.thread == Notifying || s.stopper == AboutToNotify || s.bell.edge || s.bell.reader != Away
  {
    RunInv(Start(), ls);
  }

  /** Nothing is accepted after a stop. */
  lemma {:induction false} NothingAfterStop(s: State, ls: seq<Label>)
    requires s.stopped && Possible(s, ls)
    ensures Run(s, ls).stopped && Run(s, ls).accepted == s.accepted
    decreases |ls|
  {
    if ls != [] {
      NothingAfterStop(Apply(s, ls[0]), ls[1..]);
    }
  }

  /** When the stopped thread has been joined and the done list drained, every accepted job has been handed back. */
  lemma AllDelivered(s: State)
    requires Inv(s) && s.stopper == Joined && s.done == []
    ensures multiset(s.popped) == multiset(s.accepted)
  {
    assert s.popped + s.done == s.popped;
    assert s.accepted == s.finished + s.cancelled;
  }

  /** From any state that has not been stopped, further jobs are taken until sixteen wait, and no sooner is one refused
      for want of room: the queue can be filled. */
  lemma {:induction false} Fills(s: State, first: Job) returns (ls: seq<Label>)
    requires Inv(s) && s.stopper == NotStopping && forall job :: job in s.accepted ==> job < first
    ensures Possible(s, ls) && |Run(s, ls).pending| == 16 && |ls| == 16 - |s.pending|
    ensures Run(s, ls).accepted == s.accepted + seq(|ls|, i requires i >= 0 => first + i)
    ensures SubmitResult(Run(s, ls), true) == QueueFull
    decreases 16 - |s.pending|
  {
    hide InOrder, OnceDone, Order;
    ls := [];
    if |s.pending| < 16 {
      var l := Submitting(first, true);
      StepInv(s, l);
      var t := Apply(s, l);
      assert t.pending == s.pending + [first] && t.accepted == s.accepted + [first];
      var rest := Fills(t, first + 1);
      RunStep(s, l, rest, t);
      ls := [l] + rest;
      var ids := seq(|ls|, i requires i >= 0 => first + i);
      assert ids == [first] + seq(|rest|, i requires i >= 0 => first + 1 + i);
    }
  }

  /** So a run from the start reaches a full queue; one job more is refused, and refused only then. */
  lemma FullQueueReachable() returns (ls: seq<Label>)
    ensures Possible(Start(), ls) && |Run(Start(), ls).pending| == 16
    ensures SubmitResult(Run(Start(), ls), true) == QueueFull
  {
    ls := Fills(Start(), 0);
  }

  // ---------------------------------------------------------------- order of completion

  // Of two different texts of distinct jobs, the one that skips a job is no prefix.
  lemma SkippedIsNoPrefix(front: seq<Job>, skipped: Job, c: seq<Job>, rest: seq<Job>)
    requires c != [] && c[0] != skipped
    ensures !(front + (c + rest) <= front + ([skipped] + c))
  {
    var x, y := front + (c + rest), front + ([skipped] + c);
    assert x[|front|] == c[0] && y[|front|] == skipped;
  }

  lemma OvertakenIsNoPrefix(s: State)
    requires Inv(s) && s.overtaken
    ensures !(Appended(s) <= s.accepted)
  {
    if s.thread.Running? {
      var job := s.thread.job;
      assert s.accepted == s.finished + ([job] + s.cancelled) by {
        assert s.cancelled + [] == s.cancelled;
      }
      assert s.accepted[|s.finished|] == job && s.accepted[|s.finished| + 1] == s.cancelled[0];
      SkippedIsNoPrefix(s.finished, job, s.cancelled, []);
      assert s.cancelled + [] == s.cancelled;
    } else {
      var n := |s.finished| - 1;
      var front, job := s.finished[..n], s.finished[n];
      assert s.finished == front + [job];
      assert s.accepted == front + ([job] + s.cancelled) by {
        assert [] + (s.cancelled + []) == s.cancelled;
        Associative(front, [job], s.cancelled);
      }
      assert s.accepted[n] == job && s.accepted[n + 1] == s.cancelled[0];
      SkippedIsNoPrefix(front, job, s.cancelled, [job]);
    }
  }

  lemma OtherwisePrefix(s: State)
    requires Inv(s) && !s.overtaken
    ensures Appended(s) <= s.accepted
  {
    if s.stopped && s.cancelled == [] {
      assert s.finished + [] == s.finished;
    } else if s.stopped {
      assert [] + (s.cancelled + []) == s.cancelled;
    }
  }

  lemma {:induction false} OvertakenStays(s: State, ls: seq<Label>)
    requires Inv(s) && s.stopped && Possible(s, ls)
    ensures Run(s, ls).overtaken == s.overtaken
    decreases |ls|
  {
    hide Inv, Enabled, Apply;
    if ls != [] {
      StepInv(s, ls[0]);
      StepOvertakes(s, ls[0]);
      OvertakenStays(Apply(s, ls[0]), ls[1..]);
    }
  }

  lemma StepOvertakes(s: State, l: Label)
    requires Inv(s) && s.stopped && Enabled(s, l)
    ensures Apply(s, l).stopped && Apply(s, l).overtaken == s.overtaken
  {
    hide OnceDone, Order;
  }

  /** Completions come in the order of submission exactly when, at the stop, no job was running or none waited. */
  lemma FifoExactly(s: State, ls: seq<Label>)
    requires Inv(s) && !s.stopped && Possible(Stop(s), ls)
    ensures var t := Run(Stop(s), ls);
      Appended(t) <= t.accepted <==> !s.thread.Running? || s.pending == []
  {
    StopInv(s);
    RunInv(Stop(s), ls);
    OvertakenStays(Stop(s), ls);
    var t := Run(Stop(s), ls);
    if t.overtaken {
      OvertakenIsNoPrefix(t);
    } else {
      OtherwisePrefix(t);
    }
  }

  /** Before a stop the order is kept in any case. */
  lemma FifoBeforeStop(s: State)
    requires Inv(s) && !s.stopped
    ensures Appended(s) <= s.accepted
  {
    OtherwisePrefix(s);
  }

  /** So completion is not first in, first out: job 1 is cancelled while job 0 is being worked on. */
  lemma NotFifo() returns (ls: seq<Label>)
    ensures Possible(Start(), ls)
    ensures Run(Start(), ls).accepted == [0, 1] && Appended(Run(Start(), ls)) == [1, 0]
  {
    var s0 := Start();
    var s1 := Apply(s0, Submitting(0, true));
    var s2 := Apply(s1, Taking);
    var s3 := Apply(s2, Submitting(1, true));
    var s4 := Apply(s3, Stopping);
    var s5 := Apply(s4, Finishing);
    assert s5.accepted == [0, 1] && Appended(s5) == [1, 0];
    RunStep(s4, Finishing, [], s5);
    RunStep(s3, Stopping, [Finishing], s4);
    RunStep(s2, Submitting(1, true), [Stopping, Finishing], s3);
    RunStep(s1, Taking, [Submitting(1, true), Stopping, Finishing], s2);
    RunStep(s0, Submitting(0, true), [Taking, Submitting(1, true), Stopping, Finishing], s1);
    ls := [Submitting(0, true)] + [Taking, Submitting(1, true), Stopping, Finishing];
    assert [Taking] + [Submitting(1, true), Stopping, Finishing] == [Taking, Submitting(1, true), Stopping, Finishing];
    assert [Submitting(1, true)] + [Stopping, Finishing] == [Submitting(1, true), Stopping, Finishing];
    assert [Stopping] + [Finishing] == [Stopping, Finishing] && [Finishing] + [] == [Finishing];
  }

  lemma RunStep(s: State, l: Label, ls: seq<Label>, t: State)
    requires Enabled(s, l) && Apply(s, l) == t && Possible(t, ls)
    ensures Possible(s, [l] + ls) && Run(s, [l] + ls) == Run(t, ls)
  {
    assert ([l] + ls)[1..] == ls;
  }
}
