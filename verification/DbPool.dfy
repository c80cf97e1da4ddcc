/** The database pool of src/db.c as a transition system with any number of worker threads. Its stop rule is the
    opposite of the password worker's: what waits is still worked on. */
module DbPool {
  import opened Common
  import opened Notification

  type Task = nat

  datatype Thread = Waiting | Running(task: Task) | Notifying | Exited

  // Where db_pool_stop is in the calling thread.
  datatype Stopper = NotStopping | Joining | Joined

  // `accepted` and `popped` are histories, oldest task first.
  datatype State = State(
    queue: seq<Task>, stop: bool, done: seq<Task>, threads: seq<Thread>, stopper: Stopper, bell: Bell,
    accepted: seq<Task>, popped: seq<Task>)

  function Start(workers: nat): State {
    State([], false, [], seq(workers, _ => Waiting), NotStopping, SILENT, [], [])
  }

  // task_queue_push
  function Push(s: State, task: Task): State {
    s.(queue := s.queue + [task], accepted := s.accepted + [task])
  }

  // task_queue_pop by thread `i`: a task if there is one; without one, the end of a stopped worker.
  function Take(s: State, i: nat): State
    requires i < |s.threads| && (s.queue != [] || s.stop)
  {
    if s.queue == [] then s.(threads := s.threads[i := Exited])
    else s.(threads := s.threads[i := Running(s.queue[0])], queue := s.queue[1..])
  }

  // task_queue_push on the done queue
  function Finish(s: State, i: nat): State
    requires i < |s.threads| && s.threads[i].Running?
  {
    s.(threads := s.threads[i := Notifying], done := s.done + [s.threads[i].task])
  }

  function Notify(s: State, i: nat): State
    requires i < |s.threads|
  {
    s.(threads := s.threads[i := Waiting], bell := Ring(s.bell))
  }

  // db_pool_get_latest_completed_task
  function Pop(s: State): State
    requires s.done != []
  {
    s.(done := s.done[1..], popped := s.popped + [s.done[0]])
  }

  datatype Label =
    | Pushing(task: Task)
    | Taking(i: nat) | Finishing(i: nat) | ThreadNotifies(i: nat)
    | Stopping | ThreadsJoined
    | Reporting | Reading | Popping | Leaving | Drained

  predicate AllExited(threads: seq<Thread>) {
    forall i :: 0 <= i < |threads| ==> threads[i] == Exited
  }

  predicate Enabled(s: State, l: Label) {
    match l
    case Pushing(task) => s.stopper == NotStopping && task !in s.accepted
    case Taking(i) => i < |s.threads| && s.threads[i] == Waiting && (s.queue != [] || s.stop)
    case Finishing(i) => i < |s.threads| && s.threads[i].Running?
    case ThreadNotifies(i) => i < |s.threads| && s.threads[i] == Notifying
    case Stopping => s.stopper == NotStopping
    case ThreadsJoined => s.stopper == Joining && AllExited(s.threads)
    case Reporting => s.stopper != Joining && s.bell.edge && s.bell.reader == Away
    case Reading => s.stopper != Joining && s.bell.reader == Called
    case Popping => s.stopper != Joining && s.bell.reader == Draining && s.done != []
    case Leaving => s.stopper != Joining && s.bell.reader == Draining && s.done == []
    // db_handler after the stop, without an event
    case Drained => s.stopper == Joined && s.bell.reader == Away
  }

  function Apply(s: State, l: Label): State
    requires Enabled(s, l)
  {
    match l
    case Pushing(task) => Push(s, task)
    case Taking(i) => Take(s, i)
    case Finishing(i) => Finish(s, i)
    case ThreadNotifies(i) => Notify(s, i)
    case Stopping => s.(stop := true, stopper := Joining)
    case ThreadsJoined => s.(stopper := Joined)
    case Reporting => s.(bell := Report(s.bell))
    case Reading => s.(bell := Read(s.bell))
    case Popping => Pop(s)
    case Leaving => s.(bell := Leave(s.bell))
    case Drained => s.(bell := s.bell.(reader := Called))
  }

  predicate Possible(s: State, ls: seq<Label>)
    decreases |ls|
  {
    ls == [] || (Enabled(s, ls[0]) && Possible(Apply(s, ls[0]), ls[1..]))
  }

  function Run(s: State, ls: seq<Label>): State
    requires Possible(s, ls)
    decreases |ls|
  {
    if ls == [] then s else Run(Apply(s, ls[0]), ls[1..])
  }

  // ---------------------------------------------------------------- the invariant

  function Tasks(t: Thread): multiset<Task> {
    if t.Running? then multiset{t.task} else multiset{}
  }

  // The tasks that threads are working on.
  function InHand(threads: seq<Thread>): multiset<Task> {
    if threads == [] then multiset{} else Tasks(threads[0]) + InHand(threads[1..])
  }

  function Rings(t: Thread): nat {
    if t == Notifying then 1 else 0
  }

  // How many threads have appended but not yet notified.
  function Ringers(threads: seq<Thread>): nat {
    if threads == [] then 0 else Rings(threads[0]) + Ringers(threads[1..])
  }

  // Everything that was ever appended to the done queue, in that order.
  function Appended(s: State): seq<Task> {
    s.popped + s.done
  }

  /** Every accepted task is in the done queue (or was), in the hands of one thread, or in the task queue. */
  predicate Kept(s: State) {
    && NoDup(s.accepted)
    && multiset(s.accepted) == multiset(Appended(s)) + InHand(s.threads) + multiset(s.queue)
  }

  // A worker exits only when the pool has been stopped and the queue is empty.
  predicate ExitFits(s: State) {
    && ((exists i :: 0 <= i < |s.threads| && s.threads[i] == Exited) ==> s.stop && s.queue == [])
    && (s.stop <==> s.stopper != NotStopping)
    && (s.stopper == Joined ==> AllExited(s.threads))
  }

  // With one thread, tasks are completed in the order of submission.
  predicate Fifo(s: State) {
    |s.threads| == 1 ==>
      s.accepted == Appended(s) + (InHandOfOne(s) + s.queue)
  }

  ghost predicate Inv(s: State) {
    Kept(s) && ExitFits(s) && Fifo(s) && Heard(s.bell, |s.done|, Ringers(s.threads))
  }

  // Replacing one thread's state.
  lemma {:induction false} ThreadChanges(threads: seq<Thread>, i: nat, t: Thread)
    requires i < |threads|
    ensures InHand(threads[i := t]) + Tasks(threads[i]) == InHand(threads) + Tasks(t)
    ensures Ringers(threads[i := t]) + Rings(threads[i]) == Ringers(threads) + Rings(t)
  {
    if i > 0 {
      ThreadChanges(threads[1..], i - 1, t);
      assert threads[i := t][1..] == threads[1..][i - 1 := t];
      Swapped(Tasks(threads[0]), InHand(threads[1..][i - 1 := t]), Tasks(threads[i]), InHand(threads[1..]), Tasks(t));
    } else {
      assert threads[i := t][1..] == threads[1..];
    }
  }

  lemma Swapped(a: multiset<Task>, b: multiset<Task>, c: multiset<Task>, d: multiset<Task>, e: multiset<Task>)
    requires b + c == d + e
    ensures (a + b) + c == (a + d) + e
  {
    assert (a + b) + c == a + (b + c) == a + (d + e);
  }

  // A task moves from one place to another.
  lemma TaskMoves(s: State, t: State, i: nat, state: Thread)
    requires i < |s.threads| && t.threads == s.threads[i := state] && t.accepted == s.accepted && Kept(s)
    requires multiset(Appended(t)) + multiset(t.queue) + Tasks(state)
             == multiset(Appended(s)) + multiset(s.queue) + Tasks(s.threads[i])
    ensures Kept(t)
  {
    ThreadChanges(s.threads, i, state);
    var place, placed := multiset(Appended(s)) + multiset(s.queue), multiset(Appended(t)) + multiset(t.queue);
    var hand, handed, from, to := InHand(s.threads), InHand(t.threads), Tasks(s.threads[i]), Tasks(state);
    Balanced(placed, to, place, from, handed, hand);
    assert multiset(Appended(s)) + hand + multiset(s.queue) == place + hand;
    assert multiset(Appended(t)) + handed + multiset(t.queue) == placed + handed;
  }

  lemma Balanced(placed: multiset<Task>, to: multiset<Task>, place: multiset<Task>, from: multiset<Task>,
                 handed: multiset<Task>, hand: multiset<Task>)
    requires placed + to == place + from && handed + from == hand + to
    ensures placed + handed == place + hand
  {
    forall x ensures (placed + handed)[x] == (place + hand)[x] {
      assert (placed + to)[x] == (place + from)[x] && (handed + from)[x] == (hand + to)[x];
    }
  }

  lemma {:induction false} IdleThreads(n: nat)
    ensures var threads := seq(n, _ => Waiting); InHand(threads) == multiset{} && Ringers(threads) == 0
  {
    if n > 0 {
      IdleThreads(n - 1);
      assert seq(n, _ => Waiting)[1..] == seq(n - 1, _ => Waiting);
    }
  }

  lemma StartInv(workers: nat)
    ensures Inv(Start(workers))
  {
    IdleThreads(workers);
  }

  function InHandOfOne(s: State): seq<Task>
    requires |s.threads| == 1
  {
    if s.threads[0].Running? then [s.threads[0].task] else []
  }

  lemma PushFifo(s: State, task: Task)
    requires Fifo(s)
    ensures Fifo(Push(s, task))
  {
    if |s.threads| == 1 {
      var hand := InHandOfOne(s);
      assert (Appended(s) + (hand + s.queue)) + [task] == Appended(s) + (hand + (s.queue + [task]));
    }
  }

  lemma PushInv(s: State, task: Task)
    requires Inv(s) && Enabled(s, Pushing(task))
    ensures Inv(Push(s, task))
  {
    PushFifo(s, task);
    hide Fifo;
  }

  lemma TakeFifo(s: State, i: nat)
    requires Fifo(s) && Enabled(s, Taking(i))
    ensures Fifo(Take(s, i))
  {
    if |s.threads| == 1 && s.queue != [] {
      assert [] + s.queue == [s.queue[0]] + s.queue[1..];
    }
  }

  lemma TakeKept(s: State, i: nat)
    requires Kept(s) && Enabled(s, Taking(i))
    ensures Kept(Take(s, i))
  {
    hide InHand;
    var t := Take(s, i);
    if s.queue != [] {
      assert s.queue == [s.queue[0]] + s.queue[1..];
      assert multiset(s.queue) == multiset(t.queue) + multiset{s.queue[0]};
    }
    TaskMoves(s, t, i, t.threads[i]);
  }

  lemma TakeInv(s: State, i: nat)
    requires Inv(s) && Enabled(s, Taking(i))
    ensures Inv(Take(s, i))
  {
    hide Fifo, Kept, InHand;
    TakeFifo(s, i);
    TakeKept(s, i);
    ThreadChanges(s.threads, i, Take(s, i).threads[i]);
  }

  lemma FinishFifo(s: State, i: nat)
    requires Fifo(s) && Enabled(s, Finishing(i))
    ensures Fifo(Finish(s, i))
  {
    var t, task := Finish(s, i), s.threads[i].task;
    assert Appended(t) == Appended(s) + [task];
    assert Appended(s) + ([task] + s.queue) == Appended(t) + ([] + s.queue);
  }

  lemma FinishKept(s: State, i: nat)
    requires Kept(s) && Enabled(s, Finishing(i))
    ensures Kept(Finish(s, i))
  {
    hide InHand;
    var t, task := Finish(s, i), s.threads[i].task;
    assert Appended(t) == Appended(s) + [task];
    assert multiset(Appended(t)) == multiset(Appended(s)) + multiset{task};
    TaskMoves(s, t, i, Notifying);
  }

  lemma FinishInv(s: State, i: nat)
    requires Inv(s) && Enabled(s, Finishing(i))
    ensures Inv(Finish(s, i))
  {
    hide Fifo, Kept, InHand;
    FinishFifo(s, i);
    FinishKept(s, i);
    ThreadChanges(s.threads, i, Notifying);
  }

  lemma NotifyInv(s: State, i: nat)
    requires Inv(s) && Enabled(s, ThreadNotifies(i))
    ensures Inv(Notify(s, i))
  {
    var t := Notify(s, i);
    ThreadChanges(s.threads, i, Waiting);
    assert Appended(t) == Appended(s);
    TaskMoves(s, t, i, Waiting);
    RingHeard(s.bell, |s.done|, Ringers(s.threads));
  }

  lemma PopInv(s: State)
    requires Inv(s) && s.done != [] && s.bell.reader == Draining
    ensures Inv(Pop(s))
  {
    assert Appended(Pop(s)) == Appended(s);
  }

  lemma ReaderInv(s: State, l: Label)
    requires Inv(s) && Enabled(s, l)
    requires l.Stopping? || l.ThreadsJoined? || l.Reporting? || l.Reading? || l.Leaving? || l.Drained?
    ensures Inv(Apply(s, l))
  {
    var t := Apply(s, l);
    ReadHeard(s.bell, |s.done|, Ringers(s.threads));
    assert Appended(t) == Appended(s);
  }

  lemma StepInv(s: State, l: Label)
    requires Inv(s) && Enabled(s, l)
    ensures Inv(Apply(s, l))
  {
    hide Inv, Push, Take, Finish, Notify, Pop;
    match l
    case Pushing(task) => PushInv(s, task);
    case Taking(i) => TakeInv(s, i);
    case Finishing(i) => FinishInv(s, i);
    case ThreadNotifies(i) => NotifyInv(s, i);
    case Popping => PopInv(s);
    case Stopping | ThreadsJoined | Reporting | Reading | Leaving | Drained => ReaderInv(s, l);
  }

  lemma {:induction false} RunInv(s: State, ls: seq<Label>)
    requires Inv(s) && Possible(s, ls)
    ensures Inv(Run(s, ls)) && |Run(s, ls).threads| == |s.threads|
    decreases |ls|
  {
    hide Inv, Enabled, Apply;
    if ls != [] {
      StepInv(s, ls[0]);
      StepThreads(s, ls[0]);
      RunInv(Apply(s, ls[0]), ls[1..]);
    }
  }

  lemma StepThreads(s: State, l: Label)
    requires Enabled(s, l)
    ensures |Apply(s, l).threads| == |s.threads|
  {
  }

  /** A task that a thread works on is nowhere else: not in a queue, not handed back, not with another thread. */
  lemma InOneHand(s: State, i: nat)
    requires Kept(s) && i < |s.threads| && s.threads[i].Running?
    ensures var task := s.threads[i].task;
      && task in s.accepted && task !in s.queue && task !in s.done && task !in s.popped
      && forall j :: 0 <= j < |s.threads| && j != i ==> s.threads[j] != s.threads[i]
  {
    hide InHand;
    var task := s.threads[i].task;
    NoDupOnce(s.accepted, task);
    ThreadChanges(s.threads, i, Waiting);
    var others := s.threads[i := Waiting];
    var places := multiset(Appended(s)) + multiset(s.queue);
    assert (InHand(others) + multiset{task})[task] == (InHand(s.threads) + multiset{})[task];
    assert multiset(Appended(s)) == multiset(s.popped) + multiset(s.done);
    assert multiset(s.accepted)[task] == places[task] + InHand(s.threads)[task];
    forall j | 0 <= j < |s.threads| && j != i ensures s.threads[j] != s.threads[i] {
      ThreadChanges(others, j, Waiting);
      var fewer := InHand(others[j := Waiting]);
      assert (fewer + Tasks(others[j]))[task] == (InHand(others) + multiset{})[task];
    }
  }

  /** Every run: each accepted task is in exactly one place, and reaches the done queue exactly once; a thread has
      exited only if the pool was stopped and its queue is empty; no completion is stranded. */
  lemma EveryRun(workers: nat, ls: seq<Label>)
    requires Possible(Start(workers), ls)
    ensures var s := Run(Start(workers), ls);
      && NoDup(s.accepted)
      && multiset(s.accepted) == multiset(s.popped + s.done) + InHand(s.threads) + multiset(s.queue)
      && ((exists i :: 0 <= i < |s.threads| && s.threads[i] == Exited) ==> s.stop && s.queue == [])
      && Heard(s.bell, |s.done|, Ringers(s.threads))
  {
    StartInv(workers);
    RunInv(Start(workers), ls);
  }

  lemma {:induction false} SomeRinger(threads: seq<Thread>) returns (i: nat)
    requires Ringers(threads) > 0
    ensures i < |threads| && threads[i] == Notifying
  {
    if threads[0] == Notifying {
      i := 0;
    } else {
      i := SomeRinger(threads[1..]);
      i := i + 1;
    }
  }

  /** A completed task never waits unnoticed: while one is in the done queue, a thread is about to notify, the
      descriptor will be reported, or the main thread has been called and is not yet done draining. */
  lemma NoneStranded(workers: nat, ls: seq<Label>)
    requires Possible(Start(workers), ls)
    ensures var s := Run(Start(workers), ls);
      s.done != [] ==>
        || (exists i :: 0 <= i < |s.threads| && s.threads[i] == Notifying)
        || s.bell.edge || s.bell.reader != Away
  {
    StartInv(workers);
    RunInv(Start(workers), ls);
    var s := Run(Start(workers), ls);
    if Ringers(s.threads) > 0 {
      var i := SomeRinger(s.threads);
    }
  }

  lemma {:induction false} ExitedHoldNothing(threads: seq<Thread>)
    requires AllExited(threads)
    ensures InHand(threads) == multiset{}
  {
    if threads != [] {
      ExitedHoldNothing(threads[1..]);
    }
  }

  /** When db_pool_stop returns, the task queue is empty and every accepted task has reached the done queue. */
  lemma StopReturns(workers: nat, ls: seq<Label>)
    requires workers > 0 && Possible(Start(workers), ls) && Run(Start(workers), ls).stopper == Joined
    ensures var s := Run(Start(workers), ls);
      s.queue == [] && multiset(s.popped + s.done) == multiset(s.accepted)
  {
    StartInv(workers);
    RunInv(Start(workers), ls);
    var s := Run(Start(workers), ls);
    assert s.threads[0] == Exited;
    ExitedHoldNothing(s.threads);
  }

  /** With one worker, completion order is submission order. */
  lemma OneWorkerIsFifo(ls: seq<Label>)
    requires Possible(Start(1), ls)
    ensures var s := Run(Start(1), ls); s.popped + s.done <= s.accepted
  {
    StartInv(1);
    RunInv(Start(1), ls);
  }

  /** With two or more, task 1 can overtake task 0. */
  lemma TwoWorkersOvertake(workers: nat) returns (ls: seq<Label>)
    requires workers >= 2
    ensures Possible(Start(workers), ls)
    ensures var s := Run(Start(workers), ls);
      s.accepted == [0, 1] && s.popped + s.done == [1] && !(s.popped + s.done <= s.accepted)
  {
    var s0 := Start(workers);
    var s1 := Apply(s0, Pushing(0));
    var s2 := Apply(s1, Pushing(1));
    var s3 := Apply(s2, Taking(0));
    var s4 := Apply(s3, Taking(1));
    var s5 := Apply(s4, Finishing(1));
    assert s5.accepted == [0, 1] && s5.popped + s5.done == [1];
    RunStep(s4, Finishing(1), [], s5);
    RunStep(s3, Taking(1), [Finishing(1)] + [], s4);
    RunStep(s2, Taking(0), [Taking(1)] + ([Finishing(1)] + []), s3);
    RunStep(s1, Pushing(1), [Taking(0)] + ([Taking(1)] + ([Finishing(1)] + [])), s2);
    ls := [Pushing(0)] + ([Pushing(1)] + ([Taking(0)] + ([Taking(1)] + ([Finishing(1)] + []))));
    RunStep(s0, Pushing(0), [Pushing(1)] + ([Taking(0)] + ([Taking(1)] + ([Finishing(1)] + []))), s1);
  }

  // Without a worker nothing is ever completed.
  lemma NoWorkerCompletesNothing(ls: seq<Label>)
    requires Possible(Start(0), ls)
    ensures var s := Run(Start(0), ls); s.popped + s.done <= s.accepted
  {
    NoThreadNoTask(Start(0), ls);
  }

  lemma {:induction false} NoThreadNoTask(s: State, ls: seq<Label>)
    requires s.threads == [] && Appended(s) == [] && Possible(s, ls)
    ensures Appended(Run(s, ls)) == []
    decreases |ls|
  {
    if ls != [] {
      NoThreadNoTask(Apply(s, ls[0]), ls[1..]);
    }
  }

  /** Tasks complete in the order of submission in every run of a pool exactly when it has at most one worker. */
  lemma FifoExactly(workers: nat)
    ensures
      (forall ls | Possible(Start(workers), ls) ::
         var s := Run(Start(workers), ls); s.popped + s.done <= s.accepted)
      <==> workers <= 1
  {
    if workers == 0 {
      forall ls | Possible(Start(0), ls) ensures var s := Run(Start(0), ls); s.popped + s.done <= s.accepted {
        NoWorkerCompletesNothing(ls);
      }
    } else if workers == 1 {
      forall ls | Possible(Start(1), ls) ensures var s := Run(Start(1), ls); s.popped + s.done <= s.accepted {
        OneWorkerIsFifo(ls);
      }
    } else {
      var ls := TwoWorkersOvertake(workers);
    }
  }

  lemma RunStep(s: State, l: Label, ls: seq<Label>, t: State)
    requires Enabled(s, l) && Apply(s, l) == t && Possible(t, ls)
    ensures Possible(s, [l] + ls) && Run(s, [l] + ls) == Run(t, ls)
  {
    assert ([l] + ls)[1..] == ls;
  }
}
