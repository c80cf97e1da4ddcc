/** The queues behind the two mutexes. `Shows(s)` says that they look as in state `s` of the transition system, and
    every critical section leads from one such state to the one its step leads to. */
module WorkerQueues {
  import opened Common
  import opened LinkedQueue
  import Db = DbPool
  import Pw = PasswordWorker

  // No node is in both queues.
  predicate Apart(a: seq<Node>, b: seq<Node>) {
    forall i, j :: 0 <= i < |a| && 0 <= j < |b| ==> a[i] != b[j]
  }

  ghost function Marks(nodes: seq<Node>): (marks: seq<bool>)
    reads nodes
    ensures |marks| == |nodes|
  {
    seq(|nodes|, i requires 0 <= i < |nodes| reads nodes => nodes[i].cancelled)
  }

  function Trues(n: nat): seq<bool> {
    if n == 0 then [] else Trues(n - 1) + [true]
  }

  // Two linked queues without a common node.
  class Queues {
    const first: Queue
    const second: Queue

    ghost predicate Valid()
      reads this, first, second, first.nodes, second.nodes
    {
      first != second && first.Valid() && second.Valid() && Apart(first.nodes, second.nodes)
    }

    constructor ()
      ensures Valid() && fresh(first) && fresh(second) && first.nodes == [] && second.nodes == []
    {
      first := new Queue();
      second := new Queue();
    }

    method AppendFirst(n: Node)
      requires Valid() && n !in first.nodes && n !in second.nodes
      modifies first, n`next, first.nodes`next
      ensures Valid() && first.nodes == old(first.nodes) + [n] && second.nodes == old(second.nodes)
      ensures first.Ids() == old(first.Ids()) + [n.id] && second.Ids() == old(second.Ids())
    {
      first.Append(n);
    }

    method AppendSecond(n: Node)
      requires Valid() && n !in first.nodes && n !in second.nodes
      modifies second, n`next, second.nodes`next
      ensures Valid() && second.nodes == old(second.nodes) + [n] && first.nodes == old(first.nodes)
      ensures second.Ids() == old(second.Ids()) + [n.id] && first.Ids() == old(first.Ids())
    {
      second.Append(n);
    }

    method TakeFromFirst() returns (n: Node)
      requires Valid() && first.head != null
      modifies first
      ensures Valid() && old(first.nodes) == [n] + first.nodes && second.nodes == old(second.nodes)
      ensures n !in first.nodes && n !in second.nodes
      ensures old(first.Ids()) == [n.id] + first.Ids() && second.Ids() == old(second.Ids())
    {
      hide IdsOf, Apart, Linked;
      n := first.TakeFirst();
      FirstIsApart(n, first.nodes, second.nodes);
    }

    method TakeFromSecond() returns (n: Node)
      requires Valid() && second.head != null
      modifies second
      ensures Valid() && old(second.nodes) == [n] + second.nodes && first.nodes == old(first.nodes)
      ensures n !in second.nodes
      ensures old(second.Ids()) == [n.id] + second.Ids() && first.Ids() == old(first.Ids())
    {
      hide IdsOf, Apart, Linked;
      ghost var all := second.nodes;
      n := second.TakeFirst();
      ApartSwaps(first.nodes, all);
      FirstIsApart(n, second.nodes, first.nodes);
      ApartSwaps(second.nodes, first.nodes);
    }

    // The same for a node that is to point nowhere.
    method DetachFromSecond() returns (n: Node)
      requires Valid() && second.head != null
      modifies second, second.nodes`next
      ensures Valid() && old(second.nodes) == [n] + second.nodes && first.nodes == old(first.nodes) && n.next == null
      ensures old(second.Ids()) == [n.id] + second.Ids() && first.Ids() == old(first.Ids())
    {
      hide IdsOf;
      ghost var all := second.nodes;
      n := TakeFromSecond();
      Unpoint(n, all);
    }

    method Unpoint(n: Node, ghost all: seq<Node>)
      requires Valid() && all == [n] + second.nodes && Apart(first.nodes, all) && n !in second.nodes
      modifies n`next
      ensures Valid() && n.next == null
    {
      assert all[0] == n;
      n.next := null;
    }

    // The oldest node of the first queue, marked as cancelled, becomes the youngest of the second.
    method MoveOne()
      requires Valid() && first.head != null
      modifies first, second, first.nodes, second.nodes
      ensures Valid() && old(first.nodes) == [old(first.nodes)[0]] + first.nodes
      ensures second.nodes == old(second.nodes) + [old(first.nodes)[0]]
      ensures Marks(second.nodes) == old(Marks(second.nodes)) + [true]
    {
      ghost var all := first.nodes;
      var n := TakeFromFirst();
      MarkAndAppend(n, all);
    }

    method MarkAndAppend(n: Node, ghost all: seq<Node>)
      requires Valid() && all == [n] + first.nodes && Apart(all, second.nodes) && n !in first.nodes
      modifies n, second, second.nodes`next
      ensures Valid() && first.nodes == old(first.nodes) && second.nodes == old(second.nodes) + [n]
      ensures Marks(second.nodes) == old(Marks(second.nodes)) + [true]
    {
      assert all[0] == n;
      n.cancelled := true;
      AppendSecond(n);
    }
  }

  lemma NotListed(nodes: seq<Node>, n: Node)
    requires n.id !in IdsOf(nodes)
    ensures n !in nodes
  {
  }

  lemma FirstIsApart(n: Node, rest: seq<Node>, others: seq<Node>)
    requires Apart([n] + rest, others)
    ensures n !in others && Apart(rest, others)
  {
    var all := [n] + rest;
    assert all[0] == n && forall i :: 0 <= i < |rest| ==> rest[i] == all[i + 1];
  }

  lemma ApartSwaps(a: seq<Node>, b: seq<Node>)
    requires Apart(a, b)
    ensures Apart(b, a)
  {
  }

  // ---------------------------------------------------------------- src/db.c

  class DbQueues {
    const q: Queues
    var stop: bool

    // Task queue and done queue hold what they hold in `s`.
    ghost predicate Shows(s: Db.State)
      reads this, q, q.first, q.second, q.first.nodes, q.second.nodes
    {
      q.Valid() && s.queue == q.first.Ids() && s.done == q.second.Ids() && s.stop == stop
    }

    constructor (ghost workers: nat)
      ensures Shows(Db.Start(workers)) && fresh(q) && fresh(q.first) && fresh(q.second)
    {
      q := new Queues();
      stop := false;
    }

    // db_pool_exec_query and its siblings
    method Push(task: Node, ghost s: Db.State)
      requires Shows(s) && task !in q.first.nodes && task !in q.second.nodes
      modifies q.first, task`next, q.first.nodes`next
      ensures Shows(Db.Push(s, task.id))
      ensures q.first.nodes == old(q.first.nodes) + [task] && q.second.nodes == old(q.second.nodes)
    {
      q.AppendFirst(task);
    }

    // task_queue_pop in thread `i`, once it need not wait
    method Take(ghost i: nat, ghost s: Db.State) returns (task: Node?)
      requires Shows(s) && i < |s.threads| && (q.first.head != null || stop)
      modifies q.first
      ensures Shows(Db.Take(s, i)) && (task == null <==> Db.Take(s, i).threads[i] == Db.Exited)
      ensures task != null ==> Db.Take(s, i).threads[i] == Db.Running(task.id) && task !in q.first.nodes
      ensures old(q.first.nodes) == (if task != null then [task] else []) + q.first.nodes
      ensures q.second.nodes == old(q.second.nodes) && task !in q.second.nodes
    {
      if stop && q.first.head == null {
        return null;
      }
      assert s.queue != [];
      hide IdsOf, Queues.Valid, Queue.Valid;
      task := q.TakeFromFirst();
      assert q.first.Ids() == s.queue[1..];
    }

    // task_queue_push on the done queue by thread `i`, behind the work
    method Finish(ghost i: nat, task: Node, ghost s: Db.State)
      requires Shows(s) && Db.Kept(s) && i < |s.threads| && s.threads[i] == Db.Running(task.id)
      modifies q.second, task`next, q.second.nodes`next
      ensures Shows(Db.Finish(s, i))
      ensures q.second.nodes == old(q.second.nodes) + [task] && q.first.nodes == old(q.first.nodes)
    {
      Db.InOneHand(s, i);
      NotListed(q.first.nodes, task);
      NotListed(q.second.nodes, task);
      q.AppendSecond(task);
    }

    // db_pool_get_latest_completed_task
    method GetCompleted(ghost s: Db.State) returns (task: Node?)
      requires Shows(s)
      modifies q.second
      ensures task == null <==> s.done == []
      ensures task == null ==> Shows(s)
      ensures task != null ==> task.id == s.done[0] && Shows(Db.Pop(s))
      ensures old(q.second.nodes) == (if task != null then [task] else []) + q.second.nodes
      ensures q.first.nodes == old(q.first.nodes)
    {
      task := null;
      if q.second.head != null {
        task := q.TakeFromSecond();
      }
    }

    // The critical section of db_pool_stop.
    method Stop(ghost s: Db.State)
      requires Shows(s)
      modifies this
      ensures Shows(s.(stop := true, stopper := Db.Joining))
    {
      stop := true;
    }

    // `held` is what each worker has in its hands; `all` has every node that is in a queue or in a hand.
    ghost predicate Holds(held: seq<Node?>, all: set<Node>, threads: seq<Db.Thread>)
      reads q, q.first, q.second
    {
      && |held| == |threads|
      && (forall i :: 0 <= i < |held| && threads[i].Running? ==>
            held[i] != null && held[i] in all && held[i].id == threads[i].task)
      && (forall n :: n in q.first.nodes ==> n in all) && (forall n :: n in q.second.nodes ==> n in all)
    }

    lemma OtherStep(l: Db.Label, held: seq<Node?>, all: set<Node>, s: Db.State)
      requires Shows(s) && Db.Enabled(s, l) && Holds(held, all, s.threads)
      requires !l.Pushing? && !l.Taking? && !l.Finishing? && !l.Stopping? && !l.Popping?
      ensures Shows(Db.Apply(s, l)) && Holds(held, all, Db.Apply(s, l).threads)
    {
    }

    method PushNew(id: nat, held: seq<Node?>, ghost all: set<Node>, ghost s: Db.State) returns (ghost more: set<Node>)
      requires Shows(s) && Holds(held, all, s.threads)
      modifies q.first, all
      ensures all <= more && fresh(more - all) && Shows(Db.Push(s, id)) && Holds(held, more, Db.Push(s, id).threads)
    {
      var n := new Node(id);
      more := all + {n};
      Push(n, s);
    }

    method TakeInHand(i: nat, held: seq<Node?>, ghost all: set<Node>, ghost s: Db.State) returns (now: seq<Node?>)
      requires Shows(s) && Holds(held, all, s.threads) && i < |s.threads| && (s.queue != [] || s.stop)
      modifies q.first
      ensures Shows(Db.Take(s, i)) && Holds(now, all, Db.Take(s, i).threads)
    {
      assert q.first.head == null ==> s.queue == [];
      hide Shows;
      var n := Take(i, s);
      now := held[i := n];
    }

    method FinishInHand(i: nat, held: seq<Node?>, ghost all: set<Node>, ghost s: Db.State)
      requires Shows(s) && Holds(held, all, s.threads) && Db.Kept(s) && i < |s.threads| && s.threads[i].Running?
      modifies q.second, all
      ensures Shows(Db.Finish(s, i)) && Holds(held, all, Db.Finish(s, i).threads)
    {
      hide Shows;
      Finish(i, held[i], s);
    }

    method PopOne(held: seq<Node?>, ghost all: set<Node>, ghost s: Db.State) returns (task: Node)
      requires Shows(s) && Holds(held, all, s.threads) && s.done != []
      modifies q.second
      ensures Shows(Db.Pop(s)) && Holds(held, all, Db.Pop(s).threads) && task.id == s.done[0]
    {
      hide Shows;
      task := GetCompleted(s);
    }

    // One step of any thread; `task` is what it hands back.
    method Step(l: Db.Label, held: seq<Node?>, ghost all: set<Node>, ghost s: Db.State)
      returns (now: seq<Node?>, task: Node?, ghost more: set<Node>)
      requires Shows(s) && Db.Kept(s) && Db.Enabled(s, l) && Holds(held, all, s.threads)
      modifies this, q.first, q.second, all
      ensures all <= more && fresh(more - all)
      ensures Shows(Db.Apply(s, l)) && Holds(now, more, Db.Apply(s, l).threads)
      ensures Db.Apply(s, l).popped == s.popped + if task != null then [task.id] else []
    {
      hide Shows, Holds, Db.Kept;
      now, task, more := held, null, all;
      match l {
        case Pushing(id) => more := PushNew(id, held, all, s);
        case Taking(i) => now := TakeInHand(i, held, all, s);
        case Finishing(i) => FinishInHand(i, held, all, s);
        case Stopping => Stop(s);
        case Popping => task := PopOne(held, all, s);
        case _ => OtherStep(l, held, all, s);
      }
    }

    /** Every run of the transition system is a run of the linked queues, which hand back the same tasks. */
    static method Replay(workers: nat, ls: seq<Db.Label>) returns (pool: DbQueues, popped: seq<nat>)
      requires Db.Possible(Db.Start(workers), ls)
      ensures pool.Shows(Db.Run(Db.Start(workers), ls)) && popped == Db.Run(Db.Start(workers), ls).popped
    {
      pool := new DbQueues(workers);
      var held: seq<Node?> := seq(workers, _ => null);
      ghost var all: set<Node> := {};
      Db.StartInv(workers);
      popped := pool.ReplayFrom(ls, held, all, Db.Start(workers));
    }

    method ReplayFrom(ls: seq<Db.Label>, held: seq<Node?>, ghost all: set<Node>, ghost s: Db.State)
      returns (popped: seq<nat>)
      requires Shows(s) && Db.Inv(s) && Holds(held, all, s.threads) && Db.Possible(s, ls)
      modifies this, q.first, q.second, all
      ensures Shows(Db.Run(s, ls)) && s.popped + popped == Db.Run(s, ls).popped
      decreases |ls|
    {
      popped := [];
      if ls != [] {
        Db.StepInv(s, ls[0]);
        hide Db.Inv, Db.Kept, Shows, Holds, Db.Enabled, Db.Apply;
        var now, task;
        ghost var more;
        now, task, more := Step(ls[0], held, all, s);
        var rest := ReplayFrom(ls[1..], now, more, Db.Apply(s, ls[0]));
        popped := (if task != null then [task.id] else []) + rest;
        Pops(s, ls, if task != null then [task.id] else [], rest);
      }
    }
  }

  lemma Pops(s: Db.State, ls: seq<Db.Label>, first: seq<nat>, rest: seq<nat>)
    requires ls != [] && Db.Possible(s, ls) && Db.Apply(s, ls[0]).popped == s.popped + first
    requires Db.Run(s, ls).popped == Db.Apply(s, ls[0]).popped + rest
    ensures Db.Run(s, ls).popped == s.popped + (first + rest)
  {
  }

  // ---------------------------------------------------------------- src/app/password_worker.c

  lemma OneMoreTrue(marks: seq<bool>, k: nat)
    ensures (marks + Trues(k)) + [true] == marks + Trues(k + 1)
  {
  }

  lemma OneFurther(before: seq<Node>, all: seq<Node>, k: nat, rest: seq<Node>)
    requires k < |all| && all[k..] == [all[k..][0]] + rest
    ensures rest == all[k + 1..] && (before + all[..k]) + [all[k..][0]] == before + all[..k + 1]
  {
    assert all[k..][1..] == rest && all[k..][1..] == all[k + 1..];
    assert all[..k + 1] == all[..k] + [all[k]];
  }

  class PasswordQueues {
    const q: Queues
    var waiting: nat
    var stopped: bool

    // Pending list and done list hold what they hold in `s`.
    ghost predicate Shows(s: Pw.State)
      reads this, q, q.first, q.second, q.first.nodes, q.second.nodes
    {
      && q.Valid() && s.pending == q.first.Ids() && s.done == q.second.Ids()
      && s.waiting == waiting == |s.pending| <= Pw.CAPACITY && s.stopped == stopped
    }

    constructor ()
      ensures Shows(Pw.Start()) && fresh(q) && fresh(q.first) && fresh(q.second)
    {
      q := new Queues();
      waiting, stopped := 0, false;
    }

    /** password_worker_submit once its input is valid: a job is taken exactly while the worker has not been stopped,
        fewer than sixteen wait and there is memory for it. */
    method Submit(id: nat, memory: bool, ghost s: Pw.State) returns (result: Pw.Submission, job: Node?)
      requires Shows(s)
      modifies this, q.first, q.first.nodes`next
      ensures result == Pw.SubmitResult(s, memory) && Shows(Pw.Submit(s, id, memory))
      ensures result == Pw.WorkerStopped <==> old(stopped)
      ensures result == Pw.QueueFull <==> !old(stopped) && |old(q.first.nodes)| == 16
      ensures result == Pw.NoMemory <==> !old(stopped) && |old(q.first.nodes)| < 16 && !memory
      ensures result == Pw.Queued <==> !old(stopped) && |old(q.first.nodes)| < 16 && memory
      ensures job != null <==> result == Pw.Queued
      ensures (job != null ==> fresh(job)) && q.second.nodes == old(q.second.nodes)
      ensures q.first.nodes == old(q.first.nodes) + if job != null then [job] else []
    {
      job := null;
      if stopped {
        return Pw.WorkerStopped, job;
      } else if waiting == Pw.CAPACITY {
        return Pw.QueueFull, job;
      } else if !memory {
        return Pw.NoMemory, job;
      }
      job := Enqueue(id, s);
      result := Pw.Queued;
    }

    method Enqueue(id: nat, ghost s: Pw.State) returns (job: Node)
      requires Shows(s) && Pw.SubmitResult(s, true) == Pw.Queued
      modifies this, q.first, q.first.nodes`next
      ensures Shows(Pw.Submit(s, id, true))
      ensures fresh(job) && q.first.nodes == old(q.first.nodes) + [job] && q.second.nodes == old(q.second.nodes)
    {
      hide IdsOf, Queues.Valid;
      job := new Node(id);
      q.AppendFirst(job);
      waiting := waiting + 1;
    }

    // The critical section at the top of the worker's loop, once it need not wait.
    method Take(ghost s: Pw.State) returns (job: Node?)
      requires Shows(s) && s.thread == Pw.Waiting && (q.first.head != null || stopped)
      modifies this, q.first
      ensures Shows(Pw.Take(s)) && (job == null <==> s.stopped)
      ensures job != null ==> Pw.Take(s).thread == Pw.Running(job.id) && job !in q.first.nodes
      ensures old(q.first.nodes) == (if job != null then [job] else []) + q.first.nodes
      ensures q.second.nodes == old(q.second.nodes) && job !in q.second.nodes
    {
      hide IdsOf, Queues.Valid, Queue.Valid, Shows;
      PartsShown(s);
      if stopped {
        ExitShown(s);
        return null;
      }
      job := q.TakeFromFirst();
      waiting := waiting - 1;
      TakeShown(s, job);
    }

    lemma ExitShown(s: Pw.State)
      requires Shows(s) && s.thread == Pw.Waiting && stopped
      ensures s.stopped && Shows(Pw.Take(s))
    {
    }

    lemma TakeShown(s: Pw.State, job: Node)
      requires s.thread == Pw.Waiting && !s.stopped && s.waiting == |s.pending| && stopped == s.stopped
      requires q.Valid() && s.pending == [job.id] + q.first.Ids() && s.done == q.second.Ids()
      requires waiting == s.waiting - 1 && |s.pending| <= Pw.CAPACITY
      ensures Shows(Pw.Take(s)) && Pw.Take(s).thread == Pw.Running(job.id)
    {
      assert q.first.Ids() == s.pending[1..];
    }

    // The critical section behind the work: append_done.
    method Finish(job: Node, ghost s: Pw.State)
      requires Shows(s) && Pw.Inv(s) && s.thread == Pw.Running(job.id)
      modifies q.second, job`next, q.second.nodes`next
      ensures Shows(Pw.Finish(s))
      ensures q.second.nodes == old(q.second.nodes) + [job] && q.first.nodes == old(q.first.nodes)
    {
      hide Pw.Inv;
      Pw.InHandOnly(s);
      NotListed(q.first.nodes, job);
      NotListed(q.second.nodes, job);
      q.AppendSecond(job);
    }

    /** The critical section of password_worker_stop: all waiting jobs are marked and moved to the done list. */
    method Stop(ghost s: Pw.State) returns (cancelled: bool)
      requires Shows(s)
      modifies this, q.first, q.second, q.first.nodes, q.second.nodes
      ensures Shows(Pw.Stop(s)) && cancelled == (s.pending != []) && q.first.nodes == []
      ensures q.second.nodes == old(q.second.nodes) + old(q.first.nodes)
      ensures Marks(q.second.nodes) == old(Marks(q.second.nodes)) + Trues(|s.pending|)
    {
      hide Marks, Trues, IdsOf, Queues.Valid, Shows;
      PartsShown(s);
      cancelled := CancelAll();
      waiting := 0;
      StopShown(s);
    }

    lemma PartsShown(s: Pw.State)
      requires Shows(s)
      ensures q.Valid() && s.pending == q.first.Ids() && s.done == q.second.Ids()
      ensures (q.first.head == null <==> s.pending == []) && |q.first.nodes| == |s.pending|
      ensures s.waiting == waiting == |s.pending| <= Pw.CAPACITY && s.stopped == stopped
    {
    }

    lemma StopShown(s: Pw.State)
      requires q.Valid() && q.first.Ids() == [] && q.second.Ids() == s.done + s.pending && waiting == 0 && stopped
      ensures Shows(Pw.Stop(s))
    {
    }

    method CancelAll() returns (cancelled: bool)
      requires q.Valid()
      modifies `stopped, q.first, q.second, q.first.nodes, q.second.nodes
      ensures q.Valid() && stopped && cancelled == old(q.first.head != null)
      ensures q.first.nodes == [] && q.second.nodes == old(q.second.nodes) + old(q.first.nodes)
      ensures q.first.Ids() == [] && q.second.Ids() == old(q.second.Ids()) + old(q.first.Ids())
      ensures Marks(q.second.nodes) == old(Marks(q.second.nodes)) + Trues(|old(q.first.nodes)|)
    {
      hide Marks, Trues, IdsOf, Queues.Valid;
      stopped := true;
      cancelled := q.first.head != null;
      MoveToDone();
    }

    // while (pending_head) append_done(pending_head)
    method MoveToDone()
      requires q.Valid()
      modifies q.first, q.second, q.first.nodes, q.second.nodes
      ensures q.Valid() && q.first.nodes == [] && q.second.nodes == old(q.second.nodes) + old(q.first.nodes)
      ensures q.first.Ids() == [] && q.second.Ids() == old(q.second.Ids()) + old(q.first.Ids())
      ensures Marks(q.second.nodes) == old(Marks(q.second.nodes)) + Trues(|old(q.first.nodes)|)
    {
      ghost var all, before, marks := q.first.nodes, q.second.nodes, Marks(q.second.nodes);
      ghost var k: nat := 0;
      hide IdsOf, Apart, Linked, Marks;
      IdsOfConcat(before, all);
      assert all[k..] == all && before + all[..k] == before && marks + Trues(k) == marks;
      while q.first.head != null
        invariant q.Valid() && Moved(before, all, marks, k)
        decreases |all| - k
      {
        k := MoveNext(before, all, marks, k);
      }
    }

    // The first `k` nodes have been moved.
    ghost predicate Moved(before: seq<Node>, all: seq<Node>, marks: seq<bool>, k: nat)
      reads q, q.first, q.second, q.first.nodes, q.second.nodes
    {
      && k <= |all| && q.first.nodes == all[k..] && q.second.nodes == before + all[..k]
      && Marks(q.second.nodes) == marks + Trues(k)
    }

    method MoveNext(ghost before: seq<Node>, ghost all: seq<Node>, ghost marks: seq<bool>, ghost k: nat)
      returns (ghost next: nat)
      requires q.Valid() && q.first.head != null && Moved(before, all, marks, k)
      modifies q.first, q.second, q.first.nodes, q.second.nodes
      ensures next == k + 1 <= |all| && q.Valid() && Moved(before, all, marks, next)
    {
      hide Marks, Trues, IdsOf, Queues.Valid, Apart, Linked, Queue.Valid;
      next := k + 1;
      OneMoreTrue(marks, k);
      q.MoveOne();
      OneFurther(before, all, k, q.first.nodes);
    }

    // password_worker_pop
    method Pop(ghost s: Pw.State) returns (job: Node?)
      requires Shows(s)
      modifies q.second, q.second.nodes`next
      ensures job == null <==> s.done == []
      ensures job == null ==> Shows(s)
      ensures job != null ==> job.id == s.done[0] && job.next == null && Shows(Pw.Pop(s))
      ensures old(q.second.nodes) == (if job != null then [job] else []) + q.second.nodes
      ensures q.first.nodes == old(q.first.nodes)
    {
      assert q.second.head == null <==> s.done == [];
      hide IdsOf, Queues.Valid, Apart, Linked, Queue.Valid;
      job := null;
      if q.second.head != null {
        job := q.DetachFromSecond();
        assert q.second.Ids() == s.done[1..];
      }
    }

    // `held` is what the worker has in its hands; `all` has every node that is in a list or in its hands.
    ghost predicate Holds(held: Node?, all: set<Node>, thread: Pw.Thread)
      reads q, q.first, q.second
    {
      && (thread.Running? ==> held != null && held in all && held.id == thread.job)
      && (forall n :: n in q.first.nodes ==> n in all) && (forall n :: n in q.second.nodes ==> n in all)
    }

    lemma OtherStep(l: Pw.Label, held: Node?, all: set<Node>, s: Pw.State)
      requires Shows(s) && Pw.Enabled(s, l) && Holds(held, all, s.thread)
      requires !l.Submitting? && !l.Taking? && !l.Finishing? && !l.Stopping? && !l.Popping?
      ensures Shows(Pw.Apply(s, l)) && Holds(held, all, Pw.Apply(s, l).thread)
    {
    }

    method SubmitNew(id: nat, memory: bool, held: Node?, ghost all: set<Node>, ghost s: Pw.State)
      returns (ghost more: set<Node>)
      requires Shows(s) && Holds(held, all, s.thread)
      modifies this, q.first, all
      ensures all <= more && fresh(more - all)
      ensures Shows(Pw.Submit(s, id, memory)) && Holds(held, more, Pw.Submit(s, id, memory).thread)
    {
      hide Shows;
      var result, job := Submit(id, memory, s);
      more := all + if job != null then {job} else {};
    }

    method TakeInHand(held: Node?, ghost all: set<Node>, ghost s: Pw.State) returns (now: Node?)
      requires Shows(s) && Holds(held, all, s.thread) && Pw.Enabled(s, Pw.Taking)
      modifies this, q.first
      ensures Shows(Pw.Take(s)) && Holds(now, all, Pw.Take(s).thread)
    {
      assert q.first.head == null ==> s.pending == [];
      assert stopped == s.stopped;
      hide Shows;
      now := Take(s);
    }

    method FinishInHand(held: Node?, ghost all: set<Node>, ghost s: Pw.State)
      requires Shows(s) && Holds(held, all, s.thread) && Pw.Inv(s) && s.thread.Running?
      modifies q.second, all
      ensures Shows(Pw.Finish(s)) && Holds(held, all, Pw.Finish(s).thread)
    {
      hide Shows, Pw.Inv;
      Finish(held, s);
    }

    method StopNow(held: Node?, ghost all: set<Node>, ghost s: Pw.State)
      requires Shows(s) && Holds(held, all, s.thread)
      modifies this, q.first, q.second, all
      ensures Shows(Pw.Stop(s)) && Holds(held, all, Pw.Stop(s).thread)
    {
      hide Shows, Marks, Trues;
      var cancelled := Stop(s);
    }

    method PopOne(held: Node?, ghost all: set<Node>, ghost s: Pw.State) returns (job: Node)
      requires Shows(s) && Holds(held, all, s.thread) && s.done != []
      modifies q.second, all
      ensures Shows(Pw.Pop(s)) && Holds(held, all, Pw.Pop(s).thread) && job.id == s.done[0]
    {
      hide Shows;
      job := Pop(s);
    }

    // One step of either thread; `job` is what it hands back.
    method Step(l: Pw.Label, held: Node?, ghost all: set<Node>, ghost s: Pw.State)
      returns (now: Node?, job: Node?, ghost more: set<Node>)
      requires Shows(s) && Pw.Inv(s) && Pw.Enabled(s, l) && Holds(held, all, s.thread)
      modifies this, q.first, q.second, all
      ensures all <= more && fresh(more - all)
      ensures Shows(Pw.Apply(s, l)) && Holds(now, more, Pw.Apply(s, l).thread)
      ensures Pw.Apply(s, l).popped == s.popped + if job != null then [job.id] else []
    {
      hide Shows, Holds, Pw.Inv;
      now, job, more := held, null, all;
      match l {
        case Submitting(id, memory) => more := SubmitNew(id, memory, held, all, s);
        case Taking => now := TakeInHand(held, all, s);
        case Finishing => FinishInHand(held, all, s);
        case Stopping => StopNow(held, all, s);
        case Popping => job := PopOne(held, all, s);
        case _ => OtherStep(l, held, all, s);
      }
    }

    /** Every run of the transition system is a run of the linked lists, which hand back the same jobs. */
    static method Replay(ls: seq<Pw.Label>) returns (worker: PasswordQueues, popped: seq<nat>)
      requires Pw.Possible(Pw.Start(), ls)
      ensures worker.Shows(Pw.Run(Pw.Start(), ls)) && popped == Pw.Run(Pw.Start(), ls).popped
    {
      worker := new PasswordQueues();
      ghost var all: set<Node> := {};
      popped := worker.ReplayFrom(ls, null, all, Pw.Start());
    }

    method ReplayFrom(ls: seq<Pw.Label>, held: Node?, ghost all: set<Node>, ghost s: Pw.State)
      returns (popped: seq<nat>)
      requires Shows(s) && Pw.Inv(s) && Holds(held, all, s.thread) && Pw.Possible(s, ls)
      modifies this, q.first, q.second, all
      ensures Shows(Pw.Run(s, ls)) && s.popped + popped == Pw.Run(s, ls).popped
      decreases |ls|
    {
      popped := [];
      if ls != [] {
        Pw.StepInv(s, ls[0]);
        hide Pw.Inv, Shows, Holds, Pw.Enabled, Pw.Apply;
        var now, job;
        ghost var more;
        now, job, more := Step(ls[0], held, all, s);
        var rest := ReplayFrom(ls[1..], now, more, Pw.Apply(s, ls[0]));
        popped := (if job != null then [job.id] else []) + rest;
        HandedBack(s, ls, if job != null then [job.id] else [], rest);
      }
    }
  }

  lemma HandedBack(s: Pw.State, ls: seq<Pw.Label>, first: seq<nat>, rest: seq<nat>)
    requires ls != [] && Pw.Possible(s, ls) && Pw.Apply(s, ls[0]).popped == s.popped + first
    requires Pw.Run(s, ls).popped == Pw.Apply(s, ls[0]).popped + rest
    ensures Pw.Run(s, ls).popped == s.popped + (first + rest)
  {
  }
}
