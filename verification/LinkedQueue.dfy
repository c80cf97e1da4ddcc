/** The intrusive singly linked queues of src/db.c and src/app/password_worker.c. */
module LinkedQueue {

  class Node {
    const id: nat
    var next: Node?
    var cancelled: bool

    constructor (id: nat)
      ensures this.id == id && next == null && !cancelled
    {
      this.id, next, cancelled := id, null, false;
    }
  }

  function IdsOf(nodes: seq<Node>): (ids: seq<nat>)
    ensures |ids| == |nodes| && forall i :: 0 <= i < |ids| ==> ids[i] == nodes[i].id
  {
    seq(|nodes|, i requires 0 <= i < |nodes| => nodes[i].id)
  }

  // Distinct nodes, each with a pointer to the next.
  ghost predicate Linked(nodes: seq<Node>)
    reads nodes
  {
    && (forall i, j :: 0 <= i < j < |nodes| ==> nodes[i] != nodes[j])
    && forall i :: 0 <= i < |nodes| ==> nodes[i].next == NodeAt(nodes, i + 1)
  }

  function NodeAt(nodes: seq<Node>, i: nat): Node? {
    if i < |nodes| then nodes[i] else null
  }

  lemma LinkedTail(nodes: seq<Node>)
    requires nodes != [] && Linked(nodes)
    ensures Linked(nodes[1..]) && nodes == [nodes[0]] + nodes[1..]
    ensures nodes[0].next == NodeAt(nodes[1..], 0) && nodes[0] !in nodes[1..]
  {
    var rest := nodes[1..];
    forall i | 0 <= i < |rest| ensures rest[i].next == NodeAt(rest, i + 1) {
      assert rest[i] == nodes[i + 1] && NodeAt(rest, i + 1) == NodeAt(nodes, i + 2);
    }
  }

  lemma IdsOfCons(n: Node, nodes: seq<Node>)
    ensures IdsOf([n] + nodes) == [n.id] + IdsOf(nodes)
  {
  }

  lemma IdsOfConcat(a: seq<Node>, b: seq<Node>)
    ensures IdsOf(a + b) == IdsOf(a) + IdsOf(b)
  {
  }

  lemma IdsOfSnoc(nodes: seq<Node>, n: Node)
    ensures IdsOf(nodes + [n]) == IdsOf(nodes) + [n.id]
  {
  }

  class Queue {
    var head: Node?
    var tail: Node?
    ghost var nodes: seq<Node>

    ghost predicate Valid()
      reads this, nodes
    {
      && Linked(nodes)
      && head == (if nodes == [] then null else nodes[0])
      && tail == (if nodes == [] then null else nodes[|nodes| - 1])
    }

    ghost function Ids(): seq<nat>
      reads this
    {
      IdsOf(nodes)
    }

    constructor ()
      ensures Valid() && nodes == []
    {
      head, tail, nodes := null, null, [];
    }

    /** At the end of the queue. */
    method Append(n: Node)
      requires Valid() && n !in nodes
      modifies this, n`next, nodes`next
      ensures Valid() && nodes == old(nodes) + [n] && Ids() == old(Ids()) + [n.id]
    {
      n.next := null;
      if tail != null {
        tail.next := n;
      } else {
        head := n;
      }
      tail := n;
      IdsOfSnoc(nodes, n);
      nodes := nodes + [n];
    }

    /** From the front of the queue. */
    method TakeFirst() returns (n: Node)
      requires Valid() && head != null
      modifies this
      ensures Valid() && old(nodes) == [n] + nodes && n !in nodes && old(Ids()) == [n.id] + Ids()
    {
      LinkedTail(nodes);
      hide Linked;
      n := head;
      head := n.next;
      if head == null {
        tail := null;
      }
      nodes := nodes[1..];
      IdsOfCons(n, nodes);
    }
  }
}
