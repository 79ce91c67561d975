/** The worker's FIFO: a singly linked list with a head and a tail pointer. Both operations run with
    the queue's mutex held; `QueueMonitor` is about the locking and waiting around them. */
module RequestQueue {

  class Node<T> {
    const request: T
    var next: Node?<T>

    constructor (request: T)
      ensures this.request == request && next == null
    {
      this.request := request;
      next := null;
    }
  }

  class Queue<T> {
    var head: Node?<T>
    var tail: Node?<T>
    var depth: nat
    ghost var nodes: seq<Node<T>>

    /** The nodes are chained in order, without sharing, and the counter counts them. */
    ghost predicate Valid()
      reads this, nodes
    {
      && head == (if nodes == [] then null else nodes[0])
      && tail == (if nodes == [] then null else nodes[|nodes| - 1])
      && (forall i, j :: 0 <= i && j == i + 1 && j < |nodes| ==> nodes[i].next == nodes[j])
      && (nodes != [] ==> nodes[|nodes| - 1].next == null)
      && (forall i, j :: 0 <= i < j < |nodes| ==> nodes[i] != nodes[j])
      && depth == |nodes|
    }

    /** The requests that wait, the next one to be served first. */
    ghost function Contents(): (c: seq<T>)
      reads this, nodes
      ensures |c| == |nodes| && forall i :: 0 <= i < |nodes| ==> c[i] == nodes[i].request
    {
      seq(|nodes|, i requires 0 <= i < |nodes| reads this, nodes => nodes[i].request)
    }

    constructor ()
      ensures Valid() && Contents() == [] && nodes == []
    {
      head, tail, depth, nodes := null, null, 0, [];
    }

    /** The linking done by `queue_push`. */
    method Link(r: Node<T>)
      requires Valid() && r !in nodes
      modifies this, nodes, r
      ensures Valid() && nodes == old(nodes) + [r]
      ensures Contents() == old(Contents()) + [r.request] && depth == old(depth) + 1
    {
      r.next := null;
      if tail == null {
        head, tail := r, r;
      } else {
        tail.next := r;
        tail := r;
      }
      depth := depth + 1;
      nodes := nodes + [r];
    }

    /** The unlinking done by `queue_pop`; null when nothing waits. */
    method Unlink() returns (r: Node?<T>)
      requires Valid()
      modifies this
      ensures Valid()
      ensures old(Contents()) == [] ==> r == null && Contents() == []
      ensures old(Contents()) != [] ==>
                && r != null && r == old(nodes)[0] && nodes == old(nodes)[1..]
                && r.request == old(Contents())[0] && Contents() == old(Contents())[1..]
                && depth == old(depth) - 1
    {
      if head == null {
        return null;
      }
      r := head;
      head := r.next;
      if head == null { tail := null; }
      if depth > 0 { depth := depth - 1; }
      nodes := nodes[1..];
    }
  }
}
