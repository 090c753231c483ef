/** The linked queues of sthread_lib/queue.c, which share one spare element. */
module Queues {
  import opened Base

  class Node<T> {
    var thread: Option<T>
    var next: Node?<T>

    constructor (thread: T)
      ensures this.thread == Some(thread) && next == null
    {
      this.thread := Some(thread);
      next := null;
    }
  }

  class Queue<T> {
    var first: Node?<T>
    var last: Node?<T>
    ghost var nodes: seq<Node<T>>

    constructor ()
      ensures first == null && nodes == []
    {
      first, last, nodes := null, null, [];
    }

    /** The elements are linked one to the next, and each holds a thread. */
    ghost predicate Linked()
      reads this, nodes
    {
      && (first == null <==> nodes == [])
      && (nodes != [] ==> first == nodes[0] && last == nodes[|nodes| - 1] && nodes[|nodes| - 1].next == null)
      && (forall i | 0 <= i < |nodes| - 1 :: nodes[i].next == nodes[i + 1])
      && (forall i, j | 0 <= i < j < |nodes| :: nodes[i] != nodes[j])
      && (forall i | 0 <= i < |nodes| :: nodes[i].thread.Some?)
    }

    ghost function Contents(): (s: seq<T>)
      reads this, nodes
      requires Linked()
      ensures |s| == |nodes|
    {
      seq(|nodes|, i requires 0 <= i < |nodes| reads this, nodes requires Linked() => nodes[i].thread.value)
    }

    /** The links that `queue_insert` sets. */
    method Append(element: Node<T>)
      requires Linked() && element !in nodes && element.thread.Some? && element.next == null
      modifies this, if nodes == [] then {} else {nodes[|nodes| - 1]}
      ensures Linked() && nodes == old(nodes) + [element]
      ensures Contents() == old(Contents()) + [element.thread.value] && last == element
      ensures element.thread == old(element.thread)
    {
      if first == null {
        first, last := element, element;
      } else {
        last.next := element;
        last := element;
      }
      nodes := nodes + [element];
    }

    /** The links that `queue_remove` sets. */
    method Detach() returns (temp: Node<T>, thread: T)
      requires Linked() && nodes != []
      modifies this, nodes[0]
      ensures Linked() && temp == old(nodes)[0] == old(first) && nodes == old(nodes)[1..] && temp !in nodes
      ensures thread == old(Contents())[0] && Contents() == old(Contents())[1..]
    {
      temp := first;
      first := temp.next;
      thread := temp.thread.value;
      temp.thread := None;
      temp.next := null;
      assert |nodes| > 1 ==> first == nodes[1];
      nodes := nodes[1..];
    }
  }

  /** All queues there are, and the spare element. */
  class Pool<T> {
    var empty: Node?<T>
    ghost var queues: set<Queue<T>>
    ghost var owner: map<Node<T>, Queue<T>>

    constructor ()
      ensures Valid() && queues == {} && empty == null
    {
      empty, queues, owner := null, {}, map[];
    }

    /** No element is in two queues, and the spare one is in none. */
    ghost predicate Valid()
      reads this, queues, owner.Keys
    {
      && (forall q, i | q in queues && 0 <= i < |q.nodes| :: q.nodes[i] in owner && owner[q.nodes[i]] == q)
      && (forall q | q in queues :: q.Linked())
      && empty !in owner
    }

    /** `create_queue`, which forgets the spare element. */
    method CreateQueue() returns (q: Queue<T>)
      requires Valid()
      modifies this
      ensures Valid() && fresh(q) && queues == old(queues) + {q} && q.Contents() == [] && empty == null
      ensures forall p | p in old(queues) :: p.Contents() == old(p.Contents())
    {
      q := new Queue();
      empty := null;
      queues := queues + {q};
    }

    /** The element for a new entry: the spare one if there is one. */
    method TakeElement(thread: T) returns (element: Node<T>)
      requires Valid()
      modifies this`empty, if empty == null then {} else {empty}
      ensures Valid() && element !in owner && element.thread == Some(thread) && element.next == null
      ensures empty == null && if old(empty) == null then fresh(element) else element == old(empty)
      ensures forall p | p in queues :: p.Contents() == old(p.Contents())
    {
      if empty == null {
        element := new Node(thread);
      } else {
        element := empty;
        empty := null;
        element.thread := Some(thread);
        element.next := null;
      }
    }

    /** The element becomes the last one of `q`. */
    method Attach(q: Queue<T>, element: Node<T>)
      requires Valid() && q in queues && empty == null
      requires element !in owner && element.thread.Some? && element.next == null
      modifies this`owner, q, q.nodes
      ensures Valid() && q.Contents() == old(q.Contents()) + [element.thread.value]
      ensures element.thread == old(element.thread) && q.last == element
      ensures forall p | p in queues && p != q :: p.Contents() == old(p.Contents())
    {
      hide Queue.Linked, Queue.Contents;
      q.Append(element);
      owner := owner[element := q];
      forall p | p in queues && p != q ensures p.Linked() {
        assert forall i | 0 <= i < |p.nodes| :: owner[p.nodes[i]] == p;
      }
    }

    /** `queue_insert`. */
    method Insert(q: Queue<T>, thread: T)
      requires Valid() && q in queues
      modifies this`empty, this`owner, q, q.nodes, if empty == null then {} else {empty}
      ensures Valid() && q.Contents() == old(q.Contents()) + [thread]
      ensures empty == null && if old(empty) == null then fresh(q.last) else q.last == old(empty)
      ensures forall p | p in queues && p != q :: p.Contents() == old(p.Contents())
    {
      hide Queue.Linked, Queue.Contents;
      var element := TakeElement(thread);
      Attach(q, element);
    }

    /** `queue_is_empty`. */
    method IsEmpty(q: Queue<T>) returns (b: bool)
      requires Valid() && q in queues
      ensures b == (q.Contents() == [])
    {
      b := q.first == null;
    }

    /** `queue_first`. */
    method First(q: Queue<T>) returns (thread: T)
      requires Valid() && q in queues && q.Contents() != []
      ensures thread == q.Contents()[0]
    {
      thread := q.first.thread.value;
    }

    /** The first element leaves `q`, and is in no queue then. */
    method Release(q: Queue<T>) returns (temp: Node<T>, thread: T)
      requires Valid() && q in queues && q.Contents() != []
      modifies this`owner, q, q.nodes
      ensures Valid() && temp !in owner && temp == old(q.first)
      ensures thread == old(q.Contents())[0] && q.Contents() == old(q.Contents())[1..]
      ensures forall p | p in queues && p != q :: p.Contents() == old(p.Contents())
    {
      hide Queue.Linked, Queue.Contents;
      temp, thread := q.Detach();
      owner := owner - {temp};
      forall p | p in queues && p != q ensures p.Linked() {
        assert forall i | 0 <= i < |p.nodes| :: owner[p.nodes[i]] == p;
      }
    }

    /** `queue_remove`, which keeps the element as the spare one unless there is one. */
    method Remove(q: Queue<T>) returns (thread: T)
      requires Valid() && q in queues && q.Contents() != []
      modifies this`empty, this`owner, q, q.nodes
      ensures Valid() && thread == old(q.Contents())[0] && q.Contents() == old(q.Contents())[1..]
      ensures empty == (if old(empty) == null then old(q.first) else old(empty)) && empty != null
      ensures forall p | p in queues && p != q :: p.Contents() == old(p.Contents())
    {
      hide Queue.Linked, Queue.Contents;
      var temp;
      temp, thread := Release(q);
      if empty == null {
        empty := temp;
      }
    }
  }
}
