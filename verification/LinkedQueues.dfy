/** The intrusive list behind the FIFO queues and the linked stack behind the LIFO queues, as the
    manager uses them: one caller at a time, each node in one list. */
module LinkedQueues {
  import opened Sequences

  class ListNode<T> {
    const item: T
    var next: ListNode?<T>

    constructor (item: T)
      ensures this.item == item && next == null
    {
      this.item := item;
      this.next := null;
    }
  }

  /** The nodes are distinct, each links to the one behind it, and the last one ends the chain. */
  ghost predicate Chain<T>(head: ListNode?<T>, nodes: seq<ListNode<T>>)
    reads nodes
  {
    && NoDup(nodes)
    && head == (if nodes == [] then null else nodes[0])
    && (forall i, j :: 0 <= i && j == i + 1 && j < |nodes| ==> nodes[i].next == nodes[j])
    && (nodes != [] ==> nodes[|nodes| - 1].next == null)
  }

  lemma ChainCons<T>(node: ListNode<T>, head: ListNode?<T>, nodes: seq<ListNode<T>>)
    requires Chain(head, nodes) && node !in nodes && node.next == head
    ensures Chain(node, [node] + nodes)
  {
  }

  lemma ChainTail<T>(head: ListNode?<T>, nodes: seq<ListNode<T>>)
    requires Chain(head, nodes) && nodes != []
    ensures Chain(nodes[0].next, nodes[1..])
  {
  }

  ghost function Items<T>(nodes: seq<ListNode<T>>): seq<T> {
    seq(|nodes|, i requires 0 <= i < |nodes| => nodes[i].item)
  }

  class IntrusiveList<T> {
    var head: ListNode?<T>
    var tail: ListNode?<T>
    var size: nat
    ghost var nodes: seq<ListNode<T>>

    ghost predicate Valid()
      reads this, nodes
    {
      && Chain(head, nodes) && size == |nodes|
      && tail == if nodes == [] then null else nodes[|nodes| - 1]
    }

    constructor ()
      ensures Valid() && nodes == []
    {
      head, tail, size, nodes := null, null, 0, [];
    }

    method PushFront(node: ListNode<T>)
      requires Valid() && node !in nodes
      modifies this, node
      ensures Valid() && nodes == [node] + old(nodes)
    {
      node.next := head;
      ChainCons(node, head, nodes);
      head := node;
      if node.next == null {
        tail := node;
      }
      size := size + 1;
      nodes := [node] + nodes;
    }

    method PushBack(node: ListNode<T>)
      requires Valid() && node !in nodes
      modifies this, nodes, node
      ensures Valid() && nodes == old(nodes) + [node]
    {
      node.next := null;
      var prevTail := tail;
      tail := node;
      if prevTail != null {
        prevTail.next := node;
      } else {
        head := node;
      }
      size := size + 1;
      nodes := nodes + [node];
    }

    method PopFront() returns (node: ListNode?<T>)
      requires Valid()
      modifies this
      ensures Valid()
      ensures old(nodes) == [] ==> node == null && nodes == []
      ensures old(nodes) != [] ==> node == old(nodes)[0] && nodes == old(nodes)[1..]
    {
      node := head;
      if node == null {
        return;
      }
      ChainTail(head, nodes);
      var next := node.next;
      head := next;
      if next == null {
        tail := null;
      }
      size := size - 1;
      nodes := nodes[1..];
    }
  }

  /** First in, first out: items leave in the order they arrived. */
  class Queue<T> {
    const list: IntrusiveList<T>

    ghost function Contents(): seq<T>
      reads list
    {
      Items(list.nodes)
    }

    ghost predicate Valid()
      reads list, list.nodes
    {
      list.Valid()
    }

    constructor ()
      ensures Valid() && fresh(list) && Contents() == []
    {
      list := new IntrusiveList<T>();
    }

    method Enqueue(item: T)
      requires Valid()
      modifies list, list.nodes
      ensures Valid() && fresh(set n | n in list.nodes && n !in old(list.nodes))
      ensures Contents() == old(Contents()) + [item]
    {
      var node := new ListNode<T>(item);
      list.PushBack(node);
    }

    method Dequeue() returns (node: ListNode?<T>)
      requires Valid()
      modifies list
      ensures Valid()
      ensures node == null <==> old(Contents()) == []
      ensures node != null ==> old(Contents()) == [node.item] + Contents()
    {
      node := list.PopFront();
    }
  }

  /** Last in, first out. */
  class Stack<T> {
    var head: ListNode?<T>
    var size: nat
    ghost var nodes: seq<ListNode<T>>

    ghost function Contents(): seq<T>
      reads this
    {
      Items(nodes)
    }

    ghost predicate Valid()
      reads this, nodes
    {
      Chain(head, nodes) && size == |nodes|
    }

    constructor ()
      ensures Valid() && Contents() == []
    {
      head, size, nodes := null, 0, [];
    }

    method Push(item: T)
      requires Valid()
      modifies this
      ensures Valid() && Contents() == [item] + old(Contents())
    {
      var node := new ListNode<T>(item);
      node.next := head;
      ChainCons(node, head, nodes);
      head := node;
      size := size + 1;
      nodes := [node] + nodes;
    }

    method Pop() returns (node: ListNode?<T>)
      requires Valid()
      modifies this
      ensures Valid()
      ensures node == null <==> old(Contents()) == []
      ensures node != null ==> old(Contents()) == [node.item] + Contents()
    {
      node := head;
      if node == null {
        return;
      }
      ChainTail(head, nodes);
      head := node.next;
      size := size - 1;
      nodes := nodes[1..];
    }
  }
}
