/** The doubly linked list that the work queues and the bulk operations use. */
module LinkedList {
  import opened Common

  class Node<T> {
    var data: T
    var next: Node?<T>
    var prev: Node?<T>

    constructor (data: T)
      ensures this.data == data && next == null && prev == null
    {
      this.data, next, prev := data, null, null;
    }
  }

  class List<T> {
    var head: Node?<T>
    var tail: Node?<T>
    var count: nat
    ghost var nodes: seq<Node<T>>

    ghost predicate Valid()
      reads this, nodes
    {
      && count == |nodes|
      && (forall i, j :: 0 <= i < j < |nodes| ==> nodes[i] != nodes[j])
      && (nodes == [] ==> head == null && tail == null)
      && (nodes != [] ==> head == nodes[0] && head.prev == null && tail == nodes[|nodes| - 1] && tail.next == null)
      && (forall i {:trigger nodes[i].next} :: 0 <= i < |nodes| - 1 ==> nodes[i].next == nodes[i + 1])
      && (forall i {:trigger nodes[i].prev} :: 0 < i < |nodes| ==> nodes[i].prev == nodes[i - 1])
    }

    /** The list as a sequence, head first. */
    ghost function Contents(): (s: seq<T>)
      reads this, nodes
      ensures |s| == |nodes|
    {
      seq(|nodes|, i requires 0 <= i < |nodes| reads this, nodes => nodes[i].data)
    }

    constructor ()
      ensures Valid() && Contents() == [] && nodes == []
    {
      head, tail, count, nodes := null, null, 0, [];
    }

    method Insert(data: T)
      requires Valid()
      modifies this, nodes
      ensures Valid() && Contents() == old(Contents()) + [data]
      ensures fresh(set n | n in nodes && n !in old(nodes))
    {
      var node := new Node(data);
      if head == null {
        head := node;
      }
      if tail != null {
        tail.next := node;
        node.prev := tail;
      }
      tail := node;
      count := count + 1;
      nodes := nodes + [node];
    }

    method PopHead() returns (data: Option<T>)
      requires Valid()
      modifies this, nodes
      ensures Valid()
      ensures old(Contents()) == [] ==> data == None && Contents() == []
      ensures old(Contents()) != [] ==> data == Some(old(Contents())[0]) && Contents() == old(Contents())[1..]
      ensures forall n :: n in nodes ==> n in old(nodes)
    {
      if head == null {
        return None;
      }
      data := Some(head.data);
      head := head.next;
      count := count - 1;
      if head != null {
        head.prev := null;
      } else {
        tail := null;
      }
      nodes := nodes[1..];
    }

    method GetAt(index: nat) returns (data: Option<T>)
      requires Valid()
      ensures data == if index < |Contents()| then Some(Contents()[index]) else None
    {
      if head == null || index >= count {
        return None;
      }
      var current, k := head, 0;
      while k < index && current != null
        invariant k <= index && current == nodes[k]
        decreases index - k
      {
        k := k + 1;
        current := current.next;
      }
      data := Some(current.data);
    }

    method InsertMany(data: seq<T>)
      requires Valid()
      modifies this, nodes
      ensures Valid() && Contents() == old(Contents()) + data
    {
      for i := 0 to |data|
        invariant Valid() && Contents() == old(Contents()) + data[..i]
        invariant fresh(set n | n in nodes && n !in old(nodes))
      {
        Insert(data[i]);
      }
      assert data[..|data|] == data;
    }
  }
}
