/** Singly linked lists as the C code keeps them: a head pointer and nodes that point on. */
module Lists {
  class Node<T> {
    var data: T
    var next: Node?<T>

    constructor (data: T, next: Node?<T>)
      ensures this.data == data && this.next == next
    {
      this.data, this.next := data, next;
    }
  }

  /** Each node is linked to the next, the last one to nothing. */
  ghost predicate Linked<T>(head: Node?<T>, nodes: seq<Node<T>>)
    reads nodes
  {
    && head == (if nodes == [] then null else nodes[0])
    && (forall i {:trigger After(nodes, i)} | 0 <= i < |nodes| :: nodes[i].next == After(nodes, i))
  }

  ghost function After<T>(nodes: seq<Node<T>>, i: nat): Node?<T> {
    if i + 1 < |nodes| then nodes[i + 1] else null
  }

  /** No node comes twice: the list has no cycle. */
  ghost predicate Distinct<T>(nodes: seq<Node<T>>) {
    forall i, j | 0 <= i < j < |nodes| :: nodes[i] != nodes[j]
  }

  ghost predicate Hold<T(!new)>(nodes: seq<Node<T>>, list: seq<T>)
    reads nodes
  {
    |nodes| == |list| && forall i | 0 <= i < |nodes| :: nodes[i].data == list[i]
  }

  lemma DistinctFrom<T>(nodes: seq<Node<T>>, k: nat)
    requires Distinct(nodes) && k < |nodes|
    ensures forall i | 0 <= i < |nodes| && i != k :: nodes[i] != nodes[k]
  {
  }

  lemma DistinctCons<T>(node: Node<T>, nodes: seq<Node<T>>)
    requires Distinct(nodes) && node !in nodes
    ensures Distinct([node] + nodes)
  {
  }

  lemma DistinctWithout<T>(nodes: seq<Node<T>>, k: nat)
    requires Distinct(nodes) && k < |nodes|
    ensures Distinct(nodes[..k] + nodes[k + 1..])
  {
    var r := nodes[..k] + nodes[k + 1..];
    assert forall i | 0 <= i < |r| :: r[i] == nodes[if i < k then i else i + 1];
  }

  lemma HeadIs<T>(head: Node?<T>, nodes: seq<Node<T>>)
    requires Linked(head, nodes)
    ensures head == if nodes == [] then null else nodes[0]
  {
  }

  /** The list `head` starts, as nodes and as what they hold. */
  ghost predicate IsList<T(!new)>(head: Node?<T>, nodes: seq<Node<T>>, list: seq<T>)
    reads nodes
  {
    Linked(head, nodes) && Distinct(nodes) && Hold(nodes, list)
  }

  method Push<T(!new)>(head: Node?<T>, data: T, ghost nodes: seq<Node<T>>, ghost list: seq<T>) returns (node: Node<T>)
    requires IsList(head, nodes, list)
    ensures fresh(node) && node.data == data
    ensures IsList(node, [node] + nodes, [data] + list)
  {
    hide Distinct;
    node := new Node(data, head);
    DistinctCons(node, nodes);
    ghost var all := [node] + nodes;
    forall i | 0 <= i < |all| ensures all[i].next == After(all, i) {
      if i > 0 { assert all[i] == nodes[i - 1] && nodes[i - 1].next == After(nodes, i - 1); }
    }
  }

  /** `*ptr = (*ptr)->next`: one link is redirected past node `k`. */
  method Detach<T(!new)>(head: Node?<T>, previous: Node?<T>, current: Node<T>,
                         ghost k: nat, ghost nodes: seq<Node<T>>, ghost list: seq<T>)
    returns (newHead: Node?<T>)
    requires IsList(head, nodes, list) && k < |nodes| && current == nodes[k]
    requires previous == if k == 0 then null else nodes[k - 1]
    modifies nodes`next
    ensures IsList(newHead, nodes[..k] + nodes[k + 1..], list[..k] + list[k + 1..])
  {
    hide Distinct;
    DistinctWithout(nodes, k);
    assert current.next == After(nodes, k);
    if previous == null {
      newHead := current.next;
    } else {
      DistinctFrom(nodes, k - 1);
      newHead := head;
      previous.next := current.next;
    }
    ghost var rest, left := nodes[..k] + nodes[k + 1..], list[..k] + list[k + 1..];
    forall i | 0 <= i < |rest| ensures rest[i].next == After(rest, i) {
      var j := if i < k then i else i + 1;
      assert rest[i] == nodes[j] && old(nodes[j].next) == After(nodes, j);
    }
    assert Linked(newHead, rest);
    hide Linked;
    forall i | 0 <= i < |rest| ensures rest[i].data == left[i] {
      assert rest[i] == nodes[if i < k then i else i + 1];
    }
  }
}
