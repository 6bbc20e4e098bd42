/** Singly linked lists in the heap, as the source builds them with malloc and free. */
module Lists {

  class Node<T> {
    var value: T
    var next: Node?<T>

    constructor (value: T, next: Node?<T>)
      ensures this.value == value && this.next == next
    {
      this.value := value;
      this.next := next;
    }
  }

  /** The nodes, first to last, of the list that starts at head. */
  ghost predicate IsChain<T>(head: Node?<T>, nodes: seq<Node<T>>)
    reads nodes
  {
    && (nodes == [] <==> head == null)
    && (nodes != [] ==> head == nodes[0] && nodes[|nodes| - 1].next == null)
    && (forall i :: 0 <= i < |nodes| - 1 ==> nodes[i].next == nodes[i + 1])
    && (forall i, j :: 0 <= i < j < |nodes| ==> nodes[i] != nodes[j])
  }

  ghost function Values<T>(nodes: seq<Node<T>>): seq<T>
    reads nodes
  {
    seq(|nodes|, i requires 0 <= i < |nodes| reads nodes => nodes[i].value)
  }

  lemma ChainHead<T>(head: Node?<T>, nodes: seq<Node<T>>)
    requires IsChain(head, nodes)
    ensures head == if nodes == [] then null else nodes[0]
  {
  }

  lemma NextOf<T>(head: Node?<T>, nodes: seq<Node<T>>, i: nat)
    requires IsChain(head, nodes) && i < |nodes|
    ensures nodes[i].next == null <==> i == |nodes| - 1
    ensures i < |nodes| - 1 ==> nodes[i].next == nodes[i + 1]
  {
  }

  lemma Popped<T>(head: Node<T>, nodes: seq<Node<T>>)
    requires IsChain(head, nodes)
    ensures nodes != [] && IsChain(head.next, nodes[1..])
    ensures Values(nodes) == [head.value] + Values(nodes[1..])
  {
    var rest := nodes[1..];
    assert nodes == [head] + rest;
    assert if |nodes| > 1 then nodes[0].next == nodes[1] else nodes[0].next == null;
    assert forall i :: 0 <= i < |rest| ==> rest[i] == nodes[i + 1];
    assert Values(nodes) == [head.value] + Values(rest);
  }

  lemma Pushed<T>(node: Node<T>, nodes: seq<Node<T>>)
    requires IsChain(node.next, nodes) && node !in nodes
    ensures IsChain(node, [node] + nodes)
    ensures Values([node] + nodes) == [node.value] + Values(nodes)
  {
    var more := [node] + nodes;
    assert forall i :: 1 <= i < |more| ==> more[i] == nodes[i - 1];
    assert Values(more) == [node.value] + Values(nodes);
  }

  /** The list without the element behind element i. */
  function Skipped<T>(s: seq<T>, i: nat): seq<T>
    requires i + 1 < |s|
  {
    s[..i + 1] + s[i + 2..]
  }

  /** Nodes linked as before, except that node i now skips the next one, form the shorter list. */
  lemma ChainSkipped<T>(head: Node?<T>, nodes: seq<Node<T>>, i: nat)
    requires i + 1 < |nodes|
    requires head == nodes[0] && forall j, k :: 0 <= j < k < |nodes| ==> nodes[j] != nodes[k]
    requires forall j :: 0 <= j < |nodes| - 1 && j != i ==> nodes[j].next == nodes[j + 1]
    requires nodes[i].next == if i + 2 < |nodes| then nodes[i + 2] else null
    requires i + 2 < |nodes| ==> nodes[|nodes| - 1].next == null
    ensures IsChain(head, Skipped(nodes, i))
  {
    var rest := Skipped(nodes, i);
    assert forall j :: 0 <= j < |rest| ==> rest[j] == nodes[if j <= i then j else j + 1];
  }
}
