/** qlist.h: an intrusive circular doubly linked list, shown to behave as a sequence. */
module QList {

  class Node<T(0)> {
    var next: Node<T>
    var prev: Node<T>
    var item: T

    constructor (item: T)
      ensures Ring([this]) && this.item == item
    {
      next, prev, this.item := this, this, item;
    }
  }

  /** The nodes of one list, head first: next and prev walk round them, and none occurs twice. */
  ghost predicate Ring<T(0)>(nodes: seq<Node<T>>)
    reads nodes
  {
    var n := |nodes|;
    && n > 0
    && (forall i :: 0 <= i < n - 1 ==> nodes[i].next == nodes[i + 1]) && nodes[n - 1].next == nodes[0]
    && (forall i :: 1 <= i < n ==> nodes[i].prev == nodes[i - 1]) && nodes[0].prev == nodes[n - 1]
    && (forall i, j :: 0 <= i < j < n ==> nodes[i] != nodes[j])
  }

  /** qlist_init. */
  method Init<T(0)>(node: Node<T>)
    modifies node
    ensures Ring([node]) && node.item == old(node.item)
  {
    node.next := node;
    node.prev := node;
  }

  /** qlist_add_tail. */
  method AddTail<T(0)>(head: Node<T>, item: Node<T>, ghost nodes: seq<Node<T>>)
    requires Ring(nodes) && nodes[0] == head && item !in nodes
    modifies item, nodes
    ensures Ring(nodes + [item]) && item.item == old(item.item)
    ensures forall i :: 0 <= i < |nodes| ==> nodes[i].item == old(nodes[i].item)
  {
    item.next := head;
    item.prev := head.prev;
    head.prev.next := item;
    head.prev := item;
  }

  /** qlist_remove: the neighbours are joined; the removed node keeps its own pointers. */
  method Remove<T(0)>(item: Node<T>, ghost nodes: seq<Node<T>>, ghost k: nat)
    requires Ring(nodes) && 0 < k < |nodes| && nodes[k] == item
    modifies nodes
    ensures Ring(nodes[..k] + nodes[k + 1..])
    ensures item.next == old(item.next) && item.prev == old(item.prev)
    ensures forall i :: 0 <= i < |nodes| ==> nodes[i].item == old(nodes[i].item)
  {
    ghost var after := if k + 1 < |nodes| then nodes[k + 1] else nodes[0];
    assert item.next == nodes[k].next == after && item.prev == nodes[k].prev == nodes[k - 1];
    item.next.prev := item.prev;
    item.prev.next := item.next;
    ghost var rest := nodes[..k] + nodes[k + 1..];
    forall i | 0 <= i < |rest| - 1
      ensures rest[i].next == rest[i + 1] && rest[i + 1].prev == rest[i]
    {
      if i >= k {
        assert rest[i] == nodes[i + 1] && rest[i + 1] == nodes[i + 2];
        assert nodes[i + 1].next == nodes[i + 2] && nodes[i + 2].prev == nodes[i + 1];
      }
    }
  }

  /** A sequence without its first element that satisfies p. */
  function DropWhere<T>(s: seq<T>, p: T -> bool): seq<T> {
    if s == [] then [] else if p(s[0]) then s[1..] else [s[0]] + DropWhere(s[1..], p)
  }

  lemma {:induction false} DropWhereAt<T>(s: seq<T>, p: T -> bool, k: nat)
    requires k <= |s| && forall i :: 0 <= i < k ==> !p(s[i])
    ensures k < |s| && p(s[k]) ==> DropWhere(s, p) == s[..k] + s[k + 1..]
    ensures k == |s| ==> DropWhere(s, p) == s
  {
    if k > 0 {
      DropWhereAt(s[1..], p, k - 1);
      if k < |s| && p(s[k]) {
        assert [s[0]] + (s[1..][..k - 1] + s[1..][k..]) == s[..k] + s[k + 1..];
      }
    }
  }

  /** A list head together with its nodes, seen as the sequence of the items on it. */
  class List<T(0)> {
    const head: Node<T>
    ghost var nodes: seq<Node<T>>

    constructor (filler: T)
      ensures Valid() && Items() == [] && fresh(nodes)
    {
      head := new Node(filler);
      new;
      nodes := [head];
    }

    ghost predicate Valid()
      reads this, nodes
    {
      Ring(nodes) && nodes[0] == head
    }

    ghost function Items(): (s: seq<T>)
      requires Valid()
      reads this, nodes
      ensures |s| == |nodes| - 1
    {
      seq(|nodes| - 1, i requires 0 <= i < |nodes| - 1 reads this, nodes => nodes[i + 1].item)
    }

    /** qlist_empty. */
    method Empty() returns (empty: bool)
      requires Valid()
      ensures empty <==> Items() == []
    {
      assert nodes[0].next == if |nodes| > 1 then nodes[1] else nodes[0];
      empty := head == head.next;
    }

    /** The item at qlist_head. */
    method First() returns (x: T)
      requires Valid() && Items() != []
      ensures x == Items()[0]
    {
      x := head.next.item;
    }

    method Append(x: T)
      requires Valid()
      modifies this, nodes
      ensures Valid() && Items() == old(Items()) + [x] && fresh(nodes[|nodes| - 1]) && nodes[..|nodes| - 1] == old(nodes)
    {
      var node := new Node(x);
      AddTail(head, node, nodes);
      nodes := nodes + [node];
    }

    method Unlink(node: Node<T>, ghost k: nat)
      requires Valid() && 0 < k < |nodes| && nodes[k] == node
      modifies this, nodes
      ensures Valid() && Items() == old(Items())[..k - 1] + old(Items())[k..]
      ensures nodes == old(nodes)[..k] + old(nodes)[k + 1..]
    {
      Remove(node, nodes, k);
      nodes := nodes[..k] + nodes[k + 1..];
    }

    method DropFirst()
      requires Valid() && Items() != []
      modifies this, nodes
      ensures Valid() && Items() == old(Items())[1..]
      ensures forall x :: x in nodes ==> x in old(nodes)
    {
      Unlink(head.next, 1);
    }

    /** qlist_for_each up to the first item that satisfies p, which is then removed. */
    method RemoveWhere(p: T -> bool)
      requires Valid()
      modifies this, nodes
      ensures Valid() && Items() == DropWhere(old(Items()), p)
      ensures forall x :: x in nodes ==> x in old(nodes)
    {
      hide DropWhere;
      var node := head.next;
      ghost var k := 1;
      while node != head
        invariant 1 <= k <= |nodes| && node == (if k < |nodes| then nodes[k] else head)
        invariant forall i :: 0 <= i < k - 1 ==> !p(Items()[i])
        decreases |nodes| - k
      {
        assert node.item == Items()[k - 1];
        if p(node.item) {
          DropWhereAt(Items(), p, k - 1);
          Unlink(node, k);
          return;
        }
        node := node.next;
        k := k + 1;
      }
      DropWhereAt(Items(), p, k - 1);
    }
  }
}
