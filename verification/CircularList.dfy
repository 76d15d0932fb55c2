/** The circular doubly linked list of the DMA driver (lib/drivers/dmac.c). */
module CircularList {

  class Node {
    var next: Node?
    var prev: Node?

    constructor () {
      next, prev := null, null;
    }
  }

  predicate Distinct(nodes: seq<Node>) { forall i, j :: 0 <= i < j < |nodes| ==> nodes[i] != nodes[j] }

  function After(i: nat, n: nat): nat { if i + 1 == n then 0 else i + 1 }

  /** The nodes, head first, are distinct and linked into one ring, in both directions. */
  ghost predicate Ring(nodes: seq<Node>)
    reads nodes
  {
    && nodes != [] && Distinct(nodes)
    && (forall i :: 0 <= i < |nodes| ==> nodes[i].next == nodes[After(i, |nodes|)])
    && (forall i :: 0 <= i < |nodes| ==> nodes[After(i, |nodes|)].prev == nodes[i])
  }

  // ----- walking -----

  function NodeSet(nodes: seq<Node>): set<Node> { set n | n in nodes }

  /** The nodes met by following `next` k times from n, as long as the walk stays inside `frame`. */
  ghost function Forward(n: Node?, k: nat, frame: set<Node>): seq<Node>
    reads frame
  {
    if k == 0 || n == null || n !in frame then [] else [n] + Forward(n.next, k - 1, frame)
  }

  ghost function Backward(n: Node?, k: nat, frame: set<Node>): seq<Node>
    reads frame
  {
    if k == 0 || n == null || n !in frame then [] else [n] + Backward(n.prev, k - 1, frame)
  }

  function Reversed<T>(s: seq<T>): (r: seq<T>)
    ensures |r| == |s| && forall i :: 0 <= i < |s| ==> r[i] == s[|s| - 1 - i]
  {
    seq(|s|, i requires 0 <= i < |s| => s[|s| - 1 - i])
  }

  lemma {:induction false} ForwardFrom(nodes: seq<Node>, i: nat)
    requires Ring(nodes) && i < |nodes|
    ensures Forward(nodes[i], |nodes| - i, NodeSet(nodes)) == nodes[i..]
    decreases |nodes| - i
  {
    assert nodes[i] in NodeSet(nodes);
    if i + 1 < |nodes| {
      ForwardFrom(nodes, i + 1);
      assert nodes[i].next == nodes[After(i, |nodes|)];
    }
  }

  lemma {:induction false} BackwardFrom(nodes: seq<Node>, i: nat)
    requires Ring(nodes) && i < |nodes|
    ensures Backward(nodes[i], i + 1, NodeSet(nodes)) == Reversed(nodes[..i + 1])
  {
    assert nodes[i] in NodeSet(nodes);
    if i > 0 {
      BackwardFrom(nodes, i - 1);
      assert nodes[After(i - 1, |nodes|)].prev == nodes[i - 1];
      assert Reversed(nodes[..i + 1]) == [nodes[i]] + Reversed(nodes[..i]);
    } else {
      assert Reversed(nodes[..1]) == [nodes[0]];
    }
  }

  lemma HeadPrev(nodes: seq<Node>)
    requires Ring(nodes)
    ensures nodes != [] && nodes[0].prev == nodes[|nodes| - 1]
  {
    assert nodes[After(|nodes| - 1, |nodes|)].prev == nodes[|nodes| - 1];
  }

  /** Going round once from the head visits the list and ends at the head; going round backwards visits the
      same nodes in the opposite order. */
  lemma WalksAreTheList(head: Node, list: seq<Node>)
    requires Ring([head] + list)
    ensures Forward(head, |list| + 1, NodeSet([head] + list)) == [head] + list
    ensures Backward(head.prev, |list| + 1, NodeSet([head] + list)) == Reversed([head] + list)
  {
    hide *;
    var nodes := [head] + list;
    ForwardFrom(nodes, 0);
    BackwardFrom(nodes, |list|);
    HeadPrev(nodes);
    assert nodes[0..] == nodes && nodes[..|list| + 1] == nodes;
  }

  // ----- the operations -----

  lemma InsertedDistinct(nodes: seq<Node>, i: nat, node: Node)
    requires i < |nodes| && Distinct(nodes) && node !in nodes
    ensures Distinct(Inserted(nodes, i, node))
  {
    var m := Inserted(nodes, i, node);
    forall j, k | 0 <= j < k < |m|
      ensures m[j] != m[k]
    {
      assert j <= i ==> m[j] == nodes[j];
      assert j > i + 1 ==> m[j] == nodes[j - 1];
      assert k <= i ==> m[k] == nodes[k];
      assert k > i + 1 ==> m[k] == nodes[k - 1];
    }
  }

  /** list_add: the new node goes between two neighbours, wherever they are in the ring. */
  method ListAdd(node: Node, prev: Node, next: Node, ghost nodes: seq<Node>, ghost i: nat)
    requires Ring(nodes) && i < |nodes| && prev == nodes[i] && next == nodes[After(i, |nodes|)]
    requires node !in nodes
    modifies node, prev`next, next`prev
    ensures Ring(Inserted(nodes, i, node))
  {
    next.prev := node;
    node.next := next;
    node.prev := prev;
    prev.next := node;
    ghost var m, n := Inserted(nodes, i, node), |nodes|;
    InsertedDistinct(nodes, i, node);
    forall j | 0 <= j < |m|
      ensures m[j].next == m[After(j, |m|)]
    {
      if j == i + 1 {
        assert m[j] == node;
      } else {
        var k := if j <= i then j else j - 1;
        assert m[j] == nodes[k] && (k == i <==> nodes[k] == prev);
      }
    }
    forall j | 0 <= j < |m|
      ensures m[After(j, |m|)].prev == m[j]
    {
      if j == i {
        assert m[After(j, |m|)] == node;
      } else if j == i + 1 {
        assert m[After(j, |m|)] == next;
      } else {
        var k := if j < i then j else j - 1;
        assert m[j] == nodes[k] && m[After(j, |m|)] == nodes[After(k, n)] != next;
      }
    }
  }

  function Inserted(nodes: seq<Node>, i: nat, node: Node): seq<Node>
    requires i < |nodes|
  {
    nodes[..i + 1] + [node] + nodes[i + 1..]
  }

  /** list_add_tail: the list grows by the node at its end; only the node, the head and the last node change. */
  method ListAddTail(node: Node, head: Node, ghost list: seq<Node>, ghost last: Node)
    requires Ring([head] + list) && node !in [head] + list && last == ([head] + list)[|list|]
    modifies node, head`prev, last`next
    ensures Ring([head] + (list + [node]))
  {
    ghost var nodes := [head] + list;
    assert nodes[After(|list|, |nodes|)].prev == nodes[|list|];
    ListAdd(node, head.prev, head, nodes, |list|);
    assert Inserted(nodes, |list|, node) == [head] + (list + [node]);
  }

  /** INIT_LIST_HEAD */
  method InitListHead(list: Node)
    modifies list
    ensures Ring([list] + [])
  {
    list.next := list;
    list.prev := list;
  }

  /** Any sequence of distinct nodes can be built up behind a fresh head, in order. */
  method LinkAll(head: Node, items: seq<Node>)
    requires Distinct([head] + items)
    modifies head, items
    ensures Ring([head] + items)
    ensures Forward(head, |items| + 1, NodeSet([head] + items)) == [head] + items
    ensures Backward(head.prev, |items| + 1, NodeSet([head] + items)) == Reversed([head] + items)
  {
    InitListHead(head);
    for i := 0 to |items|
      invariant Ring([head] + items[..i])
    {
      assert items[i] == ([head] + items)[i + 1];
      assert items[i] !in [head] + items[..i] by { FreshNode(head, items, i); }
      ListAddTail(items[i], head, items[..i], ([head] + items[..i])[i]);
      assert items[..i] + [items[i]] == items[..i + 1];
    }
    assert items[..|items|] == items;
    WalksAreTheList(head, items);
  }

  lemma FreshNode(head: Node, items: seq<Node>, i: nat)
    requires Distinct([head] + items) && i < |items|
    ensures items[i] !in [head] + items[..i]
  {
    var all := [head] + items;
    forall j | 0 <= j < i + 1
      ensures ([head] + items[..i])[j] != items[i]
    {
      assert ([head] + items[..i])[j] == all[j] && items[i] == all[i + 1];
    }
  }
}
