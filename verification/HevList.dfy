/** The doubly linked list of hev-list.c, edited in place. */
module HevList {

  /** An intrusive list link; `owner` is the object it is embedded in (what
      `container_of` recovers). */
  class ListNode {
    var next: ListNode?
    var prev: ListNode?
    const owner: object

    constructor (owner: object)
      ensures this.owner == owner
    {
      this.owner := owner;
      next, prev := null, null;
    }
  }

  class List {
    var head: ListNode?
    var tail: ListNode?
    ghost var nodes: seq<ListNode>  // the linked nodes, from head to tail

    constructor ()
      ensures Valid() && nodes == []
    {
      head, tail, nodes := null, null, [];
    }

    ghost predicate Valid()
      reads this, nodes
    {
      && (forall i, j :: 0 <= i < j < |nodes| ==> nodes[i] != nodes[j])
      && head == (if nodes == [] then null else nodes[0])
      && tail == (if nodes == [] then null else nodes[|nodes| - 1])
      && (nodes != [] ==> nodes[0].prev == null && nodes[|nodes| - 1].next == null)
      && (forall i {:trigger nodes[i].prev} :: 1 <= i < |nodes| ==> nodes[i].prev == nodes[i - 1])
      && (forall i {:trigger nodes[i].next} :: 0 <= i < |nodes| - 1 ==> nodes[i].next == nodes[i + 1])
    }

    lemma {:induction false} FirstIsHead()
      requires Valid()
      ensures nodes != [] ==> head == nodes[0]
    {
    }

    /** hev_list_add_tail */
    method AddTail(node: ListNode)
      requires Valid() && node !in nodes
      modifies this, node, nodes
      ensures Valid() && nodes == old(nodes) + [node]
    {
      node.prev := tail;
      node.next := null;
      if tail != null {
        tail.next := node;
      } else {
        head := node;
      }
      tail := node;
      nodes := nodes + [node];
    }

    /** hev_list_del: exactly `node`, the `k`-th one, leaves the list. */
    method Del(node: ListNode, ghost k: nat)
      requires Valid() && k < |nodes| && nodes[k] == node
      modifies this, nodes
      ensures Valid() && nodes == old(nodes[..k] + nodes[k + 1..])
      ensures node !in nodes
    {
      if node.prev != null {
        node.prev.next := node.next;
      } else {
        head := node.next;
      }
      if node.next != null {
        node.next.prev := node.prev;
      } else {
        tail := node.prev;
      }
      nodes := nodes[..k] + nodes[k + 1..];
    }
  }
}
