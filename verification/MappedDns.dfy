/** The fake-address cache of hev-mapped-dns.c: one set of nodes in a
    red-black tree by name, a list by recency and an array by index. */
module MappedDns {
  import opened CStrings
  import opened Options
  import opened CacheSpec
  import opened Words
  import opened HevList
  import opened Sequences
  import opened Ordered
  import opened RBShape
  import RBTree

  /** HevMappedDNSNode */
  class Entry {
    const name: CString
    var idx: nat
    var tree: RBNode?
    var list: ListNode?

    constructor (name: CString)
      ensures this.name == name
      ensures tree != null && tree.owner == this && fresh(tree)
      ensures list != null && list.owner == this && fresh(list)
    {
      this.name, idx := name, 0;
      new;
      tree := new RBNode(this);
      list := new ListNode(this);
    }
  }

  ghost function RecordOf(e: Entry): Rec
    reads e
  {
    Rec(e.name, e.idx)
  }

  ghost function RecordsOf(s: seq<Entry>): seq<Rec>
    reads s
  {
    seq(|s|, i requires 0 <= i < |s| reads s => RecordOf(s[i]))
  }

  /** The tree links `nodes` are those embedded in the entries `s`. */
  ghost predicate Embedded(nodes: seq<RBNode>, s: seq<Entry>)
    reads s`tree
  {
    |nodes| == |s| && forall i :: 0 <= i < |s| ==> s[i].tree == nodes[i] && nodes[i].owner == s[i]
  }

  /** The list nodes are those embedded in the entries. */
  ghost predicate Mirrored(nodes: seq<ListNode>, s: seq<Entry>)
    reads s`list
  {
    |nodes| == |s| && forall i :: 0 <= i < |s| ==> s[i].list == nodes[i] && nodes[i].owner == s[i]
  }

  lemma {:induction false} MirroredMoved(nodes: seq<ListNode>, s: seq<Entry>, k: nat)
    requires Mirrored(nodes, s) && k < |s|
    ensures |nodes| == |s| && nodes[k] == s[k].list && Mirrored(Moved(nodes, k), Moved(s, k))
  {
    MovedIndex(nodes, k);
    MovedIndex(s, k);
  }

  lemma {:induction false} MirroredRest(nodes: seq<ListNode>, s: seq<Entry>)
    requires Mirrored(nodes, s) && s != []
    ensures |nodes| == |s| && nodes[0].owner == s[0] && Mirrored(nodes[1..], s[1..])
  {
  }

  lemma {:induction false} MirroredLast(nodes: seq<ListNode>, s: seq<Entry>, e: Entry)
    requires Mirrored(nodes, s) && e.list != null && e.list.owner == e
    ensures Mirrored(nodes + [e.list], s + [e])
  {
  }

  ghost function NamesOf(s: seq<Entry>): seq<CString> {
    seq(|s|, i requires 0 <= i < |s| => s[i].name)
  }

  class MappedDns {
    var use: nat
    const max: nat
    const net: word
    const mask: word
    const list: List
    const tree: RBTree.RBTree
    const records: array<Entry?>
    ghost var order: seq<Entry>   // by recency, as the list has them
    ghost var sorted: seq<Entry>  // by name, as the tree has them

    /** The indices fit the host part of the addresses. */
    ghost predicate Fits() {
      0 < max <= Signed(Not(mask))
    }

    /** hev_mapped_dns_construct, once the limits have been checked. */
    constructor (net: word, mask: word, max: nat)
      requires 0 < max <= Signed(Not(mask))
      ensures Valid() && State() == []
      ensures this.net == net && this.mask == mask && this.max == max
    {
      use, this.max, this.net, this.mask := 0, max, net, mask;
      list := new List();
      tree := new RBTree.RBTree();
      records := new Entry?[max](_ => null);
      order, sorted := [], [];
    }

    /** hev_mapped_dns_new: no cache when `max` does not fit the host part. */
    static method New(net: word, mask: word, max: nat) returns (self: MappedDns?)
      requires max > 0
      ensures self == null <==> max > Signed(Not(mask))
      ensures self != null ==> fresh(self) && self.Valid() && self.State() == []
      ensures self != null ==> self.net == net && self.mask == mask && self.max == max
    {
      if max > Signed(Not(mask)) {
        return null;
      }
      self := new MappedDns(net, mask, max);
    }

    /** The list holds the entries in the order `order`. */
    ghost predicate ListAgrees()
      reads this`order, list, list.nodes, order`list
    {
      list.Valid() && Mirrored(list.nodes, order)
    }

    /** The tree holds the entries in the order `sorted`, by falling name. */
    ghost predicate TreeAgrees()
      reads this`sorted, tree, tree.rank.Keys, sorted`tree
    {
      tree.Valid() && Embedded(tree.contents, sorted) && Falling(NamesOf(sorted), StrCmp)
    }

    /** The array holds the entries `o` by their index, and nothing else. */
    ghost predicate Indexed(o: seq<Entry>)
      reads records, o`idx
    {
      && records.Length == max && |o| <= max
      && (forall i :: 0 <= i < |o| ==> o[i].idx < |o| && records[o[i].idx] == o[i])
      && (forall i :: 0 <= i < |o| ==> records[i] != null && records[i] in o && records[i].idx == i)
      && (forall i :: |o| <= i < max ==> records[i] == null)
    }

    /** Tree, list and array hold the same entries, each once. */
    ghost predicate Valid()
      reads this, list, list.nodes, tree, tree.rank.Keys, records, order, sorted
    {
      && ListAgrees() && TreeAgrees() && Indexed(order) && use == |order|
      && Elements(order) == Elements(sorted) && NoDuplicates(order)
      && Fits()
    }

    ghost function State(): seq<Rec>
      reads this`order, order
    {
      RecordsOf(order)
    }

    /** What the three containers agree on is a state of the specification:
        distinct names, and the indices below `use`, each once. */
    lemma {:induction false} ValidInv()
      requires Valid()
      ensures Inv(State(), max) && |State()| == use && max > 0
    {
      hide ListAgrees;
      FallingEntries(sorted);
      forall i, j | 0 <= i < j < |order|
        ensures order[i].name != order[j].name && order[i].idx != order[j].idx
      {
        assert order[i] in Elements(order) && order[j] in Elements(order);
        var a := IndexIn(sorted, order[i]);
        var b := IndexIn(sorted, order[j]);
      }
    }

    /** The state of the search: `name` belongs into the subtree `t`. */
    ghost predicate Searching(c: Path, t: Shape, lo: nat, hi: nat, name: CString)
      reads this`sorted, tree`shape
    {
      Spans(tree.shape, c, t, lo, hi) && Between(NamesOf(sorted), lo, hi, name, StrCmp)
    }

    lemma {:induction false} SearchStart(name: CString)
      requires TreeAgrees()
      ensures tree.root == Root(tree.shape) && Searching(Top, tree.shape, 0, |sorted|, name)
    {
      SpansAll(tree.shape);
    }

    /** One comparison of the search. */
    lemma {:induction false} SearchCompare(c: Path, t: Shape, lo: nat, hi: nat, name: CString) returns (j: nat)
      requires TreeAgrees() && Searching(c, t, lo, hi, name) && t.Node?
      ensures t.node.left == Root(t.left) && t.node.right == Root(t.right)
      ensures j < |sorted| && t.node.owner == sorted[j]
      ensures StrCmp(sorted[j].name, name) < 0 ==> Searching(InLeft(c, t.node, t.red, t.right), t.left, lo, j, name)
      ensures StrCmp(sorted[j].name, name) > 0 ==> Searching(InRight(c, t.node, t.red, t.left), t.right, j + 1, hi, name)
      ensures StrCmp(sorted[j].name, name) == 0 ==> sorted[j].name == name
    {
      j := tree.SearchStep(c, t, lo, hi);
      StrCmpIsOrder();
      Narrow(NamesOf(sorted), lo, j, hi, name, StrCmp);
    }

    /** The search of hev_mapped_dns_find: either the entry of that name, or the
        null link where it belongs. */
    method Search(name: CString)
      returns (found: Entry?, parent: RBNode?, onLeft: bool, ghost c: Path, ghost lo: nat, ghost hi: nat)
      requires TreeAgrees()
      ensures found != null ==> hi < |sorted| && found == sorted[hi] && found.name == name
      ensures found == null ==> Searching(c, Leaf, lo, hi, name)
      ensures found == null ==> parent == Above(c) && (parent != null ==> onLeft == c.InLeft?)
    {
      hide TreeAgrees, Searching;
      found, parent, onLeft := null, null, false;
      var cur := tree.root;
      ghost var t := tree.shape;
      c, lo, hi := Top, 0, |sorted|;
      SearchStart(name);
      while cur != null
        invariant Searching(c, t, lo, hi, name) && cur == Root(t)
        invariant parent == Above(c) && (parent != null ==> onLeft == c.InLeft?)
        decreases t
      {
        ghost var j := SearchCompare(c, t, lo, hi, name);
        var node := cur.owner as Entry;
        var res := StrCmp(node.name, name);
        parent := cur;
        if res < 0 {
          c, t, hi := InLeft(c, t.node, t.red, t.right), t.left, j;
          cur, onLeft := cur.left, true;
        } else if res > 0 {
          c, t, lo := InRight(c, t.node, t.red, t.left), t.right, j + 1;
          cur, onLeft := cur.right, false;
        } else {
          found, hi := node, j;
          return;
        }
      }
    }

    /** hev_list_del and hev_list_add_tail on the list. */
    method Relink(e: Entry, ghost k: nat)
      requires ListAgrees() && k < |order| && order[k] == e
      modifies this`order, list, list.nodes
      ensures ListAgrees() && order == Moved(old(order), k)
      ensures Elements(list.nodes) == Elements(old(list.nodes))
    {
      hide List.Valid, Mirrored;
      ghost var nodes := list.nodes;
      MirroredMoved(nodes, order, k);
      var node := e.list;
      list.Del(node, k);
      list.AddTail(node);
      order := Moved(order, k);
      MovedIndex(nodes, k);
    }

    /** The entry becomes the most recent one. */
    method MoveToTail(e: Entry, ghost k: nat)
      requires Valid() && k < |order| && order[k] == e
      modifies this`order, list, list.nodes
      ensures Valid() && order == Moved(old(order), k)
      ensures State() == Moved(old(State()), k)
      ensures Elements(list.nodes) == Elements(old(list.nodes))
    {
      hide TreeAgrees, ListAgrees;
      ghost var before := order;
      ghost var records0 := RecordsOf(order);
      Relink(e, k);
      MovedIndex(before, k);
      assert RecordsOf(order) == Moved(records0, k);
    }

    /** The tree part of adding a node at the null link that the search found. */
    method AddToTree(node: Entry, parent: RBNode?, onLeft: bool, ghost c: Path, ghost lo: nat, ghost hi: nat)
      requires TreeAgrees() && Searching(c, Leaf, lo, hi, node.name)
      requires parent == Above(c) && (parent != null ==> onLeft == c.InLeft?)
      requires node.tree != null && node.tree.owner == node && node.tree !in tree.rank
      modifies this`sorted, tree, tree.rank.Keys, node.tree
      ensures TreeAgrees() && tree.rank.Keys == old(tree.rank.Keys) + {node.tree}
      ensures lo <= |old(sorted)| && sorted == Inserted(old(sorted), lo, node)
    {
      hide RBTree.RBTree.Valid;
      assert Fill(c, Leaf) == tree.shape && lo == hi == |Before(c)|;
      ghost var nodes := tree.contents;
      ghost var k := tree.Insert(node.tree, parent, onLeft, c);
      EmbeddedInserted(nodes, sorted, lo, node);
      StrCmpIsOrder();
      FallingInserted(NamesOf(sorted), lo, node.name, StrCmp);
      InsertedNames(sorted, lo, node);
      sorted := Inserted(sorted, lo, node);
    }

    /** The list part of adding a node. */
    method AddToList(node: Entry)
      requires ListAgrees() && node.list != null && node.list.owner == node && node.list !in list.nodes
      modifies this`order, list, list.nodes, node.list
      ensures ListAgrees() && order == old(order) + [node]
      ensures Elements(list.nodes) == Elements(old(list.nodes)) + {node.list}
    {
      hide List.Valid, Mirrored;
      MirroredLast(list.nodes, order, node);
      list.AddTail(node.list);
      order := order + [node];
    }

    lemma {:induction false} SortedInTree(node: Entry)
      requires TreeAgrees() && node in sorted
      ensures node.tree != null && node.tree in tree.rank
      ensures tree.Valid() && Embedded(tree.contents, sorted) && Falling(NamesOf(sorted), StrCmp)
    {
      var j :| 0 <= j < |sorted| && sorted[j] == node;
      assert tree.contents[j] == node.tree;
    }

    /** The tree part of taking a node out. */
    method TakeFromTree(node: Entry)
      requires TreeAgrees() && node in sorted
      modifies this`sorted, tree, tree.rank.Keys
      ensures TreeAgrees() && tree.rank.Keys <= old(tree.rank.Keys)
      ensures Elements(sorted) == Elements(old(sorted)) - {node}
    {
      hide *;
      SortedInTree(node);
      ghost var nodes := tree.contents;
      ghost var k := EraseLink(node);
      EmbeddedRemoved(nodes, sorted, k, node);
      SortedRemoved(sorted, k);
      sorted := Removed(sorted, k);
      AgreesNow();
    }

    lemma {:induction false} AgreesNow()
      requires tree.Valid() && Embedded(tree.contents, sorted) && Falling(NamesOf(sorted), StrCmp)
      ensures TreeAgrees()
    {
    }

    method EraseLink(node: Entry) returns (ghost k: nat)
      requires tree.Valid() && node.tree != null && node.tree in tree.rank
      modifies tree, tree.rank.Keys
      ensures tree.Valid() && tree.rank.Keys <= old(tree.rank.Keys)
      ensures k < |old(tree.contents)| && old(tree.contents)[k] == node.tree && tree.contents == Removed(old(tree.contents), k)
    {
      hide RBTree.RBTree.Valid;
      k := tree.Erase(node.tree);
    }

    /** The list part of taking the first node out. */
    method TakeFirst() returns (node: Entry)
      requires ListAgrees() && order != []
      modifies this`order, list, list.nodes
      ensures ListAgrees() && node == old(order)[0] && order == old(order)[1..]
      ensures Elements(list.nodes) <= Elements(old(list.nodes))
    {
      hide Mirrored, List.Valid;
      ghost var nodes := list.nodes;
      list.FirstIsHead();
      MirroredRest(nodes, order);
      assert nodes[..0] + nodes[1..] == nodes[1..];
      var nl := list.head;
      node := nl.owner as Entry;
      list.Del(nl, 0);
      order := order[1..];
    }

    /** Tree and list hold the same entries, each once. */
    ghost predicate Linked()
      reads this`order, this`sorted, list, list.nodes, tree, tree.rank.Keys, order`list, sorted`tree
    {
      ListAgrees() && TreeAgrees() && Elements(order) == Elements(sorted) && NoDuplicates(order)
    }

    /** A new node joins the tree and the list. */
    method Add(node: Entry, parent: RBNode?, onLeft: bool, ghost c: Path, ghost lo: nat, ghost hi: nat)
      requires Linked() && Searching(c, Leaf, lo, hi, node.name) && node !in order
      requires parent == Above(c) && (parent != null ==> onLeft == c.InLeft?)
      requires node.tree != null && node.tree.owner == node && node.tree !in tree.rank
      requires node.list != null && node.list.owner == node && node.list !in list.nodes
      modifies this`order, this`sorted, list, list.nodes, tree, tree.rank.Keys, node.tree, node.list
      ensures Linked() && order == old(order) + [node]
      ensures fresh(Elements(list.nodes) - Elements(old(list.nodes)) - {node.list})
      ensures fresh(tree.rank.Keys - old(tree.rank.Keys) - {node.tree})
    {
      hide TreeAgrees, ListAgrees, Searching;
      ghost var s := sorted;
      AddToTree(node, parent, onLeft, c, lo, hi);
      InsertedElements(s, lo, node);
      AddToList(node);
    }

    /** The least recent node leaves the list and the tree. */
    method RemoveFirst() returns (node: Entry)
      requires Linked() && order != []
      modifies this`order, this`sorted, list, list.nodes, tree, tree.rank.Keys
      ensures Linked() && node == old(order)[0] && order == old(order)[1..]
      ensures Elements(list.nodes) <= Elements(old(list.nodes)) && tree.rank.Keys <= old(tree.rank.Keys)
    {
      hide TreeAgrees, ListAgrees;
      ghost var o := order;
      node := TakeFirst();
      assert o == [o[0]] + o[1..];
      assert node in Elements(o);
      TakeFromTree(node);
    }

    /** The entry of a name has the place of the name in the state. */
    lemma {:induction false} FoundPosition(found: Entry) returns (k: nat)
      requires Valid() && found in sorted
      ensures k < |order| && order[k] == found && Position(State(), found.name) == k
    {
      assert found in Elements(sorted);
      k := IndexIn(order, found);
      var a := IndexIn(sorted, found);
      assert State()[k].name == found.name;
      var p := Position(State(), found.name);
      assert State()[p].name == order[p].name && order[p] in Elements(order);
      var b := IndexIn(sorted, order[p]);
      FallingEntries(sorted);
    }

    lemma {:induction false} NotFoundPosition(c: Path, lo: nat, hi: nat, name: CString)
      requires Valid() && Searching(c, Leaf, lo, hi, name)
      ensures Position(State(), name) == |order|
    {
      var p := Position(State(), name);
      if p < |order| {
        assert State()[p].name == order[p].name && order[p] in Elements(order);
        var b := IndexIn(sorted, order[p]);
        assert NamesOf(sorted)[b] == name;
        StrCmpIsOrder();
        NotThere(NamesOf(sorted), lo, name, StrCmp);
      }
    }

    /** The record of a new node gets the next free index. */
    method StoreNext(node: Entry, ghost o: seq<Entry>)
      requires Indexed(o) && use == |o| < max && node !in o
      modifies this`use, records, node`idx
      ensures Indexed(o + [node]) && use == |o| + 1 && node.idx == |o|
      ensures RecordsOf(o + [node]) == old(RecordsOf(o)) + [Rec(node.name, |o|)]
    {
      var idx := use;
      use := use + 1;
      records[idx] := node;
      node.idx := idx;
    }

    /** The record of a new node gets the index of the node that left. */
    method StoreInstead(node: Entry, idx: nat, ghost o: seq<Entry>)
      requires Indexed(o) && o != [] && node !in o && NoDuplicates(o) && idx == o[0].idx
      modifies records, node`idx
      ensures Indexed(o[1..] + [node]) && node.idx == idx
      ensures RecordsOf(o[1..] + [node]) == old(RecordsOf(o))[1..] + [Rec(node.name, idx)]
    {
      records[idx] := node;
      node.idx := idx;
    }

    /** A new node with the next free index. */
    method AddNext(node: Entry, ghost o: seq<Entry>)
      requires Fits() && Linked() && order == o + [node] && Indexed(o) && use == |o| < max
      modifies this`use, records, node`idx
      ensures Valid() && node.idx == |o|
      ensures State() == old(RecordsOf(o)) + [Rec(node.name, |o|)]
    {
      hide TreeAgrees, ListAgrees, Indexed;
      LastDistinct(o, node);
      StoreNext(node, o);
    }

    /** A new node with the index of the least recent node, which goes. */
    method AddInstead(node: Entry, ghost o: seq<Entry>)
      requires Fits() && Linked() && order == o + [node] && Indexed(o) && use == |o| == max && o != []
      modifies this`order, this`sorted, list, list.nodes, tree, tree.rank.Keys, records, node`idx
      ensures Valid() && node.idx == old(o[0].idx)
      ensures State() == old(RecordsOf(o))[1..] + [Rec(node.name, node.idx)]
      ensures Elements(list.nodes) <= Elements(old(list.nodes)) && tree.rank.Keys <= old(tree.rank.Keys)
    {
      hide TreeAgrees, ListAgrees, Indexed;
      LastDistinct(o, node);
      assert order[1..] == o[1..] + [node] && order[0] == o[0];
      var nf := RemoveFirst();
      StoreInstead(node, nf.idx, o);
    }

    /** hev_mapped_dns_node_alloc, and the new node joins the tree and the list. */
    method AddFresh(name: CString, parent: RBNode?, onLeft: bool, ghost c: Path, ghost lo: nat, ghost hi: nat)
      returns (node: Entry)
      requires Linked() && Searching(c, Leaf, lo, hi, name)
      requires parent == Above(c) && (parent != null ==> onLeft == c.InLeft?)
      modifies this`order, this`sorted, list, list.nodes, tree, tree.rank.Keys
      ensures Linked() && order == old(order) + [node] && node.name == name && fresh(node)
      ensures old(Indexed(order)) ==> Indexed(old(order))
      ensures RecordsOf(old(order)) == old(State())
      ensures fresh(Elements(list.nodes) - Elements(old(list.nodes))) && fresh(tree.rank.Keys - old(tree.rank.Keys))
    {
      hide TreeAgrees, ListAgrees, Searching;
      node := new Entry(name);
      Add(node, parent, onLeft, c, lo, hi);
    }

    lemma {:induction false} FindMissHere(name: CString)
      requires Valid() && Position(State(), name) == |order|
      ensures use == |order| <= max && |State()| == use && max > 0 && Fits() && Linked() && Indexed(order)
      ensures CacheSpec.Find(State(), max, name) ==
              if use < max then (State() + [Rec(name, use)], use) else (State()[1..] + [Rec(name, State()[0].idx)], State()[0].idx)
    {
    }

    /** hev_mapped_dns_find, for a name that is not there: the node gets the next
        free index, or that of the least recent node once the cache is full. */
    method AddNew(name: CString, parent: RBNode?, onLeft: bool, ghost c: Path, ghost lo: nat, ghost hi: nat)
      returns (idx: nat)
      requires Valid() && Searching(c, Leaf, lo, hi, name) && Position(State(), name) == |order|
      requires parent == Above(c) && (parent != null ==> onLeft == c.InLeft?)
      modifies this, list, list.nodes, tree, tree.rank.Keys, records
      ensures Valid() && (State(), idx) == CacheSpec.Find(old(State()), max, name)
      ensures fresh(Elements(list.nodes) - Elements(old(list.nodes))) && fresh(tree.rank.Keys - old(tree.rank.Keys))
    {
      hide TreeAgrees, ListAgrees, Indexed, Searching, Linked, Valid, CacheSpec.Find, Position;
      FindMissHere(name);
      ghost var o, s := order, State();
      var node := AddFresh(name, parent, onLeft, c, lo, hi);
      if use < max {
        AddNext(node, o);
      } else {
        AddInstead(node, o);
      }
      idx := node.idx;
    }

    /** hev_mapped_dns_find: the cache does what its specification says. */
    method Find(name: CString) returns (idx: nat)
      requires Valid()
      modifies this, list, list.nodes, tree, tree.rank.Keys, records
      ensures Valid() && (State(), idx) == CacheSpec.Find(old(State()), max, name)
      ensures fresh(Elements(list.nodes) - Elements(old(list.nodes))) && fresh(tree.rank.Keys - old(tree.rank.Keys))
    {
      hide TreeAgrees, ListAgrees, Searching, Indexed;
      var found, parent, onLeft;
      ghost var c, lo, hi;
      found, parent, onLeft, c, lo, hi := Search(name);
      if found != null {
        ghost var k := FoundPosition(found);
        idx := found.idx;
        MoveToTail(found, k);
      } else {
        NotFoundPosition(c, lo, hi, name);
        idx := AddNew(name, parent, onLeft, c, lo, hi);
      }
    }

    /** The record array and the list agree on who has an index. */
    lemma {:induction false} LookupReads(idx: nat)
      requires Valid()
      ensures records.Length == max && |State()| == |order|
      ensures idx >= max ==> Slot(State(), idx) == |order|
      ensures idx < max ==>
        var k := Slot(State(), idx);
        if records[idx] == null then k == |order|
        else k < |order| && order[k] == records[idx] && State()[k].name == order[k].name
    {
      hide TreeAgrees, ListAgrees;
      assert forall i :: 0 <= i < |order| ==> State()[i].idx == order[i].idx < max;
      if idx < max && records[idx] != null {
        var j := IndexIn(order, records[idx]);
        assert State()[j].idx == idx;
      }
    }

    /** hev_mapped_dns_lookup */
    method Lookup(ip: word) returns (name: Option<CString>)
      requires Valid()
      modifies this, list, list.nodes
      ensures Valid() && (State(), name) == CacheSpec.Lookup(old(State()), And(ip, Not(mask)))
    {
      hide TreeAgrees, ListAgrees, Indexed, Slot, Valid;
      var idx := And(ip, Not(mask));
      LookupReads(idx);
      if idx >= max {
        return None;
      }
      var node := records[idx];
      if node == null {
        return None;
      }
      MoveToTail(node, Slot(State(), idx));
      name := Some(node.name);
    }
  }

  lemma {:induction false} LastDistinct(o: seq<Entry>, e: Entry)
    requires NoDuplicates(o + [e])
    ensures NoDuplicates(o) && e !in o
  {
    var s := o + [e];
    assert s[|o|] == e && forall i :: 0 <= i < |o| ==> s[i] == o[i];
  }

  lemma {:induction false} InsertedNames(s: seq<Entry>, k: nat, e: Entry)
    requires k <= |s|
    ensures NamesOf(Inserted(s, k, e)) == Inserted(NamesOf(s), k, e.name)
  {
    var r, names := Inserted(s, k, e), NamesOf(s);
    var a, b := NamesOf(r), Inserted(names, k, e.name);
    forall i | 0 <= i < |r|
      ensures a[i] == b[i]
    {
      assert r[i] == if i < k then s[i] else if i == k then e else s[i - 1];
      assert b[i] == if i < k then names[i] else if i == k then e.name else names[i - 1];
    }
  }

  lemma {:induction false} EmbeddedInserted(nodes: seq<RBNode>, s: seq<Entry>, k: nat, e: Entry)
    requires Embedded(nodes, s) && k <= |s| && e.tree != null && e.tree.owner == e
    ensures Embedded(Inserted(nodes, k, e.tree), Inserted(s, k, e))
  {
    var n', s' := Inserted(nodes, k, e.tree), Inserted(s, k, e);
    forall i | 0 <= i < |s'|
      ensures s'[i].tree == n'[i] && n'[i].owner == s'[i]
    {
      assert s'[i] == if i < k then s[i] else if i == k then e else s[i - 1];
      assert n'[i] == if i < k then nodes[i] else if i == k then e.tree else nodes[i - 1];
    }
  }

  lemma {:induction false} EmbeddedRemoved(nodes: seq<RBNode>, s: seq<Entry>, k: nat, e: Entry)
    requires Embedded(nodes, s) && k < |nodes| && nodes[k] == e.tree && e in s
    ensures k < |s| && s[k] == e && Embedded(Removed(nodes, k), Removed(s, k))
  {
    var n', s' := Removed(nodes, k), Removed(s, k);
    forall i | 0 <= i < |s'|
      ensures s'[i].tree == n'[i] && n'[i].owner == s'[i]
    {
      assert s'[i] == (if i < k then s[i] else s[i + 1]) && n'[i] == (if i < k then nodes[i] else nodes[i + 1]);
    }
  }

  lemma {:induction false} RemovedNames(s: seq<Entry>, k: nat)
    requires k < |s|
    ensures NamesOf(Removed(s, k)) == Removed(NamesOf(s), k)
  {
    var a, b := NamesOf(Removed(s, k)), Removed(NamesOf(s), k);
    assert forall i :: 0 <= i < |s| - 1 ==> a[i] == s[if i < k then i else i + 1].name == b[i];
  }

  /** Names in order are those of different entries. */
  lemma {:induction false} FallingEntries(s: seq<Entry>)
    requires Falling(NamesOf(s), StrCmp)
    ensures NoDuplicates(s) && forall i, j :: 0 <= i < j < |s| ==> s[i].name != s[j].name
  {
    StrCmpIsOrder();
    FallingDistinct(NamesOf(s), StrCmp);
    forall i, j | 0 <= i < j < |s|
      ensures s[i].name != s[j].name
    {
      assert NamesOf(s)[i] != NamesOf(s)[j];
    }
  }

  lemma {:induction false} SortedRemoved(s: seq<Entry>, k: nat)
    requires Falling(NamesOf(s), StrCmp) && k < |s|
    ensures Falling(NamesOf(Removed(s, k)), StrCmp) && Elements(Removed(s, k)) == Elements(s) - {s[k]}
  {
    FallingEntries(s);
    RemovedSet(s, k);
    FallingRemoved(NamesOf(s), k, StrCmp);
    RemovedNames(s, k);
  }
}
