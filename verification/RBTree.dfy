/** The red-black tree of hev-rbtree.c, rebalanced in place. */
module RBTree {
  import opened Sequences
  import opened RBShape
  import opened RBLinks
  import opened RBErase

  class RBTree {
    var root: RBNode?
    ghost var shape: Shape
    ghost var contents: seq<RBNode>  // the nodes of the tree, in order
    ghost var rank: map<RBNode, real>

    constructor ()
      ensures Valid() && contents == [] && fresh(this)
    {
      root, shape, contents, rank := null, Leaf, [], map[];
    }

    ghost function Links(): (m: Links)
      reads this`rank, rank.Keys
    {
      map n | n in rank :: Cell(n.left, n.right, n.parent, n.red, rank[n])
    }

    /** The fields of the nodes spell `shape`, a red-black tree. */
    ghost predicate Whole()
      reads this, rank.Keys
    {
      At(Top, shape) && RedBlack(shape) && InOrder(shape) == contents
    }

    ghost predicate Valid()
      reads this, rank.Keys
    {
      Whole() && rank.Keys == Elements(contents)
    }

    ghost predicate At(c: Path, t: Shape)
      reads this`root, this`rank, rank.Keys
    {
      Focus(Links(), root, c, t)
    }

    /** hev_rbtree_change_child */
    method ChangeChild(old_: RBNode, new_: RBNode?, parent: RBNode?)
      modifies this`root, if parent == null then {} else {parent}
      ensures if parent == null then root == new_ else
                && root == old(root)
                && parent.parent == old(parent.parent) && parent.red == old(parent.red)
                && parent.left == (if old(parent.left) == old_ then new_ else old(parent.left))
                && parent.right == (if old(parent.left) == old_ then old(parent.right) else new_)
    {
      if parent != null {
        if parent.left == old_ {
          parent.left := new_;
        } else {
          parent.right := new_;
        }
      } else {
        root := new_;
      }
    }

    /** Insertion, case 1 (the uncle is red): colour flips. */
    method Flip(gparent: RBNode, parent: RBNode, uncle: RBNode)
      requires gparent in rank && parent in rank && uncle in rank
      requires parent.parent == gparent && uncle.parent == gparent
      requires gparent != parent && parent != uncle && uncle != gparent
      modifies gparent, parent, uncle
      ensures Flipped(old(Links()), Links(), parent, gparent, uncle)
    {
      uncle.parent, uncle.red := gparent, false;
      parent.parent, parent.red := gparent, false;
      gparent.red := true;
    }

    /** hev_rbtree_rotate_set_parents */
    method RotateSetParents(old_: RBNode, new_: RBNode, red: bool)
      requires old_ != new_ && old_.parent != old_ && old_.parent != new_
      modifies `root, new_, old_, if old_.parent == null then {} else {old_.parent}
      ensures new_.parent == old(old_.parent) && new_.red == old(old_.red)
      ensures old_.parent == new_ && old_.red == red
      ensures new_.left == old(new_.left) && new_.right == old(new_.right)
      ensures old_.left == old(old_.left) && old_.right == old(old_.right)
      ensures var q := old(old_.parent); if q == null then root == new_ else
                && root == old(root)
                && q.parent == old(q.parent) && q.red == old(q.red)
                && q.left == (if old(q.left) == old_ then new_ else old(q.left))
                && q.right == (if old(q.left) == old_ then old(q.right) else new_)
    {
      var parent := old_.parent;
      new_.parent, new_.red := old_.parent, old_.red;
      old_.parent, old_.red := new_, red;
      ChangeChild(old_, new_, parent);
    }

    /** Insertion, case 2 (inner grandchild on the left): the part of a left
        rotation at `parent` that case 3 does not overwrite. */
    method InsertFoldLeft(node: RBNode, parent: RBNode, gparent: RBNode)
      requires Rotatable(Links(), node, parent, node.left, gparent)
      requires node.left != null ==> !node.left.red
      requires parent.red
      modifies rank.Keys
      ensures FoldedLeft(old(Links()), Links(), node, parent)
    {
      var tmp := node.left;
      parent.right := tmp;
      node.left := parent;
      if tmp != null {
        tmp.parent, tmp.red := parent, false;
      }
      parent.parent, parent.red := node, true;
    }

    /** Rotate right at `gparent`, which turns red: case 3 of the insertion with
        an outer grandchild on the left, and case 1 of the erasure with a red
        sibling `parent` on the left. */
    method RotateRight(parent: RBNode, gparent: RBNode)
      requires Rotatable(Links(), parent, gparent, parent.right, gparent.parent)
      requires parent.right != null ==> !parent.right.red
      modifies this`root, rank.Keys
      ensures RotatedRight(old(Links()), Links(), parent, gparent, true)
      ensures root == if old(gparent.parent) == null then parent else old(root)
    {
      var tmp := parent.right;
      gparent.left := tmp;
      parent.right := gparent;
      if tmp != null {
        tmp.parent, tmp.red := gparent, false;
      }
      RotateSetParents(gparent, parent, true);
    }

    /** Case 3 on the left, at the subtree in focus. */
    method InsertOuterLeft(parent: RBNode, gparent: RBNode, ghost c: Path, ghost a: Shape, ghost b: Shape, ghost d: Shape)
      requires At(c, Node(Node(a, parent, true, b), gparent, false, d)) && !IsRed(b)
      modifies this`root, rank.Keys
      ensures At(c, Node(a, parent, false, Node(b, gparent, true, d)))
    {
      ghost var m := Links();
      RotatableRight(m, root, c, a, parent, true, b, gparent, false, d);
      RotateRight(parent, gparent);
      RotateRightFocus(m, Links(), old(root), c, true, a, parent, true, b, gparent, false, d);
    }

    /** Case 2 on the left and the case 3 that it turns into. */
    method InsertInnerLeft(node: RBNode, parent: RBNode, gparent: RBNode,
                           ghost c: Path, ghost a: Shape, ghost b: Shape, ghost e: Shape, ghost d: Shape)
      requires At(c, Node(Node(a, parent, true, Node(b, node, true, e)), gparent, false, d)) && !IsRed(b) && !IsRed(e)
      modifies this`root, rank.Keys
      ensures At(c, Node(Node(a, parent, true, b), node, false, Node(e, gparent, true, d)))
    {
      ghost var m := Links();
      InnerLeftBetween(m, root, c, a, parent, b, node, e, gparent, d);
      InsertFoldLeft(node, parent, gparent);
      ghost var mi := Links();
      InnerLeftRotatable(m, mi, root, c, a, parent, b, node, e, gparent, d);
      RotateRight(node, gparent);
      InnerLeftAfter(m, mi, Links(), old(root), c, a, parent, b, node, e, gparent, d);
    }

    /** Insertion, case 2 (inner grandchild on the right): the part of a right
        rotation at `parent` that case 3 does not overwrite. */
    method InsertFoldRight(node: RBNode, parent: RBNode, gparent: RBNode)
      requires Rotatable(Links(), node, parent, node.right, gparent)
      requires node.right != null ==> !node.right.red
      requires parent.red
      modifies rank.Keys
      ensures FoldedRight(old(Links()), Links(), node, parent)
    {
      var tmp := node.right;
      parent.left := tmp;
      node.right := parent;
      if tmp != null {
        tmp.parent, tmp.red := parent, false;
      }
      parent.parent, parent.red := node, true;
    }

    /** Rotate left at `gparent`, which turns red: case 3 of the insertion with
        an outer grandchild on the right, and case 1 of the erasure with a red
        sibling `parent` on the right. */
    method RotateLeft(parent: RBNode, gparent: RBNode)
      requires Rotatable(Links(), parent, gparent, parent.left, gparent.parent)
      requires parent.left != null ==> !parent.left.red
      modifies this`root, rank.Keys
      ensures RotatedLeft(old(Links()), Links(), parent, gparent, true)
      ensures root == if old(gparent.parent) == null then parent else old(root)
    {
      var tmp := parent.left;
      gparent.right := tmp;
      parent.left := gparent;
      if tmp != null {
        tmp.parent, tmp.red := gparent, false;
      }
      RotateSetParents(gparent, parent, true);
    }

    /** Case 3 on the right, at the subtree in focus. */
    method InsertOuterRight(parent: RBNode, gparent: RBNode, ghost c: Path, ghost a: Shape, ghost b: Shape, ghost d: Shape)
      requires At(c, Node(d, gparent, false, Node(b, parent, true, a))) && !IsRed(b)
      modifies this`root, rank.Keys
      ensures At(c, Node(Node(d, gparent, true, b), parent, false, a))
    {
      ghost var m := Links();
      RotatableLeft(m, root, c, a, parent, true, b, gparent, false, d);
      RotateLeft(parent, gparent);
      RotateLeftFocus(m, Links(), old(root), c, true, a, parent, true, b, gparent, false, d);
    }

    /** Case 2 on the right and the case 3 that it turns into. */
    method InsertInnerRight(node: RBNode, parent: RBNode, gparent: RBNode,
                           ghost c: Path, ghost a: Shape, ghost b: Shape, ghost e: Shape, ghost d: Shape)
      requires At(c, Node(d, gparent, false, Node(Node(e, node, true, b), parent, true, a))) && !IsRed(b) && !IsRed(e)
      modifies this`root, rank.Keys
      ensures At(c, Node(Node(d, gparent, true, e), node, false, Node(b, parent, true, a)))
    {
      ghost var m := Links();
      InnerRightBetween(m, root, c, a, parent, b, node, e, gparent, d);
      InsertFoldRight(node, parent, gparent);
      ghost var mi := Links();
      InnerRightRotatable(m, mi, root, c, a, parent, b, node, e, gparent, d);
      RotateLeft(node, gparent);
      InnerRightAfter(m, mi, Links(), old(root), c, a, parent, b, node, e, gparent, d);
    }

    /** Puts the tree together again once everything is in balance. */
    ghost method Close(c: Path, t: Shape, h: nat)
      requires At(c, t) && Balanced(t, h) && PathBalanced(c, h, IsRed(t)) && InOrder(Fill(c, t)) == contents
      modifies this`shape
      ensures Whole()
    {
      FocusFill(Links(), root, c, t);
      FillBalanced(c, t, h);
      shape := Fill(c, t);
    }

    /** Insertion with a black uncle, on the left. */
    method InsertRebalanceLeft(node: RBNode, parent: RBNode, gparent: RBNode, ghost c: Path, ghost t: Shape, ghost h: nat)
      requires At(c, t) && RedFocus(c, t, h) && t.node == node
      requires !c.Top? && c.red && c.node == parent && c.up.InLeft? && c.up.node == gparent && !IsRed(c.up.other)
      requires InOrder(Fill(c, t)) == contents
      modifies this`root, this`shape, rank.Keys
      ensures Whole()
    {
      RedFocusCases(c, t, h);
      FocusUp(Links(), root, c, t);
      FocusUp(Links(), root, c.up, UpFrom(c, t));
      InsertView(Links(), root, c, t);
      ghost var o, d := c.other, c.up.other;
      ghost var g: Shape;
      if node == parent.right {
        InsertInnerLeft(node, parent, gparent, c.up.up, o, t.left, t.right, d);
        g := Node(Node(o, parent, true, t.left), node, false, Node(t.right, gparent, true, d));
        RotateTwiceInOrder(o, parent, t.left, node, t.right, gparent, d, true, true, false, true, false, true);
      } else {
        InsertOuterLeft(parent, gparent, c.up.up, t, o, d);
        g := Node(t, parent, false, Node(o, gparent, true, d));
        RotateInOrder(t, parent, o, gparent, d, true, false, false, true);
      }
      FillSameInOrder(c.up.up, g, UpFrom(c.up, UpFrom(c, t)));
      Close(c.up.up, g, h + 1);
    }

    /** Insertion with a black uncle, on the right. */
    method InsertRebalanceRight(node: RBNode, parent: RBNode, gparent: RBNode, ghost c: Path, ghost t: Shape, ghost h: nat)
      requires At(c, t) && RedFocus(c, t, h) && t.node == node
      requires !c.Top? && c.red && c.node == parent && c.up.InRight? && c.up.node == gparent && !IsRed(c.up.other)
      requires InOrder(Fill(c, t)) == contents
      modifies this`root, this`shape, rank.Keys
      ensures Whole()
    {
      RedFocusCases(c, t, h);
      FocusUp(Links(), root, c, t);
      FocusUp(Links(), root, c.up, UpFrom(c, t));
      InsertView(Links(), root, c, t);
      ghost var o, d := c.other, c.up.other;
      ghost var g: Shape;
      if node == parent.left {
        InsertInnerRight(node, parent, gparent, c.up.up, o, t.right, t.left, d);
        g := Node(Node(d, gparent, true, t.left), node, false, Node(t.right, parent, true, o));
        RotateTwiceInOrder(d, gparent, t.left, node, t.right, parent, o, false, true, true, true, false, true);
      } else {
        InsertOuterRight(parent, gparent, c.up.up, t, o, d);
        g := Node(Node(d, gparent, true, o), parent, false, t);
        RotateInOrder(d, gparent, o, parent, t, true, false, false, true);
      }
      FillSameInOrder(c.up.up, g, UpFrom(c.up, UpFrom(c, t)));
      Close(c.up.up, g, h + 1);
    }

    /** Insertion with a red uncle. */
    method InsertFlip(parent: RBNode, gparent: RBNode, uncle: RBNode, ghost c: Path, ghost t: Shape, ghost h: nat)
      returns (ghost g: Shape)
      requires At(c, t) && RedFocus(c, t, h)
      requires !c.Top? && c.red && c.node == parent && !c.up.Top? && c.up.node == gparent
      requires IsRed(c.up.other) && c.up.other.node == uncle
      modifies gparent, parent, uncle
      ensures At(c.up.up, g) && RedFocus(c.up.up, g, h + 1) && g.node == gparent
      ensures InOrder(Fill(c.up.up, g)) == InOrder(Fill(c, t))
      ensures gparent.parent == Above(c.up.up)
    {
      FocusUp(Links(), root, c, t);
      FocusUp(Links(), root, c.up, UpFrom(c, t));
      InsertView(Links(), root, c.up, UpFrom(c, t));
      OtherView(Links(), root, c.up, UpFrom(c, t));
      ghost var m, p, u := Links(), UpFrom(c, t), c.up.other;
      ghost var p', u' := Node(p.left, p.node, false, p.right), Node(u.left, u.node, false, u.right);
      Flip(gparent, parent, uncle);
      if c.up.InLeft? {
        g := Node(p', gparent, true, u');
        FlipFocus(m, Links(), root, c.up.up, p.left, parent, true, p.right, gparent, c.up.red, u.left, uncle, true, u.right);
      } else {
        g := Node(u', gparent, true, p');
        FlipFocus(m, Links(), root, c.up.up, u.left, uncle, true, u.right, gparent, c.up.red, p.left, parent, true, p.right);
      }
      FlipBalanced(c, t, h, g);
    }

    /** Insertion that has reached the root. */
    method InsertRoot(node: RBNode, ghost c: Path, ghost t: Shape, ghost h: nat)
      requires At(c, t) && RedFocus(c, t, h) && t.node == node && c.Top?
      requires InOrder(Fill(c, t)) == contents
      modifies this`shape, node
      ensures Whole()
    {
      ghost var m := Links();
      RedFocusCases(c, t, h);
      node.parent, node.red := null, false;
      RecolorFocus(m, Links(), root, c, t, false);
      Close(c, Node(t.left, t.node, false, t.right), h + 1);
    }

    /** One turn of the loop of the insertion.  Either the tree is whole again
        or the red grandparent comes into focus, two levels up. */
    method InsertTurn(node: RBNode, parent: RBNode?, ghost c: Path, ghost t: Shape, ghost h: nat)
      returns (done: bool, up: RBNode, ghost g: Shape)
      requires At(c, t) && RedFocus(c, t, h) && t.node == node && parent == Above(c)
      requires InOrder(Fill(c, t)) == contents
      modifies this`root, this`shape, rank.Keys
      ensures done ==> Whole()
      ensures !done ==> !c.Top? && !c.up.Top? && At(c.up.up, g) && RedFocus(c.up.up, g, h + 1) && g.node == up
      ensures !done ==> InOrder(Fill(c.up.up, g)) == contents && Depth(c.up.up) < Depth(c)
    {
      InsertReads(Links(), root, c, t, h);
      done, up, g := true, node, t;
      if parent == null {
        InsertRoot(node, c, t, h);
      } else if !parent.red {
        Close(c, t, h);
      } else {
        var gparent := parent.parent;
        var tmp := gparent.right;
        if parent != tmp {
          if tmp != null && tmp.red {
            g := InsertFlip(parent, gparent, tmp, c, t, h);
            done, up := false, gparent;
          } else {
            InsertRebalanceLeft(node, parent, gparent, c, t, h);
          }
        } else {
          tmp := gparent.left;
          if tmp != null && tmp.red {
            g := InsertFlip(parent, gparent, tmp, c, t, h);
            done, up := false, gparent;
          } else {
            InsertRebalanceRight(node, parent, gparent, c, t, h);
          }
        }
      }
    }

    /** hev_rbtree_insert_color, started with the red subtree `t0` in the hole
        of `c0`: everything is balanced, except that the parent may be red. */
    method InsertColor(node0: RBNode, ghost c0: Path, ghost t0: Shape, ghost h0: nat)
      requires At(c0, t0) && RedFocus(c0, t0, h0) && t0.node == node0
      requires InOrder(Fill(c0, t0)) == contents
      modifies this`root, this`shape, rank.Keys
      ensures Whole()
    {
      var node := node0;
      ghost var c, t, h := c0, t0, h0;
      while true
        invariant At(c, t) && RedFocus(c, t, h) && node == t.node
        invariant InOrder(Fill(c, t)) == contents
        decreases Depth(c)
      {
        assert node.parent == Above(c);
        var done;
        done, node, t := InsertTurn(node, node.parent, c, t, h);
        if done {
          break;
        }
        c, h := c.up.up, h + 1;
      }
    }

    /** hev_rbtree_node_link at the null link in the hole of `c`: the link is
        the `left` or `right` field of `parent`, or the root of the tree. */
    method Link(node: RBNode, parent: RBNode?, onLeft: bool)
      requires node !in rank && (parent != null ==> parent in rank)
      modifies this`root, node, if parent == null then {} else {parent}
      ensures node.left == null && node.right == null && node.parent == parent && node.red
      ensures root == if parent == null then node else old(root)
      ensures parent != null ==>
        && parent.left == (if onLeft then node else old(parent.left))
        && parent.right == (if onLeft then old(parent.right) else node)
        && parent.parent == old(parent.parent) && parent.red == old(parent.red)
    {
      node.parent, node.red := parent, true;
      node.left, node.right := null, null;
      if parent == null {
        root := node;
      } else if onLeft {
        parent.left := node;
      } else {
        parent.right := node;
      }
    }

    /** Linking at the null link in the hole of `c` puts a red leaf there. */
    method LinkAt(node: RBNode, parent: RBNode?, onLeft: bool, ghost c: Path)
      requires At(c, Leaf) && node !in rank
      requires parent == Above(c) && (parent != null ==> onLeft == c.InLeft?)
      modifies this`root, this`rank, rank.Keys, node
      ensures At(c, Node(Leaf, node, true, Leaf)) && rank.Keys == old(rank).Keys + {node}
    {
      ghost var m := Links();
      RanksLeft(m, c, null);
      Link(node, parent, onLeft);
      rank := rank[node := (Lo(m, c) + Hi(m, c)) / 2.0];
      LinkFocus(m, Links(), old(root), c, node);
    }

    /** Links the node and rebalances; `contents` already counts it in. */
    method InsertAt(node: RBNode, parent: RBNode?, onLeft: bool, ghost c: Path)
      requires At(c, Leaf) && node !in rank
      requires RedFocus(c, Node(Leaf, node, true, Leaf), 0) && InOrder(Fill(c, Node(Leaf, node, true, Leaf))) == contents
      requires parent == Above(c) && (parent != null ==> onLeft == c.InLeft?)
      modifies this`root, this`rank, this`shape, rank.Keys, node
      ensures Whole() && rank.Keys == old(rank).Keys + {node}
    {
      LinkAt(node, parent, onLeft, c);
      InsertColor(node, c, Node(Leaf, node, true, Leaf), 0);
    }

    /** Linking a new node at a null link and fixing the colours: the node goes
        next to its parent in the order, and the tree is a red-black tree. */
    method Insert(node: RBNode, parent: RBNode?, onLeft: bool, ghost c: Path)
      returns (ghost k: nat)
      requires Valid() && node !in rank
      requires Fill(c, Leaf) == shape && parent == Above(c) && (parent != null ==> onLeft == c.InLeft?)
      modifies this, rank.Keys, node
      ensures Valid() && rank.Keys == old(rank).Keys + {node}
      ensures k == |Before(c)| <= |old(contents)| && contents == Inserted(old(contents), k, node)
      ensures parent != null && onLeft ==> k < |old(contents)| && old(contents)[k] == parent
      ensures parent != null && !onLeft ==> k > 0 && old(contents)[k - 1] == parent
    {
      hide Rep, HoleRep, Balanced, PathBalanced, InOrder, Inserted, Elements;
      FocusFill(Links(), root, c, Leaf);
      InsertPlace(c, node, shape);
      k := |Before(c)|;
      InsertedElements(contents, k, node);
      contents := Inserted(contents, k, node);
      InsertAt(node, parent, onLeft, c);
    }

    /** Erasure, case 4 on the left: rotate left at `parent`, colour flips. */
    method EraseRotateLeft(parent: RBNode, sibling: RBNode, nephew: RBNode)
      requires Rotatable(Links(), sibling, parent, sibling.left, parent.parent)
      requires nephew in rank && nephew != sibling && nephew != parent
      requires nephew != sibling.left && nephew != parent.parent
      modifies this`root, rank.Keys
      ensures sibling.left == parent && sibling.right == old(sibling.right)
      ensures sibling.parent == old(parent.parent) && sibling.red == old(parent.red)
      ensures parent.left == old(parent.left) && parent.right == old(sibling.left) && parent.parent == sibling && !parent.red
      ensures nephew.left == old(nephew.left) && nephew.right == old(nephew.right) && nephew.parent == sibling && !nephew.red
      ensures var b := old(sibling.left); b != null ==>
        b.left == old(b.left) && b.right == old(b.right) && b.parent == parent && b.red == old(b.red)
      ensures var q := old(parent.parent); q != null ==>
        && q.parent == old(q.parent) && q.red == old(q.red)
        && q.left == (if old(q.left) == parent then sibling else old(q.left))
        && q.right == (if old(q.left) == parent then old(q.right) else sibling)
      ensures forall k :: k in rank && k != sibling && k != parent && k != nephew && k != old(sibling.left) && k != old(parent.parent) ==>
        k.left == old(k.left) && k.right == old(k.right) && k.parent == old(k.parent) && k.red == old(k.red)
      ensures root == if old(parent.parent) == null then sibling else old(root)
    {
      var tmp2 := sibling.left;
      parent.right := tmp2;
      sibling.left := parent;
      nephew.parent, nephew.red := sibling, false;
      if tmp2 != null {
        tmp2.parent := parent;
      }
      RotateSetParents(parent, sibling, false);
    }

    /** Erasure, case 3 on the left: the part of a right rotation at `sibling`
        that case 4 does not overwrite. */
    method EraseFoldLeft(parent: RBNode, sibling: RBNode, nephew: RBNode)
      requires Rotatable(Links(), nephew, sibling, nephew.right, parent)
      requires nephew.right != null ==> !nephew.right.red
      modifies rank.Keys
      ensures FoldedSiblingLeft(old(Links()), Links(), nephew, sibling, parent)
    {
      var tmp1 := nephew.right;
      sibling.left := tmp1;
      nephew.right := sibling;
      parent.right := nephew;
      if tmp1 != null {
        tmp1.parent, tmp1.red := sibling, false;
      }
    }

    /** Case 4 on the left, as a step between two links. */
    method EraseCase4Left(parent: RBNode, sibling: RBNode, nephew: RBNode)
      requires Rotatable(Links(), sibling, parent, sibling.left, parent.parent)
      requires nephew in rank && nephew != sibling && nephew != parent
      requires nephew != sibling.left && nephew != parent.parent
      modifies this`root, rank.Keys
      ensures RotatedLeft(old(Links())[nephew := old(Links())[nephew].(parent := sibling, red := false)],
                          Links(), sibling, parent, false)
      ensures root == if old(parent.parent) == null then sibling else old(root)
    {
      EraseRotateLeft(parent, sibling, nephew);
    }

    method EraseOuterLeft(parent: RBNode, sibling: RBNode, nephew: RBNode, ghost c: Path, ghost t: Shape, ghost h: nat)
      requires At(c, t) && Deficit(c, t, h) && InOrder(Fill(c, t)) == contents
      requires c.InLeft? && c.node == parent && c.other.Node? && c.other.node == sibling && !c.other.red
      requires IsRed(c.other.right) && c.other.right.node == nephew
      modifies this`root, this`shape, rank.Keys
      ensures Whole()
    {
      ghost var m, s := Links(), c.other;
      FocusUp(m, root, c, t);
      OuterLeftBefore(m, root, c.up, t, parent, c.red, s.left, sibling, s.right);
      EraseCase4Left(parent, sibling, nephew);
      OuterLeftAfter(m, Links(), old(root), c.up, t, parent, c.red, s.left, sibling, s.right);
      ghost var g := Node(Node(t, parent, false, s.left), sibling, c.red, Painted(s.right, false));
      OuterNephew(c, t, h, g);
      Close(c.up, g, if c.red then h + 1 else h + 2);
    }

    method EraseInnerRotateLeft(parent: RBNode, sibling: RBNode, nephew: RBNode, ghost c: Path, ghost t: Shape, ghost h: nat)
      returns (ghost g: Shape)
      requires At(c, t) && Deficit(c, t, h) && InOrder(Fill(c, t)) == contents
      requires c.InLeft? && c.node == parent && c.other.Node? && c.other.node == sibling && !c.other.red
      requires IsRed(c.other.left) && !IsRed(c.other.right) && c.other.left.node == nephew
      modifies this`root, rank.Keys
      ensures var s, n := c.other, c.other.left; g == Node(Node(t, parent, false, n.left), nephew, c.red, Node(n.right, sibling, false, s.right))
      ensures At(c.up, g)
    {
      ghost var m, s, n := Links(), c.other, c.other.left;
      DeficitSibling(c, t, h);
      FocusUp(m, root, c, t);
      InnerNephewBetweenLeft(m, root, c.up, t, parent, c.red, n.left, nephew, n.right, sibling, s.right);
      EraseFoldLeft(parent, sibling, nephew);
      ghost var mi := Links();
      InnerNephewRotatableLeft(m, mi, root, c.up, t, parent, c.red, n.left, nephew, n.right, sibling, s.right);
      EraseCase4Left(parent, nephew, sibling);
      InnerNephewAfterLeft(m, mi, Links(), old(root), c.up, t, parent, c.red, n.left, nephew, n.right, sibling, s.right);
      g := Node(Node(t, parent, false, n.left), nephew, c.red, Node(n.right, sibling, false, s.right));
    }

    method EraseInnerLeft(parent: RBNode, sibling: RBNode, nephew: RBNode, ghost c: Path, ghost t: Shape, ghost h: nat)
      requires At(c, t) && Deficit(c, t, h) && InOrder(Fill(c, t)) == contents
      requires c.InLeft? && c.node == parent && c.other.Node? && c.other.node == sibling && !c.other.red
      requires IsRed(c.other.left) && !IsRed(c.other.right) && c.other.left.node == nephew
      modifies this`root, this`shape, rank.Keys
      ensures Whole()
    {
      ghost var g := EraseInnerRotateLeft(parent, sibling, nephew, c, t, h);
      InnerNephew(c, t, h, g);
      Close(c.up, g, if c.red then h + 1 else h + 2);
    }

    /** Erasure, case 4 on the right: rotate right at `parent`, colour flips. */
    method EraseRotateRight(parent: RBNode, sibling: RBNode, nephew: RBNode)
      requires Rotatable(Links(), sibling, parent, sibling.right, parent.parent)
      requires nephew in rank && nephew != sibling && nephew != parent
      requires nephew != sibling.right && nephew != parent.parent
      modifies this`root, rank.Keys
      ensures sibling.right == parent && sibling.left == old(sibling.left)
      ensures sibling.parent == old(parent.parent) && sibling.red == old(parent.red)
      ensures parent.right == old(parent.right) && parent.left == old(sibling.right) && parent.parent == sibling && !parent.red
      ensures nephew.left == old(nephew.left) && nephew.right == old(nephew.right) && nephew.parent == sibling && !nephew.red
      ensures var b := old(sibling.right); b != null ==>
        b.left == old(b.left) && b.right == old(b.right) && b.parent == parent && b.red == old(b.red)
      ensures var q := old(parent.parent); q != null ==>
        && q.parent == old(q.parent) && q.red == old(q.red)
        && q.left == (if old(q.left) == parent then sibling else old(q.left))
        && q.right == (if old(q.left) == parent then old(q.right) else sibling)
      ensures forall k :: k in rank && k != sibling && k != parent && k != nephew && k != old(sibling.right) && k != old(parent.parent) ==>
        k.left == old(k.left) && k.right == old(k.right) && k.parent == old(k.parent) && k.red == old(k.red)
      ensures root == if old(parent.parent) == null then sibling else old(root)
    {
      var tmp2 := sibling.right;
      parent.left := tmp2;
      sibling.right := parent;
      nephew.parent, nephew.red := sibling, false;
      if tmp2 != null {
        tmp2.parent := parent;
      }
      RotateSetParents(parent, sibling, false);
    }

    /** Erasure, case 3 on the right: the part of a left rotation at `sibling`
        that case 4 does not overwrite. */
    method EraseFoldRight(parent: RBNode, sibling: RBNode, nephew: RBNode)
      requires Rotatable(Links(), nephew, sibling, nephew.left, parent)
      requires nephew.left != null ==> !nephew.left.red
      modifies rank.Keys
      ensures FoldedSiblingRight(old(Links()), Links(), nephew, sibling, parent)
    {
      var tmp1 := nephew.left;
      sibling.right := tmp1;
      nephew.left := sibling;
      parent.left := nephew;
      if tmp1 != null {
        tmp1.parent, tmp1.red := sibling, false;
      }
    }

    /** Case 4 on the right, as a step between two links. */
    method EraseCase4Right(parent: RBNode, sibling: RBNode, nephew: RBNode)
      requires Rotatable(Links(), sibling, parent, sibling.right, parent.parent)
      requires nephew in rank && nephew != sibling && nephew != parent
      requires nephew != sibling.right && nephew != parent.parent
      modifies this`root, rank.Keys
      ensures RotatedRight(old(Links())[nephew := old(Links())[nephew].(parent := sibling, red := false)],
                          Links(), sibling, parent, false)
      ensures root == if old(parent.parent) == null then sibling else old(root)
    {
      EraseRotateRight(parent, sibling, nephew);
    }

    method EraseOuterRight(parent: RBNode, sibling: RBNode, nephew: RBNode, ghost c: Path, ghost t: Shape, ghost h: nat)
      requires At(c, t) && Deficit(c, t, h) && InOrder(Fill(c, t)) == contents
      requires c.InRight? && c.node == parent && c.other.Node? && c.other.node == sibling && !c.other.red
      requires IsRed(c.other.left) && c.other.left.node == nephew
      modifies this`root, this`shape, rank.Keys
      ensures Whole()
    {
      ghost var m, s := Links(), c.other;
      FocusUp(m, root, c, t);
      OuterRightBefore(m, root, c.up, t, parent, c.red, s.right, sibling, s.left);
      EraseCase4Right(parent, sibling, nephew);
      OuterRightAfter(m, Links(), old(root), c.up, t, parent, c.red, s.right, sibling, s.left);
      ghost var g := Node(Painted(s.left, false), sibling, c.red, Node(s.right, parent, false, t));
      OuterNephew(c, t, h, g);
      Close(c.up, g, if c.red then h + 1 else h + 2);
    }

    method EraseInnerRotateRight(parent: RBNode, sibling: RBNode, nephew: RBNode, ghost c: Path, ghost t: Shape, ghost h: nat)
      returns (ghost g: Shape)
      requires At(c, t) && Deficit(c, t, h) && InOrder(Fill(c, t)) == contents
      requires c.InRight? && c.node == parent && c.other.Node? && c.other.node == sibling && !c.other.red
      requires IsRed(c.other.right) && !IsRed(c.other.left) && c.other.right.node == nephew
      modifies this`root, rank.Keys
      ensures var s, n := c.other, c.other.right; g == Node(Node(s.left, sibling, false, n.left), nephew, c.red, Node(n.right, parent, false, t))
      ensures At(c.up, g)
    {
      ghost var m, s, n := Links(), c.other, c.other.right;
      DeficitSibling(c, t, h);
      FocusUp(m, root, c, t);
      InnerNephewBetweenRight(m, root, c.up, t, parent, c.red, n.right, nephew, n.left, sibling, s.left);
      EraseFoldRight(parent, sibling, nephew);
      ghost var mi := Links();
      InnerNephewRotatableRight(m, mi, root, c.up, t, parent, c.red, n.right, nephew, n.left, sibling, s.left);
      EraseCase4Right(parent, nephew, sibling);
      InnerNephewAfterRight(m, mi, Links(), old(root), c.up, t, parent, c.red, n.right, nephew, n.left, sibling, s.left);
      g := Node(Node(s.left, sibling, false, n.left), nephew, c.red, Node(n.right, parent, false, t));
    }

    method EraseInnerRight(parent: RBNode, sibling: RBNode, nephew: RBNode, ghost c: Path, ghost t: Shape, ghost h: nat)
      requires At(c, t) && Deficit(c, t, h) && InOrder(Fill(c, t)) == contents
      requires c.InRight? && c.node == parent && c.other.Node? && c.other.node == sibling && !c.other.red
      requires IsRed(c.other.right) && !IsRed(c.other.left) && c.other.right.node == nephew
      modifies this`root, this`shape, rank.Keys
      ensures Whole()
    {
      ghost var g := EraseInnerRotateRight(parent, sibling, nephew, c, t, h);
      InnerNephew(c, t, h, g);
      Close(c.up, g, if c.red then h + 1 else h + 2);
    }

    /** Erasure, case 1 on the left: a red sibling. */
    method EraseRedSiblingLeft(parent: RBNode, sibling: RBNode, ghost c: Path, ghost t: Shape, ghost h: nat)
      returns (ghost c': Path)
      requires At(c, t) && Deficit(c, t, h) && InOrder(Fill(c, t)) == contents
      requires c.InLeft? && c.node == parent && c.other.Node? && c.other.node == sibling && c.other.red
      modifies this`root, rank.Keys
      ensures At(c', t) && Deficit(c', t, h) && InOrder(Fill(c', t)) == contents
      ensures c'.InLeft? && c'.node == parent && c'.red && c'.other == c.other.left && !IsRed(c'.other)
    {
      ghost var m, s := Links(), c.other;
      FocusUp(m, root, c, t);
      c' := RedSibling(c, t, h);
      RotatableLeft(m, root, c.up, s.right, sibling, true, s.left, parent, c.red, t);
      RotateLeft(sibling, parent);
      RotateLeftFocus(m, Links(), old(root), c.up, true, s.right, sibling, true, s.left, parent, c.red, t);
      FocusUp(Links(), root, c'.up, UpFrom(c', t));
      FocusUp(Links(), root, c', t);
    }

    /** Erasure, case 1 on the right: a red sibling. */
    method EraseRedSiblingRight(parent: RBNode, sibling: RBNode, ghost c: Path, ghost t: Shape, ghost h: nat)
      returns (ghost c': Path)
      requires At(c, t) && Deficit(c, t, h) && InOrder(Fill(c, t)) == contents
      requires c.InRight? && c.node == parent && c.other.Node? && c.other.node == sibling && c.other.red
      modifies this`root, rank.Keys
      ensures At(c', t) && Deficit(c', t, h) && InOrder(Fill(c', t)) == contents
      ensures c'.InRight? && c'.node == parent && c'.red && c'.other == c.other.right && !IsRed(c'.other)
    {
      ghost var m, s := Links(), c.other;
      FocusUp(m, root, c, t);
      c' := RedSibling(c, t, h);
      RotatableRight(m, root, c.up, s.left, sibling, true, s.right, parent, c.red, t);
      RotateRight(sibling, parent);
      RotateRightFocus(m, Links(), old(root), c.up, true, s.left, sibling, true, s.right, parent, c.red, t);
      FocusUp(Links(), root, c'.up, UpFrom(c', t));
      FocusUp(Links(), root, c', t);
    }

    /** Erasure, case 2: a black sibling without red children turns red. */
    method EraseFlip(parent: RBNode, sibling: RBNode, ghost c: Path, ghost t: Shape, ghost h: nat)
      returns (done: bool, ghost g: Shape)
      requires At(c, t) && Deficit(c, t, h) && InOrder(Fill(c, t)) == contents
      requires !c.Top? && c.node == parent && c.other.Node? && c.other.node == sibling && !c.other.red
      requires !IsRed(c.other.left) && !IsRed(c.other.right)
      modifies this`shape, parent, sibling
      ensures done == c.red && (done ==> Whole())
      ensures !done ==> At(c.up, g) && Deficit(c.up, g, h + 1) && InOrder(Fill(c.up, g)) == contents && Root(g) == parent
    {
      ghost var m := Links();
      OtherView(m, root, c, t);
      sibling.parent, sibling.red := parent, true;
      done := parent.red;
      if parent.red {
        parent.red := false;
      }
      SiblingPainted(m, Links(), root, c, t);
      g := if c.InLeft? then Node(t, parent, false, Painted(c.other, true)) else Node(Painted(c.other, true), parent, false, t);
      BlackNephews(c, t, h, g);
      if done {
        Close(c.up, g, h + 1);
      }
    }

    /** Erasure, cases 2, 3 and 4 on the left: a black sibling. */
    method EraseBlackSiblingLeft(parent: RBNode, sibling: RBNode, ghost c: Path, ghost t: Shape, ghost h: nat)
      returns (done: bool, ghost g: Shape)
      requires At(c, t) && Deficit(c, t, h) && InOrder(Fill(c, t)) == contents
      requires c.InLeft? && c.node == parent && c.other.Node? && c.other.node == sibling && !c.other.red
      modifies this`root, this`shape, rank.Keys
      ensures (c.red ==> done) && (done ==> Whole())
      ensures !done ==> At(c.up, g) && Deficit(c.up, g, h + 1) && InOrder(Fill(c.up, g)) == contents && Root(g) == parent
    {
      EraseReads(Links(), root, c, t, h);
      done, g := true, t;
      var tmp1 := sibling.right;
      if tmp1 == null || !tmp1.red {
        var tmp2 := sibling.left;
        if tmp2 == null || !tmp2.red {
          done, g := EraseFlip(parent, sibling, c, t, h);
        } else {
          EraseInnerLeft(parent, sibling, tmp2, c, t, h);
        }
      } else {
        EraseOuterLeft(parent, sibling, tmp1, c, t, h);
      }
    }

    /** Erasure, cases 2, 3 and 4 on the right: a black sibling. */
    method EraseBlackSiblingRight(parent: RBNode, sibling: RBNode, ghost c: Path, ghost t: Shape, ghost h: nat)
      returns (done: bool, ghost g: Shape)
      requires At(c, t) && Deficit(c, t, h) && InOrder(Fill(c, t)) == contents
      requires c.InRight? && c.node == parent && c.other.Node? && c.other.node == sibling && !c.other.red
      modifies this`root, this`shape, rank.Keys
      ensures (c.red ==> done) && (done ==> Whole())
      ensures !done ==> At(c.up, g) && Deficit(c.up, g, h + 1) && InOrder(Fill(c.up, g)) == contents && Root(g) == parent
    {
      EraseReads(Links(), root, c, t, h);
      done, g := true, t;
      var tmp1 := sibling.left;
      if tmp1 == null || !tmp1.red {
        var tmp2 := sibling.right;
        if tmp2 == null || !tmp2.red {
          done, g := EraseFlip(parent, sibling, c, t, h);
        } else {
          EraseInnerRight(parent, sibling, tmp2, c, t, h);
        }
      } else {
        EraseOuterRight(parent, sibling, tmp1, c, t, h);
      }
    }

    /** One turn of the loop of the erasure.  Either the tree is whole again or
        `parent` comes into focus, one level up. */
    method EraseTurn(node: RBNode?, parent: RBNode, ghost c: Path, ghost t: Shape, ghost h: nat)
      returns (done: bool, ghost g: Shape)
      requires At(c, t) && Deficit(c, t, h) && InOrder(Fill(c, t)) == contents
      requires !c.Top? && c.node == parent && node == Root(t)
      modifies this`root, this`shape, rank.Keys
      ensures done ==> Whole()
      ensures !done ==> At(c.up, g) && Deficit(c.up, g, h + 1) && InOrder(Fill(c.up, g)) == contents && Root(g) == parent
    {
      EraseReads(Links(), root, c, t, h);
      var sibling := parent.right;
      if node != sibling {
        if sibling.red {
          var tmp1 := sibling.left;
          ghost var c' := EraseRedSiblingLeft(parent, sibling, c, t, h);
          done, g := EraseBlackSiblingLeft(parent, tmp1, c', t, h);
        } else {
          done, g := EraseBlackSiblingLeft(parent, sibling, c, t, h);
        }
      } else {
        sibling := parent.left;
        if sibling.red {
          var tmp1 := sibling.right;
          ghost var c' := EraseRedSiblingRight(parent, sibling, c, t, h);
          done, g := EraseBlackSiblingRight(parent, tmp1, c', t, h);
        } else {
          done, g := EraseBlackSiblingRight(parent, sibling, c, t, h);
        }
      }
    }

    /** _hev_rbtree_erase_color */
    method EraseColor(parent0: RBNode, ghost c0: Path)
      requires At(c0, Leaf) && Deficit(c0, Leaf, 0) && InOrder(Fill(c0, Leaf)) == contents
      requires parent0 == Above(c0)
      modifies this`root, this`shape, rank.Keys
      ensures Whole()
    {
      var node: RBNode?, parent: RBNode? := null, parent0;
      ghost var c, t, h := c0, Leaf, 0;
      while true
        invariant At(c, t) && Deficit(c, t, h) && InOrder(Fill(c, t)) == contents
        invariant node == Root(t) && parent == Above(c) && parent != null
        decreases c
      {
        var done;
        done, t := EraseTurn(node, parent, c, t, h);
        if done {
          break;
        }
        c, h := c.up, h + 1;
        node := parent;
        parent := node.parent;
        if parent == null {
          Close(c, t, h);
          break;
        }
      }
    }

    /** Erasure of a node with at most one child: the child takes its place. */
    method SpliceOut(node: RBNode, child: RBNode?)
      requires node in rank && (child != null ==> child in rank && child != node)
      requires node.parent != null ==> node.parent in rank && node.parent != node && node.parent != child
      modifies this`root, this`rank, rank.Keys
      ensures Spliced(old(Links()), Links(), node, child) && rank.Keys == old(rank).Keys - {node}
      ensures root == if old(node.parent) == null then child else old(root)
    {
      var parent := node.parent;
      if child != null {
        child.parent, child.red := parent, node.red;
      }
      ChangeChild(node, child, parent);
      rank := rank - {node};
    }

    /** The rest of the erasure of a node with two children: the successor `s`
        gets the place of `node`, and its right child `x` hangs below `parent`. */
    method PlaceSuccessor(node: RBNode, s: RBNode, parent: RBNode, x: RBNode?)
      requires node in rank && s in rank && parent in rank && node != s && node != parent
      requires node.left != null && node.left in rank && node.left != s && node.left != node && node.left != parent
      requires node.parent != null ==> node.parent in rank && node.parent != node && node.parent != s && node.parent != node.left
      requires x != null ==> x in rank && x != node && x != s && x != node.left && x != node.parent
      modifies this`root, rank.Keys
      ensures s.left == old(node.left) && s.right == old(s.right) && s.parent == old(node.parent) && s.red == old(node.red)
      ensures var y := old(node.left); y.left == old(y.left) && y.right == old(y.right) && y.parent == s && y.red == old(y.red)
      ensures var q := old(node.parent); q != null ==>
        && q.parent == old(q.parent) && q.red == old(q.red)
        && q.left == (if old(q.left) == node then s else old(q.left))
        && q.right == (if old(q.left) == node then old(q.right) else s)
      ensures x != null ==> x.left == old(x.left) && x.right == old(x.right) && x.parent == parent && !x.red
      ensures forall k :: k in rank && k != s && k != old(node.left) && k != old(node.parent) && k != x ==>
        k.left == old(k.left) && k.right == old(k.right) && k.parent == old(k.parent) && k.red == old(k.red)
      ensures root == if old(node.parent) == null then s else old(root)
    {
      var tmp := node.left;
      s.left := tmp;
      tmp.parent := s;
      tmp := node.parent;
      ChangeChild(node, s, tmp);
      if x != null {
        x.parent, x.red := parent, false;
      }
      s.parent, s.red := node.parent, node.red;
    }

    /** The fields after the successor `s` of `n` has taken its place; `p` was
        the parent of `s`, and `x` its right child. */
    twostate predicate Moved(n: RBNode, s: RBNode, p: RBNode, x: RBNode?)
      requires rank == old(rank) && n in rank && s in rank
      reads this`rank, rank.Keys
    {
      && s.left == old(n.left) && s.right == (if p == n then x else old(n.right))
      && s.parent == old(n.parent) && s.red == old(n.red)
      && forall k {:trigger k in old(rank)} :: k in old(rank) && k != n && k != s ==>
           && k.left == (if k == p then x else if k == old(n.parent) && old(k.left) == n then s else old(k.left))
           && k.right == (if k == old(n.parent) && old(k.left) != n then s else old(k.right))
           && k.parent == (if k == old(n.left) || k == old(n.right) then s else if k == x then (if p == n then s else p) else old(k.parent))
           && k.red == (if k == x then false else old(k.red))
    }

    /** Erasure, case 2: the successor is the right child of `node`. */
    method MoveNear(node: RBNode, s: RBNode, ghost lo: real, ghost hi: real)
      requires node in rank && s in rank && SuccessorPlace(Links(), node, s, node, s.right, lo, hi)
      modifies this`root, rank.Keys
      ensures Moved(node, s, node, old(s.right))
      ensures root == if old(node.parent) == null then s else old(root)
    {
      PlaceSuccessor(node, s, s, s.right);
    }

    /** Erasure, case 3: the successor is further down, below `parent`. */
    method MoveFar(node: RBNode, s: RBNode, parent: RBNode, ghost lo: real, ghost hi: real)
      requires node in rank && s in rank && SuccessorPlace(Links(), node, s, parent, s.right, lo, hi) && parent != node
      modifies this`root, rank.Keys
      ensures Moved(node, s, parent, old(s.right))
      ensures root == if old(node.parent) == null then s else old(root)
    {
      var child2 := s.right;
      var child := node.right;
      parent.left := child2;
      s.right := child;
      child.parent := s;
      PlaceSuccessor(node, s, parent, child2);
    }

    /** _hev_rbtree_erase, case 1: the only child `x` of `node`, if any. */
    method UnlinkOne(node: RBNode, child: RBNode?, ghost c: Path, ghost t: Shape, ghost x: Shape)
      returns (rebalance: RBNode?, ghost h: nat)
      requires At(c, t) && t.Node? && t.node == node && child == Root(x) && RedBlack(Fill(c, t))
      requires (t.left == Leaf && t.right == x) || (t.left == x && t.right == Leaf)
      modifies this`root, this`rank, rank.Keys
      ensures At(c, Painted(x, t.red)) && AfterErasure(c, Painted(x, t.red), h, rebalance)
      ensures rank.Keys == old(rank).Keys - {node}
      ensures Without(InOrder(Fill(c, t)), |Before(c) + InOrder(t.left)|, node, InOrder(Fill(c, Painted(x, t.red))))
    {
      SpliceInOrder(c, t, x, t.red);
      ghost var m := Links();
      UnfillBalanced(c, t);
      h := SpliceOutcome(c, t, x, BlackHeight(t));
      SpliceReads(m, root, c, t, x);
      rebalance := if child == null && !node.red then node.parent else null;
      SpliceOut(node, child);
      SpliceFocus(m, Links(), old(root), c, t, x);
    }

    /** The loop of _hev_rbtree_erase down to the successor of `node`. */
    method FindSuccessor(node: RBNode, child: RBNode, ghost c: Path, ghost t: Shape)
      returns (successor: RBNode, parent: RBNode, ghost cs: Path, ghost ts: Shape)
      requires At(c, t) && t.Node? && t.node == node && t.right.Node? && t.right.node == child
      ensures At(cs, ts) && ts.Node? && ts.left.Leaf? && Fill(cs, ts) == Fill(c, t)
      ensures Leftmost(cs, InRight(c, node, t.red, t.left))
      ensures successor == ts.node && !cs.Top? && parent == cs.node
    {
      cs, ts := InRight(c, node, t.red, t.left), t.right;
      FocusUp(Links(), root, cs, ts);
      SubtreeReads(Links(), ts, node, Lo(Links(), cs), Hi(Links(), cs));
      successor, parent := child, node;
      var tmp := child.left;
      while tmp != null
        invariant At(cs, ts) && ts.Node? && Fill(cs, ts) == Fill(c, t)
        invariant Leftmost(cs, InRight(c, node, t.red, t.left))
        invariant successor == ts.node && !cs.Top? && parent == cs.node && tmp == Root(ts.left)
        decreases ts
      {
        parent := successor;
        successor := tmp;
        cs, ts := InLeft(cs, ts.node, ts.red, ts.right), ts.left;
        FocusUp(Links(), root, cs, ts);
        SubtreeReads(Links(), ts, Above(cs), Lo(Links(), cs), Hi(Links(), cs));
        tmp := tmp.left;
      }
    }

    /** Moves the successor `s` of `node`, which hangs below `above`. */
    method MoveSuccessor(node: RBNode, s: RBNode, above: RBNode, ghost lo: real, ghost hi: real)
      returns (parent: RBNode)
      requires node in rank && s in rank && SuccessorPlace(Links(), node, s, above, s.right, lo, hi)
      modifies this`root, rank.Keys
      ensures Moved(node, s, above, old(s.right))
      ensures root == if old(node.parent) == null then s else old(root)
      ensures parent == if above == node then s else above
    {
      parent := above;
      if above == node {
        MoveNear(node, s, lo, hi);
        parent := s;
      } else {
        MoveFar(node, s, above, lo, hi);
      }
    }

    /** The same as a step between two links; `node` leaves them. */
    method ReplaceBySuccessor(node: RBNode, s: RBNode, above: RBNode, ghost lo: real, ghost hi: real)
      returns (parent: RBNode)
      requires node in rank && s in rank && SuccessorPlace(Links(), node, s, above, s.right, lo, hi)
      modifies this`root, this`rank, rank.Keys
      ensures SuccessorMoved(old(Links()), Links(), node, s, above, old(s.right))
      ensures rank.Keys == old(rank).Keys - {node}
      ensures root == if old(node.parent) == null then s else old(root)
      ensures parent == if above == node then s else above
    {
      hide SuccessorPlace, SuccessorMoved, MovedLinks;
      ghost var m := Links();
      PlaceKnown(m, node, s, above, s.right, lo, hi);
      parent := MoveLinks(node, s, above, lo, hi);
      MovedRanks(m, Links(), node, s, above, old(s.right));
      Rerank(s, node);
    }

    /** The same, while `node` is still among the links. */
    method MoveLinks(node: RBNode, s: RBNode, above: RBNode, ghost lo: real, ghost hi: real)
      returns (parent: RBNode)
      requires node in rank && s in rank && SuccessorPlace(Links(), node, s, above, s.right, lo, hi)
      modifies this`root, rank.Keys
      ensures MovedLinks(old(Links()), Links(), node, s, above, old(s.right))
      ensures root == if old(node.parent) == null then s else old(root)
      ensures parent == if above == node then s else above
    {
      PlaceKnown(Links(), node, s, above, s.right, lo, hi);
      hide SuccessorPlace;
      parent := MoveSuccessor(node, s, above, lo, hi);
    }

    /** `s` gets the rank of `node`, which leaves. */
    ghost method Rerank(s: RBNode, node: RBNode)
      requires s in rank && node in rank && s != node
      modifies this`rank
      ensures Links() == old(Links()[s := Links()[s].(rank := rank[node])]) - {node} && rank.Keys == old(rank).Keys - {node}
    {
      rank := rank[s := rank[node]] - {node};
    }

    /** The successor `ts.node` moves to the place of `node`. */
    method UnlinkAt(node: RBNode, successor: RBNode, above: RBNode, ghost c: Path, ghost t: Shape, ghost cs: Path, ghost ts: Shape)
      returns (parent: RBNode, ghost x: Shape)
      requires At(c, t) && t.Node? && t.node == node && t.left.Node? && t.right.Node? && Mutual(Links())
      requires At(cs, ts) && ts.Node? && ts.left.Leaf? && Leftmost(cs, InRight(c, node, t.red, t.left)) && successor == ts.node
      requires (ts.right.Node? ==> !ts.red) && above == cs.node && node in rank && node.parent == Above(c)
      requires SuccessorPlace(Links(), node, ts.node, above, Root(ts.right), Lo(Links(), c), Hi(Links(), c))
      modifies this`root, this`rank, rank.Keys
      ensures x == Painted(Exchanged(ts.right, node, ts.node), ts.red) && At(ExchangedPath(cs, node, ts.node), x)
      ensures rank.Keys == old(rank).Keys - {node}
      ensures parent == if above == node then ts.node else above
    {
      ghost var m := Links();
      x := Painted(Exchanged(ts.right, node, successor), ts.red);
      parent := ReplaceBySuccessor(node, successor, above, Lo(m, c), Hi(m, c));
      SuccessorFocus(m, Links(), old(root), c, t, cs, ts);
    }

    /** _hev_rbtree_erase, cases 2 and 3: two children. */
    method UnlinkTwo(node: RBNode, child: RBNode, ghost c: Path, ghost t: Shape)
      returns (rebalance: RBNode?, ghost c': Path, ghost x: Shape, ghost h: nat)
      requires At(c, t) && t.Node? && t.node == node && t.left.Node? && t.right.Node? && t.right.node == child
      requires RedBlack(Fill(c, t)) && Mutual(Links())
      modifies this`root, this`rank, rank.Keys
      ensures At(c', x) && AfterErasure(c', x, h, rebalance) && rank.Keys == old(rank).Keys - {node}
      ensures Without(InOrder(Fill(c, t)), |Before(c) + InOrder(t.left)|, node, InOrder(Fill(c', x)))
    {
      hide Rep, HoleRep, Balanced, PathBalanced, InOrder, Before, SuccessorPlace, Mutual;
      var successor, parent;
      ghost var cs, ts;
      successor, parent, cs, ts := FindSuccessor(node, child, c, t);
      h := SuccessorPlan(Links(), root, c, t, cs, ts);
      c' := ExchangedPath(cs, node, successor);
      var short := successor.right == null && !successor.red;
      parent, x := UnlinkAt(node, successor, parent, c, t, cs, ts);
      rebalance := if short then parent else null;
    }

    /** _hev_rbtree_erase, with `t` at `node` in focus. */
    method Unlink(node: RBNode, ghost c: Path, ghost t: Shape)
      returns (rebalance: RBNode?, ghost c': Path, ghost x: Shape, ghost h: nat)
      requires At(c, t) && t.Node? && t.node == node && RedBlack(Fill(c, t)) && Mutual(Links())
      requires node.left == Root(t.left) && node.right == Root(t.right)
      modifies this`root, this`rank, rank.Keys
      ensures At(c', x) && AfterErasure(c', x, h, rebalance) && rank.Keys == old(rank).Keys - {node}
      ensures Without(InOrder(Fill(c, t)), |Before(c) + InOrder(t.left)|, node, InOrder(Fill(c', x)))
    {
      var child, tmp := node.right, node.left;
      c' := c;
      if tmp == null {
        rebalance, h := UnlinkOne(node, child, c, t, t.right);
        x := Painted(t.right, t.red);
      } else if child == null {
        rebalance, h := UnlinkOne(node, tmp, c, t, t.left);
        x := Painted(t.left, t.red);
      } else {
        rebalance, c', x, h := UnlinkTwo(node, child, c, t);
      }
    }

    /** The rest of hev_rbtree_erase. */
    method Rebalance(rebalance: RBNode?, ghost c: Path, ghost x: Shape, ghost h: nat)
      requires At(c, x) && AfterErasure(c, x, h, rebalance) && InOrder(Fill(c, x)) == contents
      modifies this`root, this`shape, rank.Keys
      ensures Whole()
    {
      if rebalance != null {
        EraseColor(rebalance, c);
      } else {
        Close(c, x, h);
      }
    }

    /** hev_rbtree_erase: exactly `node` leaves the order, and the tree is a
        red-black tree again. */
    method Erase(node: RBNode)
      returns (ghost k: nat)
      requires Valid() && node in rank
      modifies this, rank.Keys
      ensures Valid() && rank.Keys == old(rank).Keys - {node}
      ensures Without(old(contents), k, node, contents)
    {
      hide Rep, HoleRep, Balanced, PathBalanced, InOrder, Before, AfterErasure, Fill;
      ghost var m := Links();
      ghost var c, t := ErasePlan(m, root, shape, node);
      k := |Before(c) + InOrder(t.left)|;
      var rebalance;
      ghost var c', x, h;
      rebalance, c', x, h := Unlink(node, c, t);
      RemovedElements(m, old(root), shape, k, node, InOrder(Fill(c', x)));
      contents := InOrder(Fill(c', x));
      Rebalance(rebalance, c', x, h);
    }

    /** hev_rbtree_replace: `new_` gets the place and the colour of `victim`. */
    method Replace(victim: RBNode, new_: RBNode) returns (ghost k: nat)
      requires Valid() && victim in rank && new_ !in rank
      modifies this, rank.Keys, new_
      ensures Valid() && rank.Keys == old(rank).Keys - {victim} + {new_}
      ensures k < |old(contents)| && old(contents)[k] == victim && contents == old(contents)[k := new_]
    {
      hide Focus, RedBlack, InOrder, PutInPlace, Exchanged, Elements, RBTree.Links;
      ghost var m, was := Links(), root;
      VictimLinks(victim);
      ReplaceLinks(victim, new_);
      k := AfterReplace(m, Links(), was, root, shape, victim, new_);
      shape := Exchanged(shape, victim, new_);
      contents := contents[k := new_];
    }

    lemma {:induction false} VictimLinks(victim: RBNode)
      requires Valid() && victim in rank
      ensures Links().Keys == rank.Keys && Links()[victim].parent == victim.parent
      ensures victim.left != null ==> victim.left in rank && victim.left != victim
      ensures victim.right != null ==> victim.right in rank && victim.right != victim
      ensures victim.parent != null ==> victim.parent in rank && victim.parent != victim
    {
      hide Focus, RedBlack, InOrder;
      BeforeReplace(Links(), root, shape, victim);
    }

    method ReplaceLinks(victim: RBNode, new_: RBNode)
      requires victim in rank && new_ !in rank
      requires victim.left != null ==> victim.left in rank && victim.left != victim
      requires victim.right != null ==> victim.right in rank && victim.right != victim
      requires victim.parent != null ==> victim.parent in rank && victim.parent != victim
      modifies this`root, this`rank, rank.Keys, new_
      ensures PutInPlace(old(Links()), Links(), victim, new_) && rank.Keys == old(rank).Keys - {victim} + {new_}
      ensures Links().Keys == rank.Keys
      ensures root == if old(victim.parent) == null then new_ else old(root)
    {
      PutFields(victim, new_);
      rank := rank[new_ := rank[victim]] - {victim};
    }

    /** The writes of hev_rbtree_replace. */
    method PutFields(victim: RBNode, new_: RBNode)
      requires victim in rank && new_ !in rank
      requires victim.left != null ==> victim.left in rank && victim.left != victim
      requires victim.right != null ==> victim.right in rank && victim.right != victim
      requires victim.parent != null ==> victim.parent in rank && victim.parent != victim
      modifies this`root, rank.Keys, new_
      ensures new_.left == old(victim.left) && new_.right == old(victim.right)
      ensures new_.parent == old(victim.parent) && new_.red == old(victim.red)
      ensures forall n :: n in rank && n != victim ==>
                && n.left == (if n == old(victim.parent) && old(n.left) == victim then new_ else old(n.left))
                && n.right == (if n == old(victim.parent) && old(n.left) != victim then new_ else old(n.right))
                && n.parent == (if n == old(victim.left) || n == old(victim.right) then new_ else old(n.parent))
                && n.red == old(n.red)
      ensures root == if old(victim.parent) == null then new_ else old(root)
    {
      var parent := victim.parent;
      new_.left, new_.right, new_.parent, new_.red := victim.left, victim.right, parent, victim.red;
      if victim.left != null {
        victim.left.parent := new_;
      }
      if victim.right != null {
        victim.right.parent := new_;
      }
      ChangeChild(victim, new_, parent);
    }

    /** What a search from the root finds when the path `c` has led it to the
        subtree `t`: the fields there, and the place of the node in the order. */
    lemma {:induction false} Visit(c: Path, t: Shape)
      requires Whole() && Fill(c, t) == shape
      ensures |contents| == |Before(c)| + |InOrder(t)| + |After(c)| && At(c, t)
      ensures t.Node? ==>
        && t.node in rank && t.node.left == Root(t.left) && t.node.right == Root(t.right)
        && |InOrder(t)| == |InOrder(t.left)| + 1 + |InOrder(t.right)|
        && contents[|Before(c)| + |InOrder(t.left)|] == t.node
    {
      FocusFill(Links(), root, c, t);
      FillInOrder(c, t);
      if t.Node? {
        SubtreeReads(Links(), t, Above(c), Lo(Links(), c), Hi(Links(), c));
        RemovedMiddle(Before(c), InOrder(t.left), t.node, InOrder(t.right), After(c));
      }
    }

    /** One step of a search: the node to compare with is the `j`-th one, and
        its children span the places before and behind it. */
    lemma {:induction false} SearchStep(c: Path, t: Shape, lo: nat, hi: nat) returns (j: nat)
      requires Whole() && Spans(shape, c, t, lo, hi) && t.Node?
      ensures t.node in rank && t.node.left == Root(t.left) && t.node.right == Root(t.right)
      ensures lo <= j < hi <= |contents| && contents[j] == t.node
      ensures Spans(shape, InLeft(c, t.node, t.red, t.right), t.left, lo, j)
      ensures Spans(shape, InRight(c, t.node, t.red, t.left), t.right, j + 1, hi)
    {
      Visit(c, t);
      j := SpansChildren(shape, c, t, lo, hi);
    }

    /** No node is in the tree twice. */
    lemma {:induction false} Distinct()
      requires Whole()
      ensures forall i, j :: 0 <= i < j < |contents| ==> contents[i] != contents[j]
    {
      FocusAscending(Links(), root, Top, shape);
    }

    /** Down to the left as far as possible. */
    method DownLeft(n0: RBNode, ghost c0: Path, ghost t0: Shape) returns (n: RBNode)
      requires Whole() && Fill(c0, t0) == shape && t0.Node? && t0.node == n0
      ensures |Before(c0)| < |contents| && contents[|Before(c0)|] == n
    {
      hide Rep, HoleRep, Balanced, PathBalanced;
      n := n0;
      ghost var c, t := c0, t0;
      Visit(c, t);
      while n.left != null
        invariant Fill(c, t) == shape && t.Node? && n == t.node && |Before(c)| == |Before(c0)|
        invariant n.left == Root(t.left)
        decreases t
      {
        n := n.left;
        c, t := InLeft(c, t.node, t.red, t.right), t.left;
        Visit(c, t);
      }
      Visit(c, t);
    }

    /** Down to the right as far as possible. */
    method DownRight(n0: RBNode, ghost c0: Path, ghost t0: Shape) returns (n: RBNode)
      requires Whole() && Fill(c0, t0) == shape && t0.Node? && t0.node == n0
      ensures |After(c0)| < |contents| && contents[|contents| - 1 - |After(c0)|] == n
    {
      hide Rep, HoleRep, Balanced, PathBalanced;
      n := n0;
      ghost var c, t := c0, t0;
      Visit(c, t);
      while n.right != null
        invariant Fill(c, t) == shape && t.Node? && n == t.node && |After(c)| == |After(c0)|
        invariant n.right == Root(t.right)
        decreases t
      {
        n := n.right;
        c, t := InRight(c, t.node, t.red, t.left), t.right;
        Visit(c, t);
      }
      Visit(c, t);
    }

    /** Up until coming from the left. */
    method ClimbFromRight(node: RBNode, ghost c0: Path, ghost t0: Shape) returns (n: RBNode?)
      requires Whole() && Fill(c0, t0) == shape && t0.Node? && t0.node == node
      ensures var k := |Before(c0)| + |InOrder(t0)|; k <= |contents| && n == if k < |contents| then contents[k] else null
    {
      var cur := node;
      ghost var c, t := c0, t0;
      Visit(c, t);
      InsertView(Links(), root, c, t);
      n := cur.parent;
      while n != null && cur == n.right
        invariant Fill(c, t) == shape && t.Node? && cur == t.node && At(c, t)
        invariant n == Above(c) && (!c.Top? ==> n in rank && (n.right == cur <==> c.InRight?))
        invariant |Before(c)| + |InOrder(t)| == |Before(c0)| + |InOrder(t0)|
        decreases c
      {
        cur := n;
        c, t := c.up, UpFrom(c, t);
        Visit(c, t);
        InsertView(Links(), root, c, t);
        n := cur.parent;
      }
      Visit(c, t);
      if n != null {
        Visit(c.up, UpFrom(c, t));
      }
    }

    /** Up until coming from the right. */
    method ClimbFromLeft(node: RBNode, ghost c0: Path, ghost t0: Shape) returns (n: RBNode?)
      requires Whole() && Fill(c0, t0) == shape && t0.Node? && t0.node == node
      ensures var k := |Before(c0)|; k <= |contents| && n == if k > 0 then contents[k - 1] else null
    {
      var cur := node;
      ghost var c, t := c0, t0;
      Visit(c, t);
      InsertView(Links(), root, c, t);
      n := cur.parent;
      while n != null && cur == n.left
        invariant Fill(c, t) == shape && t.Node? && cur == t.node && At(c, t)
        invariant n == Above(c) && (!c.Top? ==> n in rank && (n.left == cur <==> c.InLeft?))
        invariant |Before(c)| == |Before(c0)|
        decreases c
      {
        cur := n;
        c, t := c.up, UpFrom(c, t);
        Visit(c, t);
        InsertView(Links(), root, c, t);
        n := cur.parent;
      }
      Visit(c, t);
      if n != null {
        Visit(c.up, UpFrom(c, t));
      }
    }

    /** hev_rbtree_first */
    method First() returns (n: RBNode?)
      requires Whole()
      ensures n == if contents == [] then null else contents[0]
    {
      Visit(Top, shape);
      n := root;
      if n != null {
        n := DownLeft(n, Top, shape);
      }
    }

    /** hev_rbtree_last */
    method Last() returns (n: RBNode?)
      requires Whole()
      ensures n == if contents == [] then null else contents[|contents| - 1]
    {
      Visit(Top, shape);
      n := root;
      if n != null {
        n := DownRight(n, Top, shape);
      }
    }

    /** hev_rbtree_node_next */
    method Next(node: RBNode, ghost k: nat) returns (n: RBNode?)
      requires Whole() && k < |contents| && contents[k] == node
      ensures n == if k + 1 < |contents| then contents[k + 1] else null
    {
      ghost var c, t := Locate(Top, shape, node);
      Visit(c, t);
      Distinct();
      assert k == |Before(c)| + |InOrder(t.left)|;
      if node.right != null {
        n := DownLeft(node.right, InRight(c, t.node, t.red, t.left), t.right);
      } else {
        n := ClimbFromRight(node, c, t);
      }
    }

    /** hev_rbtree_node_prev */
    method Prev(node: RBNode, ghost k: nat) returns (n: RBNode?)
      requires Whole() && k < |contents| && contents[k] == node
      ensures n == if k > 0 then contents[k - 1] else null
    {
      ghost var c, t := Locate(Top, shape, node);
      Visit(c, t);
      Distinct();
      assert k == |Before(c)| + |InOrder(t.left)|;
      if node.left != null {
        Visit(InLeft(c, t.node, t.red, t.right), t.left);
        n := DownRight(node.left, InLeft(c, t.node, t.red, t.right), t.left);
      } else {
        n := ClimbFromLeft(node, c, t);
      }
    }
  }
}
