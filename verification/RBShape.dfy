/** The values behind a red-black tree: shapes, paths into a shape, and the
    balance rules.  Nothing in this module reads a field of a node; a node is
    only an identity here. */
module RBShape {
  import opened Sequences

  /** One intrusive tree link (HevRBTreeNode).  The packed word
      `__parent_color` is kept as the two fields it packs.  `owner` is the
      object the link is embedded in (what `container_of` recovers). */
  class RBNode {
    var left: RBNode?
    var right: RBNode?
    var parent: RBNode?
    var red: bool
    const owner: object

    constructor (owner: object)
      ensures this.owner == owner
      ensures left == null && right == null && parent == null && red
    {
      this.owner := owner;
      left, right, parent, red := null, null, null, true;
    }
  }

  datatype Shape =
    | Leaf
    | Node(left: Shape, node: RBNode, red: bool, right: Shape)

  /** A path from a hole up to the root; `InLeft` means that the hole is the
      left child of `node`, whose other child is `other`. */
  datatype Path =
    | Top
    | InLeft(up: Path, node: RBNode, red: bool, other: Shape)
    | InRight(up: Path, node: RBNode, red: bool, other: Shape)

  ghost function Root(t: Shape): RBNode? {
    if t.Leaf? then null else t.node
  }

  ghost predicate IsRed(t: Shape) {
    t.Node? && t.red
  }

  ghost function InOrder(t: Shape): seq<RBNode> {
    if t.Leaf? then [] else InOrder(t.left) + [t.node] + InOrder(t.right)
  }

  /** The node just above the hole. */
  ghost function Above(c: Path): RBNode? {
    if c.Top? then null else c.node
  }

  /** The topmost node when the hole holds `x`. */
  ghost function Head(c: Path, x: RBNode?): RBNode? {
    if c.Top? then x else Head(c.up, c.node)
  }

  /** The parts of the in-order sequence before and after the hole. */
  ghost function Before(c: Path): seq<RBNode> {
    match c
    case Top => []
    case InLeft(up, _, _, _) => Before(up)
    case InRight(up, n, _, l) => Before(up) + InOrder(l) + [n]
  }

  ghost function After(c: Path): seq<RBNode> {
    match c
    case Top => []
    case InLeft(up, n, _, r) => [n] + InOrder(r) + After(up)
    case InRight(up, _, _, _) => After(up)
  }

  ghost function Fill(c: Path, t: Shape): Shape {
    match c
    case Top => t
    case InLeft(up, n, red, r) => Fill(up, Node(t, n, red, r))
    case InRight(up, n, red, l) => Fill(up, Node(l, n, red, t))
  }

  ghost function Depth(c: Path): nat {
    if c.Top? then 0 else 1 + Depth(c.up)
  }

  /** `t` has black height `h` everywhere and no red node with a red child. */
  ghost predicate Balanced(t: Shape, h: nat) {
    match t
    case Leaf => h == 0
    case Node(l, _, red, r) =>
      if red then !IsRed(l) && !IsRed(r) && Balanced(l, h) && Balanced(r, h)
      else h > 0 && Balanced(l, h - 1) && Balanced(r, h - 1)
  }

  /** A red-black tree: balanced, with a black root. */
  ghost predicate RedBlack(t: Shape) {
    !IsRed(t) && Balanced(t, BlackHeight(t))
  }

  ghost function BlackHeight(t: Shape): nat {
    if t.Leaf? then 0 else BlackHeight(t.left) + (if t.red then 0 else 1)
  }

  /** What the path asks of the subtree in its hole: filling it with a
      balanced shape of black height `h` whose root is red only if `red`
      gives a red-black tree. */
  ghost predicate PathBalanced(c: Path, h: nat, red: bool) {
    match c
    case Top => !red
    case InLeft(up, _, nred, o) =>
      && Balanced(o, h)
      && (nred ==> !red && !IsRed(o))
      && PathBalanced(up, if nred then h else h + 1, nred)
    case InRight(up, _, nred, o) =>
      && Balanced(o, h)
      && (nred ==> !red && !IsRed(o))
      && PathBalanced(up, if nred then h else h + 1, nred)
  }

  lemma {:induction false} BalancedHeight(t: Shape, h: nat)
    requires Balanced(t, h)
    ensures h == BlackHeight(t)
  {
    if t.Node? {
      BalancedHeight(t.left, if t.red then h else h - 1);
    }
  }

  lemma {:induction false} FillBalanced(c: Path, t: Shape, h: nat)
    requires Balanced(t, h) && PathBalanced(c, h, IsRed(t))
    ensures RedBlack(Fill(c, t))
    decreases c
  {
    match c
    case Top => BalancedHeight(t, h);
    case InLeft(up, n, red, o) =>
      FillBalanced(up, Node(t, n, red, o), if red then h else h + 1);
    case InRight(up, n, red, o) =>
      FillBalanced(up, Node(o, n, red, t), if red then h else h + 1);
  }

  lemma {:induction false} UnfillBalanced(c: Path, t: Shape)
    requires RedBlack(Fill(c, t))
    ensures Balanced(t, BlackHeight(t))
    ensures PathBalanced(c, BlackHeight(t), IsRed(t))
    decreases c
  {
    match c
    case Top =>
    case InLeft(up, n, red, o) =>
      UnfillBalanced(up, Node(t, n, red, o));
      BalancedHeight(o, BlackHeight(t));
    case InRight(up, n, red, o) =>
      UnfillBalanced(up, Node(o, n, red, t));
      BalancedHeight(t, BlackHeight(o));
  }

  lemma {:induction false} PathBalancedBlack(c: Path, h: nat)
    requires PathBalanced(c, h, true)
    ensures PathBalanced(c, h, false)
  {
  }

  lemma {:induction false} Regroup<T>(a: seq<T>, b: seq<T>, c: seq<T>, d: seq<T>, e: seq<T>)
    ensures a + (b + c + d) + e == a + b + (c + d + e)
    ensures a + (b + c + d) + e == (a + b + c) + d + e
  {
  }

  lemma {:induction false} FillInOrder(c: Path, t: Shape)
    ensures InOrder(Fill(c, t)) == Before(c) + InOrder(t) + After(c)
    decreases c
  {
    match c
    case Top =>
    case InLeft(up, n, red, o) =>
      FillInOrder(up, Node(t, n, red, o));
      Regroup(Before(up), InOrder(t), [n], InOrder(o), After(up));
    case InRight(up, n, red, o) =>
      FillInOrder(up, Node(o, n, red, t));
      Regroup(Before(up), InOrder(o), [n], InOrder(t), After(up));
  }

  lemma {:induction false} FillSameInOrder(c: Path, t: Shape, t': Shape)
    requires InOrder(t) == InOrder(t')
    ensures InOrder(Fill(c, t)) == InOrder(Fill(c, t'))
  {
    FillInOrder(c, t);
    FillInOrder(c, t');
  }

  /** Rotations keep the order. */
  lemma {:induction false} RotateInOrder(a: Shape, x: RBNode, b: Shape, y: RBNode, d: Shape, p: bool, q: bool, r: bool, s: bool)
    ensures InOrder(Node(Node(a, x, p, b), y, q, d)) == InOrder(Node(a, x, r, Node(b, y, s, d)))
  {
    Regroup([], InOrder(a), [x], InOrder(b), [y] + InOrder(d));
    assert InOrder(Node(a, x, p, b)) + [y] + InOrder(d) == InOrder(a) + [x] + (InOrder(b) + [y] + InOrder(d));
  }

  /** The double rotation of an inner grandchild keeps the order. */
  lemma {:induction false} RotateTwiceInOrder(a: Shape, y: RBNode, b: Shape, x: RBNode, e: Shape, z: RBNode, d: Shape,
                           p: bool, q: bool, r: bool, s: bool, u: bool, v: bool)
    ensures InOrder(Node(Node(a, y, p, Node(b, x, q, e)), z, r, d)) ==
            InOrder(Node(Node(a, y, s, b), x, u, Node(e, z, v, d)))
    ensures InOrder(Node(a, y, p, Node(Node(b, x, q, e), z, r, d))) ==
            InOrder(Node(Node(a, y, s, b), x, u, Node(e, z, v, d)))
  {
    RotateInOrder(a, y, b, x, e, s, q, p, q);
    RotateInOrder(Node(a, y, s, b), x, e, z, d, q, r, u, v);
    RotateInOrder(b, x, e, z, d, q, r, q, v);
    RotateInOrder(a, y, b, x, Node(e, z, v, d), s, u, p, q);
    assert InOrder(Node(a, y, p, Node(b, x, q, e))) == InOrder(Node(Node(a, y, s, b), x, q, e));
  }

  // ---------------------------------------------------------------------
  // Insertion: the red subtree in focus may have a red parent
  // ---------------------------------------------------------------------

  ghost predicate RedFocus(c: Path, t: Shape, h: nat) {
    t.Node? && t.red && Balanced(t, h) && PathBalanced(c, h, false)
  }

  /** One level up, with `t` in the hole. */
  ghost function UpFrom(c: Path, t: Shape): Shape
    requires !c.Top?
  {
    if c.InLeft? then Node(t, c.node, c.red, c.other) else Node(c.other, c.node, c.red, t)
  }

  /** What the loop of the insertion may conclude from the colours it reads. */
  lemma {:induction false} RedFocusCases(c: Path, t: Shape, h: nat)
    requires RedFocus(c, t, h)
    ensures c.Top? ==> Balanced(Node(t.left, t.node, false, t.right), h + 1)
    ensures !c.Top? && !c.red ==> PathBalanced(c, h, true)
    ensures !c.Top? && c.red ==>
      && !c.up.Top? && !c.up.red && Balanced(c.other, h) && !IsRed(c.other)
      && Balanced(c.up.other, h) && PathBalanced(c.up.up, h + 1, false)
  {
    if !c.Top? && c.red {
      assert PathBalanced(c.up, h, true);
    }
  }

  /** After colour flips the red grandparent is in focus. */
  lemma {:induction false} FlipBalanced(c: Path, t: Shape, h: nat, g: Shape)
    requires RedFocus(c, t, h) && !c.Top? && c.red && !c.up.Top? && IsRed(c.up.other)
    requires var p, u := UpFrom(c, t), c.up.other;
             var p', u' := Node(p.left, p.node, false, p.right), Node(u.left, u.node, false, u.right);
             g == if c.up.InLeft? then Node(p', c.up.node, true, u') else Node(u', c.up.node, true, p')
    ensures RedFocus(c.up.up, g, h + 1)
    ensures InOrder(Fill(c.up.up, g)) == InOrder(Fill(c, t))
  {
    RedFocusCases(c, t, h);
    assert InOrder(UpFrom(c.up, UpFrom(c, t))) == InOrder(g);
    FillSameInOrder(c.up.up, g, UpFrom(c.up, UpFrom(c, t)));
  }

  /** The null link in the hole of `c` is a place in the order, next to the
      node whose link it is, and linking a red node there breaks no rule but
      the one about red parents. */
  lemma {:induction false} InsertPlace(c: Path, n: RBNode, shape: Shape)
    requires Fill(c, Leaf) == shape && RedBlack(shape)
    ensures var k, s, t := |Before(c)|, InOrder(shape), Node(Leaf, n, true, Leaf);
      && k <= |s| && InOrder(Fill(c, t)) == Inserted(s, k, n) && RedFocus(c, t, 0)
      && (c.InLeft? ==> k < |s| && s[k] == c.node)
      && (c.InRight? ==> k > 0 && s[k - 1] == c.node)
      && Before(c) + [n] + After(c) == Inserted(s, k, n)
  {
    var s, t := InOrder(shape), Node(Leaf, n, true, Leaf);
    UnfillBalanced(c, Leaf);
    FillInOrder(c, Leaf);
    FillInOrder(c, t);
    assert s == Before(c) + After(c);
    assert s[..|Before(c)|] == Before(c) && s[|Before(c)|..] == After(c);
  }

  // ---------------------------------------------------------------------
  // Erasure: the subtree in focus may be one black node short
  // ---------------------------------------------------------------------

  ghost predicate Deficit(c: Path, t: Shape, h: nat) {
    Balanced(t, h) && !IsRed(t) && PathBalanced(c, h + 1, false)
  }

  ghost function Painted(t: Shape, red: bool): Shape {
    if t.Leaf? then t else Node(t.left, t.node, red, t.right)
  }

  /** Taking out a node with the single child `x`: either `x` takes its place
      and colour, or nothing is left and a black node may be missing. */
  lemma {:induction false} SpliceBalanced(c: Path, t: Shape, x: Shape, h: nat)
    requires t.Node? && Balanced(t, h) && PathBalanced(c, h, IsRed(t))
    requires (t.left == Leaf && t.right == x) || (t.left == x && t.right == Leaf)
    ensures x.Node? ==> !t.red && IsRed(x) && Balanced(Painted(x, false), h) && PathBalanced(c, h, false)
    ensures x.Leaf? && t.red ==> h == 0 && PathBalanced(c, 0, false)
    ensures x.Leaf? && !t.red ==> Deficit(c, Leaf, 0)
  {
    if t.red {
      PathBalancedBlack(c, h);
      assert Balanced(t.left, 0) && Balanced(t.right, 0);
    }
    if x.Node? {
      assert Balanced(x, 0);
    }
  }

  /** The subtree `x` after a node was taken out above it: all is in balance,
      or nothing is left of it and a black node is missing. */
  ghost predicate AfterErasure(c: Path, x: Shape, h: nat, rebalance: RBNode?) {
    if rebalance == null then Balanced(x, h) && PathBalanced(c, h, IsRed(x))
    else x == Leaf && Deficit(c, Leaf, 0) && rebalance == Above(c)
  }

  /** What the source decides after it has taken out a node with one child. */
  lemma {:induction false} SpliceOutcome(c: Path, t: Shape, x: Shape, h: nat) returns (k: nat)
    requires t.Node? && Balanced(t, h) && PathBalanced(c, h, IsRed(t))
    requires (t.left == Leaf && t.right == x) || (t.left == x && t.right == Leaf)
    ensures AfterErasure(c, Painted(x, t.red), k, if x.Leaf? && !t.red then Above(c) else null)
    ensures x.Node? ==> !t.red
  {
    SpliceBalanced(c, t, x, h);
    k := if x.Node? then h else 0;
  }

  /** The sibling of a subtree that is short of a black node. */
  lemma {:induction false} DeficitSibling(c: Path, t: Shape, h: nat)
    requires Deficit(c, t, h) && !c.Top?
    ensures c.other.Node? && Balanced(c.other, h + 1)
    ensures PathBalanced(c.up, if c.red then h + 1 else h + 2, c.red)
    ensures if c.other.red
            then !c.red && c.other.left.Node? && c.other.right.Node?
            else Balanced(c.other.left, h) && Balanced(c.other.right, h)
  {
    if c.other.Node? && c.other.red {
      assert Balanced(c.other.left, h + 1) && Balanced(c.other.right, h + 1);
    }
  }

  /** Case 1: a red sibling `s` rotates above the parent. */
  lemma {:induction false} RedSibling(c: Path, t: Shape, h: nat) returns (c': Path)
    requires Deficit(c, t, h) && !c.Top? && IsRed(c.other)
    ensures var s := c.other;
      c' == if c.InLeft? then InLeft(InLeft(c.up, s.node, false, s.right), c.node, true, s.left)
            else InRight(InRight(c.up, s.node, false, s.left), c.node, true, s.right)
    ensures Deficit(c', t, h) && !IsRed(c'.other) && InOrder(Fill(c', t)) == InOrder(Fill(c, t))
  {
    var s := c.other;
    DeficitSibling(c, t, h);
    assert Balanced(s.left, h + 1) && Balanced(s.right, h + 1);
    if c.InLeft? {
      c' := InLeft(InLeft(c.up, s.node, false, s.right), c.node, true, s.left);
      assert PathBalanced(c'.up, h + 1, true);
      RotateInOrder(t, c.node, s.left, s.node, s.right, true, false, c.red, true);
    } else {
      c' := InRight(InRight(c.up, s.node, false, s.left), c.node, true, s.right);
      assert PathBalanced(c'.up, h + 1, true);
      RotateInOrder(s.left, s.node, s.right, c.node, t, true, c.red, false, true);
    }
    FillSameInOrder(c.up, UpFrom(c, t), UpFrom(c'.up, UpFrom(c', t)));
  }

  /** Case 2: the sibling turns red and the parent black. */
  lemma {:induction false} BlackNephews(c: Path, t: Shape, h: nat, g: Shape)
    requires Deficit(c, t, h) && !c.Top? && c.other.Node? && !c.other.red
    requires !IsRed(c.other.left) && !IsRed(c.other.right)
    requires var s := Painted(c.other, true);
      g == if c.InLeft? then Node(t, c.node, false, s) else Node(s, c.node, false, t)
    ensures InOrder(Fill(c.up, g)) == InOrder(Fill(c, t))
    ensures if c.red then Balanced(g, h + 1) && PathBalanced(c.up, h + 1, false) else Deficit(c.up, g, h + 1)
  {
    DeficitSibling(c, t, h);
    if c.red {
      PathBalancedBlack(c.up, h + 1);
    }
    FillSameInOrder(c.up, UpFrom(c, t), g);
  }

  /** Case 4: the sibling rotates above the parent and takes its colour. */
  lemma {:induction false} OuterNephew(c: Path, t: Shape, h: nat, g: Shape)
    requires Deficit(c, t, h) && !c.Top? && c.other.Node? && !c.other.red
    requires var s := c.other;
      if c.InLeft? then IsRed(s.right) && g == Node(Node(t, c.node, false, s.left), s.node, c.red, Painted(s.right, false))
      else IsRed(s.left) && g == Node(Painted(s.left, false), s.node, c.red, Node(s.right, c.node, false, t))
    ensures InOrder(Fill(c.up, g)) == InOrder(Fill(c, t))
    ensures var k := if c.red then h + 1 else h + 2; Balanced(g, k) && PathBalanced(c.up, k, IsRed(g))
  {
    var s := c.other;
    DeficitSibling(c, t, h);
    if c.InLeft? {
      RotateInOrder(t, c.node, s.left, s.node, s.right, false, c.red, c.red, false);
    } else {
      RotateInOrder(s.left, s.node, s.right, c.node, t, false, c.red, c.red, false);
    }
    FillSameInOrder(c.up, UpFrom(c, t), g);
  }

  /** Cases 3 and 4: the inner nephew rotates above sibling and parent. */
  lemma {:induction false} InnerNephew(c: Path, t: Shape, h: nat, g: Shape)
    requires Deficit(c, t, h) && !c.Top? && c.other.Node? && !c.other.red
    requires var s := c.other;
      if c.InLeft?
      then IsRed(s.left) && !IsRed(s.right) && g == Node(Node(t, c.node, false, s.left.left), s.left.node, c.red,
                                                         Node(s.left.right, s.node, false, s.right))
      else IsRed(s.right) && !IsRed(s.left) && g == Node(Node(s.left, s.node, false, s.right.left), s.right.node, c.red,
                                                         Node(s.right.right, c.node, false, t))
    ensures InOrder(Fill(c.up, g)) == InOrder(Fill(c, t))
    ensures var k := if c.red then h + 1 else h + 2; Balanced(g, k) && PathBalanced(c.up, k, IsRed(g))
  {
    var s := c.other;
    DeficitSibling(c, t, h);
    if c.InLeft? {
      RotateTwiceInOrder(t, c.node, s.left.left, s.left.node, s.left.right, s.node, s.right, c.red, true, false, false, c.red, false);
    } else {
      RotateTwiceInOrder(s.left, s.node, s.right.left, s.right.node, s.right.right, c.node, t, false, true, c.red, false, c.red, false);
    }
    FillSameInOrder(c.up, UpFrom(c, t), g);
  }

  /** Every node of a shape is in focus for exactly one path. */
  lemma {:induction false} Locate(c: Path, t: Shape, n: RBNode) returns (c': Path, t': Shape)
    requires n in InOrder(t)
    ensures t'.Node? && t'.node == n && Fill(c', t') == Fill(c, t)
    decreases t
  {
    if t.node == n {
      c', t' := c, t;
    } else if n in InOrder(t.left) {
      c', t' := Locate(InLeft(c, t.node, t.red, t.right), t.left, n);
    } else {
      c', t' := Locate(InRight(c, t.node, t.red, t.left), t.right, n);
    }
  }

  // ---------------------------------------------------------------------
  // Searching from the root
  // ---------------------------------------------------------------------

  /** The subtree `t` in the hole of `c` holds the places `lo` to `hi` of the
      order of `shape`. */
  ghost predicate Spans(shape: Shape, c: Path, t: Shape, lo: nat, hi: nat) {
    Fill(c, t) == shape && lo == |Before(c)| && hi == lo + |InOrder(t)|
  }

  lemma {:induction false} SpansAll(shape: Shape)
    ensures Spans(shape, Top, shape, 0, |InOrder(shape)|)
  {
  }

  lemma {:induction false} SpansChildren(shape: Shape, c: Path, t: Shape, lo: nat, hi: nat)
    returns (j: nat)
    requires Spans(shape, c, t, lo, hi) && t.Node?
    ensures lo <= j < hi && j == lo + |InOrder(t.left)|
    ensures Spans(shape, InLeft(c, t.node, t.red, t.right), t.left, lo, j)
    ensures Spans(shape, InRight(c, t.node, t.red, t.left), t.right, j + 1, hi)
  {
    j := lo + |InOrder(t.left)|;
  }

  // ---------------------------------------------------------------------
  // How deep a red-black tree can be
  // ---------------------------------------------------------------------

  ghost function Height(t: Shape): nat {
    if t.Leaf? then 0
    else 1 + if Height(t.left) > Height(t.right) then Height(t.left) else Height(t.right)
  }

  ghost function Pow2(n: nat): nat {
    if n == 0 then 1 else 2 * Pow2(n - 1)
  }

  lemma {:induction false} Pow2Sum(a: nat, b: nat)
    ensures Pow2(a + b) == Pow2(a) * Pow2(b)
  {
    if a > 0 {
      Pow2Sum(a - 1, b);
      assert Pow2(a + b) == 2 * Pow2(a - 1 + b);
    }
  }

  lemma {:induction false} Pow2Monotone(a: nat, b: nat)
    requires a <= b
    ensures Pow2(a) <= Pow2(b)
  {
    if a < b {
      Pow2Monotone(a, b - 1);
    }
  }

  lemma {:induction false} BlackHeightSize(t: Shape, h: nat)
    requires Balanced(t, h)
    ensures Pow2(h) <= |InOrder(t)| + 1
    ensures Height(t) <= 2 * h + if IsRed(t) then 1 else 0
  {
    if t.Node? {
      var k := if t.red then h else h - 1;
      BlackHeightSize(t.left, k);
      BlackHeightSize(t.right, k);
    }
  }

  lemma {:induction false} SquareMonotone(a: nat, b: nat)
    requires a <= b
    ensures a * a <= b * b
  {
    assert a * a <= a * b <= b * b;
  }

  /** No way down has more than 2 log2(n + 1) nodes. */
  lemma {:induction false} HeightBound(t: Shape)
    requires RedBlack(t)
    ensures Pow2(Height(t)) <= (|InOrder(t)| + 1) * (|InOrder(t)| + 1)
  {
    var h, n := BlackHeight(t), |InOrder(t)| + 1;
    BlackHeightSize(t, h);
    Pow2Monotone(Height(t), 2 * h);
    Pow2Sum(h, h);
    SquareMonotone(Pow2(h), n);
  }
}
