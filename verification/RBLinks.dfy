/** How the fields of the nodes spell a shape.  The fields are read here as a
    value, a map from nodes to cells, so that the lemmas need no heap. */
module RBLinks {
  import opened RBShape

  /** The links of one node.  `rank` is not in the source: it is a proof label,
      strictly increasing in order, that keeps the subtrees of a tree apart. */
  datatype Cell = Cell(left: RBNode?, right: RBNode?, parent: RBNode?, red: bool, rank: real)

  type Links = map<RBNode, Cell>

  /** `m` lays `t` out below `q`, using ranks strictly between `lo` and `hi`. */
  ghost predicate Rep(m: Links, t: Shape, q: RBNode?, lo: real, hi: real) {
    t.Node? ==>
      && t.node in m
      && var cell := m[t.node];
      && cell.left == Root(t.left) && cell.right == Root(t.right)
      && cell.parent == q && cell.red == t.red
      && lo < cell.rank < hi
      && Rep(m, t.left, t.node, lo, cell.rank)
      && Rep(m, t.right, t.node, cell.rank, hi)
  }

  /** The ranks left for the hole of `c`. */
  ghost function Lo(m: Links, c: Path): real {
    match c
    case Top => 0.0
    case InLeft(up, _, _, _) => Lo(m, up)
    case InRight(up, n, _, _) => if n in m then m[n].rank else 0.0
  }

  ghost function Hi(m: Links, c: Path): real {
    match c
    case Top => 1.0
    case InLeft(up, n, _, _) => if n in m then m[n].rank else 0.0
    case InRight(up, _, _, _) => Hi(m, up)
  }

  /** `m` lays out the path `c` with `x` in its hole. */
  ghost predicate HoleRep(m: Links, c: Path, x: RBNode?) {
    match c
    case Top => true
    case InLeft(up, n, red, o) =>
      && n in m && var cell := m[n];
      && cell.left == x && cell.right == Root(o)
      && cell.parent == Above(up) && cell.red == red
      && Lo(m, up) < cell.rank < Hi(m, up)
      && Rep(m, o, n, cell.rank, Hi(m, up)) && HoleRep(m, up, n)
    case InRight(up, n, red, o) =>
      && n in m && var cell := m[n];
      && cell.left == Root(o) && cell.right == x
      && cell.parent == Above(up) && cell.red == red
      && Lo(m, up) < cell.rank < Hi(m, up)
      && Rep(m, o, n, Lo(m, up), cell.rank) && HoleRep(m, up, n)
  }

  /** The whole tree, taken apart: `t` sits in the hole of `c`. */
  ghost predicate Focus(m: Links, root: RBNode?, c: Path, t: Shape) {
    && root == Head(c, Root(t))
    && Rep(m, t, Above(c), Lo(m, c), Hi(m, c))
    && HoleRep(m, c, Root(t))
  }

  /** Being in focus does not depend on where the tree is taken apart. */
  lemma {:induction false} FocusFill(m: Links, root: RBNode?, c: Path, t: Shape)
    ensures Focus(m, root, c, t) <==> Focus(m, root, Top, Fill(c, t))
    decreases c
  {
    match c
    case Top =>
    case InLeft(up, n, red, o) => FocusFill(m, root, up, Node(t, n, red, o));
    case InRight(up, n, red, o) => FocusFill(m, root, up, Node(o, n, red, t));
  }

  lemma {:induction false} FocusUp(m: Links, root: RBNode?, c: Path, t: Shape)
    requires !c.Top?
    ensures Focus(m, root, c, t) <==> Focus(m, root, c.up, UpFrom(c, t))
  {
  }

  /** What the insertion reads around the red node in focus. */
  lemma {:induction false} InsertView(m: Links, root: RBNode?, c: Path, t: Shape)
    requires Focus(m, root, c, t) && t.Node?
    ensures t.node in m && m[t.node].parent == Above(c)
    ensures !c.Top? ==>
      && c.node in m && m[c.node].red == c.red && m[c.node].parent == Above(c.up)
      && (m[c.node].right == t.node <==> c.InRight?)
      && (m[c.node].left == t.node <==> c.InLeft?)
  {
    if !c.Top? {
      assert Rep(m, c.other, c.node, if c.InLeft? then m[c.node].rank else Lo(m, c.up),
                 if c.InLeft? then Hi(m, c.up) else m[c.node].rank);
    }
  }

  /** The sibling of the subtree in focus, as the source finds it. */
  lemma {:induction false} OtherView(m: Links, root: RBNode?, c: Path, t: Shape)
    requires Focus(m, root, c, t) && !c.Top?
    ensures c.node in m
    ensures (if c.InLeft? then m[c.node].right else m[c.node].left) == Root(c.other)
    ensures c.other.Node? ==> c.other.node in m && m[c.other.node].red == c.other.red
                              && m[c.other.node].parent == c.node && c.other.node != c.node
  {
    assert Rep(m, c.other, c.node, if c.InLeft? then m[c.node].rank else Lo(m, c.up),
               if c.InLeft? then Hi(m, c.up) else m[c.node].rank);
  }

  /** All that the loop of the insertion reads before it picks a case. */
  lemma {:induction false} InsertReads(m: Links, root: RBNode?, c: Path, t: Shape, h: nat)
    requires Focus(m, root, c, t) && RedFocus(c, t, h)
    ensures t.node in m && m[t.node].parent == Above(c)
    ensures !c.Top? ==> c.node in m && m[c.node].red == c.red && m[c.node].parent == Above(c.up)
    ensures !c.Top? && !c.red ==> PathBalanced(c, h, true)
    ensures !c.Top? && c.red ==>
      && !c.up.Top? && c.up.node in m
      && (m[c.up.node].right == c.node <==> c.up.InRight?)
      && (if c.up.InLeft? then m[c.up.node].right else m[c.up.node].left) == Root(c.up.other)
      && (c.up.other.Node? ==> c.up.other.node in m && m[c.up.other.node].red == c.up.other.red)
  {
    RedFocusCases(c, t, h);
    InsertView(m, root, c, t);
    if !c.Top? && c.red {
      FocusUp(m, root, c, t);
      InsertView(m, root, c.up, UpFrom(c, t));
      OtherView(m, root, c.up, UpFrom(c, t));
    }
  }

  lemma {:induction false} RepFrame(m: Links, m': Links, t: Shape, q: RBNode?, lo: real, hi: real)
    requires Rep(m, t, q, lo, hi)
    requires forall n :: n in m && lo < m[n].rank < hi ==> n in m' && m'[n] == m[n]
    ensures Rep(m', t, q, lo, hi)
  {
    if t.Node? {
      RepFrame(m, m', t.left, t.node, lo, m[t.node].rank);
      RepFrame(m, m', t.right, t.node, m[t.node].rank, hi);
    }
  }

  lemma {:induction false} HoleFrame(m: Links, m': Links, c: Path, x: RBNode?)
    requires HoleRep(m, c, x)
    requires forall n :: n in m && !(Lo(m, c) < m[n].rank < Hi(m, c)) ==> n in m' && m'[n] == m[n]
    ensures HoleRep(m', c, x)
    ensures Lo(m', c) == Lo(m, c) && Hi(m', c) == Hi(m, c)
  {
    match c
    case Top =>
    case InLeft(up, n, red, o) =>
      HoleFrame(m, m', up, n);
      RepFrame(m, m', o, n, m[n].rank, Hi(m, up));
    case InRight(up, n, red, o) =>
      HoleFrame(m, m', up, n);
      RepFrame(m, m', o, n, Lo(m, up), m[n].rank);
  }

  // ---------------------------------------------------------------------
  // The steps the source is made of, as relations between two links
  // ---------------------------------------------------------------------

  /** hev_rbtree_change_child: the cell of a parent whose child was changed. */
  ghost function ChildChanged(cell: Cell, old_: RBNode, new_: RBNode?): Cell {
    if cell.left == old_ then cell.(left := new_) else cell.(right := new_)
  }

  /** Only the cells of `a`, `b`, `c` and `d` differ. */
  ghost predicate SameExcept(m: Links, m': Links, a: RBNode?, b: RBNode?, c: RBNode?, d: RBNode?) {
    && m'.Keys == m.Keys
    && forall n :: n in m && n != a && n != b && n != c && n != d ==> m'[n] == m[n]
  }

  /** Rotate right at `y`: its left child `x` takes its place and colour, and
      `y` takes the colour `red`. */
  ghost predicate RotatedRight(m: Links, m': Links, x: RBNode, y: RBNode, red: bool) {
    && x in m && y in m
    && var b, q := m[x].right, m[y].parent;
    && SameExcept(m, m', x, y, b, q)
    && m'[x] == m[x].(right := y, parent := q, red := m[y].red)
    && m'[y] == m[y].(left := b, parent := x, red := red)
    && (b != null ==> b in m && m'[b] == m[b].(parent := y))
    && (q != null ==> q in m && m'[q] == ChildChanged(m[q], y, x))
  }

  ghost predicate RotatedLeft(m: Links, m': Links, x: RBNode, y: RBNode, red: bool) {
    && x in m && y in m
    && var b, q := m[x].left, m[y].parent;
    && SameExcept(m, m', x, y, b, q)
    && m'[x] == m[x].(left := y, parent := q, red := m[y].red)
    && m'[y] == m[y].(right := b, parent := x, red := red)
    && (b != null ==> b in m && m'[b] == m[b].(parent := y))
    && (q != null ==> q in m && m'[q] == ChildChanged(m[q], y, x))
  }

  lemma {:induction false} RecolorFocus(m: Links, m': Links, root: RBNode?, c: Path, t: Shape, red: bool)
    requires Focus(m, root, c, t) && t.Node?
    requires SameExcept(m, m', t.node, null, null, null) && m'[t.node] == m[t.node].(red := red)
    ensures Focus(m', root, c, Node(t.left, t.node, red, t.right))
  {
    RepFrame(m, m', t.left, t.node, Lo(m, c), m[t.node].rank);
    RepFrame(m, m', t.right, t.node, m[t.node].rank, Hi(m, c));
    HoleFrame(m, m', c, t.node);
  }

  /** Colour flips at the subtree in focus: both children turn black and the
      root turns red. */
  ghost predicate Flipped(m: Links, m': Links, x: RBNode, y: RBNode, z: RBNode) {
    && x in m && y in m && z in m
    && SameExcept(m, m', x, y, z, null)
    && m'[x] == m[x].(red := false)
    && m'[y] == m[y].(red := true)
    && m'[z] == m[z].(red := false)
  }

  lemma {:induction false} FlipRep(m: Links, m': Links, q: RBNode?, lo: real, hi: real,
                a: Shape, x: RBNode, xred: bool, b: Shape, y: RBNode, yred: bool,
                c: Shape, z: RBNode, zred: bool, d: Shape)
    requires Rep(m, Node(Node(a, x, xred, b), y, yred, Node(c, z, zred, d)), q, lo, hi)
    requires Flipped(m, m', x, y, z)
    ensures Rep(m', Node(Node(a, x, false, b), y, true, Node(c, z, false, d)), q, lo, hi)
    ensures lo < m[x].rank < m[y].rank < m[z].rank < hi
  {
    assert Rep(m, Node(a, x, xred, b), y, lo, m[y].rank);
    assert Rep(m, Node(c, z, zred, d), y, m[y].rank, hi);
    RepFrame(m, m', a, x, lo, m[x].rank);
    RepFrame(m, m', b, x, m[x].rank, m[y].rank);
    RepFrame(m, m', c, z, m[y].rank, m[z].rank);
    RepFrame(m, m', d, z, m[z].rank, hi);
    assert Rep(m', Node(a, x, false, b), y, lo, m[y].rank);
    assert Rep(m', Node(c, z, false, d), y, m[y].rank, hi);
  }

  lemma {:induction false} FlipFocus(m: Links, m': Links, root: RBNode?, cx: Path,
                  a: Shape, x: RBNode, xred: bool, b: Shape, y: RBNode, yred: bool,
                  c: Shape, z: RBNode, zred: bool, d: Shape)
    requires Focus(m, root, cx, Node(Node(a, x, xred, b), y, yred, Node(c, z, zred, d)))
    requires Flipped(m, m', x, y, z)
    ensures Focus(m', root, cx, Node(Node(a, x, false, b), y, true, Node(c, z, false, d)))
  {
    FlipRep(m, m', Above(cx), Lo(m, cx), Hi(m, cx), a, x, xred, b, y, yred, c, z, zred, d);
    HoleFrame(m, m', cx, y);
  }

  /** Hanging a laid out subtree below another node. */
  lemma {:induction false} RehungRep(m: Links, m': Links, t: Shape, q: RBNode?, q': RBNode, lo: real, hi: real)
    requires Rep(m, t, q, lo, hi)
    requires t.Node? ==> t.node in m' && m'[t.node] == m[t.node].(parent := q')
    requires forall n :: n in m && lo < m[n].rank < hi && n != Root(t) ==> n in m' && m'[n] == m[n]
    ensures Rep(m', t, q', lo, hi)
  {
    if t.Node? {
      RepFrame(m, m', t.left, t.node, lo, m[t.node].rank);
      RepFrame(m, m', t.right, t.node, m[t.node].rank, hi);
    }
  }

  /** A path after its hole gets another occupant. */
  lemma {:induction false} ChildChangedHole(m: Links, m': Links, c: Path, x: RBNode, x': RBNode?)
    requires HoleRep(m, c, x) && x in m && Lo(m, c) < m[x].rank < Hi(m, c)
    requires !c.Top? ==> c.node in m' && m'[c.node] == ChildChanged(m[c.node], x, x')
    requires forall n :: n in m && !(Lo(m, c) < m[n].rank < Hi(m, c)) && n != Above(c) ==> n in m' && m'[n] == m[n]
    ensures HoleRep(m', c, x')
    ensures Lo(m', c) == Lo(m, c) && Hi(m', c) == Hi(m, c)
  {
    match c
    case Top =>
    case InLeft(up, n, red, o) =>
      HoleFrame(m, m', up, n);
      RepFrame(m, m', o, n, m[n].rank, Hi(m, up));
    case InRight(up, n, red, o) =>
      assert Root(o) != x;
      HoleFrame(m, m', up, n);
      RepFrame(m, m', o, n, Lo(m, up), m[n].rank);
  }

  /** A right rotation at the subtree in focus, the subtree. */
  lemma {:induction false} RotateRightRep(m: Links, m': Links, q: RBNode?, lo: real, hi: real, red: bool,
                       a: Shape, x: RBNode, xred: bool, b: Shape, y: RBNode, yred: bool, d: Shape)
    requires Rep(m, Node(Node(a, x, xred, b), y, yred, d), q, lo, hi)
    requires q == null || (q in m && (m[q].rank == lo || m[q].rank == hi))
    requires RotatedRight(m, m', x, y, red)
    ensures Rep(m', Node(a, x, yred, Node(b, y, red, d)), q, lo, hi)
  {
    var rx, ry := m[x].rank, m[y].rank;
    assert Rep(m, Node(a, x, xred, b), y, lo, ry);
    assert Rep(m, b, x, rx, ry);
    RepFrame(m, m', a, x, lo, rx);
    RepFrame(m, m', d, y, ry, hi);
    RehungRep(m, m', b, x, y, rx, ry);
    assert Rep(m', Node(b, y, red, d), x, rx, hi);
  }

  /** A right rotation at the subtree in focus. */
  lemma {:induction false} RotateRightFocus(m: Links, m': Links, root: RBNode?, c: Path, red: bool,
                         a: Shape, x: RBNode, xred: bool, b: Shape, y: RBNode, yred: bool, d: Shape)
    requires Focus(m, root, c, Node(Node(a, x, xred, b), y, yred, d))
    requires RotatedRight(m, m', x, y, red)
    ensures Focus(m', Head(c, x), c, Node(a, x, yred, Node(b, y, red, d)))
  {
    assert Rep(m, Node(a, x, xred, b), y, Lo(m, c), m[y].rank);
    assert Rep(m, b, x, m[x].rank, m[y].rank);
    assert c.Top? || m[c.node].rank == Lo(m, c) || m[c.node].rank == Hi(m, c);
    RotateRightRep(m, m', Above(c), Lo(m, c), Hi(m, c), red, a, x, xred, b, y, yred, d);
    ChildChangedHole(m, m', c, y, x);
  }

  /** A left rotation at the subtree in focus, the subtree. */
  lemma {:induction false} RotateLeftRep(m: Links, m': Links, q: RBNode?, lo: real, hi: real, red: bool,
                       a: Shape, x: RBNode, xred: bool, b: Shape, y: RBNode, yred: bool, d: Shape)
    requires Rep(m, Node(d, y, yred, Node(b, x, xred, a)), q, lo, hi)
    requires q == null || (q in m && (m[q].rank == lo || m[q].rank == hi))
    requires RotatedLeft(m, m', x, y, red)
    ensures Rep(m', Node(Node(d, y, red, b), x, yred, a), q, lo, hi)
  {
    var rx, ry := m[x].rank, m[y].rank;
    assert Rep(m, Node(b, x, xred, a), y, ry, hi);
    assert Rep(m, b, x, ry, rx);
    RepFrame(m, m', a, x, rx, hi);
    RepFrame(m, m', d, y, lo, ry);
    RehungRep(m, m', b, x, y, ry, rx);
    assert Rep(m', Node(d, y, red, b), x, lo, rx);
  }

  /** A left rotation at the subtree in focus. */
  lemma {:induction false} RotateLeftFocus(m: Links, m': Links, root: RBNode?, c: Path, red: bool,
                         a: Shape, x: RBNode, xred: bool, b: Shape, y: RBNode, yred: bool, d: Shape)
    requires Focus(m, root, c, Node(d, y, yred, Node(b, x, xred, a)))
    requires RotatedLeft(m, m', x, y, red)
    ensures Focus(m', Head(c, x), c, Node(Node(d, y, red, b), x, yred, a))
  {
    assert Rep(m, Node(b, x, xred, a), y, m[y].rank, Hi(m, c));
    assert Rep(m, b, x, m[y].rank, m[x].rank);
    assert c.Top? || m[c.node].rank == Lo(m, c) || m[c.node].rank == Hi(m, c);
    RotateLeftRep(m, m', Above(c), Lo(m, c), Hi(m, c), red, a, x, xred, b, y, yred, d);
    ChildChangedHole(m, m', c, y, x);
  }

  lemma {:induction false} RanksLeft(m: Links, c: Path, x: RBNode?)
    requires HoleRep(m, c, x)
    ensures 0.0 <= Lo(m, c) < Hi(m, c) <= 1.0
    decreases c
  {
    if !c.Top? {
      RanksLeft(m, c.up, c.node);
    }
  }

  /** hev_rbtree_node_link: `n` becomes a red leaf in the hole of `c`. */
  ghost predicate LinkedBelow(m: Links, m': Links, c: Path, n: RBNode) {
    && n !in m && n in m'
    && m'[n] == Cell(null, null, Above(c), true, m'[n].rank)
    && Lo(m, c) < m'[n].rank < Hi(m, c)
    && (forall k :: k in m && k != Above(c) ==> k in m' && m'[k] == m[k])
    && (c.InLeft? ==> c.node in m && c.node in m' && m'[c.node] == m[c.node].(left := n))
    && (c.InRight? ==> c.node in m && c.node in m' && m'[c.node] == m[c.node].(right := n))
  }

  lemma {:induction false} LinkFocus(m: Links, m': Links, root: RBNode?, c: Path, n: RBNode)
    requires Focus(m, root, c, Leaf) && LinkedBelow(m, m', c, n)
    ensures Focus(m', Head(c, n), c, Node(Leaf, n, true, Leaf))
  {
    if !c.Top? {
      RanksLeft(m, c, null);
      HoleFrame(m, m', c.up, c.node);
      if c.InLeft? {
        RepFrame(m, m', c.other, c.node, m[c.node].rank, Hi(m, c.up));
      } else {
        RepFrame(m, m', c.other, c.node, Lo(m, c.up), m[c.node].rank);
      }
    }
  }

  /** What a rotation of `x` over `y` needs to find: `b` is the subtree that
      moves between them, `q` the parent of `y`, all apart. */
  ghost predicate Rotatable(m: Links, x: RBNode, y: RBNode, b: RBNode?, q: RBNode?) {
    && x in m && y in m && x != y
    && (b != null ==> b in m && b != x && b != y && b != q)
    && (q != null ==> q in m && q != x && q != y)
  }

  lemma {:induction false} RotatableRight(m: Links, root: RBNode?, c: Path,
                       a: Shape, x: RBNode, xred: bool, b: Shape, y: RBNode, yred: bool, d: Shape)
    requires Focus(m, root, c, Node(Node(a, x, xred, b), y, yred, d))
    ensures Rotatable(m, x, y, Root(b), Above(c))
    ensures m[x].right == Root(b) && m[y].parent == Above(c) && m[x].parent == y && m[y].left == x
    ensures b.Node? ==> m[b.node].red == b.red && m[b.node].parent == x
  {
    assert Rep(m, Node(a, x, xred, b), y, Lo(m, c), m[y].rank);
    assert Rep(m, b, x, m[x].rank, m[y].rank);
    assert c.Top? || m[c.node].rank == Lo(m, c) || m[c.node].rank == Hi(m, c);
  }

  lemma {:induction false} RotatableLeft(m: Links, root: RBNode?, c: Path,
                       a: Shape, x: RBNode, xred: bool, b: Shape, y: RBNode, yred: bool, d: Shape)
    requires Focus(m, root, c, Node(d, y, yred, Node(b, x, xred, a)))
    ensures Rotatable(m, x, y, Root(b), Above(c))
    ensures m[x].left == Root(b) && m[y].parent == Above(c) && m[x].parent == y && m[y].right == x
    ensures b.Node? ==> m[b.node].red == b.red && m[b.node].parent == x
  {
    assert Rep(m, Node(b, x, xred, a), y, m[y].rank, Hi(m, c));
    assert Rep(m, b, x, m[y].rank, m[x].rank);
    assert c.Top? || m[c.node].rank == Lo(m, c) || m[c.node].rank == Hi(m, c);
  }

  /** The links after a whole left rotation; the source leaves some of these
      writes out when a second rotation overwrites them. */
  ghost function LeftRotation(m: Links, x: RBNode, y: RBNode, red: bool): Links
    requires x in m && y in m && Rotatable(m, x, y, m[x].left, m[y].parent)
  {
    var b, q := m[x].left, m[y].parent;
    var m1 := m[x := m[x].(left := y, parent := q, red := m[y].red)]
               [y := m[y].(right := b, parent := x, red := red)];
    var m2 := if q == null then m1 else m1[q := ChildChanged(m[q], y, x)];
    if b == null then m2 else m2[b := m[b].(parent := y)]
  }

  ghost function RightRotation(m: Links, x: RBNode, y: RBNode, red: bool): Links
    requires x in m && y in m && Rotatable(m, x, y, m[x].right, m[y].parent)
  {
    var b, q := m[x].right, m[y].parent;
    var m1 := m[x := m[x].(right := y, parent := q, red := m[y].red)]
               [y := m[y].(left := b, parent := x, red := red)];
    var m2 := if q == null then m1 else m1[q := ChildChanged(m[q], y, x)];
    if b == null then m2 else m2[b := m[b].(parent := y)]
  }

  /** What is left of a left rotation of `x` over `y` when a rotation that
      moves `x` further up follows. */
  ghost predicate FoldedLeft(m: Links, m': Links, x: RBNode, y: RBNode) {
    && x in m && y in m && var b := m[x].left;
    && SameExcept(m, m', x, y, b, null)
    && m'[x] == m[x].(left := y)
    && m'[y] == m[y].(right := b, parent := x)
    && (b != null ==> b in m && m'[b] == m[b].(parent := y))
  }

  ghost predicate FoldedRight(m: Links, m': Links, x: RBNode, y: RBNode) {
    && x in m && y in m && var b := m[x].right;
    && SameExcept(m, m', x, y, b, null)
    && m'[x] == m[x].(right := y)
    && m'[y] == m[y].(left := b, parent := x)
    && (b != null ==> b in m && m'[b] == m[b].(parent := y))
  }

  lemma {:induction false} FoldThenRotateRight(m: Links, m1: Links, m': Links, x: RBNode, y: RBNode, z: RBNode)
    requires x in m && y in m && z in m && m[y].parent == z && m[y].red && x != z
    requires Rotatable(m, x, y, m[x].left, z)
    requires FoldedLeft(m, m1, x, y) && RotatedRight(m1, m', x, z, true)
    requires m[z].left == y
    ensures RotatedRight(LeftRotation(m, x, y, true), m', x, z, true)
  {
  }

  /** Between the two rotations at an inner grandchild. */
  lemma {:induction false} InnerLeftBetween(m: Links, root: RBNode?, c: Path, a: Shape, y: RBNode, b: Shape, x: RBNode, e: Shape, z: RBNode, d: Shape)
    requires Focus(m, root, c, Node(Node(a, y, true, Node(b, x, true, e)), z, false, d))
    ensures x in m && y in m && z in m && m[y].parent == z && m[z].left == y && m[y].red
    ensures m[x].left == Root(b) && m[x].right == Root(e) && m[z].parent == Above(c)
    ensures Rotatable(m, x, y, Root(b), z)
    ensures b.Node? ==> m[b.node].red == b.red
    ensures var m1 := LeftRotation(m, x, y, true);
            Focus(m1, root, c, Node(Node(Node(a, y, true, b), x, true, e), z, false, d))
  {
    var c1 := InLeft(c, z, false, d);
    assert Focus(m, root, c1, Node(a, y, true, Node(b, x, true, e)));
    RotatableLeft(m, root, c1, e, x, true, b, y, true, a);
    RotateLeftFocus(m, LeftRotation(m, x, y, true), root, c1, true, e, x, true, b, y, true, a);
    assert Rep(m, Node(a, y, true, Node(b, x, true, e)), z, Lo(m, c), m[z].rank);
    assert Rep(m, Node(b, x, true, e), y, m[y].rank, m[z].rank);
  }

  lemma {:induction false} InnerLeftAfter(m: Links, mi: Links, m': Links, root: RBNode?, c: Path,
                       a: Shape, y: RBNode, b: Shape, x: RBNode, e: Shape, z: RBNode, d: Shape)
    requires Focus(m, root, c, Node(Node(a, y, true, Node(b, x, true, e)), z, false, d))
    requires FoldedLeft(m, mi, x, y) && RotatedRight(mi, m', x, z, true)
    ensures Focus(m', Head(c, x), c, Node(Node(a, y, true, b), x, false, Node(e, z, true, d)))
  {
    InnerLeftBetween(m, root, c, a, y, b, x, e, z, d);
    FoldThenRotateRight(m, mi, m', x, y, z);
    RotateRightFocus(LeftRotation(m, x, y, true), m', root, c, true, Node(a, y, true, b), x, true, e, z, false, d);
  }

  /** The second rotation finds what it needs after the fold. */
  lemma {:induction false} InnerLeftRotatable(m: Links, mi: Links, root: RBNode?, c: Path,
                           a: Shape, y: RBNode, b: Shape, x: RBNode, e: Shape, z: RBNode, d: Shape)
    requires Focus(m, root, c, Node(Node(a, y, true, Node(b, x, true, e)), z, false, d))
    requires FoldedLeft(m, mi, x, y)
    ensures x in mi && z in mi && mi[x].right == Root(e) && mi[z].parent == Above(c)
    ensures Rotatable(mi, x, z, Root(e), Above(c))
    ensures e.Node? ==> mi[e.node].red == e.red
  {
    InnerLeftBetween(m, root, c, a, y, b, x, e, z, d);
    var m1 := LeftRotation(m, x, y, true);
    RotatableRight(m1, root, c, Node(a, y, true, b), x, true, e, z, false, d);
  }

  lemma {:induction false} FoldThenRotateLeft(m: Links, m1: Links, m': Links, x: RBNode, y: RBNode, z: RBNode)
    requires x in m && y in m && z in m && m[y].parent == z && m[y].red && x != z
    requires Rotatable(m, x, y, m[x].right, z)
    requires FoldedRight(m, m1, x, y) && RotatedLeft(m1, m', x, z, true)
    requires m[z].right == y && m[z].left != y
    ensures RotatedLeft(RightRotation(m, x, y, true), m', x, z, true)
  {
  }

  lemma {:induction false} InnerRightBetween(m: Links, root: RBNode?, c: Path, a: Shape, y: RBNode, b: Shape, x: RBNode, e: Shape, z: RBNode, d: Shape)
    requires Focus(m, root, c, Node(d, z, false, Node(Node(e, x, true, b), y, true, a)))
    ensures x in m && y in m && z in m && m[y].parent == z && m[z].right == y && m[z].left != y && m[y].red
    ensures m[x].right == Root(b) && m[x].left == Root(e) && m[z].parent == Above(c)
    ensures Rotatable(m, x, y, Root(b), z)
    ensures b.Node? ==> m[b.node].red == b.red
    ensures var m1 := RightRotation(m, x, y, true);
            Focus(m1, root, c, Node(d, z, false, Node(e, x, true, Node(b, y, true, a))))
  {
    var c1 := InRight(c, z, false, d);
    assert Focus(m, root, c1, Node(Node(e, x, true, b), y, true, a));
    RotatableRight(m, root, c1, e, x, true, b, y, true, a);
    RotateRightFocus(m, RightRotation(m, x, y, true), root, c1, true, e, x, true, b, y, true, a);
    assert Rep(m, Node(Node(e, x, true, b), y, true, a), z, m[z].rank, Hi(m, c));
    assert Rep(m, Node(e, x, true, b), y, m[z].rank, m[y].rank);
  }

  lemma {:induction false} InnerRightAfter(m: Links, mi: Links, m': Links, root: RBNode?, c: Path,
                       a: Shape, y: RBNode, b: Shape, x: RBNode, e: Shape, z: RBNode, d: Shape)
    requires Focus(m, root, c, Node(d, z, false, Node(Node(e, x, true, b), y, true, a)))
    requires FoldedRight(m, mi, x, y) && RotatedLeft(mi, m', x, z, true)
    ensures Focus(m', Head(c, x), c, Node(Node(d, z, true, e), x, false, Node(b, y, true, a)))
  {
    InnerRightBetween(m, root, c, a, y, b, x, e, z, d);
    FoldThenRotateLeft(m, mi, m', x, y, z);
    RotateLeftFocus(RightRotation(m, x, y, true), m', root, c, true, Node(b, y, true, a), x, true, e, z, false, d);
  }

  lemma {:induction false} InnerRightRotatable(m: Links, mi: Links, root: RBNode?, c: Path,
                           a: Shape, y: RBNode, b: Shape, x: RBNode, e: Shape, z: RBNode, d: Shape)
    requires Focus(m, root, c, Node(d, z, false, Node(Node(e, x, true, b), y, true, a)))
    requires FoldedRight(m, mi, x, y)
    ensures x in mi && z in mi && mi[x].left == Root(e) && mi[z].parent == Above(c)
    ensures Rotatable(mi, x, z, Root(e), Above(c))
    ensures e.Node? ==> mi[e.node].red == e.red
  {
    InnerRightBetween(m, root, c, a, y, b, x, e, z, d);
    var m1 := RightRotation(m, x, y, true);
    RotatableLeft(m1, root, c, Node(b, y, true, a), x, true, e, z, false, d);
  }
}
