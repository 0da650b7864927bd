/** The links of a tree while a node is taken out. */
module RBErase {
  import opened Sequences
  import opened RBShape
  import opened RBLinks

  lemma {:induction false} RepWiden(m: Links, t: Shape, q: RBNode?, lo: real, hi: real, lo': real, hi': real)
    requires Rep(m, t, q, lo, hi) && lo' <= lo && hi <= hi'
    ensures Rep(m, t, q, lo', hi')
  {
    if t.Node? {
      RepWiden(m, t.left, t.node, lo, m[t.node].rank, lo', m[t.node].rank);
      RepWiden(m, t.right, t.node, m[t.node].rank, hi, m[t.node].rank, hi');
    }
  }

  /** `n` is gone; its only child `x`, if any, has its place and colour. */
  ghost predicate Spliced(m: Links, m': Links, n: RBNode, x: RBNode?) {
    && n in m && m'.Keys == m.Keys - {n}
    && var q := m[n].parent;
    && (x != null ==> x in m' && x in m && m'[x] == m[x].(parent := q, red := m[n].red))
    && (q != null ==> q in m' && q in m && m'[q] == ChildChanged(m[q], n, x))
    && forall k :: k in m && k != n && k != x && k != q ==> m'[k] == m[k]
  }

  lemma {:induction false} SpliceFocus(m: Links, m': Links, root: RBNode?, c: Path, t: Shape, x: Shape)
    requires Focus(m, root, c, t) && t.Node?
    requires (t.left == Leaf && t.right == x) || (t.left == x && t.right == Leaf)
    requires Spliced(m, m', t.node, Root(x))
    ensures Focus(m', Head(c, Root(x)), c, Painted(x, t.red))
  {
    var n, lo, hi := t.node, Lo(m, c), Hi(m, c);
    var lo1, hi1 := if t.left == x then lo else m[n].rank, if t.left == x then m[n].rank else hi;
    assert Rep(m, x, n, lo1, hi1);
    assert c.Top? || m[c.node].rank == lo || m[c.node].rank == hi;
    hide HoleRep;
    ChildChangedHole(m, m', c, n, Root(x));
    if x.Node? {
      RepFrame(m, m', x.left, x.node, lo1, m[x.node].rank);
      RepFrame(m, m', x.right, x.node, m[x.node].rank, hi1);
      RepWiden(m', Painted(x, t.red), Above(c), lo1, hi1, lo, hi);
    }
  }

  /** What taking out a node with the only child `x` reads. */
  lemma {:induction false} SpliceReads(m: Links, root: RBNode?, c: Path, t: Shape, x: Shape)
    requires Focus(m, root, c, t) && t.Node? && (x == t.left || x == t.right)
    ensures t.node in m && m[t.node].red == t.red && m[t.node].parent == Above(c)
    ensures x.Node? ==> x.node in m && x.node != t.node
    ensures !c.Top? ==> c.node in m && c.node != t.node && c.node != Root(x)
  {
    assert Rep(m, t.left, t.node, Lo(m, c), m[t.node].rank) && Rep(m, t.right, t.node, m[t.node].rank, Hi(m, c));
    assert c.Top? || m[c.node].rank == Lo(m, c) || m[c.node].rank == Hi(m, c);
  }

  // ---------------------------------------------------------------------
  // Exchanging a node with its successor
  // ---------------------------------------------------------------------

  ghost function Swap(n: RBNode, a: RBNode, b: RBNode): RBNode {
    if n == a then b else if n == b then a else n
  }

  ghost function Other(n: RBNode?, a: RBNode, b: RBNode): RBNode? {
    if n == null then null else Swap(n, a, b)
  }

  ghost function Exchanged(t: Shape, a: RBNode, b: RBNode): Shape {
    if t.Leaf? then t else
      Node(Exchanged(t.left, a, b), Swap(t.node, a, b), t.red, Exchanged(t.right, a, b))
  }

  ghost function ExchangedPath(c: Path, a: RBNode, b: RBNode): Path {
    match c
    case Top => Top
    case InLeft(up, n, red, o) =>
      InLeft(ExchangedPath(up, a, b), Swap(n, a, b), red, Exchanged(o, a, b))
    case InRight(up, n, red, o) =>
      InRight(ExchangedPath(up, a, b), Swap(n, a, b), red, Exchanged(o, a, b))
  }

  /** The links with `a` and `b` in each other's places. */
  ghost function ExchangedLinks(m: Links, a: RBNode, b: RBNode): Links
    requires a in m && b in m
  {
    map n | n in m ::
      var cell := m[Swap(n, a, b)];
      Cell(Other(cell.left, a, b), Other(cell.right, a, b), Other(cell.parent, a, b), cell.red, cell.rank)
  }

  lemma {:induction false} ExchangeRep(m: Links, t: Shape, q: RBNode?, lo: real, hi: real, a: RBNode, b: RBNode)
    requires Rep(m, t, q, lo, hi) && a in m && b in m
    ensures Rep(ExchangedLinks(m, a, b), Exchanged(t, a, b), Other(q, a, b), lo, hi)
  {
    if t.Node? {
      ExchangeRep(m, t.left, t.node, lo, m[t.node].rank, a, b);
      ExchangeRep(m, t.right, t.node, m[t.node].rank, hi, a, b);
    }
  }

  lemma {:induction false} ExchangeHole(m: Links, c: Path, x: RBNode?, a: RBNode, b: RBNode)
    requires HoleRep(m, c, x) && a in m && b in m
    ensures HoleRep(ExchangedLinks(m, a, b), ExchangedPath(c, a, b), Other(x, a, b))
    ensures Lo(ExchangedLinks(m, a, b), ExchangedPath(c, a, b)) == Lo(m, c)
    ensures Hi(ExchangedLinks(m, a, b), ExchangedPath(c, a, b)) == Hi(m, c)
    decreases c
  {
    if !c.Top? {
      var m', n := ExchangedLinks(m, a, b), c.node;
      assert m'[Swap(n, a, b)] == Cell(Other(m[n].left, a, b), Other(m[n].right, a, b), Other(m[n].parent, a, b), c.red, m[n].rank);
      ExchangeHole(m, c.up, n, a, b);
      if c.InLeft? {
        ExchangeRep(m, c.other, n, m[n].rank, Hi(m, c.up), a, b);
      } else {
        ExchangeRep(m, c.other, n, Lo(m, c.up), m[n].rank, a, b);
      }
    }
  }

  lemma {:induction false} ExchangeHead(c: Path, x: RBNode?, a: RBNode, b: RBNode)
    ensures Head(ExchangedPath(c, a, b), Other(x, a, b)) == Other(Head(c, x), a, b)
    decreases c
  {
    if !c.Top? {
      ExchangeHead(c.up, c.node, a, b);
    }
  }

  lemma {:induction false} ExchangeFocus(m: Links, root: RBNode?, c: Path, t: Shape, a: RBNode, b: RBNode)
    requires Focus(m, root, c, t) && a in m && b in m
    ensures Focus(ExchangedLinks(m, a, b), Other(root, a, b), ExchangedPath(c, a, b), Exchanged(t, a, b))
  {
    ExchangeRep(m, t, Above(c), Lo(m, c), Hi(m, c), a, b);
    ExchangeHole(m, c, Root(t), a, b);
    ExchangeHead(c, Root(t), a, b);
  }

  lemma {:induction false} ExchangeBalanced(t: Shape, h: nat, a: RBNode, b: RBNode)
    ensures Balanced(Exchanged(t, a, b), h) <==> Balanced(t, h)
  {
    if t.Node? && (t.red || h > 0) {
      ExchangeBalanced(t.left, if t.red then h else h - 1, a, b);
      ExchangeBalanced(t.right, if t.red then h else h - 1, a, b);
    }
  }

  lemma {:induction false} ExchangePathBalanced(c: Path, h: nat, red: bool, a: RBNode, b: RBNode)
    ensures PathBalanced(ExchangedPath(c, a, b), h, red) <==> PathBalanced(c, h, red)
    decreases c
  {
    if !c.Top? {
      ExchangeBalanced(c.other, h, a, b);
      ExchangePathBalanced(c.up, if c.red then h else h + 1, c.red, a, b);
    }
  }

  /** Links go both ways. */
  ghost predicate Mutual(m: Links) {
    forall n :: n in m ==>
      && (m[n].left != null ==> m[n].left in m && m[m[n].left].parent == n && m[n].left != n)
      && (m[n].right != null ==> m[n].right in m && m[m[n].right].parent == n && m[n].right != n)
      && (m[n].left != null ==> m[n].left != m[n].right)
      && (m[n].parent != null ==> m[n].parent in m && m[n].parent != n)
      && (m[n].parent != null ==> m[m[n].parent].left == n || m[m[n].parent].right == n)
  }

  lemma {:induction false} MutualLinks(m: Links, root: RBNode?, shape: Shape)
    requires Focus(m, root, Top, shape) && m.Keys == Elements(InOrder(shape))
    ensures Mutual(m)
  {
    forall n | n in m
      ensures m[n].left != null ==> m[n].left in m && m[m[n].left].parent == n && m[n].left != n
      ensures m[n].right != null ==> m[n].right in m && m[m[n].right].parent == n && m[n].right != n
      ensures m[n].left != null ==> m[n].left != m[n].right
      ensures m[n].parent != null ==> m[n].parent in m && m[n].parent != n
      ensures m[n].parent != null ==> m[m[n].parent].left == n || m[m[n].parent].right == n
    {
      var c, t := Locate(Top, shape, n);
      FocusFill(m, root, c, t);
      assert Rep(m, t.left, n, Lo(m, c), m[n].rank) && Rep(m, t.right, n, m[n].rank, Hi(m, c));
    }
  }

  /** The successor `s` of `n` has moved to the place of `n`, which is out of
      the tree; `p` was the parent of `s`, and `x` its right child. */
  ghost predicate SuccessorMoved(m: Links, m': Links, n: RBNode, s: RBNode, p: RBNode, x: RBNode?) {
    && n in m && s in m && p in m && m'.Keys == m.Keys - {n} && s in m'
    && var cell := m[n];
    && m'[s] == Cell(cell.left, if p == n then x else cell.right, cell.parent, cell.red, cell.rank)
    && forall k :: k in m && k != n && k != s ==> MovedCells(m, m', n, s, p, x, k)
  }

  /** The same while `n` is still among the links. */
  ghost predicate MovedLinks(m: Links, m': Links, n: RBNode, s: RBNode, p: RBNode, x: RBNode?) {
    && n in m && s in m && m'.Keys == m.Keys
    && var cell := m[n];
    && m'[s] == Cell(cell.left, if p == n then x else cell.right, cell.parent, cell.red, m[s].rank)
    && forall k :: k in m && k != n && k != s ==> MovedCells(m, m', n, s, p, x, k)
  }

  /** The links of another node then. */
  ghost predicate MovedCells(m: Links, m': Links, n: RBNode, s: RBNode, p: RBNode, x: RBNode?, k: RBNode)
    requires n in m && k in m && k in m'
  {
    var cell := m[n];
    && m'[k].left == (if k == p then x else if k == cell.parent && m[k].left == n then s else m[k].left)
    && m'[k].right == (if k == cell.parent && m[k].left != n then s else m[k].right)
    && m'[k].parent == (if k == cell.left || k == cell.right then s else if k == x then (if p == n then s else p) else m[k].parent)
    && m'[k].red == (if k == x then false else m[k].red)
    && m'[k].rank == m[k].rank
  }

  /** `n` leaves, and `s` has its rank. */
  lemma {:induction false} MovedRanks(m: Links, m1: Links, n: RBNode, s: RBNode, p: RBNode, x: RBNode?)
    requires MovedLinks(m, m1, n, s, p, x) && n != s && p in m
    ensures SuccessorMoved(m, m1[s := m1[s].(rank := m[n].rank)] - {n}, n, s, p, x)
  {
    var m' := m1[s := m1[s].(rank := m[n].rank)] - {n};
    forall k | k in m && k != n && k != s
      ensures MovedCells(m, m', n, s, p, x, k)
    {
      assert MovedCells(m, m1, n, s, p, x, k);
    }
  }

  lemma {:induction false} PlaceKnown(m: Links, n: RBNode, s: RBNode, p: RBNode, x: RBNode?, lo: real, hi: real)
    requires SuccessorPlace(m, n, s, p, x, lo, hi)
    ensures n in m && s in m && p in m && n != s
  {
  }

  /** Where the nodes that move lie in the order: `n` has two children, `s` is
      the leftmost node of its right subtree, and `p` the parent of `s`. */
  ghost predicate SuccessorPlace(m: Links, n: RBNode, s: RBNode, p: RBNode, x: RBNode?, lo: real, hi: real) {
    && n in m && s in m && p in m
    && m[s].left == null && m[s].right == x && m[s].parent == p
    && m[n].left != null && m[n].right != null && m[n].left in m && m[n].right in m
    && (if p == n then m[n].right == s else m[p].left == s && m[n].right != s && m[s].rank < m[p].rank < hi)
    && lo < m[m[n].left].rank < m[n].rank < m[s].rank < hi && m[n].rank < m[m[n].right].rank < hi
    && (x != null ==> x in m && m[s].rank < m[x].rank < (if p == n then hi else m[p].rank) && x != m[n].right)
    && (m[n].parent != null ==> m[n].parent in m && (m[m[n].parent].rank <= lo || m[m[n].parent].rank >= hi))
  }

  lemma {:induction false} MovedCell(m: Links, m': Links, n: RBNode, s: RBNode, p: RBNode, x: RBNode?, lo: real, hi: real, k: RBNode)
    requires Mutual(m) && SuccessorMoved(m, m', n, s, p, x) && SuccessorPlace(m, n, s, p, x, lo, hi)
    requires x != null ==> !m[s].red
    requires k in m && k != n && k != s
    ensures var m1 := ExchangedLinks(m, n, s);
      m'[k] == if k == x then m1[x].(parent := m1[n].parent, red := m1[n].red)
               else if k == m1[n].parent then ChildChanged(m1[k], n, x) else m1[k]
  {
    var m1 := ExchangedLinks(m, n, s);
    assert m1[n] == Cell(null, x, if p == n then s else p, m[s].red, m[s].rank);
    assert m1[k] == Cell(Other(m[k].left, n, s), Other(m[k].right, n, s), Other(m[k].parent, n, s), m[k].red, m[k].rank);
    assert m[k].left == n ==> k == m[n].parent;
    assert m[k].right == n ==> k == m[n].parent;
    assert m[k].left == s ==> k == p;
    assert m[k].right == s ==> k == p;
    assert m[k].parent == n <==> k == m[n].left || k == m[n].right;
    assert m[k].parent == s <==> k == x;
  }

  lemma {:induction false} MovedIsExchanged(m: Links, m': Links, n: RBNode, s: RBNode, p: RBNode, x: RBNode?, lo: real, hi: real)
    requires Mutual(m) && SuccessorMoved(m, m', n, s, p, x) && SuccessorPlace(m, n, s, p, x, lo, hi)
    requires x != null ==> !m[s].red
    ensures Spliced(ExchangedLinks(m, n, s), m', n, x)
  {
    var m1 := ExchangedLinks(m, n, s);
    assert m1[n] == Cell(null, x, if p == n then s else p, m[s].red, m[s].rank);
    forall k | k in m && k != n && k != s
      ensures m'[k] == if k == x then m1[x].(parent := m1[n].parent, red := m1[n].red)
                       else if k == m1[n].parent then ChildChanged(m1[k], n, x) else m1[k]
    {
      MovedCell(m, m', n, s, p, x, lo, hi, k);
    }
  }

  // ---------------------------------------------------------------------
  // The order while a node is taken out
  // ---------------------------------------------------------------------

  ghost function SwapAll(s: seq<RBNode>, a: RBNode, b: RBNode): (r: seq<RBNode>)
    ensures |r| == |s| && forall i :: 0 <= i < |s| ==> r[i] == Swap(s[i], a, b)
  {
    if s == [] then [] else SwapAll(s[..|s| - 1], a, b) + [Swap(s[|s| - 1], a, b)]
  }

  lemma {:induction false} ExchangeInOrder(t: Shape, a: RBNode, b: RBNode)
    ensures InOrder(Exchanged(t, a, b)) == SwapAll(InOrder(t), a, b)
  {
    if t.Node? {
      ExchangeInOrder(t.left, a, b);
      ExchangeInOrder(t.right, a, b);
    }
  }

  lemma {:induction false} ExchangeFill(c: Path, t: Shape, a: RBNode, b: RBNode)
    ensures Exchanged(Fill(c, t), a, b) == Fill(ExchangedPath(c, a, b), Exchanged(t, a, b))
    decreases c
  {
    match c
    case Top =>
    case InLeft(up, n, red, o) => ExchangeFill(up, Node(t, n, red, o), a, b);
    case InRight(up, n, red, o) => ExchangeFill(up, Node(o, n, red, t), a, b);
  }

  lemma {:induction false} ExchangeBefore(c: Path, a: RBNode, b: RBNode)
    ensures |Before(ExchangedPath(c, a, b))| == |Before(c)|
  {
    if !c.Top? {
      ExchangeBefore(c.up, a, b);
      ExchangeInOrder(c.other, a, b);
    }
  }

  /** Ranks increase along the order, so that no node comes twice. */
  ghost predicate Ascending(m: Links, s: seq<RBNode>, lo: real, hi: real) {
    && (forall i :: 0 <= i < |s| ==> s[i] in m && lo < m[s[i]].rank < hi)
    && (forall i, j :: 0 <= i < j < |s| ==> m[s[i]].rank < m[s[j]].rank)
  }

  lemma {:induction false} AscendingNode(m: Links, x: seq<RBNode>, n: RBNode, y: seq<RBNode>, lo: real, hi: real)
    requires n in m && lo < m[n].rank < hi
    requires Ascending(m, x, lo, m[n].rank) && Ascending(m, y, m[n].rank, hi)
    ensures Ascending(m, x + [n] + y, lo, hi)
  {
    var s, k := x + [n] + y, |x|;
    assert forall i :: 0 <= i < |s| ==> s[i] == if i < k then x[i] else if i == k then n else y[i - k - 1];
  }

  lemma {:induction false} RepAscending(m: Links, t: Shape, q: RBNode?, lo: real, hi: real)
    requires Rep(m, t, q, lo, hi)
    ensures Ascending(m, InOrder(t), lo, hi)
  {
    if t.Node? {
      RepAscending(m, t.left, t.node, lo, m[t.node].rank);
      RepAscending(m, t.right, t.node, m[t.node].rank, hi);
      AscendingNode(m, InOrder(t.left), t.node, InOrder(t.right), lo, hi);
    }
  }

  lemma {:induction false} RemovedMiddle<T>(a: seq<T>, l: seq<T>, n: T, r: seq<T>, z: seq<T>)
    ensures var s := a + (l + [n] + r) + z; |a| + |l| < |s| && s[|a| + |l|] == n
    ensures Removed(a + (l + [n] + r) + z, |a| + |l|) == a + (l + r) + z
  {
  }

  /** Taking the node out of the hole of `c`, where its only child is `x`. */
  lemma {:induction false} SpliceInOrder(c: Path, t: Shape, x: Shape, red: bool)
    requires t.Node?
    requires (t.left == Leaf && t.right == x) || (t.left == x && t.right == Leaf)
    ensures Without(InOrder(Fill(c, t)), |Before(c) + InOrder(t.left)|, t.node, InOrder(Fill(c, Painted(x, red))))
  {
    FillInOrder(c, t);
    FillInOrder(c, Painted(x, red));
    OnlyChild(t, x, red);
    hide InOrder, Painted, Fill, Before, After;
    RemovedMiddle(Before(c), InOrder(t.left), t.node, InOrder(t.right), After(c));
  }

  lemma {:induction false} OnlyChild(t: Shape, x: Shape, red: bool)
    requires t.Node?
    requires (t.left == Leaf && t.right == x) || (t.left == x && t.right == Leaf)
    ensures InOrder(t) == InOrder(t.left) + [t.node] + InOrder(t.right)
    ensures InOrder(Painted(x, red)) == InOrder(t.left) + InOrder(t.right)
  {
  }

  // ---------------------------------------------------------------------
  // The way down to the successor
  // ---------------------------------------------------------------------

  /** `cs` leads from `base` to the left only. */
  ghost predicate Leftmost(cs: Path, base: Path) {
    cs == base || (cs.InLeft? && Leftmost(cs.up, base))
  }

  lemma {:induction false} LeftmostPath(m: Links, cs: Path, base: Path, x: RBNode?)
    requires Leftmost(cs, base) && base.InRight? && HoleRep(m, cs, x)
    ensures base.node in m && Lo(m, cs) == m[base.node].rank && Hi(m, cs) <= Hi(m, base)
    ensures Before(cs) == Before(base)
    ensures cs != base ==> cs.InLeft? && cs.node in m && m[cs.node].rank == Hi(m, cs) < Hi(m, base)
    ensures HoleRep(m, base, m[base.node].right)
    decreases cs
  {
    if cs != base {
      LeftmostPath(m, cs.up, base, cs.node);
    }
  }

  lemma {:induction false} SuccessorPlaceHolds(m: Links, root: RBNode?, c: Path, t: Shape, cs: Path, ts: Shape)
    requires Focus(m, root, c, t) && t.Node? && t.left.Node? && t.right.Node? && Mutual(m)
    requires Focus(m, root, cs, ts) && ts.Node? && ts.left.Leaf?
    requires Leftmost(cs, InRight(c, t.node, t.red, t.left))
    ensures cs.node in m && SuccessorPlace(m, t.node, ts.node, cs.node, Root(ts.right), Lo(m, c), Hi(m, c))
    ensures cs.node == t.node <==> cs == InRight(c, t.node, t.red, t.left)
    ensures m[ts.node].red == ts.red && (ts.right.Node? ==> m[ts.right.node].parent == ts.node)
    ensures m[t.node].parent == Above(c) && m[t.node].red == t.red
  {
    var base, n := InRight(c, t.node, t.red, t.left), t.node;
    LeftmostPath(m, cs, base, ts.node);
    assert Rep(m, t.left, n, Lo(m, c), m[n].rank) && Rep(m, t.right, n, m[n].rank, Hi(m, c));
    assert c.Top? || m[c.node].rank == Lo(m, c) || m[c.node].rank == Hi(m, c);
    assert Rep(m, ts.right, ts.node, m[ts.node].rank, Hi(m, cs));
  }

  lemma {:induction false} FocusAscending(m: Links, root: RBNode?, c: Path, t: Shape)
    requires Focus(m, root, c, t)
    ensures Ascending(m, InOrder(Fill(c, t)), 0.0, 1.0)
  {
    FocusFill(m, root, c, t);
    RepAscending(m, Fill(c, t), null, 0.0, 1.0);
  }

  lemma {:induction false} NextTo<T>(p: seq<T>, n: T, b: T, r: seq<T>, z: seq<T>)
    ensures var s := p + [n] + ([b] + r) + z; |p| + 1 < |s| && s[|p|] == n && s[|p| + 1] == b
  {
  }

  /** A node and its successor are next to each other in the order. */
  lemma {:induction false} SuccessorNext(cs: Path, ts: Shape, p: seq<RBNode>, n: RBNode, s: seq<RBNode>)
    requires ts.Node? && ts.left.Leaf? && Before(cs) == p + [n] && s == InOrder(Fill(cs, ts))
    ensures |p| + 1 < |s| && s[|p|] == n && s[|p| + 1] == ts.node
  {
    FillInOrder(cs, ts);
    assert InOrder(ts) == [ts.node] + InOrder(ts.right);
    NextTo(p, n, ts.node, InOrder(ts.right), After(cs));
  }

  /** Exchanging `a` and `b` and then taking `a` out of the place of `b`. */
  lemma {:induction false} ExchangeAndSplice(cs: Path, ts: Shape, a: RBNode, red: bool)
    requires ts.Node? && ts.left.Leaf?
    ensures var x, s, j := Exchanged(ts.right, a, ts.node), InOrder(Fill(cs, ts)), |Before(cs)|;
      j < |s| && InOrder(Fill(ExchangedPath(cs, a, ts.node), Painted(x, red))) == Removed(SwapAll(s, a, ts.node), j)
  {
    var b, x := ts.node, Exchanged(ts.right, a, ts.node);
    var c' := ExchangedPath(cs, a, b);
    ExchangeFill(cs, ts, a, b);
    ExchangeInOrder(Fill(cs, ts), a, b);
    ExchangeBefore(cs, a, b);
    SpliceInOrder(c', Exchanged(ts, a, b), x, red);
    assert Before(c') + InOrder(Exchanged(ts, a, b).left) == Before(c');
  }

  /** The order after the successor has taken the place of `n`. */
  lemma {:induction false} SuccessorInOrder(m: Links, root: RBNode?, cs: Path, ts: Shape, p: seq<RBNode>, n: RBNode, s: seq<RBNode>, red: bool)
    requires Focus(m, root, cs, ts) && ts.Node? && ts.left.Leaf?
    requires Before(cs) == p + [n] && s == InOrder(Fill(cs, ts))
    ensures |p| < |s| && s[|p|] == n
    ensures InOrder(Fill(ExchangedPath(cs, n, ts.node), Painted(Exchanged(ts.right, n, ts.node), red))) == Removed(s, |p|)
  {
    FocusAscending(m, root, cs, ts);
    SuccessorNext(cs, ts, p, n, s);
    ExchangeAndSplice(cs, ts, n, red);
    SwapThenRemove(m, s, |p|);
  }

  lemma {:induction false} SwappedNeighbours<T>(s: seq<T>, w: seq<T>, k: nat)
    requires k + 1 < |s| == |w| && w[k] == s[k + 1]
    requires forall i :: 0 <= i < |s| && i != k && i != k + 1 ==> w[i] == s[i]
    ensures Removed(w, k + 1) == Removed(s, k)
  {
    var r, r' := Removed(w, k + 1), Removed(s, k);
    forall i | 0 <= i < |r|
      ensures r[i] == r'[i]
    {
      assert r[i] == if i < k + 1 then w[i] else w[i + 1];
      assert r'[i] == if i < k then s[i] else s[i + 1];
    }
    assert r == r';
  }

  lemma {:induction false} SwapThenRemove(m: Links, s: seq<RBNode>, k: nat)
    requires Ascending(m, s, 0.0, 1.0) && k + 1 < |s|
    ensures Removed(SwapAll(s, s[k], s[k + 1]), k + 1) == Removed(s, k)
  {
    var w := SwapAll(s, s[k], s[k + 1]);
    forall i | 0 <= i < |s| && i != k && i != k + 1
      ensures w[i] == s[i]
    {
      assert s[i] != s[k] && s[i] != s[k + 1];
    }
    SwappedNeighbours(s, w, k);
  }

  /** All that a turn of the erasure reads: the parent, the sibling and the
      children of the sibling. */
  lemma {:induction false} EraseReads(m: Links, root: RBNode?, c: Path, t: Shape, h: nat)
    requires Focus(m, root, c, t) && Deficit(c, t, h) && !c.Top?
    ensures c.node in m && m[c.node].red == c.red && m[c.node].parent == Above(c.up)
    ensures m[c.node].right == Root(t) <==> c.InRight?
    ensures var s := c.other;
      && s.Node? && s.node in m && m[s.node].red == s.red
      && (if c.InLeft? then m[c.node].right else m[c.node].left) == s.node
      && m[s.node].left == Root(s.left) && m[s.node].right == Root(s.right)
      && (s.left.Node? ==> s.left.node in m && m[s.left.node].red == s.left.red)
      && (s.right.Node? ==> s.right.node in m && m[s.right.node].red == s.right.red)
      && (s.red ==> s.left.Node? && s.right.Node?)
  {
    DeficitSibling(c, t, h);
    OtherView(m, root, c, t);
    if c.InLeft? {
      SubtreeReads(m, c.other, c.node, m[c.node].rank, Hi(m, c.up));
    } else {
      SubtreeReads(m, c.other, c.node, Lo(m, c.up), m[c.node].rank);
    }
  }

  lemma {:induction false} SubtreeReads(m: Links, s: Shape, q: RBNode?, lo: real, hi: real)
    requires Rep(m, s, q, lo, hi) && s.Node?
    ensures s.node in m && m[s.node].red == s.red
    ensures m[s.node].left == Root(s.left) && m[s.node].right == Root(s.right)
    ensures s.left.Node? ==> s.left.node in m && m[s.left.node].red == s.left.red
    ensures s.right.Node? ==> s.right.node in m && m[s.right.node].red == s.right.red
  {
    assert Rep(m, s.left, s.node, lo, m[s.node].rank) && Rep(m, s.right, s.node, m[s.node].rank, hi);
  }

  /** Painting the sibling of the subtree in focus red and its parent black. */
  lemma {:induction false} SiblingPainted(m: Links, m': Links, root: RBNode?, c: Path, t: Shape)
    requires Focus(m, root, c, t) && !c.Top? && c.other.Node?
    requires c.other.node in m && c.node in m && SameExcept(m, m', c.node, c.other.node, null, null)
    requires m'[c.other.node] == m[c.other.node].(red := true) && m'[c.node] == m[c.node].(red := false)
    ensures Focus(m', root, c.up, if c.InLeft? then Node(t, c.node, false, Painted(c.other, true))
                                  else Node(Painted(c.other, true), c.node, false, t))
  {
    var s := c.other;
    var c1 := if c.InLeft? then InRight(c.up, c.node, c.red, t) else InLeft(c.up, c.node, c.red, t);
    var m1 := m[s.node := m[s.node].(red := true)];
    OtherView(m, root, c, t);
    assert Focus(m, root, c1, s);
    RecolorFocus(m, m1, root, c1, s, true);
    FocusUp(m1, root, c1, Painted(s, true));
    RecolorFocus(m1, m', root, c.up, UpFrom(c1, Painted(s, true)), false);
  }

  lemma {:induction false} RemovedElements(m: Links, root: RBNode?, shape: Shape, k: nat, n: RBNode, s': seq<RBNode>)
    requires Focus(m, root, Top, shape) && Without(InOrder(shape), k, n, s')
    ensures Elements(s') == Elements(InOrder(shape)) - {n}
  {
    var s := InOrder(shape);
    RepAscending(m, shape, null, 0.0, 1.0);
    assert forall i :: 0 <= i < |s| && i != k ==> s[i] == (if i < k then s'[i] else s'[i - 1]);
  }

  /** The tree after the successor `ts.node` has taken the place of `t.node`:
      exchange the two, and take `t.node` out of its new place. */
  lemma {:induction false} SuccessorFocus(m: Links, m': Links, root: RBNode?, c: Path, t: Shape, cs: Path, ts: Shape)
    requires Focus(m, root, c, t) && t.Node? && t.left.Node? && t.right.Node? && Mutual(m)
    requires Focus(m, root, cs, ts) && ts.Node? && ts.left.Leaf?
    requires Leftmost(cs, InRight(c, t.node, t.red, t.left))
    requires ts.right.Node? ==> !ts.red
    requires SuccessorMoved(m, m', t.node, ts.node, cs.node, Root(ts.right))
    ensures Focus(m', if Above(c) == null then ts.node else root, ExchangedPath(cs, t.node, ts.node),
                  Painted(Exchanged(ts.right, t.node, ts.node), ts.red))
  {
    var n, s := t.node, ts.node;
    SuccessorPlaceHolds(m, root, c, t, cs, ts);
    MovedIsExchanged(m, m', n, s, cs.node, Root(ts.right), Lo(m, c), Hi(m, c));
    LeftmostPath(m, cs, InRight(c, n, t.red, t.left), s);
    SuccessorChild(ts, n, m, Above(cs), Lo(m, cs), Hi(m, cs));
    ExchangeSpliceFocus(m, m', root, cs, ts, n);
    RootExchanged(m, root, c, t, cs, ts);
  }

  lemma {:induction false} ExchangeSpliceFocus(m: Links, m': Links, root: RBNode?, cs: Path, ts: Shape, n: RBNode)
    requires Focus(m, root, cs, ts) && ts.Node? && ts.left.Leaf? && !cs.Top? && n in m && ts.node in m && n != ts.node
    requires Root(Exchanged(ts.right, n, ts.node)) == Root(ts.right)
    requires Spliced(ExchangedLinks(m, n, ts.node), m', n, Root(ts.right))
    ensures Focus(m', Other(root, n, ts.node), ExchangedPath(cs, n, ts.node), Painted(Exchanged(ts.right, n, ts.node), ts.red))
  {
    var s := ts.node;
    var m1, c1, t1 := ExchangedLinks(m, n, s), ExchangedPath(cs, n, s), Exchanged(ts, n, s);
    ExchangeFocus(m, root, cs, ts, n, s);
    assert t1 == Node(Leaf, n, ts.red, Exchanged(ts.right, n, s));
    SpliceFocus(m1, m', Other(root, n, s), c1, t1, t1.right);
    assert Head(c1, n) == Head(c1, Root(t1.right));
  }

  /** The right child of the successor does not move. */
  lemma {:induction false} SuccessorChild(ts: Shape, n: RBNode, m: Links, q: RBNode?, lo: real, hi: real)
    requires Rep(m, ts, q, lo, hi) && ts.Node? && n in m && m[n].rank <= lo
    ensures Root(Exchanged(ts.right, n, ts.node)) == Root(ts.right)
  {
  }

  lemma {:induction false} RootExchanged(m: Links, root: RBNode?, c: Path, t: Shape, cs: Path, ts: Shape)
    requires Focus(m, root, c, t) && t.Node? && Focus(m, root, cs, ts) && ts.Node? && !cs.Top? && t.node != ts.node
    ensures Other(root, t.node, ts.node) == if Above(c) == null then ts.node else root
  {
    FocusRoot(m, root, c, t);
    FocusRoot(m, root, cs, ts);
  }

  lemma {:induction false} FocusRoot(m: Links, root: RBNode?, c: Path, t: Shape)
    requires Focus(m, root, c, t) && t.Node?
    ensures root == t.node <==> c.Top?
  {
    if !c.Top? {
      HeadParent(m, c, t.node);
      FocusUp(m, root, c, t);
    }
  }

  lemma {:induction false} HeadParent(m: Links, c: Path, x: RBNode?)
    requires HoleRep(m, c, x) && !c.Top?
    ensures Head(c, x) != null && Head(c, x) in m && m[Head(c, x)].parent == null
    decreases c
  {
    if !c.up.Top? {
      HeadParent(m, c.up, c.node);
    }
  }

  /** The balance after the successor has taken the place of `n`. */
  lemma {:induction false} SuccessorOutcome(cs: Path, ts: Shape, n: RBNode) returns (h: nat)
    requires ts.Node? && ts.left.Leaf? && RedBlack(Fill(cs, ts)) && !cs.Top?
    ensures AfterErasure(ExchangedPath(cs, n, ts.node), Painted(Exchanged(ts.right, n, ts.node), ts.red), h,
                         if ts.right.Leaf? && !ts.red then Above(ExchangedPath(cs, n, ts.node)) else null)
    ensures ts.right.Node? ==> !ts.red
  {
    var c1, t1 := ExchangedPath(cs, n, ts.node), Exchanged(ts, n, ts.node);
    UnfillBalanced(cs, ts);
    ExchangeBalanced(ts, BlackHeight(ts), n, ts.node);
    ExchangePathBalanced(cs, BlackHeight(ts), ts.red, n, ts.node);
    h := SpliceOutcome(c1, t1, Exchanged(ts.right, n, ts.node), BlackHeight(ts));
  }

  /** All that is known about the successor before anything moves. */
  lemma {:induction false} SuccessorPlan(m: Links, root: RBNode?, c: Path, t: Shape, cs: Path, ts: Shape)
    returns (h: nat)
    requires Focus(m, root, c, t) && t.Node? && t.left.Node? && t.right.Node? && Mutual(m) && RedBlack(Fill(c, t))
    requires Focus(m, root, cs, ts) && ts.Node? && ts.left.Leaf? && Fill(cs, ts) == Fill(c, t)
    requires Leftmost(cs, InRight(c, t.node, t.red, t.left))
    ensures cs.node in m && SuccessorPlace(m, t.node, ts.node, cs.node, Root(ts.right), Lo(m, c), Hi(m, c))
    ensures m[ts.node].red == ts.red && m[t.node].parent == Above(c) && (ts.right.Node? ==> !ts.red)
    ensures AfterErasure(ExchangedPath(cs, t.node, ts.node), Painted(Exchanged(ts.right, t.node, ts.node), ts.red), h,
                         if ts.right.Leaf? && !ts.red then (if cs.node == t.node then ts.node else cs.node) else null)
    ensures Without(InOrder(Fill(c, t)), |Before(c) + InOrder(t.left)|, t.node,
                    InOrder(Fill(ExchangedPath(cs, t.node, ts.node), Painted(Exchanged(ts.right, t.node, ts.node), ts.red))))
  {
    SuccessorPlaceHolds(m, root, c, t, cs, ts);
    h := SuccessorOutcome(cs, ts, t.node);
    LeftmostPath(m, cs, InRight(c, t.node, t.red, t.left), ts.node);
    SuccessorInOrder(m, root, cs, ts, Before(c) + InOrder(t.left), t.node, InOrder(Fill(c, t)), ts.red);
  }

  /** Where the node to erase is, and what the source reads there. */
  lemma {:induction false} ErasePlan(m: Links, root: RBNode?, shape: Shape, node: RBNode) returns (c: Path, t: Shape)
    requires Focus(m, root, Top, shape) && node in m && m.Keys == Elements(InOrder(shape))
    ensures Fill(c, t) == shape && t.Node? && t.node == node && Focus(m, root, c, t) && Mutual(m)
    ensures m[node].left == Root(t.left) && m[node].right == Root(t.right)
  {
    c, t := Locate(Top, shape, node);
    FocusFill(m, root, c, t);
    MutualLinks(m, root, shape);
    SubtreeReads(m, t, Above(c), Lo(m, c), Hi(m, c));
  }

  // ---------------------------------------------------------------------
  // Rebalancing after an erasure, the short subtree on the left
  // ---------------------------------------------------------------------

  /** Case 4 with the short subtree on the left. */
  lemma {:induction false} OuterLeftAfter(m: Links, m': Links, root: RBNode?, c: Path,
                       t: Shape, y: RBNode, yred: bool, b: Shape, x: RBNode, a: Shape)
    requires Focus(m, root, c, Node(t, y, yred, Node(b, x, false, a))) && a.Node? && a.node in m
    requires RotatedLeft(m[a.node := m[a.node].(parent := x, red := false)], m', x, y, false)
    ensures Focus(m', Head(c, x), c, Node(Node(t, y, false, b), x, yred, Painted(a, false)))
  {
    var c1 := InRight(InRight(c, y, yred, t), x, false, b);
    assert Focus(m, root, c1.up, Node(b, x, false, a));
    assert Focus(m, root, c1, a);
    var m1 := m[a.node := m[a.node].(parent := x, red := false)];
    RecolorFocus(m, m1, root, c1, a, false);
    assert Focus(m1, root, c1.up, Node(b, x, false, Painted(a, false)));
    RotateLeftFocus(m1, m', root, c, false, Painted(a, false), x, false, b, y, yred, t);
  }

  /** What case 4 needs to find. */
  lemma {:induction false} OuterLeftBefore(m: Links, root: RBNode?, c: Path,
                        t: Shape, y: RBNode, yred: bool, b: Shape, x: RBNode, a: Shape)
    requires Focus(m, root, c, Node(t, y, yred, Node(b, x, false, a))) && a.Node?
    ensures Rotatable(m, x, y, Root(b), Above(c)) && m[x].left == Root(b) && m[y].parent == Above(c)
    ensures a.node in m && m[a.node].parent == x
    ensures a.node != x && a.node != y && a.node != Root(b) && a.node != Above(c)
  {
    RotatableLeft(m, root, c, a, x, false, b, y, yred, t);
    assert Rep(m, Node(b, x, false, a), y, m[y].rank, Hi(m, c));
    assert Rep(m, a, x, m[x].rank, Hi(m, c)) && Rep(m, b, x, m[y].rank, m[x].rank);
    assert c.Top? || m[c.node].rank == Lo(m, c) || m[c.node].rank == Hi(m, c);
  }

  /** Case 3 with the short subtree on the left: the part of a right rotation
      of `x` over `s` that case 4 does not overwrite. */
  ghost predicate FoldedSiblingLeft(m: Links, m': Links, x: RBNode, s: RBNode, y: RBNode) {
    && x in m && s in m && y in m && var b := m[x].right;
    && SameExcept(m, m', x, s, y, b)
    && m'[x] == m[x].(right := s)
    && m'[s] == m[s].(left := b)
    && m'[y] == m[y].(right := x)
    && (b != null ==> b in m && m'[b] == m[b].(parent := s))
  }

  lemma {:induction false} FoldThenCase4Left(m: Links, mi: Links, m': Links, x: RBNode, s: RBNode, y: RBNode)
    requires x in m && s in m && y in m && m[s].parent == y && !m[s].red && x != y
    requires Rotatable(m, x, s, m[x].right, y)
    requires m[y].right == s && m[y].left != s
    requires FoldedSiblingLeft(m, mi, x, s, y)
    requires RotatedLeft(mi[s := mi[s].(parent := x, red := false)], m', x, y, false)
    ensures RotatedLeft(RightRotation(m, x, s, false), m', x, y, false)
  {
  }

  /** Between case 3 and case 4. */
  lemma {:induction false} InnerNephewBetweenLeft(m: Links, root: RBNode?, c: Path,
                           t: Shape, y: RBNode, yred: bool, a: Shape, x: RBNode, b: Shape, s: RBNode, d: Shape)
    requires Focus(m, root, c, Node(t, y, yred, Node(Node(a, x, true, b), s, false, d)))
    ensures x in m && s in m && y in m && m[s].parent == y && m[y].right == s && m[y].left != s && !m[s].red
    ensures m[x].right == Root(b) && m[x].left == Root(a) && m[y].parent == Above(c) && m[s].left == x
    ensures Rotatable(m, x, s, Root(b), y) && (b.Node? ==> m[b.node].red == b.red)
    ensures Focus(RightRotation(m, x, s, false), root, c, Node(t, y, yred, Node(a, x, false, Node(b, s, false, d))))
  {
    var c1 := InRight(c, y, yred, t);
    assert Focus(m, root, c1, Node(Node(a, x, true, b), s, false, d));
    RotatableRight(m, root, c1, a, x, true, b, s, false, d);
    RotateRightFocus(m, RightRotation(m, x, s, false), root, c1, false, a, x, true, b, s, false, d);
    assert Rep(m, Node(Node(a, x, true, b), s, false, d), y, m[y].rank, Hi(m, c));
    assert Rep(m, Node(a, x, true, b), s, m[y].rank, m[s].rank);
    assert Rep(m, t, y, Lo(m, c), m[y].rank);
  }

  /** Case 4 finds what it needs after case 3. */
  lemma {:induction false} InnerNephewRotatableLeft(m: Links, mi: Links, root: RBNode?, c: Path,
                             t: Shape, y: RBNode, yred: bool, a: Shape, x: RBNode, b: Shape, s: RBNode, d: Shape)
    requires Focus(m, root, c, Node(t, y, yred, Node(Node(a, x, true, b), s, false, d)))
    requires FoldedSiblingLeft(m, mi, x, s, y)
    ensures x in mi && y in mi && s in mi && mi[x].left == Root(a) && mi[y].parent == Above(c)
    ensures Rotatable(mi, x, y, Root(a), Above(c))
    ensures s != x && s != y && s != Root(a) && s != Above(c)
  {
    InnerNephewBetweenLeft(m, root, c, t, y, yred, a, x, b, s, d);
    OuterLeftBefore(RightRotation(m, x, s, false), root, c, t, y, yred, a, x, Node(b, s, false, d));
  }

  lemma {:induction false} InnerNephewAfterLeft(m: Links, mi: Links, m': Links, root: RBNode?, c: Path,
                         t: Shape, y: RBNode, yred: bool, a: Shape, x: RBNode, b: Shape, s: RBNode, d: Shape)
    requires Focus(m, root, c, Node(t, y, yred, Node(Node(a, x, true, b), s, false, d)))
    requires FoldedSiblingLeft(m, mi, x, s, y) && s in mi
    requires RotatedLeft(mi[s := mi[s].(parent := x, red := false)], m', x, y, false)
    ensures Focus(m', Head(c, x), c, Node(Node(t, y, false, a), x, yred, Node(b, s, false, d)))
  {
    InnerNephewBetweenLeft(m, root, c, t, y, yred, a, x, b, s, d);
    InnerNephewRotatableLeft(m, mi, root, c, t, y, yred, a, x, b, s, d);
    FoldThenCase4Left(m, mi, m', x, s, y);
    RotateLeftFocus(RightRotation(m, x, s, false), m', root, c, false, Node(b, s, false, d), x, false, a, y, yred, t);
  }

  // ---------------------------------------------------------------------
  // The same with the short subtree on the right
  // ---------------------------------------------------------------------

  lemma {:induction false} OuterRightAfter(m: Links, m': Links, root: RBNode?, c: Path,
                       t: Shape, y: RBNode, yred: bool, b: Shape, x: RBNode, a: Shape)
    requires Focus(m, root, c, Node(Node(a, x, false, b), y, yred, t)) && a.Node? && a.node in m
    requires RotatedRight(m[a.node := m[a.node].(parent := x, red := false)], m', x, y, false)
    ensures Focus(m', Head(c, x), c, Node(Painted(a, false), x, yred, Node(b, y, false, t)))
  {
    var c1 := InLeft(InLeft(c, y, yred, t), x, false, b);
    assert Focus(m, root, c1.up, Node(a, x, false, b));
    assert Focus(m, root, c1, a);
    var m1 := m[a.node := m[a.node].(parent := x, red := false)];
    RecolorFocus(m, m1, root, c1, a, false);
    assert Focus(m1, root, c1.up, Node(Painted(a, false), x, false, b));
    RotateRightFocus(m1, m', root, c, false, Painted(a, false), x, false, b, y, yred, t);
  }

  lemma {:induction false} OuterRightBefore(m: Links, root: RBNode?, c: Path,
                        t: Shape, y: RBNode, yred: bool, b: Shape, x: RBNode, a: Shape)
    requires Focus(m, root, c, Node(Node(a, x, false, b), y, yred, t)) && a.Node?
    ensures Rotatable(m, x, y, Root(b), Above(c)) && m[x].right == Root(b) && m[y].parent == Above(c)
    ensures a.node in m && m[a.node].parent == x
    ensures a.node != x && a.node != y && a.node != Root(b) && a.node != Above(c)
  {
    RotatableRight(m, root, c, a, x, false, b, y, yred, t);
    assert Rep(m, Node(a, x, false, b), y, Lo(m, c), m[y].rank);
    assert Rep(m, a, x, Lo(m, c), m[x].rank) && Rep(m, b, x, m[x].rank, m[y].rank);
    assert c.Top? || m[c.node].rank == Lo(m, c) || m[c.node].rank == Hi(m, c);
  }

  ghost predicate FoldedSiblingRight(m: Links, m': Links, x: RBNode, s: RBNode, y: RBNode) {
    && x in m && s in m && y in m && var b := m[x].left;
    && SameExcept(m, m', x, s, y, b)
    && m'[x] == m[x].(left := s)
    && m'[s] == m[s].(right := b)
    && m'[y] == m[y].(left := x)
    && (b != null ==> b in m && m'[b] == m[b].(parent := s))
  }

  lemma {:induction false} FoldThenCase4Right(m: Links, mi: Links, m': Links, x: RBNode, s: RBNode, y: RBNode)
    requires x in m && s in m && y in m && m[s].parent == y && !m[s].red && x != y
    requires Rotatable(m, x, s, m[x].left, y)
    requires m[y].left == s && m[y].right != s
    requires FoldedSiblingRight(m, mi, x, s, y)
    requires RotatedRight(mi[s := mi[s].(parent := x, red := false)], m', x, y, false)
    ensures RotatedRight(LeftRotation(m, x, s, false), m', x, y, false)
  {
  }

  lemma {:induction false} InnerNephewBetweenRight(m: Links, root: RBNode?, c: Path,
                           t: Shape, y: RBNode, yred: bool, a: Shape, x: RBNode, b: Shape, s: RBNode, d: Shape)
    requires Focus(m, root, c, Node(Node(d, s, false, Node(b, x, true, a)), y, yred, t))
    ensures x in m && s in m && y in m && m[s].parent == y && m[y].left == s && m[y].right != s && !m[s].red
    ensures m[x].left == Root(b) && m[x].right == Root(a) && m[y].parent == Above(c) && m[s].right == x
    ensures Rotatable(m, x, s, Root(b), y) && (b.Node? ==> m[b.node].red == b.red)
    ensures Focus(LeftRotation(m, x, s, false), root, c, Node(Node(Node(d, s, false, b), x, false, a), y, yred, t))
  {
    var c1 := InLeft(c, y, yred, t);
    assert Focus(m, root, c1, Node(d, s, false, Node(b, x, true, a)));
    RotatableLeft(m, root, c1, a, x, true, b, s, false, d);
    RotateLeftFocus(m, LeftRotation(m, x, s, false), root, c1, false, a, x, true, b, s, false, d);
    assert Rep(m, Node(d, s, false, Node(b, x, true, a)), y, Lo(m, c), m[y].rank);
    assert Rep(m, Node(b, x, true, a), s, m[s].rank, m[y].rank);
    assert Rep(m, t, y, m[y].rank, Hi(m, c));
  }

  lemma {:induction false} InnerNephewRotatableRight(m: Links, mi: Links, root: RBNode?, c: Path,
                             t: Shape, y: RBNode, yred: bool, a: Shape, x: RBNode, b: Shape, s: RBNode, d: Shape)
    requires Focus(m, root, c, Node(Node(d, s, false, Node(b, x, true, a)), y, yred, t))
    requires FoldedSiblingRight(m, mi, x, s, y)
    ensures x in mi && y in mi && s in mi && mi[x].right == Root(a) && mi[y].parent == Above(c)
    ensures Rotatable(mi, x, y, Root(a), Above(c))
    ensures s != x && s != y && s != Root(a) && s != Above(c)
  {
    InnerNephewBetweenRight(m, root, c, t, y, yred, a, x, b, s, d);
    OuterRightBefore(LeftRotation(m, x, s, false), root, c, t, y, yred, a, x, Node(d, s, false, b));
  }

  lemma {:induction false} InnerNephewAfterRight(m: Links, mi: Links, m': Links, root: RBNode?, c: Path,
                         t: Shape, y: RBNode, yred: bool, a: Shape, x: RBNode, b: Shape, s: RBNode, d: Shape)
    requires Focus(m, root, c, Node(Node(d, s, false, Node(b, x, true, a)), y, yred, t))
    requires FoldedSiblingRight(m, mi, x, s, y) && s in mi
    requires RotatedRight(mi[s := mi[s].(parent := x, red := false)], m', x, y, false)
    ensures Focus(m', Head(c, x), c, Node(Node(d, s, false, b), x, yred, Node(a, y, false, t)))
  {
    InnerNephewBetweenRight(m, root, c, t, y, yred, a, x, b, s, d);
    InnerNephewRotatableRight(m, mi, root, c, t, y, yred, a, x, b, s, d);
    FoldThenCase4Right(m, mi, m', x, s, y);
    RotateRightFocus(LeftRotation(m, x, s, false), m', root, c, false, Node(d, s, false, b), x, false, a, y, yred, t);
  }

  // ---------------------------------------------------------------------
  // Replacing a node by one that is not in the tree
  // ---------------------------------------------------------------------

  /** `w` has taken the place of `v`. */
  ghost predicate Replaced(m: Links, m': Links, v: RBNode, w: RBNode) {
    && v in m && w !in m && m'.Keys == m.Keys - {v} + {w}
    && forall n :: n in m ==>
         m'[Swap(n, v, w)] == Cell(Other(m[n].left, v, w), Other(m[n].right, v, w), Other(m[n].parent, v, w), m[n].red, m[n].rank)
  }

  /** What hev_rbtree_replace writes. */
  ghost predicate PutInPlace(m: Links, m': Links, v: RBNode, w: RBNode) {
    && v in m && w !in m && m'.Keys == m.Keys - {v} + {w} && m'[w] == m[v]
    && forall n :: n in m && n != v ==>
         m'[n] == Cell(if n == m[v].parent && m[n].left == v then w else m[n].left,
                       if n == m[v].parent && m[n].left != v then w else m[n].right,
                       if n == m[v].left || n == m[v].right then w else m[n].parent, m[n].red, m[n].rank)
  }

  lemma {:induction false} MutualAt(m: Links, n: RBNode)
    requires Mutual(m) && n in m
    ensures m[n].left != null ==> m[n].left in m && m[n].left != n
    ensures m[n].right != null ==> m[n].right in m && m[n].right != n
    ensures m[n].parent != null ==> m[n].parent in m && m[n].parent != n
  {
  }

  /** These writes are enough: nobody else refers to `v`. */
  lemma {:induction false} PutIsReplaced(m: Links, m': Links, v: RBNode, w: RBNode)
    requires Mutual(m) && PutInPlace(m, m', v, w)
    ensures Replaced(m, m', v, w)
  {
    forall n | n in m
      ensures m'[Swap(n, v, w)] == Cell(Other(m[n].left, v, w), Other(m[n].right, v, w), Other(m[n].parent, v, w), m[n].red, m[n].rank)
    {
      PutIsReplacedAt(m, m', v, w, n);
    }
  }

  lemma {:induction false} PutIsReplacedAt(m: Links, m': Links, v: RBNode, w: RBNode, n: RBNode)
    requires Mutual(m) && PutInPlace(m, m', v, w) && n in m
    ensures m'[Swap(n, v, w)] == Cell(Other(m[n].left, v, w), Other(m[n].right, v, w), Other(m[n].parent, v, w), m[n].red, m[n].rank)
  {
    MutualAt(m, n);
    MutualAt(m, v);
  }

  lemma {:induction false} ReplaceRep(m: Links, m': Links, t: Shape, q: RBNode?, lo: real, hi: real, v: RBNode, w: RBNode)
    requires Replaced(m, m', v, w) && Rep(m, t, q, lo, hi)
    ensures Rep(m', Exchanged(t, v, w), Other(q, v, w), lo, hi)
  {
    if t.Node? {
      ReplaceRep(m, m', t.left, t.node, lo, m[t.node].rank, v, w);
      ReplaceRep(m, m', t.right, t.node, m[t.node].rank, hi, v, w);
    }
  }

  /** The tree with `w` in the place of `v`. */
  lemma {:induction false} ReplaceWhole(m: Links, m': Links, root: RBNode?, shape: Shape, v: RBNode, w: RBNode)
    returns (k: nat)
    requires Replaced(m, m', v, w) && Focus(m, root, Top, shape) && RedBlack(shape)
    requires m.Keys == Elements(InOrder(shape))
    ensures Focus(m', Other(root, v, w), Top, Exchanged(shape, v, w)) && RedBlack(Exchanged(shape, v, w))
    ensures var s := InOrder(shape);
      k < |s| && s[k] == v && InOrder(Exchanged(shape, v, w)) == s[k := w] && Elements(s[k := w]) == m'.Keys
  {
    ReplaceRep(m, m', shape, null, 0.0, 1.0, v, w);
    ExchangeBalanced(shape, BlackHeight(shape), v, w);
    ExchangeHeight(shape, v, w);
    ExchangeInOrder(shape, v, w);
    var s := InOrder(shape);
    k := IndexIn(s, v);
    RepAscending(m, shape, null, 0.0, 1.0);
    ReplacedElements(s, k, v, w);
  }

  lemma {:induction false} RootHasNoParent(m: Links, root: RBNode?, shape: Shape, v: RBNode, w: RBNode)
    requires Focus(m, root, Top, shape) && v in m && w !in m && m.Keys == Elements(InOrder(shape))
    ensures Other(root, v, w) == if m[v].parent == null then w else root
  {
    var c, t := Locate(Top, shape, v);
    FocusFill(m, root, c, t);
    if root != null {
      assert root in m;
    }
  }

  lemma {:induction false} ExchangeHeight(t: Shape, a: RBNode, b: RBNode)
    ensures BlackHeight(Exchanged(t, a, b)) == BlackHeight(t) && IsRed(Exchanged(t, a, b)) == IsRed(t)
  {
    if t.Node? {
      ExchangeHeight(t.left, a, b);
    }
  }

  lemma {:induction false} ReplacedElements(s: seq<RBNode>, k: nat, v: RBNode, w: RBNode)
    requires k < |s| && s[k] == v && w !in s && forall i, j :: 0 <= i < j < |s| ==> s[i] != s[j]
    ensures SwapAll(s, v, w) == s[k := w] && Elements(s[k := w]) == Elements(s) - {v} + {w}
  {
    var r := s[k := w];
    assert forall i :: 0 <= i < |s| && i != k ==> r[i] == s[i];
    assert r[k] == w;
  }

  lemma {:induction false} BeforeReplace(m: Links, root: RBNode?, shape: Shape, v: RBNode)
    requires Focus(m, root, Top, shape) && v in m && m.Keys == Elements(InOrder(shape))
    ensures m[v].left != null ==> m[v].left in m && m[v].left != v
    ensures m[v].right != null ==> m[v].right in m && m[v].right != v
    ensures m[v].parent != null ==> m[v].parent in m && m[v].parent != v
  {
    MutualLinks(m, root, shape);
    MutualAt(m, v);
  }

  lemma {:induction false} AfterReplace(m: Links, m': Links, root: RBNode?, root': RBNode?, shape: Shape, v: RBNode, w: RBNode)
    returns (k: nat)
    requires Focus(m, root, Top, shape) && RedBlack(shape) && m.Keys == Elements(InOrder(shape))
    requires PutInPlace(m, m', v, w) && root' == if m[v].parent == null then w else root
    ensures Focus(m', root', Top, Exchanged(shape, v, w)) && RedBlack(Exchanged(shape, v, w))
    ensures var s := InOrder(shape);
      k < |s| && s[k] == v && InOrder(Exchanged(shape, v, w)) == s[k := w] && Elements(s[k := w]) == m'.Keys
  {
    hide Focus, RedBlack, InOrder, Mutual, Replaced, Exchanged, Elements;
    MutualLinks(m, root, shape);
    RootHasNoParent(m, root, shape, v, w);
    PutIsReplaced(m, m', v, w);
    k := ReplaceWhole(m, m', root, shape, v, w);
  }
}
