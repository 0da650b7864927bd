/** The user table of hev-socks5-authenticator.c: a finite map from names to
    users, kept in a red-black tree by falling length and then bytes. */
module Authenticator {
  import opened CStrings
  import opened Sequences
  import opened Ordered
  import opened RBShape
  import RBTree

  /** HevSocks5User.  A name may contain any bytes. */
  class User {
    const name: seq<byte>
    const pass: seq<byte>
    var node: RBNode?
    var refs: int

    constructor (name: seq<byte>, pass: seq<byte>)
      ensures this.name == name && this.pass == pass && refs == 1
      ensures node != null && node.owner == this && fresh(node)
    {
      this.name, this.pass, refs, node := name, pass, 1, null;
      new;
      node := new RBNode(this);
    }

    /** hev_object_unref */
    method Unref()
      modifies this`refs
      ensures refs == old(refs) - 1
    {
      refs := refs - 1;
    }
  }

  /** The order of the table: by length first, and then as memcmp has it. */
  function UserCmp(a: seq<byte>, b: seq<byte>): int {
    if |a| < |b| then -1 else if |a| > |b| then 1 else StrCmp(a, b)
  }

  lemma {:induction false} UserCmpIsOrder()
    ensures IsOrder(UserCmp)
  {
    forall a, b
      ensures UserCmp(a, b) == 0 <==> a == b
      ensures UserCmp(a, b) < 0 <==> UserCmp(b, a) > 0
    {
      StrCmpZero(a, b);
      StrCmpFlip(a, b);
    }
    forall a, b, c | UserCmp(a, b) > 0 && UserCmp(b, c) > 0
      ensures UserCmp(a, c) > 0
    {
      if |a| == |b| == |c| {
        StrCmpTransitive(a, b, c);
      }
    }
  }

  ghost function NamesOf(users: seq<User>): seq<seq<byte>> {
    seq(|users|, i requires 0 <= i < |users| => users[i].name)
  }

  /** Names in order are those of different users. */
  lemma {:induction false} FallingUsers(users: seq<User>)
    requires Falling(NamesOf(users), UserCmp)
    ensures NoDuplicates(users)
  {
    UserCmpIsOrder();
    FallingDistinct(NamesOf(users), UserCmp);
    forall i, j | 0 <= i < j < |users|
      ensures users[i] != users[j]
    {
      assert NamesOf(users)[i] != NamesOf(users)[j];
    }
  }

  lemma {:induction false} InsertedNames(users: seq<User>, k: nat, u: User)
    requires k <= |users|
    ensures NamesOf(Inserted(users, k, u)) == Inserted(NamesOf(users), k, u.name)
  {
    var r, names := Inserted(users, k, u), NamesOf(users);
    var a, b := NamesOf(r), Inserted(names, k, u.name);
    forall i | 0 <= i < |r|
      ensures a[i] == b[i]
    {
      assert r[i] == if i < k then users[i] else if i == k then u else users[i - 1];
      assert b[i] == if i < k then names[i] else if i == k then u.name else names[i - 1];
    }
  }

  lemma {:induction false} RemovedNames(users: seq<User>, k: nat)
    requires k < |users|
    ensures NamesOf(Removed(users, k)) == Removed(NamesOf(users), k)
  {
    var a, b := NamesOf(Removed(users, k)), Removed(NamesOf(users), k);
    assert forall i :: 0 <= i < |users| - 1 ==> a[i] == users[if i < k then i else i + 1].name == b[i];
  }

  /** The users `us` as a map from their names. */
  ghost predicate Maps(us: set<User>, m: map<seq<byte>, User>) {
    && (forall u :: u in us ==> u.name in m && m[u.name] == u)
    && (forall name :: name in m ==> m[name] in us && m[name].name == name)
  }

  lemma {:induction false} MapsMore(us: set<User>, m: map<seq<byte>, User>, u: User)
    requires Maps(us, m) && u.name !in m
    ensures Maps(us + {u}, m[u.name := u])
  {
  }

  lemma {:induction false} MapsLess(us: set<User>, m: map<seq<byte>, User>, u: User)
    requires Maps(us, m) && u in us
    ensures u.name in m && Maps(us - {u}, m - {u.name})
  {
  }

  ghost predicate Embedded(nodes: seq<RBNode>, users: seq<User>)
    reads users`node
  {
    |nodes| == |users| && forall i :: 0 <= i < |users| ==> users[i].node == nodes[i] && nodes[i].owner == users[i]
  }

  lemma {:induction false} EmbeddedInserted(nodes: seq<RBNode>, users: seq<User>, k: nat, u: User)
    requires Embedded(nodes, users) && k <= |users| && u.node != null && u.node.owner == u
    ensures Embedded(Inserted(nodes, k, u.node), Inserted(users, k, u))
    ensures Elements(Inserted(users, k, u)) == Elements(users) + {u}
  {
    var n', s' := Inserted(nodes, k, u.node), Inserted(users, k, u);
    forall i | 0 <= i < |s'|
      ensures s'[i].node == n'[i] && n'[i].owner == s'[i]
    {
      assert s'[i] == if i < k then users[i] else if i == k then u else users[i - 1];
      assert n'[i] == if i < k then nodes[i] else if i == k then u.node else nodes[i - 1];
    }
    InsertedElements(users, k, u);
  }

  lemma {:induction false} EmbeddedRemoved(nodes: seq<RBNode>, users: seq<User>, k: nat, u: User)
    requires Embedded(nodes, users) && k < |nodes| && nodes[k] == u.node && u in users
    ensures k < |users| && users[k] == u && Embedded(Removed(nodes, k), Removed(users, k))
  {
    var n', s' := Removed(nodes, k), Removed(users, k);
    forall i | 0 <= i < |s'|
      ensures s'[i].node == n'[i] && n'[i].owner == s'[i]
    {
      assert s'[i] == (if i < k then users[i] else users[i + 1]) && n'[i] == (if i < k then nodes[i] else nodes[i + 1]);
    }
  }

  class Authenticator {
    const tree: RBTree.RBTree
    ghost var users: seq<User>              // in the order of the tree
    ghost var table: map<seq<byte>, User>   // what they stand for

    constructor ()
      ensures Valid() && table == map[]
    {
      tree := new RBTree.RBTree();
      users, table := [], map[];
    }

    ghost predicate Valid()
      reads this, tree, tree.rank.Keys, users`node
    {
      TreeAgrees() && Maps(Elements(users), table)
    }

    /** The tree has the users in the order `users`. */
    ghost predicate TreeAgrees()
      reads this`users, tree, tree.rank.Keys, users`node
    {
      tree.Valid() && Embedded(tree.contents, users) && Falling(NamesOf(users), UserCmp)
    }

    ghost predicate Searching(c: Path, t: Shape, lo: nat, hi: nat, name: seq<byte>)
      reads this`users, tree`shape
    {
      Spans(tree.shape, c, t, lo, hi) && Between(NamesOf(users), lo, hi, name, UserCmp)
    }

    lemma {:induction false} SearchStart(name: seq<byte>)
      requires Valid()
      ensures tree.root == Root(tree.shape) && Searching(Top, tree.shape, 0, |users|, name)
    {
      SpansAll(tree.shape);
    }

    /** One comparison of a search. */
    lemma {:induction false} SearchCompare(c: Path, t: Shape, lo: nat, hi: nat, name: seq<byte>) returns (j: nat)
      requires Valid() && Searching(c, t, lo, hi, name) && t.Node?
      ensures t.node.left == Root(t.left) && t.node.right == Root(t.right)
      ensures j < |users| && t.node.owner == users[j]
      ensures var res := UserCmp(users[j].name, name);
              && (res < 0 ==> Searching(InLeft(c, t.node, t.red, t.right), t.left, lo, j, name))
              && (res > 0 ==> Searching(InRight(c, t.node, t.red, t.left), t.right, j + 1, hi, name))
              && (res == 0 ==> users[j].name == name && name in table && table[name] == users[j])
    {
      j := tree.SearchStep(c, t, lo, hi);
      UserCmpIsOrder();
      Narrow(NamesOf(users), lo, j, hi, name, UserCmp);
      assert users[j] in Elements(users);
    }

    /** The search that ends at a null link. */
    lemma {:induction false} NotFound(c: Path, lo: nat, hi: nat, name: seq<byte>)
      requires Valid() && Searching(c, Leaf, lo, hi, name)
      ensures name !in table && lo == hi
    {
      if name in table {
        var i := IndexIn(users, table[name]);
        assert NamesOf(users)[i] == name;
        UserCmpIsOrder();
        NotThere(NamesOf(users), lo, name, UserCmp);
      }
    }

    /** The three-way comparison of a user with a name. */
    method Compare(user: User, name: seq<byte>) returns (res: int)
      ensures res == UserCmp(user.name, name)
    {
      if |user.name| < |name| {
        res := -1;
      } else if |user.name| > |name| {
        res := 1;
      } else {
        res := StrCmp(user.name, name);
      }
    }

    /** hev_socks5_authenticator_get */
    method Get(name: seq<byte>) returns (user: User?)
      requires Valid()
      ensures user == if name in table then table[name] else null
    {
      hide Valid, Searching, UserCmp;
      var node := tree.root;
      ghost var c, t := Top, tree.shape;
      ghost var lo: nat, hi: nat := 0, |users|;
      SearchStart(name);
      while node != null
        invariant Searching(c, t, lo, hi, name) && node == Root(t)
        decreases t
      {
        ghost var j := SearchCompare(c, t, lo, hi, name);
        var this_ := node.owner as User;
        var res := Compare(this_, name);
        if res < 0 {
          c, t, hi := InLeft(c, t.node, t.red, t.right), t.left, j;
          node := node.left;
        } else if res > 0 {
          c, t, lo := InRight(c, t.node, t.red, t.left), t.right, j + 1;
          node := node.right;
        } else {
          return this_;
        }
      }
      NotFound(c, lo, hi, name);
      user := null;
    }

    /** The search of hev_socks5_authenticator_add for the null link of a name. */
    method Place(name: seq<byte>)
      returns (found: bool, parent: RBNode?, onLeft: bool, ghost c: Path, ghost lo: nat)
      requires Valid()
      ensures found <==> name in table
      ensures !found ==> Searching(c, Leaf, lo, lo, name)
      ensures !found ==> parent == Above(c) && (parent != null ==> onLeft == c.InLeft?)
    {
      hide Valid, Searching, UserCmp;
      var new_ := tree.root;
      parent, onLeft, found := null, false, false;
      c, lo := Top, 0;
      ghost var t := tree.shape;
      ghost var hi: nat := |users|;
      SearchStart(name);
      while new_ != null
        invariant Searching(c, t, lo, hi, name) && new_ == Root(t)
        invariant parent == Above(c) && (parent != null ==> onLeft == c.InLeft?)
        decreases t
      {
        ghost var j := SearchCompare(c, t, lo, hi, name);
        var this_ := new_.owner as User;
        var res := Compare(this_, name);
        parent := new_;
        if res < 0 {
          c, t, hi := InLeft(c, t.node, t.red, t.right), t.left, j;
          new_, onLeft := new_.left, true;
        } else if res > 0 {
          c, t, lo := InRight(c, t.node, t.red, t.left), t.right, j + 1;
          new_, onLeft := new_.right, false;
        } else {
          found := true;
          return;
        }
      }
      NotFound(c, lo, hi, name);
    }

    /** hev_rbtree_node_link and hev_rbtree_insert_color of a new user. */
    method InsertUser(user: User, parent: RBNode?, onLeft: bool, ghost c: Path, ghost lo: nat)
      requires TreeAgrees() && Searching(c, Leaf, lo, lo, user.name)
      requires parent == Above(c) && (parent != null ==> onLeft == c.InLeft?)
      requires user.node != null && user.node.owner == user && user.node !in tree.rank
      modifies this`users, tree, tree.rank.Keys, user.node
      ensures TreeAgrees() && Elements(users) == Elements(old(users)) + {user}
      ensures tree.rank.Keys == old(tree.rank.Keys) + {user.node}
    {
      hide RBTree.RBTree.Valid, UserCmp;
      assert Fill(c, Leaf) == tree.shape && lo == |Before(c)|;
      ghost var nodes := tree.contents;
      ghost var k := tree.Insert(user.node, parent, onLeft, c);
      EmbeddedInserted(nodes, users, lo, user);
      UserCmpIsOrder();
      FallingInserted(NamesOf(users), lo, user.name, UserCmp);
      InsertedNames(users, lo, user);
      users := Inserted(users, lo, user);
    }

    method LinkUser(user: User, parent: RBNode?, onLeft: bool, ghost c: Path, ghost lo: nat)
      requires Valid() && Searching(c, Leaf, lo, lo, user.name) && user.name !in table
      requires parent == Above(c) && (parent != null ==> onLeft == c.InLeft?)
      requires user.node != null && user.node.owner == user && user.node !in tree.rank
      modifies this, tree, tree.rank.Keys, user.node
      ensures Valid() && table == old(table)[user.name := user]
      ensures tree.rank.Keys == old(tree.rank.Keys) + {user.node}
    {
      hide TreeAgrees, Maps, Searching;
      MapsMore(Elements(users), table, user);
      InsertUser(user, parent, onLeft, c, lo);
      table := table[user.name := user];
    }

    /** hev_socks5_authenticator_add: it fails just when there is a user of that name. */
    method Add(user: User) returns (res: int)
      requires Valid() && user.node != null && user.node.owner == user && user.node !in tree.rank
      modifies this, tree, tree.rank.Keys, user.node
      ensures Valid() && res == (if user.name in old(table) then -1 else 0)
      ensures table == if res == 0 then old(table)[user.name := user] else old(table)
    {
      hide Valid, Searching;
      var found, parent, onLeft;
      ghost var c, lo;
      found, parent, onLeft, c, lo := Place(user.name);
      if found {
        return -1;
      }
      LinkUser(user, parent, onLeft, c, lo);
      res := 0;
    }

    lemma {:induction false} UserInTree(user: User)
      requires Valid() && user in table.Values
      ensures user in users && user in Elements(users)
      ensures user.node != null && user.node in tree.rank && user.name in table && table[user.name] == user
    {
      var name :| name in table && table[name] == user;
      var i := IndexIn(users, user);
      assert tree.contents[i] == user.node;
    }

    /** hev_rbtree_erase of a user. */
    method EraseUser(user: User)
      requires TreeAgrees() && user in users && user.node != null && user.node in tree.rank
      modifies this`users, tree, tree.rank.Keys
      ensures TreeAgrees() && Elements(users) == Elements(old(users)) - {user}
      ensures tree.rank.Keys == old(tree.rank.Keys) - {user.node}
    {
      hide RBTree.RBTree.Valid, UserCmp;
      ghost var nodes := tree.contents;
      ghost var k := tree.Erase(user.node);
      EmbeddedRemoved(nodes, users, k, user);
      FallingUsers(users);
      RemovedSet(users, k);
      FallingRemoved(NamesOf(users), k, UserCmp);
      RemovedNames(users, k);
      users := Removed(users, k);
    }

    method UnlinkUser(user: User)
      requires Valid() && user in table.Values
      modifies this, tree, tree.rank.Keys
      ensures Valid() && user.name in old(table) && table == old(table) - {user.name}
      ensures user.node != null && tree.rank.Keys == old(tree.rank.Keys) - {user.node}
    {
      hide TreeAgrees, Maps, Falling, Elements;
      UserInTree(user);
      MapsLess(Elements(users), table, user);
      EraseUser(user);
      table := table - {user.name};
    }

    /** hev_socks5_authenticator_del: the user of that name goes, and is released once. */
    method Del(name: seq<byte>) returns (res: int)
      requires Valid()
      modifies this, tree, tree.rank.Keys, table.Values
      ensures Valid() && res == (if name in old(table) then 0 else -1) && table == old(table) - {name}
      ensures forall u :: u in old(table.Values) ==> u.refs == old(u.refs) - if u.name == name then 1 else 0
    {
      hide Valid;
      NameOf(name);
      var user := Get(name);
      if user == null {
        return -1;
      }
      UnlinkUser(user);
      user.Unref();
      res := 0;
    }

    lemma {:induction false} NameOf(name: seq<byte>)
      requires Valid()
      ensures forall u :: u in table.Values && u.name == name ==> name in table && u == table[name]
      ensures name in table ==> table[name].name == name
    {
    }

    /** hev_socks5_authenticator_clear: everything goes, and each user is released once. */
    method Clear()
      requires Valid()
      modifies this, tree, tree.rank.Keys, table.Values
      ensures Valid() && table == map[]
      ensures forall u :: u in old(table.Values) ==> u.refs == old(u.refs) - 1
    {
      hide Valid, RBTree.RBTree.Whole;
      FirstUser();
      var n := tree.First();
      while n != null
        invariant Valid() && tree.Whole() && n == (if tree.contents == [] then null else tree.contents[0])
        invariant table.Values <= old(table.Values) && tree.rank.Keys <= old(tree.rank.Keys)
        invariant forall u :: u in old(table.Values) ==> u.refs == old(u.refs) - if u in table.Values then 0 else 1
        decreases |table|
      {
        FirstUser();
        n := ClearOne(n);
      }
      FirstUser();
    }

    /** One turn of the loop. */
    method ClearOne(n: RBNode) returns (next: RBNode?)
      requires Valid() && n.owner is User && n.owner as User in table.Values
      modifies this, tree, tree.rank.Keys, table.Values
      ensures Valid() && tree.Whole() && next == (if tree.contents == [] then null else tree.contents[0])
      ensures var t := n.owner as User; table.Values == old(table.Values) - {t} && |table| < |old(table)|
      ensures tree.rank.Keys <= old(tree.rank.Keys)
      ensures forall u :: u in old(table.Values) ==> u.refs == old(u.refs) - if u == n.owner as User then 1 else 0
    {
      hide Valid, RBTree.RBTree.Whole;
      var t := n.owner as User;
      Release(t);
      FirstUser();
      next := tree.First();
    }

    /** A user goes, and is released. */
    method Release(t: User)
      requires Valid() && t in table.Values
      modifies this, tree, tree.rank.Keys, t`refs
      ensures Valid() && table.Values == old(table.Values) - {t} && |table| < |old(table)|
      ensures tree.rank.Keys <= old(tree.rank.Keys) && t.refs == old(t.refs) - 1
    {
      hide *;
      OthersStay(t);
      UnlinkUser(t);
      t.Unref();
    }

    lemma {:induction false} OthersStay(t: User)
      requires Valid() && t in table.Values
      ensures t.name in table && (table - {t.name}).Values == table.Values - {t} && |table - {t.name}| < |table|
    {
      hide TreeAgrees;
      var name :| name in table && table[name] == t;
      var m := table - {t.name};
      assert table.Keys == m.Keys + {t.name};
      forall u
        ensures u in m.Values <==> u in table.Values - {t}
      {
        if u in table.Values && u != t {
          var x :| x in table && table[x] == u;
          assert x in m && m[x] == u;
        }
      }
    }

    /** The first node of the tree is that of a user, as long as there is one. */
    lemma {:induction false} FirstUser()
      requires Valid()
      ensures tree.Whole() && (tree.contents == [] <==> table == map[])
      ensures tree.contents != [] ==> tree.contents[0].owner is User && tree.contents[0].owner as User in table.Values
    {
      if users != [] {
        assert users[0] in Elements(users);
        assert table[users[0].name] == users[0];
      }
    }
  }
}
