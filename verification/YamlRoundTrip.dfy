/** Dumping a graph and loading the events gives the graph back, with the nodes
    numbered in the order in which the dumper has entered them. */
module YamlRoundTrip {
  import opened CStrings
  import opened Options
  import opened YamlEvents
  import opened YamlLoader
  import opened YamlDumper

  /** The new number of the node `k`. */
  ghost function Place(seen: seq<nat>, k: nat): (r: nat)
    requires k in seen
    ensures 1 <= r <= |seen| && seen[r - 1] == k
  {
    if seen[0] == k then 1 else 1 + Place(seen[1..], k)
  }

  ghost predicate Covers(seen: seq<nat>, ks: seq<nat>) {
    forall k :: k in ks ==> k in seen
  }

  ghost function Places(seen: seq<nat>, ks: seq<nat>): (r: seq<nat>)
    requires Covers(seen, ks)
    ensures |r| == |ks|
  {
    if ks == [] then [] else [Place(seen, ks[0])] + Places(seen, ks[1..])
  }

  ghost function PlacePairs(seen: seq<nat>, pairs: seq<Pair>): seq<Pair>
    requires Covers(seen, Flat(pairs))
  {
    if pairs == [] then []
    else
      assert Flat(pairs) == [pairs[0].key, pairs[0].value] + Flat(pairs[1..]);
      [Pair(Place(seen, pairs[0].key), Place(seen, pairs[0].value))] + PlacePairs(seen, pairs[1..])
  }

  /** A node as it comes back: the same value and style, the same children under
      their new numbers, and the tag, where "!" has become the default. */
  ghost function Renamed(node: Node, seen: seq<nat>): Node
    requires Covers(seen, Children(node))
  {
    match node
    case ScalarNode(tag, value, style) => ScalarNode(TagOr(Some(tag), SCALAR_TAG), value, style)
    case SequenceNode(tag, items, style) => SequenceNode(TagOr(Some(tag), SEQUENCE_TAG), Places(seen, items), style)
    case MappingNode(tag, pairs, style) => MappingNode(TagOr(Some(tag), MAPPING_TAG), PlacePairs(seen, pairs), style)
  }

  lemma {:induction false} PlaceGrow(seen: seq<nat>, more: seq<nat>, k: nat)
    requires k in seen
    ensures Place(seen + more, k) == Place(seen, k)
  {
    if seen[0] != k {
      assert (seen + more)[1..] == seen[1..] + more;
      PlaceGrow(seen[1..], more, k);
    }
  }

  lemma {:induction false} PlaceNew(seen: seq<nat>, k: nat)
    requires k !in seen
    ensures Place(seen + [k], k) == |seen| + 1
  {
    if seen != [] {
      assert (seen + [k])[1..] == seen[1..] + [k];
      PlaceNew(seen[1..], k);
    }
  }

  lemma {:induction false} PlacesGrow(seen: seq<nat>, more: seq<nat>, ks: seq<nat>)
    requires Covers(seen, ks)
    ensures Covers(seen + more, ks) && Places(seen + more, ks) == Places(seen, ks)
  {
    if ks != [] {
      PlaceGrow(seen, more, ks[0]);
      PlacesGrow(seen, more, ks[1..]);
    }
  }

  lemma {:induction false} PlacePairsGrow(seen: seq<nat>, more: seq<nat>, pairs: seq<Pair>)
    requires Covers(seen, Flat(pairs))
    ensures Covers(seen + more, Flat(pairs)) && PlacePairs(seen + more, pairs) == PlacePairs(seen, pairs)
  {
    if pairs != [] {
      assert Flat(pairs) == [pairs[0].key, pairs[0].value] + Flat(pairs[1..]);
      PlaceGrow(seen, more, pairs[0].key);
      PlaceGrow(seen, more, pairs[0].value);
      PlacePairsGrow(seen, more, pairs[1..]);
    }
  }

  /** Entering more nodes does not change what is known of the others. */
  lemma {:induction false} RenamedGrow(node: Node, seen: seq<nat>, seen': seq<nat>)
    requires Covers(seen, Children(node)) && seen <= seen'
    ensures Covers(seen', Children(node)) && Renamed(node, seen') == Renamed(node, seen)
  {
    var more := seen'[|seen|..];
    assert seen' == seen + more;
    if node.SequenceNode? {
      PlacesGrow(seen, more, node.items);
    } else if node.MappingNode? {
      PlacePairsGrow(seen, more, node.pairs);
    }
  }

  /** Several children, one after the other. */
  ghost function AddEach(node: Node, ks: seq<nat>): (r: Node)
    requires !node.ScalarNode?
    ensures !r.ScalarNode? && (r.SequenceNode? <==> node.SequenceNode?)
    decreases |ks|
  {
    if ks == [] then node else AddEach(AddTo(node, ks[0]), ks[1..])
  }

  lemma {:induction false} AddEachItems(tag: CString, items: seq<nat>, style: CollectionStyle, ks: seq<nat>)
    ensures AddEach(SequenceNode(tag, items, style), ks) == SequenceNode(tag, items + ks, style)
    decreases |ks|
  {
    if ks == [] {
      assert items + ks == items;
    } else {
      AddEachItems(tag, items + [ks[0]], style, ks[1..]);
      assert items + [ks[0]] + ks[1..] == items + ks;
    }
  }

  /** The first pair and the others. */
  lemma {:induction false} PlacesPair(seen: seq<nat>, pairs: seq<Pair>) returns (k: nat, v: nat)
    requires Covers(seen, Flat(pairs)) && pairs != []
    ensures k > 0 && v > 0 && Covers(seen, Flat(pairs[1..]))
    ensures Places(seen, Flat(pairs)) == [k] + ([v] + Places(seen, Flat(pairs[1..])))
    ensures PlacePairs(seen, pairs) == [Pair(k, v)] + PlacePairs(seen, pairs[1..])
  {
    var rest := Flat(pairs[1..]);
    var flat := Flat(pairs);
    assert flat == [pairs[0].key, pairs[0].value] + rest;
    assert flat[1..] == [pairs[0].value] + rest && flat[1..][1..] == rest;
    k, v := Place(seen, pairs[0].key), Place(seen, pairs[0].value);
    assert Places(seen, flat) == [k] + Places(seen, flat[1..]) && Places(seen, flat[1..]) == [v] + Places(seen, rest);
  }

  lemma {:induction false} AddEachPairs(tag: CString, done: seq<Pair>, style: CollectionStyle, seen: seq<nat>, pairs: seq<Pair>)
    requires Covers(seen, Flat(pairs)) && Complete(MappingNode(tag, done, style))
    ensures AddEach(MappingNode(tag, done, style), Places(seen, Flat(pairs))) ==
            MappingNode(tag, done + PlacePairs(seen, pairs), style)
    decreases |pairs|
  {
    if pairs == [] {
      assert done + [] == done;
    } else {
      hide *;
      var k, v := PlacesPair(seen, pairs);
      CompletePair(tag, done, style, k, v);
      AddPair(tag, done, style, k, v, Places(seen, Flat(pairs[1..])));
      AddEachPairs(tag, done + [Pair(k, v)], style, seen, pairs[1..]);
      assert done + [Pair(k, v)] + PlacePairs(seen, pairs[1..]) == done + PlacePairs(seen, pairs);
    }
  }

  lemma {:induction false} CompletePair(tag: CString, done: seq<Pair>, style: CollectionStyle, k: nat, v: nat)
    ensures v > 0 ==> Complete(MappingNode(tag, done + [Pair(k, v)], style))
  {
  }

  lemma {:induction false} AddPair(tag: CString, done: seq<Pair>, style: CollectionStyle, k: nat, v: nat, ks: seq<nat>)
    requires Complete(MappingNode(tag, done, style)) && k > 0 && v > 0
    ensures AddEach(MappingNode(tag, done, style), [k] + ([v] + ks)) == AddEach(MappingNode(tag, done + [Pair(k, v)], style), ks)
  {
    var node := MappingNode(tag, done, style);
    var one := MappingNode(tag, done + [Pair(k, 0)], style);
    assert AddTo(node, k) == one;
    assert (done + [Pair(k, 0)])[|done| := Pair(k, v)] == done + [Pair(k, v)];
    assert AddTo(one, v) == MappingNode(tag, done + [Pair(k, v)], style);
    assert ([k] + ([v] + ks))[1..] == [v] + ks && ([v] + ks)[1..] == ks;
    assert AddEach(one, [v] + ks) == AddEach(AddTo(one, v), ks);
  }

  /** The anchors that the loader has registered when the nodes `seen` are there. */
  ghost function AliasesOf(ids: seq<nat>, seen: seq<nat>): seq<AliasData> {
    if seen == [] then []
    else
      var n := |seen| - 1;
      AliasesOf(ids, seen[..n]) + AliasAt(ids, seen[n], n + 1)
  }

  ghost function AliasAt(ids: seq<nat>, i: nat, index: nat): seq<AliasData> {
    if AnchorOf(ids, i).Some? then [AliasData(AnchorOf(ids, i).value, index)] else []
  }

  lemma {:induction false} FindAliasTwo(a: seq<AliasData>, b: seq<AliasData>, name: CString)
    ensures FindAlias(a + b, name) == if FindAlias(a, name).Some? then FindAlias(a, name) else FindAlias(b, name)
  {
    if a == [] {
      assert a + b == b;
    } else {
      assert (a + b)[1..] == a[1..] + b;
      FindAliasTwo(a[1..], b, name);
    }
  }

  ghost predicate Distinct(ids: seq<nat>) {
    forall j, k :: 0 <= j < k < |ids| && ids[j] > 0 ==> ids[j] != ids[k]
  }

  /** Anchors of different nodes have different names. */
  lemma {:induction false} AnchorsDiffer(ids: seq<nat>, i: nat, j: nat)
    requires Distinct(ids) && AnchorOf(ids, i).Some? && AnchorOf(ids, j).Some?
    ensures AnchorOf(ids, i) == AnchorOf(ids, j) <==> i == j
  {
    NamesDiffer(ids[i - 1], ids[j - 1]);
  }

  lemma {:induction false} FindAliasAt(ids: seq<nat>, i: nat, j: nat, index: nat)
    requires Distinct(ids) && AnchorOf(ids, i).Some?
    ensures FindAlias(AliasAt(ids, j, index), AnchorOf(ids, i).value) == if i == j then Some(index) else None
  {
    if AnchorOf(ids, j).Some? {
      AnchorsDiffer(ids, i, j);
      var one := AliasAt(ids, j, index);
      assert one[1..] == [];
    }
  }

  /** The loader finds the anchor of a node if and only if the node is there, and
      then finds that node. */
  lemma {:induction false} FindAliasOf(ids: seq<nat>, seen: seq<nat>, i: nat)
    requires Distinct(ids) && AnchorOf(ids, i).Some?
    requires forall j, k :: 0 <= j < k < |seen| ==> seen[j] != seen[k]
    ensures FindAlias(AliasesOf(ids, seen), AnchorOf(ids, i).value) == if i in seen then Some(Place(seen, i)) else None
  {
    hide AnchorOf, FindAlias, AliasAt, Distinct, Place;
    if seen == [] {
      FindNothing(AnchorOf(ids, i).value);
    } else {
      var n := |seen| - 1;
      FindAliasOf(ids, seen[..n], i);
      FindAliasTwo(AliasesOf(ids, seen[..n]), AliasAt(ids, seen[n], n + 1), AnchorOf(ids, i).value);
      FindAliasAt(ids, i, seen[n], n + 1);
      assert seen == seen[..n] + [seen[n]];
      if i in seen[..n] {
        PlaceGrow(seen[..n], [seen[n]], i);
      } else if i == seen[n] {
        PlaceNew(seen[..n], i);
      }
    }
  }

  lemma {:induction false} FindNothing(name: CString)
    ensures FindAlias([], name) == None
  {
  }

  /** The loader has the nodes `seen` and their anchors. */
  ghost predicate Has(l: Loading, ids: seq<nat>, seen: seq<nat>) {
    |l.nodes| == |seen| && l.aliases == AliasesOf(ids, seen)
  }

  /** A node can be added: it is the root, or there is an open collection. */
  ghost predicate Takes(l: Loading) {
    if l.ctx == [] then l.nodes == [] else Top(l).Some? && !Top(l).value.ScalarNode?
  }

  /** The nodes once the innermost open collection has the children `ks` more. */
  ghost function With(l: Loading, ks: seq<nat>): seq<Node>
    requires Takes(l)
  {
    if l.ctx == [] then l.nodes
    else
      var p := l.ctx[|l.ctx| - 1];
      l.nodes[p - 1 := AddEach(l.nodes[p - 1], ks)]
  }

  /** The nodes from the place `from` on have come back. */
  ghost predicate Back(g: seq<Node>, nodes: seq<Node>, from: nat, seen: seq<nat>) {
    && |nodes| == |seen|
    && forall k :: from <= k < |seen| ==>
         1 <= seen[k] <= |g| && Covers(seen, Children(g[seen[k] - 1])) && nodes[k] == Renamed(g[seen[k] - 1], seen)
  }

  /** What loading the events of a walk does. */
  ghost predicate Loads(g: seq<Node>, ids: seq<nat>, l: Loading, seen: seq<nat>, es: seq<Event>, seen': seq<nat>, ks: seq<nat>)
    requires Takes(l)
  {
    ApplyAll(l, es).Some? &&
    var l' := ApplyAll(l, es).value;
    && |seen| <= |seen'| && Has(l', ids, seen') && l'.ctx == l.ctx
    && l'.nodes[..|seen|] == With(l, ks) && Back(g, l'.nodes, |seen|, seen')
  }

  lemma {:induction false} ApplyJust(l: Loading, e: Event)
    ensures ApplyAll(l, [e]) == Apply(l, e) && ApplyAll(l, []) == Some(l)
  {
    assert [e][..0] == [];
    assert ApplyAll(l, []) == Some(l);
  }

  /** An alias: the node is there already. */
  lemma {:induction false} LoadsAgain(g: seq<Node>, ids: seq<nat>, seen: seq<nat>, i: nat, l: Loading)
    requires Entered(seen, |g|) && i in seen && Distinct(ids) && AnchorOf(ids, i).Some?
    requires Has(l, ids, seen) && Takes(l)
    ensures Loads(g, ids, l, seen, [Alias(AnchorOf(ids, i).value)], seen, [Place(seen, i)])
  {
    hide AnchorOf, AliasesOf;
    var e := Alias(AnchorOf(ids, i).value);
    ApplyJust(l, e);
    FindAliasOf(ids, seen, i);
    var k := Place(seen, i);
    var p := l.ctx[|l.ctx| - 1];
    assert [k][1..] == [];
    assert AddEach(l.nodes[p - 1], [k]) == AddEach(AddTo(l.nodes[p - 1], k), []) == AddTo(l.nodes[p - 1], k);
    assert With(l, [k])[..|seen|] == With(l, [k]);
  }

  /** A node without its children. */
  ghost function Bare(node: Node): (r: Node)
    ensures r.ScalarNode? <==> node.ScalarNode?
    ensures r.SequenceNode? <==> node.SequenceNode?
  {
    match node
    case ScalarNode(tag, value, style) => ScalarNode(TagOr(Some(tag), SCALAR_TAG), value, style)
    case SequenceNode(tag, items, style) => SequenceNode(TagOr(Some(tag), SEQUENCE_TAG), [], style)
    case MappingNode(tag, pairs, style) => MappingNode(TagOr(Some(tag), MAPPING_TAG), [], style)
  }

  lemma {:induction false} BareRenamed(node: Node, seen: seq<nat>)
    requires Covers(seen, Children(node))
    ensures !node.ScalarNode? ==> AddEach(Bare(node), Places(seen, Children(node))) == Renamed(node, seen)
    ensures node.ScalarNode? ==> Bare(node) == Renamed(node, seen)
  {
    if node.SequenceNode? {
      AddEachItems(Bare(node).tag, [], node.style, Places(seen, node.items));
    } else if node.MappingNode? {
      AddEachPairs(Bare(node).tag, [], node.style, seen, node.pairs);
    }
  }

  /** The start of a node. */
  lemma {:induction false} LoadsStart(node: Node, ids: seq<nat>, seen: seq<nat>, i: nat, l: Loading) returns (l': Loading)
    requires i !in seen && Distinct(ids) && Has(l, ids, seen) && Takes(l)
    requires forall j, k :: 0 <= j < k < |seen| ==> seen[j] != seen[k]
    ensures Apply(l, StartOf(node, AnchorOf(ids, i))) == Some(l')
    ensures l'.nodes == With(l, [|seen| + 1]) + [Bare(node)] && l'.aliases == AliasesOf(ids, seen + [i])
    ensures l'.ctx == l.ctx + if node.ScalarNode? then [] else [|seen| + 1]
  {
    hide AnchorOf, FindAlias;
    var anchor := AnchorOf(ids, i);
    var e := StartOf(node, anchor);
    var n := |seen| + 1;
    if anchor.Some? {
      FindAliasOf(ids, seen, i);
    }
    assert (seen + [i])[..|seen|] == seen;
    assert NodeOf(e) == Bare(node);
    var l1 := Loading(l.nodes + [Bare(node)], AliasesOf(ids, seen + [i]), l.ctx);
    assert Apply(l, e) == Enter(l, Bare(node), anchor);
    if l.ctx != [] {
      var p := l.ctx[|l.ctx| - 1];
      assert [n][1..] == [];
      assert AddEach(l.nodes[p - 1], [n]) == AddEach(AddTo(l.nodes[p - 1], n), []) == AddTo(l.nodes[p - 1], n);
      assert (l.nodes + [Bare(node)])[p - 1 := AddTo(l.nodes[p - 1], n)] == l.nodes[p - 1 := AddTo(l.nodes[p - 1], n)] + [Bare(node)];
    }
    var l2 := Add(l1, n).value;
    l' := if node.ScalarNode? then l2 else l2.(ctx := l.ctx + [n]);
  }

  lemma {:induction false} PlaceInto(seen: seq<nat>, i: nat, seen': seq<nat>)
    requires i !in seen && seen + [i] <= seen'
    ensures i in seen' && Place(seen', i) == |seen| + 1
  {
    var more := seen'[|seen| + 1..];
    assert seen' == seen + [i] + more;
    PlaceNew(seen, i);
    PlaceGrow(seen + [i], more, i);
  }

  lemma {:induction false} ApplyEnd(l: Loading, node: Node, ctx: seq<nat>, n: nat)
    requires l.ctx == ctx + [n + 1] && n < |l.nodes| && !node.ScalarNode?
    requires !l.nodes[n].ScalarNode? && (node.SequenceNode? <==> l.nodes[n].SequenceNode?)
    ensures ApplyAll(l, EndEvents(node)) == Some(l.(ctx := ctx))
  {
    ApplyJust(l, EndEvents(node)[0]);
    assert l.ctx[..|l.ctx| - 1] == ctx;
  }

  /** The start of a collection, what is inside of it, and its end. */
  lemma {:induction false} ApplyThree(l: Loading, e: Event, l1: Loading, inside: seq<Event>, l2: Loading, end: seq<Event>)
    requires Apply(l, e) == Some(l1) && ApplyAll(l1, inside) == Some(l2)
    ensures ApplyAll(l, [e] + inside + end) == ApplyAll(l2, end)
  {
    ApplyJust(l, e);
    hide *;
    ApplyTwo(l, [e], inside);
    ApplyTwo(l, [e] + inside, end);
  }

  lemma {:induction false} LastNode(a: seq<Node>, x: Node, y: Node, b: seq<Node>)
    requires |b| > |a| && b[..|a| + 1] == (a + [x])[|a| := y]
    ensures b[..|a|] == a && b[|a|] == y
  {
    assert b[..|a| + 1][..|a|] == b[..|a|] && b[..|a| + 1][|a|] == b[|a|];
    assert (a + [x])[|a| := y][..|a|] == a;
  }

  lemma {:induction false} BackFrom(g: seq<Node>, nodes: seq<Node>, n: nat, i: nat, seen': seq<nat>)
    requires Back(g, nodes, n + 1, seen') && n < |seen'| && seen'[n] == i && 1 <= i <= |g|
    requires Covers(seen', Children(g[i - 1])) && nodes[n] == Renamed(g[i - 1], seen')
    ensures Back(g, nodes, n, seen')
  {
  }

  /** A collection and its children have been loaded; then it ends. */
  lemma {:induction false} LoadsCollection(g: seq<Node>, ids: seq<nat>, seen: seq<nat>, i: nat, l: Loading, l1: Loading,
                        e: Event, inside: seq<Event>, seen': seq<nat>)
    requires 1 <= i <= |g| && Takes(l) && Takes(l1) && Has(l, ids, seen) && seen + [i] <= seen'
    requires !g[i - 1].ScalarNode? && Apply(l, e) == Some(l1) && Covers(seen', Children(g[i - 1]))
    requires l1.nodes == With(l, [|seen| + 1]) + [Bare(g[i - 1])] && l1.ctx == l.ctx + [|seen| + 1]
    requires Loads(g, ids, l1, seen + [i], inside, seen', Places(seen', Children(g[i - 1])))
    ensures Loads(g, ids, l, seen, [e] + inside + EndEvents(g[i - 1]), seen', [|seen| + 1])
  {
    var node, n := g[i - 1], |seen|;
    var ks := Places(seen', Children(node));
    var l2 := ApplyAll(l1, inside).value;
    BareRenamed(node, seen');
    assert |With(l, [n + 1])| == n && l1.nodes[n] == Bare(node);
    assert With(l1, ks) == l1.nodes[n := AddEach(Bare(node), ks)];
    hide Renamed, Places, Children, AliasesOf, Bare, ApplyAll, Apply, AddEach, With, Back, EndEvents, Covers;
    LastNode(With(l, [n + 1]), Bare(node), AddEach(Bare(node), ks), l2.nodes);
    ApplyThree(l, e, l1, inside, l2, EndEvents(node));
    ApplyEnd(l2, node, l.ctx, n);
    assert seen'[n] == (seen + [i])[n] == i;
    BackFrom(g, l2.nodes, n, i, seen');
  }

  lemma {:induction false} LoadsScalar(g: seq<Node>, ids: seq<nat>, seen: seq<nat>, i: nat, l: Loading, l1: Loading, e: Event)
    requires 1 <= i <= |g| && Takes(l) && Has(l, ids, seen) && g[i - 1].ScalarNode? && Apply(l, e) == Some(l1)
    requires l1.nodes == With(l, [|seen| + 1]) + [Bare(g[i - 1])] && l1.ctx == l.ctx && l1.aliases == AliasesOf(ids, seen + [i])
    ensures Loads(g, ids, l, seen, [e], seen + [i], [|seen| + 1])
  {
    hide AliasesOf, Apply, ApplyAll, AddEach;
    ApplyJust(l, e);
    BareRenamed(g[i - 1], seen + [i]);
    assert l1.nodes[..|seen|] == With(l, [|seen| + 1]);
  }

  /** An open collection still takes children after one has been loaded. */
  lemma {:induction false} StillTakes(g: seq<Node>, ids: seq<nat>, l: Loading, seen: seq<nat>, es: seq<Event>, seen': seq<nat>, ks: seq<nat>)
    requires Takes(l) && l.ctx != [] && Has(l, ids, seen) && Loads(g, ids, l, seen, es, seen', ks)
    ensures Takes(ApplyAll(l, es).value)
    ensures var p := l.ctx[|l.ctx| - 1];
            ApplyAll(l, es).value.nodes[p - 1] == AddEach(l.nodes[p - 1], ks)
  {
    hide AliasesOf, Apply, ApplyAll, Back;
    var l' := ApplyAll(l, es).value;
    var p := l.ctx[|l.ctx| - 1];
    assert l'.nodes[p - 1] == l'.nodes[..|seen|][p - 1];
  }

  lemma {:induction false} BackTwo(g: seq<Node>, nodes: seq<Node>, nodes': seq<Node>, from: nat, seen: seq<nat>, seen': seq<nat>)
    requires from <= |seen| && seen <= seen' && Back(g, nodes, from, seen) && Back(g, nodes', |seen|, seen')
    requires forall k :: from <= k < |seen| ==> nodes'[k] == nodes[k]
    ensures Back(g, nodes', from, seen')
  {
    forall k | from <= k < |seen'|
      ensures 1 <= seen'[k] <= |g| && Covers(seen', Children(g[seen'[k] - 1])) && nodes'[k] == Renamed(g[seen'[k] - 1], seen')
    {
      if k < |seen| {
        assert seen'[k] == seen[k];
        RenamedGrow(g[seen[k] - 1], seen, seen');
      }
    }
  }

  lemma {:induction false} AddEachMore(node: Node, k: nat, ks: seq<nat>)
    requires !node.ScalarNode?
    ensures AddEach(AddEach(node, [k]), ks) == AddEach(node, [k] + ks)
  {
    assert [k][1..] == [] && ([k] + ks)[1..] == ks;
    assert AddEach(node, [k]) == AddEach(AddTo(node, k), []);
  }

  /** The nodes after one child, and then the others. */
  lemma {:induction false} NodesMore(a: seq<Node>, b: seq<Node>, c: seq<Node>, p: nat, k: nat, ks: seq<nat>, n: nat)
    requires p < |a| == n <= |b| <= |c| && !a[p].ScalarNode? && !b[p].ScalarNode?
    requires b[..n] == a[p := AddEach(a[p], [k])] && c[..|b|] == b[p := AddEach(b[p], ks)]
    ensures c[..n] == a[p := AddEach(a[p], [k] + ks)]
    ensures forall j :: n <= j < |b| ==> c[j] == b[j]
  {
    AddEachMore(a[p], k, ks);
    hide AddEach;
    assert forall j :: 0 <= j < |b| ==> c[j] == c[..|b|][j];
    assert forall j :: 0 <= j < n ==> b[j] == b[..n][j];
  }

  /** One child, and then the others. */
  lemma {:induction false} LoadsMore(g: seq<Node>, ids: seq<nat>, l: Loading, seen: seq<nat>, es: seq<Event>, seen1: seq<nat>, k: nat,
                  es2: seq<Event>, seen2: seq<nat>, ks: seq<nat>)
    requires Takes(l) && l.ctx != [] && Has(l, ids, seen) && Loads(g, ids, l, seen, es, seen1, [k]) && seen1 <= seen2
    requires Takes(ApplyAll(l, es).value) && Loads(g, ids, ApplyAll(l, es).value, seen1, es2, seen2, ks)
    ensures Loads(g, ids, l, seen, es + es2, seen2, [k] + ks)
  {
    StillTakes(g, ids, l, seen, es, seen1, [k]);
    ApplyTwo(l, es, es2);
    var l1 := ApplyAll(l, es).value;
    var l2 := ApplyAll(l1, es2).value;
    var p := l.ctx[|l.ctx| - 1];
    hide AliasesOf, Apply, ApplyAll, Back, AddEach;
    NodesMore(l.nodes, l1.nodes, l2.nodes, p - 1, k, ks, |seen|);
    BackTwo(g, l1.nodes, l2.nodes, |seen|, seen1, seen2);
  }

  lemma {:induction false} NoSteps(g: seq<Node>, ids: seq<nat>, seen: seq<nat>)
    requires GraphOk(g) && Entered(seen, |g|)
    ensures StepsAll(g, seen, []) == Walk([], seen) && Emit(g, ids, []) == []
  {
  }

  /** A collection that has just started takes children. */
  lemma {:induction false} BareTakes(l: Loading, node: Node, l1: Loading, n: nat)
    requires Takes(l) && |l.nodes| == n && !node.ScalarNode?
    requires l1.nodes == With(l, [n + 1]) + [Bare(node)] && l1.ctx == l.ctx + [n + 1]
    ensures Takes(l1)
  {
  }

  /** What loading a walk starts from. */
  ghost predicate CanLoad(g: seq<Node>, ids: seq<nat>, seen: seq<nat>, l: Loading) {
    GraphOk(g) && Entered(seen, |g|) && Distinct(ids) && Takes(l) && Has(l, ids, seen)
  }

  /** The walk enters a node: it has started. */
  lemma {:induction false} IntoStart(g: seq<Node>, ids: seq<nat>, seen: seq<nat>, i: nat, l: Loading) returns (l1: Loading)
    requires CanLoad(g, ids, seen, l) && 1 <= i <= |g| && i !in seen
    ensures Apply(l, StartOf(g[i - 1], AnchorOf(ids, i))) == Some(l1)
    ensures l1.nodes == With(l, [|seen| + 1]) + [Bare(g[i - 1])] && l1.aliases == AliasesOf(ids, seen + [i])
    ensures l1.ctx == l.ctx + if g[i - 1].ScalarNode? then [] else [|seen| + 1]
    ensures |seen| < |g| && Within(Children(g[i - 1]), |g|)
    ensures !g[i - 1].ScalarNode? ==> CanLoad(g, ids, seen + [i], l1) && l1.ctx != []
  {
    EnteredRoom(seen, |g|, i);
    ChildrenWithin(g, i);
    hide GraphOk, AliasesOf, Apply, StartOf, Bare, AddEach, Children, AnchorOf, Distinct, With, Takes, Within, Entered;
    l1 := LoadsStart(g[i - 1], ids, seen, i, l);
    if !g[i - 1].ScalarNode? {
      BareTakes(l, g[i - 1], l1, |seen|);
    }
  }

  ghost predicate NodeLoaded(g: seq<Node>, ids: seq<nat>, seen: seq<nat>, i: nat, l: Loading) {
    CanLoad(g, ids, seen, l) && 1 <= i <= |g| && Named(ids, Steps(g, seen, i).steps) &&
    var w := Steps(g, seen, i);
    Loads(g, ids, l, seen, Emit(g, ids, w.steps), w.seen, [Place(w.seen, i)])
  }

  ghost predicate ChildrenLoaded(g: seq<Node>, ids: seq<nat>, seen: seq<nat>, todo: seq<nat>, l: Loading) {
    CanLoad(g, ids, seen, l) && Within(todo, |g|) && Named(ids, StepsAll(g, seen, todo).steps) &&
    var w := StepsAll(g, seen, todo);
    Loads(g, ids, l, seen, Emit(g, ids, w.steps), w.seen, Places(w.seen, todo))
  }

  /** The walk leaves a node: it has come back. */
  lemma {:induction false} IntoFinish(g: seq<Node>, ids: seq<nat>, seen: seq<nat>, i: nat, l: Loading, l1: Loading)
    requires CanLoad(g, ids, seen, l) && 1 <= i <= |g| && i !in seen && Named(ids, Steps(g, seen, i).steps)
    requires Apply(l, StartOf(g[i - 1], AnchorOf(ids, i))) == Some(l1)
    requires l1.nodes == With(l, [|seen| + 1]) + [Bare(g[i - 1])] && l1.aliases == AliasesOf(ids, seen + [i])
    requires l1.ctx == l.ctx + if g[i - 1].ScalarNode? then [] else [|seen| + 1]
    requires !g[i - 1].ScalarNode? ==> ChildrenLoaded(g, ids, seen + [i], Children(g[i - 1]), l1)
    ensures NodeLoaded(g, ids, seen, i, l)
  {
    var node, e := g[i - 1], StartOf(g[i - 1], AnchorOf(ids, i));
    hide GraphOk, AliasesOf, Apply, StartOf, Bare, AddEach, Emit, Steps, StepsAll, Entered, Loads, Named, With, Place, Places, Children, EndEvents;
    IntoNode(g, ids, seen, i);
    var w := StepsAll(g, seen + [i], Children(node));
    PlaceInto(seen, i, w.seen);
    if node.ScalarNode? {
      LeafWalk(g, ids, seen, i, e);
      LoadsScalar(g, ids, seen, i, l, l1, e);
    } else {
      LoadsCollection(g, ids, seen, i, l, l1, e, Emit(g, ids, w.steps), w.seen);
    }
  }

  lemma {:induction false} LeafWalk(g: seq<Node>, ids: seq<nat>, seen: seq<nat>, i: nat, e: Event)
    requires GraphOk(g) && Entered(seen + [i], |g|) && 1 <= i <= |g| && g[i - 1].ScalarNode?
    ensures StepsAll(g, seen + [i], Children(g[i - 1])) == Walk([], seen + [i]) && Emit(g, ids, []) == []
    ensures [e] + [] + EndEvents(g[i - 1]) == [e]
  {
    NoSteps(g, ids, seen + [i]);
  }

  /** Loading the events of a walk from a node: the node comes back as one more
      child, together with all nodes that the walk enters. */
  lemma {:induction false} LoadsNode(g: seq<Node>, ids: seq<nat>, seen: seq<nat>, i: nat, l: Loading)
    requires CanLoad(g, ids, seen, l) && 1 <= i <= |g| && Named(ids, Steps(g, seen, i).steps)
    ensures NodeLoaded(g, ids, seen, i, l)
    decreases |g| - |seen|, 0
  {
    if i in seen {
      AgainNode(g, ids, seen, i);
      LoadsAgain(g, ids, seen, i, l);
    } else {
      hide *;
      IntoNode(g, ids, seen, i);
      var l1 := IntoStart(g, ids, seen, i, l);
      if !g[i - 1].ScalarNode? {
        LoadsNodes(g, ids, seen + [i], Children(g[i - 1]), l1);
      }
      IntoFinish(g, ids, seen, i, l, l1);
    }
  }

  lemma {:induction false} LoadsNodes(g: seq<Node>, ids: seq<nat>, seen: seq<nat>, todo: seq<nat>, l: Loading)
    requires CanLoad(g, ids, seen, l) && l.ctx != [] && Within(todo, |g|) && Named(ids, StepsAll(g, seen, todo).steps)
    ensures ChildrenLoaded(g, ids, seen, todo, l)
    decreases |g| - |seen|, 1, |todo|
  {
    if todo == [] {
      LoadsNothing(g, ids, l, seen);
    } else {
      SplitChildren(g, ids, seen, todo);
      hide *;
      LoadsNode(g, ids, seen, todo[0], l);
      var l1 := AfterFirst(g, ids, seen, todo, l);
      LoadsNodes(g, ids, Steps(g, seen, todo[0]).seen, todo[1..], l1);
      JoinChildren(g, ids, seen, todo, l, l1);
    }
  }

  lemma {:induction false} SplitChildren(g: seq<Node>, ids: seq<nat>, seen: seq<nat>, todo: seq<nat>)
    requires GraphOk(g) && Entered(seen, |g|) && Within(todo, |g|) && todo != [] && Named(ids, StepsAll(g, seen, todo).steps)
    ensures var a := Steps(g, seen, todo[0]);
            && Named(ids, a.steps) && |seen| <= |a.seen| <= |g| && Within(todo[1..], |g|)
            && Named(ids, StepsAll(g, a.seen, todo[1..]).steps)
            && StepsAll(g, seen, todo).seen == StepsAll(g, a.seen, todo[1..]).seen
            && Emit(g, ids, StepsAll(g, seen, todo).steps) == Emit(g, ids, a.steps) + Emit(g, ids, StepsAll(g, a.seen, todo[1..]).steps)
  {
    hide GraphOk, Entered, Steps, Named, Emit;
    var a := Steps(g, seen, todo[0]);
    EnteredRoom(a.seen, |g|, todo[0]);
    EmitTwo(g, ids, a.steps, StepsAll(g, a.seen, todo[1..]).steps);
  }

  lemma {:induction false} AfterFirst(g: seq<Node>, ids: seq<nat>, seen: seq<nat>, todo: seq<nat>, l: Loading) returns (l1: Loading)
    requires CanLoad(g, ids, seen, l) && l.ctx != [] && Within(todo, |g|) && todo != [] && NodeLoaded(g, ids, seen, todo[0], l)
    ensures var a := Steps(g, seen, todo[0]);
            && CanLoad(g, ids, a.seen, l1) && l1.ctx != []
            && Named(ids, a.steps) && ApplyAll(l, Emit(g, ids, a.steps)) == Some(l1)
  {
    var a := Steps(g, seen, todo[0]);
    var es := Emit(g, ids, a.steps);
    hide GraphOk, Emit, Steps, AddEach, Back, AliasesOf, ApplyAll, Entered;
    StillTakes(g, ids, l, seen, es, a.seen, [Place(a.seen, todo[0])]);
    l1 := ApplyAll(l, es).value;
  }

  lemma {:induction false} JoinChildren(g: seq<Node>, ids: seq<nat>, seen: seq<nat>, todo: seq<nat>, l: Loading, l1: Loading)
    requires CanLoad(g, ids, seen, l) && l.ctx != [] && Within(todo, |g|) && todo != [] && NodeLoaded(g, ids, seen, todo[0], l)
    requires Named(ids, StepsAll(g, seen, todo).steps) && Within(todo[1..], |g|)
    requires CanLoad(g, ids, Steps(g, seen, todo[0]).seen, l1)
    requires ApplyAll(l, Emit(g, ids, Steps(g, seen, todo[0]).steps)) == Some(l1)
    requires ChildrenLoaded(g, ids, Steps(g, seen, todo[0]).seen, todo[1..], l1)
    ensures ChildrenLoaded(g, ids, seen, todo, l)
  {
    hide GraphOk, Entered, Named, Emit, Steps, StepsAll, Loads, Has, With, Back, ApplyAll, AliasesOf, Within, Distinct, Place, Places;
    SplitChildren(g, ids, seen, todo);
    var a := Steps(g, seen, todo[0]);
    var b := StepsAll(g, a.seen, todo[1..]);
    PlacesJoin(a.seen, b.seen, todo);
    LoadsMore(g, ids, l, seen, Emit(g, ids, a.steps), a.seen, Place(a.seen, todo[0]), Emit(g, ids, b.steps), b.seen, Places(b.seen, todo[1..]));
  }

  lemma {:induction false} PlacesJoin(seen: seq<nat>, seen': seq<nat>, todo: seq<nat>)
    requires seen <= seen' && todo != [] && todo[0] in seen && Covers(seen', todo[1..])
    ensures Covers(seen', todo) && Places(seen', todo) == [Place(seen, todo[0])] + Places(seen', todo[1..])
  {
    assert seen + seen'[|seen|..] == seen';
    PlaceGrow(seen, seen'[|seen|..], todo[0]);
    assert forall k :: k in todo ==> k == todo[0] || k in todo[1..];
  }

  lemma {:induction false} LoadsNothing(g: seq<Node>, ids: seq<nat>, l: Loading, seen: seq<nat>)
    requires GraphOk(g) && Entered(seen, |g|) && Takes(l) && l.ctx != [] && Has(l, ids, seen)
    ensures Loads(g, ids, l, seen, Emit(g, ids, StepsAll(g, seen, []).steps), seen, [])
  {
    hide GraphOk, StepsAll, Emit, Renamed, Children, AliasesOf, Entered, Steps;
    NoSteps(g, ids, seen);
    assert ApplyAll(l, []) == Some(l);
    assert l.nodes[..|seen|] == l.nodes == With(l, []);
  }

  lemma {:induction false} FlatEven(pairs: seq<Pair>)
    ensures |Flat(pairs)| == 2 * |pairs|
  {
    if pairs != [] {
      FlatEven(pairs[1..]);
    }
  }

  lemma {:induction false} AcceptJust(open: seq<Frame>, e: Event)
    ensures AcceptAll(open, [e]) == Accept(open, e) && AcceptAll(open, []) == Some(open)
  {
    assert [e][..0] == [] && AcceptAll(open, []) == Some(open);
  }

  lemma {:induction false} AcceptThree(open: seq<Frame>, a: seq<Event>, open1: seq<Frame>, b: seq<Event>, open2: seq<Frame>, c: seq<Event>)
    requires AcceptAll(open, a) == Some(open1) && AcceptAll(open1, b) == Some(open2)
    ensures AcceptAll(open, a + b + c) == AcceptAll(open2, c)
  {
    hide *;
    AcceptTwo(open, a, b);
    AcceptTwo(open, a + b, c);
  }

  /** The start and the end of a node, where the acceptor takes one. */
  lemma {:induction false} AcceptsEnds(rest: seq<Frame>, f: Frame, node: Node, anchor: Option<CString>)
    requires TakesNode(f)
    ensures node.ScalarNode? ==> AcceptAll(rest + [f], [StartOf(node, anchor)]) == Some(rest + [AfterNode(f)])
    ensures !node.ScalarNode? ==>
              var g := if node.MappingNode? then AtKey else InSequence;
              && AcceptAll(rest + [f], [StartOf(node, anchor)]) == Some(rest + [AfterNode(f)] + [g])
              && AcceptAll(rest + [AfterNode(f)] + [g], EndEvents(node)) == Some(rest + [AfterNode(f)])
  {
    var g := if node.MappingNode? then AtKey else InSequence;
    AcceptJust(rest + [f], StartOf(node, anchor));
    assert rest + [AfterNode(f)] + [g] == rest + [AfterNode(f), g];
    if !node.ScalarNode? {
      AcceptJust(rest + [AfterNode(f)] + [g], EndEvents(node)[0]);
    }
  }

  /** The events of a dump are accepted like one node. */
  lemma {:induction false} AcceptsWalk(g: seq<Node>, ids: seq<nat>, seen: seq<nat>, i: nat, rest: seq<Frame>, f: Frame)
    requires GraphOk(g) && Entered(seen, |g|) && 1 <= i <= |g| && Named(ids, Steps(g, seen, i).steps) && TakesNode(f)
    ensures AcceptAll(rest + [f], Emit(g, ids, Steps(g, seen, i).steps)) == Some(rest + [AfterNode(f)])
    decreases |g| - |seen|, 0
  {
    hide Accept, AcceptAll, GraphOk, Entered, Steps, StepsAll, Emit, Named, StartOf, AnchorOf, EndEvents, Flat;
    if i in seen {
      AgainNode(g, ids, seen, i);
      AcceptsAlias(rest, f, AnchorOf(ids, i).value);
    } else {
      IntoNode(g, ids, seen, i);
      var node := g[i - 1];
      var start := [StartOf(node, AnchorOf(ids, i))];
      AcceptsEnds(rest, f, node, AnchorOf(ids, i));
      if node.ScalarNode? {
        LeafWalk(g, ids, seen, i, start[0]);
      } else {
        var inner := if node.MappingNode? then AtKey else InSequence;
        AcceptsWalks(g, ids, seen + [i], Children(node), rest + [AfterNode(f)], inner);
        if node.MappingNode? {
          FlatEven(node.pairs);
        }
        var inside := Emit(g, ids, StepsAll(g, seen + [i], Children(node)).steps);
        AcceptThree(rest + [f], start, rest + [AfterNode(f)] + [inner], inside, rest + [AfterNode(f)] + [inner], EndEvents(node));
      }
    }
  }

  lemma {:induction false} AcceptsAlias(rest: seq<Frame>, f: Frame, name: CString)
    requires TakesNode(f)
    ensures AcceptAll(rest + [f], [Alias(name)]) == Some(rest + [AfterNode(f)])
  {
    AcceptJust(rest + [f], Alias(name));
  }

  lemma {:induction false} AcceptsWalks(g: seq<Node>, ids: seq<nat>, seen: seq<nat>, todo: seq<nat>, rest: seq<Frame>, f: Frame)
    requires GraphOk(g) && Entered(seen, |g|) && Within(todo, |g|) && Named(ids, StepsAll(g, seen, todo).steps)
    requires f.InSequence? || f.AtKey? || f.AtValue?
    ensures AcceptAll(rest + [f], Emit(g, ids, StepsAll(g, seen, todo).steps)) ==
            Some(rest + [if |todo| % 2 == 0 then f else AfterNode(f)])
    decreases |g| - |seen|, 1, |todo|
  {
    hide Accept, AcceptAll, GraphOk, Entered, Steps, Emit, Named;
    if todo == [] {
      NoSteps(g, ids, seen);
      AcceptJust(rest + [f], StreamEnd);
    } else {
      SplitChildren(g, ids, seen, todo);
      var a := Steps(g, seen, todo[0]);
      AcceptsWalk(g, ids, seen, todo[0], rest, f);
      AcceptsWalks(g, ids, a.seen, todo[1..], rest, AfterNode(f));
      AcceptTwo(rest + [f], Emit(g, ids, a.steps), Emit(g, ids, StepsAll(g, a.seen, todo[1..]).steps));
    }
  }

  /** The loader follows the acceptor over any events of nodes. */
  lemma {:induction false} ApplyAllOk(l: Loading, open: seq<Frame>, es: seq<Event>)
    requires LoadOk(l, open) && AcceptAll(open, es).Some? && ApplyAll(l, es).Some?
    requires forall e :: e in es ==> InNodes(e)
    ensures LoadOk(ApplyAll(l, es).value, AcceptAll(open, es).value)
  {
    hide LoadOk, Accept, Apply;
    if es != [] {
      var n := |es| - 1;
      ApplyAllOk(l, open, es[..n]);
      ApplyOk(ApplyAll(l, es[..n]).value, AcceptAll(open, es[..n]).value, es[n]);
    }
  }

  lemma {:induction false} EmitInNodes(g: seq<Node>, ids: seq<nat>, steps: seq<Step>)
    requires Named(ids, steps)
    ensures forall e :: e in Emit(g, ids, steps) ==> InNodes(e)
  {
    if steps != [] {
      EmitInNodes(g, ids, steps[1..]);
      assert forall e :: e in StepEvents(g, ids, steps[0]) ==> InNodes(e);
    }
  }

  /** A path of references from the root. */
  ghost predicate IsPath(g: seq<Node>, p: seq<nat>) {
    p != [] && 1 <= p[|p| - 1] <= |g| &&
    var n := |p| - 1;
    if n == 0 then p[0] == 1 else IsPath(g, p[..n]) && p[n] in Children(g[p[n - 1] - 1])
  }

  ghost predicate Reachable(g: seq<Node>, i: nat) {
    exists p :: IsPath(g, p) && p[|p| - 1] == i
  }

  lemma {:induction false} ReachableChild(g: seq<Node>, i: nat, j: nat)
    requires GraphOk(g) && Reachable(g, i) && 1 <= i <= |g| && j in Children(g[i - 1])
    ensures Reachable(g, j)
  {
    var p :| IsPath(g, p) && p[|p| - 1] == i;
    ChildrenWithin(g, i);
    hide GraphOk, Children;
    var q := p + [j];
    assert q[..|p|] == p;
    assert IsPath(g, q) && q[|q| - 1] == j;
  }

  /** A walk enters only nodes that can be reached. */
  lemma {:induction false} WalkReaches(g: seq<Node>, seen: seq<nat>, i: nat)
    requires GraphOk(g) && Entered(seen, |g|) && 1 <= i <= |g| && Reachable(g, i)
    requires forall k :: k in seen ==> Reachable(g, k)
    ensures forall k :: k in Steps(g, seen, i).seen ==> Reachable(g, k)
    decreases |g| - |seen|, 0
  {
    hide Reachable, GraphOk, Entered;
    EnteredRoom(seen, |g|, i);
    if i !in seen {
      ChildrenWithin(g, i);
      forall j | j in Children(g[i - 1])
        ensures Reachable(g, j)
      {
        ReachableChild(g, i, j);
      }
      WalksReach(g, seen + [i], Children(g[i - 1]));
    }
  }

  lemma {:induction false} WalksReach(g: seq<Node>, seen: seq<nat>, todo: seq<nat>)
    requires GraphOk(g) && Entered(seen, |g|) && Within(todo, |g|) && forall k :: k in todo ==> Reachable(g, k)
    requires forall k :: k in seen ==> Reachable(g, k)
    ensures forall k :: k in StepsAll(g, seen, todo).seen ==> Reachable(g, k)
    decreases |g| - |seen|, 1, |todo|
  {
    hide Reachable, GraphOk, Entered;
    if todo != [] {
      WalkReaches(g, seen, todo[0]);
      var a := Steps(g, seen, todo[0]);
      EnteredRoom(a.seen, |g|, todo[0]);
      WalksReach(g, a.seen, todo[1..]);
    }
  }

  /** A set of nodes that has the root and all children of its nodes has every
      node that can be reached. */
  lemma {:induction false} PathInside(g: seq<Node>, p: seq<nat>, order: seq<nat>)
    requires IsPath(g, p) && 1 in order
    requires Closed(g, order)
    ensures p[|p| - 1] in order
    decreases |p|
  {
    hide Children;
    if |p| > 1 {
      var n := |p| - 1;
      PathInside(g, p[..n], order);
      assert p[n] in Children(g[p[n - 1] - 1]);
    }
  }

  /** `nodes` is the part of `g` that can be reached from the root, with the node
      `order[k]` under the number `k + 1`. */
  ghost predicate Isomorphic(g: seq<Node>, nodes: seq<Node>, order: seq<nat>) {
    && Back(g, nodes, 0, order) && order != [] && order[0] == 1
    && Entered(order, |g|) && (forall i :: i in order <==> Reachable(g, i))
  }

  ghost predicate Closed(g: seq<Node>, order: seq<nat>) {
    forall i :: i in order ==> 1 <= i <= |g| && Covers(order, Children(g[i - 1]))
  }

  lemma {:induction false} BackCloses(g: seq<Node>, nodes: seq<Node>, order: seq<nat>)
    requires Back(g, nodes, 0, order)
    ensures Closed(g, order)
  {
    hide Children, Renamed, Covers;
    forall i | i in order
      ensures 1 <= i <= |g| && Covers(order, Children(g[i - 1]))
    {
      var k :| 0 <= k < |order| && order[k] == i;
    }
  }

  lemma {:induction false} ClosedReach(g: seq<Node>, order: seq<nat>)
    requires Closed(g, order) && 1 in order
    ensures forall i :: Reachable(g, i) ==> i in order
  {
    forall i | Reachable(g, i)
      ensures i in order
    {
      var p :| IsPath(g, p) && p[|p| - 1] == i;
      PathInside(g, p, order);
    }
  }

  lemma {:induction false} RootReachable(g: seq<Node>)
    requires g != []
    ensures Reachable(g, 1)
  {
    var p: seq<nat> := [1];
    assert IsPath(g, p) && p[|p| - 1] == 1;
  }

  lemma {:induction false} WalkFromRoot(g: seq<Node>, nodes: seq<Node>)
    requires g != [] && GraphOk(g) && Entered([], |g|) && Back(g, nodes, 0, Steps(g, [], 1).seen)
    ensures Isomorphic(g, nodes, Steps(g, [], 1).seen)
  {
    hide Back, Steps, Closed, Reachable, GraphOk, Entered;
    RootReachable(g);
    WalkReaches(g, [], 1);
    StartsAtRoot(g);
    BackCloses(g, nodes, Steps(g, [], 1).seen);
    ClosedReach(g, Steps(g, [], 1).seen);
  }

  lemma {:induction false} StartsAtRoot(g: seq<Node>)
    requires GraphOk(g) && Entered([], |g|)
    ensures Steps(g, [], 1).seen != [] && Steps(g, [], 1).seen[0] == 1
  {
    EnteredRoom([], |g|, 1);
    ChildrenWithin(g, 1);
    var w := StepsAll(g, [] + [1], Children(g[0]));
    assert [1] <= w.seen;
  }

  /** Dumping a graph with complete pairs, shared and cyclic nodes included, and
      loading the events gives a whole graph back that is isomorphic to what can
      be reached from the root. */
  lemma {:induction false} RoundTrip(g: seq<Node>, ids: seq<nat>) returns (nodes: seq<Node>, aliases: seq<AliasData>)
    requires Anchored(g, ids)
    ensures Named(ids, Steps(g, [], 1).steps)
    ensures ApplyAll(Loading([], [], []), Emit(g, ids, Steps(g, [], 1).steps)) == Some(Loading(nodes, aliases, []))
    ensures GraphOk(nodes) && Isomorphic(g, nodes, Steps(g, [], 1).seen)
  {
    AnchoredNamed(g, ids);
    assert g != [];
    var l := Loading([], [], []);
    var w := Steps(g, [], 1);
    var es := Emit(g, ids, w.steps);
    assert CanLoad(g, ids, [], l);
    LoadsNode(g, ids, [], 1, l);
    var l' := ApplyAll(l, es).value;
    nodes, aliases := l'.nodes, l'.aliases;
    hide Steps, Emit, Back, Isomorphic, ApplyAll, AliasesOf, Named, Anchored, GraphOk, LoadOk;
    WalkFromRoot(g, nodes);
    DumpAccepted(g, ids);
    NothingLoaded();
    EmitInNodes(g, ids, w.steps);
    ApplyAllOk(l, [InStream, AtRoot], es);
    DocumentEvents(l', [InStream, AtDocumentEnd], DocumentEnd(true));
  }

  /** The events of a dump are those of one document. */
  lemma {:induction false} DumpAccepted(g: seq<Node>, ids: seq<nat>)
    requires GraphOk(g) && Entered([], |g|) && Named(ids, Steps(g, [], 1).steps)
    ensures AcceptAll([InStream, AtRoot], Emit(g, ids, Steps(g, [], 1).steps)) == Some([InStream, AtDocumentEnd])
    ensures Accept([InStream, AtDocumentEnd], DocumentEnd(true)).Some?
  {
    hide Steps, Emit, GraphOk, Named, AcceptAll;
    AcceptsWalk(g, ids, [], 1, [InStream], AtRoot);
    assert [InStream] + [AtRoot] == [InStream, AtRoot] && [InStream] + [AtDocumentEnd] == [InStream, AtDocumentEnd];
  }
}
