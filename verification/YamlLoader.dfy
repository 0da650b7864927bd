/** The loader of the YAML library (loader.c): it composes the graph of a
    document from parser events. */
module YamlLoader {
  import opened CStrings
  import opened Options
  import opened YamlEvents
  import YamlGrammar
  import YamlParser

  /** Nodes are numbered from 1; 0 stands for a value that is still missing. */
  datatype Pair = Pair(key: nat, value: nat)

  datatype Node =
    | ScalarNode(tag: CString, value: seq<byte>, scalarStyle: ScalarStyle)
    | SequenceNode(tag: CString, items: seq<nat>, style: CollectionStyle)
    | MappingNode(tag: CString, pairs: seq<Pair>, style: CollectionStyle)

  datatype AliasData = AliasData(anchor: CString, index: nat)

  /** The state of a load: the nodes so far, the anchors so far, and the indices
      of the open collections. */
  datatype Loading = Loading(nodes: seq<Node>, aliases: seq<AliasData>, ctx: seq<nat>)

  const SCALAR_TAG: CString := YamlGrammar.YAML_PREFIX + [115, 116, 114]
  const SEQUENCE_TAG: CString := YamlGrammar.YAML_PREFIX + [115, 101, 113]
  const MAPPING_TAG: CString := YamlGrammar.YAML_PREFIX + [109, 97, 112]

  /** The tag of a node whose event has the tag `tag`. */
  function TagOr(tag: Option<CString>, default: CString): CString {
    if tag.None? || tag.value == [YamlGrammar.BANG] then default else tag.value
  }

  /** The first of the anchors that has the name. */
  function FindAlias(aliases: seq<AliasData>, name: CString): Option<nat> {
    if aliases == [] then None
    else if aliases[0].anchor == name then Some(aliases[0].index)
    else FindAlias(aliases[1..], name)
  }

  /** A collection with one more child. */
  function AddTo(parent: Node, index: nat): Node
    requires !parent.ScalarNode?
  {
    match parent
    case SequenceNode(tag, items, style) => SequenceNode(tag, items + [index], style)
    case MappingNode(tag, pairs, style) =>
      var n := |pairs| - 1;
      if pairs != [] && pairs[n].key != 0 && pairs[n].value == 0
      then MappingNode(tag, pairs[n := Pair(pairs[n].key, index)], style)
      else MappingNode(tag, pairs + [Pair(index, 0)], style)
  }

  /** A node becomes a child of the innermost open collection; the root has none. */
  function Add(l: Loading, index: nat): Option<Loading> {
    if l.ctx == [] then Some(l)
    else
      var p := l.ctx[|l.ctx| - 1];
      if 1 <= p <= |l.nodes| && !l.nodes[p - 1].ScalarNode?
      then Some(l.(nodes := l.nodes[p - 1 := AddTo(l.nodes[p - 1], index)]))
      else None
  }

  /** A new node with its anchor; a collection stays open. */
  function Enter(l: Loading, node: Node, anchor: Option<CString>): Option<Loading> {
    var index := |l.nodes| + 1;
    if anchor.Some? && FindAlias(l.aliases, anchor.value).Some? then None
    else
      var aliases := l.aliases + if anchor.Some? then [AliasData(anchor.value, index)] else [];
      match Add(Loading(l.nodes + [node], aliases, l.ctx), index)
      case None => None
      case Some(l') => Some(if node.ScalarNode? then l' else l'.(ctx := l.ctx + [index]))
  }

  /** The node of the event that starts it. */
  function NodeOf(e: Event): Node
    requires StartsNode(e) && !e.Alias?
  {
    match e
    case Scalar(_, tag, value, _, _, style) => ScalarNode(TagOr(tag, SCALAR_TAG), value, style)
    case SequenceStart(_, tag, _, style) => SequenceNode(TagOr(tag, SEQUENCE_TAG), [], style)
    case MappingStart(_, tag, _, style) => MappingNode(TagOr(tag, MAPPING_TAG), [], style)
  }

  /** One event inside of a document; no result where the loader reports an error
      or would trip over an assertion. */
  function Apply(l: Loading, e: Event): Option<Loading> {
    match e
    case Alias(name) =>
      (match FindAlias(l.aliases, name)
       case None => None
       case Some(index) => Add(l, index))
    case Scalar(anchor, _, _, _, _, _) => Enter(l, NodeOf(e), anchor)
    case SequenceStart(anchor, _, _, _) => Enter(l, NodeOf(e), anchor)
    case MappingStart(anchor, _, _, _) => Enter(l, NodeOf(e), anchor)
    case SequenceEnd => if Top(l).Some? && Top(l).value.SequenceNode? then Some(l.(ctx := l.ctx[..|l.ctx| - 1])) else None
    case MappingEnd => if Top(l).Some? && Top(l).value.MappingNode? then Some(l.(ctx := l.ctx[..|l.ctx| - 1])) else None
    case _ => None
  }

  /** The innermost open collection. */
  function Top(l: Loading): Option<Node> {
    if l.ctx != [] && 1 <= l.ctx[|l.ctx| - 1] <= |l.nodes| then Some(l.nodes[l.ctx[|l.ctx| - 1] - 1]) else None
  }

  function ApplyAll(l: Loading, es: seq<Event>): Option<Loading> {
    if es == [] then Some(l)
    else
      var n := |es| - 1;
      match ApplyAll(l, es[..n])
      case None => None
      case Some(l') => Apply(l', es[n])
  }

  lemma {:induction false} ApplyTwo(l: Loading, a: seq<Event>, b: seq<Event>)
    ensures ApplyAll(l, a + b) ==
            match ApplyAll(l, a) case None => None case Some(l') => ApplyAll(l', b)
  {
    hide Apply;
    if b == [] {
      assert a + b == a;
    } else {
      var n := |b| - 1;
      ApplyTwo(l, a, b[..n]);
      assert (a + b)[..|a| + n] == a + b[..n];
    }
  }

  /** The errors of the loader: an alias without an anchor, and an anchor that is
      there already. */
  predicate ComposerError(l: Loading, e: Event) {
    match e
    case Alias(name) => FindAlias(l.aliases, name).None?
    case Scalar(anchor, _, _, _, _, _) => anchor.Some? && FindAlias(l.aliases, anchor.value).Some?
    case SequenceStart(anchor, _, _, _) => anchor.Some? && FindAlias(l.aliases, anchor.value).Some?
    case MappingStart(anchor, _, _, _) => anchor.Some? && FindAlias(l.aliases, anchor.value).Some?
    case _ => false
  }

  /** All pairs have a key and a value. */
  predicate Complete(node: Node) {
    node.MappingNode? && node.pairs != [] ==> node.pairs[|node.pairs| - 1].value != 0
  }

  /** The children are among the first `n` nodes; only the last value may be missing. */
  ghost predicate NodeOk(node: Node, n: nat) {
    match node
    case ScalarNode(_, _, _) => true
    case SequenceNode(_, items, _) => forall i :: 0 <= i < |items| ==> 1 <= items[i] <= n
    case MappingNode(_, pairs, _) =>
      forall i :: 0 <= i < |pairs| ==>
        1 <= pairs[i].key <= n && pairs[i].value <= n && (i < |pairs| - 1 ==> pairs[i].value != 0)
  }

  /** A collection is as far as the frame says. */
  ghost predicate Holds(node: Node, f: Frame) {
    match f
    case InSequence => node.SequenceNode?
    case AtKey => node.MappingNode? && Complete(node)
    case AtValue => node.MappingNode? && !Complete(node)
    case _ => false
  }

  function LastChild(node: Node): nat {
    match node
    case ScalarNode(_, _, _) => 0
    case SequenceNode(_, items, _) => if items == [] then 0 else items[|items| - 1]
    case MappingNode(_, pairs, _) =>
      if pairs == [] then 0
      else
        var p := pairs[|pairs| - 1];
        if p.value == 0 then p.key else p.value
  }

  /** The open collections, as far as the frames say, are a path from the root:
      each one is the last child of the one around it. */
  ghost predicate PathOk(nodes: seq<Node>, ctx: seq<nat>, frames: seq<Frame>) {
    |ctx| == |frames| &&
    (ctx != [] ==>
       var n := |ctx| - 1;
       && 1 <= ctx[n] <= |nodes| && Holds(nodes[ctx[n] - 1], frames[n])
       && PathOk(nodes, ctx[..n], frames[..n])
       && (if n == 0 then ctx[n] == 1 else ctx[n - 1] < ctx[n] && LastChild(nodes[ctx[n - 1] - 1]) == ctx[n]))
  }

  ghost predicate NodesOk(nodes: seq<Node>) {
    forall i :: 0 <= i < |nodes| ==> NodeOk(nodes[i], |nodes|)
  }

  /** The collections that are not open are complete. */
  ghost predicate OthersComplete(nodes: seq<Node>, ctx: seq<nat>) {
    forall i :: 0 <= i < |nodes| ==> i + 1 in ctx || Complete(nodes[i])
  }

  ghost predicate AliasesOk(aliases: seq<AliasData>, n: nat) {
    forall i :: 0 <= i < |aliases| ==> 1 <= aliases[i].index <= n
  }

  ghost predicate Linked(l: Loading, frames: seq<Frame>) {
    && PathOk(l.nodes, l.ctx, frames) && NodesOk(l.nodes) && OthersComplete(l.nodes, l.ctx)
    && AliasesOk(l.aliases, |l.nodes|)
  }

  /** What every event keeps: the open collections are the path from the root, as
      the acceptor of events has them; every index is one of a node; and all the
      collections that are not open are complete. */
  ghost predicate LoadOk(l: Loading, open: seq<Frame>) {
    && |open| >= 2 && open[0] == InStream && open[1] == (if l.nodes == [] then AtRoot else AtDocumentEnd)
    && Linked(l, open[2..])
  }

  lemma {:induction false} FindAliasIndex(aliases: seq<AliasData>, name: CString)
    requires FindAlias(aliases, name).Some?
    ensures exists i :: 0 <= i < |aliases| && aliases[i] == AliasData(name, FindAlias(aliases, name).value)
  {
    if aliases[0].anchor == name {
      assert aliases[0] == AliasData(name, aliases[0].index);
    } else {
      FindAliasIndex(aliases[1..], name);
      var i :| 0 <= i < |aliases| - 1 && aliases[1..][i] == AliasData(name, FindAlias(aliases, name).value);
      assert aliases[i + 1] == aliases[1..][i];
    }
  }

  /** One more child moves a collection on as a node moves the acceptor. */
  lemma {:induction false} AddToHolds(node: Node, f: Frame, index: nat, n: nat)
    requires NodeOk(node, n) && Holds(node, f) && 1 <= index <= n
    ensures NodeOk(AddTo(node, index), n) && Holds(AddTo(node, index), AfterNode(f))
    ensures LastChild(AddTo(node, index)) == index
  {
  }

  lemma {:induction false} PathFrame(nodes: seq<Node>, nodes': seq<Node>, ctx: seq<nat>, frames: seq<Frame>)
    requires PathOk(nodes, ctx, frames)
    requires ctx != [] ==> ctx[|ctx| - 1] <= |nodes'| && nodes'[..ctx[|ctx| - 1]] == nodes[..ctx[|ctx| - 1]]
    ensures PathOk(nodes', ctx, frames)
  {
    hide Holds, LastChild;
    if ctx != [] {
      var n := |ctx| - 1;
      var p := ctx[n];
      assert forall i :: 0 <= i < p ==> nodes[i] == nodes[..p][i] == nodes'[..p][i] == nodes'[i];
      PathFrame(nodes, nodes', ctx[..n], frames[..n]);
    }
  }

  /** Everything on the path is below the innermost collection. */
  lemma {:induction false} PathBelow(nodes: seq<Node>, ctx: seq<nat>, frames: seq<Frame>, i: nat)
    requires PathOk(nodes, ctx, frames) && i in ctx
    ensures 1 <= i <= ctx[|ctx| - 1]
  {
    hide Holds, LastChild;
    var n := |ctx| - 1;
    if i != ctx[n] {
      assert i in ctx[..n];
      PathBelow(nodes, ctx[..n], frames[..n], i);
    }
  }

  /** A new node that nothing refers to yet. */
  lemma {:induction false} GrowLinked(l: Loading, frames: seq<Frame>, node: Node)
    requires Linked(l, frames) && NodeOk(node, 0) && Complete(node)
    ensures Linked(Loading(l.nodes + [node], l.aliases, l.ctx), frames)
  {
    hide Complete, Holds, LastChild;
    var nodes' := l.nodes + [node];
    if l.ctx != [] {
      assert nodes'[..l.ctx[|l.ctx| - 1]] == l.nodes[..l.ctx[|l.ctx| - 1]];
    }
    PathFrame(l.nodes, nodes', l.ctx, frames);
  }

  /** A node becomes a child of the innermost open collection. */
  lemma {:induction false} AddLinked(l: Loading, frames: seq<Frame>, index: nat)
    requires Linked(l, frames) && l.ctx != [] && 1 <= index <= |l.nodes|
    ensures Add(l, index).Some? && Add(l, index).value.ctx == l.ctx && |Add(l, index).value.nodes| == |l.nodes|
    ensures var n := |frames| - 1;
            TakesNode(frames[n]) && Linked(Add(l, index).value, frames[..n] + [AfterNode(frames[n])])
    ensures LastChild(Add(l, index).value.nodes[l.ctx[|l.ctx| - 1] - 1]) == index
  {
    hide Complete, LastChild;
    var n := |frames| - 1;
    var p := l.ctx[n];
    AddToHolds(l.nodes[p - 1], frames[n], index, |l.nodes|);
    var l' := Add(l, index).value;
    var frames' := frames[..n] + [AfterNode(frames[n])];
    hide Holds, NodeOk, AddTo;
    assert frames'[..n] == frames[..n];
    if n > 0 {
      var q := l.ctx[n - 1];
      assert l'.nodes[..q] == l.nodes[..q];
    }
    PathFrame(l.nodes, l'.nodes, l.ctx[..n], frames[..n]);
  }

  /** The child just added stays open. */
  lemma {:induction false} PushLinked(l: Loading, frames: seq<Frame>, f: Frame)
    requires Linked(l, frames) && l.nodes != [] && Holds(l.nodes[|l.nodes| - 1], f)
    requires if l.ctx == [] then |l.nodes| == 1 else
               l.ctx[|l.ctx| - 1] < |l.nodes| && LastChild(l.nodes[l.ctx[|l.ctx| - 1] - 1]) == |l.nodes|
    ensures Linked(l.(ctx := l.ctx + [|l.nodes|]), frames + [f])
  {
    hide Complete, Holds, LastChild, NodeOk;
    assert (l.ctx + [|l.nodes|])[..|l.ctx|] == l.ctx && (frames + [f])[..|frames|] == frames;
  }

  /** The innermost open collection is complete and closes. */
  lemma {:induction false} PopLinked(l: Loading, frames: seq<Frame>)
    requires Linked(l, frames) && l.ctx != [] && !frames[|frames| - 1].AtValue?
    ensures Linked(l.(ctx := l.ctx[..|l.ctx| - 1]), frames[..|frames| - 1])
    ensures Top(l) == Some(l.nodes[l.ctx[|l.ctx| - 1] - 1]) && Holds(Top(l).value, frames[|frames| - 1])
  {
    hide LastChild, NodeOk;
    var n := |l.ctx| - 1;
    var p := l.ctx[n];
    assert Complete(l.nodes[p - 1]);
    forall i | 0 <= i < |l.nodes|
      ensures i + 1 in l.ctx[..n] || Complete(l.nodes[i])
    {
      if i + 1 in l.ctx && i + 1 != p {
        var k :| 0 <= k < |l.ctx| && l.ctx[k] == i + 1;
        assert l.ctx[..n][k] == i + 1;
      }
    }
  }

  /** Whether the loader takes part in an event. */
  predicate InNodes(e: Event) {
    StartsNode(e) || e.SequenceEnd? || e.MappingEnd?
  }

  lemma {:induction false} FramesAfter(open: seq<Frame>, f: Frame, g: Frame)
    requires |open| > 2
    ensures var n := |open| - 1;
            && (open[..n] + [f])[2..] == open[2..][..n - 2] + [f]
            && (open[..n] + [f, g])[2..] == open[2..][..n - 2] + [f] + [g]
  {
  }

  /** An alias or a scalar or the start of a collection, for the index `index` of a
      node that is there. */
  lemma {:induction false} AddOk(l: Loading, open: seq<Frame>, index: nat)
    requires |open| >= 2 && open[0] == InStream && Linked(l, open[2..]) && 1 <= index <= |l.nodes|
    requires if |open| == 2 then open[1] == AtRoot else open[1] == AtDocumentEnd
    ensures var n := |open| - 1;
            && TakesNode(open[n]) && Add(l, index).Some? && LoadOk(Add(l, index).value, open[..n] + [AfterNode(open[n])])
            && (l.ctx == [] <==> n == 1) && Add(l, index).value.ctx == l.ctx && |Add(l, index).value.nodes| == |l.nodes|
            && (l.ctx != [] ==> LastChild(Add(l, index).value.nodes[l.ctx[|l.ctx| - 1] - 1]) == index)
  {
    hide OthersComplete, NodesOk, AliasesOk, LastChild, Holds;
    var n := |open| - 1;
    if n > 1 {
      AddLinked(l, open[2..], index);
      FramesAfter(open, AfterNode(open[n]), AtKey);
    } else {
      assert (open[..n] + [AtDocumentEnd])[2..] == open[2..];
    }
  }

  lemma {:induction false} PathTop(nodes: seq<Node>, ctx: seq<nat>, frames: seq<Frame>)
    requires PathOk(nodes, ctx, frames)
    ensures |ctx| == |frames| && (ctx != [] ==> 1 <= ctx[|ctx| - 1] <= |nodes|)
  {
  }

  /** A collection that has just become a child stays open. */
  lemma {:induction false} PushOk(l: Loading, open: seq<Frame>, e: Event)
    requires |open| >= 2 && open[0] == InStream && Linked(l, open[2..]) && l.nodes != []
    requires if |open| == 2 then open[1] == AtRoot && |l.nodes| == 1 else open[1] == AtDocumentEnd
    requires l.ctx != [] ==> l.ctx[|l.ctx| - 1] < |l.nodes|
    requires (e.SequenceStart? || e.MappingStart?) && l.nodes[|l.nodes| - 1] == NodeOf(e) && Accept(open, e).Some?
    ensures Add(l, |l.nodes|).Some?
    ensures LoadOk(Add(l, |l.nodes|).value.(ctx := l.ctx + [|l.nodes|]), Accept(open, e).value)
  {
    hide PathOk, OthersComplete, NodesOk, AliasesOk, LastChild, AfterNode, AddTo;
    var n := |open| - 1;
    var f := if e.MappingStart? then AtKey else InSequence;
    AddOk(l, open, |l.nodes|);
    var l2 := Add(l, |l.nodes|).value;
    var open2 := open[..n] + [AfterNode(open[n])];
    PathTop(l.nodes, l.ctx, open[2..]);
    assert l2.nodes[|l.nodes| - 1] == NodeOf(e);
    PushLinked(l2, open2[2..], f);
    assert (open[..n] + [AfterNode(open[n]), f])[2..] == open2[2..] + [f];
  }

  /** A node that is new. */
  lemma {:induction false} EnterOk(l: Loading, open: seq<Frame>, e: Event)
    requires LoadOk(l, open) && Accept(open, e).Some? && StartsNode(e) && !e.Alias?
    ensures Enter(l, NodeOf(e), e.anchor).None? <==> ComposerError(l, e)
    ensures Enter(l, NodeOf(e), e.anchor).Some? ==> LoadOk(Enter(l, NodeOf(e), e.anchor).value, Accept(open, e).value)
  {
    hide PathOk, OthersComplete, NodesOk, AliasesOk, LastChild, Holds, Add, AfterNode, Complete;
    var n := |open| - 1;
    var node := NodeOf(e);
    var index := |l.nodes| + 1;
    NewNodeOk(e);
    if e.anchor.None? || FindAlias(l.aliases, e.anchor.value).None? {
      GrowLinked(l, open[2..], node);
      var aliases := l.aliases + if e.anchor.Some? then [AliasData(e.anchor.value, index)] else [];
      var l1 := Loading(l.nodes + [node], aliases, l.ctx);
      AliasesMore(l.aliases, |l.nodes|, e.anchor);
      PathTop(l.nodes, l.ctx, open[2..]);
      AddOk(l1, open, index);
      if !node.ScalarNode? {
        PushOk(l1, open, e);
      }
    }
  }

  lemma {:induction false} AliasesMore(aliases: seq<AliasData>, n: nat, anchor: Option<CString>)
    requires AliasesOk(aliases, n)
    ensures AliasesOk(aliases + if anchor.Some? then [AliasData(anchor.value, n + 1)] else [], n + 1)
  {
  }

  lemma {:induction false} NewNodeOk(e: Event)
    requires StartsNode(e) && !e.Alias?
    ensures NodeOk(NodeOf(e), 0) && Complete(NodeOf(e))
  {
  }

  /** An alias to a node that is there. */
  lemma {:induction false} AliasOk(l: Loading, open: seq<Frame>, e: Event)
    requires LoadOk(l, open) && Accept(open, e).Some? && e.Alias?
    ensures Apply(l, e).None? <==> ComposerError(l, e)
    ensures Apply(l, e).Some? ==> LoadOk(Apply(l, e).value, Accept(open, e).value)
  {
    hide PathOk, OthersComplete, NodesOk, LastChild, Holds, AddTo, AfterNode;
    var found := FindAlias(l.aliases, e.name);
    if found.Some? {
      FindAliasIndex(l.aliases, e.name);
      PathTop(l.nodes, l.ctx, open[2..]);
      AddOk(l, open, found.value);
    }
  }

  /** The end of a collection. */
  lemma {:induction false} EndOk(l: Loading, open: seq<Frame>, e: Event)
    requires LoadOk(l, open) && Accept(open, e).Some? && (e.SequenceEnd? || e.MappingEnd?)
    ensures Apply(l, e).Some? && LoadOk(Apply(l, e).value, Accept(open, e).value)
  {
    hide PathOk, OthersComplete, NodesOk, AliasesOk, LastChild;
    var n := |open| - 1;
    assert open[2..][|open| - 3] == open[n];
    PathTop(l.nodes, l.ctx, open[2..]);
    PopLinked(l, open[2..]);
    assert open[..n][2..] == open[2..][..n - 2];
  }

  /** The loader follows the acceptor: it keeps the invariant, and has a result
      unless it is to report an error, so no assertion of the source can fail. */
  lemma {:induction false} ApplyOk(l: Loading, open: seq<Frame>, e: Event)
    requires LoadOk(l, open) && Accept(open, e).Some? && InNodes(e)
    ensures Apply(l, e).None? <==> ComposerError(l, e)
    ensures Apply(l, e).Some? ==> LoadOk(Apply(l, e).value, Accept(open, e).value)
  {
    hide LoadOk, Accept;
    if e.Alias? {
      AliasOk(l, open, e);
    } else if StartsNode(e) {
      EnterOk(l, open, e);
    } else {
      EndOk(l, open, e);
    }
  }

  /** A whole graph: all indices are those of nodes, and all pairs are complete. */
  ghost predicate GraphOk(nodes: seq<Node>) {
    nodes != [] && NodesOk(nodes) && forall i :: 0 <= i < |nodes| ==> Complete(nodes[i])
  }

  /** Inside of a document the loader sees nothing but nodes and the end of the
      document, and at that end the graph is whole. */
  lemma {:induction false} DocumentEvents(l: Loading, open: seq<Frame>, e: Event)
    requires LoadOk(l, open) && Accept(open, e).Some?
    ensures InNodes(e) || e.DocumentEnd?
    ensures e.DocumentEnd? ==> l.ctx == [] && GraphOk(l.nodes)
  {
    hide NodesOk, AliasesOk, LastChild;
    var n := |open| - 1;
    PathTop(l.nodes, l.ctx, open[2..]);
    if n > 1 {
      assert Holds(l.nodes[l.ctx[n - 2] - 1], open[2..][n - 2]);
    }
  }

  /** A loaded document. */
  datatype Graph = Graph(version: Option<(int, int)>, directives: seq<TagDirective>,
                         startImplicit: bool, endImplicit: bool, nodes: seq<Node>)

  /** What a load ends with: an error, no document because the stream is over, a
      document, or an assertion of the source that fails. */
  datatype Result = Failed | NoDocument | Loaded(graph: Graph) | Aborted

  lemma {:induction false} NothingLoaded()
    ensures LoadOk(Loading([], [], []), [InStream, AtRoot]) && ApplyAll(Loading([], [], []), []) == Some(Loading([], [], []))
  {
    assert [InStream, AtRoot][2..] == [];
  }

  lemma {:induction false} ApplyOne(l: Loading, es: seq<Event>, e: Event)
    requires ApplyAll(l, es).Some?
    ensures ApplyAll(l, es + [e]) == Apply(ApplyAll(l, es).value, e)
  {
    assert (es + [e])[..|es|] == es;
  }

  class Loader {
    const parser: YamlParser.Parser
    var nodes: seq<Node>
    var aliases: seq<AliasData>
    var ctx: seq<nat>

    constructor (parser: YamlParser.Parser)
      ensures this.parser == parser
    {
      this.parser := parser;
      nodes, aliases, ctx := [], [], [];
    }

    ghost function Now(): Loading
      reads this
    {
      Loading(nodes, aliases, ctx)
    }

    /** yaml_parser_load_node_add */
    method LoadNodeAdd(index: nat)
      requires ctx != [] ==> Top(Now()).Some? && !Top(Now()).value.ScalarNode?
      modifies `nodes
      ensures Add(old(Now()), index) == Some(Now())
    {
      if ctx == [] {
        return;
      }
      var parentIndex := ctx[|ctx| - 1];
      match nodes[parentIndex - 1] {
        case SequenceNode(tag, items, style) =>
          nodes := nodes[parentIndex - 1 := SequenceNode(tag, items + [index], style)];
        case MappingNode(tag, pairs, style) =>
          var n := |pairs| - 1;
          if pairs != [] && pairs[n].key != 0 && pairs[n].value == 0 {
            nodes := nodes[parentIndex - 1 := MappingNode(tag, pairs[n := Pair(pairs[n].key, index)], style)];
          } else {
            nodes := nodes[parentIndex - 1 := MappingNode(tag, pairs + [Pair(index, 0)], style)];
          }
        case ScalarNode(_, _, _) =>
          assert false;
      }
    }

    /** The search of yaml_parser_load_alias and yaml_parser_register_anchor. */
    method SearchAlias(name: CString) returns (index: Option<nat>)
      ensures index == FindAlias(aliases, name)
    {
      var i := 0;
      while i < |aliases|
        invariant 0 <= i <= |aliases|
        invariant FindAlias(aliases, name) == FindAlias(aliases[i..], name)
      {
        if aliases[i].anchor == name {
          return Some(aliases[i].index);
        }
        assert aliases[i..][1..] == aliases[i + 1..];
        i := i + 1;
      }
      index := None;
    }

    /** yaml_parser_register_anchor */
    method RegisterAnchor(index: nat, anchor: Option<CString>) returns (ok: bool)
      modifies `aliases, parser`error
      ensures ok <==> anchor.None? || FindAlias(old(aliases), anchor.value).None?
      ensures ok ==> aliases == old(aliases) + if anchor.Some? then [AliasData(anchor.value, index)] else []
      ensures if ok then parser.error == old(parser.error) else parser.error == YamlParser.ComposerProblem
    {
      if anchor.None? {
        return true;
      }
      var found := SearchAlias(anchor.value);
      if found.Some? {
        parser.error := YamlParser.ComposerProblem;
        return false;
      }
      aliases := aliases + [AliasData(anchor.value, index)];
      ok := true;
    }

    /** The innermost open collection takes children. */
    ghost predicate TakesChild()
      reads this
    {
      ctx != [] ==> Top(Now()).Some? && !Top(Now()).value.ScalarNode?
    }

    /** yaml_parser_load_alias */
    method LoadAlias(e: Event) returns (ok: bool)
      requires TakesChild() && e.Alias?
      modifies `nodes, parser`error
      ensures if ok then Apply(old(Now()), e) == Some(Now()) && parser.error == old(parser.error)
              else ComposerError(old(Now()), e) && parser.error == YamlParser.ComposerProblem
    {
      var found := SearchAlias(e.name);
      if found.Some? {
        LoadNodeAdd(found.value);
        return true;
      }
      parser.error := YamlParser.ComposerProblem;
      ok := false;
    }

    /** What yaml_parser_load_scalar, _sequence and _mapping have in common. */
    method LoadNode(e: Event, node: Node) returns (ok: bool, index: nat)
      requires TakesChild() && StartsNode(e) && !e.Alias? && node == NodeOf(e)
      modifies `nodes, `aliases, parser`error
      ensures index == |old(nodes)| + 1
      ensures if ok then Enter(old(Now()), node, e.anchor) == Some(if node.ScalarNode? then Now() else Now().(ctx := ctx + [index]))
                && parser.error == old(parser.error)
              else ComposerError(old(Now()), e) && parser.error == YamlParser.ComposerProblem
    {
      nodes := nodes + [node];
      index := |nodes|;
      ok := RegisterAnchor(index, e.anchor);
      if ok {
        LoadNodeAdd(index);
      }
    }

    /** yaml_parser_load_scalar */
    method LoadScalar(e: Event) returns (ok: bool)
      requires TakesChild() && e.Scalar?
      modifies `nodes, `aliases, parser`error
      ensures if ok then Apply(old(Now()), e) == Some(Now()) && parser.error == old(parser.error)
              else ComposerError(old(Now()), e) && parser.error == YamlParser.ComposerProblem
    {
      var tag := e.tag;
      if tag.None? || tag.value == [YamlGrammar.BANG] {
        tag := Some(SCALAR_TAG);
      }
      var index;
      ok, index := LoadNode(e, ScalarNode(tag.value, e.value, e.scalarStyle));
    }

    /** yaml_parser_load_sequence */
    method LoadSequence(e: Event) returns (ok: bool)
      requires TakesChild() && e.SequenceStart?
      modifies `nodes, `aliases, `ctx, parser`error
      ensures if ok then Apply(old(Now()), e) == Some(Now()) && parser.error == old(parser.error)
              else ComposerError(old(Now()), e) && parser.error == YamlParser.ComposerProblem
    {
      var tag := e.tag;
      if tag.None? || tag.value == [YamlGrammar.BANG] {
        tag := Some(SEQUENCE_TAG);
      }
      var index;
      ok, index := LoadNode(e, SequenceNode(tag.value, [], e.style));
      if ok {
        ctx := ctx + [index];
      }
    }

    /** yaml_parser_load_mapping */
    method LoadMapping(e: Event) returns (ok: bool)
      requires TakesChild() && e.MappingStart?
      modifies `nodes, `aliases, `ctx, parser`error
      ensures if ok then Apply(old(Now()), e) == Some(Now()) && parser.error == old(parser.error)
              else ComposerError(old(Now()), e) && parser.error == YamlParser.ComposerProblem
    {
      var tag := e.tag;
      if tag.None? || tag.value == [YamlGrammar.BANG] {
        tag := Some(MAPPING_TAG);
      }
      var index;
      ok, index := LoadNode(e, MappingNode(tag.value, [], e.style));
      if ok {
        ctx := ctx + [index];
      }
    }

    /** yaml_parser_load_sequence_end, with its assertions */
    method LoadSequenceEnd()
      requires Apply(Now(), SequenceEnd).Some?
      modifies `ctx
      ensures Apply(old(Now()), SequenceEnd) == Some(Now())
    {
      assert |ctx| > 0;
      var index := ctx[|ctx| - 1];
      assert nodes[index - 1].SequenceNode?;
      ctx := ctx[..|ctx| - 1];
    }

    /** yaml_parser_load_mapping_end, with its assertions */
    method LoadMappingEnd()
      requires Apply(Now(), MappingEnd).Some?
      modifies `ctx
      ensures Apply(old(Now()), MappingEnd) == Some(Now())
    {
      assert |ctx| > 0;
      var index := ctx[|ctx| - 1];
      assert nodes[index - 1].MappingNode?;
      ctx := ctx[..|ctx| - 1];
    }

    lemma {:induction false} TakesNodes(open: seq<Frame>)
      requires LoadOk(Now(), open)
      ensures TakesChild()
    {
      PathTop(nodes, ctx, open[2..]);
    }

    /** The switch of yaml_parser_load_nodes. */
    method LoadEvent(e: Event, ghost open: seq<Frame>) returns (ok: bool)
      requires LoadOk(Now(), open) && Accept(open, e).Some? && InNodes(e)
      modifies this, parser`error
      ensures if ok then Apply(old(Now()), e) == Some(Now()) && parser.error == old(parser.error)
              else ComposerError(old(Now()), e) && parser.error == YamlParser.ComposerProblem
    {
      hide LoadOk, Accept;
      ApplyOk(Now(), open, e);
      TakesNodes(open);
      ok := true;
      match e {
        case Alias(_) => ok := LoadAlias(e);
        case Scalar(_, _, _, _, _, _) => ok := LoadScalar(e);
        case SequenceStart(_, _, _, _) => ok := LoadSequence(e);
        case SequenceEnd => LoadSequenceEnd();
        case MappingStart(_, _, _, _) => ok := LoadMapping(e);
        case MappingEnd => LoadMappingEnd();
        case _ => assert false;
      }
    }

    /** The parser is inside of a document and the loader is where it is. */
    ghost predicate Following()
      reads this, parser
    {
      parser.Valid() && parser.error.NoProblem? && LoadOk(Now(), parser.Here())
    }

    lemma {:induction false} NotAtEnd()
      requires Following()
      ensures !parser.state.PEnd? && parser.Owed() + 3 * |parser.tokens| >= 0
    {
      hide YamlParser.Weights, YamlParser.Weight;
    }

    /** One turn of yaml_parser_load_nodes. */
    method LoadNext() returns (ok: bool, e: Option<Event>)
      requires Following()
      modifies this, parser
      ensures parser.Valid() && (ok <==> parser.error.NoProblem?) && (ok ==> e.Some?)
      ensures ok ==> parser.events == old(parser.events) + [e.value] && parser.Owed() < old(parser.Owed())
      ensures ok && !e.value.DocumentEnd? ==> Following() && Apply(old(Now()), e.value) == Some(Now())
      ensures ok && e.value.DocumentEnd? ==> Now() == old(Now()) && ctx == [] && GraphOk(nodes)
      ensures ok && e.value.DocumentEnd? ==> parser.states == [] && parser.marks == []
    {
      hide LoadOk, Accept, NodesOk, GraphOk, Apply, ComposerError, YamlParser.Position, YamlParser.Parser.Derived,
           YamlParser.Parser.DerivedHere, YamlParser.Parser.Can;
      ghost var open := parser.Here();
      NotAtEnd();
      ok, e := parser.Parse();
      if !ok {
        return;
      }
      DocumentEvents(Now(), open, e.value);
      if !e.value.DocumentEnd? {
        ApplyOk(Now(), open, e.value);
        ok := LoadEvent(e.value, open);
      }
    }

    /** yaml_parser_load_nodes: the graph is what the events of the document say,
        and the whole of it. */
    method LoadNodes() returns (ok: bool, endImplicit: bool, ghost body: seq<Event>)
      requires Following() && Now() == Loading([], [], [])
      modifies this, parser
      ensures parser.Valid() && (ok <==> parser.error.NoProblem?)
      ensures ok ==> parser.events == old(parser.events) + body + [DocumentEnd(endImplicit)]
      ensures ok ==> ApplyAll(Loading([], [], []), body) == Some(Now()) && ctx == [] && GraphOk(nodes)
      ensures ok ==> parser.states == [] && parser.marks == []
    {
      hide Following, Apply, ApplyAll, GraphOk, ComposerError, LoadOk, YamlParser.Parser.Valid, YamlParser.Weights, YamlParser.Weight;
      body, endImplicit, ok := [], false, true;
      NothingLoaded();
      ghost var start := parser.events;
      while true
        invariant Following() && ok
        invariant parser.events == start + body && ApplyAll(Loading([], [], []), body) == Some(Now())
        decreases parser.Owed() + 3 * |parser.tokens|
      {
        NotAtEnd();
        var e;
        ok, e := LoadNext();
        if !ok {
          return;
        }
        if e.value.DocumentEnd? {
          endImplicit := e.value.implicit;
          return;
        }
        ApplyOne(Loading([], [], []), body, e.value);
        body := body + [e.value];
      }
    }

    lemma {:induction false} NextDocument(e: Event)
      requires Accept([InStream], e).Some?
      ensures if e.DocumentStart? then Accept([InStream], e) == Some([InStream, AtRoot])
              else e.StreamEnd? && Accept([InStream], e) == Some([])
    {
      assert [InStream] + [AtRoot] == [InStream, AtRoot];
    }

    lemma {:induction false} FirstEvent()
      ensures forall e: Event :: Accept([BeforeStream], e).Some? ==> e.StreamStart?
    {
    }

    lemma {:induction false} AtBoundary()
      requires parser.Valid() && parser.error.NoProblem? && YamlParser.OutsideDocuments(parser.state)
      ensures parser.streamEndProduced <==> parser.state.PEnd?
      ensures parser.StreamStartProduced() <==> !parser.state.PStreamStart?
      ensures parser.Here() == if parser.state.PStreamStart? then [BeforeStream] else if parser.state.PEnd? then [] else [InStream]
    {
      parser.DocumentPlace();
    }

    /** The first part of yaml_parser_load: the start of the stream.  Nothing is
        returned where the load goes on. */
    method LoadStreamStart() returns (r: Option<Result>)
      requires parser.Valid() && (parser.error.NoProblem? ==> YamlParser.OutsideDocuments(parser.state))
      modifies parser
      ensures parser.Valid()
      ensures r.Some? ==> r.value in {Failed, Aborted} && !parser.error.NoProblem?
      ensures r == Some(Failed) ==> old(parser.error.NoProblem?)
      ensures r == Some(Aborted) <==> old(!parser.error.NoProblem? && !parser.StreamStartProduced())
      ensures r.None? ==> parser.error == old(parser.error) && parser.streamEndProduced == old(parser.streamEndProduced)
      ensures r.None? && parser.error.NoProblem? ==> parser.Here() == if parser.streamEndProduced then [] else [InStream]
      ensures r.None? ==> parser.events == old(parser.events) + if old(parser.StreamStartProduced()) then [] else [StreamStart]
    {
      hide YamlParser.Parser.Valid, YamlParser.Parser.Can, YamlParser.Position, YamlParser.Weights, YamlParser.Weight, Accept;
      if parser.error.NoProblem? {
        AtBoundary();
      }
      if !parser.StreamStartProduced() {
        YamlParser.StreamAccepted();
        var ok, e := parser.Parse();
        if !ok {
          return Some(Failed);
        }
        FirstEvent();
        if e.None? || !e.value.StreamStart? {
          return Some(Aborted);
        }
        parser.AfterStart();
      }
      r := None;
    }

    /** yaml_parser_load_document */
    method LoadDocument(e: Event) returns (r: Result, ghost body: seq<Event>)
      requires e.DocumentStart? && parser.Valid() && parser.error.NoProblem? && parser.Here() == [InStream, AtRoot]
      modifies this, parser
      ensures parser.Valid() && (r.Failed? || r.Loaded?) && (r.Loaded? <==> parser.error.NoProblem?)
      ensures r.Loaded? ==> parser.events == old(parser.events) + body + [DocumentEnd(r.graph.endImplicit)]
      ensures r.Loaded? ==> IsLoad(body, r.graph) && HasHeader(e, r.graph) && parser.states == [] && parser.marks == []
    {
      hide Apply, ApplyAll, LoadOk, GraphOk, YamlParser.Parser.Valid, YamlParser.Position, InNodes;
      nodes, aliases, ctx := [], [], [];
      NothingLoaded();
      var ok, endImplicit;
      ok, endImplicit, body := LoadNodes();
      if !ok {
        return Failed, body;
      }
      assert ApplyAll(Loading([], [], []), body) == Some(Loading(nodes, aliases, []));
      r := Loaded(Graph(e.version, e.directives, e.implicit, endImplicit, nodes));
    }

    /** yaml_parser_load: without an error before, no assertion fails, and a
        document that is loaded is what the next events of the parser say. */
    method Load() returns (r: Result, ghost start: seq<Event>, ghost body: seq<Event>)
      requires parser.Valid() && (parser.error.NoProblem? ==> YamlParser.OutsideDocuments(parser.state))
      modifies this, parser
      ensures parser.Valid()
      ensures r.Aborted? <==> old(!parser.error.NoProblem? && !(parser.StreamStartProduced() && parser.streamEndProduced))
      ensures r.Failed? ==> !parser.error.NoProblem?
      ensures r.NoDocument? && old(parser.error.NoProblem?) ==> parser.error.NoProblem? && parser.streamEndProduced
      ensures r.Loaded? ==> parser.error.NoProblem? && IsLoad(body, r.graph)
      ensures r.Loaded? ==> start != [] && HasHeader(start[|start| - 1], r.graph)
      ensures r.Loaded? ==> parser.events == old(parser.events) + start + body + [DocumentEnd(r.graph.endImplicit)]
      ensures r.Loaded? ==> parser.states == [] && parser.marks == []
    {
      hide YamlParser.Parser.Valid, YamlParser.Position, IsLoad, HasHeader;
      ghost var before := parser.events;
      start, body := [], [];
      var early := LoadStreamStart();
      if early.Some? {
        return early.value, start, body;
      }
      start := parser.events[|before|..];
      if parser.streamEndProduced {
        return NoDocument, start, body;
      }
      var ok, e := ParseStart();
      if !ok {
        return Failed, start, body;
      }
      if e == Some(StreamEnd) {
        return NoDocument, start, body;
      }
      if e.None? || !e.value.DocumentStart? {
        return Aborted, start, body;
      }
      start := start + [e.value];
      r, body := LoadDocument(e.value);
    }

    /** The event that starts a document, or ends the stream. */
    method ParseStart() returns (ok: bool, e: Option<Event>)
      requires parser.Valid() && (parser.error.NoProblem? ==> parser.Here() == [InStream])
      modifies parser
      ensures parser.Valid() && parser.events == old(parser.events) + if e.Some? then [e.value] else []
      ensures !ok ==> old(parser.error.NoProblem?) && !parser.error.NoProblem?
      ensures ok && old(parser.error.NoProblem?) ==> parser.error.NoProblem? && e.Some?
      ensures ok && old(parser.error.NoProblem?) ==> if e.value.DocumentStart? then parser.Here() == [InStream, AtRoot] else e.value.StreamEnd? && parser.streamEndProduced
      ensures !old(parser.error.NoProblem?) ==> ok && e.None?
    {
      hide YamlParser.Parser.Valid, YamlParser.Parser.Can, YamlParser.Position, YamlParser.Weights, YamlParser.Weight, Accept;
      if parser.error.NoProblem? {
        parser.AfterStart();
      }
      ok, e := parser.Parse();
      if e.Some? {
        NextDocument(e.value);
        if e.value.StreamEnd? {
          parser.AfterEnd();
        }
      }
    }
  }

  /** The graph is what the events `body` of the nodes of a document say. */
  ghost predicate IsLoad(body: seq<Event>, g: Graph) {
    GraphOk(g.nodes) && exists aliases :: ApplyAll(Loading([], [], []), body) == Some(Loading(g.nodes, aliases, []))
  }

  predicate HasHeader(e: Event, g: Graph) {
    e == DocumentStart(g.version, g.directives, g.startImplicit)
  }

  /** A scanner that fails at once: the first load fails, and loading again trips the
      assertion about the start of the stream. */
  method LoadAgainExample() returns (first: Result, second: Result)
    ensures first.Failed? && second.Aborted?
  {
    hide YamlParser.Parser.Valid;
    var parser := new YamlParser.Parser([]);
    var l := new Loader(parser);
    ghost var start, body;
    first, start, body := l.Load();
    NothingCame(parser);
    second, start, body := l.Load();
  }

  /** No token leads to no whole stream. */
  lemma {:induction false} NothingCame(parser: YamlParser.Parser)
    requires parser.Valid() && parser.tokens == []
    ensures parser.parsed == 0 && |parser.events| <= 1 && !(parser.error.NoProblem? && parser.streamEndProduced)
  {
  }
}
