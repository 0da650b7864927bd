/** The grammar of YAML tokens at the top of parser.c: nodes with all their tokens, and
    the events that they stand for. */
module YamlGrammar {
  import opened CStrings
  import opened Options
  import opened YamlEvents

  /** What the scanner delivers. */
  datatype Kind =
    | StreamStartToken | StreamEndToken
    | VersionDirective(major: int, minor: int) | TagDirectiveToken(directive: TagDirective)
    | DocumentStartToken | DocumentEndToken
    | BlockSequenceStart | BlockMappingStart | BlockEnd
    | FlowSequenceStart | FlowSequenceEnd | FlowMappingStart | FlowMappingEnd
    | BlockEntry | FlowEntry | Key | Value
    | AliasToken(name: CString) | AnchorToken(name: CString)
    | Tag(handle: CString, suffix: CString)
    | ScalarToken(value: seq<byte>, style: ScalarStyle)

  // ---------------------------------------------------------------------
  // Tags
  // ---------------------------------------------------------------------

  const BANG: byte := 33

  /** What "!!" stands for unless a directive says otherwise: "tag:yaml.org,2002:". */
  const YAML_PREFIX: seq<byte> :=
    [116, 97, 103, 58, 121, 97, 109, 108, 46, 111, 114, 103, 44, 50, 48, 48, 50, 58]

  /** The tag that a tag token means under the directives `ds`. */
  function Resolve(ds: seq<TagDirective>, handle: CString, suffix: CString): Option<CString> {
    if handle == [] then Some(suffix)
    else if ds == [] then None
    else if ds[0].handle == handle then Some(ds[0].prefix + suffix)
    else Resolve(ds[1..], handle, suffix)
  }

  /** The directives every document has unless it defines the handle itself. */
  const DEFAULTS: seq<TagDirective> := [TagDirective([BANG], [BANG]), TagDirective([BANG, BANG], YAML_PREFIX)]

  /** `ds` and those of `more` whose handle is not defined yet. */
  function WithDefaults(ds: seq<TagDirective>, more: seq<TagDirective>): seq<TagDirective> {
    if more == [] then ds
    else
      var n := |more| - 1;
      var r := WithDefaults(ds, more[..n]);
      if Defines(r, more[n].handle) then r else r + [more[n]]
  }

  predicate Defines(ds: seq<TagDirective>, handle: CString) {
    exists i :: 0 <= i < |ds| && ds[i].handle == handle
  }

  /** The tag directives among some tokens. */
  function DirectivesIn(ks: seq<Kind>): seq<TagDirective> {
    if ks == [] then []
    else
      var k := ks[|ks| - 1];
      DirectivesIn(ks[..|ks| - 1]) + if k.TagDirectiveToken? then [k.directive] else []
  }

  /** The version directive among some tokens. */
  function VersionIn(ks: seq<Kind>): Option<(int, int)> {
    if ks == [] then None
    else
      var k := ks[|ks| - 1];
      if k.VersionDirective? then Some((k.major, k.minor)) else VersionIn(ks[..|ks| - 1])
  }

  // ---------------------------------------------------------------------
  // Nodes
  // ---------------------------------------------------------------------

  datatype Shape = BlockSequence | IndentlessSequence | BlockMapping | FlowSequence | FlowMapping | FlowPair

  /** A node with its tokens: one without children, or one with children, each behind the
      tokens that lead to it.  A node that is not there is `Single([])`. */
  datatype Syntax =
    | Single(kinds: seq<Kind>)
    | Compound(shape: Shape, props: seq<Kind>, children: seq<Child>, close: seq<Kind>)

  datatype Child = Child(lead: seq<Kind>, node: Syntax)

  const NOTHING := Single([])

  /** properties ::= TAG ANCHOR? | ANCHOR TAG?, or none */
  predicate IsProperties(ks: seq<Kind>) {
    || ks == []
    || (|ks| == 1 && (ks[0].AnchorToken? || ks[0].Tag?))
    || (|ks| == 2 && ((ks[0].AnchorToken? && ks[1].Tag?) || (ks[0].Tag? && ks[1].AnchorToken?)))
  }

  /** ALIAS | properties SCALAR? | SCALAR, or nothing */
  predicate IsSingle(ks: seq<Kind>) {
    || IsProperties(ks)
    || (|ks| == 1 && ks[0].AliasToken?)
    || (ks != [] && ks[|ks| - 1].ScalarToken? && IsProperties(ks[..|ks| - 1]))
  }

  /** Where a node stands: block_node, block_node_or_indentless_sequence, flow_node, or
      flow_sequence_entry. */
  datatype Place = InBlock | InBlockMapping | InFlow | InFlowSequence

  predicate AllowedShape(shape: Shape, place: Place) {
    match shape
    case BlockSequence => place.InBlock? || place.InBlockMapping?
    case BlockMapping => place.InBlock? || place.InBlockMapping?
    case IndentlessSequence => place.InBlockMapping?
    case FlowSequence => true
    case FlowMapping => true
    case FlowPair => place.InFlowSequence?
  }

  predicate Allowed(n: Syntax, place: Place) {
    n.Compound? ==> AllowedShape(n.shape, place)
  }

  function Opening(shape: Shape): seq<Kind> {
    match shape
    case BlockSequence => [BlockSequenceStart]
    case IndentlessSequence => []
    case BlockMapping => [BlockMappingStart]
    case FlowSequence => [FlowSequenceStart]
    case FlowMapping => [FlowMappingStart]
    case FlowPair => []
  }

  /** FLOW-ENTRY stands between the entries of a flow collection. */
  function Comma(i: nat): seq<Kind> {
    if i == 0 then [] else [FlowEntry]
  }

  predicate HasKey(lead: seq<Kind>) {
    lead != [] && lead[|lead| - 1].Key?
  }

  /** The tokens that lead to the child `i`, and what may stand there.  A mapping has keys
      and values in turn. */
  predicate ChildOk(shape: Shape, children: seq<Child>, i: nat)
    requires i < |children|
  {
    var Child(lead, n) := children[i];
    match shape
    case BlockSequence => lead == [BlockEntry] && Allowed(n, InBlock)
    case IndentlessSequence => lead == [BlockEntry] && Allowed(n, InBlock)
    case BlockMapping =>
      && Allowed(n, InBlockMapping)
      && if i % 2 == 0 then lead == [Key] else lead == [Value] || (lead == [] && n == NOTHING)
    case FlowSequence => lead == Comma(i) && n != NOTHING && Allowed(n, InFlowSequence)
    case FlowMapping =>
      && Allowed(n, InFlow)
      && if i % 2 == 0 then lead == Comma(i) + [Key] || (lead == Comma(i) && n != NOTHING)
         else (lead == [Value] && HasKey(children[i - 1].lead)) || (lead == [] && n == NOTHING)
    case FlowPair =>
      && Allowed(n, InFlow)
      && if i == 0 then (lead == [Key] && n != NOTHING) || (EmptyKey(lead) && n == NOTHING)
         else lead == [Value] || (lead == [] && n == NOTHING)
  }

  /** An empty key of a pair in a flow sequence takes the token behind it as well; here
      the parser departs from the grammar. */
  predicate EmptyKey(lead: seq<Kind>) {
    |lead| == 2 && lead[0].Key? && (lead[1].Value? || lead[1].FlowEntry? || lead[1].FlowSequenceEnd?)
  }

  predicate CloseOk(shape: Shape, children: seq<Child>, close: seq<Kind>) {
    match shape
    case BlockSequence => close == [BlockEnd]
    case IndentlessSequence => close == [] && children != []
    case BlockMapping => close == [BlockEnd] && |children| % 2 == 0
    case FlowSequence => close == [FlowSequenceEnd] || (close == [FlowEntry, FlowSequenceEnd] && children != [])
    case FlowMapping =>
      && |children| % 2 == 0
      && (close == [FlowMappingEnd] || (close == [FlowEntry, FlowMappingEnd] && children != []))
    case FlowPair => close == [] && |children| == 2
  }

  /** The node is one of the grammar. */
  ghost predicate SyntaxOk(n: Syntax) {
    match n
    case Single(kinds) => IsSingle(kinds)
    case Compound(shape, props, children, close) =>
      && IsProperties(props) && (shape.FlowPair? ==> props == []) && CloseOk(shape, children, close)
      && forall i :: 0 <= i < |children| ==> ChildOk(shape, children, i) && SyntaxOk(children[i].node)
  }

  /** All the tokens of a node. */
  function SyntaxKinds(n: Syntax): seq<Kind>
    decreases n
  {
    match n
    case Single(kinds) => kinds
    case Compound(shape, props, children, close) => props + Opening(shape) + ChildrenKinds(children) + close
  }

  function ChildrenKinds(cs: seq<Child>): seq<Kind>
    decreases cs
  {
    if cs == [] then []
    else
      var n := |cs| - 1;
      ChildrenKinds(cs[..n]) + (cs[n].lead + SyntaxKinds(cs[n].node))
  }

  function AnchorIn(ks: seq<Kind>): Option<CString> {
    if ks == [] then None else if ks[0].AnchorToken? then Some(ks[0].name) else AnchorIn(ks[1..])
  }

  function TagIn(ks: seq<Kind>, ds: seq<TagDirective>): Option<CString> {
    if ks == [] then None
    else if ks[0].Tag? then Resolve(ds, ks[0].handle, ks[0].suffix)
    else TagIn(ks[1..], ds)
  }

  /** A scalar can do without its tag if it has none, or if the tag is "!" and so says
      nothing: as a plain one, or as a quoted one. */
  function ScalarEvent(anchor: Option<CString>, tag: Option<CString>, value: seq<byte>, style: ScalarStyle): Event {
    var plain := (tag.None? && style.Plain?) || tag == Some([BANG]);
    Scalar(anchor, tag, value, plain, tag.None? && !plain, style)
  }

  predicate Implicit(tag: Option<CString>) {
    tag.None? || tag.value == []
  }

  /** The event of a node without children, under the directives `ds`. */
  function SingleEvent(ks: seq<Kind>, ds: seq<TagDirective>): Event {
    if ks == [] then EMPTY
    else
      var n := |ks| - 1;
      match ks[n]
      case AliasToken(name) => Alias(name)
      case ScalarToken(value, style) => ScalarEvent(AnchorIn(ks[..n]), TagIn(ks[..n], ds), value, style)
      case _ => Scalar(AnchorIn(ks), TagIn(ks, ds), [], Implicit(TagIn(ks, ds)), false, Plain)
  }

  const EMPTY: Event := Scalar(None, None, [], true, false, Plain)

  /** The event with which a collection starts. */
  function StartEvent(shape: Shape, props: seq<Kind>, ds: seq<TagDirective>): Event {
    var anchor, tag := AnchorIn(props), TagIn(props, ds);
    match shape
    case BlockSequence => SequenceStart(anchor, tag, Implicit(tag), Block)
    case IndentlessSequence => SequenceStart(anchor, tag, Implicit(tag), Block)
    case BlockMapping => MappingStart(anchor, tag, Implicit(tag), Block)
    case FlowSequence => SequenceStart(anchor, tag, Implicit(tag), Flow)
    case FlowMapping => MappingStart(anchor, tag, Implicit(tag), Flow)
    case FlowPair => MappingStart(anchor, tag, Implicit(tag), Flow)
  }

  function EndEvent(shape: Shape): Event {
    if shape.BlockSequence? || shape.IndentlessSequence? || shape.FlowSequence? then SequenceEnd else MappingEnd
  }

  /** What a node stands for: one event, or those of its children between two more. */
  function SyntaxEvents(n: Syntax, ds: seq<TagDirective>): seq<Event>
    decreases n
  {
    match n
    case Single(kinds) => [SingleEvent(kinds, ds)]
    case Compound(shape, props, children, _) =>
      [StartEvent(shape, props, ds)] + ChildrenEvents(children, ds) + [EndEvent(shape)]
  }

  function ChildrenEvents(cs: seq<Child>, ds: seq<TagDirective>): seq<Event>
    decreases cs
  {
    if cs == [] then []
    else
      var n := |cs| - 1;
      ChildrenEvents(cs[..n], ds) + SyntaxEvents(cs[n].node, ds)
  }

  // ---------------------------------------------------------------------
  // Documents
  // ---------------------------------------------------------------------

  /** A document: the directives and DOCUMENT-START, or nothing where it is implicit; the
      root; and how many times DOCUMENT-END. */
  datatype Doc = Doc(heads: seq<Kind>, root: Syntax, ends: nat)

  predicate IsDirective(k: Kind) {
    k.VersionDirective? || k.TagDirectiveToken?
  }

  predicate HeadsOk(heads: seq<Kind>) {
    heads == [] || (heads[|heads| - 1].DocumentStartToken? && forall i :: 0 <= i < |heads| - 1 ==> IsDirective(heads[i]))
  }

  /** Only the first document of a stream may be implicit, and it has a root. */
  ghost predicate DocOk(d: Doc, first: bool) {
    HeadsOk(d.heads) && SyntaxOk(d.root) && Allowed(d.root, InBlock) && (d.heads == [] ==> first && d.root != NOTHING)
  }

  ghost predicate DocsOk(ds: seq<Doc>) {
    forall i :: 0 <= i < |ds| ==> DocOk(ds[i], i == 0)
  }

  function Ends(n: nat): (r: seq<Kind>)
    ensures |r| == n
  {
    seq(n, i => DocumentEndToken)
  }

  /** The directives in force in a document. */
  function Scope(heads: seq<Kind>): seq<TagDirective> {
    WithDefaults(DirectivesIn(heads), DEFAULTS)
  }

  function StartOf(heads: seq<Kind>): Event {
    DocumentStart(VersionIn(heads), DirectivesIn(heads), heads == [])
  }

  function DocsKinds(docs: seq<Doc>): seq<Kind> {
    if docs == [] then []
    else
      var n := |docs| - 1;
      DocsKinds(docs[..n]) + (docs[n].heads + SyntaxKinds(docs[n].root) + Ends(docs[n].ends))
  }

  function DocsEvents(docs: seq<Doc>): seq<Event> {
    if docs == [] then []
    else
      var n := |docs| - 1;
      DocsEvents(docs[..n])
      + ([StartOf(docs[n].heads)] + SyntaxEvents(docs[n].root, Scope(docs[n].heads)) + [DocumentEnd(docs[n].ends == 0)])
  }

  /** stream ::= STREAM-START implicit_document? explicit_document* STREAM-END */
  function StreamKinds(docs: seq<Doc>): seq<Kind> {
    [StreamStartToken] + DocsKinds(docs) + [StreamEndToken]
  }

  function StreamEvents(docs: seq<Doc>): seq<Event> {
    [StreamStart] + DocsEvents(docs) + [StreamEnd]
  }
}
