/** Derivations by the grammar of YamlGrammar that are still going on: what the parser has
    read of a stream when it is in one of its states, and how one event takes it on. */
module YamlDerivation {
  import opened CStrings
  import opened Options
  import opened YamlEvents
  import opened YamlGrammar

  /** yaml_parser_state_t */
  datatype State =
    | PStreamStart | PImplicitDocumentStart | PDocumentStart | PDocumentContent | PDocumentEnd
    | PBlockNode | PBlockNodeOrIndentlessSequence | PFlowNode
    | PBlockSequenceFirstEntry | PBlockSequenceEntry | PIndentlessSequenceEntry
    | PBlockMappingFirstKey | PBlockMappingKey | PBlockMappingValue
    | PFlowSequenceFirstEntry | PFlowSequenceEntry
    | PFlowSequenceEntryMappingKey | PFlowSequenceEntryMappingValue | PFlowSequenceEntryMappingEnd
    | PFlowMappingFirstKey | PFlowMappingKey | PFlowMappingValue | PFlowMappingEmptyValue
    | PEnd

  /** The states that are saved while a node inside of a collection is parsed. */
  predicate InCollection(s: State) {
    || s.PBlockSequenceEntry? || s.PIndentlessSequenceEntry? || s.PBlockMappingKey? || s.PBlockMappingValue?
    || s.PFlowSequenceEntry? || s.PFlowSequenceEntryMappingValue? || s.PFlowSequenceEntryMappingEnd?
    || s.PFlowMappingKey? || s.PFlowMappingValue? || s.PFlowMappingEmptyValue?
  }

  /** Inside a document the saved states are those of the open collections, and
      below them what follows the document. */
  ghost predicate Saved(states: seq<State>) {
    states != [] && states[0].PDocumentEnd? && forall i :: 1 <= i < |states| ==> InCollection(states[i])
  }

  /** The states in which the parser waits for the node of a document. */
  predicate AwaitsRoot(s: State) {
    s.PBlockNode? || s.PDocumentContent?
  }

  // ---------------------------------------------------------------------
  // Collections that are not complete
  // ---------------------------------------------------------------------

  /** What has been read of a collection: its properties, then with `begun` the token that
      opens it, some children, and some of the tokens that lead to the next one. */
  datatype Partial = Partial(shape: Shape, props: seq<Kind>, begun: bool, children: seq<Child>, lead: seq<Kind>)

  ghost predicate PartialOk(p: Partial) {
    && IsProperties(p.props) && (p.shape.FlowPair? ==> p.props == []) && (!p.begun ==> p.children == [] && p.lead == [])
    && forall i :: 0 <= i < |p.children| ==> ChildOk(p.shape, p.children, i) && SyntaxOk(p.children[i].node)
  }

  function PartialKinds(p: Partial): seq<Kind> {
    p.props + (if p.begun then Opening(p.shape) else []) + ChildrenKinds(p.children) + p.lead
  }

  function PartialEvents(p: Partial, ds: seq<TagDirective>): seq<Event> {
    [StartEvent(p.shape, p.props, ds)] + ChildrenEvents(p.children, ds)
  }

  function OpenKinds(ps: seq<Partial>): seq<Kind> {
    if ps == [] then [] else OpenKinds(ps[..|ps| - 1]) + PartialKinds(ps[|ps| - 1])
  }

  function OpenEvents(ps: seq<Partial>, ds: seq<TagDirective>): seq<Event> {
    if ps == [] then [] else OpenEvents(ps[..|ps| - 1], ds) + PartialEvents(ps[|ps| - 1], ds)
  }

  /** Where a node stands behind which the parser goes on in that state. */
  function PlaceOf(s: State): Place {
    match s
    case PBlockMappingKey => InBlockMapping
    case PBlockMappingValue => InBlockMapping
    case PFlowSequenceEntry => InFlowSequence
    case PFlowSequenceEntryMappingValue => InFlow
    case PFlowSequenceEntryMappingEnd => InFlow
    case PFlowMappingKey => InFlow
    case PFlowMappingValue => InFlow
    case PFlowMappingEmptyValue => InFlow
    case _ => InBlock
  }

  /** Whether a node may be missing there. */
  predicate MayLack(s: State) {
    !s.PFlowSequenceEntry? && !s.PFlowSequenceEntryMappingValue? && !s.PFlowMappingEmptyValue?
  }

  predicate Takes(s: State, n: Syntax) {
    Allowed(n, PlaceOf(s)) && (n == NOTHING ==> MayLack(s))
  }

  /** The collection waits for a node, behind which the parser goes on in the state `s`. */
  predicate Hole(p: Partial, s: State) {
    var n := |p.children|;
    && p.begun
    && match s
       case PBlockSequenceEntry => p.shape.BlockSequence? && p.lead == [BlockEntry]
       case PIndentlessSequenceEntry => p.shape.IndentlessSequence? && p.lead == [BlockEntry]
       case PBlockMappingValue => p.shape.BlockMapping? && !Odd(n) && p.lead == [Key]
       case PBlockMappingKey => p.shape.BlockMapping? && Odd(n) && p.lead == [Value]
       case PFlowSequenceEntry => p.shape.FlowSequence? && p.lead == Comma(n)
       case PFlowSequenceEntryMappingValue => p.shape.FlowPair? && n == 0 && p.lead == [Key]
       case PFlowSequenceEntryMappingEnd => p.shape.FlowPair? && n == 1 && p.lead == [Value]
       case PFlowMappingValue => p.shape.FlowMapping? && !Odd(n) && p.lead == Comma(n) + [Key]
       case PFlowMappingEmptyValue => p.shape.FlowMapping? && !Odd(n) && p.lead == Comma(n)
       case PFlowMappingKey => p.shape.FlowMapping? && Odd(n) && p.lead == [Value] && HasKey(p.children[n - 1].lead)
       case _ => false
  }

  /** The state in which a collection starts. */
  function FirstState(shape: Shape): State {
    match shape
    case BlockSequence => PBlockSequenceFirstEntry
    case IndentlessSequence => PIndentlessSequenceEntry
    case BlockMapping => PBlockMappingFirstKey
    case FlowSequence => PFlowSequenceFirstEntry
    case FlowMapping => PFlowMappingFirstKey
    case FlowPair => PFlowSequenceEntryMappingKey
  }

  predicate Odd(n: nat) {
    n % 2 != 0
  }

  predicate IsFirst(s: State) {
    s.PBlockSequenceFirstEntry? || s.PBlockMappingFirstKey? || s.PFlowSequenceFirstEntry? || s.PFlowMappingFirstKey?
  }

  /** The innermost collection is the one that the parser is in. */
  predicate Top(p: Partial, s: State, next: Option<Kind>) {
    if IsFirst(s) then !p.begun && FirstState(p.shape) == s
    else if s.PFlowSequenceEntryMappingKey? then p.shape.FlowPair? && p.begun && p.children == [] && p.lead == [Key]
    else p.begun && p.lead == [] && Among(p, s, next)
  }

  /** Between two of its children. */
  predicate Among(p: Partial, s: State, next: Option<Kind>) {
    var n := |p.children|;
    match s
    case PBlockSequenceEntry => p.shape.BlockSequence?
    case PIndentlessSequenceEntry => p.shape.IndentlessSequence? && (n == 0 ==> next == Some(BlockEntry))
    case PBlockMappingKey => p.shape.BlockMapping? && !Odd(n)
    case PBlockMappingValue => p.shape.BlockMapping? && Odd(n)
    case PFlowSequenceEntry => p.shape.FlowSequence? && n > 0
    case PFlowSequenceEntryMappingValue => p.shape.FlowPair? && n == 1
    case PFlowSequenceEntryMappingEnd => p.shape.FlowPair? && n == 2
    case PFlowMappingKey => p.shape.FlowMapping? && !Odd(n) && n > 0
    case PFlowMappingValue => p.shape.FlowMapping? && Odd(n) && HasKey(p.children[n - 1].lead)
    case PFlowMappingEmptyValue => p.shape.FlowMapping? && Odd(n)
    case _ => false
  }

  /** A node joins the collection that waits for it. */
  function Put(p: Partial, n: Syntax): Partial {
    p.(children := p.children + [Child(p.lead, n)], lead := [])
  }

  lemma {:induction false} PutChild(p: Partial, s: State, n: Syntax)
    requires Hole(p, s) && Takes(s, n)
    ensures ChildOk(p.shape, Put(p, n).children, |p.children|)
  {
    hide SyntaxOk;
  }

  lemma {:induction false} PutOk(p: Partial, s: State, n: Syntax)
    requires PartialOk(p) && Hole(p, s) && SyntaxOk(n) && Takes(s, n)
    ensures PartialOk(Put(p, n))
  {
    PutChild(p, s, n);
    hide Hole, Takes, SyntaxOk, ChildOk;
    var children := Put(p, n).children;
    assert p.begun by { Begun(p, s); }
    forall i | 0 <= i < |children| ensures ChildOk(p.shape, children, i) && SyntaxOk(children[i].node) {
      if i < |p.children| {
        SameChild(p.shape, p.children, children, i);
      }
    }
  }

  lemma {:induction false} Begun(p: Partial, s: State)
    requires Hole(p, s)
    ensures p.begun
  {
  }

  lemma {:induction false} SameChild(shape: Shape, a: seq<Child>, b: seq<Child>, i: nat)
    requires i < |a| <= |b| && a <= b && ChildOk(shape, a, i)
    ensures ChildOk(shape, b, i)
  {
    assert b[i] == a[i];
    if i > 0 {
      assert b[i - 1] == a[i - 1];
    }
  }

  lemma {:induction false} PutTop(p: Partial, s: State, n: Syntax, next: Option<Kind>)
    requires Hole(p, s) && Takes(s, n)
    ensures Top(Put(p, n), s, next)
  {
  }

  lemma {:induction false} PutSays(p: Partial, n: Syntax, ds: seq<TagDirective>)
    ensures PartialKinds(Put(p, n)) == PartialKinds(p) + SyntaxKinds(n)
    ensures PartialEvents(Put(p, n), ds) == PartialEvents(p, ds) + SyntaxEvents(n, ds)
  {
    hide SyntaxKinds, SyntaxEvents;
    var cs := Put(p, n).children;
    assert cs[..|p.children|] == p.children;
  }

  /** The collections that the saved states, or the current one, stand for: those of a pair
      in a flow sequence are inside of that sequence. */
  function Levels(s: State): seq<State> {
    if s.PFlowSequenceEntryMappingKey? || s.PFlowSequenceEntryMappingValue? || s.PFlowSequenceEntryMappingEnd?
    then [PFlowSequenceEntry, s]
    else if s.PDocumentEnd? then []
    else [s]
  }

  function AllLevels(states: seq<State>): seq<State> {
    if states == [] then [] else AllLevels(states[..|states| - 1]) + Levels(states[|states| - 1])
  }

  /** The collection is allowed where it stands, inside of the first `i`. */
  ghost predicate Nests(p: Partial, levels: seq<State>, i: nat)
    requires i <= |levels|
  {
    PartialOk(p) && AllowedShape(p.shape, if i == 0 then InBlock else PlaceOf(levels[i - 1]))
  }

  /** All the open collections wait for nodes. */
  ghost predicate Wait(ps: seq<Partial>, levels: seq<State>) {
    |ps| == |levels| && forall i :: 0 <= i < |ps| ==> Nests(ps[i], levels, i) && Hole(ps[i], levels[i])
  }

  /** The open collections are those that the states stand for. */
  ghost predicate Open(ps: seq<Partial>, state: State, saved: seq<State>, next: Option<Kind>) {
    var levels := AllLevels(saved) + Levels(state);
    && |ps| == |levels| > 0 && Levels(state) != []
    && Wait(ps[..|ps| - 1], levels[..|ps| - 1]) && Nests(ps[|ps| - 1], levels, |ps| - 1) && Top(ps[|ps| - 1], state, next)
  }

  // ---------------------------------------------------------------------
  // Derivations
  // ---------------------------------------------------------------------

  /** What has been read of a stream. */
  datatype Derivation =
    | Unbegun
    | Documents(docs: seq<Doc>)
    | Unfinished(docs: seq<Doc>, heads: seq<Kind>, open: seq<Partial>)
    | Rooted(docs: seq<Doc>, heads: seq<Kind>, root: Syntax)
    | Finished(docs: seq<Doc>)

  function HeadKinds(docs: seq<Doc>, heads: seq<Kind>): seq<Kind> {
    [StreamStartToken] + DocsKinds(docs) + heads
  }

  function HeadEvents(docs: seq<Doc>, heads: seq<Kind>): seq<Event> {
    [StreamStart] + DocsEvents(docs) + [StartOf(heads)]
  }

  /** Its tokens. */
  function KindsOf(d: Derivation): seq<Kind> {
    match d
    case Unbegun => []
    case Documents(docs) => [StreamStartToken] + DocsKinds(docs)
    case Unfinished(docs, heads, open) => HeadKinds(docs, heads) + OpenKinds(open)
    case Rooted(docs, heads, root) => HeadKinds(docs, heads) + SyntaxKinds(root)
    case Finished(docs) => StreamKinds(docs)
  }

  /** What they stand for. */
  function EventsOf(d: Derivation): seq<Event> {
    match d
    case Unbegun => []
    case Documents(docs) => [StreamStart] + DocsEvents(docs)
    case Unfinished(docs, heads, open) => HeadEvents(docs, heads) + OpenEvents(open, Scope(heads))
    case Rooted(docs, heads, root) => HeadEvents(docs, heads) + SyntaxEvents(root, Scope(heads))
    case Finished(docs) => StreamEvents(docs)
  }

  /** The state of the parser between two events, and the token that comes next. */
  datatype Conf = Conf(state: State, saved: seq<State>, ds: seq<TagDirective>, next: Option<Kind>)

  ghost predicate HeadsFit(docs: seq<Doc>, heads: seq<Kind>) {
    DocsOk(docs) && HeadsOk(heads) && (heads == [] ==> docs == [])
  }

  /** The derivation is one by the grammar, and has come as far as the parser. */
  ghost predicate Fits(d: Derivation, c: Conf) {
    match d
    case Unbegun => c.state.PStreamStart? && c.saved == []
    case Documents(docs) =>
      && DocsOk(docs) && c.saved == []
      && (docs == [] ==> c.state.PImplicitDocumentStart?)
      && (docs != [] ==> c.state.PDocumentStart? && (docs[|docs| - 1].ends == 0 ==> c.next != Some(DocumentEndToken)))
    case Unfinished(docs, heads, open) =>
      && HeadsFit(docs, heads) && c.ds == Scope(heads)
      && if AwaitsRoot(c.state) then open == [] && c.saved == [PDocumentEnd] && (c.state.PBlockNode? <==> heads == [])
         else Saved(c.saved) && Open(open, c.state, c.saved, c.next)
    case Rooted(docs, heads, root) =>
      HeadsFit(docs, heads) && DocOk(Doc(heads, root, 0), docs == []) && c.state.PDocumentEnd? && c.saved == []
    case Finished(docs) => DocsOk(docs) && c.state.PEnd? && c.saved == []
  }

  // ---------------------------------------------------------------------
  // One event
  // ---------------------------------------------------------------------

  function NodePlace(block: bool, indentless: bool): Place {
    if indentless then InBlockMapping else if block then InBlock else InFlow
  }

  /** A node with the tokens `own` that is complete, or a collection with these
      properties; then the parser goes on in the state saved last. */
  ghost predicate NodeStep(saved: seq<State>, ds: seq<TagDirective>, place: Place, own: seq<Kind>, e: Event, c': Conf) {
    && c'.ds == ds && saved != []
    && if c'.saved == saved then
         exists shape ::
           && c'.state == FirstState(shape) && AllowedShape(shape, place) && IsProperties(own)
           && !shape.FlowPair? && (shape.IndentlessSequence? ==> c'.next == Some(BlockEntry))
           && e == StartEvent(shape, own, ds)
       else
         && own != [] && IsSingle(own) && e == SingleEvent(own, ds)
         && c'.state == saved[|saved| - 1] && c'.saved == saved[..|saved| - 1]
  }

  /** The node that is to come, behind which the parser goes on in the state `s`. */
  ghost predicate Node(c: Conf, s: State, place: Place, own: seq<Kind>, e: Event, c': Conf) {
    NodeStep(c.saved + [s], c.ds, place, own, e, c')
  }

  /** The node is missing. */
  ghost predicate Lacks(c: Conf, s: State, own: seq<Kind>, e: Event, c': Conf) {
    own == [] && e == EMPTY && c' == Conf(s, c.saved, c.ds, c'.next)
  }

  /** The collection ends. */
  ghost predicate Ended(c: Conf, end: Event, own: seq<Kind>, e: Event, c': Conf)
    requires c.saved != []
  {
    own == [] && e == end && c' == Conf(c.saved[|c.saved| - 1], c.saved[..|c.saved| - 1], c.ds, c'.next)
  }

  /** One event inside of a collection. */
  ghost predicate CollectionStep(c: Conf, lead: seq<Kind>, own: seq<Kind>, e: Event, c': Conf)
    requires c.saved != []
  {
    match c.state
    case PBlockSequenceFirstEntry => BlockSequenceStep(c, [BlockSequenceStart], lead, own, e, c')
    case PBlockSequenceEntry => BlockSequenceStep(c, [], lead, own, e, c')
    case PIndentlessSequenceEntry =>
      || (lead == [BlockEntry] && (Node(c, PIndentlessSequenceEntry, InBlock, own, e, c') || Lacks(c, PIndentlessSequenceEntry, own, e, c')))
      || (lead == [] && c.next != Some(BlockEntry) && Ended(c, SequenceEnd, own, e, c'))
    case PBlockMappingFirstKey => BlockMappingStep(c, [BlockMappingStart], lead, own, e, c')
    case PBlockMappingKey => BlockMappingStep(c, [], lead, own, e, c')
    case PBlockMappingValue =>
      || (lead == [Value] && Node(c, PBlockMappingKey, InBlockMapping, own, e, c'))
      || ((lead == [Value] || lead == []) && Lacks(c, PBlockMappingKey, own, e, c'))
    case PFlowSequenceFirstEntry => FlowSequenceStep(c, [FlowSequenceStart], [FlowSequenceStart], lead, own, e, c')
    case PFlowSequenceEntry => FlowSequenceStep(c, [], [FlowEntry], lead, own, e, c')
    case PFlowSequenceEntryMappingKey =>
      || (lead == [] && Node(c, PFlowSequenceEntryMappingValue, InFlow, own, e, c'))
      || (EmptyKey([Key] + lead) && Lacks(c, PFlowSequenceEntryMappingValue, own, e, c'))
    case PFlowSequenceEntryMappingValue =>
      || (lead == [Value] && Node(c, PFlowSequenceEntryMappingEnd, InFlow, own, e, c'))
      || ((lead == [Value] || lead == []) && Lacks(c, PFlowSequenceEntryMappingEnd, own, e, c'))
    case PFlowSequenceEntryMappingEnd =>
      lead == [] && own == [] && e == MappingEnd && c' == Conf(PFlowSequenceEntry, c.saved, c.ds, c'.next)
    case PFlowMappingFirstKey => FlowMappingStep(c, [FlowMappingStart], [FlowMappingStart], lead, own, e, c')
    case PFlowMappingKey => FlowMappingStep(c, [], [FlowEntry], lead, own, e, c')
    case PFlowMappingValue =>
      || (lead == [Value] && Node(c, PFlowMappingKey, InFlow, own, e, c'))
      || ((lead == [Value] || lead == []) && Lacks(c, PFlowMappingKey, own, e, c'))
    case PFlowMappingEmptyValue => lead == [] && Lacks(c, PFlowMappingKey, own, e, c')
    case _ => false
  }

  ghost predicate BlockSequenceStep(c: Conf, first: seq<Kind>, lead: seq<Kind>, own: seq<Kind>, e: Event, c': Conf)
    requires c.saved != []
  {
    || (lead == first + [BlockEntry] && (Node(c, PBlockSequenceEntry, InBlock, own, e, c') || Lacks(c, PBlockSequenceEntry, own, e, c')))
    || (lead == first + [BlockEnd] && Ended(c, SequenceEnd, own, e, c'))
  }

  ghost predicate BlockMappingStep(c: Conf, first: seq<Kind>, lead: seq<Kind>, own: seq<Kind>, e: Event, c': Conf)
    requires c.saved != []
  {
    || (lead == first + [Key] && (Node(c, PBlockMappingValue, InBlockMapping, own, e, c') || Lacks(c, PBlockMappingValue, own, e, c')))
    || (lead == first + [BlockEnd] && Ended(c, MappingEnd, own, e, c'))
  }

  /** `first`: what comes before the end; `comma`: what comes before an entry. */
  ghost predicate FlowSequenceStep(c: Conf, first: seq<Kind>, comma: seq<Kind>, lead: seq<Kind>, own: seq<Kind>, e: Event, c': Conf)
    requires c.saved != []
  {
    || (lead == comma && Node(c, PFlowSequenceEntry, InFlow, own, e, c'))
    || (lead == comma + [Key] && own == [] && e == MappingStart(None, None, true, Flow)
        && c' == Conf(PFlowSequenceEntryMappingKey, c.saved, c.ds, c'.next))
    || ((lead == first + [FlowSequenceEnd] || lead == comma + [FlowSequenceEnd]) && Ended(c, SequenceEnd, own, e, c'))
  }

  ghost predicate FlowMappingStep(c: Conf, first: seq<Kind>, comma: seq<Kind>, lead: seq<Kind>, own: seq<Kind>, e: Event, c': Conf)
    requires c.saved != []
  {
    || (lead == comma && Node(c, PFlowMappingEmptyValue, InFlow, own, e, c'))
    || (lead == comma + [Key] && (Node(c, PFlowMappingValue, InFlow, own, e, c') || Lacks(c, PFlowMappingValue, own, e, c')))
    || ((lead == first + [FlowMappingEnd] || lead == comma + [FlowMappingEnd]) && Ended(c, MappingEnd, own, e, c'))
  }

  /** One event outside of collections. */
  ghost predicate DocumentStep(c: Conf, lead: seq<Kind>, own: seq<Kind>, e: Event, c': Conf) {
    match c.state
    case PStreamStart => lead == [StreamStartToken] && own == [] && e == StreamStart && c' == Conf(PImplicitDocumentStart, [], c'.ds, c'.next)
    case PImplicitDocumentStart => lead == [] && StartStep(c, own, e, c')
    case PDocumentStart =>
      && lead == Ends(|lead|) && (lead != [] ==> c.next == Some(DocumentEndToken)) && own != []
      && StartStep(c, own, e, c')
    case PDocumentContent =>
      && lead == []
      && (NodeStep([PDocumentEnd], c.ds, InBlock, own, e, c')
          || (own == [] && e == EMPTY && c' == Conf(PDocumentEnd, [], c.ds, c'.next)))
    case PBlockNode => lead == [] && NodeStep([PDocumentEnd], c.ds, InBlock, own, e, c')
    case PDocumentEnd =>
      && (lead == [DocumentEndToken] || (lead == [] && c'.next != Some(DocumentEndToken))) && own == []
      && e == DocumentEnd(lead == []) && c' == Conf(PDocumentStart, [], c'.ds, c'.next)
    case _ => false
  }

  /** The start of a document, or the end of the stream. */
  ghost predicate StartStep(c: Conf, own: seq<Kind>, e: Event, c': Conf) {
    || (HeadsOk(own) && e == StartOf(own) && c'.ds == Scope(own) && c'.saved == [PDocumentEnd]
        && c'.state == if own == [] then PBlockNode else PDocumentContent)
    || (own == [StreamEndToken] && e == StreamEnd && c' == Conf(PEnd, [], c'.ds, c'.next))
  }

  ghost predicate InsideCollection(s: State) {
    InCollection(s) || s.PFlowSequenceEntryMappingKey? || s.PBlockSequenceFirstEntry? || s.PBlockMappingFirstKey?
    || s.PFlowSequenceFirstEntry? || s.PFlowMappingFirstKey?
  }

  /** One event: the tokens `lead` and then `own` have been taken for it. */
  ghost predicate Step(c: Conf, lead: seq<Kind>, own: seq<Kind>, e: Event, c': Conf) {
    if InsideCollection(c.state) then c.saved != [] && CollectionStep(c, lead, own, e, c')
    else DocumentStep(c, lead, own, e, c')
  }

  // ---------------------------------------------------------------------
  // One event takes a derivation on
  // ---------------------------------------------------------------------

  /** The derivation `d'` has these tokens and this event more. */
  ghost predicate Advances(d: Derivation, d': Derivation, ks: seq<Kind>, e: Event, c': Conf) {
    Fits(d', c') && KindsOf(d') == KindsOf(d) + ks && EventsOf(d') == EventsOf(d) + [e]
  }

  lemma {:induction false} OpenOne(ps: seq<Partial>, p: Partial, ds: seq<TagDirective>)
    ensures OpenKinds(ps + [p]) == OpenKinds(ps) + PartialKinds(p)
    ensures OpenEvents(ps + [p], ds) == OpenEvents(ps, ds) + PartialEvents(p, ds)
  {
    hide PartialKinds, PartialEvents;
    assert (ps + [p])[..|ps|] == ps;
  }

  lemma {:induction false} LevelsOne(saved: seq<State>, s: State)
    ensures AllLevels(saved + [s]) == AllLevels(saved) + Levels(s)
  {
    assert (saved + [s])[..|saved|] == saved;
  }

  /** The innermost saved state is that of the innermost collection. */
  lemma {:induction false} LastLevel(saved: seq<State>)
    requires Saved(saved)
    ensures var n := |saved| - 1; var s := saved[n];
      && AllLevels(saved) == AllLevels(saved[..n]) + Levels(s)
      && if n == 0 then s == PDocumentEnd && AllLevels(saved) == []
         else InCollection(s) && Saved(saved[..n]) && AllLevels(saved) != [] && AllLevels(saved)[|AllLevels(saved)| - 1] == s
  {
    var n := |saved| - 1;
    if n == 0 {
      assert saved[..0] == [];
    } else {
      assert InCollection(saved[n]);
    }
  }

  /** What a derivation is once the node that its innermost collection waits for is complete. */
  function Completed(docs: seq<Doc>, heads: seq<Kind>, open: seq<Partial>, n: Syntax): Derivation {
    if open == [] then Rooted(docs, heads, n)
    else Unfinished(docs, heads, open[..|open| - 1] + [Put(open[|open| - 1], n)])
  }

  /** It has the tokens and the events of the node more. */
  lemma {:induction false} CompletedSays(docs: seq<Doc>, heads: seq<Kind>, open: seq<Partial>, n: Syntax)
    ensures var d, d' := Unfinished(docs, heads, open), Completed(docs, heads, open, n);
      KindsOf(d') == KindsOf(d) + SyntaxKinds(n) && EventsOf(d') == EventsOf(d) + SyntaxEvents(n, Scope(heads))
  {
    hide SyntaxKinds, SyntaxEvents, Scope, HeadKinds, HeadEvents, PartialKinds, PartialEvents, Put, OpenKinds, OpenEvents;
    if open == [] {
      NoneOpen(Scope(heads));
    } else {
      var m := |open| - 1;
      var p := open[m];
      assert open == open[..m] + [p];
      OpenOne(open[..m], p, Scope(heads));
      OpenOne(open[..m], Put(p, n), Scope(heads));
      PutSays(p, n, Scope(heads));
    }
  }

  lemma {:induction false} NoneOpen(ds: seq<TagDirective>)
    ensures OpenKinds([]) == [] && OpenEvents([], ds) == []
  {
  }

  /** What waits for the node that is to come. */
  ghost predicate Awaits(docs: seq<Doc>, heads: seq<Kind>, open: seq<Partial>, saved: seq<State>) {
    HeadsFit(docs, heads) && Saved(saved) && Wait(open, AllLevels(saved))
  }

  lemma {:induction false} NodeComplete(docs: seq<Doc>, heads: seq<Kind>, open: seq<Partial>, saved: seq<State>, n: Syntax, c': Conf)
    requires HeadsFit(docs, heads) && Saved(saved) && Wait(open, AllLevels(saved)) && SyntaxOk(n) && Takes(saved[|saved| - 1], n)
    requires open == [] && n == NOTHING ==> heads != []
    requires c' == Conf(saved[|saved| - 1], saved[..|saved| - 1], Scope(heads), c'.next)
    ensures Fits(Completed(docs, heads, open, n), c')
  {
    LastLevel(saved);
    hide *;
    if |saved| == 1 {
      NoneWait(open);
      RootFits(docs, heads, n, c');
    } else {
      PutOpen(open, saved, n, c'.next);
      SomeLevel(saved[|saved| - 1]);
      OpenFits(docs, heads, open[..|open| - 1] + [Put(open[|open| - 1], n)], c');
      CompletedIs(docs, heads, open, n);
    }
  }

  lemma {:induction false} CompletedIs(docs: seq<Doc>, heads: seq<Kind>, open: seq<Partial>, n: Syntax)
    requires open != []
    ensures Completed(docs, heads, open, n) == Unfinished(docs, heads, open[..|open| - 1] + [Put(open[|open| - 1], n)])
  {
  }

  lemma {:induction false} OpenFits(docs: seq<Doc>, heads: seq<Kind>, open: seq<Partial>, c: Conf)
    requires HeadsFit(docs, heads) && c.ds == Scope(heads) && !AwaitsRoot(c.state)
    requires Saved(c.saved) && Open(open, c.state, c.saved, c.next)
    ensures Fits(Unfinished(docs, heads, open), c)
  {
  }

  lemma {:induction false} NoneWait(ps: seq<Partial>)
    requires Wait(ps, [])
    ensures ps == []
  {
  }

  /** The innermost collection has one child more. */
  lemma {:induction false} PutOpen(open: seq<Partial>, saved: seq<State>, n: Syntax, next: Option<Kind>)
    requires Saved(saved) && |saved| > 1 && Wait(open, AllLevels(saved)) && SyntaxOk(n) && Takes(saved[|saved| - 1], n)
    ensures open != [] && Open(open[..|open| - 1] + [Put(open[|open| - 1], n)], saved[|saved| - 1], saved[..|saved| - 1], next)
  {
    LastLevel(saved);
    hide *;
    var levels, n' := AllLevels(saved), |saved| - 1;
    WaitLast(open, levels);
    PutLast(open[..|open| - 1], open[|open| - 1], saved[n'], saved[..n'], n, next);
  }

  lemma {:induction false} PutLast(below: seq<Partial>, p: Partial, s: State, outer: seq<State>, n: Syntax, next: Option<Kind>)
    requires InCollection(s) && SyntaxOk(n) && Takes(s, n) && Hole(p, s)
    requires var levels := AllLevels(outer) + Levels(s);
      |levels| == |below| + 1 && Wait(below, levels[..|below|]) && Nests(p, levels, |below|)
    ensures Open(below + [Put(p, n)], s, outer, next)
  {
    hide *;
    PutTop(p, s, n, next);
    PutNests(p, s, n, AllLevels(outer) + Levels(s), |below|);
    SomeLevel(s);
    OpenIf(below, Put(p, n), s, outer, next);
  }

  lemma {:induction false} OpenIf(below: seq<Partial>, p: Partial, state: State, saved: seq<State>, next: Option<Kind>)
    requires var levels := AllLevels(saved) + Levels(state);
      && |below| + 1 == |levels| && Levels(state) != []
      && Wait(below, levels[..|below|]) && Nests(p, levels, |below|) && Top(p, state, next)
    ensures Open(below + [p], state, saved, next)
  {
    hide Wait, Nests, Top, AllLevels, Levels;
    assert (below + [p])[..|below|] == below;
  }

  lemma {:induction false} PutNests(p: Partial, s: State, n: Syntax, levels: seq<State>, i: nat)
    requires i <= |levels| && Nests(p, levels, i) && Hole(p, s) && SyntaxOk(n) && Takes(s, n)
    ensures Nests(Put(p, n), levels, i)
  {
    PutOk(p, s, n);
  }

  lemma {:induction false} SomeLevel(s: State)
    requires InCollection(s)
    ensures Levels(s) != [] && !AwaitsRoot(s)
  {
  }

  lemma {:induction false} RootFits(docs: seq<Doc>, heads: seq<Kind>, n: Syntax, c': Conf)
    requires HeadsFit(docs, heads) && SyntaxOk(n) && Takes(PDocumentEnd, n) && (n == NOTHING ==> heads != [])
    requires c'.state == PDocumentEnd && c'.saved == []
    ensures Fits(Completed(docs, heads, [], n), c')
  {
  }

  lemma {:induction false} WaitLast(ps: seq<Partial>, levels: seq<State>)
    requires Wait(ps, levels) && levels != []
    ensures |ps| == |levels|
    ensures var m := |ps| - 1; Wait(ps[..m], levels[..m]) && Nests(ps[m], levels, m) && Hole(ps[m], levels[m])
  {
    hide Hole, PartialOk, AllowedShape;
    var m := |ps| - 1;
    var qs, ls := ps[..m], levels[..m];
    forall i | 0 <= i < |qs| ensures Nests(qs[i], ls, i) && Hole(qs[i], ls[i]) {
      assert Nests(ps[i], levels, i) && Hole(ps[i], levels[i]);
    }
  }

  /** A node that is allowed at `place` is so before the state `s`. */
  predicate Suits(place: Place, s: State) {
    place == PlaceOf(s) || (place.InFlow? && s.PFlowSequenceEntry?)
  }

  /** A node has been read, or a collection starts. */
  lemma {:induction false} NodeDerives(docs: seq<Doc>, heads: seq<Kind>, open: seq<Partial>, saved: seq<State>, place: Place,
                                       own: seq<Kind>, e: Event, c': Conf) returns (d': Derivation)
    requires HeadsFit(docs, heads) && Saved(saved) && Wait(open, AllLevels(saved)) && Suits(place, saved[|saved| - 1])
    requires NodeStep(saved, Scope(heads), place, own, e, c')
    ensures Advances(Unfinished(docs, heads, open), d', own, e, c')
  {
    hide HeadsFit, Saved, Wait, AllLevels, Scope, Suits, Advances, AllowedShape, IsProperties, IsSingle, StartEvent, SingleEvent;
    if c'.saved == saved {
      var shape :| c'.state == FirstState(shape) && AllowedShape(shape, place) && IsProperties(own)
                   && !shape.FlowPair? && (shape.IndentlessSequence? ==> c'.next == Some(BlockEntry))
                   && e == StartEvent(shape, own, Scope(heads));
      d' := Unfinished(docs, heads, open + [Begin(shape, own)]);
      NodeBegins(docs, heads, open, saved, place, shape, own, c');
    } else {
      d' := Completed(docs, heads, open, Single(own));
      NodeSingle(docs, heads, open, saved, own, c');
    }
  }

  function Begin(shape: Shape, props: seq<Kind>): Partial {
    Partial(shape, props, shape.IndentlessSequence?, [], [])
  }

  lemma {:induction false} NodeSingle(docs: seq<Doc>, heads: seq<Kind>, open: seq<Partial>, saved: seq<State>, own: seq<Kind>, c': Conf)
    requires HeadsFit(docs, heads) && Saved(saved) && Wait(open, AllLevels(saved)) && own != [] && IsSingle(own)
    requires c' == Conf(saved[|saved| - 1], saved[..|saved| - 1], Scope(heads), c'.next)
    ensures Advances(Unfinished(docs, heads, open), Completed(docs, heads, open, Single(own)), own, SingleEvent(own, Scope(heads)), c')
  {
    SingleIs(own, saved[|saved| - 1], Scope(heads));
    CompletedSays(docs, heads, open, Single(own));
    hide HeadsFit, Saved, Wait, AllLevels, Scope, Fits, KindsOf, EventsOf, SyntaxOk, Takes, Completed, SyntaxKinds, SyntaxEvents;
    NodeComplete(docs, heads, open, saved, Single(own), c');
  }

  lemma {:induction false} SingleIs(own: seq<Kind>, s: State, ds: seq<TagDirective>)
    requires own != [] && IsSingle(own)
    ensures SyntaxOk(Single(own)) && Takes(s, Single(own)) && Single(own) != NOTHING
    ensures SyntaxKinds(Single(own)) == own && SyntaxEvents(Single(own), ds) == [SingleEvent(own, ds)]
  {
  }

  lemma {:induction false} NodeBegins(docs: seq<Doc>, heads: seq<Kind>, open: seq<Partial>, saved: seq<State>, place: Place,
                                      shape: Shape, own: seq<Kind>, c': Conf)
    requires HeadsFit(docs, heads) && Saved(saved) && Wait(open, AllLevels(saved)) && Suits(place, saved[|saved| - 1])
    requires c' == Conf(FirstState(shape), saved, Scope(heads), c'.next) && AllowedShape(shape, place) && IsProperties(own)
    requires !shape.FlowPair? && (shape.IndentlessSequence? ==> c'.next == Some(BlockEntry))
    ensures Advances(Unfinished(docs, heads, open), Unfinished(docs, heads, open + [Begin(shape, own)]), own,
                     StartEvent(shape, own, Scope(heads)), c')
  {
    hide *;
    var p := Begin(shape, own);
    BeginIs(shape, own, c'.next, Scope(heads));
    BeginNests(open, saved, place, shape, own);
    WaitLength(open, AllLevels(saved));
    var levels := AllLevels(saved) + Levels(c'.state);
    assert levels[..|open|] == AllLevels(saved);
    OpenIf(open, p, c'.state, saved, c'.next);
    OpenFits(docs, heads, open + [p], c');
    OpenOne(open, p, Scope(heads));
    OneMoreOpen(docs, heads, open, p, own, c');
  }

  lemma {:induction false} OneMoreOpen(docs: seq<Doc>, heads: seq<Kind>, open: seq<Partial>, p: Partial, own: seq<Kind>, c': Conf)
    requires Fits(Unfinished(docs, heads, open + [p]), c') && PartialKinds(p) == own
    requires PartialEvents(p, Scope(heads)) == [StartEvent(p.shape, p.props, Scope(heads))]
    ensures Advances(Unfinished(docs, heads, open), Unfinished(docs, heads, open + [p]), own,
                     StartEvent(p.shape, p.props, Scope(heads)), c')
  {
    hide *;
    OpenSays(docs, heads, open, p);
    AdvancesIf(Unfinished(docs, heads, open), Unfinished(docs, heads, open + [p]), own, StartEvent(p.shape, p.props, Scope(heads)), c');
  }

  lemma {:induction false} WaitLength(ps: seq<Partial>, levels: seq<State>)
    requires Wait(ps, levels)
    ensures |ps| == |levels|
  {
  }

  lemma {:induction false} BeginIs(shape: Shape, own: seq<Kind>, next: Option<Kind>, ds: seq<TagDirective>)
    requires !shape.FlowPair? && (shape.IndentlessSequence? ==> next == Some(BlockEntry)) && IsProperties(own)
    ensures var p := Begin(shape, own);
      && p.shape == shape && p.props == own && PartialOk(p) && Top(p, FirstState(shape), next)
      && PartialKinds(p) == own && PartialEvents(p, ds) == [StartEvent(shape, own, ds)]
      && Levels(FirstState(shape)) == [FirstState(shape)] && !AwaitsRoot(FirstState(shape))
  {
  }

  lemma {:induction false} BeginNests(open: seq<Partial>, saved: seq<State>, place: Place, shape: Shape, own: seq<Kind>)
    requires Saved(saved) && Wait(open, AllLevels(saved)) && Suits(place, saved[|saved| - 1])
    requires AllowedShape(shape, place) && PartialOk(Begin(shape, own)) && !shape.FlowPair?
    ensures Nests(Begin(shape, own), AllLevels(saved) + Levels(FirstState(shape)), |open|)
  {
    hide PartialOk, AllLevels, Saved;
    WaitLength(open, AllLevels(saved));
    LastLevel(saved);
  }

  /** Some tokens more lead to the next child. */
  function Led(p: Partial, ks: seq<Kind>): Partial {
    p.(begun := true, lead := p.lead + ks)
  }

  /** The token that opens the collection, where it comes first. */
  function Pre(p: Partial): seq<Kind> {
    if p.begun then [] else Opening(p.shape)
  }

  lemma {:induction false} LedSays(p: Partial, ks: seq<Kind>, ds: seq<TagDirective>)
    requires PartialOk(p)
    ensures PartialOk(Led(p, ks))
    ensures PartialKinds(Led(p, ks)) == PartialKinds(p) + (Pre(p) + ks) && PartialEvents(Led(p, ks), ds) == PartialEvents(p, ds)
  {
    hide ChildrenEvents, Opening;
    assert ChildrenKinds([]) == [];
  }

  /** The innermost collection, and those around it. */
  lemma {:induction false} OpenIs(open: seq<Partial>, state: State, saved: seq<State>, next: Option<Kind>)
    requires Open(open, state, saved, next)
    ensures var levels := AllLevels(saved) + Levels(state);
      && |open| == |levels| > 0 && Levels(state) != []
      && Wait(open[..|open| - 1], levels[..|open| - 1]) && Nests(open[|open| - 1], levels, |open| - 1)
      && PartialOk(open[|open| - 1]) && Top(open[|open| - 1], state, next)
  {
    hide Wait, AllLevels, Levels, Top;
  }

  /** Two states of the same collections. */
  predicate Alike(s: State, t: State) {
    && Levels(s) != [] && |Levels(s)| == |Levels(t)|
    && Levels(t)[|Levels(t)| - 1] == t && Levels(s)[..|Levels(s)| - 1] == Levels(t)[..|Levels(t)| - 1]
  }

  lemma {:induction false} WaitMore(ps: seq<Partial>, p: Partial, levels: seq<State>)
    requires |levels| == |ps| + 1 && Wait(ps, levels[..|ps|]) && Nests(p, levels, |ps|) && Hole(p, levels[|ps|])
    ensures Wait(ps + [p], levels)
  {
    hide PartialOk, AllowedShape, Hole;
    forall i | 0 <= i < |ps| ensures Nests(ps[i], levels, i) && Hole(ps[i], levels[i]) {
      assert Nests(ps[i], levels[..|ps|], i) && Hole(ps[i], levels[..|ps|][i]);
    }
  }

  /** The innermost collection waits for its next child. */
  lemma {:induction false} Leads(open: seq<Partial>, state: State, saved: seq<State>, next: Option<Kind>, s: State, ks: seq<Kind>)
    requires Open(open, state, saved, next) && Alike(state, s) && open != [] && Hole(Led(open[|open| - 1], ks), s)
    ensures Wait(open[..|open| - 1] + [Led(open[|open| - 1], ks)], AllLevels(saved + [s]))
  {
    OpenIs(open, state, saved, next);
    LevelsOne(saved, s);
    hide *;
    var m := |open| - 1;
    LedSays(open[m], ks, []);
    SameNest(open[m], Led(open[m], ks), saved, state, s, m);
    WaitMore(open[..m], Led(open[m], ks), AllLevels(saved + [s]));
  }

  lemma {:induction false} SameNest(p: Partial, q: Partial, saved: seq<State>, state: State, s: State, m: nat)
    requires Alike(state, s) && |AllLevels(saved) + Levels(state)| == m + 1 && q.shape == p.shape && PartialOk(q)
    requires Nests(p, AllLevels(saved) + Levels(state), m)
    ensures var a, b := AllLevels(saved) + Levels(state), AllLevels(saved) + Levels(s);
      |b| == m + 1 && a[..m] == b[..m] && b[m] == s && Nests(q, b, m)
  {
    hide PartialOk, AllowedShape, AllLevels, Levels;
    var a, b := AllLevels(saved) + Levels(state), AllLevels(saved) + Levels(s);
    var k := |AllLevels(saved)|;
    forall i | 0 <= i < m ensures a[i] == b[i] {
      if i >= k {
        assert Levels(state)[..|Levels(state)| - 1][i - k] == Levels(s)[..|Levels(s)| - 1][i - k];
      }
    }
  }

  /** Other tokens in the innermost collection, with the same events. */
  lemma {:induction false} TopSays(docs: seq<Doc>, heads: seq<Kind>, below: seq<Partial>, p: Partial, q: Partial, ks: seq<Kind>, es: seq<Event>)
    requires PartialKinds(q) == PartialKinds(p) + ks && PartialEvents(q, Scope(heads)) == PartialEvents(p, Scope(heads)) + es
    ensures var d, d' := Unfinished(docs, heads, below + [p]), Unfinished(docs, heads, below + [q]);
      KindsOf(d') == KindsOf(d) + ks && EventsOf(d') == EventsOf(d) + es
  {
    hide PartialKinds, PartialEvents, Scope, HeadKinds, HeadEvents, OpenKinds, OpenEvents;
    OpenOne(below, p, Scope(heads));
    OpenOne(below, q, Scope(heads));
  }

  /** Tokens that lead to a node, and then the node, or nothing. */
  lemma {:induction false} GoOn(docs: seq<Doc>, heads: seq<Kind>, open: seq<Partial>, c: Conf, s: State, place: Place,
                                ks: seq<Kind>, own: seq<Kind>, e: Event, c': Conf) returns (d': Derivation)
    requires HeadsFit(docs, heads) && c.ds == Scope(heads) && Saved(c.saved) && Open(open, c.state, c.saved, c.next)
    requires open != [] && Alike(c.state, s) && InCollection(s) && Suits(place, s) && Hole(Led(open[|open| - 1], ks), s)
    requires Node(c, s, place, own, e, c') || (MayLack(s) && Lacks(c, s, own, e, c'))
    ensures Advances(Unfinished(docs, heads, open), d', Pre(open[|open| - 1]) + ks + own, e, c')
  {
    hide HeadsFit, Scope, Open, Alike, Suits, Hole, MayLack, NodeStep, Wait, AllLevels, Advances, Fits, KindsOf, EventsOf, PartialOk, Pre, Led;
    var m := |open| - 1;
    var p := open[m];
    var saved, open' := c.saved + [s], open[..m] + [Led(p, ks)];
    Leads(open, c.state, c.saved, c.next, s, ks);
    OpenIs(open, c.state, c.saved, c.next);
    LedSays(p, ks, Scope(heads));
    assert open == open[..m] + [p];
    LedMoves(docs, heads, open[..m], p, ks);
    var d, mid := Unfinished(docs, heads, open), Unfinished(docs, heads, open');
    if Node(c, s, place, own, e, c') {
      d' := NodeDerives(docs, heads, open', saved, place, own, e, c');
    } else {
      assert saved[..|saved| - 1] == c.saved;
      d' := Completed(docs, heads, open', NOTHING);
      NothingThere(docs, heads, open', saved, c');
    }
    Joins(d, mid, d', Pre(p) + ks, own, e, c');
  }

  lemma {:induction false} Joins(d: Derivation, mid: Derivation, d': Derivation, lead: seq<Kind>, own: seq<Kind>, e: Event, c': Conf)
    requires Advances(mid, d', own, e, c') && KindsOf(mid) == KindsOf(d) + lead && EventsOf(mid) == EventsOf(d)
    ensures Advances(d, d', lead + own, e, c')
  {
    hide Fits, KindsOf, EventsOf;
  }

  lemma {:induction false} LedMoves(docs: seq<Doc>, heads: seq<Kind>, below: seq<Partial>, p: Partial, ks: seq<Kind>)
    requires PartialOk(p)
    ensures var d, d' := Unfinished(docs, heads, below + [p]), Unfinished(docs, heads, below + [Led(p, ks)]);
      KindsOf(d') == KindsOf(d) + (Pre(p) + ks) && EventsOf(d') == EventsOf(d)
  {
    hide *;
    LedSays(p, ks, Scope(heads));
    TopSays(docs, heads, below, p, Led(p, ks), Pre(p) + ks, []);
  }

  lemma {:induction false} NothingThere(docs: seq<Doc>, heads: seq<Kind>, open: seq<Partial>, saved: seq<State>, c': Conf)
    requires HeadsFit(docs, heads) && Saved(saved) && Wait(open, AllLevels(saved)) && MayLack(saved[|saved| - 1])
    requires open == [] ==> heads != []
    requires c' == Conf(saved[|saved| - 1], saved[..|saved| - 1], Scope(heads), c'.next)
    ensures Advances(Unfinished(docs, heads, open), Completed(docs, heads, open, NOTHING), [], EMPTY, c')
  {
    NothingIs(saved[|saved| - 1], Scope(heads));
    CompletedSays(docs, heads, open, NOTHING);
    hide HeadsFit, Saved, Wait, AllLevels, Scope, Fits, KindsOf, EventsOf, SyntaxOk, Takes, Completed, SyntaxKinds, SyntaxEvents, NOTHING;
    NodeComplete(docs, heads, open, saved, NOTHING, c');
  }

  lemma {:induction false} NothingIs(s: State, ds: seq<TagDirective>)
    requires MayLack(s)
    ensures SyntaxOk(NOTHING) && Takes(s, NOTHING) && SyntaxKinds(NOTHING) == [] && SyntaxEvents(NOTHING, ds) == [EMPTY]
  {
  }

  function Closed(p: Partial, close: seq<Kind>): Syntax {
    Compound(p.shape, p.props, p.children, close)
  }

  lemma {:induction false} ClosedIs(p: Partial, close: seq<Kind>, ds: seq<TagDirective>)
    requires PartialOk(p) && CloseOk(p.shape, p.children, close) && p.lead == []
    ensures SyntaxOk(Closed(p, close)) && Closed(p, close) != NOTHING
    ensures SyntaxKinds(Closed(p, close)) == PartialKinds(p) + (Pre(p) + close)
    ensures SyntaxEvents(Closed(p, close), ds) == PartialEvents(p, ds) + [EndEvent(p.shape)]
  {
    hide StartEvent, EndEvent, Opening, IsProperties, CloseOk, ChildOk;
    if !p.begun {
      assert ChildrenKinds(p.children) == [];
    }
  }

  /** The innermost collection ends. */
  lemma {:induction false} Closes(docs: seq<Doc>, heads: seq<Kind>, open: seq<Partial>, c: Conf, close: seq<Kind>,
                                  own: seq<Kind>, e: Event, c': Conf) returns (d': Derivation)
    requires HeadsFit(docs, heads) && c.ds == Scope(heads) && Saved(c.saved) && Open(open, c.state, c.saved, c.next)
    requires open != [] && c.saved != [] && Levels(c.state) == [c.state]
    requires var p := open[|open| - 1];
      p.lead == [] && CloseOk(p.shape, p.children, close) && Ended(c, EndEvent(p.shape), own, e, c')
    ensures Advances(Unfinished(docs, heads, open), d', Pre(open[|open| - 1]) + close + own, e, c')
  {
    hide *;
    var m := |open| - 1;
    var p := open[m];
    EndedIs(c, EndEvent(p.shape), own, e, c');
    OpenIs(open, c.state, c.saved, c.next);
    ClosedFits(docs, heads, open, c, close, c');
    assert open == open[..m] + [p];
    d' := Completed(docs, heads, open[..m], Closed(p, close));
    ClosedMoves(docs, heads, open[..m], p, close, c');
    assert Pre(p) + close + own == Pre(p) + close;
  }

  lemma {:induction false} ClosedFits(docs: seq<Doc>, heads: seq<Kind>, open: seq<Partial>, c: Conf, close: seq<Kind>, c': Conf)
    requires HeadsFit(docs, heads) && c.ds == Scope(heads) && Saved(c.saved) && Open(open, c.state, c.saved, c.next)
    requires open != [] && Levels(c.state) == [c.state]
    requires var p := open[|open| - 1]; p.lead == [] && CloseOk(p.shape, p.children, close)
    requires c' == Conf(c.saved[|c.saved| - 1], c.saved[..|c.saved| - 1], c.ds, c'.next)
    ensures Fits(Completed(docs, heads, open[..|open| - 1], Closed(open[|open| - 1], close)), c')
  {
    hide *;
    var m := |open| - 1;
    var p := open[m];
    OpenIs(open, c.state, c.saved, c.next);
    OnlyLevel(c.saved, c.state, m);
    TakesClosed(p, close, c.saved, c.state, m);
    ClosedIs(p, close, Scope(heads));
    NodeComplete(docs, heads, open[..m], c.saved, Closed(p, close), c');
  }

  lemma {:induction false} EndedIs(c: Conf, end: Event, own: seq<Kind>, e: Event, c': Conf)
    requires c.saved != [] && Ended(c, end, own, e, c')
    ensures own == [] && e == end && c' == Conf(c.saved[|c.saved| - 1], c.saved[..|c.saved| - 1], c.ds, c'.next)
  {
  }

  lemma {:induction false} OnlyLevel(saved: seq<State>, state: State, m: nat)
    requires Levels(state) == [state] && |AllLevels(saved) + Levels(state)| == m + 1
    ensures (AllLevels(saved) + Levels(state))[..m] == AllLevels(saved) && |AllLevels(saved)| == m
  {
    hide AllLevels, Levels;
  }

  lemma {:induction false} TakesClosed(p: Partial, close: seq<Kind>, saved: seq<State>, s: State, m: nat)
    requires Saved(saved) && |AllLevels(saved)| == m && |AllLevels(saved) + Levels(s)| >= m && Nests(p, AllLevels(saved) + Levels(s), m)
    ensures Takes(saved[|saved| - 1], Closed(p, close))
  {
    hide PartialOk, AllowedShape, AllLevels, Saved;
    LastLevel(saved);
  }

  lemma {:induction false} ClosedMoves(docs: seq<Doc>, heads: seq<Kind>, below: seq<Partial>, p: Partial, close: seq<Kind>, c': Conf)
    requires PartialOk(p) && CloseOk(p.shape, p.children, close) && p.lead == []
    requires Fits(Completed(docs, heads, below, Closed(p, close)), c')
    ensures Advances(Unfinished(docs, heads, below + [p]), Completed(docs, heads, below, Closed(p, close)), Pre(p) + close,
                     EndEvent(p.shape), c')
  {
    hide *;
    ClosedIs(p, close, Scope(heads));
    CompletedSays(docs, heads, below, Closed(p, close));
    OpenSays(docs, heads, below, p);
    AdvancesIf(Unfinished(docs, heads, below + [p]), Completed(docs, heads, below, Closed(p, close)), Pre(p) + close, EndEvent(p.shape), c');
  }

  lemma {:induction false} AdvancesIf(d: Derivation, d': Derivation, ks: seq<Kind>, e: Event, c': Conf)
    requires Fits(d', c') && KindsOf(d') == KindsOf(d) + ks && EventsOf(d') == EventsOf(d) + [e]
    ensures Advances(d, d', ks, e, c')
  {
    hide Fits, KindsOf, EventsOf;
  }

  /** One open collection more. */
  lemma {:induction false} OpenSays(docs: seq<Doc>, heads: seq<Kind>, below: seq<Partial>, p: Partial)
    ensures var d, d' := Unfinished(docs, heads, below), Unfinished(docs, heads, below + [p]);
      KindsOf(d') == KindsOf(d) + PartialKinds(p) && EventsOf(d') == EventsOf(d) + PartialEvents(p, Scope(heads))
  {
    hide PartialKinds, PartialEvents, Scope, OpenKinds, OpenEvents, HeadKinds, HeadEvents;
    OpenOne(below, p, Scope(heads));
  }

  /** A pair in a flow sequence starts: the sequence waits for it. */
  lemma {:induction false} PairStarts(docs: seq<Doc>, heads: seq<Kind>, open: seq<Partial>, c: Conf, comma: seq<Kind>, c': Conf)
    returns (d': Derivation)
    requires HeadsFit(docs, heads) && c.ds == Scope(heads) && Saved(c.saved) && Open(open, c.state, c.saved, c.next)
    requires open != [] && Alike(c.state, PFlowSequenceEntry) && Hole(Led(open[|open| - 1], comma), PFlowSequenceEntry)
    requires c' == Conf(PFlowSequenceEntryMappingKey, c.saved, c.ds, c'.next)
    ensures Advances(Unfinished(docs, heads, open), d', Pre(open[|open| - 1]) + comma + [Key], MappingStart(None, None, true, Flow), c')
  {
    hide *;
    var m := |open| - 1;
    var p := open[m];
    Leads(open, c.state, c.saved, c.next, PFlowSequenceEntry, comma);
    OpenIs(open, c.state, c.saved, c.next);
    LevelsOne(c.saved, PFlowSequenceEntry);
    PairIs(Scope(heads), c'.next, c.saved);
    assert open == open[..m] + [p];
    var pair, open' := Partial(FlowPair, [], true, [], [Key]), open[..m] + [Led(p, comma)];
    LedMoves(docs, heads, open[..m], p, comma);
    WaitLength(open', AllLevels(c.saved + [PFlowSequenceEntry]));
    var levels := AllLevels(c.saved) + Levels(PFlowSequenceEntryMappingKey);
    assert levels[..m + 1] == AllLevels(c.saved + [PFlowSequenceEntry]);
    OpenIf(open', pair, PFlowSequenceEntryMappingKey, c.saved, c'.next);
    d' := Unfinished(docs, heads, open' + [pair]);
    OpenFits(docs, heads, open' + [pair], c');
    OpenSays(docs, heads, open', pair);
    KeyLast(Unfinished(docs, heads, open), Unfinished(docs, heads, open'), d', Pre(p) + comma, c');
  }

  lemma {:induction false} PairIs(ds: seq<TagDirective>, next: Option<Kind>, saved: seq<State>)
    ensures var pair, s, levels := Partial(FlowPair, [], true, [], [Key]), PFlowSequenceEntryMappingKey, AllLevels(saved);
      && Top(pair, s, next) && PartialKinds(pair) == [Key] && PartialEvents(pair, ds) == [MappingStart(None, None, true, Flow)]
      && Levels(s) == [PFlowSequenceEntry, s] && Levels(PFlowSequenceEntry) == [PFlowSequenceEntry] && !AwaitsRoot(s)
      && Nests(pair, levels + Levels(s), |levels| + 1)
  {
    hide AllLevels;
    assert ChildrenKinds([]) == [];
    var levels := AllLevels(saved);
    assert (levels + [PFlowSequenceEntry, PFlowSequenceEntryMappingKey])[|levels|] == PFlowSequenceEntry;
  }

  lemma {:induction false} KeyLast(d: Derivation, mid: Derivation, d': Derivation, lead: seq<Kind>, c': Conf)
    requires KindsOf(mid) == KindsOf(d) + lead && EventsOf(mid) == EventsOf(d) && Fits(d', c')
    requires KindsOf(d') == KindsOf(mid) + [Key] && EventsOf(d') == EventsOf(mid) + [MappingStart(None, None, true, Flow)]
    ensures Advances(d, d', lead + [Key], MappingStart(None, None, true, Flow), c')
  {
    hide Fits, KindsOf, EventsOf;
  }

  /** An empty key of such a pair, which takes the token behind it. */
  lemma {:induction false} PairLacksKey(docs: seq<Doc>, heads: seq<Kind>, open: seq<Partial>, c: Conf, lead: seq<Kind>, c': Conf)
    returns (d': Derivation)
    requires HeadsFit(docs, heads) && c.ds == Scope(heads) && Saved(c.saved) && Open(open, c.state, c.saved, c.next)
    requires open != [] && c.state == PFlowSequenceEntryMappingKey && EmptyKey([Key] + lead)
    requires c' == Conf(PFlowSequenceEntryMappingValue, c.saved, c.ds, c'.next)
    ensures Advances(Unfinished(docs, heads, open), d', lead, EMPTY, c')
  {
    hide *;
    var m := |open| - 1;
    var p := open[m];
    var q := Put(Led(p, lead), NOTHING);
    OpenIs(open, c.state, c.saved, c.next);
    LackingKey(p, lead, c.next, c'.next, Scope(heads));
    SameNest(p, q, c.saved, c.state, c'.state, m);
    OpenIf(open[..m], q, c'.state, c.saved, c'.next);
    assert open == open[..m] + [p];
    OpenFits(docs, heads, open[..m] + [q], c');
    TopSays(docs, heads, open[..m], p, q, lead, [EMPTY]);
    d' := Unfinished(docs, heads, open[..m] + [q]);
    AdvancesIf(Unfinished(docs, heads, open), d', lead, EMPTY, c');
  }

  lemma {:induction false} LackingKey(p: Partial, lead: seq<Kind>, next0: Option<Kind>, next: Option<Kind>, ds: seq<TagDirective>)
    requires PartialOk(p) && Top(p, PFlowSequenceEntryMappingKey, next0) && EmptyKey([Key] + lead)
    ensures Alike(PFlowSequenceEntryMappingKey, PFlowSequenceEntryMappingValue) && !AwaitsRoot(PFlowSequenceEntryMappingValue)
    ensures var q := Put(Led(p, lead), NOTHING);
      && PartialOk(q) && q.shape == p.shape && Top(q, PFlowSequenceEntryMappingValue, next)
      && PartialKinds(q) == PartialKinds(p) + lead && PartialEvents(q, ds) == PartialEvents(p, ds) + [EMPTY]
  {
    hide EmptyKey;
    PutSays(Led(p, lead), NOTHING, ds);
    assert NOTHING.kinds == [];
    assert ChildrenKinds([]) == [];
  }

  /** Such a pair ends, without a token. */
  lemma {:induction false} PairEnds(docs: seq<Doc>, heads: seq<Kind>, open: seq<Partial>, c: Conf, c': Conf) returns (d': Derivation)
    requires HeadsFit(docs, heads) && c.ds == Scope(heads) && Saved(c.saved) && Open(open, c.state, c.saved, c.next)
    requires open != [] && c.state == PFlowSequenceEntryMappingEnd
    requires c' == Conf(PFlowSequenceEntry, c.saved, c.ds, c'.next)
    ensures Advances(Unfinished(docs, heads, open), d', [], MappingEnd, c')
  {
    hide *;
    OpenIs(open, c.state, c.saved, c.next);
    LevelsOne(c.saved, PFlowSequenceEntry);
    var m := |open| - 1;
    var p := open[m];
    var saved := c.saved + [PFlowSequenceEntry];
    PairTop(p, c.saved, m, c.next);
    var levels := AllLevels(c.saved) + Levels(c.state);
    assert levels[..m] == AllLevels(saved);
    SavedMore(c.saved, PFlowSequenceEntry);
    NodeComplete(docs, heads, open[..m], saved, Closed(p, []), c');
    ClosedMoves(docs, heads, open[..m], p, [], c');
    PairShape(p);
    assert open == open[..m] + [p] && Pre(p) + [] == [];
    d' := Completed(docs, heads, open[..m], Closed(p, []));
  }

  lemma {:induction false} PairShape(p: Partial)
    requires p.shape.FlowPair?
    ensures Pre(p) == [] && EndEvent(p.shape) == MappingEnd
  {
  }

  lemma {:induction false} SavedMore(saved: seq<State>, s: State)
    requires Saved(saved) && InCollection(s)
    ensures Saved(saved + [s]) && (saved + [s])[..|saved|] == saved
  {
  }

  lemma {:induction false} PairTop(p: Partial, saved: seq<State>, m: nat, next: Option<Kind>)
    requires PartialOk(p) && Top(p, PFlowSequenceEntryMappingEnd, next)
    ensures saved + [PFlowSequenceEntry] != [] && (saved + [PFlowSequenceEntry])[|saved|] == PFlowSequenceEntry
    ensures p.shape.FlowPair? && p.lead == [] && CloseOk(p.shape, p.children, []) && SyntaxOk(Closed(p, []))
    ensures Takes(PFlowSequenceEntry, Closed(p, [])) && InCollection(PFlowSequenceEntry)
    ensures Levels(PFlowSequenceEntryMappingEnd) == [PFlowSequenceEntry, PFlowSequenceEntryMappingEnd]
    ensures Levels(PFlowSequenceEntry) == [PFlowSequenceEntry]
  {
  }

  /** A child of a block sequence, or its end. */
  lemma {:induction false} BlockSequenceDerives(docs: seq<Doc>, heads: seq<Kind>, open: seq<Partial>, c: Conf,
      lead: seq<Kind>, own: seq<Kind>, e: Event, c': Conf) returns (d': Derivation)
    requires HeadsFit(docs, heads) && c.ds == Scope(heads) && Saved(c.saved) && Open(open, c.state, c.saved, c.next) && c.saved != []
    requires c.state == PBlockSequenceFirstEntry || c.state == PBlockSequenceEntry
    requires var first := if c.state == PBlockSequenceEntry then [] else [BlockSequenceStart];
      var s := PBlockSequenceEntry;
      || (lead == first + [BlockEntry] && (Node(c, s, InBlock, own, e, c') || Lacks(c, s, own, e, c')))
      || (lead == first + [BlockEnd] && Ended(c, SequenceEnd, own, e, c'))
    ensures Advances(Unfinished(docs, heads, open), d', lead + own, e, c')
  {
    hide *;
    OpenIs(open, c.state, c.saved, c.next);
    var p := open[|open| - 1];
    BlockSequenceTop(p, c.state, c.next);
    if lead == Pre(p) + [BlockEntry]
       && (Node(c, PBlockSequenceEntry, InBlock, own, e, c') || Lacks(c, PBlockSequenceEntry, own, e, c')) {
      d' := GoOn(docs, heads, open, c, PBlockSequenceEntry, InBlock, [BlockEntry], own, e, c');
    } else {
      d' := Closes(docs, heads, open, c, [BlockEnd], own, e, c');
    }
  }

  lemma {:induction false} BlockSequenceTop(p: Partial, s: State, next: Option<Kind>)
    requires PartialOk(p) && Top(p, s, next) && (s == PBlockSequenceFirstEntry || s == PBlockSequenceEntry)
    ensures p.lead == [] && Pre(p) == (if s == PBlockSequenceEntry then [] else [BlockSequenceStart])
    ensures Hole(Led(p, [BlockEntry]), PBlockSequenceEntry) && CloseOk(p.shape, p.children, [BlockEnd])
    ensures EndEvent(p.shape) == SequenceEnd && Levels(s) == [s] && Alike(s, PBlockSequenceEntry)
    ensures InCollection(PBlockSequenceEntry) && Suits(InBlock, PBlockSequenceEntry) && MayLack(PBlockSequenceEntry)
  {
  }

  /** A child of an indentless sequence, or its end. */
  lemma {:induction false} IndentlessSequenceDerives(docs: seq<Doc>, heads: seq<Kind>, open: seq<Partial>, c: Conf,
      lead: seq<Kind>, own: seq<Kind>, e: Event, c': Conf) returns (d': Derivation)
    requires HeadsFit(docs, heads) && c.ds == Scope(heads) && Saved(c.saved) && Open(open, c.state, c.saved, c.next) && c.saved != []
    requires c.state == PIndentlessSequenceEntry
    requires var s := PIndentlessSequenceEntry;
      || (lead == [BlockEntry] && (Node(c, s, InBlock, own, e, c') || Lacks(c, s, own, e, c')))
      || (lead == [] && c.next != Some(BlockEntry) && Ended(c, SequenceEnd, own, e, c'))
    ensures Advances(Unfinished(docs, heads, open), d', lead + own, e, c')
  {
    hide *;
    OpenIs(open, c.state, c.saved, c.next);
    var p := open[|open| - 1];
    IndentlessSequenceTop(p, c.next);
    if lead == [BlockEntry] {
      d' := GoOn(docs, heads, open, c, PIndentlessSequenceEntry, InBlock, [BlockEntry], own, e, c');
      assert Pre(p) + [BlockEntry] + own == lead + own;
    } else {
      d' := Closes(docs, heads, open, c, [], own, e, c');
      assert Pre(p) + [] + own == lead + own;
    }
  }

  lemma {:induction false} IndentlessSequenceTop(p: Partial, next: Option<Kind>)
    requires PartialOk(p) && Top(p, PIndentlessSequenceEntry, next)
    ensures p.lead == [] && Pre(p) == [] && Hole(Led(p, [BlockEntry]), PIndentlessSequenceEntry)
    ensures next != Some(BlockEntry) ==> CloseOk(p.shape, p.children, [])
    ensures var s := PIndentlessSequenceEntry;
      && EndEvent(p.shape) == SequenceEnd && Levels(s) == [s] && Alike(s, s)
      && InCollection(s) && Suits(InBlock, s) && MayLack(s)
  {
  }

  /** A key of a block mapping, or its end. */
  lemma {:induction false} BlockMappingKeyDerives(docs: seq<Doc>, heads: seq<Kind>, open: seq<Partial>, c: Conf,
      lead: seq<Kind>, own: seq<Kind>, e: Event, c': Conf) returns (d': Derivation)
    requires HeadsFit(docs, heads) && c.ds == Scope(heads) && Saved(c.saved) && Open(open, c.state, c.saved, c.next) && c.saved != []
    requires c.state == PBlockMappingFirstKey || c.state == PBlockMappingKey
    requires var first := if c.state == PBlockMappingKey then [] else [BlockMappingStart];
      var s := PBlockMappingValue;
      || (lead == first + [Key] && (Node(c, s, InBlockMapping, own, e, c') || Lacks(c, s, own, e, c')))
      || (lead == first + [BlockEnd] && Ended(c, MappingEnd, own, e, c'))
    ensures Advances(Unfinished(docs, heads, open), d', lead + own, e, c')
  {
    hide *;
    OpenIs(open, c.state, c.saved, c.next);
    var p := open[|open| - 1];
    BlockMappingTop(p, c.state, c.next);
    if lead == Pre(p) + [Key]
       && (Node(c, PBlockMappingValue, InBlockMapping, own, e, c') || Lacks(c, PBlockMappingValue, own, e, c')) {
      d' := GoOn(docs, heads, open, c, PBlockMappingValue, InBlockMapping, [Key], own, e, c');
    } else {
      d' := Closes(docs, heads, open, c, [BlockEnd], own, e, c');
    }
  }

  lemma {:induction false} BlockMappingTop(p: Partial, s: State, next: Option<Kind>)
    requires PartialOk(p) && Top(p, s, next) && (s == PBlockMappingFirstKey || s == PBlockMappingKey)
    ensures p.lead == [] && Pre(p) == (if s == PBlockMappingKey then [] else [BlockMappingStart])
    ensures Hole(Led(p, [Key]), PBlockMappingValue) && CloseOk(p.shape, p.children, [BlockEnd])
    ensures EndEvent(p.shape) == MappingEnd && Levels(s) == [s] && Alike(s, PBlockMappingValue)
    ensures InCollection(PBlockMappingValue) && Suits(InBlockMapping, PBlockMappingValue) && MayLack(PBlockMappingValue)
  {
  }

  /** A value that VALUE leads to, or that is missing: in a block mapping, a flow mapping,
      or a pair in a flow sequence. */
  lemma {:induction false} ValueDerives(docs: seq<Doc>, heads: seq<Kind>, open: seq<Partial>, c: Conf,
      lead: seq<Kind>, own: seq<Kind>, e: Event, c': Conf) returns (d': Derivation)
    requires HeadsFit(docs, heads) && c.ds == Scope(heads) && Saved(c.saved) && Open(open, c.state, c.saved, c.next) && c.saved != []
    requires InsideCollection(c.state) && ValueState(c.state).Some?
    requires var (s, place) := ValueState(c.state).value;
      || (lead == [Value] && Node(c, s, place, own, e, c') && c.state != PFlowMappingEmptyValue)
      || ((lead == [] || (lead == [Value] && c.state != PFlowMappingEmptyValue)) && Lacks(c, s, own, e, c'))
    ensures Advances(Unfinished(docs, heads, open), d', lead + own, e, c')
  {
    hide *;
    OpenIs(open, c.state, c.saved, c.next);
    var p := open[|open| - 1];
    var (s, place) := ValueState(c.state).value;
    ValueTop(p, c.state, c.next);
    if lead == [Value] {
      d' := GoOn(docs, heads, open, c, s, place, [Value], own, e, c');
      assert Pre(p) + [Value] + own == lead + own;
    } else {
      LacksIs(c, s, own, e, c');
      d' := LackingValue(docs, heads, open, c, s, c');
      assert lead + own == [];
    }
  }

  lemma {:induction false} LacksIs(c: Conf, s: State, own: seq<Kind>, e: Event, c': Conf)
    requires Lacks(c, s, own, e, c')
    ensures own == [] && e == EMPTY && c' == Conf(s, c.saved, c.ds, c'.next)
  {
  }

  /** Where a value stands that comes in this state, and the state behind it. */
  function ValueState(s: State): Option<(State, Place)> {
    match s
    case PBlockMappingValue => Some((PBlockMappingKey, InBlockMapping))
    case PFlowSequenceEntryMappingValue => Some((PFlowSequenceEntryMappingEnd, InFlow))
    case PFlowMappingValue => Some((PFlowMappingKey, InFlow))
    case PFlowMappingEmptyValue => Some((PFlowMappingKey, InFlow))
    case _ => None
  }

  lemma {:induction false} ValueTop(p: Partial, state: State, next: Option<Kind>)
    requires ValueState(state).Some? && Top(p, state, next)
    ensures var (s, place) := ValueState(state).value;
      && p.lead == [] && Pre(p) == [] && Alike(state, s) && InCollection(s) && Suits(place, s) && MayLack(s)
      && (state != PFlowMappingEmptyValue ==> Hole(Led(p, [Value]), s))
  {
    ValueAfter(state);
    hide Alike, Suits, PlaceOf, Levels;
  }

  lemma {:induction false} ValueAfter(state: State)
    requires ValueState(state).Some?
    ensures var (s, place) := ValueState(state).value; Alike(state, s) && InCollection(s) && Suits(place, s) && MayLack(s)
  {
  }

  /** There is no VALUE. */
  lemma {:induction false} LackingValue(docs: seq<Doc>, heads: seq<Kind>, open: seq<Partial>, c: Conf, s: State, c': Conf)
    returns (d': Derivation)
    requires HeadsFit(docs, heads) && c.ds == Scope(heads) && Saved(c.saved) && Open(open, c.state, c.saved, c.next) && c.saved != []
    requires open != [] && ValueState(c.state).Some? && s == ValueState(c.state).value.0 && c' == Conf(s, c.saved, c.ds, c'.next)
    ensures Advances(Unfinished(docs, heads, open), d', [], EMPTY, c')
  {
    hide *;
    OpenIs(open, c.state, c.saved, c.next);
    var m := |open| - 1;
    var p := open[m];
    var q := Put(p, NOTHING);
    ValueTop(p, c.state, c.next);
    MissingValue(p, c.state, s, c.next, c'.next, Scope(heads));
    SameNest(p, q, c.saved, c.state, s, m);
    OpenIf(open[..m], q, s, c.saved, c'.next);
    assert open == open[..m] + [p];
    OpenFits(docs, heads, open[..m] + [q], c');
    TopSays(docs, heads, open[..m], p, q, [], [EMPTY]);
    d' := Unfinished(docs, heads, open[..m] + [q]);
    AdvancesIf(Unfinished(docs, heads, open), d', [], EMPTY, c');
  }

  lemma {:induction false} MissingValue(p: Partial, state: State, s: State, next: Option<Kind>, next': Option<Kind>, ds: seq<TagDirective>)
    requires PartialOk(p) && ValueState(state).Some? && s == ValueState(state).value.0 && Top(p, state, next)
    ensures var q := Put(p, NOTHING);
      && PartialOk(q) && q.shape == p.shape && Top(q, s, next') && Levels(s) != [] && !AwaitsRoot(s)
      && PartialKinds(q) == PartialKinds(p) + [] && PartialEvents(q, ds) == PartialEvents(p, ds) + [EMPTY]
  {
    PutSays(p, NOTHING, ds);
    MissingOk(p, state, next);
    MissingTop(p, state, s, next, next');
    hide *;
    NoKinds(ds);
  }

  lemma {:induction false} NoKinds(ds: seq<TagDirective>)
    ensures SyntaxKinds(NOTHING) == [] && SyntaxEvents(NOTHING, ds) == [EMPTY]
  {
  }

  lemma {:induction false} MissingTop(p: Partial, state: State, s: State, next: Option<Kind>, next': Option<Kind>)
    requires ValueState(state).Some? && s == ValueState(state).value.0 && Top(p, state, next)
    ensures Put(p, NOTHING).shape == p.shape && Top(Put(p, NOTHING), s, next') && Levels(s) != [] && !AwaitsRoot(s)
  {
  }

  lemma {:induction false} MissingOk(p: Partial, state: State, next: Option<Kind>)
    requires PartialOk(p) && ValueState(state).Some? && Top(p, state, next)
    ensures PartialOk(Put(p, NOTHING))
  {
    MissingChild(p, state, next);
    hide Top, ChildOk, IsProperties, IsSingle, ValueState;
    var q := Put(p, NOTHING);
    assert SyntaxOk(NOTHING) by { NothingIs(PBlockSequenceEntry, []); }
    forall i | 0 <= i < |q.children| ensures ChildOk(p.shape, q.children, i) && SyntaxOk(q.children[i].node) {
      if i < |p.children| {
        SameChild(p.shape, p.children, q.children, i);
      }
    }
  }

  lemma {:induction false} MissingChild(p: Partial, state: State, next: Option<Kind>)
    requires ValueState(state).Some? && Top(p, state, next)
    ensures p.begun && ChildOk(p.shape, Put(p, NOTHING).children, |p.children|)
  {
  }

  /** An entry of a flow sequence, or its end. */
  lemma {:induction false} FlowSequenceDerives(docs: seq<Doc>, heads: seq<Kind>, open: seq<Partial>, c: Conf,
      lead: seq<Kind>, own: seq<Kind>, e: Event, c': Conf) returns (d': Derivation)
    requires HeadsFit(docs, heads) && c.ds == Scope(heads) && Saved(c.saved) && Open(open, c.state, c.saved, c.next) && c.saved != []
    requires c.state == PFlowSequenceFirstEntry || c.state == PFlowSequenceEntry
    requires var (first, comma) := if c.state == PFlowSequenceEntry then ([], [FlowEntry]) else ([FlowSequenceStart], [FlowSequenceStart]);
      || (lead == comma && Node(c, PFlowSequenceEntry, InFlow, own, e, c'))
      || (lead == comma + [Key] && own == [] && e == MappingStart(None, None, true, Flow)
          && c' == Conf(PFlowSequenceEntryMappingKey, c.saved, c.ds, c'.next))
      || ((lead == first + [FlowSequenceEnd] || lead == comma + [FlowSequenceEnd]) && Ended(c, SequenceEnd, own, e, c'))
    ensures Advances(Unfinished(docs, heads, open), d', lead + own, e, c')
  {
    hide *;
    OpenIs(open, c.state, c.saved, c.next);
    var p := open[|open| - 1];
    var comma := if c.state == PFlowSequenceEntry then [FlowEntry] else [];
    FlowSequenceTop(p, c.state, c.next);
    var lead' := if c.state == PFlowSequenceEntry then [FlowEntry] else [FlowSequenceStart];
    assert Pre(p) + comma == lead';
    if lead == lead' && Node(c, PFlowSequenceEntry, InFlow, own, e, c') {
      d' := GoOn(docs, heads, open, c, PFlowSequenceEntry, InFlow, comma, own, e, c');
    } else if lead == lead' + [Key] && own == [] && e == MappingStart(None, None, true, Flow)
              && c' == Conf(PFlowSequenceEntryMappingKey, c.saved, c.ds, c'.next) {
      d' := PairStarts(docs, heads, open, c, comma, c');
      assert lead + own == lead;
    } else if lead == Pre(p) + [FlowSequenceEnd] {
      d' := Closes(docs, heads, open, c, [FlowSequenceEnd], own, e, c');
    } else {
      assert Pre(p) + (comma + [FlowSequenceEnd]) == lead' + [FlowSequenceEnd];
      d' := Closes(docs, heads, open, c, comma + [FlowSequenceEnd], own, e, c');
    }
  }

  lemma {:induction false} FlowSequenceTop(p: Partial, s: State, next: Option<Kind>)
    requires PartialOk(p) && Top(p, s, next) && (s == PFlowSequenceFirstEntry || s == PFlowSequenceEntry)
    ensures p.lead == [] && Pre(p) == if s == PFlowSequenceEntry then [] else [FlowSequenceStart]
    ensures var comma := if s == PFlowSequenceEntry then [FlowEntry] else [];
      && Hole(Led(p, comma), PFlowSequenceEntry)
      && CloseOk(p.shape, p.children, [FlowSequenceEnd]) && CloseOk(p.shape, p.children, comma + [FlowSequenceEnd])
    ensures EndEvent(p.shape) == SequenceEnd && Levels(s) == [s] && Alike(s, PFlowSequenceEntry)
    ensures InCollection(PFlowSequenceEntry) && Suits(InFlow, PFlowSequenceEntry)
  {
    assert [] + [FlowSequenceEnd] == [FlowSequenceEnd];
  }

  /** A key of a flow mapping, or its end. */
  lemma {:induction false} FlowMappingKeyDerives(docs: seq<Doc>, heads: seq<Kind>, open: seq<Partial>, c: Conf,
      lead: seq<Kind>, own: seq<Kind>, e: Event, c': Conf) returns (d': Derivation)
    requires HeadsFit(docs, heads) && c.ds == Scope(heads) && Saved(c.saved) && Open(open, c.state, c.saved, c.next) && c.saved != []
    requires c.state == PFlowMappingFirstKey || c.state == PFlowMappingKey
    requires var (first, comma) := if c.state == PFlowMappingKey then ([], [FlowEntry]) else ([FlowMappingStart], [FlowMappingStart]);
      || (lead == comma && Node(c, PFlowMappingEmptyValue, InFlow, own, e, c'))
      || (lead == comma + [Key] && (Node(c, PFlowMappingValue, InFlow, own, e, c') || Lacks(c, PFlowMappingValue, own, e, c')))
      || ((lead == first + [FlowMappingEnd] || lead == comma + [FlowMappingEnd]) && Ended(c, MappingEnd, own, e, c'))
    ensures Advances(Unfinished(docs, heads, open), d', lead + own, e, c')
  {
    hide *;
    OpenIs(open, c.state, c.saved, c.next);
    var p := open[|open| - 1];
    var comma := if c.state == PFlowMappingKey then [FlowEntry] else [];
    FlowMappingTop(p, c.state, c.next);
    var lead' := if c.state == PFlowMappingKey then [FlowEntry] else [FlowMappingStart];
    assert Pre(p) + comma == lead';
    if lead == lead' && Node(c, PFlowMappingEmptyValue, InFlow, own, e, c') {
      d' := GoOn(docs, heads, open, c, PFlowMappingEmptyValue, InFlow, comma, own, e, c');
    } else if lead == lead' + [Key]
              && (Node(c, PFlowMappingValue, InFlow, own, e, c') || Lacks(c, PFlowMappingValue, own, e, c')) {
      assert lead == Pre(p) + (comma + [Key]);
      d' := GoOn(docs, heads, open, c, PFlowMappingValue, InFlow, comma + [Key], own, e, c');
    } else if lead == Pre(p) + [FlowMappingEnd] {
      d' := Closes(docs, heads, open, c, [FlowMappingEnd], own, e, c');
    } else {
      assert Pre(p) + (comma + [FlowMappingEnd]) == lead' + [FlowMappingEnd];
      d' := Closes(docs, heads, open, c, comma + [FlowMappingEnd], own, e, c');
    }
  }

  lemma {:induction false} FlowMappingTop(p: Partial, s: State, next: Option<Kind>)
    requires PartialOk(p) && Top(p, s, next) && (s == PFlowMappingFirstKey || s == PFlowMappingKey)
    ensures p.lead == [] && Pre(p) == if s == PFlowMappingKey then [] else [FlowMappingStart]
    ensures var comma := if s == PFlowMappingKey then [FlowEntry] else [];
      && Hole(Led(p, comma), PFlowMappingEmptyValue) && Hole(Led(p, comma + [Key]), PFlowMappingValue)
      && CloseOk(p.shape, p.children, [FlowMappingEnd]) && CloseOk(p.shape, p.children, comma + [FlowMappingEnd])
    ensures EndEvent(p.shape) == MappingEnd && Levels(s) == [s]
    ensures Alike(s, PFlowMappingEmptyValue) && InCollection(PFlowMappingEmptyValue) && Suits(InFlow, PFlowMappingEmptyValue)
    ensures Alike(s, PFlowMappingValue) && InCollection(PFlowMappingValue) && Suits(InFlow, PFlowMappingValue) && MayLack(PFlowMappingValue)
  {
    assert [] + [FlowMappingEnd] == [FlowMappingEnd];
  }

  /** The key of a pair in a flow sequence. */
  lemma {:induction false} PairKeyDerives(docs: seq<Doc>, heads: seq<Kind>, open: seq<Partial>, c: Conf,
      lead: seq<Kind>, own: seq<Kind>, e: Event, c': Conf) returns (d': Derivation)
    requires HeadsFit(docs, heads) && c.ds == Scope(heads) && Saved(c.saved) && Open(open, c.state, c.saved, c.next) && c.saved != []
    requires c.state == PFlowSequenceEntryMappingKey
    requires var s := PFlowSequenceEntryMappingValue;
      || (lead == [] && Node(c, s, InFlow, own, e, c'))
      || (EmptyKey([Key] + lead) && Lacks(c, s, own, e, c'))
    ensures Advances(Unfinished(docs, heads, open), d', lead + own, e, c')
  {
    hide *;
    OpenIs(open, c.state, c.saved, c.next);
    var p := open[|open| - 1];
    PairKeyTop(p, c.next, lead);
    if lead == [] {
      d' := GoOn(docs, heads, open, c, PFlowSequenceEntryMappingValue, InFlow, [], own, e, c');
      assert Pre(p) + [] + own == lead + own;
    } else {
      LacksIs(c, PFlowSequenceEntryMappingValue, own, e, c');
      d' := PairLacksKey(docs, heads, open, c, lead, c');
      assert lead + own == lead;
    }
  }

  lemma {:induction false} PairKeyTop(p: Partial, next: Option<Kind>, lead: seq<Kind>)
    requires PartialOk(p) && Top(p, PFlowSequenceEntryMappingKey, next)
    ensures var s, t := PFlowSequenceEntryMappingKey, PFlowSequenceEntryMappingValue;
      Pre(p) == [] && Hole(Led(p, []), t) && Alike(s, t) && InCollection(t) && Suits(InFlow, t) && (EmptyKey([Key] + lead) ==> lead != [])
  {
  }

  /** One event inside of a collection. */
  lemma {:induction false} CollectionDerives(docs: seq<Doc>, heads: seq<Kind>, open: seq<Partial>, c: Conf,
      lead: seq<Kind>, own: seq<Kind>, e: Event, c': Conf) returns (d': Derivation)
    requires HeadsFit(docs, heads) && c.ds == Scope(heads) && Saved(c.saved) && Open(open, c.state, c.saved, c.next) && c.saved != []
    requires InsideCollection(c.state) && CollectionStep(c, lead, own, e, c')
    ensures Advances(Unfinished(docs, heads, open), d', lead + own, e, c')
  {
    hide HeadsFit, Scope, Saved, Open, Advances, Node, Lacks, Ended, EmptyKey, Allowed;
    match c.state
    case PBlockSequenceFirstEntry => d' := BlockSequenceDerives(docs, heads, open, c, lead, own, e, c');
    case PBlockSequenceEntry => d' := BlockSequenceDerives(docs, heads, open, c, lead, own, e, c');
    case PIndentlessSequenceEntry => d' := IndentlessSequenceDerives(docs, heads, open, c, lead, own, e, c');
    case PBlockMappingFirstKey => d' := BlockMappingKeyDerives(docs, heads, open, c, lead, own, e, c');
    case PBlockMappingKey => d' := BlockMappingKeyDerives(docs, heads, open, c, lead, own, e, c');
    case PFlowSequenceFirstEntry => d' := FlowSequenceDerives(docs, heads, open, c, lead, own, e, c');
    case PFlowSequenceEntry => d' := FlowSequenceDerives(docs, heads, open, c, lead, own, e, c');
    case PFlowSequenceEntryMappingKey => d' := PairKeyDerives(docs, heads, open, c, lead, own, e, c');
    case PFlowSequenceEntryMappingEnd =>
      assert lead + own == [];
      NotNone(open, c);
      d' := PairEnds(docs, heads, open, c, c');
    case PFlowMappingFirstKey => d' := FlowMappingKeyDerives(docs, heads, open, c, lead, own, e, c');
    case PFlowMappingKey => d' := FlowMappingKeyDerives(docs, heads, open, c, lead, own, e, c');
    case PBlockMappingValue => d' := ValueDerives(docs, heads, open, c, lead, own, e, c');
    case PFlowSequenceEntryMappingValue => d' := ValueDerives(docs, heads, open, c, lead, own, e, c');
    case PFlowMappingValue => d' := ValueDerives(docs, heads, open, c, lead, own, e, c');
    case PFlowMappingEmptyValue => d' := ValueDerives(docs, heads, open, c, lead, own, e, c');
  }

  lemma {:induction false} NotNone(open: seq<Partial>, c: Conf)
    requires Open(open, c.state, c.saved, c.next)
    ensures open != []
  {
  }

  /** The root of a document, or where there is none. */
  lemma {:induction false} RootDerives(docs: seq<Doc>, heads: seq<Kind>, c: Conf, own: seq<Kind>, e: Event, c': Conf)
    returns (d': Derivation)
    requires HeadsFit(docs, heads) && c.ds == Scope(heads)
    requires NodeStep([PDocumentEnd], c.ds, InBlock, own, e, c')
             || (heads != [] && own == [] && e == EMPTY && c' == Conf(PDocumentEnd, [], c.ds, c'.next))
    ensures Advances(Unfinished(docs, heads, []), d', own, e, c')
  {
    RootWaits();
    hide *;
    if NodeStep([PDocumentEnd], c.ds, InBlock, own, e, c') {
      d' := NodeDerives(docs, heads, [], [PDocumentEnd], InBlock, own, e, c');
    } else {
      NothingThere(docs, heads, [], [PDocumentEnd], c');
      d' := Completed(docs, heads, [], NOTHING);
    }
  }

  lemma {:induction false} RootWaits()
    ensures Saved([PDocumentEnd]) && Wait([], AllLevels([PDocumentEnd])) && Suits(InBlock, PDocumentEnd) && MayLack(PDocumentEnd)
    ensures [PDocumentEnd][|[PDocumentEnd]| - 1] == PDocumentEnd && [PDocumentEnd][..|[PDocumentEnd]| - 1] == []
  {
    LevelsOne([], PDocumentEnd);
    assert [] + [PDocumentEnd] == [PDocumentEnd];
  }

  /** The end of a document. */
  lemma {:induction false} EndDerives(docs: seq<Doc>, heads: seq<Kind>, root: Syntax, c: Conf, lead: seq<Kind>, c': Conf)
    requires Fits(Rooted(docs, heads, root), c) && c' == Conf(PDocumentStart, [], c'.ds, c'.next)
    requires lead == [DocumentEndToken] || (lead == [] && c'.next != Some(DocumentEndToken))
    ensures Advances(Rooted(docs, heads, root), Documents(docs + [Doc(heads, root, |lead|)]), lead, DocumentEnd(lead == []), c')
  {
    var doc := Doc(heads, root, |lead|);
    EndFits(docs, doc, c, c');
    hide *;
    EndSays(docs, doc, lead);
    AdvancesIf(Rooted(docs, heads, root), Documents(docs + [doc]), lead, DocumentEnd(lead == []), c');
  }

  lemma {:induction false} EndSays(docs: seq<Doc>, doc: Doc, lead: seq<Kind>)
    requires doc.ends == |lead| && (lead == [DocumentEndToken] || lead == [])
    ensures KindsOf(Documents(docs + [doc])) == KindsOf(Rooted(docs, doc.heads, doc.root)) + lead
    ensures EventsOf(Documents(docs + [doc])) == EventsOf(Rooted(docs, doc.heads, doc.root)) + [DocumentEnd(lead == [])]
  {
    DocsOne(docs, doc);
    EndsAre(lead);
    hide SyntaxKinds, SyntaxEvents, DocsKinds, DocsEvents, Scope, StartOf, Ends;
    Regroup([StreamStartToken], DocsKinds(docs), doc.heads, SyntaxKinds(doc.root), lead);
    Regroup([StreamStart], DocsEvents(docs), [StartOf(doc.heads)], SyntaxEvents(doc.root, Scope(doc.heads)), [DocumentEnd(lead == [])]);
  }

  lemma {:induction false} EndsAre(lead: seq<Kind>)
    requires lead == [DocumentEndToken] || lead == []
    ensures Ends(|lead|) == lead
  {
  }

  lemma {:induction false} Regroup<T>(a: seq<T>, b: seq<T>, c: seq<T>, d: seq<T>, e: seq<T>)
    ensures a + (b + (c + d + e)) == a + b + c + d + e
  {
  }

  lemma {:induction false} EndFits(docs: seq<Doc>, doc: Doc, c: Conf, c': Conf)
    requires Fits(Rooted(docs, doc.heads, doc.root), c) && c' == Conf(PDocumentStart, [], c'.ds, c'.next)
    requires doc.ends == 0 ==> c'.next != Some(DocumentEndToken)
    ensures Fits(Documents(docs + [doc]), c')
  {
    SameDoc(Doc(doc.heads, doc.root, 0), doc, docs == []);
    hide SyntaxOk, HeadsOk, DocOk, DocsOk;
    DocsOne(docs, doc);
  }

  lemma {:induction false} SameDoc(a: Doc, b: Doc, first: bool)
    requires DocOk(a, first) && a.heads == b.heads && a.root == b.root
    ensures DocOk(b, first)
  {
  }

  lemma {:induction false} DocsOne(docs: seq<Doc>, d: Doc)
    ensures DocsKinds(docs + [d]) == DocsKinds(docs) + (d.heads + SyntaxKinds(d.root) + Ends(d.ends))
    ensures DocsEvents(docs + [d]) ==
            DocsEvents(docs) + ([StartOf(d.heads)] + SyntaxEvents(d.root, Scope(d.heads)) + [DocumentEnd(d.ends == 0)])
    ensures DocsOk(docs) && DocOk(d, docs == []) ==> DocsOk(docs + [d])
  {
    hide SyntaxKinds, SyntaxEvents, Scope, StartOf, DocOk;
    assert (docs + [d])[..|docs|] == docs;
  }

  /** More of DOCUMENT-END behind the last document. */
  lemma {:induction false} MoreEnds(docs: seq<Doc>, k: nat) returns (docs': seq<Doc>)
    requires DocsOk(docs) && (k > 0 ==> docs != [] && docs[|docs| - 1].ends > 0)
    ensures DocsOk(docs') && DocsKinds(docs') == DocsKinds(docs) + Ends(k) && DocsEvents(docs') == DocsEvents(docs)
    ensures docs' == [] <==> docs == []
  {
    hide DocOk, DocsKinds, DocsEvents, Ends;
    if k == 0 {
      docs' := docs;
      NoEnds();
    } else {
      var n := |docs| - 1;
      var last := docs[n];
      var more := last.(ends := last.ends + k);
      docs' := docs[..n] + [more];
      assert docs == docs[..n] + [last];
      assert DocOk(last, n == 0);
      SameDoc(last, more, n == 0);
      MoreEndsSay(docs[..n], last, k);
    }
  }

  lemma {:induction false} MoreEndsSay(docs: seq<Doc>, last: Doc, k: nat)
    requires last.ends > 0
    ensures var more := last.(ends := last.ends + k);
      && DocsKinds(docs + [more]) == DocsKinds(docs + [last]) + Ends(k) && DocsEvents(docs + [more]) == DocsEvents(docs + [last])
  {
    var more := last.(ends := last.ends + k);
    DocsOne(docs, last);
    DocsOne(docs, more);
    assert Ends(more.ends) == Ends(last.ends) + Ends(k);
    hide DocsKinds, DocsEvents, Ends, SyntaxKinds, SyntaxEvents, StartOf, Scope;
  }

  /** A document starts, or the stream ends. */
  lemma {:induction false} StartDerives(docs: seq<Doc>, c: Conf, lead: seq<Kind>, own: seq<Kind>, e: Event, c': Conf)
    returns (d': Derivation)
    requires Fits(Documents(docs), c) && StartStep(c, own, e, c') && lead == Ends(|lead|) && (own == [] ==> docs == [])
    requires lead != [] ==> docs != [] && c.next == Some(DocumentEndToken)
    ensures Advances(Documents(docs), d', lead + own, e, c')
  {
    hide *;
    DocsFit(docs, c, lead);
    var docs' := MoreEnds(docs, |lead|);
    StartCases(docs', c, own, e, c');
    if own == [StreamEndToken] && e == StreamEnd && Fits(Finished(docs'), c') {
      d' := Finished(docs');
      StreamEnds(docs, docs', lead);
    } else {
      d' := Unfinished(docs', own, []);
      DocStarts(docs, docs', lead, own);
    }
    AdvancesIf(Documents(docs), d', lead + own, e, c');
  }

  lemma {:induction false} DocsFit(docs: seq<Doc>, c: Conf, lead: seq<Kind>)
    requires Fits(Documents(docs), c) && (lead != [] ==> docs != [] && c.next == Some(DocumentEndToken))
    ensures DocsOk(docs) && (|lead| > 0 ==> docs != [] && docs[|docs| - 1].ends > 0)
  {
    hide DocsOk;
  }

  lemma {:induction false} StartCases(docs: seq<Doc>, c: Conf, own: seq<Kind>, e: Event, c': Conf)
    requires StartStep(c, own, e, c') && DocsOk(docs) && (own == [] ==> docs == [])
    ensures || (own == [StreamEndToken] && e == StreamEnd && Fits(Finished(docs), c'))
            || (e == StartOf(own) && Fits(Unfinished(docs, own, []), c'))
  {
    hide DocsOk, HeadsOk, Scope, StartOf, Open;
  }

  lemma {:induction false} StreamEnds(docs: seq<Doc>, docs': seq<Doc>, ends: seq<Kind>)
    requires DocsKinds(docs') == DocsKinds(docs) + ends && DocsEvents(docs') == DocsEvents(docs)
    ensures KindsOf(Finished(docs')) == KindsOf(Documents(docs)) + (ends + [StreamEndToken])
    ensures EventsOf(Finished(docs')) == EventsOf(Documents(docs)) + [StreamEnd]
  {
    hide DocsKinds, DocsEvents;
    assert [StreamStartToken] + (DocsKinds(docs) + ends) + [StreamEndToken] ==
           [StreamStartToken] + DocsKinds(docs) + (ends + [StreamEndToken]);
  }

  lemma {:induction false} DocStarts(docs: seq<Doc>, docs': seq<Doc>, ends: seq<Kind>, heads: seq<Kind>)
    requires DocsKinds(docs') == DocsKinds(docs) + ends && DocsEvents(docs') == DocsEvents(docs)
    ensures KindsOf(Unfinished(docs', heads, [])) == KindsOf(Documents(docs)) + (ends + heads)
    ensures EventsOf(Unfinished(docs', heads, [])) == EventsOf(Documents(docs)) + [StartOf(heads)]
  {
    NoneOpen(Scope(heads));
    hide DocsKinds, DocsEvents, Scope, StartOf, OpenKinds, OpenEvents;
    assert [StreamStartToken] + (DocsKinds(docs) + ends) + heads == ([StreamStartToken] + DocsKinds(docs)) + (ends + heads);
    assert [StreamStart] + DocsEvents(docs) + [StartOf(heads)] + [] == [StreamStart] + DocsEvents(docs) + [StartOf(heads)];
    assert HeadKinds(docs', heads) + [] == HeadKinds(docs', heads);
  }

  /** Where a derivation has come when the parser is outside of collections. */
  lemma {:induction false} WhichFits(d: Derivation, c: Conf)
    requires Fits(d, c)
    ensures c.state.PStreamStart? ==> d.Unbegun?
    ensures c.state.PImplicitDocumentStart? || c.state.PDocumentStart? ==> d.Documents?
    ensures AwaitsRoot(c.state) ==> d.Unfinished? && d.open == []
    ensures c.state.PDocumentEnd? ==> d.Rooted?
    ensures InsideCollection(c.state) ==> d.Unfinished? && !AwaitsRoot(c.state)
    ensures c.state.PEnd? ==> d.Finished?
  {
    hide DocsOk, HeadsOk, DocOk, Wait, Nests, Scope, AllLevels, Saved;
  }

  /** One event outside of collections. */
  lemma {:induction false} DocumentDerives(d: Derivation, c: Conf, lead: seq<Kind>, own: seq<Kind>, e: Event, c': Conf)
    returns (d': Derivation)
    requires Fits(d, c) && !InsideCollection(c.state) && DocumentStep(c, lead, own, e, c')
    ensures Advances(d, d', lead + own, e, c')
  {
    hide NodeStep, StartStep, Ends, Scope, DocsOk, HeadsOk, DocOk, Open, Saved, Advances, KindsOf, EventsOf;
    WhichFits(d, c);
    if c.state.PStreamStart? {
      d' := Documents([]);
      StreamDerives(c, c');
      assert lead + own == [StreamStartToken];
    } else if AwaitsRoot(c.state) {
      d' := RootDerives(d.docs, d.heads, c, own, e, c');
      assert lead + own == own;
    } else if c.state.PDocumentEnd? {
      d' := Documents(d.docs + [Doc(d.heads, d.root, |lead|)]);
      EndDerives(d.docs, d.heads, d.root, c, lead, c');
      assert lead + own == lead;
    } else {
      NoEnds();
      d' := StartDerives(d.docs, c, lead, own, e, c');
    }
  }

  lemma {:induction false} NoEnds()
    ensures Ends(0) == []
  {
  }

  lemma {:induction false} StreamDerives(c: Conf, c': Conf)
    requires c' == Conf(PImplicitDocumentStart, [], c'.ds, c'.next)
    ensures Advances(Unbegun, Documents([]), [StreamStartToken], StreamStart, c')
  {
    assert [StreamStartToken] + DocsKinds([]) == [StreamStartToken] && [StreamStart] + DocsEvents([]) == [StreamStart];
  }

  /** Each event takes the derivation on by the tokens that are taken for it. */
  lemma {:induction false} Derives(d: Derivation, c: Conf, lead: seq<Kind>, own: seq<Kind>, e: Event, c': Conf) returns (d': Derivation)
    requires Fits(d, c) && Step(c, lead, own, e, c')
    ensures Advances(d, d', lead + own, e, c')
  {
    hide CollectionStep, DocumentStep, Scope, Open, Saved, Advances, HeadsFit;
    WhichFits(d, c);
    if InsideCollection(c.state) {
      d' := CollectionDerives(d.docs, d.heads, d.open, c, lead, own, e, c');
    } else {
      d' := DocumentDerives(d, c, lead, own, e, c');
    }
  }

  // ---------------------------------------------------------------------
  // Which steps there are
  // ---------------------------------------------------------------------

  lemma {:induction false} BlockSequenceGoes(c: Conf, c0: Conf, first: seq<Kind>, lead: seq<Kind>, own: seq<Kind>, e: Event, c': Conf)
    requires c0.saved == c.saved != [] && c0.ds == c.ds && BlockSequenceStep(c0, [], lead, own, e, c')
    requires if c.state == PBlockSequenceFirstEntry then first == [BlockSequenceStart] else c.state == PBlockSequenceEntry && first == []
    ensures Step(c, first + lead, own, e, c')
  {
    hide NodeStep;
    assert [] + lead == lead && [] + [BlockEntry] == [BlockEntry] && [] + [BlockEnd] == [BlockEnd];
  }

  lemma {:induction false} IndentlessSequenceGoes(c: Conf, lead: seq<Kind>, own: seq<Kind>, e: Option<Event>, c': Conf)
    requires c.saved != [] && c.state == PIndentlessSequenceEntry
    requires e.Some? ==>
      var s := PIndentlessSequenceEntry;
      || (lead == [BlockEntry] && (Node(c, s, InBlock, own, e.value, c') || Lacks(c, s, own, e.value, c')))
      || (lead == [] && c.next != Some(BlockEntry) && Ended(c, SequenceEnd, own, e.value, c'))
    ensures e.Some? ==> Step(c, lead, own, e.value, c')
  {
    hide Node, Lacks, Ended;
  }

  lemma {:induction false} BlockMappingKeyGoes(c: Conf, c0: Conf, first: seq<Kind>, lead: seq<Kind>, own: seq<Kind>, e: Event, c': Conf)
    requires c0.saved == c.saved != [] && c0.ds == c.ds && BlockMappingStep(c0, [], lead, own, e, c')
    requires if c.state == PBlockMappingFirstKey then first == [BlockMappingStart] else c.state == PBlockMappingKey && first == []
    ensures Step(c, first + lead, own, e, c')
  {
    hide NodeStep;
    assert [] + lead == lead && [] + [Key] == [Key] && [] + [BlockEnd] == [BlockEnd];
  }

  lemma {:induction false} ValueGoes(c: Conf, lead: seq<Kind>, own: seq<Kind>, e: Option<Event>, c': Conf)
    requires c.saved != [] && ValueState(c.state).Some?
    requires e.Some? ==>
      var (s, place) := ValueState(c.state).value;
      || (lead == [Value] && Node(c, s, place, own, e.value, c') && c.state != PFlowMappingEmptyValue)
      || ((lead == [] || (lead == [Value] && c.state != PFlowMappingEmptyValue)) && Lacks(c, s, own, e.value, c'))
    ensures e.Some? ==> Step(c, lead, own, e.value, c')
  {
    hide Node, Lacks;
  }

  lemma {:induction false} PairKeyGoes(c: Conf, lead: seq<Kind>, own: seq<Kind>, e: Option<Event>, c': Conf)
    requires c.saved != [] && c.state == PFlowSequenceEntryMappingKey
    requires e.Some? ==>
      var s := PFlowSequenceEntryMappingValue;
      || (lead == [] && Node(c, s, InFlow, own, e.value, c'))
      || (|lead| == 1 && (lead[0].Value? || lead[0].FlowEntry? || lead[0].FlowSequenceEnd?) && Lacks(c, s, own, e.value, c'))
    ensures e.Some? ==> Step(c, lead, own, e.value, c')
  {
    hide Node, Lacks;
  }

  lemma {:induction false} PairEndGoes(c: Conf, c': Conf)
    requires c.saved != [] && c.state == PFlowSequenceEntryMappingEnd
    requires c' == Conf(PFlowSequenceEntry, c.saved, c.ds, c'.next)
    ensures Step(c, [], [], MappingEnd, c')
  {
  }

  /** An entry of a flow sequence, or its end, once the comma is past. */
  ghost predicate FlowItem(c: Conf, lead: seq<Kind>, own: seq<Kind>, e: Event, c': Conf) {
    && c.saved != []
    && ((lead == [] && Node(c, PFlowSequenceEntry, InFlow, own, e, c'))
        || (lead == [Key] && own == [] && e == MappingStart(None, None, true, Flow)
            && c' == Conf(PFlowSequenceEntryMappingKey, c.saved, c.ds, c'.next))
        || (lead == [FlowSequenceEnd] && Ended(c, SequenceEnd, own, e, c')))
  }

  lemma {:induction false} FlowSequenceGoes(c: Conf, mid: Conf, comma: seq<Kind>, lead: seq<Kind>, own: seq<Kind>, e: Event, c': Conf)
    requires c.saved == mid.saved && c.ds == mid.ds && FlowItem(mid, lead, own, e, c')
    requires if c.state == PFlowSequenceFirstEntry then comma == [FlowSequenceStart]
             else c.state == PFlowSequenceEntry && (comma == [FlowEntry] || (comma == [] && lead == [FlowSequenceEnd]))
    ensures Step(c, comma + lead, own, e, c')
  {
    hide NodeStep;
    assert comma + [] == comma;
  }

  /** A pair of a flow mapping, or its end, once the comma is past. */
  ghost predicate FlowPairItem(c: Conf, lead: seq<Kind>, own: seq<Kind>, e: Event, c': Conf) {
    && c.saved != []
    && ((lead == [] && Node(c, PFlowMappingEmptyValue, InFlow, own, e, c'))
        || (lead == [Key] && (Node(c, PFlowMappingValue, InFlow, own, e, c') || Lacks(c, PFlowMappingValue, own, e, c')))
        || (lead == [FlowMappingEnd] && Ended(c, MappingEnd, own, e, c')))
  }

  lemma {:induction false} FlowMappingGoes(c: Conf, mid: Conf, comma: seq<Kind>, lead: seq<Kind>, own: seq<Kind>, e: Event, c': Conf)
    requires c.saved == mid.saved && c.ds == mid.ds && FlowPairItem(mid, lead, own, e, c')
    requires if c.state == PFlowMappingFirstKey then comma == [FlowMappingStart]
             else c.state == PFlowMappingKey && (comma == [FlowEntry] || (comma == [] && lead == [FlowMappingEnd]))
    ensures Step(c, comma + lead, own, e, c')
  {
    hide NodeStep;
    assert comma + [] == comma;
  }

  lemma {:induction false} StreamGoes(c: Conf, c': Conf)
    requires c.state == PStreamStart && c' == Conf(PImplicitDocumentStart, [], c'.ds, c'.next)
    ensures Step(c, [StreamStartToken], [], StreamStart, c')
  {
  }

  lemma {:induction false} DocumentGoes(c: Conf, lead: seq<Kind>, own: seq<Kind>, e: Option<Event>, c': Conf)
    requires c.state == PImplicitDocumentStart || c.state == PDocumentStart
    requires e.Some? ==>
      && (if c.state == PImplicitDocumentStart then lead == []
          else lead == Ends(|lead|) && (lead != [] ==> c.next == Some(DocumentEndToken)) && own != [])
      && ((HeadsOk(own) && e.value == StartOf(own) && c'.ds == Scope(own) && c'.saved == [PDocumentEnd]
           && c'.state == if own == [] then PBlockNode else PDocumentContent)
          || (own == [StreamEndToken] && e.value == StreamEnd && c' == Conf(PEnd, [], c'.ds, c'.next)))
    ensures e.Some? ==> Step(c, lead, own, e.value, c')
  {
    hide Ends, Scope, StartOf, HeadsOk;
  }

  lemma {:induction false} RootGoes(c: Conf, own: seq<Kind>, e: Option<Event>, c': Conf)
    requires c.state == PDocumentContent || c.state == PBlockNode
    requires e.Some? ==>
      || NodeStep([PDocumentEnd], c.ds, InBlock, own, e.value, c')
      || (c.state == PDocumentContent && own == [] && e.value == EMPTY && c' == Conf(PDocumentEnd, [], c.ds, c'.next))
    ensures e.Some? ==> Step(c, [], own, e.value, c')
  {
    hide NodeStep;
  }

  lemma {:induction false} DocumentEndGoes(c: Conf, lead: seq<Kind>, c': Conf)
    requires c.state == PDocumentEnd && (lead == [DocumentEndToken] || (lead == [] && c'.next != Some(DocumentEndToken)))
    requires c' == Conf(PDocumentStart, [], c'.ds, c'.next)
    ensures Step(c, lead, [], DocumentEnd(lead == []), c')
  {
  }
}
