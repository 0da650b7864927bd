/** The parser of the YAML library (parser.c): a pushdown machine from tokens
    to events. */
module YamlParser {
  import opened CStrings
  import opened Options
  import opened YamlEvents
  import opened YamlGrammar
  import opened YamlDerivation

  type Mark = nat

  datatype Token = Token(kind: Kind, start: Mark)

  datatype Problem = NoProblem | ScannerProblem | ParserProblem(context: Option<Mark>, at: Mark) | ComposerProblem

  /** What the parser is inside of in a state, on top of what the saved states
      are inside of. */
  ghost function Expect(s: State): seq<Frame> {
    match s
    case PStreamStart => [BeforeStream]
    case PImplicitDocumentStart => [InStream]
    case PDocumentStart => [InStream]
    case PDocumentEnd => [InStream, AtDocumentEnd]
    case PBlockSequenceFirstEntry => [InSequence]
    case PBlockSequenceEntry => [InSequence]
    case PIndentlessSequenceEntry => [InSequence]
    case PBlockMappingFirstKey => [AtKey]
    case PBlockMappingKey => [AtKey]
    case PBlockMappingValue => [AtValue]
    case PFlowSequenceFirstEntry => [InSequence]
    case PFlowSequenceEntry => [InSequence]
    case PFlowSequenceEntryMappingKey => [InSequence, AtKey]
    case PFlowSequenceEntryMappingValue => [InSequence, AtValue]
    case PFlowSequenceEntryMappingEnd => [InSequence, AtKey]
    case PFlowMappingFirstKey => [AtKey]
    case PFlowMappingKey => [AtKey]
    case PFlowMappingValue => [AtValue]
    case PFlowMappingEmptyValue => [AtValue]
    case _ => []
  }

  ghost function Opened(states: seq<State>): seq<Frame> {
    if states == [] then [] else Opened(states[..|states| - 1]) + Expect(states[|states| - 1])
  }

  /** Where in the event stream the parser is. */
  ghost function Position(s: State, states: seq<State>): seq<Frame> {
    if AwaitsRoot(s) then [InStream, AtRoot] else Opened(states) + Expect(s)
  }

  /** The states right after a collection has started, with the token that they skip. */
  predicate First(s: State, k: Kind) {
    || (s.PBlockSequenceFirstEntry? && k.BlockSequenceStart?)
    || (s.PBlockMappingFirstKey? && k.BlockMappingStart?)
    || (s.PFlowSequenceFirstEntry? && k.FlowSequenceStart?)
    || (s.PFlowMappingFirstKey? && k.FlowMappingStart?)
  }

  /** The collections that end with a token of their own have a mark on the stack. */
  ghost function Marked(s: State): nat {
    if (InCollection(s) && !s.PIndentlessSequenceEntry?) || s.PFlowSequenceEntryMappingKey? then 1 else 0
  }

  ghost function AllMarked(states: seq<State>): nat {
    if states == [] then 0 else AllMarked(states[..|states| - 1]) + Marked(states[|states| - 1])
  }

  ghost predicate StateOk(s: State, states: seq<State>) {
    match s
    case PStreamStart => states == []
    case PImplicitDocumentStart => states == []
    case PDocumentStart => states == []
    case PDocumentEnd => states == []
    case PEnd => states == []
    case PBlockNode => states == [PDocumentEnd]
    case PDocumentContent => states == [PDocumentEnd]
    case PBlockNodeOrIndentlessSequence => false
    case PFlowNode => false
    case _ => Saved(states)
  }

  /** How many events a state can lead to before it takes another token. */
  ghost function Weight(s: State): nat {
    match s
    case PStreamStart => 1
    case PImplicitDocumentStart => 3
    case PDocumentContent => 1
    case PBlockNode => 1
    case PDocumentEnd => 1
    case PIndentlessSequenceEntry => 1
    case PBlockMappingValue => 1
    case PFlowSequenceEntryMappingKey => 3
    case PFlowSequenceEntryMappingValue => 2
    case PFlowSequenceEntryMappingEnd => 1
    case PFlowMappingValue => 1
    case PFlowMappingEmptyValue => 1
    case _ => 0
  }

  ghost function Weights(states: seq<State>): nat {
    if states == [] then 0 else Weights(states[..|states| - 1]) + Weight(states[|states| - 1])
  }

  lemma {:induction false} Pushed(states: seq<State>, s: State)
    ensures Opened(states + [s]) == Opened(states) + Expect(s)
    ensures AllMarked(states + [s]) == AllMarked(states) + Marked(s)
    ensures Weights(states + [s]) == Weights(states) + Weight(s)
    ensures Saved(states) && InCollection(s) ==> Saved(states + [s])
  {
    assert (states + [s])[..|states|] == states;
  }

  lemma {:induction false} RootStates()
    ensures Opened([PDocumentEnd]) == [InStream, AtDocumentEnd] && Saved([PDocumentEnd])
    ensures Weights([PDocumentEnd]) == 1 && AllMarked([PDocumentEnd]) == 0
  {
    assert [PDocumentEnd][..0] == [];
  }

  lemma {:induction false} StreamAccepted()
    ensures Accept([BeforeStream], StreamStart) == Some([InStream])
  {
    assert [BeforeStream][..0] + [InStream] == [InStream];
  }

  lemma {:induction false} DocumentAccepted(implicit: bool)
    ensures Accept([InStream, AtDocumentEnd], DocumentEnd(implicit)) == Some([InStream])
  {
    assert [InStream, AtDocumentEnd][..1] == [InStream];
  }

  lemma {:induction false} PoppedState(states: seq<State>)
    requires Saved(states)
    ensures var n := |states| - 1;
            StateOk(states[n], states[..n]) && !AwaitsRoot(states[n]) && !IsFirst(states[n]) && !OutsideDocuments(states[n])
  {
    var n := |states| - 1;
    if n > 0 {
      assert InCollection(states[n]) && Saved(states[..n]);
    }
  }

  lemma {:induction false} Popped(states: seq<State>)
    requires Saved(states)
    ensures var n := |states| - 1;
            && Opened(states) == Opened(states[..n]) + Expect(states[n])
            && AllMarked(states) == AllMarked(states[..n]) + Marked(states[n])
            && Weights(states) == Weights(states[..n]) + Weight(states[n])
  {
  }

  /** What a token or an event says beyond the structure. */
  datatype Item = Anchored(name: CString) | Aliased(name: CString) | Text(value: seq<byte>, style: ScalarStyle)

  function TokenItems(k: Kind): seq<Item> {
    match k
    case AliasToken(n) => [Aliased(n)]
    case AnchorToken(n) => [Anchored(n)]
    case ScalarToken(v, s) => if v == [] && s.Plain? then [] else [Text(v, s)]
    case _ => []
  }

  function AnchorItems(a: Option<CString>): seq<Item> {
    if a.Some? then [Anchored(a.value)] else []
  }

  function EventItems(e: Event): seq<Item> {
    match e
    case Alias(n) => [Aliased(n)]
    case Scalar(a, _, v, _, _, s) => AnchorItems(a) + if v == [] && s.Plain? then [] else [Text(v, s)]
    case SequenceStart(a, _, _, _) => AnchorItems(a)
    case MappingStart(a, _, _, _) => AnchorItems(a)
    case _ => []
  }

  function AllTokenItems(ts: seq<Token>): seq<Item> {
    if ts == [] then [] else AllTokenItems(ts[..|ts| - 1]) + TokenItems(ts[|ts| - 1].kind)
  }

  function AllEventItems(es: seq<Event>): seq<Item> {
    if es == [] then [] else AllEventItems(es[..|es| - 1]) + EventItems(es[|es| - 1])
  }

  function EventTag(e: Event): Option<CString> {
    if e.Scalar? || e.SequenceStart? || e.MappingStart? then e.tag else None
  }

  function TagItems(tag: Option<CString>): seq<Option<CString>> {
    if tag.Some? then [tag] else []
  }

  function AllTagItems(es: seq<Event>): seq<Option<CString>> {
    if es == [] then [] else AllTagItems(es[..|es| - 1]) + TagItems(EventTag(es[|es| - 1]))
  }

  /** The implicit flags fit the tag: a node without a tag has them, and one with
      a tag has not, unless the tag is "!". */
  predicate FlagsOk(e: Event) {
    match e
    case Scalar(_, tag, v, plain, quoted, style) =>
      && (tag.None? ==> plain == !quoted && (plain <==> style.Plain?))
      && (tag.Some? ==> !quoted)
      && (tag.Some? && tag.value != [] && style != Plain ==> (plain <==> tag.value == [BANG]))
    case SequenceStart(_, tag, implicit, _) => implicit <==> tag.None? || tag.value == []
    case MappingStart(_, tag, implicit, _) => implicit <==> tag.None? || tag.value == []
    case _ => true
  }

  ghost predicate UniqueHandles(ds: seq<TagDirective>) {
    forall i, j :: 0 <= i < j < |ds| ==> ds[i].handle != ds[j].handle
  }

  predicate OutsideDocuments(s: State) {
    s.PStreamStart? || s.PImplicitDocumentStart? || s.PDocumentStart? || s.PEnd?
  }

  class Parser {
    const tokens: seq<Token>
    var parsed: nat
    var streamEndProduced: bool
    var error: Problem
    var state: State
    var states: seq<State>
    var marks: seq<Mark>
    var directives: seq<TagDirective>
    ghost var items: seq<Item>                // what the tokens taken so far say
    ghost var tags: seq<Option<CString>>      // what the tag tokens taken so far mean
    ghost var events: seq<Event>              // the events delivered so far
    ghost var derived: Derivation             // how they come from the tokens

    constructor (tokens: seq<Token>)
      ensures Valid() && this.tokens == tokens && events == [] && error == NoProblem && state == PStreamStart
    {
      this.tokens, parsed := tokens, 0;
      streamEndProduced, error := false, NoProblem;
      state, states, marks, directives := PStreamStart, [], [], [];
      items, tags, events, derived := [], [], [], Unbegun;
      new;
      assert Opened([]) == [] && Here() == [BeforeStream];
    }

    ghost predicate Counted()
      reads this`parsed, this`items
    {
      parsed <= |tokens| && items == AllTokenItems(tokens[..parsed])
    }

    /** The tokens from one place to another. */
    ghost function Between(a: nat, b: nat): seq<Kind> {
      if a <= b <= |tokens| then seq(b - a, i requires 0 <= i < b - a => tokens[a + i].kind) else []
    }

    lemma {:induction false} BetweenIs(a: nat)
      ensures Between(a, a) == []
      ensures a < |tokens| ==> Between(a, a + 1) == [tokens[a].kind]
      ensures a + 1 < |tokens| ==> Between(a, a + 2) == [tokens[a].kind] + [tokens[a + 1].kind]
    {
    }

    lemma {:induction false} BetweenTwo(a: nat, b: nat, c: nat)
      requires a <= b <= c <= |tokens|
      ensures Between(a, c) == Between(a, b) + Between(b, c)
    {
    }

    lemma {:induction false} InTokens()
      requires Counted()
      ensures parsed <= |tokens|
    {
    }

    // What each call needs in front of it not to report an error.

    ghost predicate IsAt(p: nat, ks: set<Kind>) {
      p < |tokens| && tokens[p].kind in ks
    }

    /** Where the properties of a node end that starts there. */
    ghost function PropertiesEnd(p: nat): nat {
      if p < |tokens| && tokens[p].kind.AnchorToken? then (if p + 1 < |tokens| && tokens[p + 1].kind.Tag? then p + 2 else p + 1)
      else if p < |tokens| && tokens[p].kind.Tag? then (if p + 1 < |tokens| && tokens[p + 1].kind.AnchorToken? then p + 2 else p + 1)
      else p
    }

    ghost predicate Resolves(p: nat, q: nat, ds: seq<TagDirective>) {
      forall i :: p <= i < q && i < |tokens| && tokens[i].kind.Tag? ==> Resolve(ds, tokens[i].kind.handle, tokens[i].kind.suffix).Some?
    }

    predicate ContentStarts(k: Kind, block: bool, indentless: bool) {
      || k.ScalarToken? || k.FlowSequenceStart? || k.FlowMappingStart?
      || (block && (k.BlockSequenceStart? || k.BlockMappingStart?)) || (indentless && k.BlockEntry?)
    }

    /** A node starts there: an alias, or properties with tags that are known, or content. */
    ghost predicate NodeStarts(p: nat, block: bool, indentless: bool, ds: seq<TagDirective>): (r: bool)
      ensures r ==> p < |tokens|
    {
      var q := PropertiesEnd(p);
      && p < |tokens|
      && (tokens[p].kind.AliasToken?
          || (q < |tokens| && Resolves(p, q, ds) && (q > p || ContentStarts(tokens[q].kind, block, indentless))))
    }

    /** One of these tokens is there, or a node starts. */
    ghost predicate NodeOr(p: nat, ks: set<Kind>, block: bool, indentless: bool, ds: seq<TagDirective>): (r: bool)
      ensures r ==> p < |tokens|
    {
      IsAt(p, ks) || NodeStarts(p, block, indentless, ds)
    }

    ghost predicate BlockSequenceCan(p: nat, ds: seq<TagDirective>): (r: bool)
      ensures r ==> p < |tokens|
    {
      IsAt(p, {BlockEnd}) || (IsAt(p, {BlockEntry}) && NodeOr(p + 1, {BlockEntry, BlockEnd}, true, false, ds))
    }

    ghost predicate IndentlessSequenceCan(p: nat, ds: seq<TagDirective>) {
      && p < |tokens|
      && (tokens[p].kind.BlockEntry? ==> NodeOr(p + 1, {BlockEntry, Key, Value, BlockEnd}, true, false, ds))
    }

    ghost predicate BlockMappingCan(p: nat, ds: seq<TagDirective>): (r: bool)
      ensures r ==> p < |tokens|
    {
      IsAt(p, {BlockEnd}) || (IsAt(p, {Key}) && NodeOr(p + 1, {Key, Value, BlockEnd}, true, true, ds))
    }

    ghost predicate BlockValueCan(p: nat, ds: seq<TagDirective>) {
      p < |tokens| && (tokens[p].kind.Value? ==> NodeOr(p + 1, {Key, Value, BlockEnd}, true, true, ds))
    }

    ghost predicate FlowSequenceCan(p: nat, ds: seq<TagDirective>): (r: bool)
      ensures r ==> p < |tokens|
    {
      NodeOr(p, {Key, FlowSequenceEnd}, false, false, ds)
    }

    ghost predicate PairKeyCan(p: nat, ds: seq<TagDirective>) {
      NodeOr(p, {Value, FlowEntry, FlowSequenceEnd}, false, false, ds)
    }

    ghost predicate PairValueCan(p: nat, ds: seq<TagDirective>) {
      p < |tokens| && (tokens[p].kind.Value? ==> NodeOr(p + 1, {FlowEntry, FlowSequenceEnd}, false, false, ds))
    }

    ghost predicate FlowMappingCan(p: nat, ds: seq<TagDirective>): (r: bool)
      ensures r ==> p < |tokens|
    {
      || IsAt(p, {FlowMappingEnd})
      || (IsAt(p, {Key}) && NodeOr(p + 1, {Value, FlowEntry, FlowMappingEnd}, false, false, ds))
      || (!IsAt(p, {Key}) && NodeStarts(p, false, false, ds))
    }

    ghost predicate FlowValueCan(p: nat, ds: seq<TagDirective>) {
      p < |tokens| && (tokens[p].kind.Value? ==> NodeOr(p + 1, {FlowEntry, FlowMappingEnd}, false, false, ds))
    }

    /** Where directives end that may stand there. */
    ghost function DirectivesEnd(p: nat, version: bool, ds: seq<TagDirective>): Option<nat>
      decreases |tokens| - p
    {
      if p >= |tokens| then None
      else
        match tokens[p].kind
        case VersionDirective(major, minor) =>
          if version || major != 1 || minor !in {1, 2} then None else DirectivesEnd(p + 1, true, ds)
        case TagDirectiveToken(d) => if Defines(ds, d.handle) then None else DirectivesEnd(p + 1, version, ds + [d])
        case _ => Some(p)
    }

    ghost function EndsEnd(p: nat): nat
      decreases |tokens| - p
    {
      if p < |tokens| && tokens[p].kind.DocumentEndToken? then EndsEnd(p + 1) else p
    }

    ghost predicate ExplicitCan(p: nat) {
      var q := DirectivesEnd(p, false, []);
      q.Some? && IsAt(q.value, {DocumentStartToken})
    }

    ghost predicate DocumentCan(p: nat, implicit: bool) {
      && p < |tokens|
      && (tokens[p].kind.StreamEndToken? || (implicit && !IsDirective(tokens[p].kind) && !tokens[p].kind.DocumentStartToken?)
          || ExplicitCan(p))
    }

    ghost predicate ContentCan(p: nat, ds: seq<TagDirective>) {
      p < |tokens| && (EndsContent(tokens[p].kind) || NodeStarts(p, true, false, ds))
    }

    predicate EndsContent(k: Kind) {
      IsDirective(k) || k.DocumentStartToken? || k.DocumentEndToken? || k.StreamEndToken?
    }

    /** A flow collection goes on with a comma and an entry, or ends. */
    ghost predicate AfterComma(p: nat, end: Kind) {
      IsAt(p, {end}) || (IsAt(p, {FlowEntry}) && p + 1 < |tokens|)
    }

    ghost function PastComma(p: nat): nat {
      if IsAt(p, {FlowEntry}) then p + 1 else p
    }

    /** Exactly when a call gives an event and no error: by the state, and the tokens from
        `p` on. */
    ghost predicate Can(s: State, p: nat, ds: seq<TagDirective>) {
      match s
      case PStreamStart => IsAt(p, {StreamStartToken})
      case PImplicitDocumentStart => DocumentCan(p, true)
      case PDocumentStart => DocumentCan(EndsEnd(p), false)
      case PDocumentContent => ContentCan(p, ds)
      case PDocumentEnd => p < |tokens|
      case PBlockNode => NodeStarts(p, true, false, ds)
      case PBlockSequenceFirstEntry => BlockSequenceCan(p + 1, ds)
      case PBlockSequenceEntry => BlockSequenceCan(p, ds)
      case PIndentlessSequenceEntry => IndentlessSequenceCan(p, ds)
      case PBlockMappingFirstKey => BlockMappingCan(p + 1, ds)
      case PBlockMappingKey => BlockMappingCan(p, ds)
      case PBlockMappingValue => BlockValueCan(p, ds)
      case PFlowSequenceFirstEntry => FlowSequenceCan(p + 1, ds)
      case PFlowSequenceEntry => AfterComma(p, FlowSequenceEnd) && FlowSequenceCan(PastComma(p), ds)
      case PFlowSequenceEntryMappingKey => PairKeyCan(p, ds)
      case PFlowSequenceEntryMappingValue => PairValueCan(p, ds)
      case PFlowSequenceEntryMappingEnd => p < |tokens|
      case PFlowMappingFirstKey => FlowMappingCan(p + 1, ds)
      case PFlowMappingKey => AfterComma(p, FlowMappingEnd) && FlowMappingCan(PastComma(p), ds)
      case PFlowMappingValue => FlowValueCan(p, ds)
      case PFlowMappingEmptyValue => p < |tokens|
      case _ => false
    }

    ghost function Next(): Option<Kind>
      reads this`parsed
    {
      if parsed < |tokens| then Some(tokens[parsed].kind) else None
    }

    /** Where the parser is, as far as derivations are concerned. */
    ghost function Now(): Conf
      reads this`state, this`states, this`directives, this`parsed
    {
      Conf(state, states, directives, Next())
    }

    /** The parser is behind a node. */
    ghost predicate Behind(saved: seq<State>)
      reads this`state, this`states
    {
      saved != [] && state == saved[|saved| - 1] && states == saved[..|saved| - 1]
    }

    /** The stacks fit the state. */
    ghost predicate Placed()
      reads this`state, this`states, this`marks
    {
      StateOk(state, states) && |marks| == AllMarked(states) + Marked(state)
    }

    /** A state that skips the token that starts a collection has it before it. */
    ghost predicate Headed()
      reads this`state, this`parsed
    {
      IsFirst(state) ==> parsed < |tokens| && First(state, tokens[parsed].kind)
    }

    /** The machine is between two events. */
    ghost predicate Settled()
      reads this
    {
      && Placed() && Headed()
      && (OutsideDocuments(state) ==> directives == [])
      && (streamEndProduced <==> state.PEnd?)
      && (state.PStreamStart? <==> events == []) && (state.PStreamStart? <==> parsed == 0)
    }

    ghost function Here(): seq<Frame>
      reads this`state, this`states
    {
      Position(state, states)
    }

    /** The events that may still come from the tokens taken so far, less those
        that the tokens stand for. */
    ghost function Owed(): int
      reads this`state, this`states, this`parsed
    {
      Weight(state) + Weights(states) - 3 * parsed
    }

    /** The events so far are accepted by the grammar, and say what the tokens
        said.  After an error the tokens may be ahead of the events. */
    ghost predicate Valid()
      reads this
    {
      && Counted() && AcceptAll([BeforeStream], events).Some?
      && |events| <= 3 * parsed + 1
      && AllEventItems(events) <= items && AllTagItems(events) <= tags
      && (error == NoProblem ==>
            && Settled() && AcceptAll([BeforeStream], events) == Some(Here())
            && |events| + Owed() <= 1
            && AllEventItems(events) == items && AllTagItems(events) == tags)
      && Derived() && (error == NoProblem ==> DerivedHere())
    }

    /** The events so far are what a derivation of the first tokens stands for. */
    ghost predicate Derived()
      reads this`derived, this`events, this`parsed
    {
      EventsOf(derived) == events && KindsOf(derived) <= Between(0, parsed)
    }

    /** The tokens taken are all of this derivation, which has come as far as the parser. */
    ghost predicate DerivedHere()
      reads this`derived, this`parsed, this`state, this`states, this`directives
    {
      KindsOf(derived) == Between(0, parsed) && Fits(derived, Now())
    }

    /** stream_start_produced: the scanner has delivered the first token. */
    predicate StreamStartProduced()
      reads this`parsed
    {
      parsed > 0
    }

    /** PEEK_TOKEN: the scanner has failed where there are no more tokens. */
    method Peek() returns (t: Option<Token>)
      requires Counted()
      modifies `error
      ensures t.Some? ==> parsed < |tokens| && t.value == tokens[parsed] && error == old(error)
      ensures t.None? ==> parsed == |tokens| && error.ScannerProblem?
    {
      if parsed < |tokens| {
        t := Some(tokens[parsed]);
      } else {
        error := ScannerProblem;
        t := None;
      }
    }

    /** SKIP_TOKEN */
    method Skip()
      requires Counted() && parsed < |tokens|
      modifies `parsed, `streamEndProduced, `items, `tags
      ensures Counted() && parsed == old(parsed) + 1
      ensures var k := tokens[old(parsed)].kind;
              && streamEndProduced == k.StreamEndToken?
              && items == old(items) + TokenItems(k)
              && tags == old(tags) + if k.Tag? then [Resolve(directives, k.handle, k.suffix)] else []
    {
      var k := tokens[parsed].kind;
      streamEndProduced := k.StreamEndToken?;
      assert tokens[..parsed + 1][..parsed] == tokens[..parsed];
      items := items + TokenItems(k);
      tags := tags + if k.Tag? then [Resolve(directives, k.handle, k.suffix)] else [];
      parsed := parsed + 1;
    }

    /** POP on the stack of states. */
    method PopState()
      requires Saved(states)
      modifies `state, `states
      ensures StateOk(state, states) && !AwaitsRoot(state) && !IsFirst(state) && !OutsideDocuments(state)
      ensures Here() == old(Opened(states)) && AllMarked(states) + Marked(state) == old(AllMarked(states))
      ensures Weight(state) + Weights(states) == old(Weights(states)) && Behind(old(states))
    {
      var n := |states| - 1;
      PoppedState(states);
      Popped(states);
      state, states := states[n], states[..n];
    }

    /** The search for the handle of a tag in yaml_parser_parse_node. */
    method ResolveTag(handle: CString, suffix: CString) returns (tag: Option<CString>)
      ensures tag == Resolve(directives, handle, suffix)
    {
      if handle == [] {
        return Some(suffix);
      }
      var i := 0;
      while i < |directives|
        invariant 0 <= i <= |directives|
        invariant Resolve(directives, handle, suffix) == Resolve(directives[i..], handle, suffix)
      {
        if directives[i].handle == handle {
          return Some(directives[i].prefix + suffix);
        }
        assert directives[i..][1..] == directives[i + 1..];
        i := i + 1;
      }
      tag := None;
    }

    /** An anchor, if there is one next. */
    method TakeAnchor(token: Token) returns (next: Option<Token>, anchor: Option<CString>)
      requires Counted() && parsed < |tokens| && token == tokens[parsed] && error == NoProblem
      modifies `error, `parsed, `streamEndProduced, `items, `tags
      ensures Counted() && old(parsed) <= parsed && tags == old(tags)
      ensures items == old(items) + AnchorItems(anchor)
      ensures if anchor.Some? then token.kind == AnchorToken(anchor.value) else !token.kind.AnchorToken?
      ensures next.Some? ==> error == NoProblem && parsed < |tokens| && next.value == tokens[parsed]
      ensures next.Some? ==> parsed == old(parsed) + (if anchor.Some? then 1 else 0)
      ensures anchor.Some? && next.Some? ==> !streamEndProduced
      ensures anchor.None? ==> next == Some(token) && streamEndProduced == old(streamEndProduced)
      ensures next.None? ==> error != NoProblem
      ensures next.Some? <==> anchor.None? || old(parsed) + 1 < |tokens|
    {
      next, anchor := Some(token), None;
      if token.kind.AnchorToken? {
        anchor := Some(token.kind.name);
        Skip();
        next := Peek();
      }
    }

    /** A tag, if there is one next. */
    method TakeTag(token: Token) returns (next: Option<Token>, tag: Option<Kind>)
      requires Counted() && parsed < |tokens| && token == tokens[parsed] && error == NoProblem
      modifies `error, `parsed, `streamEndProduced, `items, `tags
      ensures Counted() && old(parsed) <= parsed && items == old(items)
      ensures tag == if token.kind.Tag? then Some(token.kind) else None
      ensures tags == old(tags) + if tag.Some? then [Resolve(directives, tag.value.handle, tag.value.suffix)] else []
      ensures next.Some? ==> error == NoProblem && parsed < |tokens| && next.value == tokens[parsed]
      ensures next.Some? ==> parsed == old(parsed) + (if tag.Some? then 1 else 0)
      ensures tag.Some? && next.Some? ==> !streamEndProduced
      ensures tag.None? ==> next == Some(token) && streamEndProduced == old(streamEndProduced)
      ensures next.None? ==> error != NoProblem
      ensures next.Some? <==> tag.None? || old(parsed) + 1 < |tokens|
    {
      next, tag := Some(token), None;
      if token.kind.Tag? {
        tag := Some(token.kind);
        Skip();
        next := Peek();
      }
    }

    /** The properties of a node: an anchor and a tag, in any order. */
    method TakeProperties(token: Token) returns (next: Option<Token>, anchor: Option<CString>, tag: Option<Kind>)
      requires Counted() && parsed < |tokens| && token == tokens[parsed] && error == NoProblem && !streamEndProduced
      modifies `error, `parsed, `streamEndProduced, `items, `tags
      ensures Counted() && old(parsed) <= parsed && old(items) <= items && old(tags) <= tags
      ensures next.Some? ==> error == NoProblem && parsed < |tokens| && next.value == tokens[parsed] && !streamEndProduced
      ensures next.Some? ==> items == old(items) + AnchorItems(anchor) && (tag.Some? ==> tag.value.Tag?)
      ensures next.Some? ==> tags == old(tags) + if tag.Some? then [Resolve(directives, tag.value.handle, tag.value.suffix)] else []
      ensures next.Some? ==> (parsed > old(parsed) <==> anchor.Some? || tag.Some?)
      ensures next.Some? ==> Properties(Between(old(parsed), parsed), anchor, tag)
      ensures next.None? ==> error != NoProblem
      ensures next.Some? <==> PropertiesEnd(old(parsed)) < |tokens|
      ensures next.Some? ==> parsed == PropertiesEnd(old(parsed))
      ensures next.Some? ==> if tag.Some? then exists i :: old(parsed) <= i < parsed && tokens[i].kind == tag.value
                             else forall i :: old(parsed) <= i < parsed ==> !tokens[i].kind.Tag?
    {
      BetweenIs(parsed);
      next, anchor, tag := Some(token), None, None;
      if token.kind.AnchorToken? {
        next, anchor := TakeAnchor(token);
        if next.Some? {
          next, tag := TakeTag(next.value);
        }
      } else if token.kind.Tag? {
        next, tag := TakeTag(token);
        if next.Some? {
          next, anchor := TakeAnchor(next.value);
        }
      }
    }

    /** The tokens are an anchor and a tag, in any order, as far as there are such. */
    static ghost predicate Properties(own: seq<Kind>, anchor: Option<CString>, tag: Option<Kind>) {
      && |own| == (if anchor.Some? then 1 else 0) + (if tag.Some? then 1 else 0) && (tag.Some? ==> tag.value.Tag?)
      && (anchor.Some? ==> AnchorToken(anchor.value) in own) && (tag.Some? ==> tag.value in own)
    }

    static lemma {:induction false} PropertiesAre(own: seq<Kind>, anchor: Option<CString>, tag: Option<Kind>, ds: seq<TagDirective>)
      requires Properties(own, anchor, tag)
      ensures IsProperties(own) && AnchorIn(own) == anchor
      ensures TagIn(own, ds) == if tag.Some? then Resolve(ds, tag.value.handle, tag.value.suffix) else None
    {
      if |own| == 2 {
        assert own[1..] == [own[1]] && [own[1]][1..] == [];
      } else if |own| == 1 {
        assert own[1..] == [];
      }
    }

    /** Inside a document, the event `e` leads from where `was` is open to here. */
    ghost predicate Landed(was: seq<Frame>, e: Event)
      reads this`state, this`states, this`marks
    {
      Placed() && !OutsideDocuments(state) && FlagsOk(e) && Accept(was, e) == Some(Here())
    }

    /** The parser is about to parse the node for which `rest + [f]` is open; it
        then goes on in the state saved last. */
    ghost predicate AtNode(rest: seq<Frame>, f: Frame)
      reads this`states, this`marks
    {
      Saved(states) && |marks| == AllMarked(states) && TakesNode(f) && Opened(states) == rest + [AfterNode(f)]
    }

    /** A collection starts. */
    method StartCollection(s: State, e: Event, ghost rest: seq<Frame>, ghost f: Frame)
      requires AtNode(rest, f) && FlagsOk(e) && (IsFirst(s) || s.PIndentlessSequenceEntry?)
      requires if s.PBlockMappingFirstKey? || s.PFlowMappingFirstKey? then e.MappingStart? else e.SequenceStart?
      modifies `state
      ensures Landed(rest + [f], e) && state == s
    {
      state := s;
      assert rest + [AfterNode(f)] + Expect(s) == rest + [AfterNode(f), if e.MappingStart? then AtKey else InSequence];
    }

    /** A scalar, or an alias, is a whole node. */
    method FinishNode(e: Event, ghost rest: seq<Frame>, ghost f: Frame)
      requires AtNode(rest, f) && FlagsOk(e) && (e.Scalar? || e.Alias?)
      modifies `state, `states
      ensures Landed(rest + [f], e) && !IsFirst(state) && Weight(state) + Weights(states) == old(Weights(states))
      ensures Behind(old(states))
    {
      PopState();
    }

    method ParseScalar(anchor: Option<CString>, tag: Option<CString>, token: Token, ghost rest: seq<Frame>, ghost f: Frame)
      returns (e: Event)
      requires AtNode(rest, f) && Counted() && parsed < |tokens| && token == tokens[parsed] && token.kind.ScalarToken?
      modifies `parsed, `streamEndProduced, `items, `tags, `state, `states
      ensures Landed(rest + [f], e) && !IsFirst(state) && Weight(state) + Weights(states) == old(Weights(states))
      ensures Counted() && parsed == old(parsed) + 1 && !streamEndProduced
      ensures items == old(items) + TokenItems(token.kind) && tags == old(tags)
      ensures EventItems(e) == AnchorItems(anchor) + TokenItems(token.kind) && EventTag(e) == tag
      ensures e == ScalarEvent(anchor, tag, token.kind.value, token.kind.style) && Behind(old(states))
    {
      hide Landed, AtNode, Weights, Counted;
      var plainImplicit, quotedImplicit := false, false;
      if (token.kind.style.Plain? && tag.None?) || tag == Some([BANG]) {
        plainImplicit := true;
      } else if tag.None? {
        quotedImplicit := true;
      }
      e := Scalar(anchor, tag, token.kind.value, plainImplicit, quotedImplicit, token.kind.style);
      FinishNode(e, rest, f);
      Skip();
    }

    lemma {:induction false} NodeSaved(rest: seq<Frame>, f: Frame)
      requires AtNode(rest, f)
      ensures states != []
    {
    }

    /** The content of a node, where that is a collection. */
    method ParseCollection(block: bool, indentless: bool, anchor: Option<CString>, tag: Option<CString>, token: Token,
                           ghost props: seq<Kind>, ghost rest: seq<Frame>, ghost f: Frame) returns (e: Option<Event>)
      requires AtNode(rest, f) && parsed < |tokens| && token == tokens[parsed] && states != []
      requires IsProperties(props) && anchor == AnchorIn(props) && tag == TagIn(props, directives)
      modifies `state
      ensures e.None? ==> state == old(state)
      ensures e.Some? <==> ContentStarts(token.kind, block, indentless) && !token.kind.ScalarToken?
      ensures e.Some? ==> Landed(rest + [f], e.value) && Headed() && Weight(state) <= if indentless then 1 else 0
      ensures e.Some? ==> EventItems(e.value) == AnchorItems(anchor) && EventTag(e.value) == tag
      ensures e.Some? ==> NodeStep(states, directives, NodePlace(block, indentless), props + [], e.value, Now())
    {
      hide Landed, AtNode, InCollection, Opened, Saved, AllMarked, Marked, Expect, Accept, AnchorIn, TagIn, IsProperties, NodeStep;
      var implicit := tag.None? || tag.value == [];
      var style := if token.kind.FlowSequenceStart? || token.kind.FlowMappingStart? then Flow else Block;
      var sequence, mapping := SequenceStart(anchor, tag, implicit, style), MappingStart(anchor, tag, implicit, style);
      e := None;
      ghost var shape;
      if indentless && token.kind.BlockEntry? {
        StartCollection(PIndentlessSequenceEntry, sequence, rest, f);
        e, shape := Some(sequence), IndentlessSequence;
      } else if token.kind.FlowSequenceStart? {
        StartCollection(PFlowSequenceFirstEntry, sequence, rest, f);
        e, shape := Some(sequence), FlowSequence;
      } else if token.kind.FlowMappingStart? {
        StartCollection(PFlowMappingFirstKey, mapping, rest, f);
        e, shape := Some(mapping), FlowMapping;
      } else if block && token.kind.BlockSequenceStart? {
        StartCollection(PBlockSequenceFirstEntry, sequence, rest, f);
        e, shape := Some(sequence), BlockSequence;
      } else if block && token.kind.BlockMappingStart? {
        StartCollection(PBlockMappingFirstKey, mapping, rest, f);
        e, shape := Some(mapping), BlockMapping;
      } else {
        return;
      }
      CollectionBegins(shape, block, indentless, props, states);
    }

    /** The content of a node, after its properties. */
    method ParseContent(block: bool, indentless: bool, anchor: Option<CString>, tag: Option<CString>, start: Mark, token: Token,
                        ghost props: seq<Kind>, ghost rest: seq<Frame>, ghost f: Frame) returns (e: Option<Event>)
      requires AtNode(rest, f) && Counted() && error == NoProblem && !streamEndProduced
      requires parsed < |tokens| && token == tokens[parsed]
      requires IsProperties(props) && anchor == AnchorIn(props) && tag == TagIn(props, directives)
      modifies `error, `parsed, `streamEndProduced, `items, `tags, `state, `states
      ensures old(parsed) <= parsed && Counted() && old(items) <= items && tags == old(tags)
      ensures e.None? ==> error != NoProblem
      ensures e.Some? <==> ContentStarts(token.kind, block, indentless) || anchor.Some? || tag.Some?
      ensures e.Some? ==> Landed(rest + [f], e.value) && Headed() && error == NoProblem && !streamEndProduced
      ensures e.Some? ==> Weight(state) + Weights(states) <= old(Weights(states)) + if indentless then 1 else 0
      ensures e.Some? ==> EventItems(e.value) == AnchorItems(anchor) + items[|old(items)|..]
      ensures e.Some? ==> EventTag(e.value) == tag
      ensures e.Some? ==>
                NodeStep(old(states), directives, NodePlace(block, indentless), props + Between(old(parsed), parsed), e.value, Now())
    {
      hide Landed, AtNode, Weights, Counted, InCollection, Opened, Saved, AllMarked, Marked, Expect, Accept, AnchorIn, TagIn,
           IsProperties, Between, NodeStep;
      BetweenIs(parsed);
      NodeSaved(rest, f);
      e := ParseCollection(block, indentless, anchor, tag, token, props, rest, f);
      if e.Some? {
        return;
      }
      if token.kind.ScalarToken? {
        var scalar := ParseScalar(anchor, tag, token, rest, f);
        e := Some(scalar);
        ScalarIs(props, token.kind, block, indentless, scalar, old(states));
      } else if anchor.Some? || tag.Some? {
        var scalar := Scalar(anchor, tag, [], tag.None? || tag.value == [], false, Plain);
        FinishNode(scalar, rest, f);
        e := Some(scalar);
        BareIs(props, block, indentless, scalar, old(states));
      } else {
        error := ParserProblem(Some(start), token.start);
      }
    }

    /** A collection has started. */
    lemma {:induction false} CollectionBegins(shape: Shape, block: bool, indentless: bool, props: seq<Kind>, saved: seq<State>)
      requires states == saved != [] && state == FirstState(shape) && IsProperties(props) && !shape.FlowPair?
      requires AllowedShape(shape, NodePlace(block, indentless)) && (shape.IndentlessSequence? ==> Next() == Some(BlockEntry))
      ensures NodeStep(saved, directives, NodePlace(block, indentless), props + [], StartEvent(shape, props, directives), Now())
    {
      assert props + [] == props;
    }

    lemma {:induction false} ScalarIs(props: seq<Kind>, k: Kind, block: bool, indentless: bool, e: Event, saved: seq<State>)
      requires Behind(saved) && IsProperties(props) && k.ScalarToken?
      requires e == ScalarEvent(AnchorIn(props), TagIn(props, directives), k.value, k.style)
      ensures NodeStep(saved, directives, NodePlace(block, indentless), props + [k], e, Now())
    {
      assert (props + [k])[..|props|] == props;
    }

    /** Properties and nothing else. */
    lemma {:induction false} BareIs(props: seq<Kind>, block: bool, indentless: bool, e: Event, saved: seq<State>)
      requires Behind(saved) && IsProperties(props) && (AnchorIn(props).Some? || TagIn(props, directives).Some?)
      requires var tag := TagIn(props, directives); e == Scalar(AnchorIn(props), tag, [], Implicit(tag), false, Plain)
      ensures NodeStep(saved, directives, NodePlace(block, indentless), props + [], e, Now())
    {
      assert props + [] == props;
    }

    /** An event `e` says what the tokens taken for it have said. */
    twostate predicate Told(e: Event)
      reads this`items, this`tags
    {
      items == old(items) + EventItems(e) && tags == old(tags) + TagItems(EventTag(e))
    }

    /** An alias. */
    method ParseAlias(token: Token, ghost rest: seq<Frame>, ghost f: Frame) returns (e: Event)
      requires AtNode(rest, f) && Counted() && parsed < |tokens| && token == tokens[parsed] && token.kind.AliasToken?
      modifies `parsed, `streamEndProduced, `items, `tags, `state, `states
      ensures Counted() && old(parsed) <= parsed && !streamEndProduced
      ensures Landed(rest + [f], e) && Headed() && Told(e)
      ensures Weight(state) + Weights(states) == old(Weights(states))
      ensures Behind(old(states)) && e == Alias(token.kind.name) && parsed == old(parsed) + 1
    {
      hide Landed, AtNode, Weights, Counted, InCollection;
      e := Alias(token.kind.name);
      FinishNode(e, rest, f);
      Skip();
    }

    /** The properties of a node, with the tag resolved. */
    method ParseProperties(token: Token) returns (next: Option<Token>, anchor: Option<CString>, tag: Option<CString>)
      requires Counted() && parsed < |tokens| && token == tokens[parsed] && error == NoProblem && !streamEndProduced
      modifies `error, `parsed, `streamEndProduced, `items, `tags
      ensures Counted() && old(parsed) <= parsed && old(items) <= items && old(tags) <= tags
      ensures next.Some? ==> error == NoProblem && parsed < |tokens| && next.value == tokens[parsed] && !streamEndProduced
      ensures next.Some? ==> items == old(items) + AnchorItems(anchor) && tags == old(tags) + TagItems(tag)
      ensures next.None? ==> error != NoProblem
      ensures next.Some? <==> PropertiesEnd(old(parsed)) < |tokens| && Resolves(old(parsed), PropertiesEnd(old(parsed)), directives)
      ensures next.Some? ==> parsed == PropertiesEnd(old(parsed)) && (parsed > old(parsed) <==> anchor.Some? || tag.Some?)
      ensures next.Some? ==>
                var own := Between(old(parsed), parsed); IsProperties(own) && anchor == AnchorIn(own) && tag == TagIn(own, directives)
    {
      hide Counted, AnchorIn, TagIn, IsProperties, Between, Properties;
      var tagToken;
      tag := None;
      next, anchor, tagToken := TakeProperties(token);
      if next.Some? {
        PropertiesAre(Between(old(parsed), parsed), anchor, tagToken, directives);
      }
      if next.Some? && tagToken.Some? {
        tag := ResolveTag(tagToken.value.handle, tagToken.value.suffix);
        if tag.None? {
          error := ParserProblem(Some(token.start), next.value.start);
          next := None;
        }
      }
    }

    /** yaml_parser_parse_node */
    method ParseNode(block: bool, indentless: bool, ghost rest: seq<Frame>, ghost f: Frame) returns (e: Option<Event>)
      requires AtNode(rest, f) && Counted() && error == NoProblem && !streamEndProduced
      modifies `error, `parsed, `streamEndProduced, `items, `tags, `state, `states
      ensures Counted() && old(parsed) <= parsed && old(items) <= items && old(tags) <= tags
      ensures e.None? ==> error != NoProblem
      ensures e.Some? <==> NodeStarts(old(parsed), block, indentless, directives)
      ensures e.Some? ==> Landed(rest + [f], e.value) && Headed() && error == NoProblem && !streamEndProduced && Told(e.value)
      ensures e.Some? ==> Weight(state) + Weights(states) <= old(Weights(states)) + if indentless then 1 else 0
      ensures e.Some? ==>
                NodeStep(old(states), directives, NodePlace(block, indentless), Between(old(parsed), parsed), e.value, Now())
    {
      hide Landed, AtNode, Weights, Weight, Counted, InCollection, Headed, EventItems, TagItems, AnchorItems, EventTag,
           NodeStep, NodePlace, Behind, IsProperties, AnchorIn, TagIn, Between, Resolves, ContentStarts;
      e := None;
      var token := Peek();
      if token.None? {
        return;
      }
      if token.value.kind.AliasToken? {
        var alias := ParseAlias(token.value, rest, f);
        e := Some(alias);
        BetweenIs(old(parsed));
        AliasIs(token.value.kind, block, indentless, old(states));
        return;
      }
      var next, anchor, tag := ParseProperties(token.value);
      if next.Some? {
        ghost var p := parsed;
        e := ParseContent(block, indentless, anchor, tag, token.value.start, next.value, Between(old(parsed), p), rest, f);
        InTokens();
        BetweenTwo(old(parsed), p, parsed);
      }
    }

    lemma {:induction false} AliasIs(k: Kind, block: bool, indentless: bool, saved: seq<State>)
      requires Behind(saved) && k.AliasToken?
      ensures NodeStep(saved, directives, NodePlace(block, indentless), [k], Alias(k.name), Now())
    {
    }

    ghost predicate Ready()
      reads this
    {
      error == NoProblem && Counted() && Settled()
    }

    /** What is true inside a collection that is, or goes on, in the state `s`. */
    ghost predicate Inside(s: State)
      reads this`states, this`marks, this`error, this`parsed, this`items, this`streamEndProduced
    {
      && (InCollection(s) || s.PFlowSequenceEntryMappingKey?) && Saved(states)
      && |marks| == AllMarked(states) + Marked(s) && Counted() && error == NoProblem && !streamEndProduced
    }

    lemma {:induction false} Collection()
      requires Ready() && (InCollection(state) || IsFirst(state) || state.PFlowSequenceEntryMappingKey?)
      ensures Counted() && error == NoProblem && (!IsFirst(state) ==> Inside(state))
      ensures states != [] && Here() == Opened(states) + Expect(state) && Owed() == Weight(state) + Weights(states) - 3 * parsed
    {
    }

    lemma {:induction false} SavedSome(s: State)
      requires Inside(s)
      ensures states != []
    {
    }

    /** The bracketed collection in the state `s` may go on in the state `next`. */
    lemma {:induction false} GoOn(s: State, next: State)
      requires Inside(s) && (InCollection(next) || next.PFlowSequenceEntryMappingKey?) && Marked(s) == Marked(next)
      ensures Inside(next)
    {
    }

    /** A collection has started: the mark of its first token goes on the stack. */
    method EnterCollection(s: State)
      requires Ready() && IsFirst(state) && InCollection(s) && Marked(s) == 1
      modifies `error, `parsed, `streamEndProduced, `items, `tags, `marks
      ensures Inside(s) && parsed == old(parsed) + 1 && items == old(items) && tags == old(tags)
      ensures First(state, tokens[old(parsed)].kind)
    {
      hide Counted, Settled, Saved, AllMarked, Marked, InCollection, IsFirst, TokenItems, First;
      Starts(s);
      var token := Peek();
      marks := marks + [token.value.start];
      Skip();
    }

    /** The first part of a collection that goes on in the state `s`. */
    method Enter(first: bool, s: State)
      requires Ready() && InCollection(s) && Marked(s) == 1 && if first then IsFirst(state) else state == s
      modifies `error, `parsed, `streamEndProduced, `items, `tags, `marks
      ensures Inside(s) && parsed == old(parsed) + (if first then 1 else 0) && items == old(items) && tags == old(tags)
      ensures Between(old(parsed), parsed) == OpeningOf(first, state)
    {
      hide Counted, Settled, Saved, AllMarked, First;
      Collection();
      BetweenIs(parsed);
      if first {
        EnterCollection(s);
        InTokens();
        FirstIs(state, tokens[old(parsed)].kind);
      }
    }

    /** The token that opens a collection. */
    static ghost function OpeningOf(first: bool, state: State): seq<Kind> {
      if !first then []
      else if state.PBlockSequenceFirstEntry? then [BlockSequenceStart]
      else if state.PBlockMappingFirstKey? then [BlockMappingStart]
      else if state.PFlowSequenceFirstEntry? then [FlowSequenceStart]
      else [FlowMappingStart]
    }

    static lemma {:induction false} FirstIs(state: State, k: Kind)
      requires IsFirst(state) && First(state, k)
      ensures [k] == OpeningOf(true, state)
    {
    }

    /** What starts a collection is there to be skipped. */
    lemma {:induction false} Starts(s: State)
      requires Ready() && IsFirst(state) && InCollection(s) && Marked(s) == 1
      ensures parsed < |tokens| && error == NoProblem && Counted() && !streamEndProduced
      ensures var k := tokens[parsed].kind; TokenItems(k) == [] && !k.Tag? && !k.StreamEndToken?
      ensures Saved(states) && |marks| + 1 == AllMarked(states) + Marked(s) && First(state, tokens[parsed].kind)
    {
    }

    /** SKIP_TOKEN inside of a collection, past a token without content. */
    method SkipInside(s: State)
      requires Inside(s) && parsed < |tokens|
      requires var k := tokens[parsed].kind; TokenItems(k) == [] && !k.Tag? && !k.StreamEndToken?
      modifies `parsed, `streamEndProduced, `items, `tags
      ensures Inside(s) && parsed == old(parsed) + 1 && items == old(items) && tags == old(tags)
    {
      hide InCollection, Saved, AllMarked, Marked, Counted;
      Skip();
    }

    /** The same, and PEEK_TOKEN. */
    method NextInside(s: State) returns (next: Option<Token>)
      requires Inside(s) && parsed < |tokens|
      requires var k := tokens[parsed].kind; TokenItems(k) == [] && !k.Tag? && !k.StreamEndToken?
      modifies `error, `parsed, `streamEndProduced, `items, `tags
      ensures Counted() && parsed == old(parsed) + 1 && items == old(items) && tags == old(tags)
      ensures next.None? ==> error != NoProblem
      ensures next.Some? <==> old(parsed) + 1 < |tokens|
      ensures next.Some? ==> Inside(s) && parsed < |tokens| && next.value == tokens[parsed]
    {
      hide InCollection, Saved, AllMarked, Marked, Counted;
      SkipInside(s);
      next := Peek();
    }

    /** A node inside of a collection, which then goes on in the state `s`. */
    method ParseNested(s: State, block: bool, indentless: bool, ghost rest: seq<Frame>, ghost f: Frame) returns (e: Option<Event>)
      requires Inside(s) && InCollection(s) && TakesNode(f) && Opened(states) + Expect(s) == rest + [AfterNode(f)]
      modifies `error, `parsed, `streamEndProduced, `items, `tags, `state, `states
      ensures Counted() && old(parsed) <= parsed && old(items) <= items && old(tags) <= tags
      ensures e.None? ==> error != NoProblem
      ensures e.Some? <==> NodeStarts(old(parsed), block, indentless, directives)
      ensures e.Some? ==> Landed(rest + [f], e.value) && Headed() && error == NoProblem && !streamEndProduced && Told(e.value)
      ensures e.Some? ==> Weight(state) + Weights(states) <= old(Weights(states)) + Weight(s) + if indentless then 1 else 0
      ensures e.Some? ==>
                NodeStep(old(states) + [s], directives, NodePlace(block, indentless), Between(old(parsed), parsed), e.value, Now())
    {
      hide Opened, Weights, AllMarked, Saved, Weight, Counted, Expect, Headed, Landed, AfterNode, NodeStep, NodePlace, Between, NodeStarts;
      Pushed(states, s);
      states := states + [s];
      e := ParseNode(block, indentless, rest, f);
    }

    /** yaml_parser_process_empty_scalar: a node that is not there. */
    method ParseEmpty(s: State, ghost rest: seq<Frame>, ghost f: Frame) returns (e: Option<Event>)
      requires Inside(s) && TakesNode(f) && Opened(states) + Expect(s) == rest + [AfterNode(f)]
      modifies `state
      ensures e == Some(EMPTY) && state == s && Landed(rest + [f], e.value) && Headed() && Told(e.value)
      ensures Weight(state) + Weights(states) == old(Weights(states)) + Weight(s)
    {
      state := s;
      e := Some(EMPTY);
    }

    /** The end of a collection with a mark. */
    method EndCollection(s: State, e: Event)
      requires Inside(s) && Marked(s) == 1 && parsed < |tokens|
      requires var k := tokens[parsed].kind; TokenItems(k) == [] && !k.Tag? && !k.StreamEndToken?
      requires if e.SequenceEnd? then Expect(s) == [InSequence] else e.MappingEnd? && Expect(s) == [AtKey]
      modifies `parsed, `streamEndProduced, `items, `tags, `state, `states, `marks
      ensures Counted() && parsed == old(parsed) + 1 && !streamEndProduced
      ensures Landed(old(Opened(states)) + Expect(s), e) && Headed() && Told(e)
      ensures Weight(state) + Weights(states) == old(Weights(states))
      ensures Behind(old(states))
    {
      hide Counted, AllMarked, Weights, Opened;
      PopState();
      marks := marks[..|marks| - 1];
      Skip();
    }

    /** yaml_parser_parse_block_sequence_entry */
    method ParseBlockSequenceEntry(first: bool) returns (e: Option<Event>, ghost mid: nat)
      requires Ready() && state == if first then PBlockSequenceFirstEntry else PBlockSequenceEntry
      modifies `error, `parsed, `streamEndProduced, `items, `tags, `state, `states, `marks
      ensures Counted() && old(parsed) <= parsed && old(items) <= items && old(tags) <= tags
      ensures e.None? ==> error != NoProblem
      ensures e.Some? <==> BlockSequenceCan(old(parsed) + if first then 1 else 0, directives)
      ensures e.Some? ==> Landed(old(Here()), e.value) && Headed() && error == NoProblem && !streamEndProduced && Told(e.value)
      ensures e.Some? ==> Owed() < old(Owed())
      ensures e.Some? ==> old(parsed) <= mid <= parsed && Step(old(Now()), Between(old(parsed), mid), Between(mid, parsed), e.value, Now())
    {
      hide Opened, Weights, AllMarked, Saved, Counted, Headed, Landed, Ready, Here, Accept, EventItems, EventTag, TagItems, Settled, Step, NodeStep, Between, NodeOr, NodeStarts, BlockSequenceCan, IsAt, BlockSequenceStep;
      Collection();
      Enter(first, PBlockSequenceEntry);
      ghost var q := parsed;
      BetweenIs(q);
      e, mid := None, parsed;
      var token := Peek();
      if token.None? {
        return;
      }
      ghost var c := Now();
      e, mid := ParseBlockSequenceItem(token.value);
      if e.Some? {
        InTokens();
        BetweenTwo(old(parsed), q, mid);
        BlockSequenceGoes(old(Now()), c, Between(old(parsed), q), Between(q, mid), Between(mid, parsed), e.value, Now());
      }
    }

    /** The rest of it, once what opens the collection is past. */
    method ParseBlockSequenceItem(token: Token) returns (e: Option<Event>, ghost mid: nat)
      requires Inside(PBlockSequenceEntry) && parsed < |tokens| && token == tokens[parsed]
      modifies `error, `parsed, `streamEndProduced, `items, `tags, `state, `states, `marks
      ensures Counted() && old(parsed) <= parsed && old(items) <= items && old(tags) <= tags
      ensures e.None? ==> error != NoProblem
      ensures e.Some? <==> BlockSequenceCan(old(parsed), directives)
      ensures e.Some? ==> Landed(old(Opened(states)) + [InSequence], e.value) && Headed() && error == NoProblem && !streamEndProduced && Told(e.value)
      ensures e.Some? ==> parsed > old(parsed) && Weight(state) + Weights(states) <= old(Weights(states))
      ensures e.Some? ==>
                && old(parsed) <= mid <= parsed && old(states) != []
                && BlockSequenceStep(old(Now()), [], Between(old(parsed), mid), Between(mid, parsed), e.value, Now())
    {
      hide Opened, Weights, AllMarked, Saved, Counted, Headed, Landed, EventItems, TagItems, NodeStep, Between, NodeStarts;
      SavedSome(PBlockSequenceEntry);
      BetweenIs(parsed);
      e, mid := None, parsed;
      if token.kind.BlockEntry? {
        mid := parsed + 1;
        e := ParseBlockEntry();
      } else if token.kind.BlockEnd? {
        EndCollection(PBlockSequenceEntry, SequenceEnd);
        e, mid := Some(SequenceEnd), parsed;
      } else {
        error := ParserProblem(Some(marks[|marks| - 1]), token.start);
        marks := marks[..|marks| - 1];
      }
      BetweenIs(mid);
    }

    /** The child of a block sequence that starts with a block entry token. */
    method ParseBlockEntry() returns (e: Option<Event>)
      requires Inside(PBlockSequenceEntry) && parsed < |tokens| && tokens[parsed].kind.BlockEntry?
      modifies `error, `parsed, `streamEndProduced, `items, `tags, `state, `states
      ensures Counted() && old(parsed) < parsed && old(items) <= items && old(tags) <= tags
      ensures e.None? ==> error != NoProblem
      ensures e.Some? <==> NodeOr(old(parsed) + 1, {BlockEntry, BlockEnd}, true, false, directives)
      ensures e.Some? ==> Landed(old(Opened(states)) + [InSequence], e.value) && Headed() && error == NoProblem && !streamEndProduced && Told(e.value)
      ensures e.Some? ==> Weight(state) + Weights(states) <= old(Weights(states))
      ensures e.Some? ==> Filled(old(states), PBlockSequenceEntry, InBlock, Between(old(parsed) + 1, parsed), e.value)
    {
      hide Opened, Weights, AllMarked, Saved, Counted, Headed, Landed, EventItems, TagItems, NodeStep, Between, NodeStarts;
      e := None;
      var token := NextInside(PBlockSequenceEntry);
      if token.None? {
        return;
      }
      if !token.value.kind.BlockEntry? && !token.value.kind.BlockEnd? {
        e := ParseNested(PBlockSequenceEntry, true, false, Opened(states), InSequence);
      } else {
        e := ParseEmpty(PBlockSequenceEntry, Opened(states), InSequence);
      }
      BetweenIs(old(parsed) + 1);
    }

    /** The end of an indentless sequence, which has no token of its own. */
    method EndIndentless()
      requires Inside(PIndentlessSequenceEntry)
      modifies `state, `states
      ensures Landed(old(Opened(states)) + [InSequence], SequenceEnd) && Headed() && Told(SequenceEnd)
      ensures Weight(state) + Weights(states) == old(Weights(states))
      ensures Behind(old(states))
    {
      hide Counted, AllMarked, Weights, Opened;
      PopState();
    }

    /** yaml_parser_parse_indentless_sequence_entry */
    method ParseIndentlessSequenceEntry() returns (e: Option<Event>, ghost mid: nat)
      requires Ready() && state == PIndentlessSequenceEntry
      modifies `error, `parsed, `streamEndProduced, `items, `tags, `state, `states
      ensures Counted() && old(parsed) <= parsed && old(items) <= items && old(tags) <= tags
      ensures e.None? ==> error != NoProblem
      ensures e.Some? <==> IndentlessSequenceCan(old(parsed), directives)
      ensures e.Some? ==> Landed(old(Here()), e.value) && Headed() && error == NoProblem && !streamEndProduced && Told(e.value)
      ensures e.Some? ==> Owed() < old(Owed())
      ensures e.Some? ==> old(parsed) <= mid <= parsed && Step(old(Now()), Between(old(parsed), mid), Between(mid, parsed), e.value, Now())
    {
      hide Opened, Weights, AllMarked, Saved, Counted, Headed, Landed, Ready, Here, Accept, EventItems, EventTag, TagItems, Settled, Step, NodeStep, Between, NodeStarts;
      Collection();
      e, mid := None, parsed;
      var token := Peek();
      if token.None? {
        return;
      }
      if token.value.kind.BlockEntry? {
        token := NextInside(PIndentlessSequenceEntry);
        if token.None? {
          return;
        }
        mid := parsed;
        var k := token.value.kind;
        if !k.BlockEntry? && !k.Key? && !k.Value? && !k.BlockEnd? {
          e := ParseNested(PIndentlessSequenceEntry, true, false, Opened(states), InSequence);
        } else {
          e := ParseEmpty(PIndentlessSequenceEntry, Opened(states), InSequence);
        }
      } else {
        EndIndentless();
        e := Some(SequenceEnd);
      }
      BetweenIs(old(parsed));
      BetweenIs(mid);
      IndentlessSequenceGoes(old(Now()), Between(old(parsed), mid), Between(mid, parsed), e, Now());
    }

    /** yaml_parser_parse_block_mapping_key */
    method ParseBlockMappingKey(first: bool) returns (e: Option<Event>, ghost mid: nat)
      requires Ready() && state == if first then PBlockMappingFirstKey else PBlockMappingKey
      modifies `error, `parsed, `streamEndProduced, `items, `tags, `state, `states, `marks
      ensures Counted() && old(parsed) <= parsed && old(items) <= items && old(tags) <= tags
      ensures e.None? ==> error != NoProblem
      ensures e.Some? <==> BlockMappingCan(old(parsed) + if first then 1 else 0, directives)
      ensures e.Some? ==> Landed(old(Here()), e.value) && Headed() && error == NoProblem && !streamEndProduced && Told(e.value)
      ensures e.Some? ==> Owed() < old(Owed())
      ensures e.Some? ==> old(parsed) <= mid <= parsed && Step(old(Now()), Between(old(parsed), mid), Between(mid, parsed), e.value, Now())
    {
      hide Opened, Weights, AllMarked, Saved, Counted, Headed, Landed, Ready, Here, Accept, EventItems, EventTag, TagItems, Settled, Step, NodeStep, Between, NodeOr, NodeStarts, BlockMappingCan, IsAt, BlockMappingStep;
      Collection();
      Enter(first, PBlockMappingKey);
      ghost var q := parsed;
      BetweenIs(q);
      e, mid := None, parsed;
      var token := Peek();
      if token.None? {
        return;
      }
      ghost var c := Now();
      e, mid := ParseBlockMappingItem(token.value);
      if e.Some? {
        InTokens();
        BetweenTwo(old(parsed), q, mid);
        BlockMappingKeyGoes(old(Now()), c, Between(old(parsed), q), Between(q, mid), Between(mid, parsed), e.value, Now());
      }
    }

    /** The rest of it, once what opens the collection is past. */
    method ParseBlockMappingItem(token: Token) returns (e: Option<Event>, ghost mid: nat)
      requires Inside(PBlockMappingKey) && parsed < |tokens| && token == tokens[parsed]
      modifies `error, `parsed, `streamEndProduced, `items, `tags, `state, `states, `marks
      ensures Counted() && old(parsed) <= parsed && old(items) <= items && old(tags) <= tags
      ensures e.None? ==> error != NoProblem
      ensures e.Some? <==> BlockMappingCan(old(parsed), directives)
      ensures e.Some? ==> Landed(old(Opened(states)) + [AtKey], e.value) && Headed() && error == NoProblem && !streamEndProduced && Told(e.value)
      ensures e.Some? ==> parsed > old(parsed) && Weight(state) + Weights(states) <= old(Weights(states)) + 2
      ensures e.Some? ==>
                && old(parsed) <= mid <= parsed && old(states) != []
                && BlockMappingStep(old(Now()), [], Between(old(parsed), mid), Between(mid, parsed), e.value, Now())
    {
      hide Opened, Weights, AllMarked, Saved, Counted, Headed, Landed, EventItems, TagItems, NodeStep, Between, NodeStarts;
      SavedSome(PBlockMappingKey);
      BetweenIs(parsed);
      e, mid := None, parsed;
      if token.kind.Key? {
        mid := parsed + 1;
        e := ParseBlockMappingPair();
      } else if token.kind.BlockEnd? {
        EndCollection(PBlockMappingKey, MappingEnd);
        e, mid := Some(MappingEnd), parsed;
      } else {
        error := ParserProblem(Some(marks[|marks| - 1]), token.start);
        marks := marks[..|marks| - 1];
      }
      BetweenIs(mid);
    }

    /** A node has begun or been read, or there is none. */
    ghost predicate Filled(saved: seq<State>, s: State, place: Place, own: seq<Kind>, e: Event)
      reads this`state, this`states, this`directives, this`parsed
    {
      NodeStep(saved + [s], directives, place, own, e, Now()) || (own == [] && e == EMPTY && state == s && states == saved)
    }

    /** The pair of a block mapping that starts with a key token. */
    method ParseBlockMappingPair() returns (e: Option<Event>)
      requires Inside(PBlockMappingKey) && parsed < |tokens| && tokens[parsed].kind.Key?
      modifies `error, `parsed, `streamEndProduced, `items, `tags, `state, `states
      ensures Counted() && old(parsed) < parsed && old(items) <= items && old(tags) <= tags
      ensures e.None? ==> error != NoProblem
      ensures e.Some? <==> NodeOr(old(parsed) + 1, {Key, Value, BlockEnd}, true, true, directives)
      ensures e.Some? ==> Landed(old(Opened(states)) + [AtKey], e.value) && Headed() && error == NoProblem && !streamEndProduced && Told(e.value)
      ensures e.Some? ==> Weight(state) + Weights(states) <= old(Weights(states)) + Weight(PBlockMappingValue) + 1
      ensures e.Some? ==> Filled(old(states), PBlockMappingValue, InBlockMapping, Between(old(parsed) + 1, parsed), e.value)
    {
      hide Opened, Weights, AllMarked, Saved, Counted, Headed, Landed, EventItems, TagItems, NodeStep, Between, NodeStarts;
      e := None;
      var token := NextInside(PBlockMappingKey);
      if token.None? {
        return;
      }
      GoOn(PBlockMappingKey, PBlockMappingValue);
      var k := token.value.kind;
      if !k.Key? && !k.Value? && !k.BlockEnd? {
        e := ParseNested(PBlockMappingValue, true, true, Opened(states), AtKey);
      } else {
        e := ParseEmpty(PBlockMappingValue, Opened(states), AtKey);
      }
      BetweenIs(old(parsed) + 1);
    }

    /** yaml_parser_parse_block_mapping_value */
    method ParseBlockMappingValue() returns (e: Option<Event>, ghost mid: nat)
      requires Ready() && state == PBlockMappingValue
      modifies `error, `parsed, `streamEndProduced, `items, `tags, `state, `states
      ensures Counted() && old(parsed) <= parsed && old(items) <= items && old(tags) <= tags
      ensures e.None? ==> error != NoProblem
      ensures e.Some? <==> BlockValueCan(old(parsed), directives)
      ensures e.Some? ==> Landed(old(Here()), e.value) && Headed() && error == NoProblem && !streamEndProduced && Told(e.value)
      ensures e.Some? ==> Owed() < old(Owed())
      ensures e.Some? ==> old(parsed) <= mid <= parsed && Step(old(Now()), Between(old(parsed), mid), Between(mid, parsed), e.value, Now())
    {
      hide Opened, Weights, AllMarked, Saved, Counted, Headed, Landed, Ready, Here, Accept, EventItems, EventTag, TagItems, Settled, Step, NodeStep, Between, NodeOr, NodeStarts;
      Collection();
      e, mid := None, parsed;
      var token := Peek();
      if token.None? {
        return;
      }
      GoOn(PBlockMappingValue, PBlockMappingKey);
      if token.value.kind.Value? {
        mid := parsed + 1;
        e := ParseBlockValue();
      } else {
        e := ParseEmpty(PBlockMappingKey, Opened(states), AtValue);
      }
      BetweenIs(old(parsed));
      BetweenIs(mid);
      ValueGoes(old(Now()), Between(old(parsed), mid), Between(mid, parsed), e, Now());
    }

    /** The value in a block mapping that starts with a value token. */
    method ParseBlockValue() returns (e: Option<Event>)
      requires Inside(PBlockMappingKey) && parsed < |tokens| && tokens[parsed].kind.Value?
      modifies `error, `parsed, `streamEndProduced, `items, `tags, `state, `states
      ensures Counted() && old(parsed) < parsed && old(items) <= items && old(tags) <= tags
      ensures e.None? ==> error != NoProblem
      ensures e.Some? <==> NodeOr(old(parsed) + 1, {Key, Value, BlockEnd}, true, true, directives)
      ensures e.Some? ==> Landed(old(Opened(states)) + [AtValue], e.value) && Headed() && error == NoProblem && !streamEndProduced && Told(e.value)
      ensures e.Some? ==> Weight(state) + Weights(states) <= old(Weights(states)) + 1
      ensures e.Some? ==> Filled(old(states), PBlockMappingKey, InBlockMapping, Between(old(parsed) + 1, parsed), e.value)
    {
      hide Opened, Weights, AllMarked, Saved, Counted, Headed, Landed, EventItems, TagItems, NodeStep, Between, NodeStarts;
      e := None;
      var token := NextInside(PBlockMappingKey);
      if token.None? {
        return;
      }
      var k := token.value.kind;
      if !k.Key? && !k.Value? && !k.BlockEnd? {
        e := ParseNested(PBlockMappingKey, true, true, Opened(states), AtValue);
      } else {
        e := ParseEmpty(PBlockMappingKey, Opened(states), AtValue);
      }
      BetweenIs(old(parsed) + 1);
    }

    /** A key in a flow sequence starts a mapping of one pair. */
    method StartPair()
      requires Inside(PFlowSequenceEntry) && parsed < |tokens| && tokens[parsed].kind.Key?
      modifies `parsed, `streamEndProduced, `items, `tags, `state
      ensures Counted() && parsed == old(parsed) + 1 && !streamEndProduced && error == NoProblem
      ensures Landed(Opened(states) + [InSequence], MappingStart(None, None, true, Flow)) && Headed()
      ensures Told(MappingStart(None, None, true, Flow)) && state == PFlowSequenceEntryMappingKey
    {
      hide Opened, AllMarked, Saved, Counted;
      state := PFlowSequenceEntryMappingKey;
      var was := Opened(states) + [InSequence];
      assert was[..|was| - 1] == Opened(states);
      assert Opened(states) + [InSequence, AtKey] == Here();
      SkipInside(PFlowSequenceEntryMappingKey);
    }

    /** The entry of a flow sequence, or its end, once the comma is past. */
    method ParseFlowSequenceItem(token: Token) returns (e: Option<Event>, ghost mid: nat)
      requires Inside(PFlowSequenceEntry) && parsed < |tokens| && token == tokens[parsed]
      modifies `error, `parsed, `streamEndProduced, `items, `tags, `state, `states, `marks
      ensures Counted() && old(parsed) <= parsed && old(items) <= items && old(tags) <= tags
      ensures e.None? ==> error != NoProblem
      ensures e.Some? <==> FlowSequenceCan(old(parsed), directives)
      ensures e.Some? ==> Landed(old(Opened(states)) + [InSequence], e.value) && Headed() && error == NoProblem && !streamEndProduced && Told(e.value)
      ensures e.Some? && (token.kind.Key? || token.kind.FlowSequenceEnd?) ==> parsed > old(parsed)
      ensures e.Some? ==> Weight(state) + Weights(states) <= old(Weights(states)) + if token.kind.Key? then 3 else 0
      ensures e.Some? && token.kind.FlowSequenceEnd? ==> Between(old(parsed), mid) == [FlowSequenceEnd]
      ensures e.Some? ==>
                && old(parsed) <= mid <= parsed
                && FlowItem(old(Now()), Between(old(parsed), mid), Between(mid, parsed), e.value, Now())
    {
      hide Opened, Weights, AllMarked, Saved, Counted, Headed, Landed, EventItems, TagItems, NodeStep, Between, NodeStarts;
      SavedSome(PFlowSequenceEntry);
      BetweenIs(parsed);
      mid := parsed;
      if token.kind.Key? {
        StartPair();
        mid := parsed;
        e := Some(MappingStart(None, None, true, Flow));
      } else if !token.kind.FlowSequenceEnd? {
        e := ParseNested(PFlowSequenceEntry, false, false, Opened(states), InSequence);
      } else {
        EndCollection(PFlowSequenceEntry, SequenceEnd);
        e, mid := Some(SequenceEnd), parsed;
      }
      BetweenIs(mid);
    }

    /** The comma between two entries of a flow collection. */
    method TakeComma(s: State, token: Token) returns (next: Option<Token>)
      requires Inside(s) && Marked(s) == 1 && parsed < |tokens| && token == tokens[parsed]
      modifies `error, `parsed, `streamEndProduced, `items, `tags, `marks
      ensures Counted() && old(parsed) <= parsed && items == old(items) && tags == old(tags)
      ensures next.None? ==> error != NoProblem
      ensures next.Some? <==> IsAt(old(parsed), {FlowEntry}) && old(parsed) + 1 < |tokens|
      ensures next.Some? ==>
                && Inside(s) && parsed == old(parsed) + 1 && parsed < |tokens| && next.value == tokens[parsed]
                && Between(old(parsed), parsed) == [FlowEntry] && marks == old(marks)
    {
      hide AllMarked, Saved, Counted, InCollection, Between;
      BetweenIs(parsed);
      next := None;
      if token.kind.FlowEntry? {
        next := NextInside(s);
      } else {
        error := ParserProblem(Some(marks[|marks| - 1]), token.start);
        marks := marks[..|marks| - 1];
      }
    }

    /** The part of a flow collection before an entry or the end. */
    method ToEntry(s: State, end: Kind, first: bool) returns (token: Option<Token>)
      requires Inside(s) && Marked(s) == 1 && !end.FlowEntry?
      modifies `error, `parsed, `streamEndProduced, `items, `tags, `marks
      ensures Counted() && old(parsed) <= parsed && items == old(items) && tags == old(tags)
      ensures token.None? ==> error != NoProblem
      ensures token.Some? <==> if first then old(parsed) < |tokens| else AfterComma(old(parsed), end)
      ensures token.Some? ==>
                && Inside(s) && parsed == (if first then old(parsed) else PastComma(old(parsed)))
                && parsed < |tokens| && token.value == tokens[parsed] && marks == old(marks)
                && (Between(old(parsed), parsed) == [FlowEntry]
                    || (Between(old(parsed), parsed) == [] && (first || token.value.kind == end)))
                && (first ==> Between(old(parsed), parsed) == [])
    {
      hide AllMarked, Saved, Counted, InCollection, Between;
      BetweenIs(parsed);
      token := Peek();
      if token.Some? && token.value.kind != end && !first {
        token := TakeComma(s, token.value);
      }
    }

    /** yaml_parser_parse_flow_sequence_entry */
    method ParseFlowSequenceEntry(first: bool) returns (e: Option<Event>, ghost mid: nat)
      requires Ready() && state == if first then PFlowSequenceFirstEntry else PFlowSequenceEntry
      modifies `error, `parsed, `streamEndProduced, `items, `tags, `state, `states, `marks
      ensures Counted() && old(parsed) <= parsed && old(items) <= items && old(tags) <= tags
      ensures e.None? ==> error != NoProblem
      ensures e.Some? <==> if first then FlowSequenceCan(old(parsed) + 1, directives)
                           else AfterComma(old(parsed), FlowSequenceEnd) && FlowSequenceCan(PastComma(old(parsed)), directives)
      ensures e.Some? ==> Landed(old(Here()), e.value) && Headed() && error == NoProblem && !streamEndProduced && Told(e.value)
      ensures e.Some? ==> Owed() < old(Owed())
      ensures e.Some? ==> old(parsed) <= mid <= parsed && Step(old(Now()), Between(old(parsed), mid), Between(mid, parsed), e.value, Now())
    {
      hide Opened, Weights, AllMarked, Saved, Counted, Headed, Landed, Ready, Here, Accept, EventItems, EventTag, TagItems, Settled, Step, NodeStep, Between, NodeOr, NodeStarts, FlowSequenceCan, FlowItem;
      Collection();
      Enter(first, PFlowSequenceEntry);
      ghost var p := parsed;
      BetweenIs(p);
      e, mid := None, parsed;
      var token := ToEntry(PFlowSequenceEntry, FlowSequenceEnd, first);
      if token.None? {
        return;
      }
      ghost var q, c := parsed, Now();
      InTokens();
      BetweenTwo(old(parsed), p, q);
      e, mid := ParseFlowSequenceItem(token.value);
      if e.Some? {
        InTokens();
        BetweenTwo(old(parsed), q, mid);
        FlowSequenceGoes(old(Now()), c, Between(old(parsed), q), Between(q, mid), Between(mid, parsed), e.value, Now());
      }
    }

    /** A pair in a flow sequence is inside of that sequence. */
    lemma {:induction false} PairFrames()
      ensures Opened(states) + [InSequence, AtKey] == Opened(states) + [InSequence] + [AtKey]
      ensures Opened(states) + [InSequence, AtValue] == Opened(states) + [InSequence] + [AtValue]
    {
    }

    /** yaml_parser_parse_flow_sequence_entry_mapping_key; the token that stands in for an
        empty key is skipped with it */
    method ParseFlowSequenceEntryMappingKey() returns (e: Option<Event>, ghost mid: nat)
      requires Ready() && state == PFlowSequenceEntryMappingKey
      modifies `error, `parsed, `streamEndProduced, `items, `tags, `state, `states
      ensures Counted() && old(parsed) <= parsed && old(items) <= items && old(tags) <= tags
      ensures e.None? ==> error != NoProblem
      ensures e.Some? <==> PairKeyCan(old(parsed), directives)
      ensures e.Some? ==> Landed(old(Here()), e.value) && Headed() && error == NoProblem && !streamEndProduced && Told(e.value)
      ensures e.Some? ==> Owed() < old(Owed())
      ensures e.Some? ==> old(parsed) <= mid <= parsed && Step(old(Now()), Between(old(parsed), mid), Between(mid, parsed), e.value, Now())
    {
      hide Opened, Weights, AllMarked, Saved, Counted, Headed, Landed, Ready, Here, Accept, EventItems, EventTag, TagItems, Settled, Step, NodeStep, Between, NodeStarts;
      Collection();
      PairFrames();
      e, mid := None, parsed;
      var token := Peek();
      if token.None? {
        return;
      }
      var k := token.value.kind;
      if !k.Value? && !k.FlowEntry? && !k.FlowSequenceEnd? {
        GoOn(PFlowSequenceEntryMappingKey, PFlowSequenceEntryMappingValue);
        e := ParseNested(PFlowSequenceEntryMappingValue, false, false, Opened(states) + [InSequence], AtKey);
      } else {
        e := ParseEmptyKey();
        mid := parsed;
      }
      BetweenIs(old(parsed));
      BetweenIs(mid);
      PairKeyGoes(old(Now()), Between(old(parsed), mid), Between(mid, parsed), e, Now());
    }

    /** An empty key of a pair in a flow sequence, with the token that is skipped. */
    method ParseEmptyKey() returns (e: Option<Event>)
      requires Inside(PFlowSequenceEntryMappingKey) && parsed < |tokens|
      requires var k := tokens[parsed].kind; TokenItems(k) == [] && !k.Tag? && !k.StreamEndToken?
      modifies `parsed, `streamEndProduced, `items, `tags, `state
      ensures Counted() && parsed == old(parsed) + 1 && items == old(items) && tags == old(tags) && !streamEndProduced
      ensures e == Some(EMPTY) && state == PFlowSequenceEntryMappingValue && Headed() && Told(e.value)
      ensures Landed(Opened(states) + [InSequence] + [AtKey], e.value)
      ensures Weight(state) + Weights(states) == old(Weights(states)) + Weight(PFlowSequenceEntryMappingValue)
    {
      hide Opened, Weights, AllMarked, Saved, Counted, Headed, Landed, Weight, TokenItems;
      PairFrames();
      SkipInside(PFlowSequenceEntryMappingKey);
      GoOn(PFlowSequenceEntryMappingKey, PFlowSequenceEntryMappingValue);
      e := ParseEmpty(PFlowSequenceEntryMappingValue, Opened(states) + [InSequence], AtKey);
    }

    /** yaml_parser_parse_flow_sequence_entry_mapping_value */
    method ParseFlowSequenceEntryMappingValue() returns (e: Option<Event>, ghost mid: nat)
      requires Ready() && state == PFlowSequenceEntryMappingValue
      modifies `error, `parsed, `streamEndProduced, `items, `tags, `state, `states
      ensures Counted() && old(parsed) <= parsed && old(items) <= items && old(tags) <= tags
      ensures e.None? ==> error != NoProblem
      ensures e.Some? <==> PairValueCan(old(parsed), directives)
      ensures e.Some? ==> Landed(old(Here()), e.value) && Headed() && error == NoProblem && !streamEndProduced && Told(e.value)
      ensures e.Some? ==> Owed() < old(Owed())
      ensures e.Some? ==> old(parsed) <= mid <= parsed && Step(old(Now()), Between(old(parsed), mid), Between(mid, parsed), e.value, Now())
    {
      hide Opened, Weights, AllMarked, Saved, Counted, Headed, Landed, Ready, Here, Accept, EventItems, EventTag, TagItems, Settled, Step, NodeStep, Between, NodeOr, NodeStarts;
      Collection();
      PairFrames();
      e, mid := None, parsed;
      var token := Peek();
      if token.None? {
        return;
      }
      if token.value.kind.Value? {
        mid := parsed + 1;
        e := ParsePairValue();
      } else {
        GoOn(PFlowSequenceEntryMappingValue, PFlowSequenceEntryMappingEnd);
        e := ParseEmpty(PFlowSequenceEntryMappingEnd, Opened(states) + [InSequence], AtValue);
      }
      BetweenIs(old(parsed));
      BetweenIs(mid);
      ValueGoes(old(Now()), Between(old(parsed), mid), Between(mid, parsed), e, Now());
    }

    /** The value of a pair in a flow sequence, which starts with a value token. */
    method ParsePairValue() returns (e: Option<Event>)
      requires Inside(PFlowSequenceEntryMappingValue) && parsed < |tokens| && tokens[parsed].kind.Value?
      modifies `error, `parsed, `streamEndProduced, `items, `tags, `state, `states
      ensures Counted() && old(parsed) < parsed && old(items) <= items && old(tags) <= tags
      ensures e.None? ==> error != NoProblem
      ensures e.Some? <==> NodeOr(old(parsed) + 1, {FlowEntry, FlowSequenceEnd}, false, false, directives)
      ensures e.Some? ==> Landed(old(Opened(states)) + [InSequence] + [AtValue], e.value) && Headed() && error == NoProblem
                          && !streamEndProduced && Told(e.value)
      ensures e.Some? ==> Weight(state) + Weights(states) <= old(Weights(states)) + Weight(PFlowSequenceEntryMappingEnd)
      ensures e.Some? ==> Filled(old(states), PFlowSequenceEntryMappingEnd, InFlow, Between(old(parsed) + 1, parsed), e.value)
    {
      hide Opened, Weights, AllMarked, Saved, Counted, Headed, Landed, EventItems, TagItems, NodeStep, Between, NodeStarts;
      assert Opened(states) + [InSequence, AtKey] == Opened(states) + [InSequence] + [AtKey];
      e := None;
      var token := NextInside(PFlowSequenceEntryMappingValue);
      if token.None? {
        return;
      }
      GoOn(PFlowSequenceEntryMappingValue, PFlowSequenceEntryMappingEnd);
      if !token.value.kind.FlowEntry? && !token.value.kind.FlowSequenceEnd? {
        e := ParseNested(PFlowSequenceEntryMappingEnd, false, false, Opened(states) + [InSequence], AtValue);
      } else {
        e := ParseEmpty(PFlowSequenceEntryMappingEnd, Opened(states) + [InSequence], AtValue);
      }
      BetweenIs(old(parsed) + 1);
    }

    /** The mapping of one pair ends without a token. */
    method EndPair()
      requires Inside(PFlowSequenceEntryMappingEnd)
      modifies `state
      ensures Landed(Opened(states) + [InSequence, AtKey], MappingEnd) && Headed() && Told(MappingEnd)
      ensures state == PFlowSequenceEntry
    {
      hide Opened, AllMarked, Saved, Counted;
      assert (Opened(states) + [InSequence, AtKey])[..|Opened(states)| + 1] == Opened(states) + [InSequence];
      state := PFlowSequenceEntry;
    }

    /** yaml_parser_parse_flow_sequence_entry_mapping_end */
    method ParseFlowSequenceEntryMappingEnd() returns (e: Option<Event>, ghost mid: nat)
      requires Ready() && state == PFlowSequenceEntryMappingEnd
      modifies `error, `parsed, `streamEndProduced, `items, `tags, `state, `states
      ensures Counted() && old(parsed) <= parsed && old(items) <= items && old(tags) <= tags
      ensures e.None? ==> error != NoProblem
      ensures e.Some? <==> old(parsed) < |tokens|
      ensures e.Some? ==> Landed(old(Here()), e.value) && Headed() && error == NoProblem && !streamEndProduced && Told(e.value)
      ensures e.Some? ==> Owed() < old(Owed())
      ensures e.Some? ==> old(parsed) <= mid <= parsed && Step(old(Now()), Between(old(parsed), mid), Between(mid, parsed), e.value, Now())
    {
      hide Opened, Weights, AllMarked, Saved, Counted, Headed, Landed, Ready, Here, Accept, EventItems, EventTag, TagItems, Settled, Step, NodeStep, Between, NodeOr, NodeStarts;
      Collection();
      e, mid := None, parsed;
      var token := Peek();
      if token.None? {
        return;
      }
      EndPair();
      e := Some(MappingEnd);
      BetweenIs(parsed);
      PairEndGoes(old(Now()), Now());
    }

    /** The pair of a flow mapping that starts with a key token. */
    method ParseFlowMappingPair() returns (e: Option<Event>)
      requires Inside(PFlowMappingKey) && parsed < |tokens| && tokens[parsed].kind.Key?
      modifies `error, `parsed, `streamEndProduced, `items, `tags, `state, `states
      ensures Counted() && old(parsed) < parsed && old(items) <= items && old(tags) <= tags
      ensures e.None? ==> error != NoProblem
      ensures e.Some? <==> NodeOr(old(parsed) + 1, {Value, FlowEntry, FlowMappingEnd}, false, false, directives)
      ensures e.Some? ==> Landed(old(Opened(states)) + [AtKey], e.value) && Headed() && error == NoProblem && !streamEndProduced && Told(e.value)
      ensures e.Some? ==> Weight(state) + Weights(states) <= old(Weights(states)) + 1
      ensures e.Some? ==> Filled(old(states), PFlowMappingValue, InFlow, Between(old(parsed) + 1, parsed), e.value)
    {
      hide Opened, Weights, AllMarked, Saved, Counted, Headed, Landed, EventItems, TagItems, NodeStep, Between, NodeStarts;
      e := None;
      var token := NextInside(PFlowMappingKey);
      if token.None? {
        return;
      }
      GoOn(PFlowMappingKey, PFlowMappingValue);
      var k := token.value.kind;
      if !k.Value? && !k.FlowEntry? && !k.FlowMappingEnd? {
        e := ParseNested(PFlowMappingValue, false, false, Opened(states), AtKey);
      } else {
        e := ParseEmpty(PFlowMappingValue, Opened(states), AtKey);
      }
      BetweenIs(old(parsed) + 1);
    }

    /** The pair of a flow mapping, or its end, once the comma is past. */
    method ParseFlowMappingItem(token: Token) returns (e: Option<Event>, ghost mid: nat)
      requires Inside(PFlowMappingKey) && parsed < |tokens| && token == tokens[parsed]
      modifies `error, `parsed, `streamEndProduced, `items, `tags, `state, `states, `marks
      ensures Counted() && old(parsed) <= parsed && old(items) <= items && old(tags) <= tags
      ensures e.None? ==> error != NoProblem
      ensures e.Some? <==> FlowMappingCan(old(parsed), directives)
      ensures e.Some? ==> Landed(old(Opened(states)) + [AtKey], e.value) && Headed() && error == NoProblem && !streamEndProduced && Told(e.value)
      ensures e.Some? && token.kind.FlowMappingEnd? ==> parsed > old(parsed)
      ensures e.Some? ==> Weight(state) + Weights(states) <= old(Weights(states)) + 1
      ensures e.Some? && token.kind.FlowMappingEnd? ==> Between(old(parsed), mid) == [FlowMappingEnd]
      ensures e.Some? ==>
                && old(parsed) <= mid <= parsed
                && FlowPairItem(old(Now()), Between(old(parsed), mid), Between(mid, parsed), e.value, Now())
    {
      hide Opened, Weights, AllMarked, Saved, Counted, Headed, Landed, EventItems, TagItems, NodeStep, Between, NodeStarts;
      SavedSome(PFlowMappingKey);
      BetweenIs(parsed);
      mid := parsed;
      if token.kind.Key? {
        mid := parsed + 1;
        e := ParseFlowMappingPair();
      } else if !token.kind.FlowMappingEnd? {
        GoOn(PFlowMappingKey, PFlowMappingEmptyValue);
        e := ParseNested(PFlowMappingEmptyValue, false, false, Opened(states), AtKey);
      } else {
        EndCollection(PFlowMappingKey, MappingEnd);
        e, mid := Some(MappingEnd), parsed;
      }
      BetweenIs(mid);
    }

    /** yaml_parser_parse_flow_mapping_key */
    method ParseFlowMappingKey(first: bool) returns (e: Option<Event>, ghost mid: nat)
      requires Ready() && state == if first then PFlowMappingFirstKey else PFlowMappingKey
      modifies `error, `parsed, `streamEndProduced, `items, `tags, `state, `states, `marks
      ensures Counted() && old(parsed) <= parsed && old(items) <= items && old(tags) <= tags
      ensures e.None? ==> error != NoProblem
      ensures e.Some? <==> if first then FlowMappingCan(old(parsed) + 1, directives)
                           else AfterComma(old(parsed), FlowMappingEnd) && FlowMappingCan(PastComma(old(parsed)), directives)
      ensures e.Some? ==> Landed(old(Here()), e.value) && Headed() && error == NoProblem && !streamEndProduced && Told(e.value)
      ensures e.Some? ==> Owed() < old(Owed())
      ensures e.Some? ==> old(parsed) <= mid <= parsed && Step(old(Now()), Between(old(parsed), mid), Between(mid, parsed), e.value, Now())
    {
      hide Opened, Weights, AllMarked, Saved, Counted, Headed, Landed, Ready, Here, Accept, EventItems, EventTag, TagItems, Settled, Step, NodeStep, Between, NodeOr, NodeStarts, FlowMappingCan, FlowPairItem;
      Collection();
      Enter(first, PFlowMappingKey);
      ghost var p := parsed;
      BetweenIs(p);
      e, mid := None, parsed;
      var token := ToEntry(PFlowMappingKey, FlowMappingEnd, first);
      if token.None? {
        return;
      }
      ghost var q, c := parsed, Now();
      InTokens();
      BetweenTwo(old(parsed), p, q);
      e, mid := ParseFlowMappingItem(token.value);
      if e.Some? {
        InTokens();
        BetweenTwo(old(parsed), q, mid);
        FlowMappingGoes(old(Now()), c, Between(old(parsed), q), Between(q, mid), Between(mid, parsed), e.value, Now());
      }
    }

    /** yaml_parser_parse_flow_mapping_value */
    method ParseFlowMappingValue(empty: bool) returns (e: Option<Event>, ghost mid: nat)
      requires Ready() && state == if empty then PFlowMappingEmptyValue else PFlowMappingValue
      modifies `error, `parsed, `streamEndProduced, `items, `tags, `state, `states
      ensures Counted() && old(parsed) <= parsed && old(items) <= items && old(tags) <= tags
      ensures e.None? ==> error != NoProblem
      ensures e.Some? <==> if empty then old(parsed) < |tokens| else FlowValueCan(old(parsed), directives)
      ensures e.Some? ==> Landed(old(Here()), e.value) && Headed() && error == NoProblem && !streamEndProduced && Told(e.value)
      ensures e.Some? ==> Owed() < old(Owed())
      ensures e.Some? ==> old(parsed) <= mid <= parsed && Step(old(Now()), Between(old(parsed), mid), Between(mid, parsed), e.value, Now())
    {
      hide Opened, Weights, AllMarked, Saved, Counted, Headed, Landed, Ready, Here, Accept, EventItems, EventTag, TagItems, Settled, Step, NodeStep, Between, NodeOr, NodeStarts;
      Collection();
      e, mid := None, parsed;
      var token := Peek();
      if token.None? {
        return;
      }
      GoOn(state, PFlowMappingKey);
      if !empty && token.value.kind.Value? {
        mid := parsed + 1;
        e := ParseFlowValue();
      } else {
        e := ParseEmpty(PFlowMappingKey, Opened(states), AtValue);
      }
      BetweenIs(old(parsed));
      BetweenIs(mid);
      ValueGoes(old(Now()), Between(old(parsed), mid), Between(mid, parsed), e, Now());
    }

    /** The value in a flow mapping that starts with a value token. */
    method ParseFlowValue() returns (e: Option<Event>)
      requires Inside(PFlowMappingKey) && parsed < |tokens| && tokens[parsed].kind.Value?
      modifies `error, `parsed, `streamEndProduced, `items, `tags, `state, `states
      ensures Counted() && old(parsed) < parsed && old(items) <= items && old(tags) <= tags
      ensures e.None? ==> error != NoProblem
      ensures e.Some? <==> NodeOr(old(parsed) + 1, {FlowEntry, FlowMappingEnd}, false, false, directives)
      ensures e.Some? ==> Landed(old(Opened(states)) + [AtValue], e.value) && Headed() && error == NoProblem && !streamEndProduced && Told(e.value)
      ensures e.Some? ==> Weight(state) + Weights(states) <= old(Weights(states))
      ensures e.Some? ==> Filled(old(states), PFlowMappingKey, InFlow, Between(old(parsed) + 1, parsed), e.value)
    {
      hide Opened, Weights, AllMarked, Saved, Counted, Headed, Landed, EventItems, TagItems, NodeStep, Between, NodeStarts;
      e := None;
      var token := NextInside(PFlowMappingKey);
      if token.None? {
        return;
      }
      if !token.value.kind.FlowEntry? && !token.value.kind.FlowMappingEnd? {
        e := ParseNested(PFlowMappingKey, false, false, Opened(states), AtValue);
      } else {
        e := ParseEmpty(PFlowMappingKey, Opened(states), AtValue);
      }
      BetweenIs(old(parsed) + 1);
    }

    /** The event `e` leads from where `was` is open to here. */
    ghost predicate Moved(was: seq<Frame>, e: Event)
      reads this`state, this`states, this`marks, this`parsed, this`directives, this`error, this`streamEndProduced
    {
      && error == NoProblem && Placed() && Headed() && !state.PStreamStart?
      && (OutsideDocuments(state) ==> directives == []) && (streamEndProduced <==> state.PEnd?)
      && FlagsOk(e) && Accept(was, e) == Some(Here())
    }

    /** yaml_parser_append_tag_directive */
    method AppendDirective(value: TagDirective, allowDuplicates: bool, mark: Mark) returns (ok: bool)
      requires error == NoProblem && UniqueHandles(directives)
      modifies `directives, `error
      ensures ok <==> allowDuplicates || !Defines(old(directives), value.handle)
      ensures ok <==> error == NoProblem
      ensures UniqueHandles(directives)
      ensures directives == if Defines(old(directives), value.handle) then old(directives) else old(directives) + [value]
    {
      var i := 0;
      while i < |directives|
        invariant 0 <= i <= |directives|
        invariant forall j :: 0 <= j < i ==> directives[j].handle != value.handle
      {
        if value.handle == directives[i].handle {
          if !allowDuplicates {
            error := ParserProblem(None, mark);
          }
          return allowDuplicates;
        }
        i := i + 1;
      }
      directives := directives + [value];
      ok := true;
    }

    /** One directive of yaml_parser_process_directives. */
    method ProcessDirective(token: Token, version: Option<(int, int)>, ds: seq<TagDirective>)
      returns (ok: bool, version': Option<(int, int)>, ds': seq<TagDirective>)
      requires error == NoProblem && UniqueHandles(directives) && directives == ds
      requires token.kind.VersionDirective? || token.kind.TagDirectiveToken?
      modifies `directives, `error
      ensures ok <==> error == NoProblem
      ensures ok <==> if token.kind.VersionDirective? then version.None? && token.kind.major == 1 && token.kind.minor in {1, 2}
                      else !Defines(ds, token.kind.directive.handle)
      ensures ok ==> UniqueHandles(directives) && directives == ds'
      ensures ok ==> ds' == if token.kind.TagDirectiveToken? then ds + [token.kind.directive] else ds
      ensures ok ==> if token.kind.VersionDirective? then
                       && version.None? && version' == Some((token.kind.major, token.kind.minor))
                       && token.kind.major == 1 && token.kind.minor in {1, 2}
                     else version' == version
    {
      ok, version', ds' := true, version, ds;
      if token.kind.VersionDirective? {
        if version.Some? || token.kind.major != 1 || (token.kind.minor != 1 && token.kind.minor != 2) {
          error := ParserProblem(None, token.start);
          ok := false;
        } else {
          version' := Some((token.kind.major, token.kind.minor));
        }
      } else {
        ok := AppendDirective(token.kind.directive, false, token.start);
        ds' := ds + [token.kind.directive];
      }
    }

    /** The default directives at the end of yaml_parser_process_directives. */
    method AppendDefaults(mark: Mark)
      requires error == NoProblem && UniqueHandles(directives)
      modifies `directives, `error
      ensures error == NoProblem && UniqueHandles(directives) && directives == WithDefaults(old(directives), DEFAULTS)
    {
      for i := 0 to |DEFAULTS|
        invariant error == NoProblem && UniqueHandles(directives)
        invariant directives == WithDefaults(old(directives), DEFAULTS[..i])
      {
        assert DEFAULTS[..i + 1][..i] == DEFAULTS[..i];
        var ok := AppendDirective(DEFAULTS[i], true, mark);
      }
      assert DEFAULTS[..|DEFAULTS|] == DEFAULTS;
    }

    static lemma {:induction false} NoDirectives()
      ensures DirectivesIn([]) == [] && VersionIn([]) == None && UniqueHandles([])
    {
    }

    static lemma {:induction false} OneMoreDirective(own: seq<Kind>, k: Kind)
      ensures DirectivesIn(own + [k]) == DirectivesIn(own) + if k.TagDirectiveToken? then [k.directive] else []
      ensures VersionIn(own + [k]) == if k.VersionDirective? then Some((k.major, k.minor)) else VersionIn(own)
      ensures IsDirective(k) ==> TokenItems(k) == []
    {
      assert (own + [k])[..|own|] == own;
    }

    /** The tokens are directives, with this version and these tags. */
    static ghost predicate AreDirectives(own: seq<Kind>, version: Option<(int, int)>, ds: seq<TagDirective>) {
      ds == DirectivesIn(own) && version == VersionIn(own) && forall i :: 0 <= i < |own| ==> IsDirective(own[i])
    }

    /** yaml_parser_process_directives */
    method ProcessDirectives() returns (ok: bool, version: Option<(int, int)>, ds: seq<TagDirective>)
      requires Counted() && error == NoProblem && directives == [] && !streamEndProduced
      modifies `error, `parsed, `streamEndProduced, `items, `tags, `directives
      ensures Counted() && old(parsed) <= parsed && items == old(items) && tags == old(tags)
      ensures parsed > old(parsed) ==> IsDirective(tokens[old(parsed)].kind)
      ensures ok <==> error == NoProblem
      ensures ok <==> DirectivesEnd(old(parsed), false, []).Some?
      ensures ok ==> DirectivesEnd(old(parsed), false, []) == Some(parsed)
      ensures ok ==> !streamEndProduced && UniqueHandles(directives) && directives == WithDefaults(ds, DEFAULTS)
      ensures ok ==>
                AreDirectives(Between(old(parsed), parsed), version, ds)
      ensures ok ==> parsed < |tokens| && !IsDirective(tokens[parsed].kind)
    {
      hide Counted, WithDefaults, DirectivesIn, VersionIn, UniqueHandles, TokenItems, Resolve, Between;
      ok, version, ds := false, None, [];
      var token := Peek();
      if token.None? {
        return;
      }
      NoDirectives();
      BetweenIs(parsed);
      while token.value.kind.VersionDirective? || token.value.kind.TagDirectiveToken?
        invariant Counted() && parsed < |tokens| && token == Some(tokens[parsed]) && error == NoProblem
        invariant old(parsed) <= parsed && items == old(items) && tags == old(tags) && !streamEndProduced
        invariant AreDirectives(Between(old(parsed), parsed), version, ds) && UniqueHandles(directives) && directives == ds
        invariant parsed > old(parsed) ==> IsDirective(tokens[old(parsed)].kind)
        invariant DirectivesEnd(old(parsed), false, []) == DirectivesEnd(parsed, version.Some?, ds)
        decreases |tokens| - parsed
      {
        ghost var own := Between(old(parsed), parsed);
        OneMoreDirective(own, token.value.kind);
        BetweenTwo(old(parsed), parsed, parsed + 1);
        BetweenIs(parsed);
        var okay;
        okay, version, ds := ProcessDirective(token.value, version, ds);
        if !okay {
          return;
        }
        Skip();
        token := Peek();
        if token.None? {
          return;
        }
      }
      AppendDefaults(token.value.start);
      ok := true;
    }

    /** Extra document end indicators in yaml_parser_parse_document_start. */
    method SkipDocumentEnds(first: Token) returns (token: Option<Token>)
      requires Counted() && error == NoProblem && parsed < |tokens| && first == tokens[parsed] && !streamEndProduced
      modifies `error, `parsed, `streamEndProduced, `items, `tags
      ensures Counted() && old(parsed) <= parsed && items == old(items) && tags == old(tags)
      ensures token.None? ==> error != NoProblem
      ensures token.Some? <==> EndsEnd(old(parsed)) < |tokens|
      ensures token.Some? ==> parsed == EndsEnd(old(parsed))
      ensures token.Some? ==> error == NoProblem && !streamEndProduced && parsed < |tokens| && token.value == tokens[parsed]
      ensures token.Some? ==> var ends := Between(old(parsed), parsed);
        ends == Ends(|ends|) && (parsed > old(parsed) ==> first.kind.DocumentEndToken?)
    {
      hide Counted, Between;
      BetweenIs(parsed);
      NoEnds();
      token := Some(first);
      while token.value.kind.DocumentEndToken?
        invariant Counted() && old(parsed) <= parsed < |tokens| && token == Some(tokens[parsed]) && error == NoProblem
        invariant items == old(items) && tags == old(tags) && !streamEndProduced
        invariant Between(old(parsed), parsed) == Ends(parsed - old(parsed))
        invariant if parsed == old(parsed) then token == Some(first) else first.kind.DocumentEndToken?
        invariant EndsEnd(old(parsed)) == EndsEnd(parsed)
        decreases |tokens| - parsed
      {
        BetweenTwo(old(parsed), parsed, parsed + 1);
        BetweenIs(parsed);
        Skip();
        token := Peek();
        if token.None? {
          return;
        }
      }
    }

    /** Between documents both stacks are empty. */
    lemma {:induction false} DocumentPlace()
      requires Ready() && (OutsideDocuments(state) || state.PDocumentEnd?)
      ensures Counted() && error == NoProblem && states == [] && marks == [] && (streamEndProduced <==> state.PEnd?)
      ensures Here() == Expect(state) && Owed() == Weight(state) - 3 * parsed
      ensures OutsideDocuments(state) ==> directives == []
    {
      assert Opened([]) == [];
    }

    /** The root of a document comes next. */
    lemma {:induction false} RootPlace()
      requires Ready() && AwaitsRoot(state)
      ensures Counted() && error == NoProblem && !streamEndProduced && states == [PDocumentEnd]
      ensures AtNode([InStream], AtRoot) && Here() == [InStream] + [AtRoot]
      ensures Weights(states) == 1
    {
      hide Counted, Opened, Weights, AllMarked, Headed, Weight, First, IsFirst;
      RootStates();
      assert [InStream] + [AtDocumentEnd] == [InStream, AtDocumentEnd];
    }

    /** The stream ends. */
    method EndStream()
      requires Counted() && error == NoProblem && states == [] && marks == [] && parsed < |tokens| && tokens[parsed].kind.StreamEndToken?
      requires directives == []
      modifies `parsed, `streamEndProduced, `items, `tags, `state
      ensures Counted() && parsed == old(parsed) + 1 && Moved([InStream], StreamEnd) && Told(StreamEnd) && state == PEnd
      ensures Weight(state) + Weights(states) == 0
    {
      hide Counted, Placed, Here;
      state := PEnd;
      PlaceOutside();
      Skip();
    }

    lemma {:induction false} PlaceOutside()
      requires states == [] && marks == [] && (OutsideDocuments(state) || state.PDocumentEnd?)
      ensures Placed() && Here() == Expect(state) && Weight(state) + Weights(states) == Weight(state)
    {
      assert Opened([]) == [];
    }

    /** yaml_parser_parse_stream_start */
    method ParseStreamStart() returns (e: Option<Event>, ghost mid: nat)
      requires Ready() && state == PStreamStart
      modifies `error, `parsed, `streamEndProduced, `items, `tags, `state
      ensures Counted() && old(parsed) <= parsed && old(items) <= items && old(tags) <= tags
      ensures e.None? ==> error != NoProblem
      ensures e.Some? <==> IsAt(old(parsed), {StreamStartToken})
      ensures e.Some? ==> Moved(old(Here()), e.value) && Told(e.value) && Owed() < old(Owed())
      ensures e.Some? ==> e.value.StreamStart? && parsed > 0
      ensures e.Some? ==> old(parsed) <= mid <= parsed && Step(old(Now()), Between(old(parsed), mid), Between(mid, parsed), e.value, Now())
    {
      hide Counted, Placed, Here, Ready, Weights, Accept, AllMarked, Opened, Saved, InCollection, Step, Between;
      DocumentPlace();
      StreamAccepted();
      e, mid := None, parsed;
      var token := Peek();
      if token.None? {
        return;
      }
      if !token.value.kind.StreamStartToken? {
        error := ParserProblem(None, token.value.start);
        return;
      }
      state := PImplicitDocumentStart;
      PlaceOutside();
      e := Some(StreamStart);
      Skip();
      mid := parsed;
      BetweenIs(old(parsed));
      BetweenIs(mid);
      StreamGoes(old(Now()), Now());
    }

    /** A document starts: what follows it is saved. */
    method StartDocument(s: State, e: Event)
      requires Counted() && error == NoProblem && !streamEndProduced && states == [] && marks == [] && AwaitsRoot(s) && e.DocumentStart?
      modifies `state, `states
      ensures Placed() && Accept([InStream], e) == Some(Here()) && Told(e)
      ensures state == s && Weight(state) + Weights(states) == 2
      ensures states == [PDocumentEnd]
    {
      hide Counted, Opened, Weights, AllMarked, First, IsFirst;
      assert states + [PDocumentEnd] == [PDocumentEnd];
      states := states + [PDocumentEnd];
      state := s;
      RootStates();
      assert [InStream] + [AtRoot] == [InStream, AtRoot];
    }

    static lemma {:induction false} HeadsAre(own: seq<Kind>, version: Option<(int, int)>, ds: seq<TagDirective>)
      requires AreDirectives(own, version, ds)
      ensures var heads := own + [DocumentStartToken];
        HeadsOk(heads) && StartOf(heads) == DocumentStart(version, ds, false) && Scope(heads) == WithDefaults(ds, DEFAULTS)
    {
      OneMoreDirective(own, DocumentStartToken);
    }

    /** An explicit document in yaml_parser_parse_document_start. */
    method ParseExplicitDocument() returns (e: Option<Event>)
      requires Counted() && error == NoProblem && !streamEndProduced && states == [] && marks == [] && directives == []
      modifies `error, `parsed, `streamEndProduced, `items, `tags, `state, `states, `directives
      ensures Counted() && old(parsed) <= parsed && old(items) <= items && old(tags) <= tags
      ensures e.None? ==> error != NoProblem
      ensures e.Some? <==> ExplicitCan(old(parsed))
      ensures e.Some? ==> Moved([InStream], e.value) && Told(e.value) && parsed > old(parsed) && Weight(state) + Weights(states) == 2
      ensures e.Some? ==> e.value.DocumentStart? && directives == WithDefaults(e.value.directives, DEFAULTS)
      ensures e.Some? ==> var own := Between(old(parsed), parsed);
        own != [] && HeadsOk(own) && e.value == StartOf(own) && directives == Scope(own)
      ensures e.Some? ==> states == [PDocumentEnd] && state == PDocumentContent
    {
      hide Counted, Weights, Placed, Here, Accept, WithDefaults, UniqueHandles, DirectivesIn, VersionIn, HeadsOk, Between, AreDirectives, StartOf, Scope;
      e := None;
      var ok, version, ds := ProcessDirectives();
      if !ok {
        return;
      }
      var token := Peek();
      if token.None? {
        return;
      }
      if !token.value.kind.DocumentStartToken? {
        error := ParserProblem(None, token.value.start);
        return;
      }
      var start := DocumentStart(version, ds, false);
      HeadsAre(Between(old(parsed), parsed), version, ds);
      BetweenTwo(old(parsed), parsed, parsed + 1);
      BetweenIs(parsed);
      StartDocument(PDocumentContent, start);
      e := Some(start);
      Skip();
    }

    static lemma {:induction false} NoHeads(version: Option<(int, int)>, ds: seq<TagDirective>)
      requires AreDirectives([], version, ds) || ds == []
      ensures HeadsOk([]) && StartOf([]) == DocumentStart(None, [], true) && Scope([]) == WithDefaults(ds, DEFAULTS) && ds == []
    {
    }

    /** An implicit document: there are no directives. */
    method ParseImplicitDocument() returns (e: Option<Event>)
      requires Counted() && error == NoProblem && !streamEndProduced && states == [] && marks == [] && directives == []
      requires parsed < |tokens| && !IsDirective(tokens[parsed].kind)
      modifies `error, `parsed, `streamEndProduced, `items, `tags, `state, `states, `directives
      ensures Counted() && parsed == old(parsed) && items == old(items) && tags == old(tags)
      ensures e.None? ==> error != NoProblem
      ensures e.Some?
      ensures e.Some? ==> Moved([InStream], e.value) && Told(e.value) && state == PBlockNode && states == [PDocumentEnd]
      ensures e.Some? ==> Weight(state) + Weights(states) == 2
      ensures e.Some? ==> e.value == StartOf([]) && directives == Scope([])
    {
      hide Counted, Weights, Placed, Here, Accept, WithDefaults, UniqueHandles, DirectivesIn, VersionIn, Between, AreDirectives, Scope, StartOf;
      e := None;
      BetweenIs(parsed);
      var ok, version, ds := ProcessDirectives();
      if ok {
        var start := DocumentStart(None, [], true);
        NoHeads(version, ds);
        StartDocument(PBlockNode, start);
        e := Some(start);
      }
    }

    /** A document has started, or the stream has ended, by the tokens `own`. */
    ghost predicate Started(own: seq<Kind>, e: Event)
      reads this`state, this`states, this`directives
    {
      || (HeadsOk(own) && e == StartOf(own) && directives == Scope(own) && states == [PDocumentEnd]
          && state == if own == [] then PBlockNode else PDocumentContent)
      || (own == [StreamEndToken] && e == StreamEnd && state == PEnd && states == [])
    }

    /** Behind the document end indicators in yaml_parser_parse_document_start. */
    method ParseNextDocument(implicit: bool, token: Token) returns (e: Option<Event>)
      requires Counted() && error == NoProblem && !streamEndProduced && states == [] && marks == [] && directives == []
      requires parsed < |tokens| && token == tokens[parsed]
      modifies `error, `parsed, `streamEndProduced, `items, `tags, `state, `states, `directives
      ensures Counted() && old(parsed) <= parsed && old(items) <= items && old(tags) <= tags
      ensures e.None? ==> error != NoProblem
      ensures e.Some? <==> DocumentCan(old(parsed), implicit)
      ensures e.Some? ==> Moved([InStream], e.value) && Told(e.value)
      ensures e.Some? ==> Weight(state) + Weights(states) <= 2 && (Weight(state) + Weights(states) == 0 || implicit || parsed > old(parsed))
      ensures e.Some? ==> Started(Between(old(parsed), parsed), e.value) && (Between(old(parsed), parsed) == [] ==> implicit)
    {
      hide Counted, Weights, Here, Accept, WithDefaults, UniqueHandles, EventItems, TagItems, DirectivesIn, VersionIn, HeadsOk, Scope, StartOf, Between, ExplicitCan;
      BetweenIs(parsed);
      NoHeads(None, []);
      var k := token.kind;
      if implicit && !k.VersionDirective? && !k.TagDirectiveToken? && !k.DocumentStartToken? && !k.StreamEndToken? {
        e := ParseImplicitDocument();
      } else if !k.StreamEndToken? {
        e := ParseExplicitDocument();
      } else {
        EndStream();
        e := Some(StreamEnd);
      }
    }

    /** yaml_parser_parse_document_start */
    method ParseDocumentStart(implicit: bool) returns (e: Option<Event>, ghost mid: nat)
      requires Ready() && state == if implicit then PImplicitDocumentStart else PDocumentStart
      modifies `error, `parsed, `streamEndProduced, `items, `tags, `state, `states, `directives
      ensures Counted() && old(parsed) <= parsed && old(items) <= items && old(tags) <= tags
      ensures e.None? ==> error != NoProblem
      ensures e.Some? <==> DocumentCan(if implicit then old(parsed) else EndsEnd(old(parsed)), implicit)
      ensures e.Some? ==> Moved(old(Here()), e.value) && Told(e.value) && Owed() < old(Owed())
      ensures e.Some? ==> old(parsed) <= mid <= parsed && Step(old(Now()), Between(old(parsed), mid), Between(mid, parsed), e.value, Now())
    {
      hide Counted, Weights, Here, Accept, WithDefaults, UniqueHandles, EventItems, TagItems, DirectivesIn, VersionIn, HeadsOk, Scope, StartOf, Step, Ends, Between, AreDirectives;
      DocumentPlace();
      e, mid := None, parsed;
      var token := Peek();
      if token.None? {
        return;
      }
      BetweenIs(parsed);
      NoEnds();
      if !implicit {
        token := SkipDocumentEnds(token.value);
        if token.None? {
          return;
        }
      }
      mid := parsed;
      e := ParseNextDocument(implicit, token.value);
      DocumentGoes(old(Now()), Between(old(parsed), mid), Between(mid, parsed), e, Now());
    }

    /** yaml_parser_parse_document_content */
    method ParseDocumentContent() returns (e: Option<Event>, ghost mid: nat)
      requires Ready() && state == PDocumentContent
      modifies `error, `parsed, `streamEndProduced, `items, `tags, `state, `states
      ensures Counted() && old(parsed) <= parsed && old(items) <= items && old(tags) <= tags
      ensures e.None? ==> error != NoProblem
      ensures e.Some? <==> ContentCan(old(parsed), directives)
      ensures e.Some? ==> Moved(old(Here()), e.value) && Told(e.value) && Owed() < old(Owed())
      ensures e.Some? ==> old(parsed) <= mid <= parsed && Step(old(Now()), Between(old(parsed), mid), Between(mid, parsed), e.value, Now())
    {
      hide Counted, Weights, AllMarked, Opened, Saved, StateOk, Accept, Ready, AtNode, Step, NodeStep, Between, NodeStarts;
      RootPlace();
      e, mid := None, parsed;
      var token := Peek();
      if token.None? {
        return;
      }
      var k := token.value.kind;
      if k.VersionDirective? || k.TagDirectiveToken? || k.DocumentStartToken? || k.DocumentEndToken? || k.StreamEndToken? {
        FinishNode(EMPTY, [InStream], AtRoot);
        e := Some(EMPTY);
      } else {
        e := ParseNode(true, false, [InStream], AtRoot);
      }
      BetweenIs(old(parsed));
      RootGoes(old(Now()), Between(mid, parsed), e, Now());
    }

    /** The document ends. */
    method EndDocument(implicit: bool)
      requires error == NoProblem && !streamEndProduced && states == [] && marks == []
      modifies `state, `directives
      ensures Moved([InStream, AtDocumentEnd], DocumentEnd(implicit)) && Told(DocumentEnd(implicit))
      ensures state == PDocumentStart && Weight(state) + Weights(states) == 0
    {
      hide Placed, Here, Weights, Accept;
      ClearDirectives();
      state := PDocumentStart;
      PlaceOutside();
      DocumentAccepted(implicit);
    }

    /** The directives of a document end with it. */
    method ClearDirectives()
      modifies `directives
      ensures directives == []
    {
      while directives != [] {
        directives := directives[..|directives| - 1];
      }
    }

    /** yaml_parser_parse_document_end */
    method ParseDocumentEnd() returns (e: Option<Event>, ghost mid: nat)
      requires Ready() && state == PDocumentEnd
      modifies `error, `parsed, `streamEndProduced, `items, `tags, `state, `directives
      ensures Counted() && old(parsed) <= parsed && old(items) <= items && old(tags) <= tags
      ensures e.None? ==> error != NoProblem
      ensures e.Some? <==> old(parsed) < |tokens|
      ensures e.Some? ==> Moved(old(Here()), e.value) && Told(e.value) && Owed() < old(Owed())
      ensures e.Some? ==> e.value.DocumentEnd? && states == [] && marks == []
      ensures e.Some? ==> old(parsed) <= mid <= parsed && Step(old(Now()), Between(old(parsed), mid), Between(mid, parsed), e.value, Now())
    {
      hide Counted, Placed, Here, Ready, Weights, Accept, Settled, Step, Between;
      DocumentPlace();
      e, mid := None, parsed;
      var implicit := true;
      var token := Peek();
      if token.None? {
        return;
      }
      if token.value.kind.DocumentEndToken? {
        Skip();
        implicit := false;
      }
      EndDocument(implicit);
      e := Some(DocumentEnd(implicit));
      mid := parsed;
      BetweenIs(old(parsed));
      BetweenIs(mid);
      DocumentEndGoes(old(Now()), Between(old(parsed), mid), Now());
    }

    lemma {:induction false} StillInDocument(was: seq<Frame>, e: Event)
      requires Landed(was, e) && Headed() && error == NoProblem && !streamEndProduced
      ensures Moved(was, e)
    {
    }

    /** Documents end only in the state for that. */
    lemma {:induction false} WhereDocumentsEnd()
      requires Ready() && state != PEnd
      ensures state != PBlockNodeOrIndentlessSequence && state != PFlowNode && (state != PStreamStart ==> parsed > 0)
      ensures state != PDocumentEnd ==> forall e: Event :: e.DocumentEnd? ==> Accept(Here(), e).None?
    {
      hide Counted;
      var here := Here();
      assert state != PDocumentEnd ==> here[|here| - 1] != AtDocumentEnd;
    }

    /** The states inside of a flow sequence. */
    method FlowSequenceMachine() returns (e: Option<Event>, ghost mid: nat)
      requires Ready() && InFlowSequence(state)
      modifies `error, `parsed, `streamEndProduced, `items, `tags, `state, `states, `marks
      ensures Counted() && old(parsed) <= parsed && old(items) <= items && old(tags) <= tags
      ensures e.None? ==> error != NoProblem
      ensures e.Some? <==> Can(old(state), old(parsed), directives)
      ensures e.Some? ==> Landed(old(Here()), e.value) && Headed() && error == NoProblem && !streamEndProduced && Told(e.value)
      ensures e.Some? ==> Owed() < old(Owed())
      ensures e.Some? ==> old(parsed) <= mid <= parsed && Step(old(Now()), Between(old(parsed), mid), Between(mid, parsed), e.value, Now())
    {
      hide Counted, Weights, Here, Ready, Landed, Headed, Moved, EventItems, EventTag, TagItems, Owed, Step, Between, BlockSequenceCan, IndentlessSequenceCan, BlockMappingCan, BlockValueCan, FlowSequenceCan, PairKeyCan, PairValueCan,
           FlowMappingCan, FlowValueCan, AfterComma, PastComma;
      match state {
        case PFlowSequenceFirstEntry => e, mid := ParseFlowSequenceEntry(true);
        case PFlowSequenceEntry => e, mid := ParseFlowSequenceEntry(false);
        case PFlowSequenceEntryMappingKey => e, mid := ParseFlowSequenceEntryMappingKey();
        case PFlowSequenceEntryMappingValue => e, mid := ParseFlowSequenceEntryMappingValue();
        case PFlowSequenceEntryMappingEnd => e, mid := ParseFlowSequenceEntryMappingEnd();
      }
    }

    /** The states inside of a flow mapping. */
    method FlowMappingMachine() returns (e: Option<Event>, ghost mid: nat)
      requires Ready() && InFlowMapping(state)
      modifies `error, `parsed, `streamEndProduced, `items, `tags, `state, `states, `marks
      ensures Counted() && old(parsed) <= parsed && old(items) <= items && old(tags) <= tags
      ensures e.None? ==> error != NoProblem
      ensures e.Some? <==> Can(old(state), old(parsed), directives)
      ensures e.Some? ==> Landed(old(Here()), e.value) && Headed() && error == NoProblem && !streamEndProduced && Told(e.value)
      ensures e.Some? ==> Owed() < old(Owed())
      ensures e.Some? ==> old(parsed) <= mid <= parsed && Step(old(Now()), Between(old(parsed), mid), Between(mid, parsed), e.value, Now())
    {
      hide Counted, Weights, Here, Ready, Landed, Headed, Moved, EventItems, EventTag, TagItems, Owed, Step, Between, BlockSequenceCan, IndentlessSequenceCan, BlockMappingCan, BlockValueCan, FlowSequenceCan, PairKeyCan, PairValueCan,
           FlowMappingCan, FlowValueCan, AfterComma, PastComma;
      match state {
        case PFlowMappingFirstKey => e, mid := ParseFlowMappingKey(true);
        case PFlowMappingKey => e, mid := ParseFlowMappingKey(false);
        case PFlowMappingValue => e, mid := ParseFlowMappingValue(false);
        case PFlowMappingEmptyValue => e, mid := ParseFlowMappingValue(true);
      }
    }

    predicate InFlowSequence(s: State) {
      || s.PFlowSequenceFirstEntry? || s.PFlowSequenceEntry? || s.PFlowSequenceEntryMappingKey?
      || s.PFlowSequenceEntryMappingValue? || s.PFlowSequenceEntryMappingEnd?
    }

    predicate InFlowMapping(s: State) {
      s.PFlowMappingFirstKey? || s.PFlowMappingKey? || s.PFlowMappingValue? || s.PFlowMappingEmptyValue?
    }

    /** The states inside of a collection. */
    method CollectionMachine() returns (e: Option<Event>, ghost mid: nat)
      requires Ready() && (IsFirst(state) || InCollection(state) || state.PFlowSequenceEntryMappingKey?)
      modifies `error, `parsed, `streamEndProduced, `items, `tags, `state, `states, `marks
      ensures Counted() && old(parsed) <= parsed && old(items) <= items && old(tags) <= tags
      ensures e.None? ==> error != NoProblem
      ensures e.Some? <==> Can(old(state), old(parsed), directives)
      ensures e.Some? ==> Moved(old(Here()), e.value) && Told(e.value) && Owed() < old(Owed())
      ensures e.Some? ==> old(parsed) <= mid <= parsed && Step(old(Now()), Between(old(parsed), mid), Between(mid, parsed), e.value, Now())
    {
      hide Counted, Weights, Here, Ready, Landed, Headed, Moved, EventItems, EventTag, TagItems, Owed, Step, Between, BlockSequenceCan, IndentlessSequenceCan, BlockMappingCan, BlockValueCan, FlowSequenceCan, PairKeyCan, PairValueCan,
           FlowMappingCan, FlowValueCan, AfterComma, PastComma;
      if InFlowSequence(state) {
        e, mid := FlowSequenceMachine();
      } else if InFlowMapping(state) {
        e, mid := FlowMappingMachine();
      } else {
        match state {
          case PBlockSequenceFirstEntry => e, mid := ParseBlockSequenceEntry(true);
          case PBlockSequenceEntry => e, mid := ParseBlockSequenceEntry(false);
          case PIndentlessSequenceEntry => e, mid := ParseIndentlessSequenceEntry();
          case PBlockMappingFirstKey => e, mid := ParseBlockMappingKey(true);
          case PBlockMappingKey => e, mid := ParseBlockMappingKey(false);
          case PBlockMappingValue => e, mid := ParseBlockMappingValue();
        }
      }
      if e.Some? {
        StillInDocument(old(Here()), e.value);
      }
    }

    /** yaml_parser_parse_node at the root of an implicit document. */
    method ParseRoot() returns (e: Option<Event>, ghost mid: nat)
      requires Ready() && state == PBlockNode
      modifies `error, `parsed, `streamEndProduced, `items, `tags, `state, `states, `marks
      ensures Counted() && old(parsed) <= parsed && old(items) <= items && old(tags) <= tags
      ensures e.None? ==> error != NoProblem
      ensures e.Some? <==> NodeStarts(old(parsed), true, false, directives)
      ensures e.Some? ==> Moved(old(Here()), e.value) && Told(e.value) && Owed() < old(Owed())
      ensures e.Some? ==> old(parsed) <= mid <= parsed && Step(old(Now()), Between(old(parsed), mid), Between(mid, parsed), e.value, Now())
    {
      hide Counted, Weights, AllMarked, Opened, Saved, StateOk, Accept, Ready, AtNode, Landed, Here, Step, NodeStep, Between, NodeStarts;
      RootPlace();
      mid := parsed;
      e := ParseNode(true, false, [InStream], AtRoot);
      BetweenIs(old(parsed));
      RootGoes(old(Now()), Between(mid, parsed), e, Now());
      if e.Some? {
        StillInDocument(old(Here()), e.value);
      }
    }

    /** yaml_parser_state_machine.  The parser never gets into the states
        PBlockNodeOrIndentlessSequence and PFlowNode. */
    method StateMachine() returns (e: Option<Event>, ghost mid: nat)
      requires Ready() && state != PEnd
      modifies `error, `parsed, `streamEndProduced, `items, `tags, `state, `states, `marks, `directives
      ensures Counted() && old(parsed) <= parsed && old(items) <= items && old(tags) <= tags
      ensures e.None? ==> error != NoProblem
      ensures e.Some? <==> Can(old(state), old(parsed), old(directives))
      ensures e.Some? ==> Moved(old(Here()), e.value) && Told(e.value) && Owed() < old(Owed())
      ensures e.Some? && e.value.DocumentEnd? ==> states == [] && marks == []
      ensures e.Some? ==> parsed > 0
      ensures e.Some? ==> old(parsed) <= mid <= parsed && Step(old(Now()), Between(old(parsed), mid), Between(mid, parsed), e.value, Now())
    {
      hide Counted, Weights, Here, Placed, Settled, Headed, EventItems, EventTag, TagItems, Owed, Accept, FlagsOk, Step, Between, DocumentCan, ContentCan, NodeStarts, EndsEnd, BlockSequenceCan, IndentlessSequenceCan, BlockMappingCan, BlockValueCan, FlowSequenceCan, PairKeyCan, PairValueCan,
           FlowMappingCan, FlowValueCan, AfterComma, PastComma;
      WhereDocumentsEnd();
      match state
      case PStreamStart => e, mid := ParseStreamStart();
      case PImplicitDocumentStart => e, mid := ParseDocumentStart(true);
      case PDocumentStart => e, mid := ParseDocumentStart(false);
      case PDocumentContent => e, mid := ParseDocumentContent();
      case PDocumentEnd => e, mid := ParseDocumentEnd();
      case PBlockNode => e, mid := ParseRoot();
      case PBlockNodeOrIndentlessSequence => assert false;
      case PFlowNode => assert false;
      case PEnd => assert false;
      case _ => e, mid := CollectionMachine();
    }

    lemma {:induction false} AcceptsOne(es: seq<Event>, e: Event)
      ensures AcceptAll([BeforeStream], es + [e]) ==
              match AcceptAll([BeforeStream], es) case None => None case Some(f) => Accept(f, e)
      ensures AllEventItems(es + [e]) == AllEventItems(es) + EventItems(e)
      ensures AllTagItems(es + [e]) == AllTagItems(es) + TagItems(EventTag(e))
    {
      assert (es + [e])[..|es|] == es;
    }

    lemma {:induction false} BetweenAll(p: nat, q: nat)
      requires p <= q <= |tokens|
      ensures Between(0, p) <= Between(0, q) && Between(0, p) + Between(p, q) == Between(0, q)
    {
      BetweenTwo(0, p, q);
    }

    lemma {:induction false} Extends(d: Derivation, d': Derivation, p: nat, e: Event)
      requires p <= parsed <= |tokens| && Advances(d, d', Between(p, parsed), e, Now()) && KindsOf(d) == Between(0, p)
      ensures KindsOf(d') == Between(0, parsed) && EventsOf(d') == EventsOf(d) + [e] && Fits(d', Now())
    {
      hide KindsOf, EventsOf, Fits, Between;
      BetweenAll(p, parsed);
    }

    /** yaml_parser_parse: `ok` with no event means that there are none any more. */
    method Parse() returns (ok: bool, e: Option<Event>)
      requires Valid()
      modifies this
      ensures Valid()
      ensures old(error != NoProblem || state.PEnd?) ==> ok && e.None? && unchanged(this)
      ensures old(error == NoProblem && !state.PEnd?) ==> (ok <==> e.Some?) && (ok <==> error == NoProblem)
      ensures old(error == NoProblem && !state.PEnd?) ==> (ok <==> old(Can(state, parsed, directives)))
      ensures events == old(events) + if e.Some? then [e.value] else []
      ensures e.Some? ==> Accept(old(Here()), e.value) == Some(Here()) && Owed() < old(Owed())
      ensures e.Some? && e.value.DocumentEnd? ==> states == [] && marks == []
    {
      hide Accept, AcceptAll, Weights, Placed, Headed, Here, FlagsOk, EventItems, TagItems, EventTag, AllEventItems, AllTagItems, Counted, Step, Fits, KindsOf, EventsOf, Advances, Between, Can;
      if streamEndProduced || error != NoProblem || state.PEnd? {
        return true, None;
      }
      ghost var p, c, d := parsed, Now(), derived;
      ghost var mid;
      e, mid := StateMachine();
      ok := e.Some?;
      InTokens();
      BetweenAll(p, parsed);
      if e.Some? {
        AcceptsOne(events, e.value);
        derived := Derives(d, c, Between(p, mid), Between(mid, parsed), e.value, Now());
        BetweenTwo(p, mid, parsed);
        Extends(d, derived, p, e.value);
        events := events + [e.value];
      }
    }

    /** Nothing but the end of the stream takes the parser to its end. */
    lemma {:induction false} AfterStart()
      requires Valid() && error == NoProblem && Here() == [InStream]
      ensures !streamEndProduced && StreamStartProduced() && !state.PEnd?
    {
      if state.PEnd? || state.PStreamStart? {
        DocumentPlace();
      }
    }

    lemma {:induction false} AfterEnd()
      requires Valid() && error == NoProblem && Here() == []
      ensures streamEndProduced
    {
      assert state.PEnd? || AwaitsRoot(state) || Expect(state) != [];
    }

    /** Between two events the tokens taken are those of a derivation by the grammar, as far
        as the parser has come, and the events are what it stands for.  At the end of the
        stream they are those of whole documents: each collection has one child for each
        entry that its tokens have, and a node without tokens stands only where the
        grammar lets one be missing. */
    lemma {:induction false} TokensDerive()
      requires Valid() && error == NoProblem
      ensures Fits(derived, Now()) && KindsOf(derived) == Between(0, parsed) && EventsOf(derived) == events
      ensures state.PEnd? ==>
                exists docs :: DocsOk(docs) && Between(0, parsed) == StreamKinds(docs) && events == StreamEvents(docs)
    {
      hide StreamKinds, StreamEvents, DocsOk, Between, AcceptAll, AllEventItems, AllTagItems;
      WhichFits(derived, Now());
      if state.PEnd? {
        assert DocsOk(derived.docs);
      }
    }

    /** After an error the events are still those of a derivation of the first tokens. */
    lemma {:induction false} ErrorsDerive()
      requires Valid()
      ensures EventsOf(derived) == events && KindsOf(derived) <= Between(0, parsed)
    {
    }

    /** For every token sequence, the events delivered so far are the beginning of
        a stream of well-formed documents, and the whole of it at the end. */
    lemma {:induction false} EventsAreStream()
      requires Valid()
      ensures exists whole, ds :: IsStream(whole, ds) && events <= whole
      ensures error == NoProblem && state.PEnd? ==> exists ds :: IsStream(events, ds)
      ensures |events| <= 3 * parsed + 1 <= 3 * |tokens| + 1
    {
      Beginning(events);
      if error == NoProblem && state.PEnd? {
        assert Here() == [];
        Grammar(events);
      }
    }
  }

  lemma {:induction false} ResolveFirst(ds: seq<TagDirective>, more: seq<TagDirective>, handle: CString, suffix: CString)
    requires handle != []
    ensures Resolve(ds + more, handle, suffix) == if Defines(ds, handle) then Resolve(ds, handle, suffix) else Resolve(more, handle, suffix)
  {
    if ds == [] {
      assert ds + more == more;
    } else {
      assert (ds + more)[1..] == ds[1..] + more;
      ResolveFirst(ds[1..], more, handle, suffix);
      if ds[0].handle != handle && Defines(ds, handle) {
        var i :| 0 <= i < |ds| && ds[i].handle == handle;
        assert ds[1..][i - 1].handle == handle;
      }
    }
  }

  /** A document's own directive for a handle counts, and "!!" and "!" keep their
      usual meaning where it has none. */
  lemma {:induction false} Defaults(ds: seq<TagDirective>, handle: CString, suffix: CString)
    requires handle != []
    ensures Defines(ds, handle) ==> Resolve(WithDefaults(ds, DEFAULTS), handle, suffix) == Resolve(ds, handle, suffix)
    ensures !Defines(ds, handle) ==>
              Resolve(WithDefaults(ds, DEFAULTS), handle, suffix) ==
              if handle == [BANG] then Some([BANG] + suffix)
              else if handle == [BANG, BANG] then Some(YAML_PREFIX + suffix)
              else None
  {
    var one, two := DEFAULTS[0], DEFAULTS[1];
    assert DEFAULTS[..1] == [one] && [one][..0] == [];
    assert WithDefaults(ds, []) == ds;
    var r := WithDefaults(ds, [one]);
    assert r == if Defines(ds, one.handle) then ds else ds + [one];
    assert WithDefaults(ds, DEFAULTS) == if Defines(r, two.handle) then r else r + [two];
    ResolveFirst(ds, [one], handle, suffix);
    ResolveFirst(r, [two], handle, suffix);
    if Defines(ds, handle) {
      var i :| 0 <= i < |ds| && ds[i].handle == handle;
      assert r[i].handle == handle;
    } else {
      NotDefined(ds, handle, suffix);
    }
    assert [one][1..] == [] && [two][1..] == [];
    if !Defines(ds, one.handle) {
      assert r[|ds|] == one;
    }
  }

  lemma {:induction false} NotDefined(ds: seq<TagDirective>, handle: CString, suffix: CString)
    requires handle != [] && !Defines(ds, handle)
    ensures Resolve(ds, handle, suffix) == None
  {
    if ds != [] {
      NotDefined(ds[1..], handle, suffix);
    }
  }
}
