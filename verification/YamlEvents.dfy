/** The events between parser, loader and dumper of the YAML library, and the
    grammar of event streams: once as trees and once as an acceptor. */
module YamlEvents {
  import opened CStrings
  import opened Options

  datatype ScalarStyle = AnyScalar | Plain | SingleQuoted | DoubleQuoted | Literal | Folded

  datatype CollectionStyle = AnyCollection | Block | Flow

  datatype TagDirective = TagDirective(handle: CString, prefix: CString)

  datatype Event =
    | StreamStart
    | StreamEnd
    | DocumentStart(version: Option<(int, int)>, directives: seq<TagDirective>, implicit: bool)
    | DocumentEnd(implicit: bool)
    | Alias(name: CString)
    | Scalar(anchor: Option<CString>, tag: Option<CString>, value: seq<byte>,
             plainImplicit: bool, quotedImplicit: bool, scalarStyle: ScalarStyle)
    | SequenceStart(anchor: Option<CString>, tag: Option<CString>, implicit: bool, style: CollectionStyle)
    | SequenceEnd
    | MappingStart(anchor: Option<CString>, tag: Option<CString>, implicit: bool, style: CollectionStyle)
    | MappingEnd

  /** A node as the events present it. */
  datatype Tree = Leaf(event: Event) | Branch(start: Event, items: seq<Tree>)

  datatype Document = Document(start: Event, root: Tree, end: Event)

  predicate StartsNode(e: Event) {
    e.Alias? || e.Scalar? || e.SequenceStart? || e.MappingStart?
  }

  /** Leaves are scalars and aliases, branches are sequences and mappings, and a
      mapping has its keys and values in pairs. */
  ghost predicate TreeOk(t: Tree) {
    match t
    case Leaf(e) => e.Alias? || e.Scalar?
    case Branch(e, items) =>
      && (e.SequenceStart? || e.MappingStart?)
      && (e.MappingStart? ==> |items| % 2 == 0)
      && forall i :: 0 <= i < |items| ==> TreeOk(items[i])
  }

  ghost predicate DocumentOk(d: Document) {
    d.start.DocumentStart? && TreeOk(d.root) && d.end.DocumentEnd?
  }

  function EndOf(start: Event): Event {
    if start.MappingStart? then MappingEnd else SequenceEnd
  }

  function Flatten(t: Tree): seq<Event>
    decreases t
  {
    match t
    case Leaf(e) => [e]
    case Branch(e, items) => [e] + FlattenAll(items) + [EndOf(e)]
  }

  function FlattenAll(items: seq<Tree>): seq<Event>
    decreases items
  {
    if items == [] then [] else Flatten(items[0]) + FlattenAll(items[1..])
  }

  function FlattenDocument(d: Document): seq<Event> {
    [d.start] + Flatten(d.root) + [d.end]
  }

  function FlattenDocuments(ds: seq<Document>): seq<Event> {
    if ds == [] then [] else FlattenDocument(ds[0]) + FlattenDocuments(ds[1..])
  }

  /** The events of a whole stream. */
  function Stream(ds: seq<Document>): seq<Event> {
    [StreamStart] + FlattenDocuments(ds) + [StreamEnd]
  }

  /** What an acceptor of event streams is inside of, and what it expects there. */
  datatype Frame = BeforeStream | InStream | AtRoot | AtDocumentEnd | InSequence | AtKey | AtValue

  /** Whether a node may start here. */
  predicate TakesNode(f: Frame) {
    f.AtRoot? || f.InSequence? || f.AtKey? || f.AtValue?
  }

  /** What to expect after the node that starts here. */
  function AfterNode(f: Frame): Frame
    requires TakesNode(f)
  {
    match f
    case AtRoot => AtDocumentEnd
    case InSequence => InSequence
    case AtKey => AtValue
    case AtValue => AtKey
  }

  /** One event, with `open` the frames from the outermost to the innermost. */
  function Accept(open: seq<Frame>, e: Event): Option<seq<Frame>> {
    if open == [] then None
    else
      var n := |open| - 1;
      var rest, top := open[..n], open[n];
      match e
      case StreamStart => if top.BeforeStream? then Some(rest + [InStream]) else None
      case StreamEnd => if top.InStream? then Some(rest) else None
      case DocumentStart(_, _, _) => if top.InStream? then Some(open + [AtRoot]) else None
      case DocumentEnd(_) => if top.AtDocumentEnd? then Some(rest) else None
      case SequenceEnd => if top.InSequence? then Some(rest) else None
      case MappingEnd => if top.AtKey? then Some(rest) else None
      case _ =>
        if !TakesNode(top) then None
        else if e.SequenceStart? then Some(rest + [AfterNode(top), InSequence])
        else if e.MappingStart? then Some(rest + [AfterNode(top), AtKey])
        else Some(rest + [AfterNode(top)])
  }

  /** All events, one after the other. */
  function AcceptAll(open: seq<Frame>, es: seq<Event>): Option<seq<Frame>> {
    if es == [] then Some(open)
    else
      var n := |es| - 1;
      match AcceptAll(open, es[..n])
      case None => None
      case Some(f) => Accept(f, es[n])
  }

  lemma {:induction false} AcceptTwo(open: seq<Frame>, a: seq<Event>, b: seq<Event>)
    ensures AcceptAll(open, a + b) ==
            match AcceptAll(open, a) case None => None case Some(f) => AcceptAll(f, b)
  {
    hide Accept;
    if b == [] {
      assert a + b == a;
    } else {
      var n := |b| - 1;
      AcceptTwo(open, a, b[..n]);
      assert (a + b)[..|a| + n] == a + b[..n];
    }
  }

  /** The last step of an acceptor that has accepted something. */
  lemma {:induction false} AcceptLast(open: seq<Frame>, es: seq<Event>) returns (before: seq<Frame>)
    requires AcceptAll(open, es).Some? && es != []
    ensures before != [] && AcceptAll(open, es[..|es| - 1]) == Some(before)
    ensures Accept(before, es[|es| - 1]) == AcceptAll(open, es)
  {
    before := AcceptAll(open, es[..|es| - 1]).value;
  }

  /** The events of a node are accepted wherever a node may start. */
  lemma {:induction false} AcceptsTree(rest: seq<Frame>, f: Frame, t: Tree)
    requires TakesNode(f) && TreeOk(t)
    ensures AcceptAll(rest + [f], Flatten(t)) == Some(rest + [AfterNode(f)])
    decreases t, 1
  {
    match t
    case Leaf(e) =>
      assert AcceptAll(rest + [f], [e]) == Accept(rest + [f], e);
    case Branch(e, items) =>
      var g := if e.MappingStart? then AtKey else InSequence;
      var up := rest + [AfterNode(f)];
      assert AcceptAll(rest + [f], [e]) == Accept(rest + [f], e) == Some(up + [g]) by {
        assert up + [g] == rest + [AfterNode(f), g];
      }
      AcceptsTrees(up, g, items);
      AcceptTwo(rest + [f], [e], FlattenAll(items));
      AcceptTwo(rest + [f], [e] + FlattenAll(items), [EndOf(e)]);
      assert AcceptAll(up + [g], [EndOf(e)]) == Accept(up + [g], EndOf(e)) == Some(up);
  }

  lemma {:induction false} AcceptsTrees(rest: seq<Frame>, f: Frame, items: seq<Tree>)
    requires f.InSequence? || f.AtKey? || f.AtValue?
    requires forall i :: 0 <= i < |items| ==> TreeOk(items[i])
    ensures AcceptAll(rest + [f], FlattenAll(items)) ==
            Some(rest + [if |items| % 2 == 0 then f else AfterNode(f)])
    decreases items, 0
  {
    hide Accept, Flatten, StartsNode;
    if items != [] {
      hide AcceptAll, TreeOk;
      AcceptsTree(rest, f, items[0]);
      AcceptsTrees(rest, AfterNode(f), items[1..]);
      AcceptTwo(rest + [f], Flatten(items[0]), FlattenAll(items[1..]));
    }
  }

  lemma {:induction false} AcceptsDocument(d: Document)
    requires DocumentOk(d)
    ensures AcceptAll([InStream], FlattenDocument(d)) == Some([InStream])
  {
    hide Flatten;
    AcceptsTree([InStream], AtRoot, d.root);
    AcceptTwo([InStream], [d.start], Flatten(d.root));
    AcceptTwo([InStream], [d.start] + Flatten(d.root), [d.end]);
    assert AcceptAll([InStream], [d.start]) == Accept([InStream], d.start) == Some([InStream] + [AtRoot]);
    assert AcceptAll([InStream] + [AtDocumentEnd], [d.end]) == Accept([InStream] + [AtDocumentEnd], d.end);
  }

  /** Every stream of well-formed documents is accepted. */
  lemma {:induction false} AcceptsDocuments(ds: seq<Document>)
    requires forall i :: 0 <= i < |ds| ==> DocumentOk(ds[i])
    ensures AcceptAll([InStream], FlattenDocuments(ds)) == Some([InStream])
  {
    hide Accept, FlattenDocument;
    if ds != [] {
      hide AcceptAll, DocumentOk;
      AcceptsDocument(ds[0]);
      AcceptTwo([InStream], FlattenDocument(ds[0]), FlattenDocuments(ds[1..]));
      AcceptsDocuments(ds[1..]);
    }
  }

  /** A tree that is still being read: what is complete of it so far. */
  datatype Part =
    | NoStream
    | InDocuments(done: seq<Document>)
    | InDocument(start: Event)
    | WithRoot(start: Event, root: Tree)
    | InNode(start: Event, items: seq<Tree>)

  ghost predicate PartOk(p: Part) {
    match p
    case NoStream => true
    case InDocuments(ds) => forall i :: 0 <= i < |ds| ==> DocumentOk(ds[i])
    case InDocument(s) => s.DocumentStart?
    case WithRoot(s, t) => s.DocumentStart? && TreeOk(t)
    case InNode(s, items) => (s.SequenceStart? || s.MappingStart?) && forall i :: 0 <= i < |items| ==> TreeOk(items[i])
  }

  ghost function FrameOf(p: Part): Frame {
    match p
    case NoStream => BeforeStream
    case InDocuments(_) => InStream
    case InDocument(_) => AtRoot
    case WithRoot(_, _) => AtDocumentEnd
    case InNode(s, items) => if s.SequenceStart? then InSequence else if |items| % 2 == 0 then AtKey else AtValue
  }

  ghost function PartEvents(p: Part): seq<Event> {
    match p
    case NoStream => []
    case InDocuments(ds) => [StreamStart] + FlattenDocuments(ds)
    case InDocument(s) => [s]
    case WithRoot(s, t) => [s] + Flatten(t)
    case InNode(s, items) => [s] + FlattenAll(items)
  }

  /** `p` waits with the frame `f` for the part `next` inside of it. */
  ghost predicate Waits(p: Part, f: Frame, next: Part) {
    match p
    case InDocuments(_) => f.InStream? && (next.InDocument? || next.WithRoot?)
    case InDocument(_) => f.AtDocumentEnd? && next.InNode?
    case InNode(_, _) => f == AfterNode(FrameOf(p)) && next.InNode?
    case _ => false
  }

  /** The part being read and those it is inside of. */
  datatype Parts = Outermost(part: Part) | Inside(part: Part, outer: Parts)

  ghost function PartsEvents(ps: Parts): seq<Event> {
    match ps
    case Outermost(p) => PartEvents(p)
    case Inside(p, outer) => PartsEvents(outer) + PartEvents(p)
  }

  /** `ps` waits with the frames `open` for the part `next`. */
  ghost predicate AllWait(ps: Parts, open: seq<Frame>, next: Part)
    decreases ps
  {
    && open != [] && PartOk(ps.part) && Waits(ps.part, open[|open| - 1], next)
    && match ps
       case Outermost(p) => p.InDocuments? && |open| == 1
       case Inside(p, outer) => !p.InDocuments? && AllWait(outer, open[..|open| - 1], p)
  }

  /** The parts that were read when the acceptor is in `open`. */
  ghost predicate Reads(ps: Parts, open: seq<Frame>) {
    && open != [] && PartOk(ps.part) && open[|open| - 1] == FrameOf(ps.part)
    && match ps
       case Outermost(p) => (p.NoStream? || p.InDocuments?) && |open| == 1
       case Inside(p, outer) => AllWait(outer, open[..|open| - 1], p)
  }

  /** The part `p` once the node `t` in it is complete. */
  ghost function Grown(p: Part, t: Tree): Part
    requires TakesNode(FrameOf(p))
  {
    if p.InDocument? then WithRoot(p.start, t) else InNode(p.start, p.items + [t])
  }

  lemma {:induction false} FlattenLast(items: seq<Tree>, t: Tree)
    ensures FlattenAll(items + [t]) == FlattenAll(items) + Flatten(t)
  {
    if items == [] {
      assert FlattenAll([t]) == Flatten(t) + FlattenAll([]);
    } else {
      assert (items + [t])[1..] == items[1..] + [t];
      FlattenLast(items[1..], t);
    }
  }

  lemma {:induction false} FlattenLastDocument(ds: seq<Document>, d: Document)
    ensures FlattenDocuments(ds + [d]) == FlattenDocuments(ds) + FlattenDocument(d)
  {
    if ds == [] {
      assert FlattenDocuments([d]) == FlattenDocument(d) + FlattenDocuments([]);
    } else {
      assert (ds + [d])[1..] == ds[1..] + [d];
      FlattenLastDocument(ds[1..], d);
    }
  }

  lemma {:induction false} GrownEvents(p: Part, t: Tree)
    requires TakesNode(FrameOf(p)) && PartOk(p) && TreeOk(t)
    ensures PartEvents(Grown(p, t)) == PartEvents(p) + Flatten(t) && PartOk(Grown(p, t))
    ensures FrameOf(Grown(p, t)) == AfterNode(FrameOf(p))
  {
    hide TreeOk, Flatten, FlattenAll;
    if p.InNode? {
      FlattenLast(p.items, t);
    }
  }

  /** A complete node joins the part that takes it. */
  lemma {:induction false} ReadNode(ps: Parts, open: seq<Frame>, t: Tree) returns (ps': Parts)
    requires Reads(ps, open) && TakesNode(FrameOf(ps.part)) && TreeOk(t)
    ensures Reads(ps', open[..|open| - 1] + [AfterNode(FrameOf(ps.part))])
    ensures PartsEvents(ps') == PartsEvents(ps) + Flatten(t)
  {
    hide PartOk, Flatten, FlattenAll, PartEvents, TreeOk;
    GrownEvents(ps.part, t);
    ps' := Inside(Grown(ps.part, t), ps.outer);
    var open' := open[..|open| - 1] + [AfterNode(FrameOf(ps.part))];
    assert open'[..|open'| - 1] == open[..|open| - 1];
  }

  lemma {:induction false} NodeEvents(p: Part, e: Event)
    requires p.InNode? && e == EndOf(p.start)
    ensures Flatten(Branch(p.start, p.items)) == PartEvents(p) + [e]
  {
  }

  /** A collection that ends joins the part that it is in. */
  lemma {:induction false} ReadEnd(ps: Parts, open: seq<Frame>, e: Event) returns (ps': Parts)
    requires Reads(ps, open) && Accept(open, e).Some? && (e.SequenceEnd? || e.MappingEnd?)
    ensures Reads(ps', Accept(open, e).value)
    ensures PartsEvents(ps') == PartsEvents(ps) + [e]
  {
    hide FlattenAll, PartEvents;
    var n := |open| - 1;
    var p, q := ps.part, ps.outer.part;
    var t := Branch(p.start, p.items);
    var rest := open[..n];
    assert AllWait(ps.outer, rest, p);
    GrownEvents(q, t);
    ps' := Inside(Grown(q, t), ps.outer.outer);
    assert AllWait(ps.outer.outer, rest[..n - 1], q);
    NodeEvents(p, e);
  }

  /** A collection that starts. */
  lemma {:induction false} ReadStart(ps: Parts, open: seq<Frame>, e: Event) returns (ps': Parts)
    requires Reads(ps, open) && Accept(open, e).Some? && (e.SequenceStart? || e.MappingStart?)
    ensures Reads(ps', Accept(open, e).value)
    ensures PartsEvents(ps') == PartsEvents(ps) + [e]
  {
    hide TreeOk, Flatten;
    var n := |open| - 1;
    ps' := Inside(InNode(e, []), ps);
    assert Accept(open, e).value[..n + 1] == open[..n] + [AfterNode(open[n])];
  }

  lemma {:induction false} ReadDocumentEnd(ps: Parts, open: seq<Frame>, e: Event) returns (ps': Parts)
    requires Reads(ps, open) && Accept(open, e).Some? && e.DocumentEnd?
    ensures Reads(ps', Accept(open, e).value)
    ensures PartsEvents(ps') == PartsEvents(ps) + [e]
  {
    hide TreeOk, Flatten, FlattenDocuments;
    var ds := ps.outer.part.done;
    var d := Document(ps.part.start, ps.part.root, e);
    assert DocumentOk(d);
    hide DocumentOk;
    ps' := Outermost(InDocuments(ds + [d]));
    FlattenLastDocument(ds, d);
  }

  /** A document that starts or ends, or the start of the stream. */
  lemma {:induction false} ReadDocument(ps: Parts, open: seq<Frame>, e: Event) returns (ps': Parts)
    requires Reads(ps, open) && Accept(open, e).Some? && (e.StreamStart? || e.DocumentStart? || e.DocumentEnd?)
    ensures Reads(ps', Accept(open, e).value)
    ensures PartsEvents(ps') == PartsEvents(ps) + [e]
  {
    hide TreeOk, Flatten;
    var next := Accept(open, e).value;
    if e.StreamStart? {
      ps' := Outermost(InDocuments([]));
      assert next == [InStream];
    } else if e.DocumentStart? {
      ps' := Inside(InDocument(e), ps);
      assert next[..|open|] == open;
    } else {
      ps' := ReadDocumentEnd(ps, open, e);
    }
  }

  /** One accepted event, other than the end of the stream. */
  lemma {:induction false} ReadEvent(ps: Parts, open: seq<Frame>, e: Event) returns (ps': Parts)
    requires Reads(ps, open) && Accept(open, e).Some? && !e.StreamEnd?
    ensures Reads(ps', Accept(open, e).value)
    ensures PartsEvents(ps') == PartsEvents(ps) + [e]
  {
    hide FlattenAll, PartsEvents, AllWait;
    if e.SequenceEnd? || e.MappingEnd? {
      ps' := ReadEnd(ps, open, e);
    } else if e.Scalar? || e.Alias? {
      ps' := ReadNode(ps, open, Leaf(e));
    } else if e.SequenceStart? || e.MappingStart? {
      ps' := ReadStart(ps, open, e);
    } else {
      ps' := ReadDocument(ps, open, e);
    }
  }

  /** The stream ends only outside of any document. */
  lemma {:induction false} ReadStream(ps: Parts, open: seq<Frame>)
    requires Reads(ps, open) && open[|open| - 1].InStream?
    ensures |open| == 1 && ps == Outermost(InDocuments(ps.part.done))
    ensures forall i :: 0 <= i < |ps.part.done| ==> DocumentOk(ps.part.done[i])
  {
  }

  lemma {:induction false} OnlyEndEnds(ps: Parts, open: seq<Frame>, e: Event)
    requires Reads(ps, open) && Accept(open, e).Some? && Accept(open, e).value != []
    ensures !e.StreamEnd?
  {
    if open[|open| - 1].InStream? {
      ReadStream(ps, open);
    }
  }

  lemma {:induction false} ReadNothing() returns (ps: Parts)
    ensures AcceptAll([BeforeStream], []) == Some([BeforeStream])
    ensures Reads(ps, [BeforeStream]) && PartsEvents(ps) == []
  {
    ps := Outermost(NoStream);
  }

  /** An accepted sequence of events spells a stream that is being read. */
  lemma {:induction false} ReadAll(es: seq<Event>, open: seq<Frame>) returns (ps: Parts)
    requires AcceptAll([BeforeStream], es) == Some(open) && open != []
    ensures Reads(ps, open) && PartsEvents(ps) == es
  {
    hide *;
    ps := ReadNothing();
    if es != [] {
      var n := |es| - 1;
      var before := AcceptLast([BeforeStream], es);
      ps := ReadAll(es[..n], before);
      OnlyEndEnds(ps, before, es[n]);
      ps := ReadEvent(ps, before, es[n]);
      assert es == es[..n] + [es[n]];
    }
  }

  ghost predicate IsStream(es: seq<Event>, ds: seq<Document>) {
    (forall i :: 0 <= i < |ds| ==> DocumentOk(ds[i])) && es == Stream(ds)
  }

  lemma {:induction false} ReadWhole(es: seq<Event>) returns (ds: seq<Document>)
    requires AcceptAll([BeforeStream], es) == Some([])
    ensures IsStream(es, ds)
  {
    hide DocumentOk, FlattenDocuments, AcceptAll;
    var ps := ReadNothing();
    var n := |es| - 1;
    var before := AcceptLast([BeforeStream], es);
    ps := ReadAll(es[..n], before);
    assert es == es[..n] + [es[n]];
    ReadStream(ps, before);
    ds := ps.part.done;
  }

  lemma {:induction false} AcceptsStream(ds: seq<Document>)
    requires forall i :: 0 <= i < |ds| ==> DocumentOk(ds[i])
    ensures AcceptAll([BeforeStream], Stream(ds)) == Some([])
  {
    hide DocumentOk, FlattenDocuments;
    AcceptsDocuments(ds);
    AcceptTwo([BeforeStream], [StreamStart], FlattenDocuments(ds));
    AcceptTwo([BeforeStream], [StreamStart] + FlattenDocuments(ds), [StreamEnd]);
    assert [] + [InStream] == [InStream];
    assert AcceptAll([BeforeStream], [StreamStart]) == Accept([BeforeStream], StreamStart) == Some([InStream]);
    assert AcceptAll([InStream], [StreamEnd]) == Accept([InStream], StreamEnd) == Some([]);
  }

  /** The grammar and the acceptor say the same: the accepted event sequences
      are exactly the streams of well-formed documents. */
  lemma {:induction false} Grammar(es: seq<Event>)
    ensures AcceptAll([BeforeStream], es) == Some([]) <==> exists ds :: IsStream(es, ds)
  {
    if AcceptAll([BeforeStream], es) == Some([]) {
      var ds := ReadWhole(es);
    }
    forall ds | IsStream(es, ds)
      ensures AcceptAll([BeforeStream], es) == Some([])
    {
      AcceptsStream(ds);
    }
  }

  ghost function ToClose(open: seq<Frame>): nat {
    if open == [] then 0
    else
      var f := open[|open| - 1];
      ToClose(open[..|open| - 1]) + if f.AtRoot? || f.AtValue? || f.BeforeStream? then 2 else 1
  }

  /** Whatever is open can be closed. */
  lemma {:induction false} Close(open: seq<Frame>) returns (rest: seq<Event>)
    ensures AcceptAll(open, rest) == Some([])
    decreases ToClose(open)
  {
    if open == [] {
      return [];
    }
    var n := |open| - 1;
    var nothing := Scalar(None, None, [], true, false, Plain);
    var e := match open[n]
      case BeforeStream => StreamStart
      case InStream => StreamEnd
      case AtDocumentEnd => DocumentEnd(true)
      case InSequence => SequenceEnd
      case AtKey => MappingEnd
      case _ => nothing;
    var next := Accept(open, e).value;
    assert next == open[..n] || (|next| == n + 1 && next[..n] == open[..n]);
    rest := Close(next);
    AcceptTwo(open, [e], rest);
    assert AcceptAll(open, [e]) == Accept(open, e);
    rest := [e] + rest;
  }

  /** What the acceptor has accepted so far is the beginning of a stream of
      well-formed documents. */
  lemma {:induction false} Beginning(es: seq<Event>)
    requires AcceptAll([BeforeStream], es).Some?
    ensures exists whole, ds :: IsStream(whole, ds) && es <= whole
  {
    var rest := Close(AcceptAll([BeforeStream], es).value);
    AcceptTwo([BeforeStream], es, rest);
    var ds := ReadWhole(es + rest);
    assert IsStream(es + rest, ds) && es <= es + rest;
  }
}
