/** The grammar of YamlGrammar is unambiguous: the tokens of a stream have one derivation,
    and so one sequence of events. */
module YamlUnambiguous {
  import opened CStrings
  import opened Options
  import opened YamlGrammar

  predicate IsProperty(k: Kind) {
    k.AnchorToken? || k.Tag?
  }

  /** The tokens with which a node may start, apart from those of sequences without
      indentation and of pairs. */
  predicate StartsNode(k: Kind) {
    || IsProperty(k) || k.AliasToken? || k.ScalarToken?
    || k.BlockSequenceStart? || k.BlockMappingStart? || k.FlowSequenceStart? || k.FlowMappingStart?
  }

  /** What may come behind a node at that place. */
  predicate After(place: Place, r: seq<Kind>) {
    r != [] ==>
      && !StartsNode(r[0]) && (place.InBlockMapping? ==> !r[0].BlockEntry?)
      && (place.InFlowSequence? ==> !r[0].Key? && !r[0].Value?)
  }

  /** What may come behind a collection. */
  predicate Behind(shape: Shape, r: seq<Kind>) {
    r != [] ==>
      !StartsNode(r[0]) && (shape.IndentlessSequence? ==> !r[0].BlockEntry?) && (shape.FlowPair? ==> !r[0].Value?)
  }

  /** Where the children of a collection stand. */
  function PlaceIn(shape: Shape): Place {
    match shape
    case BlockSequence => InBlock
    case IndentlessSequence => InBlock
    case BlockMapping => InBlockMapping
    case FlowSequence => InFlowSequence
    case FlowMapping => InFlow
    case FlowPair => InFlow
  }

  /** The tokens of the children from one on. */
  function RestKinds(cs: seq<Child>, i: nat): seq<Kind>
    requires i <= |cs|
    decreases |cs| - i
  {
    if i == |cs| then [] else cs[i].lead + (SyntaxKinds(cs[i].node) + RestKinds(cs, i + 1))
  }

  lemma {:induction false} RestIs(cs: seq<Child>, i: nat)
    requires i <= |cs|
    ensures ChildrenKinds(cs) == ChildrenKinds(cs[..i]) + RestKinds(cs, i)
    decreases |cs| - i
  {
    hide SyntaxKinds;
    if i == |cs| {
      assert cs[..i] == cs;
    } else {
      RestIs(cs, i + 1);
      assert cs[..i + 1][..i] == cs[..i];
    }
  }

  ghost predicate ChildrenOk(shape: Shape, cs: seq<Child>, close: seq<Kind>) {
    CloseOk(shape, cs, close) && forall i :: 0 <= i < |cs| ==> ChildOk(shape, cs, i) && SyntaxOk(cs[i].node)
  }

  /** The tokens from the child `i` on, and what comes behind the collection. */
  function Tail(cs: seq<Child>, close: seq<Kind>, r: seq<Kind>, i: nat): seq<Kind>
    requires i <= |cs|
  {
    RestKinds(cs, i) + (close + r)
  }

  lemma {:induction false} TailIs(cs: seq<Child>, close: seq<Kind>, r: seq<Kind>, i: nat)
    requires i <= |cs|
    ensures i == |cs| ==> Tail(cs, close, r, i) == close + r
    ensures i < |cs| ==> Tail(cs, close, r, i) == cs[i].lead + (SyntaxKinds(cs[i].node) + Tail(cs, close, r, i + 1))
  {
    hide SyntaxKinds;
    if i < |cs| {
      var a, b, c, d := cs[i].lead, SyntaxKinds(cs[i].node), RestKinds(cs, i + 1), close + r;
      assert a + (b + c) + d == a + (b + (c + d));
    } else {
      assert [] + (close + r) == close + r;
    }
  }

  // ---------------------------------------------------------------------
  // The first token of a node
  // ---------------------------------------------------------------------

  lemma {:induction false} NodeFirst(n: Syntax, place: Place)
    requires SyntaxOk(n) && Allowed(n, place) && n != NOTHING
    ensures SyntaxKinds(n) != []
    ensures var k := SyntaxKinds(n)[0];
      StartsNode(k) || (k.BlockEntry? && place.InBlockMapping?) || (k.Key? && place.InFlowSequence?)
  {
    match n
    case Single(kinds) => SingleFirst(kinds);
    case Compound(shape, props, children, close) =>
      CompoundFirst(shape, props, children, close);
  }

  lemma {:induction false} SingleFirst(ks: seq<Kind>)
    requires IsSingle(ks) && ks != []
    ensures StartsNode(ks[0])
  {
    if |ks| > 1 && ks[|ks| - 1].ScalarToken? {
      assert ks[..|ks| - 1][0] == ks[0];
    }
  }

  /** What is behind the properties of a collection. */
  function Rest(n: Syntax): seq<Kind>
    requires n.Compound?
  {
    Opening(n.shape) + RestKinds(n.children, 0) + n.close
  }

  /** The token after the properties tells the shape. */
  predicate Tells(k: Kind, shape: Shape) {
    match shape
    case BlockSequence => k.BlockSequenceStart?
    case IndentlessSequence => k.BlockEntry?
    case BlockMapping => k.BlockMappingStart?
    case FlowSequence => k.FlowSequenceStart?
    case FlowMapping => k.FlowMappingStart?
    case FlowPair => k.Key?
  }

  lemma {:induction false} CompoundIs(n: Syntax)
    requires n.Compound?
    ensures SyntaxKinds(n) == n.props + Rest(n)
  {
    hide RestKinds, ChildrenKinds, Opening;
    RestIs(n.children, 0);
    assert n.children[..0] == [] && ChildrenKinds([]) == [] by { NoChildren(); }
    assert n.props + Opening(n.shape) + ChildrenKinds(n.children) + n.close ==
           n.props + (Opening(n.shape) + RestKinds(n.children, 0) + n.close);
  }

  lemma {:induction false} NoChildren()
    ensures ChildrenKinds([]) == []
  {
  }

  lemma {:induction false} RestTells(n: Syntax)
    requires SyntaxOk(n) && n.Compound?
    ensures Rest(n) != [] && Tells(Rest(n)[0], n.shape)
  {
    hide SyntaxKinds, IsProperties;
    var cs := n.children;
    if n.shape.IndentlessSequence? || n.shape.FlowPair? {
      assert ChildOk(n.shape, cs, 0);
      assert cs[0].lead != [] && RestKinds(cs, 0)[0] == cs[0].lead[0];
    }
  }

  lemma {:induction false} CompoundFirst(shape: Shape, props: seq<Kind>, children: seq<Child>, close: seq<Kind>)
    requires SyntaxOk(Compound(shape, props, children, close))
    ensures var ks := SyntaxKinds(Compound(shape, props, children, close));
      ks != [] && (StartsNode(ks[0]) || (ks[0].BlockEntry? && shape.IndentlessSequence?) || (ks[0].Key? && shape.FlowPair?))
  {
    var n := Compound(shape, props, children, close);
    CompoundIs(n);
    RestTells(n);
    hide Rest, SyntaxKinds;
  }

  // ---------------------------------------------------------------------
  // What the tokens behind a child tell
  // ---------------------------------------------------------------------

  predicate Is(t: seq<Kind>, i: nat, k: Kind) {
    i < |t| && t[i] == k
  }

  /** A flow collection ends here, with or without a comma. */
  predicate EndsFlow(t: seq<Kind>, end: Kind) {
    Is(t, 0, end) || (Is(t, 0, FlowEntry) && Is(t, 1, end))
  }

  predicate Odd(n: nat) {
    n % 2 != 0
  }

  /** From the tokens alone: whether there is another child. */
  predicate Goes(shape: Shape, i: nat, t: seq<Kind>) {
    match shape
    case BlockSequence => Is(t, 0, BlockEntry)
    case IndentlessSequence => Is(t, 0, BlockEntry)
    case BlockMapping => Odd(i) || Is(t, 0, Key)
    case FlowSequence => !EndsFlow(t, FlowSequenceEnd)
    case FlowMapping => Odd(i) || !EndsFlow(t, FlowMappingEnd)
    case FlowPair => i < 2
  }

  function ValueLead(t: seq<Kind>): seq<Kind> {
    if Is(t, 0, Value) then [Value] else []
  }

  /** The tokens that lead to it. */
  function LeadOf(shape: Shape, i: nat, t: seq<Kind>): seq<Kind> {
    match shape
    case BlockSequence => [BlockEntry]
    case IndentlessSequence => [BlockEntry]
    case BlockMapping => if Odd(i) then ValueLead(t) else [Key]
    case FlowSequence => Comma(i)
    case FlowMapping =>
      if Odd(i) then ValueLead(t) else if Is(t, |Comma(i)|, Key) then Comma(i) + [Key] else Comma(i)
    case FlowPair =>
      if i != 0 then ValueLead(t)
      else if |t| > 1 && (t[1].Value? || t[1].FlowEntry? || t[1].FlowSequenceEnd?) then [Key, t[1]]
      else [Key]
  }

  /** The tokens that close the collection. */
  function CloseOf(shape: Shape, t: seq<Kind>): seq<Kind> {
    match shape
    case BlockSequence => [BlockEnd]
    case IndentlessSequence => []
    case BlockMapping => [BlockEnd]
    case FlowSequence => if Is(t, 0, FlowEntry) then [FlowEntry, FlowSequenceEnd] else [FlowSequenceEnd]
    case FlowMapping => if Is(t, 0, FlowEntry) then [FlowEntry, FlowMappingEnd] else [FlowMappingEnd]
    case FlowPair => []
  }

  ghost predicate Decided(shape: Shape, cs: seq<Child>, close: seq<Kind>, r: seq<Kind>, i: nat)
    requires i <= |cs|
  {
    var t := Tail(cs, close, r, i);
    && (i < |cs| <==> Goes(shape, i, t))
    && if i < |cs| then cs[i].lead == LeadOf(shape, i, t) else close == CloseOf(shape, t)
  }

  /** A child that has a node. */
  lemma {:induction false} ChildFirst(shape: Shape, cs: seq<Child>, close: seq<Kind>, r: seq<Kind>, i: nat)
    requires ChildrenOk(shape, cs, close) && i < |cs| && cs[i].node != NOTHING
    ensures var lead, t := cs[i].lead, Tail(cs, close, r, i);
      && |t| > |lead| && t[..|lead|] == lead
      && (StartsNode(t[|lead|]) || (t[|lead|].BlockEntry? && shape.BlockMapping?) || (t[|lead|].Key? && shape.FlowSequence?))
  {
    assert ChildOk(shape, cs, i) && SyntaxOk(cs[i].node);
    ChildPlace(shape, cs, i);
    NodeFirst(cs[i].node, PlaceIn(shape));
    TailIs(cs, close, r, i);
    hide SyntaxOk, ChildOk, CloseOk, Tail, SyntaxKinds, StartsNode;
    var t, n := Tail(cs, close, r, i), cs[i].node;
    assert t[|cs[i].lead|] == (SyntaxKinds(n) + Tail(cs, close, r, i + 1))[0] == SyntaxKinds(n)[0];
  }

  lemma {:induction false} ChildPlace(shape: Shape, cs: seq<Child>, i: nat)
    requires i < |cs| && ChildOk(shape, cs, i)
    ensures Allowed(cs[i].node, PlaceIn(shape))
  {
  }

  /** Tokens that lead to a child, and then the others. */
  lemma {:induction false} TailLead(cs: seq<Child>, close: seq<Kind>, r: seq<Kind>, i: nat)
    requires i < |cs|
    ensures var lead, t := cs[i].lead, Tail(cs, close, r, i);
      && |t| >= |lead| && t[..|lead|] == lead
      && (cs[i].node == NOTHING ==> t[|lead|..] == Tail(cs, close, r, i + 1))
  {
    TailIs(cs, close, r, i);
    hide Tail, SyntaxKinds;
    assert cs[i].node == NOTHING ==> SyntaxKinds(cs[i].node) == [] by { NothingKinds(); }
  }

  lemma {:induction false} NothingKinds()
    ensures SyntaxKinds(NOTHING) == []
  {
  }

  lemma {:induction false} DecidesBlockSequence(shape: Shape, cs: seq<Child>, close: seq<Kind>, r: seq<Kind>, i: nat)
    requires shape.BlockSequence? || shape.IndentlessSequence?
    requires ChildrenOk(shape, cs, close) && Behind(shape, r) && i <= |cs|
    ensures Decided(shape, cs, close, r, i)
  {
    TailIs(cs, close, r, i);
    if i < |cs| {
      assert ChildOk(shape, cs, i);
      TailLead(cs, close, r, i);
    }
    hide SyntaxOk, Tail, SyntaxKinds;
  }

  lemma {:induction false} DecidesBlockKey(cs: seq<Child>, close: seq<Kind>, r: seq<Kind>, i: nat)
    requires ChildrenOk(BlockMapping, cs, close) && i <= |cs| && !Odd(i)
    ensures Decided(BlockMapping, cs, close, r, i)
    ensures var t := Tail(cs, close, r, i); t != [] && (t[0].Key? || t[0].BlockEnd?)
  {
    TailIs(cs, close, r, i);
    if i < |cs| {
      BlockMappingLead(cs, close, i);
      TailLead(cs, close, r, i);
    }
    hide SyntaxOk, Tail, SyntaxKinds, ChildOk;
  }

  lemma {:induction false} DecidesBlockValue(cs: seq<Child>, close: seq<Kind>, r: seq<Kind>, i: nat)
    requires ChildrenOk(BlockMapping, cs, close) && i <= |cs| && Odd(i)
    ensures Decided(BlockMapping, cs, close, r, i)
    ensures var t := Tail(cs, close, r, i); t != [] && (t[0].Value? || t[0].Key? || t[0].BlockEnd?)
  {
    hide *;
    BlockMappingLead(cs, close, i);
    TailLead(cs, close, r, i);
    if cs[i].lead == [] {
      DecidesBlockKey(cs, close, r, i + 1);
      assert Tail(cs, close, r, i)[0..] == Tail(cs, close, r, i);
    }
    BlockValueDecided(cs, close, r, i);
  }

  lemma {:induction false} BlockValueDecided(cs: seq<Child>, close: seq<Kind>, r: seq<Kind>, i: nat)
    requires i < |cs| && Odd(i)
    requires var lead, t := cs[i].lead, Tail(cs, close, r, i);
      && |t| >= |lead| && t[..|lead|] == lead && (lead == [Value] || lead == [])
      && (lead == [] ==> t != [] && (t[0].Key? || t[0].BlockEnd?))
    ensures Decided(BlockMapping, cs, close, r, i)
    ensures var t := Tail(cs, close, r, i); t != [] && (t[0].Value? || t[0].Key? || t[0].BlockEnd?)
  {
    hide Tail;
    var t := Tail(cs, close, r, i);
    assert cs[i].lead == [Value] ==> t[0] == t[..1][0];
  }

  lemma {:induction false} BlockMappingLead(cs: seq<Child>, close: seq<Kind>, i: nat)
    requires ChildrenOk(BlockMapping, cs, close) && i <= |cs| && (Odd(i) || i < |cs|)
    ensures i < |cs|
    ensures if Odd(i) then !Odd(i + 1) && (cs[i].lead == [Value] || (cs[i].lead == [] && cs[i].node == NOTHING))
            else cs[i].lead == [Key]
  {
    hide SyntaxOk, Allowed;
    if Odd(i) {
      OddBelow(i, |cs|);
    }
    assert ChildOk(BlockMapping, cs, i);
  }

  lemma {:induction false} DecidesFlowSequence(cs: seq<Child>, close: seq<Kind>, r: seq<Kind>, i: nat)
    requires ChildrenOk(FlowSequence, cs, close) && i <= |cs|
    ensures Decided(FlowSequence, cs, close, r, i)
    ensures var t := Tail(cs, close, r, i); i > 0 ==> t != [] && (t[0].FlowEntry? || t[0].FlowSequenceEnd?)
  {
    hide *;
    TailIs(cs, close, r, i);
    FlowSequenceLead(cs, close, i);
    if i < |cs| {
      ChildFirst(FlowSequence, cs, close, r, i);
      FlowItemDecided(cs, close, r, i);
    } else {
      FlowItemsEnd(cs, close, r, i);
    }
  }

  lemma {:induction false} FlowSequenceLead(cs: seq<Child>, close: seq<Kind>, i: nat)
    requires ChildrenOk(FlowSequence, cs, close) && i <= |cs|
    ensures i < |cs| ==> cs[i].lead == Comma(i) && cs[i].node != NOTHING
    ensures close == [FlowSequenceEnd] || (close == [FlowEntry, FlowSequenceEnd] && cs != [])
    ensures !FlowSequence.BlockMapping?
  {
    hide SyntaxOk, Allowed, Comma;
    if i < |cs| {
      assert ChildOk(FlowSequence, cs, i);
    }
  }

  lemma {:induction false} FlowItemDecided(cs: seq<Child>, close: seq<Kind>, r: seq<Kind>, i: nat)
    requires i < |cs| && cs[i].lead == Comma(i)
    requires var lead, t := Comma(i), Tail(cs, close, r, i);
      |t| > |lead| && t[..|lead|] == lead && (StartsNode(t[|lead|]) || t[|lead|].Key?)
    ensures Decided(FlowSequence, cs, close, r, i)
    ensures var t := Tail(cs, close, r, i); i > 0 ==> t != [] && (t[0].FlowEntry? || t[0].FlowSequenceEnd?)
  {
    hide Tail;
    var lead, t := Comma(i), Tail(cs, close, r, i);
    if i > 0 {
      assert t[0] == t[..1][0];
    }
  }

  lemma {:induction false} FlowItemsEnd(cs: seq<Child>, close: seq<Kind>, r: seq<Kind>, i: nat)
    requires i == |cs| && Tail(cs, close, r, i) == close + r
    requires close == [FlowSequenceEnd] || close == [FlowEntry, FlowSequenceEnd]
    ensures Decided(FlowSequence, cs, close, r, i)
    ensures var t := Tail(cs, close, r, i); t != [] && (t[0].FlowEntry? || t[0].FlowSequenceEnd?)
  {
    hide Tail;
  }

  lemma {:induction false} DecidesFlowKey(cs: seq<Child>, close: seq<Kind>, r: seq<Kind>, i: nat)
    requires ChildrenOk(FlowMapping, cs, close) && i <= |cs| && !Odd(i)
    ensures Decided(FlowMapping, cs, close, r, i)
    ensures var t := Tail(cs, close, r, i); i > 0 ==> t != [] && (t[0].FlowEntry? || t[0].FlowMappingEnd?)
  {
    hide *;
    TailIs(cs, close, r, i);
    FlowKeyLead(cs, close, i);
    if i < |cs| {
      TailLead(cs, close, r, i);
      if cs[i].lead == Comma(i) {
        ChildFirst(FlowMapping, cs, close, r, i);
      }
      FlowKeyDecided(cs, close, r, i);
    } else {
      FlowEndDecided(cs, close, r, i);
    }
  }

  lemma {:induction false} FlowKeyLead(cs: seq<Child>, close: seq<Kind>, i: nat)
    requires ChildrenOk(FlowMapping, cs, close) && i <= |cs| && !Odd(i)
    ensures i < |cs| ==> cs[i].lead == Comma(i) + [Key] || (cs[i].lead == Comma(i) && cs[i].node != NOTHING)
    ensures close == [FlowMappingEnd] || (close == [FlowEntry, FlowMappingEnd] && cs != [])
    ensures !FlowMapping.BlockMapping? && !FlowMapping.FlowSequence?
  {
    hide SyntaxOk, Allowed, Comma;
    if i < |cs| {
      assert ChildOk(FlowMapping, cs, i);
    }
  }

  lemma {:induction false} FlowKeyDecided(cs: seq<Child>, close: seq<Kind>, r: seq<Kind>, i: nat)
    requires i < |cs| && !Odd(i)
    requires var lead, t := cs[i].lead, Tail(cs, close, r, i);
      && |t| >= |lead| && t[..|lead|] == lead
      && (lead == Comma(i) + [Key] || (lead == Comma(i) && |t| > |lead| && StartsNode(t[|lead|])))
    ensures Decided(FlowMapping, cs, close, r, i)
    ensures var t := Tail(cs, close, r, i); i > 0 ==> t != [] && (t[0].FlowEntry? || t[0].FlowMappingEnd?)
  {
    hide Tail;
    var lead, t := cs[i].lead, Tail(cs, close, r, i);
    if i > 0 {
      assert t[0] == lead[0];
    }
    if lead == Comma(i) + [Key] {
      assert t[|Comma(i)|] == lead[|Comma(i)|];
    }
  }

  lemma {:induction false} FlowEndDecided(cs: seq<Child>, close: seq<Kind>, r: seq<Kind>, i: nat)
    requires i == |cs| && !Odd(i) && Tail(cs, close, r, i) == close + r
    requires close == [FlowMappingEnd] || close == [FlowEntry, FlowMappingEnd]
    ensures Decided(FlowMapping, cs, close, r, i)
    ensures var t := Tail(cs, close, r, i); t != [] && (t[0].FlowEntry? || t[0].FlowMappingEnd?)
  {
    hide Tail;
  }

  lemma {:induction false} DecidesFlowValue(cs: seq<Child>, close: seq<Kind>, r: seq<Kind>, i: nat)
    requires ChildrenOk(FlowMapping, cs, close) && i <= |cs| && Odd(i)
    ensures Decided(FlowMapping, cs, close, r, i)
    ensures var t := Tail(cs, close, r, i); t != [] && (t[0].Value? || t[0].FlowEntry? || t[0].FlowMappingEnd?)
  {
    hide *;
    FlowValueLead(cs, close, i);
    TailLead(cs, close, r, i);
    if cs[i].lead == [] {
      DecidesFlowKey(cs, close, r, i + 1);
      assert Tail(cs, close, r, i)[0..] == Tail(cs, close, r, i);
    }
    FlowValueDecided(cs, close, r, i);
  }

  lemma {:induction false} FlowValueLead(cs: seq<Child>, close: seq<Kind>, i: nat)
    requires ChildrenOk(FlowMapping, cs, close) && i <= |cs| && Odd(i)
    ensures i < |cs| && (cs[i].lead == [Value] || (cs[i].lead == [] && cs[i].node == NOTHING)) && !Odd(i + 1)
  {
    hide SyntaxOk, Allowed;
    OddBelow(i, |cs|);
    FlowValueChild(cs, i);
  }

  lemma {:induction false} OddBelow(i: nat, n: nat)
    requires Odd(i) && i <= n && n % 2 == 0
    ensures i < n && !Odd(i + 1)
  {
  }

  lemma {:induction false} FlowValueChild(cs: seq<Child>, i: nat)
    requires i < |cs| && Odd(i) && ChildOk(FlowMapping, cs, i)
    ensures cs[i].lead == [Value] || (cs[i].lead == [] && cs[i].node == NOTHING)
  {
    hide Allowed;
  }

  lemma {:induction false} FlowValueDecided(cs: seq<Child>, close: seq<Kind>, r: seq<Kind>, i: nat)
    requires i < |cs| && Odd(i)
    requires var lead, t := cs[i].lead, Tail(cs, close, r, i);
      && |t| >= |lead| && t[..|lead|] == lead && (lead == [Value] || lead == [])
      && (lead == [] ==> t != [] && (t[0].FlowEntry? || t[0].FlowMappingEnd?))
    ensures Decided(FlowMapping, cs, close, r, i)
    ensures var t := Tail(cs, close, r, i); t != [] && (t[0].Value? || t[0].FlowEntry? || t[0].FlowMappingEnd?)
  {
    hide Tail;
    var t := Tail(cs, close, r, i);
    assert cs[i].lead == [Value] ==> t[0] == t[..1][0];
  }

  lemma {:induction false} DecidesPairKey(cs: seq<Child>, close: seq<Kind>, r: seq<Kind>)
    requires ChildrenOk(FlowPair, cs, close)
    ensures Decided(FlowPair, cs, close, r, 0)
  {
    assert ChildOk(FlowPair, cs, 0);
    TailLead(cs, close, r, 0);
    if cs[0].lead == [Key] {
      ChildFirst(FlowPair, cs, close, r, 0);
    }
    hide SyntaxOk, Tail, SyntaxKinds, Allowed;
  }

  lemma {:induction false} DecidesPairValue(cs: seq<Child>, close: seq<Kind>, r: seq<Kind>)
    requires ChildrenOk(FlowPair, cs, close) && Behind(FlowPair, r)
    ensures Decided(FlowPair, cs, close, r, 1)
    ensures var t := Tail(cs, close, r, 1); t != [] ==> !StartsNode(t[0])
  {
    assert ChildOk(FlowPair, cs, 1);
    TailLead(cs, close, r, 1);
    DecidesPairEnd(cs, close, r);
    hide SyntaxOk, Tail, SyntaxKinds, Allowed;
  }

  lemma {:induction false} DecidesPairEnd(cs: seq<Child>, close: seq<Kind>, r: seq<Kind>)
    requires ChildrenOk(FlowPair, cs, close)
    ensures Decided(FlowPair, cs, close, r, 2) && Tail(cs, close, r, 2) == r
  {
    TailIs(cs, close, r, 2);
    hide SyntaxOk, Tail, SyntaxKinds, ChildOk;
  }

  lemma {:induction false} DecidesFlowPair(cs: seq<Child>, close: seq<Kind>, r: seq<Kind>, i: nat)
    requires ChildrenOk(FlowPair, cs, close) && Behind(FlowPair, r) && i <= |cs|
    ensures Decided(FlowPair, cs, close, r, i)
    ensures var t := Tail(cs, close, r, i); i > 0 && t != [] ==> !StartsNode(t[0])
  {
    hide Decided, Tail, ChildOk, SyntaxOk, StartsNode;
    if i == 0 {
      DecidesPairKey(cs, close, r);
    } else if i == 1 {
      DecidesPairValue(cs, close, r);
    } else {
      assert i == 2;
      DecidesPairEnd(cs, close, r);
    }
  }

  /** Whether there is another child, how it begins, and how the collection ends, can be
      seen from the tokens. */
  lemma {:induction false} Decides(shape: Shape, cs: seq<Child>, close: seq<Kind>, r: seq<Kind>, i: nat)
    requires ChildrenOk(shape, cs, close) && Behind(shape, r) && i <= |cs|
    ensures Decided(shape, cs, close, r, i)
    ensures i > 0 ==> After(PlaceIn(shape), Tail(cs, close, r, i))
  {
    hide Decided, ChildrenOk, Tail;
    match shape
    case BlockSequence =>
      DecidesBlockSequence(shape, cs, close, r, i);
      BlockSequenceAfter(shape, cs, close, r, i);
    case IndentlessSequence =>
      DecidesBlockSequence(shape, cs, close, r, i);
      BlockSequenceAfter(shape, cs, close, r, i);
    case BlockMapping =>
      if Odd(i) {
        DecidesBlockValue(cs, close, r, i);
      } else {
        DecidesBlockKey(cs, close, r, i);
      }
    case FlowSequence => DecidesFlowSequence(cs, close, r, i);
    case FlowMapping =>
      if Odd(i) {
        DecidesFlowValue(cs, close, r, i);
      } else {
        DecidesFlowKey(cs, close, r, i);
      }
    case FlowPair => DecidesFlowPair(cs, close, r, i);
  }

  lemma {:induction false} BlockSequenceAfter(shape: Shape, cs: seq<Child>, close: seq<Kind>, r: seq<Kind>, i: nat)
    requires shape.BlockSequence? || shape.IndentlessSequence?
    requires ChildrenOk(shape, cs, close) && Behind(shape, r) && i <= |cs|
    ensures After(PlaceIn(shape), Tail(cs, close, r, i))
  {
    TailIs(cs, close, r, i);
    if i < |cs| {
      assert ChildOk(shape, cs, i);
      TailLead(cs, close, r, i);
    }
    hide SyntaxOk, Tail, SyntaxKinds;
  }

  // ---------------------------------------------------------------------
  // One derivation
  // ---------------------------------------------------------------------

  /** Of two ways to cut a sequence. */
  lemma {:induction false} FirstBehind(p: seq<Kind>, x: seq<Kind>, q: seq<Kind>, y: seq<Kind>)
    requires p + x == q + y && |p| < |q|
    ensures x != [] && x[0] == q[|p|]
  {
    assert |p + x| == |q + y|;
    assert (p + x)[|p|] == (q + y)[|p|];
  }

  lemma {:induction false} SameCut(p: seq<Kind>, x: seq<Kind>, q: seq<Kind>, y: seq<Kind>)
    requires p + x == q + y && |p| == |q|
    ensures p == q && x == y
  {
    assert p == (p + x)[..|p|] && x == (p + x)[|p|..] && q == (q + y)[..|q|] && y == (q + y)[|q|..];
  }

  lemma {:induction false} PropertiesUnique(p: seq<Kind>, x: seq<Kind>, q: seq<Kind>, y: seq<Kind>)
    requires IsProperties(p) && IsProperties(q) && p + x == q + y
    requires (x != [] ==> !IsProperty(x[0])) && (y != [] ==> !IsProperty(y[0]))
    ensures p == q && x == y
  {
    if |p| < |q| {
      FirstBehind(p, x, q, y);
    } else if |q| < |p| {
      FirstBehind(q, y, p, x);
    }
    SameCut(p, x, q, y);
  }

  /** The properties of a node, and what is behind them. */
  function Props(n: Syntax): seq<Kind> {
    match n
    case Single(ks) => if ks != [] && (ks[|ks| - 1].AliasToken? || ks[|ks| - 1].ScalarToken?) then ks[..|ks| - 1] else ks
    case Compound(_, props, _, _) => props
  }

  function Body(n: Syntax): seq<Kind> {
    match n
    case Single(ks) => ks[|Props(n)|..]
    case Compound(_, _, _, _) => Rest(n)
  }

  /** The first token behind the properties tells what kind of node it is. */
  ghost predicate BodyOk(n: Syntax, place: Place) {
    var b := Body(n);
    if b == [] then n == Single(Props(n))
    else if b[0].AliasToken? || b[0].ScalarToken? then |b| == 1 && n == Single(Props(n) + b)
    else n.Compound? && Tells(b[0], n.shape) && AllowedShape(n.shape, place)
  }

  lemma {:induction false} BodyIs(n: Syntax, place: Place)
    requires SyntaxOk(n) && Allowed(n, place)
    ensures SyntaxKinds(n) == Props(n) + Body(n) && IsProperties(Props(n)) && BodyOk(n, place)
    ensures Body(n) != [] ==> !IsProperty(Body(n)[0])
  {
    hide *;
    match n
    case Single(ks) => SingleBody(ks, place);
    case Compound(_, _, _, _) =>
      CompoundIs(n);
      RestTells(n);
      CompoundBody(n, place);
  }

  lemma {:induction false} SingleBody(ks: seq<Kind>, place: Place)
    requires SyntaxOk(Single(ks))
    ensures var n := Single(ks);
      && SyntaxKinds(n) == Props(n) + Body(n) && IsProperties(Props(n)) && BodyOk(n, place)
      && (Body(n) != [] ==> !IsProperty(Body(n)[0]))
  {
    hide *;
    if ks != [] && (ks[|ks| - 1].AliasToken? || ks[|ks| - 1].ScalarToken?) {
      ContentLast(ks, place);
    } else {
      PropertiesOnly(ks, place);
    }
  }

  lemma {:induction false} ContentLast(ks: seq<Kind>, place: Place)
    requires SyntaxOk(Single(ks)) && ks != [] && (ks[|ks| - 1].AliasToken? || ks[|ks| - 1].ScalarToken?)
    ensures var n := Single(ks);
      SyntaxKinds(n) == Props(n) + Body(n) && IsProperties(Props(n)) && BodyOk(n, place) && Body(n) != [] && !IsProperty(Body(n)[0])
  {
    var n, m := Single(ks), |ks| - 1;
    assert ks == ks[..m] + [ks[m]];
    if ks[m].AliasToken? {
      assert |ks| == 1;
    }
    assert Props(n) == ks[..m] && Body(n) == [ks[m]];
  }

  lemma {:induction false} PropertiesOnly(ks: seq<Kind>, place: Place)
    requires SyntaxOk(Single(ks)) && (ks == [] || !(ks[|ks| - 1].AliasToken? || ks[|ks| - 1].ScalarToken?))
    ensures var n := Single(ks);
      SyntaxKinds(n) == Props(n) + Body(n) && IsProperties(Props(n)) && BodyOk(n, place) && Body(n) == []
  {
    var n := Single(ks);
    assert Props(n) == ks && Body(n) == ks[|ks|..] == [];
    assert ks + [] == ks;
  }

  lemma {:induction false} CompoundBody(n: Syntax, place: Place)
    requires n.Compound? && SyntaxOk(n) && Allowed(n, place) && SyntaxKinds(n) == n.props + Rest(n)
    requires Rest(n) != [] && Tells(Rest(n)[0], n.shape)
    ensures SyntaxKinds(n) == Props(n) + Body(n) && IsProperties(Props(n)) && BodyOk(n, place)
    ensures Body(n) != [] && !IsProperty(Body(n)[0])
  {
    hide Rest, SyntaxKinds, AllowedShape, IsProperties, CloseOk, ChildOk;
  }

  /** Two nodes with the same tokens, whatever comes behind them, have the same properties
      and the same rest, and are of the same kind. */
  lemma {:induction false} SameKind(a: Syntax, r: seq<Kind>, b: Syntax, s: seq<Kind>, place: Place)
    requires SyntaxOk(a) && SyntaxOk(b) && Allowed(a, place) && Allowed(b, place) && After(place, r) && After(place, s)
    requires SyntaxKinds(a) + r == SyntaxKinds(b) + s
    ensures Props(a) == Props(b) && Body(a) + r == Body(b) + s
    ensures a.Compound? <==> b.Compound?
    ensures if a.Compound? then a.shape == b.shape else a == b && r == s
  {
    hide *;
    BodyIs(a, place);
    BodyIs(b, place);
    BodyAfter(a, r, place);
    BodyAfter(b, s, place);
    assert Props(a) + (Body(a) + r) == Props(a) + Body(a) + r && Props(b) + (Body(b) + s) == Props(b) + Body(b) + s;
    PropertiesUnique(Props(a), Body(a) + r, Props(b), Body(b) + s);
    SameBody(a, r, b, s, place);
  }

  lemma {:induction false} BodyAfter(n: Syntax, r: seq<Kind>, place: Place)
    requires (Body(n) != [] ==> !IsProperty(Body(n)[0])) && After(place, r)
    ensures var x := Body(n) + r; x != [] ==> !IsProperty(x[0])
  {
    hide Body;
  }

  lemma {:induction false} SameBody(a: Syntax, r: seq<Kind>, b: Syntax, s: seq<Kind>, place: Place)
    requires BodyOk(a, place) && BodyOk(b, place) && Props(a) == Props(b) && After(place, r) && After(place, s)
    requires Body(a) + r == Body(b) + s
    ensures a.Compound? <==> b.Compound?
    ensures if a.Compound? then a.shape == b.shape else a == b && r == s
  {
    hide Props, Body;
    var x := Body(a) + r;
    if Body(a) == [] || Body(b) == [] {
      NoBody(a, r, b, s, place);
    } else {
      assert x[0] == Body(a)[0] == Body(b)[0];
      if x[0].AliasToken? || x[0].ScalarToken? {
        assert Body(a) == [x[0]] == Body(b);
        assert r == x[1..] == s;
      }
    }
  }

  lemma {:induction false} NoBody(a: Syntax, r: seq<Kind>, b: Syntax, s: seq<Kind>, place: Place)
    requires BodyOk(a, place) && BodyOk(b, place) && Props(a) == Props(b) && After(place, r) && After(place, s)
    requires Body(a) + r == Body(b) + s && (Body(a) == [] || Body(b) == [])
    ensures a == b && r == s
  {
    hide Props, Body;
    assert [] + r == r && [] + s == s;
    if Body(a) != [] {
      FirstBehind([], s, Body(a), r);
    } else if Body(b) != [] {
      FirstBehind([], r, Body(b), s);
    }
  }

  /** A node is given by its tokens, whatever comes behind it. */
  lemma {:induction false} NodeUnique(a: Syntax, r: seq<Kind>, b: Syntax, s: seq<Kind>, place: Place)
    requires SyntaxOk(a) && SyntaxOk(b) && Allowed(a, place) && Allowed(b, place) && After(place, r) && After(place, s)
    requires SyntaxKinds(a) + r == SyntaxKinds(b) + s
    ensures a == b && r == s
    decreases a, 0
  {
    SameKind(a, r, b, s, place);
    if a.Compound? {
      CompoundParts(a, r, place);
      CompoundParts(b, s, place);
      hide SyntaxOk, Allowed, After, SyntaxKinds, Rest, Props, Body, Behind, ChildrenOk, Tail;
      SameCut(Opening(a.shape), Tail(a.children, a.close, r, 0), Opening(a.shape), Tail(b.children, b.close, s, 0));
      ChildrenUnique(a.shape, a.children, a.close, r, b.children, b.close, s, 0);
    }
  }

  lemma {:induction false} CompoundParts(n: Syntax, r: seq<Kind>, place: Place)
    requires SyntaxOk(n) && n.Compound? && Allowed(n, place) && After(place, r)
    ensures Behind(n.shape, r) && ChildrenOk(n.shape, n.children, n.close)
    ensures Props(n) == n.props && Body(n) + r == Opening(n.shape) + Tail(n.children, n.close, r, 0)
  {
    hide SyntaxKinds, RestKinds;
  }

  /** The same for the children of a collection from one on. */
  lemma {:induction false} ChildrenUnique(shape: Shape, a: seq<Child>, ca: seq<Kind>, r: seq<Kind>, b: seq<Child>, cb: seq<Kind>,
                                          s: seq<Kind>, i: nat)
    requires ChildrenOk(shape, a, ca) && ChildrenOk(shape, b, cb) && Behind(shape, r) && Behind(shape, s)
    requires i <= |a| && i <= |b| && a[..i] == b[..i] && Tail(a, ca, r, i) == Tail(b, cb, s, i)
    ensures a == b && ca == cb && r == s
    decreases a, 1, |a| - i
  {
    hide *;
    SameStep(shape, a, ca, r, b, cb, s, i);
    if i == |a| {
      assert a == a[..i] && b == b[..i];
    } else {
      var x, y := Tail(a, ca, r, i + 1), Tail(b, cb, s, i + 1);
      ChildSyntax(shape, a, ca, i);
      ChildSyntax(shape, b, cb, i);
      Decides(shape, a, ca, r, i + 1);
      Decides(shape, b, cb, s, i + 1);
      NodeUnique(a[i].node, x, b[i].node, y, PlaceIn(shape));
      assert a[..i + 1] == a[..i] + [a[i]] && b[..i + 1] == b[..i] + [b[i]];
      ChildrenUnique(shape, a, ca, r, b, cb, s, i + 1);
    }
  }

  /** The next child begins in the same way, or there is none in both. */
  lemma {:induction false} SameStep(shape: Shape, a: seq<Child>, ca: seq<Kind>, r: seq<Kind>, b: seq<Child>, cb: seq<Kind>,
                                    s: seq<Kind>, i: nat)
    requires ChildrenOk(shape, a, ca) && ChildrenOk(shape, b, cb) && Behind(shape, r) && Behind(shape, s)
    requires i <= |a| && i <= |b| && Tail(a, ca, r, i) == Tail(b, cb, s, i)
    ensures i == |a| <==> i == |b|
    ensures i == |a| ==> ca == cb && r == s
    ensures i < |a| ==>
              && a[i].lead == b[i].lead
              && SyntaxKinds(a[i].node) + Tail(a, ca, r, i + 1) == SyntaxKinds(b[i].node) + Tail(b, cb, s, i + 1)
  {
    Decides(shape, a, ca, r, i);
    Decides(shape, b, cb, s, i);
    TailIs(a, ca, r, i);
    TailIs(b, cb, s, i);
    hide ChildrenOk, Behind, Tail, Goes, LeadOf, CloseOf, SyntaxKinds;
    if i == |a| {
      SameCut(ca, r, cb, s);
    } else {
      SameCut(a[i].lead, SyntaxKinds(a[i].node) + Tail(a, ca, r, i + 1), b[i].lead, SyntaxKinds(b[i].node) + Tail(b, cb, s, i + 1));
    }
  }

  lemma {:induction false} ChildSyntax(shape: Shape, cs: seq<Child>, close: seq<Kind>, i: nat)
    requires ChildrenOk(shape, cs, close) && i < |cs|
    ensures SyntaxOk(cs[i].node) && Allowed(cs[i].node, PlaceIn(shape))
  {
    hide SyntaxOk;
    assert ChildOk(shape, cs, i);
    ChildPlace(shape, cs, i);
  }

  // ---------------------------------------------------------------------
  // Documents
  // ---------------------------------------------------------------------

  /** The tokens of the documents from one on, and the end of the stream. */
  function DocsFrom(docs: seq<Doc>, i: nat): seq<Kind>
    requires i <= |docs|
    decreases |docs| - i
  {
    if i == |docs| then [StreamEndToken]
    else docs[i].heads + (SyntaxKinds(docs[i].root) + (Ends(docs[i].ends) + DocsFrom(docs, i + 1)))
  }

  lemma {:induction false} DocsFromIs(docs: seq<Doc>, i: nat)
    requires i <= |docs|
    ensures DocsKinds(docs) + [StreamEndToken] == DocsKinds(docs[..i]) + DocsFrom(docs, i)
    decreases |docs| - i
  {
    hide SyntaxKinds, Ends;
    if i == |docs| {
      assert docs[..i] == docs;
    } else {
      DocsFromIs(docs, i + 1);
      var d := docs[i];
      assert docs[..i + 1][..i] == docs[..i];
      var a, b, c, e, f := DocsKinds(docs[..i]), d.heads, SyntaxKinds(d.root), Ends(d.ends), DocsFrom(docs, i + 1);
      assert a + (b + c + e) + f == a + (b + (c + (e + f)));
    }
  }

  /** Directives and document indicators come between documents. */
  predicate Heads(k: Kind) {
    IsDirective(k) || k.DocumentStartToken?
  }

  lemma {:induction false} DocsFirst(docs: seq<Doc>, i: nat)
    requires DocsOk(docs) && i <= |docs|
    ensures var t := DocsFrom(docs, i);
      && t != [] && (if i == |docs| then t[0].StreamEndToken? else Heads(t[0]) || (i == 0 && StartsNode(t[0])))
      && (i < |docs| ==> (docs[i].heads == [] <==> StartsNode(t[0])))
  {
    hide SyntaxOk, SyntaxKinds;
    if i < |docs| {
      assert DocOk(docs[i], i == 0);
      if docs[i].heads == [] {
        NodeFirst(docs[i].root, InBlock);
      }
    }
  }

  lemma {:induction false} HeadsUnique(h: seq<Kind>, x: seq<Kind>, g: seq<Kind>, y: seq<Kind>)
    requires HeadsOk(h) && HeadsOk(g) && h != [] && g != [] && h + x == g + y
    ensures h == g && x == y
  {
    if |h| < |g| {
      HeadsLonger(h, x, g, y);
    } else if |g| < |h| {
      HeadsLonger(g, y, h, x);
    }
    SameCut(h, x, g, y);
  }

  /** The first DOCUMENT-START is where the heads end. */
  lemma {:induction false} HeadsLonger(h: seq<Kind>, x: seq<Kind>, g: seq<Kind>, y: seq<Kind>)
    requires HeadsOk(h) && h != [] && h + x == g + y && |h| < |g|
    ensures g[|h| - 1].DocumentStartToken?
  {
    assert (h + x)[|h| - 1] == (g + y)[|h| - 1];
  }

  lemma {:induction false} EndsUnique(m: nat, x: seq<Kind>, n: nat, y: seq<Kind>)
    requires Ends(m) + x == Ends(n) + y
    requires x != [] && y != [] && !x[0].DocumentEndToken? && !y[0].DocumentEndToken?
    ensures m == n && x == y
  {
    if m < n {
      FirstBehind(Ends(m), x, Ends(n), y);
    } else if n < m {
      FirstBehind(Ends(n), y, Ends(m), x);
    }
    SameCut(Ends(m), x, Ends(n), y);
  }

  lemma {:induction false} DocUnique(a: Doc, x: seq<Kind>, b: Doc, y: seq<Kind>, first: bool)
    requires DocOk(a, first) && DocOk(b, first) && (a.heads == [] <==> b.heads == [])
    requires x != [] && y != [] && (Heads(x[0]) || x[0].StreamEndToken?) && (Heads(y[0]) || y[0].StreamEndToken?)
    requires a.heads + (SyntaxKinds(a.root) + (Ends(a.ends) + x)) == b.heads + (SyntaxKinds(b.root) + (Ends(b.ends) + y))
    ensures a == b && x == y
  {
    EndsAfter(a.ends, x);
    EndsAfter(b.ends, y);
    hide SyntaxKinds, SyntaxOk, Ends, HeadsOk;
    var p, q := SyntaxKinds(a.root) + (Ends(a.ends) + x), SyntaxKinds(b.root) + (Ends(b.ends) + y);
    if a.heads == [] {
      assert [] + p == p && [] + q == q;
    } else {
      HeadsUnique(a.heads, p, b.heads, q);
    }
    NodeUnique(a.root, Ends(a.ends) + x, b.root, Ends(b.ends) + y, InBlock);
    EndsUnique(a.ends, x, b.ends, y);
  }

  lemma {:induction false} EndsAfter(n: nat, x: seq<Kind>)
    requires x != [] && (Heads(x[0]) || x[0].StreamEndToken?)
    ensures After(InBlock, Ends(n) + x)
  {
    assert n == 0 ==> Ends(n) == [];
  }

  lemma {:induction false} DocsUnique(a: seq<Doc>, b: seq<Doc>, i: nat)
    requires DocsOk(a) && DocsOk(b) && i <= |a| && i <= |b| && a[..i] == b[..i] && DocsFrom(a, i) == DocsFrom(b, i)
    ensures a == b
    decreases |a| - i
  {
    hide *;
    DocsStep(a, b, i);
    if i == |a| {
      assert a == a[..i] && b == b[..i];
    } else {
      assert a[..i + 1] == a[..i] + [a[i]] && b[..i + 1] == b[..i] + [b[i]];
      DocsUnique(a, b, i + 1);
    }
  }

  /** The next document is the same, or there is none in both. */
  lemma {:induction false} DocsStep(a: seq<Doc>, b: seq<Doc>, i: nat)
    requires DocsOk(a) && DocsOk(b) && i <= |a| && i <= |b| && DocsFrom(a, i) == DocsFrom(b, i)
    ensures i == |a| <==> i == |b|
    ensures i < |a| ==> a[i] == b[i] && DocsFrom(a, i + 1) == DocsFrom(b, i + 1)
  {
    hide *;
    DocsAlike(a, b, i);
    if i < |a| {
      DocsRest(a, i);
      DocsRest(b, i);
      DocUnique(a[i], DocsFrom(a, i + 1), b[i], DocsFrom(b, i + 1), i == 0);
    }
  }

  lemma {:induction false} DocsAlike(a: seq<Doc>, b: seq<Doc>, i: nat)
    requires DocsOk(a) && DocsOk(b) && i <= |a| && i <= |b| && DocsFrom(a, i) == DocsFrom(b, i)
    ensures i == |a| <==> i == |b|
    ensures i < |a| ==> (a[i].heads == [] <==> b[i].heads == [])
  {
    DocsFirst(a, i);
    DocsFirst(b, i);
    hide DocsFrom, DocsOk;
  }

  lemma {:induction false} DocsRest(docs: seq<Doc>, i: nat)
    requires DocsOk(docs) && i < |docs|
    ensures DocOk(docs[i], i == 0)
    ensures DocsFrom(docs, i) == docs[i].heads + (SyntaxKinds(docs[i].root) + (Ends(docs[i].ends) + DocsFrom(docs, i + 1)))
    ensures var t := DocsFrom(docs, i + 1); t != [] && (Heads(t[0]) || t[0].StreamEndToken?)
  {
    DocsFirst(docs, i + 1);
    hide SyntaxKinds, SyntaxOk, HeadsOk;
  }

  /** The tokens of a stream have one derivation by the grammar, so that what they stand
      for is given by them. */
  lemma {:induction false} Unambiguous(a: seq<Doc>, b: seq<Doc>)
    requires DocsOk(a) && DocsOk(b) && StreamKinds(a) == StreamKinds(b)
    ensures a == b && StreamEvents(a) == StreamEvents(b)
  {
    hide DocsOk, DocsKinds, DocsFrom, StreamEvents;
    DocsFromIs(a, 0);
    DocsFromIs(b, 0);
    NoDocs();
    assert a[..0] == [] == b[..0];
    assert StreamKinds(a) == [StreamStartToken] + (DocsKinds(a) + [StreamEndToken]);
    assert StreamKinds(b) == [StreamStartToken] + (DocsKinds(b) + [StreamEndToken]);
    SameCut([StreamStartToken], DocsKinds(a) + [StreamEndToken], [StreamStartToken], DocsKinds(b) + [StreamEndToken]);
    SameCut([], DocsFrom(a, 0), [], DocsFrom(b, 0));
    DocsUnique(a, b, 0);
  }

  lemma {:induction false} NoDocs()
    ensures DocsKinds([]) == []
  {
  }
}
