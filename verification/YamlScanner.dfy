/** The token queue of the YAML scanner (scanner.c): simple keys, which put a KEY
    token before tokens that are in the queue already, flow levels and indentation. */
module YamlScanner {
  import G = YamlGrammar
  import E = YamlEvents
  import opened CStrings
  import opened Options

  type Kind = G.Kind

  datatype Position = Position(index: nat, line: nat, column: nat)

  predicate Before(a: Position, b: Position) {
    a.line < b.line || (a.line == b.line && a.column < b.column)
  }

  predicate NotAfter(a: Position, b: Position) {
    Before(a, b) || (a.line == b.line && a.column == b.column)
  }

  datatype Token = Token(kind: Kind, mark: Position)

  /** yaml_simple_key_t */
  datatype SimpleKey = SimpleKey(possible: bool, required: bool, number: nat, mark: Position)

  /** What the text has next, as the dispatcher tells it apart. */
  datatype What =
    | EndOfStream
    | VersionLine(major: int, minor: int)
    | TagLine(directive: E.TagDirective)
    | DocumentIndicator(begins: bool)
    | FlowStart(mapping: bool)
    | FlowEnd(mapping: bool)
    | FlowEntryMark
    | BlockEntryMark
    | KeyMark
    | ValueMark
    | Content(c: Content)      // can be a simple key
    | BlockScalar(literal: bool, text: seq<byte>)
    | Unknown

  /** An anchor, an alias, a tag, or a quoted or plain scalar. */
  type Content = k: Kind | k.AnchorToken? || k.AliasToken? || k.Tag? || k.ScalarToken?
    witness G.ScalarToken([], E.Plain)

  /** A piece of the text: where it starts and ends, whether it can be scanned, and
      whether the scan of a plain scalar goes on to the beginning of another line. */
  datatype Lexeme = Lexeme(what: What, start: Position, end: Position, ok: bool, breakAfter: bool)

  /** The pieces come one after the other. */
  ghost predicate InOrder(lexemes: seq<Lexeme>) {
    forall i :: 0 <= i < |lexemes| ==> Placed(lexemes, i)
  }

  ghost predicate Placed(lexemes: seq<Lexeme>, i: nat)
    requires i < |lexemes|
  {
    && (lexemes[i].what.EndOfStream? || Before(lexemes[i].start, lexemes[i].end))
    && (i + 1 < |lexemes| ==> NotAfter(lexemes[i].end, lexemes[i + 1].start))
  }

  predicate Indicator(w: What) {
    !w.EndOfStream? && !w.Content? && !w.BlockScalar? && !w.Unknown?
  }

  /** A key that cannot be given up. */
  predicate Needed(k: SimpleKey) {
    k.possible && k.required
  }

  /** Whether a piece may stand where keys are allowed or not and the key of the level is `key`. */
  predicate Fine(w: What, scanned: bool, allowed: bool, key: SimpleKey, inFlow: bool) {
    match w
    case EndOfStream => !Needed(key)
    case VersionLine(_, _) => !Needed(key) && scanned
    case TagLine(_) => !Needed(key) && scanned
    case DocumentIndicator(_) => !Needed(key)
    case FlowStart(_) => !(allowed && Needed(key))
    case FlowEnd(_) => !Needed(key)
    case FlowEntryMark => !Needed(key)
    case BlockEntryMark => (inFlow || allowed) && !Needed(key)
    case KeyMark => (inFlow || allowed) && !Needed(key)
    case ValueMark => key.possible || inFlow || allowed
    case Content(_) => !(allowed && Needed(key)) && scanned
    case BlockScalar(_, _) => !Needed(key) && scanned
    case Unknown => false
  }

  predicate StartsKey(k: Kind) {
    k.AnchorToken? || k.AliasToken? || k.Tag? || k.ScalarToken? || k.FlowSequenceStart? || k.FlowMappingStart?
  }

  /** The key has its token in the queue. */
  ghost predicate KeyOk(k: SimpleKey, parsed: nat, queue: seq<Token>) {
    && parsed <= k.number < parsed + |queue|
    && StartsKey(queue[k.number - parsed].kind) && queue[k.number - parsed].mark == k.mark
  }

  /** The keys have their tokens, and deeper ones further behind. */
  ghost predicate KeysOk(keys: seq<SimpleKey>, parsed: nat, queue: seq<Token>) {
    && (forall i :: 0 <= i < |keys| && keys[i].possible ==> KeyOk(keys[i], parsed, queue))
    && Increasing(keys)
  }

  ghost predicate Increasing(keys: seq<SimpleKey>) {
    forall i, j :: 0 <= i < j < |keys| && keys[i].possible && keys[j].possible ==> keys[i].number < keys[j].number
  }

  function Without(keys: seq<SimpleKey>, p: nat): (r: seq<SimpleKey>)
    requires p < |keys|
    ensures |r| == |keys| && !r[p].possible && forall i :: 0 <= i < |keys| && i != p ==> r[i] == keys[i]
  {
    keys[p := keys[p].(possible := false)]
  }

  /** The key at `p` may be waiting for the next token, at `mark`. */
  ghost predicate Waiting(keys: seq<SimpleKey>, parsed: nat, queue: seq<Token>, p: nat, mark: Position) {
    && p < |keys| && KeysOk(Without(keys, p), parsed, queue) && Increasing(keys)
    && (keys[p].possible && !KeyOk(keys[p], parsed, queue) ==> keys[p].number == parsed + |queue| && keys[p].mark == mark)
  }

  lemma {:induction false} KeysAppend(keys: seq<SimpleKey>, parsed: nat, queue: seq<Token>, t: Token)
    requires KeysOk(keys, parsed, queue)
    ensures KeysOk(keys, parsed, queue + [t])
  {
  }

  /** The next token comes: the key that waits for it has it. */
  lemma {:induction false} KeysArrive(keys: seq<SimpleKey>, parsed: nat, queue: seq<Token>, p: nat, t: Token)
    requires Waiting(keys, parsed, queue, p, t.mark) && StartsKey(t.kind)
    ensures KeysOk(keys, parsed, queue + [t])
  {
    forall i | 0 <= i < |keys| && keys[i].possible
      ensures KeyOk(keys[i], parsed, queue + [t])
    {
      if i != p {
        assert KeyOk(Without(keys, p)[i], parsed, queue);
      }
    }
  }

  /** A deeper level begins: its key is not there yet. */
  lemma {:induction false} WaitingDeeper(keys: seq<SimpleKey>, k: SimpleKey, parsed: nat, queue: seq<Token>, p: nat, mark: Position)
    requires Waiting(keys, parsed, queue, p, mark) && !k.possible
    ensures Waiting(keys + [k], parsed, queue, p, mark)
  {
    assert forall i :: 0 <= i < |keys| ==> Without(keys + [k], p)[i] == Without(keys, p)[i];
  }

  /** A key is saved that no other one is further than. */
  lemma {:induction false} KeysSave(keys: seq<SimpleKey>, k: SimpleKey, parsed: nat, queue: seq<Token>)
    requires KeysOk(keys, parsed, queue) && keys != []
    requires k.possible ==> k.number == parsed + |queue|
    ensures Waiting(keys[|keys| - 1 := k], parsed, queue, |keys| - 1, k.mark)
  {
    var n := |keys| - 1;
    KeysLess(keys, Without(keys[n := k], n), parsed, queue);
    forall i | 0 <= i < n && keys[i].possible
      ensures keys[i].number < parsed + |queue|
    {
      assert KeyOk(keys[i], parsed, queue);
    }
  }

  /** Removing keys does no harm. */
  lemma {:induction false} KeysLess(keys: seq<SimpleKey>, keys': seq<SimpleKey>, parsed: nat, queue: seq<Token>)
    requires KeysOk(keys, parsed, queue) && |keys'| <= |keys|
    requires forall i :: 0 <= i < |keys'| && keys'[i].possible ==> keys'[i] == keys[i]
    ensures KeysOk(keys', parsed, queue)
  {
    forall i | 0 <= i < |keys'| && keys'[i].possible
      ensures KeyOk(keys'[i], parsed, queue)
    {
      assert KeyOk(keys[i], parsed, queue);
    }
  }

  /** Tokens go in before that of the deepest key, which is used up: every other key
      keeps its token, where it was. */
  lemma {:induction false} KeysInsert(keys: seq<SimpleKey>, parsed: nat, queue: seq<Token>, more: seq<Token>)
    requires KeysOk(keys, parsed, queue) && keys != [] && keys[|keys| - 1].possible
    ensures KeyOk(keys[|keys| - 1], parsed, queue)
    ensures var k := keys[|keys| - 1].number - parsed;
            KeysOk(Without(keys, |keys| - 1), parsed, queue[..k] + more + queue[k..])
  {
    var n := |keys| - 1;
    assert KeyOk(keys[n], parsed, queue);
    var k := keys[n].number - parsed;
    var queue' := queue[..k] + more + queue[k..];
    forall i | 0 <= i < n && keys[i].possible
      ensures KeyOk(keys[i], parsed, queue')
    {
      assert KeyOk(keys[i], parsed, queue) && keys[i].number < keys[n].number;
      assert queue'[keys[i].number - parsed] == queue[keys[i].number - parsed];
    }
  }

  /** A token is handed over that no key waits for. */
  lemma {:induction false} KeysTake(keys: seq<SimpleKey>, parsed: nat, queue: seq<Token>)
    requires KeysOk(keys, parsed, queue) && HeadFree(keys, parsed, queue)
    ensures KeysOk(keys, parsed + 1, queue[1..])
  {
    forall i | 0 <= i < |keys| && keys[i].possible
      ensures KeyOk(keys[i], parsed + 1, queue[1..])
    {
      assert KeyOk(keys[i], parsed, queue);
    }
  }

  /** No simple key waits for the token at the head, to put another one before it. */
  ghost predicate HeadFree(keys: seq<SimpleKey>, parsed: nat, queue: seq<Token>) {
    queue != [] && forall i :: 0 <= i < |keys| && keys[i].possible ==> keys[i].number != parsed
  }

  /** The indentation levels around the current one: each is deeper than the one before. */
  ghost predicate IndentsOk(indents: seq<int>, indent: int) {
    if indents == [] then indent == -1
    else
      var n := |indents| - 1;
      indents[n] < indent && IndentsOk(indents[..n], indents[n])
  }

  lemma {:induction false} IndentFloor(indents: seq<int>, indent: int)
    requires IndentsOk(indents, indent)
    ensures indent >= -1 && (indents == [] <==> indent == -1)
  {
    if indents != [] {
      var n := |indents| - 1;
      IndentFloor(indents[..n], indents[n]);
    }
  }

  function Weight(k: Kind): int {
    if k.BlockSequenceStart? || k.BlockMappingStart? then 1 else if k.BlockEnd? then -1 else 0
  }

  /** How many more block collections start than end. */
  ghost function Balance(ts: seq<Token>): int {
    if ts == [] then 0 else Balance(ts[..|ts| - 1]) + Weight(ts[|ts| - 1].kind)
  }

  /** No block collection ends that has not started. */
  ghost predicate Nested(ts: seq<Token>) {
    ts == [] || (Balance(ts) >= 0 && Nested(ts[..|ts| - 1]))
  }

  lemma {:induction false} NestedOne(ts: seq<Token>, t: Token)
    requires Nested(ts) && Balance(ts) + Weight(t.kind) >= 0
    ensures Nested(ts + [t]) && Balance(ts + [t]) == Balance(ts) + Weight(t.kind)
  {
    assert (ts + [t])[..|ts|] == ts;
  }

  /** Putting in a token that ends no block collection. */
  lemma {:induction false} NestedInsert(a: seq<Token>, t: Token, b: seq<Token>)
    requires Nested(a + b) && Weight(t.kind) >= 0
    ensures Nested(a + [t] + b) && Balance(a + [t] + b) == Balance(a + b) + Weight(t.kind)
  {
    var n := |b| - 1;
    if b == [] {
      assert a + b == a && a + [t] + b == a + [t];
      NestedFloor(a);
      NestedOne(a, t);
    } else {
      assert (a + b)[..|a + b| - 1] == a + b[..n];
      NestedInsert(a, t, b[..n]);
      assert (a + [t] + b[..n]) + [b[n]] == a + [t] + b;
      NestedOne(a + [t] + b[..n], b[n]);
    }
  }

  lemma {:induction false} NestedFloor(ts: seq<Token>)
    requires Nested(ts)
    ensures Balance(ts) >= 0
  {
  }

  /** The tokens that are marked. */
  ghost function Pick(ts: seq<Token>, made: seq<bool>): (r: seq<Token>)
    requires |made| == |ts|
    ensures |r| <= |ts|
  {
    if ts == [] then []
    else
      var n := |ts| - 1;
      Pick(ts[..n], made[..n]) + if made[n] then [ts[n]] else []
  }

  lemma {:induction false} PickOne(ts: seq<Token>, made: seq<bool>, t: Token, b: bool)
    requires |made| == |ts|
    ensures Pick(ts + [t], made + [b]) == Pick(ts, made) + if b then [t] else []
  {
    assert (ts + [t])[..|ts|] == ts && (made + [b])[..|ts|] == made;
  }

  lemma {:induction false} PickNone()
    ensures Pick([], []) == []
  {
  }

  lemma {:induction false} PickTwo(a: seq<Token>, m: seq<bool>, b: seq<Token>, n: seq<bool>)
    requires |m| == |a| && |n| == |b|
    ensures Pick(a + b, m + n) == Pick(a, m) + Pick(b, n)
  {
    hide Pick;
    if b == [] {
      PickNone();
      assert a + b == a && m + n == m && n == [];
    } else {
      var k := |b| - 1;
      PickTwo(a, m, b[..k], n[..k]);
      PickMore(a, m, b[..k], n[..k], b[k], n[k]);
      assert b[..k] + [b[k]] == b && n[..k] + [n[k]] == n;
    }
  }

  lemma {:induction false} PickMore(a: seq<Token>, m: seq<bool>, b: seq<Token>, n: seq<bool>, t: Token, y: bool)
    requires |m| == |a| && |n| == |b| && Pick(a + b, m + n) == Pick(a, m) + Pick(b, n)
    ensures Pick(a + (b + [t]), m + (n + [y])) == Pick(a, m) + Pick(b + [t], n + [y])
  {
    PickOne(a + b, m + n, t, y);
    PickOne(b, n, t, y);
    hide Pick;
    assert a + (b + [t]) == (a + b) + [t] && m + (n + [y]) == (m + n) + [y];
  }

  /** Putting in a token that is not marked. */
  lemma {:induction false} PickInsert(a: seq<Token>, t: Token, b: seq<Token>, made: seq<bool>)
    requires |made| == |a| + |b|
    ensures Pick(a + [t] + b, made[..|a|] + [false] + made[|a|..]) == Pick(a + b, made)
  {
    hide Pick;
    var m, n := made[..|a|], made[|a|..];
    assert m + n == made;
    PickTwo(a, m, b, n);
    PickOne(a, m, t, false);
    PickTwo(a + [t], m + [false], b, n);
  }

  /** What comes first is picked first. */
  lemma {:induction false} PickPrefix(a: seq<Token>, b: seq<Token>, made: seq<bool>)
    requires |made| == |a| + |b|
    ensures Pick(a, made[..|a|]) <= Pick(a + b, made)
  {
    hide Pick;
    assert made[..|a|] + made[|a|..] == made;
    PickTwo(a, made[..|a|], b, made[|a|..]);
  }

  /** The tokens that stand for no piece of the text: those of keys found late, and where
      block collections and the stream begin and end. */
  predicate Extra(k: Kind) {
    k.Key? || k.BlockSequenceStart? || k.BlockMappingStart? || k.BlockEnd? || k.StreamStartToken? || k.StreamEndToken?
  }

  /** All tokens but those are marked. */
  ghost predicate Marked(ts: seq<Token>, made: seq<bool>) {
    |made| == |ts| && forall i :: 0 <= i < |ts| && !made[i] ==> Extra(ts[i].kind)
  }

  lemma {:induction false} MarkedInsert(a: seq<Token>, t: Token, b: seq<Token>, made: seq<bool>)
    requires Marked(a + b, made) && Extra(t.kind)
    ensures |made| == |a| + |b| && Marked(a + [t] + b, made[..|a|] + [false] + made[|a|..])
  {
    var ts, made' := a + [t] + b, made[..|a|] + [false] + made[|a|..];
    forall i | 0 <= i < |ts| && !made'[i] ensures Extra(ts[i].kind) {
      if i < |a| {
        assert (a + b)[i] == ts[i];
      } else if i > |a| {
        assert (a + b)[i - 1] == ts[i];
      }
    }
  }

  /** The token that a piece of the text stands for. */
  predicate Produces(w: What, k: Kind) {
    match w
    case EndOfStream => k.StreamEndToken?
    case VersionLine(major, minor) => k == G.VersionDirective(major, minor)
    case TagLine(directive) => k == G.TagDirectiveToken(directive)
    case DocumentIndicator(begins) => if begins then k.DocumentStartToken? else k.DocumentEndToken?
    case FlowStart(mapping) => if mapping then k.FlowMappingStart? else k.FlowSequenceStart?
    case FlowEnd(mapping) => if mapping then k.FlowMappingEnd? else k.FlowSequenceEnd?
    case FlowEntryMark => k.FlowEntry?
    case BlockEntryMark => k.BlockEntry?
    case KeyMark => k.Key?
    case ValueMark => k.Value?
    case Content(c) => k == c
    case BlockScalar(literal, text) => k == G.ScalarToken(text, if literal then E.Literal else E.Folded)
    case Unknown => false
  }

  /** The tokens stand for the first pieces of the text, one for each, in order, with their marks. */
  ghost predicate StandFor(ts: seq<Token>, lexemes: seq<Lexeme>) {
    |ts| <= |lexemes| && forall i :: 0 <= i < |ts| ==> StandsFor(ts[i], lexemes[i])
  }

  ghost predicate StandsFor(t: Token, l: Lexeme) {
    !l.what.EndOfStream? && Produces(l.what, t.kind) && t.mark == l.start
  }

  lemma {:induction false} OneMoreStands(ts: seq<Token>, t: Token, lexemes: seq<Lexeme>)
    requires StandFor(ts, lexemes) && |ts| < |lexemes| && StandsFor(t, lexemes[|ts|])
    ensures StandFor(ts + [t], lexemes)
  {
  }

  ghost predicate NoEnd(ts: seq<Token>) {
    forall t :: t in ts ==> !t.kind.StreamEndToken?
  }

  class Scanner {
    const lexemes: seq<Lexeme>
    var at: nat
    var mark: Position
    var error: bool
    var streamStartProduced: bool
    var streamEndProduced: bool
    var queue: seq<Token>
    var tokensParsed: nat
    var tokenAvailable: bool
    var flowLevel: nat
    var simpleKeys: seq<SimpleKey>
    var simpleKeyAllowed: bool
    var indent: int
    var indents: seq<int>
    ghost var delivered: seq<Token>  // the tokens handed to the parser
    ghost var ended: bool            // STREAM-END has been put in the queue
    ghost var made: seq<bool>        // which of all these tokens stand for a piece of the text

    constructor (lexemes: seq<Lexeme>)
      requires InOrder(lexemes)
      ensures Valid() && this.lexemes == lexemes && delivered == [] && !error && !streamEndProduced
    {
      this.lexemes, at, mark := lexemes, 0, Position(0, 0, 0);
      error, streamStartProduced, streamEndProduced := false, false, false;
      queue, tokensParsed, tokenAvailable := [], 0, false;
      flowLevel, simpleKeys, simpleKeyAllowed, indent, indents := 0, [], false, -1, [];
      delivered, ended, made := [], false, [];
    }

    /** Every token produced so far, in the order the parser gets them. */
    ghost function All(): seq<Token>
      reads this`delivered, this`queue
    {
      delivered + queue
    }

    /** Those of them that stand for a piece of the text. */
    ghost function Seen(): seq<Token>
      requires |made| == |All()|
      reads this`delivered, this`queue, this`made
    {
      Pick(All(), made)
    }

    /** All pieces that have been read have their tokens; at the end of the stream these
        are all there are before it. */
    ghost predicate Caught()
      reads this`delivered, this`queue, this`made, this`at, this`ended
    {
      && |made| == |All()| && StandFor(Seen(), lexemes)
      && if !ended then |Seen()| == at
         else |Seen()| == |lexemes| || lexemes[|Seen()|].what.EndOfStream?
    }

    /** The simple keys have their tokens, and start before the current position. */
    ghost predicate Keys()
      reads this`simpleKeys, this`tokensParsed, this`queue, this`mark
    {
      KeysOk(simpleKeys, tokensParsed, queue) && Behind()
    }

    ghost predicate Behind()
      reads this`simpleKeys, this`mark
    {
      forall i :: 0 <= i < |simpleKeys| && simpleKeys[i].possible ==> Before(simpleKeys[i].mark, mark)
    }

    ghost predicate NotAhead()
      reads this`simpleKeys, this`mark
    {
      forall i :: 0 <= i < |simpleKeys| && simpleKeys[i].possible ==> NotAfter(simpleKeys[i].mark, mark)
    }

    /** The indentation is that of the block collections that have not ended. */
    ghost predicate Blocks()
      reads this`delivered, this`queue, this`indent, this`indents, this`made
    {
      IndentsOk(indents, indent) && Nested(All()) && Balance(All()) == |indents| && Marked(All(), made)
    }

    ghost predicate Levels()
      reads this`streamStartProduced, this`simpleKeys, this`flowLevel, this`tokensParsed, this`queue, this`delivered
    {
      && |delivered| == tokensParsed
      && if streamStartProduced then |simpleKeys| == flowLevel + 1
         else simpleKeys == [] && flowLevel == 0 && queue == [] && tokensParsed == 0
    }

    /** STREAM-END comes once, after everything else. */
    ghost predicate Ends()
      reads this`ended, this`streamEndProduced, this`queue, this`delivered, this`mark, this`indents, this`flowLevel
    {
      if !ended then !streamEndProduced && NoEnd(All())
      else
        && All() != [] && All()[|All()| - 1].kind.StreamEndToken? && NoEnd(All()[..|All()| - 1])
        && (streamEndProduced <==> queue == []) && mark.column == 0 && (flowLevel == 0 ==> indents == [])
    }

    ghost predicate Reading()
      reads this
    {
      && InOrder(lexemes) && at <= |lexemes|
      && (at < |lexemes| ==> NotAfter(mark, lexemes[at].start))
    }

    ghost predicate Sound()
      reads this
    {
      Reading() && Keys() && Blocks() && Levels() && Ends()
    }

    ghost predicate Valid()
      reads this
    {
      && (!error ==> Sound() && Caught())
      && (!error && tokenAvailable ==> HeadFree(simpleKeys, tokensParsed, queue))
    }

    /** How much there is to fetch at most. */
    ghost function Left(): (n: nat)
      requires at <= |lexemes|
      reads this`at, this`ended, this`streamStartProduced
    {
      |lexemes| - at + (if ended then 0 else 1) + (if streamStartProduced then 0 else 1)
    }

    /** yaml_parser_stale_simple_keys: a key ends with its line, and after 1024 characters. */
    method StaleSimpleKeys() returns (ok: bool)
      requires Keys()
      modifies this`simpleKeys, this`error
      ensures ok ==> error == old(error) && Keys() && |simpleKeys| == |old(simpleKeys)|
      ensures ok ==> forall i :: 0 <= i < |simpleKeys| ==>
                       simpleKeys[i] == Aged(old(simpleKeys)[i])
      ensures !ok ==> error
      ensures !ok <==> exists i :: 0 <= i < |old(simpleKeys)| && Stale(old(simpleKeys)[i]) && old(simpleKeys)[i].required
    {
      ghost var keys := simpleKeys;
      ok := true;
      for i := 0 to |simpleKeys|
        invariant |simpleKeys| == |keys| && error == old(error) && ok
        invariant forall j :: 0 <= j < i ==> simpleKeys[j] == Aged(keys[j]) && !(Stale(keys[j]) && keys[j].required)
        invariant forall j :: i <= j < |keys| ==> simpleKeys[j] == keys[j]
      {
        var key := simpleKeys[i];
        if Stale(key) {
          if key.required {
            assert Stale(keys[i]);
            error := true;
            ok := false;
            return;
          }
          simpleKeys := simpleKeys[i := key.(possible := false)];
        }
      }
      KeysLess(keys, simpleKeys, tokensParsed, queue);
    }

    predicate Stale(key: SimpleKey)
      reads this`mark
    {
      StaleAt(key, mark)
    }

    /** A key ends with its line, and after 1024 characters. */
    static predicate StaleAt(key: SimpleKey, at: Position) {
      key.possible && (key.mark.line < at.line || key.mark.index + 1024 < at.index)
    }

    /** Every simple key is on the current line, and not too far back. */
    ghost predicate Fresh()
      reads this`simpleKeys, this`mark
    {
      forall i :: 0 <= i < |simpleKeys| ==> !Stale(simpleKeys[i])
    }

    ghost function Aged(key: SimpleKey): SimpleKey
      reads this`mark
    {
      AgedAt(key, mark)
    }

    static function AgedAt(key: SimpleKey, at: Position): SimpleKey {
      if StaleAt(key, at) then key.(possible := false) else key
    }

    /** yaml_parser_remove_simple_key */
    method RemoveSimpleKey() returns (ok: bool)
      requires Keys() && simpleKeys != []
      modifies this`simpleKeys, this`error
      ensures ok <==> !(old(simpleKeys[|simpleKeys| - 1].possible) && old(simpleKeys[|simpleKeys| - 1].required))
      ensures ok ==> error == old(error) && Keys() && simpleKeys == Without(old(simpleKeys), |old(simpleKeys)| - 1)
      ensures !ok ==> error
    {
      var n := |simpleKeys| - 1;
      if simpleKeys[n].possible && simpleKeys[n].required {
        error := true;
        return false;
      }
      ghost var keys := simpleKeys;
      simpleKeys := simpleKeys[n := simpleKeys[n].(possible := false)];
      KeysLess(keys, simpleKeys, tokensParsed, queue);
      ok := true;
    }

    /** yaml_parser_save_simple_key: where a key may start, one waits for the next token. */
    method SaveSimpleKey() returns (ok: bool)
      requires Keys() && simpleKeys != []
      modifies this`simpleKeys, this`error
      ensures ok ==> error == old(error) && |simpleKeys| == |old(simpleKeys)| && NotAhead()
      ensures ok ==> Waiting(simpleKeys, tokensParsed, queue, |simpleKeys| - 1, mark)
      ensures ok ==> var n := |simpleKeys| - 1;
                     && simpleKeys[..n] == old(simpleKeys[..n])
                     && simpleKeys[n] == if simpleKeyAllowed
                                         then SimpleKey(true, flowLevel == 0 && indent == mark.column, tokensParsed + |queue|, mark)
                                         else old(simpleKeys[n])
      ensures ok <==> !(simpleKeyAllowed && Needed(old(simpleKeys)[|old(simpleKeys)| - 1]))
      ensures !ok ==> error
    {
      ok := true;
      ghost var keys := simpleKeys;
      var n := |simpleKeys| - 1;
      var required := flowLevel == 0 && indent == mark.column;
      if simpleKeyAllowed {
        var key := SimpleKey(true, required, tokensParsed + |queue|, mark);
        ok := RemoveSimpleKey();
        if !ok {
          return;
        }
        KeysSave(simpleKeys, key, tokensParsed, queue);
        simpleKeys := simpleKeys[n := key];
      } else {
        KeysLess(keys, Without(keys, n), tokensParsed, queue);
      }
    }

    /** ENQUEUE; `b`: the token stands for a piece of the text. */
    method Enqueue(kind: Kind, start: Position, ghost b: bool)
      requires Blocks() && Balance(All()) + Weight(kind) >= 0 && (b || Extra(kind))
      modifies this`queue, this`made
      ensures queue == old(queue) + [Token(kind, start)] && All() == old(All()) + [Token(kind, start)]
      ensures Nested(All()) && Balance(All()) == old(Balance(All())) + Weight(kind) && Marked(All(), made)
      ensures Seen() == old(Seen()) + if b then [Token(kind, start)] else []
    {
      hide Pick;
      NestedOne(All(), Token(kind, start));
      PickOne(All(), made, Token(kind, start), b);
      assert All() + [Token(kind, start)] == delivered + (queue + [Token(kind, start)]);
      queue := queue + [Token(kind, start)];
      made := made + [b];
    }

    /** QUEUE_INSERT at the place of a key. */
    method QueueInsert(k: nat, kind: Kind, start: Position)
      requires Nested(All()) && Marked(All(), made) && k <= |queue| && Weight(kind) >= 0 && Extra(kind)
      modifies this`queue, this`made
      ensures queue == old(queue)[..k] + [Token(kind, start)] + old(queue)[k..]
      ensures Nested(All()) && Balance(All()) == old(Balance(All())) + Weight(kind)
      ensures Marked(All(), made) && Seen() == old(Seen())
    {
      hide Pick, Marked, Nested, Balance;
      var t := Token(kind, start);
      ghost var a, b := delivered + queue[..k], queue[k..];
      assert a + b == All();
      NestedInsert(a, t, b);
      MarkedInsert(a, t, b, made);
      PickInsert(a, t, b, made);
      assert a + [t] + b == delivered + (queue[..k] + [t] + queue[k..]);
      made := made[..|a|] + [false] + made[|a|..];
      queue := queue[..k] + [t] + queue[k..];
    }

    /** yaml_parser_roll_indent: `number` is -1 to append, or that of the token to go before. */
    method RollIndent(column: nat, number: int, kind: Kind, start: Position)
      requires Blocks() && Weight(kind) == 1 && NoEnd(All())
      requires number == -1 || tokensParsed <= number <= tokensParsed + |queue|
      modifies this`queue, this`made, this`indent, this`indents
      ensures Blocks() && NoEnd(All()) && Seen() == old(Seen())
      ensures flowLevel == 0 ==> indent >= column
      ensures if flowLevel != 0 || old(indent) >= column then queue == old(queue) && indent == old(indent)
              else queue == Inserted(old(queue), number, Token(kind, start)) && indent == column
    {
      if flowLevel == 0 && indent < column {
        var k := if number == -1 then |queue| else number - tokensParsed;
        ghost var q := queue;
        QueueInsert(k, kind, start);
        assert q[..k] + [Token(kind, start)] + q[k..] == Inserted(q, number, Token(kind, start));
        StillNoEnd(delivered, q, k, Token(kind, start));
        assert (indents + [indent])[..|indents|] == indents;
        indents := indents + [indent];
        indent := column;
      }
    }

    /** The queue with a token before the one of that number. */
    ghost function Inserted(q: seq<Token>, number: int, t: Token): seq<Token>
      requires number == -1 || tokensParsed <= number <= tokensParsed + |q|
      reads this`tokensParsed
    {
      if number == -1 then q + [t]
      else
        var k := number - tokensParsed;
        q[..k] + [t] + q[k..]
    }

    static lemma {:induction false} StillNoEnd(d: seq<Token>, q: seq<Token>, k: nat, t: Token)
      requires NoEnd(d + q) && k <= |q| && !t.kind.StreamEndToken?
      ensures NoEnd(d + (q[..k] + [t] + q[k..]))
    {
      forall x | x in d + (q[..k] + [t] + q[k..]) && x != t
        ensures x in d + q
      {
      }
    }

    static lemma {:induction false} OneMoreNoEnd(ts: seq<Token>, t: Token)
      requires NoEnd(ts) && !t.kind.StreamEndToken?
      ensures NoEnd(ts + [t])
    {
    }

    /** yaml_parser_unroll_indent */
    method UnrollIndent(column: int)
      requires column >= -1 && Keys() && Blocks() && NoEnd(All())
      modifies this`queue, this`made, this`indent, this`indents
      ensures Keys() && Blocks() && NoEnd(All()) && Seen() == old(Seen())
      ensures flowLevel == 0 ==> indent <= column && (column == -1 ==> indents == [])
      ensures flowLevel != 0 ==> indents == old(indents)
      ensures indents <= old(indents) && queue == old(queue) + BlockEnds(|old(indents)| - |indents|, mark)
    {
      if flowLevel != 0 {
        return;
      }
      hide KeysOk, KeyOk, Increasing, Nested, Balance, Pick, IndentsOk, NoEnd, Behind;
      while indent > column
        invariant Keys() && Blocks() && NoEnd(All()) && Seen() == old(Seen())
        invariant indents <= old(indents) && queue == old(queue) + BlockEnds(|old(indents)| - |indents|, mark)
        decreases |indents|
      {
        EndBlock();
      }
      IndentFloor(indents, indent);
    }

    /** The step of its loop. */
    method EndBlock()
      requires Keys() && Blocks() && NoEnd(All()) && indent > -1
      modifies this`queue, this`made, this`indent, this`indents
      ensures Keys() && Blocks() && NoEnd(All()) && Seen() == old(Seen())
      ensures old(indents) == indents + [indent] && queue == old(queue) + [Token(G.BlockEnd, mark)]
    {
      hide KeysOk, KeyOk, Increasing, Nested, Balance, Pick;
      IndentFloor(indents, indent);
      KeysAppend(simpleKeys, tokensParsed, queue, Token(G.BlockEnd, mark));
      OneMoreNoEnd(All(), Token(G.BlockEnd, mark));
      Enqueue(G.BlockEnd, mark, false);
      indent, indents := indents[|indents| - 1], indents[..|indents| - 1];
    }

    static function BlockEnds(n: nat, at: Position): seq<Token> {
      if n == 0 then [] else BlockEnds(n - 1, at) + [Token(G.BlockEnd, at)]
    }

    /** The text goes on behind the piece. */
    ghost predicate Follows(l: Lexeme)
      reads this`mark, this`at
    {
      && mark == l.start && Before(l.start, l.end) && InOrder(lexemes) && at <= |lexemes|
      && (at < |lexemes| ==> NotAfter(l.end, lexemes[at].start))
    }

    /** Between the tokens of a stream that has not ended. */
    ghost predicate Inside()
      reads this
    {
      Sound() && !error && streamStartProduced && !ended
    }

    /** SKIP over the piece and ENQUEUE its token, which the key at `p` may wait for. */
    method Produce(l: Lexeme, kind: Kind, ghost p: nat)
      requires Follows(l) && Blocks() && Levels() && streamStartProduced && !ended && Ends()
      requires Weight(kind) == 0 && !kind.StreamEndToken? && NotAhead()
      requires KeysOk(simpleKeys, tokensParsed, queue)
               || (StartsKey(kind) && Waiting(simpleKeys, tokensParsed, queue, p, mark))
      modifies this`queue, this`made, this`mark
      ensures Sound() && queue == old(queue) + [Token(kind, l.start)] && Seen() == old(Seen()) + [Token(kind, l.start)]
    {
      hide KeysOk, KeyOk, Waiting, Increasing, Nested, Balance, IndentsOk, InOrder, Placed;
      if KeysOk(simpleKeys, tokensParsed, queue) {
        KeysAppend(simpleKeys, tokensParsed, queue, Token(kind, l.start));
      } else {
        KeysArrive(simpleKeys, tokensParsed, queue, p, Token(kind, l.start));
      }
      OneMoreNoEnd(All(), Token(kind, l.start));
      Enqueue(kind, l.start, true);
      mark := l.end;
    }

    /** yaml_parser_fetch_stream_start */
    method FetchStreamStart()
      requires Sound() && !streamStartProduced && !ended && !error
      modifies this`indent, this`simpleKeys, this`simpleKeyAllowed, this`streamStartProduced, this`queue, this`made
      ensures Inside() && simpleKeyAllowed && queue == [Token(G.StreamStartToken, mark)] && Seen() == old(Seen())
    {
      hide KeysOk, KeyOk, Increasing, Nested, Balance, Pick, IndentsOk, InOrder, Placed;
      NothingYet();
      indent := -1;
      simpleKeys := simpleKeys + [SimpleKey(false, false, 0, Position(0, 0, 0))];
      simpleKeyAllowed := true;
      streamStartProduced := true;
      OneMoreNoEnd(All(), Token(G.StreamStartToken, mark));
      Enqueue(G.StreamStartToken, mark, false);
      NoKeysYet(simpleKeys, tokensParsed, queue);
    }

    lemma {:induction false} NothingYet()
      requires Blocks() && Levels() && !streamStartProduced
      ensures All() == [] && indents == [] && indent == -1
    {
    }

    static lemma {:induction false} NoKeysYet(keys: seq<SimpleKey>, parsed: nat, q: seq<Token>)
      requires |keys| == 1 && !keys[0].possible
      ensures KeysOk(keys, parsed, q)
    {
    }

    /** yaml_parser_fetch_stream_end */
    method FetchStreamEnd() returns (ok: bool)
      requires Inside() && at == |lexemes|
      modifies this`mark, this`queue, this`made, this`indent, this`indents, this`simpleKeys, this`simpleKeyAllowed, this`error, this`ended
      ensures ok ==> !error && Sound() && ended && indents <= old(indents)
      ensures ok ==> queue == old(queue) + BlockEnds(|old(indents)| - |indents|, mark) + [Token(G.StreamEndToken, mark)]
      ensures ok ==> Seen() == old(Seen())
      ensures ok <==> !Needed(old(simpleKeys)[|old(simpleKeys)| - 1])
      ensures !ok ==> error
    {
      hide KeysOk, KeyOk, Increasing, Nested, Balance, Pick, IndentsOk, InOrder, Placed;
      if mark.column != 0 {
        mark := mark.(column := 0, line := mark.line + 1);
      }
      assert Keys();
      UnrollIndent(-1);
      ok := RemoveSimpleKey();
      if !ok {
        return;
      }
      simpleKeyAllowed := false;
      PutStreamEnd();
    }

    method PutStreamEnd()
      requires Reading() && Keys() && Blocks() && Levels() && at == |lexemes|
      requires mark.column == 0 && streamStartProduced && !ended && Ends() && (flowLevel == 0 ==> indents == [])
      modifies this`queue, this`made, this`ended
      ensures Sound() && ended && queue == old(queue) + [Token(G.StreamEndToken, mark)] && Seen() == old(Seen())
    {
      hide KeysOk, KeyOk, Increasing, Nested, Balance, Pick, IndentsOk, InOrder, Placed;
      KeysAppend(simpleKeys, tokensParsed, queue, Token(G.StreamEndToken, mark));
      Enqueue(G.StreamEndToken, mark, false);
      ended := true;
    }

    /** yaml_parser_fetch_directive, and yaml_parser_fetch_document_indicator, where
        nothing can fail */
    method FetchDirective(l: Lexeme, kind: Kind) returns (ok: bool)
      requires Inside() && Follows(l)
      requires kind.VersionDirective? || kind.TagDirectiveToken? || kind.DocumentStartToken? || kind.DocumentEndToken?
      modifies this`mark, this`queue, this`made, this`indent, this`indents, this`simpleKeys, this`simpleKeyAllowed, this`error
      ensures ok ==> Inside() && !simpleKeyAllowed && (flowLevel == 0 ==> indents == []) && indents <= old(indents)
      ensures ok ==> queue == old(queue) + BlockEnds(|old(indents)| - |indents|, l.start) + [Token(kind, l.start)]
      ensures ok ==> Seen() == old(Seen()) + [Token(kind, l.start)]
      ensures ok <==> !Needed(old(simpleKeys)[|old(simpleKeys)| - 1]) && (kind.VersionDirective? || kind.TagDirectiveToken? ==> l.ok)
      ensures !ok ==> error
    {
      hide KeysOk, KeyOk, Increasing, Nested, Balance, Pick, IndentsOk, InOrder, Placed;
      UnrollIndent(-1);
      ok := RemoveSimpleKey();
      if !ok {
        return;
      }
      simpleKeyAllowed := false;
      if (kind.VersionDirective? || kind.TagDirectiveToken?) && !l.ok {
        error := true;
        return false;
      }
      Produce(l, kind, 0);
    }

    /** yaml_parser_fetch_flow_collection_start, with yaml_parser_increase_flow_level */
    method FetchFlowCollectionStart(l: Lexeme, kind: Kind) returns (ok: bool)
      requires Inside() && Follows(l) && (kind.FlowSequenceStart? || kind.FlowMappingStart?)
      modifies this`mark, this`queue, this`made, this`simpleKeys, this`simpleKeyAllowed, this`error, this`flowLevel
      ensures ok ==> Inside() && simpleKeyAllowed && flowLevel == old(flowLevel) + 1
      ensures ok ==> queue == old(queue) + [Token(kind, l.start)] && !simpleKeys[flowLevel].possible
      ensures ok ==> Seen() == old(Seen()) + [Token(kind, l.start)]
      ensures ok <==> !(old(simpleKeyAllowed) && Needed(old(simpleKeys)[|old(simpleKeys)| - 1]))
      ensures !ok ==> error
    {
      hide KeysOk, KeyOk, Increasing, Waiting, Nested, Balance, Pick, IndentsOk, InOrder, Placed;
      ok := SaveSimpleKey();
      if !ok {
        return;
      }
      var empty := SimpleKey(false, false, 0, Position(0, 0, 0));
      ghost var p := |simpleKeys| - 1;
      WaitingDeeper(simpleKeys, empty, tokensParsed, queue, p, mark);
      simpleKeys := simpleKeys + [empty];
      flowLevel := flowLevel + 1;
      simpleKeyAllowed := true;
      Produce(l, kind, p);
    }

    /** yaml_parser_fetch_flow_collection_end */
    method FetchFlowCollectionEnd(l: Lexeme, kind: Kind) returns (ok: bool)
      requires Inside() && Follows(l) && (kind.FlowSequenceEnd? || kind.FlowMappingEnd?)
      modifies this`mark, this`queue, this`made, this`simpleKeys, this`simpleKeyAllowed, this`error, this`flowLevel
      ensures ok ==> Inside() && !simpleKeyAllowed && flowLevel == (if old(flowLevel) == 0 then 0 else old(flowLevel) - 1)
      ensures ok ==> queue == old(queue) + [Token(kind, l.start)] && Seen() == old(Seen()) + [Token(kind, l.start)]
      ensures ok && old(flowLevel) != 0 ==> simpleKeys == old(simpleKeys)[..flowLevel + 1]
      ensures ok <==> !Needed(old(simpleKeys)[|old(simpleKeys)| - 1])
      ensures !ok ==> error
    {
      hide KeysOk, KeyOk, Increasing, Nested, Balance, Pick, IndentsOk, InOrder, Placed;
      ok := RemoveSimpleKey();
      if !ok {
        return;
      }
      DecreaseFlowLevel();
      simpleKeyAllowed := false;
      Produce(l, kind, 0);
    }

    /** yaml_parser_decrease_flow_level */
    method DecreaseFlowLevel()
      requires Keys() && |simpleKeys| == flowLevel + 1
      modifies this`simpleKeys, this`flowLevel
      ensures Keys() && |simpleKeys| == flowLevel + 1
      ensures flowLevel == (if old(flowLevel) == 0 then 0 else old(flowLevel) - 1)
      ensures simpleKeys == old(simpleKeys)[..flowLevel + 1]
    {
      if flowLevel != 0 {
        flowLevel := flowLevel - 1;
        KeysLess(simpleKeys, simpleKeys[..|simpleKeys| - 1], tokensParsed, queue);
        simpleKeys := simpleKeys[..|simpleKeys| - 1];
      }
    }

    /** yaml_parser_fetch_flow_entry */
    method FetchFlowEntry(l: Lexeme) returns (ok: bool)
      requires Inside() && Follows(l)
      modifies this`mark, this`queue, this`made, this`simpleKeys, this`simpleKeyAllowed, this`error
      ensures ok ==> Inside() && simpleKeyAllowed && queue == old(queue) + [Token(G.FlowEntry, l.start)]
      ensures ok ==> Seen() == old(Seen()) + [Token(G.FlowEntry, l.start)]
      ensures ok <==> !Needed(old(simpleKeys)[|old(simpleKeys)| - 1])
      ensures !ok ==> error
    {
      hide KeysOk, KeyOk, Increasing, Nested, Balance, Pick, IndentsOk, InOrder, Placed;
      ok := RemoveSimpleKey();
      if !ok {
        return;
      }
      simpleKeyAllowed := true;
      Produce(l, G.FlowEntry, 0);
    }

    /** What is in common of yaml_parser_fetch_block_entry, yaml_parser_fetch_key and
        the complex value: a block collection may have to start. */
    method StartBlock(kind: Kind) returns (ok: bool)
      requires Inside() && Weight(kind) == 1
      modifies this`queue, this`made, this`indent, this`indents, this`error
      ensures ok <==> (flowLevel == 0 ==> simpleKeyAllowed)
      ensures ok ==> Inside() && (flowLevel == 0 ==> indent >= mark.column) && Seen() == old(Seen())
      ensures ok ==> queue == if flowLevel == 0 && old(indent) < mark.column
                              then old(queue) + [Token(kind, mark)] else old(queue)
      ensures !ok ==> error
    {
      hide KeysOk, KeyOk, Increasing, Nested, Balance, Pick, IndentsOk, InOrder, Placed;
      ok := true;
      if flowLevel == 0 {
        if !simpleKeyAllowed {
          error := true;
          return false;
        }
        KeysAppend(simpleKeys, tokensParsed, queue, Token(kind, mark));
        RollIndent(mark.column, -1, kind, mark);
      }
    }

    /** yaml_parser_fetch_block_entry, or yaml_parser_fetch_key */
    method FetchBlockEntryOrKey(l: Lexeme, key: bool) returns (ok: bool)
      requires Inside() && Follows(l)
      modifies this`mark, this`queue, this`made, this`indent, this`indents, this`simpleKeys, this`simpleKeyAllowed, this`error
      ensures ok ==> Inside() && (simpleKeyAllowed <==> !key || flowLevel == 0)
      ensures ok ==> flowLevel == 0 ==> old(simpleKeyAllowed)
      ensures ok ==> queue == (if flowLevel == 0 && old(indent) < l.start.column
                               then old(queue) + [Token(if key then G.BlockMappingStart else G.BlockSequenceStart, l.start)]
                               else old(queue)) + [Token(if key then G.Key else G.BlockEntry, l.start)]
      ensures ok ==> Seen() == old(Seen()) + [Token(if key then G.Key else G.BlockEntry, l.start)]
      ensures ok <==> (flowLevel != 0 || old(simpleKeyAllowed)) && !Needed(old(simpleKeys)[|old(simpleKeys)| - 1])
      ensures !ok ==> error
    {
      hide KeysOk, KeyOk, Increasing, Nested, Balance, Pick, IndentsOk, InOrder, Placed;
      ok := StartBlock(if key then G.BlockMappingStart else G.BlockSequenceStart);
      if !ok {
        return;
      }
      ok := RemoveSimpleKey();
      if !ok {
        return;
      }
      simpleKeyAllowed := !key || flowLevel == 0;
      Produce(l, if key then G.Key else G.BlockEntry, 0);
    }

    /** The first half of yaml_parser_fetch_value, for a simple key: its KEY token, and
        where a block mapping starts with it, that token too, go before its token. */
    method InsertKey()
      requires Inside() && simpleKeys[flowLevel].possible
      modifies this`queue, this`made, this`indent, this`indents, this`simpleKeys, this`simpleKeyAllowed
      ensures Inside() && !simpleKeyAllowed && simpleKeys == Without(old(simpleKeys), flowLevel) && Seen() == old(Seen())
      ensures KeyOk(old(simpleKeys)[flowLevel], tokensParsed, old(queue))
      ensures var key := old(simpleKeys)[flowLevel];
              var k := key.number - tokensParsed;
              queue == old(queue)[..k] + KeyTokens(key, flowLevel == 0 && old(indent) < key.mark.column) + old(queue)[k..]
    {
      hide KeysOk, Increasing, Nested, Balance, Pick, IndentsOk, InOrder, Placed, KeyTokens, NoEnd;
      var key := simpleKeys[flowLevel];
      KeysInsert(simpleKeys, tokensParsed, queue, KeyTokens(key, flowLevel == 0 && indent < key.mark.column));
      InsertKeyTokens(key);
      simpleKeys := simpleKeys[flowLevel := key.(possible := false)];
      simpleKeyAllowed := false;
    }

    method InsertKeyTokens(key: SimpleKey)
      requires Blocks() && NoEnd(All()) && tokensParsed <= key.number <= tokensParsed + |queue|
      modifies this`queue, this`made, this`indent, this`indents
      ensures Blocks() && NoEnd(All()) && Seen() == old(Seen())
      ensures var k := key.number - tokensParsed;
              queue == old(queue)[..k] + KeyTokens(key, flowLevel == 0 && old(indent) < key.mark.column) + old(queue)[k..]
    {
      hide Nested, Balance, Pick, IndentsOk, NoEnd;
      ghost var q := queue;
      var k := key.number - tokensParsed;
      StillNoEnd(delivered, queue, k, Token(G.Key, key.mark));
      QueueInsert(k, G.Key, key.mark);
      RollIndent(key.mark.column, key.number, G.BlockMappingStart, key.mark);
      Inserts(q, k, Token(G.BlockMappingStart, key.mark), Token(G.Key, key.mark));
    }

    static function KeyTokens(key: SimpleKey, startsMapping: bool): seq<Token> {
      (if startsMapping then [Token(G.BlockMappingStart, key.mark)] else []) + [Token(G.Key, key.mark)]
    }

    static lemma {:induction false} Inserts(q: seq<Token>, k: nat, a: Token, b: Token)
      requires k <= |q|
      ensures var r := q[..k] + [b] + q[k..]; r[..k] + [a] + r[k..] == q[..k] + ([a] + [b]) + q[k..]
      ensures [] + [b] == [b]
    {
    }

    /** yaml_parser_fetch_value */
    method FetchValue(l: Lexeme) returns (ok: bool)
      requires Inside() && Follows(l) && Fresh() && (flowLevel == 0 ==> indent <= mark.column)
      modifies this`mark, this`queue, this`made, this`indent, this`indents, this`simpleKeys, this`simpleKeyAllowed, this`error
      ensures ok ==> Inside() && simpleKeys == Without(old(simpleKeys), flowLevel)
      ensures ok ==> Seen() == old(Seen()) + [Token(G.Value, l.start)]
      ensures ok ==> (simpleKeyAllowed <==> flowLevel == 0 && !old(simpleKeys)[flowLevel].possible)
      ensures ok && old(simpleKeys)[flowLevel].possible ==>
                var key := old(simpleKeys)[flowLevel];
                && KeyOk(key, tokensParsed, old(queue))
                && key.mark.line == l.start.line && l.start.index <= key.mark.index + 1024
                && var k := key.number - tokensParsed;
                queue == old(queue)[..k] + KeyTokens(key, flowLevel == 0 && old(indent) < key.mark.column)
                         + old(queue)[k..] + [Token(G.Value, l.start)]
      ensures ok && !old(simpleKeys)[flowLevel].possible ==>
                queue == (if flowLevel == 0 && old(indent) < l.start.column
                          then old(queue) + [Token(G.BlockMappingStart, l.start)] else old(queue)) + [Token(G.Value, l.start)]
      ensures ok <==> (old(simpleKeys)[flowLevel].possible || flowLevel != 0 || old(simpleKeyAllowed))
      ensures !ok ==> error
    {
      hide KeysOk, KeyOk, Increasing, Nested, Balance, Pick, IndentsOk, InOrder, Placed, KeyTokens;
      ok := true;
      if simpleKeys[|simpleKeys| - 1].possible {
        InsertKey();
      } else {
        ok := StartBlock(G.BlockMappingStart);
        if !ok {
          return;
        }
        simpleKeyAllowed := flowLevel == 0;
      }
      Produce(l, G.Value, 0);
    }

    /** yaml_parser_fetch_anchor, yaml_parser_fetch_tag, yaml_parser_fetch_flow_scalar
        and yaml_parser_fetch_plain_scalar */
    method FetchContent(l: Lexeme, c: Content) returns (ok: bool)
      requires Inside() && Follows(l)
      modifies this`mark, this`queue, this`made, this`simpleKeys, this`simpleKeyAllowed, this`error
      ensures ok ==> Inside() && l.ok && queue == old(queue) + [Token(c, l.start)] && Seen() == old(Seen()) + [Token(c, l.start)]
      ensures ok ==> (simpleKeyAllowed <==> PlainToNextLine(l, c))
      ensures ok && old(simpleKeyAllowed) ==>
                simpleKeys[flowLevel] == SimpleKey(true, flowLevel == 0 && indent == l.start.column, tokensParsed + |old(queue)|, l.start)
      ensures ok <==> !(old(simpleKeyAllowed) && Needed(old(simpleKeys)[|old(simpleKeys)| - 1])) && l.ok
      ensures !ok ==> error
    {
      hide KeysOk, KeyOk, Increasing, Waiting, Nested, Balance, Pick, IndentsOk, InOrder, Placed;
      ok := SaveSimpleKey();
      if !ok {
        return;
      }
      simpleKeyAllowed := false;
      if !l.ok {
        error := true;
        return false;
      }
      if PlainToNextLine(l, c) {
        simpleKeyAllowed := true;
      }
      Produce(l, c, |simpleKeys| - 1);
    }

    static predicate PlainToNextLine(l: Lexeme, c: Content) {
      c.ScalarToken? && c.style == E.Plain && l.breakAfter
    }

    /** yaml_parser_fetch_block_scalar */
    method FetchBlockScalar(l: Lexeme, kind: Kind) returns (ok: bool)
      requires Inside() && Follows(l) && kind.ScalarToken?
      modifies this`mark, this`queue, this`made, this`simpleKeys, this`simpleKeyAllowed, this`error
      ensures ok ==> Inside() && l.ok && simpleKeyAllowed && queue == old(queue) + [Token(kind, l.start)]
      ensures ok ==> Seen() == old(Seen()) + [Token(kind, l.start)]
      ensures ok <==> !Needed(old(simpleKeys)[|old(simpleKeys)| - 1]) && l.ok
      ensures !ok ==> error
    {
      hide KeysOk, KeyOk, Increasing, Waiting, Nested, Balance, Pick, IndentsOk, InOrder, Placed;
      ok := RemoveSimpleKey();
      if !ok {
        return;
      }
      simpleKeyAllowed := true;
      if !l.ok {
        error := true;
        return false;
      }
      Produce(l, kind, 0);
    }

    /** The dispatch of yaml_parser_fetch_next_token. */
    method Dispatch(l: Lexeme) returns (ok: bool)
      requires Inside() && (if l.what.EndOfStream? then at == |lexemes| else Follows(l))
      requires Fresh() && (flowLevel == 0 ==> indent <= mark.column)
      modifies this`mark, this`queue, this`made, this`indent, this`indents, this`simpleKeys, this`simpleKeyAllowed, this`error,
               this`ended, this`flowLevel
      ensures ok ==> !error && Sound() && (l.what.EndOfStream? ==> ended)
      ensures ok && l.what.EndOfStream? ==> Seen() == old(Seen())
      ensures ok && !l.what.EndOfStream? ==>
                !ended && queue != [] && Seen() == old(Seen()) + [queue[|queue| - 1]] && StandsFor(queue[|queue| - 1], l)
      ensures ok <==> Fine(l.what, l.ok, old(simpleKeyAllowed), old(simpleKeys)[|old(simpleKeys)| - 1], old(flowLevel) != 0)
      ensures !ok ==> error
    {
      hide Keys, Levels, Ends, Reading, InOrder, Nested, Balance, IndentsOk, Marked, Pick, KeyOk, KeyTokens, BlockEnds;
      LevelKey();
      match l.what
      case EndOfStream => ok := FetchStreamEnd();
      case Content(c) => ok := FetchContent(l, c);
      case BlockScalar(literal, text) =>
        ok := FetchBlockScalar(l, G.ScalarToken(text, if literal then E.Literal else E.Folded));
      case Unknown =>
        error := true;
        ok := false;
      case _ => ok := DispatchIndicator(l);
    }

    /** Those of its cases in which the piece is an indicator or a directive. */
    method DispatchIndicator(l: Lexeme) returns (ok: bool)
      requires Inside() && Follows(l) && Indicator(l.what) && simpleKeys != []
      requires Fresh() && (flowLevel == 0 ==> indent <= mark.column)
      modifies this`mark, this`queue, this`made, this`indent, this`indents, this`simpleKeys, this`simpleKeyAllowed, this`error,
               this`flowLevel
      ensures ok ==> Inside() && queue != [] && Seen() == old(Seen()) + [queue[|queue| - 1]] && StandsFor(queue[|queue| - 1], l)
      ensures ok <==> Fine(l.what, l.ok, old(simpleKeyAllowed), old(simpleKeys)[|old(simpleKeys)| - 1], old(flowLevel) != 0)
      ensures !ok ==> error
    {
      hide Keys, Levels, Ends, Reading, InOrder, Nested, Balance, IndentsOk, Marked, Pick, KeyOk, KeyTokens, BlockEnds;
      LevelKey();
      match l.what
      case VersionLine(major, minor) => ok := FetchDirective(l, G.VersionDirective(major, minor));
      case TagLine(directive) => ok := FetchDirective(l, G.TagDirectiveToken(directive));
      case DocumentIndicator(begins) =>
        ok := FetchDirective(l, if begins then G.DocumentStartToken else G.DocumentEndToken);
      case FlowStart(mapping) =>
        ok := FetchFlowCollectionStart(l, if mapping then G.FlowMappingStart else G.FlowSequenceStart);
      case FlowEnd(mapping) =>
        ok := FetchFlowCollectionEnd(l, if mapping then G.FlowMappingEnd else G.FlowSequenceEnd);
      case FlowEntryMark => ok := FetchFlowEntry(l);
      case BlockEntryMark => ok := FetchBlockEntryOrKey(l, false);
      case KeyMark => ok := FetchBlockEntryOrKey(l, true);
      case ValueMark => ok := FetchValue(l);
    }

    lemma {:induction false} LevelKey()
      requires Inside()
      ensures |simpleKeys| == flowLevel + 1
    {
    }

    /** yaml_parser_scan_to_next_token: in the block context a key may start on a new line. */
    method ScanToNextToken() returns (l: Lexeme)
      requires Inside()
      modifies this`at, this`mark, this`simpleKeyAllowed
      ensures Inside() && mark == l.start && Left() <= old(Left())
      ensures if l.what.EndOfStream? then at == |lexemes| else Follows(l) && at == old(at) + 1
      ensures l == old(Upcoming())
      ensures old(at) < |lexemes| ==> l == lexemes[old(at)]
      ensures old(at) == |lexemes| ==> l.what.EndOfStream? && mark == old(mark)
      ensures simpleKeyAllowed <==> old(simpleKeyAllowed) || (flowLevel == 0 && old(mark).line < mark.line)
    {
      hide KeysOk, KeyOk, Increasing, Nested, Balance, Pick, IndentsOk;
      if at == |lexemes| {
        l := Lexeme(EndOfStream, mark, mark, true, false);
      } else {
        l := lexemes[at];
        assert Placed(lexemes, at);
        at := if l.what.EndOfStream? then |lexemes| else at + 1;
        if flowLevel == 0 && mark.line < l.start.line {
          simpleKeyAllowed := true;
        }
        mark := l.start;
      }
    }

    /** The piece that comes next, or the end of the text. */
    ghost function Upcoming(): Lexeme
      reads this`at, this`mark
    {
      if at < |lexemes| then lexemes[at] else Lexeme(EndOfStream, mark, mark, true, false)
    }

    /** There is nothing wrong with a piece: no key that is needed becomes stale there, and
        the piece may stand where it does. */
    ghost predicate Good(l: Lexeme, allowed: bool)
      reads this`simpleKeys, this`flowLevel
    {
      && simpleKeys != []
      && (forall i :: 0 <= i < |simpleKeys| ==> !(StaleAt(simpleKeys[i], l.start) && simpleKeys[i].required))
      && Fine(l.what, l.ok, allowed, AgedAt(simpleKeys[|simpleKeys| - 1], l.start), flowLevel != 0)
    }

    /** There is nothing wrong with what comes next; a key may start on a new line. */
    ghost predicate Fetchable()
      reads this`at, this`mark, this`streamStartProduced, this`simpleKeys, this`simpleKeyAllowed, this`flowLevel
    {
      var l := Upcoming();
      streamStartProduced ==> Good(l, simpleKeyAllowed || (flowLevel == 0 && mark.line < l.start.line))
    }

    /** The second half of yaml_parser_fetch_next_token, from the start of a piece on. */
    method FetchPiece(l: Lexeme) returns (ok: bool)
      requires Inside() && mark == l.start && (if l.what.EndOfStream? then at == |lexemes| else Follows(l))
      modifies this`mark, this`queue, this`made, this`indent, this`indents, this`simpleKeys, this`simpleKeyAllowed, this`error,
               this`ended, this`flowLevel
      ensures ok ==> !error && Sound()
      ensures ok && l.what.EndOfStream? ==> ended && Seen() == old(Seen())
      ensures ok && !l.what.EndOfStream? ==>
                !ended && queue != [] && Seen() == old(Seen()) + [queue[|queue| - 1]] && StandsFor(queue[|queue| - 1], l)
      ensures ok <==> old(Good(l, simpleKeyAllowed))
      ensures !ok ==> error
    {
      hide KeysOk, KeyOk, Increasing, Nested, Balance, Pick, IndentsOk, InOrder, Placed, StandsFor, Fine;
      LevelKey();
      ghost var keys := simpleKeys;
      ok := StaleSimpleKeys();
      if !ok {
        return;
      }
      assert simpleKeys[|keys| - 1] == Aged(keys[|keys| - 1]);
      UnrollIndent(mark.column);
      ok := Dispatch(l);
    }

    /** yaml_parser_fetch_next_token */
    method FetchNextToken() returns (ok: bool)
      requires Sound() && Caught() && !error && !ended
      modifies this`at, this`mark, this`queue, this`made, this`indent, this`indents, this`simpleKeys, this`simpleKeyAllowed, this`error,
               this`ended, this`flowLevel, this`streamStartProduced
      ensures ok ==> !error && Sound() && Caught() && Left() < old(Left())
      ensures ok <==> old(Fetchable())
      ensures !ok ==> error
    {
      hide KeysOk, KeyOk, Increasing, Nested, Balance, Pick, IndentsOk, InOrder, Placed, StandFor, StandsFor, Good;
      if !streamStartProduced {
        FetchStreamStart();
        return true;
      }
      ghost var n := at;
      var l := ScanToNextToken();
      ghost var before := Seen();
      ok := FetchPiece(l);
      if ok && n < |lexemes| {
        CatchUp(before, l);
      }
    }

    /** The piece that has been read has its token. */
    lemma {:induction false} CatchUp(before: seq<Token>, l: Lexeme)
      requires |made| == |All()| && StandFor(before, lexemes) && |before| < |lexemes| && l == lexemes[|before|]
      requires if l.what.EndOfStream? then ended && Seen() == before
               else !ended && at == |before| + 1 && queue != [] && Seen() == before + [queue[|queue| - 1]]
                    && StandsFor(queue[|queue| - 1], l)
      ensures Caught()
    {
      hide Pick, StandsFor, All;
      if !l.what.EndOfStream? {
        OneMoreStands(before, queue[|queue| - 1], lexemes);
      }
    }

    /** yaml_parser_fetch_more_tokens: until the parser can have the token at the head. */
    method FetchMoreTokens() returns (ok: bool)
      requires Sound() && Caught() && !error && !streamEndProduced
      modifies this`at, this`mark, this`queue, this`made, this`indent, this`indents, this`simpleKeys, this`simpleKeyAllowed, this`error,
               this`ended, this`flowLevel, this`streamStartProduced, this`tokenAvailable
      ensures ok ==> !error && Valid() && tokenAvailable && HeadFree(simpleKeys, tokensParsed, queue)
      ensures !ok ==> error
    {
      hide KeysOk, KeyOk, Increasing, Nested, Balance, Pick, IndentsOk, InOrder, Placed, StandFor, Marked;
      while true
        invariant Sound() && Caught() && !error && !streamEndProduced
        decreases Left()
      {
        var need := queue == [];
        if !need {
          ok := StaleSimpleKeys();
          if !ok {
            return;
          }
          need := exists i :: 0 <= i < |simpleKeys| && simpleKeys[i].possible && simpleKeys[i].number == tokensParsed;
        }
        if !need {
          break;
        }
        ok := FetchNextToken();
        if !ok {
          return;
        }
      }
      tokenAvailable := true;
      ok := true;
    }

    /** SKIP_TOKEN, after PEEK_TOKEN */
    method SkipToken() returns (t: Token)
      requires Valid() && !error && tokenAvailable
      modifies this`queue, this`tokensParsed, this`tokenAvailable, this`streamEndProduced, this`delivered
      ensures Valid() && !error && t == old(queue[0]) && delivered == old(delivered) + [t] && All() == old(All())
      ensures streamEndProduced <==> t.kind.StreamEndToken?
    {
      hide KeyOk, Increasing, Nested, Balance, Pick, IndentsOk, InOrder, Placed;
      t := queue[0];
      LastComesLast();
      KeysTake(simpleKeys, tokensParsed, queue);
      assert delivered + queue == delivered + [t] + queue[1..];
      tokenAvailable := false;
      tokensParsed := tokensParsed + 1;
      streamEndProduced := t.kind.StreamEndToken?;
      queue := queue[1..];
      delivered := delivered + [t];
    }

    lemma {:induction false} LastComesLast()
      requires Ends() && queue != []
      ensures queue[0].kind.StreamEndToken? <==> ended && |queue| == 1
    {
      var n := |All()| - 1;
      assert All()[|delivered|] == queue[0];
      if ended && |queue| > 1 {
        assert All()[..n][|delivered|] == queue[0];
      }
    }

    /** yaml_parser_scan: no tokens after STREAM-END or an error. */
    method Scan() returns (ok: bool, t: Option<Token>)
      requires Valid()
      modifies this
      ensures Valid()
      ensures ok && !old(streamEndProduced) && !old(error) ==> !error && t.Some? && delivered == old(delivered) + [t.value]
      ensures old(streamEndProduced) || old(error) ==> ok && delivered == old(delivered) && error == old(error)
      ensures !ok ==> error && delivered == old(delivered)
    {
      hide Keys, Blocks, Levels, Reading, InOrder, HeadFree;
      t := None;
      ok := true;
      if streamEndProduced || error {
        return;
      }
      if !tokenAvailable {
        ok := FetchMoreTokens();
        if !ok {
          return;
        }
      }
      var head := SkipToken();
      t := Some(head);
    }

    /** At any time the tokens handed over, without the extra ones, stand for the first
        pieces of the text, each once, in order and with their marks. */
    lemma {:induction false} PiecesInOrder()
      requires Valid() && !error
      ensures |delivered| <= |made| && Marked(delivered, made[..|delivered|])
      ensures StandFor(Pick(delivered, made[..|delivered|]), lexemes)
    {
      hide Keys, Levels, Ends, Reading, HeadFree, Nested, Balance, IndentsOk, Pick;
      PickPrefix(delivered, queue, made);
      forall i | 0 <= i < |delivered| && !made[i] ensures Extra(delivered[i].kind) {
        assert delivered[i] == All()[i];
      }
    }

    /** Once STREAM-END is handed over it is the last token and the only one of its kind,
        and no block collection ends that has not started; unless a flow collection is
        still open, each has ended. */
    lemma {:induction false} WholeStream()
      requires Valid() && !error && streamEndProduced
      ensures delivered != [] && delivered[|delivered| - 1].kind.StreamEndToken? && NoEnd(delivered[..|delivered| - 1])
      ensures Nested(delivered) && Balance(delivered) == |indents| && (flowLevel == 0 ==> Balance(delivered) == 0)
      ensures Marked(delivered, made)
      ensures var seen := Pick(delivered, made);
        StandFor(seen, lexemes) && (|seen| == |lexemes| || lexemes[|seen|].what.EndOfStream?)
    {
      assert All() == delivered;
    }
  }
}
