/** The dumper of the YAML library (dumper.c): it serializes a graph of nodes,
    shared and cyclic ones included, as events. */
module YamlDumper {
  import opened CStrings
  import opened Options
  import opened YamlEvents
  import opened YamlLoader

  /** A walk over a graph enters each node once, and comes by again for each
      further reference to it. */
  datatype Step = Into(i: nat) | Again(i: nat) | OutOf(i: nat)

  datatype Walk = Walk(steps: seq<Step>, seen: seq<nat>)

  function Flat(pairs: seq<Pair>): seq<nat> {
    if pairs == [] then [] else [pairs[0].key, pairs[0].value] + Flat(pairs[1..])
  }

  function Children(node: Node): seq<nat> {
    match node
    case ScalarNode(_, _, _) => []
    case SequenceNode(_, items, _) => items
    case MappingNode(_, pairs, _) => Flat(pairs)
  }

  predicate Within(s: seq<nat>, n: nat) {
    forall k :: 0 <= k < |s| ==> 1 <= s[k] <= n
  }

  /** The nodes entered so far, in the order of entering. */
  predicate Entered(seen: seq<nat>, n: nat) {
    Within(seen, n) && forall j, k :: 0 <= j < k < |seen| ==> seen[j] != seen[k]
  }

  lemma {:induction false} FlatWithin(pairs: seq<Pair>, n: nat)
    requires forall i :: 0 <= i < |pairs| ==> 1 <= pairs[i].key <= n && 1 <= pairs[i].value <= n
    ensures Within(Flat(pairs), n)
  {
    if pairs != [] {
      FlatWithin(pairs[1..], n);
    }
  }

  lemma {:induction false} ChildrenWithin(g: seq<Node>, i: nat)
    requires GraphOk(g) && 1 <= i <= |g|
    ensures Within(Children(g[i - 1]), |g|)
  {
    var node := g[i - 1];
    assert NodeOk(node, |g|) && Complete(node);
    if node.MappingNode? {
      FlatWithin(node.pairs, |g|);
    }
  }

  ghost function UpTo(n: nat): (s: set<nat>)
    ensures |s| == n && forall k: nat :: k in s <==> 1 <= k <= n
  {
    if n == 0 then {} else UpTo(n - 1) + {n}
  }

  ghost function Members(s: seq<nat>): set<nat> {
    set k | k in s
  }

  lemma {:induction false} EnteredSize(seen: seq<nat>)
    requires forall j, k :: 0 <= j < k < |seen| ==> seen[j] != seen[k]
    ensures |Members(seen)| == |seen|
  {
    if seen != [] {
      var n := |seen| - 1;
      EnteredSize(seen[..n]);
      assert Members(seen) == Members(seen[..n]) + {seen[n]};
    }
  }

  lemma {:induction false} SubsetSize(a: set<nat>, b: set<nat>)
    requires a <= b
    ensures |a| <= |b|
  {
    if a != {} {
      var x :| x in a;
      SubsetSize(a - {x}, b - {x});
    }
  }

  lemma {:induction false} EnteredFits(seen: seq<nat>, n: nat)
    requires Entered(seen, n)
    ensures |seen| <= n
  {
    EnteredSize(seen);
    SubsetSize(Members(seen), UpTo(n));
  }

  /** There is always room for a node that has not been entered. */
  lemma {:induction false} EnteredRoom(seen: seq<nat>, n: nat, i: nat)
    requires Entered(seen, n) && 1 <= i <= n
    ensures |seen| <= n && (i !in seen ==> |seen| < n && Entered(seen + [i], n))
  {
    EnteredFits(seen, n);
    if i !in seen {
      EnteredFits(seen + [i], n);
    }
  }

  /** The walk from the node `i`, depth first. */
  ghost function Steps(g: seq<Node>, seen: seq<nat>, i: nat): (w: Walk)
    requires GraphOk(g) && Entered(seen, |g|) && 1 <= i <= |g|
    ensures Entered(w.seen, |g|) && seen <= w.seen && i in w.seen
    decreases |g| - |seen|, 0
  {
    EnteredRoom(seen, |g|, i);
    if i in seen then Walk([Again(i)], seen)
    else
      ChildrenWithin(g, i);
      var w := StepsAll(g, seen + [i], Children(g[i - 1]));
      assert (seen + [i])[|seen|] == w.seen[|seen|];
      Walk([Into(i)] + w.steps + [OutOf(i)], w.seen)
  }

  ghost function StepsAll(g: seq<Node>, seen: seq<nat>, todo: seq<nat>): (w: Walk)
    requires GraphOk(g) && Entered(seen, |g|) && Within(todo, |g|)
    ensures Entered(w.seen, |g|) && seen <= w.seen && forall k :: k in todo ==> k in w.seen
    decreases |g| - |seen|, 1, |todo|
  {
    if todo == [] then Walk([], seen)
    else
      var a := Steps(g, seen, todo[0]);
      EnteredRoom(a.seen, |g|, todo[0]);
      var b := StepsAll(g, a.seen, todo[1..]);
      Walk(a.steps + b.steps, b.seen)
  }

  /** The walk through the references `todo`, and then through one more. */
  lemma {:induction false} StepsAllLast(g: seq<Node>, seen: seq<nat>, todo: seq<nat>, i: nat)
    requires GraphOk(g) && Entered(seen, |g|) && Within(todo, |g|) && 1 <= i <= |g|
    ensures var a := StepsAll(g, seen, todo);
            var b := Steps(g, a.seen, i);
            StepsAll(g, seen, todo + [i]) == Walk(a.steps + b.steps, b.seen)
    decreases |todo|
  {
    hide GraphOk, Entered, Steps;
    if todo == [] {
      assert todo + [i] == [i] && [i][1..] == [];
      var b := Steps(g, seen, i);
      assert StepsAll(g, b.seen, []) == Walk([], b.seen);
    } else {
      var a := Steps(g, seen, todo[0]);
      var t := todo + [i];
      assert t[0] == todo[0] && t[1..] == todo[1..] + [i];
      StepsAllLast(g, a.seen, todo[1..], i);
      var c := StepsAll(g, a.seen, todo[1..]);
      var b := Steps(g, c.seen, i);
      assert a.steps + (c.steps + b.steps) == (a.steps + c.steps) + b.steps;
    }
  }

  function VisitsTo(steps: seq<Step>, k: nat): nat {
    if steps == [] then 0
    else VisitsTo(steps[1..], k) + if steps[0] == Into(k) || steps[0] == Again(k) then 1 else 0
  }

  function AgainsTo(steps: seq<Step>, k: nat): nat {
    if steps == [] then 0
    else AgainsTo(steps[1..], k) + if steps[0] == Again(k) then 1 else 0
  }

  lemma {:induction false} VisitsTwo(a: seq<Step>, b: seq<Step>, k: nat)
    ensures VisitsTo(a + b, k) == VisitsTo(a, k) + VisitsTo(b, k)
    ensures AgainsTo(a + b, k) == AgainsTo(a, k) + AgainsTo(b, k)
  {
    if a == [] {
      assert a + b == b;
    } else {
      assert (a + b)[1..] == a[1..] + b;
      VisitsTwo(a[1..], b, k);
    }
  }

  lemma {:induction false} VisitsOne(s: Step, k: nat)
    ensures VisitsTo([s], k) == if s == Into(k) || s == Again(k) then 1 else 0
    ensures AgainsTo([s], k) == if s == Again(k) then 1 else 0
  {
    assert VisitsTo([s][1..], k) == 0 && AgainsTo([s][1..], k) == 0;
  }

  /** A walk enters each node that it reaches first once, and no other. */
  lemma {:induction false} OnceInto(g: seq<Node>, seen: seq<nat>, i: nat, k: nat)
    requires GraphOk(g) && Entered(seen, |g|) && 1 <= i <= |g|
    ensures var w := Steps(g, seen, i);
            && VisitsTo(w.steps, k) == AgainsTo(w.steps, k) + (if k in w.seen && k !in seen then 1 else 0)
            && (AgainsTo(w.steps, k) > 0 ==> k in w.seen)
    decreases |g| - |seen|, 0
  {
    hide GraphOk, Entered;
    EnteredRoom(seen, |g|, i);
    if i in seen {
      VisitsOne(Again(i), k);
    } else {
      ChildrenWithin(g, i);
      var w := StepsAll(g, seen + [i], Children(g[i - 1]));
      OnceIntoAll(g, seen + [i], Children(g[i - 1]), k);
      VisitsTwo([Into(i)], w.steps, k);
      VisitsTwo([Into(i)] + w.steps, [OutOf(i)], k);
      VisitsOne(Into(i), k);
      VisitsOne(OutOf(i), k);
      assert i in Steps(g, seen, i).seen;
    }
  }

  lemma {:induction false} OnceIntoAll(g: seq<Node>, seen: seq<nat>, todo: seq<nat>, k: nat)
    requires GraphOk(g) && Entered(seen, |g|) && Within(todo, |g|)
    ensures var w := StepsAll(g, seen, todo);
            && VisitsTo(w.steps, k) == AgainsTo(w.steps, k) + (if k in w.seen && k !in seen then 1 else 0)
            && (AgainsTo(w.steps, k) > 0 ==> k in w.seen)
    decreases |g| - |seen|, 1, |todo|
  {
    hide GraphOk, Entered;
    if todo != [] {
      var a := Steps(g, seen, todo[0]);
      EnteredRoom(a.seen, |g|, todo[0]);
      OnceInto(g, seen, todo[0], k);
      var b := StepsAll(g, a.seen, todo[1..]);
      OnceIntoAll(g, a.seen, todo[1..], k);
      VisitsTwo(a.steps, b.steps, k);
    }
  }

  /** yaml_anchors_t */
  datatype Anchors = Anchors(references: nat, anchor: nat, serialized: bool)

  /** The reference counts after a walk that has entered `seen`: a node referred
      to twice has an anchor of its own. */
  ghost predicate Counted(a: seq<Anchors>, last: nat, seen: seq<nat>) {
    && (forall k :: 0 <= k < |a| ==> (a[k].references > 0 <==> k + 1 in seen) && (a[k].anchor > 0 <==> a[k].references > 1))
    && (forall k :: 0 <= k < |a| ==> a[k].anchor <= last && !a[k].serialized)
    && (forall j, k :: 0 <= j < k < |a| && a[j].anchor > 0 ==> a[j].anchor != a[k].anchor)
  }

  /** The references that the steps of a walk have added. */
  ghost predicate Grew(a: seq<Anchors>, b: seq<Anchors>, steps: seq<Step>) {
    |a| == |b| && forall k :: 1 <= k <= |a| ==> b[k - 1].references == a[k - 1].references + VisitsTo(steps, k)
  }

  lemma {:induction false} GrewTwo(a: seq<Anchors>, b: seq<Anchors>, c: seq<Anchors>, s: seq<Step>, t: seq<Step>)
    requires Grew(a, b, s) && Grew(b, c, t)
    ensures Grew(a, c, s + t)
  {
    forall k | 1 <= k <= |a|
      ensures c[k - 1].references == a[k - 1].references + VisitsTo(s + t, k)
    {
      VisitsTwo(s, t, k);
    }
  }

  lemma {:induction false} GrewNot(a: seq<Anchors>, i: nat)
    ensures Grew(a, a, []) && Grew(a, a, [OutOf(i)])
  {
    forall k | 1 <= k <= |a|
      ensures VisitsTo([], k) == VisitsTo([OutOf(i)], k) == 0
    {
      VisitsOne(OutOf(i), k);
    }
  }

  lemma {:induction false} FlatLast(pairs: seq<Pair>, p: Pair)
    ensures Flat(pairs + [p]) == Flat(pairs) + [p.key] + [p.value]
  {
    if pairs == [] {
      assert [p][1..] == [] && pairs + [p] == [p];
    } else {
      assert (pairs + [p])[1..] == pairs[1..] + [p];
      FlatLast(pairs[1..], p);
    }
  }

  lemma {:induction false} WithinAt(s: seq<nat>, j: nat, n: nat)
    requires Within(s, n) && j < |s|
    ensures 1 <= s[j] <= n && Within(s[..j], n) && Within([], n)
  {
  }

  lemma {:induction false} FlatTwo(a: seq<Pair>, b: seq<Pair>)
    ensures Flat(a + b) == Flat(a) + Flat(b)
  {
    if a == [] {
      assert a + b == b;
    } else {
      assert (a + b)[1..] == a[1..] + b;
      FlatTwo(a[1..], b);
    }
  }

  lemma {:induction false} FlatNext(pairs: seq<Pair>, j: nat)
    requires j < |pairs|
    ensures Flat(pairs[..j + 1]) == Flat(pairs[..j]) + [pairs[j].key] + [pairs[j].value]
  {
    FlatLast(pairs[..j], pairs[j]);
    assert pairs[..j + 1] == pairs[..j] + [pairs[j]];
  }

  lemma {:induction false} FlatMore(pairs: seq<Pair>, j: nat)
    requires j <= |pairs|
    ensures Flat(pairs[..j]) <= Flat(pairs)
  {
    hide Flat;
    FlatTwo(pairs[..j], pairs[j..]);
    assert pairs[..j] + pairs[j..] == pairs;
  }

  lemma {:induction false} WithinPrefix(a: seq<nat>, b: seq<nat>, n: nat)
    requires Within(b, n) && a <= b
    ensures Within(a, n)
  {
    assert forall k :: 0 <= k < |a| ==> a[k] == b[k];
  }

  lemma {:induction false} FlatAt(pairs: seq<Pair>, j: nat, n: nat)
    requires Within(Flat(pairs), n) && j < |pairs|
    ensures 1 <= pairs[j].key <= n && 1 <= pairs[j].value <= n
    ensures Flat(pairs[..j + 1]) == Flat(pairs[..j]) + [pairs[j].key] + [pairs[j].value]
  {
    hide Flat;
    FlatNext(pairs, j);
    FlatMore(pairs, j + 1);
    var a := Flat(pairs[..j + 1]);
    WithinPrefix(a, Flat(pairs), n);
    assert a[|a| - 2] == pairs[j].key && a[|a| - 1] == pairs[j].value;
  }

  /** The decimal digits of a number. */
  function Digits(n: nat): (s: CString)
    ensures s != []
  {
    if n < 10 then [(48 + n) as byte] else Digits(n / 10) + [(48 + n % 10) as byte]
  }

  /** At least three places, with zeros in front. */
  function Padded(s: CString): CString {
    if |s| == 1 then [48, 48] + s else if |s| == 2 then [48] + s else s
  }

  /** yaml_emitter_generate_anchor: "id%03d" */
  function AnchorName(id: nat): CString {
    [105, 100] + Padded(Digits(id))
  }

  function Number(s: seq<byte>): int {
    if s == [] then 0 else 10 * Number(s[..|s| - 1]) + (s[|s| - 1] as int - 48)
  }

  lemma {:induction false} NumberOfDigits(n: nat)
    ensures Number(Digits(n)) == n
  {
    if n >= 10 {
      NumberOfDigits(n / 10);
    }
  }

  lemma {:induction false} NumberOfPadded(s: CString, zeros: seq<byte>)
    requires forall k :: 0 <= k < |zeros| ==> zeros[k] == 48
    ensures Number(zeros + s) == Number(s)
  {
    if s == [] {
      if zeros != [] {
        NumberOfPadded(s, zeros[..|zeros| - 1]);
        assert (zeros + s)[..|zeros + s| - 1] == zeros[..|zeros| - 1] + s;
      }
    } else {
      NumberOfPadded(s[..|s| - 1], zeros);
      assert (zeros + s)[..|zeros + s| - 1] == zeros + s[..|s| - 1];
    }
  }

  /** Different anchors have different names. */
  lemma {:induction false} NamesDiffer(a: nat, b: nat)
    ensures AnchorName(a) == AnchorName(b) <==> a == b
  {
    if AnchorName(a) == AnchorName(b) {
      NumberOfDigits(a);
      NumberOfDigits(b);
      var da, db := Digits(a), Digits(b);
      NumberOfPadded(da, [48, 48]);
      NumberOfPadded(da, [48]);
      NumberOfPadded(db, [48, 48]);
      NumberOfPadded(db, [48]);
      assert AnchorName(a)[2..] == Padded(da) && AnchorName(b)[2..] == Padded(db);
    }
  }

  /** The name of any anchor number fits the 16 bytes reserved for it. */
  lemma {:induction false} NameFits(id: nat)
    requires id < 0x8000_0000
    ensures |AnchorName(id)| + 1 <= 16
  {
    DigitsFit(id, 10, 10000000000);
  }

  lemma {:induction false} DigitsFit(n: nat, places: nat, limit: nat)
    requires limit == TenTo(places) && n < limit && places > 0
    ensures |Digits(n)| <= places
  {
    if n >= 10 {
      DigitsFit(n / 10, places - 1, TenTo(places - 1));
    }
  }

  function TenTo(n: nat): nat {
    if n == 0 then 1 else 10 * TenTo(n - 1)
  }

  /** The anchor of a node, from the anchor numbers of all nodes. */
  function AnchorOf(ids: seq<nat>, i: nat): Option<CString> {
    if 1 <= i <= |ids| && ids[i - 1] > 0 then Some(AnchorName(ids[i - 1])) else None
  }

  /** The event that starts a node, or is the whole of it. */
  function StartOf(node: Node, anchor: Option<CString>): Event {
    match node
    case ScalarNode(tag, value, style) => Scalar(anchor, Some(tag), value, tag == SCALAR_TAG, tag == SCALAR_TAG, style)
    case SequenceNode(tag, _, style) => SequenceStart(anchor, Some(tag), tag == SEQUENCE_TAG, style)
    case MappingNode(tag, _, style) => MappingStart(anchor, Some(tag), tag == MAPPING_TAG, style)
  }

  function EndEvents(node: Node): seq<Event> {
    if node.SequenceNode? then [SequenceEnd] else if node.MappingNode? then [MappingEnd] else []
  }

  ghost function StepEvents(g: seq<Node>, ids: seq<nat>, s: Step): seq<Event>
    requires s.Again? ==> AnchorOf(ids, s.i).Some?
  {
    if !(1 <= s.i <= |g|) then []
    else
      match s
      case Into(i) => [StartOf(g[i - 1], AnchorOf(ids, i))]
      case Again(i) => [Alias(AnchorOf(ids, i).value)]
      case OutOf(i) => EndEvents(g[i - 1])
  }

  /** Where a walk comes by again there is an anchor. */
  ghost predicate Named(ids: seq<nat>, steps: seq<Step>) {
    forall s :: s in steps && s.Again? ==> AnchorOf(ids, s.i).Some?
  }

  /** The events of a walk. */
  ghost function Emit(g: seq<Node>, ids: seq<nat>, steps: seq<Step>): seq<Event>
    requires Named(ids, steps)
  {
    if steps == [] then [] else StepEvents(g, ids, steps[0]) + Emit(g, ids, steps[1..])
  }

  lemma {:induction false} EmitTwo(g: seq<Node>, ids: seq<nat>, a: seq<Step>, b: seq<Step>)
    requires Named(ids, a + b)
    ensures Named(ids, a) && Named(ids, b) && Emit(g, ids, a + b) == Emit(g, ids, a) + Emit(g, ids, b)
  {
    NamedTwo(ids, a, b);
    hide Named, StepEvents;
    if a == [] {
      assert a + b == b;
    } else {
      assert [a[0]] + a[1..] == a && a + b == [a[0]] + (a[1..] + b);
      NamedTwo(ids, [a[0]], a[1..]);
      NamedTwo(ids, [a[0]], a[1..] + b);
      assert (a + b)[1..] == a[1..] + b;
      EmitTwo(g, ids, a[1..], b);
    }
  }

  lemma {:induction false} NamedTwo(ids: seq<nat>, a: seq<Step>, b: seq<Step>)
    requires Named(ids, a + b)
    ensures Named(ids, a) && Named(ids, b)
  {
    assert forall s :: s in a || s in b ==> s in a + b;
  }

  lemma {:induction false} EmitOne(g: seq<Node>, ids: seq<nat>, s: Step)
    requires s.Again? ==> AnchorOf(ids, s.i).Some?
    ensures Named(ids, [s]) && Emit(g, ids, [s]) == StepEvents(g, ids, s)
  {
    assert [s][1..] == [] && Emit(g, ids, []) == [];
  }

  /** The walk through more references begins with that through some of them. */
  lemma {:induction false} StepsAllPrefix(g: seq<Node>, seen: seq<nat>, a: seq<nat>, b: seq<nat>)
    requires GraphOk(g) && Entered(seen, |g|) && Within(a + b, |g|)
    ensures Within(a, |g|) && StepsAll(g, seen, a).steps <= StepsAll(g, seen, a + b).steps
    decreases |b|
  {
    WithinPrefix(a, a + b, |g|);
    if b == [] {
      assert a + b == a;
    } else {
      var n := |b| - 1;
      var c := a + b[..n];
      assert c + [b[n]] == a + b;
      WithinPrefix(c, a + b, |g|);
      assert (a + b)[|a| + n] == b[n];
      StepsAllPrefix(g, seen, a, b[..n]);
      StepsAllLast(g, seen, c, b[n]);
    }
  }

  lemma {:induction false} NamedPrefix(ids: seq<nat>, a: seq<Step>, b: seq<Step>)
    requires Named(ids, b) && a <= b
    ensures Named(ids, a)
  {
    assert b == a + b[|a|..];
    NamedTwo(ids, a, b[|a|..]);
  }

  /** The nodes serialized are those entered, and the anchors have the numbers `ids`. */
  ghost predicate Serialized(a: seq<Anchors>, ids: seq<nat>, seen: seq<nat>) {
    && |a| == |ids| && (forall k :: 0 <= k < |a| ==> a[k].anchor == ids[k])
    && (forall k :: 0 <= k < |a| ==> (a[k].serialized <==> k + 1 in seen))
  }

  lemma {:induction false} EmitEnds(g: seq<Node>, ids: seq<nat>, i: nat)
    requires 1 <= i <= |g|
    ensures Named(ids, [Into(i)]) && Named(ids, [OutOf(i)])
    ensures Emit(g, ids, [Into(i)]) == [StartOf(g[i - 1], AnchorOf(ids, i))] && Emit(g, ids, [OutOf(i)]) == EndEvents(g[i - 1])
  {
    hide AnchorOf, StartOf, EndEvents, Named, Emit;
    EmitOne(g, ids, Into(i));
    EmitOne(g, ids, OutOf(i));
  }

  lemma {:induction false} EmitInside(g: seq<Node>, ids: seq<nat>, i: nat, inside: seq<Step>)
    requires 1 <= i <= |g| && Named(ids, [Into(i)] + inside + [OutOf(i)])
    ensures Named(ids, inside)
    ensures Emit(g, ids, [Into(i)] + inside + [OutOf(i)]) ==
            [StartOf(g[i - 1], AnchorOf(ids, i))] + Emit(g, ids, inside) + EndEvents(g[i - 1])
  {
    EmitEnds(g, ids, i);
    hide *;
    EmitTwo(g, ids, [Into(i)] + inside, [OutOf(i)]);
    EmitTwo(g, ids, [Into(i)], inside);
  }

  /** The events of one more child. */
  lemma {:induction false} NextChild(g: seq<Node>, ids: seq<nat>, seen: seq<nat>, done: seq<nat>, i: nat, all: seq<nat>)
    requires GraphOk(g) && Entered(seen, |g|) && Within(all, |g|) && Within(done, |g|) && 1 <= i <= |g|
    requires done + [i] <= all && Named(ids, StepsAll(g, seen, all).steps) && Named(ids, StepsAll(g, seen, done).steps)
    ensures var w := StepsAll(g, seen, done);
            var s := Steps(g, w.seen, i);
            && Within(done + [i], |g|) && Named(ids, s.steps) && |seen| <= |w.seen| <= |g|
            && StepsAll(g, seen, done + [i]).seen == s.seen && Named(ids, StepsAll(g, seen, done + [i]).steps)
            && Emit(g, ids, StepsAll(g, seen, done + [i]).steps) == Emit(g, ids, w.steps) + Emit(g, ids, s.steps)
  {
    hide GraphOk, Entered, Named, Emit;
    var w := StepsAll(g, seen, done);
    var more := done + [i];
    WithinPrefix(more, all, |g|);
    EnteredFits(w.seen, |g|);
    StepsAllLast(g, seen, done, i);
    assert more + all[|more|..] == all;
    StepsAllPrefix(g, seen, more, all[|more|..]);
    NamedPrefix(ids, StepsAll(g, seen, more).steps, StepsAll(g, seen, all).steps);
    EmitTwo(g, ids, w.steps, Steps(g, w.seen, i).steps);
  }

  /** The walk from a node that is entered, and its events. */
  lemma {:induction false} IntoNode(g: seq<Node>, ids: seq<nat>, seen: seq<nat>, i: nat)
    requires GraphOk(g) && Entered(seen, |g|) && 1 <= i <= |g| && i !in seen && Named(ids, Steps(g, seen, i).steps)
    ensures |seen| < |g| && Entered(seen + [i], |g|) && Within(Children(g[i - 1]), |g|)
    ensures var w := StepsAll(g, seen + [i], Children(g[i - 1]));
            && Steps(g, seen, i).seen == w.seen && Named(ids, w.steps)
            && Emit(g, ids, Steps(g, seen, i).steps) ==
               [StartOf(g[i - 1], AnchorOf(ids, i))] + Emit(g, ids, w.steps) + EndEvents(g[i - 1])
  {
    EnteredRoom(seen, |g|, i);
    ChildrenWithin(g, i);
    var w := StepsAll(g, seen + [i], Children(g[i - 1]));
    assert Steps(g, seen, i) == Walk([Into(i)] + w.steps + [OutOf(i)], w.seen);
    hide *;
    EmitInside(g, ids, i, w.steps);
  }

  lemma {:induction false} AgainNode(g: seq<Node>, ids: seq<nat>, seen: seq<nat>, i: nat)
    requires GraphOk(g) && Entered(seen, |g|) && 1 <= i <= |g| && i in seen && Named(ids, Steps(g, seen, i).steps)
    ensures AnchorOf(ids, i).Some? && Steps(g, seen, i).seen == seen
    ensures Emit(g, ids, Steps(g, seen, i).steps) == [Alias(AnchorOf(ids, i).value)]
  {
    assert Again(i) in Steps(g, seen, i).steps;
    EmitOne(g, ids, Again(i));
  }

  lemma {:induction false} AgainsIn(steps: seq<Step>, k: nat)
    requires Again(k) in steps
    ensures AgainsTo(steps, k) > 0
  {
    if steps[0] != Again(k) {
      AgainsIn(steps[1..], k);
    }
  }

  /** The anchor numbers of a dump: just the nodes with more than one reference
      have one, and no two have the same. */
  ghost predicate Anchored(g: seq<Node>, ids: seq<nat>) {
    && GraphOk(g) && Entered([], |g|) && |ids| == |g|
    && (forall k :: 1 <= k <= |g| ==> (ids[k - 1] > 0 <==> AgainsTo(Steps(g, [], 1).steps, k) > 0))
    && (forall j, k :: 0 <= j < k < |ids| && ids[j] > 0 ==> ids[j] != ids[k])
  }

  lemma {:induction false} AnchoredNamed(g: seq<Node>, ids: seq<nat>)
    requires Anchored(g, ids)
    ensures Named(ids, Steps(g, [], 1).steps)
  {
    var w := Steps(g, [], 1);
    forall s | s in w.steps && s.Again?
      ensures AnchorOf(ids, s.i).Some?
    {
      AgainsIn(w.steps, s.i);
      OnceInto(g, [], 1, s.i);
      assert s.i in w.seen;
    }
  }

  /** What the reference counts of a whole walk say about the anchors. */
  lemma {:induction false} CountedAnchored(g: seq<Node>, zero: seq<Anchors>, a: seq<Anchors>, last: nat)
    requires GraphOk(g) && |zero| == |g| == |a| && forall k :: 0 <= k < |g| ==> zero[k].references == 0
    requires Counted(a, last, Steps(g, [], 1).seen) && Grew(zero, a, Steps(g, [], 1).steps)
    ensures Anchored(g, NumbersOf(a)) && Serialized(a, NumbersOf(a), [])
  {
    hide GraphOk;
    var steps := Steps(g, [], 1).steps;
    forall k | 1 <= k <= |g|
      ensures a[k - 1].anchor > 0 <==> AgainsTo(steps, k) > 0
    {
      OnceInto(g, [], 1, k);
      assert a[k - 1].references == zero[k - 1].references + VisitsTo(steps, k);
    }
  }

  function NumbersOf(a: seq<Anchors>): seq<nat> {
    seq(|a|, k requires 0 <= k < |a| => a[k].anchor)
  }

  class Emitter {
    var nodes: seq<Node>
    var anchors: array<Anchors>
    var lastAnchorId: nat
    var isOpened: bool
    var isClosed: bool
    var events: seq<Event>

    /** The part of yaml_emitter_anchor_node for the node itself. */
    method CountReference(index: nat, ghost seen: seq<nat>) returns (first: bool)
      requires 1 <= index <= anchors.Length && Counted(anchors[..], lastAnchorId, seen)
      modifies anchors, `lastAnchorId
      ensures first <==> index !in seen
      ensures Counted(anchors[..], lastAnchorId, if first then seen + [index] else seen)
      ensures Grew(old(anchors[..]), anchors[..], [if first then Into(index) else Again(index)])
    {
      ghost var a := anchors[..];
      var k := index - 1;
      anchors[k] := anchors[k].(references := anchors[k].references + 1);
      first := anchors[k].references == 1;
      if anchors[k].references == 2 {
        lastAnchorId := lastAnchorId + 1;
        anchors[k] := anchors[k].(anchor := lastAnchorId);
      }
      ghost var step := if first then Into(index) else Again(index);
      forall j | 1 <= j <= |a|
        ensures VisitsTo([step], j) == if j == index then 1 else 0
      {
        VisitsOne(step, j);
      }
    }

    /** yaml_emitter_anchor_node */
    method AnchorNode(index: nat, ghost seen: seq<nat>)
      requires GraphOk(nodes) && Entered(seen, |nodes|) && 1 <= index <= |nodes| == anchors.Length
      requires Counted(anchors[..], lastAnchorId, seen)
      modifies anchors, `lastAnchorId
      ensures var w := Steps(nodes, seen, index);
              Counted(anchors[..], lastAnchorId, w.seen) && Grew(old(anchors[..]), anchors[..], w.steps)
      decreases |nodes| - |seen|, 0, 0
    {
      hide GraphOk, Entered, Counted, Grew, Within;
      ghost var a := anchors[..];
      EnteredRoom(seen, |nodes|, index);
      var first := CountReference(index, seen);
      if first {
        ghost var b := anchors[..];
        ChildrenWithin(nodes, index);
        ghost var inside := StepsAll(nodes, seen + [index], Children(nodes[index - 1]));
        AnchorChildren(nodes[index - 1], seen + [index]);
        GrewTwo(a, b, anchors[..], [Into(index)], inside.steps);
        GrewNot(anchors[..], index);
        GrewTwo(a, anchors[..], anchors[..], [Into(index)] + inside.steps, [OutOf(index)]);
      }
    }

    /** The loops of yaml_emitter_anchor_node over the children of a node. */
    method AnchorChildren(node: Node, ghost seen: seq<nat>)
      requires GraphOk(nodes) && Entered(seen, |nodes|) && |nodes| == anchors.Length && Within(Children(node), |nodes|)
      requires Counted(anchors[..], lastAnchorId, seen)
      modifies anchors, `lastAnchorId
      ensures var w := StepsAll(nodes, seen, Children(node));
              Counted(anchors[..], lastAnchorId, w.seen) && Grew(old(anchors[..]), anchors[..], w.steps)
      decreases |nodes| - |seen|, 2
    {
      match node {
        case SequenceNode(_, items, _) => AnchorItems(items, seen);
        case MappingNode(_, pairs, _) => AnchorPairs(pairs, seen);
        case ScalarNode(_, _, _) => GrewNot(anchors[..], 0);
      }
    }

    method AnchorItems(items: seq<nat>, ghost seen: seq<nat>)
      requires GraphOk(nodes) && Entered(seen, |nodes|) && |nodes| == anchors.Length && Within(items, |nodes|)
      requires Counted(anchors[..], lastAnchorId, seen)
      modifies anchors, `lastAnchorId
      ensures var w := StepsAll(nodes, seen, items);
              Counted(anchors[..], lastAnchorId, w.seen) && Grew(old(anchors[..]), anchors[..], w.steps)
      decreases |nodes| - |seen|, 1
    {
      hide GraphOk, Entered, Counted, Grew;
      ghost var a := anchors[..];
      GrewNot(a, 0);
      assert items[..0] == [];
      for j := 0 to |items|
        invariant Within(items[..j], |nodes|)
        invariant Counted(anchors[..], lastAnchorId, StepsAll(nodes, seen, items[..j]).seen)
        invariant Grew(a, anchors[..], StepsAll(nodes, seen, items[..j]).steps)
      {
        WithinAt(items, j, |nodes|);
        AnchorOne(items[j], seen, items[..j], a);
        assert items[..j + 1] == items[..j] + [items[j]];
      }
      assert items[..|items|] == items;
    }

    method AnchorPairs(pairs: seq<Pair>, ghost seen: seq<nat>)
      requires GraphOk(nodes) && Entered(seen, |nodes|) && |nodes| == anchors.Length && Within(Flat(pairs), |nodes|)
      requires Counted(anchors[..], lastAnchorId, seen)
      modifies anchors, `lastAnchorId
      ensures var w := StepsAll(nodes, seen, Flat(pairs));
              Counted(anchors[..], lastAnchorId, w.seen) && Grew(old(anchors[..]), anchors[..], w.steps)
      decreases |nodes| - |seen|, 1
    {
      hide GraphOk, Entered, Counted, Grew;
      ghost var a := anchors[..];
      GrewNot(a, 0);
      assert pairs[..0] == [] && Flat([]) == [];
      for j := 0 to |pairs|
        invariant Within(Flat(pairs[..j]), |nodes|)
        invariant Counted(anchors[..], lastAnchorId, StepsAll(nodes, seen, Flat(pairs[..j])).seen)
        invariant Grew(a, anchors[..], StepsAll(nodes, seen, Flat(pairs[..j])).steps)
      {
        FlatAt(pairs, j, |nodes|);
        ghost var done := Flat(pairs[..j]);
        AnchorOne(pairs[j].key, seen, done, a);
        AnchorOne(pairs[j].value, seen, done + [pairs[j].key], a);
        assert done + [pairs[j].key] + [pairs[j].value] == Flat(pairs[..j + 1]);
      }
      assert pairs[..|pairs|] == pairs;
    }

    /** One child, after those in `done`. */
    method AnchorOne(index: nat, ghost seen: seq<nat>, ghost done: seq<nat>, ghost a: seq<Anchors>)
      requires GraphOk(nodes) && Entered(seen, |nodes|) && |nodes| == anchors.Length
      requires 1 <= index <= |nodes| && Within(done, |nodes|)
      requires Counted(anchors[..], lastAnchorId, StepsAll(nodes, seen, done).seen)
      requires Grew(a, anchors[..], StepsAll(nodes, seen, done).steps)
      modifies anchors, `lastAnchorId
      ensures Within(done + [index], |nodes|)
      ensures Counted(anchors[..], lastAnchorId, StepsAll(nodes, seen, done + [index]).seen)
      ensures Grew(a, anchors[..], StepsAll(nodes, seen, done + [index]).steps)
      decreases |nodes| - |seen|, 0, 1
    {
      ghost var b := anchors[..];
      ghost var w := StepsAll(nodes, seen, done);
      hide GraphOk, Entered, Counted, Grew;
      EnteredFits(seen, |nodes|);
      EnteredFits(w.seen, |nodes|);
      AnchorNode(index, w.seen);
      GrewTwo(a, b, anchors[..], w.steps, Steps(nodes, w.seen, index).steps);
      StepsAllLast(nodes, seen, done, index);
    }

    /** yaml_emitter_emit: the event goes out. */
    method EmitEvent(e: Event)
      modifies `events
      ensures events == old(events) + [e]
    {
      events := events + [e];
    }

    /** A node is marked as serialized. */
    method MarkSerialized(index: nat, ghost seen: seq<nat>, ghost ids: seq<nat>)
      requires 1 <= index <= anchors.Length && Serialized(anchors[..], ids, seen)
      modifies anchors
      ensures Serialized(anchors[..], ids, seen + [index])
    {
      anchors[index - 1] := anchors[index - 1].(serialized := true);
    }

    /** yaml_emitter_dump_node */
    method DumpNode(index: nat, ghost seen: seq<nat>, ghost ids: seq<nat>)
      requires GraphOk(nodes) && Entered(seen, |nodes|) && 1 <= index <= |nodes| == anchors.Length
      requires Serialized(anchors[..], ids, seen) && Named(ids, Steps(nodes, seen, index).steps)
      modifies anchors, `events
      ensures var w := Steps(nodes, seen, index);
              Serialized(anchors[..], ids, w.seen) && events == old(events) + Emit(nodes, ids, w.steps)
      decreases |nodes| - |seen|, 0, 0
    {
      var node := nodes[index - 1];
      var anchorId := anchors[index - 1].anchor;
      var anchor := if anchorId > 0 then Some(AnchorName(anchorId)) else None;
      assert anchor == AnchorOf(ids, index) && (anchors[index - 1].serialized <==> index in seen);
      hide GraphOk, Entered, Within, Serialized, Named, Emit, Steps, StepsAll, StartOf;
      if anchors[index - 1].serialized {
        AgainNode(nodes, ids, seen, index);
        EmitEvent(Alias(anchor.value));
      } else {
        IntoNode(nodes, ids, seen, index);
        MarkSerialized(index, seen, ids);
        DumpContent(node, anchor, seen + [index], ids);
      }
    }

    /** yaml_emitter_dump_scalar, _sequence and _mapping */
    method DumpContent(node: Node, anchor: Option<CString>, ghost seen: seq<nat>, ghost ids: seq<nat>)
      requires GraphOk(nodes) && Entered(seen, |nodes|) && |nodes| == anchors.Length && Within(Children(node), |nodes|)
      requires Serialized(anchors[..], ids, seen) && Named(ids, StepsAll(nodes, seen, Children(node)).steps)
      modifies anchors, `events
      ensures var w := StepsAll(nodes, seen, Children(node));
              && Serialized(anchors[..], ids, w.seen)
              && events == old(events) + ([StartOf(node, anchor)] + Emit(nodes, ids, w.steps) + EndEvents(node))
      decreases |nodes| - |seen|, 3
    {
      hide GraphOk, Entered, Within, Serialized, Named, Emit, Steps, StepsAll, StartOf, Children;
      EmitEvent(StartOf(node, anchor));
      DumpChildren(node, seen, ids);
      if node.SequenceNode? {
        EmitEvent(SequenceEnd);
      } else if node.MappingNode? {
        EmitEvent(MappingEnd);
      }
    }

    /** The loops over the children of a node. */
    method DumpChildren(node: Node, ghost seen: seq<nat>, ghost ids: seq<nat>)
      requires GraphOk(nodes) && Entered(seen, |nodes|) && |nodes| == anchors.Length && Within(Children(node), |nodes|)
      requires Serialized(anchors[..], ids, seen) && Named(ids, StepsAll(nodes, seen, Children(node)).steps)
      modifies anchors, `events
      ensures var w := StepsAll(nodes, seen, Children(node));
              Serialized(anchors[..], ids, w.seen) && events == old(events) + Emit(nodes, ids, w.steps)
      decreases |nodes| - |seen|, 2
    {
      match node {
        case SequenceNode(_, items, _) => DumpItems(items, seen, ids);
        case MappingNode(_, pairs, _) => DumpPairs(pairs, seen, ids);
        case ScalarNode(_, _, _) =>
      }
    }

    /** One child, after those in `done`, of those in `all`. */
    method DumpOne(index: nat, ghost seen: seq<nat>, ghost ids: seq<nat>, ghost done: seq<nat>, ghost all: seq<nat>, ghost start: seq<Event>)
      requires GraphOk(nodes) && Entered(seen, |nodes|) && |nodes| == anchors.Length && Within(all, |nodes|)
      requires done + [index] <= all && Within(done, |nodes|) && 1 <= index <= |nodes|
      requires Named(ids, StepsAll(nodes, seen, all).steps) && Named(ids, StepsAll(nodes, seen, done).steps)
      requires Serialized(anchors[..], ids, StepsAll(nodes, seen, done).seen)
      requires events == start + Emit(nodes, ids, StepsAll(nodes, seen, done).steps)
      modifies anchors, `events
      ensures Within(done + [index], |nodes|)
      ensures Named(ids, StepsAll(nodes, seen, done + [index]).steps)
      ensures Serialized(anchors[..], ids, StepsAll(nodes, seen, done + [index]).seen)
      ensures events == start + Emit(nodes, ids, StepsAll(nodes, seen, done + [index]).steps)
      decreases |nodes| - |seen|, 0, 1
    {
      hide GraphOk, Entered, Serialized, Named, Steps, StepsAll, Emit, Within;
      ghost var w := StepsAll(nodes, seen, done);
      NextChild(nodes, ids, seen, done, index, all);
      DumpNode(index, w.seen, ids);
    }

    method DumpItems(items: seq<nat>, ghost seen: seq<nat>, ghost ids: seq<nat>)
      requires GraphOk(nodes) && Entered(seen, |nodes|) && |nodes| == anchors.Length && Within(items, |nodes|)
      requires Serialized(anchors[..], ids, seen) && Named(ids, StepsAll(nodes, seen, items).steps)
      modifies anchors, `events
      ensures var w := StepsAll(nodes, seen, items);
              Serialized(anchors[..], ids, w.seen) && events == old(events) + Emit(nodes, ids, w.steps)
      decreases |nodes| - |seen|, 1
    {
      hide GraphOk, Entered, Serialized;
      assert items[..0] == [];
      for j := 0 to |items|
        invariant Within(items[..j], |nodes|) && Named(ids, StepsAll(nodes, seen, items[..j]).steps)
        invariant Serialized(anchors[..], ids, StepsAll(nodes, seen, items[..j]).seen)
        invariant events == old(events) + Emit(nodes, ids, StepsAll(nodes, seen, items[..j]).steps)
      {
        WithinAt(items, j, |nodes|);
        assert items[..j + 1] == items[..j] + [items[j]];
        DumpOne(items[j], seen, ids, items[..j], items, old(events));
      }
      assert items[..|items|] == items;
    }

    method DumpPairs(pairs: seq<Pair>, ghost seen: seq<nat>, ghost ids: seq<nat>)
      requires GraphOk(nodes) && Entered(seen, |nodes|) && |nodes| == anchors.Length && Within(Flat(pairs), |nodes|)
      requires Serialized(anchors[..], ids, seen) && Named(ids, StepsAll(nodes, seen, Flat(pairs)).steps)
      modifies anchors, `events
      ensures var w := StepsAll(nodes, seen, Flat(pairs));
              Serialized(anchors[..], ids, w.seen) && events == old(events) + Emit(nodes, ids, w.steps)
      decreases |nodes| - |seen|, 1
    {
      hide GraphOk, Entered, Serialized;
      ghost var all := Flat(pairs);
      assert pairs[..0] == [] && Flat([]) == [];
      for j := 0 to |pairs|
        invariant Within(Flat(pairs[..j]), |nodes|) && Named(ids, StepsAll(nodes, seen, Flat(pairs[..j])).steps)
        invariant Serialized(anchors[..], ids, StepsAll(nodes, seen, Flat(pairs[..j])).seen)
        invariant events == old(events) + Emit(nodes, ids, StepsAll(nodes, seen, Flat(pairs[..j])).steps)
      {
        FlatAt(pairs, j, |nodes|);
        FlatMore(pairs, j + 1);
        ghost var done := Flat(pairs[..j]);
        DumpOne(pairs[j].key, seen, ids, done, all, old(events));
        DumpOne(pairs[j].value, seen, ids, done + [pairs[j].key], all, old(events));
      }
      assert pairs[..|pairs|] == pairs;
    }

    /** yaml_emitter_open */
    method Open()
      requires !isOpened
      modifies `events, `isOpened
      ensures isOpened && events == old(events) + [StreamStart]
    {
      EmitEvent(StreamStart);
      isOpened := true;
    }

    /** yaml_emitter_close */
    method Close()
      requires isOpened
      modifies `events, `isClosed
      ensures isClosed && events == old(events) + if old(isClosed) then [] else [StreamEnd]
    {
      if isClosed {
        return;
      }
      EmitEvent(StreamEnd);
      isClosed := true;
    }

    /** The body of a document: anchors first, then the nodes. */
    method DumpBody() returns (ghost ids: seq<nat>)
      requires GraphOk(nodes)
      modifies `anchors, `lastAnchorId, `events
      ensures Anchored(nodes, ids) && Named(ids, Steps(nodes, [], 1).steps)
      ensures events == old(events) + Emit(nodes, ids, Steps(nodes, [], 1).steps)
    {
      hide NodesOk, Complete, Counted, Grew, Anchored, Serialized, Named, Emit, Steps;
      anchors := new Anchors[|nodes|](_ => Anchors(0, 0, false));
      ghost var zero := anchors[..];
      ghost var w := Steps(nodes, [], 1);
      NothingCounted(zero, lastAnchorId);
      AnchorNode(1, []);
      CountedAnchored(nodes, zero, anchors[..], lastAnchorId);
      ids := NumbersOf(anchors[..]);
      AnchoredNamed(nodes, ids);
      DumpNode(1, [], ids);
    }

    lemma {:induction false} NothingCounted(a: seq<Anchors>, last: nat)
      requires forall k :: 0 <= k < |a| ==> a[k] == Anchors(0, 0, false)
      ensures Counted(a, last, [])
    {
    }

    /** yaml_emitter_dump */
    method Dump(graph: Graph) returns (ghost ids: seq<nat>)
      requires graph.nodes != [] ==> GraphOk(graph.nodes)
      modifies this
      ensures isOpened
      ensures graph.nodes == [] ==>
                events == old(events) + (if old(isOpened) then [] else [StreamStart]) + if old(isClosed) then [] else [StreamEnd]
      ensures graph.nodes != [] ==> Anchored(graph.nodes, ids) && Named(ids, Steps(graph.nodes, [], 1).steps)
      ensures graph.nodes != [] ==>
                events == old(events) + (if old(isOpened) then [] else [StreamStart])
                  + [DocumentStart(graph.version, graph.directives, graph.startImplicit)]
                  + Emit(graph.nodes, ids, Steps(graph.nodes, [], 1).steps) + [DocumentEnd(graph.endImplicit)]
    {
      hide GraphOk, Anchored, Named, Emit, Steps;
      ids := [];
      nodes := graph.nodes;
      if !isOpened {
        Open();
      }
      if nodes == [] {
        Close();
        return;
      }
      EmitEvent(DocumentStart(graph.version, graph.directives, graph.startImplicit));
      ids := DumpBody();
      EmitEvent(DocumentEnd(graph.endImplicit));
      lastAnchorId := 0;
    }
  }
}
