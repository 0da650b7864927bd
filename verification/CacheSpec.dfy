/** The fake-address cache as a value: the names it holds with their indices,
    least recently touched first.  MappedDns.dfy proves that the tree, list and
    record array of hev-mapped-dns.c implement it. */
module CacheSpec {
  import opened Sequences
  import opened CStrings
  import opened Options
  import opened Words

  datatype Rec = Rec(name: CString, idx: nat)

  function Position(s: seq<Rec>, name: CString): (k: nat)
    ensures k <= |s|
    ensures k < |s| ==> s[k].name == name
    ensures forall i :: 0 <= i < k ==> s[i].name != name
  {
    if s == [] then 0
    else if s[0].name == name then 0
    else 1 + Position(s[1..], name)
  }

  function Slot(s: seq<Rec>, idx: int): (k: nat)
    ensures k <= |s|
    ensures k < |s| ==> s[k].idx == idx
    ensures forall i :: 0 <= i < k ==> s[i].idx != idx
  {
    if s == [] then 0
    else if s[0].idx == idx then 0
    else 1 + Slot(s[1..], idx)
  }

  /** hev_mapped_dns_find: the state after, and the index of the name.  A record that is
      touched moves to the end, where the most recent one is. */
  function Find(s: seq<Rec>, max: nat, name: CString): (seq<Rec>, nat)
    requires |s| <= max && max > 0
  {
    var k := Position(s, name);
    if k < |s| then (Moved(s, k), s[k].idx)
    else if |s| < max then (s + [Rec(name, |s|)], |s|)
    else (s[1..] + [Rec(name, s[0].idx)], s[0].idx)
  }

  /** hev_mapped_dns_lookup of an index. */
  function Lookup(s: seq<Rec>, idx: int): (seq<Rec>, Option<CString>) {
    var k := Slot(s, idx);
    if k < |s| then (Moved(s, k), Some(s[k].name)) else (s, None)
  }

  /** What every operation keeps: at most `max` records, no name twice, and the
      indices are the numbers below the size, each once. */
  ghost predicate Inv(s: seq<Rec>, max: nat) {
    && |s| <= max
    && (forall i :: 0 <= i < |s| ==> s[i].idx < |s|)
    && (forall i, j :: 0 <= i < j < |s| ==> s[i].name != s[j].name && s[i].idx != s[j].idx)
  }

  lemma {:induction false} TouchInv(s: seq<Rec>, max: nat, k: nat)
    requires Inv(s, max) && k < |s|
    ensures Inv(Moved(s, k), max) && |Moved(s, k)| == |s| && Moved(s, k)[|s| - 1] == s[k]
  {
    var t := Moved(s, k);
    assert forall i :: 0 <= i < |t| ==> t[i] == s[if i < k then i else if i < |s| - 1 then i + 1 else k];
  }

  lemma {:induction false} GrowInv(s: seq<Rec>, max: nat, name: CString)
    requires Inv(s, max) && |s| < max && Position(s, name) == |s|
    ensures Inv(s + [Rec(name, |s|)], max)
  {
  }

  lemma {:induction false} EvictInv(s: seq<Rec>, max: nat, name: CString)
    requires Inv(s, max) && s != [] && Position(s, name) == |s|
    ensures Inv(s[1..] + [Rec(name, s[0].idx)], max)
  {
  }

  lemma {:induction false} FindInv(s: seq<Rec>, max: nat, name: CString)
    requires Inv(s, max) && max > 0
    ensures var s' := Find(s, max, name).0;
      Inv(s', max) && |s| <= |s'| && s' != [] && s'[|s'| - 1] == Rec(name, Find(s, max, name).1)
  {
    var k := Position(s, name);
    if k < |s| {
      TouchInv(s, max, k);
    } else if |s| < max {
      GrowInv(s, max, name);
    } else {
      EvictInv(s, max, name);
    }
  }

  lemma {:induction false} LookupInv(s: seq<Rec>, max: nat, idx: int)
    requires Inv(s, max)
    ensures var (s', n) := Lookup(s, idx);
      Inv(s', max) && |s| == |s'| && (n.Some? ==> s' != [] && s'[|s'| - 1] == Rec(n.value, idx))
  {
    var k := Slot(s, idx);
    if k < |s| {
      TouchInv(s, max, k);
    }
  }

  // ---------------------------------------------------------------------
  // Runs
  // ---------------------------------------------------------------------

  datatype Op = FindOp(name: CString) | LookupOp(idx: int)

  function Step(s: seq<Rec>, max: nat, op: Op): (s': seq<Rec>)
    requires Inv(s, max) && max > 0
    ensures Inv(s', max) && |s| <= |s'|
  {
    match op
    case FindOp(name) => FindInv(s, max, name); Find(s, max, name).0
    case LookupOp(idx) => LookupInv(s, max, idx); Lookup(s, idx).0
  }

  /** The name an operation touches, if any. */
  function Touched(s: seq<Rec>, op: Op): Option<CString> {
    match op
    case FindOp(name) => Some(name)
    case LookupOp(idx) => Lookup(s, idx).1
  }

  function Run(s: seq<Rec>, max: nat, ops: seq<Op>): (r: seq<Rec>)
    requires Inv(s, max) && max > 0
    ensures Inv(r, max)
    decreases |ops|
  {
    if ops == [] then s
    else Run(Step(s, max, ops[0]), max, ops[1..])
  }

  /** The names touched over a run, in order. */
  function Log(s: seq<Rec>, max: nat, ops: seq<Op>): seq<CString>
    requires Inv(s, max) && max > 0
    decreases |ops|
  {
    if ops == [] then []
    else
      var rest := Log(Step(s, max, ops[0]), max, ops[1..]);
      match Touched(s, ops[0])
      case None => rest
      case Some(n) => [n] + rest
  }

  // ---------------------------------------------------------------------
  // A name keeps its index for as long as it is recent enough
  // ---------------------------------------------------------------------

  ghost function Names(s: seq<Rec>): set<CString> {
    set i | 0 <= i < |s| :: s[i].name
  }

  lemma {:induction false} NamesCount(s: seq<Rec>)
    requires forall i, j :: 0 <= i < j < |s| ==> s[i].name != s[j].name
    ensures |Names(s)| == |s|
  {
    if s != [] {
      var k := |s| - 1;
      NamesCount(s[..k]);
      assert Names(s) == Names(s[..k]) + {s[k].name};
    }
  }

  ghost predicate Holds(s: seq<Rec>, name: CString, idx: nat) {
    exists k :: 0 <= k < |s| && s[k] == Rec(name, idx)
  }

  /** The record is there after every operation of the run. */
  ghost predicate HeldThroughout(s: seq<Rec>, max: nat, ops: seq<Op>, name: CString, idx: nat)
    requires Inv(s, max) && max > 0
    decreases |ops|
  {
    && Holds(s, name, idx)
    && (ops != [] ==> HeldThroughout(Step(s, max, ops[0]), max, ops[1..], name, idx))
  }

  /** The other names touched since `name` was touched last. */
  ghost function Since(name: CString, others: set<CString>, touched: Option<CString>): set<CString> {
    match touched
    case None => others
    case Some(n) => if n == name then {} else others + {n}
  }

  /** At every moment of the run fewer than `max` distinct other names have been
      touched since `name` was; `others` counts those before the run. */
  ghost predicate AlwaysRecent(s: seq<Rec>, max: nat, ops: seq<Op>, name: CString, others: set<CString>)
    requires Inv(s, max) && max > 0
    decreases |ops|
  {
    && |others| < max
    && (ops != [] ==>
          AlwaysRecent(Step(s, max, ops[0]), max, ops[1..], name, Since(name, others, Touched(s, ops[0]))))
  }

  /** The records after that of `name` are those of the names touched since. */
  ghost predicate RecentAre(s: seq<Rec>, k: nat, name: CString, idx: nat, others: set<CString>) {
    k < |s| && s[k] == Rec(name, idx) && Names(s[k + 1..]) == others
  }

  lemma {:induction false} NamesOfConcat(a: seq<Rec>, b: seq<Rec>)
    ensures Names(a + b) == Names(a) + Names(b)
  {
    var s := a + b;
    assert forall i :: 0 <= i < |a| ==> s[i] == a[i];
    assert forall i :: 0 <= i < |b| ==> s[|a| + i] == b[i];
  }

  lemma {:induction false} NamesOfOne(r: Rec)
    ensures Names([r]) == {r.name}
  {
    assert [r][0] == r;
  }

  lemma {:induction false} TouchRecent(s: seq<Rec>, max: nat, k: nat, name: CString, idx: nat, others: set<CString>, j: nat)
    returns (k': nat)
    requires Inv(s, max) && RecentAre(s, k, name, idx, others) && j < |s|
    ensures RecentAre(Moved(s, j), k', name, idx, Since(name, others, Some(s[j].name)))
  {
    var t, r := Moved(s, j), s[j];
    NamesOfOne(r);
    if j < k {
      k' := k - 1;
      assert t[k'] == s[k] && t[k' + 1..] == s[k + 1..] + [r];
      NamesOfConcat(s[k + 1..], [r]);
    } else if j == k {
      k' := |s| - 1;
      assert t[k' + 1..] == [];
    } else {
      k' := k;
      var a, b := s[k + 1..j], s[j + 1..];
      assert s[k + 1..] == a + ([r] + b) && t[k + 1..] == a + (b + [r]);
      NamesOfConcat(a, [r] + b);
      NamesOfConcat([r], b);
      NamesOfConcat(a, b + [r]);
      NamesOfConcat(b, [r]);
    }
  }

  lemma {:induction false} AppendRecent(s: seq<Rec>, k: nat, name: CString, idx: nat, others: set<CString>, r: Rec)
    requires RecentAre(s, k, name, idx, others)
    ensures RecentAre(s + [r], k, name, idx, others + {r.name})
  {
    assert (s + [r])[k + 1..] == s[k + 1..] + [r];
    NamesOfOne(r);
    NamesOfConcat(s[k + 1..], [r]);
  }

  /** How many names are more recent. */
  lemma {:induction false} RecentCount(s: seq<Rec>, max: nat, k: nat, name: CString, idx: nat, others: set<CString>)
    requires Inv(s, max) && RecentAre(s, k, name, idx, others)
    ensures |others| == |s| - 1 - k < max
    ensures forall n :: Position(s, n) == |s| ==> n !in others && |others + {n}| == |s| - k
  {
    NamesCount(s[k + 1..]);
  }

  /** Finding a name that is not there yet. */
  lemma {:induction false} NewRecent(s: seq<Rec>, max: nat, n: CString, k: nat, name: CString, idx: nat, others: set<CString>)
    returns (k': nat)
    requires Inv(s, max) && max > 0 && RecentAre(s, k, name, idx, others) && Position(s, n) == |s|
    ensures var s', others' := Find(s, max, n).0, others + {n};
      if |others'| < max then RecentAre(s', k', name, idx, others') else !Holds(s', name, idx)
  {
    RecentCount(s, max, k, name, idx, others);
    k' := k;
    if |s| < max {
      AppendRecent(s, k, name, idx, others, Rec(n, |s|));
    } else if k > 0 {
      k' := k - 1;
      RestRecent(s, k, name, idx, others);
      AppendRecent(s[1..], k', name, idx, others, Rec(n, s[0].idx));
    } else {
      NotRecent(s, max, n, name, idx);
    }
  }

  lemma {:induction false} RestRecent(s: seq<Rec>, k: nat, name: CString, idx: nat, others: set<CString>)
    requires 0 < k && RecentAre(s, k, name, idx, others)
    ensures RecentAre(s[1..], k - 1, name, idx, others)
  {
    assert s[1..][k..] == s[k + 1..];
  }

  lemma {:induction false} NotRecent(s: seq<Rec>, max: nat, n: CString, name: CString, idx: nat)
    requires Inv(s, max) && s != [] && s[0] == Rec(name, idx) && Position(s, n) == |s|
    ensures !Holds(s[1..] + [Rec(n, idx)], name, idx)
  {
  }

  lemma {:induction false} StepRecent(s: seq<Rec>, max: nat, op: Op, k: nat, name: CString, idx: nat, others: set<CString>)
    returns (k': nat)
    requires Inv(s, max) && max > 0 && RecentAre(s, k, name, idx, others)
    ensures var s', others' := Step(s, max, op), Since(name, others, Touched(s, op));
      if |others'| < max then RecentAre(s', k', name, idx, others') else !Holds(s', name, idx)
  {
    k' := k;
    RecentCount(s, max, k, name, idx, others);
    var j := match op case FindOp(n) => Position(s, n) case LookupOp(x) => Slot(s, x);
    if j < |s| {
      k' := TouchRecent(s, max, k, name, idx, others, j);
      TouchInv(s, max, j);
      RecentCount(Moved(s, j), max, k', name, idx, Since(name, others, Some(s[j].name)));
    } else if op.FindOp? {
      k' := NewRecent(s, max, op.name, k, name, idx, others);
    }
  }

  /** A name keeps its index over a run exactly as long as at every moment fewer
      than `max` distinct other names have been found or looked up since it was
      touched last. */
  lemma {:induction false} KeepsIndex(s: seq<Rec>, max: nat, ops: seq<Op>, k: nat, name: CString, idx: nat, others: set<CString>)
    requires Inv(s, max) && max > 0 && RecentAre(s, k, name, idx, others)
    ensures HeldThroughout(s, max, ops, name, idx) <==> AlwaysRecent(s, max, ops, name, others)
    decreases |ops|
  {
    RecentCount(s, max, k, name, idx, others);
    assert Holds(s, name, idx);
    if ops != [] {
      var k' := StepRecent(s, max, ops[0], k, name, idx, others);
      var s', others' := Step(s, max, ops[0]), Since(name, others, Touched(s, ops[0]));
      if |others'| < max {
        KeepsIndex(s', max, ops[1..], k', name, idx, others');
      }
    }
  }

  /** The same for a name just found: it starts with no more recent name. */
  lemma {:induction false} FoundKeepsIndex(s: seq<Rec>, max: nat, name: CString, ops: seq<Op>)
    requires Inv(s, max) && max > 0
    ensures var (s', idx) := Find(s, max, name);
      Inv(s', max) && (HeldThroughout(s', max, ops, name, idx) <==> AlwaysRecent(s', max, ops, name, {}))
  {
    var (s', idx) := Find(s, max, name);
    FindInv(s, max, name);
    assert s'[|s'| - 1 + 1..] == [];
    KeepsIndex(s', max, ops, |s'| - 1, name, idx, {});
  }

  /** Whoever holds an index is whom a lookup of it returns. */
  lemma {:induction false} HeldIsLookedUp(s: seq<Rec>, max: nat, name: CString, idx: nat)
    requires Inv(s, max)
    ensures Holds(s, name, idx) <==> Lookup(s, idx).1 == Some(name)
  {
  }

  lemma {:induction false} HeldAtEnd(s: seq<Rec>, max: nat, ops: seq<Op>, name: CString, idx: nat)
    requires Inv(s, max) && max > 0 && HeldThroughout(s, max, ops, name, idx)
    ensures Holds(Run(s, max, ops), name, idx)
    decreases |ops|
  {
    if ops != [] {
      HeldAtEnd(Step(s, max, ops[0]), max, ops[1..], name, idx);
    }
  }

  /** The fake address of a name, `net` with the index of the name in the host
      part, looks up to that name over every run in which the name stays recent:
      `net` has no host bits, and the mask is a prefix mask wide enough. */
  lemma {:induction false} AddressKeepsName(net: word, mask: word, s: seq<Rec>, max: nat, name: CString, ops: seq<Op>)
    requires IsHostMask(Not(mask)) && And(net, Not(mask)) == 0 && 0 < max <= Signed(Not(mask)) && Inv(s, max)
    ensures var (s', idx) := Find(s, max, name);
      && Inv(s', max) && idx < max
      && (AlwaysRecent(s', max, ops, name, {}) ==>
            Lookup(Run(s', max, ops), And(OrWord(net, idx), Not(mask))).1 == Some(name))
  {
    var (s', idx) := Find(s, max, name);
    FindInv(s, max, name);
    HostPart(net, idx, Not(mask));
    FoundKeepsIndex(s, max, name, ops);
    if AlwaysRecent(s', max, ops, name, {}) {
      HeldAtEnd(s', max, ops, name, idx);
      HeldIsLookedUp(Run(s', max, ops), max, name, idx);
    }
  }

  // ---------------------------------------------------------------------
  // The order is the order of the last touches
  // ---------------------------------------------------------------------

  /** When `n` was touched last, counted from 1; 0 if never. */
  function LastTouch(log: seq<CString>, n: CString): (t: nat)
    ensures t <= |log|
    ensures t > 0 ==> log[t - 1] == n
    ensures forall i :: t <= i < |log| ==> log[i] != n
  {
    if log == [] then 0
    else if log[|log| - 1] == n then |log|
    else LastTouch(log[..|log| - 1], n)
  }

  /** The records are in the order in which their names were last touched. */
  ghost predicate ByRecency(s: seq<Rec>, log: seq<CString>) {
    && (forall i :: 0 <= i < |s| ==> LastTouch(log, s[i].name) > 0)
    && (forall i, j :: 0 <= i < j < |s| ==> LastTouch(log, s[i].name) < LastTouch(log, s[j].name))
  }

  lemma {:induction false} LogOne(log: seq<CString>, n: CString, m: CString)
    ensures LastTouch(log + [n], m) == if m == n then |log| + 1 else LastTouch(log, m)
  {
    assert (log + [n])[..|log|] == log;
  }

  lemma {:induction false} RemoveByRecency(s: seq<Rec>, log: seq<CString>, k: nat)
    requires ByRecency(s, log) && k < |s|
    ensures ByRecency(s[..k] + s[k + 1..], log)
  {
    var p := s[..k] + s[k + 1..];
    assert forall i :: 0 <= i < |p| ==> p[i] == s[if i < k then i else i + 1];
  }

  lemma {:induction false} AppendByRecency(s: seq<Rec>, log: seq<CString>, r: Rec)
    requires ByRecency(s, log) && Position(s, r.name) == |s|
    ensures ByRecency(s + [r], log + [r.name])
  {
    forall i | 0 <= i < |s + [r]|
      ensures LastTouch(log + [r.name], (s + [r])[i].name) == if i == |s| then |log| + 1 else LastTouch(log, s[i].name)
    {
      LogOne(log, r.name, (s + [r])[i].name);
    }
  }

  lemma {:induction false} TouchByRecency(s: seq<Rec>, max: nat, k: nat, log: seq<CString>)
    requires Inv(s, max) && k < |s| && ByRecency(s, log)
    ensures ByRecency(Moved(s, k), log + [s[k].name])
  {
    RemoveByRecency(s, log, k);
    AppendByRecency(s[..k] + s[k + 1..], log, s[k]);
  }

  lemma {:induction false} FindByRecency(s: seq<Rec>, max: nat, name: CString, log: seq<CString>)
    requires Inv(s, max) && max > 0 && ByRecency(s, log)
    ensures ByRecency(Find(s, max, name).0, log + [name])
  {
    var k := Position(s, name);
    if k < |s| {
      TouchByRecency(s, max, k, log);
    } else if |s| < max {
      AppendByRecency(s, log, Rec(name, |s|));
    } else {
      RemoveByRecency(s, log, 0);
      assert s[..0] + s[1..] == s[1..];
      AppendByRecency(s[1..], log, Rec(name, s[0].idx));
    }
  }

  ghost function LogAfter(s: seq<Rec>, op: Op, log: seq<CString>): seq<CString> {
    match Touched(s, op)
    case None => log
    case Some(n) => log + [n]
  }

  lemma {:induction false} StepByRecency(s: seq<Rec>, max: nat, op: Op, log: seq<CString>)
    requires Inv(s, max) && max > 0 && ByRecency(s, log)
    ensures ByRecency(Step(s, max, op), LogAfter(s, op, log))
  {
    match op
    case FindOp(name) => FindByRecency(s, max, name, log);
    case LookupOp(idx) =>
      var k := Slot(s, idx);
      if k < |s| {
        TouchByRecency(s, max, k, log);
      }
  }

  lemma {:induction false} LogUnfold(s: seq<Rec>, max: nat, ops: seq<Op>, log: seq<CString>)
    requires Inv(s, max) && max > 0 && ops != []
    ensures log + Log(s, max, ops) == LogAfter(s, ops[0], log) + Log(Step(s, max, ops[0]), max, ops[1..])
  {
    hide Step, Touched;
    match Touched(s, ops[0])
    case None =>
    case Some(n) =>
      var rest := Log(Step(s, max, ops[0]), max, ops[1..]);
      assert (log + [n]) + rest == log + ([n] + rest);
  }

  /** Over every run the records stay in the order of the last touches. */
  lemma {:induction false} RunByRecency(s: seq<Rec>, max: nat, ops: seq<Op>, log: seq<CString>)
    requires Inv(s, max) && max > 0 && ByRecency(s, log)
    ensures ByRecency(Run(s, max, ops), log + Log(s, max, ops))
    decreases |ops|
  {
    if ops == [] {
      assert log + [] == log;
    } else {
      StepByRecency(s, max, ops[0], log);
      LogUnfold(s, max, ops, log);
      RunByRecency(Step(s, max, ops[0]), max, ops[1..], LogAfter(s, ops[0], log));
    }
  }

  lemma {:induction false} EvictedIsFirst(s: seq<Rec>, max: nat, name: CString, v: nat)
    requires Inv(s, max) && max > 0 && v < |s| && s[v] !in Find(s, max, name).0
    ensures v == 0 && |s| == max && Position(s, name) == |s|
  {
  }

  /** Over every run from the empty cache, a record leaves it only when a new
      name comes to a full cache, and it is the least recently touched one. */
  lemma {:induction false} EvictsLeastRecent(max: nat, ops: seq<Op>, name: CString, v: nat)
    requires max > 0 && v < |Run([], max, ops)|
    requires Run([], max, ops)[v] !in Find(Run([], max, ops), max, name).0
    ensures var s, log := Run([], max, ops), Log([], max, ops);
      && |s| == max && Position(s, name) == |s|
      && forall i :: 0 <= i < |s| && i != v ==> LastTouch(log, s[v].name) < LastTouch(log, s[i].name)
  {
    EvictedIsFirst(Run([], max, ops), max, name, v);
    RunByRecency([], max, ops, []);
    assert [] + Log([], max, ops) == Log([], max, ops);
  }
}
