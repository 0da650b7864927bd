/** Queries and replies of the mapped DNS as bytes (hev-mapped-dns.c), by section 4.1
    of RFC 1035.  DnsReply.dfy has the method that answers in place. */
module DnsSpec {
  import opened CStrings
  import opened Options
  import opened Words
  import opened CacheSpec

  const HEADER: nat := 12
  const MOST: nat := 32
  const DOT: byte := 46

  function At16(b: seq<byte>, i: nat): (r: nat)
    requires i + 2 <= |b|
    ensures r < 0x1_0000
  {
    b[i] as nat * 0x100 + b[i + 1] as nat
  }

  function Bytes16(v: nat): (r: seq<byte>)
    requires v < 0x1_0000
    ensures |r| == 2 && At16(r, 0) == v
  {
    [(v / 0x100) as byte, (v % 0x100) as byte]
  }

  function Bytes32(v: word): (r: seq<byte>)
    ensures |r| == 4
  {
    Bytes16(v / 0x1_0000) + Bytes16(v % 0x1_0000)
  }

  /** The string in front of the first NUL. */
  function Until0(s: seq<byte>): CString {
    if s == [] || s[0] == 0 then [] else [s[0]] + Until0(s[1..])
  }

  lemma {:induction false} Until0Ends(s: seq<byte>, more: seq<byte>)
    ensures Until0(s + [0] + more) == Until0(s)
  {
    if s != [] && s[0] != 0 {
      Until0Ends(s[1..], more);
      assert (s + [0] + more)[1..] == s[1..] + [0] + more;
    }
  }

  lemma {:induction false} Until0All(s: CString)
    ensures Until0(s) == s
  {
    if s != [] {
      Until0All(s[1..]);
    }
  }

  // ---------------------------------------------------------------------
  // Reading a query
  // ---------------------------------------------------------------------

  /** Where the labels from `off` end: the place of the zero octet. */
  function NameEnd(b: seq<byte>, off: nat): (r: Option<nat>)
    ensures r.Some? ==> off <= r.value < |b| && b[r.value] == 0
    decreases |b| - off
  {
    if off >= |b| then None
    else if b[off] == 0 then Some(off)
    else NameEnd(b, off + 1 + b[off] as nat)
  }

  /** The labels from `off`, with a dot for every length octet. */
  function Dotted(b: seq<byte>, off: nat): seq<byte>
    requires NameEnd(b, off).Some?
    decreases |b| - off
  {
    if b[off] == 0 then []
    else
      var next := off + 1 + b[off] as nat;
      [DOT] + b[off + 1..next] + Dotted(b, next)
  }

  datatype Question = Question(start: nat, end: nat, isAddress: bool, name: CString)

  /** The question at `off`; its name is the string after the first dot. */
  function QuestionAt(b: seq<byte>, off: nat): Option<Question> {
    match NameEnd(b, off)
    case None => None
    case Some(z) =>
      if z + 4 >= |b| then None
      else
        var d := Dotted(b, off);
        Some(Question(off, z, At16(b, z + 1) == 1 && At16(b, z + 3) == 1, if d == [] then [] else Until0(d[1..])))
  }

  function After(qs: seq<Question>): nat {
    if qs == [] then HEADER else qs[|qs| - 1].end + 5
  }

  /** The first `n` questions, or those before the first one that is not good. */
  function Questions(b: seq<byte>, n: nat): (qs: seq<Question>)
    ensures |qs| <= n
  {
    if n == 0 then []
    else
      var qs := Questions(b, n - 1);
      if |qs| < n - 1 then qs
      else
        match QuestionAt(b, After(qs))
        case None => qs
        case Some(q) => qs + [q]
  }

  /** Once a question is not good, the rest is not read. */
  lemma {:induction false} QuestionsStop(b: seq<byte>, i: nat, n: nat)
    requires i <= n && |Questions(b, i)| < i
    ensures Questions(b, n) == Questions(b, i)
  {
    hide QuestionAt, After;
    if i < n {
      QuestionsStop(b, i, n - 1);
    }
  }

  /** The questions for addresses. */
  function Asked(qs: seq<Question>): (r: seq<Question>)
    ensures |r| <= |qs|
  {
    if qs == [] then []
    else Asked(qs[..|qs| - 1]) + if qs[|qs| - 1].isAddress then [qs[|qs| - 1]] else []
  }

  function QuestionNames(qs: seq<Question>): (r: seq<CString>)
    ensures |r| == |qs| && forall i :: 0 <= i < |r| ==> r[i] == qs[i].name
  {
    seq(|qs|, i requires 0 <= i < |qs| => qs[i].name)
  }

  /** The cache after finding names one after the other, and their indices. */
  function FindAll(s: seq<Rec>, max: nat, names: seq<CString>): (r: (seq<Rec>, seq<nat>))
    requires Inv(s, max) && max > 0
    ensures Inv(r.0, max) && |r.1| == |names|
  {
    if names == [] then (s, [])
    else
      var n := |names| - 1;
      var before := FindAll(s, max, names[..n]);
      var found := Find(before.0, max, names[n]);
      FindInv(before.0, max, names[n]);
      (found.0, before.1 + [found.1])
  }

  // ---------------------------------------------------------------------
  // The reply
  // ---------------------------------------------------------------------

  function SetTop(x: byte): byte {
    if x < 0x80 then x + 0x80 else x
  }

  /** The header: a response, recursion available where it is desired, so many
      answers and nothing else. */
  function Header(b: seq<byte>, answers: nat): (r: seq<byte>)
    requires |b| >= HEADER && answers < 0x1_0000
    ensures |r| == HEADER
  {
    b[..2] + [SetTop(b[2]), if b[2] % 2 == 1 then SetTop(b[3]) else b[3]] + b[4..6] + Bytes16(answers) + [0, 0, 0, 0]
  }

  /** An answer: a pointer to the name, an address, for one second. */
  function Answer(start: nat, ip: word): (r: seq<byte>)
    ensures |r| == 16
  {
    [0xC0, (start % 0x100) as byte] + [0, 1, 0, 1, 0, 0, 0, 1, 0, 4] + Bytes32(ip)
  }

  /** The fake address of an index. */
  function Address(net: word, idx: nat): word {
    OrWord(net, idx % WORDS)
  }

  function Answers(qs: seq<Question>, net: word, idxs: seq<nat>): (r: seq<byte>)
    requires |qs| == |idxs|
    ensures |r| == 16 * |qs|
  {
    if qs == [] then []
    else
      var n := |qs| - 1;
      Answers(qs[..n], net, idxs[..n]) + Answer(qs[n].start, Address(net, idxs[n]))
  }

  lemma {:induction false} AnswerAt(qs: seq<Question>, net: word, idxs: seq<nat>, k: nat)
    requires |qs| == |idxs| && k < |qs|
    ensures Answers(qs, net, idxs)[16 * k..16 * k + 16] == Answer(qs[k].start, Address(net, idxs[k]))
  {
    var n := |qs| - 1;
    hide Answer, Address;
    var rest, last := Answers(qs[..n], net, idxs[..n]), Answer(qs[n].start, Address(net, idxs[n]));
    if k < n {
      AnswerAt(qs[..n], net, idxs[..n], k);
      assert (rest + last)[16 * k..16 * k + 16] == rest[16 * k..16 * k + 16];
    } else {
      assert (rest + last)[16 * n..16 * n + 16] == last;
    }
  }

  // ---------------------------------------------------------------------
  // Queries as section 4.1 of RFC 1035 writes them
  // ---------------------------------------------------------------------

  datatype Query = Query(labels: seq<seq<byte>>, qtype: nat, qclass: nat)

  predicate IsLabel(l: seq<byte>) {
    0 < |l| < 64 && 0 !in l
  }

  predicate AreLabels(ls: seq<seq<byte>>) {
    forall i :: 0 <= i < |ls| ==> IsLabel(ls[i])
  }

  predicate IsQuery(q: Query) {
    AreLabels(q.labels) && q.qtype < 0x1_0000 && q.qclass < 0x1_0000
  }

  predicate AreQueries(qs: seq<Query>) {
    forall i :: 0 <= i < |qs| ==> IsQuery(qs[i])
  }

  function EncodeName(labels: seq<seq<byte>>): seq<byte>
    requires AreLabels(labels)
  {
    if labels == [] then [0]
    else [|labels[0]| as byte] + labels[0] + EncodeName(labels[1..])
  }

  function EncodeQuery(q: Query): seq<byte>
    requires IsQuery(q)
  {
    EncodeName(q.labels) + Bytes16(q.qtype) + Bytes16(q.qclass)
  }

  function EncodeQueries(qs: seq<Query>): seq<byte>
    requires AreQueries(qs)
  {
    if qs == [] then [] else EncodeQueries(qs[..|qs| - 1]) + EncodeQuery(qs[|qs| - 1])
  }

  /** The name as it is usually written. */
  function Joined(labels: seq<seq<byte>>): seq<byte> {
    if labels == [] then [] else if |labels| == 1 then labels[0] else labels[0] + [DOT] + Joined(labels[1..])
  }

  /** The bytes are there, at that place. */
  ghost predicate Has(b: seq<byte>, off: nat, e: seq<byte>) {
    off + |e| <= |b| && forall k :: 0 <= k < |e| ==> b[off + k] == e[k]
  }

  lemma {:induction false} HasTwo(b: seq<byte>, off: nat, x: seq<byte>, y: seq<byte>)
    ensures Has(b, off, x + y) <==> Has(b, off, x) && Has(b, off + |x|, y)
  {
    if Has(b, off, x + y) {
      assert forall k :: 0 <= k < |x| ==> (x + y)[k] == x[k];
      assert forall k :: 0 <= k < |y| ==> (x + y)[|x| + k] == y[k];
    }
  }

  /** Reading an encoded name, wherever it is. */
  lemma {:induction false} ReadName(b: seq<byte>, off: nat, labels: seq<seq<byte>>)
    requires AreLabels(labels) && Has(b, off, EncodeName(labels))
    ensures NameEnd(b, off) == Some(off + |EncodeName(labels)| - 1)
    ensures Dotted(b, off) == if labels == [] then [] else [DOT] + Joined(labels)
    decreases |labels|
  {
    hide NameEnd, Dotted, IsLabel, EncodeName, Joined, Has;
    if labels == [] {
      ReadRoot(b, off);
    } else {
      NameParts(labels);
      var head := [|labels[0]| as byte];
      HasTwo(b, off, head + labels[0], EncodeName(labels[1..]));
      HasTwo(b, off, head, labels[0]);
      ReadName(b, off + 1 + |labels[0]|, labels[1..]);
      ReadLabel(b, off, labels[0]);
    }
  }

  lemma {:induction false} ReadRoot(b: seq<byte>, off: nat)
    requires Has(b, off, EncodeName([]))
    ensures NameEnd(b, off) == Some(off) && Dotted(b, off) == [] && |EncodeName([])| == 1
  {
    assert b[off + 0] == EncodeName([])[0];
  }

  lemma {:induction false} NameParts(labels: seq<seq<byte>>)
    requires AreLabels(labels) && labels != []
    ensures AreLabels(labels[1..]) && IsLabel(labels[0]) && 0 < |labels[0]| < 64
    ensures EncodeName(labels) == [|labels[0]| as byte] + labels[0] + EncodeName(labels[1..])
    ensures EncodeName(labels[1..]) != []
    ensures [DOT] + Joined(labels) == [DOT] + labels[0] + if |labels| == 1 then [] else [DOT] + Joined(labels[1..])
  {
  }

  lemma {:induction false} ReadLabel(b: seq<byte>, off: nat, l: seq<byte>)
    requires IsLabel(l) && Has(b, off, [|l| as byte]) && Has(b, off + 1, l)
    ensures NameEnd(b, off) == NameEnd(b, off + 1 + |l|)
    ensures NameEnd(b, off).Some? ==> Dotted(b, off) == [DOT] + l + Dotted(b, off + 1 + |l|)
  {
    assert b[off + 0] == [|l| as byte][0];
    assert b[off + 1..off + 1 + |l|] == l;
  }

  lemma {:induction false} NameNotEmpty(labels: seq<seq<byte>>)
    requires AreLabels(labels)
    ensures EncodeName(labels) != []
  {
  }

  lemma {:induction false} JoinedHasNoNul(labels: seq<seq<byte>>)
    requires AreLabels(labels)
    ensures 0 !in Joined(labels)
  {
    if labels != [] {
      JoinedHasNoNul(labels[1..]);
    }
  }

  /** Reading an encoded question. */
  lemma {:induction false} ReadQuery(before: seq<byte>, q: Query, more: seq<byte>)
    requires IsQuery(q)
    ensures var b := before + EncodeQuery(q) + more;
      && 0 !in Joined(q.labels) && |EncodeQuery(q)| == |EncodeName(q.labels)| + 4
      && QuestionAt(b, |before|) == Some(Question(|before|, |before| + |EncodeName(q.labels)| - 1,
                                                  q.qtype == 1 && q.qclass == 1, Joined(q.labels)))
  {
    hide NameEnd, Dotted, EncodeName, Joined, Until0, Has, IsLabel, Bytes16;
    var b, name := before + EncodeQuery(q) + more, EncodeName(q.labels);
    HasAll(before, EncodeQuery(q), more);
    HasTwo(b, |before|, name + Bytes16(q.qtype), Bytes16(q.qclass));
    HasTwo(b, |before|, name, Bytes16(q.qtype));
    NameNotEmpty(q.labels);
    ReadName(b, |before|, q.labels);
    JoinedHasNoNul(q.labels);
    Until0All(Joined(q.labels));
    NoLabels(q.labels);
    var z := |before| + |name| - 1;
    TwoBytes(b, z + 1, q.qtype);
    TwoBytes(b, z + 3, q.qclass);
    assert ([DOT] + Joined(q.labels))[1..] == Joined(q.labels);
  }

  lemma {:induction false} HasAll(before: seq<byte>, e: seq<byte>, more: seq<byte>)
    ensures Has(before + e + more, |before|, e)
  {
  }

  lemma {:induction false} TwoBytes(b: seq<byte>, i: nat, v: nat)
    requires v < 0x1_0000 && Has(b, i, Bytes16(v))
    ensures i + 2 <= |b| && At16(b, i) == v
  {
    var e := Bytes16(v);
    assert b[i + 0] == e[0] && b[i + 1] == e[1];
  }

  lemma {:induction false} NoLabels(labels: seq<seq<byte>>)
    ensures labels == [] ==> Joined(labels) == []
  {
  }

  /** The question is that query, which is where the question starts, in front of `end`. */
  ghost predicate Reads(b: seq<byte>, end: nat, question: Question, q: Query)
    requires IsQuery(q)
  {
    && question.name == Joined(q.labels) && question.isAddress == (q.qtype == 1 && q.qclass == 1)
    && HEADER <= question.start && question.start + |EncodeQuery(q)| <= end && Has(b, question.start, EncodeQuery(q))
  }

  /** Reading a whole query: every question is read, with its place, its name and its
      kind. */
  lemma {:induction false} ReadQueries(header: seq<byte>, qs: seq<Query>, more: seq<byte>)
    requires |header| == HEADER && AreQueries(qs)
    ensures var b := header + EncodeQueries(qs) + more;
            var r := Questions(b, |qs|);
      && |r| == |qs| && After(r) == HEADER + |EncodeQueries(qs)|
      && forall i :: 0 <= i < |qs| ==> Reads(b, HEADER + |EncodeQueries(qs)|, r[i], qs[i])
  {
    hide EncodeQuery, QuestionAt, Has, Joined;
    if qs != [] {
      var n := |qs| - 1;
      var last := EncodeQuery(qs[n]);
      var b := header + EncodeQueries(qs) + more;
      assert b == header + EncodeQueries(qs[..n]) + (last + more);
      ReadQueries(header, qs[..n], last + more);
      assert b == (header + EncodeQueries(qs[..n])) + last + more;
      ReadQuery(header + EncodeQueries(qs[..n]), qs[n], more);
      HasAll(header + EncodeQueries(qs[..n]), last, more);
      forall i | 0 <= i < n
        ensures Reads(b, HEADER + |EncodeQueries(qs)|, Questions(b, |qs|)[i], qs[i])
      {
        assert Reads(b, HEADER + |EncodeQueries(qs[..n])|, Questions(b, n)[i], qs[..n][i]);
      }
    }
  }

  // ---------------------------------------------------------------------
  // The addresses of a reply look up to the names asked for
  // ---------------------------------------------------------------------

  function Finds(names: seq<CString>): (r: seq<Op>)
    ensures |r| == |names|
  {
    seq(|names|, i requires 0 <= i < |names| => FindOp(names[i]))
  }

  /** Few enough operations leave every name recent. */
  lemma {:induction false} FewAreRecent(s: seq<Rec>, max: nat, ops: seq<Op>, name: CString, others: set<CString>)
    requires Inv(s, max) && max > 0 && |others| + |ops| < max
    ensures AlwaysRecent(s, max, ops, name, others)
    decreases |ops|
  {
    if ops != [] {
      FewAreRecent(Step(s, max, ops[0]), max, ops[1..], name, Since(name, others, Touched(s, ops[0])));
    }
  }

  lemma {:induction false} RunNone(s: seq<Rec>, max: nat)
    requires Inv(s, max) && max > 0
    ensures Run(s, max, []) == s
  {
  }

  lemma {:induction false} RunOne(s: seq<Rec>, max: nat, ops: seq<Op>)
    requires Inv(s, max) && max > 0 && ops != []
    ensures Run(s, max, ops) == Run(Step(s, max, ops[0]), max, ops[1..])
  {
  }

  lemma {:induction false} RunTwo(s: seq<Rec>, max: nat, a: seq<Op>, b: seq<Op>)
    requires Inv(s, max) && max > 0
    ensures Run(s, max, a + b) == Run(Run(s, max, a), max, b)
    decreases |a|
  {
    hide Step, Run, Inv;
    if a == [] {
      assert a + b == b;
      RunNone(s, max);
    } else {
      RunOne(s, max, a);
      RunOne(s, max, a + b);
      RunTwo(Step(s, max, a[0]), max, a[1..], b);
      assert (a + b)[1..] == a[1..] + b;
    }
  }

  lemma {:induction false} FindAllRuns(s: seq<Rec>, max: nat, names: seq<CString>)
    requires Inv(s, max) && max > 0
    ensures FindAll(s, max, names).0 == Run(s, max, Finds(names))
  {
    hide Inv, Find, Step, Run, FindAll;
    if names == [] {
      RunNone(s, max);
      FindAllNone(s, max);
    } else {
      var n := |names| - 1;
      var one := [FindOp(names[n])];
      FindAllRuns(s, max, names[..n]);
      FindAllLast(s, max, names);
      assert Finds(names) == Finds(names[..n]) + one;
      RunTwo(s, max, Finds(names[..n]), one);
      StepFinds(FindAll(s, max, names[..n]).0, max, names[n]);
    }
  }

  lemma {:induction false} FindAllLast(s: seq<Rec>, max: nat, names: seq<CString>)
    requires Inv(s, max) && max > 0 && names != []
    ensures var n := |names| - 1;
            var before := FindAll(s, max, names[..n]).0;
            FindAll(s, max, names).0 == Find(before, max, names[n]).0
    ensures var n := |names| - 1;
            var (before, idxs) := FindAll(s, max, names[..n]);
            FindAll(s, max, names).1 == idxs + [Find(before, max, names[n]).1]
  {
  }

  lemma {:induction false} FindAllNone(s: seq<Rec>, max: nat)
    requires Inv(s, max) && max > 0
    ensures FindAll(s, max, []) == (s, [])
  {
  }

  lemma {:induction false} StepFinds(s: seq<Rec>, max: nat, name: CString)
    requires Inv(s, max) && max > 0
    ensures Run(s, max, [FindOp(name)]) == Find(s, max, name).0
  {
    RunOne(s, max, [FindOp(name)]);
  }

  lemma {:induction false} FindAllPrefix(s: seq<Rec>, max: nat, names: seq<CString>, k: nat)
    requires Inv(s, max) && max > 0 && k < |names|
    ensures FindAll(s, max, names).1[k] == Find(FindAll(s, max, names[..k]).0, max, names[k]).1
  {
    hide Inv, Find, FindAll;
    var n := |names| - 1;
    FindAllLast(s, max, names);
    if k < n {
      FindAllPrefix(s, max, names[..n], k);
      assert names[..n][..k] == names[..k];
    }
  }

  /** As long as the cache can hold all the names of one query, each of the addresses
      of the reply looks up to its name when the reply goes out. */
  lemma {:induction false} AnswersLookUp(net: word, mask: word, s: seq<Rec>, max: nat, names: seq<CString>, k: nat)
    requires IsHostMask(Not(mask)) && And(net, Not(mask)) == 0 && 0 < max <= Signed(Not(mask)) && Inv(s, max)
    requires |names| <= max && k < |names|
    ensures var (s', idxs) := FindAll(s, max, names);
      idxs[k] < max && Lookup(s', And(Address(net, idxs[k]), Not(mask))).1 == Some(names[k])
  {
    hide Inv, FindAll, Find, Run, Lookup, Finds, AlwaysRecent, Step, And, Or, OrWord, IsHostMask, Address;
    FindAllPrefix(s, max, names, k);
    var before := FindAll(s, max, names[..k]).0;
    FindInv(before, max, names[k]);
    var later, s' := Finds(names[k + 1..]), Find(before, max, names[k]).0;
    FindAllRest(s, max, names, k);
    AddressKeepsName(net, mask, before, max, names[k], later);
    FewAreRecent(s', max, later, names[k], {});
    AddressOf(net, Find(before, max, names[k]).1);
  }

  lemma {:induction false} AddressOf(net: word, idx: word)
    ensures Address(net, idx) == OrWord(net, idx)
  {
  }

  /** After one of the names, the others are a run. */
  lemma {:induction false} FindAllRest(s: seq<Rec>, max: nat, names: seq<CString>, k: nat)
    requires Inv(s, max) && max > 0 && k < |names|
    ensures var s' := Find(FindAll(s, max, names[..k]).0, max, names[k]).0;
      Inv(s', max) && FindAll(s, max, names).0 == Run(s', max, Finds(names[k + 1..]))
  {
    hide Inv, FindAll, Run;
    var before := FindAll(s, max, names[..k]).0;
    var later, one := Finds(names[k + 1..]), [FindOp(names[k])];
    FindInv(before, max, names[k]);
    FindAllRuns(s, max, names);
    FindAllRuns(s, max, names[..k]);
    assert Finds(names) == Finds(names[..k]) + (one + later);
    RunTwo(s, max, Finds(names[..k]), one + later);
    RunOne(before, max, one + later);
    assert (one + later)[1..] == later;
  }
}
