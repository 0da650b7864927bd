/** hev_mapped_dns_handle (hev-mapped-dns.c): the reply to a query, with the fake
    addresses of the cache. */
module DnsReply {
  import opened CStrings
  import opened Options
  import opened Words
  import opened CacheSpec
  import opened DnsSpec
  import S = Sequences
  import D = MappedDns

  /** The number of questions. */
  function Count(b: seq<byte>): nat
    requires |b| >= HEADER
  {
    At16(b, 4)
  }

  /** The questions of a query that is looked at. */
  function Found(b: seq<byte>): seq<Question>
    requires |b| >= HEADER
  {
    Asked(Questions(b, Count(b)))
  }

  /** Whether a query gets a reply into that much room. */
  predicate Answerable(b: seq<byte>, room: nat)
    requires |b| >= HEADER
  {
    && |b| <= room && Count(b) <= MOST && |Questions(b, Count(b))| == Count(b)
    && (Found(b) == [] || After(Questions(b, Count(b))) + 16 * |Found(b)| <= room)
  }

  /** The reply: the header, the questions as they came, and the answers. */
  function Reply(b: seq<byte>, net: word, idxs: seq<nat>): seq<byte>
    requires |b| >= HEADER && |idxs| == |Found(b)| < 0x1_0000
    requires HEADER <= After(Questions(b, Count(b))) <= |b|
  {
    Header(b, |idxs|) + b[HEADER..After(Questions(b, Count(b)))] + Answers(Found(b), net, idxs)
  }

  /** The questions read are inside of the query. */
  lemma {:induction false} QuestionsInside(b: seq<byte>, n: nat)
    requires |b| >= HEADER
    ensures HEADER <= After(Questions(b, n)) <= |b|
  {
    if n > 0 {
      QuestionsInside(b, n - 1);
    }
  }

  lemma {:induction false} OneMoreQuestion(b: seq<byte>, i: nat, s: seq<Rec>, max: nat)
    requires |Questions(b, i)| == i && Inv(s, max) && max > 0
    ensures var qs, q := Questions(b, i), QuestionAt(b, After(Questions(b, i)));
            var qs' := Questions(b, i + 1);
      && (q == None ==> qs' == qs)
      && (q.Some? ==> qs' == qs + [q.value] && After(qs') == q.value.end + 5)
      && (q.Some? && !q.value.isAddress ==> Asked(qs') == Asked(qs))
      && (q.Some? && q.value.isAddress ==>
            && Asked(qs') == Asked(qs) + [q.value]
            && var before := FindAll(s, max, QuestionNames(Asked(qs)));
            FindAll(s, max, QuestionNames(Asked(qs'))) ==
              (Find(before.0, max, q.value.name).0, before.1 + [Find(before.0, max, q.value.name).1]))
  {
    hide Inv, Find, FindAll, QuestionAt;
    var qs, q := Questions(b, i), QuestionAt(b, After(Questions(b, i)));
    if q.Some? {
      assert (qs + [q.value])[..i] == qs;
      if q.value.isAddress {
        var names := QuestionNames(Asked(qs));
        assert QuestionNames(Asked(qs) + [q.value]) == names + [q.value.name];
        assert (names + [q.value.name])[..|names|] == names;
        FindAllLast(s, max, names + [q.value.name]);
      }
    }
  }

  /** The length octets become dots, up to the zero octet. */
  method ReplaceLengths(req: array<byte>, start: nat) returns (ok: bool, off: nat)
    modifies req
    ensures ok <==> NameEnd(old(req[..]), start).Some?
    ensures ok ==> NameEnd(old(req[..]), start) == Some(off)
    ensures ok ==> req[start..off] == Dotted(old(req[..]), start) && req[off..] == old(req[off..])
  {
    hide NameEnd, Dotted, Passed;
    ghost var b := req[..];
    off := start;
    PassedNone(b, start);
    if off >= req.Length {
      return false, off;
    }
    assert req[start..start] == [];
    while req[off] != 0
      invariant start <= off < req.Length && SameFrom(req[..], b, off)
      invariant Passed(b, start, off, req[start..off])
      decreases req.Length - off
    {
      assert b[off] == req[..][off];
      PassedMore(b, start, off, req[start..off]);
      off := PassLabel(req, off, start, b);
      if off >= req.Length {
        return false, off;
      }
    }
    assert b[off] == req[..][off];
    PassedAll(b, start, off, req[start..off]);
    ok := true;
  }

  /** The labels between have been passed, and replaced by that. */
  ghost predicate Passed(b: seq<byte>, start: nat, off: nat, done: seq<byte>) {
    && NameEnd(b, start) == NameEnd(b, off)
    && (NameEnd(b, off).Some? ==> Dotted(b, start) == done + Dotted(b, off))
  }

  lemma {:induction false} PassedNone(b: seq<byte>, start: nat)
    ensures Passed(b, start, start, []) && (start >= |b| ==> NameEnd(b, start) == None)
  {
    hide Dotted;
  }

  lemma {:induction false} PassedMore(b: seq<byte>, start: nat, off: nat, done: seq<byte>)
    requires off < |b| && b[off] != 0 && Passed(b, start, off, done)
    ensures var next := off + 1 + b[off] as nat;
            if next < |b| then Passed(b, start, next, done + ([DOT] + b[off + 1..next])) else NameEnd(b, start) == None
  {
    var next := off + 1 + b[off] as nat;
    NextLabel(b, off);
    hide NameEnd, Dotted;
    if next < |b| && NameEnd(b, next).Some? {
      var dotted, rest := [DOT] + b[off + 1..next], Dotted(b, next);
      assert done + (dotted + rest) == done + dotted + rest;
    }
  }

  lemma {:induction false} PassedAll(b: seq<byte>, start: nat, off: nat, done: seq<byte>)
    requires off < |b| && b[off] == 0 && Passed(b, start, off, done)
    ensures NameEnd(b, start) == Some(off) && Dotted(b, start) == done
  {
  }

  lemma {:induction false} NextLabel(b: seq<byte>, off: nat)
    requires off < |b| && b[off] != 0
    ensures var next := off + 1 + b[off] as nat;
            NameEnd(b, off) == NameEnd(b, next)
            && (next >= |b| ==> NameEnd(b, off) == None)
            && (NameEnd(b, off).Some? ==> Dotted(b, off) == [DOT] + b[off + 1..next] + Dotted(b, next))
  {
  }

  /** One label is passed, if there is more behind it. */
  method PassLabel(req: array<byte>, poff: nat, ghost start: nat, ghost b: seq<byte>) returns (off: nat)
    requires start <= poff < req.Length && SameFrom(req[..], b, poff)
    modifies req
    ensures off == poff + 1 + b[poff] as nat
    ensures off < req.Length ==>
              SameFrom(req[..], b, off) && req[start..off] == old(req[start..poff]) + ([DOT] + b[poff + 1..off])
  {
    assert b[poff] == req[..][poff];
    off := poff + 1 + req[poff] as nat;
    if off >= req.Length {
      return;
    }
    req[poff] := DOT;
    assert forall k :: off <= k < |b| ==> req[..][k] == old(req[..])[k];
    assert req[poff + 1..off] == b[poff + 1..off];
    assert req[start..off] == req[start..poff] + [req[poff]] + req[poff + 1..off];
  }

  /** The string in the array, up to its NUL. */
  method StringAt(a: array<byte>, i: nat) returns (s: CString)
    requires i <= a.Length
    ensures s == Until0(a[i..])
  {
    s := [];
    var j := i;
    while j < a.Length && a[j] != 0
      invariant i <= j <= a.Length && Until0(a[i..]) == s + Until0(a[j..])
    {
      assert a[j..][1..] == a[j + 1..];
      s := s + [a[j]];
      j := j + 1;
    }
  }

  /** The name is where it is read from. */
  lemma {:induction false} NameInPlace(a: seq<byte>, start: nat, z: nat, d: seq<byte>)
    requires start <= z < |a| - 1 && a[start..z] == d && a[z] == 0 && (d == [] ==> a[z + 1] == 0)
    ensures Until0(a[start + 1..]) == if d == [] then [] else Until0(d[1..])
  {
    if d != [] {
      assert a[start + 1..] == d[1..] + [0] + a[z + 1..];
      Until0Ends(d[1..], a[z + 1..]);
    }
  }

  method WriteAnswer(res: array<byte>, off: nat, start: nat, ip: word)
    requires off + 16 <= res.Length
    modifies res
    ensures res[off..off + 16] == Answer(start, ip)
    ensures forall k :: 0 <= k < res.Length && !(off <= k < off + 16) ==> res[k] == old(res[k])
  {
    res[off] := 0xC0;
    res[off + 1] := (start % 0x100) as byte;
    WriteU16(res, off + 2, 1);
    WriteU16(res, off + 4, 1);
    WriteU16(res, off + 6, 0);
    WriteU16(res, off + 8, 1);
    WriteU16(res, off + 10, 4);
    WriteU16(res, off + 12, ip / 0x1_0000);
    WriteU16(res, off + 14, ip % 0x1_0000);
  }

  method WriteU16(a: array<byte>, i: nat, v: nat)
    requires i + 2 <= a.Length && v < 0x1_0000
    modifies a
    ensures a[i] == Bytes16(v)[0] && a[i + 1] == Bytes16(v)[1]
    ensures forall k :: 0 <= k < a.Length && k != i && k != i + 1 ==> a[k] == old(a[k])
  {
    a[i] := (v / 0x100) as byte;
    a[i + 1] := (v % 0x100) as byte;
  }
  ghost predicate SameFrom(a: seq<byte>, b: seq<byte>, off: nat) {
    |a| == |b| && forall k :: off <= k < |a| ==> a[k] == b[k]
  }

  /** What follows of two queries is the same: so are the questions there. */
  lemma {:induction false} SameEnd(a: seq<byte>, b: seq<byte>, off: nat)
    requires SameFrom(a, b, off)
    ensures NameEnd(a, off) == NameEnd(b, off)
    ensures NameEnd(a, off).Some? ==> Dotted(a, off) == Dotted(b, off)
    decreases |a| - off
  {
    if off < |a| {
      var next := off + 1 + a[off] as nat;
      SameEnd(a, b, next);
      if next <= |a| {
        assert a[off + 1..next] == b[off + 1..next];
      }
    }
  }

  lemma {:induction false} SameQuestion(a: seq<byte>, b: seq<byte>, off: nat)
    requires |a| == |b| && off <= |a| && a[off..] == b[off..]
    ensures QuestionAt(a, off) == QuestionAt(b, off)
  {
    hide NameEnd, Dotted, QuestionAt;
    SameSuffix(a, b, off, off);
    SameEnd(a, b, off);
    WhichQuestion(a, off);
    WhichQuestion(b, off);
  }

  /** One question is read, with its name if it is for an address. */
  method ReadName(req: array<byte>, off: nat, ghost b: seq<byte>) returns (ok: bool, next: nat, asked: bool, name: CString)
    requires |b| == req.Length && off <= |b| && req[off..] == b[off..]
    modifies req
    ensures ok <==> QuestionAt(b, off).Some?
    ensures ok ==> var q := QuestionAt(b, off).value;
                   && next == q.end + 5 <= |b| && req[next..] == b[next..] && asked == q.isAddress
                   && (asked ==> name == q.name)
  {
    hide NameEnd, Dotted, Until0, QuestionAt;
    asked, name, next := false, [], off;
    ghost var was := req[..];
    SameQuestion(was, b, off);
    WhichQuestion(was, off);
    var z;
    ok, z := ReplaceLengths(req, off);
    if !ok || z + 4 >= req.Length {
      return false, off, false, [];
    }
    SameSuffix(req[..], was, z, z);
    SameSuffix(req[..], was, z, z + 5);
    SameSuffix(was, b, off, z + 5);
    next := z + 5;
    var qtype := Word(req, z + 1);
    var qclass := Word(req, z + 3);
    asked := qtype == 1 && qclass == 1;
    if asked {
      NameInPlace(req[..], off, z, Dotted(was, off));
      name := StringAt(req, off + 1);
    }
  }

  /** One question is read, and its name is found if it is for an address. */
  method ReadQuestion(dns: D.MappedDns, req: array<byte>, off: nat, ghost b: seq<byte>)
    returns (ok: bool, next: nat, asked: bool, idx: nat)
    requires |b| == req.Length && off <= |b| && req[off..] == b[off..] && dns.Valid()
    modifies req, dns, dns.list, dns.list.nodes, dns.tree, dns.tree.rank.Keys, dns.records
    ensures dns.Valid() && Inv(old(dns.State()), dns.max)
    ensures fresh(S.Elements(dns.list.nodes) - S.Elements(old(dns.list.nodes)))
    ensures fresh(dns.tree.rank.Keys - old(dns.tree.rank.Keys))
    ensures ok <==> QuestionAt(b, off).Some?
    ensures ok ==> var q := QuestionAt(b, off).value;
                   && next == q.end + 5 <= |b| && req[next..] == b[next..] && asked == q.isAddress
                   && (asked ==> (dns.State(), idx) == Find(old(dns.State()), dns.max, q.name))
    ensures !ok || !asked ==> dns.State() == old(dns.State())
  {
    hide dns.Valid, dns.State, Inv, Find, QuestionAt;
    dns.ValidInv();
    var name;
    idx := 0;
    ok, next, asked, name := ReadName(req, off, b);
    if ok && asked {
      idx := dns.Find(name);
    }
  }

  /** read_u16 */
  method Word(a: array<byte>, i: nat) returns (v: nat)
    requires i + 2 <= a.Length
    ensures v == At16(a[..], i)
  {
    v := a[i] as nat * 0x100 + a[i + 1] as nat;
  }

  lemma {:induction false} SameSuffix(a: seq<byte>, b: seq<byte>, i: nat, j: nat)
    requires |a| == |b| && i <= j <= |a| && a[i..] == b[i..]
    ensures a[j..] == b[j..] && forall k :: i <= k < |a| ==> a[k] == b[k]
  {
    assert forall k :: i <= k < |a| ==> a[k] == a[i..][k - i] && b[k] == b[i..][k - i];
  }
  lemma {:induction false} WhichQuestion(b: seq<byte>, off: nat)
    ensures QuestionAt(b, off) ==
            match NameEnd(b, off)
            case None => None
            case Some(z) =>
              if z + 4 >= |b| then None
              else
                var name := if Dotted(b, off) == [] then [] else Until0(Dotted(b, off)[1..]);
                Some(Question(off, z, At16(b, z + 1) == 1 && At16(b, z + 3) == 1, name))
  {
  }

  /** The questions and addresses are noted. */
  ghost predicate Noted(asked: seq<Question>, net: word, idxs: seq<nat>, ipo: seq<nat>, ips: seq<word>) {
    && |asked| == |idxs| == |ipo| == |ips|
    && forall k :: 0 <= k < |asked| ==> ipo[k] == asked[k].start && ips[k] == Address(net, idxs[k])
  }

  /** After so many questions: where the next one is, the cache, and what is noted. */
  ghost predicate SoFar(b: seq<byte>, i: nat, s0: seq<Rec>, max: nat, net: word,
                        s: seq<Rec>, off: nat, ipo: seq<nat>, ips: seq<word>)
    requires Inv(s0, max) && max > 0
  {
    && |Questions(b, i)| == i && off == After(Questions(b, i)) && HEADER <= off <= |b| && |ipo| <= i
    && var (s', idxs) := FindAll(s0, max, QuestionNames(Asked(Questions(b, i))));
    s == s' && Noted(Asked(Questions(b, i)), net, idxs, ipo, ips)
  }

  lemma {:induction false} SoFarStart(b: seq<byte>, s0: seq<Rec>, max: nat, net: word)
    requires Inv(s0, max) && max > 0 && |b| >= HEADER
    ensures SoFar(b, 0, s0, max, net, s0, HEADER, [], [])
  {
    assert QuestionNames([]) == [];
    FindAllNone(s0, max);
  }

  lemma {:induction false} SoFarStep(b: seq<byte>, i: nat, s0: seq<Rec>, max: nat, net: word,
                  s: seq<Rec>, off: nat, ipo: seq<nat>, ips: seq<word>)
    requires Inv(s0, max) && max > 0 && SoFar(b, i, s0, max, net, s, off, ipo, ips) && QuestionAt(b, off).Some?
    ensures Inv(s, max)
    ensures var q := QuestionAt(b, off).value;
      if q.isAddress then
        var (s', idx) := Find(s, max, q.name);
        SoFar(b, i + 1, s0, max, net, s', q.end + 5, ipo + [off], ips + [Address(net, idx)])
      else SoFar(b, i + 1, s0, max, net, s, q.end + 5, ipo, ips)
  {
    hide Find, FindAll, Questions, Asked, QuestionNames, QuestionAt, Inv;
    OneMoreQuestion(b, i, s0, max);
    QuestionsInside(b, i + 1);
    QuestionStarts(b, off);
  }

  lemma {:induction false} QuestionStarts(b: seq<byte>, off: nat)
    requires QuestionAt(b, off).Some?
    ensures QuestionAt(b, off).value.start == off
  {
  }

  /** The loop over the questions. */
  method ReadQuestions(dns: D.MappedDns, req: array<byte>, qd: nat, ipo: array<nat>, ips: array<word>)
    returns (ok: bool, off: nat, ipn: nat)
    requires req.Length >= HEADER && dns.Valid() && qd <= MOST && ipo.Length == ips.Length == MOST
    modifies req, ipo, ips, dns, dns.list, dns.list.nodes, dns.tree, dns.tree.rank.Keys, dns.records
    ensures dns.Valid() && Inv(old(dns.State()), dns.max)
    ensures var qs := Questions(old(req[..]), qd);
            var (s, idxs) := FindAll(old(dns.State()), dns.max, QuestionNames(Asked(qs)));
      && dns.State() == s && (ok <==> |qs| == qd)
      && (ok ==> off == After(qs) && HEADER <= off <= req.Length && ipn <= MOST && Noted(Asked(qs), dns.net, idxs, ipo[..ipn], ips[..ipn]))
  {
    hide dns.Valid, dns.State, Inv, Find, QuestionAt, SoFar;
    ghost var b, s0 := req[..], dns.State();
    dns.ValidInv();
    off, ipn := HEADER, 0;
    SoFarStart(b, s0, dns.max, dns.net);
    for i := 0 to qd
      invariant dns.Valid() && ipn <= i && off <= |b| && req[off..] == b[off..]
      invariant SoFar(b, i, s0, dns.max, dns.net, dns.State(), off, ipo[..ipn], ips[..ipn])
      invariant fresh(S.Elements(dns.list.nodes) - S.Elements(old(dns.list.nodes)))
      invariant fresh(dns.tree.rank.Keys - old(dns.tree.rank.Keys))
    {
      ghost var s := dns.State();
      var good, next, asked, idx := ReadQuestion(dns, req, off, b);
      if !good {
        SoFarStops(b, i, s0, dns.max, dns.net, s, off, ipo[..ipn], ips[..ipn], qd);
        return false, off, ipn;
      }
      SoFarStep(b, i, s0, dns.max, dns.net, s, off, ipo[..ipn], ips[..ipn]);
      if asked {
        Note(ipo, ips, ipn, off, Address(dns.net, idx));
        ipn := ipn + 1;
      }
      off := next;
    }
    SoFarEnds(b, qd, s0, dns.max, dns.net, dns.State(), off, ipo[..ipn], ips[..ipn]);
    ok := true;
  }

  method Note(ipo: array<nat>, ips: array<word>, ipn: nat, start: nat, ip: word)
    requires ipn < ipo.Length == ips.Length
    modifies ipo, ips
    ensures ipo[..ipn + 1] == old(ipo[..ipn]) + [start] && ips[..ipn + 1] == old(ips[..ipn]) + [ip]
  {
    ipo[ipn], ips[ipn] := start, ip;
  }

  lemma {:induction false} SoFarStops(b: seq<byte>, i: nat, s0: seq<Rec>, max: nat, net: word,
                   s: seq<Rec>, off: nat, ipo: seq<nat>, ips: seq<word>, n: nat)
    requires Inv(s0, max) && max > 0 && SoFar(b, i, s0, max, net, s, off, ipo, ips) && QuestionAt(b, off) == None && i < n
    ensures |Questions(b, n)| < n && s == FindAll(s0, max, QuestionNames(Asked(Questions(b, n)))).0
  {
    hide Find, FindAll, Asked, QuestionNames, QuestionAt, Inv;
    QuestionsStop(b, i + 1, n);
  }

  lemma {:induction false} SoFarEnds(b: seq<byte>, n: nat, s0: seq<Rec>, max: nat, net: word,
                  s: seq<Rec>, off: nat, ipo: seq<nat>, ips: seq<word>)
    requires Inv(s0, max) && max > 0 && SoFar(b, n, s0, max, net, s, off, ipo, ips)
    ensures |Questions(b, n)| == n && off == After(Questions(b, n)) && HEADER <= off <= |b|
    ensures var (s', idxs) := FindAll(s0, max, QuestionNames(Asked(Questions(b, n))));
            s == s' && Noted(Asked(Questions(b, n)), net, idxs, ipo, ips)
  {
  }
  /** The loop over the answers. */
  method WriteAnswers(res: array<byte>, start: nat, ipn: nat, ipo: array<nat>, ips: array<word>,
                      ghost asked: seq<Question>, ghost net: word, ghost idxs: seq<nat>)
    returns (ok: bool, off: nat)
    requires ipn <= ipo.Length == ips.Length && Noted(asked, net, idxs, ipo[..ipn], ips[..ipn]) && start <= res.Length
    modifies res
    ensures ok <==> ipn == 0 || start + 16 * ipn <= res.Length
    ensures ok ==> off == start + 16 * ipn && res[start..off] == Answers(asked, net, idxs)
    ensures ok ==> res[..start] == old(res[..start])
  {
    hide Answer;
    off := start;
    for i := 0 to ipn
      invariant off == start + 16 * i <= res.Length && res[..start] == old(res[..start])
      invariant res[start..off] == Answers(asked[..i], net, idxs[..i])
    {
      if off + 15 >= res.Length {
        return false, off;
      }
      ghost var done := res[start..off];
      WriteAnswer(res, off, ipo[i], ips[i]);
      assert res[start..off] == done;
      assert res[start..off + 16] == res[start..off] + res[off..off + 16];
      assert asked[..i + 1][..i] == asked[..i] && idxs[..i + 1][..i] == idxs[..i];
      assert ipo[..ipn][i] == asked[i].start && ips[..ipn][i] == Address(net, idxs[i]);
      off := off + 16;
    }
    assert asked[..ipn] == asked && idxs[..ipn] == idxs;
    ok := true;
  }

  /** hev_mapped_dns_handle */
  method Handle(dns: D.MappedDns, req: array<byte>, res: array<byte>) returns (r: int)
    requires dns.Valid() && req != res && req.Length >= HEADER
    modifies req, res, dns, dns.list, dns.list.nodes, dns.tree, dns.tree.rank.Keys, dns.records
    ensures dns.Valid() && Inv(old(dns.State()), dns.max)
    ensures r == -1 <==> !Answerable(old(req[..]), res.Length)
    ensures var b := old(req[..]);
            if |b| <= res.Length && Count(b) <= MOST then
              dns.State() == FindAll(old(dns.State()), dns.max, QuestionNames(Found(b))).0
            else dns.State() == old(dns.State())
    ensures r != -1 ==>
              var b := old(req[..]);
              var idxs := FindAll(old(dns.State()), dns.max, QuestionNames(Found(b))).1;
              && HEADER <= After(Questions(b, Count(b))) <= |b| && |Found(b)| <= MOST && |idxs| == |Found(b)|
              && 0 <= r <= res.Length && res[..r] == Reply(b, dns.net, idxs)
  {
    hide dns.Valid, dns.State, Inv, FindAll, Questions, Asked, QuestionNames, S.Elements, Noted;
    ghost var b, s0 := req[..], dns.State();
    dns.ValidInv();
    if res.Length < req.Length {
      return -1;
    }
    CopyQuery(req, res);
    var qd := Word(req, 4);
    if qd > MOST {
      return -1;
    }
    var ipo := new nat[MOST](_ => 0);
    var ips := new word[MOST](_ => 0);
    var ok, end, ipn := ReadQuestions(dns, req, qd, ipo, ips);
    if !ok {
      return -1;
    }
    ghost var idxs := FindAll(s0, dns.max, QuestionNames(Found(b))).1;
    r := Respond(res, end, ipn, ipo, ips, b, dns.net, idxs);
  }

  /** What is left to do once the questions have been read. */
  method Respond(res: array<byte>, end: nat, ipn: nat, ipo: array<nat>, ips: array<word>,
                 ghost b: seq<byte>, ghost net: word, ghost idxs: seq<nat>)
    returns (r: int)
    requires ipn <= MOST <= ipo.Length == ips.Length && HEADER <= end <= |b| <= res.Length
    requires end == After(Questions(b, Count(b))) && |Questions(b, Count(b))| == Count(b) <= MOST
    requires Noted(Found(b), net, idxs, ipo[..ipn], ips[..ipn])
    requires res[..6] == b[..6] && res[6..HEADER] == [0, 0, 0, 0, 0, 0] && res[HEADER..|b|] == b[HEADER..]
    modifies res
    ensures r == -1 <==> !Answerable(b, res.Length)
    ensures r != -1 ==> |idxs| == |Found(b)| == ipn && 0 <= r <= res.Length && res[..r] == Reply(b, net, idxs)
  {
    hide Questions, Asked, Answers, Header;
    assert res[HEADER..end] == b[HEADER..end] by {
      assert res[HEADER..end] == res[HEADER..|b|][..end - HEADER];
    }
    ghost var was := res[..end];
    var ok, off := WriteAnswers(res, end, ipn, ipo, ips, Found(b), net, idxs);
    if !ok {
      return -1;
    }
    SamePrefix(res[..], was, HEADER, end);
    FinishHeader(res, ipn, b, end, off);
    r := off;
  }

  lemma {:induction false} SamePrefix(a: seq<byte>, was: seq<byte>, h: nat, end: nat)
    requires 6 <= h <= end == |was| <= |a| && a[..end] == was
    ensures a[..6] == was[..6] && a[6..h] == was[6..h] && a[h..end] == was[h..]
  {
    assert forall k :: 0 <= k < end ==> a[k] == was[k];
  }

  /** memcpy, and no records so far. */
  method CopyQuery(req: array<byte>, res: array<byte>)
    requires req != res && HEADER <= req.Length <= res.Length
    modifies res
    ensures res[..6] == req[..6] && res[6..HEADER] == [0, 0, 0, 0, 0, 0] && res[HEADER..req.Length] == req[HEADER..]
  {
    forall i | 0 <= i < req.Length {
      res[i] := req[i];
    }
    forall i | 6 <= i < HEADER {
      res[i] := 0;
    }
  }

  method FinishHeader(res: array<byte>, ipn: nat, ghost b: seq<byte>, ghost end: nat, ghost off: nat)
    requires HEADER <= end <= |b| && end <= off <= res.Length && ipn < 0x1_0000
    requires res[..6] == b[..6] && res[6..HEADER] == [0, 0, 0, 0, 0, 0] && res[HEADER..end] == b[HEADER..end]
    modifies res
    ensures res[..off] == Header(b, ipn) + b[HEADER..end] + old(res[end..off])
  {
    ghost var was := res[..];
    WriteFlags(res, b);
    WriteU16(res, 6, ipn);
    assert forall i :: 0 <= i < 6 ==> res[i] == res[..6][i];
    assert res[..HEADER] == Header(b, ipn);
    assert res[HEADER..end] == was[HEADER..end] && res[end..off] == was[end..off];
    assert res[..off] == res[..HEADER] + res[HEADER..end] + res[end..off];
  }

  /** A response, with recursion available where it is desired. */
  method WriteFlags(res: array<byte>, ghost b: seq<byte>)
    requires HEADER <= res.Length && HEADER <= |b| && res[..6] == b[..6]
    modifies res
    ensures res[..6] == b[..2] + [SetTop(b[2]), if b[2] % 2 == 1 then SetTop(b[3]) else b[3]] + b[4..6]
    ensures forall i :: 6 <= i < res.Length ==> res[i] == old(res[i])
  {
    assert forall i :: 0 <= i < 6 ==> res[i] == res[..6][i] == b[..6][i] == b[i];
    var rd := res[2] % 2 == 1;
    res[2] := SetTop(res[2]);
    if rd {
      res[3] := SetTop(res[3]);
    }
  }

  // ---------------------------------------------------------------------
  // What the reply says
  // ---------------------------------------------------------------------

  /** The header of the reply: the id and the questions of the query, a response, with
      recursion available where it is desired, and so many answers. */
  lemma {:induction false} HeaderSays(b: seq<byte>, n: nat)
    requires |b| >= HEADER && n < 0x1_0000
    ensures var h := Header(b, n);
      && At16(h, 0) == At16(b, 0) && At16(h, 4) == At16(b, 4) && At16(h, 6) == n && At16(h, 8) == At16(h, 10) == 0
      && h[2] >= 0x80 && h[2] % 0x80 == b[2] % 0x80
      && (h[3] >= 0x80 <==> b[3] >= 0x80 || b[2] % 2 == 1) && h[3] % 0x80 == b[3] % 0x80
  {
    var h := Header(b, n);
    assert h[4] == b[4..6][0] && h[5] == b[4..6][1];
    assert h[6] == Bytes16(n)[0] && h[7] == Bytes16(n)[1];
  }

  function AddressQueries(qs: seq<Query>): (r: seq<Query>)
    ensures |r| <= |qs|
  {
    if qs == [] then []
    else
      var q := qs[|qs| - 1];
      AddressQueries(qs[..|qs| - 1]) + if q.qtype == 1 && q.qclass == 1 then [q] else []
  }

  lemma {:induction false} AskedMatch(b: seq<byte>, end: nat, r: seq<Question>, qs: seq<Query>)
    requires |r| == |qs| && AreQueries(qs) && forall i :: 0 <= i < |qs| ==> Reads(b, end, r[i], qs[i])
    ensures |Asked(r)| == |AddressQueries(qs)| && AreQueries(AddressQueries(qs))
    ensures forall k :: 0 <= k < |Asked(r)| ==> Reads(b, end, Asked(r)[k], AddressQueries(qs)[k])
  {
    hide Joined, Has, EncodeQuery;
    if qs != [] {
      var n := |qs| - 1;
      AskedMatch(b, end, r[..n], qs[..n]);
      assert Reads(b, end, r[n], qs[n]);
    }
  }

  /** The answer at `off` of a reply is for that query: its pointer leads to the place
      `start`, where the query is, if and only if that is in the first 256 bytes; and it
      gives the address `ip`. */
  ghost predicate AnswerFor(reply: seq<byte>, off: nat, start: nat, q: Query, ip: word)
    requires IsQuery(q)
  {
    && off + 16 <= |reply| && Has(reply, start, EncodeQuery(q))
    && (At16(reply, off) - 0xC000 == start <==> start < 0x100)
    && reply[off + 2..off + 12] == [0, 1, 0, 1, 0, 0, 0, 1, 0, 4]
    && At16(reply, off + 12) * 0x1_0000 + At16(reply, off + 14) == ip
  }

  /** What is read of a query of the protocol. */
  lemma {:induction false} QueryIsRead(header: seq<byte>, qs: seq<Query>, more: seq<byte>)
    requires |header| == HEADER && AreQueries(qs) && |qs| <= MOST && At16(header, 4) == |qs|
    ensures var b, end := header + EncodeQueries(qs) + more, HEADER + |EncodeQueries(qs)|;
      && Count(b) == |qs| && After(Questions(b, |qs|)) == end && b[HEADER..end] == EncodeQueries(qs)
      && |Found(b)| == |AddressQueries(qs)| && AreQueries(AddressQueries(qs))
      && forall k :: 0 <= k < |Found(b)| ==> Reads(b, end, Found(b)[k], AddressQueries(qs)[k])
  {
    hide Questions, Asked, EncodeQueries, EncodeQuery, Has, Joined;
    var b, end := header + EncodeQueries(qs) + more, HEADER + |EncodeQueries(qs)|;
    assert b[4] == header[4] && b[5] == header[5];
    ReadQueries(header, qs, more);
    AskedMatch(b, end, Questions(b, |qs|), qs);
  }

  /** A query of the protocol gets a reply exactly if it has no more questions than are
      looked at, and it and the answers fit. */
  lemma {:induction false} QueryIsAnswerable(header: seq<byte>, qs: seq<Query>, more: seq<byte>, room: nat)
    requires |header| == HEADER && AreQueries(qs) && At16(header, 4) == |qs|
    ensures var b, end := header + EncodeQueries(qs) + more, HEADER + |EncodeQueries(qs)|;
      Answerable(b, room) <==>
        |qs| <= MOST && |b| <= room && (AddressQueries(qs) == [] || end + 16 * |AddressQueries(qs)| <= room)
  {
    hide Questions, Asked, EncodeQueries, EncodeQuery, Has, Joined, Reads;
    var b := header + EncodeQueries(qs) + more;
    assert b[4] == header[4] && b[5] == header[5];
    if |qs| <= MOST {
      QueryIsRead(header, qs, more);
      ReadQueries(header, qs, more);
    }
  }

  /** The reply to a query of the protocol has its questions, and its k-th answer is that
      for the k-th question for an address; and while the cache can hold all the names,
      the address it gives looks up to the name of that question. */
  lemma {:induction false} QueryAnswered(net: word, mask: word, s: seq<Rec>, max: nat,
                                         header: seq<byte>, qs: seq<Query>, more: seq<byte>, k: nat)
    requires IsHostMask(Not(mask)) && And(net, Not(mask)) == 0 && MOST <= max <= Signed(Not(mask)) && Inv(s, max)
    requires |header| == HEADER && AreQueries(qs) && |qs| <= MOST && At16(header, 4) == |qs|
    requires k < |AddressQueries(qs)|
    ensures var b, end := header + EncodeQueries(qs) + more, HEADER + |EncodeQueries(qs)|;
            var (s', idxs) := FindAll(s, max, QuestionNames(Found(b)));
      && Count(b) == |qs| && |Found(b)| == |AddressQueries(qs)| && AreQueries(AddressQueries(qs))
      && After(Questions(b, |qs|)) == end
      && var reply, q := Reply(b, net, idxs), AddressQueries(qs)[k];
      && reply[HEADER..end] == EncodeQueries(qs)
      && AnswerFor(reply, end + 16 * k, Found(b)[k].start, q, Address(net, idxs[k]))
      && 0 !in Joined(q.labels) && Lookup(s', And(Address(net, idxs[k]), Not(mask))).1 == Some(Joined(q.labels))
  {
    hide Inv, FindAll, Find, Lookup, And, IsHostMask, Address, Answers, Joined, Questions, Asked, EncodeQueries, EncodeQuery, Has, Found;
    var b := header + EncodeQueries(qs) + more;
    QueryIsRead(header, qs, more);
    assert Reads(b, HEADER + |EncodeQueries(qs)|, Found(b)[k], AddressQueries(qs)[k]);
    var names := QuestionNames(Found(b));
    assert names[k] == Found(b)[k].name;
    FoundFew(b);
    AnswersLookUp(net, mask, s, max, names, k);
    AnswerGiven(b, HEADER + |EncodeQueries(qs)|, net, FindAll(s, max, names).1, AddressQueries(qs)[k], k);
  }

  lemma {:induction false} FoundFew(b: seq<byte>)
    requires |b| >= HEADER
    ensures |Found(b)| <= Count(b)
  {
  }

  /** The answers behind the questions. */
  lemma {:induction false} AnswerGiven(b: seq<byte>, end: nat, net: word, idxs: seq<nat>, q: Query, k: nat)
    requires |b| >= HEADER && end == After(Questions(b, Count(b))) && HEADER <= end <= |b|
    requires k < |Found(b)| == |idxs| < 0x1_0000 && IsQuery(q) && Reads(b, end, Found(b)[k], q)
    ensures var reply := Reply(b, net, idxs);
      reply[HEADER..end] == b[HEADER..end] && AnswerFor(reply, end + 16 * k, Found(b)[k].start, q, Address(net, idxs[k]))
  {
    hide Questions, Asked, Answers, Answer, Address, Header, EncodeQuery, Has, Joined, Found;
    var start, ip := Found(b)[k].start, Address(net, idxs[k]);
    AnswerAt(Found(b), net, idxs, k);
    InReply(Header(b, |idxs|), b[HEADER..end], Answers(Found(b), net, idxs), 16 * k);
    var reply := Reply(b, net, idxs);
    SameBetween(b, reply, HEADER, end, start, EncodeQuery(q));
    PointerLeads(start, ip);
    AnswerIn(reply, end + 16 * k, Answer(start, ip));
  }

  lemma {:induction false} AnswerIn(r: seq<byte>, off: nat, a: seq<byte>)
    requires |a| == 16 && off + 16 <= |r| && r[off..off + 16] == a
    ensures At16(r, off) == At16(a, 0) && At16(r, off + 12) == At16(a, 12) && At16(r, off + 14) == At16(a, 14)
    ensures r[off + 2..off + 12] == a[2..12]
  {
    assert forall i :: off <= i < off + 16 ==> r[i] == r[off..off + 16][i - off];
  }

  lemma {:induction false} SameBetween(a: seq<byte>, b: seq<byte>, lo: nat, hi: nat, off: nat, e: seq<byte>)
    requires lo <= hi <= |a| && hi <= |b| && a[lo..hi] == b[lo..hi] && lo <= off && off + |e| <= hi && Has(a, off, e)
    ensures Has(b, off, e)
  {
    assert forall i :: lo <= i < hi ==> a[i] == a[lo..hi][i - lo] == b[lo..hi][i - lo] == b[i];
  }

  lemma {:induction false} InReply(h: seq<byte>, questions: seq<byte>, answers: seq<byte>, i: nat)
    requires |h| == HEADER && i + 16 <= |answers|
    ensures var r, end := h + questions + answers, HEADER + |questions|;
      r[HEADER..end] == questions && r[end + i..end + i + 16] == answers[i..i + 16]
  {
  }

  /** The pointer of an answer, as section 4.1.4 of RFC 1035 reads it, leads to the
      question exactly when that starts in the first 256 bytes. */
  lemma {:induction false} PointerLeads(start: nat, ip: word)
    ensures At16(Answer(start, ip), 0) - 0xC000 == start <==> start < 0x100
    ensures At16(Answer(start, ip), 12) * 0x1_0000 + At16(Answer(start, ip), 14) == ip
    ensures Answer(start, ip)[2..12] == [0, 1, 0, 1, 0, 0, 0, 1, 0, 4]
  {
    var a := Answer(start, ip);
    assert a[12] == Bytes32(ip)[0] && a[13] == Bytes32(ip)[1] && a[14] == Bytes32(ip)[2] && a[15] == Bytes32(ip)[3];
    assert a[12] == Bytes16(ip / 0x1_0000)[0] && a[13] == Bytes16(ip / 0x1_0000)[1];
    assert a[14] == Bytes16(ip % 0x1_0000)[0] && a[15] == Bytes16(ip % 0x1_0000)[1];
  }
  /** A label of 63 bytes. */
  function LongLabel(): seq<byte> {
    seq(63, i => 97)
  }

  /** Two questions for addresses: the second one starts at byte 273, behind a name of
      four long labels, and the pointer of its answer leads to byte 17. */
  lemma {:induction false} PointerExample(header: seq<byte>, ip: word)
    requires |header| == HEADER && At16(header, 4) == 2
    ensures var qs := [Query([LongLabel(), LongLabel(), LongLabel(), LongLabel()], 1, 1), Query([], 1, 1)];
      && AreQueries(qs) && AddressQueries(qs) == qs
      && var b := header + EncodeQueries(qs);
      Count(b) == 2 && |Found(b)| == 2 && Found(b)[1].start == 273 && At16(Answer(Found(b)[1].start, ip), 0) - 0xC000 == 17
  {
    var l := LongLabel();
    var q, r := Query([l, l, l, l], 1, 1), Query([], 1, 1);
    LongNames(l);
    TwoQueries(header, q, r);
  }

  lemma {:induction false} LongNames(l: seq<byte>)
    requires IsLabel(l) && |l| == 63
    ensures AreLabels([l, l, l, l]) && |EncodeName([l, l, l, l])| == 257 && |EncodeName([])| == 1
  {
    assert [l, l, l, l][1..] == [l, l, l] && [l, l, l][1..] == [l, l] && [l, l][1..] == [l] && [l][1..] == [];
    NameParts([l]);
    NameParts([l, l]);
    NameParts([l, l, l]);
    NameParts([l, l, l, l]);
  }

  lemma {:induction false} TwoAsked(a: Question, b: Question)
    requires a.isAddress && b.isAddress
    ensures Asked([a, b]) == [a, b]
  {
    assert [a, b][..1] == [a] && [a][..0] == [];
    assert Asked([a]) == [a];
  }

  /** The second of two questions starts behind the first one. */
  lemma {:induction false} TwoQueries(header: seq<byte>, q: Query, r: Query)
    requires |header| == HEADER && At16(header, 4) == 2 && IsQuery(q) && IsQuery(r)
    requires q.qtype == q.qclass == 1 && r.qtype == r.qclass == 1
    ensures AddressQueries([q, r]) == [q, r]
    ensures var b := header + EncodeQueries([q, r]);
      Count(b) == 2 && |Found(b)| == 2 && Found(b)[1].start == HEADER + |EncodeName(q.labels)| + 4
  {
    hide EncodeName, QuestionAt, Joined;
    assert [q, r][..1] == [q] && [q][..0] == [];
    var x, y := EncodeQuery(q), EncodeQuery(r);
    var b := header + EncodeQueries([q, r]);
    assert EncodeQueries([q]) == x && EncodeQueries([q, r]) == x + y;
    assert b == header + x + y && b == (header + x) + y + [];
    ReadQuery(header, q, y);
    ReadQuery(header + x, r, []);
    assert b[4] == header[4] && b[5] == header[5];
    var q0, q1 := QuestionAt(b, HEADER).value, QuestionAt(b, |header + x|).value;
    assert Questions(b, 0) == [] && Questions(b, 1) == [q0];
    assert Questions(b, 2) == [q0, q1];
    TwoAsked(q0, q1);
  }
}
