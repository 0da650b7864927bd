/** 32-bit words as numbers, with the bit operations of the source. */
module Words {

  const WORDS: nat := 0x1_0000_0000

  type word = w: nat | w < WORDS

  function And(a: nat, b: nat): (r: nat)
    ensures r <= a && r <= b
  {
    if a == 0 || b == 0 then 0 else 2 * And(a / 2, b / 2) + (a % 2) * (b % 2)
  }

  function Or(a: nat, b: nat): (r: nat)
    ensures r >= a && r >= b && r <= a + b
    decreases a + b
  {
    if a == 0 then b else if b == 0 then a
    else 2 * Or(a / 2, b / 2) + (if a % 2 + b % 2 == 0 then 0 else 1)
  }

  function Not(a: word): word {
    WORDS - 1 - a
  }

  /** The value of a word read as a signed integer. */
  function Signed(a: word): int {
    if a < WORDS / 2 then a else a - WORDS
  }

  /** The host part of a prefix mask: ones, and zeros above them. */
  predicate IsHostMask(m: nat) {
    m == 0 || (m % 2 == 1 && IsHostMask(m / 2))
  }

  /** The host part of an address put together from a network without host bits
      and a host number is that host number. */
  lemma {:induction false} HostPart(net: nat, host: nat, m: nat)
    requires IsHostMask(m) && And(net, m) == 0 && host <= m
    ensures And(Or(net, host), m) == host
  {
    hide And, Or, IsHostMask;
    OrNone(net, host);
    if m > 0 && net > 0 {
      AndOnes(net, m);
      HostPart(net / 2, host / 2, m / 2);
      if host > 0 {
        OrUnfold(net, host);
        AndOnes(Or(net, host), m);
      }
    } else if m > 0 {
      AndSmall(host, m);
    }
  }

  lemma {:induction false} AndOnes(a: nat, m: nat)
    requires IsHostMask(m) && m > 0 && a > 0
    ensures And(a, m) == 2 * And(a / 2, m / 2) + a % 2 && IsHostMask(m / 2) && m % 2 == 1
  {
  }

  lemma {:induction false} OrNone(a: nat, b: nat)
    ensures Or(a, 0) == a && Or(0, b) == b && And(0, b) == 0 && And(a, 0) == 0
  {
  }

  lemma {:induction false} OrUnfold(a: nat, b: nat)
    requires a > 0 && b > 0
    ensures Or(a, b) == 2 * Or(a / 2, b / 2) + (if a % 2 + b % 2 == 0 then 0 else 1) && Or(a, b) > 0
  {
  }

  lemma {:induction false} AndSmall(host: nat, m: nat)
    requires IsHostMask(m) && host <= m
    ensures And(host, m) == host
  {
    if m > 0 {
      AndSmall(host / 2, m / 2);
    }
  }

  ghost function TwoTo(n: nat): nat {
    if n == 0 then 1 else 2 * TwoTo(n - 1)
  }

  lemma {:induction false} OrBelow(a: nat, b: nat, n: nat)
    requires a < TwoTo(n) && b < TwoTo(n)
    ensures Or(a, b) < TwoTo(n)
  {
    if a > 0 && b > 0 {
      OrBelow(a / 2, b / 2, n - 1);
    }
  }

  /** Bitwise or of two words is a word. */
  function OrWord(a: word, b: word): (r: word)
    ensures r == Or(a, b)
  {
    assert TwoTo(8) == 0x100;
    assert TwoTo(16) == 0x1_0000;
    assert TwoTo(24) == 0x100_0000;
    assert TwoTo(32) == WORDS;
    OrBelow(a, b, 32);
    Or(a, b)
  }
}
