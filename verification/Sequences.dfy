/** Sequences with one element put in, taken out, or moved to the end. */
module Sequences {

  /** The sequence `s` with `n` put in at `k`. */
  function Inserted<T>(s: seq<T>, k: nat, n: T): seq<T>
    requires k <= |s|
  {
    s[..k] + [n] + s[k..]
  }

  function Removed<T>(s: seq<T>, k: nat): seq<T>
    requires k < |s|
  {
    s[..k] + s[k + 1..]
  }

  ghost function Elements<T>(s: seq<T>): set<T> {
    set x | x in s
  }

  lemma {:induction false} IndexIn<T>(s: seq<T>, x: T) returns (i: nat)
    requires x in Elements(s)
    ensures i < |s| && s[i] == x
  {
    i :| 0 <= i < |s| && s[i] == x;
  }

  /** `s'` is `s` without the element `n`, found at `k`. */
  ghost predicate Without<T>(s: seq<T>, k: nat, n: T, s': seq<T>) {
    k < |s| && s[k] == n && s' == Removed(s, k)
  }

  ghost predicate NoDuplicates<T>(s: seq<T>) {
    forall i, j :: 0 <= i < j < |s| ==> s[i] != s[j]
  }

  lemma {:induction false} InsertedElements<T>(s: seq<T>, k: nat, n: T)
    requires k <= |s|
    ensures Elements(Inserted(s, k, n)) == Elements(s) + {n}
  {
    assert s == s[..k] + s[k..];
  }

  /** The sequence with its `k`-th element moved to the end. */
  function Moved<T>(s: seq<T>, k: nat): seq<T>
    requires k < |s|
  {
    s[..k] + s[k + 1..] + [s[k]]
  }

  lemma {:induction false} MovedIndex<T>(s: seq<T>, k: nat)
    requires k < |s|
    ensures |Moved(s, k)| == |s|
    ensures forall i :: 0 <= i < |s| ==> Moved(s, k)[i] == if i < k then s[i] else if i < |s| - 1 then s[i + 1] else s[k]
    ensures Elements(Moved(s, k)) == Elements(s)
    ensures NoDuplicates(s) ==> NoDuplicates(Moved(s, k))
  {
    var m := Moved(s, k);
    assert forall i :: 0 <= i < |s| ==> s[i] == if i < k then m[i] else if i == k then m[|s| - 1] else m[i - 1];
  }

  lemma {:induction false} RemovedSet<T>(s: seq<T>, k: nat)
    requires NoDuplicates(s) && k < |s|
    ensures Elements(Removed(s, k)) == Elements(s) - {s[k]}
  {
    var r := Removed(s, k);
    assert forall i :: 0 <= i < |s| && i != k ==> s[i] == (if i < k then r[i] else r[i - 1]);
  }
}
