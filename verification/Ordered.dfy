/** Byte strings in falling order, and the search in them.  The order is a three-way
    comparison, as strcmp is one. */
module Ordered {
  import opened CStrings
  import opened Sequences

  type Comparison = (seq<byte>, seq<byte>) -> int

  ghost predicate IsOrder(cmp: Comparison) {
    && (forall a, b :: cmp(a, b) == 0 <==> a == b)
    && (forall a, b :: cmp(a, b) < 0 <==> cmp(b, a) > 0)
    && (forall a, b, c :: cmp(a, b) > 0 && cmp(b, c) > 0 ==> cmp(a, c) > 0)
  }

  lemma {:induction false} StrCmpIsOrder()
    ensures IsOrder(StrCmp)
  {
    forall a, b
      ensures StrCmp(a, b) == 0 <==> a == b
      ensures StrCmp(a, b) < 0 <==> StrCmp(b, a) > 0
    {
      StrCmpZero(a, b);
      StrCmpFlip(a, b);
    }
    forall a, b, c | StrCmp(a, b) > 0 && StrCmp(b, c) > 0
      ensures StrCmp(a, c) > 0
    {
      StrCmpTransitive(a, b, c);
    }
  }

  /** Each name is above those behind it. */
  ghost predicate Falling(names: seq<seq<byte>>, cmp: Comparison) {
    forall i, j :: 0 <= i < j < |names| ==> cmp(names[i], names[j]) > 0
  }

  /** `name` belongs somewhere in `names[lo..hi]`. */
  ghost predicate Between(names: seq<seq<byte>>, lo: nat, hi: nat, name: seq<byte>, cmp: Comparison) {
    && lo <= hi <= |names|
    && (forall i :: 0 <= i < lo ==> cmp(names[i], name) > 0)
    && (forall i :: hi <= i < |names| ==> cmp(names[i], name) < 0)
  }

  /** One comparison of the search: going left or right keeps the name between. */
  lemma {:induction false} Narrow(names: seq<seq<byte>>, lo: nat, j: nat, hi: nat, name: seq<byte>, cmp: Comparison)
    requires IsOrder(cmp) && Falling(names, cmp) && Between(names, lo, hi, name, cmp) && lo <= j < hi
    ensures cmp(names[j], name) < 0 ==> Between(names, lo, j, name, cmp)
    ensures cmp(names[j], name) > 0 ==> Between(names, j + 1, hi, name, cmp)
    ensures cmp(names[j], name) == 0 <==> names[j] == name
  {
    forall i | j < i < |names| && cmp(names[j], name) < 0
      ensures cmp(names[i], name) < 0
    {
      assert cmp(name, names[j]) > 0 && cmp(names[j], names[i]) > 0;
      assert cmp(name, names[i]) > 0;
    }
    forall i | 0 <= i < j && cmp(names[j], name) > 0
      ensures cmp(names[i], name) > 0
    {
      assert cmp(names[i], names[j]) > 0;
    }
  }

  /** A name that belongs between two others is not there. */
  lemma {:induction false} NotThere(names: seq<seq<byte>>, lo: nat, name: seq<byte>, cmp: Comparison)
    requires IsOrder(cmp) && Between(names, lo, lo, name, cmp)
    ensures name !in names
  {
    assert cmp(name, name) == 0;
  }

  lemma {:induction false} FallingDistinct(names: seq<seq<byte>>, cmp: Comparison)
    requires IsOrder(cmp) && Falling(names, cmp)
    ensures NoDuplicates(names)
  {
    forall i, j | 0 <= i < j < |names|
      ensures names[i] != names[j]
    {
      assert cmp(names[i], names[j]) > 0;
    }
  }

  lemma {:induction false} AboveRest(names: seq<seq<byte>>, k: nat, name: seq<byte>, cmp: Comparison)
    requires IsOrder(cmp) && Between(names, k, k, name, cmp)
    ensures forall i :: k <= i < |names| ==> cmp(name, names[i]) > 0
  {
    forall i | k <= i < |names|
      ensures cmp(name, names[i]) > 0
    {
      assert cmp(names[i], name) < 0;
    }
  }

  lemma {:induction false} FallingInserted(names: seq<seq<byte>>, k: nat, name: seq<byte>, cmp: Comparison)
    requires IsOrder(cmp) && Falling(names, cmp) && Between(names, k, k, name, cmp)
    ensures Falling(Inserted(names, k, name), cmp)
  {
    hide IsOrder;
    AboveRest(names, k, name, cmp);
    var r := Inserted(names, k, name);
    assert forall i :: 0 <= i < |r| ==> r[i] == if i < k then names[i] else if i == k then name else names[i - 1];
  }

  lemma {:induction false} FallingRemoved(names: seq<seq<byte>>, k: nat, cmp: Comparison)
    requires Falling(names, cmp) && k < |names|
    ensures Falling(Removed(names, k), cmp)
  {
    var r := Removed(names, k);
    assert forall i :: 0 <= i < |r| ==> r[i] == if i < k then names[i] else names[i + 1];
  }
}
