/** Byte-string (and attribute-list) order: the first difference decides, and a
    proper prefix sorts before its extensions. */
module LexOrder {

  /** Length of the longest common prefix. */
  function CommonPrefix(a: seq<int>, b: seq<int>): (k: nat)
    ensures k <= |a| && k <= |b|
  {
    FirstDifference(a, b, 0)
  }

  /** The first place from i on where the two differ or one of them ends. */
  function FirstDifference(a: seq<int>, b: seq<int>, i: nat): (k: nat)
    requires i <= |a| && i <= |b|
    ensures i <= k <= |a| && k <= |b|
    decreases |a| - i
  {
    if i == |a| || i == |b| || a[i] != b[i] then i else FirstDifference(a, b, i + 1)
  }

  lemma {:induction false} DiffersThere(a: seq<int>, b: seq<int>, i: nat)
    requires i <= |a| && i <= |b|
    ensures var k := FirstDifference(a, b, i);
      (forall j :: i <= j < k ==> a[j] == b[j]) && (k < |a| && k < |b| ==> a[k] != b[k])
    decreases |a| - i
  {
    if i < |a| && i < |b| && a[i] == b[i] {
      DiffersThere(a, b, i + 1);
    }
  }

  lemma PrefixFacts(a: seq<int>, b: seq<int>)
    ensures var k := CommonPrefix(a, b);
      (forall i :: 0 <= i < k ==> a[i] == b[i]) && (k < |a| && k < |b| ==> a[k] != b[k])
  {
    DiffersThere(a, b, 0);
  }

  lemma CommonPrefixIs(a: seq<int>, b: seq<int>, k: nat)
    requires k <= |a| && k <= |b|
    requires forall i :: 0 <= i < k ==> a[i] == b[i]
    requires k < |a| && k < |b| ==> a[k] != b[k]
    ensures CommonPrefix(a, b) == k
  {
    PrefixFacts(a, b);
  }

  lemma CommonPrefixAtLeast(a: seq<int>, b: seq<int>, k: nat)
    requires k <= |a| && k <= |b|
    requires forall i :: 0 <= i < k ==> a[i] == b[i]
    ensures k <= CommonPrefix(a, b)
  {
    PrefixFacts(a, b);
  }

  /** Three-way comparison: the first differing element decides, then the lengths. */
  function Compare(a: seq<int>, b: seq<int>): (c: int)
  {
    var k := CommonPrefix(a, b);
    if k < |a| && k < |b| then (if a[k] < b[k] then -1 else 1)
    else if |a| == |b| then 0
    else if |a| < |b| then -1 else 1
  }

  predicate Le(a: seq<int>, b: seq<int>) { Compare(a, b) <= 0 }
  predicate Lt(a: seq<int>, b: seq<int>) { Compare(a, b) < 0 }

  /** a has the smaller element at the first place where the two differ. */
  predicate SmallerAt(a: seq<int>, b: seq<int>, k: nat)
  {
    k < |a| && k < |b| && a[k] < b[k] && forall i :: 0 <= i < k ==> a[i] == b[i]
  }

  /** a sorts before b exactly when b extends it, or at the first difference it has the
      smaller element. */
  lemma LtIff(a: seq<int>, b: seq<int>)
    ensures Lt(a, b) <==> (|a| < |b| && forall i :: 0 <= i < |a| ==> a[i] == b[i]) || exists k: nat :: SmallerAt(a, b, k)
    ensures Le(a, b) <==> Lt(a, b) || a == b
  {
    PrefixFacts(a, b);
    CompareZero(a, b);
    assert Lt(a, b) && CommonPrefix(a, b) < |a| ==> SmallerAt(a, b, CommonPrefix(a, b));
  }

  lemma CompareZero(a: seq<int>, b: seq<int>)
    ensures Compare(a, b) == 0 <==> a == b
  {
    PrefixFacts(a, b);
  }

  lemma CompareFlips(a: seq<int>, b: seq<int>)
    ensures Compare(a, b) == -Compare(b, a)
  {
    PrefixFacts(a, b);
    CommonPrefixIs(b, a, CommonPrefix(a, b));
  }

  lemma LeTrans(a: seq<int>, b: seq<int>, c: seq<int>)
    requires Le(a, b) && Le(b, c)
    ensures Le(a, c)
    ensures Lt(a, b) || Lt(b, c) ==> Lt(a, c)
  {
    var p, q := CommonPrefix(a, b), CommonPrefix(b, c);
    PrefixFacts(a, b);
    PrefixFacts(b, c);
    CommonPrefixIs(a, c, if p < q then p else q);
  }

  predicate IsPrefix(a: seq<int>, b: seq<int>) { a <= b }

  lemma PrefixLe(a: seq<int>, b: seq<int>)
    requires IsPrefix(a, b)
    ensures Le(a, b)
  {
    PrefixFacts(a, b);
  }

  /** A value squeezed between two others shares at least their common prefix. */
  lemma SqueezedPrefix(lo: seq<int>, mid: seq<int>, hi: seq<int>)
    requires Le(lo, mid) && Le(mid, hi)
    ensures CommonPrefix(lo, hi) <= CommonPrefix(mid, hi)
    ensures CommonPrefix(lo, hi) <= CommonPrefix(lo, mid)
  {
    PrefixFacts(lo, mid);
    PrefixFacts(mid, hi);
    PrefixFacts(lo, hi);
  }

  predicate Ascends(ks: seq<seq<int>>, i: nat)
    requires i + 1 < |ks|
  {
    Lt(ks[i], ks[i + 1])
  }

  /** Neighbours in order put the whole list in order. */
  lemma {:induction false} NeighboursSort(ks: seq<seq<int>>, i: nat, j: nat)
    requires i < j < |ks| && forall k :: i <= k < j ==> Ascends(ks, k)
    ensures Lt(ks[i], ks[j])
  {
    assert Ascends(ks, j - 1);
    if i < j - 1 {
      NeighboursSort(ks, i, j - 1);
      LeTrans(ks[i], ks[j - 1], ks[j]);
    }
  }

  predicate AllAscend(ks: seq<seq<int>>) { forall i :: 0 <= i < |ks| - 1 ==> Ascends(ks, i) }

  lemma AscendJoin(a: seq<seq<int>>, b: seq<seq<int>>)
    requires AllAscend(a) && AllAscend(b) && (a != [] && b != [] ==> Lt(a[|a| - 1], b[0]))
    ensures AllAscend(a + b)
  {
    var ks := a + b;
    forall i | 0 <= i < |ks| - 1 ensures Ascends(ks, i) {
      if i + 1 < |a| {
        assert Ascends(a, i);
      } else if i >= |a| {
        assert Ascends(b, i - |a|);
      }
    }
  }
}
