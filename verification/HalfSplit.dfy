/** The sort-and-halve page split shared by the fixed-size and variable-size
    btree_gist keys, with the key union as a parameter. */
module HalfSplit {
  import opened Optional

  predicate InRange<K>(entries: seq<K>, offs: seq<nat>)
  {
    forall i :: 0 <= i < |offs| ==> offs[i] < |entries|
  }

  /** What the library sort delivers: every offset exactly once, in key order. */
  predicate SortedOrder<K>(cmp: (K, K) -> int, entries: seq<K>, order: seq<nat>)
  {
    && |order| == |entries|
    && InRange(entries, order)
    && (forall i, j :: 0 <= i < j < |order| ==> order[i] != order[j])
    && (forall i, j :: 0 <= i < j < |order| ==> cmp(entries[order[i]], entries[order[j]]) <= 0)
  }

  function Pick<K>(entries: seq<K>, offs: seq<nat>): (ks: seq<K>)
    requires InRange(entries, offs)
    ensures |ks| == |offs|
    ensures forall i :: 0 <= i < |offs| ==> ks[i] == entries[offs[i]]
  {
    seq(|offs|, i requires 0 <= i < |offs| => entries[offs[i]])
  }

  /** Running union of ks[lo..hi]; no key yet means no union yet. */
  function Fold<K>(union: (Option<K>, K) -> K, ks: seq<K>, lo: nat, hi: nat): Option<K>
    requires lo <= hi <= |ks|
  {
    if lo == hi then None else Some(union(Fold(union, ks, lo, hi - 1), ks[hi - 1]))
  }

  /** Deal the sorted entries out, first half left and the rest right: every
      offset lands on exactly one side and neither side is empty. */
  method Halve<K>(union: (Option<K>, K) -> K, entries: seq<K>, order: seq<nat>)
    returns (left: seq<nat>, right: seq<nat>, l: K, r: K)
    requires |order| == |entries| >= 2 && InRange(entries, order)
    ensures left + right == order && |left| == |entries| / 2
    ensures left != [] && right != []
    ensures InRange(entries, left) && InRange(entries, right)
    ensures Fold(union, Pick(entries, left), 0, |left|) == Some(l)
    ensures Fold(union, Pick(entries, right), 0, |right|) == Some(r)
  {
    var h := |entries| / 2;
    left, l := Deal(union, entries, order, 0, h);
    right, r := Deal(union, entries, order, h, |order|);
    assert order[..h] + order[h..] == order;
  }

  /** The rounds of the loop that fill one side: offsets lo to hi of the sorted order. */
  method Deal<K>(union: (Option<K>, K) -> K, entries: seq<K>, order: seq<nat>, lo: nat, hi: nat)
    returns (side: seq<nat>, key: K)
    requires InRange(entries, order) && lo < hi <= |order|
    ensures side == order[lo..hi] && InRange(entries, side)
    ensures Fold(union, Pick(entries, side), 0, |side|) == Some(key)
  {
    var u: Option<K> := None;
    side := [];
    var i := lo;
    while i < hi
      invariant lo <= i <= hi && side == order[lo..i] && InRange(entries, side)
      invariant u == Fold(union, Pick(entries, order), lo, i) && (i > lo ==> u.Some?)
    {
      side := side + [order[i]];
      u := Some(union(u, entries[order[i]]));
      i := i + 1;
    }
    key := u.value;
    FoldShift(union, Pick(entries, order), lo, Pick(entries, side), |side|);
  }

  lemma {:induction false} FoldShift<K>(union: (Option<K>, K) -> K, ks: seq<K>, lo: nat, part: seq<K>, n: nat)
    requires lo + n <= |ks| && n <= |part|
    requires forall i :: 0 <= i < n ==> part[i] == ks[lo + i]
    ensures Fold(union, part, 0, n) == Fold(union, ks, lo, lo + n)
  {
    if n > 0 {
      FoldShift(union, ks, lo, part, n - 1);
    }
  }
}
