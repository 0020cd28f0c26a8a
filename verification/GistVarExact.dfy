/** What the union of variable-length keys is, and which inner keys a search follows. */
module GistVarExact {
  import opened BtreeStrategy
  import opened LexOrder
  import opened GistVarKey
  import opened GistVarSearch

  /** The least of the keys' lower bounds, and the greatest of their upper bounds. */
  predicate IsLeastLower(ks: seq<VarKey>, b: seq<int>)
  {
    (exists i :: 0 <= i < |ks| && Lower(ks[i]) == b) && forall i :: 0 <= i < |ks| ==> Le(b, Lower(ks[i]))
  }

  predicate IsGreatestUpper(ks: seq<VarKey>, b: seq<int>)
  {
    (exists i :: 0 <= i < |ks| && Upper(ks[i]) == b) && forall i :: 0 <= i < |ks| ==> Le(Upper(ks[i]), b)
  }

  lemma BoundsStep(ks: seq<VarKey>, n: nat)
    requires 1 < n <= |ks|
    ensures Lower(Bounds(ks, n)) == Lower(ks[n - 1]) || Lower(Bounds(ks, n)) == Lower(Bounds(ks, n - 1))
    ensures Upper(Bounds(ks, n)) == Upper(ks[n - 1]) || Upper(Bounds(ks, n)) == Upper(Bounds(ks, n - 1))
  {
    BinUnionBounds(Bounds(ks, n - 1), ks[n - 1]);
  }

  lemma FirstBounds(ks: seq<VarKey>)
    requires ks != []
    ensures Lower(Bounds(ks, 1)) == Lower(ks[0]) && Upper(Bounds(ks, 1)) == Upper(ks[0])
  {
  }

  lemma {:induction false} LowerAmong(ks: seq<VarKey>, n: nat) returns (i: nat)
    requires 1 <= n <= |ks|
    ensures i < n && Lower(ks[i]) == Lower(Bounds(ks, n))
  {
    hide Lower, Upper, Bounds;
    if n == 1 {
      FirstBounds(ks);
      i := 0;
    } else {
      BoundsStep(ks, n);
      i := LowerAmong(ks, n - 1);
      if Lower(ks[i]) != Lower(Bounds(ks, n)) {
        i := n - 1;
      }
    }
  }

  lemma {:induction false} UpperAmong(ks: seq<VarKey>, n: nat) returns (i: nat)
    requires 1 <= n <= |ks|
    ensures i < n && Upper(ks[i]) == Upper(Bounds(ks, n))
  {
    hide Lower, Upper, Bounds;
    if n == 1 {
      FirstBounds(ks);
      i := 0;
    } else {
      BoundsStep(ks, n);
      i := UpperAmong(ks, n - 1);
      if Upper(ks[i]) != Upper(Bounds(ks, n)) {
        i := n - 1;
      }
    }
  }

  lemma LeastIs(ks: seq<VarKey>, lo: seq<int>)
    requires IsLeastLower(ks, lo)
    ensures ks != [] && Lower(Bounds(ks, |ks|)) == lo
  {
    var i :| 0 <= i < |ks| && Lower(ks[i]) == lo;
    var b := Lower(Bounds(ks, |ks|));
    BoundsAreBounds(ks, |ks|, i);
    var j := LowerAmong(ks, |ks|);
    assert Le(b, lo) && Le(lo, b);
    CompareFlips(b, lo);
    CompareZero(b, lo);
  }

  lemma GreatestIs(ks: seq<VarKey>, hi: seq<int>)
    requires IsGreatestUpper(ks, hi)
    ensures ks != [] && Upper(Bounds(ks, |ks|)) == hi
  {
    var i :| 0 <= i < |ks| && Upper(ks[i]) == hi;
    var b := Upper(Bounds(ks, |ks|));
    BoundsAreBounds(ks, |ks|, i);
    var j := UpperAmong(ks, |ks|);
    assert Le(b, hi) && Le(hi, b);
    CompareFlips(b, hi);
    CompareZero(b, hi);
  }

  /** The first n bytes, or all there are. */
  function Cut(s: seq<int>, n: nat): seq<int> { if n < |s| then s[..n] else s }

  /** A union key is the least lower and the greatest upper bound of its keys, each cut to
      two bytes more than the two share. */
  lemma UnionKeyIs(ks: seq<VarKey>, lo: seq<int>, hi: seq<int>, shared: nat)
    requires IsLeastLower(ks, lo) && IsGreatestUpper(ks, hi)
    requires shared <= |lo| && shared <= |hi| && (forall i :: 0 <= i < shared ==> lo[i] == hi[i])
    requires shared < |lo| && shared < |hi| ==> lo[shared] != hi[shared]
    ensures UnionKey(ks) == NodeKey(Cut(lo, shared + 2), Cut(hi, shared + 2))
  {
    LeastIs(ks, lo);
    GreatestIs(ks, hi);
    CommonPrefixIs(lo, hi, shared);
  }

  // ---------------------------------------------------------------- inner tests

  ghost predicate HoldsAtMost(k: VarKey, query: seq<int>, v: seq<int>) { Covers(k, v) && Le(v, query) }

  /** For less-than and at-most an inner key is followed exactly when some value it may
      hold is at most the query. */
  lemma FollowedBelow(k: VarKey, query: seq<int>, op: Strategy)
    requires Le(Lower(k), Upper(k)) && (op.LessThan? || op.LessEqual?)
    ensures Consistent(k, query, op, false) <==> exists v: seq<int> :: HoldsAtMost(k, query, v)
  {
    CompareFlips(query, Lower(k));
    CompareZero(Lower(k), Lower(k));
    if v: seq<int> :| HoldsAtMost(k, query, v) {
      LeTrans(Lower(k), v, query);
    }
    if Consistent(k, query, op, false) {
      if IsPrefix(Lower(k), query) {
        PrefixLe(Lower(k), query);
      } else if IsPrefix(Upper(k), query) {
        PrefixLe(Upper(k), query);
        LeTrans(Lower(k), Upper(k), query);
      }
      assert HoldsAtMost(k, query, Lower(k));
    }
  }

  /** For the other orders it is skipped exactly when the query lies outside the stored
      bounds and extends neither of them. */
  lemma SkippedElsewhere(k: VarKey, query: seq<int>)
    ensures !Consistent(k, query, GreaterEqual, false) <==>
      Lt(Upper(k), query) && !(Lower(k) <= query) && !(Upper(k) <= query)
    ensures !Consistent(k, query, GreaterThan, false) <==>
      Lt(Upper(k), query) && !(Lower(k) <= query) && !(Upper(k) <= query)
    ensures !Consistent(k, query, Equal, false) <==>
      (Lt(query, Lower(k)) || Lt(Upper(k), query)) && !(Lower(k) <= query) && !(Upper(k) <= query)
    ensures !Consistent(k, query, NotEqual, false) <==> Lower(k) == query == Upper(k)
  {
    CompareFlips(query, Upper(k));
    CompareFlips(query, Lower(k));
  }
}
