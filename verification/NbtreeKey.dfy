/** B-tree index tuples and the comparisons amcheck makes on them.  Attribute values
    stand for their rank in the column's order, nulls and direction included. */
module NbtreeKey {
  import opened Optional
  import opened LexOrder

  /** Key attributes left after suffix truncation, and heap TIDs in order: none for a
      truncated pivot, one for a plain tuple, more for a posting list. */
  datatype Tuple = Tuple(attrs: seq<int>, tids: seq<int>)

  /** The attribute counts _bt_check_natts allows: a heap TID only after all of them. */
  predicate TupleOK(t: Tuple, n: nat) { |t.attrs| <= n && (t.tids != [] ==> |t.attrs| == n) }

  predicate LeafOK(t: Tuple, n: nat) { |t.attrs| == n && t.tids != [] && Increasing(t.tids) }

  predicate PivotOK(t: Tuple, n: nat) { TupleOK(t, n) && |t.tids| <= 1 }

  predicate Increasing(s: seq<int>) { forall i, j :: 0 <= i < j < |s| ==> s[i] < s[j] }

  /** A tuple's place in the key space, by its first and by its last heap TID; what was
      truncated away is minus infinity. */
  function Low(t: Tuple): seq<int> { if t.tids == [] then t.attrs else t.attrs + [t.tids[0]] }

  function High(t: Tuple): seq<int> { if t.tids == [] then t.attrs else t.attrs + [t.tids[|t.tids| - 1]] }

  /** An insertion scan key. */
  datatype ScanKey = ScanKey(keys: seq<int>, scantid: Option<int>)

  function MkScanKey(t: Tuple): ScanKey { ScanKey(t.attrs, if t.tids == [] then None else Some(t.tids[0])) }

  function MaxScanKey(t: Tuple): ScanKey { ScanKey(t.attrs, if t.tids == [] then None else Some(t.tids[|t.tids| - 1])) }

  function Sign(a: int, b: int): int { if a < b then -1 else if a > b then 1 else 0 }

  /** The heap TID tiebreak of _bt_compare, once all compared attributes are equal. */
  function TieBreak(key: ScanKey, t: Tuple): int
  {
    if |key.keys| > |t.attrs| then 1
    else if key.scantid.None? then 0
    else if t.tids == [] then 1
    else if key.scantid.value <= t.tids[0] || |t.tids| == 1 then Sign(key.scantid.value, t.tids[0])
    else if key.scantid.value > t.tids[|t.tids| - 1] then 1 else 0
  }

  /** What _bt_compare returns, up to sign, for a backward pivot search. */
  function Compared(key: ScanKey, t: Tuple): int
  {
    var k := CommonPrefix(key.keys, t.attrs);
    if k < |key.keys| && k < |t.attrs| then Sign(key.keys[k], t.attrs[k]) else TieBreak(key, t)
  }

  /** _bt_compare: attribute by attribute, then the tiebreak. */
  method BtCompare(key: ScanKey, t: Tuple) returns (c: int)
    ensures c == Compared(key, t)
  {
    var n := if |t.attrs| < |key.keys| then |t.attrs| else |key.keys|;
    var i := 0;
    while i < n
      invariant 0 <= i <= n && forall k :: 0 <= k < i ==> key.keys[k] == t.attrs[k]
    {
      c := Sign(key.keys[i], t.attrs[i]);
      if c != 0 {
        CommonPrefixIs(key.keys, t.attrs, i);
        return;
      }
      i := i + 1;
    }
    CommonPrefixIs(key.keys, t.attrs, n);
    c := TieBreak(key, t);
  }

  /** invariant_l_offset and invariant_l_nontarget_offset: strictly less, with scan key
      attributes that were truncated away taken as minus infinity. */
  predicate IsLess(key: ScanKey, t: Tuple) { LessAfter(Compared(key, t), key, t) }

  /** What invariant_l_offset makes of a comparison: equal so far, the one with more
      attributes, or the one with a heap TID, is greater. */
  predicate LessAfter(c: int, key: ScanKey, t: Tuple)
  {
    if c != 0 then c < 0
    else if |key.keys| == |t.attrs| then key.scantid.None? && t.tids != []
    else |key.keys| < |t.attrs|
  }

  predicate IsLeq(key: ScanKey, t: Tuple) { Compared(key, t) <= 0 }

  predicate IsGreater(key: ScanKey, t: Tuple) { Compared(key, t) > 0 }

  lemma ExtendCompare(a: seq<int>, x: seq<int>, b: seq<int>, y: seq<int>)
    requires |x| <= 1 && |y| <= 1 && (x != [] ==> |b| <= |a|) && (y != [] ==> |a| <= |b|)
    ensures Compare(a + x, b + y) ==
      var k := CommonPrefix(a, b);
      if k < |a| && k < |b| then Sign(a[k], b[k])
      else if |a| != |b| then Sign(|a|, |b|)
      else if x == [] || y == [] then Sign(|x|, |y|)
      else Sign(x[0], y[0])
  {
    var k := CommonPrefix(a, b);
    PrefixFacts(a, b);
    if k < |a| && k < |b| {
      CommonPrefixIs(a + x, b + y, k);
    } else if |a| == |b| {
      assert a == b;
      SameCompare(a, x, y);
    } else if |a| < |b| {
      PrefixCompare(a, b, y);
      assert a + x == a;
    } else {
      CommonPrefixIs(b, a, k);
      PrefixCompare(b, a, x);
      assert b + y == b;
      CompareFlips(b, a + x);
    }
  }

  lemma SameCompare(a: seq<int>, x: seq<int>, y: seq<int>)
    requires |x| <= 1 && |y| <= 1
    ensures Compare(a + x, a + y) == if x == [] || y == [] then Sign(|x|, |y|) else Sign(x[0], y[0])
  {
    CommonPrefixIs(a + x, a + y, if x != [] && y != [] && x[0] == y[0] then |a| + 1 else |a|);
  }

  lemma PrefixCompare(a: seq<int>, b: seq<int>, y: seq<int>)
    requires |a| < |b| && CommonPrefix(a, b) == |a|
    ensures Compare(a, b + y) == -1
  {
    PrefixFacts(a, b);
    CommonPrefixIs(a, b + y, |a|);
  }

  /** The three checks decide the key-space order. */
  lemma LessIffLt(s: Tuple, t: Tuple, n: nat)
    requires TupleOK(s, n) && TupleOK(t, n) && Increasing(t.tids)
    ensures IsLess(MkScanKey(s), t) <==> Lt(Low(s), Low(t))
  {
    ExtendCompare(s.attrs, if s.tids == [] then [] else [s.tids[0]], t.attrs, if t.tids == [] then [] else [t.tids[0]]);
    assert s.attrs + [] == s.attrs && t.attrs + [] == t.attrs;
  }

  lemma LeqIffLe(s: Tuple, t: Tuple, n: nat)
    requires LeafOK(s, n) && PivotOK(t, n)
    ensures IsLeq(MaxScanKey(s), t) <==> Le(High(s), Low(t))
  {
    ExtendCompare(s.attrs, [s.tids[|s.tids| - 1]], t.attrs, if t.tids == [] then [] else [t.tids[0]]);
    assert t.attrs + [] == t.attrs;
  }

  lemma Against(s: Tuple, t: Tuple)
    requires (s.tids != [] ==> |t.attrs| <= |s.attrs|) && (t.tids != [] ==> |s.attrs| <= |t.attrs|)
    ensures Compare(Low(s), High(t)) ==
      var k := CommonPrefix(s.attrs, t.attrs);
      if k < |s.attrs| && k < |t.attrs| then Sign(s.attrs[k], t.attrs[k])
      else if |s.attrs| != |t.attrs| then Sign(|s.attrs|, |t.attrs|)
      else if s.tids == [] || t.tids == [] then (if s.tids == [] && t.tids == [] then 0 else if s.tids == [] then -1 else 1)
      else Sign(s.tids[0], t.tids[|t.tids| - 1])
  {
    ExtendCompare(s.attrs, if s.tids == [] then [] else [s.tids[0]], t.attrs, if t.tids == [] then [] else [t.tids[|t.tids| - 1]]);
    assert s.attrs + [] == s.attrs && t.attrs + [] == t.attrs;
  }

  lemma GreaterIffLt(s: Tuple, t: Tuple, n: nat)
    requires TupleOK(s, n) && TupleOK(t, n) && Increasing(t.tids)
    ensures IsGreater(MkScanKey(s), t) <==> Lt(High(t), Low(s))
  {
    Against(s, t);
    CompareFlips(Low(s), High(t));
  }

  lemma LowLeHigh(t: Tuple)
    requires Increasing(t.tids)
    ensures Le(Low(t), High(t))
  {
    if t.tids != [] {
      ExtendCompare(t.attrs, [t.tids[0]], t.attrs, [t.tids[|t.tids| - 1]]);
      CommonPrefixIs(t.attrs, t.attrs, |t.attrs|);
    } else {
      CompareZero(t.attrs, t.attrs);
    }
  }
}
