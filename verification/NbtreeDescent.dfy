/** What acceptance says about searches: items lie between the pivots around their
    downlink, and in a tree of a root and leaves every stored key is found. */
module NbtreeDescent {
  import opened Optional
  import opened LexOrder
  import opened NbtreeKey
  import opened NbtreePage
  import opened NbtreeWalk
  import opened NbtreeLevel
  import opened NbtreeChild
  import opened NbtreeParent

  /** The item loop of bt_child_check: the pivot is strictly below every child item. */
  predicate BoundGood(child: Page, pivot: Tuple)
  {
    !child.deleted && forall i :: 0 <= i < |child.items| && !MinusInfinity(child, i) ==> AbovePivot(child, pivot, i)
  }

  predicate AbovePivot(child: Page, pivot: Tuple, i: nat)
    requires i < |child.items|
  {
    IsLess(MkScanKey(pivot), child.items[i].key)
  }

  method CheckBound(child: Page, pivot: Tuple) returns (ok: bool)
    ensures ok <==> BoundGood(child, pivot)
  {
    if child.deleted {
      return false;
    }
    var i := 0;
    while i < |child.items|
      invariant 0 <= i <= |child.items|
      invariant forall k :: 0 <= k < i && !MinusInfinity(child, k) ==> AbovePivot(child, pivot, k)
    {
      if !MinusInfinity(child, i) {
        var c := BtCompare(MkScanKey(pivot), child.items[i].key);
        if !LessAfter(c, MkScanKey(pivot), child.items[i].key) {
          assert !AbovePivot(child, pivot, i);
          return false;
        }
      }
      i := i + 1;
    }
    ok := true;
  }

  // ------------------------------------- no splits or deletions under way

  predicate NoneIgnorable(pages: Pages) { forall b :: b in pages ==> !Ignorable(pages[b]) }

  /** Nothing on the child level is half done. */
  predicate Quiet(pages: Pages, c: seq<nat>)
  {
    NoneIgnorable(pages) && forall i :: 0 <= i < |c| ==> c[i] in pages && !pages[c[i]].incomplete
  }

  /** A child that claims to be the root, which the missing-downlink test excuses, has a
      downlink all the same. */
  predicate RootsLinked(pages: Pages, c: seq<nat>, slots: seq<Slot>)
  {
    forall x :: 0 <= x < |c| && c[x] in pages && pages[c[x]].root ==> HasDownlink(slots, c[x])
  }

  predicate HasDownlink(slots: seq<Slot>, blk: nat) { exists k :: 0 <= k < |slots| && slots[k].down == blk }

  predicate Settled(pages: Pages, c: seq<nat>, slots: seq<Slot>) { Quiet(pages, c) && RootsLinked(pages, c, slots) }

  predicate OneToOne(slots: seq<Slot>, c: seq<nat>) { |slots| == |c| && forall x :: 0 <= x < |c| ==> slots[x].down == c[x] }

  lemma {:induction false} NoDeletion(pages: Pages, top: nat, blk: nat)
    requires NoneIgnorable(pages) && Loads(pages, blk)
    ensures !DeletionChain(pages, top, blk)
    decreases pages[blk].level
  {
    var p := pages[blk];
    if !p.leaf && p.items != [] && Loads(pages, p.items[0].down) && p.level > 0 && pages[p.items[0].down].level == p.level - 1 {
      NoDeletion(pages, top, p.items[0].down);
    }
  }

  /** A walk that succeeds meets every downlink still to come. */
  lemma {:induction false} MetLater(pages: Pages, c: seq<nat>, level: nat, slots: seq<Slot>, k: nat, i: nat, m: nat) returns (j: nat)
    requires ChildChain(pages, c) && k <= m < |slots| && i <= |c| && Walk(pages, c, level, slots, k, i)
    ensures i <= j < |c| && c[j] == slots[m].down
    decreases |c| - i
  {
    var met := slots[k].down == c[i];
    if met && k == m {
      j := i;
    } else {
      j := MetLater(pages, c, level, slots, if met then k + 1 else k, i + 1, m);
    }
  }

  /** The next child has its downlink next, if one it must have. */
  lemma MetNow(pages: Pages, c: seq<nat>, level: nat, slots: seq<Slot>, i: nat)
    requires ChildChain(pages, c) && SlotsOK(slots, c) && Settled(pages, c, slots)
    requires i < |c| && i <= |slots| && Walk(pages, c, level, slots, i, i) && forall x :: 0 <= x < i ==> slots[x].down == c[x]
    ensures i < |slots| && slots[i].down == c[i]
  {
    if !(i < |slots| && slots[i].down == c[i]) {
      NoDeletion(pages, c[i], c[i]);
      var k :| 0 <= k < |slots| && slots[k].down == c[i];
      assert k >= i;
      var j := MetLater(pages, c, level, slots, i, i + 1, k);
      assert false;
    }
  }

  lemma {:induction false} AllMet(pages: Pages, c: seq<nat>, level: nat, slots: seq<Slot>, i: nat)
    requires ChildChain(pages, c) && SlotsOK(slots, c) && Settled(pages, c, slots)
    requires i <= |c| && i <= |slots| && Walk(pages, c, level, slots, i, i) && forall x :: 0 <= x < i ==> slots[x].down == c[x]
    ensures OneToOne(slots, c)
    ensures forall x :: i <= x < |c| ==> HikeyGood(pages[c[x]], slots[x].next)
    decreases |c| - i
  {
    if i < |c| {
      MetNow(pages, c, level, slots, i);
      AllMet(pages, c, level, slots, i + 1);
    }
  }

  /** With nothing half done, downlinks and children match one to one exactly when no
      child without downlink claims to be the root. */
  lemma OneToOneIff(pages: Pages, c: seq<nat>, level: nat, slots: seq<Slot>)
    requires ChildChain(pages, c) && SlotsOK(slots, c) && Quiet(pages, c) && Walk(pages, c, level, slots, 0, 0)
    ensures OneToOne(slots, c) <==> RootsLinked(pages, c, slots)
  {
    if RootsLinked(pages, c, slots) {
      AllMet(pages, c, level, slots, 0);
    }
    if OneToOne(slots, c) {
      forall x | 0 <= x < |c| ensures HasDownlink(slots, c[x]) {
        assert slots[x].down == c[x];
      }
    }
  }

  /** Each child's key space is bounded above by the parent's next pivot: at or below
      for leaf items, strictly below for others. */
  lemma UnderNextPivot(pages: Pages, c: seq<nat>, level: nat, slots: seq<Slot>, n: nat, right: Option<Tuple>, x: nat, i: nat)
    requires ChildChain(pages, c) && SlotsOK(slots, c) && Settled(pages, c, slots) && Walk(pages, c, level, slots, 0, 0)
    requires x + 1 < |c| && PageGood(pages[c[x]], n, right)
    requires i < |pages[c[x]].items| && !MinusInfinity(pages[c[x]], i)
    ensures |slots| == |c| && slots[x].down == c[x] && slots[x].next.Some?
    ensures var p, bound := pages[c[x]], slots[x].next.value;
      if p.leaf then Le(High(p.items[i].key), Low(bound)) else Lt(Low(p.items[i].key), Low(bound))
  {
    AllMet(pages, c, level, slots, 0);
    assert Follows(pages, c, x) && Loads(pages, c[x + 1]);
    GoodUnderHikey(pages[c[x]], n, right, i);
  }

  /** And below by its own pivot, strictly, unless that is minus infinity. */
  lemma AboveOwnPivot(child: Page, pivot: Tuple, n: nat, right: Option<Tuple>, i: nat)
    requires PageGood(child, n, right) && PivotOK(pivot, n) && BoundGood(child, pivot)
    requires i < |child.items| && !MinusInfinity(child, i)
    ensures Lt(Low(pivot), Low(child.items[i].key))
  {
    assert ItemGood(child, n, i, right) && AbovePivot(child, pivot, i);
    LessIffLt(pivot, child.items[i].key, n);
  }

  /** A good child passes the bound check exactly when it is not deleted and all its items,
      minus infinity aside, lie strictly above the pivot. */
  lemma BoundGoodIff(child: Page, pivot: Tuple, n: nat, right: Option<Tuple>)
    requires PageGood(child, n, right) && TupleOK(pivot, n)
    ensures BoundGood(child, pivot) <==>
      !child.deleted && forall i :: 0 <= i < |child.items| && (child.leaf || i > 0) ==> Lt(Low(pivot), Low(child.items[i].key))
  {
    forall i | 0 <= i < |child.items| && !MinusInfinity(child, i)
      ensures AbovePivot(child, pivot, i) <==> Lt(Low(pivot), Low(child.items[i].key))
    {
      assert ItemGood(child, n, i, right);
      LessIffLt(pivot, child.items[i].key, n);
    }
  }

  // ----------------------------------------------------- search in one page

  /** The scan key compares above item j; the first item counts as minus infinity. */
  predicate Passes(p: Page, key: ScanKey, j: nat)
    requires j < |p.items|
  {
    j == 0 || IsGreater(key, p.items[j].key)
  }

  /** The last item the key passes. */
  predicate Lands(p: Page, key: ScanKey, j: nat)
  {
    j < |p.items| && Passes(p, key, j) && forall k :: j < k < |p.items| ==> !Passes(p, key, k)
  }

  /** _bt_binsrch on an internal page: the last item below the key. */
  method BinarySearch(p: Page, key: ScanKey) returns (j: nat)
    requires !p.leaf && p.items != []
    requires forall a, b :: 0 <= a < b < |p.items| && Passes(p, key, b) ==> Passes(p, key, a)
    ensures Lands(p, key, j)
  {
    var low, high := 0, |p.items|;
    while high > low
      invariant 0 <= low <= high <= |p.items|
      invariant forall k :: 0 <= k < low ==> Passes(p, key, k)
      invariant forall k :: high <= k < |p.items| ==> !Passes(p, key, k)
    {
      var mid := low + (high - low) / 2;
      var result := 1;
      if mid != 0 {
        result := BtCompare(key, p.items[mid].key);
      }
      if result >= 1 {
        assert Passes(p, key, mid);
        low := mid + 1;
      } else {
        assert !Passes(p, key, mid);
        high := mid;
      }
    }
    assert Passes(p, key, 0);
    j := low - 1;
  }

  lemma PassesIffAbove(p: Page, n: nat, right: Option<Tuple>, t: Tuple, j: nat)
    requires !p.leaf && PageGood(p, n, right) && 0 < j < |p.items| && TupleOK(t, n)
    ensures Passes(p, MkScanKey(t), j) <==> Lt(Low(p.items[j].key), Low(t))
  {
    assert ItemGood(p, n, j, right);
    GreaterIffLt(t, p.items[j].key, n);
  }

  /** In a good page the items a key passes are the first ones. */
  lemma PassesDown(p: Page, n: nat, right: Option<Tuple>, t: Tuple, a: nat, b: nat)
    requires !p.leaf && PageGood(p, n, right) && a < b < |p.items| && TupleOK(t, n)
    requires Passes(p, MkScanKey(t), b)
    ensures Passes(p, MkScanKey(t), a)
  {
    if a > 0 {
      PassesIffAbove(p, n, right, t, a);
      PassesIffAbove(p, n, right, t, b);
      GoodPageSorted(p, n, right, a, b);
      LeTrans(Low(p.items[a].key), Low(p.items[b].key), Low(t));
    }
  }

  // --------------------------------------------------------- root and leaves

  /** Read-only acceptance of a root over leaves. */
  ghost predicate Accepted(pages: Pages, root: nat, n: nat, c: seq<nat>)
  {
    && NoneIgnorable(pages) && Level(pages, root, 1, true, n, [root])
    && var r := pages[root];
       && r.items != [] && Level(pages, r.items[0].down, 0, false, n, c) && (LevelIsChain(pages, r.items[0].down, 0, n, c); true)
       && Walk(pages, c, 1, PageSlots(r, None), 0, 0)
       && forall x :: 0 < x < |r.items| ==> DownBound(pages, r, x)
  }

  predicate DownBound(pages: Pages, r: Page, x: nat)
    requires x < |r.items|
  {
    r.items[x].down in pages && BoundGood(pages[r.items[x].down], r.items[x].key)
  }

  lemma RootSlots(pages: Pages, root: nat, n: nat, c: seq<nat>)
    requires Accepted(pages, root, n, c)
    ensures ChildChain(pages, c) && SlotsOK(PageSlots(pages[root], None), c)
  {
    LevelIsChain(pages, pages[root].items[0].down, 0, n, c);
    var slots := PageSlots(pages[root], None);
    forall k | 0 < k < |slots| ensures Joined(slots, k) {
    }
  }

  /** One heap TID of a leaf tuple, as the key a search for it uses. */
  function Single(t: Tuple, m: nat): Tuple
    requires m < |t.tids|
  {
    Tuple(t.attrs, [t.tids[m]])
  }

  lemma SingleWithin(t: Tuple, m: nat)
    requires m < |t.tids| && Increasing(t.tids)
    ensures Le(Low(t), Low(Single(t, m))) && Le(Low(Single(t, m)), High(t))
  {
    SameCompare(t.attrs, [t.tids[0]], [t.tids[m]]);
    SameCompare(t.attrs, [t.tids[m]], [t.tids[|t.tids| - 1]]);
  }

  /** The key of a stored heap TID lies above the pivot of its leaf and not above the
      next one. */
  lemma StoredBetween(pages: Pages, root: nat, n: nat, c: seq<nat>, x: nat, i: nat, m: nat)
    requires Accepted(pages, root, n, c) && Settled(pages, c, PageSlots(pages[root], None)) && x < |c|
    requires i < |pages[c[x]].items| && m < |pages[c[x]].items[i].key.tids|
    ensures var r, t := pages[root], Single(pages[c[x]].items[i].key, m);
      && |r.items| == |c| && r.items[x].down == c[x] && LeafOK(pages[c[x]].items[i].key, n)
      && (x > 0 ==> Lt(Low(r.items[x].key), Low(t)))
      && (x + 1 < |c| ==> Le(Low(t), Low(r.items[x + 1].key)))
  {
    var r, p := pages[root], pages[c[x]];
    var slots, key := PageSlots(r, None), p.items[i].key;
    hide Settled, SlotsOK, Walk;
    RootSlots(pages, root, n, c);
    AllMet(pages, c, 1, slots, 0);
    var right := LiveIsGood(pages, r.items[0].down, 0, false, n, c, x);
    assert slots[x].down == c[x];
    assert ItemGood(p, n, i, right);
    SingleWithin(key, m);
    if x > 0 {
      assert DownBound(pages, r, x);
      RootIsGood(pages, root, n, c);
      StoredAbove(r, n, p, right, x, i, m);
    }
    if x + 1 < |c| {
      UnderNextPivot(pages, c, 1, slots, n, right, x, i);
      LeTrans(Low(Single(key, m)), High(key), Low(r.items[x + 1].key));
    }
  }

  /** The root is rightmost, so nothing lies to its right. */
  lemma RootIsGood(pages: Pages, root: nat, n: nat, c: seq<nat>)
    requires Accepted(pages, root, n, c)
    ensures !pages[root].leaf && PageGood(pages[root], n, None)
  {
    var _ := LiveIsGood(pages, root, 1, true, n, [root], 0);
  }

  lemma StoredAbove(r: Page, n: nat, p: Page, right: Option<Tuple>, x: nat, i: nat, m: nat)
    requires PageGood(r, n, None) && !r.leaf && 0 < x < |r.items| && p.leaf && PageGood(p, n, right)
    requires BoundGood(p, r.items[x].key) && i < |p.items| && m < |p.items[i].key.tids|
    ensures Lt(Low(r.items[x].key), Low(Single(p.items[i].key, m)))
  {
    assert ItemGood(r, n, x, None) && ItemGood(p, n, i, right);
    AboveOwnPivot(p, r.items[x].key, n, right, i);
    SingleWithin(p.items[i].key, m);
    LeTrans(Low(r.items[x].key), Low(p.items[i].key), Low(Single(p.items[i].key, m)));
  }

  /** So a search from the root goes to the leaf that holds it. */
  lemma SearchReaches(pages: Pages, root: nat, n: nat, c: seq<nat>, x: nat, i: nat, m: nat, j: nat)
    requires Accepted(pages, root, n, c) && Settled(pages, c, PageSlots(pages[root], None)) && x < |c|
    requires i < |pages[c[x]].items| && m < |pages[c[x]].items[i].key.tids|
    requires Lands(pages[root], MkScanKey(Single(pages[c[x]].items[i].key, m)), j)
    ensures pages[root].items[j].down == c[x]
  {
    StoredBetween(pages, root, n, c, x, i, m);
    var r, t := pages[root], Single(pages[c[x]].items[i].key, m);
    RootIsGood(pages, root, n, c);
    LandsOn(r, n, t, x, j);
  }

  /** Heap TID m of item i in leaf x. */
  predicate StoredAt(pages: Pages, c: seq<nat>, x: nat, i: nat, m: nat)
  {
    x < |c| && c[x] in pages && i < |pages[c[x]].items| && m < |pages[c[x]].items[i].key.tids|
  }

  /** The search for it ends in its leaf. */
  ghost predicate Reached(pages: Pages, root: nat, c: seq<nat>, x: nat, i: nat, m: nat)
  {
    root in pages && StoredAt(pages, c, x, i, m) ==>
      forall j: nat :: Lands(pages[root], MkScanKey(Single(pages[c[x]].items[i].key, m)), j) ==> pages[root].items[j].down == c[x]
  }

  lemma {:induction false} LastPassed(p: Page, key: ScanKey, k: nat) returns (j: nat)
    requires 0 < k <= |p.items| && forall i :: k <= i < |p.items| ==> !Passes(p, key, i)
    ensures Lands(p, key, j)
  {
    if Passes(p, key, k - 1) {
      j := k - 1;
    } else {
      j := LastPassed(p, key, k - 1);
    }
  }

  lemma ReachedHasDownlink(pages: Pages, root: nat, n: nat, c: seq<nat>, x: nat)
    requires Accepted(pages, root, n, c) && x < |c| && c[x] in pages && pages[c[x]].items != []
    requires Reached(pages, root, c, x, 0, 0)
    ensures HasDownlink(PageSlots(pages[root], None), c[x])
  {
    var r, p := pages[root], pages[c[x]];
    var right := LiveIsGood(pages, r.items[0].down, 0, false, n, c, x);
    assert ItemGood(p, n, 0, right);
    var j := LastPassed(r, MkScanKey(Single(p.items[0].key, 0)), |r.items|);
    assert PageSlots(r, None)[j].down == c[x];
  }

  /** Every stored heap TID is reached exactly when no leaf that claims to be the root
      lacks a downlink. */
  lemma AllReachedIff(pages: Pages, root: nat, n: nat, c: seq<nat>)
    requires Accepted(pages, root, n, c) && Quiet(pages, c) && AllHaveItems(pages, c)
    ensures (forall x: nat, i: nat, m: nat :: Reached(pages, root, c, x, i, m)) <==> RootsLinked(pages, c, PageSlots(pages[root], None))
  {
    var slots := PageSlots(pages[root], None);
    if RootsLinked(pages, c, slots) {
      forall x: nat, i: nat, m: nat ensures Reached(pages, root, c, x, i, m) {
        forall j: nat | StoredAt(pages, c, x, i, m) && Lands(pages[root], MkScanKey(Single(pages[c[x]].items[i].key, m)), j)
          ensures pages[root].items[j].down == c[x]
        {
          SearchReaches(pages, root, n, c, x, i, m, j);
        }
      }
    }
    if forall x: nat, i: nat, m: nat :: Reached(pages, root, c, x, i, m) {
      forall x | 0 <= x < |c| && c[x] in pages && pages[c[x]].root ensures HasDownlink(slots, c[x]) {
        ReachedHasDownlink(pages, root, n, c, x);
      }
    }
  }

  /** The last item a key passes is the one whose key space holds it. */
  lemma LandsOn(r: Page, n: nat, t: Tuple, x: nat, j: nat)
    requires !r.leaf && PageGood(r, n, None) && TupleOK(t, n) && x < |r.items| && j < |r.items|
    requires x > 0 ==> Lt(Low(r.items[x].key), Low(t))
    requires x + 1 < |r.items| ==> Le(Low(t), Low(r.items[x + 1].key))
    requires Lands(r, MkScanKey(t), j)
    ensures j == x
  {
    if x > 0 {
      PassesIffAbove(r, n, None, t, x);
    }
    if x + 1 < |r.items| {
      NotPast(r, n, t, x + 1);
      if j > x + 1 {
        PassesDown(r, n, None, t, x + 1, j);
      }
    }
  }

  lemma NotPast(r: Page, n: nat, t: Tuple, x: nat)
    requires !r.leaf && PageGood(r, n, None) && TupleOK(t, n) && 0 < x < |r.items|
    requires Le(Low(t), Low(r.items[x].key))
    ensures !Passes(r, MkScanKey(t), x)
  {
    PassesIffAbove(r, n, None, t, x);
    CompareFlips(Low(t), Low(r.items[x].key));
  }

  // --------------------------------------------- a leaf that claims to be the root

  function Leaf(prev: nat, next: nat, root: bool, key: int): Page
  {
    Page(true, 0, prev, next, false, false, false, root, Tuple([5], []), NONE, [Item(Tuple([key], [0]), NONE)])
  }

  function Top(): Page
  {
    Page(false, 1, NONE, NONE, false, false, false, true, Tuple([], []), NONE, [Item(Tuple([], []), 2), Item(Tuple([5], []), 4)])
  }

  /** Leaf 3 has no downlink, and its keys lie in the key space of leaf 2. */
  function HidingTree(): Pages { map[1 := Top(), 2 := Leaf(NONE, 3, false, 1), 3 := Leaf(2, 4, true, 3), 4 := Leaf(3, NONE, false, 7)] }

  lemma LeafPasses(b: nat, c: seq<nat>, i: nat)
    requires c == [2, 3, 4] && i < 3 && b == c[i]
    ensures PassedAt(HidingTree(), 0, false, 1, c, i)
  {
    var pages := HidingTree();
    var p := pages[b];
    var right := if b == 4 then None else Some(Tuple([if b == 2 then 3 else 7], [0]));
    if b != 4 {
      assert SkipEnd(pages, p, [b + 1]);
    }
    assert RightKeyIs(pages, p, right);
    assert ItemGood(p, 1, 0, right);
    assert PageGood(p, 1, right);
    if i == 0 {
      assert LeftmostBut(pages, 2, [2]);
    } else {
      assert c[0] in pages && !pages[c[0]].halfDead;
    }
  }

  lemma HidingLeaves(c: seq<nat>)
    requires c == [2, 3, 4]
    ensures Level(HidingTree(), 2, 0, false, 1, c)
  {
    forall i | 0 <= i < |c| ensures PassedAt(HidingTree(), 0, false, 1, c, i) {
      LeafPasses(c[i], c, i);
    }
    forall i | 0 < i < |c| ensures RightOf(HidingTree(), c, i) {
    }
  }

  lemma HidingTop()
    ensures Level(HidingTree(), 1, 1, true, 1, [1])
  {
    var pages := HidingTree();
    assert ItemGood(Top(), 1, 0, None) && ItemGood(Top(), 1, 1, None);
    assert RightKeyIs(pages, Top(), None) && PageGood(Top(), 1, None);
    assert LeftmostBut(pages, 1, [1]);
    assert PassedAt(pages, 1, true, 1, [1], 0);
  }

  lemma HidingWalk(c: seq<nat>, slots: seq<Slot>)
    requires c == [2, 3, 4] && slots == PageSlots(Top(), None) && ChildChain(HidingTree(), c)
    ensures Walk(HidingTree(), c, 1, slots, 0, 0)
  {
    var pages := HidingTree();
    assert LeftmostBut(pages, 2, [2]);
    assert VisitGood(pages, c, 1, 0, true, KeyAfter(slots, 0, true));
    assert VisitGood(pages, c, 1, 1, false, KeyAfter(slots, 1, false));
    assert VisitGood(pages, c, 1, 2, true, KeyAfter(slots, 1, true));
    assert Walk(pages, c, 1, slots, 2, 3);
    assert Walk(pages, c, 1, slots, 1, 2);
    assert Walk(pages, c, 1, slots, 1, 1);
  }

  /** An accepted tree, with nothing half done, where a stored heap TID is not reached. */
  lemma RootFlagHides() returns (pages: Pages, c: seq<nat>)
    ensures Accepted(pages, 1, 1, c) && Quiet(pages, c) && AllHaveItems(pages, c)
    ensures exists x: nat, i: nat, m: nat :: !Reached(pages, 1, c, x, i, m)
  {
    hide Prefix, Walk, Lands;
    pages, c := HidingTree(), [2, 3, 4];
    HidingTop();
    HidingLeaves(c);
    LevelIsChain(pages, 2, 0, 1, c);
    HidingWalk(c, PageSlots(Top(), None));
    assert DownBound(pages, Top(), 1);
    assert pages[c[1]].root && !HasDownlink(PageSlots(Top(), None), 3);
    AllReachedIff(pages, 1, 1, c);
  }
}
