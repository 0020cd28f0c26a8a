/** B-tree pages as the checker sees them, and the checks it makes on one page. */
module NbtreePage {
  import opened Optional
  import opened LexOrder
  import opened NbtreeKey

  /** A pivot or heap-pointing tuple; down is the child block on internal pages. */
  datatype Item = Item(key: Tuple, down: nat)

  /** hikey is there unless the page is rightmost; topParent is what a half-dead leaf
      stores in its place. */
  datatype Page = Page(leaf: bool, level: nat, prev: nat, next: nat, deleted: bool, halfDead: bool,
                       incomplete: bool, root: bool, hikey: Tuple, topParent: nat, items: seq<Item>)

  type Pages = map<nat, Page>

  /** Block 0 is the metapage, so it also stands for no block. */
  const NONE := 0

  predicate Rightmost(p: Page) { p.next == NONE }

  predicate Ignorable(p: Page) { p.deleted || p.halfDead }

  /** palloc_btree_page's sanity checks. */
  predicate Sane(p: Page)
  {
    !p.deleted ==> (p.leaf <==> p.level == 0) && (!p.leaf ==> p.items != [] && !p.halfDead)
  }

  predicate Loads(pages: Pages, blk: nat) { blk in pages && blk != NONE && Sane(pages[blk]) }

  /** The first item of an internal page is minus infinity. */
  predicate MinusInfinity(p: Page, j: nat) { !p.leaf && j == 0 }

  predicate NattsOK(p: Page, n: nat, j: nat)
    requires j < |p.items|
  {
    var t := p.items[j].key;
    if p.leaf then |t.attrs| == n && t.tids != []
    else if j == 0 then t == Tuple([], [])
    else PivotOK(t, n)
  }

  /** The high key bounds the item: at or below on a leaf, strictly below elsewhere. */
  predicate UnderHikey(p: Page, j: nat)
    requires j < |p.items|
  {
    var t := p.items[j].key;
    Rightmost(p) || if p.leaf then IsLeq(MaxScanKey(t), p.hikey) else IsLess(MkScanKey(t), p.hikey)
  }

  predicate BeforeNext(p: Page, j: nat)
    requires j < |p.items|
  {
    j + 1 < |p.items| ==> IsLess(MkScanKey(p.items[j].key), p.items[j + 1].key)
  }

  /** The last item against the first one to the right, if there is one. */
  predicate BeforeRight(p: Page, j: nat, right: Option<Tuple>)
    requires j < |p.items|
  {
    j + 1 == |p.items| && right.Some? ==> IsGreater(MkScanKey(right.value), p.items[j].key)
  }

  predicate ItemGood(p: Page, n: nat, j: nat, right: Option<Tuple>)
    requires j < |p.items|
  {
    && NattsOK(p, n, j)
    && (MinusInfinity(p, j) ||
        (Increasing(p.items[j].key.tids) && UnderHikey(p, j) && BeforeNext(p, j) && BeforeRight(p, j, right)))
  }

  predicate PageGood(p: Page, n: nat, right: Option<Tuple>)
  {
    && (Rightmost(p) || PivotOK(p.hikey, n))
    && forall j {:trigger ItemGood(p, n, j, right)} :: 0 <= j < |p.items| ==> ItemGood(p, n, j, right)
  }

  method PostingInOrder(tids: seq<int>) returns (ok: bool)
    requires tids != []
    ensures ok <==> Increasing(tids)
  {
    var last, i := tids[0], 1;
    while i < |tids|
      invariant 1 <= i <= |tids| && last == tids[i - 1] && Increasing(tids[..i])
    {
      if tids[i] <= last {
        assert tids[i - 1] >= tids[i];
        return false;
      }
      last := tids[i];
      i := i + 1;
    }
    assert tids[..i] == tids;
    ok := true;
  }

  /** The item loop of bt_target_page_check, without child and uniqueness checks. */
  method CheckItems(p: Page, n: nat, right: Option<Tuple>) returns (ok: bool)
    ensures ok <==> PageGood(p, n, right)
  {
    if !Rightmost(p) && !PivotOK(p.hikey, n) {
      return false;
    }
    var j := 0;
    while j < |p.items|
      invariant 0 <= j <= |p.items| && forall k :: 0 <= k < j ==> ItemGood(p, n, k, right)
    {
      ok := CheckItem(p, n, j, right);
      if !ok {
        return;
      }
      j := j + 1;
    }
    ok := true;
  }

  method CheckItem(p: Page, n: nat, j: nat, right: Option<Tuple>) returns (ok: bool)
    requires j < |p.items|
    ensures ok <==> ItemGood(p, n, j, right)
  {
    var t := p.items[j].key;
    if !NattsOK(p, n, j) {
      return false;
    }
    if MinusInfinity(p, j) {
      return true;
    }
    if t.tids != [] {
      ok := PostingInOrder(t.tids);
      if !ok {
        return;
      }
    }
    if !Rightmost(p) {
      var c := BtCompare(if p.leaf then MaxScanKey(t) else MkScanKey(t), p.hikey);
      if !(if p.leaf then c <= 0 else LessAfter(c, MkScanKey(t), p.hikey)) {
        return false;
      }
    }
    if j + 1 < |p.items| {
      var c := BtCompare(MkScanKey(t), p.items[j + 1].key);
      if !LessAfter(c, MkScanKey(t), p.items[j + 1].key) {
        return false;
      }
    } else if right.Some? {
      var c := BtCompare(MkScanKey(right.value), t);
      if c <= 0 {
        return false;
      }
    }
    ok := true;
  }

  // ------------------------------------------------ what a good page means

  lemma GoodNext(p: Page, n: nat, right: Option<Tuple>, j: nat)
    requires PageGood(p, n, right) && j + 1 < |p.items| && !MinusInfinity(p, j)
    ensures Lt(Low(p.items[j].key), Low(p.items[j + 1].key))
  {
    assert ItemGood(p, n, j, right) && ItemGood(p, n, j + 1, right);
    LessIffLt(p.items[j].key, p.items[j + 1].key, n);
  }

  /** An item as it must be by itself: on a leaf all attributes and ascending heap TIDs;
      elsewhere nothing for the first one, and a pivot for the others. */
  predicate WellMade(p: Page, n: nat, j: nat)
    requires j < |p.items|
  {
    var t := p.items[j].key;
    if p.leaf then |t.attrs| == n && t.tids != [] && Increasing(t.tids)
    else if j == 0 then t.attrs == [] && t.tids == []
    else |t.attrs| <= n && |t.tids| <= 1 && (t.tids != [] ==> |t.attrs| == n)
  }

  /** An item in the key space: under the high key, before the next item and before the
      first one to the right. */
  predicate InPlace(p: Page, j: nat, right: Option<Tuple>)
    requires j < |p.items|
  {
    var t := p.items[j].key;
    && (p.next != 0 ==> if p.leaf then Le(High(t), Low(p.hikey)) else Lt(Low(t), Low(p.hikey)))
    && (j + 1 < |p.items| ==> Lt(Low(t), Low(p.items[j + 1].key)))
    && (j + 1 == |p.items| && right.Some? ==> Lt(High(t), Low(right.value)))
  }

  lemma ItemGoodIff(p: Page, n: nat, right: Option<Tuple>, j: nat)
    requires j < |p.items| && WellMade(p, n, j) && (p.next != 0 ==> PivotOK(p.hikey, n))
    requires (right.Some? ==> TupleOK(right.value, n)) && (j + 1 < |p.items| ==> WellMade(p, n, j + 1))
    ensures ItemGood(p, n, j, right) <==> (!p.leaf && j == 0) || InPlace(p, j, right)
  {
    var t := p.items[j].key;
    assert t.tids == [] || |t.tids| == 1 || p.leaf;
    if p.next != 0 {
      if p.leaf {
        LeqIffLe(t, p.hikey, n);
      } else {
        LessIffLt(t, p.hikey, n);
      }
    }
    if j + 1 < |p.items| {
      LessIffLt(t, p.items[j + 1].key, n);
    } else if right.Some? {
      GreaterIffLt(right.value, t, n);
    }
  }

  /** A page is good exactly when its high key and items are well made and every item but
      minus infinity is in its place. */
  lemma PageGoodIff(p: Page, n: nat, right: Option<Tuple>)
    requires right.Some? ==> TupleOK(right.value, n)
    ensures PageGood(p, n, right) <==>
      && (p.next != 0 ==> |p.hikey.attrs| <= n && |p.hikey.tids| <= 1 && (p.hikey.tids != [] ==> |p.hikey.attrs| == n))
      && (forall j :: 0 <= j < |p.items| ==> WellMade(p, n, j))
      && (forall j :: 0 <= j < |p.items| ==> (!p.leaf && j == 0) || InPlace(p, j, right))
  {
    hide InPlace;
    forall j | 0 <= j < |p.items| && ItemGood(p, n, j, right) ensures WellMade(p, n, j) {
    }
    if (p.next != 0 ==> PivotOK(p.hikey, n)) && forall j :: 0 <= j < |p.items| ==> WellMade(p, n, j) {
      forall j | 0 <= j < |p.items| ensures ItemGood(p, n, j, right) <==> (!p.leaf && j == 0) || InPlace(p, j, right) {
        ItemGoodIff(p, n, right, j);
      }
    }
  }

  function Keys(p: Page): seq<seq<int>> { seq(|p.items|, i requires 0 <= i < |p.items| => Low(p.items[i].key)) }

  lemma GoodAscends(p: Page, n: nat, right: Option<Tuple>, k: nat)
    requires PageGood(p, n, right) && k + 1 < |p.items| && !MinusInfinity(p, k)
    ensures Ascends(Keys(p), k)
  {
    GoodNext(p, n, right, k);
  }

  /** Items of a good page are in strictly increasing order. */
  lemma GoodPageSorted(p: Page, n: nat, right: Option<Tuple>, i: nat, j: nat)
    requires PageGood(p, n, right) && i < j < |p.items| && !MinusInfinity(p, i)
    ensures Lt(Low(p.items[i].key), Low(p.items[j].key))
  {
    var ks := Keys(p);
    forall k | i <= k < j ensures Ascends(ks, k) {
      GoodAscends(p, n, right, k);
    }
    NeighboursSort(ks, i, j);
  }

  lemma GoodUnderHikey(p: Page, n: nat, right: Option<Tuple>, j: nat)
    requires PageGood(p, n, right) && j < |p.items| && !MinusInfinity(p, j) && !Rightmost(p)
    ensures if p.leaf then Le(High(p.items[j].key), Low(p.hikey)) else Lt(Low(p.items[j].key), Low(p.hikey))
  {
    assert ItemGood(p, n, j, right);
    if p.leaf {
      LeqIffLe(p.items[j].key, p.hikey, n);
    } else {
      LessIffLt(p.items[j].key, p.hikey, n);
    }
  }

  /** Neighbours are compared by their first heap TIDs, so posting lists of one key may
      overlap on a page that passes. */
  lemma OverlapPasses() returns (p: Page)
    ensures PageGood(p, 1, None) && p.leaf && |p.items| == 2
    ensures Lt(Low(p.items[1].key), High(p.items[0].key))
  {
    var a, b := Tuple([7], [1, 5]), Tuple([7], [3, 9]);
    p := Page(true, 0, NONE, NONE, false, false, false, false, Tuple([], []), NONE, [Item(a, 0), Item(b, 0)]);
    LessIffLt(a, b, 1);
    CommonPrefixIs([7, 1], [7, 3], 1);
    CommonPrefixIs([7, 3], [7, 5], 1);
    assert Low(a) == [7, 1] && Low(b) == [7, 3] && High(a) == [7, 5];
    assert ItemGood(p, 1, 0, None) && ItemGood(p, 1, 1, None);
  }
}
