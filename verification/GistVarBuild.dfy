/** Indexes over byte strings as inserts and page splits build them. */
module GistVarBuild {
  import opened Optional
  import opened BtreeStrategy
  import opened LexOrder
  import opened GistVarKey
  import opened GistVarSearch
  import opened GistVarExact
  import opened GistVarSplit
  import opened HalfSplit
  import opened GistTree
  import opened GistBuild

  type Bytes = v: seq<int> | IsBytes(v)

  function CoversBytes(): (VarKey, Bytes) -> bool { (k: VarKey, v: Bytes) => Covers(k, v) }
  function KeyOfBytes(): Bytes -> VarKey { (v: Bytes) => LeafKey(v) }
  function WidenBytes(): (VarKey, Bytes) -> VarKey { (k: VarKey, v: Bytes) => Widened(k, v) }
  function LeafTestBytes(query: seq<int>, op: Strategy): Bytes -> bool { (v: Bytes) => Consistent(LeafKey(v), query, op, true) }
  function MatchBytes(query: seq<int>, op: Strategy): Bytes -> bool { (v: Bytes) => Satisfies(v, op, query) }

  function PageKeysOf(page: Tree<VarKey, Bytes>): seq<VarKey> { PageKeys(page, KeyOfBytes()) }

  /** No entry of a side is left short by the cut. */
  ghost predicate NoneShort(ks: seq<VarKey>, cut: nat)
  {
    forall g, i :: IsGreatestUpper(ks, g) && 0 <= i < |ks| ==> !CutShort(ks, cut, g, i)
  }

  /** A division of the page by gbt_var_picksplit; of an inner page, one that leaves no
      entry short. */
  ghost predicate SplitFits(page: Tree<VarKey, Bytes>, d: Division<VarKey>)
  {
    var ks := PageKeysOf(page);
    && IsSplit(ks, d.left, d.right, d.lkey, d.rkey)
    && (page.Inner? ==>
          var lks, rks := Pick(ks, d.left), Pick(ks, d.right);
          NoneShort(lks, SharedCut(lks, rks)) && NoneShort(rks, SharedCut(lks, rks)))
  }

  lemma GreatestExists(ks: seq<VarKey>) returns (g: seq<int>)
    requires ks != []
    ensures IsGreatestUpper(ks, g)
  {
    g := Upper(Bounds(ks, |ks|));
    var i := UpperAmong(ks, |ks|);
    forall j | 0 <= j < |ks| ensures Le(Upper(ks[j]), g) {
      BoundsAreBounds(ks, |ks|, j);
    }
  }

  lemma PrefixWithin(left: seq<VarKey>, right: seq<VarKey>)
    requires left != [] && right != []
    ensures SidePrefix(left) + 1 <= SharedCut(left, right) && SidePrefix(right) + 1 <= SharedCut(left, right)
  {
  }

  /** A key that covers a value has ordered bounds. */
  lemma CoveringIsOrdered(k: VarKey, v: seq<int>)
    requires Covers(k, v)
    ensures Le(Lower(k), Upper(k))
  {
    if Le(v, Upper(k)) {
      LeTrans(Lower(k), v, Upper(k));
    } else {
      PrefixClauseOrders(Lower(k), Upper(k), v);
    }
  }

  /** A leaf entry covers its own value only. */
  lemma LeafCoversItself(x: seq<int>, v: seq<int>)
    requires Covers(LeafKey(x), v)
    ensures v == x
  {
    CommonPrefixIs(x, x, |x|);
    CompareFlips(x, v);
    CompareZero(x, v);
  }

  lemma SideKeysCover(page: Tree<VarKey, Bytes>, offs: seq<nat>, cut: nat, v: Bytes, i: nat)
    requires offs != [] && InRange(PageKeysOf(page), offs) && i < |offs| && Covers(PageKeysOf(page)[offs[i]], v)
    requires SidePrefix(Pick(PageKeysOf(page), offs)) + 1 <= cut
    requires page.Inner? ==> NoneShort(Pick(PageKeysOf(page), offs), cut)
    ensures Covers(SideKey(Pick(PageKeysOf(page), offs), cut), v)
  {
    var ks := Pick(PageKeysOf(page), offs);
    assert ks[i] == PageKeysOf(page)[offs[i]];
    if page.Leaf? {
      var values: seq<seq<int>> := seq(|offs|, j requires 0 <= j < |offs| => page.items[offs[j]].value);
      assert forall j :: 0 <= j < |ks| ==> ks[j] == LeafKey(values[j]);
      LeafCoversItself(values[i], v);
      LeafSideCovers(values, ks, cut, i);
    } else {
      var g := GreatestExists(ks);
      CutShortIs(ks, cut, g, i);
      CoveringIsOrdered(ks[i], v);
      SideCovers(ks, cut, i, v);
    }
  }

  lemma DealtInOrder(n: nat, order: seq<nat>, ks: seq<VarKey>)
    requires |ks| == n && SortedOrder(SortCompare, ks, order)
    ensures Deals(order, n)
  {
  }

  lemma SplitIsCovering(page: Tree<VarKey, Bytes>, d: Division<VarKey>)
    requires Sound(page, CoversBytes()) && SplitFits(page, d)
    ensures CoveringDivision(page, d, CoversBytes())
  {
    var ks := PageKeysOf(page);
    var lks, rks := Pick(ks, d.left), Pick(ks, d.right);
    PrefixWithin(lks, rks);
    forall v: Bytes ensures CoversBytes()(KeyOfBytes()(v), v) {
      LeafCovers(v);
    }
    forall i, v: Bytes | 0 <= i < |d.left| && Covers(ks[d.left[i]], v) ensures Covers(d.lkey, v) {
      SideKeysCover(page, d.left, SharedCut(lks, rks), v, i);
    }
    forall i, v: Bytes | 0 <= i < |d.right| && Covers(ks[d.right[i]], v) ensures Covers(d.rkey, v) {
      SideKeysCover(page, d.right, SharedCut(lks, rks), v, i);
    }
    DealtInOrder(|ks|, d.left + d.right, ks);
    DivisionCovers(page, d, CoversBytes(), KeyOfBytes());
  }

  lemma BytesWiden()
    ensures Widens(CoversBytes(), WidenBytes())
  {
    forall k: VarKey, v: Bytes ensures CoversBytes()(WidenBytes()(k, v), v) {
      WidenedCovers(k, v, v);
    }
    forall k: VarKey, v: Bytes, w: Bytes | CoversBytes()(k, w) ensures CoversBytes()(WidenBytes()(k, v), w) {
      WidenedCovers(k, v, w);
    }
  }

  /** The pruned scan of a sound index of byte strings is a full filter. */
  lemma BytesSearchIsFilter(t: Tree<VarKey, Bytes>, query: seq<int>, op: Strategy)
    requires Sound(t, CoversBytes())
    ensures Search(t, LeafTestBytes(query, op), InnerTest(query, op)) == Filter(Items(t), MatchBytes(query, op))
  {
    forall v: Bytes ensures LeafTestBytes(query, op)(v) == MatchBytes(query, op)(v) {
      LeafTestIsExact(v, query, op);
    }
    forall k: VarKey, v: Bytes | CoversBytes()(k, v) && MatchBytes(query, op)(v) ensures InnerTest(query, op)(k) {
      InnerTestKeepsMatches(k, v, query, op);
    }
    SearchIsFilter(t, CoversBytes(), LeafTestBytes(query, op), InnerTest(query, op), MatchBytes(query, op));
  }

  /** Every index that inserts and fitting splits build, in any order and along any
      paths, answers every query exactly and holds what was inserted. */
  lemma BuiltAnswersExactly(steps: seq<Step<VarKey, Bytes>>, query: seq<int>, op: Strategy)
    requires Builds(Leaf([]), steps, WidenBytes(), SplitFits)
    ensures var t := Built(Leaf([]), steps, WidenBytes(), SplitFits);
      && Search(t, LeafTestBytes(query, op), InnerTest(query, op)) == Filter(Items(t), MatchBytes(query, op))
      && multiset(Items(t)) == Inserted(steps)
  {
    BytesWiden();
    forall page: Tree<VarKey, Bytes>, d: Division<VarKey> | Sound(page, CoversBytes()) && SplitFits(page, d)
      ensures CoveringDivision(page, d, CoversBytes())
    {
      SplitIsCovering(page, d);
    }
    var empty: Tree<VarKey, Bytes> := Leaf([]);
    BuiltIsSound(empty, steps, CoversBytes(), WidenBytes(), SplitFits);
    BytesSearchIsFilter(Built(empty, steps, WidenBytes(), SplitFits), query, op);
  }

  // ------------------------------------------------------- a row that is lost

  lemma BelowAt(a: seq<int>, b: seq<int>, k: nat)
    requires k < |a| && k < |b| && (forall i :: 0 <= i < k ==> a[i] == b[i]) && a[k] < b[k]
    ensures CommonPrefix(a, b) == k && Compare(a, b) == -1 && Compare(b, a) == 1
  {
    CommonPrefixIs(a, b, k);
    CompareFlips(a, b);
  }

  /** The key over a page of two values, the first below the second. */
  lemma UnionOfTwo(x: seq<int>, y: seq<int>, p: nat)
    requires Compare(x, y) == -1 && CommonPrefix(x, y) == p
    ensures UnionOf(LeafKey(x), [LeafKey(y)]) == NodeKey(x[..MinLen(|x|, p + 2)], y[..MinLen(|y|, p + 2)])
  {
    var keys := [LeafKey(x)] + [LeafKey(y)];
    CompareZero(x, x);
    CompareFlips(x, y);
    assert Bounds(keys, 1) == NodeKey(x, x);
    assert Bounds(keys, 2) == NodeKey(x, y);
  }

  lemma BoundsOfTwo(a: VarKey, b: VarKey)
    requires a.NodeKey? && Compare(Lower(a), Lower(b)) <= 0 && Compare(Upper(a), Upper(b)) <= 0
    ensures Bounds([a, b], 2) == NodeKey(Lower(a), Upper(b))
  {
    var keys := [a, b];
    assert Bounds(keys, 1) == NodeKey(Lower(a), Upper(a));
    CompareZero(Upper(a), Upper(b));
  }

  function PageOf(x: Bytes, i: int, y: Bytes, j: int): Tree<VarKey, Bytes> { Leaf([Item(x, i), Item(y, j)]) }

  lemma PageIsKeyed(x: Bytes, i: int, y: Bytes, j: int, k: VarKey, p: nat)
    requires Compare(x, y) == -1 && CommonPrefix(x, y) == p
    requires k == NodeKey(x[..MinLen(|x|, p + 2)], y[..MinLen(|y|, p + 2)])
    ensures IsUnion(k, PageKeys(PageOf(x, i, y, j), KeyOfBytes()), UnionOf)
  {
    var ks := PageKeys(PageOf(x, i, y, j), KeyOfBytes());
    assert ks == [LeafKey(x), LeafKey(y)] && ks[1..] == [LeafKey(y)];
    UnionOfTwo(x, y, p);
  }

  // The rows and keys of the example.
  const AB: Bytes := [65, 98]
  const ABZ: Bytes := [97, 98, 122]
  const AA: Bytes := [97, 97]
  const ABC: Bytes := [97, 98, 99]
  const BBBA: Bytes := [98, 98, 98, 97]
  const BBBB: Bytes := [98, 98, 98, 98]
  const BBBC: Bytes := [98, 98, 98, 99]

  function LossyKeys(): seq<VarKey>
  {
    [NodeKey(AB, [97, 98]), NodeKey(AA, ABC), NodeKey(BBBA, BBBC), NodeKey(BBBB, BBBC)]
  }

  function LossyPages(): seq<Tree<VarKey, Bytes>>
  {
    [PageOf(AB, 1, ABZ, 2), PageOf(AA, 3, ABC, 4), PageOf(BBBA, 5, BBBC, 6), PageOf(BBBB, 7, BBBC, 8)]
  }

  function LossyPage(): Tree<VarKey, Bytes> { PageOver(LossyKeys(), LossyPages()) }

  function PageOver(ks: seq<VarKey>, pages: seq<Tree<VarKey, Bytes>>): (t: Tree<VarKey, Bytes>)
    requires |ks| == |pages|
    ensures t.Inner? && |t.entries| == |ks| && PageKeysOf(t) == ks
    ensures forall i :: 0 <= i < |ks| ==> t.entries[i] == Entry(ks[i], pages[i])
  {
    Inner(seq(|ks|, i requires 0 <= i < |ks| => Entry(ks[i], pages[i])))
  }

  function LossySplit(): Division<VarKey> { Division([0, 1], [2, 3], NodeKey(AB, ABC), NodeKey(BBBA, BBBC)) }

  predicate KeyFits(k: VarKey, page: Tree<VarKey, Bytes>)
  {
    page.Leaf? && IsUnion(k, PageKeys(page, KeyOfBytes()), UnionOf)
  }

  lemma FirstFits()
    ensures KeyFits(NodeKey(AB, [97, 98]), PageOf(AB, 1, ABZ, 2))
  {
    BelowAt(AB, ABZ, 0);
    assert ABZ[..2] == [97, 98] && AB[..2] == AB;
    PageIsKeyed(AB, 1, ABZ, 2, NodeKey(AB, [97, 98]), 0);
  }

  lemma SecondFits()
    ensures KeyFits(NodeKey(AA, ABC), PageOf(AA, 3, ABC, 4))
  {
    BelowAt(AA, ABC, 1);
    assert AA[..2] == AA && ABC[..3] == ABC;
    PageIsKeyed(AA, 3, ABC, 4, NodeKey(AA, ABC), 1);
  }

  lemma OthersFit(x: Bytes, i: int, j: int)
    requires x == BBBA || x == BBBB
    ensures KeyFits(NodeKey(x, BBBC), PageOf(x, i, BBBC, j))
  {
    BelowAt(x, BBBC, 3);
    assert x[..4] == x && BBBC[..4] == BBBC;
    PageIsKeyed(x, i, BBBC, j, NodeKey(x, BBBC), 3);
  }

  lemma LossyPageIsKeyed()
    ensures KeyedByUnion(LossyPage(), KeyOfBytes(), UnionOf)
  {
    FirstFits();
    SecondFits();
    OthersFit(BBBA, 5, 6);
    OthersFit(BBBB, 7, 8);
    var ks, pages := LossyKeys(), LossyPages();
    forall i | 0 <= i < 4 ensures KeyFits(ks[i], pages[i]) {
    }
    AllFit(ks, pages);
  }

  lemma AllFit(ks: seq<VarKey>, pages: seq<Tree<VarKey, Bytes>>)
    requires |ks| == |pages| && forall i :: 0 <= i < |ks| ==> KeyFits(ks[i], pages[i])
    ensures KeyedByUnion(PageOver(ks, pages), KeyOfBytes(), UnionOf)
  {
    var t := PageOver(ks, pages);
    forall e | e in t.entries
      ensures KeyedByUnion(e.child, KeyOfBytes(), UnionOf) && IsUnion(e.key, PageKeys(e.child, KeyOfBytes()), UnionOf)
    {
      var i :| 0 <= i < |ks| && t.entries[i] == e;
      assert KeyFits(ks[i], pages[i]);
    }
  }

  function Lowers(ks: seq<VarKey>): (ls: seq<seq<int>>)
    ensures |ls| == |ks| && forall i :: 0 <= i < |ks| ==> ls[i] == Lower(ks[i])
  {
    seq(|ks|, i requires 0 <= i < |ks| => Lower(ks[i]))
  }

  /** Keys with ascending lower bounds are sorted as they stand. */
  lemma SortedByLower(ks: seq<VarKey>)
    requires AllAscend(Lowers(ks))
    ensures SortedOrder(SortCompare, ks, Iota(|ks|))
  {
    forall i, j | 0 <= i < j < |ks| ensures SortCompare(ks[i], ks[j]) <= 0 {
      NeighboursSort(Lowers(ks), i, j);
    }
  }

  lemma LossySorted()
    ensures SortedOrder(SortCompare, LossyKeys(), Iota(4))
  {
    BelowAt(AB, AA, 0);
    BelowAt(AA, BBBA, 0);
    BelowAt(BBBA, BBBB, 3);
    var ls := Lowers(LossyKeys());
    assert ls == [AB, AA, BBBA, BBBB];
    assert Ascends(ls, 0) && Ascends(ls, 1) && Ascends(ls, 2);
    SortedByLower(LossyKeys());
  }

  lemma LossyBounds()
    ensures Bounds([NodeKey(AB, [97, 98]), NodeKey(AA, ABC)], 2) == NodeKey(AB, ABC)
    ensures Bounds([NodeKey(BBBA, BBBC), NodeKey(BBBB, BBBC)], 2) == NodeKey(BBBA, BBBC)
  {
    BelowAt(AB, AA, 0);
    PrefixLe([97, 98], ABC);
    BoundsOfTwo(NodeKey(AB, [97, 98]), NodeKey(AA, ABC));
    BelowAt(BBBA, BBBB, 3);
    CompareZero(BBBC, BBBC);
    BoundsOfTwo(NodeKey(BBBA, BBBC), NodeKey(BBBB, BBBC));
  }

  lemma LossyCut()
    ensures Truncate(NodeKey(AB, ABC), 4) == NodeKey(AB, ABC) && Truncate(NodeKey(BBBA, BBBC), 4) == NodeKey(BBBA, BBBC)
    ensures CutOf(NodeKey(AB, ABC), NodeKey(BBBA, BBBC)) == 4
  {
    BelowAt(AB, ABC, 0);
    BelowAt(BBBA, BBBC, 3);
    assert AB[..2] == AB && ABC[..3] == ABC && BBBA[..4] == BBBA && BBBC[..4] == BBBC;
  }

  lemma LossyIsSplit()
    ensures var d := LossySplit(); IsSplit(LossyKeys(), d.left, d.right, d.lkey, d.rkey)
  {
    var d, ks := LossySplit(), LossyKeys();
    LossySorted();
    assert d.left + d.right == Iota(4);
    var lks, rks := Pick(ks, d.left), Pick(ks, d.right);
    assert lks == [NodeKey(AB, [97, 98]), NodeKey(AA, ABC)];
    assert rks == [NodeKey(BBBA, BBBC), NodeKey(BBBB, BBBC)];
    LossyBounds();
    LossyCut();
  }

  lemma LossyMisses()
    ensures var d := LossySplit(); !Consistent(d.lkey, ABZ, Equal, false) && !Consistent(d.rkey, ABZ, Equal, false)
  {
    BelowAt(ABC, ABZ, 2);
    BelowAt(AB, ABZ, 0);
    BelowAt(ABZ, BBBA, 0);
  }

  lemma RowBelow(page: Tree<VarKey, Bytes>, k: nat, row: Item<Bytes>)
    requires page.Inner? && k < |page.entries| && row in Items(page.entries[k].child)
    ensures row in multiset(Items(page))
  {
    EntryItemsIn(page.entries, page.entries[k]);
  }

  /** A scan finds nothing when both halves are pruned. */
  lemma PrunedFindsNothing(page: Tree<VarKey, Bytes>, d: Division<VarKey>, leafTest: Bytes -> bool, innerTest: VarKey -> bool)
    requires Deals(d.left + d.right, PageSize(page)) && !innerTest(d.lkey) && !innerTest(d.rkey)
    ensures Search(Inner(Halves(page, d)), leafTest, innerTest) == []
  {
    var hs := Halves(page, d);
    assert hs[1..][1..] == [];
    assert SearchEntries(hs[1..], leafTest, innerTest) == [];
  }

  /** After the split of an inner page keyed by union, a stored row matches and the scan
      for it finds nothing. */
  ghost predicate LosesRow(page: Tree<VarKey, Bytes>, d: Division<VarKey>, row: Item<Bytes>)
  {
    && page.Inner? && KeyedByUnion(page, KeyOfBytes(), UnionOf) && IsSplit(PageKeysOf(page), d.left, d.right, d.lkey, d.rkey)
    && var t := Split(page, [], d);
       && t.Some? && row in multiset(Items(t.value)) && MatchBytes(row.value, Equal)(row.value)
       && Search(t.value, LeafTestBytes(row.value, Equal), InnerTest(row.value, Equal)) == []
  }

  lemma PrunedRowIsLost(page: Tree<VarKey, Bytes>, d: Division<VarKey>, k: nat, row: Item<Bytes>)
    requires page.Inner? && KeyedByUnion(page, KeyOfBytes(), UnionOf) && IsSplit(PageKeysOf(page), d.left, d.right, d.lkey, d.rkey)
    requires k < |page.entries| && row in Items(page.entries[k].child)
    requires !Consistent(d.lkey, row.value, Equal, false) && !Consistent(d.rkey, row.value, Equal, false)
    ensures LosesRow(page, d, row)
  {
    DealtInOrder(|page.entries|, d.left + d.right, PageKeysOf(page));
    SplitKeepsItems(page, [], d);
    RowBelow(page, k, row);
    PrunedFindsNothing(page, d, LeafTestBytes(row.value, Equal), InnerTest(row.value, Equal));
  }

  /** Such a page: "abz" is stored below the new left key, which ends at "abc". */
  lemma SplitLosesRow() returns (page: Tree<VarKey, Bytes>, d: Division<VarKey>, row: Item<Bytes>)
    ensures LosesRow(page, d, row)
  {
    page, d := LossyPage(), LossySplit();
    row := page.entries[0].child.items[1];
    LossyPageIsKeyed();
    LossyIsSplit();
    LossyMisses();
    PrunedRowIsLost(page, d, 0, row);
  }
}
