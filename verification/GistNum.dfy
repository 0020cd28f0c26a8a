/** btree_gist keys of fixed size: an inner key is the range of everything below it.
    Values stand for their place in the type's order. */
module GistNum {
  import opened Optional
  import opened BtreeStrategy
  import opened GistTree
  import opened GistBuild
  import opened HalfSplit

  datatype NumKey = NumKey(lower: real, upper: real)

  predicate Satisfies(v: real, op: Strategy, query: real)
  {
    match op
    case LessThan => v < query
    case LessEqual => v <= query
    case Equal => v == query
    case GreaterEqual => v >= query
    case GreaterThan => v > query
    case NotEqual => v != query
  }

  /** gbt_num_consistent. */
  predicate Consistent(k: NumKey, query: real, op: Strategy, isLeaf: bool)
  {
    match op
    case LessEqual => query >= k.lower
    case LessThan => if isLeaf then query > k.lower else query >= k.lower
    case Equal => if isLeaf then query == k.lower else k.lower <= query && query <= k.upper
    case GreaterThan => if isLeaf then query < k.upper else query <= k.upper
    case GreaterEqual => query <= k.upper
    case NotEqual => !(query == k.lower && query == k.upper)
  }

  predicate Covers(k: NumKey, v: real) { k.lower <= v <= k.upper }

  /** gbt_num_bin_union. */
  function BinUnion(u: Option<NumKey>, e: NumKey): NumKey
  {
    match u
    case None => e
    case Some(r) => NumKey(if r.lower > e.lower then e.lower else r.lower, if r.upper < e.upper then e.upper else r.upper)
  }

  function KeyOf(v: real): NumKey { NumKey(v, v) }

  function UnionOf(k: NumKey, ks: seq<NumKey>): NumKey
  {
    if ks == [] then k else BinUnion(Some(UnionOf(k, ks[..|ks| - 1])), ks[|ks| - 1])
  }

  /** gbt_num_union. */
  method NumUnion(keys: seq<NumKey>) returns (out: NumKey)
    requires keys != []
    ensures out == UnionOf(keys[0], keys[1..])
  {
    out := keys[0];
    var rest := keys[1..];
    var i := 0;
    while i < |rest|
      invariant 0 <= i <= |rest| && out == UnionOf(keys[0], rest[..i])
    {
      assert rest[..i + 1][..i] == rest[..i];
      out := BinUnion(Some(out), rest[i]);
      i := i + 1;
    }
    assert rest[..i] == rest;
  }

  /** The union's bounds are the least lower and the greatest upper bound of its keys. */
  lemma {:induction false} UnionIsLeast(k: NumKey, ks: seq<NumKey>)
    ensures var u, all := UnionOf(k, ks), [k] + ks;
      && (forall i :: 0 <= i < |all| ==> u.lower <= all[i].lower && all[i].upper <= u.upper)
      && (exists i :: 0 <= i < |all| && all[i].lower == u.lower) && (exists i :: 0 <= i < |all| && all[i].upper == u.upper)
  {
    var all := [k] + ks;
    if ks == [] {
      assert all[0] == k;
    } else {
      var n := |ks| - 1;
      UnionIsLeast(k, ks[..n]);
      var part, u := [k] + ks[..n], UnionOf(k, ks[..n]);
      assert all == part + [ks[n]] && all[n + 1] == ks[n];
      var i :| 0 <= i < |part| && part[i].lower == u.lower;
      var j :| 0 <= j < |part| && part[j].upper == u.upper;
      assert all[i] == part[i] && all[j] == part[j];
    }
  }

  /** The operator with equality allowed. */
  function Relaxed(op: Strategy): Strategy
  {
    match op
    case LessThan => LessEqual
    case GreaterThan => GreaterEqual
    case _ => op
  }

  /** An inner key is followed exactly when some value in its range satisfies the
      operator, equality allowed. */
  lemma FollowedIff(k: NumKey, query: real, op: Strategy)
    requires k.lower <= k.upper
    ensures Consistent(k, query, op, false) <==> exists v :: Covers(k, v) && Satisfies(v, Relaxed(op), query)
  {
    assert Covers(k, k.lower) && Covers(k, k.upper);
    if op.Equal? && Consistent(k, query, op, false) {
      assert Covers(k, query);
    }
    if op.NotEqual? && Consistent(k, query, op, false) {
      assert Satisfies(k.lower, op, query) || Satisfies(k.upper, op, query);
    }
  }

  lemma {:induction false} UnionOfCovers(k: NumKey, ks: seq<NumKey>, v: real, i: int)
    requires -1 <= i < |ks| && Covers(if i == -1 then k else ks[i], v)
    ensures Covers(UnionOf(k, ks), v)
  {
    var n := |ks| - 1;
    if ks != [] && i < n {
      UnionOfCovers(k, ks[..n], v, i);
    }
  }

  function LeafTest(query: real, op: Strategy): real -> bool { (v: real) => Consistent(KeyOf(v), query, op, true) }
  function InnerTest(query: real, op: Strategy): NumKey -> bool { (k: NumKey) => Consistent(k, query, op, false) }
  function Matches(query: real, op: Strategy): real -> bool { (v: real) => Satisfies(v, op, query) }

  /** Any tree keyed by gbt_num_union answers every query exactly. */
  lemma NumSearchIsFilter(t: Tree<NumKey, real>, query: real, op: Strategy)
    requires KeyedByUnion(t, KeyOf, UnionOf)
    ensures Search(t, LeafTest(query, op), InnerTest(query, op)) == Filter(Items(t), Matches(query, op))
  {
    NumKeysSound(t);
    SoundSearchIsFilter(t, query, op);
  }

  lemma SoundSearchIsFilter(t: Tree<NumKey, real>, query: real, op: Strategy)
    requires Sound(t, Covers)
    ensures Search(t, LeafTest(query, op), InnerTest(query, op)) == Filter(Items(t), Matches(query, op))
  {
    assert Safe(Covers, Matches(query, op), InnerTest(query, op));
    SearchIsFilter(t, Covers, LeafTest(query, op), InnerTest(query, op), Matches(query, op));
  }

  lemma NumKeysSound(t: Tree<NumKey, real>)
    requires KeyedByUnion(t, KeyOf, UnionOf)
    ensures Sound(t, Covers)
  {
    forall k: NumKey, ks: seq<NumKey>, v: real | Covers(k, v) ensures Covers(UnionOf(k, ks), v) {
      UnionOfCovers(k, ks, v, -1);
    }
    forall k: NumKey, ks: seq<NumKey>, v: real, i | 0 <= i < |ks| && Covers(ks[i], v) ensures Covers(UnionOf(k, ks), v) {
      UnionOfCovers(k, ks, v, i);
    }
    UnionKeysAreSound(t, Covers, KeyOf, UnionOf);
  }

  // ------------------------------------------------------------------- distance

  function Dist(a: real, b: real): real { if a < b then b - a else a - b }

  /** gbt_num_distance. */
  function Distance(k: NumKey, query: real): real
  {
    if query <= k.lower then Dist(query, k.lower)
    else if query >= k.upper then Dist(query, k.upper)
    else 0.0
  }

  /** On a leaf it is the distance; on an inner key it is the distance to the nearest
      point of the range, so no value below is closer. */
  lemma DistanceBounds(k: NumKey, query: real, v: real)
    requires Covers(k, v)
    ensures Distance(KeyOf(v), query) == Dist(query, v)
    ensures 0.0 <= Distance(k, query) <= Dist(query, v)
    ensures Distance(k, query) == 0.0 <==> Covers(k, query)
    ensures Distance(k, query) == Dist(query, k.lower) || Distance(k, query) == Dist(query, k.upper) || Covers(k, query)
  {
  }

  /** And some point of the range is that close. */
  lemma DistanceAttained(k: NumKey, query: real) returns (v: real)
    requires k.lower <= k.upper
    ensures Covers(k, v) && Distance(k, query) == Dist(query, v)
  {
    v := if query <= k.lower then k.lower else if query >= k.upper then k.upper else query;
  }

  // ---------------------------------------------------------------------- split

  function Compare(a: NumKey, b: NumKey): int
  {
    if a.lower < b.lower then -1 else if a.lower > b.lower then 1
    else if a.upper < b.upper then -1 else if a.upper > b.upper then 1 else 0
  }

  /** By lower bound, and by upper bound where those are equal. */
  lemma SortedByBounds(a: NumKey, b: NumKey)
    ensures Compare(a, b) <= 0 <==> a.lower < b.lower || (a.lower == b.lower && a.upper <= b.upper)
  {
  }

  lemma {:induction false} FoldCovers(ks: seq<NumKey>, n: nat, i: nat, v: real)
    requires i < n <= |ks| && Covers(ks[i], v)
    ensures Fold(BinUnion, ks, 0, n).Some? && Covers(Fold(BinUnion, ks, 0, n).value, v)
  {
    if i < n - 1 {
      FoldCovers(ks, n - 1, i, v);
    }
  }

  /** gbt_num_picksplit, given the order the sort delivers: every entry on exactly one
      side, neither side empty, each side's key covering what its entries cover. */
  method PickSplit(entries: seq<NumKey>, order: seq<nat>) returns (left: seq<nat>, right: seq<nat>, l: NumKey, r: NumKey)
    requires |entries| >= 2 && SortedOrder(Compare, entries, order)
    ensures left + right == order && |left| == |entries| / 2 && left != [] && right != []
    ensures InRange(entries, left) && InRange(entries, right)
    ensures forall i, v :: 0 <= i < |left| && Covers(entries[left[i]], v) ==> Covers(l, v)
    ensures forall i, v :: 0 <= i < |right| && Covers(entries[right[i]], v) ==> Covers(r, v)
    ensures Fold(BinUnion, Pick(entries, left), 0, |left|) == Some(l)
    ensures Fold(BinUnion, Pick(entries, right), 0, |right|) == Some(r)
  {
    left, right, l, r := Halve(BinUnion, entries, order);
    forall i, v | 0 <= i < |left| && Covers(entries[left[i]], v) ensures Covers(l, v) {
      FoldCovers(Pick(entries, left), |left|, i, v);
    }
    forall i, v | 0 <= i < |right| && Covers(entries[right[i]], v) ensures Covers(r, v) {
      FoldCovers(Pick(entries, right), |right|, i, v);
    }
  }

  // ------------------------------------------------- indexes that inserts build

  function Widened(k: NumKey, v: real): NumKey { BinUnion(Some(k), KeyOf(v)) }

  /** A division of the page by gbt_num_picksplit. */
  ghost predicate SplitFits(page: Tree<NumKey, real>, d: Division<NumKey>)
  {
    var ks := PageKeys(page, KeyOf);
    && SortedOrder(Compare, ks, d.left + d.right) && |d.left| == |ks| / 2 && InRange(ks, d.left) && InRange(ks, d.right)
    && Fold(BinUnion, Pick(ks, d.left), 0, |d.left|) == Some(d.lkey)
    && Fold(BinUnion, Pick(ks, d.right), 0, |d.right|) == Some(d.rkey)
  }

  lemma FoldKeysCover(ks: seq<NumKey>, offs: seq<nat>, key: NumKey)
    requires InRange(ks, offs) && Fold(BinUnion, Pick(ks, offs), 0, |offs|) == Some(key)
    ensures KeysCover(ks, offs, key, Covers)
  {
    forall i, v | 0 <= i < |offs| && offs[i] < |ks| && Covers(ks[offs[i]], v) ensures Covers(key, v) {
      FoldCovers(Pick(ks, offs), |offs|, i, v);
    }
  }

  lemma SplitIsCovering(page: Tree<NumKey, real>, d: Division<NumKey>)
    requires Sound(page, Covers) && SplitFits(page, d)
    ensures CoveringDivision(page, d, Covers)
  {
    var ks := PageKeys(page, KeyOf);
    FoldKeysCover(ks, d.left, d.lkey);
    FoldKeysCover(ks, d.right, d.rkey);
    DivisionCovers(page, d, Covers, KeyOf);
  }

  /** Every index that inserts and splits build, in any order and along any paths,
      answers every query exactly and holds what was inserted. */
  lemma BuiltAnswersExactly(steps: seq<Step<NumKey, real>>, query: real, op: Strategy)
    requires Builds(Leaf([]), steps, Widened, SplitFits)
    ensures var t := Built(Leaf([]), steps, Widened, SplitFits);
      && Search(t, LeafTest(query, op), InnerTest(query, op)) == Filter(Items(t), Matches(query, op))
      && multiset(Items(t)) == Inserted(steps)
  {
    forall page: Tree<NumKey, real>, d: Division<NumKey> | Sound(page, Covers) && SplitFits(page, d)
      ensures CoveringDivision(page, d, Covers)
    {
      SplitIsCovering(page, d);
    }
    var empty: Tree<NumKey, real> := Leaf([]);
    BuiltIsSound(empty, steps, Covers, Widened, SplitFits);
    SoundSearchIsFilter(Built(empty, steps, Widened, SplitFits), query, op);
  }
}
