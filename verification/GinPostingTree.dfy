/** amcheck's check of a GIN posting tree: a depth-first walk with an explicit stack. */
module GinPostingTree {

  datatype Tid = Tid(blk: nat, off: nat)

  /** ItemPointerCompare <= 0. */
  predicate Le(a: Tid, b: Tid) { a.blk < b.blk || (a.blk == b.blk && a.off <= b.off) }

  /** It is the order of the 48-bit numbers the pointers are. */
  lemma LeIsNumeric(a: Tid, b: Tid)
    requires a.off < 0x1_0000 && b.off < 0x1_0000
    ensures Le(a, b) <==> a.blk * 0x1_0000 + a.off <= b.blk * 0x1_0000 + b.off
  {
  }

  /** The offset 0 marks an item pointer that is not one. */
  predicate Valid(t: Tid) { t.off != 0 }

  /** A posting tree as its pages unfold: a leaf with its TIDs, or an internal page with
      pd_lower, right bound, whether it has a right link, and posting items. */
  datatype Tree = Leaf(tids: seq<Tid>) | Node(lower: nat, bound: Tid, rightlink: bool, items: seq<Down>)
  datatype Down = Down(key: Tid, child: Tree)

  const HEADER := 24 + 8
  const POSTING_ITEM := 10

  // ------------------------------------------------------- checks on one page

  predicate LeafGood(tids: seq<Tid>, hasParent: bool, pk: Tid)
  {
    hasParent && Valid(pk) && tids != [] ==> Le(tids[|tids| - 1], pk)
  }

  predicate LowerGood(t: Tree)
    requires t.Node?
  {
    t.lower >= HEADER && (t.lower - HEADER) / POSTING_ITEM == |t.items|
  }

  predicate BoundGood(t: Tree, pk: Tid)
    requires t.Node?
  {
    Valid(pk) && t.rightlink ==> pk == t.bound
  }

  /** Keys in order, the last one of a page without right link (0,0), and none above
      the parent's key. */
  predicate ItemGood(t: Tree, pk: Tid, i: nat)
    requires t.Node? && i < |t.items|
  {
    var last := i + 1 == |t.items|;
    && (if last && !t.rightlink then t.items[i].key == Tid(0, 0)
        else i > 0 ==> Le(t.items[i - 1].key, t.items[i].key))
    && (last && Valid(pk) ==> Le(t.items[i].key, pk))
  }

  predicate ItemsGood(t: Tree, pk: Tid)
    requires t.Node?
  {
    forall i :: 0 <= i < |t.items| ==> ItemGood(t, pk, i)
  }

  // ------------------------------------------------------ the definition

  /** The tree is good: every leaf at depth leafdepth, every page good. */
  predicate Good(t: Tree, hasParent: bool, pk: Tid, depth: nat, leafdepth: nat)
    decreases t, 1
  {
    match t
    case Leaf(tids) => depth == leafdepth && LeafGood(tids, hasParent, pk)
    case Node(_, _, _, items) =>
      LowerGood(t) && BoundGood(t, pk) && ItemsGood(t, pk) && AllGood(items, depth + 1, leafdepth)
  }

  predicate AllGood(items: seq<Down>, depth: nat, leafdepth: nat)
    decreases items, 0
  {
    forall i :: 0 <= i < |items| ==>
      (assert (items decreases to items[i]); Good(items[i].child, true, items[i].key, depth, leafdepth))
  }

  ghost predicate TreeGood(t: Tree)
  {
    exists leafdepth: nat :: Good(t, false, Tid(0, 0), 0, leafdepth)
  }

  // ------------------------------------------------------------- the walk

  /** A stack entry: the page to visit, its depth, and what its downlink said. */
  datatype Visit = Visit(depth: nat, hasParent: bool, parentkey: Tid, page: Tree)

  function Size(t: Tree): (n: nat)
    ensures n > 0
    decreases t, 1
  {
    if t.Leaf? then 1 else 1 + Sizes(t.items)
  }

  function Sizes(items: seq<Down>): nat
    decreases items, 0
  {
    if items == [] then 0
    else
      var d := items[|items| - 1];
      assert (items decreases to d);
      Sizes(items[..|items| - 1]) + Size(d.child)
  }

  function StackSize(stack: seq<Visit>): nat
  {
    if stack == [] then 0 else Size(stack[0].page) + StackSize(stack[1..])
  }

  predicate StackGood(stack: seq<Visit>, leafdepth: nat)
  {
    forall i :: 0 <= i < |stack| ==> VisitGood(stack[i], leafdepth)
  }

  predicate VisitGood(v: Visit, leafdepth: nat)
  {
    Good(v.page, v.hasParent, v.parentkey, v.depth, leafdepth)
  }

  /** Children 0 to n - 1, each pushed on top of the one before. */
  function Pushed(items: seq<Down>, n: nat, depth: nat): (p: seq<Visit>)
    requires n <= |items|
    ensures |p| == n && forall i :: 0 <= i < n ==> p[i] == Visit(depth, true, items[n - 1 - i].key, items[n - 1 - i].child)
  {
    if n == 0 then [] else [Visit(depth, true, items[n - 1].key, items[n - 1].child)] + Pushed(items, n - 1, depth)
  }

  lemma {:induction false} PushedSize(items: seq<Down>, n: nat, depth: nat, rest: seq<Visit>)
    requires n <= |items|
    ensures StackSize(Pushed(items, n, depth) + rest) == Sizes(items[..n]) + StackSize(rest)
  {
    if n == 0 {
      assert Pushed(items, 0, depth) + rest == rest;
    } else {
      PushedSize(items, n - 1, depth, rest);
      var stack := Pushed(items, n, depth) + rest;
      assert stack[1..] == Pushed(items, n - 1, depth) + rest;
      assert items[..n][..n - 1] == items[..n - 1];
    }
  }

  lemma PushedGood(items: seq<Down>, depth: nat, rest: seq<Visit>, leafdepth: nat)
    ensures StackGood(Pushed(items, |items|, depth) + rest, leafdepth)
      <==> AllGood(items, depth, leafdepth) && StackGood(rest, leafdepth)
  {
    var n := |items|;
    var p := Pushed(items, n, depth);
    var stack := p + rest;
    if StackGood(stack, leafdepth) {
      forall i | 0 <= i < n ensures Good(items[i].child, true, items[i].key, depth, leafdepth) {
        assert VisitGood(stack[n - 1 - i], leafdepth);
      }
      forall i | 0 <= i < |rest| ensures VisitGood(rest[i], leafdepth) {
        assert VisitGood(stack[n + i], leafdepth);
      }
    }
  }

  /** The item loop on an internal page. */
  method CheckNode(t: Tree, pk: Tid) returns (ok: bool)
    requires t.Node?
    ensures ok <==> LowerGood(t) && BoundGood(t, pk) && ItemsGood(t, pk)
  {
    if t.lower < HEADER || (t.lower - HEADER) / POSTING_ITEM != |t.items| {
      return false;
    }
    if Valid(pk) && t.rightlink && pk != t.bound {
      return false;
    }
    var i := 0;
    while i < |t.items|
      invariant 0 <= i <= |t.items| && forall k :: 0 <= k < i ==> ItemGood(t, pk, k)
    {
      var last, key := i + 1 == |t.items|, t.items[i].key;
      if last && !t.rightlink {
        if key != Tid(0, 0) {
          assert !ItemGood(t, pk, i);
          return false;
        }
      } else if i != 0 && !Le(t.items[i - 1].key, key) {
        assert !ItemGood(t, pk, i);
        return false;
      }
      if last && Valid(pk) && !Le(key, pk) {
        assert !ItemGood(t, pk, i);
        return false;
      }
      i := i + 1;
    }
    ok := true;
  }

  predicate Fits(leafdepth: int, d: nat) { leafdepth == -1 || leafdepth == d }

  /** gin_check_posting_tree_parent_keys_consistency. */
  method CheckTree(root: Tree) returns (ok: bool)
    ensures ok <==> TreeGood(root)
  {
    var leafdepth: int := -1;
    var stack := [Visit(0, false, Tid(0, 0), root)];
    forall d: nat ensures StackGood(stack, d) <==> Good(root, false, Tid(0, 0), 0, d) {
      Popped(stack, d);
    }
    while stack != []
      invariant leafdepth >= -1
      invariant forall d: nat :: Good(root, false, Tid(0, 0), 0, d) <==> Fits(leafdepth, d) && StackGood(stack, d)
      decreases StackSize(stack)
    {
      var v, rest := stack[0], stack[1..];
      forall d: nat ensures StackGood(stack, d) <==> VisitGood(v, d) && StackGood(rest, d) {
        Popped(stack, d);
      }
      if v.page.Leaf? {
        if leafdepth != -1 && leafdepth != v.depth {
          return false;
        }
        if !LeafGood(v.page.tids, v.hasParent, v.parentkey) {
          return false;
        }
        leafdepth := v.depth;
        stack := rest;
      } else {
        ok := CheckNode(v.page, v.parentkey);
        if !ok {
          return;
        }
        var items := v.page.items;
        assert items[..|items|] == items;
        PushedSize(items, |items|, v.depth + 1, rest);
        stack := Pushed(items, |items|, v.depth + 1) + rest;
        forall d: nat ensures StackGood(stack, d) <==> AllGood(items, v.depth + 1, d) && StackGood(rest, d) {
          PushedGood(items, v.depth + 1, rest, d);
        }
      }
    }
    var d: nat := if leafdepth == -1 then 0 else leafdepth;
    assert Good(root, false, Tid(0, 0), 0, d);
    ok := true;
  }

  lemma Popped(stack: seq<Visit>, d: nat)
    requires stack != []
    ensures StackGood(stack, d) <==> VisitGood(stack[0], d) && StackGood(stack[1..], d)
  {
    if VisitGood(stack[0], d) && StackGood(stack[1..], d) {
      forall i | 0 <= i < |stack| ensures VisitGood(stack[i], d) {
        if i > 0 {
          assert VisitGood(stack[1..][i - 1], d);
        }
      }
    }
  }

  // ---------------------------------------------- what a reader meets on the way

  /** A page and the key of the downlink that led to it. */
  datatype Spot = Spot(page: Tree, key: Tid) | Nowhere

  /** Where downlinks number path[0], path[1], ... lead from t, reached by key. */
  function Reach(t: Tree, key: Tid, path: seq<nat>): Spot
    decreases |path|
  {
    if path == [] then Spot(t, key)
    else if t.Leaf? || path[0] >= |t.items| then Nowhere
    else Reach(t.items[path[0]].child, t.items[path[0]].key, path[1..])
  }

  /** The page as it must be at its depth, under the key of its downlink: pd_lower tells
      the number of items; a page with a right link stores the downlink's key, if that is
      one, as its bound, and its keys ascend to it; one without ends with (0,0). */
  predicate Stands(page: Tree, hasParent: bool, key: Tid, depth: nat, leafdepth: nat)
  {
    match page
    case Leaf(tids) =>
      depth == leafdepth && (hasParent && key.off != 0 && tids != [] ==> Le(tids[|tids| - 1], key))
    case Node(lower, bound, rightlink, items) =>
      && 32 + 10 * |items| <= lower < 32 + 10 * (|items| + 1)
      && (key.off != 0 && rightlink ==> bound == key)
      && (!rightlink && items != [] ==> items[|items| - 1].key == Tid(0, 0))
      && (forall i, j :: 0 <= i < j < |items| && (rightlink || j + 1 < |items|) ==> Le(items[i].key, items[j].key))
      && (key.off != 0 && items != [] ==> Le(items[|items| - 1].key, key))
  }

  ghost predicate AllStand(t: Tree, hasParent: bool, key: Tid, depth: nat, leafdepth: nat)
  {
    forall path: seq<nat> :: SpotStands(t, hasParent, key, depth, leafdepth, path)
  }

  predicate SpotStands(t: Tree, hasParent: bool, key: Tid, depth: nat, leafdepth: nat, path: seq<nat>)
  {
    var s := Reach(t, key, path);
    s.Spot? ==> Stands(s.page, hasParent || path != [], s.key, depth + |path|, leafdepth)
  }

  lemma {:induction false} KeysAscend(t: Tree, pk: Tid, i: nat, j: nat)
    requires t.Node? && ItemsGood(t, pk) && i < j < |t.items| && (t.rightlink || j + 1 < |t.items|)
    ensures Le(t.items[i].key, t.items[j].key)
    decreases j
  {
    assert ItemGood(t, pk, j);
    if i + 1 < j {
      KeysAscend(t, pk, i, j - 1);
    }
  }

  /** One page passes its own checks exactly when it stands. */
  lemma NodeGoodIff(t: Tree, hasParent: bool, pk: Tid, depth: nat, leafdepth: nat)
    requires t.Node?
    ensures LowerGood(t) && BoundGood(t, pk) && ItemsGood(t, pk) <==> Stands(t, hasParent, pk, depth, leafdepth)
  {
    if ItemsGood(t, pk) {
      forall i, j | 0 <= i < j < |t.items| && (t.rightlink || j + 1 < |t.items|) ensures Le(t.items[i].key, t.items[j].key) {
        KeysAscend(t, pk, i, j);
      }
      assert t.items != [] ==> ItemGood(t, pk, |t.items| - 1);
    }
    if Stands(t, hasParent, pk, depth, leafdepth) {
      forall i | 0 <= i < |t.items| ensures ItemGood(t, pk, i) {
      }
    }
  }

  lemma {:induction false} GoodStands(t: Tree, hasParent: bool, pk: Tid, depth: nat, leafdepth: nat, path: seq<nat>)
    requires Good(t, hasParent, pk, depth, leafdepth)
    ensures SpotStands(t, hasParent, pk, depth, leafdepth, path)
    decreases |path|
  {
    if path == [] {
      if t.Node? {
        NodeGoodIff(t, hasParent, pk, depth, leafdepth);
      }
    } else if t.Node? && path[0] < |t.items| {
      var d := t.items[path[0]];
      assert Good(d.child, true, d.key, depth + 1, leafdepth);
      GoodStands(d.child, true, d.key, depth + 1, leafdepth, path[1..]);
    }
  }

  lemma {:induction false} StandsGood(t: Tree, hasParent: bool, pk: Tid, depth: nat, leafdepth: nat)
    requires AllStand(t, hasParent, pk, depth, leafdepth)
    ensures Good(t, hasParent, pk, depth, leafdepth)
    decreases t
  {
    assert SpotStands(t, hasParent, pk, depth, leafdepth, []);
    if t.Node? {
      NodeGoodIff(t, hasParent, pk, depth, leafdepth);
      forall i | 0 <= i < |t.items| ensures Good(t.items[i].child, true, t.items[i].key, depth + 1, leafdepth) {
        assert (t.items decreases to t.items[i]);
        ChildStands(t, hasParent, pk, depth, leafdepth, i);
        StandsGood(t.items[i].child, true, t.items[i].key, depth + 1, leafdepth);
      }
    }
  }

  lemma ChildStands(t: Tree, hasParent: bool, pk: Tid, depth: nat, leafdepth: nat, i: nat)
    requires AllStand(t, hasParent, pk, depth, leafdepth) && t.Node? && i < |t.items|
    ensures AllStand(t.items[i].child, true, t.items[i].key, depth + 1, leafdepth)
  {
    var child, key, below := t.items[i].child, t.items[i].key, depth + 1;
    forall path: seq<nat> ensures SpotStands(child, true, key, below, leafdepth, path) {
      assert SpotStands(t, hasParent, pk, depth, leafdepth, [i] + path);
      assert ([i] + path)[1..] == path;
    }
  }

  /** A tree is accepted exactly when every page that downlinks lead to stands, the leaves
      all at one depth. */
  lemma TreeGoodIff(t: Tree)
    ensures TreeGood(t) <==> exists leafdepth: nat :: AllStand(t, false, Tid(0, 0), 0, leafdepth)
  {
    if TreeGood(t) {
      var leafdepth: nat :| Good(t, false, Tid(0, 0), 0, leafdepth);
      forall path: seq<nat> ensures SpotStands(t, false, Tid(0, 0), 0, leafdepth, path) {
        GoodStands(t, false, Tid(0, 0), 0, leafdepth, path);
      }
      assert AllStand(t, false, Tid(0, 0), 0, leafdepth);
    }
    if exists leafdepth: nat :: AllStand(t, false, Tid(0, 0), 0, leafdepth) {
      var leafdepth: nat :| AllStand(t, false, Tid(0, 0), 0, leafdepth);
      StandsGood(t, false, Tid(0, 0), 0, leafdepth);
    }
  }

  /** So the bounds of linked siblings, reached by keys, ascend, and each bounds the items
      of its own page. */
  lemma BoundsAscend(t: Tree, path: seq<nat>, i: nat, j: nat)
    requires TreeGood(t) && Reach(t, Tid(0, 0), path).Spot?
    requires var p := Reach(t, Tid(0, 0), path).page; p.Node? && i < j < |p.items| && LinkedChild(p, i) && LinkedChild(p, j)
    ensures var p := Reach(t, Tid(0, 0), path).page; Le(p.items[i].child.bound, p.items[j].child.bound)
    ensures var c := Reach(t, Tid(0, 0), path).page.items[i].child;
      forall m :: 0 <= m < |c.items| ==> Le(c.items[m].key, c.bound)
  {
    TreeGoodIff(t);
    var leafdepth: nat :| AllStand(t, false, Tid(0, 0), 0, leafdepth);
    var p := Reach(t, Tid(0, 0), path).page;
    assert SpotStands(t, false, Tid(0, 0), 0, leafdepth, path);
    ReachChild(t, Tid(0, 0), path, i);
    ReachChild(t, Tid(0, 0), path, j);
    assert SpotStands(t, false, Tid(0, 0), 0, leafdepth, path + [i]) && SpotStands(t, false, Tid(0, 0), 0, leafdepth, path + [j]);
  }

  predicate LinkedChild(p: Tree, i: nat)
    requires p.Node? && i < |p.items|
  {
    p.items[i].key.off != 0 && p.items[i].child.Node? && p.items[i].child.rightlink
  }

  lemma {:induction false} ReachChild(t: Tree, key: Tid, path: seq<nat>, i: nat)
    requires Reach(t, key, path).Spot? && Reach(t, key, path).page.Node? && i < |Reach(t, key, path).page.items|
    ensures var d := Reach(t, key, path).page.items[i]; Reach(t, key, path + [i]) == Spot(d.child, d.key)
    decreases |path|
  {
    if path != [] {
      assert (path + [i])[1..] == path[1..] + [i];
      ReachChild(t.items[path[0]].child, t.items[path[0]].key, path[1..], i);
    } else {
      assert ([i])[1..] == [] && path + [i] == [i];
    }
  }

  // ------------------------------------------------- bounds from all ancestors

  /** No leaf below t ends above k. */
  predicate LeavesUnder(t: Tree, k: Tid)
    decreases t, 1
  {
    match t
    case Leaf(tids) => tids != [] ==> Le(tids[|tids| - 1], k)
    case Node(_, _, _, items) => AllUnder(items, k)
  }

  predicate AllUnder(items: seq<Down>, k: Tid)
    decreases items, 0
  {
    forall i :: 0 <= i < |items| ==> (assert (items decreases to items[i]); LeavesUnder(items[i].child, k))
  }

  /** Every valid key bounds every leaf below it. */
  predicate KeysBound(t: Tree)
    decreases t, 1
  {
    t.Node? ==> ItemsBound(t.items)
  }

  predicate ItemsBound(items: seq<Down>)
    decreases items, 0
  {
    forall i :: 0 <= i < |items| ==>
      (assert (items decreases to items[i]);
       (Valid(items[i].key) ==> LeavesUnder(items[i].child, items[i].key)) && KeysBound(items[i].child))
  }

  // --------------------------------------------- when keys bound, on internal pages

  /** The same internal pages; leaves may hold anything. */
  predicate SameInner(t: Tree, u: Tree)
    decreases t, 1
  {
    if t.Leaf? || u.Leaf? then t.Leaf? && u.Leaf?
    else t.lower == u.lower && t.bound == u.bound && t.rightlink == u.rightlink && SameItems(t.items, u.items)
  }

  predicate SameItems(a: seq<Down>, b: seq<Down>)
    decreases a, 0
  {
    |a| == |b| && forall i :: 0 <= i < |a| ==> (assert (a decreases to a[i]); a[i].key == b[i].key && SameInner(a[i].child, b[i].child))
  }

  /** Each leaf below t, whose own downlink key is own if t is a leaf, has a valid
      downlink key at or below k. */
  predicate KeyedUnder(t: Tree, own: Tid, k: Tid)
    decreases t, 1
  {
    if t.Leaf? then Valid(own) && Le(own, k) else ItemsKeyedUnder(t.items, k)
  }

  predicate ItemsKeyedUnder(items: seq<Down>, k: Tid)
    decreases items, 0
  {
    forall i :: 0 <= i < |items| ==> (assert (items decreases to items[i]); KeyedUnder(items[i].child, items[i].key, k))
  }

  /** For each leaf and each valid key above it, the leaf's downlink key is valid and at
      or below that key. */
  predicate LeavesKeyed(t: Tree)
    decreases t, 1
  {
    t.Node? ==> ItemsKeyed(t.items)
  }

  predicate ItemsKeyed(items: seq<Down>)
    decreases items, 0
  {
    forall i :: 0 <= i < |items| ==>
      (assert (items decreases to items[i]);
       (Valid(items[i].key) ==> KeyedUnder(items[i].child, items[i].key, items[i].key)) && LeavesKeyed(items[i].child))
  }

  lemma {:induction false} SameInnerSelf(t: Tree)
    ensures SameInner(t, t)
    decreases t
  {
    if t.Node? {
      forall i | 0 <= i < |t.items| ensures SameInner(t.items[i].child, t.items[i].child) {
        assert (t.items decreases to t.items[i]);
        SameInnerSelf(t.items[i].child);
      }
    }
  }

  lemma {:induction false} SameKeyedUnder(t: Tree, u: Tree, own: Tid, k: Tid)
    requires SameInner(t, u) && KeyedUnder(t, own, k)
    ensures KeyedUnder(u, own, k)
    decreases t
  {
    if t.Node? {
      forall i | 0 <= i < |u.items| ensures KeyedUnder(u.items[i].child, u.items[i].key, k) {
        assert (t.items decreases to t.items[i]);
        SameKeyedUnder(t.items[i].child, u.items[i].child, t.items[i].key, k);
      }
    }
  }

  lemma {:induction false} SameLeavesKeyed(t: Tree, u: Tree)
    requires SameInner(t, u) && LeavesKeyed(t)
    ensures LeavesKeyed(u)
    decreases t
  {
    if t.Node? {
      forall i | 0 <= i < |u.items|
        ensures (Valid(u.items[i].key) ==> KeyedUnder(u.items[i].child, u.items[i].key, u.items[i].key)) && LeavesKeyed(u.items[i].child)
      {
        assert (t.items decreases to t.items[i]);
        SameLeavesKeyed(t.items[i].child, u.items[i].child);
        if Valid(u.items[i].key) {
          SameKeyedUnder(t.items[i].child, u.items[i].child, u.items[i].key, u.items[i].key);
        }
      }
    }
  }

  lemma {:induction false} KeyedIsUnder(t: Tree, own: Tid, k: Tid, depth: nat, leafdepth: nat)
    requires Good(t, true, own, depth, leafdepth) && KeyedUnder(t, own, k)
    ensures LeavesUnder(t, k)
    decreases t
  {
    if t.Node? {
      forall i | 0 <= i < |t.items| ensures LeavesUnder(t.items[i].child, k) {
        assert (t.items decreases to t.items[i]);
        KeyedIsUnder(t.items[i].child, t.items[i].key, k, depth + 1, leafdepth);
      }
    }
  }

  lemma {:induction false} KeyedIsBound(t: Tree, hasParent: bool, pk: Tid, depth: nat, leafdepth: nat)
    requires Good(t, hasParent, pk, depth, leafdepth) && LeavesKeyed(t)
    ensures KeysBound(t)
    decreases t
  {
    if t.Node? {
      forall i | 0 <= i < |t.items|
        ensures (Valid(t.items[i].key) ==> LeavesUnder(t.items[i].child, t.items[i].key)) && KeysBound(t.items[i].child)
      {
        assert (t.items decreases to t.items[i]);
        KeyedIsBound(t.items[i].child, true, t.items[i].key, depth + 1, leafdepth);
        if Valid(t.items[i].key) {
          KeyedIsUnder(t.items[i].child, t.items[i].key, t.items[i].key, depth + 1, leafdepth);
        }
      }
    }
  }

  function WithChild(t: Tree, i: nat, child: Tree): Tree
    requires t.Node? && i < |t.items|
  {
    t.(items := t.items[i := Down(t.items[i].key, child)])
  }

  /** Another good child with the same internal pages leaves the page good. */
  lemma ReplaceChild(t: Tree, i: nat, child: Tree, hasParent: bool, pk: Tid, depth: nat, leafdepth: nat)
    requires t.Node? && i < |t.items| && Good(t, hasParent, pk, depth, leafdepth)
    requires SameInner(t.items[i].child, child) && Good(child, true, t.items[i].key, depth + 1, leafdepth)
    ensures SameInner(t, WithChild(t, i, child)) && Good(WithChild(t, i, child), hasParent, pk, depth, leafdepth)
  {
    var u := WithChild(t, i, child);
    forall j | 0 <= j < |t.items| ensures ItemGood(u, pk, j) {
      assert ItemGood(t, pk, j);
    }
    forall j | 0 <= j < |t.items| ensures t.items[j].key == u.items[j].key && SameInner(t.items[j].child, u.items[j].child) {
      SameInnerSelf(t.items[j].child);
    }
  }

  /** A leaf without such a downlink key can end above k. */
  lemma {:induction false} LeafEscapes(t: Tree, own: Tid, k: Tid, depth: nat, leafdepth: nat) returns (u: Tree)
    requires Good(t, true, own, depth, leafdepth) && !KeyedUnder(t, own, k)
    ensures SameInner(t, u) && Good(u, true, own, depth, leafdepth) && !LeavesUnder(u, k)
    decreases t
  {
    if t.Leaf? {
      u := Leaf([if Valid(own) then own else Tid(k.blk, k.off + 1)]);
    } else {
      var i :| 0 <= i < |t.items| && !KeyedUnder(t.items[i].child, t.items[i].key, k);
      assert (t.items decreases to t.items[i]);
      var child := LeafEscapes(t.items[i].child, t.items[i].key, k, depth + 1, leafdepth);
      ReplaceChild(t, i, child, true, own, depth, leafdepth);
      u := WithChild(t, i, child);
      assert !LeavesUnder(u.items[i].child, k);
    }
  }

  lemma {:induction false} KeyEscaped(t: Tree, hasParent: bool, pk: Tid, depth: nat, leafdepth: nat) returns (u: Tree)
    requires Good(t, hasParent, pk, depth, leafdepth) && !LeavesKeyed(t)
    ensures SameInner(t, u) && Good(u, hasParent, pk, depth, leafdepth) && !KeysBound(u)
    decreases t
  {
    var i :| 0 <= i < |t.items| &&
      !((Valid(t.items[i].key) ==> KeyedUnder(t.items[i].child, t.items[i].key, t.items[i].key)) && LeavesKeyed(t.items[i].child));
    assert (t.items decreases to t.items[i]);
    var child;
    if LeavesKeyed(t.items[i].child) {
      child := LeafEscapes(t.items[i].child, t.items[i].key, t.items[i].key, depth + 1, leafdepth);
    } else {
      child := KeyEscaped(t.items[i].child, true, t.items[i].key, depth + 1, leafdepth);
    }
    ReplaceChild(t, i, child, hasParent, pk, depth, leafdepth);
    u := WithChild(t, i, child);
    assert u.items[i].child == child && u.items[i].key == t.items[i].key;
  }

  /** If u differs from t in leaf contents only and is accepted in its place, its keys
      bound its leaves. */
  predicate BoundIfGood(t: Tree, u: Tree, hasParent: bool, pk: Tid, depth: nat, leafdepth: nat)
  {
    SameInner(t, u) && Good(u, hasParent, pk, depth, leafdepth) ==> KeysBound(u)
  }

  /** Whatever an accepted tree's leaves hold, valid keys bound them, exactly when the
      internal pages key every leaf. */
  lemma KeysBoundIff(t: Tree, hasParent: bool, pk: Tid, depth: nat, leafdepth: nat)
    requires Good(t, hasParent, pk, depth, leafdepth)
    ensures (forall u: Tree :: BoundIfGood(t, u, hasParent, pk, depth, leafdepth)) <==> LeavesKeyed(t)
  {
    if LeavesKeyed(t) {
      forall u: Tree ensures BoundIfGood(t, u, hasParent, pk, depth, leafdepth) {
        if SameInner(t, u) && Good(u, hasParent, pk, depth, leafdepth) {
          SameLeavesKeyed(t, u);
          KeyedIsBound(u, hasParent, pk, depth, leafdepth);
        }
      }
    } else {
      var u := KeyEscaped(t, hasParent, pk, depth, leafdepth);
      assert !BoundIfGood(t, u, hasParent, pk, depth, leafdepth);
    }
  }

  // ------------------------------------------------------------- the right spine

  /** Every internal page of t has a right link and valid keys. */
  predicate Linked(t: Tree)
    decreases t, 1
  {
    t.Node? ==> t.rightlink && AllLinked(t.items, |t.items|)
  }

  predicate AllLinked(items: seq<Down>, n: nat)
    requires n <= |items|
    decreases items, 0
  {
    forall i :: 0 <= i < n ==> (assert (items decreases to items[i]); Valid(items[i].key) && Linked(items[i].child))
  }

  /** Only pages on the right spine lack a right link, and only their last key is not
      valid. */
  predicate Spine(t: Tree)
    decreases t, 1
  {
    t.Node? && t.items != [] ==>
      var last := t.items[|t.items| - 1];
      assert (t.items decreases to last);
      if t.rightlink then AllLinked(t.items, |t.items|) else AllLinked(t.items, |t.items| - 1) && Spine(last.child)
  }

  /** On a page with a right link, keys ascend to the last one. */
  lemma {:induction false} KeyBelowLast(t: Tree, pk: Tid, i: nat)
    requires t.Node? && t.rightlink && ItemsGood(t, pk) && i < |t.items|
    ensures Le(t.items[i].key, t.items[|t.items| - 1].key)
    decreases |t.items| - i
  {
    if i + 1 < |t.items| {
      KeyBelowLast(t, pk, i + 1);
      assert ItemGood(t, pk, i + 1);
    }
  }

  lemma {:induction false} LinkedKeyedUnder(t: Tree, pk: Tid, k: Tid, depth: nat, leafdepth: nat)
    requires Good(t, true, pk, depth, leafdepth) && Linked(t) && Valid(pk) && Le(pk, k)
    ensures KeyedUnder(t, pk, k)
    decreases t
  {
    if t.Node? {
      forall i | 0 <= i < |t.items| ensures KeyedUnder(t.items[i].child, t.items[i].key, k) {
        assert (t.items decreases to t.items[i]);
        KeyBelowLast(t, pk, i);
        assert ItemGood(t, pk, |t.items| - 1);
        LinkedKeyedUnder(t.items[i].child, t.items[i].key, k, depth + 1, leafdepth);
      }
    }
  }

  lemma {:induction false} LinkedKeyed(t: Tree, pk: Tid, depth: nat, leafdepth: nat)
    requires Good(t, true, pk, depth, leafdepth) && Linked(t)
    ensures LeavesKeyed(t)
    decreases t
  {
    if t.Node? {
      forall i | 0 <= i < |t.items|
        ensures KeyedUnder(t.items[i].child, t.items[i].key, t.items[i].key) && LeavesKeyed(t.items[i].child)
      {
        assert (t.items decreases to t.items[i]);
        LinkedKeyedUnder(t.items[i].child, t.items[i].key, t.items[i].key, depth + 1, leafdepth);
        LinkedKeyed(t.items[i].child, t.items[i].key, depth + 1, leafdepth);
      }
    }
  }

  lemma {:induction false} SpineKeyed(t: Tree, hasParent: bool, pk: Tid, depth: nat, leafdepth: nat)
    requires Good(t, hasParent, pk, depth, leafdepth) && Spine(t)
    ensures LeavesKeyed(t)
    decreases t
  {
    if t.Node? {
      var n := |t.items|;
      forall i | 0 <= i < n
        ensures (Valid(t.items[i].key) ==> KeyedUnder(t.items[i].child, t.items[i].key, t.items[i].key)) && LeavesKeyed(t.items[i].child)
      {
        assert (t.items decreases to t.items[i]);
        if i + 1 < n || t.rightlink {
          LinkedKeyedUnder(t.items[i].child, t.items[i].key, t.items[i].key, depth + 1, leafdepth);
          LinkedKeyed(t.items[i].child, t.items[i].key, depth + 1, leafdepth);
        } else {
          assert ItemGood(t, pk, i);
          SpineKeyed(t.items[i].child, true, t.items[i].key, depth + 1, leafdepth);
        }
      }
    }
  }

  /** In an accepted tree whose unlinked pages are all on the right spine, each leaf's
      last TID is bounded by every valid key above it. */
  lemma GoodKeysBound(t: Tree, hasParent: bool, pk: Tid, depth: nat, leafdepth: nat)
    requires Good(t, hasParent, pk, depth, leafdepth) && Spine(t)
    ensures KeysBound(t)
  {
    SpineKeyed(t, hasParent, pk, depth, leafdepth);
    KeysBoundIff(t, hasParent, pk, depth, leafdepth);
    SameInnerSelf(t);
    assert BoundIfGood(t, t, hasParent, pk, depth, leafdepth);
  }

  /** Off the spine a page without right link lets a leaf escape its ancestors. */
  lemma UnlinkedPageEscapes() returns (t: Tree)
    ensures TreeGood(t) && !KeysBound(t)
  {
    var leaf := Leaf([Tid(9, 1)]);
    var inner := Node(HEADER + POSTING_ITEM, Tid(0, 0), false, [Down(Tid(0, 0), leaf)]);
    var end := Node(HEADER + POSTING_ITEM, Tid(0, 0), false, [Down(Tid(0, 0), Leaf([]))]);
    var items := [Down(Tid(5, 1), inner), Down(Tid(0, 0), end)];
    t := Node(HEADER + 2 * POSTING_ITEM, Tid(0, 0), false, items);
    assert Good(leaf, true, Tid(0, 0), 2, 2) && Good(Leaf([]), true, Tid(0, 0), 2, 2);
    assert AllGood(inner.items, 2, 2) && AllGood(end.items, 2, 2);
    assert Good(inner, true, Tid(5, 1), 1, 2) && Good(end, true, Tid(0, 0), 1, 2);
    assert ItemGood(t, Tid(0, 0), 0) && ItemGood(t, Tid(0, 0), 1);
    assert AllGood(items, 1, 2);
    assert Good(t, false, Tid(0, 0), 0, 2);
    assert !LeavesUnder(leaf, Tid(5, 1)) && inner.items[0].child == leaf;
    assert !LeavesUnder(items[0].child, items[0].key);
  }
}
