/** A GiST index as a tree of pages, and the scan that descends only where an inner key
    passes a test.  Keys, values and tests are parameters. */
module GistTree {
  import opened Optional

  datatype Item<V> = Item(value: V, tid: int)
  datatype Tree<K, V> = Leaf(items: seq<Item<V>>) | Inner(entries: seq<Entry<K, V>>)
  datatype Entry<K, V> = Entry(key: K, child: Tree<K, V>)

  /** Every item below a page, left to right. */
  function Items<K, V>(t: Tree<K, V>): seq<Item<V>>
    decreases t, 1
  {
    match t
    case Leaf(items) => items
    case Inner(entries) => EntryItems(entries)
  }

  function EntryItems<K, V>(entries: seq<Entry<K, V>>): seq<Item<V>>
    decreases entries, 0
  {
    if entries == [] then []
    else
      var e := entries[0];
      assert (entries decreases to e);
      Items(e.child) + EntryItems(entries[1..])
  }

  /** The full filter: no pruning. */
  function Filter<V>(items: seq<Item<V>>, matches: V -> bool): seq<int>
  {
    if items == [] then []
    else (if matches(items[0].value) then [items[0].tid] else []) + Filter(items[1..], matches)
  }

  /** Positions in ascending order. */
  predicate Ascending(ps: seq<nat>) { forall i, j :: 0 <= i < j < |ps| ==> ps[i] < ps[j] }

  predicate TidsAt<V>(tids: seq<int>, items: seq<Item<V>>, ps: seq<nat>)
  {
    |tids| == |ps| && forall k :: 0 <= k < |ps| ==> ps[k] < |items| && tids[k] == items[ps[k]].tid
  }

  /** Each position one further on. */
  function Later(ps: seq<nat>): (r: seq<nat>)
    ensures |r| == |ps| && forall i :: 0 <= i < |ps| ==> r[i] == ps[i] + 1
  {
    seq(|ps|, i requires 0 <= i < |ps| => ps[i] + 1)
  }

  lemma LaterIn(ps: seq<nat>, p: nat)
    ensures p in Later(ps) <==> p > 0 && p - 1 in ps
  {
    if p > 0 && p - 1 in ps {
      var k :| 0 <= k < |ps| && ps[k] == p - 1;
      assert Later(ps)[k] == p;
    }
    if p in Later(ps) {
      var k :| 0 <= k < |ps| && Later(ps)[k] == p;
      assert ps[k] == p - 1;
    }
  }

  lemma LaterTids<V>(tids: seq<int>, items: seq<Item<V>>, ps: seq<nat>)
    requires items != [] && Ascending(ps) && TidsAt(tids, items[1..], ps)
    ensures Ascending(Later(ps)) && TidsAt(tids, items, Later(ps))
    ensures Ascending([0] + Later(ps)) && TidsAt([items[0].tid] + tids, items, [0] + Later(ps))
  {
  }

  /** The filter lists the matching items, each once and in order. */
  lemma {:induction false} FilterIs<V>(items: seq<Item<V>>, matches: V -> bool) returns (ps: seq<nat>)
    ensures Ascending(ps) && TidsAt(Filter(items, matches), items, ps)
    ensures forall p :: 0 <= p < |items| ==> (p in ps <==> matches(items[p].value))
  {
    if items == [] {
      ps := [];
    } else {
      var rest := FilterIs(items[1..], matches);
      hide Ascending, TidsAt, Later;
      LaterTids(Filter(items[1..], matches), items, rest);
      ps := if matches(items[0].value) then [0] + Later(rest) else Later(rest);
      assert [] + Filter(items[1..], matches) == Filter(items[1..], matches);
      forall p | 0 <= p < |items| ensures p in ps <==> matches(items[p].value) {
        LaterIn(rest, p);
        assert p > 0 ==> items[1..][p - 1] == items[p];
      }
    }
  }

  /** The index scan: a child is visited only when its key passes the test. */
  function Search<K, V>(t: Tree<K, V>, leafTest: V -> bool, innerTest: K -> bool): seq<int>
    decreases t, 1
  {
    match t
    case Leaf(items) => Filter(items, leafTest)
    case Inner(entries) => SearchEntries(entries, leafTest, innerTest)
  }

  function SearchEntries<K, V>(entries: seq<Entry<K, V>>, leafTest: V -> bool, innerTest: K -> bool): seq<int>
    decreases entries, 0
  {
    if entries == [] then []
    else
      var e := entries[0];
      assert (entries decreases to e);
      (if innerTest(e.key) then Search(e.child, leafTest, innerTest) else [])
      + SearchEntries(entries[1..], leafTest, innerTest)
  }

  /** Every inner key covers every value below it. */
  ghost predicate Sound<K, V>(t: Tree<K, V>, covers: (K, V) -> bool)
    decreases t
  {
    match t
    case Leaf(_) => true
    case Inner(entries) => forall e :: e in entries ==> Sound(e.child, covers) && CoversItems(e, covers)
  }

  ghost predicate CoversItems<K, V>(e: Entry<K, V>, covers: (K, V) -> bool)
  {
    forall it :: it in Items(e.child) ==> covers(e.key, it.value)
  }

  /** The inner test never rejects a key that covers a matching value. */
  ghost predicate Safe<K(!new), V(!new)>(covers: (K, V) -> bool, matches: V -> bool, innerTest: K -> bool)
  {
    forall k, v :: covers(k, v) && matches(v) ==> innerTest(k)
  }

  lemma {:induction false} FilterConcat<V>(a: seq<Item<V>>, b: seq<Item<V>>, matches: V -> bool)
    ensures Filter(a + b, matches) == Filter(a, matches) + Filter(b, matches)
  {
    if a == [] {
      assert a + b == b;
    } else {
      var head := if matches(a[0].value) then [a[0].tid] else [];
      FilterConcat(a[1..], b, matches);
      FilterHead(a, b, matches);
      Regroup(head, Filter(a[1..], matches), Filter(b, matches));
    }
  }

  lemma FilterHead<V>(a: seq<Item<V>>, b: seq<Item<V>>, matches: V -> bool)
    requires a != []
    ensures Filter(a + b, matches) == (if matches(a[0].value) then [a[0].tid] else []) + Filter(a[1..] + b, matches)
  {
    var s := a + b;
    assert s[0] == a[0] && s[1..] == a[1..] + b;
  }

  lemma Regroup(x: seq<int>, y: seq<int>, z: seq<int>)
    ensures x + (y + z) == x + y + z
  {
  }

  lemma {:induction false} NothingToFind<V>(items: seq<Item<V>>, matches: V -> bool)
    requires forall it :: it in items ==> !matches(it.value)
    ensures Filter(items, matches) == []
  {
    if items != [] {
      NothingToFind(items[1..], matches);
    }
  }

  lemma {:induction false} SameFilter<V>(items: seq<Item<V>>, a: V -> bool, b: V -> bool)
    requires forall it :: it in items ==> a(it.value) == b(it.value)
    ensures Filter(items, a) == Filter(items, b)
  {
    if items != [] {
      assert items[0] in items;
      SameFilter(items[1..], a, b);
    }
  }

  /** With sound keys, an exact leaf test and a safe inner test, the pruned scan
      returns exactly the matching rows, in order, at any depth. */
  lemma {:induction false} SearchIsFilter<K(!new), V(!new)>(t: Tree<K, V>, covers: (K, V) -> bool,
      leafTest: V -> bool, innerTest: K -> bool, matches: V -> bool)
    requires Sound(t, covers) && Safe(covers, matches, innerTest) && forall v :: leafTest(v) == matches(v)
    ensures Search(t, leafTest, innerTest) == Filter(Items(t), matches)
    decreases t, 1
  {
    match t
    case Leaf(items) => SameFilter(items, leafTest, matches);
    case Inner(entries) => SearchEntriesIsFilter(entries, covers, leafTest, innerTest, matches);
  }

  lemma {:induction false} SearchEntriesIsFilter<K(!new), V(!new)>(entries: seq<Entry<K, V>>, covers: (K, V) -> bool,
      leafTest: V -> bool, innerTest: K -> bool, matches: V -> bool)
    requires forall e :: e in entries ==> Sound(e.child, covers) && CoversItems(e, covers)
    requires Safe(covers, matches, innerTest) && forall v :: leafTest(v) == matches(v)
    ensures SearchEntries(entries, leafTest, innerTest) == Filter(EntryItems(entries), matches)
    decreases entries, 0
  {
    if entries != [] {
      var e := entries[0];
      assert e in entries && (entries decreases to e);
      if innerTest(e.key) {
        SearchIsFilter(e.child, covers, leafTest, innerTest, matches);
      } else {
        NothingToFind(Items(e.child), matches);
      }
      SearchEntriesIsFilter(entries[1..], covers, leafTest, innerTest, matches);
      FilterConcat(Items(e.child), EntryItems(entries[1..]), matches);
    }
  }

  // ------------------------------------------------- where keys come from

  function PageKeys<K, V>(t: Tree<K, V>, leafKey: V -> K): (ks: seq<K>)
    ensures |ks| == if t.Leaf? then |t.items| else |t.entries|
    ensures t.Leaf? ==> forall i :: 0 <= i < |ks| ==> ks[i] == leafKey(t.items[i].value)
    ensures t.Inner? ==> forall i :: 0 <= i < |ks| ==> ks[i] == t.entries[i].key
  {
    match t
    case Leaf(items) => seq(|items|, i requires 0 <= i < |items| => leafKey(items[i].value))
    case Inner(entries) => seq(|entries|, i requires 0 <= i < |entries| => entries[i].key)
  }

  /** Each inner key is the union of the keys on the page it points to; union takes the
      first key and the others. */
  ghost predicate KeyedByUnion<K, V>(t: Tree<K, V>, leafKey: V -> K, union: (K, seq<K>) -> K)
    decreases t
  {
    match t
    case Leaf(_) => true
    case Inner(entries) =>
      forall e :: e in entries ==>
        KeyedByUnion(e.child, leafKey, union) && IsUnion(e.key, PageKeys(e.child, leafKey), union)
  }

  predicate IsUnion<K(==)>(k: K, ks: seq<K>, union: (K, seq<K>) -> K) { ks != [] && k == union(ks[0], ks[1..]) }

  /** A leaf key covers its value, and a union covers what any of its keys does. */
  ghost predicate UnionCovers<K(!new), V(!new)>(covers: (K, V) -> bool, leafKey: V -> K, union: (K, seq<K>) -> K)
  {
    && (forall v :: covers(leafKey(v), v))
    && (forall k, ks, v :: covers(k, v) ==> covers(union(k, ks), v))
    && (forall k, ks: seq<K>, v, i :: 0 <= i < |ks| && covers(ks[i], v) ==> covers(union(k, ks), v))
  }

  /** Some entry of an inner page leads to each item below it. */
  lemma {:induction false} ItemHasEntry<K, V>(entries: seq<Entry<K, V>>, it: Item<V>) returns (i: nat)
    requires it in EntryItems(entries)
    ensures i < |entries| && it in Items(entries[i].child)
    decreases |entries|
  {
    if it in Items(entries[0].child) {
      i := 0;
    } else {
      i := ItemHasEntry(entries[1..], it);
      i := i + 1;
    }
  }

  lemma {:induction false} EntryItemsIn<K, V>(entries: seq<Entry<K, V>>, e: Entry<K, V>)
    requires e in entries
    ensures forall it :: it in Items(e.child) ==> it in EntryItems(entries)
    decreases |entries|
  {
    if e != entries[0] {
      EntryItemsIn(entries[1..], e);
    }
  }

  lemma {:induction false} UnionKeysAreSound<K(!new), V(!new)>(t: Tree<K, V>, covers: (K, V) -> bool,
      leafKey: V -> K, union: (K, seq<K>) -> K)
    requires KeyedByUnion(t, leafKey, union) && UnionCovers(covers, leafKey, union)
    ensures Sound(t, covers)
    decreases t
  {
    if t.Inner? {
      forall e | e in t.entries ensures Sound(e.child, covers) && CoversItems(e, covers) {
        UnionKeysAreSound(e.child, covers, leafKey, union);
        forall it | it in Items(e.child) ensures covers(e.key, it.value) {
          PageKeysCover(e.child, covers, leafKey, union, it);
        }
      }
    }
  }

  lemma PageKeysCover<K(!new), V(!new)>(t: Tree<K, V>, covers: (K, V) -> bool, leafKey: V -> K,
      union: (K, seq<K>) -> K, it: Item<V>)
    requires Sound(t, covers) && UnionCovers(covers, leafKey, union) && it in Items(t)
    ensures var ks := PageKeys(t, leafKey); ks != [] && covers(union(ks[0], ks[1..]), it.value)
  {
    var ks := PageKeys(t, leafKey);
    var i: nat;
    match t {
      case Leaf(items) => i :| i < |items| && items[i] == it;
      case Inner(entries) =>
        i := ItemHasEntry(entries, it);
        assert entries[i] in entries;
    }
    assert covers(ks[i], it.value);
    assert i > 0 ==> ks[1..][i - 1] == ks[i];
  }
}
