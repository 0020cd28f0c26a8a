/** How a GiST index changes: insertion that widens the keys on its way, and page
    splits.  Every tree they build has covering keys and holds what was inserted. */
module GistBuild {
  import opened Optional
  import opened GistTree

  // ------------------------------------------------------- entries of one page

  ghost predicate SoundEntry<K, V>(e: Entry<K, V>, covers: (K, V) -> bool)
  {
    Sound(e.child, covers) && CoversItems(e, covers)
  }

  ghost predicate SoundEntries<K, V>(entries: seq<Entry<K, V>>, covers: (K, V) -> bool)
  {
    forall i :: 0 <= i < |entries| ==> SoundEntry(entries[i], covers)
  }

  lemma SoundInner<K, V>(entries: seq<Entry<K, V>>, covers: (K, V) -> bool)
    ensures Sound(Inner(entries), covers) <==> SoundEntries(entries, covers)
  {
    if Sound(Inner(entries), covers) {
      forall i | 0 <= i < |entries| ensures SoundEntry(entries[i], covers) {
        assert entries[i] in entries;
      }
    }
    if SoundEntries(entries, covers) {
      forall e | e in entries ensures Sound(e.child, covers) && CoversItems(e, covers) {
        var i :| 0 <= i < |entries| && entries[i] == e;
        assert SoundEntry(entries[i], covers);
      }
    }
  }

  /** The entries with entry k replaced by some others. */
  function Replace<K, V>(entries: seq<Entry<K, V>>, k: nat, sub: seq<Entry<K, V>>): seq<Entry<K, V>>
    requires k < |entries|
  {
    entries[..k] + sub + entries[k + 1..]
  }

  lemma ReplacedSound<K, V>(entries: seq<Entry<K, V>>, k: nat, sub: seq<Entry<K, V>>, covers: (K, V) -> bool)
    requires k < |entries| && SoundEntries(entries, covers) && SoundEntries(sub, covers)
    ensures SoundEntries(Replace(entries, k, sub), covers)
  {
    var r := Replace(entries, k, sub);
    forall i | 0 <= i < |r| ensures SoundEntry(r[i], covers) {
      if i < k {
        assert SoundEntry(entries[i], covers);
      } else if i < k + |sub| {
        assert SoundEntry(sub[i - k], covers);
      } else {
        assert SoundEntry(entries[i - |sub| + 1], covers);
      }
    }
  }

  lemma {:induction false} ItemsConcat<K, V>(a: seq<Entry<K, V>>, b: seq<Entry<K, V>>)
    ensures EntryItems(a + b) == EntryItems(a) + EntryItems(b)
  {
    if a == [] {
      assert a + b == b;
    } else {
      var s := a + b;
      assert s[1..] == a[1..] + b && s[0] == a[0];
      ItemsConcat(a[1..], b);
    }
  }

  lemma ItemsOfOne<K, V>(e: Entry<K, V>)
    ensures EntryItems([e]) == Items(e.child)
  {
    assert [e][1..] == [];
  }

  /** Replacing an entry replaces that entry's share of the items. */
  lemma ReplacedItems<K, V>(entries: seq<Entry<K, V>>, k: nat, sub: seq<Entry<K, V>>)
    requires k < |entries|
    ensures multiset(EntryItems(Replace(entries, k, sub))) + multiset(Items(entries[k].child))
         == multiset(EntryItems(entries)) + multiset(EntryItems(sub))
  {
    var before, after := entries[..k], entries[k + 1..];
    assert entries == before + [entries[k]] + after;
    ItemsConcat(before + [entries[k]], after);
    ItemsConcat(before, [entries[k]]);
    ItemsOfOne(entries[k]);
    ItemsConcat(before + sub, after);
    ItemsConcat(before, sub);
  }

  // --------------------------------------------------------------- insertion

  /** Follow a path of child numbers, widen each key on the way for the new value, and
      append to the leaf. */
  function Insert<K, V>(t: Tree<K, V>, path: seq<nat>, it: Item<V>, widen: (K, V) -> K): Option<Tree<K, V>>
    decreases t
  {
    match t
    case Leaf(items) => Some(Leaf(items + [it]))
    case Inner(entries) =>
      if path == [] || path[0] >= |entries| then None
      else
        var e := entries[path[0]];
        match Insert(e.child, path[1..], it, widen)
        case None => None
        case Some(child) => Some(Inner(Replace(entries, path[0], [Entry(widen(e.key, it.value), child)])))
  }

  ghost predicate Widens<K(!new), V(!new)>(covers: (K, V) -> bool, widen: (K, V) -> K)
  {
    && (forall k, v :: covers(widen(k, v), v))
    && (forall k, v, w :: covers(k, w) ==> covers(widen(k, v), w))
  }

  lemma {:induction false} InsertAdds<K, V>(t: Tree<K, V>, path: seq<nat>, it: Item<V>, widen: (K, V) -> K)
    requires Insert(t, path, it, widen).Some?
    ensures multiset(Items(Insert(t, path, it, widen).value)) == multiset(Items(t)) + multiset{it}
    decreases t
  {
    if t.Inner? {
      var e := t.entries[path[0]];
      InsertAdds(e.child, path[1..], it, widen);
      var grown := Entry(widen(e.key, it.value), Insert(e.child, path[1..], it, widen).value);
      ReplacedItems(t.entries, path[0], [grown]);
      ItemsOfOne(grown);
      Cancel(multiset(EntryItems(Replace(t.entries, path[0], [grown]))), multiset(Items(e.child)),
             multiset(EntryItems(t.entries)), multiset{it});
    }
  }

  lemma Cancel<T>(a: multiset<T>, b: multiset<T>, c: multiset<T>, d: multiset<T>)
    requires a + b == c + (b + d)
    ensures a == c + d
  {
    assert a == (a + b) - b;
  }

  lemma GrownIsSound<K(!new), V(!new)>(e: Entry<K, V>, grown: Entry<K, V>, it: Item<V>, covers: (K, V) -> bool, widen: (K, V) -> K)
    requires SoundEntry(e, covers) && Widens(covers, widen) && Sound(grown.child, covers)
    requires grown.key == widen(e.key, it.value) && multiset(Items(grown.child)) == multiset(Items(e.child)) + multiset{it}
    ensures SoundEntry(grown, covers)
  {
    forall x | x in Items(grown.child) ensures covers(grown.key, x.value) {
      assert x in multiset(Items(grown.child));
      assert x in multiset(Items(e.child)) || x == it;
      assert x in Items(e.child) ==> covers(e.key, x.value);
    }
  }

  /** An insert keeps every key covering. */
  lemma {:induction false} InsertKeepsSound<K(!new), V(!new)>(t: Tree<K, V>, path: seq<nat>, it: Item<V>,
      covers: (K, V) -> bool, widen: (K, V) -> K)
    requires Sound(t, covers) && Widens(covers, widen) && Insert(t, path, it, widen).Some?
    ensures Sound(Insert(t, path, it, widen).value, covers)
    decreases t
  {
    if t.Inner? {
      SoundInner(t.entries, covers);
      var e := t.entries[path[0]];
      assert SoundEntry(e, covers);
      InsertKeepsSound(e.child, path[1..], it, covers, widen);
      InsertAdds(e.child, path[1..], it, widen);
      var grown := Entry(widen(e.key, it.value), Insert(e.child, path[1..], it, widen).value);
      GrownIsSound(e, grown, it, covers, widen);
      ReplacedSound(t.entries, path[0], [grown], covers);
      SoundInner(Replace(t.entries, path[0], [grown]), covers);
    }
  }

  // ------------------------------------------------------------------ splits

  function PageSize<K, V>(t: Tree<K, V>): nat { if t.Leaf? then |t.items| else |t.entries| }

  predicate Offsets(offs: seq<nat>, n: nat) { forall i :: 0 <= i < |offs| ==> offs[i] < n }

  /** The page with just these of its entries. */
  function Select<K, V>(t: Tree<K, V>, offs: seq<nat>): Tree<K, V>
    requires Offsets(offs, PageSize(t))
  {
    match t
    case Leaf(items) => Leaf(seq(|offs|, i requires 0 <= i < |offs| => items[offs[i]]))
    case Inner(entries) => Inner(seq(|offs|, i requires 0 <= i < |offs| => entries[offs[i]]))
  }

  /** What a picksplit function returns. */
  datatype Division<K> = Division(left: seq<nat>, right: seq<nat>, lkey: K, rkey: K)

  /** Every entry of a page of n goes to exactly one side. */
  predicate Deals(all: seq<nat>, n: nat)
  {
    |all| == n && Offsets(all, n) && forall i, j :: 0 <= i < j < |all| ==> all[i] != all[j]
  }

  function Halves<K, V>(t: Tree<K, V>, d: Division<K>): seq<Entry<K, V>>
    requires Deals(d.left + d.right, PageSize(t))
  {
    SidesInRange(d.left, d.right, PageSize(t));
    [Entry(d.lkey, Select(t, d.left)), Entry(d.rkey, Select(t, d.right))]
  }

  /** Split the page at the path: the root gets a new page above it, any other page two
      entries in place of its one. */
  function Split<K, V>(t: Tree<K, V>, path: seq<nat>, d: Division<K>): Option<Tree<K, V>>
    decreases t
  {
    if path == [] then (if Deals(d.left + d.right, PageSize(t)) then Some(Inner(Halves(t, d))) else None)
    else if t.Leaf? || path[0] >= |t.entries| then None
    else
      var e := t.entries[path[0]];
      match Split(e.child, path[1..], d)
      case None => None
      case Some(child) =>
        if |path| == 1 then Some(Inner(Replace(t.entries, path[0], child.entries)))
        else Some(Inner(Replace(t.entries, path[0], [Entry(e.key, child)])))
  }

  // ------------------------------------- every entry to one side keeps all items

  ghost function CopiesAt<K, V>(t: Tree<K, V>, i: nat, x: Item<V>): nat
    requires i < PageSize(t)
  {
    if t.Inner? then multiset(Items(t.entries[i].child))[x] else if t.items[i] == x then 1 else 0
  }

  /** How often x is below the first m of some entries of a page. */
  ghost function CopiesTo<K, V>(t: Tree<K, V>, offs: seq<nat>, m: nat, x: Item<V>): nat
    requires Offsets(offs, PageSize(t)) && m <= |offs|
  {
    if m == 0 then 0 else CopiesTo(t, offs, m - 1, x) + CopiesAt(t, offs[m - 1], x)
  }

  lemma {:induction false} CopiesSame<K, V>(t: Tree<K, V>, a: seq<nat>, b: seq<nat>, m: nat, x: Item<V>)
    requires Offsets(a, PageSize(t)) && Offsets(b, PageSize(t)) && m <= |a| && m <= |b|
    requires forall i :: 0 <= i < m ==> a[i] == b[i]
    ensures CopiesTo(t, a, m, x) == CopiesTo(t, b, m, x)
  {
    if m > 0 {
      CopiesSame(t, a, b, m - 1, x);
    }
  }

  lemma {:induction false} SelectCopies<K, V>(t: Tree<K, V>, offs: seq<nat>, x: Item<V>)
    requires Offsets(offs, PageSize(t))
    ensures multiset(Items(Select(t, offs)))[x] == CopiesTo(t, offs, |offs|, x)
  {
    if offs != [] {
      var n := |offs| - 1;
      SelectCopies(t, offs[..n], x);
      CopiesSame(t, offs, offs[..n], n, x);
      SelectNext(t, offs, n, x);
    }
  }

  lemma SelectNext<K, V>(t: Tree<K, V>, offs: seq<nat>, n: nat, x: Item<V>)
    requires Offsets(offs, PageSize(t)) && |offs| == n + 1
    ensures multiset(Items(Select(t, offs)))[x] == multiset(Items(Select(t, offs[..n])))[x] + CopiesAt(t, offs[n], x)
  {
    if t.Leaf? {
      assert Select(t, offs).items == Select(t, offs[..n]).items + [t.items[offs[n]]];
    } else {
      assert Select(t, offs).entries == Select(t, offs[..n]).entries + [t.entries[offs[n]]];
      ItemsConcat(Select(t, offs[..n]).entries, [t.entries[offs[n]]]);
      ItemsOfOne(t.entries[offs[n]]);
    }
  }

  lemma {:induction false} CopiesJoin<K, V>(t: Tree<K, V>, a: seq<nat>, b: seq<nat>, m: nat, x: Item<V>)
    requires Offsets(a + b, PageSize(t)) && Offsets(a, PageSize(t)) && Offsets(b, PageSize(t)) && m <= |b|
    ensures CopiesTo(t, a + b, |a| + m, x) == CopiesTo(t, a, |a|, x) + CopiesTo(t, b, m, x)
  {
    if m == 0 {
      CopiesSame(t, a + b, a, |a|, x);
    } else {
      CopiesJoin(t, a, b, m - 1, x);
      assert (a + b)[|a| + m - 1] == b[m - 1];
    }
  }

  function Without(a: seq<nat>, p: nat): seq<nat>
    requires p < |a|
  {
    a[..p] + a[p + 1..]
  }

  lemma WithoutIs(a: seq<nat>, p: nat, i: nat)
    requires p < |a| && i < |a| - 1
    ensures Without(a, p)[i] == if i < p then a[i] else a[i + 1]
  {
  }

  /** Distinct numbers below k are no more than k. */
  lemma {:induction false} AtMost(a: seq<nat>, k: nat)
    requires Offsets(a, k) && forall i, j :: 0 <= i < j < |a| ==> a[i] != a[j]
    ensures |a| <= k
  {
    if a == [] {
    } else if p :| 0 <= p < |a| && a[p] == k - 1 {
      var b := Without(a, p);
      forall i | 0 <= i < |b| ensures b[i] < k - 1 {
        WithoutIs(a, p, i);
      }
      forall i, j | 0 <= i < j < |b| ensures b[i] != b[j] {
        WithoutIs(a, p, i);
        WithoutIs(a, p, j);
      }
      AtMost(b, k - 1);
    } else {
      assert a[0] < k;
      AtMost(a, k - 1);
    }
  }

  /** A list of all numbers below k is no shorter than k. */
  lemma {:induction false} AtLeast(a: seq<nat>, k: nat)
    requires forall i :: 0 <= i < k ==> i in a
    ensures |a| >= k
  {
    if k > 0 {
      assert k - 1 in a;
      var p :| 0 <= p < |a| && a[p] == k - 1;
      var b := Without(a, p);
      forall i | 0 <= i < k - 1 ensures i in b {
        assert i in a;
        var q :| 0 <= q < |a| && a[q] == i;
        var q' := if q < p then q else q - 1;
        WithoutIs(a, p, q');
        assert b[q'] == i;
      }
      AtLeast(b, k - 1);
    }
  }

  /** The last offset is dealt somewhere; without it the others are dealt. */
  lemma LastDealt(all: seq<nat>, n: nat) returns (p: nat)
    requires Deals(all, n) && n > 0
    ensures p < n && all[p] == n - 1 && Deals(Without(all, p), n - 1)
  {
    if forall i :: 0 <= i < n ==> all[i] != n - 1 {
      AtMost(all, n - 1);
      assert false;
    }
    p :| p < n && all[p] == n - 1;
    var b := Without(all, p);
    forall i | 0 <= i < |b| ensures b[i] < n - 1 {
      WithoutIs(all, p, i);
    }
    forall i, j | 0 <= i < j < |b| ensures b[i] != b[j] {
      WithoutIs(all, p, i);
      WithoutIs(all, p, j);
    }
  }

  function Iota(n: nat): seq<nat> { seq(n, i => i) }

  lemma {:induction false} CopiesWithout<K, V>(t: Tree<K, V>, a: seq<nat>, p: nat, m: nat, x: Item<V>)
    requires p < m <= |a| && Offsets(a, PageSize(t)) && Offsets(Without(a, p), PageSize(t))
    ensures CopiesTo(t, Without(a, p), m - 1, x) + CopiesAt(t, a[p], x) == CopiesTo(t, a, m, x)
  {
    if m - 1 == p {
      CopiesSame(t, a, Without(a, p), p, x);
    } else {
      CopiesWithout(t, a, p, m - 1, x);
      WithoutIs(a, p, m - 2);
    }
  }

  lemma {:induction false} DealtCopies<K, V>(t: Tree<K, V>, all: seq<nat>, n: nat, x: Item<V>)
    requires Deals(all, n) && n <= PageSize(t)
    ensures CopiesTo(t, all, n, x) == CopiesTo(t, Iota(n), n, x)
    decreases n
  {
    if n > 0 {
      var p := LastDealt(all, n);
      DealtCopies(t, Without(all, p), n - 1, x);
      CopiesWithout(t, all, p, n, x);
      CopiesSame(t, Iota(n), Iota(n - 1), n - 1, x);
    }
  }

  lemma SidesInRange(left: seq<nat>, right: seq<nat>, n: nat)
    requires Offsets(left + right, n)
    ensures Offsets(left, n) && Offsets(right, n)
  {
    var all := left + right;
    assert forall i :: 0 <= i < |left| ==> all[i] == left[i];
    forall i | 0 <= i < |right| ensures right[i] < n {
      assert all[|left| + i] == right[i];
    }
  }

  lemma HalvesKeepItems<K, V>(t: Tree<K, V>, d: Division<K>)
    requires Deals(d.left + d.right, PageSize(t))
    ensures multiset(EntryItems(Halves(t, d))) == multiset(Items(t))
  {
    var a, b := multiset(EntryItems(Halves(t, d))), multiset(Items(t));
    forall x | x in a || x in b ensures a[x] == b[x] {
      HalvesKeepCopies(t, d, x);
    }
    SameCopies(a, b);
  }

  lemma SameCopies<T>(a: multiset<T>, b: multiset<T>)
    requires forall x :: x in a || x in b ==> a[x] == b[x]
    ensures a == b
  {
  }

  lemma HalvesKeepCopies<K, V>(t: Tree<K, V>, d: Division<K>, x: Item<V>)
    requires Deals(d.left + d.right, PageSize(t))
    ensures multiset(EntryItems(Halves(t, d)))[x] == multiset(Items(t))[x]
  {
    hide Select;
    SidesInRange(d.left, d.right, PageSize(t));
    var l, r := Entry(d.lkey, Select(t, d.left)), Entry(d.rkey, Select(t, d.right));
    assert Halves(t, d) == [l] + [r];
    ItemsConcat([l], [r]);
    ItemsOfOne(l);
    ItemsOfOne(r);
    SelectCopies(t, d.left, x);
    SelectCopies(t, d.right, x);
    CopiesJoin(t, d.left, d.right, |d.right|, x);
    WholeCopies(t, d.left + d.right, x);
  }

  lemma WholeCopies<K, V>(t: Tree<K, V>, all: seq<nat>, x: Item<V>)
    requires Deals(all, PageSize(t))
    ensures CopiesTo(t, all, |all|, x) == multiset(Items(t))[x]
  {
    var n := PageSize(t);
    DealtCopies(t, all, n, x);
    SelectCopies(t, Iota(n), x);
    SelectAll(t);
  }

  lemma SelectAll<K, V>(t: Tree<K, V>)
    ensures Select(t, Iota(PageSize(t))) == t
  {
    var u := Select(t, Iota(PageSize(t)));
    if t.Leaf? {
      assert u.items == t.items;
    } else {
      assert u.entries == t.entries;
    }
  }

  lemma {:induction false} SplitKeepsItems<K, V>(t: Tree<K, V>, path: seq<nat>, d: Division<K>)
    requires Split(t, path, d).Some?
    ensures multiset(Items(Split(t, path, d).value)) == multiset(Items(t))
    decreases t
  {
    if path == [] {
      HalvesKeepItems(t, d);
    } else {
      var e := t.entries[path[0]];
      SplitKeepsItems(e.child, path[1..], d);
      var child := Split(e.child, path[1..], d).value;
      var sub := if |path| == 1 then child.entries else [Entry(e.key, child)];
      ItemsOfOne(Entry(e.key, child));
      ReplacedItems(t.entries, path[0], sub);
      Cancel(multiset(EntryItems(Replace(t.entries, path[0], sub))), multiset(Items(e.child)),
             multiset(EntryItems(t.entries)), multiset{});
    }
  }

  // ------------------------------------------------------------ sound splits

  function PageAt<K, V>(t: Tree<K, V>, path: seq<nat>): Option<Tree<K, V>>
    decreases t
  {
    if path == [] then Some(t)
    else if t.Leaf? || path[0] >= |t.entries| then None
    else PageAt(t.entries[path[0]].child, path[1..])
  }

  /** The division deals the page out and its keys cover what goes to each side. */
  ghost predicate CoveringDivision<K, V>(page: Tree<K, V>, d: Division<K>, covers: (K, V) -> bool)
  {
    Deals(d.left + d.right, PageSize(page)) && CoversItems(Halves(page, d)[0], covers) && CoversItems(Halves(page, d)[1], covers)
  }

  lemma SelectSound<K, V>(t: Tree<K, V>, offs: seq<nat>, covers: (K, V) -> bool)
    requires Sound(t, covers) && Offsets(offs, PageSize(t))
    ensures Sound(Select(t, offs), covers)
  {
    if t.Inner? {
      SoundInner(t.entries, covers);
      var es := Select(t, offs).entries;
      forall i | 0 <= i < |es| ensures SoundEntry(es[i], covers) {
        assert SoundEntry(t.entries[offs[i]], covers);
      }
      SoundInner(es, covers);
    }
  }

  lemma HalvesSound<K, V>(page: Tree<K, V>, d: Division<K>, covers: (K, V) -> bool)
    requires Sound(page, covers) && CoveringDivision(page, d, covers)
    ensures SoundEntries(Halves(page, d), covers)
  {
    var hs := Halves(page, d);
    SidesInRange(d.left, d.right, PageSize(page));
    SelectSound(page, d.left, covers);
    SelectSound(page, d.right, covers);
    forall i | 0 <= i < |hs| ensures SoundEntry(hs[i], covers) {
      assert i == 0 || i == 1;
    }
  }

  lemma {:induction false} SplitKeepsSound<K, V>(t: Tree<K, V>, path: seq<nat>, d: Division<K>, covers: (K, V) -> bool)
    requires Sound(t, covers) && Split(t, path, d).Some?
    requires PageAt(t, path).Some? && CoveringDivision(PageAt(t, path).value, d, covers)
    ensures Sound(Split(t, path, d).value, covers)
    decreases t
  {
    if path == [] {
      HalvesSound(t, d, covers);
      SoundInner(Halves(t, d), covers);
    } else {
      SoundInner(t.entries, covers);
      var e := t.entries[path[0]];
      assert SoundEntry(e, covers);
      SplitKeepsSound(e.child, path[1..], d, covers);
      SplitKeepsItems(e.child, path[1..], d);
      var child := Split(e.child, path[1..], d).value;
      var sub := if |path| == 1 then child.entries else [Entry(e.key, child)];
      SubIsSound(e, child, covers);
      ReplacedSound(t.entries, path[0], sub, covers);
      SoundInner(Replace(t.entries, path[0], sub), covers);
    }
  }

  lemma SubIsSound<K, V>(e: Entry<K, V>, child: Tree<K, V>, covers: (K, V) -> bool)
    requires SoundEntry(e, covers) && Sound(child, covers) && multiset(Items(child)) == multiset(Items(e.child)) && child.Inner?
    ensures SoundEntries([Entry(e.key, child)], covers) && SoundEntries(child.entries, covers)
  {
    SoundInner(child.entries, covers);
    forall x | x in Items(child) ensures covers(e.key, x.value) {
      assert x in multiset(Items(child));
      assert x in Items(e.child);
    }
    assert SoundEntry(Entry(e.key, child), covers);
  }

  /** A division whose keys cover what the page's own keys on that side cover. */
  ghost predicate KeysCover<K(!new), V(!new)>(ks: seq<K>, offs: seq<nat>, key: K, covers: (K, V) -> bool)
  {
    forall i, v :: 0 <= i < |offs| && offs[i] < |ks| && covers(ks[offs[i]], v) ==> covers(key, v)
  }

  lemma SideIsCovered<K(!new), V(!new)>(page: Tree<K, V>, offs: seq<nat>, key: K, covers: (K, V) -> bool, leafKey: V -> K)
    requires Sound(page, covers) && Offsets(offs, PageSize(page)) && (forall v :: covers(leafKey(v), v))
    requires KeysCover(PageKeys(page, leafKey), offs, key, covers)
    ensures CoversItems(Entry(key, Select(page, offs)), covers)
  {
    var ks := PageKeys(page, leafKey);
    forall it | it in Items(Select(page, offs)) ensures covers(key, it.value) {
      if page.Leaf? {
        var i :| 0 <= i < |offs| && page.items[offs[i]] == it;
        assert covers(ks[offs[i]], it.value);
      } else {
        var i := ItemHasEntry(Select(page, offs).entries, it);
        SoundInner(page.entries, covers);
        assert SoundEntry(page.entries[offs[i]], covers);
        assert covers(ks[offs[i]], it.value);
      }
    }
  }

  lemma DivisionCovers<K(!new), V(!new)>(page: Tree<K, V>, d: Division<K>, covers: (K, V) -> bool, leafKey: V -> K)
    requires Sound(page, covers) && Deals(d.left + d.right, PageSize(page)) && (forall v :: covers(leafKey(v), v))
    requires KeysCover(PageKeys(page, leafKey), d.left, d.lkey, covers)
    requires KeysCover(PageKeys(page, leafKey), d.right, d.rkey, covers)
    ensures CoveringDivision(page, d, covers)
  {
    SidesInRange(d.left, d.right, PageSize(page));
    SideIsCovered(page, d.left, d.lkey, covers, leafKey);
    SideIsCovered(page, d.right, d.rkey, covers, leafKey);
  }

  // -------------------------------------------------------------------- runs

  datatype Step<K, V> = Put(path: seq<nat>, it: Item<V>) | Cut(path: seq<nat>, d: Division<K>)

  /** A sequence of inserts and of splits that fit the pages they split. */
  ghost predicate Builds<K, V>(t: Tree<K, V>, steps: seq<Step<K, V>>, widen: (K, V) -> K, fits: (Tree<K, V>, Division<K>) -> bool)
    decreases |steps|
  {
    steps != [] ==>
      && Next(t, steps[0], widen).Some?
      && (steps[0].Cut? ==> PageAt(t, steps[0].path).Some? && fits(PageAt(t, steps[0].path).value, steps[0].d))
      && Builds(Next(t, steps[0], widen).value, steps[1..], widen, fits)
  }

  function Next<K, V>(t: Tree<K, V>, a: Step<K, V>, widen: (K, V) -> K): Option<Tree<K, V>>
  {
    match a
    case Put(path, it) => Insert(t, path, it, widen)
    case Cut(path, d) => Split(t, path, d)
  }

  ghost function Built<K, V>(t: Tree<K, V>, steps: seq<Step<K, V>>, widen: (K, V) -> K, fits: (Tree<K, V>, Division<K>) -> bool): Tree<K, V>
    requires Builds(t, steps, widen, fits)
    decreases |steps|
  {
    if steps == [] then t else Built(Next(t, steps[0], widen).value, steps[1..], widen, fits)
  }

  ghost function Inserted<K, V>(steps: seq<Step<K, V>>): multiset<Item<V>>
  {
    if steps == [] then multiset{}
    else (if steps[0].Put? then multiset{steps[0].it} else multiset{}) + Inserted(steps[1..])
  }

  /** Splits that fit have covering keys. */
  ghost predicate FitsCover<K(!new), V(!new)>(fits: (Tree<K, V>, Division<K>) -> bool, covers: (K, V) -> bool)
  {
    forall page, d :: Sound(page, covers) && fits(page, d) ==> CoveringDivision(page, d, covers)
  }

  /** Whatever inserts and fitting splits build has covering keys and holds exactly what
      it held and what was inserted, with multiplicity. */
  lemma {:induction false} BuiltIsSound<K(!new), V(!new)>(t: Tree<K, V>, steps: seq<Step<K, V>>, covers: (K, V) -> bool,
      widen: (K, V) -> K, fits: (Tree<K, V>, Division<K>) -> bool)
    requires Sound(t, covers) && Builds(t, steps, widen, fits) && Widens(covers, widen) && FitsCover(fits, covers)
    ensures Sound(Built(t, steps, widen, fits), covers)
    ensures multiset(Items(Built(t, steps, widen, fits))) == multiset(Items(t)) + Inserted(steps)
    decreases |steps|
  {
    if steps != [] {
      var t' := Next(t, steps[0], widen).value;
      match steps[0] {
        case Put(path, it) =>
          InsertKeepsSound(t, path, it, covers, widen);
          InsertAdds(t, path, it, widen);
        case Cut(path, d) =>
          PageIsSound(t, path, covers);
          SplitKeepsSound(t, path, d, covers);
          SplitKeepsItems(t, path, d);
      }
      BuiltIsSound(t', steps[1..], covers, widen, fits);
    }
  }

  lemma {:induction false} PageIsSound<K, V>(t: Tree<K, V>, path: seq<nat>, covers: (K, V) -> bool)
    requires Sound(t, covers) && PageAt(t, path).Some?
    ensures Sound(PageAt(t, path).value, covers)
    decreases t
  {
    if path != [] {
      SoundInner(t.entries, covers);
      assert SoundEntry(t.entries[path[0]], covers);
      PageIsSound(t.entries[path[0]].child, path[1..], covers);
    }
  }
}
