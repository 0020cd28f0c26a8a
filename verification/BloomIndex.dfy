/** The bloom index as one backend drives it: build, insertion and bulk deletion as
    loops over pages and the metapage, each tied to the steps of the protocol. */
module BloomIndex {
  import opened Optional
  import opened BloomSignature
  import opened BloomPage
  import opened BloomProtocol
  import opened BloomSafety

  /** Block numbers of the first pages that bulk deletion lists, up to page n. */
  function ListUpTo(pages: seq<Page>, n: nat, size: nat): (l: seq<nat>)
    requires n <= |pages|
    ensures |l| <= LIST_MAX
  {
    if n == 0 then []
    else
      var l := ListUpTo(pages, n - 1, size);
      if Listed(pages[n - 1], size) && |l| < LIST_MAX then l + [n] else l
  }

  predicate ListedBlock(pages: seq<Page>, b: nat, n: nat, size: nat)
  {
    0 < b <= n <= |pages| && Listed(pages[b - 1], size)
  }

  /** They are data blocks with tuples and room, in order. */
  ghost predicate GoodList(pages: seq<Page>, l: seq<nat>, n: nat, size: nat)
  {
    && (forall b :: b in l ==> ListedBlock(pages, b, n, size))
    && (forall i, j :: 0 <= i < j < |l| ==> l[i] < l[j])
  }

  lemma {:induction false} ListIsGood(pages: seq<Page>, n: nat, size: nat)
    requires n <= |pages|
    ensures GoodList(pages, ListUpTo(pages, n, size), n, size)
  {
    if n > 0 {
      ListIsGood(pages, n - 1, size);
      GoodListGrows(pages, ListUpTo(pages, n - 1, size), n, size);
    }
  }

  lemma GoodListGrows(pages: seq<Page>, l: seq<nat>, n: nat, size: nat)
    requires 0 < n <= |pages| && GoodList(pages, l, n - 1, size)
    ensures GoodList(pages, l, n, size) && (Listed(pages[n - 1], size) ==> GoodList(pages, l + [n], n, size))
  {
    forall b | b in l ensures b < n && ListedBlock(pages, b, n, size) {
      assert ListedBlock(pages, b, n - 1, size);
    }
    if Listed(pages[n - 1], size) {
      var m := l + [n];
      forall b | b in m ensures ListedBlock(pages, b, n, size) {
        assert b in l || b == n;
      }
      forall i, j | 0 <= i < j < |m| ensures m[i] < m[j] {
        assert m[i] == l[i] && l[i] in l;
      }
    }
  }

  /** The page has tuples, and one more fits its block. */
  predicate HasSpace(p: Page, size: nat) { Usable(p) && p.items != [] && 24 + (|p.items| + 1) * size + 8 <= 8192 }

  /** The list holds every page with tuples and space, unless it is full of earlier ones. */
  lemma {:induction false} ListIsComplete(pages: seq<Page>, n: nat, size: nat, b: nat)
    requires 0 < b <= n <= |pages| && AllOK(pages, size)
    ensures b in ListUpTo(pages, n, size) ==> HasSpace(pages[b - 1], size)
    ensures HasSpace(pages[b - 1], size) ==>
      b in ListUpTo(pages, n, size) || (|ListUpTo(pages, n, size)| == LIST_MAX && forall x :: x in ListUpTo(pages, n, size) ==> x < b)
  {
    ListedIsSpace(pages[b - 1], size);
    ListIsGood(pages, n, size);
    if b < n {
      ListIsComplete(pages, n - 1, size, b);
    } else {
      ListIsGood(pages, n - 1, size);
      NewestListed(pages, n, size);
    }
  }

  lemma NewestListed(pages: seq<Page>, n: nat, size: nat)
    requires 0 < n <= |pages|
    ensures Listed(pages[n - 1], size) ==> n in ListUpTo(pages, n, size) || ListUpTo(pages, n, size) == ListUpTo(pages, n - 1, size)
    ensures Listed(pages[n - 1], size) && n !in ListUpTo(pages, n, size) ==> |ListUpTo(pages, n, size)| == LIST_MAX
  {
  }

  lemma ListedIsSpace(p: Page, size: nat)
    requires PageOK(p, size)
    ensures Listed(p, size) <==> HasSpace(p, size)
  {
    if Usable(p) {
      UsedIsProduct(|p.items|, size);
      RoomInBytes(|p.items|, size);
    }
  }

  predicate AllOK(pages: seq<Page>, size: nat)
  {
    forall k :: 0 <= k < |pages| ==> PageOK(pages[k], size)
  }

  /** bloomBuildCallback for each heap tuple, and the last flush. */
  method BuildPages(o: Options, items: seq<Item>) returns (flushed: seq<Page>)
    requires OptionsOK(o)
    ensures AllOK(flushed, ItemSize(o)) && Packed(flushed, |flushed|, ItemSize(o))
    ensures TuplesTo(flushed, |flushed|) == items
  {
    flushed := [];
    var cached: seq<Item> := [];
    var i := 0;
    while i < |items|
      invariant 0 <= i <= |items|
      invariant Building(o, flushed, cached, items[..i])
    {
      var room := HasRoom(|cached|, ItemSize(o));
      assert items[..i + 1] == items[..i] + [items[i]];
      if room {
        CacheNext(o, flushed, cached, items[..i], items[i]);
        cached := cached + [items[i]];
      } else {
        FlushNext(o, flushed, cached, items[..i], items[i]);
        flushed := flushed + [Page(false, cached)];
        cached := [items[i]];
      }
      i := i + 1;
    }
    assert items[..i] == items;
    LastFlush(o, flushed, cached, items);
    if |cached| > 0 {
      flushed := flushed + [Page(false, cached)];
    }
  }

  /** The build so far: full pages flushed, the last tuples cached. */
  ghost predicate Building(o: Options, flushed: seq<Page>, cached: seq<Item>, done: seq<Item>)
  {
    && PageOK(Page(false, cached), ItemSize(o)) && AllOK(flushed, ItemSize(o))
    && Packed(flushed, |flushed| + 1, ItemSize(o)) && (flushed != [] ==> cached != [])
    && TuplesTo(flushed, |flushed|) + cached == done
  }

  lemma CacheNext(o: Options, flushed: seq<Page>, cached: seq<Item>, done: seq<Item>, t: Item)
    requires OptionsOK(o) && Building(o, flushed, cached, done) && HasRoom(|cached|, ItemSize(o))
    ensures Building(o, flushed, cached + [t], done + [t])
  {
    RoomIsExact(|cached|, ItemSize(o));
  }

  lemma FlushNext(o: Options, flushed: seq<Page>, cached: seq<Item>, done: seq<Item>, t: Item)
    requires OptionsOK(o) && Building(o, flushed, cached, done) && !HasRoom(|cached|, ItemSize(o))
    ensures Building(o, flushed + [Page(false, cached)], [t], done + [t])
  {
    EmptyHasRoom(o);
    RoomIsExact(0, ItemSize(o));
    FlushCached(flushed, cached);
  }

  lemma LastFlush(o: Options, flushed: seq<Page>, cached: seq<Item>, items: seq<Item>)
    requires Building(o, flushed, cached, items)
    ensures var pages := if cached == [] then flushed else flushed + [Page(false, cached)];
      AllOK(pages, ItemSize(o)) && Packed(pages, |pages|, ItemSize(o)) && TuplesTo(pages, |pages|) == items
  {
    FlushCached(flushed, cached);
  }

  predicate SignsFit(pages: seq<Page>, length: nat)
  {
    forall q :: 0 <= q < |pages| && Usable(pages[q]) ==> AllSigned(pages[q].items, length)
  }

  predicate AllSigned(items: seq<Item>, length: nat) { forall i :: 0 <= i < |items| ==> |items[i].sign| == length }

  /** What a scan of the first n pages finds. */
  function HitsUpTo(pages: seq<Page>, n: nat, key: Sign): multiset<nat>
    requires n <= |pages|
  {
    if n == 0 then multiset{} else HitsUpTo(pages, n - 1, key) + Hits(Live(pages[n - 1]), key)
  }

  lemma NoHits(pages: seq<Page>, key: Sign)
    ensures HitsUpTo(pages, 0, key) == multiset{}
  {
  }

  lemma HitsNext(pages: seq<Page>, n: nat, key: Sign)
    requires n < |pages|
    ensures HitsUpTo(pages, n + 1, key) == HitsUpTo(pages, n, key) + Hits(Live(pages[n]), key)
  {
  }

  /** The heap pointers of a bag, as a bitmap keeps them. */
  ghost predicate Bitmap(found: set<nat>, hits: multiset<nat>)
  {
    forall tid :: tid in found <==> tid in hits
  }

  lemma BitmapsJoin(a: set<nat>, x: multiset<nat>, b: set<nat>, y: multiset<nat>)
    requires Bitmap(a, x) && Bitmap(b, y)
    ensures Bitmap(a + b, x + y) && |x + y| == |x| + |y|
  {
    forall tid ensures tid in a + b <==> tid in x + y {
      assert (x + y)[tid] == x[tid] + y[tid];
    }
  }

  lemma NoneYet()
    ensures Bitmap({}, multiset{})
  {
  }

  lemma JustOne(tid: nat)
    ensures Bitmap({tid}, multiset{tid}) && |multiset{tid}| == 1
  {
  }

  lemma HitsToNext(items: seq<Item>, m: nat, key: Sign)
    requires m < |items|
    ensures HitsTo(items, m + 1, key) == if Matching(items[m], key) then HitsTo(items, m, key) + multiset{items[m].tid} else HitsTo(items, m, key)
  {
  }

  /** The tuple loop of the scan. */
  method ScanTuples(items: seq<Item>, key: Sign) returns (found: set<nat>, n: nat)
    requires AllSigned(items, |key|)
    ensures Bitmap(found, Hits(items, key))
    ensures n == |Hits(items, key)|
  {
    hide Bitmap, Passes;
    found, n := {}, 0;
    assert Bitmap(found, multiset{}) by { NoneYet(); }
    var i := 0;
    while i < |items|
      invariant 0 <= i <= |items|
      invariant Bitmap(found, HitsTo(items, i, key))
      invariant n == |HitsTo(items, i, key)|
    {
      var res := BloomSignature.Matches(items[i].sign, key);
      if res {
        JustOne(items[i].tid);
        BitmapsJoin(found, HitsTo(items, i, key), {items[i].tid}, multiset{items[i].tid});
        found, n := found + {items[i].tid}, n + 1;
      }
      HitsToNext(items, i, key);
      i := i + 1;
    }
  }

  class Index {
    const o: Options
    var meta: Meta
    var pages: seq<Page>

    ghost predicate Valid()
      reads this
    {
      Inv(o, Value())
    }

    function Value(): State
      reads this
    {
      State(meta, None, pages, map[])
    }

    /** blbuild: tuples go to a cached page, flushed to a new block when full. */
    constructor Build(opts: Options, items: seq<Item>)
      requires OptionsOK(opts)
      ensures o == opts && Valid()
      ensures TuplesTo(pages, |pages|) == items && Packed(pages, |pages|, ItemSize(o))
      ensures forall t: Item :: Stored(Value(), t) == multiset(items)[t]
      ensures meta.nStart == meta.nEnd == 0
    {
      var flushed := BuildPages(opts, items);
      forall t: Item ensures Copies(flushed, 0, |flushed|, t) == multiset(items)[t] {
        TuplesCounted(flushed, |flushed|, t);
      }
      o := opts;
      meta := Meta(0, 0, seq(LIST_MAX, _ => 0));
      pages := flushed;
    }

    /** blinsert with no one else running: the first listed page, then the others
        under the metapage lock, then a recycled or new page. */
    method Insert(t: Item, free: Option<nat>)
      requires Valid()
      requires free.Some? ==> 0 < free.value <= |pages| && !Usable(pages[free.value - 1])
      modifies this
      ensures Valid() && Value() == Inserted(o, old(Value()), t, free)
      ensures forall x: Item :: Stored(Value(), x) == old(Stored(Value(), x)) + multiset{t}[x]
    {
      hide ProcOK, PageOK, TryAdd;
      InsertedKeeps(o, Value(), t, free);
      var tried: Option<nat> := None;
      if meta.nEnd > meta.nStart {
        var blk := meta.notFull[meta.nStart];
        var done := TryPage(blk, t);
        if done {
          return;
        }
        tried := Some(blk);
      }
      var slot := meta.nStart;
      if slot < meta.nEnd && tried == Some(meta.notFull[slot]) {
        slot := slot + 1;
      }
      var done := TrySlots(t, slot);
      if !done {
        AddPage(t, free);
      }
    }

    /** The pages of the slots from this one on, in turn. */
    method TrySlots(t: Item, from: nat) returns (done: bool)
      requires MetaOK(Value()) && meta.nStart <= from <= meta.nEnd
      modifies this
      ensures done <==> Landing(o, old(Value()), t, from) < old(meta).nEnd
      ensures Value() == if done then Placed(o, old(Value()), t, Landing(o, old(Value()), t, from)) else old(Value())
    {
      var slot := from;
      while slot < meta.nEnd
        invariant Value() == old(Value()) && from <= slot <= meta.nEnd
        invariant Landing(o, Value(), t, from) == Landing(o, Value(), t, slot)
      {
        done := TryPage(meta.notFull[slot], t);
        if done {
          meta := meta.(nStart := slot);
          return;
        }
        slot := slot + 1;
      }
      done := false;
    }

    /** A recycled page or a new one takes the tuple and becomes the list. */
    method AddPage(t: Item, free: Option<nat>)
      requires MetaOK(Value()) && (free.Some? ==> 0 < free.value <= |pages|)
      modifies this
      ensures Value() == OnNewPage(old(Value()), t, free)
    {
      if free.Some? {
        pages := pages[free.value - 1 := Page(false, [t])];
        meta := Meta(0, 1, meta.notFull[0 := free.value]);
      } else {
        pages := pages + [Page(false, [t])];
        meta := Meta(0, 1, meta.notFull[0 := |pages|]);
      }
    }

    /** Try one page; false leaves everything as it was. */
    method TryPage(blk: nat, t: Item) returns (done: bool)
      requires 0 < blk <= |pages|
      modifies this`pages
      ensures done == TryAdd(o, old(pages)[blk - 1], t).Some?
      ensures pages == if done then old(pages)[blk - 1 := TryAdd(o, old(pages)[blk - 1], t).value] else old(pages)
    {
      var r := Ready(pages[blk - 1]);
      done := HasRoom(|r.items|, ItemSize(o));
      if done {
        pages := pages[blk - 1 := Page(false, r.items + [t])];
      }
    }

    /** blgetbitmap: every live tuple that passes the signature test, and how many. */
    method GetBitmap(key: Sign) returns (bitmap: set<nat>, ntids: nat)
      requires SignsFit(pages, |key|)
      ensures Bitmap(bitmap, HitsUpTo(pages, |pages|, key))
      ensures ntids == |HitsUpTo(pages, |pages|, key)|
    {
      hide Bitmap, Hits, HitsUpTo;
      bitmap, ntids := {}, 0;
      NoneYet();
      assert HitsUpTo(pages, 0, key) == multiset{} by { NoHits(pages, key); }
      var q := 0;
      while q < |pages|
        invariant 0 <= q <= |pages| && SignsFit(pages, |key|)
        invariant Bitmap(bitmap, HitsUpTo(pages, q, key))
        invariant ntids == |HitsUpTo(pages, q, key)|
      {
        var found, n := ScanTuples(if Usable(pages[q]) then pages[q].items else [], key);
        HitsNext(pages, q, key);
        BitmapsJoin(bitmap, HitsUpTo(pages, q, key), found, Hits(Live(pages[q]), key));
        bitmap, ntids := bitmap + found, ntids + n;
        q := q + 1;
      }
    }

    /** blbulkdelete: compact every page, then replace the metapage's list. */
    method BulkDelete(dead: set<nat>) returns (removed: nat)
      requires Valid()
      modifies this
      ensures Valid() && Value() == Deleted(o, old(Value()), dead)
      ensures GoodList(pages, meta.notFull[..meta.nEnd], |pages|, ItemSize(o))
      ensures removed == DoomedUpTo(old(pages), |pages|, dead)
      ensures forall q :: 0 <= q < |pages| && Usable(old(pages)[q]) ==>
        (!Usable(pages[q]) <==> AllCondemned(old(pages)[q].items, dead))
    {
      var list;
      list, removed := Sweep(dead);
      forall q | 0 <= q < |pages| && Usable(old(pages)[q])
        ensures !Usable(pages[q]) <==> AllCondemned(old(pages)[q].items, dead)
      {
        EmptiedIff(old(pages)[q], dead);
      }
      ListIsGood(pages, |pages|, ItemSize(o));
      forall i | 0 <= i < |list| ensures 0 < list[i] <= |pages| {
        assert ListedBlock(pages, list[i], |pages|, ItemSize(o));
      }
      meta := Meta(0, |list|, list + meta.notFull[|list|..]);
    }

    /** The page loop. */
    method Sweep(dead: set<nat>) returns (list: seq<nat>, removed: nat)
      requires AllOK(pages, ItemSize(o))
      modifies this`pages
      ensures pages == Swept(old(pages), dead) && AllOK(pages, ItemSize(o))
      ensures list == ListUpTo(pages, |pages|, ItemSize(o)) && removed == DoomedUpTo(old(pages), |pages|, dead)
    {
      hide PageOK, Doomed, Survivors;
      list, removed := [], 0;
      var q := 0;
      while q < |pages|
        invariant 0 <= q <= |pages| == |old(pages)| && AllOK(pages, ItemSize(o))
        invariant forall k :: 0 <= k < q ==> pages[k] == Vacuumed(old(pages)[k], dead)
        invariant forall k :: q <= k < |pages| ==> pages[k] == old(pages)[k]
        invariant list == ListUpTo(pages, q, ItemSize(o))
        invariant removed == DoomedUpTo(old(pages), q, dead)
      {
        var page := Vacuumed(pages[q], dead);
        PageReplaced(pages, q, dead, ItemSize(o));
        ListSame(pages, pages[q := page], q, ItemSize(o));
        removed := removed + |Doomed(Live(pages[q]), dead)|;
        pages := pages[q := page];
        if Listed(page, ItemSize(o)) && |list| < LIST_MAX {
          list := list + [q + 1];
        }
        q := q + 1;
      }
    }
  }

  lemma PageReplaced(pages: seq<Page>, q: nat, dead: set<nat>, size: nat)
    requires AllOK(pages, size) && q < |pages|
    ensures AllOK(pages[q := Vacuumed(pages[q], dead)], size)
  {
    VacuumedOK(pages[q], dead, size);
  }

  function Swept(pages: seq<Page>, dead: set<nat>): (r: seq<Page>)
    ensures |r| == |pages| && forall q :: 0 <= q < |r| ==> r[q] == Vacuumed(pages[q], dead)
  {
    seq(|pages|, q requires 0 <= q < |pages| => Vacuumed(pages[q], dead))
  }

  /** After bulk deletion a page that was in use may be given to an insertion exactly when
      all its tuples were removed. */
  lemma MayRecycle(o: Options, s: State, dead: set<nat>, q: nat, pid: nat, t: Item)
    requires MetaOK(s) && q < |s.pages| && Usable(s.pages[q])
    ensures var s' := Deleted(o, s, dead);
      var waiting := s'.(metaLock := Some(pid), procs := map[pid := Slow(t, s'.meta.nEnd)]);
      Enabled(o, waiting, NewPage(pid, Some(q + 1))) <==> AllCondemned(s.pages[q].items, dead)
  {
    EmptiedIff(s.pages[q], dead);
  }

  /** The index after bulk deletion. */
  function Deleted(o: Options, s: State, dead: set<nat>): State
    requires MetaOK(s)
  {
    var pages := Swept(s.pages, dead);
    var list := ListUpTo(pages, |pages|, ItemSize(o));
    s.(pages := pages, meta := Meta(0, |list|, list + s.meta.notFull[|list|..]))
  }

  function DoomedUpTo(pages: seq<Page>, n: nat, dead: set<nat>): nat
    requires n <= |pages|
  {
    if n == 0 then 0 else DoomedUpTo(pages, n - 1, dead) + |Doomed(Live(pages[n - 1]), dead)|
  }

  lemma {:induction false} ListSame(a: seq<Page>, b: seq<Page>, n: nat, size: nat)
    requires n <= |a| && n <= |b| && forall i :: 0 <= i < n ==> a[i] == b[i]
    ensures ListUpTo(a, n, size) == ListUpTo(b, n, size)
  {
    if n > 0 {
      ListSame(a, b, n - 1, size);
    }
  }

  // ------------------------------------------------------------------- build

  /** The tuples of the first n pages, in page order. */
  function TuplesTo(pages: seq<Page>, n: nat): seq<Item>
    requires n <= |pages|
  {
    if n == 0 then [] else TuplesTo(pages, n - 1) + Live(pages[n - 1])
  }

  /** Pages before page n are followed by another only because they are full. */
  predicate Packed(pages: seq<Page>, n: nat, size: nat)
  {
    forall q :: 0 <= q < |pages| ==> Usable(pages[q]) && pages[q].items != [] && (q + 1 < n ==> !HasRoom(|pages[q].items|, size))
  }

  lemma {:induction false} TuplesSame(a: seq<Page>, b: seq<Page>, n: nat)
    requires n <= |a| && n <= |b| && forall i :: 0 <= i < n ==> a[i] == b[i]
    ensures TuplesTo(a, n) == TuplesTo(b, n)
  {
    if n > 0 {
      TuplesSame(a, b, n - 1);
    }
  }

  lemma FlushCached(flushed: seq<Page>, cached: seq<Item>)
    ensures TuplesTo(flushed + [Page(false, cached)], |flushed| + 1) == TuplesTo(flushed, |flushed|) + cached
  {
    TuplesSame(flushed, flushed + [Page(false, cached)], |flushed|);
  }

  lemma {:induction false} TuplesCounted(pages: seq<Page>, n: nat, t: Item)
    requires n <= |pages|
    ensures Copies(pages, 0, n, t) == multiset(TuplesTo(pages, n))[t]
  {
    if n > 0 {
      TuplesCounted(pages, n - 1, t);
    }
  }

  // --------------------------------------------------------------- insertion

  /** The first slot from here on whose page takes the tuple, or the end of the list. */
  function Landing(o: Options, s: State, t: Item, slot: nat): (k: nat)
    requires MetaOK(s) && s.meta.nStart <= slot <= s.meta.nEnd
    ensures slot <= k <= s.meta.nEnd
    ensures k < s.meta.nEnd ==> Takes(o, s, t, k)
    ensures forall j :: slot <= j < k ==> !Takes(o, s, t, j)
    decreases s.meta.nEnd - slot
  {
    if slot == s.meta.nEnd || Takes(o, s, t, slot) then slot else Landing(o, s, t, slot + 1)
  }

  predicate Takes(o: Options, s: State, t: Item, slot: nat)
    requires MetaOK(s) && s.meta.nStart <= slot < s.meta.nEnd
  {
    TryAdd(o, s.pages[s.meta.notFull[slot] - 1], t).Some?
  }

  /** The tuple on the page of slot k, where the list then starts. */
  function Placed(o: Options, s: State, t: Item, k: nat): State
    requires MetaOK(s) && s.meta.nStart <= k < s.meta.nEnd && Takes(o, s, t, k)
  {
    var blk := s.meta.notFull[k];
    s.(pages := s.pages[blk - 1 := TryAdd(o, s.pages[blk - 1], t).value], meta := s.meta.(nStart := k))
  }

  /** The tuple alone on a recycled or new page, which is then the whole list. */
  function OnNewPage(s: State, t: Item, free: Option<nat>): State
    requires MetaOK(s) && (free.Some? ==> InRange(s, free.value))
  {
    var pages := if free.Some? then s.pages[free.value - 1 := Page(false, [t])] else s.pages + [Page(false, [t])];
    s.(pages := pages, meta := Meta(0, 1, s.meta.notFull[0 := if free.Some? then free.value else |pages|]))
  }

  /** The index after an insertion: the first listed page with room, else a page of its
      own. */
  function Inserted(o: Options, s: State, t: Item, free: Option<nat>): State
    requires MetaOK(s) && (free.Some? ==> InRange(s, free.value))
  {
    var k := Landing(o, s, t, s.meta.nStart);
    if k < s.meta.nEnd then Placed(o, s, t, k) else OnNewPage(s, t, free)
  }

  lemma InsertOn(o: Options, s: State, blk: nat, t: Item)
    requires Inv(o, s) && s.procs == map[] && s.metaLock.None? && InRange(s, blk)
    requires TryAdd(o, s.pages[blk - 1], t).Some?
    ensures var s' := s.(pages := s.pages[blk - 1 := TryAdd(o, s.pages[blk - 1], t).value]);
      Inv(o, s') && forall x: Item :: Stored(s', x) == Stored(s, x) + multiset{t}[x]
  {
    var page := TryAdd(o, s.pages[blk - 1], t).value;
    var s' := s.(pages := s.pages[blk - 1 := page]);
    AddAccounts(o, s.pages[blk - 1], t);
    AddedPageOK(o, s.pages[blk - 1], t);
    forall x: Item ensures Stored(s', x) == Stored(s, x) + multiset{t}[x] {
      PageStepStored(s, s', blk - 1, multiset{t}, multiset{}, x);
    }
  }

  lemma InsertNew(o: Options, s: State, slot: nat, t: Item, free: Option<nat>)
    requires Inv(o, s) && s.procs == map[] && s.metaLock.None?
    requires free.Some? ==> InRange(s, free.value) && !Usable(s.pages[free.value - 1])
    ensures var pages := if free.Some? then s.pages[free.value - 1 := Page(false, [t])] else s.pages + [Page(false, [t])];
      var blk := if free.Some? then free.value else |pages|;
      var s' := s.(pages := pages, meta := Meta(0, 1, s.meta.notFull[0 := blk]));
      Inv(o, s') && forall x: Item :: Stored(s', x) == Stored(s, x) + multiset{t}[x]
  {
    var s1 := if free.Some? then s else s.(pages := s.pages + [Fresh]);
    var blk := if free.Some? then free.value else |s1.pages|;
    ExtendKeeps(o, s);
    EmptyTakes(o, s1.pages[blk - 1], t);
    InsertOn(o, s1, blk, t);
    assert free.None? ==> s1.pages[blk - 1 := Page(false, [t])] == s.pages + [Page(false, [t])];
  }

  lemma PlacedKeeps(o: Options, s: State, t: Item, k: nat)
    requires Inv(o, s) && s.procs == map[] && s.metaLock.None?
    requires s.meta.nStart <= k < s.meta.nEnd && Takes(o, s, t, k)
    ensures Inv(o, Placed(o, s, t, k))
    ensures forall x: Item :: Stored(Placed(o, s, t, k), x) == Stored(s, x) + multiset{t}[x]
  {
    InsertOn(o, s, s.meta.notFull[k], t);
  }

  /** After an insertion the list starts with the page that took the tuple, as its last
      one, and every other page in use is as it was. */
  lemma InsertedFirst(o: Options, s: State, t: Item, free: Option<nat>)
    requires Inv(o, s) && (free.Some? ==> InRange(s, free.value) && !Usable(s.pages[free.value - 1]))
    ensures var s' := Inserted(o, s, t, free);
      && s'.meta.nStart < s'.meta.nEnd <= |s'.meta.notFull| && 0 < s'.meta.notFull[s'.meta.nStart] <= |s'.pages|
      && var b := s'.meta.notFull[s'.meta.nStart];
         && Usable(s'.pages[b - 1]) && s'.pages[b - 1].items != [] && s'.pages[b - 1].items[|s'.pages[b - 1].items| - 1] == t
         && forall q :: 0 <= q < |s.pages| && q != b - 1 ==> q < |s'.pages| && s'.pages[q] == s.pages[q]
  {
    hide ProcOK;
  }

  lemma InsertedKeeps(o: Options, s: State, t: Item, free: Option<nat>)
    requires Inv(o, s) && s.procs == map[] && s.metaLock.None?
    requires free.Some? ==> InRange(s, free.value) && !Usable(s.pages[free.value - 1])
    ensures Inv(o, Inserted(o, s, t, free))
    ensures forall x: Item :: Stored(Inserted(o, s, t, free), x) == Stored(s, x) + multiset{t}[x]
  {
    hide ProcOK, PageOK, Takes, Placed, Stored;
    var k := Landing(o, s, t, s.meta.nStart);
    if k < s.meta.nEnd {
      PlacedKeeps(o, s, t, k);
    } else {
      InsertNew(o, s, k, t, free);
    }
  }
}
