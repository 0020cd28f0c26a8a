/** One page of a bloom index: appending a tuple, and the in-place compaction that
    bulk deletion makes. */
module BloomPage {
  import opened BloomSignature

  /** A stored tuple: the heap pointer it stands for, and its signature. */
  datatype Item = Item(tid: nat, sign: Sign)

  const HEADER := 24
  const OPAQUE := 8
  const CAPACITY := 8192 - HEADER - OPAQUE
  const TWO64 := 0x1_0000_0000_0000_0000

  function ItemSize(o: Options): nat { 6 + 2 * o.length }

  /** The bytes that n tuples take. */
  function Used(n: nat, size: nat): nat { if n == 0 then 0 else Used(n - 1, size) + size }

  lemma {:induction false} UsedIsProduct(n: nat, size: nat)
    ensures Used(n, size) == n * size
  {
    if n > 0 {
      UsedIsProduct(n - 1, size);
    }
  }

  /** Free bytes beside n tuples, in unsigned arithmetic. */
  function FreeSpace(n: nat, size: nat): nat { (CAPACITY - Used(n, size)) % TWO64 }

  predicate HasRoom(n: nat, size: nat) { FreeSpace(n, size) >= size }

  predicate Within(n: nat, size: nat) { Used(n, size) <= CAPACITY }

  /** Within capacity the unsigned subtraction is exact, so a tuple that has room
      leaves the page within capacity. */
  lemma RoomIsExact(n: nat, size: nat)
    requires Within(n, size)
    ensures HasRoom(n, size) <==> Within(n + 1, size)
  {
  }

  lemma {:induction false} Fewer(m: nat, n: nat, size: nat)
    requires m <= n && Within(n, size)
    ensures Within(m, size)
  {
    if m < n {
      Fewer(m, n - 1, size);
    }
  }

  /** In bytes: there is room exactly when header, tuples, one more and the special space
      fit the block. */
  lemma RoomInBytes(n: nat, size: nat)
    requires 24 + n * size + 8 <= 8192
    ensures HasRoom(n, size) <==> 24 + (n + 1) * size + 8 <= 8192
  {
    UsedIsProduct(n, size);
    UsedIsProduct(n + 1, size);
    RoomIsExact(n, size);
  }

  /** The number of tuples that fit. */
  predicate IsLimit(limit: nat, size: nat) { Within(limit, size) && !Within(limit + 1, size) }

  lemma UnderLimit(n: nat, limit: nat, size: nat)
    requires Within(n, size) && IsLimit(limit, size)
    ensures n <= limit
  {
    if n > limit {
      Fewer(limit + 1, n, size);
    }
  }

  lemma EmptyHasRoom(o: Options)
    requires OptionsOK(o)
    ensures HasRoom(0, ItemSize(o))
  {
  }

  /** Never initialised, or initialised with a deleted flag and its tuples. */
  datatype Page = Fresh | Page(deleted: bool, items: seq<Item>)

  predicate Usable(p: Page) { p.Page? && !p.deleted }

  /** Insertion reinitialises a page that is new or was deleted by vacuum. */
  function Ready(p: Page): Page { if Usable(p) then p else Page(false, []) }

  predicate PageOK(p: Page, size: nat)
  {
    p.Page? ==> Within(|p.items|, size) && (p.deleted ==> p.items == [])
  }

  /** The tuples the callback does not condemn, in page order. */
  function Survivors(items: seq<Item>, dead: set<nat>): seq<Item>
  {
    if items == [] then []
    else
      var n := |items| - 1;
      Survivors(items[..n], dead) + if items[n].tid in dead then [] else [items[n]]
  }

  /** A live page after bulk deletion: emptied by it, it is marked deleted. */
  function Vacuumed(p: Page, dead: set<nat>): Page
  {
    if !Usable(p) then p
    else var s := Survivors(p.items, dead); Page(s == [] && p.items != [], s)
  }

  /** Whether bulk deletion offers the page to later insertions. */
  predicate Listed(p: Page, size: nat)
  {
    Usable(p) && p.items != [] && HasRoom(|p.items|, size)
  }

  lemma SurvivorsNext(items: seq<Item>, r: nat, dead: set<nat>)
    requires r < |items|
    ensures Survivors(items[..r + 1], dead) ==
      Survivors(items[..r], dead) + if items[r].tid in dead then [] else [items[r]]
  {
    assert items[..r + 1][..r] == items[..r];
  }

  function Doomed(items: seq<Item>, dead: set<nat>): seq<Item>
  {
    if items == [] then []
    else
      var n := |items| - 1;
      Doomed(items[..n], dead) + if items[n].tid in dead then [items[n]] else []
  }

  /** Bulk deletion splits a page's tuples: nothing is lost and nothing appears. */
  lemma {:induction false} SurvivorsSplit(items: seq<Item>, dead: set<nat>)
    ensures multiset(items) == multiset(Survivors(items, dead)) + multiset(Doomed(items, dead))
    ensures |Survivors(items, dead)| <= |items|
    ensures forall x :: x in Survivors(items, dead) ==> x.tid !in dead && x in items
    ensures forall x :: x in Doomed(items, dead) ==> x.tid in dead
  {
    if items != [] {
      var n := |items| - 1;
      SurvivorsSplit(items[..n], dead);
      assert items == items[..n] + [items[n]];
    }
  }

  /** Positions in ascending order. */
  predicate Ascending(ps: seq<nat>) { forall i, j :: 0 <= i < j < |ps| ==> ps[i] < ps[j] }

  /** The tuples at some positions of a page. */
  predicate AtPositions(s: seq<Item>, items: seq<Item>, ps: seq<nat>)
  {
    |s| == |ps| && forall k :: 0 <= k < |ps| ==> ps[k] < |items| && s[k] == items[ps[k]]
  }

  lemma PositionsGrow(s: seq<Item>, items: seq<Item>, ps: seq<nat>, n: nat)
    requires n < |items| && Ascending(ps) && AtPositions(s, items[..n], ps)
    ensures AtPositions(s, items, ps) && n !in ps
    ensures Ascending(ps + [n]) && AtPositions(s + [items[n]], items, ps + [n])
  {
    forall k | 0 <= k < |ps| ensures ps[k] < n && s[k] == items[ps[k]] {
    }
  }

  /** Survivors are the tuples not condemned, each once and in page order. */
  lemma {:induction false} SurvivorsAre(items: seq<Item>, dead: set<nat>) returns (ps: seq<nat>)
    ensures Ascending(ps) && AtPositions(Survivors(items, dead), items, ps)
    ensures forall p :: 0 <= p < |items| ==> (p in ps <==> items[p].tid !in dead)
  {
    if items == [] {
      ps := [];
    } else {
      var n := |items| - 1;
      var part := Survivors(items[..n], dead);
      ps := SurvivorsAre(items[..n], dead);
      assert Survivors(items, dead) == if items[n].tid in dead then part else part + [items[n]];
      forall p | 0 <= p < n ensures p in ps <==> items[p].tid !in dead {
        assert items[..n][p] == items[p];
      }
      hide Survivors, Ascending, AtPositions;
      PositionsGrow(part, items, ps, n);
      if items[n].tid !in dead {
        ps := ps + [n];
      }
    }
  }

  lemma {:induction false} NoneSurvives(items: seq<Item>, dead: set<nat>)
    ensures Survivors(items, dead) == [] <==> forall i :: 0 <= i < |items| ==> items[i].tid in dead
  {
    if items != [] {
      var n := |items| - 1;
      NoneSurvives(items[..n], dead);
      assert forall i :: 0 <= i < n ==> items[..n][i] == items[i];
    }
  }

  predicate AllCondemned(items: seq<Item>, dead: set<nat>)
  {
    items != [] && forall i :: 0 <= i < |items| ==> items[i].tid in dead
  }

  /** Bulk deletion takes a page out of use exactly when it removes all its tuples, and
      there were some. */
  lemma EmptiedIff(p: Page, dead: set<nat>)
    requires Usable(p)
    ensures !Usable(Vacuumed(p, dead)) <==> AllCondemned(p.items, dead)
    ensures Usable(Vacuumed(p, dead)) ==> Vacuumed(p, dead).items == Survivors(p.items, dead)
  {
    hide Survivors;
    NoneSurvives(p.items, dead);
  }

  /** The two pointers of the compaction: itup reads, itupPtr writes. */
  method Slide(slots: array<Item>, itupEnd: nat, dead: set<nat>) returns (maxoff: nat, itupPtr: nat, removed: nat)
    requires itupEnd <= slots.Length
    modifies slots
    ensures maxoff == itupPtr <= itupEnd && slots[..itupPtr] == Survivors(old(slots[..itupEnd]), dead)
    ensures removed == itupEnd - itupPtr == |Doomed(old(slots[..itupEnd]), dead)|
  {
    ghost var was := slots[..itupEnd];
    var itup := 0;
    maxoff, itupPtr, removed := itupEnd, 0, 0;
    while itup < itupEnd
      invariant 0 <= itupPtr <= itup <= itupEnd
      invariant slots[..itupPtr] == Survivors(was[..itup], dead)
      invariant removed == itup - itupPtr && maxoff == itupEnd - removed
      invariant forall k :: itup <= k < itupEnd ==> slots[k] == was[k]
    {
      SurvivorsNext(was, itup, dead);
      if slots[itup].tid in dead {
        maxoff := maxoff - 1;
        removed := removed + 1;
      } else {
        if itupPtr != itup {
          slots[itupPtr] := slots[itup];
        }
        itupPtr := itupPtr + 1;
      }
      itup := itup + 1;
    }
    assert was[..itup] == was;
    CountSplit(was, dead);
  }

  lemma {:induction false} CountSplit(items: seq<Item>, dead: set<nat>)
    ensures |Survivors(items, dead)| + |Doomed(items, dead)| == |items|
  {
    if items != [] {
      CountSplit(items[..|items| - 1], dead);
    }
  }

  class PageBuffer {
    const size: nat
    const slots: array<Item>
    var isNew: bool
    var deleted: bool
    var maxoff: nat
    var lower: nat

    ghost predicate Valid()
      reads this
    {
      && IsLimit(slots.Length, size)
      && (!isNew ==> Within(maxoff, size) && lower == HEADER + Used(maxoff, size))
      && (!isNew && deleted ==> maxoff == 0)
    }

    ghost function View(): Page
      requires Valid()
      reads this, slots
    {
      if isNew then Fresh else UnderLimit(maxoff, slots.Length, size); Page(deleted, slots[..maxoff])
    }

    /** BloomInitPage for a data page. */
    method Init()
      requires Valid()
      modifies this
      ensures Valid() && View() == Page(false, [])
    {
      isNew, deleted, maxoff, lower := false, false, 0, HEADER;
    }

    /** BloomPageAddItem. */
    method AddItem(t: Item) returns (ok: bool)
      requires Valid() && Usable(View())
      modifies this, slots
      ensures Valid() && ok == HasRoom(|old(View()).items|, size)
      ensures View() == if ok then Page(false, old(View()).items + [t]) else old(View())
      ensures ok ==> lower <= 8192 - OPAQUE
    {
      RoomIsExact(maxoff, size);
      UnderLimit(maxoff, slots.Length, size);
      if FreeSpace(maxoff, size) < size {
        return false;
      }
      UnderLimit(maxoff + 1, slots.Length, size);
      slots[maxoff] := t;
      maxoff := maxoff + 1;
      lower := lower + size;
      ok := true;
    }

    /** The body of the page loop of blbulkdelete: survivors slide down over the
        removed tuples, the count and pd_lower follow, an emptied page is marked. */
    method Compact(dead: set<nat>) returns (removed: nat, listed: bool)
      requires Valid()
      modifies this, slots
      ensures Valid() && View() == Vacuumed(old(View()), dead)
      ensures removed == if Usable(old(View())) then |Doomed(old(View()).items, dead)| else 0
      ensures listed == Listed(View(), size)
      ensures Usable(old(View())) ==> (deleted <==> AllCondemned(old(View()).items, dead))
    {
      hide Within, Used, Survivors, Doomed, AllCondemned, FreeSpace;
      if Usable(View()) {
        EmptiedIff(View(), dead);
      }
      if isNew || deleted {
        return 0, false;
      }
      UnderLimit(maxoff, slots.Length, size);
      var itupEnd := maxoff;
      var itupPtr;
      maxoff, itupPtr, removed := Slide(slots, itupEnd, dead);
      Fewer(maxoff, itupEnd, size);
      listed := maxoff != 0 && FreeSpace(maxoff, size) >= size;
      if itupPtr != itupEnd {
        if maxoff == 0 {
          deleted := true;
        }
        lower := HEADER + itupPtr * size;
        UsedIsProduct(itupPtr, size);
      }
    }
  }
}
