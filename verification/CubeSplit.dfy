/** Guttman's split of an overfull page of cubes.  How boxes are sized is a parameter:
    it guides placement and decides no property. */
module CubeSplit {
  import opened CubeBox

  predicate Ascending(s: seq<nat>) { forall i, j :: 0 <= i < j < |s| ==> s[i] < s[j] }

  /** Offsets run from 1 to n; each is on exactly one side. */
  ghost predicate Partition(left: seq<nat>, right: seq<nat>, n: nat)
  {
    && Ascending(left) && Ascending(right)
    && (forall o :: (o in left || o in right) <==> 0 < o <= n)
    && (forall o :: o in left ==> o !in right)
  }

  predicate CoversSide(key: Cube, entries: seq<Cube>, side: seq<nat>)
  {
    forall o :: o in side ==> 0 < o <= |entries| && Encloses(key, entries[o - 1])
  }

  /** No smaller box would do for the side: whatever encloses its members encloses the
      key. */
  ghost predicate Smallest(key: Cube, entries: seq<Cube>, side: seq<nat>)
  {
    forall k: Cube :: CoversSide(k, entries, side) ==> Encloses(k, key)
  }

  function Waste(entries: seq<Cube>, size: Cube -> real, inter: (Cube, Cube) -> Cube, i: nat, j: nat): real
    requires 0 < i <= |entries| && 0 < j <= |entries|
  {
    size(Union(entries[i - 1], entries[j - 1])) - size(inter(entries[i - 1], entries[j - 1]))
  }

  lemma WasteIs(entries: seq<Cube>, size: Cube -> real, inter: (Cube, Cube) -> Cube, i: nat, j: nat)
    requires 0 < i < j <= |entries|
    ensures Waste(entries, size, inter, i, j) ==
      size(Union(entries[i - 1], entries[j - 1])) - size(inter(entries[i - 1], entries[j - 1]))
  {
  }

  /** The pair of entries that would waste most space together, among all but the last. */
  method PickSeeds(entries: seq<Cube>, size: Cube -> real, inter: (Cube, Cube) -> Cube) returns (seed1: nat, seed2: nat)
    requires |entries| >= 2
    ensures 0 < seed1 < seed2 <= |entries|
    ensures forall i, j :: 0 < i < j < |entries| ==>
      Waste(entries, size, inter, i, j) <= Waste(entries, size, inter, seed1, seed2)
  {
    hide Waste;
    seed1, seed2 := 1, 2;
    var maxoff := |entries| - 1;
    var firsttime, waste := true, 0.0;
    var i := 1;
    while i < maxoff
      invariant 1 <= i && 0 < seed1 < seed2 <= |entries| && (i == 1 || !firsttime)
      invariant !firsttime ==> waste == Waste(entries, size, inter, seed1, seed2)
      invariant forall a, b :: 0 < a < i && a < b <= maxoff ==> Waste(entries, size, inter, a, b) <= waste
    {
      var j := i + 1;
      while j <= maxoff
        invariant i < j <= maxoff + 1 && 0 < seed1 < seed2 <= |entries| && (!firsttime || (i == 1 && j == 2))
        invariant !firsttime ==> waste == Waste(entries, size, inter, seed1, seed2)
        invariant forall a, b :: 0 < a < i && a < b <= maxoff ==> Waste(entries, size, inter, a, b) <= waste
        invariant forall b :: i < b < j ==> Waste(entries, size, inter, i, b) <= waste
      {
        var u := UnionV0(entries[i - 1], entries[j - 1], false);
        WasteIs(entries, size, inter, i, j);
        var sizeWaste := size(u) - size(inter(entries[i - 1], entries[j - 1]));
        if sizeWaste > waste || firsttime {
          waste, seed1, seed2, firsttime := sizeWaste, i, j, false;
        }
        j := j + 1;
      }
      i := i + 1;
    }
  }

  /** The next offset may go to either side. */
  lemma Place(left: seq<nat>, right: seq<nat>, n: nat)
    requires Partition(left, right, n)
    ensures Partition(left + [n + 1], right, n + 1) && Partition(left, right + [n + 1], n + 1)
  {
    forall i | 0 <= i < |left| ensures left[i] <= n {
      assert left[i] in left;
    }
    forall i | 0 <= i < |right| ensures right[i] <= n {
      assert right[i] in right;
    }
  }

  /** A side's key when offsets below o have been dealt: its seed and what it got. */
  function KeyBefore(entries: seq<Cube>, seed: nat, side: seq<nat>, o: nat): Cube
    requires 0 < seed <= |entries| && o <= |entries| + 1
  {
    if o <= 1 then entries[seed - 1]
    else
      var k := KeyBefore(entries, seed, side, o - 1);
      if o - 1 in side && o - 1 != seed then Union(k, entries[o - 2]) else k
  }

  function Growth(size: Cube -> real, key: Cube, e: Cube): real { size(Union(key, e)) - size(key) }

  /** Offset o went left exactly when that enlarged the left key less. */
  predicate LeastGrowth(entries: seq<Cube>, size: Cube -> real, seed1: nat, seed2: nat, left: seq<nat>, right: seq<nat>, o: nat)
    requires 0 < seed1 <= |entries| && 0 < seed2 <= |entries| && 0 < o <= |entries|
  {
    o in left <==> Growth(size, KeyBefore(entries, seed1, left, o), entries[o - 1])
                   < Growth(size, KeyBefore(entries, seed2, right, o), entries[o - 1])
  }

  /** Offsets below n that are no seeds went where they enlarge the key least. */
  predicate Greedy(entries: seq<Cube>, size: Cube -> real, seed1: nat, seed2: nat, left: seq<nat>, right: seq<nat>, n: nat)
    requires 0 < seed1 <= |entries| && 0 < seed2 <= |entries| && n <= |entries| + 1
  {
    forall o :: 0 < o < n && o != seed1 && o != seed2 ==> LeastGrowth(entries, size, seed1, seed2, left, right, o)
  }

  /** In the terms of sizes: what dealing an entry adds to the one key and to the other. */
  lemma DealtBySize(entries: seq<Cube>, size: Cube -> real, seed1: nat, seed2: nat, left: seq<nat>, right: seq<nat>, o: nat)
    requires 0 < seed1 <= |entries| && 0 < seed2 <= |entries| && 0 < o <= |entries| && o != seed1 && o != seed2
    requires Greedy(entries, size, seed1, seed2, left, right, |entries| + 1)
    ensures var e, l, r := entries[o - 1], KeyBefore(entries, seed1, left, o), KeyBefore(entries, seed2, right, o);
      o in left <==> size(Union(l, e)) - size(l) < size(Union(r, e)) - size(r)
  {
    assert LeastGrowth(entries, size, seed1, seed2, left, right, o);
  }

  lemma {:induction false} KeySame(entries: seq<Cube>, seed: nat, a: seq<nat>, b: seq<nat>, o: nat)
    requires 0 < seed <= |entries| && o <= |entries| + 1
    requires forall p :: 0 < p < o ==> (p in a <==> p in b)
    ensures KeyBefore(entries, seed, a, o) == KeyBefore(entries, seed, b, o)
  {
    if o > 1 {
      KeySame(entries, seed, a, b, o - 1);
    }
  }

  /** Dealing one more offset leaves the earlier choices as they were. */
  lemma GreedyNext(entries: seq<Cube>, size: Cube -> real, seed1: nat, seed2: nat,
      left: seq<nat>, right: seq<nat>, left': seq<nat>, right': seq<nat>, i: nat)
    requires 0 < seed1 <= |entries| && 0 < seed2 <= |entries| && 0 < i <= |entries|
    requires Greedy(entries, size, seed1, seed2, left, right, i)
    requires forall p :: p != i ==> (p in left <==> p in left') && (p in right <==> p in right')
    requires i != seed1 && i != seed2 ==> LeastGrowth(entries, size, seed1, seed2, left', right', i)
    ensures Greedy(entries, size, seed1, seed2, left', right', i + 1)
  {
    forall o | 0 < o < i && o != seed1 && o != seed2 ensures LeastGrowth(entries, size, seed1, seed2, left', right', o) {
      assert LeastGrowth(entries, size, seed1, seed2, left, right, o);
      KeySame(entries, seed1, left, left', o);
      KeySame(entries, seed2, right, right', o);
    }
  }

  /** g_cube_picksplit: each entry in turn goes to the side it enlarges least, seeds to
      their own. */
  method PickSplit(entries: seq<Cube>, size: Cube -> real, inter: (Cube, Cube) -> Cube)
    returns (left: seq<nat>, right: seq<nat>, l: Cube, r: Cube, ghost seed1: nat, ghost seed2: nat)
    requires |entries| >= 2
    ensures Partition(left, right, |entries|) && seed1 in left && seed2 in right
    ensures CoversSide(l, entries, left) && CoversSide(r, entries, right)
    ensures Smallest(l, entries, left) && Smallest(r, entries, right)
    ensures 0 < seed1 < seed2 <= |entries| && Greedy(entries, size, seed1, seed2, left, right, |entries| + 1)
    ensures forall i, j :: 0 < i < j < |entries| ==>
      Waste(entries, size, inter, i, j) <= Waste(entries, size, inter, seed1, seed2)
  {
    var s1, s2 := PickSeeds(entries, size, inter);
    seed1, seed2 := s1, s2;
    left, right, l, r := Distribute(entries, size, s1, s2);
    var n := |entries| + 1;
    SideCovered(entries, s1, left, n, l);
    SideSmallest(entries, s1, left, n, l);
    SideCovered(entries, s2, right, n, r);
    SideSmallest(entries, s2, right, n, r);
  }

  /** Where the second loop stands when offsets below i have been dealt. */
  ghost predicate Dealt(entries: seq<Cube>, size: Cube -> real, seed1: nat, seed2: nat,
      left: seq<nat>, right: seq<nat>, i: nat)
    requires 0 < seed1 <= |entries| && 0 < seed2 <= |entries|
  {
    && 1 <= i <= |entries| + 1 && Partition(left, right, i - 1)
    && (seed1 < i ==> seed1 in left) && (seed2 < i ==> seed2 in right)
    && Greedy(entries, size, seed1, seed2, left, right, i)
  }

  lemma DealLeft(entries: seq<Cube>, size: Cube -> real, seed1: nat, seed2: nat, left: seq<nat>, right: seq<nat>, i: nat)
    requires 0 < seed1 < seed2 <= |entries| && i <= |entries| && Dealt(entries, size, seed1, seed2, left, right, i)
    requires i != seed2
    requires i != seed1 ==> Growth(size, KeyBefore(entries, seed1, left, i), entries[i - 1])
                            < Growth(size, KeyBefore(entries, seed2, right, i), entries[i - 1])
    ensures Dealt(entries, size, seed1, seed2, left + [i], right, i + 1)
  {
    Place(left, right, i - 1);
    KeySame(entries, seed1, left, left + [i], i);
    GreedyNext(entries, size, seed1, seed2, left, right, left + [i], right, i);
  }

  lemma DealRight(entries: seq<Cube>, size: Cube -> real, seed1: nat, seed2: nat, left: seq<nat>, right: seq<nat>, i: nat)
    requires 0 < seed1 < seed2 <= |entries| && i <= |entries| && Dealt(entries, size, seed1, seed2, left, right, i)
    requires i != seed1
    requires i != seed2 ==> Growth(size, KeyBefore(entries, seed1, left, i), entries[i - 1])
                            >= Growth(size, KeyBefore(entries, seed2, right, i), entries[i - 1])
    ensures Dealt(entries, size, seed1, seed2, left, right + [i], i + 1)
  {
    Place(left, right, i - 1);
    KeySame(entries, seed2, right, right + [i], i);
    GreedyNext(entries, size, seed1, seed2, left, right, left, right + [i], i);
  }

  /** What dealing offset i does to the two keys. */
  lemma KeyNext(entries: seq<Cube>, seed: nat, side: seq<nat>, i: nat)
    requires 0 < seed <= |entries| && 0 < i <= |entries| && i !in side
    ensures var k := KeyBefore(entries, seed, side, i);
      && KeyBefore(entries, seed, side, i + 1) == k
      && KeyBefore(entries, seed, side + [i], i + 1) == if i == seed then k else Union(k, entries[i - 1])
  {
    KeySame(entries, seed, side, side + [i], i);
  }

  /** The second loop: every entry to a side, the keys growing along. */
  lemma NoneDealt(entries: seq<Cube>, size: Cube -> real, seed1: nat, seed2: nat)
    requires 0 < seed1 < seed2 <= |entries|
    ensures Dealt(entries, size, seed1, seed2, [], [], 1)
    ensures KeyBefore(entries, seed1, [], 1) == entries[seed1 - 1] && KeyBefore(entries, seed2, [], 1) == entries[seed2 - 1]
  {
  }

  lemma NotYetDealt(entries: seq<Cube>, size: Cube -> real, seed1: nat, seed2: nat, left: seq<nat>, right: seq<nat>, i: nat)
    requires 0 < seed1 <= |entries| && 0 < seed2 <= |entries| && Dealt(entries, size, seed1, seed2, left, right, i)
    ensures i !in left && i !in right
  {
  }

  method Distribute(entries: seq<Cube>, size: Cube -> real, seed1: nat, seed2: nat)
    returns (left: seq<nat>, right: seq<nat>, l: Cube, r: Cube)
    requires 0 < seed1 < seed2 <= |entries|
    ensures Dealt(entries, size, seed1, seed2, left, right, |entries| + 1)
    ensures l == KeyBefore(entries, seed1, left, |entries| + 1) && r == KeyBefore(entries, seed2, right, |entries| + 1)
  {
    hide Dealt, KeyBefore;
    left, right := [], [];
    l := UnionV0(entries[seed1 - 1], entries[seed1 - 1], true);
    r := UnionV0(entries[seed2 - 1], entries[seed2 - 1], true);
    NoneDealt(entries, size, seed1, seed2);
    var i := 1;
    while i <= |entries|
      invariant 1 <= i <= |entries| + 1 && Dealt(entries, size, seed1, seed2, left, right, i)
      invariant l == KeyBefore(entries, seed1, left, i) && r == KeyBefore(entries, seed2, right, i)
    {
      var goesLeft := GoesLeft(entries, size, seed1, seed2, l, r, i);
      NotYetDealt(entries, size, seed1, seed2, left, right, i);
      KeyNext(entries, seed1, left, i);
      KeyNext(entries, seed2, right, i);
      if goesLeft {
        DealLeft(entries, size, seed1, seed2, left, right, i);
        left := left + [i];
        l := Grown(l, entries, seed1, i);
      } else {
        DealRight(entries, size, seed1, seed2, left, right, i);
        right := right + [i];
        r := Grown(r, entries, seed2, i);
      }
      i := i + 1;
    }
  }

  method GoesLeft(entries: seq<Cube>, size: Cube -> real, seed1: nat, seed2: nat, l: Cube, r: Cube, i: nat)
    returns (b: bool)
    requires 0 < i <= |entries| && seed1 != seed2
    ensures b <==> i == seed1 || (i != seed2 && Growth(size, l, entries[i - 1]) < Growth(size, r, entries[i - 1]))
  {
    if i == seed1 {
      return true;
    }
    if i == seed2 {
      return false;
    }
    var dl := UnionV0(l, entries[i - 1], false);
    var dr := UnionV0(r, entries[i - 1], false);
    b := size(dl) - size(l) < size(dr) - size(r);
  }

  /** A side's key after it took offset i; its seed is in it already. */
  method Grown(key: Cube, entries: seq<Cube>, seed: nat, i: nat) returns (k: Cube)
    requires 0 < i <= |entries|
    ensures k == if i == seed then key else Union(key, entries[i - 1])
  {
    if i == seed {
      return key;
    }
    k := UnionV0(key, entries[i - 1], false);
  }

  /** The key a side ends with is the least box around its entries. */
  lemma SideCovered(entries: seq<Cube>, seed: nat, side: seq<nat>, n: nat, key: Cube)
    requires 0 < seed <= |entries| && n <= |entries| + 1 && forall o :: o in side ==> 0 < o < n
    requires key == KeyBefore(entries, seed, side, n)
    ensures CoversSide(key, entries, side)
  {
    forall o | o in side ensures 0 < o <= |entries| && Encloses(key, entries[o - 1]) {
      KeyEncloses(entries, seed, side, n, o);
    }
  }

  lemma SideSmallest(entries: seq<Cube>, seed: nat, side: seq<nat>, n: nat, key: Cube)
    requires 0 < seed <= |entries| && n <= |entries| + 1 && seed in side
    requires key == KeyBefore(entries, seed, side, n)
    ensures Smallest(key, entries, side)
  {
    forall k: Cube | CoversSide(k, entries, side) ensures Encloses(k, key) {
      KeyIsLeast(entries, seed, side, n, k);
    }
  }

  lemma {:induction false} KeyEncloses(entries: seq<Cube>, seed: nat, side: seq<nat>, n: nat, o: nat)
    requires 0 < seed <= |entries| && n <= |entries| + 1 && 0 < o <= |entries|
    requires o == seed || (o in side && o < n)
    ensures Encloses(KeyBefore(entries, seed, side, n), entries[o - 1])
  {
    EnclosesSelf(entries[o - 1]);
    if n > 1 {
      var k := KeyBefore(entries, seed, side, n - 1);
      if o == seed || o < n - 1 {
        KeyEncloses(entries, seed, side, n - 1, o);
      }
      UnionEncloses(k, entries[n - 2], entries[o - 1]);
    }
  }

  lemma {:induction false} KeyIsLeast(entries: seq<Cube>, seed: nat, side: seq<nat>, n: nat, k: Cube)
    requires 0 < seed <= |entries| && n <= |entries| + 1 && seed in side && CoversSide(k, entries, side)
    ensures Encloses(k, KeyBefore(entries, seed, side, n))
  {
    if n > 1 {
      KeyIsLeast(entries, seed, side, n - 1, k);
      if n - 1 in side && n - 1 != seed {
        UnionIsLeast(KeyBefore(entries, seed, side, n - 1), entries[n - 2], k);
      }
    }
  }
}
