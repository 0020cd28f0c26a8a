/** All the calls of the child walk for one parent level: when they end, and what they
    have found when none of them reports anything. */
module NbtreeCalls {
  import opened Optional
  import opened NbtreeKey
  import opened NbtreePage
  import opened NbtreeWalk
  import opened NbtreeChild
  import opened NbtreeParent

  // ------------------------------------------------------ one call on a chain

  function PlaceAt(pages: Pages, c: seq<nat>, i: nat): Place
    requires ChildChain(pages, c) && i <= |c|
  {
    Place(At(c, i), i == 0, SplitBefore(pages, c, i))
  }

  /** A call goes along the chain. */
  lemma {:induction false} PathOnChain(pages: Pages, c: seq<nat>, level: nat, i: nat, slot: Option<Slot>, d: seq<nat>, k: nat)
    requires ChildChain(pages, c) && i <= |c| && CallPath(pages, level, PlaceAt(pages, c, i), slot, d) && k < |d|
    ensures i + k <= |c| && d[k] == At(c, i + k)
  {
    if k > 0 {
      PathOnChain(pages, c, level, i, slot, d, k - 1);
      assert PassesBy(pages, level, PlaceAt(pages, c, i), slot, d, k - 1) && RightOf(pages, d, k);
      assert Follows(pages, c, i + k - 1);
    }
  }

  lemma PassIsVisit(pages: Pages, c: seq<nat>, level: nat, i: nat, slot: Option<Slot>, d: seq<nat>, k: nat)
    requires ChildChain(pages, c) && i <= |c| && k < |d| && i + k < |c|
    requires d[k] == c[i + k] && (k > 0 ==> d[k - 1] == c[i + k - 1]) && d[0] == At(c, i)
    ensures PassesBy(pages, level, PlaceAt(pages, c, i), slot, d, k) <==>
      !Met(slot, c[i + k]) && VisitGood(pages, c, level, i + k, false, CallKey(slot, false))
  {
  }

  /** What a finished call says about the rest of the chain. */
  lemma {:induction false} DoneFrom(pages: Pages, c: seq<nat>, level: nat, i: nat, slot: Option<Slot>, d: seq<nat>, k: nat)
    requires ChildChain(pages, c) && i <= |c| && CallDone(pages, level, PlaceAt(pages, c, i), slot, d) && k < |d|
    ensures i + |d| - 1 <= |c| && i + k <= |c|
    ensures CallEnd(pages, c, level, i + k, slot) == Some(if slot.Some? then i + |d| else |c|)
    decreases |d| - k
  {
    PathOnChain(pages, c, level, i, slot, d, k);
    PathOnChain(pages, c, level, i, slot, d, |d| - 1);
    if k > 0 {
      PathOnChain(pages, c, level, i, slot, d, k - 1);
    }
    if k < |d| - 1 {
      assert PassesBy(pages, level, PlaceAt(pages, c, i), slot, d, k);
      PassIsVisit(pages, c, level, i, slot, d, k);
      DoneFrom(pages, c, level, i, slot, d, k + 1);
    }
  }

  /** The blocks a call looks at when it starts at child i and child m, or the end of
      the level, is the last. */
  function Part(c: seq<nat>, i: nat, m: nat): (d: seq<nat>)
    requires i <= m <= |c|
    ensures |d| == m - i + 1 && forall k :: 0 <= k < |d| ==> d[k] == At(c, i + k)
  {
    seq<nat>(m - i + 1, k requires 0 <= k => At(c, i + k))
  }

  lemma {:induction false} PassedBefore(pages: Pages, c: seq<nat>, level: nat, i: nat, slot: Option<Slot>, x: nat)
    requires ChildChain(pages, c) && i <= |c| && CallEnd(pages, c, level, i, slot).Some?
    requires var e := CallEnd(pages, c, level, i, slot).value; i <= x < if slot.Some? then e - 1 else e
    ensures !Met(slot, c[x]) && VisitGood(pages, c, level, x, false, CallKey(slot, false))
    decreases |c| - i
  {
    if x > i {
      PassedBefore(pages, c, level, i + 1, slot, x);
    }
  }

  lemma {:induction false} MetAtEnd(pages: Pages, c: seq<nat>, level: nat, i: nat, slot: Slot)
    requires ChildChain(pages, c) && i <= |c| && CallEnd(pages, c, level, i, Some(slot)).Some?
    ensures var e := CallEnd(pages, c, level, i, Some(slot)).value;
      i < e && c[e - 1] == slot.down && VisitGood(pages, c, level, e - 1, true, slot.next)
    decreases |c| - i
  {
    if !Met(Some(slot), c[i]) {
      MetAtEnd(pages, c, level, i + 1, slot);
    }
  }

  lemma {:induction false} NoneAtEnd(pages: Pages, c: seq<nat>, level: nat, i: nat)
    requires ChildChain(pages, c) && i <= |c| && CallEnd(pages, c, level, i, None).Some?
    ensures CallEnd(pages, c, level, i, None).value == |c|
    decreases |c| - i
  {
    if i < |c| {
      NoneAtEnd(pages, c, level, i + 1);
    }
  }

  /** Conversely, where the chain has an end for a call the call finishes there. */
  lemma EndIsDone(pages: Pages, c: seq<nat>, level: nat, i: nat, slot: Option<Slot>) returns (d: seq<nat>)
    requires ChildChain(pages, c) && i <= |c| && CallEnd(pages, c, level, i, slot).Some?
    ensures CallDone(pages, level, PlaceAt(pages, c, i), slot, d)
  {
    var e := CallEnd(pages, c, level, i, slot).value;
    if slot.Some? {
      MetAtEnd(pages, c, level, i, slot.value);
    } else {
      NoneAtEnd(pages, c, level, i);
    }
    var m := if slot.Some? then e - 1 else e;
    d := Part(c, i, m);
    PartIsPath(pages, c, level, i, slot, m);
  }

  lemma PartIsPath(pages: Pages, c: seq<nat>, level: nat, i: nat, slot: Option<Slot>, m: nat)
    requires ChildChain(pages, c) && i <= m <= |c| && CallEnd(pages, c, level, i, slot).Some?
    requires m == if slot.Some? then CallEnd(pages, c, level, i, slot).value - 1 else CallEnd(pages, c, level, i, slot).value
    ensures CallPath(pages, level, PlaceAt(pages, c, i), slot, Part(c, i, m))
  {
    var d := Part(c, i, m);
    forall k | 0 <= k < |d| - 1 ensures PassesBy(pages, level, PlaceAt(pages, c, i), slot, d, k) {
      PassedBefore(pages, c, level, i, slot, i + k);
      PassIsVisit(pages, c, level, i, slot, d, k);
    }
    forall k | 0 < k < |d| ensures RightOf(pages, d, k) {
      assert Follows(pages, c, i + k - 1);
    }
  }

  // ------------------------------------------------------- the calls of a level

  function NextSlot(slots: seq<Slot>, k: nat): Option<Slot> { if k < |slots| then Some(slots[k]) else None }

  /** Where call k begins, after the calls before it have gone along ds. */
  function Begins(pages: Pages, slots: seq<Slot>, ds: seq<seq<nat>>, k: nat): Place
    requires |slots| > 0 && k <= |ds|
  {
    if k == 0 then Place(slots[0].down, true, false) else After(pages, ds[k - 1])
  }

  ghost predicate DoneAt(pages: Pages, level: nat, slots: seq<Slot>, ds: seq<seq<nat>>, k: nat)
    requires |slots| > 0 && k < |ds|
  {
    CallDone(pages, level, Begins(pages, slots, ds, k), NextSlot(slots, k), ds[k])
  }

  /** Calls that have all reported nothing. */
  ghost predicate Calls(pages: Pages, level: nat, slots: seq<Slot>, ds: seq<seq<nat>>)
    requires |slots| > 0
  {
    |ds| <= |slots| && forall k :: 0 <= k < |ds| ==> DoneAt(pages, level, slots, ds, k)
  }

  ghost predicate HangsAfter(pages: Pages, level: nat, slots: seq<Slot>, ds: seq<seq<nat>>)
    requires |slots| > 0
  {
    Calls(pages, level, slots, ds) && CallHangs(pages, level, Begins(pages, slots, ds, |ds|), NextSlot(slots, |ds|))
  }

  /** Some call of the level never ends. */
  ghost predicate LevelHangs(pages: Pages, level: nat, slots: seq<Slot>)
    requires |slots| > 0
  {
    exists ds :: HangsAfter(pages, level, slots, ds)
  }

  /** The children of the level lie on a chain, and the slots fit them. */
  ghost predicate Fits(pages: Pages, level: nat, slots: seq<Slot>, c: seq<nat>)
  {
    ChildChain(pages, c) && SlotsOK(slots, c) && Walk(pages, c, level, slots, 0, 0)
  }

  /** On a chain that fits, the calls so far stand at a child from which the rest fits. */
  lemma {:induction false} StandsOn(pages: Pages, level: nat, slots: seq<Slot>, ds: seq<seq<nat>>, c: seq<nat>, k: nat) returns (i: nat)
    requires SlotsFit(slots) && Calls(pages, level, slots, ds) && Fits(pages, level, slots, c) && k <= |ds|
    ensures i <= |c| && (k == 0 ==> i == 0) && Begins(pages, slots, ds, k) == PlaceAt(pages, c, i)
    ensures Walk(pages, c, level, slots, k, i)
  {
    hide ChildGood, PassesBy;
    if k == 0 {
      i := 0;
    } else {
      var j := StandsOn(pages, level, slots, ds, c, k - 1);
      assert DoneAt(pages, level, slots, ds, k - 1);
      var d, slot := ds[k - 1], Some(slots[k - 1]);
      DoneFrom(pages, c, level, j, slot, d, 0);
      PathOnChain(pages, c, level, j, slot, d, |d| - 1);
      CallIsWalk(pages, c, level, slots, k - 1, j);
      i := j + |d|;
      assert Follows(pages, c, i - 1);
    }
  }

  /** A call that cannot be done leaves no chain that fits. */
  lemma CallFails(pages: Pages, level: nat, slots: seq<Slot>, ds: seq<seq<nat>>)
    requires SlotsFit(slots) && Calls(pages, level, slots, ds)
    requires forall e :: !CallDone(pages, level, Begins(pages, slots, ds, |ds|), NextSlot(slots, |ds|), e)
    ensures forall c :: !Fits(pages, level, slots, c)
  {
    forall c ensures !Fits(pages, level, slots, c) {
      if Fits(pages, level, slots, c) {
        var d := NextIsDone(pages, level, slots, ds, c);
      }
    }
  }

  lemma NextIsDone(pages: Pages, level: nat, slots: seq<Slot>, ds: seq<seq<nat>>, c: seq<nat>) returns (d: seq<nat>)
    requires SlotsFit(slots) && Calls(pages, level, slots, ds) && Fits(pages, level, slots, c)
    ensures CallDone(pages, level, Begins(pages, slots, ds, |ds|), NextSlot(slots, |ds|), d)
  {
    var k := |ds|;
    var i := StandsOn(pages, level, slots, ds, c, k);
    if k < |slots| {
      CallIsWalk(pages, c, level, slots, k, i);
    } else {
      LastCallIsWalk(pages, c, level, slots, i);
    }
    d := EndIsDone(pages, c, level, i, NextSlot(slots, k));
  }

  // ------------------------------------------------------- all calls are done

  lemma {:induction false} SameFromHere(pages: Pages, c: seq<nat>, i: nat, j: nat, t: nat)
    requires RightPath(pages, c) && i < j && j + t < |c|
    ensures c[i] == c[j] ==> c[i + t] == c[j + t]
  {
    if t > 0 {
      SameFromHere(pages, c, i, j, t - 1);
      assert RightOf(pages, c, i + t) && RightOf(pages, c, j + t);
    }
  }

  /** Right links that come to an end have met no block twice. */
  lemma EndedIsDistinct(pages: Pages, c: seq<nat>)
    requires LoadedPath(pages, c) && c != [] && pages[c[|c| - 1]].next == NONE
    ensures Distinct(c)
  {
    forall i, j | 0 <= i < j < |c| ensures c[i] != c[j] {
      var t := |c| - 1 - j;
      SameFromHere(pages, c, i, j, t);
      assert RightOf(pages, c, i + t + 1) && Loads(pages, c[i + t + 1]);
    }
  }

  function Trail(ds: seq<seq<nat>>, m: nat): seq<nat>
    requires m <= |ds|
  {
    if m == 0 then [] else Trail(ds, m - 1) + ds[m - 1]
  }

  lemma {:induction false} TrailGrows(ds: seq<seq<nat>>, m: nat, n: nat)
    requires m <= n <= |ds|
    ensures Trail(ds, m) <= Trail(ds, n)
  {
    if m < n {
      TrailGrows(ds, m, n - 1);
    }
  }

  lemma DoneLoads(pages: Pages, level: nat, at: Place, slot: Option<Slot>, d: seq<nat>, i: nat)
    requires CallDone(pages, level, at, slot, d) && i < |d| && (slot.None? ==> i < |d| - 1)
    ensures Loads(pages, d[i])
  {
    if i < |d| - 1 {
      assert PassesBy(pages, level, at, slot, d, i);
    }
  }

  /** Blocks that load, joined by right links. */
  predicate LoadedPath(pages: Pages, c: seq<nat>) { RightPath(pages, c) && forall i :: 0 <= i < |c| ==> Loads(pages, c[i]) }

  lemma LinksJoin(pages: Pages, a: seq<nat>, b: seq<nat>)
    requires LoadedPath(pages, a) && LoadedPath(pages, b) && a != [] && b != [] && pages[a[|a| - 1]].next == b[0]
    ensures LoadedPath(pages, a + b)
  {
    PathsJoin(pages, a, b);
  }

  lemma {:induction false} TrailIsLinked(pages: Pages, level: nat, slots: seq<Slot>, ds: seq<seq<nat>>, m: nat)
    requires |slots| > 0 && Calls(pages, level, slots, ds) && 0 < m <= |ds|
    ensures var c, d := Trail(ds, m), ds[m - 1];
      LoadedPath(pages, c) && c != [] && c[0] == slots[0].down && d != [] && c[|c| - 1] == d[|d| - 1]
  {
    var d := ds[m - 1];
    assert DoneAt(pages, level, slots, ds, m - 1);
    forall i | 0 <= i < |d| ensures Loads(pages, d[i]) {
      DoneLoads(pages, level, Begins(pages, slots, ds, m - 1), NextSlot(slots, m - 1), d, i);
    }
    if m == 1 {
      assert Trail(ds, 1) == d;
    } else {
      TrailIsLinked(pages, level, slots, ds, m - 1);
      LinksJoin(pages, Trail(ds, m - 1), d);
    }
  }

  /** The calls of a whole level have gone along a chain. */
  lemma CallsMakeChain(pages: Pages, level: nat, slots: seq<Slot>, ds: seq<seq<nat>>, last: seq<nat>) returns (c: seq<nat>)
    requires |slots| > 0 && Calls(pages, level, slots, ds) && |ds| == |slots|
    requires CallDone(pages, level, Begins(pages, slots, ds, |ds|), None, last)
    ensures ChildChain(pages, c) && c[0] == slots[0].down && Trail(ds, |ds|) <= c
  {
    var a, m := Trail(ds, |ds|), |last| - 1;
    TrailIsLinked(pages, level, slots, ds, |ds|);
    PathCut(pages, last, m);
    c := a + last[..m];
    if m > 0 {
      forall i | 0 <= i < m ensures Loads(pages, last[..m][i]) {
        DoneLoads(pages, level, Begins(pages, slots, ds, |ds|), None, last, i);
      }
      LinksJoin(pages, a, last[..m]);
      assert RightOf(pages, last, m);
    } else {
      assert c == a;
    }
    LinkedIsChain(pages, c);
  }

  lemma LinkedIsChain(pages: Pages, c: seq<nat>)
    requires LoadedPath(pages, c) && c != [] && pages[c[|c| - 1]].next == NONE
    ensures ChildChain(pages, c)
  {
    EndedIsDistinct(pages, c);
    forall i | 0 <= i < |c| ensures Follows(pages, c, i) {
      assert i + 1 < |c| ==> RightOf(pages, c, i + 1);
    }
  }

  lemma TrailPlace(pages: Pages, level: nat, slots: seq<Slot>, ds: seq<seq<nat>>, c: seq<nat>, m: nat)
    requires |slots| > 0 && Calls(pages, level, slots, ds) && m <= |ds|
    requires ChildChain(pages, c) && c[0] == slots[0].down && Trail(ds, |ds|) <= c
    ensures |Trail(ds, m)| <= |c| && Begins(pages, slots, ds, m) == PlaceAt(pages, c, |Trail(ds, m)|)
  {
    TrailGrows(ds, m, |ds|);
    if m > 0 {
      TrailIsLinked(pages, level, slots, ds, m);
      assert Follows(pages, c, |Trail(ds, m)| - 1);
    }
  }

  lemma {:induction false} CallsWalk(pages: Pages, level: nat, slots: seq<Slot>, ds: seq<seq<nat>>, last: seq<nat>, c: seq<nat>, m: nat)
    requires SlotsFit(slots) && Calls(pages, level, slots, ds) && m <= |ds| == |slots|
    requires CallDone(pages, level, Begins(pages, slots, ds, |ds|), None, last)
    requires ChildChain(pages, c) && c[0] == slots[0].down && Trail(ds, |ds|) <= c
    ensures |Trail(ds, m)| <= |c| && Walk(pages, c, level, slots, m, |Trail(ds, m)|)
    decreases |ds| - m
  {
    hide Walk, PassesBy, ChildGood;
    var i := |Trail(ds, m)|;
    TrailPlace(pages, level, slots, ds, c, m);
    if m == |ds| {
      DoneFrom(pages, c, level, i, None, last, 0);
      LastCallIsWalk(pages, c, level, slots, i);
    } else {
      CallsWalk(pages, level, slots, ds, last, c, m + 1);
      assert DoneAt(pages, level, slots, ds, m);
      DoneFrom(pages, c, level, i, Some(slots[m]), ds[m], 0);
      CallIsWalk(pages, c, level, slots, m, i);
    }
  }

  /** All the calls for one parent level, the last one with no downlink. */
  method CheckChildLevel(pages: Pages, level: nat, slots: seq<Slot>) returns (ok: bool, ghost c: seq<nat>)
    requires SlotsFit(slots) && (forall k :: 0 <= k < |slots| ==> slots[k].down != NONE)
    requires !LevelHangs(pages, level, slots)
    ensures ok ==> Fits(pages, level, slots, c)
    ensures !ok ==> forall e :: !Fits(pages, level, slots, e)
  {
    hide CallHangs, CallDone;
    var w := new ChildWalk(pages, level);
    ghost var ds, d := [], [];
    c := [];
    var k := 0;
    while k < |slots|
      invariant 0 <= k <= |slots| && |ds| == k && Calls(pages, level, slots, ds)
      invariant w.pages == pages && w.level == level && (w.prevrightlink.None? <==> k == 0)
      invariant k > 0 ==> w.Here(None) == Begins(pages, slots, ds, k)
    {
      assert w.Here(Some(slots[k])) == Begins(pages, slots, ds, k);
      assert !HangsAfter(pages, level, slots, ds);
      ok, d := w.HighkeyCheck(Some(slots[k]));
      if !ok {
        CallFails(pages, level, slots, ds);
        return;
      }
      OneMore(pages, level, slots, ds, d);
      ds, k := ds + [d], k + 1;
    }
    assert !HangsAfter(pages, level, slots, ds);
    ok, d := w.HighkeyCheck(None);
    if !ok {
      CallFails(pages, level, slots, ds);
      return;
    }
    c := CallsMakeChain(pages, level, slots, ds, d);
    CallsWalk(pages, level, slots, ds, d, c, 0);
  }

  lemma OneMore(pages: Pages, level: nat, slots: seq<Slot>, ds: seq<seq<nat>>, d: seq<nat>)
    requires |slots| > 0 && Calls(pages, level, slots, ds) && |ds| < |slots|
    requires CallDone(pages, level, Begins(pages, slots, ds, |ds|), NextSlot(slots, |ds|), d)
    ensures Calls(pages, level, slots, ds + [d])
  {
    forall k | 0 <= k < |ds| + 1 ensures DoneAt(pages, level, slots, ds + [d], k) {
      if k < |ds| {
        assert DoneAt(pages, level, slots, ds, k);
      }
    }
  }

  // ----------------------------------------------------------------- when it ends

  /** The calls of a level never end exactly when, after some that report nothing, one
      goes round. */
  lemma LevelHangsIff(pages: Pages, level: nat, slots: seq<Slot>)
    requires |slots| > 0
    ensures LevelHangs(pages, level, slots) <==>
      exists ds, d, r :: Calls(pages, level, slots, ds) &&
        CallRing(pages, level, Begins(pages, slots, ds, |ds|), NextSlot(slots, |ds|), d, r)
  {
    hide CallHangs, CallRing, DoneAt;
    forall ds ensures CallHangs(pages, level, Begins(pages, slots, ds, |ds|), NextSlot(slots, |ds|)) <==>
      exists d, r :: CallRing(pages, level, Begins(pages, slots, ds, |ds|), NextSlot(slots, |ds|), d, r)
    {
      CallHangsIff(pages, level, Begins(pages, slots, ds, |ds|), NextSlot(slots, |ds|));
    }
    if LevelHangs(pages, level, slots) {
      var ds :| HangsAfter(pages, level, slots, ds);
      var d, r :| CallRing(pages, level, Begins(pages, slots, ds, |ds|), NextSlot(slots, |ds|), d, r);
    }
    if ds, d, r :| Calls(pages, level, slots, ds) && CallRing(pages, level, Begins(pages, slots, ds, |ds|), NextSlot(slots, |ds|), d, r) {
      assert HangsAfter(pages, level, slots, ds);
    }
  }

  /** On a finite chain every call ends. */
  lemma ChainEnds(pages: Pages, level: nat, slots: seq<Slot>, c: seq<nat>)
    requires ChildChain(pages, c) && |slots| > 0 && slots[0].down == c[0]
    ensures !LevelHangs(pages, level, slots)
  {
    forall ds ensures !HangsAfter(pages, level, slots, ds) {
      if Calls(pages, level, slots, ds) {
        var k := |ds|;
        var i := PlaceOnChain(pages, level, slots, ds, c, k);
        CallEnds(pages, c, level, i, NextSlot(slots, k));
      }
    }
  }

  lemma {:induction false} PlaceOnChain(pages: Pages, level: nat, slots: seq<Slot>, ds: seq<seq<nat>>, c: seq<nat>, k: nat) returns (i: nat)
    requires |slots| > 0 && Calls(pages, level, slots, ds) && ChildChain(pages, c) && slots[0].down == c[0] && k <= |ds|
    ensures i <= |c| && Begins(pages, slots, ds, k) == PlaceAt(pages, c, i)
  {
    i := 0;
    if k > 0 {
      var j := PlaceOnChain(pages, level, slots, ds, c, k - 1);
      assert DoneAt(pages, level, slots, ds, k - 1);
      var d, slot := ds[k - 1], NextSlot(slots, k - 1);
      PathOnChain(pages, c, level, j, slot, d, |d| - 1);
      DoneLoads(pages, level, Begins(pages, slots, ds, k - 1), slot, d, |d| - 1);
      i := j + |d|;
      assert Follows(pages, c, i - 1);
    }
  }

  lemma CallEnds(pages: Pages, c: seq<nat>, level: nat, i: nat, slot: Option<Slot>)
    requires ChildChain(pages, c) && i <= |c|
    ensures !CallHangs(pages, level, PlaceAt(pages, c, i), slot)
  {
    var at, k := PlaceAt(pages, c, i), |c| + 1;
    forall d ensures !(|d| == k + 1 && CallPath(pages, level, at, slot, d)) {
      if CallPath(pages, level, at, slot, d) {
        TooLong(pages, c, level, i, slot, d);
      }
    }
    assert !CallGoesOn(pages, level, at, slot, k);
  }

  lemma TooLong(pages: Pages, c: seq<nat>, level: nat, i: nat, slot: Option<Slot>, d: seq<nat>)
    requires ChildChain(pages, c) && i <= |c| && CallPath(pages, level, PlaceAt(pages, c, i), slot, d)
    ensures |d| <= |c| + 1
  {
    PathOnChain(pages, c, level, i, slot, d, |d| - 1);
  }

  /** Children whose splits were never completed, in a ring: no downlink is asked of the
      right half of such a split, and no high key is compared. */
  lemma SplitRing() returns (pages: Pages, slots: seq<Slot>)
    ensures SlotsFit(slots) && (forall k :: 0 <= k < |slots| ==> slots[k].down != NONE)
    ensures LevelHangs(pages, 1, slots)
  {
    var leaf := Page(true, 0, NONE, NONE, false, false, true, false, Tuple([0], []), NONE, []);
    pages := map[2 := leaf.(next := 3), 3 := leaf.(prev := 2, next := 4), 4 := leaf.(prev := 3, next := 5), 5 := leaf.(prev := 4, next := 4)];
    slots := [Slot(2, None, Some(Tuple([9], []))), Slot(7, Some(Tuple([9], [])), None)];
    assert LeftmostBut(pages, 2, [2]);
    var ds: seq<seq<nat>> := [[2]];
    assert DoneAt(pages, 1, slots, ds, 0);
    var d := [3, 4, 5, 4];
    forall i | 0 < i < |d| ensures RightOf(pages, d, i) {
    }
    var at := Begins(pages, slots, ds, 1);
    forall i | 0 <= i < |d| ensures PassesBy(pages, 1, at, NextSlot(slots, 1), d, i) {
    }
    assert CallRing(pages, 1, at, NextSlot(slots, 1), d, 1);
    LevelHangsIff(pages, 1, slots);
  }
}
