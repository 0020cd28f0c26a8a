/** A whole parent level against its child level: every downlink in turn, through all
    parent pages, with the state of the child walk carried across. */
module NbtreeParent {
  import opened Optional
  import opened NbtreeKey
  import opened NbtreePage
  import opened NbtreeWalk
  import opened NbtreeLevel
  import opened NbtreeChild

  /** The downlinks of a page; low is the high key of the page on its left. */
  function PageSlots(p: Page, low: Option<Tuple>): (s: seq<Slot>)
    ensures |s| == |p.items|
  {
    seq(|p.items|, j requires 0 <= j < |p.items| => SlotOf(p, low, j))
  }

  function SlotOf(p: Page, low: Option<Tuple>, j: nat): Slot
    requires j < |p.items|
  {
    Slot(p.items[j].down,
         if j == 0 then low else Some(p.items[j].key),
         if j + 1 < |p.items| then Some(p.items[j + 1].key) else if Rightmost(p) then None else Some(p.hikey))
  }

  /** The slots of a level: each begins where the one before ends. */
  predicate SlotsFit(slots: seq<Slot>)
  {
    && |slots| > 0 && slots[0].own.None? && slots[|slots| - 1].next.None?
    && forall k :: 0 < k < |slots| ==> Joined(slots, k)
  }

  predicate SlotsOK(slots: seq<Slot>, c: seq<nat>) { SlotsFit(slots) && |c| > 0 && slots[0].down == c[0] }

  predicate Joined(slots: seq<Slot>, k: nat)
    requires 0 < k < |slots|
  {
    slots[k].own == slots[k - 1].next
  }

  // ---------------------------------------------------------- the child level

  /** The child level as its right links join it, from the first downlink on. */
  predicate ChildChain(pages: Pages, c: seq<nat>)
  {
    && |c| > 0 && Distinct(c) && (forall i :: 0 <= i < |c| ==> Loads(pages, c[i]))
    && (forall i :: 0 <= i < |c| ==> Follows(pages, c, i))
  }

  predicate Follows(pages: Pages, c: seq<nat>, i: nat)
    requires i < |c|
  {
    c[i] in pages && pages[c[i]].next == At(c, i + 1)
  }

  function At(c: seq<nat>, i: nat): nat { if i < |c| then c[i] else NONE }

  predicate SplitBefore(pages: Pages, c: seq<nat>, i: nat)
    requires ChildChain(pages, c) && i <= |c|
  {
    i > 0 && pages[c[i - 1]].incomplete
  }

  /** What must hold of child i, met through a downlink or only passed. */
  ghost predicate VisitGood(pages: Pages, c: seq<nat>, level: nat, i: nat, met: bool, key: Option<Tuple>)
    requires ChildChain(pages, c) && i < |c|
  {
    ChildGood(pages, level, c[i], i == 0, SplitBefore(pages, c, i), met, key)
  }

  /** Where a call that starts at child i ends, if it reports nothing. */
  ghost function CallEnd(pages: Pages, c: seq<nat>, level: nat, i: nat, slot: Option<Slot>): (e: Option<nat>)
    requires ChildChain(pages, c) && i <= |c|
    ensures e.Some? ==> i <= e.value <= |c|
    decreases |c| - i
  {
    if i == |c| then (if slot.None? then Some(i) else None)
    else
      var met := Met(slot, c[i]);
      if !VisitGood(pages, c, level, i, met, CallKey(slot, met)) then None
      else if met then Some(i + 1)
      else CallEnd(pages, c, level, i + 1, slot)
  }

  // ------------------------------------------------- two pointers, recursively

  function KeyAfter(slots: seq<Slot>, k: nat, met: bool): Option<Tuple>
    requires k <= |slots| && (met ==> k < |slots|)
  {
    if met then slots[k].next else if k == 0 then None else slots[k - 1].next
  }

  /** From child i on, with k downlinks met: the children are visited one by one, and
      the next downlink is met when its child comes up. */
  ghost predicate Walk(pages: Pages, c: seq<nat>, level: nat, slots: seq<Slot>, k: nat, i: nat)
    requires ChildChain(pages, c) && k <= |slots| && i <= |c|
    decreases |c| - i
  {
    if i == |c| then k == |slots|
    else
      var met := k < |slots| && slots[k].down == c[i];
      && VisitGood(pages, c, level, i, met, KeyAfter(slots, k, met))
      && Walk(pages, c, level, slots, if met then k + 1 else k, i + 1)
  }

  lemma {:induction false} CallIsWalk(pages: Pages, c: seq<nat>, level: nat, slots: seq<Slot>, k: nat, i: nat)
    requires ChildChain(pages, c) && SlotsOK(slots, c) && k < |slots| && i <= |c| && (k == 0 ==> i == 0)
    ensures Walk(pages, c, level, slots, k, i) <==>
      var e := CallEnd(pages, c, level, i, Some(slots[k]));
      e.Some? && Walk(pages, c, level, slots, k + 1, e.value)
    decreases |c| - i
  {
    if i < |c| {
      assert k > 0 ==> Joined(slots, k);
      if slots[k].down != c[i] {
        CallIsWalk(pages, c, level, slots, k, i + 1);
      }
    }
  }

  lemma {:induction false} LastCallIsWalk(pages: Pages, c: seq<nat>, level: nat, slots: seq<Slot>, i: nat)
    requires ChildChain(pages, c) && SlotsOK(slots, c) && i <= |c|
    ensures Walk(pages, c, level, slots, |slots|, i) <==> CallEnd(pages, c, level, i, None).Some?
    decreases |c| - i
  {
    if i < |c| {
      LastCallIsWalk(pages, c, level, slots, i + 1);
    }
  }

  // ------------------------------------------------------------- what it means

  /** Every downlink is met, in order; every child met or passed is in order. */
  ghost predicate Covers(pages: Pages, c: seq<nat>, level: nat, slots: seq<Slot>, es: seq<nat>, k: nat, i: nat)
    requires ChildChain(pages, c) && k <= |slots| && i <= |c|
  {
    && |es| == k && (k > 0 ==> es[0] == 0)
    && (forall m :: 0 <= m < k ==> MetAt(pages, c, level, slots, es, m, i))
    && (forall m: nat, x: nat :: Gap(es, i, m, x) ==> PassedOver(pages, c, level, slots, m, x))
  }

  /** Child x lies after downlink m and before the next one, or before i. */
  predicate Gap(es: seq<nat>, i: nat, m: nat, x: nat)
  {
    m < |es| && es[m] < x < if m + 1 < |es| then es[m + 1] else i
  }

  ghost predicate MetAt(pages: Pages, c: seq<nat>, level: nat, slots: seq<Slot>, es: seq<nat>, m: nat, i: nat)
    requires ChildChain(pages, c) && m < |es| && m < |slots| && i <= |c|
  {
    && es[m] < i && c[es[m]] == slots[m].down && (m > 0 ==> es[m - 1] < es[m])
    && VisitGood(pages, c, level, es[m], true, slots[m].next)
  }

  ghost predicate PassedOver(pages: Pages, c: seq<nat>, level: nat, slots: seq<Slot>, m: nat, x: nat)
    requires ChildChain(pages, c) && m < |slots|
  {
    x < |c| ==> VisitGood(pages, c, level, x, false, slots[m].next)
  }

  lemma CoverMeet(pages: Pages, c: seq<nat>, level: nat, slots: seq<Slot>, es: seq<nat>, k: nat, i: nat)
    requires ChildChain(pages, c) && k < |slots| && i < |c| && Covers(pages, c, level, slots, es, k, i)
    requires (k == 0 ==> i == 0) && slots[k].down == c[i] && VisitGood(pages, c, level, i, true, slots[k].next)
    ensures Covers(pages, c, level, slots, es + [i], k + 1, i + 1)
  {
    var es', j := es + [i], i + 1;
    forall m | 0 <= m < k + 1 ensures MetAt(pages, c, level, slots, es', m, j) {
      if m < k {
        assert MetAt(pages, c, level, slots, es, m, i);
      }
      if m > 0 {
        assert MetAt(pages, c, level, slots, es, m - 1, i);
      }
    }
    forall m: nat, x: nat | Gap(es', j, m, x) ensures m < k && PassedOver(pages, c, level, slots, m, x) {
      assert Gap(es, i, m, x);
    }
  }

  lemma CoverPass(pages: Pages, c: seq<nat>, level: nat, slots: seq<Slot>, es: seq<nat>, k: nat, i: nat)
    requires ChildChain(pages, c) && 0 < k <= |slots| && i < |c| && Covers(pages, c, level, slots, es, k, i)
    requires VisitGood(pages, c, level, i, false, slots[k - 1].next)
    ensures Covers(pages, c, level, slots, es, k, i + 1)
  {
    var j := i + 1;
    forall m | 0 <= m < k ensures MetAt(pages, c, level, slots, es, m, j) {
      assert MetAt(pages, c, level, slots, es, m, i);
    }
    forall m: nat, x: nat | Gap(es, j, m, x) ensures PassedOver(pages, c, level, slots, m, x) {
      if m + 1 < k || x < i {
        assert Gap(es, i, m, x);
      }
    }
  }

  lemma {:induction false} WalkCovers(pages: Pages, c: seq<nat>, level: nat, slots: seq<Slot>, es: seq<nat>, k: nat, i: nat)
    returns (all: seq<nat>)
    requires ChildChain(pages, c) && SlotsOK(slots, c) && k <= |slots| && i <= |c| && (k == 0 ==> i == 0)
    requires Walk(pages, c, level, slots, k, i) && Covers(pages, c, level, slots, es, k, i)
    ensures Covers(pages, c, level, slots, all, |slots|, |c|)
    decreases |c| - i
  {
    if i == |c| {
      all := es;
    } else if k < |slots| && slots[k].down == c[i] {
      CoverMeet(pages, c, level, slots, es, k, i);
      all := WalkCovers(pages, c, level, slots, es + [i], k + 1, i + 1);
    } else {
      CoverPass(pages, c, level, slots, es, k, i);
      all := WalkCovers(pages, c, level, slots, es, k, i + 1);
    }
  }

  lemma {:induction false} CoversWalk(pages: Pages, c: seq<nat>, level: nat, slots: seq<Slot>, all: seq<nat>, k: nat, i: nat)
    requires ChildChain(pages, c) && SlotsOK(slots, c) && k <= |slots| && i <= |c|
    requires Covers(pages, c, level, slots, all, |slots|, |c|)
    requires (k < |slots| ==> i <= all[k]) && (if k > 0 then all[k - 1] < i else i == 0)
    ensures Walk(pages, c, level, slots, k, i)
    decreases |c| - i
  {
    if k < |slots| {
      assert MetAt(pages, c, level, slots, all, k, |c|);
    }
    if i < |c| {
      if k < |slots| && all[k] == i {
        if k + 1 < |slots| {
          assert MetAt(pages, c, level, slots, all, k + 1, |c|);
        }
        CoversWalk(pages, c, level, slots, all, k + 1, i + 1);
      } else {
        assert Gap(all, |c|, k - 1, i) && PassedOver(pages, c, level, slots, k - 1, i);
        assert k < |slots| ==> slots[k].down != c[i];
        CoversWalk(pages, c, level, slots, all, k, i + 1);
      }
    }
  }

  /** The calls report nothing exactly when the child chain is covered: each downlink
      meets its child, in order, and each child passed over is ignorable, the right
      half of an incomplete split, or the top of an interrupted deletion. */
  lemma ChildLevelCovered(pages: Pages, c: seq<nat>, level: nat, slots: seq<Slot>)
    requires ChildChain(pages, c) && SlotsOK(slots, c)
    ensures Walk(pages, c, level, slots, 0, 0) <==> exists es :: Covers(pages, c, level, slots, es, |slots|, |c|)
  {
    if Walk(pages, c, level, slots, 0, 0) {
      var all := WalkCovers(pages, c, level, slots, [], 0, 0);
    }
    forall es | Covers(pages, c, level, slots, es, |slots|, |c|) ensures Walk(pages, c, level, slots, 0, 0) {
      CoversWalk(pages, c, level, slots, es, 0, 0);
    }
  }

  // --------------------------------------------------- slots of a whole level

  function LowKey(pages: Pages, a: seq<nat>, m: nat): Option<Tuple>
    requires m < |a| && forall i :: 0 <= i < |a| ==> a[i] in pages
  {
    if m == 0 then None else Some(pages[a[m - 1]].hikey)
  }

  /** The downlinks of the first m parent pages, left to right. */
  function LevelSlots(pages: Pages, a: seq<nat>, m: nat): seq<Slot>
    requires m <= |a| && forall i :: 0 <= i < |a| ==> a[i] in pages
  {
    if m == 0 then [] else LevelSlots(pages, a, m - 1) + PageSlots(pages[a[m - 1]], LowKey(pages, a, m - 1))
  }

  /** What holds of the slots so far: each is joined to the one before, and the last
      one ends at the last page's high key. */
  ghost predicate SlotsSoFar(slots: seq<Slot>, first: nat, end: Option<Tuple>)
  {
    && |slots| > 0 && slots[0].down == first && slots[0].own.None? && slots[|slots| - 1].next == end
    && forall k :: 0 < k < |slots| ==> Joined(slots, k)
  }

  lemma SlotsJoin(a: seq<Slot>, b: seq<Slot>, first: nat, mid: Option<Tuple>)
    requires SlotsSoFar(a, first, mid) && |b| > 0 && b[0].own == mid && forall k :: 0 < k < |b| ==> Joined(b, k)
    ensures SlotsSoFar(a + b, first, b[|b| - 1].next)
  {
    var s := a + b;
    forall k | 0 < k < |s| ensures Joined(s, k) {
      if k < |a| {
        assert Joined(a, k);
      } else if k > |a| {
        assert Joined(b, k - |a|);
      }
    }
  }

  lemma PageSlotsJoined(p: Page, low: Option<Tuple>)
    requires p.items != []
    ensures var s := PageSlots(p, low);
      && s[0] == SlotOf(p, low, 0) && s[0].own == low && s[|s| - 1].next == (if Rightmost(p) then None else Some(p.hikey))
      && forall k :: 0 < k < |s| ==> Joined(s, k)
  {
  }

  /** No block of the level is half-dead. */
  predicate AllLive(pages: Pages, a: seq<nat>)
  {
    forall i :: 0 <= i < |a| ==> a[i] in pages && !pages[a[i]].halfDead
  }

  /** Blocks with downlinks, each but the last with a right sibling. */
  predicate Linked(pages: Pages, a: seq<nat>)
  {
    forall i :: 0 <= i < |a| ==> a[i] in pages && pages[a[i]].items != [] && (i + 1 < |a| ==> !Rightmost(pages[a[i]]))
  }

  lemma {:induction false} LinkedSlotsJoined(pages: Pages, a: seq<nat>, m: nat)
    requires Linked(pages, a) && 0 < m <= |a|
    ensures var p := pages[a[m - 1]];
      SlotsSoFar(LevelSlots(pages, a, m), pages[a[0]].items[0].down, if Rightmost(p) then None else Some(p.hikey))
  {
    var p, low := pages[a[m - 1]], LowKey(pages, a, m - 1);
    PageSlotsJoined(p, low);
    if m > 1 {
      hide SlotsSoFar, PageSlots;
      LinkedSlotsJoined(pages, a, m - 1);
      assert !Rightmost(pages[a[m - 2]]) && low == Some(pages[a[m - 2]].hikey);
      SlotsJoin(LevelSlots(pages, a, m - 1), PageSlots(p, low), pages[a[0]].items[0].down, low);
    } else {
      assert LevelSlots(pages, a, 1) == PageSlots(p, None);
    }
  }

  lemma LevelIsLinked(pages: Pages, leftmost: nat, level: nat, trueRoot: bool, n: nat, a: seq<nat>)
    requires Prefix(pages, leftmost, level, trueRoot, n, a) && level > 0 && AllLive(pages, a)
    ensures Linked(pages, a)
  {
    forall i | 0 <= i < |a|
      ensures a[i] in pages && pages[a[i]].items != [] && (i + 1 < |a| ==> !Rightmost(pages[a[i]]))
    {
      PrefixLoads(pages, leftmost, level, trueRoot, n, a, i);
      var _ := LiveIsGood(pages, leftmost, level, trueRoot, n, a, i);
    }
  }

  /** Along an accepted internal level, neighbouring downlinks share the pivot between
      them, across page boundaries too. */
  lemma LevelSlotsJoined(pages: Pages, leftmost: nat, level: nat, trueRoot: bool, n: nat, a: seq<nat>, m: nat)
    requires Prefix(pages, leftmost, level, trueRoot, n, a) && level > 0 && AllLive(pages, a) && 0 < m <= |a|
    ensures var p := pages[a[m - 1]];
      && leftmost in pages && pages[leftmost].items != []
      && SlotsSoFar(LevelSlots(pages, a, m), pages[leftmost].items[0].down, if Rightmost(p) then None else Some(p.hikey))
  {
    hide SlotsSoFar, Passed;
    LevelIsLinked(pages, leftmost, level, trueRoot, n, a);
    LinkedSlotsJoined(pages, a, m);
  }

  /** A level that its own walk accepts is a child chain. */
  lemma LevelIsChain(pages: Pages, leftmost: nat, level: nat, n: nat, c: seq<nat>)
    requires Level(pages, leftmost, level, false, n, c)
    ensures ChildChain(pages, c)
  {
    WalkIsBounded(pages, leftmost, level, false, n, c);
    forall i | 0 <= i < |c| ensures Loads(pages, c[i]) && Follows(pages, c, i) {
      PrefixLoads(pages, leftmost, level, false, n, c, i);
    }
  }

  /** So the downlinks of an accepted level fit its child level. */
  lemma LevelSlotsOK(pages: Pages, leftmost: nat, level: nat, trueRoot: bool, n: nat, a: seq<nat>, c: seq<nat>)
    requires Level(pages, leftmost, level, trueRoot, n, a) && level > 0 && AllLive(pages, a)
    requires pages[leftmost].items != [] && Level(pages, pages[leftmost].items[0].down, level - 1, false, n, c)
    ensures ChildChain(pages, c) && SlotsOK(LevelSlots(pages, a, |a|), c)
  {
    hide Passed;
    LevelSlotsJoined(pages, leftmost, level, trueRoot, n, a, |a|);
    LevelIsChain(pages, pages[leftmost].items[0].down, level - 1, n, c);
  }
}
