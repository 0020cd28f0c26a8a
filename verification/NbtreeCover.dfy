/** What a parent level and its child level look like when the child walk has nothing to
    report, said page by page. */
module NbtreeCover {
  import opened Optional
  import opened NbtreePage
  import opened NbtreeWalk
  import opened NbtreeChild
  import opened NbtreeParent

  // ------------------------------------------------- interrupted deletions

  /** First downlinks from an internal page on, one level down each, to a half-dead leaf
      that names top. */
  predicate DeletionPath(pages: Pages, top: nat, ps: seq<nat>)
  {
    && |ps| > 1 && (forall i :: 0 <= i < |ps| ==> Loads(pages, ps[i]))
    && (forall i :: 0 < i < |ps| ==> FirstChild(pages, ps, i))
    && (forall i :: 0 < i < |ps| - 1 ==> !pages[ps[i]].leaf && pages[ps[i]].level + 1 == pages[ps[i - 1]].level)
    && var leaf := pages[ps[|ps| - 1]];
       leaf.leaf && leaf.halfDead && !leaf.deleted && leaf.next != 0 && leaf.topParent == top
  }

  predicate FirstChild(pages: Pages, ps: seq<nat>, i: nat)
    requires 0 < i < |ps|
  {
    ps[i - 1] in pages && !pages[ps[i - 1]].leaf && pages[ps[i - 1]].items != [] && pages[ps[i - 1]].items[0].down == ps[i]
  }

  lemma {:induction false} ChainHasPath(pages: Pages, top: nat, blk: nat) returns (ps: seq<nat>)
    requires Loads(pages, blk) && DeletionChain(pages, top, blk)
    ensures DeletionPath(pages, top, ps) && ps[0] == blk
    decreases pages[blk].level
  {
    var child := pages[blk].items[0].down;
    if pages[child].leaf {
      ps := [blk, child];
    } else {
      var rest := ChainHasPath(pages, top, child);
      ps := [blk] + rest;
      forall i | 0 < i < |ps| ensures FirstChild(pages, ps, i) {
        assert i > 1 ==> FirstChild(pages, rest, i - 1);
      }
    }
  }

  lemma {:induction false} PathIsChain(pages: Pages, top: nat, ps: seq<nat>)
    requires DeletionPath(pages, top, ps)
    ensures DeletionChain(pages, top, ps[0])
    decreases |ps|
  {
    assert FirstChild(pages, ps, 1);
    if |ps| > 2 {
      var rest := ps[1..];
      forall i | 0 < i < |rest| ensures FirstChild(pages, rest, i) {
        assert FirstChild(pages, ps, i + 1);
      }
      forall i | 0 < i < |rest| - 1 ensures !pages[rest[i]].leaf && pages[rest[i]].level + 1 == pages[rest[i - 1]].level {
        assert rest[i] == ps[i + 1] && rest[i - 1] == ps[i];
      }
      PathIsChain(pages, top, rest);
      assert !pages[ps[1]].leaf;
    }
  }

  /** A page without downlink is excused exactly as a root, as the right half of an
      unfinished split, or as the top of an interrupted deletion. */
  lemma ExcusedIff(pages: Pages, split: bool, blk: nat)
    requires Loads(pages, blk)
    ensures MissingGood(pages, split, blk) <==>
      pages[blk].root || split || exists ps :: DeletionPath(pages, blk, ps) && ps[0] == blk
  {
    if DeletionChain(pages, blk, blk) {
      var ps := ChainHasPath(pages, blk, blk);
    }
    if ps :| DeletionPath(pages, blk, ps) && ps[0] == blk {
      PathIsChain(pages, blk, ps);
    }
  }

  // ------------------------------------------------------- child by child

  /** Downlink m is the last at or before child i. */
  predicate Under(es: seq<nat>, m: nat, i: nat) { m < |es| && es[m] <= i && (m + 1 < |es| ==> i < es[m + 1]) }

  /** Child i, where es says which children the downlinks meet. */
  ghost predicate ChildStands(pages: Pages, level: nat, slots: seq<Slot>, c: seq<nat>, es: seq<nat>, i: nat)
    requires ChildChain(pages, c) && i < |c|
  {
    var p := pages[c[i]];
    && (!p.deleted ==> p.level + 1 == level) && p.prev != c[i] && (i == 0 ==> LeftmostOK(pages, c[0]))
    && (i !in es && !p.deleted && !p.halfDead ==>
          p.root || (i > 0 && pages[c[i - 1]].incomplete) || exists ps :: DeletionPath(pages, c[i], ps) && ps[0] == c[i])
    && (!p.incomplete && p.next != 0 && !p.halfDead ==>
          exists m: nat :: Under(es, m, i) && m < |slots| && slots[m].next == Some(p.hikey))
  }

  /** The downlinks meet children in order, the first one the first. */
  predicate Meetings(slots: seq<Slot>, c: seq<nat>, es: seq<nat>)
  {
    && |es| == |slots| && |es| > 0 && es[0] == 0 && (forall a, b :: 0 <= a < b < |es| ==> es[a] < es[b])
    && forall m :: 0 <= m < |es| ==> es[m] < |c| && c[es[m]] == slots[m].down
  }

  ghost predicate Stands(pages: Pages, level: nat, slots: seq<Slot>, c: seq<nat>, es: seq<nat>)
    requires ChildChain(pages, c)
  {
    Meetings(slots, c, es) && forall i :: 0 <= i < |c| ==> ChildStands(pages, level, slots, c, es, i)
  }

  lemma {:induction false} LastBefore(es: seq<nat>, i: nat, k: nat) returns (m: nat)
    requires 0 < k <= |es| && es[0] <= i && (k < |es| ==> i < es[k])
    ensures Under(es, m, i)
    decreases k
  {
    if es[k - 1] <= i {
      m := k - 1;
    } else {
      m := LastBefore(es, i, k - 1);
    }
  }

  lemma {:induction false} MetAscend(pages: Pages, c: seq<nat>, level: nat, slots: seq<Slot>, es: seq<nat>, a: nat, b: nat)
    requires ChildChain(pages, c) && Covers(pages, c, level, slots, es, |slots|, |c|) && a < b < |es|
    ensures es[a] < es[b]
    decreases b
  {
    assert MetAt(pages, c, level, slots, es, b, |c|);
    if a + 1 < b {
      MetAscend(pages, c, level, slots, es, a, b - 1);
    }
  }

  lemma CoversMeet(pages: Pages, c: seq<nat>, level: nat, slots: seq<Slot>, es: seq<nat>)
    requires ChildChain(pages, c) && SlotsOK(slots, c) && Covers(pages, c, level, slots, es, |slots|, |c|)
    ensures Meetings(slots, c, es)
  {
    forall a, b | 0 <= a < b < |es| ensures es[a] < es[b] {
      MetAscend(pages, c, level, slots, es, a, b);
    }
    forall m | 0 <= m < |es| ensures es[m] < |c| && c[es[m]] == slots[m].down {
      assert MetAt(pages, c, level, slots, es, m, |c|);
    }
  }

  lemma VisitIsStanding(pages: Pages, level: nat, slots: seq<Slot>, c: seq<nat>, es: seq<nat>, i: nat, m: nat)
    requires ChildChain(pages, c) && i < |c| && Meetings(slots, c, es) && Under(es, m, i)
    ensures VisitGood(pages, c, level, i, i in es, slots[m].next) <==> ChildStands(pages, level, slots, c, es, i)
  {
    ExcusedIff(pages, SplitBefore(pages, c, i), c[i]);
    forall k: nat | Under(es, k, i) ensures k == m {
    }
  }

  lemma MetIs(es: seq<nat>, m: nat, i: nat)
    requires Under(es, m, i) && forall a, b :: 0 <= a < b < |es| ==> es[a] < es[b]
    ensures i in es <==> es[m] == i
  {
  }

  lemma CoversStand(pages: Pages, c: seq<nat>, level: nat, slots: seq<Slot>, es: seq<nat>, i: nat)
    requires ChildChain(pages, c) && SlotsOK(slots, c) && Covers(pages, c, level, slots, es, |slots|, |c|) && i < |c|
    ensures ChildStands(pages, level, slots, c, es, i)
  {
    CoversMeet(pages, c, level, slots, es);
    var m := LastBefore(es, i, |es|);
    MetIs(es, m, i);
    VisitIsStanding(pages, level, slots, c, es, i, m);
    if es[m] == i {
      assert MetAt(pages, c, level, slots, es, m, |c|);
    } else {
      assert Gap(es, |c|, m, i);
      assert PassedOver(pages, c, level, slots, m, i);
    }
  }

  lemma StandCovers(pages: Pages, c: seq<nat>, level: nat, slots: seq<Slot>, es: seq<nat>)
    requires ChildChain(pages, c) && SlotsOK(slots, c) && Stands(pages, level, slots, c, es)
    ensures Covers(pages, c, level, slots, es, |slots|, |c|)
  {
    forall m | 0 <= m < |slots| ensures MetAt(pages, c, level, slots, es, m, |c|) {
      assert Under(es, m, es[m]) && ChildStands(pages, level, slots, c, es, es[m]);
      VisitIsStanding(pages, level, slots, c, es, es[m], m);
      assert es[m] in es;
    }
    forall m: nat, x: nat | Gap(es, |c|, m, x) ensures PassedOver(pages, c, level, slots, m, x) {
      if x < |c| {
        MetIs(es, m, x);
        assert ChildStands(pages, level, slots, c, es, x);
        VisitIsStanding(pages, level, slots, c, es, x, m);
      }
    }
  }

  /** The walk over a child level succeeds exactly when downlinks meet children in order
      and every child stands. */
  lemma WalkIff(pages: Pages, c: seq<nat>, level: nat, slots: seq<Slot>)
    requires ChildChain(pages, c) && SlotsOK(slots, c)
    ensures Walk(pages, c, level, slots, 0, 0) <==> exists es :: Stands(pages, level, slots, c, es)
  {
    hide ChildStands, VisitGood, Walk;
    ChildLevelCovered(pages, c, level, slots);
    if es :| Covers(pages, c, level, slots, es, |slots|, |c|) {
      CoversMeet(pages, c, level, slots, es);
      forall i | 0 <= i < |c| ensures ChildStands(pages, level, slots, c, es, i) {
        CoversStand(pages, c, level, slots, es, i);
      }
      assert Stands(pages, level, slots, c, es);
    }
    if es :| Stands(pages, level, slots, c, es) {
      StandCovers(pages, c, level, slots, es);
    }
  }
}
