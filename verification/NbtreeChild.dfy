/** The walk along the child level that amcheck makes beside its walk of the parent
    level: it follows right links from downlink to downlink, looks for children that
    lack one, and matches high keys with the parent's pivots. */
module NbtreeChild {
  import opened Optional
  import opened NbtreeKey
  import opened NbtreePage
  import opened NbtreeWalk

  /** A downlink of the parent level with the pivot on either side of its key space:
      its own key, and the next one; None at the two ends. */
  datatype Slot = Slot(down: nat, own: Option<Tuple>, next: Option<Tuple>)

  // ------------------------------------------------------- missing downlinks

  /** From an internal page down its first downlinks, one level each, to a half-dead
      leaf that names top as the top parent of its deletion. */
  predicate DeletionChain(pages: Pages, top: nat, blk: nat)
    requires Loads(pages, blk)
    decreases pages[blk].level
  {
    var p := pages[blk];
    && !p.leaf && p.items != [] && Loads(pages, p.items[0].down)
    && var q := pages[p.items[0].down];
       if q.leaf then !q.deleted && q.halfDead && !Rightmost(q) && q.topParent == top
       else p.level > 0 && q.level == p.level - 1 && DeletionChain(pages, top, p.items[0].down)
  }

  predicate MissingGood(pages: Pages, rightsplit: bool, blk: nat)
    requires Loads(pages, blk)
  {
    pages[blk].root || rightsplit || DeletionChain(pages, blk, blk)
  }

  /** bt_downlink_missing_check. */
  method MissingCheck(pages: Pages, rightsplit: bool, blk: nat) returns (ok: bool)
    requires Loads(pages, blk)
    ensures ok <==> MissingGood(pages, rightsplit, blk)
  {
    if pages[blk].root || rightsplit {
      return true;
    }
    if pages[blk].leaf || pages[blk].items == [] {
      return false;
    }
    var level, parent, child := pages[blk].level, blk, pages[blk].items[0].down;
    while true
      invariant Loads(pages, parent) && !pages[parent].leaf && pages[parent].items != []
      invariant level == pages[parent].level && child == pages[parent].items[0].down
      invariant DeletionChain(pages, blk, blk) == DeletionChain(pages, blk, parent)
      decreases level
    {
      if !Loads(pages, child) {
        return false;
      }
      var q := pages[child];
      if q.leaf {
        return !q.deleted && q.halfDead && !Rightmost(q) && q.topParent == blk;
      }
      if level == 0 || q.level != level - 1 || q.items == [] {
        return false;
      }
      level, parent, child := q.level, child, q.items[0].down;
    }
  }

  // --------------------------------------------------------------- one child

  /** The child's high key is the parent's next pivot.  A split not yet completed, a
      rightmost and a half-dead page have no such key. */
  predicate HikeyGood(p: Page, key: Option<Tuple>)
  {
    !p.incomplete && !Rightmost(p) && !p.halfDead ==> key == Some(p.hikey)
  }

  /** What must hold of a child, met through a downlink or only passed; first is the
      first one of its level, split says whether the page before it is split
      incompletely. */
  ghost predicate ChildGood(pages: Pages, level: nat, b: nat, first: bool, split: bool, met: bool, key: Option<Tuple>)
  {
    && Loads(pages, b) && (first ==> LeftmostOK(pages, b))
    && (!pages[b].deleted ==> pages[b].level + 1 == level)
    && pages[b].prev != b
    && (!met && !Ignorable(pages[b]) ==> MissingGood(pages, split, b))
    && HikeyGood(pages[b], key)
  }

  // ---------------------------------------------------------------- one call

  /** Where a call begins: the block to look at first, and what is known of it. */
  datatype Place = Place(blk: nat, first: bool, split: bool)

  predicate Met(slot: Option<Slot>, b: nat) { slot.Some? && slot.value.down == b }

  function CallKey(slot: Option<Slot>, met: bool): Option<Tuple>
  {
    if slot.None? then None else if met then slot.value.next else slot.value.own
  }

  predicate SplitAt(pages: Pages, at: Place, d: seq<nat>, i: nat)
    requires i < |d|
  {
    if i == 0 then at.split else d[i - 1] in pages && pages[d[i - 1]].incomplete
  }

  /** The call looks at d[i] and goes on to the right.  Coming back to the block it began
      with is reported. */
  ghost predicate PassesBy(pages: Pages, level: nat, at: Place, slot: Option<Slot>, d: seq<nat>, i: nat)
    requires i < |d|
  {
    && !Met(slot, d[i]) && (i > 0 ==> d[i] != d[0])
    && ChildGood(pages, level, d[i], at.first && i == 0, SplitAt(pages, at, d, i), false, CallKey(slot, false))
  }

  /** From the place on, all blocks but the last passed. */
  ghost predicate CallPath(pages: Pages, level: nat, at: Place, slot: Option<Slot>, d: seq<nat>)
  {
    RightPath(pages, d) && |d| > 0 && d[0] == at.blk && forall i :: 0 <= i < |d| - 1 ==> PassesBy(pages, level, at, slot, d, i)
  }

  /** The last block is the child of the downlink; without one, the end of the level. */
  ghost predicate CallDone(pages: Pages, level: nat, at: Place, slot: Option<Slot>, d: seq<nat>)
  {
    && CallPath(pages, level, at, slot, d)
    && var m := |d| - 1;
       if slot.None? then d[m] == NONE
       else Met(slot, d[m]) && ChildGood(pages, level, d[m], at.first && m == 0, SplitAt(pages, at, d, m), true, CallKey(slot, true))
  }

  ghost predicate CallGoesOn(pages: Pages, level: nat, at: Place, slot: Option<Slot>, k: nat)
  {
    exists d :: |d| == k + 1 && CallPath(pages, level, at, slot, d)
  }

  ghost predicate CallHangs(pages: Pages, level: nat, at: Place, slot: Option<Slot>)
  {
    forall k: nat :: CallGoesOn(pages, level, at, slot, k)
  }

  /** The call comes back to a block it has passed, not the first one. */
  ghost predicate CallRing(pages: Pages, level: nat, at: Place, slot: Option<Slot>, d: seq<nat>, r: nat)
  {
    && CallPath(pages, level, at, slot, d) && 0 < r < |d| - 1 && d[r] == d[|d| - 1]
    && PassesBy(pages, level, at, slot, d, |d| - 1)
  }

  /** Whether a block is passed depends on it and the one before alone. */
  lemma SamePasses(pages: Pages, level: nat, at: Place, slot: Option<Slot>, d: seq<nat>, i: nat, e: seq<nat>, j: nat)
    requires i < |d| && j < |e| && (i == 0 <==> j == 0) && d[i] == e[j] && d[0] == e[0]
    requires i > 0 ==> d[i - 1] == e[j - 1]
    ensures PassesBy(pages, level, at, slot, d, i) <==> PassesBy(pages, level, at, slot, e, j)
  {
  }

  lemma CallNext(pages: Pages, level: nat, at: Place, slot: Option<Slot>, d: seq<nat>)
    requires CallPath(pages, level, at, slot, d) && PassesBy(pages, level, at, slot, d, |d| - 1)
    ensures CallPath(pages, level, at, slot, d + [pages[d[|d| - 1]].next])
  {
    var b := pages[d[|d| - 1]].next;
    PathGrows(pages, d, b);
    forall i | 0 <= i < |d| ensures PassesBy(pages, level, at, slot, d + [b], i) {
      assert PassesBy(pages, level, at, slot, d, i);
      SamePasses(pages, level, at, slot, d, i, d + [b], i);
    }
  }

  lemma CallCut(pages: Pages, level: nat, at: Place, slot: Option<Slot>, d: seq<nat>, m: nat)
    requires CallPath(pages, level, at, slot, d) && 0 < m <= |d|
    ensures CallPath(pages, level, at, slot, d[..m])
  {
    PathCut(pages, d, m);
    forall i | 0 <= i < m - 1 ensures PassesBy(pages, level, at, slot, d[..m], i) {
      assert PassesBy(pages, level, at, slot, d, i);
      SamePasses(pages, level, at, slot, d, i, d[..m], i);
    }
  }

  lemma CallBound(pages: Pages, level: nat, at: Place, slot: Option<Slot>, d: seq<nat>, k: nat)
    requires CallPath(pages, level, at, slot, d)
    ensures k < |d| ==> CallGoesOn(pages, level, at, slot, k)
  {
    if k < |d| {
      CallCut(pages, level, at, slot, d, k + 1);
      assert |d[..k + 1]| == k + 1;
    }
  }

  lemma {:induction false} CallsAgree(pages: Pages, level: nat, at: Place, slot: Option<Slot>, d: seq<nat>, e: seq<nat>, i: nat)
    requires CallPath(pages, level, at, slot, d) && CallPath(pages, level, at, slot, e) && i < |d| && i < |e|
    ensures d[i] == e[i]
  {
    if i > 0 {
      CallsAgree(pages, level, at, slot, d, e, i - 1);
      assert RightOf(pages, d, i) && RightOf(pages, e, i);
    }
  }

  /** In a ring the call goes on: one more block, which it has passed as well. */
  lemma {:induction false} RingGoesOn(pages: Pages, level: nat, at: Place, slot: Option<Slot>, d: seq<nat>, r: nat, k: nat)
    requires CallRing(pages, level, at, slot, d, r)
    ensures CallGoesOn(pages, level, at, slot, k)
    decreases k - |d|
  {
    if k < |d| {
      CallBound(pages, level, at, slot, d, k);
    } else {
      var q := r + 1;
      assert RightOf(pages, d, q) && PassesBy(pages, level, at, slot, d, q);
      CallNext(pages, level, at, slot, d);
      SamePasses(pages, level, at, slot, d, q, d + [d[q]], |d|);
      RingGoesOn(pages, level, at, slot, d + [d[q]], q, k);
    }
  }

  /** A call never ends exactly when what it passes runs into a ring beside the block it
      began with. */
  lemma CallHangsIff(pages: Pages, level: nat, at: Place, slot: Option<Slot>)
    ensures CallHangs(pages, level, at, slot) <==> exists d, r :: CallRing(pages, level, at, slot, d, r)
  {
    if d, r :| CallRing(pages, level, at, slot, d, r) {
      forall k: nat ensures CallGoesOn(pages, level, at, slot, k) {
        RingGoesOn(pages, level, at, slot, d, r, k);
      }
    }
    if CallHangs(pages, level, at, slot) {
      assert CallGoesOn(pages, level, at, slot, |pages| + 1);
      var d :| |d| == |pages| + 2 && CallPath(pages, level, at, slot, d);
      var r, j := PathRevisits(pages, level, at, slot, d);
      CallCut(pages, level, at, slot, d, j + 1);
      SamePasses(pages, level, at, slot, d, j, d[..j + 1], j);
      assert CallRing(pages, level, at, slot, d[..j + 1], r);
    }
  }

  lemma PathRevisits(pages: Pages, level: nat, at: Place, slot: Option<Slot>, d: seq<nat>) returns (r: nat, j: nat)
    requires CallPath(pages, level, at, slot, d) && |d| == |pages| + 2
    ensures 0 < r < j < |d| - 1 && d[r] == d[j] && PassesBy(pages, level, at, slot, d, j)
  {
    var m := |pages| + 1;
    forall b | b in d[..m] ensures b in pages.Keys {
      var i :| 0 <= i < m && d[..m][i] == b;
      assert PassesBy(pages, level, at, slot, d, i);
    }
    r, j := Revisits(d[..m], pages.Keys);
    assert PassesBy(pages, level, at, slot, d, j);
  }

  lemma LongerPasses(pages: Pages, level: nat, at: Place, slot: Option<Slot>, d: seq<nat>, e: seq<nat>)
    requires CallPath(pages, level, at, slot, d) && CallPath(pages, level, at, slot, e) && |d| < |e|
    ensures PassesBy(pages, level, at, slot, d, |d| - 1) && !CallDone(pages, level, at, slot, d)
  {
    var m := |d| - 1;
    CallsAgree(pages, level, at, slot, d, e, m);
    if m > 0 {
      CallsAgree(pages, level, at, slot, d, e, m - 1);
    }
    assert PassesBy(pages, level, at, slot, e, m);
    SamePasses(pages, level, at, slot, d, m, e, m);
  }

  /** A path that can neither go on nor is done is the only one. */
  lemma Stopped(pages: Pages, level: nat, at: Place, slot: Option<Slot>, d: seq<nat>)
    requires CallPath(pages, level, at, slot, d) && !PassesBy(pages, level, at, slot, d, |d| - 1)
    requires !CallDone(pages, level, at, slot, d)
    ensures forall e :: !CallDone(pages, level, at, slot, e)
  {
    forall e ensures !CallDone(pages, level, at, slot, e) {
      if CallPath(pages, level, at, slot, e) {
        OnlyPath(pages, level, at, slot, d, e);
      }
    }
  }

  lemma OnlyPath(pages: Pages, level: nat, at: Place, slot: Option<Slot>, d: seq<nat>, e: seq<nat>)
    requires CallPath(pages, level, at, slot, d) && CallPath(pages, level, at, slot, e)
    ensures |e| > |d| ==> PassesBy(pages, level, at, slot, d, |d| - 1)
    ensures |e| < |d| ==> !CallDone(pages, level, at, slot, e)
    ensures |e| == |d| ==> e == d
  {
    if |e| > |d| {
      LongerPasses(pages, level, at, slot, d, e);
    } else if |e| < |d| {
      LongerPasses(pages, level, at, slot, e, d);
    } else {
      forall i | 0 <= i < |d| ensures d[i] == e[i] {
        CallsAgree(pages, level, at, slot, d, e, i);
      }
    }
  }

  lemma NoChild(pages: Pages, level: nat, at: Place, slot: Option<Slot>, d: seq<nat>)
    requires d != [] && d[|d| - 1] == NONE
    ensures !PassesBy(pages, level, at, slot, d, |d| - 1)
  {
  }

  class ChildWalk {
    const pages: Pages
    const level: nat
    var prevrightlink: Option<nat>
    var previncompletesplit: bool

    constructor (pages: Pages, level: nat)
      ensures this.pages == pages && this.level == level && prevrightlink.None?
    {
      this.pages, this.level := pages, level;
      prevrightlink, previncompletesplit := None, false;
    }

    /** Where the next call begins. */
    function Here(slot: Option<Slot>): Place
      requires prevrightlink.None? ==> slot.Some?
      reads this
    {
      if prevrightlink.None? then Place(slot.value.down, true, false)
      else Place(prevrightlink.value, false, previncompletesplit)
    }

    /** bt_child_highkey_check. */
    method HighkeyCheck(slot: Option<Slot>) returns (ok: bool, ghost d: seq<nat>)
      requires (prevrightlink.None? ==> slot.Some?) && (slot.Some? ==> slot.value.down != NONE)
      requires !CallHangs(pages, level, Here(slot), slot)
      modifies this
      ensures ok ==> CallDone(pages, level, old(Here(slot)), slot, d)
      ensures ok && slot.Some? ==> prevrightlink.Some? && Here(None) == After(pages, d)
      ensures !ok ==> forall e :: !CallDone(pages, level, old(Here(slot)), slot, e)
    {
      hide ChildGood, CallGoesOn;
      ghost var at := Here(slot);
      ghost var k: nat :| !CallGoesOn(pages, level, at, slot, k);
      var downlink := if slot.Some? then slot.value.down else NONE;
      var blkno, rightsplit := downlink, false;
      if prevrightlink.Some? {
        blkno, rightsplit := prevrightlink.value, previncompletesplit;
      }
      var first := true;
      d := [blkno];
      CallBound(pages, level, at, slot, d, k);
      while true
        invariant prevrightlink == old(prevrightlink) && previncompletesplit == old(previncompletesplit)
        invariant Here(slot) == at && CallPath(pages, level, at, slot, d) && |d| <= k && d[|d| - 1] == blkno
        invariant first == (|d| == 1) && rightsplit == SplitAt(pages, at, d, |d| - 1)
        decreases k - |d|
      {
        if blkno == NONE {
          if downlink == NONE {
            prevrightlink, previncompletesplit := None, false;
            return true, d;
          }
          NoChild(pages, level, at, slot, d);
          Stopped(pages, level, at, slot, d);
          return false, d;
        }
        var met := blkno == downlink;
        assert |d| > 1 ==> PassesBy(pages, level, at, slot, d, 0);
        ok := Visit(blkno, first, rightsplit, met, CallKey(slot, met));
        if !ok {
          Stopped(pages, level, at, slot, d);
          return;
        }
        rightsplit := pages[blkno].incomplete;
        if met {
          prevrightlink, previncompletesplit := Some(pages[blkno].next), rightsplit;
          return;
        }
        CallNext(pages, level, at, slot, d);
        blkno, first := pages[blkno].next, false;
        d := d + [blkno];
        CallBound(pages, level, at, slot, d, k);
      }
    }

    /** The checks on one child page. */
    method Visit(blkno: nat, first: bool, rightsplit: bool, met: bool, key: Option<Tuple>) returns (ok: bool)
      requires blkno != NONE
      ensures ok ==> Loads(pages, blkno)
      ensures ok <==>
        && ChildGood(pages, level, blkno, first && prevrightlink.None?, rightsplit, met, key)
        && (!first ==> prevrightlink != Some(blkno))
    {
      if !Loads(pages, blkno) {
        return false;
      }
      var p := pages[blkno];
      if first && prevrightlink.None? {
        var leftmost, trail := LeftmostIgnoringHalfDead(pages, blkno);
        if !leftmost {
          return false;
        }
      }
      if !p.deleted && p.level + 1 != level {
        return false;
      }
      if (!first && prevrightlink == Some(blkno)) || blkno == p.prev {
        return false;
      }
      if !met && !Ignorable(p) {
        ok := MissingCheck(pages, rightsplit, blkno);
        if !ok {
          return;
        }
      }
      ok := HikeyGood(p, key);
    }
  }

  /** Where the call after this one begins. */
  function After(pages: Pages, d: seq<nat>): Place
  {
    if d != [] && d[|d| - 1] in pages then Place(pages[d[|d| - 1]].next, false, pages[d[|d| - 1]].incomplete)
    else Place(NONE, false, false)
  }
}
