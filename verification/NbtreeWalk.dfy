/** The walk along one level of a B-tree, left to right, in read-only mode, and when it
    ends. */
module NbtreeWalk {
  import opened Optional
  import opened NbtreeKey
  import opened NbtreePage

  predicate Distinct(c: seq<nat>) { forall i, j :: 0 <= i < j < |c| ==> c[i] != c[j] }

  /** back undoes each move along c. */
  predicate Unwinds(c: seq<nat>, back: map<nat, nat>)
  {
    forall i :: 0 < i < |c| ==> c[i] in back && back[c[i]] == c[i - 1]
  }

  /** A list that can be unwound and never meets its first element again has no
      repetition. */
  lemma {:induction false} UnwoundApart(c: seq<nat>, back: map<nat, nat>, i: nat, j: nat)
    requires i < j < |c| && Unwinds(c, back) && forall k :: 0 < k < |c| ==> c[k] != c[0]
    ensures c[i] != c[j]
  {
    if i > 0 {
      UnwoundApart(c, back, i - 1, j - 1);
    }
  }

  /** Distinct blocks of the index number no more than the index has. */
  lemma {:induction false} DistinctFits(c: seq<nat>, blocks: set<nat>)
    requires Distinct(c) && forall b :: b in c ==> b in blocks
    ensures |c| <= |blocks|
  {
    if c != [] {
      var x := c[|c| - 1];
      var d := c[..|c| - 1];
      assert x !in d;
      DistinctFits(d, blocks - {x});
    }
  }

  // ------------------------------------------------ leftmost but for half-dead

  /** From start, each further block is half-dead, the left sibling of the one before,
      and points back to it. */
  predicate HalfDeadTrail(pages: Pages, start: nat, trail: seq<nat>)
  {
    && |trail| > 0 && trail[0] == start
    && (forall i :: 0 <= i < |trail| ==> trail[i] in pages)
    && (forall i :: 0 < i < |trail| ==> HalfDeadStep(pages, start, trail[i - 1], trail[i]))
  }

  predicate HalfDeadStep(pages: Pages, start: nat, from: nat, to: nat)
    requires from in pages && to in pages
  {
    && pages[from].prev == to && Loads(pages, to) && pages[to].halfDead
    && to != start && to != from && pages[to].next == from
  }

  predicate LeftmostBut(pages: Pages, start: nat, trail: seq<nat>)
  {
    HalfDeadTrail(pages, start, trail) && pages[trail[|trail| - 1]].prev == NONE
  }

  lemma TrailDistinct(pages: Pages, start: nat, trail: seq<nat>)
    requires HalfDeadTrail(pages, start, trail)
    ensures Distinct(trail)
  {
    var back := map b | b in pages :: pages[b].next;
    forall k | 0 < k < |trail| ensures trail[k] != trail[0] && back[trail[k]] == trail[k - 1] {
      assert HalfDeadStep(pages, start, trail[k - 1], trail[k]);
    }
    forall i, j | 0 <= i < j < |trail| ensures trail[i] != trail[j] {
      UnwoundApart(trail, back, i, j);
    }
  }

  /** Two trails from one block agree as far as both go. */
  lemma {:induction false} TrailsAgree(pages: Pages, start: nat, a: seq<nat>, b: seq<nat>, i: nat)
    requires HalfDeadTrail(pages, start, a) && HalfDeadTrail(pages, start, b) && i < |a| && i < |b|
    ensures a[i] == b[i]
  {
    if i > 0 {
      TrailsAgree(pages, start, a, b, i - 1);
      assert HalfDeadStep(pages, start, a[i - 1], a[i]) && HalfDeadStep(pages, start, b[i - 1], b[i]);
    }
  }

  /** bt_leftmost_ignoring_half_dead: it always ends, for it cannot come back to a
      block it has passed. */
  method LeftmostIgnoringHalfDead(pages: Pages, start: nat) returns (ok: bool, ghost trail: seq<nat>)
    requires Loads(pages, start)
    ensures ok ==> LeftmostBut(pages, start, trail)
    ensures !ok ==> forall t :: !LeftmostBut(pages, start, t)
  {
    var reached, from := pages[start].prev, start;
    trail := [start];
    while reached != NONE
      invariant HalfDeadTrail(pages, start, trail)
      invariant trail[|trail| - 1] == from && pages[from].prev == reached
      decreases |pages| + 1 - |trail|
    {
      TrailDistinct(pages, start, trail);
      DistinctFits(trail, pages.Keys);
      if !Loads(pages, reached) || !HalfDeadStep(pages, start, from, reached) {
        NoTrail(pages, start, trail);
        return false, trail;
      }
      trail := trail + [reached];
      from, reached := reached, pages[reached].prev;
    }
    ok := true;
  }

  lemma NoTrail(pages: Pages, start: nat, trail: seq<nat>)
    requires HalfDeadTrail(pages, start, trail)
    requires var from := trail[|trail| - 1];
      pages[from].prev != NONE &&
      (!Loads(pages, pages[from].prev) || !HalfDeadStep(pages, start, from, pages[from].prev))
    ensures forall t :: !LeftmostBut(pages, start, t)
  {
    var n := |trail|;
    forall t | HalfDeadTrail(pages, start, t) ensures !LeftmostBut(pages, start, t) {
      if |t| > n {
        TrailsAgree(pages, start, trail, t, n - 1);
        assert HalfDeadStep(pages, start, t[n - 1], t[n]);
      } else {
        TrailsAgree(pages, start, trail, t, |t| - 1);
        if |t| < n {
          assert HalfDeadStep(pages, start, trail[|t| - 1], trail[|t|]);
        }
      }
    }
  }

  ghost predicate LeftmostOK(pages: Pages, start: nat) { exists t :: LeftmostBut(pages, start, t) }

  lemma LeftmostNeighbour(pages: Pages, start: nat)
    requires LeftmostOK(pages, start) && start in pages && pages[start].prev != NONE
    ensures pages[start].prev in pages && pages[pages[start].prev].halfDead
  {
    var t :| LeftmostBut(pages, start, t);
    assert HalfDeadStep(pages, start, t[0], t[1]);
  }

  // ----------------------------------------------------------------- right links

  predicate RightOf(pages: Pages, c: seq<nat>, i: nat)
    requires 0 < i < |c|
  {
    c[i - 1] in pages && pages[c[i - 1]].next == c[i]
  }

  /** Blocks joined by right links. */
  predicate RightPath(pages: Pages, c: seq<nat>) { forall i :: 0 < i < |c| ==> RightOf(pages, c, i) }

  lemma PathGrows(pages: Pages, c: seq<nat>, b: nat)
    requires RightPath(pages, c) && (c == [] || (c[|c| - 1] in pages && pages[c[|c| - 1]].next == b))
    ensures RightPath(pages, c + [b])
  {
    var d := c + [b];
    forall i | 0 < i < |d| ensures RightOf(pages, d, i) {
      assert i < |c| ==> RightOf(pages, c, i);
    }
  }

  lemma PathCut(pages: Pages, c: seq<nat>, m: nat)
    requires RightPath(pages, c) && m <= |c|
    ensures RightPath(pages, c[..m])
  {
    forall i | 0 < i < m ensures RightOf(pages, c[..m], i) {
      assert RightOf(pages, c, i);
    }
  }

  /** A path longer than the index comes back to a block. */
  lemma Revisits(c: seq<nat>, blocks: set<nat>) returns (i: nat, j: nat)
    requires |c| > |blocks| && forall b :: b in c ==> b in blocks
    ensures i < j < |c| && c[i] == c[j]
  {
    if Distinct(c) {
      DistinctFits(c, blocks);
    }
    i, j :| 0 <= i < j < |c| && c[i] == c[j];
  }

  // -------------------------------------------------- the first item to the right

  /** bt_right_page_check_scankey steps over the block. */
  predicate Skipped(pages: Pages, b: nat) { Loads(pages, b) && Ignorable(pages[b]) && !Rightmost(pages[b]) }

  /** From a page's right sibling on, all blocks but the last stepped over. */
  predicate SkipPath(pages: Pages, p: Page, d: seq<nat>)
  {
    RightPath(pages, d) && |d| > 0 && d[0] == p.next && forall i :: 0 <= i < |d| - 1 ==> Skipped(pages, d[i])
  }

  predicate SkipEnd(pages: Pages, p: Page, d: seq<nat>) { SkipPath(pages, p, d) && !Skipped(pages, d[|d| - 1]) }

  ghost predicate SkipsFor(pages: Pages, p: Page, k: nat) { exists d :: |d| == k + 1 && SkipPath(pages, p, d) }

  ghost predicate SkipsForever(pages: Pages, p: Page) { forall k: nat :: SkipsFor(pages, p, k) }

  /** The search comes back to a block it stepped over. */
  predicate SkipRing(pages: Pages, p: Page, d: seq<nat>, r: nat)
  {
    SkipPath(pages, p, d) && r < |d| - 1 && d[r] == d[|d| - 1]
  }

  lemma SkipNext(pages: Pages, p: Page, d: seq<nat>)
    requires SkipPath(pages, p, d) && Skipped(pages, d[|d| - 1])
    ensures SkipPath(pages, p, d + [pages[d[|d| - 1]].next])
  {
    PathGrows(pages, d, pages[d[|d| - 1]].next);
  }

  lemma SkipCut(pages: Pages, p: Page, d: seq<nat>, m: nat)
    requires SkipPath(pages, p, d) && 0 < m <= |d|
    ensures SkipPath(pages, p, d[..m])
  {
    PathCut(pages, d, m);
  }

  lemma SkipBound(pages: Pages, p: Page, d: seq<nat>, k: nat)
    requires SkipPath(pages, p, d)
    ensures k < |d| ==> SkipsFor(pages, p, k)
  {
    if k < |d| {
      SkipCut(pages, p, d, k + 1);
      assert |d[..k + 1]| == k + 1;
    }
  }

  lemma {:induction false} SkipsAgree(pages: Pages, p: Page, d: seq<nat>, e: seq<nat>, i: nat)
    requires SkipPath(pages, p, d) && SkipPath(pages, p, e) && i < |d| && i < |e|
    ensures d[i] == e[i]
  {
    if i > 0 {
      SkipsAgree(pages, p, d, e, i - 1);
      assert RightOf(pages, d, i) && RightOf(pages, e, i);
    }
  }

  lemma SkipEndsAgree(pages: Pages, p: Page, d: seq<nat>, e: seq<nat>)
    requires SkipEnd(pages, p, d) && SkipEnd(pages, p, e)
    ensures d[|d| - 1] == e[|e| - 1]
  {
    SkipsAgree(pages, p, d, e, (if |d| < |e| then |d| else |e|) - 1);
  }

  /** In a ring the search goes on: one more block, which it has seen as well. */
  lemma {:induction false} RingSkips(pages: Pages, p: Page, d: seq<nat>, r: nat, k: nat)
    requires SkipRing(pages, p, d, r)
    ensures SkipsFor(pages, p, k)
    decreases k - |d|
  {
    if k < |d| {
      SkipCut(pages, p, d, k + 1);
      assert |d[..k + 1]| == k + 1;
    } else {
      SkipNext(pages, p, d);
      assert RightOf(pages, d, r + 1);
      RingSkips(pages, p, d + [d[r + 1]], r + 1, k);
    }
  }

  lemma SkipsForeverIff(pages: Pages, p: Page)
    ensures SkipsForever(pages, p) <==> exists d, r :: SkipRing(pages, p, d, r)
  {
    if d, r :| SkipRing(pages, p, d, r) {
      forall k: nat ensures SkipsFor(pages, p, k) {
        RingSkips(pages, p, d, r, k);
      }
    }
    if SkipsForever(pages, p) {
      assert SkipsFor(pages, p, |pages| + 1);
      var d :| |d| == |pages| + 2 && SkipPath(pages, p, d);
      var m := |pages| + 1;
      forall b | b in d[..m] ensures b in pages.Keys {
        var i :| 0 <= i < m && d[..m][i] == b;
        assert Skipped(pages, d[i]);
      }
      var i, j := Revisits(d[..m], pages.Keys);
      SkipCut(pages, p, d, j + 1);
      assert SkipRing(pages, p, d[..j + 1], i);
    }
  }

  /** The first real item of a page, if it has one. */
  function FirstReal(r: Page): Option<Tuple>
  {
    if r.leaf && |r.items| >= 1 then Some(r.items[0].key)
    else if !r.leaf && |r.items| >= 2 then Some(r.items[1].key)
    else None
  }

  /** The last item is to be compared with the first one to the right. */
  predicate AsksRight(p: Page) { !Rightmost(p) && p.items != [] && !MinusInfinity(p, |p.items| - 1) }

  /** What the last item is compared with. */
  ghost predicate RightKeyIs(pages: Pages, p: Page, right: Option<Tuple>)
  {
    if AsksRight(p) then exists d :: SkipEnd(pages, p, d) && Loads(pages, d[|d| - 1]) && right == FirstReal(pages[d[|d| - 1]])
    else right == None
  }

  /** Which item that is: the first of the next page to the right that is not to be
      ignored or ends the level, but on an internal page the second, for the first is
      minus infinity. */
  lemma RightKeyFrom(pages: Pages, p: Page, right: Option<Tuple>) returns (b: nat)
    requires RightKeyIs(pages, p, right) && right.Some?
    ensures p.next != 0 && b in pages && (pages[b].deleted || pages[b].halfDead ==> pages[b].next == 0)
    ensures var q := pages[b]; if q.leaf then q.items != [] && right.value == q.items[0].key else |q.items| > 1 && right.value == q.items[1].key
    ensures exists d :: OverIgnored(pages, p.next, d, b)
  {
    var d :| SkipEnd(pages, p, d) && Loads(pages, d[|d| - 1]) && right == FirstReal(pages[d[|d| - 1]]);
    b := d[|d| - 1];
    assert forall i :: 0 <= i < |d| - 1 ==> Skipped(pages, d[i]);
    assert OverIgnored(pages, p.next, d, b);
  }

  /** Right links from one block to another with nothing but deleted and half-dead pages
      before it. */
  predicate OverIgnored(pages: Pages, from: nat, d: seq<nat>, to: nat)
  {
    && |d| > 0 && d[0] == from && d[|d| - 1] == to
    && RightPath(pages, d)
    && (forall i :: 0 <= i < |d| - 1 ==> d[i] in pages && (pages[d[i]].deleted || pages[d[i]].halfDead))
  }

  ghost predicate PagePasses(pages: Pages, p: Page, n: nat)
  {
    exists right :: RightKeyIs(pages, p, right) && PageGood(p, n, right)
  }

  /** Nothing on the page is wrong, but the search to the right does not end. */
  ghost predicate PageHangs(pages: Pages, p: Page, n: nat)
  {
    PageGood(p, n, None) && AsksRight(p) && SkipsForever(pages, p)
  }

  /** bt_right_page_check_scankey's loop. */
  method FindRight(pages: Pages, p: Page) returns (b: nat)
    requires !SkipsForever(pages, p)
    ensures exists d :: SkipEnd(pages, p, d) && d[|d| - 1] == b
  {
    ghost var k: nat :| !SkipsFor(pages, p, k);
    b := p.next;
    ghost var d := [b];
    SkipBound(pages, p, d, k);
    while Skipped(pages, b)
      invariant SkipPath(pages, p, d) && d[|d| - 1] == b && |d| <= k
      decreases k - |d|
    {
      SkipNext(pages, p, d);
      b := pages[b].next;
      d := d + [b];
      SkipBound(pages, p, d, k);
    }
  }

  /** bt_target_page_check on a page whose search to the right ends. */
  method CheckPage(pages: Pages, p: Page, n: nat) returns (ok: bool)
    requires !PageHangs(pages, p, n)
    ensures ok <==> PagePasses(pages, p, n)
  {
    ok := CheckItems(p, n, None);
    WithRight(p, n);
    if !ok {
      return;
    }
    if !AsksRight(p) {
      assert RightKeyIs(pages, p, None);
      return;
    }
    var b := FindRight(pages, p);
    ghost var d :| SkipEnd(pages, p, d) && d[|d| - 1] == b;
    forall right | RightKeyIs(pages, p, right) ensures Loads(pages, b) && right == FirstReal(pages[b]) {
      var e :| SkipEnd(pages, p, e) && Loads(pages, e[|e| - 1]) && right == FirstReal(pages[e[|e| - 1]]);
      SkipEndsAgree(pages, p, d, e);
    }
    if !Loads(pages, b) {
      return false;
    }
    var right := FirstReal(pages[b]);
    assert RightKeyIs(pages, p, right);
    ok := CheckItem(p, n, |p.items| - 1, right);
    LastDecides(p, n, right);
  }

  /** The item to the right matters for the last item alone. */
  lemma LastDecides(p: Page, n: nat, right: Option<Tuple>)
    requires PageGood(p, n, None) && p.items != []
    ensures PageGood(p, n, right) <==> ItemGood(p, n, |p.items| - 1, right)
  {
    if ItemGood(p, n, |p.items| - 1, right) {
      forall j | 0 <= j < |p.items| ensures ItemGood(p, n, j, right) {
        assert ItemGood(p, n, j, None);
      }
    }
  }

  lemma WithRight(p: Page, n: nat)
    ensures forall right :: PageGood(p, n, right) ==> PageGood(p, n, None)
  {
    forall right | PageGood(p, n, right) ensures PageGood(p, n, None) {
      forall j | 0 <= j < |p.items| ensures ItemGood(p, n, j, None) {
        assert ItemGood(p, n, j, right);
      }
    }
  }

  // ----------------------------------------------------------------- one round

  predicate RootGood(p: Page, trueRoot: bool) { trueRoot ==> p.root || p.incomplete }

  /** What is checked of a live page's place: the first one met must be leftmost but for
      half-dead pages, the others must point back where the walk came from. */
  ghost predicate PlaceGood(pages: Pages, level: nat, trueRoot: bool, left: nat, blk: nat, first: bool)
    requires blk in pages
  {
    && (first ==> LeftmostOK(pages, blk) && RootGood(pages[blk], trueRoot))
    && (left != NONE ==> pages[blk].prev == left) && pages[blk].level == level
  }

  /** The round on blk reports nothing; half-dead pages are only stepped over. */
  ghost predicate Passed(pages: Pages, level: nat, trueRoot: bool, n: nat, left: nat, blk: nat, first: bool)
  {
    && Loads(pages, blk) && !pages[blk].deleted && blk != left && blk != pages[blk].prev
    && if pages[blk].halfDead then !Rightmost(pages[blk])
       else PlaceGood(pages, level, trueRoot, left, blk, first) && PagePasses(pages, pages[blk], n)
  }

  /** The round on blk does not end. */
  ghost predicate Hangs(pages: Pages, level: nat, trueRoot: bool, n: nat, left: nat, blk: nat, first: bool)
  {
    && Loads(pages, blk) && !Ignorable(pages[blk])
    && PlaceGood(pages, level, trueRoot, left, blk, first) && PageHangs(pages, pages[blk], n)
  }

  /** One round of the loop in bt_check_level_from_leftmost. */
  method CheckRound(pages: Pages, level: nat, trueRoot: bool, n: nat, left: nat, current: nat, first: bool) returns (ok: bool)
    requires !Hangs(pages, level, trueRoot, n, left, current, first)
    ensures ok <==> Passed(pages, level, trueRoot, n, left, current, first)
  {
    if !Loads(pages, current) {
      return false;
    }
    var p := pages[current];
    if Ignorable(p) {
      if p.deleted || Rightmost(p) {
        return false;
      }
    } else {
      if first {
        var leftmost, _ := LeftmostIgnoringHalfDead(pages, current);
        if !leftmost || !RootGood(p, trueRoot) {
          return false;
        }
      }
      if (p.prev != left && left != NONE) || p.level != level {
        return false;
      }
      ok := CheckPage(pages, p, n);
      if !ok {
        return;
      }
    }
    ok := current != left && current != p.prev;
  }

  // ------------------------------------------------------------------ the walk

  /** No live page among the first i. */
  predicate NoneLive(pages: Pages, c: seq<nat>, i: nat)
    requires i <= |c|
  {
    forall k :: 0 <= k < i ==> c[k] in pages && pages[c[k]].halfDead
  }

  function LeftOf(c: seq<nat>, i: nat): nat
    requires i <= |c|
  {
    if i == 0 then NONE else c[i - 1]
  }

  ghost predicate PassedAt(pages: Pages, level: nat, trueRoot: bool, n: nat, c: seq<nat>, i: nat)
    requires i < |c|
  {
    Passed(pages, level, trueRoot, n, LeftOf(c, i), c[i], NoneLive(pages, c, i))
  }

  /** The blocks passed so far. */
  ghost predicate Prefix(pages: Pages, leftmost: nat, level: nat, trueRoot: bool, n: nat, c: seq<nat>)
  {
    && RightPath(pages, c) && (c != [] ==> c[0] == leftmost)
    && forall i :: 0 <= i < |c| ==> PassedAt(pages, level, trueRoot, n, c, i)
  }

  /** The block the walk comes to after c. */
  function Upcoming(pages: Pages, leftmost: nat, c: seq<nat>): nat
    requires c != [] ==> c[|c| - 1] in pages
  {
    if c == [] then leftmost else pages[c[|c| - 1]].next
  }

  /** The whole level: every page passed, from leftmost to rightmost. */
  ghost predicate Level(pages: Pages, leftmost: nat, level: nat, trueRoot: bool, n: nat, c: seq<nat>)
  {
    c != [] && Prefix(pages, leftmost, level, trueRoot, n, c) && c[|c| - 1] in pages && Rightmost(pages[c[|c| - 1]])
  }

  ghost predicate WalksFor(pages: Pages, leftmost: nat, level: nat, trueRoot: bool, n: nat, k: nat)
  {
    exists c :: |c| == k && Prefix(pages, leftmost, level, trueRoot, n, c)
  }

  /** After passing c the walk hangs in a round. */
  ghost predicate HangsAfter(pages: Pages, leftmost: nat, level: nat, trueRoot: bool, n: nat, c: seq<nat>)
  {
    && Prefix(pages, leftmost, level, trueRoot, n, c) && (c != [] ==> c[|c| - 1] in pages)
    && Hangs(pages, level, trueRoot, n, LeftOf(c, |c|), Upcoming(pages, leftmost, c), NoneLive(pages, c, |c|))
  }

  /** The walk neither reports nor finishes. */
  ghost predicate NeverEnds(pages: Pages, leftmost: nat, level: nat, trueRoot: bool, n: nat)
  {
    || (forall k: nat :: WalksFor(pages, leftmost, level, trueRoot, n, k))
    || exists c :: HangsAfter(pages, leftmost, level, trueRoot, n, c)
  }

  lemma PrefixLoads(pages: Pages, leftmost: nat, level: nat, trueRoot: bool, n: nat, c: seq<nat>, i: nat)
    requires Prefix(pages, leftmost, level, trueRoot, n, c) && i < |c|
    ensures Loads(pages, c[i])
    ensures i + 1 < |c| ==> pages[c[i]].next == c[i + 1] && !Rightmost(pages[c[i]])
  {
    assert PassedAt(pages, level, trueRoot, n, c, i);
    if i + 1 < |c| {
      var j := i + 1;
      assert PassedAt(pages, level, trueRoot, n, c, j) && RightOf(pages, c, j);
    }
  }

  lemma ExtendPrefix(pages: Pages, leftmost: nat, level: nat, trueRoot: bool, n: nat, c: seq<nat>)
    requires Prefix(pages, leftmost, level, trueRoot, n, c) && (c != [] ==> c[|c| - 1] in pages)
    requires Passed(pages, level, trueRoot, n, LeftOf(c, |c|), Upcoming(pages, leftmost, c), NoneLive(pages, c, |c|))
    ensures Prefix(pages, leftmost, level, trueRoot, n, c + [Upcoming(pages, leftmost, c)])
  {
    var d := c + [Upcoming(pages, leftmost, c)];
    PathGrows(pages, c, Upcoming(pages, leftmost, c));
    forall i | 0 <= i < |d| ensures PassedAt(pages, level, trueRoot, n, d, i) {
      NoneLiveSame(pages, c, d, i);
      if i < |c| {
        assert PassedAt(pages, level, trueRoot, n, c, i);
      }
    }
  }

  lemma NoneLiveSame(pages: Pages, c: seq<nat>, d: seq<nat>, i: nat)
    requires i <= |c| && i <= |d| && forall k :: 0 <= k < i ==> c[k] == d[k]
    ensures NoneLive(pages, c, i) == NoneLive(pages, d, i)
  {
    assert forall k :: 0 <= k < i ==> c[k] == d[k];
  }

  lemma PrefixCut(pages: Pages, leftmost: nat, level: nat, trueRoot: bool, n: nat, c: seq<nat>, m: nat)
    requires Prefix(pages, leftmost, level, trueRoot, n, c) && m <= |c|
    ensures Prefix(pages, leftmost, level, trueRoot, n, c[..m])
  {
    PathCut(pages, c, m);
    forall i | 0 <= i < m ensures PassedAt(pages, level, trueRoot, n, c[..m], i) {
      assert PassedAt(pages, level, trueRoot, n, c, i);
      NoneLiveSame(pages, c, c[..m], i);
    }
  }

  lemma {:induction false} PrefixesAgree(pages: Pages, leftmost: nat, level: nat, trueRoot: bool, n: nat, a: seq<nat>, b: seq<nat>, i: nat)
    requires Prefix(pages, leftmost, level, trueRoot, n, a) && Prefix(pages, leftmost, level, trueRoot, n, b)
    requires i < |a| && i < |b|
    ensures a[i] == b[i]
  {
    if i > 0 {
      PrefixesAgree(pages, leftmost, level, trueRoot, n, a, b, i - 1);
      assert RightOf(pages, a, i) && RightOf(pages, b, i);
    }
  }

  // ------------------------------------------------------------- when it ends

  /** The walk comes back to a block it passed. */
  ghost predicate WalkRing(pages: Pages, leftmost: nat, level: nat, trueRoot: bool, n: nat, c: seq<nat>, r: nat)
  {
    Prefix(pages, leftmost, level, trueRoot, n, c) && r < |c| - 1 && c[r] == c[|c| - 1]
  }

  /** The block after c is in place and good so far, and the search to its right comes
      back to an ignorable block. */
  ghost predicate SearchRing(pages: Pages, leftmost: nat, level: nat, trueRoot: bool, n: nat, c: seq<nat>, d: seq<nat>, r: nat)
  {
    && Prefix(pages, leftmost, level, trueRoot, n, c) && (c != [] ==> c[|c| - 1] in pages)
    && var blk := Upcoming(pages, leftmost, c);
       && Loads(pages, blk) && !Ignorable(pages[blk])
       && PlaceGood(pages, level, trueRoot, LeftOf(c, |c|), blk, NoneLive(pages, c, |c|))
       && PageGood(pages[blk], n, None) && AsksRight(pages[blk]) && SkipRing(pages, pages[blk], d, r)
  }

  /** A round that passed as the first live page's passes later as well. */
  lemma PassedLater(pages: Pages, level: nat, trueRoot: bool, n: nat, left: nat, blk: nat, first: bool, later: bool)
    requires Passed(pages, level, trueRoot, n, left, blk, first) && (later ==> first)
    ensures Passed(pages, level, trueRoot, n, left, blk, later)
  {
  }

  /** In a ring the walk goes on. */
  lemma RingGoesOn(pages: Pages, leftmost: nat, level: nat, trueRoot: bool, n: nat, c: seq<nat>, r: nat)
    requires WalkRing(pages, leftmost, level, trueRoot, n, c, r)
    ensures WalkRing(pages, leftmost, level, trueRoot, n, c + [c[r + 1]], r + 1)
  {
    var j := r + 1;
    assert RightOf(pages, c, j) && PassedAt(pages, level, trueRoot, n, c, j);
    PrefixLoads(pages, leftmost, level, trueRoot, n, c, |c| - 1);
    assert NoneLive(pages, c, |c|) ==> NoneLive(pages, c, j);
    PassedLater(pages, level, trueRoot, n, c[r], c[j], NoneLive(pages, c, j), NoneLive(pages, c, |c|));
    ExtendPrefix(pages, leftmost, level, trueRoot, n, c);
  }

  lemma {:induction false} RingWalks(pages: Pages, leftmost: nat, level: nat, trueRoot: bool, n: nat, c: seq<nat>, r: nat, k: nat)
    requires WalkRing(pages, leftmost, level, trueRoot, n, c, r)
    ensures WalksFor(pages, leftmost, level, trueRoot, n, k)
    decreases k - |c|
  {
    if k <= |c| {
      PrefixCut(pages, leftmost, level, trueRoot, n, c, k);
      assert |c[..k]| == k;
    } else {
      RingGoesOn(pages, leftmost, level, trueRoot, n, c, r);
      RingWalks(pages, leftmost, level, trueRoot, n, c + [c[r + 1]], r + 1, k);
    }
  }

  lemma WalksIntoRing(pages: Pages, leftmost: nat, level: nat, trueRoot: bool, n: nat) returns (c: seq<nat>, r: nat)
    requires forall k: nat :: WalksFor(pages, leftmost, level, trueRoot, n, k)
    ensures WalkRing(pages, leftmost, level, trueRoot, n, c, r)
  {
    var m := |pages| + 1;
    assert WalksFor(pages, leftmost, level, trueRoot, n, m);
    c :| |c| == m && Prefix(pages, leftmost, level, trueRoot, n, c);
    forall b | b in c ensures b in pages.Keys {
      var i :| 0 <= i < m && c[i] == b;
      PrefixLoads(pages, leftmost, level, trueRoot, n, c, i);
    }
    var i, j := Revisits(c, pages.Keys);
    PrefixCut(pages, leftmost, level, trueRoot, n, c, j + 1);
    c, r := c[..j + 1], i;
  }

  /** Exactly when the walk does not end: nothing is reported on the way, and either the
      walk comes back to a block, or the search to the right of one does. */
  lemma NeverEndsIff(pages: Pages, leftmost: nat, level: nat, trueRoot: bool, n: nat)
    ensures NeverEnds(pages, leftmost, level, trueRoot, n) <==>
      || (exists c, r :: WalkRing(pages, leftmost, level, trueRoot, n, c, r))
      || (exists c, d, r :: SearchRing(pages, leftmost, level, trueRoot, n, c, d, r))
  {
    if forall k: nat :: WalksFor(pages, leftmost, level, trueRoot, n, k) {
      var c, r := WalksIntoRing(pages, leftmost, level, trueRoot, n);
    }
    if c :| HangsAfter(pages, leftmost, level, trueRoot, n, c) {
      var p := pages[Upcoming(pages, leftmost, c)];
      SkipsForeverIff(pages, p);
      var d, r :| SkipRing(pages, p, d, r);
      assert SearchRing(pages, leftmost, level, trueRoot, n, c, d, r);
    }
    if c, r :| WalkRing(pages, leftmost, level, trueRoot, n, c, r) {
      forall k: nat ensures WalksFor(pages, leftmost, level, trueRoot, n, k) {
        RingWalks(pages, leftmost, level, trueRoot, n, c, r, k);
      }
    }
    if c, d, r :| SearchRing(pages, leftmost, level, trueRoot, n, c, d, r) {
      SkipsForeverIff(pages, pages[Upcoming(pages, leftmost, c)]);
      assert HangsAfter(pages, leftmost, level, trueRoot, n, c);
    }
  }

  /** A ring the walk can pass holds a half-dead page: live pages alone are caught by
      their left links. */
  lemma {:induction false} RingHasHalfDead(pages: Pages, leftmost: nat, level: nat, trueRoot: bool, n: nat, c: seq<nat>, r: nat, m: nat) returns (h: nat)
    requires Prefix(pages, leftmost, level, trueRoot, n, c) && r < m < |c| && c[r] == c[m]
    ensures r <= h < m && c[h] in pages && pages[c[h]].halfDead
  {
    assert PassedAt(pages, level, trueRoot, n, c, r) && PassedAt(pages, level, trueRoot, n, c, m);
    PrefixLoads(pages, leftmost, level, trueRoot, n, c, m - 1);
    if pages[c[r]].halfDead {
      return r;
    }
    if pages[c[m - 1]].halfDead {
      return m - 1;
    }
    assert pages[c[r]].prev == c[m - 1];
    if r == 0 {
      LeftmostNeighbour(pages, c[0]);
      assert false;
    } else {
      PrefixLoads(pages, leftmost, level, trueRoot, n, c, r - 1);
      assert c[r - 1] == c[m - 1];
      h := RingHasHalfDead(pages, leftmost, level, trueRoot, n, c, r - 1, m - 1);
      assert h != r - 1;
    }
  }

  /** A cycle of right links that can be reached from leftmost and holds an ignorable
      page. */
  predicate IgnorableRing(pages: Pages, leftmost: nat, c: seq<nat>, r: nat, h: nat)
  {
    && RightPath(pages, c) && r <= h < |c| - 1 && c[0] == leftmost && c[r] == c[|c| - 1]
    && c[h] in pages && Ignorable(pages[c[h]])
  }

  lemma PathsJoin(pages: Pages, a: seq<nat>, b: seq<nat>)
    requires RightPath(pages, a) && RightPath(pages, b) && a != [] && b != []
    requires a[|a| - 1] in pages && pages[a[|a| - 1]].next == b[0]
    ensures RightPath(pages, a + b)
  {
    var s := a + b;
    forall i | 0 < i < |s| ensures RightOf(pages, s, i) {
      if i < |a| {
        assert RightOf(pages, a, i);
      } else if i > |a| {
        assert RightOf(pages, b, i - |a|);
      }
    }
  }

  /** Without such a cycle the walk ends. */
  lemma EndsWithoutRing(pages: Pages, leftmost: nat, level: nat, trueRoot: bool, n: nat)
    requires forall c, r, h :: !IgnorableRing(pages, leftmost, c, r, h)
    ensures !NeverEnds(pages, leftmost, level, trueRoot, n)
  {
    NeverEndsIff(pages, leftmost, level, trueRoot, n);
    if c, r :| WalkRing(pages, leftmost, level, trueRoot, n, c, r) {
      var h := RingHasHalfDead(pages, leftmost, level, trueRoot, n, c, r, |c| - 1);
      assert IgnorableRing(pages, leftmost, c, r, h);
    }
    if c, d, r :| SearchRing(pages, leftmost, level, trueRoot, n, c, d, r) {
      var blk := Upcoming(pages, leftmost, c);
      var e := c + [blk];
      PathGrows(pages, c, blk);
      assert e[|e| - 1] == blk && SkipPath(pages, pages[blk], d);
      PathsJoin(pages, e, d);
      assert Skipped(pages, d[r]);
      assert IgnorableRing(pages, leftmost, e + d, |e| + r, |e| + r);
    }
  }
}
