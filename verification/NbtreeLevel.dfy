/** Checking a whole B-tree level, and what acceptance says about it. */
module NbtreeLevel {
  import opened Optional
  import opened LexOrder
  import opened NbtreeKey
  import opened NbtreePage
  import opened NbtreeWalk

  /** Where the next level starts: the first downlink of the first live page. */
  predicate StartsAt(pages: Pages, c: seq<nat>, down: nat)
  {
    exists f :: 0 <= f < |c| && NoneLive(pages, c, f) && FirstDown(pages, c[f], down)
  }

  predicate FirstDown(pages: Pages, blk: nat, down: nat)
  {
    && blk in pages && !pages[blk].halfDead
    && if pages[blk].leaf then down == NONE else pages[blk].items != [] && down == pages[blk].items[0].down
  }

  /** bt_check_level_from_leftmost, wherever it ends.  It returns the blocks it passed
      and where the next level starts. */
  method CheckLevel(pages: Pages, leftmost: nat, level: nat, trueRoot: bool, n: nat)
    returns (ok: bool, down: nat, chain: seq<nat>)
    requires !NeverEnds(pages, leftmost, level, trueRoot, n)
    ensures ok ==> Level(pages, leftmost, level, trueRoot, n, chain) && StartsAt(pages, chain, down)
    ensures !ok ==> forall c :: !Level(pages, leftmost, level, trueRoot, n, c)
  {
    ghost var k: nat :| !WalksFor(pages, leftmost, level, trueRoot, n, k);
    var left, current, first := NONE, leftmost, true;
    down, chain := NONE, [];
    var more := true;
    while more
      invariant Prefix(pages, leftmost, level, trueRoot, n, chain) && (chain != [] ==> chain[|chain| - 1] in pages)
      invariant left == LeftOf(chain, |chain|) && current == Upcoming(pages, leftmost, chain)
      invariant first == NoneLive(pages, chain, |chain|) && (!first ==> StartsAt(pages, chain, down))
      invariant more <==> chain == [] || current != NONE
      decreases k - |chain|
    {
      assert !HangsAfter(pages, leftmost, level, trueRoot, n, chain);
      ok := CheckRound(pages, level, trueRoot, n, left, current, first);
      if !ok {
        NoLevelPast(pages, leftmost, level, trueRoot, n, chain);
        return;
      }
      ExtendPrefix(pages, leftmost, level, trueRoot, n, chain);
      WalkBound(pages, leftmost, level, trueRoot, n, chain + [current], k);
      if first && !pages[current].halfDead {
        down := if pages[current].leaf then NONE else pages[current].items[0].down;
      }
      StartsNext(pages, chain, current, first, down);
      first := first && pages[current].halfDead;
      chain := chain + [current];
      left, current := current, pages[current].next;
      more := current != NONE;
    }
    LastIsLive(pages, leftmost, level, trueRoot, n, chain);
    ok := true;
  }

  /** Block i of the level in its place: its links, what a page may be at all, and for
      live pages the level and the way back; the first live page is leftmost but for
      half-dead ones, and on the true root level a root or half of its split. */
  ghost predicate Standing(pages: Pages, level: nat, trueRoot: bool, c: seq<nat>, i: nat)
    requires i < |c|
  {
    && c[i] in pages && c[i] != 0 && (i > 0 ==> c[i - 1] != c[i])
    && var p := pages[c[i]];
       && !p.deleted && p.prev != c[i] && p.next == (if i + 1 < |c| then c[i + 1] else 0)
       && (p.leaf <==> p.level == 0) && (!p.leaf ==> p.items != [] && !p.halfDead)
       && (p.halfDead ==> i + 1 < |c|)
       && (!p.halfDead ==> p.level == level && (i > 0 ==> p.prev == c[i - 1]))
       && (!p.halfDead && (forall k :: 0 <= k < i ==> c[k] in pages && pages[c[k]].halfDead) ==>
             LeftmostOK(pages, c[i]) && (trueRoot ==> p.root || p.incomplete))
  }

  /** A level is accepted exactly when every block stands in its place and every live
      page is good before the first item to its right. */
  lemma LevelIs(pages: Pages, leftmost: nat, level: nat, trueRoot: bool, n: nat, c: seq<nat>)
    ensures Level(pages, leftmost, level, trueRoot, n, c) <==>
      && c != [] && c[0] == leftmost
      && (forall i :: 0 <= i < |c| ==> Standing(pages, level, trueRoot, c, i))
      && (forall i :: 0 <= i < |c| && c[i] in pages && !pages[c[i]].halfDead ==> PagePasses(pages, pages[c[i]], n))
  {
    if Level(pages, leftmost, level, trueRoot, n, c) {
      forall i | 0 <= i < |c| ensures Standing(pages, level, trueRoot, c, i) {
        StandsAccepted(pages, leftmost, level, trueRoot, n, c, i);
      }
      forall i | 0 <= i < |c| && c[i] in pages && !pages[c[i]].halfDead ensures PagePasses(pages, pages[c[i]], n) {
        assert PassedAt(pages, level, trueRoot, n, c, i);
      }
    }
    if c != [] && c[0] == leftmost && (forall i :: 0 <= i < |c| ==> Standing(pages, level, trueRoot, c, i))
       && (forall i :: 0 <= i < |c| && c[i] in pages && !pages[c[i]].halfDead ==> PagePasses(pages, pages[c[i]], n)) {
      forall i | 0 < i < |c| ensures RightOf(pages, c, i) {
        assert Standing(pages, level, trueRoot, c, i - 1);
      }
      forall i | 0 <= i < |c| ensures PassedAt(pages, level, trueRoot, n, c, i) {
        assert Standing(pages, level, trueRoot, c, i);
        assert i + 1 < |c| ==> Standing(pages, level, trueRoot, c, i + 1);
      }
      assert Standing(pages, level, trueRoot, c, |c| - 1);
    }
  }

  lemma StandsAccepted(pages: Pages, leftmost: nat, level: nat, trueRoot: bool, n: nat, c: seq<nat>, i: nat)
    requires Level(pages, leftmost, level, trueRoot, n, c) && i < |c|
    ensures Standing(pages, level, trueRoot, c, i)
  {
    assert PassedAt(pages, level, trueRoot, n, c, i);
    PrefixLoads(pages, leftmost, level, trueRoot, n, c, i);
    if i > 0 {
      PrefixLoads(pages, leftmost, level, trueRoot, n, c, i - 1);
    }
  }

  /** Block i is the first of the level that is not half-dead. */
  predicate FirstLive(pages: Pages, c: seq<nat>, i: nat)
  {
    i < |c| && c[i] in pages && !pages[c[i]].halfDead && forall k :: 0 <= k < i ==> c[k] in pages && pages[c[k]].halfDead
  }

  /** On the true root level just one thing more is asked: the first live page claims to
      be the root or to be split incompletely. */
  lemma RootFlagDecides(pages: Pages, leftmost: nat, level: nat, n: nat, c: seq<nat>)
    requires Level(pages, leftmost, level, false, n, c)
    ensures Level(pages, leftmost, level, true, n, c) <==>
      exists i: nat :: FirstLive(pages, c, i) && (pages[c[i]].root || pages[c[i]].incomplete)
  {
    hide Standing, PagePasses, Level;
    LevelIs(pages, leftmost, level, false, n, c);
    LevelIs(pages, leftmost, level, true, n, c);
    var f := SomeLive(pages, leftmost, level, false, n, c);
    forall i | 0 <= i < |c|
      ensures Standing(pages, level, true, c, i) <==> Standing(pages, level, false, c, i) && RootIfFirst(pages, c, i)
    {
      StandingTrue(pages, level, c, i);
    }
    forall i: nat | FirstLive(pages, c, i) ensures i == f {
    }
    assert forall i :: 0 <= i < |c| ==> Standing(pages, level, false, c, i);
    assert RootIfFirst(pages, c, f) <==> pages[c[f]].root || pages[c[f]].incomplete;
    assert Standing(pages, level, true, c, f) <==> RootIfFirst(pages, c, f);
  }

  predicate RootIfFirst(pages: Pages, c: seq<nat>, i: nat)
  {
    FirstLive(pages, c, i) ==> pages[c[i]].root || pages[c[i]].incomplete
  }

  lemma StandingTrue(pages: Pages, level: nat, c: seq<nat>, i: nat)
    requires i < |c|
    ensures Standing(pages, level, true, c, i) <==> Standing(pages, level, false, c, i) && RootIfFirst(pages, c, i)
  {
  }

  /** The rightmost page is live, so there is a first one. */
  lemma SomeLive(pages: Pages, leftmost: nat, level: nat, trueRoot: bool, n: nat, c: seq<nat>) returns (f: nat)
    requires Level(pages, leftmost, level, trueRoot, n, c)
    ensures FirstLive(pages, c, f)
  {
    StandsAccepted(pages, leftmost, level, trueRoot, n, c, |c| - 1);
    f := FirstFrom(pages, leftmost, level, trueRoot, n, c, 0);
  }

  lemma {:induction false} FirstFrom(pages: Pages, leftmost: nat, level: nat, trueRoot: bool, n: nat, c: seq<nat>, k: nat) returns (f: nat)
    requires Level(pages, leftmost, level, trueRoot, n, c) && k < |c|
    requires forall j :: 0 <= j < k ==> c[j] in pages && pages[c[j]].halfDead
    ensures FirstLive(pages, c, f)
    decreases |c| - k
  {
    StandsAccepted(pages, leftmost, level, trueRoot, n, c, k);
    if pages[c[k]].halfDead {
      f := FirstFrom(pages, leftmost, level, trueRoot, n, c, k + 1);
    } else {
      f := k;
    }
  }

  lemma WalkBound(pages: Pages, leftmost: nat, level: nat, trueRoot: bool, n: nat, c: seq<nat>, k: nat)
    requires Prefix(pages, leftmost, level, trueRoot, n, c)
    ensures k <= |c| ==> WalksFor(pages, leftmost, level, trueRoot, n, k)
  {
    if k <= |c| {
      PrefixCut(pages, leftmost, level, trueRoot, n, c, k);
      assert |c[..k]| == k;
    }
  }

  lemma StartsNext(pages: Pages, c: seq<nat>, blk: nat, first: bool, down: nat)
    requires first == NoneLive(pages, c, |c|) && blk in pages
    requires if first && !pages[blk].halfDead then FirstDown(pages, blk, down) else !first ==> StartsAt(pages, c, down)
    ensures NoneLive(pages, c + [blk], |c| + 1) == (first && pages[blk].halfDead)
    ensures !(first && pages[blk].halfDead) ==> StartsAt(pages, c + [blk], down)
  {
    var d := c + [blk];
    assert d[|c|] == blk;
    NoneLiveSame(pages, c, d, |c|);
    if !first {
      var f :| 0 <= f < |c| && NoneLive(pages, c, f) && FirstDown(pages, c[f], down);
      NoneLiveSame(pages, c, d, f);
      assert d[f] == c[f];
    }
  }

  /** A half-dead page has a right sibling, so the rightmost one is live. */
  lemma LastIsLive(pages: Pages, leftmost: nat, level: nat, trueRoot: bool, n: nat, c: seq<nat>)
    requires Level(pages, leftmost, level, trueRoot, n, c)
    ensures !NoneLive(pages, c, |c|)
  {
    assert PassedAt(pages, level, trueRoot, n, c, |c| - 1);
  }

  /** A round that reports leaves no acceptable level. */
  lemma NoLevelPast(pages: Pages, leftmost: nat, level: nat, trueRoot: bool, n: nat, c: seq<nat>)
    requires Prefix(pages, leftmost, level, trueRoot, n, c) && (c != [] ==> c[|c| - 1] in pages)
    requires c == [] || Upcoming(pages, leftmost, c) != NONE
    requires !Passed(pages, level, trueRoot, n, LeftOf(c, |c|), Upcoming(pages, leftmost, c), NoneLive(pages, c, |c|))
    ensures forall d :: !Level(pages, leftmost, level, trueRoot, n, d)
  {
    forall d | Prefix(pages, leftmost, level, trueRoot, n, d) ensures !Level(pages, leftmost, level, trueRoot, n, d) {
      if |d| > |c| {
        TooFar(pages, leftmost, level, trueRoot, n, c, d);
      } else if d != [] {
        PrefixesAgree(pages, leftmost, level, trueRoot, n, c, d, |d| - 1);
        PrefixLoads(pages, leftmost, level, trueRoot, n, c, |d| - 1);
      }
    }
  }

  lemma TooFar(pages: Pages, leftmost: nat, level: nat, trueRoot: bool, n: nat, c: seq<nat>, d: seq<nat>)
    requires Prefix(pages, leftmost, level, trueRoot, n, c) && (c != [] ==> c[|c| - 1] in pages)
    requires Prefix(pages, leftmost, level, trueRoot, n, d) && |c| < |d|
    ensures Passed(pages, level, trueRoot, n, LeftOf(c, |c|), Upcoming(pages, leftmost, c), NoneLive(pages, c, |c|))
  {
    var m := |c|;
    forall i | 0 <= i < m ensures c[i] == d[i] {
      PrefixesAgree(pages, leftmost, level, trueRoot, n, c, d, i);
    }
    NoneLiveSame(pages, c, d, m);
    assert PassedAt(pages, level, trueRoot, n, d, m);
    assert m > 0 ==> RightOf(pages, d, m);
  }

  // ------------------------------------------------------ an accepted level

  lemma {:induction false} LevelApart(pages: Pages, leftmost: nat, level: nat, trueRoot: bool, n: nat, c: seq<nat>, i: nat, j: nat)
    requires Level(pages, leftmost, level, trueRoot, n, c) && i < j < |c|
    ensures c[i] != c[j]
    decreases |c| - j
  {
    PrefixLoads(pages, leftmost, level, trueRoot, n, c, i);
    PrefixLoads(pages, leftmost, level, trueRoot, n, c, j);
    if j + 1 < |c| {
      LevelApart(pages, leftmost, level, trueRoot, n, c, i + 1, j + 1);
    }
  }

  /** An accepted walk passes no block twice, so it ends within the block count. */
  lemma WalkIsBounded(pages: Pages, leftmost: nat, level: nat, trueRoot: bool, n: nat, c: seq<nat>)
    requires Level(pages, leftmost, level, trueRoot, n, c)
    ensures Distinct(c) && |c| <= |pages|
  {
    forall i, j | 0 <= i < j < |c| ensures c[i] != c[j] {
      LevelApart(pages, leftmost, level, trueRoot, n, c, i, j);
    }
    forall b | b in c ensures b in pages.Keys {
      var i :| 0 <= i < |c| && c[i] == b;
      PrefixLoads(pages, leftmost, level, trueRoot, n, c, i);
    }
    DistinctFits(c, pages.Keys);
  }

  /** A live page of the level is good, against some item to its right or none. */
  lemma LiveIsGood(pages: Pages, leftmost: nat, level: nat, trueRoot: bool, n: nat, c: seq<nat>, i: nat) returns (right: Option<Tuple>)
    requires Prefix(pages, leftmost, level, trueRoot, n, c) && i < |c| && c[i] in pages && !pages[c[i]].halfDead
    ensures pages[c[i]].level == level && (pages[c[i]].leaf <==> level == 0) && !pages[c[i]].deleted
    ensures RightKeyIs(pages, pages[c[i]], right) && PageGood(pages[c[i]], n, right)
  {
    assert PassedAt(pages, level, trueRoot, n, c, i);
    right :| RightKeyIs(pages, pages[c[i]], right) && PageGood(pages[c[i]], n, right);
  }

  // ------------------------------------------------------ order of the leaf level

  /** The live pages among the first m. */
  function Live(pages: Pages, c: seq<nat>, m: nat): seq<nat>
    requires m <= |c|
  {
    if m == 0 then []
    else if c[m - 1] in pages && !pages[c[m - 1]].halfDead then Live(pages, c, m - 1) + [c[m - 1]]
    else Live(pages, c, m - 1)
  }

  /** Good leaves with items, each checked against the next one's first item. */
  ghost predicate LeafRun(pages: Pages, n: nat, l: seq<nat>)
  {
    && (forall i :: 0 <= i < |l| ==> GoodLeaf(pages, n, l[i]))
    && (forall i :: 0 < i < |l| ==> GoodSeam(pages, n, l, i))
  }

  ghost predicate GoodLeaf(pages: Pages, n: nat, b: nat)
  {
    b in pages && pages[b].leaf && pages[b].items != [] && exists right :: PageGood(pages[b], n, right)
  }

  predicate GoodSeam(pages: Pages, n: nat, l: seq<nat>, i: nat)
    requires 0 < i < |l|
  {
    && l[i - 1] in pages && l[i] in pages && pages[l[i]].items != []
    && PageGood(pages[l[i - 1]], n, Some(pages[l[i]].items[0].key))
  }

  /** Every live page of the level has an item. */
  predicate AllHaveItems(pages: Pages, c: seq<nat>)
  {
    forall i :: 0 <= i < |c| ==> c[i] in pages && (!pages[c[i]].halfDead ==> pages[c[i]].items != [])
  }

  /** The last live page before m, with half-dead ones after it. */
  lemma {:induction false} LastLive(pages: Pages, c: seq<nat>, m: nat) returns (i: nat)
    requires m <= |c| && Live(pages, c, m) != []
    ensures i < m && Live(pages, c, m)[|Live(pages, c, m)| - 1] == c[i] && c[i] in pages && !pages[c[i]].halfDead
    ensures forall k :: i < k < m ==> !(c[k] in pages && !pages[c[k]].halfDead)
  {
    if c[m - 1] in pages && !pages[c[m - 1]].halfDead {
      i := m - 1;
    } else {
      i := LastLive(pages, c, m - 1);
    }
  }

  /** A live leaf is checked against the next live one. */
  lemma SeamIsGood(pages: Pages, leftmost: nat, trueRoot: bool, n: nat, c: seq<nat>, i: nat, j: nat)
    requires Prefix(pages, leftmost, 0, trueRoot, n, c) && AllHaveItems(pages, c) && i < j < |c|
    requires !pages[c[i]].halfDead && !pages[c[j]].halfDead && forall k :: i < k < j ==> pages[c[k]].halfDead
    ensures PageGood(pages[c[i]], n, Some(pages[c[j]].items[0].key))
  {
    var p, d := pages[c[i]], c[i + 1..j + 1];
    var right := LiveIsGood(pages, leftmost, 0, trueRoot, n, c, i);
    var _ := LiveIsGood(pages, leftmost, 0, trueRoot, n, c, j);
    PrefixLoads(pages, leftmost, 0, trueRoot, n, c, i);
    PrefixLoads(pages, leftmost, 0, trueRoot, n, c, j);
    SkipsBetween(pages, leftmost, trueRoot, n, c, i, j);
    var e :| SkipEnd(pages, p, e) && Loads(pages, e[|e| - 1]) && right == FirstReal(pages[e[|e| - 1]]);
    SkipEndsAgree(pages, p, d, e);
    assert d[|d| - 1] == c[j];
  }

  lemma SkipsBetween(pages: Pages, leftmost: nat, trueRoot: bool, n: nat, c: seq<nat>, i: nat, j: nat)
    requires Prefix(pages, leftmost, 0, trueRoot, n, c) && i < j < |c| && c[i] in pages && c[j] in pages
    requires forall k :: i < k < j ==> c[k] in pages && pages[c[k]].halfDead
    requires !pages[c[j]].halfDead
    ensures SkipEnd(pages, pages[c[i]], c[i + 1..j + 1])
  {
    var d := c[i + 1..j + 1];
    forall k | 0 < k < |d| ensures RightOf(pages, d, k) {
      assert RightOf(pages, c, i + 1 + k);
    }
    forall k | 0 <= k < |d| - 1 ensures Skipped(pages, d[k]) {
      PrefixLoads(pages, leftmost, 0, trueRoot, n, c, i + 1 + k);
      assert PassedAt(pages, 0, trueRoot, n, c, i + 1 + k);
    }
    PrefixLoads(pages, leftmost, 0, trueRoot, n, c, i);
    assert PassedAt(pages, 0, trueRoot, n, c, j);
  }

  lemma {:induction false} LiveRun(pages: Pages, leftmost: nat, trueRoot: bool, n: nat, c: seq<nat>, m: nat)
    requires Prefix(pages, leftmost, 0, trueRoot, n, c) && AllHaveItems(pages, c) && m <= |c|
    ensures LeafRun(pages, n, Live(pages, c, m))
  {
    if m > 0 {
      LiveRun(pages, leftmost, trueRoot, n, c, m - 1);
      if !pages[c[m - 1]].halfDead {
        var l := Live(pages, c, m - 1);
        var right := LiveIsGood(pages, leftmost, 0, trueRoot, n, c, m - 1);
        if l != [] {
          var i := LastLive(pages, c, m - 1);
          SeamIsGood(pages, leftmost, trueRoot, n, c, i, m - 1);
        }
        RunGrows(pages, n, l, c[m - 1]);
      }
    }
  }

  lemma RunGrows(pages: Pages, n: nat, l: seq<nat>, b: nat)
    requires LeafRun(pages, n, l) && GoodLeaf(pages, n, b)
    requires l != [] ==> PageGood(pages[l[|l| - 1]], n, Some(pages[b].items[0].key))
    ensures LeafRun(pages, n, l + [b])
  {
    var s := l + [b];
    forall i | 0 < i < |s| ensures GoodSeam(pages, n, s, i) {
      assert i < |l| ==> GoodSeam(pages, n, l, i);
      assert GoodLeaf(pages, n, s[i - 1]);
    }
  }

  /** The keys of some leaves, left to right. */
  function KeysOf(pages: Pages, l: seq<nat>, m: nat): seq<seq<int>>
    requires m <= |l| && forall i :: 0 <= i < |l| ==> l[i] in pages
  {
    if m == 0 then [] else KeysOf(pages, l, m - 1) + Keys(pages[l[m - 1]])
  }

  lemma LastBeforeRight(p: Page, q: Page, n: nat, right: Option<Tuple>)
    requires p.leaf && q.leaf && p.items != [] && q.items != []
    requires PageGood(p, n, Some(q.items[0].key)) && PageGood(q, n, right)
    ensures Lt(Low(p.items[|p.items| - 1].key), Low(q.items[0].key))
  {
    var last, first := p.items[|p.items| - 1].key, q.items[0].key;
    assert ItemGood(p, n, |p.items| - 1, Some(first)) && ItemGood(q, n, 0, right);
    GreaterIffLt(first, last, n);
    LowLeHigh(last);
    LeTrans(Low(last), High(last), Low(first));
  }

  lemma PageAscends(p: Page, n: nat, right: Option<Tuple>)
    requires p.leaf && PageGood(p, n, right)
    ensures AllAscend(Keys(p))
  {
    forall k | 0 <= k < |Keys(p)| - 1 ensures Ascends(Keys(p), k) {
      GoodAscends(p, n, right, k);
    }
  }

  lemma EndKeys(p: Page)
    requires p.items != []
    ensures Keys(p) != [] && Keys(p)[0] == Low(p.items[0].key)
    ensures Keys(p)[|Keys(p)| - 1] == Low(p.items[|p.items| - 1].key)
  {
  }

  lemma LastKeyOf(pages: Pages, l: seq<nat>, m: nat)
    requires 0 < m <= |l| && (forall i :: 0 <= i < |l| ==> l[i] in pages) && pages[l[m - 1]].items != []
    ensures var ks, p := KeysOf(pages, l, m), pages[l[m - 1]];
      ks != [] && ks[|ks| - 1] == Low(p.items[|p.items| - 1].key)
  {
    EndKeys(pages[l[m - 1]]);
  }

  /** The keys on the two sides of a page boundary are in order. */
  lemma SeamAscends(pages: Pages, n: nat, l: seq<nat>, m: nat)
    requires LeafRun(pages, n, l) && 0 < m < |l| && forall i :: 0 <= i < |l| ==> l[i] in pages
    ensures var a, b := KeysOf(pages, l, m), Keys(pages[l[m]]);
      a != [] && b != [] && Lt(a[|a| - 1], b[0])
  {
    var p, q := pages[l[m - 1]], pages[l[m]];
    assert GoodLeaf(pages, n, l[m - 1]) && GoodLeaf(pages, n, l[m]) && GoodSeam(pages, n, l, m);
    var right :| PageGood(q, n, right);
    LastBeforeRight(p, q, n, right);
    LastKeyOf(pages, l, m);
    EndKeys(q);
  }

  /** Neighbours along the whole run are in order. */
  lemma {:induction false} RunAscends(pages: Pages, n: nat, l: seq<nat>, m: nat)
    requires LeafRun(pages, n, l) && m <= |l| && forall i :: 0 <= i < |l| ==> l[i] in pages
    ensures AllAscend(KeysOf(pages, l, m))
  {
    if m > 0 {
      RunAscends(pages, n, l, m - 1);
      assert GoodLeaf(pages, n, l[m - 1]);
      var right :| PageGood(pages[l[m - 1]], n, right);
      PageAscends(pages[l[m - 1]], n, right);
      if m > 1 {
        SeamAscends(pages, n, l, m - 1);
      }
      AscendJoin(KeysOf(pages, l, m - 1), Keys(pages[l[m - 1]]));
    }
  }

  lemma {:induction false} LiveInPages(pages: Pages, c: seq<nat>, m: nat)
    requires m <= |c|
    ensures forall i :: 0 <= i < |Live(pages, c, m)| ==> Live(pages, c, m)[i] in pages
  {
    if m > 0 {
      LiveInPages(pages, c, m - 1);
    }
  }

  /** All keys of the level's live leaves. */
  function LevelKeys(pages: Pages, c: seq<nat>): seq<seq<int>>
  {
    var l := Live(pages, c, |c|);
    LiveInPages(pages, c, |c|);
    KeysOf(pages, l, |l|)
  }

  /** If every live leaf has an item, acceptance puts the whole leaf level in strictly
      increasing key order. */
  lemma LeafLevelSorted(pages: Pages, leftmost: nat, trueRoot: bool, n: nat, c: seq<nat>, i: nat, j: nat)
    requires Level(pages, leftmost, 0, trueRoot, n, c) && AllHaveItems(pages, c)
    requires i < j < |LevelKeys(pages, c)|
    ensures Lt(LevelKeys(pages, c)[i], LevelKeys(pages, c)[j])
  {
    var l := Live(pages, c, |c|);
    LiveInPages(pages, c, |c|);
    LiveRun(pages, leftmost, trueRoot, n, c, |c|);
    RunAscends(pages, n, l, |l|);
    NeighboursSort(LevelKeys(pages, c), i, j);
  }

  lemma {:induction false} LiveGrows(pages: Pages, c: seq<nat>, x: nat, m: nat)
    requires x <= m <= |c|
    ensures Live(pages, c, x) <= Live(pages, c, m)
  {
    if x < m {
      LiveGrows(pages, c, x, m - 1);
    }
  }

  lemma {:induction false} KeysGrow(pages: Pages, l: seq<nat>, k: nat, m: nat)
    requires k <= m <= |l| && forall i :: 0 <= i < |l| ==> l[i] in pages
    ensures KeysOf(pages, l, k) <= KeysOf(pages, l, m)
  {
    if k < m {
      KeysGrow(pages, l, k, m - 1);
    }
  }

  lemma LiveAt(pages: Pages, c: seq<nat>, x: nat)
    requires x < |c| && c[x] in pages && !pages[c[x]].halfDead
    ensures |Live(pages, c, x)| < |Live(pages, c, |c|)| && Live(pages, c, |c|)[|Live(pages, c, x)|] == c[x]
  {
    LiveGrows(pages, c, x + 1, |c|);
    assert Live(pages, c, x + 1)[|Live(pages, c, x)|] == c[x];
  }

  lemma KeyOfPage(pages: Pages, l: seq<nat>, k: nat, i: nat)
    requires k < |l| && (forall j :: 0 <= j < |l| ==> l[j] in pages) && i < |pages[l[k]].items|
    ensures var pos := |KeysOf(pages, l, k)| + i;
      && pos < |KeysOf(pages, l, k + 1)| <= |KeysOf(pages, l, |l|)|
      && KeysOf(pages, l, |l|)[pos] == Low(pages[l[k]].items[i].key)
  {
    KeysGrow(pages, l, k + 1, |l|);
    assert KeysOf(pages, l, k + 1)[|KeysOf(pages, l, k)| + i] == Keys(pages[l[k]])[i];
  }

  /** Where item i of live block x stands among the level's keys: after those of the live
      blocks before it. */
  lemma KeyAt(pages: Pages, c: seq<nat>, x: nat, i: nat) returns (k: nat, pos: nat)
    requires x < |c| && c[x] in pages && !pages[c[x]].halfDead && i < |pages[c[x]].items|
    ensures k == |Live(pages, c, x)| < |Live(pages, c, |c|)|
    ensures forall j :: 0 <= j < |Live(pages, c, |c|)| ==> Live(pages, c, |c|)[j] in pages
    ensures pos == |KeysOf(pages, Live(pages, c, |c|), k)| + i < |LevelKeys(pages, c)|
    ensures pos < |KeysOf(pages, Live(pages, c, |c|), k + 1)|
    ensures LevelKeys(pages, c)[pos] == Low(pages[c[x]].items[i].key)
  {
    hide Live, KeysOf, Keys;
    var l := Live(pages, c, |c|);
    LiveInPages(pages, c, |c|);
    LiveAt(pages, c, x);
    k := |Live(pages, c, x)|;
    KeyOfPage(pages, l, k, i);
    pos := |KeysOf(pages, l, k)| + i;
  }

  /** Said item by item: of two items on live leaves of an accepted level, the one further
      left has the smaller key. */
  lemma LeafItemsSorted(pages: Pages, leftmost: nat, trueRoot: bool, n: nat, c: seq<nat>, x: nat, i: nat, y: nat, j: nat)
    requires Level(pages, leftmost, 0, trueRoot, n, c) && AllHaveItems(pages, c)
    requires x < |c| && c[x] in pages && !pages[c[x]].halfDead && i < |pages[c[x]].items|
    requires y < |c| && c[y] in pages && !pages[c[y]].halfDead && j < |pages[c[y]].items|
    requires x < y || (x == y && i < j)
    ensures Lt(Low(pages[c[x]].items[i].key), Low(pages[c[y]].items[j].key))
  {
    var k, a := KeyAt(pages, c, x, i);
    var m, b := KeyAt(pages, c, y, j);
    if x < y {
      LiveGrows(pages, c, x + 1, y);
      KeysGrow(pages, Live(pages, c, |c|), k + 1, m);
    }
    LeafLevelSorted(pages, leftmost, trueRoot, n, c, a, b);
  }

  /** Where the next level starts: with the first downlink of the first live page. */
  lemma StartsIs(pages: Pages, c: seq<nat>, down: nat, f: nat)
    requires StartsAt(pages, c, down) && FirstLive(pages, c, f)
    ensures if pages[c[f]].leaf then down == 0 else pages[c[f]].items != [] && down == pages[c[f]].items[0].down
  {
    var g :| 0 <= g < |c| && NoneLive(pages, c, g) && FirstDown(pages, c[g], down);
    assert g == f;
  }

  // ------------------------------------------------------ levels that never end

  /** A live leaf between half-dead ones in a ring: the walk passes it again and again. */
  lemma MixedRing() returns (pages: Pages)
    ensures NeverEnds(pages, 2, 0, false, 1)
    ensures 4 in pages && !Ignorable(pages[4])
  {
    var leaf := Page(true, 0, NONE, NONE, false, false, false, false, Tuple([0], []), NONE, []);
    pages := map[2 := leaf.(next := 3), 3 := leaf.(prev := 2, next := 4, halfDead := true), 4 := leaf.(prev := 3, next := 3)];
    var c := [2, 3, 4, 3];
    assert LeftmostBut(pages, 2, [2]);
    assert RightKeyIs(pages, pages[2], None) && RightKeyIs(pages, pages[4], None);
    assert PageGood(pages[2], 1, None) && PageGood(pages[4], 1, None);
    forall i | 0 <= i < |c| ensures PassedAt(pages, 0, false, 1, c, i) {
      assert i > 0 ==> !NoneLive(pages, c, i) by {
        assert c[0] == 2;
      }
    }
    forall i | 0 < i < |c| ensures RightOf(pages, c, i) {
    }
    assert WalkRing(pages, 2, 0, false, 1, c, 1);
    NeverEndsIff(pages, 2, 0, false, 1);
  }

  /** Deleted pages in a ring to the right of a leaf: the search for the next item goes
      round, though no page is half-dead. */
  lemma DeletedRing() returns (pages: Pages)
    ensures NeverEnds(pages, 2, 0, false, 1)
    ensures forall b :: b in pages ==> !pages[b].halfDead
  {
    var leaf := Page(true, 0, NONE, NONE, false, false, false, false, Tuple([5], []), NONE, []);
    pages := map[2 := leaf.(next := 3, items := [Item(Tuple([1], [7]), 0)]), 3 := leaf.(next := 4, deleted := true), 4 := leaf.(next := 3, deleted := true)];
    var d := [3, 4, 3];
    assert LeftmostBut(pages, 2, [2]);
    forall i | 0 < i < |d| ensures RightOf(pages, d, i) {
    }
    assert ItemGood(pages[2], 1, 0, None);
    assert SkipRing(pages, pages[2], d, 0);
    assert SearchRing(pages, 2, 0, false, 1, [], d, 0);
    NeverEndsIff(pages, 2, 0, false, 1);
  }
}
