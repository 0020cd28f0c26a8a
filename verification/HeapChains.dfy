/** amcheck's update-chain checks on one heap page: a pass that records where each line
    pointer leads, a pass over those edges, and a pass over chain roots. */
module HeapChains {
  import opened Optional

  datatype Status = Committed | InProgress | Aborted | IsCurrent

  /** What the checks read of a tuple header: xmin, the xid that updated it (0 if
      none), where t_ctid leads, and two flags. */
  datatype Header = Header(xmin: nat, updateXid: nat, ctidBlk: nat, ctidOff: nat, hotUpdated: bool, heapOnly: bool)

  datatype LinePointer = Unused | Dead | Redirect(to: nat) | Normal(off: nat, len: nat, tup: Header)

  /** Block number, line pointers (offset o is lps[o - 1]), and for each offset the
      commit status of xmin as far as the tuple check established it. */
  datatype Page = Page(blk: nat, lps: seq<LinePointer>, status: seq<Option<Status>>)

  const BLCKSZ := 8192
  const MIN_TUPLE := 24

  predicate PageOK(p: Page) { |p.status| == |p.lps| }

  predicate Offset(p: Page, o: int) { 0 < o <= |p.lps| }

  function Lp(p: Page, o: int): LinePointer
    requires Offset(p, o)
  {
    p.lps[o - 1]
  }

  // ------------------------------------------------------- line pointers

  predicate RedirectGood(p: Page, to: int) { Offset(p, to) && Lp(p, to).Normal? }

  predicate StorageGood(l: LinePointer)
    requires l.Normal?
  {
    l.off % 8 == 0 && l.len >= MIN_TUPLE && l.off + l.len <= BLCKSZ
  }

  /** The line pointer passed its own checks. */
  predicate LpValid(p: Page, o: int)
    requires Offset(p, o)
  {
    match Lp(p, o)
    case Redirect(to) => RedirectGood(p, to)
    case Normal(_, _, _) => StorageGood(Lp(p, o))
    case _ => false
  }

  /** It is unused or dead, or it passed them: nothing to report. */
  predicate LpQuiet(p: Page, o: int)
    requires Offset(p, o)
  {
    Lp(p, o).Unused? || Lp(p, o).Dead? || LpValid(p, o)
  }

  /** The offset a valid line pointer leads to on this page, 0 if none. */
  function Successor(p: Page, o: int): (s: nat)
    requires Offset(p, o)
    ensures s == 0 || Offset(p, s)
  {
    if !LpValid(p, o) then 0
    else
      match Lp(p, o)
      case Redirect(to) => to
      case Normal(_, _, t) => if t.ctidBlk == p.blk && t.ctidOff != o && Offset(p, t.ctidOff) then t.ctidOff else 0
  }

  // ---------------------------------------------------------------- edges

  /** o leads to s as one version of a row leads to the next. */
  predicate Edge(p: Page, o: int, s: int)
    requires Offset(p, o)
  {
    && s != 0 && s == Successor(p, o) && LpValid(p, s)
    && (Lp(p, o).Redirect? ||
        (Lp(p, s).Normal? && Lp(p, o).tup.updateXid != 0 && Lp(p, o).tup.updateXid == Lp(p, s).tup.xmin))
  }

  /** What one edge must satisfy by itself.  running says which xids are in progress
      when the edge is looked at. */
  predicate EdgeGood(p: Page, running: set<nat>, o: int, s: int)
    requires PageOK(p) && Offset(p, o) && Edge(p, o, s)
  {
    if Lp(p, o).Redirect? then Lp(p, s).tup.heapOnly
    else
      && (Lp(p, o).tup.hotUpdated <==> Lp(p, s).tup.heapOnly)
      && !(p.status[o - 1] == Some(InProgress) && p.status[s - 1] == Some(Committed) && Lp(p, o).tup.xmin in running)
      && !(p.status[o - 1] == Some(Aborted) && (p.status[s - 1] == Some(InProgress) || p.status[s - 1] == Some(Committed)))
  }

  /** No other line pointer before o leads to s. */
  ghost predicate First(p: Page, o: int, s: int)
  {
    forall q :: 0 < q < o && q <= |p.lps| ==> !Edge(p, q, s)
  }

  ghost predicate ChainGood(p: Page, running: set<nat>, o: int)
    requires PageOK(p) && Offset(p, o)
  {
    forall s :: Offset(p, s) && Edge(p, o, s) ==> First(p, o, s) && EdgeGood(p, running, o, s)
  }

  predicate Counts(p: Page, o: int)
    requires PageOK(p) && Offset(p, o)
  {
    p.status[o - 1] == Some(Committed) || p.status[o - 1] == Some(InProgress)
  }

  /** A heap-only tuple known to matter is no chain's root. */
  ghost predicate RootGood(p: Page, o: int)
    requires PageOK(p) && Offset(p, o)
  {
    Counts(p, o) && Lp(p, o).Normal? && Lp(p, o).tup.heapOnly ==> exists q :: Offset(p, q) && Edge(p, q, o)
  }

  ghost predicate PageGood(p: Page, running: set<nat>)
    requires PageOK(p)
  {
    && (forall o :: Offset(p, o) ==> LpQuiet(p, o))
    && (forall o :: Offset(p, o) ==> ChainGood(p, running, o))
    && (forall o :: Offset(p, o) ==> RootGood(p, o))
  }

  // ------------------------------------------------------------ the passes

  /** Pass one: fill successor and lp_valid. */
  method RecordSuccessors(p: Page, successor: array<nat>, lpValid: array<bool>) returns (report: bool)
    requires PageOK(p) && successor.Length == lpValid.Length == |p.lps| + 1
    modifies successor, lpValid
    ensures report <==> exists o :: Offset(p, o) && !LpQuiet(p, o)
    ensures forall o :: Offset(p, o) ==> successor[o] == Successor(p, o) && lpValid[o] == LpValid(p, o)
  {
    report := false;
    var o := 1;
    while o <= |p.lps|
      invariant 1 <= o <= |p.lps| + 1
      invariant report <==> exists q :: 0 < q < o && Offset(p, q) && !LpQuiet(p, q)
      invariant forall q :: 0 < q < o ==> successor[q] == Successor(p, q) && lpValid[q] == LpValid(p, q)
    {
      successor[o], lpValid[o] := 0, false;
      match Lp(p, o) {
        case Unused =>
        case Dead =>
        case Redirect(to) =>
          if to < 1 || to > |p.lps| || !Lp(p, to).Normal? {
            report := true;
          } else {
            successor[o], lpValid[o] := to, true;
          }
        case Normal(off, len, t) =>
          if off % 8 != 0 || len < MIN_TUPLE || off + len > BLCKSZ {
            report := true;
          } else {
            lpValid[o] := true;
            if t.ctidBlk == p.blk && t.ctidOff != o && 1 <= t.ctidOff <= |p.lps| {
              successor[o] := t.ctidOff;
            }
          }
      }
      o := o + 1;
    }
  }

  /** Line pointers before k, and where pass two has got to: predecessor holds the first
      one that leads to each offset. */
  ghost predicate Traced(p: Page, predecessor: seq<nat>, k: int)
  {
    && |predecessor| == |p.lps| + 1
    && (forall s :: Offset(p, s) && predecessor[s] != 0 ==> PointsBack(p, predecessor, k, s))
    && (forall o, s :: 0 < o < k && Offset(p, o) && Offset(p, s) && Edge(p, o, s) ==> predecessor[s] != 0)
  }

  ghost predicate PointsBack(p: Page, predecessor: seq<nat>, k: int, s: int)
    requires |predecessor| == |p.lps| + 1 && Offset(p, s)
  {
    var o := predecessor[s];
    0 < o < k && Offset(p, o) && Edge(p, o, s) && First(p, o, s)
  }

  /** The body of pass two for one line pointer. */
  method CheckEdge(p: Page, running: set<nat>, successor: array<nat>, lpValid: array<bool>, predecessor: array<nat>, o: nat)
    returns (report: bool)
    requires PageOK(p) && Offset(p, o) && successor.Length == lpValid.Length == predecessor.Length == |p.lps| + 1
    requires forall q :: Offset(p, q) ==> successor[q] == Successor(p, q) && lpValid[q] == LpValid(p, q)
    requires Traced(p, predecessor[..], o) && predecessor != successor
    modifies predecessor
    ensures report <==> !ChainGood(p, running, o)
    ensures Traced(p, predecessor[..], o + 1)
  {
    ghost var was := predecessor[..];
    var s := successor[o];
    if s == 0 || !lpValid[s] {
      NoEdge(p, was, o);
      return false;
    }
    var l, m := Lp(p, o), Lp(p, s);
    if !l.Redirect? && (m.Redirect? || l.tup.updateXid == 0 || l.tup.updateXid != m.tup.xmin) {
      NoEdge(p, was, o);
      return false;
    }
    assert Edge(p, o, s);
    if predecessor[s] != 0 {
      assert PointsBack(p, was, o, s);
      Taken(p, was, o, s);
      return true;
    }
    predecessor[s] := o;
    Fresh(p, was, o, s);
    assert predecessor[..] == was[s := o];
    if l.Redirect? {
      report := !m.tup.heapOnly;
    } else {
      report := (!l.tup.hotUpdated && m.tup.heapOnly) || (l.tup.hotUpdated && !m.tup.heapOnly);
      if p.status[o - 1] == Some(InProgress) && p.status[s - 1] == Some(Committed) && l.tup.xmin in running {
        report := true;
      }
      if p.status[o - 1] == Some(Aborted) && (p.status[s - 1] == Some(InProgress) || p.status[s - 1] == Some(Committed)) {
        report := true;
      }
    }
    assert report <==> !EdgeGood(p, running, o, s);
  }

  lemma NothingTraced(p: Page, predecessor: seq<nat>)
    requires |predecessor| == |p.lps| + 1 && forall s :: Offset(p, s) ==> predecessor[s] == 0
    ensures Traced(p, predecessor, 1)
  {
  }

  lemma NoEdge(p: Page, predecessor: seq<nat>, o: int)
    requires Offset(p, o) && Traced(p, predecessor, o) && forall s :: Offset(p, s) ==> !Edge(p, o, s)
    ensures Traced(p, predecessor, o + 1)
  {
    forall s | Offset(p, s) && predecessor[s] != 0 ensures PointsBack(p, predecessor, o + 1, s) {
      assert PointsBack(p, predecessor, o, s);
    }
  }

  lemma Taken(p: Page, predecessor: seq<nat>, o: int, s: int)
    requires Offset(p, o) && Offset(p, s) && Edge(p, o, s) && Traced(p, predecessor, o) && predecessor[s] != 0
    ensures !First(p, o, s) && Traced(p, predecessor, o + 1)
  {
    forall t | Offset(p, t) && predecessor[t] != 0 ensures PointsBack(p, predecessor, o + 1, t) {
      assert PointsBack(p, predecessor, o, t);
    }
  }

  lemma Fresh(p: Page, predecessor: seq<nat>, o: int, s: int)
    requires Offset(p, o) && Offset(p, s) && Edge(p, o, s) && Traced(p, predecessor, o) && predecessor[s] == 0
    ensures First(p, o, s) && Traced(p, predecessor[s := o], o + 1)
  {
    var now := predecessor[s := o];
    forall t | Offset(p, t) && now[t] != 0 ensures PointsBack(p, now, o + 1, t) {
      if t != s {
        assert PointsBack(p, predecessor, o, t);
      }
    }
  }

  /** The three passes.  Nothing is reported exactly when the page is good; then
      predecessor is the inverse of the edges. */
  method CheckChains(p: Page, running: set<nat>) returns (report: bool, predecessor: array<nat>)
    requires PageOK(p)
    ensures report <==> !PageGood(p, running)
    ensures predecessor.Length == |p.lps| + 1 && fresh(predecessor)
    ensures forall s :: Offset(p, s) ==> predecessor[s] == 0 || (Offset(p, predecessor[s]) && Edge(p, predecessor[s], s))
    ensures !report ==> forall o, s :: Offset(p, o) && Offset(p, s) ==> (Edge(p, o, s) <==> predecessor[s] == o)
  {
    var n := |p.lps|;
    var successor, lpValid := new nat[n + 1](_ => 0), new bool[n + 1](_ => false);
    predecessor := new nat[n + 1](_ => 0);
    report := RecordSuccessors(p, successor, lpValid);
    var chains := CheckEdges(p, running, successor, lpValid, predecessor);
    var roots := CheckRoots(p, predecessor);
    report := report || chains || roots;
    forall o, s | Offset(p, o) && Offset(p, s) && !report ensures Edge(p, o, s) <==> predecessor[s] == o {
      if Edge(p, o, s) {
        assert ChainGood(p, running, o) && PointsBack(p, predecessor[..], n + 1, s);
      } else if predecessor[s] != 0 {
        assert PointsBack(p, predecessor[..], n + 1, s);
      }
    }
    forall s | Offset(p, s) && predecessor[s] != 0 ensures Offset(p, predecessor[s]) && Edge(p, predecessor[s], s) {
      assert PointsBack(p, predecessor[..], n + 1, s);
    }
  }

  method CheckEdges(p: Page, running: set<nat>, successor: array<nat>, lpValid: array<bool>, predecessor: array<nat>)
    returns (report: bool)
    requires PageOK(p) && successor.Length == lpValid.Length == predecessor.Length == |p.lps| + 1
    requires forall q :: Offset(p, q) ==> successor[q] == Successor(p, q) && lpValid[q] == LpValid(p, q)
    requires predecessor != successor && forall s :: Offset(p, s) ==> predecessor[s] == 0
    modifies predecessor
    ensures report <==> exists o :: Offset(p, o) && !ChainGood(p, running, o)
    ensures Traced(p, predecessor[..], |p.lps| + 1)
  {
    hide Traced, ChainGood, Successor, LpValid;
    report := false;
    NothingTraced(p, predecessor[..]);
    var o := 1;
    while o <= |p.lps|
      invariant 1 <= o <= |p.lps| + 1
      invariant Traced(p, predecessor[..], o)
      invariant report <==> exists q :: 0 < q < o && Offset(p, q) && !ChainGood(p, running, q)
    {
      var r := CheckEdge(p, running, successor, lpValid, predecessor, o);
      report := report || r;
      o := o + 1;
    }
  }

  method CheckRoots(p: Page, predecessor: array<nat>) returns (report: bool)
    requires PageOK(p) && predecessor.Length == |p.lps| + 1 && Traced(p, predecessor[..], |p.lps| + 1)
    ensures report <==> exists o :: Offset(p, o) && !RootGood(p, o)
  {
    report := false;
    var o := 1;
    while o <= |p.lps|
      invariant 1 <= o <= |p.lps| + 1
      invariant report <==> exists q :: 0 < q < o && Offset(p, q) && !RootGood(p, q)
    {
      HasPredecessor(p, predecessor[..], o);
      if Counts(p, o) && predecessor[o] == 0 && Lp(p, o).Normal? && Lp(p, o).tup.heapOnly {
        report := true;
      }
      o := o + 1;
    }
  }

  lemma HasPredecessor(p: Page, predecessor: seq<nat>, s: int)
    requires Traced(p, predecessor, |p.lps| + 1) && Offset(p, s)
    ensures predecessor[s] != 0 <==> exists o :: Offset(p, o) && Edge(p, o, s)
  {
    if predecessor[s] != 0 {
      assert PointsBack(p, predecessor, |p.lps| + 1, s);
    }
  }

  // --------------------------------------------------------- what it means

  /** A tuple that lies on the page: aligned, no shorter than its header, within the
      block. */
  predicate Lies(l: LinePointer) { l.Normal? && l.off % 8 == 0 && l.len >= 24 && l.off + l.len <= 8192 }

  /** The line pointer is not in use, or leads to a tuple on the page, or is one. */
  predicate Sound(p: Page, o: int)
    requires 0 < o <= |p.lps|
  {
    match p.lps[o - 1]
    case Redirect(to) => 0 < to <= |p.lps| && p.lps[to - 1].Normal?
    case Normal(_, _, _) => Lies(p.lps[o - 1])
    case _ => true
  }

  /** o redirects to s; or o was updated by the transaction that made s, and its ctid
      says so. */
  predicate LeadsTo(p: Page, o: int, s: int)
    requires 0 < o <= |p.lps| && 0 < s <= |p.lps|
  {
    var a, b := p.lps[o - 1], p.lps[s - 1];
    && Lies(b)
    && ((a.Redirect? && a.to == s)
        || (Lies(a) && a.tup.ctidBlk == p.blk && a.tup.ctidOff == s && s != o
            && a.tup.updateXid != 0 && a.tup.updateXid == b.tup.xmin))
  }

  lemma EdgeIff(p: Page, o: int, s: int)
    requires 0 < o <= |p.lps| && 0 < s <= |p.lps|
    ensures Edge(p, o, s) <==> LeadsTo(p, o, s)
  {
  }

  /** What the flags and the commit states at both ends of an edge must be. */
  predicate Agree(p: Page, running: set<nat>, o: int, s: int)
    requires PageOK(p) && 0 < o <= |p.lps| && 0 < s <= |p.lps| && LeadsTo(p, o, s)
  {
    var a, b, from, to := p.lps[o - 1], p.lps[s - 1], p.status[o - 1], p.status[s - 1];
    if a.Redirect? then b.tup.heapOnly
    else
      && a.tup.hotUpdated == b.tup.heapOnly
      && (from == Some(InProgress) && to == Some(Committed) ==> a.tup.xmin !in running)
      && (from == Some(Aborted) ==> to != Some(InProgress) && to != Some(Committed))
  }

  /** A heap-only tuple whose inserter committed or is at work. */
  predicate LiveHeapOnly(p: Page, s: int)
    requires PageOK(p) && 0 < s <= |p.lps|
  {
    p.lps[s - 1].Normal? && p.lps[s - 1].tup.heapOnly && (p.status[s - 1] == Some(Committed) || p.status[s - 1] == Some(InProgress))
  }

  ghost predicate Reached(p: Page, s: int)
    requires 0 < s <= |p.lps|
  {
    exists o :: 0 < o <= |p.lps| && LeadsTo(p, o, s)
  }

  /** A page is good exactly when every line pointer is sound, the ends of every edge
      agree, no two edges end in one tuple, and every live heap-only tuple ends one. */
  lemma PageGoodIff(p: Page, running: set<nat>)
    requires PageOK(p)
    ensures PageGood(p, running) <==>
      && (forall o :: 0 < o <= |p.lps| ==> Sound(p, o))
      && (forall o, s :: 0 < o <= |p.lps| && 0 < s <= |p.lps| && LeadsTo(p, o, s) ==> Agree(p, running, o, s))
      && (forall o, q, s :: 0 < o <= |p.lps| && 0 < q <= |p.lps| && 0 < s <= |p.lps| && LeadsTo(p, o, s) && LeadsTo(p, q, s) ==> o == q)
      && (forall s :: 0 < s <= |p.lps| && LiveHeapOnly(p, s) ==> Reached(p, s))
  {
    forall o | 0 < o <= |p.lps| ensures LpQuiet(p, o) <==> Sound(p, o) {
    }
    forall o, s | 0 < o <= |p.lps| && 0 < s <= |p.lps| ensures Edge(p, o, s) <==> LeadsTo(p, o, s) {
      EdgeIff(p, o, s);
    }
    ChainsIff(p, running);
    RootsIff(p);
  }

  lemma ChainsIff(p: Page, running: set<nat>)
    requires PageOK(p)
    ensures (forall o :: Offset(p, o) ==> ChainGood(p, running, o)) <==>
      && (forall o, s :: 0 < o <= |p.lps| && 0 < s <= |p.lps| && LeadsTo(p, o, s) ==> Agree(p, running, o, s))
      && (forall o, q, s :: 0 < o <= |p.lps| && 0 < q <= |p.lps| && 0 < s <= |p.lps| && LeadsTo(p, o, s) && LeadsTo(p, q, s) ==> o == q)
  {
    forall o, s | 0 < o <= |p.lps| && 0 < s <= |p.lps|
      ensures Edge(p, o, s) <==> LeadsTo(p, o, s)
      ensures LeadsTo(p, o, s) ==> (EdgeGood(p, running, o, s) <==> Agree(p, running, o, s))
    {
      EdgeIff(p, o, s);
    }
    hide Edge, LeadsTo, EdgeGood, Agree;
    if forall o :: Offset(p, o) ==> ChainGood(p, running, o) {
      forall o, q, s | 0 < o <= |p.lps| && 0 < q <= |p.lps| && 0 < s <= |p.lps| && LeadsTo(p, o, s) && LeadsTo(p, q, s)
        ensures o == q
      {
        assert ChainGood(p, running, o) && ChainGood(p, running, q);
      }
      forall o, s | 0 < o <= |p.lps| && 0 < s <= |p.lps| && LeadsTo(p, o, s) ensures Agree(p, running, o, s) {
        assert ChainGood(p, running, o);
      }
    }
  }

  lemma RootsIff(p: Page)
    requires PageOK(p)
    ensures (forall o :: Offset(p, o) ==> RootGood(p, o)) <==>
      (forall s :: 0 < s <= |p.lps| && LiveHeapOnly(p, s) ==> Reached(p, s))
  {
    forall s | 0 < s <= |p.lps| ensures RootGood(p, s) <==> (LiveHeapOnly(p, s) ==> Reached(p, s)) {
      forall o | 0 < o <= |p.lps| ensures Edge(p, o, s) <==> LeadsTo(p, o, s) {
        EdgeIff(p, o, s);
      }
    }
  }

  /** The offset k edges on from o, 0 if the chain is shorter. */
  function Follow(p: Page, o: int, k: nat): (r: int)
    ensures r == 0 || Offset(p, r)
    decreases k
  {
    if !Offset(p, o) then 0
    else if k == 0 then o
    else if Edge(p, o, Successor(p, o)) then Follow(p, Successor(p, o), k - 1)
    else 0
  }

  /** A way of k edges. */
  predicate Way(p: Page, ps: seq<int>)
  {
    && (forall i :: 0 <= i < |ps| ==> 0 < ps[i] <= |p.lps|)
    && (forall i :: 0 <= i < |ps| - 1 ==> LeadsTo(p, ps[i], ps[i + 1]))
  }

  lemma {:induction false} FollowHasWay(p: Page, o: int, k: nat) returns (ps: seq<int>)
    requires Follow(p, o, k) != 0
    ensures Way(p, ps) && |ps| == k + 1 && ps[0] == o && ps[k] == Follow(p, o, k)
    decreases k
  {
    if k == 0 {
      ps := [o];
    } else {
      EdgeIff(p, o, Successor(p, o));
      var rest := FollowHasWay(p, Successor(p, o), k - 1);
      ps := [o] + rest;
      forall i | 0 <= i < |ps| - 1 ensures LeadsTo(p, ps[i], ps[i + 1]) {
        assert i > 0 ==> LeadsTo(p, rest[i - 1], rest[i]);
      }
    }
  }

  lemma {:induction false} WayIsFollowed(p: Page, ps: seq<int>, k: nat)
    requires Way(p, ps) && |ps| == k + 1
    ensures Follow(p, ps[0], k) == ps[k]
    decreases k
  {
    if k > 0 {
      EdgeIff(p, ps[0], ps[1]);
      var rest := ps[1..];
      forall i | 0 <= i < |rest| - 1 ensures LeadsTo(p, rest[i], rest[i + 1]) {
        assert LeadsTo(p, ps[i + 1], ps[i + 2]);
      }
      WayIsFollowed(p, rest, k - 1);
    }
  }

  /** k edges on from o lies r exactly when a way of k edges leads there. */
  lemma FollowIff(p: Page, o: int, k: nat, r: int)
    requires r != 0
    ensures Follow(p, o, k) == r <==> exists ps :: Way(p, ps) && |ps| == k + 1 && ps[0] == o && ps[k] == r
  {
    if Follow(p, o, k) == r {
      var ps := FollowHasWay(p, o, k);
    }
    if ps :| Way(p, ps) && |ps| == k + 1 && ps[0] == o && ps[k] == r {
      WayIsFollowed(p, ps, k);
    }
  }

  lemma OneSource(p: Page, running: set<nat>, a: int, b: int, s: int)
    requires PageOK(p) && PageGood(p, running) && Offset(p, a) && Offset(p, b) && Offset(p, s)
    requires Edge(p, a, s) && Edge(p, b, s)
    ensures a == b
  {
    assert ChainGood(p, running, a) && ChainGood(p, running, b);
  }

  /** On a good page no two update chains meet. */
  lemma {:induction false} ChainsNeverMeet(p: Page, running: set<nat>, a: int, b: int, k: nat)
    requires PageOK(p) && PageGood(p, running)
    requires Follow(p, a, k) == Follow(p, b, k) != 0
    ensures a == b
    decreases k
  {
    hide PageGood, LpValid;
    if k > 0 {
      ChainsNeverMeet(p, running, Successor(p, a), Successor(p, b), k - 1);
      OneSource(p, running, a, b, Successor(p, a));
    }
  }

  /** On a good page a redirect leads to a heap-only tuple, HOT flags agree along every
      edge, and a heap-only tuple that counts has exactly one predecessor. */
  lemma GoodPage(p: Page, running: set<nat>, o: int, s: int)
    requires PageOK(p) && PageGood(p, running) && Offset(p, o) && Offset(p, s)
    ensures Lp(p, o).Redirect? && Edge(p, o, s) ==> Lp(p, s).Normal? && Lp(p, s).tup.heapOnly
    ensures Lp(p, o).Normal? && Edge(p, o, s) ==> (Lp(p, o).tup.hotUpdated <==> Lp(p, s).tup.heapOnly)
    ensures Counts(p, s) && Lp(p, s).Normal? && Lp(p, s).tup.heapOnly ==>
      exists q :: Offset(p, q) && Edge(p, q, s) && forall r :: Offset(p, r) && Edge(p, r, s) ==> r == q
  {
    assert ChainGood(p, running, o) && RootGood(p, s);
    if Counts(p, s) && Lp(p, s).Normal? && Lp(p, s).tup.heapOnly {
      var q :| Offset(p, q) && Edge(p, q, s);
      forall r | Offset(p, r) && Edge(p, r, s) ensures r == q {
        OneSource(p, running, q, r, s);
      }
    }
  }
}
