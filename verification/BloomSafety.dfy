/** Every step of the bloom protocol keeps its invariant and accounts for every
    tuple. */
module BloomSafety {
  import opened Optional
  import opened BloomSignature
  import opened BloomPage
  import opened BloomProtocol

  /** What a step puts in. */
  function AddedBy(o: Options, s: State, a: Step): multiset<Item>
    requires Inv(o, s) && Enabled(o, s, a)
  {
    match a
    case TryFast(pid) =>
      var p := s.procs[pid];
      if TryAdd(o, s.pages[p.blk - 1], p.item).Some? then multiset{p.item} else multiset{}
    case TrySlow(pid) =>
      var p := s.procs[pid];
      if TryAdd(o, s.pages[s.meta.notFull[p.slot] - 1], p.item).Some? then multiset{p.item} else multiset{}
    case NewPage(pid, _) => multiset{s.procs[pid].item}
    case _ => multiset{}
  }

  /** What a step takes out. */
  function RemovedBy(o: Options, s: State, a: Step): multiset<Item>
    requires Inv(o, s) && Enabled(o, s, a)
  {
    match a
    case VacuumPage(pid) => var p := s.procs[pid]; multiset(Doomed(Live(s.pages[p.next]), p.dead))
    case _ => multiset{}
  }

  /** Page q changes by exactly what was added and removed. */
  ghost predicate Accounted(was: Page, now: Page, added: multiset<Item>, gone: multiset<Item>)
  {
    forall t: Item :: multiset(Live(now))[t] + gone[t] == multiset(Live(was))[t] + added[t]
  }

  lemma AddAccounts(o: Options, p: Page, t: Item)
    requires TryAdd(o, p, t).Some?
    ensures Accounted(p, TryAdd(o, p, t).value, multiset{t}, multiset{})
  {
    assert multiset(Ready(p).items + [t]) == multiset(Ready(p).items) + multiset{t};
  }

  lemma VacuumAccounts(p: Page, dead: set<nat>)
    ensures Accounted(p, Vacuumed(p, dead), multiset{}, multiset(Doomed(Live(p), dead)))
  {
    SurvivorsSplit(Live(p), dead);
  }

  // --------------------------------------------------- the other processes

  /** A page step as every other process sees it. */
  ghost predicate PageStep(s: State, s': State, q: nat, added: multiset<Item>, gone: multiset<Item>)
  {
    && q < |s.pages| && |s'.pages| == |s.pages| && s'.pages == s.pages[q := s'.pages[q]]
    && Accounted(s.pages[q], s'.pages[q], added, gone)
  }

  lemma OtherVacuum(s: State, s': State, q: nat, added: multiset<Item>, gone: multiset<Item>,
                    dead: set<nat>, n: nat, x: nat, had: multiset<Item>)
    requires PageStep(s, s', q, added, gone) && x <= n <= |s.pages| && VacuumOK(s.pages, dead, n, x, had)
    ensures VacuumOK(s'.pages, dead, n, x, had + added)
  {
    forall t: Item | t.tid in dead
      ensures Copies(s'.pages, 0, x, t) + Copies(s'.pages, n, |s'.pages|, t) <= (had + added)[t]
    {
      CopiesUpdate(s.pages, q, s'.pages[q], 0, x, t);
      CopiesUpdate(s.pages, q, s'.pages[q], n, |s.pages|, t);
    }
  }

  lemma OtherScan(s: State, s': State, q: nat, added: multiset<Item>, gone: multiset<Item>,
                  n: nat, x: nat, seen: multiset<Item>, start: seq<Page>, had: multiset<Item>)
    requires PageStep(s, s', q, added, gone) && x <= n <= |s.pages| && ScanOK(s.pages, n, x, seen, start, had)
    ensures ScanOK(s'.pages, n, x, seen, start, had + gone)
  {
    forall t: Item
      ensures Copies(start, 0, |start|, t) <= seen[t] + Copies(s'.pages, x, n, t) + (had + gone)[t]
    {
      CopiesUpdate(s.pages, q, s'.pages[q], x, n, t);
    }
  }

  /** A process that did not take the step is still in order after it. */
  lemma OtherProc(s: State, s': State, q: nat, added: multiset<Item>, gone: multiset<Item>, pid: nat)
    requires PageStep(s, s', q, added, gone) && pid in s.procs && ProcOK(s, pid, s.procs[pid])
    requires s.procs[pid].Slow? ==> s'.metaLock == s.metaLock && s'.meta == s.meta
    ensures ProcOK(s', pid, Told(s.procs[pid], added, gone))
  {
    hide VacuumOK, ScanOK, FoundOK, Accounted;
    match s.procs[pid] {
      case Vacuum(dead, n, x, list, had) => OtherVacuum(s, s', q, added, gone, dead, n, x, had);
      case Scan(key, n, x, seen, found, start, had) => OtherScan(s, s', q, added, gone, n, x, seen, start, had);
      case _ =>
    }
  }

  // ----------------------------------------------------------- insertions

  lemma AddedPageOK(o: Options, p: Page, t: Item)
    requires OptionsOK(o) && PageOK(p, ItemSize(o)) && TryAdd(o, p, t).Some?
    ensures PageOK(TryAdd(o, p, t).value, ItemSize(o))
  {
    assert Within(0, ItemSize(o));
    RoomIsExact(|Ready(p).items|, ItemSize(o));
  }

  /** An insertion that succeeds keeps the invariant, whatever it may do to the
      metapage under its lock. */
  lemma PutKeeps(o: Options, s: State, pid: nat, blk: nat, page: Page, t: Item, meta: Meta, lock: Option<nat>)
    requires Inv(o, s) && pid in s.procs && (s.procs[pid].Fast? || s.procs[pid].Slow?)
    requires InRange(s, blk) && PageOK(page, ItemSize(o)) && Accounted(s.pages[blk - 1], page, multiset{t}, multiset{})
    requires if s.procs[pid].Slow? then lock.None? else lock == s.metaLock && meta == s.meta
    requires MetaOK(s.(meta := meta))
    ensures Inv(o, Put(s, pid, blk, page, t).(metaLock := lock, meta := meta))
  {
    var s' := Put(s, pid, blk, page, t).(metaLock := lock, meta := meta);
    forall k | k in s'.procs ensures ProcOK(s', k, s'.procs[k]) {
      PutOther(o, s, s', pid, blk, t, k);
    }
  }

  lemma PutOther(o: Options, s: State, s': State, pid: nat, blk: nat, t: Item, k: nat)
    requires Inv(o, s) && pid in s.procs && k in s.procs && k != pid && InRange(s, blk)
    requires PageStep(s, s', blk - 1, multiset{t}, multiset{})
    requires if s.procs[pid].Slow? then s'.metaLock.None? else s'.metaLock == s.metaLock && s'.meta == s.meta
    ensures ProcOK(s', k, Told(s.procs[k], multiset{t}, multiset{}))
  {
    hide VacuumOK, ScanOK, FoundOK, Accounted;
    assert ProcOK(s, k, s.procs[k]) && ProcOK(s, pid, s.procs[pid]);
    OtherProc(s, s', blk - 1, multiset{t}, multiset{}, k);
  }

  lemma ExtendKeeps(o: Options, s: State)
    requires Inv(o, s)
    ensures Inv(o, s.(pages := s.pages + [Fresh]))
    ensures forall t: Item :: Stored(s.(pages := s.pages + [Fresh]), t) == Stored(s, t)
  {
    hide ProcOK;
    var s' := s.(pages := s.pages + [Fresh]);
    forall t: Item ensures Stored(s', t) == Stored(s, t) {
      CopiesSame(s.pages, s'.pages, 0, |s.pages|, t);
    }
    forall k | k in s'.procs ensures ProcOK(s', k, s'.procs[k]) {
      ExtendProc(s, k);
    }
  }

  lemma ExtendProc(s: State, pid: nat)
    requires pid in s.procs && ProcOK(s, pid, s.procs[pid])
    ensures ProcOK(s.(pages := s.pages + [Fresh]), pid, s.procs[pid])
  {
    hide VacuumOK, ScanOK, FoundOK;
    match s.procs[pid] {
      case Vacuum(dead, n, x, list, had) => ExtendVacuum(s.pages, dead, n, x, had);
      case Scan(key, n, x, seen, found, start, had) => ExtendScan(s.pages, n, x, seen, start, had);
      case _ =>
    }
  }

  lemma ExtendVacuum(pages: seq<Page>, dead: set<nat>, n: nat, x: nat, had: multiset<Item>)
    requires x <= n <= |pages| && VacuumOK(pages, dead, n, x, had)
    ensures VacuumOK(pages + [Fresh], dead, n, x, had)
  {
    var pages' := pages + [Fresh];
    forall t: Item | t.tid in dead ensures Copies(pages', 0, x, t) + Copies(pages', n, |pages'|, t) <= had[t] {
      CopiesSame(pages, pages', 0, x, t);
      CopiesSame(pages, pages', n, |pages|, t);
    }
  }

  lemma ExtendScan(pages: seq<Page>, n: nat, x: nat, seen: multiset<Item>, start: seq<Page>, had: multiset<Item>)
    requires x <= n <= |pages| && ScanOK(pages, n, x, seen, start, had)
    ensures ScanOK(pages + [Fresh], n, x, seen, start, had)
  {
    var pages' := pages + [Fresh];
    forall t: Item ensures Copies(start, 0, |start|, t) <= seen[t] + Copies(pages', x, n, t) + had[t] {
      CopiesSame(pages, pages', x, n, t);
    }
  }

  lemma FastKeeps(o: Options, s: State, pid: nat)
    requires Inv(o, s) && pid in s.procs && s.procs[pid].Fast? && InRange(s, s.procs[pid].blk)
    ensures Inv(o, TriedFast(o, s, pid))
  {
    hide Inv;
    var p := s.procs[pid];
    if TryAdd(o, s.pages[p.blk - 1], p.item).Some? {
      assert TriedFast(o, s, pid) == Put(s, pid, p.blk, TryAdd(o, s.pages[p.blk - 1], p.item).value, p.item);
      FastAddKeeps(o, s, pid, p.blk, p.item);
    } else {
      assert TriedFast(o, s, pid) == s.(procs := s.procs[pid := Wait(p.item, Some(p.blk))]);
      FastFailKeeps(o, s, pid);
    }
  }

  lemma FastAddKeeps(o: Options, s: State, pid: nat, blk: nat, t: Item)
    requires Inv(o, s) && pid in s.procs && s.procs[pid] == Fast(t, blk) && InRange(s, blk)
    requires TryAdd(o, s.pages[blk - 1], t).Some?
    ensures Inv(o, Put(s, pid, blk, TryAdd(o, s.pages[blk - 1], t).value, t))
  {
    hide ProcOK, Accounted;
    var page := s.pages[blk - 1];
    AddAccounts(o, page, t);
    AddedPageOK(o, page, t);
    PutKeeps(o, s, pid, blk, TryAdd(o, page, t).value, t, s.meta, s.metaLock);
  }

  lemma FastFailKeeps(o: Options, s: State, pid: nat)
    requires Inv(o, s) && pid in s.procs && s.procs[pid].Fast?
    ensures Inv(o, s.(procs := s.procs[pid := Wait(s.procs[pid].item, Some(s.procs[pid].blk))]))
  {
    QuietKeeps(o, s, s.(procs := s.procs[pid := Wait(s.procs[pid].item, Some(s.procs[pid].blk))]), pid);
  }

  lemma SlowKeeps(o: Options, s: State, pid: nat)
    requires Inv(o, s) && pid in s.procs && s.procs[pid].Slow? && s.meta.nStart <= s.procs[pid].slot < s.meta.nEnd
    ensures Inv(o, TriedSlow(o, s, pid))
  {
    hide ProcOK, PageOK;
    var p := s.procs[pid];
    var blk := s.meta.notFull[p.slot];
    if TryAdd(o, s.pages[blk - 1], p.item).Some? {
      assert TriedSlow(o, s, pid) ==
        Put(s, pid, blk, TryAdd(o, s.pages[blk - 1], p.item).value, p.item).(metaLock := None, meta := s.meta.(nStart := p.slot));
      SlowAddKeeps(o, s, pid, p.slot);
    } else {
      assert TriedSlow(o, s, pid) == s.(procs := s.procs[pid := p.(slot := p.slot + 1)]);
      SlowFailKeeps(o, s, pid);
    }
  }

  lemma SlowAddKeeps(o: Options, s: State, pid: nat, slot: nat)
    requires Inv(o, s) && pid in s.procs && s.procs[pid].Slow? && s.meta.nStart <= slot < s.meta.nEnd
    requires TryAdd(o, s.pages[s.meta.notFull[slot] - 1], s.procs[pid].item).Some?
    ensures var blk, t := s.meta.notFull[slot], s.procs[pid].item;
      Inv(o, Put(s, pid, blk, TryAdd(o, s.pages[blk - 1], t).value, t).(metaLock := None, meta := s.meta.(nStart := slot)))
  {
    hide ProcOK, Accounted;
    var blk, t := s.meta.notFull[slot], s.procs[pid].item;
    AddAccounts(o, s.pages[blk - 1], t);
    AddedPageOK(o, s.pages[blk - 1], t);
    PutKeeps(o, s, pid, blk, TryAdd(o, s.pages[blk - 1], t).value, t, s.meta.(nStart := slot), None);
  }

  lemma SlowFailKeeps(o: Options, s: State, pid: nat)
    requires Inv(o, s) && pid in s.procs && s.procs[pid].Slow? && s.procs[pid].slot < s.meta.nEnd
    ensures Inv(o, s.(procs := s.procs[pid := s.procs[pid].(slot := s.procs[pid].slot + 1)]))
  {
    assert ProcOK(s, pid, s.procs[pid]);
    QuietKeeps(o, s, s.(procs := s.procs[pid := s.procs[pid].(slot := s.procs[pid].slot + 1)]), pid);
  }

  /** The tuple always fits on an empty page. */
  lemma EmptyTakes(o: Options, p: Page, t: Item)
    requires OptionsOK(o) && !Usable(p)
    ensures TryAdd(o, p, t) == Some(Page(false, [t]))
  {
    EmptyHasRoom(o);
    assert Ready(p).items + [t] == [t];
  }

  /** An unused page takes the tuple and becomes the whole list. */
  lemma PutFirst(o: Options, s: State, pid: nat, blk: nat, t: Item)
    requires Inv(o, s) && pid in s.procs && s.procs[pid].Slow? && InRange(s, blk) && !Usable(s.pages[blk - 1])
    ensures Accounted(s.pages[blk - 1], Page(false, [t]), multiset{t}, multiset{})
    ensures Inv(o, Put(s, pid, blk, Page(false, [t]), t).(metaLock := None, meta := Meta(0, 1, s.meta.notFull[0 := blk])))
  {
    var page := s.pages[blk - 1];
    EmptyTakes(o, page, t);
    AddAccounts(o, page, t);
    AddedPageOK(o, page, t);
    PutKeeps(o, s, pid, blk, Page(false, [t]), t, Meta(0, 1, s.meta.notFull[0 := blk]), None);
  }

  lemma NewPageKeeps(o: Options, s: State, pid: nat, free: Option<nat>)
    requires Inv(o, s) && pid in s.procs && s.procs[pid].Slow?
    requires free.Some? ==> InRange(s, free.value) && !Usable(s.pages[free.value - 1])
    ensures Inv(o, PutNew(s, pid, free))
    ensures forall t: Item :: Stored(PutNew(s, pid, free), t) == Stored(s, t) + multiset{s.procs[pid].item}[t]
  {
    var t := s.procs[pid].item;
    var s1 := if free.Some? then s else s.(pages := s.pages + [Fresh]);
    ExtendKeeps(o, s);
    var blk := if free.Some? then free.value else |s1.pages|;
    PutFirst(o, s1, pid, blk, t);
    forall x: Item ensures Stored(PutNew(s, pid, free), x) == Stored(s, x) + multiset{t}[x] {
      PageStepStored(s1, PutNew(s, pid, free), blk - 1, multiset{t}, multiset{}, x);
    }
  }

  // ------------------------------------------------------- bulk deletion

  /** The page just compacted holds no condemned tuple. */
  lemma OwnVacuum(s: State, s': State, dead: set<nat>, n: nat, x: nat, had: multiset<Item>)
    requires x < n <= |s.pages| && VacuumOK(s.pages, dead, n, x, had)
    requires s'.pages == s.pages[x := Vacuumed(s.pages[x], dead)]
    ensures VacuumOK(s'.pages, dead, n, x + 1, had)
  {
    var page := Vacuumed(s.pages[x], dead);
    SurvivorsSplit(Live(s.pages[x]), dead);
    forall t: Item | t.tid in dead
      ensures Copies(s'.pages, 0, x + 1, t) + Copies(s'.pages, n, |s'.pages|, t) <= had[t]
    {
      CopiesUpdate(s.pages, x, page, 0, x, t);
      CopiesUpdate(s.pages, x, page, n, |s.pages|, t);
      assert t !in Live(page);
    }
  }

  lemma VacuumedOK(p: Page, dead: set<nat>, size: nat)
    requires PageOK(p, size)
    ensures PageOK(Vacuumed(p, dead), size)
  {
    if Usable(p) {
      SurvivorsSplit(p.items, dead);
      Fewer(|Survivors(p.items, dead)|, |p.items|, size);
    }
  }

  lemma CompactedOwn(o: Options, s: State, pid: nat)
    requires Inv(o, s) && pid in s.procs && s.procs[pid].Vacuum? && s.procs[pid].next < s.procs[pid].npages <= |s.pages|
    ensures ProcOK(CompactedPage(o, s, pid), pid, CompactedPage(o, s, pid).procs[pid])
  {
    var p := s.procs[pid];
    assert ProcOK(s, pid, p);
    OwnVacuum(s, CompactedPage(o, s, pid), p.dead, p.npages, p.next, p.added);
  }

  lemma CompactedOther(o: Options, s: State, pid: nat, k: nat)
    requires Inv(o, s) && pid in s.procs && s.procs[pid].Vacuum? && s.procs[pid].next < |s.pages|
    requires k in s.procs && k != pid
    ensures ProcOK(CompactedPage(o, s, pid), k, CompactedPage(o, s, pid).procs[k])
  {
    var p := s.procs[pid];
    assert ProcOK(s, k, s.procs[k]);
    VacuumAccounts(s.pages[p.next], p.dead);
    OtherProc(s, CompactedPage(o, s, pid), p.next, multiset{}, multiset(Doomed(Live(s.pages[p.next]), p.dead)), k);
  }

  lemma VacuumPageKeeps(o: Options, s: State, pid: nat)
    requires Inv(o, s) && pid in s.procs && s.procs[pid].Vacuum? && s.procs[pid].next < s.procs[pid].npages <= |s.pages|
    ensures Inv(o, CompactedPage(o, s, pid))
  {
    var p, s' := s.procs[pid], CompactedPage(o, s, pid);
    VacuumedOK(s.pages[p.next], p.dead, ItemSize(o));
    CompactedOwn(o, s, pid);
    forall k | k in s'.procs && k != pid ensures ProcOK(s', k, s'.procs[k]) {
      CompactedOther(o, s, pid, k);
    }
  }

  // ------------------------------------------------------------ other steps

  lemma {:induction false} HitsAll(items: seq<Item>, m: nat, key: Sign, t: Item)
    requires Matching(t, key) && m <= |items|
    ensures HitsTo(items, m, key)[t.tid] >= multiset(items[..m])[t]
  {
    if m > 0 {
      HitsAll(items, m - 1, key, t);
      assert items[..m] == items[..m - 1] + [items[m - 1]];
    }
  }

  lemma {:induction false} HitsOnly(items: seq<Item>, m: nat, key: Sign, tid: nat)
    requires m <= |items| && tid in HitsTo(items, m, key)
    ensures exists t :: t in items && Matching(t, key) && t.tid == tid
  {
    if tid in HitsTo(items, m - 1, key) {
      HitsOnly(items, m - 1, key, tid);
    } else {
      assert items[m - 1] in items && Matching(items[m - 1], key);
    }
  }

  lemma OwnFound(items: seq<Item>, key: Sign, seen: multiset<Item>, found: multiset<nat>)
    requires FoundOK(key, seen, found)
    ensures FoundOK(key, seen + multiset(items), found + Hits(items, key))
  {
    forall t: Item | Matching(t, key) ensures (found + Hits(items, key))[t.tid] >= (seen + multiset(items))[t] {
      HitsAll(items, |items|, key, t);
      assert items[..|items|] == items;
    }
    forall tid | tid in found + Hits(items, key)
      ensures exists t :: t in seen + multiset(items) && Matching(t, key) && t.tid == tid
    {
      if tid in found {
        var t :| t in seen && Matching(t, key) && t.tid == tid;
        assert t in seen + multiset(items);
      } else {
        HitsOnly(items, |items|, key, tid);
        var t :| t in items && Matching(t, key) && t.tid == tid;
        assert t in seen + multiset(items);
      }
    }
  }

  lemma OwnScan(s: State, n: nat, x: nat, seen: multiset<Item>, start: seq<Page>, gone: multiset<Item>)
    requires x < n <= |s.pages| && ScanOK(s.pages, n, x, seen, start, gone)
    ensures ScanOK(s.pages, n, x + 1, seen + multiset(Live(s.pages[x])), start, gone)
  {
    forall t: Item
      ensures Copies(start, 0, |start|, t) <= (seen + multiset(Live(s.pages[x])))[t] + Copies(s.pages, x + 1, n, t) + gone[t]
    {
      CopiesSplit(s.pages, x, x + 1, n, t);
    }
  }

  /** Only process pid moves; pages, list and everyone else's lock stand still. */
  ghost predicate OnlyMoves(s: State, s': State, pid: nat)
  {
    && s'.pages == s.pages && s'.meta == s.meta
    && (s'.metaLock == s.metaLock || (s.metaLock.None? && s'.metaLock == Some(pid) && pid in s'.procs && s'.procs[pid].Slow?))
    && (s.metaLock == Some(pid) ==> pid in s'.procs && s'.procs[pid].Slow?)
    && (forall k :: k != pid ==> (k in s'.procs <==> k in s.procs) && (k in s.procs ==> s'.procs[k] == s.procs[k]))
    && (pid in s'.procs ==> ProcOK(s', pid, s'.procs[pid]))
  }

  lemma QuietKeeps(o: Options, s: State, s': State, pid: nat)
    requires Inv(o, s) && OnlyMoves(s, s', pid)
    ensures Inv(o, s')
  {
    forall k | k in s'.procs && k != pid ensures ProcOK(s', k, s'.procs[k]) {
      assert ProcOK(s, k, s.procs[k]);
    }
  }

  lemma BeginKeeps(o: Options, s: State, pid: nat, p: Proc)
    requires Inv(o, s) && pid !in s.procs && Starts(s, p)
    ensures Inv(o, s.(procs := s.procs[pid := p]))
  {
    QuietKeeps(o, s, s.(procs := s.procs[pid := p]), pid);
  }

  lemma ScanKeeps(o: Options, s: State, pid: nat)
    requires Inv(o, s) && pid in s.procs && s.procs[pid].Scan? && s.procs[pid].next < s.procs[pid].npages <= |s.pages|
    ensures Inv(o, Scanned(s, pid))
  {
    ScannedOwn(s, pid);
    QuietKeeps(o, s, Scanned(s, pid), pid);
  }

  lemma ScannedOwn(s: State, pid: nat)
    requires pid in s.procs && s.procs[pid].Scan? && s.procs[pid].next < s.procs[pid].npages <= |s.pages|
    requires ProcOK(s, pid, s.procs[pid])
    ensures ProcOK(Scanned(s, pid), pid, Scanned(s, pid).procs[pid])
  {
    hide ScanOK, FoundOK;
    var p, s' := s.procs[pid], Scanned(s, pid);
    var items := Live(s.pages[p.next]);
    OwnScan(s, p.npages, p.next, p.seen, p.start, p.gone);
    OwnFound(items, p.key, p.seen, p.found);
    assert s'.procs[pid] == p.(next := p.next + 1, seen := p.seen + multiset(items), found := p.found + Hits(items, p.key));
  }

  lemma RelistKeeps(o: Options, s: State, pid: nat)
    requires Inv(o, s) && pid in s.procs && s.procs[pid].Vacuum? && s.metaLock.None?
    requires |s.procs[pid].list| <= LIST_MAX
    ensures Inv(o, Relisted(s, pid))
  {
    var s' := Relisted(s, pid);
    assert ProcOK(s, pid, s.procs[pid]);
    forall k | k in s'.procs ensures ProcOK(s', k, s'.procs[k]) {
      assert ProcOK(s, k, s.procs[k]);
    }
  }

  lemma StepKeeps(o: Options, s: State, a: Step)
    requires Inv(o, s) && Enabled(o, s, a)
    ensures Inv(o, Apply(o, s, a))
  {
    hide VacuumOK, ScanOK, FoundOK;
    assert !a.Begin? ==> ProcOK(s, a.pid, s.procs[a.pid]);
    match a
    case Begin(pid, p) => BeginKeeps(o, s, pid, p);
    case TryFast(pid) => FastKeeps(o, s, pid);
    case TrySlow(pid) => SlowKeeps(o, s, pid);
    case NewPage(pid, free) => NewPageKeeps(o, s, pid, free);
    case VacuumPage(pid) => VacuumPageKeeps(o, s, pid);
    case VacuumMeta(pid) => RelistKeeps(o, s, pid);
    case ScanPage(pid) => ScanKeeps(o, s, pid);
    case _ => QuietKeeps(o, s, Apply(o, s, a), a.pid);
  }

  // ----------------------------------------------------------- conservation

  lemma PageStepStored(s: State, s': State, q: nat, added: multiset<Item>, gone: multiset<Item>, t: Item)
    requires PageStep(s, s', q, added, gone)
    ensures Stored(s', t) + gone[t] == Stored(s, t) + added[t]
  {
    CopiesUpdate(s.pages, q, s'.pages[q], 0, |s.pages|, t);
  }

  /** Each step stores exactly what it adds, and loses exactly what it removes. */
  lemma StepConserves(o: Options, s: State, a: Step, t: Item)
    requires Inv(o, s) && Enabled(o, s, a)
    ensures Stored(Apply(o, s, a), t) + RemovedBy(o, s, a)[t] == Stored(s, t) + AddedBy(o, s, a)[t]
  {
    match a
    case TryFast(_) => FastStep(o, s, a, t);
    case TrySlow(_) => SlowStep(o, s, a, t);
    case NewPage(_, _) => NewStep(o, s, a, t);
    case VacuumPage(_) => VacuumStep(o, s, a, t);
    case _ => StillStep(o, s, a, t);
  }

  lemma StillStep(o: Options, s: State, a: Step, t: Item)
    requires Inv(o, s) && Enabled(o, s, a) && !a.TryFast? && !a.TrySlow? && !a.NewPage? && !a.VacuumPage?
    ensures Stored(Apply(o, s, a), t) + RemovedBy(o, s, a)[t] == Stored(s, t) + AddedBy(o, s, a)[t]
  {
    assert Apply(o, s, a).pages == s.pages;
  }

  lemma FastStep(o: Options, s: State, a: Step, t: Item)
    requires Inv(o, s) && Enabled(o, s, a) && a.TryFast?
    ensures Stored(Apply(o, s, a), t) + RemovedBy(o, s, a)[t] == Stored(s, t) + AddedBy(o, s, a)[t]
  {
    assert ProcOK(s, a.pid, s.procs[a.pid]);
    FastConserves(o, s, a.pid, t);
  }

  lemma SlowStep(o: Options, s: State, a: Step, t: Item)
    requires Inv(o, s) && Enabled(o, s, a) && a.TrySlow?
    ensures Stored(Apply(o, s, a), t) + RemovedBy(o, s, a)[t] == Stored(s, t) + AddedBy(o, s, a)[t]
  {
    assert ProcOK(s, a.pid, s.procs[a.pid]);
    SlowConserves(o, s, a.pid, t);
  }

  lemma NewStep(o: Options, s: State, a: Step, t: Item)
    requires Inv(o, s) && Enabled(o, s, a) && a.NewPage?
    ensures Stored(Apply(o, s, a), t) + RemovedBy(o, s, a)[t] == Stored(s, t) + AddedBy(o, s, a)[t]
  {
    NewPageKeeps(o, s, a.pid, a.free);
  }

  lemma VacuumStep(o: Options, s: State, a: Step, t: Item)
    requires Inv(o, s) && Enabled(o, s, a) && a.VacuumPage?
    ensures Stored(Apply(o, s, a), t) + RemovedBy(o, s, a)[t] == Stored(s, t) + AddedBy(o, s, a)[t]
  {
    assert ProcOK(s, a.pid, s.procs[a.pid]);
    VacuumConserves(o, s, a.pid, t);
  }

  lemma FastConserves(o: Options, s: State, pid: nat, t: Item)
    requires pid in s.procs && s.procs[pid].Fast? && InRange(s, s.procs[pid].blk)
    ensures var p := s.procs[pid];
      Stored(TriedFast(o, s, pid), t) ==
        Stored(s, t) + if TryAdd(o, s.pages[p.blk - 1], p.item).Some? then multiset{p.item}[t] else 0
  {
    hide TryAdd, Accounted;
    var p := s.procs[pid];
    if TryAdd(o, s.pages[p.blk - 1], p.item).Some? {
      AddAccounts(o, s.pages[p.blk - 1], p.item);
      PageStepStored(s, TriedFast(o, s, pid), p.blk - 1, multiset{p.item}, multiset{}, t);
    }
  }

  lemma SlowConserves(o: Options, s: State, pid: nat, t: Item)
    requires pid in s.procs && s.procs[pid].Slow? && MetaOK(s) && s.meta.nStart <= s.procs[pid].slot < s.meta.nEnd
    ensures var p := s.procs[pid];
      Stored(TriedSlow(o, s, pid), t) ==
        Stored(s, t) + if TryAdd(o, s.pages[s.meta.notFull[p.slot] - 1], p.item).Some? then multiset{p.item}[t] else 0
  {
    hide TryAdd, Accounted;
    var p := s.procs[pid];
    var blk := s.meta.notFull[p.slot];
    if TryAdd(o, s.pages[blk - 1], p.item).Some? {
      AddAccounts(o, s.pages[blk - 1], p.item);
      PageStepStored(s, TriedSlow(o, s, pid), blk - 1, multiset{p.item}, multiset{}, t);
    }
  }

  lemma VacuumConserves(o: Options, s: State, pid: nat, t: Item)
    requires pid in s.procs && s.procs[pid].Vacuum? && s.procs[pid].next < |s.pages|
    ensures var p := s.procs[pid];
      Stored(CompactedPage(o, s, pid), t) + multiset(Doomed(Live(s.pages[p.next]), p.dead))[t] == Stored(s, t)
  {
    var p := s.procs[pid];
    VacuumAccounts(s.pages[p.next], p.dead);
    PageStepStored(s, CompactedPage(o, s, pid), p.next, multiset{}, multiset(Doomed(Live(s.pages[p.next]), p.dead)), t);
  }
}
