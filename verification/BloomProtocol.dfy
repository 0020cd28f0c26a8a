/** The bloom access method as it runs: inserters, bulk deletions and scans side by
    side, each step one stretch of code under the locks it holds.  Block 0 is the
    metapage; data block b is pages[b - 1]. */
module BloomProtocol {
  import opened Optional
  import opened BloomSignature
  import opened BloomPage

  /** BloomMetaBlockN: block numbers that fit in the metapage. */
  const LIST_MAX := 2004

  /** With the page header, the special space, the magic number and options and the two
      indexes of the list they fill a block. */
  lemma ListFillsBlock()
    ensures 24 + 8 + (4 + 4 + 4 + 4 * 32 + 2 + 2) + 4 * LIST_MAX <= 8192 < 24 + 8 + 144 + 4 * (LIST_MAX + 1)
  {
  }

  /** The metapage's list of pages with room, valid from nStart to nEnd. */
  datatype Meta = Meta(nStart: nat, nEnd: nat, notFull: seq<nat>)

  datatype Proc =
    // an insertion: not begun, trying the page it picked, waiting for the metapage,
    // and holding the metapage with the next list slot to try
    | Insert(item: Item)
    | Fast(item: Item, blk: nat)
    | Wait(item: Item, tried: Option<nat>)
    | Slow(item: Item, slot: nat)
    // a bulk deletion, before block next of npages
    | Vacuum(dead: set<nat>, npages: nat, next: nat, list: seq<nat>, added: multiset<Item>)
    // a scan, before block next of npages
    | Scan(key: Sign, npages: nat, next: nat, seen: multiset<Item>, found: multiset<nat>,
           start: seq<Page>, gone: multiset<Item>)

  /** added, seen, start and gone record history; no step reads them. */
  datatype State = State(meta: Meta, metaLock: Option<nat>, pages: seq<Page>, procs: map<nat, Proc>)

  datatype Step =
    | Begin(pid: nat, proc: Proc)
    | Pick(pid: nat)
    | TryFast(pid: nat)
    | LockMeta(pid: nat)
    | TrySlow(pid: nat)
    | NewPage(pid: nat, free: Option<nat>)
    | VacuumPage(pid: nat)
    | VacuumMeta(pid: nat)
    | ScanPage(pid: nat)
    | EndScan(pid: nat)

  // ------------------------------------------------------------- the contents

  function Live(p: Page): seq<Item> { if Usable(p) then p.items else [] }

  /** How often t is stored on data pages lo (included) to hi (excluded). */
  function Copies(pages: seq<Page>, lo: nat, hi: nat, t: Item): nat
    requires lo <= hi <= |pages|
  {
    if lo == hi then 0 else Copies(pages, lo, hi - 1, t) + multiset(Live(pages[hi - 1]))[t]
  }

  function Stored(s: State, t: Item): nat { Copies(s.pages, 0, |s.pages|, t) }

  lemma {:induction false} CopiesSame(a: seq<Page>, b: seq<Page>, lo: nat, hi: nat, t: Item)
    requires lo <= hi <= |a| && hi <= |b|
    requires forall i :: lo <= i < hi ==> Live(a[i]) == Live(b[i])
    ensures Copies(a, lo, hi, t) == Copies(b, lo, hi, t)
    decreases hi
  {
    if lo < hi {
      CopiesSame(a, b, lo, hi - 1, t);
    }
  }

  /** Changing one page changes the count by that page. */
  lemma {:induction false} CopiesUpdate(pages: seq<Page>, q: nat, p: Page, lo: nat, hi: nat, t: Item)
    requires q < |pages| && lo <= hi <= |pages|
    ensures !(lo <= q < hi) ==> Copies(pages[q := p], lo, hi, t) == Copies(pages, lo, hi, t)
    ensures lo <= q < hi ==> Copies(pages[q := p], lo, hi, t) + multiset(Live(pages[q]))[t]
                             == Copies(pages, lo, hi, t) + multiset(Live(p))[t]
    decreases hi
  {
    if lo < hi {
      CopiesUpdate(pages, q, p, lo, hi - 1, t);
      var after := pages[q := p];
      assert after[hi - 1] == if q == hi - 1 then p else pages[hi - 1];
      assert Copies(after, lo, hi, t) == Copies(after, lo, hi - 1, t) + multiset(Live(after[hi - 1]))[t];
    }
  }

  lemma {:induction false} CopiesSplit(pages: seq<Page>, lo: nat, mid: nat, hi: nat, t: Item)
    requires lo <= mid <= hi <= |pages|
    ensures Copies(pages, lo, hi, t) == Copies(pages, lo, mid, t) + Copies(pages, mid, hi, t)
    decreases hi
  {
    if mid < hi {
      CopiesSplit(pages, lo, mid, hi - 1, t);
    }
  }

  // ---------------------------------------------------------------- the steps

  /** Try to add a tuple to a page, reinitialising it first if it is not in use. */
  function TryAdd(o: Options, p: Page, t: Item): Option<Page>
  {
    var r := Ready(p);
    if HasRoom(|r.items|, ItemSize(o)) then Some(Page(false, r.items + [t])) else None
  }

  /** Tell running bulk deletions and scans what a step added or removed. */
  function Notify(procs: map<nat, Proc>, added: multiset<Item>, gone: multiset<Item>): map<nat, Proc>
  {
    map pid | pid in procs :: Told(procs[pid], added, gone)
  }

  function Told(p: Proc, added: multiset<Item>, gone: multiset<Item>): Proc
  {
    if p.Vacuum? then p.(added := p.added + added) else if p.Scan? then p.(gone := p.gone + gone) else p
  }

  /** A new process: what it starts from is fixed by the state. */
  predicate Starts(s: State, p: Proc)
  {
    match p
    case Insert(_) => true
    case Vacuum(_, n, x, l, a) => n == |s.pages| && x == 0 && l == [] && a == multiset{}
    case Scan(_, n, x, se, f, st, g) =>
      n == |s.pages| && x == 0 && se == multiset{} && f == multiset{} && st == s.pages && g == multiset{}
    case _ => false
  }

  predicate Enabled(o: Options, s: State, a: Step)
  {
    if a.Begin? then a.pid !in s.procs && Starts(s, a.proc)
    else
      a.pid in s.procs &&
      var p := s.procs[a.pid];
      match a
      case Pick(_) => p.Insert? && s.metaLock.None?
      case TryFast(_) => p.Fast?
      case LockMeta(_) => p.Wait? && s.metaLock.None?
      case TrySlow(_) => p.Slow? && p.slot < s.meta.nEnd
      case NewPage(_, free) =>
        && p.Slow? && p.slot >= s.meta.nEnd
        && (free.Some? ==> 0 < free.value <= |s.pages| && !Usable(s.pages[free.value - 1]))
      case VacuumPage(_) => p.Vacuum? && p.next < p.npages
      case VacuumMeta(_) => p.Vacuum? && p.next == p.npages && s.metaLock.None?
      case ScanPage(_) => p.Scan? && p.next < p.npages
      case EndScan(_) => p.Scan? && p.next == p.npages
  }

  /** Tuples whose signature passes the scan's test, as heap pointers. */
  function Hits(items: seq<Item>, key: Sign): multiset<nat> { HitsTo(items, |items|, key) }

  function HitsTo(items: seq<Item>, m: nat, key: Sign): multiset<nat>
    requires m <= |items|
  {
    if m == 0 then multiset{}
    else HitsTo(items, m - 1, key) + if Matching(items[m - 1], key) then multiset{items[m - 1].tid} else multiset{}
  }

  predicate Matching(t: Item, key: Sign) { |t.sign| == |key| && Passes(t.sign, key) }

  /** Every block number a process or the metapage holds is a data block. */
  predicate InRange(s: State, blk: nat) { 0 < blk <= |s.pages| }

  predicate MetaOK(s: State)
  {
    && s.meta.nStart <= s.meta.nEnd <= LIST_MAX == |s.meta.notFull|
    && forall i :: s.meta.nStart <= i < s.meta.nEnd ==> InRange(s, s.meta.notFull[i])
  }

  ghost predicate ProcOK(s: State, pid: nat, p: Proc)
  {
    match p
    case Insert(_) => true
    case Fast(_, blk) => InRange(s, blk)
    case Wait(_, _) => true
    case Slow(_, slot) => s.metaLock == Some(pid) && s.meta.nStart <= slot <= s.meta.nEnd
    case Vacuum(dead, n, x, list, added) =>
      && x <= n <= |s.pages| && |list| <= LIST_MAX && |list| <= x
      && (forall i :: 0 <= i < |list| ==> InRange(s, list[i]))
      && VacuumOK(s.pages, dead, n, x, added)
    case Scan(key, n, x, seen, found, start, gone) =>
      && x <= n <= |s.pages|
      && ScanOK(s.pages, n, x, seen, start, gone) && FoundOK(key, seen, found)
  }

  /** Behind a bulk deletion, a condemned tuple came in after it began. */
  ghost predicate VacuumOK(pages: seq<Page>, dead: set<nat>, n: nat, x: nat, added: multiset<Item>)
    requires x <= n <= |pages|
  {
    forall t: Item :: t.tid in dead ==> Copies(pages, 0, x, t) + Copies(pages, n, |pages|, t) <= added[t]
  }

  /** What was stored when a scan began was seen, lies ahead, or was removed. */
  ghost predicate ScanOK(pages: seq<Page>, n: nat, x: nat, seen: multiset<Item>, start: seq<Page>, gone: multiset<Item>)
    requires x <= n <= |pages|
  {
    forall t: Item :: Copies(start, 0, |start|, t) <= seen[t] + Copies(pages, x, n, t) + gone[t]
  }

  /** A scan returns the heap pointers of the tuples seen that pass, and no others. */
  ghost predicate FoundOK(key: Sign, seen: multiset<Item>, found: multiset<nat>)
  {
    && (forall t: Item :: Matching(t, key) ==> found[t.tid] >= seen[t])
    && (forall tid :: tid in found ==> exists t :: t in seen && Matching(t, key) && t.tid == tid)
  }

  ghost predicate Inv(o: Options, s: State)
  {
    && OptionsOK(o) && MetaOK(s)
    && (forall i :: 0 <= i < |s.pages| ==> PageOK(s.pages[i], ItemSize(o)))
    && (s.metaLock.Some? ==> s.metaLock.value in s.procs && s.procs[s.metaLock.value].Slow?)
    && (forall pid :: pid in s.procs ==> ProcOK(s, pid, s.procs[pid]))
  }

  /** A tuple is in: the page is replaced and the insertion is over. */
  function Put(s: State, pid: nat, blk: nat, page: Page, t: Item): State
    requires 0 < blk <= |s.pages|
  {
    s.(pages := s.pages[blk - 1 := page], procs := Notify(s.procs - {pid}, multiset{t}, multiset{}))
  }

  /** An insertion reads the list under a share lock. */
  function Picked(s: State, pid: nat): State
    requires pid in s.procs && s.procs[pid].Insert? && MetaOK(s)
  {
    var t := s.procs[pid].item;
    s.(procs := s.procs[pid := if s.meta.nEnd > s.meta.nStart then Fast(t, s.meta.notFull[s.meta.nStart]) else Wait(t, None)])
  }

  /** It tries that page, the metapage unlocked. */
  function TriedFast(o: Options, s: State, pid: nat): State
    requires pid in s.procs && s.procs[pid].Fast? && InRange(s, s.procs[pid].blk)
  {
    var p := s.procs[pid];
    match TryAdd(o, s.pages[p.blk - 1], p.item)
    case None => s.(procs := s.procs[pid := Wait(p.item, Some(p.blk))])
    case Some(page) => Put(s, pid, p.blk, page, p.item)
  }

  /** It locks the metapage, and skips the page it has tried if that is still first. */
  function Locked(s: State, pid: nat): State
    requires pid in s.procs && s.procs[pid].Wait? && MetaOK(s)
  {
    var p := s.procs[pid];
    var skip := s.meta.nStart < s.meta.nEnd && p.tried == Some(s.meta.notFull[s.meta.nStart]);
    s.(metaLock := Some(pid), procs := s.procs[pid := Slow(p.item, s.meta.nStart + if skip then 1 else 0)])
  }

  /** It tries the next listed page; on success the list now starts there. */
  function TriedSlow(o: Options, s: State, pid: nat): State
    requires pid in s.procs && s.procs[pid].Slow? && MetaOK(s) && s.meta.nStart <= s.procs[pid].slot < s.meta.nEnd
  {
    var p := s.procs[pid];
    var blk := s.meta.notFull[p.slot];
    match TryAdd(o, s.pages[blk - 1], p.item)
    case None => s.(procs := s.procs[pid := p.(slot := p.slot + 1)])
    case Some(page) => Put(s, pid, blk, page, p.item).(metaLock := None, meta := s.meta.(nStart := p.slot))
  }

  /** Out of listed pages, it takes a free page or extends the file. */
  function PutNew(s: State, pid: nat, free: Option<nat>): State
    requires pid in s.procs && s.procs[pid].Slow? && MetaOK(s) && (free.Some? ==> InRange(s, free.value))
  {
    var t := s.procs[pid].item;
    var s1 := if free.Some? then s else s.(pages := s.pages + [Fresh]);
    var blk := if free.Some? then free.value else |s1.pages|;
    Put(s1, pid, blk, Page(false, [t]), t).(metaLock := None, meta := Meta(0, 1, s.meta.notFull[0 := blk]))
  }

  /** Bulk deletion compacts one page and may list it. */
  function CompactedPage(o: Options, s: State, pid: nat): State
    requires pid in s.procs && s.procs[pid].Vacuum? && s.procs[pid].next < |s.pages|
  {
    var p := s.procs[pid];
    var was := s.pages[p.next];
    var page := Vacuumed(was, p.dead);
    var list := if Listed(page, ItemSize(o)) && |p.list| < LIST_MAX then p.list + [p.next + 1] else p.list;
    s.(pages := s.pages[p.next := page],
       procs := Notify(s.procs, multiset{}, multiset(Doomed(Live(was), p.dead)))[pid := p.(next := p.next + 1, list := list)])
  }

  /** Bulk deletion ends by replacing the list. */
  function Relisted(s: State, pid: nat): State
    requires pid in s.procs && s.procs[pid].Vacuum? && |s.procs[pid].list| <= |s.meta.notFull|
  {
    var list := s.procs[pid].list;
    s.(meta := Meta(0, |list|, list + s.meta.notFull[|list|..]), procs := s.procs - {pid})
  }

  function Scanned(s: State, pid: nat): State
    requires pid in s.procs && s.procs[pid].Scan? && s.procs[pid].next < |s.pages|
  {
    var p := s.procs[pid];
    var items := Live(s.pages[p.next]);
    s.(procs := s.procs[pid := p.(next := p.next + 1, seen := p.seen + multiset(items), found := p.found + Hits(items, p.key))])
  }

  function Apply(o: Options, s: State, a: Step): State
    requires Inv(o, s) && Enabled(o, s, a)
  {
    assert !a.Begin? ==> ProcOK(s, a.pid, s.procs[a.pid]);
    match a
    case Begin(pid, p) => s.(procs := s.procs[pid := p])
    case Pick(pid) => Picked(s, pid)
    case TryFast(pid) => TriedFast(o, s, pid)
    case LockMeta(pid) => Locked(s, pid)
    case TrySlow(pid) => TriedSlow(o, s, pid)
    case NewPage(pid, free) => PutNew(s, pid, free)
    case VacuumPage(pid) => CompactedPage(o, s, pid)
    case VacuumMeta(pid) => Relisted(s, pid)
    case ScanPage(pid) => Scanned(s, pid)
    case EndScan(pid) => s.(procs := s.procs - {pid})
  }
}
