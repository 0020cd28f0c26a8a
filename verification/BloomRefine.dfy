/** What one backend does alone is a run of the concurrent protocol. */
module BloomRefine {
  import opened Optional
  import opened BloomSignature
  import opened BloomPage
  import opened BloomProtocol
  import opened BloomSafety
  import opened BloomRuns
  import opened BloomIndex

  predicate Alone(s: State) { s.procs == map[] && s.metaLock.None? }

  lemma Ahead(o: Options, s: State, a: Step, steps: seq<Step>)
    requires Inv(o, s) && Enabled(o, s, a)
    requires Inv(o, Apply(o, s, a)) && Legal(o, Apply(o, s, a), steps)
    ensures Legal(o, s, [a] + steps) && Final(o, s, [a] + steps) == Final(o, Apply(o, s, a), steps)
  {
    assert ([a] + steps)[1..] == steps;
  }

  // --------------------------------------------------------------- insertion

  /** The steps from the point where the metapage is locked and slots up to here tried. */
  lemma {:induction false} SlowRun(o: Options, s: State, t: Item, slot: nat, free: Option<nat>) returns (steps: seq<Step>)
    requires Inv(o, s) && s.procs == map[0 := Slow(t, slot)]
    requires free.Some? ==> InRange(s, free.value) && !Usable(s.pages[free.value - 1])
    requires s.meta.nStart <= slot <= s.meta.nEnd && Landing(o, s, t, s.meta.nStart) == Landing(o, s, t, slot)
    ensures Legal(o, s, steps)
    ensures Final(o, s, steps) == Inserted(o, s, t, free).(procs := map[], metaLock := None)
    decreases s.meta.nEnd - slot
  {
    hide ProcOK, Apply, Enabled, PageOK, TryAdd;
    if slot < s.meta.nEnd && !Takes(o, s, t, slot) {
      var s' := PassSlot(o, s, t, slot);
      steps := SlowRun(o, s', t, slot + 1, free);
      Ahead(o, s, TrySlow(0), steps);
      steps := [TrySlow(0)] + steps;
    } else {
      var a := if slot < s.meta.nEnd then TrySlow(0) else NewPage(0, free);
      LastSlowStep(o, s, t, slot, free, a);
      Ahead(o, s, a, []);
      steps := [a] + [];
    }
  }

  lemma PassSlot(o: Options, s: State, t: Item, slot: nat) returns (s': State)
    requires Inv(o, s) && s.procs == map[0 := Slow(t, slot)]
    requires s.meta.nStart <= slot < s.meta.nEnd && !Takes(o, s, t, slot)
    ensures Enabled(o, s, TrySlow(0)) && s' == Apply(o, s, TrySlow(0)) && Inv(o, s')
    ensures s' == s.(procs := map[0 := Slow(t, slot + 1)])
    ensures Landing(o, s', t, s.meta.nStart) == Landing(o, s, t, s.meta.nStart)
    ensures Landing(o, s', t, slot + 1) == Landing(o, s, t, slot)
  {
    hide ProcOK, PageOK;
    StepKeeps(o, s, TrySlow(0));
    s' := Apply(o, s, TrySlow(0));
    SameLanding(o, s, s', t, s.meta.nStart);
    SameLanding(o, s, s', t, slot + 1);
  }

  lemma LastSlowStep(o: Options, s: State, t: Item, slot: nat, free: Option<nat>, a: Step)
    requires Inv(o, s) && s.procs == map[0 := Slow(t, slot)]
    requires free.Some? ==> InRange(s, free.value) && !Usable(s.pages[free.value - 1])
    requires s.meta.nStart <= slot <= s.meta.nEnd && Landing(o, s, t, s.meta.nStart) == slot
    requires a == if slot < s.meta.nEnd then TrySlow(0) else NewPage(0, free)
    ensures Enabled(o, s, a) && Inv(o, Apply(o, s, a))
    ensures Apply(o, s, a) == Inserted(o, s, t, free).(procs := map[], metaLock := None)
  {
    hide ProcOK;
    StepKeeps(o, s, a);
    if slot == s.meta.nEnd && free.None? {
      var pages := s.pages + [Fresh];
      assert pages[|s.pages| := Page(false, [t])] == s.pages + [Page(false, [t])];
    }
  }

  lemma {:induction false} SameLanding(o: Options, s: State, s': State, t: Item, slot: nat)
    requires MetaOK(s) && s'.meta == s.meta && s'.pages == s.pages && s.meta.nStart <= slot <= s.meta.nEnd
    ensures Landing(o, s', t, slot) == Landing(o, s, t, slot)
    decreases s.meta.nEnd - slot
  {
    if slot < s.meta.nEnd {
      SameLanding(o, s, s', t, slot + 1);
    }
  }

  /** An insertion with no one else running is a run of the protocol. */
  lemma InsertIsRun(o: Options, s: State, t: Item, free: Option<nat>) returns (steps: seq<Step>)
    requires Inv(o, s) && Alone(s)
    requires free.Some? ==> InRange(s, free.value) && !Usable(s.pages[free.value - 1])
    ensures Legal(o, s, steps) && Final(o, s, steps) == Inserted(o, s, t, free)
  {
    hide ProcOK;
    var begin := Begin(0, Insert(t));
    StepKeeps(o, s, begin);
    var s1 := Apply(o, s, begin);
    StepKeeps(o, s1, Pick(0));
    var s2 := Apply(o, s1, Pick(0));
    if s.meta.nStart < s.meta.nEnd {
      steps := FastRun(o, s2, t, free);
    } else {
      steps := LockedRun(o, s2, t, free, None);
    }
    SameLanding(o, s, s2, t, s.meta.nStart);
    Ahead(o, s1, Pick(0), steps);
    steps := [Pick(0)] + steps;
    Ahead(o, s, begin, steps);
    steps := [begin] + steps;
  }

  lemma FastRun(o: Options, s: State, t: Item, free: Option<nat>) returns (steps: seq<Step>)
    requires Inv(o, s) && s.metaLock.None? && s.meta.nStart < s.meta.nEnd
    requires s.procs == map[0 := Fast(t, s.meta.notFull[s.meta.nStart])]
    requires free.Some? ==> InRange(s, free.value) && !Usable(s.pages[free.value - 1])
    ensures Legal(o, s, steps) && Final(o, s, steps) == Inserted(o, s, t, free).(procs := map[])
  {
    hide ProcOK;
    StepKeeps(o, s, TryFast(0));
    var s' := Apply(o, s, TryFast(0));
    if Takes(o, s, t, s.meta.nStart) {
      steps := [];
    } else {
      assert s' == s.(procs := map[0 := Wait(t, Some(s.meta.notFull[s.meta.nStart]))]);
      steps := LockedRun(o, s', t, free, Some(s.meta.notFull[s.meta.nStart]));
      SameLanding(o, s, s', t, s.meta.nStart);
    }
    Ahead(o, s, TryFast(0), steps);
    steps := [TryFast(0)] + steps;
  }

  lemma LockedRun(o: Options, s: State, t: Item, free: Option<nat>, tried: Option<nat>) returns (steps: seq<Step>)
    requires Inv(o, s) && s.metaLock.None? && s.procs == map[0 := Wait(t, tried)]
    requires if s.meta.nStart < s.meta.nEnd
             then tried == Some(s.meta.notFull[s.meta.nStart]) && !Takes(o, s, t, s.meta.nStart)
             else tried == None
    requires free.Some? ==> InRange(s, free.value) && !Usable(s.pages[free.value - 1])
    ensures Legal(o, s, steps) && Final(o, s, steps) == Inserted(o, s, t, free).(procs := map[])
  {
    hide ProcOK, PageOK, TryAdd;
    StepKeeps(o, s, LockMeta(0));
    var s' := Apply(o, s, LockMeta(0));
    var slot := if s.meta.nStart < s.meta.nEnd then s.meta.nStart + 1 else s.meta.nStart;
    SameLanding(o, s, s', t, s.meta.nStart);
    SameLanding(o, s, s', t, slot);
    steps := SlowRun(o, s', t, slot, free);
    Ahead(o, s, LockMeta(0), steps);
    steps := [LockMeta(0)] + steps;
  }

  // ------------------------------------------------------------ bulk deletion

  /** The pages before x have been compacted. */
  predicate SweepsAt(o: Options, s: State, target: seq<Page>, x: nat)
  {
    && s.metaLock.None? && s.procs.Keys == {0} && s.procs[0].Vacuum? &&
    var p := s.procs[0];
    && p.next == x <= p.npages == |s.pages| == |target| && p.list == ListUpTo(target, x, ItemSize(o))
    && (forall q :: 0 <= q < x ==> s.pages[q] == target[q])
    && (forall q :: x <= q < |target| ==> target[q] == Vacuumed(s.pages[q], p.dead))
  }

  lemma SweepStep(o: Options, s: State, target: seq<Page>, x: nat) returns (s': State)
    requires Inv(o, s) && SweepsAt(o, s, target, x) && x < |target|
    ensures Enabled(o, s, VacuumPage(0)) && s' == Apply(o, s, VacuumPage(0)) && Inv(o, s')
    ensures s'.meta == s.meta && SweepsAt(o, s', target, x + 1)
  {
    hide ProcOK;
    StepKeeps(o, s, VacuumPage(0));
    s' := Apply(o, s, VacuumPage(0));
  }

  lemma RelistStep(o: Options, s: State, target: seq<Page>)
    requires Inv(o, s) && SweepsAt(o, s, target, |target|)
    ensures Enabled(o, s, VacuumMeta(0)) && Inv(o, Apply(o, s, VacuumMeta(0)))
    ensures var list := ListUpTo(target, |target|, ItemSize(o));
      Apply(o, s, VacuumMeta(0)) == s.(pages := target, procs := map[], meta := Meta(0, |list|, list + s.meta.notFull[|list|..]))
  {
    hide ProcOK;
    StepKeeps(o, s, VacuumMeta(0));
    assert s.pages == target;
  }

  /** The steps that are left from there. */
  lemma {:induction false} SweepRun(o: Options, s: State, target: seq<Page>, x: nat) returns (steps: seq<Step>)
    requires Inv(o, s) && SweepsAt(o, s, target, x)
    ensures Legal(o, s, steps)
    ensures var list := ListUpTo(target, |target|, ItemSize(o));
      Final(o, s, steps) == s.(pages := target, procs := map[], meta := Meta(0, |list|, list + s.meta.notFull[|list|..]))
    decreases |target| - x
  {
    hide ProcOK, Apply, Enabled, ListUpTo;
    if x < |target| {
      var s' := SweepStep(o, s, target, x);
      steps := SweepRun(o, s', target, x + 1);
      Ahead(o, s, VacuumPage(0), steps);
      steps := [VacuumPage(0)] + steps;
    } else {
      RelistStep(o, s, target);
      Ahead(o, s, VacuumMeta(0), []);
      steps := [VacuumMeta(0)] + [];
    }
  }

  /** So is a bulk deletion. */
  lemma DeleteIsRun(o: Options, s: State, dead: set<nat>) returns (steps: seq<Step>)
    requires Inv(o, s) && Alone(s)
    ensures Legal(o, s, steps) && Final(o, s, steps) == Deleted(o, s, dead)
  {
    hide ProcOK;
    var begin := Begin(0, StartVacuum(s, dead));
    StepKeeps(o, s, begin);
    var s' := Apply(o, s, begin);
    steps := SweepRun(o, s', Swept(s.pages, dead), 0);
    Ahead(o, s, begin, steps);
    steps := [begin] + steps;
  }

  // -------------------------------------------------------------------- scan

  predicate ScansAt(s: State, x: nat, key: Sign)
  {
    && s.procs.Keys == {0} && s.procs[0].Scan? && s.procs[0].key == key
    && s.procs[0].next == x <= s.procs[0].npages == |s.pages| && s.procs[0].found == HitsUpTo(s.pages, x, key)
  }

  lemma ReadStep(o: Options, s: State, x: nat, key: Sign) returns (s': State)
    requires Inv(o, s) && ScansAt(s, x, key) && x < |s.pages|
    ensures Enabled(o, s, ScanPage(0)) && s' == Apply(o, s, ScanPage(0)) && Inv(o, s')
    ensures s'.pages == s.pages && ScansAt(s', x + 1, key)
  {
    hide ProcOK, Hits;
    StepKeeps(o, s, ScanPage(0));
    s' := Apply(o, s, ScanPage(0));
  }

  lemma {:induction false} ReadRun(o: Options, s: State, x: nat, key: Sign) returns (steps: seq<Step>)
    requires Inv(o, s) && ScansAt(s, x, key)
    ensures Legal(o, s, steps) && EndScan(0) !in steps && ScansAt(Final(o, s, steps), |s.pages|, key)
    ensures Final(o, s, steps).pages == s.pages
    decreases |s.pages| - x
  {
    hide ProcOK, Apply, Enabled, HitsUpTo;
    if x == |s.pages| {
      steps := [];
    } else {
      var s' := ReadStep(o, s, x, key);
      steps := ReadRun(o, s', x + 1, key);
      Ahead(o, s, ScanPage(0), steps);
      steps := [ScanPage(0)] + steps;
    }
  }

  /** So is a scan, and it finds what the page loop finds. */
  lemma ScanIsRun(o: Options, s: State, key: Sign) returns (steps: seq<Step>)
    requires Inv(o, s) && Alone(s)
    ensures Legal(o, s, [Begin(0, StartScan(s, key))] + steps) && EndScan(0) !in steps
    ensures ScansAt(Final(o, s, [Begin(0, StartScan(s, key))] + steps), |s.pages|, key)
    ensures Final(o, s, [Begin(0, StartScan(s, key))] + steps).pages == s.pages
  {
    hide ProcOK;
    var begin := Begin(0, StartScan(s, key));
    StepKeeps(o, s, begin);
    steps := ReadRun(o, Apply(o, s, begin), 0, key);
    Ahead(o, s, begin, steps);
  }
}
