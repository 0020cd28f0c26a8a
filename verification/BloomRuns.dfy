/** Whole runs of the bloom access method, over any interleaving of insertions, bulk
    deletions, page recycling and scans. */
module BloomRuns {
  import opened BloomSignature
  import opened BloomPage
  import opened BloomProtocol
  import opened BloomSafety

  ghost predicate Legal(o: Options, s: State, steps: seq<Step>)
    requires Inv(o, s)
    decreases |steps|
  {
    steps == [] ||
    (Enabled(o, s, steps[0]) && (StepKeeps(o, s, steps[0]); Legal(o, Apply(o, s, steps[0]), steps[1..])))
  }

  ghost function Final(o: Options, s: State, steps: seq<Step>): (r: State)
    requires Inv(o, s) && Legal(o, s, steps)
    ensures Inv(o, r)
    decreases |steps|
  {
    if steps == [] then s else StepKeeps(o, s, steps[0]); Final(o, Apply(o, s, steps[0]), steps[1..])
  }

  ghost function Added(o: Options, s: State, steps: seq<Step>): multiset<Item>
    requires Inv(o, s) && Legal(o, s, steps)
    decreases |steps|
  {
    if steps == [] then multiset{}
    else
      StepKeeps(o, s, steps[0]);
      AddedBy(o, s, steps[0]) + Added(o, Apply(o, s, steps[0]), steps[1..])
  }

  ghost function Removed(o: Options, s: State, steps: seq<Step>): multiset<Item>
    requires Inv(o, s) && Legal(o, s, steps)
    decreases |steps|
  {
    if steps == [] then multiset{}
    else
      StepKeeps(o, s, steps[0]);
      RemovedBy(o, s, steps[0]) + Removed(o, Apply(o, s, steps[0]), steps[1..])
  }

  /** Over any run the index holds what it held, plus what finished insertions put
      in, minus what bulk deletions took out. */
  lemma {:induction false} RunConserves(o: Options, s: State, steps: seq<Step>, t: Item)
    requires Inv(o, s) && Legal(o, s, steps)
    ensures Stored(Final(o, s, steps), t) + Removed(o, s, steps)[t] == Stored(s, t) + Added(o, s, steps)[t]
    decreases |steps|
  {
    if steps != [] {
      StepKeeps(o, s, steps[0]);
      StepConserves(o, s, steps[0], t);
      RunConserves(o, Apply(o, s, steps[0]), steps[1..], t);
    }
  }

  /** Bulk deletion takes only what its callback condemns. */
  lemma RemovedAreCondemned(o: Options, s: State, a: Step, t: Item)
    requires Inv(o, s) && Enabled(o, s, a) && t in RemovedBy(o, s, a)
    ensures a.VacuumPage? && t.tid in s.procs[a.pid].dead
  {
    var p := s.procs[a.pid];
    assert ProcOK(s, a.pid, p);
    SurvivorsSplit(Live(s.pages[p.next]), p.dead);
  }

  // ------------------------------------------------------- insertions end well

  predicate Inserts(p: Proc, t: Item) { (p.Insert? || p.Fast? || p.Wait? || p.Slow?) && p.item == t }

  /** An insertion goes on with its tuple, or it is over and the tuple is stored once
      more than before; no other step ends it. */
  lemma InsertionStep(o: Options, s: State, a: Step, pid: nat, t: Item)
    requires Inv(o, s) && Enabled(o, s, a) && pid in s.procs && Inserts(s.procs[pid], t)
    ensures var s' := Apply(o, s, a);
      if pid in s'.procs then Inserts(s'.procs[pid], t)
      else !a.Begin? && a.pid == pid && AddedBy(o, s, a) == multiset{t} && Stored(s', t) == Stored(s, t) + 1
  {
    if !a.Begin? && a.pid == pid {
      OwnInsertionStep(o, s, a, t);
    } else {
      OtherInsertionStep(o, s, a, pid, t);
    }
  }

  lemma OtherInsertionStep(o: Options, s: State, a: Step, pid: nat, t: Item)
    requires Inv(o, s) && Enabled(o, s, a) && pid in s.procs && Inserts(s.procs[pid], t) && (a.Begin? || a.pid != pid)
    ensures pid in Apply(o, s, a).procs && Inserts(Apply(o, s, a).procs[pid], t)
  {
    hide ProcOK, PageOK, TryAdd, Hits;
  }

  lemma OwnInsertionStep(o: Options, s: State, a: Step, t: Item)
    requires Inv(o, s) && Enabled(o, s, a) && !a.Begin? && a.pid in s.procs && Inserts(s.procs[a.pid], t)
    ensures var s' := Apply(o, s, a);
      if a.pid in s'.procs then Inserts(s'.procs[a.pid], t)
      else AddedBy(o, s, a) == multiset{t} && Stored(s', t) == Stored(s, t) + 1
  {
    OwnInsertionAdds(o, s, a, t);
    StepConserves(o, s, a, t);
    hide Apply, AddedBy, Stored, ProcOK, PageOK;
  }

  lemma OwnInsertionAdds(o: Options, s: State, a: Step, t: Item)
    requires Inv(o, s) && Enabled(o, s, a) && !a.Begin? && a.pid in s.procs && Inserts(s.procs[a.pid], t)
    ensures var s' := Apply(o, s, a);
      if a.pid in s'.procs then Inserts(s'.procs[a.pid], t) else AddedBy(o, s, a) == multiset{t}
    ensures RemovedBy(o, s, a) == multiset{}
  {
    hide ProcOK, PageOK, TryAdd, Hits;
  }

  /** So an insertion that is over has put its tuple in. */
  lemma {:induction false} InsertionStores(o: Options, s: State, steps: seq<Step>, pid: nat, t: Item)
    requires Inv(o, s) && Legal(o, s, steps) && pid in s.procs && Inserts(s.procs[pid], t)
    ensures pid !in Final(o, s, steps).procs ==> Added(o, s, steps)[t] >= 1
    decreases |steps|
  {
    if steps != [] {
      StepKeeps(o, s, steps[0]);
      InsertionStep(o, s, steps[0], pid, t);
      if pid in Apply(o, s, steps[0]).procs {
        InsertionStores(o, Apply(o, s, steps[0]), steps[1..], pid, t);
      }
    }
  }

  /** A stored tuple sits on one page, and if it is stored once, on one only. */
  lemma {:induction false} OnOnePage(pages: seq<Page>, hi: nat, t: Item) returns (q: nat)
    requires hi <= |pages| && Copies(pages, 0, hi, t) == 1
    ensures q < hi && multiset(Live(pages[q]))[t] == 1
    ensures forall i :: 0 <= i < hi && t in Live(pages[i]) ==> i == q
  {
    if t in Live(pages[hi - 1]) {
      q := hi - 1;
      NoCopies(pages, hi - 1, t);
    } else {
      q := OnOnePage(pages, hi - 1, t);
    }
  }

  lemma {:induction false} NoCopies(pages: seq<Page>, hi: nat, t: Item)
    requires hi <= |pages| && Copies(pages, 0, hi, t) == 0
    ensures forall i :: 0 <= i < hi ==> t !in Live(pages[i])
  {
    if hi > 0 {
      NoCopies(pages, hi - 1, t);
    }
  }

  // ------------------------------------------------------------------ scans

  /** What a scan records as gone is what the run removed. */
  lemma {:induction false} ScanHistory(o: Options, s: State, steps: seq<Step>, pid: nat)
    requires Inv(o, s) && Legal(o, s, steps) && pid in s.procs && s.procs[pid].Scan? && EndScan(pid) !in steps
    ensures var e := Final(o, s, steps);
      pid in e.procs && e.procs[pid].Scan? && e.procs[pid].gone == s.procs[pid].gone + Removed(o, s, steps)
      && e.procs[pid].start == s.procs[pid].start && e.procs[pid].key == s.procs[pid].key
    decreases |steps|
  {
    if steps != [] {
      StepKeeps(o, s, steps[0]);
      StepTells(o, s, steps[0], pid);
      ScanHistory(o, Apply(o, s, steps[0]), steps[1..], pid);
    }
  }

  /** What a bulk deletion records as added is what the run added. */
  lemma {:induction false} VacuumHistory(o: Options, s: State, steps: seq<Step>, pid: nat)
    requires Inv(o, s) && Legal(o, s, steps) && pid in s.procs && s.procs[pid].Vacuum? && VacuumMeta(pid) !in steps
    ensures var e := Final(o, s, steps);
      pid in e.procs && e.procs[pid].Vacuum? && e.procs[pid].added == s.procs[pid].added + Added(o, s, steps)
      && e.procs[pid].dead == s.procs[pid].dead
    decreases |steps|
  {
    if steps != [] {
      StepKeeps(o, s, steps[0]);
      StepTells(o, s, steps[0], pid);
      VacuumHistory(o, Apply(o, s, steps[0]), steps[1..], pid);
    }
  }

  lemma StepTells(o: Options, s: State, a: Step, pid: nat)
    requires Inv(o, s) && Enabled(o, s, a) && pid in s.procs && a != EndScan(pid) && a != VacuumMeta(pid)
    ensures s.procs[pid].Vacuum? ==>
      pid in Apply(o, s, a).procs && Apply(o, s, a).procs[pid].Vacuum?
      && Apply(o, s, a).procs[pid].added == s.procs[pid].added + AddedBy(o, s, a)
      && Apply(o, s, a).procs[pid].dead == s.procs[pid].dead
    ensures s.procs[pid].Scan? ==>
      pid in Apply(o, s, a).procs && Apply(o, s, a).procs[pid].Scan?
      && Apply(o, s, a).procs[pid].gone == s.procs[pid].gone + RemovedBy(o, s, a)
      && Apply(o, s, a).procs[pid].start == s.procs[pid].start && Apply(o, s, a).procs[pid].key == s.procs[pid].key
  {
    if a.pid != pid {
      OtherTells(o, s, a, pid);
    } else if a.VacuumPage? || a.ScanPage? {
      OwnTells(o, s, a);
    }
  }

  lemma OwnTells(o: Options, s: State, a: Step)
    requires Inv(o, s) && Enabled(o, s, a) && (a.VacuumPage? || a.ScanPage?)
    ensures var p, s' := s.procs[a.pid], Apply(o, s, a);
      && AddedBy(o, s, a) == multiset{} && (a.ScanPage? ==> RemovedBy(o, s, a) == multiset{})
      && a.pid in s'.procs
      && (a.VacuumPage? ==> s'.procs[a.pid].Vacuum? && s'.procs[a.pid].added == p.added && s'.procs[a.pid].dead == p.dead)
      && (a.ScanPage? ==> s'.procs[a.pid].Scan? && s'.procs[a.pid].gone == p.gone
                          && s'.procs[a.pid].start == p.start && s'.procs[a.pid].key == p.key)
  {
  }

  lemma OtherTells(o: Options, s: State, a: Step, pid: nat)
    requires Inv(o, s) && Enabled(o, s, a) && pid in s.procs && a.pid != pid
    ensures pid in Apply(o, s, a).procs
    ensures Apply(o, s, a).procs[pid] == Told(s.procs[pid], AddedBy(o, s, a), RemovedBy(o, s, a))
  {
    hide VacuumOK, ScanOK, FoundOK, PageOK, TryAdd, Hits;
    assert !a.Begin? ==> ProcOK(s, a.pid, s.procs[a.pid]);
    assert Told(s.procs[pid], multiset{}, multiset{}) == s.procs[pid];
  }

  /** A scan that runs beside anything else returns every tuple that was stored when
      it began, was not removed while it ran, and has the values it asks for. */
  lemma ScanFinds(o: Options, s: State, pid: nat, key: Sign, steps: seq<Step>, t: Item, row: seq<Datum>, asked: seq<Datum>)
    requires Inv(o, s) && Legal(o, s, [Begin(pid, StartScan(s, key))] + steps)
    requires EndScan(pid) !in steps
    requires AllSignable(o, row) && t.sign == Signature(o, row)
    requires AllSignable(o, asked) && key == Signature(o, asked)
    requires forall d :: d in asked ==> d in row
    requires var run := [Begin(pid, StartScan(s, key))] + steps; Stored(s, t) > Removed(o, s, run)[t]
    ensures var run := [Begin(pid, StartScan(s, key))] + steps;
      var e := Final(o, s, run);
      pid in e.procs && e.procs[pid].Scan? && (e.procs[pid].next == e.procs[pid].npages ==> t.tid in e.procs[pid].found)
  {
    var a := Begin(pid, StartScan(s, key));
    var run := [a] + steps;
    assert run[0] == a && run[1..] == steps;
    StepKeeps(o, s, a);
    var s1 := Apply(o, s, a);
    ScanHistory(o, s1, steps, pid);
    var e := Final(o, s1, steps);
    assert Final(o, s, run) == e;
    NoFalseNegatives(o, row, asked);
    FinishedScan(o, e, pid, t);
  }

  lemma FinishedScan(o: Options, s: State, pid: nat, t: Item)
    requires Inv(o, s) && pid in s.procs && s.procs[pid].Scan? && Matching(t, s.procs[pid].key)
    ensures var p := s.procs[pid];
      p.next == p.npages && Copies(p.start, 0, |p.start|, t) > p.gone[t] ==> t.tid in p.found
  {
    var p := s.procs[pid];
    assert ProcOK(s, pid, p);
    assert p.found[t.tid] >= p.seen[t];
  }

  function StartScan(s: State, key: Sign): Proc
  {
    Scan(key, |s.pages|, 0, multiset{}, multiset{}, s.pages, multiset{})
  }

  // ---------------------------------------------------------- bulk deletion

  function StartVacuum(s: State, dead: set<nat>): Proc
  {
    Vacuum(dead, |s.pages|, 0, [], multiset{})
  }

  /** When bulk deletion has passed every page, a condemned tuple still stored came in
      after it began. */
  lemma BulkDeleteIsComplete(o: Options, s: State, pid: nat, dead: set<nat>, steps: seq<Step>, t: Item)
    requires Inv(o, s) && Legal(o, s, [Begin(pid, StartVacuum(s, dead))] + steps)
    requires VacuumMeta(pid) !in steps && t.tid in dead
    ensures var run := [Begin(pid, StartVacuum(s, dead))] + steps;
      var e := Final(o, s, run);
      && pid in e.procs && e.procs[pid].Vacuum?
      && (e.procs[pid].next == e.procs[pid].npages ==> Stored(e, t) <= Added(o, s, run)[t])
  {
    var a := Begin(pid, StartVacuum(s, dead));
    var run := [a] + steps;
    assert run[0] == a && run[1..] == steps;
    StepKeeps(o, s, a);
    var s1 := Apply(o, s, a);
    VacuumHistory(o, s1, steps, pid);
    var e := Final(o, s1, steps);
    assert Final(o, s, run) == e;
    PassedVacuum(o, e, pid, t);
  }

  lemma PassedVacuum(o: Options, s: State, pid: nat, t: Item)
    requires Inv(o, s) && pid in s.procs && s.procs[pid].Vacuum? && t.tid in s.procs[pid].dead
    ensures s.procs[pid].next == s.procs[pid].npages ==> Stored(s, t) <= s.procs[pid].added[t]
  {
    var p := s.procs[pid];
    assert ProcOK(s, pid, p);
    CopiesSplit(s.pages, 0, p.npages, |s.pages|, t);
  }
}
