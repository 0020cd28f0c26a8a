/** What the steps do for their callers: each birth and change of a page is logged once
    and in its buffer, what reaches the disk is logged first, a checkpoint waits for every
    buffer it marked, and recovery brings back every change that was made. */
module UmbraChanges {
  import opened Optional
  import opened UmbraLog
  import opened UmbraRuntime
  import opened UmbraSafety
  import opened UmbraRecovery
  import opened UmbraLife

  // ------------------------------------------------------------- one step

  /** The step changes the contents of a page. */
  predicate Changes(a: Step) { a.Birth? || a.Change? }

  /** Nothing but block l's page, its place and the log differ. */
  predicate OnlyBlock(s: State, t: State, l: nat)
  {
    && t.bufs.Keys == s.bufs.Keys + {l} && (forall k :: k in s.bufs && k != l ==> t.bufs[k] == s.bufs[k])
    && t.mapping.Keys == s.mapping.Keys + {l} && (forall k :: k in s.mapping && k != l ==> t.mapping[k] == s.mapping[k])
    && t.disk == s.disk && t.unsynced == s.unsynced && t.flushed == s.flushed
    && t.durableMap == s.durableMap && t.mapStale == s.mapStale && t.durableNext == s.durableNext
    && t.redo == s.redo && t.durableRedo == s.durableRedo && t.phase == s.phase
  }

  /** The record a birth or a change of block l must leave: a change moves the block
      exactly when there was none since the redo point. */
  predicate RightRecord(s: State, a: Step, r: Record)
    requires Changes(a) && (a.Change? ==> a.l in s.mapping)
  {
    if a.Birth? then r == Record.Birth(a.l, a.p)
    else if Untouched(s.wal, a.l, s.redo, |s.wal|) then r == Remap(a.l, s.mapping[a.l], a.p)
    else r == Delta(a.l)
  }

  /** A birth or a change adds one record, on its own block, and that record's LSN to what
      the block's buffer holds; a record that moves the block moves the mapping. */
  lemma ChangeIsLogged(s: State, a: Step)
    requires Inv(s) && Enabled(s, a) && Changes(a)
    ensures var t, l := Apply(s, a), a.l;
      && |t.wal| == |s.wal| + 1 && t.wal[..|s.wal|] == s.wal && RightRecord(s, a, t.wal[|s.wal|])
      && l in t.bufs && t.bufs[l].dirty
      && t.bufs[l].hist == (if l in s.bufs then s.bufs[l].hist else []) + [|s.wal| + 1]
      && l in t.mapping && t.mapping[l] == (if t.wal[|s.wal|].Delta? then s.mapping[l] else a.p)
      && OnlyBlock(s, t, l)
  {
    hide BaselineOK, DurableMapOK, LoggedOK, PendingOK, RestingOK;
    assert BlockOK(s, a.l);
    if a.Change? {
      LsnTellsTouched(s.wal, a.l, s.redo, |s.wal|);
    }
  }

  /** No other step touches the log. */
  lemma OthersLogNothing(s: State, a: Step)
    requires Enabled(s, a) && !Changes(a)
    ensures Apply(s, a).wal == s.wal
  {
  }

  /** Writing a buffer: its page, logged before, is what its physical block now holds, and
      nothing but that block and that buffer differ. */
  lemma FlushWrites(s: State, l: nat, active: bool)
    requires Inv(s) && Enabled(s, Flush(l, active))
    ensures var t, p := Apply(s, Flush(l, active)), s.mapping[l];
      && OnDisk(t, p, s.bufs[l].hist) && PageLsn(s.bufs[l].hist) <= t.flushed
      && l in t.bufs && t.bufs[l].hist == s.bufs[l].hist
      && !t.bufs[l].dirty && !t.bufs[l].touched && !t.bufs[l].ckpt
      && (s.bufs[l].dirty ==> p in t.unsynced)
      && WritesOwn(s, t, l, p)
  {
    assert BlockOK(s, l);
    FlushWritesOwn(s, l, active);
  }

  /** A buffer whose old block was remembered for the checkpoint goes there first, logged
      before; on an active write it goes to its new block as well, else it stays dirty for
      that one. */
  lemma CapturedFlush(s: State, l: nat, active: bool, o: nat)
    requires Enabled(s, Flush(l, active)) && s.bufs[l].dirty && s.bufs[l].ckpt && s.bufs[l].saved == Some(o) && o != s.mapping[l]
    ensures var t, p, h := Apply(s, Flush(l, active)), s.mapping[l], s.bufs[l].hist;
      && OnDisk(t, o, h) && o in t.unsynced && PageLsn(h) <= t.flushed
      && t.bufs[l].hist == h && !t.bufs[l].ckpt && t.bufs[l].saved.None? && t.bufs[l].dirty == !active
      && (if active then OnDisk(t, p, h) && p in t.unsynced
          else (p in t.disk <==> p in s.disk) && (p in s.disk ==> t.disk[p] == s.disk[p]))
      && forall q :: q != o && q != p ==> (q in t.disk <==> q in s.disk) && (q in s.disk ==> t.disk[q] == s.disk[q])
  {
  }

  /** A buffer that is dropped comes back as it was. */
  lemma EvictedReadsBack(s: State, l: nat)
    requires Inv(s) && Enabled(s, Evict(l))
    ensures var t := Apply(s, Evict(l));
      && OnlyLacks(s, t, l) && Enabled(t, Read(l))
      && l in Apply(t, Read(l)).bufs && Apply(t, Read(l)).bufs[l].hist == s.bufs[l].hist
      && OnlyLacks(Apply(t, Read(l)), t, l)
  {
    assert BlockOK(s, l);
  }

  /** t is s without the buffer of l. */
  predicate OnlyLacks(s: State, t: State, l: nat)
  {
    t == s.(bufs := t.bufs) && l in s.bufs && t.bufs.Keys == s.bufs.Keys - {l} && forall k :: k in t.bufs ==> t.bufs[k] == s.bufs[k]
  }

  /** A reserved block is one that nothing has used: no record, no mapping, no other
      reservation. */
  lemma ReservedIsUnused(s: State) returns (p: nat)
    requires Inv(s)
    ensures Apply(s, Reserve).held == s.held + {p} && p !in s.held
    ensures forall i :: 0 <= i < |s.wal| && !s.wal[i].Delta? ==> s.wal[i].newP != p
    ensures forall l :: l in s.mapping ==> s.mapping[l] != p
  {
    p := s.reserved;
    forall l | l in s.mapping ensures s.mapping[l] != p {
      assert BlockOK(s, l);
      var i := Allocator(s.wal, |s.wal|, l);
    }
  }

  /** A MAP entry that is written is the present one, behind its record. */
  lemma EntryWritten(s: State, l: nat)
    requires Inv(s) && Enabled(s, WriteMapEntry(l))
    ensures var t := Apply(s, WriteMapEntry(l));
      && Entry(t.durableMap, l) == MapAt(s.wal, |s.wal|, l) && Entry(t.durableMap, l).Some?
      && (exists k :: 0 <= k < t.flushed && k < |t.wal| && t.wal[k].lblk == l && !t.wal[k].Delta? && t.wal[k].newP == s.mapping[l])
      && forall k :: k != l ==> Entry(t.durableMap, k) == Entry(s.durableMap, k)
  {
    assert BlockOK(s, l);
    var k := LastMove(s.wal, |s.wal|, l);
  }

  /** The record that gave l its place. */
  lemma {:induction false} LastMove(w: Wal, n: nat, l: nat) returns (k: nat)
    requires n <= |w| && MapAt(w, n, l).Some?
    ensures k < n && w[k].lblk == l && !w[k].Delta? && MapAt(w, n, l) == Some(w[k].newP) && MapLsn(w, n, l) == k + 1
  {
    if w[n - 1].lblk == l && !w[n - 1].Delta? {
      k := n - 1;
    } else {
      k := LastMove(w, n - 1, l);
    }
  }

  /** Until the files are synced a written entry may fall back to what was there before;
      then it may not. */
  lemma EntryMayFallBack(s: State, l: nat)
    requires Enabled(s, WriteMapEntry(l))
    ensures var t := Apply(s, WriteMapEntry(l)); Versions(t, l) == Versions(s, l) + {Entry(t.durableMap, l)}
    ensures Enabled(s, SyncFiles) ==> Versions(Apply(s, SyncFiles), l) == {Entry(s.durableMap, l)}
  {
  }

  /** A hint makes a buffer worth writing, and changes nothing else. */
  lemma TouchedIsWritable(s: State, l: nat, active: bool)
    requires Enabled(s, Touch(l)) && l in s.mapping
    ensures var t := Apply(s, Touch(l));
      && Enabled(t, Flush(l, active)) && t.bufs[l].hist == s.bufs[l].hist && t.bufs[l].dirty == s.bufs[l].dirty
      && t == s.(bufs := s.bufs[l := t.bufs[l]])
  {
  }

  /** What a crash may leave: any part of the log from what was flushed on, anything at
      all in unsynced blocks, and of each MAP entry and of the frontier any version. */
  lemma CrashMayLeave(s: State, n: nat, m: map<nat, nat>, next: nat, disk: map<nat, seq<nat>>)
    requires s.flushed <= n <= |s.wal| && (next == s.syncedNext || next == s.durableNext)
    requires forall l :: Entry(m, l) in Versions(s, l)
    requires forall p :: p !in s.unsynced && p in s.disk ==> p in disk && disk[p] == s.disk[p]
    requires forall p :: p !in s.unsynced && p !in s.disk ==> p !in disk
    ensures CrashImage(s, Image(s.wal[..n], s.durableRedo, m, next, disk))
  {
  }

  // ------------------------------------------------------ the log comes first

  /** No block on disk holds a change that the flushed log lacks. */
  predicate LoggedFirst(s: State) { forall p :: p in s.disk ==> PageLsn(s.disk[p]) <= s.flushed }

  lemma StepLogsFirst(s: State, a: Step)
    requires Inv(s) && Enabled(s, a) && LoggedFirst(s)
    ensures LoggedFirst(Apply(s, a)) && s.flushed <= Apply(s, a).flushed
  {
    if a.Flush? {
      assert BlockOK(s, a.l);
    }
  }

  lemma {:induction false} RunLogsFirst(s: State, steps: seq<Step>)
    requires Inv(s) && CleanRun(s, steps) && Run(s, steps).Some? && LoggedFirst(s)
    ensures LoggedFirst(Run(s, steps).value)
    decreases |steps|
  {
    if steps != [] {
      StepKeeps(s, steps[0]);
      StepLogsFirst(s, steps[0]);
      RunLogsFirst(Apply(s, steps[0]), steps[1..]);
    }
  }

  /** So after a crash no synced block holds a change that the log has lost. */
  lemma NothingUnlogged(steps: seq<Step>, img: Image, p: nat)
    requires CleanRun(InitState(), steps) && Run(InitState(), steps).Some?
    requires CrashImage(Run(InitState(), steps).value, img)
    requires p in img.disk && p !in Run(InitState(), steps).value.unsynced
    ensures PageLsn(img.disk[p]) <= |img.wal|
  {
    InitHolds();
    RunLogsFirst(InitState(), steps);
  }

  // ------------------------------------------------------- a checkpoint waits

  predicate Awaited(s: State, l: nat)
  {
    s.phase.Marked? && l in s.bufs && l in s.mapping && s.bufs[l].ckpt && (s.bufs[l].dirty || s.bufs[l].touched)
  }

  lemma AwaitedStep(s: State, a: Step, l: nat)
    requires Awaited(s, l) && Enabled(s, a) && (a.Flush? ==> a.l != l)
    ensures Awaited(Apply(s, a), l)
  {
  }

  predicate NotWritten(steps: seq<Step>, l: nat) { forall i :: 0 <= i < |steps| && steps[i].Flush? ==> steps[i].l != l }

  lemma {:induction false} AwaitedStays(s: State, steps: seq<Step>, l: nat)
    requires Awaited(s, l) && Run(s, steps).Some? && NotWritten(steps, l)
    ensures Awaited(Run(s, steps).value, l)
    decreases |steps|
  {
    if steps != [] {
      hide Awaited, Apply;
      AwaitedStep(s, steps[0], l);
      AwaitedStays(Apply(s, steps[0]), steps[1..], l);
    }
  }

  /** Whatever happens after a checkpoint has marked the buffers, it does not sync before
      each that was dirty or touched has been written. */
  lemma CheckpointWaits(s: State, steps: seq<Step>, l: nat)
    requires s.phase.MapWritten? && l in s.bufs && l in s.mapping && (s.bufs[l].dirty || s.bufs[l].touched)
    requires Run(Apply(s, MarkBuffers), steps).Some? && NotWritten(steps, l)
    ensures !Enabled(Run(Apply(s, MarkBuffers), steps).value, SyncFiles)
  {
    AwaitedStays(Apply(s, MarkBuffers), steps, l);
  }

  // --------------------------------------------------------- whole histories

  /** The blocks that a run's steps change, in turn. */
  function Changed(steps: seq<Step>): seq<nat>
  {
    if steps == [] then [] else (if Changes(steps[0]) then [steps[0].l] else []) + Changed(steps[1..])
  }

  /** A log whose records are on these blocks. */
  predicate On(w: Wal, blocks: seq<nat>) { |w| == |blocks| && forall i :: 0 <= i < |w| ==> w[i].lblk == blocks[i] }

  /** The LSNs of the changes to l among the first n, ascending. */
  predicate IsHistory(h: seq<nat>, blocks: seq<nat>, n: nat, l: nat)
    requires n <= |blocks|
  {
    && (forall i, j :: 0 <= i < j < |h| ==> h[i] < h[j])
    && (forall x :: x in h ==> 0 < x <= n && blocks[x - 1] == l)
    && (forall x :: 0 < x <= n && blocks[x - 1] == l ==> x in h)
  }

  lemma HistoryGrows(h: seq<nat>, blocks: seq<nat>, n: nat, l: nat)
    requires 0 < n <= |blocks| && IsHistory(h, blocks, n - 1, l)
    ensures IsHistory(if blocks[n - 1] == l then h + [n] else h, blocks, n, l)
  {
    var g := h + [n];
    forall i, j | 0 <= i < j < |g| ensures g[i] < g[j] {
      assert h[i] in h;
    }
    forall x | 0 < x <= n && blocks[x - 1] == l ensures x in g {
      if x == n {
        assert g[|h|] == n;
      } else {
        assert x in h;
      }
    }
  }

  lemma {:induction false} HistIsHistory(w: Wal, blocks: seq<nat>, n: nat, l: nat)
    requires On(w, blocks) && n <= |w|
    ensures IsHistory(Hist(w, n, l), blocks, n, l)
  {
    if n > 0 {
      HistIsHistory(w, blocks, n - 1, l);
      HistoryGrows(Hist(w, n - 1, l), blocks, n, l);
    }
  }

  lemma StepLogsChange(s: State, a: Step, blocks: seq<nat>)
    requires Inv(s) && Enabled(s, a) && On(s.wal, blocks)
    ensures On(Apply(s, a).wal, if Changes(a) then blocks + [a.l] else blocks)
  {
    hide Inv, Apply, OnlyBlock, On;
    if Changes(a) {
      ChangeIsLogged(s, a);
      OneMore(s.wal, Apply(s, a).wal, blocks, a.l);
    } else {
      OthersLogNothing(s, a);
    }
  }

  /** The log of a run is the log before and one record for each change, in turn. */
  lemma {:induction false} RunLogsChanges(s: State, steps: seq<Step>, blocks: seq<nat>)
    requires Inv(s) && CleanRun(s, steps) && Run(s, steps).Some? && On(s.wal, blocks)
    ensures On(Run(s, steps).value.wal, blocks + Changed(steps))
    decreases |steps|
  {
    hide Inv, Apply, On;
    if steps == [] {
      assert blocks + Changed(steps) == blocks;
    } else {
      var a := steps[0];
      StepKeeps(s, a);
      StepLogsChange(s, a, blocks);
      var more := if Changes(a) then blocks + [a.l] else blocks;
      RunLogsChanges(Apply(s, a), steps[1..], more);
      assert more + Changed(steps[1..]) == blocks + Changed(steps);
    }
  }

  lemma OneMore(w: Wal, v: Wal, blocks: seq<nat>, l: nat)
    requires On(w, blocks) && |v| == |w| + 1 && v[..|w|] == w && v[|w|].lblk == l
    ensures On(v, blocks + [l])
  {
    forall i | 0 <= i < |w| ensures v[i].lblk == blocks[i] {
      assert v[i] == v[..|w|][i];
    }
  }

  /** How many of a run's steps change block l. */
  function ChangesOn(steps: seq<Step>, l: nat): nat
  {
    if steps == [] then 0 else (if Changes(steps[0]) && steps[0].l == l then 1 else 0) + ChangesOn(steps[1..], l)
  }

  /** A page's history grows by one entry for each of them. */
  lemma {:induction false} RunCountsChanges(s: State, steps: seq<Step>, l: nat)
    requires Inv(s) && CleanRun(s, steps) && Run(s, steps).Some?
    ensures var t := Run(s, steps).value;
      |Hist(t.wal, |t.wal|, l)| == |Hist(s.wal, |s.wal|, l)| + ChangesOn(steps, l)
    decreases |steps|
  {
    hide Inv, Apply, OnlyBlock;
    if steps != [] {
      var a, t := steps[0], Apply(s, steps[0]);
      StepKeeps(s, a);
      if Changes(a) {
        ChangeIsLogged(s, a);
        HistGrows(s.wal, t.wal, l);
      } else {
        OthersLogNothing(s, a);
      }
      RunCountsChanges(t, steps[1..], l);
    }
  }

  lemma HistGrows(w: Wal, v: Wal, l: nat)
    requires |v| == |w| + 1 && v[..|w|] == w
    ensures |Hist(v, |v|, l)| == |Hist(w, |w|, l)| + if v[|w|].lblk == l then 1 else 0
  {
    assert forall i :: 0 <= i < |w| ==> v[i] == v[..|w|][i];
    PrefixAgrees(w, v, |w|, l);
  }

  // ------------------------------------------------------------- recovery ends

  /** Redo reads one record after the other. */
  lemma RedoAdvances(img: Image, rs: RState)
    requires RInv(img, rs) && rs.pos < |img.wal|
    ensures RApply(img, rs, Redo).Some? && RApply(img, rs, Redo).value.pos == rs.pos + 1
  {
    RedoKeeps(img, rs);
  }

  /** So recovery can always be driven to the end of the log. */
  lemma {:induction false} RecoveryEnds(img: Image, rs: RState) returns (rsteps: seq<RStep>)
    requires RInv(img, rs)
    ensures var r := RRun(img, rs, rsteps); r.Some? && r.value.pos == |img.wal|
    decreases |img.wal| - rs.pos
  {
    if rs.pos == |img.wal| {
      rsteps := [];
    } else {
      RedoAdvances(img, rs);
      RedoKeeps(img, rs);
      var more := RecoveryEnds(img, RApply(img, rs, Redo).value);
      rsteps := [Redo] + more;
      assert rsteps[1..] == more;
    }
  }

  /** A page that recovery writes back and drops reads as before. */
  lemma WrittenReadsBack(img: Image, rs: RState, l: nat)
    requires RInv(img, rs) && l in rs.bufs
    ensures var t := RApply(img, rs, WriteBack(l));
      t.Some? &&
      var u := RApply(img, t.value, Drop(l));
      && u.Some? && l !in u.value.bufs
      && ReadPage(u.value, l).Some? && ReadPage(u.value, l).value.hist == rs.bufs[l].hist
  {
    assert RBlockOK(img, rs, l);
  }

  // -------------------------------------------------- every change comes back

  /** The page of l holds exactly the changes made to it among the first n of the run. */
  predicate HasChanges(rs: RState, blocks: seq<nat>, n: nat, l: nat)
    requires n <= |blocks|
  {
    if exists i :: 0 <= i < n && blocks[i] == l
    then ReadPage(rs, l).Some? && IsHistory(ReadPage(rs, l).value.hist, blocks, n, l)
    else l !in rs.mapping
  }

  /** Recovery from the surviving log ends with every page as the first changes left it:
      those of the log before the run, and then the run's own. */
  lemma LogComesBack(s: State, steps: seq<Step>, img: Image, last: Image, rsteps: seq<RStep>, blocks: seq<nat>)
    requires Inv(s) && On(s.wal, blocks) && CleanRun(s, steps) && Run(s, steps).Some?
    requires CrashImage(Run(s, steps).value, img) && RInv(last, Begin(last)) && last.wal == img.wal
    requires var r := RRun(last, Begin(last), rsteps); r.Some? ==> r.value.pos == |img.wal|
    ensures Run(s, steps).value.flushed <= |img.wal| <= |blocks + Changed(steps)|
    ensures RRun(last, Begin(last), rsteps).Some?
    ensures forall l :: HasChanges(RRun(last, Begin(last), rsteps).value, blocks + Changed(steps), |img.wal|, l)
  {
    hide RBlockOK, BlockOK;
    RunLogsChanges(s, steps, blocks);
    RunKeeps(last, Begin(last), rsteps);
    forall l ensures HasChanges(RRun(last, Begin(last), rsteps).value, blocks + Changed(steps), |img.wal|, l) {
      PageComesBack(Run(s, steps).value, last, RRun(last, Begin(last), rsteps).value, blocks + Changed(steps), l);
    }
  }

  /** Crash anywhere in a clean run and recover: what the flushed log held is there, and
      every page holds exactly the changes that the run made to it up to some point at or
      after that. */
  lemma ChangesComeBack(steps: seq<Step>, img: Image, rsteps: seq<RStep>)
    requires CleanRun(InitState(), steps) && Run(InitState(), steps).Some?
    requires CrashImage(Run(InitState(), steps).value, img)
    requires var r := RRun(img, Begin(img), rsteps); r.Some? ==> r.value.pos == |img.wal|
    ensures Run(InitState(), steps).value.flushed <= |img.wal| <= |Changed(steps)|
    ensures RRun(img, Begin(img), rsteps).Some?
    ensures forall l :: HasChanges(RRun(img, Begin(img), rsteps).value, Changed(steps), |img.wal|, l)
  {
    hide RBlockOK, BlockOK, HasChanges;
    InitHolds();
    CleanRunKeeps(InitState(), steps);
    BeginHolds(Run(InitState(), steps).value, img);
    LogComesBack(InitState(), steps, img, img, rsteps, []);
    assert [] + Changed(steps) == Changed(steps);
  }

  /** The same after any number of earlier lives, and through crashes during recovery. */
  lemma EveryChangeComesBack(epochs: seq<Epoch>, t: State, blocks: seq<nat>, steps: seq<Step>, img: Image,
                             tries: seq<Attempt>, last: Image, rsteps: seq<RStep>)
    requires Lives(InitState(), epochs, t) && On(t.wal, blocks) && CleanRun(t, steps) && Run(t, steps).Some?
    requires CrashImage(Run(t, steps).value, img) && Attempts(img, tries, last)
    requires var r := RRun(last, Begin(last), rsteps); r.Some? ==> r.value.pos == |img.wal|
    ensures Run(t, steps).value.flushed <= |img.wal| <= |blocks + Changed(steps)|
    ensures RRun(last, Begin(last), rsteps).Some?
    ensures forall l :: HasChanges(RRun(last, Begin(last), rsteps).value, blocks + Changed(steps), |img.wal|, l)
  {
    hide RBlockOK, BlockOK, HasChanges;
    InitHolds();
    LivesKeep(InitState(), epochs, t);
    CleanRunKeeps(t, steps);
    BeginHolds(Run(t, steps).value, img);
    AttemptsKeep(img, tries, last);
    LogComesBack(t, steps, img, last, rsteps, blocks);
  }

  lemma PageComesBack(s: State, img: Image, rs: RState, blocks: seq<nat>, l: nat)
    requires On(s.wal, blocks) && img.wal <= s.wal && RInv(img, rs) && rs.pos == |img.wal|
    ensures HasChanges(rs, blocks, |img.wal|, l)
  {
    var n := |img.wal|;
    DoneIsRestored(img, rs);
    PrefixAgrees(img.wal, s.wal, n, l);
    HistIsHistory(s.wal, blocks, n, l);
    assert RBlockOK(img, rs, l);
    if i :| 0 <= i < n && blocks[i] == l {
      assert img.wal[i] == s.wal[i];
      BornStays(img.wal, i, n, l);
    } else {
      NeverBorn(img.wal, n, l);
    }
  }

  lemma {:induction false} NeverBorn(w: Wal, n: nat, l: nat)
    requires n <= |w| && forall i :: 0 <= i < n ==> w[i].lblk != l
    ensures MapAt(w, n, l).None?
  {
    if n > 0 {
      NeverBorn(w, n - 1, l);
    }
  }
}
