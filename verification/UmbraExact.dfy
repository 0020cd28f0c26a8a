/** The clean-remap condition is exact: a remap that meets a dirty or
    checkpoint-marked buffer always has a continuation that loses the page. */
module UmbraExact {
  import opened Optional
  import opened UmbraLog
  import opened UmbraRuntime
  import opened UmbraSafety
  import opened UmbraRecovery

  // ---------------------------------------- dirty buffers really are ahead

  /** Written blocks were handed out, and hold nothing newer than the log. */
  predicate DiskOK(s: State)
  {
    forall p :: p in s.disk ==> p < s.reserved && p !in s.held && PageLsn(s.disk[p]) <= |s.wal|
  }

  predicate Ahead(s: State, l: nat)
  {
    l in s.bufs && s.bufs[l].dirty && l in s.mapping ==> !OnDisk(s, s.mapping[l], s.bufs[l].hist)
  }

  ghost predicate Exact(s: State)
  {
    Inv(s) && DiskOK(s) && forall l :: Ahead(s, l)
  }

  lemma CurrentBlock(s: State, l: nat)
    requires Inv(s) && l in s.mapping
    ensures s.mapping[l] < s.reserved && s.mapping[l] !in s.held
    ensures MapAt(s.wal, |s.wal|, l) == Some(s.mapping[l])
    ensures l in s.bufs ==> PageLsn(s.bufs[l].hist) <= |s.wal|
  {
    assert BlockOK(s, l);
    HistBounded(s.wal, |s.wal|, l);
    var i := Allocator(s.wal, |s.wal|, l);
  }

  lemma FlushAhead(s: State, l: nat, active: bool)
    requires Exact(s) && Enabled(s, Flush(l, active))
    ensures DiskOK(FlushStep(s, l, active))
    ensures forall k :: Ahead(FlushStep(s, l, active), k)
  {
    var s' := FlushStep(s, l, active);
    CurrentBlock(s, l);
    assert BlockOK(s, l);
    forall k ensures Ahead(s', k) {
      assert Ahead(s, k);
      if k != l && k in s.mapping {
        CurrentBlock(s, k);
        OwnersDiffer(s.wal, |s.wal|, k, |s.wal|, l);
      }
    }
  }

  lemma ChangeAhead(s: State, a: Step)
    requires Exact(s) && Enabled(s, a) && (a.Change? || a.Birth?)
    ensures DiskOK(Apply(s, a))
    ensures forall k :: Ahead(Apply(s, a), k)
  {
    forall k ensures Ahead(Apply(s, a), k) {
      assert Ahead(s, k);
    }
  }

  lemma QuietAhead(s: State, a: Step)
    requires Exact(s) && Enabled(s, a) && !a.Change? && !a.Birth? && !a.Flush?
    ensures DiskOK(Apply(s, a))
    ensures forall k :: Ahead(Apply(s, a), k)
  {
    forall k ensures Ahead(Apply(s, a), k) {
      assert Ahead(s, k);
    }
  }

  lemma {:induction false} ExactRun(s: State, steps: seq<Step>)
    requires Exact(s) && CleanRun(s, steps) && Run(s, steps).Some?
    ensures Exact(Run(s, steps).value)
    decreases |steps|
  {
    if steps != [] {
      var a := steps[0];
      StepKeeps(s, a);
      if a.Flush? {
        FlushAhead(s, a.l, a.active);
      } else if a.Change? || a.Birth? {
        ChangeAhead(s, a);
      } else {
        QuietAhead(s, a);
      }
      ExactRun(Apply(s, a), steps[1..]);
    }
  }

  // ------------------------------------------- completing the checkpoint

  function Pending(s: State): set<nat> { set l | l in s.bufs && s.bufs[l].ckpt }

  /** Marked buffers are writable, and none of them lives on a watched block. */
  predicate Drainable(s: State, watch: set<nat>)
  {
    && s.phase.Marked?
    && forall l :: l in s.bufs && s.bufs[l].ckpt ==>
         && l in s.mapping && (s.bufs[l].dirty || s.bufs[l].touched)
         && s.bufs[l].saved.None? && s.mapping[l] !in watch
  }

  /** What the drain leaves alone. */
  predicate SameLog(s: State, t: State, watch: set<nat>)
  {
    && t.wal == s.wal && t.redo == s.redo && t.mapping == s.mapping
    && (forall p :: p in watch ==> (p in t.disk <==> p in s.disk) && (p in s.disk ==> t.disk[p] == s.disk[p]))
  }

  lemma DrainStep(s: State, l: nat, watch: set<nat>) returns (t: State)
    requires Drainable(s, watch) && l in Pending(s)
    ensures Enabled(s, Flush(l, true)) && t == Apply(s, Flush(l, true))
    ensures Drainable(t, watch) && Pending(t) == Pending(s) - {l} && SameLog(s, t, watch)
  {
    t := Apply(s, Flush(l, true));
  }

  lemma {:induction false} Drain(s: State, watch: set<nat>) returns (steps: seq<Step>)
    requires Drainable(s, watch)
    ensures CleanRun(s, steps) && Run(s, steps).Some?
    ensures SameLog(s, Run(s, steps).value, watch)
    ensures Enabled(Run(s, steps).value, SyncFiles)
    decreases |Pending(s)|
  {
    if Pending(s) == {} {
      assert forall l :: l in s.bufs && s.bufs[l].ckpt ==> l in Pending(s);
      steps := [];
    } else {
      var l :| l in Pending(s);
      var t := DrainStep(s, l, watch);
      var more := Drain(t, watch);
      steps := [Flush(l, true)] + more;
      assert steps[1..] == more;
    }
  }

  lemma {:induction false} RunThen(s: State, a: seq<Step>, b: seq<Step>)
    requires CleanRun(s, a) && Run(s, a).Some? && CleanRun(Run(s, a).value, b) && Run(Run(s, a).value, b).Some?
    ensures CleanRun(s, a + b) && Run(s, a + b) == Run(Run(s, a).value, b)
    decreases |a|
  {
    if a == [] {
      assert a + b == b;
    } else {
      RunThen(Apply(s, a[0]), a[1..], b);
      assert (a + b)[1..] == a[1..] + b;
    }
  }

  /** From any drainable state the checkpoint can complete, watched blocks intact. */
  lemma Complete(s: State, watch: set<nat>) returns (steps: seq<Step>)
    requires Drainable(s, watch)
    ensures CleanRun(s, steps) && Run(s, steps).Some?
    ensures SameLog(s, Run(s, steps).value, watch)
    ensures Run(s, steps).value.durableRedo == s.redo && Run(s, steps).value.flushed == |s.wal|
  {
    var drain := Drain(s, watch);
    var t := Run(s, drain).value;
    var last := [SyncFiles, FinishCheckpoint];
    assert last[1..] == [FinishCheckpoint] && last[1..][1..] == [];
    assert Run(t, last) == Run(Apply(t, SyncFiles), last[1..]);
    RunThen(s, drain, last);
    steps := drain + last;
  }

  // ------------------------------------------------------- losing the page

  /** The disk as the last writes left it. */
  function Intact(s: State): Image
  {
    Image(s.wal, s.durableRedo, s.durableMap, s.durableNext, s.disk)
  }

  predicate SameWatched(a: map<nat, seq<nat>>, b: map<nat, seq<nat>>, watch: set<nat>)
  {
    forall p :: p in watch ==> (p in a <==> p in b) && (p in a ==> a[p] == b[p])
  }

  /** Records of other blocks, replayed, leave l unread and the watched blocks alone. */
  lemma {:induction false} ReplayOthers(img: Image, rs: RState, n: nat, l: nat, watch: set<nat>) returns (steps: seq<RStep>)
    requires WellFormed(img.wal) && rs.pos <= n <= |img.wal| && Untouched(img.wal, l, rs.pos, n)
    requires l !in rs.bufs
    requires forall k :: 0 <= k < n && img.wal[k].lblk != l && img.wal[k].Remap? ==> img.wal[k].oldP !in watch
    ensures var r := RRun(img, rs, steps);
      r.Some? ==> r.value.pos == n && l !in r.value.bufs && SameWatched(rs.disk, r.value.disk, watch)
    decreases n - rs.pos
  {
    if rs.pos == n || RApply(img, rs, Redo).None? {
      steps := if rs.pos == n then [] else [Redo];
    } else {
      var more := ReplayOthers(img, RApply(img, rs, Redo).value, n, l, watch);
      steps := [Redo] + more;
      assert steps[1..] == more;
    }
  }

  lemma {:induction false} RRunThen(img: Image, rs: RState, a: seq<RStep>, b: seq<RStep>)
    requires RRun(img, rs, a).Some?
    ensures RRun(img, rs, a + b) == RRun(img, RRun(img, rs, a).value, b)
    decreases |a|
  {
    if a == [] {
      assert a + b == b;
    } else {
      RRunThen(img, RApply(img, rs, a[0]).value, a[1..], b);
      assert (a + b)[1..] == a[1..] + b;
    }
  }

  /** The two ways to lose: the old block misses a change, or it already holds the
      remap's own change while the new block was never written. */
  predicate BadBaseline(img: Image)
  {
    && |img.wal| > 0
    && var n := |img.wal| - 1;
       var r := img.wal[n];
       && r.Remap? && img.redo <= n && Untouched(img.wal, r.lblk, img.redo, n)
       && (r.oldP in img.disk ==>
             || (img.disk[r.oldP] != Hist(img.wal, n, r.lblk) && PageLsn(img.disk[r.oldP]) <= n)
             || (PageLsn(img.disk[r.oldP]) == n + 1 && r.newP !in img.disk))
  }

  lemma OldBlocksDiffer(w: Wal, n: nat, k: nat)
    requires WellFormed(w) && k < n < |w| && w[n].Remap? && w[k].Remap? && w[k].lblk != w[n].lblk
    ensures w[k].oldP != w[n].oldP && w[k].oldP != w[n].newP
  {
    assert FitsAt(w, n) && FitsAt(w, k);
    OwnersDiffer(w, n, w[n].lblk, k, w[k].lblk);
    var i := Allocator(w, k, w[k].lblk);
  }

  lemma BadBaselineLoses(img: Image) returns (rsteps: seq<RStep>)
    requires WellFormed(img.wal) && BadBaseline(img)
    ensures !Recovers(img, rsteps)
  {
    var n := |img.wal| - 1;
    var r := img.wal[n];
    var watch := {r.oldP, r.newP};
    forall k | 0 <= k < n && img.wal[k].lblk != r.lblk && img.wal[k].Remap? ensures img.wal[k].oldP !in watch {
      OldBlocksDiffer(img.wal, n, k);
    }
    rsteps := ReplayOthers(img, Begin(img), n, r.lblk, watch);
    if RRun(img, Begin(img), rsteps).Some? {
      var rs := RRun(img, Begin(img), rsteps).value;
      var last := LastRecordLoses(img, rs);
      RRunThen(img, Begin(img), rsteps, last);
      rsteps := rsteps + last;
    }
  }

  lemma LastRecordLoses(img: Image, rs: RState) returns (last: seq<RStep>)
    requires WellFormed(img.wal) && BadBaseline(img) && rs.pos == |img.wal| - 1
    requires img.wal[rs.pos].lblk !in rs.bufs
    requires SameWatched(img.disk, rs.disk, {img.wal[rs.pos].oldP, img.wal[rs.pos].newP})
    ensures var t := RRun(img, rs, last);
      t.Some? ==> t.value.pos == |img.wal| && !Restored(img, t.value)
  {
    var r := img.wal[rs.pos];
    last := [Redo, Drop(r.lblk)];
    assert last[1..] == [Drop(r.lblk)] && last[1..][1..] == [];
    if r.oldP in rs.disk {
      var t := RApply(img, rs, Redo).value;
      var u := RApply(img, t, Drop(r.lblk)).value;
      assert RRun(img, rs, last) == RRun(img, t, last[1..]);
      assert RRun(img, t, last[1..]) == Some(u);
      assert MapAt(img.wal, |img.wal|, r.lblk) == Some(r.newP);
      if PageLsn(img.disk[r.oldP]) <= rs.pos {
        OtherPrefix(img.disk[r.oldP], Hist(img.wal, rs.pos, r.lblk), rs.pos + 1);
        assert ReadPage(u, r.lblk).value.hist != Hist(img.wal, |img.wal|, r.lblk);
      } else {
        assert ReadPage(u, r.lblk).None?;
      }
    }
  }

  lemma OtherPrefix(a: seq<nat>, b: seq<nat>, x: nat)
    requires a != b
    ensures a + [x] != b + [x]
  {
    assert a == (a + [x])[..|a|] && b == (b + [x])[..|b|];
  }

  // ------------------------------------------------------ the exact condition

  ghost predicate NeverLoses(s: State)
  {
    forall more, img, rsteps ::
      CleanRun(s, more) && Run(s, more).Some? && CrashImage(Run(s, more).value, img) ==> Recovers(img, rsteps)
  }

  lemma LosingRun(s: State, more: seq<Step>)
    requires CleanRun(s, more) && Run(s, more).Some?
    requires var t := Run(s, more).value; WellFormed(t.wal) && t.flushed <= |t.wal| && BadBaseline(Intact(t))
    ensures !NeverLoses(s)
  {
    var t := Run(s, more).value;
    var rsteps := BadBaselineLoses(Intact(t));
    assert CrashImage(t, Intact(t));
  }

  lemma RemapFacts(s: State, l: nat, p: nat)
    requires Exact(s) && Enabled(s, Change(l, p)) && NeedsRemap(s, l)
    ensures WellFormed(s.wal + [Remap(l, s.mapping[l], p)])
    ensures Untouched(s.wal, l, s.redo, |s.wal|) && s.bufs[l].hist == Hist(s.wal, |s.wal|, l)
    ensures s.mapping[l] != p && p !in s.disk
    ensures forall x :: x in s.bufs && x != l ==> x in s.mapping && s.mapping[x] != s.mapping[l] && s.mapping[x] != p
    ensures forall x :: x in s.bufs ==> s.bufs[x].saved.None? && (s.bufs[x].ckpt ==> s.phase.Marked? && (s.bufs[x].dirty || s.bufs[x].touched))
  {
    assert BlockOK(s, l);
    CurrentBlock(s, l);
    LsnTellsTouched(s.wal, l, s.redo, |s.wal|);
    AppendKeepsWellFormed(s.wal, Remap(l, s.mapping[l], p));
    forall x | x in s.bufs
      ensures x in s.mapping && s.bufs[x].saved.None? && (s.bufs[x].ckpt ==> s.phase.Marked? && (s.bufs[x].dirty || s.bufs[x].touched))
      ensures x != l ==> s.mapping[x] != s.mapping[l] && s.mapping[x] != p
    {
      assert BlockOK(s, x);
      CurrentBlock(s, x);
      if x != l {
        OwnersDiffer(s.wal, |s.wal|, x, |s.wal|, l);
      }
    }
  }

  lemma AppendedRemap(w: Wal, l: nat, a: nat, o: nat, p: nat)
    requires Untouched(w, l, a, |w|) && a <= |w|
    ensures var v := w + [Remap(l, o, p)];
      Untouched(v, l, a, |w|) && Hist(v, |w|, l) == Hist(w, |w|, l)
  {
    AppendUntouched(w, Remap(l, o, p), l, a, |w|);
    Append(w, Remap(l, o, p), |w|, l);
  }

  lemma ReachMark(s: State) returns (steps: seq<Step>, t: State)
    requires s.phase.Started? || s.phase.MapWritten?
    ensures CleanRun(s, steps) && Run(s, steps) == Some(t)
    ensures t.phase.Marked? && t.wal == s.wal && t.redo == s.redo && t.mapping == s.mapping && t.disk == s.disk
    ensures t.bufs.Keys == s.bufs.Keys
    ensures forall l :: l in s.bufs ==>
      t.bufs[l] == s.bufs[l].(ckpt := s.bufs[l].ckpt || s.bufs[l].dirty || s.bufs[l].touched)
  {
    var m := [MarkBuffers];
    assert m[1..] == [];
    if s.phase.Started? {
      var s1 := Apply(s, WriteMap);
      t := Apply(s1, MarkBuffers);
      assert Run(s1, m) == Some(t) && CleanRun(s1, m);
      steps := [WriteMap] + m;
      assert steps[1..] == m;
    } else {
      t := Apply(s, MarkBuffers);
      steps := m;
    }
  }

  /** Before the checkpoint captures, a dirty page's old block stays behind. */
  lemma StaleLoses(s: State, l: nat, p: nat)
    requires Exact(s) && Enabled(s, Change(l, p)) && NeedsRemap(s, l)
    requires s.bufs[l].dirty && (s.phase.Started? || s.phase.MapWritten?)
    ensures !NeverLoses(ChangeStep(s, l, p))
  {
    hide BlockOK, NeverLoses, FrontierOK;
    RemapFacts(s, l, p);
    var t, o := ChangeStep(s, l, p), s.mapping[l];
    AppendedRemap(s.wal, l, s.redo, o, p);
    assert Ahead(s, l);
    var mark, u := ReachMark(t);
    var finish := Complete(u, {o});
    RunThen(t, mark, finish);
    LosingRun(t, mark + finish);
  }

  /** While it captures, the old block takes the new change and the new one none. */
  lemma CapturedLoses(s: State, l: nat, p: nat)
    requires Exact(s) && Enabled(s, Change(l, p)) && NeedsRemap(s, l) && s.bufs[l].ckpt
    ensures !NeverLoses(ChangeStep(s, l, p))
  {
    hide BlockOK, NeverLoses, FrontierOK;
    RemapFacts(s, l, p);
    var t, o := ChangeStep(s, l, p), s.mapping[l];
    AppendedRemap(s.wal, l, s.redo, o, p);
    var first := [Flush(l, false)];
    var u := Apply(t, first[0]);
    assert first[1..] == [] && Run(t, first) == Some(u);
    var finish := Complete(u, {o, p});
    RunThen(t, first, finish);
    LosingRun(t, first + finish);
  }

  /** After any clean run, a step is one after which nothing can be lost exactly when
      it is not a remap of a dirty or checkpoint-marked buffer. */
  lemma SafeIffClean(steps: seq<Step>, a: Step)
    requires CleanRun(InitState(), steps) && Run(InitState(), steps).Some?
    requires Enabled(Run(InitState(), steps).value, a)
    ensures CleanRemap(Run(InitState(), steps).value, a) <==> NeverLoses(Apply(Run(InitState(), steps).value, a))
  {
    InitHolds();
    ExactRun(InitState(), steps);
    var s := Run(InitState(), steps).value;
    if CleanRemap(s, a) {
      StepKeeps(s, a);
      KeptNeverLoses(Apply(s, a));
    } else {
      assert BlockOK(s, a.l);
      RemapFacts(s, a.l, a.p);
      if s.bufs[a.l].ckpt {
        CapturedLoses(s, a.l, a.p);
      } else {
        StaleLoses(s, a.l, a.p);
      }
    }
  }

  lemma KeptNeverLoses(s: State)
    requires Inv(s)
    ensures NeverLoses(s)
  {
    forall more, img, rsteps | CleanRun(s, more) && Run(s, more).Some? && CrashImage(Run(s, more).value, img)
      ensures Recovers(img, rsteps)
    {
      CleanRunKeeps(s, more);
      CrashRecovers(Run(s, more).value, img, rsteps);
    }
  }

  /** Such a remap is reachable: a page born before the redo point and changed
      before the checkpoint gets to it. */
  lemma UncleanRemapReachable() returns (steps: seq<Step>, a: Step)
    ensures CleanRun(InitState(), steps) && Run(InitState(), steps).Some?
    ensures Enabled(Run(InitState(), steps).value, a) && !CleanRemap(Run(InitState(), steps).value, a)
  {
    var s0 := InitState();
    var s1 := Apply(s0, Reserve);
    var s2 := Apply(s1, Step.Birth(0, 0));
    var s3 := Apply(s2, StartCheckpoint);
    var s4 := Apply(s3, Reserve);
    var t4: seq<Step> := [];
    var t3 := [Reserve];
    var t2 := [StartCheckpoint, Reserve];
    var t1 := [Step.Birth(0, 0), StartCheckpoint, Reserve];
    steps := [Reserve, Step.Birth(0, 0), StartCheckpoint, Reserve];
    assert steps[1..] == t1 && t1[1..] == t2 && t2[1..] == t3 && t3[1..] == t4;
    assert Run(s3, t3) == Some(s4) && CleanRun(s3, t3);
    assert Run(s2, t2) == Some(s4) && CleanRun(s2, t2);
    assert Run(s1, t1) == Some(s4) && CleanRun(s1, t1);
    assert Run(s0, steps) == Some(s4) && CleanRun(s0, steps);
    a := Change(0, 1);
  }
}
