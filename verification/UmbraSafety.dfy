/** Every run whose remaps find a clean buffer keeps, at all times, a durable
    baseline for every logical block. */
module UmbraSafety {
  import opened Optional
  import opened UmbraLog
  import opened UmbraRuntime

  lemma InitHolds()
    ensures Inv(InitState())
  {
  }

  // ---------------------------------------------- steps that append a record

  /** Another block's record changes nothing for l. */
  predicate Appends(s: State, s': State, r: Record)
  {
    && s'.wal == s.wal + [r] && s'.disk == s.disk && s'.unsynced == s.unsynced
    && s'.flushed == s.flushed && s'.durableMap == s.durableMap && s'.mapStale == s.mapStale
    && s'.redo == s.redo && s'.durableRedo == s.durableRedo && s'.phase == s.phase
  }

  predicate SameBlock(s: State, s': State, l: nat)
  {
    && (l in s'.mapping <==> l in s.mapping)
    && (l in s.mapping ==> s'.mapping[l] == s.mapping[l])
    && (l in s'.bufs <==> l in s.bufs)
    && (l in s.bufs ==> s'.bufs[l] == s.bufs[l])
  }

  lemma AppendUntouched(w: Wal, r: Record, l: nat, a: nat, b: nat)
    requires b <= |w|
    ensures Untouched(w + [r], l, a, b) <==> Untouched(w, l, a, b)
  {
    assert forall i :: 0 <= i < |w| ==> (w + [r])[i] == w[i];
  }

  lemma AppendTouched(s: State, s': State, r: Record, l: nat, a: nat)
    requires Appends(s, s', r) && TouchedDurably(s, l, a)
    ensures TouchedDurably(s', l, a)
  {
    var k :| a <= k < s.flushed && k < |s.wal| && s.wal[k].lblk == l;
    assert s'.wal[k] == s.wal[k];
  }

  lemma AppendVersion(s: State, s': State, r: Record, l: nat, a: nat, v: Option<nat>)
    requires a <= |s.wal| && VersionOK(s, l, a, v) && Appends(s, s', r)
    ensures VersionOK(s', l, a, v)
  {
    Append(s.wal, r, a, l);
    if TouchedDurably(s, l, a) {
      AppendTouched(s, s', r, l, a);
    }
  }

  /** Appending a record changes nothing about the MAP on disk. */
  lemma AppendMap(s: State, s': State, r: Record, l: nat)
    requires PositionsOK(s) && BlockOK(s, l) && Appends(s, s', r)
    ensures DurableMapOK(s', l, s.durableRedo) && LoggedOK(s', l)
    ensures MapIsDown(s.phase) ==> VersionOK(s', l, s.redo, Entry(s'.durableMap, l))
    ensures s.phase.Synced? || s.phase.Idle? ==> DurableMapOK(s', l, s.redo)
  {
    forall v | v in Versions(s', l)
      ensures VersionOK(s', l, s.durableRedo, v) && (s.phase.Synced? || s.phase.Idle? ==> VersionOK(s', l, s.redo, v))
      ensures v.Some? ==> TouchedDurably(s', l, 0)
    {
      assert v in Versions(s, l);
      AppendVersion(s, s', r, l, s.durableRedo, v);
      if s.phase.Synced? || s.phase.Idle? {
        AppendVersion(s, s', r, l, s.redo, v);
      }
      if v.Some? {
        AppendTouched(s, s', r, l, 0);
      }
    }
    if MapIsDown(s.phase) {
      AppendVersion(s, s', r, l, s.redo, Entry(s.durableMap, l));
    }
  }

  lemma EarlierFirst(s: State, s': State, r: Record, l: nat, a: nat, k: nat, synced: bool)
    requires BaselineOK(s, l, a, synced) && Appends(s, s', r)
    requires a <= k < |s.wal| && s.wal[k].lblk == l && Untouched(s'.wal, l, a, k)
    ensures FirstOK(s', k, synced)
  {
    AppendUntouched(s.wal, r, l, a, k);
    assert FirstOK(s, k, synced);
    Append(s.wal, r, k, l);
  }

  lemma OtherBaseline(s: State, s': State, r: Record, l: nat, a: nat, synced: bool)
    requires BaselineOK(s, l, a, synced) && Appends(s, s', r) && r.lblk != l
    ensures BaselineOK(s', l, a, synced)
  {
    forall k | a <= k < |s'.wal| && s'.wal[k].lblk == l && Untouched(s'.wal, l, a, k)
      ensures FirstOK(s', k, synced)
    {
      EarlierFirst(s, s', r, l, a, k, synced);
    }
  }

  lemma OtherResting(s: State, s': State, r: Record, l: nat, a: nat)
    requires a <= |s.wal| && Appends(s, s', r) && SameBlock(s, s', l) && r.lblk != l
    ensures UntouchedSince(s', l, a) == UntouchedSince(s, l, a)
    ensures RestingOK(s, l, a) ==> RestingOK(s', l, a)
  {
    var n := |s.wal|;
    Append(s.wal, r, n, l);
    AppendUntouched(s.wal, r, l, a, n);
    assert s'.wal[n] == r;
    assert Untouched(s'.wal, l, a, n + 1) <==> Untouched(s'.wal, l, a, n);
  }

  lemma OtherCurrent(s: State, s': State, r: Record, l: nat)
    requires CurrentOK(s, l) && Appends(s, s', r) && SameBlock(s, s', l) && r.lblk != l
    ensures CurrentOK(s', l)
  {
    Append(s.wal, r, |s.wal|, l);
  }

  lemma OtherBlockKeeps(s: State, s': State, r: Record, l: nat)
    requires PositionsOK(s) && BlockOK(s, l) && Appends(s, s', r) && SameBlock(s, s', l) && r.lblk != l
    ensures BlockOK(s', l)
  {
    OtherCurrent(s, s', r, l);
    OtherBaseline(s, s', r, l, s.redo, s.phase.Idle? || s.phase.Synced?);
    OtherBaseline(s, s', r, l, s.durableRedo, true);
    OtherResting(s, s', r, l, s.redo);
    OtherResting(s, s', r, l, s.durableRedo);
    AppendMap(s, s', r, l);
  }

  /** The new record is a fit first record since a, if it is the first. */
  predicate GoodFirst(s: State, r: Record, a: nat, synced: bool)
  {
    Untouched(s.wal, r.lblk, a, |s.wal|) ==>
      !r.Delta? && (r.Remap? ==> OnDisk(s, r.oldP, Hist(s.wal, |s.wal|, r.lblk)) && (synced ==> r.oldP !in s.unsynced))
  }

  lemma OwnBaseline(s: State, s': State, r: Record, a: nat, synced: bool)
    requires BaselineOK(s, r.lblk, a, synced) && a <= |s.wal| && Appends(s, s', r)
    requires GoodFirst(s, r, a, synced)
    ensures BaselineOK(s', r.lblk, a, synced)
  {
    forall k | a <= k < |s'.wal| && s'.wal[k].lblk == r.lblk && Untouched(s'.wal, r.lblk, a, k)
      ensures FirstOK(s', k, synced)
    {
      if k < |s.wal| {
        EarlierFirst(s, s', r, r.lblk, a, k, synced);
      } else {
        AppendUntouched(s.wal, r, r.lblk, a, k);
        Append(s.wal, r, k, r.lblk);
      }
    }
  }

  lemma OwnTouched(s: State, s': State, r: Record, a: nat)
    requires a <= |s.wal| && Appends(s, s', r)
    ensures !UntouchedSince(s', r.lblk, a)
  {
    assert s'.wal[|s.wal|] == r;
  }

  lemma OwnCurrent(s: State, s': State, r: Record, b: Buf)
    requires CurrentOK(s, r.lblk) && Appends(s, s', r)
    requires Fits(r, MapAt(s.wal, |s.wal|, r.lblk))
    requires r.lblk in s'.mapping
    requires if r.Delta? then r.lblk in s.mapping && s'.mapping[r.lblk] == s.mapping[r.lblk]
             else s'.mapping[r.lblk] == r.newP
    requires r.lblk in s'.bufs && s'.bufs[r.lblk] == b
    requires b.dirty && (b.ckpt ==> s.phase.Marked?) && b.saved.None? && b.hist == Hist(s.wal, |s.wal|, r.lblk) + [|s.wal| + 1]
    ensures CurrentOK(s', r.lblk)
  {
    Append(s.wal, r, |s.wal|, r.lblk);
  }

  lemma OwnBlockKeeps(s: State, s': State, r: Record)
    requires PositionsOK(s) && BlockOK(s, r.lblk) && Appends(s, s', r)
    requires CurrentOK(s', r.lblk)
    requires GoodFirst(s, r, s.redo, s.phase.Idle? || s.phase.Synced?)
    requires GoodFirst(s, r, s.durableRedo, true)
    ensures BlockOK(s', r.lblk)
  {
    var l := r.lblk;
    OwnTouched(s, s', r, s.redo);
    OwnTouched(s, s', r, s.durableRedo);
    OwnBaseline(s, s', r, s.redo, s.phase.Idle? || s.phase.Synced?);
    OwnBaseline(s, s', r, s.durableRedo, true);
    AppendMap(s, s', r, l);
  }

  /** A remap that finds a clean buffer leaves its baseline behind. */
  lemma CleanRemapIsGoodFirst(s: State, r: Record)
    requires PositionsOK(s) && BlockOK(s, r.lblk) && Fits(r, MapAt(s.wal, |s.wal|, r.lblk))
    requires r.Delta? ==> !Untouched(s.wal, r.lblk, s.redo, |s.wal|)
    requires r.Remap? ==> NotDirty(s, r.lblk)
    ensures GoodFirst(s, r, s.redo, s.phase.Idle? || s.phase.Synced?)
    ensures GoodFirst(s, r, s.durableRedo, true)
  {
  }

  lemma BirthKeeps(s: State, l: nat, p: nat)
    requires Inv(s) && Enabled(s, Step.Birth(l, p))
    ensures Inv(Apply(s, Step.Birth(l, p)))
  {
    hide BaselineOK, DurableMapOK, LoggedOK, GoodFirst;
    var s', r := Apply(s, Step.Birth(l, p)), Record.Birth(l, p);
    assert BlockOK(s, l);
    NoHistory(s.wal, |s.wal|, l);
    AppendKeepsWellFormed(s.wal, r);
    OwnCurrent(s, s', r, s'.bufs[l]);
    CleanRemapIsGoodFirst(s, r);
    AppendKeeps(s, s', r);
  }

  lemma AppendKeeps(s: State, s': State, r: Record)
    requires Inv(s) && WellFormed(s'.wal) && Appends(s, s', r)
    requires CurrentOK(s', r.lblk)
    requires GoodFirst(s, r, s.redo, s.phase.Idle? || s.phase.Synced?)
    requires GoodFirst(s, r, s.durableRedo, true)
    requires forall k :: k != r.lblk ==> SameBlock(s, s', k)
    requires FrontierMoves(s, s', r)
    ensures Inv(s')
  {
    forall k ensures BlockOK(s', k) {
      assert BlockOK(s, k);
      if k == r.lblk {
        OwnBlockKeeps(s, s', r);
      } else {
        OtherBlockKeeps(s, s', r, k);
      }
    }
    FrontierGrows(s, s', r);
  }

  lemma {:induction false} NoHistory(w: Wal, n: nat, l: nat)
    requires WellFormed(w) && n <= |w| && MapAt(w, n, l).None?
    ensures Hist(w, n, l) == []
  {
    if n > 0 {
      assert FitsAt(w, n - 1);
      NoHistory(w, n - 1, l);
    }
  }

  predicate FrontierMoves(s: State, s': State, r: Record)
  {
    && s'.reserved == s.reserved && s'.durableNext == s.durableNext && s'.syncedNext == s.syncedNext
    && (if r.Delta? then s'.held == s.held && s'.nextFree == s.nextFree
        else r.newP in s.held && s'.held == s.held - {r.newP} && s'.nextFree == Max(s.nextFree, r.newP + 1))
  }

  lemma FrontierGrows(s: State, s': State, r: Record)
    requires FrontierOK(s) && PositionsOK(s) && Appends(s, s', r) && FrontierMoves(s, s', r)
    ensures FrontierOK(s')
  {
    assert forall i :: 0 <= i < |s.wal| ==> s'.wal[i] == s.wal[i];
  }

  lemma RemapCurrent(s: State, l: nat, p: nat)
    requires CurrentOK(s, l) && Enabled(s, Change(l, p)) && NeedsRemap(s, l) && !s.bufs[l].ckpt
    ensures CurrentOK(ChangeStep(s, l, p), l)
  {
    var s' := ChangeStep(s, l, p);
    OwnCurrent(s, s', Remap(l, s.mapping[l], p), s'.bufs[l]);
  }

  lemma RemapKeeps(s: State, l: nat, p: nat)
    requires Inv(s) && Enabled(s, Change(l, p)) && NeedsRemap(s, l)
    requires !s.bufs[l].dirty && !s.bufs[l].ckpt
    ensures Inv(ChangeStep(s, l, p))
  {
    var r := Remap(l, s.mapping[l], p);
    assert BlockOK(s, l);
    AppendKeepsWellFormed(s.wal, r);
    RemapCurrent(s, l, p);
    CleanRemapIsGoodFirst(s, r);
    AppendKeeps(s, ChangeStep(s, l, p), r);
  }

  lemma PlainChangeIsLater(s: State, l: nat)
    requires CurrentOK(s, l) && l in s.bufs && !NeedsRemap(s, l) && PositionsOK(s)
    ensures !Untouched(s.wal, l, s.redo, |s.wal|) && !Untouched(s.wal, l, s.durableRedo, |s.wal|)
  {
    LsnTellsTouched(s.wal, l, s.redo, |s.wal|);
    var k :| s.redo <= k < |s.wal| && s.wal[k].lblk == l;
  }

  lemma DeltaCurrent(s: State, l: nat, p: nat)
    requires CurrentOK(s, l) && Enabled(s, Change(l, p)) && !NeedsRemap(s, l)
    ensures CurrentOK(ChangeStep(s, l, p), l)
  {
    var s' := ChangeStep(s, l, p);
    OwnCurrent(s, s', Delta(l), s'.bufs[l]);
  }

  lemma DeltaKeeps(s: State, l: nat, p: nat)
    requires Inv(s) && Enabled(s, Change(l, p)) && !NeedsRemap(s, l)
    ensures Inv(ChangeStep(s, l, p))
  {
    assert BlockOK(s, l);
    AppendKeepsWellFormed(s.wal, Delta(l));
    DeltaCurrent(s, l, p);
    PlainChangeIsLater(s, l);
    AppendKeeps(s, ChangeStep(s, l, p), Delta(l));
  }

  // -------------------------------------------------- steps that write blocks

  /** What a write of block l0's buffer to its physical block p may change. */
  ghost predicate WritesOwn(s: State, s': State, l0: nat, p: nat)
  {
    && s'.wal == s.wal && s'.redo == s.redo && s'.durableRedo == s.durableRedo && s'.phase == s.phase
    && s'.mapping == s.mapping && s'.durableMap == s.durableMap && s'.mapStale == s.mapStale
    && s.flushed <= s'.flushed && s'.unsynced <= s.unsynced + {p}
    && (forall q :: q != p && q in s.disk ==> q in s'.disk && s'.disk[q] == s.disk[q])
    && (forall l :: l != l0 ==> SameBlock(s, s', l))
  }

  lemma FlushWritesOwn(s: State, l0: nat, active: bool)
    requires CurrentOK(s, l0) && Enabled(s, Flush(l0, active))
    ensures WritesOwn(s, FlushStep(s, l0, active), l0, s.mapping[l0])
  {
  }

  lemma CurrentElsewhere(s: State, s': State, l: nat, l0: nat, p: nat)
    requires WellFormed(s.wal) && CurrentOK(s, l) && WritesOwn(s, s', l0, p) && l != l0
    requires MapAt(s.wal, |s.wal|, l0) == Some(p)
    ensures CurrentOK(s', l)
    ensures RestingOK(s, l, s.redo) ==> RestingOK(s', l, s.redo)
    ensures RestingOK(s, l, s.durableRedo) ==> RestingOK(s', l, s.durableRedo)
  {
    assert SameBlock(s, s', l);
    if MapAt(s.wal, |s.wal|, l).Some? {
      OwnersDiffer(s.wal, |s.wal|, l, |s.wal|, l0);
    }
  }

  /** Block l is neither the written block nor its owner's baseline. */
  lemma FlushOther(s: State, l0: nat, l: nat, active: bool)
    requires Inv(s) && Enabled(s, Flush(l0, active)) && l != l0
    ensures BlockOK(FlushStep(s, l0, active), l)
  {
    hide BaselineOK, DurableMapOK, LoggedOK, VersionOK, FlushStep;
    assert BlockOK(s, l0) && BlockOK(s, l);
    FlushWritesOwn(s, l0, active);
    OtherThanWritten(s, FlushStep(s, l0, active), l, l0, s.mapping[l0]);
  }

  lemma OtherThanWritten(s: State, s': State, l: nat, l0: nat, p: nat)
    requires WellFormed(s.wal) && BlockOK(s, l) && WritesOwn(s, s', l0, p) && l != l0
    requires MapAt(s.wal, |s.wal|, l0) == Some(p)
    ensures BlockOK(s', l)
  {
    hide CurrentOK, RestingOK, BaselineOK, DurableMapOK, LoggedOK, VersionOK;
    CurrentElsewhere(s, s', l, l0, p);
    BaselineElsewhere(s, s', l, s.redo, s.phase.Idle? || s.phase.Synced?, p, l0);
    BaselineElsewhere(s, s', l, s.durableRedo, true, p, l0);
    WiderFlush(s, s', l, s.redo);
    WiderFlush(s, s', l, s.durableRedo);
    assert SameBlock(s, s', l);
  }

  /** Writing the current block of l0 spoils no first record's baseline. */
  lemma BaselineElsewhere(s: State, s': State, l: nat, a: nat, synced: bool, p: nat, l0: nat)
    requires WellFormed(s.wal) && BaselineOK(s, l, a, synced)
    requires MapAt(s.wal, |s.wal|, l0) == Some(p)
    requires s'.wal == s.wal && s'.unsynced <= s.unsynced + {p}
    requires forall q :: q != p && q in s.disk ==> q in s'.disk && s'.disk[q] == s.disk[q]
    ensures BaselineOK(s', l, a, synced)
  {
    forall k | a <= k < |s.wal| && s.wal[k].lblk == l && Untouched(s.wal, l, a, k)
      ensures FirstOK(s', k, synced)
    {
      assert FirstOK(s, k, synced) && FitsAt(s.wal, k);
      if s.wal[k].Remap? {
        if l == l0 {
          NeverReturns(s.wal, k, |s.wal|);
        } else {
          OwnersDiffer(s.wal, k, l, |s.wal|, l0);
        }
      }
    }
  }

  /** The MAP on disk stays right while the log only grows durable. */
  predicate SameMap(s: State, s': State, l: nat)
  {
    && s'.wal == s.wal && s.flushed <= s'.flushed
    && Entry(s'.durableMap, l) == Entry(s.durableMap, l) && Versions(s', l) <= Versions(s, l)
  }

  lemma WiderTouched(s: State, s': State, l: nat, a: nat)
    requires s'.wal == s.wal && s.flushed <= s'.flushed && TouchedDurably(s, l, a)
    ensures TouchedDurably(s', l, a)
  {
    var k :| a <= k < s.flushed && k < |s.wal| && s.wal[k].lblk == l;
    assert a <= k < s'.flushed && k < |s'.wal| && s'.wal[k].lblk == l;
  }

  lemma WiderVersion(s: State, s': State, l: nat, a: nat, v: Option<nat>)
    requires s'.wal == s.wal && s.flushed <= s'.flushed && VersionOK(s, l, a, v)
    ensures VersionOK(s', l, a, v)
  {
    if TouchedDurably(s, l, a) {
      WiderTouched(s, s', l, a);
    }
  }

  lemma WiderFlush(s: State, s': State, l: nat, a: nat)
    requires SameMap(s, s', l)
    ensures DurableMapOK(s, l, a) ==> DurableMapOK(s', l, a)
    ensures VersionOK(s, l, a, Entry(s.durableMap, l)) ==> VersionOK(s', l, a, Entry(s'.durableMap, l))
    ensures LoggedOK(s, l) ==> LoggedOK(s', l)
  {
    forall v | v in Versions(s', l)
      ensures VersionOK(s, l, a, v) ==> VersionOK(s', l, a, v)
      ensures TouchedDurably(s, l, 0) ==> TouchedDurably(s', l, 0)
    {
      if VersionOK(s, l, a, v) {
        WiderVersion(s, s', l, a, v);
      }
      if TouchedDurably(s, l, 0) {
        WiderTouched(s, s', l, 0);
      }
    }
  }

  lemma FlushOwn(s: State, l: nat, active: bool)
    requires Inv(s) && Enabled(s, Flush(l, active))
    ensures BlockOK(FlushStep(s, l, active), l)
  {
    hide BaselineOK, DurableMapOK, LoggedOK, VersionOK;
    var s' := FlushStep(s, l, active);
    assert BlockOK(s, l);
    FlushWritesOwn(s, l, active);
    BaselineElsewhere(s, s', l, s.redo, s.phase.Idle? || s.phase.Synced?, s.mapping[l], l);
    BaselineElsewhere(s, s', l, s.durableRedo, true, s.mapping[l], l);
    WiderFlush(s, s', l, s.redo);
    WiderFlush(s, s', l, s.durableRedo);
  }

  lemma FlushKeeps(s: State, l: nat, active: bool)
    requires Inv(s) && Enabled(s, Flush(l, active))
    ensures Inv(FlushStep(s, l, active))
  {
    hide BaselineOK, DurableMapOK, LoggedOK;
    assert BlockOK(s, l);
    HistBounded(s.wal, |s.wal|, l);
    forall k ensures BlockOK(FlushStep(s, l, active), k) {
      if k == l {
        FlushOwn(s, l, active);
      } else {
        FlushOther(s, l, k, active);
      }
    }
  }

  // ------------------------------------------------------------ other steps

  /** Steps that write nothing: the log, the disk and the checkpoint stand still. */
  predicate Quiet(s: State, s': State)
  {
    && s'.wal == s.wal && s'.disk == s.disk && s'.unsynced == s.unsynced
    && s'.durableMap == s.durableMap && s'.mapStale == s.mapStale
    && s'.flushed == s.flushed && s'.redo == s.redo && s'.durableRedo == s.durableRedo && s'.phase == s.phase
    && s'.mapping == s.mapping
  }

  /** No buffer of l turns dirty or loses a mark it needs. */
  predicate SameDirt(s: State, s': State, l: nat)
  {
    l in s'.bufs && s'.bufs[l].dirty ==>
      l in s.bufs && s.bufs[l].dirty && (s.bufs[l].ckpt ==> s'.bufs[l].ckpt)
  }

  lemma QuietBlock(s: State, s': State, l: nat)
    requires BlockOK(s, l) && Quiet(s, s') && SameDirt(s, s', l) && CurrentOK(s', l)
    ensures BlockOK(s', l)
  {
    WiderFlush(s, s', l, s.redo);
    WiderFlush(s, s', l, s.durableRedo);
    SameBaseline(s, s', l, s.redo, s.phase.Idle? || s.phase.Synced?);
    SameBaseline(s, s', l, s.durableRedo, true);
  }

  lemma SimpleKeeps(s: State, a: Step)
    requires Inv(s) && Enabled(s, a) && (a.Reserve? || a.Touch? || a.Evict? || a.Read?)
    ensures Inv(Apply(s, a))
  {
    forall k ensures BlockOK(Apply(s, a), k) {
      assert BlockOK(s, k);
      SimpleCurrent(s, a, k);
      QuietBlock(s, Apply(s, a), k);
    }
  }

  lemma SimpleCurrent(s: State, a: Step, l: nat)
    requires CurrentOK(s, l) && Enabled(s, a) && (a.Reserve? || a.Touch? || a.Evict? || a.Read?)
    ensures CurrentOK(Apply(s, a), l)
    ensures Quiet(s, Apply(s, a)) && SameDirt(s, Apply(s, a), l)
  {
  }

  lemma SameBaseline(s: State, s': State, l: nat, a: nat, synced: bool)
    requires s'.wal == s.wal && s'.disk == s.disk && s'.unsynced <= s.unsynced
    requires BaselineOK(s, l, a, synced)
    ensures BaselineOK(s', l, a, synced)
    ensures s'.unsynced == {} ==> BaselineOK(s', l, a, true)
  {
    forall k | a <= k < |s.wal| && s.wal[k].lblk == l && Untouched(s.wal, l, a, k)
      ensures FirstOK(s', k, synced) && (s'.unsynced == {} ==> FirstOK(s', k, true))
    {
      assert FirstOK(s, k, synced);
    }
  }

  /** A mapping that differs from the one at position a was set after a. */
  lemma {:induction false} MapSetLater(w: Wal, l: nat, a: nat, n: nat)
    requires a <= n <= |w| && MapAt(w, n, l).Some?
    ensures MapAt(w, a, l) == MapAt(w, n, l)
         || (exists k :: a <= k < MapLsn(w, n, l) && k < |w| && w[k].lblk == l)
    ensures MapLsn(w, n, l) <= LastMapLsn(w, n) <= n
    decreases n
  {
    if n > a {
      if w[n - 1].lblk == l && !w[n - 1].Delta? {
        assert a <= n - 1 < MapLsn(w, n, l) && w[n - 1].lblk == l;
      } else {
        MapSetLater(w, l, a, n - 1);
      }
    } else {
      MapLsnBound(w, l, n);
    }
  }

  lemma {:induction false} MapLsnBound(w: Wal, l: nat, n: nat)
    requires n <= |w|
    ensures MapLsn(w, n, l) <= LastMapLsn(w, n) <= n
  {
    if n > 0 {
      MapLsnBound(w, l, n - 1);
    }
  }

  /** The present mapping, written after its log, is right for position a. */
  lemma PresentVersion(s: State, s': State, l: nat, a: nat)
    requires a <= |s.wal| && CurrentOK(s, l) && s'.wal == s.wal && l in s.mapping
    requires MapLsn(s.wal, |s.wal|, l) <= s'.flushed
    ensures VersionOK(s', l, a, Some(s.mapping[l])) && TouchedDurably(s', l, 0)
  {
    if MapAt(s.wal, a, l).Some? {
      StaysMapped(s.wal, l, a, |s.wal|);
      MapSetLater(s.wal, l, a, |s.wal|);
    }
    MapSetLater(s.wal, l, 0, |s.wal|);
  }

  /** Writing a MAP entry, the log first, keeps all that a crash may leave of it right. */
  lemma EntryDown(s: State, s': State, l: nat, a: nat)
    requires a <= |s.wal| && CurrentOK(s, l) && s'.wal == s.wal && s.flushed <= s'.flushed && l in s.mapping
    requires Entry(s'.durableMap, l) == Some(s.mapping[l]) && Versions(s', l) <= Versions(s, l) + {Some(s.mapping[l])}
    requires MapLsn(s.wal, |s.wal|, l) <= s'.flushed
    ensures VersionOK(s', l, a, Entry(s'.durableMap, l))
    ensures DurableMapOK(s, l, a) ==> DurableMapOK(s', l, a)
    ensures LoggedOK(s', l)
  {
    PresentVersion(s, s', l, a);
    forall v | v in Versions(s', l) ensures VersionOK(s, l, a, v) ==> VersionOK(s', l, a, v) {
      if VersionOK(s, l, a, v) {
        WiderVersion(s, s', l, a, v);
      }
    }
  }

  lemma WriteMapEntryKeeps(s: State, l: nat)
    requires Inv(s) && Enabled(s, WriteMapEntry(l))
    ensures Inv(Apply(s, WriteMapEntry(l)))
  {
    hide BaselineOK, DurableMapOK, LoggedOK, VersionOK;
    var s' := Apply(s, WriteMapEntry(l));
    MapLsnBound(s.wal, l, |s.wal|);
    forall k ensures BlockOK(s', k) {
      assert BlockOK(s, k);
      SameBaseline(s, s', k, s.redo, s.phase.Idle? || s.phase.Synced?);
      SameBaseline(s, s', k, s.durableRedo, true);
      if k == l {
        EntryDown(s, s', l, s.redo);
        EntryDown(s, s', l, s.durableRedo);
      } else {
        WiderFlush(s, s', k, s.redo);
        WiderFlush(s, s', k, s.durableRedo);
      }
    }
  }

  /** No entry is on disk for a block that was never born. */
  lemma UnbornHasNone(s: State, l: nat)
    requires Inv(s) && l !in s.mapping
    ensures Versions(s, l) == {None}
  {
    assert BlockOK(s, l);
    forall v | v in Versions(s, l) ensures v.None? {
      if v.Some? {
        var k :| 0 <= k < s.flushed && k < |s.wal| && s.wal[k].lblk == l;
        BornStays(s.wal, k, |s.wal|, l);
        assert false;
      }
    }
    assert Entry(s.durableMap, l) in Versions(s, l);
  }

  lemma BornStays(w: Wal, k: nat, n: nat, l: nat)
    requires WellFormed(w) && k < n <= |w| && w[k].lblk == l
    ensures MapAt(w, n, l).Some?
  {
    assert FitsAt(w, k);
    assert MapAt(w, k + 1, l).Some?;
    StaysMapped(w, l, k + 1, n);
  }

  lemma WriteMapBlock(s: State, l: nat)
    requires Inv(s) && Enabled(s, WriteMap)
    ensures BlockOK(Apply(s, WriteMap), l)
  {
    var s' := Apply(s, WriteMap);
    assert BlockOK(s, l);
    MapLsnBound(s.wal, l, |s.wal|);
    SameBaseline(s, s', l, s.redo, false);
    SameBaseline(s, s', l, s.durableRedo, true);
    if l in s.mapping {
      EntryDown(s, s', l, s.redo);
      EntryDown(s, s', l, s.durableRedo);
    } else {
      UnbornHasNone(s, l);
      NoneBefore(s.wal, s.redo, l);
      WiderFlush(s, s', l, s.durableRedo);
    }
  }

  lemma NoneBefore(w: Wal, a: nat, l: nat)
    requires a <= |w| && MapAt(w, |w|, l).None?
    ensures MapAt(w, a, l).None?
  {
    if MapAt(w, a, l).Some? {
      StaysMapped(w, l, a, |w|);
    }
  }

  lemma WriteMapKeeps(s: State)
    requires Inv(s) && Enabled(s, WriteMap)
    ensures Inv(Apply(s, WriteMap))
  {
    forall l ensures BlockOK(Apply(s, WriteMap), l) {
      WriteMapBlock(s, l);
    }
    MapLsnBound(s.wal, 0, |s.wal|);
  }

  lemma CheckpointKeeps(s: State, a: Step)
    requires Inv(s) && Enabled(s, a)
    requires a.StartCheckpoint? || a.MarkBuffers? || a.SyncFiles? || a.FinishCheckpoint?
    ensures Inv(Apply(s, a))
  {
    var s' := Apply(s, a);
    forall k ensures BlockOK(s', k) {
      match a
      case StartCheckpoint => StartBlock(s, k);
      case MarkBuffers => MarkBlock(s, k);
      case SyncFiles => SyncBlock(s, k);
      case FinishCheckpoint => FinishBlock(s, k);
    }
  }

  lemma FinishBlock(s: State, l: nat)
    requires Inv(s) && Enabled(s, FinishCheckpoint)
    ensures BlockOK(Apply(s, FinishCheckpoint), l)
  {
    assert BlockOK(s, l);
    WiderFlush(s, Apply(s, FinishCheckpoint), l, s.redo);
    SameBaseline(s, Apply(s, FinishCheckpoint), l, s.redo, true);
  }

  lemma StartBlock(s: State, l: nat)
    requires Inv(s) && Enabled(s, StartCheckpoint)
    ensures BlockOK(Apply(s, StartCheckpoint), l)
  {
    var s' := Apply(s, StartCheckpoint);
    assert BlockOK(s, l);
    SameBaseline(s, s', l, s.durableRedo, true);
    WiderFlush(s, s', l, s.durableRedo);
  }

  lemma MarkBlock(s: State, l: nat)
    requires Inv(s) && Enabled(s, MarkBuffers)
    ensures BlockOK(Apply(s, MarkBuffers), l)
  {
    var s' := Apply(s, MarkBuffers);
    assert BlockOK(s, l);
    SameBaseline(s, s', l, s.redo, false);
    SameBaseline(s, s', l, s.durableRedo, true);
    WiderFlush(s, s', l, s.redo);
    WiderFlush(s, s', l, s.durableRedo);
  }

  lemma SyncBlock(s: State, l: nat)
    requires Inv(s) && Enabled(s, SyncFiles)
    ensures BlockOK(Apply(s, SyncFiles), l)
  {
    var s' := Apply(s, SyncFiles);
    assert BlockOK(s, l);
    SameBaseline(s, s', l, s.redo, false);
    SameBaseline(s, s', l, s.durableRedo, true);
    WiderFlush(s, s', l, s.redo);
    WiderFlush(s, s', l, s.durableRedo);
  }

  /** Every step whose remap, if it makes one, finds a clean buffer keeps the
      invariant. */
  lemma StepKeeps(s: State, a: Step)
    requires Inv(s) && Enabled(s, a) && CleanRemap(s, a)
    ensures Inv(Apply(s, a))
  {
    match a
    case Birth(l, p) => BirthKeeps(s, l, p);
    case Change(l, p) =>
      if NeedsRemap(s, l) {
        RemapKeeps(s, l, p);
      } else {
        DeltaKeeps(s, l, p);
      }
    case Flush(l, active) => FlushKeeps(s, l, active);
    case WriteMapEntry(l) => WriteMapEntryKeeps(s, l);
    case WriteMap => WriteMapKeeps(s);
    case StartCheckpoint => CheckpointKeeps(s, a);
    case MarkBuffers => CheckpointKeeps(s, a);
    case SyncFiles => CheckpointKeeps(s, a);
    case FinishCheckpoint => CheckpointKeeps(s, a);
    case Reserve => SimpleKeeps(s, a);
    case Touch(_) => SimpleKeeps(s, a);
    case Evict(_) => SimpleKeeps(s, a);
    case Read(_) => SimpleKeeps(s, a);
  }
}
