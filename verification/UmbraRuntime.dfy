/** Umbra at run time: one mapped fork with its shared buffers, the MAP in memory
    and on disk, physical blocks, and a checkpoint that runs beside page changes.
    Each step is one action under the locks the code holds for it. */
module UmbraRuntime {
  import opened Optional
  import opened UmbraLog

  /** A shared buffer: the logged changes it holds, whether its physical block lacks
      one of them (dirty), whether the dirty flag is up without a logged change, for a
      hint or a change not yet logged (touched), the checkpoint-needed flag, and the
      old physical block remembered while a checkpoint captures. */
  datatype Buf = Buf(hist: seq<nat>, dirty: bool, touched: bool, ckpt: bool, saved: Option<nat>)

  /** Where a running checkpoint stands: redo point set, MAP written, buffers
      marked, marked buffers written and synced. */
  datatype Phase = Idle | Started | MapWritten | Marked | Synced

  /** disk holds what the last write left; a block in unsynced may still be lost or
      torn by a crash.  durableMap and durableNext are the MAP and the superblock as
      last written; until the files are synced a crash may bring back an older version
      of an entry (mapStale) or of the frontier (syncedNext).  redo is the pointer
      inserters compare with, durableRedo the one in the control file. */
  datatype State = State(
    wal: Wal,
    flushed: nat,
    mapping: map<nat, nat>,
    durableMap: map<nat, nat>,
    mapStale: map<nat, set<Option<nat>>>,
    bufs: map<nat, Buf>,
    disk: map<nat, seq<nat>>,
    unsynced: set<nat>,
    reserved: nat,
    held: set<nat>,
    nextFree: nat,
    durableNext: nat,
    syncedNext: nat,
    redo: nat,
    durableRedo: nat,
    phase: Phase)

  function InitState(): State
  {
    State([], 0, map[], map[], map[], map[], map[], {}, 0, {}, 0, 0, 0, 0, 0, Idle)
  }

  datatype Step =
    | Reserve
    | Birth(l: nat, p: nat)
    | Change(l: nat, p: nat)
    | Touch(l: nat)
    | Flush(l: nat, active: bool)
    | Evict(l: nat)
    | Read(l: nat)
    | WriteMapEntry(l: nat)
    | StartCheckpoint
    | WriteMap
    | MarkBuffers
    | SyncFiles
    | FinishCheckpoint

  function Max(a: nat, b: nat): nat { if a < b then b else a }

  /** A change needs a new physical block when the page was last changed before the
      redo point. */
  predicate NeedsRemap(s: State, l: nat)
    requires l in s.bufs
  {
    PageLsn(s.bufs[l].hist) <= s.redo
  }

  predicate Enabled(s: State, a: Step)
  {
    match a
    case Reserve => true
    case Birth(l, p) => l !in s.mapping && p in s.held
    case Change(l, p) => l in s.bufs && l in s.mapping && (NeedsRemap(s, l) ==> p in s.held)
    case Touch(l) => l in s.bufs
    case Flush(l, _) => l in s.bufs && l in s.mapping && (s.bufs[l].dirty || s.bufs[l].touched)
    case Evict(l) => l in s.bufs && !s.bufs[l].dirty && !s.bufs[l].touched
    case Read(l) => l !in s.bufs && l in s.mapping && s.mapping[l] in s.disk
    case WriteMapEntry(l) => l in s.mapping
    case StartCheckpoint => s.phase.Idle?
    case WriteMap => s.phase.Started?
    case MarkBuffers => s.phase.MapWritten?
    case SyncFiles => s.phase.Marked? && forall l :: l in s.bufs ==> !s.bufs[l].ckpt
    case FinishCheckpoint => s.phase.Synced?
  }

  /** Insert a record that hands out p and publish it: the mapping moves, and the
      committed frontier passes p. */
  function Publish(s: State, r: Record, p: nat, b: Buf): State
  {
    s.(wal := s.wal + [r], mapping := s.mapping[r.lblk := p], bufs := s.bufs[r.lblk := b],
       held := s.held - {p}, nextFree := Max(s.nextFree, p + 1))
  }

  /** XLogInsert for one page change. */
  function ChangeStep(s: State, l: nat, p: nat): State
    requires Enabled(s, Change(l, p))
  {
    var b, lsn := s.bufs[l], |s.wal| + 1;
    if NeedsRemap(s, l) then
      var capture := s.phase.Marked? && b.ckpt && b.saved.None?;
      Publish(s, Remap(l, s.mapping[l], p), p,
              Buf(b.hist + [lsn], true, false, b.ckpt, if capture then Some(s.mapping[l]) else b.saved))
    else
      s.(wal := s.wal + [Delta(l)], bufs := s.bufs[l := b.(hist := b.hist + [lsn], dirty := true, touched := false)])
  }

  /** FlushBuffer: log first, then the page.  A buffer remapped while marked goes to
      the physical block the checkpoint needs, and stays dirty for its new one
      unless the caller wants both written.  A write that carries hints alone changes
      no logged content. */
  function FlushStep(s: State, l: nat, active: bool): State
    requires Enabled(s, Flush(l, active))
  {
    var b, p := s.bufs[l], s.mapping[l];
    var s1 := s.(flushed := Max(s.flushed, PageLsn(b.hist)));
    var checkpointOnly := b.ckpt && b.saved.Some? && b.saved.value != p;
    if !b.dirty then s1.(bufs := s.bufs[l := Buf(b.hist, false, false, false, None)])
    else if checkpointOnly && !active then
      s1.(disk := s.disk[b.saved.value := b.hist], unsynced := s.unsynced + {b.saved.value},
          bufs := s.bufs[l := b.(touched := false, ckpt := false, saved := None)])
    else
      var d := if checkpointOnly then s.disk[b.saved.value := b.hist] else s.disk;
      var u := if checkpointOnly then s.unsynced + {b.saved.value} else s.unsynced;
      s1.(disk := d[p := b.hist], unsynced := u + {p},
          bufs := s.bufs[l := Buf(b.hist, false, false, false, None)])
  }

  /** The log position right after the record that set l's mapping. */
  function MapLsn(w: Wal, n: nat, l: nat): nat
    requires n <= |w|
  {
    if n == 0 then 0
    else if w[n - 1].lblk == l && !w[n - 1].Delta? then n
    else MapLsn(w, n - 1, l)
  }

  /** The log position right after the last record that set any mapping. */
  function LastMapLsn(w: Wal, n: nat): nat
    requires n <= |w|
  {
    if n == 0 then 0 else if !w[n - 1].Delta? then n else LastMapLsn(w, n - 1)
  }

  /** A MAP entry, None where there is none yet. */
  function Entry(m: map<nat, nat>, l: nat): Option<nat> { if l in m then Some(m[l]) else None }

  /** What a crash may leave of l's MAP entry. */
  function Versions(s: State, l: nat): set<Option<nat>>
  {
    {Entry(s.durableMap, l)} + if l in s.mapStale then s.mapStale[l] else {}
  }

  function Apply(s: State, a: Step): State
    requires Enabled(s, a)
  {
    match a
    case Reserve => s.(reserved := s.reserved + 1, held := s.held + {s.reserved})
    case Birth(l, p) => Publish(s, Record.Birth(l, p), p, Buf([|s.wal| + 1], true, false, false, None))
    case Change(l, p) => ChangeStep(s, l, p)
    case Touch(l) => s.(bufs := s.bufs[l := s.bufs[l].(touched := true)])
    case Flush(l, active) => FlushStep(s, l, active)
    case Evict(l) => s.(bufs := s.bufs - {l})
    case Read(l) => s.(bufs := s.bufs[l := Buf(s.disk[s.mapping[l]], false, false, false, None)])
    case WriteMapEntry(l) =>
      s.(flushed := Max(s.flushed, MapLsn(s.wal, |s.wal|, l)),
         durableMap := s.durableMap[l := s.mapping[l]], mapStale := s.mapStale[l := Versions(s, l)])
    case StartCheckpoint => s.(redo := |s.wal|, phase := Started)
    case WriteMap =>
      s.(flushed := Max(s.flushed, LastMapLsn(s.wal, |s.wal|)), durableMap := s.mapping,
         mapStale := map l | l in s.mapping :: Versions(s, l), durableNext := s.nextFree, phase := MapWritten)
    case MarkBuffers =>
      s.(bufs := map l | l in s.bufs :: s.bufs[l].(ckpt := s.bufs[l].ckpt || s.bufs[l].dirty || s.bufs[l].touched), phase := Marked)
    case SyncFiles => s.(unsynced := {}, mapStale := map[], syncedNext := s.durableNext, phase := Synced)
    case FinishCheckpoint => s.(durableRedo := s.redo, flushed := |s.wal|, phase := Idle)
  }

  /** What protects a remap: the buffer has no change its old physical block lacks,
      and no checkpoint is about to write it. */
  predicate CleanRemap(s: State, a: Step)
  {
    a.Change? && a.l in s.bufs && NeedsRemap(s, a.l) ==> !s.bufs[a.l].dirty && !s.bufs[a.l].ckpt
  }

  // ------------------------------------------------------------ the invariant

  predicate OnDisk(s: State, p: nat, h: seq<nat>) { p in s.disk && s.disk[p] == h }

  /** The buffer, or the current physical block, holds every change so far. */
  predicate CurrentOK(s: State, l: nat)
  {
    var m := MapAt(s.wal, |s.wal|, l);
    var h := Hist(s.wal, |s.wal|, l);
    if m.None? then l !in s.mapping && l !in s.bufs
    else
      && l in s.mapping && s.mapping[l] == m.value
      && (l in s.bufs ==> s.bufs[l].hist == h && s.bufs[l].saved.None?)
      && (l in s.bufs && s.bufs[l].ckpt ==> s.phase.Marked? && (s.bufs[l].dirty || s.bufs[l].touched))
      && (l !in s.bufs || !s.bufs[l].dirty ==> OnDisk(s, m.value, h))
  }

  /** The first change of l after position r finds its baseline on the old block. */
  predicate BaselineOK(s: State, l: nat, r: nat, synced: bool)
  {
    forall k :: r <= k < |s.wal| && s.wal[k].lblk == l && Untouched(s.wal, l, r, k) ==>
      FirstOK(s, k, synced)
  }

  predicate FirstOK(s: State, k: nat, synced: bool)
    requires k < |s.wal|
  {
    var rec := s.wal[k];
    && !rec.Delta?
    && (rec.Remap? ==> OnDisk(s, rec.oldP, Hist(s.wal, k, rec.lblk)) && (synced ==> rec.oldP !in s.unsynced))
  }

  predicate UntouchedSince(s: State, l: nat, r: nat)
  {
    Untouched(s.wal, l, r, |s.wal|) && MapAt(s.wal, |s.wal|, l).Some?
  }

  predicate NotDirty(s: State, l: nat) { l in s.bufs ==> !s.bufs[l].dirty }

  /** A block untouched since r rests, whole and synced, on its physical block. */
  predicate RestingOK(s: State, l: nat, r: nat)
  {
    UntouchedSince(s, l, r) ==>
      NotDirty(s, l) && MapAt(s.wal, |s.wal|, l).value !in s.unsynced
  }

  /** An entry of the MAP on disk is right for r, unless the log already holds a newer
      change. */
  predicate VersionOK(s: State, l: nat, r: nat, v: Option<nat>)
  {
    r <= |s.wal| && MapAt(s.wal, r, l).Some? ==> v.Some? && (v == MapAt(s.wal, r, l) || TouchedDurably(s, l, r))
  }

  /** So is whatever a crash may leave of it. */
  predicate DurableMapOK(s: State, l: nat, r: nat) { forall v :: v in Versions(s, l) ==> VersionOK(s, l, r, v) }

  /** An entry is on disk only if its block's birth is, too. */
  predicate LoggedOK(s: State, l: nat) { forall v :: v in Versions(s, l) && v.Some? ==> TouchedDurably(s, l, 0) }

  predicate TouchedDurably(s: State, l: nat, r: nat)
  {
    exists k :: r <= k < s.flushed && k < |s.wal| && s.wal[k].lblk == l
  }

  predicate MapIsDown(p: Phase) { p.MapWritten? || p.Marked? || p.Synced? }

  predicate PendingOK(s: State, l: nat)
  {
    && BaselineOK(s, l, s.redo, s.phase.Idle? || s.phase.Synced?)
    && (MapIsDown(s.phase) ==> VersionOK(s, l, s.redo, Entry(s.durableMap, l)))
    && (s.phase.Synced? || s.phase.Idle? ==> DurableMapOK(s, l, s.redo))
    && (s.phase.Marked? && UntouchedSince(s, l, s.redo) && l in s.bufs && s.bufs[l].dirty ==> s.bufs[l].ckpt)
    && (s.phase.Synced? || s.phase.Idle? ==> RestingOK(s, l, s.redo))
  }

  predicate BlockOK(s: State, l: nat)
  {
    && CurrentOK(s, l)
    && BaselineOK(s, l, s.durableRedo, true)
    && RestingOK(s, l, s.durableRedo)
    && DurableMapOK(s, l, s.durableRedo) && LoggedOK(s, l)
    && PendingOK(s, l)
  }

  predicate PositionsOK(s: State)
  {
    && s.durableRedo <= s.redo <= |s.wal| && s.durableRedo <= s.flushed <= |s.wal|
    && (s.phase.Idle? ==> s.redo == s.durableRedo)
  }

  /** Reserved blocks are unused; the committed frontier is past every used one. */
  predicate FrontierOK(s: State)
  {
    && s.nextFree <= s.reserved && s.syncedNext <= s.durableNext <= s.nextFree
    && (forall p :: p in s.held ==> p < s.reserved)
    && (forall i :: 0 <= i < |s.wal| && !s.wal[i].Delta? ==> s.wal[i].newP < s.nextFree && s.wal[i].newP !in s.held)
    && (forall i :: 0 <= i < s.durableRedo && i < |s.wal| && !s.wal[i].Delta? ==> s.wal[i].newP < s.syncedNext)
    && (MapIsDown(s.phase) ==> forall i :: 0 <= i < s.redo && i < |s.wal| && !s.wal[i].Delta? ==> s.wal[i].newP < s.durableNext)
    && (s.phase.Synced? ==> s.syncedNext == s.durableNext)
  }

  ghost predicate Inv(s: State)
  {
    && WellFormed(s.wal) && PositionsOK(s) && FrontierOK(s)
    && forall l :: BlockOK(s, l)
  }
}
