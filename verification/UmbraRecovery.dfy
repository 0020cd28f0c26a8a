/** Crash recovery under Umbra: redo from the last completed checkpoint, reading
    each moved page through its old physical block, with buffers written back or
    evicted at any time in between. */
module UmbraRecovery {
  import opened Optional
  import opened UmbraLog
  import opened UmbraRuntime
  import opened UmbraSafety

  /** What survives a crash.  A physical block that is missing or torn is absent
      from disk. */
  datatype Image = Image(wal: Wal, redo: nat, durableMap: map<nat, nat>, durableNext: nat, disk: map<nat, seq<nat>>)

  /** Some prefix of the log with all flushed records; unsynced blocks may hold
      anything or be unreadable, and a MAP entry or the superblock may be any version
      written since the last sync, or the synced one. */
  ghost predicate CrashImage(s: State, img: Image)
  {
    && s.flushed <= |img.wal| && img.wal <= s.wal
    && img.redo == s.durableRedo && (img.durableNext == s.syncedNext || img.durableNext == s.durableNext)
    && (forall l :: Entry(img.durableMap, l) in Versions(s, l))
    && forall p :: p !in s.unsynced ==>
         (p in img.disk <==> p in s.disk) && (p in s.disk ==> img.disk[p] == s.disk[p])
  }

  datatype RBuf = RBuf(hist: seq<nat>, dirty: bool)

  /** wrote holds the blocks that recovery has changed: a crash may lose or tear them. */
  datatype RState = RState(pos: nat, mapping: map<nat, nat>, bufs: map<nat, RBuf>, disk: map<nat, seq<nat>>, wrote: set<nat>, next: nat)

  function Begin(img: Image): RState
  {
    RState(img.redo, img.durableMap, map[], img.disk, {}, img.durableNext)
  }

  /** Write a page to a block; writing what it holds already changes nothing. */
  function WriteBlock(rs: RState, p: nat, h: seq<nat>): RState
  {
    if p in rs.disk && rs.disk[p] == h then rs else rs.(disk := rs.disk[p := h], wrote := rs.wrote + {p})
  }

  /** The buffer if there is one, else the block the MAP points to. */
  function ReadPage(rs: RState, l: nat): Option<RBuf>
  {
    if l in rs.bufs then Some(rs.bufs[l])
    else if l in rs.mapping && rs.mapping[l] in rs.disk then Some(RBuf(rs.disk[rs.mapping[l]], false))
    else None
  }

  /** Replay one block reference.  A record not newer than the page is done. */
  function RedoRecord(rs: RState, r: Record, lsn: nat): Option<RState>
  {
    match r
    case Birth(l, p) =>
      Some(rs.(mapping := rs.mapping[l := p], next := Max(rs.next, p + 1), bufs := rs.bufs[l := RBuf([lsn], true)]))
    case Delta(l) =>
      (match ReadPage(rs, l)
       case None => None
       case Some(b) =>
         Some(rs.(bufs := rs.bufs[l := if lsn <= PageLsn(b.hist) then b else RBuf(b.hist + [lsn], true)])))
    case Remap(l, o, p) =>
      (match ReadPage(rs.(mapping := rs.mapping[l := o]), l)
       case None => None
       case Some(b) =>
         // the page is marked dirty and written to its old block before the switch
         Some(WriteBlock(rs, o, b.hist).(mapping := rs.mapping[l := p], next := Max(rs.next, p + 1),
              bufs := rs.bufs[l := if lsn <= PageLsn(b.hist) then RBuf(b.hist, false)
                                   else RBuf(b.hist + [lsn], true)])))
  }

  datatype RStep = Redo | WriteBack(l: nat) | Drop(l: nat)

  /** One step of recovery; None when redo meets a page it cannot read. */
  function RApply(img: Image, rs: RState, a: RStep): Option<RState>
  {
    match a
    case Redo =>
      if rs.pos < |img.wal| then
        (match RedoRecord(rs, img.wal[rs.pos], rs.pos + 1)
         case None => None
         case Some(t) => Some(t.(pos := rs.pos + 1)))
      else Some(rs)
    case WriteBack(l) =>
      if l in rs.bufs && l in rs.mapping && rs.bufs[l].dirty then
        Some(WriteBlock(rs, rs.mapping[l], rs.bufs[l].hist).(bufs := rs.bufs[l := RBuf(rs.bufs[l].hist, false)]))
      else Some(rs)
    case Drop(l) => if l in rs.bufs && !rs.bufs[l].dirty then Some(rs.(bufs := rs.bufs - {l})) else Some(rs)
  }

  function RRun(img: Image, rs: RState, steps: seq<RStep>): Option<RState>
    decreases |steps|
  {
    if steps == [] then Some(rs)
    else
      match RApply(img, rs, steps[0])
      case None => None
      case Some(t) => RRun(img, t, steps[1..])
  }

  // ------------------------------------------------------------ invariant

  predicate Holds(rs: RState, p: nat, h: seq<nat>) { p in rs.disk && rs.disk[p] == h }

  /** The block holds h, and has since the crash. */
  predicate Kept(rs: RState, p: nat, h: seq<nat>) { Holds(rs, p, h) && p !in rs.wrote }

  /** The first record of its block since the redo point finds its baseline, now or in
      another attempt. */
  predicate FirstKept(img: Image, rs: RState, k: nat)
    requires k < |img.wal|
  {
    var r := img.wal[k];
    !r.Delta? && (r.Remap? ==> Kept(rs, r.oldP, Hist(img.wal, k, r.lblk)))
  }

  predicate BaseOK(img: Image, rs: RState, l: nat)
  {
    && (forall k :: img.redo <= k < |img.wal| && img.wal[k].lblk == l && Untouched(img.wal, l, img.redo, k) ==>
          FirstKept(img, rs, k))
    && (Untouched(img.wal, l, img.redo, |img.wal|) && MapAt(img.wal, |img.wal|, l).Some? ==>
          && Entry(img.durableMap, l) == MapAt(img.wal, |img.wal|, l)
          && Kept(rs, MapAt(img.wal, |img.wal|, l).value, Hist(img.wal, |img.wal|, l)))
    && (MapAt(img.wal, |img.wal|, l).None? ==> l !in img.durableMap)
  }

  predicate WaitingOK(img: Image, rs: RState, l: nat)
  {
    l !in rs.bufs && Entry(rs.mapping, l) == Entry(img.durableMap, l)
  }

  predicate ReplayedOK(img: Image, rs: RState, l: nat)
    requires rs.pos <= |img.wal|
  {
    && l in rs.mapping && MapAt(img.wal, rs.pos, l) == Some(rs.mapping[l])
    && (l in rs.bufs ==> rs.bufs[l].hist == Hist(img.wal, rs.pos, l))
    && (l !in rs.bufs || !rs.bufs[l].dirty ==> Holds(rs, rs.mapping[l], Hist(img.wal, rs.pos, l)))
  }

  predicate RBlockOK(img: Image, rs: RState, l: nat)
    requires rs.pos <= |img.wal|
  {
    && BaseOK(img, rs, l)
    && if Untouched(img.wal, l, img.redo, rs.pos) then WaitingOK(img, rs, l) else ReplayedOK(img, rs, l)
  }

  predicate NextOK(img: Image, rs: RState)
  {
    forall i :: 0 <= i < rs.pos && i < |img.wal| && !img.wal[i].Delta? ==> img.wal[i].newP < rs.next
  }

  ghost predicate RInv(img: Image, rs: RState)
  {
    && WellFormed(img.wal) && img.redo <= rs.pos <= |img.wal|
    && NextOK(img, rs) && NextOK(img, Begin(img)) && img.durableNext <= rs.next
    && forall l :: RBlockOK(img, rs, l)
  }

  // --------------------------------------------------- recovery starts right

  lemma PrefixUntouched(s: State, img: Image, l: nat, a: nat, b: nat)
    requires img.wal <= s.wal && b <= |img.wal|
    ensures Untouched(img.wal, l, a, b) <==> Untouched(s.wal, l, a, b)
  {
    assert forall i :: 0 <= i < |img.wal| ==> img.wal[i] == s.wal[i];
  }

  lemma BeginFirst(s: State, img: Image, k: nat)
    requires CrashImage(s, img) && s.durableRedo <= k < |img.wal|
    requires BaselineOK(s, img.wal[k].lblk, s.durableRedo, true)
    requires Untouched(img.wal, img.wal[k].lblk, img.redo, k)
    ensures FirstKept(img, Begin(img), k)
  {
    var l := img.wal[k].lblk;
    assert img.wal[k] == s.wal[k];
    PrefixUntouched(s, img, l, img.redo, k);
    PrefixAgrees(img.wal, s.wal, k, l);
    assert FirstOK(s, k, true);
  }

  /** A block whose changes since the checkpoint are all lost is still whole. */
  lemma BeginIdle(s: State, img: Image, l: nat)
    requires Inv(s) && CrashImage(s, img)
    requires Untouched(img.wal, l, img.redo, |img.wal|) && MapAt(img.wal, |img.wal|, l).Some?
    ensures Entry(img.durableMap, l) == MapAt(img.wal, |img.wal|, l)
    ensures Kept(Begin(img), MapAt(img.wal, |img.wal|, l).value, Hist(img.wal, |img.wal|, l))
  {
    var n := |img.wal|;
    assert BlockOK(s, l);
    PrefixUntouched(s, img, l, img.redo, n);
    PrefixAgrees(img.wal, s.wal, n, l);
    UntouchedKeeps(s.wal, l, img.redo, n);
    assert !TouchedDurably(s, l, s.durableRedo);
    assert VersionOK(s, l, s.durableRedo, Entry(img.durableMap, l));
    IdleOnDisk(s, l, n);
  }

  /** Whether or not a later change was lost, the block's state at n is synced. */
  lemma IdleOnDisk(s: State, l: nat, n: nat)
    requires WellFormed(s.wal) && PositionsOK(s) && BlockOK(s, l) && s.durableRedo <= n <= |s.wal|
    requires Untouched(s.wal, l, s.durableRedo, n) && MapAt(s.wal, n, l).Some?
    ensures OnDisk(s, MapAt(s.wal, n, l).value, Hist(s.wal, n, l))
    ensures MapAt(s.wal, n, l).value !in s.unsynced
  {
    if Untouched(s.wal, l, n, |s.wal|) {
      UntouchedKeeps(s.wal, l, n, |s.wal|);
      assert Untouched(s.wal, l, s.durableRedo, |s.wal|);
    } else {
      var k := FirstTouch(s.wal, l, n);
      assert Untouched(s.wal, l, s.durableRedo, k) && FirstOK(s, k, true) && FitsAt(s.wal, k);
      UntouchedKeeps(s.wal, l, n, k);
    }
  }

  lemma {:induction false} FirstTouch(w: Wal, l: nat, n: nat) returns (k: nat)
    requires n <= |w| && !Untouched(w, l, n, |w|)
    ensures n <= k < |w| && w[k].lblk == l && Untouched(w, l, n, k)
    decreases |w| - n
  {
    if w[n].lblk == l {
      k := n;
    } else {
      k := FirstTouch(w, l, n + 1);
    }
  }

  lemma BeginUnborn(s: State, img: Image, l: nat)
    requires Inv(s) && CrashImage(s, img) && WellFormed(img.wal) && MapAt(img.wal, |img.wal|, l).None?
    ensures l !in img.durableMap
  {
    assert BlockOK(s, l) && Entry(img.durableMap, l) in Versions(s, l);
    if l in img.durableMap {
      var k :| 0 <= k < s.flushed && k < |s.wal| && s.wal[k].lblk == l;
      assert img.wal[k] == s.wal[k];
      BornStays(img.wal, k, |img.wal|, l);
    }
  }

  lemma BeginBase(s: State, img: Image, l: nat)
    requires Inv(s) && CrashImage(s, img) && WellFormed(img.wal)
    ensures BaseOK(img, Begin(img), l)
  {
    assert BlockOK(s, l);
    forall k | img.redo <= k < |img.wal| && img.wal[k].lblk == l && Untouched(img.wal, l, img.redo, k)
      ensures FirstKept(img, Begin(img), k)
    {
      BeginFirst(s, img, k);
    }
    if MapAt(img.wal, |img.wal|, l).None? {
      BeginUnborn(s, img, l);
    } else if Untouched(img.wal, l, img.redo, |img.wal|) {
      BeginIdle(s, img, l);
    }
  }

  lemma BeginHolds(s: State, img: Image)
    requires Inv(s) && CrashImage(s, img)
    ensures RInv(img, Begin(img))
  {
    assert img.wal == s.wal[..|img.wal|];
    CutKeepsWellFormed(s.wal, |img.wal|);
    forall l ensures RBlockOK(img, Begin(img), l) {
      BeginBase(s, img, l);
    }
    assert forall i :: 0 <= i < |img.wal| ==> img.wal[i] == s.wal[i];
  }

  // ------------------------------------------------- recovery stays right

  /** Writing the block that l0 has at the moment leaves what the others, and l0's own
      first record, start from. */
  lemma BaseStays(img: Image, rs: RState, rs': RState, l: nat, l0: nat, q: nat)
    requires WellFormed(img.wal) && rs.pos <= |img.wal| && BaseOK(img, rs, l)
    requires MapAt(img.wal, rs.pos, l0) == Some(q) && OnlyWrites(rs, rs', q)
    requires l == l0 ==> !Untouched(img.wal, l, img.redo, rs.pos)
    ensures BaseOK(img, rs', l)
  {
    forall k | img.redo <= k < |img.wal| && img.wal[k].lblk == l && Untouched(img.wal, l, img.redo, k)
      ensures FirstKept(img, rs', k)
    {
      assert FirstKept(img, rs, k) && FitsAt(img.wal, k);
      if img.wal[k].Remap? {
        if l == l0 {
          NeverReturns(img.wal, k, rs.pos);
        } else {
          OwnersDiffer(img.wal, k, l, rs.pos, l0);
        }
      }
    }
    if MapAt(img.wal, |img.wal|, l).Some? && l != l0 {
      OwnersDiffer(img.wal, |img.wal|, l, rs.pos, l0);
    }
  }

  predicate OnlyWrites(rs: RState, rs': RState, q: nat)
  {
    rs'.wrote <= rs.wrote + {q} && forall p :: p in rs.disk && p != q ==> p in rs'.disk && rs'.disk[p] == rs.disk[p]
  }

  predicate WritesNothing(rs: RState, rs': RState) { rs'.disk == rs.disk && rs'.wrote == rs.wrote }

  predicate SameFor(rs: RState, rs': RState, l: nat)
  {
    && (l in rs'.bufs <==> l in rs.bufs) && (l in rs.bufs ==> rs'.bufs[l] == rs.bufs[l])
    && (l in rs'.mapping <==> l in rs.mapping) && (l in rs.mapping ==> rs'.mapping[l] == rs.mapping[l])
  }

  lemma OtherReplayed(img: Image, rs: RState, rs': RState, l: nat, l0: nat, q: nat)
    requires WellFormed(img.wal) && l != l0
    requires rs'.pos == rs.pos <= |img.wal| || (rs'.pos == rs.pos + 1 <= |img.wal| && img.wal[rs.pos].lblk == l0)
    requires ReplayedOK(img, rs, l)
    requires WritesNothing(rs, rs') || (MapAt(img.wal, rs.pos, l0) == Some(q) && OnlyWrites(rs, rs', q))
    requires SameFor(rs, rs', l)
    ensures ReplayedOK(img, rs', l)
  {
    if !WritesNothing(rs, rs') {
      OwnersDiffer(img.wal, rs.pos, l, rs.pos, l0);
    }
  }

  lemma OtherBlock(img: Image, rs: RState, rs': RState, l: nat, l0: nat, q: nat)
    requires WellFormed(img.wal) && l != l0
    requires rs'.pos == rs.pos <= |img.wal| || (rs'.pos == rs.pos + 1 <= |img.wal| && img.wal[rs.pos].lblk == l0)
    requires RBlockOK(img, rs, l)
    requires WritesNothing(rs, rs') || (MapAt(img.wal, rs.pos, l0) == Some(q) && OnlyWrites(rs, rs', q))
    requires SameFor(rs, rs', l)
    ensures RBlockOK(img, rs', l)
  {
    hide BaseOK, ReplayedOK, OnlyWrites;
    assert Untouched(img.wal, l, img.redo, rs'.pos) <==> Untouched(img.wal, l, img.redo, rs.pos);
    if WritesNothing(rs, rs') {
      BaseSame(img, rs, rs', l);
    } else {
      BaseStays(img, rs, rs', l, l0, q);
    }
    if !Untouched(img.wal, l, img.redo, rs.pos) {
      OtherReplayed(img, rs, rs', l, l0, q);
    }
  }

  lemma BaseSame(img: Image, rs: RState, rs': RState, l: nat)
    requires BaseOK(img, rs, l) && WritesNothing(rs, rs')
    ensures BaseOK(img, rs', l)
  {
    forall k | img.redo <= k < |img.wal| && img.wal[k].lblk == l && Untouched(img.wal, l, img.redo, k)
      ensures FirstKept(img, rs', k)
    {
      assert FirstKept(img, rs, k);
    }
  }

  /** The page that redo of the next record reads holds exactly the changes before it. */
  lemma NextPage(img: Image, rs: RState)
    requires RInv(img, rs) && rs.pos < |img.wal|
    ensures
      var r := img.wal[rs.pos];
      var h := Hist(img.wal, rs.pos, r.lblk);
      && FitsAt(img.wal, rs.pos) && PageLsn(h) < rs.pos + 1
      && (r.Delta? ==> ReadPage(rs, r.lblk).Some? && ReadPage(rs, r.lblk).value.hist == h
                       && r.lblk in rs.mapping && MapAt(img.wal, rs.pos, r.lblk) == Some(rs.mapping[r.lblk]))
      && (r.Remap? ==> var b := ReadPage(rs.(mapping := rs.mapping[r.lblk := r.oldP]), r.lblk);
                       b.Some? && b.value.hist == h)
      && (r.Birth? ==> h == [])
  {
    var r := img.wal[rs.pos];
    assert RBlockOK(img, rs, r.lblk) && FitsAt(img.wal, rs.pos);
    HistBounded(img.wal, rs.pos, r.lblk);
    if r.Birth? {
      NoHistory(img.wal, rs.pos, r.lblk);
    }
    if Untouched(img.wal, r.lblk, img.redo, rs.pos) {
      assert FirstKept(img, rs, rs.pos);
    }
  }

  /** Redo of a remap writes the old block, which is a baseline only of the block's first
      record, and then holds what is written already. */
  lemma RedoBase(img: Image, rs: RState)
    requires RInv(img, rs) && rs.pos < |img.wal| && RApply(img, rs, Redo).Some?
    ensures BaseOK(img, RApply(img, rs, Redo).value, img.wal[rs.pos].lblk)
  {
    NextPage(img, rs);
    var r, rs' := img.wal[rs.pos], RApply(img, rs, Redo).value;
    assert RBlockOK(img, rs, r.lblk);
    if Untouched(img.wal, r.lblk, img.redo, rs.pos) {
      assert FirstKept(img, rs, rs.pos);
      BaseSame(img, rs, rs', r.lblk);
    } else if r.Remap? {
      BaseStays(img, rs, rs', r.lblk, r.lblk, r.oldP);
    } else {
      BaseSame(img, rs, rs', r.lblk);
    }
  }

  lemma RedoOwn(img: Image, rs: RState)
    requires RInv(img, rs) && rs.pos < |img.wal|
    ensures RApply(img, rs, Redo).Some? && RBlockOK(img, RApply(img, rs, Redo).value, img.wal[rs.pos].lblk)
  {
    hide BaseOK;
    NextPage(img, rs);
    RedoBase(img, rs);
    var l := img.wal[rs.pos].lblk;
    assert !Untouched(img.wal, l, img.redo, rs.pos + 1);
  }

  lemma RedoOther(img: Image, rs: RState, l: nat)
    requires RInv(img, rs) && rs.pos < |img.wal| && l != img.wal[rs.pos].lblk
    ensures RApply(img, rs, Redo).Some? && RBlockOK(img, RApply(img, rs, Redo).value, l)
  {
    hide BaseOK, ReplayedOK;
    NextPage(img, rs);
    var r := img.wal[rs.pos];
    assert RBlockOK(img, rs, l);
    OtherBlock(img, rs, RApply(img, rs, Redo).value, l, r.lblk, if r.Remap? then r.oldP else 0);
  }

  lemma RedoKeeps(img: Image, rs: RState)
    requires RInv(img, rs)
    ensures RApply(img, rs, Redo).Some? && RInv(img, RApply(img, rs, Redo).value)
  {
    hide RBlockOK;
    if rs.pos < |img.wal| {
      RedoOwn(img, rs);
      forall l ensures RBlockOK(img, RApply(img, rs, Redo).value, l) {
        if l != img.wal[rs.pos].lblk {
          RedoOther(img, rs, l);
        }
      }
    }
  }

  lemma WriteKeeps(img: Image, rs: RState, a: RStep)
    requires RInv(img, rs) && !a.Redo?
    ensures RApply(img, rs, a).Some? && RInv(img, RApply(img, rs, a).value)
  {
    var rs' := RApply(img, rs, a).value;
    assert RBlockOK(img, rs, a.l);
    forall l ensures RBlockOK(img, rs', l) {
      assert RBlockOK(img, rs, l);
      if l != a.l {
        OtherBlock(img, rs, rs', l, a.l, if a.l in rs.mapping then rs.mapping[a.l] else 0);
      } else {
        WriteOwn(img, rs, a);
      }
    }
  }

  lemma WriteOwn(img: Image, rs: RState, a: RStep)
    requires RInv(img, rs) && !a.Redo?
    ensures RBlockOK(img, RApply(img, rs, a).value, a.l)
  {
    var rs' := RApply(img, rs, a).value;
    assert RBlockOK(img, rs, a.l);
    if WritesNothing(rs, rs') {
      BaseSame(img, rs, rs', a.l);
    } else {
      BaseStays(img, rs, rs', a.l, a.l, rs.mapping[a.l]);
    }
  }

  lemma {:induction false} RunKeeps(img: Image, rs: RState, steps: seq<RStep>)
    requires RInv(img, rs)
    ensures RRun(img, rs, steps).Some? && RInv(img, RRun(img, rs, steps).value)
    decreases |steps|
  {
    if steps != [] {
      if steps[0].Redo? {
        RedoKeeps(img, rs);
      } else {
        WriteKeeps(img, rs, steps[0]);
      }
      RunKeeps(img, RApply(img, rs, steps[0]).value, steps[1..]);
    }
  }

  /** The state after recovery has read the whole log: every born block reads back
      with all its logged changes, and the frontier is past every block handed out. */
  ghost predicate Restored(img: Image, rs: RState)
  {
    && (forall l :: MapAt(img.wal, |img.wal|, l).Some? ==>
          && l in rs.mapping && MapAt(img.wal, |img.wal|, l) == Some(rs.mapping[l])
          && ReadPage(rs, l).Some? && ReadPage(rs, l).value.hist == Hist(img.wal, |img.wal|, l))
    && (forall i :: 0 <= i < |img.wal| && !img.wal[i].Delta? ==> img.wal[i].newP < rs.next)
  }

  lemma DoneIsRestored(img: Image, rs: RState)
    requires RInv(img, rs) && rs.pos == |img.wal|
    ensures Restored(img, rs)
  {
    forall l | MapAt(img.wal, |img.wal|, l).Some?
      ensures l in rs.mapping && MapAt(img.wal, |img.wal|, l) == Some(rs.mapping[l])
      ensures ReadPage(rs, l).Some? && ReadPage(rs, l).value.hist == Hist(img.wal, |img.wal|, l)
    {
      assert RBlockOK(img, rs, l);
    }
  }

  /** Redo meets no page it cannot read, and ends with every page back. */
  ghost predicate Recovers(img: Image, rsteps: seq<RStep>)
  {
    var r := RRun(img, Begin(img), rsteps);
    r.Some? && (r.value.pos == |img.wal| ==> Restored(img, r.value))
  }

  lemma CrashRecovers(s: State, img: Image, rsteps: seq<RStep>)
    requires Inv(s) && CrashImage(s, img)
    ensures Recovers(img, rsteps)
  {
    BeginHolds(s, img);
    RightBeginRecovers(img, rsteps);
  }

  lemma RightBeginRecovers(img: Image, rsteps: seq<RStep>)
    requires RInv(img, Begin(img))
    ensures Recovers(img, rsteps)
  {
    RunKeeps(img, Begin(img), rsteps);
    if RRun(img, Begin(img), rsteps).value.pos == |img.wal| {
      DoneIsRestored(img, RRun(img, Begin(img), rsteps).value);
    }
  }

  // ------------------------------------------------------------ whole runs

  /** The state after a run, if each step was enabled in turn. */
  function Run(s: State, steps: seq<Step>): Option<State>
    decreases |steps|
  {
    if steps == [] then Some(s)
    else if Enabled(s, steps[0]) then Run(Apply(s, steps[0]), steps[1..])
    else None
  }

  /** No remap of the run meets a dirty or checkpoint-marked buffer. */
  predicate CleanRun(s: State, steps: seq<Step>)
    decreases |steps|
  {
    steps != [] && Enabled(s, steps[0]) ==> CleanRemap(s, steps[0]) && CleanRun(Apply(s, steps[0]), steps[1..])
  }

  lemma {:induction false} CleanRunKeeps(s: State, steps: seq<Step>)
    requires Inv(s) && CleanRun(s, steps) && Run(s, steps).Some?
    ensures Inv(Run(s, steps).value)
    decreases |steps|
  {
    if steps != [] {
      StepKeeps(s, steps[0]);
      CleanRunKeeps(Apply(s, steps[0]), steps[1..]);
    }
  }

  /** Crash anywhere in a clean run, lose or tear any unsynced block, and recover
      with any interleaving of redo, write-back and eviction: redo never stops, and
      once it has read the log every page is back. */
  lemma CleanRunsRecover(steps: seq<Step>, img: Image, rsteps: seq<RStep>)
    requires CleanRun(InitState(), steps) && Run(InitState(), steps).Some?
    requires CrashImage(Run(InitState(), steps).value, img)
    ensures Recovers(img, rsteps)
  {
    InitHolds();
    CleanRunKeeps(InitState(), steps);
    CrashRecovers(Run(InitState(), steps).value, img, rsteps);
  }
}
