/** A server's whole life: runs, crashes, crashes during recovery, and running on from
    what recovery restored. */
module UmbraLife {
  import opened Optional
  import opened UmbraLog
  import opened UmbraRuntime
  import opened UmbraSafety
  import opened UmbraRecovery

  // ------------------------------------------------- crashes during recovery

  /** What survives a crash during recovery: the log and the redo point as they were;
      blocks that recovery changed may be lost or torn, and the MAP entry of a block
      already replayed may be anything. */
  ghost predicate CrashAgain(img: Image, rs: RState, img2: Image)
  {
    && img2.wal == img.wal && img2.redo == img.redo && img.durableNext <= img2.durableNext
    && (forall l :: rs.pos <= |img.wal| && Untouched(img.wal, l, img.redo, rs.pos) ==>
          Entry(img2.durableMap, l) == Entry(img.durableMap, l))
    && forall p :: p !in rs.wrote ==>
         (p in img2.disk <==> p in rs.disk) && (p in rs.disk ==> img2.disk[p] == rs.disk[p])
  }

  /** Anything at all may be in the blocks that recovery wrote, and in the MAP entries of
      the blocks it has replayed. */
  lemma CrashAgainMayLeave(img: Image, rs: RState, m: map<nat, nat>, next: nat, disk: map<nat, seq<nat>>)
    requires img.durableNext <= next
    requires forall l :: rs.pos <= |img.wal| && Untouched(img.wal, l, img.redo, rs.pos) ==> Entry(m, l) == Entry(img.durableMap, l)
    requires forall p :: p !in rs.wrote && p in rs.disk ==> p in disk && disk[p] == rs.disk[p]
    requires forall p :: p !in rs.wrote && p !in rs.disk ==> p !in disk
    ensures CrashAgain(img, rs, Image(img.wal, img.redo, m, next, disk))
  {
  }

  lemma BaseAgain(img: Image, rs: RState, img2: Image, l: nat)
    requires RInv(img, rs) && CrashAgain(img, rs, img2)
    ensures BaseOK(img2, Begin(img2), l)
  {
    assert RBlockOK(img, rs, l);
    forall k | img.redo <= k < |img.wal| && img.wal[k].lblk == l && Untouched(img.wal, l, img.redo, k)
      ensures FirstKept(img2, Begin(img2), k)
    {
      assert FirstKept(img, rs, k);
    }
    if MapAt(img.wal, |img.wal|, l).None? {
      UnbornUntouched(img.wal, l, img.redo, rs.pos);
    }
  }

  lemma UnbornUntouched(w: Wal, l: nat, a: nat, b: nat)
    requires WellFormed(w) && b <= |w| && MapAt(w, |w|, l).None?
    ensures Untouched(w, l, a, b)
  {
    forall k | a <= k < b ensures w[k].lblk != l {
      if w[k].lblk == l {
        BornStays(w, k, |w|, l);
      }
    }
  }

  /** Another attempt starts as right as the first. */
  lemma AgainHolds(img: Image, rs: RState, img2: Image)
    requires RInv(img, rs) && CrashAgain(img, rs, img2)
    ensures RInv(img2, Begin(img2))
  {
    forall l ensures RBlockOK(img2, Begin(img2), l) {
      BaseAgain(img, rs, img2, l);
    }
  }

  datatype Attempt = Attempt(rsteps: seq<RStep>, after: Image)

  /** Recovery attempts that each end in a crash, from image img to image last. */
  ghost predicate Attempts(img: Image, tries: seq<Attempt>, last: Image)
    decreases |tries|
  {
    if tries == [] then last == img
    else
      var r := RRun(img, Begin(img), tries[0].rsteps);
      r.Some? && CrashAgain(img, r.value, tries[0].after) && Attempts(tries[0].after, tries[1..], last)
  }

  lemma {:induction false} AttemptsKeep(img: Image, tries: seq<Attempt>, last: Image)
    requires RInv(img, Begin(img)) && Attempts(img, tries, last)
    ensures RInv(last, Begin(last)) && last.wal == img.wal
    decreases |tries|
  {
    if tries != [] {
      RunKeeps(img, Begin(img), tries[0].rsteps);
      AgainHolds(img, RRun(img, Begin(img), tries[0].rsteps).value, tries[0].after);
      AttemptsKeep(tries[0].after, tries[1..], last);
    }
  }

  // ------------------------------------------------------ running on

  /** The MAP and the superblock on disk when recovery is done: as last written, and
      what an unsynced write may fall back to. */
  datatype Left = Left(durableMap: map<nat, nat>, mapStale: map<nat, set<Option<nat>>>, durableNext: nat)

  /** Recovery is over: its buffers, mapping and frontier are the server's. */
  function Resume(img: Image, rs: RState, left: Left): State
  {
    State(img.wal, |img.wal|, rs.mapping, left.durableMap, left.mapStale,
          map l | l in rs.bufs :: Buf(rs.bufs[l].hist, rs.bufs[l].dirty, false, false, None),
          rs.disk, rs.wrote, rs.next, {}, rs.next, left.durableNext, img.durableNext, img.redo, img.redo, Idle)
  }

  /** Entries of blocks without change since the redo point are as they were; others may
      be any version, once there they stay. */
  ghost predicate Leaves(img: Image, rs: RState, left: Left)
  {
    && rs.pos == |img.wal| && img.durableNext <= left.durableNext <= rs.next
    && forall l, v :: v in Versions(Resume(img, rs, left), l) ==> VersionLeft(img, l, v)
  }

  predicate VersionLeft(img: Image, l: nat, v: Option<nat>)
  {
    && (Untouched(img.wal, l, img.redo, |img.wal|) ==> v == Entry(img.durableMap, l))
    && (MapAt(img.wal, |img.wal|, l).Some? ==> v.Some?)
  }

  /** Recovery that got to the end can leave the MAP as it has it. */
  lemma CanResume(img: Image, rs: RState)
    requires RInv(img, rs) && rs.pos == |img.wal|
    ensures Leaves(img, rs, Left(rs.mapping, map[], rs.next))
  {
    var left := Left(rs.mapping, map[], rs.next);
    forall l, v | v in Versions(Resume(img, rs, left), l) ensures VersionLeft(img, l, v) {
      assert RBlockOK(img, rs, l);
    }
  }

  lemma ResumeMap(img: Image, rs: RState, left: Left, l: nat)
    requires RInv(img, rs) && Leaves(img, rs, left)
    ensures DurableMapOK(Resume(img, rs, left), l, img.redo) && LoggedOK(Resume(img, rs, left), l)
  {
    var s := Resume(img, rs, left);
    assert RBlockOK(img, rs, l);
    forall v | v in Versions(s, l) ensures VersionOK(s, l, img.redo, v) && (v.Some? ==> TouchedDurably(s, l, 0)) {
      assert VersionLeft(img, l, v);
      if Untouched(img.wal, l, img.redo, |img.wal|) {
        UntouchedKeeps(img.wal, l, img.redo, |img.wal|);
        if MapAt(img.wal, |img.wal|, l).Some? {
          var i := Allocator(img.wal, |img.wal|, l);
        }
      } else {
        var k :| img.redo <= k < |img.wal| && img.wal[k].lblk == l;
        assert TouchedDurably(s, l, img.redo) && TouchedDurably(s, l, 0);
        if MapAt(img.wal, img.redo, l).Some? {
          StaysMapped(img.wal, l, img.redo, |img.wal|);
        }
      }
    }
  }

  lemma ResumeCurrent(img: Image, rs: RState, left: Left, l: nat)
    requires RInv(img, rs) && Leaves(img, rs, left)
    ensures CurrentOK(Resume(img, rs, left), l)
  {
    assert RBlockOK(img, rs, l);
    if MapAt(img.wal, |img.wal|, l).None? {
      UnbornUntouched(img.wal, l, img.redo, |img.wal|);
    }
  }

  lemma ResumeBase(img: Image, rs: RState, left: Left, l: nat)
    requires RInv(img, rs) && Leaves(img, rs, left)
    ensures BaselineOK(Resume(img, rs, left), l, img.redo, true) && RestingOK(Resume(img, rs, left), l, img.redo)
  {
    var s := Resume(img, rs, left);
    assert RBlockOK(img, rs, l);
    forall k | img.redo <= k < |img.wal| && img.wal[k].lblk == l && Untouched(img.wal, l, img.redo, k)
      ensures FirstOK(s, k, true)
    {
      assert FirstKept(img, rs, k);
    }
  }

  /** What recovery restores is a state to run on from. */
  lemma ResumeHolds(img: Image, rs: RState, left: Left)
    requires RInv(img, rs) && Leaves(img, rs, left)
    ensures Inv(Resume(img, rs, left))
  {
    forall l ensures BlockOK(Resume(img, rs, left), l) {
      ResumeCurrent(img, rs, left, l);
      ResumeBase(img, rs, left, l);
      ResumeMap(img, rs, left, l);
    }
  }

  // ------------------------------------------------------------ whole lives

  /** A clean run, a crash, any number of crashes during recovery, and a recovery that
      gets to the end. */
  datatype Epoch = Epoch(steps: seq<Step>, crash: Image, tries: seq<Attempt>, last: Image, rsteps: seq<RStep>, left: Left)

  ghost predicate Lives(s: State, epochs: seq<Epoch>, t: State)
    decreases |epochs|
  {
    if epochs == [] then t == s
    else
      var e := epochs[0];
      && CleanRun(s, e.steps) && Run(s, e.steps).Some? && CrashImage(Run(s, e.steps).value, e.crash)
      && Attempts(e.crash, e.tries, e.last)
      && var r := RRun(e.last, Begin(e.last), e.rsteps);
         r.Some? && Leaves(e.last, r.value, e.left) && Lives(Resume(e.last, r.value, e.left), epochs[1..], t)
  }

  lemma {:induction false} LivesKeep(s: State, epochs: seq<Epoch>, t: State)
    requires Inv(s) && Lives(s, epochs, t)
    ensures Inv(t)
    decreases |epochs|
  {
    if epochs != [] {
      var e := epochs[0];
      CleanRunKeeps(s, e.steps);
      BeginHolds(Run(s, e.steps).value, e.crash);
      AttemptsKeep(e.crash, e.tries, e.last);
      RunKeeps(e.last, Begin(e.last), e.rsteps);
      var rs := RRun(e.last, Begin(e.last), e.rsteps).value;
      ResumeHolds(e.last, rs, e.left);
      LivesKeep(Resume(e.last, rs, e.left), epochs[1..], t);
    }
  }

  /** However often the server crashed before, and however often recovery itself
      crashes: after any clean run, recovery from the surviving log never meets a page
      it cannot read, and ends with every page back. */
  lemma EveryLifeRecovers(epochs: seq<Epoch>, t: State, steps: seq<Step>, img: Image, tries: seq<Attempt>, last: Image, rsteps: seq<RStep>)
    requires Lives(InitState(), epochs, t) && CleanRun(t, steps) && Run(t, steps).Some?
    requires CrashImage(Run(t, steps).value, img) && Attempts(img, tries, last)
    ensures last.wal == img.wal && Recovers(last, rsteps)
  {
    InitHolds();
    LivesKeep(InitState(), epochs, t);
    CleanRunKeeps(t, steps);
    BeginHolds(Run(t, steps).value, img);
    AttemptsKeep(img, tries, last);
    RightBeginRecovers(last, rsteps);
  }
}
