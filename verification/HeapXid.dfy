/** Transaction ids as verify_heapam widens and bounds them. */
module HeapXid {

  const TWO31 := 0x8000_0000
  const TWO32 := 0x1_0000_0000
  const TWO64 := 0x1_0000_0000_0000_0000
  const FIRST_NORMAL := 3

  predicate Normal(xid: nat) { xid >= FIRST_NORMAL }

  function Low(f: nat): nat { f % TWO32 }

  /** (int32) (next_xid - xid) */
  function Diff(next: nat, xid: nat): int
  {
    var d := (Low(next) - xid) % TWO32;
    if d < TWO31 then d else d - TWO32
  }

  /** FullTransactionIdFromXidAndCtx, given the cached next id. */
  function Widen(xid: nat, next: nat): nat
    requires xid < TWO32 && FIRST_NORMAL <= next < TWO64
  {
    if !Normal(xid) then xid
    else
      var diff := Diff(next, xid);
      if diff > 0 && next - FIRST_NORMAL < diff then FIRST_NORMAL else (next - diff) % TWO64
  }

  lemma DiffIs(next: nat, f: nat)
    requires Low(f) == f % TWO32
    ensures -TWO31 <= next - f < TWO31 ==> Diff(next, Low(f)) == next - f
    ensures (next - f - Diff(next, Low(f))) % TWO32 == 0
    ensures -TWO31 <= Diff(next, Low(f)) < TWO31
  {
    var q, r := next / TWO32, f / TWO32;
    assert Low(next) - Low(f) == next - f - TWO32 * (q - r);
    ModShift(next - f, r - q);
  }

  lemma ModShift(a: int, k: int)
    ensures (a + TWO32 * k) % TWO32 == a % TWO32
  {
    var q := a / TWO32;
    assert a + TWO32 * k == TWO32 * (q + k) + a % TWO32;
  }

  /** Widening the low half gives back the ids within 2^31 of next, and, as long as
      next is that far from 2^64, no others. */
  lemma WidenRecoversIff(f: nat, next: nat)
    requires FIRST_NORMAL <= next < TWO64 && FIRST_NORMAL <= f < TWO64 && Normal(Low(f))
    ensures -TWO31 <= next - f < TWO31 ==> Widen(Low(f), next) == f
    ensures Widen(Low(f), next) == f && next + TWO31 < TWO64 ==> -TWO31 <= next - f < TWO31
  {
    DiffIs(next, f);
    var diff := Diff(next, Low(f));
    if diff > 0 && next - FIRST_NORMAL < diff {
      assert next - f - diff == TWO32 * ((next - f - diff) / TWO32);
    }
  }

  /** A full id, from epoch 0 on, that a 32-bit id may stand for: the low half agrees,
      and it lies within 2^31 of next. */
  predicate StandsFor(f: nat, xid: nat, next: nat)
  {
    3 <= f && f % 0x1_0000_0000 == xid && next - 0x8000_0000 < f <= next + 0x8000_0000
  }

  lemma LowOfDiff(xid: nat, next: nat)
    requires xid < TWO32
    ensures (next - Diff(next, xid)) % TWO32 == xid && -TWO31 <= Diff(next, xid) < TWO31
  {
    var q := (Low(next) - xid) / TWO32;
    assert Low(next) - xid == TWO32 * q + (Low(next) - xid) % TWO32;
    var k := next / TWO32;
    assert next == TWO32 * k + Low(next);
    if (Low(next) - xid) % TWO32 < TWO31 {
      assert next - Diff(next, xid) == xid + TWO32 * (k + q);
      ModShift(xid, k + q);
    } else {
      assert next - Diff(next, xid) == xid + TWO32 * (k + q + 1);
      ModShift(xid, k + q + 1);
    }
  }

  /** Ids below 3 are special and stay as they are.  Otherwise the widened id is the one
      full id the xid may stand for; if it may stand for none,
      for all with its low half are too far away or from before epoch 0, it is clamped
      to the first normal id. */
  lemma WidenIsNearest(xid: nat, next: nat)
    requires 3 <= next < TWO64 && xid < TWO32
    ensures xid < 3 ==> Widen(xid, next) == xid
    ensures xid >= 3 ==> forall f: nat :: StandsFor(f, xid, next) ==> Widen(xid, next) == f % TWO64
    ensures xid >= 3 ==> (exists f: nat :: StandsFor(f, xid, next)) || Widen(xid, next) == 3
  {
    var f0 := next - Diff(next, xid);
    LowOfDiff(xid, next);
    forall f: nat | StandsFor(f, xid, next) ensures f == f0 {
      DiffIs(next, f);
    }
    if f0 >= FIRST_NORMAL {
      assert StandsFor(f0, xid, next);
    }
  }

  datatype Bounds = Invalid | InFuture | PrecedesClusterMin | PrecedesRelMin | BoundsOk

  /** The context's cached range; relfrozen is fixed for the relation. */
  class Context {
    const relfrozen: nat
    var next: nat
    var oldest: nat

    constructor (relfrozen: nat, nextNow: nat, oldestXidNow: nat)
      requires FIRST_NORMAL <= nextNow < TWO64 && oldestXidNow < TWO32
      ensures this.relfrozen == relfrozen && Valid() && next == nextNow && oldest == Widen(oldestXidNow, nextNow)
    {
      this.relfrozen := relfrozen;
      next, oldest := nextNow, Widen(oldestXidNow, nextNow);
    }

    ghost predicate Valid()
      reads this
    {
      FIRST_NORMAL <= next < TWO64
    }

    /** update_cached_xid_range, from what the shared counters now hold. */
    method Refresh(nextNow: nat, oldestXidNow: nat)
      requires FIRST_NORMAL <= nextNow < TWO64 && oldestXidNow < TWO32
      modifies this
      ensures Valid() && next == nextNow && oldest == Widen(oldestXidNow, nextNow)
    {
      next, oldest := nextNow, Widen(oldestXidNow, nextNow);
    }

    predicate InCachedRange(f: nat)
      reads this
    {
      oldest <= f < next
    }

    /** get_xid_status, as far as bounds go.  The range is refreshed only when the id
        falls outside the cached one; a normal id is answered in bounds exactly when
        it lies at or after both horizons and before next in the range then cached. */
    method XidBounds(xid: nat, nextNow: nat, oldestXidNow: nat) returns (r: Bounds)
      requires Valid() && xid < TWO32 && FIRST_NORMAL <= nextNow < TWO64 && oldestXidNow < TWO32
      modifies this
      ensures Valid()
      ensures if Normal(xid) && !old(InCachedRange(Widen(xid, next)))
              then next == nextNow && oldest == Widen(oldestXidNow, nextNow)
              else next == old(next) && oldest == old(oldest)
      ensures xid == 0 <==> r == Invalid
      ensures 0 < xid < FIRST_NORMAL ==> r == BoundsOk
      ensures Normal(xid) ==> (r == BoundsOk <==> InCachedRange(Widen(xid, next)) && relfrozen <= Widen(xid, next))
      ensures Normal(xid) ==> (r == InFuture <==> next <= Widen(xid, next))
      ensures Normal(xid) ==> (r == PrecedesClusterMin <==> Widen(xid, next) < oldest && Widen(xid, next) < next)
      ensures Normal(xid) && r == PrecedesRelMin ==> InCachedRange(Widen(xid, next)) && Widen(xid, next) < relfrozen
    {
      if xid == 0 {
        return Invalid;
      }
      if xid < FIRST_NORMAL {
        return BoundsOk;
      }
      var f := Widen(xid, next);
      if !InCachedRange(f) {
        Refresh(nextNow, oldestXidNow);
        f := Widen(xid, next);
      }
      r := if next <= f then InFuture
           else if f < oldest then PrecedesClusterMin
           else if f < relfrozen then PrecedesRelMin
           else BoundsOk;
    }
  }
}
