/** The write-ahead log of one mapped fork under Umbra: page births, plain page
    changes, and changes that move a logical block to a fresh physical block.
    Record number i (from 0) has LSN i + 1. */
module UmbraLog {
  import opened Optional

  datatype Record =
    | Birth(lblk: nat, newP: nat)
    | Delta(lblk: nat)
    | Remap(lblk: nat, oldP: nat, newP: nat)

  type Wal = seq<Record>

  /** The LSNs of the records on block l among the first n, oldest first: what the
      page holds once exactly those records have been applied to it. */
  function Hist(w: Wal, n: nat, l: nat): (h: seq<nat>)
    requires n <= |w|
  {
    if n == 0 then []
    else if w[n - 1].lblk == l then Hist(w, n - 1, l) + [n]
    else Hist(w, n - 1, l)
  }

  /** The physical block of l after the first n records. */
  function MapAt(w: Wal, n: nat, l: nat): Option<nat>
    requires n <= |w|
  {
    if n == 0 then None
    else if w[n - 1].lblk == l && !w[n - 1].Delta? then Some(w[n - 1].newP)
    else MapAt(w, n - 1, l)
  }

  function PageLsn(h: seq<nat>): nat { if h == [] then 0 else h[|h| - 1] }

  predicate Untouched(w: Wal, l: nat, a: nat, b: nat)
    requires b <= |w|
  {
    forall i :: a <= i < b ==> w[i].lblk != l
  }

  /** No physical block is handed out twice. */
  predicate Distinct(w: Wal)
  {
    forall i, j :: 0 <= i < j < |w| && !w[i].Delta? && !w[j].Delta? ==> w[i].newP != w[j].newP
  }

  /** Each record fits the mapping before it. */
  predicate AllFit(w: Wal)
  {
    forall k :: 0 <= k < |w| ==> FitsAt(w, k)
  }

  predicate FitsAt(w: Wal, k: nat)
    requires k < |w|
  {
    Fits(w[k], MapAt(w, k, w[k].lblk))
  }

  predicate WellFormed(w: Wal) { Distinct(w) && AllFit(w) }

  predicate Fits(r: Record, before: Option<nat>)
  {
    match r
    case Birth(_, _) => before.None?
    case Delta(_) => before.Some?
    case Remap(_, p, _) => before == Some(p)
  }

  lemma {:induction false} PrefixAgrees(w: Wal, v: Wal, n: nat, l: nat)
    requires n <= |w| && n <= |v| && forall i :: 0 <= i < n ==> w[i] == v[i]
    ensures Hist(w, n, l) == Hist(v, n, l) && MapAt(w, n, l) == MapAt(v, n, l)
  {
    if n > 0 {
      PrefixAgrees(w, v, n - 1, l);
    }
  }

  lemma {:induction false} UntouchedKeeps(w: Wal, l: nat, a: nat, b: nat)
    requires a <= b <= |w| && Untouched(w, l, a, b)
    ensures Hist(w, a, l) == Hist(w, b, l) && MapAt(w, a, l) == MapAt(w, b, l)
    decreases b
  {
    if a < b {
      UntouchedKeeps(w, l, a, b - 1);
    }
  }

  lemma {:induction false} HistBounded(w: Wal, n: nat, l: nat)
    requires n <= |w|
    ensures PageLsn(Hist(w, n, l)) <= n
    ensures forall i :: 0 <= i < |Hist(w, n, l)| ==> Hist(w, n, l)[i] <= n
  {
    if n > 0 {
      HistBounded(w, n - 1, l);
    }
  }

  /** The page LSN tells whether the block was touched since a log position. */
  lemma {:induction false} LsnTellsTouched(w: Wal, l: nat, r: nat, n: nat)
    requires r <= n <= |w|
    ensures PageLsn(Hist(w, n, l)) <= r <==> Untouched(w, l, r, n)
    decreases n
  {
    if r < n {
      LsnTellsTouched(w, l, r, n - 1);
      if w[n - 1].lblk == l {
        assert Hist(w, n, l)[|Hist(w, n, l)| - 1] == n;
      } else {
        assert Untouched(w, l, r, n) <==> Untouched(w, l, r, n - 1);
      }
    } else {
      HistBounded(w, n, l);
    }
  }

  /** The record that handed out the current physical block. */
  lemma {:induction false} Allocator(w: Wal, n: nat, l: nat) returns (i: nat)
    requires n <= |w| && MapAt(w, n, l).Some?
    ensures i < n && !w[i].Delta? && w[i].lblk == l && w[i].newP == MapAt(w, n, l).value
    ensures forall j :: i < j < n ==> w[j].lblk != l || w[j].Delta?
  {
    if w[n - 1].lblk == l && !w[n - 1].Delta? {
      i := n - 1;
    } else {
      i := Allocator(w, n - 1, l);
    }
  }

  /** Two logical blocks never share a physical one, at any two moments. */
  lemma OwnersDiffer(w: Wal, n: nat, l: nat, m: nat, k: nat)
    requires Distinct(w) && n <= |w| && m <= |w| && l != k
    requires MapAt(w, n, l).Some?
    ensures MapAt(w, n, l) != MapAt(w, m, k)
  {
    var i := Allocator(w, n, l);
    if MapAt(w, m, k).Some? {
      var j := Allocator(w, m, k);
    }
  }

  /** A block never moves back to a physical block it has left. */
  lemma NeverReturns(w: Wal, k: nat, n: nat)
    requires Distinct(w) && k < n <= |w| && w[k].Remap? && FitsAt(w, k)
    ensures MapAt(w, n, w[k].lblk).Some? && MapAt(w, n, w[k].lblk).value != w[k].oldP
  {
    var l := w[k].lblk;
    var i := Allocator(w, k, l);
    StaysMapped(w, l, k + 1, n);
    var j := Allocator(w, n, l);
    assert j >= k;
  }

  lemma {:induction false} StaysMapped(w: Wal, l: nat, a: nat, b: nat)
    requires a <= b <= |w| && MapAt(w, a, l).Some?
    ensures MapAt(w, b, l).Some?
    decreases b
  {
    if a < b {
      StaysMapped(w, l, a, b - 1);
    }
  }

  /** Appending a record that fits keeps the log well-formed. */
  lemma AppendKeepsWellFormed(w: Wal, r: Record)
    requires WellFormed(w)
    requires Fits(r, MapAt(w, |w|, r.lblk))
    requires !r.Delta? ==> forall i :: 0 <= i < |w| && !w[i].Delta? ==> w[i].newP != r.newP
    ensures WellFormed(w + [r])
  {
    var v := w + [r];
    forall k | 0 <= k < |v|
      ensures FitsAt(v, k)
    {
      PrefixAgrees(w, v, k, v[k].lblk);
      assert k < |w| ==> FitsAt(w, k);
    }
  }

  lemma Append(w: Wal, r: Record, n: nat, l: nat)
    requires n <= |w|
    ensures Hist(w + [r], n, l) == Hist(w, n, l) && MapAt(w + [r], n, l) == MapAt(w, n, l)
  {
    PrefixAgrees(w, w + [r], n, l);
  }

  /** Cutting the log keeps it well-formed. */
  lemma CutKeepsWellFormed(w: Wal, n: nat)
    requires WellFormed(w) && n <= |w|
    ensures WellFormed(w[..n])
  {
    var v := w[..n];
    forall k | 0 <= k < |v|
      ensures FitsAt(v, k)
    {
      PrefixAgrees(v, w, k, v[k].lblk);
      assert FitsAt(w, k);
    }
  }
}
