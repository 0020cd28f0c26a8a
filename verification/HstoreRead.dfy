/** Reading a packed hstore back. */
module HstoreRead {
  import opened HstorePack

  // The HSE_ macros, on an entry.
  predicate IsFirst(e: nat) { e / ISFIRST % 2 == 1 }
  predicate IsNull(e: nat) { e / ISNULL % 2 == 1 }
  function EndPos(e: nat): nat { e % POSLIMIT }

  function EntryAt(mem: Mem, j: nat): nat
    requires 4 * j + 4 <= |mem| && Entry(mem, j) >= 0
  {
    Entry(mem, j)
  }

  predicate Readable(mem: Mem, count: nat)
  {
    8 * count <= |mem| && forall j :: 0 <= j < 2 * count ==> Entry(mem, j) >= 0
  }

  function Offset(mem: Mem, count: nat, j: nat): nat
    requires Readable(mem, count) && j < 2 * count
  {
    if IsFirst(EntryAt(mem, j)) || j == 0 then 0 else EndPos(EntryAt(mem, j - 1))
  }

  /** The bytes of the j-th key or value, if they are there. */
  function Bytes(mem: Mem, count: nat, j: nat): seq<Cell>
    requires Readable(mem, count) && j < 2 * count
  {
    var off, end := 8 * count + Offset(mem, count, j), 8 * count + EndPos(EntryAt(mem, j));
    if off <= end <= |mem| then mem[off..end] else []
  }

  function ReadKey(mem: Mem, count: nat, i: nat): seq<Cell>
    requires Readable(mem, count) && i < count
  {
    Bytes(mem, count, 2 * i)
  }

  function ReadValue(mem: Mem, count: nat, i: nat): seq<Cell>
    requires Readable(mem, count) && i < count
  {
    Bytes(mem, count, 2 * i + 1)
  }

  predicate ReadIsNull(mem: Mem, count: nat, i: nat)
    requires Readable(mem, count) && i < count
  {
    IsNull(EntryAt(mem, 2 * i + 1))
  }

  // ------------------------------------------------------------------ positions

  function Start(ps: seq<Pair>, i: nat): nat
    requires i <= |ps|
  {
    |StringsTo(ps, i)|
  }

  /** What is packed first stays in front. */
  lemma {:induction false} PrefixTo(ps: seq<Pair>, m: nat, n: nat)
    requires m <= n <= |ps|
    ensures StringsTo(ps, m) <= StringsTo(ps, n) && EntriesTo(ps, m) <= EntriesTo(ps, n)
    decreases n
  {
    if m < n {
      PrefixTo(ps, m, n - 1);
    }
  }

  lemma Middle(a: seq<Cell>, k: seq<Cell>, v: seq<Cell>, all: seq<Cell>)
    requires a + k + v <= all
    ensures |a| + |k| + |v| <= |all|
    ensures all[|a|..|a| + |k|] == k && all[|a| + |k|..|a| + |k| + |v|] == v
  {
    var s := a + k + v;
    assert all[|a|..|a| + |k|] == s[|a|..|a| + |k|] == k;
    assert all[|a| + |k|..|a| + |k| + |v|] == s[|a| + |k|..] == v;
  }

  /** Where pair i lies in the strings. */
  predicate LiesAt(all: seq<Cell>, p: Pair, a: nat, b: nat)
  {
    && a + |p.key| <= b <= |all| && b == a + |p.key| + |Value(p)|
    && all[a..a + |p.key|] == p.key && all[a + |p.key|..b] == Value(p)
  }

  lemma StringsIndex(ps: seq<Pair>, i: nat)
    requires i < |ps|
    ensures LiesAt(Strings(ps), ps[i], Start(ps, i), Start(ps, i + 1))
  {
    PrefixTo(ps, i + 1, |ps|);
    Middle(StringsTo(ps, i), ps[i].key, Value(ps[i]), Strings(ps));
  }

  lemma EntriesIndex(ps: seq<Pair>, i: nat)
    requires i < |ps|
    ensures [Entries(ps)[2 * i], Entries(ps)[2 * i + 1]] == Own(Start(ps, i), ps[i])
  {
    PrefixTo(ps, i + 1, |ps|);
    Pairwise(EntriesTo(ps, i), Own(Start(ps, i), ps[i]), Entries(ps));
  }

  lemma Pairwise(a: seq<nat>, b: seq<nat>, all: seq<nat>)
    requires |b| == 2 && a + b <= all
    ensures |a| + 2 <= |all| && [all[|a|], all[|a| + 1]] == b
  {
    assert all[|a|] == (a + b)[|a|] && all[|a| + 1] == (a + b)[|a| + 1];
  }

  /** Flags and position come apart again. */
  lemma Decode(end: nat, isnull: bool, first: bool)
    requires end < POSLIMIT
    ensures var e := Mask(end) + (if isnull then ISNULL else 0) + (if first then ISFIRST else 0);
      EndPos(e) == end && (IsNull(e) <==> isnull) && (IsFirst(e) <==> first)
  {
  }

  // ----------------------------------------------------------------- round trip

  /** The entries of pair i as they stand in memory: the end positions, and the flags. */
  predicate EntriesTell(e: nat, f: nat, p: Pair, a: nat, b: nat, first: bool)
  {
    && EndPos(e) == a + |p.key| && (IsFirst(e) <==> first)
    && EndPos(f) == b && !IsFirst(f) && (IsNull(f) <==> p.isnull)
  }

  lemma OwnTells(p: Pair, a: nat, first: bool)
    requires a + |p.key| + |Value(p)| < POSLIMIT
    ensures var o := Own(a, p);
      EntriesTell(o[0] + (if first then ISFIRST else 0), o[1], p, a, a + |p.key| + |Value(p)|, first)
  {
    Decode(a + |p.key|, false, first);
    Decode(a + |p.key| + |Value(p)|, p.isnull, false);
  }

  /** Bytes that the first n pairs take. */
  function Length(ps: seq<Pair>, n: nat): nat
    requires n <= |ps|
  {
    if n == 0 then 0 else Length(ps, n - 1) + |ps[n - 1].key| + if ps[n - 1].isnull then 0 else |ps[n - 1].val|
  }

  lemma {:induction false} StartIsLength(ps: seq<Pair>, i: nat)
    requires i <= |ps|
    ensures Start(ps, i) == Length(ps, i)
  {
    if i > 0 {
      StartIsLength(ps, i - 1);
    }
  }

  /** The entries of a packed hstore: for each pair the end of its key and of its value,
      the top bit on the first entry of all, the next bit on the entry of a null value. */
  lemma EntriesAre(mem: Mem, ps: seq<Pair>, i: nat)
    requires IsPacked(mem, ps) && Length(ps, |ps|) < 0x4000_0000 && i < |ps|
    ensures Entry(mem, 2 * i) == Length(ps, i) + |ps[i].key| + if i == 0 then 0x8000_0000 else 0
    ensures Entry(mem, 2 * i + 1) == Length(ps, i + 1) + if ps[i].isnull then 0x4000_0000 else 0
  {
    hide Start, Strings, EntriesTo, Length;
    EntriesIndex(ps, i);
    StringsIndex(ps, i);
    StartIsLength(ps, i);
    StartIsLength(ps, i + 1);
    StartIsLength(ps, |ps|);
    EndOfAll(ps);
    var es := Entries(ps);
    assert Entry(mem, 2 * i) == Marked(es)[2 * i] && Entry(mem, 2 * i + 1) == Marked(es)[2 * i + 1];
    assert es[2 * i] == Own(Start(ps, i), ps[i])[0] && es[2 * i + 1] == Own(Start(ps, i), ps[i])[1];
  }

  lemma EndOfAll(ps: seq<Pair>)
    ensures Start(ps, |ps|) == |Strings(ps)|
  {
  }

  lemma EntriesOf(mem: Mem, ps: seq<Pair>, i: nat)
    requires IsPacked(mem, ps) && |Strings(ps)| < POSLIMIT && i < |ps|
    ensures Entry(mem, 2 * i) >= 0 && Entry(mem, 2 * i + 1) >= 0
    ensures EntriesTell(EntryAt(mem, 2 * i), EntryAt(mem, 2 * i + 1), ps[i], Start(ps, i), Start(ps, i + 1), i == 0)
  {
    hide EntriesTell, Start, Strings;
    var es := Entries(ps);
    EntriesIndex(ps, i);
    StringsIndex(ps, i);
    OwnTells(ps[i], Start(ps, i), i == 0);
    assert Entry(mem, 2 * i) == Marked(es)[2 * i] && Entry(mem, 2 * i + 1) == Marked(es)[2 * i + 1];
    assert es[2 * i] == Own(Start(ps, i), ps[i])[0] && es[2 * i + 1] == Own(Start(ps, i), ps[i])[1];
  }

  lemma PackedReadable(mem: Mem, ps: seq<Pair>)
    requires IsPacked(mem, ps)
    ensures Readable(mem, |ps|)
  {
    forall j | 0 <= j < 2 * |ps| ensures Entry(mem, j) >= 0 {
      assert Entry(mem, j) == Marked(Entries(ps))[j];
    }
  }

  lemma SliceOf(mem: Mem, base: nat, s: seq<Cell>, a: nat, b: nat)
    requires StringsAt(mem, base, s) && a <= b <= |s|
    ensures base + b <= |mem| && mem[base + a..base + b] == s[a..b]
  {
    var all := mem[base..base + |s|];
    assert forall k :: 0 <= k < |s| ==> all[k] == mem[base + k];
  }

  /** The bytes between two positions of the strings. */
  lemma BytesBetween(mem: Mem, ps: seq<Pair>, j: nat, a: nat, b: nat)
    requires IsPacked(mem, ps) && Readable(mem, |ps|) && j < 2 * |ps| && a <= b <= |Strings(ps)|
    requires Offset(mem, |ps|, j) == a && EndPos(EntryAt(mem, j)) == b
    ensures Bytes(mem, |ps|, j) == Strings(ps)[a..b]
  {
    hide EntryAt, EndPos, Offset, Strings, Entries;
    SliceOf(mem, 8 * |ps|, Strings(ps), a, b);
  }

  lemma FirstOffset(mem: Mem, ps: seq<Pair>)
    requires IsPacked(mem, ps) && Readable(mem, |ps|) && ps != []
    ensures Offset(mem, |ps|, 0) == Start(ps, 0)
  {
  }

  lemma LaterOffset(mem: Mem, ps: seq<Pair>, j: nat, a: nat)
    requires Readable(mem, |ps|) && 0 < j < 2 * |ps|
    requires !IsFirst(EntryAt(mem, j)) && EndPos(EntryAt(mem, j - 1)) == a
    ensures Offset(mem, |ps|, j) == a
  {
  }

  lemma KeyBack(mem: Mem, ps: seq<Pair>, i: nat)
    requires IsPacked(mem, ps) && Readable(mem, |ps|) && |Strings(ps)| < POSLIMIT && i < |ps|
    ensures ReadKey(mem, |ps|, i) == ps[i].key
  {
    StringsIndex(ps, i);
    KeyOffset(mem, ps, i);
    KeyEndIs(mem, ps, i);
    BytesBetween(mem, ps, 2 * i, Start(ps, i), Start(ps, i) + |ps[i].key|);
  }

  lemma KeyEndIs(mem: Mem, ps: seq<Pair>, i: nat)
    requires IsPacked(mem, ps) && Readable(mem, |ps|) && |Strings(ps)| < POSLIMIT && i < |ps|
    ensures EndPos(EntryAt(mem, 2 * i)) == Start(ps, i) + |ps[i].key|
  {
    EntriesOf(mem, ps, i);
  }

  lemma KeyOffset(mem: Mem, ps: seq<Pair>, i: nat)
    requires IsPacked(mem, ps) && Readable(mem, |ps|) && |Strings(ps)| < POSLIMIT && i < |ps|
    ensures Offset(mem, |ps|, 2 * i) == Start(ps, i)
  {
    hide Offset, IsPacked, Readable;
    if i == 0 {
      FirstOffset(mem, ps);
    } else {
      NotFirst(mem, ps, i);
      ValueEnd(mem, ps, i - 1);
      LaterOffset(mem, ps, 2 * i, Start(ps, i));
    }
  }

  lemma NotFirst(mem: Mem, ps: seq<Pair>, i: nat)
    requires IsPacked(mem, ps) && Readable(mem, |ps|) && |Strings(ps)| < POSLIMIT && 0 < i < |ps|
    ensures !IsFirst(EntryAt(mem, 2 * i))
  {
    EntriesOf(mem, ps, i);
  }

  lemma ValueEnd(mem: Mem, ps: seq<Pair>, i: nat)
    requires IsPacked(mem, ps) && Readable(mem, |ps|) && |Strings(ps)| < POSLIMIT && i < |ps|
    ensures EndPos(EntryAt(mem, 2 * i + 1)) == Start(ps, i + 1)
  {
    EntriesOf(mem, ps, i);
  }

  lemma ValueBack(mem: Mem, ps: seq<Pair>, i: nat)
    requires IsPacked(mem, ps) && Readable(mem, |ps|) && |Strings(ps)| < POSLIMIT && i < |ps|
    ensures ReadValue(mem, |ps|, i) == Value(ps[i])
  {
    hide IsPacked, Offset, EndPos, EntryAt;
    StringsIndex(ps, i);
    ValueOffset(mem, ps, i);
    ValueEnd(mem, ps, i);
    var j, a, b := 2 * i + 1, Start(ps, i) + |ps[i].key|, Start(ps, i + 1);
    BytesBetween(mem, ps, j, a, b);
  }

  lemma ValueOffset(mem: Mem, ps: seq<Pair>, i: nat)
    requires IsPacked(mem, ps) && Readable(mem, |ps|) && |Strings(ps)| < POSLIMIT && i < |ps|
    ensures Offset(mem, |ps|, 2 * i + 1) == Start(ps, i) + |ps[i].key|
  {
    KeyEndIs(mem, ps, i);
    ValueNotFirst(mem, ps, i);
    LaterOffset(mem, ps, 2 * i + 1, Start(ps, i) + |ps[i].key|);
  }

  lemma ValueNotFirst(mem: Mem, ps: seq<Pair>, i: nat)
    requires IsPacked(mem, ps) && Readable(mem, |ps|) && |Strings(ps)| < POSLIMIT && i < |ps|
    ensures !IsFirst(EntryAt(mem, 2 * i + 1))
  {
    EntriesOf(mem, ps, i);
  }

  lemma ValueNull(mem: Mem, ps: seq<Pair>, i: nat)
    requires IsPacked(mem, ps) && Readable(mem, |ps|) && |Strings(ps)| < POSLIMIT && i < |ps|
    ensures IsNull(EntryAt(mem, 2 * i + 1)) <==> ps[i].isnull
  {
    EntriesOf(mem, ps, i);
  }

  /** Reading back what was packed gives the same keys, values and nulls, as long as
      the strings fit the 30-bit positions. */
  lemma RoundTrip(mem: Mem, ps: seq<Pair>, i: nat)
    requires IsPacked(mem, ps) && |Strings(ps)| < POSLIMIT && i < |ps|
    ensures Readable(mem, |ps|)
    ensures ReadKey(mem, |ps|, i) == ps[i].key
    ensures ReadIsNull(mem, |ps|, i) <==> ps[i].isnull
    ensures ReadValue(mem, |ps|, i) == Value(ps[i])
  {
    PackedReadable(mem, ps);
    KeyBack(mem, ps, i);
    ValueBack(mem, ps, i);
    ValueNull(mem, ps, i);
  }
}
