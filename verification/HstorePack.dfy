/** The packed form of an hstore: an array of 32-bit entries, each the end position of a
    key or value with two flag bits, and after it the bytes of all keys and values. */
module HstorePack {

  /** Memory by addresses.  A cell holds a string byte; the first of an entry's four
      cells holds the whole entry, as 256 plus its value, and the others -1, so that an
      entry a string has overwritten is not one any more. */
  type Cell = int
  type Mem = seq<Cell>

  const POSLIMIT := 0x4000_0000
  const ISNULL := 0x4000_0000
  const ISFIRST := 0x8000_0000

  /** x & HENTRY_POSMASK */
  function Mask(x: nat): nat { if x < POSLIMIT then x else Mask(x - POSLIMIT) }

  datatype Pair = Pair(key: seq<Cell>, val: seq<Cell>, isnull: bool)

  /** A null value takes no room. */
  function Value(p: Pair): seq<Cell> { if p.isnull then [] else p.val }

  // --------------------------------------------------------------------- memory

  function Write(mem: Mem, at: nat, bytes: seq<Cell>): (r: Mem)
    requires at + |bytes| <= |mem|
    ensures |r| == |mem|
  {
    mem[..at] + bytes + mem[at + |bytes|..]
  }

  lemma Written(mem: Mem, at: nat, bytes: seq<Cell>, k: nat)
    requires at + |bytes| <= |mem| && k < |mem|
    ensures Write(mem, at, bytes)[k] == if at <= k < at + |bytes| then bytes[k - at] else mem[k]
  {
  }

  function Word(e: nat): (w: seq<Cell>)
    ensures |w| == 4
  {
    [256 + e, -1, -1, -1]
  }

  /** The j-th entry; negative if string bytes were written over it. */
  function Entry(mem: Mem, j: nat): int
    requires 4 * j + 4 <= |mem|
  {
    mem[4 * j] - 256
  }

  predicate EntriesAt(mem: Mem, es: seq<nat>)
  {
    4 * |es| <= |mem| && forall j :: 0 <= j < |es| ==> Entry(mem, j) == es[j]
  }

  predicate StringsAt(mem: Mem, base: nat, s: seq<Cell>) { base + |s| <= |mem| && mem[base..base + |s|] == s }

  lemma StringAppended(mem: Mem, base: nat, s: seq<Cell>, t: seq<Cell>)
    requires StringsAt(mem, base, s) && base + |s| + |t| <= |mem|
    ensures StringsAt(Write(mem, base + |s|, t), base, s + t)
  {
    var r := Write(mem, base + |s|, t);
    forall k | 0 <= k < |s + t| ensures r[base + k] == (s + t)[k] {
      Written(mem, base + |s|, t, base + k);
      if k < |s| {
        assert mem[base + k] == mem[base..base + |s|][k];
      }
    }
  }

  lemma StringKept(mem: Mem, base: nat, s: seq<Cell>, at: nat, bytes: seq<Cell>)
    requires StringsAt(mem, base, s) && at + |bytes| <= base
    ensures StringsAt(Write(mem, at, bytes), base, s)
  {
    var r := Write(mem, at, bytes);
    forall k | 0 <= k < |s| ensures r[base + k] == s[k] {
      Written(mem, at, bytes, base + k);
      assert mem[base + k] == mem[base..base + |s|][k];
    }
  }

  lemma EntriesKept(mem: Mem, es: seq<nat>, at: nat, bytes: seq<Cell>)
    requires EntriesAt(mem, es) && 4 * |es| <= at && at + |bytes| <= |mem|
    ensures EntriesAt(Write(mem, at, bytes), es)
  {
    forall j | 0 <= j < |es| ensures Entry(Write(mem, at, bytes), j) == es[j] {
      Written(mem, at, bytes, 4 * j);
      assert Entry(mem, j) == es[j];
    }
  }

  lemma EntryAppended(mem: Mem, es: seq<nat>, e: nat)
    requires EntriesAt(mem, es) && 4 * |es| + 4 <= |mem|
    ensures EntriesAt(Write(mem, 4 * |es|, Word(e)), es + [e])
  {
    var r := Write(mem, 4 * |es|, Word(e));
    forall j | 0 <= j < |es| + 1 ensures Entry(r, j) == (es + [e])[j] {
      Written(mem, 4 * |es|, Word(e), 4 * j);
      if j < |es| {
        assert Entry(mem, j) == es[j];
      }
    }
  }

  // ------------------------------------------------------------- what is packed

  /** The first n keys and values, one after the other. */
  function StringsTo(ps: seq<Pair>, n: nat): seq<Cell>
    requires n <= |ps|
  {
    if n == 0 then [] else StringsTo(ps, n - 1) + ps[n - 1].key + Value(ps[n - 1])
  }

  function Strings(ps: seq<Pair>): seq<Cell> { StringsTo(ps, |ps|) }

  function ValEntry(end: nat, isnull: bool): nat { Mask(end) + if isnull then ISNULL else 0 }

  /** The two entries of a pair whose key begins at start. */
  function Own(start: nat, p: Pair): (o: seq<nat>)
    ensures |o| == 2
  {
    [Mask(start + |p.key|), ValEntry(start + |p.key| + |Value(p)|, p.isnull)]
  }

  /** The entries of the first n pairs, the very first not yet marked. */
  function EntriesTo(ps: seq<Pair>, n: nat): (es: seq<nat>)
    requires n <= |ps|
    ensures |es| == 2 * n
  {
    if n == 0 then [] else EntriesTo(ps, n - 1) + Own(|StringsTo(ps, n - 1)|, ps[n - 1])
  }

  function Entries(ps: seq<Pair>): (es: seq<nat>)
    ensures |es| == 2 * |ps|
  {
    EntriesTo(ps, |ps|)
  }

  lemma {:induction false} SameTo(ps: seq<Pair>, qs: seq<Pair>, n: nat)
    requires n <= |ps| && n <= |qs| && forall i :: 0 <= i < n ==> ps[i] == qs[i]
    ensures StringsTo(ps, n) == StringsTo(qs, n) && EntriesTo(ps, n) == EntriesTo(qs, n)
  {
    if n > 0 {
      SameTo(ps, qs, n - 1);
    }
  }

  lemma NextPair(ps: seq<Pair>, p: Pair)
    ensures Strings(ps + [p]) == Strings(ps) + p.key + Value(p)
    ensures Entries(ps + [p]) == Entries(ps) + Own(|Strings(ps)|, p)
  {
    SameTo(ps, ps + [p], |ps|);
  }

  /** With its bytes and both entries written, the pair is one of the packed. */
  lemma PairAdded(mem: Mem, base: nat, ps: seq<Pair>, p: Pair, k: nat, v: nat)
    requires EntriesAt(mem, Entries(ps) + [k] + [v]) && StringsAt(mem, base, Strings(ps) + p.key + Value(p))
    requires k == Mask(|Strings(ps)| + |p.key|) && v == ValEntry(|Strings(ps)| + |p.key| + |Value(p)|, p.isnull)
    ensures EntriesAt(mem, Entries(ps + [p])) && StringsAt(mem, base, Strings(ps + [p]))
    ensures |Strings(ps + [p])| == |Strings(ps)| + |p.key| + |Value(p)|
  {
    NextPair(ps, p);
    assert Entries(ps) + [k] + [v] == Entries(ps) + Own(|Strings(ps)|, p);
  }

  // -------------------------------------------------------------------- building

  class Builder {
    var count: nat
    var mem: Mem
    var dent: nat
    var dbuf: nat
    var dptr: nat
    ghost var pairs: seq<Pair>

    /** Room for reserved pairs and lenstr bytes. */
    constructor (reserved: nat, lenstr: nat)
      ensures Building() && count == reserved && pairs == [] && |mem| == 8 * reserved + lenstr
    {
      count, dent, dbuf, dptr, pairs := reserved, 0, 8 * reserved, 8 * reserved, [];
      mem := seq(8 * reserved + lenstr, _ => 0);
    }

    ghost predicate Building()
      reads this
    {
      && dbuf == 8 * count && dent == 2 * |pairs| && |pairs| <= count && dptr == dbuf + |Strings(pairs)|
      && EntriesAt(mem, Entries(pairs)) && StringsAt(mem, dbuf, Strings(pairs))
    }

    /** HS_ADDITEM. */
    method AddItem(p: Pair)
      requires Building() && |pairs| < count && dptr + |p.key| + |Value(p)| <= |mem|
      modifies this
      ensures Building() && pairs == old(pairs) + [p] && count == old(count) && |mem| == old(|mem|)
    {
      var k, v := AddParts(Strings(pairs), Entries(pairs), p);
      PairAdded(mem, dbuf, pairs, p, k, v);
      pairs := pairs + [p];
    }

    method AddParts(ghost s: seq<Cell>, ghost es: seq<nat>, p: Pair) returns (k: nat, v: nat)
      requires StringsAt(mem, dbuf, s) && EntriesAt(mem, es) && dptr == dbuf + |s| && dent == |es|
      requires 4 * |es| + 8 <= dbuf && dptr + |p.key| + |Value(p)| <= |mem|
      modifies this`mem, this`dptr, this`dent
      ensures StringsAt(mem, dbuf, s + p.key + Value(p)) && EntriesAt(mem, es + [k] + [v]) && dent == |es| + 2
      ensures dptr == dbuf + |s| + |p.key| + |Value(p)| && |mem| == old(|mem|)
      ensures k == Mask(|s| + |p.key|) && v == ValEntry(|s| + |p.key| + |Value(p)|, p.isnull)
    {
      PutBytes(s, es, p.key);
      k := Mask(dptr - dbuf);
      PutEntry(s + p.key, es, k);
      if p.isnull {
        v := Mask(dptr - dbuf) + ISNULL;
        PutEntry(s + p.key, es + [k], v);
        assert s + p.key == s + p.key + Value(p);
      } else {
        PutBytes(s + p.key, es + [k], p.val);
        v := Mask(dptr - dbuf);
        PutEntry(s + p.key + p.val, es + [k], v);
      }
    }

    /** HS_COPYITEM: the key and its value lie together in the source. */
    method CopyItem(src: seq<Cell>, klen: nat, vlen: nat, vnull: bool)
      requires Building() && |pairs| < count && |src| == klen + vlen && (vnull ==> vlen == 0) && dptr + |src| <= |mem|
      modifies this
      ensures Building() && count == old(count) && |mem| == old(|mem|)
      ensures pairs == old(pairs) + [Pair(src[..klen], src[klen..], vnull)]
    {
      ghost var p := Pair(src[..klen], src[klen..], vnull);
      var k, v := CopyParts(Strings(pairs), Entries(pairs), src, klen, vlen, vnull);
      assert Strings(pairs) + src == Strings(pairs) + p.key + Value(p);
      PairAdded(mem, dbuf, pairs, p, k, v);
      pairs := pairs + [p];
    }

    method CopyParts(ghost s: seq<Cell>, ghost es: seq<nat>, src: seq<Cell>, klen: nat, vlen: nat, vnull: bool)
      returns (k: nat, v: nat)
      requires StringsAt(mem, dbuf, s) && EntriesAt(mem, es) && dptr == dbuf + |s| && dent == |es|
      requires 4 * |es| + 8 <= dbuf && |src| == klen + vlen && dptr + |src| <= |mem|
      modifies this`mem, this`dptr, this`dent
      ensures StringsAt(mem, dbuf, s + src) && EntriesAt(mem, es + [k] + [v]) && dent == |es| + 2
      ensures dptr == dbuf + |s| + |src| && |mem| == old(|mem|)
      ensures k == Mask(|s| + klen) && v == ValEntry(|s| + klen + vlen, vnull)
    {
      PutBytes(s, es, src);
      k := Mask(dptr - dbuf - vlen);
      PutEntry(s + src, es, k);
      v := Mask(dptr - dbuf) + if vnull then ISNULL else 0;
      PutEntry(s + src, es + [k], v);
    }

    /** memcpy at dptr. */
    method PutBytes(ghost s: seq<Cell>, ghost es: seq<nat>, t: seq<Cell>)
      requires StringsAt(mem, dbuf, s) && EntriesAt(mem, es) && dptr == dbuf + |s|
      requires 4 * |es| <= dbuf && dptr + |t| <= |mem|
      modifies this`mem, this`dptr
      ensures StringsAt(mem, dbuf, s + t) && EntriesAt(mem, es) && dptr == dbuf + |s + t| && |mem| == old(|mem|)
    {
      StringAppended(mem, dbuf, s, t);
      EntriesKept(mem, es, dptr, t);
      mem := Write(mem, dptr, t);
      dptr := dptr + |t|;
    }

    /** (dent)++->entry = e. */
    method PutEntry(ghost s: seq<Cell>, ghost es: seq<nat>, e: nat)
      requires StringsAt(mem, dbuf, s) && EntriesAt(mem, es) && dent == |es| && 4 * dent + 4 <= dbuf
      modifies this`mem, this`dent
      ensures StringsAt(mem, dbuf, s) && EntriesAt(mem, es + [e]) && dent == old(dent) + 1 && |mem| == old(|mem|)
    {
      StringKept(mem, dbuf, s, 4 * dent, Word(e));
      EntryAppended(mem, es, e);
      mem := Write(mem, 4 * dent, Word(e));
      dent := dent + 1;
    }

    /** HS_FINALIZE: mark the first entry, and if fewer pairs came than were reserved
        move the strings down to where the entries now end. */
    method Finalize()
      requires Building()
      modifies this
      ensures pairs == old(pairs) && count == |pairs| && IsPacked(mem, pairs)
    {
      Close(Strings(pairs), Entries(pairs), dent / 2, dptr - dbuf);
    }

    method Close(ghost s: seq<Cell>, ghost es: seq<nat>, n: nat, buflen: nat)
      requires StringsAt(mem, dbuf, s) && EntriesAt(mem, es) && |es| == 2 * n && buflen == |s|
      requires dbuf == 8 * count && n <= count
      modifies this`mem, this`count
      ensures count == n && EntriesAt(mem, Marked(es)) && StringsAt(mem, 8 * n, s) && |mem| == 8 * n + |s|
    {
      if n != 0 {
        MarkFirst(s, es);
      }
      if n != count {
        MoveStrings(s, Marked(es), 8 * n, buflen);
        count := n;
      }
      CutBehind(mem, Marked(es), 8 * n, s);
      mem := mem[..8 * n + buflen];
    }

    method MarkFirst(ghost s: seq<Cell>, ghost es: seq<nat>)
      requires StringsAt(mem, dbuf, s) && EntriesAt(mem, es) && es != [] && 4 * |es| <= dbuf
      modifies this`mem
      ensures StringsAt(mem, dbuf, s) && EntriesAt(mem, Marked(es))
    {
      FirstMarked(mem, es);
      StringKept(mem, dbuf, s, 0, Word(Entry(mem, 0) + ISFIRST));
      mem := Write(mem, 0, Word(Entry(mem, 0) + ISFIRST));
    }

    method MoveStrings(ghost s: seq<Cell>, ghost es: seq<nat>, at: nat, buflen: nat)
      requires StringsAt(mem, dbuf, s) && EntriesAt(mem, es) && 4 * |es| <= at <= dbuf && buflen == |s|
      modifies this`mem
      ensures StringsAt(mem, at, s) && EntriesAt(mem, es)
    {
      StringMoved(mem, dbuf, s, es, at);
      mem := Write(mem, at, mem[dbuf..dbuf + buflen]);
    }
  }

  /** memmove down to where the entries end. */
  lemma StringMoved(mem: Mem, base: nat, s: seq<Cell>, es: seq<nat>, at: nat)
    requires StringsAt(mem, base, s) && EntriesAt(mem, es) && 4 * |es| <= at <= base
    ensures StringsAt(Write(mem, at, mem[base..base + |s|]), at, s) && EntriesAt(Write(mem, at, mem[base..base + |s|]), es)
  {
    EntriesKept(mem, es, at, s);
    assert StringsAt(mem, at, []);
    StringAppended(mem, at, [], s);
    assert [] + s == s;
  }

  /** SET_VARSIZE: what lies behind the strings is no part of it. */
  lemma CutBehind(mem: Mem, es: seq<nat>, base: nat, s: seq<Cell>)
    requires StringsAt(mem, base, s) && EntriesAt(mem, es) && 4 * |es| <= base
    ensures StringsAt(mem[..base + |s|], base, s) && EntriesAt(mem[..base + |s|], es)
  {
    var r := mem[..base + |s|];
    assert r[base..base + |s|] == mem[base..base + |s|];
    forall j | 0 <= j < |es| ensures Entry(r, j) == es[j] {
      assert Entry(mem, j) == es[j];
    }
  }

  function Marked(es: seq<nat>): (m: seq<nat>)
    ensures |m| == |es|
  {
    if es == [] then [] else es[0 := es[0] + ISFIRST]
  }

  lemma FirstMarked(mem: Mem, es: seq<nat>)
    requires EntriesAt(mem, es) && es != []
    ensures Entry(mem, 0) >= 0 && EntriesAt(Write(mem, 0, Word(Entry(mem, 0) + ISFIRST)), Marked(es))
  {
    var e := Entry(mem, 0) + ISFIRST;
    assert Entry(mem, 0) == es[0];
    forall j | 0 <= j < |es| ensures Entry(Write(mem, 0, Word(e)), j) == Marked(es)[j] {
      Written(mem, 0, Word(e), 4 * j);
      assert Entry(mem, j) == es[j];
    }
  }

  /** A finished hstore: exactly its entries and its strings. */
  predicate IsPacked(mem: Mem, ps: seq<Pair>)
  {
    EntriesAt(mem, Marked(Entries(ps))) && StringsAt(mem, 8 * |ps|, Strings(ps)) && |mem| == 8 * |ps| + |Strings(ps)|
  }
}
