/** Bloom signatures: which bits a column value sets, and the word-wise test a scan
    makes. */
module BloomSignature {
  import opened Optional
  import opened BloomRandom
  import opened BitWords

  const WORD_BITS := 16
  type Word = w: nat | w < Pow2(16)
  type Sign = seq<Word>

  /** A column value as signValue sees it: its column, and its hash. */
  datatype Datum = Datum(attno: nat, hash: nat)

  /** Signature length in words, and bits per column. */
  datatype Options = Options(length: nat, bits: seq<nat>)

  /** The ranges the index options are checked against. */
  predicate OptionsOK(o: Options)
  {
    0 < o.length <= 256 && |o.bits| <= 32 && forall i :: 0 <= i < |o.bits| ==> 0 < o.bits[i] < 256 * WORD_BITS
  }

  predicate DatumOK(o: Options, d: Datum) { d.attno < |o.bits| && d.hash < TWO32 }

  // ------------------------------------------------------- bits of a signature

  predicate HasBit(s: Sign, n: nat)
    requires n < |s| * WORD_BITS
  {
    Bit(s[n / WORD_BITS], n % WORD_BITS)
  }

  /** SETBIT. */
  function SetBit(s: Sign, n: nat): (r: Sign)
    requires n < |s| * WORD_BITS
    ensures |r| == |s|
  {
    PowGrows(n % WORD_BITS, 16);
    OrBound(s[n / WORD_BITS], Pow2(n % WORD_BITS), 16);
    s[n / WORD_BITS := Or(s[n / WORD_BITS], Pow2(n % WORD_BITS))]
  }

  lemma SetBitHas(s: Sign, n: nat, m: nat)
    requires n < |s| * WORD_BITS && m < |s| * WORD_BITS
    ensures HasBit(SetBit(s, n), m) <==> HasBit(s, m) || n == m
  {
    var i, j := n / WORD_BITS, m / WORD_BITS;
    if i == j {
      BitOr(s[i], Pow2(n % WORD_BITS), m % WORD_BITS);
      BitPow2(n % WORD_BITS, m % WORD_BITS);
    }
  }

  /** Bit n alone is the n % 16-th power of two in word n / 16. */
  lemma OneBit(length: nat, n: nat)
    requires n < length * WORD_BITS
    ensures var s: Sign := seq(length, _ => 0);
      forall i :: 0 <= i < length ==> SetBit(s, n)[i] == if i == n / 16 then Pow2(n % 16) else 0
  {
  }

  /** The test of a stored signature against a scan's. */
  predicate Passes(t: Sign, k: Sign)
    requires |t| == |k|
  {
    forall i :: 0 <= i < |k| ==> And(t[i], k[i]) == k[i]
  }

  /** It is exactly the subset test on bits. */
  lemma PassesIffSubset(t: Sign, k: Sign)
    requires |t| == |k|
    ensures Passes(t, k) <==> forall n :: 0 <= n < |k| * WORD_BITS && HasBit(k, n) ==> HasBit(t, n)
  {
    forall n | 0 <= n < |k| * WORD_BITS && Passes(t, k) && HasBit(k, n) ensures HasBit(t, n) {
      PassesBits(t[n / WORD_BITS], k[n / WORD_BITS], n % WORD_BITS);
    }
    if !Passes(t, k) {
      var i :| 0 <= i < |k| && And(t[i], k[i]) != k[i];
      var j := FailsBit(t[i], k[i]);
      if j >= 16 {
        PowMonotone(16, j);
      }
      var n := i * WORD_BITS + j;
      assert n / WORD_BITS == i && n % WORD_BITS == j;
      assert HasBit(k, n) && !HasBit(t, n);
    }
  }

  lemma PowMonotone(i: nat, n: nat)
    requires i <= n
    ensures Pow2(i) <= Pow2(n)
  {
    if i < n {
      PowGrows(i, n);
    }
  }

  // --------------------------------------------------------- bits of a value

  /** The seed for a value: its hash mixed with one number drawn for its column. */
  function ValueSeed(d: Datum): (s: nat)
    requires d.attno < 32 && d.hash < TWO32
    ensures s < TWO32
  {
    OutputsInRangeIff(d.attno, 1);
    Mix(d.hash, Output(d.attno, 1))
  }

  function Mix(hash: nat, drawn: nat): (s: nat)
    requires hash < TWO32 && drawn < TWO32
    ensures s < TWO32
  {
    Words32();
    OrBound(hash, drawn, 32);
    Xor(hash, drawn)
  }

  lemma Words32()
    ensures Pow2(32) == TWO32
  {
    assert Pow2(8) == 256;
    assert Pow2(16) == 0x1_0000;
    assert Pow2(24) == 0x100_0000;
  }

  predicate Signable(o: Options, d: Datum)
  {
    OptionsOK(o) && DatumOK(o, d) && !BadSeed(ValueSeed(d))
  }

  /** The n-th bit a value sets, n counted from 1. */
  function BitNo(o: Options, d: Datum, n: nat): (b: nat)
    requires Signable(o, d) && n > 0
    ensures b < o.length * WORD_BITS
  {
    OutputsInRangeIff(ValueSeed(d), n);
    Output(ValueSeed(d), n) % (o.length * WORD_BITS)
  }

  /** The number drawn for a column. */
  lemma DrawnIs(attno: nat)
    requires attno < 32
    ensures Output(attno, 1) == 16807 * (attno + 1) - 1
  {
    FirstOutput(attno);
    SeededIs(attno);
  }

  /** The bits of the seed: those of the hash, flipped where the number drawn for the
      column has one. */
  lemma ValueSeedBits(d: Datum, j: nat)
    requires d.attno < 32 && d.hash < TWO32
    ensures Bit(ValueSeed(d), j) <==> Bit(d.hash, j) != Bit(16807 * (d.attno + 1) - 1, j)
  {
    hide Output, Bit, Xor;
    DrawnIs(d.attno);
    BitXor(d.hash, 16807 * (d.attno + 1) - 1, j);
  }

  /** Two hashes in one column are signed from different seeds. */
  lemma SeedsDiffer(attno: nat, a: nat, b: nat)
    requires attno < 32 && a < TWO32 && b < TWO32 && a != b
    ensures ValueSeed(Datum(attno, a)) != ValueSeed(Datum(attno, b))
  {
    OutputsInRangeIff(attno, 1);
    XorKeepsApart(a, b, Output(attno, 1));
  }

  /** The n-th bit of a value: 7^5 to the n-th power times the state its seed leaves, less
      one, wrapped around the signature. */
  lemma BitNoIs(o: Options, d: Datum, n: nat)
    requires Signable(o, d) && n > 0
    ensures var seed := ValueSeed(d);
      var start := if seed < 0x8000_0000 then seed % 0x7fff_fffe + 1 else 1 - (TWO32 - seed) % 0x7fff_fffe;
      BitNo(o, d, n) == ((Pow(n) * start) % M - 1) % (16 * o.length)
  {
    hide Pow, After, Seeded;
    SeededIs(ValueSeed(d));
    AfterIsResidue(Seeded(ValueSeed(d)), n);
    assert o.length * WORD_BITS == 16 * o.length;
  }

  /** The signature after the value's first n bits. */
  function AddBits(o: Options, s: Sign, d: Datum, n: nat): (r: Sign)
    requires |s| == o.length && Signable(o, d)
    ensures |r| == o.length
  {
    if n == 0 then s else SetBit(AddBits(o, s, d, n - 1), BitNo(o, d, n))
  }

  predicate SetsBit(o: Options, d: Datum, n: nat, m: nat)
    requires Signable(o, d)
  {
    exists i :: 0 < i <= n && BitNo(o, d, i) == m
  }

  lemma {:induction false} AddBitsHas(o: Options, s: Sign, d: Datum, n: nat, m: nat)
    requires |s| == o.length && Signable(o, d) && m < o.length * WORD_BITS
    ensures HasBit(AddBits(o, s, d, n), m) <==> HasBit(s, m) || SetsBit(o, d, n, m)
  {
    if n > 0 {
      AddBitsHas(o, s, d, n - 1, m);
      SetBitHas(AddBits(o, s, d, n - 1), BitNo(o, d, n), m);
      if SetsBit(o, d, n, m) && BitNo(o, d, n) != m {
        var i :| 0 < i <= n && BitNo(o, d, i) == m;
        assert 0 < i <= n - 1;
      }
    }
  }

  method SetBitIn(sign: array<Word>, n: nat)
    requires n < sign.Length * WORD_BITS
    modifies sign
    ensures sign[..] == SetBit(old(sign[..]), n)
  {
    PowGrows(n % WORD_BITS, 16);
    OrBound(sign[n / WORD_BITS], Pow2(n % WORD_BITS), 16);
    sign[n / WORD_BITS] := Or(sign[n / WORD_BITS], Pow2(n % WORD_BITS));
  }

  /** Seed the generator by column, then by the value's hash. */
  method SeedFor(o: Options, g: Generator, d: Datum)
    requires OptionsOK(o) && DatumOK(o, d)
    modifies g
    ensures g.next as int == Seeded(ValueSeed(d)) && -M < g.next as int < M
  {
    hide Output, Step, Mix, Seeded;
    g.Srand(d.attno);
    SeededRange(d.attno);
    var drawn := g.Rand();
    FirstOutput(d.attno);
    OutputsInRangeIff(d.attno, 1);
    var seed := Mix(d.hash, drawn as int);
    SeededRange(seed);
    g.Srand(seed);
  }

  /** The next bit number: a bit of the signature, or -1 for a bad seed. */
  method NextBit(o: Options, g: Generator, ghost d: Datum, ghost n: nat) returns (nBit: int)
    requires OptionsOK(o) && DatumOK(o, d) && n > 0
    requires g.next as int == After(Seeded(ValueSeed(d)), n - 1) && -M < g.next as int < M
    modifies g
    ensures g.next as int == After(Seeded(ValueSeed(d)), n) && -M < g.next as int < M
    ensures if Signable(o, d) then nBit == BitNo(o, d, n) else nBit == -1
  {
    var r := g.Rand();
    OutputsInRangeIff(ValueSeed(d), n);
    nBit := CMod(r as int, o.length * WORD_BITS);
    NextBitIs(r as int, o.length * WORD_BITS);
  }

  lemma NextBitIs(r: int, len: nat)
    requires r >= -1 && len > 1
    ensures CMod(r, len) == if r >= 0 then r % len else -1
  {
  }

  /** signValue.  When the mixed seed is one of the two bad ones, the bit number the
      code computes is -1, which is no bit of the signature: ok is false. */
  method SignValue(o: Options, g: Generator, sign: array<Word>, d: Datum) returns (ok: bool)
    requires OptionsOK(o) && DatumOK(o, d) && sign.Length == o.length
    modifies g, sign
    ensures ok <==> Signable(o, d)
    ensures Signable(o, d) ==> sign[..] == AddBits(o, old(sign[..]), d, o.bits[d.attno])
    ensures !Signable(o, d) ==> sign[..] == old(sign[..])
  {
    SeedFor(o, g, d);
    var j := 0;
    while j < o.bits[d.attno]
      invariant 0 <= j <= o.bits[d.attno]
      invariant g.next as int == After(Seeded(ValueSeed(d)), j) && -M < g.next as int < M
      invariant j > 0 ==> Signable(o, d)
      invariant if Signable(o, d) then sign[..] == AddBits(o, old(sign[..]), d, j) else sign[..] == old(sign[..])
    {
      j := j + 1;
      var nBit := NextBit(o, g, d, j);
      if nBit < 0 {
        return false;
      }
      SetBitIn(sign, nBit);
    }
    ok := true;
  }

  // ---------------------------------------------------- tuples and scan keys

  function Zero(o: Options): (s: Sign)
    ensures |s| == o.length
  {
    seq(o.length, _ => 0)
  }

  predicate AllSignable(o: Options, ds: seq<Datum>)
  {
    OptionsOK(o) && forall i :: 0 <= i < |ds| ==> Signable(o, ds[i])
  }

  /** The signature of some values, whatever their columns. */
  function Signature(o: Options, ds: seq<Datum>): (s: Sign)
    requires AllSignable(o, ds)
    ensures |s| == o.length
  {
    if ds == [] then Zero(o)
    else var d := ds[|ds| - 1]; AddBits(o, Signature(o, ds[..|ds| - 1]), d, o.bits[d.attno])
  }

  lemma SignatureNext(o: Options, ds: seq<Datum>, d: Datum)
    requires AllSignable(o, ds) && Signable(o, d)
    ensures AllSignable(o, ds + [d])
    ensures Signature(o, ds + [d]) == AddBits(o, Signature(o, ds), d, o.bits[d.attno])
  {
    assert (ds + [d])[..|ds|] == ds;
  }

  lemma {:induction false} SignatureHas(o: Options, ds: seq<Datum>, m: nat)
    requires AllSignable(o, ds) && m < o.length * WORD_BITS
    ensures HasBit(Signature(o, ds), m) <==> exists i :: 0 <= i < |ds| && SetsBit(o, ds[i], o.bits[ds[i].attno], m)
  {
    if ds == [] {
      ZeroBits(m % WORD_BITS);
    } else {
      var n := |ds| - 1;
      SignatureHas(o, ds[..n], m);
      AddBitsHas(o, Signature(o, ds[..n]), ds[n], o.bits[ds[n].attno], m);
      assert forall i :: 0 <= i < n ==> ds[..n][i] == ds[i];
    }
  }

  /** No false negatives: a tuple that has every value the scan asks for passes. */
  lemma NoFalseNegatives(o: Options, ds: seq<Datum>, keys: seq<Datum>)
    requires AllSignable(o, ds) && AllSignable(o, keys)
    requires forall k :: k in keys ==> k in ds
    ensures Passes(Signature(o, ds), Signature(o, keys))
  {
    var t, s := Signature(o, ds), Signature(o, keys);
    forall n | 0 <= n < |s| * WORD_BITS && HasBit(s, n) ensures HasBit(t, n) {
      SignatureHas(o, keys, n);
      SignatureHas(o, ds, n);
      var i :| 0 <= i < |keys| && SetsBit(o, keys[i], o.bits[keys[i].attno], n);
      assert keys[i] in ds;
    }
    PassesIffSubset(t, s);
  }

  /** The non-null columns of a row, in column order. */
  function NonNull(hashes: seq<Option<nat>>): (ds: seq<Datum>)
    ensures forall i :: 0 <= i < |hashes| && hashes[i].Some? ==> Datum(i, hashes[i].value) in ds
    ensures forall d :: d in ds ==> d.attno < |hashes| && hashes[d.attno] == Some(d.hash)
  {
    if hashes == [] then []
    else
      var n := |hashes| - 1;
      var ds := NonNull(hashes[..n]);
      if hashes[n].Some? then ds + [Datum(n, hashes[n].value)] else ds
  }

  /** BloomFormTuple: null columns are skipped. */
  method FormTuple(o: Options, g: Generator, hashes: seq<Option<nat>>) returns (sign: array<Word>, ok: bool)
    requires OptionsOK(o) && |hashes| == |o.bits|
    requires forall i :: 0 <= i < |hashes| && hashes[i].Some? ==> hashes[i].value < TWO32
    modifies g
    ensures fresh(sign)
    ensures ok <==> AllSignable(o, NonNull(hashes))
    ensures ok ==> sign[..] == Signature(o, NonNull(hashes))
  {
    hide Signable, AddBits;
    sign := new Word[o.length](_ => 0);
    assert sign[..] == Zero(o);
    ghost var ds: seq<Datum> := [];
    var i := 0;
    while i < |hashes|
      invariant 0 <= i <= |hashes|
      invariant sign.Length == o.length && fresh(sign)
      invariant ds == NonNull(hashes[..i])
      invariant AllSignable(o, ds) && sign[..] == Signature(o, ds)
    {
      NonNullNext(hashes, i);
      if hashes[i].Some? {
        var d := Datum(i, hashes[i].value);
        ok := SignValue(o, g, sign, d);
        if !ok {
          assert d in NonNull(hashes);
          return;
        }
        SignatureNext(o, ds, d);
        ds := ds + [d];
      }
      i := i + 1;
    }
    assert hashes[..i] == hashes;
    ok := true;
  }

  lemma NonNullNext(hashes: seq<Option<nat>>, i: nat)
    requires i < |hashes|
    ensures NonNull(hashes[..i + 1]) ==
      NonNull(hashes[..i]) + (if hashes[i].Some? then [Datum(i, hashes[i].value)] else [])
  {
    assert hashes[..i + 1][..i] == hashes[..i];
  }

  /** A scan key: its column, and the hash of its argument unless that is null. */
  datatype Key = Key(attno: nat, hash: Option<nat>)

  predicate KeyOK(o: Options, k: Key) { k.attno < |o.bits| && (k.hash.Some? ==> k.hash.value < TWO32) }

  function Asked(k: Key): Datum { Datum(k.attno, if k.hash.Some? then k.hash.value else 0) }

  predicate NoNulls(keys: seq<Key>) { forall i :: 0 <= i < |keys| ==> keys[i].hash.Some? }

  predicate Asks(ds: seq<Datum>, keys: seq<Key>, n: nat)
    requires n <= |keys|
  {
    |ds| == n && forall i :: 0 <= i < n ==> ds[i] == Asked(keys[i]) && keys[i].hash.Some?
  }

  /** The signature a scan builds from its keys; None when some key is null, for then
      nothing can match. */
  method ScanSignature(o: Options, g: Generator, keys: seq<Key>) returns (sign: Option<Sign>, ok: bool)
    requires OptionsOK(o) && forall i :: 0 <= i < |keys| ==> KeyOK(o, keys[i])
    modifies g
    ensures ok ==> (sign.Some? <==> NoNulls(keys))
    ensures ok && sign.Some? ==>
      exists ds :: Asks(ds, keys, |keys|) && AllSignable(o, ds) && sign.value == Signature(o, ds)
    ensures !ok ==> exists i :: 0 <= i < |keys| && keys[i].hash.Some? && !Signable(o, Asked(keys[i]))
  {
    var s := new Word[o.length](_ => 0);
    assert s[..] == Zero(o);
    ghost var ds: seq<Datum> := [];
    var i := 0;
    while i < |keys|
      invariant 0 <= i <= |keys| && s.Length == o.length && fresh(s)
      invariant Asks(ds, keys, i)
      invariant AllSignable(o, ds) && s[..] == Signature(o, ds)
    {
      if keys[i].hash.None? {
        return None, true;
      }
      assert KeyOK(o, keys[i]);
      ok := SignValue(o, g, s, Asked(keys[i]));
      if !ok {
        return None, false;
      }
      SignatureNext(o, ds, Asked(keys[i]));
      AsksNext(ds, keys, i);
      ds := ds + [Asked(keys[i])];
      i := i + 1;
    }
    return Some(s[..]), true;
  }

  lemma AsksNext(ds: seq<Datum>, keys: seq<Key>, i: nat)
    requires i < |keys| && Asks(ds, keys, i) && keys[i].hash.Some?
    ensures Asks(ds + [Asked(keys[i])], keys, i + 1)
  {
  }

  /** The word loop of the scan. */
  method Matches(t: Sign, k: Sign) returns (res: bool)
    requires |t| == |k|
    ensures res <==> Passes(t, k)
  {
    var i := 0;
    while i < |k|
      invariant 0 <= i <= |k|
      invariant forall j :: 0 <= j < i ==> And(t[j], k[j]) == k[j]
    {
      if And(t[i], k[i]) != k[i] {
        return false;
      }
      i := i + 1;
    }
    res := true;
  }
}
