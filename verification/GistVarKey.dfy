/** btree_gist keys of variable length, for bytea: an inner key keeps only a
    truncated lower and upper bound of everything below it, and a search prunes
    on those bounds.  Byte strings are sequences of integers. */
module GistVarKey {
  import opened Optional
  import opened LexOrder

  datatype VarKey = LeafKey(value: seq<int>) | NodeKey(lo: seq<int>, hi: seq<int>)

  function Lower(k: VarKey): seq<int> { if k.LeafKey? then k.value else k.lo }
  function Upper(k: VarKey): seq<int> { if k.LeafKey? then k.value else k.hi }

  function MinLen(n: nat, m: nat): nat { if n < m then n else m }

  /** The common-prefix loop for single-byte encodings. */
  method CommonPrefixLength(lower: seq<int>, upper: seq<int>) returns (i: nat)
    ensures i == CommonPrefix(lower, upper)
  {
    var ml := MinLen(|lower|, |upper|);
    i := 0;
    while i < ml
      invariant i <= ml
      invariant forall j :: 0 <= j < i ==> lower[j] == upper[j]
    {
      if lower[i] != upper[i] {
        CommonPrefixIs(lower, upper, i);
        return;
      }
      i := i + 1;
    }
    CommonPrefixIs(lower, upper, i);
  }

  /** Cut both bounds to at most cpfLength + 1 bytes. */
  function Truncate(k: VarKey, cpfLength: nat): VarKey
  {
    NodeKey(Lower(k)[..MinLen(|Lower(k)|, cpfLength + 1)],
            Upper(k)[..MinLen(|Upper(k)|, cpfLength + 1)])
  }

  function BinUnion(u: Option<VarKey>, e: VarKey): VarKey
  {
    match u
    case None => NodeKey(Lower(e), Upper(e))
    case Some(ro) =>
      var lowerMoves := Compare(Lower(ro), Lower(e)) > 0;
      var upperMoves := Compare(Upper(ro), Upper(e)) < 0;
      if lowerMoves || upperMoves then
        NodeKey(if lowerMoves then Lower(e) else Lower(ro), if upperMoves then Upper(e) else Upper(ro))
      else ro
  }

  lemma BinUnionBounds(u: VarKey, e: VarKey)
    ensures
      var r := BinUnion(Some(u), e);
      && Le(Lower(r), Lower(e)) && Le(Upper(e), Upper(r))
      && Le(Lower(r), Lower(u)) && Le(Upper(u), Upper(r))
      && (Lower(r) == Lower(e) || Lower(r) == Lower(u))
      && (Upper(r) == Upper(e) || Upper(r) == Upper(u))
  {
    CompareZero(Lower(e), Lower(e));
    CompareZero(Upper(e), Upper(e));
    CompareZero(Lower(u), Lower(u));
    CompareZero(Upper(u), Upper(u));
    CompareFlips(Lower(u), Lower(e));
    CompareFlips(Upper(u), Upper(e));
  }

  /** Bounds of the first n keys, before truncation. */
  function Bounds(keys: seq<VarKey>, n: nat): (r: VarKey)
    requires 1 <= n <= |keys|
  {
    if n == 1 then NodeKey(Lower(keys[0]), Upper(keys[0]))
    else BinUnion(Some(Bounds(keys, n - 1)), keys[n - 1])
  }

  function UnionKey(keys: seq<VarKey>): (r: VarKey)
    requires keys != []
  {
    var b := Bounds(keys, |keys|);
    Truncate(b, CommonPrefix(Lower(b), Upper(b)) + 1)
  }

  method VarUnion(keys: seq<VarKey>) returns (out: VarKey)
    requires keys != []
    ensures out == UnionKey(keys)
  {
    out := NodeKey(Lower(keys[0]), Upper(keys[0]));
    for i := 1 to |keys|
      invariant out == Bounds(keys, i)
    {
      out := BinUnion(Some(out), keys[i]);
    }
    var plen := CommonPrefixLength(Lower(out), Upper(out));
    out := Truncate(out, plen + 1);
  }

  /** What an inner key promises about a value below it.  A value above the
      stored upper bound must extend it, and the bound must then reach two bytes
      past the prefix it shares with the lower bound. */
  predicate CoversBounds(lower: seq<int>, upper: seq<int>, v: seq<int>)
  {
    && Le(lower, v)
    && (Le(v, upper) || (IsPrefix(upper, v) && |upper| >= CommonPrefix(lower, upper) + 2))
  }

  predicate Covers(k: VarKey, v: seq<int>) { CoversBounds(Lower(k), Upper(k), v) }

  predicate Encloses(b: VarKey, k: VarKey)
  {
    Le(Lower(b), Lower(k)) && Le(Upper(k), Upper(b))
  }

  lemma BinUnionEncloses(u: VarKey, e: VarKey, k: VarKey)
    requires Encloses(u, k)
    ensures Encloses(BinUnion(Some(u), e), k)
  {
    var r := BinUnion(Some(u), e);
    BinUnionBounds(u, e);
    LeTrans(Lower(r), Lower(u), Lower(k));
    LeTrans(Upper(k), Upper(u), Upper(r));
  }

  lemma {:induction false} BoundsAreBounds(keys: seq<VarKey>, n: nat, i: nat)
    requires 1 <= n <= |keys| && i < n
    ensures Encloses(Bounds(keys, n), keys[i])
  {
    if n == 1 {
      CompareZero(Lower(keys[0]), Lower(keys[0]));
      CompareZero(Upper(keys[0]), Upper(keys[0]));
    } else if i < n - 1 {
      BoundsAreBounds(keys, n - 1, i);
      BinUnionEncloses(Bounds(keys, n - 1), keys[n - 1], keys[i]);
    } else {
      BinUnionBounds(Bounds(keys, n - 1), keys[n - 1]);
    }
  }

  /** The truncated upper bound still covers everything up to the whole one. */
  lemma TruncatedUpper(v: seq<int>, upper: seq<int>, m: nat)
    requires Le(v, upper) && m <= |upper|
    ensures Le(v, upper[..m]) || IsPrefix(upper[..m], v)
  {
    var k := CommonPrefix(v, upper);
    PrefixFacts(v, upper);
    if k < m {
      CommonPrefixIs(v, upper[..m], k);
    } else {
      CommonPrefixIs(v, upper[..m], m);
      assert upper[..m] == v[..m];
    }
  }

  lemma TruncationShrinksPrefix(a: seq<int>, b: seq<int>, m: nat, n: nat)
    requires m <= |a| && n <= |b|
    ensures CommonPrefix(a[..m], b[..n]) <= CommonPrefix(a, b)
  {
    var c := CommonPrefix(a[..m], b[..n]);
    PrefixFacts(a[..m], b[..n]);
    assert forall i :: 0 <= i < c ==> a[i] == a[..m][i] == b[..n][i] == b[i];
    CommonPrefixAtLeast(a, b, c);
  }

  /** A key that covers a value through its prefix clause has ordered bounds. */
  lemma PrefixClauseOrders(l: seq<int>, u: seq<int>, v: seq<int>)
    requires CoversBounds(l, u, v)
    requires !Le(v, u)
    ensures Le(l, u)
    ensures CommonPrefix(l, u) + 2 <= |u|
  {
    CompareFlips(l, u);
    if !Le(l, u) {
      PrefixLe(u, v);
      CompareFlips(u, l);
      SqueezedPrefix(u, l, v);
      CommonPrefixIs(u, v, |u|);
      PrefixFacts(u, l);
      CommonPrefixIs(l, u, CommonPrefix(u, l));
    }
  }

  lemma WidenedBoundsCover(ll: seq<int>, uu: seq<int>, l: seq<int>, u: seq<int>, v: seq<int>)
    requires Le(ll, l) && Le(u, uu)
    requires CoversBounds(l, u, v)
    ensures
      var p := CommonPrefix(ll, uu);
      CoversBounds(ll[..MinLen(|ll|, p + 2)], uu[..MinLen(|uu|, p + 2)], v)
  {
    var p := CommonPrefix(ll, uu);
    var m, n := MinLen(|ll|, p + 2), MinLen(|uu|, p + 2);
    LeTrans(ll, l, v);
    PrefixLe(ll[..m], ll);
    LeTrans(ll[..m], ll, v);
    TruncationShrinksPrefix(ll, uu, m, n);
    if Le(v, uu) {
      TruncatedUpper(v, uu, n);
      if n < p + 2 {
        assert uu[..n] == uu;
      }
    } else {
      if Le(v, u) {
        LeTrans(v, u, uu);
        assert false;
      }
      PrefixClauseOrders(l, u, v);
      AboveUpper(ll, uu, l, u, v);
      CutOfBoth(u, uu, v, p + 2);
    }
  }

  lemma PrefixSqueezes(u: seq<int>, uu: seq<int>, v: seq<int>)
    requires IsPrefix(u, v) && Le(u, uu) && Le(uu, v)
    ensures IsPrefix(u, uu)
  {
    SqueezedPrefix(u, uu, v);
    CommonPrefixIs(u, v, |u|);
    var k := CommonPrefix(u, uu);
    PrefixFacts(u, uu);
    assert k == |u|;
    assert forall i :: 0 <= i < |u| ==> uu[i] == u[i];
    assert uu[..|u|] == u;
  }

  lemma PrefixWithExtension(l: seq<int>, u: seq<int>, uu: seq<int>)
    requires IsPrefix(u, uu) && CommonPrefix(l, u) < |u|
    ensures CommonPrefix(l, uu) == CommonPrefix(l, u)
  {
    PrefixFacts(l, u);
    CommonPrefixIs(l, uu, CommonPrefix(l, u));
  }

  lemma CutOfBoth(u: seq<int>, uu: seq<int>, v: seq<int>, n: nat)
    requires IsPrefix(u, uu) && IsPrefix(u, v) && n <= |u|
    ensures IsPrefix(uu[..n], v)
  {
  }

  /** When a value lies above even the widened upper bound, that bound extends the
      child's one, and the cut falls inside the child's bound. */
  lemma AboveUpper(ll: seq<int>, uu: seq<int>, l: seq<int>, u: seq<int>, v: seq<int>)
    requires Le(ll, l) && Le(l, u) && Le(u, uu)
    requires !Le(v, uu) && IsPrefix(u, v) && CommonPrefix(l, u) + 2 <= |u|
    ensures CommonPrefix(ll, uu) + 2 <= |u|
    ensures IsPrefix(u, uu)
  {
    CompareFlips(v, uu);
    PrefixSqueezes(u, uu, v);
    LeTrans(l, u, uu);
    SqueezedPrefix(ll, l, uu);
    PrefixWithExtension(l, u, uu);
  }

  /** Whatever one of the keys covers, their union covers, at any depth. */
  lemma UnionCovers(keys: seq<VarKey>, i: nat, v: seq<int>)
    requires i < |keys| && Covers(keys[i], v)
    ensures Covers(UnionKey(keys), v)
  {
    var b := Bounds(keys, |keys|);
    BoundsAreBounds(keys, |keys|, i);
    WidenedBoundsCover(Lower(b), Upper(b), Lower(keys[i]), Upper(keys[i]), v);
  }

  lemma LeafCovers(v: seq<int>)
    ensures Covers(LeafKey(v), v)
  {
    CompareZero(v, v);
  }
}
