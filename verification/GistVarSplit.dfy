/** Page split for variable-length btree_gist keys: sort, halve, and truncate both
    halves at the longer of the two common prefixes. */
module GistVarSplit {
  import opened Optional
  import opened LexOrder
  import opened GistVarKey
  import opened GistVarExact
  import opened HalfSplit

  /** gbt_vsrt_cmp: lower bounds first, then upper bounds. */
  function SortCompare(a: VarKey, b: VarKey): int
  {
    var c := Compare(Lower(a), Lower(b));
    if c == 0 then Compare(Upper(a), Upper(b)) else c
  }

  /** In the order of byte strings: by lower bound, and by upper bound where those are
      equal. */
  lemma SortedByBounds(a: VarKey, b: VarKey)
    ensures SortCompare(a, b) <= 0 <==> Lt(Lower(a), Lower(b)) || (Lower(a) == Lower(b) && Le(Upper(a), Upper(b)))
  {
    CompareZero(Lower(a), Lower(b));
  }

  /** The key of one side, cut at the given length. */
  function SideKey(ks: seq<VarKey>, cut: nat): VarKey
    requires ks != []
  {
    Truncate(Bounds(ks, |ks|), cut)
  }

  function SidePrefix(ks: seq<VarKey>): nat
    requires ks != []
  {
    CommonPrefix(Lower(Bounds(ks, |ks|)), Upper(Bounds(ks, |ks|)))
  }

  function SharedCut(left: seq<VarKey>, right: seq<VarKey>): nat
    requires left != [] && right != []
  {
    CutOf(Bounds(left, |left|), Bounds(right, |right|))
  }

  /** One more than the longer of the two keys' common prefixes. */
  function CutOf(l: VarKey, r: VarKey): nat
  {
    var ll, lr := CommonPrefix(Lower(l), Upper(l)), CommonPrefix(Lower(r), Upper(r));
    (if ll < lr then lr else ll) + 1
  }

  /** What the first and the last of a side's bounds share. */
  predicate Share(ks: seq<VarKey>, lo: seq<int>, hi: seq<int>, n: nat)
  {
    && IsLeastLower(ks, lo) && IsGreatestUpper(ks, hi) && n <= |lo| && n <= |hi| && (forall i :: 0 <= i < n ==> lo[i] == hi[i])
    && (n < |lo| && n < |hi| ==> lo[n] != hi[n])
  }

  /** The keys of the two sides: of each the least lower and the greatest upper bound, all
      cut to two bytes more than the bounds of one side share, of the side where they
      share more. */
  lemma SideKeysAre(left: seq<VarKey>, right: seq<VarKey>, ll: seq<int>, lh: seq<int>, rl: seq<int>, rh: seq<int>, n: nat, m: nat)
    requires Share(left, ll, lh, n) && Share(right, rl, rh, m)
    ensures left != [] && right != []
    ensures var len := 2 + if n < m then m else n;
      && SideKey(left, SharedCut(left, right)) == NodeKey(Cut(ll, len), Cut(lh, len))
      && SideKey(right, SharedCut(left, right)) == NodeKey(Cut(rl, len), Cut(rh, len))
  {
    hide SideKey, SharedCut, Share;
    SharedBounds(left, ll, lh, n);
    SharedBounds(right, rl, rh, m);
    SharedCutIs(left, right, n, m);
    SideKeyIs(left, SharedCut(left, right), ll, lh);
    SideKeyIs(right, SharedCut(left, right), rl, rh);
  }

  lemma SharedBounds(ks: seq<VarKey>, lo: seq<int>, hi: seq<int>, n: nat)
    requires Share(ks, lo, hi, n)
    ensures ks != [] && Lower(Bounds(ks, |ks|)) == lo && Upper(Bounds(ks, |ks|)) == hi && SidePrefix(ks) == n
  {
    LeastIs(ks, lo);
    GreatestIs(ks, hi);
    CommonPrefixIs(lo, hi, n);
  }

  lemma SharedCutIs(left: seq<VarKey>, right: seq<VarKey>, n: nat, m: nat)
    requires left != [] && right != [] && SidePrefix(left) == n && SidePrefix(right) == m
    ensures SharedCut(left, right) == 1 + if n < m then m else n
  {
  }

  lemma SideKeyIs(ks: seq<VarKey>, cut: nat, lo: seq<int>, hi: seq<int>)
    requires ks != [] && Lower(Bounds(ks, |ks|)) == lo && Upper(Bounds(ks, |ks|)) == hi
    ensures SideKey(ks, cut) == NodeKey(Cut(lo, cut + 1), Cut(hi, cut + 1))
  {
  }

  /** What the split makes of the sorted entries: the first half, the rest, and the two
      sides' bounds cut at the shared length. */
  predicate IsSplit(entries: seq<VarKey>, left: seq<nat>, right: seq<nat>, ldatum: VarKey, rdatum: VarKey)
  {
    && SortedOrder(SortCompare, entries, left + right) && |left| == |entries| / 2
    && left != [] && right != [] && InRange(entries, left) && InRange(entries, right)
    && var lks, rks := Pick(entries, left), Pick(entries, right);
       ldatum == SideKey(lks, SharedCut(lks, rks)) && rdatum == SideKey(rks, SharedCut(lks, rks))
  }

  /** The split: each offset lands on exactly one side, neither side is empty, and
      the keys are the two sides' bounds cut at the shared length. */
  method PickSplit(entries: seq<VarKey>, order: seq<nat>)
    returns (left: seq<nat>, right: seq<nat>, ldatum: VarKey, rdatum: VarKey)
    requires |entries| >= 2 && SortedOrder(SortCompare, entries, order)
    ensures left + right == order && IsSplit(entries, left, right, ldatum, rdatum)
  {
    var l, r;
    left, right, l, r := Halve(BinUnion, entries, order);
    FoldIsBounds(Pick(entries, left), |left|);
    FoldIsBounds(Pick(entries, right), |right|);
    ldatum, rdatum := CutBoth(l, r);
  }

  method CutBoth(l: VarKey, r: VarKey) returns (ldatum: VarKey, rdatum: VarKey)
    ensures ldatum == Truncate(l, CutOf(l, r)) && rdatum == Truncate(r, CutOf(l, r))
  {
    var ll := CommonPrefixLength(Lower(l), Upper(l));
    var lr := CommonPrefixLength(Lower(r), Upper(r));
    ll := if ll < lr then lr else ll;
    ll := ll + 1;
    ldatum, rdatum := Truncate(l, ll), Truncate(r, ll);
  }

  lemma {:induction false} FoldIsBounds(ks: seq<VarKey>, n: nat)
    requires 1 <= n <= |ks|
    ensures Fold(BinUnion, ks, 0, n) == Some(Bounds(ks, n))
  {
    if n > 1 {
      FoldIsBounds(ks, n - 1);
    }
  }

  /** An entry whose upper bound may itself have been truncated, so that any
      extension of it can occur below. */
  predicate OpenEnded(k: VarKey)
  {
    |Upper(k)| >= CommonPrefix(Lower(k), Upper(k)) + 2
  }

  /** The side's cut upper bound runs past an open-ended entry's bound, and leaves
      room above it. */
  predicate Overreaches(side: VarKey, k: VarKey)
  {
    && OpenEnded(k)
    && IsPrefix(Upper(k), Upper(side)) && RoomAbove(Upper(side), |Upper(k)|, |Upper(side)|)
  }

  predicate RoomAbove(g: seq<int>, from: nat, to: nat)
    requires to <= |g|
  {
    exists j :: from <= j < to && g[j] < 255
  }

  predicate IsBytes(v: seq<int>) { forall i :: 0 <= i < |v| ==> 0 <= v[i] <= 255 }

  /** A cut at or past the side's own prefix keeps every value that is not above
      the side's whole upper bound. */
  lemma CutBelowUpper(ll: seq<int>, uu: seq<int>, cut: nat, v: seq<int>)
    requires CommonPrefix(ll, uu) + 1 <= cut
    requires Le(ll, v) && Le(v, uu)
    ensures CoversBounds(ll[..MinLen(|ll|, cut + 1)], uu[..MinLen(|uu|, cut + 1)], v)
  {
    var m, n := MinLen(|ll|, cut + 1), MinLen(|uu|, cut + 1);
    PrefixLe(ll[..m], ll);
    LeTrans(ll[..m], ll, v);
    TruncationShrinksPrefix(ll, uu, m, n);
    TruncatedUpper(v, uu, n);
    if n == |uu| {
      assert uu[..n] == uu;
    }
  }

  /** Above a bound that continues in 0xFF bytes only its own extensions remain. */
  lemma AboveTop(u: seq<int>, top: seq<int>, v: seq<int>)
    requires IsPrefix(u, top) && IsPrefix(u, v) && IsBytes(v)
    requires forall j :: |u| <= j < |top| ==> top[j] >= 255
    requires Le(top, v)
    ensures IsPrefix(top, v)
  {
    var k := CommonPrefix(top, v);
    PrefixFacts(top, v);
    assert k == |top|;
    assert v[..|top|] == top;
  }

  lemma CutAboveUpper(ll: seq<int>, uu: seq<int>, cut: nat, k: VarKey, v: seq<int>)
    requires CommonPrefix(ll, uu) + 1 <= cut
    requires Le(ll, Lower(k)) && Le(Upper(k), uu) && Le(Lower(k), Upper(k))
    requires Covers(k, v) && IsBytes(v) && !Le(v, uu)
    requires !Overreaches(NodeKey(ll[..MinLen(|ll|, cut + 1)], uu[..MinLen(|uu|, cut + 1)]), k)
    ensures CoversBounds(ll[..MinLen(|ll|, cut + 1)], uu[..MinLen(|uu|, cut + 1)], v)
  {
    var m, n := MinLen(|ll|, cut + 1), MinLen(|uu|, cut + 1);
    LeTrans(ll, Lower(k), v);
    PrefixLe(ll[..m], ll);
    LeTrans(ll[..m], ll, v);
    TruncationShrinksPrefix(ll, uu, m, n);
    assert !Le(v, Upper(k)) by {
      if Le(v, Upper(k)) {
        LeTrans(v, Upper(k), uu);
      }
    }
    AboveUpper(ll, uu, Lower(k), Upper(k), v);
    if n <= |Upper(k)| {
      CutOfBoth(Upper(k), uu, v, n);
    } else {
      PrefixLe(uu[..n], uu);
      CompareFlips(v, uu);
      LeTrans(uu[..n], uu, v);
      AboveTop(Upper(k), uu[..n], v);
    }
  }

  /** Entry i may hold extensions of its upper bound, the greatest upper bound is one of
      them, and a byte of it that the cut keeps leaves room above. */
  predicate CutShort(ks: seq<VarKey>, cut: nat, g: seq<int>, i: nat)
    requires i < |ks|
  {
    OpenEnded(ks[i]) && IsPrefix(Upper(ks[i]), g) && RoomAbove(g, |Upper(ks[i])|, MinLen(|g|, cut + 1))
  }

  lemma CutShortIs(ks: seq<VarKey>, cut: nat, g: seq<int>, i: nat)
    requires i < |ks| && IsGreatestUpper(ks, g)
    ensures CutShort(ks, cut, g, i) <==> Overreaches(SideKey(ks, cut), ks[i])
  {
    GreatestIs(ks, g);
    UpperOfCut(ks, cut);
    RoomInCut(Upper(ks[i]), g, MinLen(|g|, cut + 1));
  }

  lemma UpperOfCut(ks: seq<VarKey>, cut: nat)
    requires ks != []
    ensures var g := Upper(Bounds(ks, |ks|)); Upper(SideKey(ks, cut)) == g[..MinLen(|g|, cut + 1)]
  {
  }

  lemma RoomInCut(u: seq<int>, g: seq<int>, m: nat)
    requires m <= |g|
    ensures IsPrefix(u, g[..m]) && RoomAbove(g[..m], |u|, m) <==> IsPrefix(u, g) && RoomAbove(g, |u|, m)
  {
    var h := g[..m];
    if RoomAbove(g, |u|, m) {
      var j :| |u| <= j < m && g[j] < 255;
      assert h[j] == g[j] && h[..|u|] == g[..|u|];
    }
    if RoomAbove(h, |u|, m) {
      var j :| |u| <= j < m && h[j] < 255;
      assert h[j] == g[j] && h[..|u|] == g[..|u|];
    }
  }

  /** A key covers every byte string that one of the others covers. */
  ghost predicate CoversAll(side: VarKey, ks: seq<VarKey>)
  {
    forall i, v :: 0 <= i < |ks| && IsBytes(v) && Covers(ks[i], v) ==> Covers(side, v)
  }

  /** The keys as an index holds them. */
  predicate KeysOK(ks: seq<VarKey>)
  {
    forall i :: 0 <= i < |ks| ==> Le(Lower(ks[i]), Upper(ks[i])) && IsBytes(Upper(ks[i]))
  }

  /** The side's key covers all that its entries cover exactly when the cut leaves none
      of them short of the greatest upper bound. */
  lemma SideCoversIff(ks: seq<VarKey>, cut: nat, g: seq<int>)
    requires IsGreatestUpper(ks, g) && KeysOK(ks) && SidePrefix(ks) + 1 <= cut
    ensures CoversAll(SideKey(ks, cut), ks) <==> forall i :: 0 <= i < |ks| ==> !CutShort(ks, cut, g, i)
  {
    var side := SideKey(ks, cut);
    if forall i :: 0 <= i < |ks| ==> !CutShort(ks, cut, g, i) {
      forall i, v | 0 <= i < |ks| && IsBytes(v) && Covers(ks[i], v) ensures Covers(side, v) {
        CutShortIs(ks, cut, g, i);
        SideCovers(ks, cut, i, v);
      }
    } else {
      var i :| 0 <= i < |ks| && CutShort(ks, cut, g, i);
      CutShortIs(ks, cut, g, i);
      UpperIsBytes(ks, |ks|);
      var v := EscapesSide(side, ks[i]);
      assert Covers(ks[i], v) && !Covers(side, v);
    }
  }

  /** Of a split, both keys cover their sides exactly when neither side has an entry
      that the shared cut leaves short. */
  lemma SplitCoversIff(left: seq<VarKey>, right: seq<VarKey>, gl: seq<int>, gr: seq<int>)
    requires IsGreatestUpper(left, gl) && IsGreatestUpper(right, gr) && KeysOK(left) && KeysOK(right)
    ensures var cut := SharedCut(left, right);
      CoversAll(SideKey(left, cut), left) && CoversAll(SideKey(right, cut), right)
      <==> && (forall i :: 0 <= i < |left| ==> !CutShort(left, cut, gl, i))
           && (forall i :: 0 <= i < |right| ==> !CutShort(right, cut, gr, i))
  {
    SideCoversIff(left, SharedCut(left, right), gl);
    SideCoversIff(right, SharedCut(left, right), gr);
  }

  lemma SideCovers(ks: seq<VarKey>, cut: nat, i: nat, v: seq<int>)
    requires i < |ks| && SidePrefix(ks) + 1 <= cut
    requires Le(Lower(ks[i]), Upper(ks[i])) && IsBytes(v) && Covers(ks[i], v)
    requires !Overreaches(SideKey(ks, cut), ks[i])
    ensures Covers(SideKey(ks, cut), v)
  {
    var b := Bounds(ks, |ks|);
    BoundsAreBounds(ks, |ks|, i);
    LeTrans(Lower(b), Lower(ks[i]), v);
    if Le(v, Upper(b)) {
      CutBelowUpper(Lower(b), Upper(b), cut, v);
    } else {
      CutAboveUpper(Lower(b), Upper(b), cut, ks[i], v);
    }
  }

  lemma {:induction false} UpperIsBytes(ks: seq<VarKey>, n: nat)
    requires 1 <= n <= |ks|
    requires forall i :: 0 <= i < |ks| ==> IsBytes(Upper(ks[i]))
    ensures IsBytes(Upper(Bounds(ks, n)))
  {
    if n > 1 {
      UpperIsBytes(ks, n - 1);
      BinUnionBounds(Bounds(ks, n - 1), ks[n - 1]);
    }
  }

  lemma EscapesSide(side: VarKey, k: VarKey) returns (v: seq<int>)
    requires Overreaches(side, k) && Le(Lower(k), Upper(k)) && IsBytes(Upper(side))
    ensures IsBytes(v) && Covers(k, v) && !Covers(side, v)
  {
    var u := Upper(side);
    var j :| |Upper(k)| <= j < |u| && u[j] < 255;
    v := u[..j] + [255];
    assert v[j] == 255 && forall i :: 0 <= i < j ==> v[i] == u[i];
    StepsOver(u, v, j);
    assert IsPrefix(Upper(k), v);
    PrefixLe(Upper(k), v);
    LeTrans(Lower(k), Upper(k), v);
  }

  lemma StepsOver(u: seq<int>, v: seq<int>, j: nat)
    requires j < |u| && j < |v| && u[j] < v[j]
    requires forall i :: 0 <= i < j ==> v[i] == u[i]
    ensures !Le(v, u) && !IsPrefix(u, v)
  {
    CommonPrefixIs(v, u, j);
  }

  /** Over leaf entries, as when a leaf page splits, both keys always cover. */
  lemma LeafSideCovers(values: seq<seq<int>>, ks: seq<VarKey>, cut: nat, i: nat)
    requires |ks| == |values| && i < |ks| && SidePrefix(ks) + 1 <= cut
    requires forall j :: 0 <= j < |ks| ==> ks[j] == LeafKey(values[j])
    ensures Covers(SideKey(ks, cut), values[i])
  {
    var b := Bounds(ks, |ks|);
    BoundsAreBounds(ks, |ks|, i);
    CutBelowUpper(Lower(b), Upper(b), cut, values[i]);
  }
}
