/** Boxes of mixed dimension (contrib/cube), over the reals: union, containment,
    overlap and comparison as the loops compute them, and what they mean when missing
    dimensions read as [0,0]. */
module CubeBox {

  /** Two opposite corners; a point has the same corner twice. */
  datatype Box = Box(ll: seq<real>, ur: seq<real>)
  type Cube = b: Box | |b.ll| == |b.ur| witness Box([], [])

  function Dim(c: Cube): nat { |c.ll| }

  function Min(a: real, b: real): real { if a < b then a else b }
  function Max(a: real, b: real): real { if a > b then a else b }

  /** The interval of c in dimension i. */
  function Lo(c: Cube, i: nat): real { if i < Dim(c) then Min(c.ll[i], c.ur[i]) else 0.0 }
  function Hi(c: Cube, i: nat): real { if i < Dim(c) then Max(c.ll[i], c.ur[i]) else 0.0 }

  function MaxDim(a: Cube, b: Cube): nat { if Dim(a) < Dim(b) then Dim(b) else Dim(a) }

  // ------------------------------------------------------------- the operations

  /** The smallest box around both, in the larger dimension. */
  function Union(a: Cube, b: Cube): (r: Cube)
    ensures Dim(r) == MaxDim(a, b)
    ensures forall i: nat :: Lo(r, i) == Min(Lo(a, i), Lo(b, i)) && Hi(r, i) == Max(Hi(a, i), Hi(b, i))
  {
    var n := MaxDim(a, b);
    Box(seq(n, i requires 0 <= i < n => Min(Lo(a, i), Lo(b, i))), seq(n, i requires 0 <= i < n => Max(Hi(a, i), Hi(b, i))))
  }

  /** cube_union_v0: common dimensions first, then the larger box's against zero; one
      object given twice comes back as it is. */
  method UnionV0(x: Cube, y: Cube, same: bool) returns (r: Cube)
    requires same ==> x == y
    ensures r == if same then x else Union(x, y)
  {
    if same {
      return x;
    }
    var a, b := x, y;
    if Dim(a) < Dim(b) {
      a, b := y, x;
    }
    var dim := Dim(a);
    var lo, hi := new real[dim](_ => 0.0), new real[dim](_ => 0.0);
    var i := 0;
    while i < Dim(b)
      invariant 0 <= i <= Dim(b)
      invariant forall k :: 0 <= k < i ==> lo[k] == Min(Lo(x, k), Lo(y, k)) && hi[k] == Max(Hi(x, k), Hi(y, k))
    {
      lo[i] := Min(Min(a.ll[i], a.ur[i]), Min(b.ll[i], b.ur[i]));
      hi[i] := Max(Max(a.ll[i], a.ur[i]), Max(b.ll[i], b.ur[i]));
      i := i + 1;
    }
    while i < dim
      invariant Dim(b) <= i <= dim
      invariant forall k :: 0 <= k < i ==> lo[k] == Min(Lo(x, k), Lo(y, k)) && hi[k] == Max(Hi(x, k), Hi(y, k))
    {
      lo[i] := Min(0.0, Min(a.ll[i], a.ur[i]));
      hi[i] := Max(0.0, Max(a.ll[i], a.ur[i]));
      i := i + 1;
    }
    r := Box(lo[..], hi[..]);
  }

  /** Every dimension of b lies within a; further dimensions of a do not count. */
  predicate Contains(a: Cube, b: Cube)
  {
    forall i :: 0 <= i < Dim(b) ==> Within(a, b, i)
  }

  predicate Within(a: Cube, b: Cube, i: nat) { Lo(a, i) <= Lo(b, i) && Hi(b, i) <= Hi(a, i) }

  /** cube_contains_v0. */
  method ContainsV0(a: Cube, b: Cube) returns (res: bool)
    ensures res <==> Contains(a, b)
  {
    var i := Dim(a);
    while i < Dim(b)
      invariant Dim(a) < Dim(b) ==> Dim(a) <= i <= Dim(b)
      invariant forall k :: Dim(a) <= k < i && k < Dim(b) ==> Within(a, b, k)
    {
      if b.ll[i] != 0.0 || b.ur[i] != 0.0 {
        assert !Within(a, b, i);
        return false;
      }
      i := i + 1;
    }
    var n := if Dim(a) < Dim(b) then Dim(a) else Dim(b);
    i := 0;
    while i < n
      invariant 0 <= i <= n && forall k :: 0 <= k < i ==> Within(a, b, k)
    {
      if Min(a.ll[i], a.ur[i]) > Min(b.ll[i], b.ur[i]) || Max(a.ll[i], a.ur[i]) < Max(b.ll[i], b.ur[i]) {
        assert !Within(a, b, i);
        return false;
      }
      i := i + 1;
    }
    res := true;
  }

  /** The boxes share a point once both are padded with zeros. */
  predicate Overlap(a: Cube, b: Cube)
  {
    forall i :: 0 <= i < MaxDim(a, b) ==> Meets(a, b, i)
  }

  predicate Meets(a: Cube, b: Cube, i: nat) { Lo(a, i) <= Hi(b, i) && Lo(b, i) <= Hi(a, i) }

  /** cube_overlap_v0. */
  method OverlapV0(x: Cube, y: Cube) returns (res: bool)
    ensures res <==> Overlap(x, y)
  {
    var a, b := x, y;
    if Dim(a) < Dim(b) {
      a, b := y, x;
    }
    var i := 0;
    while i < Dim(b)
      invariant 0 <= i <= Dim(b) && forall k :: 0 <= k < i ==> Meets(x, y, k)
    {
      if Min(a.ll[i], a.ur[i]) > Max(b.ll[i], b.ur[i]) || Max(a.ll[i], a.ur[i]) < Min(b.ll[i], b.ur[i]) {
        assert !Meets(x, y, i);
        return false;
      }
      i := i + 1;
    }
    while i < Dim(a)
      invariant Dim(b) <= i <= Dim(a) && forall k :: 0 <= k < i ==> Meets(x, y, k)
    {
      if Min(a.ll[i], a.ur[i]) > 0.0 || Max(a.ll[i], a.ur[i]) < 0.0 {
        assert !Meets(x, y, i);
        return false;
      }
      i := i + 1;
    }
    res := true;
  }

  /** The same box, up to which corners it is given by. */
  predicate Same(a: Cube, b: Cube)
  {
    Dim(a) == Dim(b) && forall i :: 0 <= i < Dim(a) ==> Lo(a, i) == Lo(b, i) && Hi(a, i) == Hi(b, i)
  }

  function Sign(a: real, b: real): int { if a > b then 1 else if a < b then -1 else 0 }

  /** The first difference decides, from dimension i up to n: of the lower bounds, or of
      the upper ones. */
  function LexLo(a: Cube, b: Cube, i: nat, n: nat): int
    requires i <= n
    decreases n - i
  {
    if i == n then 0 else if Lo(a, i) != Lo(b, i) then Sign(Lo(a, i), Lo(b, i)) else LexLo(a, b, i + 1, n)
  }

  function LexHi(a: Cube, b: Cube, i: nat, n: nat): int
    requires i <= n
    decreases n - i
  {
    if i == n then 0 else if Hi(a, i) != Hi(b, i) then Sign(Hi(a, i), Hi(b, i)) else LexHi(a, b, i + 1, n)
  }

  function Lex(a: Cube, b: Cube, i: nat, n: nat): int
    requires i <= n
  {
    if LexLo(a, b, i, n) != 0 then LexLo(a, b, i, n) else LexHi(a, b, i, n)
  }

  function CommonDim(a: Cube, b: Cube): nat { if Dim(a) < Dim(b) then Dim(a) else Dim(b) }

  /** Lower bounds, then upper bounds, over the common dimensions; then the same over
      the others, zeros for the smaller box; then the larger dimension is larger. */
  function Cmp(a: Cube, b: Cube): int
  {
    var d, n := CommonDim(a, b), MaxDim(a, b);
    if Lex(a, b, 0, d) != 0 then Lex(a, b, 0, d)
    else if Lex(a, b, d, n) != 0 then Lex(a, b, d, n)
    else if Dim(a) > Dim(b) then 1 else if Dim(a) < Dim(b) then -1 else 0
  }

  /** cube_cmp_v0. */
  method CmpV0(a: Cube, b: Cube) returns (c: int)
    ensures c == Cmp(a, b)
  {
    var dim := CommonDim(a, b);
    c := Scan(a, b, 0, dim);
    if c != 0 || Dim(a) == Dim(b) {
      return;
    }
    c := Scan(a, b, dim, MaxDim(a, b));
    if c == 0 {
      c := if Dim(a) > Dim(b) then 1 else -1;
    }
  }

  /** A pass over lower bounds and a pass over upper bounds. */
  method Scan(a: Cube, b: Cube, from: nat, to: nat) returns (c: int)
    requires from <= to
    ensures c == Lex(a, b, from, to)
  {
    var i := from;
    while i < to
      invariant from <= i <= to && LexLo(a, b, from, to) == LexLo(a, b, i, to)
    {
      c := Sign(Lo(a, i), Lo(b, i));
      if c != 0 {
        return;
      }
      i := i + 1;
    }
    i := from;
    while i < to
      invariant from <= i <= to && LexHi(a, b, from, to) == LexHi(a, b, i, to)
    {
      c := Sign(Hi(a, i), Hi(b, i));
      if c != 0 {
        return;
      }
      i := i + 1;
    }
    c := 0;
  }

  lemma {:induction false} LexZero(a: Cube, b: Cube, i: nat, n: nat)
    requires i <= n
    ensures LexLo(a, b, i, n) == 0 <==> forall k :: i <= k < n ==> Lo(a, k) == Lo(b, k)
    ensures LexHi(a, b, i, n) == 0 <==> forall k :: i <= k < n ==> Hi(a, k) == Hi(b, k)
    decreases n - i
  {
    if i < n {
      LexZero(a, b, i + 1, n);
    }
  }

  /** Equal under the comparison is the same box. */
  lemma CmpZeroIffSame(a: Cube, b: Cube)
    ensures Cmp(a, b) == 0 <==> Same(a, b)
  {
    LexZero(a, b, 0, CommonDim(a, b));
  }

  /** At the first dimension from i up to n where the lower bounds differ, a's is the
      smaller. */
  predicate LowerFirst(a: Cube, b: Cube, i: nat, n: nat)
  {
    exists k :: i <= k < n && Lo(a, k) < Lo(b, k) && forall j :: i <= j < k ==> Lo(a, j) == Lo(b, j)
  }

  predicate UpperFirst(a: Cube, b: Cube, i: nat, n: nat)
  {
    exists k :: i <= k < n && Hi(a, k) < Hi(b, k) && forall j :: i <= j < k ==> Hi(a, j) == Hi(b, j)
  }

  predicate SameLower(a: Cube, b: Cube, i: nat, n: nat) { forall k :: i <= k < n ==> Lo(a, k) == Lo(b, k) }

  predicate SameUpper(a: Cube, b: Cube, i: nat, n: nat) { forall k :: i <= k < n ==> Hi(a, k) == Hi(b, k) }

  lemma {:induction false} LexLoIs(a: Cube, b: Cube, i: nat, n: nat)
    requires i <= n
    ensures LexLo(a, b, i, n) < 0 <==> LowerFirst(a, b, i, n)
    decreases n - i
  {
    if i < n {
      LexLoIs(a, b, i + 1, n);
      LowerStarts(a, b, i, n);
    }
  }

  lemma LowerStarts(a: Cube, b: Cube, i: nat, n: nat)
    requires i < n
    ensures Lo(a, i) < Lo(b, i) ==> LowerFirst(a, b, i, n)
    ensures Lo(a, i) == Lo(b, i) ==> (LowerFirst(a, b, i, n) <==> LowerFirst(a, b, i + 1, n))
    ensures Lo(a, i) > Lo(b, i) ==> !LowerFirst(a, b, i, n)
  {
    if Lo(a, i) == Lo(b, i) && LowerFirst(a, b, i + 1, n) {
      var k :| i + 1 <= k < n && Lo(a, k) < Lo(b, k) && forall j :: i + 1 <= j < k ==> Lo(a, j) == Lo(b, j);
      assert forall j :: i <= j < k ==> Lo(a, j) == Lo(b, j);
    }
  }

  lemma {:induction false} LexHiIs(a: Cube, b: Cube, i: nat, n: nat)
    requires i <= n
    ensures LexHi(a, b, i, n) < 0 <==> UpperFirst(a, b, i, n)
    decreases n - i
  {
    if i < n {
      LexHiIs(a, b, i + 1, n);
      UpperStarts(a, b, i, n);
    }
  }

  lemma UpperStarts(a: Cube, b: Cube, i: nat, n: nat)
    requires i < n
    ensures Hi(a, i) < Hi(b, i) ==> UpperFirst(a, b, i, n)
    ensures Hi(a, i) == Hi(b, i) ==> (UpperFirst(a, b, i, n) <==> UpperFirst(a, b, i + 1, n))
    ensures Hi(a, i) > Hi(b, i) ==> !UpperFirst(a, b, i, n)
  {
    if Hi(a, i) == Hi(b, i) && UpperFirst(a, b, i + 1, n) {
      var k :| i + 1 <= k < n && Hi(a, k) < Hi(b, k) && forall j :: i + 1 <= j < k ==> Hi(a, j) == Hi(b, j);
      assert forall j :: i <= j < k ==> Hi(a, j) == Hi(b, j);
    }
  }

  lemma LexIs(a: Cube, b: Cube, i: nat, n: nat)
    requires i <= n
    ensures LexLo(a, b, i, n) < 0 <==> LowerFirst(a, b, i, n)
    ensures LexHi(a, b, i, n) < 0 <==> UpperFirst(a, b, i, n)
    ensures LexLo(a, b, i, n) == 0 <==> SameLower(a, b, i, n)
    ensures LexHi(a, b, i, n) == 0 <==> SameUpper(a, b, i, n)
  {
    LexLoIs(a, b, i, n);
    LexHiIs(a, b, i, n);
    LexZero(a, b, i, n);
  }

  /** Which of two boxes comes first: in the dimensions both have by lower, then by upper
      bounds; then in those that one has, against zero; then the one with fewer. */
  lemma CmpIs(a: Cube, b: Cube)
    ensures var d, n := if Dim(a) < Dim(b) then Dim(a) else Dim(b), if Dim(a) < Dim(b) then Dim(b) else Dim(a);
      Cmp(a, b) < 0 <==>
        || LowerFirst(a, b, 0, d)
        || (SameLower(a, b, 0, d) && UpperFirst(a, b, 0, d))
        || (SameLower(a, b, 0, d) && SameUpper(a, b, 0, d) && LowerFirst(a, b, d, n))
        || (SameLower(a, b, 0, n) && SameUpper(a, b, 0, d) && UpperFirst(a, b, d, n))
        || (SameLower(a, b, 0, n) && SameUpper(a, b, 0, n) && Dim(a) < Dim(b))
  {
    hide LowerFirst, UpperFirst, LexLo, LexHi;
    LexIs(a, b, 0, CommonDim(a, b));
    LexIs(a, b, CommonDim(a, b), MaxDim(a, b));
  }

  lemma {:induction false} LexFlips(a: Cube, b: Cube, i: nat, n: nat)
    requires i <= n
    ensures LexLo(a, b, i, n) == -LexLo(b, a, i, n) && LexHi(a, b, i, n) == -LexHi(b, a, i, n)
    decreases n - i
  {
    if i < n {
      LexFlips(a, b, i + 1, n);
    }
  }

  lemma CmpFlips(a: Cube, b: Cube)
    ensures Cmp(a, b) == -Cmp(b, a)
  {
    LexFlips(a, b, 0, CommonDim(a, b));
    LexFlips(a, b, CommonDim(a, b), MaxDim(a, b));
  }

  lemma {:induction false} LexTrans(a: Cube, b: Cube, c: Cube, i: nat, n: nat)
    requires i <= n
    ensures LexLo(a, b, i, n) <= 0 && LexLo(b, c, i, n) <= 0 ==>
      LexLo(a, c, i, n) <= 0 && (LexLo(a, c, i, n) == 0 ==> LexLo(a, b, i, n) == 0 && LexLo(b, c, i, n) == 0)
    ensures LexHi(a, b, i, n) <= 0 && LexHi(b, c, i, n) <= 0 ==>
      LexHi(a, c, i, n) <= 0 && (LexHi(a, c, i, n) == 0 ==> LexHi(a, b, i, n) == 0 && LexHi(b, c, i, n) == 0)
    decreases n - i
  {
    if i < n {
      LexTrans(a, b, c, i + 1, n);
    }
  }

  lemma LexTransitive(a: Cube, b: Cube, c: Cube, n: nat)
    requires Lex(a, b, 0, n) <= 0 && Lex(b, c, 0, n) <= 0
    ensures Lex(a, c, 0, n) <= 0
    ensures Lex(a, c, 0, n) == 0 ==> Lex(a, b, 0, n) == 0 && Lex(b, c, 0, n) == 0
  {
    LexTrans(a, b, c, 0, n);
  }

  // ------------------------------------------- which columns the comparison orders

  /** All boxes with a dimension in dims are ordered. */
  ghost predicate OrdersAll(dims: iset<nat>)
  {
    forall a: Cube, b: Cube, c: Cube :: Ordered(dims, a, b, c)
  }

  predicate Ordered(dims: iset<nat>, a: Cube, b: Cube, c: Cube)
  {
    Dim(a) in dims && Dim(b) in dims && Dim(c) in dims && Cmp(a, b) <= 0 && Cmp(b, c) <= 0 ==> Cmp(a, c) <= 0
  }

  ghost predicate OnlyDim(dims: iset<nat>, d: nat) { forall p :: p in dims && p > 0 ==> p == d }

  /** With dimensions 0 and p only, the comparison is one pass over p dimensions. */
  lemma OnePass(a: Cube, b: Cube, p: nat)
    requires (Dim(a) == 0 || Dim(a) == p) && (Dim(b) == 0 || Dim(b) == p)
    ensures Cmp(a, b) ==
      if Lex(a, b, 0, p) != 0 then Lex(a, b, 0, p) else if Dim(a) > Dim(b) then 1 else if Dim(a) < Dim(b) then -1 else 0
  {
    LexZero(a, b, 0, p);
  }

  lemma CmpTransitive(a: Cube, b: Cube, c: Cube, p: nat)
    requires (Dim(a) == 0 || Dim(a) == p) && (Dim(b) == 0 || Dim(b) == p) && (Dim(c) == 0 || Dim(c) == p)
    requires Cmp(a, b) <= 0 && Cmp(b, c) <= 0
    ensures Cmp(a, c) <= 0
  {
    OnePass(a, b, p);
    OnePass(b, c, p);
    OnePass(a, c, p);
    LexTransitive(a, b, c, p);
  }

  /** A box of dimension n that is zero but for Hi in dimension 0 and Lo in dimension k. */
  function Spike(n: nat, hi: real, k: nat, lo: real): (c: Cube)
    requires n > 0 && hi >= 0.0 && lo <= 0.0
    ensures Dim(c) == n
    ensures forall i: nat :: Lo(c, i) == if i == k && i < n then lo else 0.0
    ensures forall i: nat :: Hi(c, i) == if i == 0 then hi else 0.0
  {
    Box(seq(n, i => if i == k then lo else 0.0), seq(n, i => if i == 0 then hi else 0.0))
  }

  lemma {:induction false} LexLoAt(a: Cube, b: Cube, i: nat, k: nat, n: nat)
    requires i <= k < n && (forall j :: i <= j < k ==> Lo(a, j) == Lo(b, j)) && Lo(a, k) != Lo(b, k)
    ensures LexLo(a, b, i, n) == Sign(Lo(a, k), Lo(b, k))
    decreases k - i
  {
    if i < k {
      LexLoAt(a, b, i + 1, k, n);
    }
  }

  /** Two positive dimensions are enough for the order to fail. */
  lemma MixedDimsFail(p: nat, q: nat) returns (a: Cube, b: Cube, c: Cube)
    requires 0 < p < q
    ensures Dim(a) == q && Dim(b) == q && Dim(c) == p
    ensures Cmp(a, b) < 0 && Cmp(b, c) < 0 && Cmp(a, c) > 0
  {
    a, b, c := Spike(q, 3.0, p, -1.0), Spike(q, 1.0, p, 0.0), Spike(p, 2.0, p, 0.0);
    LexLoAt(a, b, 0, p, q);
    LexZero(b, c, 0, p);
    LexZero(a, c, 0, p);
  }

  /** Boxes of a column are ordered exactly when all but zero-dimensional ones have one
      dimension. */
  lemma OrdersAllIff(dims: iset<nat>)
    ensures OrdersAll(dims) <==> exists d: nat :: OnlyDim(dims, d)
  {
    if d: nat :| OnlyDim(dims, d) {
      forall a: Cube, b: Cube, c: Cube ensures Ordered(dims, a, b, c) {
        if Dim(a) in dims && Dim(b) in dims && Dim(c) in dims && Cmp(a, b) <= 0 && Cmp(b, c) <= 0 {
          CmpTransitive(a, b, c, d);
        }
      }
    } else {
      assert !OnlyDim(dims, 0);
      var p :| p in dims && p > 0;
      assert !OnlyDim(dims, p);
      var q :| q in dims && q > 0 && q != p;
      var a, b, c := MixedDimsFail(if p < q then p else q, if p < q then q else p);
      assert !Ordered(dims, a, b, c);
    }
  }

  /** Even a ring is possible: three boxes each below the next. */
  lemma CmpCycles() returns (a: Cube, b: Cube, c: Cube)
    ensures Cmp(a, b) < 0 && Cmp(b, c) < 0 && Cmp(c, a) < 0
  {
    a, b, c := MixedDimsFail(1, 2);
    CmpFlips(a, c);
  }

  // ------------------------------------------------------------------ enclosing

  /** What an inner key promises of a box below it. */
  predicate Encloses(k: Cube, v: Cube)
  {
    Dim(v) <= Dim(k) && forall i :: 0 <= i < Dim(k) ==> Within(k, v, i)
  }

  lemma UnionEncloses(a: Cube, b: Cube, v: Cube)
    requires Encloses(a, v) || Encloses(b, v)
    ensures Encloses(Union(a, b), v)
  {
    forall i | 0 <= i < MaxDim(a, b) ensures Within(Union(a, b), v, i) {
      assert i < Dim(a) && Encloses(a, v) ==> Within(a, v, i);
      assert i < Dim(b) && Encloses(b, v) ==> Within(b, v, i);
    }
  }

  lemma EnclosesSelf(v: Cube)
    ensures Encloses(v, v)
  {
  }

  /** It is the least: any box around both, of any dimension, is around the union. */
  lemma UnionIsLeast(a: Cube, b: Cube, k: Cube)
    requires Encloses(k, a) && Encloses(k, b)
    ensures Encloses(k, Union(a, b))
  {
    forall i | 0 <= i < Dim(k) ensures Within(k, Union(a, b), i) {
      assert Within(k, a, i) && Within(k, b, i);
    }
  }
}
