/** Boxes as sets of points: a point has a coordinate in every dimension, and a box holds
    zero alone in the dimensions it lacks. */
module CubePoints {
  import opened CubeBox
  import opened CubeSearch
  import opened CubeDistance

  type Point = nat -> real

  ghost predicate In(x: Point, c: Cube) { forall i: nat :: InAt(x, c, i) }

  predicate InAt(x: Point, c: Cube, i: nat) { Lo(c, i) <= x(i) <= Hi(c, i) }

  function LowCorner(c: Cube): Point { (i: nat) => Lo(c, i) }
  function HighCorner(c: Cube): Point { (i: nat) => Hi(c, i) }

  lemma CornersIn(c: Cube)
    ensures In(LowCorner(c), c) && In(HighCorner(c), c)
  {
  }

  // --------------------------------------------------------------- the operators

  ghost predicate Both(x: Point, a: Cube, b: Cube) { In(x, a) && In(x, b) }

  /** Boxes overlap exactly when they share a point. */
  lemma OverlapIff(a: Cube, b: Cube)
    ensures Overlap(a, b) <==> exists x: Point :: Both(x, a, b)
  {
    if Overlap(a, b) {
      var x: Point := (i: nat) => Max(Lo(a, i), Lo(b, i));
      forall i: nat ensures InAt(x, a, i) && InAt(x, b, i) {
        OverlapAt(a, b, i);
      }
      assert Both(x, a, b);
    }
    if x: Point :| Both(x, a, b) {
      forall i | 0 <= i < MaxDim(a, b) ensures Meets(a, b, i) {
        assert InAt(x, a, i) && InAt(x, b, i);
      }
    }
  }

  ghost predicate Inside(v: Cube, k: Cube) { forall x: Point :: In(x, v) ==> In(x, k) }

  /** A key encloses a box exactly when it has its dimensions and all its points. */
  lemma EnclosesIff(k: Cube, v: Cube)
    ensures Encloses(k, v) <==> Dim(v) <= Dim(k) && Inside(v, k)
  {
    if Encloses(k, v) {
      forall x: Point | In(x, v) ensures In(x, k) {
        forall i: nat ensures InAt(x, k, i) {
          assert InAt(x, v, i);
          EnclosesAt(k, v, i);
        }
      }
    }
    if Dim(v) <= Dim(k) && Inside(v, k) {
      CornersIn(v);
      forall i | 0 <= i < Dim(k) ensures Within(k, v, i) {
        assert InAt(LowCorner(v), k, i) && InAt(HighCorner(v), k, i);
      }
    }
  }

  /** y agrees with x in the first n coordinates. */
  predicate Agree(x: Point, y: Point, n: nat) { forall i :: 0 <= i < n ==> x(i) == y(i) }

  ghost predicate Shadows(a: Cube, x: Point, n: nat) { exists y: Point :: In(y, a) && Agree(x, y, n) }

  /** One box contains another exactly when, as far as the other's dimensions go, it has
      all its points. */
  lemma ContainsIff(a: Cube, b: Cube)
    ensures Contains(a, b) <==> forall x: Point :: In(x, b) ==> Shadows(a, x, Dim(b))
  {
    if Contains(a, b) {
      forall x: Point | In(x, b) ensures Shadows(a, x, Dim(b)) {
        var y: Point := (i: nat) => if i < Dim(b) then x(i) else Lo(a, i);
        forall i: nat ensures InAt(y, a, i) {
          assert InAt(x, b, i);
          assert i < Dim(b) ==> Within(a, b, i);
        }
        assert In(y, a) && Agree(x, y, Dim(b));
      }
    }
    if forall x: Point :: In(x, b) ==> Shadows(a, x, Dim(b)) {
      CornersIn(b);
      forall i | 0 <= i < Dim(b) ensures Within(a, b, i) {
        ShadowAt(a, LowCorner(b), Dim(b), i);
        ShadowAt(a, HighCorner(b), Dim(b), i);
      }
    }
  }

  lemma ShadowAt(a: Cube, x: Point, n: nat, i: nat)
    requires Shadows(a, x, n) && i < n
    ensures Lo(a, i) <= x(i) <= Hi(a, i)
  {
    var y: Point :| In(y, a) && Agree(x, y, n);
    assert InAt(y, a, i);
  }

  // ---------------------------------------------------------------- inner tests

  ghost predicate Hides(k: Cube, q: Cube, op: Strategy, v: Cube) { Encloses(k, v) && Satisfies(v, q, op) }

  /** For overlap and containment an inner key is followed exactly when some box it could
      hold matches. */
  lemma FollowedIff(k: Cube, q: Cube, op: Strategy)
    requires op.Overlaps? || op.ContainsQuery?
    ensures InnerConsistent(k, q, op) <==> exists v: Cube :: Hides(k, q, op, v)
  {
    if InnerConsistent(k, q, op) {
      EnclosesSelf(k);
      assert Hides(k, q, op, k);
    }
    if v: Cube :| Hides(k, q, op, v) {
      match op
      case Overlaps => OverlapKept(k, v, q);
      case ContainsQuery => ContainsKept(k, v, q);
    }
  }

  /** For the same box, when it could hold the query as far as its dimensions go; for
      contained boxes, when it shares a point with the query. */
  lemma FollowedForSame(k: Cube, q: Cube)
    ensures InnerConsistent(k, q, IsSame) <==> forall x: Point :: In(x, q) ==> Shadows(k, x, Dim(q))
    ensures InnerConsistent(k, q, ContainedByQuery) <==> exists x: Point :: Both(x, k, q)
  {
    ContainsIff(k, q);
    OverlapIff(k, q);
  }

  // ------------------------------------------------------------------ distances

  function Sum(xs: seq<real>): real { if xs == [] then 0.0 else xs[0] + Sum(xs[1..]) }

  /** The gaps in the first n dimensions. */
  function Gaps(a: Cube, b: Cube, n: nat): (g: seq<real>)
    ensures |g| == n
  {
    seq(n, i requires 0 <= i < n => Gap(a, b, i))
  }

  function Squared(x: real): real { x * x }

  function Squares(xs: seq<real>): (s: seq<real>)
    ensures |s| == |xs|
  {
    seq(|xs|, i requires 0 <= i < |xs| => Squared(xs[i]))
  }

  predicate IsLargest(m: real, xs: seq<real>)
  {
    (forall i :: 0 <= i < |xs| ==> xs[i] <= m) && (m == 0.0 || m in xs)
  }

  lemma {:induction false} SumSnoc(xs: seq<real>, x: real)
    ensures Sum(xs + [x]) == Sum(xs) + x
  {
    if xs == [] {
      assert xs + [x] == [x];
    } else {
      SumSnoc(xs[1..], x);
      assert (xs + [x])[1..] == xs[1..] + [x];
    }
  }

  lemma GapsGrow(a: Cube, b: Cube, n: nat)
    requires n > 0
    ensures Gaps(a, b, n) == Gaps(a, b, n - 1) + [Gap(a, b, n - 1)]
  {
  }

  lemma SquaresGrow(xs: seq<real>, x: real)
    ensures Squares(xs + [x]) == Squares(xs) + [Squared(x)]
  {
    hide Squared;
  }

  lemma {:induction false} TaxiIs(a: Cube, b: Cube, n: nat)
    ensures Taxi(a, b, n) == Sum(Gaps(a, b, n))
  {
    if n > 0 {
      TaxiIs(a, b, n - 1);
      GapsGrow(a, b, n);
      SumSnoc(Gaps(a, b, n - 1), Gap(a, b, n - 1));
    }
  }

  lemma {:induction false} SquareIs(a: Cube, b: Cube, n: nat)
    ensures Square(a, b, n) == Sum(Squares(Gaps(a, b, n)))
  {
    if n > 0 {
      SquareIs(a, b, n - 1);
      var g, gs := Gap(a, b, n - 1), Gaps(a, b, n - 1);
      assert Square(a, b, n) == Square(a, b, n - 1) + Squared(g);
      hide Sum, Squares, Squared, Gap;
      GapsGrow(a, b, n);
      SquaresGrow(gs, g);
      SumSnoc(Squares(gs), Squared(g));
    }
  }

  lemma {:induction false} LargestIs(a: Cube, b: Cube, n: nat)
    ensures IsLargest(Largest(a, b, n), Gaps(a, b, n))
  {
    if n > 0 {
      LargestIs(a, b, n - 1);
      LargestGrows(a, b, n);
    }
  }

  lemma LargestGrows(a: Cube, b: Cube, n: nat)
    requires n > 0
    ensures IsLargest(Largest(a, b, n - 1), Gaps(a, b, n - 1)) ==> IsLargest(Largest(a, b, n), Gaps(a, b, n))
  {
    var gs, more := Gaps(a, b, n - 1), Gaps(a, b, n);
    assert more == gs + [Gap(a, b, n - 1)];
    assert more[n - 1] == Gap(a, b, n - 1);
  }

  /** Taxicab distance is the sum of the gaps between the boxes, Chebyshev distance the
      largest of them, and the square of the Euclidean distance the sum of squares. */
  lemma DistanceIs(m: Metric, a: Cube, b: Cube)
    ensures var gs := Gaps(a, b, MaxDim(a, b));
      match m
      case Taxicab => Distance(m, a, b) == Sum(gs)
      case Euclid => Distance(m, a, b) == Sum(Squares(gs))
      case Chebyshev => IsLargest(Distance(m, a, b), gs)
  {
    TaxiIs(a, b, MaxDim(a, b));
    SquareIs(a, b, MaxDim(a, b));
    LargestIs(a, b, MaxDim(a, b));
  }

  /** Points of the two boxes that are as far apart as the boxes in every dimension. */
  lemma NearestPoints(a: Cube, b: Cube) returns (x: Point, y: Point)
    ensures In(x, a) && In(y, b) && forall i: nat :: Abs(x(i) - y(i)) == Gap(a, b, i)
  {
    x := (i: nat) => Max(Lo(a, i), Min(Hi(a, i), Lo(b, i)));
    y := (i: nat) => Max(Lo(b, i), Min(Hi(b, i), Max(Lo(a, i), Min(Hi(a, i), Lo(b, i)))));
  }

  /** And no two of their points are closer in any. */
  lemma NoneNearer(a: Cube, b: Cube, x: Point, y: Point, i: nat)
    requires In(x, a) && In(y, b)
    ensures Gap(a, b, i) <= Abs(x(i) - y(i))
  {
    assert InAt(x, a, i) && InAt(y, b, i);
  }

  // ----------------------------------------------------------------- coordinates

  /** What an entry is ordered by: coordinate 2i + 1 is the lower and 2i + 2 the upper
      bound of dimension i, a negative number asks for the opposite order. */
  lemma LeafCoordinate(c: Cube, i: nat)
    ensures Coordinate(c, 2 * i + 1, true) == Lo(c, i) && Coordinate(c, 2 * i + 2, true) == Hi(c, i)
    ensures Coordinate(c, -(2 * i + 1), true) == -Lo(c, i) && Coordinate(c, -(2 * i + 2), true) == -Hi(c, i)
  {
  }

  function Corner(n: nat, x: Point): (c: Cube)
    ensures Dim(c) == n && forall i: nat :: Lo(c, i) == Hi(c, i) == if i < n then x(i) else 0.0
  {
    Box(seq(n, i requires 0 <= i < n => x(i)), seq(n, i requires 0 <= i < n => x(i)))
  }

  /** A key's own value is the best possible: some box it encloses has it. */
  lemma InnerCoordinateTight(k: Cube, coord: int) returns (v: Cube)
    requires coord != 0
    ensures Encloses(k, v) && Coordinate(v, coord, true) == Coordinate(k, coord, false)
  {
    v := Corner(Dim(k), if coord < 0 then HighCorner(k) else LowCorner(k));
    forall i | 0 <= i < Dim(k) ensures Within(k, v, i) {
    }
  }
}
