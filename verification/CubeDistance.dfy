/** Distances between cubes, and the value g_cube_distance gives an index entry: on an
    inner key it is never above its value on any entry below. */
module CubeDistance {
  import opened CubeBox
  import opened GistTree

  /** distance_1D: the gap between two intervals given by any two ends. */
  function Distance1D(a1: real, a2: real, b1: real, b2: real): real
  {
    if a1 <= b1 && a2 <= b1 && a1 <= b2 && a2 <= b2 then Min(b1, b2) - Max(a1, a2)
    else if a1 > b1 && a2 > b1 && a1 > b2 && a2 > b2 then Min(a1, a2) - Max(b1, b2)
    else 0.0
  }

  function Abs(x: real): real { if x < 0.0 then -x else x }

  /** How far apart a and b are in dimension i. */
  function Gap(a: Cube, b: Cube, i: nat): (g: real)
    ensures g >= 0.0
  {
    Max(0.0, Max(Lo(b, i) - Hi(a, i), Lo(a, i) - Hi(b, i)))
  }

  function End1(c: Cube, i: nat): real { if i < Dim(c) then c.ll[i] else 0.0 }
  function End2(c: Cube, i: nat): real { if i < Dim(c) then c.ur[i] else 0.0 }

  /** distance_1D is the gap, whichever of the boxes comes first. */
  lemma GapIs(a: Cube, b: Cube, i: nat)
    ensures Distance1D(End1(a, i), End2(a, i), End1(b, i), End2(b, i)) == Gap(a, b, i)
    ensures Gap(a, b, i) == Gap(b, a, i)
  {
  }

  // ------------------------------------------------------------------- the sums

  /** Over the first n dimensions: the sum, the sum of squares, and the largest. */
  function Taxi(a: Cube, b: Cube, n: nat): real { if n == 0 then 0.0 else Taxi(a, b, n - 1) + Gap(a, b, n - 1) }

  function Square(a: Cube, b: Cube, n: nat): real
  {
    if n == 0 then 0.0 else Square(a, b, n - 1) + Gap(a, b, n - 1) * Gap(a, b, n - 1)
  }

  function Largest(a: Cube, b: Cube, n: nat): real { if n == 0 then 0.0 else Max(Largest(a, b, n - 1), Gap(a, b, n - 1)) }

  datatype Metric = Taxicab | Euclid | Chebyshev

  function Over(m: Metric, a: Cube, b: Cube, n: nat): real
  {
    match m
    case Taxicab => Taxi(a, b, n)
    case Euclid => Square(a, b, n)
    case Chebyshev => Largest(a, b, n)
  }

  /** The distance; for Euclid its square. */
  function Distance(m: Metric, a: Cube, b: Cube): real { Over(m, a, b, MaxDim(a, b)) }

  /** One more term of distance_taxicab, cube_distance or distance_chebyshev. */
  function Step(m: Metric, sum: real, d: real): real
  {
    match m
    case Taxicab => sum + Abs(d)
    case Euclid => sum + d * d
    case Chebyshev => if Abs(d) > sum then Abs(d) else sum
  }

  lemma StepIs(m: Metric, a: Cube, b: Cube, i: nat, g: real)
    requires g == Gap(a, b, i)
    ensures Step(m, Over(m, a, b, i), g) == Over(m, a, b, i + 1)
  {
  }

  /** The loop of the three distance functions: common dimensions, then the larger box's
      against zero. */
  method DistanceV0(m: Metric, x: Cube, y: Cube) returns (d: real)
    ensures d == Distance(m, x, y)
  {
    var a, b := x, y;
    if Dim(a) < Dim(b) {
      a, b := y, x;
    }
    d := 0.0;
    var i := 0;
    while i < Dim(b)
      invariant 0 <= i <= Dim(b) && d == Over(m, x, y, i)
    {
      var g := Distance1D(a.ll[i], a.ur[i], b.ll[i], b.ur[i]);
      GapIs(a, b, i);
      GapIs(x, y, i);
      StepIs(m, x, y, i, g);
      d := Step(m, d, g);
      i := i + 1;
    }
    while i < Dim(a)
      invariant Dim(b) <= i <= Dim(a) && d == Over(m, x, y, i)
    {
      var g := Distance1D(a.ll[i], a.ur[i], 0.0, 0.0);
      GapIs(a, b, i);
      GapIs(x, y, i);
      StepIs(m, x, y, i, g);
      d := Step(m, d, g);
      i := i + 1;
    }
  }

  // ----------------------------------------------------------------- lower bounds

  lemma SquareMonotone(x: real, y: real)
    requires 0.0 <= x <= y
    ensures x * x <= y * y
  {
    assert y * y == x * x + (y - x) * (y + x);
  }

  lemma {:induction false} OverMonotone(m: Metric, k: Cube, v: Cube, q: Cube, n: nat)
    requires Encloses(k, v)
    ensures Over(m, k, q, n) <= Over(m, v, q, n)
  {
    if n > 0 {
      OverMonotone(m, k, v, q, n - 1);
      GapShrinks(k, v, q, n - 1);
      StepMonotone(m, Over(m, k, q, n - 1), Over(m, v, q, n - 1), Gap(k, q, n - 1), Gap(v, q, n - 1));
      StepIs(m, k, q, n - 1, Gap(k, q, n - 1));
      StepIs(m, v, q, n - 1, Gap(v, q, n - 1));
    }
  }

  lemma StepMonotone(m: Metric, s: real, t: real, g: real, h: real)
    requires s <= t && 0.0 <= g <= h
    ensures Step(m, s, g) <= Step(m, t, h)
  {
    SquareMonotone(g, h);
  }

  lemma GapShrinks(k: Cube, v: Cube, q: Cube, i: nat)
    requires Encloses(k, v)
    ensures Gap(k, q, i) <= Gap(v, q, i)
  {
    if i < Dim(k) {
      assert Within(k, v, i);
    }
  }

  /** Past the dimensions of both boxes nothing is added. */
  lemma {:induction false} OverPast(m: Metric, v: Cube, q: Cube, n: nat)
    requires MaxDim(v, q) <= n
    ensures Over(m, v, q, n) == Distance(m, v, q)
    decreases n
  {
    if n > MaxDim(v, q) {
      OverPast(m, v, q, n - 1);
      assert Gap(v, q, n - 1) == 0.0;
      NotNegative(m, v, q, n - 1);
    }
  }

  lemma {:induction false} NotNegative(m: Metric, a: Cube, b: Cube, n: nat)
    ensures Over(m, a, b, n) >= 0.0
  {
    if n > 0 {
      NotNegative(m, a, b, n - 1);
      SquareMonotone(0.0, Gap(a, b, n - 1));
    }
  }

  /** The distance to a key is never above the distance to a box it encloses. */
  lemma DistanceLowerBound(m: Metric, k: Cube, v: Cube, q: Cube)
    requires Encloses(k, v)
    ensures Distance(m, k, q) <= Distance(m, v, q)
  {
    OverMonotone(m, k, v, q, MaxDim(k, q));
    OverPast(m, v, q, MaxDim(k, q));
  }

  // ----------------------------------------------------------- one coordinate

  /** The coordinate order of g_cube_distance: coordinate 2i+1 is the lower and 2i+2 the
      upper bound of dimension i, a negative one is negated, and an inner key gives the
      end that bounds all entries below. */
  function Coordinate(c: Cube, coord: int, isLeaf: bool): real
    requires coord != 0
  {
    var inverse := coord < 0;
    var n := if inverse then -coord else coord;
    var value :=
      if n <= 2 * Dim(c) then
        var index := (n - 1) / 2;
        var upper := (n - 1) % 2 == 1;
        if isLeaf then (if upper then Hi(c, index) else Lo(c, index))
        else (if inverse then Hi(c, index) else Lo(c, index))
      else 0.0;
    if inverse then -value else value
  }

  lemma CoordinateLowerBound(k: Cube, v: Cube, coord: int)
    requires Encloses(k, v) && coord != 0
    ensures Coordinate(k, coord, false) <= Coordinate(v, coord, true)
    ensures Coordinate(k, coord, false) <= Coordinate(v, coord, false)
  {
    var n := if coord < 0 then -coord else coord;
    if n <= 2 * Dim(k) {
      assert Within(k, v, (n - 1) / 2);
    }
  }

  // ------------------------------------------------------------------- the index

  /** Below every inner key, at any depth, no entry is closer than the key. */
  ghost predicate BoundsBelow(t: Tree<Cube, Cube>, inner: Cube -> real, leaf: Cube -> real)
    decreases t
  {
    t.Inner? ==> forall e :: e in t.entries ==>
      BoundsBelow(e.child, inner, leaf) && forall it :: it in Items(e.child) ==> inner(e.key) <= leaf(it.value)
  }

  function ToQuery(m: Metric, q: Cube): Cube -> real { (c: Cube) => Distance(m, c, q) }

  function ByCoord(coord: int, isLeaf: bool): Cube -> real
    requires coord != 0
  {
    (c: Cube) => Coordinate(c, coord, isLeaf)
  }

  lemma {:induction false} IndexBounds(t: Tree<Cube, Cube>, inner: Cube -> real, leaf: Cube -> real)
    requires Sound(t, Encloses) && forall k: Cube, v: Cube :: Encloses(k, v) ==> inner(k) <= leaf(v)
    ensures BoundsBelow(t, inner, leaf)
    decreases t
  {
    if t.Inner? {
      forall e | e in t.entries
        ensures BoundsBelow(e.child, inner, leaf) && forall it :: it in Items(e.child) ==> inner(e.key) <= leaf(it.value)
      {
        IndexBounds(e.child, inner, leaf);
      }
    }
  }

  /** For all four orders, over any index with sound keys. */
  lemma OrderingsAreLowerBounds(t: Tree<Cube, Cube>, m: Metric, q: Cube, coord: int)
    requires Sound(t, Encloses) && coord != 0
    ensures BoundsBelow(t, ToQuery(m, q), ToQuery(m, q))
    ensures BoundsBelow(t, ByCoord(coord, false), ByCoord(coord, true))
  {
    forall k: Cube, v: Cube | Encloses(k, v) ensures ToQuery(m, q)(k) <= ToQuery(m, q)(v) {
      DistanceLowerBound(m, k, v, q);
    }
    IndexBounds(t, ToQuery(m, q), ToQuery(m, q));
    forall k: Cube, v: Cube | Encloses(k, v) ensures ByCoord(coord, false)(k) <= ByCoord(coord, true)(v) {
      CoordinateLowerBound(k, v, coord);
    }
    IndexBounds(t, ByCoord(coord, false), ByCoord(coord, true));
  }
}
