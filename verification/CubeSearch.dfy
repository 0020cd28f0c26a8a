/** GiST search over cubes: the consistency tests on leaf and inner keys, the scan, and
    the distances that order it. */
module CubeSearch {
  import opened CubeBox
  import opened GistTree

  datatype Strategy = Overlaps | IsSame | ContainsQuery | ContainedByQuery

  /** The operator: value op query; also g_cube_leaf_consistent. */
  predicate Satisfies(v: Cube, q: Cube, op: Strategy)
  {
    match op
    case Overlaps => Overlap(v, q)
    case IsSame => Cmp(v, q) == 0
    case ContainsQuery => Contains(v, q)
    case ContainedByQuery => Contains(q, v)
  }

  /** g_cube_internal_consistent. */
  predicate InnerConsistent(k: Cube, q: Cube, op: Strategy)
  {
    match op
    case Overlaps => Overlap(k, q)
    case IsSame => Contains(k, q)
    case ContainsQuery => Contains(k, q)
    case ContainedByQuery => Overlap(k, q)
  }

  lemma OverlapAt(a: Cube, b: Cube, i: nat)
    requires Overlap(a, b)
    ensures Meets(a, b, i)
  {
    if i < MaxDim(a, b) {
      assert Meets(a, b, i);
    }
  }

  lemma EnclosesAt(k: Cube, v: Cube, i: nat)
    requires Encloses(k, v)
    ensures Within(k, v, i)
  {
    if i < Dim(k) {
      assert Within(k, v, i);
    }
  }

  lemma OverlapKept(k: Cube, v: Cube, q: Cube)
    requires Encloses(k, v) && Overlap(v, q)
    ensures Overlap(k, q)
  {
    forall i | 0 <= i < MaxDim(k, q) ensures Meets(k, q, i) {
      OverlapAt(v, q, i);
      EnclosesAt(k, v, i);
    }
  }

  lemma ContainsKept(k: Cube, v: Cube, q: Cube)
    requires Encloses(k, v) && Contains(v, q)
    ensures Contains(k, q)
  {
    forall i | 0 <= i < Dim(q) ensures Within(k, q, i) {
      assert Within(v, q, i);
      EnclosesAt(k, v, i);
    }
  }

  // --------------------------------------------------------------- contained by

  /** Where the query has dimensions the entry lacks, its interval holds zero.  Always
      so when it has no more dimensions. */
  predicate ZeroInExcess(q: Cube, v: Cube)
  {
    forall i :: Dim(v) <= i < Dim(q) ==> HoldsZero(q, i)
  }

  predicate HoldsZero(q: Cube, i: nat) { Lo(q, i) <= 0.0 <= Hi(q, i) }

  lemma NoExcess(q: Cube, v: Cube)
    requires Dim(q) <= Dim(v)
    ensures ZeroInExcess(q, v)
  {
  }

  lemma LoLeHi(c: Cube, i: nat)
    ensures Lo(c, i) <= Hi(c, i)
  {
  }

  /** An entry within the query is reached under every key that encloses it exactly
      when the query's further dimensions hold zero; otherwise its own box as the key
      prunes it. */
  lemma ContainedByKeptIff(v: Cube, q: Cube)
    requires Contains(q, v)
    ensures (forall k: Cube :: Encloses(k, v) ==> Overlap(k, q)) <==> ZeroInExcess(q, v)
  {
    if ZeroInExcess(q, v) {
      forall k: Cube | Encloses(k, v) ensures Overlap(k, q) {
        ContainedByKept(k, v, q);
      }
    } else {
      var i :| Dim(v) <= i < Dim(q) && !HoldsZero(q, i);
      EnclosesSelf(v);
      assert !Meets(v, q, i);
    }
  }

  lemma ContainedByKept(k: Cube, v: Cube, q: Cube)
    requires Encloses(k, v) && Contains(q, v) && ZeroInExcess(q, v)
    ensures Overlap(k, q)
  {
    forall i | 0 <= i < MaxDim(k, q) ensures Meets(k, q, i) {
      EnclosesAt(k, v, i);
      LoLeHi(v, i);
      if i < Dim(v) {
        assert Within(q, v, i);
      } else if i < Dim(q) {
        assert HoldsZero(q, i);
      }
    }
  }

  // ------------------------------------------------------------------- the scan

  function LeafTest(q: Cube, op: Strategy): Cube -> bool { (v: Cube) => Satisfies(v, q, op) }

  function InnerTest(q: Cube, op: Strategy): Cube -> bool { (k: Cube) => InnerConsistent(k, q, op) }

  /** An entry the scan can be trusted with: any, but for contained-by one whose
      missing dimensions the query does not hold at zero. */
  predicate Answerable(v: Cube, q: Cube, op: Strategy)
  {
    op.ContainedByQuery? && Contains(q, v) ==> ZeroInExcess(q, v)
  }

  function Trusted(q: Cube, op: Strategy): (Cube, Cube) -> bool { (k: Cube, v: Cube) => Encloses(k, v) && Answerable(v, q, op) }

  lemma InnerTestKeeps(k: Cube, v: Cube, q: Cube, op: Strategy)
    requires Encloses(k, v) && Answerable(v, q, op) && Satisfies(v, q, op)
    ensures InnerConsistent(k, q, op)
  {
    match op
    case Overlaps => OverlapKept(k, v, q);
    case IsSame =>
      CmpZeroIffSame(v, q);
      ContainsKept(k, v, q);
    case ContainsQuery => ContainsKept(k, v, q);
    case ContainedByQuery => ContainedByKept(k, v, q);
  }

  /** Pruned search over sound keys returns exactly the matching rows. */
  lemma CubeSearchIsFilter(t: Tree<Cube, Cube>, q: Cube, op: Strategy)
    requires Sound(t, Encloses) && forall it :: it in Items(t) ==> Answerable(it.value, q, op)
    ensures Search(t, LeafTest(q, op), InnerTest(q, op)) == Filter(Items(t), LeafTest(q, op))
  {
    TrustedSound(t, q, op);
    forall k: Cube, v: Cube | Trusted(q, op)(k, v) && LeafTest(q, op)(v) ensures InnerTest(q, op)(k) {
      InnerTestKeeps(k, v, q, op);
    }
    SearchIsFilter(t, Trusted(q, op), LeafTest(q, op), InnerTest(q, op), LeafTest(q, op));
  }

  lemma {:induction false} TrustedSound(t: Tree<Cube, Cube>, q: Cube, op: Strategy)
    requires Sound(t, Encloses) && forall it :: it in Items(t) ==> Answerable(it.value, q, op)
    ensures Sound(t, Trusted(q, op))
    decreases t
  {
    if t.Inner? {
      forall e | e in t.entries ensures Sound(e.child, Trusted(q, op)) && CoversItems(e, Trusted(q, op)) {
        EntryItemsIn(t.entries, e);
        TrustedSound(e.child, q, op);
      }
    }
  }

  /** For the other three operators there is nothing to ask of the entries. */
  lemma OtherOperatorsExact(t: Tree<Cube, Cube>, q: Cube, op: Strategy)
    requires Sound(t, Encloses) && !op.ContainedByQuery?
    ensures Search(t, LeafTest(q, op), InnerTest(q, op)) == Filter(Items(t), LeafTest(q, op))
  {
    CubeSearchIsFilter(t, q, op);
  }

  /** A contained entry that the scan does not return. */
  lemma ContainedByLoses() returns (t: Tree<Cube, Cube>, q: Cube)
    ensures Sound(t, Encloses)
    ensures Filter(Items(t), LeafTest(q, ContainedByQuery)) == [7] && Search(t, LeafTest(q, ContainedByQuery), InnerTest(q, ContainedByQuery)) == []
  {
    hide Search, Filter, Items;
    var v: Cube := Box([1.0], [1.0]);
    q := Box([0.0, 5.0], [2.0, 6.0]);
    t := OneRow(v, 7, LeafTest(q, ContainedByQuery), InnerTest(q, ContainedByQuery));
    assert Within(q, v, 0) && !Meets(v, q, 1);
  }

  /** A tree of one row under a key that is the row itself. */
  lemma OneRow(v: Cube, row: nat, leafTest: Cube -> bool, innerTest: Cube -> bool) returns (t: Tree<Cube, Cube>)
    ensures Sound(t, Encloses) && Filter(Items(t), leafTest) == (if leafTest(v) then [row] else [])
    ensures !innerTest(v) ==> Search(t, leafTest, innerTest) == []
  {
    hide Encloses;
    var leaf: Tree<Cube, Cube> := Leaf([Item(v, row)]);
    var e: Entry<Cube, Cube> := Entry(v, leaf);
    t := Inner([e]);
    EnclosesSelf(v);
    assert [e][1..] == [] && [Item(v, row)][1..] == [];
    assert Items(leaf) == [Item(v, row)] && EntryItems([e]) == Items(leaf) + EntryItems([e][1..]);
    assert Items(t) == [Item(v, row)] && Filter([Item(v, row)][1..], leafTest) == [];
    assert SearchEntries([e][1..], leafTest, innerTest) == [];
  }

  // -------------------------------------------------------- where keys come from

  /** g_cube_union: the boxes of a page one after the other. */
  function UnionOf(k: Cube, ks: seq<Cube>): Cube
  {
    if ks == [] then k else Union(UnionOf(k, ks[..|ks| - 1]), ks[|ks| - 1])
  }

  lemma {:induction false} UnionOfFirst(k: Cube, ks: seq<Cube>, v: Cube)
    requires Encloses(k, v)
    ensures Encloses(UnionOf(k, ks), v)
  {
    if ks != [] {
      UnionOfFirst(k, ks[..|ks| - 1], v);
      UnionEncloses(UnionOf(k, ks[..|ks| - 1]), ks[|ks| - 1], v);
    }
  }

  lemma {:induction false} UnionOfOther(k: Cube, ks: seq<Cube>, v: Cube, i: nat)
    requires i < |ks| && Encloses(ks[i], v)
    ensures Encloses(UnionOf(k, ks), v)
  {
    var n := |ks| - 1;
    if i < n {
      UnionOfOther(k, ks[..n], v, i);
    }
    UnionEncloses(UnionOf(k, ks[..n]), ks[n], v);
  }

  function KeyOf(v: Cube): Cube { v }

  lemma UnionKeysEnclose(t: Tree<Cube, Cube>)
    requires KeyedByUnion(t, KeyOf, UnionOf)
    ensures Sound(t, Encloses)
  {
    forall v: Cube ensures Encloses(KeyOf(v), v) {
      EnclosesSelf(v);
    }
    forall k: Cube, ks: seq<Cube>, v: Cube | Encloses(k, v) ensures Encloses(UnionOf(k, ks), v) {
      UnionOfFirst(k, ks, v);
    }
    forall k: Cube, ks: seq<Cube>, v: Cube, i | 0 <= i < |ks| && Encloses(ks[i], v) ensures Encloses(UnionOf(k, ks), v) {
      UnionOfOther(k, ks, v, i);
    }
    UnionKeysAreSound(t, Encloses, KeyOf, UnionOf);
  }
}
