/** Cube indexes as inserts and page splits build them. */
module CubeBuild {
  import opened CubeBox
  import opened CubeSearch
  import opened CubeSplit
  import opened GistTree
  import opened GistBuild

  function Widened(k: Cube, v: Cube): Cube { Union(k, v) }

  /** Offsets counted from 0. */
  function FromZero(offs: seq<nat>): (r: seq<nat>)
    requires forall i :: 0 <= i < |offs| ==> offs[i] > 0
    ensures |r| == |offs| && forall i :: 0 <= i < |offs| ==> r[i] == offs[i] - 1
  {
    seq(|offs|, i requires 0 <= i < |offs| => offs[i] - 1)
  }

  predicate Positive(offs: seq<nat>) { forall i :: 0 <= i < |offs| ==> offs[i] > 0 }

  /** A division of the page by g_cube_picksplit. */
  ghost predicate SplitFits(page: Tree<Cube, Cube>, d: Division<Cube>)
  {
    exists left, right :: IsPicked(PageKeys(page, KeyOf), left, right, d)
  }

  ghost predicate IsPicked(ks: seq<Cube>, left: seq<nat>, right: seq<nat>, d: Division<Cube>)
  {
    && Partition(left, right, |ks|) && Positive(left) && Positive(right)
    && d.left == FromZero(left) && d.right == FromZero(right)
    && CoversSide(d.lkey, ks, left) && CoversSide(d.rkey, ks, right)
  }

  lemma PartitionDeals(left: seq<nat>, right: seq<nat>, n: nat)
    requires Partition(left, right, n) && Positive(left) && Positive(right)
    ensures Deals(FromZero(left) + FromZero(right), n)
  {
    var all := FromZero(left) + FromZero(right);
    forall i | 0 <= i < |all| ensures all[i] < n {
      assert if i < |left| then left[i] in left else right[i - |left|] in right;
    }
    forall i, j | 0 <= i < j < |all| ensures all[i] != all[j] {
      if i < |left| <= j {
        assert left[i] in left && right[j - |left|] in right;
      }
    }
    forall i | 0 <= i < n ensures i in all {
      assert i + 1 in left || i + 1 in right;
      if i + 1 in left {
        var k :| 0 <= k < |left| && left[k] == i + 1;
        assert all[k] == i;
      } else {
        var k :| 0 <= k < |right| && right[k] == i + 1;
        assert all[|left| + k] == i;
      }
    }
    AtMost(all, n);
    AtLeast(all, n);
  }

  lemma SideCovers(ks: seq<Cube>, side: seq<nat>, key: Cube)
    requires Positive(side) && CoversSide(key, ks, side)
    ensures KeysCover(ks, FromZero(side), key, Encloses)
  {
    var offs := FromZero(side);
    forall i, v | 0 <= i < |offs| && offs[i] < |ks| && Encloses(ks[offs[i]], v) ensures Encloses(key, v) {
      assert side[i] in side;
      EnclosesTrans(key, ks[offs[i]], v);
    }
  }

  lemma EnclosesTrans(a: Cube, b: Cube, c: Cube)
    requires Encloses(a, b) && Encloses(b, c)
    ensures Encloses(a, c)
  {
    forall i | 0 <= i < Dim(a) ensures Within(a, c, i) {
      EnclosesAt(a, b, i);
      EnclosesAt(b, c, i);
    }
  }

  lemma SplitIsCovering(page: Tree<Cube, Cube>, d: Division<Cube>)
    requires Sound(page, Encloses) && SplitFits(page, d)
    ensures CoveringDivision(page, d, Encloses)
  {
    var ks := PageKeys(page, KeyOf);
    var left, right :| IsPicked(ks, left, right, d);
    PartitionDeals(left, right, |ks|);
    SideCovers(ks, left, d.lkey);
    SideCovers(ks, right, d.rkey);
    forall v: Cube ensures Encloses(KeyOf(v), v) {
      EnclosesSelf(v);
    }
    DivisionCovers(page, d, Encloses, KeyOf);
  }

  lemma UnionWidens()
    ensures Widens(Encloses, Widened)
  {
    forall k: Cube, v: Cube ensures Encloses(Widened(k, v), v) {
      EnclosesSelf(v);
      UnionEncloses(k, v, v);
    }
    forall k: Cube, v: Cube, w: Cube | Encloses(k, w) ensures Encloses(Widened(k, v), w) {
      UnionEncloses(k, v, w);
    }
  }

  /** Every index that inserts and splits build, in any order and along any paths, has
      enclosing keys and holds what was inserted; so overlap, same and contains are
      answered exactly, and the others as far as enclosing keys allow. */
  lemma BuiltEncloses(steps: seq<Step<Cube, Cube>>)
    requires Builds(Leaf([]), steps, Widened, SplitFits)
    ensures var t := Built(Leaf([]), steps, Widened, SplitFits);
      Sound(t, Encloses) && multiset(Items(t)) == Inserted(steps)
  {
    UnionWidens();
    forall page: Tree<Cube, Cube>, d: Division<Cube> | Sound(page, Encloses) && SplitFits(page, d)
      ensures CoveringDivision(page, d, Encloses)
    {
      SplitIsCovering(page, d);
    }
    var empty: Tree<Cube, Cube> := Leaf([]);
    BuiltIsSound(empty, steps, Encloses, Widened, SplitFits);
  }

  lemma BuiltAnswersExactly(steps: seq<Step<Cube, Cube>>, q: Cube, op: Strategy)
    requires Builds(Leaf([]), steps, Widened, SplitFits)
    requires forall it :: it in Inserted(steps) ==> Answerable(it.value, q, op)
    ensures var t := Built(Leaf([]), steps, Widened, SplitFits);
      Search(t, LeafTest(q, op), InnerTest(q, op)) == Filter(Items(t), LeafTest(q, op))
  {
    BuiltEncloses(steps);
    var t := Built(Leaf([]), steps, Widened, SplitFits);
    forall it | it in Items(t) ensures Answerable(it.value, q, op) {
      assert it in multiset(Items(t));
    }
    CubeSearchIsFilter(t, q, op);
  }
}
