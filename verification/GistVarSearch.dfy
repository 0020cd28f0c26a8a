/** Search in a btree_gist index on bytea: the consistency test, descent that
    prunes with it, and inserts that adjust the keys on the way down. */
module GistVarSearch {
  import opened BtreeStrategy
  import opened LexOrder
  import opened GistVarKey
  import opened GistTree

  /** The SQL operator: value op query. */
  predicate Satisfies(v: seq<int>, op: Strategy, query: seq<int>)
  {
    match op
    case LessThan => Lt(v, query)
    case LessEqual => Le(v, query)
    case Equal => v == query
    case GreaterEqual => Le(query, v)
    case GreaterThan => Lt(query, v)
    case NotEqual => v != query
  }

  predicate PrefixMatch(k: VarKey, query: seq<int>)
  {
    IsPrefix(Lower(k), query) || IsPrefix(Upper(k), query)
  }

  predicate Consistent(k: VarKey, query: seq<int>, op: Strategy, isLeaf: bool)
  {
    match op
    case LessEqual =>
      if isLeaf then Compare(query, Lower(k)) >= 0
      else Compare(query, Lower(k)) >= 0 || PrefixMatch(k, query)
    case LessThan =>
      if isLeaf then Compare(query, Lower(k)) > 0
      else Compare(query, Lower(k)) >= 0 || PrefixMatch(k, query)
    case Equal =>
      if isLeaf then query == Lower(k)
      else (Compare(Lower(k), query) <= 0 && Compare(query, Upper(k)) <= 0) || PrefixMatch(k, query)
    case GreaterThan =>
      if isLeaf then Compare(query, Upper(k)) < 0
      else Compare(query, Upper(k)) <= 0 || PrefixMatch(k, query)
    case GreaterEqual =>
      if isLeaf then Compare(query, Upper(k)) <= 0
      else Compare(query, Upper(k)) <= 0 || PrefixMatch(k, query)
    case NotEqual => !(query == Lower(k) && query == Upper(k))
  }

  /** On a leaf entry the test is the operator itself. */
  lemma LeafTestIsExact(v: seq<int>, query: seq<int>, op: Strategy)
    ensures Consistent(LeafKey(v), query, op, true) <==> Satisfies(v, op, query)
  {
    CompareFlips(query, v);
  }

  /** An inner key that covers a matching value is never pruned. */
  lemma InnerTestKeepsMatches(k: VarKey, v: seq<int>, query: seq<int>, op: Strategy)
    requires Covers(k, v) && Satisfies(v, op, query)
    ensures Consistent(k, query, op, false)
  {
    match op
    case LessThan =>
      LeTrans(Lower(k), v, query);
      CompareFlips(query, Lower(k));
    case LessEqual =>
      LeTrans(Lower(k), v, query);
      CompareFlips(query, Lower(k));
    case Equal =>
    case GreaterEqual => AtOrAbove(k, v, query);
    case GreaterThan => AtOrAbove(k, v, query);
    case NotEqual =>
      if Lower(k) == Upper(k) {
        CommonPrefixIs(Lower(k), Upper(k), |Upper(k)|);
        CompareFlips(v, Upper(k));
        CompareZero(v, Upper(k));
      }
  }

  lemma AtOrAbove(k: VarKey, v: seq<int>, query: seq<int>)
    requires Covers(k, v) && Le(query, v)
    ensures Le(query, Upper(k)) || IsPrefix(Upper(k), query)
  {
    if Le(v, Upper(k)) {
      LeTrans(query, v, Upper(k));
    } else if !Le(query, Upper(k)) {
      CompareFlips(query, Upper(k));
      PrefixSqueezes(Upper(k), query, v);
    }
  }

  // ---------------------------------------------------------------- the index

  function LeafTest(query: seq<int>, op: Strategy): seq<int> -> bool { v => Consistent(LeafKey(v), query, op, true) }

  function InnerTest(query: seq<int>, op: Strategy): VarKey -> bool { k => Consistent(k, query, op, false) }

  function Matches(query: seq<int>, op: Strategy): seq<int> -> bool { v => Satisfies(v, op, query) }

  function KeyOf(v: seq<int>): VarKey { LeafKey(v) }

  function UnionOf(k: VarKey, ks: seq<VarKey>): VarKey { UnionKey([k] + ks) }

  /** An insert widens a key by the union with the new leaf key. */
  function Widened(k: VarKey, v: seq<int>): VarKey { UnionKey([k, LeafKey(v)]) }

  /** Pruned search returns exactly the matching rows, in order, for all six operators
      and any depth. */
  lemma VarSearchIsFilter(t: Tree<VarKey, seq<int>>, query: seq<int>, op: Strategy)
    requires Sound(t, Covers)
    ensures Search(t, LeafTest(query, op), InnerTest(query, op)) == Filter(Items(t), Matches(query, op))
  {
    forall v ensures LeafTest(query, op)(v) == Matches(query, op)(v) {
      LeafTestIsExact(v, query, op);
    }
    forall k, v | Covers(k, v) && Matches(query, op)(v) ensures InnerTest(query, op)(k) {
      InnerTestKeepsMatches(k, v, query, op);
    }
    SearchIsFilter(t, Covers, LeafTest(query, op), InnerTest(query, op), Matches(query, op));
  }

  lemma UnionOfCovers()
    ensures GistTree.UnionCovers(Covers, KeyOf, UnionOf)
  {
    forall v: seq<int> ensures Covers(KeyOf(v), v) {
      LeafCovers(v);
    }
    forall k: VarKey, ks: seq<VarKey>, v: seq<int> | Covers(k, v) ensures Covers(UnionOf(k, ks), v) {
      GistVarKey.UnionCovers([k] + ks, 0, v);
    }
    forall k: VarKey, ks: seq<VarKey>, v: seq<int>, i | 0 <= i < |ks| && Covers(ks[i], v) ensures Covers(UnionOf(k, ks), v) {
      GistVarKey.UnionCovers([k] + ks, i + 1, v);
    }
  }

  /** A tree whose inner keys were made by gbt_var_union answers every query exactly. */
  lemma UnionKeysAnswerExactly(t: Tree<VarKey, seq<int>>, query: seq<int>, op: Strategy)
    requires KeyedByUnion(t, KeyOf, UnionOf)
    ensures Search(t, LeafTest(query, op), InnerTest(query, op)) == Filter(Items(t), Matches(query, op))
  {
    UnionOfCovers();
    UnionKeysAreSound(t, Covers, KeyOf, UnionOf);
    VarSearchIsFilter(t, query, op);
  }

  /** Widening a key by union covers the new value and whatever the key covered. */
  lemma WidenedCovers(k: VarKey, v: seq<int>, w: seq<int>)
    ensures Covers(Widened(k, v), v)
    ensures Covers(k, w) ==> Covers(Widened(k, v), w)
  {
    var keys := [k, LeafKey(v)];
    LeafCovers(v);
    GistVarKey.UnionCovers(keys, 1, v);
    if Covers(k, w) {
      GistVarKey.UnionCovers(keys, 0, w);
    }
  }
}
