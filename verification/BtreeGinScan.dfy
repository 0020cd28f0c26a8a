/** Range queries over a GIN index that holds scalar keys (btree_gin): where the scan
    starts, and when each key makes it match, go on or stop. */
module BtreeGinScan {
  import opened Optional

  datatype Strategy = Less | LessEqual | Equal | GreaterEqual | Greater

  predicate Satisfies(key: int, op: Strategy, query: int)
  {
    match op
    case Less => key < query
    case LessEqual => key <= query
    case Equal => key == query
    case GreaterEqual => key >= query
    case Greater => key > query
  }

  datatype Verdict = Match | GoOn | Stop

  /** gin_btree_compare_prefix: cmp is the query against the key. */
  function ComparePrefix(op: Strategy, query: int, key: int): Verdict
  {
    match op
    case Less => if query > key then Match else Stop
    case LessEqual => if query >= key then Match else Stop
    case Equal => if query == key then Match else Stop
    case GreaterEqual => if query <= key then Match else GoOn
    case Greater => if query < key then Match else GoOn
  }

  /** A key matches exactly when it satisfies the operator; the scan stops at one that does
      not exactly when no later key can, and for equality at every one. */
  lemma VerdictIs(op: Strategy, query: int, key: int)
    ensures ComparePrefix(op, query, key) == Match <==> Satisfies(key, op, query)
    ensures !op.Equal? ==> (ComparePrefix(op, query, key) == Stop <==> forall k :: k >= key ==> !Satisfies(k, op, query))
    ensures op.Equal? ==> (ComparePrefix(op, query, key) == Stop <==> key != query)
  {
    assert Satisfies(query + 1, Greater, query) && Satisfies(query, GreaterEqual, query);
  }

  /** What gin_btree_extract_query reports: the entry to start from, and whether to go
      on from there by partial match. */
  datatype Query = Query(entry: int, partial: bool)

  function ExtractQuery(op: Strategy, query: int, leftmost: int, convert: Option<int -> int>): Query
  {
    match op
    case Less => Query(leftmost, true)
    case LessEqual => Query(leftmost, true)
    case Equal => if convert.Some? then Query(convert.value(query), true) else Query(query, false)
    case _ => Query(if convert.Some? then convert.value(query) else query, true)
  }

  predicate Ascending(keys: seq<int>) { forall i, j :: 0 <= i < j < |keys| ==> keys[i] < keys[j] }

  /** The keys the operator selects, without an index. */
  function Filter(keys: seq<int>, op: Strategy, query: int): seq<int>
  {
    if keys == [] then []
    else
      var n := |keys| - 1;
      Filter(keys[..n], op, query) + if Satisfies(keys[n], op, query) then [keys[n]] else []
  }

  /** They are the keys that satisfy it, in order. */
  lemma {:induction false} FilterIs(keys: seq<int>, op: Strategy, query: int)
    requires Ascending(keys)
    ensures Ascending(Filter(keys, op, query))
    ensures forall k :: k in Filter(keys, op, query) <==> k in keys && Satisfies(k, op, query)
  {
    if keys != [] {
      var n := |keys| - 1;
      FilterIs(keys[..n], op, query);
      var part := Filter(keys[..n], op, query);
      assert keys == keys[..n] + [keys[n]];
      forall i | 0 <= i < |part| ensures part[i] < keys[n] {
        assert part[i] in part && part[i] in keys[..n];
      }
    }
  }

  /** The converted entry serves the query: it skips no key that satisfies the operator,
      and for equality it is exact whenever the query value is a key. */
  predicate Serves(keys: seq<int>, op: Strategy, query: int, q: Query)
  {
    && (forall k :: k in keys && Satisfies(k, op, query) ==> q.entry <= k)
    && (op.Equal? && (query in keys || !q.partial) ==> q.entry == query)
  }

  /** GIN's scan: from the first key at or after the entry, obey the verdicts. */
  method Scan(keys: seq<int>, op: Strategy, query: int, q: Query) returns (found: seq<int>)
    requires Ascending(keys) && (q.partial || op.Equal?)
    ensures Serves(keys, op, query, q) ==> found == Filter(keys, op, query)
  {
    hide Serves;
    var i := 0;
    while i < |keys| && keys[i] < q.entry
      invariant 0 <= i <= |keys| && forall k :: 0 <= k < i ==> keys[k] < q.entry
    {
      i := i + 1;
    }
    if !q.partial {
      found := if i < |keys| && keys[i] == q.entry then [q.entry] else [];
      ExactMatch(keys, op, query, q, i);
      return;
    }
    Skipped(keys, op, query, q, i);
    found := [];
    while i < |keys|
      invariant 0 <= i <= |keys|
      invariant Serves(keys, op, query, q) ==> found == Filter(keys[..i], op, query)
      invariant forall k :: i <= k < |keys| ==> q.entry <= keys[k]
      invariant op.Equal? && i > 0 && keys[i - 1] >= q.entry ==> keys[i - 1] == query
    {
      match ComparePrefix(op, query, keys[i]) {
        case Match => found := found + [keys[i]];
        case GoOn =>
        case Stop =>
          NoneAfter(keys, op, query, q, i);
          return;
      }
      assert keys[..i + 1][..i] == keys[..i];
      i := i + 1;
    }
    assert keys[..i] == keys;
  }

  lemma {:induction false} FilterNothing(keys: seq<int>, op: Strategy, query: int, a: nat, b: nat)
    requires a <= b <= |keys| && forall k :: a <= k < b ==> !Satisfies(keys[k], op, query)
    ensures Filter(keys[..b], op, query) == Filter(keys[..a], op, query)
    decreases b
  {
    if a < b {
      assert keys[..b][..b - 1] == keys[..b - 1];
      FilterNothing(keys, op, query, a, b - 1);
    }
  }

  lemma Skipped(keys: seq<int>, op: Strategy, query: int, q: Query, i: nat)
    requires i <= |keys| && forall k :: 0 <= k < i ==> keys[k] < q.entry
    ensures Serves(keys, op, query, q) ==> Filter(keys[..i], op, query) == []
  {
    if Serves(keys, op, query, q) {
      FilterNothing(keys, op, query, 0, i);
    }
  }

  /** A verdict to stop is right: no later key satisfies the operator. */
  lemma NoneAfter(keys: seq<int>, op: Strategy, query: int, q: Query, i: nat)
    requires Ascending(keys) && i < |keys| && ComparePrefix(op, query, keys[i]) == Stop && q.entry <= keys[i]
    requires op.Equal? && i > 0 && keys[i - 1] >= q.entry ==> keys[i - 1] == query
    ensures Serves(keys, op, query, q) ==> Filter(keys[..i], op, query) == Filter(keys, op, query)
  {
    assert keys[..|keys|] == keys;
    if Serves(keys, op, query, q) {
      FilterNothing(keys, op, query, i, |keys|);
    }
  }

  lemma ExactMatch(keys: seq<int>, op: Strategy, query: int, q: Query, i: nat)
    requires Ascending(keys) && op.Equal? && !q.partial && i <= |keys| && forall k :: 0 <= k < i ==> keys[k] < q.entry
    requires i < |keys| ==> keys[i] >= q.entry
    ensures Serves(keys, op, query, q) ==>
      Filter(keys, op, query) == if i < |keys| && keys[i] == q.entry then [q.entry] else []
  {
    if Serves(keys, op, query, q) {
      assert keys[..|keys|] == keys;
      FilterNothing(keys, op, query, 0, i);
      if i < |keys| && keys[i] == q.entry {
        assert keys[..i + 1][..i] == keys[..i];
        FilterNothing(keys, op, query, i + 1, |keys|);
      } else {
        FilterNothing(keys, op, query, i, |keys|);
      }
    }
  }

  // ---------------------------------------------------------- integer conversions

  /** cvt_int8_int2 and its kin: clamp into the indexed type's range. */
  function Clamp(query: int, least: int, greatest: int): int
    requires least <= greatest
  {
    var v := if query < least then least else query;
    if v > greatest then greatest else v
  }

  /** The nearest value of the type. */
  lemma ClampIsNearest(query: int, least: int, greatest: int, v: int)
    requires least <= v <= greatest
    ensures var r := Clamp(query, least, greatest);
      least <= r <= greatest && (if r < query then query - r else r - query) <= (if v < query then query - v else v - query)
  {
  }

  /** Clamping serves every query of every width against every set of keys in range, as
      does no conversion at all. */
  lemma ClampServes(keys: seq<int>, op: Strategy, query: int, least: int, greatest: int, crossType: bool)
    requires least <= greatest && forall k :: k in keys ==> least <= k <= greatest
    ensures var convert := if crossType then Some((v: int) => Clamp(v, least, greatest)) else None;
      Serves(keys, op, query, ExtractQuery(op, query, least, convert))
  {
  }

  /** A conversion that rounds down serves too, as long as it skips no key at or above
      the query and is exact on the values the type can hold. */
  lemma RoundingServes(keys: seq<int>, op: Strategy, query: int, leftmost: int, convert: int -> int)
    requires forall k :: k in keys ==> leftmost <= k && (query <= k ==> convert(query) <= k)
    requires query in keys ==> convert(query) == query
    ensures Serves(keys, op, query, ExtractQuery(op, query, leftmost, Some(convert)))
  {
  }

  /** So an integer index returns exactly the keys the operator selects, for a query of
      its own or of any other integer type. */
  method IntegerQuery(keys: seq<int>, op: Strategy, query: int, least: int, greatest: int, crossType: bool)
    returns (found: seq<int>)
    requires Ascending(keys) && least <= greatest && forall k :: k in keys ==> least <= k <= greatest
    ensures found == Filter(keys, op, query)
  {
    var convert := if crossType then Some((v: int) => Clamp(v, least, greatest)) else None;
    var q := ExtractQuery(op, query, least, convert);
    ClampServes(keys, op, query, least, greatest, crossType);
    found := Scan(keys, op, query, q);
  }
}
