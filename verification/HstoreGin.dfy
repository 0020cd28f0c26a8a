/** The GIN operator class of hstore: the items of a row and of a query, and when a row
    whose items are known to be present counts as a match. */
module HstoreGin {
  import opened Optional
  import opened HstorePack

  datatype Item = KeyItem(key: seq<Cell>) | ValItem(val: seq<Cell>) | NullItem

  datatype Query =
    | HasAll(pairs: seq<Pair>)
    | Exists(key: seq<Cell>)
    | ExistsAny(keys: seq<Option<seq<Cell>>>)
    | ExistsAll(keys: seq<Option<seq<Cell>>>)

  // ---------------------------------------------------------------- the operators

  predicate HasKey(row: seq<Pair>, key: seq<Cell>) { exists i :: 0 <= i < |row| && row[i].key == key }

  predicate SameValue(p: Pair, q: Pair) { p.key == q.key && p.isnull == q.isnull && Value(p) == Value(q) }

  predicate HasPair(row: seq<Pair>, q: Pair) { exists i :: 0 <= i < |row| && SameValue(row[i], q) }

  /** Nulls in a key array are ignored. */
  predicate Satisfies(row: seq<Pair>, q: Query)
  {
    match q
    case HasAll(pairs) => forall j :: 0 <= j < |pairs| ==> HasPair(row, pairs[j])
    case Exists(key) => HasKey(row, key)
    case ExistsAny(keys) => exists j :: 0 <= j < |keys| && keys[j].Some? && HasKey(row, keys[j].value)
    case ExistsAll(keys) => forall j :: 0 <= j < |keys| && keys[j].Some? ==> HasKey(row, keys[j].value)
  }

  // -------------------------------------------------------------------- extraction

  function ValueItem(p: Pair): Item { if p.isnull then NullItem else ValItem(p.val) }

  predicate IsItemOf(row: seq<Pair>, it: Item)
  {
    exists i :: 0 <= i < |row| && (it == KeyItem(row[i].key) || it == ValueItem(row[i]))
  }

  /** gin_extract_hstore: a key item and a value item for each pair. */
  method Extract(row: seq<Pair>) returns (entries: seq<Item>)
    ensures |entries| == 2 * |row|
    ensures forall i :: 0 <= i < |row| ==> entries[2 * i] == KeyItem(row[i].key) && entries[2 * i + 1] == ValueItem(row[i])
    ensures forall it :: it in entries <==> IsItemOf(row, it)
  {
    entries := [];
    var i := 0;
    while i < |row|
      invariant 0 <= i <= |row| && |entries| == 2 * i
      invariant forall k :: 0 <= k < i ==> entries[2 * k] == KeyItem(row[k].key) && entries[2 * k + 1] == ValueItem(row[k])
      invariant forall it :: it in entries ==> IsItemOf(row, it)
    {
      entries := entries + [KeyItem(row[i].key)] + [ValueItem(row[i])];
      i := i + 1;
    }
    forall it | IsItemOf(row, it) ensures it in entries {
      var k :| 0 <= k < |row| && (it == KeyItem(row[k].key) || it == ValueItem(row[k]));
      assert entries[2 * k] in entries && entries[2 * k + 1] in entries;
    }
  }

  /** The items of a query, and whether every row has to be looked at. */
  datatype Plan = Plan(entries: seq<Item>, searchAll: bool)

  predicate WantedKey(keys: seq<Option<seq<Cell>>>, it: Item)
  {
    exists j :: 0 <= j < |keys| && keys[j].Some? && it == KeyItem(keys[j].value)
  }

  method KeyItems(keys: seq<Option<seq<Cell>>>) returns (entries: seq<Item>)
    ensures forall it :: it in entries <==> WantedKey(keys, it)
  {
    entries := [];
    var i := 0;
    while i < |keys|
      invariant 0 <= i <= |keys|
      invariant forall it :: it in entries ==> WantedKey(keys, it)
      invariant forall j :: 0 <= j < i && keys[j].Some? ==> KeyItem(keys[j].value) in entries
    {
      if keys[i].Some? {
        entries := entries + [KeyItem(keys[i].value)];
      }
      i := i + 1;
    }
  }

  /** What the plan must hold for each operator. */
  ghost predicate PlanFor(q: Query, plan: Plan)
  {
    match q
    case HasAll(pairs) => (forall it :: it in plan.entries <==> IsItemOf(pairs, it)) && (plan.searchAll <==> plan.entries == [])
    case Exists(key) => plan == Plan([KeyItem(key)], false)
    case ExistsAny(keys) => (forall it :: it in plan.entries <==> WantedKey(keys, it)) && !plan.searchAll
    case ExistsAll(keys) => (forall it :: it in plan.entries <==> WantedKey(keys, it)) && (plan.searchAll <==> plan.entries == [])
  }

  /** gin_extract_hstore_query. */
  method ExtractQuery(q: Query) returns (plan: Plan)
    ensures PlanFor(q, plan)
  {
    var entries: seq<Item>;
    match q {
      case HasAll(pairs) =>
        entries := Extract(pairs);
        plan := Plan(entries, entries == []);
      case Exists(key) => plan := Plan([KeyItem(key)], false);
      case ExistsAny(keys) =>
        entries := KeyItems(keys);
        plan := Plan(entries, false);
      case ExistsAll(keys) =>
        entries := KeyItems(keys);
        plan := Plan(entries, entries == []);
    }
  }

  // ------------------------------------------------------------------- consistency

  predicate AllPresent(check: seq<bool>) { forall i :: 0 <= i < |check| ==> check[i] }

  /** gin_consistent_hstore: whether the row can match, and whether to look at it. */
  method Consistent(q: Query, check: seq<bool>) returns (res: bool, recheck: bool)
    ensures res <==> (q.HasAll? || q.ExistsAll? ==> AllPresent(check))
    ensures recheck <==> q.HasAll?
  {
    res, recheck := true, q.HasAll?;
    if q.HasAll? || q.ExistsAll? {
      var i := 0;
      while i < |check|
        invariant 0 <= i <= |check| && res && forall k :: 0 <= k < i ==> check[k]
      {
        if !check[i] {
          return false, recheck;
        }
        i := i + 1;
      }
    }
  }

  /** A row is handed on when it has some item of the query, or all rows are looked at,
      and it is consistent. */
  ghost predicate Returned(row: seq<Pair>, q: Query, plan: Plan)
  {
    && (plan.searchAll || exists it :: it in plan.entries && IsItemOf(row, it))
    && (q.HasAll? || q.ExistsAll? ==> forall it :: it in plan.entries ==> IsItemOf(row, it))
  }

  lemma KeyItemIff(row: seq<Pair>, key: seq<Cell>)
    ensures IsItemOf(row, KeyItem(key)) <==> HasKey(row, key)
  {
  }

  /** The three key operators are answered exactly, with no recheck. */
  lemma KeyOperatorsExact(row: seq<Pair>, q: Query, plan: Plan)
    requires !q.HasAll? && PlanFor(q, plan)
    ensures Returned(row, q, plan) <==> Satisfies(row, q)
  {
    match q
    case Exists(key) => KeyItemIff(row, key);
    case ExistsAny(keys) => AnyExact(row, keys, plan);
    case ExistsAll(keys) => AllExact(row, keys, plan);
  }

  lemma AnyExact(row: seq<Pair>, keys: seq<Option<seq<Cell>>>, plan: Plan)
    requires PlanFor(ExistsAny(keys), plan)
    ensures Returned(row, ExistsAny(keys), plan) <==> Satisfies(row, ExistsAny(keys))
  {
    if it :| it in plan.entries && IsItemOf(row, it) {
      var j :| 0 <= j < |keys| && keys[j].Some? && it == KeyItem(keys[j].value);
      KeyItemIff(row, keys[j].value);
    }
    if j :| 0 <= j < |keys| && keys[j].Some? && HasKey(row, keys[j].value) {
      KeyItemIff(row, keys[j].value);
      assert WantedKey(keys, KeyItem(keys[j].value));
    }
  }

  lemma AllExact(row: seq<Pair>, keys: seq<Option<seq<Cell>>>, plan: Plan)
    requires PlanFor(ExistsAll(keys), plan)
    ensures Returned(row, ExistsAll(keys), plan) <==> Satisfies(row, ExistsAll(keys))
  {
    forall j | 0 <= j < |keys| && keys[j].Some?
      ensures KeyItem(keys[j].value) in plan.entries && (IsItemOf(row, KeyItem(keys[j].value)) <==> HasKey(row, keys[j].value))
    {
      assert WantedKey(keys, KeyItem(keys[j].value));
      KeyItemIff(row, keys[j].value);
    }
    if plan.entries != [] {
      assert plan.entries[0] in plan.entries;
    }
  }

  /** Containment never loses a row; what it returns still has to be rechecked. */
  lemma ContainmentNeverLoses(row: seq<Pair>, pairs: seq<Pair>, plan: Plan)
    requires PlanFor(HasAll(pairs), plan) && Satisfies(row, HasAll(pairs))
    ensures Returned(row, HasAll(pairs), plan)
  {
    forall it | it in plan.entries ensures IsItemOf(row, it) {
      var j :| 0 <= j < |pairs| && (it == KeyItem(pairs[j].key) || it == ValueItem(pairs[j]));
      assert HasPair(row, pairs[j]);
      var i :| 0 <= i < |row| && SameValue(row[i], pairs[j]);
      assert ValueItem(row[i]) == ValueItem(pairs[j]);
    }
    if plan.entries != [] {
      assert plan.entries[0] in plan.entries;
    }
  }

  /** Why: keys and values are looked for separately. */
  lemma ContainmentNeedsRecheck() returns (row: seq<Pair>, pairs: seq<Pair>)
    ensures !Satisfies(row, HasAll(pairs))
    ensures forall plan :: PlanFor(HasAll(pairs), plan) ==> Returned(row, HasAll(pairs), plan)
  {
    row := [Pair([1], [10], false), Pair([2], [20], false)];
    pairs := [Pair([1], [20], false)];
    assert !HasPair(row, pairs[0]);
    forall plan | PlanFor(HasAll(pairs), plan) ensures Returned(row, HasAll(pairs), plan) {
      assert IsItemOf(pairs, KeyItem(pairs[0].key));
      assert IsItemOf(row, KeyItem(row[0].key)) && IsItemOf(row, ValueItem(row[1]));
      forall it | it in plan.entries ensures IsItemOf(row, it) {
        assert IsItemOf(pairs, it);
      }
    }
  }
}
