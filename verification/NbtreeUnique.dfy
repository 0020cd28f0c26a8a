/** amcheck's uniqueness check on one leaf page: it keeps the last visible entry of the
    current key and visits the heap as late as it can. */
module NbtreeUnique {
  import opened Optional

  /** Key attributes (None is null) and the heap TIDs, more than one in a posting list. */
  datatype Entry = Entry(key: seq<Option<int>>, tids: seq<int>)

  predicate HasNull(e: Entry) { exists i :: 0 <= i < |e.key| && e.key[i].None? }

  /** Two visible heap TIDs under one key without nulls. */
  predicate Conflict(items: seq<Entry>, visible: set<int>, i: nat, a: nat, k: nat, b: nat)
  {
    && i <= k < |items| && a < |items[i].tids| && b < |items[k].tids| && (i == k ==> a < b)
    && items[i].key == items[k].key && !HasNull(items[i])
    && items[i].tids[a] in visible && items[k].tids[b] in visible
  }

  ghost predicate Duplicate(items: seq<Entry>, visible: set<int>, n: nat)
  {
    exists i: nat, a: nat, k: nat, b: nat :: k < n && Conflict(items, visible, i, a, k, b)
  }

  /** On a sorted page equal keys stand together. */
  predicate Contiguous(items: seq<Entry>)
  {
    forall i, j, k :: 0 <= i < j < k < |items| && items[i].key == items[k].key ==> items[i].key == items[j].key
  }

  predicate AnyVisible(tids: seq<int>, visible: set<int>) { exists a :: 0 <= a < |tids| && tids[a] in visible }

  predicate TwoVisible(tids: seq<int>, visible: set<int>)
  {
    exists a, b :: 0 <= a < b < |tids| && tids[a] in visible && tids[b] in visible
  }

  /** bt_entry_unique_check on the page itself; true stands for the report. */
  method EntryCheck(tids: seq<int>, visible: set<int>, last: Option<int>) returns (report: bool, next: Option<int>)
    ensures report <==> TwoVisible(tids, visible) || (last.Some? && AnyVisible(tids, visible))
    ensures !report ==> (next.Some? <==> last.Some? || AnyVisible(tids, visible))
  {
    next := last;
    var i := 0;
    while i < |tids|
      invariant 0 <= i <= |tids|
      invariant next.Some? <==> last.Some? || exists a :: 0 <= a < i && tids[a] in visible
      invariant forall a, b :: 0 <= a < b < i ==> !(tids[a] in visible && tids[b] in visible)
      invariant last.Some? ==> forall a :: 0 <= a < i ==> tids[a] !in visible
    {
      if tids[i] in visible {
        if next.Some? {
          return true, next;
        }
        next := Some(tids[i]);
      }
      i := i + 1;
    }
    report := false;
  }

  /** A visible TID of j's key on an item before j. */
  ghost predicate SeenBefore(items: seq<Entry>, visible: set<int>, j: nat)
    requires j < |items|
  {
    exists i: nat, a: nat :: SeenAt(items, visible, j, i, a)
  }

  predicate SeenAt(items: seq<Entry>, visible: set<int>, j: nat, i: nat, a: nat)
    requires j < |items|
  {
    i < j && a < |items[i].tids| && items[i].key == items[j].key && !HasNull(items[j]) && items[i].tids[a] in visible
  }

  /** One more item brings a duplicate exactly when the entry check would report. */
  lemma NextDuplicate(items: seq<Entry>, visible: set<int>, j: nat)
    requires j < |items|
    ensures Duplicate(items, visible, j + 1) <==>
      || Duplicate(items, visible, j)
      || (!HasNull(items[j]) && TwoVisible(items[j].tids, visible))
      || (SeenBefore(items, visible, j) && AnyVisible(items[j].tids, visible))
  {
    if !HasNull(items[j]) && TwoVisible(items[j].tids, visible) {
      var a, b :| 0 <= a < b < |items[j].tids| && items[j].tids[a] in visible && items[j].tids[b] in visible;
      assert Conflict(items, visible, j, a, j, b);
    }
    if SeenBefore(items, visible, j) && AnyVisible(items[j].tids, visible) {
      var i: nat, a: nat :| SeenAt(items, visible, j, i, a);
      var b :| 0 <= b < |items[j].tids| && items[j].tids[b] in visible;
      assert Conflict(items, visible, i, a, j, b);
    }
    if Duplicate(items, visible, j + 1) && !Duplicate(items, visible, j) {
      var i: nat, a: nat, k: nat, b: nat :| k < j + 1 && Conflict(items, visible, i, a, k, b);
      assert k == j;
      if i < j {
        assert SeenAt(items, visible, j, i, a);
      }
    }
    if Duplicate(items, visible, j) {
      var i: nat, a: nat, k: nat, b: nat :| k < j && Conflict(items, visible, i, a, k, b);
      assert k < j + 1;
    }
  }

  /** What has been seen before the next item. */
  lemma NextSeen(items: seq<Entry>, visible: set<int>, j: nat)
    requires j + 1 < |items| && Contiguous(items)
    ensures SeenBefore(items, visible, j + 1) <==>
      && items[j].key == items[j + 1].key && !HasNull(items[j])
      && (SeenBefore(items, visible, j) || AnyVisible(items[j].tids, visible))
  {
    var m := j + 1;
    if SeenBefore(items, visible, m) {
      var i: nat, a: nat :| SeenAt(items, visible, m, i, a);
      if i < j {
        assert items[i].key == items[j].key;
        assert SeenAt(items, visible, j, i, a);
      }
    }
    if items[j].key == items[m].key && !HasNull(items[j]) {
      if SeenBefore(items, visible, j) {
        var i: nat, a: nat :| SeenAt(items, visible, j, i, a);
        assert SeenAt(items, visible, m, i, a);
      }
      if AnyVisible(items[j].tids, visible) {
        var a :| 0 <= a < |items[j].tids| && items[j].tids[a] in visible;
        assert SeenAt(items, visible, m, j, a);
      }
    }
  }

  /** The uniqueness part of bt_target_page_check's item loop: posting lists and keys
      already seen visible are checked at once, a first plain tuple only when the next
      item repeats its key. */
  method UniqueCheck(items: seq<Entry>, visible: set<int>) returns (report: bool)
    requires Contiguous(items) && forall j :: 0 <= j < |items| ==> items[j].tids != []
    ensures report <==> Duplicate(items, visible, |items|)
  {
    var last: Option<int> := None;
    var j := 0;
    report := false;
    assert items != [] ==> !SeenBefore(items, visible, 0);
    while j < |items| && !report
      invariant 0 <= j <= |items| && report == Duplicate(items, visible, j)
      invariant j < |items| && !report ==> (last.Some? <==> SeenBefore(items, visible, j))
    {
      NextDuplicate(items, visible, j);
      var checked := false;
      if !HasNull(items[j]) && (|items[j].tids| > 1 || last.Some?) {
        report, last := EntryCheck(items[j].tids, visible, last);
        checked := true;
      }
      if j + 1 < |items| && !report {
        NextSeen(items, visible, j);
        if items[j].key != items[j + 1].key || HasNull(items[j]) {
          last := None;
        } else if !checked {
          report, last := EntryCheck(items[j].tids, visible, last);
        }
      }
      j := j + 1;
    }
    if report {
      DuplicateGrows(items, visible, j);
    }
  }

  lemma DuplicateGrows(items: seq<Entry>, visible: set<int>, n: nat)
    requires Duplicate(items, visible, n)
    ensures Duplicate(items, visible, |items|)
  {
    var i: nat, a: nat, k: nat, b: nat :| k < n && Conflict(items, visible, i, a, k, b);
    assert k < |items|;
  }
}
