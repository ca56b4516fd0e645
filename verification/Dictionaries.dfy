/** Dictionaries keyed by an identity, which remember the order their items were first seen in. */
module Dictionaries {
  import opened Wrappers

  /** One identity never stands for two different items. */
  ghost predicate Unique<K, V>(items: seq<V>, key: V -> K) {
    forall i, j :: 0 <= i < j < |items| && key(items[i]) == key(items[j]) ==> items[i] == items[j]
  }

  function IndexBy<K, V>(items: seq<V>, key: V -> K): map<K, V> {
    if items == [] then map[] else IndexBy(items[..|items| - 1], key)[key(items[|items| - 1]) := items[|items| - 1]]
  }

  /** The items without repetitions, in the order of their first occurrences. */
  function FirstSeen<V(==)>(items: seq<V>): seq<V> {
    if items == [] then []
    else
      var n := |items| - 1;
      if items[n] in items[..n] then FirstSeen(items[..n]) else FirstSeen(items[..n]) + [items[n]]
  }

  lemma {:induction false} IndexHolds<K, V>(items: seq<V>, key: V -> K)
    ensures forall k <- IndexBy(items, key) :: key(IndexBy(items, key)[k]) == k && IndexBy(items, key)[k] in items
    ensures forall v <- items :: key(v) in IndexBy(items, key)
  {
    if items == [] {
    } else {
      IndexHolds(items[..|items| - 1], key);
    }
  }

  lemma {:induction false} FirstSeenHolds<V>(items: seq<V>)
    ensures forall v <- items :: v in FirstSeen(items)
    ensures forall v <- FirstSeen(items) :: v in items
    ensures forall i, j :: 0 <= i < j < |FirstSeen(items)| ==> FirstSeen(items)[i] != FirstSeen(items)[j]
  {
    if items == [] {
    } else {
      FirstSeenHolds(items[..|items| - 1]);
    }
  }

  /** The order and the index of some items, none of which contradicts another. */
  ghost predicate Gathered<K, V>(items: seq<V>, key: V -> K, order: seq<V>, indexed: map<K, V>) {
    && order == FirstSeen(items) && indexed == IndexBy(items, key)
    && (forall v <- items :: key(v) in indexed && indexed[key(v)] == v)
  }

  lemma GatheredOneMore<K, V>(items: seq<V>, key: V -> K, order: seq<V>, indexed: map<K, V>, item: V)
    requires Gathered(items, key, order, indexed) && (key(item) in indexed ==> indexed[key(item)] == item)
    ensures
      Gathered(
        items + [item], key, if key(item) in indexed then order else order + [item], indexed[key(item) := item])
  {
    IndexHolds(items, key);
    assert (items + [item])[..|items|] == items;
  }

  lemma GatheredIsUnique<K, V>(items: seq<V>, key: V -> K, order: seq<V>, indexed: map<K, V>)
    requires Gathered(items, key, order, indexed)
    ensures Unique(items, key)
  {
  }

  lemma ConflictIsNotUnique<K, V>(items: seq<V>, key: V -> K, i: nat)
    requires i < |items| && key(items[i]) in IndexBy(items[..i], key)
    requires IndexBy(items[..i], key)[key(items[i])] != items[i]
    ensures !Unique(items, key)
  {
    IndexHolds(items[..i], key);
    var other := IndexBy(items[..i], key)[key(items[i])];
    var j :| 0 <= j < i && items[j] == other;
  }

  /** The index of the items and their order, or nothing when one identity has two contents. */
  method UniqueIndex<K(==), V(==)>(items: seq<V>, key: V -> K) returns (result: Option<(seq<V>, map<K, V>)>)
    ensures result.Some? <==> Unique(items, key)
    ensures result.Some? ==> result.value == (FirstSeen(items), IndexBy(items, key))
  {
    var order: seq<V>, indexed: map<K, V> := [], map[];
    var i := 0;
    while i < |items|
      invariant 0 <= i <= |items| && Gathered(items[..i], key, order, indexed)
    {
      var item := items[i];
      if key(item) in indexed && indexed[key(item)] != item {
        ConflictIsNotUnique(items, key, i);
        return None;
      }
      GatheredOneMore(items[..i], key, order, indexed, item);
      TakeOneMore(items, i);
      if key(item) !in indexed {
        order := order + [item];
      }
      indexed := indexed[key(item) := item];
      i := i + 1;
    }
    assert items[..i] == items;
    GatheredIsUnique(items, key, order, indexed);
    return Some((order, indexed));
  }
}
