/** A stable sort, as the standard library's is. */
module Sorting {

  /** The strict order of a sort key: asymmetric, and transitive on "not less". */
  ghost predicate KeyOrder<T(!new)>(less: (T, T) -> bool) {
    && (forall a, b :: less(a, b) ==> !less(b, a))
    && (forall a, b, c :: !less(b, a) && !less(c, b) ==> !less(c, a))
  }

  /** Inserts after everything that is not greater. */
  function Insert<T>(sorted: seq<T>, item: T, less: (T, T) -> bool): (result: seq<T>)
    ensures multiset(result) == multiset(sorted) + multiset{item}
  {
    if sorted == [] then [item]
    else
      var n := |sorted| - 1;
      assert sorted == sorted[..n] + [sorted[n]];
      if less(item, sorted[n]) then Insert(sorted[..n], item, less) + [sorted[n]] else sorted + [item]
  }

  function SortBy<T>(items: seq<T>, less: (T, T) -> bool): (result: seq<T>)
    ensures multiset(result) == multiset(items)
  {
    if items == [] then []
    else
      assert items == items[..|items| - 1] + [items[|items| - 1]];
      Insert(SortBy(items[..|items| - 1], less), items[|items| - 1], less)
  }

  ghost predicate Sorted<T>(items: seq<T>, less: (T, T) -> bool) {
    forall i, j :: 0 <= i < j < |items| ==> !less(items[j], items[i])
  }

  lemma {:induction false} InsertSorts<T(!new)>(sorted: seq<T>, item: T, less: (T, T) -> bool)
    requires KeyOrder(less) && Sorted(sorted, less)
    ensures Sorted(Insert(sorted, item, less), less)
  {
    if sorted == [] {
    } else {
      var n := |sorted| - 1;
      var front, last := sorted[..n], sorted[n];
      if less(item, last) {
        InsertSorts(front, item, less);
        var inserted := Insert(front, item, less);
        forall i | 0 <= i < |inserted| ensures !less(last, inserted[i]) {
          assert inserted[i] in multiset(inserted);
          if inserted[i] != item {
            assert inserted[i] in multiset(front);
          }
        }
      } else {
        forall i | 0 <= i < |sorted| ensures !less(item, sorted[i]) {
        }
      }
    }
  }

  lemma {:induction false} SortSorts<T(!new)>(items: seq<T>, less: (T, T) -> bool)
    requires KeyOrder(less)
    ensures Sorted(SortBy(items, less), less)
  {
    if items == [] {
    } else {
      SortSorts(items[..|items| - 1], less);
      InsertSorts(SortBy(items[..|items| - 1], less), items[|items| - 1], less);
    }
  }

  /** Sorting keeps exactly the elements. */
  lemma SortKeepsMembers<T(!new)>(items: seq<T>, less: (T, T) -> bool)
    ensures forall t :: t in SortBy(items, less) <==> t in items
    ensures |SortBy(items, less)| == |items|
  {
    forall t ensures t in SortBy(items, less) <==> t in items {
      assert t in SortBy(items, less) <==> t in multiset(SortBy(items, less));
      assert t in items <==> t in multiset(items);
    }
    assert |multiset(SortBy(items, less))| == |multiset(items)|;
  }

  // ---- What sorting keeps of pairs ----

  ghost predicate Symmetric<T(!new)>(relation: (T, T) -> bool) {
    forall a, b :: relation(a, b) ==> relation(b, a)
  }

  ghost predicate Pairwise<T>(items: seq<T>, relation: (T, T) -> bool) {
    forall i, j :: 0 <= i < j < |items| ==> relation(items[i], items[j])
  }

  lemma {:induction false} InsertKeepsPairs<T(!new)>(
    sorted: seq<T>, item: T, less: (T, T) -> bool, relation: (T, T) -> bool)
    requires Symmetric(relation) && Pairwise(sorted, relation) && forall t <- sorted :: relation(t, item)
    ensures Pairwise(Insert(sorted, item, less), relation)
  {
    if sorted == [] {
    } else {
      var n := |sorted| - 1;
      var front, last := sorted[..n], sorted[n];
      if less(item, last) {
        InsertKeepsPairs(front, item, less, relation);
        var inserted := Insert(front, item, less);
        forall i | 0 <= i < |inserted| ensures relation(inserted[i], last) {
          assert inserted[i] in multiset(inserted);
          if inserted[i] != item {
            assert inserted[i] in multiset(front);
          }
        }
      }
    }
  }

  /** A symmetric relation between any two positions survives sorting. */
  lemma {:induction false} SortKeepsPairs<T(!new)>(items: seq<T>, less: (T, T) -> bool, relation: (T, T) -> bool)
    requires Symmetric(relation) && Pairwise(items, relation)
    ensures Pairwise(SortBy(items, less), relation)
  {
    if items == [] {
    } else {
      var n := |items| - 1;
      SortKeepsPairs(items[..n], less, relation);
      SortKeepsMembers(items[..n], less);
      InsertKeepsPairs(SortBy(items[..n], less), items[n], less, relation);
    }
  }

  // ---- The order of texts ----

  /** Texts compare by their first difference; a prefix comes first. */
  predicate TextLess(a: string, b: string) {
    if b == [] then false
    else if a == [] then true
    else a[0] < b[0] || (a[0] == b[0] && TextLess(a[1..], b[1..]))
  }

  lemma {:induction false} TextAsymmetric(a: string, b: string)
    ensures TextLess(a, b) ==> !TextLess(b, a)
  {
    if a == [] || b == [] {
    } else {
      TextAsymmetric(a[1..], b[1..]);
    }
  }

  lemma {:induction false} TextTotal(a: string, b: string)
    ensures TextLess(a, b) || a == b || TextLess(b, a)
  {
    if a == [] || b == [] {
    } else {
      TextTotal(a[1..], b[1..]);
      assert a == [a[0]] + a[1..] && b == [b[0]] + b[1..];
    }
  }

  lemma {:induction false} TextTransitive(a: string, b: string, c: string)
    requires !TextLess(b, a) && !TextLess(c, b)
    ensures !TextLess(c, a)
  {
    if a == [] || b == [] || c == [] {
    } else if a[0] == b[0] == c[0] {
      TextTransitive(a[1..], b[1..], c[1..]);
    }
  }
}
