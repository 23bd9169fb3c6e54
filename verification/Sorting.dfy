// Stable sorting by a strict weak order.
module Sorting {
  ghost predicate Orders<T(!new)>(less: (T, T) -> bool) {
    && (forall x, y :: less(x, y) ==> !less(y, x))
    && (forall x, y, z :: !less(y, x) && !less(z, y) ==> !less(z, x))
  }

  ghost predicate Sorted<T(!new)>(items: seq<T>, less: (T, T) -> bool) {
    forall i, j :: 0 <= i < j < |items| ==> !less(items[j], items[i])
  }

  function Insert<T(!new)>(items: seq<T>, item: T, less: (T, T) -> bool): (r: seq<T>)
    ensures multiset(r) == multiset(items) + multiset{item}
  {
    var n := |items| - 1;
    if items == [] || !less(item, items[n]) then items + [item] else
      assert items == items[..n] + [items[n]];
      Insert(items[..n], item, less) + [items[n]]
  }

  // Insertion sort.
  function Sort<T(!new)>(items: seq<T>, less: (T, T) -> bool): (r: seq<T>)
    ensures multiset(r) == multiset(items)
  {
    if items == [] then [] else
      var n := |items| - 1;
      assert items == items[..n] + [items[n]];
      Insert(Sort(items[..n], less), items[n], less)
  }

  lemma {:induction false} InsertKeepsSorted<T(!new)>(items: seq<T>, item: T, less: (T, T) -> bool)
    requires Orders(less) && Sorted(items, less)
    ensures Sorted(Insert(items, item, less), less)
  {
    var n := |items| - 1;
    if items != [] && less(item, items[n]) {
      InsertKeepsSorted(items[..n], item, less);
      var front := Insert(items[..n], item, less);
      forall i | 0 <= i < |front|
        ensures !less(items[n], front[i])
      {
        assert front[i] in multiset(front);
      }
    }
  }

  lemma {:induction false} SortSorts<T(!new)>(items: seq<T>, less: (T, T) -> bool)
    requires Orders(less)
    ensures Sorted(Sort(items, less), less)
  {
    if items != [] {
      SortSorts(items[..|items| - 1], less);
      InsertKeepsSorted(Sort(items[..|items| - 1], less), items[|items| - 1], less);
    }
  }

  lemma SortMembers<T(!new)>(items: seq<T>, less: (T, T) -> bool)
    ensures |Sort(items, less)| == |items|
    ensures forall x :: x in Sort(items, less) <==> x in items
  {
    var r := Sort(items, less);
    assert |multiset(r)| == |multiset(items)|;
    forall x
      ensures x in r <==> x in items
    {
      assert x in multiset(r) <==> x in multiset(items);
    }
  }
}
