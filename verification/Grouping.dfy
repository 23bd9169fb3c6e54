// Batches split by the slot each item is routed to.
module Grouping {

  // The items routed to one slot, in batch order.
  function Select<T(!new)>(items: seq<T>, f: T -> nat, slot: nat): (part: seq<T>)
    ensures forall x :: x in part <==> x in items && f(x) == slot
    ensures |part| <= |items|
  {
    if items == [] then [] else
      var last := items[|items| - 1];
      var front := Select(items[..|items| - 1], f, slot);
      assert items == items[..|items| - 1] + [last];
      if f(last) == slot then front + [last] else front
  }

  function Group<T>(groups: map<nat, seq<T>>, slot: nat): seq<T> {
    if slot in groups then groups[slot] else []
  }

  method GroupBy<T(!new)>(items: seq<T>, f: T -> nat) returns (groups: map<nat, seq<T>>)
    ensures forall slot: nat :: Group(groups, slot) == Select(items, f, slot)
  {
    groups := map[];
    for i := 0 to |items|
      invariant forall slot: nat :: Group(groups, slot) == Select(items[..i], f, slot)
    {
      var slot := f(items[i]);
      assert items[..i + 1][..i] == items[..i];
      groups := groups[slot := Group(groups, slot) + [items[i]]];
    }
    assert items[..|items|] == items;
  }

  // Pairwise different keys.
  ghost predicate Distinct<T(!new), K(!new)>(items: seq<T>, key: T -> K) {
    forall i, j :: 0 <= i < j < |items| ==> key(items[i]) != key(items[j])
  }

  lemma {:induction false} SelectDistinct<T(!new), K(!new)>(items: seq<T>, key: T -> K, f: T -> nat, slot: nat)
    requires Distinct(items, key)
    ensures Distinct(Select(items, f, slot), key)
  {
    if items != [] {
      var front := items[..|items| - 1];
      SelectDistinct(front, key, f, slot);
      forall x | x in Select(front, f, slot)
        ensures key(x) != key(items[|items| - 1])
      {
        var i :| 0 <= i < |front| && front[i] == x;
        assert items[i] == x;
      }
    }
  }

  // Reordering a batch keeps its keys distinct.
  lemma PermutedDistinct<T(!new), K(!new)>(x: seq<T>, y: seq<T>, key: T -> K)
    requires multiset(x) == multiset(y) && Distinct(x, key)
    ensures Distinct(y, key)
  {
    forall i, j | 0 <= i < j < |y|
      ensures key(y[i]) != key(y[j])
    {
      assert y == y[..i] + [y[i]] + y[i + 1..];
      assert y[i + 1..][j - i - 1] == y[j];
      if y[i] == y[j] {
        assert multiset(y)[y[i]] >= 2;
        OnceOnly(x, y[i], key);
      } else {
        assert y[i] in multiset(x) && y[j] in multiset(x);
        DistinctMembers(x, y[i], y[j], key);
      }
    }
  }

  lemma DistinctMembers<T(!new), K(!new)>(x: seq<T>, a: T, c: T, key: T -> K)
    requires Distinct(x, key) && a in x && c in x && a != c
    ensures key(a) != key(c)
  {
    var p :| 0 <= p < |x| && x[p] == a;
    var q :| 0 <= q < |x| && x[q] == c;
    if p < q {
      assert key(x[p]) != key(x[q]);
    } else {
      assert key(x[q]) != key(x[p]);
    }
  }

  lemma {:induction false} OnceOnly<T(!new), K(!new)>(x: seq<T>, item: T, key: T -> K)
    requires Distinct(x, key)
    ensures multiset(x)[item] <= 1
  {
    if x != [] {
      var n := |x| - 1;
      assert x == x[..n] + [x[n]];
      OnceOnly(x[..n], item, key);
      forall i | 0 <= i < n
        ensures x[..n][i] != x[n]
      {
        assert key(x[i]) != key(x[n]);
      }
    }
  }
}
