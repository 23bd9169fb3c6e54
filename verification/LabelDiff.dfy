// Exact differences between the labels of two versions of a vertex.
module LabelDiff {
  import opened Words
  import opened Nodes
  import opened Sorting
  import opened Grouping
  import opened ByteOrder
  import opened ObjectGraph

  // An undefined `before` adds, an undefined `after` removes.
  datatype ArcChange = ArcChange(name: Label, before: Option<Target>, after: Option<Target>)

  function ArcsMap(arcs: seq<Arc>): (m: map<Label, Target>)
    ensures forall a :: a in arcs ==> a.name in m
    ensures forall n :: n in m ==> Arc(n, m[n]) in arcs
  {
    if arcs == [] then map[] else
      var last := arcs[|arcs| - 1];
      assert arcs == arcs[..|arcs| - 1] + [last];
      ArcsMap(arcs[..|arcs| - 1])[last.name := last.target]
  }

  function At(m: map<Label, Target>, n: Label): Option<Target> {
    if n in m then Some(m[n]) else None
  }

  // Exactly the labels whose targets differ, each with both targets, in label order.
  ghost predicate Differences(before: map<Label, Target>, after: map<Label, Target>, changes: seq<ArcChange>) {
    && (forall c :: c in changes ==> (
          c.before == At(before, c.name) && c.after == At(after, c.name) && c.before != c.after))
    && (forall n :: At(before, n) != At(after, n) ==> Names(changes, n))
    && forall i, j :: 0 <= i < j < |changes| ==> BytesLess(changes[i].name, changes[j].name)
  }

  function ChangeLess(): (ArcChange, ArcChange) -> bool {
    ByKey(ChangeName())
  }

  // The targets an ArcSet adds or replaces; what it no longer has is left over.
  method StrikeOff(before: seq<Arc>, after: seq<Arc>) returns (found: seq<ArcChange>, rest: map<Label, Target>)
    requires DistinctNames(after)
    ensures rest == Without(ArcsMap(before), after) && Found(ArcsMap(before), ArcsMap(after), found)
    ensures forall c :: c in found ==> c.name in ArcsMap(after)
    ensures forall n :: n in ArcsMap(after) && At(ArcsMap(before), n) != At(ArcsMap(after), n) ==> Names(found, n)
  {
    hide BytesLess, Without, Seen, Found, Names;
    rest := map[];
    for i := 0 to |before|
      invariant rest == ArcsMap(before[..i])
    {
      assert before[..i + 1][..i] == before[..i];
      rest := rest[before[i].name := before[i].target];
    }
    assert before[..|before|] == before;
    ghost var was, now := ArcsMap(before), ArcsMap(after);
    found := [];
    WithoutNone(was, after);
    SeenNone(was, now, after);
    for i := 0 to |after|
      invariant rest == Without(was, after[..i])
      invariant Seen(was, now, after, i, found)
    {
      var entry := after[i];
      ArcAt(after, i);
      WithoutNext(was, after, i);
      var previous := At(rest, entry.name);
      SeenNext(was, now, after, i, found);
      if previous != Some(entry.target) {
        found := found + [ArcChange(entry.name, previous, Some(entry.target))];
      }
      rest := rest - {entry.name};
    }
    assert after[..|after|] == after;
    SeenAll(was, after, found);
  }

  // The differences among the first entries.
  ghost predicate Seen(was: map<Label, Target>, now: map<Label, Target>, after: seq<Arc>, i: nat, found: seq<ArcChange>)
    requires i <= |after|
  {
    && Found(was, now, found) && (forall c :: c in found ==> exists j :: 0 <= j < i && after[j].name == c.name)
    && forall j :: 0 <= j < i && At(was, after[j].name) != At(now, after[j].name) ==> Names(found, after[j].name)
  }

  lemma SeenNext(was: map<Label, Target>, now: map<Label, Target>, after: seq<Arc>, i: nat, found: seq<ArcChange>)
    requires i < |after| && DistinctNames(after) && Seen(was, now, after, i, found)
    requires At(now, after[i].name) == Some(after[i].target)
    ensures var previous, t := At(was, after[i].name), Some(after[i].target);
      Seen(was, now, after, i + 1, if previous != t then found + [ArcChange(after[i].name, previous, t)] else found)
  {
    hide Names;
    var c := ArcChange(after[i].name, At(was, after[i].name), Some(after[i].target));
    NamesNext(found, c);
    forall d | d in found
      ensures d.name != c.name && exists j :: 0 <= j < i + 1 && after[j].name == d.name
    {
      var j :| 0 <= j < i && after[j].name == d.name;
    }
  }

  lemma SeenNone(was: map<Label, Target>, now: map<Label, Target>, after: seq<Arc>)
    ensures Seen(was, now, after, 0, [])
  {
  }

  lemma SeenAll(was: map<Label, Target>, after: seq<Arc>, found: seq<ArcChange>)
    requires Seen(was, ArcsMap(after), after, |after|, found)
    ensures Found(was, ArcsMap(after), found)
    ensures forall c :: c in found ==> c.name in ArcsMap(after)
    ensures forall n :: n in ArcsMap(after) && At(was, n) != At(ArcsMap(after), n) ==> Names(found, n)
  {
    hide Names;
    var now := ArcsMap(after);
    forall n | n in now && At(was, n) != At(now, n)
      ensures Names(found, n)
    {
      var j :| 0 <= j < |after| && after[j] == Arc(n, now[n]);
    }
  }

  ghost predicate Names(changes: seq<ArcChange>, n: Label) {
    exists c :: c in changes && c.name == n
  }

  lemma NamesNext(changes: seq<ArcChange>, c: ArcChange)
    ensures Names(changes + [c], c.name) && forall n :: Names(changes, n) ==> Names(changes + [c], n)
  {
    assert c in changes + [c];
    forall n | Names(changes, n)
      ensures Names(changes + [c], n)
    {
      var d :| d in changes && d.name == n;
      assert d in changes + [c];
    }
  }

  // The exact label changes between two ArcSets.
  method DiffEntries(before: seq<Arc>, after: seq<Arc>) returns (changes: seq<ArcChange>)
    requires DistinctNames(after)
    ensures Differences(ArcsMap(before), ArcsMap(after), changes)
  {
    hide BytesLess, Names, ArcsMap, Without, Sort;
    ghost var was, now := ArcsMap(before), ArcsMap(after);
    var found, rest := StrikeOff(before, after);
    WithoutIs(was, after);
    ghost var left := rest;
    ghost var kept := found;
    while rest != map[]
      invariant rest.Keys <= left.Keys && forall n :: n in rest ==> rest[n] == left[n]
      invariant Found(was, now, found) && forall c :: c in found ==> c.name !in rest
      invariant forall n :: n in left && n !in rest ==> Names(found, n)
      invariant forall n :: Names(kept, n) ==> Names(found, n)
      decreases |rest|
    {
      var name :| name in rest;
      NamesNext(found, ArcChange(name, Some(rest[name]), None));
      found := found + [ArcChange(name, Some(rest[name]), None)];
      rest := rest - {name};
    }
    changes := Sort(found, ChangeLess());
    SortedChanges(was, now, found);
  }

  lemma WithoutNone(m: map<Label, Target>, arcs: seq<Arc>)
    ensures Without(m, arcs[..0]) == m
  {
  }

  lemma WithoutIs(m: map<Label, Target>, arcs: seq<Arc>)
    ensures forall n :: n in Without(m, arcs) <==> n in m && n !in ArcsMap(arcs)
    ensures forall n :: n in Without(m, arcs) ==> Without(m, arcs)[n] == m[n]
  {
  }

  // What is left of the old labels once the new ones are struck off.
  ghost function Without(m: map<Label, Target>, arcs: seq<Arc>): map<Label, Target> {
    map n | n in m && (forall a :: a in arcs ==> a.name != n) :: m[n]
  }

  lemma WithoutNext(m: map<Label, Target>, arcs: seq<Arc>, i: nat)
    requires i < |arcs|
    ensures Without(m, arcs[..i + 1]) == Without(m, arcs[..i]) - {arcs[i].name}
    ensures DistinctNames(arcs) ==> At(Without(m, arcs[..i]), arcs[i].name) == At(m, arcs[i].name)
  {
    assert arcs[..i + 1] == arcs[..i] + [arcs[i]];
  }

  lemma {:induction false} ArcAt(arcs: seq<Arc>, i: nat)
    requires DistinctNames(arcs) && i < |arcs|
    ensures At(ArcsMap(arcs), arcs[i].name) == Some(arcs[i].target)
  {
    if i < |arcs| - 1 {
      ArcAt(arcs[..|arcs| - 1], i);
    }
  }

  // Real differences at pairwise different labels.
  ghost predicate Found(before: map<Label, Target>, after: map<Label, Target>, changes: seq<ArcChange>) {
    && (forall c :: c in changes ==> (
          c.before == At(before, c.name) && c.after == At(after, c.name) && c.before != c.after))
    && forall i, j :: 0 <= i < j < |changes| ==> changes[i].name != changes[j].name
  }

  lemma SortedChanges(before: map<Label, Target>, after: map<Label, Target>, found: seq<ArcChange>)
    requires Found(before, after, found)
    requires forall n :: At(before, n) != At(after, n) ==> Names(found, n)
    ensures Differences(before, after, Sort(found, ChangeLess()))
  {
    hide BytesLess, Sort, At;
    SortMembers(found, ChangeLess());
    SortedNames(found);
    forall n | At(before, n) != At(after, n)
      ensures Names(Sort(found, ChangeLess()), n)
    {
      var c :| c in found && c.name == n;
    }
  }

  lemma SortedNames(found: seq<ArcChange>)
    requires forall i, j :: 0 <= i < j < |found| ==> found[i].name != found[j].name
    ensures var r := Sort(found, ChangeLess()); forall i, j :: 0 <= i < j < |r| ==> BytesLess(r[i].name, r[j].name)
  {
    hide BytesLess;
    var r := Sort(found, ChangeLess());
    KeyOrders(ChangeName());
    SortSorts(found, ChangeLess());
    assert Distinct(found, ChangeName());
    PermutedDistinct(found, r, ChangeName());
    forall i, j | 0 <= i < j < |r|
      ensures BytesLess(r[i].name, r[j].name)
    {
      assert !ChangeLess()(r[j], r[i]) && ChangeName()(r[i]) != ChangeName()(r[j]);
      BytesAsymmetric(r[i].name, r[j].name);
    }
  }

  function ChangeName(): ArcChange -> Label {
    (c: ArcChange) => c.name
  }

  // The labels a vertex has once changes are made.
  function Changed(m: map<Label, Target>, changes: seq<ArcChange>): map<Label, Target> {
    if changes == [] then m else
      var last := changes[|changes| - 1];
      var front := Changed(m, changes[..|changes| - 1]);
      if last.after.Some? then front[last.name := last.after.value] else front - {last.name}
  }

  // Applying the differences to the previous labels gives the new labels.
  lemma DifferencesApply(before: map<Label, Target>, after: map<Label, Target>, changes: seq<ArcChange>)
    requires Differences(before, after, changes)
    ensures Changed(before, changes) == after
  {
    hide BytesLess;
    var r := Changed(before, changes);
    forall n
      ensures At(r, n) == At(after, n)
    {
      ChangedAt(before, changes, n, At(after, n));
      if At(before, n) != At(after, n) {
        var c :| c in changes && c.name == n;
        assert c.after == At(after, n);
      }
    }
    forall n
      ensures n in r <==> n in after
      ensures n in r ==> r[n] == after[n]
    {
      assert At(r, n) == At(after, n);
    }
  }

  lemma {:induction false} ChangedAt(m: map<Label, Target>, changes: seq<ArcChange>, n: Label, v: Option<Target>)
    requires forall c :: c in changes && c.name == n ==> c.after == v
    ensures At(Changed(m, changes), n) == if exists c :: c in changes && c.name == n then v else At(m, n)
  {
    if changes != [] {
      var k := |changes| - 1;
      assert changes == changes[..k] + [changes[k]];
      ChangedAt(m, changes[..k], n, v);
      if changes[k].name == n {
        assert changes[k] in changes;
      }
    }
  }
}
